/** Theorems over whole runs of the pool. */
module Runs {
  import opened Wrappers
  import opened FiniteSums
  import opened Rewards
  import opened Rows
  import opened Books
  import opened Ledger
  import opened Lifecycle
  import opened Invariants
  import opened Safety

  /** A run: the empty pool, then enabled steps in any interleaving. */
  ghost predicate Run(states: seq<System>, steps: seq<Step>, cfg: UnlockerConfig, nonceOf: string -> string) {
    && |states| == |steps| + 1 && states[0] == START
    && (forall i :: 0 <= i < |steps| ==>
          Enabled(states[i], steps[i], cfg, nonceOf) && states[i + 1] == Apply(states[i], steps[i], cfg, nonceOf))
  }

  lemma {:induction false} EveryStateIsSafe(states: seq<System>, steps: seq<Step>, i: nat, cfg: UnlockerConfig,
                                            nonceOf: string -> string)
    requires Run(states, steps, cfg, nonceOf) && i <= |steps|
    ensures Inv(states[i], cfg, nonceOf)
  {
    if i == 0 {
      InvAtStart(cfg, nonceOf);
    } else {
      EveryStateIsSafe(states, steps, i - 1, cfg, nonceOf);
      StepKeepsInv(states[i - 1], steps[i - 1], cfg, nonceOf);
    }
  }

  // ---------- where a block is ----------

  /** The rows of block `n` in the three ZSETs. */
  ghost function CandidateRowsOf(q: Queues, n: string): set<CandidateRow> { set r <- q.candidates | r.nonce == n }
  ghost function ImmatureRowsOf(q: Queues, n: string): set<BlockRow> { set r <- q.immature | r.nonce == n }
  ghost function MaturedRowsOf(q: Queues, n: string): set<BlockRow> { set r <- q.matured | r.nonce == n }

  lemma OneRowIfMatching(q: Queues, stage: map<string, Stage>, n: string)
    requires QueuesMatch(q, stage) && n in stage
    ensures |CandidateRowsOf(q, n)| == (if stage[n].Candidate? then 1 else 0)
    ensures |ImmatureRowsOf(q, n)| == (if stage[n].Immature? then 1 else 0)
    ensures |MaturedRowsOf(q, n)| == (if stage[n].Matured? then 1 else 0)
  {
    assert RowListed(q, n, stage[n]);
    assert CandidateRowsOf(q, n) == if stage[n].Candidate? then {stage[n].candidate} else {};
    assert ImmatureRowsOf(q, n) == if stage[n].Immature? then {stage[n].row} else {};
    assert MaturedRowsOf(q, n) == if stage[n].Matured? then {stage[n].row} else {};
  }

  /** Once its candidate row is written, a block has exactly one row, in exactly one ZSET. */
  lemma ExactlyOneRow(states: seq<System>, steps: seq<Step>, i: nat, n: string, cfg: UnlockerConfig,
                      nonceOf: string -> string)
    requires Run(states, steps, cfg, nonceOf) && i <= |steps| && n in states[i].stage
    ensures var q, s := states[i].ledger.queues, states[i].stage[n];
      && |CandidateRowsOf(q, n)| == (if s.Candidate? then 1 else 0)
      && |ImmatureRowsOf(q, n)| == (if s.Immature? then 1 else 0)
      && |MaturedRowsOf(q, n)| == (if s.Matured? then 1 else 0)
  {
    EveryStateIsSafe(states, steps, i, cfg, nonceOf);
    OneRowIfMatching(states[i].ledger.queues, states[i].stage, n);
  }

  /** A block's round hash exists exactly from the moment the block is found until it matures, and
      until then it sums to the share count of the block's row, which is never zero. */
  lemma RoundLivesUntilMaturity(states: seq<System>, steps: seq<Step>, i: nat, n: string, cfg: UnlockerConfig,
                                nonceOf: string -> string)
    requires Run(states, steps, cfg, nonceOf) && i <= |steps| && n in states[i].stage
    ensures var rounds, s := states[i].ledger.shares.rounds, states[i].stage[n];
      && (forall h :: RoundKey(h, n) in rounds <==> h == s.height && !s.Matured?)
      && (!s.Matured? ==> Sum(rounds[RoundKey(s.height, n)]) == SharesOf(s) >= 1)
  {
    EveryStateIsSafe(states, steps, i, cfg, nonceOf);
  }

  /** A block keeps its height and share count and moves forward by at most one place. */
  ghost predicate MovesForward(before: map<string, Stage>, after: map<string, Stage>) {
    forall n <- before :: n in after && before[n].height == after[n].height && SharesOf(before[n]) == SharesOf(after[n])
                       && Rank(before[n]) <= Rank(after[n]) <= Rank(before[n]) + 1
  }

  lemma {:induction false} OrphansMoveForward(stage: map<string, Stage>, items: seq<Item<CandidateRow>>)
    requires (forall item <- items :: OrphanItem(item, stage)) && Distinct(items)
    ensures MovesForward(stage, AllNowImmature(stage, items))
  {
    if items != [] {
      var last := |items| - 1;
      OrphansMoveForward(stage, items[..last]);
      StageElsewhere(stage, items[..last], items[last].block.nonce);
      assert OrphanItem(items[last], stage);
    }
  }

  lemma RestageMovesForward(stage: map<string, Stage>, n: string, s: Stage)
    requires n in stage ==>
      s.height == stage[n].height && SharesOf(s) == SharesOf(stage[n])
        && Rank(stage[n]) <= Rank(s) <= Rank(stage[n]) + 1
    ensures MovesForward(stage, stage[n := s])
  {
  }

  lemma WriteMovesForward(s: System, step: Step, fees: FeeConfig, nonceOf: string -> string)
    requires WorkMatches(s.work, s.stage, fees, nonceOf) && WriteRuns(s.work, step)
    requires step.WriteNextMatured? ==> s.work.lost == []
    ensures MovesForward(s.stage, StageAfter(s, step))
  {
    match step
    case WritePendingOrphans(_) => OrphansMoveForward(s.stage, s.work.orphans);
    case WriteNextImmature(_) =>
      var b := s.work.confirmed[0].block;
      assert ConfirmedItem(s.work.confirmed[0], s.stage, fees, nonceOf);
      RestageMovesForward(s.stage, b.nonce, Immature(RowOf(b), b.height));
    case WriteNextOrphan(_, _) =>
      var b := s.work.lost[0].block;
      assert LostItem(s.work.lost[0], s.stage);
      RestageMovesForward(s.stage, b.nonce, Matured(RowOf(b), b.height));
    case WriteNextMatured(_, _) =>
      var b := s.work.ripe[0].block;
      assert RipeItem(s.work.ripe[0], s.stage, fees, nonceOf);
      RestageMovesForward(s.stage, b.nonce, Matured(RowOf(b), b.height));
  }

  lemma StageMovesForward(s: System, step: Step, cfg: UnlockerConfig, nonceOf: string -> string)
    requires WorkMatches(s.work, s.stage, cfg.fees, nonceOf) && Enabled(s, step, cfg, nonceOf)
    ensures MovesForward(s.stage, StageAfter(s, step))
  {
    if WriteRuns(s.work, step) {
      WriteMovesForward(s, step, cfg.fees, nonceOf);
    } else if step.Found? {
      RestageMovesForward(s.stage, step.row.nonce, Frozen(step.row, step.height));
    } else if step.ListCandidate? {
      var f := s.stage[step.nonce];
      RestageMovesForward(s.stage, step.nonce, Candidate(f.candidate, f.height));
    }
  }

  lemma StepMovesForward(s: System, step: Step, cfg: UnlockerConfig, nonceOf: string -> string)
    requires Inv(s, cfg, nonceOf) && Enabled(s, step, cfg, nonceOf)
    ensures MovesForward(s.stage, Apply(s, step, cfg, nonceOf).stage)
  {
    StageMovesForward(s, step, cfg, nonceOf);
  }

  lemma RunStepMovesForward(states: seq<System>, steps: seq<Step>, k: nat, cfg: UnlockerConfig,
                            nonceOf: string -> string)
    requires Run(states, steps, cfg, nonceOf) && k < |steps|
    ensures MovesForward(states[k].stage, states[k + 1].stage)
  {
    EveryStateIsSafe(states, steps, k, cfg, nonceOf);
    StepMovesForward(states[k], steps[k], cfg, nonceOf);
  }

  lemma {:induction false} ForwardMovesJoin(stages: seq<map<string, Stage>>, i: nat, j: nat, n: string)
    requires i <= j < |stages| && n in stages[i]
    requires forall k :: i <= k < j ==> MovesForward(stages[k], stages[k + 1])
    ensures n in stages[j] && Rank(stages[i][n]) <= Rank(stages[j][n])
    ensures stages[i][n].height == stages[j][n].height && SharesOf(stages[i][n]) == SharesOf(stages[j][n])
    decreases j
  {
    if i < j {
      ForwardMovesJoin(stages, i, j - 1, n);
      assert MovesForward(stages[j - 1], stages[j - 1 + 1]);
    }
  }

  function StagesOf(states: seq<System>): seq<map<string, Stage>> {
    seq(|states|, k requires 0 <= k < |states| => states[k].stage)
  }

  lemma RunMovesForward(states: seq<System>, steps: seq<Step>, i: nat, j: nat, n: string, cfg: UnlockerConfig,
                        nonceOf: string -> string)
    requires Run(states, steps, cfg, nonceOf) && i <= j <= |steps| && n in states[i].stage
    ensures n in states[j].stage && Rank(states[i].stage[n]) <= Rank(states[j].stage[n])
    ensures states[i].stage[n].height == states[j].stage[n].height
      && SharesOf(states[i].stage[n]) == SharesOf(states[j].stage[n])
  {
    forall k | i <= k < j ensures MovesForward(StagesOf(states)[k], StagesOf(states)[k + 1]) {
      RunStepMovesForward(states, steps, k, cfg, nonceOf);
    }
    ForwardMovesJoin(StagesOf(states), i, j, n);
  }

  // ---------- what a block pays ----------

  /** The step credits the balances of the miners of block `n`. */
  ghost predicate PaysOut(s: System, step: Step, n: string) {
    && step.WriteNextMatured? && step.outcome != Refused
    && s.work.MatureLoaded? && s.work.lost == [] && s.work.ripe != [] && s.work.ripe[0].block.nonce == n
  }

  lemma PayoutMatures(s: System, step: Step, n: string, cfg: UnlockerConfig, nonceOf: string -> string)
    requires WorkMatches(s.work, s.stage, cfg.fees, nonceOf) && PaysOut(s, step, n) && CanReward(s.work.ripe[0].block)
    ensures n in s.stage && s.stage[n].Immature?
    ensures n in StageAfter(s, step) && StageAfter(s, step)[n].Matured?
  {
    assert RipeItem(s.work.ripe[0], s.stage, cfg.fees, nonceOf);
  }

  /** In no run do a block's rewards reach the balances twice, whatever fails or restarts between. */
  lemma PaidAtMostOnce(states: seq<System>, steps: seq<Step>, i: nat, j: nat, n: string, cfg: UnlockerConfig,
                       nonceOf: string -> string)
    requires Run(states, steps, cfg, nonceOf) && i < |steps| && j < |steps|
    requires PaysOut(states[i], steps[i], n) && PaysOut(states[j], steps[j], n)
    ensures i == j
  {
    var a, b := if i <= j then i else j, if i <= j then j else i;
    if a < b {
      EveryStateIsSafe(states, steps, a, cfg, nonceOf);
      EveryStateIsSafe(states, steps, b, cfg, nonceOf);
      MaturedWriteMatches(states[a], steps[a].outcome, steps[a].logRead, cfg, nonceOf);
      MaturedWriteMatches(states[b], steps[b].outcome, steps[b].logRead, cfg, nonceOf);
      PayoutMatures(states[a], steps[a], n, cfg, nonceOf);
      PayoutMatures(states[b], steps[b], n, cfg, nonceOf);
      RunMovesForward(states, steps, a + 1, b, n, cfg, nonceOf);
    }
  }

  /** A write leaves every frozen round alone but that of the block it matures. */
  lemma WriteKeepsOtherRounds(s: System, step: Step, key: RoundKey, fees: FeeConfig, nonceOf: string -> string)
    requires WorkMatches(s.work, s.stage, fees, nonceOf) && WriteRuns(s.work, step) && key in s.ledger.shares.rounds
    requires !(step.WriteNextOrphan? && s.work.lost[0].block.nonce == key.nonce)
    requires !(step.WriteNextMatured? && s.work.ripe[0].block.nonce == key.nonce)
    ensures var rounds := LedgerWritten(s.ledger, s.work, step, fees).shares.rounds;
      key in rounds && rounds[key] == s.ledger.shares.rounds[key]
  {
    match step
    case WritePendingOrphans(_) => OrphansKeepRounds(s.ledger, s.stage, s.work.orphans);
    case WriteNextImmature(_) => assert ConfirmedItem(s.work.confirmed[0], s.stage, fees, nonceOf);
    case _ =>
  }

  lemma OtherStepsKeepRounds(s: System, step: Step, key: RoundKey, cfg: UnlockerConfig, nonceOf: string -> string)
    requires Enabled(s, step, cfg, nonceOf) && !WriteRuns(s.work, step) && key in s.ledger.shares.rounds
    requires step.Found? ==> RoundKey(step.height, step.row.nonce) != key
    ensures var rounds := LedgerAfter(s, step, cfg.fees).shares.rounds;
      key in rounds && rounds[key] == s.ledger.shares.rounds[key]
  {
  }

  /** No step but its own maturing touches a frozen round, so what was read of it stays true. */
  lemma FrozenRoundsDoNotChange(s: System, step: Step, n: string, cfg: UnlockerConfig, nonceOf: string -> string)
    requires RoundsMatch(s.ledger.shares.rounds, s.stage) && WorkMatches(s.work, s.stage, cfg.fees, nonceOf)
    requires Enabled(s, step, cfg, nonceOf) && n in s.stage && !s.stage[n].Matured?
    requires n in StageAfter(s, step) ==> !StageAfter(s, step)[n].Matured?
    ensures var key, rounds := RoundKey(s.stage[n].height, n), LedgerAfter(s, step, cfg.fees).shares.rounds;
      key in s.ledger.shares.rounds && key in rounds && rounds[key] == s.ledger.shares.rounds[key]
  {
    if WriteRuns(s.work, step) {
      WriteKeepsOtherRounds(s, step, RoundKey(s.stage[n].height, n), cfg.fees, nonceOf);
    } else {
      OtherStepsKeepRounds(s, step, RoundKey(s.stage[n].height, n), cfg, nonceOf);
    }
  }

  lemma {:induction false} OrphansKeepRounds(l: Ledger, stage: map<string, Stage>, items: seq<Item<CandidateRow>>)
    requires forall item <- items :: OrphanItem(item, stage)
    ensures PendingOrphans(l, items).shares == l.shares
    ensures PendingOrphans(l, items).books == l.books
  {
    if items != [] {
      var last := |items| - 1;
      OrphansKeepRounds(l, stage, items[..last]);
      assert OrphanItem(items[last], stage);
    }
  }

  /** Nothing the unlocker writes differs: no block has matured or become immature, no candidate has
      left its list, no credit was written or undone. */
  ghost predicate UnlockerSilent(l: Ledger, l': Ledger) {
    && l'.queues.immature == l.queues.immature && l'.queues.matured == l.queues.matured
    && l.queues.candidates.Keys <= l'.queues.candidates.Keys
    && l'.books.immature == l.books.immature && l'.books.open == l.books.open && l'.books.closed == l.books.closed
    && l'.books.finances.totalMined == l.books.finances.totalMined
  }

  lemma HaltedStepIsSilent(s: System, step: Step, cfg: UnlockerConfig, nonceOf: string -> string)
    requires (s.halted ==> s.work.Idle?) && Enabled(s, step, cfg, nonceOf) && s.halted
    ensures step.Restart? || ProcessAfter(s, step, cfg, nonceOf).halted
    ensures UnlockerSilent(s.ledger, LedgerAfter(s, step, cfg.fees))
  {
  }

  /** A halted unlocker stays halted and writes nothing until its process restarts; shares, new blocks
      and payments go on. */
  lemma {:induction false} HaltedUnlockerIsSilent(states: seq<System>, steps: seq<Step>, i: nat, j: nat,
                                                  cfg: UnlockerConfig, nonceOf: string -> string)
    requires Run(states, steps, cfg, nonceOf) && i <= j <= |steps| && states[i].halted
    requires forall k :: i <= k < j ==> !steps[k].Restart?
    ensures states[j].halted && UnlockerSilent(states[i].ledger, states[j].ledger)
    decreases j
  {
    if i < j {
      HaltedUnlockerIsSilent(states, steps, i, j - 1, cfg, nonceOf);
      EveryStateIsSafe(states, steps, j - 1, cfg, nonceOf);
      HaltedStepIsSilent(states[j - 1], steps[j - 1], cfg, nonceOf);
    }
  }

  /** What stops the unlocker: a listing or a round that cannot be read, an answer the node does not give,
      and every write that is not acknowledged, whether its transaction ran or not. */
  predicate Stops(step: Step) {
    match step
    case LoadFails => true
    case ReadFails => true
    case LoadCandidates(_, _, answers) => exists i :: 0 <= i < |answers| && answers[i].None?
    case LoadImmature(_, _, answers) => exists i :: 0 <= i < |answers| && answers[i].None?
    case WritePendingOrphans(outcome) => outcome != Applied
    case WriteNextImmature(outcome) => outcome != Applied
    case WriteNextOrphan(outcome, _) => outcome != Applied
    case WriteNextMatured(outcome, _) => outcome != Applied
    case _ => false
  }

  lemma ErrorHalts(s: System, step: Step, cfg: UnlockerConfig, nonceOf: string -> string)
    requires Inv(s, cfg, nonceOf) && Enabled(s, step, cfg, nonceOf) && Stops(step)
    ensures ProcessAfter(s, step, cfg, nonceOf) == Process(Idle, true)
  {
    match step
    case LoadCandidates(_, order, answers) =>
      var i :| 0 <= i < |answers| && answers[i].None?;
      FailureIsFinal(cfg.fees, CandidateItems(order, s.ledger.queues.candidates), answers, i);
    case LoadImmature(_, rows, answers) =>
      var i :| 0 <= i < |answers| && answers[i].None?;
      FailureIsFinal(cfg.fees, ImmatureItems(rows, s.ledger.queues.immature), answers, i);
    case WriteNextImmature(outcome) => ImmatureWriteMatches(s, outcome, cfg, nonceOf);
    case WriteNextMatured(outcome, logRead) => MaturedWriteMatches(s, outcome, logRead, cfg, nonceOf);
    case _ =>
  }

  /** Every error halts the unlocker at once. */
  lemma ErrorsHalt(states: seq<System>, steps: seq<Step>, k: nat, cfg: UnlockerConfig, nonceOf: string -> string)
    requires Run(states, steps, cfg, nonceOf) && k < |steps| && Stops(steps[k])
    ensures states[k + 1].halted && states[k + 1].work.Idle?
  {
    EveryStateIsSafe(states, steps, k, cfg, nonceOf);
    ErrorHalts(states[k], steps[k], cfg, nonceOf);
  }

  // ---------- finite stretches of a run ----------

  /** The state that steps lead to, if each of them is enabled in its turn. */
  ghost function Reached(s: System, steps: seq<Step>, cfg: UnlockerConfig, nonceOf: string -> string): Option<System> {
    if steps == [] then Some(s)
    else
      var before := Reached(s, steps[..|steps| - 1], cfg, nonceOf);
      var step := steps[|steps| - 1];
      if before.Some? && Enabled(before.value, step, cfg, nonceOf) then Some(Apply(before.value, step, cfg, nonceOf))
        else None
  }

  lemma ReachedNext(s: System, steps: seq<Step>, here: System, step: Step, cfg: UnlockerConfig,
                    nonceOf: string -> string)
    requires Reached(s, steps, cfg, nonceOf) == Some(here) && Enabled(here, step, cfg, nonceOf)
    ensures Reached(s, steps + [step], cfg, nonceOf) == Some(Apply(here, step, cfg, nonceOf))
  {
    assert (steps + [step])[..|steps|] == steps;
  }

  lemma OneStep(here: System, step: Step, cfg: UnlockerConfig, nonceOf: string -> string)
    requires Enabled(here, step, cfg, nonceOf)
    ensures Reached(here, [step], cfg, nonceOf) == Some(Apply(here, step, cfg, nonceOf))
  {
    ReachedNext(here, [], here, step, cfg, nonceOf);
    assert [] + [step] == [step];
  }

  /** At any moment the unlocker's process can be restarted: it then has nothing to write and is not
      halted, and nothing that is stored has changed. */
  lemma RestartIsStep(here: System, cfg: UnlockerConfig, nonceOf: string -> string)
    ensures Reached(here, [Restart], cfg, nonceOf) == Some(here.(work := Idle, halted := false))
  {
    OneStep(here, Restart, cfg, nonceOf);
  }

  /** Every debit, rollback and payment is a step of the pool, from any state of it. */
  lemma PaymentsAreSteps(here: System, login: string, amount: int, cfg: UnlockerConfig, nonceOf: string -> string)
    ensures var l := here.ledger;
      && Reached(here, [PayDebit(login, amount)], cfg, nonceOf)
         == Some(here.(ledger := l.(books := Debit(l.books, login, amount))))
      && Reached(here, [PayRollback(login, amount)], cfg, nonceOf)
         == Some(here.(ledger := l.(books := Rollback(l.books, login, amount))))
      && Reached(here, [PayWritten(login, amount)], cfg, nonceOf)
         == Some(here.(ledger := l.(books := Pay(l.books, login, amount))))
  {
    OneStep(here, PayDebit(login, amount), cfg, nonceOf);
    OneStep(here, PayRollback(login, amount), cfg, nonceOf);
    OneStep(here, PayWritten(login, amount), cfg, nonceOf);
  }
}
