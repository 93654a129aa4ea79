/** A block's provisional credit over a whole run: from the step that writes it, through everything
    that happens meanwhile, to the step that pays it out, or to nothing at all. */
module Credits {
  import opened FiniteSums
  import opened Rewards
  import opened Rows
  import opened Books
  import opened Ledger
  import opened Lifecycle
  import opened Invariants
  import opened Safety
  import opened Runs
  import opened Payouts

  /** The step credits block `n` provisionally. */
  ghost predicate GivesCredit(s: System, step: Step, n: string) {
    && step.WriteNextImmature? && step.outcome != Refused
    && s.work.Crediting? && s.work.confirmed != [] && s.work.confirmed[0].block.nonce == n
      && CanReward(s.work.confirmed[0].block)
  }

  /** What such a step credits. */
  ghost function CreditGiven(s: System, fees: FeeConfig): Log
    requires s.work.Crediting? && s.work.confirmed != [] && CanReward(s.work.confirmed[0].block)
  {
    var b := s.work.confirmed[0].block;
    CalculateRewards(fees, b, RoundOf(s.ledger, b))
  }

  ghost predicate IsCredited(s: System, n: string) { n in s.stage && s.stage[n].Immature? && !s.stage[n].row.orphan }

  /** The log of a credited block. */
  function OwnCredit(s: System, n: string): Log
    requires n in s.stage && s.stage[n].Immature?
  {
    LogOf(s.ledger, s.stage[n].row, s.stage[n].height)
  }

  // ---------- one step ----------

  /** A block that is immature before and after a step has not changed. */
  lemma ImmatureStays(s: System, step: Step, n: string, cfg: UnlockerConfig, nonceOf: string -> string)
    requires WorkMatches(s.work, s.stage, cfg.fees, nonceOf) && Enabled(s, step, cfg, nonceOf)
    requires n in s.stage && s.stage[n].Immature? && n in StageAfter(s, step) && StageAfter(s, step)[n].Immature?
    ensures StageAfter(s, step)[n] == s.stage[n]
  {
    match step
    case WritePendingOrphans(_) =>
      forall item <- s.work.orphans ensures item.block.nonce != n {
        assert OrphanItem(item, s.stage);
      }
      StageElsewhere(s.stage, s.work.orphans, n);
    case WriteNextImmature(_) => assert ConfirmedItem(s.work.confirmed[0], s.stage, cfg.fees, nonceOf);
    case _ =>
  }

  lemma CreditsFromRounds(s: System, n: string, cfg: UnlockerConfig, nonceOf: string -> string)
    requires Inv(s, cfg, nonceOf) && IsCredited(s, n)
    ensures RoundKey(s.stage[n].height, n) in s.ledger.shares.rounds
    ensures OwnCredit(s, n) == CreditsUnder(cfg.fees)(s.stage[n].row,
                                                      s.ledger.shares.rounds[RoundKey(s.stage[n].height, n)])
    ensures CreditKey(s.stage[n].height, s.stage[n].row.hash) in s.ledger.books.open
  {
    assert CreditLogged(s.ledger.books.open, s.ledger.shares.rounds, CreditsUnder(cfg.fees), n, s.stage[n]);
  }

  lemma CreditStays(s: System, step: Step, n: string, cfg: UnlockerConfig, nonceOf: string -> string)
    requires Inv(s, cfg, nonceOf) && Enabled(s, step, cfg, nonceOf) && IsCredited(s, n)
    requires n in Apply(s, step, cfg, nonceOf).stage && Apply(s, step, cfg, nonceOf).stage[n].Immature?
    ensures Apply(s, step, cfg, nonceOf).stage[n] == s.stage[n]
    ensures OwnCredit(Apply(s, step, cfg, nonceOf), n) == OwnCredit(s, n)
  {
    var s' := Apply(s, step, cfg, nonceOf);
    ImmatureStays(s, step, n, cfg, nonceOf);
    StepKeepsInv(s, step, cfg, nonceOf);
    FrozenRoundsDoNotChange(s, step, n, cfg, nonceOf);
    CreditsFromRounds(s, n, cfg, nonceOf);
    CreditsFromRounds(s', n, cfg, nonceOf);
  }

  /** A step that makes a block a credited one is the step that credits it. */
  lemma OnlyCreditsMakeCredited(s: System, step: Step, n: string, cfg: UnlockerConfig, nonceOf: string -> string)
    requires WorkMatches(s.work, s.stage, cfg.fees, nonceOf) && Enabled(s, step, cfg, nonceOf)
    requires !IsCredited(s, n) && n in StageAfter(s, step) && StageAfter(s, step)[n].Immature?
      && !StageAfter(s, step)[n].row.orphan
    ensures GivesCredit(s, step, n)
  {
    match step
    case WritePendingOrphans(_) => OrphansAreNotCredited(s.stage, s.work.orphans, n);
    case _ =>
  }

  lemma {:induction false} OrphansAreNotCredited(stage: map<string, Stage>, items: seq<Item<CandidateRow>>, n: string)
    requires forall item <- items :: item.block.orphan
    ensures var now := AllNowImmature(stage, items);
      n in now && now[n].Immature? && !now[n].row.orphan ==> n in stage && now[n] == stage[n]
  {
    if items != [] {
      OrphansAreNotCredited(stage, items[..|items| - 1], n);
    }
  }

  /** The credit given is what is logged, under the hash the chain gave. */
  lemma CreditIsLogged(s: System, step: Step, n: string, cfg: UnlockerConfig, nonceOf: string -> string)
    requires Inv(s, cfg, nonceOf) && Enabled(s, step, cfg, nonceOf) && GivesCredit(s, step, n)
    ensures var s' := Apply(s, step, cfg, nonceOf);
      && Inv(s', cfg, nonceOf) && IsCredited(s', n)
      && s'.stage[n].row.hash == s.work.confirmed[0].block.hash
      && OwnCredit(s', n) == CreditGiven(s, cfg.fees)
  {
    var s', item := Apply(s, step, cfg, nonceOf), s.work.confirmed[0];
    StepKeepsInv(s, step, cfg, nonceOf);
    assert ConfirmedItem(item, s.stage, cfg.fees, nonceOf);
    ImmatureWritten(s, step.outcome, cfg.fees);
    ConfirmedRewards(item, s.ledger, s.stage, cfg.fees, nonceOf);
    CreditsFromRounds(s', n, cfg, nonceOf);
  }

  // ---------- whole runs ----------

  lemma ImmatureBetween(states: seq<System>, steps: seq<Step>, j: nat, k: nat, i: nat, n: string, cfg: UnlockerConfig,
                        nonceOf: string -> string)
    requires Run(states, steps, cfg, nonceOf) && j <= k <= i <= |steps|
    requires n in states[j].stage && states[j].stage[n].Immature? && n in states[i].stage
      && states[i].stage[n].Immature?
    ensures n in states[k].stage && states[k].stage[n].Immature?
  {
    RunMovesForward(states, steps, j, k, n, cfg, nonceOf);
    RunMovesForward(states, steps, k, i, n, cfg, nonceOf);
  }

  /** A block is credited in both states, by the same row and with the same log. */
  ghost predicate SameCredit(a: System, b: System, n: string) {
    IsCredited(a, n) && IsCredited(b, n) && b.stage[n] == a.stage[n] && OwnCredit(b, n) == OwnCredit(a, n)
  }

  lemma CreditKeptOnce(states: seq<System>, steps: seq<Step>, k: nat, n: string, cfg: UnlockerConfig,
                       nonceOf: string -> string)
    requires Run(states, steps, cfg, nonceOf) && k < |steps|
    requires IsCredited(states[k], n) && n in states[k + 1].stage && states[k + 1].stage[n].Immature?
    ensures SameCredit(states[k], states[k + 1], n)
  {
    EveryStateIsSafe(states, steps, k, cfg, nonceOf);
    CreditStays(states[k], steps[k], n, cfg, nonceOf);
  }

  lemma {:induction false} SameCreditsJoin(states: seq<System>, j: nat, i: nat, n: string)
    requires j <= i < |states| && IsCredited(states[j], n)
    requires forall k :: j <= k < i && IsCredited(states[k], n) ==> SameCredit(states[k], states[k + 1], n)
    ensures SameCredit(states[j], states[i], n)
    decreases i
  {
    if j < i {
      SameCreditsJoin(states, j, i - 1, n);
      assert SameCredit(states[i - 1], states[i - 1 + 1], n);
    }
  }

  /** Between two moments at which a credited block is immature, its row, height and log do not change. */
  lemma CreditKept(states: seq<System>, steps: seq<Step>, j: nat, i: nat, n: string, cfg: UnlockerConfig,
                   nonceOf: string -> string)
    requires Run(states, steps, cfg, nonceOf) && j <= i <= |steps|
    requires IsCredited(states[j], n) && n in states[i].stage && states[i].stage[n].Immature?
    ensures SameCredit(states[j], states[i], n)
  {
    forall k | j <= k < i && IsCredited(states[k], n) ensures SameCredit(states[k], states[k + 1], n) {
      ImmatureBetween(states, steps, j, k + 1, i, n, cfg, nonceOf);
      CreditKeptOnce(states, steps, k, n, cfg, nonceOf);
    }
    SameCreditsJoin(states, j, i, n);
  }

  lemma RunStepMakesCredited(states: seq<System>, steps: seq<Step>, k: nat, n: string, cfg: UnlockerConfig,
                             nonceOf: string -> string)
    requires Run(states, steps, cfg, nonceOf) && k < |steps| && IsCredited(states[k + 1], n)
    ensures IsCredited(states[k], n) || GivesCredit(states[k], steps[k], n)
  {
    if !IsCredited(states[k], n) {
      EveryStateIsSafe(states, steps, k, cfg, nonceOf);
      OnlyCreditsMakeCredited(states[k], steps[k], n, cfg, nonceOf);
    }
  }

  lemma {:induction false} SomeStepGave(states: seq<System>, steps: seq<Step>, i: nat, n: string) returns (j: nat)
    requires i <= |steps| < |states| && !IsCredited(states[0], n) && IsCredited(states[i], n)
    requires forall k :: 0 <= k < |steps| && IsCredited(states[k + 1], n) ==>
      IsCredited(states[k], n) || GivesCredit(states[k], steps[k], n)
    ensures j < i && GivesCredit(states[j], steps[j], n)
    decreases i
  {
    assert IsCredited(states[i - 1 + 1], n);
    if IsCredited(states[i - 1], n) {
      j := SomeStepGave(states, steps, i - 1, n);
    } else {
      j := i - 1;
    }
  }

  /** A credited block was credited by exactly such a step. */
  lemma WasCredited(states: seq<System>, steps: seq<Step>, i: nat, n: string, cfg: UnlockerConfig,
                    nonceOf: string -> string)
    returns (j: nat)
    requires Run(states, steps, cfg, nonceOf) && i <= |steps| && IsCredited(states[i], n)
    ensures j < i && GivesCredit(states[j], steps[j], n)
  {
    forall k | 0 <= k < |steps| && IsCredited(states[k + 1], n)
      ensures IsCredited(states[k], n) || GivesCredit(states[k], steps[k], n)
    {
      RunStepMakesCredited(states, steps, k, n, cfg, nonceOf);
    }
    j := SomeStepGave(states, steps, i, n);
  }

  /** From the step that credits a block until it matures, its log is the credit given. */
  lemma CreditGivenIsKept(states: seq<System>, steps: seq<Step>, j: nat, i: nat, n: string, cfg: UnlockerConfig,
                          nonceOf: string -> string)
    requires Run(states, steps, cfg, nonceOf) && j < i <= |steps| && GivesCredit(states[j], steps[j], n)
    requires n in states[i].stage && states[i].stage[n].Immature?
    ensures IsCredited(states[i], n) && states[i].stage[n].row.hash == states[j].work.confirmed[0].block.hash
    ensures OwnCredit(states[i], n) == CreditGiven(states[j], cfg.fees)
  {
    EveryStateIsSafe(states, steps, j, cfg, nonceOf);
    CreditIsLogged(states[j], steps[j], n, cfg, nonceOf);
    CreditKept(states, steps, j + 1, i, n, cfg, nonceOf);
  }

  /** Every payout of a block that was no orphan pays a credit given earlier in the run: each miner's balance
      rises by what that earlier step credited to it, and its immature amount falls by as much if the
      hash is still the one credited and the log can be read, and otherwise not at all. */
  lemma PayoutPaysTheCredit(states: seq<System>, steps: seq<Step>, i: nat, login: string, cfg: UnlockerConfig,
                            nonceOf: string -> string)
    returns (j: nat)
    requires Run(states, steps, cfg, nonceOf) && i < |steps| && WriteRuns(states[i].work, steps[i])
      && steps[i].WriteNextMatured?
    requires !states[i].work.ripe[0].key.orphan
    ensures j < i && GivesCredit(states[j], steps[j], states[i].work.ripe[0].block.nonce)
    ensures var b, b', amount := states[i].ledger.books, states[i + 1].ledger.books,
      Get(CreditGiven(states[j], cfg.fees), login);
      && Get(b'.balance, login) - Get(b.balance, login) == amount
      && Get(b.immature, login) - Get(b'.immature, login)
         == if steps[i].logRead && states[i].work.ripe[0].block.hash == states[j].work.confirmed[0].block.hash
           then amount else 0
  {
    var s, item := states[i], states[i].work.ripe[0];
    var n := item.block.nonce;
    EveryStateIsSafe(states, steps, i, cfg, nonceOf);
    assert RipeItem(item, s.stage, cfg.fees, nonceOf);
    j := WasCredited(states, steps, i, n, cfg, nonceOf);
    CreditGivenIsKept(states, steps, j, i, n, cfg, nonceOf);
    RipeRewardsAreLogged(s.ledger, s.stage, item, cfg.fees, nonceOf);
    MaturingPaysTheLog(s.ledger, s.stage, item, cfg.fees, nonceOf, steps[i].logRead, login);
    MaturedWritten(s, steps[i].outcome, steps[i].logRead, cfg.fees);
  }

  /** A block whose row was an orphan when it became immature has never been credited, and is paid all
      the same if the chain names its nonce again: its rewards reach the balances, and no immature
      amount falls. */
  lemma OrphanPaysUncredited(states: seq<System>, steps: seq<Step>, i: nat, login: string, cfg: UnlockerConfig,
                             nonceOf: string -> string)
    requires Run(states, steps, cfg, nonceOf) && i < |steps| && WriteRuns(states[i].work, steps[i])
      && steps[i].WriteNextMatured?
    requires states[i].work.ripe[0].key.orphan
    ensures var n := states[i].work.ripe[0].block.nonce; forall j: nat :: j < i ==> !GivesCredit(states[j], steps[j], n)
    ensures var b, b', item := states[i].ledger.books, states[i + 1].ledger.books, states[i].work.ripe[0];
      var rewards := CalculateRewards(cfg.fees, item.block, RoundOf(states[i].ledger, item.block));
      && rewards != map[]
      && Get(b'.balance, login) - Get(b.balance, login) == Get(rewards, login)
      && Get(b'.immature, login) == Get(b.immature, login)
  {
    var s, item := states[i], states[i].work.ripe[0];
    EveryStateIsSafe(states, steps, i, cfg, nonceOf);
    RipeRewardsAreLogged(s.ledger, s.stage, item, cfg.fees, nonceOf);
    MaturingPaysTheLog(s.ledger, s.stage, item, cfg.fees, nonceOf, steps[i].logRead, login);
    MaturedWritten(s, steps[i].outcome, steps[i].logRead, cfg.fees);
    forall j: nat | j < i ensures !GivesCredit(states[j], steps[j], item.block.nonce) {
      OrphanWasNotCredited(states, steps, j, i, cfg, nonceOf);
    }
  }

  lemma OrphanWasNotCredited(states: seq<System>, steps: seq<Step>, j: nat, i: nat, cfg: UnlockerConfig,
                             nonceOf: string -> string)
    requires Run(states, steps, cfg, nonceOf) && j < i < |steps|
    requires var work := states[i].work; work.MatureLoaded? && work.ripe != [] && work.ripe[0].key.orphan
    ensures !GivesCredit(states[j], steps[j], states[i].work.ripe[0].block.nonce)
  {
    var s, item := states[i], states[i].work.ripe[0];
    EveryStateIsSafe(states, steps, i, cfg, nonceOf);
    assert RipeItem(item, s.stage, cfg.fees, nonceOf);
    if GivesCredit(states[j], steps[j], item.block.nonce) {
      CreditGivenIsKept(states, steps, j, i, item.block.nonce, cfg, nonceOf);
    }
  }

  /** A payout is preceded by a provisional credit of its block if and only if the block was no orphan
      when it became immature. */
  lemma PayoutWasCreditedIff(states: seq<System>, steps: seq<Step>, i: nat, cfg: UnlockerConfig,
                             nonceOf: string -> string)
    requires Run(states, steps, cfg, nonceOf) && i < |steps| && WriteRuns(states[i].work, steps[i])
      && steps[i].WriteNextMatured?
    ensures var item := states[i].work.ripe[0];
      (exists j: nat :: j < i && GivesCredit(states[j], steps[j], item.block.nonce)) <==> !item.key.orphan
  {
    if states[i].work.ripe[0].key.orphan {
      OrphanPaysUncredited(states, steps, i, "", cfg, nonceOf);
    } else {
      var _ := PayoutPaysTheCredit(states, steps, i, "", cfg, nonceOf);
    }
  }

  // ---------- credits left behind ----------

  /** A log of a matured block, left open under a hash that is no longer the block's. */
  ghost predicate LeftOpen(s: System, key: CreditKey, nonceOf: string -> string) {
    key in s.ledger.books.open && nonceOf(key.hash) in s.stage && s.stage[nonceOf(key.hash)].Matured?
  }

  lemma {:induction false} OrphansKeepBooks(l: Ledger, items: seq<Item<CandidateRow>>)
    ensures PendingOrphans(l, items).books == l.books
  {
    if items != [] {
      OrphansKeepBooks(l, items[..|items| - 1]);
    }
  }

  lemma CreditKeepsOtherLogs(b: Books, credited: CreditKey, rewards: Log, key: CreditKey)
    requires key in b.open && key != credited
    ensures var open := CreditImmature(b, credited, rewards).open; key in open && open[key] == b.open[key]
  {
  }

  lemma RevertKeepsOtherLogs(b: Books, reverted: CreditKey, read: Log, key: CreditKey)
    requires key in b.open && key != reverted
    ensures var open := RevertImmature(b, reverted, read).open; key in open && open[key] == b.open[key]
  {
  }

  lemma CreditLeavesLeftOpen(s: System, item: Item<CandidateRow>, rewards: Log, key: CreditKey, fees: FeeConfig,
                             nonceOf: string -> string)
    requires ConfirmedItem(item, s.stage, fees, nonceOf) && LeftOpen(s, key, nonceOf)
    ensures var open := ImmatureBlockWritten(s.ledger, item, rewards).books.open;
      key in open && open[key] == s.ledger.books.open[key]
  {
    CreditKeepsOtherLogs(s.ledger.books, CreditKey(item.block.height, item.block.hash), rewards, key);
  }

  lemma RevertLeavesLeftOpen(s: System, item: Item<BlockRow>, logRead: bool, key: CreditKey, nonceOf: string -> string)
    requires LeftOpen(s, key, nonceOf) && |key.hash| >= 10
    requires item.key.nonce in s.stage && s.stage[item.key.nonce].Immature?
    requires item.block.hash == "0x0" || nonceOf(item.block.hash) == item.key.nonce
    ensures var open := OrphanBlockWritten(s.ledger, item, logRead).books.open;
      key in open && open[key] == s.ledger.books.open[key]
  {
    var reverted := CreditKey(item.block.roundHeight, item.block.hash);
    RevertKeepsOtherLogs(s.ledger.books, reverted, ReadLog(s.ledger.books, reverted, logRead), key);
  }

  lemma OrphanWriteKeepsLeftOpen(s: System, step: Step, key: CreditKey, cfg: UnlockerConfig, nonceOf: string -> string)
    requires Inv(s, cfg, nonceOf) && WriteRuns(s.work, step) && LeftOpen(s, key, nonceOf) && step.WriteNextOrphan?
    ensures var open := OrphanBlockWritten(s.ledger, s.work.lost[0], step.logRead).books.open;
      key in open && open[key] == s.ledger.books.open[key]
  {
    assert LostItem(s.work.lost[0], s.stage);
    LostHash(s.work.lost[0], s.ledger, s.stage, CreditsUnder(cfg.fees), nonceOf);
    RevertLeavesLeftOpen(s, s.work.lost[0], step.logRead, key, nonceOf);
  }

  lemma MaturedWriteKeepsLeftOpen(s: System, step: Step, key: CreditKey, cfg: UnlockerConfig, nonceOf: string -> string)
    requires Inv(s, cfg, nonceOf) && WriteRuns(s.work, step) && LeftOpen(s, key, nonceOf) && step.WriteNextMatured?
    ensures var item := s.work.ripe[0];
      var open := MaturedBlockWritten(s.ledger, item,
                                      CalculateRewards(cfg.fees, item.block, RoundOf(s.ledger, item.block)),
                                      step.logRead).books.open;
      key in open && open[key] == s.ledger.books.open[key]
  {
    assert RipeItem(s.work.ripe[0], s.stage, cfg.fees, nonceOf);
    RevertLeavesLeftOpen(s, s.work.ripe[0], step.logRead, key, nonceOf);
  }

  lemma WriteKeepsLeftOpen(s: System, step: Step, key: CreditKey, cfg: UnlockerConfig, nonceOf: string -> string)
    requires Inv(s, cfg, nonceOf) && WriteRuns(s.work, step) && LeftOpen(s, key, nonceOf)
    ensures var open := LedgerWritten(s.ledger, s.work, step, cfg.fees).books.open;
      key in open && open[key] == s.ledger.books.open[key]
  {
    if step.WritePendingOrphans? {
      OrphansKeepBooks(s.ledger, s.work.orphans);
    } else if step.WriteNextImmature? {
      var item := s.work.confirmed[0];
      CreditLeavesLeftOpen(s, item, CalculateRewards(cfg.fees, item.block, RoundOf(s.ledger, item.block)), key,
                           cfg.fees, nonceOf);
    } else if step.WriteNextOrphan? {
      OrphanWriteKeepsLeftOpen(s, step, key, cfg, nonceOf);
    } else {
      MaturedWriteKeepsLeftOpen(s, step, key, cfg, nonceOf);
    }
  }

  lemma StepKeepsLog(s: System, step: Step, key: CreditKey, cfg: UnlockerConfig, nonceOf: string -> string)
    requires Inv(s, cfg, nonceOf) && Enabled(s, step, cfg, nonceOf) && LeftOpen(s, key, nonceOf)
    ensures var open := LedgerAfter(s, step, cfg.fees).books.open;
      key in open && open[key] == s.ledger.books.open[key]
  {
    if WriteRuns(s.work, step) {
      WriteKeepsLeftOpen(s, step, key, cfg, nonceOf);
    }
  }

  lemma StepKeepsMatured(s: System, step: Step, n: string, cfg: UnlockerConfig, nonceOf: string -> string)
    requires WorkMatches(s.work, s.stage, cfg.fees, nonceOf) && Enabled(s, step, cfg, nonceOf)
    requires n in s.stage && s.stage[n].Matured?
    ensures n in StageAfter(s, step) && StageAfter(s, step)[n].Matured?
  {
    StageMovesForward(s, step, cfg, nonceOf);
    assert Rank(s.stage[n]) <= Rank(StageAfter(s, step)[n]);
  }

  /** A log is left open in both states and holds the same. */
  ghost predicate SameLeftOpen(a: System, b: System, key: CreditKey, nonceOf: string -> string) {
    LeftOpen(a, key, nonceOf) && LeftOpen(b, key, nonceOf) && b.ledger.books.open[key] == a.ledger.books.open[key]
  }

  lemma RunStepKeepsLeftOpen(states: seq<System>, steps: seq<Step>, k: nat, key: CreditKey, cfg: UnlockerConfig,
                             nonceOf: string -> string)
    requires Run(states, steps, cfg, nonceOf) && k < |steps| && LeftOpen(states[k], key, nonceOf)
    ensures SameLeftOpen(states[k], states[k + 1], key, nonceOf)
  {
    EveryStateIsSafe(states, steps, k, cfg, nonceOf);
    StepKeepsLog(states[k], steps[k], key, cfg, nonceOf);
    StepKeepsMatured(states[k], steps[k], nonceOf(key.hash), cfg, nonceOf);
  }

  lemma {:induction false} LeftOpenJoins(states: seq<System>, i: nat, k: nat, key: CreditKey, nonceOf: string -> string)
    requires i <= k < |states| && LeftOpen(states[i], key, nonceOf)
    requires forall m :: i <= m < k && LeftOpen(states[m], key, nonceOf) ==>
      SameLeftOpen(states[m], states[m + 1], key, nonceOf)
    ensures SameLeftOpen(states[i], states[k], key, nonceOf)
    decreases k
  {
    if i < k {
      LeftOpenJoins(states, i, k - 1, key, nonceOf);
      assert SameLeftOpen(states[k - 1], states[k - 1 + 1], key, nonceOf);
    }
  }

  /** A log left open stays open, with all it holds, for the rest of the run. */
  lemma LeftOpenForGood(states: seq<System>, steps: seq<Step>, i: nat, k: nat, key: CreditKey, cfg: UnlockerConfig,
                        nonceOf: string -> string)
    requires Run(states, steps, cfg, nonceOf) && i <= k <= |steps| && LeftOpen(states[i], key, nonceOf)
    ensures LeftOpen(states[k], key, nonceOf) && states[k].ledger.books.open[key] == states[i].ledger.books.open[key]
  {
    forall m | i <= m < k && LeftOpen(states[m], key, nonceOf)
      ensures SameLeftOpen(states[m], states[m + 1], key, nonceOf)
    {
      RunStepKeepsLeftOpen(states, steps, m, key, cfg, nonceOf);
    }
    LeftOpenJoins(states, i, k, key, nonceOf);
  }

  /** A payout under another hash than that of the credit leaves the credit open for the rest of the run. */
  lemma OtherHashLeavesCreditForGood(states: seq<System>, steps: seq<Step>, i: nat, k: nat, cfg: UnlockerConfig,
                                     nonceOf: string -> string)
    requires Run(states, steps, cfg, nonceOf) && i < k <= |steps| && WriteRuns(states[i].work, steps[i])
      && steps[i].WriteNextMatured?
    requires var item := states[i].work.ripe[0]; !item.key.orphan && item.block.hash != item.key.hash
    ensures var item := states[i].work.ripe[0];
      var key := CreditKey(item.block.height, item.key.hash);
      key in states[k].ledger.books.open
        && states[k].ledger.books.open[key] == LogOf(states[i].ledger, item.key, item.block.height)
  {
    var s, item := states[i], states[i].work.ripe[0];
    var key := CreditKey(item.block.height, item.key.hash);
    EveryStateIsSafe(states, steps, i, cfg, nonceOf);
    assert RipeItem(item, s.stage, cfg.fees, nonceOf);
    RipeRewardsAreLogged(s.ledger, s.stage, item, cfg.fees, nonceOf);
    MaturedWritten(s, steps[i].outcome, steps[i].logRead, cfg.fees);
    CreditsFromRounds(s, item.key.nonce, cfg, nonceOf);
    assert LeftOpen(states[i + 1], key, nonceOf);
    LeftOpenForGood(states, steps, i + 1, k, key, cfg, nonceOf);
  }

  // ---------- blocks that are never listed ----------

  lemma UnlistedStays(s: System, step: Step, n: string, cfg: UnlockerConfig, nonceOf: string -> string)
    requires WorkMatches(s.work, s.stage, cfg.fees, nonceOf) && Enabled(s, step, cfg, nonceOf)
    requires n in s.stage && s.stage[n].Frozen? && step != ListCandidate(n)
    ensures n in StageAfter(s, step) && StageAfter(s, step)[n] == s.stage[n]
    ensures !GivesCredit(s, step, n) && !PaysOut(s, step, n)
  {
    match step
    case WritePendingOrphans(_) =>
      forall item <- s.work.orphans ensures item.block.nonce != n {
        assert OrphanItem(item, s.stage);
      }
      StageElsewhere(s.stage, s.work.orphans, n);
    case WriteNextImmature(_) => assert ConfirmedItem(s.work.confirmed[0], s.stage, cfg.fees, nonceOf);
    case WriteNextOrphan(_, _) => assert LostItem(s.work.lost[0], s.stage);
    case WriteNextMatured(_, _) => assert RipeItem(s.work.ripe[0], s.stage, cfg.fees, nonceOf);
    case _ =>
  }

  /** A block is frozen in both states, and its round is there with the same content. */
  ghost predicate SameFrozen(a: System, b: System, n: string) {
    && n in a.stage && a.stage[n].Frozen? && n in b.stage && b.stage[n] == a.stage[n]
    && var key := RoundKey(a.stage[n].height, n);
      && key in a.ledger.shares.rounds && key in b.ledger.shares.rounds
      && b.ledger.shares.rounds[key] == a.ledger.shares.rounds[key]
  }

  lemma RunStepKeepsFrozen(states: seq<System>, steps: seq<Step>, k: nat, n: string, cfg: UnlockerConfig,
                           nonceOf: string -> string)
    requires Run(states, steps, cfg, nonceOf) && k < |steps|
    requires n in states[k].stage && states[k].stage[n].Frozen? && steps[k] != ListCandidate(n)
    ensures SameFrozen(states[k], states[k + 1], n)
    ensures !GivesCredit(states[k], steps[k], n) && !PaysOut(states[k], steps[k], n)
  {
    EveryStateIsSafe(states, steps, k, cfg, nonceOf);
    UnlistedStays(states[k], steps[k], n, cfg, nonceOf);
    FrozenRoundsDoNotChange(states[k], steps[k], n, cfg, nonceOf);
  }

  lemma {:induction false} FrozenJoins(states: seq<System>, i: nat, k: nat, n: string)
    requires i <= k < |states| && SameFrozen(states[i], states[i], n)
    requires forall m :: i <= m < k && n in states[m].stage && states[m].stage[n].Frozen? ==>
      SameFrozen(states[m], states[m + 1], n)
    ensures SameFrozen(states[i], states[k], n)
    decreases k
  {
    if i < k {
      FrozenJoins(states, i, k - 1, n);
      assert SameFrozen(states[k - 1], states[k - 1 + 1], n);
    }
  }

  /** A frozen block that nothing lists stays frozen, its round stays as it is, and it is neither
      credited nor paid, however long the run goes on. */
  lemma UnlistedIsNeverPaid(states: seq<System>, steps: seq<Step>, i: nat, k: nat, n: string, cfg: UnlockerConfig,
                            nonceOf: string -> string)
    requires Run(states, steps, cfg, nonceOf) && i <= k <= |steps|
    requires n in states[i].stage && states[i].stage[n].Frozen?
    requires forall m :: i <= m < k ==> steps[m] != ListCandidate(n)
    ensures SameFrozen(states[i], states[k], n)
    ensures forall m: nat :: i <= m < k ==> !GivesCredit(states[m], steps[m], n) && !PaysOut(states[m], steps[m], n)
    decreases k
  {
    forall m | i <= m < k && n in states[m].stage && states[m].stage[n].Frozen?
      ensures SameFrozen(states[m], states[m + 1], n)
    {
      RunStepKeepsFrozen(states, steps, m, n, cfg, nonceOf);
    }
    RoundLivesUntilMaturity(states, steps, i, n, cfg, nonceOf);
    FrozenJoins(states, i, k, n);
    forall m: nat | i <= m < k ensures !GivesCredit(states[m], steps[m], n) && !PaysOut(states[m], steps[m], n) {
      FrozenJoins(states, i, m, n);
      RunStepKeepsFrozen(states, steps, m, n, cfg, nonceOf);
    }
  }
}
