/** Whose work it was: each miner's share difficulty over a whole run, from the shares it brings to the
    rounds that pay for them. */
module Contributions {
  import opened FiniteSums
  import opened Books
  import opened Ledger
  import opened Lifecycle
  import opened Invariants
  import opened Runs

  // ---------- conservation ----------

  /** The difficulty a step brings in for a login: a share's own, or a found block's. */
  function Brings(step: Step, login: string): int {
    match step
    case Share(who, diff) => if who == login then diff else 0
    case Found(who, diff, _, _) => if who == login then diff else 0
    case _ => 0
  }

  function Brought(steps: seq<Step>, login: string): int {
    if steps == [] then 0 else Brought(steps[..|steps| - 1], login) + Brings(steps[|steps| - 1], login)
  }

  /** What a login has in the round of a block. */
  function InRound(rounds: map<RoundKey, Log>, height: int, nonce: string, login: string): int {
    if RoundKey(height, nonce) in rounds then Get(rounds[RoundKey(height, nonce)], login) else 0
  }

  /** What a login has in all frozen rounds together. */
  ghost function InRounds(rounds: map<RoundKey, Log>, login: string): int {
    Sum(map k | k in rounds :: Get(rounds[k], login))
  }

  /** What a login had in the round of the block that a step matures. */
  function Retires(s: System, step: Step, login: string): int {
    if !WriteRuns(s.work, step) then 0
    else
      match step
      case WriteNextOrphan(_, _) =>
        InRound(s.ledger.shares.rounds, s.work.lost[0].block.height, s.work.lost[0].block.nonce, login)
      case WriteNextMatured(_, _) =>
        InRound(s.ledger.shares.rounds, s.work.ripe[0].block.height, s.work.ripe[0].block.nonce, login)
      case _ => 0
  }

  function Retired(states: seq<System>, steps: seq<Step>, n: nat, login: string): int
    requires n <= |steps| <= |states|
  {
    if n == 0 then 0 else Retired(states, steps, n - 1, login) + Retires(states[n - 1], steps[n - 1], login)
  }

  /** What the ledger holds of a login's work: in the current round and in the frozen ones. */
  ghost function Holds(s: Shares, login: string): int { Get(s.current, login) + InRounds(s.rounds, login) }

  lemma NoRounds(login: string)
    ensures InRounds(map[], login) == 0
  {
    var rounds: map<RoundKey, Log> := map[];
    assert (map k | k in rounds :: Get(rounds[k], login)) == map[];
  }

  lemma OneMoreRound(rounds: map<RoundKey, Log>, key: RoundKey, round: Log, login: string)
    requires key !in rounds
    ensures InRounds(rounds[key := round], login) == InRounds(rounds, login) + Get(round, login)
  {
    var before, after := map k | k in rounds :: Get(rounds[k], login), rounds[key := round];
    SumPut(before, key, Get(round, login));
    assert (map k | k in after :: Get(after[k], login)) == before[key := Get(round, login)];
  }

  lemma OneRoundLess(rounds: map<RoundKey, Log>, height: int, nonce: string, login: string)
    ensures InRounds(rounds - {RoundKey(height, nonce)}, login)
      == InRounds(rounds, login) - InRound(rounds, height, nonce, login)
  {
    var key := RoundKey(height, nonce);
    var before, after := map k | k in rounds :: Get(rounds[k], login), rounds - {key};
    SumDrop(before, key);
    assert (map k | k in after :: Get(after[k], login)) == before - {key};
  }

  lemma WriteKeepsHolding(s: System, step: Step, login: string, fees: Rewards.FeeConfig, nonceOf: string -> string)
    requires WorkMatches(s.work, s.stage, fees, nonceOf) && WriteRuns(s.work, step)
    ensures Holds(LedgerWritten(s.ledger, s.work, step, fees).shares, login) + Retires(s, step, login)
      == Holds(s.ledger.shares, login)
  {
    match step
    case WritePendingOrphans(_) => OrphansKeepRounds(s.ledger, s.stage, s.work.orphans);
    case WriteNextImmature(_) => assert ConfirmedItem(s.work.confirmed[0], s.stage, fees, nonceOf);
    case WriteNextOrphan(_, _) =>
      var b := s.work.lost[0].block;
      assert LostItem(s.work.lost[0], s.stage);
      OneRoundLess(s.ledger.shares.rounds, b.height, b.nonce, login);
    case WriteNextMatured(_, _) =>
      var b := s.work.ripe[0].block;
      assert RipeItem(s.work.ripe[0], s.stage, fees, nonceOf);
      OneRoundLess(s.ledger.shares.rounds, b.height, b.nonce, login);
  }

  lemma StepKeepsHolding(s: System, step: Step, login: string, cfg: UnlockerConfig, nonceOf: string -> string)
    requires RoundsMatch(s.ledger.shares.rounds, s.stage) && WorkMatches(s.work, s.stage, cfg.fees, nonceOf)
    requires Enabled(s, step, cfg, nonceOf)
    ensures Holds(LedgerAfter(s, step, cfg.fees).shares, login) + Retires(s, step, login)
      == Holds(s.ledger.shares, login) + Brings(step, login)
  {
    if WriteRuns(s.work, step) {
      WriteKeepsHolding(s, step, login, cfg.fees, nonceOf);
    } else if step.Found? {
      var key := RoundKey(step.height, step.row.nonce);
      OneMoreRound(s.ledger.shares.rounds, key, ClosingRound(s.ledger.shares, step.login, step.diff), login);
    }
  }

  lemma RunStepKeepsHolding(states: seq<System>, steps: seq<Step>, k: nat, login: string, cfg: UnlockerConfig,
                            nonceOf: string -> string)
    requires Run(states, steps, cfg, nonceOf) && k < |steps|
    ensures Holds(states[k + 1].ledger.shares, login) + Retires(states[k], steps[k], login)
      == Holds(states[k].ledger.shares, login) + Brings(steps[k], login)
  {
    EveryStateIsSafe(states, steps, k, cfg, nonceOf);
    StepKeepsHolding(states[k], steps[k], login, cfg, nonceOf);
  }

  lemma {:induction false} HoldingsAdd(states: seq<System>, steps: seq<Step>, i: nat, login: string)
    requires |states| == |steps| + 1 && i <= |steps| && Holds(states[0].ledger.shares, login) == 0
    requires forall k :: 0 <= k < |steps| ==>
      Holds(states[k + 1].ledger.shares, login) + Retires(states[k], steps[k], login)
      == Holds(states[k].ledger.shares, login) + Brings(steps[k], login)
    ensures Holds(states[i].ledger.shares, login) + Retired(states, steps, i, login) == Brought(steps[..i], login)
  {
    if i > 0 {
      HoldingsAdd(states, steps, i - 1, login);
      assert steps[..i][..i - 1] == steps[..i - 1];
      assert states[i] == states[i - 1 + 1];
    }
  }

  /** Work stays the work of who did it: at every moment of every run, for every login, the difficulty
      of the shares and blocks it brought is in its own field of the current round, of the frozen
      rounds, or of the rounds that were deleted as their blocks matured. */
  lemma WorkStaysOnesOwn(states: seq<System>, steps: seq<Step>, i: nat, login: string, cfg: UnlockerConfig,
                         nonceOf: string -> string)
    requires Run(states, steps, cfg, nonceOf) && i <= |steps|
    ensures var shares := states[i].ledger.shares;
      Get(shares.current, login) + InRounds(shares.rounds, login) + Retired(states, steps, i, login)
      == Brought(steps[..i], login)
  {
    NoRounds(login);
    forall k | 0 <= k < |steps|
      ensures Holds(states[k + 1].ledger.shares, login) + Retires(states[k], steps[k], login)
        == Holds(states[k].ledger.shares, login) + Brings(steps[k], login)
    {
      RunStepKeepsHolding(states, steps, k, login, cfg, nonceOf);
    }
    HoldingsAdd(states, steps, i, login);
  }

  // ---------- the round of one block ----------

  lemma OtherStepsKeepCurrent(s: System, step: Step, cfg: UnlockerConfig, nonceOf: string -> string)
    requires Enabled(s, step, cfg, nonceOf) && !step.Share? && !step.Found?
    requires WorkMatches(s.work, s.stage, cfg.fees, nonceOf)
    ensures LedgerAfter(s, step, cfg.fees).shares.current == s.ledger.shares.current
  {
    if step.WritePendingOrphans? {
      OrphansKeepRounds(s.ledger, s.stage, s.work.orphans);
    }
  }

  lemma CurrentGrows(s: System, step: Step, login: string, cfg: UnlockerConfig, nonceOf: string -> string)
    requires Enabled(s, step, cfg, nonceOf) && !step.Found? && WorkMatches(s.work, s.stage, cfg.fees, nonceOf)
    ensures Get(LedgerAfter(s, step, cfg.fees).shares.current, login)
      == Get(s.ledger.shares.current, login) + Brings(step, login)
  {
    if !step.Share? {
      OtherStepsKeepCurrent(s, step, cfg, nonceOf);
    }
  }

  lemma RunStepGrows(states: seq<System>, steps: seq<Step>, k: nat, login: string, cfg: UnlockerConfig,
                     nonceOf: string -> string)
    requires Run(states, steps, cfg, nonceOf) && k < |steps|
    ensures Get(states[k + 1].ledger.shares.current, login)
      == if steps[k].Found? then 0 else Get(states[k].ledger.shares.current, login) + Brings(steps[k], login)
  {
    EveryStateIsSafe(states, steps, k, cfg, nonceOf);
    if !steps[k].Found? {
      CurrentGrows(states[k], steps[k], login, cfg, nonceOf);
    }
  }

  /** Between two states, by the step between them, a login's field has grown by what the step brought. */
  predicate Grows(a: System, step: Step, b: System, login: string) {
    Get(b.ledger.shares.current, login) == Get(a.ledger.shares.current, login) + Brings(step, login)
  }

  lemma {:induction false} GrowthAdds(states: seq<System>, steps: seq<Step>, j: nat, i: nat, login: string)
    requires |states| == |steps| + 1 && j <= i <= |steps| && Get(states[j].ledger.shares.current, login) == 0
    requires forall k :: j <= k < i ==> Grows(states[k], steps[k], states[k + 1], login)
    ensures Get(states[i].ledger.shares.current, login) == Brought(steps[j..i], login)
    decreases i
  {
    if j < i {
      GrowthAdds(states, steps, j, i - 1, login);
      assert Grows(states[i - 1], steps[i - 1], states[i - 1 + 1], login);
      assert steps[j..i][..i - j - 1] == steps[j..i - 1];
    }
  }

  /** What a login has in the current round is what it has brought since the last block was found. */
  lemma CurrentIsSinceLastBlock(states: seq<System>, steps: seq<Step>, j: nat, i: nat, login: string,
                                cfg: UnlockerConfig, nonceOf: string -> string)
    requires Run(states, steps, cfg, nonceOf) && j <= i <= |steps|
    requires (j == 0 || steps[j - 1].Found?) && forall k :: j <= k < i ==> !steps[k].Found?
    ensures Get(states[i].ledger.shares.current, login) == Brought(steps[j..i], login)
  {
    forall k | j <= k < i ensures Grows(states[k], steps[k], states[k + 1], login) {
      RunStepGrows(states, steps, k, login, cfg, nonceOf);
    }
    if j > 0 {
      RunStepGrows(states, steps, j - 1, login, cfg, nonceOf);
    }
    GrowthAdds(states, steps, j, i, login);
  }

  /** The round of a block is there in both states, with the same content. */
  ghost predicate SameRound(a: System, b: System, key: RoundKey) {
    && key in a.ledger.shares.rounds && key in b.ledger.shares.rounds
    && b.ledger.shares.rounds[key] == a.ledger.shares.rounds[key]
  }

  ghost predicate IsUnripe(s: System, n: string) { n in s.stage && !s.stage[n].Matured? }

  lemma RunStepKeepsRound(states: seq<System>, steps: seq<Step>, k: nat, n: string, cfg: UnlockerConfig,
                          nonceOf: string -> string)
    requires Run(states, steps, cfg, nonceOf) && k < |steps| && IsUnripe(states[k], n) && IsUnripe(states[k + 1], n)
    ensures SameRound(states[k], states[k + 1], RoundKey(states[k].stage[n].height, n))
  {
    EveryStateIsSafe(states, steps, k, cfg, nonceOf);
    FrozenRoundsDoNotChange(states[k], steps[k], n, cfg, nonceOf);
  }

  lemma UnripeBetween(states: seq<System>, steps: seq<Step>, j: nat, k: nat, i: nat, n: string, cfg: UnlockerConfig,
                      nonceOf: string -> string)
    requires Run(states, steps, cfg, nonceOf) && j <= k <= i <= |steps| && n in states[j].stage
      && IsUnripe(states[i], n)
    ensures IsUnripe(states[k], n) && states[k].stage[n].height == states[j].stage[n].height
  {
    RunMovesForward(states, steps, j, k, n, cfg, nonceOf);
    RunMovesForward(states, steps, k, i, n, cfg, nonceOf);
  }

  lemma {:induction false} SameRoundsJoin(states: seq<System>, j: nat, i: nat, key: RoundKey)
    requires j <= i < |states| && SameRound(states[j], states[j], key)
    requires forall k :: j <= k < i ==> SameRound(states[k], states[k + 1], key)
    ensures SameRound(states[j], states[i], key)
    decreases i
  {
    if j < i {
      SameRoundsJoin(states, j, i - 1, key);
      assert SameRound(states[i - 1], states[i - 1 + 1], key);
    }
  }

  lemma FoundFreezes(states: seq<System>, steps: seq<Step>, f: nat, cfg: UnlockerConfig, nonceOf: string -> string)
    requires Run(states, steps, cfg, nonceOf) && f < |steps| && steps[f].Found?
    ensures var n, key := steps[f].row.nonce, RoundKey(steps[f].height, steps[f].row.nonce);
      && n in states[f + 1].stage && states[f + 1].stage[n] == Frozen(steps[f].row, steps[f].height)
      && key in states[f + 1].ledger.shares.rounds
      && HoldsWith(states[f + 1].ledger.shares.rounds[key], states[f].ledger.shares.current, steps[f].login,
                   steps[f].diff)
  {
  }

  /** From the step that finds a block until the block matures, its round is there under its height and
      nonce, and holds what was current when it was found, with the finder's share in it. */
  lemma RoundIsKept(states: seq<System>, steps: seq<Step>, f: nat, i: nat, cfg: UnlockerConfig,
                    nonceOf: string -> string)
    requires Run(states, steps, cfg, nonceOf) && f < i <= |steps| && steps[f].Found?
    requires IsUnripe(states[i], steps[f].row.nonce)
    ensures var key, rounds := RoundKey(steps[f].height, steps[f].row.nonce), states[i].ledger.shares.rounds;
      && key in rounds && HoldsWith(rounds[key], states[f].ledger.shares.current, steps[f].login, steps[f].diff)
  {
    var n, key := steps[f].row.nonce, RoundKey(steps[f].height, steps[f].row.nonce);
    FoundFreezes(states, steps, f, cfg, nonceOf);
    forall k | f + 1 <= k < i ensures SameRound(states[k], states[k + 1], key) {
      UnripeBetween(states, steps, f + 1, k, i, n, cfg, nonceOf);
      UnripeBetween(states, steps, f + 1, k + 1, i, n, cfg, nonceOf);
      RunStepKeepsRound(states, steps, k, n, cfg, nonceOf);
    }
    SameRoundsJoin(states, f + 1, i, key);
  }

  lemma LastBrings(steps: seq<Step>, j: nat, f: nat, login: string)
    requires j <= f < |steps|
    ensures Brought(steps[j..f + 1], login) == Brought(steps[j..f], login) + Brings(steps[f], login)
  {
    assert steps[j..f + 1][..f - j] == steps[j..f];
  }

  /** The round that pays for a block holds, for every login, what that login brought between the block
      before and this one, this one's share included, and nothing else. */
  lemma RoundIsItsWork(states: seq<System>, steps: seq<Step>, j: nat, f: nat, i: nat, login: string,
                       cfg: UnlockerConfig, nonceOf: string -> string)
    requires Run(states, steps, cfg, nonceOf) && j <= f < i <= |steps| && steps[f].Found?
    requires (j == 0 || steps[j - 1].Found?) && forall k :: j <= k < f ==> !steps[k].Found?
    requires IsUnripe(states[i], steps[f].row.nonce)
    ensures InRound(states[i].ledger.shares.rounds, steps[f].height, steps[f].row.nonce, login)
      == Brought(steps[j..f + 1], login)
  {
    RoundIsKept(states, steps, f, i, cfg, nonceOf);
    CurrentIsSinceLastBlock(states, steps, j, f, login, cfg, nonceOf);
    LastBrings(steps, j, f, login);
  }
}
