/** What a block is paid for, traced through a whole run to the step that found it: the amounts of its
    rows, the credits it gives and what it adds to the balances. */
module Provenance {
  import opened Wrappers
  import opened FiniteSums
  import opened Text
  import opened Rewards
  import opened Rows
  import opened Books
  import opened Ledger
  import opened Lifecycle
  import opened Invariants
  import opened Preservation
  import opened Safety
  import opened Runs
  import opened Payouts
  import opened Credits
  import opened Contributions

  // ---------- the rows of a block ----------

  /** What a block with these amounts brings in. */
  function Revenue(fees: FeeConfig, coinBaseValue: int, blkTotalFee: int): int {
    if fees.keepTxFees then coinBaseValue else coinBaseValue + blkTotalFee
  }

  /** A later row of a block: the amounts of its candidate row, and the reward they make unless the block
      is an orphan. */
  predicate Continues(r: BlockRow, c: CandidateRow, fees: FeeConfig) {
    && r.nonce == c.nonce && r.timestamp == c.timestamp && r.difficulty == c.difficulty
    && r.totalShares == c.totalShares && r.coinBaseValue == c.coinBaseValue && r.blkTotalFee == c.blkTotalFee
    && r.reward == if r.orphan then "0" else FormatInt(Revenue(fees, c.coinBaseValue, c.blkTotalFee))
  }

  /** The hash of a block that is no orphan is one the chain gave for its nonce. */
  predicate HashFits(r: BlockRow, nonceOf: string -> string) {
    !r.orphan ==> |r.hash| >= 10 && nonceOf(r.hash) == r.nonce
  }

  /** A block at any stage, as its candidate row and its height say. */
  predicate Follows(s: Stage, c: CandidateRow, height: int, fees: FeeConfig, nonceOf: string -> string) {
    && s.height == height
    && match s
       case Frozen(candidate, _) => candidate == c
       case Candidate(candidate, _) => candidate == c
       case Immature(row, _) => Continues(row, c, fees) && HashFits(row, nonceOf) && (row.orphan ==> row.hash == "0x0")
       case Matured(row, _) => Continues(row, c, fees) && HashFits(row, nonceOf)
  }

  lemma OrphanFollows(item: Item<CandidateRow>, stage: map<string, Stage>, fees: FeeConfig, nonceOf: string -> string)
    requires OrphanItem(item, stage)
    ensures Follows(Immature(RowOf(item.block), item.block.height), item.key, stage[item.key.nonce].height, fees,
                    nonceOf)
  {
  }

  lemma ConfirmedFollows(item: Item<CandidateRow>, stage: map<string, Stage>, fees: FeeConfig,
                         nonceOf: string -> string)
    requires ConfirmedItem(item, stage, fees, nonceOf)
    ensures Follows(Immature(RowOf(item.block), item.block.height), item.key, stage[item.key.nonce].height, fees,
                    nonceOf)
    ensures !RowOf(item.block).orphan
  {
  }

  lemma LostFollows(item: Item<BlockRow>, stage: map<string, Stage>, c: CandidateRow, height: int, fees: FeeConfig,
                    nonceOf: string -> string)
    requires LostItem(item, stage) && Follows(stage[item.key.nonce], c, height, fees, nonceOf)
    ensures Follows(Matured(RowOf(item.block), item.block.height), c, height, fees, nonceOf)
    ensures RowOf(item.block).orphan
  {
  }

  lemma RipeFollows(item: Item<BlockRow>, stage: map<string, Stage>, c: CandidateRow, height: int, fees: FeeConfig,
                    nonceOf: string -> string)
    requires RipeItem(item, stage, fees, nonceOf) && Follows(stage[item.key.nonce], c, height, fees, nonceOf)
    ensures Follows(Matured(RowOf(item.block), item.block.height), c, height, fees, nonceOf)
    ensures !RowOf(item.block).orphan
  {
  }

  lemma {:induction false} OrphansFollow(stage: map<string, Stage>, items: seq<Item<CandidateRow>>, n: string,
                                         c: CandidateRow, height: int, fees: FeeConfig, nonceOf: string -> string)
    requires forall item <- items :: OrphanItem(item, stage)
    requires n in stage && Follows(stage[n], c, height, fees, nonceOf)
    ensures n in AllNowImmature(stage, items) && Follows(AllNowImmature(stage, items)[n], c, height, fees, nonceOf)
  {
    if items != [] {
      var last := |items| - 1;
      OrphansFollow(stage, items[..last], n, c, height, fees, nonceOf);
      assert OrphanItem(items[last], stage);
      OrphanFollows(items[last], stage, fees, nonceOf);
    }
  }

  lemma WriteFollows(s: System, step: Step, n: string, c: CandidateRow, height: int, fees: FeeConfig,
                     nonceOf: string -> string)
    requires WorkMatches(s.work, s.stage, fees, nonceOf) && WriteRuns(s.work, step)
    requires step.WriteNextMatured? ==> s.work.lost == []
    requires n in s.stage && Follows(s.stage[n], c, height, fees, nonceOf)
    ensures n in StageAfter(s, step) && Follows(StageAfter(s, step)[n], c, height, fees, nonceOf)
  {
    match step
    case WritePendingOrphans(_) => OrphansFollow(s.stage, s.work.orphans, n, c, height, fees, nonceOf);
    case WriteNextImmature(_) =>
      assert ConfirmedItem(s.work.confirmed[0], s.stage, fees, nonceOf);
      ConfirmedFollows(s.work.confirmed[0], s.stage, fees, nonceOf);
    case WriteNextOrphan(_, _) =>
      assert LostItem(s.work.lost[0], s.stage);
      if s.work.lost[0].key.nonce == n {
        LostFollows(s.work.lost[0], s.stage, c, height, fees, nonceOf);
      }
    case WriteNextMatured(_, _) =>
      assert RipeItem(s.work.ripe[0], s.stage, fees, nonceOf);
      if s.work.ripe[0].key.nonce == n {
        RipeFollows(s.work.ripe[0], s.stage, c, height, fees, nonceOf);
      }
  }

  lemma StepFollows(s: System, step: Step, n: string, c: CandidateRow, height: int, cfg: UnlockerConfig,
                    nonceOf: string -> string)
    requires WorkMatches(s.work, s.stage, cfg.fees, nonceOf) && Enabled(s, step, cfg, nonceOf)
    requires n in s.stage && Follows(s.stage[n], c, height, cfg.fees, nonceOf)
    ensures n in StageAfter(s, step) && Follows(StageAfter(s, step)[n], c, height, cfg.fees, nonceOf)
  {
    if WriteRuns(s.work, step) {
      WriteFollows(s, step, n, c, height, cfg.fees, nonceOf);
    }
  }

  /** The block at a state follows from what found it. */
  predicate FollowsAt(s: System, found: Step, fees: FeeConfig, nonceOf: string -> string)
    requires found.Found?
  {
    found.row.nonce in s.stage && Follows(s.stage[found.row.nonce], found.row, found.height, fees, nonceOf)
  }

  lemma RunStepFollows(states: seq<System>, steps: seq<Step>, f: nat, k: nat, cfg: UnlockerConfig,
                       nonceOf: string -> string)
    requires Run(states, steps, cfg, nonceOf) && f < |steps| && steps[f].Found? && k < |steps|
    requires FollowsAt(states[k], steps[f], cfg.fees, nonceOf)
    ensures FollowsAt(states[k + 1], steps[f], cfg.fees, nonceOf)
  {
    EveryStateIsSafe(states, steps, k, cfg, nonceOf);
    StepFollows(states[k], steps[k], steps[f].row.nonce, steps[f].row, steps[f].height, cfg, nonceOf);
  }

  lemma {:induction false} BlockFollows(states: seq<System>, steps: seq<Step>, f: nat, i: nat, cfg: UnlockerConfig,
                                        nonceOf: string -> string)
    requires Run(states, steps, cfg, nonceOf) && f < i <= |steps| && steps[f].Found?
    ensures FollowsAt(states[i], steps[f], cfg.fees, nonceOf)
    decreases i
  {
    if i == f + 1 {
      FoundFreezes(states, steps, f, cfg, nonceOf);
    } else {
      BlockFollows(states, steps, f, i - 1, cfg, nonceOf);
      RunStepFollows(states, steps, f, i - 1, cfg, nonceOf);
    }
  }

  lemma RowsFollow(q: Queues, stage: map<string, Stage>, c: CandidateRow, height: int, fees: FeeConfig,
                   nonceOf: string -> string)
    requires QueuesMatch(q, stage) && c.nonce in stage && Follows(stage[c.nonce], c, height, fees, nonceOf)
    ensures forall r <- q.candidates :: r.nonce == c.nonce ==> r == c && q.candidates[r] == height
    ensures forall r <- q.immature :: r.nonce == c.nonce ==>
      Continues(r, c, fees) && HashFits(r, nonceOf) && q.immature[r] == height
    ensures forall r <- q.matured :: r.nonce == c.nonce ==>
      Continues(r, c, fees) && HashFits(r, nonceOf) && q.matured[r] == height
  {
  }

  /** Every row that a block ever has, in any of the three ZSETs and at any later moment of a run, is
      that of the step that found it: scored with its height, with its nonce, time, difficulty, share
      count, coinbase value and fees, each in its place; and the reward is what these amounts make. */
  lemma RowsAreTheFoundBlocks(states: seq<System>, steps: seq<Step>, f: nat, i: nat, cfg: UnlockerConfig,
                              nonceOf: string -> string)
    requires Run(states, steps, cfg, nonceOf) && f < i <= |steps| && steps[f].Found?
    ensures var q, c, height := states[i].ledger.queues, steps[f].row, steps[f].height;
      && (forall r <- q.candidates :: r.nonce == c.nonce ==> r == c && q.candidates[r] == height)
      && (forall r <- q.immature :: r.nonce == c.nonce ==>
            Continues(r, c, cfg.fees) && HashFits(r, nonceOf) && q.immature[r] == height)
      && (forall r <- q.matured :: r.nonce == c.nonce ==>
            Continues(r, c, cfg.fees) && HashFits(r, nonceOf) && q.matured[r] == height)
  {
    BlockFollows(states, steps, f, i, cfg, nonceOf);
    EveryStateIsSafe(states, steps, i, cfg, nonceOf);
    RowsFollow(states[i].ledger.queues, states[i].stage, steps[f].row, steps[f].height, cfg.fees, nonceOf);
  }

  // ---------- what it earns ----------

  /** Credits that a found block earns: its amounts divided over a round that holds what was current when
      it was found, with the finder's share in it. */
  ghost predicate IsEarned(credits: Log, before: System, found: Step, fees: FeeConfig, round: Log)
    requires found.Found?
  {
    && HoldsWith(round, before.ledger.shares.current, found.login, found.diff)
    && found.row.totalShares != 0 && Sum(round) == found.row.totalShares
    && PaidOut(credits, fees, found.row.coinBaseValue, found.row.blkTotalFee, round, found.row.totalShares)
  }

  /** The rewards computed for a block anywhere are earned, if its record has the found block's amounts. */
  lemma RewardsAreEarned(states: seq<System>, steps: seq<Step>, f: nat, k: nat, b: BlockData, cfg: UnlockerConfig,
                         nonceOf: string -> string) returns (round: Log)
    requires Run(states, steps, cfg, nonceOf) && f < k <= |steps| && steps[f].Found?
    requires IsUnripe(states[k], steps[f].row.nonce) && IsHandled(cfg.fees, b)
    requires b.nonce == steps[f].row.nonce && b.roundHeight == steps[f].height
    requires b.totalShares == steps[f].row.totalShares && b.coinBaseValue == steps[f].row.coinBaseValue
      && b.blkTotalFee == steps[f].row.blkTotalFee
    ensures CanReward(b)
    ensures IsEarned(CalculateRewards(cfg.fees, b, RoundOf(states[k].ledger, b)), states[f], steps[f], cfg.fees, round)
  {
    RoundIsKept(states, steps, f, k, cfg, nonceOf);
    BlockFollows(states, steps, f, k, cfg, nonceOf);
    RoundLivesUntilMaturity(states, steps, k, b.nonce, cfg, nonceOf);
    round := RoundOf(states[k].ledger, b);
    HandledIsPaidOut(cfg.fees, b, round);
  }

  /** Every miner's field rises by its part of some amounts, and no other field changes. */
  ghost predicate Rises(before: Log, after: Log, credits: Log) {
    forall login: string :: Get(after, login) == Get(before, login) + Get(credits, login)
  }

  lemma CreditRises(l: Ledger, item: Item<CandidateRow>, rewards: Log)
    ensures var b, b' := l.books, ImmatureBlockWritten(l, item, rewards).books;
      Rises(b.immature, b'.immature, rewards) && b'.balance == b.balance
        && b'.finances.totalMined == b.finances.totalMined
  {
  }

  lemma ConfirmedKeyIsNew(b: Books, rounds: map<RoundKey, Log>, stage: map<string, Stage>, item: Item<CandidateRow>,
                          fees: FeeConfig, nonceOf: string -> string)
    requires LogsMatch(b, rounds, stage, CreditsUnder(fees), nonceOf) && ConfirmedItem(item, stage, fees, nonceOf)
    ensures CreditKey(item.block.height, item.block.hash) !in b.open
  {
    NoLogYet(b, rounds, stage, CreditsUnder(fees), nonceOf, CreditKey(item.block.height, item.block.hash));
  }

  lemma CreditOpensLog(l: Ledger, stage: map<string, Stage>, item: Item<CandidateRow>, fees: FeeConfig,
                       nonceOf: string -> string)
    requires LedgerMatches(l, stage, CreditsUnder(fees), nonceOf) && ConfirmedItem(item, stage, fees, nonceOf)
    ensures CanReward(item.block)
    ensures var rewards := CalculateRewards(fees, item.block, RoundOf(l, item.block));
      ImmatureBlockWritten(l, item, rewards).books.open
      == l.books.open[CreditKey(item.block.height, item.block.hash) := rewards]
  {
    ConfirmedRewards(item, l, stage, fees, nonceOf);
    ConfirmedKeyIsNew(l.books, l.shares.rounds, stage, item, fees, nonceOf);
    CreditedLog(l.books, CreditKey(item.block.height, item.block.hash),
                CalculateRewards(fees, item.block, RoundOf(l, item.block)));
  }

  /** The step that credits a block provisionally gives what the block earns: each miner's immature amount
      rises by that, and no balance changes. */
  lemma CreditIsEarned(states: seq<System>, steps: seq<Step>, f: nat, k: nat, cfg: UnlockerConfig,
                       nonceOf: string -> string) returns (credits: Log, round: Log)
    requires Run(states, steps, cfg, nonceOf) && f < k < |steps| && steps[f].Found?
    requires !IsCredited(states[k], steps[f].row.nonce) && IsCredited(states[k + 1], steps[f].row.nonce)
    ensures IsEarned(credits, states[f], steps[f], cfg.fees, round)
    ensures var b, b' := states[k].ledger.books, states[k + 1].ledger.books;
      && Rises(b.immature, b'.immature, credits) && b'.balance == b.balance
      && b'.open == b.open[CreditKey(steps[f].height, states[k + 1].stage[steps[f].row.nonce].row.hash) := credits]
  {
    var s, n := states[k], steps[f].row.nonce;
    EveryStateIsSafe(states, steps, k, cfg, nonceOf);
    OnlyCreditsMakeCredited(s, steps[k], n, cfg, nonceOf);
    var item := s.work.confirmed[0];
    assert ConfirmedItem(item, s.stage, cfg.fees, nonceOf);
    BlockFollows(states, steps, f, k, cfg, nonceOf);
    HandlingHandles(cfg.fees, FromCandidate(item.key, s.stage[n].height), ChainBlock(item.block.hash, n));
    round := RewardsAreEarned(states, steps, f, k, item.block, cfg, nonceOf);
    credits := CalculateRewards(cfg.fees, item.block, RoundOf(s.ledger, item.block));
    ImmatureWritten(s, steps[k].outcome, cfg.fees);
    CreditRises(s.ledger, item, credits);
    CreditOpensLog(s.ledger, s.stage, item, cfg.fees, nonceOf);
  }

  /** A step that takes a block from the immature to the matured ones is one of the two writes that do. */
  lemma OnlyWritesMature(s: System, step: Step, n: string, cfg: UnlockerConfig, nonceOf: string -> string)
    requires WorkMatches(s.work, s.stage, cfg.fees, nonceOf) && Enabled(s, step, cfg, nonceOf)
    requires n in s.stage && s.stage[n].Immature? && n in StageAfter(s, step) && StageAfter(s, step)[n].Matured?
    ensures WriteRuns(s.work, step)
    ensures if StageAfter(s, step)[n].row.orphan then step.WriteNextOrphan? && s.work.lost[0].block.nonce == n
            else step.WriteNextMatured? && s.work.ripe[0].block.nonce == n
  {
    match step
    case WritePendingOrphans(_) =>
      forall item <- s.work.orphans ensures item.block.nonce != n {
        assert OrphanItem(item, s.stage);
      }
      StageElsewhere(s.stage, s.work.orphans, n);
    case WriteNextOrphan(_, _) =>
      assert LostItem(s.work.lost[0], s.stage);
    case WriteNextMatured(_, _) =>
      assert RipeItem(s.work.ripe[0], s.stage, cfg.fees, nonceOf);
    case _ =>
  }

  lemma RipeIsFound(item: Item<BlockRow>, stage: map<string, Stage>, c: CandidateRow, height: int, fees: FeeConfig,
                    nonceOf: string -> string)
    requires RipeItem(item, stage, fees, nonceOf) && Follows(stage[item.key.nonce], c, height, fees, nonceOf)
    ensures var b := item.block;
      && IsHandled(fees, b) && b.reward == Some(Revenue(fees, c.coinBaseValue, c.blkTotalFee))
      && b.nonce == c.nonce && b.roundHeight == height && b.totalShares == c.totalShares
      && b.coinBaseValue == c.coinBaseValue && b.blkTotalFee == c.blkTotalFee
  {
    HandlingHandles(fees, FromBlock(item.key, height), ChainBlock(item.block.hash, c.nonce));
  }

  lemma PayoutRises(l: Ledger, item: Item<BlockRow>, rewards: Log, logRead: bool)
    requires item.block.reward.Some?
    ensures var b, b' := l.books, MaturedBlockWritten(l, item, rewards, logRead).books;
      && Rises(b.balance, b'.balance, rewards) && b'.pending == b.pending && b'.paid == b.paid
      && b'.finances.totalMined == b.finances.totalMined + item.block.reward.value
  {
    forall login: string
      ensures Get(MaturedBlockWritten(l, item, rewards, logRead).books.balance, login)
        == Get(l.books.balance, login) + Get(rewards, login)
    {
      WriteMaturedMoves(l, item, rewards, logRead, login);
    }
  }

  lemma RewardsAreLogged(l: Ledger, item: Item<BlockRow>, rewards: Log, logRead: bool)
    requires CreditKey(item.block.height, item.block.hash) !in l.books.closed && rewards != map[]
    ensures MaturedBlockWritten(l, item, rewards, logRead).books.closed
      == l.books.closed[CreditKey(item.block.height, item.block.hash) := rewards]
  {
    var reverted := OrphanBlockWritten(l, item, logRead).books;
    var mined := if item.block.reward.Some? then item.block.reward.value else 0;
    ClosedLog(reverted, CreditKey(item.block.height, item.block.hash), rewards, mined);
  }

  lemma RipeKeyIsNew(b: Books, rounds: map<RoundKey, Log>, stage: map<string, Stage>, item: Item<BlockRow>,
                     fees: FeeConfig, nonceOf: string -> string)
    requires LogsMatch(b, rounds, stage, CreditsUnder(fees), nonceOf) && RipeItem(item, stage, fees, nonceOf)
    ensures CreditKey(item.block.height, item.block.hash) !in b.closed
  {
    NoLogYet(b, rounds, stage, CreditsUnder(fees), nonceOf, CreditKey(item.block.height, item.block.hash));
  }

  lemma PayoutIsLogged(l: Ledger, stage: map<string, Stage>, item: Item<BlockRow>, fees: FeeConfig, logRead: bool,
                       nonceOf: string -> string)
    requires LedgerMatches(l, stage, CreditsUnder(fees), nonceOf) && RipeItem(item, stage, fees, nonceOf)
    ensures CanReward(item.block)
    ensures MaturedLedger(l, item, fees, logRead).books.closed
      == l.books.closed[CreditKey(item.block.height, item.block.hash)
                        := CalculateRewards(fees, item.block, RoundOf(l, item.block))]
  {
    RipeRewardsAreLogged(l, stage, item, fees, nonceOf);
    RipeKeyIsNew(l.books, l.shares.rounds, stage, item, fees, nonceOf);
    RewardsAreLogged(l, item, CalculateRewards(fees, item.block, RoundOf(l, item.block)), logRead);
  }

  lemma MaturesRipe(s: System, step: Step, n: string, cfg: UnlockerConfig, nonceOf: string -> string)
    requires WorkMatches(s.work, s.stage, cfg.fees, nonceOf) && Enabled(s, step, cfg, nonceOf)
    requires n in s.stage && s.stage[n].Immature?
    requires n in StageAfter(s, step) && StageAfter(s, step)[n].Matured? && !StageAfter(s, step)[n].row.orphan
    ensures step.WriteNextMatured? && s.work.MatureLoaded? && s.work.ripe != []
    ensures var item := s.work.ripe[0];
      && item.key.nonce == n && RipeItem(item, s.stage, cfg.fees, nonceOf) && CanReward(item.block)
      && LedgerAfter(s, step, cfg.fees) == MaturedLedger(s.ledger, item, cfg.fees, step.logRead)
      && StageAfter(s, step)[n].row.hash == item.block.hash
  {
    OnlyWritesMature(s, step, n, cfg, nonceOf);
    assert RipeItem(s.work.ripe[0], s.stage, cfg.fees, nonceOf);
    MaturedWritten(s, step.outcome, step.logRead, cfg.fees);
  }

  /** The step that matures a block which is no orphan pays what the block earns: each miner's balance
      rises by that, and what the pool has mined by the block's revenue. */
  lemma PayoutIsEarned(states: seq<System>, steps: seq<Step>, f: nat, k: nat, cfg: UnlockerConfig,
                       nonceOf: string -> string) returns (credits: Log, round: Log)
    requires Run(states, steps, cfg, nonceOf) && f < k < |steps| && steps[f].Found?
    requires var n := steps[f].row.nonce;
      && n in states[k].stage && states[k].stage[n].Immature?
      && n in states[k + 1].stage && states[k + 1].stage[n].Matured? && !states[k + 1].stage[n].row.orphan
    ensures IsEarned(credits, states[f], steps[f], cfg.fees, round)
    ensures var b, b', c := states[k].ledger.books, states[k + 1].ledger.books, steps[f].row;
      && Rises(b.balance, b'.balance, credits) && b'.pending == b.pending && b'.paid == b.paid
      && b'.finances.totalMined == b.finances.totalMined + Revenue(cfg.fees, c.coinBaseValue, c.blkTotalFee)
      && b'.closed == b.closed[CreditKey(steps[f].height, states[k + 1].stage[c.nonce].row.hash) := credits]
  {
    EveryStateIsSafe(states, steps, k, cfg, nonceOf);
    MaturesRipe(states[k], steps[k], steps[f].row.nonce, cfg, nonceOf);
    var item := states[k].work.ripe[0];
    BlockFollows(states, steps, f, k, cfg, nonceOf);
    RipeIsFound(item, states[k].stage, steps[f].row, steps[f].height, cfg.fees, nonceOf);
    round := RewardsAreEarned(states, steps, f, k, item.block, cfg, nonceOf);
    credits := CalculateRewards(cfg.fees, item.block, RoundOf(states[k].ledger, item.block));
    PayoutRises(states[k].ledger, item, credits, steps[k].logRead);
    PayoutIsLogged(states[k].ledger, states[k].stage, item, cfg.fees, steps[k].logRead, nonceOf);
  }

  /** And one that matures it as an orphan pays nothing. */
  lemma OrphanEarnsNothing(states: seq<System>, steps: seq<Step>, k: nat, n: string, cfg: UnlockerConfig,
                           nonceOf: string -> string)
    requires Run(states, steps, cfg, nonceOf) && k < |steps|
    requires n in states[k].stage && states[k].stage[n].Immature?
    requires n in states[k + 1].stage && states[k + 1].stage[n].Matured? && states[k + 1].stage[n].row.orphan
    ensures var b, b' := states[k].ledger.books, states[k + 1].ledger.books;
      && b'.balance == b.balance && b'.pending == b.pending && b'.paid == b.paid
      && b'.finances.totalMined == b.finances.totalMined
  {
    EveryStateIsSafe(states, steps, k, cfg, nonceOf);
    OnlyWritesMature(states[k], steps[k], n, cfg, nonceOf);
    OrphanWritten(states[k], steps[k].outcome, steps[k].logRead, cfg.fees);
  }

  // ---------- what the pool has mined ----------

  /** The revenue of all matured blocks that are no orphans. */
  ghost function Mined(matured: map<BlockRow, int>, fees: FeeConfig): int {
    Sum(map r | r in matured && !r.orphan :: Revenue(fees, r.coinBaseValue, r.blkTotalFee))
  }

  lemma OneMoreMined(matured: map<BlockRow, int>, row: BlockRow, height: int, fees: FeeConfig)
    requires row !in matured
    ensures Mined(matured[row := height], fees)
      == Mined(matured, fees) + if row.orphan then 0 else Revenue(fees, row.coinBaseValue, row.blkTotalFee)
  {
    var now := matured[row := height];
    var before := map r | r in matured && !r.orphan :: Revenue(fees, r.coinBaseValue, r.blkTotalFee);
    var after := map r | r in now && !r.orphan :: Revenue(fees, r.coinBaseValue, r.blkTotalFee);
    if row.orphan {
      assert after == before;
    } else {
      var revenue := Revenue(fees, row.coinBaseValue, row.blkTotalFee);
      SumPut(before, row, revenue);
      assert after == before[row := revenue];
    }
  }

  ghost predicate MinedIsCounted(l: Ledger, fees: FeeConfig) {
    l.books.finances.totalMined == Mined(l.queues.matured, fees)
  }

  lemma LostIsNotMined(l: Ledger, stage: map<string, Stage>, item: Item<BlockRow>, logRead: bool, fees: FeeConfig)
    requires QueuesMatch(l.queues, stage) && LostItem(item, stage) && MinedIsCounted(l, fees)
    ensures MinedIsCounted(OrphanBlockWritten(l, item, logRead), fees)
  {
    OneMoreMined(l.queues.matured, RowOf(item.block), item.block.height, fees);
  }

  lemma RipeIsMined(l: Ledger, stage: map<string, Stage>, item: Item<BlockRow>, rewards: Log, logRead: bool,
                    fees: FeeConfig, nonceOf: string -> string)
    requires QueuesMatch(l.queues, stage) && RipeItem(item, stage, fees, nonceOf) && MinedIsCounted(l, fees)
    ensures MinedIsCounted(MaturedBlockWritten(l, item, rewards, logRead), fees)
  {
    OneMoreMined(l.queues.matured, RowOf(item.block), item.block.height, fees);
    PayoutRises(l, item, rewards, logRead);
  }

  lemma StepCountsMined(s: System, step: Step, cfg: UnlockerConfig, nonceOf: string -> string)
    requires QueuesMatch(s.ledger.queues, s.stage) && WorkMatches(s.work, s.stage, cfg.fees, nonceOf)
    requires Enabled(s, step, cfg, nonceOf) && MinedIsCounted(s.ledger, cfg.fees)
    ensures MinedIsCounted(LedgerAfter(s, step, cfg.fees), cfg.fees)
  {
    if WriteRuns(s.work, step) {
      match step
      case WritePendingOrphans(_) =>
        OrphansKeepAccount(s.ledger, s.stage, s.work.orphans);
        OrphansKeepBooks(s.ledger, s.work.orphans);
      case WriteNextImmature(_) =>
      case WriteNextOrphan(_, logRead) => LostIsNotMined(s.ledger, s.stage, s.work.lost[0], logRead, cfg.fees);
      case WriteNextMatured(_, logRead) =>
        var item := s.work.ripe[0];
        RipeIsMined(s.ledger, s.stage, item, CalculateRewards(cfg.fees, item.block, RoundOf(s.ledger, item.block)),
                    logRead, cfg.fees, nonceOf);
    }
  }

  lemma RunStepCountsMined(states: seq<System>, steps: seq<Step>, k: nat, cfg: UnlockerConfig,
                           nonceOf: string -> string)
    requires Run(states, steps, cfg, nonceOf) && k < |steps| && MinedIsCounted(states[k].ledger, cfg.fees)
    ensures MinedIsCounted(states[k + 1].ledger, cfg.fees)
  {
    EveryStateIsSafe(states, steps, k, cfg, nonceOf);
    StepCountsMined(states[k], steps[k], cfg, nonceOf);
  }

  lemma {:induction false} CountsJoin(states: seq<System>, i: nat, fees: FeeConfig)
    requires i < |states| && MinedIsCounted(states[0].ledger, fees)
    requires forall k :: 0 <= k < i && MinedIsCounted(states[k].ledger, fees) ==>
      MinedIsCounted(states[k + 1].ledger, fees)
    ensures MinedIsCounted(states[i].ledger, fees)
  {
    if i > 0 {
      CountsJoin(states, i - 1, fees);
      assert MinedIsCounted(states[i - 1 + 1].ledger, fees);
    }
  }

  /** In every state of every run, what the pool says it has mined is the revenue of the matured blocks that
      are no orphans. */
  lemma TotalMinedIsRevenue(states: seq<System>, steps: seq<Step>, i: nat, cfg: UnlockerConfig,
                            nonceOf: string -> string)
    requires Run(states, steps, cfg, nonceOf) && i <= |steps|
    ensures states[i].ledger.books.finances.totalMined == Mined(states[i].ledger.queues.matured, cfg.fees)
  {
    NothingMined(cfg.fees);
    forall k | 0 <= k < i && MinedIsCounted(states[k].ledger, cfg.fees)
      ensures MinedIsCounted(states[k + 1].ledger, cfg.fees)
    {
      RunStepCountsMined(states, steps, k, cfg, nonceOf);
    }
    CountsJoin(states, i, cfg.fees);
  }

  lemma NothingMined(fees: FeeConfig)
    ensures Mined(map[], fees) == 0
  {
    var matured: map<BlockRow, int> := map[];
    assert (map r | r in matured && !r.orphan :: Revenue(fees, r.coinBaseValue, r.blkTotalFee)) == map[];
  }
}
