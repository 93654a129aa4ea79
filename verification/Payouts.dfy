/** What a block's way through the ledger does to the miners' money and to the count of their work. */
module Payouts {
  import opened FiniteSums
  import opened Rewards
  import opened Rows
  import opened Books
  import opened Ledger
  import opened Lifecycle
  import opened Invariants
  import opened Safety
  import opened Runs

  /** The log of a row's own provisional credit. */
  function LogOf(l: Ledger, row: BlockRow, height: int): Log {
    Lookup(l.books.open, CreditKey(height, row.hash))
  }

  ghost function MaturedLedger(l: Ledger, item: Item<BlockRow>, fees: FeeConfig, logRead: bool): Ledger
    requires CanReward(item.block)
  {
    MaturedBlockWritten(l, item, CalculateRewards(fees, item.block, RoundOf(l, item.block)), logRead)
  }

  /** A credited block that ripens earns now exactly what its log holds. One that was an orphan when it
      became immature has no log, and earns something all the same. */
  lemma RipeRewardsAreLogged(l: Ledger, stage: map<string, Stage>, item: Item<BlockRow>, fees: FeeConfig,
                             nonceOf: string -> string)
    requires LedgerMatches(l, stage, CreditsUnder(fees), nonceOf) && RipeItem(item, stage, fees, nonceOf)
    ensures CanReward(item.block)
    ensures CreditKey(item.block.height, item.key.hash) in l.books.open <==> !item.key.orphan
    ensures var rewards, log := CalculateRewards(fees, item.block, RoundOf(l, item.block)),
      LogOf(l, item.key, item.block.height);
      rewards != map[] && log == if item.key.orphan then map[] else rewards
  {
    var b := item.block;
    RoundIsThere(l, stage, b);
    CreditsAreNotEmpty(fees, b.reward.value, b.extraReward, RoundOf(l, b), b.totalShares);
    if item.key.orphan {
      assert item.key.hash == "0x0";
    }
  }

  lemma RevertMoves(b: Books, key: CreditKey, read: Log, login: string)
    ensures var b' := RevertImmature(b, key, read);
      Get(b'.immature, login) == Get(b.immature, login) - Get(read, login) && b'.balance == b.balance
  {
  }

  lemma CreditMoves(b: Books, key: CreditKey, rewards: Log, mined: int, login: string)
    ensures var b' := CreditMatured(b, key, rewards, mined);
      Get(b'.balance, login) == Get(b.balance, login) + Get(rewards, login) && b'.immature == b.immature
  {
  }

  lemma WriteMaturedMoves(l: Ledger, item: Item<BlockRow>, rewards: Log, logRead: bool, login: string)
    ensures var b, b' := l.books, MaturedBlockWritten(l, item, rewards, logRead).books;
      && Get(b'.balance, login) == Get(b.balance, login) + Get(rewards, login)
      && Get(b'.immature, login) == Get(b.immature, login)
        - (if logRead then Get(CreditLog(b, item.block), login) else 0)
  {
    var key := CreditKey(item.block.roundHeight, item.block.hash);
    var reverted := RevertImmature(l.books, key, ReadLog(l.books, key, logRead));
    RevertMoves(l.books, key, ReadLog(l.books, key, logRead), login);
    var mined := if item.block.reward.Some? then item.block.reward.value else 0;
    CreditMoves(reverted, CreditKey(item.block.height, item.block.hash), rewards, mined, login);
  }

  /** The log under a ripe block's hash is its credit's if the hash is still the one it was credited
      under, and otherwise there is none. */
  lemma RipeLog(l: Ledger, stage: map<string, Stage>, item: Item<BlockRow>, fees: FeeConfig, nonceOf: string -> string)
    requires LedgerMatches(l, stage, CreditsUnder(fees), nonceOf) && RipeItem(item, stage, fees, nonceOf)
    ensures CreditLog(l.books, item.block) == if item.block.hash == item.key.hash
      then LogOf(l, item.key, item.block.height) else map[]
  {
    var key := CreditKey(item.block.roundHeight, item.block.hash);
    if key in l.books.open {
      assert OwnLog(key, stage[item.key.nonce]);
    }
  }

  /** Maturing raises each miner's balance by its rewards, which are what was logged for it exactly if
      the block was no orphan before. It lowers the immature amount by the logged amount if the chain
      still names the hash the block was credited under and the log can be read, and otherwise not at
      all. */
  lemma MaturingPaysTheLog(l: Ledger, stage: map<string, Stage>, item: Item<BlockRow>, fees: FeeConfig,
                           nonceOf: string -> string, logRead: bool, login: string)
    requires LedgerMatches(l, stage, CreditsUnder(fees), nonceOf) && RipeItem(item, stage, fees, nonceOf)
    ensures CanReward(item.block)
    ensures var b, b', log := l.books, MaturedLedger(l, item, fees, logRead).books,
      LogOf(l, item.key, item.block.height);
      var rewards := CalculateRewards(fees, item.block, RoundOf(l, item.block));
      && (log == rewards <==> !item.key.orphan)
      && Get(b'.balance, login) - Get(b.balance, login) == Get(rewards, login)
      && Get(b.immature, login) - Get(b'.immature, login)
         == if logRead && item.block.hash == item.key.hash then Get(log, login) else 0
  {
    RipeRewardsAreLogged(l, stage, item, fees, nonceOf);
    RipeLog(l, stage, item, fees, nonceOf);
    WriteMaturedMoves(l, item, CalculateRewards(fees, item.block, RoundOf(l, item.block)), logRead, login);
  }

  /** Maturing leaves a log of the block open exactly when the block was credited, and under another
      hash than the chain names now. */
  lemma LogClosesIffSameHash(l: Ledger, stage: map<string, Stage>, item: Item<BlockRow>, fees: FeeConfig,
                             nonceOf: string -> string, logRead: bool)
    requires LedgerMatches(l, stage, CreditsUnder(fees), nonceOf) && RipeItem(item, stage, fees, nonceOf)
    ensures CanReward(item.block)
    ensures CreditKey(item.block.height, item.key.hash) in MaturedLedger(l, item, fees, logRead).books.open
      <==> !item.key.orphan && item.block.hash != item.key.hash
  {
    RipeRewardsAreLogged(l, stage, item, fees, nonceOf);
  }

  /** The log an orphaned block's reversal looks up is its own; an orphan row never had one. */
  lemma LostLog(l: Ledger, stage: map<string, Stage>, item: Item<BlockRow>, credits: CreditRule,
                nonceOf: string -> string)
    requires LedgerMatches(l, stage, credits, nonceOf) && LostItem(item, stage)
    ensures var reverted, key := CreditKey(item.block.roundHeight, item.block.hash),
      CreditKey(item.block.height, item.key.hash);
      && CreditLog(l.books, item.block) == LogOf(l, item.key, item.block.height)
      && l.books.open - {reverted} == l.books.open - {key}
      && (item.key.orphan ==> key !in l.books.open)
  {
    if item.key.orphan {
      assert item.key.hash == "0x0";
    }
  }

  /** Orphaning a block in the second pass deletes its own log and no other and touches no balance; if
      the log was read, the credit is taken back. */
  lemma OrphaningTakesBackTheLog(l: Ledger, stage: map<string, Stage>, item: Item<BlockRow>, credits: CreditRule,
                                 nonceOf: string -> string, logRead: bool)
    requires LedgerMatches(l, stage, credits, nonceOf) && LostItem(item, stage)
    ensures var b, b', key := l.books, OrphanBlockWritten(l, item, logRead).books,
      CreditKey(item.block.height, item.key.hash);
      && (forall login: string :: Get(b'.immature, login)
            == Get(b.immature, login) - (if logRead then Get(LogOf(l, item.key, item.block.height), login) else 0))
      && b'.balance == b.balance && b'.closed == b.closed
      && b'.open == b.open - {key}
      && (item.key.orphan ==> key !in b.open)
  {
    LostLog(l, stage, item, credits, nonceOf);
    var reverted := CreditKey(item.block.roundHeight, item.block.hash);
    forall login: string
      ensures Get(OrphanBlockWritten(l, item, logRead).books.immature, login)
        == Get(l.books.immature, login) - (if logRead then Get(LogOf(l, item.key, item.block.height), login) else 0)
    {
      RevertMoves(l.books, reverted, ReadLog(l.books, reverted, logRead), login);
    }
  }

  /** With a fee address, what maturing a block of `n` miners adds to all balances together misses
      the block's coinbase value plus fees by at most `(n+1)/2`. */
  lemma MaturingPaysTheRevenue(l: Ledger, stage: map<string, Stage>, item: Item<BlockRow>, fees: FeeConfig,
                               nonceOf: string -> string, logRead: bool)
    requires LedgerMatches(l, stage, CreditsUnder(fees), nonceOf) && RipeItem(item, stage, fees, nonceOf)
    requires fees.poolFeeAddress != ""
    ensures CanReward(item.block)
    ensures var paid, n := Sum(MaturedLedger(l, item, fees, logRead).books.balance) - Sum(l.books.balance),
      |RoundOf(l, item.block)|;
      -(n + 1) <= 2 * (paid - (item.key.coinBaseValue + item.key.blkTotalFee)) <= n + 1
  {
    var b := item.block;
    RoundIsThere(l, stage, b);
    var round := RoundOf(l, b);
    SumAddAll(l.books.balance, CalculateRewards(fees, b, round));
    CreditsNearRevenue(fees, b.coinBaseValue, b.blkTotalFee, round, b.totalShares);
  }

  // ---------- share difficulty ----------

  ghost function InRounds(rounds: map<RoundKey, Log>): int {
    Sum(map k | k in rounds :: Sum(rounds[k]))
  }

  ghost function InMatured(matured: map<BlockRow, int>): int {
    Sum(map r | r in matured :: r.totalShares)
  }

  /** All share difficulty the ledger knows of: the current round, the frozen rounds, and the share
      counts of the matured blocks, whose rounds are deleted. */
  ghost function Accounted(l: Ledger): int {
    Sum(l.shares.current) + InRounds(l.shares.rounds) + InMatured(l.queues.matured)
  }

  /** The difficulty of the shares a step accepts; a found block counts as a share. */
  function Accepted(step: Step): int {
    match step
    case Share(_, diff) => diff
    case Found(_, diff, _, _) => diff
    case _ => 0
  }

  function AllAccepted(steps: seq<Step>): int {
    if steps == [] then 0 else AllAccepted(steps[..|steps| - 1]) + Accepted(steps[|steps| - 1])
  }

  lemma RoundAdded(rounds: map<RoundKey, Log>, key: RoundKey, round: Log)
    requires key !in rounds
    ensures InRounds(rounds[key := round]) == InRounds(rounds) + Sum(round)
  {
    var before, after := map k | k in rounds :: Sum(rounds[k]), rounds[key := round];
    SumPut(before, key, Sum(round));
    assert (map k | k in after :: Sum(after[k])) == before[key := Sum(round)];
  }

  lemma RoundDeleted(rounds: map<RoundKey, Log>, key: RoundKey)
    requires key in rounds
    ensures InRounds(rounds - {key}) == InRounds(rounds) - Sum(rounds[key])
  {
    var before, after := map k | k in rounds :: Sum(rounds[k]), rounds - {key};
    SumDrop(before, key);
    assert (map k | k in after :: Sum(after[k])) == before - {key};
  }

  lemma MaturedAdded(matured: map<BlockRow, int>, row: BlockRow, height: int)
    requires row !in matured
    ensures InMatured(matured[row := height]) == InMatured(matured) + row.totalShares
  {
    var before, after := map r | r in matured :: r.totalShares, matured[row := height];
    SumPut(before, row, row.totalShares);
    assert (map r | r in after :: r.totalShares) == before[row := row.totalShares];
  }

  lemma ToMaturedKeepsAccount(l: Ledger, stage: map<string, Stage>, item: Item<BlockRow>)
    requires QueuesMatch(l.queues, stage) && RoundsMatch(l.shares.rounds, stage)
    requires item.key.nonce in stage && stage[item.key.nonce].Immature? && stage[item.key.nonce].row == item.key
    requires var b := item.block;
      b.nonce == item.key.nonce && b.height == b.roundHeight == stage[b.nonce].height
        && b.totalShares == item.key.totalShares
    ensures Accounted(ToMatured(l, item)) == Accounted(l)
  {
    var b := item.block;
    RoundDeleted(l.shares.rounds, RoundKey(b.roundHeight, b.nonce));
    MaturedAdded(l.queues.matured, RowOf(b), b.height);
  }

  lemma LostKeepsAccount(l: Ledger, stage: map<string, Stage>, item: Item<BlockRow>, logRead: bool)
    requires QueuesMatch(l.queues, stage) && RoundsMatch(l.shares.rounds, stage) && LostItem(item, stage)
    ensures Accounted(OrphanBlockWritten(l, item, logRead)) == Accounted(l)
  {
    ToMaturedKeepsAccount(l, stage, item);
  }

  lemma RipeKeepsAccount(l: Ledger, stage: map<string, Stage>, item: Item<BlockRow>, fees: FeeConfig,
                         nonceOf: string -> string,
                         rewards: Log, logRead: bool)
    requires QueuesMatch(l.queues, stage) && RoundsMatch(l.shares.rounds, stage) && RipeItem(item, stage, fees, nonceOf)
    ensures Accounted(MaturedBlockWritten(l, item, rewards, logRead)) == Accounted(l)
  {
    ToMaturedKeepsAccount(l, stage, item);
  }

  lemma WriteKeepsAccount(s: System, step: Step, cfg: UnlockerConfig, nonceOf: string -> string)
    requires QueuesMatch(s.ledger.queues, s.stage) && RoundsMatch(s.ledger.shares.rounds, s.stage)
    requires WorkMatches(s.work, s.stage, cfg.fees, nonceOf) && WriteRuns(s.work, step)
    ensures Accounted(LedgerWritten(s.ledger, s.work, step, cfg.fees)) == Accounted(s.ledger)
  {
    match step
    case WritePendingOrphans(_) => OrphansKeepAccount(s.ledger, s.stage, s.work.orphans);
    case WriteNextImmature(_) => assert ConfirmedItem(s.work.confirmed[0], s.stage, cfg.fees, nonceOf);
    case WriteNextOrphan(_, logRead) => LostKeepsAccount(s.ledger, s.stage, s.work.lost[0], logRead);
    case WriteNextMatured(_, logRead) =>
      var item := s.work.ripe[0];
      var rewards := CalculateRewards(cfg.fees, item.block, RoundOf(s.ledger, item.block));
      RipeKeepsAccount(s.ledger, s.stage, item, cfg.fees, nonceOf, rewards, logRead);
  }

  lemma {:induction false} OrphansKeepAccount(l: Ledger, stage: map<string, Stage>, items: seq<Item<CandidateRow>>)
    requires forall item <- items :: OrphanItem(item, stage)
    ensures PendingOrphans(l, items).shares == l.shares
    ensures PendingOrphans(l, items).queues.matured == l.queues.matured
  {
    if items != [] {
      var last := |items| - 1;
      OrphansKeepAccount(l, stage, items[..last]);
      assert OrphanItem(items[last], stage);
    }
  }

  lemma ShareAccounts(s: Shares, login: string, diff: int)
    ensures Sum(AcceptShare(s, login, diff).current) == Sum(s.current) + diff
  {
    SumPut(s.current, login, Get(s.current, login) + diff);
  }

  /** Freezing a round conserves share difficulty exactly if it overwrites no earlier round that held
      any: two blocks found at one height with one nonce share a key, and the first round is lost. */
  lemma FreezeAccounts(s: Shares, login: string, diff: int, key: RoundKey)
    ensures var s' := FreezeRound(s, login, diff, key);
      Sum(s'.current) + InRounds(s'.rounds) == Sum(s.current) + InRounds(s.rounds) + diff
      <==> key !in s.rounds || Sum(s.rounds[key]) == 0
  {
    var closing := ClosingRound(s, login, diff);
    ShareAccounts(s, login, diff);
    if key in s.rounds {
      RoundDeleted(s.rounds, key);
      RoundAdded(s.rounds - {key}, key, closing);
      assert (s.rounds - {key})[key := closing] == s.rounds[key := closing];
    } else {
      RoundAdded(s.rounds, key, closing);
    }
    assert Sum<string>(map[]) == 0;
  }

  lemma StepAccounts(s: System, step: Step, cfg: UnlockerConfig, nonceOf: string -> string)
    requires QueuesMatch(s.ledger.queues, s.stage) && RoundsMatch(s.ledger.shares.rounds, s.stage)
    requires WorkMatches(s.work, s.stage, cfg.fees, nonceOf) && Enabled(s, step, cfg, nonceOf)
    ensures Accounted(LedgerAfter(s, step, cfg.fees)) == Accounted(s.ledger) + Accepted(step)
  {
    if step.Share? {
      ShareAccounts(s.ledger.shares, step.login, step.diff);
    } else if step.Found? {
      FreezeAccounts(s.ledger.shares, step.login, step.diff, RoundKey(step.height, step.row.nonce));
    } else if WriteRuns(s.work, step) {
      WriteKeepsAccount(s, step, cfg, nonceOf);
    }
  }

  lemma RunStepAccounts(states: seq<System>, steps: seq<Step>, k: nat, cfg: UnlockerConfig, nonceOf: string -> string)
    requires Run(states, steps, cfg, nonceOf) && k < |steps|
    ensures Accounted(states[k + 1].ledger) == Accounted(states[k].ledger) + Accepted(steps[k])
  {
    EveryStateIsSafe(states, steps, k, cfg, nonceOf);
    StepAccounts(states[k], steps[k], cfg, nonceOf);
  }

  lemma {:induction false} AcceptedAdd(states: seq<System>, steps: seq<Step>, i: nat)
    requires |states| == |steps| + 1 && i <= |steps| && Accounted(states[0].ledger) == 0
    requires forall k :: 0 <= k < |steps| ==>
      Accounted(states[k + 1].ledger) == Accounted(states[k].ledger) + Accepted(steps[k])
    ensures Accounted(states[i].ledger) == AllAccepted(steps[..i])
  {
    if i > 0 {
      AcceptedAdd(states, steps, i - 1);
      assert steps[..i][..i - 1] == steps[..i - 1];
      assert states[i] == states[i - 1 + 1];
    }
  }

  /** Accepted share difficulty is conserved: at every moment of every run, all of it is in the
      current round, in a frozen round, or in the share count of a matured block. */
  lemma DifficultyIsConserved(states: seq<System>, steps: seq<Step>, i: nat, cfg: UnlockerConfig,
                              nonceOf: string -> string)
    requires Run(states, steps, cfg, nonceOf) && i <= |steps|
    ensures Accounted(states[i].ledger) == AllAccepted(steps[..i])
  {
    NothingAccounted(EMPTY_LEDGER);
    forall k | 0 <= k < |steps|
      ensures Accounted(states[k + 1].ledger) == Accounted(states[k].ledger) + Accepted(steps[k])
    {
      RunStepAccounts(states, steps, k, cfg, nonceOf);
    }
    AcceptedAdd(states, steps, i);
  }

  lemma NothingAccounted(l: Ledger)
    ensures l == EMPTY_LEDGER ==> Accounted(l) == 0
  {
    var rounds := map k | k in l.shares.rounds :: Sum(l.shares.rounds[k]);
    var matured := map r | r in l.queues.matured :: r.totalShares;
    assert rounds.Keys == l.shares.rounds.Keys && matured.Keys == l.queues.matured.Keys;
  }

  // ---------- money ----------

  /** What all miners together were credited for good, in whatever form it is now. */
  ghost function AllHeld(b: Books): int { Sum(b.balance) + Sum(b.pending) + Sum(b.paid) }

  /** What a step credits to balances: the rewards of a block it matures. */
  ghost function Credited(s: System, step: Step, fees: FeeConfig): int {
    if step.WriteNextMatured? && WriteRuns(s.work, step) then
      var item := s.work.ripe[0];
      Sum(CalculateRewards(fees, item.block, RoundOf(s.ledger, item.block)))
    else 0
  }

  ghost function AllCredited(states: seq<System>, steps: seq<Step>, n: nat, fees: FeeConfig): int
    requires n <= |steps| <= |states|
  {
    if n == 0 then 0 else AllCredited(states, steps, n - 1, fees) + Credited(states[n - 1], steps[n - 1], fees)
  }

  lemma PaymentsKeepHeld(b: Books, login: string, amount: int)
    ensures AllHeld(Debit(b, login, amount)) == AllHeld(Rollback(b, login, amount)) == AllHeld(Pay(b, login, amount))
      == AllHeld(b)
  {
    SumPut(b.balance, login, Get(b.balance, login) - amount);
    SumPut(b.balance, login, Get(b.balance, login) + amount);
    SumPut(b.pending, login, Get(b.pending, login) + amount);
    SumPut(b.pending, login, Get(b.pending, login) - amount);
    SumPut(b.paid, login, Get(b.paid, login) + amount);
  }

  lemma WriteCredits(s: System, step: Step, cfg: UnlockerConfig, nonceOf: string -> string)
    requires WorkMatches(s.work, s.stage, cfg.fees, nonceOf) && WriteRuns(s.work, step)
    ensures AllHeld(LedgerWritten(s.ledger, s.work, step, cfg.fees).books)
      == AllHeld(s.ledger.books) + Credited(s, step, cfg.fees)
  {
    match step
    case WritePendingOrphans(_) => OrphansKeepRounds(s.ledger, s.stage, s.work.orphans);
    case WriteNextMatured(_, _) =>
      var item := s.work.ripe[0];
      SumAddAll(s.ledger.books.balance, CalculateRewards(cfg.fees, item.block, RoundOf(s.ledger, item.block)));
    case _ =>
  }

  lemma StepCredits(s: System, step: Step, cfg: UnlockerConfig, nonceOf: string -> string)
    requires WorkMatches(s.work, s.stage, cfg.fees, nonceOf) && Enabled(s, step, cfg, nonceOf)
    ensures AllHeld(LedgerAfter(s, step, cfg.fees).books) == AllHeld(s.ledger.books) + Credited(s, step, cfg.fees)
  {
    match step
    case PayDebit(login, amount) => PaymentsKeepHeld(s.ledger.books, login, amount);
    case PayRollback(login, amount) => PaymentsKeepHeld(s.ledger.books, login, amount);
    case PayWritten(login, amount) => PaymentsKeepHeld(s.ledger.books, login, amount);
    case _ =>
      if WriteRuns(s.work, step) {
        WriteCredits(s, step, cfg, nonceOf);
      }
  }

  lemma RunStepCredits(states: seq<System>, steps: seq<Step>, k: nat, cfg: UnlockerConfig, nonceOf: string -> string)
    requires Run(states, steps, cfg, nonceOf) && k < |steps|
    ensures AllHeld(states[k + 1].ledger.books)
      == AllHeld(states[k].ledger.books) + Credited(states[k], steps[k], cfg.fees)
  {
    EveryStateIsSafe(states, steps, k, cfg, nonceOf);
    StepCredits(states[k], steps[k], cfg, nonceOf);
  }

  lemma {:induction false} CreditsAdd(states: seq<System>, steps: seq<Step>, i: nat, fees: FeeConfig)
    requires |states| == |steps| + 1 && i <= |steps| && AllHeld(states[0].ledger.books) == 0
    requires forall k :: 0 <= k < |steps| ==>
      AllHeld(states[k + 1].ledger.books) == AllHeld(states[k].ledger.books) + Credited(states[k], steps[k], fees)
    ensures AllHeld(states[i].ledger.books) == AllCredited(states, steps, i, fees)
  {
    if i > 0 {
      CreditsAdd(states, steps, i - 1, fees);
      assert states[i] == states[i - 1 + 1];
    }
  }

  /** Money is conserved: in every run, balance, pending and paid of all miners together are what
      maturing blocks credited, under any interleaving of credits, debits, rollbacks and payments,
      and the pool's totals are the sums over its miners. */
  lemma MoneyIsConserved(states: seq<System>, steps: seq<Step>, i: nat, cfg: UnlockerConfig, nonceOf: string -> string)
    requires Run(states, steps, cfg, nonceOf) && i <= |steps|
    ensures AllHeld(states[i].ledger.books) == AllCredited(states, steps, i, cfg.fees)
    ensures PoolAgrees(states[i].ledger.books)
  {
    assert Sum<string>(map[]) == 0;
    forall k | 0 <= k < |steps|
      ensures AllHeld(states[k + 1].ledger.books)
        == AllHeld(states[k].ledger.books) + Credited(states[k], steps[k], cfg.fees)
    {
      RunStepCredits(states, steps, k, cfg, nonceOf);
    }
    CreditsAdd(states, steps, i, cfg.fees);
    EveryStateIsSafe(states, steps, i, cfg, nonceOf);
  }

  /** What a step earns a miner for good: its part of the rewards of a block it matures. */
  function Earns(s: System, step: Step, fees: FeeConfig, login: string): int {
    if step.WriteNextMatured? && WriteRuns(s.work, step) then
      var item := s.work.ripe[0];
      Get(CalculateRewards(fees, item.block, RoundOf(s.ledger, item.block)), login)
    else 0
  }

  function Earned(states: seq<System>, steps: seq<Step>, n: nat, fees: FeeConfig, login: string): int
    requires n <= |steps| <= |states|
  {
    if n == 0 then 0
    else Earned(states, steps, n - 1, fees, login) + Earns(states[n - 1], steps[n - 1], fees, login)
  }

  lemma StepEarns(s: System, step: Step, login: string, cfg: UnlockerConfig, nonceOf: string -> string)
    requires WorkMatches(s.work, s.stage, cfg.fees, nonceOf) && Enabled(s, step, cfg, nonceOf)
    ensures Held(LedgerAfter(s, step, cfg.fees).books, login)
      == Held(s.ledger.books, login) + Earns(s, step, cfg.fees, login)
  {
    match step
    case PayDebit(who, amount) => MovesKeepHeld(s.ledger.books, who, amount, login);
    case PayRollback(who, amount) => MovesKeepHeld(s.ledger.books, who, amount, login);
    case PayWritten(who, amount) => MovesKeepHeld(s.ledger.books, who, amount, login);
    case _ =>
      if WriteRuns(s.work, step) {
        WriteEarns(s, step, login, cfg, nonceOf);
      }
  }

  lemma WriteEarns(s: System, step: Step, login: string, cfg: UnlockerConfig, nonceOf: string -> string)
    requires WorkMatches(s.work, s.stage, cfg.fees, nonceOf) && WriteRuns(s.work, step)
    ensures Held(LedgerWritten(s.ledger, s.work, step, cfg.fees).books, login)
      == Held(s.ledger.books, login) + Earns(s, step, cfg.fees, login)
  {
    match step
    case WritePendingOrphans(_) => OrphansKeepRounds(s.ledger, s.stage, s.work.orphans);
    case WriteNextMatured(_, logRead) =>
      var item := s.work.ripe[0];
      WriteMaturedMoves(s.ledger, item, CalculateRewards(cfg.fees, item.block, RoundOf(s.ledger, item.block)), logRead,
                        login);
    case _ =>
  }

  lemma RunStepEarns(states: seq<System>, steps: seq<Step>, k: nat, login: string, cfg: UnlockerConfig,
                     nonceOf: string -> string)
    requires Run(states, steps, cfg, nonceOf) && k < |steps|
    ensures Held(states[k + 1].ledger.books, login)
      == Held(states[k].ledger.books, login) + Earns(states[k], steps[k], cfg.fees, login)
  {
    EveryStateIsSafe(states, steps, k, cfg, nonceOf);
    StepEarns(states[k], steps[k], login, cfg, nonceOf);
  }

  lemma {:induction false} EarningsAdd(states: seq<System>, steps: seq<Step>, i: nat, fees: FeeConfig, login: string)
    requires |states| == |steps| + 1 && i <= |steps| && Held(states[0].ledger.books, login) == 0
    requires forall k :: 0 <= k < |steps| ==> Held(states[k + 1].ledger.books, login)
                                              == Held(states[k].ledger.books, login)
                                                + Earns(states[k], steps[k], fees, login)
    ensures Held(states[i].ledger.books, login) == Earned(states, steps, i, fees, login)
  {
    if i > 0 {
      EarningsAdd(states, steps, i - 1, fees, login);
      assert states[i] == states[i - 1 + 1];
    }
  }

  /** So is every miner's: its balance, pending and paid amounts are what the blocks matured so far paid
      to it, however payments move them between the three. */
  lemma MinersMoneyIsConserved(states: seq<System>, steps: seq<Step>, i: nat, login: string, cfg: UnlockerConfig,
                               nonceOf: string -> string)
    requires Run(states, steps, cfg, nonceOf) && i <= |steps|
    ensures var b := states[i].ledger.books;
      Get(b.balance, login) + Get(b.pending, login) + Get(b.paid, login)
      == Earned(states, steps, i, cfg.fees, login)
  {
    forall k | 0 <= k < |steps|
      ensures Held(states[k + 1].ledger.books, login)
        == Held(states[k].ledger.books, login) + Earns(states[k], steps[k], cfg.fees, login)
    {
      RunStepEarns(states, steps, k, login, cfg, nonceOf);
    }
    EarningsAdd(states, steps, i, cfg.fees, login);
  }

  // ---------- credits that are lost ----------

  /** What a step loses of a miner's provisional credit: the log it deletes without having read it. */
  function Unread(s: System, step: Step, login: string): int {
    if !WriteRuns(s.work, step) then 0
    else
      match step
      case WriteNextOrphan(_, logRead) =>
        if logRead then 0 else Get(CreditLog(s.ledger.books, s.work.lost[0].block), login)
      case WriteNextMatured(_, logRead) =>
        if logRead then 0 else Get(CreditLog(s.ledger.books, s.work.ripe[0].block), login)
      case _ => 0
  }

  function AllUnread(states: seq<System>, steps: seq<Step>, n: nat, login: string): int
    requires n <= |steps| <= |states|
  {
    if n == 0 then 0 else AllUnread(states, steps, n - 1, login) + Unread(states[n - 1], steps[n - 1], login)
  }

  lemma WriteLoses(s: System, step: Step, login: string, cfg: UnlockerConfig, nonceOf: string -> string)
    requires WorkMatches(s.work, s.stage, cfg.fees, nonceOf) && WriteRuns(s.work, step)
    ensures Get(LedgerWritten(s.ledger, s.work, step, cfg.fees).books.lost, login)
      == Get(s.ledger.books.lost, login) + Unread(s, step, login)
  {
    match step
    case WritePendingOrphans(_) => OrphansKeepRounds(s.ledger, s.stage, s.work.orphans);
    case WriteNextOrphan(_, logRead) =>
      var b := s.work.lost[0].block;
      RevertLoses(s.ledger.books, CreditKey(b.roundHeight, b.hash), logRead, login);
    case WriteNextMatured(_, logRead) =>
      var b := s.work.ripe[0].block;
      RevertLoses(s.ledger.books, CreditKey(b.roundHeight, b.hash), logRead, login);
    case _ =>
  }

  lemma StepLoses(s: System, step: Step, login: string, cfg: UnlockerConfig, nonceOf: string -> string)
    requires WorkMatches(s.work, s.stage, cfg.fees, nonceOf) && Enabled(s, step, cfg, nonceOf)
    ensures Get(LedgerAfter(s, step, cfg.fees).books.lost, login)
      == Get(s.ledger.books.lost, login) + Unread(s, step, login)
  {
    if WriteRuns(s.work, step) {
      WriteLoses(s, step, login, cfg, nonceOf);
    }
  }

  lemma RunStepLoses(states: seq<System>, steps: seq<Step>, k: nat, login: string, cfg: UnlockerConfig,
                     nonceOf: string -> string)
    requires Run(states, steps, cfg, nonceOf) && k < |steps|
    ensures Get(states[k + 1].ledger.books.lost, login)
      == Get(states[k].ledger.books.lost, login) + Unread(states[k], steps[k], login)
  {
    EveryStateIsSafe(states, steps, k, cfg, nonceOf);
    StepLoses(states[k], steps[k], login, cfg, nonceOf);
  }

  lemma {:induction false} LossesAdd(states: seq<System>, steps: seq<Step>, i: nat, login: string)
    requires |states| == |steps| + 1 && i <= |steps| && Get(states[0].ledger.books.lost, login) == 0
    requires forall k :: 0 <= k < |steps| ==> Get(states[k + 1].ledger.books.lost, login)
                                              == Get(states[k].ledger.books.lost, login)
                                                + Unread(states[k], steps[k], login)
    ensures Get(states[i].ledger.books.lost, login) == AllUnread(states, steps, i, login)
  {
    if i > 0 {
      LossesAdd(states, steps, i - 1, login);
      assert states[i] == states[i - 1 + 1];
    }
  }

  /** The lost log is the sum of the logs that were deleted unread. */
  lemma LostIsWhatWasNotRead(states: seq<System>, steps: seq<Step>, i: nat, login: string, cfg: UnlockerConfig,
                             nonceOf: string -> string)
    requires Run(states, steps, cfg, nonceOf) && i <= |steps|
    ensures Get(states[i].ledger.books.lost, login) == AllUnread(states, steps, i, login)
  {
    forall k | 0 <= k < |steps|
      ensures Get(states[k + 1].ledger.books.lost, login)
        == Get(states[k].ledger.books.lost, login) + Unread(states[k], steps[k], login)
    {
      RunStepLoses(states, steps, k, login, cfg, nonceOf);
    }
    LossesAdd(states, steps, i, login);
  }

  /** In every state of every run a miner's immature amount is what the open logs hold for it and what
      was deleted unread; so it agrees with the open logs if and only if nothing was. */
  lemma ImmatureIsOpenAndUnread(states: seq<System>, steps: seq<Step>, i: nat, login: string, cfg: UnlockerConfig,
                                nonceOf: string -> string)
    requires Run(states, steps, cfg, nonceOf) && i <= |steps|
    ensures var b := states[i].ledger.books;
      && Get(b.immature, login) == Logged(b.open, login) + AllUnread(states, steps, i, login)
      && (Get(b.immature, login) == Logged(b.open, login) <==> AllUnread(states, steps, i, login) == 0)
  {
    EveryStateIsSafe(states, steps, i, cfg, nonceOf);
    LostIsWhatWasNotRead(states, steps, i, login, cfg, nonceOf);
  }
}
