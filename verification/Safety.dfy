/** Safety of the pool over every run: the invariants hold in every reachable state. */
module Safety {
  import opened Wrappers
  import opened FiniteSums
  import opened Rewards
  import opened Rows
  import opened Books
  import opened Ledger
  import opened Lifecycle
  import opened Invariants
  import opened Preservation

  // ---------- what the chain's answers decide ----------

  /** `out` is one of the blocks asked about, as its own answer leaves it. */
  ghost predicate Judged<K(!new)>(out: Item<K>, fees: FeeConfig, items: seq<Item<K>>, answers: seq<Option<ChainBlock>>)
    requires |answers| == |items|
  {
    exists i :: 0 <= i < |items| && answers[i].Some? && out == Judge(fees, items[i], answers[i].value)
  }

  lemma JudgedInPrefix<K(!new)>(out: Item<K>, fees: FeeConfig, items: seq<Item<K>>, answers: seq<Option<ChainBlock>>,
                                n: nat)
    requires |answers| == |items| && n < |items| && Distinct(items)
    requires Judged(out, fees, items[..n], answers[..n])
    ensures Judged(out, fees, items, answers)
    ensures out.block.nonce != items[n].block.nonce
  {
    var i :| 0 <= i < n && answers[..n][i].Some? && out == Judge(fees, items[..n][i], answers[..n][i].value);
    assert items[..n][i] == items[i] && answers[..n][i] == answers[i];
  }

  ghost predicate Sound<K(!new)>(r: UnlockResult<K>, fees: FeeConfig, items: seq<Item<K>>,
                                 answers: seq<Option<ChainBlock>>)
    requires |answers| == |items|
  {
    && (forall out <- r.orphans :: out.block.orphan && Judged(out, fees, items, answers))
    && (forall out <- r.matured :: !out.block.orphan && Judged(out, fees, items, answers))
    && Distinct(r.orphans) && Distinct(r.matured) && Apart(r.orphans, r.matured)
    && |r.orphans| + |r.matured| == |items|
  }

  lemma SortingKeepsApart<K(!new)>(r: UnlockResult<K>, item: Item<K>)
    requires Distinct(r.orphans) && Distinct(r.matured) && Apart(r.orphans, r.matured)
    requires forall out <- r.orphans + r.matured :: out.block.nonce != item.block.nonce
    ensures var r' := Sorted(r, item);
      Distinct(r'.orphans) && Distinct(r'.matured) && Apart(r'.orphans, r'.matured)
  {
    assert forall out <- r.orphans :: out in r.orphans + r.matured;
    assert forall out <- r.matured :: out in r.orphans + r.matured;
  }

  /** Every block asked about is decided exactly once, as its own answer says. */
  lemma {:induction false} DecisionsAreSound<K(!new)>(fees: FeeConfig, items: seq<Item<K>>,
                                                      answers: seq<Option<ChainBlock>>)
    requires |answers| == |items| && Distinct(items)
    requires UnlockCandidates(fees, items, answers).Some?
    ensures Sound(UnlockCandidates(fees, items, answers).value, fees, items, answers)
  {
    if items != [] {
      var n := |items| - 1;
      DecisionsAreSound(fees, items[..n], answers[..n]);
      var f := UnlockCandidates(fees, items[..n], answers[..n]).value;
      forall out <- f.orphans + f.matured
        ensures Judged(out, fees, items, answers) && out.block.nonce != items[n].block.nonce
      {
        JudgedInPrefix(out, fees, items, answers, n);
      }
      var last := Judge(fees, items[n], answers[n].value);
      assert Judged(last, fees, items, answers);
      assert last.block.nonce == items[n].block.nonce;
      SortingKeepsApart(f, last);
      assert forall out <- f.orphans :: out in f.orphans + f.matured;
      assert forall out <- f.matured :: out in f.orphans + f.matured;
    }
  }

  /** The list has the block with its answer's hash, its reward and no orphan mark. */
  ghost predicate ListsConfirmed<K(!new)>(list: seq<Item<K>>, item: Item<K>, hash: string, fees: FeeConfig) {
    exists out <- list :: out.key == item.key && SameRecord(out.block, item.block) && !out.block.orphan
      && out.block.hash == hash && IsHandled(fees, out.block)
  }

  /** The list has the block with nothing changed but the orphan mark. */
  ghost predicate ListsOrphan<K(!new)>(list: seq<Item<K>>, item: Item<K>) {
    exists out <- list :: out.key == item.key && out.block == item.block.(orphan := true)
  }

  /** Two records differ at most in what an answer decides. */
  predicate SameRecord(a: BlockData, b: BlockData) {
    && a.height == b.height && a.roundHeight == b.roundHeight && a.nonce == b.nonce
    && a.timestamp == b.timestamp && a.difficulty == b.difficulty && a.totalShares == b.totalShares
    && a.coinBaseValue == b.coinBaseValue && a.blkTotalFee == b.blkTotalFee
  }

  /** The block is confirmed if its answer names its nonce, and otherwise an orphan. */
  ghost predicate DecidedAt<K(!new)>(r: UnlockResult<K>, fees: FeeConfig, item: Item<K>, answer: ChainBlock) {
    if answer.nonce == item.block.nonce then ListsConfirmed(r.matured, item, answer.hash, fees)
    else ListsOrphan(r.orphans, item)
  }

  lemma JudgedByNonce<K(!new)>(r: UnlockResult<K>, fees: FeeConfig, item: Item<K>, answer: ChainBlock)
    requires IsNonce(item.block.nonce) && IsNonce(answer.nonce) && item.block.extraReward.None?
    ensures DecidedAt(Sorted(r, Judge(fees, item, answer)), fees, item, answer)
  {
    var judged := Judge(fees, item, answer);
    NonceFolds(item.block.nonce, answer.nonce);
    HandlingHandles(fees, item.block, answer);
    var r' := Sorted(r, judged);
    if judged.block.orphan {
      assert r'.orphans[|r'.orphans| - 1] == judged;
    } else {
      assert r'.matured[|r'.matured| - 1] == judged;
    }
  }

  lemma DecisionStays<K(!new)>(r: UnlockResult<K>, last: Item<K>, fees: FeeConfig, item: Item<K>, answer: ChainBlock)
    requires DecidedAt(r, fees, item, answer)
    ensures DecidedAt(Sorted(r, last), fees, item, answer)
  {
    var r' := Sorted(r, last);
    assert forall out <- r.matured :: out in r'.matured;
    assert forall out <- r.orphans :: out in r'.orphans;
  }

  /** Whatever else is asked about, each block is decided by the nonce its own answer names. */
  lemma {:induction false} DecisionsFollowNonces<K(!new)>(fees: FeeConfig, items: seq<Item<K>>,
                                                          answers: seq<Option<ChainBlock>>, i: nat)
    requires |answers| == |items| && i < |items| && UnlockCandidates(fees, items, answers).Some?
    requires IsNonce(items[i].block.nonce) && items[i].block.extraReward.None?
    requires answers[i].Some? ==> IsNonce(answers[i].value.nonce)
    ensures answers[i].Some?
    ensures DecidedAt(UnlockCandidates(fees, items, answers).value, fees, items[i], answers[i].value)
  {
    var n := |items| - 1;
    var front := UnlockCandidates(fees, items[..n], answers[..n]).value;
    if i == n {
      JudgedByNonce(front, fees, items[n], answers[n].value);
    } else {
      DecisionsFollowNonces(fees, items[..n], answers[..n], i);
      DecisionStays(front, Judge(fees, items[n], answers[n].value), fees, items[i], answers[i].value);
    }
  }

  /** Once the node has failed to answer for one block, the pass has no result. */
  lemma {:induction false} FailureIsFinal<K>(fees: FeeConfig, items: seq<Item<K>>, answers: seq<Option<ChainBlock>>,
                                             i: nat)
    requires |answers| == |items| && i < |items| && answers[i].None?
    ensures UnlockCandidates(fees, items, answers).None?
  {
    var n := |items| - 1;
    if i < n {
      FailureIsFinal(fees, items[..n], answers[..n], i);
    }
  }

  lemma JudgedCandidate(r: CandidateRow, c: ChainBlock, stage: map<string, Stage>, fees: FeeConfig,
                        nonceOf: string -> string)
    requires IsNonce(r.nonce) && r.nonce in stage && stage[r.nonce].Candidate? && stage[r.nonce].candidate == r
    requires |c.hash| >= 10 && IsNonce(c.nonce) && c.nonce == nonceOf(c.hash)
    ensures var out := Judge(fees, Item(r, FromCandidate(r, stage[r.nonce].height)), c);
      if out.block.orphan then OrphanItem(out, stage) else ConfirmedItem(out, stage, fees, nonceOf)
  {
    NonceFolds(r.nonce, c.nonce);
  }

  lemma JudgedImmature(r: BlockRow, c: ChainBlock, stage: map<string, Stage>, fees: FeeConfig,
                       nonceOf: string -> string)
    requires IsNonce(r.nonce) && r.nonce in stage && stage[r.nonce].Immature? && stage[r.nonce].row == r
    requires |c.hash| >= 10 && IsNonce(c.nonce) && c.nonce == nonceOf(c.hash)
    ensures var out := Judge(fees, Item(r, FromBlock(r, stage[r.nonce].height)), c);
      if out.block.orphan then LostItem(out, stage) else RipeItem(out, stage, fees, nonceOf)
  {
    NonceFolds(r.nonce, c.nonce);
  }

  lemma CandidateItemsFromStage(order: seq<CandidateRow>, q: Queues, stage: map<string, Stage>, due: int)
    requires QueuesMatch(q, stage) && Lists(order, q.candidates, due)
    ensures Distinct(CandidateItems(order, q.candidates))
    ensures forall i :: 0 <= i < |order| ==>
      order[i].nonce in stage && stage[order[i].nonce] == Candidate(order[i], q.candidates[order[i]])
  {
    forall i | 0 <= i < |order| ensures order[i] in q.candidates {
      assert order[i] in order;
    }
  }

  lemma ImmatureItemsFromStage(rows: seq<BlockRow>, q: Queues, stage: map<string, Stage>, due: int)
    requires QueuesMatch(q, stage) && Lists(rows, q.immature, due)
    ensures Distinct(ImmatureItems(rows, q.immature))
    ensures forall i :: 0 <= i < |rows| ==>
      rows[i].nonce in stage && stage[rows[i].nonce] == Immature(rows[i], q.immature[rows[i]])
  {
    forall i | 0 <= i < |rows| ensures rows[i] in q.immature {
      assert rows[i] in rows;
    }
  }

  lemma LoadedPendingMatches(s: System, due: int, order: seq<CandidateRow>, answers: seq<Option<ChainBlock>>,
                             cfg: UnlockerConfig, nonceOf: string -> string)
    requires Inv(s, cfg, nonceOf) && Enabled(s, LoadCandidates(due, order, answers), cfg, nonceOf)
    ensures var r := UnlockCandidates(cfg.fees, CandidateItems(order, s.ledger.queues.candidates), answers);
      r.Some? ==> WorkMatches(PendingLoaded(r.value.orphans, r.value.matured), s.stage, cfg.fees, nonceOf)
  {
    var items := CandidateItems(order, s.ledger.queues.candidates);
    CandidateItemsFromStage(order, s.ledger.queues, s.stage, due);
    if UnlockCandidates(cfg.fees, items, answers).Some? {
      DecisionsAreSound(cfg.fees, items, answers);
      forall out | Judged(out, cfg.fees, items, answers)
        ensures if out.block.orphan then OrphanItem(out, s.stage) else ConfirmedItem(out, s.stage, cfg.fees, nonceOf)
      {
        var i :| 0 <= i < |items| && answers[i].Some? && out == Judge(cfg.fees, items[i], answers[i].value);
        assert answers[i] in answers;
        JudgedCandidate(order[i], answers[i].value, s.stage, cfg.fees, nonceOf);
      }
    }
  }

  lemma LoadedImmatureMatches(s: System, due: int, rows: seq<BlockRow>, answers: seq<Option<ChainBlock>>,
                              cfg: UnlockerConfig, nonceOf: string -> string)
    requires Inv(s, cfg, nonceOf) && Enabled(s, LoadImmature(due, rows, answers), cfg, nonceOf)
    ensures var r := UnlockCandidates(cfg.fees, ImmatureItems(rows, s.ledger.queues.immature), answers);
      r.Some? ==> WorkMatches(MatureLoaded(r.value.orphans, r.value.matured), s.stage, cfg.fees, nonceOf)
  {
    var items := ImmatureItems(rows, s.ledger.queues.immature);
    ImmatureItemsFromStage(rows, s.ledger.queues, s.stage, due);
    if UnlockCandidates(cfg.fees, items, answers).Some? {
      DecisionsAreSound(cfg.fees, items, answers);
      forall out | Judged(out, cfg.fees, items, answers)
        ensures if out.block.orphan then LostItem(out, s.stage) else RipeItem(out, s.stage, cfg.fees, nonceOf)
      {
        var i :| 0 <= i < |items| && answers[i].Some? && out == Judge(cfg.fees, items[i], answers[i].value);
        assert answers[i] in answers;
        JudgedImmature(rows[i], answers[i].value, s.stage, cfg.fees, nonceOf);
      }
    }
  }

  // ---------- one step at a time ----------

  lemma ShareKeepsInv(s: System, login: string, diff: int, cfg: UnlockerConfig, nonceOf: string -> string)
    requires Inv(s, cfg, nonceOf) && diff >= 1
    ensures Inv(Apply(s, Share(login, diff), cfg, nonceOf), cfg, nonceOf)
  {
    SumPut(s.ledger.shares.current, login, Get(s.ledger.shares.current, login) + diff);
  }

  lemma FoundKeepsInv(s: System, login: string, diff: int, height: int, row: CandidateRow, cfg: UnlockerConfig,
                      nonceOf: string -> string)
    requires Inv(s, cfg, nonceOf) && Enabled(s, Found(login, diff, height, row), cfg, nonceOf)
    ensures Inv(Apply(s, Found(login, diff, height, row), cfg, nonceOf), cfg, nonceOf)
  {
    var round := ClosingRound(s.ledger.shares, login, diff);
    TotalAtLeast(round.Keys, round, 1);
    FreezeKeepsRounds(s.ledger.shares.rounds, s.stage, row, height, round);
    FoundKeepsLogs(s.ledger.books, s.ledger.shares.rounds, s.stage, CreditsUnder(cfg.fees), nonceOf, row.nonce,
                   Frozen(row, height), round);
    WorkSurvives(s.work, s.stage, cfg.fees, nonceOf, row.nonce, Frozen(row, height));
    FoundKeepsQueues(s.ledger.queues, s.stage, row, height);
  }

  lemma ListCandidateKeepsInv(s: System, nonce: string, cfg: UnlockerConfig, nonceOf: string -> string)
    requires Inv(s, cfg, nonceOf) && Enabled(s, ListCandidate(nonce), cfg, nonceOf)
    ensures Inv(Apply(s, ListCandidate(nonce), cfg, nonceOf), cfg, nonceOf)
  {
    var f := s.stage[nonce];
    var listed := Candidate(f.candidate, f.height);
    ListingKeepsQueues(s.ledger.queues, s.stage, nonce);
    RestageKeepsRounds(s.ledger.shares.rounds, s.stage, nonce, listed);
    EarlyMoveKeepsLogs(s.ledger.books, s.ledger.shares.rounds, s.stage, CreditsUnder(cfg.fees), nonceOf, nonce, listed);
    WorkSurvives(s.work, s.stage, cfg.fees, nonceOf, nonce, listed);
  }

  lemma PaymentKeepsInv(s: System, step: Step, cfg: UnlockerConfig, nonceOf: string -> string)
    requires Inv(s, cfg, nonceOf) && (step.PayDebit? || step.PayRollback? || step.PayWritten?)
    ensures Inv(Apply(s, step, cfg, nonceOf), cfg, nonceOf)
  {
    match step
    case PayDebit(login, amount) => DebitKeepsBalance(s.ledger.books, login, amount);
    case PayRollback(login, amount) => RollbackKeepsBalance(s.ledger.books, login, amount);
    case PayWritten(login, amount) => PayKeepsBalance(s.ledger.books, login, amount);
  }

  /** Writing an orphaned candidate moves its row and changes no money. */
  lemma OrphanToImmature(l: Ledger, stage: map<string, Stage>, item: Item<CandidateRow>, credits: CreditRule,
                         nonceOf: string -> string)
    requires LedgerMatches(l, stage, credits, nonceOf) && OrphanItem(item, stage)
    ensures LedgerMatches(ToImmature(l, item), NowImmature(stage, item.block), credits, nonceOf)
  {
    var n := item.key.nonce;
    var s := Immature(RowOf(item.block), item.block.height);
    ToImmatureKeepsQueues(l.queues, stage, item.key, RowOf(item.block), item.block.height);
    RestageKeepsRounds(l.shares.rounds, stage, n, s);
    EarlyMoveKeepsLogs(l.books, l.shares.rounds, stage, credits, nonceOf, n, s);
  }

  lemma {:induction false} StageElsewhere(stage: map<string, Stage>, items: seq<Item<CandidateRow>>, n: string)
    requires forall item <- items :: item.block.nonce != n
    ensures n in stage <==> n in AllNowImmature(stage, items)
    ensures n in stage ==> AllNowImmature(stage, items)[n] == stage[n]
  {
    if items != [] {
      StageElsewhere(stage, items[..|items| - 1], n);
    }
  }

  /** What moving one orphan keeps, moving all of them in their order keeps. */
  lemma {:induction false} OrphansOneByOne(good: (Ledger, map<string, Stage>) -> bool, l: Ledger,
                                           stage: map<string, Stage>, items: seq<Item<CandidateRow>>)
    requires good(l, stage)
    requires forall l', stage', item :: good(l', stage') && OrphanItem(item, stage') ==>
      good(ToImmature(l', item), NowImmature(stage', item.block))
    requires (forall item <- items :: OrphanItem(item, stage)) && Distinct(items)
    ensures good(PendingOrphans(l, items), AllNowImmature(stage, items))
  {
    if items != [] {
      var n := |items| - 1;
      OrphansOneByOne(good, l, stage, items[..n]);
      assert items[n] in items && OrphanItem(items[n], stage);
      StageElsewhere(stage, items[..n], items[n].block.nonce);
      assert OrphanItem(items[n], AllNowImmature(stage, items[..n]));
    }
  }

  lemma OrphansToImmature(l: Ledger, stage: map<string, Stage>, items: seq<Item<CandidateRow>>, credits: CreditRule,
                          nonceOf: string -> string)
    requires LedgerMatches(l, stage, credits, nonceOf)
    requires (forall item <- items :: OrphanItem(item, stage)) && Distinct(items)
    ensures LedgerMatches(PendingOrphans(l, items), AllNowImmature(stage, items), credits, nonceOf)
  {
    var good := (l': Ledger, stage': map<string, Stage>) => LedgerMatches(l', stage', credits, nonceOf);
    forall l', stage', item | good(l', stage') && OrphanItem(item, stage')
      ensures good(ToImmature(l', item), NowImmature(stage', item.block))
    {
      OrphanToImmature(l', stage', item, credits, nonceOf);
    }
    OrphansOneByOne(good, l, stage, items);
  }

  /** The round of a block that is not matured is there and sums to the block's share count. */
  lemma RoundIsThere(l: Ledger, stage: map<string, Stage>, b: BlockData)
    requires RoundsMatch(l.shares.rounds, stage) && b.nonce in stage && !stage[b.nonce].Matured?
    requires b.roundHeight == stage[b.nonce].height && b.totalShares == SharesOf(stage[b.nonce])
    ensures RoundKey(b.roundHeight, b.nonce) in l.shares.rounds
    ensures Sum(RoundOf(l, b)) == b.totalShares >= 1
    ensures RoundOf(l, b) != map[]
  {
    assert Sum<string>(map[]) == 0;
  }

  lemma CreditsAreNotEmpty(fees: FeeConfig, reward: int, extra: Option<int>, round: Log, total: int)
    requires round != map[] && total != 0
    ensures BlockCredits(fees, reward, extra, round, total) != map[]
  {
    var login :| login in round;
    assert login in BlockCredits(fees, reward, extra, round, total);
  }

  /** A handled candidate earns what its new row says. */
  lemma ConfirmedRewards(item: Item<CandidateRow>, l: Ledger, stage: map<string, Stage>, fees: FeeConfig,
                         nonceOf: string -> string)
    requires RoundsMatch(l.shares.rounds, stage) && ConfirmedItem(item, stage, fees, nonceOf)
    ensures CanReward(item.block) && RoundKey(item.block.height, item.block.nonce) in l.shares.rounds
    ensures CalculateRewards(fees, item.block, RoundOf(l, item.block))
         == CreditsUnder(fees)(RowOf(item.block), l.shares.rounds[RoundKey(item.block.height, item.block.nonce)])
    ensures CalculateRewards(fees, item.block, RoundOf(l, item.block)) != map[]
  {
    RoundIsThere(l, stage, item.block);
    CreditsAreNotEmpty(fees, item.block.reward.value, item.block.extraReward, RoundOf(l, item.block),
                       item.block.totalShares);
  }

  lemma ConfirmedToImmature(l: Ledger, stage: map<string, Stage>, item: Item<CandidateRow>, fees: FeeConfig,
                            nonceOf: string -> string)
    requires LedgerMatches(l, stage, CreditsUnder(fees), nonceOf) && ConfirmedItem(item, stage, fees, nonceOf)
    ensures CanReward(item.block)
    ensures LedgerMatches(ImmatureBlockWritten(l, item, CalculateRewards(fees, item.block, RoundOf(l, item.block))),
                          NowImmature(stage, item.block), CreditsUnder(fees), nonceOf)
  {
    ConfirmedRewards(item, l, stage, fees, nonceOf);
    var b := item.block;
    var rewards := CalculateRewards(fees, b, RoundOf(l, b));
    var s := Immature(RowOf(b), b.height);
    var key := CreditKey(b.height, b.hash);
    NoLogYet(l.books, l.shares.rounds, stage, CreditsUnder(fees), nonceOf, key);
    ToImmatureKeepsQueues(l.queues, stage, item.key, RowOf(b), b.height);
    RestageKeepsRounds(l.shares.rounds, stage, b.nonce, s);
    CreditKeepsLogs(l.books, l.shares.rounds, stage, CreditsUnder(fees), nonceOf, b.nonce, s, rewards);
    CreditImmatureKeepsBalance(l.books, key, rewards);
  }

  lemma LostToMatured(l: Ledger, stage: map<string, Stage>, item: Item<BlockRow>, logRead: bool, credits: CreditRule,
                      nonceOf: string -> string)
    requires LedgerMatches(l, stage, credits, nonceOf)
    requires item.key.nonce in stage && stage[item.key.nonce].Immature? && stage[item.key.nonce].row == item.key
    requires var b := item.block;
      && b.nonce == item.key.nonce && b.height == b.roundHeight == stage[b.nonce].height
        && b.totalShares == item.key.totalShares
      && (b.hash == "0x0" || nonceOf(b.hash) == b.nonce)
    ensures LedgerMatches(OrphanBlockWritten(l, item, logRead), NowMatured(stage, item.block), credits, nonceOf)
  {
    var b := item.block;
    var s := Matured(RowOf(b), b.height);
    var key := CreditKey(b.roundHeight, b.hash);
    ToMaturedKeepsQueues(l.queues, stage, item.key, RowOf(b), b.height);
    MatureKeepsRounds(l.shares.rounds, stage, b.nonce, s);
    RevertKeepsLogs(l.books, l.shares.rounds, stage, credits, nonceOf, b.nonce, s, key, ReadLog(l.books, key, logRead));
    RevertImmatureKeepsBalance(l.books, key, ReadLog(l.books, key, logRead));
  }

  /** The hash a lost block carries is its old one, which the chain gave it, or the orphans' "0x0". */
  lemma LostHash(item: Item<BlockRow>, l: Ledger, stage: map<string, Stage>, credits: CreditRule,
                 nonceOf: string -> string)
    requires LedgerMatches(l, stage, credits, nonceOf) && LostItem(item, stage)
    ensures item.block.hash == "0x0" || nonceOf(item.block.hash) == item.block.nonce
  {
  }

  lemma RipeToMatured(l: Ledger, stage: map<string, Stage>, item: Item<BlockRow>, logRead: bool, fees: FeeConfig,
                      nonceOf: string -> string)
    requires LedgerMatches(l, stage, CreditsUnder(fees), nonceOf) && RipeItem(item, stage, fees, nonceOf)
    ensures CanReward(item.block)
    ensures LedgerMatches(MaturedBlockWritten(l, item, CalculateRewards(fees, item.block, RoundOf(l, item.block)),
                                              logRead),
                          NowMatured(stage, item.block), CreditsUnder(fees), nonceOf)
  {
    var b := item.block;
    RoundIsThere(l, stage, b);
    var rewards := CalculateRewards(fees, b, RoundOf(l, b));
    var key := CreditKey(b.height, b.hash);
    NoLogYet(l.books, l.shares.rounds, stage, CreditsUnder(fees), nonceOf, key);
    LostToMatured(l, stage, item, logRead, CreditsUnder(fees), nonceOf);
    var reverted := OrphanBlockWritten(l, item, logRead);
    MatureKeepsLogs(reverted.books, reverted.shares.rounds, NowMatured(stage, b), CreditsUnder(fees), nonceOf, b.nonce,
                    key, rewards, b.reward.value);
    CreditMaturedKeepsBalance(reverted.books, key, rewards, b.reward.value);
  }

  // ---------- every step, every run ----------

  /** Enough for a step to keep the invariants: its ledger and its process both match its history. */
  lemma PartsMakeInv(s: System, step: Step, cfg: UnlockerConfig, nonceOf: string -> string)
    requires Enabled(s, step, cfg, nonceOf)
    requires LedgerMatches(LedgerAfter(s, step, cfg.fees), StageAfter(s, step), CreditsUnder(cfg.fees), nonceOf)
    requires WorkMatches(ProcessAfter(s, step, cfg, nonceOf).work, StageAfter(s, step), cfg.fees, nonceOf)
    requires ProcessAfter(s, step, cfg, nonceOf).halted ==> ProcessAfter(s, step, cfg, nonceOf).work.Idle?
    ensures Inv(Apply(s, step, cfg, nonceOf), cfg, nonceOf)
  {
  }

  lemma ProceedMatches(outcome: Outcome, rest: Work, stage: map<string, Stage>, fees: FeeConfig,
                       nonceOf: string -> string)
    requires outcome == Applied ==> WorkMatches(rest, stage, fees, nonceOf)
    ensures WorkMatches(Proceed(outcome, rest).work, stage, fees, nonceOf)
    ensures Proceed(outcome, rest).halted ==> Proceed(outcome, rest).work.Idle?
  {
  }

  lemma ConfirmedElsewhere(confirmed: seq<Item<CandidateRow>>, orphans: seq<Item<CandidateRow>>,
                           stage: map<string, Stage>, fees: FeeConfig, nonceOf: string -> string)
    requires WorkMatches(PendingLoaded(orphans, confirmed), stage, fees, nonceOf)
    ensures WorkMatches(Crediting(confirmed), stage, fees, nonceOf)
    ensures WorkMatches(Crediting(confirmed), AllNowImmature(stage, orphans), fees, nonceOf)
  {
    forall item <- confirmed ensures ConfirmedItem(item, AllNowImmature(stage, orphans), fees, nonceOf) {
      assert forall o <- orphans :: o.block.nonce != item.block.nonce;
      StageElsewhere(stage, orphans, item.block.nonce);
    }
  }

  lemma PendingWritten(s: System, outcome: Outcome, fees: FeeConfig)
    requires s.work.PendingLoaded?
    ensures var step := WritePendingOrphans(outcome);
      && LedgerAfter(s, step, fees) == (if outcome == Refused then s.ledger
                                        else PendingOrphans(s.ledger, s.work.orphans))
      && StageAfter(s, step) == (if outcome == Refused then s.stage else AllNowImmature(s.stage, s.work.orphans))
  {
  }

  lemma PendingWriteMatches(s: System, outcome: Outcome, cfg: UnlockerConfig, nonceOf: string -> string)
    requires Inv(s, cfg, nonceOf) && s.work.PendingLoaded?
    ensures var step := WritePendingOrphans(outcome);
      LedgerMatches(LedgerAfter(s, step, cfg.fees), StageAfter(s, step), CreditsUnder(cfg.fees), nonceOf)
  {
    OrphansToImmature(s.ledger, s.stage, s.work.orphans, CreditsUnder(cfg.fees), nonceOf);
    PendingWritten(s, outcome, cfg.fees);
  }

  lemma WritePendingOrphansKeepsInv(s: System, outcome: Outcome, cfg: UnlockerConfig, nonceOf: string -> string)
    requires Inv(s, cfg, nonceOf) && Enabled(s, WritePendingOrphans(outcome), cfg, nonceOf)
    ensures Inv(Apply(s, WritePendingOrphans(outcome), cfg, nonceOf), cfg, nonceOf)
  {
    PendingWriteMatches(s, outcome, cfg, nonceOf);
    ConfirmedElsewhere(s.work.confirmed, s.work.orphans, s.stage, cfg.fees, nonceOf);
    ProceedMatches(outcome, Crediting(s.work.confirmed), StageAfter(s, WritePendingOrphans(outcome)), cfg.fees,
                   nonceOf);
    PartsMakeInv(s, WritePendingOrphans(outcome), cfg, nonceOf);
  }

  lemma ImmatureWritten(s: System, outcome: Outcome, fees: FeeConfig)
    requires s.work.Crediting? && s.work.confirmed != [] && CanReward(s.work.confirmed[0].block)
    ensures var step, item := WriteNextImmature(outcome), s.work.confirmed[0];
      && LedgerAfter(s, step, fees) == (if outcome == Refused then s.ledger
                                        else ImmatureBlockWritten(s.ledger, item,
                                                                  CalculateRewards(fees, item.block,
                                                                    RoundOf(s.ledger, item.block))))
      && StageAfter(s, step) == (if outcome == Refused then s.stage else NowImmature(s.stage, item.block))
  {
  }

  lemma OrphanWritten(s: System, outcome: Outcome, logRead: bool, fees: FeeConfig)
    requires s.work.MatureLoaded? && s.work.lost != []
    ensures var step, item := WriteNextOrphan(outcome, logRead), s.work.lost[0];
      && LedgerAfter(s, step, fees) == (if outcome == Refused then s.ledger
                                        else OrphanBlockWritten(s.ledger, item, logRead))
      && StageAfter(s, step) == (if outcome == Refused then s.stage else NowMatured(s.stage, item.block))
  {
  }

  lemma MaturedWritten(s: System, outcome: Outcome, logRead: bool, fees: FeeConfig)
    requires s.work.MatureLoaded? && s.work.ripe != [] && CanReward(s.work.ripe[0].block)
    ensures var step, item := WriteNextMatured(outcome, logRead), s.work.ripe[0];
      && LedgerAfter(s, step, fees) == (if outcome == Refused then s.ledger
                                        else MaturedBlockWritten(s.ledger, item,
                                                                 CalculateRewards(fees, item.block,
                                                                   RoundOf(s.ledger, item.block)), logRead))
      && StageAfter(s, step) == (if outcome == Refused then s.stage else NowMatured(s.stage, item.block))
  {
  }

  lemma ImmatureWriteMatches(s: System, outcome: Outcome, cfg: UnlockerConfig, nonceOf: string -> string)
    requires Inv(s, cfg, nonceOf) && s.work.Crediting? && s.work.confirmed != []
    ensures var step := WriteNextImmature(outcome);
      CanReward(s.work.confirmed[0].block)
        && LedgerMatches(LedgerAfter(s, step, cfg.fees), StageAfter(s, step), CreditsUnder(cfg.fees), nonceOf)
  {
    ConfirmedToImmature(s.ledger, s.stage, s.work.confirmed[0], cfg.fees, nonceOf);
    ImmatureWritten(s, outcome, cfg.fees);
  }

  lemma WriteNextImmatureKeepsInv(s: System, outcome: Outcome, cfg: UnlockerConfig, nonceOf: string -> string)
    requires Inv(s, cfg, nonceOf) && Enabled(s, WriteNextImmature(outcome), cfg, nonceOf)
    ensures Inv(Apply(s, WriteNextImmature(outcome), cfg, nonceOf), cfg, nonceOf)
  {
    var b := s.work.confirmed[0].block;
    ImmatureWriteMatches(s, outcome, cfg, nonceOf);
    CreditingGoesOn(s.work.confirmed, s.stage, cfg.fees, nonceOf, Immature(RowOf(b), b.height));
    ProceedMatches(outcome, Crediting(s.work.confirmed[1..]), StageAfter(s, WriteNextImmature(outcome)), cfg.fees,
                   nonceOf);
    PartsMakeInv(s, WriteNextImmature(outcome), cfg, nonceOf);
  }

  lemma OrphanWriteMatches(s: System, outcome: Outcome, logRead: bool, cfg: UnlockerConfig, nonceOf: string -> string)
    requires Inv(s, cfg, nonceOf) && s.work.MatureLoaded? && s.work.lost != []
    ensures var step := WriteNextOrphan(outcome, logRead);
      LedgerMatches(LedgerAfter(s, step, cfg.fees), StageAfter(s, step), CreditsUnder(cfg.fees), nonceOf)
  {
    LostHash(s.work.lost[0], s.ledger, s.stage, CreditsUnder(cfg.fees), nonceOf);
    LostToMatured(s.ledger, s.stage, s.work.lost[0], logRead, CreditsUnder(cfg.fees), nonceOf);
    OrphanWritten(s, outcome, logRead, cfg.fees);
  }

  lemma WriteNextOrphanKeepsInv(s: System, outcome: Outcome, logRead: bool, cfg: UnlockerConfig,
                                nonceOf: string -> string)
    requires Inv(s, cfg, nonceOf) && Enabled(s, WriteNextOrphan(outcome, logRead), cfg, nonceOf)
    ensures Inv(Apply(s, WriteNextOrphan(outcome, logRead), cfg, nonceOf), cfg, nonceOf)
  {
    var b := s.work.lost[0].block;
    OrphanWriteMatches(s, outcome, logRead, cfg, nonceOf);
    OrphaningGoesOn(s.work.lost, s.work.ripe, s.stage, cfg.fees, nonceOf, Matured(RowOf(b), b.height));
    ProceedMatches(outcome, MatureLoaded(s.work.lost[1..], s.work.ripe),
                   StageAfter(s, WriteNextOrphan(outcome, logRead)), cfg.fees, nonceOf);
    PartsMakeInv(s, WriteNextOrphan(outcome, logRead), cfg, nonceOf);
  }

  lemma MaturedWriteMatches(s: System, outcome: Outcome, logRead: bool, cfg: UnlockerConfig, nonceOf: string -> string)
    requires Inv(s, cfg, nonceOf) && s.work.MatureLoaded? && s.work.ripe != []
    ensures var step := WriteNextMatured(outcome, logRead);
      CanReward(s.work.ripe[0].block) && LedgerMatches(LedgerAfter(s, step, cfg.fees), StageAfter(s, step),
                                                       CreditsUnder(cfg.fees), nonceOf)
  {
    RipeToMatured(s.ledger, s.stage, s.work.ripe[0], logRead, cfg.fees, nonceOf);
    MaturedWritten(s, outcome, logRead, cfg.fees);
  }

  lemma WriteNextMaturedKeepsInv(s: System, outcome: Outcome, logRead: bool, cfg: UnlockerConfig,
                                 nonceOf: string -> string)
    requires Inv(s, cfg, nonceOf) && Enabled(s, WriteNextMatured(outcome, logRead), cfg, nonceOf)
    ensures Inv(Apply(s, WriteNextMatured(outcome, logRead), cfg, nonceOf), cfg, nonceOf)
  {
    var b := s.work.ripe[0].block;
    MaturedWriteMatches(s, outcome, logRead, cfg, nonceOf);
    MaturingGoesOn(s.work.ripe, s.stage, cfg.fees, nonceOf, Matured(RowOf(b), b.height));
    ProceedMatches(outcome, MatureLoaded([], s.work.ripe[1..]), StageAfter(s, WriteNextMatured(outcome, logRead)),
                   cfg.fees, nonceOf);
    PartsMakeInv(s, WriteNextMatured(outcome, logRead), cfg, nonceOf);
  }

  lemma LoadKeepsInv(s: System, step: Step, cfg: UnlockerConfig, nonceOf: string -> string)
    requires Inv(s, cfg, nonceOf) && Enabled(s, step, cfg, nonceOf) && (step.LoadCandidates? || step.LoadImmature?)
    ensures Inv(Apply(s, step, cfg, nonceOf), cfg, nonceOf)
  {
    match step
    case LoadCandidates(due, order, answers) => LoadedPendingMatches(s, due, order, answers, cfg, nonceOf);
    case LoadImmature(due, rows, answers) => LoadedImmatureMatches(s, due, rows, answers, cfg, nonceOf);
  }

  lemma StopKeepsInv(s: System, step: Step, cfg: UnlockerConfig, nonceOf: string -> string)
    requires Inv(s, cfg, nonceOf) && Enabled(s, step, cfg, nonceOf)
      && (step.LoadFails? || step.ReadFails? || step.Restart?)
    ensures Inv(Apply(s, step, cfg, nonceOf), cfg, nonceOf)
  {
  }

  lemma WriteKeepsInv(s: System, step: Step, cfg: UnlockerConfig, nonceOf: string -> string)
    requires Inv(s, cfg, nonceOf) && Enabled(s, step, cfg, nonceOf)
    requires step.WritePendingOrphans? || step.WriteNextImmature? || step.WriteNextOrphan? || step.WriteNextMatured?
    ensures Inv(Apply(s, step, cfg, nonceOf), cfg, nonceOf)
  {
    match step
    case WritePendingOrphans(outcome) => WritePendingOrphansKeepsInv(s, outcome, cfg, nonceOf);
    case WriteNextImmature(outcome) => WriteNextImmatureKeepsInv(s, outcome, cfg, nonceOf);
    case WriteNextOrphan(outcome, logRead) => WriteNextOrphanKeepsInv(s, outcome, logRead, cfg, nonceOf);
    case WriteNextMatured(outcome, logRead) => WriteNextMaturedKeepsInv(s, outcome, logRead, cfg, nonceOf);
  }

  lemma StepKeepsInv(s: System, step: Step, cfg: UnlockerConfig, nonceOf: string -> string)
    requires Inv(s, cfg, nonceOf) && Enabled(s, step, cfg, nonceOf)
    ensures Inv(Apply(s, step, cfg, nonceOf), cfg, nonceOf)
  {
    if step.WritePendingOrphans? || step.WriteNextImmature? || step.WriteNextOrphan? || step.WriteNextMatured? {
      WriteKeepsInv(s, step, cfg, nonceOf);
    } else if step.LoadCandidates? || step.LoadImmature? {
      LoadKeepsInv(s, step, cfg, nonceOf);
    } else if step.PayDebit? || step.PayRollback? || step.PayWritten? {
      PaymentKeepsInv(s, step, cfg, nonceOf);
    } else if step.LoadFails? || step.ReadFails? || step.Restart? {
      StopKeepsInv(s, step, cfg, nonceOf);
    } else if step.Share? {
      ShareKeepsInv(s, step.login, step.diff, cfg, nonceOf);
    } else if step.Found? {
      FoundKeepsInv(s, step.login, step.diff, step.height, step.row, cfg, nonceOf);
    } else {
      ListCandidateKeepsInv(s, step.nonce, cfg, nonceOf);
    }
  }
}
