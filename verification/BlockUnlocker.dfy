/** The unlocker: the passes that move blocks on and credit miners (payouts/unlocker.go). Each pass
    is proved to be a stretch of a run of the pool, so the theorems about runs hold of it. */
module BlockUnlocker {
  import opened Wrappers
  import opened FiniteSums
  import opened Text
  import opened Rewards
  import opened Rows
  import opened Books
  import opened Ledger
  import opened Lifecycle
  import opened Invariants
  import opened Safety
  import opened Passes
  import opened SortedSets
  import opened RedisClient

  function UnprintedResult<R(==,!new)>(format: RowFormat<R>, r: UnlockResult<string>): UnlockResult<R> {
    UnlockResult(AllUnprinted(format, r.matured), AllUnprinted(format, r.orphans))
  }

  /** Deciding about blocks does not look at the rows they came from. */
  lemma {:induction false} DecisionsIgnoreRows<R(!new)>(format: RowFormat<R>, fees: FeeConfig, items: seq<Item<string>>,
                                                        answers: seq<Option<ChainBlock>>)
    requires |answers| == |items|
    ensures var r, typed := UnlockCandidates(fees, items, answers),
      UnlockCandidates(fees, AllUnprinted(format, items), answers);
      typed == if r.None? then None else Some(UnprintedResult(format, r.value))
  {
    if items != [] {
      var n := |items| - 1;
      DecisionsIgnoreRows(format, fees, items[..n], answers[..n]);
      assert AllUnprinted(format, items)[..n] == AllUnprinted(format, items[..n]);
      var front := UnlockCandidates(fees, items[..n], answers[..n]);
      if front.Some? && answers[n].Some? {
        var last := Judge(fees, items[n], answers[n].value);
        assert AllUnprinted(format, front.value.matured + [last])
          == AllUnprinted(format, front.value.matured) + [Unprinted(format, last)];
        assert AllUnprinted(format, front.value.orphans + [last])
          == AllUnprinted(format, front.value.orphans) + [Unprinted(format, last)];
      }
    }
  }

  /** A block whose key is an intact row, whose own row can be printed, and that has shares. */
  ghost predicate Loaded<R(!new)>(format: RowFormat<R>, item: Item<string>) {
    format.Canonical(item.key) && BlockFits(RowOf(item.block)) && item.block.totalShares != 0
  }

  /** Everything a pass has decided can be written, and what it confirmed can be rewarded. */
  ghost predicate AllLoaded<R(!new)>(format: RowFormat<R>, r: UnlockResult<string>) {
    && (forall item <- r.orphans :: Loaded(format, item))
    && (forall item <- r.matured :: Loaded(format, item) && CanReward(item.block))
  }

  lemma JudgedStaysLoaded<R(!new)>(format: RowFormat<R>, fees: FeeConfig, item: Item<string>, c: ChainBlock)
    requires Loaded(format, item) && ColonFree(c.hash)
    ensures Loaded(format, Judge(fees, item, c))
  {
    ParseFormatInt(HandledReward(fees, item.block.coinBaseValue, item.block.blkTotalFee));
  }

  lemma {:induction false} DecisionsStayLoaded<R(!new)>(format: RowFormat<R>, fees: FeeConfig, items: seq<Item<string>>,
                                                        answers: seq<Option<ChainBlock>>)
    requires |answers| == |items| && (forall item <- items :: Loaded(format, item))
    requires forall a <- answers :: a.Some? ==> ColonFree(a.value.hash)
    ensures var r := UnlockCandidates(fees, items, answers); r.Some? ==> AllLoaded(format, r.value)
  {
    if items != [] {
      var n := |items| - 1;
      DecisionsStayLoaded(format, fees, items[..n], answers[..n]);
      if answers[n].Some? {
        assert answers[n] in answers && items[n] in items;
        JudgedStaysLoaded(format, fees, items[n], answers[n].value);
      }
    }
  }

  lemma CandidateRowFits(item: Item<string>, format: RowFormat<CandidateRow>, order: seq<CandidateRow>,
                         zset: map<CandidateRow, int>, i: nat)
    requires i < |order| && (forall r <- order :: r in zset) && order[i].totalShares != 0
    requires Unprinted(format, item) == CandidateItems(order, zset)[i]
    requires format.Canonical(item.key) && CandidateFits(format.parse(item.key))
    ensures Loaded(format, item)
  {
  }

  lemma BlockRowFits(item: Item<string>, format: RowFormat<BlockRow>, rows: seq<BlockRow>, zset: map<BlockRow, int>,
                     i: nat)
    requires i < |rows| && (forall r <- rows :: r in zset) && rows[i].totalShares != 0
    requires Unprinted(format, item) == ImmatureItems(rows, zset)[i]
    requires format.Canonical(item.key) && BlockFits(format.parse(item.key))
    ensures Loaded(format, item)
  {
  }

  class BlockUnlocker {
    const config: UnlockerConfig
    const backend: RedisClient
    ghost const nonceOf: string -> string
    var halt: bool
    var lastFail: string
    /** Where every block ever found is. */
    ghost var stage: map<string, Stage>

    constructor (config: UnlockerConfig, backend: RedisClient, ghost nonceOf: string -> string,
                 ghost stage: map<string, Stage>)
      ensures this.config == config && this.backend == backend && this.nonceOf == nonceOf && this.stage == stage
        && !halt
    {
      this.config, this.backend, this.nonceOf, this.stage := config, backend, nonceOf, stage;
      halt, lastFail := false, "";
    }

    /** The ledger, the history and the halt flag as they stand. */
    ghost function Now(): Pass
      reads this, backend, backend.candidates, backend.immatureBlocks, backend.maturedBlocks
    {
      Pass(backend.Contents(), stage, halt)
    }

    /** The pool as it stands between two passes. */
    ghost function Pool(): System
      reads this, backend, backend.candidates, backend.immatureBlocks, backend.maturedBlocks
    {
      InPool(Now(), Idle)
    }

    ghost predicate Valid()
      reads this, backend, backend.candidates, backend.immatureBlocks, backend.maturedBlocks
    {
      backend.Valid() && Inv(Pool(), config, nonceOf)
    }

    method Fail(reason: string)
      modifies `halt, `lastFail
      ensures halt && lastFail == reason && stage == old(stage)
    {
      halt, lastFail := true, reason;
    }

    /** Notes what a write has done: where the blocks are now, and whether the pass goes on. */
    method Note(ghost now: map<string, Stage>, ok: bool, reason: string)
      modifies `stage, `halt, `lastFail
      ensures stage == now && halt == (old(halt) || !ok) && lastFail == if ok then old(lastFail) else reason
    {
      stage := now;
      if !ok {
        halt, lastFail := true, reason;
      }
    }

    /** `unlockCandidates`: stops at the first answer the node fails to give. */
    method Decide(items: seq<Item<string>>, blocks: seq<Option<ChainBlock>>)
      returns (result: Option<UnlockResult<string>>)
      requires |blocks| == |items|
      ensures result == UnlockCandidates(config.fees, items, blocks)
    {
      var matured, orphans: seq<Item<string>> := [], [];
      for i := 0 to |items|
        invariant UnlockCandidates(config.fees, items[..i], blocks[..i]) == Some(UnlockResult(matured, orphans))
      {
        var candidate := items[i];
        assert items[..i + 1][..i] == items[..i] && blocks[..i + 1][..i] == blocks[..i];
        if blocks[i].None? {
          FailureIsFinal(config.fees, items, blocks, i);
          return None;
        }
        var block := blocks[i].value;
        if |candidate.block.nonce| > 0 && EqualFold(candidate.block.nonce, block.nonce) {
          candidate := candidate.(block := HandleBlock(config.fees, candidate.block, block));
          matured := matured + [candidate];
        } else {
          candidate := candidate.(block := candidate.block.(orphan := true));
          orphans := orphans + [candidate];
        }
      }
      assert items[..|items|] == items && blocks[..|blocks|] == blocks;
      result := Some(UnlockResult(matured, orphans));
    }

    /** `calculateRewards` */
    method RewardsFor(b: BlockData) returns (rewards: Log)
      requires CanReward(b)
      ensures rewards == CalculateRewards(config.fees, b, RoundOf(backend.Contents(), b))
      ensures var key := RoundKey(b.roundHeight, b.nonce);
        IsHandled(config.fees, b) ==>
          PaidOut(rewards, config.fees, b.coinBaseValue, b.blkTotalFee,
                  if key in backend.rounds then backend.rounds[key] else map[], b.totalShares)
    {
      var profits := ChargeFee(b.reward.value as real, config.fees.poolFee);
      var shares := backend.GetRoundShares(b.roundHeight, b.nonce);
      rewards := CalculateRewardsForShares(shares, b.totalShares, profits.0);
      var poolProfit := profits.1;
      if b.extraReward.Some? {
        poolProfit := poolProfit + b.extraReward.value as real;
      }
      if config.fees.poolFeeAddress != "" {
        var address := ToLower(config.fees.poolFeeAddress);
        rewards := IncrBy(rewards, address, RoundHalfAway(poolProfit));
      }
      if IsHandled(config.fees, b) {
        HandledIsPaidOut(config.fees, b, shares);
      }
    }

    /** One block's provisional credit, and what a failure does. */
    method StoreImmature(item: Item<string>, roundRewards: Log, outcome: Outcome)
      requires backend.Valid() && !halt && item.block.reward.Some? && Loaded(backend.candidates.format, item)
      modifies this, backend, backend.candidates, backend.immatureBlocks
      ensures backend.Valid()
      ensures Now() == if outcome == Refused then old(Now()).(halt := true)
                       else Pass(ImmatureBlockWritten(old(backend.Contents()),
                                                      Unprinted(backend.candidates.format, item), roundRewards),
                                 NowImmature(old(stage), item.block), outcome != Applied)
    {
      var ok := backend.WriteImmatureBlock(item, roundRewards, outcome);
      Note(if outcome == Refused then stage else NowImmature(stage, item.block), ok, "Failed to credit rewards");
    }

    /** One round of the crediting loop of `unlockPendingBlocks`. */
    method CreditNext(item: Item<string>, readFails: bool, outcome: Outcome)
      requires backend.Valid() && !halt && CanReward(item.block) && Loaded(backend.candidates.format, item)
      modifies this, backend, backend.candidates, backend.immatureBlocks
      ensures backend.Valid()
      ensures Now() == CreditOne(config.fees, old(Now()), Unprinted(backend.candidates.format, item), readFails,
                                 outcome)
    {
      if readFails {
        Fail("Failed to calculate rewards");
        return;
      }
      var roundRewards := RewardsFor(item.block);
      StoreImmature(item, roundRewards, outcome);
    }

    /** One round of the loop over orphans of `unlockAndCreditMiners`. */
    method OrphanNext(item: Item<string>, logRead: bool, outcome: Outcome)
      requires backend.Valid() && !halt && Loaded(backend.immatureBlocks.format, item)
      modifies this, backend, backend.immatureBlocks, backend.maturedBlocks
      ensures backend.Valid()
      ensures Now() == OrphanOne(old(Now()), Unprinted(backend.immatureBlocks.format, item), logRead, outcome)
    {
      var ok := backend.WriteOrphan(item, logRead, outcome);
      ghost var now := if outcome == Refused then stage else NowMatured(stage, item.block);
      Note(now, ok, "Failed to insert orphaned block into backend");
    }

    /** One block's final credit, and what a failure does. */
    method StoreMatured(item: Item<string>, roundRewards: Log, logRead: bool, outcome: Outcome)
      requires backend.Valid() && !halt && item.block.reward.Some? && Loaded(backend.immatureBlocks.format, item)
      modifies this, backend, backend.immatureBlocks, backend.maturedBlocks
      ensures backend.Valid()
      ensures Now() == if outcome == Refused then old(Now()).(halt := true)
                       else Pass(MaturedBlockWritten(old(backend.Contents()),
                                                     Unprinted(backend.immatureBlocks.format, item), roundRewards,
                                                     logRead),
                                 NowMatured(old(stage), item.block), outcome != Applied)
    {
      var ok := backend.WriteMaturedBlock(item, roundRewards, logRead, outcome);
      Note(if outcome == Refused then stage else NowMatured(stage, item.block), ok, "Failed to credit rewards");
    }

    /** One round of the crediting loop of `unlockAndCreditMiners`. */
    method MatureNext(item: Item<string>, readFails: bool, logRead: bool, outcome: Outcome)
      requires backend.Valid() && !halt && CanReward(item.block) && Loaded(backend.immatureBlocks.format, item)
      modifies this, backend, backend.immatureBlocks, backend.maturedBlocks
      ensures backend.Valid()
      ensures Now() == MatureOne(config.fees, old(Now()), Unprinted(backend.immatureBlocks.format, item), readFails,
                                 logRead, outcome)
    {
      if readFails {
        Fail("Failed to calculate rewards");
        return;
      }
      var roundRewards := RewardsFor(item.block);
      StoreMatured(item, roundRewards, logRead, outcome);
    }

    /** The crediting loop of `unlockPendingBlocks`. */
    method CreditAll(confirmed: seq<Item<string>>, redis: Backend)
      requires backend.Valid() && !halt
      requires forall item <- confirmed :: Loaded(backend.candidates.format, item) && CanReward(item.block)
      modifies this, backend, backend.candidates, backend.immatureBlocks
      ensures backend.Valid()
      ensures Now() == Rounds(old(Now()),
                              CreditBody(config.fees, AllUnprinted(backend.candidates.format, confirmed), redis),
                              |confirmed|)
    {
      ghost var start, typed := Now(), AllUnprinted(backend.candidates.format, confirmed);
      ghost var body := CreditBody(config.fees, typed, redis);
      for i := 0 to |confirmed|
        invariant backend.Valid() && !halt && Now() == Rounds(start, body, i)
      {
        assert typed[i] == Unprinted(backend.candidates.format, confirmed[i]) && confirmed[i] in confirmed;
        NextCredit(config.fees, typed, redis, start, i);
        CreditNext(confirmed[i], redis.readFails(i), redis.outcomes(i + 1));
        if halt {
          RoundsStop(start, body, i + 1, |confirmed|);
          return;
        }
      }
    }

    method OrphanAll(lost: seq<Item<string>>, redis: Backend)
      requires backend.Valid() && !halt && forall item <- lost :: Loaded(backend.immatureBlocks.format, item)
      modifies this, backend, backend.immatureBlocks, backend.maturedBlocks
      ensures backend.Valid()
      ensures Now() == Rounds(old(Now()), OrphanBody(AllUnprinted(backend.immatureBlocks.format, lost), redis), |lost|)
    {
      ghost var start, typed := Now(), AllUnprinted(backend.immatureBlocks.format, lost);
      ghost var body := OrphanBody(typed, redis);
      for i := 0 to |lost|
        invariant backend.Valid() && !halt && Now() == Rounds(start, body, i)
      {
        assert typed[i] == Unprinted(backend.immatureBlocks.format, lost[i]) && lost[i] in lost;
        NextOrphan(typed, redis, start, i);
        OrphanNext(lost[i], redis.logReads(i), redis.outcomes(i));
        if halt {
          RoundsStop(start, body, i + 1, |lost|);
          return;
        }
      }
    }

    method MatureAll(ripe: seq<Item<string>>, redis: Backend, first: nat)
      requires backend.Valid() && !halt
      requires forall item <- ripe :: Loaded(backend.immatureBlocks.format, item) && CanReward(item.block)
      modifies this, backend, backend.immatureBlocks, backend.maturedBlocks
      ensures backend.Valid()
      ensures Now() == Rounds(old(Now()),
                              MatureBody(config.fees, AllUnprinted(backend.immatureBlocks.format, ripe), redis, first),
                              |ripe|)
    {
      ghost var start, typed := Now(), AllUnprinted(backend.immatureBlocks.format, ripe);
      ghost var body := MatureBody(config.fees, typed, redis, first);
      for i := 0 to |ripe|
        invariant backend.Valid() && !halt && Now() == Rounds(start, body, i)
      {
        assert typed[i] == Unprinted(backend.immatureBlocks.format, ripe[i]) && ripe[i] in ripe;
        NextMature(config.fees, typed, redis, first, start, i);
        MatureNext(ripe[i], redis.readFails(i), redis.logReads(first + i), redis.outcomes(first + i));
        if halt {
          RoundsStop(start, body, i + 1, |ripe|);
          return;
        }
      }
    }

    /** The orphans' transaction, and what a failure does. */
    method StoreOrphans(orphans: seq<Item<string>>, outcome: Outcome)
      requires backend.Valid() && !halt && forall item <- orphans :: Loaded(backend.candidates.format, item)
      modifies this, backend, backend.candidates, backend.immatureBlocks
      ensures backend.Valid()
      ensures Now() == OrphansAtOnce(old(Now()), AllUnprinted(backend.candidates.format, orphans), outcome)
    {
      var ok := backend.WritePendingOrphans(orphans, outcome);
      ghost var rows := AllUnprinted(backend.candidates.format, orphans);
      ghost var now := if outcome == Refused then stage else AllNowImmature(stage, rows);
      Note(now, ok, "Failed to insert orphaned blocks into backend");
    }

    /** The writes of `unlockPendingBlocks`: all orphans in one transaction, then block by block. */
    method WritePending(result: UnlockResult<string>, redis: Backend)
      requires backend.Valid() && !halt
      requires AllLoaded(backend.candidates.format, result)
      modifies this, backend, backend.candidates, backend.immatureBlocks
      ensures backend.Valid()
      ensures Now() == PendingWrites(config.fees, old(Now()), UnprintedResult(backend.candidates.format, result), redis)
    {
      StoreOrphans(result.orphans, redis.outcomes(0));
      if halt {
        return;
      }
      CreditAll(result.matured, redis);
    }

    /** What `unlockPendingBlocks` learns from the backend and the node before it writes. */
    method DecidePending(node: Node, maxHeight: int)
      returns (none: bool, result: Option<UnlockResult<string>>, ghost order: seq<CandidateRow>)
      requires backend.Valid() && HaveShares(backend.Contents().queues) && Honest(node, nonceOf)
      ensures Lists(order, backend.Contents().queues.candidates, maxHeight) && (none <==> order == [])
      ensures forall r <- order :: r in backend.Contents().queues.candidates
      ensures UnlockCandidates(config.fees, CandidateItems(order, backend.Contents().queues.candidates),
                               Answers(node, |order|))
           == if result.None? then None else Some(UnprintedResult(backend.candidates.format, result.value))
      ensures result.Some? ==> AllLoaded(backend.candidates.format, result.value)
    {
      var candidates: seq<Item<string>>;
      candidates, order := backend.GetCandidates(maxHeight);
      var answers := Answers(node, |candidates|);
      result := Decide(candidates, answers);
      DecisionsIgnoreRows(backend.candidates.format, config.fees, candidates, answers);
      forall i | 0 <= i < |candidates| ensures Loaded(backend.candidates.format, candidates[i]) {
        CandidateRowFits(candidates[i], backend.candidates.format, order, backend.Contents().queues.candidates, i);
      }
      DecisionsStayLoaded(backend.candidates.format, config.fees, candidates, answers);
      none := |candidates| == 0;
    }

    /** What `unlockAndCreditMiners` learns from the backend and the node before it writes. */
    method DecideMature(node: Node, maxHeight: int)
      returns (none: bool, result: Option<UnlockResult<string>>, ghost rows: seq<BlockRow>)
      requires backend.Valid() && HaveShares(backend.Contents().queues) && Honest(node, nonceOf)
      ensures Lists(rows, backend.Contents().queues.immature, maxHeight) && (none <==> rows == [])
      ensures forall r <- rows :: r in backend.Contents().queues.immature
      ensures UnlockCandidates(config.fees, ImmatureItems(rows, backend.Contents().queues.immature),
                               Answers(node, |rows|))
           == if result.None? then None else Some(UnprintedResult(backend.immatureBlocks.format, result.value))
      ensures result.Some? ==> AllLoaded(backend.immatureBlocks.format, result.value)
    {
      var immature: seq<Item<string>>;
      immature, rows := backend.GetImmatureBlocks(maxHeight);
      var answers := Answers(node, |immature|);
      result := Decide(immature, answers);
      DecisionsIgnoreRows(backend.immatureBlocks.format, config.fees, immature, answers);
      forall i | 0 <= i < |immature| ensures Loaded(backend.immatureBlocks.format, immature[i]) {
        BlockRowFits(immature[i], backend.immatureBlocks.format, rows, backend.Contents().queues.immature, i);
      }
      DecisionsStayLoaded(backend.immatureBlocks.format, config.fees, immature, answers);
      none := |immature| == 0;
    }

    /** The decisions of `unlockPendingBlocks`, once the chain's height is known, and their writes. */
    method DecideAndWritePending(node: Node, redis: Backend) returns (ghost order: seq<CandidateRow>)
      requires backend.Valid() && HaveShares(backend.Contents().queues) && Honest(node, nonceOf)
        && GetsToList(Now(), node, redis)
      modifies this, backend, backend.candidates, backend.immatureBlocks
      ensures backend.Valid()
      ensures forall r <- order :: r in old(backend.Contents()).queues.candidates
      ensures Lists(order, old(backend.Contents()).queues.candidates,
                    CurrentHeight(node.pending.value) - config.immatureDepth)
      ensures Now() == PendingPass(config, old(Now()), node, redis, order)
    {
      var none, result;
      none, result, order := DecidePending(node, CurrentHeight(node.pending.value) - config.immatureDepth);
      if none {
        return;
      }
      if result.None? {
        Fail("Failed to unlock blocks");
        return;
      }
      WritePending(result.value, redis);
    }

    /** First pass: candidates deep enough become immature blocks, credited or orphaned. */
    method UnlockPendingBlocks(node: Node, redis: Backend) returns (ghost due: int, ghost order: seq<CandidateRow>)
      requires backend.Valid() && HaveShares(backend.Contents().queues) && Honest(node, nonceOf)
      modifies this, backend, backend.candidates, backend.immatureBlocks
      ensures backend.Valid()
      ensures forall r <- order :: r in old(backend.Contents()).queues.candidates
      ensures GetsToList(old(Now()), node, redis) ==> Lists(order, old(backend.Contents()).queues.candidates, due)
      ensures GetsToList(old(Now()), node, redis) ==>
        due == (if node.pending.value == 0 then 0xffff_ffff else node.pending.value - 1) - config.immatureDepth
      ensures Now() == PendingPass(config, old(Now()), node, redis, order)
    {
      due, order := 0, [];
      if halt {
        return;
      }
      if node.pending.None? {
        Fail("Unable to get current blockchain height from node");
        return;
      }
      if redis.listFails {
        Fail("Failed to get block candidates from backend");
        return;
      }
      due := CurrentHeight(node.pending.value) - config.immatureDepth;
      order := DecideAndWritePending(node, redis);
    }

    /** The writes of `unlockAndCreditMiners`: orphans one by one, then matured blocks one by one. */
    method WriteMature(result: UnlockResult<string>, redis: Backend)
      requires backend.Valid() && !halt
      requires AllLoaded(backend.immatureBlocks.format, result)
      modifies this, backend, backend.immatureBlocks, backend.maturedBlocks
      ensures backend.Valid()
      ensures Now() == MatureWrites(config.fees, old(Now()), UnprintedResult(backend.immatureBlocks.format, result),
                                    redis)
    {
      OrphanAll(result.orphans, redis);
      if halt {
        return;
      }
      MatureAll(result.matured, redis, |result.orphans|);
    }

    /** The decisions of `unlockAndCreditMiners`, once the chain's height is known, and their writes. */
    method DecideAndWriteMature(node: Node, redis: Backend) returns (ghost rows: seq<BlockRow>)
      requires backend.Valid() && HaveShares(backend.Contents().queues) && Honest(node, nonceOf)
        && GetsToList(Now(), node, redis)
      modifies this, backend, backend.immatureBlocks, backend.maturedBlocks
      ensures backend.Valid()
      ensures forall r <- rows :: r in old(backend.Contents()).queues.immature
      ensures Lists(rows, old(backend.Contents()).queues.immature, CurrentHeight(node.pending.value) - config.depth)
      ensures Now() == MaturePass(config, old(Now()), node, redis, rows)
    {
      var none, result;
      none, result, rows := DecideMature(node, CurrentHeight(node.pending.value) - config.depth);
      if none {
        return;
      }
      if result.None? {
        Fail("Failed to unlock blocks");
        return;
      }
      WriteMature(result.value, redis);
    }

    /** Second pass: immature blocks deep enough mature, crediting balances, or lose their credit. */
    method UnlockAndCreditMiners(node: Node, redis: Backend) returns (ghost due: int, ghost rows: seq<BlockRow>)
      requires backend.Valid() && HaveShares(backend.Contents().queues) && Honest(node, nonceOf)
      modifies this, backend, backend.immatureBlocks, backend.maturedBlocks
      ensures backend.Valid()
      ensures forall r <- rows :: r in old(backend.Contents()).queues.immature
      ensures GetsToList(old(Now()), node, redis) ==> Lists(rows, old(backend.Contents()).queues.immature, due)
      ensures GetsToList(old(Now()), node, redis) ==>
        due == (if node.pending.value == 0 then 0xffff_ffff else node.pending.value - 1) - config.depth
      ensures Now() == MaturePass(config, old(Now()), node, redis, rows)
    {
      due, rows := 0, [];
      if halt {
        return;
      }
      if node.pending.None? {
        Fail("Unable to get current blockchain height from node");
        return;
      }
      if redis.listFails {
        Fail("Failed to get block candidates from backend");
        return;
      }
      due := CurrentHeight(node.pending.value) - config.depth;
      rows := DecideAndWriteMature(node, redis);
    }

    /** What the timer of `Start` runs: both passes, one after the other. Whatever the node and the backend
        answer, the pool goes from one safe state to another by steps of its runs. */
    method Tick(node0: Node, redis0: Backend, node1: Node, redis1: Backend)
      returns (ghost order: seq<CandidateRow>, ghost rows: seq<BlockRow>, ghost between: Pass)
      requires Valid() && Honest(node0, nonceOf) && Honest(node1, nonceOf)
      modifies this, backend, backend.candidates, backend.immatureBlocks, backend.maturedBlocks
      ensures Valid() && SafelyReached(old(Pool()), Pool(), config, nonceOf)
      ensures old(halt) ==> Now() == old(Now())
      ensures forall r <- order :: r in old(backend.Contents()).queues.candidates
      ensures between == PendingPass(config, old(Now()), node0, redis0, order)
      ensures forall r <- rows :: r in between.ledger.queues.immature
      ensures Now() == MaturePass(config, between, node1, redis1, rows)
    {
      ghost var p := Now();
      SafeHaveShares(p, config, nonceOf);
      ghost var due, later;
      due, order := UnlockPendingBlocks(node0, redis0);
      PendingPassIsRun(p, node0, redis0, due, order, config, nonceOf);
      between := Now();
      SafeHaveShares(between, config, nonceOf);
      later, rows := UnlockAndCreditMiners(node1, redis1);
      MaturePassIsRun(between, node1, redis1, later, rows, config, nonceOf);
      RunsJoin(InPool(p, Idle), InPool(between, Idle), InPool(Now(), Idle), config, nonceOf);
    }
  }
}
