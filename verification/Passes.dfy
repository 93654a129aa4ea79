/** The unlocker's two passes as functions of the ledger and of what the node and the backend
    answer, and the proof that each is a stretch of a run of the pool (payouts/unlocker.go). */
module Passes {
  import opened Wrappers
  import opened Text
  import opened Rewards
  import opened Rows
  import opened Ledger
  import opened Lifecycle
  import opened Invariants
  import opened Safety
  import opened Runs

  /** What the node answers during one pass: its next height, and the block at the height of the
      i-th block asked about, with its nonce printed as "%08x". A missing answer is an RPC error. */
  datatype Node = Node(pending: Option<nat>, blocks: nat -> Option<ChainBlock>)

  /** How the backend behaves during one pass: whether the listing can be read, whether the i-th
      read of round shares fails, whether a credit log can be read before the i-th transaction, and how
      that transaction ends. */
  datatype Backend = Backend(listFails: bool, readFails: nat -> bool, logReads: nat -> bool, outcomes: nat -> Outcome)

  /** The node answers with real blocks only: 64 hexadecimal digits of hash, and the nonce the hash commits to. */
  ghost predicate Honest(node: Node, nonceOf: string -> string) {
    forall i: nat :: node.blocks(i).Some? ==>
      var c := node.blocks(i).value;
      |c.hash| >= 10 && ColonFree(c.hash) && IsNonce(c.nonce) && c.nonce == nonceOf(c.hash)
  }

  function Answers(node: Node, n: nat): seq<Option<ChainBlock>> {
    seq(n, i requires 0 <= i < n => node.blocks(i))
  }

  /** `int64(current.Height - 1)`: the subtraction is that of 32-bit unsigned numbers. */
  function CurrentHeight(pending: nat): int {
    if pending == 0 then 0xffff_ffff else pending - 1
  }

  /** The unlocker between two writes. */
  datatype Pass = Pass(ledger: Ledger, stage: map<string, Stage>, halt: bool)

  ghost function CreditOne(fees: FeeConfig, p: Pass, item: Item<CandidateRow>, readFails: bool, outcome: Outcome): Pass
    requires CanReward(item.block)
  {
    if readFails || outcome == Refused then p.(halt := true)
    else Pass(ImmatureBlockWritten(p.ledger, item, CalculateRewards(fees, item.block, RoundOf(p.ledger, item.block))),
              NowImmature(p.stage, item.block), outcome != Applied)
  }

  ghost function OrphanOne(p: Pass, item: Item<BlockRow>, logRead: bool, outcome: Outcome): Pass {
    if outcome == Refused then p.(halt := true)
    else Pass(OrphanBlockWritten(p.ledger, item, logRead), NowMatured(p.stage, item.block), outcome != Applied)
  }

  ghost function MatureOne(fees: FeeConfig, p: Pass, item: Item<BlockRow>, readFails: bool, logRead: bool,
                           outcome: Outcome): Pass
    requires CanReward(item.block)
  {
    if readFails || outcome == Refused then p.(halt := true)
    else Pass(MaturedBlockWritten(p.ledger, item, CalculateRewards(fees, item.block, RoundOf(p.ledger, item.block)),
                                  logRead),
              NowMatured(p.stage, item.block), outcome != Applied)
  }

  function OrphansAtOnce(p: Pass, items: seq<Item<CandidateRow>>, outcome: Outcome): Pass {
    if outcome == Refused then p.(halt := true)
    else Pass(PendingOrphans(p.ledger, items), AllNowImmature(p.stage, items), outcome != Applied)
  }

  /** One round of a loop over blocks. Rounds whose rewards cannot be computed do not occur. */
  type LoopBody = (Pass, nat) -> Pass

  ghost function CreditBody(fees: FeeConfig, items: seq<Item<CandidateRow>>, redis: Backend): LoopBody {
    (p: Pass, i: nat) =>
      if i < |items| && CanReward(items[i].block)
        then CreditOne(fees, p, items[i], redis.readFails(i), redis.outcomes(i + 1)) else p
  }

  ghost function OrphanBody(items: seq<Item<BlockRow>>, redis: Backend): LoopBody {
    (p: Pass, i: nat) => if i < |items| then OrphanOne(p, items[i], redis.logReads(i), redis.outcomes(i)) else p
  }

  ghost function MatureBody(fees: FeeConfig, items: seq<Item<BlockRow>>, redis: Backend, first: nat): LoopBody {
    (p: Pass, i: nat) =>
      if i < |items| && CanReward(items[i].block)
        then MatureOne(fees, p, items[i], redis.readFails(i), redis.logReads(first + i), redis.outcomes(first + i))
        else p
  }

  /** The first `n` rounds of a loop; an error ends the pass. */
  ghost function Rounds(p: Pass, body: LoopBody, n: nat): Pass {
    if n == 0 then p
    else
      var q := Rounds(p, body, n - 1);
      if q.halt then q else body(q, n - 1)
  }

  lemma {:induction false} RoundsStop(p: Pass, body: LoopBody, i: nat, n: nat)
    requires i <= n && Rounds(p, body, i).halt
    ensures Rounds(p, body, n) == Rounds(p, body, i)
    decreases n
  {
    if i < n {
      RoundsStop(p, body, i, n - 1);
    }
  }

  lemma NextCredit(fees: FeeConfig, items: seq<Item<CandidateRow>>, redis: Backend, p: Pass, i: nat)
    requires i < |items| && CanReward(items[i].block) && !Rounds(p, CreditBody(fees, items, redis), i).halt
    ensures var body := CreditBody(fees, items, redis);
      Rounds(p, body, i + 1) == CreditOne(fees, Rounds(p, body, i), items[i], redis.readFails(i), redis.outcomes(i + 1))
  {
  }

  lemma NextOrphan(items: seq<Item<BlockRow>>, redis: Backend, p: Pass, i: nat)
    requires i < |items| && !Rounds(p, OrphanBody(items, redis), i).halt
    ensures var body := OrphanBody(items, redis);
      Rounds(p, body, i + 1) == OrphanOne(Rounds(p, body, i), items[i], redis.logReads(i), redis.outcomes(i))
  {
  }

  lemma NextMature(fees: FeeConfig, items: seq<Item<BlockRow>>, redis: Backend, first: nat, p: Pass, i: nat)
    requires i < |items| && CanReward(items[i].block) && !Rounds(p, MatureBody(fees, items, redis, first), i).halt
    ensures var body := MatureBody(fees, items, redis, first);
      Rounds(p, body, i + 1) == MatureOne(fees, Rounds(p, body, i), items[i], redis.readFails(i),
                                          redis.logReads(first + i), redis.outcomes(first + i))
  {
  }

  /** The pass is not halted, the node answers, and the listing can be read. */
  predicate GetsToList(p: Pass, node: Node, redis: Backend) {
    !p.halt && node.pending.Some? && !redis.listFails
  }

  /** The writes of `unlockPendingBlocks`: all orphans in one transaction, then block by block. */
  ghost function PendingWrites(fees: FeeConfig, p: Pass, r: UnlockResult<CandidateRow>, redis: Backend): Pass {
    var q := OrphansAtOnce(p, r.orphans, redis.outcomes(0));
    if q.halt then q else Rounds(q, CreditBody(fees, r.matured, redis), |r.matured|)
  }

  /** The writes of `unlockAndCreditMiners`: orphans one by one, then matured blocks one by one. */
  ghost function MatureWrites(fees: FeeConfig, p: Pass, r: UnlockResult<BlockRow>, redis: Backend): Pass {
    var n := |r.orphans|;
    var q := Rounds(p, OrphanBody(r.orphans, redis), n);
    if q.halt then q else Rounds(q, MatureBody(fees, r.matured, redis, n), |r.matured|)
  }

  /** `unlockPendingBlocks`, for the candidates listed in `order`. */
  ghost function PendingPass(cfg: UnlockerConfig, p: Pass, node: Node, redis: Backend, order: seq<CandidateRow>): Pass
    requires forall r <- order :: r in p.ledger.queues.candidates
  {
    if p.halt then p
    else if !GetsToList(p, node, redis) then p.(halt := true)
    else if order == [] then p
    else
      var r := UnlockCandidates(cfg.fees, CandidateItems(order, p.ledger.queues.candidates), Answers(node, |order|));
      if r.None? then p.(halt := true) else PendingWrites(cfg.fees, p, r.value, redis)
  }

  /** `unlockAndCreditMiners`, for the immature blocks listed in `rows`. */
  ghost function MaturePass(cfg: UnlockerConfig, p: Pass, node: Node, redis: Backend, rows: seq<BlockRow>): Pass
    requires forall r <- rows :: r in p.ledger.queues.immature
  {
    if p.halt then p
    else if !GetsToList(p, node, redis) then p.(halt := true)
    else if rows == [] then p
    else
      var r := UnlockCandidates(cfg.fees, ImmatureItems(rows, p.ledger.queues.immature), Answers(node, |rows|));
      if r.None? then p.(halt := true) else MatureWrites(cfg.fees, p, r.value, redis)
  }

  // ---------- each round of a pass is a step ----------

  /** The pool in the middle of a pass. */
  function InPool(p: Pass, work: Work): System { System(p.ledger, p.stage, if p.halt then Idle else work, p.halt) }

  function CreditWork(items: seq<Item<CandidateRow>>): Work {
    if items == [] then Idle else Crediting(items)
  }

  function MatureWork(lost: seq<Item<BlockRow>>, ripe: seq<Item<BlockRow>>): Work {
    if lost == [] && ripe == [] then Idle else MatureLoaded(lost, ripe)
  }

  lemma CreditOneIsStep(p: Pass, items: seq<Item<CandidateRow>>, readFails: bool, outcome: Outcome, cfg: UnlockerConfig,
                        nonceOf: string -> string) returns (step: Step)
    requires items != [] && !p.halt && CanReward(items[0].block)
    ensures Enabled(InPool(p, CreditWork(items)), step, cfg, nonceOf)
    ensures Apply(InPool(p, CreditWork(items)), step, cfg, nonceOf)
      == InPool(CreditOne(cfg.fees, p, items[0], readFails, outcome), CreditWork(items[1..]))
  {
    var here := InPool(p, CreditWork(items));
    step := if readFails then ReadFails else WriteNextImmature(outcome);
    ImmatureWritten(here, outcome, cfg.fees);
  }

  lemma OrphanOneIsStep(p: Pass, lost: seq<Item<BlockRow>>, ripe: seq<Item<BlockRow>>, logRead: bool, outcome: Outcome,
                        cfg: UnlockerConfig, nonceOf: string -> string) returns (step: Step)
    requires lost != [] && !p.halt
    ensures Enabled(InPool(p, MatureWork(lost, ripe)), step, cfg, nonceOf)
    ensures Apply(InPool(p, MatureWork(lost, ripe)), step, cfg, nonceOf)
      == InPool(OrphanOne(p, lost[0], logRead, outcome), MatureWork(lost[1..], ripe))
  {
    var here := InPool(p, MatureWork(lost, ripe));
    step := WriteNextOrphan(outcome, logRead);
    OrphanWritten(here, outcome, logRead, cfg.fees);
  }

  lemma MatureOneIsStep(p: Pass, ripe: seq<Item<BlockRow>>, readFails: bool, logRead: bool, outcome: Outcome,
                        cfg: UnlockerConfig, nonceOf: string -> string) returns (step: Step)
    requires ripe != [] && !p.halt && CanReward(ripe[0].block)
    ensures Enabled(InPool(p, MatureWork([], ripe)), step, cfg, nonceOf)
    ensures Apply(InPool(p, MatureWork([], ripe)), step, cfg, nonceOf)
      == InPool(MatureOne(cfg.fees, p, ripe[0], readFails, logRead, outcome), MatureWork([], ripe[1..]))
  {
    var here := InPool(p, MatureWork([], ripe));
    step := if readFails then ReadFails else WriteNextMatured(outcome, logRead);
    MaturedWritten(here, outcome, logRead, cfg.fees);
  }

  // ---------- each pass is a stretch of a run ----------

  /** The next block to credit can be rewarded. */
  predicate CanGoOn(work: Work) {
    && (work.Crediting? && work.confirmed != [] ==> CanReward(work.confirmed[0].block))
    && (work.MatureLoaded? && work.ripe != [] ==> CanReward(work.ripe[0].block))
  }

  /** A property of states that every step of the pool keeps, and that lets the crediting loops go on. */
  ghost predicate Closed(reach: System -> bool, cfg: UnlockerConfig, nonceOf: string -> string) {
    && (forall here, step :: reach(here) && Enabled(here, step, cfg, nonceOf) ==>
        reach(Apply(here, step, cfg, nonceOf)))
    && (forall here :: reach(here) ==> CanGoOn(here.work))
  }

  /** What holds of the pool and is kept by a loop's rounds holds after the loop. */
  lemma {:induction false} RoundsReach(reach: System -> bool, p: Pass, body: LoopBody, work: nat -> Work, n: nat)
    requires reach(InPool(p, work(0)))
    requires forall q: Pass, i: nat :: i < n && !q.halt && reach(InPool(q, work(i))) ==>
      reach(InPool(body(q, i), work(i + 1)))
    ensures reach(InPool(Rounds(p, body, n), work(n)))
    decreases n
  {
    if n > 0 {
      RoundsReach(reach, p, body, work, n - 1);
      var q := Rounds(p, body, n - 1);
      if !q.halt {
        assert reach(InPool(body(q, n - 1), work(n - 1 + 1)));
      }
    }
  }

  lemma CreditLoopReaches(reach: System -> bool, p: Pass, items: seq<Item<CandidateRow>>, redis: Backend,
                          cfg: UnlockerConfig, nonceOf: string -> string)
    requires Closed(reach, cfg, nonceOf) && reach(InPool(p, CreditWork(items)))
    ensures reach(InPool(Rounds(p, CreditBody(cfg.fees, items, redis), |items|), Idle))
  {
    var body := CreditBody(cfg.fees, items, redis);
    var work := (i: nat) => if i <= |items| then CreditWork(items[i..]) else Idle;
    forall q: Pass, i: nat | i < |items| && !q.halt && reach(InPool(q, work(i)))
      ensures reach(InPool(body(q, i), work(i + 1)))
    {
      var rest := items[i..];
      assert rest[1..] == items[i + 1..] && CanGoOn(InPool(q, work(i)).work);
      var step := CreditOneIsStep(q, rest, redis.readFails(i), redis.outcomes(i + 1), cfg, nonceOf);
    }
    assert items[0..] == items;
    RoundsReach(reach, p, body, work, |items|);
  }

  lemma OrphanLoopReaches(reach: System -> bool, p: Pass, lost: seq<Item<BlockRow>>, ripe: seq<Item<BlockRow>>,
                          redis: Backend, cfg: UnlockerConfig, nonceOf: string -> string)
    requires Closed(reach, cfg, nonceOf) && reach(InPool(p, MatureWork(lost, ripe)))
    ensures reach(InPool(Rounds(p, OrphanBody(lost, redis), |lost|), MatureWork([], ripe)))
  {
    var body := OrphanBody(lost, redis);
    var work := (i: nat) => if i <= |lost| then MatureWork(lost[i..], ripe) else Idle;
    forall q: Pass, i: nat | i < |lost| && !q.halt && reach(InPool(q, work(i)))
      ensures reach(InPool(body(q, i), work(i + 1)))
    {
      var rest := lost[i..];
      assert rest[1..] == lost[i + 1..];
      var step := OrphanOneIsStep(q, rest, ripe, redis.logReads(i), redis.outcomes(i), cfg, nonceOf);
    }
    assert lost[0..] == lost && lost[|lost|..] == [];
    RoundsReach(reach, p, body, work, |lost|);
  }

  lemma MatureRoundReaches(reach: System -> bool, q: Pass, ripe: seq<Item<BlockRow>>, redis: Backend, first: nat,
                           i: nat, cfg: UnlockerConfig, nonceOf: string -> string)
    requires Closed(reach, cfg, nonceOf) && i < |ripe| && !q.halt && reach(InPool(q, MatureWork([], ripe[i..])))
    ensures reach(InPool(MatureBody(cfg.fees, ripe, redis, first)(q, i), MatureWork([], ripe[i + 1..])))
  {
    var rest := ripe[i..];
    assert rest[1..] == ripe[i + 1..] && rest[0] == ripe[i];
    assert CanGoOn(InPool(q, MatureWork([], rest)).work);
    var step := MatureOneIsStep(q, rest, redis.readFails(i), redis.logReads(first + i), redis.outcomes(first + i), cfg,
                                nonceOf);
  }

  lemma MatureLoopReaches(reach: System -> bool, p: Pass, ripe: seq<Item<BlockRow>>, redis: Backend, first: nat,
                          cfg: UnlockerConfig, nonceOf: string -> string)
    requires Closed(reach, cfg, nonceOf) && reach(InPool(p, MatureWork([], ripe)))
    ensures reach(InPool(Rounds(p, MatureBody(cfg.fees, ripe, redis, first), |ripe|), Idle))
  {
    var body := MatureBody(cfg.fees, ripe, redis, first);
    var work := (i: nat) => if i <= |ripe| then MatureWork([], ripe[i..]) else Idle;
    forall q: Pass, i: nat | i < |ripe| && !q.halt && reach(InPool(q, work(i)))
      ensures reach(InPool(body(q, i), work(i + 1)))
    {
      MatureRoundReaches(reach, q, ripe, redis, first, i, cfg, nonceOf);
    }
    assert ripe[0..] == ripe;
    RoundsReach(reach, p, body, work, |ripe|);
  }

  lemma OrphansAreStep(p: Pass, orphans: seq<Item<CandidateRow>>, confirmed: seq<Item<CandidateRow>>, outcome: Outcome,
                       cfg: UnlockerConfig, nonceOf: string -> string)
    requires !p.halt
    ensures Enabled(InPool(p, PendingLoaded(orphans, confirmed)), WritePendingOrphans(outcome), cfg, nonceOf)
    ensures Apply(InPool(p, PendingLoaded(orphans, confirmed)), WritePendingOrphans(outcome), cfg, nonceOf)
         == InPool(OrphansAtOnce(p, orphans, outcome), CreditWork(confirmed))
  {
  }

  lemma FailedLoadIsStep(p: Pass, cfg: UnlockerConfig, nonceOf: string -> string)
    requires !p.halt
    ensures Enabled(InPool(p, Idle), LoadFails, cfg, nonceOf)
    ensures Apply(InPool(p, Idle), LoadFails, cfg, nonceOf) == InPool(p.(halt := true), Idle)
  {
  }

  lemma LoadPendingIsStep(p: Pass, node: Node, due: int, order: seq<CandidateRow>, cfg: UnlockerConfig,
                          nonceOf: string -> string)
    requires !p.halt && Honest(node, nonceOf) && Lists(order, p.ledger.queues.candidates, due) && order != []
    ensures forall r <- order :: r in p.ledger.queues.candidates
    ensures var r := UnlockCandidates(cfg.fees, CandidateItems(order, p.ledger.queues.candidates),
                                      Answers(node, |order|));
      var load := LoadCandidates(due, order, Answers(node, |order|));
      && Enabled(InPool(p, Idle), load, cfg, nonceOf)
      && Apply(InPool(p, Idle), load, cfg, nonceOf)
         == if r.None? then InPool(p.(halt := true), Idle)
           else InPool(p, PendingLoaded(r.value.orphans, r.value.matured))
  {
  }

  lemma LoadMatureIsStep(p: Pass, node: Node, due: int, rows: seq<BlockRow>, cfg: UnlockerConfig,
                         nonceOf: string -> string)
    requires !p.halt && Honest(node, nonceOf) && Lists(rows, p.ledger.queues.immature, due) && rows != []
    ensures forall r <- rows :: r in p.ledger.queues.immature
    ensures var r := UnlockCandidates(cfg.fees, ImmatureItems(rows, p.ledger.queues.immature), Answers(node, |rows|));
      var load := LoadImmature(due, rows, Answers(node, |rows|));
      && Enabled(InPool(p, Idle), load, cfg, nonceOf)
      && Apply(InPool(p, Idle), load, cfg, nonceOf)
         == if r.None? then InPool(p.(halt := true), Idle) else InPool(p, MatureWork(r.value.orphans, r.value.matured))
  {
    DecisionsAddUp(cfg.fees, ImmatureItems(rows, p.ledger.queues.immature), Answers(node, |rows|));
  }

  lemma {:induction false} DecisionsAddUp<K>(fees: FeeConfig, items: seq<Item<K>>, answers: seq<Option<ChainBlock>>)
    requires |answers| == |items|
    ensures var r := UnlockCandidates(fees, items, answers);
      r.Some? ==> |r.value.orphans| + |r.value.matured| == |items|
  {
    if items != [] {
      DecisionsAddUp(fees, items[..|items| - 1], answers[..|items| - 1]);
    }
  }

  lemma PendingPassReaches(reach: System -> bool, p: Pass, node: Node, redis: Backend, due: int,
                           order: seq<CandidateRow>, cfg: UnlockerConfig, nonceOf: string -> string)
    requires Closed(reach, cfg, nonceOf) && reach(InPool(p, Idle)) && Honest(node, nonceOf)
    requires forall r <- order :: r in p.ledger.queues.candidates
    requires GetsToList(p, node, redis) ==> Lists(order, p.ledger.queues.candidates, due)
    ensures reach(InPool(PendingPass(cfg, p, node, redis, order), Idle))
  {
    if p.halt {
    } else if !GetsToList(p, node, redis) {
      FailedLoadIsStep(p, cfg, nonceOf);
    } else if order != [] {
      LoadPendingIsStep(p, node, due, order, cfg, nonceOf);
      var r := UnlockCandidates(cfg.fees, CandidateItems(order, p.ledger.queues.candidates), Answers(node, |order|));
      if r.Some? {
        OrphansAreStep(p, r.value.orphans, r.value.matured, redis.outcomes(0), cfg, nonceOf);
        CreditLoopReaches(reach, OrphansAtOnce(p, r.value.orphans, redis.outcomes(0)), r.value.matured, redis, cfg,
                          nonceOf);
      }
    }
  }

  lemma MaturePassReaches(reach: System -> bool, p: Pass, node: Node, redis: Backend, due: int, rows: seq<BlockRow>,
                          cfg: UnlockerConfig, nonceOf: string -> string)
    requires Closed(reach, cfg, nonceOf) && reach(InPool(p, Idle)) && Honest(node, nonceOf)
    requires forall r <- rows :: r in p.ledger.queues.immature
    requires GetsToList(p, node, redis) ==> Lists(rows, p.ledger.queues.immature, due)
    ensures reach(InPool(MaturePass(cfg, p, node, redis, rows), Idle))
  {
    if p.halt {
    } else if !GetsToList(p, node, redis) {
      FailedLoadIsStep(p, cfg, nonceOf);
    } else if rows != [] {
      LoadMatureIsStep(p, node, due, rows, cfg, nonceOf);
      var r := UnlockCandidates(cfg.fees, ImmatureItems(rows, p.ledger.queues.immature), Answers(node, |rows|));
      if r.Some? {
        var lost, ripe := r.value.orphans, r.value.matured;
        OrphanLoopReaches(reach, p, lost, ripe, redis, cfg, nonceOf);
        MatureLoopReaches(reach, Rounds(p, OrphanBody(lost, redis), |lost|), ripe, redis, |lost|, cfg, nonceOf);
      }
    }
  }

  /** Steps of the pool lead from `s` to a safe state. */
  ghost predicate SafelyReached(s: System, here: System, cfg: UnlockerConfig, nonceOf: string -> string) {
    Inv(here, cfg, nonceOf) && exists steps :: Reached(s, steps, cfg, nonceOf) == Some(here)
  }

  lemma SafelyReachedIsClosed(s: System, cfg: UnlockerConfig, nonceOf: string -> string)
    ensures Closed((here: System) => SafelyReached(s, here, cfg, nonceOf), cfg, nonceOf)
  {
    forall here, step | SafelyReached(s, here, cfg, nonceOf) && Enabled(here, step, cfg, nonceOf)
      ensures SafelyReached(s, Apply(here, step, cfg, nonceOf), cfg, nonceOf)
    {
      StepKeepsInv(here, step, cfg, nonceOf);
      var steps :| Reached(s, steps, cfg, nonceOf) == Some(here);
      ReachedNext(s, steps, here, step, cfg, nonceOf);
    }
    forall here | SafelyReached(s, here, cfg, nonceOf) ensures CanGoOn(here.work) {
      SafeCanGoOn(here, cfg, nonceOf);
    }
  }

  lemma SafeCanGoOn(here: System, cfg: UnlockerConfig, nonceOf: string -> string)
    requires Inv(here, cfg, nonceOf)
    ensures CanGoOn(here.work)
  {
    if here.work.Crediting? && here.work.confirmed != [] {
      ImmatureWriteMatches(here, Applied, cfg, nonceOf);
    } else if here.work.MatureLoaded? && here.work.ripe != [] {
      MaturedWriteMatches(here, Applied, true, cfg, nonceOf);
    }
  }

  lemma StartsReached(s: System, cfg: UnlockerConfig, nonceOf: string -> string)
    requires Inv(s, cfg, nonceOf)
    ensures SafelyReached(s, s, cfg, nonceOf)
  {
    assert Reached(s, [], cfg, nonceOf) == Some(s);
  }

  lemma {:induction false} ReachedJoin(s: System, first: seq<Step>, mid: System, second: seq<Step>, cfg: UnlockerConfig,
                                       nonceOf: string -> string)
    requires Reached(s, first, cfg, nonceOf) == Some(mid)
    ensures Reached(mid, second, cfg, nonceOf) == Reached(s, first + second, cfg, nonceOf)
    decreases |second|
  {
    if second == [] {
      assert first + second == first;
    } else {
      var n := |second| - 1;
      ReachedJoin(s, first, mid, second[..n], cfg, nonceOf);
      assert (first + second)[..|first + second| - 1] == first + second[..n];
    }
  }

  lemma RunsJoin(s: System, mid: System, here: System, cfg: UnlockerConfig, nonceOf: string -> string)
    requires SafelyReached(s, mid, cfg, nonceOf) && SafelyReached(mid, here, cfg, nonceOf)
    ensures SafelyReached(s, here, cfg, nonceOf)
  {
    var first :| Reached(s, first, cfg, nonceOf) == Some(mid);
    var second :| Reached(mid, second, cfg, nonceOf) == Some(here);
    ReachedJoin(s, first, mid, second, cfg, nonceOf);
  }

  /** Every pass of `unlockPendingBlocks` is a stretch of a run, from wherever the pool safely is. */
  lemma PendingPassIsRun(p: Pass, node: Node, redis: Backend, due: int, order: seq<CandidateRow>, cfg: UnlockerConfig,
                         nonceOf: string -> string)
    requires Inv(InPool(p, Idle), cfg, nonceOf) && Honest(node, nonceOf)
    requires forall r <- order :: r in p.ledger.queues.candidates
    requires GetsToList(p, node, redis) ==> Lists(order, p.ledger.queues.candidates, due)
    ensures SafelyReached(InPool(p, Idle), InPool(PendingPass(cfg, p, node, redis, order), Idle), cfg, nonceOf)
  {
    var s := InPool(p, Idle);
    var reach := (here: System) => SafelyReached(s, here, cfg, nonceOf);
    StartsReached(s, cfg, nonceOf);
    SafelyReachedIsClosed(s, cfg, nonceOf);
    PendingPassReaches(reach, p, node, redis, due, order, cfg, nonceOf);
    assert reach(InPool(PendingPass(cfg, p, node, redis, order), Idle));
  }

  /** Every pass of `unlockAndCreditMiners` is a stretch of a run, from wherever the pool safely is. */
  lemma MaturePassIsRun(p: Pass, node: Node, redis: Backend, due: int, rows: seq<BlockRow>, cfg: UnlockerConfig,
                        nonceOf: string -> string)
    requires Inv(InPool(p, Idle), cfg, nonceOf) && Honest(node, nonceOf)
    requires forall r <- rows :: r in p.ledger.queues.immature
    requires GetsToList(p, node, redis) ==> Lists(rows, p.ledger.queues.immature, due)
    ensures SafelyReached(InPool(p, Idle), InPool(MaturePass(cfg, p, node, redis, rows), Idle), cfg, nonceOf)
  {
    var s := InPool(p, Idle);
    var reach := (here: System) => SafelyReached(s, here, cfg, nonceOf);
    StartsReached(s, cfg, nonceOf);
    SafelyReachedIsClosed(s, cfg, nonceOf);
    MaturePassReaches(reach, p, node, redis, due, rows, cfg, nonceOf);
    assert reach(InPool(MaturePass(cfg, p, node, redis, rows), Idle));
  }

  // ---------- what a pass gets done ----------

  /** A pass to which the node leaves a question unanswered writes nothing and halts the unlocker. */
  lemma UnansweredPendingPass(cfg: UnlockerConfig, p: Pass, node: Node, redis: Backend, order: seq<CandidateRow>)
    requires forall r <- order :: r in p.ledger.queues.candidates
    requires node.pending.None? || exists i: nat :: i < |order| && node.blocks(i).None?
    ensures PendingPass(cfg, p, node, redis, order) == p.(halt := true)
  {
    if GetsToList(p, node, redis) {
      var i: nat :| i < |order| && node.blocks(i).None?;
      FailureIsFinal(cfg.fees, CandidateItems(order, p.ledger.queues.candidates), Answers(node, |order|), i);
    }
  }

  lemma UnansweredMaturePass(cfg: UnlockerConfig, p: Pass, node: Node, redis: Backend, rows: seq<BlockRow>)
    requires forall r <- rows :: r in p.ledger.queues.immature
    requires node.pending.None? || exists i: nat :: i < |rows| && node.blocks(i).None?
    ensures MaturePass(cfg, p, node, redis, rows) == p.(halt := true)
  {
    if GetsToList(p, node, redis) {
      var i: nat :| i < |rows| && node.blocks(i).None?;
      FailureIsFinal(cfg.fees, ImmatureItems(rows, p.ledger.queues.immature), Answers(node, |rows|), i);
    }
  }

  // ---------- what a pass leaves alone ----------

  /** A block is where it was. */
  predicate Stays(a: map<string, Stage>, b: map<string, Stage>, n: string) {
    n in a && n in b && b[n] == a[n]
  }

  lemma {:induction false} RoundsSpare(p: Pass, body: LoopBody, k: nat, n: string)
    requires n in p.stage
    requires forall q: Pass, i: nat :: i < k && n in q.stage ==> Stays(q.stage, body(q, i).stage, n)
    ensures Stays(p.stage, Rounds(p, body, k).stage, n)
  {
    if k > 0 {
      RoundsSpare(p, body, k - 1, n);
      assert Stays(Rounds(p, body, k - 1).stage, body(Rounds(p, body, k - 1), k - 1).stage, n);
    }
  }

  /** None of the blocks is the n-th. */
  ghost predicate AreOthers<K(!new)>(items: seq<Item<K>>, n: string) { forall item <- items :: item.block.nonce != n }

  lemma PendingWritesSpare(fees: FeeConfig, p: Pass, r: UnlockResult<CandidateRow>, redis: Backend, n: string)
    requires n in p.stage && AreOthers(r.orphans, n) && AreOthers(r.matured, n)
    ensures Stays(p.stage, PendingWrites(fees, p, r, redis).stage, n)
  {
    StageElsewhere(p.stage, r.orphans, n);
    var q, body := OrphansAtOnce(p, r.orphans, redis.outcomes(0)), CreditBody(fees, r.matured, redis);
    forall u: Pass, i: nat | i < |r.matured| && n in u.stage ensures Stays(u.stage, body(u, i).stage, n) {
      assert r.matured[i] in r.matured;
      assert body(u, i) == if CanReward(r.matured[i].block)
                           then CreditOne(fees, u, r.matured[i], redis.readFails(i), redis.outcomes(i + 1)) else u;
    }
    RoundsSpare(q, body, |r.matured|, n);
  }

  lemma MatureOneSpares(fees: FeeConfig, p: Pass, item: Item<BlockRow>, readFails: bool, logRead: bool,
                        outcome: Outcome, n: string)
    requires CanReward(item.block) && n in p.stage && item.block.nonce != n
    ensures Stays(p.stage, MatureOne(fees, p, item, readFails, logRead, outcome).stage, n)
  {
  }

  lemma MatureRoundSpares(fees: FeeConfig, ripe: seq<Item<BlockRow>>, redis: Backend, first: nat, p: Pass, i: nat,
                          n: string)
    requires i < |ripe| && ripe[i].block.nonce != n && n in p.stage
    ensures Stays(p.stage, MatureBody(fees, ripe, redis, first)(p, i).stage, n)
  {
    if CanReward(ripe[i].block) {
      MatureOneSpares(fees, p, ripe[i], redis.readFails(i), redis.logReads(first + i), redis.outcomes(first + i), n);
      assert MatureBody(fees, ripe, redis, first)(p, i)
        == MatureOne(fees, p, ripe[i], redis.readFails(i), redis.logReads(first + i), redis.outcomes(first + i));
    } else {
      assert MatureBody(fees, ripe, redis, first)(p, i) == p;
    }
  }

  lemma OrphaningSpares(p: Pass, orphans: seq<Item<BlockRow>>, redis: Backend, n: string)
    requires n in p.stage && AreOthers(orphans, n)
    ensures Stays(p.stage, Rounds(p, OrphanBody(orphans, redis), |orphans|).stage, n)
  {
    var body := OrphanBody(orphans, redis);
    forall u: Pass, i: nat | i < |orphans| && n in u.stage ensures Stays(u.stage, body(u, i).stage, n) {
      assert orphans[i] in orphans;
      assert body(u, i) == OrphanOne(u, orphans[i], redis.logReads(i), redis.outcomes(i));
    }
    RoundsSpare(p, body, |orphans|, n);
  }

  lemma MaturingSpares(fees: FeeConfig, p: Pass, ripe: seq<Item<BlockRow>>, redis: Backend, first: nat, n: string)
    requires n in p.stage && AreOthers(ripe, n)
    ensures Stays(p.stage, Rounds(p, MatureBody(fees, ripe, redis, first), |ripe|).stage, n)
  {
    var body := MatureBody(fees, ripe, redis, first);
    forall u: Pass, i: nat | i < |ripe| && n in u.stage ensures Stays(u.stage, body(u, i).stage, n) {
      assert ripe[i] in ripe;
      MatureRoundSpares(fees, ripe, redis, first, u, i, n);
    }
    RoundsSpare(p, body, |ripe|, n);
  }

  lemma MatureWritesSpare(fees: FeeConfig, p: Pass, r: UnlockResult<BlockRow>, redis: Backend, n: string)
    requires n in p.stage && AreOthers(r.orphans, n) && AreOthers(r.matured, n)
    ensures Stays(p.stage, MatureWrites(fees, p, r, redis).stage, n)
  {
    var q := Rounds(p, OrphanBody(r.orphans, redis), |r.orphans|);
    OrphaningSpares(p, r.orphans, redis, n);
    MaturingSpares(fees, q, r.matured, redis, |r.orphans|, n);
  }

  /** What was decided about are the blocks asked about. */
  lemma DecidedAreOthers<K(!new)>(fees: FeeConfig, items: seq<Item<K>>, answers: seq<Option<ChainBlock>>, n: string)
    requires |answers| == |items| && Distinct(items) && UnlockCandidates(fees, items, answers).Some?
    requires AreOthers(items, n)
    ensures var r := UnlockCandidates(fees, items, answers).value; AreOthers(r.orphans, n) && AreOthers(r.matured, n)
  {
    DecisionsAreSound(fees, items, answers);
    var r := UnlockCandidates(fees, items, answers).value;
    forall out | Judged(out, fees, items, answers) ensures out.block.nonce != n {
      var i :| 0 <= i < |items| && answers[i].Some? && out == Judge(fees, items[i], answers[i].value);
      assert items[i] in items;
    }
  }

  /** A candidate that is not deep enough stays where it is, whatever the first pass meets. */
  lemma UndueCandidateStays(cfg: UnlockerConfig, p: Pass, node: Node, redis: Backend, due: int,
                            order: seq<CandidateRow>, n: string)
    requires QueuesMatch(p.ledger.queues, p.stage) && Lists(order, p.ledger.queues.candidates, due)
    requires forall r <- order :: r in p.ledger.queues.candidates
    requires n in p.stage && (p.stage[n].height > due || !p.stage[n].Candidate?)
    ensures Stays(p.stage, PendingPass(cfg, p, node, redis, order).stage, n)
  {
    var items, answers := CandidateItems(order, p.ledger.queues.candidates), Answers(node, |order|);
    CandidateItemsFromStage(order, p.ledger.queues, p.stage, due);
    forall item <- items ensures item.block.nonce != n {
      var i :| 0 <= i < |items| && items[i] == item;
      assert order[i] in order;
    }
    if UnlockCandidates(cfg.fees, items, answers).Some? {
      DecidedAreOthers(cfg.fees, items, answers, n);
      PendingWritesSpare(cfg.fees, p, UnlockCandidates(cfg.fees, items, answers).value, redis, n);
    }
  }

  /** So does an immature block in the second pass. */
  lemma UndueImmatureStays(cfg: UnlockerConfig, p: Pass, node: Node, redis: Backend, due: int, rows: seq<BlockRow>,
                           n: string)
    requires QueuesMatch(p.ledger.queues, p.stage) && Lists(rows, p.ledger.queues.immature, due)
    requires forall r <- rows :: r in p.ledger.queues.immature
    requires n in p.stage && (p.stage[n].height > due || !p.stage[n].Immature?)
    ensures Stays(p.stage, MaturePass(cfg, p, node, redis, rows).stage, n)
  {
    var items, answers := ImmatureItems(rows, p.ledger.queues.immature), Answers(node, |rows|);
    ImmatureItemsFromStage(rows, p.ledger.queues, p.stage, due);
    forall item <- items ensures item.block.nonce != n {
      var i :| 0 <= i < |items| && items[i] == item;
      assert rows[i] in rows;
    }
    if UnlockCandidates(cfg.fees, items, answers).Some? {
      DecidedAreOthers(cfg.fees, items, answers, n);
      MatureWritesSpare(cfg.fees, p, UnlockCandidates(cfg.fees, items, answers).value, redis, n);
    }
  }

  /** Every block a pass confirms can be rewarded: its round has shares. */
  lemma ConfirmedCanBeRewarded(p: Pass, node: Node, due: int, order: seq<CandidateRow>, cfg: UnlockerConfig,
                               nonceOf: string -> string)
    requires Inv(InPool(p, Idle), cfg, nonceOf) && !p.halt && Honest(node, nonceOf)
    requires Lists(order, p.ledger.queues.candidates, due) && forall r <- order :: r in p.ledger.queues.candidates
    ensures var r := UnlockCandidates(cfg.fees, CandidateItems(order, p.ledger.queues.candidates),
                                      Answers(node, |order|));
      r.Some? ==> forall item <- r.value.matured :: CanReward(item.block)
  {
    var s, answers := InPool(p, Idle), Answers(node, |order|);
    LoadedPendingMatches(s, due, order, answers, cfg, nonceOf);
    var r := UnlockCandidates(cfg.fees, CandidateItems(order, p.ledger.queues.candidates), answers);
    if r.Some? {
      forall item <- r.value.matured ensures CanReward(item.block) {
        assert ConfirmedItem(item, p.stage, cfg.fees, nonceOf);
        ConfirmedRewards(item, p.ledger, p.stage, cfg.fees, nonceOf);
      }
    }
  }

  lemma RipeCanBeRewarded(p: Pass, node: Node, due: int, rows: seq<BlockRow>, cfg: UnlockerConfig,
                          nonceOf: string -> string)
    requires Inv(InPool(p, Idle), cfg, nonceOf) && !p.halt && Honest(node, nonceOf)
    requires Lists(rows, p.ledger.queues.immature, due) && forall r <- rows :: r in p.ledger.queues.immature
    ensures var r := UnlockCandidates(cfg.fees, ImmatureItems(rows, p.ledger.queues.immature), Answers(node, |rows|));
      r.Some? ==> forall item <- r.value.matured :: CanReward(item.block)
  {
    var s, answers := InPool(p, Idle), Answers(node, |rows|);
    LoadedImmatureMatches(s, due, rows, answers, cfg, nonceOf);
    var r := UnlockCandidates(cfg.fees, ImmatureItems(rows, p.ledger.queues.immature), answers);
    if r.Some? {
      forall item <- r.value.matured ensures CanReward(item.block) {
        assert RipeItem(item, p.stage, cfg.fees, nonceOf);
        RoundIsThere(p.ledger, p.stage, item.block);
      }
    }
  }

  /** Every listed block has shares. */
  predicate HaveShares(q: Queues) {
    (forall r <- q.candidates :: r.totalShares != 0) && (forall r <- q.immature :: r.totalShares != 0)
  }

  lemma SafeHaveShares(p: Pass, cfg: UnlockerConfig, nonceOf: string -> string)
    requires Inv(InPool(p, Idle), cfg, nonceOf)
    ensures HaveShares(p.ledger.queues)
  {
    var q, stage := p.ledger.queues, p.stage;
    assert QueuesMatch(q, stage) && RoundsMatch(p.ledger.shares.rounds, stage);
    forall r <- q.candidates ensures r.totalShares != 0 {
      assert r.nonce in stage && SharesOf(stage[r.nonce]) >= 1;
    }
    forall r <- q.immature ensures r.totalShares != 0 {
      assert r.nonce in stage && SharesOf(stage[r.nonce]) >= 1;
    }
  }

  function Keys<K>(items: seq<Item<K>>): set<K> { set item <- items :: item.key }

  lemma {:induction false} DecisionsCoverAll<K>(fees: FeeConfig, items: seq<Item<K>>, answers: seq<Option<ChainBlock>>)
    requires |answers| == |items|
    ensures var r := UnlockCandidates(fees, items, answers);
      r.Some? ==> Keys(r.value.orphans) + Keys(r.value.matured) == Keys(items)
  {
    if items != [] {
      var n := |items| - 1;
      DecisionsCoverAll(fees, items[..n], answers[..n]);
      var front := UnlockCandidates(fees, items[..n], answers[..n]);
      if front.Some? && answers[n].Some? {
        var last := Judge(fees, items[n], answers[n].value);
        KeysOfOneMore(front.value.orphans, last);
        KeysOfOneMore(front.value.matured, last);
        KeysOfOneMore(items[..n], items[n]);
        assert items[..n] + [items[n]] == items;
      }
    }
  }

  lemma KeysOfOneMore<K>(items: seq<Item<K>>, item: Item<K>)
    ensures Keys(items + [item]) == Keys(items) + {item.key}
  {
    assert forall x :: x in items + [item] <==> x in items || x == item;
  }

  lemma {:induction false} OrphansLeaveCandidates(l: Ledger, items: seq<Item<CandidateRow>>)
    ensures PendingOrphans(l, items).queues.candidates == l.queues.candidates - Keys(items)
  {
    if items == [] {
      assert Keys(items) == {};
    } else {
      var n := |items| - 1;
      OrphansLeaveCandidates(l, items[..n]);
      KeysOfOneMore(items[..n], items[n]);
      assert items[..n] + [items[n]] == items;
    }
  }

  /** Rounds that each take one row off a list take all their rows off it. */
  lemma {:induction false} RoundsRemove<R(!new)>(list: Pass -> map<R, int>, row: nat -> R, p: Pass, body: LoopBody,
                                                 n: nat)
    requires forall q: Pass, i: nat :: i < n && !q.halt && !body(q, i).halt ==> list(body(q, i)) == list(q) - {row(i)}
    ensures var q := Rounds(p, body, n); !q.halt ==> list(q) == list(p) - (set i: nat | i < n :: row(i))
  {
    if n > 0 {
      RoundsRemove(list, row, p, body, n - 1);
      assert (set i: nat | i < n :: row(i)) == (set i: nat | i < n - 1 :: row(i)) + {row(n - 1)};
    }
  }

  lemma KeysByIndex<K(!new)>(items: seq<Item<K>>, row: nat -> K)
    requires forall i: nat :: i < |items| ==> row(i) == items[i].key
    ensures (set i: nat | i < |items| :: row(i)) == Keys(items)
  {
    forall k ensures k in (set i: nat | i < |items| :: row(i)) <==> k in Keys(items) {
      if k in Keys(items) {
        var item :| item in items && item.key == k;
        var i :| 0 <= i < |items| && items[i] == item;
        assert row(i) == k;
      }
    }
  }

  lemma CreditLeavesCandidates(fees: FeeConfig, p: Pass, items: seq<Item<CandidateRow>>, redis: Backend)
    requires forall item <- items :: CanReward(item.block)
    ensures var q := Rounds(p, CreditBody(fees, items, redis), |items|);
      !q.halt ==> q.ledger.queues.candidates == p.ledger.queues.candidates - Keys(items)
  {
    if items != [] {
      var row := (i: nat) => if i < |items| then items[i].key else items[0].key;
      KeysByIndex(items, row);
      var list, body := (q: Pass) => q.ledger.queues.candidates, CreditBody(fees, items, redis);
      forall q: Pass, i: nat | i < |items| && !q.halt && !body(q, i).halt
        ensures list(body(q, i)) == list(q) - {row(i)}
      {
        assert items[i] in items && row(i) == items[i].key;
        assert body(q, i) == CreditOne(fees, q, items[i], redis.readFails(i), redis.outcomes(i + 1));
      }
      RoundsRemove(list, row, p, body, |items|);
    }
  }

  /** A pass that ends without an error has moved every due candidate out of the candidates. */
  lemma PendingPassClearsDue(cfg: UnlockerConfig, p: Pass, node: Node, redis: Backend, due: int,
                             order: seq<CandidateRow>, nonceOf: string -> string)
    requires Inv(InPool(p, Idle), cfg, nonceOf) && Honest(node, nonceOf) && GetsToList(p, node, redis)
    requires Lists(order, p.ledger.queues.candidates, due) && forall r <- order :: r in p.ledger.queues.candidates
    requires !PendingPass(cfg, p, node, redis, order).halt
    ensures forall r <- PendingPass(cfg, p, node, redis, order).ledger.queues.candidates ::
      r in p.ledger.queues.candidates && !(0 <= p.ledger.queues.candidates[r] <= due)
  {
    if order != [] {
      var items := CandidateItems(order, p.ledger.queues.candidates);
      var r := UnlockCandidates(cfg.fees, items, Answers(node, |order|)).value;
      ConfirmedCanBeRewarded(p, node, due, order, cfg, nonceOf);
      DecisionsCoverAll(cfg.fees, items, Answers(node, |order|));
      OrphansLeaveCandidates(p.ledger, r.orphans);
      var q := OrphansAtOnce(p, r.orphans, redis.outcomes(0));
      CreditLeavesCandidates(cfg.fees, q, r.matured, redis);
      forall row <- order ensures row in Keys(items) {
        var i :| 0 <= i < |order| && order[i] == row;
        assert items[i] in items;
      }
    }
  }

  lemma OrphansLeaveImmature(p: Pass, items: seq<Item<BlockRow>>, redis: Backend)
    ensures var q := Rounds(p, OrphanBody(items, redis), |items|);
      !q.halt ==> q.ledger.queues.immature == p.ledger.queues.immature - Keys(items)
  {
    if items != [] {
      var row := (i: nat) => if i < |items| then items[i].key else items[0].key;
      KeysByIndex(items, row);
      var list, body := (q: Pass) => q.ledger.queues.immature, OrphanBody(items, redis);
      forall q: Pass, i: nat | i < |items| && !q.halt && !body(q, i).halt
        ensures list(body(q, i)) == list(q) - {row(i)}
      {
        assert items[i] in items && row(i) == items[i].key;
        assert body(q, i) == OrphanOne(q, items[i], redis.logReads(i), redis.outcomes(i));
      }
      RoundsRemove(list, row, p, body, |items|);
    }
  }

  lemma MatureOneRemoves(fees: FeeConfig, p: Pass, item: Item<BlockRow>, readFails: bool, logRead: bool,
                         outcome: Outcome)
    requires CanReward(item.block)
    ensures var q := MatureOne(fees, p, item, readFails, logRead, outcome);
      !q.halt ==> q.ledger.queues.immature == p.ledger.queues.immature - {item.key}
  {
  }

  lemma MatureRoundRemoves(fees: FeeConfig, items: seq<Item<BlockRow>>, redis: Backend, first: nat, p: Pass, i: nat)
    requires i < |items| && CanReward(items[i].block)
    ensures var q := MatureBody(fees, items, redis, first)(p, i);
      !q.halt ==> q.ledger.queues.immature == p.ledger.queues.immature - {items[i].key}
  {
    MatureOneRemoves(fees, p, items[i], redis.readFails(i), redis.logReads(first + i), redis.outcomes(first + i));
    assert MatureBody(fees, items, redis, first)(p, i)
      == MatureOne(fees, p, items[i], redis.readFails(i), redis.logReads(first + i), redis.outcomes(first + i));
  }

  lemma MaturedLeaveImmature(fees: FeeConfig, p: Pass, items: seq<Item<BlockRow>>, redis: Backend, first: nat)
    requires forall item <- items :: CanReward(item.block)
    ensures var q := Rounds(p, MatureBody(fees, items, redis, first), |items|);
      !q.halt ==> q.ledger.queues.immature == p.ledger.queues.immature - Keys(items)
  {
    if items != [] {
      var row := (i: nat) => if i < |items| then items[i].key else items[0].key;
      KeysByIndex(items, row);
      var list, body := (q: Pass) => q.ledger.queues.immature, MatureBody(fees, items, redis, first);
      forall q: Pass, i: nat | i < |items| && !q.halt && !body(q, i).halt
        ensures list(body(q, i)) == list(q) - {row(i)}
      {
        assert items[i] in items && row(i) == items[i].key;
        MatureRoundRemoves(fees, items, redis, first, q, i);
      }
      RoundsRemove(list, row, p, body, |items|);
    }
  }

  /** A pass that ends without an error has matured or orphaned every due immature block. */
  lemma MaturePassClearsDue(cfg: UnlockerConfig, p: Pass, node: Node, redis: Backend, due: int, rows: seq<BlockRow>,
                            nonceOf: string -> string)
    requires Inv(InPool(p, Idle), cfg, nonceOf) && Honest(node, nonceOf) && GetsToList(p, node, redis)
    requires Lists(rows, p.ledger.queues.immature, due) && forall r <- rows :: r in p.ledger.queues.immature
    requires !MaturePass(cfg, p, node, redis, rows).halt
    ensures forall r <- MaturePass(cfg, p, node, redis, rows).ledger.queues.immature ::
      r in p.ledger.queues.immature && !(0 <= p.ledger.queues.immature[r] <= due)
  {
    if rows != [] {
      var items := ImmatureItems(rows, p.ledger.queues.immature);
      var r := UnlockCandidates(cfg.fees, items, Answers(node, |rows|)).value;
      RipeCanBeRewarded(p, node, due, rows, cfg, nonceOf);
      DecisionsCoverAll(cfg.fees, items, Answers(node, |rows|));
      var n := |r.orphans|;
      OrphansLeaveImmature(p, r.orphans, redis);
      var q := Rounds(p, OrphanBody(r.orphans, redis), n);
      MaturedLeaveImmature(cfg.fees, q, r.matured, redis, n);
      forall row <- rows ensures row in Keys(items) {
        var i :| 0 <= i < |rows| && rows[i] == row;
        assert items[i] in items;
      }
    }
  }

  // ---------- no block gets stuck ----------

  /** The node and the backend answer everything. */
  ghost predicate AllGoesWell(node: Node, redis: Backend) {
    && node.pending.Some? && (forall i: nat :: node.blocks(i).Some?)
    && !redis.listFails && (forall i: nat :: !redis.readFails(i) && redis.logReads(i) && redis.outcomes(i) == Applied)
  }

  lemma {:induction false} AnsweredDecisions<K>(fees: FeeConfig, items: seq<Item<K>>, answers: seq<Option<ChainBlock>>)
    requires |answers| == |items| && forall a <- answers :: a.Some?
    ensures UnlockCandidates(fees, items, answers).Some?
  {
    if items != [] {
      assert answers[|items| - 1] in answers;
      AnsweredDecisions(fees, items[..|items| - 1], answers[..|items| - 1]);
    }
  }

  lemma {:induction false} RoundsGoOn(p: Pass, body: LoopBody, n: nat)
    requires !p.halt && forall q: Pass, i: nat :: !q.halt ==> !body(q, i).halt
    ensures !Rounds(p, body, n).halt
  {
    if n > 0 {
      RoundsGoOn(p, body, n - 1);
    }
  }

  lemma GoodPendingPassEnds(cfg: UnlockerConfig, p: Pass, node: Node, redis: Backend, order: seq<CandidateRow>)
    requires (forall r <- order :: r in p.ledger.queues.candidates) && !p.halt && AllGoesWell(node, redis)
    ensures !PendingPass(cfg, p, node, redis, order).halt
  {
    var items := CandidateItems(order, p.ledger.queues.candidates);
    AnsweredDecisions(cfg.fees, items, Answers(node, |order|));
    var r := UnlockCandidates(cfg.fees, items, Answers(node, |order|)).value;
    RoundsGoOn(OrphansAtOnce(p, r.orphans, redis.outcomes(0)), CreditBody(cfg.fees, r.matured, redis), |r.matured|);
  }

  lemma GoodMaturePassEnds(cfg: UnlockerConfig, p: Pass, node: Node, redis: Backend, rows: seq<BlockRow>)
    requires (forall r <- rows :: r in p.ledger.queues.immature) && !p.halt && AllGoesWell(node, redis)
    ensures !MaturePass(cfg, p, node, redis, rows).halt
  {
    var items := ImmatureItems(rows, p.ledger.queues.immature);
    AnsweredDecisions(cfg.fees, items, Answers(node, |rows|));
    var r := UnlockCandidates(cfg.fees, items, Answers(node, |rows|)).value;
    var n := |r.orphans|;
    RoundsGoOn(p, OrphanBody(r.orphans, redis), n);
    RoundsGoOn(Rounds(p, OrphanBody(r.orphans, redis), n), MatureBody(cfg.fees, r.matured, redis, n), |r.matured|);
  }

  /** Along any steps blocks stay known, keep their heights and never move back. */
  lemma {:induction false} ReachedMovesForward(s: System, steps: seq<Step>, here: System, n: string,
                                               cfg: UnlockerConfig, nonceOf: string -> string)
    requires Inv(s, cfg, nonceOf) && Reached(s, steps, cfg, nonceOf) == Some(here) && n in s.stage
    ensures Inv(here, cfg, nonceOf) && n in here.stage
    ensures here.stage[n].height == s.stage[n].height && Rank(s.stage[n]) <= Rank(here.stage[n])
    decreases |steps|
  {
    if steps != [] {
      var k := |steps| - 1;
      var before := Reached(s, steps[..k], cfg, nonceOf).value;
      ReachedMovesForward(s, steps[..k], before, n, cfg, nonceOf);
      StepKeepsInv(before, steps[k], cfg, nonceOf);
      StepMovesForward(before, steps[k], cfg, nonceOf);
    }
  }

  lemma BlocksMoveOn(p: Pass, q: Pass, n: string, cfg: UnlockerConfig, nonceOf: string -> string)
    requires Inv(InPool(p, Idle), cfg, nonceOf) && SafelyReached(InPool(p, Idle), InPool(q, Idle), cfg, nonceOf)
      && n in p.stage
    ensures QueuesMatch(p.ledger.queues, p.stage) && QueuesMatch(q.ledger.queues, q.stage) && n in q.stage
    ensures q.stage[n].height == p.stage[n].height && Rank(p.stage[n]) <= Rank(q.stage[n])
  {
    var steps :| Reached(InPool(p, Idle), steps, cfg, nonceOf) == Some(InPool(q, Idle));
    ReachedMovesForward(InPool(p, Idle), steps, InPool(q, Idle), n, cfg, nonceOf);
  }

  /** A block whose row was due and is due no more is no longer in the list. */
  lemma ClearedCandidateMoved(before: Queues, stage: map<string, Stage>, after: Queues, stage': map<string, Stage>,
                              n: string, due: int)
    requires QueuesMatch(before, stage) && QueuesMatch(after, stage')
    requires n in stage && n in stage' && stage'[n].height == stage[n].height && 0 <= stage[n].height <= due
    requires forall r <- after.candidates :: r in before.candidates && !(0 <= before.candidates[r] <= due)
    ensures !stage'[n].Candidate?
  {
    assert RowListed(after, n, stage'[n]);
  }

  lemma ClearedImmatureMoved(before: Queues, stage: map<string, Stage>, after: Queues, stage': map<string, Stage>,
                             n: string, due: int)
    requires QueuesMatch(before, stage) && QueuesMatch(after, stage')
    requires n in stage && n in stage' && stage'[n].height == stage[n].height && 0 <= stage[n].height <= due
    requires forall r <- after.immature :: r in before.immature && !(0 <= before.immature[r] <= due)
    ensures !stage'[n].Immature?
  {
    assert RowListed(after, n, stage'[n]);
  }

  /** A first pass in which nothing fails moves every due candidate on. */
  lemma GoodPendingPass(cfg: UnlockerConfig, p: Pass, node: Node, redis: Backend, due: int, order: seq<CandidateRow>,
                        n: string, nonceOf: string -> string)
    requires Inv(InPool(p, Idle), cfg, nonceOf) && !p.halt && Honest(node, nonceOf) && AllGoesWell(node, redis)
    requires Lists(order, p.ledger.queues.candidates, due) && forall r <- order :: r in p.ledger.queues.candidates
    requires n in p.stage && p.stage[n].Candidate? && 0 <= p.stage[n].height <= due
    ensures var q := PendingPass(cfg, p, node, redis, order);
      !q.halt && n in q.stage && q.stage[n].height == p.stage[n].height && Rank(q.stage[n]) >= 2
  {
    var q := PendingPass(cfg, p, node, redis, order);
    GoodPendingPassEnds(cfg, p, node, redis, order);
    PendingPassIsRun(p, node, redis, due, order, cfg, nonceOf);
    PendingPassClearsDue(cfg, p, node, redis, due, order, nonceOf);
    BlocksMoveOn(p, q, n, cfg, nonceOf);
    ClearedCandidateMoved(p.ledger.queues, p.stage, q.ledger.queues, q.stage, n, due);
  }

  /** A second pass in which nothing fails matures every due block the first has moved on. So no
      listed block gets stuck, unless something fails. */
  lemma GoodMaturePass(cfg: UnlockerConfig, p: Pass, node: Node, redis: Backend, due: int, rows: seq<BlockRow>,
                       n: string, nonceOf: string -> string)
    requires Inv(InPool(p, Idle), cfg, nonceOf) && !p.halt && Honest(node, nonceOf) && AllGoesWell(node, redis)
    requires Lists(rows, p.ledger.queues.immature, due) && forall r <- rows :: r in p.ledger.queues.immature
    requires n in p.stage && Rank(p.stage[n]) >= 2 && 0 <= p.stage[n].height <= due
    ensures var q := MaturePass(cfg, p, node, redis, rows);
      !q.halt && n in q.stage && q.stage[n].Matured?
  {
    var q := MaturePass(cfg, p, node, redis, rows);
    GoodMaturePassEnds(cfg, p, node, redis, rows);
    MaturePassIsRun(p, node, redis, due, rows, cfg, nonceOf);
    MaturePassClearsDue(cfg, p, node, redis, due, rows, nonceOf);
    BlocksMoveOn(p, q, n, cfg, nonceOf);
    ClearedImmatureMoved(p.ledger.queues, p.stage, q.ledger.queues, q.stage, n, due);
  }
}
