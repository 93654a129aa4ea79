/** Two runs through a reorganisation of the chain between a block's two passes: one in which it is
    credited under one hash and about to pay out under another, and one in which it is no block of the
    pool at first, is not credited, and is about to pay out after all. */
module Reorganised {
  import opened Wrappers
  import opened FiniteSums
  import opened Rewards
  import opened Rows
  import opened Ledger
  import opened Lifecycle
  import opened Invariants
  import opened Safety
  import opened Passes

  /** The block's candidate row: one share of one miner. */
  function Row(n: string): CandidateRow { CandidateRow(n, "", "", 0, 0, 1, 1, 0) }

  function Confirmed(fees: FeeConfig, n: string, height: int, hash: string): Item<CandidateRow> {
    Item(Row(n), HandleBlock(fees, FromCandidate(Row(n), height), ChainBlock(hash, n)))
  }

  function Orphaned(n: string, height: int): Item<CandidateRow> {
    Item(Row(n), FromCandidate(Row(n), height).(orphan := true))
  }

  function Ripened(fees: FeeConfig, row: BlockRow, height: int, hash: string): Item<BlockRow> {
    Item(row, HandleBlock(fees, FromBlock(row, height), ChainBlock(hash, row.nonce)))
  }

  ghost predicate Steady(reach: System -> bool, cfg: UnlockerConfig, nonceOf: string -> string) {
    forall here, step :: reach(here) && Enabled(here, step, cfg, nonceOf) ==> reach(Apply(here, step, cfg, nonceOf))
  }

  // ---------- the pool at each moment ----------

  ghost predicate Holds(s: System, candidates: map<CandidateRow, int>, immature: map<BlockRow, int>, work: Work) {
    && s.ledger.queues.candidates == candidates && s.ledger.queues.immature == immature
    && s.work == work && !s.halted
  }

  ghost predicate IsFrozen(s: System, n: string, height: int) {
    n in s.stage && s.stage[n] == Frozen(Row(n), height) && Holds(s, map[], map[], Idle)
  }

  lemma Finds(reach: System -> bool, n: string, height: int, cfg: UnlockerConfig, nonceOf: string -> string)
    returns (s: System)
    requires Steady(reach, cfg, nonceOf) && reach(START) && IsNonce(n)
    ensures reach(s) && IsFrozen(s, n, height)
  {
    SumSingle("miner", 1);
    assert ClosingRound(START.ledger.shares, "miner", 1) == map["miner" := 1];
    s := Apply(START, Found("miner", 1, height, Row(n)), cfg, nonceOf);
  }

  lemma ListsIt(reach: System -> bool, f: System, n: string, height: int, cfg: UnlockerConfig,
                nonceOf: string -> string) returns (s: System)
    requires Steady(reach, cfg, nonceOf) && reach(f) && IsFrozen(f, n, height)
    ensures reach(s) && Holds(s, map[Row(n) := height], map[], Idle)
  {
    assert Enabled(f, ListCandidate(n), cfg, nonceOf);
    s := Apply(f, ListCandidate(n), cfg, nonceOf);
  }

  lemma JudgesOne<K>(fees: FeeConfig, item: Item<K>, c: ChainBlock)
    requires item.block.nonce == c.nonce && IsNonce(c.nonce)
    ensures UnlockCandidates(fees, [item], [Some(c)])
      == Some(UnlockResult([item.(block := HandleBlock(fees, item.block, c))], []))
  {
    assert [item][..0] == [] && [Some(c)][..0] == [];
    assert UnlockCandidates<K>(fees, [], []) == Some(UnlockResult([], []));
    var judged := item.(block := HandleBlock(fees, item.block, c));
    assert Judge(fees, item, c) == judged && [] + [judged] == [judged];
  }

  lemma LoadsIt(reach: System -> bool, f: System, n: string, height: nat, hash: string, cfg: UnlockerConfig,
                nonceOf: string -> string)
    returns (s: System)
    requires Steady(reach, cfg, nonceOf) && reach(f) && Holds(f, map[Row(n) := height], map[], Idle)
    requires IsNonce(n) && |hash| >= 10 && nonceOf(hash) == n
    ensures reach(s) && Holds(s, map[Row(n) := height], map[],
                              PendingLoaded([], [Confirmed(cfg.fees, n, height, hash)]))
  {
    var q, c := f.ledger.queues.candidates, ChainBlock(hash, n);
    var load := LoadCandidates(height, [Row(n)], [Some(c)]);
    assert CandidateItems([Row(n)], q) == [Item(Row(n), FromCandidate(Row(n), height))];
    JudgesOne(cfg.fees, Item(Row(n), FromCandidate(Row(n), height)), c);
    assert Enabled(f, load, cfg, nonceOf);
    s := Apply(f, load, cfg, nonceOf);
  }

  lemma HasNoOrphans(reach: System -> bool, f: System, candidates: map<CandidateRow, int>, item: Item<CandidateRow>,
                     cfg: UnlockerConfig, nonceOf: string -> string)
    returns (s: System)
    requires Steady(reach, cfg, nonceOf) && reach(f) && Holds(f, candidates, map[], PendingLoaded([], [item]))
    ensures reach(s) && Holds(s, candidates, map[], Crediting([item]))
  {
    assert Enabled(f, WritePendingOrphans(Applied), cfg, nonceOf);
    s := Apply(f, WritePendingOrphans(Applied), cfg, nonceOf);
  }

  lemma CreditsIt(reach: System -> bool, f: System, item: Item<CandidateRow>, cfg: UnlockerConfig,
                  nonceOf: string -> string) returns (s: System)
    requires Steady(reach, cfg, nonceOf) && reach(f) && CanReward(item.block)
    requires Holds(f, map[item.key := item.block.height], map[], Crediting([item]))
    ensures reach(s) && Holds(s, map[], map[RowOf(item.block) := item.block.height], Idle)
  {
    var credit := WriteNextImmature(Applied);
    assert Enabled(f, credit, cfg, nonceOf);
    ImmatureWritten(f, Applied, cfg.fees);
    assert [item][1..] == [];
    assert map[item.key := item.block.height] - {item.key} == map[];
    s := Apply(f, credit, cfg, nonceOf);
  }

  lemma OrphansOne<K>(fees: FeeConfig, item: Item<K>, c: ChainBlock)
    requires IsNonce(item.block.nonce) && IsNonce(c.nonce) && item.block.nonce != c.nonce
    ensures UnlockCandidates(fees, [item], [Some(c)])
      == Some(UnlockResult([], [item.(block := item.block.(orphan := true))]))
  {
    NonceFolds(item.block.nonce, c.nonce);
    assert [item][..0] == [] && [Some(c)][..0] == [];
    assert UnlockCandidates<K>(fees, [], []) == Some(UnlockResult([], []));
    var judged := item.(block := item.block.(orphan := true));
    assert Judge(fees, item, c) == judged && [] + [judged] == [judged];
  }

  lemma LoadsItLost(reach: System -> bool, f: System, n: string, height: nat, other: string, cfg: UnlockerConfig,
                    nonceOf: string -> string)
    returns (s: System)
    requires Steady(reach, cfg, nonceOf) && reach(f) && Holds(f, map[Row(n) := height], map[], Idle)
    requires IsNonce(n) && |other| >= 10 && IsNonce(nonceOf(other)) && nonceOf(other) != n
    ensures reach(s) && Holds(s, map[Row(n) := height], map[], PendingLoaded([Orphaned(n, height)], []))
  {
    var q, c := f.ledger.queues.candidates, ChainBlock(other, nonceOf(other));
    var load := LoadCandidates(height, [Row(n)], [Some(c)]);
    assert CandidateItems([Row(n)], q) == [Item(Row(n), FromCandidate(Row(n), height))];
    OrphansOne(cfg.fees, Item(Row(n), FromCandidate(Row(n), height)), c);
    assert Enabled(f, load, cfg, nonceOf);
    s := Apply(f, load, cfg, nonceOf);
  }

  lemma OrphansIt(reach: System -> bool, f: System, item: Item<CandidateRow>, cfg: UnlockerConfig,
                  nonceOf: string -> string) returns (s: System)
    requires Steady(reach, cfg, nonceOf) && reach(f)
    requires Holds(f, map[item.key := item.block.height], map[], PendingLoaded([item], []))
    ensures reach(s) && Holds(s, map[], map[RowOf(item.block) := item.block.height], Idle)
  {
    assert Enabled(f, WritePendingOrphans(Applied), cfg, nonceOf);
    PendingWritten(f, Applied, cfg.fees);
    assert [item][..0] == [] && PendingOrphans(f.ledger, []) == f.ledger;
    assert PendingOrphans(f.ledger, [item]) == ToImmature(f.ledger, item);
    assert map[item.key := item.block.height] - {item.key} == map[];
    s := Apply(f, WritePendingOrphans(Applied), cfg, nonceOf);
  }

  lemma LoadsItAgain(reach: System -> bool, f: System, row: BlockRow, height: nat, hash: string, cfg: UnlockerConfig,
                     nonceOf: string -> string)
    returns (s: System)
    requires Steady(reach, cfg, nonceOf) && reach(f) && Holds(f, map[], map[row := height], Idle)
    requires IsNonce(row.nonce) && |hash| >= 10 && nonceOf(hash) == row.nonce
    ensures reach(s) && s.work == MatureLoaded([], [Ripened(cfg.fees, row, height, hash)])
  {
    var q, c := f.ledger.queues.immature, ChainBlock(hash, row.nonce);
    var load := LoadImmature(height, [row], [Some(c)]);
    assert ImmatureItems([row], q) == [Item(row, FromBlock(row, height))];
    JudgesOne(cfg.fees, Item(row, FromBlock(row, height)), c);
    assert Enabled(f, load, cfg, nonceOf);
    s := Apply(f, load, cfg, nonceOf);
  }

  lemma ReachesOtherHash(reach: System -> bool, n: string, height: nat, first: string, second: string,
                         cfg: UnlockerConfig, nonceOf: string -> string)
    returns (s: System)
    requires Steady(reach, cfg, nonceOf) && reach(START) && IsNonce(n)
    requires |first| >= 10 && |second| >= 10 && nonceOf(first) == nonceOf(second) == n
    ensures var row := RowOf(Confirmed(cfg.fees, n, height, first).block);
      reach(s) && s.work == MatureLoaded([], [Ripened(cfg.fees, row, height, second)])
  {
    var item := Confirmed(cfg.fees, n, height, first);
    var found := Finds(reach, n, height, cfg, nonceOf);
    var listed := ListsIt(reach, found, n, height, cfg, nonceOf);
    var loaded := LoadsIt(reach, listed, n, height, first, cfg, nonceOf);
    var ready := HasNoOrphans(reach, loaded, map[Row(n) := height], item, cfg, nonceOf);
    var credited := CreditsIt(reach, ready, item, cfg, nonceOf);
    s := LoadsItAgain(reach, credited, RowOf(item.block), height, second, cfg, nonceOf);
  }

  lemma ReachesOrphanAgain(reach: System -> bool, n: string, height: nat, other: string, hash: string,
                           cfg: UnlockerConfig, nonceOf: string -> string)
    returns (s: System)
    requires Steady(reach, cfg, nonceOf) && reach(START) && IsNonce(n) && IsNonce(nonceOf(other))
    requires |other| >= 10 && |hash| >= 10 && nonceOf(other) != nonceOf(hash) == n
    ensures var row := RowOf(Orphaned(n, height).block);
      reach(s) && s.work == MatureLoaded([], [Ripened(cfg.fees, row, height, hash)])
  {
    var item := Orphaned(n, height);
    var found := Finds(reach, n, height, cfg, nonceOf);
    var listed := ListsIt(reach, found, n, height, cfg, nonceOf);
    var loaded := LoadsItLost(reach, listed, n, height, other, cfg, nonceOf);
    var orphaned := OrphansIt(reach, loaded, item, cfg, nonceOf);
    s := LoadsItAgain(reach, orphaned, RowOf(item.block), height, hash, cfg, nonceOf);
  }

  lemma SafelyReachedIsSteady(cfg: UnlockerConfig, nonceOf: string -> string) returns (reach: System -> bool)
    ensures forall here :: reach(here) <==> SafelyReached(START, here, cfg, nonceOf)
    ensures Steady(reach, cfg, nonceOf) && reach(START)
  {
    reach := (here: System) => SafelyReached(START, here, cfg, nonceOf);
    InvAtStart(cfg, nonceOf);
    StartsReached(START, cfg, nonceOf);
    SafelyReachedIsClosed(START, cfg, nonceOf);
  }

  /** For any two hashes of blocks with one nonce there is a run in which a block is credited under the
      first and about to pay out under the second. */
  lemma OtherHashIsReached(n: string, height: nat, first: string, second: string, cfg: UnlockerConfig,
                           nonceOf: string -> string)
    returns (s: System)
    requires IsNonce(n) && |first| >= 10 && |second| >= 10 && nonceOf(first) == nonceOf(second) == n
    ensures SafelyReached(START, s, cfg, nonceOf)
    ensures s.work.MatureLoaded? && s.work.lost == [] && |s.work.ripe| == 1
    ensures var item := s.work.ripe[0]; !item.key.orphan && item.key.hash == first && item.block.hash == second
  {
    var reach := SafelyReachedIsSteady(cfg, nonceOf);
    s := ReachesOtherHash(reach, n, height, first, second, cfg, nonceOf);
  }

  /** For any block of the pool and any other block that may stand in its place at first, there is a run
      in which the first pass takes the pool's block for an orphan and the second is about to pay it. */
  lemma OrphanIsReached(n: string, height: nat, other: string, hash: string, cfg: UnlockerConfig,
                        nonceOf: string -> string)
    returns (s: System)
    requires IsNonce(n) && IsNonce(nonceOf(other)) && |other| >= 10 && |hash| >= 10
    requires nonceOf(other) != nonceOf(hash) == n
    ensures SafelyReached(START, s, cfg, nonceOf)
    ensures s.work.MatureLoaded? && s.work.lost == [] && |s.work.ripe| == 1
    ensures var item := s.work.ripe[0];
      item.key.orphan && item.key.nonce == n && item.block.hash == hash && CanReward(item.block)
  {
    var reach := SafelyReachedIsSteady(cfg, nonceOf);
    s := ReachesOrphanAgain(reach, n, height, other, hash, cfg, nonceOf);
  }
}
