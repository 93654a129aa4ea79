/** The storage client: the Redis keys it changes in place, and its methods command by command
    (storage/redis.go). Each method is proved against the value-level transaction of `Ledger`.
    An `Outcome` parameter is how the transaction of the call ends. */
module RedisClient {
  import opened Wrappers
  import opened FiniteSums
  import opened Text
  import opened Rows
  import opened Books
  import opened Ledger
  import opened Lifecycle
  import opened SortedSets
  import Payments
  import PowHistory

  const NO_CANDIDATE := CandidateRow("", "", "", 0, 0, 0, 0, 0)
  const NO_BLOCK := BlockRow(false, "", "", 0, 0, 0, 0, 0, "")

  function CandidateOf(s: string): CandidateRow {
    if ParseCandidate(s).Some? then ParseCandidate(s).value else NO_CANDIDATE
  }

  function BlockOf(s: string): BlockRow {
    if ParseBlock(s).Some? then ParseBlock(s).value else NO_BLOCK
  }

  function CandidateFormat(): RowFormat<CandidateRow> { RowFormat(CandidateOf, PrintCandidate) }
  function BlockFormat(): RowFormat<BlockRow> { RowFormat(BlockOf, PrintBlock) }

  /** The parsers undo the printers on every row that fits, and read only rows that do. */
  lemma FormatsAreLawful()
    ensures CandidateFormat().Lawful(CandidateFits)
    ensures BlockFormat().Lawful(BlockFits)
  {
    forall c | CandidateFits(c) ensures CandidateFormat().Keeps(c) { CandidateRoundTrip(c); }
    forall b | BlockFits(b) ensures BlockFormat().Keeps(b) { BlockRoundTrip(b); }
    forall s ensures CandidateFits(CandidateOf(s)) && BlockFits(BlockOf(s)) { ParsedRowsFit(s); }
  }

  /** A block read from a printed row, with the row itself in place of its print. */
  function Unprinted<R(==,!new)>(format: RowFormat<R>, item: Item<string>): Item<R> {
    Item(format.parse(item.key), item.block)
  }

  function AllUnprinted<R(==,!new)>(format: RowFormat<R>, items: seq<Item<string>>): seq<Item<R>> {
    seq(|items|, i requires 0 <= i < |items| => Unprinted(format, items[i]))
  }

  /** How the duplicate check goes: whether the pruning runs, and how ZADD ends for its caller. */
  datatype Check = Check(pruned: bool, added: Outcome)

  function PowPruned(pow: map<string, nat>, height: nat, check: Check): map<string, nat> {
    if check.pruned then PowHistory.Execute(pow, PowHistory.Prune(height)) else pow
  }

  /** The share keys after a check. */
  function PowAfter(pow: map<string, nat>, key: string, height: nat, check: Check): map<string, nat> {
    var kept := PowPruned(pow, height, check);
    if check.added == Refused then kept else PowHistory.Execute(kept, PowHistory.Add(key, height))
  }

  predicate IsDuplicate(pow: map<string, nat>, key: string, height: nat, check: Check) {
    key in PowPruned(pow, height, check)
  }

  /** What `WriteBlock` leaves of the ledger: nothing new for a share that is no new one, and a frozen round without a
      candidate row when it fails in between. */
  function BlockWritten(before: Ledger, login: string, diff: int, height: int, row: CandidateRow,
                        stopped: bool, outcome: Outcome, listed: Outcome): Ledger {
    if stopped || outcome == Refused then before
    else
      var frozen := FreezeRound(before.shares, login, diff, RoundKey(height, row.nonce));
      if outcome == Unacknowledged || listed == Refused then Ledger(frozen, before.queues, before.books)
      else Ledger(frozen, before.queues.(candidates := before.queues.candidates[row := height]), before.books)
  }

  /** The ledger after each of some orphans. */
  function OrphansAlong(l: Ledger, items: seq<Item<CandidateRow>>): nat -> Ledger {
    (n: nat) => if n <= |items| then PendingOrphans(l, items[..n]) else l
  }

  lemma OneMoreOrphan(l: Ledger, items: seq<Item<CandidateRow>>, i: nat)
    requires i < |items|
    ensures OrphansAlong(l, items)(i + 1) == ToImmature(OrphansAlong(l, items)(i), items[i])
  {
    assert items[..i + 1][..i] == items[..i];
  }

  lemma AllOrphansAlong(l: Ledger, items: seq<Item<CandidateRow>>)
    ensures OrphansAlong(l, items)(0) == l && OrphansAlong(l, items)(|items|) == PendingOrphans(l, items)
  {
    assert items[..|items|] == items;
  }

  lemma LogOneMore(rewards: Log, log: Log, done: set<string>, login: string)
    requires login in rewards && login !in done
    ensures var part := Restrict(rewards, done) + log;
      Restrict(rewards, done + {login}) + log == if login in part then part else part[login := rewards[login]]
  {
  }

  class RedisClient {
    const candidates: SortedSet<CandidateRow>
    const immatureBlocks: SortedSet<BlockRow>
    const maturedBlocks: SortedSet<BlockRow>
    var pow: map<string, nat>
    var roundCurrent: Log
    var roundShares: int
    var rounds: map<RoundKey, Log>
    var immature: Log
    var balance: Log
    var pending: Log
    var paid: Log
    var finances: Finances
    var open: map<CreditKey, Log>
    var closed: map<CreditKey, Log>
    /** Credits whose log was deleted without being read. */
    ghost var lost: Log
    var payments: Payments.PaymentLists

    ghost predicate Valid()
      reads candidates, immatureBlocks, maturedBlocks
    {
      && candidates.format.Lawful(CandidateFits) && candidates.Valid()
      && immatureBlocks.format.Lawful(BlockFits) && immatureBlocks.Valid()
      && maturedBlocks.format == immatureBlocks.format && maturedBlocks.Valid()
      && immatureBlocks != maturedBlocks
    }

    ghost function ShareState(): Shares
      reads this
    {
      Shares(roundCurrent, roundShares, rounds)
    }

    ghost function QueueState(): Queues
      reads candidates, immatureBlocks, maturedBlocks
    {
      Queues(candidates.rows, immatureBlocks.rows, maturedBlocks.rows)
    }

    ghost function MoneyState(): Books
      reads this
    {
      Books(immature, balance, pending, paid, finances, open, closed, lost)
    }

    ghost function Contents(): Ledger
      reads this, candidates, immatureBlocks, maturedBlocks
    {
      Ledger(ShareState(), QueueState(), MoneyState())
    }

    constructor ()
      ensures Valid() && Contents() == EMPTY_LEDGER && pow == map[] && payments == Payments.NO_PAYMENTS
      ensures candidates.format == CandidateFormat() && immatureBlocks.format == BlockFormat()
      ensures fresh(candidates) && fresh(immatureBlocks) && fresh(maturedBlocks)
    {
      FormatsAreLawful();
      candidates := new SortedSet(CandidateFormat());
      immatureBlocks := new SortedSet(BlockFormat());
      maturedBlocks := new SortedSet(BlockFormat());
      pow := map[];
      roundCurrent, roundShares, rounds := map[], 0, map[];
      immature, balance, pending, paid := map[], map[], map[], map[];
      finances := Finances(0, 0, 0, 0, 0);
      open, closed, lost := map[], map[], map[];
      payments := Payments.NO_PAYMENTS;
    }

    /** Prunes, then adds the key; the key was there before exactly if ZADD added nothing. An error of
        the pruning is dropped, one of ZADD is returned. */
    method CheckPoWExist(height: nat, params: seq<string>, check: Check) returns (exist: bool, ok: bool)
      requires params != []
      modifies `pow
      ensures ok <==> check.added == Applied
      ensures ok ==> (exist <==> IsDuplicate(old(pow), Join(params), height, check))
      ensures pow == PowAfter(old(pow), Join(params), height, check)
    {
      if check.pruned {
        pow := PowHistory.PruneBelow(pow, PowHistory.Cutoff(height));
      }
      var member := Join(params);
      exist, ok := member in pow, check.added == Applied;
      if check.added != Refused {
        pow := pow[member := height];
      }
    }

    /** A duplicate never reaches the transaction, nor does a share that could not be checked. */
    method WriteShare(login: string, params: seq<string>, diff: int, height: nat, check: Check, outcome: Outcome)
      returns (exist: bool, ok: bool)
      requires Valid() && params != []
      modifies `pow, `roundCurrent, `roundShares
      ensures Valid()
      ensures exist <==> check.added == Applied && IsDuplicate(old(pow), Join(params), height, check)
      ensures ok <==> exist || (check.added == Applied && outcome == Applied)
      ensures pow == PowAfter(old(pow), Join(params), height, check)
      ensures var before := old(Contents());
        Contents() == if exist || check.added != Applied || outcome == Refused then before
                      else before.(shares := AcceptShare(before.shares, login, diff))
      ensures if exist || check.added != Applied || outcome == Refused then ShareState() == old(ShareState())
              else ShareCounted(old(ShareState()), ShareState(), login, diff)
    {
      AcceptCounts(ShareState(), login, diff);
      exist, ok := CheckPoWExist(height, params, check);
      if !ok {
        return false, false;
      }
      if exist {
        return true, true;
      }
      if outcome != Refused {
        roundCurrent := IncrBy(roundCurrent, login, diff);
        roundShares := roundShares + diff;
      }
      ok := outcome == Applied;
    }

    /** The transaction of `WriteBlock`: close the current round under the block's key. */
    method FreezeCurrent(login: string, diff: int, key: RoundKey)
      modifies `roundCurrent, `roundShares, `rounds
      ensures ShareState() == FreezeRound(old(ShareState()), login, diff, key)
      ensures RoundClosed(old(ShareState()), ShareState(), login, diff, key.height, key.nonce)
    {
      roundCurrent := IncrBy(roundCurrent, login, diff);
      roundShares := 0;
      rounds := rounds[key := roundCurrent];
      roundCurrent := map[];
      FreezeCloses(old(ShareState()), login, diff, key.height, key.nonce);
    }

    /** ZADD of a found block's candidate row. */
    method AddCandidate(row: CandidateRow, height: int)
      requires Valid() && CandidateFits(row)
      modifies candidates
      ensures Valid() && QueueState() == old(QueueState()).(candidates := old(QueueState()).candidates[row := height])
    {
      candidates.Add(row, height);
    }

    /** The transaction of `WriteBlock` and the row after it. `row` is the candidate row a successful
        call leaves, its shares counted from the frozen round. */
    method FreezeAndList(login: string, params: seq<string>, diff: int, roundDiff: int, height: nat,
                         coinBaseValue: int, blkTotalFee: int, ts: int, outcome: Outcome, listed: Outcome)
      returns (ok: bool, row: CandidateRow)
      requires Valid() && |params| == 3
      requires CandidateFits(CandidateRow(params[0], params[1], params[2], ts, roundDiff, 0, coinBaseValue,
                                          blkTotalFee))
      requires IsInt64(Sum(ClosingRound(ShareState(), login, diff)))
      modifies `roundCurrent, `roundShares, `rounds, candidates
      ensures Valid()
      ensures ok <==> outcome == Applied && listed == Applied
      ensures row == CandidateRow(params[0], params[1], params[2], ts, roundDiff,
                                  Sum(ClosingRound(old(ShareState()), login, diff)), coinBaseValue, blkTotalFee)
      ensures Contents() == BlockWritten(old(Contents()), login, diff, height, row, false, outcome, listed)
      ensures if outcome == Refused then ShareState() == old(ShareState())
              else RoundClosed(old(ShareState()), ShareState(), login, diff, height, params[0])
    {
      var totalShares := TotalOf(IncrBy(roundCurrent, login, diff));
      row := CandidateRow(params[0], params[1], params[2], ts, roundDiff, totalShares, coinBaseValue, blkTotalFee);
      if outcome == Refused {
        return false, row;
      }
      FreezeCurrent(login, diff, RoundKey(height, params[0]));
      if outcome == Unacknowledged || listed == Refused {
        return false, row;
      }
      assert CandidateFits(row);
      AddCandidate(row, height);
      return listed == Applied, row;
    }

    /** A found block: the duplicate check, the transaction, the candidate row. */
    method WriteBlock(login: string, params: seq<string>, diff: int, roundDiff: int, height: nat,
                      coinBaseValue: int, blkTotalFee: int, ts: int, check: Check, outcome: Outcome, listed: Outcome)
      returns (exist: bool, ok: bool)
      requires Valid() && |params| == 3
      requires CandidateFits(CandidateRow(params[0], params[1], params[2], ts, roundDiff, 0, coinBaseValue,
                                          blkTotalFee))
      requires IsInt64(Sum(ClosingRound(ShareState(), login, diff)))
      modifies `pow, `roundCurrent, `roundShares, `rounds, candidates
      ensures Valid()
      ensures exist <==> check.added == Applied && IsDuplicate(old(pow), Join(params), height, check)
      ensures ok <==> exist || (check.added == Applied && outcome == Applied && listed == Applied)
      ensures pow == PowAfter(old(pow), Join(params), height, check)
      ensures var row := CandidateRow(params[0], params[1], params[2], ts, roundDiff,
                                      Sum(ClosingRound(old(ShareState()), login, diff)), coinBaseValue, blkTotalFee);
        var stopped := exist || check.added != Applied;
        Contents() == BlockWritten(old(Contents()), login, diff, height, row, stopped, outcome, listed)
      ensures if exist || check.added != Applied || outcome == Refused then ShareState() == old(ShareState())
              else RoundClosed(old(ShareState()), ShareState(), login, diff, height, params[0])
    {
      exist, ok := CheckPoWExist(height, params, check);
      if !ok {
        return false, false;
      }
      if exist {
        return true, true;
      }
      ghost var row;
      ok, row := FreezeAndList(login, params, diff, roundDiff, height, coinBaseValue, blkTotalFee, ts, outcome, listed);
    }

    /** The running total over a hash read with HGETALL. */
    static method TotalOf(m: Log) returns (total: int)
      ensures total == Sum(m)
    {
      total := 0;
      var todo := m.Keys;
      assert Restrict(m, m.Keys - todo) == map[];
      while todo != {}
        invariant todo <= m.Keys && total == Sum(Restrict(m, m.Keys - todo))
        decreases todo
      {
        var login :| login in todo;
        SumOneMore(m, m.Keys - todo, login);
        assert m.Keys - (todo - {login}) == m.Keys - todo + {login};
        total := total + m[login];
        todo := todo - {login};
      }
      assert Restrict(m, m.Keys - todo) == m;
    }

    /** The loop over a round's rewards: what it adds to the miners' field `m`, to the block's log and in all. */
    static method CreditLoop(m: Log, log: Log, rewards: Log) returns (credited: Log, logged: Log, total: int)
      ensures credited == AddAll(m, rewards) && logged == rewards + log && total == Sum(rewards)
    {
      credited, logged, total := m, log, 0;
      var todo := rewards.Keys;
      assert Restrict(rewards, rewards.Keys - todo) == map[];
      while todo != {}
        invariant todo <= rewards.Keys
        invariant credited == AddAll(m, Restrict(rewards, rewards.Keys - todo))
        invariant logged == Restrict(rewards, rewards.Keys - todo) + log
        invariant total == Sum(Restrict(rewards, rewards.Keys - todo))
        decreases todo
      {
        var login :| login in todo;
        ghost var done := rewards.Keys - todo;
        var amount := rewards[login];
        AddOneMore(m, rewards, done, login);
        SumOneMore(rewards, done, login);
        LogOneMore(rewards, log, done, login);
        assert rewards.Keys - (todo - {login}) == done + {login};
        total := total + amount;
        credited := IncrBy(credited, login, amount);
        logged := if login in logged then logged else logged[login := amount];
        todo := todo - {login};
      }
      assert Restrict(rewards, rewards.Keys - todo) == rewards;
    }

    /** The loop over a block's immature credits: what it takes off the miners' field, and in all. */
    static method DebitLoop(m: Log, credits: Log) returns (debited: Log, total: int)
      ensures debited == SubAll(m, credits) && total == Sum(credits)
    {
      debited, total := m, 0;
      var todo := credits.Keys;
      assert Restrict(credits, credits.Keys - todo) == map[];
      while todo != {}
        invariant todo <= credits.Keys
        invariant debited == SubAll(m, Restrict(credits, credits.Keys - todo))
        invariant total == Sum(Restrict(credits, credits.Keys - todo))
        decreases todo
      {
        var login :| login in todo;
        ghost var done := credits.Keys - todo;
        SubOneMore(m, credits, done, login);
        SumOneMore(credits, done, login);
        assert credits.Keys - (todo - {login}) == done + {login};
        total := total + credits[login];
        debited := IncrBy(debited, login, -credits[login]);
        todo := todo - {login};
      }
      assert Restrict(credits, credits.Keys - todo) == credits;
    }

    /** `writeImmatureBlock` */
    method MoveToImmature(item: Item<string>)
      requires Valid() && candidates.format.Canonical(item.key) && BlockFits(RowOf(item.block))
      modifies `rounds, candidates, immatureBlocks
      ensures Valid()
      ensures Contents() == ToImmature(old(Contents()), Unprinted(candidates.format, item))
    {
      var b := item.block;
      if b.height != b.roundHeight {
        rounds := Rename(rounds, RoundKey(b.roundHeight, b.nonce), RoundKey(b.height, b.nonce));
      }
      candidates.Remove(item.key);
      immatureBlocks.Add(RowOf(b), b.height);
    }

    /** `writeMaturedBlock` */
    method MoveToMatured(item: Item<string>)
      requires Valid() && immatureBlocks.format.Canonical(item.key) && BlockFits(RowOf(item.block))
      modifies `rounds, immatureBlocks, maturedBlocks
      ensures Valid()
      ensures Contents() == ToMatured(old(Contents()), Unprinted(immatureBlocks.format, item))
    {
      var b := item.block;
      rounds := rounds - {RoundKey(b.roundHeight, b.nonce)};
      immatureBlocks.Remove(item.key);
      maturedBlocks.Add(RowOf(b), b.height);
    }

    method CreditImmatureRewards(key: CreditKey, roundRewards: Log)
      modifies `immature, `open, `finances
      ensures Contents() == old(Contents()).(books := CreditImmature(old(Contents()).books, key, roundRewards))
    {
      var credited, log, total := CreditLoop(immature, Lookup(open, key), roundRewards);
      immature, open, finances :=
        credited, if log == map[] then open else open[key := log], finances.(immature := finances.immature + total);
    }

    /** Takes back the immature credits that were read from the block's log, and deletes the log. */
    method RevertImmatureCredits(key: CreditKey, credits: Log)
      modifies `immature, `open, `finances, `lost
      ensures Contents() == old(Contents()).(books := RevertImmature(old(Contents()).books, key, credits))
    {
      lost := AddAll(lost, SubAll(Lookup(open, key), credits));
      var debited, total := DebitLoop(immature, credits);
      immature, open, finances := debited, open - {key}, finances.(immature := finances.immature - total);
    }

    method CreditMaturedRewards(key: CreditKey, roundRewards: Log, mined: int)
      modifies `balance, `closed, `finances
      ensures Contents() == old(Contents()).(books := CreditMatured(old(Contents()).books, key, roundRewards, mined))
    {
      var credited, log, total := CreditLoop(balance, Lookup(closed, key), roundRewards);
      balance, closed, finances :=
        credited, if log == map[] then closed else closed[key := log],
        finances.(balance := finances.balance + total, totalMined := finances.totalMined + mined);
    }

    method WriteImmatureBlock(item: Item<string>, roundRewards: Log, outcome: Outcome) returns (ok: bool)
      requires Valid() && candidates.format.Canonical(item.key) && BlockFits(RowOf(item.block))
      modifies `rounds, `immature, `open, `finances, candidates, immatureBlocks
      ensures Valid()
      ensures ok <==> outcome == Applied
      ensures Contents() == if outcome == Refused then old(Contents())
                            else ImmatureBlockWritten(old(Contents()), Unprinted(candidates.format, item), roundRewards)
    {
      if outcome != Refused {
        MoveToImmature(item);
        CreditImmatureRewards(CreditKey(item.block.height, item.block.hash), roundRewards);
      }
      ok := outcome == Applied;
    }

    /** The loop of `WritePendingOrphans`; `along` is the ledger after each round of it. */
    method MoveAllToImmature(items: seq<Item<string>>, ghost along: nat -> Ledger)
      requires Valid() && Contents() == along(0)
      requires forall item <- items :: candidates.format.Canonical(item.key) && BlockFits(RowOf(item.block))
      requires forall i: nat :: i < |items| ==>
        along(i + 1) == ToImmature(along(i), Unprinted(candidates.format, items[i]))
      modifies `rounds, candidates, immatureBlocks
      ensures Valid()
      ensures Contents() == along(|items|)
    {
      for i := 0 to |items|
        invariant Valid() && Contents() == along(i)
      {
        assert items[i] in items;
        MoveToImmature(items[i]);
      }
    }

    method WritePendingOrphans(items: seq<Item<string>>, outcome: Outcome) returns (ok: bool)
      requires Valid()
      requires forall item <- items :: candidates.format.Canonical(item.key) && BlockFits(RowOf(item.block))
      modifies `rounds, candidates, immatureBlocks
      ensures Valid()
      ensures ok <==> outcome == Applied
      ensures Contents() == if outcome == Refused then old(Contents())
                            else PendingOrphans(old(Contents()), AllUnprinted(candidates.format, items))
    {
      if outcome != Refused {
        ghost var rows := AllUnprinted(candidates.format, items);
        ghost var along := OrphansAlong(Contents(), rows);
        AllOrphansAlong(Contents(), rows);
        forall i: nat | i < |items|
          ensures along(i + 1) == ToImmature(along(i), Unprinted(candidates.format, items[i]))
        {
          OneMoreOrphan(Contents(), rows, i);
        }
        MoveAllToImmature(items, along);
      }
      ok := outcome == Applied;
    }

    /** Moves a block to the matured ones and takes back its immature credits. */
    method MatureAndRevert(item: Item<string>, logRead: bool)
      requires Valid() && immatureBlocks.format.Canonical(item.key) && BlockFits(RowOf(item.block))
      modifies `rounds, `immature, `open, `finances, `lost, immatureBlocks, maturedBlocks
      ensures Valid()
      ensures Contents() == OrphanBlockWritten(old(Contents()), Unprinted(immatureBlocks.format, item), logRead)
    {
      var creditKey := CreditKey(item.block.roundHeight, item.block.hash);
      var immatureCredits := if logRead then Lookup(open, creditKey) else map[];
      MoveToMatured(item);
      RevertImmatureCredits(creditKey, immatureCredits);
    }

    /** The log is read under WATCH, so the transaction runs only if it is still what was read; but
        an error of the read itself is dropped, and the transaction then runs as for an empty log. */
    method WriteOrphan(item: Item<string>, logRead: bool, outcome: Outcome) returns (ok: bool)
      requires Valid() && immatureBlocks.format.Canonical(item.key) && BlockFits(RowOf(item.block))
      modifies `rounds, `immature, `open, `finances, `lost, immatureBlocks, maturedBlocks
      ensures Valid()
      ensures ok <==> outcome == Applied
      ensures Contents() == if outcome == Refused then old(Contents())
                            else OrphanBlockWritten(old(Contents()), Unprinted(immatureBlocks.format, item), logRead)
    {
      if outcome != Refused {
        MatureAndRevert(item, logRead);
      }
      ok := outcome == Applied;
    }

    method WriteMaturedBlock(item: Item<string>, roundRewards: Log, logRead: bool, outcome: Outcome) returns (ok: bool)
      requires Valid() && immatureBlocks.format.Canonical(item.key) && BlockFits(RowOf(item.block))
        && item.block.reward.Some?
      modifies `rounds, `immature, `open, `balance, `closed, `finances, `lost, immatureBlocks, maturedBlocks
      ensures Valid()
      ensures ok <==> outcome == Applied
      ensures Contents() == if outcome == Refused then old(Contents())
                            else MaturedBlockWritten(old(Contents()), Unprinted(immatureBlocks.format, item),
                                                     roundRewards, logRead)
    {
      if outcome != Refused {
        MatureAndRevert(item, logRead);
        CreditMaturedRewards(CreditKey(item.block.height, item.block.hash), roundRewards, item.block.reward.value);
      }
      ok := outcome == Applied;
    }

    method UpdateBalance(login: string, amount: int, ts: int, outcome: Outcome) returns (ok: bool)
      modifies `balance, `pending, `finances, `payments
      ensures ok <==> outcome == Applied
      ensures MoneyState() == if outcome == Refused then old(MoneyState()) else Debit(old(MoneyState()), login, amount)
      ensures payments == if outcome == Refused then old(payments)
                          else Payments.Listed(old(payments), login, amount, ts)
      ensures outcome != Refused ==>
        && Moved(old(balance), balance, login, -amount) && Moved(old(pending), pending, login, amount)
        && payments == old(payments).(pending := old(payments).pending[login + ":" + FormatInt(amount) := ts])
    {
      ColonsBetween(login, FormatInt(amount), "");
      if outcome != Refused {
        balance := IncrBy(balance, login, -amount);
        pending := IncrBy(pending, login, amount);
        finances := finances.(balance := finances.balance - amount, pending := finances.pending + amount);
        payments := payments.(pending := payments.pending[Payments.Member(login, amount) := ts]);
      }
      ok := outcome == Applied;
    }

    method RollbackBalance(login: string, amount: int, outcome: Outcome) returns (ok: bool)
      modifies `balance, `pending, `finances, `payments
      ensures ok <==> outcome == Applied
      ensures MoneyState() == if outcome == Refused then old(MoneyState())
                              else Rollback(old(MoneyState()), login, amount)
      ensures payments == if outcome == Refused then old(payments) else Payments.Delisted(old(payments), login, amount)
      ensures outcome != Refused ==>
        && Moved(old(balance), balance, login, amount) && Moved(old(pending), pending, login, -amount)
        && payments == old(payments).(pending := old(payments).pending - {login + ":" + FormatInt(amount)})
    {
      ColonsBetween(login, FormatInt(amount), "");
      if outcome != Refused {
        balance := IncrBy(balance, login, amount);
        pending := IncrBy(pending, login, -amount);
        finances := finances.(balance := finances.balance + amount, pending := finances.pending - amount);
        payments := payments.(pending := payments.pending - {Payments.Member(login, amount)});
      }
      ok := outcome == Applied;
    }

    method WritePayment(login: string, txHash: string, amount: int, ts: int, outcome: Outcome) returns (ok: bool)
      modifies `pending, `paid, `finances, `payments
      ensures ok <==> outcome == Applied
      ensures MoneyState() == if outcome == Refused then old(MoneyState()) else Pay(old(MoneyState()), login, amount)
      ensures payments == if outcome == Refused then old(payments)
                          else Payments.Recorded(old(payments), login, txHash, amount, ts)
      ensures outcome != Refused ==>
        && Moved(old(pending), pending, login, -amount) && Moved(old(paid), paid, login, amount)
        && Payments.IsRecorded(old(payments), payments, login, txHash, FormatInt(amount), ts)
    {
      Payments.RecordingRecords(payments, login, txHash, amount, ts);
      if outcome != Refused {
        pending := IncrBy(pending, login, -amount);
        paid := IncrBy(paid, login, amount);
        finances := finances.(pending := finances.pending - amount, paid := finances.paid + amount);
        payments := Payments.Recorded(payments, login, txHash, amount, ts);
      }
      ok := outcome == Applied;
    }

    /** SETNX: the lock is taken only by who finds it free; an error of the command is a failure to take it. */
    method LockPayouts(login: string, amount: int, outcome: Outcome) returns (ok: bool)
      modifies `payments
      ensures ok <==> outcome == Applied && old(payments).lock.None?
      ensures payments == if outcome == Refused || old(payments).lock.Some? then old(payments)
                          else old(payments).(lock := Some(Payments.Member(login, amount)))
    {
      var free := payments.lock.None?;
      if outcome != Refused && free {
        payments := payments.(lock := Some(Payments.Member(login, amount)));
      }
      ok := outcome == Applied && free;
    }

    /** The pending payments, in any order, each read from its own row. */
    method GetPendingPayments() returns (result: seq<Payments.PendingPayment>, ghost members: seq<string>)
      ensures Payments.Lists(members, payments.pending)
      ensures |result| == |members|
      ensures forall i :: 0 <= i < |members| ==>
        && result[i].timestamp == payments.pending[members[i]]
        && result[i].address == Payments.LoginOf(members[i]) && result[i].amount == Payments.AmountOf(members[i])
      ensures forall p <- result :: exists m <- payments.pending :: p == Payments.ReadRow(m, payments.pending[m])
      ensures forall m <- payments.pending :: Payments.ReadRow(m, payments.pending[m]) in result
    {
      result, members := [], [];
      var todo := payments.pending.Keys;
      while todo != {}
        invariant todo <= payments.pending.Keys && |result| == |members|
        invariant forall m :: m in payments.pending <==> m in members || m in todo
        invariant forall i :: 0 <= i < |members| ==> members[i] !in todo
        invariant forall i, j :: 0 <= i < j < |members| ==> members[i] != members[j]
        invariant forall i :: 0 <= i < |members| ==>
          result[i] == Payments.ReadRow(members[i], payments.pending[members[i]])
        decreases todo
      {
        var m :| m in todo;
        result := result + [Payments.ReadRow(m, payments.pending[m])];
        members := members + [m];
        todo := todo - {m};
      }
      forall m <- payments.pending ensures Payments.ReadRow(m, payments.pending[m]) in result {
        var i :| 0 <= i < |members| && members[i] == m;
        assert result[i] == Payments.ReadRow(m, payments.pending[m]);
      }
      forall p <- result ensures exists m <- payments.pending :: p == Payments.ReadRow(m, payments.pending[m]) {
        var i :| 0 <= i < |result| && result[i] == p;
        assert members[i] in payments.pending;
      }
    }

    /** The due candidates, as `convertCandidateResults` builds them from their rows. */
    method GetCandidates(maxHeight: int) returns (items: seq<Item<string>>, ghost order: seq<CandidateRow>)
      requires Valid()
      ensures Lists(order, Contents().queues.candidates, maxHeight)
      ensures forall r <- order :: r in Contents().queues.candidates
      ensures |items| == |order| && AllUnprinted(candidates.format, items)
        == CandidateItems(order, Contents().queues.candidates)
      ensures forall i :: 0 <= i < |items| ==>
        ReadsCandidate(items[i].block, order[i], Contents().queues.candidates[order[i]])
      ensures forall item <- items ::
        candidates.format.Canonical(item.key) && CandidateFits(candidates.format.parse(item.key))
    {
      var found: seq<string>;
      found, order := candidates.RangeByScore(maxHeight);
      items := [];
      for i := 0 to |found|
        invariant |items| == i
        invariant forall k :: 0 <= k < i ==>
          items[k].key == found[k] && items[k].block == FromCandidate(order[k], candidates.rows[order[k]])
            && CandidateFits(order[k])
      {
        var row := candidates.format.parse(found[i]);
        assert row == order[i] by { assert candidates.format.Keeps(order[i]); }
        items := items + [Item(found[i], FromCandidate(row, candidates.members[found[i]]))];
      }
    }

    /** The due immature blocks, as `convertBlockResults` builds them from their rows. */
    method GetImmatureBlocks(maxHeight: int) returns (items: seq<Item<string>>, ghost order: seq<BlockRow>)
      requires Valid()
      ensures Lists(order, Contents().queues.immature, maxHeight)
      ensures forall r <- order :: r in Contents().queues.immature
      ensures |items| == |order| && AllUnprinted(immatureBlocks.format, items)
        == ImmatureItems(order, Contents().queues.immature)
      ensures forall i :: 0 <= i < |items| ==>
        ReadsBlock(items[i].block, order[i], Contents().queues.immature[order[i]])
      ensures forall item <- items ::
        immatureBlocks.format.Canonical(item.key) && BlockFits(immatureBlocks.format.parse(item.key))
    {
      var found: seq<string>;
      found, order := immatureBlocks.RangeByScore(maxHeight);
      items := [];
      for i := 0 to |found|
        invariant |items| == i
        invariant forall k :: 0 <= k < i ==>
          items[k].key == found[k] && items[k].block == FromBlock(order[k], immatureBlocks.rows[order[k]])
            && BlockFits(order[k])
      {
        var row := immatureBlocks.format.parse(found[i]);
        assert row == order[i] by { assert immatureBlocks.format.Keeps(order[i]); }
        items := items + [Item(found[i], FromBlock(row, immatureBlocks.members[found[i]]))];
      }
    }

    method GetRoundShares(height: int, nonce: string) returns (result: Log)
      ensures result == if RoundKey(height, nonce) in rounds then rounds[RoundKey(height, nonce)] else map[]
    {
      result := map[];
      if RoundKey(height, nonce) in rounds {
        result := rounds[RoundKey(height, nonce)];
      }
    }
  }
}
