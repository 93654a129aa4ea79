/** The pool's Redis keys as values, and every MULTI/EXEC that moves a round or a block as one
    function from the state before to the state after (storage/redis.go). */
module Ledger {
  import opened FiniteSums
  import opened Rows
  import opened Books

  /** `shares:round<height>:<nonce>` */
  datatype RoundKey = RoundKey(height: int, nonce: string)

  datatype Shares = Shares(
    current: Log,                    // shares:roundCurrent
    roundShares: int,                // stats.roundShares, zero when deleted
    rounds: map<RoundKey, Log>)      // frozen rounds

  /** The ZSETs `blocks:candidates`, `blocks:immature`, `blocks:matured`: member to score. */
  datatype Queues = Queues(
    candidates: map<CandidateRow, int>,
    immature: map<BlockRow, int>,
    matured: map<BlockRow, int>)

  datatype Ledger = Ledger(shares: Shares, queues: Queues, books: Books)

  const EMPTY_LEDGER := Ledger(Shares(map[], 0, map[]), Queues(map[], map[], map[]), EMPTY_BOOKS)

  /** `WriteShare` after its duplicate check. */
  function AcceptShare(s: Shares, login: string, diff: int): Shares {
    s.(current := IncrBy(s.current, login, diff), roundShares := s.roundShares + diff)
  }

  /** The round a block closes: the current one with the block's own share in it. */
  function ClosingRound(s: Shares, login: string, diff: int): Log {
    IncrBy(s.current, login, diff)
  }

  /** `WriteBlock`'s transaction: count the share, drop `roundShares`, rename the round. */
  function FreezeRound(s: Shares, login: string, diff: int, key: RoundKey): Shares {
    Shares(map[], 0, s.rounds[key := ClosingRound(s, login, diff)])
  }

  /** A share has been counted: its login's field of the current round has risen by the difficulty, no
      other has changed, and the frozen rounds are as they were. */
  ghost predicate ShareCounted(before: Shares, after: Shares, login: string, diff: int) {
    && (forall l: string :: Get(after.current, l) == Get(before.current, l) + if l == login then diff else 0)
    && after.current.Keys == before.current.Keys + {login}
    && after.roundShares == before.roundShares + diff && after.rounds == before.rounds
  }

  /** A round holds the shares of another and one more. */
  ghost predicate HoldsWith(round: Log, before: Log, login: string, diff: int) {
    && round.Keys == before.Keys + {login}
    && forall l: string :: Get(round, l) == Get(before, l) + if l == login then diff else 0
  }

  /** A block's share has been counted and the round closed with it: what the current round held is
      under the block's key, its login's field greater by the difficulty; the new round is empty, and
      the other frozen rounds are as they were. */
  ghost predicate RoundClosed(before: Shares, after: Shares, login: string, diff: int, height: int, nonce: string) {
    var key := RoundKey(height, nonce);
    && after.current == map[] && after.roundShares == 0
    && key in after.rounds && HoldsWith(after.rounds[key], before.current, login, diff)
    && after.rounds.Keys == before.rounds.Keys + {key}
    && forall k <- before.rounds :: k != key ==> after.rounds[k] == before.rounds[k]
  }

  lemma AcceptCounts(s: Shares, login: string, diff: int)
    ensures ShareCounted(s, AcceptShare(s, login, diff), login, diff)
  {
  }

  lemma FreezeCloses(s: Shares, login: string, diff: int, height: int, nonce: string)
    ensures RoundClosed(s, FreezeRound(s, login, diff, RoundKey(height, nonce)), login, diff, height, nonce)
  {
  }

  /** RENAME; inside an EXEC a missing source is an error that changes nothing. */
  function Rename(rounds: map<RoundKey, Log>, from: RoundKey, to: RoundKey): map<RoundKey, Log> {
    if from in rounds then (rounds - {from})[to := rounds[from]] else rounds
  }

  /** The round is under the new key and no longer under the old one; the others stay. */
  lemma RenameMoves(rounds: map<RoundKey, Log>, from: RoundKey, to: RoundKey, k: RoundKey)
    ensures var now := Rename(rounds, from, to);
      && (from in rounds ==> to in now && now[to] == rounds[from] && (from != to ==> from !in now))
      && (k != to && (k != from || from !in rounds) ==>
            (k in now <==> k in rounds) && (k in now ==> now[k] == rounds[k]))
      && (from !in rounds ==> now == rounds)
  {
  }

  /** `writeImmatureBlock` */
  function ToImmature(l: Ledger, item: Item<CandidateRow>): Ledger {
    var b := item.block;
    l.(shares := if b.height == b.roundHeight then l.shares
                 else l.shares.(rounds :=
                                Rename(l.shares.rounds, RoundKey(b.roundHeight, b.nonce), RoundKey(b.height, b.nonce))),
       queues := l.queues.(candidates := l.queues.candidates - {item.key},
                           immature := l.queues.immature[RowOf(b) := b.height]))
  }

  /** `writeMaturedBlock` */
  function ToMatured(l: Ledger, item: Item<BlockRow>): Ledger {
    var b := item.block;
    l.(shares := l.shares.(rounds := l.shares.rounds - {RoundKey(b.roundHeight, b.nonce)}),
       queues := l.queues.(immature := l.queues.immature - {item.key},
                           matured := l.queues.matured[RowOf(b) := b.height]))
  }

  function PendingOrphans(l: Ledger, items: seq<Item<CandidateRow>>): Ledger {
    if items == [] then l
    else ToImmature(PendingOrphans(l, items[..|items| - 1]), items[|items| - 1])
  }

  ghost function ImmatureBlockWritten(l: Ledger, item: Item<CandidateRow>, rewards: Log): Ledger {
    var moved := ToImmature(l, item);
    moved.(books := CreditImmature(moved.books, CreditKey(item.block.height, item.block.hash), rewards))
  }

  /** The log of a block's provisional credit, as its later writers look it up. */
  function CreditLog(b: Books, block: BlockData): Log {
    Lookup(b.open, CreditKey(block.roundHeight, block.hash))
  }

  /** `WriteOrphan`; `logRead` says whether the read of the credit log before the EXEC succeeds. */
  ghost function OrphanBlockWritten(l: Ledger, item: Item<BlockRow>, logRead: bool): Ledger {
    var moved := ToMatured(l, item);
    var key := CreditKey(item.block.roundHeight, item.block.hash);
    moved.(books := RevertImmature(moved.books, key, ReadLog(l.books, key, logRead)))
  }

  ghost function MaturedBlockWritten(l: Ledger, item: Item<BlockRow>, rewards: Log, logRead: bool): Ledger {
    var reverted := OrphanBlockWritten(l, item, logRead);
    var mined := if item.block.reward.Some? then item.block.reward.value else 0;
    reverted.(books := CreditMatured(reverted.books, CreditKey(item.block.height, item.block.hash), rewards, mined))
  }
}
