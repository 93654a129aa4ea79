/** What every step of the pool keeps: the ledger's ZSETs, rounds and credit logs always agree
    with one history of where each found block is. */
module Invariants {
  import opened FiniteSums
  import opened Rewards
  import opened Rows
  import opened Books
  import opened Ledger
  import opened Lifecycle

  ghost predicate SharesAddUp(s: Shares) {
    && s.roundShares == Sum(s.current)
    && (forall login <- s.current :: s.current[login] >= 1)
  }

  /** Every row lies in the one ZSET its block's stage names, and nowhere else. */
  ghost predicate QueuesMatch(q: Queues, stage: map<string, Stage>) {
    && (forall r <- q.candidates :: r.nonce in stage && stage[r.nonce] == Candidate(r, q.candidates[r]))
    && (forall r <- q.immature :: r.nonce in stage && stage[r.nonce] == Immature(r, q.immature[r]))
    && (forall r <- q.matured :: r.nonce in stage && stage[r.nonce] == Matured(r, q.matured[r]))
    && (forall n <- stage :: RowListed(q, n, stage[n]))
  }

  ghost predicate RowListed(q: Queues, n: string, s: Stage) {
    match s
    case Frozen(r, _) => r.nonce == n
    case Candidate(r, _) => r.nonce == n && r in q.candidates
    case Immature(r, _) => r.nonce == n && r in q.immature
    case Matured(r, _) => r.nonce == n && r in q.matured
  }

  /** A round hash exists exactly until its block matures, and sums to the block's share count. */
  ghost predicate RoundsMatch(rounds: map<RoundKey, Log>, stage: map<string, Stage>) {
    && (forall k <- rounds :: k.nonce in stage && stage[k.nonce].height == k.height && !stage[k.nonce].Matured?)
    && (forall n <- stage :: !stage[n].Matured? ==>
          RoundKey(stage[n].height, n) in rounds && Sum(rounds[RoundKey(stage[n].height, n)]) == SharesOf(stage[n]))
    && (forall n <- stage :: SharesOf(stage[n]) >= 1)
  }

  /** The credits a block earns, from its row and its round alone. */
  function RowCredits(fees: FeeConfig, r: BlockRow, round: Log): Log {
    if r.totalShares == 0 then map[]
    else BlockCredits(fees, HandledReward(fees, r.coinBaseValue, r.blkTotalFee), HandledExtra(fees, r.blkTotalFee),
                      round, r.totalShares)
  }

  type CreditRule = (BlockRow, Log) -> Log

  function CreditsUnder(fees: FeeConfig): CreditRule {
    (r: BlockRow, round: Log) => RowCredits(fees, r, round)
  }

  /** The open log of an immature block holds exactly what maturing the block will pay. */
  ghost predicate CreditLogged(open: map<CreditKey, Log>, rounds: map<RoundKey, Log>, credits: CreditRule, n: string,
                               s: Stage)
    requires s.Immature?
  {
    var key, round := CreditKey(s.height, s.row.hash), RoundKey(s.height, n);
    key in open && round in rounds && open[key] == credits(s.row, rounds[round])
  }

  /** While a block is immature, a log of it is that of its row's hash. */
  predicate OwnLog(key: CreditKey, s: Stage) {
    s.Immature? ==> key == CreditKey(s.height, s.row.hash)
  }

  /** Logs belong to blocks that got that far: open ones to immature or matured blocks, closed ones to
      matured blocks. */
  ghost predicate LogsKnown(open: set<CreditKey>, closed: set<CreditKey>, stage: map<string, Stage>,
                            nonceOf: string -> string) {
    && (forall k <- open :: |k.hash| >= 10 && nonceOf(k.hash) in stage && Rank(stage[nonceOf(k.hash)]) >= 2)
    && (forall k <- open :: OwnLog(k, stage[nonceOf(k.hash)]))
    && (forall k <- closed :: nonceOf(k.hash) in stage && stage[nonceOf(k.hash)].Matured?)
  }

  ghost predicate ImmatureLogged(open: map<CreditKey, Log>, rounds: map<RoundKey, Log>, stage: map<string, Stage>,
                                 credits: CreditRule, nonceOf: string -> string) {
    && (forall n <- stage :: stage[n].Immature? && !stage[n].row.orphan ==>
          nonceOf(stage[n].row.hash) == n && CreditLogged(open, rounds, credits, n, stage[n]))
    && (forall n <- stage :: stage[n].Immature? && stage[n].row.orphan ==> stage[n].row.hash == "0x0")
  }

  ghost predicate LogsMatch(b: Books, rounds: map<RoundKey, Log>, stage: map<string, Stage>, credits: CreditRule,
                            nonceOf: string -> string) {
    && LogsKnown(b.open.Keys, b.closed.Keys, stage, nonceOf)
    && ImmatureLogged(b.open, rounds, stage, credits, nonceOf)
  }

  ghost predicate OrphanItem(item: Item<CandidateRow>, stage: map<string, Stage>) {
    var r := item.key;
    && r.nonce in stage && stage[r.nonce].Candidate? && stage[r.nonce].candidate == r
    && item.block == FromCandidate(r, stage[r.nonce].height).(orphan := true)
  }

  ghost predicate ConfirmedItem(item: Item<CandidateRow>, stage: map<string, Stage>, fees: FeeConfig,
                                nonceOf: string -> string) {
    var r, c := item.key, ChainBlock(item.block.hash, nonceOf(item.block.hash));
    && r.nonce in stage && stage[r.nonce].Candidate? && stage[r.nonce].candidate == r
    && item.block == HandleBlock(fees, FromCandidate(r, stage[r.nonce].height), c)
    && c.nonce == r.nonce && |c.hash| >= 10
  }

  ghost predicate LostItem(item: Item<BlockRow>, stage: map<string, Stage>) {
    var r := item.key;
    && r.nonce in stage && stage[r.nonce].Immature? && stage[r.nonce].row == r
    && item.block == FromBlock(r, stage[r.nonce].height).(orphan := true)
  }

  ghost predicate RipeItem(item: Item<BlockRow>, stage: map<string, Stage>, fees: FeeConfig,
                           nonceOf: string -> string) {
    var r, c := item.key, ChainBlock(item.block.hash, nonceOf(item.block.hash));
    && r.nonce in stage && stage[r.nonce].Immature? && stage[r.nonce].row == r
    && item.block == HandleBlock(fees, FromBlock(r, stage[r.nonce].height), c)
    && c.nonce == r.nonce && |c.hash| >= 10
  }

  ghost predicate Distinct<K>(items: seq<Item<K>>) {
    forall i, j :: 0 <= i < j < |items| ==> items[i].block.nonce != items[j].block.nonce
  }

  ghost predicate Apart<K>(a: seq<Item<K>>, b: seq<Item<K>>) {
    forall i, j :: 0 <= i < |a| && 0 <= j < |b| ==> a[i].block.nonce != b[j].block.nonce
  }

  /** What a running pass still has to write, it has to write to blocks that are where they were read. */
  ghost predicate WorkMatches(work: Work, stage: map<string, Stage>, fees: FeeConfig, nonceOf: string -> string) {
    match work
    case Idle => true
    case PendingLoaded(orphans, confirmed) =>
      && (forall item <- orphans :: OrphanItem(item, stage))
      && (forall item <- confirmed :: ConfirmedItem(item, stage, fees, nonceOf))
      && Distinct(orphans) && Distinct(confirmed) && Apart(orphans, confirmed)
    case Crediting(confirmed) =>
      (forall item <- confirmed :: ConfirmedItem(item, stage, fees, nonceOf)) && Distinct(confirmed)
    case MatureLoaded(lost, ripe) =>
      && (forall item <- lost :: LostItem(item, stage))
      && (forall item <- ripe :: RipeItem(item, stage, fees, nonceOf))
      && Distinct(lost) && Distinct(ripe) && Apart(lost, ripe)
  }

  ghost predicate LedgerMatches(l: Ledger, stage: map<string, Stage>, credits: CreditRule, nonceOf: string -> string) {
    && SharesAddUp(l.shares)
    && QueuesMatch(l.queues, stage)
    && RoundsMatch(l.shares.rounds, stage)
    && Balanced(l.books)
    && LogsMatch(l.books, l.shares.rounds, stage, credits, nonceOf)
    && (forall n <- stage :: IsNonce(n))
  }

  ghost predicate Inv(s: System, cfg: UnlockerConfig, nonceOf: string -> string) {
    && LedgerMatches(s.ledger, s.stage, CreditsUnder(cfg.fees), nonceOf)
    && WorkMatches(s.work, s.stage, cfg.fees, nonceOf)
    && (s.halted ==> s.work.Idle?)
  }

  lemma InvAtStart(cfg: UnlockerConfig, nonceOf: string -> string)
    ensures Inv(START, cfg, nonceOf)
  {
    forall login: string ensures Logged(EMPTY_BOOKS.open, login) == 0 {
      NothingLogged(EMPTY_BOOKS.open, login);
    }
    NothingLogged(EMPTY_BOOKS.open, "");
  }

  lemma FoundKeepsQueues(q: Queues, stage: map<string, Stage>, row: CandidateRow, height: int)
    requires QueuesMatch(q, stage) && row.nonce !in stage
    ensures QueuesMatch(q, stage[row.nonce := Frozen(row, height)])
  {
  }

  lemma ListingKeepsQueues(q: Queues, stage: map<string, Stage>, n: string)
    requires QueuesMatch(q, stage) && n in stage && stage[n].Frozen?
    ensures QueuesMatch(q.(candidates := q.candidates[stage[n].candidate := stage[n].height]),
                        stage[n := Candidate(stage[n].candidate, stage[n].height)])
  {
  }

  lemma ToImmatureKeepsQueues(q: Queues, stage: map<string, Stage>, r: CandidateRow, row: BlockRow, height: int)
    requires QueuesMatch(q, stage) && r.nonce in stage && stage[r.nonce].Candidate? && stage[r.nonce].candidate == r
    requires row.nonce == r.nonce
    ensures QueuesMatch(q.(candidates := q.candidates - {r}, immature := q.immature[row := height]),
                        stage[r.nonce := Immature(row, height)])
  {
  }

  lemma ToMaturedKeepsQueues(q: Queues, stage: map<string, Stage>, r: BlockRow, row: BlockRow, height: int)
    requires QueuesMatch(q, stage) && r.nonce in stage && stage[r.nonce].Immature? && stage[r.nonce].row == r
    requires row.nonce == r.nonce
    ensures QueuesMatch(q.(immature := q.immature - {r}, matured := q.matured[row := height]),
                        stage[r.nonce := Matured(row, height)])
  {
  }

  lemma FreezeKeepsRounds(rounds: map<RoundKey, Log>, stage: map<string, Stage>, row: CandidateRow, height: int,
                          round: Log)
    requires RoundsMatch(rounds, stage) && row.nonce !in stage
    requires row.totalShares == Sum(round) && row.totalShares >= 1
    ensures RoundsMatch(rounds[RoundKey(height, row.nonce) := round], stage[row.nonce := Frozen(row, height)])
  {
  }

  /** Moving a block on while it keeps its height and share count leaves its round where it is. */
  lemma RestageKeepsRounds(rounds: map<RoundKey, Log>, stage: map<string, Stage>, n: string, s: Stage)
    requires RoundsMatch(rounds, stage) && n in stage && !stage[n].Matured? && !s.Matured?
    requires s.height == stage[n].height && SharesOf(s) == SharesOf(stage[n])
    ensures RoundsMatch(rounds, stage[n := s])
  {
  }

  lemma MatureKeepsRounds(rounds: map<RoundKey, Log>, stage: map<string, Stage>, n: string, s: Stage)
    requires RoundsMatch(rounds, stage) && n in stage && !stage[n].Matured? && s.Matured?
    requires s.height == stage[n].height && SharesOf(s) == SharesOf(stage[n])
    ensures RoundsMatch(rounds - {RoundKey(s.height, n)}, stage[n := s])
  {
  }
}
