/** The pool as a step machine: shares and blocks arriving, payments, and one unlocker that can
    fail, halt and be restarted between any two storage steps (payouts/unlocker.go over
    storage/redis.go). `stage` is a history variable: where each block ever found is now. */
module Lifecycle {
  import opened Wrappers
  import opened FiniteSums
  import opened Rewards
  import opened Rows
  import opened Books
  import opened Ledger

  datatype UnlockerConfig = UnlockerConfig(fees: FeeConfig, depth: int, immatureDepth: int)

  /** The node's answer for a height: the block's hash and its nonce printed with "%08x". */
  datatype ChainBlock = ChainBlock(hash: string, nonce: string)

  predicate IsHexDigit(c: char) { '0' <= c <= '9' || 'a' <= c <= 'f' }

  /** `noncePattern`, and the form of every "%08x". */
  predicate IsNonce(s: string) { |s| == 8 && forall c <- s :: IsHexDigit(c) }

  /** `strings.EqualFold` where one side is hexadecimal text. */
  predicate EqualFold(a: string, b: string) { ToLower(a) == ToLower(b) }

  lemma NonceFolds(a: string, b: string)
    requires IsNonce(a) && IsNonce(b)
    ensures EqualFold(a, b) <==> a == b
  {
    LowerKeepsNonce(a);
    LowerKeepsNonce(b);
  }

  lemma LowerKeepsNonce(a: string)
    requires IsNonce(a)
    ensures ToLower(a) == a
  {
    forall i | 0 <= i < |a| ensures ToLower(a)[i] == a[i] {
      assert IsHexDigit(a[i]);
    }
  }

  /** `handleBlock` */
  function HandleBlock(fees: FeeConfig, b: BlockData, c: ChainBlock): BlockData {
    var extra := HandledExtra(fees, b.blkTotalFee);
    b.(orphan := false, hash := c.hash,
       reward := Some(HandledReward(fees, b.coinBaseValue, b.blkTotalFee)),
       extraReward := if extra.Some? then extra else b.extraReward)
  }

  predicate Confirms(b: BlockData, c: ChainBlock) {
    |b.nonce| > 0 && EqualFold(b.nonce, c.nonce)
  }

  /** A block as the chain's answer leaves it: handled, or marked an orphan. */
  function Judge<K>(fees: FeeConfig, item: Item<K>, c: ChainBlock): Item<K> {
    if Confirms(item.block, c) then item.(block := HandleBlock(fees, item.block, c))
    else item.(block := item.block.(orphan := true))
  }

  datatype UnlockResult<+K> = UnlockResult(matured: seq<Item<K>>, orphans: seq<Item<K>>)

  /** `unlockCandidates`: the blocks the chain confirms and those it does not, or nothing if the
      node fails to answer for any of them. */
  function UnlockCandidates<K>(fees: FeeConfig, items: seq<Item<K>>,
                               answers: seq<Option<ChainBlock>>): Option<UnlockResult<K>>
    requires |answers| == |items|
  {
    if items == [] then Some(UnlockResult([], []))
    else
      var n := |items| - 1;
      var front := UnlockCandidates(fees, items[..n], answers[..n]);
      if front.None? || answers[n].None? then None
      else Some(Sorted(front.value, Judge(fees, items[n], answers[n].value)))
  }

  /** A judged block goes to the list its orphan mark names. */
  function Sorted<K>(r: UnlockResult<K>, item: Item<K>): UnlockResult<K> {
    if item.block.orphan then r.(orphans := r.orphans + [item]) else r.(matured := r.matured + [item])
  }

  /** `calculateRewards`: everything credited for a handled block, given the shares of its round. */
  function CalculateRewards(fees: FeeConfig, b: BlockData, shares: Log): Log
    requires b.reward.Some? && b.totalShares != 0
  {
    BlockCredits(fees, b.reward.value, b.extraReward, shares, b.totalShares)
  }

  /** A block has the reward and the extra reward that its amounts make. */
  predicate IsHandled(fees: FeeConfig, b: BlockData) {
    && b.reward == Some(if fees.keepTxFees then b.coinBaseValue else b.coinBaseValue + b.blkTotalFee)
    && b.extraReward == (if fees.keepTxFees then Some(b.blkTotalFee) else None)
  }

  lemma HandledIsPaidOut(fees: FeeConfig, b: BlockData, shares: Log)
    requires IsHandled(fees, b) && b.totalShares != 0
    ensures PaidOut(CalculateRewards(fees, b, shares), fees, b.coinBaseValue, b.blkTotalFee, shares, b.totalShares)
  {
    CreditsArePaidOut(fees, b.coinBaseValue, b.blkTotalFee, shares, b.totalShares);
  }

  lemma HandlingHandles(fees: FeeConfig, b: BlockData, c: ChainBlock)
    requires b.extraReward.None?
    ensures IsHandled(fees, HandleBlock(fees, b, c))
    ensures HandleBlock(fees, b, c).hash == c.hash
  {
  }

  /** Where a found block is. A frozen block's candidate row is not written yet. */
  datatype Stage =
    | Frozen(candidate: CandidateRow, height: int)
    | Candidate(candidate: CandidateRow, height: int)
    | Immature(row: BlockRow, height: int)
    | Matured(row: BlockRow, height: int)

  function SharesOf(s: Stage): int {
    if s.Frozen? || s.Candidate? then s.candidate.totalShares else s.row.totalShares
  }

  function Rank(s: Stage): nat {
    match s
    case Frozen(_, _) => 0
    case Candidate(_, _) => 1
    case Immature(_, _) => 2
    case Matured(_, _) => 3
  }

  /** What the unlocker's running pass still has to write. */
  datatype Work =
    | Idle
    | PendingLoaded(orphans: seq<Item<CandidateRow>>, confirmed: seq<Item<CandidateRow>>)
    | Crediting(confirmed: seq<Item<CandidateRow>>)
    | MatureLoaded(lost: seq<Item<BlockRow>>, ripe: seq<Item<BlockRow>>)

  datatype System = System(ledger: Ledger, stage: map<string, Stage>, work: Work, halted: bool)

  const START := System(EMPTY_LEDGER, map[], Idle, false)

  /** The ways a transaction ends for its caller. */
  datatype Outcome = Applied | Refused | Unacknowledged

  datatype Step =
    | Share(login: string, diff: int)
    | Found(login: string, diff: int, height: int, row: CandidateRow)
    | ListCandidate(nonce: string)
    | PayDebit(login: string, amount: int)
    | PayRollback(login: string, amount: int)
    | PayWritten(login: string, amount: int)
    | LoadFails
    | LoadCandidates(due: int, order: seq<CandidateRow>, answers: seq<Option<ChainBlock>>)
    | LoadImmature(due: int, rows: seq<BlockRow>, answers: seq<Option<ChainBlock>>)
    | WritePendingOrphans(outcome: Outcome)
    | WriteNextImmature(outcome: Outcome)
    | WriteNextOrphan(outcome: Outcome, logRead: bool)
    | WriteNextMatured(outcome: Outcome, logRead: bool)
    | ReadFails
    | Restart

  /** A listing of the members of a ZSET with scores from 0 to `due`, in any order. */
  ghost predicate Lists<R(!new)>(order: seq<R>, zset: map<R, int>, due: int) {
    && (forall i, j :: 0 <= i < j < |order| ==> order[i] != order[j])
    && (forall r :: r in order <==> r in zset && 0 <= zset[r] <= due)
  }

  function CandidateItems(order: seq<CandidateRow>, zset: map<CandidateRow, int>): seq<Item<CandidateRow>>
    requires forall r <- order :: r in zset
  {
    seq(|order|, i requires 0 <= i < |order| => Item(order[i], FromCandidate(order[i], zset[order[i]])))
  }

  function ImmatureItems(rows: seq<BlockRow>, zset: map<BlockRow, int>): seq<Item<BlockRow>>
    requires forall r <- rows :: r in zset
  {
    seq(|rows|, i requires 0 <= i < |rows| => Item(rows[i], FromBlock(rows[i], zset[rows[i]])))
  }

  /** The chain answers with real blocks: `nonceOf` gives the nonce a hash commits to. */
  ghost predicate ChainAnswers(answers: seq<Option<ChainBlock>>, nonceOf: string -> string) {
    forall a <- answers :: a.Some? ==>
      |a.value.hash| >= 10 && IsNonce(a.value.nonce) && a.value.nonce == nonceOf(a.value.hash)
  }

  /** When a step can happen. A found block brings a fresh nonce and a positive share. */
  ghost predicate Enabled(s: System, step: Step, cfg: UnlockerConfig, nonceOf: string -> string) {
    match step
    case Share(_, diff) => diff >= 1
    case Found(login, diff, height, row) =>
      && diff >= 1 && IsNonce(row.nonce) && row.nonce !in s.stage
      && row.totalShares == Sum(ClosingRound(s.ledger.shares, login, diff))
    case ListCandidate(nonce) => nonce in s.stage && s.stage[nonce].Frozen?
    case PayDebit(_, _) => true
    case PayRollback(_, _) => true
    case PayWritten(_, _) => true
    case LoadFails => !s.halted && s.work.Idle?
    case LoadCandidates(due, order, answers) =>
      && !s.halted && s.work.Idle? && Lists(order, s.ledger.queues.candidates, due)
      && |answers| == |order| && ChainAnswers(answers, nonceOf)
    case LoadImmature(due, rows, answers) =>
      && !s.halted && s.work.Idle? && Lists(rows, s.ledger.queues.immature, due)
      && |answers| == |rows| && ChainAnswers(answers, nonceOf)
    case WritePendingOrphans(_) => s.work.PendingLoaded?
    case WriteNextImmature(_) => s.work.Crediting? && s.work.confirmed != []
    case WriteNextOrphan(_, _) => s.work.MatureLoaded? && s.work.lost != []
    case WriteNextMatured(_, _) => s.work.MatureLoaded? && s.work.lost == [] && s.work.ripe != []
    case ReadFails => !s.work.Idle?
    case Restart => true
  }

  /** `GetRoundShares` */
  function RoundOf(l: Ledger, b: BlockData): Log {
    var key := RoundKey(b.roundHeight, b.nonce);
    if key in l.shares.rounds then l.shares.rounds[key] else map[]
  }

  /** `calculateRewards` divides by the block's shares and reads its reward; it panics without them. */
  predicate CanReward(b: BlockData) { b.reward.Some? && b.totalShares != 0 }

  function NowImmature(stage: map<string, Stage>, b: BlockData): map<string, Stage> {
    stage[b.nonce := Immature(RowOf(b), b.height)]
  }

  function NowMatured(stage: map<string, Stage>, b: BlockData): map<string, Stage> {
    stage[b.nonce := Matured(RowOf(b), b.height)]
  }

  function AllNowImmature(stage: map<string, Stage>, items: seq<Item<CandidateRow>>): map<string, Stage> {
    if items == [] then stage
    else NowImmature(AllNowImmature(stage, items[..|items| - 1]), items[|items| - 1].block)
  }

  /** The write finds its work, and its transaction runs. A panic before it is a transaction that does not. */
  predicate WriteRuns(work: Work, step: Step) {
    match step
    case WritePendingOrphans(outcome) => work.PendingLoaded? && outcome != Refused
    case WriteNextImmature(outcome) =>
      work.Crediting? && work.confirmed != [] && CanReward(work.confirmed[0].block) && outcome != Refused
    case WriteNextOrphan(outcome, _) => work.MatureLoaded? && work.lost != [] && outcome != Refused
    case WriteNextMatured(outcome, _) =>
      work.MatureLoaded? && work.ripe != [] && CanReward(work.ripe[0].block) && outcome != Refused
    case _ => false
  }

  ghost function LedgerWritten(l: Ledger, work: Work, step: Step, fees: FeeConfig): Ledger
    requires WriteRuns(work, step)
  {
    match step
    case WritePendingOrphans(_) => PendingOrphans(l, work.orphans)
    case WriteNextImmature(_) =>
      var item := work.confirmed[0];
      ImmatureBlockWritten(l, item, CalculateRewards(fees, item.block, RoundOf(l, item.block)))
    case WriteNextOrphan(_, logRead) => OrphanBlockWritten(l, work.lost[0], logRead)
    case WriteNextMatured(_, logRead) =>
      var item := work.ripe[0];
      MaturedBlockWritten(l, item, CalculateRewards(fees, item.block, RoundOf(l, item.block)), logRead)
  }

  ghost function LedgerAfter(s: System, step: Step, fees: FeeConfig): Ledger
    requires step.ListCandidate? ==> step.nonce in s.stage && s.stage[step.nonce].Frozen?
  {
    var l := s.ledger;
    match step
    case Share(login, diff) => l.(shares := AcceptShare(l.shares, login, diff))
    case Found(login, diff, height, row) =>
      l.(shares := FreezeRound(l.shares, login, diff, RoundKey(height, row.nonce)))
    case ListCandidate(nonce) =>
      var f := s.stage[nonce];
      l.(queues := l.queues.(candidates := l.queues.candidates[f.candidate := f.height]))
    case PayDebit(login, amount) => l.(books := Debit(l.books, login, amount))
    case PayRollback(login, amount) => l.(books := Rollback(l.books, login, amount))
    case PayWritten(login, amount) => l.(books := Pay(l.books, login, amount))
    case _ => if WriteRuns(s.work, step) then LedgerWritten(l, s.work, step, fees) else l
  }

  function StageAfter(s: System, step: Step): map<string, Stage>
    requires step.ListCandidate? ==> step.nonce in s.stage && s.stage[step.nonce].Frozen?
  {
    match step
    case Found(_, _, height, row) => s.stage[row.nonce := Frozen(row, height)]
    case ListCandidate(nonce) => s.stage[nonce := Candidate(s.stage[nonce].candidate, s.stage[nonce].height)]
    case WritePendingOrphans(_) => if WriteRuns(s.work, step) then AllNowImmature(s.stage, s.work.orphans) else s.stage
    case WriteNextImmature(_) =>
      if WriteRuns(s.work, step) then NowImmature(s.stage, s.work.confirmed[0].block) else s.stage
    case WriteNextOrphan(_, _) => if WriteRuns(s.work, step) then NowMatured(s.stage, s.work.lost[0].block) else s.stage
    case WriteNextMatured(_, _) =>
      if WriteRuns(s.work, step) then NowMatured(s.stage, s.work.ripe[0].block) else s.stage
    case _ => s.stage
  }

  /** The unlocker process: what it still has to write, and whether an error has stopped it. */
  datatype Process = Process(work: Work, halted: bool)

  const HALTED := Process(Idle, true)
  const FRESH := Process(Idle, false)

  /** The pass goes on only after an acknowledged write. */
  function Proceed(outcome: Outcome, rest: Work): Process {
    if outcome != Applied then HALTED
    else if rest == Crediting([]) || rest == MatureLoaded([], []) then FRESH
    else Process(rest, false)
  }

  ghost function ProcessAfter(s: System, step: Step, cfg: UnlockerConfig, nonceOf: string -> string): Process
    requires Enabled(s, step, cfg, nonceOf)
  {
    match step
    case LoadFails => HALTED
    case LoadCandidates(_, order, answers) =>
      var result := UnlockCandidates(cfg.fees, CandidateItems(order, s.ledger.queues.candidates), answers);
      if order == [] then FRESH
      else if result.None? then HALTED
      else Process(PendingLoaded(result.value.orphans, result.value.matured), false)
    case LoadImmature(_, rows, answers) =>
      var result := UnlockCandidates(cfg.fees, ImmatureItems(rows, s.ledger.queues.immature), answers);
      if rows == [] then FRESH
      else if result.None? then HALTED
      else Process(MatureLoaded(result.value.orphans, result.value.matured), false)
    case WritePendingOrphans(outcome) => Proceed(outcome, Crediting(s.work.confirmed))
    case WriteNextImmature(outcome) =>
      if !CanReward(s.work.confirmed[0].block) then FRESH else Proceed(outcome, Crediting(s.work.confirmed[1..]))
    case WriteNextOrphan(outcome, _) => Proceed(outcome, MatureLoaded(s.work.lost[1..], s.work.ripe))
    case WriteNextMatured(outcome, _) =>
      if !CanReward(s.work.ripe[0].block) then FRESH else Proceed(outcome, MatureLoaded([], s.work.ripe[1..]))
    case ReadFails => HALTED
    case Restart => FRESH
    case _ => Process(s.work, s.halted)
  }

  ghost function Apply(s: System, step: Step, cfg: UnlockerConfig, nonceOf: string -> string): System
    requires Enabled(s, step, cfg, nonceOf)
  {
    var p := ProcessAfter(s, step, cfg, nonceOf);
    System(LedgerAfter(s, step, cfg.fees), StageAfter(s, step), p.work, p.halted)
  }
}
