/** What the policy server decides about one peer, call by call and in retrospect (policy/policy.go). */
module PolicySpec {

  datatype Limits = Limits(enabled: bool, limit: int, limitJump: int)
  /** `round` is rounding to 32-bit floating point. */
  datatype Banning = Banning(enabled: bool, timeout: int, invalidPercent: real, round: real -> real,
                             checkThreshold: int, malformedLimit: int)

  /** Times are in milliseconds, but the ban timeout is in seconds. */
  datatype PolicyConfig = PolicyConfig(limits: Limits, banning: Banning, startedAt: int, grace: int, resetAfter: int)

  /** The record of one peer. */
  datatype Peer = Peer(lastBeat: int, bannedAt: int, validShares: nat, invalidShares: nat, malformed: int,
                       connLimit: int, banned: bool)

  /** What is said about a peer; the last is a cleanup that leaves its record. */
  datatype Kind = Share(valid: bool) | Connection | BanCheck | MalformedRequest | Login(blacklisted: bool) | SocketFlood
    | SurvivedCleanup

  /** A call about a peer: when it happens, and whether the peer is on the whitelist then. */
  datatype Call = Call(kind: Kind, now: int, whitelisted: bool)

  /** Addition of 32-bit integers. */
  function Int32(n: int): int { (n + 0x8000_0000) % 0x1_0000_0000 - 0x8000_0000 }

  lemma Int32Wraps(n: int)
    ensures -0x8000_0000 <= Int32(n) < 0x8000_0000 && (n - Int32(n)) % 0x1_0000_0000 == 0
  {
    var m := n + 0x8000_0000;
    assert n - Int32(n) == 0x1_0000_0000 * (m / 0x1_0000_0000);
  }

  function NewPeer(cfg: PolicyConfig, now: int): Peer { Peer(now, 0, 0, 0, 0, cfg.limits.limit, false) }

  predicate AfterGrace(cfg: PolicyConfig, now: int) { now - cfg.startedAt > cfg.grace }

  /** Calls that do not look at the peer's record at all. */
  predicate Ignores(cfg: PolicyConfig, c: Call) {
    || c.kind == Login(false)
    || (c.kind.Connection? && !(cfg.limits.enabled && AfterGrace(cfg, c.now)))
  }

  /** The quotient of invalid and valid shares, each step rounded; dividing by zero gives infinity. */
  predicate TooManyInvalid(cfg: PolicyConfig, invalid: nat, valid: nat) {
    var round := cfg.banning.round;
    if round(valid as real) == 0.0 then round(invalid as real) > 0.0
    else round(round(invalid as real) / round(valid as real)) >= round(cfg.banning.invalidPercent / 100.0)
  }

  function ForceBan(cfg: PolicyConfig, p: Peer, c: Call): Peer {
    if !cfg.banning.enabled || c.whitelisted then p else p.(bannedAt := c.now, banned := true)
  }

  /** A ban's time is over; for a peer that is not banned this says nothing. */
  predicate BanIsOver(cfg: PolicyConfig, p: Peer, now: int) { now - p.bannedAt >= cfg.banning.timeout * 1000 }

  /** What a cleanup leaves of a peer's record. */
  function AfterReset(cfg: PolicyConfig, p: Peer, now: int): Peer {
    if BanIsOver(cfg, p, now) then p.(bannedAt := 0) else p
  }

  predicate SurvivesReset(cfg: PolicyConfig, p: Peer, now: int) {
    !(p.banned && BanIsOver(cfg, p, now)) && !(now - p.lastBeat >= cfg.resetAfter)
  }

  function CountShare(cfg: PolicyConfig, p: Peer, valid: bool): Peer {
    if !valid then p.(invalidShares := p.invalidShares + 1)
    else p.(validShares := p.validShares + 1,
            connLimit := if cfg.limits.enabled then Int32(p.connLimit + cfg.limits.limitJump) else p.connLimit)
  }

  /** A call's effect on the record and its answer: may the peer go on? */
  function Next(cfg: PolicyConfig, p: Peer, c: Call): (Peer, bool) {
    if Ignores(cfg, c) then (p, true)
    else if c.kind.SurvivedCleanup? then (AfterReset(cfg, p, c.now), true)
    else
      var seen := p.(lastBeat := c.now);
      match c.kind
      case Share(valid) =>
        var counted := CountShare(cfg, seen, valid);
        if counted.validShares + counted.invalidShares < cfg.banning.checkThreshold then (counted, true)
        else
          var reset := counted.(validShares := 0, invalidShares := 0);
          if TooManyInvalid(cfg, counted.invalidShares, counted.validShares) then (ForceBan(cfg, reset, c), false)
            else (reset, true)
      case Connection =>
        var limited := seen.(connLimit := Int32(seen.connLimit - 1));
        (limited, limited.connLimit > 0)
      case BanCheck => (seen, !seen.banned)
      case MalformedRequest =>
        var counted := seen.(malformed := Int32(seen.malformed + 1));
        if counted.malformed >= cfg.banning.malformedLimit then (ForceBan(cfg, counted, c), false) else (counted, true)
      case Login(_) => (ForceBan(cfg, seen, c), false)
      case _ => (ForceBan(cfg, seen, c), false)
  }

  /** The record after a sequence of calls about a peer first seen at `born`. */
  function Record(cfg: PolicyConfig, born: int, calls: seq<Call>): Peer {
    if calls == [] then NewPeer(cfg, born) else Next(cfg, Record(cfg, born, calls[..|calls| - 1]), calls[|calls| - 1]).0
  }

  /** The calls up to and including the i-th. */
  function Upto(calls: seq<Call>, i: nat): seq<Call>
    requires i < |calls|
  {
    calls[..i + 1]
  }

  /** The answer to the i-th call. */
  function Answer(cfg: PolicyConfig, born: int, calls: seq<Call>, i: nat): bool
    requires i < |calls|
  {
    Next(cfg, Record(cfg, born, calls[..i]), calls[i]).1
  }

  // ---------- shares, in retrospect ----------

  function Shares(calls: seq<Call>): seq<bool> {
    if calls == [] then []
    else
      var last := calls[|calls| - 1];
      Shares(calls[..|calls| - 1]) + if last.kind.Share? then [last.kind.valid] else []
  }

  function Count(bs: seq<bool>, b: bool): nat {
    if bs == [] then 0 else Count(bs[..|bs| - 1], b) + if bs[|bs| - 1] == b then 1 else 0
  }

  function BatchSize(cfg: PolicyConfig): nat {
    if cfg.banning.checkThreshold <= 1 then 1 else cfg.banning.checkThreshold
  }

  /** Rounding keeps order, and keeps the counts of a batch: in 32-bit floating point those up to 2^24. */
  ghost predicate RoundsLikeFloat(cfg: PolicyConfig) {
    && (forall x: real, y: real :: KeepsOrder(cfg, x, y))
    && (forall n: nat :: n <= BatchSize(cfg) ==> KeepsCount(cfg, n))
  }

  predicate KeepsOrder(cfg: PolicyConfig, x: real, y: real) { x <= y ==> cfg.banning.round(x) <= cfg.banning.round(y) }

  predicate KeepsCount(cfg: PolicyConfig, n: nat) { cfg.banning.round(n as real) == n as real }

  /** The quotient of a batch lies below the percentage, but not once both are rounded. */
  predicate OnlyRoundedUp(cfg: PolicyConfig, invalid: nat, valid: nat) {
    valid > 0 && cfg.banning.round(invalid as real / valid as real)
      == cfg.banning.round(cfg.banning.invalidPercent / 100.0)
  }

  /** Whether a batch has invalid shares of at least the configured percentage of its valid ones, up to rounding. */
  predicate BadBatch(cfg: PolicyConfig, batch: seq<bool>) { BadCounts(cfg, Count(batch, false), Count(batch, true)) }

  predicate BadCounts(cfg: PolicyConfig, invalid: nat, valid: nat) {
    100.0 * invalid as real >= cfg.banning.invalidPercent * valid as real || OnlyRoundedUp(cfg, invalid, valid)
  }

  /** The shares since the last full batch. */
  function Pending(cfg: PolicyConfig, shares: seq<bool>): seq<bool> { shares[|shares| - |shares| % BatchSize(cfg)..] }

  /** Whether the last of some shares completes a batch, and a bad one. */
  predicate ClosesBadBatch(cfg: PolicyConfig, shares: seq<bool>) {
    && |shares| > 0 && |shares| % BatchSize(cfg) == 0
    && |shares| >= BatchSize(cfg) && BadBatch(cfg, shares[|shares| - BatchSize(cfg)..])
  }

  lemma {:induction false} CountsAddUp(bs: seq<bool>)
    ensures Count(bs, true) + Count(bs, false) == |bs|
  {
    if bs != [] {
      CountsAddUp(bs[..|bs| - 1]);
    }
  }

  lemma PercentOf(a: real, b: real, percent: real)
    requires b > 0.0
    ensures a / b >= percent / 100.0 <==> 100.0 * a >= percent * b
  {
    ScaleRatio(a, b, percent / 100.0);
    assert 100.0 * (percent / 100.0 * b) == percent * b;
  }

  lemma RatioOfSome(cfg: PolicyConfig, invalid: nat, valid: nat)
    requires KeepsCount(cfg, invalid) && KeepsCount(cfg, valid) && valid > 0
    requires var ratio, percent := invalid as real / valid as real, cfg.banning.invalidPercent / 100.0;
      KeepsOrder(cfg, ratio, percent) && KeepsOrder(cfg, percent, ratio)
    ensures TooManyInvalid(cfg, invalid, valid) <==> BadCounts(cfg, invalid, valid)
  {
    PercentOf(invalid as real, valid as real, cfg.banning.invalidPercent);
  }

  lemma RatioOfNone(cfg: PolicyConfig, invalid: nat)
    requires KeepsCount(cfg, invalid) && KeepsCount(cfg, 0) && invalid > 0
    ensures TooManyInvalid(cfg, invalid, 0) && BadCounts(cfg, invalid, 0)
  {
  }

  lemma RatioTest(cfg: PolicyConfig, invalid: nat, valid: nat)
    requires RoundsLikeFloat(cfg) && 0 < invalid + valid <= BatchSize(cfg)
    ensures TooManyInvalid(cfg, invalid, valid) <==> BadCounts(cfg, invalid, valid)
  {
    assert KeepsCount(cfg, invalid) && KeepsCount(cfg, valid);
    if valid > 0 {
      var ratio, percent := invalid as real / valid as real, cfg.banning.invalidPercent / 100.0;
      assert KeepsOrder(cfg, ratio, percent) && KeepsOrder(cfg, percent, ratio);
      RatioOfSome(cfg, invalid, valid);
    } else {
      RatioOfNone(cfg, invalid);
    }
  }

  lemma ScaleRatio(a: real, b: real, r: real)
    requires b > 0.0
    ensures a / b >= r <==> a >= r * b
  {
    var q := a / b;
    assert a == q * b;
    if q >= r {
      assert (q - r) * b >= 0.0;
    } else {
      assert (r - q) * b > 0.0;
    }
  }

  /** What follows a fixed point grows with the whole. */
  lemma TailGrows(shares: seq<bool>, b: bool, r: nat)
    requires r <= |shares|
    ensures (shares + [b])[|shares| - r..] == shares[|shares| - r..] + [b]
  {
  }

  /** One more share either joins the open batch or completes it. */
  lemma PendingGrows(cfg: PolicyConfig, shares: seq<bool>, b: bool)
    ensures var more, open := shares + [b], Pending(cfg, shares) + [b];
      && |open| <= BatchSize(cfg)
      && (|open| < BatchSize(cfg) ==> Pending(cfg, more) == open && |more| % BatchSize(cfg) != 0)
      && (|open| == BatchSize(cfg) ==> Pending(cfg, more) == [] && |more| % BatchSize(cfg) == 0)
      && (|open| == BatchSize(cfg) ==> |more| >= BatchSize(cfg) && more[|more| - BatchSize(cfg)..] == open)
  {
    var n, k := |shares|, BatchSize(cfg);
    RemainderFits(n, k);
    NextRemainder(n, k);
    TailGrows(shares, b, n % k);
  }

  lemma RemainderFits(n: nat, k: nat)
    requires k > 0
    ensures 0 <= n % k < k && n % k <= n
  {
  }

  lemma NextRemainder(n: nat, k: nat)
    requires k > 0
    ensures n % k + 1 < k ==> (n + 1) % k == n % k + 1
    ensures n % k + 1 == k ==> (n + 1) % k == 0
  {
    var q, r := n / k, n % k;
    assert n + 1 == k * q + (r + 1);
    if r + 1 < k {
      RemainderOf(n + 1, k, q, r + 1);
    } else {
      assert n + 1 == k * (q + 1);
      RemainderOf(n + 1, k, q + 1, 0);
    }
  }

  lemma RemainderOf(n: nat, k: nat, q: nat, r: nat)
    requires k > 0 && n == k * q + r && r < k
    ensures n % k == r
  {
    assert k * (n / k - q) == r - n % k;
    Multiples(k, n / k - q);
  }

  lemma Multiples(k: nat, e: int)
    ensures e >= 1 ==> k * e >= k
    ensures e <= -1 ==> k * e + k <= 0
  {
  }

  /** The counters are those of the open batch. */
  ghost predicate CountsBatch(cfg: PolicyConfig, p: Peer, shares: seq<bool>) {
    && p.validShares == Count(Pending(cfg, shares), true)
    && p.invalidShares == Count(Pending(cfg, shares), false)
  }

  lemma ShareJoinsBatch(cfg: PolicyConfig, p: Peer, shares: seq<bool>, b: bool)
    requires CountsBatch(cfg, p, shares)
    ensures var open, counted := Pending(cfg, shares) + [b], CountShare(cfg, p, b);
      && counted.validShares == Count(open, true) && counted.invalidShares == Count(open, false)
      && counted.validShares + counted.invalidShares == |open| > 0
  {
    var open := Pending(cfg, shares) + [b];
    assert open[..|open| - 1] == Pending(cfg, shares);
    CountsAddUp(open);
  }

  lemma NextShare(cfg: PolicyConfig, p: Peer, c: Call)
    requires c.kind.Share?
    ensures var counted, after := CountShare(cfg, p, c.kind.valid), Next(cfg, p, c);
      var full := counted.validShares + counted.invalidShares >= cfg.banning.checkThreshold;
      && after.0.validShares == (if full then 0 else counted.validShares)
      && after.0.invalidShares == (if full then 0 else counted.invalidShares)
      && after.1 == !(full && TooManyInvalid(cfg, counted.invalidShares, counted.validShares))
  {
  }

  lemma ShareKeepsBatch(cfg: PolicyConfig, p: Peer, shares: seq<bool>, c: Call)
    requires CountsBatch(cfg, p, shares) && c.kind.Share?
    ensures CountsBatch(cfg, Next(cfg, p, c).0, shares + [c.kind.valid])
  {
    PendingGrows(cfg, shares, c.kind.valid);
    ShareJoinsBatch(cfg, p, shares, c.kind.valid);
    NextShare(cfg, p, c);
  }

  lemma OpenBatchTest(cfg: PolicyConfig, open: seq<bool>)
    requires RoundsLikeFloat(cfg) && 0 < |open| <= BatchSize(cfg)
    ensures TooManyInvalid(cfg, Count(open, false), Count(open, true)) <==> BadBatch(cfg, open)
  {
    CountsAddUp(open);
    var invalid, valid := Count(open, false), Count(open, true);
    RatioTest(cfg, invalid, valid);
    assert BadBatch(cfg, open) <==> BadCounts(cfg, invalid, valid);
  }

  lemma ClosesIff(cfg: PolicyConfig, shares: seq<bool>, b: bool)
    ensures var open := Pending(cfg, shares) + [b];
      && 0 < |open| <= BatchSize(cfg)
      && (ClosesBadBatch(cfg, shares + [b]) <==> |open| == BatchSize(cfg) && BadBatch(cfg, open))
  {
    PendingGrows(cfg, shares, b);
  }

  lemma ShareVerdict(cfg: PolicyConfig, p: Peer, shares: seq<bool>, c: Call)
    requires CountsBatch(cfg, p, shares) && c.kind.Share? && RoundsLikeFloat(cfg)
    ensures Next(cfg, p, c).1 == !ClosesBadBatch(cfg, shares + [c.kind.valid])
  {
    ClosesIff(cfg, shares, c.kind.valid);
    ShareJoinsBatch(cfg, p, shares, c.kind.valid);
    NextShare(cfg, p, c);
    OpenBatchTest(cfg, Pending(cfg, shares) + [c.kind.valid]);
  }

  lemma {:induction false} RecordCountsBatch(cfg: PolicyConfig, born: int, calls: seq<Call>)
    ensures CountsBatch(cfg, Record(cfg, born, calls), Shares(calls))
  {
    if calls != [] {
      var front, last := calls[..|calls| - 1], calls[|calls| - 1];
      RecordCountsBatch(cfg, born, front);
      if last.kind.Share? {
        ShareKeepsBatch(cfg, Record(cfg, born, front), Shares(front), last);
      } else {
        OthersKeepCounts(cfg, Record(cfg, born, front), last);
        assert Shares(calls) == Shares(front);
      }
    }
  }

  lemma OthersKeepCounts(cfg: PolicyConfig, p: Peer, c: Call)
    requires !c.kind.Share?
    ensures Next(cfg, p, c).0.validShares == p.validShares && Next(cfg, p, c).0.invalidShares == p.invalidShares
  {
  }

  /** Shares are judged in consecutive batches of the check threshold: a share is refused exactly if
      it completes a batch whose invalid shares reach the percentage of its valid ones, or miss it by
      no more than rounding hides. */
  lemma SharesAreJudgedInBatches(cfg: PolicyConfig, born: int, calls: seq<Call>, i: nat)
    requires RoundsLikeFloat(cfg) && i < |calls| && calls[i].kind.Share?
    ensures Answer(cfg, born, calls, i) <==> !ClosesBadBatch(cfg, Shares(Upto(calls, i)))
  {
    RecordCountsBatch(cfg, born, calls[..i]);
    ShareVerdict(cfg, Record(cfg, born, calls[..i]), Shares(calls[..i]), calls[i]);
    assert Upto(calls, i)[..i] == calls[..i];
  }

  // ---------- bans, in retrospect ----------

  function MalformedCount(calls: seq<Call>): nat {
    if calls == [] then 0
    else MalformedCount(calls[..|calls| - 1]) + if calls[|calls| - 1].kind.MalformedRequest? then 1 else 0
  }

  /** Whether the last of some calls is one after which its peer deserves a ban. Malformed requests are
      counted with 32 bits. */
  predicate Offends(cfg: PolicyConfig, calls: seq<Call>)
    requires calls != []
  {
    match calls[|calls| - 1].kind
    case Share(_) => ClosesBadBatch(cfg, Shares(calls))
    case MalformedRequest => Int32(MalformedCount(calls)) >= cfg.banning.malformedLimit
    case Login(blacklisted) => blacklisted
    case SocketFlood => true
    case _ => false
  }

  lemma OneMoreMalformed(cfg: PolicyConfig, p: Peer, c: Call)
    ensures Next(cfg, p, c).0.malformed == if c.kind.MalformedRequest? then Int32(p.malformed + 1) else p.malformed
  {
  }

  lemma {:induction false} MalformedIsCounted(cfg: PolicyConfig, born: int, calls: seq<Call>)
    ensures Record(cfg, born, calls).malformed == Int32(MalformedCount(calls))
    ensures MalformedCount(calls) <= |calls|
  {
    if calls != [] {
      var front := calls[..|calls| - 1];
      MalformedIsCounted(cfg, born, front);
      OneMoreMalformed(cfg, Record(cfg, born, front), calls[|calls| - 1]);
      Int32Adds(MalformedCount(front), 1);
    }
  }

  /** Up to 2^31 calls the count is exact. */
  lemma FewMalformedCount(cfg: PolicyConfig, calls: seq<Call>)
    requires |calls| < 0x8000_0000
    ensures Int32(MalformedCount(calls)) == MalformedCount(calls)
  {
    MalformedIsCounted(cfg, 0, calls);
    Int32Fits(MalformedCount(calls));
  }

  /** A record becomes banned by a refusal other than that of a connection. */
  lemma NextBanned(cfg: PolicyConfig, p: Peer, c: Call)
    ensures var bans := cfg.banning.enabled && !c.whitelisted && !c.kind.Connection? && !c.kind.BanCheck?
      && !Next(cfg, p, c).1;
      Next(cfg, p, c).0.banned <==> p.banned || bans
  {
  }

  lemma NextMalformed(cfg: PolicyConfig, p: Peer, c: Call)
    requires c.kind.MalformedRequest?
    ensures Next(cfg, p, c).1 <==> Int32(p.malformed + 1) < cfg.banning.malformedLimit
  {
  }

  lemma MalformedRefused(cfg: PolicyConfig, born: int, calls: seq<Call>, c: Call)
    requires c.kind.MalformedRequest?
    ensures Next(cfg, Record(cfg, born, calls), c).1
      <==> Int32(MalformedCount(calls + [c])) < cfg.banning.malformedLimit
  {
    var all := calls + [c];
    assert all[..|all| - 1] == calls;
    MalformedIsCounted(cfg, born, calls);
    NextMalformed(cfg, Record(cfg, born, calls), c);
    Int32Adds(MalformedCount(calls), 1);
  }

  lemma OffenceBans(cfg: PolicyConfig, born: int, calls: seq<Call>, c: Call)
    requires RoundsLikeFloat(cfg)
    ensures Next(cfg, Record(cfg, born, calls), c).0.banned
      <==> Record(cfg, born, calls).banned || (cfg.banning.enabled && Offends(cfg, calls + [c]) && !c.whitelisted)
  {
    var p, all := Record(cfg, born, calls), calls + [c];
    assert all[..|all| - 1] == calls;
    NextBanned(cfg, p, c);
    if c.kind.Share? {
      RecordCountsBatch(cfg, born, calls);
      ShareVerdict(cfg, p, Shares(calls), c);
    } else if c.kind.MalformedRequest? {
      MalformedRefused(cfg, born, calls, c);
    }
  }

  /** A peer is banned exactly if banning is on and it has offended while not on the whitelist. */
  lemma {:induction false} BannedIff(cfg: PolicyConfig, born: int, calls: seq<Call>)
    requires RoundsLikeFloat(cfg)
    ensures Record(cfg, born, calls).banned
      <==> cfg.banning.enabled && exists i: nat :: i < |calls| && Offends(cfg, Upto(calls, i)) && !calls[i].whitelisted
  {
    if calls != [] {
      var n := |calls| - 1;
      var front := calls[..n];
      BannedIff(cfg, born, front);
      OffenceBans(cfg, born, front, calls[n]);
      assert front + [calls[n]] == calls == Upto(calls, n);
      assert forall i: nat :: i < n ==> Upto(front, i) == Upto(calls, i);
    }
  }

  // ---------- the other answers, in retrospect ----------

  predicate IsLimited(cfg: PolicyConfig, c: Call) {
    c.kind.Connection? && cfg.limits.enabled && c.now - cfg.startedAt > cfg.grace
  }

  /** Malformed requests are refused from the limit on, blacklisted logins and floods always, a ban check
      for as long as the record is banned; what is said without a look at the record is always yes. */
  lemma AnswersIff(cfg: PolicyConfig, born: int, calls: seq<Call>, i: nat)
    requires RoundsLikeFloat(cfg) && i < |calls|
    ensures var yes, k := Answer(cfg, born, calls, i), calls[i].kind;
      && (k.MalformedRequest? ==> (yes <==> Int32(MalformedCount(Upto(calls, i))) < cfg.banning.malformedLimit))
      && (k.Login? ==> (yes <==> !k.blacklisted)) && (k.SocketFlood? ==> !yes)
      && (k.Connection? && !IsLimited(cfg, calls[i]) ==> yes)
      && (k.BanCheck? ==> (yes <==> !HasOffended(cfg, calls, i)))
  {
    if calls[i].kind.MalformedRequest? {
      MalformedAnswer(cfg, born, calls, i);
    } else if calls[i].kind.BanCheck? {
      BanCheckAnswer(cfg, born, calls, i);
    }
  }

  /** An offence among the first calls, off the whitelist, with banning on. */
  ghost predicate HasOffended(cfg: PolicyConfig, calls: seq<Call>, i: nat)
    requires i <= |calls|
  {
    cfg.banning.enabled && exists j: nat :: j < i && Offends(cfg, Upto(calls, j)) && !calls[j].whitelisted
  }

  lemma MalformedAnswer(cfg: PolicyConfig, born: int, calls: seq<Call>, i: nat)
    requires i < |calls| && calls[i].kind.MalformedRequest?
    ensures Answer(cfg, born, calls, i) <==> Int32(MalformedCount(Upto(calls, i))) < cfg.banning.malformedLimit
  {
    MalformedRefused(cfg, born, calls[..i], calls[i]);
    assert calls[..i] + [calls[i]] == Upto(calls, i);
  }

  lemma BanCheckAnswer(cfg: PolicyConfig, born: int, calls: seq<Call>, i: nat)
    requires RoundsLikeFloat(cfg) && i < |calls| && calls[i].kind.BanCheck?
    ensures Answer(cfg, born, calls, i) <==> !HasOffended(cfg, calls, i)
  {
    BannedIff(cfg, born, calls[..i]);
    assert forall j: nat :: j < i ==> Upto(calls[..i], j) == Upto(calls, j) && calls[..i][j] == calls[j];
  }

  /** A call for which the peer's record is fetched, and its beat set. */
  predicate IsSeen(cfg: PolicyConfig, c: Call) {
    match c.kind
    case Connection => IsLimited(cfg, c)
    case Login(blacklisted) => blacklisted
    case SurvivedCleanup => false
    case _ => true
  }

  predicate IsLatestSeen(cfg: PolicyConfig, calls: seq<Call>, i: nat)
    requires i < |calls|
  {
    IsSeen(cfg, calls[i]) && forall j :: i < j < |calls| ==> !IsSeen(cfg, calls[j])
  }

  /** The peer was last seen at the latest call that fetched its record, or when the record was made; and
      a call that does not fetch it leaves no trace. */
  lemma {:induction false} LastSeenAtLatest(cfg: PolicyConfig, born: int, calls: seq<Call>)
    ensures (forall i :: 0 <= i < |calls| ==> !IsSeen(cfg, calls[i])) ==> Record(cfg, born, calls).lastBeat == born
    ensures forall i :: 0 <= i < |calls| && IsLatestSeen(cfg, calls, i) ==>
      Record(cfg, born, calls).lastBeat == calls[i].now
    ensures calls != [] ==> var n := |calls| - 1;
      !IsSeen(cfg, calls[n]) && !calls[n].kind.SurvivedCleanup? ==>
        Record(cfg, born, calls) == Record(cfg, born, calls[..n])
  {
    if calls != [] {
      var n := |calls| - 1;
      var front := calls[..n];
      LastSeenAtLatest(cfg, born, front);
      NextBeat(cfg, Record(cfg, born, front), calls[n]);
      assert forall i :: 0 <= i < n && IsLatestSeen(cfg, calls, i) ==> IsLatestSeen(cfg, front, i);
    }
  }

  lemma NextBeat(cfg: PolicyConfig, p: Peer, c: Call)
    ensures Next(cfg, p, c).0.lastBeat == if IsSeen(cfg, c) then c.now else p.lastBeat
    ensures !IsSeen(cfg, c) && !c.kind.SurvivedCleanup? ==> Next(cfg, p, c).0 == p
  {
  }

  predicate InOrder(born: int, calls: seq<Call>) {
    && (forall i :: 0 <= i < |calls| ==> born <= calls[i].now)
    && (forall i, j :: 0 <= i < j < |calls| ==> calls[i].now <= calls[j].now)
  }

  /** The cleanups in a record's history are ones it survived. */
  predicate IsLife(cfg: PolicyConfig, born: int, calls: seq<Call>) {
    forall i :: 0 <= i < |calls| && calls[i].kind.SurvivedCleanup? ==>
      SurvivesReset(cfg, Record(cfg, born, calls[..i]), calls[i].now)
  }

  /** The i-th call bans its peer, again or for the first time. */
  predicate BansAt(cfg: PolicyConfig, calls: seq<Call>, i: nat)
    requires i < |calls|
  {
    cfg.banning.enabled && Offends(cfg, Upto(calls, i)) && !calls[i].whitelisted
  }

  predicate IsLatestBan(cfg: PolicyConfig, calls: seq<Call>, i: nat)
    requires i < |calls|
  {
    BansAt(cfg, calls, i) && forall j :: i < j < |calls| ==> !BansAt(cfg, calls, j)
  }

  lemma NextBannedAt(cfg: PolicyConfig, p: Peer, c: Call)
    ensures var bans := cfg.banning.enabled && !c.whitelisted && !c.kind.Connection? && !c.kind.BanCheck?
      && !Next(cfg, p, c).1;
      && (bans ==> Next(cfg, p, c).0.bannedAt == c.now)
      && (!bans && !(c.kind.SurvivedCleanup? && BanIsOver(cfg, p, c.now)) ==> Next(cfg, p, c).0.bannedAt == p.bannedAt)
  {
  }

  /** A call that offends is refused, and one that is refused, if it is no connection and no check, offends. */
  lemma RefusedIffOffends(cfg: PolicyConfig, born: int, calls: seq<Call>, c: Call)
    requires RoundsLikeFloat(cfg) && !c.kind.Connection? && !c.kind.BanCheck?
    ensures Next(cfg, Record(cfg, born, calls), c).1 <==> !Offends(cfg, calls + [c])
  {
    var all := calls + [c];
    assert all[..|all| - 1] == calls;
    if c.kind.Share? {
      RecordCountsBatch(cfg, born, calls);
      ShareVerdict(cfg, Record(cfg, born, calls), Shares(calls), c);
    } else if c.kind.MalformedRequest? {
      MalformedRefused(cfg, born, calls, c);
    }
  }

  /** The call after some others bans, in its own terms. */
  predicate Bans(cfg: PolicyConfig, calls: seq<Call>, c: Call) {
    cfg.banning.enabled && Offends(cfg, calls + [c]) && !c.whitelisted
  }

  lemma BanTakes(cfg: PolicyConfig, born: int, calls: seq<Call>, c: Call)
    requires RoundsLikeFloat(cfg) && Bans(cfg, calls, c)
    ensures var p := Next(cfg, Record(cfg, born, calls), c).0; p.banned && p.bannedAt == c.now
  {
    RefusedIffOffends(cfg, born, calls, c);
    NextBannedAt(cfg, Record(cfg, born, calls), c);
    NextBanned(cfg, Record(cfg, born, calls), c);
  }

  lemma BanTimeStays(cfg: PolicyConfig, born: int, calls: seq<Call>, c: Call)
    requires RoundsLikeFloat(cfg) && !Bans(cfg, calls, c) && Record(cfg, born, calls).banned
    requires c.kind.SurvivedCleanup? ==> SurvivesReset(cfg, Record(cfg, born, calls), c.now)
    ensures var p, q := Record(cfg, born, calls), Next(cfg, Record(cfg, born, calls), c).0;
      q.banned && q.bannedAt == p.bannedAt
  {
    if !c.kind.Connection? && !c.kind.BanCheck? {
      RefusedIffOffends(cfg, born, calls, c);
    }
    NextBannedAt(cfg, Record(cfg, born, calls), c);
    NextBanned(cfg, Record(cfg, born, calls), c);
  }

  lemma ShorterLatest(cfg: PolicyConfig, calls: seq<Call>, i: nat)
    requires i < |calls| && IsLatestBan(cfg, calls, i)
    ensures var n := |calls| - 1;
      if i == n then Bans(cfg, calls[..n], calls[n])
      else IsLatestBan(cfg, calls[..n], i) && !Bans(cfg, calls[..n], calls[n])
  {
    var n := |calls| - 1;
    assert calls[..n] + [calls[n]] == Upto(calls, n);
    forall j: nat | j < n ensures BansAt(cfg, calls[..n], j) <==> BansAt(cfg, calls, j) {
      assert Upto(calls[..n], j) == Upto(calls, j);
    }
    assert BansAt(cfg, calls, n) <==> Bans(cfg, calls[..n], calls[n]);
  }

  /** While a record lives, the time of its ban is that of the latest call that banned it. */
  lemma {:induction false} BannedAtLatest(cfg: PolicyConfig, born: int, calls: seq<Call>, i: nat)
    requires RoundsLikeFloat(cfg) && IsLife(cfg, born, calls) && i < |calls| && IsLatestBan(cfg, calls, i)
    ensures Record(cfg, born, calls).banned && Record(cfg, born, calls).bannedAt == calls[i].now
  {
    var n := |calls| - 1;
    ShorterLatest(cfg, calls, i);
    if i == n {
      BanTakes(cfg, born, calls[..n], calls[n]);
    } else {
      ShorterLife(cfg, born, calls);
      BannedAtLatest(cfg, born, calls[..n], i);
      BanTimeStays(cfg, born, calls[..n], calls[n]);
    }
  }

  lemma ShorterLife(cfg: PolicyConfig, born: int, calls: seq<Call>)
    requires calls != [] && IsLife(cfg, born, calls)
    ensures IsLife(cfg, born, calls[..|calls| - 1])
    ensures calls[|calls| - 1].kind.SurvivedCleanup? ==>
      SurvivesReset(cfg, Record(cfg, born, calls[..|calls| - 1]), calls[|calls| - 1].now)
  {
    var front := calls[..|calls| - 1];
    forall i | 0 <= i < |front| && front[i].kind.SurvivedCleanup?
      ensures SurvivesReset(cfg, Record(cfg, born, front[..i]), front[i].now)
    {
      assert front[..i] == calls[..i];
    }
  }

  lemma BanIsSeen(cfg: PolicyConfig, p: Peer, c: Call)
    requires p.banned ==> p.bannedAt <= p.lastBeat
    requires p.lastBeat <= c.now && (c.kind.SurvivedCleanup? ==> SurvivesReset(cfg, p, c.now))
    ensures var q := Next(cfg, p, c).0; q.lastBeat <= c.now && (q.banned ==> q.bannedAt <= q.lastBeat)
  {
  }

  lemma ShorterOrder(born: int, calls: seq<Call>)
    requires calls != [] && InOrder(born, calls)
    ensures var n := |calls| - 1; InOrder(born, calls[..n]) && born <= calls[n].now
    ensures var n := |calls| - 1; n > 0 ==> calls[n - 1].now <= calls[n].now
  {
  }

  lemma {:induction false} BansAreSeen(cfg: PolicyConfig, born: int, calls: seq<Call>)
    requires InOrder(born, calls) && IsLife(cfg, born, calls)
    ensures var p := Record(cfg, born, calls); p.banned ==> p.bannedAt <= p.lastBeat
    ensures Record(cfg, born, calls).lastBeat <= if calls == [] then born else calls[|calls| - 1].now
  {
    if calls != [] {
      var n := |calls| - 1;
      ShorterLife(cfg, born, calls);
      ShorterOrder(born, calls);
      BansAreSeen(cfg, born, calls[..n]);
      BanIsSeen(cfg, Record(cfg, born, calls[..n]), calls[n]);
    }
  }

  /** Whether no cleanup ends a ban early, in any history. */
  ghost predicate BansLast(cfg: PolicyConfig) {
    forall born: int, calls: seq<Call>, now: int :: InOrder(born, calls) && IsLife(cfg, born, calls) ==>
      var p := Record(cfg, born, calls);
      p.banned && now - p.bannedAt < cfg.banning.timeout * 1000 ==> SurvivesReset(cfg, p, now)
  }

  /** Cleanups forget idle peers, banned or not: bans last their time exactly if peers are not
      forgotten sooner. */
  lemma BansLastIff(cfg: PolicyConfig)
    requires cfg.banning.enabled && cfg.resetAfter >= 0
    ensures BansLast(cfg) <==> cfg.resetAfter >= cfg.banning.timeout * 1000
  {
    if cfg.resetAfter >= cfg.banning.timeout * 1000 {
      forall born: int, calls: seq<Call> | InOrder(born, calls) && IsLife(cfg, born, calls)
        ensures var p := Record(cfg, born, calls); p.banned ==> p.bannedAt <= p.lastBeat
      {
        BansAreSeen(cfg, born, calls);
      }
    } else {
      var calls := [Call(SocketFlood, 0, false)];
      assert calls[..0] == [];
      var p := Record(cfg, 0, calls);
      assert Record(cfg, 0, []) == NewPeer(cfg, 0) && p == Next(cfg, Record(cfg, 0, calls[..0]), calls[0]).0;
      assert p == Peer(0, 0, 0, 0, 0, cfg.limits.limit, true);
      assert InOrder(0, calls) && p.banned && !SurvivesReset(cfg, p, cfg.resetAfter);
    }
  }

  // ---------- connections, in retrospect ----------

  function Attempts(cfg: PolicyConfig, calls: seq<Call>): nat {
    if calls == [] then 0 else Attempts(cfg, calls[..|calls| - 1]) + if IsLimited(cfg, calls[|calls| - 1]) then 1 else 0
  }

  function ValidShares(calls: seq<Call>): nat { Count(Shares(calls), true) }

  /** How many connections past the grace period have been let in. */
  function Admitted(cfg: PolicyConfig, born: int, calls: seq<Call>): nat {
    if calls == [] then 0
    else
      var n := |calls| - 1;
      Admitted(cfg, born, calls[..n]) + if IsLimited(cfg, calls[n]) && Answer(cfg, born, calls, n) then 1 else 0
  }

  /** So many calls cannot overflow the counter of allowed connections. */
  predicate Fits(cfg: PolicyConfig, n: nat) {
    && cfg.limits.limitJump >= 0 && -0x8000_0000 + n <= cfg.limits.limit
    && cfg.limits.limit + cfg.limits.limitJump * n < 0x8000_0000
  }

  lemma SharesOneMore(calls: seq<Call>)
    requires calls != []
    ensures var n := |calls| - 1;
      ValidShares(calls) == ValidShares(calls[..n]) + if calls[n].kind == Share(true) then 1 else 0
  {
    var n := |calls| - 1;
    if calls[n].kind.Share? {
      assert Shares(calls)[..|Shares(calls)| - 1] == Shares(calls[..n]);
    } else {
      assert Shares(calls) == Shares(calls[..n]);
    }
  }

  lemma NextLimit(cfg: PolicyConfig, p: Peer, c: Call)
    requires cfg.limits.enabled
    ensures Next(cfg, p, c).0.connLimit == if IsLimited(cfg, c) then Int32(p.connLimit - 1)
                                           else if c.kind == Share(true) then Int32(p.connLimit + cfg.limits.limitJump)
                                           else p.connLimit
  {
  }

  lemma Int32Fits(n: int)
    requires -0x8000_0000 <= n < 0x8000_0000
    ensures Int32(n) == n
  {
  }

  lemma {:induction false} WithinCalls(cfg: PolicyConfig, calls: seq<Call>)
    ensures ValidShares(calls) <= |calls| && Attempts(cfg, calls) <= |calls|
  {
    if calls != [] {
      WithinCalls(cfg, calls[..|calls| - 1]);
      SharesOneMore(calls);
    }
  }

  lemma FitsFewer(cfg: PolicyConfig, n: nat)
    requires Fits(cfg, n + 1)
    ensures Fits(cfg, n)
  {
    assert cfg.limits.limitJump * (n + 1) == cfg.limits.limitJump * n + cfg.limits.limitJump;
  }

  lemma JumpStep(cfg: PolicyConfig, v: nat, n: nat)
    requires Fits(cfg, n + 1) && v <= n
    ensures cfg.limits.limitJump * (v + 1)
      == cfg.limits.limitJump * v + cfg.limits.limitJump <= cfg.limits.limitJump * (n + 1)
    ensures cfg.limits.limitJump * v >= 0
  {
    var j := cfg.limits.limitJump;
    assert j * (n - v) >= 0;
    assert j * (n + 1) == j * (v + 1) + j * (n - v);
  }

  lemma Int32Adds(x: int, y: int)
    ensures Int32(Int32(x) + y) == Int32(x + y)
  {
  }

  /** What limit and valid shares allow beyond the attempts. */
  function Allowed(cfg: PolicyConfig, validShares: nat, attempts: nat): int {
    cfg.limits.limit + cfg.limits.limitJump * validShares - attempts
  }

  lemma OneMoreAllowed(cfg: PolicyConfig, v: nat, a: nat)
    ensures Allowed(cfg, v + 1, a) == Allowed(cfg, v, a) + cfg.limits.limitJump
    ensures Allowed(cfg, v, a + 1) == Allowed(cfg, v, a) - 1
  {
    assert cfg.limits.limitJump * (v + 1) == cfg.limits.limitJump * v + cfg.limits.limitJump;
  }

  lemma ModularStep(cfg: PolicyConfig, p: Peer, c: Call, v: nat, a: nat)
    requires cfg.limits.enabled && p.connLimit == Int32(Allowed(cfg, v, a))
    ensures Next(cfg, p, c).0.connLimit
         == Int32(Allowed(cfg, if c.kind == Share(true) then v + 1 else v, if IsLimited(cfg, c) then a + 1 else a))
  {
    NextLimit(cfg, p, c);
    OneMoreAllowed(cfg, v, a);
    Int32Adds(Allowed(cfg, v, a), -1);
    Int32Adds(Allowed(cfg, v, a), cfg.limits.limitJump);
  }

  /** The counter of allowed connections over any history, in 32-bit arithmetic. */
  lemma {:induction false} ConnectionsModular(cfg: PolicyConfig, born: int, calls: seq<Call>)
    requires cfg.limits.enabled && Int32(cfg.limits.limit) == cfg.limits.limit
    ensures Record(cfg, born, calls).connLimit == Int32(Allowed(cfg, ValidShares(calls), Attempts(cfg, calls)))
  {
    if calls == [] {
      assert Allowed(cfg, 0, 0) == cfg.limits.limit;
    } else {
      var n := |calls| - 1;
      ConnectionsModular(cfg, born, calls[..n]);
      SharesOneMore(calls);
      ModularStep(cfg, Record(cfg, born, calls[..n]), calls[n], ValidShares(calls[..n]), Attempts(cfg, calls[..n]));
    }
  }

  /** A connection is let in exactly if, counted with 32 bits, what the limit and the valid shares so
      far allow is more than the attempts, this one included. */
  lemma AdmittedIff(cfg: PolicyConfig, born: int, calls: seq<Call>, i: nat)
    requires i < |calls| && IsLimited(cfg, calls[i]) && Int32(cfg.limits.limit) == cfg.limits.limit
    ensures Answer(cfg, born, calls, i) <==>
      Int32(Allowed(cfg, ValidShares(calls[..i]), Attempts(cfg, calls[..i]) + 1)) > 0
  {
    ConnectionsModular(cfg, born, calls[..i]);
    ModularStep(cfg, Record(cfg, born, calls[..i]), calls[i], ValidShares(calls[..i]), Attempts(cfg, calls[..i]));
  }

  lemma AllowedFits(cfg: PolicyConfig, v: nat, a: nat, n: nat)
    requires Fits(cfg, n + 1) && v <= n && a <= n
    ensures Int32(Allowed(cfg, v, a + 1)) == Allowed(cfg, v, a + 1) && Int32(cfg.limits.limit) == cfg.limits.limit
  {
    JumpStep(cfg, v, n);
    Int32Fits(Allowed(cfg, v, a + 1));
    Int32Fits(cfg.limits.limit);
  }

  /** The same without overflow. */
  lemma AdmittedWhileBelow(cfg: PolicyConfig, born: int, calls: seq<Call>, i: nat)
    requires i < |calls| && IsLimited(cfg, calls[i]) && Fits(cfg, |calls|)
    ensures Answer(cfg, born, calls, i) <==> Allowed(cfg, ValidShares(calls[..i]), Attempts(cfg, calls[..i]) + 1) > 0
  {
    FitsAnyFewer(cfg, i + 1, |calls|);
    WithinCalls(cfg, calls[..i]);
    AllowedFits(cfg, ValidShares(calls[..i]), Attempts(cfg, calls[..i]), i);
    AdmittedIff(cfg, born, calls, i);
  }

  lemma FitsAnyFewer(cfg: PolicyConfig, n: nat, m: nat)
    requires Fits(cfg, m) && n <= m
    ensures Fits(cfg, n)
  {
    var j := cfg.limits.limitJump;
    assert j * m == j * n + j * (m - n);
    assert j * (m - n) >= 0;
  }

  /** Past the grace period, at any moment at most `limit - 1` connections and `limitJump` more for
      every valid share so far have been let in. */
  lemma {:induction false} AdmittedAtMost(cfg: PolicyConfig, born: int, calls: seq<Call>)
    requires cfg.limits.enabled && Fits(cfg, |calls|)
    ensures Admitted(cfg, born, calls) <= Attempts(cfg, calls)
    ensures Admitted(cfg, born, calls) > 0 ==>
      Admitted(cfg, born, calls) <= cfg.limits.limit - 1 + cfg.limits.limitJump * ValidShares(calls)
  {
    if calls != [] {
      var n := |calls| - 1;
      FitsFewer(cfg, n);
      AdmittedAtMost(cfg, born, calls[..n]);
      SharesOneMore(calls);
      WithinCalls(cfg, calls[..n]);
      JumpStep(cfg, ValidShares(calls[..n]), n);
      if IsLimited(cfg, calls[n]) {
        AdmittedWhileBelow(cfg, born, calls, n);
      }
    }
  }

  /** The bound does need a counter that does not overflow: the lowest limit lets the first one in. */
  lemma OverflowAdmits(cfg: PolicyConfig)
    requires cfg.limits.enabled && cfg.limits.limit == -0x8000_0000 && cfg.grace < 0
    ensures var calls := [Call(Connection, cfg.startedAt, false)];
      Admitted(cfg, 0, calls) == 1 > cfg.limits.limit - 1 + cfg.limits.limitJump * ValidShares(calls)
  {
    var calls := [Call(Connection, cfg.startedAt, false)];
    assert calls[..0] == [];
    assert IsLimited(cfg, calls[0]) && Record(cfg, 0, []) == NewPeer(cfg, 0);
    assert Answer(cfg, 0, calls, 0);
    assert Admitted(cfg, 0, calls[..0]) == 0 && Shares(calls) == [];
  }
}
