/** The policy server: one record of counters for every peer, updated in place (policy/policy.go). */
module Policy {
  import opened PolicySpec

  class Stats {
    var lastBeat: int
    var bannedAt: int
    var validShares: nat
    var invalidShares: nat
    var malformed: int
    var connLimit: int
    var banned: bool

    constructor (connLimit: int, now: int)
      ensures View() == Peer(now, 0, 0, 0, 0, connLimit, false)
    {
      lastBeat, bannedAt, validShares, invalidShares, malformed, banned := now, 0, 0, 0, 0, false;
      this.connLimit := connLimit;
    }

    ghost function View(): Peer
      reads this
    {
      Peer(lastBeat, bannedAt, validShares, invalidShares, malformed, connLimit, banned)
    }

    method IncrLimit(n: int)
      modifies `connLimit
      ensures connLimit == Int32(old(connLimit) + n)
    {
      connLimit := Int32(connLimit + n);
    }

    method DecrLimit() returns (n: int)
      modifies `connLimit
      ensures n == connLimit == Int32(old(connLimit) - 1)
    {
      connLimit := Int32(connLimit - 1);
      n := connLimit;
    }

    method IncrMalformed() returns (n: int)
      modifies `malformed
      ensures n == malformed == Int32(old(malformed) + 1)
    {
      malformed := Int32(malformed + 1);
      n := malformed;
    }

    method ResetShares()
      modifies `validShares, `invalidShares
      ensures validShares == invalidShares == 0
    {
      validShares, invalidShares := 0, 0;
    }
  }

  type Peers = map<string, Peer>

  /** The record of a peer, new if it has none. */
  function RecordOf(cfg: PolicyConfig, peers: Peers, ip: string, now: int): Peer {
    if ip in peers then peers[ip] else NewPeer(cfg, now)
  }

  /** All records after a call about one peer. */
  function After(cfg: PolicyConfig, peers: Peers, ip: string, c: Call): Peers {
    if Ignores(cfg, c) then peers else peers[ip := Next(cfg, RecordOf(cfg, peers, ip, c.now), c).0]
  }

  function AnswerTo(cfg: PolicyConfig, peers: Peers, ip: string, c: Call): bool {
    Next(cfg, RecordOf(cfg, peers, ip, c.now), c).1
  }

  lemma CallChangesOne(cfg: PolicyConfig, peers: Peers, ip: string, c: Call)
    requires !Ignores(cfg, c) && !c.kind.SurvivedCleanup?
    ensures var seen := RecordOf(cfg, peers, ip, c.now).(lastBeat := c.now);
      && After(cfg, peers, ip, c) == peers[ip := seen][ip := Next(cfg, seen, c).0]
      && AnswerTo(cfg, peers, ip, c) == Next(cfg, seen, c).1
  {
    var p := RecordOf(cfg, peers, ip, c.now);
    SeenFirst(cfg, p, c);
  }

  lemma SeenFirst(cfg: PolicyConfig, p: Peer, c: Call)
    requires !Ignores(cfg, c) && !c.kind.SurvivedCleanup?
    ensures Next(cfg, p, c) == Next(cfg, p.(lastBeat := c.now), c)
  {
  }

  function Survivors(cfg: PolicyConfig, peers: Peers, now: int): Peers {
    map ip | ip in peers && SurvivesReset(cfg, peers[ip], now) :: AfterReset(cfg, peers[ip], now)
  }

  /** A cleanup forgets exactly the peers not seen for too long and those whose ban is over, and changes
      nothing of the others but the time of a ban that was never one. */
  lemma CleanupForgetsIff(cfg: PolicyConfig, peers: Peers, now: int, ip: string)
    ensures ip in Survivors(cfg, peers, now) <==>
      && ip in peers && now - peers[ip].lastBeat < cfg.resetAfter
      && !(peers[ip].banned && now - peers[ip].bannedAt >= cfg.banning.timeout * 1000)
    ensures ip in Survivors(cfg, peers, now) ==>
      var p, q := peers[ip], Survivors(cfg, peers, now)[ip];
      q.(bannedAt := 0) == p.(bannedAt := 0) && (p.banned ==> q == p)
  {
  }

  /** What happens to the records: a call about a peer, or a cleanup of all. */
  datatype Event = About(ip: string, call: Call) | Cleanup(now: int)

  /** All records after calls about any peers, with cleanups in between. */
  function Tally(cfg: PolicyConfig, events: seq<Event>): Peers {
    if events == [] then map[]
    else
      var front := Tally(cfg, events[..|events| - 1]);
      match events[|events| - 1]
      case About(ip, call) => After(cfg, front, ip, call)
      case Cleanup(now) => Survivors(cfg, front, now)
  }

  /** The calls about a peer since its record was last forgotten, and the cleanups the record survived. */
  function LifeOf(cfg: PolicyConfig, events: seq<Event>, ip: string): seq<Call> {
    if events == [] then []
    else
      var front := events[..|events| - 1];
      match events[|events| - 1]
      case About(other, call) => LifeOf(cfg, front, ip) + if other == ip then [call] else []
      case Cleanup(now) =>
        if ip !in Tally(cfg, front) then LifeOf(cfg, front, ip)
        else if SurvivesReset(cfg, Tally(cfg, front)[ip], now)
          then LifeOf(cfg, front, ip) + [Call(SurvivedCleanup, now, false)]
        else []
  }

  /** When a peer's record is made: at the first call that looks at it. */
  function Born(cfg: PolicyConfig, calls: seq<Call>): int {
    if calls == [] then 0
    else
      var front, last := calls[..|calls| - 1], calls[|calls| - 1];
      if (forall c <- front :: Ignores(cfg, c)) then last.now else Born(cfg, front)
  }

  lemma {:induction false} IgnoredCallsLeaveNothing(cfg: PolicyConfig, born: int, calls: seq<Call>)
    requires forall c <- calls :: Ignores(cfg, c)
    ensures Record(cfg, born, calls) == NewPeer(cfg, born)
  {
    if calls != [] {
      IgnoredCallsLeaveNothing(cfg, born, calls[..|calls| - 1]);
    }
  }

  predicate LooksAtRecord(cfg: PolicyConfig, calls: seq<Call>) { exists c <- calls :: !Ignores(cfg, c) }

  lemma HistoryGrows(cfg: PolicyConfig, calls: seq<Call>, c: Call)
    ensures var seen := LooksAtRecord(cfg, calls);
      var p := if seen then Record(cfg, Born(cfg, calls), calls) else NewPeer(cfg, c.now);
      && (LooksAtRecord(cfg, calls + [c]) <==> seen || !Ignores(cfg, c))
      && (seen || !Ignores(cfg, c) ==> Record(cfg, Born(cfg, calls + [c]), calls + [c]) == Next(cfg, p, c).0)
  {
    var all := calls + [c];
    assert all[..|all| - 1] == calls && all[|all| - 1] == c;
    assert forall d :: d in all <==> d in calls || d == c;
    if forall d <- calls :: Ignores(cfg, d) {
      IgnoredCallsLeaveNothing(cfg, c.now, calls);
    }
  }

  lemma SurvivingIsNext(cfg: PolicyConfig, p: Peer, now: int)
    ensures Next(cfg, p, Call(SurvivedCleanup, now, false)).0 == AfterReset(cfg, p, now)
  {
  }

  /** The record of one peer is what its life makes of a new one. */
  ghost predicate IsHistory(cfg: PolicyConfig, peers: Peers, ip: string, life: seq<Call>) {
    && (ip in peers <==> LooksAtRecord(cfg, life))
    && (ip in peers ==> peers[ip] == Record(cfg, Born(cfg, life), life))
  }

  lemma CallContinues(cfg: PolicyConfig, peers: Peers, ip: string, life: seq<Call>, c: Call)
    requires IsHistory(cfg, peers, ip, life)
    ensures IsHistory(cfg, After(cfg, peers, ip, c), ip, life + [c])
  {
    HistoryGrows(cfg, life, c);
  }

  lemma CleanupContinues(cfg: PolicyConfig, peers: Peers, ip: string, life: seq<Call>, now: int)
    requires IsHistory(cfg, peers, ip, life) && ip in peers && SurvivesReset(cfg, peers[ip], now)
    ensures IsHistory(cfg, Survivors(cfg, peers, now), ip, life + [Call(SurvivedCleanup, now, false)])
  {
    HistoryGrows(cfg, life, Call(SurvivedCleanup, now, false));
    SurvivingIsNext(cfg, peers[ip], now);
  }

  /** Every peer's record is what its own calls since the last cleanup that forgot it make of a new
      one, whatever other peers do meanwhile. */
  lemma {:induction false} RecordsAreHistories(cfg: PolicyConfig, events: seq<Event>, ip: string)
    ensures IsHistory(cfg, Tally(cfg, events), ip, LifeOf(cfg, events, ip))
  {
    if events != [] {
      var front := events[..|events| - 1];
      RecordsAreHistories(cfg, front, ip);
      match events[|events| - 1]
      case About(other, call) =>
        if other == ip {
          CallContinues(cfg, Tally(cfg, front), ip, LifeOf(cfg, front, ip), call);
        } else {
          assert LifeOf(cfg, front, ip) + [] == LifeOf(cfg, front, ip);
        }
      case Cleanup(now) =>
        if ip in Tally(cfg, front) && SurvivesReset(cfg, Tally(cfg, front)[ip], now) {
          CleanupContinues(cfg, Tally(cfg, front), ip, LifeOf(cfg, front, ip), now);
        }
    }
  }

  lemma LifeGrows(cfg: PolicyConfig, life: seq<Call>, c: Call)
    requires IsLife(cfg, Born(cfg, life), life)
    requires c.kind.SurvivedCleanup? ==>
      LooksAtRecord(cfg, life) && SurvivesReset(cfg, Record(cfg, Born(cfg, life), life), c.now)
    ensures IsLife(cfg, Born(cfg, life + [c]), life + [c])
  {
    var all := life + [c];
    var born := Born(cfg, all);
    assert all[..|all| - 1] == life;
    forall i | 0 <= i < |all| && all[i].kind.SurvivedCleanup?
      ensures SurvivesReset(cfg, Record(cfg, born, all[..i]), all[i].now)
    {
      if i < |life| {
        assert all[..i] == life[..i] && life[i] in life;
      } else {
        assert all[..i] == life;
      }
    }
  }

  /** The lives of peers' records contain no cleanups but those survived, so what is proved of lives is
      proved of peers. */
  lemma {:induction false} LivesAreLives(cfg: PolicyConfig, events: seq<Event>, ip: string)
    requires forall i :: 0 <= i < |events| && events[i].About? ==> !events[i].call.kind.SurvivedCleanup?
    ensures var life := LifeOf(cfg, events, ip); IsLife(cfg, Born(cfg, life), life)
  {
    if events != [] {
      var front := events[..|events| - 1];
      LivesAreLives(cfg, front, ip);
      RecordsAreHistories(cfg, front, ip);
      match events[|events| - 1]
      case About(other, call) =>
        if other == ip {
          LifeGrows(cfg, LifeOf(cfg, front, ip), call);
        } else {
          assert LifeOf(cfg, front, ip) + [] == LifeOf(cfg, front, ip);
        }
      case Cleanup(now) =>
        if ip in Tally(cfg, front) && SurvivesReset(cfg, Tally(cfg, front)[ip], now) {
          LifeGrows(cfg, LifeOf(cfg, front, ip), Call(SurvivedCleanup, now, false));
        }
    }
  }

  /** Limits and batches hold for one life of a record only: a cleanup restores the limit of
      connections exactly if it forgets a record that had another one. */
  lemma CleanupKeepsLimitIff(cfg: PolicyConfig, peers: Peers, ip: string, now: int, later: int)
    requires ip in peers
    ensures RecordOf(cfg, Survivors(cfg, peers, now), ip, later).connLimit == peers[ip].connLimit
      <==> SurvivesReset(cfg, peers[ip], now) || peers[ip].connLimit == cfg.limits.limit
  {
  }

  /** The records of the peers a cleanup has not come to yet, and of those it has left. */
  function PartlyReset(cfg: PolicyConfig, peers: Peers, waiting: set<string>, now: int): Peers {
    map ip | ip in peers && (ip in waiting || SurvivesReset(cfg, peers[ip], now)) ::
      if ip in waiting then peers[ip] else AfterReset(cfg, peers[ip], now)
  }

  function ResetKey(cfg: PolicyConfig, peers: Peers, key: string, now: int): Peers
    requires key in peers
  {
    if SurvivesReset(cfg, peers[key], now) then peers[key := AfterReset(cfg, peers[key], now)] else peers - {key}
  }

  lemma ResetNext(cfg: PolicyConfig, peers: Peers, waiting: set<string>, key: string, now: int)
    requires key in waiting && waiting <= peers.Keys
    ensures ResetKey(cfg, PartlyReset(cfg, peers, waiting, now), key, now)
      == PartlyReset(cfg, peers, waiting - {key}, now)
  {
  }

  class PolicyServer {
    const config: PolicyConfig
    var stats: map<string, Stats>
    var whitelist: seq<string>
    var blacklist: seq<string>
    /** The records ever made. */
    ghost var records: set<Stats>

    ghost function Contents(): Peers
      requires Valid()
      reads this, records
    {
      map ip | ip in stats :: stats[ip].View()
    }

    /** Peers do not share records. */
    ghost predicate Valid()
      reads this
    {
      && (forall ip :: ip in stats ==> stats[ip] in records)
      && (forall a, b :: a in stats && b in stats && a != b ==> stats[a] != stats[b])
    }

    constructor (config: PolicyConfig, whitelist: seq<string>, blacklist: seq<string>)
      ensures Valid() && Contents() == map[] && this.config == config
    {
      this.config, this.whitelist, this.blacklist := config, whitelist, blacklist;
      stats, records := map[], {};
    }

    method NewStats(now: int) returns (x: Stats)
      ensures fresh(x) && x.View() == NewPeer(config, now)
    {
      x := new Stats(config.limits.limit, now);
    }

    /** Finds or makes a peer's record, and notes that the peer was seen. */
    method Get(ip: string, now: int) returns (x: Stats)
      requires Valid()
      modifies `stats, `records, records
      ensures Valid() && ip in stats && stats[ip] == x
        && x.View() == RecordOf(config, old(Contents()), ip, now).(lastBeat := now)
      ensures fresh(records - old(records))
      ensures Contents() == old(Contents())[ip := RecordOf(config, old(Contents()), ip, now).(lastBeat := now)]
    {
      if ip !in stats {
        x := NewStats(now);
        stats, records := stats[ip := x], records + {x};
      } else {
        x := stats[ip];
        x.lastBeat := now;
      }
    }

    method ForceBan(x: Stats, ip: string, now: int)
      modifies x
      ensures x.View() == PolicySpec.ForceBan(config, old(x.View()), Call(SocketFlood, now, ip in whitelist))
    {
      if !config.banning.enabled || ip in whitelist {
        return;
      }
      x.bannedAt := now;
      if !x.banned {
        x.banned := true;
      }
    }

    // ---------- the part of each call that works on the record found ----------

    method TakeConnection(x: Stats, ip: string, now: int) returns (r: bool)
      requires x.lastBeat == now && config.limits.enabled && AfterGrace(config, now)
      modifies x
      ensures (x.View(), r) == Next(config, old(x.View()), Call(Connection, now, ip in whitelist))
    {
      var n := x.DecrLimit();
      r := n > 0;
    }

    method CountMalformed(x: Stats, ip: string, now: int) returns (r: bool)
      requires x.lastBeat == now
      modifies x
      ensures (x.View(), r) == Next(config, old(x.View()), Call(MalformedRequest, now, ip in whitelist))
    {
      var n := x.IncrMalformed();
      if n >= config.banning.malformedLimit {
        ForceBan(x, ip, now);
        return false;
      }
      return true;
    }

    method CountValidity(x: Stats, validShare: bool)
      modifies x
      ensures x.View() == CountShare(config, old(x.View()), validShare)
    {
      if validShare {
        x.validShares := x.validShares + 1;
        if config.limits.enabled {
          x.IncrLimit(config.limits.limitJump);
        }
      } else {
        x.invalidShares := x.invalidShares + 1;
      }
    }

    method JudgeShare(x: Stats, ip: string, validShare: bool, now: int) returns (r: bool)
      requires x.lastBeat == now
      modifies x
      ensures (x.View(), r) == Next(config, old(x.View()), Call(Share(validShare), now, ip in whitelist))
    {
      CountValidity(x, validShare);
      var totalShares := x.validShares + x.invalidShares;
      if totalShares < config.banning.checkThreshold {
        return true;
      }
      var valid, invalid := x.validShares, x.invalidShares;
      x.ResetShares();
      if TooManyInvalid(config, invalid, valid) {
        ForceBan(x, ip, now);
        return false;
      }
      return true;
    }

    // ---------- the calls ----------

    method BanClient(ip: string, now: int)
      requires Valid()
      modifies `stats, `records, records
      ensures Valid() && fresh(records - old(records))
      ensures Contents() == After(config, old(Contents()), ip, Call(SocketFlood, now, ip in whitelist))
    {
      ghost var start := Contents();
      var x := Get(ip, now);
      ghost var peers := Contents();
      ForceBan(x, ip, now);
      OneChanged(peers, x, ip);
      CallChangesOne(config, start, ip, Call(SocketFlood, now, ip in whitelist));
    }

    /** A change to one record is a change to one peer. */
    lemma OneChanged(peers: Peers, x: Stats, ip: string)
      requires Valid() && ip in stats && stats[ip] == x && peers.Keys == stats.Keys
      requires forall other :: other in stats && stats[other] != x ==> peers[other] == stats[other].View()
      ensures Contents() == peers[ip := x.View()]
    {
    }

    method IsBanned(ip: string, now: int) returns (r: bool)
      requires Valid()
      modifies `stats, `records, records
      ensures Valid() && fresh(records - old(records))
      ensures var c := Call(BanCheck, now, ip in whitelist);
        Contents() == After(config, old(Contents()), ip, c) && r == !AnswerTo(config, old(Contents()), ip, c)
      ensures r <==> ip in old(Contents()) && old(Contents())[ip].banned
    {
      ghost var start := Contents();
      var x := Get(ip, now);
      CallChangesOne(config, start, ip, Call(BanCheck, now, ip in whitelist));
      r := x.banned;
    }

    method ApplyLimitPolicy(ip: string, now: int) returns (r: bool)
      requires Valid()
      modifies `stats, `records, records
      ensures Valid() && fresh(records - old(records))
      ensures var c := Call(Connection, now, ip in whitelist);
        Contents() == After(config, old(Contents()), ip, c) && r == AnswerTo(config, old(Contents()), ip, c)
      ensures !config.limits.enabled || now - config.startedAt <= config.grace ==>
        r && Contents() == old(Contents())
    {
      if !config.limits.enabled {
        return true;
      }
      if now - config.startedAt > config.grace {
        ghost var start := Contents();
        var x := Get(ip, now);
        ghost var peers := Contents();
        r := TakeConnection(x, ip, now);
        OneChanged(peers, x, ip);
        CallChangesOne(config, start, ip, Call(Connection, now, ip in whitelist));
        return;
      }
      return true;
    }

    method ApplyLoginPolicy(login: string, ip: string, now: int) returns (r: bool)
      requires Valid()
      modifies `stats, `records, records
      ensures Valid() && fresh(records - old(records))
      ensures var c := Call(Login(login in blacklist), now, ip in whitelist);
        Contents() == After(config, old(Contents()), ip, c) && r == AnswerTo(config, old(Contents()), ip, c)
      ensures r <==> login !in blacklist
      ensures r ==> Contents() == old(Contents())
    {
      if login in blacklist {
        ghost var start := Contents();
        var x := Get(ip, now);
        ghost var peers := Contents();
        ForceBan(x, ip, now);
        OneChanged(peers, x, ip);
        CallChangesOne(config, start, ip, Call(Login(true), now, ip in whitelist));
        return false;
      }
      return true;
    }

    method ApplyMalformedPolicy(ip: string, now: int) returns (r: bool)
      requires Valid()
      modifies `stats, `records, records
      ensures Valid() && fresh(records - old(records))
      ensures var c := Call(MalformedRequest, now, ip in whitelist);
        Contents() == After(config, old(Contents()), ip, c) && r == AnswerTo(config, old(Contents()), ip, c)
    {
      ghost var start := Contents();
      var x := Get(ip, now);
      ghost var peers := Contents();
      r := CountMalformed(x, ip, now);
      OneChanged(peers, x, ip);
      CallChangesOne(config, start, ip, Call(MalformedRequest, now, ip in whitelist));
    }

    method ApplySharePolicy(ip: string, validShare: bool, now: int) returns (r: bool)
      requires Valid()
      modifies `stats, `records, records
      ensures Valid() && fresh(records - old(records))
      ensures var c := Call(Share(validShare), now, ip in whitelist);
        Contents() == After(config, old(Contents()), ip, c) && r == AnswerTo(config, old(Contents()), ip, c)
    {
      ghost var start := Contents();
      var x := Get(ip, now);
      ghost var peers := Contents();
      r := JudgeShare(x, ip, validShare, now);
      OneChanged(peers, x, ip);
      CallChangesOne(config, start, ip, Call(Share(validShare), now, ip in whitelist));
    }

    /** The first half of a round of `resetStats`: lifts a ban that is over, and says whether there was one. */
    method LiftBan(m: Stats, now: int) returns (lifted: bool)
      modifies m
      ensures var v := old(m.View());
        && m.View() == (if BanIsOver(config, v, now) then v.(bannedAt := 0, banned := false) else v)
        && lifted == (BanIsOver(config, v, now) && v.banned)
    {
      lifted := false;
      if now - m.bannedAt >= config.banning.timeout * 1000 {
        m.bannedAt := 0;
        if m.banned {
          m.banned := false;
          lifted := true;
        }
      }
    }

    /** One round of the loop of `resetStats`. */
    method ResetOne(key: string, now: int)
      requires Valid() && key in stats
      modifies `stats, stats[key]
      ensures Valid() && stats.Keys <= old(stats.Keys)
      ensures Contents() == ResetKey(config, old(Contents()), key, now)
    {
      ghost var before := Contents();
      var m := stats[key];
      var lastBeat := m.lastBeat;
      var lifted := LiftBan(m, now);
      if lifted || now - lastBeat >= config.resetAfter {
        stats := stats - {key};
        assert Contents() == before - {key};
      } else {
        OneChanged(before, m, key);
      }
    }

    /** `resetStats` goes over all records, in any order. */
    method ResetAll(now: int)
      requires Valid()
      modifies `stats, records
      ensures Valid()
      ensures Contents() == Survivors(config, old(Contents()), now)
    {
      var keys := stats.Keys;
      ghost var before := Contents();
      while keys != {}
        invariant Valid() && keys <= before.Keys
        invariant Contents() == PartlyReset(config, before, keys, now)
        decreases |keys|
      {
        var key :| key in keys;
        assert key in Contents();
        ResetNext(config, before, keys, key, now);
        ResetOne(key, now);
        keys := keys - {key};
      }
    }
  }
}
