/** Connections of the stratum server: the pool of tags handed to connection handlers, the sessions
    that have subscribed, and the extranonce each gets (proxy/stratum.go, proxy/handlers.go). */
module Stratum {
  import opened Wrappers
  import opened Wire
  import Coinbase
  import Difficulty

  // ---------- tags ----------

  function Tags(n: nat): (r: set<nat>)
    ensures forall t: nat :: t in r <==> t < n
  {
    if n == 0 then {} else Tags(n - 1) + {n - 1}
  }

  function Members(s: seq<nat>): set<nat> { set t <- s }

  predicate NoRepeats(s: seq<nat>) { forall i, j :: 0 <= i < j < |s| ==> s[i] != s[j] }

  predicate Injective<K>(held: map<K, nat>) { forall a, b :: a in held && b in held && a != b ==> held[a] != held[b] }

  /** Every tag below `n` is either free, once, or held by exactly one handler. */
  predicate Partition<K>(free: seq<nat>, held: map<K, nat>, n: nat) {
    && NoRepeats(free) && Injective(held)
    && Members(free) !! held.Values && Members(free) + held.Values == Tags(n)
  }

  lemma OneMore(s: set<nat>, t: nat)
    requires t !in s
    ensures |s + {t}| == |s| + 1
  {
  }

  lemma {:induction false} TagCount(n: nat)
    ensures |Tags(n)| == n
  {
    if n > 0 {
      TagCount(n - 1);
      OneMore(Tags(n - 1), n - 1);
    }
  }

  lemma {:induction false} MemberCount(s: seq<nat>)
    requires NoRepeats(s)
    ensures |Members(s)| == |s|
  {
    if s != [] {
      var front, last := s[..|s| - 1], s[|s| - 1];
      MemberCount(front);
      assert s == front + [last];
      assert Members(s) == Members(front) + {last};
    }
  }

  lemma {:induction false} ValueCount<K>(held: map<K, nat>)
    requires Injective(held)
    ensures |held.Values| == |held|
  {
    if held.Keys == {} {
      assert held.Values == {};
    } else {
      var k :| k in held;
      var rest := held - {k};
      ValueCount(rest);
      ReleaseValues(held, k);
      assert held.Keys == rest.Keys + {k};
    }
  }

  lemma ReleaseValues<K>(held: map<K, nat>, k: K)
    requires Injective(held) && k in held
    ensures (held - {k}).Values == held.Values - {held[k]}
  {
    var rest := held - {k};
    forall t ensures t in rest.Values <==> t in held.Values - {held[k]} {
      if t in held.Values - {held[k]} {
        var a :| a in held && held[a] == t;
        assert a in rest;
      }
    }
  }

  /** Free and held tags together are as many as there are tags: a holder finds room in the pool. */
  lemma FreeAndHeld<K>(free: seq<nat>, held: map<K, nat>, n: nat)
    requires Partition(free, held, n)
    ensures |free| + |held| == n
  {
    TagCount(n);
    MemberCount(free);
    ValueCount(held);
  }

  lemma RoomToReturn<K>(free: seq<nat>, held: map<K, nat>, n: nat, k: K)
    requires Partition(free, held, n) && k in held
    ensures |free| < n
  {
    FreeAndHeld(free, held, n);
  }

  lemma TakeKeepsPartition<K>(free: seq<nat>, held: map<K, nat>, n: nat, k: K)
    requires Partition(free, held, n) && free != [] && k !in held
    ensures Partition(free[1..], held[k := free[0]], n)
  {
    var now := held[k := free[0]];
    assert free == [free[0]] + free[1..];
    assert Members(free) == Members(free[1..]) + {free[0]};
    assert now.Values == held.Values + {free[0]} by {
      assert now[k] == free[0];
      forall t | t in held.Values ensures t in now.Values {
        var a :| a in held && held[a] == t;
        assert now[a] == t;
      }
    }
  }

  lemma ReturnKeepsPartition<K>(free: seq<nat>, held: map<K, nat>, n: nat, k: K)
    requires Partition(free, held, n) && k in held
    ensures Partition(free + [held[k]], held - {k}, n)
  {
    ReleaseValues(held, k);
    assert Members(free + [held[k]]) == Members(free) + {held[k]};
  }

  lemma TagFits<K>(free: seq<nat>, held: map<K, nat>, n: nat, k: K)
    requires Partition(free, held, n) && k in held
    ensures held[k] < n
  {
    assert held[k] in Tags(n);
  }

  lemma FreeOrHeld<K>(free: seq<nat>, held: map<K, nat>, n: nat, tag: nat)
    requires Partition(free, held, n) && tag < n
    ensures tag in free || exists k :: k in held && held[k] == tag
  {
    assert tag in Tags(n);
  }

  lemma HeldTagsFit<K>(free: seq<nat>, held: map<K, nat>, n: nat, a: K, b: K)
    requires Partition(free, held, n) && a in held && b in held && a != b
    ensures held[a] < n && held[b] < n && held[a] != held[b]
  {
    assert held[a] in Tags(n) && held[b] in Tags(n);
  }

  // ---------- extranonces ----------

  const UINT16_LIMIT: nat := 0x1_0000

  /** Two 16-bit numbers as one of 32 bits. */
  function Joined(high: nat, low: nat): (n: nat)
    requires high < UINT16_LIMIT && low < UINT16_LIMIT
    ensures n < 0x1_0000_0000
  {
    high * 0x1_0000 + low
  }

  lemma JoinedIsInjective(a0: nat, b0: nat, a1: nat, b1: nat)
    requires a0 < UINT16_LIMIT && b0 < UINT16_LIMIT && a1 < UINT16_LIMIT && b1 < UINT16_LIMIT
    ensures Joined(a0, b0) == Joined(a1, b1) <==> a0 == a1 && b0 == b1
  {
  }

  /** The first extranonce of a connection: the node's id above the connection's 16-bit tag. */
  function ExtraNonce1(id: nat, tag: nat): string
    requires id < UINT16_LIMIT && tag < UINT16_LIMIT
  {
    Hex8(Joined(id, tag))
  }

  /** The extranonce of a connection with any tag of the pool, cut to 16 bits. */
  function TagNonce(id: nat, tag: nat): string
    requires id < UINT16_LIMIT
  {
    ExtraNonce1(id, tag % UINT16_LIMIT)
  }

  /** Its digits spell the node's id times 65536, and the low 16 bits of the tag. */
  lemma ExtranonceIsNumber(id: nat, tag: nat)
    requires id < 0x1_0000
    ensures HexNumber(TagNonce(id, tag)) == Some(id * 0x1_0000 + tag % 0x1_0000)
  {
    Difficulty.Hex8IsNumber(Joined(id, tag % UINT16_LIMIT));
  }

  lemma DifferentBytes(n0: nat, n1: nat)
    requires n0 < 0x1_0000_0000 && n1 < 0x1_0000_0000 && n0 != n1
    ensures var e0, e1 := DecodeHex(Hex8(n0)), DecodeHex(Hex8(n1));
      e0.Some? && e1.Some? && e0 != e1 && |e0.value| == |e1.value| == Coinbase.EXTRANONCE1_SIZE
  {
    Hex8Decodes(n0);
    Hex8Decodes(n1);
  }

  lemma SplitsApart(id0: nat, t0: nat, id1: nat, t1: nat)
    requires id0 < UINT16_LIMIT && t0 < UINT16_LIMIT && id1 < UINT16_LIMIT && t1 < UINT16_LIMIT
    ensures ExtraNonce1(id0, t0) == ExtraNonce1(id1, t1) <==> id0 == id1 && t0 == t1
  {
    JoinedIsInjective(id0, t0, id1, t1);
    if Joined(id0, t0) != Joined(id1, t1) {
      DifferentBytes(Joined(id0, t0), Joined(id1, t1));
    }
  }

  /** Node and connection can be read back from the extranonce. */
  lemma ExtraNonceIdentifies(id0: nat, tag0: nat, id1: nat, tag1: nat)
    requires id0 < UINT16_LIMIT && id1 < UINT16_LIMIT
    ensures TagNonce(id0, tag0) == TagNonce(id1, tag1) <==> id0 == id1 && tag0 % UINT16_LIMIT == tag1 % UINT16_LIMIT
  {
    SplitsApart(id0, tag0 % UINT16_LIMIT, id1, tag1 % UINT16_LIMIT);
  }

  lemma HeldNoncesDiffer<K>(id: nat, free: seq<nat>, held: map<K, nat>, n: nat, a: K, b: K)
    requires Partition(free, held, n) && a in held && b in held && a != b && n <= UINT16_LIMIT && id < UINT16_LIMIT
    ensures TagNonce(id, held[a]) != TagNonce(id, held[b])
  {
    HeldTagsFit(free, held, n, a, b);
    ExtraNonceIdentifies(id, held[a], id, held[b]);
  }

  /** The coinbase bytes a miner with this extranonce works on. */
  function CoinbaseBytes(first: Bytes, second: Bytes, extraNonce1: string, extraNonce2: Bytes): Option<Bytes> {
    var e := DecodeHex(extraNonce1);
    if e.None? then None else Some(first + e.value + extraNonce2 + second)
  }

  lemma DifferentCoinbases(first: Bytes, second: Bytes, e0: Bytes, a: Bytes, e1: Bytes, b: Bytes)
    requires |e0| == |e1| == Coinbase.EXTRANONCE1_SIZE && |a| == |b| == Coinbase.EXTRANONCE2_SIZE && e0 != e1
    ensures first + e0 + a + second != first + e1 + b + second
  {
    if first + e0 + a + second == first + e1 + b + second {
      Coinbase.ExtranoncesAreInjective(first, second, e0, a, e1, b);
    }
  }

  /** Connections with different extranonces, on one node or on two, never work on the same
      coinbase, whatever their second extranonce. */
  lemma DisjointSearchSpaces(first: Bytes, second: Bytes, id0: nat, tag0: nat, id1: nat, tag1: nat, a: Bytes, b: Bytes)
    requires id0 < UINT16_LIMIT && id1 < UINT16_LIMIT && |a| == |b| == Coinbase.EXTRANONCE2_SIZE
    requires TagNonce(id0, tag0) != TagNonce(id1, tag1)
    ensures CoinbaseBytes(first, second, TagNonce(id0, tag0), a).Some?
    ensures CoinbaseBytes(first, second, TagNonce(id0, tag0), a) != CoinbaseBytes(first, second, TagNonce(id1, tag1), b)
  {
    var n0, n1 := Joined(id0, tag0 % UINT16_LIMIT), Joined(id1, tag1 % UINT16_LIMIT);
    DifferentBytes(n0, n1);
    DifferentCoinbases(first, second, DecodeHex(Hex8(n0)).value, a, DecodeHex(Hex8(n1)).value, b);
  }

  /** Tags become 16 bits wide: all tags of a pool get different extranonces exactly up to 65536 connections. */
  lemma TagsFitExactly(id: nat, maxConn: nat)
    requires id < UINT16_LIMIT
    ensures (forall s: nat, t: nat :: s < t < maxConn ==> TagNonce(id, s) != TagNonce(id, t)) <==>
      maxConn <= UINT16_LIMIT
  {
    if maxConn <= UINT16_LIMIT {
      forall s: nat, t: nat | s < t < maxConn ensures TagNonce(id, s) != TagNonce(id, t) {
        ExtraNonceIdentifies(id, s, id, t);
      }
    } else {
      ExtraNonceIdentifies(id, 0, id, UINT16_LIMIT);
    }
  }

  // ---------- the server ----------

  /** A buffered channel. */
  class Channel {
    const capacity: nat
    var items: seq<nat>

    constructor (capacity: nat)
      ensures this.capacity == capacity && items == []
    {
      this.capacity := capacity;
      items := [];
    }

    /** Sending to a full channel would block. */
    method Send(x: nat)
      requires |items| < capacity
      modifies this
      ensures items == old(items) + [x]
    {
      items := items + [x];
    }

    /** Receiving from an empty channel would block. */
    method Receive() returns (x: nat)
      requires items != []
      modifies this
      ensures [x] + items == old(items)
    {
      x, items := items[0], items[1..];
    }
  }

  class Session {
    const ip: string
    const tag: nat
    var extraNonce1: string

    constructor (ip: string, tag: nat)
      ensures this.ip == ip && this.tag == tag && extraNonce1 == ""
    {
      this.ip, this.tag := ip, tag;
      extraNonce1 := "";
    }
  }

  /** What a handler reads next from its connection: an overlong line, the end, an error, a line
      too short to be a request, text that is no request, or a request whose handling or answer
      may fail. */
  datatype Event = Flood | EndOfFile | ReadError | Blank | Malformed | SubscribeRequest(answerFails: bool)
    | OtherRequest(fails: bool)

  class StratumServer {
    const id: nat
    const maxConn: nat
    const accept: Channel
    var sessions: set<Session>
    /** The running handlers and the tag each will return. */
    ghost var handlers: map<Session, nat>
    /** Sessions whose handler has returned without removing them, and the tag it had. */
    ghost var left: map<Session, nat>

    ghost predicate Valid()
      reads this, accept, handlers.Keys, left.Keys
    {
      && id < UINT16_LIMIT && accept.capacity == maxConn
      && Partition(accept.items, handlers, maxConn)
      && sessions <= handlers.Keys + left.Keys && handlers.Keys !! left.Keys
      && (forall cs :: cs in handlers ==> cs.tag == handlers[cs] % UINT16_LIMIT)
      && (forall cs :: cs in handlers ==> cs.extraNonce1 in {"", TagNonce(id, handlers[cs])})
      && (forall cs :: cs in handlers && cs in sessions ==> cs.extraNonce1 != "")
      && (forall cs :: cs in left ==> left[cs] < maxConn && cs.extraNonce1 == TagNonce(id, left[cs]))
    }

    /** `ListenTCP` fills the pool with one tag for every connection. */
    constructor (id: nat, maxConn: nat)
      requires id < UINT16_LIMIT
      ensures Valid() && this.id == id && this.maxConn == maxConn && sessions == {} && handlers == map[]
        && left == map[]
      ensures accept.items == seq(maxConn, i => i) && fresh(accept)
    {
      var channel := new Channel(maxConn);
      for i := 0 to maxConn
        invariant fresh(channel) && channel.capacity == maxConn && channel.items == seq(i, k => k)
      {
        channel.Send(i);
        assert seq(i + 1, k => k) == seq(i, k => k) + [i];
      }
      assert Members(channel.items) == Tags(maxConn) by {
        forall t: nat | t < maxConn ensures t in channel.items {
          assert channel.items[t] == t;
        }
      }
      this.id, this.maxConn, accept := id, maxConn, channel;
      sessions, handlers, left := {}, map[], map[];
    }

    /** A connection that policy admits gets a free tag and a handler; None means that it was turned away. */
    method AcceptConnection(ip: string, refused: bool) returns (r: Option<Session>)
      requires Valid() && (refused || accept.items != [])
      modifies this, accept
      ensures Valid() && sessions == old(sessions) && left == old(left)
      ensures r.None? <==> refused
      ensures refused ==> accept.items == old(accept.items) && handlers == old(handlers)
      ensures !refused ==>
        accept.items == old(accept.items)[1..] && fresh(r.value) && r.value.ip == ip && r.value.extraNonce1 == ""
      ensures !refused ==> handlers == old(handlers)[r.value := old(accept.items)[0]]
    {
      if refused {
        return None;
      }
      ghost var free := accept.items;
      var tag := accept.Receive();
      var cs := new Session(ip, tag % UINT16_LIMIT);
      TakeKeepsPartition(free, handlers, maxConn, cs);
      handlers := handlers[cs := tag];
      return Some(cs);
    }

    /** `handleSubscribeRPC` */
    method Subscribe(cs: Session)
      requires Valid() && cs in handlers
      modifies `sessions, cs
      ensures Valid() && sessions == old(sessions) + {cs}
      ensures cs.extraNonce1 == TagNonce(id, handlers[cs])
    {
      sessions := sessions + {cs};
      cs.extraNonce1 := ExtraNonce1(id, cs.tag);
    }

    /** The end of a handler in `ListenTCP`: the tag goes back, and there is room for it. */
    method ReturnTag(cs: Session, tag: nat)
      requires Valid() && cs in handlers && handlers[cs] == tag
      modifies `handlers, `left, accept
      ensures Valid() && handlers == old(handlers) - {cs} && accept.items == old(accept.items) + [tag]
      ensures left == if cs in sessions then old(left)[cs := tag] else old(left)
    {
      TagFits(accept.items, handlers, maxConn, cs);
      RoomToReturn(accept.items, handlers, maxConn, cs);
      ReturnKeepsPartition(accept.items, handlers, maxConn, cs);
      accept.Send(tag);
      handlers := handlers - {cs};
      if cs in sessions {
        left := left[cs := tag];
      }
    }

    /** One round of `handleTCPClient`, and when it is the last, the end of the handler. The session
        is forgotten after every ending but a flood, which reports no error. */
    method HandleNext(cs: Session, tag: nat, event: Event) returns (running: bool)
      requires Valid() && cs in handlers && handlers[cs] == tag
      modifies this, accept, cs
      ensures Valid()
      ensures running <==> event.Blank? || event == SubscribeRequest(false) || event == OtherRequest(false)
      ensures handlers == if running then old(handlers) else old(handlers) - {cs}
      ensures accept.items == if running then old(accept.items) else old(accept.items) + [tag]
      ensures sessions == if running then old(sessions) + (if event.SubscribeRequest? then {cs} else {})
                          else if event.Flood? then old(sessions) else old(sessions) - {cs}
      ensures left == if event.Flood? && cs in old(sessions) then old(left)[cs := tag] else old(left)
      ensures cs.extraNonce1 == if event.SubscribeRequest? then TagNonce(id, tag) else old(cs.extraNonce1)
    {
      running := true;
      var err := false;
      match event {
        case Flood =>
          running := false;
        case EndOfFile =>
          DropSession(cs);
          running := false;
        case ReadError =>
          running, err := false, true;
        case Blank =>
        case Malformed =>
          running, err := false, true;
        case SubscribeRequest(answerFails) =>
          Subscribe(cs);
          running, err := !answerFails, answerFails;
        case OtherRequest(fails) =>
          running, err := !fails, fails;
      }
      if !running {
        if err {
          DropSession(cs);
        }
        ReturnTag(cs, tag);
      }
    }

    /** A job or a difficulty that cannot be sent makes the server forget the session; its handler
        goes on. */
    method DropSession(cs: Session)
      requires Valid()
      modifies `sessions
      ensures Valid() && sessions == old(sessions) - {cs}
    {
      sessions := sessions - {cs};
    }

    /** With at most 65536 connections, two subscribed connections whose handlers run have different
        extranonces, so no coinbase of one is a coinbase of the other. */
    lemma SubscribersAreDisjoint(a: Session, b: Session, first: Bytes, second: Bytes, a2: Bytes, b2: Bytes)
      requires Valid() && maxConn <= UINT16_LIMIT
      requires a in handlers && b in handlers && a != b && a in sessions && b in sessions
      requires |a2| == |b2| == Coinbase.EXTRANONCE2_SIZE
      ensures CoinbaseBytes(first, second, a.extraNonce1, a2).Some?
      ensures CoinbaseBytes(first, second, a.extraNonce1, a2) != CoinbaseBytes(first, second, b.extraNonce1, b2)
    {
      HeldNoncesDiffer(id, accept.items, handlers, maxConn, a, b);
      DisjointSearchSpaces(first, second, id, handlers[a], id, handlers[b], a2, b2);
    }

    /** So all registered sessions differ, as long as none is left behind by a flood. */
    lemma RegisteredAreDisjoint(a: Session, b: Session)
      requires Valid() && maxConn <= UINT16_LIMIT && sessions !! left.Keys
      requires a in sessions && b in sessions && a != b
      ensures a.extraNonce1 != b.extraNonce1
    {
      HeldNoncesDiffer(id, accept.items, handlers, maxConn, a, b);
    }

    /** The tag of a session left behind is free again or held by a running handler. */
    lemma LeftTagIsAround(a: Session)
      requires Valid() && a in left
      ensures left[a] in accept.items || exists b :: b in handlers && handlers[b] == left[a]
    {
      FreeOrHeld(accept.items, handlers, maxConn, left[a]);
    }

    /** The same across nodes with different ids, for any number of connections. */
    lemma NodesAreDisjoint(other: StratumServer, a: Session, b: Session, first: Bytes, second: Bytes, a2: Bytes,
                           b2: Bytes)
      requires Valid() && other.Valid() && id != other.id
      requires a in handlers && b in other.handlers && a in sessions && b in other.sessions
      requires |a2| == |b2| == Coinbase.EXTRANONCE2_SIZE
      ensures CoinbaseBytes(first, second, a.extraNonce1, a2) != CoinbaseBytes(first, second, b.extraNonce1, b2)
    {
      ExtraNonceIdentifies(id, handlers[a], other.id, other.handlers[b]);
      DisjointSearchSpaces(first, second, id, handlers[a], other.id, other.handlers[b], a2, b2);
    }
  }

  /** A registered session left behind gets a twin: let in connections until its tag has been handed
      out again, unless a handler holds it already, and let the holder subscribe. */
  method FloodedSessionGetsTwin(server: StratumServer, a: Session, tag: nat, holder: Option<Session>, ip: string)
    returns (b: Session)
    requires server.Valid() && a in server.sessions && a in server.left && server.left[a] == tag
    requires holder.Some? ==> holder.value in server.handlers && server.handlers[holder.value] == tag
    requires holder.None? ==> tag in server.accept.items
    modifies server, server.accept, server.handlers.Keys
    ensures server.Valid() && a in server.sessions && b in server.sessions && a != b
    ensures a !in server.handlers && b in server.handlers && a.extraNonce1 == b.extraNonce1
  {
    if holder.Some? {
      b := holder.value;
    } else {
      var next := server.accept.items[0];
      var first := server.AcceptConnection(ip, false);
      b := first.value;
      while next != tag
        invariant server.Valid() && b in server.handlers && server.handlers[b] == next && fresh(b)
        invariant a in server.sessions && a in server.left && server.left[a] == tag
        invariant next == tag || tag in server.accept.items
        decreases |server.accept.items|
      {
        next := server.accept.items[0];
        var another := server.AcceptConnection(ip, false);
        b := another.value;
      }
    }
    var _ := server.HandleNext(b, tag, SubscribeRequest(false));
  }
}
