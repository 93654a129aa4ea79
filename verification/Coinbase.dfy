/** The coinbase transaction, built in two halves around eight extranonce bytes
    (bitcoin/btc_coinbase.go), against a parser of the transaction wire format. */
module Coinbase {
  import opened Wrappers
  import opened Wire
  import opened ScriptNumbers

  const EXTRANONCE1_SIZE := 4
  const EXTRANONCE2_SIZE := 4
  const COINBASE_TX_VERSION := 2

  // ---------- the wire format of a transaction ----------

  datatype TxIn = TxIn(prevHash: Bytes, prevIndex: nat, script: Bytes, sequence: nat)
  datatype TxOut = TxOut(value: int, script: Bytes)
  datatype Transaction = Transaction(version: int, vin: seq<TxIn>, vout: seq<TxOut>, lockTime: nat)

  type Parsed<T> = Option<(T, Bytes)>

  function TakeIn(bs: Bytes): Parsed<TxIn> {
    if |bs| < 32 then None
    else
      var index := TakeLE(bs[32..], 4);
      if index.None? then None
      else
        var script := TakeWithLength(index.value.1);
        if script.None? then None
        else
          var sequence := TakeLE(script.value.1, 4);
          if sequence.None? then None
          else Some((TxIn(bs[..32], index.value.0, script.value.0, sequence.value.0), sequence.value.1))
  }

  function TakeOut(bs: Bytes): Parsed<TxOut> {
    var value := TakeLE(bs, 8);
    if value.None? then None
    else
      var script := TakeWithLength(value.value.1);
      if script.None? then None
      else Some((TxOut(ToSigned(value.value.0, TWO64), script.value.0), script.value.1))
  }

  function TakeIns(n: nat, bs: Bytes): Parsed<seq<TxIn>> {
    if n == 0 then Some(([], bs))
    else
      var one := TakeIn(bs);
      if one.None? then None
      else
        var rest := TakeIns(n - 1, one.value.1);
        if rest.None? then None else Some(([one.value.0] + rest.value.0, rest.value.1))
  }

  function TakeOuts(n: nat, bs: Bytes): Parsed<seq<TxOut>> {
    if n == 0 then Some(([], bs))
    else
      var one := TakeOut(bs);
      if one.None? then None
      else
        var rest := TakeOuts(n - 1, one.value.1);
        if rest.None? then None else Some(([one.value.0] + rest.value.0, rest.value.1))
  }

  /** A transaction from the front of a buffer. An input count of zero would announce the
      extended format with witnesses, which is not read here. */
  function TakeTransaction(bs: Bytes): Parsed<Transaction> {
    var version := TakeLE(bs, 4);
    if version.None? then None
    else
      var inCount := TakeCompactSize(version.value.1);
      if inCount.None? || inCount.value.0 == 0 then None
      else
        var vin := TakeIns(inCount.value.0, inCount.value.1);
        if vin.None? then None
        else
          var outCount := TakeCompactSize(vin.value.1);
          if outCount.None? then None
          else
            var vout := TakeOuts(outCount.value.0, outCount.value.1);
            if vout.None? then None
            else
              var lockTime := TakeLE(vout.value.1, 4);
              if lockTime.None? then None
              else Some((Transaction(ToSigned(version.value.0, TWO32), vin.value.0, vout.value.0, lockTime.value.0),
                         lockTime.value.1))
  }

  // ---------- the two halves ----------

  const NULL_HASH: Bytes := ToLE(0, 32)
  const NULL_INDEX: nat := 0xffff_ffff

  /** Everything before the extranonces: version, one null input, the script's length and first part. */
  function FirstHalf(script1: Bytes, script2: Bytes): Bytes {
    ToLE(COINBASE_TX_VERSION, 4) + (CompactSize(1) + (NULL_HASH + (ToLE(NULL_INDEX, 4)
    + (CompactSize(|script1| + EXTRANONCE1_SIZE + EXTRANONCE2_SIZE + |script2|) + script1))))
  }

  predicate IsAmount(v: int) { -0x8000_0000_0000_0000 <= v < 0x8000_0000_0000_0000 }

  function PackOut(o: TxOut): Bytes
    requires IsAmount(o.value)
  {
    ToLE(ToUnsigned(o.value, TWO64), 8) + WithLength(o.script)
  }

  /** The reward output, and the commitment output if the template asks for one. */
  function Outputs(value: int, voutScript: Bytes, commitment: Bytes): seq<TxOut> {
    if commitment == [] then [TxOut(value, voutScript)] else [TxOut(value, voutScript), TxOut(0, commitment)]
  }

  function PackOutputs(value: int, voutScript: Bytes, commitment: Bytes): Bytes
    requires IsAmount(value)
  {
    PackOut(TxOut(value, voutScript)) + if commitment == [] then [] else PackOut(TxOut(0, commitment))
  }

  /** Everything after the extranonces: the script's second part, sequence, outputs, lock time. */
  function SecondHalf(script2: Bytes, value: int, voutScript: Bytes, commitment: Bytes): Bytes
    requires IsAmount(value)
  {
    script2 + Ending(value, voutScript, commitment)
  }

  function Ending(value: int, voutScript: Bytes, commitment: Bytes): Bytes
    requires IsAmount(value)
  {
    ToLE(0, 4) + (CompactSize(if commitment == [] then 1 else 2)
                  + (PackOutputs(value, voutScript, commitment) + ToLE(0, 4)))
  }

  /** The transaction the miner's extranonces complete, in full. */
  function Completed(script1: Bytes, script2: Bytes, value: int, voutScript: Bytes, commitment: Bytes, en1: Bytes,
                     en2: Bytes): Transaction {
    Transaction(2, [TxIn(seq(32, i => 0), 0xffff_ffff, script1 + en1 + en2 + script2, 0)],
                [TxOut(value, voutScript)] + (if commitment == [] then [] else [TxOut(0, commitment)]), 0)
  }

  lemma TakeToOut(o: TxOut, rest: Bytes)
    requires IsAmount(o.value) && |o.script| < TWO64
    ensures TakeOut(PackOut(o) + rest) == Some((o, rest))
  {
    PowerValues();
    var v := ToUnsigned(o.value, TWO64);
    assert PackOut(o) + rest == ToLE(v, 8) + (WithLength(o.script) + rest);
    TakeToLE(v, 8, WithLength(o.script) + rest);
    TakeToWithLength(o.script, rest);
  }

  lemma TakeOneOut(bs: Bytes, o: TxOut, n: nat, after: Bytes, os: seq<TxOut>, rest: Bytes)
    requires TakeOut(bs) == Some((o, after)) && TakeOuts(n, after) == Some((os, rest))
    ensures TakeOuts(n + 1, bs) == Some(([o] + os, rest))
  {
  }

  lemma TakeToOutputs(value: int, voutScript: Bytes, commitment: Bytes, rest: Bytes)
    requires IsAmount(value) && |voutScript| < TWO64 && |commitment| < TWO64
    ensures TakeOuts(if commitment == [] then 1 else 2, PackOutputs(value, voutScript, commitment) + rest)
         == Some((Outputs(value, voutScript, commitment), rest))
  {
    var reward, extra := TxOut(value, voutScript), TxOut(0, commitment);
    if commitment == [] {
      assert PackOutputs(value, voutScript, commitment) == PackOut(reward);
      TakeToOut(reward, rest);
      TakeOneOut(PackOut(reward) + rest, reward, 0, rest, [], rest);
      assert [reward] + [] == [reward];
    } else {
      assert PackOutputs(value, voutScript, commitment) + rest == PackOut(reward) + (PackOut(extra) + rest);
      TakeToOut(reward, PackOut(extra) + rest);
      TakeToOut(extra, rest);
      TakeOneOut(PackOut(extra) + rest, extra, 0, rest, [], rest);
      assert [extra] + [] == [extra] && [reward] + [extra] == [reward, extra];
      TakeOneOut(PackOut(reward) + (PackOut(extra) + rest), reward, 1, PackOut(extra) + rest, [extra], rest);
    }
  }

  lemma TakeToIn(script: Bytes, rest: Bytes)
    requires |script| < TWO64
    ensures TakeIn(NULL_HASH + (ToLE(NULL_INDEX, 4) + (WithLength(script) + (ToLE(0, 4) + rest))))
         == Some((TxIn(NULL_HASH, NULL_INDEX, script, 0), rest))
  {
    PowerValues();
    var afterScript := ToLE(0, 4) + rest;
    var afterIndex := WithLength(script) + afterScript;
    var bs := NULL_HASH + (ToLE(NULL_INDEX, 4) + afterIndex);
    assert bs[..32] == NULL_HASH && bs[32..] == ToLE(NULL_INDEX, 4) + afterIndex;
    TakeToLE(NULL_INDEX, 4, afterIndex);
    TakeToWithLength(script, afterScript);
    TakeToLE(0, 4, rest);
  }

  lemma TakeOneIn(bs: Bytes, i: TxIn, rest: Bytes)
    requires TakeIn(bs) == Some((i, rest))
    ensures TakeIns(1, bs) == Some(([i], rest))
  {
    assert TakeIns(0, rest) == Some(([], rest));
    assert [i] + [] == [i];
  }

  lemma PullFront(v: Bytes, x: Bytes, a: Bytes, b: Bytes, s: Bytes)
    ensures (v + x) + a + b + s == v + (x + a + b + s)
  {
  }

  lemma CloseScript(script1: Bytes, a: Bytes, b: Bytes, script2: Bytes, ending: Bytes)
    ensures script1 + a + b + (script2 + ending) == (script1 + a + b + script2) + ending
  {
  }

  /** The parts of the reassembled bytes, in the order a parser meets them. */
  lemma HalvesAsFields(script1: Bytes, script2: Bytes, ending: Bytes, en1: Bytes, en2: Bytes)
    requires |en1| == EXTRANONCE1_SIZE && |en2| == EXTRANONCE2_SIZE
    ensures FirstHalf(script1, script2) + en1 + en2 + (script2 + ending)
         == ToLE(COINBASE_TX_VERSION, 4) + (CompactSize(1) + (NULL_HASH + (ToLE(NULL_INDEX, 4)
            + (WithLength(script1 + en1 + en2 + script2) + ending))))
  {
    var s, script := script2 + ending, script1 + en1 + en2 + script2;
    var size := CompactSize(|script|);
    var x0 := size + script1;
    var x1 := ToLE(NULL_INDEX, 4) + x0;
    var x2 := NULL_HASH + x1;
    var x3 := CompactSize(1) + x2;
    PullFront(ToLE(COINBASE_TX_VERSION, 4), x3, en1, en2, s);
    PullFront(CompactSize(1), x2, en1, en2, s);
    PullFront(NULL_HASH, x1, en1, en2, s);
    PullFront(ToLE(NULL_INDEX, 4), x0, en1, en2, s);
    PullFront(size, script1, en1, en2, s);
    CloseScript(script1, en1, en2, script2, ending);
    assert size + (script + ending) == WithLength(script) + ending;
    assert x0 + en1 + en2 + s == WithLength(script) + ending;
    assert FirstHalf(script1, script2) == ToLE(COINBASE_TX_VERSION, 4) + x3;
  }

  /** For every pair of extranonces, the two halves around them are exactly one transaction, the
      intended one, with no byte left over. */
  lemma HalvesMakeOneTransaction(script1: Bytes, script2: Bytes, value: int, voutScript: Bytes, commitment: Bytes,
                                 en1: Bytes, en2: Bytes)
    requires IsAmount(value) && |en1| == EXTRANONCE1_SIZE && |en2| == EXTRANONCE2_SIZE
    requires |script1| + |script2| + 8 < TWO64 && |voutScript| < TWO64 && |commitment| < TWO64
    ensures TakeTransaction(FirstHalf(script1, script2) + en1 + en2
                            + SecondHalf(script2, value, voutScript, commitment))
         == Some((Completed(script1, script2, value, voutScript, commitment, en1, en2), []))
  {
    HalvesAsFields(script1, script2, Ending(value, voutScript, commitment), en1, en2);
    FieldsParse(script1 + en1 + en2 + script2, value, voutScript, commitment);
    ZeroIsZeros(32);
    assert NULL_HASH == seq(32, i => 0);
    assert Outputs(value, voutScript, commitment)
      == [TxOut(value, voutScript)] + (if commitment == [] then [] else [TxOut(0, commitment)]);
  }

  lemma {:induction false} ZeroIsZeros(width: nat)
    ensures ToLE(0, width) == seq(width, i => 0)
  {
    if width > 0 {
      ZeroIsZeros(width - 1);
      assert seq(width, i => 0) == [0] + seq(width - 1, i => 0);
    }
  }

  // ---------- the halves byte by byte ----------

  lemma WordBytes(n: nat)
    ensures ToLE(n, 4) == [n % 256, n / 256 % 256, n / 256 / 256 % 256, n / 256 / 256 / 256 % 256]
  {
    assert ToLE(n / 256 / 256 / 256, 1) == [n / 256 / 256 / 256 % 256];
    assert ToLE(n / 256 / 256, 2) == [n / 256 / 256 % 256] + ToLE(n / 256 / 256 / 256, 1);
    assert ToLE(n / 256, 3) == [n / 256 % 256] + ToLE(n / 256 / 256, 2);
  }

  lemma FirstTwo(a: Bytes, b: Bytes, rest: Bytes)
    ensures a + (b + rest) == a + b + rest
  {
  }

  /** Version 2, one input of an empty hash and the greatest index, the length of the whole script, and
      its first part. */
  lemma FirstHalfBytes(script1: Bytes, script2: Bytes)
    ensures FirstHalf(script1, script2)
      == [2, 0, 0, 0] + [1] + seq(32, i => 0) + [255, 255, 255, 255] + CompactSize(|script1| + 8 + |script2|) + script1
  {
    WordBytes(2);
    WordBytes(0xffff_ffff);
    ZeroIsZeros(32);
    CompactSizeForms(1);
    Regroup([2, 0, 0, 0] + [1], seq(32, i => 0), [255, 255, 255, 255], CompactSize(|script1| + 8 + |script2|), script1);
    FirstTwo([2, 0, 0, 0], [1], seq(32, i => 0) + ([255, 255, 255, 255]
                                                   + (CompactSize(|script1| + 8 + |script2|) + script1)));
  }

  /** The bytes of an output: its value in eight bytes, and its script behind its length. */
  function OutBytes(value: nat, script: Bytes): Bytes { ToLE(value, 8) + CompactSize(|script|) + script }

  lemma OutBytesPacked(value: nat, script: Bytes)
    requires IsAmount(value)
    ensures PackOut(TxOut(value, script)) == OutBytes(value, script)
  {
  }

  /** The script's second part and the sequence, then the number of outputs and the outputs, then the lock time. */
  lemma SecondHalfBytes(script2: Bytes, value: nat, voutScript: Bytes, commitment: Bytes)
    requires IsAmount(value)
    ensures SecondHalf(script2, value, voutScript, commitment)
      == script2 + [0, 0, 0, 0] + [if commitment == [] then 1 else 2]
         + (OutBytes(value, voutScript) + if commitment == [] then [] else OutBytes(0, commitment)) + [0, 0, 0, 0]
  {
    WordBytes(0);
    CompactSizeForms(1);
    CompactSizeForms(2);
    OutBytesPacked(value, voutScript);
    OutBytesPacked(0, commitment);
    Regroup(script2, ToLE(0, 4), CompactSize(if commitment == [] then 1 else 2),
            PackOutputs(value, voutScript, commitment), ToLE(0, 4));
  }

  lemma FieldsParse(script: Bytes, value: int, voutScript: Bytes, commitment: Bytes)
    requires IsAmount(value) && |script| < TWO64 && |voutScript| < TWO64 && |commitment| < TWO64
    ensures TakeTransaction(ToLE(COINBASE_TX_VERSION, 4) + (CompactSize(1) + (NULL_HASH + (ToLE(NULL_INDEX, 4)
              + (WithLength(script) + Ending(value, voutScript, commitment))))))
         == Some((Transaction(COINBASE_TX_VERSION, [TxIn(NULL_HASH, NULL_INDEX, script, 0)],
                              Outputs(value, voutScript, commitment), 0), []))
  {
    var count := if commitment == [] then 1 else 2;
    var atOuts := PackOutputs(value, voutScript, commitment) + ToLE(0, 4);
    var atOutCount := CompactSize(count) + atOuts;
    var atIn := NULL_HASH + (ToLE(NULL_INDEX, 4) + (WithLength(script) + (ToLE(0, 4) + atOutCount)));
    PowerValues();
    TakeToLE(COINBASE_TX_VERSION, 4, CompactSize(1) + atIn);
    TakeToCompactSize(1, atIn);
    TakeToIn(script, atOutCount);
    TakeOneIn(atIn, TxIn(NULL_HASH, NULL_INDEX, script, 0), atOutCount);
    TakeToCompactSize(count, atOuts);
    TakeToOutputs(value, voutScript, commitment, ToLE(0, 4));
    TakeToLE(0, 4, []);
    assert ToLE(0, 4) + [] == ToLE(0, 4);
  }

  /** Different extranonces give different transactions. */
  lemma ExtranoncesAreInjective(first: Bytes, second: Bytes, a1: Bytes, a2: Bytes, b1: Bytes, b2: Bytes)
    requires |a1| == |b1| == EXTRANONCE1_SIZE && |a2| == |b2| == EXTRANONCE2_SIZE
    requires first + a1 + a2 + second == first + b1 + b2 + second
    ensures a1 == b1 && a2 == b2
  {
    var a, b := first + a1 + a2 + second, first + b1 + b2 + second;
    var n := |first|;
    assert a1 == a[n..n + 4] && a2 == a[n + 4..n + 8];
    assert b1 == b[n..n + 4] && b2 == b[n + 4..n + 8];
  }

  // ---------- the script ----------

  /** The data a script pushes, for a script of pushes only. */
  function Pushes(script: Bytes): Option<seq<Bytes>>
    decreases |script|
  {
    if script == [] then Some([])
    else
      var push := TakePush(script);
      if push.None? then None
      else
        var rest := Pushes(push.value.1);
        if rest.None? then None else Some([push.value.0] + rest.value)
  }

  /** One push: 0 to 75 bytes by the opcode itself, or OP_PUSHDATA1, 2 and 4. */
  function TakePush(script: Bytes): (r: Parsed<Bytes>)
    requires script != []
    ensures r.Some? ==> |r.value.0| + |r.value.1| < |script|
  {
    var op := script[0];
    if op <= 75 then TakeData(Some((op, script[1..])))
    else if op == 76 then TakeData(TakeLE(script[1..], 1))
    else if op == 77 then TakeData(TakeLE(script[1..], 2))
    else if op == 78 then TakeData(TakeLE(script[1..], 4))
    else None
  }

  function TakeData(size: Option<(nat, Bytes)>): Parsed<Bytes> {
    if size.None? || |size.value.1| < size.value.0 then None
    else Some((size.value.1[..size.value.0], size.value.1[size.value.0..]))
  }

  /** `VinScript1`: height, auxiliary flags, time, and the length byte of the extranonces. */
  function VinScript1(height: nat, flags: Bytes, time: nat): Bytes
    requires |PackedDigits(height)| < 256 && |PackedDigits(time)| < 256
  {
    [|PackedDigits(height)|] + PackedDigits(height) + flags + ([|PackedDigits(time)|] + PackedDigits(time))
    + [EXTRANONCE1_SIZE + EXTRANONCE2_SIZE]
  }

  lemma DirectPush(data: Bytes, rest: Bytes)
    requires |data| <= 75
    ensures Pushes([|data|] + data + rest) == (var r := Pushes(rest); if r.None? then None else Some([data] + r.value))
  {
    var script := [|data|] + data + rest;
    assert script[1..] == data + rest;
    assert (data + rest)[..|data|] == data && (data + rest)[|data|..] == rest;
  }

  lemma PackedFits(n: nat, k: nat)
    requires 0 < k <= 9 && n < 128 * Pow256(k - 1)
    ensures 1 <= |PackedDigits(n)| <= k
  {
    DigitCount(n, k);
  }

  const UINT32_LIMIT: nat := 0x1_0000_0000
  const TIME_LIMIT: nat := 0x80_0000_0000

  lemma NumbersFit(height: nat, time: nat)
    requires height < UINT32_LIMIT && time < TIME_LIMIT
    ensures 1 <= |PackedDigits(height)| <= 5 && 1 <= |PackedDigits(time)| <= 5
  {
    PowerValues();
    PackedFits(height, 5);
    PackedFits(time, 5);
  }

  /** The whole coinbase script, with no flags, pushes exactly the height, the time, the eight
      extranonce bytes and the extra data, exactly when the extra data is at most 75 bytes; and
      then it has a length the network accepts. */
  lemma ScriptPushes(height: nat, time: nat, extraNonces: Bytes, extra: Bytes)
    requires height < UINT32_LIMIT && time < TIME_LIMIT && |extraNonces| == 8 && |extra| < TWO64
    ensures |PackedDigits(height)| < 256 && |PackedDigits(time)| < 256
    ensures var script := VinScript1(height, [], time) + extraNonces + WithLength(extra);
      && (Pushes(script) == Some([PackedDigits(height), PackedDigits(time), extraNonces, extra]) <==> |extra| <= 75)
      && (|extra| <= 75 ==> 2 <= |script| <= 100)
  {
    NumbersFit(height, time);
    var h, t := PackedDigits(height), PackedDigits(time);
    assert VinScript1(height, [], time) == [|h|] + h + ([|t|] + t) + [8];
    FourPushes(h, t, extraNonces, extra);
  }

  lemma FourPushes(h: Bytes, t: Bytes, extraNonces: Bytes, extra: Bytes)
    requires |h| <= 75 && |t| <= 75 && |extraNonces| == 8 && |extra| < TWO64
    ensures var script := [|h|] + h + ([|t|] + t) + [8] + extraNonces + WithLength(extra);
      Pushes(script) == Some([h, t, extraNonces, extra]) <==> |extra| <= 75
  {
    var e := WithLength(extra);
    var tail := [8] + extraNonces + e;
    var middle := [|t|] + t + tail;
    Regroup([|h|] + h, [|t|] + t, [8], extraNonces, e);
    DirectPush(h, middle);
    DirectPush(t, tail);
    DirectPush(extraNonces, e);
    LastPush(extra);
    if Pushes(e).Some? {
      PushedInOrder(h, t, extraNonces, extra, Pushes(e).value);
    }
  }

  lemma Regroup(a: Bytes, b: Bytes, c: Bytes, d: Bytes, e: Bytes)
    ensures a + b + c + d + e == a + (b + (c + d + e))
  {
  }

  lemma PushedInOrder(h: Bytes, t: Bytes, n: Bytes, extra: Bytes, last: seq<Bytes>)
    ensures [h] + ([t] + ([n] + last)) == [h, t, n, extra] <==> last == [extra]
  {
    var all := [h] + ([t] + ([n] + last));
    assert all[3..] == last;
    assert [h, t, n, extra][3..] == [extra];
  }

  /** A length-prefixed string is a push of that string exactly up to 75 bytes. */
  lemma LastPush(extra: Bytes)
    requires |extra| < TWO64
    ensures Pushes(WithLength(extra)) == Some([extra]) <==> |extra| <= 75
  {
    var e := WithLength(extra);
    if |extra| <= 75 {
      DirectPush(extra, []);
      assert e == [|extra|] + extra + [];
      assert [extra] + [] == [extra];
    } else if |extra| < 253 {
      assert e[1..] == extra;
      var push := TakePush(e);
      if push.Some? && Pushes(e).Some? {
        assert |push.value.0| < |extra|;
        assert Pushes(e).value[0] == push.value.0 && [extra][0] == extra;
      }
    }
  }

  // ---------- the object ----------

  lemma FlattenSix(a: Bytes, b: Bytes, c: Bytes, d: Bytes, e: Bytes, f: Bytes)
    ensures a + (b + (c + (d + (e + f)))) == a + b + c + d + e + f
  {
  }

  lemma FlattenPairs(a: Bytes, b: Bytes, c: Bytes, d: Bytes, e: Bytes)
    ensures ((a + b) + (c + d)) + e == a + (b + (c + (d + e)))
  {
  }

  lemma FlattenTail(a: Bytes, b: Bytes, c: Bytes, d: Bytes)
    ensures a + (b + (c + d)) == a + b + c + d
  {
  }

  lemma SecondHalfFlat(script2: Bytes, value: int, vout: Bytes, commitment: Bytes)
    requires IsAmount(value)
    ensures var front := script2 + ToLE(0, 4) + CompactSize(if commitment == [] then 1 else 2)
      + ToLE(ToUnsigned(value, TWO64), 8) + WithLength(vout);
      SecondHalf(script2, value, vout, commitment)
      == (if commitment == [] then front else front + ToLE(ToUnsigned(0, TWO64), 8) + WithLength(commitment))
        + ToLE(0, 4)
  {
    var sequence, count, v, w := ToLE(0, 4), CompactSize(if commitment == [] then 1 else 2),
      ToLE(ToUnsigned(value, TWO64), 8), WithLength(vout);
    if commitment == [] {
      assert PackOutputs(value, vout, commitment) == v + w;
      FlattenSix(script2, sequence, count, v, w, sequence);
      FlattenTail([], v, w, sequence);
      assert [] + (v + (w + sequence)) == v + (w + sequence) && [] + v + w + sequence == v + w + sequence;
    } else {
      var zero, c := ToLE(ToUnsigned(0, TWO64), 8), WithLength(commitment);
      FlattenPairs(v, w, zero, c, sequence);
      FlattenSix(script2, sequence, count, v, w, zero + (c + sequence));
      FlattenTail(script2 + sequence + count + v + w, zero, c, sequence);
    }
  }

  /** The writes up to the extranonces. */
  method PackFirstHalf(script1: Bytes, script2: Bytes) returns (buf: Bytes)
    ensures buf == FirstHalf(script1, script2)
  {
    var vinScriptLen := |script1| + EXTRANONCE1_SIZE + EXTRANONCE2_SIZE + |script2|;
    FlattenSix(ToLE(COINBASE_TX_VERSION, 4), CompactSize(1), NULL_HASH, ToLE(NULL_INDEX, 4), CompactSize(vinScriptLen),
               script1);
    buf := ToLE(COINBASE_TX_VERSION, 4);
    buf := buf + CompactSize(1);
    buf := buf + NULL_HASH;
    buf := buf + ToLE(NULL_INDEX, 4);
    buf := buf + CompactSize(vinScriptLen);
    buf := buf + script1;
  }

  /** The writes after the extranonces. */
  method PackSecondHalf(script2: Bytes, value: int, vout: Bytes, commitment: Bytes) returns (buf: Bytes)
    requires IsAmount(value)
    ensures buf == SecondHalf(script2, value, vout, commitment)
  {
    SecondHalfFlat(script2, value, vout, commitment);
    buf := script2 + ToLE(0, 4);
    var voutCount := if |commitment| != 0 then 2 else 1;
    buf := buf + CompactSize(voutCount);
    buf := buf + ToLE(ToUnsigned(value, TWO64), 8);
    buf := buf + WithLength(vout);
    if |commitment| != 0 {
      buf := buf + ToLE(ToUnsigned(0, TWO64), 8);
      buf := buf + WithLength(commitment);
    }
    buf := buf + ToLE(0, 4);
  }

  lemma ScriptsFit(height: nat, now: nat, flags: string, extras: Bytes)
    requires height < UINT32_LIMIT && now < 0x8000_0000_0000_0000
    requires |flags| < 0x4000_0000_0000_0000 && |extras| < 0x4000_0000_0000_0000
    ensures |PackedDigits(height)| < 256 && |PackedDigits(now)| < 256
    ensures DecodeHex(flags).Some? ==>
      |VinScript1(height, DecodeHex(flags).value, now)| + |WithLength(extras)| + 8 < TWO64
  {
    PowerValues();
    PackedFits(height, 5);
    PackedFits(now, 9);
    DecodedLength(flags);
  }

  method PackVinScript1(height: nat, flags: Bytes, now: nat) returns (script: Bytes)
    requires height < UINT32_LIMIT && now < 0x8000_0000_0000_0000
    requires |PackedDigits(height)| < 256 && |PackedDigits(now)| < 256
    ensures script == VinScript1(height, flags, now)
  {
    var bytes1 := PackNumber(height);
    var bytes3 := PackNumber(now);
    script := bytes1 + flags + bytes3 + [EXTRANONCE1_SIZE + EXTRANONCE2_SIZE];
  }

  class CoinBaseTransaction {
    var blockTime: nat
    var blockHeight: nat
    var rewardValue: int
    var cbExtras: Bytes
    var cbAuxFlag: Bytes
    var vinScript1: Bytes
    var vinScript2: Bytes
    var voutScript: Bytes
    var coinBaseTx1: Bytes
    var coinBaseTx2: Bytes
    var defaultWitnessCommitment: Bytes

    constructor () {
      blockTime, blockHeight, rewardValue := 0, 0, 0;
      cbExtras, cbAuxFlag, vinScript1, vinScript2, voutScript := [], [], [], [], [];
      coinBaseTx1, coinBaseTx2, defaultWitnessCommitment := [], [], [];
    }

    /** The two halves are those of the object's own fields. */
    ghost predicate Built()
      reads this
    {
      && IsAmount(rewardValue) && |vinScript1| + |vinScript2| + 8 < TWO64 && |voutScript| < TWO64
        && |defaultWitnessCommitment| < TWO64
      && coinBaseTx1 == FirstHalf(vinScript1, vinScript2)
      && coinBaseTx2 == SecondHalf(vinScript2, rewardValue, voutScript, defaultWitnessCommitment)
    }

    /** `_generateCoinB`: field after field into two buffers. */
    method GenerateCoinB()
      requires IsAmount(rewardValue) && |vinScript1| + |vinScript2| + 8 < TWO64 && |voutScript| < TWO64
        && |defaultWitnessCommitment| < TWO64
      modifies `coinBaseTx1, `coinBaseTx2
      ensures Built()
    {
      var first := PackFirstHalf(vinScript1, vinScript2);
      coinBaseTx1 := first;
      var second := PackSecondHalf(vinScript2, rewardValue, voutScript, defaultWitnessCommitment);
      coinBaseTx2 := second;
    }

    /** The fields that need no wallet and no commitment. */
    method SetScripts(bTime: nat, height: nat, value: int, flags: string, extras: Bytes, now: nat) returns (ok: bool)
      requires height < UINT32_LIMIT && now < 0x8000_0000_0000_0000
      requires |flags| < 0x4000_0000_0000_0000 && |extras| < 0x4000_0000_0000_0000
      modifies `blockTime, `blockHeight, `rewardValue, `cbExtras, `cbAuxFlag, `vinScript1, `vinScript2
      ensures |PackedDigits(height)| < 256 && |PackedDigits(now)| < 256
      ensures ok <==> DecodeHex(flags).Some?
      ensures blockTime == bTime && blockHeight == height && rewardValue == value && cbExtras == extras
      ensures ok ==> cbAuxFlag == DecodeHex(flags).value
      ensures ok ==> vinScript1 == VinScript1(height, DecodeHex(flags).value, now) && vinScript2 == WithLength(extras)
      ensures ok ==> |vinScript1| + |vinScript2| + 8 < TWO64
    {
      ScriptsFit(height, now, flags, extras);
      blockTime, blockHeight, rewardValue, cbExtras := bTime, height, value, extras;
      var cbFlag := DecodeHex(flags);
      if cbFlag.None? {
        return false;
      }
      cbAuxFlag := cbFlag.value;
      vinScript1 := PackVinScript1(height, cbFlag.value, now);
      vinScript2 := WithLength(extras);
      return true;
    }

    /** The fields that need the wallet's script and the commitment. */
    method SetOutputs(wallet: Result<Bytes>, commitment: string) returns (r: Result<()>)
      modifies `voutScript, `defaultWitnessCommitment
      ensures r.Ok? <==> wallet.Ok? && DecodeHex(commitment).Some? && |DecodeHex(commitment).value| in {0, 38}
      ensures r.Ok? ==> voutScript == wallet.value && defaultWitnessCommitment == DecodeHex(commitment).value
    {
      if wallet.Err? {
        return Err("GetCoinBaseScript cbWallet error");
      }
      voutScript := wallet.value;
      var commitmentBytes := DecodeHex(commitment);
      if commitmentBytes.None? {
        return Err("hex decode defaultWitnessCommitment error");
      }
      if |commitmentBytes.value| != 38 && |commitmentBytes.value| != 0 {
        return Err("invalid defaultWitnessCommitmentBytes len");
      }
      defaultWitnessCommitment := commitmentBytes.value;
      return Ok(());
    }

    /** `Initialize`. The script for the wallet and the clock come from outside; each malformed
        input has its own error, and no error touches the two halves. */
    method Initialize(wallet: Result<Bytes>, bTime: nat, height: nat, value: int, flags: string, extras: Bytes,
                      commitment: string, now: nat) returns (r: Result<()>)
      requires height < UINT32_LIMIT && now < 0x8000_0000_0000_0000 && IsAmount(value)
      requires |flags| < 0x4000_0000_0000_0000 && |extras| < 0x4000_0000_0000_0000
        && (wallet.Ok? ==> |wallet.value| < TWO64)
      modifies this
      ensures r.Ok? <==>
        DecodeHex(flags).Some? && wallet.Ok? && DecodeHex(commitment).Some? && |DecodeHex(commitment).value| in {0, 38}
      ensures r.Err? ==> coinBaseTx1 == old(coinBaseTx1) && coinBaseTx2 == old(coinBaseTx2)
      ensures |PackedDigits(height)| < 256 && |PackedDigits(now)| < 256
      ensures r.Ok? ==> Built() && blockHeight == height && rewardValue == value && voutScript == wallet.value
      ensures r.Ok? ==>
        vinScript1 == VinScript1(height, DecodeHex(flags).value, now) && vinScript2 == WithLength(extras)
      ensures r.Ok? ==> defaultWitnessCommitment == DecodeHex(commitment).value
      ensures r.Ok? ==> blockTime == bTime && cbExtras == extras && cbAuxFlag == DecodeHex(flags).value
    {
      var ok := SetScripts(bTime, height, value, flags, extras, now);
      if !ok {
        return Err("hex decode CBAuxFlag error");
      }
      var outputs := SetOutputs(wallet, commitment);
      if outputs.Err? {
        return outputs;
      }
      GenerateCoinB();
      return Ok(());
    }

    /** `RecoverToRawTransaction` succeeds exactly on two four-byte extranonces, and then gives the
        transaction they complete. */
    method RecoverToRawTransaction(extraNonce1Hex: string, extraNonce2Hex: string) returns (r: Result<Transaction>)
      requires Built()
      ensures var e1, e2 := DecodeHex(extraNonce1Hex), DecodeHex(extraNonce2Hex);
        && (r.Ok? <==> e1.Some? && e2.Some? && |e1.value| == EXTRANONCE1_SIZE && |e2.value| == EXTRANONCE2_SIZE)
        && (r.Ok? ==>
            r.value == Completed(vinScript1, vinScript2, rewardValue, voutScript, defaultWitnessCommitment, e1.value,
                                 e2.value))
    {
      var extraNonce1 := DecodeHex(extraNonce1Hex);
      if extraNonce1.None? {
        return Err("decode hex extraNonce1Hex error");
      }
      var extraNonce2 := DecodeHex(extraNonce2Hex);
      if extraNonce2.None? {
        return Err("decode hex extraNonce2Hex error");
      }
      if |extraNonce1.value| != EXTRANONCE1_SIZE {
        return Err("invalid extraNonce1 length");
      }
      if |extraNonce2.value| != EXTRANONCE2_SIZE {
        return Err("invalid extraNonce2 length");
      }
      var bytesCoinBaseTx := coinBaseTx1 + extraNonce1.value + extraNonce2.value + coinBaseTx2;
      HalvesMakeOneTransaction(vinScript1, vinScript2, rewardValue, voutScript, defaultWitnessCommitment,
                               extraNonce1.value, extraNonce2.value);
      var btcTx := TakeTransaction(bytesCoinBaseTx);
      if btcTx.None? {
        return Err("RecoverToRawTransaction error");
      }
      return Ok(btcTx.value.0);
    }
  }
}
