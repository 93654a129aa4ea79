/** The byte and text encodings of the Bitcoin wire format that coinbase construction relies on:
    little-endian integers, CompactSize and hexadecimal text. */
module Wire {
  import opened Wrappers

  type Byte = n: int | 0 <= n < 256

  type Bytes = seq<Byte>

  function Pow256(n: nat): nat {
    if n == 0 then 1 else 256 * Pow256(n - 1)
  }

  /** `n` in `width` little-endian bytes. */
  function ToLE(n: nat, width: nat): (bs: Bytes)
    ensures |bs| == width
  {
    if width == 0 then [] else [n % 256] + ToLE(n / 256, width - 1)
  }

  function FromLE(bs: Bytes): nat {
    if bs == [] then 0 else bs[0] + 256 * FromLE(bs[1..])
  }

  lemma {:induction false} FromToLE(n: nat, width: nat)
    requires n < Pow256(width)
    ensures FromLE(ToLE(n, width)) == n
  {
    if width > 0 {
      FromToLE(n / 256, width - 1);
      assert ToLE(n, width)[1..] == ToLE(n / 256, width - 1);
    }
  }

  lemma {:induction false} ToFromLE(bs: Bytes)
    ensures ToLE(FromLE(bs), |bs|) == bs && FromLE(bs) < Pow256(|bs|)
  {
    if bs != [] {
      ToFromLE(bs[1..]);
      assert FromLE(bs) / 256 == FromLE(bs[1..]) && FromLE(bs) % 256 == bs[0];
    }
  }

  lemma PowerValues()
    ensures Pow256(1) == 0x100 && Pow256(2) == 0x1_0000 && Pow256(4) == 0x1_0000_0000
      && Pow256(8) == 0x1_0000_0000_0000_0000
  {
    assert Pow256(3) == 256 * Pow256(2);
    assert Pow256(5) == 256 * Pow256(4);
    assert Pow256(6) == 256 * Pow256(5);
    assert Pow256(7) == 256 * Pow256(6);
  }

  /** A fixed-width integer from the front of a buffer. */
  function TakeLE(bs: Bytes, width: nat): Option<(nat, Bytes)> {
    if |bs| < width then None else Some((FromLE(bs[..width]), bs[width..]))
  }

  lemma TakeToLE(n: nat, width: nat, rest: Bytes)
    requires n < Pow256(width)
    ensures TakeLE(ToLE(n, width) + rest, width) == Some((n, rest))
  {
    FromToLE(n, width);
    assert (ToLE(n, width) + rest)[..width] == ToLE(n, width);
    assert (ToLE(n, width) + rest)[width..] == rest;
  }

  /** `PackCompactSize` */
  function CompactSize(n: nat): Bytes {
    if n < 253 then [n]
    else if n <= 0xffff then [253] + ToLE(n, 2)
    else if n <= 0xffff_ffff then [254] + ToLE(n, 4)
    else [255] + ToLE(n, 8)
  }

  function TakeCompactSize(bs: Bytes): Option<(nat, Bytes)> {
    if bs == [] then None
    else if bs[0] < 253 then Some((bs[0], bs[1..]))
    else TakeLE(bs[1..], if bs[0] == 253 then 2 else if bs[0] == 254 then 4 else 8)
  }

  lemma TakeToCompactSize(n: nat, rest: Bytes)
    requires n < 0x1_0000_0000_0000_0000
    ensures TakeCompactSize(CompactSize(n) + rest) == Some((n, rest))
  {
    PowerValues();
    if n < 253 {
      assert ([n] + rest)[1..] == rest;
    } else {
      var width := if n <= 0xffff then 2 else if n <= 0xffff_ffff then 4 else 8;
      TakeToLE(n, width, rest);
      assert (CompactSize(n) + rest)[1..] == ToLE(n, width) + rest;
    }
  }

  /** A length-prefixed byte string. */
  function WithLength(bs: Bytes): Bytes { CompactSize(|bs|) + bs }

  function TakeWithLength(bs: Bytes): Option<(Bytes, Bytes)> {
    var size := TakeCompactSize(bs);
    if size.None? || |size.value.1| < size.value.0 then None
    else Some((size.value.1[..size.value.0], size.value.1[size.value.0..]))
  }

  lemma TakeToWithLength(bs: Bytes, rest: Bytes)
    requires |bs| < 0x1_0000_0000_0000_0000
    ensures TakeWithLength(WithLength(bs) + rest) == Some((bs, rest))
  {
    TakeToCompactSize(|bs|, bs + rest);
    assert WithLength(bs) + rest == CompactSize(|bs|) + (bs + rest);
  }

  /** A two's complement value of `modulus` many bit patterns as the unsigned number of the same bits, and back. */
  function ToUnsigned(v: int, modulus: nat): nat
    requires -(modulus as int) <= 2 * v < modulus
  {
    if v < 0 then v + modulus else v
  }

  function ToSigned(n: nat, modulus: nat): int {
    if 2 * n < modulus then n else n - modulus
  }

  const TWO32: nat := 0x1_0000_0000
  const TWO64: nat := 0x1_0000_0000_0000_0000

  // ---------- hexadecimal text ----------

  function HexDigit(d: nat): char
    requires d < 16
  {
    if d < 10 then '0' + d as char else 'a' + (d - 10) as char
  }

  function HexValue(c: char): Option<nat> {
    if '0' <= c <= '9' then Some((c - '0') as nat)
    else if 'a' <= c <= 'f' then Some((c - 'a') as nat + 10)
    else if 'A' <= c <= 'F' then Some((c - 'A') as nat + 10)
    else None
  }

  /** `hex.EncodeToString` */
  function EncodeHex(bs: Bytes): (s: string)
    ensures |s| == 2 * |bs|
  {
    if bs == [] then "" else [HexDigit(bs[0] / 16), HexDigit(bs[0] % 16)] + EncodeHex(bs[1..])
  }

  /** `hex.DecodeString`: an even number of digits of either case. */
  function DecodeHex(s: string): Option<Bytes> {
    if s == "" then Some([])
    else if |s| == 1 then None
    else
      var hi, lo, rest := HexValue(s[0]), HexValue(s[1]), DecodeHex(s[2..]);
      if hi.None? || lo.None? || rest.None? then None
      else Some([16 * hi.value + lo.value] + rest.value)
  }

  /** Hexadecimal text as a number, most significant digit first. */
  function HexNumber(s: string): Option<nat> {
    if s == "" then Some(0)
    else
      var front, last := HexNumber(s[..|s| - 1]), HexValue(s[|s| - 1]);
      if front.None? || last.None? then None else Some(16 * front.value + last.value)
  }

  lemma HexDigitValue(d: nat)
    requires d < 16
    ensures HexValue(HexDigit(d)) == Some(d)
  {
  }

  lemma {:induction false} DecodeEncodeHex(bs: Bytes)
    ensures DecodeHex(EncodeHex(bs)) == Some(bs)
  {
    if bs != [] {
      DecodeEncodeHex(bs[1..]);
      HexDigitValue(bs[0] / 16);
      HexDigitValue(bs[0] % 16);
      var s := EncodeHex(bs);
      assert s[0] == HexDigit(bs[0] / 16) && s[1] == HexDigit(bs[0] % 16) && s[2..] == EncodeHex(bs[1..]);
      assert [bs[0]] + bs[1..] == bs;
    }
  }

  /** Hexadecimal text determines its bytes' length. */
  lemma {:induction false} DecodedLength(s: string)
    ensures DecodeHex(s).Some? ==> |s| == 2 * |DecodeHex(s).value|
  {
    if |s| >= 2 {
      DecodedLength(s[2..]);
    }
  }

  function Reversed(bs: Bytes): (r: Bytes)
    ensures |r| == |bs|
  {
    if bs == [] then [] else Reversed(bs[1..]) + [bs[0]]
  }

  lemma {:induction false} ReversedTwice(bs: Bytes)
    ensures Reversed(Reversed(bs)) == bs
  {
    if bs != [] {
      ReversedTwice(bs[1..]);
      ReversedSnoc(Reversed(bs[1..]), bs[0]);
    }
  }

  lemma {:induction false} ReversedSnoc(bs: Bytes, b: Byte)
    ensures Reversed(bs + [b]) == [b] + Reversed(bs)
  {
    if bs != [] {
      ReversedSnoc(bs[1..], b);
      assert (bs + [b])[1..] == bs[1..] + [b];
    }
  }

  /** `fmt.Sprintf("%08x", n)` for a 32-bit value: eight digits, most significant first. */
  function Hex8(n: nat): string
    requires n < 0x1_0000_0000
  {
    EncodeHex(Reversed(ToLE(n, 4)))
  }

  /** Different numbers print differently, and each prints as four bytes. */
  lemma Hex8Decodes(n: nat)
    requires n < 0x1_0000_0000
    ensures |Hex8(n)| == 8 && DecodeHex(Hex8(n)) == Some(Reversed(ToLE(n, 4)))
    ensures FromLE(Reversed(DecodeHex(Hex8(n)).value)) == n
  {
    PowerValues();
    DecodeEncodeHex(Reversed(ToLE(n, 4)));
    ReversedTwice(ToLE(n, 4));
    FromToLE(n, 4);
  }

  // ---------- the formats in plain terms ----------

  /** The low byte comes first. */
  lemma LowByteFirst(n: nat, width: nat)
    requires width > 0
    ensures ToLE(n, width)[0] == n % 256 && ToLE(n, width)[1..] == ToLE(n / 256, width - 1)
  {
  }

  /** One byte up to 252; from there a marker, and the number in two, four or eight bytes. */
  lemma CompactSizeForms(n: nat)
    requires n < 0x1_0000_0000_0000_0000
    ensures n < 253 ==> CompactSize(n) == [n]
    ensures 253 <= n < 0x1_0000 ==> CompactSize(n) == [253, n % 256, n / 256]
    ensures 0x1_0000 <= n < 0x1_0000_0000 ==> |CompactSize(n)| == 5 && CompactSize(n)[0] == 254
    ensures 0x1_0000_0000 <= n ==> |CompactSize(n)| == 9 && CompactSize(n)[0] == 255
  {
    if 253 <= n < 0x1_0000 {
      LowByteFirst(n, 2);
      LowByteFirst(n / 256, 1);
      assert ToLE(n, 2) == [n % 256] + ToLE(n, 2)[1..];
    }
  }

  /** Two digits a byte, the high one first. */
  lemma {:induction false} DigitsOfBytes(bs: Bytes, i: nat)
    requires i < |bs|
    ensures EncodeHex(bs)[2 * i] == "0123456789abcdef"[bs[i] / 16]
    ensures EncodeHex(bs)[2 * i + 1] == "0123456789abcdef"[bs[i] % 16]
  {
    if i > 0 {
      DigitsOfBytes(bs[1..], i - 1);
    }
  }
}
