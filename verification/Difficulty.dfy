/** Targets and difficulties (util/util.go) and the threshold test of `DoubleSha256HashVerify`
    (proxy/miner.go). Everything is a quotient of 2^256. */
module Difficulty {
  import opened Wrappers
  import opened Wire

  const POW256: nat := 0x1_0000000000000000_0000000000000000_0000000000000000_0000000000000000

  /** Big-endian bytes without leading zeros, as `big.Int.Bytes` gives them. */
  function ToBE(n: nat): Bytes {
    if n == 0 then [] else ToBE(n / 256) + [n % 256]
  }

  function FromBE(bs: Bytes): nat {
    if bs == [] then 0 else 256 * FromBE(bs[..|bs| - 1]) + bs[|bs| - 1]
  }

  lemma {:induction false} FromToBE(n: nat)
    ensures FromBE(ToBE(n)) == n
  {
    if n > 0 {
      FromToBE(n / 256);
      assert ToBE(n)[..|ToBE(n)| - 1] == ToBE(n / 256);
    }
  }

  /** `hexutil.Encode` */
  function EncodePrefixed(bs: Bytes): string { "0x" + EncodeHex(bs) }

  /** The bytes `hex.DecodeString` gives along with its error: those before the first bad digit. */
  function DecodedPrefix(s: string): Bytes {
    if |s| < 2 || HexValue(s[0]).None? || HexValue(s[1]).None? then []
    else [16 * HexValue(s[0]).value + HexValue(s[1]).value] + DecodedPrefix(s[2..])
  }

  lemma {:induction false} WholeTextIsPrefix(s: string)
    requires DecodeHex(s).Some?
    ensures DecodedPrefix(s) == DecodeHex(s).value
  {
    if |s| >= 2 {
      WholeTextIsPrefix(s[2..]);
    }
  }

  /** Digits with a zero in front if they are an odd number. */
  function Padded(digits: string): string { if |digits| % 2 == 1 then "0" + digits else digits }

  /** `common.FromHex`: an optional prefix, a zero in front of an odd number of digits, and the
      decoder's error dropped. */
  function FromHex(s: string): Bytes {
    var digits := if |s| >= 2 && s[0] == '0' && (s[1] == 'x' || s[1] == 'X') then s[2..] else s;
    DecodedPrefix(Padded(digits))
  }

  lemma FromHexEncode(bs: Bytes)
    ensures FromHex(EncodePrefixed(bs)) == bs
  {
    DecodeEncodeHex(bs);
    WholeTextIsPrefix(EncodeHex(bs));
    var text := EncodePrefixed(bs);
    assert text[0] == '0' && text[1] == 'x' && text[2..] == EncodeHex(bs);
  }

  // ---------- hexadecimal text as a number ----------

  lemma {:induction false} DecodeFront(front: string, c: char, d: char)
    requires DecodeHex(front).Some? && HexValue(c).Some? && HexValue(d).Some?
    ensures DecodeHex(front + [c, d])
      == Some(DecodeHex(front).value + [16 * HexValue(c).value + HexValue(d).value])
  {
    var s := front + [c, d];
    var last := 16 * HexValue(c).value + HexValue(d).value;
    if front == "" {
      assert s == [c, d] && s[2..] == "" && DecodeHex("") == Some([]);
      assert [] + [last] == [last] + [];
    } else {
      assert s[2..] == front[2..] + [c, d] && s[0] == front[0] && s[1] == front[1];
      DecodeFront(front[2..], c, d);
      var first := 16 * HexValue(s[0]).value + HexValue(s[1]).value;
      assert [first] + (DecodeHex(front[2..]).value + [last]) == ([first] + DecodeHex(front[2..]).value) + [last];
    }
  }

  lemma FromBESnoc(bs: Bytes, b: Byte)
    ensures FromBE(bs + [b]) == 256 * FromBE(bs) + b
  {
    assert (bs + [b])[..|bs|] == bs;
  }

  /** The bytes of an even number of digits are, as one number, the number the digits spell. */
  lemma {:induction false} DecodedNumber(s: string)
    requires HexNumber(s).Some? && |s| % 2 == 0
    ensures DecodeHex(s).Some? && FromBE(DecodeHex(s).value) == HexNumber(s).value
  {
    if s != "" {
      var n := |s| - 2;
      var front, c, d := s[..n], s[n], s[n + 1];
      assert s[..n + 1][..n] == front && s[..n + 1][n] == c && s[..|s| - 1] == s[..n + 1];
      assert s == front + [c, d];
      DecodedNumber(front);
      DecodeFront(front, c, d);
      FromBESnoc(DecodeHex(front).value, 16 * HexValue(c).value + HexValue(d).value);
    }
  }

  lemma {:induction false} LeadingZero(s: string)
    requires HexNumber(s).Some?
    ensures HexNumber("0" + s) == HexNumber(s)
  {
    if s == "" {
      assert "0"[..0] == "";
    } else {
      var n := |s| - 1;
      LeadingZero(s[..n]);
      assert ("0" + s)[..n + 1] == "0" + s[..n] && ("0" + s)[n + 1] == s[n];
    }
  }

  lemma {:induction false} FromBEReversed(bs: Bytes)
    ensures FromBE(Reversed(bs)) == FromLE(bs)
  {
    if bs == [] {
      assert Reversed(bs) == [];
    } else {
      var rest, first := Reversed(bs[1..]), bs[0];
      FromBEReversed(bs[1..]);
      FromBESnoc(rest, first);
      assert Reversed(bs) == rest + [first];
    }
  }

  predicate HasPrefix(s: string) { |s| >= 2 && s[0] == '0' && s[1] in {'x', 'X'} }

  lemma {:induction false} NumbersHaveDigitsOnly(s: string, i: nat)
    requires HexNumber(s).Some? && i < |s|
    ensures HexValue(s[i]).Some?
  {
    if i < |s| - 1 {
      NumbersHaveDigitsOnly(s[..|s| - 1], i);
    }
  }

  lemma EvenDigitsRead(digits: string)
    requires HexNumber(digits).Some? && |digits| % 2 == 0
    ensures FromBE(DecodedPrefix(digits)) == HexNumber(digits).value
  {
    DecodedNumber(digits);
    WholeTextIsPrefix(digits);
  }

  lemma PaddedDigitsRead(digits: string, padded: string)
    requires HexNumber(digits).Some? && padded == "0" + digits && |padded| % 2 == 0
    ensures FromBE(DecodedPrefix(padded)) == HexNumber(digits).value
  {
    LeadingZero(digits);
    EvenDigitsRead(padded);
  }

  lemma PaddedIsEven(digits: string)
    ensures |Padded(digits)| % 2 == 0
  {
  }

  lemma DigitsRead(digits: string)
    requires HexNumber(digits).Some?
    ensures FromBE(DecodedPrefix(Padded(digits))) == HexNumber(digits).value
  {
    PaddedIsEven(digits);
    if Padded(digits) == digits {
      EvenDigitsRead(digits);
    } else {
      PaddedDigitsRead(digits, Padded(digits));
    }
  }

  /** Text without a prefix reads as the number its digits spell, however many they are. */
  lemma PlainHexReads(s: string)
    requires HexNumber(s).Some?
    ensures !HasPrefix(s) && FromBE(FromHex(s)) == HexNumber(s).value
  {
    if |s| >= 2 {
      NumbersHaveDigitsOnly(s, 1);
    }
    DigitsRead(s);
  }

  /** Text with a prefix reads as the number the digits after it spell. */
  lemma PrefixedHexReads(s: string)
    requires HasPrefix(s) && HexNumber(s[2..]).Some?
    ensures FromBE(FromHex(s)) == HexNumber(s[2..]).value
  {
    DigitsRead(s[2..]);
  }

  lemma {:induction false} DigitsSpellNumber(s: string)
    requires forall c <- s :: HexValue(c).Some?
    ensures HexNumber(s).Some?
  {
    if s != "" {
      DigitsSpellNumber(s[..|s| - 1]);
      assert s[|s| - 1] in s;
    }
  }

  lemma {:induction false} GoodPairs(s: string) returns (k: nat)
    ensures 2 * k <= |s| && (forall i :: 0 <= i < 2 * k ==> HexValue(s[i]).Some?)
    ensures DecodedPrefix(s) == DecodedPrefix(s[..2 * k])
    ensures 2 * k + 2 <= |s| ==> HexValue(s[2 * k]).None? || HexValue(s[2 * k + 1]).None?
  {
    if |s| < 2 || HexValue(s[0]).None? || HexValue(s[1]).None? {
      k := 0;
    } else {
      var rest := s[2..];
      var m := GoodPairs(rest);
      k := m + 1;
      assert s[..2 * k][2..] == rest[..2 * m];
      assert forall i :: 2 <= i < 2 * k ==> s[i] == rest[i - 2];
    }
  }

  /** The digits of a text, padded to an even number. */
  function EvenDigits(s: string): string { Padded(if HasPrefix(s) then s[2..] else s) }

  /** Whatever the text, it reads as the number its digits spell up to the first pair with a bad one. */
  lemma MalformedHexReads(s: string) returns (k: nat)
    ensures var digits := EvenDigits(s);
      && 2 * k <= |digits| && HexNumber(digits[..2 * k]).Some?
      && FromBE(FromHex(s)) == HexNumber(digits[..2 * k]).value
      && (2 * k + 2 <= |digits| ==> HexValue(digits[2 * k]).None? || HexValue(digits[2 * k + 1]).None?)
  {
    var digits := EvenDigits(s);
    k := GoodPairs(digits);
    DigitsSpellNumber(digits[..2 * k]);
    DecodedNumber(digits[..2 * k]);
    WholeTextIsPrefix(digits[..2 * k]);
  }

  lemma {:induction false} EncodedDigits(bs: Bytes)
    ensures forall c <- EncodeHex(bs) :: HexValue(c).Some?
  {
    if bs != [] {
      HexDigitValue(bs[0] / 16);
      HexDigitValue(bs[0] % 16);
      EncodedDigits(bs[1..]);
    }
  }

  /** Eight digits spell the number they print. */
  lemma Hex8IsNumber(n: nat)
    requires n < 0x1_0000_0000
    ensures HexNumber(Hex8(n)) == Some(n)
  {
    EncodedDigits(Reversed(ToLE(n, 4)));
    DigitsSpellNumber(Hex8(n));
    Hex8Decodes(n);
    DecodedNumber(Hex8(n));
    FromBEReversed(ToLE(n, 4));
    PowerValues();
    FromToLE(n, 4);
  }

  // ---------- quotients ----------

  function Quotient(p: nat, d: nat): nat
    requires d > 0
  {
    p / d
  }

  /** `GetTargetHex` */
  function GetTargetHex(diff: nat): string
    requires diff > 0
  {
    EncodePrefixed(ToBE(Quotient(POW256, diff)))
  }

  /** `TargetHexToDiff`; None stands for the division by zero it panics on. */
  function TargetHexToDiff(targetHex: string): Option<nat> {
    var target := FromBE(FromHex(targetHex));
    if target == 0 then None else Some(Quotient(POW256, target))
  }

  lemma QuotientBounds(p: nat, d: nat)
    requires d > 0
    ensures Quotient(p, d) * d <= p < (Quotient(p, d) + 1) * d
  {
  }

  lemma Scale(a: nat, b: nat, d: nat)
    requires a <= b
    ensures a * d <= b * d
  {
  }

  /** A quotient is at least `n` exactly if `n` times the divisor fits. */
  lemma QuotientAtLeast(p: nat, d: nat, n: nat)
    requires d > 0
    ensures Quotient(p, d) >= n <==> n * d <= p
  {
    QuotientBounds(p, d);
    if Quotient(p, d) >= n {
      Scale(n, Quotient(p, d), d);
    } else {
      Scale(Quotient(p, d) + 1, n, d);
    }
  }

  /** Dividing twice returns a divisor that is small against the dividend. */
  lemma DivideTwice(p: nat, d: nat)
    requires d > 0 && d * d <= p
    ensures Quotient(p, d) > 0 && Quotient(p, Quotient(p, d)) == d
  {
    QuotientAtLeast(p, d, d);
    var q := Quotient(p, d);
    QuotientBounds(p, d);
    QuotientAtLeast(p, q, d);
    assert d * q <= p by { assert q * d == d * q; }
    QuotientAtLeast(p, q, d + 1);
    assert (d + 1) * q == d * q + q;
    assert p < q * d + d;
  }

  lemma SquareFits(d: nat, bound: nat, p: nat)
    requires d <= bound && bound * bound <= p
    ensures d * d <= p
  {
    Scale(d, bound, d);
    Scale(d, bound, bound);
  }

  lemma TargetToDiff(p: nat, diff: nat)
    requires diff > 0 && diff * diff <= p
    ensures var target := FromBE(FromHex(EncodePrefixed(ToBE(Quotient(p, diff)))));
      target > 0 && Quotient(p, target) == diff
  {
    DivideTwice(p, diff);
    FromToBE(Quotient(p, diff));
    FromHexEncode(ToBE(Quotient(p, diff)));
  }

  /** The digits of a text: what follows the prefix, if there is one. */
  function PlainDigits(s: string): string { if HasPrefix(s) then s[2..] else s }

  /** A difficulty is how often a target goes into 2^256. */
  predicate GoesInto(target: nat, difficulty: nat) {
    difficulty * target <= 0x1_0000000000000000_0000000000000000_0000000000000000_0000000000000000
      < (difficulty + 1) * target
  }

  /** The difficulty of a target's text is that of the number its digits spell. */
  lemma TargetTextRead(s: string)
    requires HexNumber(PlainDigits(s)).Some?
    ensures TargetHexToDiff(s).Some? <==> HexNumber(PlainDigits(s)).value > 0
    ensures TargetHexToDiff(s).Some? ==> GoesInto(HexNumber(PlainDigits(s)).value, TargetHexToDiff(s).value)
  {
    if HasPrefix(s) {
      PrefixedHexReads(s);
    } else {
      PlainHexReads(s);
    }
    var target := HexNumber(PlainDigits(s)).value;
    if target > 0 {
      QuotientBounds(POW256, target);
    }
  }

  /** Through bytes and hexadecimal text and back, the difficulty credited for a share is the
      configured one. */
  lemma DifficultyRoundTrip(diff: nat)
    requires 0 < diff < 0x8000_0000_0000_0000
    ensures TargetHexToDiff(GetTargetHex(diff)) == Some(diff)
  {
    SquareFits(diff, 0x8000_0000_0000_0000, POW256);
    TargetToDiff(POW256, diff);
  }

  /** The test both the share and the block check make of a header hash. */
  predicate Accepts(difficulty: nat, hash: nat)
    requires hash > 0
  {
    Quotient(POW256, hash) > difficulty
  }

  /** The same without division. */
  predicate WithinTarget(hash: nat, difficulty: nat) {
    hash * (difficulty + 1) <= 0x1_0000000000000000_0000000000000000_0000000000000000_0000000000000000
  }

  /** The largest hash accepted at a difficulty. */
  function Threshold(difficulty: nat): nat { Quotient(POW256, difficulty + 1) }

  lemma SwappedQuotient(p: nat, a: nat, b: nat)
    requires a > 0 && b > 0
    ensures Quotient(p, a) >= b <==> Quotient(p, b) >= a
  {
    QuotientAtLeast(p, a, b);
    QuotientAtLeast(p, b, a);
    assert a * b == b * a;
  }

  lemma AcceptsIff(difficulty: nat, hash: nat)
    requires hash > 0
    ensures Accepts(difficulty, hash) <==> hash <= Threshold(difficulty)
  {
    SwappedQuotient(POW256, hash, difficulty + 1);
  }

  /** And that is the same as a product not above 2^256. */
  lemma WithinTargetIff(difficulty: nat, hash: nat)
    ensures WithinTarget(hash, difficulty) <==> hash <= Threshold(difficulty)
  {
    QuotientAtLeast(POW256, difficulty + 1, hash);
  }

  /** The hashes between the threshold of a rounded difficulty and its target. */
  lemma MissedHashes(p: nat, target: nat)
    requires p > 0 && target > 0
    ensures var d := Quotient(p, target);
      var q := Quotient(p, d + 1);
      q < target && (target - q - 1) * (d * (d + 1)) < p
  {
    var d := Quotient(p, target);
    var q := Quotient(p, d + 1);
    SwappedQuotient(p, d + 1, target);
    QuotientBounds(p, target);
    QuotientBounds(p, d + 1);
    MissedBound(p, target, d, q);
  }

  lemma Distribute(a: int, b: int, c: int)
    ensures (a - b) * c == a * c - b * c
  {
  }

  lemma Regroup(a: int, b: int, c: int)
    ensures (a * b) * c == a * (b * c)
  {
  }

  lemma MissedProduct(t: int, d: int, q: int)
    ensures (t - q - 1) * (d * (d + 1)) == (d * t) * (d + 1) - d * ((q + 1) * (d + 1))
  {
    Regroup(t - (q + 1), d, d + 1);
    Distribute(t, q + 1, d);
    Distribute(d * t, d * (q + 1), d + 1);
    Regroup(d, q + 1, d + 1);
  }

  lemma MissedBound(p: nat, t: nat, d: nat, q: nat)
    requires p > 0 && d * t <= p && p < (q + 1) * (d + 1) && q < t
    ensures (t - q - 1) * (d * (d + 1)) < p
  {
    MissedProduct(t, d, q);
    Scale(d * t, p, d + 1);
    Scale(p + 1, (q + 1) * (d + 1), d);
    assert p * (d + 1) - d * (p + 1) == p - d;
  }

  /** The block test works with the difficulty of the network's target, a rounded quotient: what it
      accepts is strictly below the target, and of the hashes the target allows it misses exactly
      those above its threshold, which are few. */
  lemma BlockTestAgainstTarget(target: nat, hash: nat)
    requires 0 < target && hash > 0
    ensures var d := Quotient(POW256, target);
      && (Accepts(d, hash) ==> hash < target)
      && (hash <= target && !Accepts(d, hash) <==> Threshold(d) < hash <= target)
      && Threshold(d) < target
      && (target - Threshold(d) - 1) * (d * (d + 1)) < POW256
  {
    AcceptsIff(Quotient(POW256, target), hash);
    MissedHashes(POW256, target);
  }

  lemma LowerDifficultyHigherThreshold(p: nat, a: nat, b: nat)
    requires 0 < a <= b
    ensures Quotient(p, b) <= Quotient(p, a)
  {
    var q := Quotient(p, b);
    QuotientBounds(p, b);
    Scale(a, b, q);
    assert q * a <= p by { assert q * a == a * q && q * b == b * q; }
    QuotientAtLeast(p, a, q);
  }

  /** The share test before the block test drops no block exactly if the share difficulty's
      threshold is not below the block's; a share difficulty up to the network's is enough. */
  lemma ShareTestDropsNoBlock(shareDiff: nat, blockDiff: nat)
    ensures (forall hash: nat :: hash > 0 && Accepts(blockDiff, hash) ==> Accepts(shareDiff, hash))
      <==> Threshold(blockDiff) <= Threshold(shareDiff)
    ensures shareDiff <= blockDiff ==> Threshold(blockDiff) <= Threshold(shareDiff)
  {
    forall hash: nat | hash > 0
      ensures Accepts(blockDiff, hash) <==> hash <= Threshold(blockDiff)
      ensures Accepts(shareDiff, hash) <==> hash <= Threshold(shareDiff)
    {
      AcceptsIff(blockDiff, hash);
      AcceptsIff(shareDiff, hash);
    }
    var top := Threshold(blockDiff);
    if top > 0 {
      assert Accepts(blockDiff, top);
    }
    if shareDiff <= blockDiff {
      LowerDifficultyHigherThreshold(POW256, shareDiff + 1, blockDiff + 1);
    }
  }
}
