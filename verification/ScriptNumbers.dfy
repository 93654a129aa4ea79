/** Numbers pushed by the coinbase script (`PackNumber` in bitcoin/btc_coinbase.go), against the
    minimal script numbers of the Specification section of BIP 34. */
module ScriptNumbers {
  import opened Wire

  /** The bytes `PackNumber` appends for a number: the last of them is at most 127. */
  function PackedDigits(n: nat): (bs: Bytes)
    ensures bs != []
  {
    if n <= 127 then [n] else [n % 256] + PackedDigits(n / 256)
  }

  /** Base-256 digits, least significant first, none for zero. */
  function Digits(n: nat): Bytes {
    if n == 0 then [] else [n % 256] + Digits(n / 256)
  }

  /** The minimal script number of a positive value: its digits, and a zero byte if the top digit
      would read as a sign. */
  function ScriptNumber(n: nat): Bytes {
    var d := Digits(n);
    if d != [] && d[|d| - 1] >= 128 then d + [0] else d
  }

  /** No sign in the top byte. */
  predicate NonNegative(bs: Bytes) { bs == [] || bs[|bs| - 1] < 128 }

  /** The top byte is needed: it is not zero, or the byte below needs its sign bit clear. */
  predicate Minimal(bs: Bytes) {
    bs == [] || bs[|bs| - 1] != 0 || (|bs| >= 2 && bs[|bs| - 2] >= 128)
  }

  lemma OneDigitMore(done: Bytes, digit: Byte, rest: Bytes)
    ensures ([|done| + 1] + done)[0 := |done| + 2] + [digit] == [|done + [digit]| + 1] + (done + [digit])
    ensures done + ([digit] + rest) == (done + [digit]) + rest
  {
  }

  /** `PackNumber`: a length byte, then the digits. */
  method PackNumber(n: int) returns (s: Bytes)
    requires n < 0x8000_0000_0000_0000
    ensures n >= 0 ==> s == [|PackedDigits(n)|] + PackedDigits(n)
    ensures n < 0 ==> s == [1, n % 256]
  {
    var num := n;
    s := [1];
    if n >= 0 {
      PowerValues();
      DigitCount(n, 9);
    }
    ghost var done: Bytes := [];
    while num > 127
      invariant |done| <= 8 && s == [|done| + 1] + done
      invariant n < 0 ==> num == n && done == []
      invariant n >= 0 ==> num >= 0 && PackedDigits(n) == done + PackedDigits(num) && |PackedDigits(n)| <= 9
      decreases num
    {
      if n >= 0 {
        OneDigitMore(done, num % 256, PackedDigits(num / 256));
      }
      s := s[0 := s[0] + 1];
      s := s + [num % 256];
      done := done + [num % 256];
      num := num / 256;
    }
    s := s + [num % 256];
  }

  lemma {:induction false} DigitCount(n: nat, k: nat)
    requires k > 0 && n < 128 * Pow256(k - 1)
    ensures |PackedDigits(n)| <= k
  {
    if n > 127 {
      assert Pow256(k - 1) > 1;
      assert n / 256 < 128 * Pow256(k - 2);
      DigitCount(n / 256, k - 1);
    }
  }

  /** For every positive number the packed digits are its minimal script number. */
  lemma {:induction false} PackedIsScriptNumber(n: nat)
    requires n >= 1
    ensures PackedDigits(n) == ScriptNumber(n)
  {
    assert Digits(n) == [n % 256] + Digits(n / 256);
    if n > 127 && n / 256 > 0 {
      PackedIsScriptNumber(n / 256);
      var d := Digits(n / 256);
      assert Digits(n)[|Digits(n)| - 1] == d[|d| - 1];
    } else {
      assert Digits(n / 256) == [];
    }
  }

  /** The packed digits decode back, need no sign and waste no byte. */
  lemma {:induction false} PackedDecodes(n: nat)
    ensures FromLE(PackedDigits(n)) == n
    ensures NonNegative(PackedDigits(n))
    ensures n >= 1 ==> Minimal(PackedDigits(n))
  {
    if n > 127 {
      PackedDecodes(n / 256);
      var front := PackedDigits(n / 256);
      assert PackedDigits(n)[1..] == front;
      assert PackedDigits(n)[|front|] == front[|front| - 1];
    } else {
      assert PackedDigits(n)[1..] == [];
    }
  }

  /** No other bytes are a minimal encoding of the number without a sign. */
  lemma {:induction false} OnlyMinimalEncoding(bs: Bytes)
    requires bs != [] && NonNegative(bs) && Minimal(bs)
    ensures FromLE(bs) >= 1 && bs == PackedDigits(FromLE(bs))
  {
    var rest := bs[1..];
    if rest == [] {
      assert FromLE(bs) == bs[0];
    } else if rest == [0] {
      assert FromLE(rest) == 0 by { assert rest[1..] == []; }
      assert bs == [bs[0]] + [0];
    } else {
      assert rest[|rest| - 1] == bs[|bs| - 1];
      OnlyMinimalEncoding(rest);
      var n := FromLE(bs);
      assert n == bs[0] + 256 * FromLE(rest);
      assert n % 256 == bs[0] && n / 256 == FromLE(rest);
      assert bs == [bs[0]] + rest;
    }
  }
}
