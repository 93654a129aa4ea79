/** The text forms the pool stores and parses: decimal integers, flags and colon-joined fields
    (`join` in storage/redis.go and the `strconv`/`strings` calls that undo it). */
module Text {
  import opened Wrappers

  function DigitChar(d: nat): char
    requires d < 10
  {
    '0' + d as char
  }

  function DigitValue(c: char): Option<nat> {
    if '0' <= c <= '9' then Some((c - '0') as nat) else None
  }

  /** Decimal digits without sign. */
  function FormatNat(n: nat): string {
    if n < 10 then [DigitChar(n)] else FormatNat(n / 10) + [DigitChar(n % 10)]
  }

  /** `strconv.FormatInt(n, 10)` and `(*big.Int).String()`. */
  function FormatInt(n: int): string {
    if n < 0 then "-" + FormatNat(-n) else FormatNat(n)
  }

  function ParseNat(s: string): Option<nat> {
    if s == "" then None
    else
      var last := DigitValue(s[|s| - 1]);
      if last.None? then None
      else if |s| == 1 then last
      else
        var front := ParseNat(s[..|s| - 1]);
        if front.None? then None else Some(10 * front.value + last.value)
  }

  /** `(*big.Int).SetString(s, 10)`: an optional sign and at least one digit. */
  function ParseBig(s: string): Option<int> {
    if s != "" && (s[0] == '-' || s[0] == '+') then
      var n := ParseNat(s[1..]);
      if n.None? then None
      else
        var magnitude: int := n.value;
        Some(if s[0] == '-' then -magnitude else magnitude)
    else
      var n := ParseNat(s);
      if n.None? then None else Some(n.value)
  }

  const INT64_MAX: int := 0x7fff_ffff_ffff_ffff
  const INT64_MIN: int := -0x8000_0000_0000_0000

  predicate IsInt64(n: int) { INT64_MIN <= n <= INT64_MAX }

  /** `strconv.ParseInt(s, 10, 64)` with its error dropped, as every reader here does:
      malformed text gives 0, text out of range gives the nearest bound. */
  function ParseInt64(s: string): (n: int)
    ensures IsInt64(n)
  {
    match ParseBig(s)
    case None => 0
    case Some(n) => if n > INT64_MAX then INT64_MAX else if n < INT64_MIN then INT64_MIN else n
  }

  function FormatBool(b: bool): string { if b then "1" else "0" }

  /** `strconv.ParseBool` with its error dropped. */
  predicate ParseBool(s: string) {
    s == "1" || s == "t" || s == "T" || s == "TRUE" || s == "true" || s == "True"
  }

  lemma {:induction false} FormatNatChars(n: nat)
    ensures FormatNat(n) != ""
    ensures forall c <- FormatNat(n) :: '0' <= c <= '9'
  {
    if n >= 10 {
      FormatNatChars(n / 10);
    }
  }

  lemma {:induction false} ParseFormatNat(n: nat)
    ensures ParseNat(FormatNat(n)) == Some(n)
  {
    if n >= 10 {
      ParseFormatNat(n / 10);
      FormatNatChars(n / 10);
      var s := FormatNat(n);
      assert s[..|s| - 1] == FormatNat(n / 10);
    }
  }

  /** Printing an integer and parsing it gives the integer back; the text never has a colon. */
  lemma ParseFormatInt(n: int)
    ensures ParseBig(FormatInt(n)) == Some(n)
    ensures IsInt64(n) ==> ParseInt64(FormatInt(n)) == n
    ensures ColonFree(FormatInt(n))
  {
    var m := if n < 0 then -n else n;
    ParseFormatNat(m);
    FormatNatChars(m);
    if n < 0 {
      assert FormatInt(n)[1..] == FormatNat(m);
    } else {
      assert FormatNat(m)[0] in FormatNat(m);
    }
  }

  predicate ColonFree(s: string) { ':' !in s }

  /** `strings.Join(fields, ":")`. */
  function Join(fields: seq<string>): string
    requires fields != []
  {
    if |fields| == 1 then fields[0] else fields[0] + ":" + Join(fields[1..])
  }

  /** `strings.Split(s, ":")`. */
  function Split(s: string): (r: seq<string>)
    ensures r != []
  {
    if s == "" then [""]
    else
      var rest := Split(s[1..]);
      if s[0] == ':' then [""] + rest else [[s[0]] + rest[0]] + rest[1..]
  }

  lemma {:induction false} SplitAtFirstColon(a: string, rest: string)
    requires ColonFree(a)
    ensures Split(a) == [a]
    ensures Split(a + ":" + rest) == [a] + Split(rest)
  {
    if a == "" {
      assert (":" + rest)[1..] == rest;
      assert a + ":" + rest == ":" + rest;
    } else {
      SplitAtFirstColon(a[1..], rest);
      assert (a + ":" + rest)[1..] == a[1..] + ":" + rest;
      assert [a[0]] + a[1..] == a;
    }
  }

  /** Joining colon-free fields and splitting gives the fields back. */
  lemma {:induction false} SplitJoin(fields: seq<string>)
    requires fields != []
    requires forall f <- fields :: ColonFree(f)
    ensures Split(Join(fields)) == fields
  {
    if |fields| == 1 {
      SplitAtFirstColon(fields[0], "");
    } else {
      SplitJoin(fields[1..]);
      SplitAtFirstColon(fields[0], Join(fields[1..]));
    }
  }

  lemma {:induction false} FieldsAreFree(s: string)
    ensures forall f <- Split(s) :: ColonFree(f)
  {
    if s != "" {
      FieldsAreFree(s[1..]);
      var rest := Split(s[1..]);
      if s[0] == ':' {
        assert forall f <- Split(s) :: f == "" || f in rest;
      } else {
        assert rest[0] in rest;
        assert forall f <- Split(s) :: f == [s[0]] + rest[0] || f in rest;
      }
    }
  }

  /** Splitting always gives colon-free fields, and joining them gives the text back. */
  lemma {:induction false} JoinSplit(s: string)
    ensures forall f <- Split(s) :: ColonFree(f)
    ensures Join(Split(s)) == s
  {
    FieldsAreFree(s);
    if s != "" {
      JoinSplit(s[1..]);
      var rest, fields := Split(s[1..]), Split(s);
      if s[0] == ':' {
        assert fields[1..] == rest;
      } else {
        assert fields[1..] == rest[1..];
      }
    }
  }

  lemma DigitChars(d: nat)
    requires d < 10
    ensures DigitChar(d) == "0123456789"[d]
  {
  }

  /** Decimal digits, the last one last, with a minus sign in front of what is below zero. */
  lemma DecimalDigits(n: nat)
    ensures n < 10 ==> FormatNat(n) == ["0123456789"[n]]
    ensures n >= 10 ==> FormatNat(n) == FormatNat(n / 10) + ["0123456789"[n % 10]]
    ensures FormatInt(n) == FormatNat(n) && (n > 0 ==> FormatInt(0 - n) == "-" + FormatNat(n))
  {
    DigitChars(n % 10);
  }

  /** Digits, and nothing else, make a number, and each further digit counts for one, with ten times what
      comes before it. */
  lemma {:induction false} DigitsMakeNumbers(s: string)
    ensures ParseNat(s).Some? <==> s != "" && forall c <- s :: '0' <= c <= '9'
    ensures ParseNat(s).Some? ==>
      var n := |s| - 1;
      ParseNat(s).value == (if n == 0 then 0 else 10 * ParseNat(s[..n]).value) + (s[n] as int - '0' as int)
  {
    if s != "" {
      var front, last := s[..|s| - 1], s[|s| - 1];
      DigitsMakeNumbers(front);
      assert last in s && forall c :: c in s <==> c in front || c == last;
      assert |s| == 1 ==> front == "";
    }
  }

  /** A sign may stand in front of the digits. */
  lemma SignedNumbers(digits: string)
    requires ParseNat(digits).Some?
    ensures ParseBig(digits) == ParseBig("+" + digits) == Some(ParseNat(digits).value)
    ensures ParseBig("-" + digits) == Some(0 - ParseNat(digits).value)
  {
    DigitsMakeNumbers(digits);
    assert digits[0] in digits;
    assert ("+" + digits)[1..] == digits && ("-" + digits)[1..] == digits;
  }

  /** Reading 64 bits gives the nearest number that has them, and zero for what is no number. */
  lemma NearestInt64(s: string, m: int)
    requires -0x8000_0000_0000_0000 <= m < 0x8000_0000_0000_0000
    ensures ParseBig(s).None? ==> ParseInt64(s) == 0
    ensures ParseBig(s).Some? ==>
      var n, r := ParseBig(s).value, ParseInt64(s);
      && (n >= r ==> n - r <= (if n >= m then n - m else m - n))
      && (n < r ==> r - n <= (if n >= m then n - m else m - n))
  {
  }

  lemma ColonsBetween(a: string, b: string, c: string)
    ensures Join([a]) == a && Join([a, b]) == a + ":" + b && Join([a, b, c]) == a + ":" + (b + ":" + c)
  {
    assert [a, b][1..] == [b] && [b, c][1..] == [c] && [a, b, c][1..] == [b, c];
    assert Join([b, c]) == b + ":" + c;
  }
}
