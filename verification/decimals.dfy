/** Decimal numbers as C prints and reads them. */
module Decimals {
  import opened CStrings

  function Digit(d: nat): char
    requires d < 10
  {
    '0' + d as char
  }

  function DigitValue(c: char): nat
    requires IsDigit(c)
  {
    c as int - '0' as int
  }

  /** %lu and %d of a natural number. */
  function Dec(n: nat): (s: string)
    ensures s != "" && forall i :: 0 <= i < |s| ==> IsDigit(s[i])
  {
    if n < 10 then [Digit(n)] else Dec(n / 10) + [Digit(n % 10)]
  }

  /** What reading the leading digits of s makes of the number read so far. */
  function ReadDigits(s: string, acc: nat): nat {
    if s == "" || !IsDigit(s[0]) then acc else ReadDigits(s[1..], 10 * acc + DigitValue(s[0]))
  }

  predicate AllDigits(s: string) {
    forall i :: 0 <= i < |s| ==> IsDigit(s[i])
  }

  lemma {:induction false} ReadAppended(a: string, b: string, acc: nat)
    requires AllDigits(a)
    ensures ReadDigits(a + b, acc) == ReadDigits(b, ReadDigits(a, acc))
  {
    if a == "" {
      assert a + b == b;
    } else {
      assert (a + b)[0] == a[0] && (a + b)[1..] == a[1..] + b;
      ReadAppended(a[1..], b, 10 * acc + DigitValue(a[0]));
    }
  }

  /** Reading what was printed. */
  lemma {:induction false} ReadDec(n: nat, rest: string)
    requires rest == "" || !IsDigit(rest[0])
    ensures ReadDigits(Dec(n) + rest, 0) == n
  {
    if n < 10 {
      assert (Dec(n) + rest)[1..] == rest;
    } else {
      var last := [Digit(n % 10)];
      ReadDec(n / 10, "");
      assert Dec(n / 10) + "" == Dec(n / 10);
      ReadAppended(Dec(n / 10), last + rest, 0);
      assert Dec(n) + rest == Dec(n / 10) + (last + rest);
      assert (last + rest)[1..] == rest;
    }
  }

  // ---------------------------------------------------------------- length

  function Pow10(n: nat): nat {
    if n == 0 then 1 else 10 * Pow10(n - 1)
  }

  lemma {:induction false} DecLength(n: nat, k: nat)
    requires n < Pow10(k) && k > 0
    ensures |Dec(n)| <= k
  {
    if n >= 10 {
      assert k > 1;
      DecLength(n / 10, k - 1);
    }
  }

  lemma {:induction false} Pow10At20()
    ensures Pow10(20) == 100_000_000_000_000_000_000
  {
    assert Pow10(4) == 10_000;
    assert Pow10(8) == 100_000_000;
    assert Pow10(12) == 1_000_000_000_000;
    assert Pow10(16) == 10_000_000_000_000_000;
  }

  // ---------------------------------------------------------------- atoi and strtoul

  function SkipSpace(s: string): (r: string)
    ensures |r| <= |s|
  {
    if s != "" && IsSpace(s[0]) then SkipSpace(s[1..]) else s
  }

  predicate Negative(s: string) {
    SkipSpace(s) != "" && SkipSpace(s)[0] == '-'
  }

  /** What follows the white space and the sign. */
  function Unsigned(s: string): (r: string)
    ensures |r| <= |s|
    ensures Negative(s) ==> |r| < |s|
  {
    var t := SkipSpace(s);
    if t != "" && (t[0] == '-' || t[0] == '+') then t[1..] else t
  }

  /** atoi and atol, without overflow. */
  function Atoi(s: string): int {
    var v: int := ReadDigits(Unsigned(s), 0);
    if Negative(s) then -v else v
  }

  const ULONG_RANGE := 0x1_0000_0000_0000_0000

  /** strtoul(s, NULL, 10) with a 64-bit unsigned long: it saturates, and negates modulo the range. */
  function Strtoul(s: string): (u: nat)
    ensures u < ULONG_RANGE
  {
    var v := ReadDigits(Unsigned(s), 0);
    if v >= ULONG_RANGE then ULONG_RANGE - 1
    else if Negative(s) && v > 0 then ULONG_RANGE - v
    else v
  }

  lemma {:induction false} PrintedHasNoSign(n: nat)
    ensures SkipSpace(Dec(n)) == Dec(n) == Unsigned(Dec(n)) && !Negative(Dec(n))
  {
    assert IsDigit(Dec(n)[0]);
  }

  lemma {:induction false} AtoiOfDec(n: nat)
    ensures Atoi(Dec(n)) == n
  {
    PrintedHasNoSign(n);
    ReadDec(n, "");
    assert Dec(n) + "" == Dec(n);
  }

  lemma {:induction false} StrtoulOfDec(n: nat)
    requires n < ULONG_RANGE
    ensures Strtoul(Dec(n)) == n
  {
    PrintedHasNoSign(n);
    ReadDec(n, "");
    assert Dec(n) + "" == Dec(n);
  }

  lemma {:induction false} SpacesSkipped(blanks: string, s: string)
    requires (forall i :: 0 <= i < |blanks| ==> IsSpace(blanks[i])) && (s == "" || !IsSpace(s[0]))
    ensures SkipSpace(blanks + s) == s
  {
    if blanks == "" {
      assert blanks + s == s;
    } else {
      FrontOf(blanks, s);
      SpacesSkipped(blanks[1..], s);
    }
  }

  /** White space and a sign in front of a number are read, and what follows its digits is not. */
  lemma {:induction false} SignedReads(blanks: string, sign: char, n: nat, rest: string)
    requires (forall i :: 0 <= i < |blanks| ==> IsSpace(blanks[i])) && sign in "+-" && (rest == "" || !IsDigit(rest[0]))
    ensures var s := blanks + ([sign] + (Dec(n) + rest));
      && Atoi(s) == n * (if sign == '-' then -1 else 1)
      && Strtoul(s) == if n >= ULONG_RANGE then ULONG_RANGE - 1
                       else if sign == '-' then (ULONG_RANGE - n) % ULONG_RANGE else n
  {
    var number := Dec(n) + rest;
    SpacesSkipped(blanks, [sign] + number);
    FrontOf([sign], number);
    assert [sign][1..] + number == number;
    ReadDec(n, rest);
  }
}
