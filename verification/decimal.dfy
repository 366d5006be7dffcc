/** Decimal text of natural numbers, as `std::ostream << n` writes it and `std::istream >> n`
    reads it back. */
module Decimal {
  import opened Wrappers

  predicate IsDigit(c: char) {
    '0' <= c <= '9'
  }

  predicate AllDigits(s: string) {
    forall i :: 0 <= i < |s| ==> IsDigit(s[i])
  }

  function DigitChar(d: nat): (c: char)
    requires d < 10
    ensures IsDigit(c) && c as int - '0' as int == d
  {
    (d + '0' as int) as char
  }

  /** The value of a string of decimal digits, most significant first. */
  function Value(s: string): nat
    requires AllDigits(s)
  {
    if |s| == 0 then 0 else Value(s[..|s| - 1]) * 10 + (s[|s| - 1] as int - '0' as int)
  }

  /** The shortest decimal text of `n`: no sign, no leading zero. */
  function ShowNat(n: nat): (s: string)
    ensures |s| > 0 && AllDigits(s)
    ensures s[0] != '0' || n == 0
    ensures Value(s) == n
    decreases n
  {
    if n < 10 then [DigitChar(n)]
    else
      var s := ShowNat(n / 10) + [DigitChar(n % 10)];
      assert s[..|s| - 1] == ShowNat(n / 10);
      s
  }

  /** `std::isspace` in the classic locale. */
  predicate IsSpace(c: char) {
    c == ' ' || c == '\t' || c == '\n' || c == '\r' || c == '\U{000B}' || c == '\U{000C}'
  }

  predicate AllSpace(s: string) {
    forall i :: 0 <= i < |s| ==> IsSpace(s[i])
  }

  /** Text that can follow a number without running into it. */
  predicate Delimited(rest: string) {
    rest == [] || IsSpace(rest[0])
  }

  /** What formatted input skips before a number: the leading white space. */
  function SkipSpace(s: string): (t: string)
    ensures |t| <= |s|
    ensures t == [] || !IsSpace(t[0])
  {
    if |s| > 0 && IsSpace(s[0]) then SkipSpace(s[1..]) else s
  }

  /** The length of the run of digits `s` starts with. */
  function DigitRun(s: string): (k: nat)
    ensures k <= |s| && AllDigits(s[..k])
    ensures k == |s| || !IsDigit(s[k])
  {
    if |s| > 0 && IsDigit(s[0]) then
      var k := 1 + DigitRun(s[1..]);
      assert s[..k] == [s[0]] + s[1..][..k - 1];
      k
    else 0
  }

  /** `stream >> n` for an unsigned `n`: skip white space, read the longest run of digits;
      without a digit the extraction fails. The unread text is returned with its leading
      white space skipped, which no later extraction can tell apart. */
  function ReadNat(s: string): (o: Option<(nat, string)>)
    ensures o.Some? ==> |o.value.1| < |s|
  {
    var t := SkipSpace(s);
    var k := DigitRun(t);
    if k == 0 then None else Some((Value(t[..k]), SkipSpace(t[k..])))
  }

  /** White space in front of the unread text makes no difference. */
  lemma {:induction false} SkipSpaceOverSpace(ws: string, s: string)
    requires AllSpace(ws)
    ensures SkipSpace(ws + s) == SkipSpace(s)
    decreases |ws|
  {
    if |ws| > 0 {
      assert (ws + s)[0] == ws[0];
      assert (ws + s)[1..] == ws[1..] + s;
      SkipSpaceOverSpace(ws[1..], s);
    } else {
      assert ws + s == s;
    }
  }

  /** One white-space character in front makes no difference. */
  lemma SkipSpaceCons(c: char, rest: string)
    requires IsSpace(c)
    ensures SkipSpace([c] + rest) == SkipSpace(rest)
  {
    assert ([c] + rest)[1..] == rest;
  }

  lemma SkipSpaceIdempotent(s: string)
    ensures SkipSpace(SkipSpace(s)) == SkipSpace(s)
  {
  }

  lemma ReadNatSkipsSpace(s: string)
    ensures ReadNat(SkipSpace(s)) == ReadNat(s)
  {
    SkipSpaceIdempotent(s);
  }

  lemma {:induction false} DigitRunOfDigits(d: string, rest: string)
    requires AllDigits(d) && (rest == [] || !IsDigit(rest[0]))
    ensures DigitRun(d + rest) == |d|
    decreases |d|
  {
    if |d| > 0 {
      assert (d + rest)[1..] == d[1..] + rest;
      DigitRunOfDigits(d[1..], rest);
    } else {
      assert d + rest == rest;
    }
  }

  /** Reading back what `<< n` wrote: the number, with the text after it. */
  lemma ReadShowNat(n: nat, rest: string)
    requires Delimited(rest)
    ensures ReadNat(ShowNat(n) + rest) == Some((n, SkipSpace(rest)))
  {
    var d := ShowNat(n);
    assert SkipSpace(d + rest) == d + rest;
    DigitRunOfDigits(d, rest);
    assert (d + rest)[..|d|] == d;
    assert (d + rest)[|d|..] == rest;
  }

  /** Distinct numbers have distinct texts: reading recovers the number. */
  lemma ShowNatInjective(a: nat, b: nat)
    requires ShowNat(a) == ShowNat(b)
    ensures a == b
  {
    ReadShowNat(a, []);
    ReadShowNat(b, []);
    assert ShowNat(a) + [] == ShowNat(a);
    assert ShowNat(b) + [] == ShowNat(b);
  }

  function Pow10(k: nat): (p: nat)
    ensures p >= 1
  {
    if k == 0 then 1 else 10 * Pow10(k - 1)
  }

  /** A number below `10^k` takes at most `k` digits. */
  lemma {:induction false} ShowNatLength(n: nat, k: nat)
    requires 1 <= k && n < Pow10(k)
    ensures |ShowNat(n)| <= k
    decreases k
  {
    if n >= 10 {
      ShowNatLength(n / 10, k - 1);
    }
  }
}
