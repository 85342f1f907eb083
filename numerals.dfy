/**
 * The `%u`/`%d` (decimal) and `%x` (lower-case hexadecimal) conversions of
 * printf for non-negative values, together with the reading that inverts
 * them.
 */
module Numerals {

  /** The digit for `d` in bases up to 16: '0'..'9' then 'a'..'f'. */
  function DigitChar(d: nat): (c: char)
    requires d < 16
    ensures IsDigitChar(c)
  {
    if d < 10 then ('0' as int + d) as char else ('a' as int + d - 10) as char
  }

  predicate IsDigitChar(c: char)
  {
    '0' <= c <= '9' || 'a' <= c <= 'f'
  }

  function DigitValue(c: char): nat
  {
    if '0' <= c <= '9' then c as int - '0' as int
    else if 'a' <= c <= 'f' then c as int - 'a' as int + 10
    else 0
  }

  lemma DigitRoundTrip(d: nat)
    requires d < 16
    ensures DigitValue(DigitChar(d)) == d
  {
  }

  /** The digits of `n` in `base`, most significant first, without leading zeros. */
  function Digits(n: nat, base: nat): (s: string)
    requires 2 <= base <= 16
    ensures |s| >= 1
    ensures forall i :: 0 <= i < |s| ==> IsDigitChar(s[i])
    decreases n
  {
    if n < base then [DigitChar(n)]
    else
      DivShrinks(n, base);
      var p := Digits(n / base, base);
      var s := p + [DigitChar(n % base)];
      assert forall i :: 0 <= i < |p| ==> s[i] == p[i];
      s
  }

  /** `printf("%u", n)`. */
  function Dec(n: nat): string
  {
    Digits(n, 10)
  }

  /** `printf("%x", n)`. */
  function Hex(n: nat): string
  {
    Digits(n, 16)
  }

  /** The number a string of digits denotes in `base`. */
  function Value(s: string, base: nat): nat
  {
    if s == [] then 0 else Value(s[..|s| - 1], base) * base + DigitValue(s[|s| - 1])
  }

  /** Reading the printed digits back gives the number printed. */
  lemma {:induction false} ValueOfDigits(n: nat, base: nat)
    requires 2 <= base <= 16
    ensures Value(Digits(n, base), base) == n
  {
    var s := Digits(n, base);
    if n < base {
      DigitRoundTrip(n);
    } else {
      var q, d := n / base, n % base;
      var p := Digits(q, base);
      DivShrinks(n, base);
      assert s == p + [DigitChar(d)];
      assert s[..|s| - 1] == p;
      ValueOfDigits(q, base);
      DigitRoundTrip(d);
      LastDigit(p, DigitChar(d), base);
      Recompose(n, base);
    }
  }

  lemma LastDigit(p: string, c: char, base: nat)
    ensures Value(p + [c], base) == Value(p, base) * base + DigitValue(c)
  {
    assert (p + [c])[..|p|] == p;
  }

  lemma DivShrinks(n: nat, base: nat)
    requires 2 <= base <= n
    ensures n / base < n
  {
    var q := n / base;
    Recompose(n, base);
    assert q * base >= q + q;
  }

  lemma Recompose(n: nat, base: nat)
    requires base > 0
    ensures (n / base) * base + n % base == n
  {
  }

  /** Different numbers print differently. */
  lemma DigitsInjective(m: nat, n: nat, base: nat)
    requires 2 <= base <= 16
    requires Digits(m, base) == Digits(n, base)
    ensures m == n
  {
    ValueOfDigits(m, base);
    ValueOfDigits(n, base);
  }

  /** The length of the run of digits that starts a text. */
  function DigitRun(s: string): (n: nat)
    ensures n <= |s|
  {
    if s == [] || !IsDigitChar(s[0]) then 0 else 1 + DigitRun(s[1..])
  }

  lemma {:induction false} DigitRunOf(u: string, c: char, r: string)
    requires forall i :: 0 <= i < |u| ==> IsDigitChar(u[i])
    requires !IsDigitChar(c)
    ensures DigitRun(u + [c] + r) == |u|
  {
    if u != [] {
      assert (u + [c] + r)[1..] == u[1..] + [c] + r;
      DigitRunOf(u[1..], c, r);
    }
  }

  /**
   * Two texts that each start with a run of digits followed by the same
   * non-digit character agree on the digits and on what follows.
   */
  lemma {:induction false} SplitAfterDigits(u1: string, r1: string, u2: string, r2: string, c: char)
    requires forall i :: 0 <= i < |u1| ==> IsDigitChar(u1[i])
    requires forall i :: 0 <= i < |u2| ==> IsDigitChar(u2[i])
    requires !IsDigitChar(c)
    requires u1 + [c] + r1 == u2 + [c] + r2
    ensures u1 == u2 && r1 == r2
  {
    var t := u1 + [c] + r1;
    DigitRunOf(u1, c, r1);
    DigitRunOf(u2, c, r2);
    assert u1 == t[..|u1|] == u2;
    assert r1 == t[|u1| + 1..] == r2;
  }
}
