/** Remainders, powers of two, decimal and hexadecimal digits. */
module Arithmetic {

  lemma MultipleAtLeast(d: int, n: nat)
    ensures d >= 1 ==> d * n >= n
    ensures d <= -1 ==> d * n <= -(n as int)
  {
    if d <= -1 { assert d * n == -((-d) * n) && (-d) * n >= n; }
  }

  /** Quotient and remainder are determined by the number. */
  lemma ModUnique(a: int, q: int, r: int, n: nat)
    requires 0 <= r < n && a == q * n + r
    ensures a % n == r && a / n == q
  {
    var p := a / n;
    assert a == p * n + a % n;
    assert (q - p) * n == q * n - p * n;
    MultipleAtLeast(q - p, n);
  }

  function Pow2(k: nat): nat { if k == 0 then 1 else 2 * Pow2(k - 1) }

  predicate IsDigit(c: char) { '0' <= c <= '9' }

  predicate Digits(s: string) { forall i | 0 <= i < |s| :: IsDigit(s[i]) }

  /** The number that decimal digits spell. */
  function Numeral(s: string): nat
    requires Digits(s)
  {
    if s == [] then 0 else Numeral(s[..|s| - 1]) * 10 + (s[|s| - 1] as int - '0' as int)
  }

  function HexDigit(d: nat): char
    requires d < 16
  {
    if d < 10 then ('0' as int + d) as char else ('a' as int + d - 10) as char
  }

  /** The value of a hexadecimal digit; -1 for every other byte. */
  function Unhex(c: char): int {
    if '0' <= c <= '9' then c as int - '0' as int
    else if 'a' <= c <= 'f' then c as int - 'a' as int + 10
    else if 'A' <= c <= 'F' then c as int - 'A' as int + 10
    else -1
  }

  lemma UnhexDigit(d: nat)
    requires d < 16
    ensures Unhex(HexDigit(d)) == d
  {
  }
}
