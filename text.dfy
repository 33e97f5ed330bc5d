/**
 * Character classes and the two scanning primitives every pattern in the
 * exporter is built from: the end of a run of characters of one class, and
 * the leftmost position where a pattern matches (how a regular-expression
 * search walks its subject).
 */
module Text {
  import opened Wrappers

  predicate IsDigit(c: char) { '0' <= c <= '9' }

  function DigitValue(c: char): (d: nat)
    requires IsDigit(c)
    ensures d <= 9
  {
    (c as int) - ('0' as int)
  }

  predicate AllDigits(s: string) {
    forall k | 0 <= k < |s| :: IsDigit(s[k])
  }

  /** `lit` occurs in `s` starting at index `i`. */
  predicate LiteralAt(s: string, i: nat, lit: string) {
    i + |lit| <= |s| && forall t | 0 <= t < |lit| :: s[i + t] == lit[t]
  }

  /** A literal cannot start where its first character is missing. */
  lemma NotLiteralAt(s: string, i: nat, lit: string)
    requires |lit| > 0 && (i < |s| ==> s[i] != lit[0])
    ensures !LiteralAt(s, i, lit)
  {
    if i + |lit| <= |s| {
      assert s[i + 0] != lit[0];
    }
  }

  /** The end of the longest run of characters of class `cls` starting at `j`. */
  function RunEnd(s: string, j: nat, cls: char -> bool): (q: nat)
    requires j <= |s|
    ensures j <= q <= |s|
    ensures forall k {:trigger cls(s[k])} | j <= k < q :: cls(s[k])
    ensures q < |s| ==> !cls(s[q])
    decreases |s| - j
  {
    if j == |s| || !cls(s[j]) then j else RunEnd(s, j + 1, cls)
  }

  /** A run is determined by where it starts: any maximal run from `j` ends at RunEnd. */
  lemma RunEndUnique(s: string, j: nat, cls: char -> bool, q: nat)
    requires j <= q <= |s|
    requires forall k | j <= k < q :: cls(s[k])
    requires q < |s| ==> !cls(s[q])
    ensures RunEnd(s, j, cls) == q
  {
  }

  /** The leftmost position in [from, n] where `p` holds. */
  function FirstWhere(from: nat, n: nat, p: nat -> bool): (r: Option<nat>)
    requires from <= n + 1
    ensures r.Some? ==> from <= r.value <= n && p(r.value)
    ensures r.Some? ==> forall k | from <= k < r.value :: !p(k)
    ensures r.None? <==> forall k | from <= k <= n :: !p(k)
    decreases n + 1 - from
  {
    if from > n then None
    else if p(from) then Some(from)
    else FirstWhere(from + 1, n, p)
  }

  /** Value of a string of decimal digits, most significant first. */
  function DecimalValue(s: string): (v: nat)
    requires AllDigits(s)
    ensures v < Pow10(|s|)
  {
    if s == [] then 0
    else DecimalValue(s[..|s| - 1]) * 10 + DigitValue(s[|s| - 1])
  }

  function Pow10(n: nat): (p: nat)
    ensures p >= 1
  {
    if n == 0 then 1 else 10 * Pow10(n - 1)
  }
}
