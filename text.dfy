/**
 * The string operation the scrape handler applies to every extracted text:
 * JavaScript's `String.prototype.trim`, which removes leading and trailing
 * white space and line terminators (ECMAScript WhiteSpace and
 * LineTerminator), and JavaScript truthiness of a string (non-empty).
 */
module Text {

  /** ECMAScript WhiteSpace (TAB, VT, FF, ZWNBSP and every Zs code point)
      and LineTerminator (LF, CR, LS, PS). */
  predicate IsSpace(c: char) {
    var n := c as int;
    n == 0x09 || n == 0x0A || n == 0x0B || n == 0x0C || n == 0x0D ||
    n == 0x20 || n == 0xA0 || n == 0x1680 || (0x2000 <= n <= 0x200A) ||
    n == 0x2028 || n == 0x2029 || n == 0x202F || n == 0x205F ||
    n == 0x3000 || n == 0xFEFF
  }

  predicate AllSpace(s: string) {
    forall i :: 0 <= i < |s| ==> IsSpace(s[i])
  }

  /** Reference definition of trimming: `r` is the part of `s` left after
      removing a white-space prefix and a white-space suffix, and `r` itself
      neither starts nor ends with white space. */
  ghost predicate IsTrimOf(s: string, r: string) {
    exists lo :: 0 <= lo <= |s| - |r| && IsTrimAt(s, r, lo)
  }

  ghost predicate IsTrimAt(s: string, r: string, lo: int)
    requires 0 <= lo <= |s| - |r|
  {
    && s[lo..lo + |r|] == r
    && AllSpace(s[..lo])
    && AllSpace(s[lo + |r|..])
    && (r != [] ==> !IsSpace(r[0]) && !IsSpace(r[|r| - 1]))
  }

  /** Index of the first character at or after `i` that is not white
      space (`|s|` when there is none). */
  function SkipSpace(s: string, i: nat): (n: nat)
    requires i <= |s|
    ensures i <= n <= |s|
    ensures forall k :: i <= k < n ==> IsSpace(s[k])
    ensures n < |s| ==> !IsSpace(s[n])
    decreases |s| - i
  {
    if i < |s| && IsSpace(s[i]) then SkipSpace(s, i + 1) else i
  }

  /** End of the last character before `j` that is not white space
      (`0` when there is none). */
  function SkipSpaceBack(s: string, j: nat): (n: nat)
    requires j <= |s|
    ensures n <= j
    ensures forall k :: n <= k < j ==> IsSpace(s[k])
    ensures n > 0 ==> !IsSpace(s[n - 1])
    decreases j
  {
    if j > 0 && IsSpace(s[j - 1]) then SkipSpaceBack(s, j - 1) else j
  }

  /** `String.prototype.trim`. */
  function Trim(s: string): (r: string)
    ensures IsTrimOf(s, r)
    ensures r == [] <==> AllSpace(s)
  {
    var lo := SkipSpace(s, 0);
    var hi := SkipSpaceBack(s, |s|);
    if lo == |s| then
      assert IsTrimAt(s, [], |s|);
      []
    else
      assert IsTrimAt(s, s[lo..hi], lo);
      s[lo..hi]
  }

  /** Trimming has exactly one answer, so `Trim` is that answer. */
  lemma TrimUnique(s: string, r1: string, r2: string)
    requires IsTrimOf(s, r1) && IsTrimOf(s, r2)
    ensures r1 == r2
  {
  }

  /** Trimming an already trimmed string changes nothing. */
  lemma TrimIdempotent(s: string)
    ensures Trim(Trim(s)) == Trim(s)
  {
  }
}
