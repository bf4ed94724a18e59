/**
 * String operations the handlers rely on: the last occurrence of a character
 * (str.rsplit and str.rfind), ASCII lower-casing (str.lower), case-insensitive
 * substring search (SQL ILIKE '%s%'), posixpath.join and posixpath.basename,
 * and decimal rendering and parsing of integers.
 */
module Text {
  import opened Wrappers

  /** The index of the last `c` in `s`, or None when `s` has no `c`. */
  function LastIndexOf(s: string, c: char): (r: Option<nat>)
    ensures r.None? <==> c !in s
    ensures r.Some? ==> r.value < |s| && s[r.value] == c
    ensures r.Some? ==> forall j :: r.value < j < |s| ==> s[j] != c
  {
    if |s| == 0 then None
    else if s[|s| - 1] == c then Some(|s| - 1)
    else
      assert s == s[..|s| - 1] + [s[|s| - 1]];
      LastIndexOf(s[..|s| - 1], c)
  }

  /** The text after the last `c`, or all of `s` when it has none (s[s.rfind(c)+1:]). */
  function AfterLast(s: string, c: char): (r: string)
    ensures c !in r
    ensures |r| <= |s| && r == s[|s| - |r|..]
    ensures |r| < |s| ==> s[|s| - |r| - 1] == c
  {
    match LastIndexOf(s, c)
    case None => s
    case Some(i) => s[i + 1..]
  }

  function LowerChar(c: char): char {
    if 'A' <= c <= 'Z' then (c as int + 32) as char else c
  }

  /** str.lower restricted to ASCII letters; every other character is kept. */
  function Lower(s: string): string {
    seq(|s|, i requires 0 <= i < |s| => LowerChar(s[i]))
  }

  lemma LowerSlice(s: string, i: nat, j: nat)
    requires i <= j <= |s|
    ensures Lower(s)[i..j] == Lower(s[i..j])
  {
  }

  lemma LowerIdempotent(s: string)
    ensures Lower(Lower(s)) == Lower(s)
  {
  }

  /** Lower-casing moves no dot and no slash, so it keeps the last occurrence of either. */
  lemma LowerKeepsLastIndex(s: string, c: char)
    requires c == '.' || c == '/'
    ensures LastIndexOf(Lower(s), c) == LastIndexOf(s, c)
  {
    var l := Lower(s);
    assert forall j :: 0 <= j < |s| ==> (l[j] == c <==> s[j] == c);
    match LastIndexOf(s, c)
    case None =>
      assert c !in l by {
        forall j | 0 <= j < |l| ensures l[j] != c { }
      }
    case Some(i) =>
      var r := LastIndexOf(l, c);
      assert c in l by { assert l[i] == c; }
      assert s[r.value] == c;
  }

  /** `t` occurs in `s` starting at index `i`. */
  predicate OccursAt(s: string, t: string, i: nat) {
    i + |t| <= |s| && s[i..i + |t|] == t
  }

  /** `t` occurs in `s` as a contiguous piece. */
  predicate Contains(s: string, t: string) {
    exists i: nat | i <= |s| :: OccursAt(s, t, i)
  }

  /** `name ILIKE '%search%'`, for a search text without SQL wildcards. */
  predicate ContainsIgnoringCase(s: string, t: string) {
    Contains(Lower(s), Lower(t))
  }

  /** posixpath.join(a, b): an absolute `b` replaces `a`; otherwise one '/' separates them. */
  function JoinPath(a: string, b: string): string {
    if |b| > 0 && b[0] == '/' then b
    else if a == [] || a[|a| - 1] == '/' then a + b
    else a + "/" + b
  }

  predicate Relative(p: string) {
    |p| == 0 || p[0] != '/'
  }

  /** posixpath.basename: the text after the last '/'. */
  function Basename(p: string): string {
    AfterLast(p, '/')
  }

  // ---------- decimal integers ----------

  function DigitChar(d: nat): char
    requires d < 10
  {
    ('0' as int + d) as char
  }

  predicate IsDigit(c: char) {
    '0' <= c <= '9'
  }

  function DigitValue(c: char): nat
    requires IsDigit(c)
  {
    c as int - '0' as int
  }

  /** str(n) for a non-negative n: the shortest decimal rendering. */
  function NatToString(n: nat): (r: string)
    ensures |r| > 0 && forall k :: 0 <= k < |r| ==> IsDigit(r[k])
    ensures |r| > 1 ==> r[0] != '0'
    ensures r[0] == '0' <==> n == 0
  {
    if n < 10 then [DigitChar(n)]
    else NatToString(n / 10) + [DigitChar(n % 10)]
  }

  /** str(n): a '-' before the digits of a negative number. */
  function IntToString(n: int): (r: string)
    ensures |r| > 0 && (r[0] == '-' <==> n < 0)
    ensures n >= 0 ==> ParseNat(r) == Some(n)
    ensures n < 0 ==> ParseNat(r[1..]) == Some(-n)
    // the one canonical rendering: no leading zero, and no "-0"
    ensures n >= 0 && |r| > 1 ==> r[0] != '0'
    ensures n < 0 ==> |r| > 1 && r[1] != '0'
  {
    if n < 0 then
      var digits := NatToString(-n);
      ParseNatToString(-n);
      assert ("-" + digits)[1..] == digits;
      "-" + digits
    else
      ParseNatToString(n);
      NatToString(n)
  }

  /** The value of a non-empty run of ASCII digits; None for any other text. */
  function ParseNat(s: string): (r: Option<nat>)
    ensures r.Some? <==> |s| > 0 && forall k :: 0 <= k < |s| ==> IsDigit(s[k])
  {
    if |s| == 0 || !IsDigit(s[|s| - 1]) then None
    else if |s| == 1 then Some(DigitValue(s[0]))
    else match ParseNat(s[..|s| - 1])
      case None => None
      case Some(v) => Some(v * 10 + DigitValue(s[|s| - 1]))
  }

  /** Rendering a number and parsing it back gives the number again. */
  lemma {:induction false} ParseNatToString(n: nat)
    ensures ParseNat(NatToString(n)) == Some(n)
  {
    if n >= 10 {
      var s := NatToString(n);
      ParseNatToString(n / 10);
      assert s[..|s| - 1] == NatToString(n / 10);
    }
  }
}
