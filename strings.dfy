/**
 * String helpers shared by the three clients of the video pipeline: decimal
 * rendering of numbers, the default string order of a JavaScript `sort()`,
 * substring search, first-occurrence replacement and separator splitting.
 */
module Strings {

  datatype Option<T> = None | Some(value: T)

  // ---------------------------------------------------------------------------
  // Decimal numbers, as `String(n)` in JavaScript and `"" + n` in Java render
  // a non-negative integer.
  // ---------------------------------------------------------------------------

  predicate IsDigit(c: char) { '0' <= c <= '9' }

  predicate AllDigits(s: string) { forall k :: 0 <= k < |s| ==> IsDigit(s[k]) }

  function DigitChar(d: nat): (c: char)
    requires d < 10
    ensures IsDigit(c)
  {
    (('0' as int) + d) as char
  }

  function DigitValue(c: char): (d: nat)
    requires IsDigit(c)
    ensures d < 10
  {
    (c as int) - ('0' as int)
  }

  /** The shortest decimal rendering of n: digits only, no leading zero. */
  function DecimalString(n: nat): (s: string)
    ensures |s| >= 1 && AllDigits(s)
    ensures (|s| == 1) == (n < 10)
    ensures s[0] == '0' ==> n == 0
  {
    if n < 10 then [DigitChar(n)] else DecimalString(n / 10) + [DigitChar(n % 10)]
  }

  /** Reads a string of digits back as a number (the inverse of DecimalString). */
  function ParseDecimal(s: string): nat
    requires AllDigits(s)
  {
    if |s| == 0 then 0 else ParseDecimal(s[..|s| - 1]) * 10 + DigitValue(s[|s| - 1])
  }

  lemma {:induction false} DecimalRoundTrip(n: nat)
    ensures ParseDecimal(DecimalString(n)) == n
  {
    var s := DecimalString(n);
    if n < 10 {
      assert s[..0] == [];
    } else {
      assert s[..|s| - 1] == DecimalString(n / 10);
      DecimalRoundTrip(n / 10);
    }
  }

  lemma DecimalInjective(m: nat, n: nat)
    ensures DecimalString(m) == DecimalString(n) <==> m == n
  {
    DecimalRoundTrip(m);
    DecimalRoundTrip(n);
  }

  // ---------------------------------------------------------------------------
  // The default order of `Array.prototype.sort()` on strings: lexicographic,
  // character by character, a proper prefix before its extensions.
  // ---------------------------------------------------------------------------

  predicate Less(a: string, b: string)
  {
    if |b| == 0 then false
    else if |a| == 0 then true
    else if a[0] != b[0] then a[0] < b[0]
    else Less(a[1..], b[1..])
  }

  lemma {:induction false} LessIrreflexive(a: string)
    ensures !Less(a, a)
  {
    if |a| > 0 {
      LessIrreflexive(a[1..]);
    }
  }

  lemma {:induction false} LessTransitive(a: string, b: string, c: string)
    requires Less(a, b) && Less(b, c)
    ensures Less(a, c)
  {
    if |a| > 0 && a[0] == b[0] && b[0] == c[0] {
      LessTransitive(a[1..], b[1..], c[1..]);
    }
  }

  lemma {:induction false} LessTotal(a: string, b: string)
    requires a != b
    ensures Less(a, b) || Less(b, a)
  {
    if |a| > 0 && |b| > 0 && a[0] == b[0] {
      assert a == [a[0]] + a[1..] && b == [b[0]] + b[1..];
      LessTotal(a[1..], b[1..]);
    }
  }

  lemma LessAsymmetric(a: string, b: string)
    requires Less(a, b)
    ensures !Less(b, a)
  {
    if Less(b, a) {
      LessTransitive(a, b, a);
      LessIrreflexive(a);
    }
  }

  /** A difference inside equally long prefixes decides the order of any extensions. */
  lemma {:induction false} LessExtend(x: string, y: string, u: string, v: string)
    requires |x| == |y| && Less(x, y)
    ensures Less(x + u, y + v)
  {
    if x[0] == y[0] {
      assert (x + u)[1..] == x[1..] + u && (y + v)[1..] == y[1..] + v;
      LessExtend(x[1..], y[1..], u, v);
    }
  }

  /** A common prefix does not change the order. */
  lemma {:induction false} LessCommonPrefix(x: string, u: string, v: string)
    requires Less(u, v)
    ensures Less(x + u, x + v)
  {
    if |x| > 0 {
      assert (x + u)[1..] == x[1..] + u && (x + v)[1..] == x[1..] + v;
      LessCommonPrefix(x[1..], u, v);
    } else {
      assert x + u == u && x + v == v;
    }
  }

  /** Decimal renderings of the same length are ordered as the numbers are. */
  lemma {:induction false} DecimalOrder(a: nat, b: nat)
    requires a < b && |DecimalString(a)| == |DecimalString(b)|
    ensures Less(DecimalString(a), DecimalString(b))
  {
    if b < 10 {
      assert DigitChar(a) < DigitChar(b);
    } else if a / 10 == b / 10 {
      assert a % 10 < b % 10;
      assert DigitChar(a % 10) < DigitChar(b % 10);
      LessCommonPrefix(DecimalString(a / 10), [DigitChar(a % 10)], [DigitChar(b % 10)]);
    } else {
      DecimalOrder(a / 10, b / 10);
      LessExtend(DecimalString(a / 10), DecimalString(b / 10), [DigitChar(a % 10)], [DigitChar(b % 10)]);
    }
  }

  // ---------------------------------------------------------------------------
  // Substring search: `String.contains` in Java, `String.prototype.includes`
  // in JavaScript, and the first-match `replace` with a literal pattern.
  // ---------------------------------------------------------------------------

  predicate OccursAt(s: string, pat: string, i: nat)
  {
    i + |pat| <= |s| && s[i..i + |pat|] == pat
  }

  /** The leftmost occurrence of pat in s at or after position i. */
  function FindFrom(s: string, pat: string, i: nat): (r: Option<nat>)
    requires i <= |s|
    decreases |s| - i
    ensures r.Some? ==> i <= r.value && OccursAt(s, pat, r.value)
    ensures r.Some? ==> forall k: nat :: i <= k < r.value ==> !OccursAt(s, pat, k)
    ensures r.None? ==> forall k: nat :: i <= k ==> !OccursAt(s, pat, k)
  {
    if OccursAt(s, pat, i) then Some(i)
    else if i == |s| then None
    else FindFrom(s, pat, i + 1)
  }

  /** i is the position of the leftmost occurrence of pat in s. */
  ghost predicate Leftmost(s: string, pat: string, i: nat)
  {
    OccursAt(s, pat, i) && forall k: nat :: k < i ==> !OccursAt(s, pat, k)
  }

  function FindFirst(s: string, pat: string): (r: Option<nat>)
    ensures r.Some? ==> Leftmost(s, pat, r.value)
    ensures r.None? ==> forall k: nat :: !OccursAt(s, pat, k)
  {
    FindFrom(s, pat, 0)
  }

  predicate Contains(s: string, pat: string)
    ensures Contains(s, pat) <==> exists k: nat :: OccursAt(s, pat, k)
  {
    FindFirst(s, pat).Some?
  }

  /** Replaces the leftmost occurrence of pat, if any, by rep. */
  function ReplaceFirst(s: string, pat: string, rep: string): (r: string)
    ensures (forall k: nat :: !OccursAt(s, pat, k)) ==> r == s
    ensures forall i: nat :: Leftmost(s, pat, i) ==> r == s[..i] + rep + s[i + |pat|..]
  {
    match FindFirst(s, pat)
    case None => s
    case Some(i) => s[..i] + rep + s[i + |pat|..]
  }

  // ---------------------------------------------------------------------------
  // Splitting at a separator character.
  // ---------------------------------------------------------------------------

  /** A separator absent from both left parts splits a string in one way only. */
  lemma SplitAtFirst(a: string, x: string, b: string, y: string, sep: char)
    requires sep !in a && sep !in b
    requires a + [sep] + x == b + [sep] + y
    ensures a == b && x == y
  {
    var s := a + [sep] + x;
    assert s[|a|] == sep && s[|b|] == sep;
    assert forall k :: 0 <= k < |a| ==> s[k] == a[k];
    assert forall k :: 0 <= k < |b| ==> s[k] == b[k];
    assert |a| == |b|;
    assert a == s[..|a|] && b == s[..|b|];
    assert x == s[|a| + 1..] && y == s[|b| + 1..];
  }

  /** A separator absent from both right parts splits a string in one way only. */
  lemma SplitAtLast(a: string, x: string, b: string, y: string, sep: char)
    requires sep !in x && sep !in y
    requires a + [sep] + x == b + [sep] + y
    ensures a == b && x == y
  {
    var s := a + [sep] + x;
    assert s[|a|] == sep && s[|b|] == sep;
    assert forall k :: |a| < k < |s| ==> s[k] == x[k - |a| - 1];
    assert forall k :: |b| < k < |s| ==> s[k] == y[k - |b| - 1];
    assert |a| == |b|;
    assert a == s[..|a|] && b == s[..|b|];
    assert x == s[|a| + 1..] && y == s[|b| + 1..];
  }
}
