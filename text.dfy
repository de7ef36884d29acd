/**
 * Character classes and string helpers shared by the whole model.
 *
 * Strings are sequences of Unicode code points. Whitespace is the set that
 * JavaScript's `\s` and `String.prototype.trim` use; the "any character" of a
 * regular expression (`.`) is every code point except the four JavaScript
 * line terminators.
 */
module Text {

  /** JavaScript `\s`: WhiteSpace and LineTerminator code points. */
  predicate IsSpace(c: char) {
    || c == '\t' || c == '\n' || c == '\U{000B}' || c == '\U{000C}' || c == '\r' || c == ' '
    || c == '\U{00A0}' || c == '\U{1680}' || ('\U{2000}' <= c <= '\U{200A}')
    || c == '\U{2028}' || c == '\U{2029}' || c == '\U{202F}' || c == '\U{205F}'
    || c == '\U{3000}' || c == '\U{FEFF}'
  }

  /** The code points a regular-expression `.` does not match. */
  predicate IsLineTerminator(c: char) {
    c == '\n' || c == '\r' || c == '\U{2028}' || c == '\U{2029}'
  }

  /** JavaScript `\d`. */
  predicate IsDigit(c: char) {
    '0' <= c <= '9'
  }

  predicate IsNotSpace(c: char) {
    !IsSpace(c)
  }

  /** `s` can be matched by `.*`. */
  predicate NoLineBreak(s: string) {
    forall i :: 0 <= i < |s| ==> !IsLineTerminator(s[i])
  }

  /** A remainder with no line break stays so when it is shortened from the left. */
  lemma NoLineBreakSuffix(s: string, i: nat, k: nat)
    requires i <= k <= |s| && NoLineBreak(s[i..])
    ensures NoLineBreak(s[k..])
  {
    forall m | 0 <= m < |s[k..]| ensures !IsLineTerminator(s[k..][m]) {
      assert s[k..][m] == s[i..][m + k - i];
    }
  }

  /** A piece of a string with no line break has none. */
  lemma NoLineBreakInfix(s: string, i: nat, j: nat)
    requires i <= j <= |s| && NoLineBreak(s)
    ensures NoLineBreak(s[i..j])
  {
    forall m | 0 <= m < j - i ensures !IsLineTerminator(s[i..j][m]) {
      assert s[i..j][m] == s[i + m];
    }
  }

  predicate AllSpace(s: string) {
    forall i :: 0 <= i < |s| ==> IsSpace(s[i])
  }

  predicate AllDigits(s: string) {
    forall i :: 0 <= i < |s| ==> IsDigit(s[i])
  }

  /** The end of the longest run of characters satisfying `p` that starts at `i`. */
  function Span(s: string, i: nat, p: char -> bool): (j: nat)
    requires i <= |s|
    ensures i <= j <= |s|
    ensures forall k :: i <= k < j ==> p(s[k])
    ensures j == |s| || !p(s[j])
    decreases |s| - i
  {
    if i == |s| || !p(s[i]) then i else Span(s, i + 1, p)
  }

  predicate StartsWith(s: string, prefix: string) {
    |prefix| <= |s| && s[..|prefix|] == prefix
  }

  predicate EndsWith(s: string, suffix: string) {
    |suffix| <= |s| && s[|s| - |suffix|..] == suffix
  }

  /** `needle` occurs in `s` starting at position `i`. */
  predicate OccursAt(s: string, needle: string, i: int) {
    0 <= i && i + |needle| <= |s| && s[i..i + |needle|] == needle
  }

  /** `String.prototype.includes` / Python's `in` on strings. */
  predicate Contains(s: string, needle: string) {
    exists i :: 0 <= i <= |s| && OccursAt(s, needle, i)
  }

  /** The start of the longest run of characters satisfying `p` that ends at `j`, not before `lo`. */
  function SpanBack(s: string, lo: nat, j: nat, p: char -> bool): (k: nat)
    requires lo <= j <= |s|
    ensures lo <= k <= j
    ensures forall m :: k <= m < j ==> p(s[m])
    ensures k == lo || !p(s[k - 1])
    decreases j
  {
    if j == lo || !p(s[j - 1]) then j else SpanBack(s, lo, j - 1, p)
  }

  /** No whitespace at either end. */
  predicate Trimmed(s: string) {
    s == [] || (!IsSpace(s[0]) && !IsSpace(s[|s| - 1]))
  }

  /** The run from `i` ends at `j` when everything before `j` qualifies and `s[j]` does not. */
  lemma {:induction false} SpanIs(s: string, i: nat, j: nat, p: char -> bool)
    requires i <= j <= |s| && (forall k :: i <= k < j ==> p(s[k])) && (j == |s| || !p(s[j]))
    ensures Span(s, i, p) == j
    decreases j - i
  {
    if i < j {
      SpanIs(s, i + 1, j, p);
    }
  }

  /** The run back from `j` stops at `k` when everything from `k` qualifies and `s[k - 1]` does not. */
  lemma {:induction false} SpanBackIs(s: string, lo: nat, j: nat, k: nat, p: char -> bool)
    requires lo <= k <= j <= |s| && (forall m :: k <= m < j ==> p(s[m])) && (k == lo || !p(s[k - 1]))
    ensures SpanBack(s, lo, j, p) == k
    decreases j
  {
    if k < j {
      SpanBackIs(s, lo, j - 1, k, p);
    }
  }

  /**
   * `String.prototype.trim` (and, up to the whitespace set, Python's
   * `str.strip`): the text between the leading and the trailing whitespace.
   */
  function Trim(s: string): (r: string)
    ensures Trimmed(r)
  {
    var i := Span(s, 0, IsSpace);
    var k := SpanBack(s, i, |s|, IsSpace);
    assert i < k ==> s[i..k][0] == s[i] && s[i..k][k - i - 1] == s[k - 1];
    s[i..k]
  }

  /** Trimming leaves exactly the text between the leading and the trailing whitespace. */
  lemma TrimIsInfix(s: string)
    ensures exists i :: (0 <= i <= |s| - |Trim(s)| && s[i..i + |Trim(s)|] == Trim(s)
                         && AllSpace(s[..i]) && AllSpace(s[i + |Trim(s)|..]))
  {
    var i := Span(s, 0, IsSpace);
    var k := SpanBack(s, i, |s|, IsSpace);
    assert AllSpace(s[..i]) by {
      forall m | 0 <= m < i ensures IsSpace(s[..i][m]) {
        assert s[..i][m] == s[m];
      }
    }
    assert AllSpace(s[k..]) by {
      forall m | 0 <= m < |s| - k ensures IsSpace(s[k..][m]) {
        assert s[k..][m] == s[k + m];
      }
    }
    assert i + |Trim(s)| == k;
  }

  /** A string trims to nothing exactly when it is all whitespace. */
  lemma TrimEmptyIff(s: string)
    ensures Trim(s) == [] <==> AllSpace(s)
  {
    var i := Span(s, 0, IsSpace);
    if i < |s| {
      assert !AllSpace(s) by {
        assert !IsSpace(s[i]);
      }
    }
  }

  /** Trimming does nothing to a string without whitespace at either end. */
  lemma TrimKeepsTrimmed(s: string)
    requires Trimmed(s)
    ensures Trim(s) == s
  {
    if s != [] {
      assert Span(s, 0, IsSpace) == 0;
      assert s[0..|s|] == s;
    }
  }

  /** Trimming a string with no line break leaves none. */
  lemma TrimNoLineBreak(s: string)
    requires NoLineBreak(s)
    ensures NoLineBreak(Trim(s))
  {
    var i := Span(s, 0, IsSpace);
    NoLineBreakInfix(s, i, SpanBack(s, i, |s|, IsSpace));
  }

  /** Whitespace after the text does not change what trimming keeps. */
  lemma TrimAppendSpaces(x: string, z: string)
    requires AllSpace(z)
    ensures Trim(x + z) == Trim(x)
  {
    if Span(x, 0, IsSpace) < |x| {
      TrimAppendSolid(x, z);
    } else {
      AllSpaceAppend(x, z);
      SpanIs(x + z, 0, |x + z|, IsSpace);
    }
  }

  lemma TrimAppendSolid(x: string, z: string)
    requires AllSpace(z) && Span(x, 0, IsSpace) < |x|
    ensures Trim(x + z) == Trim(x)
  {
    var i := Span(x, 0, IsSpace);
    var k := SpanBack(x, i, |x|, IsSpace);
    SpanAppend(x, z, IsSpace);
    SpanBackAppend(x, z, i, IsSpace);
    TrimBetween(x + z, i, k);
    TrimBetween(x, i, k);
    SliceOfAppend(x, z, i, k);
  }

  /** Trimming keeps the text between the two runs of whitespace. */
  lemma TrimBetween(s: string, i: nat, k: nat)
    requires i <= k <= |s| && Span(s, 0, IsSpace) == i && SpanBack(s, i, |s|, IsSpace) == k
    ensures Trim(s) == s[i..k]
  {
  }

  lemma SliceOfAppend<T>(x: seq<T>, z: seq<T>, i: nat, k: nat)
    requires i <= k <= |x|
    ensures (x + z)[i..k] == x[i..k]
  {
  }

  lemma SpanAppend(x: string, z: string, p: char -> bool)
    requires Span(x, 0, p) < |x|
    ensures Span(x + z, 0, p) == Span(x, 0, p)
  {
    var i := Span(x, 0, p);
    var y := x + z;
    assert forall m :: 0 <= m <= i ==> y[m] == x[m];
    SpanIs(y, 0, i, p);
  }

  /** A run back from the end of `x + z` over all of `z` ends where the run back in `x` ends, when that is a non-empty stretch. */
  lemma SpanBackAppend(x: string, z: string, lo: nat, p: char -> bool)
    requires lo < |x| && !p(x[lo]) && forall m :: 0 <= m < |z| ==> p(z[m])
    ensures SpanBack(x + z, lo, |x + z|, p) == SpanBack(x, lo, |x|, p)
  {
    var y := x + z;
    var k := SpanBack(x, lo, |x|, p);
    assert k > lo;
    assert y[k - 1] == x[k - 1];
    forall m | k <= m < |y| ensures p(y[m]) {
      if m < |x| {
        assert y[m] == x[m];
      } else {
        assert y[m] == z[m - |x|];
      }
    }
    SpanBackIs(y, lo, |y|, k, p);
  }

  lemma AllSpaceAppend(x: string, z: string)
    requires AllSpace(x) && AllSpace(z)
    ensures AllSpace(x + z)
  {
    var y := x + z;
    forall m | 0 <= m < |y| ensures IsSpace(y[m]) {
      if m < |x| {
        assert y[m] == x[m];
      } else {
        assert y[m] == z[m - |x|];
      }
    }
  }

  /** `[：:]` */
  predicate IsColon(c: char) {
    c == '：' || c == ':'
  }

  /** Joins with the empty separator. */
  function Concat(parts: seq<string>): (r: string)
    ensures |r| == 0 <==> forall i :: 0 <= i < |parts| ==> parts[i] == []
  {
    if parts == [] then [] else parts[0] + Concat(parts[1..])
  }
}
