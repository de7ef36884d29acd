/**
 * The document-title parser (`parseTitle` in src/lib/feishu.ts, `parse_title` in
 * build.py). Two anchored patterns are tried in turn:
 *   ^(\d{4})[：:\s-]+(.+)$
 *   ^(\d{4})\s+(.+)$
 * The separator run is greedy, so the engine tries the longest run first and gives
 * characters back one at a time until `(.+)$` matches the rest; `.` does not match a
 * line terminator.
 */
module Titles {
  import opened Wrappers
  import opened Text

  datatype Title = Title(dateCode: string, title: string)

  /** `[：:\s-]` */
  predicate IsSeparator(c: char) {
    c == '：' || c == ':' || c == '-' || IsSpace(c)
  }

  /**
   * The pattern "four digits, a run of `sep` characters, then one or more
   * characters up to the end" matches `raw` with the remainder starting at `j`.
   */
  predicate IsSplit(raw: string, sep: char -> bool, j: int) {
    && 4 < j < |raw|
    && AllDigits(raw[..4])
    && (forall i :: 4 <= i < j ==> sep(raw[i]))
    && NoLineBreak(raw[j..])
  }

  /**
   * Where the backtracking match of the pattern puts the remainder: the longest
   * separator run, shortened by one character when it reaches the end of `raw`.
   */
  function SplitPoint(raw: string, sep: char -> bool): (r: Option<nat>)
    ensures r.Some? ==> IsSplit(raw, sep, r.value) && forall k :: r.value < k ==> !IsSplit(raw, sep, k)
    ensures r.None? ==> forall k :: !IsSplit(raw, sep, k)
  {
    if |raw| < 6 || !AllDigits(raw[..4]) then None
    else
      var e := Span(raw, 4, sep);
      var j := if e < |raw| then e else |raw| - 1;
      if 4 < j && NoLineBreak(raw[j..]) then Some(j)
      else
        assert forall k :: !IsSplit(raw, sep, k) by {
          forall k | IsSplit(raw, sep, k) ensures false {
            if k <= j && 4 < j {
              NoLineBreakSuffix(raw, k, j);
            }
          }
        }
        None
  }

  /** parseTitle */
  function ParseTitle(raw: string): Title {
    match SplitPoint(raw, IsSeparator)
    case Some(j) => Title(raw[..4], raw[j..])
    case None =>
      match SplitPoint(raw, IsSpace)
      case Some(j) => Title(raw[..4], raw[j..])
      case None => Title("", raw)
  }

  /**
   * A title either splits into four digits, a separator run and a non-empty
   * one-line remainder, taken with the longest run the pattern admits, or is
   * returned whole with an empty date code.
   */
  lemma ParseTitleSplits(raw: string)
    ensures var r := ParseTitle(raw);
      && (r.dateCode != "" <==> exists j :: IsSplit(raw, IsSeparator, j))
      && (r.dateCode != "" ==>
            && |r.dateCode| == 4 && AllDigits(r.dateCode) && r.title != [] && NoLineBreak(r.title)
            && StartsWith(raw, r.dateCode) && EndsWith(raw, r.title)
            && IsSplit(raw, IsSeparator, |raw| - |r.title|)
            && forall k :: |raw| - |r.title| < k ==> !IsSplit(raw, IsSeparator, k))
      && (r.dateCode == "" ==> r.title == raw)
  {
    var first := SplitPoint(raw, IsSeparator);
    if first.None? {
      var second := SplitPoint(raw, IsSpace);
      if second.Some? {
        SecondImpliesFirst(raw, second.value);
      }
    }
  }

  /** Whitespace is one of the separators, so a split by the second pattern is one by the first. */
  lemma SecondImpliesFirst(raw: string, j: int)
    requires IsSplit(raw, IsSpace, j)
    ensures IsSplit(raw, IsSeparator, j)
  {
  }

  /** The second pattern can never succeed where the first failed. */
  lemma SecondPatternNeverDecides(raw: string)
    ensures SplitPoint(raw, IsSpace).Some? ==> SplitPoint(raw, IsSeparator).Some?
    ensures SplitPoint(raw, IsSeparator).None? ==> ParseTitle(raw) == Title("", raw)
  {
    var second := SplitPoint(raw, IsSpace);
    if second.Some? {
      SecondImpliesFirst(raw, second.value);
    }
  }

  lemma ExampleTitle()
    ensures ParseTitle("0312：对话 Sam Altman") == Title("0312", "对话 Sam Altman")
  {
    var raw := "0312：对话 Sam Altman";
    assert raw[..4] == "0312" && AllDigits(raw[..4]);
    assert raw[4] == '：' && !IsSeparator(raw[5]);
    assert Span(raw, 4, IsSeparator) == 5;
    assert raw[5..] == "对话 Sam Altman";
    assert NoLineBreak(raw[5..]);
    assert SplitPoint(raw, IsSeparator) == Some(5);
  }

  lemma ExampleUntitled()
    ensures ParseTitle("无日期的标题") == Title("", "无日期的标题")
  {
    var raw := "无日期的标题";
    assert !IsDigit(raw[0]);
    assert !AllDigits(raw[..4]);
  }
}
