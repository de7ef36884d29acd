/**
 * The paragraph clean-up shared by the article card and the share card
 * (`formatParagraph` in src/components/ArticleCard.tsx and
 * src/components/ShareButton.tsx), and the filter that drops paragraphs
 * pointing at the video. Both replacements are global: the string is scanned
 * from the left, a match is replaced and scanning resumes after it.
 */
module Markup {
  import opened Wrappers
  import opened Text
  import opened Lists

  const HttpsPrefix: string := "https://"
  const HttpPrefix: string := "http://"

  /**
   * `https?:\/\/[^\s]+` matches at `i`. The optional `s` is tried first; both
   * alternatives need at least one non-space character after the `//`.
   */
  predicate UrlAt(s: string, i: int) {
    || (OccursAt(s, HttpsPrefix, i) && i + 8 < |s| && !IsSpace(s[i + 8]))
    || (OccursAt(s, HttpPrefix, i) && i + 7 < |s| && !IsSpace(s[i + 7]))
  }

  /** Where a URL match at `i` ends: the `[^\s]+` run is greedy. */
  function UrlEnd(s: string, i: nat): (e: nat)
    requires UrlAt(s, i)
    ensures i < e <= |s| && (e == |s| || IsSpace(s[e]))
    ensures forall k :: i <= k < e ==> !IsSpace(s[k])
  {
    var start := if OccursAt(s, HttpsPrefix, i) && i + 8 < |s| && !IsSpace(s[i + 8]) then i + 8 else i + 7;
    assert forall k :: i <= k < start ==> s[k] == (if start == i + 8 then HttpsPrefix else HttpPrefix)[k - i];
    Span(s, start, IsNotSpace)
  }

  /** `s.replace(/https?:\/\/[^\s]+/g, "")` on the part of `s` from `i` on. */
  function StripFrom(s: string, i: nat): string
    requires i <= |s|
    decreases |s| - i
  {
    if i == |s| then []
    else if UrlAt(s, i) then StripFrom(s, UrlEnd(s, i))
    else [s[i]] + StripFrom(s, i + 1)
  }

  function StripUrls(s: string): string {
    StripFrom(s, 0)
  }

  predicate NoUrl(s: string) {
    forall j :: 0 <= j < |s| ==> !UrlAt(s, j)
  }

  /** Without a URL, nothing is removed. */
  lemma {:induction false} StripWithoutUrl(s: string, i: nat)
    requires i <= |s| && NoUrl(s)
    ensures StripFrom(s, i) == s[i..]
    decreases |s| - i
  {
    if i < |s| {
      StripWithoutUrl(s, i + 1);
      assert s[i..] == [s[i]] + s[i + 1..];
    }
  }

  /** What is left after a URL starts with the whitespace that ended it, if anything. */
  lemma AfterUrl(s: string, i: nat)
    requires UrlAt(s, i)
    ensures StripFrom(s, i) == StripFrom(s, UrlEnd(s, i))
    ensures StripFrom(s, i) == [] || IsSpace(StripFrom(s, i)[0])
  {
    var e := UrlEnd(s, i);
    if e < |s| {
      NoUrlAtSpace(s, e);
      KeepsChar(s, e);
    }
  }

  /** No URL starts at a whitespace character. */
  lemma NoUrlAtSpace(s: string, e: nat)
    requires e < |s| && IsSpace(s[e])
    ensures !UrlAt(s, e)
  {
    var c := s[e];
    assert c != 'h';
  }

  /** A character that does not start a URL is kept. */
  lemma KeepsChar(s: string, i: nat)
    requires i < |s| && !UrlAt(s, i)
    ensures StripFrom(s, i) == [s[i]] + StripFrom(s, i + 1)
  {
  }

  /**
   * The output from `i` starts with the characters of `s` up to the next URL,
   * followed by nothing or by the whitespace that ended that URL.
   */
  lemma {:induction false} StripSplit(s: string, i: nat) returns (n: nat)
    requires i <= |s|
    ensures i <= n <= |s| && StripFrom(s, i) == s[i..n] + StripFrom(s, n)
    ensures forall k :: i <= k < n ==> !UrlAt(s, k)
    ensures StripFrom(s, n) == [] || IsSpace(StripFrom(s, n)[0])
    decreases |s| - i
  {
    if i == |s| {
      n := i;
    } else if UrlAt(s, i) {
      n := i;
      StripSplitAtUrl(s, i);
    } else {
      n := StripSplit(s, i + 1);
      StripSplitStep(s, i, n);
    }
  }

  /** At a URL the copied run is empty. */
  lemma StripSplitAtUrl(s: string, i: nat)
    requires UrlAt(s, i)
    ensures StripFrom(s, i) == s[i..i] + StripFrom(s, i)
    ensures StripFrom(s, i) == [] || IsSpace(StripFrom(s, i)[0])
  {
    AfterUrl(s, i);
    assert s[i..i] == [];
  }

  /** One kept character extends the copied run. */
  lemma StripSplitStep(s: string, i: nat, n: nat)
    requires i < n <= |s| && !UrlAt(s, i)
    requires StripFrom(s, i + 1) == s[i + 1..n] + StripFrom(s, n)
    ensures StripFrom(s, i) == s[i..n] + StripFrom(s, n)
  {
    var run, rest := s[i + 1..n], StripFrom(s, n);
    KeepsChar(s, i);
    assert s[i..n] == [s[i]] + run;
    AppendAssoc([s[i]], run, rest);
  }

  /** All characters of `s[i..j]` are non-space. */
  predicate SolidRange(s: string, i: int, j: int) {
    0 <= i <= j <= |s| && forall k :: i <= k < j ==> !IsSpace(s[k])
  }

  /** A URL match occupies a window of at least 8 non-space characters that decides it. */
  lemma UrlWindow(s: string, i: nat)
    requires UrlAt(s, i)
    ensures var w := if OccursAt(s, HttpsPrefix, i) && i + 8 < |s| && !IsSpace(s[i + 8]) then 9 else 8;
      && SolidRange(s, i, i + w)
      && forall t: string :: |t| >= w && t[..w] == s[i..i + w] ==> UrlAt(t, 0)
  {
    var w := if OccursAt(s, HttpsPrefix, i) && i + 8 < |s| && !IsSpace(s[i + 8]) then 9 else 8;
    var p := if w == 9 then HttpsPrefix else HttpPrefix;
    forall k | i <= k < i + w ensures !IsSpace(s[k]) {
      if k < i + w - 1 {
        assert s[k] == p[k - i];
      }
    }
    assert OccursAt(s, p, i) && |p| == w - 1 && !IsSpace(s[i + w - 1]);
    forall t: string | |t| >= w && t[..w] == s[i..i + w] ensures UrlAt(t, 0) {
      forall m | 0 <= m < w ensures t[m] == s[i + m] {
        assert t[..w][m] == s[i..i + w][m];
      }
      assert t[0..|p|] == p by {
        forall m | 0 <= m < |p| ensures t[0..|p|][m] == p[m] {
          assert s[i..i + |p|][m] == p[m];
        }
      }
    }
  }

  /**
   * A URL at the start of `s[i..n] + w`, where `w` is empty or starts with
   * whitespace, lies inside `s[i..n]` and so is a URL of `s`.
   */
  lemma HeadWindow(s: string, i: nat, n: nat, w: string)
    requires i < n <= |s| && (w == [] || IsSpace(w[0]))
    requires UrlAt(s[i..n] + w, 0)
    ensures UrlAt(s, i)
  {
    var r := s[i..n] + w;
    UrlWindow(r, 0);
    var m := if OccursAt(r, HttpsPrefix, 0) && 8 < |r| && !IsSpace(r[8]) then 9 else 8;
    SolidPrefix(s[i..n], w, m);
    assert s[i..][..m] == r[..m];
    UrlShift(s, i);
  }

  /** A run of non-space characters at the start of `a + w` stays inside `a` when `w` starts with a space. */
  lemma SolidPrefix(a: string, w: string, m: nat)
    requires SolidRange(a + w, 0, m) && (w == [] || IsSpace(w[0]))
    ensures m <= |a|
  {
    assert w != [] ==> (a + w)[|a|] == w[0];
  }

  lemma HeadNotUrl(s: string, i: nat, n: nat, t: string, w: string)
    requires i < n <= |s| && !UrlAt(s, i)
    requires t == s[i + 1..n] + w && (w == [] || IsSpace(w[0]))
    ensures !UrlAt([s[i]] + t, 0)
  {
    assert [s[i]] + t == s[i..n] + w by {
      assert s[i..n] == [s[i]] + s[i + 1..n];
    }
    if UrlAt(s[i..n] + w, 0) {
      HeadWindow(s, i, n, w);
    }
  }

  /** A character that is not the start of a URL stays one when the text after it is cleaned. */
  lemma NoUrlAtHead(s: string, i: nat)
    requires i < |s| && !UrlAt(s, i)
    ensures !UrlAt([s[i]] + StripFrom(s, i + 1), 0)
  {
    var n := StripSplit(s, i + 1);
    HeadNotUrl(s, i, n, StripFrom(s, i + 1), StripFrom(s, n));
  }

  /** A URL at the start of a suffix is a URL of the whole string. */
  lemma UrlShift(s: string, i: nat)
    requires i <= |s| && UrlAt(s[i..], 0)
    ensures UrlAt(s, i)
  {
    var t := s[i..];
    if OccursAt(t, HttpsPrefix, 0) && 8 < |t| && !IsSpace(t[8]) {
      assert s[i..i + 8] == t[..8];
    } else {
      assert s[i..i + 7] == t[..7];
    }
  }

  /** No URL is left after the clean-up. */
  lemma {:induction false} StripRemovesUrls(s: string, i: nat)
    requires i <= |s|
    ensures NoUrl(StripFrom(s, i))
    decreases |s| - i
  {
    if i < |s| {
      if UrlAt(s, i) {
        StripRemovesUrls(s, UrlEnd(s, i));
      } else {
        var t := StripFrom(s, i + 1);
        StripRemovesUrls(s, i + 1);
        NoUrlAtHead(s, i);
        var r := [s[i]] + t;
        forall j | 1 <= j < |r| ensures !UrlAt(r, j) {
          assert r[j..] == t[j - 1..];
          if UrlAt(r, j) {
            UrlSuffix(r, j);
            UrlShift(t, j - 1);
          }
        }
      }
    }
  }

  /** A URL inside a string is a URL at the start of the suffix where it begins. */
  lemma UrlSuffix(s: string, j: nat)
    requires j <= |s| && UrlAt(s, j)
    ensures UrlAt(s[j..], 0)
  {
    var t := s[j..];
    if OccursAt(s, HttpsPrefix, j) && j + 8 < |s| && !IsSpace(s[j + 8]) {
      assert t[..8] == s[j..j + 8];
    } else {
      assert t[..7] == s[j..j + 7];
    }
  }

  lemma StripUrlsCorrect(s: string)
    ensures NoUrl(StripUrls(s))
    ensures NoUrl(s) ==> StripUrls(s) == s
    ensures StripUrls(StripUrls(s)) == StripUrls(s)
  {
    StripRemovesUrls(s, 0);
    StripWithoutUrl(StripUrls(s), 0);
    if NoUrl(s) {
      StripWithoutUrl(s, 0);
    }
  }

  /** A URL inside a piece of `s` is a URL of `s`: its deciding window lies inside the piece. */
  lemma UrlInInfix(s: string, i: nat, j: nat, k: nat)
    requires i <= j <= |s| && k < j - i && UrlAt(s[i..j], k)
    ensures UrlAt(s, i + k)
  {
    var t := s[i..j];
    var p := if OccursAt(t, HttpsPrefix, k) && k + 8 < |t| && !IsSpace(t[k + 8]) then HttpsPrefix else HttpPrefix;
    assert OccursAt(t, p, k) && k + |p| < |t|;
    forall m | 0 <= m < |p| ensures s[i + k..i + k + |p|][m] == p[m] {
      assert t[k..k + |p|][m] == p[m] && t[k + m] == s[i + k + m];
    }
    assert s[i + k..i + k + |p|] == p;
    assert t[k + |p|] == s[i + k + |p|];
  }

  /** A piece of a string without URLs has none. */
  lemma NoUrlInfix(s: string, i: nat, j: nat)
    requires i <= j <= |s| && NoUrl(s)
    ensures NoUrl(s[i..j])
  {
    forall k | 0 <= k < j - i ensures !UrlAt(s[i..j], k) {
      if UrlAt(s[i..j], k) {
        UrlInInfix(s, i, j, k);
      }
    }
  }

  /** Trimming a string without URLs leaves none. */
  lemma TrimNoUrl(s: string)
    requires NoUrl(s)
    ensures NoUrl(Trim(s))
  {
    var i := Span(s, 0, IsSpace);
    NoUrlInfix(s, i, SpanBack(s, i, |s|, IsSpace));
  }

  // ---------------------------------------------------------------------------
  // Numbered items

  /** `[、．.]` */
  predicate IsItemMark(c: char) {
    c == '、' || c == '．' || c == '.'
  }

  /**
   * `(\d+)[、．.]\s*` matches at `i`. The digit run is greedy and a shorter run
   * is followed by a digit, so only the whole run can be followed by the mark.
   */
  predicate ItemAt(s: string, i: nat) {
    i < |s| && IsDigit(s[i]) && Span(s, i, IsDigit) < |s| && IsItemMark(s[Span(s, i, IsDigit)])
  }

  /**
   * `s.replace(/(\d+)[、．.]\s*\/g, open + "$1. " + close)`: the digits are kept,
   * the mark and the spaces after it become `". "`, the whole wrapped in `open`
   * and `close`. A match depends only on the text from its start, so scanning
   * on from a position is rewriting the suffix there.
   */
  function RewriteNumbers(s: string, open: string, close: string): string
    decreases |s|
  {
    if s == [] then []
    else if ItemAt(s, 0) then
      var d := Span(s, 0, IsDigit);
      open + s[..d] + ". " + close + RewriteNumbers(s[Span(s, d + 1, IsSpace)..], open, close)
    else [s[0]] + RewriteNumbers(s[1..], open, close)
  }

  predicate NoItem(s: string) {
    forall i :: 0 <= i < |s| ==> !ItemAt(s, i)
  }

  /** An item of a suffix is an item of the whole string. */
  lemma ItemShift(s: string, i: nat, j: nat)
    requires i <= j < |s|
    ensures ItemAt(s[i..], j - i) <==> ItemAt(s, j)
  {
    ShiftSpan(s, i, j, IsDigit);
  }

  /** Without a numbered item, nothing changes. */
  lemma {:induction false} RewriteWithoutItem(s: string, open: string, close: string)
    requires NoItem(s)
    ensures RewriteNumbers(s, open, close) == s
    decreases |s|
  {
    if s != [] {
      assert NoItem(s[1..]) by {
        forall j | 0 <= j < |s[1..]| ensures !ItemAt(s[1..], j) {
          ItemShift(s, 1, j + 1);
        }
      }
      RewriteWithoutItem(s[1..], open, close);
      assert s == [s[0]] + s[1..];
    }
  }

  /**
   * An item at the very start: its digits, a mark and any spaces become the
   * digits and `". "`, wrapped, and the text after it is rewritten on its own.
   */
  lemma RewriteLeadingItem(digits: string, mark: char, spaces: string, rest: string, open: string, close: string)
    requires digits != [] && AllDigits(digits) && IsItemMark(mark) && AllSpace(spaces)
    requires rest == [] || !IsSpace(rest[0])
    ensures RewriteNumbers(digits + [mark] + spaces + rest, open, close)
         == open + digits + ". " + close + RewriteNumbers(rest, open, close)
  {
    var s := digits + [mark] + spaces + rest;
    var d := |digits|;
    assert s[d] == mark;
    SpanIs(s, 0, d, IsDigit);
    var e := d + 1 + |spaces|;
    SpanIs(s, d + 1, e, IsSpace);
    assert s[..d] == digits;
    assert s[e..] == rest;
  }

  /** A run in a suffix ends where the run in the whole string ends. */
  lemma {:induction false} ShiftSpan(s: string, i: nat, j: nat, p: char -> bool)
    requires i <= j <= |s|
    ensures Span(s[i..], j - i, p) == Span(s, j, p) - i
    decreases |s| - j
  {
    if j < |s| && p(s[j]) {
      ShiftSpan(s, i, j + 1, p);
    }
  }

  /**
   * The rewrite leaves a string blank exactly when it was blank: an item
   * keeps its digits, and every other character is copied.
   */
  lemma {:induction false} RewriteKeepsBlank(s: string, open: string, close: string)
    ensures AllSpace(RewriteNumbers(s, open, close)) <==> AllSpace(s)
    decreases |s|
  {
    if s != [] {
      var r := RewriteNumbers(s, open, close);
      if ItemAt(s, 0) {
        var d := Span(s, 0, IsDigit);
        assert r[|open|] == s[0];
        assert !AllSpace(r) && !AllSpace(s);
      } else {
        RewriteKeepsBlank(s[1..], open, close);
        AllSpaceCons(s[0], s[1..]);
        AllSpaceCons(s[0], RewriteNumbers(s[1..], open, close));
        assert s == [s[0]] + s[1..];
      }
    }
  }

  lemma AllSpaceCons(c: char, t: string)
    ensures AllSpace([c] + t) <==> IsSpace(c) && AllSpace(t)
  {
    if IsSpace(c) && AllSpace(t) {
      forall k | 0 <= k < |[c] + t| ensures IsSpace(([c] + t)[k]) {
        if k > 0 {
          assert ([c] + t)[k] == t[k - 1];
        }
      }
    }
    if AllSpace([c] + t) {
      forall k | 0 <= k < |t| ensures IsSpace(t[k]) {
        assert ([c] + t)[k + 1] == t[k];
      }
      assert ([c] + t)[0] == c;
    }
  }

  // ---------------------------------------------------------------------------
  // formatParagraph and the paragraph filters

  /** formatParagraph: URLs removed, numbered items rewritten, the result trimmed. */
  function FormatParagraph(text: string, open: string, close: string): (r: string)
    ensures Trimmed(r)
  {
    Trim(RewriteNumbers(StripUrls(text), open, close))
  }

  /**
   * Whether a paragraph formats to nothing does not depend on the markup
   * wrapped around the numbers, so the article and the share card keep
   * the same paragraphs.
   */
  lemma FormatBlankIndependent(text: string, open: string, close: string, open2: string, close2: string)
    ensures FormatParagraph(text, open, close) == [] <==> FormatParagraph(text, open2, close2) == []
  {
    var u := StripUrls(text);
    RewriteKeepsBlank(u, open, close);
    RewriteKeepsBlank(u, open2, close2);
    TrimEmptyIff(RewriteNumbers(u, open, close));
    TrimEmptyIff(RewriteNumbers(u, open2, close2));
  }

  /** A paragraph pointing at the video: it mentions the link label or a video host. */
  predicate MentionsYoutube(t: string) {
    Contains(t, "YouTube 链接") || Contains(t, "youtube.com") || Contains(t, "youtu.be")
  }

  /** What one paragraph contributes: its formatted text, unless it points at the video or formats to nothing. */
  function LineOf(t: string, open: string, close: string): (r: seq<string>)
    ensures |r| <= 1
    ensures forall k :: 0 <= k < |r| ==> r[k] != [] && Trimmed(r[k])
  {
    var line := FormatParagraph(t, open, close);
    if !MentionsYoutube(t) && line != [] then [line] else []
  }

  /** Whether a line may be shown: it is not empty and has no whitespace at either end. */
  predicate ShowableLine(line: string) {
    line != [] && Trimmed(line)
  }

  /** LineOf as a function value, for the generic flat map. */
  function LineFn(open: string, close: string): string -> seq<string> {
    t => LineOf(t, open, close)
  }

  /**
   * The lines a list of paragraphs shows: video paragraphs dropped, the rest
   * formatted, and those that format to nothing dropped.
   */
  function VisibleLines(paragraphs: seq<string>, open: string, close: string): (r: seq<string>)
    ensures |r| <= |paragraphs|
    ensures forall k :: 0 <= k < |r| ==> ShowableLine(r[k])
  {
    var f := LineFn(open, close);
    FlatMapAtMostOne(f, paragraphs);
    FlatMapAll(f, paragraphs, ShowableLine);
    FlatMap(f, paragraphs)
  }

  lemma VisibleLinesStep(ps: seq<string>, t: string, open: string, close: string)
    ensures VisibleLines(ps + [t], open, close) == VisibleLines(ps, open, close) + LineOf(t, open, close)
  {
    FlatMapStep(LineFn(open, close), ps, t);
  }

  /** Each paragraph is handled on its own: the lines of a concatenation are the concatenated lines. */
  lemma VisibleLinesAppend(a: seq<string>, b: seq<string>, open: string, close: string)
    ensures VisibleLines(a + b, open, close) == VisibleLines(a, open, close) + VisibleLines(b, open, close)
  {
    FlatMapAppend(LineFn(open, close), a, b);
  }

  /** `line` is the formatted text of a paragraph of `paragraphs` that does not point at the video. */
  predicate ComesFrom(line: string, paragraphs: seq<string>, open: string, close: string) {
    exists j :: 0 <= j < |paragraphs| && !MentionsYoutube(paragraphs[j]) && line == FormatParagraph(paragraphs[j], open, close)
  }

  /** Every shown line is the formatted text of a paragraph that does not point at the video. */
  lemma VisibleLinesFromParagraphs(paragraphs: seq<string>, open: string, close: string)
    ensures forall k :: 0 <= k < |VisibleLines(paragraphs, open, close)| ==>
              ComesFrom(VisibleLines(paragraphs, open, close)[k], paragraphs, open, close)
  {
    var f := LineFn(open, close);
    var r := VisibleLines(paragraphs, open, close);
    FlatMapOrigin(f, paragraphs);
    forall k | 0 <= k < |r| ensures ComesFrom(r[k], paragraphs, open, close) {
      var j :| 0 <= j < |paragraphs| && r[k] in f(paragraphs[j]);
      LineOfMember(paragraphs[j], r[k], open, close);
    }
  }

  lemma LineOfMember(t: string, line: string, open: string, close: string)
    requires line in LineOf(t, open, close)
    ensures !MentionsYoutube(t) && line == FormatParagraph(t, open, close)
  {
    var formatted := FormatParagraph(t, open, close);
    assert LineOf(t, open, close) == if !MentionsYoutube(t) && formatted != [] then [formatted] else [];
  }

  /** Both markups keep the same paragraphs, so they show the same number of lines. */
  lemma {:induction false} VisibleLinesSameCount(paragraphs: seq<string>, open: string, close: string, open2: string, close2: string)
    ensures |VisibleLines(paragraphs, open, close)| == |VisibleLines(paragraphs, open2, close2)|
  {
    if paragraphs != [] {
      var init, last := paragraphs[..|paragraphs| - 1], paragraphs[|paragraphs| - 1];
      VisibleLinesSameCount(init, open, close, open2, close2);
      SplitLast(paragraphs);
      VisibleLinesStep(init, last, open, close);
      VisibleLinesStep(init, last, open2, close2);
      FormatBlankIndependent(last, open, close, open2, close2);
    }
  }

  /** A paragraph pointing at the video contributes no line. */
  lemma DropsVideoParagraph(t: string, open: string, close: string)
    requires MentionsYoutube(t)
    ensures VisibleLines([t], open, close) == []
  {
    FlatMapSingle(LineFn(open, close), t);
  }

  /** A paragraph that does not point at the video and formats to some text is shown as that text. */
  lemma KeepsPlainParagraph(t: string, open: string, close: string)
    requires !MentionsYoutube(t) && FormatParagraph(t, open, close) != []
    ensures VisibleLines([t], open, close) == [FormatParagraph(t, open, close)]
  {
    FlatMapSingle(LineFn(open, close), t);
  }

  /** Every paragraph that does not point at the video and formats to some text has its line shown. */
  lemma {:induction false} VisibleLinesKeeps(paragraphs: seq<string>, open: string, close: string)
    ensures forall j :: 0 <= j < |paragraphs| && !MentionsYoutube(paragraphs[j]) && FormatParagraph(paragraphs[j], open, close) != []
              ==> FormatParagraph(paragraphs[j], open, close) in VisibleLines(paragraphs, open, close)
  {
    if paragraphs != [] {
      var init, last := paragraphs[..|paragraphs| - 1], paragraphs[|paragraphs| - 1];
      VisibleLinesKeeps(init, open, close);
      SplitLast(paragraphs);
      VisibleLinesStep(init, last, open, close);
      var a, b := VisibleLines(init, open, close), LineOf(last, open, close);
      forall j | 0 <= j < |paragraphs| && !MentionsYoutube(paragraphs[j]) && FormatParagraph(paragraphs[j], open, close) != []
        ensures FormatParagraph(paragraphs[j], open, close) in a + b
      {
        if j < |init| {
          assert paragraphs[j] == init[j];
        } else {
          assert paragraphs[j] == last;
          assert b == [FormatParagraph(last, open, close)];
        }
      }
    }
  }

  // ---------------------------------------------------------------------------
  // The number rewrite creates no URL

  /** The characters the two URL prefixes are made of. */
  predicate IsUrlChar(c: char) {
    c == 'h' || c == 't' || c == 'p' || c == 's' || c == ':' || c == '/'
  }

  /**
   * Markup that cannot take part in a URL: it has no `h`, the letter both
   * prefixes start with, and the opening markup does not start with a
   * character of a prefix.
   */
  predicate SafeMarkup(open: string, close: string) {
    && (open == [] || !IsUrlChar(open[0]))
    && (forall k :: 0 <= k < |open| ==> open[k] != 'h')
    && (forall k :: 0 <= k < |close| ==> close[k] != 'h')
  }

  /** A URL match starts with `h`. */
  lemma UrlStartsWithH(s: string, j: nat)
    ensures UrlAt(s, j) ==> j < |s| && s[j] == 'h'
  {
    if UrlAt(s, j) {
      if OccursAt(s, HttpsPrefix, j) {
        assert s[j..j + 8][0] == s[j];
      } else {
        assert s[j..j + 7][0] == s[j];
      }
    }
  }

  /** A match after a prefix `a` is a match of the rest. */
  lemma UrlAtAppend(a: string, b: string, j: nat)
    requires |a| <= j
    ensures UrlAt(a + b, j) <==> UrlAt(b, j - |a|)
  {
    var s, i := a + b, j - |a|;
    assert forall m :: j <= m < |s| ==> s[m] == b[m - |a|];
    if j + 8 <= |s| {
      assert s[j..j + 8] == b[i..i + 8];
    }
    if j + 7 <= |s| {
      assert s[j..j + 7] == b[i..i + 7];
    }
  }

  /** Where an item begins, the rewritten text starts with the opening markup or the first digit. */
  lemma RewriteItemHead(t: string, open: string, close: string)
    requires ItemAt(t, 0) && (open == [] || !IsUrlChar(open[0]))
    ensures RewriteNumbers(t, open, close) != [] && !IsUrlChar(RewriteNumbers(t, open, close)[0])
  {
    var d := Span(t, 0, IsDigit);
    var rest := RewriteNumbers(t[Span(t, d + 1, IsSpace)..], open, close);
    assert t[..d] != [] && t[..d][0] == t[0];
    InsertHead(open, t[..d], close, rest);
  }

  /** The first character of an inserted item. */
  lemma InsertHead(open: string, digits: string, close: string, rest: string)
    requires digits != []
    ensures (open + digits + ". " + close + rest)[0] == if open == [] then digits[0] else open[0]
  {
  }

  /** Away from an item, the rewrite copies the first character and rewrites the rest. */
  lemma RewriteCopiesHead(t: string, open: string, close: string)
    requires t != [] && !ItemAt(t, 0)
    ensures RewriteNumbers(t, open, close) == [t[0]] + RewriteNumbers(t[1..], open, close)
  {
  }

  /**
   * If `r` starts with `n` prefix characters and goes on, `t` agrees with
   * it on them, and the next character is copied or is a digit of `t`.
   */
  predicate CopiedUpTo(t: string, r: string, n: nat) {
    (n < |r| && forall k :: 0 <= k < n ==> IsUrlChar(r[k])) ==>
      n < |t| && t[..n] == r[..n] && (r[n] == t[n] || IsDigit(t[n]))
  }

  /** Copying one more character in front keeps the agreement one position further. */
  lemma CopiedStep(c: char, t: string, r: string, n: nat)
    requires 0 < n && CopiedUpTo(t, r, n - 1)
    ensures CopiedUpTo([c] + t, [c] + r, n)
  {
    var t', r' := [c] + t, [c] + r;
    if n < |r'| && forall k :: 0 <= k < n ==> IsUrlChar(r'[k]) {
      forall k | 0 <= k < n - 1 ensures IsUrlChar(r[k]) {
        assert r[k] == r'[k + 1];
      }
      assert t'[..n] == [c] + t[..n - 1];
      assert r'[..n] == [c] + r[..n - 1];
    }
  }

  /**
   * While the rewritten text starts with prefix characters, it copies the
   * text; the next character is copied too, or is where an item begins and
   * the text has a digit.
   */
  lemma {:induction false} RewriteHead(t: string, n: nat, open: string, close: string)
    requires open == [] || !IsUrlChar(open[0])
    ensures CopiedUpTo(t, RewriteNumbers(t, open, close), n)
    decreases n
  {
    if t == [] {
      assert RewriteNumbers(t, open, close) == [];
    } else if ItemAt(t, 0) {
      RewriteItemHead(t, open, close);
    } else {
      RewriteCopiesHead(t, open, close);
      if n == 0 {
        assert RewriteNumbers(t, open, close)[0] == t[0];
      } else {
        RewriteHead(t[1..], n - 1, open, close);
        CopiedStep(t[0], t[1..], RewriteNumbers(t[1..], open, close), n);
        assert [t[0]] + t[1..] == t;
      }
    }
  }

  /** A URL at the start of the rewritten text was a URL at the start of the text. */
  lemma RewriteUrlHead(t: string, open: string, close: string)
    requires open == [] || !IsUrlChar(open[0])
    ensures UrlAt(RewriteNumbers(t, open, close), 0) ==> UrlAt(t, 0)
  {
    var r := RewriteNumbers(t, open, close);
    if UrlAt(r, 0) {
      var p := if OccursAt(r, HttpsPrefix, 0) && 8 < |r| && !IsSpace(r[8]) then HttpsPrefix else HttpPrefix;
      assert r[0..|p|] == p && |p| < |r| && !IsSpace(r[|p|]);
      forall k | 0 <= k < |p| ensures IsUrlChar(r[k]) {
        assert r[k] == r[0..|p|][k] == p[k];
      }
      RewriteHead(t, |p|, open, close);
      assert CopiedUpTo(t, r, |p|);
      assert t[0..|p|] == t[..|p|] == r[..|p|];
    }
  }

  /**
   * The number rewrite creates no URL when its markup cannot take part in
   * one: the inserted text has no `h`, and a URL ending where an item begins
   * was already a URL, with the item's first digit after it.
   */
  lemma {:induction false} RewriteNoUrl(s: string, open: string, close: string)
    requires NoUrl(s) && SafeMarkup(open, close)
    ensures NoUrl(RewriteNumbers(s, open, close))
    decreases |s|
  {
    if s != [] {
      var r := RewriteNumbers(s, open, close);
      RewriteUrlHead(s, open, close);
      if ItemAt(s, 0) {
        var d := Span(s, 0, IsDigit);
        var e := Span(s, d + 1, IsSpace);
        var ins := open + s[..d] + ". " + close;
        NoUrlInfix(s, e, |s|);
        assert s[e..|s|] == s[e..];
        RewriteNoUrl(s[e..], open, close);
        var rest := RewriteNumbers(s[e..], open, close);
        assert r == ins + rest;
        forall k | 0 <= k < |ins| ensures ins[k] != 'h' {
          if k < |open| {
            assert ins[k] == open[k];
          } else if k < |open| + d {
            assert ins[k] == s[..d][k - |open|] == s[k - |open|];
          } else if k < |open| + d + 2 {
            assert ins[k] == ". "[k - |open| - d];
          } else {
            assert ins[k] == close[k - |open| - d - 2];
          }
        }
        forall j | 0 <= j < |r| ensures !UrlAt(r, j) {
          if j < |ins| {
            assert r[j] == ins[j];
            UrlStartsWithH(r, j);
          } else {
            UrlAtAppend(ins, rest, j);
          }
        }
      } else {
        NoUrlInfix(s, 1, |s|);
        assert s[1..|s|] == s[1..];
        RewriteNoUrl(s[1..], open, close);
        var rest := RewriteNumbers(s[1..], open, close);
        assert r == [s[0]] + rest;
        forall j | 1 <= j < |r| ensures !UrlAt(r, j) {
          UrlAtAppend([s[0]], rest, j);
        }
      }
    }
  }

  /** With markup that cannot take part in a URL, a formatted paragraph has no URL. */
  lemma FormatNoUrl(text: string, open: string, close: string)
    requires SafeMarkup(open, close)
    ensures NoUrl(FormatParagraph(text, open, close))
  {
    StripUrlsCorrect(text);
    RewriteNoUrl(StripUrls(text), open, close);
    TrimNoUrl(RewriteNumbers(StripUrls(text), open, close));
  }

  /** With such markup, no shown line has a URL. */
  lemma VisibleLinesNoUrl(paragraphs: seq<string>, open: string, close: string)
    requires SafeMarkup(open, close)
    ensures forall k :: 0 <= k < |VisibleLines(paragraphs, open, close)| ==> NoUrl(VisibleLines(paragraphs, open, close)[k])
  {
    var r := VisibleLines(paragraphs, open, close);
    VisibleLinesFromParagraphs(paragraphs, open, close);
    forall k | 0 <= k < |r| ensures NoUrl(r[k]) {
      assert ComesFrom(r[k], paragraphs, open, close);
      var j :| 0 <= j < |paragraphs| && !MentionsYoutube(paragraphs[j]) && r[k] == FormatParagraph(paragraphs[j], open, close);
      FormatNoUrl(paragraphs[j], open, close);
    }
  }
}
