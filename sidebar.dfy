/**
 * The sidebar's split of an article title into the title to show and the
 * guest (`parseTitleAndGuest` in src/components/Sidebar.tsx).
 *
 * Each regular expression is written out as the search a backtracking
 * matcher performs: a lazy group tries the shortest text first and grows one
 * character at a time, a greedy run takes the longest run first and gives
 * characters back one at a time, `.` does not match a line terminator, and
 * `$` is the end of the string. The contracts of the searches state which
 * match the matcher finds: the first in that order.
 */
module Sidebar {
  import opened Wrappers
  import opened Text

  // ---------------------------------------------------------------------------
  // Searches shared by the patterns

  /** Some prefix of `s[..k]` with no line break: `.` matched every character in it. */
  lemma NoLineBreakExtends(s: string, g: nat, k: nat)
    requires g <= k < |s| && NoLineBreak(s[g..k]) && !IsLineTerminator(s[k])
    ensures NoLineBreak(s[g..k + 1])
  {
    var t := s[g..k + 1];
    forall m | 0 <= m < |t| ensures !IsLineTerminator(t[m]) {
      if m < k - g {
        assert t[m] == s[g..k][m];
      }
    }
  }

  /** Once a line terminator is in the way, no longer group avoids it. */
  lemma LineBreakBlocks(s: string, g: nat, a: nat, k: nat)
    requires g < a <= k <= |s| && IsLineTerminator(s[a - 1])
    ensures !NoLineBreak(s[g..k])
  {
    assert s[g..k][a - 1 - g] == s[a - 1];
  }

  /**
   * A lazy group `(.+?)` starting at `g`, followed by the rest of a pattern
   * that `p` decides at the group's end: the ends `a`, `a + 1`, ... are tried
   * in turn, and none past a line terminator.
   */
  function LazyEnd(s: string, g: nat, a: nat, p: nat -> bool): (r: Option<nat>)
    requires g < a && g <= |s| && (a - 1 <= |s| ==> NoLineBreak(s[g..a - 1]))
    ensures r.Some? ==> a <= r.value <= |s| && NoLineBreak(s[g..r.value]) && p(r.value)
    ensures r.Some? ==> forall k :: a <= k < r.value ==> !p(k)
    ensures r.None? ==> forall k :: a <= k <= |s| && NoLineBreak(s[g..k]) ==> !p(k)
    decreases |s| + 1 - a
  {
    if a > |s| then None
    else if IsLineTerminator(s[a - 1]) then
      assert forall k :: a <= k <= |s| ==> !NoLineBreak(s[g..k]) by {
        forall k | a <= k <= |s| ensures !NoLineBreak(s[g..k]) {
          LineBreakBlocks(s, g, a, k);
        }
      }
      None
    else
      NoLineBreakExtends(s, g, a - 1);
      if p(a) then Some(a) else LazyEnd(s, g, a + 1, p)
  }

  /** `(.+)$` matches from `q`: a non-empty rest without a line break. */
  predicate TailOk(s: string, q: int) {
    0 <= q < |s| && NoLineBreak(s[q..])
  }

  /**
   * A greedy run over `[lo, e)` followed by `(.+)$`: the longest run is tried
   * first, so the rest starts at the last position in `[lo, e]` from which
   * `(.+)$` matches.
   */
  function TailStart(s: string, lo: nat, e: nat): (r: Option<nat>)
    requires lo <= e <= |s|
    ensures r.Some? ==> lo <= r.value <= e && TailOk(s, r.value)
    ensures r.Some? ==> forall q :: r.value < q <= e ==> !TailOk(s, q)
    ensures r.None? ==> forall q :: lo <= q <= e ==> !TailOk(s, q)
  {
    var q := if e < |s| then e else |s| - 1;
    if lo <= q && TailOk(s, q) then Some(q)
    else
      assert forall k :: lo <= k <= e ==> !TailOk(s, k) by {
        forall k | lo <= k <= e && TailOk(s, k) ensures false {
          if lo <= q {
            NoLineBreakSuffix(s, k, q);
          }
        }
      }
      None
  }

  // ---------------------------------------------------------------------------
  // Pattern 1: ^(.+?)\s+[X×]\s+(.+)$

  predicate IsCross(c: char) {
    c == 'X' || c == '×'
  }

  /** With the guest group ending at `a`: spaces, a cross, spaces, and a one-line rest. */
  predicate CrossAt(s: string, a: nat) {
    && a <= |s|
    && var b := Span(s, a, IsSpace);
    && a < b < |s| && IsCross(s[b])
    && b + 2 <= Span(s, b + 1, IsSpace)
    && TailStart(s, b + 2, Span(s, b + 1, IsSpace)).Some?
  }

  /** Where the second group starts. */
  function CrossRest(s: string, a: nat): nat
    requires CrossAt(s, a)
  {
    var b := Span(s, a, IsSpace);
    TailStart(s, b + 2, Span(s, b + 1, IsSpace)).value
  }

  function CrossPred(s: string): nat -> bool {
    (a: nat) => CrossAt(s, a)
  }

  /** Where the matcher ends the lazy guest group of pattern 1: the first end the rest accepts. */
  function CrossEnd(s: string): (r: Option<nat>)
    ensures r.Some? ==> 1 <= r.value <= |s| && NoLineBreak(s[..r.value]) && CrossAt(s, r.value)
    ensures r.Some? ==> forall k :: 1 <= k < r.value ==> !CrossAt(s, k)
    ensures r.None? ==> forall k :: 1 <= k <= |s| && NoLineBreak(s[..k]) ==> !CrossAt(s, k)
  {
    var r := LazyEnd(s, 0, 1, CrossPred(s));
    assert forall k :: CrossPred(s)(k) == CrossAt(s, k);
    assert forall k :: 0 <= k <= |s| ==> s[0..k] == s[..k];
    r
  }

  /** `^.+?[：:]\s*(.+)$` with the lazy part ending at `a`. */
  predicate ColonThenAt(s: string, a: nat) {
    a < |s| && IsColon(s[a]) && TailStart(s, a + 1, Span(s, a + 1, IsSpace)).Some?
  }

  function ColonThenRest(s: string, a: nat): nat
    requires ColonThenAt(s, a)
  {
    TailStart(s, a + 1, Span(s, a + 1, IsSpace)).value
  }

  function ColonThenPred(s: string): nat -> bool {
    (a: nat) => ColonThenAt(s, a)
  }

  // ---------------------------------------------------------------------------
  // Pattern 2: ^(.+?)\s*[：:]\s*(.+)$, then ^(.+?)\s*访谈$ on the part before the colon

  /** With the first group ending at `a`: optional spaces, a colon, optional spaces, a one-line rest. */
  predicate ColonAt(s: string, a: nat) {
    && a <= |s|
    && var b := Span(s, a, IsSpace);
    && b < |s| && IsColon(s[b])
    && TailStart(s, b + 1, Span(s, b + 1, IsSpace)).Some?
  }

  function ColonRest(s: string, a: nat): nat
    requires ColonAt(s, a)
  {
    var b := Span(s, a, IsSpace);
    TailStart(s, b + 1, Span(s, b + 1, IsSpace)).value
  }

  function ColonPred(s: string): nat -> bool {
    (a: nat) => ColonAt(s, a)
  }

  /** Where the matcher ends the lazy first group of pattern 2: the first end the rest accepts. */
  function ColonEnd(s: string): (r: Option<nat>)
    ensures r.Some? ==> 1 <= r.value <= |s| && NoLineBreak(s[..r.value]) && ColonAt(s, r.value)
    ensures r.Some? ==> forall k :: 1 <= k < r.value ==> !ColonAt(s, k)
    ensures r.None? ==> forall k :: 1 <= k <= |s| && NoLineBreak(s[..k]) ==> !ColonAt(s, k)
  {
    var r := LazyEnd(s, 0, 1, ColonPred(s));
    assert forall k :: ColonPred(s)(k) == ColonAt(s, k);
    assert forall k :: 0 <= k <= |s| ==> s[0..k] == s[..k];
    r
  }

  const Interview: string := "访谈"

  /** After the group ending at `a`: optional spaces, then `访谈` and the end. */
  predicate InterviewAt(s: string, a: nat) {
    a <= |s| && s[Span(s, a, IsSpace)..] == Interview
  }

  function InterviewPred(s: string): nat -> bool {
    (a: nat) => InterviewAt(s, a)
  }

  // ---------------------------------------------------------------------------
  // Pattern 3: 的\s*(.+?)\s*访谈$, searched anywhere in the title

  /**
   * The last position in `(lo, g]`, trying `g` first and moving down, where
   * `find` succeeds: a greedy run giving characters back one at a time.
   */
  function LatestFrom(lo: nat, g: nat, find: nat -> Option<nat>): (r: Option<(nat, nat)>)
    requires lo < g
    ensures r.Some? ==> lo < r.value.0 <= g && find(r.value.0) == Some(r.value.1)
    ensures r.Some? ==> forall k :: r.value.0 < k <= g ==> find(k).None?
    ensures r.None? ==> forall k :: lo < k <= g ==> find(k).None?
    decreases g
  {
    if find(g).Some? then Some((g, find(g).value))
    else if g == lo + 1 then None
    else LatestFrom(lo, g - 1, find)
  }

  /** The first position in `[i, n)` where `f` succeeds: an unanchored pattern tried at each start in turn. */
  function FirstSome<T>(i: nat, n: nat, f: nat -> Option<T>): (r: Option<(nat, T)>)
    requires i <= n
    ensures r.Some? ==> i <= r.value.0 < n && f(r.value.0) == Some(r.value.1)
    ensures r.Some? ==> forall k :: i <= k < r.value.0 ==> f(k).None?
    ensures r.None? ==> forall k :: i <= k < n ==> f(k).None?
    decreases n - i
  {
    if i == n then None
    else if f(i).Some? then Some((i, f(i).value))
    else FirstSome(i + 1, n, f)
  }

  /** The lazy group `s[g..h]`, then optional spaces, `访谈` and the end. */
  predicate GroupAt(s: string, g: nat, h: nat) {
    g < h <= |s| && NoLineBreak(s[g..h]) && InterviewAt(s, h)
  }

  /** The shortest group from `g` that the rest of the pattern accepts. */
  function GroupEnd(s: string, g: nat): (r: Option<nat>)
    ensures r.Some? ==> GroupAt(s, g, r.value) && forall k :: g < k < r.value ==> !GroupAt(s, g, k)
    ensures r.None? ==> forall h :: !GroupAt(s, g, h)
  {
    if g <= |s| then
      var r := LazyEnd(s, g, g + 1, InterviewPred(s));
      assert forall k :: InterviewPred(s)(k) == InterviewAt(s, k);
      r
    else None
  }

  function GroupEndFn(s: string): nat -> Option<nat> {
    (g: nat) => GroupEnd(s, g)
  }

  /**
   * A match of the pattern with `的` at `p` and the group `s[g..h]`: the group
   * starts inside the run of spaces after `的` (or right after it).
   */
  predicate DeMatchAt(s: string, p: nat, g: nat, h: nat) {
    p < |s| && s[p] == '的' && p < g <= Span(s, p + 1, IsSpace) && GroupAt(s, g, h)
  }

  datatype DeMatch = DeMatch(start: nat, end: nat)

  /**
   * The match with `的` at `p` the matcher finds: the spaces after `的` are
   * given back one at a time, so the latest group start that works, and
   * there the shortest group.
   */
  function DeAt(s: string, p: nat): (r: Option<DeMatch>)
    ensures r.Some? ==> p < |s| && s[p] == '的' && p < r.value.start <= Span(s, p + 1, IsSpace)
    ensures r.Some? ==> GroupEnd(s, r.value.start) == Some(r.value.end)
    ensures r.Some? ==> forall g: nat :: r.value.start < g <= Span(s, p + 1, IsSpace) ==> GroupEnd(s, g).None?
    ensures r.None? && p < |s| && s[p] == '的' ==> forall g: nat :: p < g <= Span(s, p + 1, IsSpace) ==> GroupEnd(s, g).None?
  {
    if p < |s| && s[p] == '的' then
      var f := GroupEndFn(s);
      assert forall k: nat :: f(k) == GroupEnd(s, k);
      match LatestFrom(p, Span(s, p + 1, IsSpace), f)
      case Some(m) => Some(DeMatch(m.0, m.1))
      case None => None
    else None
  }

  /** What `DeAt` finds, in terms of matches. */
  lemma DeAtMatches(s: string, p: nat)
    ensures DeAt(s, p).Some? ==> DeMatchAt(s, p, DeAt(s, p).value.start, DeAt(s, p).value.end)
    ensures DeAt(s, p).Some? ==> forall g: nat, h: nat :: DeAt(s, p).value.start < g ==> !DeMatchAt(s, p, g, h)
    ensures DeAt(s, p).Some? ==> forall k: nat :: DeAt(s, p).value.start < k < DeAt(s, p).value.end ==> !DeMatchAt(s, p, DeAt(s, p).value.start, k)
    ensures DeAt(s, p).None? ==> forall g: nat, h: nat :: !DeMatchAt(s, p, g, h)
  {
    match DeAt(s, p)
    case Some(m) =>
      forall g: nat, h: nat | m.start < g ensures !DeMatchAt(s, p, g, h) {
        if g <= Span(s, p + 1, IsSpace) {
          assert GroupEnd(s, g).None?;
        }
      }
    case None =>
      forall g: nat, h: nat ensures !DeMatchAt(s, p, g, h) {
        if p < |s| && s[p] == '的' && p < g <= Span(s, p + 1, IsSpace) {
          assert GroupEnd(s, g).None?;
        }
      }
  }

  function DeAtFn(s: string): nat -> Option<DeMatch> {
    (p: nat) => DeAt(s, p)
  }

  /** The first `的` from which the pattern matches: the regular expression is not anchored. */
  function DeSearch(s: string): (r: Option<(nat, DeMatch)>)
    ensures r.Some? ==> r.value.0 < |s| && DeAt(s, r.value.0) == Some(r.value.1)
    ensures r.Some? ==> forall p: nat :: p < r.value.0 ==> DeAt(s, p).None?
    ensures r.None? ==> forall p: nat :: p < |s| ==> DeAt(s, p).None?
  {
    var f := DeAtFn(s);
    assert forall k: nat :: f(k) == DeAt(s, k);
    FirstSome(0, |s|, f)
  }

  /**
   * What `DeSearch` finds, in terms of matches: a match, with no match at an
   * earlier `的`, the latest group start there and the shortest group; and
   * nothing exactly when there is no match at all.
   */
  lemma DeSearchMatches(s: string)
    ensures DeSearch(s).Some? ==> DeMatchAt(s, DeSearch(s).value.0, DeSearch(s).value.1.start, DeSearch(s).value.1.end)
    ensures DeSearch(s).Some? ==> forall p: nat, g: nat, h: nat :: p < DeSearch(s).value.0 ==> !DeMatchAt(s, p, g, h)
    ensures DeSearch(s).Some? ==> forall g: nat, h: nat :: DeSearch(s).value.1.start < g ==> !DeMatchAt(s, DeSearch(s).value.0, g, h)
    ensures DeSearch(s).Some? ==> forall k: nat :: DeSearch(s).value.1.start < k < DeSearch(s).value.1.end ==> !DeMatchAt(s, DeSearch(s).value.0, DeSearch(s).value.1.start, k)
    ensures DeSearch(s).None? <==> forall p: nat, g: nat, h: nat :: !DeMatchAt(s, p, g, h)
  {
    match DeSearch(s)
    case Some(m) =>
      DeAtMatches(s, m.0);
      forall p: nat, g: nat, h: nat | p < m.0 ensures !DeMatchAt(s, p, g, h) {
        DeAtMatches(s, p);
      }
    case None =>
      forall p: nat, g: nat, h: nat ensures !DeMatchAt(s, p, g, h) {
        DeAtMatches(s, p);
        if p >= |s| {
          assert !(p < |s|);
        }
      }
  }

  // ---------------------------------------------------------------------------
  // The pipe cut: \s*\|.*$ removed

  /** `\s*\|.*$` matches at `p`: spaces, a bar, and a one-line rest. */
  predicate PipeAt(s: string, p: nat) {
    p <= |s| && var b := Span(s, p, IsSpace); b < |s| && s[b] == '|' && NoLineBreak(s[b + 1..])
  }

  /** The first position where the pattern matches, from `p` on. */
  function PipeSearch(s: string, p: nat): (r: Option<nat>)
    requires p <= |s|
    ensures r.Some? ==> p <= r.value < |s| && PipeAt(s, r.value)
    ensures r.Some? ==> forall k :: p <= k < r.value ==> !PipeAt(s, k)
    ensures r.None? ==> forall k :: p <= k <= |s| ==> !PipeAt(s, k)
    decreases |s| - p
  {
    if p == |s| then None
    else if PipeAt(s, p) then Some(p)
    else PipeSearch(s, p + 1)
  }

  /** `replace(/\s*\|.*$/, "")`: everything from the first match on is removed. */
  function PipeCut(s: string): (r: string)
    ensures StartsWith(s, r)
  {
    match PipeSearch(s, 0)
    case Some(p) => s[..p]
    case None => s
  }

  /** On a one-line title, the cut removes every `|`. */
  lemma PipeCutRemovesBars(s: string)
    requires NoLineBreak(s)
    ensures forall i :: 0 <= i < |PipeCut(s)| ==> PipeCut(s)[i] != '|'
  {
    var r := PipeCut(s);
    forall i | 0 <= i < |r| ensures r[i] != '|' {
      assert r[i] == s[i];
      if s[i] == '|' {
        BarStartsPipe(s, i);
      }
    }
  }

  /** On a one-line title, every `|` starts a match. */
  lemma BarStartsPipe(s: string, i: nat)
    requires NoLineBreak(s) && i < |s| && s[i] == '|'
    ensures PipeAt(s, i)
  {
    NoLineBreakSuffix(s, 0, i + 1);
    assert s[0..] == s;
  }

  /** Without a `|` the title is kept whole. */
  lemma PipeCutNoBar(s: string)
    requires forall i :: 0 <= i < |s| ==> s[i] != '|'
    ensures PipeCut(s) == s
  {
    forall k | 0 <= k <= |s| ensures !PipeAt(s, k) {
      var b := Span(s, k, IsSpace);
      assert b < |s| ==> s[b] != '|';
    }
  }

  /**
   * On a one-line title, the cut is at the start of the whitespace before
   * the first `|`: what is left is the text before that bar, less the
   * whitespace in front of it.
   */
  lemma PipeCutAtFirstBar(s: string, b: nat)
    requires NoLineBreak(s) && b < |s| && s[b] == '|'
    requires forall i :: 0 <= i < b ==> s[i] != '|'
    ensures PipeCut(s) == s[..SpanBack(s, 0, b, IsSpace)]
    ensures Trim(PipeCut(s)) == Trim(s[..b])
  {
    var p := SpanBack(s, 0, b, IsSpace);
    SpanIs(s, p, b, IsSpace);
    NoLineBreakSuffix(s, 0, b + 1);
    assert s[0..] == s;
    assert PipeAt(s, p);
    forall k | 0 <= k < p ensures !PipeAt(s, k) {
      var c := Span(s, k, IsSpace);
      assert !IsSpace(s[p - 1]);
      assert c <= p - 1;
    }
    match PipeSearch(s, 0) {
      case Some(q) =>
        assert q == p;
      case None =>
        assert false;
    }
    TrimDropsSpaceRun(s, p, b);
  }

  /** Dropping a run of whitespace at the end of a prefix does not change its trimmed text. */
  lemma TrimDropsSpaceRun(s: string, p: nat, b: nat)
    requires p <= b <= |s| && forall m :: p <= m < b ==> IsSpace(s[m])
    ensures Trim(s[..p]) == Trim(s[..b])
  {
    var cut := s[..p];
    var spaces := s[p..b];
    assert AllSpace(spaces) by {
      forall m | 0 <= m < |spaces| ensures IsSpace(spaces[m]) {
        assert spaces[m] == s[p + m];
      }
    }
    assert s[..b] == cut + spaces;
    TrimAppendSpaces(cut, spaces);
  }

  // ---------------------------------------------------------------------------
  // parseTitleAndGuest

  datatype TitleAndGuest = TitleAndGuest(displayTitle: string, guest: string)

  /** `title.replace(/^\d{4}/, "").trim()` */
  function Cleaned(title: string): (r: string)
    ensures Trimmed(r)
  {
    Trim(if |title| >= 4 && AllDigits(title[..4]) then title[4..] else title)
  }

  /** The guest and the article title before the pipe cut. */
  datatype Parts = Parts(guest: string, article: string)

  /** Pattern 1: the guest before the cross; the article title after it, after a colon if there is one. */
  function CrossParts(c: string, a: nat): Parts
    requires CrossAt(c, a)
  {
    Parts(Trim(c[..a]), AfterCross(Trim(c[CrossRest(c, a)..])))
  }

  /** `afterX.match(/^.+?[：:]\s*(.+)$/)`: the text after the first workable colon, else all of it. */
  function AfterCross(t: string): string {
    match LazyEnd(t, 0, 1, ColonThenPred(t))
    case Some(k) => Trim(t[ColonThenRest(t, k)..])
    case None => t
  }

  /** Pattern 2: the article title after the colon; a guest only when the part before ends in `访谈`. */
  function ColonParts(c: string, a: nat): Parts
    requires ColonAt(c, a)
  {
    Parts(InterviewGuest(Trim(c[..a])), Trim(c[ColonRest(c, a)..]))
  }

  /** `before.match(/^(.+?)\s*访谈$/)`: the text before a final `访谈`. */
  function InterviewGuest(before: string): (r: string)
    ensures Trimmed(r)
  {
    match LazyEnd(before, 0, 1, InterviewPred(before))
    case Some(v) => Trim(before[..v])
    case None => ""
  }

  /** Pattern 3: the text between `的` and a final `访谈`, if any. */
  function DeGuest(c: string): (r: string)
    ensures Trimmed(r)
  {
    match DeSearch(c)
    case Some(m) => Trim(c[m.1.start..m.1.end])
    case None => ""
  }

  /** The three patterns, tried in turn on the cleaned title. */
  function SplitParts(c: string): (r: Parts)
    ensures Trimmed(r.guest)
  {
    match CrossEnd(c)
    case Some(a) => CrossParts(c, a)
    case None =>
      match ColonEnd(c)
      case Some(a) => ColonParts(c, a)
      case None => Parts(DeGuest(c), c)
  }

  /** The article title after the pipe cut, or the cleaned title `c` when that leaves nothing. */
  function Display(c: string, article: string): string {
    var cut := Trim(PipeCut(article));
    if cut != [] then cut else c
  }

  /** parseTitleAndGuest */
  function ParseTitleAndGuest(title: string): (r: TitleAndGuest)
    ensures Trimmed(r.displayTitle) && Trimmed(r.guest)
    ensures r.displayTitle == [] <==> Cleaned(title) == []
  {
    var c := Cleaned(title);
    var parts := SplitParts(c);
    EmptyParts(c);
    TitleAndGuest(Display(c, parts.article), parts.guest)
  }

  /** An empty title gives no guest and an empty article title. */
  lemma EmptyParts(c: string)
    ensures c == [] ==> SplitParts(c) == Parts("", "")
  {
  }

  /** The trimmed rest of a one-line string is one line. */
  lemma TrimRestOneLine(s: string, q: nat)
    requires q <= |s| && NoLineBreak(s)
    ensures NoLineBreak(Trim(s[q..]))
  {
    NoLineBreakInfix(s, q, |s|);
    assert s[q..|s|] == s[q..];
    TrimNoLineBreak(s[q..]);
  }

  lemma AfterCrossOneLine(t: string)
    requires NoLineBreak(t)
    ensures NoLineBreak(AfterCross(t))
  {
    match LazyEnd(t, 0, 1, ColonThenPred(t)) {
      case Some(k) => TrimRestOneLine(t, ColonThenRest(t, k));
      case None =>
    }
  }

  /** Every article title the patterns produce from a one-line title is one line. */
  lemma ArticleOneLine(c: string)
    requires NoLineBreak(c)
    ensures NoLineBreak(SplitParts(c).article)
  {
    match CrossEnd(c) {
      case Some(a) =>
        TrimRestOneLine(c, CrossRest(c, a));
        AfterCrossOneLine(Trim(c[CrossRest(c, a)..]));
      case None =>
        match ColonEnd(c) {
          case Some(a) => TrimRestOneLine(c, ColonRest(c, a));
          case None =>
        }
    }
  }

  /**
   * On a one-line title, the title shown has no `|` unless it is the whole
   * cleaned title (the fallback when the cut leaves nothing).
   */
  lemma DisplayDropsPipe(title: string)
    requires NoLineBreak(Cleaned(title))
    ensures var d := ParseTitleAndGuest(title).displayTitle;
      d == Cleaned(title) || forall i :: 0 <= i < |d| ==> d[i] != '|'
  {
    var c := Cleaned(title);
    var article := SplitParts(c).article;
    ArticleOneLine(c);
    PipeCutRemovesBars(article);
    var cut := PipeCut(article);
    TrimIsInfix(cut);
  }

  /** A match of `\s*访谈$` at `a` means the string ends in `访谈`. */
  lemma InterviewEnds(s: string, a: nat)
    requires InterviewAt(s, a)
    ensures EndsWith(s, Interview)
  {
    var b := Span(s, a, IsSpace);
    assert |s| - |Interview| == b;
  }

  /** In the colon form, a guest is set only when the part before the colon ends in `访谈`. */
  lemma InterviewGuestEnds(before: string)
    ensures InterviewGuest(before) != [] ==> EndsWith(before, Interview)
  {
    match LazyEnd(before, 0, 1, InterviewPred(before)) {
      case Some(v) =>
        assert InterviewPred(before)(v);
        InterviewEnds(before, v);
      case None =>
    }
  }

  /** In the form without a colon, a guest is set only when the title has a `的` and ends in `访谈`. */
  lemma DeGuestShape(c: string)
    ensures DeGuest(c) != [] ==> EndsWith(c, Interview) && exists p :: 0 <= p < |c| && c[p] == '的'
  {
    DeSearchMatches(c);
    match DeSearch(c) {
      case Some(m) => InterviewEnds(c, m.1.end);
      case None =>
    }
  }

  /**
   * With neither a cross nor a colon: the article title is the whole cleaned
   * title; a guest is the text between `的` and a final `访谈` when some `的`
   * starts a match, and there is none when no `的` does.
   */
  lemma NoColonCase(title: string)
    requires CrossEnd(Cleaned(title)).None? && ColonEnd(Cleaned(title)).None?
    ensures var c := Cleaned(title);
      ParseTitleAndGuest(title) == TitleAndGuest(Display(c, c), DeGuest(c))
    ensures var c := Cleaned(title);
      (forall p: nat, g: nat, h: nat :: !DeMatchAt(c, p, g, h)) ==> ParseTitleAndGuest(title).guest == []
  {
    DeSearchMatches(Cleaned(title));
  }
}
