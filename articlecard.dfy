/**
 * The article body of src/components/ArticleCard.tsx: the intro paragraphs
 * shown with bold item numbers, and the highlights grouped into titled blocks.
 * Rendering to HTML is not modelled; what is modelled is the list of lines
 * (and blocks) the components hand to the renderer.
 */
module ArticleCard {
  import opened Text
  import opened Lists
  import opened Markup

  const StrongOpen: string := "<strong>"
  const StrongClose: string := "</strong>"

  /** The lines IntroSection shows: item numbers in bold. */
  function IntroLines(paragraphs: seq<string>): (r: seq<string>)
    ensures |r| <= |paragraphs|
    ensures forall k :: 0 <= k < |r| ==> ShowableLine(r[k])
    ensures forall k :: 0 <= k < |r| ==> ComesFrom(r[k], paragraphs, StrongOpen, StrongClose)
    ensures forall k :: 0 <= k < |r| ==> NoUrl(r[k])
    ensures forall j :: 0 <= j < |paragraphs| && !MentionsYoutube(paragraphs[j]) && FormatParagraph(paragraphs[j], StrongOpen, StrongClose) != []
              ==> FormatParagraph(paragraphs[j], StrongOpen, StrongClose) in r
  {
    VisibleLinesFromParagraphs(paragraphs, StrongOpen, StrongClose);
    VisibleLinesNoUrl(paragraphs, StrongOpen, StrongClose);
    VisibleLinesKeeps(paragraphs, StrongOpen, StrongClose);
    VisibleLines(paragraphs, StrongOpen, StrongClose)
  }

  // ---------------------------------------------------------------------------
  // Highlights

  /** A block of highlights: a title (possibly empty) and its lines. */
  datatype HBlock = HBlock(title: string, lines: seq<string>)

  const HostLabel: string := "主持人"
  const GuestLabel: string := "嘉宾"
  const EditorLabel: string := "编辑补充"
  const SpanStart: string := "<span class=\""
  const SpeakerOpen: string := SpanStart + "font-[family-name:var(--font-ui)] font-semibold text-[13px] text-[#222]\">"
  const NoteOpen: string := SpanStart + "italic text-[#999] text-[13.5px]\">"
  const SpanClose: string := "</span>"

  /** `^tag[：:]` matches. */
  predicate LabelAt(s: string, tag: string) {
    StartsWith(s, tag) && |tag| < |s| && IsColon(s[|tag|])
  }

  /** The replacement of `^(tag)[：:]\s*` by `open + tag + "：" + "</span>"`. */
  function Relabel(s: string, tag: string, open: string): string
    requires LabelAt(s, tag)
  {
    open + tag + "：" + SpanClose + s[Span(s, |tag| + 1, IsSpace)..]
  }

  /** `^(主持人|嘉宾)[：:]\s*` replaced by the speaker markup; the alternatives are tried in order. */
  function MarkSpeaker(s: string): string {
    if LabelAt(s, HostLabel) then Relabel(s, HostLabel, SpeakerOpen)
    else if LabelAt(s, GuestLabel) then Relabel(s, GuestLabel, SpeakerOpen)
    else s
  }

  /** `^(编辑补充)[：:]\s*` replaced by the editor's-note markup. */
  function MarkNote(s: string): string {
    if LabelAt(s, EditorLabel) then Relabel(s, EditorLabel, NoteOpen) else s
  }

  /** A highlight line: labels marked up, URLs removed, the result trimmed. */
  function FormatHighlight(text: string): (r: string)
    ensures Trimmed(r) && NoUrl(r)
  {
    var u := StripUrls(MarkNote(MarkSpeaker(text)));
    StripUrlsCorrect(MarkNote(MarkSpeaker(text)));
    TrimNoUrl(u);
    Trim(u)
  }

  /** `text.replace(/^#\d+\s*\/, "")`: a `#` and a number, and the spaces after them, are removed. */
  function HeadingTitle(text: string): string {
    if 2 <= |text| && text[0] == '#' && IsDigit(text[1]) then
      text[Span(text, Span(text, 1, IsDigit), IsSpace)..]
    else text
  }

  /** `#`, a number and spaces are removed from a heading, leaving the text after them. */
  lemma HeadingTitleStrips(digits: string, spaces: string, rest: string)
    requires digits != [] && AllDigits(digits) && AllSpace(spaces)
    requires rest == [] || (!IsSpace(rest[0]) && (spaces != [] || !IsDigit(rest[0])))
    ensures HeadingTitle("#" + digits + spaces + rest) == rest
  {
    var t := "#" + digits + spaces + rest;
    var d := 1 + |digits|;
    assert t[1] == digits[0];
    assert forall k :: 1 <= k < d ==> t[k] == digits[k - 1];
    assert d < |t| ==> t[d] == (spaces + rest)[0];
    SpanIs(t, 1, d, IsDigit);
    assert forall k :: d <= k < d + |spaces| ==> t[k] == spaces[k - d];
    SpanIs(t, d, d + |spaces|, IsSpace);
    assert t[d + |spaces|..] == rest;
  }

  /** A heading without a number after the `#` is its own title. */
  lemma HeadingTitleUnnumbered(text: string)
    requires IsBlockHeading(text) && (|text| == 1 || !IsDigit(text[1]))
    ensures HeadingTitle(text) == text
  {
  }

  /** A label, a colon and the spaces after it are replaced; the rest is kept. */
  lemma RelabelSkipsSpaces(tag: string, colon: char, spaces: string, rest: string, open: string)
    requires IsColon(colon) && AllSpace(spaces) && (rest == [] || !IsSpace(rest[0]))
    ensures LabelAt(tag + [colon] + spaces + rest, tag)
    ensures Relabel(tag + [colon] + spaces + rest, tag, open) == open + tag + "：" + SpanClose + rest
  {
    var s := tag + [colon] + spaces + rest;
    var n := |tag| + 1;
    assert s[..|tag|] == tag && s[|tag|] == colon;
    assert forall k :: n <= k < n + |spaces| ==> s[k] == spaces[k - n];
    assert n + |spaces| < |s| ==> s[n + |spaces|] == rest[0];
    SpanIs(s, n, n + |spaces|, IsSpace);
    assert s[n + |spaces|..] == rest;
  }

  /** A speaker label and the colon and spaces after it become the speaker markup with a full-width colon. */
  lemma SpeakerLabelled(tag: string, colon: char, spaces: string, rest: string)
    requires tag == HostLabel || tag == GuestLabel
    requires IsColon(colon) && AllSpace(spaces) && (rest == [] || !IsSpace(rest[0]))
    ensures MarkSpeaker(tag + [colon] + spaces + rest) == SpeakerOpen + tag + "：" + SpanClose + rest
  {
    var s := tag + [colon] + spaces + rest;
    RelabelSkipsSpaces(tag, colon, spaces, rest, SpeakerOpen);
    if tag == GuestLabel {
      assert !StartsWith(s, HostLabel) by {
        assert s[0] == tag[0] != HostLabel[0];
      }
    }
  }

  /** The editor's-note label and the colon and spaces after it become the note markup. */
  lemma NoteLabelled(colon: char, spaces: string, rest: string)
    requires IsColon(colon) && AllSpace(spaces) && (rest == [] || !IsSpace(rest[0]))
    ensures MarkNote(EditorLabel + [colon] + spaces + rest) == NoteOpen + EditorLabel + "：" + SpanClose + rest
  {
    RelabelSkipsSpaces(EditorLabel, colon, spaces, rest, NoteOpen);
  }

  /** Markup starts with `<`, so the note pattern cannot apply after a speaker label: a line carries at most one label. */
  lemma OneLabel(x: string)
    ensures MarkNote(SpeakerOpen + x) == SpeakerOpen + x
  {
    var r := SpeakerOpen + x;
    assert r[0] == SpanStart[0] == '<';
    assert r[..|EditorLabel|][0] == r[0];
  }

  /** A paragraph starting with `#` opens a block. */
  predicate IsBlockHeading(text: string) {
    StartsWith(text, "#")
  }

  /** A block is kept when it has a line or a title. */
  predicate Kept(b: HBlock) {
    |b.lines| > 0 || b.title != []
  }

  /** `if (current.lines.length || current.title) blocks.push(current)` */
  function Push(done: seq<HBlock>, current: HBlock): seq<HBlock> {
    if Kept(current) then done + [current] else done
  }

  /** The loop state: the finished blocks and the one being filled. */
  datatype HState = HState(done: seq<HBlock>, current: HBlock)

  const HStart: HState := HState([], HBlock("", []))

  /** One iteration of the loop over the highlight paragraphs. */
  function HStep(st: HState, text: string): HState {
    if MentionsYoutube(text) then st
    else if IsBlockHeading(text) then HState(Push(st.done, st.current), HBlock(HeadingTitle(text), []))
    else
      var line := FormatHighlight(text);
      if line == [] then st
      else HState(st.done, HBlock(st.current.title, st.current.lines + [line]))
  }

  function HRun(paragraphs: seq<string>): HState {
    if paragraphs == [] then HStart
    else HStep(HRun(paragraphs[..|paragraphs| - 1]), paragraphs[|paragraphs| - 1])
  }

  /** The blocks HighlightsSection renders: the loop, then the final push. */
  function Highlights(paragraphs: seq<string>): seq<HBlock> {
    var st := HRun(paragraphs);
    Push(st.done, st.current)
  }

  /**
   * HighlightsSection, as the source writes it: one pass that pushes the
   * current block at each heading and appends each formatted line to it.
   */
  method HighlightsSection(paragraphs: seq<string>) returns (blocks: seq<HBlock>)
    ensures blocks == Highlights(paragraphs)
    ensures forall i :: 0 <= i < |blocks| ==> Kept(blocks[i])
    ensures forall i, j :: 0 <= i < |blocks| && 0 <= j < |blocks[i].lines| ==> LineOk(blocks[i].lines[j])
    ensures AllLines(blocks) == FlatMap(HighlightLineFn(), paragraphs)
    ensures forall i :: 0 <= i < |blocks| ==> TitleFrom(blocks[i].title, paragraphs)
  {
    blocks := [];
    var current := HBlock("", []);
    for i := 0 to |paragraphs|
      invariant HState(blocks, current) == HRun(paragraphs[..i])
    {
      var text := paragraphs[i];
      assert paragraphs[..i + 1][..i] == paragraphs[..i];
      if Contains(text, "YouTube 链接") || Contains(text, "youtube.com") || Contains(text, "youtu.be") {
        continue;
      }
      if StartsWith(text, "#") {
        if |current.lines| > 0 || current.title != [] {
          blocks := blocks + [current];
        }
        current := HBlock(HeadingTitle(text), []);
        continue;
      }
      var formatted := text;
      formatted := MarkSpeaker(formatted);
      formatted := MarkNote(formatted);
      formatted := Trim(StripUrls(formatted));
      if formatted == [] {
        continue;
      }
      current := HBlock(current.title, current.lines + [formatted]);
    }
    assert paragraphs[..|paragraphs|] == paragraphs;
    if |current.lines| > 0 || current.title != [] {
      blocks := blocks + [current];
    }
    HighlightsCorrect(paragraphs);
  }

  // ---------------------------------------------------------------------------
  // Reference definitions and the invariants of the loop

  /** A line as the highlights show it: not empty, trimmed, and without a URL. */
  predicate LineOk(line: string) {
    ShowableLine(line) && NoUrl(line)
  }

  /** The line one paragraph contributes, independently of the blocks. */
  function HighlightLine(t: string): (r: seq<string>)
    ensures |r| <= 1
  {
    if MentionsYoutube(t) || IsBlockHeading(t) then []
    else
      var line := FormatHighlight(t);
      if line == [] then [] else [line]
  }

  function HighlightLineFn(): string -> seq<string> {
    t => HighlightLine(t)
  }

  /** The lines of all blocks, in order. */
  function AllLines(blocks: seq<HBlock>): seq<string> {
    if blocks == [] then [] else AllLines(blocks[..|blocks| - 1]) + blocks[|blocks| - 1].lines
  }

  /** A block title is empty or the title of a heading paragraph. */
  predicate TitleFrom(title: string, paragraphs: seq<string>) {
    title == [] || exists j :: 0 <= j < |paragraphs| && !MentionsYoutube(paragraphs[j])
                              && IsBlockHeading(paragraphs[j]) && HeadingTitle(paragraphs[j]) == title
  }

  predicate ShapeInv(st: HState) {
    && (forall i :: 0 <= i < |st.done| ==> Kept(st.done[i]))
    && (forall i, j :: 0 <= i < |st.done| && 0 <= j < |st.done[i].lines| ==> LineOk(st.done[i].lines[j]))
    && (forall j :: 0 <= j < |st.current.lines| ==> LineOk(st.current.lines[j]))
  }

  predicate LinesInv(st: HState, paragraphs: seq<string>) {
    AllLines(st.done) + st.current.lines == FlatMap(HighlightLineFn(), paragraphs)
  }

  predicate TitleInv(st: HState, paragraphs: seq<string>) {
    && (forall i :: 0 <= i < |st.done| ==> TitleFrom(st.done[i].title, paragraphs))
    && TitleFrom(st.current.title, paragraphs)
  }

  lemma PushShape(done: seq<HBlock>, current: HBlock)
    requires forall i :: 0 <= i < |done| ==> Kept(done[i])
    requires forall i, j :: 0 <= i < |done| && 0 <= j < |done[i].lines| ==> LineOk(done[i].lines[j])
    requires forall j :: 0 <= j < |current.lines| ==> LineOk(current.lines[j])
    ensures var ds := Push(done, current);
      && (forall i :: 0 <= i < |ds| ==> Kept(ds[i]))
      && (forall i, j :: 0 <= i < |ds| && 0 <= j < |ds[i].lines| ==> LineOk(ds[i].lines[j]))
  {
    if Kept(current) {
      var ds := done + [current];
      assert forall i :: 0 <= i < |done| ==> ds[i] == done[i];
    }
  }

  lemma AppendLineOk(lines: seq<string>, line: string)
    requires forall j :: 0 <= j < |lines| ==> LineOk(lines[j])
    requires LineOk(line)
    ensures forall j :: 0 <= j < |lines + [line]| ==> LineOk((lines + [line])[j])
  {
    var ls := lines + [line];
    forall j | 0 <= j < |ls| ensures LineOk(ls[j]) {
      if j < |lines| {
        assert ls[j] == lines[j];
      }
    }
  }

  lemma ShapeStep(st: HState, text: string)
    requires ShapeInv(st)
    ensures ShapeInv(HStep(st, text))
  {
    if !MentionsYoutube(text) {
      if IsBlockHeading(text) {
        PushShape(st.done, st.current);
      } else {
        var line := FormatHighlight(text);
        if line != [] {
          AppendLineOk(st.current.lines, line);
        }
      }
    }
  }

  lemma AllLinesPush(done: seq<HBlock>, current: HBlock)
    ensures AllLines(Push(done, current)) == AllLines(done) + (if Kept(current) then current.lines else [])
  {
    if Kept(current) {
      assert (done + [current])[..|done|] == done;
    }
  }

  lemma LinesStep(st: HState, paragraphs: seq<string>, text: string)
    requires LinesInv(st, paragraphs)
    ensures LinesInv(HStep(st, text), paragraphs + [text])
  {
    var f := HighlightLineFn();
    FlatMapStep(f, paragraphs, text);
    if !MentionsYoutube(text) {
      if IsBlockHeading(text) {
        AllLinesPush(st.done, st.current);
      } else {
        var line := FormatHighlight(text);
        if line != [] {
          assert AllLines(st.done) + (st.current.lines + [line]) == (AllLines(st.done) + st.current.lines) + [line];
        }
      }
    }
  }

  lemma TitleFromExtends(title: string, paragraphs: seq<string>, text: string)
    requires TitleFrom(title, paragraphs)
    ensures TitleFrom(title, paragraphs + [text])
  {
    if title != [] {
      var j :| 0 <= j < |paragraphs| && !MentionsYoutube(paragraphs[j])
               && IsBlockHeading(paragraphs[j]) && HeadingTitle(paragraphs[j]) == title;
      assert (paragraphs + [text])[j] == paragraphs[j];
    }
  }

  lemma TitleStep(st: HState, paragraphs: seq<string>, text: string)
    requires TitleInv(st, paragraphs)
    ensures TitleInv(HStep(st, text), paragraphs + [text])
  {
    var ps := paragraphs + [text];
    forall t | TitleFrom(t, paragraphs) ensures TitleFrom(t, ps) {
      TitleFromExtends(t, paragraphs, text);
    }
    if !MentionsYoutube(text) && IsBlockHeading(text) {
      assert ps[|paragraphs|] == text;
      var ds := Push(st.done, st.current);
      assert forall i :: 0 <= i < |st.done| ==> ds[i] == st.done[i];
    }
  }

  lemma {:induction false} RunInvariants(paragraphs: seq<string>)
    ensures ShapeInv(HRun(paragraphs))
    ensures LinesInv(HRun(paragraphs), paragraphs)
    ensures TitleInv(HRun(paragraphs), paragraphs)
  {
    if paragraphs != [] {
      var init, last := paragraphs[..|paragraphs| - 1], paragraphs[|paragraphs| - 1];
      RunInvariants(init);
      SplitLast(paragraphs);
      ShapeStep(HRun(init), last);
      LinesStep(HRun(init), init, last);
      TitleStep(HRun(init), init, last);
    }
  }

  /**
   * The rendered blocks: none is empty, every line is non-empty, trimmed and
   * free of URLs, the lines read in order are exactly the lines the paragraphs
   * contribute one by one, and every title comes from a heading paragraph.
   */
  lemma HighlightsCorrect(paragraphs: seq<string>)
    ensures var blocks := Highlights(paragraphs);
      && (forall i :: 0 <= i < |blocks| ==> Kept(blocks[i]))
      && (forall i, j :: 0 <= i < |blocks| && 0 <= j < |blocks[i].lines| ==> LineOk(blocks[i].lines[j]))
      && AllLines(blocks) == FlatMap(HighlightLineFn(), paragraphs)
      && (forall i :: 0 <= i < |blocks| ==> TitleFrom(blocks[i].title, paragraphs))
  {
    var st := HRun(paragraphs);
    RunInvariants(paragraphs);
    PushShape(st.done, st.current);
    AllLinesPush(st.done, st.current);
    var ds := Push(st.done, st.current);
    assert forall i :: 0 <= i < |st.done| ==> ds[i] == st.done[i];
  }

  // ---------------------------------------------------------------------------
  // How the paragraphs are grouped into blocks

  /** No paragraph of `ps` opens a block: each points at the video or is not a heading. */
  predicate NoHeading(ps: seq<string>) {
    forall j :: 0 <= j < |ps| ==> MentionsYoutube(ps[j]) || !IsBlockHeading(ps[j])
  }

  lemma RunStep(ps: seq<string>, text: string)
    ensures HRun(ps + [text]) == HStep(HRun(ps), text)
  {
    assert (ps + [text])[..|ps|] == ps;
  }

  lemma StepBoth(a: seq<string>, b: seq<string>, text: string)
    requires HRun(a) == HRun(b)
    ensures HRun(a + [text]) == HRun(b + [text])
  {
    RunStep(a, text);
    RunStep(b, text);
  }

  /** The loop state after more paragraphs depends only on the state before them. */
  lemma {:induction false} RunFrom(a: seq<string>, b: seq<string>, c: seq<string>)
    requires HRun(a) == HRun(b)
    ensures HRun(a + c) == HRun(b + c)
  {
    if c != [] {
      var init, last := c[..|c| - 1], c[|c| - 1];
      RunFrom(a, b, init);
      SplitLast(c);
      AppendAssoc(a, init, [last]);
      AppendAssoc(b, init, [last]);
      StepBoth(a + init, b + init, last);
    } else {
      assert a + c == a && b + c == b;
    }
  }

  /** A paragraph pointing at the video changes nothing: the blocks are those without it. */
  lemma SkipsVideoParagraph(pre: seq<string>, video: string, post: seq<string>)
    requires MentionsYoutube(video)
    ensures Highlights(pre + [video] + post) == Highlights(pre + post)
  {
    RunStep(pre, video);
    RunFrom(pre + [video], pre, post);
  }

  /**
   * Paragraphs that open no block add their lines, in order, to the block
   * being filled; the finished blocks and the current title stay.
   */
  lemma {:induction false} LinesJoinBlock(pre: seq<string>, ls: seq<string>)
    requires NoHeading(ls)
    ensures HRun(pre + ls).done == HRun(pre).done
    ensures HRun(pre + ls).current
         == HBlock(HRun(pre).current.title, HRun(pre).current.lines + FlatMap(HighlightLineFn(), ls))
  {
    var f := HighlightLineFn();
    if ls == [] {
      assert pre + ls == pre;
    } else {
      var init, last := ls[..|ls| - 1], ls[|ls| - 1];
      assert NoHeading(init) by {
        forall j | 0 <= j < |init| ensures MentionsYoutube(init[j]) || !IsBlockHeading(init[j]) {
          assert init[j] == ls[j];
        }
      }
      LinesJoinBlock(pre, init);
      SplitLast(ls);
      assert pre + ls == (pre + init) + [last];
      RunStep(pre + init, last);
      FlatMapStep(f, init, last);
      var lines, added := HRun(pre).current.lines, FlatMap(f, init);
      AppendAssoc(lines, added, f(last));
    }
  }

  /** Without a heading, all lines form one untitled block, shown when it has a line. */
  lemma NoHeadingOneBlock(ls: seq<string>)
    requires NoHeading(ls)
    ensures Highlights(ls) == Push([], HBlock("", FlatMap(HighlightLineFn(), ls)))
  {
    var lines := FlatMap(HighlightLineFn(), ls);
    LinesJoinBlock([], ls);
    assert [] + ls == ls;
    assert HRun([]) == HStart;
    assert HRun(ls).done == [] && HRun(ls).current == HBlock("", [] + lines);
    assert [] + lines == lines;
  }

  /**
   * A heading closes the block being filled (kept when it has a line or a
   * title) and opens one titled by the heading, which takes the lines of
   * the paragraphs after it up to the next heading.
   */
  lemma HeadingOpensBlock(pre: seq<string>, heading: string, ls: seq<string>)
    requires IsBlockHeading(heading) && !MentionsYoutube(heading) && NoHeading(ls)
    ensures HRun(pre + [heading] + ls).done == Push(HRun(pre).done, HRun(pre).current)
    ensures Highlights(pre + [heading] + ls)
         == Push(Push(HRun(pre).done, HRun(pre).current), HBlock(HeadingTitle(heading), FlatMap(HighlightLineFn(), ls)))
  {
    RunStep(pre, heading);
    LinesJoinBlock(pre + [heading], ls);
    assert [] + FlatMap(HighlightLineFn(), ls) == FlatMap(HighlightLineFn(), ls);
  }
}
