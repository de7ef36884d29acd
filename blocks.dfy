/**
 * The document-block normaliser: `extractTextFromElements` and `blocksToContent`
 * in src/lib/feishu.ts, and their originals `extract_text_from_elements` and
 * `blocks_to_content` in build.py (the same algorithm, line for line).
 *
 * A document is a flat sequence of typed blocks. The normaliser walks it once,
 * keeping a current section; headings (types 3 and 4) and `---` paragraphs close
 * the current section, paragraph kinds (2, 5, 12, 13) append their non-blank text
 * to it, and every other type is skipped.
 */
module Blocks {
  import opened Wrappers
  import opened Text
  import opened Lists
  import YouTube

  datatype TextRun = TextRun(content: string)

  /** A rich-text element; only its optional text run is read. */
  datatype Element = Element(textRun: Option<TextRun>)

  /** A raw document block: its numeric type and the payload fields the normaliser reads. */
  datatype Block = Block(
    blockType: int,
    text: Option<seq<Element>>,
    heading1: Option<seq<Element>>,
    heading2: Option<seq<Element>>,
    heading3: Option<seq<Element>>,
    bullet: Option<seq<Element>>,
    ordered: Option<seq<Element>>)

  datatype Section = Section(title: string, paragraphs: seq<string>)

  /** What `blocksToContent` returns. */
  datatype Content = Content(fullText: string, youtubeId: Option<string>, sections: seq<Section>)

  const BulletPrefix: string := "• "
  const SectionBreak: string := "---"

  // ---------------------------------------------------------------------------
  // Text of one block

  /** `el.text_run?.content || ""` */
  function RunText(el: Element): string {
    match el.textRun
    case Some(run) => run.content
    case None => ""
  }

  function RunTexts(elements: seq<Element>): (r: seq<string>)
    ensures |r| == |elements|
    ensures forall i :: 0 <= i < |elements| ==> r[i] == RunText(elements[i])
  {
    seq(|elements|, i requires 0 <= i < |elements| => RunText(elements[i]))
  }

  /** `.filter(Boolean)` on strings: drops the empty ones, keeps the order. */
  function NonEmpty(parts: seq<string>): (r: seq<string>)
    ensures forall i :: 0 <= i < |r| ==> r[i] != []
  {
    if parts == [] then []
    else NonEmpty(parts[..|parts| - 1]) + (if parts[|parts| - 1] != [] then [parts[|parts| - 1]] else [])
  }

  lemma ConcatAppend(parts: seq<string>, p: string)
    ensures Concat(parts + [p]) == Concat(parts) + p
  {
    if parts != [] {
      assert (parts + [p])[1..] == parts[1..] + [p];
      ConcatAppend(parts[1..], p);
    }
  }

  lemma {:induction false} ConcatNonEmpty(parts: seq<string>)
    ensures Concat(NonEmpty(parts)) == Concat(parts)
  {
    if parts != [] {
      var init, last := parts[..|parts| - 1], parts[|parts| - 1];
      assert parts == init + [last];
      ConcatNonEmpty(init);
      ConcatAppend(init, last);
      if last != [] {
        ConcatAppend(NonEmpty(init), last);
      } else {
        assert NonEmpty(parts) == NonEmpty(init);
      }
    }
  }

  /**
   * extractTextFromElements: the text runs' contents, in order, with a missing
   * run contributing nothing; dropping the empty contents before joining does
   * not change the result.
   */
  function ExtractText(elements: seq<Element>): string {
    Concat(NonEmpty(RunTexts(elements)))
  }

  /** Dropping the empty contents before joining changes nothing: every run's content, in order. */
  lemma ExtractTextJoinsAll(elements: seq<Element>)
    ensures ExtractText(elements) == Concat(RunTexts(elements))
  {
    ConcatNonEmpty(RunTexts(elements));
  }

  /**
   * extract_text_from_elements (build.py): the same text, built by a loop that
   * appends each non-empty content to a list of parts.
   */
  method CollectText(elements: seq<Element>) returns (r: string)
    ensures r == ExtractText(elements)
  {
    var parts: seq<string> := [];
    for i := 0 to |elements|
      invariant parts == NonEmpty(RunTexts(elements[..i]))
    {
      var content := match elements[i].textRun case Some(run) => run.content case None => "";
      assert RunTexts(elements[..i + 1]) == RunTexts(elements[..i]) + [content];
      if content != [] {
        parts := parts + [content];
      }
    }
    assert elements[..|elements|] == elements;
    r := Concat(parts);
  }

  predicate IsHeading(bt: int) {
    bt == 3 || bt == 4
  }

  /** Text, heading 3, bullet and ordered-list blocks. */
  predicate IsParagraphKind(bt: int) {
    bt == 2 || bt == 5 || bt == 12 || bt == 13
  }

  /** The payload field a block of this type is read from (`... || []`). */
  function Payload(b: Block): seq<Element> {
    var field :=
      if b.blockType == 2 then b.text
      else if b.blockType == 3 then b.heading1
      else if b.blockType == 4 then b.heading2
      else if b.blockType == 5 then b.heading3
      else if b.blockType == 12 then b.bullet
      else if b.blockType == 13 then b.ordered
      else None;
    field.GetOr([])
  }

  /** The text of a heading or paragraph block; bullets get the `• ` prefix. */
  function BlockText(b: Block): string {
    if b.blockType == 12 then BulletPrefix + ExtractText(Payload(b)) else ExtractText(Payload(b))
  }

  /** A paragraph block whose trimmed text is the manual section break. */
  predicate IsBreak(b: Block) {
    IsParagraphKind(b.blockType) && Trim(BlockText(b)) == SectionBreak
  }

  /** A paragraph block whose text becomes a paragraph. */
  predicate Accepts(b: Block) {
    IsParagraphKind(b.blockType) && Trim(BlockText(b)) != SectionBreak && Trim(BlockText(b)) != []
  }

  /** A paragraph as the normaliser may emit it. */
  predicate GoodParagraph(p: string) {
    Trim(p) != [] && Trim(p) != SectionBreak
  }

  predicate WellFormed(s: Section) {
    |s.paragraphs| > 0 && forall i :: 0 <= i < |s.paragraphs| ==> GoodParagraph(s.paragraphs[i])
  }

  // ---------------------------------------------------------------------------
  // The walk, as a function of the blocks seen so far

  /** The loop state of `blocksToContent`. */
  datatype Walk = Walk(fullText: string, youtubeId: Option<string>, done: seq<Section>, current: Section)

  const Start: Walk := Walk("", None, [], Section("", []))

  /** Push the current section, unless it has no paragraph. */
  function Flush(done: seq<Section>, current: Section): seq<Section> {
    if |current.paragraphs| > 0 then done + [current] else done
  }

  /** What one block does to the walk. */
  datatype Action = Open(title: string) | Append(text: string) | Skip

  /**
   * Headings open a section titled with their text, a `---` paragraph opens an
   * untitled one, a non-blank paragraph is appended, and anything else is skipped.
   */
  function ActionOf(b: Block): Action {
    if IsHeading(b.blockType) then Open(BlockText(b))
    else if IsBreak(b) then Open("")
    else if Accepts(b) then Append(BlockText(b))
    else Skip
  }

  /** One iteration of the loop. */
  function Step(w: Walk, b: Block): Walk {
    match ActionOf(b)
    case Open(t) => Walk(w.fullText, w.youtubeId, Flush(w.done, w.current), Section(t, []))
    case Append(text) =>
      Walk(w.fullText + text + "\n",
           if w.youtubeId.Some? then w.youtubeId else YouTube.ExtractYoutubeId(text),
           w.done,
           Section(w.current.title, w.current.paragraphs + [text]))
    case Skip => w
  }

  function Run(w: Walk, blocks: seq<Block>): Walk {
    if blocks == [] then w else Step(Run(w, blocks[..|blocks| - 1]), blocks[|blocks| - 1])
  }

  /** blocksToContent as a function: run the loop, then flush the last section. */
  function Normalize(blocks: seq<Block>): Content {
    var w := Run(Start, blocks);
    Content(w.fullText, w.youtubeId, Flush(w.done, w.current))
  }

  /**
   * blocksToContent, as the source writes it: one pass over the blocks that
   * updates `fullText`, `youtubeId`, `sections` and the current section.
   */
  method BlocksToContent(blocks: seq<Block>) returns (fullText: string, youtubeId: Option<string>, sections: seq<Section>)
    ensures Content(fullText, youtubeId, sections) == Normalize(blocks)
    ensures Paragraphs(sections) == AcceptedTexts(blocks)
    ensures fullText == Lines(AcceptedTexts(blocks))
    ensures IsFirstId(AcceptedTexts(blocks), youtubeId)
    ensures forall i :: 0 <= i < |sections| ==> WellFormed(sections[i])
  {
    fullText := "";
    youtubeId := None;
    sections := [];
    var current := Section("", []);
    for i := 0 to |blocks|
      invariant Walk(fullText, youtubeId, sections, current) == Run(Start, blocks[..i])
    {
      assert blocks[..i + 1][..i] == blocks[..i];
      var block := blocks[i];
      ghost var before := Walk(fullText, youtubeId, sections, current);
      assert Run(Start, blocks[..i + 1]) == Step(before, block);
      var bt := block.blockType;
      var text := "";
      if bt == 2 {
        text := ExtractText(block.text.GetOr([]));
      } else if bt == 3 {
        text := ExtractText(block.heading1.GetOr([]));
        assert ActionOf(block) == Open(text);
        if |current.paragraphs| > 0 {
          sections := sections + [current];
        }
        current := Section(text, []);
        continue;
      } else if bt == 4 {
        text := ExtractText(block.heading2.GetOr([]));
        assert ActionOf(block) == Open(text);
        if |current.paragraphs| > 0 {
          sections := sections + [current];
        }
        current := Section(text, []);
        continue;
      } else if bt == 5 {
        text := ExtractText(block.heading3.GetOr([]));
      } else if bt == 12 {
        text := BulletPrefix + ExtractText(block.bullet.GetOr([]));
      } else if bt == 13 {
        text := ExtractText(block.ordered.GetOr([]));
      } else if bt == 1 {
        assert ActionOf(block) == Skip;
        continue;
      } else {
        assert ActionOf(block) == Skip;
        continue;
      }
      assert IsParagraphKind(bt) && text == BlockText(block);

      if Trim(text) == SectionBreak {
        if |current.paragraphs| > 0 {
          sections := sections + [current];
        }
        current := Section("", []);
        continue;
      }

      if Trim(text) != [] {
        assert ActionOf(block) == Append(text);
        fullText := fullText + text + "\n";
        current := Section(current.title, current.paragraphs + [text]);
        if youtubeId.None? {
          youtubeId := YouTube.ExtractYoutubeId(text);
        }
      } else {
        assert ActionOf(block) == Skip;
      }
    }
    assert blocks[..|blocks|] == blocks;
    if |current.paragraphs| > 0 {
      sections := sections + [current];
    }
    NormalizeKeepsParagraphs(blocks);
  }

  // ---------------------------------------------------------------------------
  // Reference definitions: what the walk must produce

  /** The texts of the accepted paragraph blocks, in block order. */
  function AcceptedTexts(blocks: seq<Block>): seq<string> {
    if blocks == [] then []
    else
      var last := blocks[|blocks| - 1];
      AcceptedTexts(blocks[..|blocks| - 1]) + (if ActionOf(last).Append? then [ActionOf(last).text] else [])
  }

  /** The paragraphs of all sections, concatenated in order. */
  function Paragraphs(sections: seq<Section>): seq<string> {
    if sections == [] then []
    else Paragraphs(sections[..|sections| - 1]) + sections[|sections| - 1].paragraphs
  }

  /** Each paragraph followed by a newline. */
  function Lines(ps: seq<string>): string {
    if ps == [] then "" else Lines(ps[..|ps| - 1]) + ps[|ps| - 1] + "\n"
  }

  /** `id` is the video id of the first paragraph that has one, or none if no paragraph has one. */
  predicate IsFirstId(ps: seq<string>, id: Option<string>) {
    match id
    case None => forall i :: 0 <= i < |ps| ==> YouTube.ExtractYoutubeId(ps[i]).None?
    case Some(v) =>
      exists k :: 0 <= k < |ps| && YouTube.ExtractYoutubeId(ps[k]) == Some(v)
                  && forall j :: 0 <= j < k ==> YouTube.ExtractYoutubeId(ps[j]).None?
  }

  /** A section title is empty or the text of one of the heading blocks. */
  predicate IsHeadingText(blocks: seq<Block>, t: string) {
    t == [] || exists k :: 0 <= k < |blocks| && IsHeading(blocks[k].blockType) && BlockText(blocks[k]) == t
  }

  // The invariants of the walk, one per property.

  predicate ParagraphsInv(w: Walk, blocks: seq<Block>) {
    Paragraphs(w.done) + w.current.paragraphs == AcceptedTexts(blocks)
  }

  predicate TextInv(w: Walk, blocks: seq<Block>) {
    w.fullText == Lines(AcceptedTexts(blocks))
  }

  predicate IdInv(w: Walk, blocks: seq<Block>) {
    IsFirstId(AcceptedTexts(blocks), w.youtubeId)
  }

  predicate ShapeInv(w: Walk) {
    && (forall i :: 0 <= i < |w.done| ==> WellFormed(w.done[i]))
    && (forall i :: 0 <= i < |w.current.paragraphs| ==> GoodParagraph(w.current.paragraphs[i]))
  }

  predicate TitleInv(w: Walk, blocks: seq<Block>) {
    && (forall i :: 0 <= i < |w.done| ==> IsHeadingText(blocks, w.done[i].title))
    && IsHeadingText(blocks, w.current.title)
  }

  lemma AcceptedStep(blocks: seq<Block>, b: Block)
    ensures AcceptedTexts(blocks + [b])
         == AcceptedTexts(blocks) + (if ActionOf(b).Append? then [ActionOf(b).text] else [])
  {
    assert (blocks + [b])[..|blocks|] == blocks;
  }

  lemma FlushParagraphs(done: seq<Section>, current: Section)
    ensures Paragraphs(Flush(done, current)) == Paragraphs(done) + current.paragraphs
  {
    if |current.paragraphs| > 0 {
      assert (done + [current])[..|done|] == done;
    }
  }

  lemma ParagraphsStep(w: Walk, blocks: seq<Block>, b: Block)
    requires ParagraphsInv(w, blocks)
    ensures ParagraphsInv(Step(w, b), blocks + [b])
  {
    AcceptedStep(blocks, b);
    var w' := Step(w, b);
    match ActionOf(b)
    case Open(t) =>
      FlushParagraphs(w.done, w.current);
      assert w'.done == Flush(w.done, w.current) && w'.current.paragraphs == [];
      assert Paragraphs(w'.done) + w'.current.paragraphs == Paragraphs(w.done) + w.current.paragraphs;
    case Append(text) =>
      assert w'.done == w.done && w'.current.paragraphs == w.current.paragraphs + [text];
      assert Paragraphs(w'.done) + w'.current.paragraphs == (Paragraphs(w.done) + w.current.paragraphs) + [text];
    case Skip =>
      assert w' == w;
  }

  lemma TextStep(w: Walk, blocks: seq<Block>, b: Block)
    requires TextInv(w, blocks)
    ensures TextInv(Step(w, b), blocks + [b])
  {
    AcceptedStep(blocks, b);
    var ps := AcceptedTexts(blocks + [b]);
    if ActionOf(b).Append? {
      var text := ActionOf(b).text;
      assert ps == AcceptedTexts(blocks) + [text];
      assert ps[..|ps| - 1] == AcceptedTexts(blocks) && ps[|ps| - 1] == text;
      assert Step(w, b).fullText == w.fullText + text + "\n";
      assert Lines(ps) == Lines(AcceptedTexts(blocks)) + text + "\n";
    } else {
      assert ps == AcceptedTexts(blocks);
      assert Step(w, b).fullText == w.fullText;
    }
  }

  lemma FirstIdStep(ps: seq<string>, id: Option<string>, text: string)
    requires IsFirstId(ps, id)
    ensures IsFirstId(ps + [text], if id.Some? then id else YouTube.ExtractYoutubeId(text))
  {
    var qs := ps + [text];
    assert forall j :: 0 <= j < |ps| ==> qs[j] == ps[j];
    if id.Some? {
      var k :| 0 <= k < |ps| && YouTube.ExtractYoutubeId(ps[k]) == id
               && forall j :: 0 <= j < k ==> YouTube.ExtractYoutubeId(ps[j]).None?;
      assert qs[k] == ps[k];
    } else if YouTube.ExtractYoutubeId(text).Some? {
      assert qs[|ps|] == text;
    }
  }

  lemma IdStep(w: Walk, blocks: seq<Block>, b: Block)
    requires IdInv(w, blocks)
    ensures IdInv(Step(w, b), blocks + [b])
  {
    AcceptedStep(blocks, b);
    if ActionOf(b).Append? {
      var text := ActionOf(b).text;
      FirstIdStep(AcceptedTexts(blocks), w.youtubeId, text);
      assert AcceptedTexts(blocks + [b]) == AcceptedTexts(blocks) + [text];
      assert Step(w, b).youtubeId == if w.youtubeId.Some? then w.youtubeId else YouTube.ExtractYoutubeId(text);
    } else {
      assert AcceptedTexts(blocks + [b]) == AcceptedTexts(blocks);
    }
  }

  /** Extending a list of good paragraphs by a good one keeps it good. */
  lemma AppendGood(ps: seq<string>, text: string)
    requires forall i :: 0 <= i < |ps| ==> GoodParagraph(ps[i])
    requires GoodParagraph(text)
    ensures forall i :: 0 <= i < |ps + [text]| ==> GoodParagraph((ps + [text])[i])
  {
    var qs := ps + [text];
    forall i | 0 <= i < |qs| ensures GoodParagraph(qs[i]) {
      if i < |ps| {
        assert qs[i] == ps[i];
      }
    }
  }

  /** Flushing a section with a good paragraph list adds a well-formed section. */
  lemma FlushWellFormed(done: seq<Section>, current: Section)
    requires forall i :: 0 <= i < |done| ==> WellFormed(done[i])
    requires forall i :: 0 <= i < |current.paragraphs| ==> GoodParagraph(current.paragraphs[i])
    ensures forall i :: 0 <= i < |Flush(done, current)| ==> WellFormed(Flush(done, current)[i])
  {
    if |current.paragraphs| > 0 {
      var ds := done + [current];
      forall i | 0 <= i < |ds| ensures WellFormed(ds[i]) {
        if i < |done| {
          assert ds[i] == done[i];
        }
      }
    }
  }

  lemma ShapeStep(w: Walk, b: Block)
    requires ShapeInv(w)
    ensures ShapeInv(Step(w, b))
  {
    match ActionOf(b)
    case Open(t) =>
      FlushWellFormed(w.done, w.current);
    case Append(text) =>
      assert Accepts(b) && text == BlockText(b);
      AppendGood(w.current.paragraphs, text);
    case Skip =>
  }

  lemma HeadingTextGrows(blocks: seq<Block>, b: Block, t: string)
    requires IsHeadingText(blocks, t)
    ensures IsHeadingText(blocks + [b], t)
  {
    if t != [] {
      var k :| 0 <= k < |blocks| && IsHeading(blocks[k].blockType) && BlockText(blocks[k]) == t;
      assert (blocks + [b])[k] == blocks[k];
    }
  }

  lemma TitleStep(w: Walk, blocks: seq<Block>, b: Block)
    requires TitleInv(w, blocks)
    ensures TitleInv(Step(w, b), blocks + [b])
  {
    var bs := blocks + [b];
    forall t | IsHeadingText(blocks, t) ensures IsHeadingText(bs, t) {
      HeadingTextGrows(blocks, b, t);
    }
    if ActionOf(b).Open? {
      assert bs[|blocks|] == b;
    }
  }

  /** After any prefix of the blocks, the walk satisfies all five invariants. */
  lemma {:induction false} RunInvariants(blocks: seq<Block>)
    ensures var w := Run(Start, blocks);
      ParagraphsInv(w, blocks) && TextInv(w, blocks) && IdInv(w, blocks) && ShapeInv(w) && TitleInv(w, blocks)
  {
    if blocks != [] {
      var init, b := blocks[..|blocks| - 1], blocks[|blocks| - 1];
      assert init + [b] == blocks;
      var w := Run(Start, init);
      RunInvariants(init);
      ParagraphsStep(w, init, b);
      TextStep(w, init, b);
      IdStep(w, init, b);
      ShapeStep(w, b);
      TitleStep(w, init, b);
    }
  }

  /**
   * Nothing is lost or invented: the sections' paragraphs, in order, are exactly
   * the accepted paragraph texts; `fullText` is each of them followed by a newline;
   * the video id is that of the first accepted paragraph containing one. Every
   * section has a paragraph, none of them blank or a section break, and every
   * title is empty or the text of a heading block.
   */
  lemma NormalizeKeepsParagraphs(blocks: seq<Block>)
    ensures var c := Normalize(blocks);
      && Paragraphs(c.sections) == AcceptedTexts(blocks)
      && c.fullText == Lines(AcceptedTexts(blocks))
      && IsFirstId(AcceptedTexts(blocks), c.youtubeId)
      && (forall i :: 0 <= i < |c.sections| ==>
            WellFormed(c.sections[i]) && IsHeadingText(blocks, c.sections[i].title))
  {
    var w := Run(Start, blocks);
    RunInvariants(blocks);
    FlushParagraphs(w.done, w.current);
    var c := Normalize(blocks);
    assert c.sections == Flush(w.done, w.current);
    if |w.current.paragraphs| > 0 {
      assert c.sections[|w.done|] == w.current;
      assert WellFormed(w.current);
    }
  }

  // ---------------------------------------------------------------------------
  // Further consequences of the walk

  lemma {:induction false} RunAppend(w: Walk, a: seq<Block>, b: seq<Block>)
    ensures Run(w, a + b) == Run(Run(w, a), b)
  {
    if b == [] {
      assert a + b == a;
    } else {
      var init := b[..|b| - 1];
      assert (a + b)[..|a + b| - 1] == a + init;
      assert (a + b)[|a + b| - 1] == b[|b| - 1];
      RunAppend(w, a, init);
    }
  }

  /** The blocks of a type the normaliser reads. */
  function KnownBlocks(blocks: seq<Block>): seq<Block> {
    if blocks == [] then []
    else
      var last := blocks[|blocks| - 1];
      KnownBlocks(blocks[..|blocks| - 1])
        + (if IsHeading(last.blockType) || IsParagraphKind(last.blockType) then [last] else [])
  }

  lemma {:induction false} RunSkipsUnknown(w: Walk, blocks: seq<Block>)
    ensures Run(w, blocks) == Run(w, KnownBlocks(blocks))
  {
    if blocks != [] {
      var init, last := blocks[..|blocks| - 1], blocks[|blocks| - 1];
      RunSkipsUnknown(w, init);
      if IsHeading(last.blockType) || IsParagraphKind(last.blockType) {
        var k := KnownBlocks(init) + [last];
        assert k[..|k| - 1] == KnownBlocks(init);
      } else {
        assert KnownBlocks(blocks) == KnownBlocks(init);
        assert ActionOf(last) == Skip;
      }
    }
  }

  /**
   * Blocks of any type other than 2, 3, 4, 5, 12 and 13 (the page block among
   * them) neither open, close nor add to a section: removing them all changes
   * nothing in the result.
   */
  lemma SkipsUnknownBlocks(blocks: seq<Block>)
    ensures Normalize(blocks) == Normalize(KnownBlocks(blocks))
  {
    RunSkipsUnknown(Start, blocks);
  }

  /** Every block becomes a paragraph. */
  predicate AllAccepted(blocks: seq<Block>) {
    forall i :: 0 <= i < |blocks| ==> ActionOf(blocks[i]).Append?
  }

  /** A single heading or break block flushes the current section and opens its own. */
  lemma RunOpens(w: Walk, b: Block)
    requires ActionOf(b).Open?
    ensures Run(w, [b]).done == Flush(w.done, w.current)
    ensures Run(w, [b]).current == Section(ActionOf(b).title, [])
  {
    assert [b][..0] == [];
  }

  /** An appended paragraph leaves the finished sections alone and extends the current one. */
  lemma StepAppends(v: Walk, b: Block)
    requires ActionOf(b).Append?
    ensures Step(v, b).done == v.done
    ensures Step(v, b).current == Section(v.current.title, v.current.paragraphs + [ActionOf(b).text])
  {
  }

  lemma AllAcceptedInit(blocks: seq<Block>)
    requires AllAccepted(blocks) && blocks != []
    ensures AllAccepted(blocks[..|blocks| - 1]) && ActionOf(blocks[|blocks| - 1]).Append?
  {
    var init := blocks[..|blocks| - 1];
    forall i | 0 <= i < |init| ensures ActionOf(init[i]).Append? {
      assert init[i] == blocks[i];
    }
  }

  lemma {:induction false} AcceptedCount(blocks: seq<Block>)
    requires AllAccepted(blocks)
    ensures |AcceptedTexts(blocks)| == |blocks|
  {
    if blocks != [] {
      AllAcceptedInit(blocks);
      AcceptedCount(blocks[..|blocks| - 1]);
    }
  }

  /** A run of paragraphs only extends the current section, by exactly their texts. */
  lemma {:induction false} RunAccepted(w: Walk, blocks: seq<Block>)
    requires AllAccepted(blocks)
    ensures Run(w, blocks).done == w.done
    ensures Run(w, blocks).current == Section(w.current.title, w.current.paragraphs + AcceptedTexts(blocks))
  {
    if blocks != [] {
      var init, last := blocks[..|blocks| - 1], blocks[|blocks| - 1];
      AllAcceptedInit(blocks);
      RunAccepted(w, init);
      SplitLast(blocks);
      AcceptedStep(init, last);
      var t := ActionOf(last).text;
      var v := Run(w, init);
      assert Run(w, blocks) == Step(v, last);
      StepAppends(v, last);
      assert w.current.paragraphs + AcceptedTexts(init) + [t] == w.current.paragraphs + (AcceptedTexts(init) + [t]);
    }
  }

  /** An opening block followed by paragraphs: one new section holding exactly those paragraphs. */
  lemma RunOpenThenAccepted(w: Walk, b: Block, ps: seq<Block>)
    requires ActionOf(b).Open? && AllAccepted(ps)
    ensures Run(w, [b] + ps).done == Flush(w.done, w.current)
    ensures Run(w, [b] + ps).current == Section(ActionOf(b).title, AcceptedTexts(ps))
  {
    RunOpens(w, b);
    RunAppend(w, [b], ps);
    RunAccepted(Run(w, [b]), ps);
  }

  /** The sections of a finished walk: its done sections, then the current one if it has a paragraph. */
  lemma NormalizeSections(blocks: seq<Block>, w: Walk)
    requires Run(Start, blocks) == w
    ensures Normalize(blocks).sections == Flush(w.done, w.current)
  {
  }

  /**
   * A heading, N > 0 paragraphs, a `---` paragraph and M > 0 more paragraphs give
   * exactly two sections: the first titled with the heading and holding the N
   * paragraphs, the second untitled and holding the M.
   */
  lemma HeadingThenBreak(h: Block, ps: seq<Block>, rule: Block, qs: seq<Block>)
    requires IsHeading(h.blockType) && IsBreak(rule)
    requires AllAccepted(ps) && AllAccepted(qs) && |ps| > 0 && |qs| > 0
    ensures var sections := Normalize([h] + ps + [rule] + qs).sections;
      && |sections| == 2
      && sections[0] == Section(BlockText(h), AcceptedTexts(ps)) && |sections[0].paragraphs| == |ps|
      && sections[1] == Section("", AcceptedTexts(qs)) && |sections[1].paragraphs| == |qs|
  {
    var a := [h] + ps;
    var all := [h] + ps + [rule] + qs;
    AcceptedCount(ps);
    AcceptedCount(qs);
    var s1 := Section(BlockText(h), AcceptedTexts(ps));
    var s2 := Section("", AcceptedTexts(qs));
    assert ActionOf(h) == Open(BlockText(h));
    assert ActionOf(rule) == Open("");
    RunOpenThenAccepted(Start, h, ps);
    var w2 := Run(Start, a);
    RunOpenThenAccepted(w2, rule, qs);
    RunAppend(Start, a, [rule] + qs);
    AppendAssoc(a, [rule], qs);
    var w4 := Run(Start, all);
    assert w4.done == [s1] && w4.current == s2;
    NormalizeSections(all, w4);
  }
}
