/**
 * Assembly of the article list (`fetchAllPodcasts` in src/lib/feishu.ts, the
 * loop of `main` in build.py): every wiki document is normalised, its title
 * parsed, an intro and a highlights list chosen from its sections, the fields
 * capped, and the records sorted newest first. Fetching the node list, the
 * blocks and the video metadata is I/O; their results are the inputs here.
 */
module Feed {
  import opened Wrappers
  import opened Text
  import opened Types
  import opened Lists
  import Blocks
  import Titles
  import Ordering

  /** A child node of the wiki space. */
  datatype Node = Node(title: string, objToken: string, nodeToken: string)

  /** One document as the fetch steps deliver it: its node, its blocks, and what the video lookup returned. */
  datatype Document = Document(node: Node, blocks: seq<Blocks.Block>, fetchedMeta: YoutubeMeta)

  const HighlightsMarker: string := "精华"
  const WikiUrlPrefix: string := "https://my.feishu.cn/wiki/"
  const IntroCap: nat := 15
  const HighlightsCap: nat := 20
  const FullTextCap: nat := 5000

  /** A section whose title contains the highlights marker. */
  predicate Marked(sec: Blocks.Section) {
    Contains(sec.title, HighlightsMarker)
  }

  // ---------------------------------------------------------------------------
  // Classification

  /**
   * The intro the loop settles on: the paragraphs of the first unmarked section
   * that has any (an untitled section is unmarked), or none.
   */
  function FirstPlain(sections: seq<Blocks.Section>): seq<string> {
    if sections == [] then []
    else
      var before := FirstPlain(sections[..|sections| - 1]);
      var last := sections[|sections| - 1];
      if before == [] && !Marked(last) then last.paragraphs else before
  }

  /** The highlights the loop settles on: the paragraphs of the last marked section, or none. */
  function LastMarked(sections: seq<Blocks.Section>): seq<string> {
    if sections == [] then []
    else
      var last := sections[|sections| - 1];
      if Marked(last) then last.paragraphs else LastMarked(sections[..|sections| - 1])
  }

  /** The intro after the fallback to the first section. */
  function IntroOf(sections: seq<Blocks.Section>): seq<string> {
    var intro := FirstPlain(sections);
    if intro == [] && |sections| > 0 then sections[0].paragraphs else intro
  }

  /** The highlights after the fallback to the last section. */
  function HighlightsOf(sections: seq<Blocks.Section>): seq<string> {
    var highlights := LastMarked(sections);
    if highlights == [] && |sections| > 1 then sections[|sections| - 1].paragraphs else highlights
  }

  /** The classification loop and its two fallbacks, as the source writes them. */
  method Classify(sections: seq<Blocks.Section>) returns (intro: seq<string>, highlights: seq<string>)
    ensures intro == IntroOf(sections)
    ensures highlights == HighlightsOf(sections)
  {
    intro := [];
    highlights := [];
    for i := 0 to |sections|
      invariant intro == FirstPlain(sections[..i])
      invariant highlights == LastMarked(sections[..i])
    {
      var sec := sections[i];
      assert sections[..i + 1][..i] == sections[..i];
      if Marked(sec) || sec.title == [] {
        if |intro| == 0 && sec.title == [] {
          assert !Contains(sec.title, HighlightsMarker);
          intro := sec.paragraphs;
        } else if Marked(sec) {
          highlights := sec.paragraphs;
        }
      } else if |intro| == 0 {
        intro := sec.paragraphs;
      }
    }
    assert sections[..|sections|] == sections;
    if |intro| == 0 && |sections| > 0 {
      intro := sections[0].paragraphs;
    }
    if |highlights| == 0 && |sections| > 1 {
      highlights := sections[|sections| - 1].paragraphs;
    }
  }

  /** The first unmarked section with paragraphs decides the intro; with none, there is no intro. */
  lemma {:induction false} FirstPlainIsFirst(sections: seq<Blocks.Section>)
    ensures FirstPlain(sections) == [] <==>
      forall k :: 0 <= k < |sections| && !Marked(sections[k]) ==> sections[k].paragraphs == []
    ensures forall k :: 0 <= k < |sections| && !Marked(sections[k]) && sections[k].paragraphs != []
                        && (forall j :: 0 <= j < k && !Marked(sections[j]) ==> sections[j].paragraphs == [])
                        ==> FirstPlain(sections) == sections[k].paragraphs
  {
    if sections != [] {
      var init := sections[..|sections| - 1];
      FirstPlainIsFirst(init);
      assert forall k :: 0 <= k < |init| ==> init[k] == sections[k];
    }
  }

  /** The last marked section decides the highlights; with none, there are none. */
  lemma {:induction false} LastMarkedIsLast(sections: seq<Blocks.Section>)
    ensures (forall k :: 0 <= k < |sections| ==> !Marked(sections[k])) ==> LastMarked(sections) == []
    ensures forall k :: 0 <= k < |sections| && Marked(sections[k])
                        && (forall j :: k < j < |sections| ==> !Marked(sections[j]))
                        ==> LastMarked(sections) == sections[k].paragraphs
  {
    if sections != [] {
      var init := sections[..|sections| - 1];
      LastMarkedIsLast(init);
      assert forall k :: 0 <= k < |init| ==> init[k] == sections[k];
    }
  }

  /** Every section has a paragraph, as the normaliser guarantees. */
  predicate NoEmptySection(sections: seq<Blocks.Section>) {
    forall k :: 0 <= k < |sections| ==> sections[k].paragraphs != []
  }

  /**
   * For sections that all have paragraphs: the intro is non-empty exactly when
   * there is a section; it is the first unmarked section, or the first section
   * when every section is marked.
   */
  lemma IntroChoice(sections: seq<Blocks.Section>)
    requires NoEmptySection(sections)
    ensures IntroOf(sections) != [] <==> |sections| > 0
    ensures forall k :: 0 <= k < |sections| && !Marked(sections[k])
                        && (forall j :: 0 <= j < k ==> Marked(sections[j]))
                        ==> IntroOf(sections) == sections[k].paragraphs
    ensures (forall k :: 0 <= k < |sections| ==> Marked(sections[k])) && |sections| > 0
            ==> IntroOf(sections) == sections[0].paragraphs
  {
    FirstPlainIsFirst(sections);
  }

  /**
   * For sections that all have paragraphs: the highlights are the last marked
   * section, else the last section when there are two or more; they are empty
   * exactly when there is at most one section and none is marked.
   */
  lemma HighlightsChoice(sections: seq<Blocks.Section>)
    requires NoEmptySection(sections)
    ensures forall k :: 0 <= k < |sections| && Marked(sections[k])
                        && (forall j :: k < j < |sections| ==> !Marked(sections[j]))
                        ==> HighlightsOf(sections) == sections[k].paragraphs
    ensures (forall k :: 0 <= k < |sections| ==> !Marked(sections[k])) && |sections| > 1
            ==> HighlightsOf(sections) == sections[|sections| - 1].paragraphs
    ensures HighlightsOf(sections) == [] <==>
            |sections| <= 1 && forall k :: 0 <= k < |sections| ==> !Marked(sections[k])
  {
    LastMarkedIsLast(sections);
    if exists k :: 0 <= k < |sections| && Marked(sections[k]) {
      var k :| 0 <= k < |sections| && Marked(sections[k]);
      LastMarkedExists(sections, k);
    }
  }

  /** With some marked section and no empty one, the highlights the loop settles on are not empty. */
  lemma {:induction false} LastMarkedExists(sections: seq<Blocks.Section>, k: nat)
    requires k < |sections| && Marked(sections[k]) && NoEmptySection(sections)
    ensures LastMarked(sections) != []
  {
    if !Marked(sections[|sections| - 1]) {
      var init := sections[..|sections| - 1];
      assert init[k] == sections[k];
      assert NoEmptySection(init) by {
        forall j | 0 <= j < |init| ensures init[j].paragraphs != [] {
          assert init[j] == sections[j];
        }
      }
      LastMarkedExists(init, k);
    }
  }

  // ---------------------------------------------------------------------------
  // The record

  function Min(a: nat, b: nat): nat {
    if a < b then a else b
  }

  /** `slice(0, n)` / `[:n]` */
  function Take<T>(s: seq<T>, n: nat): (r: seq<T>)
    ensures |r| <= n && |r| <= |s| && r == s[..|r|]
    ensures |r| == n || r == s
  {
    if |s| <= n then s else s[..n]
  }

  /** The metadata lookup returns all fields missing when there is no video id. */
  function MetaFor(youtubeId: Option<string>, fetched: YoutubeMeta): (m: YoutubeMeta)
    ensures youtubeId.None? ==> m == NoMeta
    ensures youtubeId.Some? ==> m == fetched
  {
    if youtubeId.None? then NoMeta else fetched
  }

  /** The record for one document. */
  function Assemble(doc: Document): Podcast {
    var content := Blocks.Normalize(doc.blocks);
    var parsed := Titles.ParseTitle(doc.node.title);
    var meta := MetaFor(content.youtubeId, doc.fetchedMeta);
    Podcast(
      doc.node.nodeToken, parsed.title, doc.node.title, parsed.dateCode, content.youtubeId,
      WikiUrlPrefix + doc.node.nodeToken,
      Take(IntroOf(content.sections), IntroCap),
      Take(HighlightsOf(content.sections), HighlightsCap),
      Take(content.fullText, FullTextCap),
      meta.ytTitle, meta.ytChannel, meta.ytChannelUrl, meta.ytViews, meta.ytPublished)
  }

  /**
   * Each record: the id is the node token and the link is built from it; the
   * raw title is kept and split by the title parser; intro, highlights and
   * full text are what classification and normalisation produce, cut to
   * 15 paragraphs, 20 paragraphs and 5000 characters; the video metadata is
   * all missing without a video id and is the fetched metadata with one.
   */
  lemma AssembleFields(doc: Document)
    ensures var p := Assemble(doc);
      var content := Blocks.Normalize(doc.blocks);
      && p.id == doc.node.nodeToken
      && p.feishuUrl == WikiUrlPrefix + doc.node.nodeToken
      && p.rawTitle == doc.node.title
      && Titles.ParseTitle(doc.node.title) == Titles.Title(p.dateCode, p.title)
      && p.youtubeId == content.youtubeId
      && |p.intro| == Min(|IntroOf(content.sections)|, IntroCap)
      && p.intro == IntroOf(content.sections)[..|p.intro|]
      && |p.highlights| == Min(|HighlightsOf(content.sections)|, HighlightsCap)
      && p.highlights == HighlightsOf(content.sections)[..|p.highlights|]
      && |p.fullText| == Min(|content.fullText|, FullTextCap)
      && p.fullText == content.fullText[..|p.fullText|]
      && (p.youtubeId.None? ==>
            p.ytTitle.None? && p.ytChannel.None? && p.ytChannelUrl.None? && p.ytViews.None? && p.ytPublished.None?)
      && (p.youtubeId.Some? ==>
            YoutubeMeta(p.ytTitle, p.ytChannel, p.ytChannelUrl, p.ytViews, p.ytPublished) == doc.fetchedMeta)
  {
  }

  /** A document with a section has an intro. */
  lemma IntroPresent(doc: Document)
    requires Blocks.Normalize(doc.blocks).sections != []
    ensures Assemble(doc).intro != []
  {
    var content := Blocks.Normalize(doc.blocks);
    Blocks.NormalizeKeepsParagraphs(doc.blocks);
    assert NoEmptySection(content.sections) by {
      forall k | 0 <= k < |content.sections| ensures content.sections[k].paragraphs != [] {
        assert Blocks.WellFormed(content.sections[k]);
      }
    }
    IntroChoice(content.sections);
  }

  /** The body of the loop in fetchAllPodcasts, for one document after its fetches. */
  method AssembleDocument(doc: Document) returns (podcast: Podcast)
    ensures podcast == Assemble(doc)
  {
    var fullText, youtubeId, sections := Blocks.BlocksToContent(doc.blocks);
    var parsed := Titles.ParseTitle(doc.node.title);
    var intro, highlights := Classify(sections);
    var meta := MetaFor(youtubeId, doc.fetchedMeta);
    podcast := Podcast(
      doc.node.nodeToken, parsed.title, doc.node.title, parsed.dateCode, youtubeId,
      WikiUrlPrefix + doc.node.nodeToken,
      Take(intro, IntroCap), Take(highlights, HighlightsCap), Take(fullText, FullTextCap),
      meta.ytTitle, meta.ytChannel, meta.ytChannelUrl, meta.ytViews, meta.ytPublished);
  }

  /**
   * fetchAllPodcasts after the fetches: one record per document, in document
   * order, then the sort.
   */
  function AssembleFn(): Document -> Podcast {
    (doc: Document) => Assemble(doc)
  }

  /** One record per document, in document order. */
  function Records(docs: seq<Document>): seq<Podcast> {
    Map(AssembleFn(), docs)
  }

  /** Record `i` is the record of document `i`. */
  lemma RecordsIndex(docs: seq<Document>)
    ensures |Records(docs)| == |docs|
    ensures forall i :: 0 <= i < |docs| ==> Records(docs)[i] == Assemble(docs[i])
  {
    MapIndex(AssembleFn(), docs);
  }

  method FetchAllPodcasts(docs: seq<Document>) returns (podcasts: seq<Podcast>)
    ensures podcasts == Ordering.SortByDateCode(Records(docs))
    ensures Ordering.SortedDesc(podcasts)
    ensures multiset(podcasts) == multiset(Records(docs))
  {
    var collected: seq<Podcast> := [];
    for i := 0 to |docs|
      invariant collected == Map(AssembleFn(), docs[..i])
    {
      var podcast := AssembleDocument(docs[i]);
      MapPrefix(AssembleFn(), docs, i);
      collected := collected + [podcast];
    }
    MapWhole(AssembleFn(), docs);
    podcasts := Ordering.SortByDateCode(collected);
    Ordering.SortCorrect(collected);
  }
}
