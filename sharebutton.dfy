/**
 * The lines of the off-screen share card (ShareCard in
 * src/components/ShareButton.tsx): the intro paragraphs without the video
 * paragraphs, cleaned with plain item numbers, at most ten of them, and a
 * flag saying whether some were cut. Drawing the card, the QR code and the
 * image capture are not modelled.
 */
module ShareButton {
  import opened Markup
  import ArticleCard

  /** How many intro lines the card shows. */
  const ShareLimit: nat := 10

  datatype ShareLines = ShareLines(introLines: seq<string>, hasMore: bool)

  /** `allLines`: the intro cleaned with `formatParagraph`, which writes item numbers without markup. */
  function AllLines(intro: seq<string>): seq<string> {
    VisibleLines(intro, "", "")
  }

  /** `allLines.slice(0, 10)` and `allLines.length > introLines.length`. */
  function CardLines(intro: seq<string>): (r: ShareLines)
    ensures |r.introLines| <= ShareLimit && |r.introLines| <= |AllLines(intro)|
    ensures r.introLines == AllLines(intro)[..|r.introLines|]
    ensures |r.introLines| == ShareLimit || r.introLines == AllLines(intro)
    ensures r.hasMore <==> |AllLines(intro)| > ShareLimit
  {
    var all := AllLines(intro);
    var shown := if |all| > ShareLimit then all[..ShareLimit] else all;
    ShareLines(shown, |all| > |shown|)
  }

  /**
   * The card shows the first lines of the article's intro, as many as the
   * article shows up to ten, each from an intro paragraph that does not point
   * at the video, and says there is more exactly when the article has more
   * than ten intro lines.
   */
  lemma CardMatchesArticle(intro: seq<string>)
    ensures |CardLines(intro).introLines| == if |ArticleCard.IntroLines(intro)| > ShareLimit then ShareLimit else |ArticleCard.IntroLines(intro)|
    ensures CardLines(intro).hasMore <==> |ArticleCard.IntroLines(intro)| > ShareLimit
    ensures forall k :: 0 <= k < |CardLines(intro).introLines| ==>
              ShowableLine(CardLines(intro).introLines[k]) && ComesFrom(CardLines(intro).introLines[k], intro, "", "")
    ensures forall k :: 0 <= k < |CardLines(intro).introLines| ==> NoUrl(CardLines(intro).introLines[k])
  {
    VisibleLinesSameCount(intro, "", "", ArticleCard.StrongOpen, ArticleCard.StrongClose);
    VisibleLinesFromParagraphs(intro, "", "");
    VisibleLinesNoUrl(intro, "", "");
    var all := AllLines(intro);
    var shown := CardLines(intro).introLines;
    assert forall k :: 0 <= k < |shown| ==> shown[k] == all[k];
  }
}
