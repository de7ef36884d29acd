/**
 * Video-id extraction (`extractYoutubeId` in src/lib/feishu.ts, `extract_youtube_id`
 * in build.py). Two URL shapes are searched for, in this order:
 *   youtube\.com/watch\?v=([a-zA-Z0-9_-]{11})
 *   youtu\.be/([a-zA-Z0-9_-]{11})
 * Each search is unanchored, so it finds the leftmost occurrence; the first shape
 * that occurs anywhere wins.
 */
module YouTube {
  import opened Wrappers

  const WatchPrefix: string := "youtube.com/watch?v="
  const ShortPrefix: string := "youtu.be/"
  const IdLength: nat := 11

  /** `[a-zA-Z0-9_-]` */
  predicate IsIdChar(c: char) {
    ('a' <= c <= 'z') || ('A' <= c <= 'Z') || ('0' <= c <= '9') || c == '_' || c == '-'
  }

  predicate IsVideoId(s: string) {
    |s| == IdLength && forall i :: 0 <= i < |s| ==> IsIdChar(s[i])
  }

  /** The pattern `prefix` followed by eleven id characters matches at position `i`. */
  predicate MatchesAt(text: string, prefix: string, i: int) {
    0 <= i && i + |prefix| + IdLength <= |text|
    && text[i..i + |prefix|] == prefix
    && IsVideoId(text[i + |prefix|..i + |prefix| + IdLength])
  }

  /** The captured group of a match at `i`. */
  function IdAt(text: string, prefix: string, i: int): (id: string)
    requires MatchesAt(text, prefix, i)
    ensures IsVideoId(id)
  {
    text[i + |prefix|..i + |prefix| + IdLength]
  }

  /** The leftmost position at or after `from` where the pattern matches. */
  function FindMatch(text: string, prefix: string, from: nat): (r: Option<nat>)
    ensures r.Some? ==> from <= r.value && MatchesAt(text, prefix, r.value)
                        && forall j :: from <= j < r.value ==> !MatchesAt(text, prefix, j)
    ensures r.None? ==> forall j :: from <= j ==> !MatchesAt(text, prefix, j)
    decreases |text| - from
  {
    if from + |prefix| + IdLength > |text| then None
    else if MatchesAt(text, prefix, from) then Some(from)
    else FindMatch(text, prefix, from + 1)
  }

  /** The leftmost match of `prefix` anywhere in `text`, as the captured id. */
  function Search(text: string, prefix: string): (r: Option<string>)
    ensures r.Some? ==> IsVideoId(r.value)
  {
    match FindMatch(text, prefix, 0)
    case Some(i) => Some(IdAt(text, prefix, i))
    case None => None
  }

  /** extractYoutubeId: the watch URL shape is tried first, then the short one. */
  function ExtractYoutubeId(text: string): (r: Option<string>)
    ensures r.Some? ==> IsVideoId(r.value)
    ensures r.None? <==> (forall i :: !MatchesAt(text, WatchPrefix, i))
                         && (forall i :: !MatchesAt(text, ShortPrefix, i))
  {
    var w := Search(text, WatchPrefix);
    if w.Some? then w else Search(text, ShortPrefix)
  }

  /** The leftmost watch URL decides the result, wherever any short URL stands. */
  lemma WatchUrlWins(text: string, i: nat)
    requires MatchesAt(text, WatchPrefix, i)
    requires forall j :: 0 <= j < i ==> !MatchesAt(text, WatchPrefix, j)
    ensures ExtractYoutubeId(text) == Some(IdAt(text, WatchPrefix, i))
  {
  }

  /** With no watch URL, the leftmost short URL decides the result. */
  lemma ShortUrlFallback(text: string, i: nat)
    requires forall j :: !MatchesAt(text, WatchPrefix, j)
    requires MatchesAt(text, ShortPrefix, i)
    requires forall j :: 0 <= j < i ==> !MatchesAt(text, ShortPrefix, j)
    ensures ExtractYoutubeId(text) == Some(IdAt(text, ShortPrefix, i))
  {
  }

  /** A short URL yields its id. */
  lemma ExampleShortUrl()
    ensures ExtractYoutubeId("https://youtu.be/dQw4w9WgXcQ") == Some("dQw4w9WgXcQ")
  {
    var text := "https://youtu.be/dQw4w9WgXcQ";
    assert text[8..8 + |ShortPrefix|] == ShortPrefix;
    assert IdAt(text, ShortPrefix, 8) == "dQw4w9WgXcQ";
    forall j | 0 <= j < 8 ensures !MatchesAt(text, ShortPrefix, j) {
      assert text[j] != ShortPrefix[0];
    }
    ShortUrlFallback(text, 8);
  }

  /** A watch URL yields the same id. */
  lemma ExampleWatchUrl()
    ensures ExtractYoutubeId("https://www." + WatchPrefix + "dQw4w9WgXcQ") == Some("dQw4w9WgXcQ")
  {
    var scheme, id := "https://www.", "dQw4w9WgXcQ";
    var text := scheme + WatchPrefix + id;
    assert |scheme| == 12 && |WatchPrefix| == 20 && |text| == 43;
    assert text[12..32] == WatchPrefix && text[32..43] == id;
    assert IsVideoId(id);
    assert MatchesAt(text, WatchPrefix, 12);
    forall j | 0 <= j < 12 ensures !MatchesAt(text, WatchPrefix, j) {
      assert text[j] == scheme[j];
      assert text[j] != WatchPrefix[0];
    }
    WatchUrlWins(text, 12);
  }
}
