/**
 * Lookups over the bundled, already sorted article list (src/lib/podcasts.ts).
 * The bundled list is a parameter; JavaScript's `undefined`/`null` results are
 * `None`.
 */
module Podcasts {
  import opened Wrappers
  import opened Types

  /** getAllPodcasts: the bundled list itself. */
  function GetAllPodcasts(podcasts: seq<Podcast>): (r: seq<Podcast>)
    ensures r == podcasts
  {
    podcasts
  }

  /** `findIndex` on the id: the first position holding `id`, or -1. */
  function FindIndex(podcasts: seq<Podcast>, id: string): (r: int)
    ensures -1 <= r < |podcasts|
    ensures r == -1 <==> forall k :: 0 <= k < |podcasts| ==> podcasts[k].id != id
    ensures r >= 0 ==> podcasts[r].id == id && forall k :: 0 <= k < r ==> podcasts[k].id != id
  {
    if podcasts == [] then -1
    else if podcasts[0].id == id then 0
    else
      var r := FindIndex(podcasts[1..], id);
      if r == -1 then -1 else r + 1
  }

  /** getPodcastById: the first record with that id, if any. */
  function GetPodcastById(podcasts: seq<Podcast>, id: string): (r: Option<Podcast>)
    ensures r.None? <==> forall k :: 0 <= k < |podcasts| ==> podcasts[k].id != id
    ensures r.Some? ==> exists k :: 0 <= k < |podcasts| && podcasts[k] == r.value
                                   && r.value.id == id
                                   && forall j :: 0 <= j < k ==> podcasts[j].id != id
  {
    var i := FindIndex(podcasts, id);
    if i == -1 then None else Some(podcasts[i])
  }

  /** getPodcastByIndex: the record at `index`, nothing outside the list. */
  function GetPodcastByIndex(podcasts: seq<Podcast>, index: int): (r: Option<Podcast>)
    ensures r.Some? <==> 0 <= index < |podcasts|
    ensures r.Some? ==> r.value == podcasts[index]
  {
    if 0 <= index < |podcasts| then Some(podcasts[index]) else None
  }

  /** The two lookups agree: the record at the position `findIndex` reports is the record found by id. */
  lemma IndexAgreesWithId(podcasts: seq<Podcast>, id: string)
    ensures GetPodcastByIndex(podcasts, FindIndex(podcasts, id)) == GetPodcastById(podcasts, id)
    ensures GetPodcastById(podcasts, id).Some? ==> GetPodcastById(podcasts, id).value.id == id
  {
  }

  /** Every record is found by index at its position, and by id when its id is not taken by an earlier record. */
  lemma FoundAtOwnPosition(podcasts: seq<Podcast>, i: nat)
    requires i < |podcasts|
    requires forall k :: 0 <= k < i ==> podcasts[k].id != podcasts[i].id
    ensures GetPodcastByIndex(podcasts, i) == Some(podcasts[i])
    ensures GetPodcastById(podcasts, podcasts[i].id) == Some(podcasts[i])
  {
    assert FindIndex(podcasts, podcasts[i].id) == i;
  }

  datatype Adjacent = Adjacent(prev: Option<Podcast>, next: Option<Podcast>)

  /** getAdjacentPodcasts: the neighbours of the position `findIndex` reports. */
  function GetAdjacentPodcasts(podcasts: seq<Podcast>, id: string): Adjacent {
    var idx := FindIndex(podcasts, id);
    Adjacent(
      if idx > 0 then Some(podcasts[idx - 1]) else None,
      if idx < |podcasts| - 1 then Some(podcasts[idx + 1]) else None)
  }

  /** For an id at position `i` (its first occurrence), the neighbours are the records beside it. */
  lemma AdjacentOfFound(podcasts: seq<Podcast>, i: nat)
    requires i < |podcasts|
    requires forall k :: 0 <= k < i ==> podcasts[k].id != podcasts[i].id
    ensures var a := GetAdjacentPodcasts(podcasts, podcasts[i].id);
      && (a.prev == if i > 0 then Some(podcasts[i - 1]) else None)
      && (a.next == if i < |podcasts| - 1 then Some(podcasts[i + 1]) else None)
  {
    assert FindIndex(podcasts, podcasts[i].id) == i;
  }

  /** An unknown id gives position -1: no previous record, and the first record as the next. */
  lemma AdjacentOfMissing(podcasts: seq<Podcast>, id: string)
    requires forall k :: 0 <= k < |podcasts| ==> podcasts[k].id != id
    ensures GetAdjacentPodcasts(podcasts, id).prev == None
    ensures GetAdjacentPodcasts(podcasts, id).next == if |podcasts| > 0 then Some(podcasts[0]) else None
  {
  }

  /** Ids are unique among the records. */
  predicate UniqueIds(podcasts: seq<Podcast>) {
    forall i, j :: 0 <= i < j < |podcasts| ==> podcasts[i].id != podcasts[j].id
  }

  /** The first record has no `prev`, the last no `next`. */
  lemma EndsHaveOneNeighbour(podcasts: seq<Podcast>)
    requires |podcasts| > 0 && UniqueIds(podcasts)
    ensures GetAdjacentPodcasts(podcasts, podcasts[0].id).prev == None
    ensures GetAdjacentPodcasts(podcasts, podcasts[|podcasts| - 1].id).next == None
  {
    AdjacentOfFound(podcasts, 0);
    AdjacentOfFound(podcasts, |podcasts| - 1);
  }

  /** Neighbours are related as in the list: the record after `p` has `p` before it. */
  lemma NeighboursAgree(podcasts: seq<Podcast>, i: nat)
    requires i + 1 < |podcasts| && UniqueIds(podcasts)
    ensures GetAdjacentPodcasts(podcasts, podcasts[i].id).next == Some(podcasts[i + 1])
    ensures GetAdjacentPodcasts(podcasts, podcasts[i + 1].id).prev == Some(podcasts[i])
  {
    AdjacentOfFound(podcasts, i);
    AdjacentOfFound(podcasts, i + 1);
  }
}
