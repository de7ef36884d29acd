/**
 * The final ordering of the article list: a stable sort by date code, newest
 * first (`podcasts.sort((a, b) => b.dateCode.localeCompare(a.dateCode))` in
 * src/lib/feishu.ts, `podcasts.sort(key=..., reverse=True)` in build.py). Codes
 * are compared character by character; the library sort is modelled as a stable
 * insertion sort, the order both sorts are documented to produce.
 */
module Ordering {
  import opened Types

  /** Lexicographic order on strings: `a` is a prefix of `b` or smaller at the first difference. */
  predicate LexLe(a: string, b: string) {
    a == [] || (b != [] && (a[0] < b[0] || (a[0] == b[0] && LexLe(a[1..], b[1..]))))
  }

  lemma {:induction false} LexLeTotal(a: string, b: string)
    ensures LexLe(a, b) || LexLe(b, a)
  {
    if a != [] && b != [] && a[0] == b[0] {
      LexLeTotal(a[1..], b[1..]);
    }
  }

  lemma {:induction false} LexLeTransitive(a: string, b: string, c: string)
    requires LexLe(a, b) && LexLe(b, c)
    ensures LexLe(a, c)
  {
    if a != [] && a[0] == b[0] && b[0] == c[0] {
      LexLeTransitive(a[1..], b[1..], c[1..]);
    }
  }

  lemma {:induction false} LexLeAntisymmetric(a: string, b: string)
    requires LexLe(a, b) && LexLe(b, a)
    ensures a == b
  {
    if a != [] {
      LexLeAntisymmetric(a[1..], b[1..]);
      assert a == [a[0]] + a[1..];
      assert b == [b[0]] + b[1..];
    }
  }

  /** The empty code is below every other. */
  lemma EmptyIsLeast(a: string)
    ensures LexLe([], a)
  {
  }

  /** Newest first: every code is at least every later one. */
  predicate SortedDesc(s: seq<Podcast>) {
    forall i, j :: 0 <= i < j < |s| ==> LexLe(s[j].dateCode, s[i].dateCode)
  }

  /** The records with date code `k`, in order. */
  function WithCode(s: seq<Podcast>, k: string): seq<Podcast> {
    if s == [] then []
    else WithCode(s[..|s| - 1], k) + (if s[|s| - 1].dateCode == k then [s[|s| - 1]] else [])
  }

  /**
   * Insert `x` into a list sorted newest first, after every record whose code
   * is not below its own.
   */
  function Insert(s: seq<Podcast>, x: Podcast): seq<Podcast> {
    if s == [] then [x]
    else if !LexLe(x.dateCode, s[0].dateCode) then [x] + s
    else [s[0]] + Insert(s[1..], x)
  }

  /** The sorted list: every record inserted in input order. */
  function SortByDateCode(s: seq<Podcast>): seq<Podcast> {
    if s == [] then [] else Insert(SortByDateCode(s[..|s| - 1]), s[|s| - 1])
  }

  lemma {:induction false} InsertPermutes(s: seq<Podcast>, x: Podcast)
    ensures multiset(Insert(s, x)) == multiset(s) + multiset{x}
    ensures |Insert(s, x)| == |s| + 1
  {
    if s != [] && LexLe(x.dateCode, s[0].dateCode) {
      InsertPermutes(s[1..], x);
      assert s == [s[0]] + s[1..];
    }
  }

  lemma {:induction false} InsertSorted(s: seq<Podcast>, x: Podcast)
    requires SortedDesc(s)
    ensures SortedDesc(Insert(s, x))
  {
    if s == [] {
    } else if !LexLe(x.dateCode, s[0].dateCode) {
      LexLeTotal(x.dateCode, s[0].dateCode);
      var r := [x] + s;
      forall i, j | 0 <= i < j < |r| ensures LexLe(r[j].dateCode, r[i].dateCode) {
        if i == 0 && j > 1 {
          LexLeTransitive(r[j].dateCode, s[0].dateCode, x.dateCode);
        }
      }
    } else {
      var t := s[1..];
      InsertSorted(t, x);
      InsertPermutes(t, x);
      var u := Insert(t, x);
      var r := [s[0]] + u;
      forall i, j | 0 <= i < j < |r| ensures LexLe(r[j].dateCode, r[i].dateCode) {
        if i == 0 {
          assert r[j] in multiset(u);
          assert r[j] in multiset(t) + multiset{x};
          if r[j] != x {
            var k :| 0 <= k < |t| && t[k] == r[j];
            assert s[k + 1] == r[j];
          }
        }
      }
    }
  }

  lemma {:induction false} LexLeReflexive(a: string)
    ensures LexLe(a, a)
  {
    if a != [] {
      LexLeReflexive(a[1..]);
    }
  }

  lemma SortedInit(s: seq<Podcast>)
    requires SortedDesc(s) && s != []
    ensures SortedDesc(s[..|s| - 1])
  {
    var init := s[..|s| - 1];
    forall i, j | 0 <= i < j < |init| ensures LexLe(init[j].dateCode, init[i].dateCode) {
      assert init[i] == s[i] && init[j] == s[j];
    }
  }

  lemma SortedTail(s: seq<Podcast>)
    requires SortedDesc(s) && s != []
    ensures SortedDesc(s[1..])
  {
    var t := s[1..];
    forall i, j | 0 <= i < j < |t| ensures LexLe(t[j].dateCode, t[i].dateCode) {
      assert t[i] == s[i + 1] && t[j] == s[j + 1];
    }
  }

  /** In a list sorted newest first whose head is below `c`, no record has code `c`. */
  lemma {:induction false} NoneWithHigherCode(s: seq<Podcast>, c: string)
    requires SortedDesc(s) && s != [] && !LexLe(c, s[0].dateCode)
    ensures WithCode(s, c) == []
  {
    var init := s[..|s| - 1];
    if |init| > 0 {
      SortedInit(s);
      assert init[0] == s[0];
      NoneWithHigherCode(init, c);
      assert LexLe(s[|s| - 1].dateCode, s[0].dateCode);
    } else {
      LexLeReflexive(c);
    }
    assert s[|s| - 1].dateCode != c;
  }

  lemma {:induction false} WithCodeConcat(a: seq<Podcast>, b: seq<Podcast>, k: string)
    ensures WithCode(a + b, k) == WithCode(a, k) + WithCode(b, k)
  {
    if b == [] {
      assert a + b == a;
    } else {
      var init := b[..|b| - 1];
      assert (a + b)[..|a + b| - 1] == a + init;
      WithCodeConcat(a, init, k);
    }
  }

  lemma WithCodeSingle(x: Podcast, k: string)
    ensures WithCode([x], k) == if x.dateCode == k then [x] else []
  {
    assert [x][..0] == [];
  }

  lemma InsertFrontStable(s: seq<Podcast>, x: Podcast, k: string)
    requires SortedDesc(s) && s != [] && !LexLe(x.dateCode, s[0].dateCode)
    ensures WithCode([x] + s, k) == WithCode(s, k) + (if x.dateCode == k then [x] else [])
  {
    WithCodeSingle(x, k);
    WithCodeConcat([x], s, k);
    if x.dateCode == k {
      NoneWithHigherCode(s, k);
    }
  }

  lemma InsertLaterStable(s: seq<Podcast>, x: Podcast, k: string, u: seq<Podcast>)
    requires s != []
    requires WithCode(u, k) == WithCode(s[1..], k) + (if x.dateCode == k then [x] else [])
    ensures WithCode([s[0]] + u, k) == WithCode(s, k) + (if x.dateCode == k then [x] else [])
  {
    WithCodeConcat([s[0]], u, k);
    WithCodeConcat([s[0]], s[1..], k);
    assert s == [s[0]] + s[1..];
  }

  /** `x` lands after every record sharing its code; the others keep their relative order. */
  lemma {:induction false} InsertStable(s: seq<Podcast>, x: Podcast, k: string)
    requires SortedDesc(s)
    ensures WithCode(Insert(s, x), k) == WithCode(s, k) + (if x.dateCode == k then [x] else [])
  {
    if s == [] {
      WithCodeSingle(x, k);
    } else if !LexLe(x.dateCode, s[0].dateCode) {
      InsertFrontStable(s, x, k);
    } else {
      SortedTail(s);
      InsertStable(s[1..], x, k);
      InsertLaterStable(s, x, k, Insert(s[1..], x));
    }
  }

  /**
   * The sort returns a permutation of its input, newest first, and is stable:
   * the records sharing any one date code keep their input order.
   */
  lemma {:induction false} SortCorrect(s: seq<Podcast>)
    ensures SortedDesc(SortByDateCode(s))
    ensures multiset(SortByDateCode(s)) == multiset(s)
    ensures forall k :: WithCode(SortByDateCode(s), k) == WithCode(s, k)
  {
    if s != [] {
      var init, last := s[..|s| - 1], s[|s| - 1];
      SortCorrect(init);
      var r := SortByDateCode(init);
      InsertSorted(r, last);
      InsertPermutes(r, last);
      assert s == init + [last];
      forall k ensures WithCode(SortByDateCode(s), k) == WithCode(s, k) {
        InsertStable(r, last, k);
      }
    }
  }

  /** Records without a date code come after all records with one. */
  lemma EmptyCodesLast(s: seq<Podcast>)
    requires SortedDesc(s)
    ensures forall i, j :: 0 <= i < j < |s| && s[i].dateCode == [] ==> s[j].dateCode == []
  {
    forall i, j | 0 <= i < j < |s| && s[i].dateCode == [] ensures s[j].dateCode == [] {
      EmptyIsLeast(s[j].dateCode);
      LexLeAntisymmetric(s[j].dateCode, []);
    }
  }
}
