/**
 * Generic sequence helpers: a flat map (each element contributes a sequence,
 * the contributions are joined in order) and the facts about it the model uses.
 */
module Lists {

  /** The contributions of the elements of `s`, joined in order. */
  function FlatMap<T, U>(f: T -> seq<U>, s: seq<T>): seq<U> {
    if s == [] then [] else FlatMap(f, s[..|s| - 1]) + f(s[|s| - 1])
  }

  /** `f` applied to each element of `s`, in order. */
  function Map<T, U>(f: T -> U, s: seq<T>): seq<U> {
    if s == [] then [] else Map(f, s[..|s| - 1]) + [f(s[|s| - 1])]
  }

  lemma MapStep<T, U>(f: T -> U, s: seq<T>, x: T)
    ensures Map(f, s + [x]) == Map(f, s) + [f(x)]
  {
    assert (s + [x])[..|s|] == s;
  }

  /** The map of a longer prefix has one more item. */
  lemma MapPrefix<T, U>(f: T -> U, s: seq<T>, i: nat)
    requires i < |s|
    ensures Map(f, s[..i + 1]) == Map(f, s[..i]) + [f(s[i])]
  {
    assert s[..i + 1] == s[..i] + [s[i]];
    MapStep(f, s[..i], s[i]);
  }

  /** The map of the whole sequence. */
  lemma MapWhole<T, U>(f: T -> U, s: seq<T>)
    ensures Map(f, s[..|s|]) == Map(f, s)
  {
    assert s[..|s|] == s;
  }

  /** The map has one item per element, and item `i` is `f` of element `i`. */
  lemma {:induction false} MapIndex<T, U>(f: T -> U, s: seq<T>)
    ensures |Map(f, s)| == |s|
    ensures forall i :: 0 <= i < |s| ==> Map(f, s)[i] == f(s[i])
  {
    if s != [] {
      MapIndex(f, s[..|s| - 1]);
    }
  }

  lemma AppendAssoc<T>(a: seq<T>, b: seq<T>, c: seq<T>)
    ensures a + (b + c) == (a + b) + c
  {
  }

  /** A sequence is its front followed by its last element. */
  lemma SplitLast<T>(s: seq<T>)
    requires s != []
    ensures s == s[..|s| - 1] + [s[|s| - 1]]
  {
  }

  lemma FlatMapStep<T, U>(f: T -> seq<U>, s: seq<T>, x: T)
    ensures FlatMap(f, s + [x]) == FlatMap(f, s) + f(x)
  {
    assert (s + [x])[..|s|] == s;
  }

  lemma FlatMapSingle<T, U>(f: T -> seq<U>, x: T)
    ensures FlatMap(f, [x]) == f(x)
  {
    FlatMapStep(f, [], x);
    assert [] + [x] == [x];
  }

  /** The flat map of a concatenation is the concatenation of the flat maps. */
  lemma {:induction false} FlatMapAppend<T, U>(f: T -> seq<U>, a: seq<T>, b: seq<T>)
    ensures FlatMap(f, a + b) == FlatMap(f, a) + FlatMap(f, b)
  {
    if b == [] {
      assert a + b == a;
    } else {
      var init, last := b[..|b| - 1], b[|b| - 1];
      assert a + b == (a + init) + [last];
      SplitLast(b);
      FlatMapAppend(f, a, init);
      FlatMapStep(f, a + init, last);
      FlatMapStep(f, init, last);
    }
  }

  /** When every element contributes at most one item, there are at most as many items as elements. */
  lemma {:induction false} FlatMapAtMostOne<T, U>(f: T -> seq<U>, s: seq<T>)
    requires forall x :: |f(x)| <= 1
    ensures |FlatMap(f, s)| <= |s|
  {
    if s != [] {
      FlatMapAtMostOne(f, s[..|s| - 1]);
    }
  }

  /** A property of every contributed item holds of every item of the flat map. */
  lemma {:induction false} FlatMapAll<T, U>(f: T -> seq<U>, s: seq<T>, p: U -> bool)
    requires forall x, k :: 0 <= k < |f(x)| ==> p(f(x)[k])
    ensures forall k :: 0 <= k < |FlatMap(f, s)| ==> p(FlatMap(f, s)[k])
  {
    if s != [] {
      var init, last := s[..|s| - 1], s[|s| - 1];
      FlatMapAll(f, init, p);
      var a, b := FlatMap(f, init), f(last);
      forall k | 0 <= k < |a + b| ensures p((a + b)[k]) {
        if k < |a| {
          assert (a + b)[k] == a[k];
        } else {
          assert (a + b)[k] == b[k - |a|];
        }
      }
    }
  }

  /** Every item of the flat map was contributed by some element. */
  lemma {:induction false} FlatMapOrigin<T, U>(f: T -> seq<U>, s: seq<T>)
    ensures forall k :: 0 <= k < |FlatMap(f, s)| ==>
              exists j :: 0 <= j < |s| && FlatMap(f, s)[k] in f(s[j])
  {
    if s != [] {
      var init, last := s[..|s| - 1], s[|s| - 1];
      FlatMapOrigin(f, init);
      var a, b := FlatMap(f, init), f(last);
      forall k | 0 <= k < |a + b| ensures exists j :: 0 <= j < |s| && (a + b)[k] in f(s[j]) {
        if k < |a| {
          var j :| 0 <= j < |init| && a[k] in f(init[j]);
          assert (a + b)[k] == a[k] && s[j] == init[j];
        } else {
          assert (a + b)[k] == b[k - |a|] && s[|s| - 1] == last;
          assert (a + b)[k] in f(s[|s| - 1]);
        }
      }
      assert FlatMap(f, s) == a + b;
    } else {
      assert FlatMap(f, s) == [];
    }
  }
}
