/**
 * The few `java.util.stream` and `java.util.List` operations the service uses,
 * as functions over sequences: `filter`, `distinct().count()` and
 * `List.removeAll`.
 */
module Sequences {
  import opened Wrappers

  /** `stream().filter(p).toList()`: the elements satisfying `p`, in order. */
  function Filter<T>(s: seq<T>, p: T -> bool): (r: seq<T>)
    ensures |r| <= |s|
    ensures forall i :: 0 <= i < |r| ==> r[i] in s && p(r[i])
    ensures forall i :: 0 <= i < |s| && p(s[i]) ==> s[i] in r
  {
    if s == [] then [] else (if p(s[0]) then [s[0]] else []) + Filter(s[1..], p)
  }

  lemma {:induction false} FilterConcat<T>(a: seq<T>, b: seq<T>, p: T -> bool)
    ensures Filter(a + b, p) == Filter(a, p) + Filter(b, p)
  {
    if a == [] {
      assert a + b == b;
    } else {
      assert (a + b)[0] == a[0] && (a + b)[1..] == a[1..] + b;
      FilterConcat(a[1..], b, p);
      var head := if p(a[0]) then [a[0]] else [];
      calc {
        Filter(a + b, p);
        head + Filter(a[1..] + b, p);
        head + (Filter(a[1..], p) + Filter(b, p));
        (head + Filter(a[1..], p)) + Filter(b, p);
      }
    }
  }

  /** A relation that holds between every earlier and later element still holds after filtering. */
  lemma {:induction false} FilterPairwise<T>(s: seq<T>, p: T -> bool, rel: (T, T) -> bool)
    requires forall i, j :: 0 <= i < j < |s| ==> rel(s[i], s[j])
    ensures forall i, j :: 0 <= i < j < |Filter(s, p)| ==> rel(Filter(s, p)[i], Filter(s, p)[j])
  {
    if s != [] {
      var tail := s[1..];
      assert forall i, j :: 0 <= i < j < |tail| ==> rel(tail[i], tail[j]) by {
        forall i, j | 0 <= i < j < |tail| ensures rel(tail[i], tail[j]) {
          assert tail[i] == s[i + 1] && tail[j] == s[j + 1];
        }
      }
      FilterPairwise(tail, p, rel);
      var r, rest := Filter(s, p), Filter(tail, p);
      if p(s[0]) {
        assert r == [s[0]] + rest;
        forall j | 0 <= j < |rest| ensures rel(s[0], rest[j]) {
          var k :| 0 <= k < |tail| && tail[k] == rest[j];
          assert s[k + 1] == tail[k];
        }
        forall i, j | 0 <= i < j < |r| ensures rel(r[i], r[j]) {
          if i > 0 {
            assert r[i] == rest[i - 1] && r[j] == rest[j - 1];
          } else {
            assert r[j] == rest[j - 1];
          }
        }
      } else {
        assert r == rest;
      }
    }
  }

  /** Filtering keeps everything when every element passes. */
  lemma {:induction false} FilterAll<T>(s: seq<T>, p: T -> bool)
    requires forall x :: x in s ==> p(x)
    ensures Filter(s, p) == s
  {
    if s != [] {
      FilterAll(s[1..], p);
    }
  }

  /** Filtering keeps nothing when no element passes. */
  lemma FilterNone<T>(s: seq<T>, p: T -> bool)
    requires forall x :: x in s ==> !p(x)
    ensures Filter(s, p) == []
  {
  }

  /** Two predicates that agree on the elements filter alike. */
  lemma {:induction false} FilterCongruent<T>(s: seq<T>, p: T -> bool, q: T -> bool)
    requires forall x :: x in s ==> (p(x) <==> q(x))
    ensures Filter(s, p) == Filter(s, q)
  {
    if s != [] {
      FilterCongruent(s[1..], p, q);
    }
  }

  /** The test `removeAll` applies to each element: not equal to any of `removed`. */
  function NotIn<T(==)>(removed: seq<T>): T -> bool
  {
    x => x !in removed
  }

  /** `List.removeAll(removed)`: drops every element equal to one in `removed`. */
  function RemoveAll<T(==)>(s: seq<T>, removed: seq<T>): (r: seq<T>)
    ensures forall i :: 0 <= i < |r| ==> r[i] in s && r[i] !in removed
    ensures forall i :: 0 <= i < |s| && s[i] !in removed ==> s[i] in r
  {
    Filter(s, NotIn(removed))
  }

  /** No element occurs twice. */
  predicate NoDuplicates<T(==)>(s: seq<T>)
  {
    forall i, j :: 0 <= i < j < |s| ==> s[i] != s[j]
  }

  /** `stream().distinct()`: the first occurrence of each element, in order. */
  function Distinct<T(==,!new)>(s: seq<T>): (r: seq<T>)
    ensures forall x :: x in r <==> x in s
  {
    if s == [] then []
    else
      var d := Distinct(s[..|s| - 1]);
      assert forall i :: 0 <= i < |s| - 1 ==> s[i] == s[..|s| - 1][i];
      if s[|s| - 1] in d then d else d + [s[|s| - 1]]
  }

  lemma {:induction false} DistinctNoDuplicates<T(!new)>(s: seq<T>)
    ensures NoDuplicates(Distinct(s))
  {
    if s != [] {
      DistinctNoDuplicates(s[..|s| - 1]);
    }
  }

  lemma {:induction false} DistinctShorter<T(!new)>(s: seq<T>)
    ensures |Distinct(s)| <= |s|
  {
    if s != [] {
      DistinctShorter(s[..|s| - 1]);
    }
  }

  /**
   * `distinct().count() == size()` exactly when no element occurs twice: the
   * test each uniqueness validator performs.
   */
  lemma {:induction false} DistinctCountIsSize<T(!new)>(s: seq<T>)
    ensures |Distinct(s)| == |s| <==> NoDuplicates(s)
  {
    if s != [] {
      var init, last := s[..|s| - 1], s[|s| - 1];
      DistinctCountIsSize(init);
      DistinctShorter(init);
      if last in init {
        var k :| 0 <= k < |init| && init[k] == last;
        assert s[k] == s[|s| - 1];
      } else {
        assert NoDuplicates(s) <==> NoDuplicates(init) by {
          if NoDuplicates(init) {
            forall i, j | 0 <= i < j < |s| ensures s[i] != s[j] {
              if j == |s| - 1 {
                assert s[i] in init;
              } else {
                assert s[i] == init[i] && s[j] == init[j];
              }
            }
          }
          if NoDuplicates(s) {
            forall i, j | 0 <= i < j < |init| ensures init[i] != init[j] {
              assert s[i] == init[i] && s[j] == init[j];
            }
          }
        }
      }
    }
  }

  /** Appending copies of a new element to a list adds that element once to its distinct elements. */
  lemma {:induction false} DistinctAppendRepeated<T(!new)>(a: seq<T>, ks: seq<T>, k: T)
    requires |ks| > 0 && (forall i :: 0 <= i < |ks| ==> ks[i] == k) && k !in a
    ensures Distinct(a + ks) == Distinct(a) + [k]
  {
    var s := a + ks;
    if |ks| == 1 {
      assert s[..|s| - 1] == a;
    } else {
      assert s[..|s| - 1] == a + ks[..|ks| - 1];
      DistinctAppendRepeated(a, ks[..|ks| - 1], k);
      assert Distinct(s[..|s| - 1])[|Distinct(a)|] == k;
    }
  }

  /** `filter(Objects::nonNull)`: the present values, in order. */
  function Somes<U>(s: seq<Option<U>>): (r: seq<U>)
    ensures |r| <= |s|
  {
    if s == [] then []
    else Somes(s[..|s| - 1]) + (if s[|s| - 1].Some? then [s[|s| - 1].value] else [])
  }

  /**
   * `filter(Objects::nonNull)` keeps the order: the present value at `i` is
   * entry number (present values before `i`) of the result.
   */
  lemma {:induction false} SomesInOrder<U>(s: seq<Option<U>>, i: int)
    requires 0 <= i < |s| && s[i].Some?
    ensures |Somes(s[..i])| < |Somes(s)| && Somes(s)[|Somes(s[..i])|] == s[i].value
  {
    var init := s[..|s| - 1];
    if i < |init| {
      SomesInOrder(init, i);
      assert init[..i] == s[..i];
    } else {
      assert s[..i] == init;
    }
  }

  /** `map(g)`: `g` applied to every element, in order. */
  function MapSeq<U, V>(s: seq<U>, g: U -> V): (r: seq<V>)
    ensures |r| == |s| && forall i :: 0 <= i < |s| ==> r[i] == g(s[i])
  {
    seq(|s|, i requires 0 <= i < |s| => g(s[i]))
  }

  lemma MapSeqSnoc<U, V>(s: seq<U>, x: U, g: U -> V)
    ensures MapSeq(s + [x], g) == MapSeq(s, g) + [g(x)]
  {
  }

  /** An image of a present value is an image of some present entry. */
  lemma {:induction false} SomesMapMembership<U, V>(s: seq<Option<U>>, g: U -> V, y: V)
    ensures y in MapSeq(Somes(s), g) <==> exists i :: 0 <= i < |s| && s[i].Some? && g(s[i].value) == y
  {
    if s != [] {
      var init := s[..|s| - 1];
      SomesMapMembership(init, g, y);
      assert forall i :: 0 <= i < |init| ==> init[i] == s[i];
      var last := s[|s| - 1];
      var tail := if last.Some? then [last.value] else [];
      assert MapSeq(Somes(s), g) == MapSeq(Somes(init), g) + MapSeq(tail, g);
      if y in MapSeq(Somes(s), g) && y !in MapSeq(Somes(init), g) {
        assert last.Some? && g(last.value) == y;
        assert s[|s| - 1].Some? && g(s[|s| - 1].value) == y;
      }
      if i :| 0 <= i < |s| && s[i].Some? && g(s[i].value) == y {
        if i == |s| - 1 {
          assert MapSeq(tail, g) == [y];
        } else {
          assert init[i].Some? && g(init[i].value) == y;
        }
      }
    }
  }

  lemma NoDuplicatesSnoc<V>(a: seq<V>, y: V)
    ensures NoDuplicates(a + [y]) <==> NoDuplicates(a) && y !in a
  {
    var b := a + [y];
    if NoDuplicates(a) && y !in a {
      forall i, j | 0 <= i < j < |b| ensures b[i] != b[j] {
        if j == |a| {
          assert b[i] == a[i];
        } else {
          assert b[i] == a[i] && b[j] == a[j];
        }
      }
    }
    if NoDuplicates(b) {
      forall i, j | 0 <= i < j < |a| ensures a[i] != a[j] {
        assert b[i] == a[i] && b[j] == a[j];
      }
      assert forall i :: 0 <= i < |a| ==> a[i] == b[i] && b[i] != b[|a|];
    }
  }

  /**
   * Counting the distinct images of the present parts equals counting all of
   * them exactly when no two elements with a present part have the same image.
   */
  lemma DistinctCountOfPresent<T, U, V(!new)>(s: seq<T>, part: T -> Option<U>, g: U -> V)
    ensures var images := MapSeq(Somes(MapSeq(s, part)), g);
      |Distinct(images)| == |images|
      <==> forall i, j :: 0 <= i < j < |s| && part(s[i]).Some? && part(s[j]).Some? ==> g(part(s[i]).value) != g(part(s[j]).value)
  {
    var parts := MapSeq(s, part);
    DistinctCountIsSize(MapSeq(Somes(parts), g));
    NoDuplicatesSomes(parts, g);
    assert forall i :: 0 <= i < |s| ==> parts[i] == part(s[i]);
  }

  /** The same without a mapping of the present parts. */
  lemma DistinctCountOfPresentParts<T, U(!new)>(s: seq<T>, part: T -> Option<U>)
    ensures var present := Somes(MapSeq(s, part));
      |Distinct(present)| == |present|
      <==> forall i, j :: 0 <= i < j < |s| && part(s[i]).Some? && part(s[j]).Some? ==> part(s[i]).value != part(s[j]).value
  {
    var present := Somes(MapSeq(s, part));
    var same := (u: U) => u;
    assert MapSeq(present, same) == present;
    DistinctCountOfPresent(s, part, same);
  }

  /**
   * The images of the present values are pairwise different exactly when no
   * two present entries have the same image.
   */
  lemma {:induction false} NoDuplicatesSomes<U, V>(s: seq<Option<U>>, g: U -> V)
    ensures NoDuplicates(MapSeq(Somes(s), g))
            <==> forall i, j :: 0 <= i < j < |s| && s[i].Some? && s[j].Some? ==> g(s[i].value) != g(s[j].value)
  {
    if s != [] {
      var init, last := s[..|s| - 1], s[|s| - 1];
      NoDuplicatesSomes(init, g);
      assert forall i :: 0 <= i < |init| ==> init[i] == s[i];
      var before := MapSeq(Somes(init), g);
      if last.Some? {
        var y := g(last.value);
        assert Somes(s) == Somes(init) + [last.value];
        MapSeqSnoc(Somes(init), last.value, g);
        NoDuplicatesSnoc(before, y);
        SomesMapMembership(init, g, y);
        assert (forall i, j :: 0 <= i < j < |s| && s[i].Some? && s[j].Some? ==> g(s[i].value) != g(s[j].value))
               <==> (forall i, j :: 0 <= i < j < |init| && init[i].Some? && init[j].Some? ==> g(init[i].value) != g(init[j].value))
                    && (forall i :: 0 <= i < |init| && init[i].Some? ==> g(init[i].value) != y);
      } else {
        assert Somes(s) == Somes(init);
      }
    }
  }
}
