/**
 * Header values collected into a `TreeSet` built with a comparator
 * (`String.CASE_INSENSITIVE_ORDER`): one element per comparator class, the
 * first one added, in comparator order.
 */
module DistinctValues {
  import opened Strings

  /** Two values the comparator cannot tell apart (`compare(a, b) == 0`). */
  predicate Same(less: (string, string) -> bool, a: string, b: string)
  {
    !less(a, b) && !less(b, a)
  }

  /** What a `TreeSet` comparator must be: irreflexive, transitive, with a transitive "same". */
  ghost predicate StrictWeakOrder(less: (string, string) -> bool)
  {
    (forall a :: !less(a, a))
    && (forall a, b, c :: less(a, b) && less(b, c) ==> less(a, c))
    && (forall a, b, c :: Same(less, a, b) && Same(less, b, c) ==> Same(less, a, c))
  }

  /** Strictly increasing, hence no two elements the same. */
  predicate StrictlySorted(s: seq<string>, less: (string, string) -> bool)
  {
    forall i, j :: 0 <= i < j < |s| ==> less(s[i], s[j])
  }

  /** Some element is the same as `x`. */
  predicate ContainsSame(s: seq<string>, x: string, less: (string, string) -> bool)
  {
    exists i :: 0 <= i < |s| && Same(less, s[i], x)
  }

  /** `x` occurs in `values` before anything the same as it. */
  predicate FirstOfItsClass(values: seq<string>, x: string, less: (string, string) -> bool)
  {
    exists i :: 0 <= i < |values| && values[i] == x
      && forall j :: 0 <= j < i ==> !Same(less, values[j], x)
  }

  /** `TreeSet.add`: no change when the same value is present, else `x` inserted in order. */
  function TreeAdd(s: seq<string>, x: string, less: (string, string) -> bool): seq<string>
  {
    if s == [] then [x]
    else if Same(less, s[0], x) then s
    else if less(x, s[0]) then [x] + s
    else [s[0]] + TreeAdd(s[1..], x, less)
  }

  lemma SameTransitive(less: (string, string) -> bool, a: string, b: string, c: string)
    requires StrictWeakOrder(less)
    ensures Same(less, a, b) && Same(less, b, c) ==> Same(less, a, c)
  {
  }

  /** Adding loses nothing, brings in nothing but `x`, and brings in `x` unless the same value is present. */
  lemma {:induction false} TreeAddElements(s: seq<string>, x: string, less: (string, string) -> bool)
    ensures forall k :: 0 <= k < |TreeAdd(s, x, less)| ==> TreeAdd(s, x, less)[k] in s || TreeAdd(s, x, less)[k] == x
    ensures forall k :: 0 <= k < |s| ==> s[k] in TreeAdd(s, x, less)
    ensures x in TreeAdd(s, x, less) || ContainsSame(s, x, less)
  {
    if s != [] && !Same(less, s[0], x) && !less(x, s[0]) {
      TreeAddElements(s[1..], x, less);
      var r := TreeAdd(s, x, less);
      assert r == [s[0]] + TreeAdd(s[1..], x, less);
      forall k | 0 <= k < |s| ensures s[k] in r {
        if k > 0 {
          assert s[k] == s[1..][k - 1];
        }
      }
      if ContainsSame(s[1..], x, less) {
        var i :| 0 <= i < |s[1..]| && Same(less, s[1..][i], x);
        assert s[i + 1] == s[1..][i];
      }
    }
  }

  lemma TailStrictlySorted(s: seq<string>, less: (string, string) -> bool)
    requires s != [] && StrictlySorted(s, less)
    ensures StrictlySorted(s[1..], less)
    ensures forall k :: 0 <= k < |s[1..]| ==> less(s[0], s[1..][k])
  {
    forall i, j | 0 <= i < j < |s[1..]| ensures less(s[1..][i], s[1..][j]) {
      assert s[1..][i] == s[i + 1] && s[1..][j] == s[j + 1];
    }
    forall k | 0 <= k < |s[1..]| ensures less(s[0], s[1..][k]) {
      assert s[1..][k] == s[k + 1];
    }
  }

  lemma InsertBelowFirst(s: seq<string>, x: string, less: (string, string) -> bool)
    requires StrictWeakOrder(less)
    requires s != [] && StrictlySorted(s, less) && less(x, s[0])
    ensures StrictlySorted([x] + s, less)
    ensures !ContainsSame(s, x, less)
  {
    var r := [x] + s;
    forall i, j | 0 <= i < j < |r| ensures less(r[i], r[j]) {
      if i == 0 && j > 1 {
        assert less(s[0], s[j - 1]);
      }
    }
    forall i | 0 <= i < |s| ensures !Same(less, s[i], x) {
      if i > 0 {
        assert less(s[0], s[i]);
      }
    }
  }

  /** A value below everything in a sorted list can head it. */
  lemma SortedCons(head: string, rest: seq<string>, less: (string, string) -> bool)
    requires StrictlySorted(rest, less)
    requires forall k :: 0 <= k < |rest| ==> less(head, rest[k])
    ensures StrictlySorted([head] + rest, less)
  {
    var r := [head] + rest;
    forall i, j | 0 <= i < j < |r| ensures less(r[i], r[j]) {
      assert r[j] == rest[j - 1];
      if i > 0 {
        assert r[i] == rest[i - 1];
      }
    }
  }

  lemma InsertAfterFirst(s: seq<string>, x: string, rest: seq<string>, less: (string, string) -> bool)
    requires s != [] && less(s[0], x)
    requires StrictlySorted(rest, less)
    requires forall k :: 0 <= k < |s[1..]| ==> less(s[0], s[1..][k])
    requires forall k :: 0 <= k < |rest| ==> rest[k] in s[1..] || rest[k] == x
    ensures StrictlySorted([s[0]] + rest, less)
  {
    forall k | 0 <= k < |rest| ensures less(s[0], rest[k]) {
      if rest[k] != x {
        var m :| 0 <= m < |s[1..]| && s[1..][m] == rest[k];
      }
    }
    SortedCons(s[0], rest, less);
  }

  lemma SameInTail(s: seq<string>, x: string, less: (string, string) -> bool)
    requires s != [] && !Same(less, s[0], x) && ContainsSame(s, x, less)
    ensures ContainsSame(s[1..], x, less)
  {
    var i :| 0 <= i < |s| && Same(less, s[i], x);
    assert s[1..][i - 1] == s[i];
  }

  /** Adding a value above the first element keeps the first element and adds to the rest. */
  lemma AddBeyondFirst(s: seq<string>, x: string, less: (string, string) -> bool)
    requires s != [] && !Same(less, s[0], x) && !less(x, s[0])
    requires StrictlySorted(s, less) && StrictlySorted(TreeAdd(s[1..], x, less), less)
    requires ContainsSame(s[1..], x, less) ==> TreeAdd(s[1..], x, less) == s[1..]
    ensures StrictlySorted(TreeAdd(s, x, less), less)
    ensures ContainsSame(s, x, less) ==> TreeAdd(s, x, less) == s
  {
    TailStrictlySorted(s, less);
    TreeAddElements(s[1..], x, less);
    InsertAfterFirst(s, x, TreeAdd(s[1..], x, less), less);
    if ContainsSame(s, x, less) {
      SameInTail(s, x, less);
      assert s == [s[0]] + s[1..];
    }
  }

  /** Adding keeps the set sorted, and changes nothing when the same value is present. */
  lemma {:induction false} TreeAddSorted(s: seq<string>, x: string, less: (string, string) -> bool)
    requires StrictWeakOrder(less) && StrictlySorted(s, less)
    ensures StrictlySorted(TreeAdd(s, x, less), less)
    ensures ContainsSame(s, x, less) ==> TreeAdd(s, x, less) == s
  {
    if s == [] {
    } else if Same(less, s[0], x) {
    } else if less(x, s[0]) {
      InsertBelowFirst(s, x, less);
    } else {
      TailStrictlySorted(s, less);
      TreeAddSorted(s[1..], x, less);
      AddBeyondFirst(s, x, less);
    }
  }

  /** `new TreeSet<>(comparator)` followed by adding `values` in order, as its contents in order. */
  function TreeSetOf(values: seq<string>, less: (string, string) -> bool): seq<string>
  {
    if values == [] then [] else TreeAdd(TreeSetOf(values[..|values| - 1], less), values[|values| - 1], less)
  }

  lemma FirstOfItsClassExtends(values: seq<string>, x: string, y: string, less: (string, string) -> bool)
    requires FirstOfItsClass(values, x, less)
    ensures FirstOfItsClass(values + [y], x, less)
  {
    var i :| 0 <= i < |values| && values[i] == x && forall j :: 0 <= j < i ==> !Same(less, values[j], x);
    assert (values + [y])[i] == x;
    assert forall j :: 0 <= j < i ==> (values + [y])[j] == values[j];
  }

  /** A value nothing earlier is the same as is the first of its class. */
  lemma FirstIsLastWhenAbsent(init: seq<string>, d: seq<string>, last: string, less: (string, string) -> bool)
    requires StrictWeakOrder(less)
    requires forall i :: 0 <= i < |init| ==> ContainsSame(d, init[i], less)
    requires !ContainsSame(d, last, less)
    ensures FirstOfItsClass(init + [last], last, less)
  {
    var values := init + [last];
    forall j | 0 <= j < |init| ensures !Same(less, values[j], last) {
      assert values[j] == init[j];
      var m :| 0 <= m < |d| && Same(less, d[m], init[j]);
      SameTransitive(less, d[m], init[j], last);
    }
    assert values[|init|] == last;
  }

  /**
   * The set's contents are sorted, every value added is there up to the
   * comparator, and every element there is a value added, namely the first one
   * of its class.
   */
  lemma {:induction false} TreeSetOfProperties(values: seq<string>, less: (string, string) -> bool)
    requires StrictWeakOrder(less)
    ensures StrictlySorted(TreeSetOf(values, less), less)
    ensures forall i :: 0 <= i < |values| ==> ContainsSame(TreeSetOf(values, less), values[i], less)
    ensures forall k :: 0 <= k < |TreeSetOf(values, less)| ==> FirstOfItsClass(values, TreeSetOf(values, less)[k], less)
  {
    if values != [] {
      var init, last := values[..|values| - 1], values[|values| - 1];
      var d := TreeSetOf(init, less);
      TreeSetOfProperties(init, less);
      TreeAddSorted(d, last, less);
      TreeAddElements(d, last, less);
      var r := TreeSetOf(values, less);
      assert r == TreeAdd(d, last, less);
      assert values == init + [last];
      forall i | 0 <= i < |values| ensures ContainsSame(r, values[i], less) {
        if i < |init| {
          assert values[i] == init[i];
          var k :| 0 <= k < |d| && Same(less, d[k], init[i]);
          var m :| 0 <= m < |r| && r[m] == d[k];
        } else if !ContainsSame(d, last, less) {
          var m :| 0 <= m < |r| && r[m] == last;
          assert Same(less, r[m], last);
        }
      }
      forall k | 0 <= k < |r| ensures FirstOfItsClass(values, r[k], less) {
        if r[k] in d {
          var m :| 0 <= m < |d| && d[m] == r[k];
          FirstOfItsClassExtends(init, r[k], last, less);
        } else {
          FirstIsLastWhenAbsent(init, d, last, less);
        }
      }
    }
  }

  /** `CASE_INSENSITIVE_ORDER` is a valid comparator, and finds two strings the same exactly when they are equal ignoring case. */
  lemma CaseInsensitiveOrder()
    ensures StrictWeakOrder(LessIgnoreCase)
    ensures forall a, b :: Same(LessIgnoreCase, a, b) <==> EqualsIgnoreCase(a, b)
  {
    forall a, b ensures Same(LessIgnoreCase, a, b) <==> EqualsIgnoreCase(a, b) {
      LessIgnoreCaseTrichotomy(a, b);
    }
    forall a ensures !LessIgnoreCase(a, a) {
      LexLessIrreflexive(ToLower(a));
    }
    forall a, b, c | LessIgnoreCase(a, b) && LessIgnoreCase(b, c) ensures LessIgnoreCase(a, c) {
      LexLessTransitive(ToLower(a), ToLower(b), ToLower(c));
    }
  }

  /**
   * `getDistictValues`: adds the header values one at a time to an empty
   * case-insensitive tree set and returns its contents: sorted ignoring case,
   * one spelling per value ignoring case, the first spelling given.
   */
  method GetDistinctValues(original: seq<string>) returns (distinct: seq<string>)
    ensures StrictlySorted(distinct, LessIgnoreCase)
    ensures forall i :: 0 <= i < |original| ==> ContainsSame(distinct, original[i], LessIgnoreCase)
    ensures forall k :: 0 <= k < |distinct| ==> FirstOfItsClass(original, distinct[k], LessIgnoreCase)
  {
    distinct := [];
    var i := 0;
    while i < |original|
      invariant 0 <= i <= |original|
      invariant distinct == TreeSetOf(original[..i], LessIgnoreCase)
    {
      assert original[..i + 1][..i] == original[..i];
      distinct := TreeAdd(distinct, original[i], LessIgnoreCase);
      i := i + 1;
    }
    assert original[..i] == original;
    CaseInsensitiveOrder();
    TreeSetOfProperties(original, LessIgnoreCase);
  }

  /** Example: "b", "A", "a", "B" collect to "A", "b". */
  lemma DistinctValuesExample()
    ensures TreeSetOf(["b", "A", "a", "B"], LessIgnoreCase) == ["A", "b"]
  {
    var v := ["b", "A", "a", "B"];
    assert v[..1] == ["b"] && v[..2] == ["b", "A"] && v[..3] == ["b", "A", "a"];
    assert v[..3][..2] == v[..2] && v[..2][..1] == v[..1] && v[..1][..0] == [];
    assert ToLower("A") == "a" && ToLower("a") == "a" && ToLower("b") == "b" && ToLower("B") == "b";
    assert LessIgnoreCase("A", "b") && !LessIgnoreCase("b", "A");
    assert TreeSetOf(v[..1], LessIgnoreCase) == ["b"];
    assert TreeSetOf(v[..2], LessIgnoreCase) == ["A", "b"];
    assert Same(LessIgnoreCase, "A", "a");
    assert TreeSetOf(v[..3], LessIgnoreCase) == ["A", "b"];
    assert LessIgnoreCase("A", "B") && !LessIgnoreCase("B", "A");
    assert Same(LessIgnoreCase, "b", "B");
    assert TreeSetOf(v, LessIgnoreCase) == TreeAdd(TreeSetOf(v[..3], LessIgnoreCase), "B", LessIgnoreCase);
  }
}
