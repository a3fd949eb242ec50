/**
 * How well a feedback setting matches the search filters of a query, as a
 * whole percentage.
 */
module CalculationUtils {
  import opened Wrappers
  import opened Strings
  import opened ApiModel

  const PERCENTS_100: int := 100

  /** Search filters carry no null values: they come from HTTP header values. */
  predicate NoNullValues(searchFilters: seq<FeedbackFilter>)
  {
    forall i, j :: 0 <= i < |searchFilters| && 0 <= j < |searchFilters[i].values| ==> searchFilters[i].values[j].Some?
  }

  /** `matchesFilterValue`: some searched value equals some value of the setting's filter, ignoring case. */
  predicate MatchesFilterValue(searchedValues: seq<Option<string>>, settingValues: seq<Option<string>>)
  {
    exists i, j :: 0 <= i < |searchedValues| && 0 <= j < |settingValues|
      && searchedValues[i].Some? && settingValues[j].Some?
      && EqualsIgnoreCase(searchedValues[i].value, settingValues[j].value)
  }

  /** The setting has a filter under the search filter's key (ignoring case). */
  predicate HasFilterFor(key: string, settingFilters: seq<FeedbackFilter>)
  {
    exists k :: 0 <= k < |settingFilters| && EqualsIgnoreCase(key, settingFilters[k].key)
  }

  /**
   * `matchesFilterForSetting`: a search filter matches when the setting does not
   * filter on its key at all, or when a setting filter with that key shares a value.
   */
  predicate MatchesFilterForSetting(searchFilter: FeedbackFilter, settingFilters: seq<FeedbackFilter>)
  {
    !HasFilterFor(searchFilter.key, settingFilters)
    || exists k :: 0 <= k < |settingFilters| && EqualsIgnoreCase(searchFilter.key, settingFilters[k].key)
         && MatchesFilterValue(searchFilter.values, settingFilters[k].values)
  }

  /** How many of the search filters the setting matches. */
  function MatchCount(searchFilters: seq<FeedbackFilter>, settingFilters: seq<FeedbackFilter>): nat
  {
    if searchFilters == [] then 0
    else
      var last := searchFilters[|searchFilters| - 1];
      MatchCount(searchFilters[..|searchFilters| - 1], settingFilters)
        + (if MatchesFilterForSetting(last, settingFilters) then 1 else 0)
  }

  lemma {:induction false} MatchCountAtMostSize(searchFilters: seq<FeedbackFilter>, settingFilters: seq<FeedbackFilter>)
    ensures MatchCount(searchFilters, settingFilters) <= |searchFilters|
  {
    if searchFilters != [] {
      MatchCountAtMostSize(searchFilters[..|searchFilters| - 1], settingFilters);
    }
  }

  /** The count is the number of search filters exactly when every one of them matches. */
  lemma {:induction false} MatchCountAllMatch(searchFilters: seq<FeedbackFilter>, settingFilters: seq<FeedbackFilter>)
    ensures MatchCount(searchFilters, settingFilters) == |searchFilters|
            <==> forall i :: 0 <= i < |searchFilters| ==> MatchesFilterForSetting(searchFilters[i], settingFilters)
  {
    if searchFilters != [] {
      var init := searchFilters[..|searchFilters| - 1];
      MatchCountAllMatch(init, settingFilters);
      MatchCountAtMostSize(init, settingFilters);
      assert forall i :: 0 <= i < |init| ==> init[i] == searchFilters[i];
    }
  }

  /**
   * `Math.round(100f * matching / total)` with exact arithmetic: the quotient
   * rounded to the nearest whole number, halves rounded up.
   */
  function PercentOf(matching: nat, total: nat): (r: int)
    requires total > 0
    ensures 2 * total * r <= 2 * PERCENTS_100 * matching + total < 2 * total * (r + 1)
  {
    (2 * PERCENTS_100 * matching + total) / (2 * total)
  }

  /** A share of at most the whole is between 0 and 100 percent, and the whole is 100. */
  lemma PercentOfBounds(matching: nat, total: nat)
    requires 0 < total && matching <= total
    ensures 0 <= PercentOf(matching, total) <= PERCENTS_100
    ensures matching == total ==> PercentOf(matching, total) == PERCENTS_100
  {
    var q := PercentOf(matching, total);
    var t, n := 2 * total, 2 * PERCENTS_100 * matching + total;
    assert t * q <= n < t * (q + 1);
    assert 0 < n <= 201 * total;
    if q < 0 {
      MulNonPositive(t, q + 1);
      assert false;
    }
    if q > PERCENTS_100 {
      MulMonotonic(t, PERCENTS_100 + 1, q);
      assert false;
    }
    if matching == total && q < PERCENTS_100 {
      MulMonotonic(t, q + 1, PERCENTS_100);
      assert false;
    }
  }

  lemma MulNonPositive(a: nat, b: int)
    requires b <= 0
    ensures a * b <= 0
  {
  }

  lemma MulMonotonic(a: nat, b: int, c: int)
    requires b <= c
    ensures a * b <= a * c
  {
  }

  /**
   * Rounding at work: 2 of 3 criteria give 67, and 199 of 200 criteria round
   * up to a full 100 although one search filter did not match.
   */
  lemma PercentOfExamples()
    ensures PercentOf(2, 3) == 67
    ensures PercentOf(1, 2) == 50
    ensures PercentOf(199, 200) == PERCENTS_100
  {
  }

  /**
   * The matching percentage of a setting: the always-matching person and
   * organization criterion plus each matched search filter, out of the number
   * of search filters plus one.
   */
  function MatchPercentage(searchFilters: seq<FeedbackFilter>, settingFilters: seq<FeedbackFilter>): int
  {
    PercentOf(1 + MatchCount(searchFilters, settingFilters), |searchFilters| + 1)
  }

  /**
   * `calculateMatchPercentage`: a null filter list leaves the setting as it is;
   * otherwise the matching filters are counted one by one and the setting gets
   * the rounded percentage.
   */
  method CalculateMatchPercentage(searchFilters: Option<seq<FeedbackFilter>>, setting: WeightedFeedbackSetting)
    returns (updated: WeightedFeedbackSetting)
    requires searchFilters.Some? ==> NoNullValues(searchFilters.value)
    ensures searchFilters.None? ==> updated == setting
    ensures searchFilters.Some? ==>
      updated == setting.(matchingPercent := MatchPercentage(searchFilters.value, setting.setting.filters))
  {
    if searchFilters.None? {
      return setting;
    }
    var filters := searchFilters.value;
    var matchingFilters := 1;
    var i := 0;
    while i < |filters|
      invariant 0 <= i <= |filters|
      invariant matchingFilters == 1 + MatchCount(filters[..i], setting.setting.filters)
    {
      assert filters[..i + 1][..i] == filters[..i];
      matchingFilters := matchingFilters + (if MatchesFilterForSetting(filters[i], setting.setting.filters) then 1 else 0);
      i := i + 1;
    }
    assert filters[..i] == filters;
    var total := |filters| + 1;
    updated := setting.(matchingPercent := (2 * PERCENTS_100 * matchingFilters + total) / (2 * total));
  }

  /** The percentage always lies between 0 and 100, and it is 100 when every search filter matches. */
  lemma MatchPercentageBounds(searchFilters: seq<FeedbackFilter>, settingFilters: seq<FeedbackFilter>)
    ensures 0 <= MatchPercentage(searchFilters, settingFilters) <= PERCENTS_100
    ensures (forall i :: 0 <= i < |searchFilters| ==> MatchesFilterForSetting(searchFilters[i], settingFilters))
            ==> MatchPercentage(searchFilters, settingFilters) == PERCENTS_100
  {
    MatchCountAtMostSize(searchFilters, settingFilters);
    MatchCountAllMatch(searchFilters, settingFilters);
    PercentOfBounds(1 + MatchCount(searchFilters, settingFilters), |searchFilters| + 1);
  }

  /** With no search filters the setting matches 100 percent, whatever its own filters. */
  lemma NoSearchFiltersIsFullMatch(settingFilters: seq<FeedbackFilter>)
    ensures MatchPercentage([], settingFilters) == PERCENTS_100
  {
  }

  /** A search filter on a key the setting does not filter on always matches. */
  lemma UnknownKeyMatches(searchFilter: FeedbackFilter, settingFilters: seq<FeedbackFilter>)
    requires forall k :: 0 <= k < |settingFilters| ==> !EqualsIgnoreCase(searchFilter.key, settingFilters[k].key)
    ensures MatchesFilterForSetting(searchFilter, settingFilters)
  {
  }

  /** Setting filters whose keys no search filter names do not change the percentage. */
  lemma {:induction false} UnsearchedFiltersIgnored(searchFilters: seq<FeedbackFilter>, settingFilters: seq<FeedbackFilter>,
                                                    extra: seq<FeedbackFilter>)
    requires forall i, k :: 0 <= i < |searchFilters| && 0 <= k < |extra| ==> !EqualsIgnoreCase(searchFilters[i].key, extra[k].key)
    ensures MatchCount(searchFilters, settingFilters + extra) == MatchCount(searchFilters, settingFilters)
    ensures MatchPercentage(searchFilters, settingFilters + extra) == MatchPercentage(searchFilters, settingFilters)
  {
    if searchFilters != [] {
      var init, last := searchFilters[..|searchFilters| - 1], searchFilters[|searchFilters| - 1];
      UnsearchedFiltersIgnored(init, settingFilters, extra);
      var all := settingFilters + extra;
      assert forall k :: 0 <= k < |settingFilters| ==> all[k] == settingFilters[k];
      assert forall k :: |settingFilters| <= k < |all| ==> all[k] == extra[k - |settingFilters|];
      assert HasFilterFor(last.key, all) <==> HasFilterFor(last.key, settingFilters);
      assert MatchesFilterForSetting(last, all) <==> MatchesFilterForSetting(last, settingFilters);
    }
  }

  /** Two search filters of which the setting matches one: 2 of 3 criteria, 67 percent. */
  lemma TwoFiltersOneMatchedExample()
    ensures var setting := [FeedbackFilter("key1", [Some("value")]), FeedbackFilter("key2", [Some("noMatch")])];
      var search := [FeedbackFilter("key1", [Some("value")]), FeedbackFilter("key2", [Some("value")])];
      MatchPercentage(search, setting) == 67
  {
    PercentOfExamples();
    var setting := [FeedbackFilter("key1", [Some("value")]), FeedbackFilter("key2", [Some("noMatch")])];
    var search := [FeedbackFilter("key1", [Some("value")]), FeedbackFilter("key2", [Some("value")])];
    assert EqualsIgnoreCase("key1", setting[0].key);
    assert MatchesFilterValue(search[0].values, setting[0].values) by {
      assert EqualsIgnoreCase(search[0].values[0].value, setting[0].values[0].value);
    }
    assert MatchesFilterForSetting(search[0], setting);
    assert !EqualsIgnoreCase("key2", "key1") by {
      assert ToLower("key2")[3] != ToLower("key1")[3];
    }
    assert HasFilterFor("key2", setting) by {
      assert EqualsIgnoreCase("key2", setting[1].key);
    }
    assert !MatchesFilterValue(search[1].values, setting[1].values) by {
      assert |ToLower("value")| != |ToLower("noMatch")|;
    }
    assert !MatchesFilterForSetting(search[1], setting);
    assert search[..1] == [search[0]];
    assert MatchCount(search, setting) == 1;
  }
}
