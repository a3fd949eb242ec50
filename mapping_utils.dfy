/**
 * Reconciliation of a stored list with a requested replacement: which stored
 * elements the request drops and which requested elements are new, where
 * elements are compared by a case-insensitive matching rule.
 */
module MappingUtils {
  import opened Wrappers
  import opened Strings
  import opened Sequences
  import opened FeedbackChannelEmbeddables
  import opened FeedbackSettingEntities

  /** `existsInList`: some element of `list` matches `x` (`eq(element, x)`). */
  predicate ExistsInList<T>(x: T, list: seq<T>, eq: (T, T) -> bool)
  {
    exists i :: 0 <= i < |list| && eq(list[i], x)
  }

  /** The test a stored element passes to be kept: something in `list` matches it. */
  function HasMatchIn<T>(list: seq<T>, eq: (T, T) -> bool): T -> bool
  {
    x => ExistsInList(x, list, eq)
  }

  /** The test an element passes to be removed or added: nothing in `list` matches it. */
  function HasNoMatchIn<T>(list: seq<T>, eq: (T, T) -> bool): T -> bool
  {
    x => !ExistsInList(x, list, eq)
  }

  ghost predicate Reflexive<T(!new)>(eq: (T, T) -> bool)
  {
    forall x :: eq(x, x)
  }

  ghost predicate Symmetric<T(!new)>(eq: (T, T) -> bool)
  {
    forall x, y :: eq(x, y) ==> eq(y, x)
  }

  /** The stored elements, in stored order, that nothing in `requested` matches. */
  function Removed<T>(stored: seq<T>, requested: seq<T>, eq: (T, T) -> bool): (r: seq<T>)
    ensures |r| <= |stored|
    ensures forall i :: 0 <= i < |r| ==> r[i] in stored && !ExistsInList(r[i], requested, eq)
    ensures forall i :: 0 <= i < |stored| && !ExistsInList(stored[i], requested, eq) ==> stored[i] in r
  {
    Filter(stored, HasNoMatchIn(requested, eq))
  }

  /** The requested elements, in request order, that nothing stored matches. */
  function Added<T>(stored: seq<T>, requested: seq<T>, eq: (T, T) -> bool): (r: seq<T>)
    ensures |r| <= |requested|
    ensures forall i :: 0 <= i < |r| ==> r[i] in requested && !ExistsInList(r[i], stored, eq)
    ensures forall i :: 0 <= i < |requested| && !ExistsInList(requested[i], stored, eq) ==> requested[i] in r
  {
    Filter(requested, HasNoMatchIn(stored, eq))
  }

  /** Channel matching: alias and destination equal ignoring case (null only matches null), same method and flag. */
  predicate ChannelsMatch(entity: Channel, objectToCheck: Channel)
  {
    EqualsIgnoreCaseNullable(entity.alias, objectToCheck.alias)
    && EqualsIgnoreCaseNullable(entity.destination, objectToCheck.destination)
    && entity.contactMethod == objectToCheck.contactMethod
    && entity.sendFeedback == objectToCheck.sendFeedback
  }

  /** Filter matching: key and value equal ignoring case (a null value only matches null). */
  predicate FiltersMatch(entity: FilterRow, objectToCheck: FilterRow)
  {
    EqualsIgnoreCase(entity.key, objectToCheck.key)
    && EqualsIgnoreCaseNullable(entity.value, objectToCheck.value)
  }

  lemma ChannelsMatchIsEquivalence()
    ensures Reflexive(ChannelsMatch) && Symmetric(ChannelsMatch)
  {
  }

  lemma FiltersMatchIsEquivalence()
    ensures Reflexive(FiltersMatch) && Symmetric(FiltersMatch)
  {
  }

  /**
   * `getRemovedFeedbackChannels`: nothing when the request has no list (a null
   * stored list counts as empty); otherwise the stored channels no requested
   * channel matches.
   */
  function GetRemovedFeedbackChannels(entity: SettingRecord, requested: Option<seq<Channel>>): (r: seq<Channel>)
    ensures requested.None? || entity.feedbackChannels.None? ==> r == []
    ensures requested.Some? ==> r == Removed(OrEmpty(entity.feedbackChannels), requested.value, ChannelsMatch)
  {
    if requested.None? then [] else Removed(OrEmpty(entity.feedbackChannels), requested.value, ChannelsMatch)
  }

  /**
   * `getAddedFeedbackChannels`: the whole request (or nothing) when there is no
   * entity or no stored list; nothing when the request has no list; otherwise
   * the requested channels no stored channel matches.
   */
  function GetAddedFeedbackChannels(entity: Option<SettingRecord>, requested: Option<seq<Channel>>): (r: seq<Channel>)
    ensures entity.None? || entity.value.feedbackChannels.None? ==> r == OrEmpty(requested)
    ensures requested.None? ==> r == []
    ensures entity.Some? && entity.value.feedbackChannels.Some? && requested.Some? ==>
              r == Added(entity.value.feedbackChannels.value, requested.value, ChannelsMatch)
  {
    if entity.None? || entity.value.feedbackChannels.None? then OrEmpty(requested)
    else if requested.None? then []
    else Added(entity.value.feedbackChannels.value, requested.value, ChannelsMatch)
  }

  /** `getRemovedFeedbackFilters`: as for channels, with filter matching. */
  function GetRemovedFeedbackFilters(entity: SettingRecord, requested: Option<seq<FilterRow>>): (r: seq<FilterRow>)
    ensures requested.None? || entity.feedbackFilters.None? ==> r == []
    ensures requested.Some? ==> r == Removed(OrEmpty(entity.feedbackFilters), requested.value, FiltersMatch)
  {
    if requested.None? then [] else Removed(OrEmpty(entity.feedbackFilters), requested.value, FiltersMatch)
  }

  /** `getAddedFeedbackFilters`: as for channels, with filter matching. */
  function GetAddedFeedbackFilters(entity: Option<SettingRecord>, requested: Option<seq<FilterRow>>): (r: seq<FilterRow>)
    ensures entity.None? || entity.value.feedbackFilters.None? ==> r == OrEmpty(requested)
    ensures requested.None? ==> r == []
    ensures entity.Some? && entity.value.feedbackFilters.Some? && requested.Some? ==>
              r == Added(entity.value.feedbackFilters.value, requested.value, FiltersMatch)
  {
    if entity.None? || entity.value.feedbackFilters.None? then OrEmpty(requested)
    else if requested.None? then []
    else Added(entity.value.feedbackFilters.value, requested.value, FiltersMatch)
  }

  /** With a reflexive match, nothing is both removed and added. */
  lemma RemovedAddedDisjoint<T(!new)>(stored: seq<T>, requested: seq<T>, eq: (T, T) -> bool)
    requires Reflexive(eq)
    ensures forall i, j :: 0 <= i < |Removed(stored, requested, eq)| && 0 <= j < |Added(stored, requested, eq)| ==>
              Removed(stored, requested, eq)[i] != Added(stored, requested, eq)[j]
  {
    var removed, added := Removed(stored, requested, eq), Added(stored, requested, eq);
    forall i, j | 0 <= i < |removed| && 0 <= j < |added| ensures removed[i] != added[j] {
      var k :| 0 <= k < |requested| && requested[k] == added[j];
      assert eq(requested[k], requested[k]);
    }
  }

  /** Lists that agree element by element under a symmetric match. */
  predicate PairwiseMatch<T>(a: seq<T>, b: seq<T>, eq: (T, T) -> bool)
  {
    |a| == |b| && forall i :: 0 <= i < |a| ==> eq(a[i], b[i])
  }

  /** A request that repeats the stored list, up to the match, removes and adds nothing. */
  lemma {:induction false} SameListChangesNothing<T(!new)>(stored: seq<T>, requested: seq<T>, eq: (T, T) -> bool)
    requires Symmetric(eq) && PairwiseMatch(stored, requested, eq)
    ensures Removed(stored, requested, eq) == [] && Added(stored, requested, eq) == []
  {
    forall x | x in stored ensures ExistsInList(x, requested, eq) {
      var i :| 0 <= i < |stored| && stored[i] == x;
      assert eq(stored[i], requested[i]);
      assert eq(requested[i], x);
    }
    forall x | x in requested ensures ExistsInList(x, stored, eq) {
      var i :| 0 <= i < |requested| && requested[i] == x;
      assert eq(stored[i], x);
    }
    FilterNone(stored, HasNoMatchIn(requested, eq));
    FilterNone(requested, HasNoMatchIn(stored, eq));
  }

  /** Channel lists that differ only in the letter case of aliases and destinations. */
  predicate SameChannelsIgnoringCase(a: seq<Channel>, b: seq<Channel>)
  {
    |a| == |b| && forall i :: 0 <= i < |a| ==>
      a[i].contactMethod == b[i].contactMethod && a[i].sendFeedback == b[i].sendFeedback
      && EqualsIgnoreCaseNullable(a[i].alias, b[i].alias)
      && EqualsIgnoreCaseNullable(a[i].destination, b[i].destination)
  }

  /** Re-sending the stored channels with different letter case adds and removes nothing. */
  lemma ChannelsSameIgnoringCaseUnchanged(entity: SettingRecord, requested: seq<Channel>)
    requires entity.feedbackChannels.Some?
    requires SameChannelsIgnoringCase(entity.feedbackChannels.value, requested)
    ensures GetRemovedFeedbackChannels(entity, Some(requested)) == []
    ensures GetAddedFeedbackChannels(Some(entity), Some(requested)) == []
  {
    ChannelsMatchIsEquivalence();
    SameListChangesNothing(entity.feedbackChannels.value, requested, ChannelsMatch);
  }

  /** Filter rows that differ only in the letter case of keys and values. */
  predicate SameFiltersIgnoringCase(a: seq<FilterRow>, b: seq<FilterRow>)
  {
    |a| == |b| && forall i :: 0 <= i < |a| ==>
      EqualsIgnoreCase(a[i].key, b[i].key) && EqualsIgnoreCaseNullable(a[i].value, b[i].value)
  }

  /** Re-sending the stored filters with different letter case adds and removes nothing. */
  lemma FiltersSameIgnoringCaseUnchanged(entity: SettingRecord, requested: seq<FilterRow>)
    requires entity.feedbackFilters.Some?
    requires SameFiltersIgnoringCase(entity.feedbackFilters.value, requested)
    ensures GetRemovedFeedbackFilters(entity, Some(requested)) == []
    ensures GetAddedFeedbackFilters(Some(entity), Some(requested)) == []
  {
    FiltersMatchIsEquivalence();
    SameListChangesNothing(entity.feedbackFilters.value, requested, FiltersMatch);
  }
}
