/**
 * Conversions between API requests, stored entities and API responses, the
 * search filters read from HTTP headers, and the merge of an update request
 * into a stored setting.
 */
module FeedbackSettingsMapper {
  import opened Wrappers
  import opened Strings
  import opened Sequences
  import opened ContactMethods
  import opened FeedbackChannelEmbeddables
  import opened FeedbackSettingEntities
  import opened ApiModel
  import opened MappingUtils
  import opened DistinctValues

  const X_FILTER_PREFIX: string := "x-filter-"
  const DEFAULT_MATCHING_PERCENT: int := 100

  // ---------------------------------------------------------------------------
  // Requested filters to stored filter rows

  /** A requested filter the mapper can turn into rows: it has a value list, and a key whenever a value is there. */
  predicate FilterConvertible(f: RequestedFilter)
  {
    f.values.Some? && (|f.values.value| > 0 ==> f.key.Some?)
  }

  predicate FiltersConvertible(filters: seq<Option<RequestedFilter>>)
  {
    forall i :: 0 <= i < |filters| && filters[i].Some? ==> FilterConvertible(filters[i].value)
  }

  /** One row per value of the filter, under the upper-cased key. */
  function RowsOf(f: RequestedFilter): (r: seq<FilterRow>)
    requires FilterConvertible(f)
    ensures |r| == |f.values.value|
    ensures forall j :: 0 <= j < |r| ==> r[j].key == ToUpper(f.key.value) && r[j].value == f.values.value[j]
  {
    seq(|f.values.value|, j requires 0 <= j < |f.values.value| => FilterRow(ToUpper(f.key.value), f.values.value[j]))
  }

  /** Row `row` is one of the rows filter `f` gives. */
  predicate RowOf(row: FilterRow, f: RequestedFilter)
  {
    f.values.Some? && f.key.Some? && row.key == ToUpper(f.key.value)
    && exists j :: 0 <= j < |f.values.value| && row.value == f.values.value[j]
  }

  /** How many values the non-null filters hold together. */
  function ValueCount(filters: seq<Option<RequestedFilter>>): nat
    requires FiltersConvertible(filters)
  {
    if filters == [] then 0
    else
      var init := filters[..|filters| - 1];
      assert forall i :: 0 <= i < |init| ==> init[i] == filters[i];
      var last := filters[|filters| - 1];
      ValueCount(init) + (if last.Some? then |last.value.values.value| else 0)
  }

  /** `toFeedbackFilterEmbeddables`: null filters are skipped, every other filter gives one row per value. */
  function FilterRows(filters: seq<Option<RequestedFilter>>): (r: seq<FilterRow>)
    requires FiltersConvertible(filters)
    ensures |r| == ValueCount(filters)
  {
    if filters == [] then []
    else
      var init := filters[..|filters| - 1];
      assert forall i :: 0 <= i < |init| ==> init[i] == filters[i];
      var last := filters[|filters| - 1];
      FilterRows(init) + (if last.Some? then RowsOf(last.value) else [])
  }

  /**
   * The rows come filter by filter and value by value: value `j` of the
   * non-null filter `i` is row number (values of the filters before `i`) + `j`.
   * With the length of `FilterRows` this fixes every row.
   */
  lemma {:induction false} FilterRowsInOrder(filters: seq<Option<RequestedFilter>>, i: int, j: int)
    requires FiltersConvertible(filters) && 0 <= i < |filters| && filters[i].Some?
    requires 0 <= j < |filters[i].value.values.value|
    ensures FiltersConvertible(filters[..i])
    ensures ValueCount(filters[..i]) + j < |FilterRows(filters)|
    ensures FilterRows(filters)[ValueCount(filters[..i]) + j]
            == FilterRow(ToUpper(filters[i].value.key.value), filters[i].value.values.value[j])
  {
    var init := filters[..|filters| - 1];
    assert forall k :: 0 <= k < |init| ==> init[k] == filters[k];
    var rest, last := FilterRows(init), filters[|filters| - 1];
    assert FilterRows(filters) == rest + (if last.Some? then RowsOf(last.value) else []);
    if i < |init| {
      FilterRowsInOrder(init, i, j);
      assert init[..i] == filters[..i];
    } else {
      assert filters[..i] == init;
      assert FilterRows(filters)[|rest| + j] == RowsOf(last.value)[j];
    }
  }

  /** Every stored row comes from a value of a non-null requested filter. */
  lemma {:induction false} FilterRowsSound(filters: seq<Option<RequestedFilter>>, k: int)
    requires FiltersConvertible(filters) && 0 <= k < |FilterRows(filters)|
    ensures exists i :: 0 <= i < |filters| && filters[i].Some? && RowOf(FilterRows(filters)[k], filters[i].value)
  {
    var init := filters[..|filters| - 1];
    assert forall i :: 0 <= i < |init| ==> init[i] == filters[i];
    var rest, last := FilterRows(init), filters[|filters| - 1];
    var r := FilterRows(filters);
    assert r == rest + (if last.Some? then RowsOf(last.value) else []);
    if k < |rest| {
      FilterRowsSound(init, k);
      var i :| 0 <= i < |init| && init[i].Some? && RowOf(rest[k], init[i].value);
      assert filters[i] == init[i] && r[k] == rest[k];
    } else {
      assert r[k] == RowsOf(last.value)[k - |rest|];
      assert RowOf(r[k], filters[|filters| - 1].value);
    }
  }

  /** Every value of a non-null requested filter gives a row under the upper-cased key. */
  lemma {:induction false} FilterRowsComplete(filters: seq<Option<RequestedFilter>>, i: int, j: int)
    requires FiltersConvertible(filters) && 0 <= i < |filters| && filters[i].Some?
    requires 0 <= j < |filters[i].value.values.value|
    ensures FilterRow(ToUpper(filters[i].value.key.value), filters[i].value.values.value[j]) in FilterRows(filters)
  {
    var init := filters[..|filters| - 1];
    assert forall i :: 0 <= i < |init| ==> init[i] == filters[i];
    var rest, last := FilterRows(init), filters[|filters| - 1];
    var r := FilterRows(filters);
    assert r == rest + (if last.Some? then RowsOf(last.value) else []);
    if i < |init| {
      FilterRowsComplete(init, i, j);
    } else {
      assert r[|rest| + j] == RowsOf(last.value)[j];
    }
  }

  // ---------------------------------------------------------------------------
  // Requested channels to stored channels

  predicate ChannelsConvertible(channels: seq<Option<RequestedChannel>>)
  {
    forall i :: 0 <= i < |channels| && channels[i].Some? ==> channels[i].value.sendFeedback.Some?
  }

  /** A requested channel as stored: a blank alias defaults to the destination. */
  function StoredChannel(c: RequestedChannel): (r: Channel)
    requires c.sendFeedback.Some?
    ensures r.contactMethod == c.contactMethod && r.destination == c.destination && r.sendFeedback == c.sendFeedback.value
    ensures !IsBlank(c.alias) ==> r.alias == c.alias
    ensures IsBlank(c.alias) ==> r.alias == c.destination
  {
    Channel(c.contactMethod, if IsBlank(c.alias) then c.destination else c.alias, c.destination, c.sendFeedback.value)
  }

  /** A stored channel sent back as a request. */
  function AsRequested(c: Channel): RequestedChannel
  {
    RequestedChannel(c.contactMethod, c.alias, c.destination, Some(c.sendFeedback))
  }

  /** A stored alias is blank only when the destination is the same blank value. */
  lemma StoredAliasBlankOnlyAsDestination(c: RequestedChannel)
    requires c.sendFeedback.Some?
    ensures IsBlank(StoredChannel(c).alias) ==> StoredChannel(c).alias == c.destination
  {
  }

  /** An alias of Unicode whitespace only, such as an ideographic space, is blank and defaults to the destination. */
  lemma UnicodeBlankAliasDefaults(contactMethod: Option<ContactMethod>, destination: Option<string>, sendFeedback: bool)
    ensures StoredChannel(RequestedChannel(contactMethod, Some("\U{3000}\U{2028}"), destination, Some(sendFeedback))).alias
            == destination
  {
    assert IsBlank(Some("\U{3000}\U{2028}"));
  }

  /** Storing a stored channel again changes nothing. */
  lemma StoredChannelIdempotent(c: RequestedChannel)
    requires c.sendFeedback.Some?
    ensures StoredChannel(AsRequested(StoredChannel(c))) == StoredChannel(c)
  {
  }

  /** `toFeedbackChannelEmbeddables`: null channels are skipped, every other one is stored in order. */
  function StoredChannels(channels: seq<Option<RequestedChannel>>): (r: seq<Channel>)
    requires ChannelsConvertible(channels)
    ensures |r| == |Somes(channels)|
  {
    if channels == [] then []
    else
      var init := channels[..|channels| - 1];
      assert forall i :: 0 <= i < |init| ==> init[i] == channels[i];
      var last := channels[|channels| - 1];
      StoredChannels(init) + (if last.Some? then [StoredChannel(last.value)] else [])
  }

  /**
   * The channels are stored in request order: the non-null channel `i` is
   * stored at the position that counts the non-null channels before it. With
   * the length of `StoredChannels` this fixes every stored channel.
   */
  lemma {:induction false} StoredChannelsInOrder(channels: seq<Option<RequestedChannel>>, i: int)
    requires ChannelsConvertible(channels) && 0 <= i < |channels| && channels[i].Some?
    ensures |Somes(channels[..i])| < |StoredChannels(channels)|
    ensures StoredChannels(channels)[|Somes(channels[..i])|] == StoredChannel(channels[i].value)
  {
    var init := channels[..|channels| - 1];
    assert forall k :: 0 <= k < |init| ==> init[k] == channels[k];
    var rest, last := StoredChannels(init), channels[|channels| - 1];
    assert StoredChannels(channels) == rest + (if last.Some? then [StoredChannel(last.value)] else []);
    if i < |init| {
      StoredChannelsInOrder(init, i);
      assert init[..i] == channels[..i];
    } else {
      assert channels[..i] == init;
    }
  }

  /** Every stored channel is a requested, non-null channel as stored. */
  lemma {:induction false} StoredChannelsSound(channels: seq<Option<RequestedChannel>>, k: int)
    requires ChannelsConvertible(channels) && 0 <= k < |StoredChannels(channels)|
    ensures exists i :: 0 <= i < |channels| && channels[i].Some? && StoredChannels(channels)[k] == StoredChannel(channels[i].value)
  {
    var init := channels[..|channels| - 1];
    assert forall i :: 0 <= i < |init| ==> init[i] == channels[i];
    var rest, last := StoredChannels(init), channels[|channels| - 1];
    assert StoredChannels(channels) == rest + (if last.Some? then [StoredChannel(last.value)] else []);
    if k < |rest| {
      StoredChannelsSound(init, k);
      var i :| 0 <= i < |init| && init[i].Some? && rest[k] == StoredChannel(init[i].value);
      assert channels[i] == init[i] && StoredChannels(channels)[k] == rest[k];
    } else {
      assert StoredChannels(channels)[k] == StoredChannel(channels[|channels| - 1].value);
    }
  }

  /** Every requested, non-null channel is stored. */
  lemma {:induction false} StoredChannelsComplete(channels: seq<Option<RequestedChannel>>, i: int)
    requires ChannelsConvertible(channels) && 0 <= i < |channels| && channels[i].Some?
    ensures StoredChannel(channels[i].value) in StoredChannels(channels)
  {
    var init := channels[..|channels| - 1];
    assert forall i :: 0 <= i < |init| ==> init[i] == channels[i];
    var rest, last := StoredChannels(init), channels[|channels| - 1];
    assert StoredChannels(channels) == rest + (if last.Some? then [StoredChannel(last.value)] else []);
    if i < |init| {
      StoredChannelsComplete(init, i);
    }
  }

  // ---------------------------------------------------------------------------
  // Create request to entity

  predicate CreateRequestConvertible(request: CreateRequest)
  {
    (request.filters.Some? ==> FiltersConvertible(request.filters.value))
    && (request.channels.Some? ==> ChannelsConvertible(request.channels.value))
  }

  /** The columns of the entity a create request becomes: no id, no time stamps yet. */
  function NewRecord(request: CreateRequest): (r: SettingRecord)
    requires CreateRequestConvertible(request)
    ensures r.id.None? && r.created.None? && r.modified.None?
    ensures r.personId == request.personId && r.organizationId == request.organizationId
    ensures r.feedbackFilters.Some? && r.feedbackChannels.Some?
  {
    SettingRecord(None, request.personId, request.organizationId,
                  Some(FilterRows(OrEmpty(request.filters))), Some(StoredChannels(OrEmpty(request.channels))), None, None)
  }

  /** `toFeedbackSettingEntity`: null gives null; otherwise a new entity built field by field. */
  method ToFeedbackSettingEntity(request: Option<CreateRequest>) returns (entity: Option<FeedbackSettingEntity>)
    requires request.Some? ==> CreateRequestConvertible(request.value)
    ensures request.None? <==> entity.None?
    ensures entity.Some? ==> fresh(entity.value) && entity.value.Snapshot() == NewRecord(request.value)
  {
    if request.None? {
      return None;
    }
    var r := request.value;
    var e := new FeedbackSettingEntity();
    e := e.WithPersonId(r.personId);
    e := e.WithOrganizationId(r.organizationId);
    e := e.WithFeedbackFilters(Some(FilterRows(OrEmpty(r.filters))));
    e := e.WithFeedbackChannels(Some(StoredChannels(OrEmpty(r.channels))));
    entity := Some(e);
  }

  // ---------------------------------------------------------------------------
  // Stored filter rows grouped by key

  function Keys(rows: seq<FilterRow>): (r: seq<string>)
    ensures |r| == |rows| && forall i :: 0 <= i < |rows| ==> r[i] == rows[i].key
  {
    seq(|rows|, i requires 0 <= i < |rows| => rows[i].key)
  }

  /** The values of the rows under `key`, in row order. */
  function ValuesFor(rows: seq<FilterRow>, key: string): seq<Option<string>>
  {
    if rows == [] then []
    else (if rows[0].key == key then [rows[0].value] else []) + ValuesFor(rows[1..], key)
  }

  lemma {:induction false} ValuesForConcat(a: seq<FilterRow>, b: seq<FilterRow>, key: string)
    ensures ValuesFor(a + b, key) == ValuesFor(a, key) + ValuesFor(b, key)
  {
    if a == [] {
      assert a + b == b;
    } else {
      assert (a + b)[0] == a[0] && (a + b)[1..] == a[1..] + b;
      ValuesForConcat(a[1..], b, key);
    }
  }

  lemma {:induction false} ValuesForAbsent(rows: seq<FilterRow>, key: string)
    requires forall i :: 0 <= i < |rows| ==> rows[i].key != key
    ensures ValuesFor(rows, key) == []
  {
    if rows != [] {
      ValuesForAbsent(rows[1..], key);
    }
  }

  lemma {:induction false} ValuesForPresent(rows: seq<FilterRow>, key: string)
    requires exists i :: 0 <= i < |rows| && rows[i].key == key
    ensures |ValuesFor(rows, key)| > 0
  {
    if rows[0].key != key {
      var i :| 0 <= i < |rows| && rows[i].key == key;
      assert rows[1..][i - 1] == rows[i];
      ValuesForPresent(rows[1..], key);
    }
  }

  /** `toFeedbackFilters` on stored rows: `groupingBy` key, each key with its values in row order. */
  function GroupFilterRows(rows: Option<seq<FilterRow>>): (r: seq<FeedbackFilter>)
    ensures forall k :: 0 <= k < |r| ==> r[k].values == ValuesFor(OrEmpty(rows), r[k].key)
  {
    var all := OrEmpty(rows);
    var keys := Distinct(Keys(all));
    seq(|keys|, k requires 0 <= k < |keys| => FeedbackFilter(keys[k], ValuesFor(all, keys[k])))
  }

  /** Grouping gives one filter per distinct key, and every row's key has its filter. */
  lemma GroupFilterRowsKeys(rows: Option<seq<FilterRow>>)
    ensures var r := GroupFilterRows(rows);
      && (forall k, l :: 0 <= k < l < |r| ==> r[k].key != r[l].key)
      && (forall i :: 0 <= i < |OrEmpty(rows)| ==> exists k :: 0 <= k < |r| && r[k].key == OrEmpty(rows)[i].key)
      && (forall k :: 0 <= k < |r| ==> exists i :: 0 <= i < |OrEmpty(rows)| && OrEmpty(rows)[i].key == r[k].key)
  {
    GroupKeysDistinct(rows);
    GroupKeysCoverRows(rows);
    GroupKeysFromRows(rows);
  }

  lemma GroupKeysDistinct(rows: Option<seq<FilterRow>>)
    ensures var r := GroupFilterRows(rows);
      forall k, l :: 0 <= k < l < |r| ==> r[k].key != r[l].key
  {
    var keys := Distinct(Keys(OrEmpty(rows)));
    var r := GroupFilterRows(rows);
    DistinctNoDuplicates(Keys(OrEmpty(rows)));
    forall k, l | 0 <= k < l < |r| ensures r[k].key != r[l].key {
      assert r[k].key == keys[k] && r[l].key == keys[l];
    }
  }

  lemma GroupKeysCoverRows(rows: Option<seq<FilterRow>>)
    ensures var r := GroupFilterRows(rows);
      forall i :: 0 <= i < |OrEmpty(rows)| ==> exists k :: 0 <= k < |r| && r[k].key == OrEmpty(rows)[i].key
  {
    var all := OrEmpty(rows);
    var keys := Distinct(Keys(all));
    var r := GroupFilterRows(rows);
    forall i | 0 <= i < |all| ensures exists k :: 0 <= k < |r| && r[k].key == all[i].key {
      assert Keys(all)[i] == all[i].key;
      assert all[i].key in keys;
      var k :| 0 <= k < |keys| && keys[k] == all[i].key;
      assert r[k].key == keys[k];
    }
  }

  lemma GroupKeysFromRows(rows: Option<seq<FilterRow>>)
    ensures var r := GroupFilterRows(rows);
      forall k :: 0 <= k < |r| ==> exists i :: 0 <= i < |OrEmpty(rows)| && OrEmpty(rows)[i].key == r[k].key
  {
    var all := OrEmpty(rows);
    var keys := Distinct(Keys(all));
    var r := GroupFilterRows(rows);
    forall k | 0 <= k < |r| ensures exists i :: 0 <= i < |all| && all[i].key == r[k].key {
      assert r[k].key == keys[k];
      assert keys[k] in Keys(all);
      var i :| 0 <= i < |Keys(all)| && Keys(all)[i] == keys[k];
      assert all[i].key == r[k].key;
    }
  }

  /** No filter of a grouping is empty. */
  lemma GroupFilterRowsNonEmpty(rows: Option<seq<FilterRow>>)
    ensures forall k :: 0 <= k < |GroupFilterRows(rows)| ==> |GroupFilterRows(rows)[k].values| > 0
  {
    var all := OrEmpty(rows);
    var keys := Distinct(Keys(all));
    var r := GroupFilterRows(rows);
    forall k | 0 <= k < |r| ensures |r[k].values| > 0 {
      assert keys[k] in Keys(all);
      var i :| 0 <= i < |Keys(all)| && Keys(all)[i] == keys[k];
      ValuesForPresent(all, keys[k]);
    }
  }

  /** Requested filters that each hold a key and at least one value, with keys distinct once upper-cased. */
  predicate DistinctNonEmptyFilters(filters: seq<Option<RequestedFilter>>)
  {
    (forall i :: 0 <= i < |filters| ==>
       filters[i].Some? && filters[i].value.key.Some? && filters[i].value.values.Some? && |filters[i].value.values.value| > 0)
    && (forall i, j :: 0 <= i < j < |filters| ==> ToUpper(filters[i].value.key.value) != ToUpper(filters[j].value.key.value))
  }

  /** The filters a client reads back for such a request: each key upper-cased, the values as sent. */
  function UpperCasedFilters(filters: seq<Option<RequestedFilter>>): (r: seq<FeedbackFilter>)
    requires DistinctNonEmptyFilters(filters)
    ensures |r| == |filters|
  {
    seq(|filters|, i requires 0 <= i < |filters| => FeedbackFilter(ToUpper(filters[i].value.key.value), filters[i].value.values.value))
  }

  lemma UpperCasedFiltersLast(filters: seq<Option<RequestedFilter>>)
    requires filters != [] && DistinctNonEmptyFilters(filters) && DistinctNonEmptyFilters(filters[..|filters| - 1])
    ensures UpperCasedFilters(filters) == UpperCasedFilters(filters[..|filters| - 1])
              + [FeedbackFilter(ToUpper(filters[|filters| - 1].value.key.value), filters[|filters| - 1].value.values.value)]
  {
    var a := UpperCasedFilters(filters);
    var b := UpperCasedFilters(filters[..|filters| - 1]);
    assert forall i :: 0 <= i < |b| ==> a[i] == b[i];
  }

  lemma {:induction false} ValuesForSingleKey(rows: seq<FilterRow>, key: string)
    requires forall i :: 0 <= i < |rows| ==> rows[i].key == key
    ensures |ValuesFor(rows, key)| == |rows|
    ensures forall i :: 0 <= i < |rows| ==> ValuesFor(rows, key)[i] == rows[i].value
  {
    if rows != [] {
      ValuesForSingleKey(rows[1..], key);
    }
  }

  lemma KeysConcat(a: seq<FilterRow>, b: seq<FilterRow>)
    ensures Keys(a + b) == Keys(a) + Keys(b)
  {
  }

  /** Rows under a new key, appended to others, add one filter at the end of the grouping. */
  lemma GroupAppendBlock(initRows: seq<FilterRow>, lastRows: seq<FilterRow>, key: string)
    requires |lastRows| > 0 && forall i :: 0 <= i < |lastRows| ==> lastRows[i].key == key
    requires forall i :: 0 <= i < |initRows| ==> initRows[i].key != key
    ensures GroupFilterRows(Some(initRows + lastRows)) ==
      GroupFilterRows(Some(initRows)) + [FeedbackFilter(key, seq(|lastRows|, i requires 0 <= i < |lastRows| => lastRows[i].value))]
  {
    var rows := initRows + lastRows;
    KeysConcat(initRows, lastRows);
    assert key !in Keys(initRows);
    DistinctAppendRepeated(Keys(initRows), Keys(lastRows), key);
    var keys := Distinct(Keys(initRows));
    var before := GroupFilterRows(Some(initRows));
    var after := GroupFilterRows(Some(rows));
    var expected := before + [FeedbackFilter(key, seq(|lastRows|, i requires 0 <= i < |lastRows| => lastRows[i].value))];
    assert |after| == |expected|;
    forall k | 0 <= k < |after| ensures after[k] == expected[k] {
      ValuesForConcat(initRows, lastRows, after[k].key);
      if k < |before| {
        assert after[k].key == keys[k] && keys[k] in Keys(initRows);
        ValuesForAbsent(lastRows, after[k].key);
      } else {
        ValuesForAbsent(initRows, key);
        ValuesForSingleKey(lastRows, key);
      }
    }
  }

  /**
   * The rows stored for filters with distinct, non-empty keys group back into
   * those filters in request order. The order is this model's grouping order
   * (first occurrence of a key), not one the service promises.
   */
  lemma {:induction false} GroupedInFirstOccurrenceOrder(filters: seq<Option<RequestedFilter>>)
    requires DistinctNonEmptyFilters(filters)
    ensures FiltersConvertible(filters)
    ensures GroupFilterRows(Some(FilterRows(filters))) == UpperCasedFilters(filters)
  {
    if filters != [] {
      var init := filters[..|filters| - 1];
      assert DistinctNonEmptyFilters(init) by {
        assert forall i :: 0 <= i < |init| ==> init[i] == filters[i];
      }
      GroupedInFirstOccurrenceOrder(init);
      var f := filters[|filters| - 1].value;
      var key := ToUpper(f.key.value);
      var lastRows := RowsOf(f);
      assert FilterRows(filters) == FilterRows(init) + lastRows;
      EarlierRowsHaveOtherKeys(filters, init);
      GroupAppendBlock(FilterRows(init), lastRows, key);
      assert seq(|lastRows|, i requires 0 <= i < |lastRows| => lastRows[i].value) == f.values.value;
      UpperCasedFiltersLast(filters);
    }
  }

  /**
   * Create, then read: the rows stored for filters with distinct, non-empty
   * keys group back into exactly those filters, in some order, each key
   * upper-cased and its values in the order sent.
   */
  lemma CreatedFiltersReadBack(filters: seq<Option<RequestedFilter>>)
    requires DistinctNonEmptyFilters(filters)
    ensures FiltersConvertible(filters)
    ensures multiset(GroupFilterRows(Some(FilterRows(filters)))) == multiset(UpperCasedFilters(filters))
  {
    GroupedInFirstOccurrenceOrder(filters);
  }

  /** The rows of all but the last filter carry keys other than the last filter's. */
  lemma EarlierRowsHaveOtherKeys(filters: seq<Option<RequestedFilter>>, init: seq<Option<RequestedFilter>>)
    requires filters != [] && init == filters[..|filters| - 1]
    requires DistinctNonEmptyFilters(filters) && DistinctNonEmptyFilters(init)
    ensures forall i :: 0 <= i < |FilterRows(init)| ==> FilterRows(init)[i].key != ToUpper(filters[|filters| - 1].value.key.value)
  {
    var rows := FilterRows(init);
    forall i | 0 <= i < |rows| ensures rows[i].key != ToUpper(filters[|filters| - 1].value.key.value) {
      FilterRowsSound(init, i);
      var m :| 0 <= m < |init| && init[m].Some? && RowOf(rows[i], init[m].value);
      assert init[m] == filters[m];
    }
  }

  // ---------------------------------------------------------------------------
  // Entity to API model

  /** `toFeedbackSetting`: null gives null; otherwise the columns, with rows grouped into filters. */
  function ToFeedbackSetting(entity: Option<SettingRecord>): (r: Option<FeedbackSetting>)
    ensures r.None? <==> entity.None?
    ensures entity.Some? ==>
      r.value.id == entity.value.id && r.value.personId == entity.value.personId
      && r.value.organizationId == entity.value.organizationId
      && r.value.filters == GroupFilterRows(entity.value.feedbackFilters)
      && r.value.channels == OrEmpty(entity.value.feedbackChannels)
      && r.value.created == entity.value.created && r.value.modified == entity.value.modified
  {
    match entity
    case None => None
    case Some(e) =>
      Some(FeedbackSetting(e.id, e.personId, e.organizationId, GroupFilterRows(e.feedbackFilters),
                           OrEmpty(e.feedbackChannels), e.created, e.modified))
  }

  /** `toWeightedFeedbackSetting`: the same setting, matching 100 percent until scored. */
  function ToWeightedFeedbackSetting(entity: Option<SettingRecord>): (r: Option<WeightedFeedbackSetting>)
    ensures r.None? <==> entity.None?
    ensures entity.Some? ==> r.value.setting == ToFeedbackSetting(entity).value && r.value.matchingPercent == DEFAULT_MATCHING_PERCENT
  {
    match entity
    case None => None
    case Some(_) => Some(WeightedFeedbackSetting(ToFeedbackSetting(entity).value, DEFAULT_MATCHING_PERCENT))
  }

  /** `toFeedbackSettings`: a null list gives an empty one; each entity is converted in order. */
  function ToFeedbackSettings(entities: Option<seq<SettingRecord>>): (r: seq<FeedbackSetting>)
    ensures |r| == |OrEmpty(entities)|
    ensures forall i :: 0 <= i < |r| ==> Some(r[i]) == ToFeedbackSetting(Some(OrEmpty(entities)[i]))
  {
    var all := OrEmpty(entities);
    seq(|all|, i requires 0 <= i < |all| => ToFeedbackSetting(Some(all[i])).value)
  }

  /** `toWeightedFeedbackSettings`: as `toFeedbackSettings`, each at 100 percent. */
  function ToWeightedFeedbackSettings(entities: Option<seq<SettingRecord>>): (r: seq<WeightedFeedbackSetting>)
    ensures |r| == |OrEmpty(entities)|
    ensures forall i :: 0 <= i < |r| ==> Some(r[i]) == ToWeightedFeedbackSetting(Some(OrEmpty(entities)[i]))
  {
    var all := OrEmpty(entities);
    seq(|all|, i requires 0 <= i < |all| => ToWeightedFeedbackSetting(Some(all[i])).value)
  }

  // ---------------------------------------------------------------------------
  // Search filters from HTTP headers

  /**
   * The headers of one request, as `HttpHeaders` holds them: it keys its
   * entries by name ignoring case, so no two names are equal ignoring case.
   */
  predicate HeaderNamesDistinct(headers: Option<seq<Header>>)
  {
    forall i, j :: 0 <= i < j < |OrEmpty(headers)| ==> !EqualsIgnoreCase(OrEmpty(headers)[i].name, OrEmpty(headers)[j].name)
  }

  predicate IsFilterHeader(h: Header)
  {
    StartsWithIgnoreCase(h.name, X_FILTER_PREFIX)
  }

  function WrapValues(values: seq<string>): (r: seq<Option<string>>)
    ensures |r| == |values| && forall i :: 0 <= i < |values| ==> r[i] == Some(values[i])
  {
    seq(|values|, i requires 0 <= i < |values| => Some(values[i]))
  }

  /** The search filter one `x-filter-` header gives: the rest of its name, and its values one per case-insensitive class. */
  function SearchFilter(h: Header): FeedbackFilter
    requires IsFilterHeader(h)
  {
    FeedbackFilter(h.name[|X_FILTER_PREFIX|..], WrapValues(TreeSetOf(h.values, LessIgnoreCase)))
  }

  /**
   * `toFeedbackFilters` on headers: none when there are no headers; one search
   * filter per `x-filter-` header (prefix matched ignoring case), in header order.
   */
  function ToSearchFilters(headers: Option<seq<Header>>): (r: seq<FeedbackFilter>)
    requires HeaderNamesDistinct(headers)
    ensures headers.None? ==> r == []
    ensures |r| <= |OrEmpty(headers)|
  {
    var hs := Filter(OrEmpty(headers), IsFilterHeader);
    seq(|hs|, k requires 0 <= k < |hs| => SearchFilter(hs[k]))
  }

  /** Every search filter comes from an `x-filter-` header. */
  lemma ToSearchFiltersSound(headers: Option<seq<Header>>, k: int)
    requires HeaderNamesDistinct(headers) && 0 <= k < |ToSearchFilters(headers)|
    ensures exists i :: 0 <= i < |OrEmpty(headers)| && IsFilterHeader(OrEmpty(headers)[i])
                        && ToSearchFilters(headers)[k] == SearchFilter(OrEmpty(headers)[i])
  {
    var all := OrEmpty(headers);
    var hs := Filter(all, IsFilterHeader);
    assert ToSearchFilters(headers)[k] == SearchFilter(hs[k]);
    assert hs[k] in all && IsFilterHeader(hs[k]);
    var i :| 0 <= i < |all| && all[i] == hs[k];
    assert IsFilterHeader(all[i]) && ToSearchFilters(headers)[k] == SearchFilter(all[i]);
  }

  /** Every `x-filter-` header gives a search filter. */
  lemma ToSearchFiltersComplete(headers: Option<seq<Header>>)
    requires HeaderNamesDistinct(headers)
    ensures var r, all := ToSearchFilters(headers), OrEmpty(headers);
      forall i :: 0 <= i < |all| && IsFilterHeader(all[i]) ==> SearchFilter(all[i]) in r
  {
    var r, all := ToSearchFilters(headers), OrEmpty(headers);
    var hs := Filter(all, IsFilterHeader);
    forall i | 0 <= i < |all| && IsFilterHeader(all[i]) ensures SearchFilter(all[i]) in r {
      assert all[i] in hs;
      var k :| 0 <= k < |hs| && hs[k] == all[i];
      assert r[k] == SearchFilter(hs[k]);
    }
  }

  /** No search filter holds a null value. */
  lemma ToSearchFiltersValuesPresent(headers: Option<seq<Header>>)
    requires HeaderNamesDistinct(headers)
    ensures var r := ToSearchFilters(headers);
      forall k, j :: 0 <= k < |r| && 0 <= j < |r[k].values| ==> r[k].values[j].Some?
  {
    var r := ToSearchFilters(headers);
    var hs := Filter(OrEmpty(headers), IsFilterHeader);
    forall k, j | 0 <= k < |r| && 0 <= j < |r[k].values| ensures r[k].values[j].Some? {
      assert r[k] == SearchFilter(hs[k]);
    }
  }

  /** The search filters of one request have keys that differ ignoring case. */
  lemma ToSearchFiltersKeysDistinct(headers: Option<seq<Header>>)
    requires HeaderNamesDistinct(headers)
    ensures var r := ToSearchFilters(headers);
      forall k, l :: 0 <= k < l < |r| ==> !EqualsIgnoreCase(r[k].key, r[l].key)
  {
    var all := OrEmpty(headers);
    var hs := Filter(all, IsFilterHeader);
    var r := ToSearchFilters(headers);
    var differ := (a: Header, b: Header) => !EqualsIgnoreCase(a.name, b.name);
    FilterPairwise(all, IsFilterHeader, differ);
    var n := |X_FILTER_PREFIX|;
    forall k, l | 0 <= k < l < |r| ensures !EqualsIgnoreCase(r[k].key, r[l].key) {
      var a, b := hs[k], hs[l];
      assert differ(a, b);
      assert IsFilterHeader(a) && IsFilterHeader(b);
      assert r[k].key == a.name[n..] && r[l].key == b.name[n..];
      if EqualsIgnoreCase(r[k].key, r[l].key) {
        assert EqualsIgnoreCase(a.name[..n], b.name[..n]);
        EqualsIgnoreCaseSplit(a.name, b.name, n);
        assert false;
      }
    }
  }

  /**
   * The values of a search filter hold each header value once ignoring case,
   * spelled as it was first given, in case-insensitive order.
   */
  lemma SearchFilterValues(h: Header)
    requires IsFilterHeader(h)
    ensures var values := TreeSetOf(h.values, LessIgnoreCase);
      SearchFilter(h).values == WrapValues(values)
      && (forall i, j :: 0 <= i < j < |values| ==> LessIgnoreCase(values[i], values[j]) && !EqualsIgnoreCase(values[i], values[j]))
      && (forall i :: 0 <= i < |h.values| ==> exists k :: 0 <= k < |values| && EqualsIgnoreCase(values[k], h.values[i]))
      && (forall k :: 0 <= k < |values| ==> FirstOfItsClass(h.values, values[k], LessIgnoreCase))
  {
    var values := TreeSetOf(h.values, LessIgnoreCase);
    CaseInsensitiveOrder();
    TreeSetOfProperties(h.values, LessIgnoreCase);
    forall i | 0 <= i < |h.values| ensures exists k :: 0 <= k < |values| && EqualsIgnoreCase(values[k], h.values[i]) {
      var k :| 0 <= k < |values| && Same(LessIgnoreCase, values[k], h.values[i]);
    }
  }

  // ---------------------------------------------------------------------------
  // Query by example

  /** `toExample`: match on person and organization only; without null matching a null probe is a wildcard. */
  datatype Example = Example(personId: Option<string>, organizationId: Option<string>, includeNullValues: bool)

  predicate FieldMatches(probe: Option<string>, value: Option<string>, includeNullValues: bool)
  {
    if probe.None? then includeNullValues ==> value.None? else value == probe
  }

  predicate ExampleMatches(example: Example, entity: SettingRecord)
  {
    FieldMatches(example.personId, entity.personId, example.includeNullValues)
    && FieldMatches(example.organizationId, entity.organizationId, example.includeNullValues)
  }

  /** With null matching, an example matches exactly the entities with that person and organization. */
  lemma ExampleWithNullsIsExact(personId: Option<string>, organizationId: Option<string>, entity: SettingRecord)
    ensures ExampleMatches(Example(personId, organizationId, true), entity)
            <==> entity.personId == personId && entity.organizationId == organizationId
  {
  }

  /** Without null matching, an example matches every entity it matches with null matching, and more. */
  lemma ExampleWithoutNullsIsWeaker(personId: Option<string>, organizationId: Option<string>, entity: SettingRecord)
    ensures ExampleMatches(Example(personId, organizationId, true), entity) ==> ExampleMatches(Example(personId, organizationId, false), entity)
    ensures personId.None? && organizationId.None? ==> ExampleMatches(Example(personId, organizationId, false), entity)
  {
  }

  // ---------------------------------------------------------------------------
  // Merging an update request into a stored list

  /**
   * `addAll(getAdded...)` followed by `removeAll(getRemoved...)`, where the
   * removed elements are computed on the list after the additions.
   */
  function MergedList<T(==)>(stored: seq<T>, requested: seq<T>, eq: (T, T) -> bool): seq<T>
  {
    var grown := stored + Added(stored, requested, eq);
    RemoveAll(grown, Removed(grown, requested, eq))
  }

  /**
   * With a reflexive match, the merge keeps the stored elements the request
   * matches, in stored order, followed by the requested elements nothing
   * stored matched, in request order.
   */
  lemma MergedListShape<T(!new)>(stored: seq<T>, requested: seq<T>, eq: (T, T) -> bool)
    requires Reflexive(eq)
    ensures MergedList(stored, requested, eq) == Filter(stored, HasMatchIn(requested, eq)) + Added(stored, requested, eq)
  {
    var added := Added(stored, requested, eq);
    var grown := stored + added;
    var removed := Removed(grown, requested, eq);
    FilterConcat(stored, added, NotIn(removed));
    forall x | x in added ensures NotIn(removed)(x) {
      var k :| 0 <= k < |requested| && requested[k] == x;
      assert eq(requested[k], x);
    }
    FilterAll(added, NotIn(removed));
    forall x | x in stored ensures NotIn(removed)(x) <==> HasMatchIn(requested, eq)(x) {
      var i :| 0 <= i < |stored| && stored[i] == x;
      assert grown[i] == x;
    }
    FilterCongruent(stored, NotIn(removed), HasMatchIn(requested, eq));
  }

  /**
   * With a reflexive and symmetric match, the merged list and the request agree
   * up to the match: every merged element matches a requested one and every
   * requested element matches a merged one.
   */
  lemma MergedListMatchesRequest<T(!new)>(stored: seq<T>, requested: seq<T>, eq: (T, T) -> bool)
    requires Reflexive(eq) && Symmetric(eq)
    ensures forall i :: 0 <= i < |MergedList(stored, requested, eq)| ==> ExistsInList(MergedList(stored, requested, eq)[i], requested, eq)
    ensures forall j :: 0 <= j < |requested| ==> ExistsInList(requested[j], MergedList(stored, requested, eq), eq)
  {
    MergedListShape(stored, requested, eq);
    var kept := Filter(stored, HasMatchIn(requested, eq));
    var added := Added(stored, requested, eq);
    var merged := MergedList(stored, requested, eq);
    forall i | 0 <= i < |merged| ensures ExistsInList(merged[i], requested, eq) {
      if i < |kept| {
        assert merged[i] == kept[i] && HasMatchIn(requested, eq)(kept[i]);
      } else {
        assert merged[i] == added[i - |kept|];
        var k :| 0 <= k < |requested| && requested[k] == merged[i];
        assert eq(requested[k], merged[i]);
      }
    }
    forall j | 0 <= j < |requested| ensures ExistsInList(requested[j], merged, eq) {
      var y := requested[j];
      if ExistsInList(y, stored, eq) {
        var i :| 0 <= i < |stored| && eq(stored[i], y);
        assert eq(y, stored[i]);
        assert HasMatchIn(requested, eq)(stored[i]);
        var m :| 0 <= m < |kept| && kept[m] == stored[i];
        assert merged[m] == kept[m];
      } else {
        var m :| 0 <= m < |added| && added[m] == y;
        assert merged[|kept| + m] == y;
        assert eq(y, y);
      }
    }
  }

  /** Merging the same request a second time changes nothing. */
  lemma MergedListIdempotent<T(!new)>(stored: seq<T>, requested: seq<T>, eq: (T, T) -> bool)
    requires Reflexive(eq) && Symmetric(eq)
    ensures MergedList(MergedList(stored, requested, eq), requested, eq) == MergedList(stored, requested, eq)
  {
    var merged := MergedList(stored, requested, eq);
    MergedListMatchesRequest(stored, requested, eq);
    MergedListShape(merged, requested, eq);
    FilterAll(merged, HasMatchIn(requested, eq));
    var again := Added(merged, requested, eq);
    if again != [] {
      var j :| 0 <= j < |requested| && requested[j] == again[0];
      assert false;
    }
  }

  /** A request that repeats the stored list up to the match leaves it as it is. */
  lemma MergedListUnchanged<T(!new)>(stored: seq<T>, requested: seq<T>, eq: (T, T) -> bool)
    requires Reflexive(eq) && Symmetric(eq) && PairwiseMatch(stored, requested, eq)
    ensures MergedList(stored, requested, eq) == stored
  {
    SameListChangesNothing(stored, requested, eq);
    MergedListShape(stored, requested, eq);
    forall x | x in stored ensures HasMatchIn(requested, eq)(x) {
      var i :| 0 <= i < |stored| && stored[i] == x;
      assert eq(requested[i], x);
    }
    FilterAll(stored, HasMatchIn(requested, eq));
  }

  // ---------------------------------------------------------------------------
  // Merging an update request into a stored setting

  /** The stored record after `mergeFeedbackChannels`. */
  function MergeChannels(entity: SettingRecord, channels: Option<seq<Option<RequestedChannel>>>, now: Instant): (r: SettingRecord)
    requires channels.Some? ==> entity.feedbackChannels.Some? && ChannelsConvertible(channels.value)
    ensures r.(feedbackChannels := entity.feedbackChannels, modified := entity.modified) == entity
    ensures channels.None? ==> r == entity
    ensures channels.Some? ==> r.feedbackChannels == Some(MergedList(entity.feedbackChannels.value, StoredChannels(channels.value), ChannelsMatch))
    ensures r.modified == entity.modified || (r.modified == Some(TruncatedToMillis(now)) && r.feedbackChannels != entity.feedbackChannels)
    ensures r.feedbackChannels != entity.feedbackChannels ==> r.modified == Some(TruncatedToMillis(now))
  {
    if channels.None? then entity
    else
      var merged := MergedList(entity.feedbackChannels.value, StoredChannels(channels.value), ChannelsMatch);
      if merged == entity.feedbackChannels.value then entity.(feedbackChannels := Some(merged))
      else entity.(feedbackChannels := Some(merged), modified := Some(TruncatedToMillis(now)))
  }

  /** The stored record after `mergeFeedbackFilters`. */
  function MergeFilters(entity: SettingRecord, filters: Option<seq<Option<RequestedFilter>>>, now: Instant): (r: SettingRecord)
    requires filters.Some? ==> entity.feedbackFilters.Some? && FiltersConvertible(filters.value)
    ensures r.(feedbackFilters := entity.feedbackFilters, modified := entity.modified) == entity
    ensures filters.None? ==> r == entity
    ensures filters.Some? ==> r.feedbackFilters == Some(MergedList(entity.feedbackFilters.value, FilterRows(filters.value), FiltersMatch))
    ensures r.modified == entity.modified || (r.modified == Some(TruncatedToMillis(now)) && r.feedbackFilters != entity.feedbackFilters)
    ensures r.feedbackFilters != entity.feedbackFilters ==> r.modified == Some(TruncatedToMillis(now))
  {
    if filters.None? then entity
    else
      var merged := MergedList(entity.feedbackFilters.value, FilterRows(filters.value), FiltersMatch);
      if merged == entity.feedbackFilters.value then entity.(feedbackFilters := Some(merged))
      else entity.(feedbackFilters := Some(merged), modified := Some(TruncatedToMillis(now)))
  }

  predicate UpdateRequestApplicable(entity: SettingRecord, request: Option<UpdateRequest>)
  {
    request.Some? ==>
      (request.value.channels.Some? ==> entity.feedbackChannels.Some? && ChannelsConvertible(request.value.channels.value))
      && (request.value.filters.Some? ==> entity.feedbackFilters.Some? && FiltersConvertible(request.value.filters.value))
  }

  /** The stored record after `mergeFeedbackSettings`: channels first, then filters. */
  function MergeSettings(entity: SettingRecord, request: Option<UpdateRequest>, now: Instant): (r: SettingRecord)
    requires UpdateRequestApplicable(entity, request)
    ensures r.id == entity.id && r.personId == entity.personId && r.organizationId == entity.organizationId
    ensures r.created == entity.created
    ensures request.None? ==> r == entity
  {
    if request.None? then entity
    else MergeFilters(MergeChannels(entity, request.value.channels, now), request.value.filters, now)
  }

  /** `mergeFeedbackChannels`: adds the new channels, drops the unmatched ones, stamps `modified` when the list changed. */
  method MergeFeedbackChannels(entity: FeedbackSettingEntity, feedbackChannels: Option<seq<Option<RequestedChannel>>>, now: Instant)
    requires feedbackChannels.Some? ==> entity.feedbackChannels.Some? && ChannelsConvertible(feedbackChannels.value)
    modifies entity
    ensures entity.Snapshot() == MergeChannels(old(entity.Snapshot()), feedbackChannels, now)
  {
    if feedbackChannels.Some? {
      var requestedChannelEntities := StoredChannels(feedbackChannels.value);
      var oldChannelEntities := entity.feedbackChannels.value;
      var added := GetAddedFeedbackChannels(Some(entity.Snapshot()), Some(requestedChannelEntities));
      entity.SetFeedbackChannels(Some(entity.feedbackChannels.value + added));
      var removed := GetRemovedFeedbackChannels(entity.Snapshot(), Some(requestedChannelEntities));
      entity.SetFeedbackChannels(Some(RemoveAll(entity.feedbackChannels.value, removed)));
      if oldChannelEntities != entity.feedbackChannels.value {
        entity.PreUpdate(now);
      }
    }
  }

  /** `mergeFeedbackFilters`: as for channels, on the filter rows. */
  method MergeFeedbackFilters(entity: FeedbackSettingEntity, filters: Option<seq<Option<RequestedFilter>>>, now: Instant)
    requires filters.Some? ==> entity.feedbackFilters.Some? && FiltersConvertible(filters.value)
    modifies entity
    ensures entity.Snapshot() == MergeFilters(old(entity.Snapshot()), filters, now)
  {
    if filters.Some? {
      var requestedFilterEntities := FilterRows(filters.value);
      var oldFilterEntities := entity.feedbackFilters.value;
      var added := GetAddedFeedbackFilters(Some(entity.Snapshot()), Some(requestedFilterEntities));
      entity.SetFeedbackFilters(Some(entity.feedbackFilters.value + added));
      var removed := GetRemovedFeedbackFilters(entity.Snapshot(), Some(requestedFilterEntities));
      entity.SetFeedbackFilters(Some(RemoveAll(entity.feedbackFilters.value, removed)));
      if oldFilterEntities != entity.feedbackFilters.value {
        entity.PreUpdate(now);
      }
    }
  }

  /** `mergeFeedbackSettings`: a null request changes nothing; otherwise channels, then filters. */
  method MergeFeedbackSettings(entity: FeedbackSettingEntity, feedbackSetting: Option<UpdateRequest>, now: Instant)
    requires UpdateRequestApplicable(entity.Snapshot(), feedbackSetting)
    modifies entity
    ensures entity.Snapshot() == MergeSettings(old(entity.Snapshot()), feedbackSetting, now)
  {
    if feedbackSetting.Some? {
      MergeFeedbackChannels(entity, feedbackSetting.value.channels, now);
      MergeFeedbackFilters(entity, feedbackSetting.value.filters, now);
    }
  }

  /** After a channel merge the stored channels and the requested ones agree up to channel matching. */
  lemma MergedChannelsMatchRequest(entity: SettingRecord, channels: seq<Option<RequestedChannel>>, now: Instant)
    requires entity.feedbackChannels.Some? && ChannelsConvertible(channels)
    ensures var stored := MergeChannels(entity, Some(channels), now).feedbackChannels.value;
      var requested := StoredChannels(channels);
      (forall i :: 0 <= i < |stored| ==> ExistsInList(stored[i], requested, ChannelsMatch))
      && (forall j :: 0 <= j < |requested| ==> ExistsInList(requested[j], stored, ChannelsMatch))
  {
    ChannelsMatchIsEquivalence();
    MergedListMatchesRequest(entity.feedbackChannels.value, StoredChannels(channels), ChannelsMatch);
  }

  /** After a filter merge the stored rows and the requested ones agree up to filter matching. */
  lemma MergedFiltersMatchRequest(entity: SettingRecord, filters: seq<Option<RequestedFilter>>, now: Instant)
    requires entity.feedbackFilters.Some? && FiltersConvertible(filters)
    ensures var stored := MergeFilters(entity, Some(filters), now).feedbackFilters.value;
      var requested := FilterRows(filters);
      (forall i :: 0 <= i < |stored| ==> ExistsInList(stored[i], requested, FiltersMatch))
      && (forall j :: 0 <= j < |requested| ==> ExistsInList(requested[j], stored, FiltersMatch))
  {
    FiltersMatchIsEquivalence();
    MergedListMatchesRequest(entity.feedbackFilters.value, FilterRows(filters), FiltersMatch);
  }

  /** Sending the same update twice: the second one changes nothing, not even `modified`. */
  lemma MergeSettingsIdempotent(entity: SettingRecord, request: Option<UpdateRequest>, now: Instant, later: Instant)
    requires UpdateRequestApplicable(entity, request)
    ensures UpdateRequestApplicable(MergeSettings(entity, request, now), request)
    ensures MergeSettings(MergeSettings(entity, request, now), request, later) == MergeSettings(entity, request, now)
  {
    if request.Some? {
      ChannelsMatchIsEquivalence();
      FiltersMatchIsEquivalence();
      var channels, filters := request.value.channels, request.value.filters;
      var c1 := MergeChannels(entity, channels, now);
      var r1 := MergeFilters(c1, filters, now);
      if channels.Some? {
        MergedListIdempotent(entity.feedbackChannels.value, StoredChannels(channels.value), ChannelsMatch);
      }
      assert MergeChannels(r1, channels, later) == r1;
      if filters.Some? {
        MergedListIdempotent(c1.feedbackFilters.value, FilterRows(filters.value), FiltersMatch);
      }
      assert MergeFilters(r1, filters, later) == r1;
    }
  }

  /** Re-sending the stored channels with other letter case leaves the record as it is. */
  lemma CaseOnlyChannelChangeKeepsRecord(entity: SettingRecord, channels: seq<Option<RequestedChannel>>, now: Instant)
    requires entity.feedbackChannels.Some? && ChannelsConvertible(channels)
    requires SameChannelsIgnoringCase(entity.feedbackChannels.value, StoredChannels(channels))
    ensures MergeChannels(entity, Some(channels), now) == entity
  {
    ChannelsMatchIsEquivalence();
    MergedListUnchanged(entity.feedbackChannels.value, StoredChannels(channels), ChannelsMatch);
  }

  /** Re-sending the stored filter rows with other letter case leaves the record as it is. */
  lemma CaseOnlyFilterChangeKeepsRecord(entity: SettingRecord, filters: seq<Option<RequestedFilter>>, now: Instant)
    requires entity.feedbackFilters.Some? && FiltersConvertible(filters)
    requires SameFiltersIgnoringCase(entity.feedbackFilters.value, FilterRows(filters))
    ensures MergeFilters(entity, Some(filters), now) == entity
  {
    FiltersMatchIsEquivalence();
    MergedListUnchanged(entity.feedbackFilters.value, FilterRows(filters), FiltersMatch);
  }
}
