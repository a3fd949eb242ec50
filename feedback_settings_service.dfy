/**
 * `FeedbackSettingsService`: create, update, read, delete and search feedback
 * settings on top of the repository, with the service's error cases as
 * returned problems.
 */
module FeedbackSettingsServices {
  import opened Wrappers
  import opened Sequences
  import opened ApiModel
  import opened FeedbackSettingEntities
  import opened FeedbackSettingsMapper
  import opened CalculationUtils
  import opened FeedbackSettingsRepositories

  // ---------------------------------------------------------------------------
  // Problems the service throws

  /** `SETTINGS_NOT_FOUND_FOR_ID` filled in with the id. */
  function NotFound(id: string): (p: Problem)
    ensures p.status == NOT_FOUND
  {
    Problem(NOT_FOUND, "No settings matching id '" + id + "' were found")
  }

  /**
   * The conflict a create request runs into: the person-only message when the
   * organization is null, else the message naming the organization too.
   */
  function AlreadyExists(personId: Option<string>, organizationId: Option<string>): (p: Problem)
    ensures p.status == BAD_REQUEST
  {
    if organizationId.None? then
      Problem(BAD_REQUEST, "Settings already exist for personId '" + Show(personId) + "'")
    else
      Problem(BAD_REQUEST, "Settings already exist for personId '" + Show(personId)
                           + "' representing organizationId '" + organizationId.value + "'")
  }

  // ---------------------------------------------------------------------------
  // One setting per person and organization

  /** Two records belong to different (person, organization) pairs, null counting as a value of its own. */
  predicate DifferentOwners(a: SettingRecord, b: SettingRecord)
  {
    a.personId != b.personId || a.organizationId != b.organizationId
  }

  /** No two stored settings share a person and an organization. */
  predicate UniqueOwners(rows: seq<SettingRecord>)
  {
    forall i, j :: 0 <= i < j < |rows| ==> DifferentOwners(rows[i], rows[j])
  }

  /** Writing a record over one with the same id, person and organization keeps the owners unique. */
  lemma ReplaceKeepsUniqueOwners(rows: seq<SettingRecord>, rec: SettingRecord, id: string)
    requires UniqueOwners(rows) && UniqueIds(rows)
    requires FindRow(rows, id).Some? && rec.id == Some(id)
    requires rec.personId == FindRow(rows, id).value.personId && rec.organizationId == FindRow(rows, id).value.organizationId
    ensures UniqueOwners(ReplaceRow(rows, rec))
  {
    var r := ReplaceRow(rows, rec);
    var k :| 0 <= k < |rows| && rows[k].id == Some(id);
    FindRowAt(rows, k);
    forall i, j | 0 <= i < j < |r| ensures DifferentOwners(r[i], r[j]) {
      assert DifferentOwners(rows[i], rows[j]);
    }
  }

  // ---------------------------------------------------------------------------
  // Sorting by matching percentage

  /** Each setting matches at least as well as every later one. */
  predicate DescendingByPercent(s: seq<WeightedFeedbackSetting>)
  {
    forall i, j :: 0 <= i < j < |s| ==> s[i].matchingPercent >= s[j].matchingPercent
  }

  /** Places `x` before the first setting it matches at least as well as. */
  function InsertByPercent(x: WeightedFeedbackSetting, sorted: seq<WeightedFeedbackSetting>): (r: seq<WeightedFeedbackSetting>)
    ensures multiset(r) == multiset(sorted) + multiset{x}
    ensures r != [] && (r[0] == x || (sorted != [] && r[0] == sorted[0]))
  {
    if sorted == [] || x.matchingPercent >= sorted[0].matchingPercent then [x] + sorted
    else
      assert sorted == [sorted[0]] + sorted[1..];
      [sorted[0]] + InsertByPercent(x, sorted[1..])
  }

  /**
   * `sorted((o1, o2) -> o2.getMatchingPercent() - o1.getMatchingPercent())`:
   * a stable sort, best match first.
   */
  function SortByPercentDescending(s: seq<WeightedFeedbackSetting>): (r: seq<WeightedFeedbackSetting>)
    ensures multiset(r) == multiset(s)
  {
    if s == [] then []
    else
      assert s == [s[0]] + s[1..];
      InsertByPercent(s[0], SortByPercentDescending(s[1..]))
  }

  lemma DescendingTail(s: seq<WeightedFeedbackSetting>)
    requires s != [] && DescendingByPercent(s)
    ensures DescendingByPercent(s[1..])
  {
    var tail := s[1..];
    forall i, j | 0 <= i < j < |tail| ensures tail[i].matchingPercent >= tail[j].matchingPercent {
      assert tail[i] == s[i + 1] && tail[j] == s[j + 1];
    }
  }

  /** Inserting a setting no better than `bound` among settings no better than `bound` gives settings no better than `bound`. */
  lemma InsertUnderBound(x: WeightedFeedbackSetting, s: seq<WeightedFeedbackSetting>, bound: int)
    requires x.matchingPercent <= bound
    requires forall k :: 0 <= k < |s| ==> s[k].matchingPercent <= bound
    ensures forall j :: 0 <= j < |InsertByPercent(x, s)| ==> InsertByPercent(x, s)[j].matchingPercent <= bound
  {
    var r := InsertByPercent(x, s);
    forall j | 0 <= j < |r| ensures r[j].matchingPercent <= bound {
      assert r[j] in multiset(s) + multiset{x};
      if r[j] != x {
        var k :| 0 <= k < |s| && s[k] == r[j];
      }
    }
  }

  lemma {:induction false} InsertKeepsDescending(x: WeightedFeedbackSetting, sorted: seq<WeightedFeedbackSetting>)
    requires DescendingByPercent(sorted)
    ensures DescendingByPercent(InsertByPercent(x, sorted))
  {
    if sorted != [] && x.matchingPercent < sorted[0].matchingPercent {
      var tail := sorted[1..];
      DescendingTail(sorted);
      InsertKeepsDescending(x, tail);
      var rest := InsertByPercent(x, tail);
      var r := [sorted[0]] + rest;
      assert r == InsertByPercent(x, sorted);
      assert forall k :: 0 <= k < |tail| ==> tail[k] == sorted[k + 1];
      InsertUnderBound(x, tail, sorted[0].matchingPercent);
      forall i, j | 0 <= i < j < |r| ensures r[i].matchingPercent >= r[j].matchingPercent {
        if i > 0 {
          assert r[i] == rest[i - 1] && r[j] == rest[j - 1];
        } else {
          assert r[j] == rest[j - 1];
        }
      }
    }
  }

  /** The sorted settings run from the best match to the worst. */
  lemma {:induction false} SortIsDescending(s: seq<WeightedFeedbackSetting>)
    ensures DescendingByPercent(SortByPercentDescending(s))
  {
    if s != [] {
      SortIsDescending(s[1..]);
      InsertKeepsDescending(s[0], SortByPercentDescending(s[1..]));
    }
  }

  /** The settings matching exactly `percent`, as a test. */
  function HasPercent(percent: int): WeightedFeedbackSetting -> bool
  {
    (w: WeightedFeedbackSetting) => w.matchingPercent == percent
  }

  lemma {:induction false} InsertStable(x: WeightedFeedbackSetting, sorted: seq<WeightedFeedbackSetting>, percent: int)
    ensures Filter(InsertByPercent(x, sorted), HasPercent(percent))
            == (if x.matchingPercent == percent then [x] else []) + Filter(sorted, HasPercent(percent))
  {
    var p := HasPercent(percent);
    if sorted == [] || x.matchingPercent >= sorted[0].matchingPercent {
      FilterConcat([x], sorted, p);
    } else {
      var tail := sorted[1..];
      InsertStable(x, tail, percent);
      FilterConcat([sorted[0]], InsertByPercent(x, tail), p);
      assert sorted == [sorted[0]] + tail;
      FilterConcat([sorted[0]], tail, p);
    }
  }

  /** The sort is stable: settings with equal percentages keep their order. */
  lemma {:induction false} SortIsStable(s: seq<WeightedFeedbackSetting>, percent: int)
    ensures Filter(SortByPercentDescending(s), HasPercent(percent)) == Filter(s, HasPercent(percent))
  {
    if s != [] {
      SortIsStable(s[1..], percent);
      InsertStable(s[0], SortByPercentDescending(s[1..]), percent);
    }
  }

  // ---------------------------------------------------------------------------
  // Searching

  /** Every fetched setting with its matching percentage against the search filters. */
  function Scored(settings: seq<WeightedFeedbackSetting>, searchFilters: seq<FeedbackFilter>): (r: seq<WeightedFeedbackSetting>)
    ensures |r| == |settings|
    ensures forall i :: 0 <= i < |r| ==> r[i].setting == settings[i].setting
    ensures forall i :: 0 <= i < |r| ==> r[i].matchingPercent == MatchPercentage(searchFilters, settings[i].setting.filters)
  {
    seq(|settings|, i requires 0 <= i < |settings|
                      => settings[i].(matchingPercent := MatchPercentage(searchFilters, settings[i].setting.filters)))
  }

  /** The store page `page - 1` of the settings of the person and organization, null meaning any. */
  function PageMatches(rows: seq<SettingRecord>, personId: Option<string>, organizationId: Option<string>,
                       page: int, limit: int): (r: Page)
    requires page >= 1 && limit >= 1
    ensures forall k :: 0 <= k < |r.content| ==>
              r.content[k] in rows && ExampleMatches(Example(personId, organizationId, false), r.content[k])
  {
    PageOf(Filter(rows, MatchesExample(Example(personId, organizationId, false))), page - 1, limit)
  }

  /** The fetched settings as weighted settings, none when the page lies beyond the last one. */
  function PageSettings(matches: Page, page: int): (r: seq<WeightedFeedbackSetting>)
    ensures matches.totalPages < page ==> r == []
    ensures matches.totalPages >= page ==> |r| == |matches.content|
    ensures forall k :: 0 <= k < |r| ==> k < |matches.content| && Some(r[k].setting) == ToFeedbackSetting(Some(matches.content[k]))
  {
    if matches.totalPages < page then [] else ToWeightedFeedbackSettings(Some(matches.content))
  }

  /**
   * What `getFeedbackSettings` answers: the page's settings, each scored
   * against the `x-filter-` headers, best match first.
   */
  function SearchSettings(rows: seq<SettingRecord>, headers: Option<seq<Header>>, personId: Option<string>,
                          organizationId: Option<string>, page: int, limit: int): SearchResult
    requires page >= 1 && limit >= 1 && HeaderNamesDistinct(headers)
  {
    var matches := PageMatches(rows, personId, organizationId, page, limit);
    var scored := Scored(PageSettings(matches, page), ToSearchFilters(headers));
    SearchResult(MetaData(page, limit, |scored|, matches.totalPages, matches.totalElements), SortByPercentDescending(scored))
  }

  /** Every sorted, scored setting is one of the settings scored, with a percentage between 0 and 100. */
  lemma SortedScoredElement(settings: seq<WeightedFeedbackSetting>, searchFilters: seq<FeedbackFilter>, k: int)
    requires 0 <= k < |SortByPercentDescending(Scored(settings, searchFilters))|
    ensures var w := SortByPercentDescending(Scored(settings, searchFilters))[k];
      0 <= w.matchingPercent <= PERCENTS_100 && exists j :: 0 <= j < |settings| && w.setting == settings[j].setting
  {
    var scored := Scored(settings, searchFilters);
    var w := SortByPercentDescending(scored)[k];
    assert w in multiset(scored);
    var j :| 0 <= j < |scored| && scored[j] == w;
    MatchPercentageBounds(searchFilters, settings[j].setting.filters);
  }

  /** Every setting on a page is the converted form of a stored setting of that person and organization. */
  lemma PageSettingFromRow(rows: seq<SettingRecord>, personId: Option<string>, organizationId: Option<string>,
                           page: int, limit: int, j: int)
    requires page >= 1 && limit >= 1
    requires 0 <= j < |PageSettings(PageMatches(rows, personId, organizationId, page, limit), page)|
    ensures exists i :: 0 <= i < |rows| && ExampleMatches(Example(personId, organizationId, false), rows[i])
                        && Some(PageSettings(PageMatches(rows, personId, organizationId, page, limit), page)[j].setting)
                           == ToFeedbackSetting(Some(rows[i]))
  {
    var example := Example(personId, organizationId, false);
    var all := Filter(rows, MatchesExample(example));
    var matches := PageMatches(rows, personId, organizationId, page, limit);
    var settings := PageSettings(matches, page);
    assert j < |matches.content| && Some(settings[j].setting) == ToFeedbackSetting(Some(matches.content[j]));
    var row := matches.content[j];
    assert row in rows && ExampleMatches(example, row);
    var i :| 0 <= i < |rows| && rows[i] == row;
    assert ExampleMatches(example, rows[i]) && Some(settings[j].setting) == ToFeedbackSetting(Some(rows[i]));
  }

  /**
   * The search result echoes page and limit, counts what it returns, returns
   * at most `limit` settings and nothing when the page lies beyond the last
   * one, and reports as total every stored setting of that person and
   * organization.
   */
  lemma SearchSettingsMetaData(rows: seq<SettingRecord>, headers: Option<seq<Header>>, personId: Option<string>,
                               organizationId: Option<string>, page: int, limit: int)
    requires page >= 1 && limit >= 1 && HeaderNamesDistinct(headers)
    ensures var r := SearchSettings(rows, headers, personId, organizationId, page, limit);
      r.metaData.page == page && r.metaData.limit == limit
      && r.metaData.count == |r.feedbackSettings| <= limit
      && r.metaData.totalRecords == |Filter(rows, MatchesExample(Example(personId, organizationId, false)))|
      && (r.metaData.totalPages < page ==> r.feedbackSettings == [])
  {
    var scored := Scored(PageSettings(PageMatches(rows, personId, organizationId, page, limit), page), ToSearchFilters(headers));
    var r := SortByPercentDescending(scored);
    assert |r| == |scored| by {
      assert |multiset(r)| == |multiset(scored)|;
    }
  }

  /**
   * The search result is sorted best match first, with percentages between 0
   * and 100, and each setting in it is the converted form of a stored setting
   * of that person and organization.
   */
  lemma SearchSettingsContent(rows: seq<SettingRecord>, headers: Option<seq<Header>>, personId: Option<string>,
                              organizationId: Option<string>, page: int, limit: int)
    requires page >= 1 && limit >= 1 && HeaderNamesDistinct(headers)
    ensures var r := SearchSettings(rows, headers, personId, organizationId, page, limit).feedbackSettings;
      DescendingByPercent(r)
      && (forall k :: 0 <= k < |r| ==> 0 <= r[k].matchingPercent <= PERCENTS_100)
      && (forall k :: 0 <= k < |r| ==>
            exists i :: 0 <= i < |rows| && ExampleMatches(Example(personId, organizationId, false), rows[i])
                        && Some(r[k].setting) == ToFeedbackSetting(Some(rows[i])))
  {
    var settings := PageSettings(PageMatches(rows, personId, organizationId, page, limit), page);
    var searchFilters := ToSearchFilters(headers);
    var r := SortByPercentDescending(Scored(settings, searchFilters));
    SortIsDescending(Scored(settings, searchFilters));
    forall k | 0 <= k < |r|
      ensures 0 <= r[k].matchingPercent <= PERCENTS_100
      ensures exists i :: 0 <= i < |rows| && ExampleMatches(Example(personId, organizationId, false), rows[i])
                          && Some(r[k].setting) == ToFeedbackSetting(Some(rows[i]))
    {
      SortedScoredElement(settings, searchFilters, k);
      var j :| 0 <= j < |settings| && r[k].setting == settings[j].setting;
      PageSettingFromRow(rows, personId, organizationId, page, limit, j);
    }
  }

  /** Without a person and an organization the search covers every stored setting. */
  lemma SearchWithoutOwnerCoversAll(rows: seq<SettingRecord>, headers: Option<seq<Header>>, page: int, limit: int)
    requires page >= 1 && limit >= 1 && HeaderNamesDistinct(headers)
    ensures SearchSettings(rows, headers, None, None, page, limit).metaData.totalRecords == |rows|
  {
    FilterAll(rows, MatchesExample(Example(None, None, false)));
  }

  /** The `forEach` of `getFeedbackSettings`: each setting's percentage computed against the search filters. */
  method ScoreSettings(settings: seq<WeightedFeedbackSetting>, searchFilters: seq<FeedbackFilter>)
    returns (scored: seq<WeightedFeedbackSetting>)
    requires NoNullValues(searchFilters)
    ensures scored == Scored(settings, searchFilters)
  {
    scored := [];
    var i := 0;
    while i < |settings|
      invariant 0 <= i <= |settings|
      invariant scored == Scored(settings[..i], searchFilters)
    {
      var setting := CalculateMatchPercentage(Some(searchFilters), settings[i]);
      scored := scored + [setting];
      i := i + 1;
    }
    assert settings[..i] == settings;
  }

  // ---------------------------------------------------------------------------
  // The service

  /** A create request's record once saved: the generated id and the creation stamp added. */
  function CreatedRecord(request: CreateRequest, newId: string, now: Instant): (r: SettingRecord)
    requires CreateRequestConvertible(request)
    ensures r.id == Some(newId) && r.created == Some(TruncatedToMillis(now)) && r.modified.None?
    ensures r.personId == request.personId && r.organizationId == request.organizationId
  {
    NewRecord(request).(id := Some(newId), created := Some(TruncatedToMillis(now)))
  }

  /**
   * A created setting reads back with its filters, in some order, keys
   * upper-cased and values as sent, and its channels as stored.
   */
  lemma CreatedSettingReadBack(request: CreateRequest, newId: string, now: Instant)
    requires request.filters.Some? && DistinctNonEmptyFilters(request.filters.value)
    requires request.channels.Some? ==> ChannelsConvertible(request.channels.value)
    ensures CreateRequestConvertible(request)
    ensures var s := ToFeedbackSetting(Some(CreatedRecord(request, newId, now))).value;
      s.id == Some(newId) && s.personId == request.personId && s.organizationId == request.organizationId
      && multiset(s.filters) == multiset(UpperCasedFilters(request.filters.value))
      && s.channels == StoredChannels(OrEmpty(request.channels))
  {
    CreatedFiltersReadBack(request.filters.value);
  }

  /** The lists of an update request can be converted. */
  predicate UpdateRequestConvertible(request: Option<UpdateRequest>)
  {
    request.Some? ==>
      (request.value.channels.Some? ==> ChannelsConvertible(request.value.channels.value))
      && (request.value.filters.Some? ==> FiltersConvertible(request.value.filters.value))
  }

  class FeedbackSettingsService {
    const repository: FeedbackSettingsRepository

    constructor (repository: FeedbackSettingsRepository)
      ensures this.repository == repository
    {
      this.repository := repository;
    }

    /** The table is well formed and holds one setting per person and organization. */
    predicate Valid()
      reads repository
    {
      repository.Valid() && UniqueOwners(repository.rows)
    }

    /**
     * `verifyNonExistingSettings`: the conflict when a stored setting has
     * exactly this person and this organization (null matching only null).
     */
    method VerifyNonExistingSettings(personId: Option<string>, organizationId: Option<string>) returns (problem: Option<Problem>)
      ensures problem.Some? <==> exists i :: 0 <= i < |repository.rows|
                                   && repository.rows[i].personId == personId && repository.rows[i].organizationId == organizationId
      ensures problem.Some? ==> problem.value == AlreadyExists(personId, organizationId)
    {
      forall e: SettingRecord {
        ExampleWithNullsIsExact(personId, organizationId, e);
      }
      if repository.Exists(Example(personId, organizationId, true)) {
        problem := Some(AlreadyExists(personId, organizationId));
      } else {
        problem := None;
      }
    }

    /** `createFeedbackSetting`: refuses a second setting for the same person and organization, else stores a new one. */
    method CreateFeedbackSetting(feedbackSetting: CreateRequest, newId: string, now: Instant) returns (r: Result<FeedbackSetting>)
      requires Valid() && CreateRequestConvertible(feedbackSetting) && FindRow(repository.rows, newId).None?
      modifies repository
      ensures Valid()
      ensures r.Err? <==> exists i :: 0 <= i < |old(repository.rows)|
                           && old(repository.rows)[i].personId == feedbackSetting.personId
                           && old(repository.rows)[i].organizationId == feedbackSetting.organizationId
      ensures r.Err? ==> r.problem == AlreadyExists(feedbackSetting.personId, feedbackSetting.organizationId)
                         && repository.rows == old(repository.rows)
      ensures r.Ok? ==> repository.rows == old(repository.rows) + [CreatedRecord(feedbackSetting, newId, now)]
                        && Some(r.value) == ToFeedbackSetting(Some(CreatedRecord(feedbackSetting, newId, now)))
    {
      var conflict := VerifyNonExistingSettings(feedbackSetting.personId, feedbackSetting.organizationId);
      if conflict.Some? {
        return Err(conflict.value);
      }
      var entity := ToFeedbackSettingEntity(Some(feedbackSetting));
      repository.Save(entity.value, newId, now);
      r := Ok(ToFeedbackSetting(Some(entity.value.Snapshot())).value);
      forall i, j | 0 <= i < j < |repository.rows| ensures DifferentOwners(repository.rows[i], repository.rows[j]) {
        if j < |old(repository.rows)| {
          assert DifferentOwners(old(repository.rows)[i], old(repository.rows)[j]);
        }
      }
    }

    /** `updateFeedbackSetting`: NOT_FOUND for an unknown id, else the stored setting merged with the request. */
    method UpdateFeedbackSetting(id: string, feedbackSetting: Option<UpdateRequest>, now: Instant) returns (r: Result<FeedbackSetting>)
      requires Valid() && UpdateRequestConvertible(feedbackSetting)
      modifies repository
      ensures Valid()
      ensures r.Err? <==> FindRow(old(repository.rows), id).None?
      ensures r.Err? ==> r.problem == NotFound(id) && repository.rows == old(repository.rows)
      ensures r.Ok? ==>
        var stored := FindRow(old(repository.rows), id).value;
        UpdateRequestApplicable(stored, feedbackSetting)
        && repository.rows == ReplaceRow(old(repository.rows), MergeSettings(stored, feedbackSetting, now))
        && Some(r.value) == ToFeedbackSetting(Some(MergeSettings(stored, feedbackSetting, now)))
    {
      var found := repository.FindById(id);
      if found.None? {
        return Err(NotFound(id));
      }
      var entity := found.value;
      var stored := entity.Snapshot();
      var k :| 0 <= k < |repository.rows| && repository.rows[k].id == Some(id);
      assert stored.feedbackFilters.Some? && stored.feedbackChannels.Some? by {
        FindRowAt(repository.rows, k);
      }
      MergeFeedbackSettings(entity, feedbackSetting, now);
      var merged := entity.Snapshot();
      assert merged.feedbackFilters.Some? && merged.feedbackChannels.Some?;
      ReplaceKeepsUniqueOwners(repository.rows, merged, id);
      repository.Save(entity, id, now);
      r := Ok(ToFeedbackSetting(Some(entity.Snapshot())).value);
    }

    /** `getFeedbackSettingById`: the stored setting, or NOT_FOUND. */
    method GetFeedbackSettingById(id: string) returns (r: Result<FeedbackSetting>)
      ensures r.Err? <==> FindRow(repository.rows, id).None?
      ensures r.Err? ==> r.problem == NotFound(id)
      ensures r.Ok? ==> Some(r.value) == ToFeedbackSetting(FindRow(repository.rows, id))
    {
      var found := repository.FindById(id);
      if found.None? {
        return Err(NotFound(id));
      }
      r := Ok(ToFeedbackSetting(Some(found.value.Snapshot())).value);
    }

    /** `deleteFeedbackSetting`: NOT_FOUND for an unknown id, else exactly that setting is removed. */
    method DeleteFeedbackSetting(id: string) returns (problem: Option<Problem>)
      requires Valid()
      modifies repository
      ensures Valid()
      ensures problem.Some? <==> FindRow(old(repository.rows), id).None?
      ensures problem.Some? ==> problem.value == NotFound(id) && repository.rows == old(repository.rows)
      ensures problem.None? ==>
        repository.rows == Filter(old(repository.rows), IdIsNot(id))
        && |repository.rows| == |old(repository.rows)| - 1
        && FindRow(repository.rows, id).None?
        && forall other :: other != id ==> FindRow(repository.rows, other) == FindRow(old(repository.rows), other)
    {
      if !repository.ExistsById(id) {
        return Some(NotFound(id));
      }
      DeleteRemovesOnlyThatId(repository.rows, id);
      FilterPairwise(repository.rows, IdIsNot(id), DifferentOwners);
      repository.DeleteById(id);
      problem := None;
    }

    /**
     * `getFeedbackSettings`: reads one store page, scores each setting against
     * the search filters of the headers, and sorts best match first.
     */
    method GetFeedbackSettings(headers: Option<seq<Header>>, personId: Option<string>, organizationId: Option<string>,
                               page: int, limit: int) returns (result: SearchResult)
      requires page >= 1 && limit >= 1 && HeaderNamesDistinct(headers)
      ensures result == SearchSettings(repository.rows, headers, personId, organizationId, page, limit)
    {
      var matches := repository.FindAll(Example(personId, organizationId, false), page - 1, limit);
      assert matches == PageMatches(repository.rows, personId, organizationId, page, limit);
      var settings := PageSettings(matches, page);
      var scored := ScoreSettings(settings, ToSearchFilters(headers));
      result := SearchResult(MetaData(page, limit, |scored|, matches.totalPages, matches.totalElements),
                             SortByPercentDescending(scored));
    }
  }
}
