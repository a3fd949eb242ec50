/**
 * The feedback settings table behind `FeedbackSettingsRepository`: a list of
 * stored records with the lookups, writes, query-by-example and paging the
 * service uses.
 */
module FeedbackSettingsRepositories {
  import opened Wrappers
  import opened Sequences
  import opened FeedbackSettingEntities
  import opened FeedbackSettingsMapper

  /** The stored record with the given id, if any. */
  function FindRow(rows: seq<SettingRecord>, id: string): (r: Option<SettingRecord>)
    ensures r.Some? <==> exists i :: 0 <= i < |rows| && rows[i].id == Some(id)
    ensures r.Some? ==> r.value in rows && r.value.id == Some(id)
  {
    if rows == [] then None
    else if rows[0].id == Some(id) then Some(rows[0])
    else
      var rest := FindRow(rows[1..], id);
      assert forall i :: 1 <= i < |rows| ==> rows[i] == rows[1..][i - 1];
      rest
  }

  /** With unique ids, the record found is the one at the position holding that id. */
  lemma FindRowAt(rows: seq<SettingRecord>, i: nat)
    requires UniqueIds(rows) && i < |rows| && rows[i].id.Some?
    ensures FindRow(rows, rows[i].id.value) == Some(rows[i])
  {
    var r := FindRow(rows, rows[i].id.value);
    var k :| 0 <= k < |rows| && rows[k] == r.value;
  }

  /** Every stored record has an id, and no two share one (the primary key). */
  predicate UniqueIds(rows: seq<SettingRecord>)
  {
    (forall i :: 0 <= i < |rows| ==> rows[i].id.Some?)
    && forall i, j :: 0 <= i < j < |rows| ==> rows[i].id != rows[j].id
  }

  /** Element collections are read back as lists, empty when nothing is stored. */
  predicate HasLists(rows: seq<SettingRecord>)
  {
    forall i :: 0 <= i < |rows| ==> rows[i].feedbackFilters.Some? && rows[i].feedbackChannels.Some?
  }

  /** A record as the table holds it: a null collection is stored as no rows. */
  function Stored(rec: SettingRecord): (r: SettingRecord)
    ensures r.feedbackFilters.Some? && r.feedbackChannels.Some?
    ensures rec.feedbackFilters.Some? && rec.feedbackChannels.Some? ==> r == rec
  {
    rec.(feedbackFilters := Some(OrEmpty(rec.feedbackFilters)), feedbackChannels := Some(OrEmpty(rec.feedbackChannels)))
  }

  /** The records other than the one with the given id. */
  function IdIsNot(id: string): SettingRecord -> bool
  {
    (r: SettingRecord) => r.id != Some(id)
  }

  /** The table after writing `rec` over the record with the same id. */
  function ReplaceRow(rows: seq<SettingRecord>, rec: SettingRecord): (r: seq<SettingRecord>)
    ensures |r| == |rows|
    ensures forall i :: 0 <= i < |rows| ==> r[i] == if rows[i].id == rec.id then rec else rows[i]
  {
    seq(|rows|, i requires 0 <= i < |rows| => if rows[i].id == rec.id then rec else rows[i])
  }

  /** Replacing the record of a present id keeps the ids, puts `rec` in its place and leaves every other record alone. */
  lemma ReplaceRowFound(rows: seq<SettingRecord>, rec: SettingRecord, id: string)
    requires UniqueIds(rows) && FindRow(rows, id).Some? && rec.id == Some(id)
    ensures UniqueIds(ReplaceRow(rows, rec))
    ensures FindRow(ReplaceRow(rows, rec), id) == Some(rec)
    ensures forall other :: other != id ==> FindRow(ReplaceRow(rows, rec), other) == FindRow(rows, other)
  {
    var r := ReplaceRow(rows, rec);
    var k :| 0 <= k < |rows| && rows[k].id == Some(id);
    assert r[k] == rec;
    FindRowAt(r, k);
    forall other | other != id ensures FindRow(r, other) == FindRow(rows, other) {
      if FindRow(rows, other).Some? {
        var j :| 0 <= j < |rows| && rows[j].id == Some(other);
        FindRowAt(rows, j);
        FindRowAt(r, j);
      }
    }
  }

  /** Deleting by id removes exactly that record and keeps the ids unique. */
  lemma DeleteRemovesOnlyThatId(rows: seq<SettingRecord>, id: string)
    requires UniqueIds(rows)
    ensures UniqueIds(Filter(rows, IdIsNot(id)))
    ensures FindRow(Filter(rows, IdIsNot(id)), id).None?
    ensures forall other :: other != id ==> FindRow(Filter(rows, IdIsNot(id)), other) == FindRow(rows, other)
    ensures FindRow(rows, id).Some? ==> |Filter(rows, IdIsNot(id))| == |rows| - 1
  {
    FilterKeepsUniqueIds(rows, id);
    FilterDropsOne(rows, id);
    var r := Filter(rows, IdIsNot(id));
    forall other | other != id ensures FindRow(r, other) == FindRow(rows, other) {
      if FindRow(rows, other).Some? {
        var j :| 0 <= j < |rows| && rows[j].id == Some(other);
        assert rows[j] in r;
        var k :| 0 <= k < |r| && r[k] == rows[j];
        FindRowAt(rows, j);
        FindRowAt(r, k);
      }
    }
  }

  lemma UniqueIdsTail(rows: seq<SettingRecord>)
    requires UniqueIds(rows) && rows != []
    ensures UniqueIds(rows[1..])
    ensures forall j :: 0 <= j < |rows[1..]| ==> rows[1..][j].id != rows[0].id
  {
    var tail := rows[1..];
    forall i, j | 0 <= i < j < |tail| ensures tail[i].id != tail[j].id {
      assert tail[i] == rows[i + 1] && tail[j] == rows[j + 1];
    }
    forall j | 0 <= j < |tail| ensures tail[j].id != rows[0].id {
      assert tail[j] == rows[j + 1];
    }
  }

  lemma {:induction false} FilterKeepsUniqueIds(rows: seq<SettingRecord>, id: string)
    requires UniqueIds(rows)
    ensures UniqueIds(Filter(rows, IdIsNot(id)))
  {
    if rows != [] {
      var tail := rows[1..];
      UniqueIdsTail(rows);
      FilterKeepsUniqueIds(tail, id);
      var r := Filter(rows, IdIsNot(id));
      var rest := Filter(tail, IdIsNot(id));
      if IdIsNot(id)(rows[0]) {
        assert r == [rows[0]] + rest;
        forall k | 0 <= k < |rest| ensures rest[k].id != rows[0].id {
          assert rest[k] in tail;
        }
        forall i, j | 0 <= i < j < |r| ensures r[i].id != r[j].id {
          if i > 0 {
            assert r[i] == rest[i - 1] && r[j] == rest[j - 1];
          } else {
            assert r[j] == rest[j - 1];
          }
        }
      } else {
        assert r == rest;
      }
    }
  }

  lemma {:induction false} FilterDropsOne(rows: seq<SettingRecord>, id: string)
    requires UniqueIds(rows)
    ensures FindRow(rows, id).Some? ==> |Filter(rows, IdIsNot(id))| == |rows| - 1
    ensures FindRow(rows, id).None? ==> |Filter(rows, IdIsNot(id))| == |rows|
  {
    if rows != [] {
      var tail := rows[1..];
      UniqueIdsTail(rows);
      FilterDropsOne(tail, id);
      assert Filter(rows, IdIsNot(id)) == (if IdIsNot(id)(rows[0]) then [rows[0]] else []) + Filter(tail, IdIsNot(id));
      assert forall j :: 1 <= j < |rows| ==> rows[j] == tail[j - 1];
      if !IdIsNot(id)(rows[0]) {
        FilterAll(tail, IdIsNot(id));
      }
    }
  }

  /** The records an example matches, as a test. */
  function MatchesExample(example: Example): SettingRecord -> bool
  {
    (r: SettingRecord) => ExampleMatches(example, r)
  }

  /** One page of a query result, as Spring Data reports it. */
  datatype Page = Page(content: seq<SettingRecord>, totalPages: nat, totalElements: nat)

  /** `PageImpl.getTotalPages()` for a page size of at least one: the total divided by the size, rounded up. */
  function CeilDiv(total: nat, size: nat): (r: nat)
    requires size > 0
    ensures (r - 1) * size < total <= r * size || (total == 0 && r == 0)
  {
    (total + size - 1) / size
  }

  /** Page `pageIndex` (counted from 0) of `size` records of the matches: the records from `pageIndex * size` on. */
  function PageOf(matches: seq<SettingRecord>, pageIndex: nat, size: nat): (r: Page)
    requires size > 0
    ensures r.totalElements == |matches| && r.totalPages == CeilDiv(|matches|, size)
    ensures |r.content| <= size
    ensures forall k :: 0 <= k < |r.content| ==> pageIndex * size + k < |matches| && r.content[k] == matches[pageIndex * size + k]
    ensures forall k :: 0 <= k < |r.content| ==> r.content[k] in matches
  {
    var from := pageIndex * size;
    var to := if from + size <= |matches| then from + size else |matches|;
    Page(if from < |matches| then matches[from..to] else [], CeilDiv(|matches|, size), |matches|)
  }

  /** A page is empty exactly when it lies beyond the last page, so no page before the last is empty. */
  lemma PageEmptyIffBeyondLast(matches: seq<SettingRecord>, pageIndex: nat, size: nat)
    requires size > 0
    ensures PageOf(matches, pageIndex, size).content == [] <==> PageOf(matches, pageIndex, size).totalPages <= pageIndex
  {
    var total, pages := |matches|, CeilDiv(|matches|, size);
    if pageIndex * size < total {
      assert pages > pageIndex by {
        if pages <= pageIndex {
          MulMonotonicNat(size, pages, pageIndex);
        }
      }
      assert PageOf(matches, pageIndex, size).content[0] == matches[pageIndex * size];
    } else if pages > pageIndex {
      assert (pages - 1) * size >= pageIndex * size by {
        MulMonotonicNat(size, pageIndex, pages - 1);
      }
    }
  }

  /** Every match lies on exactly one page: record `i` is entry `i % size` of page `i / size`. */
  lemma PagesCoverMatches(matches: seq<SettingRecord>, size: nat, i: nat)
    requires size > 0 && i < |matches|
    ensures i % size < |PageOf(matches, i / size, size).content|
    ensures PageOf(matches, i / size, size).content[i % size] == matches[i]
  {
    var q, m := i / size, i % size;
    var from := q * size;
    DivModParts(i, size);
    var to := if from + size <= |matches| then from + size else |matches|;
    assert PageOf(matches, q, size).content == matches[from..to];
    assert i < to;
  }

  lemma DivModParts(i: nat, size: nat)
    requires size > 0
    ensures (i / size) * size + i % size == i && i % size < size
  {
  }

  lemma MulMonotonicNat(a: nat, b: nat, c: nat)
    requires b <= c
    ensures b * a <= c * a
  {
  }

  /** The stored feedback settings, in insertion order. */
  class FeedbackSettingsRepository {
    var rows: seq<SettingRecord>

    predicate Valid()
      reads this
    {
      UniqueIds(rows) && HasLists(rows)
    }

    /** An empty table. */
    constructor ()
      ensures rows == [] && Valid()
    {
      rows := [];
    }

    /** `existsById`. */
    function ExistsById(id: string): (r: bool)
      reads this
      ensures r <==> exists i :: 0 <= i < |rows| && rows[i].id == Some(id)
    {
      FindRow(rows, id).Some?
    }

    /** `findById`: a new managed entity holding the stored record, or nothing. */
    method FindById(id: string) returns (entity: Option<FeedbackSettingEntity>)
      ensures entity.None? <==> FindRow(rows, id).None?
      ensures entity.Some? ==> fresh(entity.value) && entity.value.Snapshot() == FindRow(rows, id).value
    {
      var row := FindRow(rows, id);
      if row.None? {
        return None;
      }
      var rec := row.value;
      var e := new FeedbackSettingEntity();
      e := e.WithId(rec.id);
      e := e.WithPersonId(rec.personId);
      e := e.WithOrganizationId(rec.organizationId);
      e := e.WithFeedbackFilters(rec.feedbackFilters);
      e := e.WithFeedbackChannels(rec.feedbackChannels);
      e := e.WithCreated(rec.created);
      e := e.WithModified(rec.modified);
      entity := Some(e);
    }

    /** `deleteById`: drops the record with that id. */
    method DeleteById(id: string)
      requires Valid()
      modifies this
      ensures rows == Filter(old(rows), IdIsNot(id)) && Valid()
    {
      DeleteRemovesOnlyThatId(rows, id);
      rows := Filter(rows, IdIsNot(id));
    }

    /**
     * `save`: an entity without an id is persisted, getting the generated id
     * `newId` and its `created` stamp; an entity with a stored id overwrites
     * that record.
     */
    method Save(entity: FeedbackSettingEntity, newId: string, now: Instant)
      requires Valid()
      requires entity.id.None? ==> FindRow(rows, newId).None?
      requires entity.id.Some? ==> FindRow(rows, entity.id.value).Some?
      modifies this, entity
      ensures Valid()
      ensures old(entity.id).None? ==>
        entity.Snapshot() == old(entity.Snapshot()).(id := Some(newId), created := Some(TruncatedToMillis(now)))
        && rows == old(rows) + [Stored(entity.Snapshot())]
      ensures old(entity.id).Some? ==>
        entity.Snapshot() == old(entity.Snapshot()) && rows == ReplaceRow(old(rows), Stored(entity.Snapshot()))
    {
      if entity.id.None? {
        entity.SetId(Some(newId));
        entity.PrePersist(now);
        var rec := Stored(entity.Snapshot());
        forall i | 0 <= i < |rows| ensures rows[i].id != Some(newId) {
        }
        rows := rows + [rec];
      } else {
        var rec := Stored(entity.Snapshot());
        ReplaceRowFound(rows, rec, entity.id.value);
        rows := ReplaceRow(rows, rec);
      }
    }

    /** `exists(example)`: some stored record matches the example. */
    function Exists(example: Example): (r: bool)
      reads this
      ensures r <==> exists i :: 0 <= i < |rows| && ExampleMatches(example, rows[i])
    {
      var matches := Filter(rows, MatchesExample(example));
      assert matches != [] ==> matches[0] in rows && ExampleMatches(example, matches[0]);
      matches != []
    }

    /** `findAll(example, PageRequest.of(pageIndex, size))`: one page of the matching records, in stored order. */
    function FindAll(example: Example, pageIndex: nat, size: nat): (r: Page)
      reads this
      requires size > 0
      ensures |r.content| <= size
      ensures forall k :: 0 <= k < |r.content| ==> r.content[k] in rows && ExampleMatches(example, r.content[k])
      ensures r.totalElements == |Filter(rows, MatchesExample(example))|
    {
      PageOf(Filter(rows, MatchesExample(example)), pageIndex, size)
    }
  }
}
