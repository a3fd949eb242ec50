/** The persisted feedback setting: who it belongs to, its filters, its channels and its time stamps. */
module FeedbackSettingEntities {
  import opened Wrappers
  import opened FeedbackChannelEmbeddables

  /** One stored filter row (`FeedbackFilterEmbeddable`): an upper-cased key and one value. */
  datatype FilterRow = FilterRow(key: string, value: Option<string>)

  /** A point in time, in nanoseconds since the epoch. */
  type Instant = nat

  const NanosPerMilli: nat := 1_000_000

  /** `truncatedTo(MILLIS)`: drops the sub-millisecond part. */
  function TruncatedToMillis(t: Instant): (r: Instant)
    ensures r <= t < r + NanosPerMilli
    ensures r % NanosPerMilli == 0
  {
    t - t % NanosPerMilli
  }

  /** The seven columns of a setting, as one value. */
  datatype SettingRecord = SettingRecord(
    id: Option<string>,
    personId: Option<string>,
    organizationId: Option<string>,
    feedbackFilters: Option<seq<FilterRow>>,
    feedbackChannels: Option<seq<Channel>>,
    created: Option<Instant>,
    modified: Option<Instant>)

  /** A record with every column null. */
  const EmptyRecord := SettingRecord(None, None, None, None, None, None, None)

  class FeedbackSettingEntity {
    var id: Option<string>
    var personId: Option<string>
    var organizationId: Option<string>
    var feedbackFilters: Option<seq<FilterRow>>
    var feedbackChannels: Option<seq<Channel>>
    var created: Option<Instant>
    var modified: Option<Instant>

    /** The current value of every column. */
    function Snapshot(): (r: SettingRecord)
      reads this
      ensures r.id == id && r.personId == personId && r.organizationId == organizationId
      ensures r.feedbackFilters == feedbackFilters && r.feedbackChannels == feedbackChannels
      ensures r.created == created && r.modified == modified
    {
      SettingRecord(id, personId, organizationId, feedbackFilters, feedbackChannels, created, modified)
    }

    /** `create()`: every field null. */
    constructor ()
      ensures Snapshot() == EmptyRecord
    {
      id, personId, organizationId := None, None, None;
      feedbackFilters, feedbackChannels := None, None;
      created, modified := None, None;
    }

    method SetId(v: Option<string>)
      modifies this
      ensures Snapshot() == old(Snapshot()).(id := v)
    {
      id := v;
    }

    method WithId(v: Option<string>) returns (r: FeedbackSettingEntity)
      modifies this
      ensures Snapshot() == old(Snapshot()).(id := v) && r == this
    {
      id := v;
      r := this;
    }

    method SetPersonId(v: Option<string>)
      modifies this
      ensures Snapshot() == old(Snapshot()).(personId := v)
    {
      personId := v;
    }

    method WithPersonId(v: Option<string>) returns (r: FeedbackSettingEntity)
      modifies this
      ensures Snapshot() == old(Snapshot()).(personId := v) && r == this
    {
      personId := v;
      r := this;
    }

    method SetOrganizationId(v: Option<string>)
      modifies this
      ensures Snapshot() == old(Snapshot()).(organizationId := v)
    {
      organizationId := v;
    }

    method WithOrganizationId(v: Option<string>) returns (r: FeedbackSettingEntity)
      modifies this
      ensures Snapshot() == old(Snapshot()).(organizationId := v) && r == this
    {
      organizationId := v;
      r := this;
    }

    method SetFeedbackFilters(v: Option<seq<FilterRow>>)
      modifies this
      ensures Snapshot() == old(Snapshot()).(feedbackFilters := v)
    {
      feedbackFilters := v;
    }

    method WithFeedbackFilters(v: Option<seq<FilterRow>>) returns (r: FeedbackSettingEntity)
      modifies this
      ensures Snapshot() == old(Snapshot()).(feedbackFilters := v) && r == this
    {
      feedbackFilters := v;
      r := this;
    }

    method SetFeedbackChannels(v: Option<seq<Channel>>)
      modifies this
      ensures Snapshot() == old(Snapshot()).(feedbackChannels := v)
    {
      feedbackChannels := v;
    }

    method WithFeedbackChannels(v: Option<seq<Channel>>) returns (r: FeedbackSettingEntity)
      modifies this
      ensures Snapshot() == old(Snapshot()).(feedbackChannels := v) && r == this
    {
      feedbackChannels := v;
      r := this;
    }

    method SetCreated(v: Option<Instant>)
      modifies this
      ensures Snapshot() == old(Snapshot()).(created := v)
    {
      created := v;
    }

    method WithCreated(v: Option<Instant>) returns (r: FeedbackSettingEntity)
      modifies this
      ensures Snapshot() == old(Snapshot()).(created := v) && r == this
    {
      created := v;
      r := this;
    }

    method SetModified(v: Option<Instant>)
      modifies this
      ensures Snapshot() == old(Snapshot()).(modified := v)
    {
      modified := v;
    }

    method WithModified(v: Option<Instant>) returns (r: FeedbackSettingEntity)
      modifies this
      ensures Snapshot() == old(Snapshot()).(modified := v) && r == this
    {
      modified := v;
      r := this;
    }

    /** `prePersist`: stamps `created` with the current time to the millisecond, and nothing else. */
    method PrePersist(now: Instant)
      modifies this
      ensures Snapshot() == old(Snapshot()).(created := Some(TruncatedToMillis(now)))
    {
      created := Some(TruncatedToMillis(now));
    }

    /** `preUpdate`: stamps `modified` with the current time to the millisecond, and nothing else. */
    method PreUpdate(now: Instant)
      modifies this
      ensures Snapshot() == old(Snapshot()).(modified := Some(TruncatedToMillis(now)))
    {
      modified := Some(TruncatedToMillis(now));
    }

    /** `equals`: all seven fields equal. */
    predicate Equals(other: FeedbackSettingEntity)
      reads this, other
    {
      created == other.created && feedbackChannels == other.feedbackChannels
      && feedbackFilters == other.feedbackFilters && id == other.id
      && modified == other.modified && organizationId == other.organizationId
      && personId == other.personId
    }
  }

  /** Two entities are equal exactly when their records are. */
  lemma EqualsIsRecordEquality(a: FeedbackSettingEntity, b: FeedbackSettingEntity)
    ensures a.Equals(b) <==> a.Snapshot() == b.Snapshot()
  {
  }

  /** `equals` is an equivalence: reflexive and symmetric. */
  lemma EqualsReflexiveSymmetric(a: FeedbackSettingEntity, b: FeedbackSettingEntity)
    ensures a.Equals(a)
    ensures a.Equals(b) ==> b.Equals(a)
  {
  }
}
