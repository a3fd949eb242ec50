/** The request and response shapes of the feedback settings API, as plain values. */
module ApiModel {
  import opened Wrappers
  import opened ContactMethods
  import opened FeedbackChannelEmbeddables
  import opened FeedbackSettingEntities

  /** A channel as requested by a client (`RequestedFeedbackChannel`). */
  datatype RequestedChannel = RequestedChannel(
    contactMethod: Option<ContactMethod>,
    alias: Option<string>,
    destination: Option<string>,
    sendFeedback: Option<bool>)

  /** A filter as requested by a client (`RequestedFeedbackFilter`): one key, several values. */
  datatype RequestedFilter = RequestedFilter(key: Option<string>, values: Option<seq<Option<string>>>)

  /** `CreateFeedbackSettingRequest`. */
  datatype CreateRequest = CreateRequest(
    personId: Option<string>,
    organizationId: Option<string>,
    filters: Option<seq<Option<RequestedFilter>>>,
    channels: Option<seq<Option<RequestedChannel>>>)

  /** `UpdateFeedbackSettingRequest`: a null list means "leave that list alone". */
  datatype UpdateRequest = UpdateRequest(
    channels: Option<seq<Option<RequestedChannel>>>,
    filters: Option<seq<Option<RequestedFilter>>>)

  /** `FeedbackFilter`: a key with its values, as returned and as searched for. */
  datatype FeedbackFilter = FeedbackFilter(key: string, values: seq<Option<string>>)

  /** `FeedbackSetting` as returned by the API. */
  datatype FeedbackSetting = FeedbackSetting(
    id: Option<string>,
    personId: Option<string>,
    organizationId: Option<string>,
    filters: seq<FeedbackFilter>,
    channels: seq<Channel>,
    created: Option<Instant>,
    modified: Option<Instant>)

  /** `WeightedFeedbackSetting`: a setting with how well it matches a search. */
  datatype WeightedFeedbackSetting = WeightedFeedbackSetting(setting: FeedbackSetting, matchingPercent: int)

  /** One HTTP header: its name and its values. */
  datatype Header = Header(name: string, values: seq<string>)

  /** Paging information of a search result. */
  datatype MetaData = MetaData(page: int, limit: int, count: nat, totalPages: nat, totalRecords: nat)

  datatype SearchResult = SearchResult(metaData: MetaData, feedbackSettings: seq<WeightedFeedbackSetting>)
}
