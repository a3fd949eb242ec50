# Feedback settings service, modelled in Dafny

The feedback settings service stores, per person and optionally per
organization, how that person wants to be asked for feedback:
- a list of **channels**: a contact method (SMS or EMAIL), an alias, a destination and a send-feedback flag;
- a list of **filters**: a key with values.

Clients create, update, read and delete settings. They also search them by person and organization. The search is paged, and each hit is scored by how well its filters match the `x-filter-*` headers of the request.

This project models the core of that service:

- wrappers.dfy: Java `null` as `Option`, thrown problems as `Result`.
- strings.dfy: ASCII case folding, `trim`, `isBlank` over the whitespace of `Character.isWhitespace`, case-insensitive order.
- sequences.dfy: the stream operations the service uses.
- `contact_method.dfy`: the `ContactMethod` enumeration and `toEnum`.
- `feedback_channel_embeddable.dfy`: the stored channel row, a class with its setters. It keeps the contact method as the enumeration's name.
- `feedback_setting_entity.dfy`: the stored setting, a class with its builders and its life-cycle stamps, plus `SettingRecord`, the value of its seven columns.
- `api_model.dfy`: the request and response shapes.
- `mapping_utils.dfy`: how a stored list is reconciled with a requested one. It computes the removed and the added elements under case-insensitive matching.
- `calculation_utils.dfy`: the matching percentage of a setting against search filters. It includes the counting loop and the half-up rounding.
- `distinct_values.dfy`: header values collected into a case-insensitive tree set.
- `feedback_settings_mapper.dfy`: the conversions between requests, entities and responses, the search filters read from headers, query-by-example, and the in-place merge of an update request.
- validators.dfy: the four request validators: unique filter keys, unique filter values, unique channels, and destination format.
- repository.dfy: the settings table behind the repository. It is a class over a list of records, with look-up by id, save, delete, query-by-example and paging.
- `feedback_settings_service.dfy`: the service.
  - The create conflict check, where a null organization only matches null.
  - The NOT_FOUND paths of update, get and delete.
  - The search: store page `page - 1`, nothing beyond the last page, scoring, and a stable sort from best to worst match.
  - The invariant that no two stored settings share a person and an organization.

Where the documentation and the code disagree, the model follows the code:
- getFeedbackSettings is commented "sorted ascending", but its comparator `o2 - o1` sorts descending. The model sorts descending.
- The javadoc of `calculateMatchPercentage` says stored filters that no search filter names add to the total. The code divides by the number of search filters plus one. The model does the same, and `CalculationUtils.UnsearchedFiltersIgnored` states that such filters change nothing.

## Model

| member | source | states |
|---|---|---|
| ContactMethods.ToEnum | src/main/java/se/sundsvall/feedbacksettings/ContactMethod.java:15-21 | parses exactly when the text equals a value name ignoring case; a null or unknown text gives BAD_REQUEST "Invalid value for enum ContactMethod: <text>" |
| ContactMethods.NamesDifferIgnoringCase | src/main/java/se/sundsvall/feedbacksettings/ContactMethod.java:11 | SMS and EMAIL cannot be confused even ignoring case |
| ContactMethods.ToEnumName | src/main/java/se/sundsvall/feedbacksettings/ContactMethod.java:15-19 | round trip: parsing the name of a value gives that value back |
| ContactMethods.ToEnumIgnoresCase | src/main/java/se/sundsvall/feedbacksettings/ContactMethod.java:17 | any spelling of a name, ignoring case, parses to its value |
| ContactMethods.ToEnumExamples | src/test/java/se/sundsvall/feedbacksettings/ContactMethodTest.java:13-25 | "sms" and "eMail" parse; "FAX" and null are rejected with the text in the message |
| FeedbackChannelEmbeddables.EncodeMethod | src/main/java/se/sundsvall/feedbacksettings/integration/db/model/FeedbackChannelEmbeddable.java:64-66 | null is written as null, a method as a name that parses back to it |
| FeedbackChannelEmbeddables.EncodeMethodInjective | src/main/java/se/sundsvall/feedbacksettings/integration/db/model/FeedbackChannelEmbeddable.java:64-66 | distinct methods are written differently |
| FeedbackChannelEmbeddables.FeedbackChannelEmbeddable.constructor | src/main/java/se/sundsvall/feedbacksettings/integration/db/model/FeedbackChannelEmbeddable.java:30-32 | a fresh row has null strings and sendFeedback false |
| FeedbackChannelEmbeddables.FeedbackChannelEmbeddable.GetContactMethod | src/main/java/se/sundsvall/feedbacksettings/integration/db/model/FeedbackChannelEmbeddable.java:60-62 | null reads as null; a stored name reads as the method it parses to, and a bad name fails as the parse does |
| FeedbackChannelEmbeddables.FeedbackChannelEmbeddable.Value | src/main/java/se/sundsvall/feedbacksettings/integration/db/model/FeedbackChannelEmbeddable.java:18-28 | the decoded channel writes back to exactly the stored columns |
| FeedbackChannelEmbeddables.FeedbackChannelEmbeddable.SetAlias | src/main/java/se/sundsvall/feedbacksettings/integration/db/model/FeedbackChannelEmbeddable.java:38-40 | sets only the alias |
| FeedbackChannelEmbeddables.FeedbackChannelEmbeddable.WithAlias | src/main/java/se/sundsvall/feedbacksettings/integration/db/model/FeedbackChannelEmbeddable.java:42-45 | sets only the alias and returns the same object |
| FeedbackChannelEmbeddables.FeedbackChannelEmbeddable.SetDestination | src/main/java/se/sundsvall/feedbacksettings/integration/db/model/FeedbackChannelEmbeddable.java:51-53 | sets only the destination |
| FeedbackChannelEmbeddables.FeedbackChannelEmbeddable.WithDestination | src/main/java/se/sundsvall/feedbacksettings/integration/db/model/FeedbackChannelEmbeddable.java:55-58 | sets only the destination and returns the same object |
| FeedbackChannelEmbeddables.FeedbackChannelEmbeddable.SetContactMethod | src/main/java/se/sundsvall/feedbacksettings/integration/db/model/FeedbackChannelEmbeddable.java:64-66 | stores the name (null for null) and reading it back gives the same method |
| FeedbackChannelEmbeddables.FeedbackChannelEmbeddable.WithContactMethod | src/main/java/se/sundsvall/feedbacksettings/integration/db/model/FeedbackChannelEmbeddable.java:68-71 | as SetContactMethod, returning the same object |
| FeedbackChannelEmbeddables.FeedbackChannelEmbeddable.SetSendFeedback | src/main/java/se/sundsvall/feedbacksettings/integration/db/model/FeedbackChannelEmbeddable.java:77-79 | sets only the flag |
| FeedbackChannelEmbeddables.FeedbackChannelEmbeddable.WithSendFeedback | src/main/java/se/sundsvall/feedbacksettings/integration/db/model/FeedbackChannelEmbeddable.java:81-84 | sets only the flag and returns the same object |
| FeedbackChannelEmbeddables.EqualsIsValueEquality | src/main/java/se/sundsvall/feedbacksettings/integration/db/model/FeedbackChannelEmbeddable.java:91-102 | for rows written through the setters, exact column equality is equality of the channels they describe |
| FeedbackChannelEmbeddables.Embed | src/main/java/se/sundsvall/feedbacksettings/service/mapper/FeedbackSettingsMapper.java:79-83 | the builder chain yields a fresh row describing exactly the given channel |
| FeedbackSettingEntities.TruncatedToMillis | src/main/java/se/sundsvall/feedbacksettings/integration/db/model/FeedbackSettingEntity.java:162 | the result is a whole millisecond, at most the instant and less than a millisecond before it |
| FeedbackSettingEntities.FeedbackSettingEntity.Snapshot | src/main/java/se/sundsvall/feedbacksettings/integration/db/model/FeedbackSettingEntity.java:37-63 | the record holds exactly the seven fields |
| FeedbackSettingEntities.FeedbackSettingEntity.constructor | src/main/java/se/sundsvall/feedbacksettings/integration/db/model/FeedbackSettingEntity.java:65-67 | `create()` leaves every field null |
| FeedbackSettingEntities.FeedbackSettingEntity.SetId | src/main/java/se/sundsvall/feedbacksettings/integration/db/model/FeedbackSettingEntity.java:73-75 | changes the id and nothing else |
| FeedbackSettingEntities.FeedbackSettingEntity.WithId | src/main/java/se/sundsvall/feedbacksettings/integration/db/model/FeedbackSettingEntity.java:77-80 | changes the id and nothing else, returns the same object |
| FeedbackSettingEntities.FeedbackSettingEntity.SetPersonId | src/main/java/se/sundsvall/feedbacksettings/integration/db/model/FeedbackSettingEntity.java:86-88 | changes personId and nothing else |
| FeedbackSettingEntities.FeedbackSettingEntity.WithPersonId | src/main/java/se/sundsvall/feedbacksettings/integration/db/model/FeedbackSettingEntity.java:90-93 | changes personId and nothing else, returns the same object |
| FeedbackSettingEntities.FeedbackSettingEntity.SetOrganizationId | src/main/java/se/sundsvall/feedbacksettings/integration/db/model/FeedbackSettingEntity.java:99-101 | changes organizationId and nothing else |
| FeedbackSettingEntities.FeedbackSettingEntity.WithOrganizationId | src/main/java/se/sundsvall/feedbacksettings/integration/db/model/FeedbackSettingEntity.java:103-106 | changes organizationId and nothing else, returns the same object |
| FeedbackSettingEntities.FeedbackSettingEntity.SetFeedbackFilters | src/main/java/se/sundsvall/feedbacksettings/integration/db/model/FeedbackSettingEntity.java:112-114 | changes the filter list and nothing else |
| FeedbackSettingEntities.FeedbackSettingEntity.WithFeedbackFilters | src/main/java/se/sundsvall/feedbacksettings/integration/db/model/FeedbackSettingEntity.java:116-119 | changes the filter list and nothing else, returns the same object |
| FeedbackSettingEntities.FeedbackSettingEntity.SetFeedbackChannels | src/main/java/se/sundsvall/feedbacksettings/integration/db/model/FeedbackSettingEntity.java:125-127 | changes the channel list and nothing else |
| FeedbackSettingEntities.FeedbackSettingEntity.WithFeedbackChannels | src/main/java/se/sundsvall/feedbacksettings/integration/db/model/FeedbackSettingEntity.java:129-132 | changes the channel list and nothing else, returns the same object |
| FeedbackSettingEntities.FeedbackSettingEntity.SetCreated | src/main/java/se/sundsvall/feedbacksettings/integration/db/model/FeedbackSettingEntity.java:138-140 | changes created and nothing else |
| FeedbackSettingEntities.FeedbackSettingEntity.WithCreated | src/main/java/se/sundsvall/feedbacksettings/integration/db/model/FeedbackSettingEntity.java:142-145 | changes created and nothing else, returns the same object |
| FeedbackSettingEntities.FeedbackSettingEntity.SetModified | src/main/java/se/sundsvall/feedbacksettings/integration/db/model/FeedbackSettingEntity.java:151-153 | changes modified and nothing else |
| FeedbackSettingEntities.FeedbackSettingEntity.WithModified | src/main/java/se/sundsvall/feedbacksettings/integration/db/model/FeedbackSettingEntity.java:155-158 | changes modified and nothing else, returns the same object |
| FeedbackSettingEntities.FeedbackSettingEntity.PrePersist | src/main/java/se/sundsvall/feedbacksettings/integration/db/model/FeedbackSettingEntity.java:160-163 | sets only created, to now truncated to milliseconds |
| FeedbackSettingEntities.FeedbackSettingEntity.PreUpdate | src/main/java/se/sundsvall/feedbacksettings/integration/db/model/FeedbackSettingEntity.java:165-168 | sets only modified, to now truncated to milliseconds |
| FeedbackSettingEntities.EqualsIsRecordEquality | src/main/java/se/sundsvall/feedbacksettings/integration/db/model/FeedbackSettingEntity.java:175-188 | `equals` holds exactly when all seven fields are equal |
| FeedbackSettingEntities.EqualsReflexiveSymmetric | src/main/java/se/sundsvall/feedbacksettings/integration/db/model/FeedbackSettingEntity.java:175-188 | `equals` is reflexive and symmetric |
| MappingUtils.Removed | src/main/java/se/sundsvall/feedbacksettings/service/util/MappingUtils.java:39-41 | exactly the stored elements, in stored order, that no requested element matches |
| MappingUtils.Added | src/main/java/se/sundsvall/feedbacksettings/service/util/MappingUtils.java:67-69 | exactly the requested elements, in request order, that no stored element matches |
| MappingUtils.ChannelsMatchIsEquivalence | src/main/java/se/sundsvall/feedbacksettings/service/util/MappingUtils.java:72-79 | channel matching (alias and destination ignoring case, null only with null, same method and flag) is reflexive and symmetric |
| MappingUtils.FiltersMatchIsEquivalence | src/main/java/se/sundsvall/feedbacksettings/service/util/MappingUtils.java:134-139 | filter matching (key and value ignoring case) is reflexive and symmetric |
| MappingUtils.GetRemovedFeedbackChannels | src/main/java/se/sundsvall/feedbacksettings/service/util/MappingUtils.java:34-42 | a null request or a null stored list removes nothing; otherwise the stored channels the request does not match |
| MappingUtils.GetAddedFeedbackChannels | src/main/java/se/sundsvall/feedbacksettings/service/util/MappingUtils.java:59-70 | no entity or no stored list adds the whole request (nothing if null); a null request adds nothing; otherwise the requested channels nothing stored matches |
| MappingUtils.GetRemovedFeedbackFilters | src/main/java/se/sundsvall/feedbacksettings/service/util/MappingUtils.java:96-104 | as for channels, with filter matching |
| MappingUtils.GetAddedFeedbackFilters | src/main/java/se/sundsvall/feedbacksettings/service/util/MappingUtils.java:121-132 | as for channels, with filter matching |
| MappingUtils.RemovedAddedDisjoint | src/main/java/se/sundsvall/feedbacksettings/service/util/MappingUtils.java:34-70 | with a reflexive match no element is both removed and added |
| MappingUtils.SameListChangesNothing | src/main/java/se/sundsvall/feedbacksettings/service/util/MappingUtils.java:34-70 | a request matching the stored list element by element removes and adds nothing |
| MappingUtils.ChannelsSameIgnoringCaseUnchanged | src/test/java/se/sundsvall/feedbacksettings/service/util/MappingUtilsChannelsTest.java:109-128 | re-sending the stored channels in other letter case adds and removes nothing |
| MappingUtils.FiltersSameIgnoringCaseUnchanged | src/test/java/se/sundsvall/feedbacksettings/service/util/MappingUtilsFiltersTest.java:158-174 | re-sending the stored filters in other letter case adds and removes nothing |
| CalculationUtils.MatchCountAtMostSize | src/main/java/se/sundsvall/feedbacksettings/service/util/CalculationUtils.java:51-54 | the matched search filters number at most the search filters |
| CalculationUtils.MatchCountAllMatch | src/main/java/se/sundsvall/feedbacksettings/service/util/CalculationUtils.java:51-54 | the count equals the number of search filters exactly when every one matches |
| CalculationUtils.PercentOf | src/main/java/se/sundsvall/feedbacksettings/service/util/CalculationUtils.java:57 | the percentage is 100 * matching / total rounded to the nearest whole number, halves up |
| CalculationUtils.PercentOfBounds | src/main/java/se/sundsvall/feedbacksettings/service/util/CalculationUtils.java:57 | a share of at most the whole lies in 0..100, and the whole is 100 |
| CalculationUtils.PercentOfExamples | src/main/java/se/sundsvall/feedbacksettings/service/util/CalculationUtils.java:57 | 2 of 3 gives 67, 1 of 2 gives 50, 199 of 200 rounds up to 100 |
| CalculationUtils.CalculateMatchPercentage | src/main/java/se/sundsvall/feedbacksettings/service/util/CalculationUtils.java:45-58 | a null filter list leaves the setting as it is; otherwise the loop counts one plus the matching filters and sets the rounded percentage, nothing else |
| CalculationUtils.MatchPercentageBounds | src/main/java/se/sundsvall/feedbacksettings/service/util/CalculationUtils.java:51-57 | the percentage lies in 0..100 and is 100 when every search filter matches |
| CalculationUtils.NoSearchFiltersIsFullMatch | src/test/java/se/sundsvall/feedbacksettings/service/util/CalculationUtilsTest.java:52-57 | no search filters give 100 whatever the setting filters |
| CalculationUtils.UnknownKeyMatches | src/main/java/se/sundsvall/feedbacksettings/service/util/CalculationUtils.java:60-64 | a search filter on a key the setting does not filter on matches |
| CalculationUtils.UnsearchedFiltersIgnored | src/test/java/se/sundsvall/feedbacksettings/service/util/CalculationUtilsTest.java:110-148 | setting filters under keys no search filter names change neither the count nor the percentage |
| CalculationUtils.TwoFiltersOneMatchedExample | src/test/java/se/sundsvall/feedbacksettings/service/util/CalculationUtilsTest.java:86-100 | two search filters of which one matches give 67 |
| DistinctValues.TreeAddElements | src/main/java/se/sundsvall/feedbacksettings/service/mapper/FeedbackSettingsMapper.java:212 | adding keeps every element, brings in only x, and brings in x unless a same value is present |
| DistinctValues.TreeAddSorted | src/main/java/se/sundsvall/feedbacksettings/service/mapper/FeedbackSettingsMapper.java:212 | adding keeps the set sorted and changes nothing when a same value is present |
| DistinctValues.TreeSetOfProperties | src/main/java/se/sundsvall/feedbacksettings/service/mapper/FeedbackSettingsMapper.java:210-214 | the contents are strictly sorted, hold every added value up to the comparator, and each is the first added of its class |
| DistinctValues.CaseInsensitiveOrder | src/main/java/se/sundsvall/feedbacksettings/service/mapper/FeedbackSettingsMapper.java:211 | the case-insensitive comparator is a strict weak order whose "same" is equality ignoring case |
| DistinctValues.GetDistinctValues | src/main/java/se/sundsvall/feedbacksettings/service/mapper/FeedbackSettingsMapper.java:210-214 | the loop returns values sorted ignoring case, one per case-insensitive class, each the first spelling given |
| DistinctValues.DistinctValuesExample | src/main/java/se/sundsvall/feedbacksettings/service/mapper/FeedbackSettingsMapper.java:210-214 | "b", "A", "a", "B" collect to "A", "b" |
| FeedbackSettingsMapper.FilterRows | src/main/java/se/sundsvall/feedbacksettings/service/mapper/FeedbackSettingsMapper.java:61-66 | null filters are skipped; there are exactly as many rows as the non-null filters hold values |
| FeedbackSettingsMapper.FilterRowsInOrder | src/main/java/se/sundsvall/feedbacksettings/service/mapper/FeedbackSettingsMapper.java:61-74 | value j of non-null filter i is the row right after the values of the filters before i: rows come filter by filter, value by value |
| FeedbackSettingsMapper.RowsOf | src/main/java/se/sundsvall/feedbacksettings/service/mapper/FeedbackSettingsMapper.java:68-74 | one row per value, key upper-cased, value unchanged, in order |
| FeedbackSettingsMapper.FilterRowsSound | src/main/java/se/sundsvall/feedbacksettings/service/mapper/FeedbackSettingsMapper.java:61-74 | every stored row comes from a value of a non-null filter, under its upper-cased key |
| FeedbackSettingsMapper.FilterRowsComplete | src/main/java/se/sundsvall/feedbacksettings/service/mapper/FeedbackSettingsMapper.java:61-74 | every value of a non-null filter gives a row under the upper-cased key |
| FeedbackSettingsMapper.StoredChannel | src/main/java/se/sundsvall/feedbacksettings/service/mapper/FeedbackSettingsMapper.java:79-83 | method, destination and flag copied; a blank alias becomes the destination, any other alias is kept |
| FeedbackSettingsMapper.StoredAliasBlankOnlyAsDestination | src/main/java/se/sundsvall/feedbacksettings/service/mapper/FeedbackSettingsMapper.java:81 | a stored alias is blank only when it is the destination |
| FeedbackSettingsMapper.UnicodeBlankAliasDefaults | src/main/java/se/sundsvall/feedbacksettings/service/mapper/FeedbackSettingsMapper.java:81 | an alias of Unicode whitespace only (U+3000, U+2028) is blank and becomes the destination |
| FeedbackSettingsMapper.StoredChannelIdempotent | src/main/java/se/sundsvall/feedbacksettings/service/mapper/FeedbackSettingsMapper.java:81 | storing a stored channel again changes nothing |
| FeedbackSettingsMapper.StoredChannels | src/main/java/se/sundsvall/feedbacksettings/service/mapper/FeedbackSettingsMapper.java:76-85 | null channels are skipped: exactly one stored channel per non-null requested channel |
| FeedbackSettingsMapper.StoredChannelsInOrder | src/main/java/se/sundsvall/feedbacksettings/service/mapper/FeedbackSettingsMapper.java:76-85 | non-null channel i is stored at the position counting the non-null channels before it: request order is kept |
| FeedbackSettingsMapper.StoredChannelsSound | src/main/java/se/sundsvall/feedbacksettings/service/mapper/FeedbackSettingsMapper.java:76-85 | every stored channel is a non-null requested channel as stored |
| FeedbackSettingsMapper.StoredChannelsComplete | src/main/java/se/sundsvall/feedbacksettings/service/mapper/FeedbackSettingsMapper.java:76-85 | every non-null requested channel is stored |
| FeedbackSettingsMapper.NewRecord | src/main/java/se/sundsvall/feedbacksettings/service/mapper/FeedbackSettingsMapper.java:54-58 | no id and no time stamps; person and organization from the request; both lists present |
| FeedbackSettingsMapper.ToFeedbackSettingEntity | src/main/java/se/sundsvall/feedbacksettings/service/mapper/FeedbackSettingsMapper.java:49-59 | null gives null; otherwise a fresh entity whose fields are the converted request |
| FeedbackSettingsMapper.GroupFilterRows | src/main/java/se/sundsvall/feedbacksettings/service/mapper/FeedbackSettingsMapper.java:102-113 | each filter holds the values of the rows under its key, in row order |
| FeedbackSettingsMapper.GroupFilterRowsKeys | src/main/java/se/sundsvall/feedbacksettings/service/mapper/FeedbackSettingsMapper.java:105-106 | one filter per distinct key: keys pairwise different, every row key present, every key from a row |
| FeedbackSettingsMapper.GroupFilterRowsNonEmpty | src/main/java/se/sundsvall/feedbacksettings/service/mapper/FeedbackSettingsMapper.java:105-106 | no grouped filter is empty |
| FeedbackSettingsMapper.CreatedFiltersReadBack | src/main/java/se/sundsvall/feedbacksettings/service/mapper/FeedbackSettingsMapper.java:61-113 | filters with distinct non-empty keys read back after storing as exactly the same filters in some order, keys upper-cased, values in the order sent |
| FeedbackSettingsMapper.ToFeedbackSetting | src/main/java/se/sundsvall/feedbacksettings/service/mapper/FeedbackSettingsMapper.java:87-100 | null gives null; otherwise the columns, rows grouped into filters, a null list read as empty |
| FeedbackSettingsMapper.ToWeightedFeedbackSetting | src/main/java/se/sundsvall/feedbacksettings/service/mapper/FeedbackSettingsMapper.java:115-129 | the same setting at 100 percent; null gives null |
| FeedbackSettingsMapper.ToFeedbackSettings | src/main/java/se/sundsvall/feedbacksettings/service/mapper/FeedbackSettingsMapper.java:142-146 | a null list gives an empty one; each entity converted in order |
| FeedbackSettingsMapper.ToWeightedFeedbackSettings | src/main/java/se/sundsvall/feedbacksettings/service/mapper/FeedbackSettingsMapper.java:148-152 | a null list gives an empty one; each entity converted in order at 100 percent |
| FeedbackSettingsMapper.ToSearchFilters | src/main/java/se/sundsvall/feedbacksettings/service/mapper/FeedbackSettingsMapper.java:197-208 | null headers give no filters; never more filters than headers |
| FeedbackSettingsMapper.ToSearchFiltersSound | src/main/java/se/sundsvall/feedbacksettings/service/mapper/FeedbackSettingsMapper.java:197-208 | every search filter comes from a header whose name starts with x-filter- ignoring case |
| FeedbackSettingsMapper.ToSearchFiltersComplete | src/main/java/se/sundsvall/feedbacksettings/service/mapper/FeedbackSettingsMapper.java:197-208 | every header whose name starts with x-filter- ignoring case gives a search filter |
| FeedbackSettingsMapper.ToSearchFiltersValuesPresent | src/main/java/se/sundsvall/feedbacksettings/service/mapper/FeedbackSettingsMapper.java:197-208 | no search filter holds a null value |
| FeedbackSettingsMapper.ToSearchFiltersKeysDistinct | src/main/java/se/sundsvall/feedbacksettings/service/mapper/FeedbackSettingsMapper.java:197-208 | the header names of a request differ ignoring case, so the search filter keys do too |
| FeedbackSettingsMapper.SearchFilterValues | src/main/java/se/sundsvall/feedbacksettings/service/mapper/FeedbackSettingsMapper.java:204-214 | a filter key is the name after the prefix; its values are the header values once each ignoring case, first spelling, case-insensitive order |
| FeedbackSettingsMapper.ExampleWithNullsIsExact | src/main/java/se/sundsvall/feedbacksettings/service/mapper/FeedbackSettingsMapper.java:228-233 | with null matching an example matches exactly the records with that person and organization, null only with null |
| FeedbackSettingsMapper.ExampleWithoutNullsIsWeaker | src/main/java/se/sundsvall/feedbacksettings/service/mapper/FeedbackSettingsMapper.java:228-233 | without null matching the example matches more, and with both null it matches every record |
| FeedbackSettingsMapper.MergedListShape | src/main/java/se/sundsvall/feedbacksettings/service/mapper/FeedbackSettingsMapper.java:168-169 | after addAll then removeAll the list is the stored elements the request matches, in order, then the added ones |
| FeedbackSettingsMapper.MergedListMatchesRequest | src/main/java/se/sundsvall/feedbacksettings/service/mapper/FeedbackSettingsMapper.java:168-169 | the merged list and the request agree both ways up to the match |
| FeedbackSettingsMapper.MergedListIdempotent | src/main/java/se/sundsvall/feedbacksettings/service/mapper/FeedbackSettingsMapper.java:168-169 | merging the same request twice gives the same list |
| FeedbackSettingsMapper.MergedListUnchanged | src/main/java/se/sundsvall/feedbacksettings/service/mapper/FeedbackSettingsMapper.java:186-187 | a request repeating the stored list up to the match leaves it as it is |
| FeedbackSettingsMapper.MergeChannels | src/main/java/se/sundsvall/feedbacksettings/service/mapper/FeedbackSettingsMapper.java:161-177 | a null list changes nothing; otherwise only the channels and modified change, modified is stamped exactly when the list differs |
| FeedbackSettingsMapper.MergeFilters | src/main/java/se/sundsvall/feedbacksettings/service/mapper/FeedbackSettingsMapper.java:179-195 | as for channels, on the filter rows |
| FeedbackSettingsMapper.MergeSettings | src/main/java/se/sundsvall/feedbacksettings/service/mapper/FeedbackSettingsMapper.java:154-159 | a null request changes nothing; id, person, organization and created never change |
| FeedbackSettingsMapper.MergeFeedbackChannels | src/main/java/se/sundsvall/feedbacksettings/service/mapper/FeedbackSettingsMapper.java:161-177 | the entity afterwards holds exactly MergeChannels of its old record |
| FeedbackSettingsMapper.MergeFeedbackFilters | src/main/java/se/sundsvall/feedbacksettings/service/mapper/FeedbackSettingsMapper.java:179-195 | the entity afterwards holds exactly MergeFilters of its old record |
| FeedbackSettingsMapper.MergeFeedbackSettings | src/main/java/se/sundsvall/feedbacksettings/service/mapper/FeedbackSettingsMapper.java:154-159 | the entity afterwards holds exactly MergeSettings of its old record |
| FeedbackSettingsMapper.MergedChannelsMatchRequest | src/main/java/se/sundsvall/feedbacksettings/service/mapper/FeedbackSettingsMapper.java:161-177 | after a merge the stored and requested channels agree both ways up to channel matching |
| FeedbackSettingsMapper.MergedFiltersMatchRequest | src/main/java/se/sundsvall/feedbacksettings/service/mapper/FeedbackSettingsMapper.java:179-195 | after a merge the stored and requested rows agree both ways up to filter matching |
| FeedbackSettingsMapper.MergeSettingsIdempotent | src/main/java/se/sundsvall/feedbacksettings/service/mapper/FeedbackSettingsMapper.java:154-195 | a repeated update changes nothing, not even modified |
| FeedbackSettingsMapper.CaseOnlyChannelChangeKeepsRecord | src/main/java/se/sundsvall/feedbacksettings/service/mapper/FeedbackSettingsMapper.java:173-175 | channels re-sent in other letter case leave the record, modified included, as it is |
| FeedbackSettingsMapper.CaseOnlyFilterChangeKeepsRecord | src/main/java/se/sundsvall/feedbacksettings/service/mapper/FeedbackSettingsMapper.java:191-193 | filters re-sent in other letter case leave the record, modified included, as it is |
| Sequences.SomesInOrder | src/main/java/se/sundsvall/feedbacksettings/service/mapper/FeedbackSettingsMapper.java:76-78 | `filter(Objects::nonNull)` keeps order: the present value at i is entry (present values before i) of the result |
| Sequences.DistinctCountIsSize | src/main/java/se/sundsvall/feedbacksettings/api/validation/impl/UniqueFilterKeysConstraintValidator.java:28-30 | `distinct().count() == size()` exactly when no element occurs twice |
| Validators.UniqueFilterKeysIsValid | src/main/java/se/sundsvall/feedbacksettings/api/validation/impl/UniqueFilterKeysConstraintValidator.java:18-31 | valid exactly when no two non-null keys of non-null filters are equal after trim and lower-case |
| Validators.UniqueFilterValuesIsValid | src/main/java/se/sundsvall/feedbacksettings/api/validation/impl/UniqueFilterValuesConstraintValidator.java:17-28 | valid exactly when no two non-null values are equal after trim and lower-case |
| Validators.UniqueFeedbackChannelsIsValid | src/main/java/se/sundsvall/feedbacksettings/api/validation/impl/UniqueFeedbackChannelsConstraintValidator.java:19-31 | valid exactly when no two channels with both method and destination share method and exact destination |
| Validators.DuplicateChannelRejected | src/main/java/se/sundsvall/feedbacksettings/api/validation/impl/UniqueFeedbackChannelsConstraintValidator.java:25-30 | two channels with the same method and destination are rejected whatever alias and flag |
| Validators.CaseAndBlanksNormalizeAlike | src/main/java/se/sundsvall/feedbacksettings/api/validation/impl/UniqueFilterValuesConstraintValidator.java:24-25 | "Ab" and "aB " normalize alike |
| Validators.DuplicateValuesExample | src/main/java/se/sundsvall/feedbacksettings/api/validation/impl/UniqueFilterValuesConstraintValidator.java:23-27 | values differing only in case and a trailing blank are rejected |
| Validators.NullValuesIgnored | src/main/java/se/sundsvall/feedbacksettings/api/validation/impl/UniqueFilterValuesConstraintValidator.java:20-27 | null values are skipped, so two values that normalize differently are accepted among nulls |
| Validators.DuplicateKeysRejected | src/main/java/se/sundsvall/feedbacksettings/api/validation/impl/UniqueFilterKeysConstraintValidator.java:24-30 | two keys that normalize alike are rejected, whatever their values |
| Validators.NullKeysIgnoredExample | src/main/java/se/sundsvall/feedbacksettings/api/validation/impl/UniqueFilterKeysConstraintValidator.java:21-23 | null filters and null keys are skipped |
| Validators.SmsPatternIsValid | src/main/java/se/sundsvall/feedbacksettings/api/validation/impl/PatternValidator.java:17-19 | only a ten-character non-null text can match the SMS pattern |
| Validators.SmsPatternExamples | src/test/java/se/sundsvall/feedbacksettings/api/validation/impl/ValidDestinationFormatConstraintValidatorTest.java:45-52 | 0701234567 accepted; 0711234567, 070-1234567, 070123456, 07012345678, 46701234567 and null rejected |
| Validators.ValidDestinationFormatIsValid | src/main/java/se/sundsvall/feedbacksettings/api/validation/impl/ValidDestinationFormatConstraintValidator.java:26-48 | valid exactly when channel, method and a non-blank destination are present and the method validator accepts; the method message exactly when a present method fails |
| Validators.BlankDestinationInvalid | src/main/java/se/sundsvall/feedbacksettings/api/validation/impl/ValidDestinationFormatConstraintValidator.java:29 | a null, empty or blank destination is invalid whatever the method |
| Validators.SmsDestinationValidIffPattern | src/main/java/se/sundsvall/feedbacksettings/api/validation/impl/ValidDestinationFormatConstraintValidator.java:22-31 | an SMS destination is valid exactly when it matches 07[02369] and seven digits |
| Validators.SmsVerdict | src/main/java/se/sundsvall/feedbacksettings/api/validation/impl/ValidDestinationFormatConstraintValidator.java:29-37 | an SMS destination matching the pattern is valid with no message; any other gets the SMS message |
| Validators.MissingPartsExample | src/main/java/se/sundsvall/feedbacksettings/api/validation/impl/ValidDestinationFormatConstraintValidator.java:38-48 | a blank EMAIL destination gets the EMAIL message; a null method or channel is invalid with the default message |
| FeedbackSettingsRepositories.FindRow | src/main/java/se/sundsvall/feedbacksettings/service/FeedbackSettingsService.java:55 | finds a record exactly when one holds the id, and the one found holds it |
| FeedbackSettingsRepositories.FindRowAt | src/main/java/se/sundsvall/feedbacksettings/integration/db/model/FeedbackSettingEntity.java:37-41 | with unique primary keys the record found is the one holding the id |
| FeedbackSettingsRepositories.Stored | src/main/java/se/sundsvall/feedbacksettings/integration/db/model/FeedbackSettingEntity.java:49-57 | a null collection is stored as no rows; present lists are kept |
| FeedbackSettingsRepositories.ReplaceRow | src/main/java/se/sundsvall/feedbacksettings/service/FeedbackSettingsService.java:60 | saving over an id replaces that record in place and keeps the rest |
| FeedbackSettingsRepositories.ReplaceRowFound | src/main/java/se/sundsvall/feedbacksettings/service/FeedbackSettingsService.java:60 | ids stay unique, the id now finds the new record, other ids find what they found |
| FeedbackSettingsRepositories.DeleteRemovesOnlyThatId | src/main/java/se/sundsvall/feedbacksettings/service/FeedbackSettingsService.java:101 | ids stay unique, the id finds nothing, other ids are unaffected, one record fewer |
| FeedbackSettingsRepositories.CeilDiv | src/main/java/se/sundsvall/feedbacksettings/service/FeedbackSettingsService.java:88 | the number of pages is the least count of pages of that size that holds every record |
| FeedbackSettingsRepositories.PageOf | src/main/java/se/sundsvall/feedbacksettings/service/FeedbackSettingsService.java:74-75 | totals reported; at most size records, those from pageIndex * size on, in order |
| FeedbackSettingsRepositories.PageEmptyIffBeyondLast | src/main/java/se/sundsvall/feedbacksettings/service/FeedbackSettingsService.java:77-78 | a page is empty exactly when its index is at least the number of pages |
| FeedbackSettingsRepositories.PagesCoverMatches | src/test/java/se/sundsvall/feedbacksettings/integration/db/FeedbackSettingsRepositoryTest.java:83-99 | record i is entry i % size of page i / size |
| FeedbackSettingsRepositories.FeedbackSettingsRepository.constructor | src/main/java/se/sundsvall/feedbacksettings/service/FeedbackSettingsService.java:43 | an empty, well-formed table |
| FeedbackSettingsRepositories.FeedbackSettingsRepository.ExistsById | src/main/java/se/sundsvall/feedbacksettings/service/FeedbackSettingsService.java:97 | true exactly when a record holds the id |
| FeedbackSettingsRepositories.FeedbackSettingsRepository.FindById | src/main/java/se/sundsvall/feedbacksettings/service/FeedbackSettingsService.java:55-56 | nothing when no record holds the id, else a fresh entity holding that record |
| FeedbackSettingsRepositories.FeedbackSettingsRepository.DeleteById | src/main/java/se/sundsvall/feedbacksettings/service/FeedbackSettingsService.java:101 | drops the records holding the id, keeping the table well formed |
| FeedbackSettingsRepositories.FeedbackSettingsRepository.Save | src/main/java/se/sundsvall/feedbacksettings/service/FeedbackSettingsService.java:49 | a new entity gets the generated id and created stamp and is appended; a stored one overwrites its record |
| FeedbackSettingsRepositories.FeedbackSettingsRepository.Exists | src/main/java/se/sundsvall/feedbacksettings/service/FeedbackSettingsService.java:112 | true exactly when some record matches the example |
| FeedbackSettingsRepositories.FeedbackSettingsRepository.FindAll | src/main/java/se/sundsvall/feedbacksettings/service/FeedbackSettingsService.java:74-75 | at most size records, each a stored record matching the example; total is the number of matches |
| FeedbackSettingsServices.NotFound | src/main/java/se/sundsvall/feedbacksettings/service/ServiceConstants.java:7 | a NOT_FOUND problem naming the id |
| FeedbackSettingsServices.AlreadyExists | src/main/java/se/sundsvall/feedbacksettings/service/FeedbackSettingsService.java:113-115 | a BAD_REQUEST problem, naming the organization only when it is not null |
| FeedbackSettingsServices.ReplaceKeepsUniqueOwners | src/main/java/se/sundsvall/feedbacksettings/integration/db/model/FeedbackSettingEntity.java:28-29 | writing over a record with the same person and organization keeps one setting per pair |
| FeedbackSettingsServices.InsertByPercent | src/main/java/se/sundsvall/feedbacksettings/service/FeedbackSettingsService.java:92 | the result is the list plus x as a multiset |
| FeedbackSettingsServices.SortByPercentDescending | src/main/java/se/sundsvall/feedbacksettings/service/FeedbackSettingsService.java:92 | the sort is a permutation |
| FeedbackSettingsServices.InsertKeepsDescending | src/main/java/se/sundsvall/feedbacksettings/service/FeedbackSettingsService.java:92 | inserting into a descending list keeps it descending |
| FeedbackSettingsServices.SortIsDescending | src/main/java/se/sundsvall/feedbacksettings/service/FeedbackSettingsService.java:92 | the sorted list runs from the highest percentage to the lowest |
| FeedbackSettingsServices.InsertStable | src/main/java/se/sundsvall/feedbacksettings/service/FeedbackSettingsService.java:92 | inserting keeps the order among settings of each percentage |
| FeedbackSettingsServices.SortIsStable | src/main/java/se/sundsvall/feedbacksettings/service/FeedbackSettingsService.java:92 | settings with equal percentages keep their order |
| FeedbackSettingsServices.Scored | src/main/java/se/sundsvall/feedbacksettings/service/FeedbackSettingsService.java:82 | each setting kept, with its percentage against the search filters |
| FeedbackSettingsServices.PageSettings | src/main/java/se/sundsvall/feedbacksettings/service/FeedbackSettingsService.java:78 | nothing beyond the last page, else each fetched record converted in order |
| FeedbackSettingsServices.SortedScoredElement | src/main/java/se/sundsvall/feedbacksettings/service/FeedbackSettingsService.java:82-92 | each returned setting is one of those scored, with a percentage in 0..100 |
| FeedbackSettingsServices.PageSettingFromRow | src/main/java/se/sundsvall/feedbacksettings/service/FeedbackSettingsService.java:74-78 | each setting on a page is the converted form of a stored record matching person and organization |
| FeedbackSettingsServices.SearchSettingsMetaData | src/main/java/se/sundsvall/feedbacksettings/service/FeedbackSettingsService.java:72-93 | page and limit echoed, count is the list size and at most limit, total is every match, nothing beyond the last page |
| FeedbackSettingsServices.SearchSettingsContent | src/main/java/se/sundsvall/feedbacksettings/service/FeedbackSettingsService.java:72-93 | sorted best first, percentages in 0..100, each setting a converted stored match |
| FeedbackSettingsServices.SearchWithoutOwnerCoversAll | src/main/java/se/sundsvall/feedbacksettings/service/FeedbackSettingsService.java:75 | with null person and organization every stored setting counts |
| FeedbackSettingsServices.ScoreSettings | src/main/java/se/sundsvall/feedbacksettings/service/FeedbackSettingsService.java:82 | the forEach loop gives exactly the scored list |
| FeedbackSettingsServices.CreatedRecord | src/main/java/se/sundsvall/feedbacksettings/service/FeedbackSettingsService.java:48-49 | the generated id, the creation stamp, no modified, the request person and organization |
| FeedbackSettingsServices.CreatedSettingReadBack | src/main/java/se/sundsvall/feedbacksettings/service/FeedbackSettingsService.java:45-52 | the created setting returns with its id, owner, its filters in some order with keys upper-cased, and its channels as stored |
| FeedbackSettingsServices.FeedbackSettingsService.constructor | src/main/java/se/sundsvall/feedbacksettings/service/FeedbackSettingsService.java:42-43 | the service uses the given repository |
| FeedbackSettingsServices.FeedbackSettingsService.VerifyNonExistingSettings | src/main/java/se/sundsvall/feedbacksettings/service/FeedbackSettingsService.java:111-117 | a problem exactly when a stored setting has this person and organization, null only matching null, with the matching message |
| FeedbackSettingsServices.FeedbackSettingsService.CreateFeedbackSetting | src/main/java/se/sundsvall/feedbacksettings/service/FeedbackSettingsService.java:45-52 | fails exactly on an existing person and organization, storing nothing; otherwise stores exactly one new record and returns it converted |
| FeedbackSettingsServices.FeedbackSettingsService.UpdateFeedbackSetting | src/main/java/se/sundsvall/feedbacksettings/service/FeedbackSettingsService.java:54-63 | NOT_FOUND exactly for an unknown id, storing nothing; otherwise the stored record is replaced by the merge and returned |
| FeedbackSettingsServices.FeedbackSettingsService.GetFeedbackSettingById | src/main/java/se/sundsvall/feedbacksettings/service/FeedbackSettingsService.java:65-70 | NOT_FOUND exactly for an unknown id, else the stored setting converted |
| FeedbackSettingsServices.FeedbackSettingsService.DeleteFeedbackSetting | src/main/java/se/sundsvall/feedbacksettings/service/FeedbackSettingsService.java:95-102 | NOT_FOUND exactly for an unknown id, deleting nothing; otherwise exactly that setting is removed |
| FeedbackSettingsServices.FeedbackSettingsService.GetFeedbackSettings | src/main/java/se/sundsvall/feedbacksettings/service/FeedbackSettingsService.java:72-93 | the result is SearchSettings of the stored records |

## Left out

Floating point, the email check and the regex engine:
- CalculationUtils.PercentOf: `Math.round` on a `float` quotient is modelled as exact half-up rounding. It can differ from float rounding where the float quotient is off by one unit at an exact half.
- Validators.FormatAccepts: the email syntax check belongs to Hibernate Validator. It is a parameter (`isEmail`), so no property of email addresses is claimed.
- Validators.MatchesSmsPattern: the regular expression `^07[02369]\d{7}$` is written out character by character. `\d` is taken as ASCII digits, the default in Java without the Unicode flag.

Letter case:
- Strings.ToLower, Strings.ToUpper: they fold only ASCII letters. Java's locale-sensitive Unicode case mapping is not modelled.

Time, generated ids and the infrastructure:
- The clock is a parameter `now` in nanoseconds. The generated UUID is a parameter `newId`, required not to be in use.
- HTTP, Spring wiring, JPA sessions, transactions and the circuit breaker are not modelled.

The settings table:
- The table does not enforce the database's constraints: the unique (person, organization) pair and the non-null person and created columns of the settings table; the unique (setting, key, value) rows and non-null key and value of the filter table; the unique (setting, contact method, destination) rows and non-null columns of the channel table. The service keeps the (person, organization) uniqueness as part of `FeedbackSettingsService.Valid`.
- FeedbackSettingsRepositories.FeedbackSettingsRepository.Save: JPA's `@PreUpdate` re-stamp at flush time is not modelled. The merge calls `preUpdate()` explicitly, and that call is modelled.
- FeedbackSettingsRepositories.FeedbackSettingsRepository.Save: saving an entity whose id is not stored is excluded by a precondition. The service never does it.
- FeedbackSettingsRepositories.FeedbackSettingsRepository.FindAll: records come back in stored order. The database's order for an unsorted page request is not modelled.

Grouping and headers:
- FeedbackSettingsMapper.GroupFilterRows: filters come out in the order their keys first occur among the rows. The source groups into a `HashMap` and streams its entries, so its order follows the keys' hashes. Only order-free read-back is promised (`CreatedFiltersReadBack`, `CreatedSettingReadBack`).
- FeedbackSettingsMapper.ToSearchFilters: the headers are a list whose names differ ignoring case, the shape `HttpHeaders` gives them. Spring's merging of headers sent under names differing only in case is not modelled.

Lists and null elements:
- CalculationUtils.CalculateMatchPercentage returns the updated setting. The source mutates it in place inside a `forEach`, and `FeedbackSettingsServices.ScoreSettings` rebuilds the list from the results. Aliasing between the scored objects is not modelled.
- Null-pointer paths are preconditions, not behaviour:
  - a null key or a null value list in a requested filter;
  - a null `sendFeedback` in a requested channel;
  - a null stored list during a merge;
  - a null search-filter value;
  - a null request in create.
- Validators.UniqueFeedbackChannelsIsValid requires that the list holds no null element. The source dereferences each element before `allNotNull` checks it, so a null element makes the validator throw.

Other parts of the repository:
- `toString`, `hashCode` and the getters of the data beans are not modelled.
- The annotation interfaces of the validators and the HTTP resource's `@Min` and `@Max` checks are not modelled. `page >= 1` and `limit >= 1` are preconditions of the search.
