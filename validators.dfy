/**
 * The bean-validation constraints on incoming requests: unique filter keys,
 * unique filter values, unique (contact method, destination) pairs, and the
 * destination format a channel's contact method demands.
 */
module Validators {
  import opened Wrappers
  import opened Strings
  import opened Sequences
  import opened ContactMethods
  import opened ApiModel

  /** How keys and values are compared for uniqueness: `trim()` then `toLowerCase()`. */
  function Normalized(s: string): string
  {
    ToLower(Trim(s))
  }

  /** The key of a filter, or null when the filter or its key is null. */
  function FilterKey(filter: Option<RequestedFilter>): Option<string>
  {
    if filter.Some? then filter.value.key else None
  }

  /** The normalized keys of the non-null filters with a non-null key, in order. */
  function NormalizedKeys(filters: Option<seq<Option<RequestedFilter>>>): seq<string>
  {
    MapSeq(Somes(MapSeq(OrEmpty(filters), FilterKey)), Normalized)
  }

  /**
   * `UniqueFilterKeysConstraintValidator.isValid`: as many distinct normalized
   * keys as retained keys, that is, no two retained keys normalize alike.
   */
  function UniqueFilterKeysIsValid(filters: Option<seq<Option<RequestedFilter>>>): (valid: bool)
    ensures valid <==> forall i, j :: 0 <= i < j < |OrEmpty(filters)|
                         && FilterKey(OrEmpty(filters)[i]).Some? && FilterKey(OrEmpty(filters)[j]).Some?
                         ==> Normalized(FilterKey(OrEmpty(filters)[i]).value) != Normalized(FilterKey(OrEmpty(filters)[j]).value)
  {
    var keys := NormalizedKeys(filters);
    DistinctCountOfPresent(OrEmpty(filters), FilterKey, Normalized);
    |Distinct(keys)| == |keys|
  }

  /** The normalized non-null values, in order. */
  function NormalizedValues(values: Option<seq<Option<string>>>): seq<string>
  {
    MapSeq(Somes(OrEmpty(values)), Normalized)
  }

  /**
   * `UniqueFilterValuesConstraintValidator.isValid`: as many distinct normalized
   * values as non-null values, that is, no two non-null values normalize alike.
   */
  function UniqueFilterValuesIsValid(values: Option<seq<Option<string>>>): (valid: bool)
    ensures valid <==> forall i, j :: 0 <= i < j < |OrEmpty(values)|
                         && OrEmpty(values)[i].Some? && OrEmpty(values)[j].Some?
                         ==> Normalized(OrEmpty(values)[i].value) != Normalized(OrEmpty(values)[j].value)
  {
    var normalized := NormalizedValues(values);
    DistinctCountIsSize(normalized);
    NoDuplicatesSomes(OrEmpty(values), Normalized);
    |Distinct(normalized)| == |Somes(OrEmpty(values))|
  }

  /** The (contact method, destination) pair of a channel that has both, else null. */
  function ChannelIdentity(channel: Option<RequestedChannel>): Option<(ContactMethod, string)>
  {
    if channel.Some? && channel.value.contactMethod.Some? && channel.value.destination.Some?
    then Some((channel.value.contactMethod.value, channel.value.destination.value))
    else None
  }

  /** The pairs of the channels that have both a contact method and a destination, in order. */
  function ChannelIdentities(channels: Option<seq<Option<RequestedChannel>>>): seq<(ContactMethod, string)>
  {
    Somes(MapSeq(OrEmpty(channels), ChannelIdentity))
  }

  /**
   * `UniqueFeedbackChannelsConstraintValidator.isValid`: no two channels that
   * have both a contact method and a destination share the method and the
   * exact destination. A null element is dereferenced before `allNotNull`
   * sees it, so the validator throws on one.
   */
  function UniqueFeedbackChannelsIsValid(channels: Option<seq<Option<RequestedChannel>>>): (valid: bool)
    requires forall i :: 0 <= i < |OrEmpty(channels)| ==> OrEmpty(channels)[i].Some?
    ensures valid <==> forall i, j :: 0 <= i < j < |OrEmpty(channels)|
                         && ChannelIdentity(OrEmpty(channels)[i]).Some? && ChannelIdentity(OrEmpty(channels)[j]).Some?
                         ==> ChannelIdentity(OrEmpty(channels)[i]).value != ChannelIdentity(OrEmpty(channels)[j]).value
  {
    var pairs := ChannelIdentities(channels);
    DistinctCountOfPresentParts(OrEmpty(channels), ChannelIdentity);
    |Distinct(pairs)| == |pairs|
  }

  /** Two channels with the same method and destination make the list invalid, whatever their alias and flag. */
  lemma DuplicateChannelRejected(channels: seq<Option<RequestedChannel>>, i: nat, j: nat)
    requires forall k :: 0 <= k < |channels| ==> channels[k].Some?
    requires i < j < |channels|
    requires channels[i].value.contactMethod.Some? && channels[i].value.destination.Some?
    requires channels[j].value.contactMethod == channels[i].value.contactMethod
    requires channels[j].value.destination == channels[i].value.destination
    ensures !UniqueFeedbackChannelsIsValid(Some(channels))
  {
    assert ChannelIdentity(OrEmpty(Some(channels))[i]).value == ChannelIdentity(OrEmpty(Some(channels))[j]).value;
  }

  lemma CaseAndBlanksNormalizeAlike(a: string, b: string)
    requires a == "Ab" && b == "aB "
    ensures Normalized(a) == Normalized(b)
  {
    TrimUntrimmed(a);
    TrimTrailing("aB", ' ');
    assert b == "aB" + [' '];
    assert ToLower(a) == ToLower("aB");
  }

  /** Values that differ only in case and trailing blanks are duplicates. */
  lemma DuplicateValuesExample(values: seq<Option<string>>)
    requires values == [Some("Ab"), Some("aB ")]
    ensures !UniqueFilterValuesIsValid(Some(values))
  {
    CaseAndBlanksNormalizeAlike(values[0].value, values[1].value);
    var l := OrEmpty(Some(values));
    assert l == values;
    assert l[0].Some? && l[1].Some? && Normalized(l[0].value) == Normalized(l[1].value);
  }

  /** Null values are skipped, and two values that normalize differently are accepted. */
  lemma NullValuesIgnored(a: string, b: string)
    requires Normalized(a) != Normalized(b)
    ensures UniqueFilterValuesIsValid(Some([Some(a), None, Some(b), None]))
  {
    var l := OrEmpty(Some([Some(a), None, Some(b), None]));
    forall i, j | 0 <= i < j < |l| && l[i].Some? && l[j].Some? ensures Normalized(l[i].value) != Normalized(l[j].value) {
      assert i == 0 && j == 2;
    }
  }

  /** Two keys that normalize alike are duplicates, whatever their values. */
  lemma DuplicateKeysRejected(a: string, b: string, aValues: Option<seq<Option<string>>>, bValues: Option<seq<Option<string>>>)
    requires Normalized(a) == Normalized(b)
    ensures !UniqueFilterKeysIsValid(Some([Some(RequestedFilter(Some(a), aValues)), Some(RequestedFilter(Some(b), bValues))]))
  {
    var l := OrEmpty(Some([Some(RequestedFilter(Some(a), aValues)), Some(RequestedFilter(Some(b), bValues))]));
    assert FilterKey(l[0]) == Some(a) && FilterKey(l[1]) == Some(b);
  }

  /** Null filters and null keys are skipped. */
  lemma NullKeysIgnoredExample(filters: seq<Option<RequestedFilter>>)
    requires filters == [None, Some(RequestedFilter(None, None)), Some(RequestedFilter(Some("key"), None))]
    ensures UniqueFilterKeysIsValid(Some(filters))
  {
    var l := OrEmpty(Some(filters));
    assert l == filters;
    assert forall i :: 0 <= i < |l| && FilterKey(l[i]).Some? ==> i == 2;
  }

  /** The custom message for a contact method's destination format (`VALIDATION_MESSAGES`). */
  function ValidationMessage(contactMethod: ContactMethod): string
  {
    match contactMethod
    case EMAIL => "destination must be a well-formed email address when provided contact method is EMAIL"
    case SMS => "destination must match pattern 07[02369]nnnnnnn when provided contact method is SMS"
  }

  /** `\d` in a Java regular expression without the Unicode flag. */
  predicate IsDigit(c: char)
  {
    '0' <= c <= '9'
  }

  /** The whole text matches `^07[02369]\d{7}$`: a Swedish mobile number. */
  predicate MatchesSmsPattern(s: string)
  {
    |s| == 10 && s[0] == '0' && s[1] == '7' && s[2] in "02369"
    && forall i :: 3 <= i < |s| ==> IsDigit(s[i])
  }

  /** `PatternValidator.isValid`: the text of the value (`"null"` for null) matches the SMS pattern. */
  function SmsPatternIsValid(value: Option<string>): (valid: bool)
    ensures valid ==> value.Some? && |value.value| == 10
  {
    MatchesSmsPattern(Show(value))
  }

  lemma SmsPatternExamples()
    ensures SmsPatternIsValid(Some("0701234567"))
    ensures SmsPatternIsValid(Some("0739999999"))
    ensures !SmsPatternIsValid(Some("0711234567"))
    ensures !SmsPatternIsValid(Some("070-1234567"))
    ensures !SmsPatternIsValid(Some("070123456"))
    ensures !SmsPatternIsValid(Some("07012345678"))
    ensures !SmsPatternIsValid(Some("46701234567"))
    ensures !SmsPatternIsValid(None)
  {
    assert !IsDigit("070-1234567"[3]);
  }

  /** The validator `VALIDATORS` connects to a contact method, applied to a destination. */
  function FormatAccepts(contactMethod: ContactMethod, destination: string, isEmail: string -> bool): bool
  {
    match contactMethod
    case EMAIL => isEmail(destination)
    case SMS => SmsPatternIsValid(Some(destination))
  }

  /** What a constraint validator reports: the verdict and the message replacing the default one, if any. */
  datatype Verdict = Verdict(valid: bool, customMessage: Option<string>)

  /**
   * `ValidDestinationFormatConstraintValidator.isValid`, with the external
   * email-syntax check as the parameter `isEmail`. A non-blank destination is
   * checked by its method's validator; an invalid one gets its method's
   * message. A null channel or a null contact method makes the map lookups
   * throw, and the swallowed exception makes the channel invalid with the
   * default message.
   */
  function ValidDestinationFormatIsValid(channel: Option<RequestedChannel>, isEmail: string -> bool): (r: Verdict)
    ensures r.valid <==> channel.Some? && channel.value.contactMethod.Some? && !IsBlank(channel.value.destination)
                         && FormatAccepts(channel.value.contactMethod.value, channel.value.destination.value, isEmail)
    ensures r.customMessage.Some? <==> channel.Some? && channel.value.contactMethod.Some? && !r.valid
    ensures r.customMessage.Some? ==> r.customMessage.value == ValidationMessage(channel.value.contactMethod.value)
  {
    match channel
    case None => Verdict(false, None)
    case Some(c) =>
      if IsBlank(c.destination) then
        match c.contactMethod
        case None => Verdict(false, None)
        case Some(m) => Verdict(false, Some(ValidationMessage(m)))
      else
        match c.contactMethod
        case None => Verdict(false, None)
        case Some(m) =>
          var accepted := FormatAccepts(m, c.destination.value, isEmail);
          Verdict(accepted, if accepted then None else Some(ValidationMessage(m)))
  }

  /** A null, empty or whitespace-only destination is invalid, whatever the method and the email check. */
  lemma BlankDestinationInvalid(channel: RequestedChannel, isEmail: string -> bool)
    requires IsBlank(channel.destination)
    ensures !ValidDestinationFormatIsValid(Some(channel), isEmail).valid
  {
  }

  /** An SMS channel is valid exactly when its destination matches the pattern; the email check plays no part. */
  lemma SmsDestinationValidIffPattern(alias: Option<string>, destination: string, sendFeedback: Option<bool>, isEmail: string -> bool)
    ensures ValidDestinationFormatIsValid(Some(RequestedChannel(Some(SMS), alias, Some(destination), sendFeedback)), isEmail).valid
            <==> MatchesSmsPattern(destination)
  {
    if MatchesSmsPattern(destination) {
      assert !IsWhitespace(destination[0]);
    }
  }

  /** An SMS channel's verdict: valid with no message when the destination matches the pattern, else the SMS message. */
  lemma SmsVerdict(alias: Option<string>, destination: string, sendFeedback: Option<bool>, isEmail: string -> bool)
    ensures ValidDestinationFormatIsValid(Some(RequestedChannel(Some(SMS), alias, Some(destination), sendFeedback)), isEmail)
            == if MatchesSmsPattern(destination) then Verdict(true, None) else Verdict(false, Some(ValidationMessage(SMS)))
  {
    SmsDestinationValidIffPattern(alias, destination, sendFeedback, isEmail);
  }

  /** A blank destination is invalid with the method's message, and a null method leaves the default message. */
  lemma MissingPartsExample(isEmail: string -> bool)
    ensures ValidDestinationFormatIsValid(Some(RequestedChannel(Some(EMAIL), None, Some(" "), None)), isEmail)
            == Verdict(false, Some(ValidationMessage(EMAIL)))
    ensures ValidDestinationFormatIsValid(Some(RequestedChannel(None, None, Some("0701234567"), None)), isEmail)
            == Verdict(false, None)
    ensures ValidDestinationFormatIsValid(None, isEmail) == Verdict(false, None)
  {
    assert IsBlank(Some(" "));
  }
}
