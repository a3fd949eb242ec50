/** The two ways a feedback channel can reach its owner, and their parsing. */
module ContactMethods {
  import opened Wrappers
  import opened Strings

  datatype ContactMethod = SMS | EMAIL

  /** Every value of the enumeration, in declaration order (`values()`). */
  const Values: seq<ContactMethod> := [SMS, EMAIL]

  /** The constant name of a value (`name()`). */
  function Name(m: ContactMethod): string
  {
    match m
    case SMS => "SMS"
    case EMAIL => "EMAIL"
  }

  /** The problem raised when no value carries the given name. */
  function InvalidValue(value: Option<string>): Problem
  {
    Problem(BAD_REQUEST, "Invalid value for enum ContactMethod: " + Show(value))
  }

  /**
   * `toEnum`: the first value whose name equals `value` ignoring case, or a
   * BAD_REQUEST problem naming the rejected text (a null value never matches).
   */
  function ToEnum(value: Option<string>): (r: Result<ContactMethod>)
    ensures r.Ok? <==> value.Some? && exists m :: EqualsIgnoreCase(Name(m), value.value)
    ensures r.Ok? ==> EqualsIgnoreCase(Name(r.value), value.value)
    ensures r.Err? ==> r.problem == InvalidValue(value)
  {
    match value
    case None => Err(InvalidValue(value))
    case Some(v) =>
      if EqualsIgnoreCase(Name(SMS), v) then Ok(SMS)
      else if EqualsIgnoreCase(Name(EMAIL), v) then Ok(EMAIL)
      else
        assert forall m :: !EqualsIgnoreCase(Name(m), v);
        Err(InvalidValue(value))
  }

  /** Distinct values have distinct names, even ignoring case. */
  lemma NamesDifferIgnoringCase(m: ContactMethod, n: ContactMethod)
    requires m != n
    ensures !EqualsIgnoreCase(Name(m), Name(n))
  {
    assert |Name(m)| != |Name(n)| by {
      match m
      case SMS =>
      case EMAIL =>
    }
  }

  /** Parsing a value's own name gives back that value. */
  lemma ToEnumName(m: ContactMethod)
    ensures ToEnum(Some(Name(m))) == Ok(m)
  {
    if m == EMAIL {
      NamesDifferIgnoringCase(SMS, EMAIL);
    }
  }

  /** Parsing ignores letter case: any spelling of a name gives its value. */
  lemma ToEnumIgnoresCase(m: ContactMethod, value: string)
    requires EqualsIgnoreCase(Name(m), value)
    ensures ToEnum(Some(value)) == Ok(m)
  {
    ToEnumName(m);
    if m == EMAIL && EqualsIgnoreCase(Name(SMS), value) {
      NamesDifferIgnoringCase(SMS, EMAIL);
      assert false;
    }
  }

  /** Examples: lower-case names parse, anything else is rejected with its text. */
  lemma ToEnumExamples()
    ensures ToEnum(Some("sms")) == Ok(SMS)
    ensures ToEnum(Some("eMail")) == Ok(EMAIL)
    ensures ToEnum(Some("FAX")) == Err(Problem(BAD_REQUEST, "Invalid value for enum ContactMethod: FAX"))
    ensures ToEnum(None) == Err(Problem(BAD_REQUEST, "Invalid value for enum ContactMethod: null"))
  {
    ToEnumIgnoresCase(SMS, "sms");
    ToEnumIgnoresCase(EMAIL, "eMail");
    assert ToLower("FAX") == "fax";
    assert ToLower("SMS") == "sms" && ToLower("EMAIL") == "email";
  }
}
