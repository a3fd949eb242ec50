/**
 * A stored feedback channel. The database row keeps the contact method as the
 * enumeration's name; everywhere else the service handles the decoded value.
 */
module FeedbackChannelEmbeddables {
  import opened Wrappers
  import opened Strings
  import opened ContactMethods

  /** The four properties of a feedback channel, with the contact method decoded. */
  datatype Channel = Channel(
    contactMethod: Option<ContactMethod>,
    alias: Option<string>,
    destination: Option<string>,
    sendFeedback: bool)

  /** How a contact method is written to its column: its name, or null. */
  function EncodeMethod(m: Option<ContactMethod>): (r: Option<string>)
    ensures r.None? <==> m.None?
    ensures m.Some? ==> ToEnum(r) == Ok(m.value)
  {
    match m
    case None => None
    case Some(v) => ToEnumName(v); Some(Name(v))
  }

  /** Distinct contact methods are written differently. */
  lemma EncodeMethodInjective(m: Option<ContactMethod>, n: Option<ContactMethod>)
    requires EncodeMethod(m) == EncodeMethod(n)
    ensures m == n
  {
  }

  class FeedbackChannelEmbeddable {
    var contactMethod: Option<string>
    var alias: Option<string>
    var destination: Option<string>
    var sendFeedback: bool

    /** `create()`: every string null and sendFeedback false. */
    constructor ()
      ensures contactMethod.None? && alias.None? && destination.None? && !sendFeedback
    {
      contactMethod, alias, destination, sendFeedback := None, None, None, false;
    }

    /** `getContactMethod`: null stays null, a stored name is parsed back. */
    function GetContactMethod(): (r: Result<Option<ContactMethod>>)
      reads this
      ensures contactMethod.None? ==> r == Ok(None)
      ensures contactMethod.Some? ==> (r.Ok? <==> ToEnum(contactMethod).Ok?)
      ensures r.Ok? && contactMethod.Some? ==> r.value == Some(ToEnum(contactMethod).value)
    {
      match contactMethod
      case None => Ok(None)
      case Some(_) =>
        match ToEnum(contactMethod)
        case Ok(m) => Ok(Some(m))
        case Err(p) => Err(p)
    }

    /** The column holds exactly what `setContactMethod` would write for it. */
    predicate Canonical()
      reads this
    {
      GetContactMethod().Ok? && contactMethod == EncodeMethod(GetContactMethod().value)
    }

    /** The channel this row describes. */
    function Value(): (c: Channel)
      reads this
      requires Canonical()
      ensures EncodeMethod(c.contactMethod) == contactMethod
      ensures c.alias == alias && c.destination == destination && c.sendFeedback == sendFeedback
    {
      Channel(GetContactMethod().value, alias, destination, sendFeedback)
    }

    method SetAlias(a: Option<string>)
      modifies this`alias
      ensures alias == a
    {
      alias := a;
    }

    method WithAlias(a: Option<string>) returns (r: FeedbackChannelEmbeddable)
      modifies this`alias
      ensures alias == a && r == this
    {
      alias := a;
      r := this;
    }

    method SetDestination(d: Option<string>)
      modifies this`destination
      ensures destination == d
    {
      destination := d;
    }

    method WithDestination(d: Option<string>) returns (r: FeedbackChannelEmbeddable)
      modifies this`destination
      ensures destination == d && r == this
    {
      destination := d;
      r := this;
    }

    /** `setContactMethod`: stores the name; reading it back gives the same method. */
    method SetContactMethod(m: Option<ContactMethod>)
      modifies this`contactMethod
      ensures contactMethod == EncodeMethod(m)
      ensures GetContactMethod() == Ok(m) && Canonical()
    {
      contactMethod := EncodeMethod(m);
    }

    method WithContactMethod(m: Option<ContactMethod>) returns (r: FeedbackChannelEmbeddable)
      modifies this`contactMethod
      ensures contactMethod == EncodeMethod(m) && r == this
      ensures GetContactMethod() == Ok(m) && Canonical()
    {
      contactMethod := EncodeMethod(m);
      r := this;
    }

    method SetSendFeedback(b: bool)
      modifies this`sendFeedback
      ensures sendFeedback == b
    {
      sendFeedback := b;
    }

    method WithSendFeedback(b: bool) returns (r: FeedbackChannelEmbeddable)
      modifies this`sendFeedback
      ensures sendFeedback == b && r == this
    {
      sendFeedback := b;
      r := this;
    }

    /** `equals`: exact, case-sensitive equality of the four columns. */
    predicate Equals(other: FeedbackChannelEmbeddable)
      reads this, other
    {
      contactMethod == other.contactMethod && alias == other.alias
      && destination == other.destination && sendFeedback == other.sendFeedback
    }
  }

  /**
   * Between rows written through the setters, `equals` is equality of the
   * channels they describe: the merge's `removeAll` compares channel values.
   */
  lemma EqualsIsValueEquality(a: FeedbackChannelEmbeddable, b: FeedbackChannelEmbeddable)
    requires a.Canonical() && b.Canonical()
    ensures a.Equals(b) <==> a.Value() == b.Value()
  {
    if a.Value() == b.Value() {
      assert a.contactMethod == EncodeMethod(a.Value().contactMethod);
    }
    if a.Equals(b) {
      EncodeMethodInjective(a.Value().contactMethod, b.Value().contactMethod);
    }
  }

  /**
   * The builder chain the mapper uses, `create().withContactMethod(…)
   * .withAlias(…).withDestination(…).withSendFeedback(…)`, yields a fresh row
   * describing exactly the given channel.
   */
  method Embed(c: Channel) returns (e: FeedbackChannelEmbeddable)
    ensures fresh(e) && e.Canonical() && e.Value() == c
  {
    e := new FeedbackChannelEmbeddable();
    e := e.WithContactMethod(c.contactMethod);
    e := e.WithAlias(c.alias);
    e := e.WithDestination(c.destination);
    e := e.WithSendFeedback(c.sendFeedback);
  }
}
