/**
 * The AddRequest message bean (section 4.7 of RFC 4511) as the decoder fills
 * it: an entry whose attributes are created one type at a time, with values
 * added to the attribute created or found last. The entry and attribute
 * classes are not part of this model beyond what the request does with them.
 */
module AddRequestImpl {
  import opened Wrappers
  import opened LdapTypes
  import opened Ber

  /** An attribute value: a string, or bytes for a binary attribute. */
  datatype AttrValue = StringValue(s: string) | BinaryValue(b: seq<byte>)

  /** An entry: its DN, and its attributes by type, each with its values in the order added. */
  datatype Entry = Entry(dn: Option<Dn>, attributes: map<string, seq<AttrValue>>)

  datatype RequestError = NullPointerException

  /** `entry.get(type) != null ? ... : entry.put(new DefaultAttribute(type))`: the type present, with no value if new. */
  function WithType(attributes: map<string, seq<AttrValue>>, attributeType: string): (r: map<string, seq<AttrValue>>)
    ensures r.Keys == attributes.Keys + {attributeType}
    ensures forall t :: t in attributes ==> r[t] == attributes[t]
    ensures attributeType !in attributes ==> r[attributeType] == []
  {
    if attributeType in attributes then attributes else attributes[attributeType := []]
  }

  /** `Attribute.add`: the value appended unless the attribute already holds it. */
  function WithValue(values: seq<AttrValue>, v: AttrValue): (r: seq<AttrValue>)
    ensures v in r && forall w :: w in values ==> w in r
    ensures forall w :: w in r ==> w in values || w == v
    ensures |r| <= |values| + 1
  {
    if v in values then values else values + [v]
  }

  /** Adding a type twice is adding it once. */
  lemma WithTypeIdempotent(attributes: map<string, seq<AttrValue>>, attributeType: string)
    ensures WithType(WithType(attributes, attributeType), attributeType) == WithType(attributes, attributeType)
  {
  }

  /** The response the server sends back, made for the request's message id. */
  class AddResponse {
    const messageId: int

    constructor (messageId: int)
      ensures this.messageId == messageId
    {
      this.messageId := messageId;
    }
  }

  class AddRequestImpl {
    var messageId: int
    /** The entry to add; `setEntry(null)` makes it null. */
    var entry: Option<Entry>
    /** The type of the attribute created or found by the last `addAttributeType`. */
    var currentAttribute: Option<string>
    /**
     * Whether the current attribute is the one the entry holds. `setEntry`
     * replaces the entry but keeps the attribute, which then belongs to the
     * entry it came from.
     */
    var attached: bool
    var response: AddResponse?

    /** An attached attribute is one of the entry's. */
    predicate Valid()
      reads this
    {
      attached ==> currentAttribute.Some? && entry.Some? && currentAttribute.value in entry.value.attributes
    }

    /** `new AddRequestImpl()`: message id -1 and an empty entry without a DN. */
    constructor ()
      ensures messageId == -1 && entry == Some(Entry(None, map[]))
      ensures currentAttribute.None? && !attached && response == null
      ensures Valid()
    {
      messageId := -1;
      entry := Some(Entry(None, map[]));
      currentAttribute := None;
      attached := false;
      response := null;
    }

    /**
     * `addAttributeType`: a type the entry already has becomes current and
     * nothing is created; a new type is put in the entry, with no value, and
     * becomes current. The entry gains at most this one attribute and keeps
     * every other one as it was.
     */
    method AddAttributeType(attributeType: string) returns (r: Outcome<RequestError>)
      requires Valid()
      modifies this`entry, this`currentAttribute, this`attached
      ensures Valid()
      ensures old(entry).None? ==>
                && r == Fail(NullPointerException) && entry == old(entry)
                && currentAttribute == old(currentAttribute) && attached == old(attached)
      ensures old(entry).Some? ==>
                && r == Pass
                && entry == Some(Entry(old(entry).value.dn, WithType(old(entry).value.attributes, attributeType)))
                && currentAttribute == Some(attributeType) && attached
    {
      if entry.None? {
        return Fail(NullPointerException);
      }
      attached := true;
      if attributeType in entry.value.attributes {
        currentAttribute := Some(attributeType);
        return Pass;
      }
      currentAttribute := Some(attributeType);
      entry := Some(entry.value.(attributes := entry.value.attributes[attributeType := []]));
      r := Pass;
    }

    /** `getCurrentAttributeType`: the type of the current attribute. */
    method GetCurrentAttributeType() returns (r: Result<string, RequestError>)
      ensures currentAttribute.None? ==> r == Err(NullPointerException)
      ensures currentAttribute.Some? ==> r == Ok(currentAttribute.value)
    {
      if currentAttribute.None? {
        return Err(NullPointerException);
      }
      r := Ok(currentAttribute.value);
    }

    /**
     * `addAttributeValue` (all three overloads): the value goes to the current
     * attribute only. When that attribute was left behind by `setEntry`, the
     * value goes to it there, and the request's entry does not change, even
     * when it has an attribute of the same type.
     */
    method AddAttributeValue(v: AttrValue) returns (r: Outcome<RequestError>)
      requires Valid()
      modifies this`entry
      ensures Valid()
      ensures currentAttribute.None? ==> r == Fail(NullPointerException) && entry == old(entry)
      ensures currentAttribute.Some? ==> r == Pass
      ensures attached ==>
                var attributes := old(entry).value.attributes;
                entry == Some(Entry(old(entry).value.dn,
                                    attributes[currentAttribute.value := WithValue(attributes[currentAttribute.value], v)]))
      ensures !attached ==> entry == old(entry)
    {
      if currentAttribute.None? {
        return Fail(NullPointerException);
      }
      var id := currentAttribute.value;
      if attached {
        var attributes := entry.value.attributes;
        entry := Some(entry.value.(attributes := attributes[id := WithValue(attributes[id], v)]));
      }
      r := Pass;
    }

    method GetEntryDn() returns (r: Result<Option<Dn>, RequestError>)
      ensures entry.None? ==> r == Err(NullPointerException)
      ensures entry.Some? ==> r == Ok(entry.value.dn)
    {
      if entry.None? {
        return Err(NullPointerException);
      }
      r := Ok(entry.value.dn);
    }

    /** `setEntryDn`: the entry's DN, and nothing else of it, changes. */
    method SetEntryDn(dn: Option<Dn>) returns (r: Result<AddRequestImpl, RequestError>)
      requires Valid()
      modifies this`entry
      ensures Valid()
      ensures old(entry).None? ==> r == Err(NullPointerException) && entry == old(entry)
      ensures old(entry).Some? ==> r == Ok(this) && entry == Some(Entry(dn, old(entry).value.attributes))
    {
      if entry.None? {
        return Err(NullPointerException);
      }
      entry := Some(entry.value.(dn := dn));
      r := Ok(this);
    }

    /** `setEntry`: the entry is replaced; the current attribute stays with the entry it came from. */
    method SetEntry(e: Option<Entry>) returns (self: AddRequestImpl)
      modifies this`entry, this`attached
      ensures entry == e && !attached && currentAttribute == old(currentAttribute) && self == this
      ensures Valid()
    {
      entry := e;
      attached := false;
      self := this;
    }

    method SetMessageId(id: int) returns (self: AddRequestImpl)
      modifies this`messageId
      ensures messageId == id && self == this
    {
      messageId := id;
      self := this;
    }

    /** `getResultResponse`: made once, for the current message id, then always the same object. */
    method GetResultResponse() returns (done: AddResponse)
      modifies this`response
      ensures old(response) != null ==> done == old(response)
      ensures old(response) == null ==> fresh(done) && done.messageId == messageId
      ensures response == done
    {
      if response == null {
        response := new AddResponse(messageId);
      }
      done := response;
    }

    /**
     * `equals`, with the message part reduced to the message id: a null entry
     * equals only a null entry, otherwise the entries must be equal under
     * `Entry.equals` (`entryEquals`), which is false for a null argument.
     */
    predicate Equals(other: AddRequestImpl, entryEquals: (Entry, Entry) -> bool)
      reads this, other
      ensures other == this ==> Equals(other, entryEquals)
      ensures Equals(other, entryEquals) && other != this ==>
                other.messageId == messageId && (entry.None? <==> other.entry.None?)
    {
      || other == this
      || (&& other.messageId == messageId
          && (if entry.None? then other.entry.None?
              else other.entry.Some? && entryEquals(entry.value, other.entry.value)))
    }
  }

  /** `setEntryDn(d)` then `getEntryDn()` gives back `d`. */
  method SetThenGetEntryDn(request: AddRequestImpl, dn: Option<Dn>) returns (r: Result<Option<Dn>, RequestError>)
    requires request.entry.Some? && request.Valid()
    modifies request`entry
    ensures r == Ok(dn)
  {
    var _ := request.SetEntryDn(dn);
    r := request.GetEntryDn();
  }

  /**
   * A value added after `setEntry` goes to the attribute left behind: the new
   * entry does not change, even when it has an attribute of the same type.
   */
  method ValueAfterSetEntry(request: AddRequestImpl, attributeType: string, e: Entry, v: AttrValue)
    returns (r: Outcome<RequestError>)
    requires request.Valid() && request.entry.Some?
    modifies request`entry, request`currentAttribute, request`attached
    ensures r == Pass && request.entry == Some(e)
  {
    var _ := request.AddAttributeType(attributeType);
    var _ := request.SetEntry(Some(e));
    r := request.AddAttributeValue(v);
  }
}
