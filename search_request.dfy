/**
 * The SearchRequest message bean (section 4.5.1 of RFC 4511): its setters,
 * its list of requested attributes, its lazily created SearchResultDone, the
 * attribute part of `equals` and the rendering of the limits in `toString`.
 * The filter parser is not part of this model; it is a parameter.
 */
module SearchRequestImpl {
  import opened Wrappers
  import opened Ber
  import opened LdapTypes
  import opened JavaStrings

  datatype SearchScope = Object | OneLevel | Subtree

  datatype AliasDerefMode = NeverDerefAliases | DerefInSearching | DerefFindingBaseObj | DerefAlways

  /** A filter expression tree, known here by its string form (`ExprNode.toString()`). */
  datatype ExprNode = ExprNode(text: string)

  /** `FilterParser.parse`: a filter tree, or `None` for its `ParseException`. */
  type FilterParser = seq<byte> -> Option<ExprNode>

  datatype SearchError = LdapProtocolErrorException | NullPointerException

  /** The response that ends a search, made for the request's message id. */
  class SearchResultDone {
    const messageId: int

    constructor (messageId: int)
      ensures this.messageId == messageId
    {
      this.messageId := messageId;
    }
  }

  /** `List.remove(Object)`: the list without the first occurrence of x, if any. */
  function RemoveFirst(s: seq<string>, x: string): (r: seq<string>)
  {
    if s == [] then []
    else if s[0] == x then s[1..]
    else [s[0]] + RemoveFirst(s[1..], x)
  }

  /** Removing a value that is not there changes nothing. */
  lemma {:induction false} RemoveFirstAbsent(s: seq<string>, x: string)
    requires x !in s
    ensures RemoveFirst(s, x) == s
  {
    if s != [] {
      assert s[1..] + [] == s[1..];
      RemoveFirstAbsent(s[1..], x);
      assert [s[0]] + s[1..] == s;
    }
  }

  /** `List.indexOf`: where the first occurrence of x is. */
  function IndexOf(s: seq<string>, x: string): (i: nat)
    requires x in s
    ensures i < |s| && s[i] == x && x !in s[..i]
  {
    if s[0] == x then 0
    else
      var j := IndexOf(s[1..], x);
      assert s[..j + 1] == [s[0]] + s[1..][..j];
      1 + j
  }

  /**
   * Removing a value that is there takes out exactly its first occurrence:
   * what comes before it and what comes after it stay, in order.
   */
  lemma {:induction false} RemoveFirstPresent(s: seq<string>, x: string)
    requires x in s
    ensures RemoveFirst(s, x) == s[..IndexOf(s, x)] + s[IndexOf(s, x) + 1..]
  {
    if s[0] != x {
      var t := s[1..];
      var j := IndexOf(t, x);
      RemoveFirstPresent(t, x);
      assert s[..j + 1] == [s[0]] + t[..j];
      assert s[j + 2..] == t[j + 1..];
      AppendAfter([s[0]], t[..j], t[j + 1..]);
    }
  }

  lemma AppendAfter(a: seq<string>, b: seq<string>, c: seq<string>)
    ensures a + (b + c) == a + b + c
  {
  }

  /** `removeAttribute` takes away one occurrence of the value, when there is one. */
  lemma {:induction false} RemoveFirstMultiset(s: seq<string>, x: string)
    ensures multiset(RemoveFirst(s, x)) == multiset(s) - multiset{x}
  {
    if s != [] {
      assert s == [s[0]] + s[1..];
      assert multiset(s) == multiset{s[0]} + multiset(s[1..]);
      if s[0] != x {
        RemoveFirstMultiset(s[1..], x);
        assert multiset(RemoveFirst(s, x)) == multiset{s[0]} + multiset(RemoveFirst(s[1..], x));
      }
    }
  }

  /**
   * The attribute part of `equals`, as written: the same number of attributes,
   * and every attribute of this request is somewhere in the other one.
   */
  predicate AttributesMatch(mine: seq<string>, theirs: seq<string>)
  {
    |mine| == |theirs| && forall a :: a in mine ==> a in theirs
  }

  /** The attribute comparison meant to ignore order only: the same attributes, as many times each. */
  predicate AttributesMatchCorrected(mine: seq<string>, theirs: seq<string>)
  {
    multiset(mine) == multiset(theirs)
  }

  /** Reordering the attributes does not change the answer. */
  lemma AttributesMatchIgnoresOrder(mine: seq<string>, theirs: seq<string>)
    requires multiset(mine) == multiset(theirs)
    ensures AttributesMatch(mine, theirs) && AttributesMatch(theirs, mine)
  {
    assert |mine| == |multiset(mine)| && |theirs| == |multiset(theirs)|;
    forall a | a in mine
      ensures a in theirs
    {
      assert a in multiset(mine);
    }
    forall a | a in theirs
      ensures a in mine
    {
      assert a in multiset(theirs);
    }
  }

  /** As written the comparison is not symmetric: a repeated attribute hides a missing one. */
  lemma AttributesMatchAsymmetric()
    ensures AttributesMatch(["a", "a"], ["a", "b"])
    ensures !AttributesMatch(["a", "b"], ["a", "a"])
  {
    assert "b" in ["a", "b"];
    assert "b" !in ["a", "a"];
  }

  /** Corrected, the comparison is symmetric and agrees with the written one wherever it holds. */
  lemma AttributesMatchCorrectedSymmetric(mine: seq<string>, theirs: seq<string>)
    ensures AttributesMatchCorrected(mine, theirs) <==> AttributesMatchCorrected(theirs, mine)
    ensures AttributesMatchCorrected(mine, theirs) ==> AttributesMatch(mine, theirs)
  {
    if AttributesMatchCorrected(mine, theirs) {
      AttributesMatchIgnoresOrder(mine, theirs);
    }
  }

  /** How `toString` renders a size or time limit: 0 is "no limit", anything else its decimal value. */
  function LimitText(limit: int): (r: string)
    ensures r == "no limit" <==> limit == 0
    ensures limit != 0 ==> DecimalValue(r) == Some(limit)
  {
    if limit == 0 then "no limit"
    else
      DecimalRoundTrip(limit);
      Decimal(limit)
  }

  class SearchRequestImpl {
    var messageId: int
    var baseDn: Option<Dn>
    var filter: Option<ExprNode>
    var scope: Option<SearchScope>
    var typesOnly: bool
    /** A Java `long`. */
    var sizeLimit: int
    /** A Java `int`. */
    var timeLimit: int
    var derefAliases: AliasDerefMode
    var attributes: seq<string>
    var response: SearchResultDone?

    /** `new SearchRequestImpl()`: message id -1, DEREF_ALWAYS, no attributes, nothing else set. */
    constructor ()
      ensures messageId == -1 && baseDn.None? && filter.None? && scope.None?
      ensures !typesOnly && sizeLimit == 0 && timeLimit == 0
      ensures derefAliases == DerefAlways && attributes == [] && response == null
    {
      messageId := -1;
      baseDn := None;
      filter := None;
      scope := None;
      typesOnly := false;
      sizeLimit := 0;
      timeLimit := 0;
      derefAliases := DerefAlways;
      attributes := [];
      response := null;
    }

    method SetBase(base: Option<Dn>) returns (self: SearchRequestImpl)
      modifies this`baseDn
      ensures baseDn == base && self == this
    {
      baseDn := base;
      self := this;
    }

    method SetDerefAliases(mode: AliasDerefMode) returns (self: SearchRequestImpl)
      modifies this`derefAliases
      ensures derefAliases == mode && self == this
    {
      derefAliases := mode;
      self := this;
    }

    /** `setFilter(ExprNode)`. */
    method SetFilterNode(node: Option<ExprNode>) returns (self: SearchRequestImpl)
      modifies this`filter
      ensures filter == node && self == this
    {
      filter := node;
      self := this;
    }

    /**
     * `setFilter(String)`: the filter parsed from the string's UTF-8 octets; a
     * parse failure is an `LdapProtocolErrorException` and keeps the old filter.
     */
    method SetFilter(text: string, parse: FilterParser) returns (r: Result<SearchRequestImpl, SearchError>)
      modifies this`filter
      ensures parse(Utf8(text)).None? ==> r == Err(LdapProtocolErrorException) && filter == old(filter)
      ensures parse(Utf8(text)).Some? ==> r == Ok(this) && filter == parse(Utf8(text))
    {
      var node := parse(Utf8(text));
      if node.None? {
        return Err(LdapProtocolErrorException);
      }
      filter := node;
      return Ok(this);
    }

    method SetScope(s: Option<SearchScope>) returns (self: SearchRequestImpl)
      modifies this`scope
      ensures scope == s && self == this
    {
      scope := s;
      self := this;
    }

    method SetSizeLimit(entriesMax: int) returns (self: SearchRequestImpl)
      requires IsLong(entriesMax)
      modifies this`sizeLimit
      ensures sizeLimit == entriesMax && self == this
    {
      sizeLimit := entriesMax;
      self := this;
    }

    method SetTimeLimit(secondsMax: int) returns (self: SearchRequestImpl)
      requires IsInt(secondsMax)
      modifies this`timeLimit
      ensures timeLimit == secondsMax && self == this
    {
      timeLimit := secondsMax;
      self := this;
    }

    method SetTypesOnly(b: bool) returns (self: SearchRequestImpl)
      modifies this`typesOnly
      ensures typesOnly == b && self == this
    {
      typesOnly := b;
      self := this;
    }

    /** `addAttributes`: all of them appended, in order, duplicates kept. */
    method AddAttributes(attributesToAdd: seq<string>) returns (self: SearchRequestImpl)
      modifies this`attributes
      ensures attributes == old(attributes) + attributesToAdd && self == this
    {
      attributes := attributes + attributesToAdd;
      self := this;
    }

    /** `removeAttribute`: only the first occurrence goes; an absent value changes nothing. */
    method RemoveAttribute(attribute: string) returns (self: SearchRequestImpl)
      modifies this`attributes
      ensures attributes == RemoveFirst(old(attributes), attribute) && self == this
      ensures multiset(attributes) == multiset(old(attributes)) - multiset{attribute}
    {
      RemoveFirstMultiset(attributes, attribute);
      attributes := RemoveFirst(attributes, attribute);
      self := this;
    }

    /** `getResultResponse`: made once, for the current message id, then always the same object. */
    method GetResultResponse() returns (done: SearchResultDone)
      modifies this`response
      ensures old(response) != null ==> done == old(response) && response == old(response)
      ensures old(response) == null ==> fresh(done) && done.messageId == messageId
      ensures response == done
    {
      if response == null {
        response := new SearchResultDone(messageId);
      }
      done := response;
    }

    /**
     * The fields `equals` compares after the message id and before the filters:
     * the base under `Dn.equals` (`dnEquals`; a null base of this request is
     * equal to nothing), the alias mode, scope, limits, types-only flag and
     * the requested attributes.
     */
    predicate FieldsMatch(other: SearchRequestImpl, dnEquals: DnEquals)
      reads this, other
      requires other.baseDn.Some?
      ensures FieldsMatch(other, dnEquals) ==> baseDn.Some? && other.scope == scope && |other.attributes| == |attributes|
    {
      && baseDn.Some? && dnEquals(other.baseDn.value, baseDn.value)
      && other.derefAliases == derefAliases
      && other.scope == scope
      && other.sizeLimit == sizeLimit
      && other.timeLimit == timeLimit
      && other.typesOnly == typesOnly
      && AttributesMatch(attributes, other.attributes)
    }

    /**
     * `equals`, with the message part reduced to the message id. The filters
     * are compared by their string form after both have been rewritten in
     * place by `BranchNormalizedVisitor` (`normalizeBranches`), the other's
     * first. A null base on the other request, or a null filter on either,
     * dereferences null; a null filter here is found only after the other's
     * filter has been rewritten.
     */
    method Equals(other: SearchRequestImpl, dnEquals: DnEquals, normalizeBranches: ExprNode -> ExprNode)
      returns (r: Result<bool, SearchError>)
      modifies this`filter, other`filter
      ensures other == this ==> r == Ok(true) && filter == old(filter)
      ensures other != this && other.messageId != messageId ==>
                r == Ok(false) && filter == old(filter) && other.filter == old(other.filter)
      ensures other != this && other.messageId == messageId && other.baseDn.None? ==>
                r == Err(NullPointerException) && filter == old(filter) && other.filter == old(other.filter)
      ensures other != this && other.messageId == messageId && other.baseDn.Some? && !FieldsMatch(other, dnEquals) ==>
                r == Ok(false) && filter == old(filter) && other.filter == old(other.filter)
      ensures other != this && other.messageId == messageId && other.baseDn.Some? && FieldsMatch(other, dnEquals) ==>
                && (old(other.filter).None? ==>
                      r == Err(NullPointerException) && filter == old(filter) && other.filter == old(other.filter))
                && (old(other.filter).Some? ==> other.filter == Some(normalizeBranches(old(other.filter).value)))
                && (old(other.filter).Some? && old(filter).None? ==> r == Err(NullPointerException) && filter.None?)
                && (old(other.filter).Some? && old(filter).Some? ==>
                      && filter == Some(normalizeBranches(old(filter).value))
                      && r == Ok(filter.value.text == other.filter.value.text))
    {
      if other == this {
        return Ok(true);
      }
      if other.messageId != messageId {
        return Ok(false);
      }
      if other.baseDn.None? {
        return Err(NullPointerException);
      }
      if !FieldsMatch(other, dnEquals) {
        return Ok(false);
      }
      if other.filter.None? {
        return Err(NullPointerException);
      }
      other.filter := Some(normalizeBranches(other.filter.value));
      if filter.None? {
        return Err(NullPointerException);
      }
      filter := Some(normalizeBranches(filter.value));
      r := Ok(filter.value.text == other.filter.value.text);
    }
  }
}
