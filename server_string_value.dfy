/**
 * A schema-aware string attribute value. It keeps the user-provided string
 * (`wrapped`), caches its normalized form and its syntax validity, orders and
 * compares values through the matching rules of its attribute type, and
 * writes itself to an object stream as a short sequence of flags and strings.
 * The schema objects (normalizers, comparators, syntax checkers) are not part
 * of this model: they are functions carried by the attribute type.
 */
module ServerStringValue {
  import opened Wrappers

  /**
   * `Normalizer.normalize` on a non-null string: the normal form, or `None`
   * for its `LdapException`. A null string is taken to normalize to null,
   * as BooleanNormalizer and DeepTrimToLowerNormalizer do, so a normalizer is
   * applied here to non-null strings only.
   */
  type Normalizer = string -> Option<string>

  /** `LdapComparator.compare` on two normalized values, either of which may be null. */
  type Comparator = (Option<string>, Option<string>) -> int

  datatype MatchingRule = MatchingRule(normalizer: Option<Normalizer>, comparator: Option<Comparator>)

  /** The parts of an attribute type a value uses; two types are the same type when their OIDs are. */
  datatype AttributeType = AttributeType(
    oid: string,
    equality: Option<MatchingRule>,
    ordering: Option<MatchingRule>,
    substring: Option<MatchingRule>,
    isValidSyntax: Option<string> -> bool)

  /** `getMatchingRule`: the equality rule, else the ordering rule, else the substring rule, else none. */
  function MatchingRuleOf(at: AttributeType): (mr: Option<MatchingRule>)
    ensures mr.None? <==> at.equality.None? && at.ordering.None? && at.substring.None?
    ensures at.equality.Some? ==> mr == at.equality
    ensures at.equality.None? && at.ordering.Some? ==> mr == at.ordering
    ensures at.equality.None? && at.ordering.None? ==> mr == at.substring
  {
    if at.equality.Some? then at.equality
    else if at.ordering.Some? then at.ordering
    else at.substring
  }

  /** `getNormalizer`: the normalizer of that matching rule, if there is one. */
  function NormalizerOf(at: AttributeType): Option<Normalizer>
  {
    match MatchingRuleOf(at)
    case None => None
    case Some(mr) => mr.normalizer
  }

  /** `getLdapComparator`: the comparator of that matching rule, if there is one. */
  function ComparatorOf(at: AttributeType): Option<Comparator>
  {
    match MatchingRuleOf(at)
    case None => None
    case Some(mr) => mr.comparator
  }

  /** The cached normalization of a value: whether it is normalized, and the normalized form. */
  datatype NormState = NormState(normalized: bool, value: Option<string>)

  /** `normalize()` throws only when the normalizer refuses the (non-null) wrapped string. */
  predicate NormalizeFails(at: AttributeType, wrapped: Option<string>, s: NormState)
  {
    && !s.normalized
    && NormalizerOf(at).Some?
    && wrapped.Some?
    && NormalizerOf(at).value(wrapped.value).None?
  }

  /**
   * The cache after `normalize()`: unchanged when it was already normalized or
   * when normalizing fails; otherwise normalized, holding the normalizer's
   * form of the wrapped string, or the wrapped string itself when the
   * attribute type has no normalizer.
   */
  function Normalized(at: AttributeType, wrapped: Option<string>, s: NormState): (t: NormState)
    ensures s.normalized || NormalizeFails(at, wrapped, s) ==> t == s
    ensures !NormalizeFails(at, wrapped, s) ==> t.normalized
    ensures !s.normalized && NormalizerOf(at).None? ==> t.value == wrapped
    ensures !s.normalized && !NormalizeFails(at, wrapped, s) ==> (t.value.Some? <==> wrapped.Some?)
  {
    if s.normalized then s
    else
      match NormalizerOf(at)
      case None => NormState(true, wrapped)
      case Some(normalizer) =>
        if wrapped.None? then NormState(true, None)
        else
          match normalizer(wrapped.value)
          case None => s
          case Some(n) => NormState(true, Some(n))
  }

  /** Normalizing a second time changes nothing, whether or not the first time succeeded. */
  lemma NormalizedIdempotent(at: AttributeType, wrapped: Option<string>, s: NormState)
    ensures Normalized(at, wrapped, Normalized(at, wrapped, s)) == Normalized(at, wrapped, s)
    ensures NormalizeFails(at, wrapped, Normalized(at, wrapped, s)) <==> NormalizeFails(at, wrapped, s)
  {
  }

  /** The objects a value is written to and read from: booleans and modified-UTF-8 strings. */
  datatype Token = Bool(b: bool) | Utf(s: string)

  datatype ValueError =
    /** A call on a null reference: `writeUTF(null)`, or no comparator or normalized form to compare with. */
    | NullPointerException
    /** The stream ends, or holds something else than what is read next. */
    | IOException
    /** `writeExternal`/`readExternal`: these values are written with `serialize` only. */
    | IllegalStateException

  /** The tokens written to the stream, and how the writing ended. */
  datatype Written = Written(tokens: seq<Token>, outcome: Outcome<ValueError>)

  /**
   * The tokens `serialize` writes for a value with this wrapped string and
   * (after its normalization attempt) this cache: a null flag; then the
   * string; then whether it is normalized; then whether the normalized form is
   * the string itself, and that form when it is not. A normalized value whose
   * normalized form is null fails at that last `writeUTF(null)`, after the
   * four tokens before it are written.
   */
  function SerializedForm(wrapped: Option<string>, s: NormState): (r: Written)
    ensures 1 <= |r.tokens| <= 5 && r.tokens[0] == Bool(wrapped.Some?)
    ensures r.outcome.Fail? <==> wrapped.Some? && s.normalized && s.value.None?
    ensures r.outcome.Fail? ==> r.outcome.error == NullPointerException && |r.tokens| == 4
  {
    if wrapped.None? then Written([Bool(false)], Pass)
    else if !s.normalized then Written([Bool(true), Utf(wrapped.value), Bool(false)], Pass)
    else if s.value == wrapped then Written([Bool(true), Utf(wrapped.value), Bool(true), Bool(true)], Pass)
    else if s.value.None? then Written([Bool(true), Utf(wrapped.value), Bool(true), Bool(false)], Fail(NullPointerException))
    else Written([Bool(true), Utf(wrapped.value), Bool(true), Bool(false), Utf(s.value.value)], Pass)
  }

  /** The wrapped string and the cache of a value, as `deserialize` restores them. */
  datatype Snapshot = Snapshot(wrapped: Option<string>, norm: NormState)

  /**
   * What `deserialize` makes of a value holding `s` when it reads `input`:
   * the new wrapped string and cache, and the tokens left after it, or
   * `IOException` when the tokens run out or are not of the expected kind
   * (with whatever was read so far already stored).
   */
  function Deserialized(input: seq<Token>, s: Snapshot): (Snapshot, Result<seq<Token>, ValueError>)
  {
    if |input| == 0 || !input[0].Bool? then (s, Err(IOException))
    else if !input[0].b then (Snapshot(None, NormState(s.norm.normalized, None)), Ok(input[1..]))
    else if |input| < 2 || !input[1].Utf? then (s, Err(IOException))
    else
      var wrapped := Some(input[1].s);
      if |input| < 3 || !input[2].Bool? then (Snapshot(wrapped, s.norm), Err(IOException))
      else if !input[2].b then (Snapshot(wrapped, NormState(false, s.norm.value)), Ok(input[3..]))
      else if |input| < 4 || !input[3].Bool? then (Snapshot(wrapped, NormState(true, s.norm.value)), Err(IOException))
      else if input[3].b then (Snapshot(wrapped, NormState(true, wrapped)), Ok(input[4..]))
      else if |input| < 5 || !input[4].Utf? then (Snapshot(wrapped, NormState(true, s.norm.value)), Err(IOException))
      else (Snapshot(wrapped, NormState(true, Some(input[4].s))), Ok(input[5..]))
  }

  /**
   * Reading back what `serialize` wrote, into any value, restores the wrapped
   * string, the normalized flag of a non-null value and, when it is
   * normalized, its normalized form, and consumes exactly those tokens.
   */
  lemma SerializeRoundTrip(wrapped: Option<string>, s: NormState, target: Snapshot, rest: seq<Token>)
    requires SerializedForm(wrapped, s).outcome.Pass?
    ensures var out := Deserialized(SerializedForm(wrapped, s).tokens + rest, target);
            && out.1 == Ok(rest)
            && out.0.wrapped == wrapped
            && (wrapped.None? ==> out.0.norm == NormState(target.norm.normalized, None))
            && (wrapped.Some? ==> out.0.norm.normalized == s.normalized)
            && (wrapped.Some? && s.normalized ==> out.0.norm.value == s.value)
  {
    var form := SerializedForm(wrapped, s).tokens;
    assert (form + rest)[..|form|] == form;
    assert (form + rest)[|form|..] == rest;
  }

  /**
   * What a failed `serialize` leaves on the stream cannot be read back: the
   * reader finds the stream ending where the normalized form should be.
   */
  lemma FailedSerializeTruncated(wrapped: Option<string>, s: NormState, target: Snapshot)
    requires SerializedForm(wrapped, s).outcome.Fail?
    ensures Deserialized(SerializedForm(wrapped, s).tokens, target).1 == Err(IOException)
  {
  }

  /** The normalized form `getNormalizedValue` returns: null for a null value, else the form after normalizing. */
  function NormalizedValueOf(at: AttributeType, wrapped: Option<string>, s: NormState): Option<string>
  {
    if wrapped.None? then None else Normalized(at, wrapped, s).value
  }

  /** The cache after `getNormalizedValue`: a null value is marked normalized, any other is normalized. */
  function CacheAfterGet(at: AttributeType, wrapped: Option<string>, s: NormState): (t: NormState)
    ensures t.value == (if wrapped.None? then s.value else Normalized(at, wrapped, s).value)
    ensures !NormalizeFails(at, wrapped, s) ==> t.normalized
    ensures NormalizeFails(at, wrapped, s) ==> t == s
  {
    if wrapped.None? then NormState(true, s.value) else Normalized(at, wrapped, s)
  }

  /**
   * The last branch of `equals`: both strings put through the normalizer of
   * the equality rule (a missing rule or normalizer is a null dereference,
   * a refusal means not equal) and compared.
   */
  function EqualByNormalizer(at: AttributeType, comparator: Comparator, mine: string, theirs: Option<string>): (r: Result<bool, ValueError>)
    ensures r.Err? <==> at.equality.None? || at.equality.value.normalizer.None?
    ensures r == Ok(true) ==>
              var n := at.equality.value.normalizer.value;
              n(mine).Some? && (theirs.Some? ==> n(theirs.value).Some?)
  {
    if at.equality.None? || at.equality.value.normalizer.None? then Err(NullPointerException)
    else
      var normalizer := at.equality.value.normalizer.value;
      match normalizer(mine)
      case None => Ok(false)
      case Some(m) =>
        if theirs.None? then Ok(comparator(Some(m), None) == 0)
        else
          match normalizer(theirs.value)
          case None => Ok(false)
          case Some(t) => Ok(comparator(Some(m), Some(t)) == 0)
  }

  class ServerStringValue {
    const attributeType: AttributeType
    /** The user-provided value, possibly null. */
    var wrapped: Option<string>
    var normalized: bool
    var normalizedValue: Option<string>
    /** The cached result of the syntax check, unknown until `isValid` runs. */
    var valid: Option<bool>

    function Norm(): NormState
      reads this
    {
      NormState(normalized, normalizedValue)
    }

    /** `new ServerStringValue(attributeType, wrapped)`: not normalized, validity unknown. */
    constructor (attributeType: AttributeType, wrapped: Option<string>)
      ensures this.attributeType == attributeType && this.wrapped == wrapped
      ensures !normalized && normalizedValue.None? && valid.None?
    {
      this.attributeType := attributeType;
      this.wrapped := wrapped;
      normalized := false;
      normalizedValue := None;
      valid := None;
    }

    /** The package-private constructor that is handed the normalized form and the validity. */
    constructor WithNormalizedValue(attributeType: AttributeType, wrapped: Option<string>,
                                    normalizedValue: Option<string>, valid: bool)
      ensures this.attributeType == attributeType && this.wrapped == wrapped
      ensures normalized && this.normalizedValue == normalizedValue && this.valid == Some(valid)
    {
      this.attributeType := attributeType;
      this.wrapped := wrapped;
      normalized := true;
      this.normalizedValue := normalizedValue;
      this.valid := Some(valid);
    }

    /** `normalize()`: at most once; a refusing normalizer is an `LdapException` and changes nothing. */
    method Normalize() returns (ok: bool)
      modifies this`normalized, this`normalizedValue
      ensures ok <==> !NormalizeFails(attributeType, wrapped, old(Norm()))
      ensures Norm() == Normalized(attributeType, wrapped, old(Norm()))
    {
      if normalized {
        return true;
      }
      var normalizer := NormalizerOf(attributeType);
      if normalizer.None? {
        normalizedValue := wrapped;
      } else if wrapped.None? {
        normalizedValue := None;
      } else {
        var n := normalizer.value(wrapped.value);
        if n.None? {
          return false;
        }
        normalizedValue := n;
      }
      normalized := true;
      ok := true;
    }

    /**
     * `getNormalizedValue()`: null for a null value (which is then marked
     * normalized); otherwise the normalized form, normalizing first if needed.
     * A failing normalizer leaves the value not normalized.
     */
    method GetNormalizedValue() returns (r: Option<string>)
      modifies this`normalized, this`normalizedValue
      ensures r == NormalizedValueOf(attributeType, wrapped, old(Norm()))
      ensures Norm() == CacheAfterGet(attributeType, wrapped, old(Norm()))
      ensures wrapped.None? ==> normalized && normalizedValue == old(normalizedValue)
      ensures wrapped.Some? ==> Norm() == Normalized(attributeType, wrapped, old(Norm()))
    {
      if wrapped.None? {
        normalized := true;
        return None;
      }
      if !normalized {
        var ok := Normalize();
        if !ok {
          normalized := false;
        }
      }
      r := normalizedValue;
    }

    /** `isValid()`: the syntax checker's verdict on the wrapped string, computed once. */
    method IsValid() returns (r: bool)
      modifies this`valid
      ensures old(valid).Some? ==> r == old(valid).value && valid == old(valid)
      ensures old(valid).None? ==> r == attributeType.isValidSyntax(wrapped) && valid == Some(r)
    {
      if valid.Some? {
        return valid.value;
      }
      valid := Some(attributeType.isValidSyntax(wrapped));
      r := valid.value;
    }

    /**
     * `compareTo(value)`: a null value (null reference or null wrapped string)
     * sorts before any other and equals another null; otherwise both values are
     * normalized and compared with the comparator of this value's attribute
     * type, and the lack of one is a null dereference.
     */
    method CompareTo(other: ServerStringValue?) returns (r: Result<int, ValueError>)
      modifies this`normalized, this`normalizedValue, {other}`normalized, {other}`normalizedValue
      ensures wrapped.None? ==> r == Ok(if other == null || other.wrapped.None? then 0 else -1)
      ensures wrapped.Some? && (other == null || other.wrapped.None?) ==> r == Ok(1)
      ensures wrapped.None? || other == null || other.wrapped.None? ==> Norm() == old(Norm())
      ensures wrapped.Some? && other != null && other.wrapped.Some? ==>
                && Norm() == Normalized(attributeType, wrapped, old(Norm()))
                && other.Norm() == Normalized(other.attributeType, other.wrapped, old(other.Norm()))
                && (ComparatorOf(attributeType).None? ==> r == Err(NullPointerException))
                && (ComparatorOf(attributeType).Some? ==>
                      r == Ok(ComparatorOf(attributeType).value(normalizedValue, other.normalizedValue)))
    {
      if wrapped.None? {
        if other == null || other.wrapped.None? {
          return Ok(0);
        }
        return Ok(-1);
      } else if other == null || other.wrapped.None? {
        return Ok(1);
      }
      NormalizedIdempotent(attributeType, wrapped, old(Norm()));
      NormalizedIdempotent(other.attributeType, other.wrapped, old(other.Norm()));
      var ignored := other.Normalize();
      ignored := Normalize();
      var comparator := ComparatorOf(attributeType);
      var mine := GetNormalizedValue();
      var theirs := other.GetNormalizedValue();
      if comparator.None? {
        return Err(NullPointerException);
      }
      r := Ok(comparator.value(mine, theirs));
    }

    /**
     * `equals(other)`: the same object is equal; a value whose attribute type
     * is not equal under `AttributeType.equals` (`typeEquals`; the
     * `AttributeType` class is not part of this model) is not; a null value equals only a null value; equal wrapped strings
     * are equal without any normalization. Otherwise the normalized forms
     * decide: with no comparator they must be equal strings; with one and this
     * value already normalized, the comparator must answer 0 on the cached
     * forms; with one and this value not normalized, the equality rule's
     * normalizer is applied to both strings and a refusal means not equal.
     */
    method Equals(other: ServerStringValue, typeEquals: (AttributeType, AttributeType) -> bool)
      returns (r: Result<bool, ValueError>)
      modifies this`normalized, this`normalizedValue, other`normalized, other`normalizedValue
      ensures other == this ==> r == Ok(true)
      ensures other != this && !typeEquals(attributeType, other.attributeType) ==> r == Ok(false)
      ensures other != this && typeEquals(attributeType, other.attributeType) && wrapped.None? ==>
                r == Ok(other.wrapped.None?)
      ensures other != this && typeEquals(attributeType, other.attributeType) && wrapped.Some? && wrapped == other.wrapped ==>
                r == Ok(true)
      ensures other == this || !typeEquals(attributeType, other.attributeType) || wrapped.None? || wrapped == other.wrapped ==>
                Norm() == old(Norm()) && other.Norm() == old(other.Norm())
      ensures other != this && typeEquals(attributeType, other.attributeType) && wrapped.Some? && wrapped != other.wrapped ==>
                && (ComparatorOf(attributeType).None? ==>
                      var mine := NormalizedValueOf(attributeType, wrapped, old(Norm()));
                      var theirs := NormalizedValueOf(other.attributeType, other.wrapped, old(other.Norm()));
                      r == if mine.None? then Err(NullPointerException) else Ok(mine == theirs))
                && (ComparatorOf(attributeType).Some? && old(normalized) ==>
                      r == Ok(ComparatorOf(attributeType).value(
                                NormalizedValueOf(attributeType, wrapped, old(Norm())),
                                NormalizedValueOf(other.attributeType, other.wrapped, old(other.Norm()))) == 0))
                && (ComparatorOf(attributeType).None? || old(normalized) ==>
                      && Norm() == CacheAfterGet(attributeType, wrapped, old(Norm()))
                      && other.Norm() == CacheAfterGet(other.attributeType, other.wrapped, old(other.Norm())))
                && (ComparatorOf(attributeType).Some? && !old(normalized) ==>
                      r == EqualByNormalizer(attributeType, ComparatorOf(attributeType).value, wrapped.value, other.wrapped)
                      && Norm() == old(Norm()) && other.Norm() == old(other.Norm()))
    {
      if this == other {
        return Ok(true);
      }
      if !typeEquals(attributeType, other.attributeType) {
        return Ok(false);
      }
      if wrapped.None? {
        return Ok(other.wrapped.None?);
      }
      if wrapped == other.wrapped {
        return Ok(true);
      }
      var comparator := ComparatorOf(attributeType);
      if comparator.None? {
        var mine := GetNormalizedValue();
        var theirs := other.GetNormalizedValue();
        if mine.None? {
          return Err(NullPointerException);
        }
        return Ok(mine == theirs);
      }
      if normalized {
        var mine := GetNormalizedValue();
        var theirs := other.GetNormalizedValue();
        return Ok(comparator.value(mine, theirs) == 0);
      }
      r := EqualByNormalizer(attributeType, comparator.value, wrapped.value, other.wrapped);
    }

    /** `writeExternal`: always refused. */
    method WriteExternal() returns (r: Outcome<ValueError>)
      ensures r == Fail(IllegalStateException)
    {
      r := Fail(IllegalStateException);
    }

    /** `readExternal`: always refused. */
    method ReadExternal() returns (r: Outcome<ValueError>)
      ensures r == Fail(IllegalStateException)
    {
      r := Fail(IllegalStateException);
    }

    /**
     * `serialize(out)`: normalizes a non-null value first (forgetting the
     * normalized form when that fails), then writes the tokens of its
     * serialized form; `written` is what reached the stream, also when the
     * writing fails.
     */
    method Serialize() returns (written: seq<Token>, r: Outcome<ValueError>)
      modifies this`normalized, this`normalizedValue
      ensures wrapped.None? ==> Norm() == old(Norm())
      ensures wrapped.Some? && NormalizeFails(attributeType, wrapped, old(Norm())) ==>
                Norm() == NormState(old(normalized), None)
      ensures wrapped.Some? && !NormalizeFails(attributeType, wrapped, old(Norm())) ==>
                Norm() == Normalized(attributeType, wrapped, old(Norm()))
      ensures Written(written, r) == SerializedForm(wrapped, Norm())
    {
      if wrapped.None? {
        return [Bool(false)], Pass;
      }
      written := [Bool(true), Utf(wrapped.value)];
      var ok := Normalize();
      if !ok {
        normalizedValue := None;
        return written + [Bool(false)], Pass;
      }
      written := written + [Bool(true)];
      if wrapped == normalizedValue {
        return written + [Bool(true)], Pass;
      }
      written := written + [Bool(false)];
      if normalizedValue.None? {
        return written, Fail(NullPointerException);
      }
      written := written + [Utf(normalizedValue.value)];
      r := Pass;
    }

    /** `deserialize(in)`: reads the tokens `serialize` writes back into this value. */
    method Deserialize(input: seq<Token>) returns (r: Result<seq<Token>, ValueError>)
      modifies this`wrapped, this`normalized, this`normalizedValue
      ensures (Snapshot(wrapped, Norm()), r) == Deserialized(input, old(Snapshot(wrapped, Norm())))
    {
      if |input| == 0 || !input[0].Bool? {
        return Err(IOException);
      }
      if !input[0].b {
        wrapped := None;
        normalizedValue := None;
        return Ok(input[1..]);
      }
      if |input| < 2 || !input[1].Utf? {
        return Err(IOException);
      }
      wrapped := Some(input[1].s);
      if |input| < 3 || !input[2].Bool? {
        return Err(IOException);
      }
      normalized := input[2].b;
      if !normalized {
        return Ok(input[3..]);
      }
      if |input| < 4 || !input[3].Bool? {
        return Err(IOException);
      }
      if input[3].b {
        normalizedValue := wrapped;
        return Ok(input[4..]);
      }
      if |input| < 5 || !input[4].Utf? {
        return Err(IOException);
      }
      normalizedValue := Some(input[4].s);
      r := Ok(input[5..]);
    }
  }

  /** A null value sorts before a non-null one, and comparing them touches only the caches. */
  method NullSortsFirst(at: AttributeType, s: string) returns (r: Result<int, ValueError>, kept: bool)
    ensures r == Ok(-1) && kept
  {
    var v := new ServerStringValue(at, None);
    var w := new ServerStringValue(at, Some(s));
    r := v.CompareTo(w);
    kept := v.wrapped == None && w.wrapped == Some(s);
  }

  /** Two distinct values wrapping the same string are equal, and keep their strings. */
  method SameStringEqual(at: AttributeType, s: string, typeEquals: (AttributeType, AttributeType) -> bool)
    returns (r: Result<bool, ValueError>, kept: bool)
    requires typeEquals(at, at)
    ensures r == Ok(true) && kept
  {
    var v := new ServerStringValue(at, Some(s));
    var w := new ServerStringValue(at, Some(s));
    r := v.Equals(w, typeEquals);
    kept := v.wrapped == Some(s) && w.wrapped == Some(s);
  }
}
