/**
 * The comparator of the integerOrderingMatch matching rule (section 4.2.20 of
 * RFC 4517). Values arrive either as `Long`s or as numeric strings; strings are
 * normalized with `PrepareString` (not part of this model, so it is a
 * parameter) and compared as unbounded integers. A null value sorts first.
 */
module IntegerComparator {
  import opened Wrappers
  import opened JavaStrings

  /** What `compare(Object, Object)` can be handed. */
  datatype Value = StringValue(s: string) | LongValue(v: int) | Null

  datatype CompareError =
    /** An argument of the other kind than the first one. */
    | ClassCastException
    /** `PrepareString` could not normalize a string. */
    | IllegalArgumentException
    /** The normalized string is not a numeral (`new BigInteger` refuses it). */
    | NumberFormatException

  /** `PrepareString.normalize(s, NUMERIC_STRING)`; `None` for its `IOException`. */
  type NumericNormalizer = string -> Option<string>

  /** The three-way answer of `compareTo` on numbers. */
  function Sign(x: int): (r: int)
    ensures -1 <= r <= 1 && (r < 0 <==> x < 0) && (r == 0 <==> x == 0)
  {
    if x < 0 then -1 else if x > 0 then 1 else 0
  }

  /**
   * `compare(Long, Long)`: 0 when both are null (the same reference), the null
   * side first when only one is, else the numeric order.
   */
  function CompareLongs(backend: Option<int>, assertion: Option<int>): (r: int)
    ensures -1 <= r <= 1
    ensures backend.None? && assertion.None? ==> r == 0
    ensures backend.None? && assertion.Some? ==> r == -1
    ensures backend.Some? && assertion.None? ==> r == 1
    ensures backend.Some? && assertion.Some? ==>
              (r < 0 <==> backend.value < assertion.value) && (r == 0 <==> backend.value == assertion.value)
  {
    if backend == assertion then 0
    else if backend.None? || assertion.None? then (if backend.None? then -1 else 1)
    else Sign(backend.value - assertion.value)
  }

  /** The number a string stands for: normalized, then read as a decimal numeral. */
  function NumericValue(s: string, normalize: NumericNormalizer): Result<int, CompareError>
  {
    match normalize(s)
    case None => Err(IllegalArgumentException)
    case Some(n) =>
      match DecimalValue(n)
      case None => Err(NumberFormatException)
      case Some(v) => Ok(v)
  }

  /**
   * `compare(String, String)`: 0 for the same reference (both null included)
   * without normalizing, the null side first, otherwise the order of the two
   * numbers; the first string that fails to normalize or to parse is the error.
   * `same` says the two arguments are one and the same object.
   */
  function CompareStrings(backend: Option<string>, assertion: Option<string>, same: bool,
                          normalize: NumericNormalizer): (r: Result<int, CompareError>)
    requires same ==> backend == assertion
    ensures (same || (backend.None? && assertion.None?)) ==> r == Ok(0)
    ensures !same && backend.None? && assertion.Some? ==> r == Ok(-1)
    ensures !same && backend.Some? && assertion.None? ==> r == Ok(1)
    ensures r.Ok? ==> -1 <= r.value <= 1
    ensures !same && backend.Some? && assertion.Some? ==>
              (r.Ok? <==> NumericValue(backend.value, normalize).Ok? && NumericValue(assertion.value, normalize).Ok?)
    ensures !same && backend.Some? && assertion.Some? && r.Ok? ==>
              (r.value < 0 <==> NumericValue(backend.value, normalize).value < NumericValue(assertion.value, normalize).value)
              && (r.value == 0 <==> NumericValue(backend.value, normalize).value == NumericValue(assertion.value, normalize).value)
  {
    if same || (backend.None? && assertion.None?) then Ok(0)
    else if backend.None? || assertion.None? then Ok(if backend.None? then -1 else 1)
    else
      match normalize(backend.value)
      case None => Err(IllegalArgumentException)
      case Some(b) =>
        match normalize(assertion.value)
        case None => Err(IllegalArgumentException)
        case Some(a) =>
          match (DecimalValue(b), DecimalValue(a))
          case (None, _) => Err(NumberFormatException)
          case (_, None) => Err(NumberFormatException)
          case (Some(x), Some(y)) => Ok(Sign(x - y))
  }

  /**
   * `compare(Object, Object)`: a string first argument selects the string
   * comparison, anything else the `Long` one; the second argument is cast to
   * the same kind.
   */
  function Compare(v1: Value, v2: Value, same: bool, normalize: NumericNormalizer): (r: Result<int, CompareError>)
    requires same ==> v1 == v2
    ensures v1.StringValue? && v2.LongValue? ==> r == Err(ClassCastException)
    ensures !v1.StringValue? && v2.StringValue? ==> r == Err(ClassCastException)
    ensures !v1.StringValue? && !v2.StringValue? ==>
              r == Ok(CompareLongs(if v1.Null? then None else Some(v1.v), if v2.Null? then None else Some(v2.v)))
    ensures v1.StringValue? && !v2.LongValue? ==>
              r == CompareStrings(Some(v1.s), if v2.Null? then None else Some(v2.s), same, normalize)
  {
    if v1.StringValue? then
      match v2
      case LongValue(_) => Err(ClassCastException)
      case Null => CompareStrings(Some(v1.s), None, false, normalize)
      case StringValue(s) => CompareStrings(Some(v1.s), Some(s), same, normalize)
    else
      match v2
      case StringValue(_) => Err(ClassCastException)
      case Null => Ok(CompareLongs(if v1.Null? then None else Some(v1.v), None))
      case LongValue(y) => Ok(CompareLongs(if v1.Null? then None else Some(v1.v), Some(y)))
  }

  /** Swapping the arguments of the `Long` comparison negates its answer. */
  lemma CompareLongsAntisymmetric(x: Option<int>, y: Option<int>)
    ensures CompareLongs(x, y) == -CompareLongs(y, x)
  {
  }

  /** The string comparison, when both sides succeed, is antisymmetric too. */
  lemma CompareStringsAntisymmetric(x: Option<string>, y: Option<string>, same: bool, normalize: NumericNormalizer)
    requires same ==> x == y
    requires CompareStrings(x, y, same, normalize).Ok? && CompareStrings(y, x, same, normalize).Ok?
    ensures CompareStrings(x, y, same, normalize).value == -CompareStrings(y, x, same, normalize).value
  {
  }

  /**
   * With a normalizer that keeps numerals as they are, two numbers written in
   * decimal compare in their numeric order.
   */
  lemma CompareDecimals(x: int, y: int, normalize: NumericNormalizer)
    requires normalize(Decimal(x)) == Some(Decimal(x)) && normalize(Decimal(y)) == Some(Decimal(y))
    ensures CompareStrings(Some(Decimal(x)), Some(Decimal(y)), false, normalize) == Ok(Sign(x - y))
  {
    DecimalRoundTrip(x);
    DecimalRoundTrip(y);
  }

  /** Identical string arguments compare as 0 even when they are not numerals. */
  lemma SameReferenceShortcut(s: string, normalize: NumericNormalizer)
    requires normalize(s).None?
    ensures Compare(StringValue(s), StringValue(s), true, normalize) == Ok(0)
    ensures Compare(StringValue(s), StringValue(s), false, normalize) == Err(IllegalArgumentException)
  {
  }
}
