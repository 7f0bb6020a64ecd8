/**
 * The normalizer of the booleanMatch matching rule (section 4.2.2 of RFC 4517):
 * the value trimmed, then upper-cased, so that " true" and "TRUE" match.
 */
module BooleanNormalizer {
  import opened Wrappers
  import opened JavaStrings

  /** A string attribute value (`Value.getString()`). */
  datatype StringValue = StringValue(s: string)

  /** No leading or trailing character up to U+0020. */
  predicate HasNoEdges(s: string)
  {
    s != [] ==> !IsTrimmed(s[0]) && !IsTrimmed(s[|s| - 1])
  }

  predicate HasNoLowerCase(s: string)
  {
    forall i :: 0 <= i < |s| ==> !('a' <= s[i] <= 'z')
  }

  /** Upper-casing neither creates nor removes blank edges. */
  lemma UpperKeepsEdges(s: string)
    ensures HasNoEdges(ToUpper(s)) <==> HasNoEdges(s)
  {
    if s != [] {
      CaseKeepsTrimmed(s[0]);
      CaseKeepsTrimmed(s[|s| - 1]);
    }
  }

  /** No upper-cased character is a lower-case letter. */
  lemma UpperHasNoLowerCase(s: string)
    ensures HasNoLowerCase(ToUpper(s))
  {
    var u := ToUpper(s);
    forall i | 0 <= i < |s|
      ensures !('a' <= u[i] <= 'z')
    {
      UpperCharNotLower(s[i]);
    }
  }

  lemma UpperCharNotLower(c: char)
    ensures !('a' <= UpperChar(c) <= 'z')
  {
  }

  /** What `trim()` then `toUpperCase()` leave: no blank edge, no lower-case letter, no more characters. */
  lemma TrimUpperShape(s: string)
    ensures HasNoEdges(ToUpper(Trim(s))) && HasNoLowerCase(ToUpper(Trim(s)))
    ensures |ToUpper(Trim(s))| <= |s|
  {
    var t := Trim(s);
    TrimHasNoEdges(s);
    UpperKeepsEdges(t);
    UpperHasNoLowerCase(t);
  }

  /** `normalize(String)`: null stays null; otherwise `value.trim().toUpperCase()`. */
  function Normalize(value: Option<string>): (r: Option<string>)
    ensures r.None? <==> value.None?
    ensures r.Some? ==> HasNoEdges(r.value) && HasNoLowerCase(r.value)
    ensures r.Some? ==> |r.value| <= |value.value|
  {
    if value.None? then None
    else
      TrimUpperShape(value.value);
      Some(ToUpper(Trim(value.value)))
  }

  /** `normalize(Value)`: null stays null; otherwise a new string value of the normalized string. */
  function NormalizeValue(value: Option<StringValue>): (r: Option<StringValue>)
    ensures r.None? <==> value.None?
  {
    if value.None? then None else Some(StringValue(ToUpper(Trim(value.value.s))))
  }

  /** Both overloads give the same string for the same input. */
  lemma OverloadsAgree(s: string)
    ensures NormalizeValue(Some(StringValue(s))) == Some(StringValue(Normalize(Some(s)).value))
  {
  }

  /** Normalizing twice gives what normalizing once gives. */
  lemma NormalizeIdempotent(value: Option<string>)
    ensures Normalize(Normalize(value)) == Normalize(value)
  {
    if value.Some? {
      var n := Normalize(value).value;
      TrimOfTrimmed(n);
      ToUpperIdempotent(Trim(value.value));
    }
  }

  /** A leading blank does not matter. */
  lemma LeadingBlankIgnored(s: string)
    ensures Normalize(Some(" " + s)) == Normalize(Some(s))
  {
    assert (" " + s)[1..] == s;
  }
}
