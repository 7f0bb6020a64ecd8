/**
 * The holder of an object class read from an OpenLDAP schema file, and its
 * conversion to the LDIF of an ApacheDS schema entry (`metaObjectClass`):
 * one attribute line per superior, per mandatory and per optional attribute,
 * and a type line when the class is not structural. The common part of the
 * conversion (`schemaToLdif`, `extensionsToLdif`) belongs to the parent
 * schema-element class, which is not part of this model; it is a parameter.
 */
module ObjectClassHolder {
  import opened Wrappers

  /** `ObjectClassTypeEnum`. */
  datatype ObjectClassType = Abstract | Structural | Auxiliary

  /** The enum constant's name, as `StringBuilder.append(Object)` writes it. */
  function TypeName(t: ObjectClassType): (r: string)
    ensures r != [] && '\n' !in r
  {
    match t
    case Abstract => "ABSTRACT"
    case Structural => "STRUCTURAL"
    case Auxiliary => "AUXILIARY"
  }

  datatype LdifError = LdapException

  /** `schemaToLdif(schemaName, type)`: the common head of the entry; `None` for its `LdapException`. */
  type SchemaToLdif = (string, string) -> Option<string>

  // ---------------------------------------------------------------------
  // Lines of text
  // ---------------------------------------------------------------------

  /** Each line followed by a newline, in order. */
  function JoinLines(lines: seq<string>): string
  {
    if lines == [] then [] else JoinLines(lines[..|lines| - 1]) + lines[|lines| - 1] + "\n"
  }

  /** The element's line: its attribute name, then the element. */
  function Prefixed(prefix: string, xs: seq<string>): (r: seq<string>)
    ensures |r| == |xs| && forall i :: 0 <= i < |xs| ==> r[i] == prefix + xs[i]
  {
    seq(|xs|, i requires 0 <= i < |xs| => prefix + xs[i])
  }

  /** Where the first newline of s is, or |s| when there is none. */
  function LineEnd(s: string): (i: nat)
    ensures i <= |s| && '\n' !in s[..i] && (i < |s| ==> s[i] == '\n')
  {
    if s == [] || s[0] == '\n' then 0
    else
      var j := LineEnd(s[1..]);
      assert s[..j + 1] == [s[0]] + s[1..][..j];
      1 + j
  }

  /** Text cut into its lines; a last line without a newline still counts. */
  function SplitLines(s: string): seq<string>
    decreases |s|
  {
    if s == [] then []
    else
      var i := LineEnd(s);
      if i == |s| then [s] else [s[..i]] + SplitLines(s[i + 1..])
  }

  lemma Assoc(x: string, y: string, z: string)
    ensures x + (y + z) == x + y + z
  {
  }

  lemma {:induction false} JoinLinesCons(line: string, rest: seq<string>)
    ensures JoinLines([line] + rest) == line + "\n" + JoinLines(rest)
    decreases |rest|
  {
    if rest != [] {
      var front := rest[..|rest| - 1];
      JoinLinesCons(line, front);
      assert ([line] + rest)[..|rest|] == [line] + front;
    }
  }

  lemma {:induction false} JoinLinesAppend(a: seq<string>, b: seq<string>)
    ensures JoinLines(a + b) == JoinLines(a) + JoinLines(b)
    decreases |b|
  {
    if b != [] {
      var front := b[..|b| - 1];
      var last := b[|b| - 1];
      JoinLinesAppend(a, front);
      assert (a + b)[..|a + b| - 1] == a + front;
      assert JoinLines(a + b) == JoinLines(a) + JoinLines(front) + (last + "\n") by {
        Assoc(JoinLines(a + front), last, "\n");
      }
      assert JoinLines(b) == JoinLines(front) + (last + "\n") by {
        Assoc(JoinLines(front), last, "\n");
      }
      Assoc(JoinLines(a), JoinLines(front), last + "\n");
    } else {
      assert a + b == a;
    }
  }

  /** Lines without a newline of their own are read back as they were joined. */
  lemma {:induction false} SplitJoin(lines: seq<string>)
    requires forall k :: 0 <= k < |lines| ==> '\n' !in lines[k]
    ensures SplitLines(JoinLines(lines)) == lines
    decreases |lines|
  {
    if lines != [] {
      var line, rest := lines[0], lines[1..];
      assert lines == [line] + rest;
      JoinLinesCons(line, rest);
      var s := JoinLines(lines);
      assert s == line + ("\n" + JoinLines(rest));
      assert LineEnd(s) == |line| by {
        LineEndAt(line, "\n" + JoinLines(rest));
      }
      assert s[..|line|] == line;
      assert s[|line| + 1..] == JoinLines(rest);
      SplitJoin(rest);
    }
  }

  lemma LineEndAt(line: string, rest: string)
    requires '\n' !in line && rest != [] && rest[0] == '\n'
    ensures LineEnd(line + rest) == |line|
  {
    var s := line + rest;
    assert s[|line|] == '\n';
    assert forall i :: 0 <= i < |line| ==> s[i] == line[i];
  }

  /** `for (x : xs) sb.append(prefix).append(x).append('\n')`. */
  function Lines(prefix: string, xs: seq<string>): (r: string)
    ensures r == JoinLines(Prefixed(prefix, xs))
  {
    if xs == [] then []
    else
      var front := xs[..|xs| - 1];
      assert Prefixed(prefix, xs)[..|xs| - 1] == Prefixed(prefix, front);
      Lines(prefix, front) + prefix + xs[|xs| - 1] + "\n"
  }

  /** The type line, present only for a class that is not structural. */
  function TypeLines(t: ObjectClassType): (r: seq<string>)
    ensures |r| <= 1 && (r == [] <==> t == Structural)
  {
    if t == Structural then [] else ["m-typeObjectClass: " + TypeName(t)]
  }

  /**
   * What `toLdif` produces after the common head: the superiors, the type
   * line, the mandatory and the optional attributes. The extensions are
   * left out, since the text built for them is dropped.
   */
  function ObjectClassLines(superiors: seq<string>, t: ObjectClassType,
                            must: seq<string>, may: seq<string>): seq<string>
  {
    Prefixed("m-supObjectClass: ", superiors) + TypeLines(t)
      + Prefixed("m-must: ", must) + Prefixed("m-may: ", may)
  }

  /** Nothing in a list holds a line break. */
  predicate SingleLine(xs: seq<string>)
  {
    forall k :: 0 <= k < |xs| ==> '\n' !in xs[k]
  }

  lemma PrefixedSingleLine(prefix: string, xs: seq<string>)
    requires '\n' !in prefix && SingleLine(xs)
    ensures SingleLine(Prefixed(prefix, xs))
  {
    forall k | 0 <= k < |xs|
      ensures '\n' !in prefix + xs[k]
    {
      assert forall c :: c in prefix + xs[k] ==> c in prefix || c in xs[k];
    }
  }

  lemma SingleLineAppend(a: seq<string>, b: seq<string>)
    requires SingleLine(a) && SingleLine(b)
    ensures SingleLine(a + b)
  {
    forall k | 0 <= k < |a + b|
      ensures '\n' !in (a + b)[k]
    {
      if k >= |a| {
        assert (a + b)[k] == b[k - |a|];
      }
    }
  }

  class ObjectClassHolder {
    const oid: string
    var superiors: seq<string>
    var must: seq<string>
    var may: seq<string>
    var classType: ObjectClassType
    /** The `X-` extensions of the definition, by name. */
    var extensions: map<string, seq<string>>

    /** `new ObjectClassHolder(oid)`: a structural class with empty lists. */
    constructor (oid: string)
      ensures this.oid == oid && superiors == [] && must == [] && may == []
      ensures classType == Structural && extensions == map[]
    {
      this.oid := oid;
      superiors := [];
      must := [];
      may := [];
      classType := Structural;
      extensions := map[];
    }

    method SetSuperiors(superiors: seq<string>)
      modifies this`superiors
      ensures this.superiors == superiors
    {
      this.superiors := superiors;
    }

    method SetMust(must: seq<string>)
      modifies this`must
      ensures this.must == must
    {
      this.must := must;
    }

    method SetMay(may: seq<string>)
      modifies this`may
      ensures this.may == may
    {
      this.may := may;
    }

    method SetClassType(classType: ObjectClassType)
      modifies this`classType
      ensures this.classType == classType
    {
      this.classType := classType;
    }

    /** `toString`: the OID. */
    function ToString(): (r: string)
      reads this
      ensures r == oid
    {
      oid
    }

    /**
     * `toLdif` as written: the head, then one line per superior, the type line,
     * one line per mandatory and per optional attribute. The text
     * `extensionsToLdif` builds is thrown away, so the extensions are missing.
     */
    method ToLdif(schemaName: string, schemaToLdif: SchemaToLdif, extensionsToLdif: string -> string)
      returns (r: Result<string, LdifError>)
      ensures schemaToLdif(schemaName, "metaObjectClass").None? ==> r == Err(LdapException)
      ensures schemaToLdif(schemaName, "metaObjectClass").Some? ==>
                r == Ok(schemaToLdif(schemaName, "metaObjectClass").value
                        + JoinLines(ObjectClassLines(superiors, classType, must, may)))
    {
      var head := schemaToLdif(schemaName, "metaObjectClass");
      if head.None? {
        return Err(LdapException);
      }
      var sb := AppendLines(head.value, "m-supObjectClass: ", superiors);
      ghost var afterSuperiors := sb;
      if classType != Structural {
        sb := sb + ("m-typeObjectClass: " + TypeName(classType) + "\n");
      }
      TypeLineJoined(classType);
      assert sb == afterSuperiors + JoinLines(TypeLines(classType));
      ghost var afterType := sb;
      sb := AppendLines(sb, "m-must: ", must);
      ghost var afterMust := sb;
      sb := AppendLines(sb, "m-may: ", may);
      LdifLinesJoined(superiors, classType, must, may);
      ghost var a, b := Lines("m-supObjectClass: ", superiors), JoinLines(TypeLines(classType));
      ghost var c, d := Lines("m-must: ", must), Lines("m-may: ", may);
      Assoc(head.value, a, b);
      Assoc(head.value, a + b, c);
      Assoc(head.value, a + b + c, d);
      if |extensions| != 0 {
        var _ := extensionsToLdif("m-extensionObjectClass");
      }
      r := Ok(sb);
    }

    /** `toLdif` with the extensions' text appended after the optional attributes. */
    method ToLdifCorrected(schemaName: string, schemaToLdif: SchemaToLdif, extensionsToLdif: string -> string)
      returns (r: Result<string, LdifError>)
      ensures schemaToLdif(schemaName, "metaObjectClass").None? ==> r == Err(LdapException)
      ensures schemaToLdif(schemaName, "metaObjectClass").Some? ==>
                r == Ok(schemaToLdif(schemaName, "metaObjectClass").value
                        + JoinLines(ObjectClassLines(superiors, classType, must, may))
                        + (if |extensions| != 0 then extensionsToLdif("m-extensionObjectClass") else ""))
    {
      r := ToLdif(schemaName, schemaToLdif, extensionsToLdif);
      if r.Ok? {
        var tail := if |extensions| != 0 then extensionsToLdif("m-extensionObjectClass") else "";
        assert tail == "" ==> r.value + tail == r.value;
        r := Ok(r.value + tail);
      }
    }
  }

  /** The loop over one list: each element's line appended to the builder, in order. */
  method AppendLines(sb: string, prefix: string, xs: seq<string>) returns (r: string)
    ensures r == sb + Lines(prefix, xs)
  {
    r := sb;
    for i := 0 to |xs|
      invariant r == sb + Lines(prefix, xs[..i])
    {
      var line := prefix + xs[i] + "\n";
      assert xs[..i + 1][..i] == xs[..i];
      assert Lines(prefix, xs[..i + 1]) == Lines(prefix, xs[..i]) + line by {
        Assoc(Lines(prefix, xs[..i]) + prefix, xs[i], "\n");
        Assoc(Lines(prefix, xs[..i]), prefix, xs[i] + "\n");
        Assoc(prefix, xs[i], "\n");
      }
      Assoc(sb, Lines(prefix, xs[..i]), line);
      r := r + line;
    }
    assert xs[..|xs|] == xs;
  }

  /** The type line, joined, is the text `toLdif` appends for it. */
  lemma TypeLineJoined(t: ObjectClassType)
    ensures JoinLines(TypeLines(t)) == if t == Structural then "" else "m-typeObjectClass: " + TypeName(t) + "\n"
  {
    if t != Structural {
      var b := TypeLines(t);
      assert b[..0] == [];
      assert JoinLines(b) == JoinLines([]) + b[0] + "\n";
    }
  }

  /** The four parts, appended one after another, are the join of all their lines. */
  lemma LdifLinesJoined(superiors: seq<string>, t: ObjectClassType, must: seq<string>, may: seq<string>)
    ensures JoinLines(ObjectClassLines(superiors, t, must, may))
            == Lines("m-supObjectClass: ", superiors) + JoinLines(TypeLines(t))
               + Lines("m-must: ", must) + Lines("m-may: ", may)
  {
    var a, b := Prefixed("m-supObjectClass: ", superiors), TypeLines(t);
    var c, d := Prefixed("m-must: ", must), Prefixed("m-may: ", may);
    JoinLinesAppend(a + b + c, d);
    JoinLinesAppend(a + b, c);
    JoinLinesAppend(a, b);
  }

  /**
   * Read back line by line, the LDIF is the head's lines, then one line per
   * superior, the type line when the class is not structural, one line per
   * mandatory attribute and one per optional attribute, each in list order.
   */
  lemma LdifReadsBack(head: seq<string>, superiors: seq<string>, t: ObjectClassType,
                      must: seq<string>, may: seq<string>)
    requires SingleLine(head) && SingleLine(superiors) && SingleLine(must) && SingleLine(may)
    ensures SplitLines(JoinLines(head) + JoinLines(ObjectClassLines(superiors, t, must, may)))
            == head + ObjectClassLines(superiors, t, must, may)
  {
    var a, b := Prefixed("m-supObjectClass: ", superiors), TypeLines(t);
    var c, d := Prefixed("m-must: ", must), Prefixed("m-may: ", may);
    PrefixedSingleLine("m-supObjectClass: ", superiors);
    PrefixedSingleLine("m-must: ", must);
    PrefixedSingleLine("m-may: ", may);
    assert SingleLine(b);
    SingleLineAppend(a, b);
    SingleLineAppend(a + b, c);
    SingleLineAppend(a + b + c, d);
    var body := a + b + c + d;
    SingleLineAppend(head, body);
    JoinLinesAppend(head, body);
    SplitJoin(head + body);
  }

  /** What the extensions hold makes no difference to the LDIF as written. */
  method ExtensionsIgnored(holder: ObjectClassHolder, extensions: map<string, seq<string>>,
                           schemaName: string, schemaToLdif: SchemaToLdif, extensionsToLdif: string -> string)
    returns (before: Result<string, LdifError>, after: Result<string, LdifError>)
    modifies holder`extensions
    ensures before == after
  {
    before := holder.ToLdif(schemaName, schemaToLdif, extensionsToLdif);
    holder.extensions := extensions;
    after := holder.ToLdif(schemaName, schemaToLdif, extensionsToLdif);
  }
}
