/**
 * The schema manager's own logic: attribute-option stripping for lookups
 * (section 2.5 of RFC 4512), the strict/relaxed switch, and the loading and
 * unloading of whole schemas with their dependencies. The registries are
 * reduced to the set of loaded schema names, the schema loader to a map from
 * names to schemas, and the building and checking of cross references, which
 * work on the schema objects themselves, are parameters.
 */
module DefaultSchemaManager {
  import opened Wrappers
  import opened JavaStrings

  // ---------------------------------------------------------------------
  // Lookups
  // ---------------------------------------------------------------------

  /** `stripOptions`: what comes before the first ';', or the whole string when there is none. */
  function StripOptions(oid: string): (r: string)
    ensures ';' !in r && |r| <= |oid| && r == oid[..|r|]
    ensures |r| < |oid| ==> oid[|r|] == ';'
    ensures ';' !in oid ==> r == oid
  {
    if oid == [] || oid[0] == ';' then []
    else
      var rest := StripOptions(oid[1..]);
      assert [oid[0]] + rest == oid[..|rest| + 1];
      [oid[0]] + rest
  }

  /** Stripping twice is stripping once. */
  lemma StripOptionsIdempotent(oid: string)
    ensures StripOptions(StripOptions(oid)) == StripOptions(oid)
  {
  }

  /** The options after the first ';' never reach the lookup. */
  lemma {:induction false} StripOptionsDropsOptions(name: string, options: string)
    requires ';' !in name
    ensures StripOptions(name + ";" + options) == name
  {
    var s := name + ";" + options;
    var r := StripOptions(s);
    assert s[|name|] == ';';
    assert forall i :: 0 <= i < |name| ==> s[i] == name[i];
    assert r == s[..|name|] == name;
  }

  /** An attribute type, known by its OID. */
  datatype AttributeType = AttributeType(oid: string)

  /** The attribute-type registry's `lookup`; `None` for its `LdapException`. */
  type AttributeTypeLookup = string -> Option<AttributeType>

  datatype SchemaError =
    /** A dependency of the named schema is missing from the loader. */
    | LdapProtocolErrorException(schemaName: string)
    /** A schema asked for by name is unknown to the loader. */
    | LdapUnwillingToPerformException(schemaName: string)
    /** An error reported while building or checking the cross references. */
    | ReferenceError(detail: string)
    /** A registry lookup found nothing. */
    | LdapException

  /** The key `lookupAttributeTypeRegistry` looks up: lower-cased, trimmed, options stripped. */
  function LookupKey(oid: string): (r: string)
    ensures ';' !in r
  {
    StripOptions(Trim(ToLower(oid)))
  }

  /** `lookupAttributeTypeRegistry`: a failed lookup is an `LdapException`. */
  function LookupAttributeTypeRegistry(oid: string, lookup: AttributeTypeLookup): (r: Result<AttributeType, SchemaError>)
    ensures r.Err? <==> lookup(LookupKey(oid)).None?
    ensures r.Err? ==> r.error == LdapException
    ensures r.Ok? ==> Some(r.value) == lookup(LookupKey(oid))
  {
    match lookup(LookupKey(oid))
    case None => Err(LdapException)
    case Some(at) => Ok(at)
  }

  /** `getAttributeType`: the same lookup without stripping the options, null on failure. */
  function GetAttributeType(oid: string, lookup: AttributeTypeLookup): (r: Option<AttributeType>)
    ensures ';' !in Trim(ToLower(oid)) ==> (r.Some? <==> LookupAttributeTypeRegistry(oid, lookup).Ok?)
  {
    lookup(Trim(ToLower(oid)))
  }

  /** Without options the two lookups find the same attribute type. */
  lemma LookupsAgreeWithoutOptions(oid: string, lookup: AttributeTypeLookup)
    requires ';' !in Trim(ToLower(oid))
    ensures LookupAttributeTypeRegistry(oid, lookup).Ok? <==> GetAttributeType(oid, lookup).Some?
    ensures GetAttributeType(oid, lookup).Some? ==>
              LookupAttributeTypeRegistry(oid, lookup).value == GetAttributeType(oid, lookup).value
  {
  }

  // ---------------------------------------------------------------------
  // Schemas, the loader and the registries
  // ---------------------------------------------------------------------

  /** A schema: its name, whether it is enabled, and the names of the schemas it depends on (null when none were given). */
  datatype Schema = Schema(name: string, enabled: bool, dependencies: Option<seq<string>>)

  /** `isEnabled(Schema)`: false for null. */
  predicate IsEnabled(schema: Option<Schema>)
    ensures IsEnabled(schema) ==> schema.Some?
  {
    schema.Some? && schema.value.enabled
  }

  /** `isDisabled(Schema)`: false for null. */
  predicate IsDisabled(schema: Option<Schema>)
    ensures IsDisabled(schema) ==> schema.Some? && !IsEnabled(schema)
  {
    schema.Some? && !schema.value.enabled
  }

  /** A null schema is neither enabled nor disabled; any other schema is exactly one of the two. */
  lemma EnabledOrDisabled(schema: Option<Schema>)
    ensures schema.None? ==> !IsEnabled(schema) && !IsDisabled(schema)
    ensures schema.Some? ==> IsEnabled(schema) != IsDisabled(schema)
  {
  }

  /** The names a schema depends on. */
  function Dependencies(schema: Schema): seq<string>
  {
    if schema.dependencies.None? then [] else schema.dependencies.value
  }

  /** Every dependency the loader knows ranks below `bound`. */
  predicate DependenciesBelow(schema: Schema, schemas: map<string, Schema>, rank: map<string, nat>, bound: nat)
  {
    forall d :: d in Dependencies(schema) && d in schemas ==> d in rank && rank[d] < bound
  }

  /**
   * The loader's dependencies have no cycle: `rank` numbers the schemas so
   * that each one's dependencies come lower, and each schema is filed under
   * its own name.
   */
  predicate Acyclic(schemas: map<string, Schema>, rank: map<string, nat>)
  {
    forall n :: n in schemas ==> n in rank && schemas[n].name == n && DependenciesBelow(schemas[n], schemas, rank, rank[n])
  }

  /** The same schemas under the same names with the same dependencies; only the enabled flags may differ. */
  predicate SameShape(before: map<string, Schema>, after: map<string, Schema>)
  {
    before.Keys == after.Keys
    && forall n :: n in before ==> after[n].name == before[n].name && after[n].dependencies == before[n].dependencies
  }

  /** No schema was disabled. */
  predicate EnabledKept(before: map<string, Schema>, after: map<string, Schema>)
  {
    forall n :: n in before && before[n].enabled ==> n in after && after[n].enabled
  }

  lemma AcyclicKept(before: map<string, Schema>, after: map<string, Schema>, rank: map<string, nat>)
    requires Acyclic(before, rank) && SameShape(before, after)
    ensures Acyclic(after, rank)
  {
    forall n | n in after
      ensures n in rank && after[n].name == n && DependenciesBelow(after[n], after, rank, rank[n])
    {
      assert Dependencies(after[n]) == Dependencies(before[n]);
    }
  }

  /**
   * Two schemas that depend on each other: no rank orders them, so the
   * recursion of `loadDepsFirst` goes from one to the other without end
   * instead of reporting the cycle its documentation promises.
   */
  lemma TwoSchemaCycleUnranked(a: string, b: string, rank: map<string, nat>)
    requires a != b
    ensures !Acyclic(map[a := Schema(a, true, Some([b])), b := Schema(b, true, Some([a]))], rank)
  {
    var schemas := map[a := Schema(a, true, Some([b])), b := Schema(b, true, Some([a]))];
    assert Dependencies(schemas[a]) == [b] && Dependencies(schemas[b]) == [a];
    assert b in Dependencies(schemas[a]) && a in Dependencies(schemas[b]);
  }

  /**
   * The load order `loadDepsFirst` was meant to follow, with the cycle check
   * its documentation promises: each known schema after its dependencies,
   * and `Err(n)` when the walk meets `n` again on the path it came along.
   */
  function DepsFirstOrder(schemas: map<string, Schema>, path: set<string>, name: string): (r: Result<seq<string>, string>)
    decreases schemas.Keys - path, 0
    ensures name !in schemas ==> r == Ok([])
    ensures name in schemas && r.Ok? ==> |r.value| > 0 && r.value[|r.value| - 1] == name
    ensures r.Ok? ==> forall n :: n in r.value ==> n in schemas && n !in path
  {
    if name !in schemas then Ok([])
    else if name in path then Err(name)
    else
      match DepsFirstOrderAll(schemas, path + {name}, Dependencies(schemas[name]))
      case Err(n) => Err(n)
      case Ok(order) => Ok(order + [name])
  }

  /** `DepsFirstOrder` of each dependency in turn, their orders concatenated. */
  function DepsFirstOrderAll(schemas: map<string, Schema>, path: set<string>, deps: seq<string>): (r: Result<seq<string>, string>)
    decreases schemas.Keys - path, 1, |deps|
    ensures r.Ok? ==> forall n :: n in r.value ==> n in schemas && n !in path
  {
    if deps == [] then Ok([])
    else
      match DepsFirstOrder(schemas, path, deps[0])
      case Err(n) => Err(n)
      case Ok(first) =>
        match DepsFirstOrderAll(schemas, path, deps[1..])
        case Err(n) => Err(n)
        case Ok(rest) => Ok(first + rest)
  }

  /** With an acyclic ranking, a walk whose path ranks at or above `bound` meets no cycle. */
  lemma {:induction false} AcyclicOrdered(schemas: map<string, Schema>, rank: map<string, nat>,
                                          path: set<string>, name: string, bound: nat)
    requires Acyclic(schemas, rank)
    requires forall p :: p in path ==> p in rank && rank[p] >= bound
    requires name in schemas ==> rank[name] < bound
    ensures DepsFirstOrder(schemas, path, name).Ok?
    decreases schemas.Keys - path, 0
  {
    if name in schemas {
      assert name !in path;
      AcyclicOrderedAll(schemas, rank, path + {name}, Dependencies(schemas[name]), rank[name]);
    }
  }

  lemma {:induction false} AcyclicOrderedAll(schemas: map<string, Schema>, rank: map<string, nat>,
                                             path: set<string>, deps: seq<string>, bound: nat)
    requires Acyclic(schemas, rank)
    requires forall p :: p in path ==> p in rank && rank[p] >= bound
    requires forall i :: 0 <= i < |deps| && deps[i] in schemas ==> rank[deps[i]] < bound
    ensures DepsFirstOrderAll(schemas, path, deps).Ok?
    decreases schemas.Keys - path, 1, |deps|
  {
    if deps != [] {
      AcyclicOrdered(schemas, rank, path, deps[0], bound);
      AcyclicOrderedAll(schemas, rank, path, deps[1..], bound);
    }
  }

  /** A cycle the corrected walk reports is real: no rank orders those schemas. */
  lemma CycleReportedIsReal(schemas: map<string, Schema>, name: string)
    requires DepsFirstOrder(schemas, {}, name).Err?
    ensures forall rank :: !Acyclic(schemas, rank)
  {
    forall rank | Acyclic(schemas, rank)
      ensures false
    {
      if name in schemas {
        AcyclicOrdered(schemas, rank, {}, name, rank[name] + 1);
      }
    }
  }

  /** The corrected walk reports the two-schema cycle instead of recursing without end. */
  lemma TwoSchemaCycleReported(a: string, b: string)
    requires a != b
    ensures DepsFirstOrder(map[a := Schema(a, true, Some([b])), b := Schema(b, true, Some([a]))], {}, a) == Err(a)
  {
    var schemas := map[a := Schema(a, true, Some([b])), b := Schema(b, true, Some([a]))];
    assert Dependencies(schemas[a]) == [b] && Dependencies(schemas[b]) == [a];
    assert [a][1..] == [] && [b][1..] == [];
    assert DepsFirstOrder(schemas, {a, b}, a) == Err(a);
    assert DepsFirstOrderAll(schemas, {a, b}, [a]) == Err(a);
    assert {a} + {b} == {a, b} && {} + {a} == {a};
    assert DepsFirstOrder(schemas, {a}, b) == Err(a);
    assert DepsFirstOrderAll(schemas, {a}, [b]) == Err(a);
  }

  /** The schema loader: the schemas it can hand out, by name. */
  class SchemaLoader {
    var schemas: map<string, Schema>

    constructor (schemas: map<string, Schema>)
      ensures this.schemas == schemas
    {
      this.schemas := schemas;
    }
  }

  /** The registries, reduced to the names of the schemas loaded in them. */
  class Registries {
    var loaded: set<string>
    /** The `schemaLoaded` calls, oldest first. */
    ghost var history: seq<string>
    var relaxed: bool
    const disabledAccepted: bool

    constructor (loaded: set<string>, relaxed: bool, disabledAccepted: bool)
      ensures this.loaded == loaded && this.relaxed == relaxed && this.disabledAccepted == disabledAccepted
      ensures history == []
    {
      this.loaded := loaded;
      this.relaxed := relaxed;
      this.disabledAccepted := disabledAccepted;
      history := [];
    }
  }

  /** `history` is `before` followed by whatever came after it. */
  predicate Extends<T(==)>(history: seq<T>, before: seq<T>)
  {
    |before| <= |history| && history[..|before|] == before
  }

  /** Every name loaded since `before` belongs to a schema of the loader ranked below `depth`. */
  predicate NewNamesBelow(before: set<string>, after: set<string>, schemas: map<string, Schema>,
                          rank: map<string, nat>, depth: nat)
  {
    forall n :: n in after && n !in before ==> n in schemas && n in rank && rank[n] < depth
  }

  /** A dependency the loader knows, and that is loaded or enabled. */
  predicate Present(d: string, schemas: map<string, Schema>, loaded: set<string>)
  {
    d in schemas && (d in loaded || schemas[d].enabled)
  }

  predicate DependenciesPresent(s: Schema, schemas: map<string, Schema>, loaded: set<string>)
  {
    forall d :: d in Dependencies(s) ==> Present(d, schemas, loaded)
  }

  lemma SameShapeTrans(a: map<string, Schema>, b: map<string, Schema>, c: map<string, Schema>)
    requires SameShape(a, b) && SameShape(b, c)
    ensures SameShape(a, c)
  {
  }

  lemma EnabledKeptTrans(a: map<string, Schema>, b: map<string, Schema>, c: map<string, Schema>)
    requires EnabledKept(a, b) && EnabledKept(b, c)
    ensures EnabledKept(a, c)
  {
  }

  lemma ExtendsTrans<T>(c: seq<T>, b: seq<T>, a: seq<T>)
    requires Extends(c, b) && Extends(b, a)
    ensures Extends(c, a)
  {
    assert c[..|a|] == c[..|b|][..|a|];
  }

  lemma NewNamesTrans(a: set<string>, b: set<string>, c: set<string>,
                      s1: map<string, Schema>, s2: map<string, Schema>, rank: map<string, nat>, depth: nat)
    requires a <= b && NewNamesBelow(a, b, s1, rank, depth) && NewNamesBelow(b, c, s2, rank, depth)
    requires s1.Keys == s2.Keys
    ensures NewNamesBelow(a, c, s2, rank, depth)
  {
  }

  /** What a dependency's load added, its own name included, ranks below the loading schema. */
  lemma NewNamesBelowWeaken(before: set<string>, after: set<string>, dependency: string,
                            schemas: map<string, Schema>, rank: map<string, nat>, low: nat, depth: nat)
    requires NewNamesBelow(before, after - {dependency}, schemas, rank, low)
    requires dependency in schemas && dependency in rank && rank[dependency] == low && low < depth
    ensures NewNamesBelow(before, after, schemas, rank, depth)
  {
  }

  /** What loading an enabled dependency at its own rank leaves for the caller one level up. */
  lemma DependencyLoaded(before: map<string, Schema>, enabled: map<string, Schema>, after: map<string, Schema>,
                         loaded0: set<string>, loaded1: set<string>, dependency: string,
                         rank: map<string, nat>, depth: nat)
    requires SameShape(before, enabled) && SameShape(enabled, after)
    requires dependency in before && dependency in rank && rank[dependency] < depth
    requires NewNamesBelow(loaded0, loaded1 - {dependency}, after, rank, rank[dependency])
    ensures SameShape(before, after) && dependency in after && after[dependency].dependencies == before[dependency].dependencies && NewNamesBelow(loaded0, loaded1, after, rank, depth)
  {
    SameShapeTrans(before, enabled, after);
    NewNamesBelowWeaken(loaded0, loaded1, dependency, after, rank, rank[dependency], depth);
  }

  /** A name ranked at `depth` or above, or unknown to the loader, is never among the new names. */
  lemma NameNotNew(before: set<string>, after: set<string>, schemas: map<string, Schema>,
                   rank: map<string, nat>, depth: nat, name: string)
    requires NewNamesBelow(before, after, schemas, rank, depth)
    requires name !in before && (name in schemas && name in rank ==> depth <= rank[name])
    ensures name !in after
  {
  }

  lemma PresentKept(deps: seq<string>, i: nat, s1: map<string, Schema>, s2: map<string, Schema>,
                    loaded1: set<string>, loaded2: set<string>)
    requires i < |deps| && forall j :: 0 <= j < i ==> Present(deps[j], s1, loaded1)
    requires s1.Keys <= s2.Keys && loaded1 <= loaded2 && EnabledKept(s1, s2)
    requires Present(deps[i], s2, loaded2)
    ensures forall j :: 0 <= j < i + 1 ==> Present(deps[j], s2, loaded2)
  {
    forall j | 0 <= j < i
      ensures Present(deps[j], s2, loaded2)
    {
      assert Present(deps[j], s1, loaded1);
    }
  }

  lemma PresentAll(s: Schema, deps: seq<string>, schemas: map<string, Schema>, loaded: set<string>)
    requires deps == Dependencies(s)
    requires forall j :: 0 <= j < |deps| ==> Present(deps[j], schemas, loaded)
    ensures DependenciesPresent(s, schemas, loaded)
  {
  }

  // ---------------------------------------------------------------------
  // The dependents map
  // ---------------------------------------------------------------------

  /**
   * How `load` records that `name` depends on each of `deps`, as written: a
   * dependency seen for the first time gets the set {name}, but a dependency
   * that already has a set gets it back unchanged, without `name`.
   */
  function Recorded(dependents: map<string, set<string>>, name: string, deps: seq<string>): (r: map<string, set<string>>)
    ensures r.Keys == dependents.Keys + (set d | d in deps)
    ensures forall d :: d in dependents ==> r[d] == dependents[d]
    ensures forall d :: d in deps && d !in dependents ==> r[d] == {name}
  {
    map d | d in dependents.Keys + (set d | d in deps) :: if d in dependents then dependents[d] else {name}
  }

  /** A dependency that already has dependents does not learn of the new one. */
  lemma DependentNotRecorded(dependents: map<string, set<string>>, name: string, d: string)
    requires d in dependents && name !in dependents[d]
    ensures name !in Recorded(dependents, name, [d])[d]
  {
  }

  /** The recording `load` evidently means: `name` added to the set of each dependency. */
  function RecordedCorrected(dependents: map<string, set<string>>, name: string, deps: seq<string>): (r: map<string, set<string>>)
    ensures r.Keys == dependents.Keys + (set d | d in deps)
    ensures forall d :: d in deps ==> name in r[d]
    ensures forall d :: d in dependents && d !in deps ==> r[d] == dependents[d]
  {
    map d | d in dependents.Keys + (set d | d in deps) ::
      if d !in deps then dependents[d]
      else if d in dependents then dependents[d] + {name} else {name}
  }

  /** What `unload` does to the sets: `name` removed from each dependency's set, where there is one. */
  function Removed(dependents: map<string, set<string>>, name: string, deps: seq<string>): (r: map<string, set<string>>)
    ensures r.Keys == dependents.Keys
    ensures forall d :: d in deps && d in dependents ==> name !in r[d]
  {
    map d | d in dependents :: if d in deps then dependents[d] - {name} else dependents[d]
  }

  /** Corrected, loading then unloading a schema leaves the sets it found as they were. */
  lemma RecordThenRemoveCorrected(dependents: map<string, set<string>>, name: string, deps: seq<string>)
    requires forall d :: d in dependents ==> name !in dependents[d]
    ensures var r := Removed(RecordedCorrected(dependents, name, deps), name, deps);
            forall d :: d in dependents ==> d in r && r[d] == dependents[d]
  {
    var r := Removed(RecordedCorrected(dependents, name, deps), name, deps);
    forall d | d in dependents
      ensures d in r && r[d] == dependents[d]
    {
      if d in deps {
        assert r[d] == (dependents[d] + {name}) - {name};
      }
    }
  }

  /** The loop of `load` over one schema's dependencies. */
  method RecordDependences(dependents: map<string, set<string>>, name: string, deps: seq<string>)
    returns (r: map<string, set<string>>)
    ensures r == Recorded(dependents, name, deps)
  {
    r := dependents;
    for i := 0 to |deps|
      invariant r == Recorded(dependents, name, deps[..i])
    {
      var d := deps[i];
      var dependentsOfD := if d in r then r[d] else {name};
      r := r[d := dependentsOfD];
      ghost var done, next := deps[..i], deps[..i + 1];
      assert next == done + [d];
      assert (set e | e in next) == (set e | e in done) + {d};
    }
    assert deps[..|deps|] == deps;
  }

  // ---------------------------------------------------------------------
  // The manager
  // ---------------------------------------------------------------------

  /** `STRICT` and `RELAXED`, the two values of the flag. */
  const STRICT: bool := false
  const RELAXED: bool := true

  class DefaultSchemaManager {
    var isRelaxed: bool
    var errors: seq<SchemaError>
    /** For each schema, the names of the schemas depending on it. */
    var schemaDependences: map<string, set<string>>
    const registries: Registries
    const loader: SchemaLoader

    /** A strict manager with no error, over the given registries and loader. */
    constructor (registries: Registries, loader: SchemaLoader)
      ensures isRelaxed == STRICT && errors == [] && schemaDependences == map[]
      ensures this.registries == registries && this.loader == loader
    {
      isRelaxed := STRICT;
      errors := [];
      schemaDependences := map[];
      this.registries := registries;
      this.loader := loader;
    }

    /** `isRelaxed`: the mode last set, strict for a new manager. */
    predicate IsRelaxed()
      reads this
      ensures IsRelaxed() <==> isRelaxed == RELAXED
    {
      isRelaxed
    }

    /** `isStrict` is the negation of `isRelaxed`. */
    function IsStrict(): (r: bool)
      reads this
      ensures r <==> !IsRelaxed()
    {
      !isRelaxed
    }

    method SetRelaxed()
      modifies this`isRelaxed
      ensures IsRelaxed()
    {
      isRelaxed := RELAXED;
    }

    method SetStrict()
      modifies this`isRelaxed
      ensures IsStrict()
    {
      isRelaxed := STRICT;
    }

    /**
     * The private `load(registries, schema)`. Null is refused; a schema
     * already loaded is accepted as it is; a disabled one is loaded only when
     * the registries accept disabled schemas; an enabled one needs every
     * dependency to be known to the loader, and each disabled dependency is
     * enabled and loaded first (and disabled again if that fails). The schema
     * itself is loaded last.
     *
     * A nested load only starts after a disabled schema has been enabled, so
     * the set of disabled schemas shrinks at each level and cycles among the
     * dependencies end at an enabled schema. The ghost `rank` and `depth`
     * serve `LoadDepsFirst` alone: when `rank` orders the dependencies, every
     * name loaded besides the schema ranks below `depth`.
     */
    method LoadInto(regs: Registries, schema: Option<Schema>, ghost rank: map<string, nat>, ghost depth: nat)
      returns (r: bool)
      modifies this`errors, regs`loaded, regs`history, loader`schemas
      decreases DisabledNames(loader.schemas), 2
      ensures SameShape(old(loader.schemas), loader.schemas)
      ensures DisabledNames(loader.schemas) <= DisabledNames(old(loader.schemas))
      ensures old(regs.loaded) <= regs.loaded && Extends(regs.history, old(regs.history)) && Extends(errors, old(errors))
      ensures Ranked(old(loader.schemas), rank, schema, depth) ==>
                NewNamesBelow(old(regs.loaded), regs.loaded - (if schema.Some? then {schema.value.name} else {}),
                              loader.schemas, rank, depth)
      ensures schema.None? ==> !r
      ensures schema.None? || schema.value.name in old(regs.loaded) ==>
                regs.loaded == old(regs.loaded) && regs.history == old(regs.history)
                && loader.schemas == old(loader.schemas) && errors == old(errors)
      ensures schema.Some? && schema.value.name in old(regs.loaded) ==> r
      ensures schema.Some? && schema.value.name !in old(regs.loaded) && !schema.value.enabled && !regs.disabledAccepted ==>
                !r && regs.loaded == old(regs.loaded) && loader.schemas == old(loader.schemas)
      ensures r ==> schema.value.name in regs.loaded && EnabledKept(old(loader.schemas), loader.schemas)
      ensures r && schema.value.name !in old(regs.loaded) ==>
                |regs.history| > |old(regs.history)| && regs.history[|regs.history| - 1] == schema.value.name
      ensures r && schema.value.enabled && schema.value.name !in old(regs.loaded) ==>
                DependenciesPresent(schema.value, loader.schemas, regs.loaded)
      ensures !r && Ranked(old(loader.schemas), rank, schema, depth) ==>
                NewNamesBelow(old(regs.loaded), regs.loaded, loader.schemas, rank, depth)
    {
      if schema.None? {
        return false;
      }
      var s := schema.value;
      if s.name in regs.loaded {
        return true;
      }
      if !s.enabled {
        if !regs.disabledAccepted {
          return false;
        }
      } else {
        var ok := LoadDependencies(regs, s, rank, depth);
        if !ok {
          return false;
        }
      }
      regs.loaded := regs.loaded + {s.name};
      regs.history := regs.history + [s.name];
      r := true;
    }

    /** The loop of the private `load` over the dependencies of an enabled schema. */
    method LoadDependencies(regs: Registries, s: Schema, ghost rank: map<string, nat>, ghost depth: nat)
      returns (ok: bool)
      modifies this`errors, regs`loaded, regs`history, loader`schemas
      decreases DisabledNames(loader.schemas), 1
      ensures SameShape(old(loader.schemas), loader.schemas)
      ensures DisabledNames(loader.schemas) <= DisabledNames(old(loader.schemas))
      ensures old(regs.loaded) <= regs.loaded && Extends(regs.history, old(regs.history)) && Extends(errors, old(errors))
      ensures Ranked(old(loader.schemas), rank, Some(s), depth) ==>
                NewNamesBelow(old(regs.loaded), regs.loaded, loader.schemas, rank, depth)
      ensures ok ==> EnabledKept(old(loader.schemas), loader.schemas) && DependenciesPresent(s, loader.schemas, regs.loaded)
    {
      ghost var ranked := Ranked(loader.schemas, rank, Some(s), depth);
      var deps := Dependencies(s);
      for i := 0 to |deps|
        invariant SameShape(old(loader.schemas), loader.schemas) && EnabledKept(old(loader.schemas), loader.schemas)
        invariant DisabledNames(loader.schemas) <= DisabledNames(old(loader.schemas))
        invariant old(regs.loaded) <= regs.loaded && Extends(regs.history, old(regs.history)) && Extends(errors, old(errors))
        invariant ranked ==> NewNamesBelow(old(regs.loaded), regs.loaded, loader.schemas, rank, depth)
        invariant forall j :: 0 <= j < i ==> Present(deps[j], loader.schemas, regs.loaded)
      {
        var dependency := deps[i];
        if dependency !in loader.schemas {
          errors := errors + [LdapProtocolErrorException(s.name)];
          return false;
        }
        ghost var schemasBefore, loadedBefore, historyBefore, errorsBefore := loader.schemas, regs.loaded, regs.history, errors;
        var loadedOne := LoadDependency(regs, dependency, rank, depth);
        SameShapeTrans(old(loader.schemas), schemasBefore, loader.schemas);
        if ranked {
          AcyclicKept(old(loader.schemas), schemasBefore, rank);
          assert dependency in Dependencies(s) && dependency in old(loader.schemas);
          NewNamesTrans(old(regs.loaded), loadedBefore, regs.loaded, schemasBefore, loader.schemas, rank, depth);
        }
        ExtendsTrans(regs.history, historyBefore, old(regs.history));
        ExtendsTrans(errors, errorsBefore, old(errors));
        if !loadedOne {
          return false;
        }
        EnabledKeptTrans(old(loader.schemas), schemasBefore, loader.schemas);
        PresentKept(deps, i, schemasBefore, loader.schemas, loadedBefore, regs.loaded);
      }
      ok := true;
      PresentAll(s, deps, loader.schemas, regs.loaded);
    }

    /**
     * One known dependency: a disabled one is enabled and loaded, and disabled
     * again when that fails; an enabled one is left as it is.
     */
    method LoadDependency(regs: Registries, dependency: string, ghost rank: map<string, nat>, ghost depth: nat)
      returns (ok: bool)
      requires dependency in loader.schemas
      modifies this`errors, regs`loaded, regs`history, loader`schemas
      decreases DisabledNames(loader.schemas), 0
      ensures SameShape(old(loader.schemas), loader.schemas)
      ensures DisabledNames(loader.schemas) <= DisabledNames(old(loader.schemas))
      ensures old(regs.loaded) <= regs.loaded && Extends(regs.history, old(regs.history)) && Extends(errors, old(errors))
      ensures Acyclic(old(loader.schemas), rank) && dependency in rank && rank[dependency] < depth ==>
                NewNamesBelow(old(regs.loaded), regs.loaded, loader.schemas, rank, depth)
      ensures ok ==> EnabledKept(old(loader.schemas), loader.schemas) && Present(dependency, loader.schemas, regs.loaded)
    {
      var dependencySchema := loader.schemas[dependency];
      if dependencySchema.enabled {
        return true;
      }
      ghost var before := loader.schemas;
      var enabledSchema := dependencySchema.(enabled := true);
      ReplaceKeepsShape(before, dependency, enabledSchema);
      EnableShrinks(before, dependency, enabledSchema);
      loader.schemas := loader.schemas[dependency := enabledSchema];
      ghost var enabledSchemas := loader.schemas;
      ghost var low := if dependency in rank then rank[dependency] else 0;
      ok := LoadInto(regs, Some(enabledSchema), rank, low);
      ghost var after, loadedAfter := loader.schemas, regs.loaded;
      SameShapeTrans(before, enabledSchemas, after);
      if Acyclic(before, rank) && dependency in rank && rank[dependency] < depth {
        AcyclicKept(before, enabledSchemas, rank);
        assert enabledSchemas[dependency] == enabledSchema;
        DependencyLoaded(before, enabledSchemas, after, old(regs.loaded), loadedAfter, dependency, rank, depth);
      }
      if !ok {
        var disabledSchema := enabledSchema.(enabled := false);
        ReplaceKeepsShape(after, dependency, disabledSchema);
        DisableGrowsByOne(after, dependency, disabledSchema);
        loader.schemas := loader.schemas[dependency := disabledSchema];
        SameShapeTrans(before, after, loader.schemas);
        return false;
      }
      EnabledKeptTrans(before, enabledSchemas, loader.schemas);
    }

    /**
     * The private `unload(registries, schema)`. Null is refused; a schema not
     * loaded is accepted with nothing done; a loaded enabled schema is
     * unloaded; a loaded disabled one stays.
     */
    method UnloadFrom(regs: Registries, schema: Option<Schema>) returns (r: bool)
      modifies regs`loaded
      ensures schema.None? ==> !r && regs.loaded == old(regs.loaded)
      ensures schema.Some? && schema.value.name !in old(regs.loaded) ==> r && regs.loaded == old(regs.loaded)
      ensures schema.Some? && schema.value.name in old(regs.loaded) ==>
                r && regs.loaded == if schema.value.enabled then old(regs.loaded) - {schema.value.name} else old(regs.loaded)
    {
      if schema.None? {
        return false;
      }
      if schema.value.name !in regs.loaded {
        return true;
      }
      if schema.value.enabled {
        regs.loaded := regs.loaded - {schema.value.name};
      }
      r := true;
    }

    /**
     * `loadDepsFirst`: nothing for null, for a disabled schema the registries
     * refuse, or for a schema already loaded; otherwise each dependency the
     * loader knows is handled the same way first, and then the schema itself
     * is loaded. Inside the loop the skip test asks whether the schema itself,
     * not the dependency, is loaded; with acyclic dependencies it never is.
     */
    method LoadDepsFirst(regs: Registries, schema: Option<Schema>, ghost rank: map<string, nat>, ghost depth: nat)
      requires Acyclic(loader.schemas, rank)
      requires schema.Some? ==> DependenciesBelow(schema.value, loader.schemas, rank, depth)
      requires schema.Some? && schema.value.name in loader.schemas ==> depth <= rank[schema.value.name]
      modifies this`errors, regs`loaded, regs`history, loader`schemas
      decreases depth
      ensures SameShape(old(loader.schemas), loader.schemas)
      ensures old(regs.loaded) <= regs.loaded && Extends(regs.history, old(regs.history))
      ensures NewNamesBelow(old(regs.loaded), regs.loaded - (if schema.Some? then {schema.value.name} else {}),
                            loader.schemas, rank, depth)
      ensures schema.None? || (!schema.value.enabled && !regs.disabledAccepted) || schema.value.name in old(regs.loaded) ==>
                regs.loaded == old(regs.loaded) && regs.history == old(regs.history)
      ensures schema.Some? && schema.value.name in regs.loaded && schema.value.name !in old(regs.loaded) ==>
                |regs.history| > |old(regs.history)| && regs.history[|regs.history| - 1] == schema.value.name
    {
      if schema.None? {
        return;
      }
      var s := schema.value;
      if !s.enabled && !regs.disabledAccepted {
        return;
      }
      if s.name in regs.loaded {
        return;
      }
      if s.dependencies.None? || |s.dependencies.value| == 0 {
        var _ := LoadInto(regs, schema, rank, depth);
        return;
      }
      var deps := s.dependencies.value;
      for i := 0 to |deps|
        invariant Acyclic(loader.schemas, rank)
        invariant SameShape(old(loader.schemas), loader.schemas)
        invariant old(regs.loaded) <= regs.loaded && Extends(regs.history, old(regs.history))
        invariant NewNamesBelow(old(regs.loaded), regs.loaded, loader.schemas, rank, depth)
        invariant s.name !in regs.loaded
      {
        if s.name in regs.loaded {
          continue;
        }
        var depName := deps[i];
        if depName in loader.schemas {
          var schemaDep := loader.schemas[depName];
          ghost var schemasBefore, loadedBefore, historyBefore := loader.schemas, regs.loaded, regs.history;
          LoadDepsFirst(regs, Some(schemaDep), rank, rank[depName]);
          ghost var schemasAfter, loadedAfter := loader.schemas, regs.loaded;
          DependencyLoaded(schemasBefore, schemasBefore, schemasAfter, loadedBefore, loadedAfter, depName, rank, depth);
          NewNamesTrans(old(regs.loaded), loadedBefore, loadedAfter, schemasBefore, schemasAfter, rank, depth);
          SameShapeTrans(old(loader.schemas), schemasBefore, schemasAfter);
          ExtendsTrans(regs.history, historyBefore, old(regs.history));
          AcyclicKept(schemasBefore, schemasAfter, rank);
          NameNotNew(old(regs.loaded), loadedAfter, schemasAfter, rank, depth, s.name);
        }
      }
      var _ := LoadInto(regs, schema, rank, depth);
    }

    /** The loop of `toArray`: each name's schema from the loader; the first unknown name is refused. */
    method ToArray(names: seq<string>) returns (r: Result<seq<Schema>, SchemaError>)
      ensures r.Ok? <==> forall i :: 0 <= i < |names| ==> names[i] in loader.schemas
      ensures r.Ok? ==> |r.value| == |names| && forall i :: 0 <= i < |names| ==> r.value[i] == loader.schemas[names[i]]
      ensures r.Err? ==> exists i :: 0 <= i < |names| && names[i] !in loader.schemas
                          && r.error == LdapUnwillingToPerformException(names[i])
                          && forall j :: 0 <= j < i ==> names[j] in loader.schemas
    {
      var schemas := [];
      for i := 0 to |names|
        invariant |schemas| == i && forall j :: 0 <= j < i ==> names[j] in loader.schemas && schemas[j] == loader.schemas[names[j]]
      {
        if names[i] !in loader.schemas {
          return Err(LdapUnwillingToPerformException(names[i]));
        }
        schemas := schemas + [loader.schemas[names[i]]];
      }
      r := Ok(schemas);
    }

    /**
     * `load(Schema...)`. No schema: true at once. Otherwise every schema is
     * loaded into a relaxed copy of the registries, and the copy's references
     * are built and checked; only when all of this succeeds are the schemas
     * loaded into the registries themselves (whatever that answers), their
     * dependences recorded and the schemas handed to the loader.
     */
    method Load(schemas: seq<Schema>, buildReferences: set<string> -> seq<SchemaError>,
                checkRefInteg: set<string> -> seq<SchemaError>)
      returns (r: bool)
      modifies this`errors, this`schemaDependences, registries, loader
      ensures |schemas| == 0 ==> r && registries.loaded == old(registries.loaded) && errors == old(errors)
      ensures !r ==> registries.loaded == old(registries.loaded) && schemaDependences == old(schemaDependences)
                     && registries.relaxed == old(registries.relaxed)
      ensures r ==> old(registries.loaded) <= registries.loaded
      ensures r && |schemas| > 0 ==> !registries.relaxed && errors == buildReferences(registries.loaded)
      ensures r ==> schemaDependences == RecordAll(old(schemaDependences), schemas)
      ensures r ==> forall s :: s in schemas ==> s.name in loader.schemas
    {
      if |schemas| == 0 {
        return true;
      }
      errors := [];
      var cloned := new Registries(registries.loaded, true, registries.disabledAccepted);
      var allLoaded := LoadAllInto(cloned, schemas);
      if !allLoaded {
        return false;
      }
      errors := buildReferences(cloned.loaded);
      if errors != [] {
        return false;
      }
      errors := checkRefInteg(cloned.loaded);
      if errors != [] {
        return false;
      }
      registries.relaxed := true;
      ApplyLoad(schemas);
      errors := buildReferences(registries.loaded);
      registries.relaxed := false;
      r := true;
    }

    /** The first loop of `load(Schema...)`: each schema into the copy, stopping at the first refusal. */
    method LoadAllInto(regs: Registries, schemas: seq<Schema>) returns (ok: bool)
      modifies this`errors, regs`loaded, regs`history, loader`schemas
      ensures SameShape(old(loader.schemas), loader.schemas)
      ensures ok ==> forall s :: s in schemas ==> s.name in regs.loaded
    {
      for i := 0 to |schemas|
        invariant SameShape(old(loader.schemas), loader.schemas)
        invariant forall j :: 0 <= j < i ==> schemas[j].name in regs.loaded
      {
        ghost var before := loader.schemas;
        var singleSchemaLoaded := LoadInto(regs, Some(schemas[i]), map[], 0);
        SameShapeTrans(old(loader.schemas), before, loader.schemas);
        if !singleSchemaLoaded {
          return false;
        }
      }
      ok := true;
    }

    /** The second loop of `load(Schema...)`: each schema into the registries, its dependences recorded, the schema handed to the loader. */
    method ApplyLoad(schemas: seq<Schema>)
      modifies this`errors, this`schemaDependences, registries`loaded, registries`history, loader`schemas
      ensures old(registries.loaded) <= registries.loaded
      ensures schemaDependences == RecordAll(old(schemaDependences), schemas)
      ensures old(loader.schemas).Keys <= loader.schemas.Keys
      ensures forall s :: s in schemas ==> s.name in loader.schemas
    {
      for i := 0 to |schemas|
        invariant old(registries.loaded) <= registries.loaded
        invariant old(loader.schemas).Keys <= loader.schemas.Keys
        invariant forall j :: 0 <= j < i ==> schemas[j].name in loader.schemas
        invariant schemaDependences == RecordAll(old(schemaDependences), schemas[..i])
      {
        ApplyOne(schemas[i]);
        assert schemas[..i + 1][..i] == schemas[..i];
      }
      assert schemas[..|schemas|] == schemas;
    }

    /** One turn of that loop. */
    method ApplyOne(schema: Schema)
      modifies this`errors, this`schemaDependences, registries`loaded, registries`history, loader`schemas
      ensures old(registries.loaded) <= registries.loaded
      ensures schemaDependences == Recorded(old(schemaDependences), schema.name, Dependencies(schema))
      ensures loader.schemas.Keys == old(loader.schemas).Keys + {schema.name}
      ensures loader.schemas[schema.name] == schema
    {
      var _ := LoadInto(registries, Some(schema), map[], 0);
      if schema.dependencies.Some? {
        schemaDependences := RecordDependences(schemaDependences, schema.name, schema.dependencies.value);
      } else {
        RecordedNothing(schemaDependences, schema.name);
      }
      loader.schemas := loader.schemas[schema.name := schema];
    }
  }

  /** The names of the schemas the loader holds disabled. */
  function DisabledNames(schemas: map<string, Schema>): set<string>
  {
    set n | n in schemas && !schemas[n].enabled
  }

  /** Enabling a disabled schema takes it out of the disabled names. */
  lemma EnableShrinks(before: map<string, Schema>, key: string, schema: Schema)
    requires key in before && !before[key].enabled && schema.enabled
    ensures DisabledNames(before[key := schema]) < DisabledNames(before)
  {
    assert key in DisabledNames(before) && key !in DisabledNames(before[key := schema]);
  }

  /** Disabling a schema adds at most its name to the disabled names. */
  lemma DisableGrowsByOne(before: map<string, Schema>, key: string, schema: Schema)
    ensures DisabledNames(before[key := schema]) <= DisabledNames(before) + {key}
  {
  }

  /** `rank` orders the loader's dependencies and ranks those of `schema` below `depth`. */
  predicate Ranked(schemas: map<string, Schema>, rank: map<string, nat>, schema: Option<Schema>, depth: nat)
  {
    Acyclic(schemas, rank) && (schema.Some? ==> DependenciesBelow(schema.value, schemas, rank, depth))
  }

  /** The dependences after `load` has recorded those of each schema in turn. */
  function RecordAll(dependents: map<string, set<string>>, schemas: seq<Schema>): map<string, set<string>>
  {
    if schemas == [] then dependents
    else
      var last := schemas[|schemas| - 1];
      Recorded(RecordAll(dependents, schemas[..|schemas| - 1]), last.name, Dependencies(last))
  }

  lemma RecordedNothing(dependents: map<string, set<string>>, name: string)
    ensures Recorded(dependents, name, []) == dependents
  {
  }

  /** Putting back, under the same key, a schema of the same name and dependencies keeps the shape. */
  lemma ReplaceKeepsShape(before: map<string, Schema>, key: string, schema: Schema)
    requires key in before && before[key].name == schema.name && before[key].dependencies == schema.dependencies
    ensures SameShape(before, before[key := schema])
  {
  }
}
