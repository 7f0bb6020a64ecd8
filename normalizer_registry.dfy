/**
 * The registry of normalizers, keyed by OID and by alias. Registering puts the
 * OID and the trimmed, lower-cased form of every alias in one map; removing
 * takes out the OID and the aliases as they were given.
 */
module DefaultNormalizerRegistry {
  import opened Wrappers
  import opened JavaStrings

  /** A normalizer, known to the registry by its OID, its aliases and the schema it belongs to. */
  datatype Normalizer = Normalizer(oid: string, names: seq<string>, schemaName: string)

  datatype RegistryError =
    /** An OID registered twice, or a string that is not a numeric OID. */
    | NamingException
    /** Removing a numeric OID that is not registered dereferences the missing normalizer. */
    | NullPointerException

  /** The map key an alias is registered under: `trim(toLowerCase(name))`. */
  function AliasKey(name: string): string
  {
    Trim(ToLower(name))
  }

  /** The alias keys of a list of names, in order. */
  function AliasKeys(names: seq<string>): (keys: seq<string>)
    ensures |keys| == |names| && forall i :: 0 <= i < |names| ==> keys[i] == AliasKey(names[i])
  {
    seq(|names|, i requires 0 <= i < |names| => AliasKey(names[i]))
  }

  /** The distinct keys of a sequence. */
  function Elements(keys: seq<string>): set<string>
  {
    set k | k in keys
  }

  /**
   * The map after putting each of `keys` in turn: exactly those keys are added
   * or overwritten, each now mapped to the normalizer, and every other key
   * keeps its value.
   */
  function PutAll(m: map<string, Normalizer>, keys: seq<string>, n: Normalizer): (r: map<string, Normalizer>)
    ensures r.Keys == m.Keys + Elements(keys)
    ensures forall i :: 0 <= i < |keys| ==> r[keys[i]] == n
    ensures forall k :: k in m && k !in keys ==> r[k] == m[k]
    decreases |keys|
  {
    if keys == [] then m
    else
      var init := keys[..|keys| - 1];
      assert forall k :: k in keys <==> k in init || k == keys[|keys| - 1];
      PutAll(m, init, n)[keys[|keys| - 1] := n]
  }

  /** The keys `unregister` removes for a normalizer: its OID and its aliases exactly as given. */
  function RemovedKeys(numericOid: string, names: seq<string>): set<string>
  {
    {numericOid} + Elements(names)
  }

  /** The keys the removal should take out: the OID and the keys the aliases were registered under. */
  function RegisteredKeys(numericOid: string, names: seq<string>): set<string>
  {
    {numericOid} + Elements(AliasKeys(names))
  }

  /** `schemaName.equalsIgnoreCase(other)`, on ASCII letters. */
  predicate SameSchema(a: string, b: string)
  {
    ToLower(a) == ToLower(b)
  }

  /**
   * After registering a normalizer under a new OID, exactly its OID and its
   * alias keys are added, and the OID leads to it even when an alias key
   * coincides with the OID. (That every alias key leads to it and that every
   * other old key keeps its normalizer is the contract of `PutAll`.)
   */
  lemma RegisterMapsEveryKey(m: map<string, Normalizer>, n: Normalizer)
    requires n.oid !in m
    ensures var r := PutAll(m[n.oid := n], AliasKeys(n.names), n);
            && r.Keys == m.Keys + RegisteredKeys(n.oid, n.names)
            && r[n.oid] == n
  {
    var keys := AliasKeys(n.names);
    var added := m[n.oid := n];
    var r := PutAll(added, keys, n);
    assert added.Keys == m.Keys + {n.oid};
    assert r.Keys == m.Keys + ({n.oid} + Elements(keys));
    if n.oid !in keys {
      assert r[n.oid] == added[n.oid];
    }
  }

  /**
   * As written, removing a normalizer leaves behind every alias key that is
   * not one of its names as given (a mixed-case or padded alias), still
   * leading to the removed normalizer.
   */
  lemma AliasKeySurvivesUnregister(m: map<string, Normalizer>, n: Normalizer, i: nat)
    requires n.oid !in m && i < |n.names|
    requires AliasKey(n.names[i]) !in RemovedKeys(n.oid, n.names)
    ensures var after := PutAll(m[n.oid := n], AliasKeys(n.names), n) - RemovedKeys(n.oid, n.names);
            AliasKey(n.names[i]) in after && after[AliasKey(n.names[i])] == n
  {
    var keys := AliasKeys(n.names);
    assert keys[i] == AliasKey(n.names[i]);
  }

  /**
   * An upper-case one-letter alias such as "T" is registered under its
   * lower-case letter ("t"), which is not among the names `unregister`
   * removes for an OID such as "2.5.13.1".
   */
  lemma MixedCaseAliasExample(c: char)
    requires 'A' <= c <= 'Z'
    ensures AliasKey([c]) == [LowerChar(c)]
    ensures [LowerChar(c)] !in RemovedKeys("2.5.13.1", [[c]])
  {
    var lower := ToLower([c]);
    assert lower == [LowerChar(c)];
    TrimOfTrimmed(lower);
    NotRemoved("2.5.13.1", [c], lower);
  }

  /** A key other than the OID and the one name is not removed. */
  lemma NotRemoved(numericOid: string, name: string, key: string)
    requires |key| != |numericOid| && key != name
    ensures key !in RemovedKeys(numericOid, [name])
  {
    assert Elements([name]) == {name};
  }

  /**
   * Corrected, registering and then removing a normalizer whose OID and alias
   * keys were all free gives back the registry as it was.
   */
  lemma RegisterThenUnregisterCorrected(m: map<string, Normalizer>, n: Normalizer)
    requires n.oid !in m
    requires forall i :: 0 <= i < |n.names| ==> AliasKey(n.names[i]) !in m
    ensures PutAll(m[n.oid := n], AliasKeys(n.names), n) - RegisteredKeys(n.oid, n.names) == m
  {
    var keys := AliasKeys(n.names);
    var r := PutAll(m[n.oid := n], keys, n) - RegisteredKeys(n.oid, n.names);
    forall k | k in m
      ensures k in r && r[k] == m[k]
    {
      assert k !in keys;
    }
  }

  /** No key appears twice. */
  predicate NoRepeats(keys: seq<string>)
  {
    forall i, j :: 0 <= i < j < |keys| ==> keys[i] != keys[j]
  }

  /** A sequence without repeats has as many distinct elements as entries. */
  lemma {:induction false} DistinctCount(keys: seq<string>)
    requires NoRepeats(keys)
    ensures |Elements(keys)| == |keys|
  {
    if keys != [] {
      var init := keys[..|keys| - 1];
      var last := keys[|keys| - 1];
      DistinctCount(init);
      assert Elements(keys) == Elements(init) + {last};
      assert last !in init;
    }
  }

  /**
   * `size` counts map entries, not normalizers: one normalizer registered
   * under its OID and k distinct alias keys (the `keys` `register` computes),
   * none of them its OID, makes the size 1 + k.
   */
  lemma SizeCountsEntries(n: Normalizer, keys: seq<string>)
    requires NoRepeats(keys)
    requires n.oid !in keys
    ensures |PutAll(map[n.oid := n], keys, n)| == 1 + |keys|
  {
    DistinctCount(keys);
    var single := map[n.oid := n];
    var r := PutAll(single, keys, n);
    OneMore(r, single, Elements(keys));
  }

  lemma OneMore(r: map<string, Normalizer>, single: map<string, Normalizer>, aliases: set<string>)
    requires r.Keys == single.Keys + aliases && |single| == 1 && single.Keys !! aliases
    ensures |r| == 1 + |aliases|
  {
    assert |r| == |r.Keys|;
  }

  /** The loop of `register` over the alias keys: each one in turn mapped to the normalizer. */
  method PutKeys(m: map<string, Normalizer>, keys: seq<string>, n: Normalizer) returns (r: map<string, Normalizer>)
    ensures r == PutAll(m, keys, n)
  {
    r := m;
    for i := 0 to |keys|
      invariant r == PutAll(m, keys[..i], n)
    {
      assert keys[..i + 1][..i] == keys[..i];
      r := r[keys[i] := n];
    }
    assert keys[..|keys|] == keys;
  }

  /** The loop of `unregister` over the names: each one in turn removed from the map. */
  method RemoveKeys(m: map<string, Normalizer>, keys: seq<string>) returns (r: map<string, Normalizer>)
    ensures r == m - Elements(keys)
  {
    r := m;
    for i := 0 to |keys|
      invariant r == m - Elements(keys[..i])
    {
      assert keys[..i + 1] == keys[..i] + [keys[i]];
      r := r - {keys[i]};
    }
    assert keys[..|keys|] == keys;
  }

  /** The registry's map and the outcome after one `unregister` call or a run of them. */
  datatype Sweep = Sweep(byName: map<string, Normalizer>, outcome: Outcome<RegistryError>)

  /** `unregister(numericOid)` on the map `m`, as a value. */
  function UnregisterStep(m: map<string, Normalizer>, numericOid: string, isOid: string -> bool): Sweep
  {
    if !isOid(numericOid) then Sweep(m, Fail(NamingException))
    else if numericOid !in m then Sweep(m, Fail(NullPointerException))
    else Sweep(m - RemovedKeys(numericOid, m[numericOid].names), Pass)
  }

  /**
   * The loop of `unregisterSchemaElements` over the normalizers it visits:
   * each one of the schema (ignoring case) is unregistered by its OID, and
   * the first failure ends the loop. Entries are only ever removed, and when
   * the loop gets through, every visited normalizer of the schema had a
   * numeric OID that was registered and is registered no more.
   */
  function SweepSchema(m: map<string, Normalizer>, visits: seq<Normalizer>, schemaName: string, isOid: string -> bool): (r: Sweep)
    ensures r.byName.Keys <= m.Keys && forall k :: k in r.byName ==> r.byName[k] == m[k]
    ensures r.outcome.Pass? ==>
              forall i :: 0 <= i < |visits| && SameSchema(schemaName, visits[i].schemaName) ==>
                isOid(visits[i].oid) && visits[i].oid in m && visits[i].oid !in r.byName
    decreases |visits|
  {
    if visits == [] then Sweep(m, Pass)
    else if !SameSchema(schemaName, visits[0].schemaName) then SweepSchema(m, visits[1..], schemaName, isOid)
    else
      var step := UnregisterStep(m, visits[0].oid, isOid);
      if step.outcome.Fail? then step
      else SweepSchema(step.byName, visits[1..], schemaName, isOid)
  }

  /** The keys the visited normalizers of the schema take with them: each registered OID and the names of the normalizer under it. */
  function SchemaKeys(m: map<string, Normalizer>, visits: seq<Normalizer>, schemaName: string): set<string>
    decreases |visits|
  {
    if visits == [] then {}
    else
      var v := visits[0];
      (if SameSchema(schemaName, v.schemaName) && v.oid in m then RemovedKeys(v.oid, m[v.oid].names) else {})
      + SchemaKeys(m, visits[1..], schemaName)
  }

  /** A smaller map that still holds every visited OID of the schema gives the same keys. */
  lemma {:induction false} SchemaKeysAgree(m: map<string, Normalizer>, smaller: map<string, Normalizer>,
                                           visits: seq<Normalizer>, schemaName: string)
    requires smaller.Keys <= m.Keys && forall k :: k in smaller ==> smaller[k] == m[k]
    requires forall i :: 0 <= i < |visits| && SameSchema(schemaName, visits[i].schemaName) ==> visits[i].oid in smaller
    ensures SchemaKeys(smaller, visits, schemaName) == SchemaKeys(m, visits, schemaName)
    decreases |visits|
  {
    if visits != [] {
      SchemaKeysAgree(m, smaller, visits[1..], schemaName);
    }
  }

  /**
   * When the loop gets through, the registry has lost exactly the OIDs and
   * the names as given of the schema's normalizers: alias keys that differ
   * from a name as given stay behind.
   */
  lemma {:induction false} SweepRemovesExactly(m: map<string, Normalizer>, visits: seq<Normalizer>,
                                               schemaName: string, isOid: string -> bool)
    requires SweepSchema(m, visits, schemaName, isOid).outcome.Pass?
    ensures SweepSchema(m, visits, schemaName, isOid).byName == m - SchemaKeys(m, visits, schemaName)
    decreases |visits|
  {
    if visits != [] {
      var v := visits[0];
      if !SameSchema(schemaName, v.schemaName) {
        SweepRemovesExactly(m, visits[1..], schemaName, isOid);
      } else {
        var step := UnregisterStep(m, v.oid, isOid);
        var rest := visits[1..];
        SweepRemovesExactly(step.byName, rest, schemaName, isOid);
        forall i | 0 <= i < |rest| && SameSchema(schemaName, rest[i].schemaName)
          ensures rest[i].oid in step.byName
        {
          assert rest[i] == visits[i + 1];
        }
        SchemaKeysAgree(m, step.byName, rest, schemaName);
      }
    }
  }

  /** Visiting one OID twice among the schema's normalizers makes the loop fail. */
  lemma {:induction false} RepeatFails(m: map<string, Normalizer>, visits: seq<Normalizer>, schemaName: string,
                                       isOid: string -> bool, i: nat, j: nat)
    requires i < j < |visits| && visits[i].oid == visits[j].oid
    requires SameSchema(schemaName, visits[i].schemaName) && SameSchema(schemaName, visits[j].schemaName)
    ensures SweepSchema(m, visits, schemaName, isOid).outcome.Fail?
    decreases |visits|
  {
    var v := visits[0];
    var rest := visits[1..];
    assert rest[j - 1] == visits[j];
    if i == 0 {
      var step := UnregisterStep(m, v.oid, isOid);
      if step.outcome.Pass? {
        assert v.oid !in step.byName;
      }
    } else {
      assert rest[i - 1] == visits[i];
      if !SameSchema(schemaName, v.schemaName) {
        RepeatFails(m, rest, schemaName, isOid, i - 1, j - 1);
      } else {
        var step := UnregisterStep(m, v.oid, isOid);
        if step.outcome.Pass? {
          RepeatFails(step.byName, rest, schemaName, isOid, i - 1, j - 1);
        }
      }
    }
  }

  /** The normalizers the registry's values yield, one per key, in the order of `keys`. */
  function Visits(m: map<string, Normalizer>, keys: seq<string>): (visits: seq<Normalizer>)
    requires Elements(keys) <= m.Keys
    ensures |visits| == |keys| && forall i :: 0 <= i < |keys| ==> visits[i] == m[keys[i]]
  {
    seq(|keys|, i requires 0 <= i < |keys| => m[keys[i]])
  }

  /**
   * A normalizer of the schema registered under its OID and an alias is
   * visited twice, and the second `unregister` of its OID dereferences the
   * missing entry: the loop fails with a `NullPointerException`.
   */
  lemma AliasedNormalizerFails(m: map<string, Normalizer>, keys: seq<string>, schemaName: string,
                               isOid: string -> bool, i: nat, j: nat)
    requires Elements(keys) <= m.Keys && i < j < |keys| && m[keys[i]] == m[keys[j]]
    requires SameSchema(schemaName, m[keys[i]].schemaName)
    ensures SweepSchema(m, Visits(m, keys), schemaName, isOid).outcome.Fail?
  {
    RepeatFails(m, Visits(m, keys), schemaName, isOid, i, j);
  }

  /** The smallest such registry: one normalizer under its OID and the alias "t". */
  lemma AliasedSweepExample()
    ensures var n := Normalizer("2.5.13.1", ["t"], "system");
            var m := map["2.5.13.1" := n, "t" := n];
            SweepSchema(m, Visits(m, ["2.5.13.1", "t"]), "SYSTEM", s => s == "2.5.13.1")
              == Sweep(map[], Fail(NullPointerException))
  {
    var n := Normalizer("2.5.13.1", ["t"], "system");
    var m := map["2.5.13.1" := n, "t" := n];
    var isOid := s => s == "2.5.13.1";
    assert ToLower("SYSTEM") == "system" == ToLower("system");
    var visits := Visits(m, ["2.5.13.1", "t"]);
    assert visits == [n, n];
    assert m - RemovedKeys("2.5.13.1", ["t"]) == map[];
    assert SweepSchema(map[], [n], "SYSTEM", isOid) == Sweep(map[], Fail(NullPointerException));
  }

  class DefaultNormalizerRegistry {
    /** Normalizers by OID and by alias key. */
    var byName: map<string, Normalizer>

    constructor ()
      ensures byName == map[]
    {
      byName := map[];
    }

    /**
     * `register`: an OID already present is a `NamingException` and changes
     * nothing; otherwise the OID and then each alias key are mapped to the
     * normalizer, an alias key overwriting whatever it held.
     */
    method Register(n: Normalizer) returns (r: Outcome<RegistryError>)
      modifies this`byName
      ensures n.oid in old(byName) ==> r == Fail(NamingException) && byName == old(byName)
      ensures n.oid !in old(byName) ==> r == Pass && byName == PutAll(old(byName)[n.oid := n], AliasKeys(n.names), n)
    {
      if n.oid in byName {
        return Fail(NamingException);
      }
      byName := PutKeys(byName[n.oid := n], AliasKeys(n.names), n);
      r := Pass;
    }

    /**
     * `unregister`: a string that is not a numeric OID is a `NamingException`;
     * an OID that is not registered is a null dereference; otherwise the OID
     * and each alias, as given, are removed and the normalizer is returned.
     * `isOid` stands for `OID.isOID`.
     */
    method Unregister(numericOid: string, isOid: string -> bool) returns (r: Result<Normalizer, RegistryError>)
      modifies this`byName
      ensures !isOid(numericOid) ==> r == Err(NamingException)
      ensures isOid(numericOid) && numericOid !in old(byName) ==> r == Err(NullPointerException)
      ensures r.Err? ==> byName == old(byName)
      ensures isOid(numericOid) && numericOid in old(byName) ==>
                && r == Ok(old(byName)[numericOid])
                && byName == old(byName) - RemovedKeys(numericOid, r.value.names)
    {
      if !isOid(numericOid) {
        return Err(NamingException);
      }
      if numericOid !in byName {
        return Err(NullPointerException);
      }
      var normalizer := byName[numericOid];
      byName := RemoveKeys(byName - {numericOid}, normalizer.names);
      r := Ok(normalizer);
    }

    /** The removal meant: the OID and the keys its aliases were registered under. */
    method UnregisterCorrected(numericOid: string, isOid: string -> bool) returns (r: Result<Normalizer, RegistryError>)
      modifies this`byName
      ensures !isOid(numericOid) ==> r == Err(NamingException)
      ensures isOid(numericOid) && numericOid !in old(byName) ==> r == Err(NullPointerException)
      ensures r.Err? ==> byName == old(byName)
      ensures isOid(numericOid) && numericOid in old(byName) ==>
                && r == Ok(old(byName)[numericOid])
                && byName == old(byName) - RegisteredKeys(numericOid, r.value.names)
    {
      if !isOid(numericOid) {
        return Err(NamingException);
      }
      if numericOid !in byName {
        return Err(NullPointerException);
      }
      var normalizer := byName[numericOid];
      byName := RemoveKeys(byName - {numericOid}, AliasKeys(normalizer.names));
      r := Ok(normalizer);
    }

    /**
     * `unregisterSchemaElements`: nothing for a null schema name; otherwise
     * `unregister` on the OID of every normalizer of that schema (ignoring
     * case), stopping at the first failure. The walk goes over the values of
     * the map as it was on entry, one per key, in the order `keys` lists the
     * keys.
     */
    method UnregisterSchemaElements(schemaName: Option<string>, keys: seq<string>, isOid: string -> bool)
      returns (r: Outcome<RegistryError>)
      requires NoRepeats(keys) && Elements(keys) == byName.Keys
      modifies this`byName
      ensures schemaName.None? ==> r == Pass && byName == old(byName)
      ensures schemaName.Some? ==>
                Sweep(byName, r) == SweepSchema(old(byName), Visits(old(byName), keys), schemaName.value, isOid)
    {
      if schemaName.None? {
        return Pass;
      }
      var visits := Visits(byName, keys);
      for i := 0 to |visits|
        invariant SweepSchema(byName, visits[i..], schemaName.value, isOid)
                  == SweepSchema(old(byName), visits, schemaName.value, isOid)
      {
        var normalizer := visits[i];
        assert visits[i..][0] == normalizer && visits[i..][1..] == visits[i + 1..];
        if SameSchema(schemaName.value, normalizer.schemaName) {
          var removed := Unregister(normalizer.oid, isOid);
          if removed.Err? {
            return Fail(removed.error);
          }
        }
      }
      r := Pass;
    }

    /** `size()`: the number of map entries, OIDs and alias keys together. */
    function Size(): (r: nat)
      reads this
      ensures r == |byName.Keys|
    {
      |byName|
    }
  }
}
