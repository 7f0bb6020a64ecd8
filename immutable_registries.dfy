/**
 * The read-only views of the LDAP syntax registry and of the name form
 * registry. Both wrap another registry of the same kind, answer every query
 * with that registry's answer, and refuse every change with
 * `LdapOperationNotSupportedException(NO_SUCH_OPERATION)`. The registries they
 * wrap are not part of this model beyond their lookup tables: a map from OID
 * to schema object and a map from name to OID.
 */
module ImmutableRegistries {
  import opened Wrappers
  import opened LdapTypes

  /** What the registries hold of an LDAP syntax or a name form. */
  datatype SchemaObject = SchemaObject(oid: string, names: seq<string>, schemaName: string)

  /** Which registry a view stands for; it only chooses the message of the refusal. */
  datatype RegistryKind = LdapSyntaxRegistry | NameFormRegistry

  /** A registry: a modifiable one, or a read-only view of another. */
  datatype Registry =
    | DefaultRegistry(kind: RegistryKind, byOid: map<string, SchemaObject>, oidByName: map<string, string>)
    | ImmutableRegistry(wrapped: Registry)

  datatype RegistryError =
    | LdapOperationNotSupportedException(code: ResultCode)
    /** A lookup of an OID or a name that is not registered. */
    | NamingException
    /** The clone of the wrapped registry is not a read-only view. */
    | ClassCastException

  /** The registry that answers for a view: views answer with what they wrap. */
  function Backing(r: Registry): (d: Registry)
    ensures d.DefaultRegistry?
  {
    match r
    case DefaultRegistry(_, _, _) => r
    case ImmutableRegistry(w) => Backing(w)
  }

  // The queries. A view answers each of them with its wrapped registry's answer.

  function Size(r: Registry): nat
  {
    match r
    case DefaultRegistry(_, byOid, _) => |byOid|
    case ImmutableRegistry(w) => Size(w)
  }

  function Contains(r: Registry, oid: string): bool
  {
    match r
    case DefaultRegistry(_, byOid, _) => oid in byOid
    case ImmutableRegistry(w) => Contains(w, oid)
  }

  function ContainsName(r: Registry, name: string): bool
  {
    match r
    case DefaultRegistry(_, _, oidByName) => name in oidByName
    case ImmutableRegistry(w) => ContainsName(w, name)
  }

  function GetOidByName(r: Registry, name: string): Result<string, RegistryError>
  {
    match r
    case DefaultRegistry(_, _, oidByName) => if name in oidByName then Ok(oidByName[name]) else Err(NamingException)
    case ImmutableRegistry(w) => GetOidByName(w, name)
  }

  function Lookup(r: Registry, oid: string): Result<SchemaObject, RegistryError>
  {
    match r
    case DefaultRegistry(_, byOid, _) => if oid in byOid then Ok(byOid[oid]) else Err(NamingException)
    case ImmutableRegistry(w) => Lookup(w, oid)
  }

  function GetSchemaName(r: Registry, oid: string): Result<string, RegistryError>
  {
    match r
    case DefaultRegistry(_, byOid, _) => if oid in byOid then Ok(byOid[oid].schemaName) else Err(NamingException)
    case ImmutableRegistry(w) => GetSchemaName(w, oid)
  }

  /**
   * Every query on a view, however deeply nested, answers as the registry
   * at the bottom of the nesting does.
   */
  lemma {:induction false} ViewAnswersAsBacking(r: Registry, oid: string, name: string)
    ensures Size(r) == Size(Backing(r))
    ensures Contains(r, oid) == Contains(Backing(r), oid)
    ensures ContainsName(r, name) == ContainsName(Backing(r), name)
    ensures GetOidByName(r, name) == GetOidByName(Backing(r), name)
    ensures Lookup(r, oid) == Lookup(Backing(r), oid)
    ensures GetSchemaName(r, oid) == GetSchemaName(Backing(r), oid)
  {
    if r.ImmutableRegistry? {
      ViewAnswersAsBacking(r.wrapped, oid, name);
    }
  }

  /** A view finds a name's OID exactly when it contains the name. */
  lemma OidByNameAgreesWithContainsName(r: Registry, name: string)
    ensures GetOidByName(r, name).Ok? <==> ContainsName(r, name)
  {
    ViewAnswersAsBacking(r, "", name);
  }

  // The changes. A view refuses each of them and leaves what it wraps as it was.

  /** The refusal every change on a view ends in. */
  const NOT_SUPPORTED: RegistryError := LdapOperationNotSupportedException(NoSuchOperation)

  /** `register`, `unregister`, `renameSchema` and `unregisterSchemaElements` on a view. */
  datatype Change =
    | Register(schemaObject: SchemaObject)
    | Unregister(numericOid: string)
    | RenameSchema(originalSchemaName: string, newSchemaName: string)
    | UnregisterSchemaElements(schemaName: string)

  /** A change applied to a view: the registry after it, or the refusal. */
  function ApplyToView(view: Registry, change: Change): (r: Result<Registry, RegistryError>)
    requires view.ImmutableRegistry?
    ensures r == Err(NOT_SUPPORTED)
  {
    match change
    case Register(_) => Err(NOT_SUPPORTED)
    case Unregister(_) => Err(NOT_SUPPORTED)
    case RenameSchema(_, _) => Err(NOT_SUPPORTED)
    case UnregisterSchemaElements(_) => Err(NOT_SUPPORTED)
  }

  /**
   * `clone()` of a modifiable registry: a copy of the same kind. Of a view:
   * the clone of what it wraps, cast to a view, which fails when that clone is
   * not a view.
   */
  function Clone(r: Registry): (c: Result<Registry, RegistryError>)
    ensures r.DefaultRegistry? ==> c == Ok(r)
    ensures c.Ok? ==> r.DefaultRegistry?
  {
    match r
    case DefaultRegistry(_, _, _) => Ok(r)
    case ImmutableRegistry(w) =>
      match Clone(w)
      case Err(e) => Err(e)
      case Ok(c) => if c.ImmutableRegistry? then Ok(c) else Err(ClassCastException)
  }

  /**
   * As written, cloning a view never succeeds: the innermost registry clones
   * to a modifiable one and the cast to a view fails, whatever the nesting.
   */
  lemma {:induction false} CloneOfViewFails(r: Registry)
    requires r.ImmutableRegistry?
    ensures Clone(r) == Err(ClassCastException)
  {
    if r.wrapped.ImmutableRegistry? {
      CloneOfViewFails(r.wrapped);
    }
  }

  /** The clone meant: a view of the clone of what is wrapped. */
  function CloneCorrected(r: Registry): (c: Result<Registry, RegistryError>)
    ensures c.Ok?
    ensures r.ImmutableRegistry? ==> c.value.ImmutableRegistry?
  {
    match r
    case DefaultRegistry(_, _, _) => Ok(r)
    case ImmutableRegistry(w) => Ok(ImmutableRegistry(CloneCorrected(w).value))
  }

  /** The corrected clone is backed by the same tables, so it answers every query as the original does. */
  lemma {:induction false} CloneCorrectedAnswersAlike(r: Registry)
    ensures Backing(CloneCorrected(r).value) == Backing(r)
  {
    if r.ImmutableRegistry? {
      CloneCorrectedAnswersAlike(r.wrapped);
    }
  }
}
