/**
 * Values shared by the LDAP messages: distinguished names and result codes.
 * The DN parser itself is not part of this model; operations that parse a DN
 * take the parser as a function argument.
 */
module LdapTypes {
  import opened Wrappers

  /**
   * A distinguished name as the user wrote it (`Dn.getName()`), with its
   * number of RDNs (`Dn.size()`).
   */
  datatype Dn = Dn(name: string, size: nat)

  /** `Dn.EMPTY_DN`: the root DSE name. */
  const EMPTY_DN: Dn := Dn("", 0)

  /** `Dn.isNullOrEmpty`. */
  predicate IsNullOrEmpty(dn: Option<Dn>)
  {
    dn.None? || dn.value.size == 0
  }

  /** `new Dn(String)`: a parsed name, or `None` for `LdapInvalidDnException`. */
  type DnParser = string -> Option<Dn>

  /**
   * `Dn.equals`, which compares the normalized names; the `Dn` class is not
   * part of this model, so callers take it as a function argument.
   */
  type DnEquals = (Dn, Dn) -> bool

  /** `Dn.equals` is reflexive, symmetric and transitive. */
  ghost predicate IsEquivalence(eq: DnEquals)
  {
    && (forall a :: eq(a, a))
    && (forall a, b :: eq(a, b) ==> eq(b, a))
    && (forall a, b, c :: eq(a, b) && eq(b, c) ==> eq(a, c))
  }

  /**
   * The result codes the modelled code produces: those of section 4.1.9 of
   * RFC 4511, and `NoSuchOperation`, which the schema registries use for an
   * operation they do not support.
   */
  datatype ResultCode = Success | ProtocolError | InvalidDnSyntax | UnwillingToPerform | NoSuchOperation
}
