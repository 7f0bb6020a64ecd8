/**
 * The grammar action that stores the newSuperior of a ModifyDNRequest
 * (`newSuperior [0] LDAPDN OPTIONAL`, section 4.9 of RFC 4511). UTF-8 decoding
 * of the octets and DN parsing are not part of this model; they are parameters.
 */
module StoreModifyDnRequestNewSuperior {
  import opened Wrappers
  import opened Ber
  import opened LdapTypes
  import opened LdapMessageContainer

  /** What the action reads and writes of a ModifyDNRequest. */
  class ModifyDnRequest {
    const messageId: int
    /** The entry to rename (`getName()`). */
    var name: Option<Dn>
    var deleteOldRdn: bool
    var newSuperior: Option<Dn>

    constructor (messageId: int, name: Option<Dn>, deleteOldRdn: bool)
      ensures this.messageId == messageId && this.name == name && this.deleteOldRdn == deleteOldRdn
      ensures newSuperior.None?
    {
      this.messageId := messageId;
      this.name := name;
      this.deleteOldRdn := deleteOldRdn;
      newSuperior := None;
    }
  }

  /**
   * `action`:
   * - an empty value with deleteOldRdn set is a `DecoderException` (a protocol
   *   error), and nothing changes;
   * - an empty value otherwise sets newSuperior to the empty DN;
   * - a value that is not a DN is a `ResponseCarryingException` carrying
   *   INVALID_DN_SYNTAX, the request's name and a ModifyDnResponse with the
   *   request's message id, and nothing changes;
   * - a DN sets newSuperior to it.
   * The grammar may end after this action when it succeeds; a failure leaves the flag as it was.
   */
  method Action(container: LdapMessageContainer<ModifyDnRequest>, utf8ToString: seq<byte> -> string, parse: DnParser)
    returns (r: Outcome<DecoderError>)
    modifies container.message`newSuperior, container`grammarEndAllowed
    ensures r.Pass? ==> container.grammarEndAllowed
    ensures r.Fail? ==> container.grammarEndAllowed == old(container.grammarEndAllowed)
    ensures |container.currentTlvValue| == 0 && container.message.deleteOldRdn ==>
              r == Fail(DecoderException) && container.message.newSuperior == old(container.message.newSuperior)
    ensures |container.currentTlvValue| == 0 && !container.message.deleteOldRdn ==>
              r == Pass && container.message.newSuperior == Some(EMPTY_DN)
    ensures |container.currentTlvValue| != 0 && parse(utf8ToString(container.currentTlvValue)).None? ==>
              && r == Fail(ResponseCarryingException(ModifyDnResponse(container.message.messageId),
                                                     InvalidDnSyntax, container.message.name))
              && container.message.newSuperior == old(container.message.newSuperior)
    ensures |container.currentTlvValue| != 0 && parse(utf8ToString(container.currentTlvValue)).Some? ==>
              r == Pass && container.message.newSuperior == parse(utf8ToString(container.currentTlvValue))
  {
    var modifyDnRequest := container.message;
    var value := container.currentTlvValue;
    var newSuperior := EMPTY_DN;
    if |value| == 0 {
      if modifyDnRequest.deleteOldRdn {
        return Fail(DecoderException);
      }
      modifyDnRequest.newSuperior := Some(newSuperior);
    } else {
      var dnStr := utf8ToString(value);
      var parsed := parse(dnStr);
      if parsed.None? {
        var response := ModifyDnResponse(modifyDnRequest.messageId);
        return Fail(ResponseCarryingException(response, InvalidDnSyntax, modifyDnRequest.name));
      }
      newSuperior := parsed.value;
      modifyDnRequest.newSuperior := Some(newSuperior);
    }
    container.grammarEndAllowed := true;
    r := Pass;
  }
}
