/**
 * What a grammar action sees of the streaming decoder: the message being
 * built, the value octets of the TLV just read, and whether the grammar may
 * stop after it. The decoder, its TLV reader and its grammar tables are not
 * part of this model.
 */
module LdapMessageContainer {
  import opened Wrappers
  import opened Ber
  import opened LdapTypes

  class LdapMessageContainer<M> {
    /** The message under construction (`getMessage()`). */
    const message: M
    /** The value octets of the current TLV (`getCurrentTLV().getValue().getData()`). */
    var currentTlvValue: seq<byte>
    /** `isGrammarEndAllowed()`. */
    var grammarEndAllowed: bool

    constructor (message: M, currentTlvValue: seq<byte>)
      ensures this.message == message && this.currentTlvValue == currentTlvValue
      ensures !grammarEndAllowed
    {
      this.message := message;
      this.currentTlvValue := currentTlvValue;
      grammarEndAllowed := false;
    }
  }

  /** The response a `ResponseCarryingException` hands back to the client. */
  datatype LdapResponse = ModifyDnResponse(messageId: int)

  /** Why a grammar action stops the decoding. */
  datatype DecoderError =
    | DecoderException
    /** The PDU is readable but wrong: the client gets `response` with this result. */
    | ResponseCarryingException(response: LdapResponse, code: ResultCode, matchedDn: Option<Dn>)
}
