/**
 * The grammar action that stores the type of a new attribute of a
 * SearchResultEntry (`PartialAttributeList`, section 4.5.2 of RFC 4511).
 * UTF-8 decoding and the attribute-type check that `addAttribute` performs
 * are not part of this model; they are parameters.
 */
module AddAttributeType {
  import opened Wrappers
  import opened Ber
  import opened LdapMessageContainer

  /** What the action changes of the entry being decoded: its attribute types, in arrival order. */
  class SearchResultEntry {
    var attributeTypes: seq<string>

    constructor ()
      ensures attributeTypes == []
    {
      attributeTypes := [];
    }

    /**
     * `addAttribute(type)`: a type the schema refuses is an `LdapException`
     * and adds nothing; any other starts a new attribute of that type.
     */
    method AddAttribute(attributeType: string, isValidType: string -> bool) returns (ok: bool)
      modifies this`attributeTypes
      ensures ok == isValidType(attributeType)
      ensures ok ==> attributeTypes == old(attributeTypes) + [attributeType]
      ensures !ok ==> attributeTypes == old(attributeTypes)
    {
      if !isValidType(attributeType) {
        return false;
      }
      attributeTypes := attributeTypes + [attributeType];
      ok := true;
    }
  }

  /**
   * `action`: an empty value is a `DecoderException` (a type cannot be null);
   * otherwise the UTF-8 string is handed once to `addAttribute`, whose failure
   * becomes a `DecoderException`. The end-allowed flag is never touched.
   */
  method Action(container: LdapMessageContainer<SearchResultEntry>, utf8ToString: seq<byte> -> string,
                isValidType: string -> bool)
    returns (r: Outcome<DecoderError>)
    modifies container.message`attributeTypes
    ensures container.grammarEndAllowed == old(container.grammarEndAllowed)
    ensures r.Fail? ==> r.error == DecoderException
    ensures |container.currentTlvValue| == 0 ==>
              r.Fail? && container.message.attributeTypes == old(container.message.attributeTypes)
    ensures |container.currentTlvValue| != 0 ==>
              (r.Pass? <==> isValidType(utf8ToString(container.currentTlvValue)))
    ensures r.Pass? ==>
              container.message.attributeTypes == old(container.message.attributeTypes) + [utf8ToString(container.currentTlvValue)]
    ensures r.Fail? ==> container.message.attributeTypes == old(container.message.attributeTypes)
  {
    var searchResultEntry := container.message;
    if |container.currentTlvValue| == 0 {
      return Fail(DecoderException);
    }
    var attributeType := utf8ToString(container.currentTlvValue);
    var ok := searchResultEntry.AddAttribute(attributeType, isValidType);
    if !ok {
      return Fail(DecoderException);
    }
    r := Pass;
  }
}
