/**
 * The grammar action that stores the timeLimit of a SearchRequest
 * (`timeLimit INTEGER (0 .. maxInt)`, section 4.5.1 of RFC 4511).
 */
module StoreSearchRequestTimeLimit {
  import opened Wrappers
  import opened Ber
  import opened LdapMessageContainer
  import opened SearchRequestImpl

  /**
   * `action`: the current TLV value read as an INTEGER in 0..2^31-1 becomes the
   * request's timeLimit; any other value is a `DecoderException` and the request
   * keeps its old timeLimit. Nothing else changes, the end flag included.
   */
  method Action(container: LdapMessageContainer<SearchRequestImpl>) returns (r: Outcome<DecoderError>)
    modifies container.message`timeLimit
    ensures r.Pass? <==> 1 <= |container.currentTlvValue| <= 4 && 0 <= TwosValue(container.currentTlvValue) <= MAX_INT
    ensures r.Pass? ==> container.message.timeLimit == TwosValue(container.currentTlvValue)
    ensures r.Pass? ==> 0 <= container.message.timeLimit <= MAX_INT
    ensures r.Fail? ==> r.error == DecoderException && container.message.timeLimit == old(container.message.timeLimit)
  {
    var searchRequest := container.message;
    var value := container.currentTlvValue;
    var timeLimit := ParseInteger(value, 0, MAX_INT);
    if timeLimit.Err? {
      return Fail(DecoderException);
    }
    var self := searchRequest.SetTimeLimit(timeLimit.value);
    r := Pass;
  }

  /** Every limit a client can send, encoded minimally, is stored as sent. */
  lemma TimeLimitRoundTrip(limit: int)
    requires 0 <= limit <= MAX_INT
    ensures ParseInteger(IntBytes(limit), 0, MAX_INT) == Ok(limit)
  {
    ParseIntBytes(limit, 0, MAX_INT);
  }

  /** The octet FF reads as -1 and is refused; an empty value is refused as well. */
  lemma NegativeTimeLimitRefused()
    ensures ParseInteger([0xFF], 0, MAX_INT) == Err(NotInRange)
    ensures ParseInteger([], 0, MAX_INT) == Err(ZeroBytes)
  {
  }
}
