/**
 * The AbandonRequest protocol operation (section 4.11 of RFC 4511):
 * `AbandonRequest ::= [APPLICATION 16] MessageID`, written as the tag 0x50,
 * one length octet and the minimal two's-complement message id.
 */
module AbandonRequestDecorator {
  import opened Wrappers
  import opened Ber
  import opened ByteBuffers

  const ABANDON_REQUEST_TAG: byte := 0x50

  /** The octets `encode` writes for an abandoned message id. */
  function AbandonRequestPdu(abandoned: int): (s: seq<byte>)
    requires IsInt(abandoned)
    ensures s == Tlv(ABANDON_REQUEST_TAG, IntBytes(abandoned))
  {
    IntNbBytesOfInt(abandoned);
    [ABANDON_REQUEST_TAG, IntNbBytes(abandoned)] + IntBytes(abandoned)
  }

  class AbandonRequestDecorator {
    /** The message id of the operation to abandon (held by the decorated request). */
    var abandoned: int

    ghost predicate Valid()
      reads this
    {
      IsInt(abandoned)
    }

    constructor (abandoned: int)
      requires IsInt(abandoned)
      ensures Valid() && this.abandoned == abandoned
    {
      this.abandoned := abandoned;
    }

    method GetAbandoned() returns (id: int)
      ensures id == abandoned
    {
      id := abandoned;
    }

    /** `setAbandoned` stores the id and returns the decorator itself. */
    method SetAbandoned(requestId: int) returns (self: AbandonRequestDecorator)
      requires IsInt(requestId)
      modifies this
      ensures Valid() && abandoned == requestId && self == this
    {
      abandoned := requestId;
      self := this;
    }

    /** `computeLength`: tag, one length octet and the id's contents octets. */
    function ComputeLength(): (length: nat)
      reads this
      requires Valid()
      ensures length == |AbandonRequestPdu(abandoned)|
      ensures 3 <= length <= 6
    {
      IntNbBytesOfInt(abandoned);
      1 + 1 + IntNbBytes(abandoned)
    }

    /**
     * `encode`: appends the PDU to the caller's buffer; when it does not fit,
     * the overflow becomes an `EncoderException` and the octets of the puts that
     * did fit stay in the buffer.
     */
    method Encode(buffer: ByteBuffer) returns (r: Result<ByteBuffer, EncodeError>)
      requires Valid() && buffer.Valid()
      modifies buffer, buffer.data
      ensures buffer.Valid() && old(buffer.position) <= buffer.position
      ensures r.Ok? <==> ComputeLength() <= old(buffer.Remaining())
      ensures r.Ok? ==> r.value == buffer && buffer.Written() == old(buffer.Written()) + AbandonRequestPdu(abandoned)
      ensures r.Err? ==> r.error == EncoderException(PduBufferTooSmall)
      ensures r.Err? ==> buffer.position - old(buffer.position) < ComputeLength()
      ensures r.Err? ==> buffer.Written() == old(buffer.Written()) + AbandonRequestPdu(abandoned)[..buffer.position - old(buffer.position)]
    {
      IntNbBytesOfInt(abandoned);
      var ok := buffer.PutAll([[ABANDON_REQUEST_TAG], [IntNbBytes(abandoned)], IntBytes(abandoned)]);
      Flatten3([ABANDON_REQUEST_TAG], [IntNbBytes(abandoned)], IntBytes(abandoned));
      if !ok {
        return Err(EncoderException(PduBufferTooSmall));
      }
      return Ok(buffer);
    }
  }

  /** The length octet is always in short form: the id takes one to four octets. */
  lemma AbandonLengthIsShort(abandoned: int)
    requires IsInt(abandoned)
    ensures 1 <= AbandonRequestPdu(abandoned)[1] <= 4
    ensures AbandonRequestPdu(abandoned)[1] == |AbandonRequestPdu(abandoned)| - 2
  {
    IntNbBytesOfInt(abandoned);
  }

  /** What is written decodes as one AbandonRequest TLV holding the same message id. */
  lemma AbandonRequestRoundTrip(abandoned: int, rest: seq<byte>)
    requires IsInt(abandoned)
    ensures DecodeTlv(AbandonRequestPdu(abandoned) + rest) == Some((ABANDON_REQUEST_TAG, IntBytes(abandoned), rest))
    ensures ParseInteger(IntBytes(abandoned), MIN_INT, MAX_INT) == Ok(abandoned)
  {
    IntNbBytesOfInt(abandoned);
    TlvRoundTrip(ABANDON_REQUEST_TAG, IntBytes(abandoned), rest);
    ParseIntBytes(abandoned, MIN_INT, MAX_INT);
  }

  /** Message id 0 is not omitted: it is written as `50 01 00`; id 5 as `50 01 05`. */
  lemma AbandonRequestExamples()
    ensures AbandonRequestPdu(0) == [0x50, 0x01, 0x00]
    ensures AbandonRequestPdu(5) == [0x50, 0x01, 0x05]
    ensures AbandonRequestPdu(300) == [0x50, 0x02, 0x01, 0x2C]
  {
  }
}
