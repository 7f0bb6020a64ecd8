/**
 * The decorator for an opaque control, one for which no control factory is
 * registered: its value octets are known only as octets, so they are copied
 * verbatim, with no tag and no length, and they are never parsed.
 */
module BasicControlDecorator {
  import opened Wrappers
  import opened Ber
  import opened ByteBuffers

  /** The octets of an optional control value; an absent value has none. */
  function ValueBytes(value: Option<seq<byte>>): seq<byte>
  {
    if value.None? then [] else value.value
  }

  class BasicControlDecorator {
    /** The decorated control's value (`getValue()`), possibly absent. */
    var controlValue: Option<seq<byte>>
    /** The length cached by `computeLength`. */
    var valueLength: nat

    constructor (controlValue: Option<seq<byte>>)
      ensures this.controlValue == controlValue && valueLength == 0
    {
      this.controlValue := controlValue;
      valueLength := 0;
    }

    /** The cached length is that of the current value. */
    ghost predicate LengthComputed()
      reads this
    {
      valueLength == |ValueBytes(controlValue)|
    }

    /** `decode`: an opaque value is never parsed; the result is always null. */
    function Decode(controlBytes: seq<byte>): (r: Option<seq<byte>>)
      ensures r.None?
    {
      None
    }

    /** `computeLength`: 0 for an absent value, otherwise the value's length. */
    method ComputeLength() returns (length: nat)
      modifies this`valueLength
      ensures LengthComputed() && length == valueLength
      ensures controlValue.None? ==> length == 0
      ensures controlValue.Some? ==> length == |controlValue.value|
    {
      if controlValue.None? {
        valueLength := 0;
      } else {
        valueLength := |controlValue.value|;
      }
      length := valueLength;
    }

    /**
     * `encode`: a null buffer is an `EncoderException`; otherwise the value octets
     * are put as they are, and nothing at all is put when the cached length is 0.
     */
    method Encode(buffer: ByteBuffer?) returns (r: Result<ByteBuffer, EncodeError>)
      requires LengthComputed()
      requires buffer != null ==> buffer.Valid()
      modifies if buffer == null then {} else {buffer, buffer.data}
      ensures buffer == null ==> r == Err(EncoderException(NullBuffer))
      ensures buffer != null ==> buffer.Valid()
      ensures buffer != null ==> (r.Ok? <==> valueLength <= old(buffer.Remaining()))
      ensures r.Ok? ==> r.value == buffer && buffer.position == old(buffer.position) + valueLength
      ensures r.Ok? ==> buffer.Written() == old(buffer.Written()) + ValueBytes(controlValue)
      ensures r.Err? && buffer != null ==> r.error == BufferOverflowException
      ensures buffer != null && (valueLength == 0 || r.Err?) ==>
                buffer.position == old(buffer.position) && buffer.data[..] == old(buffer.data[..])
    {
      if buffer == null {
        return Err(EncoderException(NullBuffer));
      }
      if valueLength != 0 {
        var ok := buffer.Put(controlValue.value);
        if !ok {
          return Err(BufferOverflowException);
        }
      }
      return Ok(buffer);
    }
  }
}
