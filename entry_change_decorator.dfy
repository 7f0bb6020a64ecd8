/**
 * The Entry Change Notification control of the persistent search draft
 * (draft-ietf-ldapext-psearch-03, section 5):
 *
 *   EntryChangeNotification ::= SEQUENCE {
 *     changeType ENUMERATED { add (1), delete (2), modify (4), modDN (8) },
 *     previousDN LDAPDN OPTIONAL,
 *     changeNumber INTEGER OPTIONAL }
 *
 * The decorator first computes and caches the lengths, then writes the value.
 */
module EntryChangeDecorator {
  import opened Wrappers
  import opened Ber
  import opened ByteBuffers
  import opened JavaStrings
  import opened LdapTypes

  /** The change number that means "absent". */
  const UNDEFINED_CHANGE_NUMBER: int := -1

  datatype ChangeType = Add | Delete | Modify | ModDn

  function ChangeTypeValue(t: ChangeType): int
  {
    match t
    case Add => 1
    case Delete => 2
    case Modify => 4
    case ModDn => 8
  }

  /** changeType: ENUMERATED, length 1, one value octet. */
  function ChangeTypeTlv(t: ChangeType): (s: seq<byte>)
    ensures |s| == 3 && s == Tlv(ENUMERATED_TAG, IntBytes(ChangeTypeValue(t)))
  {
    [ENUMERATED_TAG, 1] + IntBytes(ChangeTypeValue(t))
  }

  /** previousDN: an OCTET STRING of the name's UTF-8 octets, or nothing. */
  function PreviousDnTlv(previousDn: Option<Dn>): seq<byte>
  {
    if previousDn.None? then [] else OctetStringTlv(Utf8(previousDn.value.name))
  }

  /** changeNumber: an INTEGER, or nothing when undefined. */
  function ChangeNumberTlv(changeNumber: int): seq<byte>
    requires IsLong(changeNumber)
  {
    if changeNumber == UNDEFINED_CHANGE_NUMBER then [] else IntegerTlv(changeNumber)
  }

  function EntryChangeBody(t: ChangeType, previousDn: Option<Dn>, changeNumber: int): seq<byte>
    requires IsLong(changeNumber)
  {
    ChangeTypeTlv(t) + (PreviousDnTlv(previousDn) + ChangeNumberTlv(changeNumber))
  }

  /** The SEQUENCE tag and length octets and changeType, which open the value. */
  function EntryChangeHeader(t: ChangeType, eccSeqLength: nat): seq<byte>
  {
    [SEQUENCE_TAG] + LenBytes(eccSeqLength) + ChangeTypeTlv(t)
  }

  /** The control value: the SEQUENCE around the body. */
  function EntryChangeValue(t: ChangeType, previousDn: Option<Dn>, changeNumber: int): seq<byte>
    requires IsLong(changeNumber)
  {
    Tlv(SEQUENCE_TAG, EntryChangeBody(t, previousDn, changeNumber))
  }

  class EntryChangeDecorator {
    var changeType: ChangeType
    var previousDn: Option<Dn>
    var changeNumber: int
    /** The cached UTF-8 form of the previous DN. */
    var previousDnBytes: Option<seq<byte>>
    /** The cached length of the SEQUENCE contents. */
    var eccSeqLength: nat
    /** The cached length of the whole value. */
    var valueLength: nat
    /** The cached encoded value. */
    var value: Option<seq<byte>>

    ghost predicate Valid()
      reads this
    {
      IsLong(changeNumber)
    }

    /** The cached lengths describe the current control. */
    ghost predicate LengthsComputed()
      reads this
      requires Valid()
    {
      && eccSeqLength == |EntryChangeBody(changeType, previousDn, changeNumber)|
      && valueLength == 1 + LenNbBytes(eccSeqLength) + eccSeqLength
      && DnBytesCached()
    }

    /** The cached octets of the previous DN are those of the current one. */
    ghost predicate DnBytesCached()
      reads this
    {
      previousDn.Some? ==> previousDnBytes == Some(Utf8(previousDn.value.name))
    }

    constructor (changeType: ChangeType, previousDn: Option<Dn>, changeNumber: int)
      requires IsLong(changeNumber)
      ensures Valid() && this.changeType == changeType && this.previousDn == previousDn
      ensures this.changeNumber == changeNumber
      ensures previousDnBytes == None && eccSeqLength == 0 && valueLength == 0 && value == None
    {
      this.changeType := changeType;
      this.previousDn := previousDn;
      this.changeNumber := changeNumber;
      previousDnBytes := None;
      eccSeqLength := 0;
      valueLength := 0;
      value := None;
    }

    /**
     * `computeLength`: 3 octets of changeType, plus the previousDN TLV when
     * there is one, plus the changeNumber TLV when it is defined, inside a SEQUENCE.
     */
    method ComputeLength() returns (length: nat)
      requires Valid()
      modifies this`previousDnBytes, this`eccSeqLength, this`valueLength
      ensures Valid() && LengthsComputed() && length == valueLength
      ensures length == |EntryChangeValue(changeType, previousDn, changeNumber)|
      ensures previousDn.None? ==> previousDnBytes == old(previousDnBytes)
    {
      var changeTypesLength := 1 + 1 + 1;
      var previousDnLength := 0;
      var changeNumberLength := 0;
      if previousDn.Some? {
        var bytes := Utf8(previousDn.value.name);
        previousDnBytes := Some(bytes);
        previousDnLength := 1 + LenNbBytes(|bytes|) + |bytes|;
      }
      if changeNumber != UNDEFINED_CHANGE_NUMBER {
        IntNbBytesOfLong(changeNumber);
        changeNumberLength := 1 + 1 + IntNbBytes(changeNumber);
      }
      eccSeqLength := changeTypesLength + previousDnLength + changeNumberLength;
      valueLength := 1 + LenNbBytes(eccSeqLength) + eccSeqLength;
      length := valueLength;
    }

    /** The value this control encodes to. */
    ghost function Pdu(): seq<byte>
      reads this
      requires Valid()
    {
      EntryChangeValue(changeType, previousDn, changeNumber)
    }

    /**
     * `encode`: writes the SEQUENCE header and changeType with plain puts, whose
     * overflow escapes as `BufferOverflowException`, then the optional TLVs
     * through the BER helpers, whose overflow becomes `EncoderException`.
     */
    method Encode(buffer: ByteBuffer?) returns (r: Result<ByteBuffer, EncodeError>)
      requires Valid() && LengthsComputed()
      requires buffer != null ==> buffer.Valid()
      modifies if buffer == null then {} else {buffer, buffer.data}
      ensures buffer == null ==> r == Err(EncoderException(NullBuffer))
      ensures buffer != null ==> buffer.Valid()
      ensures buffer != null ==> (r.Ok? <==> valueLength <= old(buffer.Remaining()))
      ensures r.Ok? ==> r.value == buffer && buffer.Written() == old(buffer.Written()) + Pdu()
      ensures buffer != null && r.Err? ==>
                (r.error == BufferOverflowException <==> old(buffer.Remaining()) < 1 + LenNbBytes(eccSeqLength) + 3)
      ensures buffer != null && r.Err? && r.error != BufferOverflowException ==>
                r.error == EncoderException(PduBufferTooSmall)
    {
      if buffer == null {
        return Err(EncoderException(NullBuffer));
      }
      r := EncodeInto(buffer);
    }

    method EncodeInto(buffer: ByteBuffer) returns (r: Result<ByteBuffer, EncodeError>)
      requires Valid() && LengthsComputed() && buffer.Valid()
      modifies buffer, buffer.data
      ensures buffer.Valid()
      ensures r.Ok? <==> valueLength <= old(buffer.Remaining())
      ensures r.Ok? ==> r.value == buffer && buffer.Written() == old(buffer.Written()) + Pdu()
      ensures r.Err? ==> (r.error == BufferOverflowException <==> old(buffer.Remaining()) < 1 + LenNbBytes(eccSeqLength) + 3)
      ensures r.Err? && r.error != BufferOverflowException ==> r.error == EncoderException(PduBufferTooSmall)
    {
      ghost var header := EntryChangeHeader(changeType, eccSeqLength);
      ghost var tail := PreviousDnTlv(previousDn) + ChangeNumberTlv(changeNumber);
      EntryChangeValueParts(changeType, previousDn, changeNumber);
      assert |header| + |tail| == valueLength;
      var ok := EncodeHeader(buffer, changeType, eccSeqLength);
      if !ok {
        return Err(BufferOverflowException);
      }
      var o := EncodeOptionals(buffer, previousDn, previousDnBytes, changeNumber);
      if o.Fail? {
        return Err(o.error);
      }
      return Ok(buffer);
    }

    /**
     * `getValue`: the first call computes the lengths and writes the value into
     * a buffer of exactly that size, then caches it; later calls return the
     * cached octets. The buffer never overflows, so the catch-all path that
     * would return null is never taken.
     */
    method GetValue() returns (v: Option<seq<byte>>)
      requires Valid()
      modifies this`previousDnBytes, this`eccSeqLength, this`valueLength, this`value
      ensures Valid()
      ensures old(value).Some? ==> v == old(value) && unchanged(this)
      ensures old(value).None? ==> v == Some(Pdu())
      ensures value == v
    {
      if value.None? {
        var length := ComputeLength();
        var bytes := EncodeIntoFreshBuffer();
        if bytes.None? {
          return None;
        }
        value := bytes;
      }
      v := value;
    }

    /** Writes the value into a buffer of exactly `valueLength` octets and returns its backing array. */
    method EncodeIntoFreshBuffer() returns (bytes: Option<seq<byte>>)
      requires Valid() && LengthsComputed()
      ensures bytes == Some(Pdu())
    {
      var buffer := new ByteBuffer.Allocate(valueLength);
      assert buffer.Remaining() == valueLength && buffer.Written() == [];
      var r := Encode(buffer);
      if r.Err? {
        return None;
      }
      assert buffer.Written() == Pdu();
      EntryChangeLength(changeType, previousDn, changeNumber);
      assert buffer.position == buffer.data.Length;
      assert buffer.data[..] == buffer.Written();
      return Some(buffer.data[..]);
    }
  }

  /** The SEQUENCE tag and length, then changeType, each with a plain `put`. */
  method EncodeHeader(buffer: ByteBuffer, t: ChangeType, eccSeqLength: nat) returns (ok: bool)
    requires buffer.Valid()
    modifies buffer, buffer.data
    ensures buffer.Valid()
    ensures ok <==> |EntryChangeHeader(t, eccSeqLength)| <= old(buffer.Remaining())
    ensures ok ==> buffer.Written() == old(buffer.Written()) + EntryChangeHeader(t, eccSeqLength)
  {
    var ctBytes := IntBytes(ChangeTypeValue(t));
    ok := buffer.PutAll([[SEQUENCE_TAG], LenBytes(eccSeqLength), [ENUMERATED_TAG], [1], ctBytes]);
    Flatten5([SEQUENCE_TAG], LenBytes(eccSeqLength), [ENUMERATED_TAG], [1], ctBytes);
    assert [SEQUENCE_TAG] + LenBytes(eccSeqLength) + [ENUMERATED_TAG] + [1] + ctBytes == EntryChangeHeader(t, eccSeqLength);
  }

  /** The optional previousDN and changeNumber TLVs, written by the BER helpers. */
  method EncodeOptionals(buffer: ByteBuffer, previousDn: Option<Dn>, previousDnBytes: Option<seq<byte>>, changeNumber: int)
    returns (r: Outcome<EncodeError>)
    requires IsLong(changeNumber) && buffer.Valid()
    requires previousDn.Some? ==> previousDnBytes == Some(Utf8(previousDn.value.name))
    modifies buffer, buffer.data
    ensures buffer.Valid()
    ensures r.Pass? <==> |PreviousDnTlv(previousDn) + ChangeNumberTlv(changeNumber)| <= old(buffer.Remaining())
    ensures r.Pass? ==> buffer.Written() == old(buffer.Written()) + (PreviousDnTlv(previousDn) + ChangeNumberTlv(changeNumber))
    ensures r.Fail? ==> r.error == EncoderException(PduBufferTooSmall)
  {
    if previousDn.Some? {
      r := EncodeOctetString(buffer, previousDnBytes.value);
      if r.Fail? {
        return;
      }
    }
    if changeNumber != UNDEFINED_CHANGE_NUMBER {
      r := EncodeInteger(buffer, changeNumber);
      if r.Fail? {
        return;
      }
    }
    return Pass;
  }

  lemma EntryChangeValueParts(t: ChangeType, previousDn: Option<Dn>, changeNumber: int)
    requires IsLong(changeNumber)
    ensures var body := EntryChangeBody(t, previousDn, changeNumber);
      EntryChangeValue(t, previousDn, changeNumber)
      == EntryChangeHeader(t, |body|) + (PreviousDnTlv(previousDn) + ChangeNumberTlv(changeNumber))
  {
  }

  /** The value length is what `computeLength` adds up, field by field. */
  lemma EntryChangeLength(t: ChangeType, previousDn: Option<Dn>, changeNumber: int)
    requires IsLong(changeNumber)
    ensures var body := |EntryChangeBody(t, previousDn, changeNumber)|;
      && body == 3
           + (if previousDn.None? then 0
              else 1 + LenNbBytes(|Utf8(previousDn.value.name)|) + |Utf8(previousDn.value.name)|)
           + (if changeNumber == UNDEFINED_CHANGE_NUMBER then 0 else 2 + IntNbBytes(changeNumber))
      && |EntryChangeValue(t, previousDn, changeNumber)| == 1 + LenNbBytes(body) + body
  {
    IntNbBytesOfLong(changeNumber);
    if changeNumber != UNDEFINED_CHANGE_NUMBER {
      IntegerTlvIsTlv(changeNumber);
    }
  }

  /** The value is one SEQUENCE TLV holding the body and nothing after it. */
  lemma EntryChangeValueDecodes(t: ChangeType, previousDn: Option<Dn>, changeNumber: int)
    requires IsLong(changeNumber)
    requires previousDn.Some? ==> |Utf8(previousDn.value.name)| <= MAX_INT
    ensures DecodeTlv(EntryChangeValue(t, previousDn, changeNumber))
            == Some((SEQUENCE_TAG, EntryChangeBody(t, previousDn, changeNumber), []))
  {
    var body := EntryChangeBody(t, previousDn, changeNumber);
    EntryChangeLength(t, previousDn, changeNumber);
    IntNbBytesOfLong(changeNumber);
    TlvRoundTrip(SEQUENCE_TAG, body, []);
    assert EntryChangeValue(t, previousDn, changeNumber) + [] == EntryChangeValue(t, previousDn, changeNumber);
  }

  /** The body starts with the changeType ENUMERATED, followed by the optional fields. */
  lemma EntryChangeBodyDecodes(t: ChangeType, previousDn: Option<Dn>, changeNumber: int)
    requires IsLong(changeNumber)
    ensures DecodeTlv(EntryChangeBody(t, previousDn, changeNumber))
            == Some((ENUMERATED_TAG, IntBytes(ChangeTypeValue(t)), PreviousDnTlv(previousDn) + ChangeNumberTlv(changeNumber)))
  {
    var rest := PreviousDnTlv(previousDn) + ChangeNumberTlv(changeNumber);
    TlvRoundTrip(ENUMERATED_TAG, IntBytes(ChangeTypeValue(t)), rest);
  }

  /** A previousDN, when there is one, comes next as an OCTET STRING of its UTF-8 octets. */
  lemma PreviousDnDecodes(previousDn: Dn, changeNumber: int)
    requires IsLong(changeNumber)
    requires |Utf8(previousDn.name)| <= MAX_INT
    ensures DecodeTlv(PreviousDnTlv(Some(previousDn)) + ChangeNumberTlv(changeNumber))
            == Some((OCTET_STRING_TAG, Utf8(previousDn.name), ChangeNumberTlv(changeNumber)))
  {
    TlvRoundTrip(OCTET_STRING_TAG, Utf8(previousDn.name), ChangeNumberTlv(changeNumber));
  }

  /** A defined changeNumber ends the body as an INTEGER that reads back as the same number. */
  lemma ChangeNumberDecodes(changeNumber: int)
    requires IsLong(changeNumber) && changeNumber != UNDEFINED_CHANGE_NUMBER
    ensures DecodeTlv(ChangeNumberTlv(changeNumber)) == Some((INTEGER_TAG, IntBytes(changeNumber), []))
    ensures TwosValue(IntBytes(changeNumber)) == changeNumber
  {
    IntegerTlvRoundTrip(changeNumber, []);
    assert ChangeNumberTlv(changeNumber) + [] == ChangeNumberTlv(changeNumber);
  }

  /** With neither optional field the value is `30 03 0A 01 <type>`. */
  lemma EntryChangeMinimalValue(t: ChangeType)
    ensures EntryChangeValue(t, None, UNDEFINED_CHANGE_NUMBER) == [0x30, 0x03, 0x0A, 0x01, ChangeTypeValue(t)]
  {
  }
}
