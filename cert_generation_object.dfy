/**
 * The payload of the certificate generation extended operation:
 *
 *   CertGenerateObject ::= SEQUENCE {
 *     targetDN      IA5String,
 *     issuerDN      IA5String,
 *     subjectDN     IA5String,
 *     keyAlgorithm  IA5String }
 *
 * Each string is written as an OCTET STRING of its UTF-8 octets (a null string
 * has no octets, exactly like an empty one). The encoder sizes its buffer with
 * integer octet counts (`BerValue.getNbBytes`) where length octet counts belong,
 * and writes the outer length as integer contents octets (`BerValue.getBytes`).
 */
module CertGenerationObject {
  import opened Wrappers
  import opened Ber
  import opened ByteBuffers
  import opened JavaStrings

  /** What `computeLength` counts for one field of `len` octets. */
  function FieldCount(len: nat): nat
  {
    1 + IntNbBytes(len) + len
  }

  /** The `requestLength` that `computeLength` caches. */
  function RequestLength(t: seq<byte>, i: seq<byte>, s: seq<byte>, k: seq<byte>): nat
  {
    FieldCount(|t|) + FieldCount(|i|) + FieldCount(|s|) + FieldCount(|k|)
  }

  /** The four OCTET STRINGs, in the order targetDN, issuerDN, subjectDN, keyAlgorithm. */
  function Fields(t: seq<byte>, i: seq<byte>, s: seq<byte>, k: seq<byte>): seq<byte>
  {
    OctetStringTlv(t) + (OctetStringTlv(i) + (OctetStringTlv(s) + OctetStringTlv(k)))
  }

  /** What `encode` writes when the fields fit: the outer length as integer contents octets. */
  function CertGenerationPduAsWritten(t: seq<byte>, i: seq<byte>, s: seq<byte>, k: seq<byte>): seq<byte>
  {
    [SEQUENCE_TAG] + IntBytes(RequestLength(t, i, s, k)) + Fields(t, i, s, k)
  }

  /** The payload as X.690 writes it: a SEQUENCE with definite length octets. */
  function CertGenerationPdu(t: seq<byte>, i: seq<byte>, s: seq<byte>, k: seq<byte>): seq<byte>
  {
    Tlv(SEQUENCE_TAG, Fields(t, i, s, k))
  }

  /** The integer octet count of a length is the number of length octets it takes. */
  predicate CountsAgree(len: nat)
  {
    IntNbBytes(len) == LenNbBytes(len)
  }

  predicate AllCountsAgree(t: seq<byte>, i: seq<byte>, s: seq<byte>, k: seq<byte>)
  {
    CountsAgree(|t|) && CountsAgree(|i|) && CountsAgree(|s|) && CountsAgree(|k|)
  }

  /**
   * An OCTET STRING is never shorter than `computeLength` counts for it, and is
   * exactly as long when the two octet counts agree.
   */
  lemma OctetStringCount(v: seq<byte>)
    requires |v| <= MAX_INT
    ensures FieldCount(|v|) <= |OctetStringTlv(v)|
    ensures FieldCount(|v|) == |OctetStringTlv(v)| <==> CountsAgree(|v|)
  {
    IntNbBytesOfInt(|v|);
  }

  /** The fields fit in `requestLength` octets exactly when every count agrees. */
  lemma FieldsFit(t: seq<byte>, i: seq<byte>, s: seq<byte>, k: seq<byte>)
    requires |t| <= MAX_INT && |i| <= MAX_INT && |s| <= MAX_INT && |k| <= MAX_INT
    ensures RequestLength(t, i, s, k) <= |Fields(t, i, s, k)|
    ensures |Fields(t, i, s, k)| <= RequestLength(t, i, s, k) <==> AllCountsAgree(t, i, s, k)
    ensures AllCountsAgree(t, i, s, k) ==> |Fields(t, i, s, k)| == RequestLength(t, i, s, k)
  {
    OctetStringCount(t);
    OctetStringCount(i);
    OctetStringCount(s);
    OctetStringCount(k);
  }

  class CertGenerationObject {
    /** The request's targetDN, issuerDN, subjectDN and keyAlgorithm. */
    var targetDn: string
    var issuerDn: string
    var subjectDn: string
    var keyAlgorithm: string
    /** The SEQUENCE contents length cached by `computeLength`. */
    var requestLength: nat

    /** The four strings as the octets they are written as. */
    function T(): seq<byte> reads this { Utf8(targetDn) }
    function I(): seq<byte> reads this { Utf8(issuerDn) }
    function S(): seq<byte> reads this { Utf8(subjectDn) }
    function K(): seq<byte> reads this { Utf8(keyAlgorithm) }

    /** The counts stay within a Java `int`. */
    ghost predicate Valid()
      reads this
    {
      && |T()| <= MAX_INT && |I()| <= MAX_INT && |S()| <= MAX_INT && |K()| <= MAX_INT
      && RequestLength(T(), I(), S(), K()) <= MAX_INT - 5
    }

    constructor (targetDn: string, issuerDn: string, subjectDn: string, keyAlgorithm: string)
      ensures this.targetDn == targetDn && this.issuerDn == issuerDn
      ensures this.subjectDn == subjectDn && this.keyAlgorithm == keyAlgorithm
      ensures requestLength == 0
    {
      this.targetDn := targetDn;
      this.issuerDn := issuerDn;
      this.subjectDn := subjectDn;
      this.keyAlgorithm := keyAlgorithm;
      requestLength := 0;
    }

    /**
     * `computeLength`: adds up the four fields into `requestLength`, then counts
     * the outer tag and `BerValue.getNbBytes(requestLength)` octets around them.
     * The count is never more than what is written, and is exact when the
     * integer and length octet counts agree for every field.
     */
    method ComputeLength() returns (length: nat)
      requires Valid()
      modifies this`requestLength
      ensures requestLength == RequestLength(T(), I(), S(), K())
      ensures length == 1 + IntNbBytes(requestLength) + requestLength
      ensures length <= |CertGenerationPduAsWritten(T(), I(), S(), K())|
      ensures AllCountsAgree(T(), I(), S(), K()) ==> length == |CertGenerationPduAsWritten(T(), I(), S(), K())|
    {
      var len := |Utf8(targetDn)|;
      requestLength := 1 + IntNbBytes(len) + len;
      len := |Utf8(issuerDn)|;
      requestLength := requestLength + 1 + IntNbBytes(len) + len;
      len := |Utf8(subjectDn)|;
      requestLength := requestLength + 1 + IntNbBytes(len) + len;
      len := |Utf8(keyAlgorithm)|;
      requestLength := requestLength + 1 + IntNbBytes(len) + len;
      FieldsFit(T(), I(), S(), K());
      length := 1 + IntNbBytes(requestLength) + requestLength;
    }

    /**
     * `encode`: a buffer of `computeLength()` octets, the SEQUENCE tag, the
     * outer length as `BerValue.getBytes(requestLength)`, then the four fields.
     * The fields fit exactly when every count agrees; otherwise the overflow
     * of a `BerValue.encode` call surfaces as `EncoderException`.
     */
    method Encode() returns (r: Result<ByteBuffer, EncodeError>)
      requires Valid()
      modifies this`requestLength
      ensures requestLength == RequestLength(T(), I(), S(), K())
      ensures r.Ok? <==> AllCountsAgree(T(), I(), S(), K())
      ensures r.Ok? ==> fresh(r.value) && r.value.Valid() && r.value.position == r.value.data.Length
      ensures r.Ok? ==> r.value.data[..] == CertGenerationPduAsWritten(T(), I(), S(), K())
      ensures r.Err? ==> r.error == EncoderException(PduBufferTooSmall)
    {
      var length := ComputeLength();
      var bb := new ByteBuffer.Allocate(length);
      var t, i, s, k := Utf8(targetDn), Utf8(issuerDn), Utf8(subjectDn), Utf8(keyAlgorithm);
      var o := EncodeRequest(bb, t, i, s, k);
      if o.Fail? {
        return Err(o.error);
      }
      r := Ok(bb);
    }
  }

  /** The header and the four fields, into an empty buffer of `computeLength()` octets. */
  method EncodeRequest(bb: ByteBuffer, t: seq<byte>, i: seq<byte>, s: seq<byte>, k: seq<byte>)
    returns (o: Outcome<EncodeError>)
    requires |t| <= MAX_INT && |i| <= MAX_INT && |s| <= MAX_INT && |k| <= MAX_INT
    requires bb.Valid() && bb.Written() == []
    requires bb.Remaining() == 1 + IntNbBytes(RequestLength(t, i, s, k)) + RequestLength(t, i, s, k)
    modifies bb, bb.data
    ensures bb.Valid()
    ensures o.Pass? <==> AllCountsAgree(t, i, s, k)
    ensures o.Pass? ==> bb.position == bb.data.Length && bb.data[..] == CertGenerationPduAsWritten(t, i, s, k)
    ensures o.Fail? ==> o.error == EncoderException(PduBufferTooSmall)
  {
    var requestLength := RequestLength(t, i, s, k);
    PutHeader(bb, requestLength);
    assert bb.Written() == [SEQUENCE_TAG] + IntBytes(requestLength);
    assert bb.Remaining() == requestLength;
    FieldsFit(t, i, s, k);
    o := EncodeFields(bb, t, i, s, k);
    if o.Pass? {
      assert bb.data[..] == bb.data[..bb.position];
    }
  }

  /** The SEQUENCE tag and `BerValue.getBytes(requestLength)`: two plain puts that always fit. */
  method PutHeader(bb: ByteBuffer, requestLength: nat)
    requires bb.Valid() && 1 + IntNbBytes(requestLength) <= bb.Remaining()
    modifies bb, bb.data
    ensures bb.Valid() && bb.Remaining() == old(bb.Remaining()) - 1 - IntNbBytes(requestLength)
    ensures bb.Written() == old(bb.Written()) + ([SEQUENCE_TAG] + IntBytes(requestLength))
  {
    var ok := bb.Put([SEQUENCE_TAG]);
    ok := bb.Put(IntBytes(requestLength));
    AppendAfter2(old(bb.Written()), [SEQUENCE_TAG], IntBytes(requestLength));
  }

  /** Octets appended in four parts, grouped to the right. */
  lemma AppendFour(w: seq<byte>, a: seq<byte>, b: seq<byte>, c: seq<byte>, d: seq<byte>)
    ensures w + a + b + c + d == w + (a + (b + (c + d)))
  {
    AppendAfter(w, a, b, c);
    AppendAfter2(w, a + b + c, d);
    assert a + b + c + d == a + (b + (c + d));
  }

  /** The four `BerValue.encode` calls; the first that overflows stops the encoding. */
  method EncodeFields(bb: ByteBuffer, t: seq<byte>, i: seq<byte>, s: seq<byte>, k: seq<byte>)
    returns (o: Outcome<EncodeError>)
    requires bb.Valid()
    modifies bb, bb.data
    ensures bb.Valid()
    ensures o.Pass? <==> |Fields(t, i, s, k)| <= old(bb.Remaining())
    ensures o.Pass? ==> bb.Written() == old(bb.Written()) + Fields(t, i, s, k)
    ensures o.Fail? ==> o.error == EncoderException(PduBufferTooSmall)
  {
    o := EncodeOctetString(bb, t);
    if o.Fail? {
      return;
    }
    o := EncodeOctetString(bb, i);
    if o.Fail? {
      return;
    }
    o := EncodeOctetString(bb, s);
    if o.Fail? {
      return;
    }
    o := EncodeOctetString(bb, k);
    if o.Pass? {
      AppendFour(old(bb.Written()), OctetStringTlv(t), OctetStringTlv(i), OctetStringTlv(s), OctetStringTlv(k));
    }
  }

  /** While the SEQUENCE contents stay under 128 octets, what is written is the X.690 encoding. */
  lemma AsWrittenWhenShort(t: seq<byte>, i: seq<byte>, s: seq<byte>, k: seq<byte>)
    requires RequestLength(t, i, s, k) < 0x80
    ensures CertGenerationPduAsWritten(t, i, s, k) == CertGenerationPdu(t, i, s, k)
  {
    FieldsFit(t, i, s, k);
  }

  /**
   * A targetDN of 120 octets makes `requestLength` 128, written as the integer
   * octets `00 80`: a reader takes the `00` as the SEQUENCE length and finds an
   * empty SEQUENCE, with the real contents left over after it.
   */
  lemma OuterLengthMisread(t: seq<byte>)
    requires |t| == 120
    ensures RequestLength(t, [], [], []) == 128
    ensures CertGenerationPduAsWritten(t, [], [], [])[..3] == [0x30, 0x00, 0x80]
    ensures DecodeTlv(CertGenerationPduAsWritten(t, [], [], []))
            == Some((SEQUENCE_TAG, [], CertGenerationPduAsWritten(t, [], [], [])[2..]))
  {
    assert IntNbBytes(120) == 1 && IntNbBytes(0) == 1;
    assert IntBytes(128) == [0x00, 0x80];
    var pdu := CertGenerationPduAsWritten(t, [], [], []);
    assert pdu[1..][0] == 0x00;
  }

  /**
   * A field of 256 to 32767 octets takes two integer octets but three length
   * octets, so it does not fit the buffer `computeLength` sized.
   */
  lemma FieldOf256Overflows(len: nat)
    requires 256 <= len < 0x8000
    ensures !CountsAgree(len)
  {
    IntNbBytesOfInt(len);
  }

  /** Corrected, the payload reads back as one SEQUENCE holding the four fields. */
  lemma CertGenerationRoundTrip(t: seq<byte>, i: seq<byte>, s: seq<byte>, k: seq<byte>, rest: seq<byte>)
    requires |Fields(t, i, s, k)| < 0x1_0000_0000
    ensures DecodeTlv(CertGenerationPdu(t, i, s, k) + rest) == Some((SEQUENCE_TAG, Fields(t, i, s, k), rest))
  {
    TlvRoundTrip(SEQUENCE_TAG, Fields(t, i, s, k), rest);
  }

  /** The SEQUENCE contents read back as the four strings, in the order they were written. */
  lemma FieldsRoundTrip(t: seq<byte>, i: seq<byte>, s: seq<byte>, k: seq<byte>)
    requires |t| <= MAX_INT && |i| <= MAX_INT && |s| <= MAX_INT && |k| <= MAX_INT
    ensures DecodeOctetStrings(Fields(t, i, s, k)) == Some([t, i, s, k])
  {
    var last := OctetStringTlv(k);
    var two := OctetStringTlv(s) + last;
    var three := OctetStringTlv(i) + two;
    assert DecodeOctetStrings([]) == Some([]);
    assert last + [] == last;
    DecodeOctetStringsCons(k, []);
    assert [k] + [] == [k];
    DecodeOctetStringsCons(s, last);
    assert [s] + [k] == [s, k];
    DecodeOctetStringsCons(i, two);
    assert [i] + [s, k] == [i, s, k];
    DecodeOctetStringsCons(t, three);
    assert Fields(t, i, s, k) == OctetStringTlv(t) + three;
    assert [t] + [i, s, k] == [t, i, s, k];
  }
}
