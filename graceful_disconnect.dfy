/**
 * The payload of the GracefulDisconnect extended operation:
 *
 *   GracefulDisconnect ::= SEQUENCE {
 *     timeOffline            INTEGER (0..720) DEFAULT 0,
 *     delay              [0] INTEGER (0..86400) DEFAULT 0,
 *     replicatedContexts     Referral OPTIONAL }
 *
 * Fields equal to their DEFAULT are left out, and an empty list of replicated
 * contexts writes no inner SEQUENCE. The replicated contexts are LDAP URLs,
 * each written as an OCTET STRING of the octets the URL holds.
 */
module GracefulDisconnect {
  import opened Wrappers
  import opened Ber
  import opened ByteBuffers

  /** The context-specific primitive tag `[0]` of the delay field. */
  const GRACEFUL_ACTION_DELAY_TAG: byte := 0x80

  /** An LDAP URL, as the octets `LdapUrl.getBytesReference()` returns. */
  type LdapUrl = seq<byte>

  /** The replicated contexts, one OCTET STRING per URL, in list order. */
  function ContextsBody(urls: seq<LdapUrl>): seq<byte>
  {
    if urls == [] then [] else ContextsBody(urls[..|urls| - 1]) + OctetStringTlv(urls[|urls| - 1])
  }

  /** The delay field as `encode` writes it: its length octet is `TLV.getNbBytes(delay)`. */
  function DelayTlvAsWritten(delay: nat): (s: seq<byte>)
    ensures |s| == 2 + IntNbBytes(delay)
  {
    [GRACEFUL_ACTION_DELAY_TAG, LenNbBytes(delay)] + IntBytes(delay)
  }

  /** The delay field as X.690 writes it: tag, length of the contents, contents. */
  function DelayTlv(delay: int): (s: seq<byte>)
  {
    Tlv(GRACEFUL_ACTION_DELAY_TAG, IntBytes(delay))
  }

  /** timeOffline, left out at its DEFAULT 0. */
  function TimeOfflinePart(timeOffline: int): (s: seq<byte>)
    requires IsInt(timeOffline)
    ensures |s| == if timeOffline == 0 then 0 else 2 + IntNbBytes(timeOffline)
  {
    IntegerTlvIsTlv(timeOffline);
    if timeOffline != 0 then IntegerTlv(timeOffline) else []
  }

  /** delay, left out at its DEFAULT 0. */
  function DelayPart(delay: nat): (s: seq<byte>)
    ensures |s| == if delay == 0 then 0 else 2 + IntNbBytes(delay)
  {
    if delay != 0 then DelayTlvAsWritten(delay) else []
  }

  /** replicatedContexts, left out when there are none. */
  function ContextsPart(urls: seq<LdapUrl>): (s: seq<byte>)
    ensures |s| == if urls == [] then 0 else 1 + LenNbBytes(|ContextsBody(urls)|) + |ContextsBody(urls)|
  {
    if urls != [] then Tlv(SEQUENCE_TAG, ContextsBody(urls)) else []
  }

  /** The SEQUENCE contents, fields at their DEFAULT left out. */
  function GracefulDisconnectBody(timeOffline: int, delay: nat, urls: seq<LdapUrl>): seq<byte>
    requires IsInt(timeOffline)
  {
    TimeOfflinePart(timeOffline) + DelayPart(delay) + ContextsPart(urls)
  }

  /** What `encode` returns. */
  function GracefulDisconnectPdu(timeOffline: int, delay: nat, urls: seq<LdapUrl>): seq<byte>
    requires IsInt(timeOffline)
  {
    Tlv(SEQUENCE_TAG, GracefulDisconnectBody(timeOffline, delay, urls))
  }

  /** The body with the delay written as X.690 requires. */
  function GracefulDisconnectBodyCorrected(timeOffline: int, delay: nat, urls: seq<LdapUrl>): seq<byte>
    requires IsInt(timeOffline)
  {
    (if timeOffline != 0 then IntegerTlv(timeOffline) else [])
    + (if delay != 0 then DelayTlv(delay) else [])
    + (if urls != [] then Tlv(SEQUENCE_TAG, ContextsBody(urls)) else [])
  }

  class GracefulDisconnect {
    var timeOffline: int
    var delay: nat
    var replicatedContexts: seq<LdapUrl>
    /** The SEQUENCE contents length cached by `computeLength`. */
    var gracefulDisconnectSequenceLength: nat
    /** The inner SEQUENCE contents length cached by `computeLength`. */
    var replicatedContextsLength: nat

    ghost predicate Valid()
      reads this
    {
      IsInt(timeOffline) && delay <= MAX_INT
    }

    /** `new GracefulDisconnect(timeOffline, delay)`: no replicated contexts yet. */
    constructor (timeOffline: int, delay: nat)
      requires IsInt(timeOffline) && delay <= MAX_INT
      ensures Valid() && this.timeOffline == timeOffline && this.delay == delay
      ensures replicatedContexts == []
    {
      this.timeOffline := timeOffline;
      this.delay := delay;
      replicatedContexts := [];
      gracefulDisconnectSequenceLength := 0;
      replicatedContextsLength := 0;
    }

    /** `addReplicatedContexts`: appends one URL to the list. */
    method AddReplicatedContexts(replicatedContext: LdapUrl)
      modifies this`replicatedContexts
      ensures replicatedContexts == old(replicatedContexts) + [replicatedContext]
    {
      replicatedContexts := replicatedContexts + [replicatedContext];
    }

    ghost function Pdu(): seq<byte>
      reads this
      requires Valid()
    {
      GracefulDisconnectPdu(timeOffline, delay, replicatedContexts)
    }

    ghost predicate LengthsComputed()
      reads this
      requires Valid()
    {
      && gracefulDisconnectSequenceLength == |GracefulDisconnectBody(timeOffline, delay, replicatedContexts)|
      && (replicatedContexts != [] ==> replicatedContextsLength == |ContextsBody(replicatedContexts)|)
    }

    /**
     * `computeLength`: the lengths of the present fields, the URLs summed one by
     * one, inside the outer SEQUENCE.
     */
    method ComputeLength() returns (length: nat)
      requires Valid()
      modifies this`gracefulDisconnectSequenceLength, this`replicatedContextsLength
      ensures LengthsComputed()
      ensures length == |Pdu()| == 1 + LenNbBytes(gracefulDisconnectSequenceLength) + gracefulDisconnectSequenceLength
    {
      gracefulDisconnectSequenceLength := 0;
      if timeOffline != 0 {
        IntegerTlvIsTlv(timeOffline);
        gracefulDisconnectSequenceLength := gracefulDisconnectSequenceLength + 1 + 1 + IntNbBytes(timeOffline);
      }
      if delay != 0 {
        gracefulDisconnectSequenceLength := gracefulDisconnectSequenceLength + 1 + 1 + IntNbBytes(delay);
      }
      if |replicatedContexts| > 0 {
        replicatedContextsLength := ReplicatedContextsLength(replicatedContexts);
        gracefulDisconnectSequenceLength := gracefulDisconnectSequenceLength
          + 1 + LenNbBytes(replicatedContextsLength) + replicatedContextsLength;
      }
      assert gracefulDisconnectSequenceLength
          == |TimeOfflinePart(timeOffline)| + |DelayPart(delay)| + |ContextsPart(replicatedContexts)|;
      length := 1 + LenNbBytes(gracefulDisconnectSequenceLength) + gracefulDisconnectSequenceLength;
    }

    /**
     * `encode`: a buffer of exactly `computeLength()` octets, filled with the
     * header, the present fields and each URL in list order.
     */
    method Encode() returns (bb: ByteBuffer)
      requires Valid()
      modifies this`gracefulDisconnectSequenceLength, this`replicatedContextsLength
      ensures LengthsComputed() && fresh(bb) && bb.Valid()
      ensures bb.data.Length == bb.position && bb.data[..] == Pdu()
    {
      var length := ComputeLength();
      bb := new ByteBuffer.Allocate(length);
      EncodeAll(bb, timeOffline, delay, replicatedContexts, gracefulDisconnectSequenceLength, replicatedContextsLength);
      assert bb.data[..] == bb.data[..bb.position];
    }

  }

  /** The outer SEQUENCE header, then the fields, into an empty buffer of the exact size. */
  method EncodeAll(bb: ByteBuffer, timeOffline: int, delay: nat, urls: seq<LdapUrl>,
                   sequenceLength: nat, contextsLength: nat)
    requires IsInt(timeOffline) && bb.Valid() && bb.Written() == []
    requires sequenceLength == |GracefulDisconnectBody(timeOffline, delay, urls)|
    requires urls != [] ==> contextsLength == |ContextsBody(urls)|
    requires bb.Remaining() == 1 + LenNbBytes(sequenceLength) + sequenceLength
    modifies bb, bb.data
    ensures bb.Valid() && bb.Written() == GracefulDisconnectPdu(timeOffline, delay, urls)
  {
    ghost var header := [SEQUENCE_TAG] + LenBytes(sequenceLength);
    PutSequenceHeader(bb, sequenceLength);
    assert bb.Written() == header;
    assert bb.Remaining() == sequenceLength;
    assert sequenceLength == |TimeOfflinePart(timeOffline)| + |DelayPart(delay)| + |ContextsPart(urls)|;
    EncodeFields(bb, timeOffline, delay, urls, contextsLength);
    AppendAfter(header, TimeOfflinePart(timeOffline), DelayPart(delay), ContextsPart(urls));
    GracefulDisconnectPduParts(timeOffline, delay, urls);
  }

  /** The outer SEQUENCE tag and the length octets of its contents. */
  method PutSequenceHeader(bb: ByteBuffer, sequenceLength: nat)
    requires bb.Valid() && 1 + LenNbBytes(sequenceLength) <= bb.Remaining()
    modifies bb, bb.data
    ensures bb.Valid() && bb.Remaining() == old(bb.Remaining()) - 1 - LenNbBytes(sequenceLength)
    ensures bb.Written() == old(bb.Written()) + ([SEQUENCE_TAG] + LenBytes(sequenceLength))
  {
    var ok := bb.Put([SEQUENCE_TAG]);
    ok := bb.Put(LenBytes(sequenceLength));
    AppendAfter2(old(bb.Written()), [SEQUENCE_TAG], LenBytes(sequenceLength));
  }

  /** The PDU is the SEQUENCE header followed by the fields that are present. */
  lemma GracefulDisconnectPduParts(timeOffline: int, delay: nat, urls: seq<LdapUrl>)
    requires IsInt(timeOffline)
    ensures GracefulDisconnectPdu(timeOffline, delay, urls)
            == [SEQUENCE_TAG] + LenBytes(|GracefulDisconnectBody(timeOffline, delay, urls)|)
               + (TimeOfflinePart(timeOffline) + DelayPart(delay) + ContextsPart(urls))
  {
  }

  /** The loop of `computeLength` over the URLs: each one's tag, length octets and octets. */
  method ReplicatedContextsLength(urls: seq<LdapUrl>) returns (length: nat)
    ensures length == |ContextsBody(urls)|
  {
    length := 0;
    var i := 0;
    while i < |urls|
      invariant 0 <= i <= |urls|
      invariant length == |ContextsBody(urls[..i])|
    {
      var ldapUrlLength := |urls[i]|;
      length := length + 1 + LenNbBytes(ldapUrlLength) + ldapUrlLength;
      assert urls[..i + 1][..i] == urls[..i];
      i := i + 1;
    }
    assert urls[..i] == urls;
  }

  /**
   * The fields after the outer header: timeOffline with `BerValue.encode`, the
   * delay with three plain puts, then the replicated contexts.
   */
  method EncodeFields(bb: ByteBuffer, timeOffline: int, delay: nat, urls: seq<LdapUrl>, contextsLength: nat)
    requires IsInt(timeOffline) && bb.Valid()
    requires urls != [] ==> contextsLength == |ContextsBody(urls)|
    requires |TimeOfflinePart(timeOffline)| + |DelayPart(delay)| + |ContextsPart(urls)| <= bb.Remaining()
    modifies bb, bb.data
    ensures bb.Valid()
    ensures bb.Written() == old(bb.Written()) + TimeOfflinePart(timeOffline) + DelayPart(delay) + ContextsPart(urls)
  {
    EncodeTimeOffline(bb, timeOffline);
    EncodeDelay(bb, delay);
    if |urls| != 0 {
      EncodeContexts(bb, urls, contextsLength);
    }
  }

  /** timeOffline through `BerValue.encode(buffer, int)`, unless it is 0. */
  method EncodeTimeOffline(bb: ByteBuffer, timeOffline: int)
    requires IsInt(timeOffline) && bb.Valid() && |TimeOfflinePart(timeOffline)| <= bb.Remaining()
    modifies bb, bb.data
    ensures bb.Valid() && bb.Written() == old(bb.Written()) + TimeOfflinePart(timeOffline)
  {
    if timeOffline != 0 {
      IntegerTlvIsTlv(timeOffline);
      var r := EncodeInteger(bb, timeOffline);
    }
  }

  /** The delay's tag, its length octet from `TLV.getNbBytes`, then its contents, unless it is 0. */
  method EncodeDelay(bb: ByteBuffer, delay: nat)
    requires bb.Valid() && |DelayPart(delay)| <= bb.Remaining()
    modifies bb, bb.data
    ensures bb.Valid() && bb.Written() == old(bb.Written()) + DelayPart(delay)
  {
    if delay != 0 {
      var ok := bb.PutAll([[GRACEFUL_ACTION_DELAY_TAG], [LenNbBytes(delay)], IntBytes(delay)]);
      Flatten3([GRACEFUL_ACTION_DELAY_TAG], [LenNbBytes(delay)], IntBytes(delay));
    }
  }

  /** The inner SEQUENCE of replicated contexts, its length taken from the cached count. */
  method EncodeContexts(bb: ByteBuffer, urls: seq<LdapUrl>, contextsLength: nat)
    requires bb.Valid() && urls != [] && contextsLength == |ContextsBody(urls)|
    requires |ContextsPart(urls)| <= bb.Remaining()
    modifies bb, bb.data
    ensures bb.Valid()
    ensures bb.Written() == old(bb.Written()) + ContextsPart(urls)
  {
    var ok := bb.Put([SEQUENCE_TAG]);
    ok := bb.Put(LenBytes(contextsLength));
    EncodeUrls(bb, urls);
    AppendAfter(old(bb.Written()), [SEQUENCE_TAG], LenBytes(contextsLength), ContextsBody(urls));
  }

  /** `BerValue.encode` of each URL, in list order. */
  method EncodeUrls(bb: ByteBuffer, urls: seq<LdapUrl>)
    requires bb.Valid() && |ContextsBody(urls)| <= bb.Remaining()
    modifies bb, bb.data
    ensures bb.Valid() && bb.Written() == old(bb.Written()) + ContextsBody(urls)
  {
    var i := 0;
    while i < |urls|
      invariant 0 <= i <= |urls| && bb.Valid()
      invariant bb.Written() == old(bb.Written()) + ContextsBody(urls[..i])
      invariant |ContextsBody(urls[..i])| + bb.Remaining() >= |ContextsBody(urls)|
    {
      ContextsBodyStep(urls, i);
      var r := EncodeOctetString(bb, urls[i]);
      AppendAfter2(old(bb.Written()), ContextsBody(urls[..i]), OctetStringTlv(urls[i]));
      i := i + 1;
    }
    assert urls[..i] == urls;
  }

  /** One more URL extends the encoded prefix by its OCTET STRING, within the whole. */
  lemma ContextsBodyStep(urls: seq<LdapUrl>, i: nat)
    requires i < |urls|
    ensures ContextsBody(urls[..i + 1]) == ContextsBody(urls[..i]) + OctetStringTlv(urls[i])
    ensures |ContextsBody(urls[..i + 1])| <= |ContextsBody(urls)|
  {
    assert urls[..i + 1][..i] == urls[..i];
    ContextsBodyAppend(urls[..i + 1], urls[i + 1..]);
    assert urls[..i + 1] + urls[i + 1..] == urls;
  }

  /** Encoding the URLs of two lists one after the other encodes their concatenation. */
  lemma {:induction false} ContextsBodyAppend(a: seq<LdapUrl>, b: seq<LdapUrl>)
    ensures ContextsBody(a + b) == ContextsBody(a) + ContextsBody(b)
    decreases |b|
  {
    if b == [] {
      assert a + b == a;
    } else {
      var b', last := b[..|b| - 1], b[|b| - 1];
      assert (a + b)[..|a + b| - 1] == a + b' && (a + b)[|a + b| - 1] == last;
      ContextsBodyAppend(a, b');
      AppendAfter2(ContextsBody(a), ContextsBody(b'), OctetStringTlv(last));
    }
  }

  /** The replicated contexts read back as the same URLs, in the order they were added. */
  lemma {:induction false} ContextsRoundTrip(urls: seq<LdapUrl>)
    requires forall i :: 0 <= i < |urls| ==> |urls[i]| < 0x1_0000_0000
    ensures DecodeOctetStrings(ContextsBody(urls)) == Some(urls)
    decreases |urls|
  {
    if urls != [] {
      ContextsBodyAppend([urls[0]], urls[1..]);
      assert [urls[0]] + urls[1..] == urls;
      assert ContextsBody([urls[0]]) == OctetStringTlv(urls[0]) by {
        assert [urls[0]][..0] == urls[..0];
      }
      TlvRoundTrip(OCTET_STRING_TAG, urls[0], ContextsBody(urls[1..]));
      ContextsRoundTrip(urls[1..]);
    }
  }

  /** With every field at its DEFAULT the payload is `30 00`. */
  lemma GracefulDisconnectDefaults()
    ensures GracefulDisconnectPdu(0, 0, []) == [0x30, 0x00]
  {
  }

  /**
   * The delay's length octet is right exactly when `TLV.getNbBytes(delay)` equals
   * `BerValue.getNbBytes(delay)`: for a delay below 256, from 32768 to 65535,
   * or from 2^23 to 2^24 - 1; within the range 0..86400 of the field only the
   * first two ranges occur.
   */
  lemma DelayTlvAgreement(delay: nat)
    requires delay <= MAX_INT
    ensures DelayTlvAsWritten(delay) == DelayTlv(delay) <==> LenNbBytes(delay) == IntNbBytes(delay)
    ensures LenNbBytes(delay) == IntNbBytes(delay)
            <==> delay < 0x100 || 0x8000 <= delay < 0x1_0000 || 0x80_0000 <= delay < 0x100_0000
  {
    IntNbBytesOfInt(delay);
    assert DelayTlv(delay)[1] == IntNbBytes(delay);
    assert DelayTlvAsWritten(delay)[1] == LenNbBytes(delay);
  }

  /**
   * As written, a delay of 300 gets the length octet 3 but only two contents
   * octets, so a reader takes the next field's first octet as part of the delay.
   */
  lemma DelayOf300Misread(next: seq<byte>)
    requires |next| >= 1
    ensures DelayTlvAsWritten(300) == [0x80, 0x03, 0x01, 0x2C]
    ensures DecodeTlv(DelayTlvAsWritten(300) + next) == Some((0x80, [0x01, 0x2C, next[0]], next[1..]))
    ensures DecodeTlv(DelayTlvAsWritten(300)) == None
  {
    assert IntBytes(300) == [0x01, 0x2C];
    var s := DelayTlvAsWritten(300) + next;
    assert s[1..] == [0x03, 0x01, 0x2C] + next;
    assert s[2..5] == [0x01, 0x2C, next[0]];
    assert s[5..] == next[1..];
  }

  /** Corrected, the delay reads back as the same number, whatever follows it. */
  lemma DelayTlvRoundTrip(delay: int, rest: seq<byte>)
    requires IsInt(delay)
    ensures DecodeTlv(DelayTlv(delay) + rest) == Some((GRACEFUL_ACTION_DELAY_TAG, IntBytes(delay), rest))
    ensures TwosValue(IntBytes(delay)) == delay
  {
    IntNbBytesOfInt(delay);
    TlvRoundTrip(GRACEFUL_ACTION_DELAY_TAG, IntBytes(delay), rest);
    IntBytesRoundTrip(delay);
  }
}
