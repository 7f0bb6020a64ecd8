/**
 * A `java.nio.ByteBuffer` as the encoders use it: a fixed backing array that is
 * filled from a moving position. A `put` either writes all of its octets or,
 * when they do not fit, writes nothing and raises `BufferOverflowException`.
 */
module ByteBuffers {
  import opened Wrappers
  import opened Ber

  /** The octets of consecutive puts, in order. */
  function Flatten(parts: seq<seq<byte>>): seq<byte>
  {
    if parts == [] then [] else parts[0] + Flatten(parts[1..])
  }

  lemma {:induction false} FlattenSnoc(parts: seq<seq<byte>>, last: seq<byte>)
    ensures Flatten(parts + [last]) == Flatten(parts) + last
  {
    if parts == [] {
      assert parts + [last] == [last];
    } else {
      assert (parts + [last])[1..] == parts[1..] + [last];
      FlattenSnoc(parts[1..], last);
    }
  }

  lemma Flatten3(a: seq<byte>, b: seq<byte>, c: seq<byte>)
    ensures Flatten([a, b, c]) == a + b + c
  {
    assert [a, b, c][1..] == [b, c];
    assert [b, c][1..] == [c];
    assert [c][1..] == [];
    assert Flatten([c]) == c + [] == c;
    assert Flatten([b, c]) == b + c;
    assert Flatten([a, b, c]) == a + (b + c);
  }

  lemma Flatten5(a: seq<byte>, b: seq<byte>, c: seq<byte>, d: seq<byte>, e: seq<byte>)
    ensures Flatten([a, b, c, d, e]) == a + b + c + d + e
  {
    assert [a, b, c, d, e][1..] == [b, c, d, e];
    assert [b, c, d, e][1..] == [c, d, e];
    assert [c, d, e][1..] == [d, e];
    assert [d, e][1..] == [e];
    assert [e][1..] == [];
    assert Flatten([e]) == e + [] == e;
    assert Flatten([d, e]) == d + e;
    assert Flatten([c, d, e]) == c + (d + e);
    assert Flatten([b, c, d, e]) == b + (c + d + e);
    assert Flatten([a, b, c, d, e]) == a + (b + c + d + e);
  }

  /** Octets appended after a prefix: the grouping of the appended parts does not matter. */
  lemma AppendAfter(w: seq<byte>, a: seq<byte>, b: seq<byte>, c: seq<byte>)
    ensures w + a + b + c == w + (a + b + c)
  {
  }

  /** Octets appended after a prefix, in two parts. */
  lemma AppendAfter2(w: seq<byte>, a: seq<byte>, b: seq<byte>)
    ensures w + a + b == w + (a + b)
  {
  }

  /** A prefix that stops within a first part sees only that part. */
  lemma PrefixWithinFirst(a: seq<byte>, b: seq<byte>, k: nat)
    requires k <= |a|
    ensures (a + b)[..k] == a[..k]
  {
  }

  /** A prefix that runs past a first part keeps that part whole. */
  lemma PrefixPastFirst(a: seq<byte>, b: seq<byte>, k: nat)
    requires k <= |b|
    ensures (a + b)[..|a| + k] == a + b[..k]
  {
  }

  /** The octets of the first j puts are a prefix of the octets of all of them. */
  lemma {:induction false} FlattenPrefix(parts: seq<seq<byte>>, j: nat)
    requires j <= |parts|
    ensures |Flatten(parts[..j])| <= |Flatten(parts)|
    ensures Flatten(parts)[..|Flatten(parts[..j])|] == Flatten(parts[..j])
  {
    if j < |parts| {
      var init := parts[..|parts| - 1];
      assert init[..j] == parts[..j];
      assert parts == init + [parts[|parts| - 1]];
      FlattenSnoc(init, parts[|parts| - 1]);
      FlattenPrefix(init, j);
    } else {
      assert parts[..j] == parts;
    }
  }

  /** Why an encoder failed. */
  datatype EncodeError =
    | EncoderException(reason: EncodeFailure)
    /** A `BufferOverflowException` that the encoder lets escape. */
    | BufferOverflowException

  datatype EncodeFailure = NullBuffer | PduBufferTooSmall

  class ByteBuffer {
    const data: array<byte>
    var position: nat
    /** The octets put so far: the backing array up to the position. */
    ghost var written: seq<byte>

    ghost predicate Valid()
      reads this, data
    {
      position <= data.Length && written == data[..position]
    }

    /** The room left before the end of the backing array. */
    function Remaining(): nat
      reads this, data
      requires Valid()
    {
      data.Length - position
    }

    /** The octets written so far. */
    ghost function Written(): (w: seq<byte>)
      reads this
    {
      written
    }

    /** `ByteBuffer.allocate(capacity)`: a zero-filled buffer at position 0. */
    constructor Allocate(capacity: nat)
      ensures Valid() && fresh(data) && Written() == []
      ensures data.Length == capacity && position == 0
      ensures data[..] == seq(capacity, _ => 0)
    {
      data := new byte[capacity](_ => 0);
      position := 0;
      written := [];
    }

    /** `put(byte[])`, and `put(byte)` for a one-octet sequence. */
    method Put(bytes: seq<byte>) returns (ok: bool)
      requires Valid()
      modifies this, data
      ensures Valid()
      ensures ok == (|bytes| <= old(Remaining()))
      ensures ok ==> position == old(position) + |bytes|
      ensures ok ==> Written() == old(Written()) + bytes
      ensures !ok ==> position == old(position) && Written() == old(Written()) && data[..] == old(data[..])
    {
      if |bytes| > data.Length - position {
        return false;
      }
      var i := 0;
      while i < |bytes|
        invariant 0 <= i <= |bytes| && written == old(written)
        invariant position == old(position) && position + |bytes| <= data.Length
        invariant data[..position] == old(data[..position])
        invariant data[position..position + i] == bytes[..i]
        invariant data[position + i..] == old(data[position + i..])
      {
        data[position + i] := bytes[i];
        i := i + 1;
      }
      assert bytes[..|bytes|] == bytes;
      assert data[..position + |bytes|] == data[..position] + data[position..position + |bytes|];
      assert written == data[..position];
      position := position + |bytes|;
      written := written + bytes;
      return true;
    }

    /**
     * Consecutive `put` calls: each part is written whole, and the first one
     * that does not fit raises `BufferOverflowException`, so that the buffer
     * then holds the parts before it.
     */
    method PutAll(parts: seq<seq<byte>>) returns (ok: bool)
      requires Valid()
      modifies this, data
      ensures Valid() && old(position) <= position
      ensures ok <==> |Flatten(parts)| <= old(Remaining())
      ensures ok ==> Written() == old(Written()) + Flatten(parts)
      ensures !ok ==> position - old(position) < |Flatten(parts)|
      ensures Written() == old(Written()) + Flatten(parts)[..position - old(position)]
    {
      var i := 0;
      ok := true;
      while i < |parts| && ok
        invariant 0 <= i <= |parts| && Valid() && old(position) <= position
        invariant ok ==> Written() == old(Written()) + Flatten(parts[..i])
        invariant ok ==> position - old(position) == |Flatten(parts[..i])|
        invariant !ok ==> i >= 1 && Written() == old(Written()) + Flatten(parts[..i - 1])
        invariant !ok ==> position - old(position) == |Flatten(parts[..i - 1])|
        invariant !ok ==> |Flatten(parts[..i])| > old(Remaining())
      {
        assert parts[..i + 1] == parts[..i] + [parts[i]];
        FlattenSnoc(parts[..i], parts[i]);
        ok := Put(parts[i]);
        i := i + 1;
      }
      if ok {
        assert parts[..i] == parts;
      } else {
        FlattenPrefix(parts, i);
        FlattenPrefix(parts, i - 1);
      }
    }
  }

  /**
   * `BerValue.encode(buffer, byte[])`: an OCTET STRING TLV; an overflow
   * surfaces as `EncoderException`.
   */
  method EncodeOctetString(buffer: ByteBuffer, value: seq<byte>) returns (r: Outcome<EncodeError>)
    requires buffer.Valid()
    modifies buffer, buffer.data
    ensures buffer.Valid() && old(buffer.position) <= buffer.position
    ensures r.Pass? <==> |OctetStringTlv(value)| <= old(buffer.Remaining())
    ensures r.Pass? ==> buffer.Written() == old(buffer.Written()) + OctetStringTlv(value)
    ensures r.Fail? ==> r.error == EncoderException(PduBufferTooSmall)
    ensures r.Fail? ==> buffer.position - old(buffer.position) < |OctetStringTlv(value)|
  {
    var ok := buffer.PutAll([[OCTET_STRING_TAG], LenBytes(|value|), value]);
    Flatten3([OCTET_STRING_TAG], LenBytes(|value|), value);
    r := if ok then Pass else Fail(EncoderException(PduBufferTooSmall));
  }

  /**
   * `BerValue.encode(buffer, int)` and `BerValue.encode(buffer, long)`: an INTEGER
   * TLV; an overflow surfaces as `EncoderException`.
   */
  method EncodeInteger(buffer: ByteBuffer, v: int) returns (r: Outcome<EncodeError>)
    requires buffer.Valid() && IsLong(v)
    modifies buffer, buffer.data
    ensures buffer.Valid() && old(buffer.position) <= buffer.position
    ensures r.Pass? <==> |IntegerTlv(v)| <= old(buffer.Remaining())
    ensures r.Pass? ==> buffer.Written() == old(buffer.Written()) + IntegerTlv(v)
    ensures r.Fail? ==> r.error == EncoderException(PduBufferTooSmall)
    ensures r.Fail? ==> buffer.position - old(buffer.position) < |IntegerTlv(v)|
  {
    IntNbBytesOfLong(v);
    var ok := buffer.PutAll([[INTEGER_TAG], [IntNbBytes(v)], IntBytes(v)]);
    Flatten3([INTEGER_TAG], [IntNbBytes(v)], IntBytes(v));
    r := if ok then Pass else Fail(EncoderException(PduBufferTooSmall));
  }
}
