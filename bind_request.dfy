/**
 * The BindRequest message bean (section 4.2 of RFC 4511): the bind name and
 * its parsed DN, a private copy of the credentials with their hash cached as
 * a Java `int`, the simple/SASL switch, and `equals`/`hashCode`.
 */
module BindRequestImpl {
  import opened Wrappers
  import opened Ber
  import opened LdapTypes
  import opened JavaStrings

  const MODULUS: int := 0x1_0000_0000

  // ---------------------------------------------------------------------
  // The 31-multiplier hash of Java (`h = h * 31 + x` in `int` arithmetic)
  // ---------------------------------------------------------------------

  /** The fold as Java runs it: every step wrapped to 32 bits. */
  function HashFold(xs: seq<int>): (h: int)
    ensures IsInt(h)
  {
    if xs == [] then 0 else Wrap32(HashFold(xs[..|xs| - 1]) * 31 + xs[|xs| - 1])
  }

  /** The same polynomial over unbounded integers. */
  function Polynomial(xs: seq<int>): int
  {
    if xs == [] then 0 else Polynomial(xs[..|xs| - 1]) * 31 + xs[|xs| - 1]
  }

  /** Two numbers that differ by a multiple of 2^32 wrap to the same `int`. */
  lemma WrapCongruent(x: int, y: int, k: int)
    requires x == y + k * MODULUS
    ensures Wrap32(x) == Wrap32(y)
  {
    assert (x + 0x8000_0000) == (y + 0x8000_0000) + k * MODULUS;
    ModMultiple(y + 0x8000_0000, k);
  }

  lemma ModMultiple(a: int, k: int)
    ensures (a + k * MODULUS) % MODULUS == a % MODULUS
  {
    var q, r := a / MODULUS, a % MODULUS;
    assert a == q * MODULUS + r;
    assert a + k * MODULUS == (q + k) * MODULUS + r;
  }

  /** Wrapping takes away the multiple of 2^32 that brings a number into range. */
  lemma WrapBy(x: int, k: int)
    requires IsInt(x - k * MODULUS)
    ensures Wrap32(x) == x - k * MODULUS
  {
    ModMultiple(x - k * MODULUS + 0x8000_0000, k);
  }

  /** Wrapping at every step gives what wrapping once at the end gives. */
  lemma {:induction false} HashFoldIsPolynomial(xs: seq<int>)
    ensures HashFold(xs) == Wrap32(Polynomial(xs))
  {
    if xs != [] {
      var front, last := xs[..|xs| - 1], xs[|xs| - 1];
      HashFoldIsPolynomial(front);
      var p := Polynomial(front);
      var k := (Wrap32(p) - p) / MODULUS;
      assert Wrap32(p) == p + k * MODULUS;
      assert Wrap32(p) * 31 + last == p * 31 + last + (31 * k) * MODULUS;
      WrapCongruent(Wrap32(p) * 31 + last, p * 31 + last, 31 * k);
    }
  }

  /** The octets read as Java `byte`s. */
  function SignedBytes(b: seq<byte>): (r: seq<int>)
    ensures |r| == |b| && forall i :: 0 <= i < |b| ==> r[i] == Signed(b[i])
  {
    seq(|b|, i requires 0 <= i < |b| => Signed(b[i]))
  }

  /** What `setCredentials` caches: the hash of the octets, 0 for none. */
  function CredentialsHash(credentials: Option<seq<byte>>): (h: int)
    ensures IsInt(h)
  {
    if credentials.None? then 0 else HashFold(SignedBytes(credentials.value))
  }

  /** `String.hashCode`: the fold over the UTF-16 code units. */
  function StringHash(s: string): (h: int)
    ensures IsInt(h) && (s == [] ==> h == 0)
  {
    HashFold(CodeUnits(s))
  }

  /**
   * The UTF-16 code units of one character: itself below U+10000, otherwise
   * its surrogate pair.
   */
  function Utf16(c: char): (r: seq<int>)
    ensures c as int < 0x1_0000 ==> r == [c as int]
    ensures c as int >= 0x1_0000 ==>
              && |r| == 2 && 0xD800 <= r[0] < 0xDC00 && 0xDC00 <= r[1] < 0xE000
              && 0x1_0000 + (r[0] - 0xD800) * 0x400 + (r[1] - 0xDC00) == c as int
  {
    var v := c as int;
    if v < 0x1_0000 then [v]
    else [0xD800 + (v - 0x1_0000) / 0x400, 0xDC00 + (v - 0x1_0000) % 0x400]
  }

  /** The UTF-16 code units of a string, as numbers: each character's units in turn. */
  function CodeUnits(s: string): (r: seq<int>)
    ensures |s| <= |r| <= 2 * |s|
    ensures forall i :: 0 <= i < |r| ==> 0 <= r[i] < 0x1_0000
    ensures (forall i :: 0 <= i < |s| ==> s[i] as int < 0x1_0000) ==>
              |r| == |s| && forall i :: 0 <= i < |s| ==> r[i] == s[i] as int
  {
    if s == [] then [] else Utf16(s[0]) + CodeUnits(s[1..])
  }

  // ---------------------------------------------------------------------
  // equals and hashCode, on the state of a request
  // ---------------------------------------------------------------------

  /** What `equals` and `hashCode` look at, with the message part reduced to the message id. */
  datatype BindView = BindView(messageId: int, isSimple: bool, isVersion3: bool,
                               name: Option<string>, dn: Option<Dn>,
                               credentials: Option<seq<byte>>, mechanism: Option<string>)

  /** `Strings.isEmpty`. */
  predicate IsEmptyName(name: Option<string>)
  {
    name.None? || name.value == []
  }

  /**
   * `equals`: the same message id, mode and version; names that are both null
   * or empty or else the same string; DNs that are both null or empty or else
   * equal under `Dn.equals` (`dnEquals`); and credentials with the same
   * content (both null included). The SASL mechanism is not compared.
   */
  predicate SameBind(mine: BindView, theirs: BindView, dnEquals: DnEquals)
    ensures SameBind(mine, theirs, dnEquals) ==>
              && theirs.messageId == mine.messageId
              && theirs.credentials == mine.credentials
              && (IsEmptyName(mine.name) <==> IsEmptyName(theirs.name))
              && (IsNullOrEmpty(mine.dn) <==> IsNullOrEmpty(theirs.dn))
  {
    && theirs.messageId == mine.messageId
    && theirs.isSimple == mine.isSimple
    && theirs.isVersion3 == mine.isVersion3
    && (if IsEmptyName(theirs.name) then IsEmptyName(mine.name)
        else !IsEmptyName(mine.name) && mine.name == theirs.name)
    && (if IsNullOrEmpty(theirs.dn) then IsNullOrEmpty(mine.dn)
        else !IsNullOrEmpty(mine.dn) && dnEquals(theirs.dn.value, mine.dn.value))
    && theirs.credentials == mine.credentials
  }

  /** `equals` is an equivalence when `Dn.equals` is one. */
  lemma SameBindIsEquivalence(a: BindView, b: BindView, c: BindView, dnEquals: DnEquals)
    requires IsEquivalence(dnEquals)
    ensures SameBind(a, a, dnEquals)
    ensures SameBind(a, b, dnEquals) <==> SameBind(b, a, dnEquals)
    ensures SameBind(a, b, dnEquals) && SameBind(b, c, dnEquals) ==> SameBind(a, c, dnEquals)
  {
  }

  /** A null name and an empty name, a null DN and an empty DN, are not told apart. */
  lemma NullAndEmptyAlike(v: BindView, d: Dn, dnEquals: DnEquals)
    requires d.size == 0
    ensures SameBind(v.(name := None, dn := None), v.(name := Some(""), dn := Some(d)), dnEquals)
    ensures v.name.Some? && v.name.value != "" ==> !SameBind(v.(name := None), v, dnEquals)
  {
  }

  /** One step of `hash = hash * 17 + x`. */
  function Mix(hash: int, x: int): int
  {
    Wrap32(hash * 17 + x)
  }

  function FlagHash(b: bool): int
  {
    if b then 0 else 1
  }

  function NameHash(name: Option<string>): (h: int)
    ensures IsEmptyName(name) ==> h == 0
  {
    if name.None? then 0 else StringHash(name.value)
  }

  /**
   * `hashCode` as written: it mixes in the SASL mechanism and the identity
   * hash of the response (`responseHash`, 0 when there is none), neither of
   * which `equals` compares. `messageHash` is the message part's hash.
   */
  function HashCodeAsWritten(v: BindView, responseHash: int, messageHash: int -> int): (h: int)
    ensures IsInt(h)
  {
    var h := Mix(37, CredentialsHash(v.credentials));
    var h := Mix(h, FlagHash(v.isSimple));
    var h := Mix(h, FlagHash(v.isVersion3));
    var h := Mix(h, NameHash(v.mechanism));
    var h := Mix(h, NameHash(v.name));
    var h := Mix(h, responseHash);
    Mix(h, messageHash(v.messageId))
  }

  /** A request with nothing set but its defaults, and message id 0. */
  const PLAIN: BindView := BindView(0, true, true, None, None, None, None)

  lemma HashOfPlain()
    ensures HashCodeAsWritten(PLAIN, 0, _ => 0) == -1997338283
  {
    assert Mix(37, 0) == 629 && Mix(629, 0) == 10693 && Mix(10693, 0) == 181781;
    assert Mix(181781, 0) == 3090277 && Mix(3090277, 0) == 52534709;
    assert Mix(52534709, 0) == 893090053;
    WrapBy(893090053 * 17, 4);
  }

  lemma HashOfMechanismA()
    ensures HashCodeAsWritten(PLAIN.(mechanism := Some("a")), 0, _ => 0) == -1996861722
  {
    var xs := CodeUnits("a");
    assert xs == [97] && xs[..0] == [];
    assert HashFold(xs) == Wrap32(0 * 31 + 97);
    assert NameHash(Some("a")) == 97;
    assert Mix(37, 0) == 629 && Mix(629, 0) == 10693 && Mix(10693, 0) == 181781;
    assert Mix(181781, 97) == 3090374 && Mix(3090374, 0) == 52536358;
    assert Mix(52536358, 0) == 893118086;
    WrapBy(893118086 * 17, 4);
  }

  /** A name outside the Basic Multilingual Plane is hashed over its surrogate pair. */
  lemma HashOfNonBmpName()
    ensures StringHash("\U{1F600}") == 0xD83D * 31 + 0xDE00 == 1772899
  {
    var xs := CodeUnits("\U{1F600}");
    assert xs == Utf16('\U{1F600}') == [0xD83D, 0xDE00];
    assert xs[..1] == [0xD83D] && xs[..1][..0] == [];
    assert HashFold(xs[..1]) == 0xD83D;
  }

  /** Two requests that are equal, yet hash differently: they differ only in their mechanism. */
  lemma EqualRequestsHashApart(dnEquals: DnEquals)
    ensures var w := PLAIN.(mechanism := Some("a"));
            SameBind(PLAIN, w, dnEquals) && HashCodeAsWritten(PLAIN, 0, _ => 0) != HashCodeAsWritten(w, 0, _ => 0)
  {
    HashOfPlain();
    HashOfMechanismA();
  }

  /** `hashCode` over what `equals` compares only. */
  function HashCode(v: BindView, messageHash: int -> int): (h: int)
    ensures IsInt(h)
  {
    var h := Mix(37, CredentialsHash(v.credentials));
    var h := Mix(h, FlagHash(v.isSimple));
    var h := Mix(h, FlagHash(v.isVersion3));
    var h := Mix(h, NameHash(v.name));
    Mix(h, messageHash(v.messageId))
  }

  /** Equal requests hash alike. */
  lemma EqualRequestsHashAlike(a: BindView, b: BindView, messageHash: int -> int, dnEquals: DnEquals)
    requires SameBind(a, b, dnEquals)
    ensures HashCode(a, messageHash) == HashCode(b, messageHash)
  {
    assert NameHash(a.name) == NameHash(b.name);
  }

  // ---------------------------------------------------------------------
  // The request
  // ---------------------------------------------------------------------

  datatype BindError = NullPointerException | UnsupportedOperationException

  class BindResponse {
    const messageId: int

    constructor (messageId: int)
      ensures this.messageId == messageId
    {
      this.messageId := messageId;
    }
  }

  /** `new byte[n]` filled by `System.arraycopy`. */
  method Copy(source: array<byte>) returns (copy: array<byte>)
    ensures fresh(copy) && copy[..] == source[..]
  {
    copy := new byte[source.Length];
    forall i | 0 <= i < source.Length {
      copy[i] := source[i];
    }
  }

  /** The loop of `setCredentials`: `h = h * 31 + b` over the octets, in `int` arithmetic. */
  method Hash(source: array<byte>) returns (h: int)
    ensures h == HashFold(SignedBytes(source[..]))
  {
    h := 0;
    for i := 0 to source.Length
      invariant h == HashFold(SignedBytes(source[..i]))
    {
      assert SignedBytes(source[..i + 1])[..i] == SignedBytes(source[..i]);
      h := Wrap32(h * 31 + Signed(source[i]));
    }
    assert source[..source.Length] == source[..];
  }

  class BindRequestImpl {
    var messageId: int
    var dn: Option<Dn>
    var name: Option<string>
    /** The request's own copy of the credentials. */
    var credentials: array?<byte>
    /** The cached hash of the credentials. */
    var hCredentials: int
    var mechanism: Option<string>
    var isSimple: bool
    var isVersion3: bool
    var response: BindResponse?

    /** The credentials as a value. */
    function Credentials(): Option<seq<byte>>
      reads this, credentials
    {
      if credentials == null then None else Some(credentials[..])
    }

    /** The cached hash is the hash of the stored credentials. */
    predicate Valid()
      reads this, credentials
    {
      hCredentials == CredentialsHash(Credentials())
    }

    function View(): BindView
      reads this, credentials
    {
      BindView(messageId, isSimple, isVersion3, name, dn, Credentials(), mechanism)
    }

    /** A new request: message id -1, simple, version 3, no name and no credentials. */
    constructor ()
      ensures messageId == -1 && isSimple && isVersion3 && hCredentials == 0
      ensures name.None? && dn.None? && credentials == null && mechanism.None? && response == null
      ensures Valid()
    {
      messageId := -1;
      dn := None;
      name := None;
      credentials := null;
      hCredentials := 0;
      mechanism := None;
      isSimple := true;
      isVersion3 := true;
      response := null;
    }

    /**
     * `setCredentials(byte[])`: a fresh copy of the octets, or null, and their
     * hash folded octet by octet in `int` arithmetic (0 for null).
     */
    method SetCredentials(source: array?<byte>) returns (self: BindRequestImpl)
      modifies this`credentials, this`hCredentials
      ensures self == this && Valid()
      ensures source == null ==> credentials == null && hCredentials == 0
      ensures source != null ==> fresh(credentials) && credentials[..] == source[..]
      ensures source != null ==> hCredentials == Wrap32(Polynomial(SignedBytes(source[..])))
    {
      self := this;
      if source == null {
        credentials := null;
        hCredentials := 0;
        return;
      }
      credentials := Copy(source);
      hCredentials := Hash(source);
      HashFoldIsPolynomial(SignedBytes(source[..]));
    }

    /** `setCredentials(String)`: the UTF-8 octets of the string. */
    method SetCredentialsText(text: string) returns (self: BindRequestImpl)
      modifies this`credentials, this`hCredentials
      ensures self == this && Valid()
      ensures credentials != null && fresh(credentials) && credentials[..] == Utf8(text)
    {
      var octets := Utf8(text);
      var source := new byte[|octets|](i requires 0 <= i < |octets| => octets[i]);
      self := SetCredentials(source);
    }

    /** `setSaslMechanism`: the mechanism is kept and the bind is no longer simple. */
    method SetSaslMechanism(saslMechanism: Option<string>) returns (self: BindRequestImpl)
      modifies this`mechanism, this`isSimple
      ensures mechanism == saslMechanism && !isSimple && self == this
    {
      isSimple := false;
      mechanism := saslMechanism;
      self := this;
    }

    method SetSimple(simple: bool) returns (self: BindRequestImpl)
      modifies this`isSimple
      ensures isSimple == simple && self == this
    {
      isSimple := simple;
      self := this;
    }

    method SetVersion3(version3: bool) returns (self: BindRequestImpl)
      modifies this`isVersion3
      ensures isVersion3 == version3 && self == this
    {
      isVersion3 := version3;
      self := this;
    }

    method SetMessageId(id: int) returns (self: BindRequestImpl)
      modifies this`messageId
      ensures messageId == id && self == this
    {
      messageId := id;
      self := this;
    }

    /**
     * `setName`: the name is kept as given, null included; the DN is its
     * parse, or null when it does not parse. What `new Dn(null)` makes of a
     * null name is `nullDn`, since the Dn class is not part of this model.
     */
    method SetName(newName: Option<string>, parse: DnParser, nullDn: Option<Dn>) returns (self: BindRequestImpl)
      modifies this`name, this`dn
      ensures name == newName && self == this
      ensures newName.Some? ==> dn == parse(newName.value)
      ensures newName.None? ==> dn == nullDn
    {
      name := newName;
      dn := if newName.Some? then parse(newName.value) else nullDn;
      self := this;
    }

    /**
     * `setDn`: the DN is kept and the name becomes the DN's user-provided
     * form; a null DN is stored before `getName()` dereferences it.
     */
    method SetDn(newDn: Option<Dn>) returns (r: Result<BindRequestImpl, BindError>)
      modifies this`name, this`dn
      ensures dn == newDn
      ensures newDn.None? ==> r == Err(NullPointerException) && name == old(name)
      ensures newDn.Some? ==> r == Ok(this) && name == Some(newDn.value.name)
    {
      dn := newDn;
      if newDn.None? {
        return Err(NullPointerException);
      }
      name := Some(newDn.value.name);
      r := Ok(this);
    }

    /** `getResultResponse`: made once, for the current message id, then always the same object. */
    method GetResultResponse() returns (done: BindResponse)
      modifies this`response
      ensures old(response) != null ==> done == old(response)
      ensures old(response) == null ==> fresh(done) && done.messageId == messageId
      ensures response == done
    {
      if response == null {
        response := new BindResponse(messageId);
      }
      done := response;
    }

    /** `abandon`: a bind cannot be abandoned (section 4.11 of RFC 4511). */
    method Abandon() returns (r: Outcome<BindError>)
      ensures r == Fail(UnsupportedOperationException)
    {
      r := Fail(UnsupportedOperationException);
    }

    /** `equals`: the same object, or a request that `SameBind` holds of. */
    predicate Equals(other: BindRequestImpl, dnEquals: DnEquals)
      reads this, credentials, other, other.credentials
      ensures other == this ==> Equals(other, dnEquals)
      ensures Equals(other, dnEquals) && other != this ==> other.messageId == messageId
    {
      other == this || SameBind(View(), other.View(), dnEquals)
    }

    /** `hashCode`, from the cached credentials hash; `responseHash` is the response's identity hash. */
    method HashCodeOf(responseHash: int, messageHash: int -> int) returns (h: int)
      requires Valid()
      requires response == null ==> responseHash == 0
      ensures h == HashCodeAsWritten(View(), responseHash, messageHash)
    {
      h := 37;
      h := Mix(h, if credentials == null then 0 else hCredentials);
      h := Mix(h, FlagHash(isSimple));
      h := Mix(h, FlagHash(isVersion3));
      h := Mix(h, NameHash(mechanism));
      h := Mix(h, NameHash(name));
      h := Mix(h, if response == null then 0 else responseHash);
      h := Mix(h, messageHash(messageId));
    }
  }

  /** The stored credentials are a copy: writing to the caller's array afterwards leaves them as they were. */
  method CredentialsAreCopied(request: BindRequestImpl, source: array<byte>, b: byte)
    requires source.Length > 0
    modifies request, source
    ensures request.Credentials() == Some(old(source[..]))
    ensures source[0] == b
  {
    var _ := request.SetCredentials(source);
    source[0] := b;
  }
}
