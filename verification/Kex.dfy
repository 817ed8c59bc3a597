/** The exchange of KEXINIT messages and the input of the exchange hash (RFC 4253, sections 7.1 and 8). */
module Kex {
  import opened Bytes
  import opened Mpint
  import opened Wire

  const KEX_METHODS := 10
  const MSG_KEXINIT := 20

  /** What one side proposes: a cookie of 16 bytes and ten name lists, each the bytes before its terminator. */
  datatype Proposal = Proposal(cookie: seq<byte>, methods: seq<bytes>)

  predicate WellFormed(p: Proposal) {
    |p.cookie| == 16 && |p.methods| == KEX_METHODS
  }

  predicate Short(ms: seq<bytes>) {
    forall i :: 0 <= i < |ms| ==> |ms[i]| <= STRING_SIZE_MAX
  }

  // The message

  function Str(m: seq<byte>): seq<byte> {
    BigEndian(|m|, 4) + m
  }

  function Lists(ms: seq<bytes>): seq<byte> {
    if ms == [] then [] else Str(ms[0]) + Lists(ms[1..])
  }

  /** The message without its two final fields. */
  function Head(p: Proposal): seq<byte> {
    [MSG_KEXINIT] + p.cookie + Lists(p.methods)
  }

  /** The two final fields: whether a guessed packet follows, and a reserved number. */
  function Tail(follows: byte, reserved: u32): (t: seq<byte>)
    ensures |t| == 5
  {
    [follows] + BigEndian(reserved, 4)
  }

  function KexInit(p: Proposal, follows: byte, reserved: u32): seq<byte> {
    Head(p) + Tail(follows, reserved)
  }

  lemma {:induction false} ListsAppend(ms: seq<bytes>, m: bytes)
    ensures Lists(ms + [m]) == Lists(ms) + Str(m)
  {
    if ms == [] {
      assert [m][1..] == [] && Str(m) + [] == [] + Str(m);
    } else {
      ListsAppend(ms[1..], m);
      assert (ms + [m])[1..] == ms[1..] + [m];
      assert Str(ms[0]) + (Lists(ms[1..]) + Str(m)) == Str(ms[0]) + Lists(ms[1..]) + Str(m);
    }
  }

  function Flatten(parts: seq<seq<byte>>): seq<byte> {
    if parts == [] then [] else parts[0] + Flatten(parts[1..])
  }

  lemma {:induction false} ListsFlat(ms: seq<bytes>, strs: seq<seq<byte>>)
    requires |strs| == |ms| && forall i :: 0 <= i < |ms| ==> strs[i] == Str(ms[i])
    ensures Flatten(strs) == Lists(ms)
    decreases |ms|
  {
    if ms != [] {
      ListsFlat(ms[1..], strs[1..]);
    }
  }

  lemma FiveZeros()
    ensures Tail(0, 0) == [0, 0, 0, 0, 0]
  {
    assert BigEndian(0, 1) == [0];
    assert BigEndian(0, 2) == [0, 0];
    assert BigEndian(0, 3) == [0, 0, 0];
  }

  /** The bytes of the message section 7.1 of RFC 4253 describes. */
  lemma MessageBytes(p: Proposal)
    requires WellFormed(p)
    ensures var m := p.methods;
      KexInit(p, 0, 0) == [20] + p.cookie + Flatten([
        Str(m[0]), Str(m[1]), Str(m[2]), Str(m[3]), Str(m[4]),
        Str(m[5]), Str(m[6]), Str(m[7]), Str(m[8]), Str(m[9])]) + [0, 0, 0, 0, 0]
  {
    var m := p.methods;
    ListsFlat(m, [
      Str(m[0]), Str(m[1]), Str(m[2]), Str(m[3]), Str(m[4]), Str(m[5]), Str(m[6]), Str(m[7]), Str(m[8]), Str(m[9])]);
    FiveZeros();
  }

  // Reading it

  /** `n` more strings after those in `done`, and what follows them. */
  function Parse(n: nat, done: seq<bytes>, bs: seq<byte>): Option<(seq<bytes>, seq<byte>)> {
    if n == 0 then Some((done, bs))
    else
      var t := TakeString(bs);
      if t.ok then Parse(n - 1, done + [t.value], t.rest) else None
  }

  lemma TakenString(done: seq<bytes>, bs: seq<byte>)
    requires TakeString(bs).ok
    ensures Lists(done + [TakeString(bs).value]) + TakeString(bs).rest == Lists(done) + bs
  {
    var t := TakeString(bs);
    var ls, str, rest := Lists(done), Str(t.value), t.rest;
    assert str + rest == bs by {
      StringSplit(bs);
    }
    ListsAppend(done, t.value);
    Associate(ls, str, rest);
  }

  lemma {:induction false} ParseSound(n: nat, done: seq<bytes>, bs: seq<byte>)
    requires Parse(n, done, bs).Some?
    ensures var r := Parse(n, done, bs).value; |r.0| == |done| + n && Lists(r.0) + r.1 == Lists(done) + bs
    ensures Short(done) ==> Short(Parse(n, done, bs).value.0)
  {
    if n > 0 {
      var t := TakeString(bs);
      ParseSound(n - 1, done + [t.value], t.rest);
      TakenString(done, bs);
    }
  }

  lemma StringInFront(m: bytes, more: seq<byte>)
    requires |m| <= STRING_SIZE_MAX
    ensures TakeString(Str(m) + more) == Decoded(true, m, more)
  {
    var tail: seq<byte> := m;
    StringTaken(m, more);
    assert (tail + more)[..|m|] == m && (tail + more)[|m|..] == more;
  }

  lemma {:induction false} ParseComplete(done: seq<bytes>, ms: seq<bytes>, rest: seq<byte>)
    requires Short(ms)
    ensures Parse(|ms|, done, Lists(ms) + rest) == Some((done + ms, rest))
    decreases |ms|
  {
    if ms == [] {
      assert [] + rest == rest && done + ms == done;
    } else {
      var m: bytes, more: seq<byte> := ms[0], Lists(ms[1..]) + rest;
      Associate(Str(m), Lists(ms[1..]), rest);
      StringInFront(m, more);
      ParseComplete(done + [m], ms[1..], rest);
      assert ms == [m] + ms[1..];
      assert done + [m] + ms[1..] == done + ms;
    }
  }

  /** The strings as the receiver keeps them: each ends where its first zero byte is. */
  function CStrings(ms: seq<bytes>): seq<bytes> {
    seq(|ms|, i requires 0 <= i < |ms| => UpToNul(ms[i]))
  }

  predicate ZeroFree(ms: seq<bytes>) {
    forall i :: 0 <= i < |ms| ==> 0 !in ms[i]
  }

  lemma CStringsSame(ms: seq<bytes>)
    requires ZeroFree(ms)
    ensures CStrings(ms) == ms
  {
    forall i | 0 <= i < |ms| ensures UpToNul(ms[i]) == ms[i] {
      UpToNulSame(ms[i]);
    }
  }

  /** What the receiver hashes of a packet: the reserved number is not read but taken to be zero. */
  function Hashed(server: bool, packet: seq<byte>): Option<seq<byte>> {
    if |packet| < 16 then None
    else
      var p := Parse(KEX_METHODS, [], packet[16..]);
      if p.None? then None
      else
        var head := [MSG_KEXINIT] + packet[..16] + Lists(p.value.0);
        if !server then Some(head)
        else if p.value.1 == [] then None
        else Some(head + [p.value.1[0]] + BigEndian(0, 4))
  }

  /** A packet is acceptable exactly if it is a cookie, ten strings and whatever follows, on the server something. */
  lemma AcceptedExactly(server: bool, packet: seq<byte>)
    ensures Hashed(server, packet).Some? <==> (|packet| >= 16 && exists ms: seq<bytes>, rest: seq<byte> ::
      |ms| == 10 && Short(ms) && packet[16..] == Lists(ms) + rest && (server ==> rest != []))
  {
    if |packet| >= 16 {
      var p := Parse(KEX_METHODS, [], packet[16..]);
      if p.Some? {
        ParseSound(KEX_METHODS, [], packet[16..]);
        assert Lists([]) + packet[16..] == packet[16..];
        assert packet[16..] == Lists(p.value.0) + p.value.1;
      }
      forall ms: seq<bytes>, rest: seq<byte> | |ms| == 10 && Short(ms) && packet[16..] == Lists(ms) + rest
        ensures p == Some((ms, rest))
      {
        ParseComplete([], ms, rest);
        assert [] + ms == ms;
      }
    }
  }

  /** What goes into the exchange hash for the peer's message. */
  function HashedAtEnd(server: bool, packet: seq<byte>): Option<seq<byte>> {
    var h := Hashed(server, packet);
    if h.None? then None else Some(if server then h.value else h.value + [0] + BigEndian(0, 4))
  }

  lemma HashedParts(server: bool, p: Proposal, rest: seq<byte>)
    requires WellFormed(p) && Short(p.methods) && (server ==> rest != [])
    ensures Hashed(server, p.cookie + (Lists(p.methods) + rest))
      == Some(if server then Head(p) + [rest[0]] + BigEndian(0, 4) else Head(p))
  {
    var packet := p.cookie + (Lists(p.methods) + rest);
    assert packet[..16] == p.cookie && packet[16..] == Lists(p.methods) + rest;
    ParseComplete([], p.methods, rest);
    assert [] + p.methods == p.methods;
  }

  lemma MessageParts(p: Proposal, t: seq<byte>, extra: seq<byte>)
    ensures (Head(p) + t + extra)[1..] == p.cookie + (Lists(p.methods) + (t + extra))
  {
  }

  lemma HashedMessage(server: bool, p: Proposal, follows: byte, reserved: u32, extra: seq<byte>)
    requires WellFormed(p) && Short(p.methods)
    ensures HashedAtEnd(server, (KexInit(p, follows, reserved) + extra)[1..])
      == Some(Head(p) + Tail(if server then follows else 0, 0))
  {
    var t := Tail(follows, reserved);
    MessageParts(p, t, extra);
    HashedParts(server, p, t + extra);
    var f: byte := if server then follows else 0;
    assert Head(p) + [f] + BigEndian(0, 4) == Head(p) + Tail(f, 0);
  }

  lemma SameTail(p: Proposal, f: byte, g: byte, reserved: u32, extra: seq<byte>)
    ensures Head(p) + Tail(f, 0) == KexInit(p, g, reserved) + extra <==> f == g && reserved == 0 && extra == []
  {
    var h, s, t := Head(p), Tail(f, 0), Tail(g, reserved);
    assert extra == [] ==> h + t + extra == h + t;
    if h + s == h + t + extra {
      assert |h + s| == |h + t + extra|;
      assert extra == [];
      assert s == (h + s)[|h|..] == (h + t + extra)[|h|..] == t;
      assert f == s[0] == t[0] == g;
      assert BigEndian(0, 4) == s[1..] == t[1..] == BigEndian(reserved, 4);
      PowersOf256();
      ValueOfBigEndian(0, 4);
      ValueOfBigEndian(reserved, 4);
    }
  }

  /**
   * The receiver hashes the message byte for byte exactly when the reserved number is zero, nothing follows it,
   * and, on the client, the server did not announce a guessed packet.
   */
  lemma HashedExactly(server: bool, p: Proposal, follows: byte, reserved: u32, extra: seq<byte>)
    requires WellFormed(p) && Short(p.methods)
    ensures var message := KexInit(p, follows, reserved) + extra;
      HashedAtEnd(server, message[1..]) == Some(message) <==> reserved == 0 && extra == [] && (server || follows == 0)
  {
    HashedMessage(server, p, follows, reserved, extra);
    SameTail(p, if server then follows else 0, follows, reserved, extra);
  }

  // The input of the exchange hash

  /** What is specific to a family of key exchanges: the public values and, for the group exchange, the group. */
  datatype Keys =
    | Dh(e: nat, f: nat)
    | Gex(pmin: u32, pn: u32, pmax: u32, p: nat, g: nat, e: nat, f: nat)
    | Ecdh(qc: bytes, qs: bytes)
    | Curve25519(qc: bytes, qs: bytes)

  /** Both banners, both KEXINIT messages, the host key, the public values and the secret. */
  datatype Transcript = Transcript(
    clientBanner: bytes, serverBanner: bytes, clientInit: bytes, serverInit: bytes,
    hostKey: bytes, keys: Keys, secret: nat)

  predicate SameFamily(a: Keys, b: Keys) {
    a.Dh? == b.Dh? && a.Gex? == b.Gex? && a.Ecdh? == b.Ecdh? && a.Curve25519? == b.Curve25519?
  }

  function KeyFields(k: Keys): seq<Arg> {
    match k
    case Dh(e, f) => [Big(e), Big(f)]
    case Gex(pmin, pn, pmax, p, g, e, f) => [U32(pmin), U32(pn), U32(pmax), Big(p), Big(g), Big(e), Big(f)]
    case Ecdh(qc, qs) => [SshString(qc), SshString(qs)]
    case Curve25519(qc, qs) => [CString(qc), CString(qs)]
  }

  function Strings(t: Transcript): seq<Arg> {
    [CString(t.clientBanner), CString(t.serverBanner), CString(t.clientInit), CString(t.serverInit),
     SshString(t.hostKey)]
  }

  /** The fields in the order the standard lists them: strings and multiple precision integers. */
  function Fields(t: Transcript): seq<Arg> {
    Strings(t) + KeyFields(t.keys) + [Big(t.secret)]
  }

  function Letters(args: seq<Arg>): string {
    seq(|args|, i requires 0 <= i < |args| => Letter(args[i]))
  }

  /** Packing by the format the arguments call for. */
  function Pack(args: seq<Arg>): Option<seq<byte>> {
    EncodeAll(Letters(args), args)
  }

  function Preimage(t: Transcript): Option<seq<byte>> {
    Pack(Fields(t))
  }

  function Join(a: Option<seq<byte>>, b: Option<seq<byte>>): Option<seq<byte>> {
    if a.Some? && b.Some? then Some(a.value + b.value) else None
  }

  lemma PackConcat(a: seq<Arg>, b: seq<Arg>)
    ensures Pack(a + b) == Join(Pack(a), Pack(b))
  {
    assert Letters(a + b) == Letters(a) + Letters(b);
    PackingComposes(Letters(a), Letters(b), a, b);
  }

  lemma PackOne(a: Arg)
    ensures Pack([a]) == Encode(a)
  {
    var f := Letters([a]);
    assert f[0] == Letter(a) && f[0] in LETTERS && f[1..] == "" && [a][1..] == [];
    assert EncodeAll(f[1..], [a][1..]) == Some([]);
    assert Encode(a).Some? ==> Encode(a).value + [] == Encode(a).value;
  }

  // The bytes of the input

  /** Packing is putting the encodings of the arguments in a row. */
  lemma {:induction false} PackIs(args: seq<Arg>, parts: seq<seq<byte>>)
    requires |args| == |parts| && forall i :: 0 <= i < |args| ==> Encode(args[i]) == Some(parts[i])
    ensures Pack(args) == Some(Flatten(parts))
    decreases |args|
  {
    if args != [] {
      assert Letters(args)[1..] == Letters(args[1..]) && Letters(args)[0] == Letter(args[0]);
      PackIs(args[1..], parts[1..]);
    }
  }

  lemma {:induction false} PackNeeds(args: seq<Arg>)
    ensures Pack(args).Some? ==> forall i :: 0 <= i < |args| ==> Encode(args[i]).Some?
    decreases |args|
  {
    if args != [] {
      assert Letters(args)[1..] == Letters(args[1..]) && Letters(args)[0] == Letter(args[0]);
      PackNeeds(args[1..]);
    }
  }

  /** A number as a string: its length, and its bytes with the sign bit clear. */
  function Number(n: nat): seq<byte>
    requires MakeBignumString(n).Some?
  {
    Str(MakeBignumString(n).value)
  }

  lemma PackAround(head: seq<Arg>, keys: seq<Arg>, last: Arg, h: seq<seq<byte>>, k: seq<seq<byte>>, l: seq<byte>)
    requires |head| == |h| && forall i :: 0 <= i < |h| ==> Encode(head[i]) == Some(h[i])
    requires |keys| == |k| && forall i :: 0 <= i < |k| ==> Encode(keys[i]) == Some(k[i])
    requires Encode(last) == Some(l)
    ensures Pack(head + keys + [last]) == Some(Flatten(h + k + [l]))
  {
    PackIs(head + keys + [last], h + k + [l]);
  }

  lemma InputIs(t: Transcript, public: seq<seq<byte>>)
    requires |t.hostKey| <= STRING_SIZE_MAX && MakeBignumString(t.secret).Some?
    requires |public| == |KeyFields(t.keys)|
    requires forall i :: 0 <= i < |public| ==> Encode(KeyFields(t.keys)[i]) == Some(public[i])
    ensures Preimage(t) == Some(Flatten(
      [Str(t.clientBanner), Str(t.serverBanner), Str(t.clientInit), Str(t.serverInit), Str(t.hostKey)]
      + public + [Number(t.secret)]))
  {
    PackAround(Strings(t), KeyFields(t.keys), Big(t.secret),
      [Str(t.clientBanner), Str(t.serverBanner), Str(t.clientInit), Str(t.serverInit), Str(t.hostKey)],
      public, Number(t.secret));
  }

  lemma InputNeeds(t: Transcript)
    ensures Preimage(t).Some? ==> |t.hostKey| <= STRING_SIZE_MAX && MakeBignumString(t.secret).Some?
    ensures Preimage(t).Some? ==> forall i :: 0 <= i < |KeyFields(t.keys)| ==> Encode(KeyFields(t.keys)[i]).Some?
  {
    var fields, k := Fields(t), KeyFields(t.keys);
    PackNeeds(fields);
    assert fields[4] == SshString(t.hostKey) && fields[5 + |k|] == Big(t.secret);
    assert forall i :: 0 <= i < |k| ==> k[i] == fields[5 + i];
  }

  /** What the Diffie-Hellman exchange hashes (RFC 4253, section 8). */
  lemma DhPreimage(t: Transcript, e: nat, f: nat)
    requires t.keys == Dh(e, f)
    ensures Preimage(t).Some? <==> (|t.hostKey| <= STRING_SIZE_MAX && MakeBignumString(t.secret).Some?
      && MakeBignumString(e).Some? && MakeBignumString(f).Some?)
    ensures Preimage(t).Some? ==> Preimage(t).value == Flatten(
      [Str(t.clientBanner), Str(t.serverBanner), Str(t.clientInit), Str(t.serverInit), Str(t.hostKey)]
      + [Number(e), Number(f)] + [Number(t.secret)])
  {
    InputNeeds(t);
    var k := KeyFields(t.keys);
    assert k[0] == Big(e) && k[1] == Big(f);
    if |t.hostKey| <= STRING_SIZE_MAX && MakeBignumString(t.secret).Some? && Encode(k[0]).Some? && Encode(k[1]).Some? {
      InputIs(t, [Number(e), Number(f)]);
    }
  }

  /** What the exchange with a negotiated group hashes (RFC 4419, section 3). */
  lemma GexPreimage(t: Transcript, pmin: u32, pn: u32, pmax: u32, p: nat, g: nat, e: nat, f: nat)
    requires t.keys == Gex(pmin, pn, pmax, p, g, e, f)
    ensures Preimage(t).Some? <==> (|t.hostKey| <= STRING_SIZE_MAX && MakeBignumString(t.secret).Some?
      && MakeBignumString(p).Some? && MakeBignumString(g).Some? && MakeBignumString(e).Some?
      && MakeBignumString(f).Some?)
    ensures Preimage(t).Some? ==> Preimage(t).value == Flatten(
      [Str(t.clientBanner), Str(t.serverBanner), Str(t.clientInit), Str(t.serverInit), Str(t.hostKey)]
      + [BigEndian(pmin, 4), BigEndian(pn, 4), BigEndian(pmax, 4), Number(p), Number(g), Number(e), Number(f)]
      + [Number(t.secret)])
  {
    InputNeeds(t);
    var k := KeyFields(t.keys);
    assert k[3] == Big(p) && k[4] == Big(g) && k[5] == Big(e) && k[6] == Big(f);
    if |t.hostKey| <= STRING_SIZE_MAX && MakeBignumString(t.secret).Some?
      && Encode(k[3]).Some? && Encode(k[4]).Some? && Encode(k[5]).Some? && Encode(k[6]).Some? {
      InputIs(t,
        [BigEndian(pmin, 4), BigEndian(pn, 4), BigEndian(pmax, 4), Number(p), Number(g), Number(e), Number(f)]);
    }
  }

  /** What the elliptic curve exchange hashes (RFC 5656, section 4). */
  lemma EcdhPreimage(t: Transcript, qc: bytes, qs: bytes)
    requires t.keys == Ecdh(qc, qs)
    ensures Preimage(t).Some? <==> (|t.hostKey| <= STRING_SIZE_MAX && MakeBignumString(t.secret).Some?
      && |qc| <= STRING_SIZE_MAX && |qs| <= STRING_SIZE_MAX)
    ensures Preimage(t).Some? ==> Preimage(t).value == Flatten(
      [Str(t.clientBanner), Str(t.serverBanner), Str(t.clientInit), Str(t.serverInit), Str(t.hostKey)]
      + [Str(qc), Str(qs)] + [Number(t.secret)])
  {
    InputNeeds(t);
    var k := KeyFields(t.keys);
    assert k[0] == SshString(qc) && k[1] == SshString(qs);
    if |t.hostKey| <= STRING_SIZE_MAX && MakeBignumString(t.secret).Some? && Encode(k[0]).Some? && Encode(k[1]).Some? {
      InputIs(t, [Str(qc), Str(qs)]);
    }
  }

  /** What the Curve25519 exchange hashes (RFC 8731, section 3). */
  lemma Curve25519Preimage(t: Transcript, qc: bytes, qs: bytes)
    requires t.keys == Curve25519(qc, qs)
    ensures Preimage(t).Some? <==> (|t.hostKey| <= STRING_SIZE_MAX && MakeBignumString(t.secret).Some?)
    ensures Preimage(t).Some? ==> Preimage(t).value == Flatten(
      [Str(t.clientBanner), Str(t.serverBanner), Str(t.clientInit), Str(t.serverInit), Str(t.hostKey)]
      + [Str(qc), Str(qs)] + [Number(t.secret)])
  {
    InputNeeds(t);
    if |t.hostKey| <= STRING_SIZE_MAX && MakeBignumString(t.secret).Some? {
      InputIs(t, [Str(qc), Str(qs)]);
    }
  }

  /** The public values have encodings. */
  predicate Encodable(keys: Keys) {
    match keys
    case Dh(e, f) => MakeBignumString(e).Some? && MakeBignumString(f).Some?
    case Gex(_, _, _, p, g, e, f) =>
      MakeBignumString(p).Some? && MakeBignumString(g).Some? && MakeBignumString(e).Some? && MakeBignumString(f).Some?
    case Ecdh(qc, qs) => |qc| <= STRING_SIZE_MAX && |qs| <= STRING_SIZE_MAX
    case Curve25519(_, _) => true
  }

  /** The four families together. */
  lemma InputBytes(t: Transcript)
    ensures Preimage(t).Some? <==>
      (|t.hostKey| <= STRING_SIZE_MAX && MakeBignumString(t.secret).Some? && Encodable(t.keys))
    ensures Preimage(t).Some? ==> Preimage(t).value == Flatten(
      [Str(t.clientBanner), Str(t.serverBanner), Str(t.clientInit), Str(t.serverInit), Str(t.hostKey)]
      + (match t.keys
         case Dh(e, f) => [Number(e), Number(f)]
         case Gex(pmin, pn, pmax, p, g, e, f) =>
           [BigEndian(pmin, 4), BigEndian(pn, 4), BigEndian(pmax, 4), Number(p), Number(g), Number(e), Number(f)]
         case Ecdh(qc, qs) => [Str(qc), Str(qs)]
         case Curve25519(qc, qs) => [Str(qc), Str(qs)])
      + [Number(t.secret)])
  {
    match t.keys
    case Dh(e, f) => DhPreimage(t, e, f);
    case Gex(pmin, pn, pmax, p, g, e, f) => GexPreimage(t, pmin, pn, pmax, p, g, e, f);
    case Ecdh(qc, qs) => EcdhPreimage(t, qc, qs);
    case Curve25519(qc, qs) => Curve25519Preimage(t, qc, qs);
  }

  /** A length and raw bytes are what a string is. */
  lemma LengthThenRaw(s: bytes)
    ensures Pack([U32(|s|), Raw(s)]) == Pack([CString(s)])
  {
    PackConcat([U32(|s|)], [Raw(s)]);
    assert [U32(|s|)] + [Raw(s)] == [U32(|s|), Raw(s)];
    PackOne(U32(|s|));
    PackOne(Raw(s));
    PackOne(CString(s));
  }

  lemma TwoStrings(a: bytes, b: bytes)
    ensures Pack([U32(|a|), Raw(a), U32(|b|), Raw(b)]) == Pack([CString(a), CString(b)])
  {
    LengthThenRaw(a);
    LengthThenRaw(b);
    PackConcat([U32(|a|), Raw(a)], [U32(|b|), Raw(b)]);
    PackConcat([CString(a)], [CString(b)]);
    assert [U32(|a|), Raw(a)] + [U32(|b|), Raw(b)] == [U32(|a|), Raw(a), U32(|b|), Raw(b)];
    assert [CString(a)] + [CString(b)] == [CString(a), CString(b)];
  }

  /** The hash input determines everything that was agreed on: within a family, equal inputs mean equal transcripts. */
  lemma PreimageBinds(t: Transcript, u: Transcript)
    requires SameFamily(t.keys, u.keys) && Preimage(t).Some? && Preimage(t) == Preimage(u)
    ensures t == u
  {
    SameShape(t, u);
    UniquelyDecodable(Letters(Fields(t)), Fields(t), Fields(u), [], []);
    SameFields(t, u);
  }

  lemma SameShape(t: Transcript, u: Transcript)
    requires SameFamily(t.keys, u.keys)
    ensures Letters(Fields(t)) == Letters(Fields(u)) && RawLengths(Fields(t)) == RawLengths(Fields(u))
    ensures 't' !in Letters(Fields(t))
  {
  }

  lemma SameFields(t: Transcript, u: Transcript)
    requires SameFamily(t.keys, u.keys) && Fields(t) == Fields(u)
    ensures t == u
  {
    var a, b := KeyFields(t.keys), KeyFields(u.keys);
    var n := |a|;
    assert Fields(t)[5..5 + n] == a && Fields(u)[5..5 + n] == b;
    assert Fields(t)[0] == Fields(u)[0] && Fields(t)[1] == Fields(u)[1] && Fields(t)[2] == Fields(u)[2];
    assert Fields(t)[3] == Fields(u)[3] && Fields(t)[4] == Fields(u)[4] && Fields(t)[5 + n] == Fields(u)[5 + n];
    assert a[0] == b[0] && a[1] == b[1];
    if t.keys.Gex? {
      assert a[2] == b[2] && a[3] == b[3] && a[4] == b[4] && a[5] == b[5] && a[6] == b[6];
    }
  }

  /** `hash` holds the message up to the name lists `done`. */
  ghost predicate Hashing(hash: seq<byte>, cookie: seq<byte>, done: seq<bytes>) {
    hash == [MSG_KEXINIT] + cookie + Lists(done)
  }

  lemma HashingStart(cookie: seq<byte>)
    ensures Hashing([MSG_KEXINIT] + cookie, cookie, [])
  {
  }

  lemma HashingNext(hash: seq<byte>, cookie: seq<byte>, done: seq<bytes>, m: bytes)
    requires Hashing(hash, cookie, done)
    ensures Hashing(hash + (BigEndian(|m|, 4) + m), cookie, done + [m])
  {
    ListsAppend(done, m);
    Associate([MSG_KEXINIT] + cookie, Lists(done), Str(m));
  }

  // One side of the exchange

  datatype SessionState = InitialKex | KexinitReceived | Authenticated | Failed | OtherState

  /** A proposal is welcome at the start and, to exchange keys again, from an authenticated peer. */
  predicate Ready(s: SessionState) {
    s == InitialKex || s == Authenticated
  }

  /** The parts of the session that the key exchange messages go through. */
  class Session {
    const server: bool
    var state: SessionState
    var outBuffer: seq<byte>
    var inHash: Option<seq<byte>>
    var outHash: Option<seq<byte>>
    var clientKex: Proposal
    var serverKex: Proposal

    constructor (server: bool, own: Proposal)
      ensures this.server == server && state == InitialKex && outBuffer == [] && inHash == None && outHash == None
      ensures Own() == own
    {
      this.server, state, outBuffer, inHash, outHash := server, InitialKex, [], None, None;
      clientKex, serverKex := own, own;
    }

    ghost function Own(): Proposal
      reads this
    {
      if server then serverKex else clientKex
    }

    ghost function Peer(): Proposal
      reads this
    {
      if server then clientKex else serverKex
    }

    /**
     * Send one's proposal, hashing everything but the two final fields. A list that is too long to be a string
     * empties both buffers.
     */
    method SendKex() returns (ok: bool, packet: seq<byte>)
      requires WellFormed(Own()) && outBuffer == []
      modifies this`outBuffer, this`outHash
      ensures ok <==> Short(Own().methods)
      ensures outBuffer == [] && outHash == Some(if ok then Head(Own()) else [])
      ensures ok ==> packet == KexInit(Own(), 0, 0)
      ensures ok ==> var m := Own().methods;
        packet == [20] + Own().cookie + Flatten([
          Str(m[0]), Str(m[1]), Str(m[2]), Str(m[3]), Str(m[4]),
          Str(m[5]), Str(m[6]), Str(m[7]), Str(m[8]), Str(m[9])]) + [0, 0, 0, 0, 0]
    {
      var kex := if server then serverKex else clientKex;
      outBuffer := outBuffer + ([MSG_KEXINIT] + kex.cookie);
      var hash := [MSG_KEXINIT] + kex.cookie;
      HashingStart(kex.cookie);
      for i := 0 to KEX_METHODS
        invariant outBuffer == hash && Hashing(hash, kex.cookie, kex.methods[..i])
        invariant forall j :: 0 <= j < i ==> |kex.methods[j]| <= STRING_SIZE_MAX
      {
        var str := kex.methods[i];
        if |str| > STRING_SIZE_MAX {
          outBuffer, outHash := [], Some([]);
          return false, [];
        }
        HashingNext(hash, kex.cookie, kex.methods[..i], str);
        assert kex.methods[..i + 1] == kex.methods[..i] + [str];
        hash := hash + (BigEndian(|str|, 4) + str);
        outBuffer := outBuffer + (BigEndian(|str|, 4) + str);
      }
      assert kex.methods[..KEX_METHODS] == kex.methods;
      outBuffer := outBuffer + ([0] + BigEndian(0, 4));
      MessageBytes(kex);
      ok, packet, outBuffer, outHash := true, outBuffer, [], Some(hash);
    }

    /** Receive the peer's proposal; `packet` is the message after its first byte. */
    method PacketKexinit(packet: seq<byte>) returns (ok: bool)
      modifies this
      ensures ok <==> Ready(old(state)) && Hashed(server, packet).Some?
      ensures ok <==> ((old(state) == Authenticated || old(state) == InitialKex) && |packet| >= 16 &&
        exists ms: seq<bytes>, rest: seq<byte> ::
          |ms| == 10 && Short(ms) && packet[16..] == Lists(ms) + rest && (server ==> rest != []))
      ensures ok ==> state == KexinitReceived && inHash == Hashed(server, packet)
      ensures ok ==> Peer().cookie == packet[..16]
      ensures ok ==> Peer().methods == CStrings(Parse(KEX_METHODS, [], packet[16..]).value.0)
      ensures !ok ==> state == Failed
      ensures outBuffer == old(outBuffer) && outHash == old(outHash) && Own() == old(Own())
    {
      AcceptedExactly(server, packet);
      if (state != Authenticated && state != InitialKex) || |packet| < 16 {
        state := Failed;
        return false;
      }
      var cookie, rest := packet[..16], packet[16..];
      var strings: seq<bytes> := [];
      inHash := Some([MSG_KEXINIT] + cookie);
      HashingStart(cookie);
      for i := 0 to KEX_METHODS
        invariant Parse(KEX_METHODS - i, strings, rest) == Parse(KEX_METHODS, [], packet[16..])
        invariant inHash.Some? && Hashing(inHash.value, cookie, strings)
        invariant outBuffer == old(outBuffer) && outHash == old(outHash) && Own() == old(Own())
      {
        var t := TakeString(rest);
        if !t.ok {
          state := Failed;
          return false;
        }
        HashingNext(inHash.value, cookie, strings, t.value);
        inHash := Some(inHash.value + (BigEndian(|t.value|, 4) + t.value));
        strings, rest := strings + [t.value], t.rest;
      }
      if server {
        clientKex := Proposal(cookie, CStrings(strings));
        if rest == [] {
          state := Failed;
          return false;
        }
        inHash := Some(inHash.value + [rest[0]]);
        inHash := Some(inHash.value + BigEndian(0, 4));
      } else {
        serverKex := Proposal(cookie, CStrings(strings));
      }
      state := KexinitReceived;
      return true;
    }

    /** Complete both hashes and pack the fields of the input; the hashes are gone afterwards. */
    method PackInput(vc: bytes, vs: bytes, ks: bytes, keys: Keys, secret: nat) returns (buf: Option<seq<byte>>)
      requires inHash.Some? && |inHash.value| + (if server then 0 else 5) < U32MOD
      requires outHash.Some? && |outHash.value| + 5 < U32MOD
      modifies this`inHash, this`outHash
      ensures buf == Preimage(if server
        then Transcript(vc, vs, old(inHash.value), old(outHash.value) + Tail(0, 0), ks, keys, secret)
        else Transcript(vc, vs, old(outHash.value) + Tail(0, 0), old(inHash.value) + Tail(0, 0), ks, keys, secret))
      ensures inHash == None && outHash == None
    {
      var serverHash := if server then outHash.value else inHash.value;
      var clientHash := if server then inHash.value else outHash.value;
      inHash, outHash := None, None;
      serverHash := serverHash + ([0] + BigEndian(0, 4));
      if !server {
        clientHash := clientHash + ([0] + BigEndian(0, 4));
      }
      ghost var t := Transcript(vc, vs, clientHash, serverHash, ks, keys, secret);
      PreimageInParts(t);
      var banners := Pack([CString(vc), CString(vs)]);
      var hashes := Pack([U32(|clientHash|), Raw(clientHash), U32(|serverHash|), Raw(serverHash), SshString(ks)]);
      if banners.None? || hashes.None? {
        return None;
      }
      buf := Some(banners.value + hashes.value);
      var public := PackKeys(keys);
      if public.None? {
        return None;
      }
      buf := Some(buf.value + public.value);
      var shared := Pack([Big(secret)]);
      return if shared.None? then None else Some(buf.value + shared.value);
    }

    /**
     * Put the input of the exchange hash together: both banners, both KEXINIT messages, the host key, the public
     * values of the family and the secret, each as the standards write it.
     */
    method MakeSessionId(vc: bytes, vs: bytes, ks: bytes, keys: Keys, secret: nat) returns (buf: Option<seq<byte>>)
      requires inHash.Some? && |inHash.value| + (if server then 0 else 5) < U32MOD
      requires outHash.Some? && |outHash.value| + 5 < U32MOD
      modifies this`inHash, this`outHash
      ensures buf == Preimage(if server
        then Transcript(vc, vs, old(inHash.value), old(outHash.value) + Tail(0, 0), ks, keys, secret)
        else Transcript(vc, vs, old(outHash.value) + Tail(0, 0), old(inHash.value) + Tail(0, 0), ks, keys, secret))
      ensures buf.Some? <==> |ks| <= STRING_SIZE_MAX && MakeBignumString(secret).Some? && Encodable(keys)
      ensures buf.Some? ==>
        var own, peer := old(outHash.value) + [0, 0, 0, 0, 0], old(inHash.value);
        buf.value == Flatten(
          (if server then [Str(vc), Str(vs), Str(peer), Str(own), Str(ks)]
           else [Str(vc), Str(vs), Str(own), Str(peer + [0, 0, 0, 0, 0]), Str(ks)])
          + (match keys
             case Dh(e, f) => [Number(e), Number(f)]
             case Gex(pmin, pn, pmax, p, g, e, f) =>
               [BigEndian(pmin, 4), BigEndian(pn, 4), BigEndian(pmax, 4), Number(p), Number(g), Number(e), Number(f)]
             case Ecdh(qc, qs) => [Str(qc), Str(qs)]
             case Curve25519(qc, qs) => [Str(qc), Str(qs)])
          + [Number(secret)])
      ensures inHash == None && outHash == None
    {
      ghost var t := if server
        then Transcript(vc, vs, inHash.value, outHash.value + Tail(0, 0), ks, keys, secret)
        else Transcript(vc, vs, outHash.value + Tail(0, 0), inHash.value + Tail(0, 0), ks, keys, secret);
      FiveZeros();
      InputBytes(t);
      buf := PackInput(vc, vs, ks, keys, secret);
    }

    /** Curve25519 values are packed as lengths and raw bytes, the others as they are. */
    method PackKeys(keys: Keys) returns (public: Option<seq<byte>>)
      ensures public == Pack(KeyFields(keys))
    {
      match keys
      case Curve25519(qc, qs) =>
        TwoStrings(qc, qs);
        public := Pack([U32(|qc|), Raw(qc), U32(|qs|), Raw(qs)]);
      case Dh(e, f) =>
        public := Pack([Big(e), Big(f)]);
      case Gex(pmin, pn, pmax, p, g, e, f) =>
        public := Pack([U32(pmin), U32(pn), U32(pmax), Big(p), Big(g), Big(e), Big(f)]);
      case Ecdh(qc, qs) =>
        public := Pack([SshString(qc), SshString(qs)]);
    }
  }

  /** The two messages as they are packed, and the host key. */
  function RawStrings(t: Transcript): seq<Arg> {
    [U32(|t.clientInit|), Raw(t.clientInit), U32(|t.serverInit|), Raw(t.serverInit), SshString(t.hostKey)]
  }

  lemma PreimageInParts(t: Transcript)
    ensures Preimage(t) ==
      Join(Join(Join(Pack([CString(t.clientBanner), CString(t.serverBanner)]), Pack(RawStrings(t))),
                Pack(KeyFields(t.keys))),
           Pack([Big(t.secret)]))
  {
    var banners, host := [CString(t.clientBanner), CString(t.serverBanner)], [SshString(t.hostKey)];
    var strings := [CString(t.clientInit), CString(t.serverInit)];
    var raw := [U32(|t.clientInit|), Raw(t.clientInit), U32(|t.serverInit|), Raw(t.serverInit)];
    TwoStrings(t.clientInit, t.serverInit);
    PackConcat(raw, host);
    PackConcat(strings, host);
    assert raw + host == RawStrings(t);
    PackConcat(banners, strings + host);
    PackConcat(banners + (strings + host), KeyFields(t.keys));
    PackConcat(banners + (strings + host) + KeyFields(t.keys), [Big(t.secret)]);
    assert banners + (strings + host) == Strings(t);
  }

  lemma MessageArrives(server: bool, p: Proposal)
    requires WellFormed(p) && Short(p.methods)
    ensures Hashed(server, KexInit(p, 0, 0)[1..]) == Some(if server then KexInit(p, 0, 0) else Head(p))
  {
    MessageParts(p, Tail(0, 0), []);
    assert KexInit(p, 0, 0) + [] == KexInit(p, 0, 0) && Tail(0, 0) + [] == Tail(0, 0);
    HashedParts(server, p, Tail(0, 0));
    assert Head(p) + [0] + BigEndian(0, 4) == KexInit(p, 0, 0);
  }

  /** What the receiver takes out of the message. */
  lemma ProposalArrives(p: Proposal)
    requires WellFormed(p) && Short(p.methods)
    ensures var packet := KexInit(p, 0, 0)[1..];
      packet[..16] == p.cookie && Parse(KEX_METHODS, [], packet[16..]) == Some((p.methods, Tail(0, 0)))
  {
    var packet := KexInit(p, 0, 0)[1..];
    MessageParts(p, Tail(0, 0), []);
    assert KexInit(p, 0, 0) + [] == KexInit(p, 0, 0) && Tail(0, 0) + [] == Tail(0, 0);
    assert packet[..16] == p.cookie && packet[16..] == Lists(p.methods) + Tail(0, 0);
    ParseComplete([], p.methods, Tail(0, 0));
    assert [] + p.methods == p.methods;
  }

  /** The receiving half. */
  method Receive(receiver: Session, packet: seq<byte>, ghost p: Proposal)
    requires Ready(receiver.state) && WellFormed(p) && Short(p.methods) && packet == KexInit(p, 0, 0)
    modifies receiver
    ensures receiver.inHash == Some(if receiver.server then KexInit(p, 0, 0) else Head(p))
    ensures receiver.outHash == old(receiver.outHash) && receiver.Own() == old(receiver.Own())
    ensures receiver.outBuffer == old(receiver.outBuffer)
    ensures ZeroFree(p.methods) ==> receiver.Peer() == p
  {
    ProposalArrives(p);
    if ZeroFree(p.methods) {
      CStringsSame(p.methods);
    }
    MessageArrives(receiver.server, p);
    var ok := receiver.PacketKexinit(packet[1..]);
  }

  /** One proposal from end to end. */
  method Propose(sender: Session, receiver: Session) returns (ok: bool)
    requires sender != receiver && sender.outBuffer == [] && WellFormed(sender.Own()) && Ready(receiver.state)
    modifies sender`outBuffer, sender`outHash, receiver
    ensures ok <==> Short(sender.Own().methods)
    ensures sender.outBuffer == [] && receiver.outBuffer == old(receiver.outBuffer)
    ensures receiver.outHash == old(receiver.outHash) && receiver.Own() == old(receiver.Own())
    ensures ok ==> sender.outHash == Some(Head(sender.Own()))
    ensures ok ==> receiver.inHash == Some(if receiver.server then KexInit(sender.Own(), 0, 0) else Head(sender.Own()))
    ensures ok && ZeroFree(sender.Own().methods) ==> receiver.Peer() == sender.Own()
  {
    var packet;
    ok, packet := sender.SendKex();
    if ok {
      Receive(receiver, packet, sender.Own());
    }
  }

  /** Who speaks first; both may send before either has received anything. */
  datatype Order = ClientFirst | ServerFirst | Crossing

  /** Both sides hold both proposals, unless a list has a zero byte in it. */
  ghost predicate Exchanged(client: Session, server: Session, c: Proposal, s: Proposal)
    reads client, server
  {
    && client.clientKex == c && server.serverKex == s
    && (ZeroFree(c.methods) ==> server.clientKex == c) && (ZeroFree(s.methods) ==> client.serverKex == s)
  }

  /** Both proposals from end to end, in any of the three orders. */
  method ProposeBoth(client: Session, server: Session, order: Order) returns (ok: bool)
    requires !client.server && server.server && client.outBuffer == [] && server.outBuffer == []
    requires Ready(client.state) && Ready(server.state)
    requires WellFormed(client.clientKex) && WellFormed(server.serverKex)
    modifies client, server
    ensures ok <==> Short(old(client.clientKex).methods) && Short(old(server.serverKex).methods)
    ensures ok ==> client.outHash == Some(Head(old(client.clientKex)))
    ensures ok ==> client.inHash == Some(Head(old(server.serverKex)))
    ensures ok ==> server.outHash == Some(Head(old(server.serverKex)))
    ensures ok ==> server.inHash == Some(KexInit(old(client.clientKex), 0, 0))
    ensures ok ==> Exchanged(client, server, old(client.clientKex), old(server.serverKex))
  {
    ghost var c, s := client.Own(), server.Own();
    match order
    case ClientFirst =>
      ok := Propose(client, server);
      if ok { ok := Propose(server, client); }
    case ServerFirst =>
      ok := Propose(server, client);
      if ok { ok := Propose(client, server); }
    case Crossing =>
      var fromClient, fromServer;
      ok, fromClient := client.SendKex();
      if !ok { return; }
      ok, fromServer := server.SendKex();
      if !ok { return; }
      Receive(server, fromClient, c);
      Receive(client, fromServer, s);
  }

  /**
   * Two of these sessions, whichever speaks first, in the first exchange and in every later one: both hash the two
   * messages as they were sent, so with equal banners, keys and secret the inputs of the exchange hash are the same
   * on both sides.
   */
  method Handshake(client: Session, server: Session, order: Order,
                   vc: bytes, vs: bytes, ks: bytes, keys: Keys, secret: nat)
    returns (ok: bool, atClient: Option<seq<byte>>, atServer: Option<seq<byte>>)
    requires !client.server && server.server && client.outBuffer == [] && server.outBuffer == []
    requires Ready(client.state) && Ready(server.state)
    requires WellFormed(client.clientKex) && WellFormed(server.serverKex)
    requires |KexInit(client.clientKex, 0, 0)| < U32MOD && |KexInit(server.serverKex, 0, 0)| < U32MOD
    modifies client, server
    ensures ok <==> Short(old(client.clientKex).methods) && Short(old(server.serverKex).methods)
    ensures ok ==> atClient == atServer == Preimage(
      Transcript(vc, vs, KexInit(old(client.clientKex), 0, 0), KexInit(old(server.serverKex), 0, 0), ks, keys, secret))
    ensures ok ==> Exchanged(client, server, old(client.clientKex), old(server.serverKex))
  {
    atClient, atServer := None, None;
    ok := ProposeBoth(client, server, order);
    if !ok {
      return;
    }
    atClient := client.MakeSessionId(vc, vs, ks, keys, secret);
    atServer := server.MakeSessionId(vc, vs, ks, keys, secret);
  }
}
