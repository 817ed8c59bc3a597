/** Diffie-Hellman key agreement over the multiplicative group modulo `p` (RFC 4253, section 8). */
module Dh {
  import opened Arith
  import opened Bytes
  import opened Mpint

  const CLIENT := 0
  const SERVER := 1
  const DH_SECURITY_BITS := 512

  datatype KeyPair = KeyPair(priv: Option<nat>, pub: Option<nat>)

  // Modular exponentiation

  function PowMod(b: nat, e: nat, p: nat): (r: nat)
    requires p > 0
    ensures r < p
  {
    Pow(b, e) % p
  }

  lemma AddMultiple(p: nat, k: nat, m: nat)
    requires p > 0
    ensures (k * p + m) % p == m % p
  {
    var q, r := m / p, m % p;
    assert k * p + m == p * (k + q) + r;
    DivideUnique(k * p + m, p, k + q, r);
  }

  lemma ReduceFactor(a: nat, b: nat, p: nat)
    requires p > 0
    ensures ((a % p) * b) % p == (a * b) % p
  {
    var q, r := a / p, a % p;
    calc {
      a * b;
      (q * p + r) * b;
      (q * b) * p + r * b;
    }
    AddMultiple(p, q * b, r * b);
  }

  lemma {:induction false} ReduceBase(a: nat, e: nat, p: nat)
    requires p > 0
    ensures PowMod(a % p, e, p) == PowMod(a, e, p)
  {
    if e > 0 {
      var x, y := Pow(a % p, e - 1), Pow(a, e - 1);
      calc {
        ((a % p) * x) % p;
        { ReduceFactor(a, x, p); }
        (a * x) % p;
        (x * a) % p;
        { ReduceFactor(x, a, p); }
        ((x % p) * a) % p;
        { ReduceBase(a, e - 1, p); }
        ((y % p) * a) % p;
        { ReduceFactor(y, a, p); }
        (y * a) % p;
        (a * y) % p;
      }
    }
  }

  /** Both orders of exponentiation give the same value, whatever the modulus, the generator and the exponents. */
  lemma Agreement(g: nat, x: nat, y: nat, p: nat)
    requires p > 0
    ensures PowMod(PowMod(g, x, p), y, p) == PowMod(g, x * y, p) == PowMod(PowMod(g, y, p), x, p)
  {
    ReduceBase(Pow(g, x), y, p);
    ReduceBase(Pow(g, y), x, p);
    PowMul(g, x, y);
    PowMul(g, y, x);
    assert x * y == y * x;
  }

  /** The number of random bits a private key for a modulus of `pBits` bits is made of. */
  function RandomBits(pBits: nat): nat {
    var bits := if DH_SECURITY_BITS * 2 < pBits then DH_SECURITY_BITS * 2 else pBits;
    if bits <= pBits && bits + 64 > pBits then bits + 64 else bits
  }

  /**
   * The number of random bits is below the size of the modulus exactly from 1088 bits on, by 64 or more; otherwise it
   * is above it, by 64 up to 1024 bits of modulus and by less between the two.
   */
  lemma RandomBitsBelow(pBits: nat)
    ensures RandomBits(pBits) < pBits <==> pBits >= 1088
    ensures RandomBits(pBits) < pBits ==> RandomBits(pBits) + 64 <= pBits
    ensures pBits <= 1024 ==> RandomBits(pBits) == pBits + 64
    ensures 1024 < pBits < 1088 ==> pBits < RandomBits(pBits) < pBits + 64 && RandomBits(pBits) == 1088
    ensures pBits >= 1088 ==> RandomBits(pBits) == 1024
  {
  }

  /** Then the random number is the private key: the reduction changes nothing. */
  lemma LargeModulusKeepsRandom(p: nat, rnd: nat, bits: nat)
    requires bits == RandomBits(NumBits(p)) < NumBits(p) && rnd < Pow(2, bits)
    ensures p > 0 && rnd % p == rnd
  {
    NumBitsBounds(p);
    PowMonotoneExponent(2, bits, NumBits(p) - 1);
    DivideUnique(rnd, p, 0, rnd);
  }

  class DhContext {
    var keypair: seq<KeyPair>
    var generator: Option<nat>
    var modulus: Option<nat>

    ghost predicate Valid()
      reads this
    {
      |keypair| == 2
    }

    constructor ()
      ensures Valid() && keypair == [KeyPair(None, None), KeyPair(None, None)] && generator == None && modulus == None
    {
      keypair := [KeyPair(None, None), KeyPair(None, None)];
      generator, modulus := None, None;
    }

    /** New parameters empty both key pairs; a parameter that is not given stays. */
    method SetParameters(m: Option<nat>, g: Option<nat>) returns (ok: bool)
      requires Valid()
      modifies this
      ensures Valid() && (ok <==> m.Some? || g.Some?)
      ensures ok ==> keypair == [KeyPair(Some(0), Some(0)), KeyPair(Some(0), Some(0))]
      ensures ok ==> modulus == (if m.Some? then m else old(modulus))
      ensures ok ==> generator == (if g.Some? then g else old(generator))
      ensures !ok ==> keypair == old(keypair) && modulus == old(modulus) && generator == old(generator)
    {
      if m.None? && g.None? {
        return false;
      }
      keypair := [KeyPair(Some(0), Some(0)), KeyPair(Some(0), Some(0))];
      if m.Some? {
        modulus := m;
      }
      if g.Some? {
        generator := g;
      }
      return true;
    }

    /** The halves asked for of a key pair; one that is zero is refused. */
    method GetKeys(peer: int, wantPriv: bool, wantPub: bool) returns (ok: bool, priv: Option<nat>, pub: Option<nat>)
      requires Valid()
      requires peer in {CLIENT, SERVER} && wantPriv ==> keypair[peer].priv.Some?
      requires peer in {CLIENT, SERVER} && wantPub ==> keypair[peer].pub.Some?
      ensures ok <==> (peer in {CLIENT, SERVER} && (wantPriv || wantPub)
        && (wantPriv ==> keypair[peer].priv.value > 0) && (wantPub ==> keypair[peer].pub.value > 0))
      ensures ok ==> priv == (if wantPriv then keypair[peer].priv else None)
      ensures ok ==> pub == (if wantPub then keypair[peer].pub else None)
    {
      ok, priv, pub := false, None, None;
      if (peer != CLIENT && peer != SERVER) || (!wantPriv && !wantPub) {
        return;
      }
      if wantPriv {
        if NumBits(keypair[peer].priv.value) == 0 {
          return;
        }
        priv := keypair[peer].priv;
      }
      if wantPub {
        if NumBits(keypair[peer].pub.value) == 0 {
          return;
        }
        pub := keypair[peer].pub;
      }
      ok := true;
    }

    method SetKeys(peer: int, priv: Option<nat>, pub: Option<nat>) returns (ok: bool)
      requires Valid()
      modifies this`keypair
      ensures Valid() && (ok <==> peer in {CLIENT, SERVER} && (priv.Some? || pub.Some?))
      ensures ok ==> keypair[1 - peer] == old(keypair[1 - peer])
      ensures ok ==> keypair[peer].priv == (if priv.Some? then priv else old(keypair[peer].priv))
      ensures ok ==> keypair[peer].pub == (if pub.Some? then pub else old(keypair[peer].pub))
      ensures !ok ==> keypair == old(keypair)
    {
      if (peer != CLIENT && peer != SERVER) || (priv.None? && pub.None?) {
        return false;
      }
      if priv.Some? {
        keypair := keypair[peer := keypair[peer].(priv := priv)];
      }
      if pub.Some? {
        keypair := keypair[peer := keypair[peer].(pub := pub)];
      }
      return true;
    }

    /** A key pair from a random number: the number reduced, and the generator to that power. Modulus zero fails. */
    method GenKeys(peer: int, rnd: nat) returns (ok: bool)
      requires Valid() && peer in {CLIENT, SERVER} && modulus.Some? && generator.Some?
      modifies this`keypair
      ensures Valid() && (ok <==> modulus.value > 0)
      ensures ok ==> keypair == old(keypair)[peer :=
        KeyPair(Some(rnd % modulus.value), Some(PowMod(generator.value, rnd % modulus.value, modulus.value)))]
      ensures ok ==> keypair[peer].pub == Some(Pow(generator.value, rnd % modulus.value) % modulus.value)
      ensures !ok ==> keypair == old(keypair)
    {
      if modulus.value == 0 {
        return false;
      }
      keypair := keypair[peer := keypair[peer].(priv := Some(rnd % modulus.value))];
      var public := PowMod(generator.value, keypair[peer].priv.value, modulus.value);
      keypair := keypair[peer := keypair[peer].(pub := Some(public))];
      return true;
    }

    /** The other side's public key to the power of one's own private key. */
    method ComputeSharedSecret(local: int, remote: int) returns (dest: Option<nat>)
      requires Valid() && local in {CLIENT, SERVER} && remote in {CLIENT, SERVER} && modulus.Some?
      requires keypair[remote].pub.Some? && keypair[local].priv.Some?
      ensures dest == if modulus.value == 0 then None
                      else Some(PowMod(keypair[remote].pub.value, keypair[local].priv.value, modulus.value))
      ensures dest.Some? ==> dest.value == Pow(keypair[remote].pub.value, keypair[local].priv.value) % modulus.value
    {
      if modulus.value == 0 {
        return None;
      }
      return Some(PowMod(keypair[remote].pub.value, keypair[local].priv.value, modulus.value));
    }
  }

  /** A public key that can be sent: zero has no encoding as a multiple precision integer. */
  predicate Sendable(p: nat, g: nat, rnd: nat) {
    p > 0 && MakeBignumString(PowMod(g, rnd % p, p)).Some?
  }

  /**
   * The whole exchange between two contexts with the same parameters, public keys travelling in their wire encoding:
   * it fails only if a public key cannot be sent, and otherwise both sides hold the same secret.
   */
  method Exchange(p: nat, g: nat, clientRnd: nat, serverRnd: nat)
    returns (clientSecret: Option<nat>, serverSecret: Option<nat>)
    ensures clientSecret.Some? <==> Sendable(p, g, clientRnd) && Sendable(p, g, serverRnd)
    ensures clientSecret.Some? ==>
      clientSecret == serverSecret == Some(PowMod(g, (clientRnd % p) * (serverRnd % p), p))
  {
    clientSecret, serverSecret := None, None;
    var client := new DhContext();
    var server := new DhContext();
    var ok := client.SetParameters(Some(p), Some(g));
    ok := server.SetParameters(Some(p), Some(g));
    ok := client.GenKeys(CLIENT, clientRnd);
    if !ok {
      return;
    }
    Agreement(g, clientRnd % p, serverRnd % p, p);
    var e := SendPublic(client, CLIENT);
    if e.None? {
      return;
    }
    MpintRoundTrip(client.keypair[CLIENT].pub.value);
    ok := server.SetKeys(CLIENT, None, Some(MakeStringBn(e.value)));
    ok := server.GenKeys(SERVER, serverRnd);
    serverSecret := server.ComputeSharedSecret(SERVER, CLIENT);
    var f := SendPublic(server, SERVER);
    if f.None? {
      return;
    }
    MpintRoundTrip(server.keypair[SERVER].pub.value);
    ok := client.SetKeys(SERVER, None, Some(MakeStringBn(f.value)));
    clientSecret := client.ComputeSharedSecret(CLIENT, SERVER);
  }

  method SendPublic(ctx: DhContext, peer: int) returns (encoded: Option<seq<byte>>)
    requires ctx.Valid() && peer in {CLIENT, SERVER} && ctx.keypair[peer].pub.Some?
    ensures encoded == MakeBignumString(ctx.keypair[peer].pub.value)
  {
    var ok, _, pub := ctx.GetKeys(peer, false, true);
    MpintLength(ctx.keypair[peer].pub.value);
    return if ok then MakeBignumString(pub.value) else None;
  }
}
