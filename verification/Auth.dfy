/** Public key authentication that can be interrupted and resumed (RFC 4252, section 7). */
module Auth {
  import opened Bytes

  /** What a call returns; the last one asks for another call later. */
  datatype Rc = SUCCESS | DENIED | PARTIAL | ERROR | AGAIN

  /** A key: whether its algorithm is allowed here, and whether it can be exported and used to sign. */
  datatype Key = Key(id: nat, allowed: bool, exports: bool, signs: bool)

  datatype Packet = ServiceRequest | Offer(key: Key) | Signed(key: Key)

  /** The server's answer to a request, or the end of the connection. */
  datatype Response = Success | Failure | PartialSuccess | PkOk | Malformed | Lost

  datatype Import = Imported | ImportError | NoFile

  /** An identity: its public and private key files, and the public key that can be made from the private one. */
  datatype Identity = Identity(pubFile: Import, pubKey: Key, privFile: Import, privKey: Key, derived: Option<Key>)

  /**
   * Everything outside: the options, the agent, the key files, a server whose answers depend on what was sent, and a
   * connection that may refuse the next packet. A connection that has failed once does not come back.
   */
  datatype Env = Env(
    enabled: bool, agentRunning: bool, agentKeys: seq<Key>, identities: seq<Identity>,
    server: seq<Packet> -> Response, refuses: seq<Packet> -> bool)

  datatype Service = NotRequested | ServiceSent | ServiceAccepted
  datatype Pending = NoCall | OfferPending | AuthPending | AgentPending

  // What a run without interruption does

  /** How far the service request is, what has been sent, which call is pending, and whether the connection is gone. */
  datatype Control = Control(service: Service, sent: seq<Packet>, pending: Pending, dead: bool)

  datatype Result = Result(control: Control, rc: Rc)

  /** What the answer to the last request means; only an offer can be accepted with a PK_OK. */
  function Answer(e: Env, sent: seq<Packet>, offered: bool): Rc {
    match e.server(sent)
    case Success => SUCCESS
    case Failure => DENIED
    case PartialSuccess => PARTIAL
    case PkOk => if offered then SUCCESS else ERROR
    case Malformed => ERROR
    case Lost => ERROR
  }

  /** The end of a wait for the answer to the last request. */
  function Await(e: Env, c: Control, offered: bool): Result {
    if c.dead then Result(c.(pending := NoCall), ERROR)
    else Result(c.(pending := NoCall, dead := e.server(c.sent) == Lost), Answer(e, c.sent, offered))
  }

  function Transmit(e: Env, c: Control, p: Packet): Control {
    if c.dead || e.refuses(c.sent) then c.(dead := true) else c.(sent := c.sent + [p])
  }

  /** The service is requested once; no call goes on before it is accepted. */
  function Serve(e: Env, c: Control): Control {
    var d := if c.service == NotRequested then Transmit(e, c.(service := ServiceSent), ServiceRequest) else c;
    if d.service != ServiceSent then d
    else if d.dead || e.server(d.sent) == Lost then d.(dead := true)
    else d.(service := ServiceAccepted)
  }

  /** Send a request and await its answer; after a failing send the call stays pending. */
  function Request(e: Env, c: Control, p: Packet, kind: Pending): Result {
    var d := Transmit(e, c.(pending := kind), p);
    if d.dead then Result(d, ERROR) else Await(e, d, kind == OfferPending)
  }

  /** Offer a key. A call of another kind that is pending makes this one fail. */
  function Try(e: Env, c: Control, key: Key): Result {
    if c.pending == OfferPending then Await(e, c, true)
    else if c.pending != NoCall then Result(c, ERROR)
    else if !key.allowed then Result(c, DENIED)
    else
      var d := Serve(e, c);
      if d.service != ServiceAccepted || !key.exports then Result(d, ERROR) else Request(e, d, Offer(key), OfferPending)
  }

  /** Authenticate with a key from a file. */
  function Sign(e: Env, c: Control, key: Key): Result {
    if c.pending == AuthPending then Await(e, c, false)
    else if c.pending != NoCall then Result(c, ERROR)
    else if !key.allowed then Result(c, DENIED)
    else
      var d := Serve(e, c);
      if d.service != ServiceAccepted || !key.exports || !key.signs then Result(d, ERROR)
      else Request(e, d, Signed(key), AuthPending)
  }

  /** Authenticate with a key of the agent; the checks come in another order. */
  function AgentSign(e: Env, c: Control, key: Key): Result {
    if c.pending == AgentPending then Await(e, c, false)
    else if c.pending != NoCall then Result(c, ERROR)
    else
      var d := Serve(e, c);
      if d.service != ServiceAccepted || !key.exports then Result(d, ERROR)
      else if !key.allowed then Result(d, DENIED)
      else if !key.signs then Result(d, ERROR)
      else Request(e, d, Signed(key), AgentPending)
  }

  /** The agent's keys from number `i` on, of which the first may have been accepted; `last` is the result so far. */
  function AgentFrom(e: Env, c: Control, i: nat, accepted: bool, last: Rc): Result
    decreases |e.agentKeys| - i, !accepted
  {
    if i >= |e.agentKeys| then Result(c, last)
    else if !accepted then
      var r := Try(e, c, e.agentKeys[i]);
      if r.rc == ERROR then r
      else if r.rc == SUCCESS then AgentFrom(e, r.control, i, true, r.rc)
      else AgentFrom(e, r.control, i + 1, false, r.rc)
    else
      var r := AgentSign(e, c, e.agentKeys[i]);
      if r.rc == DENIED then AgentFrom(e, r.control, i + 1, false, r.rc) else r
  }

  /** The result so far only matters when no key is left. */
  lemma LastUnused(e: Env, c: Control, i: nat, accepted: bool, x: Rc, y: Rc)
    requires i < |e.agentKeys|
    ensures AgentFrom(e, c, i, accepted, x) == AgentFrom(e, c, i, accepted, y)
  {
  }

  datatype Stage = AtPublicKey | HasKey(pub: Key, priv: Option<Key>) | Accepted(priv: Option<Key>)

  function Rank(s: Stage): nat {
    match s
    case AtPublicKey => 3
    case HasKey(_, _) => 2
    case Accepted(priv) => if priv.None? then 1 else 0
  }

  /** The identities from number `j` on, the first being at stage `s`. */
  function Files(e: Env, c: Control, j: nat, s: Stage): Result
    decreases |e.identities| - j, Rank(s)
  {
    if j >= |e.identities| then Result(c, DENIED)
    else
      var id := e.identities[j];
      match s
      case AtPublicKey =>
        if id.pubFile.ImportError? then Result(c, ERROR)
        else if id.pubFile.Imported? then Files(e, c, j, HasKey(id.pubKey, None))
        else if !id.privFile.Imported? then Files(e, c, j + 1, AtPublicKey)
        else if id.derived.None? then Result(c, ERROR)
        else Files(e, c, j, HasKey(id.derived.value, Some(id.privKey)))
      case HasKey(pub, priv) =>
        var r := Try(e, c, pub);
        if r.rc == ERROR then r
        else if r.rc == SUCCESS then Files(e, r.control, j, Accepted(priv))
        else Files(e, r.control, j + 1, AtPublicKey)
      case Accepted(priv) =>
        if priv.None? then
          if id.privFile.Imported? then Files(e, c, j, Accepted(Some(id.privKey)))
          else Files(e, c, j + 1, AtPublicKey)
        else
          var r := Sign(e, c, priv.value);
          if r.rc == DENIED then Files(e, r.control, j + 1, AtPublicKey) else r
  }

  /** First the agent, from a given point on; its failures and errors do not keep the files from being tried. */
  function AgentThenFiles(e: Env, c: Control, i: nat, accepted: bool): Result {
    var r := if !e.agentRunning || e.agentKeys == [] then Result(c, DENIED) else AgentFrom(e, c, i, accepted, ERROR);
    if r.rc == SUCCESS || r.rc == PARTIAL then r else Files(e, r.control, 0, AtPublicKey)
  }

  /** The whole call, from the beginning. */
  function Uninterrupted(e: Env, c: Control): Result {
    if !e.enabled then Result(c, DENIED) else AgentThenFiles(e, c, 0, false)
  }

  // Every key is offered at most once, in the order of the lists

  function Offered(ps: seq<Packet>): seq<Key> {
    if ps == [] then [] else (if ps[0].Offer? then [ps[0].key] else []) + Offered(ps[1..])
  }

  lemma {:induction false} OfferedConcat(a: seq<Packet>, b: seq<Packet>)
    ensures Offered(a + b) == Offered(a) + Offered(b)
  {
    if a == [] {
      assert a + b == b;
      assert [] + Offered(b) == Offered(b);
    } else {
      var first := if a[0].Offer? then [a[0].key] else [];
      OfferedConcat(a[1..], b);
      assert (a + b)[1..] == a[1..] + b;
      OfferedHead(a + b, first);
      Associate(first, Offered(a[1..]), Offered(b));
    }
  }

  lemma OfferedHead(a: seq<Packet>, first: seq<Key>)
    requires a != [] && first == if a[0].Offer? then [a[0].key] else []
    ensures Offered(a) == first + Offered(a[1..])
  {
  }

  /** The keys are some of those listed, each list position at most once and in order. */
  predicate Among(keys: seq<Key>, listed: seq<Key>) {
    keys == [] ||
    (listed != [] && ((keys[0] == listed[0] && Among(keys[1..], listed[1..])) || Among(keys, listed[1..])))
  }

  /** The public key an identity is offered with, if it can be loaded. */
  function PublicOf(id: Identity): seq<Key> {
    if id.pubFile.Imported? then [id.pubKey]
    else if id.pubFile.NoFile? && id.privFile.Imported? && id.derived.Some? then [id.derived.value]
    else []
  }

  function PublicKeys(ids: seq<Identity>): seq<Key> {
    if ids == [] then [] else PublicOf(ids[0]) + PublicKeys(ids[1..])
  }

  /** What the identities from number `j` on can still be offered with, the first being at stage `s`. */
  function Left(e: Env, j: nat, s: Stage): seq<Key> {
    if j >= |e.identities| then []
    else
      (match s
       case AtPublicKey => PublicOf(e.identities[j])
       case HasKey(pub, _) => [pub]
       case Accepted(_) => []) + PublicKeys(e.identities[j + 1..])
  }

  lemma LeftNext(e: Env, j: nat)
    requires j < |e.identities|
    ensures Left(e, j + 1, AtPublicKey) == PublicKeys(e.identities[j + 1..])
    ensures forall s: Stage :: (s.AtPublicKey? ==> PublicOf(e.identities[j]) == []) && !s.HasKey? ==>
      Left(e, j, s) == Left(e, j + 1, AtPublicKey)
    ensures forall pub, priv :: Left(e, j, HasKey(pub, priv)) == [pub] + Left(e, j + 1, AtPublicKey)
  {
    var rest := e.identities[j + 1..];
    if j + 1 < |e.identities| {
      assert rest[0] == e.identities[j + 1] && rest[1..] == e.identities[j + 2..];
    }
    assert [] + PublicKeys(rest) == PublicKeys(rest);
  }

  /** What the service request adds to the packets. */
  lemma ServeAdds(e: Env, c: Control) returns (added: seq<Packet>)
    ensures Serve(e, c).sent == c.sent + added && Offered(added) == [] && Serve(e, c).pending == c.pending
  {
    added := if c.service == NotRequested && !c.dead && !e.refuses(c.sent) then [ServiceRequest] else [];
    assert Offered([ServiceRequest]) == [];
    assert c.sent + [] == c.sent;
  }

  /** What a request adds. */
  lemma RequestAdds(e: Env, c: Control, p: Packet, kind: Pending) returns (added: seq<Packet>)
    ensures Request(e, c, p, kind).control.sent == c.sent + added && (added == [] || added == [p])
  {
    added := if c.dead || e.refuses(c.sent) then [] else [p];
    assert c.sent + [] == c.sent;
  }

  /** What one offer sends: nothing, the service request, the offer or both. */
  lemma TryOffers(e: Env, c: Control, key: Key) returns (added: seq<Packet>)
    ensures Try(e, c, key).control.sent == c.sent + added
    ensures Offered(added) == [] || Offered(added) == [key]
  {
    added := [];
    assert c.sent + [] == c.sent;
    if c.pending == NoCall && key.allowed {
      var d := Serve(e, c);
      added := ServeAdds(e, c);
      if d.service == ServiceAccepted && key.exports {
        var more := RequestAdds(e, d, Offer(key), OfferPending);
        assert Offered([Offer(key)]) == [key];
        OfferedConcat(added, more);
        Associate(c.sent, added, more);
        added := added + more;
      }
    }
  }

  lemma SignOffers(e: Env, c: Control, key: Key) returns (added: seq<Packet>)
    ensures Sign(e, c, key).control.sent == c.sent + added && Offered(added) == []
  {
    added := [];
    assert c.sent + [] == c.sent;
    if c.pending == NoCall && key.allowed {
      var d := Serve(e, c);
      added := ServeAdds(e, c);
      if d.service == ServiceAccepted && key.exports && key.signs {
        added := SignatureAdds(e, c, key, added, AuthPending);
      }
    }
  }

  lemma AgentSignOffers(e: Env, c: Control, key: Key) returns (added: seq<Packet>)
    ensures AgentSign(e, c, key).control.sent == c.sent + added && Offered(added) == []
  {
    added := [];
    assert c.sent + [] == c.sent;
    if c.pending == NoCall {
      var d := Serve(e, c);
      added := ServeAdds(e, c);
      if d.service == ServiceAccepted && key.exports && key.allowed && key.signs {
        added := SignatureAdds(e, c, key, added, AgentPending);
      }
    }
  }

  lemma SignatureAdds(e: Env, c: Control, key: Key, served: seq<Packet>, kind: Pending) returns (added: seq<Packet>)
    requires Serve(e, c).sent == c.sent + served && Offered(served) == []
    ensures Request(e, Serve(e, c), Signed(key), kind).control.sent == c.sent + added && Offered(added) == []
  {
    var more := RequestAdds(e, Serve(e, c), Signed(key), kind);
    assert Offered([Signed(key)]) == [];
    OfferedConcat(served, more);
    Associate(c.sent, served, more);
    added := served + more;
  }

  /** Some packets with at most one offer, then others. */
  lemma OneThenMore(one: seq<Packet>, k: Key, more: seq<Packet>, listed: seq<Key>)
    requires (Offered(one) == [] || Offered(one) == [k]) && Among(Offered(more), listed)
    ensures Among(Offered(one + more), [k] + listed)
    ensures Offered(one) == [] ==> Among(Offered(one + more), listed)
  {
    OfferedConcat(one, more);
    var keys := Offered(more);
    assert ([k] + listed)[1..] == listed && ([k] + keys)[1..] == keys && [] + keys == keys;
  }

  lemma SignThenMore(e: Env, c: Control, j: nat, priv: Key, more: seq<Packet>) returns (added: seq<Packet>)
    requires j < |e.identities|
    requires var r := Sign(e, c, priv);
      if r.rc == DENIED
      then Files(e, r.control, j + 1, AtPublicKey).control.sent == r.control.sent + more
        && Among(Offered(more), Left(e, j + 1, AtPublicKey))
      else more == []
    ensures Files(e, c, j, Accepted(Some(priv))).control.sent == c.sent + added
    ensures Among(Offered(added), Left(e, j + 1, AtPublicKey))
  {
    var own := SignOffers(e, c, priv);
    OneThenMore(own, priv, more, Left(e, j + 1, AtPublicKey));
    added := own + more;
    Associate(c.sent, own, more);
  }

  lemma TryThenMore(e: Env, c: Control, j: nat, pub: Key, priv: Option<Key>, more: seq<Packet>)
    returns (added: seq<Packet>)
    requires j < |e.identities|
    requires var r := Try(e, c, pub);
      if r.rc == ERROR then more == []
      else
        && (if r.rc == SUCCESS then Files(e, r.control, j, Accepted(priv)) else Files(e, r.control, j + 1, AtPublicKey))
             .control.sent == r.control.sent + more
        && Among(Offered(more), Left(e, j + 1, AtPublicKey))
    ensures Files(e, c, j, HasKey(pub, priv)).control.sent == c.sent + added
    ensures Among(Offered(added), [pub] + Left(e, j + 1, AtPublicKey))
  {
    var own := TryOffers(e, c, pub);
    OneThenMore(own, pub, more, Left(e, j + 1, AtPublicKey));
    added := own + more;
    Associate(c.sent, own, more);
  }

  /** The keys the loop over the identities offers are among those left, in order. */
  lemma {:induction false} FilesOffer(e: Env, c: Control, j: nat, s: Stage) returns (added: seq<Packet>)
    ensures Files(e, c, j, s).control.sent == c.sent + added
    ensures Among(Offered(added), Left(e, j, s))
    decreases |e.identities| - j, Rank(s)
  {
    added := [];
    if j < |e.identities| {
      var id := e.identities[j];
      LeftNext(e, j);
      match s
      case AtPublicKey =>
        if id.pubFile.Imported? {
          added := FilesOffer(e, c, j, HasKey(id.pubKey, None));
        } else if id.pubFile.NoFile? && !id.privFile.Imported? {
          added := FilesOffer(e, c, j + 1, AtPublicKey);
        } else if id.pubFile.NoFile? && id.derived.Some? {
          added := FilesOffer(e, c, j, HasKey(id.derived.value, Some(id.privKey)));
        }
      case HasKey(pub, priv) =>
        var r := Try(e, c, pub);
        var more: seq<Packet> := [];
        if r.rc == SUCCESS {
          more := FilesOffer(e, r.control, j, Accepted(priv));
        } else if r.rc != ERROR {
          more := FilesOffer(e, r.control, j + 1, AtPublicKey);
        }
        added := TryThenMore(e, c, j, pub, priv, more);
      case Accepted(priv) =>
        if priv.None? && id.privFile.Imported? {
          added := FilesOffer(e, c, j, Accepted(Some(id.privKey)));
        } else if priv.None? {
          added := FilesOffer(e, c, j + 1, AtPublicKey);
        } else {
          var r := Sign(e, c, priv.value);
          var more: seq<Packet> := [];
          if r.rc == DENIED {
            more := FilesOffer(e, r.control, j + 1, AtPublicKey);
          }
          added := SignThenMore(e, c, j, priv.value, more);
        }
    }
  }

  /** The keys of the agent that are offered are among those it has, in order; an accepted one is not offered again. */
  lemma {:induction false} AgentOffers(e: Env, c: Control, i: nat, accepted: bool, last: Rc)
    returns (added: seq<Packet>)
    ensures AgentFrom(e, c, i, accepted, last).control.sent == c.sent + added
    ensures i < |e.agentKeys| ==> Among(Offered(added), e.agentKeys[if accepted then i + 1 else i..])
    ensures i >= |e.agentKeys| ==> added == []
    decreases |e.agentKeys| - i, !accepted
  {
    added := [];
    if i < |e.agentKeys| {
      var key, rest := e.agentKeys[i], e.agentKeys[i + 1..];
      assert e.agentKeys[i..] == [key] + rest;
      var own: seq<Packet>, more: seq<Packet> := [], [];
      if !accepted {
        own := TryOffers(e, c, key);
        var r := Try(e, c, key);
        if r.rc == SUCCESS {
          more := AgentOffers(e, r.control, i, true, r.rc);
        } else if r.rc != ERROR {
          more := AgentOffers(e, r.control, i + 1, false, r.rc);
        }
      } else {
        own := AgentSignOffers(e, c, key);
        var r := AgentSign(e, c, key);
        if r.rc == DENIED {
          more := AgentOffers(e, r.control, i + 1, false, r.rc);
        }
      }
      OneThenMore(own, key, more, rest);
      added := own + more;
      Associate(c.sent, own, more);
    }
  }

  lemma {:induction false} AmongConcat(a: seq<Key>, b: seq<Key>, x: seq<Key>, y: seq<Key>)
    requires Among(a, x) && Among(b, y)
    ensures Among(a + b, x + y)
    decreases |x|
  {
    if x == [] {
      assert a + b == b && x + y == y;
    } else {
      assert (x + y)[1..] == x[1..] + y;
      if a == [] {
        AmongConcat([], b, x[1..], y);
        assert a + b == b && [] + b == b;
      } else if a[0] == x[0] && Among(a[1..], x[1..]) {
        AmongConcat(a[1..], b, x[1..], y);
        assert (a + b)[1..] == a[1..] + b;
      } else {
        AmongConcat(a, b, x[1..], y);
      }
    }
  }

  /** What the agent's part sends. */
  lemma AgentPartOffers(e: Env, c: Control) returns (added: seq<Packet>)
    ensures AgentPart(e, c).control.sent == c.sent + added
    ensures Among(Offered(added), if e.agentRunning then e.agentKeys else [])
  {
    added := [];
    assert c.sent + [] == c.sent;
    if e.agentRunning && e.agentKeys != [] {
      added := AgentOffers(e, c, 0, false, ERROR);
      assert e.agentKeys[0..] == e.agentKeys;
    }
  }

  function AgentPart(e: Env, c: Control): Result {
    if !e.agentRunning || e.agentKeys == [] then Result(c, DENIED) else AgentFrom(e, c, 0, false, ERROR)
  }

  /** Two parts of a run one after the other. */
  lemma OffersJoin(sent: seq<Packet>, a: seq<Packet>, b: seq<Packet>, x: seq<Key>, y: seq<Key>)
    requires Among(Offered(a), x) && Among(Offered(b), y)
    ensures Among(Offered(a + b), x + y) && sent + a + b == sent + (a + b)
  {
    OfferedConcat(a, b);
    AmongConcat(Offered(a), Offered(b), x, y);
    Associate(sent, a, b);
  }

  /** Each key of the agent and each identity is offered at most once, the agent's first, in the order of the lists. */
  lemma OffersInOrder(e: Env, c: Control) returns (added: seq<Packet>)
    ensures Uninterrupted(e, c).control.sent == c.sent + added
    ensures Among(Offered(added), (if e.agentRunning then e.agentKeys else []) + PublicKeys(e.identities))
  {
    added := [];
    assert c.sent + [] == c.sent;
    if e.enabled {
      var keys := if e.agentRunning then e.agentKeys else [];
      var first := AgentPartOffers(e, c);
      var r := AgentPart(e, c);
      var more: seq<Packet> := [];
      if r.rc != SUCCESS && r.rc != PARTIAL {
        more := FilesOffer(e, r.control, 0, AtPublicKey);
        AllLeft(e);
      }
      OffersJoin(c.sent, first, more, keys, PublicKeys(e.identities));
      added := first + more;
      assert first + [] == first;
    }
  }

  lemma AllLeft(e: Env)
    ensures Left(e, 0, AtPublicKey) == PublicKeys(e.identities)
  {
  }

  /** The server has answered a signature with success, and nothing was sent after it. */
  ghost predicate AcceptedSignature(e: Env, sent: seq<Packet>) {
    sent != [] && sent[|sent| - 1].Signed? && e.server(sent) == Success
  }

  /** No call is pending, or the connection is gone and none will be answered. */
  predicate Calm(c: Control) {
    c.pending == NoCall || c.dead
  }

  lemma RequestSuccess(e: Env, c: Control, p: Packet, kind: Pending)
    ensures var r := Request(e, c, p, kind);
      Calm(r.control) && (r.rc == SUCCESS && p.Signed? && kind != OfferPending ==> AcceptedSignature(e, r.control.sent))
  {
  }

  /** One request leaves the session calm, and a signature that succeeds was accepted. */
  lemma OneSuccess(e: Env, c: Control, key: Key)
    requires Calm(c)
    ensures Calm(Try(e, c, key).control) && Calm(Sign(e, c, key).control) && Calm(AgentSign(e, c, key).control)
    ensures Sign(e, c, key).rc == SUCCESS ==> AcceptedSignature(e, Sign(e, c, key).control.sent)
    ensures AgentSign(e, c, key).rc == SUCCESS ==> AcceptedSignature(e, AgentSign(e, c, key).control.sent)
  {
    var d := Serve(e, c);
    RequestSuccess(e, d, Offer(key), OfferPending);
    RequestSuccess(e, d, Signed(key), AuthPending);
    RequestSuccess(e, d, Signed(key), AgentPending);
  }

  lemma {:induction false} AgentSuccess(e: Env, c: Control, i: nat, accepted: bool, last: Rc)
    requires Calm(c) && AgentFrom(e, c, i, accepted, last).rc == SUCCESS && (last == SUCCESS ==> i < |e.agentKeys|)
    ensures AcceptedSignature(e, AgentFrom(e, c, i, accepted, last).control.sent)
    decreases |e.agentKeys| - i, !accepted
  {
    OneSuccess(e, c, e.agentKeys[i]);
    if !accepted {
      var r := Try(e, c, e.agentKeys[i]);
      AgentSuccess(e, r.control, if r.rc == SUCCESS then i else i + 1, r.rc == SUCCESS, r.rc);
    } else {
      var r := AgentSign(e, c, e.agentKeys[i]);
      if r.rc == DENIED {
        AgentSuccess(e, r.control, i + 1, false, r.rc);
      }
    }
  }

  lemma {:induction false} FilesSuccess(e: Env, c: Control, j: nat, s: Stage)
    requires Calm(c) && Files(e, c, j, s).rc == SUCCESS
    ensures AcceptedSignature(e, Files(e, c, j, s).control.sent)
    decreases |e.identities| - j, Rank(s)
  {
    var id := e.identities[j];
    match s
    case AtPublicKey =>
      if id.pubFile.Imported? {
        FilesSuccess(e, c, j, HasKey(id.pubKey, None));
      } else if !id.privFile.Imported? {
        FilesSuccess(e, c, j + 1, AtPublicKey);
      } else {
        FilesSuccess(e, c, j, HasKey(id.derived.value, Some(id.privKey)));
      }
    case HasKey(pub, priv) =>
      var r := Try(e, c, pub);
      OneSuccess(e, c, pub);
      if r.rc == SUCCESS {
        FilesSuccess(e, r.control, j, Accepted(priv));
      } else {
        FilesSuccess(e, r.control, j + 1, AtPublicKey);
      }
    case Accepted(priv) =>
      if priv.None? {
        if id.privFile.Imported? {
          FilesSuccess(e, c, j, Accepted(Some(id.privKey)));
        } else {
          FilesSuccess(e, c, j + 1, AtPublicKey);
        }
      } else {
        var r := Sign(e, c, priv.value);
        OneSuccess(e, c, priv.value);
        if r.rc == DENIED {
          FilesSuccess(e, r.control, j + 1, AtPublicKey);
        }
      }
  }

  lemma {:induction false} AgentStaysCalm(e: Env, c: Control, i: nat, accepted: bool, last: Rc)
    requires Calm(c)
    ensures Calm(AgentFrom(e, c, i, accepted, last).control)
    decreases |e.agentKeys| - i, !accepted
  {
    if i < |e.agentKeys| {
      var key := e.agentKeys[i];
      OneSuccess(e, c, key);
      if !accepted {
        var r := Try(e, c, key);
        if r.rc != ERROR {
          AgentStaysCalm(e, r.control, if r.rc == SUCCESS then i else i + 1, r.rc == SUCCESS, r.rc);
        }
      } else if AgentSign(e, c, key).rc == DENIED {
        AgentStaysCalm(e, AgentSign(e, c, key).control, i + 1, false, DENIED);
      }
    }
  }

  /** Success is only ever reported when the server has accepted a signature, after which nothing more is sent. */
  lemma SuccessIsTheServers(e: Env, c: Control)
    requires Calm(c) && Uninterrupted(e, c).rc == SUCCESS
    ensures AcceptedSignature(e, Uninterrupted(e, c).control.sent)
  {
    var r := Result(c, DENIED);
    if e.agentRunning && e.agentKeys != [] {
      r := AgentFrom(e, c, 0, false, ERROR);
      AgentStaysCalm(e, c, 0, false, ERROR);
    }
    if r.rc == SUCCESS {
      AgentSuccess(e, c, 0, false, ERROR);
    } else {
      FilesSuccess(e, r.control, 0, AtPublicKey);
    }
  }

  // Every signature follows the accepted offer it is about

  /** The public key was offered for this one: by the agent, or as the two halves of one identity. */
  ghost predicate Halves(e: Env, pub: Key, key: Key) {
    (pub == key && key in e.agentKeys)
    || exists id :: id in e.identities && PublicOf(id) == [pub] && id.privFile.Imported? && key == id.privKey
  }

  /** The last packet is an offer of `pub`, and the server accepted it. */
  predicate OfferAccepted(e: Env, sent: seq<Packet>, pub: Key) {
    sent != [] && sent[|sent| - 1] == Offer(pub) && (e.server(sent) == PkOk || e.server(sent) == Success)
  }

  /** After `before`, of which this run sent the packets from number `from` on, a signature with `key` is in place. */
  ghost predicate InPlace(e: Env, before: seq<Packet>, from: nat, key: Key) {
    |before| > from && exists pub :: OfferAccepted(e, before, pub) && Halves(e, pub, key)
  }

  /** From packet number `from` on, a signature is sent right after the server has accepted the offer for it. */
  ghost predicate Backed(e: Env, sent: seq<Packet>, from: nat) {
    from <= |sent| && forall i :: from <= i < |sent| && sent[i].Signed? ==> InPlace(e, sent[..i], from, sent[i].key)
  }

  /** The state after an accepted offer of this run, unless the connection is gone. */
  predicate JustAccepted(e: Env, c: Control, pub: Key, from: nat) {
    c.dead || (c.service == ServiceAccepted && |c.sent| > from && OfferAccepted(e, c.sent, pub))
  }

  lemma BackedAppend(e: Env, sent: seq<Packet>, from: nat, p: Packet)
    requires Backed(e, sent, from) && (p.Signed? ==> InPlace(e, sent, from, p.key))
    ensures Backed(e, sent + [p], from)
  {
    var more := sent + [p];
    forall i | from <= i < |more| && more[i].Signed? ensures InPlace(e, more[..i], from, more[i].key) {
      assert more[..i] == sent[..i];
      assert sent[..|sent|] == sent;
    }
  }

  lemma ServeBacked(e: Env, c: Control, from: nat)
    requires Backed(e, c.sent, from)
    ensures Backed(e, Serve(e, c).sent, from)
  {
    BackedAppend(e, c.sent, from, ServiceRequest);
  }

  lemma TryBacked(e: Env, c: Control, key: Key, from: nat)
    requires Calm(c) && Backed(e, c.sent, from)
    ensures var r := Try(e, c, key);
      Calm(r.control) && Backed(e, r.control.sent, from) && (r.rc == SUCCESS ==> JustAccepted(e, r.control, key, from))
  {
    OneSuccess(e, c, key);
    ServeBacked(e, c, from);
    BackedAppend(e, Serve(e, c).sent, from, Offer(key));
  }

  /** After an accepted offer the service is not requested again, so a signature is the next packet. */
  lemma SignBacked(e: Env, c: Control, pub: Key, key: Key, from: nat)
    requires Calm(c) && Backed(e, c.sent, from) && JustAccepted(e, c, pub, from) && Halves(e, pub, key)
    ensures Calm(Sign(e, c, key).control) && Backed(e, Sign(e, c, key).control.sent, from)
    ensures Calm(AgentSign(e, c, key).control) && Backed(e, AgentSign(e, c, key).control.sent, from)
  {
    OneSuccess(e, c, key);
    ServeBacked(e, c, from);
    if !c.dead {
      BackedAppend(e, c.sent, from, Signed(key));
    }
  }

  lemma {:induction false} AgentBacked(e: Env, c: Control, i: nat, accepted: bool, last: Rc, from: nat)
    requires Calm(c) && Backed(e, c.sent, from)
    requires accepted && i < |e.agentKeys| ==> JustAccepted(e, c, e.agentKeys[i], from)
    ensures var r := AgentFrom(e, c, i, accepted, last); Calm(r.control) && Backed(e, r.control.sent, from)
    decreases |e.agentKeys| - i, !accepted
  {
    if i < |e.agentKeys| {
      var key := e.agentKeys[i];
      if !accepted {
        var r := Try(e, c, key);
        TryBacked(e, c, key, from);
        if r.rc != ERROR {
          AgentBacked(e, r.control, if r.rc == SUCCESS then i else i + 1, r.rc == SUCCESS, r.rc, from);
        }
      } else {
        var r := AgentSign(e, c, key);
        SignBacked(e, c, key, key, from);
        if r.rc == DENIED {
          AgentBacked(e, r.control, i + 1, false, r.rc, from);
        }
      }
    }
  }

  /** The keys a stage holds are those of the identity; an accepted one was offered as `pub`. */
  predicate StageFits(e: Env, c: Control, id: Identity, s: Stage, pub: Key, from: nat) {
    match s
    case AtPublicKey => true
    case HasKey(k, priv) => PublicOf(id) == [k] && PrivateFits(id, priv)
    case Accepted(priv) => PublicOf(id) == [pub] && PrivateFits(id, priv) && JustAccepted(e, c, pub, from)
  }

  predicate PrivateFits(id: Identity, priv: Option<Key>) {
    priv.Some? ==> id.privFile.Imported? && priv.value == id.privKey
  }

  lemma {:induction false} FilesBacked(e: Env, c: Control, j: nat, s: Stage, pub: Key, from: nat)
    requires Calm(c) && Backed(e, c.sent, from)
    requires j < |e.identities| ==> StageFits(e, c, e.identities[j], s, pub, from)
    ensures Backed(e, Files(e, c, j, s).control.sent, from)
    decreases |e.identities| - j, Rank(s)
  {
    if j < |e.identities| {
      var id := e.identities[j];
      match s
      case AtPublicKey =>
        if id.pubFile.Imported? {
          FilesBacked(e, c, j, HasKey(id.pubKey, None), pub, from);
        } else if id.pubFile.NoFile? && !id.privFile.Imported? {
          FilesBacked(e, c, j + 1, AtPublicKey, pub, from);
        } else if id.pubFile.NoFile? && id.derived.Some? {
          FilesBacked(e, c, j, HasKey(id.derived.value, Some(id.privKey)), pub, from);
        }
      case HasKey(k, priv) =>
        var r := Try(e, c, k);
        TryBacked(e, c, k, from);
        if r.rc == SUCCESS {
          FilesBacked(e, r.control, j, Accepted(priv), k, from);
        } else if r.rc != ERROR {
          FilesBacked(e, r.control, j + 1, AtPublicKey, pub, from);
        }
      case Accepted(priv) =>
        if priv.None? && id.privFile.Imported? {
          FilesBacked(e, c, j, Accepted(Some(id.privKey)), pub, from);
        } else if priv.None? {
          FilesBacked(e, c, j + 1, AtPublicKey, pub, from);
        } else {
          var r := Sign(e, c, priv.value);
          assert id in e.identities && PublicOf(id) == [pub];
          SignBacked(e, c, pub, priv.value, from);
          if r.rc == DENIED {
            FilesBacked(e, r.control, j + 1, AtPublicKey, pub, from);
          }
        }
    }
  }

  /**
   * Every signature the call sends comes right after the server has accepted an offer made in this call: of the same
   * key of the agent, or of the public key of the identity whose private key signs.
   */
  lemma SignedAfterOffer(e: Env, c: Control)
    requires Calm(c)
    ensures Backed(e, Uninterrupted(e, c).control.sent, |c.sent|)
  {
    if e.enabled {
      var any := Key(0, false, false, false);
      var r := AgentPart(e, c);
      AgentBacked(e, c, 0, false, ERROR, |c.sent|);
      if r.rc != SUCCESS && r.rc != PARTIAL {
        FilesBacked(e, r.control, 0, AtPublicKey, any, |c.sent|);
      }
    }
  }

  // Calls that may have to be repeated

  datatype AuthState = Fresh | OfferSent | AuthSent | Reply(rc: Rc)
  datatype AgentStage = AgentNone | AgentPubkey | AgentAuth
  datatype AgentState = AgentState(stage: AgentStage, next: nat)
  datatype AutoStage = AutoNone | AutoPubkey | AutoImported | AutoAccepted
  datatype AutoState = AutoState(stage: AutoStage, it: Option<nat>, priv: Option<Key>, pub: Option<Key>)

  /** How a part of the loop over the identities ends: it goes on, turns to the next identity, or returns. */
  datatype Round = GoOn | NextIdentity | Return(rc: Rc)

  class Session {
    const env: Env
    /** How many polls after the n-th packet find no answer yet. */
    const schedule: nat -> nat
    var service: Service
    var auth: AuthState
    var pending: Pending
    var agent: Option<AgentState>
    var auto: Option<AutoState>
    var sent: seq<Packet>
    var delay: nat
    /** The connection is gone. */
    var dead: bool

    ghost function Now(): Control
      reads this
    {
      Control(service, sent, pending, dead)
    }

    constructor (env: Env, schedule: nat -> nat)
      ensures this.env == env && this.schedule == schedule && Now() == Control(NotRequested, [], NoCall, false)
      ensures agent == None && auto == None
    {
      this.env, this.schedule := env, schedule;
      service, auth, pending, agent, auto, sent, delay, dead := NotRequested, Fresh, NoCall, None, None, [], 0, false;
    }

    method Send(p: Packet) returns (ok: bool)
      modifies this`sent, this`delay, this`dead
      ensures Now() == Transmit(env, old(Now()), p) && ok == !dead
      ensures !ok ==> delay == old(delay)
    {
      if dead || env.refuses(sent) {
        dead := true;
        return false;
      }
      sent := sent + [p];
      delay := schedule(|sent|);
      return true;
    }

    /** Request the service once and wait for it to be accepted. */
    method RequestService() returns (rc: Rc)
      modifies this`service, this`sent, this`delay, this`dead
      ensures rc == AGAIN ==> service == ServiceSent && Serve(env, Now()) == Serve(env, old(Now()))
      ensures rc != AGAIN ==> Now() == Serve(env, old(Now()))
      ensures rc != AGAIN ==> rc == if service == ServiceAccepted then SUCCESS else ERROR
      ensures Progress(rc)
    {
      if service == NotRequested {
        service := ServiceSent;
        var ok := Send(ServiceRequest);
        if !ok {
          return ERROR;
        }
      }
      if service == ServiceSent {
        if dead {
          return ERROR;
        }
        if delay > 0 {
          delay := delay - 1;
          return AGAIN;
        }
        if env.server(sent) == Lost {
          dead := true;
          return ERROR;
        }
        service := ServiceAccepted;
      }
      return SUCCESS;
    }

    /** The answer to the last request, if it is there. */
    method GetResponse() returns (rc: Rc)
      requires auth == OfferSent || auth == AuthSent
      modifies this`auth, this`delay, this`dead
      ensures rc == AGAIN ==> auth == old(auth) && dead == old(dead) && delay < old(delay)
      ensures rc != AGAIN ==> delay == old(delay)
      ensures rc != AGAIN ==> Result(Now().(pending := NoCall), rc) == Await(env, old(Now()), old(auth) == OfferSent)
    {
      if dead {
        return ERROR;
      }
      if delay > 0 {
        delay := delay - 1;
        return AGAIN;
      }
      if env.server(sent) == Lost {
        dead := true;
        return ERROR;
      }
      auth := Reply(Answer(env, sent, auth == OfferSent));
      return auth.rc;
    }

    /** A request that was interrupted while waiting has been sent. */
    ghost predicate Consistent()
      reads this
    {
      && (pending == OfferPending ==> auth == OfferSent)
      && (pending == AuthPending || pending == AgentPending ==> auth == AuthSent)
    }

    /** What a call that returns `rc` has done to the packets: an interrupted call has sent more or waited longer. */
    twostate predicate Progress(rc: Rc)
      reads this
    {
      old(sent) <= sent && (sent == old(sent) ==> if rc == AGAIN then delay < old(delay) else delay <= old(delay))
    }

    method TryPublickey(key: Key) returns (rc: Rc)
      requires Consistent()
      modifies this`service, this`auth, this`pending, this`sent, this`delay, this`dead
      ensures Consistent() && Progress(rc)
      ensures if rc == AGAIN then Try(env, Now(), key) == Try(env, old(Now()), key)
              else Result(Now(), rc) == Try(env, old(Now()), key)
    {
      if pending != NoCall && pending != OfferPending {
        return ERROR;
      }
      if pending == NoCall {
        if !key.allowed {
          return DENIED;
        }
        rc := RequestService();
        if rc != SUCCESS {
          return;
        }
        if !key.exports {
          return ERROR;
        }
        auth, pending := OfferSent, OfferPending;
        var ok := Send(Offer(key));
        if !ok {
          return ERROR;
        }
      }
      rc := GetResponse();
      if rc != AGAIN {
        pending := NoCall;
      }
    }

    method Publickey(key: Key) returns (rc: Rc)
      requires Consistent()
      modifies this`service, this`auth, this`pending, this`sent, this`delay, this`dead
      ensures Consistent() && Progress(rc)
      ensures if rc == AGAIN then Sign(env, Now(), key) == Sign(env, old(Now()), key)
              else Result(Now(), rc) == Sign(env, old(Now()), key)
    {
      if pending != NoCall && pending != AuthPending {
        return ERROR;
      }
      if pending == NoCall {
        if !key.allowed {
          return DENIED;
        }
        rc := RequestService();
        if rc != SUCCESS {
          return;
        }
        if !key.exports || !key.signs {
          return ERROR;
        }
        auth, pending := AuthSent, AuthPending;
        var ok := Send(Signed(key));
        if !ok {
          return ERROR;
        }
      }
      rc := GetResponse();
      if rc != AGAIN {
        pending := NoCall;
      }
    }

    method AgentPublickey(key: Key) returns (rc: Rc)
      requires Consistent()
      modifies this`service, this`auth, this`pending, this`sent, this`delay, this`dead
      ensures Consistent() && Progress(rc)
      ensures if rc == AGAIN then AgentSign(env, Now(), key) == AgentSign(env, old(Now()), key)
              else Result(Now(), rc) == AgentSign(env, old(Now()), key)
    {
      if pending != NoCall && pending != AgentPending {
        return ERROR;
      }
      if pending == NoCall {
        rc := RequestService();
        if rc != SUCCESS {
          return;
        }
        if !key.exports {
          return ERROR;
        }
        if !key.allowed {
          return DENIED;
        }
        if !key.signs {
          return ERROR;
        }
        auth, pending := AuthSent, AgentPending;
        var ok := Send(Signed(key));
        if !ok {
          return ERROR;
        }
      }
      rc := GetResponse();
      if rc != AGAIN {
        pending := NoCall;
      }
    }

    // The agent's keys

    /** The agent state between calls: none, or stopped at one of the keys. */
    ghost predicate AgentReady()
      reads this
    {
      match agent
      case None => Consistent()
      case Some(a) =>
        if a.next >= |env.agentKeys| then a == AgentState(AgentNone, 0) && Consistent()
        else env.agentRunning && Consistent()
    }

    /** What the call on the agent amounts to from here on. */
    ghost function AgentRest(): Result
      reads this
    {
      if !env.agentRunning || env.agentKeys == [] then Result(Now(), DENIED)
      else if agent.None? || agent.value.next >= |env.agentKeys| then AgentFrom(env, Now(), 0, false, ERROR)
      else AgentFrom(env, Now(), agent.value.next, agent.value.stage == AgentAuth, ERROR)
    }

    /** Sign with an accepted key of the agent: `done` if the loop ends, else the next key's turn has come. */
    method AgentAuthenticate() returns (done: bool, rc: Rc)
      requires AgentReady() && agent.Some? && agent.value.next < |env.agentKeys| && agent.value.stage == AgentAuth
      modifies this`service, this`auth, this`pending, this`sent, this`delay, this`dead, this`agent
      ensures Progress(rc) && (rc == AGAIN ==> done)
      ensures rc == AGAIN ==> AgentReady() && agent == old(agent) && AgentRest() == old(AgentRest())
      ensures done && rc != AGAIN ==> agent == None && Consistent() && Result(Now(), rc) == old(AgentRest())
      ensures !done ==> agent == Some(AgentState(AgentNone, old(agent).value.next + 1)) && Consistent()
      ensures !done ==> AgentFrom(env, Now(), agent.value.next, false, rc) == old(AgentRest())
    {
      var next := agent.value.next;
      rc := AgentPublickey(env.agentKeys[next]);
      if rc == AGAIN {
        return true, rc;
      }
      if rc == ERROR || rc == PARTIAL || rc == SUCCESS {
        agent := None;
        return true, rc;
      }
      agent := Some(AgentState(AgentNone, next + 1));
      return false, rc;
    }

    /** One round of the loop over the agent's keys. */
    method AgentRound() returns (done: bool, rc: Rc)
      requires AgentReady() && agent.Some? && agent.value.next < |env.agentKeys|
      modifies this`service, this`auth, this`pending, this`sent, this`delay, this`dead, this`agent
      ensures Progress(rc) && (rc == AGAIN ==> done)
      ensures rc == AGAIN ==> AgentReady() && agent.Some? && agent.value.next < |env.agentKeys|
      ensures rc == AGAIN ==> AgentRest() == old(AgentRest())
      ensures done && rc != AGAIN ==> agent == None && Consistent() && Result(Now(), rc) == old(AgentRest())
      ensures !done ==> agent == Some(AgentState(AgentNone, old(agent).value.next + 1)) && Consistent()
      ensures !done ==> AgentFrom(env, Now(), agent.value.next, false, rc) == old(AgentRest())
    {
      var next := agent.value.next;
      if agent.value.stage != AgentAuth {
        rc := TryPublickey(env.agentKeys[next]);
        if rc == ERROR {
          agent := None;
          return true, rc;
        } else if rc == AGAIN {
          agent := Some(AgentState(AgentPubkey, next));
          return true, rc;
        } else if rc != SUCCESS {
          agent := Some(AgentState(AgentNone, next + 1));
          return false, rc;
        }
        agent := Some(AgentState(AgentAuth, next));
        LastUnused(env, Now(), next, true, SUCCESS, ERROR);
      }
      assert AgentRest() == old(AgentRest());
      done, rc := AgentAuthenticate();
    }

    method Agent() returns (rc: Rc)
      requires AgentReady()
      modifies this`service, this`auth, this`pending, this`sent, this`delay, this`dead, this`agent
      ensures AgentReady() && Progress(rc)
      ensures rc == AGAIN ==> agent.Some? && agent.value.next < |env.agentKeys| && AgentRest() == old(AgentRest())
      ensures rc != AGAIN ==> Result(Now(), rc) == old(AgentRest()) && (agent == None || env.agentKeys == [])
    {
      if !env.agentRunning {
        return DENIED;
      }
      if agent.None? {
        agent := Some(AgentState(AgentNone, 0));
      }
      if env.agentKeys == [] {
        return DENIED;
      }
      rc := ERROR;
      while agent.value.next < |env.agentKeys|
        invariant agent.Some? && rc != AGAIN && Progress(rc)
        invariant if agent.value.next < |env.agentKeys| then AgentReady() && AgentRest() == old(AgentRest())
                  else Consistent() && Result(Now(), rc) == old(AgentRest())
        decreases |env.agentKeys| - agent.value.next
      {
        var done;
        done, rc := AgentRound();
        if done {
          return;
        }
      }
      agent := None;
    }

    // The key files

    /** The automatic call between calls: not begun, with the agent, or stopped at one of the identities. */
    ghost predicate AutoReady()
      reads this
    {
      match auto
      case None => AgentReady() && (agent == None || env.agentKeys == [])
      case Some(a) =>
        match a.stage
        case AutoNone => AgentReady() && a.it == None
        case _ => FilesReady()
    }

    /** Stopped at an identity, with the keys its stage calls for. */
    ghost predicate FilesReady()
      reads this
    {
      && auto.Some? && (auto.value.it.Some? ==> auto.value.it.value < |env.identities|)
      && match auto.value.stage
         case AutoNone => false
         case AutoPubkey => Consistent()
         case AutoImported => auto.value.it.Some? && auto.value.pub.Some? && Consistent()
         case AutoAccepted => auto.value.it.Some? && Consistent()
    }

    ghost function StageNow(): Stage
      requires FilesReady()
      reads this
    {
      var a := auto.value;
      match a.stage
      case AutoPubkey => AtPublicKey
      case AutoImported => HasKey(a.pub.value, a.priv)
      case AutoAccepted => Accepted(a.priv)
    }

    /** What the rest of the loop over the identities amounts to. */
    ghost function FilesRest(): Result
      requires FilesReady()
      reads this
    {
      Files(env, Now(), if auto.value.it.Some? then auto.value.it.value else |env.identities|, StageNow())
    }

    /** What the automatic call amounts to from here on. */
    ghost function AutoRest(): Result
      requires AutoReady()
      reads this
    {
      if !env.enabled then Result(Now(), DENIED)
      else if auto.Some? && auto.value.stage != AutoNone then
        if auto.value.it.Some? then FilesRest() else Files(env, Now(), 0, StageNow())
      else
        var r := AgentRest();
        if r.rc == SUCCESS || r.rc == PARTIAL then r else Files(env, r.control, 0, AtPublicKey)
    }

    function Following(it: nat): Option<nat> {
      if it + 1 < |env.identities| then Some(it + 1) else None
    }

    /** A part of the loop has done what the specification of the rest of the loop says. */
    twostate predicate RoundDone(r: Round, reached: AutoStage)
      requires old(FilesReady()) && old(auto).Some? && old(auto).value.it.Some?
      reads this
    {
      match r
      case GoOn =>
        FilesReady() && auto.value.it == old(auto).value.it && auto.value.stage == reached
        && FilesRest() == old(FilesRest())
      case NextIdentity =>
        FilesReady() && auto.value.stage == AutoPubkey && auto.value.it == Following(old(auto).value.it.value)
        && FilesRest() == old(FilesRest())
      case Return(AGAIN) =>
        FilesReady() && auto.value.stage != AutoPubkey && FilesRest() == old(FilesRest())
      case Return(rc) =>
        auto == None && Consistent() && Result(Now(), rc) == old(FilesRest())
    }

    /** Load the keys of an identity. */
    method ImportKeys() returns (r: Round)
      requires FilesReady() && auto.value.it.Some? && auto.value.stage == AutoPubkey
      modifies this`auto
      ensures RoundDone(r, AutoImported) && (r.Return? ==> r.rc == ERROR)
    {
      var it := auto.value.it.value;
      var id := env.identities[it];
      if id.pubFile.ImportError? {
        auto := None;
        return Return(ERROR);
      }
      if id.pubFile.Imported? {
        auto := Some(AutoState(AutoImported, Some(it), None, Some(id.pubKey)));
        return GoOn;
      }
      if !id.privFile.Imported? {
        auto := Some(AutoState(AutoPubkey, Following(it), None, None));
        return NextIdentity;
      }
      if id.derived.None? {
        auto := None;
        return Return(ERROR);
      }
      auto := Some(AutoState(AutoImported, Some(it), Some(id.privKey), id.derived));
      return GoOn;
    }

    /** Offer the public key of an identity. */
    method OfferKey() returns (r: Round)
      requires FilesReady() && auto.value.it.Some? && auto.value.stage == AutoImported
      modifies this`service, this`auth, this`pending, this`sent, this`delay, this`dead, this`auto
      ensures RoundDone(r, AutoAccepted) && Progress(if r.Return? then r.rc else SUCCESS)
    {
      var a := auto.value;
      var rc := TryPublickey(a.pub.value);
      if rc == ERROR {
        auto := None;
        return Return(rc);
      } else if rc == AGAIN {
        return Return(rc);
      } else if rc != SUCCESS {
        auto := Some(AutoState(AutoPubkey, Following(a.it.value), None, None));
        return NextIdentity;
      }
      auto := Some(a.(stage := AutoAccepted));
      return GoOn;
    }

    /** Load the private key of an accepted identity if that has not been done. */
    method ImportPrivate() returns (r: Round)
      requires FilesReady() && auto.value.it.Some? && auto.value.stage == AutoAccepted
      modifies this`auto
      ensures RoundDone(r, AutoAccepted) && !r.Return? && (r.GoOn? ==> auto.value.priv.Some?)
    {
      var a := auto.value;
      if a.priv.None? {
        var id := env.identities[a.it.value];
        if !id.privFile.Imported? {
          auto := Some(AutoState(AutoPubkey, Following(a.it.value), None, None));
          return NextIdentity;
        }
        auto := Some(a.(priv := Some(id.privKey)));
      }
      return GoOn;
    }

    /** Authenticate with the private key of an accepted identity. */
    method UseKey() returns (r: Round)
      requires FilesReady() && auto.value.it.Some? && auto.value.stage == AutoAccepted && auto.value.priv.Some?
      modifies this`service, this`auth, this`pending, this`sent, this`delay, this`dead, this`auto
      ensures RoundDone(r, AutoAccepted) && !r.GoOn? && Progress(if r.Return? then r.rc else DENIED)
    {
      var a := auto.value;
      var rc := Publickey(a.priv.value);
      if rc != AGAIN && rc != DENIED {
        auto := None;
        return Return(rc);
      }
      if rc == AGAIN {
        return Return(rc);
      }
      auto := Some(AutoState(AutoPubkey, Following(a.it.value), None, None));
      return NextIdentity;
    }

    /** One identity, from the stage it has reached. */
    method TryIdentity() returns (r: Round)
      requires FilesReady() && auto.value.it.Some?
      modifies this`service, this`auth, this`pending, this`sent, this`delay, this`dead, this`auto
      ensures RoundDone(r, AutoAccepted) && !r.GoOn? && Progress(if r.Return? then r.rc else DENIED)
    {
      if auto.value.stage == AutoPubkey {
        r := ImportKeys();
        if !r.GoOn? {
          return;
        }
      }
      if auto.value.stage == AutoImported {
        r := OfferKey();
        if !r.GoOn? {
          return;
        }
      }
      r := ImportPrivate();
      if r.GoOn? {
        r := UseKey();
      }
    }

    /** Try the agent, then one identity after the other; a call that returns AGAIN is to be made again. */
    method PublickeyAuto() returns (rc: Rc)
      requires AutoReady()
      modifies this
      ensures Progress(rc)
      ensures rc == AGAIN ==> AutoReady() && AutoRest() == old(AutoRest())
      ensures rc != AGAIN ==> Result(Now(), rc) == old(AutoRest())
    {
      if !env.enabled {
        return DENIED;
      }
      if auto.None? {
        auto := Some(AutoState(AutoNone, None, None, None));
      }
      if auto.value.stage == AutoNone {
        rc := Agent();
        if rc == SUCCESS || rc == PARTIAL || rc == AGAIN {
          return;
        }
        auto := Some(auto.value.(stage := AutoPubkey));
      }
      if auto.value.it.None? {
        auto := Some(auto.value.(it := if env.identities == [] then None else Some(0)));
      }
      rc := TryIdentities();
    }

    method TryIdentities() returns (rc: Rc)
      requires FilesReady()
      modifies this`service, this`auth, this`pending, this`sent, this`delay, this`dead, this`auto
      ensures Progress(rc)
      ensures rc == AGAIN ==> FilesReady() && auto.value.stage != AutoPubkey && FilesRest() == old(FilesRest())
      ensures rc != AGAIN ==> Result(Now(), rc) == old(FilesRest())
    {
      while auto.value.it.Some?
        invariant FilesReady() && FilesRest() == old(FilesRest()) && Progress(DENIED)
        decreases |env.identities| - (if auto.value.it.Some? then auto.value.it.value else |env.identities|)
      {
        var r := TryIdentity();
        if r.Return? {
          return r.rc;
        }
      }
      auto := None;
      return DENIED;
    }

    /**
     * Call again until the answer is not AGAIN. Whatever the schedule, the packets sent and the result are those of
     * the uninterrupted call.
     */
    method Authenticate() returns (rc: Rc)
      requires auto == None && agent == None && Consistent()
      modifies this
      ensures rc != AGAIN && Result(Now(), rc) == Uninterrupted(env, old(Now()))
    {
      rc := AGAIN;
      ghost var goal := AutoRest();
      while rc == AGAIN
        invariant if rc == AGAIN then AutoReady() && AutoRest() == goal else Result(Now(), rc) == goal
        decreases if rc == AGAIN then |goal.control.sent| - |sent| else 0, delay, rc == AGAIN
      {
        rc := PublickeyAuto();
        if rc == AGAIN {
          RestGrows();
        }
      }
    }

    lemma RestGrows()
      requires AutoReady()
      ensures Now().sent <= AutoRest().control.sent
    {
      if env.enabled {
        if auto.Some? && auto.value.stage != AutoNone {
          var j := if auto.value.it.Some? then auto.value.it.value else 0;
          var added := FilesOffer(env, Now(), j, StageNow());
        } else {
          var c := Now();
          if env.agentRunning && env.agentKeys != [] {
            var first := agent.None? || agent.value.next >= |env.agentKeys|;
            var i := if first then 0 else agent.value.next;
            var added := AgentOffers(env, Now(), i, !first && agent.value.stage == AgentAuth, ERROR);
          }
          var r := AgentRest();
          var more := FilesOffer(env, r.control, 0, AtPublicKey);
        }
      }
    }
  }
}
