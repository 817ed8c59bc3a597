/**
 * What the client and the server say to each other in a public key authentication: which keys are offered and signed
 * with, in which order, and how the call ends, in terms of the keys, the answers and the packets alone.
 */
module Conversation {
  import opened Bytes
  import opened Auth

  /** The end of the agent's part: its result, how far the service request is, and whether the connection is gone. */
  datatype End = End(rc: Rc, service: Service, gone: bool, stuck: bool)

  function ServiceRank(s: Service): nat {
    match s
    case NotRequested => 2
    case ServiceSent => 1
    case ServiceAccepted => 0
  }

  /**
   * With the agent's `keys`, after the packets `before`, the client sends `ps`. A key that is not allowed is passed
   * over. The service is requested before the first offer. A refused key is followed by the next one, an accepted one
   * by its signature; an accepted signature ends the call, a refused one is followed by the next key.
   */
  ghost predicate AgentTalk(e: Env, keys: seq<Key>, service: Service, before: seq<Packet>, last: Rc,
                            ps: seq<Packet>, end: End)
    decreases |keys|, ServiceRank(service)
  {
    if keys == [] then ps == [] && end == End(last, service, false, false)
    else if !keys[0].allowed then AgentTalk(e, keys[1..], service, before, DENIED, ps, end)
    else if service == NotRequested then
      if e.refuses(before) then ps == [] && end == End(ERROR, ServiceSent, true, false)
      else
        ps != [] && ps[0] == ServiceRequest
        && AgentTalk(e, keys, ServiceSent, before + [ServiceRequest], last, ps[1..], end)
    else if service == ServiceSent then
      if e.server(before) == Lost then ps == [] && end == End(ERROR, ServiceSent, true, false)
      else AgentTalk(e, keys, ServiceAccepted, before, last, ps, end)
    else if !keys[0].exports then ps == [] && end == End(ERROR, service, false, false)
    else if e.refuses(before) then ps == [] && end == End(ERROR, service, true, true)
    else
      ps != [] && ps[0] == Offer(keys[0]) &&
      var offered := before + [Offer(keys[0])];
      match e.server(offered)
      case Lost => ps[1..] == [] && end == End(ERROR, service, true, false)
      case Malformed => ps[1..] == [] && end == End(ERROR, service, false, false)
      case Failure => AgentTalk(e, keys[1..], service, offered, DENIED, ps[1..], end)
      case PartialSuccess => AgentTalk(e, keys[1..], service, offered, PARTIAL, ps[1..], end)
      case _ =>
        if !keys[0].signs then ps[1..] == [] && end == End(ERROR, service, false, false)
        else if e.refuses(offered) then ps[1..] == [] && end == End(ERROR, service, true, true)
        else
          ps[1..] != [] && ps[1] == Signed(keys[0]) &&
          var signed := offered + [Signed(keys[0])];
          match e.server(signed)
          case Success => ps[2..] == [] && end == End(SUCCESS, service, false, false)
          case PartialSuccess => ps[2..] == [] && end == End(PARTIAL, service, false, false)
          case Failure => AgentTalk(e, keys[1..], service, signed, DENIED, ps[2..], end)
          case Lost => ps[2..] == [] && end == End(ERROR, service, true, false)
          case _ => ps[2..] == [] && end == End(ERROR, service, false, false)
  }

  /** The public key file is damaged, or there is none and the private key does not give one. */
  predicate Unloadable(id: Identity) {
    id.pubFile.ImportError? || (id.pubFile.NoFile? && id.privFile.Imported? && id.derived.None?)
  }

  /**
   * With the identities `ids`: one without keys is passed over, and an unloadable one ends the call. The private key is
   * only needed once the public one has been accepted; if it cannot be loaded or is not allowed, the next identity
   * follows.
   */
  ghost predicate FileTalk(e: Env, ids: seq<Identity>, service: Service, before: seq<Packet>, ps: seq<Packet>, rc: Rc)
    decreases |ids|, ServiceRank(service)
  {
    if ids == [] then ps == [] && rc == DENIED
    else if Unloadable(ids[0]) then ps == [] && rc == ERROR
    else if PublicOf(ids[0]) == [] then FileTalk(e, ids[1..], service, before, ps, rc)
    else
      var pub, priv := PublicOf(ids[0])[0], ids[0].privKey;
      if !pub.allowed then FileTalk(e, ids[1..], service, before, ps, rc)
      else if service == NotRequested then
        if e.refuses(before) then ps == [] && rc == ERROR
        else
          ps != [] && ps[0] == ServiceRequest
          && FileTalk(e, ids, ServiceSent, before + [ServiceRequest], ps[1..], rc)
      else if service == ServiceSent then
        if e.server(before) == Lost then ps == [] && rc == ERROR
        else FileTalk(e, ids, ServiceAccepted, before, ps, rc)
      else if !pub.exports || e.refuses(before) then ps == [] && rc == ERROR
      else
        ps != [] && ps[0] == Offer(pub) &&
        var offered := before + [Offer(pub)];
        match e.server(offered)
        case Lost => ps[1..] == [] && rc == ERROR
        case Malformed => ps[1..] == [] && rc == ERROR
        case Failure => FileTalk(e, ids[1..], service, offered, ps[1..], rc)
        case PartialSuccess => FileTalk(e, ids[1..], service, offered, ps[1..], rc)
        case _ =>
          if !ids[0].privFile.Imported? || !priv.allowed then FileTalk(e, ids[1..], service, offered, ps[1..], rc)
          else if !priv.exports || !priv.signs || e.refuses(offered) then ps[1..] == [] && rc == ERROR
          else
            ps[1..] != [] && ps[1] == Signed(priv) &&
            var signed := offered + [Signed(priv)];
            match e.server(signed)
            case Success => ps[2..] == [] && rc == SUCCESS
            case PartialSuccess => ps[2..] == [] && rc == PARTIAL
            case Failure => FileTalk(e, ids[1..], service, signed, ps[2..], rc)
            case _ => ps[2..] == [] && rc == ERROR
  }

  /** Once the connection is gone nothing is sent, and the first key that would be offered ends the call. */
  predicate GoneTalk(ids: seq<Identity>, stuck: bool, rc: Rc) {
    if ids == [] then rc == DENIED
    else if Unloadable(ids[0]) then rc == ERROR
    else if PublicOf(ids[0]) != [] && (stuck || PublicOf(ids[0])[0].allowed) then rc == ERROR
    else GoneTalk(ids[1..], stuck, rc)
  }

  /** The whole call: what is said with the agent's keys, then what is said with the identities. */
  ghost predicate Talk(e: Env, service: Service, before: seq<Packet>, a: seq<Packet>, f: seq<Packet>, end: End,
                       rc: Rc)
  {
    && AgentTalk(e, if e.agentRunning then e.agentKeys else [], service, before,
                 if e.agentRunning && e.agentKeys != [] then ERROR else DENIED, a, end)
    && if end.rc == SUCCESS || end.rc == PARTIAL then f == [] && rc == end.rc
       else if end.gone then f == [] && GoneTalk(e.identities, end.stuck, rc)
       else FileTalk(e, e.identities, end.service, before + a, f, rc)
  }

  // The code talks like this

  predicate Accepts(r: Response) {
    r == PkOk || r == Success
  }

  /** No call is pending, and the connection is there. */
  predicate Idle(c: Control) {
    c.pending == NoCall && !c.dead
  }

  /** Requesting the service is the first thing an offer does. */
  lemma ServeFirst(e: Env, c: Control, key: Key)
    requires Idle(c) && key.allowed
    ensures Serve(e, c).pending == NoCall && c.sent <= Serve(e, c).sent
    ensures if Serve(e, c).dead then Try(e, c, key) == Result(Serve(e, c), ERROR)
      else Serve(e, c).service == ServiceAccepted && Try(e, c, key) == Try(e, Serve(e, c), key)
  {
  }

  /** What an offer does once the service is accepted. */
  lemma OfferIs(e: Env, c: Control, key: Key)
    requires Idle(c) && c.service == ServiceAccepted && key.allowed
    ensures var offered := c.sent + [Offer(key)];
      Try(e, c, key) ==
        if !key.exports then Result(c, ERROR)
        else if e.refuses(c.sent) then Result(c.(pending := OfferPending, dead := true), ERROR)
        else Result(c.(sent := offered, dead := e.server(offered) == Lost), Answer(e, offered, true))
  {
  }

  /** What a signature does then. */
  lemma SignatureIs(e: Env, c: Control, key: Key, kind: Pending)
    requires Idle(c) && c.service == ServiceAccepted && key.allowed && (kind == AuthPending || kind == AgentPending)
    ensures var signed := c.sent + [Signed(key)];
      (if kind == AuthPending then Sign(e, c, key) else AgentSign(e, c, key)) ==
        if !key.exports || !key.signs then Result(c, ERROR)
        else if e.refuses(c.sent) then Result(c.(pending := kind, dead := true), ERROR)
        else Result(c.(sent := signed, dead := e.server(signed) == Lost), Answer(e, signed, false))
  {
  }

  /** The agent's part from key number `i` on sends `ps`, and that is what `AgentTalk` says. */
  ghost predicate AgentHolds(e: Env, c: Control, i: nat, last: Rc, ps: seq<Packet>) {
    var r := AgentFrom(e, c, i, false, last);
    && i <= |e.agentKeys| && r.control.sent == c.sent + ps
    && AgentTalk(e, e.agentKeys[i..], c.service, c.sent, last, ps,
                 End(r.rc, r.control.service, r.control.dead, r.control.pending != NoCall))
  }

  lemma AgentKeysFrom(e: Env, i: nat)
    requires i < |e.agentKeys|
    ensures e.agentKeys[i..] == [e.agentKeys[i]] + e.agentKeys[i + 1..]
  {
  }

  /** The service is requested before the first offer. */
  lemma AgentOpens(e: Env, c: Control, i: nat, last: Rc, more: seq<Packet>) returns (ps: seq<Packet>)
    requires Idle(c) && i < |e.agentKeys| && e.agentKeys[i].allowed && c.service != ServiceAccepted
    requires !Serve(e, c).dead ==> AgentHolds(e, Serve(e, c), i, last, more)
    ensures AgentHolds(e, c, i, last, ps)
  {
    var key, d := e.agentKeys[i], Serve(e, c);
    ServeFirst(e, c, key);
    AgentKeysFrom(e, i);
    var served: seq<Packet> := if c.service == NotRequested && !e.refuses(c.sent) then [ServiceRequest] else [];
    assert d.sent == c.sent + served;
    if d.dead {
      ps := served;
    } else {
      ps := served + more;
      assert d.sent + more == c.sent + ps;
      assert served != [] ==> ps[1..] == more;
      assert served == [] ==> ps == more && d.sent == c.sent;
    }
  }

  /** A key that is refused. */
  lemma AgentRefused(e: Env, c: Control, i: nat, last: Rc, more: seq<Packet>) returns (ps: seq<Packet>)
    requires Idle(c) && i < |e.agentKeys| && e.agentKeys[i].allowed && c.service == ServiceAccepted
    requires var r := Try(e, c, e.agentKeys[i]);
      (r.rc == DENIED || r.rc == PARTIAL) && AgentHolds(e, r.control, i + 1, r.rc, more)
    ensures AgentHolds(e, c, i, last, ps)
  {
    var key := e.agentKeys[i];
    OfferIs(e, c, key);
    AgentKeysFrom(e, i);
    ps := [Offer(key)] + more;
    assert ps[1..] == more && c.sent + ps == c.sent + [Offer(key)] + more;
  }

  /** A key that cannot be offered, or whose offer fails. */
  lemma AgentFails(e: Env, c: Control, i: nat, last: Rc) returns (ps: seq<Packet>)
    requires Idle(c) && i < |e.agentKeys| && e.agentKeys[i].allowed && c.service == ServiceAccepted
    requires Try(e, c, e.agentKeys[i]).rc == ERROR
    ensures AgentHolds(e, c, i, last, ps)
  {
    var key := e.agentKeys[i];
    OfferIs(e, c, key);
    AgentKeysFrom(e, i);
    ps := if !key.exports || e.refuses(c.sent) then [] else [Offer(key)];
    assert c.sent + [] == c.sent;
  }

  /** A key that is accepted. */
  lemma AgentAccepted(e: Env, c: Control, i: nat, last: Rc, more: seq<Packet>) returns (ps: seq<Packet>)
    requires Idle(c) && i < |e.agentKeys| && e.agentKeys[i].allowed && c.service == ServiceAccepted
    requires Try(e, c, e.agentKeys[i]).rc == SUCCESS
    requires var s := AgentSign(e, Try(e, c, e.agentKeys[i]).control, e.agentKeys[i]);
      s.rc == DENIED ==> AgentHolds(e, s.control, i + 1, DENIED, more)
    ensures AgentHolds(e, c, i, last, ps)
  {
    var key := e.agentKeys[i];
    OfferIs(e, c, key);
    AgentKeysFrom(e, i);
    var d := Try(e, c, key).control;
    SignatureIs(e, d, key, AgentPending);
    var s := AgentSign(e, d, key);
    if !key.signs || e.refuses(d.sent) {
      ps := [Offer(key)];
    } else if s.rc != DENIED {
      ps := [Offer(key), Signed(key)];
      assert d.sent + [Signed(key)] == c.sent + ps && ps[2..] == [];
    } else {
      ps := [Offer(key), Signed(key)] + more;
      assert ps[2..] == more && s.control.sent + more == c.sent + ps;
    }
  }

  lemma {:induction false} AgentTalks(e: Env, c: Control, i: nat, last: Rc) returns (ps: seq<Packet>)
    requires Idle(c) && i <= |e.agentKeys|
    ensures AgentHolds(e, c, i, last, ps)
    decreases |e.agentKeys| - i, ServiceRank(c.service)
  {
    ps := [];
    assert c.sent + [] == c.sent;
    if i < |e.agentKeys| {
      var key := e.agentKeys[i];
      AgentKeysFrom(e, i);
      if !key.allowed {
        ps := AgentTalks(e, c, i + 1, DENIED);
      } else if c.service != ServiceAccepted {
        ServeFirst(e, c, key);
        if !Serve(e, c).dead {
          ps := AgentTalks(e, Serve(e, c), i, last);
        }
        ps := AgentOpens(e, c, i, last, ps);
      } else {
        var r := Try(e, c, key);
        OfferIs(e, c, key);
        if r.rc == ERROR {
          ps := AgentFails(e, c, i, last);
        } else if r.rc == SUCCESS {
          var s := AgentSign(e, r.control, key);
          SignatureIs(e, r.control, key, AgentPending);
          if s.rc == DENIED {
            ps := AgentTalks(e, s.control, i + 1, DENIED);
          }
          ps := AgentAccepted(e, c, i, last, ps);
        } else {
          ps := AgentTalks(e, r.control, i + 1, r.rc);
          ps := AgentRefused(e, c, i, last, ps);
        }
      }
    }
  }

  /** The identities from number `j` on send `ps`, and that is what `FileTalk` says. */
  ghost predicate FilesHold(e: Env, c: Control, j: nat, ps: seq<Packet>) {
    var r := Files(e, c, j, AtPublicKey);
    && j <= |e.identities| && r.control.sent == c.sent + ps
    && FileTalk(e, e.identities[j..], c.service, c.sent, ps, r.rc)
  }

  lemma IdentitiesFrom(e: Env, j: nat)
    requires j < |e.identities|
    ensures e.identities[j..] == [e.identities[j]] + e.identities[j + 1..]
  {
  }

  /** An identity with a public key comes to offering it. */
  lemma FilesOffers(e: Env, c: Control, j: nat) returns (priv: Option<Key>)
    requires j < |e.identities| && PublicOf(e.identities[j]) != []
    ensures var pub := PublicOf(e.identities[j])[0];
      Files(e, c, j, AtPublicKey) == Files(e, c, j, HasKey(pub, priv))
    ensures priv.Some? ==> e.identities[j].privFile.Imported? && priv.value == e.identities[j].privKey
  {
    priv := if e.identities[j].pubFile.Imported? then None else Some(e.identities[j].privKey);
  }

  lemma FilesOpen(e: Env, c: Control, j: nat, more: seq<Packet>) returns (ps: seq<Packet>)
    requires Idle(c) && j < |e.identities| && PublicOf(e.identities[j]) != [] && PublicOf(e.identities[j])[0].allowed
    requires c.service != ServiceAccepted && (!Serve(e, c).dead ==> FilesHold(e, Serve(e, c), j, more))
    ensures FilesHold(e, c, j, ps)
  {
    var key, d := PublicOf(e.identities[j])[0], Serve(e, c);
    ServeFirst(e, c, key);
    IdentitiesFrom(e, j);
    var priv := FilesOffers(e, c, j);
    var again := FilesOffers(e, d, j);
    SameOffer(e, c, j, key, priv, again);
    var served: seq<Packet> := if c.service == NotRequested && !e.refuses(c.sent) then [ServiceRequest] else [];
    assert d.sent == c.sent + served;
    if d.dead {
      ps := served;
    } else {
      ps := served + more;
      assert d.sent + more == c.sent + ps;
      assert served != [] ==> ps[1..] == more;
      assert served == [] ==> ps == more && d.sent == c.sent;
    }
  }

  /** Whether the private key has been loaded already makes no difference to how the identity goes on. */
  lemma SameOffer(e: Env, c: Control, j: nat, pub: Key, a: Option<Key>, b: Option<Key>)
    requires j < |e.identities|
    requires a.Some? ==> e.identities[j].privFile.Imported? && a.value == e.identities[j].privKey
    requires b.Some? ==> e.identities[j].privFile.Imported? && b.value == e.identities[j].privKey
    ensures Files(e, c, j, HasKey(pub, a)) == Files(e, c, j, HasKey(pub, b))
  {
    var d := Try(e, c, pub).control;
    assert Files(e, d, j, Accepted(a)) == Files(e, d, j, Accepted(b));
  }

  lemma FilesRefused(e: Env, c: Control, j: nat, more: seq<Packet>) returns (ps: seq<Packet>)
    requires Idle(c) && j < |e.identities| && PublicOf(e.identities[j]) != [] && PublicOf(e.identities[j])[0].allowed
    requires c.service == ServiceAccepted
    requires var r := Try(e, c, PublicOf(e.identities[j])[0]);
      (r.rc == DENIED || r.rc == PARTIAL) && FilesHold(e, r.control, j + 1, more)
    ensures FilesHold(e, c, j, ps)
  {
    var pub := PublicOf(e.identities[j])[0];
    OfferIs(e, c, pub);
    IdentitiesFrom(e, j);
    var priv := FilesOffers(e, c, j);
    ps := [Offer(pub)] + more;
    assert ps[1..] == more && c.sent + ps == c.sent + [Offer(pub)] + more;
  }

  lemma FilesFail(e: Env, c: Control, j: nat) returns (ps: seq<Packet>)
    requires Idle(c) && j < |e.identities| && PublicOf(e.identities[j]) != [] && PublicOf(e.identities[j])[0].allowed
    requires c.service == ServiceAccepted && Try(e, c, PublicOf(e.identities[j])[0]).rc == ERROR
    ensures FilesHold(e, c, j, ps)
  {
    var pub := PublicOf(e.identities[j])[0];
    OfferIs(e, c, pub);
    IdentitiesFrom(e, j);
    var priv := FilesOffers(e, c, j);
    ps := if !pub.exports || e.refuses(c.sent) then [] else [Offer(pub)];
    assert c.sent + [] == c.sent;
  }

  /** What follows an accepted offer: the state after it and after its signature, if that is sent and refused. */
  ghost predicate Follows(e: Env, d: Control, j: nat, more: seq<Packet>)
    requires j < |e.identities|
  {
    var id := e.identities[j];
    if !id.privFile.Imported? || !id.privKey.allowed then FilesHold(e, d, j + 1, more)
    else
      var s := Sign(e, d, id.privKey);
      s.rc == DENIED ==> FilesHold(e, s.control, j + 1, more)
  }

  /** How an identity whose public key was accepted goes on. */
  lemma AcceptedGoesOn(e: Env, d: Control, j: nat, priv: Option<Key>)
    requires j < |e.identities| && Idle(d)
    requires priv.Some? ==> e.identities[j].privFile.Imported? && priv.value == e.identities[j].privKey
    ensures var id := e.identities[j];
      Files(e, d, j, Accepted(priv)) ==
        if !id.privFile.Imported? || !id.privKey.allowed then Files(e, d, j + 1, AtPublicKey)
        else
          var s := Sign(e, d, id.privKey);
          if s.rc == DENIED then Files(e, s.control, j + 1, AtPublicKey) else s
  {
    var whole := Accepted(Some(e.identities[j].privKey));
    assert e.identities[j].privFile.Imported? ==> Files(e, d, j, Accepted(priv)) == Files(e, d, j, whole);
  }

  lemma FilesAccepted(e: Env, c: Control, j: nat, more: seq<Packet>) returns (ps: seq<Packet>)
    requires Idle(c) && j < |e.identities| && PublicOf(e.identities[j]) != [] && PublicOf(e.identities[j])[0].allowed
    requires c.service == ServiceAccepted && Try(e, c, PublicOf(e.identities[j])[0]).rc == SUCCESS
    requires Follows(e, Try(e, c, PublicOf(e.identities[j])[0]).control, j, more)
    ensures FilesHold(e, c, j, ps)
  {
    var id, pub := e.identities[j], PublicOf(e.identities[j])[0];
    OfferIs(e, c, pub);
    IdentitiesFrom(e, j);
    var priv := FilesOffers(e, c, j);
    var d := Try(e, c, pub).control;
    AcceptedGoesOn(e, d, j, priv);
    assert Files(e, c, j, AtPublicKey) == Files(e, d, j, Accepted(priv));
    if !id.privFile.Imported? || !id.privKey.allowed {
      ps := [Offer(pub)] + more;
      assert ps[1..] == more && c.sent + ps == d.sent + more;
    } else {
      ps := FilesSigned(e, c, d, j, more);
    }
  }

  /** The signature after an accepted offer. */
  lemma FilesSigned(e: Env, c: Control, d: Control, j: nat, more: seq<Packet>) returns (ps: seq<Packet>)
    requires j < |e.identities| && Idle(d) && d.service == c.service == ServiceAccepted
    requires var id := e.identities[j];
      && PublicOf(id) != [] && PublicOf(id)[0].allowed && PublicOf(id)[0].exports && !e.refuses(c.sent)
      && d.sent == c.sent + [Offer(PublicOf(id)[0])] && Accepts(e.server(d.sent))
      && id.privFile.Imported? && id.privKey.allowed
    requires var s := Sign(e, d, e.identities[j].privKey);
      && Files(e, c, j, AtPublicKey) == (if s.rc == DENIED then Files(e, s.control, j + 1, AtPublicKey) else s)
      && (s.rc == DENIED ==> FilesHold(e, s.control, j + 1, more))
    ensures FilesHold(e, c, j, ps)
  {
    var id, pub := e.identities[j], PublicOf(e.identities[j])[0];
    IdentitiesFrom(e, j);
    SignatureIs(e, d, id.privKey, AuthPending);
    var s := Sign(e, d, id.privKey);
    if !id.privKey.exports || !id.privKey.signs || e.refuses(d.sent) {
      ps := [Offer(pub)];
    } else if s.rc != DENIED {
      ps := [Offer(pub), Signed(id.privKey)];
      assert d.sent + [Signed(id.privKey)] == c.sent + ps && ps[2..] == [];
    } else {
      ps := [Offer(pub), Signed(id.privKey)] + more;
      assert ps[2..] == more && s.control.sent + more == c.sent + ps;
    }
  }

  lemma {:induction false} FilesTalk(e: Env, c: Control, j: nat) returns (ps: seq<Packet>)
    requires Idle(c) && j <= |e.identities|
    ensures FilesHold(e, c, j, ps)
    decreases |e.identities| - j, ServiceRank(c.service)
  {
    ps := [];
    assert c.sent + [] == c.sent;
    if j < |e.identities| {
      IdentitiesFrom(e, j);
      var id := e.identities[j];
      if PublicOf(id) == [] {
        if !Unloadable(id) {
          ps := FilesTalk(e, c, j + 1);
        }
      } else {
        var pub := PublicOf(id)[0];
        if !pub.allowed {
          var priv := FilesOffers(e, c, j);
          ps := FilesTalk(e, c, j + 1);
        } else if c.service != ServiceAccepted {
          ServeFirst(e, c, pub);
          if !Serve(e, c).dead {
            ps := FilesTalk(e, Serve(e, c), j);
          }
          ps := FilesOpen(e, c, j, ps);
        } else {
          ps := FilesTalkOffer(e, c, j);
        }
      }
    }
  }

  lemma {:induction false} FilesTalkOffer(e: Env, c: Control, j: nat) returns (ps: seq<Packet>)
    requires Idle(c) && j < |e.identities| && PublicOf(e.identities[j]) != [] && PublicOf(e.identities[j])[0].allowed
    requires c.service == ServiceAccepted
    ensures FilesHold(e, c, j, ps)
    decreases |e.identities| - j - 1, 3
  {
    var id := e.identities[j];
    var pub := PublicOf(id)[0];
    var r := Try(e, c, pub);
    OfferIs(e, c, pub);
    ps := [];
    if r.rc == ERROR {
      ps := FilesFail(e, c, j);
    } else if r.rc == SUCCESS {
      if !id.privFile.Imported? || !id.privKey.allowed {
        ps := FilesTalk(e, r.control, j + 1);
      } else {
        var s := Sign(e, r.control, id.privKey);
        SignatureIs(e, r.control, id.privKey, AuthPending);
        if s.rc == DENIED {
          ps := FilesTalk(e, s.control, j + 1);
        }
      }
      ps := FilesAccepted(e, c, j, ps);
    } else {
      ps := FilesTalk(e, r.control, j + 1);
      ps := FilesRefused(e, c, j, ps);
    }
  }

  /** With the connection gone nothing is sent. */
  lemma {:induction false} FilesGone(e: Env, c: Control, j: nat)
    requires c.dead && j <= |e.identities|
    ensures var r := Files(e, c, j, AtPublicKey);
      r.control.sent == c.sent && GoneTalk(e.identities[j..], c.pending != NoCall, r.rc)
    decreases |e.identities| - j
  {
    if j < |e.identities| {
      IdentitiesFrom(e, j);
      if PublicOf(e.identities[j]) != [] {
        var priv := FilesOffers(e, c, j);
      }
      FilesGone(e, c, j + 1);
    }
  }

  /** The call talks as described, for every choice of keys, answers and refusals. */
  lemma Converses(e: Env, c: Control) returns (a: seq<Packet>, f: seq<Packet>, end: End)
    requires e.enabled && Idle(c)
    ensures var r := Uninterrupted(e, c);
      r.control.sent == c.sent + a + f && Talk(e, c.service, c.sent, a, f, end, r.rc)
  {
    var r := AgentPart(e, c);
    a, f := [], [];
    if e.agentRunning && e.agentKeys != [] {
      a := AgentTalks(e, c, 0, ERROR);
      assert e.agentKeys[0..] == e.agentKeys;
    }
    assert c.sent + [] == c.sent;
    end := End(r.rc, r.control.service, r.control.dead, r.control.pending != NoCall);
    assert e.identities[0..] == e.identities;
    if r.rc != SUCCESS && r.rc != PARTIAL {
      if r.control.dead {
        FilesGone(e, r.control, 0);
      } else {
        AgentStaysCalm(e, c, 0, false, ERROR);
        f := FilesTalk(e, r.control, 0);
      }
    }
    assert c.sent + a + [] == c.sent + a;
  }

  /** A call on a connection that is gone sends nothing and authenticates nobody. */
  lemma GoneStaysGone(e: Env, c: Control)
    requires c.dead
    ensures var r := Uninterrupted(e, c);
      r.control.sent == c.sent && (r.rc == DENIED || r.rc == ERROR)
  {
    if e.enabled {
      AgentGone(e, c, 0, false, ERROR);
      var d := AgentPart(e, c).control;
      FilesGone(e, d, 0);
      GoneResult(e.identities[0..], d.pending != NoCall, Files(e, d, 0, AtPublicKey).rc);
    }
  }

  lemma {:induction false} AgentGone(e: Env, c: Control, i: nat, accepted: bool, last: Rc)
    requires c.dead && (last == DENIED || last == ERROR)
    ensures var r := AgentFrom(e, c, i, accepted, last);
      r.control.sent == c.sent && r.control.dead && (r.rc == DENIED || r.rc == ERROR)
    decreases |e.agentKeys| - i, !accepted
  {
    if i < |e.agentKeys| {
      AgentGone(e, c, i + 1, false, DENIED);
    }
  }

  lemma {:induction false} GoneResult(ids: seq<Identity>, stuck: bool, rc: Rc)
    requires GoneTalk(ids, stuck, rc)
    ensures rc == DENIED || rc == ERROR
  {
    if ids != [] && rc != ERROR {
      GoneResult(ids[1..], stuck, rc);
    }
  }

  // What that means

  function AllowedOf(keys: seq<Key>): seq<Key> {
    if keys == [] then [] else (if keys[0].allowed then [keys[0]] else []) + AllowedOf(keys[1..])
  }

  lemma OfferedCons(p: Packet, ps: seq<Packet>)
    requires ps != [] && ps[0] == p
    ensures Offered(ps) == (if p.Offer? then [p.key] else []) + Offered(ps[1..])
  {
  }

  /** A call that ends with a refusal has offered every allowed key of the identities, in their order. */
  lemma {:induction false} FilesAllTried(e: Env, ids: seq<Identity>, service: Service, before: seq<Packet>,
                                         ps: seq<Packet>)
    requires FileTalk(e, ids, service, before, ps, DENIED)
    ensures Offered(ps) == AllowedOf(PublicKeys(ids))
    decreases |ids|, ServiceRank(service)
  {
    if ids != [] {
      AllowedConcat(PublicOf(ids[0]), PublicKeys(ids[1..]));
      if PublicOf(ids[0]) == [] || !PublicOf(ids[0])[0].allowed {
        FilesAllTried(e, ids[1..], service, before, ps);
      } else if service == NotRequested {
        FilesAllTried(e, ids, ServiceSent, before + [ServiceRequest], ps[1..]);
      } else if service == ServiceSent {
        FilesAllTried(e, ids, ServiceAccepted, before, ps);
      } else {
        FilesOfferTried(e, ids, before, ps);
      }
    }
  }

  lemma {:induction false} FilesOfferTried(e: Env, ids: seq<Identity>, before: seq<Packet>, ps: seq<Packet>)
    requires FileTalk(e, ids, ServiceAccepted, before, ps, DENIED) && ids != [] && !Unloadable(ids[0])
    requires PublicOf(ids[0]) != [] && PublicOf(ids[0])[0].allowed
    ensures Offered(ps) == PublicOf(ids[0]) + AllowedOf(PublicKeys(ids[1..]))
    decreases |ids| - 1, 3
  {
    var pub := PublicOf(ids[0])[0];
    var offered := before + [Offer(pub)];
    OfferedCons(Offer(pub), ps);
    if FileTalk(e, ids[1..], ServiceAccepted, offered, ps[1..], DENIED) {
      FilesAllTried(e, ids[1..], ServiceAccepted, offered, ps[1..]);
    } else {
      FilesAllTried(e, ids[1..], ServiceAccepted, offered + [Signed(ids[0].privKey)], ps[2..]);
      OfferedCons(ps[1], ps[1..]);
      assert ps[1..][1..] == ps[2..];
    }
  }

  lemma AllowedHead(keys: seq<Key>, first: seq<Key>)
    requires keys != [] && first == if keys[0].allowed then [keys[0]] else []
    ensures AllowedOf(keys) == first + AllowedOf(keys[1..])
  {
  }

  lemma {:induction false} AllowedConcat(a: seq<Key>, b: seq<Key>)
    ensures AllowedOf(a + b) == AllowedOf(a) + AllowedOf(b)
  {
    if a == [] {
      assert a + b == b && [] + AllowedOf(b) == AllowedOf(b);
    } else {
      var first := if a[0].allowed then [a[0]] else [];
      AllowedConcat(a[1..], b);
      assert (a + b)[1..] == a[1..] + b;
      AllowedHead(a + b, first);
      Associate(first, AllowedOf(a[1..]), AllowedOf(b));
    }
  }

  /** If the agent's part ends with a refusal, or with a partial success for an offer, all its keys were offered. */
  lemma {:induction false} AgentAllTried(e: Env, keys: seq<Key>, service: Service, before: seq<Packet>, last: Rc,
                                         ps: seq<Packet>, end: End)
    requires AgentTalk(e, keys, service, before, last, ps, end)
    requires end.rc == DENIED || (end.rc == PARTIAL && (ps == [] || !ps[|ps| - 1].Signed?))
    ensures Offered(ps) == AllowedOf(keys)
    decreases |keys|, ServiceRank(service)
  {
    if keys != [] {
      if !keys[0].allowed {
        AgentAllTried(e, keys[1..], service, before, DENIED, ps, end);
      } else if service == NotRequested {
        AgentAllTried(e, keys, ServiceSent, before + [ServiceRequest], last, ps[1..], end);
      } else if service == ServiceSent {
        AgentAllTried(e, keys, ServiceAccepted, before, last, ps, end);
      } else {
        var offered := before + [Offer(keys[0])];
        if e.server(offered) == Failure || e.server(offered) == PartialSuccess {
          AgentAllTried(e, keys[1..], service, offered, if e.server(offered) == Failure then DENIED else PARTIAL,
                        ps[1..], end);
        } else {
          AgentAllTried(e, keys[1..], service, offered + [Signed(keys[0])], DENIED, ps[2..], end);
          assert ps[1..][1..] == ps[2..];
        }
      }
    }
  }

  // Accepted offers, results and errors

  /** The private key of the identity can be loaded, is allowed and signs. */
  predicate Usable(id: Identity) {
    id.privFile.Imported? && id.privKey.allowed && id.privKey.exports && id.privKey.signs
  }

  /** Packet number `i` is not an accepted offer, or its signature follows, or the connection refuses that. */
  predicate SignedNext(e: Env, before: seq<Packet>, ps: seq<Packet>, i: nat)
    requires i < |ps|
  {
    ps[i].Offer? && Accepts(e.server(before + ps[..i + 1])) ==>
      (i + 1 < |ps| && ps[i + 1].Signed?) || e.refuses(before + ps[..i + 1])
  }

  lemma SignedNextTail(e: Env, before: seq<Packet>, ps: seq<Packet>, n: nat, i: nat)
    requires n <= i < |ps| && SignedNext(e, before + ps[..n], ps[n..], i - n)
    ensures SignedNext(e, before, ps, i)
  {
    assert before + ps[..n] + ps[n..][..i - n + 1] == before + ps[..i + 1];
  }

  lemma {:induction false} FilesSign(e: Env, ids: seq<Identity>, service: Service, before: seq<Packet>, ps: seq<Packet>,
                                     rc: Rc, i: nat)
    requires FileTalk(e, ids, service, before, ps, rc) && i < |ps|
    ensures SignedNext(e, before, ps, i)
      || (ps[i].Offer? && exists id :: id in ids && PublicOf(id) == [ps[i].key] && !Usable(id))
    decreases |ids|, ServiceRank(service)
  {
    var id := ids[0];
    if PublicOf(id) == [] || !PublicOf(id)[0].allowed {
      FilesSign(e, ids[1..], service, before, ps, rc, i);
    } else if service == NotRequested {
      if i > 0 {
        FilesSign(e, ids, ServiceSent, before + [ServiceRequest], ps[1..], rc, i - 1);
        assert ps[..1] == [ServiceRequest];
        if SignedNext(e, before + [ServiceRequest], ps[1..], i - 1) {
          SignedNextTail(e, before, ps, 1, i);
        }
      }
    } else if service == ServiceSent {
      FilesSign(e, ids, ServiceAccepted, before, ps, rc, i);
    } else {
      FilesSignOffer(e, ids, before, ps, rc, i);
    }
  }

  lemma {:induction false} FilesSignOffer(e: Env, ids: seq<Identity>, before: seq<Packet>, ps: seq<Packet>, rc: Rc,
                                          i: nat)
    requires FileTalk(e, ids, ServiceAccepted, before, ps, rc) && i < |ps|
    requires ids != [] && PublicOf(ids[0]) != [] && PublicOf(ids[0])[0].allowed
    ensures SignedNext(e, before, ps, i)
      || (ps[i].Offer? && exists id :: id in ids && PublicOf(id) == [ps[i].key] && !Usable(id))
    decreases |ids| - 1, 3
  {
    var id := ids[0];
    var offered := before + [Offer(PublicOf(id)[0])];
    assert ps[..1] == [Offer(PublicOf(id)[0])];
    if i == 0 {
      assert id in ids && PublicOf(id) == [ps[0].key];
      assert before + ps[..1] == offered;
    } else if FileTalk(e, ids[1..], ServiceAccepted, offered, ps[1..], rc) {
      FilesSign(e, ids[1..], ServiceAccepted, offered, ps[1..], rc, i - 1);
      if SignedNext(e, offered, ps[1..], i - 1) {
        SignedNextTail(e, before, ps, 1, i);
      }
    } else if i > 1 {
      var signed := offered + [Signed(id.privKey)];
      FilesSign(e, ids[1..], ServiceAccepted, signed, ps[2..], rc, i - 2);
      assert before + ps[..2] == signed;
      if SignedNext(e, signed, ps[2..], i - 2) {
        SignedNextTail(e, before, ps, 2, i);
      }
    }
  }

  lemma {:induction false} AgentSigns(e: Env, keys: seq<Key>, service: Service, before: seq<Packet>, last: Rc,
                                      ps: seq<Packet>, end: End, i: nat)
    requires AgentTalk(e, keys, service, before, last, ps, end) && i < |ps|
    ensures SignedNext(e, before, ps, i) || (ps[i].Offer? && ps[i].key in keys && !ps[i].key.signs)
    decreases |keys|, ServiceRank(service)
  {
    if !keys[0].allowed {
      AgentSigns(e, keys[1..], service, before, DENIED, ps, end, i);
    } else if service == NotRequested {
      if i > 0 {
        AgentSigns(e, keys, ServiceSent, before + [ServiceRequest], last, ps[1..], end, i - 1);
        assert ps[..1] == [ServiceRequest];
        if SignedNext(e, before + [ServiceRequest], ps[1..], i - 1) {
          SignedNextTail(e, before, ps, 1, i);
        }
      }
    } else if service == ServiceSent {
      AgentSigns(e, keys, ServiceAccepted, before, last, ps, end, i);
    } else {
      var offered := before + [Offer(keys[0])];
      assert ps[..1] == [Offer(keys[0])];
      if i == 0 {
        assert before + ps[..1] == offered;
      } else if e.server(offered) == Failure || e.server(offered) == PartialSuccess {
        AgentSigns(e, keys[1..], service, offered, if e.server(offered) == Failure then DENIED else PARTIAL,
                   ps[1..], end, i - 1);
        if SignedNext(e, offered, ps[1..], i - 1) {
          SignedNextTail(e, before, ps, 1, i);
        }
      } else if i > 1 {
        var signed := offered + [Signed(keys[0])];
        AgentSigns(e, keys[1..], service, signed, DENIED, ps[2..], end, i - 2);
        assert before + ps[..2] == signed;
        if SignedNext(e, signed, ps[2..], i - 2) {
          SignedNextTail(e, before, ps, 2, i);
        }
      }
    }
  }

  /** The last packet is a signature that was answered with `r`. */
  predicate LastSignature(e: Env, before: seq<Packet>, ps: seq<Packet>, r: Response) {
    ps != [] && ps[|ps| - 1].Signed? && e.server(before + ps) == r
  }

  /** The connection refuses the next packet, or the last answer is none or makes no sense. */
  predicate Broken(e: Env, sent: seq<Packet>) {
    e.refuses(sent) || e.server(sent) == Lost || e.server(sent) == Malformed || e.server(sent) == PkOk
  }

  predicate Defective(key: Key) {
    key.allowed && (!key.exports || !key.signs)
  }

  /** An identity that cannot be loaded, whose public key cannot be offered, or whose private key cannot be used. */
  predicate Faulty(id: Identity) {
    Unloadable(id) || (PublicOf(id) != [] && PublicOf(id)[0].allowed
      && (!PublicOf(id)[0].exports || (id.privFile.Imported? && Defective(id.privKey))))
  }

  /** Success and partial success are the server's answers to a signature, and an error has a cause. */
  lemma {:induction false} FilesEnd(e: Env, ids: seq<Identity>, service: Service, before: seq<Packet>, ps: seq<Packet>,
                                    rc: Rc)
    requires FileTalk(e, ids, service, before, ps, rc)
    ensures rc == SUCCESS <==> LastSignature(e, before, ps, Success)
    ensures rc == PARTIAL <==> LastSignature(e, before, ps, PartialSuccess)
    ensures rc == ERROR ==> Broken(e, before + ps) || exists id :: id in ids && Faulty(id)
    ensures rc != AGAIN
    decreases |ids|, ServiceRank(service)
  {
    assert before + [] == before;
    assert ids != [] ==> ids[0] in ids;
    if ids != [] && !Unloadable(ids[0]) {
      if PublicOf(ids[0]) == [] || !PublicOf(ids[0])[0].allowed {
        FilesEnd(e, ids[1..], service, before, ps, rc);
      } else if service == NotRequested {
        if ps != [] {
          FilesEnd(e, ids, ServiceSent, before + [ServiceRequest], ps[1..], rc);
          assert before + [ServiceRequest] + ps[1..] == before + ps;
        }
      } else if service == ServiceSent {
        if e.server(before) != Lost {
          FilesEnd(e, ids, ServiceAccepted, before, ps, rc);
        }
      } else {
        FilesEndOffer(e, ids, before, ps, rc);
      }
    }
  }

  lemma {:induction false} FilesEndOffer(e: Env, ids: seq<Identity>, before: seq<Packet>, ps: seq<Packet>, rc: Rc)
    requires FileTalk(e, ids, ServiceAccepted, before, ps, rc)
    requires ids != [] && !Unloadable(ids[0]) && PublicOf(ids[0]) != [] && PublicOf(ids[0])[0].allowed
    ensures rc == SUCCESS <==> LastSignature(e, before, ps, Success)
    ensures rc == PARTIAL <==> LastSignature(e, before, ps, PartialSuccess)
    ensures rc == ERROR ==> Broken(e, before + ps) || exists id :: id in ids && Faulty(id)
    ensures rc != AGAIN
    decreases |ids| - 1, 3
  {
    assert before + [] == before && ids[0] in ids;
    if ps != [] {
      var offered := before + [Offer(PublicOf(ids[0])[0])];
      assert offered + ps[1..] == before + ps;
      assert ps[1..] == [] ==> before + ps == offered;
      if FileTalk(e, ids[1..], ServiceAccepted, offered, ps[1..], rc) {
        FilesEnd(e, ids[1..], ServiceAccepted, offered, ps[1..], rc);
      } else if |ps| > 1 {
        var signed := offered + [Signed(ids[0].privKey)];
        assert signed + ps[2..] == before + ps;
        assert ps[2..] == [] ==> before + ps == signed;
        if e.server(signed) == Failure {
          FilesEnd(e, ids[1..], ServiceAccepted, signed, ps[2..], rc);
        }
      }
    }
  }

  lemma {:induction false} AgentEnds(e: Env, keys: seq<Key>, service: Service, before: seq<Packet>, last: Rc,
                                     ps: seq<Packet>, end: End)
    requires AgentTalk(e, keys, service, before, last, ps, end)
    requires keys == [] ==> last == DENIED || (last == PARTIAL && e.server(before) == PartialSuccess)
    ensures end.rc == SUCCESS <==> LastSignature(e, before, ps, Success)
    ensures LastSignature(e, before, ps, PartialSuccess) ==> end.rc == PARTIAL
    ensures end.rc == PARTIAL ==> e.server(before + ps) == PartialSuccess
    ensures end.rc == ERROR ==> Broken(e, before + ps) || exists key :: key in keys && Defective(key)
    ensures end.rc != AGAIN && (end.gone ==> end.rc == ERROR && Broken(e, before + ps))
    decreases |keys|, ServiceRank(service)
  {
    assert before + [] == before;
    assert keys != [] ==> keys[0] in keys;
    if keys != [] {
      if !keys[0].allowed {
        AgentEnds(e, keys[1..], service, before, DENIED, ps, end);
      } else if service == NotRequested {
        if ps != [] {
          AgentEnds(e, keys, ServiceSent, before + [ServiceRequest], last, ps[1..], end);
          assert before + [ServiceRequest] + ps[1..] == before + ps;
        }
      } else if service == ServiceSent {
        if e.server(before) != Lost {
          AgentEnds(e, keys, ServiceAccepted, before, last, ps, end);
        }
      } else if ps != [] {
        AgentEndsOffer(e, keys, before, last, ps, end);
      }
    }
  }

  lemma {:induction false} AgentEndsOffer(e: Env, keys: seq<Key>, before: seq<Packet>, last: Rc,
                                          ps: seq<Packet>, end: End)
    requires AgentTalk(e, keys, ServiceAccepted, before, last, ps, end) && keys != [] && keys[0].allowed && ps != []
    ensures end.rc == SUCCESS <==> LastSignature(e, before, ps, Success)
    ensures LastSignature(e, before, ps, PartialSuccess) ==> end.rc == PARTIAL
    ensures end.rc == PARTIAL ==> e.server(before + ps) == PartialSuccess
    ensures end.rc == ERROR ==> Broken(e, before + ps) || exists key :: key in keys && Defective(key)
    ensures end.rc != AGAIN && (end.gone ==> end.rc == ERROR && Broken(e, before + ps))
    decreases |keys| - 1, 3
  {
    assert keys[0] in keys;
    var offered := before + [Offer(keys[0])];
    assert offered + ps[1..] == before + ps;
    assert ps[1..] == [] ==> before + ps == offered;
    if e.server(offered) == Failure || e.server(offered) == PartialSuccess {
      AgentEnds(e, keys[1..], ServiceAccepted, offered, if e.server(offered) == Failure then DENIED else PARTIAL,
                ps[1..], end);
    } else if |ps| > 1 {
      var signed := offered + [Signed(keys[0])];
      assert signed + ps[2..] == before + ps;
      assert ps[2..] == [] ==> before + ps == signed;
      if e.server(signed) == Failure {
        AgentEnds(e, keys[1..], ServiceAccepted, signed, DENIED, ps[2..], end);
      }
    }
  }

  // The theorems

  /** The agent's part stopped for a reason other than a refusal. */
  ghost predicate AgentTrouble(e: Env, sent: seq<Packet>) {
    Broken(e, sent) || exists key :: key in e.agentKeys && Defective(key)
  }

  lemma {:induction false} GoneTried(ids: seq<Identity>, stuck: bool)
    requires GoneTalk(ids, stuck, DENIED)
    ensures AllowedOf(PublicKeys(ids)) == []
  {
    if ids != [] {
      AllowedConcat(PublicOf(ids[0]), PublicKeys(ids[1..]));
      GoneTried(ids[1..], stuck);
    }
  }

  lemma {:induction false} AllowedIsOffered(ids: seq<Identity>, id: Identity, key: Key)
    requires id in ids && PublicOf(id) == [key] && key.allowed
    ensures key in AllowedOf(PublicKeys(ids))
  {
    AllowedConcat(PublicOf(ids[0]), PublicKeys(ids[1..]));
    if id == ids[0] {
      assert AllowedOf([key])[0] == key;
    } else {
      AllowedIsOffered(ids[1..], id, key);
    }
  }

  /** Whether the public key has a file of its own or is made from the private one. */
  lemma EveryAllowedKey(ids: seq<Identity>, offered: seq<Key>)
    requires offered == AllowedOf(PublicKeys(ids))
    ensures forall id :: id in ids && id.pubFile.Imported? && id.pubKey.allowed ==> id.pubKey in offered
    ensures forall id :: id in ids && id.pubFile.NoFile? && id.privFile.Imported? && id.derived.Some? ==>
      id.derived.value.allowed ==> id.derived.value in offered
  {
    forall id, key | id in ids && PublicOf(id) == [key] && key.allowed ensures key in offered {
      AllowedIsOffered(ids, id, key);
    }
  }

  /**
   * A call that ends with a refusal has offered every allowed key of the identities, in their order, and none of them
   * is unloadable; it has offered every allowed key of the agent as well, unless the agent's part met with trouble.
   */
  lemma DeniedTriedAll(e: Env, c: Control) returns (a: seq<Packet>, f: seq<Packet>)
    requires e.enabled && Idle(c) && Uninterrupted(e, c).rc == DENIED
    ensures Uninterrupted(e, c).control.sent == c.sent + a + f
    ensures Offered(f) == AllowedOf(PublicKeys(e.identities)) && forall id :: id in e.identities ==> !Unloadable(id)
    ensures forall id :: id in e.identities && id.pubFile.Imported? && id.pubKey.allowed ==> id.pubKey in Offered(f)
    ensures forall id :: id in e.identities && id.pubFile.NoFile? && id.privFile.Imported? && id.derived.Some? ==>
      id.derived.value.allowed ==> id.derived.value in Offered(f)
    ensures !e.agentRunning ==> a == []
    ensures e.agentRunning ==> Offered(a) == AllowedOf(e.agentKeys) || AgentTrouble(e, c.sent + a)
  {
    var end;
    a, f, end := Converses(e, c);
    var keys := if e.agentRunning then e.agentKeys else [];
    var last := if e.agentRunning && e.agentKeys != [] then ERROR else DENIED;
    AgentEnds(e, keys, c.service, c.sent, last, a, end);
    if end.rc == DENIED {
      AgentAllTried(e, keys, c.service, c.sent, last, a, end);
    }
    if end.gone {
      GoneTried(e.identities, end.stuck);
      GoneLoadable(e.identities, end.stuck);
    } else {
      FilesAllTried(e, e.identities, end.service, c.sent + a, f);
      FilesLoadable(e, e.identities, end.service, c.sent + a, f);
    }
    EveryAllowedKey(e.identities, Offered(f));
  }

  /**
   * The call begins with an offer of every allowed key of the agent, in their order, unless the agent's part meets with
   * trouble or the server answers one of its signatures with success or partial success; then nothing else is sent.
   */
  lemma AgentTriedAll(e: Env, c: Control) returns (a: seq<Packet>, f: seq<Packet>)
    requires e.enabled && Idle(c) && e.agentRunning
    ensures Uninterrupted(e, c).control.sent == c.sent + a + f
    ensures var done := LastSignature(e, c.sent, a, Success) || LastSignature(e, c.sent, a, PartialSuccess);
      if done then f == [] else Offered(a) == AllowedOf(e.agentKeys) || AgentTrouble(e, c.sent + a)
  {
    var end;
    a, f, end := Converses(e, c);
    var last := if e.agentKeys != [] then ERROR else DENIED;
    AgentEnds(e, e.agentKeys, c.service, c.sent, last, a, end);
    if end.rc == DENIED || (end.rc == PARTIAL && (a == [] || !a[|a| - 1].Signed?)) {
      AgentAllTried(e, e.agentKeys, c.service, c.sent, last, a, end);
    }
  }

  lemma {:induction false} GoneLoadable(ids: seq<Identity>, stuck: bool)
    requires GoneTalk(ids, stuck, DENIED)
    ensures forall id :: id in ids ==> !Unloadable(id)
  {
    if ids != [] {
      GoneLoadable(ids[1..], stuck);
    }
  }

  lemma {:induction false} FilesLoadable(e: Env, ids: seq<Identity>, service: Service, before: seq<Packet>,
                                         ps: seq<Packet>)
    requires FileTalk(e, ids, service, before, ps, DENIED)
    ensures forall id :: id in ids ==> !Unloadable(id)
    decreases |ids|, ServiceRank(service)
  {
    if ids != [] {
      if PublicOf(ids[0]) == [] || !PublicOf(ids[0])[0].allowed {
        FilesLoadable(e, ids[1..], service, before, ps);
      } else if service == NotRequested {
        FilesLoadable(e, ids, ServiceSent, before + [ServiceRequest], ps[1..]);
      } else if service == ServiceSent {
        FilesLoadable(e, ids, ServiceAccepted, before, ps);
      } else {
        var offered := before + [Offer(PublicOf(ids[0])[0])];
        if FileTalk(e, ids[1..], service, offered, ps[1..], DENIED) {
          FilesLoadable(e, ids[1..], service, offered, ps[1..]);
        } else {
          FilesLoadable(e, ids[1..], service, offered + [Signed(ids[0].privKey)], ps[2..]);
        }
      }
    }
  }

  /** Packet number `i` is followed by a signature if it is an accepted offer, or there is a reason why not. */
  ghost predicate SignedOrReason(e: Env, sent: seq<Packet>, i: nat)
    requires i < |sent|
  {
    SignedNext(e, [], sent, i)
    || (sent[i].Offer? && exists id :: id in e.identities && PublicOf(id) == [sent[i].key] && !Usable(id))
    || (sent[i].Offer? && sent[i].key in e.agentKeys && !sent[i].key.signs)
  }

  /**
   * Every offer of the call that the server accepts is followed by a signature, unless the private key cannot be
   * loaded, is not allowed or does not sign, or the connection refuses the packet.
   */
  lemma AcceptedIsSigned(e: Env, c: Control)
    requires Idle(c)
    ensures var sent := Uninterrupted(e, c).control.sent;
      c.sent <= sent && forall i :: |c.sent| <= i < |sent| ==> SignedOrReason(e, sent, i)
  {
    if e.enabled {
      var sent := Uninterrupted(e, c).control.sent;
      var a, f, end := Converses(e, c);
      var keys := if e.agentRunning then e.agentKeys else [];
      var last := if e.agentRunning && e.agentKeys != [] then ERROR else DENIED;
      forall i | |c.sent| <= i < |sent| ensures SignedOrReason(e, sent, i) {
        if i < |c.sent| + |a| {
          AgentSigns(e, keys, c.service, c.sent, last, a, end, i - |c.sent|);
          WithinAgentPart(e, c.sent, a, f, i);
        } else {
          FilesSign(e, e.identities, end.service, c.sent + a, f, Uninterrupted(e, c).rc, i - |c.sent| - |a|);
          WithinFilePart(e, c.sent + a, f, i);
        }
      }
    }
  }

  lemma WithinFilePart(e: Env, before: seq<Packet>, f: seq<Packet>, i: nat)
    requires |before| <= i < |before| + |f|
    ensures (before + f)[i] == f[i - |before|]
    ensures SignedNext(e, before, f, i - |before|) ==> SignedNext(e, [], before + f, i)
  {
    var sent := before + f;
    assert [] + sent[..i + 1] == before + f[..i - |before| + 1];
  }

  /** An offer within the agent's part. */
  lemma WithinAgentPart(e: Env, before: seq<Packet>, a: seq<Packet>, f: seq<Packet>, i: nat)
    requires |before| <= i < |before| + |a|
    ensures (before + a + f)[i] == a[i - |before|]
    ensures SignedNext(e, before, a, i - |before|) ==> SignedNext(e, [], before + a + f, i)
  {
    var sent := before + a + f;
    assert [] + sent[..i + 1] == before + a[..i - |before| + 1];
  }

  /**
   * What the call returns is the server's last word: success if and only if it answered a signature of the call with
   * success; partial success only if that was its last answer, and always if it answered a signature so. An error has
   * a cause: the connection, an answer that makes no sense, or a key or identity that cannot be used.
   */
  lemma ResultIsTheServers(e: Env, c: Control) returns (ps: seq<Packet>)
    requires Idle(c)
    ensures !e.enabled ==> ps == [] && Uninterrupted(e, c).rc == DENIED
    ensures Uninterrupted(e, c).control.sent == c.sent + ps && Uninterrupted(e, c).rc != AGAIN
    ensures Uninterrupted(e, c).rc == SUCCESS <==> LastSignature(e, c.sent, ps, Success)
    ensures LastSignature(e, c.sent, ps, PartialSuccess) ==> Uninterrupted(e, c).rc == PARTIAL
    ensures Uninterrupted(e, c).rc == PARTIAL ==> e.server(c.sent + ps) == PartialSuccess
    ensures Uninterrupted(e, c).rc == ERROR ==>
      Broken(e, c.sent + ps) || exists id :: id in e.identities && Faulty(id)
  {
    ps := [];
    assert c.sent + [] == c.sent;
    if e.enabled {
      ps := EnabledResult(e, c);
    }
  }

  lemma EnabledResult(e: Env, c: Control) returns (ps: seq<Packet>)
    requires e.enabled && Idle(c)
    ensures Uninterrupted(e, c).control.sent == c.sent + ps && Uninterrupted(e, c).rc != AGAIN
    ensures Uninterrupted(e, c).rc == SUCCESS <==> LastSignature(e, c.sent, ps, Success)
    ensures LastSignature(e, c.sent, ps, PartialSuccess) ==> Uninterrupted(e, c).rc == PARTIAL
    ensures Uninterrupted(e, c).rc == PARTIAL ==> e.server(c.sent + ps) == PartialSuccess
    ensures Uninterrupted(e, c).rc == ERROR ==>
      Broken(e, c.sent + ps) || exists id :: id in e.identities && Faulty(id)
  {
    var a, f, end := Converses(e, c);
    var keys := if e.agentRunning then e.agentKeys else [];
    var last := if e.agentRunning && e.agentKeys != [] then ERROR else DENIED;
    AgentEnds(e, keys, c.service, c.sent, last, a, end);
    ps := a + f;
    assert c.sent + ps == c.sent + a + f;
    if end.rc != SUCCESS && end.rc != PARTIAL {
      if end.gone {
        GoneResult(e.identities, end.stuck, Uninterrupted(e, c).rc);
      } else {
        FilesEnd(e, e.identities, end.service, c.sent + a, f, Uninterrupted(e, c).rc);
      }
    }
    assert f == [] ==> ps == a;
  }
}
