/** What one end point may put on the wire, and when its record is released, whatever the other side does. */
module ChannelLife {
  import opened Bytes
  import opened Channels

  /** What the end point hears from its peer; `unread` is the state of its buffers at that moment. */
  datatype Heard = HeardEof | HeardClose(unread: bool) | HeardOpen | HeardOpenFailure

  /** One round of the write loop: a data packet, or something heard while the loop waits for window. */
  datatype Round = SendData(packet: Packet) | Wait(heard: Heard)

  /**
   * The calls of the application (each runs to its end) and the packets that arrive between them; `rekey` is what a
   * write hears while it waits for new keys.
   */
  datatype Op =
    | StartOpen
    | Accept
    | CallWrite(rekey: seq<Heard>, rounds: seq<Round>)
    | CallEof(sendOk: bool, flush: Rc)
    | CallClose(env: CloseEnv)
    | CallFree(alive: bool, env: CloseEnv)
    | Receive(heard: Heard)

  /** An end point, what it put on the wire, and how often its record was released. */
  datatype EndPoint = EndPoint(ctl: Control, wire: seq<Packet>, released: nat)

  const Fresh := EndPoint(Control(NotOpen, false, false, false, false, false, false, true), [], 0)

  function Hear(c: Control, h: Heard): Control {
    match h
    case HeardEof => RcvEof(c)
    case HeardClose(unread) => RcvClose(c, unread)
    case HeardOpen => if c.state == Opening then c.(state := Open, notBound := false) else c
    case HeardOpenFailure => if c.state == Opening then c.(state := OpenDenied) else c
  }

  function HearOne(e: EndPoint, h: Heard): EndPoint {
    Released(e.(ctl := Hear(e.ctl, h)), h.HeardClose? && e.ctl.freedLocal)
  }

  function HearAll(e: EndPoint, hs: seq<Heard>): EndPoint
    decreases |hs|
  {
    if hs == [] then e else HearAll(HearOne(e, hs[0]), hs[1..])
  }

  /**
   * The write loop after its entry test and the wait for new keys, which is not followed by another test; the loop
   * gives up when a wait for window finds the channel closed.
   */
  function WriteLoop(e: EndPoint, rounds: seq<Round>): EndPoint
    decreases |rounds|
  {
    if rounds == [] then e
    else
      match rounds[0]
      case SendData(p) => WriteLoop(if p.Data? then e.(wire := e.wire + [p]) else e, rounds[1..])
      case Wait(h) =>
        if e.ctl.state == Closed then e
        else
          var heard := HearOne(e, h);
          if heard.ctl.state == Closed then heard else WriteLoop(heard, rounds[1..])
  }

  function Released(e: EndPoint, release: bool): EndPoint {
    if release then e.(released := e.released + 1) else e
  }

  function Tell(e: EndPoint, t: Told): EndPoint {
    e.(ctl := t.ctl, wire := e.wire + t.sent)
  }

  /** A released record can no longer be found, and the application does not use a channel it has freed. */
  predicate Enabled(e: EndPoint, op: Op) {
    e.released == 0 && (e.ctl.freedLocal ==> op.Receive?)
  }

  /** Calls and packets that put nothing on the wire. */
  function Quiet(e: EndPoint, op: Op): EndPoint
    requires op.StartOpen? || op.Accept? || op.Receive?
  {
    var c := e.ctl;
    match op
    case StartOpen => if c.state == NotOpen then e.(ctl := c.(state := Opening)) else e
    case Accept => e.(ctl := c.(state := Open, notBound := false))
    case Receive(h) => HearOne(e, h)
  }

  function Step(e: EndPoint, op: Op): EndPoint {
    if !Enabled(e, op) then e
    else
      match op
      case CallWrite(rekey, rounds) => if CanWrite(e.ctl) then WriteLoop(HearAll(e, rekey), rounds) else e
      case CallEof(sendOk, flush) => Tell(e, SendEof(e.ctl, sendOk, flush))
      case CallClose(env) => Tell(e, CloseChannel(e.ctl, env))
      case CallFree(alive, env) =>
        var t := FreeChannel(e.ctl, alive, env);
        Released(Tell(e, t), t.ctl.closedRemote || t.ctl.notBound)
      case _ => Quiet(e, op)
  }

  function Run(e: EndPoint, ops: seq<Op>): EndPoint
    decreases |ops|
  {
    if ops == [] then e else Run(Step(e, ops[0]), ops[1..])
  }

  // The shape of the wire

  /** DATA* EOF? CLOSE?: `k` data packets, then at most one EOF, then at most one CLOSE that needs the EOF. */
  ghost predicate ShapedAt(wire: seq<Packet>, k: nat) {
    && k <= |wire|
    && (forall i :: 0 <= i < k ==> wire[i].Data?)
    && (wire[k..] == [] || wire[k..] == [Eof] || wire[k..] == [Eof, Close])
  }

  ghost predicate WellShaped(wire: seq<Packet>) {
    exists k :: ShapedAt(wire, k)
  }

  /** Something other than data was sent last. */
  predicate Ended(wire: seq<Packet>) {
    wire != [] && !wire[|wire| - 1].Data?
  }

  /** What every run keeps, except that an end-of-file whose flush failed is not remembered. */
  ghost predicate Sound(e: EndPoint) {
    && WellShaped(e.wire)
    && (e.ctl.localEof ==> Ended(e.wire))
    && (Ended(e.wire) && e.wire[|e.wire| - 1].Close? ==> e.ctl.closedLocal)
    && (e.ctl.closedLocal ==> e.ctl.localEof)
  }

  /** The end point knows of the end-of-file it sent. */
  predicate Remembers(e: EndPoint) {
    Ended(e.wire) ==> e.ctl.localEof
  }

  // What may be appended to a well-shaped wire

  lemma AppendData(wire: seq<Packet>, p: Packet)
    requires WellShaped(wire) && !Ended(wire) && p.Data?
    ensures WellShaped(wire + [p])
  {
    var k: nat :| ShapedAt(wire, k);
    assert k == |wire|;
    assert ShapedAt(wire + [p], k + 1);
  }

  lemma AppendEof(wire: seq<Packet>)
    requires WellShaped(wire) && !Ended(wire)
    ensures WellShaped(wire + [Eof]) && WellShaped(wire + [Eof, Close])
  {
    var k: nat :| ShapedAt(wire, k);
    assert k == |wire|;
    assert (wire + [Eof])[k..] == [Eof] && (wire + [Eof, Close])[k..] == [Eof, Close];
    assert ShapedAt(wire + [Eof], k) && ShapedAt(wire + [Eof, Close], k);
  }

  lemma AppendClose(wire: seq<Packet>)
    requires WellShaped(wire) && Ended(wire) && !wire[|wire| - 1].Close?
    ensures WellShaped(wire + [Close])
  {
    var k: nat :| ShapedAt(wire, k);
    assert wire[k..] == [Eof];
    assert (wire + [Close])[k..] == wire[k..] + [Close] == [Eof, Close];
    assert ShapedAt(wire + [Close], k);
  }

  /** A second EOF breaks the shape. */
  lemma SecondEofBreaks(wire: seq<Packet>)
    requires WellShaped(wire) && Ended(wire)
    ensures !WellShaped(wire + [Eof])
  {
    var w := wire + [Eof];
    var n := |w| - 2;
    assert !w[n].Data? && w[n + 1].Eof?;
    forall k: nat ensures !ShapedAt(w, k) {
      if k <= n {
        assert w[k..][n - k] == w[n] && w[k..][n + 1 - k] == w[n + 1];
      } else if k == n + 2 {
        assert !w[n].Data?;
      }
    }
  }

  /** No flush fails right after an end-of-file was sent. */
  predicate FlushesEof(op: Op) {
    match op
    case CallEof(sendOk, flush) => sendOk ==> flush != Error
    case CallClose(env) => env.eofSend ==> env.eofFlush != Error
    case CallFree(_, env) => env.eofSend ==> env.eofFlush != Error
    case _ => true
  }

  /** The call puts an end-of-file on the wire and its flush fails. */
  predicate FailedFlush(e: EndPoint, op: Op) {
    && Enabled(e, op) && !e.ctl.localEof
    && match op
       case CallEof(sendOk, flush) => sendOk && flush == Error
       case CallClose(env) => !e.ctl.closedLocal && env.eofSend && env.eofFlush == Error
       case CallFree(alive, env) =>
         FreeCloses(e.ctl, alive) && !e.ctl.closedLocal && env.eofSend && env.eofFlush == Error
       case _ => false
  }

  /** An end-of-file or close call that returns an error to the application; a free call returns nothing. */
  predicate ReturnsError(e: EndPoint, op: Op) {
    && Enabled(e, op)
    && match op
       case CallEof(sendOk, flush) => SendEof(e.ctl, sendOk, flush).rc == Error
       case CallClose(env) => CloseChannel(e.ctl, env).rc == Error
       case _ => false
  }

  /** The application hears of a failed flush, unless the call was the one that gives the channel up. */
  lemma FailureIsReported(e: EndPoint, op: Op)
    requires FailedFlush(e, op)
    ensures ReturnsError(e, op) || Step(e, op).ctl.freedLocal
  {
  }

  lemma HearOneSound(e: EndPoint, h: Heard)
    requires Sound(e) && Remembers(e)
    ensures var t := HearOne(e, h);
      Sound(t) && Remembers(t) && t.ctl.localEof == e.ctl.localEof && t.wire == e.wire
  {
    HearKeeps(e.ctl, h);
    SameSound(e, HearOne(e, h));
  }

  lemma {:induction false} HearAllSound(e: EndPoint, hs: seq<Heard>)
    requires Sound(e) && Remembers(e)
    ensures var t := HearAll(e, hs);
      Sound(t) && Remembers(t) && t.ctl.localEof == e.ctl.localEof && t.wire == e.wire
    decreases |hs|
  {
    if hs != [] {
      HearOneSound(e, hs[0]);
      HearAllSound(HearOne(e, hs[0]), hs[1..]);
    }
  }

  lemma {:induction false} WriteLoopSound(e: EndPoint, rounds: seq<Round>)
    requires Sound(e) && Remembers(e) && !e.ctl.localEof
    ensures var t := WriteLoop(e, rounds);
      Sound(t) && Remembers(t) && !t.ctl.localEof
    decreases |rounds|
  {
    if rounds != [] {
      match rounds[0]
      case SendData(p) =>
        if p.Data? {
          AppendData(e.wire, p);
        }
        WriteLoopSound(if p.Data? then e.(wire := e.wire + [p]) else e, rounds[1..]);
      case Wait(h) =>
        HearOneSound(e, h);
        if e.ctl.state != Closed && HearOne(e, h).ctl.state != Closed {
          WriteLoopSound(HearOne(e, h), rounds[1..]);
        }
    }
  }

  lemma SendEofSound(e: EndPoint, sendOk: bool, flush: Rc)
    requires Sound(e) && Remembers(e) && (e.ctl.localEof || (sendOk ==> flush != Error))
    ensures var t := Tell(e, SendEof(e.ctl, sendOk, flush));
      Sound(t) && Remembers(t)
  {
    if e.ctl.localEof || !sendOk {
      assert e.wire + [] == e.wire;
    } else {
      AppendEof(e.wire);
    }
  }

  lemma CloseSound(e: EndPoint, env: CloseEnv)
    requires Sound(e) && Remembers(e)
    requires e.ctl.closedLocal || e.ctl.localEof || (env.eofSend ==> env.eofFlush != Error)
    ensures var t := Tell(e, CloseChannel(e.ctl, env));
      Sound(t) && Remembers(t)
  {
    var eof := SendEof(e.ctl, env.eofSend, env.eofFlush);
    assert e.wire + [] == e.wire;
    if !e.ctl.closedLocal {
      SendEofSound(e, env.eofSend, env.eofFlush);
    }
    if !e.ctl.closedLocal && eof.rc == Ok && env.closeSend {
      var w := e.wire + eof.sent;
      AppendClose(w);
      assert e.wire + (eof.sent + [Close]) == w + [Close];
    }
  }

  lemma FreeSound(e: EndPoint, alive: bool, env: CloseEnv)
    requires Sound(e) && Remembers(e)
    requires !FreeCloses(e.ctl, alive) || e.ctl.closedLocal || e.ctl.localEof || (env.eofSend ==> env.eofFlush != Error)
    ensures var t := Tell(e, FreeChannel(e.ctl, alive, env));
      Sound(t) && Remembers(t)
  {
    if FreeCloses(e.ctl, alive) {
      CloseSound(e, env);
    }
    assert e.wire + [] == e.wire;
  }

  /** Hearing something from the peer does not touch what this side has sent. */
  lemma HearKeeps(c: Control, h: Heard)
    ensures var d := Hear(c, h);
      d.localEof == c.localEof && d.closedLocal == c.closedLocal && d.freedLocal == c.freedLocal
    ensures Hear(c, h).closedRemote == (c.closedRemote || h.HeardClose?)
    ensures h.HeardClose? ==> Hear(c, h).notBound == c.notBound
  {
    match h
    case HeardClose(unread) => HearClose(c, unread);
    case _ =>
  }

  lemma HearClose(c: Control, unread: bool)
    ensures var d := RcvClose(c, unread);
      && d.localEof == c.localEof && d.closedLocal == c.closedLocal && d.freedLocal == c.freedLocal
      && d.closedRemote && d.notBound == c.notBound
  {
  }

  lemma QuietSound(e: EndPoint, op: Op)
    requires op.StartOpen? || op.Accept? || op.Receive?
    requires Sound(e) && Remembers(e)
    ensures Sound(Quiet(e, op)) && Remembers(Quiet(e, op))
  {
    if op.Receive? {
      HearOneSound(e, op.heard);
    } else {
      SameSound(e, Quiet(e, op));
    }
  }

  lemma SameSound(e: EndPoint, t: EndPoint)
    requires Sound(e) && Remembers(e)
    requires t.wire == e.wire && t.ctl.localEof == e.ctl.localEof && t.ctl.closedLocal == e.ctl.closedLocal
    ensures Sound(t) && Remembers(t)
  {
  }

  lemma StepSound(e: EndPoint, op: Op)
    requires Sound(e) && Remembers(e) && !FailedFlush(e, op)
    ensures Sound(Step(e, op)) && Remembers(Step(e, op))
  {
    if Enabled(e, op) {
      match op
      case CallWrite(rekey, rounds) =>
        if CanWrite(e.ctl) {
          HearAllSound(e, rekey);
          WriteLoopSound(HearAll(e, rekey), rounds);
        }
      case CallEof(sendOk, flush) => SendEofSound(e, sendOk, flush);
      case CallClose(env) => CloseSound(e, env);
      case CallFree(alive, env) => FreeSound(e, alive, env);
      case _ => QuietSound(e, op);
    }
  }

  lemma FlushesDoNotFail(e: EndPoint, op: Op)
    requires FlushesEof(op)
    ensures !FailedFlush(e, op)
  {
  }

  lemma {:induction false} RunSound(e: EndPoint, ops: seq<Op>)
    requires Sound(e) && Remembers(e) && forall i :: 0 <= i < |ops| ==> FlushesEof(ops[i])
    ensures Sound(Run(e, ops)) && Remembers(Run(e, ops))
    decreases |ops|
  {
    if ops != [] {
      FlushesDoNotFail(e, ops[0]);
      StepSound(e, ops[0]);
      RunSound(Step(e, ops[0]), ops[1..]);
    }
  }

  /** Every channel's packets have the shape DATA* EOF? CLOSE?, as long as no flush fails after an EOF. */
  lemma WireShape(ops: seq<Op>)
    requires forall i :: 0 <= i < |ops| ==> FlushesEof(ops[i])
    ensures WellShaped(Run(Fresh, ops).wire)
  {
    assert ShapedAt(Fresh.wire, 0);
    RunSound(Fresh, ops);
  }

  /**
   * The shape survives every further call whose flushes succeed exactly when the end point remembers the EOF
   * it sent; otherwise a second EOF follows the first.
   */
  lemma ShapeKeptIffRemembered(e: EndPoint)
    requires Sound(e) && e.released == 0 && !e.ctl.freedLocal
    ensures Remembers(e) <==> forall op :: FlushesEof(op) ==> WellShaped(Step(e, op).wire)
  {
    if Remembers(e) {
      forall op | FlushesEof(op) ensures WellShaped(Step(e, op).wire) {
        FlushesDoNotFail(e, op);
        StepSound(e, op);
      }
    } else {
      var op := CallEof(true, Ok);
      SecondEofBreaks(e.wire);
      assert FlushesEof(op) && !WellShaped(Step(e, op).wire);
    }
  }

  /** The failing case: the flush after an EOF fails, and the next call sends a second EOF. */
  lemma SecondEof()
    ensures Run(Fresh, [Accept, CallEof(true, Error), CallEof(true, Ok)]).wire == [Eof, Eof]
  {
    var a, b, c := Accept, CallEof(true, Error), CallEof(true, Ok);
    assert [a, b, c][1..] == [b, c] && [b, c][1..] == [c] && [c][1..] == [];
    assert Run(Fresh, [a, b, c]) == Run(Step(Fresh, a), [b, c]) == Run(Step(Step(Fresh, a), b), [c]);
  }

  /** A write on an open channel puts its packets on the wire, in order. */
  lemma {:induction false} WriteIsSent(e: EndPoint, ps: seq<Packet>)
    requires forall i :: 0 <= i < |ps| ==> ps[i].Data?
    ensures WriteLoop(e, Sending(ps)) == e.(wire := e.wire + ps)
    decreases |ps|
  {
    if ps == [] {
      assert e.wire + ps == e.wire;
    } else {
      assert Sending(ps)[1..] == Sending(ps[1..]);
      WriteIsSent(e.(wire := e.wire + [ps[0]]), ps[1..]);
      assert e.wire + [ps[0]] + ps[1..] == e.wire + ps;
    }
  }

  /** A write that need not wait. */
  function Sending(ps: seq<Packet>): seq<Round> {
    seq(|ps|, i requires 0 <= i < |ps| => SendData(ps[i]))
  }

  /** Opened, written to, ended, closed by both sides and freed. */
  function OrdinaryLife(ps: seq<Packet>): seq<Op> {
    [StartOpen] + ([Receive(HeardOpen)] + ([CallWrite([], Sending(ps))] + ([CallEof(true, Ok)]
      + ([CallClose(CloseEnv(true, Ok, true, Ok))] + ([Receive(HeardClose(false))]
      + ([CallFree(true, CloseEnv(true, Ok, true, Ok))] + []))))))
  }

  lemma RunOn(e: EndPoint, op: Op, rest: seq<Op>)
    ensures Run(e, [op] + rest) == Run(Step(e, op), rest)
  {
    assert ([op] + rest)[1..] == rest;
  }

  /** Such a life puts all data, one end-of-file and one close on the wire, and releases the record once. */
  lemma OrdinaryLifeRuns(ps: seq<Packet>)
    requires forall i :: 0 <= i < |ps| ==> ps[i].Data?
    ensures var e := Run(Fresh, OrdinaryLife(ps));
      e.wire == ps + [Eof, Close] && e.released == 1 && e.ctl.state == Closed
  {
    var env := CloseEnv(true, Ok, true, Ok);
    var last := [CallFree(true, env)] + [];
    var closing := [CallClose(env)] + ([Receive(HeardClose(false))] + last);
    RunOn(Fresh, StartOpen, OrdinaryLife(ps)[1..]);
    var e := Step(Step(Fresh, StartOpen), Receive(HeardOpen));
    RunOn(Step(Fresh, StartOpen), Receive(HeardOpen), [CallWrite([], Sending(ps))] + ([CallEof(true, Ok)] + closing));
    RunOn(e, CallWrite([], Sending(ps)), [CallEof(true, Ok)] + closing);
    WriteIsSent(e, ps);
    var written := Step(e, CallWrite([], Sending(ps)));
    RunOn(written, CallEof(true, Ok), closing);
    var ended := Step(written, CallEof(true, Ok));
    RunOn(ended, CallClose(env), [Receive(HeardClose(false))] + last);
    var closed := Step(ended, CallClose(env));
    RunOn(closed, Receive(HeardClose(false)), last);
    RunOn(Step(closed, Receive(HeardClose(false))), CallFree(true, env), []);
    assert [] + ps + [Eof] + [Close] == ps + [Eof, Close];
  }

  // Exactly when the shape is kept

  /** An end-of-file was sent last and is not remembered. */
  ghost predicate Forgot(e: EndPoint) {
    WellShaped(e.wire) && Ended(e.wire) && e.wire[|e.wire| - 1].Eof? && !e.ctl.localEof && !e.ctl.closedLocal
  }

  lemma FailureEffect(e: EndPoint, op: Op)
    requires FailedFlush(e, op)
    ensures var t := Step(e, op);
      t.wire == e.wire + [Eof] && !t.ctl.localEof && t.ctl.closedLocal == e.ctl.closedLocal && !e.ctl.localEof
  {
    match op
    case CallEof(sendOk, flush) =>
    case CallClose(env) =>
    case CallFree(alive, env) =>
  }

  /** A failed flush leaves a well-shaped wire and an end point that has forgotten its end-of-file. */
  lemma FailureForgets(e: EndPoint, op: Op)
    requires Sound(e) && Remembers(e) && FailedFlush(e, op)
    ensures var t := Step(e, op);
      Sound(t) && Forgot(t) && t.wire == e.wire + [Eof]
  {
    FailureEffect(e, op);
    AppendEof(e.wire);
    assert (e.wire + [Eof])[|e.wire|] == Eof;
  }

  lemma PrefixShaped(w: seq<Packet>, x: seq<Packet>)
    requires WellShaped(w + x)
    ensures WellShaped(w)
  {
    var k: nat :| ShapedAt(w + x, k);
    var j := if k < |w| then k else |w|;
    assert forall i :: 0 <= i < |w| ==> (w + x)[i] == w[i];
    assert w[j..] <= (w + x)[j..];
    if k < |w| {
      assert w[j..] <= [Eof, Close];
    }
    assert ShapedAt(w, j);
  }

  /** After an end-of-file anything but a close breaks the shape for good. */
  lemma OnlyCloseFollows(w: seq<Packet>, x: seq<Packet>)
    requires WellShaped(w) && Ended(w) && x != [] && !x[0].Close?
    ensures !WellShaped(w + x)
  {
    if WellShaped(w + x) {
      assert w + x == (w + [x[0]]) + x[1..];
      PrefixShaped(w + [x[0]], x[1..]);
      NotAfterEof(w, x[0]);
    }
  }

  lemma NotAfterEof(w: seq<Packet>, p: Packet)
    requires WellShaped(w) && Ended(w) && !p.Close?
    ensures !WellShaped(w + [p])
  {
    var v, n := w + [p], |w| - 1;
    assert !v[n].Data? && v[n + 1] == p;
    forall k: nat ensures !ShapedAt(v, k) {
      if k <= n {
        assert v[k..][n - k] == v[n] && v[k..][n + 1 - k] == v[n + 1];
      } else if k == n + 2 {
        assert !v[n].Data?;
      }
    }
  }

  /** What a step or a run adds to the wire. */
  ghost predicate Adds(e: EndPoint, t: EndPoint, x: seq<Packet>) {
    t.wire == e.wire + x
  }

  lemma {:induction false} HearAllSilent(e: EndPoint, hs: seq<Heard>)
    ensures var t := HearAll(e, hs);
      t.wire == e.wire && t.ctl.localEof == e.ctl.localEof && t.ctl.closedLocal == e.ctl.closedLocal
    decreases |hs|
  {
    if hs != [] {
      HearKeeps(e.ctl, hs[0]);
      HearAllSilent(HearOne(e, hs[0]), hs[1..]);
    }
  }

  /** A write adds data only. */
  lemma {:induction false} WriteLoopAdds(e: EndPoint, rounds: seq<Round>) returns (x: seq<Packet>)
    ensures var t := WriteLoop(e, rounds);
      Adds(e, t, x) && t.ctl.localEof == e.ctl.localEof && t.ctl.closedLocal == e.ctl.closedLocal
    ensures x != [] ==> x[0].Data?
    decreases |rounds|
  {
    x := [];
    assert e.wire + [] == e.wire;
    if rounds != [] {
      match rounds[0]
      case SendData(p) =>
        var rest := WriteLoopAdds(if p.Data? then e.(wire := e.wire + [p]) else e, rounds[1..]);
        x := if p.Data? then [p] + rest else rest;
        Associate(e.wire, [p], rest);
      case Wait(h) =>
        HearKeeps(e.ctl, h);
        if e.ctl.state != Closed && HearOne(e, h).ctl.state != Closed {
          x := WriteLoopAdds(HearOne(e, h), rounds[1..]);
        }
    }
  }

  /** Whatever a step does, it only adds to the wire. */
  lemma StepAdds(e: EndPoint, op: Op) returns (x: seq<Packet>)
    ensures Adds(e, Step(e, op), x)
  {
    x := [];
    assert e.wire + [] == e.wire;
    if Enabled(e, op) {
      match op
      case CallWrite(rekey, rounds) =>
        if CanWrite(e.ctl) {
          HearAllSilent(e, rekey);
          x := WriteLoopAdds(HearAll(e, rekey), rounds);
        }
      case CallEof(sendOk, flush) => x := SendEof(e.ctl, sendOk, flush).sent;
      case CallClose(env) => x := CloseChannel(e.ctl, env).sent;
      case CallFree(alive, env) => x := FreeChannel(e.ctl, alive, env).sent;
      case _ =>
    }
  }

  lemma {:induction false} RunAdds(e: EndPoint, ops: seq<Op>) returns (x: seq<Packet>)
    ensures Adds(e, Run(e, ops), x)
    decreases |ops|
  {
    x := [];
    assert e.wire + [] == e.wire;
    if ops != [] {
      var first := StepAdds(e, ops[0]);
      var rest := RunAdds(Step(e, ops[0]), ops[1..]);
      Associate(e.wire, first, rest);
      x := first + rest;
    }
  }

  /** An end point that has forgotten its end-of-file either stays as it is or sends something that is not a close. */
  lemma ForgotStep(e: EndPoint, op: Op) returns (x: seq<Packet>)
    requires Forgot(e)
    ensures Adds(e, Step(e, op), x)
    ensures x == [] ==> Forgot(Step(e, op))
    ensures x != [] ==> !x[0].Close?
  {
    x := [];
    assert e.wire + [] == e.wire;
    if Enabled(e, op) {
      match op
      case CallWrite(rekey, rounds) =>
        if CanWrite(e.ctl) {
          HearAllSilent(e, rekey);
          x := WriteLoopAdds(HearAll(e, rekey), rounds);
        }
      case CallEof(sendOk, flush) => x := SendEof(e.ctl, sendOk, flush).sent;
      case CallClose(env) => x := CloseChannel(e.ctl, env).sent;
      case CallFree(alive, env) => x := FreeChannel(e.ctl, alive, env).sent;
      case Receive(h) => HearKeeps(e.ctl, h);
      case _ =>
    }
  }

  /** From there on the shape is kept exactly as long as nothing more is sent. */
  lemma {:induction false} ForgottenRun(e: EndPoint, ops: seq<Op>)
    requires Forgot(e)
    ensures WellShaped(Run(e, ops).wire) <==> Run(e, ops).wire == e.wire
    decreases |ops|
  {
    if ops != [] {
      var x := ForgotStep(e, ops[0]);
      var t := Step(e, ops[0]);
      if x == [] {
        assert t.wire == e.wire;
        ForgottenRun(t, ops[1..]);
      } else {
        var rest := RunAdds(t, ops[1..]);
        Associate(e.wire, x, rest);
        OnlyCloseFollows(e.wire, x + rest);
        assert |Run(e, ops).wire| > |e.wire|;
      }
    }
  }

  /** The flush after an end-of-file failed, and something was sent after that. */
  predicate SendsAfterFailure(e: EndPoint, ops: seq<Op>)
    decreases |ops|
  {
    ops != [] &&
    var t := Step(e, ops[0]);
    if FailedFlush(e, ops[0]) then Run(t, ops[1..]).wire != t.wire else SendsAfterFailure(t, ops[1..])
  }

  lemma {:induction false} ShapeFrom(e: EndPoint, ops: seq<Op>)
    requires Sound(e) && Remembers(e)
    ensures WellShaped(Run(e, ops).wire) <==> !SendsAfterFailure(e, ops)
    decreases |ops|
  {
    if ops != [] {
      if FailedFlush(e, ops[0]) {
        FailureForgets(e, ops[0]);
        ForgottenRun(Step(e, ops[0]), ops[1..]);
      } else {
        StepSound(e, ops[0]);
        ShapeFrom(Step(e, ops[0]), ops[1..]);
      }
    }
  }

  /**
   * Over all runs: a channel's packets have the shape DATA* EOF? CLOSE? if and only if nothing is sent after a call
   * whose flush of an end-of-file failed.
   */
  lemma ShapeExactly(ops: seq<Op>)
    ensures WellShaped(Run(Fresh, ops).wire) <==> !SendsAfterFailure(Fresh, ops)
  {
    assert ShapedAt(Fresh.wire, 0);
    ShapeFrom(Fresh, ops);
  }

  /** After the first end-of-file or close call that returned an error, the application makes no further call. */
  predicate StopsAtError(e: EndPoint, ops: seq<Op>)
    decreases |ops|
  {
    ops != [] ==>
      if ReturnsError(e, ops[0]) then forall i :: 0 < i < |ops| ==> ops[i].Receive?
      else StopsAtError(Step(e, ops[0]), ops[1..])
  }

  /** What arrives puts nothing on the wire. */
  lemma {:induction false} ReceivingIsSilent(e: EndPoint, ops: seq<Op>)
    requires forall i :: 0 <= i < |ops| ==> ops[i].Receive?
    ensures Run(e, ops).wire == e.wire
    decreases |ops|
  {
    if ops != [] {
      if Enabled(e, ops[0]) {
        HearKeeps(e.ctl, ops[0].heard);
      }
      ReceivingIsSilent(Step(e, ops[0]), ops[1..]);
    }
  }

  lemma {:induction false} StoppingSendsNothing(e: EndPoint, ops: seq<Op>)
    requires StopsAtError(e, ops)
    ensures !SendsAfterFailure(e, ops)
    decreases |ops|
  {
    if ops != [] {
      var t := Step(e, ops[0]);
      if FailedFlush(e, ops[0]) {
        FailureIsReported(e, ops[0]);
        if ReturnsError(e, ops[0]) {
          ReceivingIsSilent(t, ops[1..]);
        } else {
          Silent(t, ops[1..]);
        }
      } else if ReturnsError(e, ops[0]) {
        ReceivingStops(t, ops[1..]);
      } else {
        StoppingSendsNothing(t, ops[1..]);
      }
    }
  }

  lemma {:induction false} ReceivingStops(e: EndPoint, ops: seq<Op>)
    requires forall i :: 0 <= i < |ops| ==> ops[i].Receive?
    ensures !SendsAfterFailure(e, ops)
    decreases |ops|
  {
    if ops != [] {
      ReceivingStops(Step(e, ops[0]), ops[1..]);
    }
  }

  /**
   * What the application can do about it: if it makes no further call, not even one that frees the channel, after an
   * end-of-file or close call returned an error, the shape is kept, whatever fails and whatever arrives.
   */
  lemma StoppingKeepsShape(ops: seq<Op>)
    requires StopsAtError(Fresh, ops)
    ensures WellShaped(Run(Fresh, ops).wire)
  {
    StoppingSendsNothing(Fresh, ops);
    ShapeExactly(ops);
  }

  /** No flush of an end-of-file fails in the run. */
  predicate Clean(e: EndPoint, ops: seq<Op>)
    decreases |ops|
  {
    ops == [] || (!FailedFlush(e, ops[0]) && Clean(Step(e, ops[0]), ops[1..]))
  }

  lemma {:induction false} CleanSound(e: EndPoint, ops: seq<Op>)
    requires Sound(e) && Remembers(e) && Clean(e, ops)
    ensures Sound(Run(e, ops)) && Remembers(Run(e, ops))
    decreases |ops|
  {
    if ops != [] {
      StepSound(e, ops[0]);
      CleanSound(Step(e, ops[0]), ops[1..]);
    }
  }

  /** A channel that was freed or released sends nothing more. */
  lemma {:induction false} Silent(e: EndPoint, ops: seq<Op>)
    requires e.released > 0 || e.ctl.freedLocal
    ensures Run(e, ops).wire == e.wire
    decreases |ops|
  {
    if ops != [] {
      var t := Step(e, ops[0]);
      if Enabled(e, ops[0]) {
        HearKeeps(e.ctl, ops[0].heard);
      }
      Silent(t, ops[1..]);
    }
  }

  ghost predicate Breakable(e: EndPoint) {
    exists more: seq<Op> :: (forall i :: 0 <= i < |more| ==> FlushesEof(more[i])) && !WellShaped(Run(e, more).wire)
  }

  /**
   * Up to and including the first failed flush the wire is well shaped. From there calls that all succeed can break
   * the shape exactly when the flush has failed and the application can still use the channel.
   */
  lemma BreakableExactly(ops: seq<Op>, op: Op)
    requires Clean(Fresh, ops)
    ensures var e, t := Run(Fresh, ops), Step(Run(Fresh, ops), op);
      && Sound(t)
      && (Remembers(t) <==> !FailedFlush(e, op))
      && (Breakable(t) <==> FailedFlush(e, op) && t.released == 0 && !t.ctl.freedLocal)
  {
    assert ShapedAt(Fresh.wire, 0);
    CleanSound(Fresh, ops);
    var e, t := Run(Fresh, ops), Step(Run(Fresh, ops), op);
    if !FailedFlush(e, op) {
      StepSound(e, op);
      forall more: seq<Op> | forall i :: 0 <= i < |more| ==> FlushesEof(more[i])
        ensures WellShaped(Run(t, more).wire)
      {
        RunSound(t, more);
      }
    } else {
      FailureForgets(e, op);
      if t.released == 0 && !t.ctl.freedLocal {
        SecondEofBreaks(t.wire);
        var more := [CallEof(true, Ok)];
        assert more[1..] == [] && Run(t, more) == Run(Step(t, more[0]), []);
        assert FlushesEof(more[0]) && !WellShaped(Run(t, more).wire);
      } else {
        forall more: seq<Op>
          ensures Run(t, more).wire == t.wire
        {
          Silent(t, more);
        }
      }
    }
  }

  // The life of the record

  ghost predicate ReleasedRight(e: EndPoint) {
    e.released == if Destroyable(e.ctl) then 1 else 0
  }

  lemma {:induction false} HearAllReleases(e: EndPoint, hs: seq<Heard>)
    requires ReleasedRight(e) && !e.ctl.freedLocal
    ensures ReleasedRight(HearAll(e, hs)) && !HearAll(e, hs).ctl.freedLocal
    ensures e.ctl.closedRemote ==> HearAll(e, hs).ctl.closedRemote
    decreases |hs|
  {
    if hs != [] {
      HearKeeps(e.ctl, hs[0]);
      HearAllReleases(HearOne(e, hs[0]), hs[1..]);
    }
  }

  lemma {:induction false} WriteLoopReleases(e: EndPoint, rounds: seq<Round>)
    requires ReleasedRight(e) && !e.ctl.freedLocal
    ensures ReleasedRight(WriteLoop(e, rounds)) && !WriteLoop(e, rounds).ctl.freedLocal
    ensures e.ctl.closedRemote ==> WriteLoop(e, rounds).ctl.closedRemote
    decreases |rounds|
  {
    if rounds != [] {
      match rounds[0]
      case SendData(p) => WriteLoopReleases(if p.Data? then e.(wire := e.wire + [p]) else e, rounds[1..]);
      case Wait(h) =>
        HearKeeps(e.ctl, h);
        if e.ctl.state != Closed && HearOne(e, h).ctl.state != Closed {
          WriteLoopReleases(HearOne(e, h), rounds[1..]);
        }
    }
  }

  lemma StepReleases(e: EndPoint, op: Op)
    requires ReleasedRight(e)
    ensures ReleasedRight(Step(e, op))
    ensures e.ctl.freedLocal ==> Step(e, op).ctl.freedLocal
    ensures e.ctl.closedRemote ==> Step(e, op).ctl.closedRemote
    ensures op.CallFree? ==> Step(e, op).ctl.freedLocal
    ensures op.Receive? && op.heard.HeardClose? ==> e.released == 1 || Step(e, op).ctl.closedRemote
  {
    if Enabled(e, op) && op.CallWrite? && CanWrite(e.ctl) {
      HearAllReleases(e, op.rekey);
      WriteLoopReleases(HearAll(e, op.rekey), op.rounds);
    }
  }

  lemma {:induction false} RunReleases(e: EndPoint, ops: seq<Op>)
    requires ReleasedRight(e)
    ensures ReleasedRight(Run(e, ops))
    ensures e.ctl.freedLocal ==> Run(e, ops).ctl.freedLocal
    ensures e.ctl.closedRemote ==> Run(e, ops).ctl.closedRemote
    ensures e.released == 1 ==> Run(e, ops) == e
    decreases |ops|
  {
    if ops != [] {
      StepReleases(e, ops[0]);
      RunReleases(Step(e, ops[0]), ops[1..]);
    }
  }

  /**
   * In every run the record is released at most once, and at any moment it has been released exactly when the
   * application freed it and the peer closed it or never knew it.
   */
  lemma ReleasedExactlyWhen(ops: seq<Op>)
    ensures var e := Run(Fresh, ops);
      e.released == if e.ctl.freedLocal && (e.ctl.closedRemote || e.ctl.notBound) then 1 else 0
  {
    RunReleases(Fresh, ops);
  }

  lemma {:induction false} RunSplit(e: EndPoint, a: seq<Op>, b: seq<Op>)
    ensures Run(e, a + b) == Run(Run(e, a), b)
    decreases |a|
  {
    if a == [] {
      assert a + b == b;
    } else {
      assert (a + b)[1..] == a[1..] + b;
      RunSplit(Step(e, a[0]), a[1..], b);
    }
  }

  lemma RunAt(e: EndPoint, ops: seq<Op>, i: nat)
    requires i < |ops|
    ensures Run(e, ops) == Run(Step(Run(e, ops[..i]), ops[i]), ops[i + 1..])
  {
    RunSplit(e, ops[..i], ops[i..]);
    assert ops == ops[..i] + ops[i..];
    assert ops[i..][1..] == ops[i + 1..];
  }

  /** Once the application has freed the channel and the peer has closed it, in either order, it is released. */
  lemma FreeAndCloseRelease(ops: seq<Op>, i: nat, j: nat)
    requires i < |ops| && j < |ops| && ops[i].CallFree? && ops[j].Receive? && ops[j].heard.HeardClose?
    ensures Run(Fresh, ops).released == 1
  {
    RunReleases(Fresh, ops[..i]);
    RunReleases(Fresh, ops[..j]);
    StepReleases(Run(Fresh, ops[..i]), ops[i]);
    StepReleases(Run(Fresh, ops[..j]), ops[j]);
    RunAt(Fresh, ops, i);
    RunAt(Fresh, ops, j);
    RunReleases(Step(Run(Fresh, ops[..i]), ops[i]), ops[i + 1..]);
    RunReleases(Step(Run(Fresh, ops[..j]), ops[j]), ops[j + 1..]);
  }
}
