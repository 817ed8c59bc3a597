/**
 * Nothing gets stuck: from every reachable state without failures the reader can obtain every byte that was written,
 * and a writer can get through whatever it still has to write.
 */
module Delivery {
  import opened Bytes
  import opened Channels
  import opened FlowControl

  // What a link may hold

  /** No payload is too long for the receiver's buffer, and after a close comes no data. */
  ghost predicate Orderly(snd: Chan, link: seq<Packet>) {
    && MaxPayload(snd.flow) <= BUFFER_SIZE_MAX
    && (forall i :: 0 <= i < |link| ==> Size(link[i]) <= BUFFER_SIZE_MAX)
    && (forall i :: 0 <= i < |link| && link[i].Close? ==> snd.ctl.localEof)
    && (forall i, j :: 0 <= i < j < |link| && link[i].Close? ==> !link[j].Data?)
  }

  ghost predicate BothOrderly(s: System) {
    Orderly(s.l, s.lr) && Orderly(s.r, s.rl)
  }

  /** The sender still limits its packets, and has not taken back its end-of-file. */
  ghost predicate SameSender(a: Chan, b: Chan) {
    a.flow.remoteMaxPacket == b.flow.remoteMaxPacket && (a.ctl.localEof ==> b.ctl.localEof)
  }

  ghost predicate WithoutData(link: seq<Packet>) {
    forall i :: 0 <= i < |link| ==> !link[i].Data?
  }

  lemma OrderlyAppend(snd: Chan, snd': Chan, link: seq<Packet>, sent: seq<Packet>)
    requires Orderly(snd, link) && SameSender(snd, snd') && WithoutData(sent)
    requires forall i :: 0 <= i < |sent| && sent[i].Close? ==> snd'.ctl.localEof
    ensures Orderly(snd', link + sent)
  {
  }

  lemma OrderlyWrite(snd: Chan, snd': Chan, link: seq<Packet>, p: Packet)
    requires Orderly(snd, link) && SameSender(snd, snd') && !snd.ctl.localEof
    requires Size(p) <= MaxPayload(snd.flow) && !p.Close?
    ensures Orderly(snd', link + [p])
  {
  }

  lemma OrderlyTail(snd: Chan, link: seq<Packet>)
    requires Orderly(snd, link) && link != []
    ensures Orderly(snd, link[1..]) && (link[0].Close? ==> WithoutData(link[1..]))
  {
  }

  lemma WriteOrderly(s: System, a: Action)
    requires BothOrderly(s) && a.WriteChunk?
    ensures BothOrderly(DoWrite(s, a))
  {
    var t := DoWrite(s, a);
    if t != s {
      OrderlyWrite(s.l, t.l, s.lr, Data(a.stream, a.rest[..ChunkLength(s.l.flow, |a.rest|)]));
    }
  }

  lemma DeliverOrderly(s: System, a: Action)
    requires BothOrderly(s) && a.Deliver?
    ensures BothOrderly(DoDeliver(s, a))
  {
    if s.rl != [] {
      OrderlyTail(s.r, s.rl);
      var t := DoDeliver(s, a);
      if s.rl[0].Data? {
        var d := RcvData(s.l.flow, s.rl[0].stream, s.rl[0].payload, a.room, a.rests, a.adjustOk);
        OrderlyAppend(s.l, t.l, s.lr, d.sent);
      } else {
        OrderlyAppend(s.l, t.l, s.lr, []);
        assert s.lr + [] == s.lr;
      }
    }
  }

  lemma ReadOrderly(s: System, a: Action)
    requires BothOrderly(s) && (a.StartRead? || a.FinishRead?)
    ensures BothOrderly(Next(s, a))
  {
    var t := Next(s, a);
    if a.StartRead? && t != s {
      OrderlyAppend(s.l, t.l, s.lr, ReadBegin(s.l.flow, a.from, a.count, a.adjustOk).sent);
    } else if a.FinishRead? && t != s {
      OrderlyAppend(s.l, t.l, s.lr, ReadFinish(s.l.flow, s.l.ctl, a.from, a.count, a.adjustOk).sent);
    }
  }

  lemma NextOrderly(s: System, a: Action)
    requires BothOrderly(s)
    ensures BothOrderly(Next(s, a))
  {
    match a
    case WriteChunk(_, _, _) => WriteOrderly(s, a);
    case Deliver(_, _, _) => DeliverOrderly(s, a);
    case StartRead(_, _, _) => ReadOrderly(s, a);
    case FinishRead(_, _, _) => ReadOrderly(s, a);
    case WriteEof(sendOk, flush) => OrderlyAppend(s.l, Next(s, a).l, s.lr, SendEof(s.l.ctl, sendOk, flush).sent);
    case WriteClose(env) => OrderlyAppend(s.l, Next(s, a).l, s.lr, CloseChannel(s.l.ctl, env).sent);
  }

  lemma {:induction false} RunOrderly(s: System, events: seq<Event>)
    requires BothOrderly(s)
    ensures BothOrderly(Run(s, events))
    decreases |events|
  {
    if events != [] {
      var e := events[0];
      if e.left {
        NextOrderly(s, e.action);
      } else {
        NextOrderly(Flip(s), e.action);
      }
      RunOrderly(Happen(s, e), events[1..]);
    }
  }

  // Draining the link towards the left side

  function Acts(s: System, acts: seq<Action>): System
    decreases |acts|
  {
    if acts == [] then s else Acts(Next(s, acts[0]), acts[1..])
  }

  lemma {:induction false} ActsConcat(s: System, a: seq<Action>, b: seq<Action>)
    ensures Acts(s, a + b) == Acts(Acts(s, a), b)
    decreases |a|
  {
    if a == [] {
      assert a + b == b;
    } else {
      assert (a + b)[1..] == a[1..] + b;
      ActsConcat(Next(s, a[0]), a[1..], b);
    }
  }

  /** Nothing has failed, and either the left side can still read or nothing is left to read and nothing will come. */
  ghost predicate Drainable(s: System) {
    && Inv(s) && BothOrderly(s) && !s.hr.failed
    && (s.l.ctl.state != Closed || (Drained(s) && s.r.ctl.localEof))
  }

  ghost predicate Drained(s: System) {
    Unread(s.l.flow, Stdout) == [] && Unread(s.l.flow, Stderr) == [] && WithoutData(s.rl)
  }

  /** What changes for the left side's reading: not the link, what was written, the other side or a failure. */
  ghost predicate SameSource(s: System, t: System) {
    t.rl == s.rl && t.hr.sent == s.hr.sent && t.r == s.r && t.hr.failed == s.hr.failed && t.l.ctl == s.l.ctl
  }

  lemma StartSame(s: System, st: Stream, n: u32)
    ensures var t := Next(s, StartRead(st, n, true));
      SameSource(s, t) && t.l.flow.bufs == s.l.flow.bufs
  {
  }

  lemma FinishTakesAll(s: System, st: Stream, n: u32)
    requires s.l.ctl.state != Closed && s.l.flow.bufs.Get(st).Some? && n == |Unread(s.l.flow, st)| > 0
    ensures var t := Next(s, FinishRead(st, n, true));
      && SameSource(s, t) && Unread(t.l.flow, st) == []
      && forall other :: other != st ==> Unread(t.l.flow, other) == Unread(s.l.flow, other)
  {
    assert Unread(s.l.flow, st)[n..] == [];
  }

  predicate OnlyReceives(acts: seq<Action>) {
    forall i :: 0 <= i < |acts| ==> acts[i].Deliver? || acts[i].StartRead? || acts[i].FinishRead?
  }

  /** A read call for everything a stream holds. */
  function ReadOut(s: System, st: Stream): seq<Action>
    requires |Unread(s.l.flow, st)| <= BUFFER_SIZE_MAX
  {
    var n := |Unread(s.l.flow, st)|;
    if n == 0 then [] else [StartRead(st, n, true), FinishRead(st, n, true)]
  }

  lemma ReadOutEmpties(s: System, st: Stream)
    requires Drainable(s) && s.l.ctl.state != Closed
    ensures var t := Acts(s, ReadOut(s, st));
      && Drainable(t) && SameSource(s, t) && Unread(t.l.flow, st) == []
      && forall other :: other != st ==> Unread(t.l.flow, other) == Unread(s.l.flow, other)
  {
    var n := |Unread(s.l.flow, st)|;
    if n > 0 {
      var a, b := StartRead(st, n, true), FinishRead(st, n, true);
      assert [a, b][1..] == [b] && [b][1..] == [];
      var t := Next(s, a);
      assert Acts(s, [a, b]) == Acts(t, [b]) == Next(t, b);
      NextKeeps(s, a);
      NextOrderly(s, a);
      StartSame(s, st, n);
      NextKeeps(t, b);
      NextOrderly(t, b);
      FinishTakesAll(t, st, n);
    }
  }

  /** Reading both streams out. */
  lemma ReadBoth(s: System) returns (acts: seq<Action>)
    requires Drainable(s) && s.l.ctl.state != Closed
    ensures var t := Acts(s, acts);
      Drainable(t) && SameSource(s, t) && Unread(t.l.flow, Stdout) == [] && Unread(t.l.flow, Stderr) == []
    ensures OnlyReceives(acts)
  {
    var out := ReadOut(s, Stdout);
    ReadOutEmpties(s, Stdout);
    var t := Acts(s, out);
    var err := ReadOut(t, Stderr);
    ReadOutEmpties(t, Stderr);
    ActsConcat(s, out, err);
    acts := out + err;
  }

  /** Taking the oldest packet off the link when nothing waits in the buffers. */
  lemma TakeOne(s: System)
    requires Drainable(s) && s.rl != [] && s.l.ctl.state != Closed
    requires Unread(s.l.flow, Stdout) == [] && Unread(s.l.flow, Stderr) == []
    ensures var t := Next(s, Deliver(true, [], true));
      Drainable(t) && t.rl == s.rl[1..] && t.hr.sent == s.hr.sent && t.r == s.r
  {
    var a := Deliver(true, [], true);
    NextKeeps(s, a);
    NextOrderly(s, a);
    OrderlyTail(s.r, s.rl);
    if s.rl[0].Data? {
      TakeData(s);
    }
  }

  lemma TakeData(s: System)
    requires Drainable(s) && s.rl != [] && s.rl[0].Data?
    requires Unread(s.l.flow, Stdout) == [] && Unread(s.l.flow, Stderr) == []
    ensures var t := Next(s, Deliver(true, [], true));
      t.rl == s.rl[1..] && t.hr.sent == s.hr.sent && !t.hr.failed && t.l.ctl == s.l.ctl
  {
    var p := s.rl[0];
    assert Size(p) <= BUFFER_SIZE_MAX;
    assert |Unread(s.l.flow, p.stream) + p.payload| <= BUFFER_SIZE_MAX;
    var d := RcvData(s.l.flow, p.stream, p.payload, true, [], true);
    assert d.stored && d.rc == Ok;
  }

  lemma {:induction false} NoBytes(link: seq<Packet>, s: Stream)
    requires WithoutData(link)
    ensures BytesInFlight(link, s) == []
  {
    if link != [] {
      NoBytes(link[1..], s);
    }
  }

  lemma DrainedIsDelivered(s: System)
    requires Inv(s) && !s.hr.failed && Drained(s)
    ensures s.hr.delivered == s.hr.sent
  {
    NoBytes(s.rl, Stdout);
    NoBytes(s.rl, Stderr);
    assert Intact(s.l.flow, s.rl, s.hr, Stdout) && Intact(s.l.flow, s.rl, s.hr, Stderr);
    var d := s.hr.delivered;
    assert d.out + [] + [] == d.out && d.err + [] + [] == d.err;
  }

  /** Some finite sequence of deliveries and reads of the left side hands over everything the right side wrote. */
  lemma {:induction false} Drain(s: System) returns (acts: seq<Action>)
    requires Drainable(s)
    ensures var t := Acts(s, acts);
      t.hr.delivered == t.hr.sent == s.hr.sent && Drainable(t) && Drained(t) && t.r == s.r
    ensures OnlyReceives(acts)
    decreases |s.rl|
  {
    if Drained(s) {
      acts := [];
      DrainedIsDelivered(s);
    } else {
      var readAll := ReadBoth(s);
      var t := Acts(s, readAll);
      acts := readAll;
      if t.rl == [] {
        DrainedIsDelivered(t);
      } else {
        var take := Deliver(true, [], true);
        TakeOne(t);
        var rest := Drain(Next(t, take));
        ActsConcat(s, readAll, [take] + rest);
        assert ([take] + rest)[1..] == rest;
        acts := readAll + ([take] + rest);
      }
    }
  }

  // The theorem, for both directions

  /** The events of one side. */
  function Events(left: bool, acts: seq<Action>): seq<Event> {
    seq(|acts|, i requires 0 <= i < |acts| => Event(left, acts[i]))
  }

  lemma {:induction false} RunOfActs(s: System, acts: seq<Action>)
    ensures Run(s, Events(true, acts)) == Acts(s, acts)
    ensures Run(Flip(s), Events(false, acts)) == Flip(Acts(s, acts))
    decreases |acts|
  {
    if acts != [] {
      var a, rest := acts[0], acts[1..];
      assert Events(true, acts)[1..] == Events(true, rest) && Events(false, acts)[1..] == Events(false, rest);
      RunOfActs(Next(s, a), rest);
      assert Flip(Flip(s)) == s;
      assert Happen(Flip(s), Event(false, a)) == Flip(Next(s, a));
    }
  }

  /** The peers limit their packets to what a stream buffer can hold. */
  predicate PacketsFit(s: System) {
    MaxPayload(s.l.flow) <= BUFFER_SIZE_MAX && MaxPayload(s.r.flow) <= BUFFER_SIZE_MAX
  }

  /**
   * From every reachable state in which nothing has failed and the receiving channel is not closed, deliveries and
   * reads of the receiving side hand over, in order, every byte that was written.
   */
  lemma EveryByteDeliverable(s0: System, events: seq<Event>) returns (acts: seq<Action>)
    requires Opened(s0) && PacketsFit(s0)
    requires var s := Run(s0, events); !s.hr.failed && s.l.ctl.state != Closed
    ensures OnlyReceives(acts)
    ensures var s := Run(s0, events);
      var t := Run(s, Events(true, acts));
      t.hr.delivered == t.hr.sent == s.hr.sent
  {
    OpenedInv(s0);
    RunKeepsInv(s0, events);
    RunOrderly(s0, events);
    var s := Run(s0, events);
    acts := Drain(s);
    RunOfActs(s, acts);
  }

  /** The same for what the left side wrote. */
  lemma EveryByteDeliverableRight(s0: System, events: seq<Event>) returns (acts: seq<Action>)
    requires Opened(s0) && PacketsFit(s0)
    requires var s := Run(s0, events); !s.hl.failed && s.r.ctl.state != Closed
    ensures OnlyReceives(acts)
    ensures var s := Run(s0, events);
      var t := Run(s, Events(false, acts));
      t.hl.delivered == t.hl.sent == s.hl.sent
  {
    OpenedInv(s0);
    RunKeepsInv(s0, events);
    RunOrderly(s0, events);
    var s := Run(s0, events);
    acts := Drain(Flip(s));
    RunOfActs(Flip(s), acts);
    assert Flip(Flip(s)) == s;
  }

  // The end of file

  /** An end-of-file the right side has sent is on its way, or the left side has heard of it. */
  ghost predicate EofUnderway(s: System) {
    s.r.ctl.localEof ==> s.l.ctl.remoteEof || exists i :: 0 <= i < |s.rl| && s.rl[i].Eof?
  }

  /** What a delivery leaves on the link. */
  lemma EofTail(link: seq<Packet>, rest: seq<Packet>)
    requires link != [] && rest == link[1..] && exists i :: 0 <= i < |link| && link[i].Eof?
    ensures link[0].Eof? || exists i :: 0 <= i < |rest| && rest[i].Eof?
  {
    var i :| 0 <= i < |link| && link[i].Eof?;
    if i > 0 {
      assert rest[i - 1].Eof?;
    }
  }

  lemma EofAppend(link: seq<Packet>, sent: seq<Packet>)
    ensures (exists i :: 0 <= i < |link| && link[i].Eof?) || Eof in sent ==>
      exists i :: 0 <= i < |link + sent| && (link + sent)[i].Eof?
  {
    if i :| 0 <= i < |link| && link[i].Eof? {
      assert (link + sent)[i].Eof?;
    } else if Eof in sent {
      var i :| 0 <= i < |sent| && sent[i] == Eof;
      assert (link + sent)[|link| + i].Eof?;
    }
  }

  /** A step of the left side keeps that for what it hears. */
  lemma HeardEofKeeps(s: System, a: Action)
    requires EofUnderway(s)
    ensures EofUnderway(Next(s, a))
  {
    if a.Deliver? && s.rl != [] && s.r.ctl.localEof && !s.l.ctl.remoteEof {
      EofTail(s.rl, s.rl[1..]);
    }
  }

  /** And for what it sends. */
  lemma SentEofKeeps(s: System, a: Action)
    requires EofUnderway(Flip(s))
    ensures EofUnderway(Flip(Next(s, a)))
  {
    var t := Next(s, a);
    assert s.lr <= t.lr by {
      assert s.lr + [] == s.lr;
    }
    var more := t.lr[|s.lr|..];
    assert t.lr == s.lr + more;
    EofAppend(s.lr, more);
    if t.l.ctl.localEof && !s.l.ctl.localEof {
      assert Eof in more by {
        assert more == if a.WriteEof? then [Eof] else CloseChannel(s.l.ctl, a.env).sent;
        assert more[0] == Eof;
      }
    }
  }

  lemma {:induction false} RunEofUnderway(s: System, events: seq<Event>)
    requires EofUnderway(s) && EofUnderway(Flip(s))
    ensures EofUnderway(Run(s, events)) && EofUnderway(Flip(Run(s, events)))
    decreases |events|
  {
    if events != [] {
      var e := events[0];
      assert Flip(Flip(s)) == s;
      if e.left {
        HeardEofKeeps(s, e.action);
        SentEofKeeps(s, e.action);
      } else {
        HeardEofKeeps(Flip(s), e.action);
        SentEofKeeps(Flip(s), e.action);
        assert Flip(Flip(Next(Flip(s), e.action))) == Next(Flip(s), e.action);
      }
      RunEofUnderway(Happen(s, e), events[1..]);
    }
  }

  /** Without data on the link the packets on it can all be taken. */
  lemma {:induction false} TakeRest(s: System) returns (acts: seq<Action>)
    requires Drained(s) && EofUnderway(s)
    ensures var t := Acts(s, acts);
      Drained(t) && t.rl == [] && EofUnderway(t) && t.hr == s.hr && t.r == s.r && t.l.flow.bufs == s.l.flow.bufs
    ensures OnlyReceives(acts)
    decreases |s.rl|
  {
    acts := [];
    if s.rl != [] {
      var take := Deliver(true, [], true);
      HeardEofKeeps(s, take);
      var rest := TakeRest(Next(s, take));
      acts := [take] + rest;
      assert acts[1..] == rest;
    }
  }

  /**
   * From every reachable state in which nothing has failed, the reader's channel is not closed and the writer has ended
   * its stream, deliveries and reads of the receiving side hand over everything that was written, and then every read
   * reports the end of the file.
   */
  lemma EndOfFileArrives(s0: System, events: seq<Event>, st: Stream, count: u32) returns (acts: seq<Action>)
    requires Opened(s0) && PacketsFit(s0) && !s0.l.ctl.localEof && !s0.r.ctl.localEof
    requires var s := Run(s0, events); !s.hr.failed && s.l.ctl.state != Closed && s.r.ctl.localEof
    ensures OnlyReceives(acts)
    ensures var t := Run(Run(s0, events), Events(true, acts));
      && t.hr.delivered == t.hr.sent == Run(s0, events).hr.sent
      && t.l.flow.bufs.Get(st).Some?
      && ReadFinish(t.l.flow, t.l.ctl, st, count, true) == ReadEnd(t.l.flow, [], [], Ok)
  {
    OpenedInv(s0);
    RunKeepsInv(s0, events);
    RunOrderly(s0, events);
    RunEofUnderway(s0, events);
    var s := Run(s0, events);
    var drain := Drain(s);
    RunOfActs(s, drain);
    RunEofUnderway(s, Events(true, drain));
    var t := Acts(s, drain);
    var rest := TakeRest(t);
    ActsConcat(s, drain, rest);
    acts := drain + rest;
    RunOfActs(s, acts);
  }

  // Writes that are still to come

  /** Nothing has failed, the left side can read, and the right side can write packets that are not empty. */
  ghost predicate Flowing(s: System) {
    && Inv(s) && BothOrderly(s) && !s.hr.failed
    && s.l.ctl.state != Closed && MayWrite(s.r.ctl) && MaxPayload(s.r.flow) > 0
  }

  /** What a delivery to the right side changes for the other direction: its link may carry one more adjust. */
  lemma BackDelivered(s: System)
    requires s.lr != [] && WithoutData(s.rl)
    ensures var t := Happen(s, Event(false, Deliver(true, [], true)));
      && t.l == s.l && t.lr == s.lr[1..] && t.hr == s.hr && WithoutData(t.rl)
      && t.r.flow.remoteMaxPacket == s.r.flow.remoteMaxPacket && (MayWrite(s.r.ctl) ==> MayWrite(t.r.ctl))
  {
  }

  /** The right side takes the oldest packet off its link. */
  lemma TakeBack(s: System)
    requires Flowing(s) && Drained(s) && s.lr != []
    ensures var t := Happen(s, Event(false, Deliver(true, [], true)));
      Flowing(t) && Drained(t) && t.lr == s.lr[1..] && t.hr == s.hr
  {
    var a := Deliver(true, [], true);
    BackDelivered(s);
    assert Inv(Flip(s)) && BothOrderly(Flip(s));
    NextKeeps(Flip(s), a);
    NextOrderly(Flip(s), a);
  }

  lemma {:induction false} TakeAllBack(s: System) returns (schedule: seq<Event>)
    requires Flowing(s) && Drained(s)
    ensures var t := Run(s, schedule);
      Flowing(t) && Drained(t) && t.lr == [] && t.hr == s.hr
    ensures Permitted(schedule)
    decreases |s.lr|
  {
    if s.lr == [] {
      schedule := [];
    } else {
      var e := Event(false, Deliver(true, [], true));
      TakeBack(s);
      var rest := TakeAllBack(Happen(s, e));
      schedule := [e] + rest;
      assert schedule[1..] == rest;
    }
  }

  lemma {:induction false} NoData(link: seq<Packet>)
    requires WithoutData(link)
    ensures DataInFlight(link) == 0
  {
    if link != [] {
      NoData(link[1..]);
    }
  }

  /** With empty buffers and links the writer has the whole window of the reader, which is not zero. */
  lemma WindowIsOpen(s: System)
    requires Flowing(s) && Drained(s) && s.lr == []
    ensures s.r.flow.remoteWindow == s.l.flow.localWindow > 0
  {
    NoData(s.rl);
  }

  /** The left side receives and reads; the right side receives and writes. */
  predicate Permitted(schedule: seq<Event>) {
    forall i :: 0 <= i < |schedule| ==>
      schedule[i].action.Deliver?
      || (if schedule[i].left then schedule[i].action.StartRead? || schedule[i].action.FinishRead?
          else schedule[i].action.WriteChunk?)
  }

  lemma {:induction false} RunConcat(s: System, a: seq<Event>, b: seq<Event>)
    ensures Run(s, a + b) == Run(Run(s, a), b)
    decreases |a|
  {
    if a == [] {
      assert a + b == b;
    } else {
      assert (a + b)[1..] == a[1..] + b;
      RunConcat(Happen(s, a[0]), a[1..], b);
    }
  }

  /** The left side reads everything out. */
  lemma DrainAll(s: System) returns (schedule: seq<Event>)
    requires Flowing(s)
    ensures var t := Run(s, schedule);
      Flowing(t) && Drained(t) && t.hr.delivered == t.hr.sent == s.hr.sent
    ensures Permitted(schedule)
  {
    var acts := Drain(s);
    RunOfActs(s, acts);
    schedule := Events(true, acts);
  }

  /** Reading everything out and taking the adjusts opens the writer's window. */
  lemma OpenWindow(s: System) returns (schedule: seq<Event>)
    requires Flowing(s)
    ensures var t := Run(s, schedule);
      Flowing(t) && t.r.flow.remoteWindow > 0 && t.hr.sent == s.hr.sent
    ensures Permitted(schedule)
  {
    var drain := DrainAll(s);
    var back := TakeAllBack(Run(s, drain));
    WindowIsOpen(Run(Run(s, drain), back));
    RunConcat(s, drain, back);
    schedule := drain + back;
  }

  /** The right side sends the next `n` bytes of `rest`. */
  lemma SendSome(s: System, st: Stream, rest: seq<byte>, n: nat)
    requires Flowing(s) && n == ChunkLength(s.r.flow, |rest|) > 0
    ensures var t := Happen(s, Event(false, WriteChunk(st, rest, true)));
      Flowing(t) && t.hr.sent == Put(s.hr.sent, st, s.hr.sent.Get(st) + rest[..n])
  {
    var a := WriteChunk(st, rest, true);
    assert Inv(Flip(s)) && BothOrderly(Flip(s));
    NextKeeps(Flip(s), a);
    NextOrderly(Flip(s), a);
  }

  lemma RunOne(s: System, e: Event)
    ensures Run(s, [e]) == Happen(s, e)
  {
    assert [e][1..] == [];
  }

  lemma WriteSome(s: System, st: Stream, rest: seq<byte>) returns (schedule: seq<Event>, n: nat)
    requires Flowing(s) && s.r.flow.remoteWindow > 0 && rest != []
    ensures 0 < n <= |rest| && Permitted(schedule)
    ensures var t := Run(s, schedule);
      Flowing(t) && t.hr.sent == Put(s.hr.sent, st, s.hr.sent.Get(st) + rest[..n])
  {
    n := ChunkLength(s.r.flow, |rest|);
    SendSome(s, st, rest, n);
    schedule := [Event(false, WriteChunk(st, rest, true))];
    RunOne(s, schedule[0]);
  }

  /** One packet more. */
  lemma OneMore(s: System, st: Stream, rest: seq<byte>) returns (schedule: seq<Event>, n: nat)
    requires Flowing(s) && rest != []
    ensures 0 < n <= |rest| && Permitted(schedule)
    ensures var t := Run(s, schedule);
      Flowing(t) && t.hr.sent == Put(s.hr.sent, st, s.hr.sent.Get(st) + rest[..n])
  {
    var open := OpenWindow(s);
    var write;
    write, n := WriteSome(Run(s, open), st, rest);
    RunConcat(s, open, write);
    schedule := open + write;
  }

  lemma Rejoined(sent: Two<seq<byte>>, st: Stream, rest: seq<byte>, n: nat)
    requires n <= |rest|
    ensures var first := Put(sent, st, sent.Get(st) + rest[..n]);
      Put(first, st, first.Get(st) + rest[n..]) == Put(sent, st, sent.Get(st) + rest)
  {
    assert rest[..n] + rest[n..] == rest;
    assert sent.Get(st) + rest[..n] + rest[n..] == sent.Get(st) + rest;
  }

  lemma {:induction false} WriteAll(s: System, st: Stream, rest: seq<byte>) returns (schedule: seq<Event>)
    requires Flowing(s)
    ensures Permitted(schedule)
    ensures var t := Run(s, schedule);
      t.hr.delivered == t.hr.sent == Put(s.hr.sent, st, s.hr.sent.Get(st) + rest)
    decreases |rest|
  {
    if rest == [] {
      schedule := DrainAll(s);
      assert s.hr.sent.Get(st) + rest == s.hr.sent.Get(st);
    } else {
      var first, n := OneMore(s, st, rest);
      var others := WriteAll(Run(s, first), st, rest[n..]);
      RunConcat(s, first, others);
      Rejoined(s.hr.sent, st, rest, n);
      schedule := first + others;
    }
  }

  lemma NextKeepsLimits(s: System, a: Action)
    ensures Next(s, a).l.flow.remoteMaxPacket == s.l.flow.remoteMaxPacket && Next(s, a).r == s.r
  {
  }

  lemma {:induction false} RunKeepsLimits(s: System, events: seq<Event>)
    ensures var t := Run(s, events);
      t.l.flow.remoteMaxPacket == s.l.flow.remoteMaxPacket && t.r.flow.remoteMaxPacket == s.r.flow.remoteMaxPacket
    decreases |events|
  {
    if events != [] {
      NextKeepsLimits(if events[0].left then s else Flip(s), events[0].action);
      RunKeepsLimits(Happen(s, events[0]), events[1..]);
    }
  }

  /**
   * From every reachable state in which nothing has failed, the reader's channel is not closed and the writer may
   * write, some schedule of writes, deliveries and reads hands over, in order, everything that was written and then
   * whatever the writer still has to write to either stream.
   */
  lemma EveryWriteDeliverable(s0: System, events: seq<Event>, st: Stream, rest: seq<byte>)
    returns (schedule: seq<Event>)
    requires Opened(s0) && PacketsFit(s0) && MaxPayload(s0.r.flow) > 0
    requires var s := Run(s0, events); !s.hr.failed && s.l.ctl.state != Closed && MayWrite(s.r.ctl)
    ensures Permitted(schedule)
    ensures var s := Run(s0, events);
      var t := Run(s, schedule);
      t.hr.delivered == t.hr.sent == Put(s.hr.sent, st, s.hr.sent.Get(st) + rest)
  {
    OpenedInv(s0);
    RunKeepsInv(s0, events);
    RunOrderly(s0, events);
    RunKeepsLimits(s0, events);
    schedule := WriteAll(Run(s0, events), st, rest);
  }

  /** The same events with the sides exchanged. */
  function Mirror(events: seq<Event>): seq<Event> {
    seq(|events|, i requires 0 <= i < |events| => Event(!events[i].left, events[i].action))
  }

  lemma {:induction false} RunMirror(s: System, events: seq<Event>)
    ensures Run(Flip(s), Mirror(events)) == Flip(Run(s, events))
    decreases |events|
  {
    if events != [] {
      assert Mirror(events)[1..] == Mirror(events[1..]);
      assert Flip(Flip(s)) == s;
      assert Happen(Flip(s), Mirror(events)[0]) == Flip(Happen(s, events[0]));
      RunMirror(Happen(s, events[0]), events[1..]);
    }
  }

  /** The same for what the left side has to write. */
  lemma EveryWriteDeliverableRight(s0: System, events: seq<Event>, st: Stream, rest: seq<byte>)
    returns (schedule: seq<Event>)
    requires Opened(s0) && PacketsFit(s0) && MaxPayload(s0.l.flow) > 0
    requires var s := Run(s0, events); !s.hl.failed && s.r.ctl.state != Closed && MayWrite(s.l.ctl)
    ensures Permitted(Mirror(schedule))
    ensures var s := Run(s0, events);
      var t := Run(s, schedule);
      t.hl.delivered == t.hl.sent == Put(s.hl.sent, st, s.hl.sent.Get(st) + rest)
  {
    var s := Run(s0, events);
    RunMirror(s0, events);
    var mirrored := EveryWriteDeliverable(Flip(s0), Mirror(events), st, rest);
    RunMirror(Flip(s), mirrored);
    assert Flip(Flip(s)) == s;
    schedule := Mirror(mirrored);
    assert Mirror(schedule) == mirrored;
  }
}
