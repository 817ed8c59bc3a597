/**
 * Window-based flow control between two end points of one channel, joined by a FIFO link in each direction
 * (RFC 4254, section 5.2). Every theorem is about every run of the two end points.
 */
module FlowControl {
  import opened Bytes
  import opened Channels

  /**
   * What has happened so far to the bytes one side writes: handed to the packet layer, handed to the peer's
   * application, and lost because the peer could not buffer them. `creditLost` is the window the peer never
   * gave back for lost packets, `failed` records that the peer lost a packet, or could not send the adjust that
   * was due after its application took data.
   */
  datatype History = History(
    sent: Two<seq<byte>>,
    delivered: Two<seq<byte>>,
    lost: Two<nat>,
    creditLost: nat,
    failed: bool)

  /** Left and right end points, the packets in flight from each, and the history of what each wrote. */
  datatype System = System(l: Chan, r: Chan, lr: seq<Packet>, rl: seq<Packet>, hl: History, hr: History)

  function Flip(s: System): System {
    System(s.r, s.l, s.rl, s.lr, s.hr, s.hl)
  }

  // What a link carries

  function Size(p: Packet): nat {
    if p.Data? then |p.payload| else 0
  }

  /** Data bytes in flight. */
  function DataInFlight(link: seq<Packet>): nat {
    if link == [] then 0 else Size(link[0]) + DataInFlight(link[1..])
  }

  function Credit(p: Packet): nat {
    if p.Adjust? then p.bytes else 0
  }

  /** Window-adjust bytes in flight. */
  function CreditInFlight(link: seq<Packet>): nat {
    if link == [] then 0 else Credit(link[0]) + CreditInFlight(link[1..])
  }

  function PayloadFor(p: Packet, s: Stream): seq<byte> {
    if p.Data? && p.stream == s then p.payload else []
  }

  /** The bytes of one stream in flight, in order. */
  function BytesInFlight(link: seq<Packet>, s: Stream): seq<byte> {
    if link == [] then [] else PayloadFor(link[0], s) + BytesInFlight(link[1..], s)
  }

  lemma {:induction false} AppendToLink(link: seq<Packet>, p: Packet)
    ensures DataInFlight(link + [p]) == DataInFlight(link) + Size(p)
    ensures CreditInFlight(link + [p]) == CreditInFlight(link) + Credit(p)
  {
    if link == [] {
      assert link + [p] == [p];
    } else {
      assert (link + [p])[1..] == link[1..] + [p];
      AppendToLink(link[1..], p);
    }
  }

  lemma {:induction false} AppendToStream(link: seq<Packet>, p: Packet, s: Stream)
    ensures BytesInFlight(link + [p], s) == BytesInFlight(link, s) + PayloadFor(p, s)
  {
    if link == [] {
      assert link + [p] == [p];
    } else {
      assert (link + [p])[1..] == link[1..] + [p];
      AppendToStream(link[1..], p, s);
    }
  }

  // Actions of the left side; the right side acts by flipping the system

  datatype Action =
    | WriteChunk(stream: Stream, rest: seq<byte>, sendOk: bool)
    | Deliver(room: bool, rests: seq<int>, adjustOk: bool)
    | StartRead(from: Stream, count: u32, adjustOk: bool)
    | FinishRead(from: Stream, count: u32, adjustOk: bool)
    | WriteEof(sendOk: bool, flush: Rc)
    | WriteClose(env: CloseEnv)

  /** One round of the write loop with `rest` still to write: a stalled writer waits, any other sends one packet. */
  function DoWrite(s: System, a: Action): System
    requires a.WriteChunk?
  {
    var f := s.l.flow;
    if a.rest == [] || !MayWrite(s.l.ctl) || f.remoteWindow == 0 || !a.sendOk then s
    else
      var payload := a.rest[..ChunkLength(f, |a.rest|)];
      s.(l := s.l.(flow := f.(remoteWindow := f.remoteWindow - |payload|)),
         lr := s.lr + [Data(a.stream, payload)],
         hl := s.hl.(sent := Put(s.hl.sent, a.stream, s.hl.sent.Get(a.stream) + payload)))
  }

  function Arrived(h: History, f: Flow, stream: Stream, payload: seq<byte>, d: Received): History {
    if d.stored then
      h.(delivered := Put(h.delivered, stream, h.delivered.Get(stream) + d.delivered),
         failed := h.failed || d.rc != Ok)
    else
      h.(lost := Put(h.lost, stream, h.lost.Get(stream) + |Unread(f, stream)| + |payload|),
         creditLost := h.creditLost + |payload|,
         failed := true)
  }

  /** The left side handles the oldest packet in flight towards it. */
  function DoDeliver(s: System, a: Action): System
    requires a.Deliver?
  {
    if s.rl == [] then s
    else
      var t := s.(rl := s.rl[1..]);
      var f, ctl := s.l.flow, s.l.ctl;
      match s.rl[0]
      case Adjust(bytes) => t.(l := s.l.(flow := RcvChangeWindow(f, bytes)))
      case Eof => t.(l := s.l.(ctl := RcvEof(ctl)))
      case Close => t.(l := s.l.(ctl := RcvClose(ctl, Unread(f, Stdout) != [] || Unread(f, Stderr) != [])))
      case Data(stream, payload) =>
        var d := RcvData(f, stream, payload, a.room, a.rests, a.adjustOk);
        t.(l := s.l.(flow := d.flow), lr := s.lr + d.sent, hr := Arrived(s.hr, f, stream, payload, d))
  }

  function DoStartRead(s: System, a: Action): System
    requires a.StartRead?
  {
    if a.count == 0 || s.l.flow.bufs.Get(a.from).None? || |Unread(s.l.flow, a.from)| > BUFFER_SIZE_MAX then s
    else
      var g := ReadBegin(s.l.flow, a.from, a.count, a.adjustOk);
      s.(l := s.l.(flow := g.flow), lr := s.lr + g.sent)
  }

  function DoFinishRead(s: System, a: Action): System
    requires a.FinishRead?
  {
    if a.count == 0 || s.l.flow.bufs.Get(a.from).None? then s
    else
      var e := ReadFinish(s.l.flow, s.l.ctl, a.from, a.count, a.adjustOk);
      var h := s.hr;
      s.(l := s.l.(flow := e.flow), lr := s.lr + e.sent,
         hr := h.(delivered := Put(h.delivered, a.from, h.delivered.Get(a.from) + e.delivered),
                  failed := h.failed || (e.rc != Ok && e.delivered != [])))
  }

  function Tell(s: System, t: Told): System {
    s.(l := s.l.(ctl := t.ctl), lr := s.lr + t.sent)
  }

  function Next(s: System, a: Action): System {
    match a
    case WriteChunk(_, _, _) => DoWrite(s, a)
    case Deliver(_, _, _) => DoDeliver(s, a)
    case StartRead(_, _, _) => DoStartRead(s, a)
    case FinishRead(_, _, _) => DoFinishRead(s, a)
    case WriteEof(sendOk, flush) => Tell(s, SendEof(s.l.ctl, sendOk, flush))
    case WriteClose(env) => Tell(s, CloseChannel(s.l.ctl, env))
  }

  datatype Event = Event(left: bool, action: Action)

  function Happen(s: System, e: Event): System {
    if e.left then Next(s, e.action) else Flip(Next(Flip(s), e.action))
  }

  /** A run: any interleaving of any actions of the two sides. */
  function Run(s: System, events: seq<Event>): System
    decreases |events|
  {
    if events == [] then s else Run(Happen(s, events[0]), events[1..])
  }

  // The invariant of one direction

  /** Credit conservation. */
  ghost predicate Conserved(snd: Flow, rcv: Flow, fwd: seq<Packet>, back: seq<Packet>, h: History) {
    snd.remoteWindow + DataInFlight(fwd) + CreditInFlight(back) + h.creditLost == rcv.localWindow
  }

  /** Stream integrity: nothing is reordered, duplicated or invented, and only counted losses are missing. */
  ghost predicate Intact(rcv: Flow, fwd: seq<Packet>, h: History, s: Stream) {
    && |h.delivered.Get(s)| + |Unread(rcv, s)| + |BytesInFlight(fwd, s)| + h.lost.Get(s) == |h.sent.Get(s)|
    && (h.lost.Get(s) == 0 ==> h.delivered.Get(s) + Unread(rcv, s) + BytesInFlight(fwd, s) == h.sent.Get(s))
  }

  /** Without failures an exhausted window means that plenty is there to be read. */
  ghost predicate Readable(rcv: Flow, h: History) {
    !h.failed ==>
      && h.creditLost == 0 && h.lost == Two(0, 0)
      && rcv.bufs.out.Some? && rcv.bufs.err.Some?
      && (rcv.localWindow > 0 || |Unread(rcv, Stdout)| >= WINDOWLIMIT || |Unread(rcv, Stderr)| >= WINDOWLIMIT)
  }

  ghost predicate Direction(snd: Flow, rcv: Flow, fwd: seq<Packet>, back: seq<Packet>, h: History) {
    && Conserved(snd, rcv, fwd, back, h)
    && Intact(rcv, fwd, h, Stdout) && Intact(rcv, fwd, h, Stderr)
    && Readable(rcv, h)
    && |Unread(rcv, Stdout)| <= BUFFER_SIZE_MAX && |Unread(rcv, Stderr)| <= BUFFER_SIZE_MAX
  }

  ghost predicate Inv(s: System) {
    && Direction(s.l.flow, s.r.flow, s.lr, s.rl, s.hl)
    && Direction(s.r.flow, s.l.flow, s.rl, s.lr, s.hr)
  }

  /** Two end points that have just opened the channel: each knows the window the other announced. */
  ghost predicate Opened(s: System) {
    && s.lr == [] && s.rl == []
    && s.l.flow.remoteWindow == s.r.flow.localWindow > 0 && s.r.flow.remoteWindow == s.l.flow.localWindow > 0
    && s.l.flow.bufs == s.r.flow.bufs == Two(Some([]), Some([]))
    && s.hl == s.hr == History(Two([], []), Two([], []), Two(0, 0), 0, false)
  }

  /** The confirmation that tells the opener the acceptor's window leads to such a state. */
  lemma ConfirmationOpens(l: Chan, r: Chan)
    requires l.ctl.state == Opening && l.flow.localWindow > 0 && r.flow.localWindow > 0
    requires r.flow.remoteWindow == l.flow.localWindow && l.flow.bufs == r.flow.bufs == Two(Some([]), Some([]))
    ensures var none := History(Two([], []), Two([], []), Two(0, 0), 0, false);
      var l' := OpenConfirm(l, r.flow.localWindow, r.flow.remoteMaxPacket);
      Opened(System(l', r, [], [], none, none)) && l'.ctl.state == Open && !l'.ctl.notBound
      && l'.flow.remoteMaxPacket == r.flow.remoteMaxPacket
  {
  }

  lemma OpenedInv(s: System)
    requires Opened(s)
    ensures Inv(s)
  {
  }

  // How the streams of a direction change

  /** Sending a packet: data of its own stream counts as written, anything else changes nothing. */
  lemma IntactSend(rcv: Flow, fwd: seq<Packet>, h: History, h': History, p: Packet, s: Stream)
    requires Intact(rcv, fwd, h, s)
    requires h'.sent.Get(s) == h.sent.Get(s) + PayloadFor(p, s)
    requires h'.delivered == h.delivered && h'.lost == h.lost
    ensures Intact(rcv, fwd + [p], h', s)
  {
    AppendToStream(fwd, p, s);
    var d, u, b := h.delivered.Get(s), Unread(rcv, s), BytesInFlight(fwd, s);
    assert d + u + (b + PayloadFor(p, s)) == (d + u + b) + PayloadFor(p, s);
  }

  /** Moving bytes from the link to the buffer and from the buffer to the application. */
  lemma IntactMove(rcv: Flow, rcv': Flow, fwd: seq<Packet>, fwd': seq<Packet>, h: History, h': History, s: Stream,
                   arrived: seq<byte>, read: seq<byte>)
    requires Intact(rcv, fwd, h, s)
    requires BytesInFlight(fwd, s) == arrived + BytesInFlight(fwd', s)
    requires Unread(rcv, s) + arrived == read + Unread(rcv', s)
    requires h'.delivered.Get(s) == h.delivered.Get(s) + read
    requires h'.sent == h.sent && h'.lost.Get(s) == h.lost.Get(s)
    ensures Intact(rcv', fwd', h', s)
  {
    var d, b := h.delivered.Get(s), BytesInFlight(fwd', s);
    calc {
      h'.delivered.Get(s) + Unread(rcv', s) + b;
      d + (read + Unread(rcv', s)) + b;
      d + (Unread(rcv, s) + arrived) + b;
      d + Unread(rcv, s) + (arrived + b);
    }
    assert |Unread(rcv, s)| + |arrived| == |read| + |Unread(rcv', s)| by {
      assert |Unread(rcv, s) + arrived| == |read + Unread(rcv', s)|;
    }
  }

  // How a direction changes

  lemma SendKeeps(snd: Flow, snd': Flow, rcv: Flow, fwd: seq<Packet>, back: seq<Packet>,
                  h: History, h': History, p: Packet)
    requires Direction(snd, rcv, fwd, back, h)
    requires snd'.remoteWindow == snd.remoteWindow - Size(p)
    requires forall s :: h'.sent.Get(s) == h.sent.Get(s) + PayloadFor(p, s)
    requires h' == h.(sent := h'.sent)
    ensures Direction(snd', rcv, fwd + [p], back, h')
  {
    AppendToLink(fwd, p);
    IntactSend(rcv, fwd, h, h', p, Stdout);
    IntactSend(rcv, fwd, h, h', p, Stderr);
  }

  /** A packet that carries no data. */
  lemma SendOtherKeeps(snd: Flow, snd': Flow, rcv: Flow, fwd: seq<Packet>, back: seq<Packet>, h: History, p: Packet)
    requires Direction(snd, rcv, fwd, back, h) && !p.Data?
    requires snd'.remoteWindow == snd.remoteWindow
    ensures Direction(snd', rcv, fwd + [p], back, h)
  {
    forall s ensures h.sent.Get(s) == h.sent.Get(s) + PayloadFor(p, s) {
      assert h.sent.Get(s) + [] == h.sent.Get(s);
    }
    SendKeeps(snd, snd', rcv, fwd, back, h, h, p);
  }

  /** What is sent announces exactly `growth` more bytes of window. */
  ghost predicate Announces(sent: seq<Packet>, growth: int) {
    if growth == 0 then sent == [] else growth > 0 && |sent| == 1 && sent[0].Adjust? && sent[0].bytes == growth
  }

  lemma SendAdjustKeeps(snd: Flow, snd': Flow, rcv: Flow, fwd: seq<Packet>, back: seq<Packet>, h: History,
                        sent: seq<Packet>, growth: int)
    requires Direction(snd, rcv, fwd, back, h) && Announces(sent, growth)
    requires snd'.remoteWindow == snd.remoteWindow
    ensures Direction(snd', rcv, fwd + sent, back, h)
    ensures CreditInFlight(fwd + sent) == CreditInFlight(fwd) + growth
  {
    if sent == [] {
      assert fwd + sent == fwd;
    } else {
      assert sent == [sent[0]];
      SendOtherKeeps(snd, snd', rcv, fwd, back, h, sent[0]);
      AppendToLink(fwd, sent[0]);
    }
  }

  /** The receiver's buffers, window and adjusts after it took `arrived` data bytes off the link. */
  lemma ReceiverKeeps(snd: Flow, rcv: Flow, rcv': Flow, fwd: seq<Packet>, fwd': seq<Packet>,
                      back: seq<Packet>, back': seq<Packet>, h: History, h': History)
    requires Direction(snd, rcv, fwd, back, h)
    requires Intact(rcv', fwd', h', Stdout) && Intact(rcv', fwd', h', Stderr)
    requires DataInFlight(fwd) - DataInFlight(fwd') + rcv'.localWindow - rcv.localWindow
          == CreditInFlight(back') - CreditInFlight(back) + h'.creditLost - h.creditLost
    requires Readable(rcv', h')
    requires |Unread(rcv', Stdout)| <= BUFFER_SIZE_MAX && |Unread(rcv', Stderr)| <= BUFFER_SIZE_MAX
    ensures Direction(snd, rcv', fwd', back', h')
  {
  }

  // The actions of the left side

  lemma WriteKeeps(s: System, a: Action)
    requires Inv(s) && a.WriteChunk?
    ensures Inv(DoWrite(s, a))
  {
    var t := DoWrite(s, a);
    if t != s {
      var p := Data(a.stream, a.rest[..ChunkLength(s.l.flow, |a.rest|)]);
      forall st ensures t.hl.sent.Get(st) == s.hl.sent.Get(st) + PayloadFor(p, st) {
        assert s.hl.sent.Get(st) + [] == s.hl.sent.Get(st);
      }
      SendKeeps(s.l.flow, t.l.flow, s.r.flow, s.lr, s.rl, s.hl, t.hl, p);
      AppendToLink(s.lr, p);
      ReceiverUntouched(s.r.flow, s.l.flow, t.l.flow, s.rl, s.lr, t.lr, s.hr);
    }
  }

  /** The receiver's fields of a direction are the same, and so is the credit on its way back. */
  lemma ReceiverUntouched(snd: Flow, rcv: Flow, rcv': Flow, fwd: seq<Packet>,
                          back: seq<Packet>, back': seq<Packet>, h: History)
    requires Direction(snd, rcv, fwd, back, h)
    requires rcv'.localWindow == rcv.localWindow && rcv'.bufs == rcv.bufs
    requires CreditInFlight(back') == CreditInFlight(back)
    ensures Direction(snd, rcv', fwd, back', h)
  {
  }

  lemma StartReadKeeps(s: System, a: Action)
    requires Inv(s) && a.StartRead?
    ensures Inv(DoStartRead(s, a))
  {
    var t := DoStartRead(s, a);
    if t != s {
      var f, f' := s.l.flow, t.l.flow;
      var g := ReadBegin(f, a.from, a.count, a.adjustOk);
      SendAdjustKeeps(f, f', s.r.flow, s.lr, s.rl, s.hl, g.sent, f'.localWindow - f.localWindow);
      assert Intact(f', t.rl, t.hr, Stdout) && Intact(f', t.rl, t.hr, Stderr);
      ReceiverKeeps(s.r.flow, f, f', s.rl, t.rl, s.lr, t.lr, s.hr, t.hr);
    }
  }

  lemma FinishReadKeeps(s: System, a: Action)
    requires Inv(s) && a.FinishRead?
    ensures Inv(DoFinishRead(s, a))
  {
    var t := DoFinishRead(s, a);
    var f := s.l.flow;
    if a.count != 0 && f.bufs.Get(a.from).Some? {
      var e := ReadFinish(f, s.l.ctl, a.from, a.count, a.adjustOk);
      ReadFinishFacts(f, s.l.ctl, a.from, a.count, a.adjustOk);
      SendAdjustKeeps(f, e.flow, s.r.flow, s.lr, s.rl, s.hl, e.sent, e.flow.localWindow - f.localWindow);
      ReadReceived(s.r.flow, f, s.rl, s.lr, s.hr, t.hr, a.from, e);
    }
  }

  /** A completed read in the direction it reads. */
  lemma ReadReceived(snd: Flow, f: Flow, fwd: seq<Packet>, back: seq<Packet>, h: History, h': History,
                     st: Stream, e: ReadEnd)
    requires Direction(snd, f, fwd, back, h) && f.bufs.Get(st).Some?
    requires e.flow == f.(localWindow := e.flow.localWindow, bufs := Put(f.bufs, st, Some(Unread(e.flow, st))))
    requires e.delivered + Unread(e.flow, st) == Unread(f, st)
    requires e.flow.localWindow >= f.localWindow
    requires e.rc == Ok && e.delivered != [] ==> e.flow.localWindow >= WINDOWLIMIT
    requires CreditInFlight(back + e.sent) == CreditInFlight(back) + e.flow.localWindow - f.localWindow
    requires h' == h.(delivered := Put(h.delivered, st, h.delivered.Get(st) + e.delivered),
                          failed := h.failed || (e.rc != Ok && e.delivered != []))
    ensures Direction(snd, e.flow, fwd, back + e.sent, h')
  {
    IntactRead(f, e.flow, fwd, h, h', Stdout, if st == Stdout then e.delivered else []);
    IntactRead(f, e.flow, fwd, h, h', Stderr, if st == Stderr then e.delivered else []);
    assert |Unread(e.flow, st)| <= |Unread(f, st)| by {
      assert |e.delivered + Unread(e.flow, st)| == |Unread(f, st)|;
    }
    assert Readable(e.flow, h') by {
      if e.delivered == [] {
        assert Unread(e.flow, st) == Unread(f, st);
      }
    }
    ReceiverKeeps(snd, f, e.flow, fwd, fwd, back, back + e.sent, h, h');
  }

  /** A read of one stream; for the other stream, a read of nothing. */
  lemma IntactRead(rcv: Flow, rcv': Flow, fwd: seq<Packet>, h: History, h': History, s: Stream, read: seq<byte>)
    requires Intact(rcv, fwd, h, s)
    requires read + Unread(rcv', s) == Unread(rcv, s) || (read == [] && Unread(rcv', s) == Unread(rcv, s))
    requires h'.delivered.Get(s) == h.delivered.Get(s) + read
      || (read == [] && h'.delivered.Get(s) == h.delivered.Get(s))
    requires h'.sent == h.sent && h'.lost == h.lost
    ensures Intact(rcv', fwd, h', s)
  {
    assert h.delivered.Get(s) + [] == h.delivered.Get(s);
    assert [] + BytesInFlight(fwd, s) == BytesInFlight(fwd, s);
    assert Unread(rcv, s) + [] == Unread(rcv, s) == [] + Unread(rcv, s);
    IntactMove(rcv, rcv', fwd, fwd, h, h', s, [], read);
  }

  lemma ReadFinishFacts(f: Flow, ctl: Control, s: Stream, count: u32, sendOk: bool)
    requires f.bufs.Get(s).Some?
    ensures var e := ReadFinish(f, ctl, s, count, sendOk);
      && e.flow == f.(localWindow := e.flow.localWindow, bufs := Put(f.bufs, s, Some(Unread(e.flow, s))))
      && e.delivered + Unread(e.flow, s) == Unread(f, s)
      && Announces(e.sent, e.flow.localWindow - f.localWindow)
      && (e.rc == Ok && e.delivered != [] ==> e.flow.localWindow >= WINDOWLIMIT)
  {
    var buf := Unread(f, s);
    var n := Min(count, |buf|);
    assert buf[..n] + buf[n..] == buf;
    assert [] + buf == buf;
  }

  lemma RcvDataFacts(f: Flow, s: Stream, payload: seq<byte>, room: bool, rests: seq<int>, sendOk: bool)
    requires |payload| <= f.localWindow
    ensures var d := RcvData(f, s, payload, room, rests, sendOk);
      && (!d.stored ==> d.flow == f.(bufs := Put(f.bufs, s, None)) && d.sent == [])
      && (d.stored ==>
            && d.flow == f.(localWindow := d.flow.localWindow, bufs := Put(f.bufs, s, Some(Unread(d.flow, s))))
            && d.delivered + Unread(d.flow, s) == Unread(f, s) + payload
            && |Unread(d.flow, s)| <= BUFFER_SIZE_MAX
            && Announces(d.sent, d.flow.localWindow - f.localWindow + |payload|)
            && (d.rc == Ok ==> d.flow.localWindow > 0 || |Unread(d.flow, s)| >= WINDOWLIMIT))
  {
    var all := Unread(f, s) + payload;
    var n := Consumed(|all|, rests);
    assert all[..n] + all[n..] == all;
  }

  lemma DataKeeps(s: System, a: Action)
    requires Inv(s) && a.Deliver? && s.rl != [] && s.rl[0].Data?
    ensures Inv(DoDeliver(s, a))
  {
    var t := DoDeliver(s, a);
    var f, f' := s.l.flow, t.l.flow;
    var d := RcvData(f, s.rl[0].stream, s.rl[0].payload, a.room, a.rests, a.adjustOk);
    RcvDataFacts(f, s.rl[0].stream, s.rl[0].payload, a.room, a.rests, a.adjustOk);
    SendAdjustKeeps(f, f', s.r.flow, s.lr, s.rl, s.hl, d.sent,
                    if d.stored then f'.localWindow - f.localWindow + |s.rl[0].payload| else 0);
    assert t.r == s.r && t.hl == s.hl;
    if d.stored {
      DataStored(s.r.flow, f, s.rl, s.lr, s.hr, d);
    } else {
      DataLost(s.r.flow, f, s.rl, s.lr, s.hr, d);
    }
  }

  /** A data packet that was buffered, in the direction that carries it. */
  lemma DataStored(snd: Flow, f: Flow, fwd: seq<Packet>, back: seq<Packet>, h: History, d: Received)
    requires Direction(snd, f, fwd, back, h) && fwd != [] && fwd[0].Data? && d.stored
    requires d.flow == f.(localWindow := d.flow.localWindow,
                          bufs := Put(f.bufs, fwd[0].stream, Some(Unread(d.flow, fwd[0].stream))))
    requires d.delivered + Unread(d.flow, fwd[0].stream) == Unread(f, fwd[0].stream) + fwd[0].payload
    requires |Unread(d.flow, fwd[0].stream)| <= BUFFER_SIZE_MAX
    requires d.rc == Ok ==> d.flow.localWindow > 0 || |Unread(d.flow, fwd[0].stream)| >= WINDOWLIMIT
    requires CreditInFlight(back + d.sent)
      == CreditInFlight(back) + d.flow.localWindow - f.localWindow + |fwd[0].payload|
    ensures Direction(snd, d.flow, fwd[1..], back + d.sent, Arrived(h, f, fwd[0].stream, fwd[0].payload, d))
  {
    IntactArrive(f, d.flow, fwd, h, d, Stdout);
    IntactArrive(f, d.flow, fwd, h, d, Stderr);
    var h' := Arrived(h, f, fwd[0].stream, fwd[0].payload, d);
    ReceiverKeeps(snd, f, d.flow, fwd, fwd[1..], back, back + d.sent, h, h');
  }

  /** A data packet that could not be buffered: it and the buffer are lost, and its credit never comes back. */
  lemma DataLost(snd: Flow, f: Flow, fwd: seq<Packet>, back: seq<Packet>, h: History, d: Received)
    requires Direction(snd, f, fwd, back, h) && fwd != [] && fwd[0].Data? && !d.stored
    requires d.flow == f.(bufs := Put(f.bufs, fwd[0].stream, None)) && d.sent == []
    ensures Direction(snd, d.flow, fwd[1..], back + d.sent, Arrived(h, f, fwd[0].stream, fwd[0].payload, d))
  {
    assert back + d.sent == back;
    IntactArrive(f, d.flow, fwd, h, d, Stdout);
    IntactArrive(f, d.flow, fwd, h, d, Stderr);
    ReceiverKeeps(snd, f, d.flow, fwd, fwd[1..], back, back, h, Arrived(h, f, fwd[0].stream, fwd[0].payload, d));
  }

  lemma IntactArrive(f: Flow, f': Flow, fwd: seq<Packet>, h: History, d: Received, s: Stream)
    requires fwd != [] && fwd[0].Data? && Intact(f, fwd, h, s)
    requires d.stored ==> d.delivered + Unread(f', fwd[0].stream) == Unread(f, fwd[0].stream) + fwd[0].payload
    requires !d.stored ==> Unread(f', fwd[0].stream) == []
    requires s != fwd[0].stream ==> Unread(f', s) == Unread(f, s)
    ensures Intact(f', fwd[1..], Arrived(h, f, fwd[0].stream, fwd[0].payload, d), s)
  {
    var stream, payload := fwd[0].stream, fwd[0].payload;
    var h' := Arrived(h, f, stream, payload, d);
    assert BytesInFlight(fwd, s) == PayloadFor(fwd[0], s) + BytesInFlight(fwd[1..], s);
    if s != stream {
      assert h.delivered.Get(s) + [] == h.delivered.Get(s);
      assert Unread(f, s) + [] == Unread(f, s) == [] + Unread(f, s);
      IntactMove(f, f', fwd, fwd[1..], h, h', s, [], []);
    } else if d.stored {
      IntactMove(f, f', fwd, fwd[1..], h, h', s, payload, d.delivered);
    } else if h'.lost.Get(s) == 0 {
      assert payload == [] && Unread(f, s) == [];
      assert [] + BytesInFlight(fwd[1..], s) == BytesInFlight(fwd[1..], s);
    }
  }

  lemma DeliverKeeps(s: System, a: Action)
    requires Inv(s) && a.Deliver?
    ensures Inv(DoDeliver(s, a))
  {
    if s.rl != [] {
      if s.rl[0].Data? {
        DataKeeps(s, a);
      } else {
        OtherDelivered(s, a);
      }
    }
  }

  lemma OtherDelivered(s: System, a: Action)
    requires Inv(s) && a.Deliver? && s.rl != [] && !s.rl[0].Data?
    ensures Inv(DoDeliver(s, a))
  {
    var t := DoDeliver(s, a);
    ControlReceived(s.r.flow, s.l.flow, t.l.flow, s.rl, s.lr, s.hr);
    if s.rl[0].Adjust? {
      AdjustReceived(s.l.flow, s.r.flow, s.lr, s.rl, s.hl);
    } else {
      assert t.l.flow == s.l.flow;
    }
  }

  /** Window given back to the writer of a direction. */
  lemma AdjustReceived(f: Flow, rcv: Flow, fwd: seq<Packet>, back: seq<Packet>, h: History)
    requires Direction(f, rcv, fwd, back, h) && back != [] && back[0].Adjust?
    ensures Direction(RcvChangeWindow(f, back[0].bytes), rcv, fwd, back[1..], h)
  {
    assert f.remoteWindow + back[0].bytes < MOD32;
  }

  /** A packet without data leaves the direction that carries it as it is. */
  lemma ControlReceived(snd: Flow, f: Flow, f': Flow, fwd: seq<Packet>, back: seq<Packet>, h: History)
    requires Direction(snd, f, fwd, back, h) && fwd != [] && !fwd[0].Data?
    requires f'.localWindow == f.localWindow && f'.bufs == f.bufs
    ensures Direction(snd, f', fwd[1..], back, h)
  {
    IntactSkip(f, f', fwd, h, Stdout);
    IntactSkip(f, f', fwd, h, Stderr);
    ReceiverKeeps(snd, f, f', fwd, fwd[1..], back, back, h, h);
  }

  lemma NoPayload(fwd: seq<Packet>, s: Stream)
    requires fwd != [] && !fwd[0].Data?
    ensures BytesInFlight(fwd, s) == BytesInFlight(fwd[1..], s)
  {
    var rest := BytesInFlight(fwd[1..], s);
    assert BytesInFlight(fwd, s) == [] + rest == rest;
  }

  lemma IntactSkip(f: Flow, f': Flow, fwd: seq<Packet>, h: History, s: Stream)
    requires fwd != [] && !fwd[0].Data? && Intact(f, fwd, h, s) && f'.bufs == f.bufs
    ensures Intact(f', fwd[1..], h, s)
  {
    NoPayload(fwd, s);
  }

  /** Sending an end-of-file or closing packet. */
  lemma ControlKeeps(s: System, ctl: Control, p: Packet)
    requires Inv(s) && (p.Eof? || p.Close?)
    ensures Inv(s.(l := s.l.(ctl := ctl), lr := s.lr + [p]))
  {
    SendOtherKeeps(s.l.flow, s.l.flow, s.r.flow, s.lr, s.rl, s.hl, p);
    AppendToLink(s.lr, p);
    ReceiverUntouched(s.r.flow, s.l.flow, s.l.flow, s.rl, s.lr, s.lr + [p], s.hr);
  }

  lemma TellKeeps(s: System, t: Told)
    requires Inv(s)
    requires t.sent == [] || t.sent == [Eof] || t.sent == [Close] || t.sent == [Eof, Close]
    ensures Inv(Tell(s, t))
  {
    if t.sent == [] {
      assert s.lr + [] == s.lr;
    } else if |t.sent| == 1 {
      ControlKeeps(s, t.ctl, t.sent[0]);
    } else {
      ControlKeeps(s, t.ctl, Eof);
      ControlKeeps(s.(lr := s.lr + [Eof]), t.ctl, Close);
      assert s.lr + t.sent == s.lr + [Eof] + [Close];
    }
  }

  lemma NextKeeps(s: System, a: Action)
    requires Inv(s)
    ensures Inv(Next(s, a))
  {
    match a
    case WriteChunk(_, _, _) => WriteKeeps(s, a);
    case Deliver(_, _, _) => DeliverKeeps(s, a);
    case StartRead(_, _, _) => StartReadKeeps(s, a);
    case FinishRead(_, _, _) => FinishReadKeeps(s, a);
    case WriteEof(sendOk, flush) => TellKeeps(s, SendEof(s.l.ctl, sendOk, flush));
    case WriteClose(env) => TellKeeps(s, CloseChannel(s.l.ctl, env));
  }

  // The theorems

  lemma {:induction false} RunKeepsInv(s: System, events: seq<Event>)
    requires Inv(s)
    ensures Inv(Run(s, events))
    decreases |events|
  {
    if events != [] {
      var e := events[0];
      if e.left {
        NextKeeps(s, e.action);
      } else {
        assert Inv(Flip(s));
        NextKeeps(Flip(s), e.action);
      }
      RunKeepsInv(Happen(s, e), events[1..]);
    }
  }

  /** In every reachable state the window the receiver believes in is exactly what the sender may still use. */
  lemma CreditConservation(s0: System, events: seq<Event>)
    requires Opened(s0)
    ensures var s := Run(s0, events);
      && s.l.flow.remoteWindow + DataInFlight(s.lr) + CreditInFlight(s.rl) + s.hl.creditLost == s.r.flow.localWindow
      && s.r.flow.remoteWindow + DataInFlight(s.rl) + CreditInFlight(s.lr) + s.hr.creditLost == s.l.flow.localWindow
  {
    OpenedInv(s0);
    RunKeepsInv(s0, events);
  }

  /** The next packet a receiver takes is one it has window for, or credit that fits 32 bits. */
  ghost predicate Fits(link: seq<Packet>, receiver: Flow) {
    link != [] ==>
      Size(link[0]) <= receiver.localWindow && (link[0].Adjust? ==> receiver.remoteWindow + link[0].bytes < MOD32)
  }

  /** No packet in flight exceeds the receiver's window, and no adjust in flight wraps the sender's. */
  lemma ConformingPeers(s0: System, events: seq<Event>)
    requires Opened(s0)
    ensures var s := Run(s0, events); Fits(s.lr, s.r.flow) && Fits(s.rl, s.l.flow)
  {
    OpenedInv(s0);
    RunKeepsInv(s0, events);
  }

  /** What the application got, what waits in the buffer and what is on its way is what was written, in order. */
  lemma StreamIntegrity(s0: System, events: seq<Event>, st: Stream)
    requires Opened(s0)
    ensures var s := Run(s0, events);
      (s.hl.delivered.Get(st) + Unread(s.r.flow, st) + BytesInFlight(s.lr, st) == s.hl.sent.Get(st))
      <==> s.hl.lost.Get(st) == 0
  {
    OpenedInv(s0);
    RunKeepsInv(s0, events);
    var s := Run(s0, events);
    assert Intact(s.r.flow, s.lr, s.hl, st);
    var whole := s.hl.delivered.Get(st) + Unread(s.r.flow, st) + BytesInFlight(s.lr, st);
    assert |whole| == |s.hl.delivered.Get(st)| + |Unread(s.r.flow, st)| + |BytesInFlight(s.lr, st)|;
  }

  /** A writer that may not send, with nothing in flight either way. */
  predicate Stalled(s: System) {
    s.l.flow.remoteWindow == 0 && s.lr == [] && s.rl == []
  }

  /** A stalled writer means a reader with at least `WINDOWLIMIT` bytes to read: there is no deadlock. */
  lemma StalledMeansReadable(s0: System, events: seq<Event>)
    requires Opened(s0)
    ensures var s := Run(s0, events);
      Stalled(s) && !s.hl.failed ==>
        s.r.flow.localWindow == 0 && exists st :: s.r.flow.bufs.Get(st).Some? && |Unread(s.r.flow, st)| >= WINDOWLIMIT
  {
    OpenedInv(s0);
    RunKeepsInv(s0, events);
    var s := Run(s0, events);
    if Stalled(s) && !s.hl.failed {
      var st := if |Unread(s.r.flow, Stdout)| >= WINDOWLIMIT then Stdout else Stderr;
      assert s.r.flow.bufs.Get(st).Some? && |Unread(s.r.flow, st)| >= WINDOWLIMIT;
    }
  }

  /** Any read that returns data leaves the reader's window at `WINDOWLIMIT` or more. */
  lemma ReadRefillsWindow(c: Chan, s: Stream, count: u32)
    requires c.flow.bufs.Get(s).Some?
    ensures var e := ReadFinish(c.flow, c.ctl, s, count, true);
      e.delivered != [] ==> e.rc == Ok && e.flow.localWindow >= WINDOWLIMIT
  {
  }

  /** A read call of the right side with the delivery of what it sends: before its wait, after it, and the link. */
  function ReadCall(st: Stream, count: u32): seq<Event> {
    [Event(false, StartRead(st, count, true)), Event(false, FinishRead(st, count, true)),
     Event(true, Deliver(true, [], true))]
  }

  /**
   * The next read call of the reader, of either stream and whatever its length, lets the stalled writer go on: it grows
   * the window before it waits if it wants more than there is, and after it took data otherwise.
   */
  lemma ReadRevivesWriter(s0: System, events: seq<Event>, st: Stream, count: u32)
    requires Opened(s0) && count > 0
    ensures var s := Run(s0, events);
      Stalled(s) && !s.hl.failed && s.r.ctl.state != Closed ==>
        Run(s, ReadCall(st, count)).l.flow.remoteWindow >= WINDOWBASE
  {
    OpenedInv(s0);
    RunKeepsInv(s0, events);
    var s := Run(s0, events);
    if Stalled(s) && !s.hl.failed && s.r.ctl.state != Closed {
      StalledReader(s, st);
      ReadCallRevives(s, st, count);
    }
  }

  lemma StalledReader(s: System, st: Stream)
    requires Inv(s) && Stalled(s) && !s.hl.failed
    ensures s.r.flow.localWindow == 0 && s.r.flow.bufs.Get(st).Some? && |Unread(s.r.flow, st)| <= BUFFER_SIZE_MAX
  {
  }

  lemma ReadCallRevives(s: System, st: Stream, count: u32)
    requires Stalled(s) && s.r.flow.localWindow == 0 && s.r.ctl.state != Closed && count > 0
    requires s.r.flow.bufs.Get(st).Some? && |Unread(s.r.flow, st)| <= BUFFER_SIZE_MAX
    ensures Run(s, ReadCall(st, count)).l.flow.remoteWindow >= WINDOWBASE
  {
    ReadCallSteps(s, st, count);
    if count > |Unread(s.r.flow, st)| {
      EarlyGrowth(s, st, count);
    } else {
      NoEarlyGrowth(s, st, count);
      ReadAnswers(s, st, count);
    }
  }

  lemma NoEarlyGrowth(s: System, st: Stream, count: u32)
    requires s.r.flow.localWindow == 0 && |Unread(s.r.flow, st)| <= BUFFER_SIZE_MAX && count <= |Unread(s.r.flow, st)|
    ensures Happen(s, Event(false, StartRead(st, count, true))) == s
  {
    assert s.rl + [] == s.rl;
  }

  lemma ReadCallSteps(s: System, st: Stream, count: u32)
    ensures var e := ReadCall(st, count);
      Run(s, e) == Happen(Happen(Happen(s, e[0]), e[1]), e[2])
  {
    var e := ReadCall(st, count);
    assert e[1..] == [e[1], e[2]] && [e[1], e[2]][1..] == [e[2]] && [e[2]][1..] == [];
    var t := Happen(s, e[0]);
    assert Run(t, [e[1], e[2]]) == Run(Happen(t, e[1]), [e[2]]);
  }

  /** A read that wants more than there is asks for it before it waits; the part after the wait sends nothing. */
  lemma EarlyGrowth(s: System, st: Stream, count: u32)
    requires Stalled(s) && s.r.flow.localWindow == 0 && s.r.ctl.state != Closed
    requires s.r.flow.bufs.Get(st).Some? && |Unread(s.r.flow, st)| <= BUFFER_SIZE_MAX && count > |Unread(s.r.flow, st)|
    ensures var e := ReadCall(st, count);
      Happen(Happen(Happen(s, e[0]), e[1]), e[2]).l.flow.remoteWindow >= WINDOWBASE
  {
    var e := ReadCall(st, count);
    var minimum := count - |Unread(s.r.flow, st)|;
    var target := if minimum > WINDOWBASE then minimum else WINDOWBASE;
    var g := ReadBegin(s.r.flow, st, count, true);
    assert g.sent == [Adjust(target)] && g.flow == s.r.flow.(localWindow := target);
    var t := Happen(s, e[0]);
    assert t == s.(r := s.r.(flow := g.flow), rl := s.rl + g.sent);
    assert t.rl == [Adjust(target)];
    LateRead(t, st, count);
    var u := Happen(t, e[1]);
    assert u.l == s.l && u.rl == [Adjust(target)];
  }

  lemma LateRead(s: System, st: Stream, count: u32)
    requires s.r.flow.localWindow >= WINDOWLIMIT && s.r.flow.bufs.Get(st).Some?
    ensures var t := Happen(s, Event(false, FinishRead(st, count, true)));
      t.l == s.l && t.rl == s.rl
  {
    var e := ReadFinish(s.r.flow, s.r.ctl, st, count, true);
    assert e.sent == [];
    assert s.rl + [] == s.rl;
  }

  lemma ReadAnswers(s: System, st: Stream, count: u32)
    requires Stalled(s) && count > 0 && s.r.flow.localWindow == 0
    requires Unread(s.r.flow, st) != [] && s.r.ctl.state != Closed
    ensures Happen(Happen(s, Event(false, FinishRead(st, count, true))), Event(true, Deliver(true, [], true)))
              .l.flow.remoteWindow == WINDOWBASE
  {
    var a := FinishRead(st, count, true);
    var e := ReadFinish(s.r.flow, s.r.ctl, st, count, true);
    assert e.sent == [Adjust(WINDOWBASE)];
    var u := Happen(s, Event(false, a));
    assert u.l == s.l;
    assert u.rl == s.rl + e.sent == [Adjust(WINDOWBASE)];
  }
}
