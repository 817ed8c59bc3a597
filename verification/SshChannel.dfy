/** The channel record and the calls and packet handlers that update it in place. */
module SshChannels {
  import opened Bytes
  import opened Channels
  import opened FlowControl

  const INT_MAX := 0x7fff_ffff

  /** How one wait for a window-adjust packet of the write loop ends. */
  datatype Wait = Adjusted(amounts: seq<u32>) | PeerClosed | Broken

  /** How the wait for new keys at the start of a write ends: there is none, it is over, or it is not. */
  datatype Rekey = NoRekey | Rekeyed(amounts: seq<u32>, peerClosed: bool) | StillRekeying

  function Sum(amounts: seq<u32>): nat {
    if amounts == [] then 0 else amounts[0] + Sum(amounts[1..])
  }

  /**
   * The window that the waits of a write bring, one after the other: until one brings none or the channel is closed,
   * which a close of the peer does unless bytes are unread.
   */
  function Granted(closed: bool, unread: bool, waits: seq<Wait>): nat
    decreases |waits|
  {
    if closed || waits == [] then 0
    else
      match waits[0]
      case Broken => 0
      case PeerClosed => Granted(!unread, unread, waits[1..])
      case Adjusted(amounts) =>
        var window := Sum(amounts) % MOD32;
        if window == 0 then 0 else window + Granted(closed, unread, waits[1..])
  }

  /** Every wait brings some window, and no more than 32 bits hold. */
  predicate Generous(waits: seq<Wait>) {
    forall i :: 0 <= i < |waits| ==> waits[i].Adjusted? && 0 < Sum(waits[i].amounts) < MOD32
  }

  /** All that such waits bring. */
  function Total(waits: seq<Wait>): nat
    requires Generous(waits)
  {
    if waits == [] then 0 else Sum(waits[0].amounts) + Total(waits[1..])
  }

  lemma {:induction false} GenerousGrants(unread: bool, waits: seq<Wait>)
    requires Generous(waits)
    ensures Granted(false, unread, waits) == Total(waits)
  {
    if waits != [] {
      GenerousGrants(unread, waits[1..]);
    }
  }

  /** The window after the wait for new keys. */
  function AfterKeys(window: u32, rekey: Rekey): u32 {
    if rekey.Rekeyed? then (window + Sum(rekey.amounts)) % MOD32 else window
  }

  lemma ModIs(x: nat, q: nat, r: u32)
    requires r + MOD32 * q == x
    ensures x % MOD32 == r
  {
  }

  /** Data packets of one stream within the limit, and not empty unless the limit is zero. */
  ghost predicate Chunks(packets: seq<Packet>, s: Stream, limit: nat) {
    forall i :: 0 <= i < |packets| ==>
      packets[i].Data? && packets[i].stream == s && |packets[i].payload| <= limit
      && (limit > 0 ==> packets[i].payload != [])
  }

  /** The packets carry the first `written` bytes of the data. */
  ghost predicate Written(packets: seq<Packet>, s: Stream, limit: nat, data: seq<byte>, written: nat) {
    Chunks(packets, s, limit) && written <= |data| && BytesInFlight(packets, s) == data[..written]
  }

  lemma CutFront(data: seq<byte>, written: nat, n: nat)
    requires written + n <= |data|
    ensures data[..written] + data[written..][..n] == data[..written + n]
  {
  }

  lemma ChunksAppend(packets: seq<Packet>, s: Stream, limit: nat, payload: seq<byte>)
    requires Chunks(packets, s, limit) && |payload| <= limit && (limit > 0 ==> payload != [])
    ensures Chunks(packets + [Data(s, payload)], s, limit)
  {
  }

  lemma ChunkSent(packets: seq<Packet>, s: Stream, limit: nat, data: seq<byte>, written: nat, n: nat)
    requires Written(packets, s, limit, data, written) && written + n <= |data| && n <= limit && (limit > 0 ==> n > 0)
    ensures Written(packets + [Data(s, data[written..][..n])], s, limit, data, written + n)
  {
    var payload := data[written..][..n];
    ChunksAppend(packets, s, limit, payload);
    AppendToStream(packets, Data(s, payload), s);
    CutFront(data, written, n);
  }

  /** How a write ends: what is not sent, whether the packet layer failed, the window, and what it would take. */
  datatype Ended = Ended(unsent: nat, failed: bool, window: nat, left: nat)

  /**
   * The loop of a write with `unsent` bytes to go: it waits when the window is used up and sends a packet otherwise;
   * the packet layer takes `left` more.
   */
  function Loop(window: nat, limit: nat, closed: bool, unread: bool, unsent: nat, waits: seq<Wait>, left: nat): Ended
    decreases |waits|, left
  {
    if unsent == 0 then Ended(0, false, window, left)
    else if window == 0 then
      if closed || waits == [] || waits[0].Broken? then Ended(unsent, false, 0, left)
      else if waits[0].PeerClosed? then Loop(0, limit, !unread, unread, unsent, waits[1..], left)
      else
        var more := Sum(waits[0].amounts) % MOD32;
        if more == 0 then Ended(unsent, false, 0, left)
        else Loop(more, limit, closed, unread, unsent, waits[1..], left)
    else if left == 0 then Ended(unsent, true, window, 0)
    else
      var n := Min(Min(unsent, window), limit);
      Loop(window - n, limit, closed, unread, unsent - n, waits, left - 1)
  }

  lemma LoopPacket(window: nat, limit: nat, closed: bool, unread: bool, unsent: nat, waits: seq<Wait>, left: nat,
                   n: nat)
    requires unsent > 0 && window > 0 && left > 0 && n == Min(Min(unsent, window), limit)
    ensures Loop(window, limit, closed, unread, unsent, waits, left)
      == Loop(window - n, limit, closed, unread, unsent - n, waits, left - 1)
  {
  }

  lemma LoopWait(limit: nat, before: bool, unread: bool, unsent: nat, waits: seq<Wait>, left: nat,
                 window: nat, closed: bool, go: bool)
    requires unsent > 0 && waits != []
    requires window == if !before && waits[0].Adjusted? then Sum(waits[0].amounts) % MOD32 else 0
    requires closed == (before || (waits[0].PeerClosed? && !unread))
    requires go <==> !before && !waits[0].Broken? && (waits[0].PeerClosed? || window > 0)
    ensures Loop(0, limit, before, unread, unsent, waits, left)
      == if go then Loop(window, limit, closed, unread, unsent, waits[1..], left) else Ended(unsent, false, 0, left)
  {
  }

  /** The loop sends all that the window it finds and the windows it waits for allow, unless the packet layer fails. */
  lemma {:induction false} LoopSends(window: nat, limit: nat, closed: bool, unread: bool, unsent: nat, waits: seq<Wait>,
                                     left: nat)
    ensures var e := Loop(window, limit, closed, unread, unsent, waits, left);
      && e.unsent <= unsent && e.left <= left && (limit > 0 ==> left - e.left <= unsent - e.unsent)
      && (!e.failed ==> unsent - e.unsent == Min(unsent, window + Granted(closed, unread, waits)))
      && (e.failed ==> e.left == 0 && e.unsent > 0)
      && (limit == 0 && unsent > 0 && window > 0 ==> e.failed && e.unsent == unsent)
    decreases |waits|, left
  {
    if unsent > 0 && window == 0 && !closed && waits != [] && !waits[0].Broken? {
      if waits[0].PeerClosed? {
        LoopSends(0, limit, !unread, unread, unsent, waits[1..], left);
      } else if Sum(waits[0].amounts) % MOD32 > 0 {
        LoopSends(Sum(waits[0].amounts) % MOD32, limit, closed, unread, unsent, waits[1..], left);
      }
    } else if unsent > 0 && window > 0 && left > 0 {
      var n := Min(Min(unsent, window), limit);
      LoopSends(window - n, limit, closed, unread, unsent - n, waits, left - 1);
    }
  }

  /** The window at the end and what was sent are what there was and what the first `heard` waits brought. */
  lemma {:induction false} LoopLedger(window: nat, limit: nat, closed: bool, unread: bool, unsent: nat,
                                      waits: seq<Wait>, left: nat)
    returns (heard: nat)
    ensures heard <= |waits|
    ensures var e := Loop(window, limit, closed, unread, unsent, waits, left);
      e.unsent <= unsent && e.window + (unsent - e.unsent) == window + Granted(closed, unread, waits[..heard])
    decreases |waits|, left
  {
    heard := 0;
    if unsent > 0 && window == 0 && !closed && waits != [] && !waits[0].Broken? {
      if waits[0].PeerClosed? {
        heard := LoopLedger(0, limit, !unread, unread, unsent, waits[1..], left);
        heard := heard + 1;
        assert waits[..heard][1..] == waits[1..][..heard - 1];
      } else if Sum(waits[0].amounts) % MOD32 > 0 {
        heard := LoopLedger(Sum(waits[0].amounts) % MOD32, limit, closed, unread, unsent, waits[1..], left);
        heard := heard + 1;
        assert waits[..heard][1..] == waits[1..][..heard - 1];
      }
    } else if unsent > 0 && window > 0 && left > 0 {
      var n := Min(Min(unsent, window), limit);
      heard := LoopLedger(window - n, limit, closed, unread, unsent - n, waits, left - 1);
    }
  }

  /** What a write sent is what the window allows of the data, and the result says so, unless the packet layer fails. */
  predicate Allowed(len: nat, written: nat, packets: nat, window: nat, maxPacket: u32, budget: nat, flush: Rc,
                    result: int)
  {
    && (result == -1 ==> packets == budget || (flush == Error && written == len))
    && (result != -1 ==> written == Min(len, window) && (flush == Error ==> written < len))
    && (maxPacket != 10 && len <= budget ==>
          written == Min(len, window) && (result == -1 ==> flush == Error && written == len))
  }

  lemma Outcome(window: nat, maxPacket: u32, closed: bool, unread: bool, len: nat, waits: seq<Wait>, budget: nat,
                flush: Rc, result: int)
    returns (heard: nat)
    requires var e := Loop(window, (maxPacket - 10) % MOD32, closed, unread, len, waits, budget);
      result == if e.failed || (e.unsent == 0 && flush == Error) then -1 else len - e.unsent
    ensures heard <= |waits|
    ensures var e := Loop(window, (maxPacket - 10) % MOD32, closed, unread, len, waits, budget);
      && e.unsent <= len && e.left <= budget
      && e.window + (len - e.unsent) == window + Granted(closed, unread, waits[..heard])
      && Allowed(len, len - e.unsent, budget - e.left, window + Granted(closed, unread, waits), maxPacket, budget,
                 flush, result)
      && (len > 0 && window > 0 && maxPacket == 10 ==> result == -1 && e.left == 0)
  {
    var limit := (maxPacket - 10) % MOD32;
    LoopSends(window, limit, closed, unread, len, waits, budget);
    heard := LoopLedger(window, limit, closed, unread, len, waits, budget);
  }

  /** With `rest` bytes unread a window that runs low is refilled, and the peer is told by how much. */
  predicate Refilled(charged: u32, now: u32, rest: nat, sendOk: bool, more: seq<Packet>, rc: Rc) {
    var low := (charged + rest) % MOD32 < WINDOWLIMIT && charged < WINDOWBASE;
    if low && sendOk then now == WINDOWBASE && more == [Adjust(WINDOWBASE - charged)] && rc == Ok
    else now == charged && more == [] && rc == if low then Error else Ok
  }

  function Charge(before: u32, len: nat): u32 {
    if len <= before then before - len else 0
  }

  lemma DataHandled(f: Flow, g: Flow, s: Stream, payload: seq<byte>, rests: seq<int>, sendOk: bool,
                    delivered: seq<byte>, more: seq<Packet>, rc: Rc)
    requires |Unread(f, s) + payload| <= BUFFER_SIZE_MAX && g.bufs.Get(s).Some?
    requires delivered + Unread(g, s) == Unread(f, s) + payload
    requires |delivered| == Consumed(|Unread(f, s) + payload|, rests)
    requires g == f.(localWindow := g.localWindow, bufs := Put(f.bufs, s, Some(Unread(g, s))))
    requires Refilled(Charge(f.localWindow, |payload|), g.localWindow, |Unread(g, s)|, sendOk, more, rc)
    ensures Channels.RcvData(f, s, payload, true, rests, sendOk) == Received(g, more, delivered, true, rc)
  {
    CutAt(Unread(f, s) + payload, delivered, Unread(g, s));
  }

  lemma CutAt(all: seq<byte>, a: seq<byte>, b: seq<byte>)
    requires a + b == all
    ensures all[..|a|] == a && all[|a|..] == b
  {
  }

  /** Callbacks take their bytes one after the other. */
  lemma {:induction false} ConsumedThen(available: nat, a: seq<int>, b: seq<int>)
    ensures Consumed(available, a + b) == Consumed(available, a) + Consumed(available - Consumed(available, a), b)
    ensures forall n: int :: Consumed(available, [n]) == if 0 < n <= available then n else 0
    decreases |a|
  {
    if a == [] {
      assert a + b == b;
    } else {
      assert (a + b)[1..] == a[1..] + b;
      ConsumedThen(if 0 < a[0] <= available then available - a[0] else available, a[1..], b);
    }
  }

  class SshChannel {
    var localWindow: u32
    var remoteWindow: u32
    var remoteMaxPacket: u32
    var stdoutBuffer: Option<seq<byte>>
    var stderrBuffer: Option<seq<byte>>
    var state: State
    var localEof: bool
    var remoteEof: bool
    var delayedClose: bool
    var closedRemote: bool
    var closedLocal: bool
    var freedLocal: bool
    var notBound: bool
    /** The packets handed to the packet layer. */
    var sent: seq<Packet>

    /** A new channel: not open, not bound to a remote one, and with empty stream buffers. */
    constructor ()
      ensures View() == Flow(0, 0, 0, Two(Some([]), Some([])))
      ensures Life() == Control(NotOpen, false, false, false, false, false, false, true)
      ensures sent == []
    {
      localWindow, remoteWindow, remoteMaxPacket := 0, 0, 0;
      stdoutBuffer, stderrBuffer := Some([]), Some([]);
      state, localEof, remoteEof, delayedClose := NotOpen, false, false, false;
      closedRemote, closedLocal, freedLocal, notBound := false, false, false, true;
      sent := [];
    }

    ghost function View(): Flow
      reads this
    {
      Flow(localWindow, remoteWindow, remoteMaxPacket, Two(stdoutBuffer, stderrBuffer))
    }

    ghost function Life(): Control
      reads this`state, this`localEof, this`remoteEof, this`delayedClose
      reads this`closedRemote, this`closedLocal, this`freedLocal, this`notBound
    {
      Control(state, localEof, remoteEof, delayedClose, closedRemote, closedLocal, freedLocal, notBound)
    }

    /** A stream buffer still holds bytes. */
    predicate HasUnread()
      reads this`stdoutBuffer, this`stderrBuffer
      ensures HasUnread() == (Unread(View(), Stdout) != [] || Unread(View(), Stderr) != [])
    {
      (stdoutBuffer.Some? && |stdoutBuffer.value| > 0) || (stderrBuffer.Some? && |stderrBuffer.value| > 0)
    }

    /** The buffer of a stream. */
    function Buffer(s: Stream): Option<seq<byte>>
      reads this`stdoutBuffer, this`stderrBuffer
    {
      if s == Stdout then stdoutBuffer else stderrBuffer
    }

    /** The window has grown from `before` to what is needed, and the peer was told by how much. */
    twostate predicate Grew(before: nat, minimum: nat)
      reads this`localWindow, this`sent
    {
      && localWindow >= before && localWindow >= minimum && localWindow >= WINDOWBASE
      && localWindow in {before, minimum, WINDOWBASE}
      && sent == old(sent) + if localWindow == before then [] else [Adjust(localWindow - before)]
    }

    method SetBuffer(s: Stream, buffer: Option<seq<byte>>)
      modifies this`stdoutBuffer, this`stderrBuffer
      ensures View() == old(View()).(bufs := Put(old(View()).bufs, s, buffer))
      ensures Buffer(s) == buffer && forall other :: other != s ==> Buffer(other) == old(Buffer(other))
    {
      if s == Stdout {
        stdoutBuffer := buffer;
      } else {
        stderrBuffer := buffer;
      }
    }

    method GrowWindow(minimum: u32, sendOk: bool) returns (rc: Rc)
      modifies this`localWindow, this`sent
      ensures var g := Channels.GrowWindow(old(View()), minimum, sendOk);
        View() == g.flow && sent == old(sent) + g.sent && rc == g.rc
      ensures rc == if (old(localWindow) < minimum || old(localWindow) < WINDOWBASE) && !sendOk then Error else Ok
      ensures if rc == Ok then Grew(old(localWindow), minimum) else localWindow == old(localWindow) && sent == old(sent)
    {
      var newWindow := if minimum > WINDOWBASE then minimum else WINDOWBASE;
      if newWindow <= localWindow {
        return Ok;
      }
      if !sendOk {
        return Error;
      }
      sent := sent + [Adjust(newWindow - localWindow)];
      localWindow := newWindow;
      return Ok;
    }

    method ReceiveChangeWindow(bytes: u32)
      modifies this`remoteWindow
      ensures View() == Channels.RcvChangeWindow(old(View()), bytes)
      ensures remoteWindow == (old(remoteWindow) + bytes) % MOD32
    {
      remoteWindow := (remoteWindow + bytes) % MOD32;
    }

    /** The data callbacks, each of which takes a prefix of what the ones before it left. */
    method RunCallbacks(available: nat, rests: seq<int>) returns (taken: nat)
      ensures taken == Consumed(available, rests) <= available
    {
      taken := 0;
      var i := 0;
      while i < |rests|
        invariant 0 <= i <= |rests| && taken <= available
        invariant taken + Consumed(available - taken, rests[i..]) == Consumed(available, rests)
      {
        assert rests[i..][1..] == rests[i + 1..];
        if 0 < rests[i] <= available - taken {
          taken := taken + rests[i];
        }
        i := i + 1;
      }
    }

    /** Grow a window that runs low with `rest` bytes unread. */
    method Refill(rest: nat, sendOk: bool) returns (rc: Rc)
      modifies this`localWindow, this`sent
      ensures old(sent) <= sent
      ensures Refilled(old(localWindow), localWindow, rest, sendOk, sent[|old(sent)|..], rc)
    {
      rc := Ok;
      if (localWindow + rest) % MOD32 < WINDOWLIMIT {
        rc := GrowWindow(0, sendOk);
      }
    }

    /** The data packet handler; `rests` is what each registered data callback reports to have taken. */
    method ReceiveData(s: Stream, payload: seq<byte>, room: bool, rests: seq<int>, sendOk: bool)
      returns (delivered: seq<byte>, rc: Rc)
      modifies this`localWindow, this`stdoutBuffer, this`stderrBuffer, this`sent
      ensures var d := Channels.RcvData(old(View()), s, payload, room, rests, sendOk);
        View() == d.flow && sent == old(sent) + d.sent && delivered == d.delivered && rc == d.rc
      ensures forall other :: other != s ==> Buffer(other) == old(Buffer(other))
      ensures var all := (if old(Buffer(s)).Some? then old(Buffer(s)).value else []) + payload;
        if !room || |all| > BUFFER_SIZE_MAX then
          Buffer(s) == None && delivered == [] && rc == Ok && localWindow == old(localWindow) && sent == old(sent)
        else
          && Buffer(s).Some? && delivered + Buffer(s).value == all && |delivered| == Consumed(|all|, rests)
          && old(sent) <= sent
          && Refilled(Charge(old(localWindow), |payload|), localWindow, |Buffer(s).value|, sendOk,
                      sent[|old(sent)|..], rc)
    {
      var buffer := if s == Stdout then stdoutBuffer else stderrBuffer;
      var all := (if buffer.Some? then buffer.value else []) + payload;
      if !room || |all| > BUFFER_SIZE_MAX {
        SetBuffer(s, None);
        return [], Ok;
      }
      ghost var before, more := View(), sent;
      localWindow := if |payload| <= localWindow then localWindow - |payload| else 0;
      var taken := RunCallbacks(|all|, rests);
      delivered := all[..taken];
      SetBuffer(s, Some(all[taken..]));
      rc := Refill(|all| - taken, sendOk);
      assert delivered + all[taken..] == all;
      DataHandled(before, View(), s, payload, rests, sendOk, delivered, sent[|more|..], rc);
    }

    /** A read call up to its wait: make sure that as much as was asked for can arrive. */
    method ReadBegin(s: Stream, count: u32, sendOk: bool) returns (rc: Rc)
      requires View().bufs.Get(s).Some? && |Unread(View(), s)| <= BUFFER_SIZE_MAX
      modifies this`localWindow, this`sent
      ensures var g := Channels.ReadBegin(old(View()), s, count, sendOk);
        View() == g.flow && sent == old(sent) + g.sent && rc == g.rc
      ensures count <= (|Buffer(s).value| + old(localWindow)) % MOD32 ==>
        rc == Ok && localWindow == old(localWindow) && sent == old(sent)
      ensures |Buffer(s).value| + old(localWindow) < MOD32 && sendOk ==>
        rc == Ok && count <= |Buffer(s).value| + localWindow
      ensures rc == Ok || (rc == Error && !sendOk && localWindow == old(localWindow) && sent == old(sent))
    {
      var have := if s == Stdout then |stdoutBuffer.value| else |stderrBuffer.value|;
      rc := Ok;
      if count > (have + localWindow) % MOD32 {
        rc := GrowWindow((count - have) % MOD32, sendOk);
      }
    }

    /** A read call after its wait. */
    method ReadFinish(s: Stream, count: u32, sendOk: bool) returns (data: seq<byte>, rc: Rc)
      requires View().bufs.Get(s).Some?
      modifies this`localWindow, this`stdoutBuffer, this`stderrBuffer, this`sent
      ensures var e := Channels.ReadFinish(old(View()), old(Life()), s, count, sendOk);
        View() == e.flow && sent == old(sent) + e.sent && data == e.delivered && rc == e.rc
      ensures |data| <= count && Buffer(s).Some? && data + Buffer(s).value == old(Buffer(s).value)
      ensures forall other :: other != s ==> Buffer(other) == old(Buffer(other))
      ensures remoteEof && old(Buffer(s).value) == [] ==> data == [] && rc == Ok
      ensures state == Closed && !(remoteEof && old(Buffer(s).value) == []) ==> data == [] && rc == Error
      ensures state != Closed && old(Buffer(s).value) != [] ==>
        |data| == (if count < |old(Buffer(s).value)| then count else |old(Buffer(s).value)|)
      ensures localWindow == if state != Closed && !(remoteEof && old(Buffer(s).value) == []) && sendOk
        && old(localWindow) < WINDOWLIMIT then WINDOWBASE else old(localWindow)
      ensures sent == old(sent)
        + if localWindow == old(localWindow) then [] else [Adjust(localWindow - old(localWindow))]
      ensures rc == Ok || rc == Error
      ensures state != Closed ==>
        (rc == Error <==> !sendOk && old(localWindow) < WINDOWLIMIT && !(remoteEof && old(Buffer(s).value) == []))
    {
      var buffer := if s == Stdout then stdoutBuffer.value else stderrBuffer.value;
      if remoteEof && buffer == [] {
        return [], Ok;
      }
      if state == Closed {
        return [], Error;
      }
      var len := if |buffer| > count then count else |buffer|;
      data := buffer[..len];
      assert data + buffer[len..] == buffer;
      SetBuffer(s, Some(buffer[len..]));
      rc := Ok;
      if localWindow < WINDOWLIMIT {
        rc := GrowWindow(0, sendOk);
      }
    }

    method SendEof(sendOk: bool, flush: Rc) returns (rc: Rc)
      modifies this`localEof, this`sent
      ensures var t := Channels.SendEof(old(Life()), sendOk, flush);
        Life() == t.ctl && sent == old(sent) + t.sent && rc == t.rc
      ensures old(localEof) ==> localEof && sent == old(sent) && rc == Ok
      ensures !old(localEof) && !sendOk ==> !localEof && sent == old(sent) && rc == Error
      ensures !old(localEof) && sendOk ==> localEof == (flush != Error) && sent == old(sent) + [Eof] && rc == flush
    {
      if localEof {
        return Ok;
      }
      if !sendOk {
        return Error;
      }
      sent := sent + [Eof];
      if flush == Error {
        return Error;
      }
      localEof := true;
      return flush;
    }

    method Close(env: CloseEnv) returns (rc: Rc)
      modifies this`localEof, this`state, this`closedLocal, this`sent
      ensures var t := Channels.CloseChannel(old(Life()), env);
        Life() == t.ctl && sent == old(sent) + t.sent && rc == t.rc
      ensures old(closedLocal) ==> sent == old(sent) && rc == Ok
      ensures !old(closedLocal) && (old(localEof) || (env.eofSend && env.eofFlush == Ok)) && env.closeSend ==>
        closedLocal && state == Closed && localEof && rc == env.closeFlush
        && sent == old(sent) + if old(localEof) then [Packet.Close] else [Eof, Packet.Close]
      ensures closedLocal != old(closedLocal) ==> sent != old(sent) && sent[|sent| - 1] == Packet.Close
      ensures closedLocal == old(closedLocal) ==>
        state == old(state) && (sent == old(sent) || sent == old(sent) + [Eof])
    {
      if closedLocal {
        return Ok;
      }
      rc := SendEof(env.eofSend, env.eofFlush);
      if rc != Ok {
        return;
      }
      if env.closeSend {
        sent := sent + [Packet.Close];
        state := Closed;
        closedLocal := true;
      }
      return env.closeFlush;
    }

    /** Freeing by the application; the result says whether the record is released at once. */
    method Free(alive: bool, env: CloseEnv) returns (release: bool)
      modifies this`localEof, this`state, this`closedLocal, this`freedLocal, this`sent
      ensures var t := Channels.FreeChannel(old(Life()), alive, env);
        Life() == t.ctl && sent == old(sent) + t.sent && release == Destroyable(t.ctl)
      ensures freedLocal && (release <==> closedRemote || notBound)
      ensures var closes :=
          alive && (old(state) == Open || (old(state) == Closed && closedRemote && !old(closedLocal)));
        && (!closes ==> sent == old(sent) && state == old(state) && closedLocal == old(closedLocal))
        && (closes && !old(closedLocal) && (old(localEof) || (env.eofSend && env.eofFlush == Ok)) && env.closeSend ==>
              closedLocal && sent[|sent| - 1..] == [Packet.Close])
    {
      if alive {
        var sendClose := false;
        match state {
          case Open => sendClose := true;
          case Closed =>
            if closedRemote {
              sendClose := true;
            }
            if closedLocal {
              sendClose := false;
            }
          case _ => sendClose := false;
        }
        if sendClose {
          var _ := Close(env);
        }
      }
      freedLocal := true;
      return closedRemote || notBound;
    }

    /** The handler of the peer's end-of-file. */
    method ReceiveEof()
      modifies this`remoteEof
      ensures Life() == Channels.RcvEof(old(Life())) && remoteEof
    {
      remoteEof := true;
    }

    /** The handler of the peer's closing packet; the result says whether the record is released. */
    method ReceiveClose() returns (release: bool)
      modifies this`delayedClose, this`state, this`remoteEof, this`closedRemote
      ensures Life() == Channels.RcvClose(old(Life()), HasUnread())
      ensures release <==> Destroyable(Life()) && freedLocal
      ensures closedRemote && remoteEof && (release <==> freedLocal)
      ensures if HasUnread() then delayedClose && state == old(state)
        else state == Closed && delayedClose == old(delayedClose)
    {
      if HasUnread() {
        delayedClose := true;
      } else {
        state := Closed;
      }
      remoteEof := true;
      closedRemote := true;
      return freedLocal;
    }

    /** Nothing has changed in the life of the channel since `was`, or the peer has closed it. */
    ghost predicate OnlyClosed(was: Control, unread: bool)
      reads this`state, this`localEof, this`remoteEof, this`delayedClose
      reads this`closedRemote, this`closedLocal, this`freedLocal, this`notBound
    {
      Life() == was || Life() == Channels.RcvClose(was, unread)
    }

    /** The adjusts handled while the write loop waits, and how often they wrap the 32-bit window. */
    method ReceiveAdjusts(amounts: seq<u32>) returns (ghost wraps: nat)
      modifies this`remoteWindow
      ensures remoteWindow + MOD32 * wraps == old(remoteWindow) + Sum(amounts)
    {
      wraps := 0;
      var i := 0;
      assert amounts[0..] == amounts;
      while i < |amounts|
        invariant 0 <= i <= |amounts|
        invariant remoteWindow + MOD32 * wraps + Sum(amounts[i..]) == old(remoteWindow) + Sum(amounts)
      {
        assert amounts[i..][1..] == amounts[i + 1..];
        wraps := wraps + (remoteWindow + amounts[i]) / MOD32;
        ReceiveChangeWindow(amounts[i]);
        i := i + 1;
      }
    }

    /**
     * One data packet with as much of `rest` as the window and the packet limit allow: a write step of the two-party
     * system, wherever the channel is its left side.
     */
    method SendChunk(s: Stream, rest: seq<byte>) returns (effective: nat)
      requires 0 < remoteWindow && rest != []
      modifies this`remoteWindow, this`sent
      ensures effective == ChunkLength(old(View()), |rest|) <= |rest|
      ensures effective <= old(remoteWindow) && effective <= (remoteMaxPacket - 10) % MOD32
      ensures effective == 0 <==> remoteMaxPacket == 10
      ensures remoteWindow == old(remoteWindow) - effective
      ensures sent == old(sent) + [Data(s, rest[..effective])]
      ensures forall sys: System :: sys.l.flow == old(View()) && MayWrite(sys.l.ctl) ==>
        var t := DoWrite(sys, WriteChunk(s, rest, true));
        t.l.flow == View() && t.l.ctl == sys.l.ctl && old(sent) + t.lr[|sys.lr|..] == sent
    {
      var limit := (remoteMaxPacket - 10) % MOD32;
      effective := |rest|;
      if remoteWindow < |rest| {
        effective := Min(|rest|, remoteWindow);
      }
      effective := Min(effective, limit);
      sent := sent + [Data(s, rest[..effective])];
      remoteWindow := remoteWindow - effective;
    }

    lemma CloseTwice(was: Control, unread: bool)
      requires OnlyClosed(was, unread)
      ensures Channels.RcvClose(Life(), unread) == Channels.RcvClose(was, unread)
    {
    }

    /** One wait for window: `go` says whether the loop goes on. A closed channel is not waited for. */
    method AwaitWindow(wait: Wait, ghost was: Control, ghost unread: bool) returns (go: bool)
      requires remoteWindow == 0 && unread == HasUnread() && OnlyClosed(was, unread)
      modifies this`remoteWindow, this`delayedClose, this`state, this`remoteEof, this`closedRemote
      ensures OnlyClosed(was, unread)
      ensures remoteWindow == if old(state) != Closed && wait.Adjusted? then Sum(wait.amounts) % MOD32 else 0
      ensures state == if wait.PeerClosed? && !unread then Closed else old(state)
      ensures go <==> old(state) != Closed && !wait.Broken? && (wait.PeerClosed? || remoteWindow > 0)
    {
      if state == Closed || wait.Broken? {
        return false;
      }
      if wait.PeerClosed? {
        CloseTwice(was, unread);
        var release := ReceiveClose();
        return true;
      }
      ghost var wraps;
      wraps := ReceiveAdjusts(wait.amounts);
      ModIs(Sum(wait.amounts), wraps, remoteWindow);
      go := remoteWindow != 0;
    }

    /** How the loop of a write ends from here. */
    ghost function End(unread: bool, unsent: nat, waits: seq<Wait>, left: nat): Ended
      reads this`remoteWindow, this`remoteMaxPacket, this`state
    {
      Loop(remoteWindow, (remoteMaxPacket - 10) % MOD32, state == Closed, unread, unsent, waits, left)
    }

    /** One wait of a write that has not sent everything. */
    method WaitNext(waits: seq<Wait>, ghost was: Control, ghost unread: bool, ghost unsent: nat, ghost left: nat)
      returns (go: bool)
      requires remoteWindow == 0 && unread == HasUnread() && OnlyClosed(was, unread) && waits != [] && unsent > 0
      modifies this`remoteWindow, this`delayedClose, this`state, this`remoteEof, this`closedRemote
      ensures OnlyClosed(was, unread)
      ensures old(End(unread, unsent, waits, left))
        == if go then End(unread, unsent, waits[1..], left) else Ended(unsent, false, 0, left)
      ensures !go ==> remoteWindow == 0
    {
      ghost var before := state == Closed;
      go := AwaitWindow(waits[0], was, unread);
      LoopWait((remoteMaxPacket - 10) % MOD32, before, unread, unsent, waits, left, remoteWindow, state == Closed, go);
    }

    /** The packets carry the first `written` bytes of the data within the packet limit. */
    ghost predicate Carry(packets: seq<Packet>, s: Stream, data: seq<byte>, written: nat)
      reads this`remoteMaxPacket
    {
      Written(packets, s, (remoteMaxPacket - 10) % MOD32, data, written)
    }

    /** The next packet of a write that has sent `packets`. */
    method SendNext(data: seq<byte>, s: Stream, written: nat, ghost base: seq<Packet>, ghost packets: seq<Packet>,
                    ghost was: Control, ghost unread: bool, ghost waits: seq<Wait>, ghost left: nat)
      returns (effective: nat, ghost more: seq<Packet>)
      requires 0 < remoteWindow && written < |data| && left > 0 && OnlyClosed(was, unread)
      requires Carry(packets, s, data, written)
      requires sent == base + packets
      modifies this`remoteWindow, this`sent
      ensures effective <= |data| - written && |more| == |packets| + 1
      ensures sent == base + more
      ensures Carry(more, s, data, written + effective)
      ensures old(End(unread, |data| - written, waits, left))
        == End(unread, |data| - written - effective, waits, left - 1)
      ensures OnlyClosed(was, unread)
    {
      ghost var window := remoteWindow;
      effective := SendChunk(s, data[written..]);
      ghost var packet := Data(s, data[written..][..effective]);
      more := packets + [packet];
      Associate(base, packets, [packet]);
      ChunkSent(packets, s, (remoteMaxPacket - 10) % MOD32, data, written, effective);
      LoopPacket(window, (remoteMaxPacket - 10) % MOD32, state == Closed, unread, |data| - written, waits, left,
                 effective);
    }

    /**
     * The loop of the blocking write. It cuts `data` into packets that fit the peer's window and packet limit,
     * and waits when the window is used up; `budget` is how many packets the packet layer takes before it fails.
     * For a peer whose packet limit is 10 the loop sends empty packets as long as the packet layer takes them.
     */
    method WriteLoop(data: seq<byte>, s: Stream, waits: seq<Wait>, budget: nat, ghost was: Control, ghost unread: bool)
      returns (written: nat, failed: bool, left: nat, ghost packets: seq<Packet>)
      requires unread == HasUnread() && OnlyClosed(was, unread)
      modifies this`remoteWindow, this`sent, this`delayedClose, this`state, this`remoteEof, this`closedRemote
      ensures sent == old(sent) + packets && |packets| + left == budget && OnlyClosed(was, unread)
      ensures Carry(packets, s, data, written)
      ensures old(End(unread, |data|, waits, budget)) == Ended(|data| - written, failed, remoteWindow, left)
    {
      written, failed, left, packets := 0, false, budget, [];
      var rest := waits;
      ghost var base := sent;
      while written < |data|
        invariant sent == base + packets && |packets| + left == budget
        invariant unread == HasUnread() && OnlyClosed(was, unread)
        invariant Carry(packets, s, data, written)
        invariant End(unread, |data| - written, rest, left) == old(End(unread, |data|, waits, budget))
        decreases |rest|, left
      {
        if remoteWindow == 0 {
          if rest == [] {
            break;
          }
          var go := WaitNext(rest, was, unread, |data| - written, left);
          rest := rest[1..];
          if !go {
            break;
          }
        } else {
          if left == 0 {
            failed := true;
            break;
          }
          var effective;
          effective, packets := SendNext(data, s, written, base, packets, was, unread, rest, left);
          left := left - 1;
          written := written + effective;
        }
      }
    }

    /** The wait for new keys at the start of a write. */
    method AwaitKeys(rekey: Rekey) returns (go: bool)
      modifies this`remoteWindow, this`delayedClose, this`state, this`remoteEof, this`closedRemote
      ensures go <==> !rekey.StillRekeying?
      ensures remoteWindow == AfterKeys(old(remoteWindow), rekey)
      ensures state == if rekey.Rekeyed? && rekey.peerClosed && !HasUnread() then Closed else old(state)
      ensures OnlyClosed(old(Life()), HasUnread())
    {
      if rekey.Rekeyed? {
        ghost var wraps;
        wraps := ReceiveAdjusts(rekey.amounts);
        ModIs(old(remoteWindow) + Sum(rekey.amounts), wraps, remoteWindow);
        if rekey.peerClosed {
          var release := ReceiveClose();
        }
      }
      go := !rekey.StillRekeying?;
    }

    /** The window that the waits bring to a write, after the wait for new keys has closed the channel or not. */
    ghost function Promised(rekey: Rekey, waits: seq<Wait>): nat
      reads this`stdoutBuffer, this`stderrBuffer
    {
      Granted(rekey.Rekeyed? && rekey.peerClosed && !HasUnread(), HasUnread(), waits)
    }

    /** The part of a write after the wait for new keys, which sends what the window allows and flushes. */
    method WriteOut(data: seq<byte>, s: Stream, waits: seq<Wait>, budget: nat, flush: Rc,
                    ghost was: Control, ghost unread: bool)
      returns (result: int, ghost packets: seq<Packet>, ghost heard: nat)
      requires unread == HasUnread() && OnlyClosed(was, unread)
      modifies this`remoteWindow, this`sent, this`delayedClose, this`state, this`remoteEof, this`closedRemote
      ensures sent == old(sent) + packets && Chunks(packets, s, (remoteMaxPacket - 10) % MOD32)
      ensures OnlyClosed(was, unread)
      ensures BytesInFlight(packets, s) <= data && (result == -1 || result == |BytesInFlight(packets, s)|)
      ensures heard <= |waits| && remoteWindow + |BytesInFlight(packets, s)|
        == old(remoteWindow) + Granted(old(state) == Closed, unread, waits[..heard])
      ensures Allowed(|data|, |BytesInFlight(packets, s)|, |packets|,
        old(remoteWindow) + Granted(old(state) == Closed, unread, waits), remoteMaxPacket, budget, flush, result)
      ensures data != [] && old(remoteWindow) > 0 && remoteMaxPacket == 10 ==> result == -1 && |packets| == budget
    {
      ghost var window, closed := remoteWindow, state == Closed;
      var written, failed, left;
      written, failed, left, packets := WriteLoop(data, s, waits, budget, was, unread);
      result := if failed || (written == |data| && flush == Error) then -1 else written;
      heard := Outcome(window, remoteMaxPacket, closed, unread, |data|, waits, budget, flush, result);
    }

    /** A write on a channel that is open, from the wait for new keys on. */
    method WriteOpen(data: seq<byte>, s: Stream, rekey: Rekey, waits: seq<Wait>, budget: nat, flush: Rc)
      returns (result: int, ghost packets: seq<Packet>, ghost heard: nat)
      requires state == Open
      modifies this`remoteWindow, this`sent, this`delayedClose, this`state, this`remoteEof, this`closedRemote
      ensures sent == old(sent) + packets && Chunks(packets, s, (remoteMaxPacket - 10) % MOD32)
      ensures BytesInFlight(packets, s) <= data && (result == -1 || result == |BytesInFlight(packets, s)|)
      ensures rekey.StillRekeying? ==> result == 0 && packets == [] && remoteWindow == old(remoteWindow)
      ensures !rekey.StillRekeying? ==>
        var first := AfterKeys(old(remoteWindow), rekey);
        && heard <= |waits| && remoteWindow + |BytesInFlight(packets, s)| == first + Promised(rekey, waits[..heard])
        && Allowed(|data|, |BytesInFlight(packets, s)|, |packets|, first + Promised(rekey, waits), remoteMaxPacket,
                   budget, flush, result)
        && (data != [] && first > 0 && remoteMaxPacket == 10 ==> result == -1 && |packets| == budget)
      ensures OnlyClosed(old(Life()), HasUnread())
    {
      ghost var was := Life();
      var go := AwaitKeys(rekey);
      if !go {
        return 0, [], 0;
      }
      result, packets, heard := WriteOut(data, s, waits, budget, flush, was, HasUnread());
    }

    /**
     * The blocking write. After the wait for new keys the state of the channel is not looked at again, so data can
     * follow a close of the peer. What the call reports is what it sent, in packets the peer's window and packet
     * limit allow: as much of the data as the window it finds and the windows it waits for.
     */
    method WriteCommon(data: seq<byte>, s: Stream, rekey: Rekey, waits: seq<Wait>, budget: nat, flush: Rc)
      returns (result: int, ghost packets: seq<Packet>, ghost heard: nat)
      modifies this`remoteWindow, this`sent, this`delayedClose, this`state, this`remoteEof, this`closedRemote
      ensures sent == old(sent) + packets && Chunks(packets, s, (remoteMaxPacket - 10) % MOD32)
      ensures BytesInFlight(packets, s) <= data && (result == -1 || result == |BytesInFlight(packets, s)|)
      ensures |data| > INT_MAX || old(localEof) || old(state) != Open || old(delayedClose) ==>
        result == -1 && packets == [] && remoteWindow == old(remoteWindow)
      ensures |data| <= INT_MAX && !old(localEof) && old(state) == Open && !old(delayedClose) ==>
        rekey.StillRekeying? ==> result == 0 && packets == [] && remoteWindow == old(remoteWindow)
      ensures |data| <= INT_MAX && !old(localEof) && old(state) == Open && !old(delayedClose) ==>
        !rekey.StillRekeying? ==>
        var first := AfterKeys(old(remoteWindow), rekey);
        && heard <= |waits| && remoteWindow + |BytesInFlight(packets, s)| == first + Promised(rekey, waits[..heard])
        && Allowed(|data|, |BytesInFlight(packets, s)|, |packets|, first + Promised(rekey, waits), remoteMaxPacket,
                   budget, flush, result)
        && (data != [] && first > 0 && remoteMaxPacket == 10 ==> result == -1 && |packets| == budget)
        && (!(rekey.Rekeyed? && rekey.peerClosed) && Generous(waits) && |data| <= first + Total(waits) ==>
              |data| <= budget && remoteMaxPacket != 10 && flush != Error ==> result == |data|)
      ensures OnlyClosed(old(Life()), HasUnread())
    {
      if |data| > INT_MAX || localEof || state != Open || delayedClose {
        return -1, [], 0;
      }
      if Generous(waits) {
        GenerousGrants(HasUnread(), waits);
      }
      result, packets, heard := WriteOpen(data, s, rekey, waits, budget, flush);
    }
  }
}
