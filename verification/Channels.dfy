/**
 * The state transitions of one SSH channel end point, as functions on its record.
 * A `sendOk` or `flush` argument is the outcome of the packet layer; a packet that was not sent
 * is not on the wire.
 */
module Channels {
  import opened Bytes

  const WINDOWBASE := 1280000
  const WINDOWLIMIT := WINDOWBASE / 2
  const MOD32 := 0x1_0000_0000

  datatype Stream = Stdout | Stderr

  datatype Two<+T> = Two(out: T, err: T) {
    function Get(s: Stream): T {
      if s == Stdout then out else err
    }
  }

  function Put<T>(p: Two<T>, s: Stream, v: T): Two<T> {
    if s == Stdout then p.(out := v) else p.(err := v)
  }

  datatype Packet =
    | Data(stream: Stream, payload: seq<byte>)
    | Adjust(bytes: u32)
    | Eof
    | Close

  datatype Rc = Ok | Again | Error

  /**
   * The windows and buffers of an end point. `bufs` holds the unread bytes of each stream; a buffer that was
   * freed after a failed append is `None`.
   */
  datatype Flow = Flow(localWindow: u32, remoteWindow: u32, remoteMaxPacket: u32, bufs: Two<Option<seq<byte>>>)

  datatype State = NotOpen | Opening | OpenDenied | Open | Closed

  /** The life of an end point. */
  datatype Control = Control(
    state: State,
    localEof: bool,
    remoteEof: bool,
    delayedClose: bool,
    closedRemote: bool,
    closedLocal: bool,
    freedLocal: bool,
    notBound: bool)

  datatype Chan = Chan(flow: Flow, ctl: Control)

  /** The unread bytes of a stream. */
  function Unread(f: Flow, s: Stream): seq<byte> {
    if f.bufs.Get(s).Some? then f.bufs.Get(s).value else []
  }

  // Windows

  datatype Grown = Grown(flow: Flow, sent: seq<Packet>, rc: Rc)

  function GrowWindow(f: Flow, minimum: u32, sendOk: bool): Grown {
    var target := if minimum > WINDOWBASE then minimum else WINDOWBASE;
    if target <= f.localWindow then Grown(f, [], Ok)
    else if !sendOk then Grown(f, [], Error)
    else Grown(f.(localWindow := target), [Adjust(target - f.localWindow)], Ok)
  }

  function RcvChangeWindow(f: Flow, bytes: u32): Flow {
    f.(remoteWindow := (f.remoteWindow + bytes) % MOD32)
  }

  /** How many bytes the application's data callbacks take, one after the other. */
  function Consumed(available: nat, rests: seq<int>): (n: nat)
    ensures n <= available
  {
    if rests == [] then 0
    else if 0 < rests[0] <= available then rests[0] + Consumed(available - rests[0], rests[1..])
    else Consumed(available, rests[1..])
  }

  datatype Received = Received(flow: Flow, sent: seq<Packet>, delivered: seq<byte>, stored: bool, rc: Rc)

  /** A data packet: buffer it, charge the window, let the callbacks read, and refill a window that runs low. */
  function RcvData(f: Flow, s: Stream, payload: seq<byte>, room: bool, rests: seq<int>, sendOk: bool): Received {
    var all := Unread(f, s) + payload;
    if !room || |all| > BUFFER_SIZE_MAX then
      Received(f.(bufs := Put(f.bufs, s, None)), [], [], false, Ok)
    else
      var window := if |payload| <= f.localWindow then f.localWindow - |payload| else 0;
      var n := Consumed(|all|, rests);
      var f1 := f.(localWindow := window, bufs := Put(f.bufs, s, Some(all[n..])));
      if (window + (|all| - n)) % MOD32 < WINDOWLIMIT then
        var g := GrowWindow(f1, 0, sendOk);
        Received(g.flow, g.sent, all[..n], true, g.rc)
      else
        Received(f1, [], all[..n], true, Ok)
  }

  /** What a read call does before it waits. The additions are those of 32-bit unsigned words. */
  function ReadBegin(f: Flow, s: Stream, count: u32, sendOk: bool): Grown
    requires f.bufs.Get(s).Some? && |Unread(f, s)| <= BUFFER_SIZE_MAX
  {
    var have := |Unread(f, s)|;
    if count > (have + f.localWindow) % MOD32 then GrowWindow(f, (count - have) % MOD32, sendOk)
    else Grown(f, [], Ok)
  }

  datatype ReadEnd = ReadEnd(flow: Flow, sent: seq<Packet>, delivered: seq<byte>, rc: Rc)

  /** What a read call does after it waited. */
  function ReadFinish(f: Flow, ctl: Control, s: Stream, count: u32, sendOk: bool): ReadEnd
    requires f.bufs.Get(s).Some?
  {
    var buf := Unread(f, s);
    if ctl.remoteEof && buf == [] then ReadEnd(f, [], [], Ok)
    else if ctl.state == Closed then ReadEnd(f, [], [], Error)
    else
      var n := Min(count, |buf|);
      var f1 := f.(bufs := Put(f.bufs, s, Some(buf[n..])));
      if f.localWindow < WINDOWLIMIT then
        var g := GrowWindow(f1, 0, sendOk);
        ReadEnd(g.flow, g.sent, buf[..n], g.rc)
      else
        ReadEnd(f1, [], buf[..n], Ok)
  }

  function Min(a: nat, b: nat): nat {
    if a < b then a else b
  }

  /** The largest payload the peer's packet limit leaves, with the unsigned wrap of the subtraction. */
  function MaxPayload(f: Flow): u32 {
    (f.remoteMaxPacket - 10) % MOD32
  }

  /** The payload length of the next data packet when `len` bytes are left to write. */
  function ChunkLength(f: Flow, len: nat): nat {
    Min(if f.remoteWindow < len then Min(len, f.remoteWindow) else len, MaxPayload(f))
  }

  // Life

  /** The test a write call makes on entry. */
  predicate CanWrite(c: Control) {
    !c.localEof && c.state == Open && !c.delayedClose
  }

  /**
   * Whether the loop of a write call may send: the test on entry is not repeated, so the peer may have closed the
   * channel in the meantime.
   */
  predicate MayWrite(c: Control) {
    !c.localEof && (c.state == Open || (c.state == Closed && c.closedRemote))
  }

  function RcvEof(c: Control): Control {
    c.(remoteEof := true)
  }

  /** The closing packet; `unread` says whether a stream buffer still holds bytes. */
  function RcvClose(c: Control, unread: bool): Control {
    var c1 := if unread then c.(delayedClose := true) else c.(state := Closed);
    c1.(remoteEof := true, closedRemote := true)
  }

  datatype Told = Told(ctl: Control, sent: seq<Packet>, rc: Rc)

  function SendEof(c: Control, sendOk: bool, flush: Rc): Told {
    if c.localEof then Told(c, [], Ok)
    else if !sendOk then Told(c, [], Error)
    else if flush == Error then Told(c, [Eof], Error)
    else Told(c.(localEof := true), [Eof], flush)
  }

  /** Outcomes of the two sends and the two flushes a close can make. */
  datatype CloseEnv = CloseEnv(eofSend: bool, eofFlush: Rc, closeSend: bool, closeFlush: Rc)

  function CloseChannel(c: Control, env: CloseEnv): Told {
    if c.closedLocal then Told(c, [], Ok)
    else
      var e := SendEof(c, env.eofSend, env.eofFlush);
      if e.rc != Ok then e
      else if !env.closeSend then Told(e.ctl, e.sent, env.closeFlush)
      else Told(e.ctl.(state := Closed, closedLocal := true), e.sent + [Close], env.closeFlush)
  }

  /** Whether freeing sends a close: on a live session, unless there is nothing to close. */
  predicate FreeCloses(c: Control, alive: bool) {
    alive && (c.state == Open || (c.state == Closed && c.closedRemote && !c.closedLocal))
  }

  /** Freeing by the application. */
  function FreeChannel(c: Control, alive: bool, env: CloseEnv): Told {
    var t := if FreeCloses(c, alive) then CloseChannel(c, env) else Told(c, [], Ok);
    t.(ctl := t.ctl.(freedLocal := true))
  }

  /** When the channel record itself is released. */
  predicate Destroyable(c: Control) {
    c.freedLocal && (c.closedRemote || c.notBound)
  }

  /** An open confirmation. The peer's window is stored before the state is checked. */
  function OpenConfirm(c: Chan, window: u32, maxPacket: u32): Chan {
    var c1 := c.(flow := c.flow.(remoteWindow := window, remoteMaxPacket := maxPacket));
    if c.ctl.state == Opening then c1.(ctl := c.ctl.(state := Open, notBound := false)) else c1
  }
}
