/**
 The TCP half of the network stack as functions on socket values: segment
 emission, retransmission, the pump, and segment input. The mutable socket
 with its ring buffer is TcpSocket.Socket, which is proved to compute these
 functions; two sockets joined by a lossy network are TcpRuns.
 */
module Tcp {
  import opened Basics

  const U32 := 0x1_0000_0000
  const STREAM := 16384
  const MAX_RETRY := 8

  const EAGAIN := -10
  const ETIMEDOUT := -8
  const EINVAL := -1
  const ENETDOWN := -17
  const ECONNREFUSED := -19
  const ECONNRESET := -20

  type u32 = x: int | 0 <= x < 0x1_0000_0000
  type pos = x: int | 0 < x witness 1

  datatype State =
    | SynSent | SynRcvd | Established | FinWait1 | FinWait2
    | CloseWait | Closing | LastAck | TimeWait | Error

  /** Outcome of parsing the SYN options: malformed, silent on the segment size, or a size of at least 64. */
  datatype Options = BadOptions | NoMss | Mss(size: nat)

  datatype Seg = Seg(
    sq: u32, ack: u32, syn: bool, fin: bool, rst: bool, ackf: bool,
    wnd: nat, opt: Options, data: seq<byte>)

  /** Retransmission and state timers. */
  datatype Timer = Timer(
    retransmitted: bool, srtt: nat, rttvar: nat, rto: nat, retry: nat,
    sentAt: nat, persistAt: nat, deadline: nat)

  /** Segment size and congestion control. */
  datatype Flow = Flow(mss: pos, cwnd: pos, threshold: nat, dupacks: nat)

  datatype Sock = Sock(
    used: bool, detached: bool, peerFin: bool, closeReq: bool, state: State,
    sndUna: u32, sndNxt: u32, rcvNxt: u32, iss: u32, finSeq: u32, peerWindow: nat,
    rx: seq<byte>, tx: seq<byte>, error: int, tm: Timer, fl: Flow)

  /**
   What one call sees of the outside: the clock, whether the local address is
   still configured, the segment size the interface allows, the segment size
   of the address family, the ICMP budget, and the result of the k-th packet
   handed to the IP layer (0 is sent).
   */
  datatype Env = Env(now: nat, up: bool, limit: pos, base: pos, allow: bool, send: nat -> int)

  /** Socket after a call, the segments it put on the wire, and how many packets it tried to send. */
  datatype Out = Out(s: Sock, segs: seq<Seg>, k: nat)

  /** An Out plus whether the caller goes on or returns. */
  datatype Stage = Stage(o: Out, go: bool)

  /** Reduction to 32 bits. */
  function Wrap(x: int): u32
    decreases if x < 0 then U32 - x else x
  {
    if x < 0 then Wrap(x + U32) else if x >= U32 then Wrap(x - U32) else x
  }

  /** The signed-difference test of net_seq_before. */
  predicate SeqBefore(a: u32, b: u32) { Wrap(a - b) >= 0x8000_0000 }

  function Min(a: int, b: int): int { if a < b then a else b }
  function Max(a: int, b: int): int { if a > b then a else b }
  function Take(s: seq<byte>, n: nat): seq<byte> { s[..Min(n, |s|)] }
  function Stamp(now: nat): nat { if now == 0 then 1 else now }
  /** Unsigned 64-bit difference of two clock readings. */
  function Elapsed(now: nat, since: nat): nat {
    if since <= now then now - since else Max(0, now - since + 0x1_0000_0000_0000_0000)
  }
  function Flight(s: Sock): nat { Wrap(s.sndNxt - s.sndUna) }
  function Window(s: Sock): int { STREAM - |s.rx| }

  predicate Opening(st: State) { st.SynSent? || st.SynRcvd? }
  predicate Sending(st: State) { st.Established? || st.CloseWait? }
  predicate Finishing(st: State) { st.FinWait1? || st.Closing? || st.LastAck? }

  function Packet(s: Sock, sq: int, syn: bool, fin: bool, ackf: bool, data: seq<byte>): Seg {
    Seg(Wrap(sq), if ackf then s.rcvNxt else 0, syn, fin, false, ackf, Max(0, Window(s)), NoMss, data)
  }

  /** Hand one packet to the IP layer and ignore the outcome. */
  function Emit(o: Out, g: Seg, e: Env): Out {
    Out(o.s, if e.send(o.k) == 0 then o.segs + [g] else o.segs, o.k + 1)
  }

  function Ack(o: Out, e: Env): Out {
    Emit(o, Packet(o.s, o.s.sndNxt, false, false, true, []), e)
  }

  function Fail(s: Sock, err: int, now: nat): Sock {
    s.(state := Error, error := err, tm := s.tm.(deadline := now + 30000), used := s.used && !s.detached)
  }

  /** Fold one round-trip sample into the smoothed estimate. */
  function Smooth(t: Timer, sample: nat): Timer {
    var diff := if t.srtt > sample then t.srtt - sample else sample - t.srtt;
    var rttvar := if t.srtt == 0 then sample / 2 else (3 * t.rttvar + diff) / 4;
    var srtt := if t.srtt == 0 then sample else (7 * t.srtt + sample) / 8;
    t.(srtt := srtt, rttvar := rttvar, rto := Max(1000, Min(60000, srtt + 4 * rttvar)))
  }

  /** Take a sample unless the last packet was a retransmission, and reset the retry state. */
  function Rtt(t: Timer, now: nat): Timer {
    var u :=
      if !t.retransmitted && t.sentAt != 0 then Smooth(t, Max(1, Min(Elapsed(now, t.sentAt), 60000))) else t;
    u.(retry := 0, retransmitted := false, sentAt := Stamp(now))
  }

  /** Timers after a packet left; only a repeat of something already sent backs off. */
  function BackoffTimer(t: Timer, now: nat): Timer {
    if t.sentAt == 0 then t.(sentAt := Stamp(now))
    else t.(retry := t.retry + 1, retransmitted := true, rto := Min(60000, t.rto * 2), sentAt := Stamp(now))
  }

  function BackoffFlow(t: Timer, f: Flow): Flow {
    if t.sentAt == 0 then f
    else f.(threshold := Max(Min(f.cwnd / 2, STREAM), 2 * f.mss), cwnd := f.mss)
  }

  function Resent(s: Sock, now: nat): Sock {
    s.(tm := BackoffTimer(s.tm, now), fl := BackoffFlow(s.tm, s.fl))
  }

  function ResendSeg(s: Sock): Seg {
    if Opening(s.state) then Packet(s, s.iss, true, false, s.state.SynRcvd?, [])
    else if Finishing(s.state) then Packet(s, s.finSeq, false, true, true, [])
    else Packet(s, s.sndUna, false, false, true, Take(s.tx, Min(s.fl.mss, Flight(s))))
  }

  /** Send or resend the SYN, the FIN, or the oldest unacknowledged data. */
  function Resend(o: Out, e: Env): Stage {
    var s := o.s;
    var control := Opening(s.state) || Finishing(s.state);
    if !(control || (s.sndNxt != s.sndUna && |s.tx| > 0)) then Stage(o, true)
    else if !(s.tm.sentAt == 0 || Elapsed(e.now, s.tm.sentAt) >= s.tm.rto) then Stage(o, !control)
    else if s.tm.retry >= MAX_RETRY then Stage(o.(s := Fail(s, ETIMEDOUT, e.now)), false)
    else
      var r := e.send(o.k);
      if r == 0 then
        Stage(Out(Resent(s, e.now), o.segs + [ResendSeg(s)], o.k + 1), !control)
      else if r == EAGAIN then Stage(o.(k := o.k + 1), !control)
      else Stage(o.(s := Fail(s, r, e.now), k := o.k + 1), false)
  }

  /** One new data segment put on the wire. */
  function SendOne(o: Out, inflight: nat, n: nat, now: nat): Out
    requires inflight + n <= |o.s.tx|
  {
    var s := o.s;
    var g := Packet(s, s.sndNxt, false, false, true, s.tx[inflight..inflight + n]);
    var tm := if inflight == 0 then s.tm.(sentAt := Stamp(now), retransmitted := false) else s.tm;
    Out(s.(sndNxt := Wrap(s.sndNxt + n), tm := tm), o.segs + [g], o.k + 1)
  }

  /** The transmission loop: new data up to the window, one segment at a time. */
  function SendNew(o: Out, inflight: nat, window: nat, e: Env): Stage
    decreases |o.s.tx| - inflight
  {
    var s := o.s;
    if inflight < |s.tx| && inflight < window then
      var n := Min(s.fl.mss, Min(|s.tx| - inflight, window - inflight));
      var r := e.send(o.k);
      if r != 0 then
        Stage(o.(s := if r == EAGAIN then s else Fail(s, r, e.now), k := o.k + 1), false)
      else SendNew(SendOne(o, inflight, n, e.now), inflight + n, window, e)
    else Stage(o, true)
  }

  /** Zero-window probe. */
  function Persist(o: Out, e: Env): Out {
    var s := o.s;
    if s.peerWindow == 0 && |s.tx| > 0 && Flight(s) == 0 && e.now >= s.tm.persistAt then
      var p := Emit(o, Packet(s, s.sndUna - 1, false, false, true, []), e);
      p.(s := s.(tm := s.tm.(persistAt := e.now + 1000)))
    else o
  }

  function StartFin(s: Sock): Sock {
    s.(finSeq := s.sndNxt, sndNxt := Wrap(s.sndNxt + 1),
       state := if s.peerFin then LastAck else FinWait1, tm := s.tm.(sentAt := 0, retry := 0))
  }

  /** Everything net_tcp_pump does on a socket that is neither waiting out TIME_WAIT nor failed. */
  function PumpLive(o: Out, e: Env): Out {
    var r := Resend(o, e);
    if !r.go || !Sending(r.o.s.state) then r.o
    else
      var t := r.o.s;
      var n := SendNew(r.o, Flight(t), Min(t.peerWindow, t.fl.cwnd), e);
      if !n.go then n.o
      else
        var p := Persist(n.o, e);
        if p.s.closeReq && |p.s.tx| == 0 then Resend(p.(s := StartFin(p.s)), e).o else p
  }

  function Clamp(s: Sock, e: Env): Sock { if s.fl.mss > e.limit then s.(fl := s.fl.(mss := e.limit)) else s }

  function Pump(o: Out, e: Env): Out {
    var s := o.s;
    if !s.used then o
    else if s.state.TimeWait? then
      if e.now >= s.tm.deadline then o.(s := s.(used := false)) else o
    else if s.state.Error? then
      if s.detached then o.(s := s.(used := false)) else o
    else if s.state.FinWait2? && e.now >= s.tm.deadline then o.(s := Fail(s, ETIMEDOUT, e.now))
    else if !e.up then o.(s := Fail(s, ENETDOWN, e.now))
    else PumpLive(o.(s := Clamp(s, e)), e)
  }

  function SegLen(g: Seg): nat {
    |g.data| + (if g.fin then 1 else 0) + (if g.syn then 1 else 0)
  }

  predicate InWindow(next: u32, window: int, sq: u32) {
    !SeqBefore(sq, next) && SeqBefore(sq, Wrap(next + window))
  }

  /** The acceptability test of section 3.10.7.4 of RFC 9293, as the stack performs it. */
  predicate Acceptable(next: u32, window: int, g: Seg) {
    if window != 0 then
      InWindow(next, window, g.sq) || (SegLen(g) != 0 && InWindow(next, window, Wrap(g.sq + SegLen(g) - 1)))
    else SegLen(g) == 0 && g.sq == next
  }

  function ChosenMss(g: Seg, e: Env): pos {
    if g.opt.Mss? && 0 < g.opt.size < e.base then g.opt.size else e.base
  }

  function InputSynSent(o: Out, g: Seg, e: Env): Out {
    var s := o.s;
    if g.rst then
      if g.ackf && g.ack == s.sndNxt then o.(s := Fail(s, ECONNREFUSED, e.now)) else o
    else if !g.syn || !g.ackf || g.ack != s.sndNxt || g.opt.BadOptions? then o
    else
      var m := ChosenMss(g, e);
      var t := s.(fl := s.fl.(mss := m, cwnd := m * 2), peerWindow := g.wnd, sndUna := g.ack,
                  rcvNxt := Wrap(g.sq + 1), state := Established,
                  tm := Rtt(s.tm, e.now).(sentAt := 0));
      Ack(o.(s := t), e)
  }

  /** Congestion window growth on new data acknowledged. */
  function Grow(f: Flow, acked: nat): Flow {
    var step := if f.cwnd < f.threshold then Min(acked, f.mss) else Max(1, f.mss * f.mss / f.cwnd);
    f.(cwnd := Max(1, Min(f.cwnd + step, STREAM)), dupacks := 0)
  }

  /** Drop acknowledged bytes from the transmit buffer. */
  function Acked(s: Sock, n: nat, now: nat): Sock
    requires n <= |s.tx|
  {
    var una := Wrap(s.sndUna + n);
    var tm := Rtt(s.tm, now);
    s.(tx := s.tx[n..], sndUna := una, fl := Grow(s.fl, n),
       tm := if s.sndNxt == una then tm.(sentAt := 0) else tm)
  }

  function FinAcked(s: Sock, ack: u32, now: nat): Sock {
    var t := s.(sndUna := ack, tm := s.tm.(sentAt := 0));
    if s.state.LastAck? then t.(used := false)
    else if s.state.Closing? then t.(state := TimeWait, tm := t.tm.(deadline := now + 120000))
    else t.(state := FinWait2, tm := t.tm.(deadline := now + 60000))
  }

  function DuplicateAck(o: Out, e: Env): Out {
    var s := o.s.(fl := o.s.fl.(dupacks := o.s.fl.dupacks + 1));
    if s.fl.dupacks != 3 then o.(s := s)
    else
      var t := s.(fl := s.fl.(threshold := Max(2 * s.fl.mss, s.fl.cwnd / 2), cwnd := s.fl.mss),
                  tm := s.tm.(retransmitted := true, sentAt := e.now));
      Emit(o.(s := t), Packet(t, t.sndUna, false, false, true, Take(t.tx, Min(t.fl.mss, Flight(t)))), e)
  }

  function AckStage(o: Out, g: Seg, e: Env): Stage {
    var s := o.s;
    if s.state.SynRcvd? then
      if g.ack != s.sndNxt || g.sq != s.rcvNxt then Stage(o, false)
      else
        Stage(o.(s := s.(sndUna := g.ack, state := Established, tm := Rtt(s.tm, e.now).(sentAt := 0))), true)
    else if SeqBefore(s.sndUna, g.ack) then
      if Finishing(s.state) then
        if g.ack != Wrap(s.finSeq + 1) then Stage(o, false)
        else Stage(o.(s := FinAcked(s, g.ack, e.now)), !s.state.LastAck?)
      else
        var n := Wrap(g.ack - s.sndUna);
        if n > |s.tx| then Stage(o, false)
        else Stage(o.(s := Acked(s, n, e.now)), true)
    else if g.ack == s.sndUna && |s.tx| > 0 && s.sndNxt != s.sndUna && |g.data| == 0
            && s.peerWindow == g.wnd then Stage(DuplicateAck(o, e), true)
    else Stage(o, true)
  }

  /** How much of the segment the receiver already has. */
  function Trim(s: Sock, g: Seg): nat {
    if SeqBefore(g.sq, s.rcvNxt) then Min(Wrap(s.rcvNxt - g.sq), |g.data|) else 0
  }

  function FinReceived(s: Sock, now: nat): Sock {
    var t := s.(peerFin := true, rcvNxt := Wrap(s.rcvNxt + 1));
    if s.state.Established? then t.(state := CloseWait)
    else if s.state.FinWait1? then t.(state := Closing)
    else if s.state.FinWait2? then t.(state := TimeWait, tm := s.tm.(deadline := now + 120000))
    else t
  }

  /** Receive-side effect of a segment whose untrimmed part starts exactly at rcvNxt. */
  function Absorb(s: Sock, rest: seq<byte>, fin: bool, now: nat): Sock {
    var take := Min(|rest|, Max(0, Window(s)));
    var t := s.(rx := s.rx + rest[..take], rcvNxt := Wrap(s.rcvNxt + take));
    if fin && take == |rest| && !s.peerFin then FinReceived(t, now) else t
  }

  function DataStage(o: Out, g: Seg, e: Env): Stage {
    var s := o.s.(peerWindow := g.wnd);
    var p := o.(s := s);
    if s.peerFin && |g.data| > 0 then Stage(Ack(p, e), false)
    else if |g.data| > 0 || g.fin then
      var trim := Trim(s, g);
      if Wrap(g.sq + trim) != s.rcvNxt then Stage(Ack(p, e), false)
      else Stage(Ack(p.(s := Absorb(s, g.data[trim..], g.fin, e.now)), e), true)
    else Stage(p, true)
  }

  /** A segment that passed the window, RST, SYN and ACK checks. */
  function InputData(o: Out, g: Seg, e: Env): Out {
    var a := AckStage(o, g, e);
    if !a.go then a.o
    else
      var d := DataStage(a.o, g, e);
      if !d.go then d.o else Pump(d.o, e)
  }

  function InputOpen(o: Out, g: Seg, e: Env): Out {
    var s := o.s;
    if !Acceptable(s.rcvNxt, Window(s), g) then (if g.rst then o else Ack(o, e))
    else if g.rst then
      if g.sq == s.rcvNxt then o.(s := Fail(s, ECONNRESET, e.now))
      else if e.allow then Ack(o, e) else o
    else if g.syn then (if e.allow then Ack(o, e) else o)
    else if !g.ackf then o
    else if SeqBefore(s.sndNxt, g.ack) then Ack(o, e)
    else InputData(o, g, e)
  }

  /** net_tcp_input once the segment has been matched to this socket. */
  function Input(s: Sock, g: Seg, e: Env): Out {
    var o := Out(s, [], 0);
    if s.state.SynSent? then InputSynSent(o, g, e)
    else if s.state.TimeWait? then
      if g.fin then
        var p := Ack(o, e);
        p.(s := s.(tm := s.tm.(deadline := e.now + 120000)))
      else o
    else if s.state.Error? then o
    else if s.state.SynRcvd? && g.syn && Wrap(g.sq + 1) == s.rcvNxt then
      Pump(o.(s := s.(tm := s.tm.(sentAt := 0))), e)
    else InputOpen(o, g, e)
  }

  function NewSock(st: State, iss: u32, rcvNxt: u32, mss: pos, wnd: nat): Sock {
    Sock(true, false, false, false, st, iss, Wrap(iss + 1), rcvNxt, iss, 0, wnd, [], [], 0,
         Timer(false, 0, 0, 1000, 0, 0, 0, 0), Flow(mss, mss * 2, 65535, 0))
  }

  /** k_net_connect on a fresh socket: the SYN is sent by the pump. */
  function Connect(iss: u32, mss: pos, e: Env): Out {
    Pump(Out(NewSock(SynSent, iss, 0, mss, 65535), [], 0), e)
  }

  /** A SYN accepted by a listener creates the child socket. */
  function Accept(iss: u32, g: Seg, e: Env): Out {
    Pump(Out(NewSock(SynRcvd, iss, Wrap(g.sq + 1), ChosenMss(g, e), g.wnd), [], 0), e)
  }

  datatype SendResult = SendResult(o: Out, code: int)

  /** The TCP branch of k_net_send; code is the number of bytes taken or an error. */
  function Send(s: Sock, bytes: seq<byte>, e: Env): SendResult {
    var o := Out(s, [], 0);
    if s.state.Error? then SendResult(o, s.error)
    else if !Sending(s.state) || s.closeReq then SendResult(o, EINVAL)
    else
      var take := Min(|bytes|, Max(0, STREAM - |s.tx|));
      if take == 0 && |bytes| > 0 then SendResult(o, EAGAIN)
      else SendResult(Pump(o.(s := s.(tx := s.tx + bytes[..take])), e), take)
  }

  datatype RecvResult = RecvResult(o: Out, bytes: seq<byte>, code: int)

  /** The TCP branch of k_net_receive. */
  function Receive(s: Sock, n: nat, e: Env): RecvResult {
    var o := Out(s, [], 0);
    if n == 0 then RecvResult(o, [], 0)
    else if |s.rx| > 0 then
      var take := Min(n, |s.rx|);
      RecvResult(Ack(o.(s := s.(rx := s.rx[take..])), e), s.rx[..take], take)
    else RecvResult(o, [], if s.peerFin then 0 else if s.state.Error? then s.error else EAGAIN)
  }

  /** net_close_internal for a socket that has a connection. */
  function Close(s: Sock, e: Env): Out {
    var o := Out(s, [], 0);
    if s.state.Error? then o.(s := s.(used := false))
    else if Opening(s.state) then
      var p := Emit(o, Packet(s, s.sndNxt, false, false, true, []).(rst := true), e);
      p.(s := s.(used := false))
    else Pump(o.(s := s.(detached := true, closeReq := true)), e)
  }

  /** Effect of an ICMP "packet too big" that quotes a segment in flight. */
  function PathMtu(s: Sock, mss: pos): Sock {
    if mss < s.fl.mss then
      s.(fl := s.fl.(mss := mss), tm := s.tm.(sentAt := 0, retransmitted := true))
    else s
  }
}
