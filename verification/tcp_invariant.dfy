/**
 What every call keeps true of one socket, whatever segments arrive: the
 sender and close invariant (Inv), the tie between the socket and the bytes
 the application handed in (Sent), and the shape of every emitted segment.
 */
module TcpInvariant {
  import opened Basics
  import opened Tcp

  /** Streams longer than this could reuse a sequence number that is still in flight. */
  const MAX_STREAM := U32 - 2048

  /** Segment sizes as the families define them; error codes are negative. */
  ghost predicate EnvOk(e: Env) { e.base <= 1440 && forall k :: e.send(k) <= 0 }

  ghost predicate PeerFinState(st: State) {
    st.CloseWait? || st.Closing? || st.LastAck? || st.TimeWait?
  }

  ghost predicate TimerOk(t: Timer) {
    1000 <= t.rto <= 60000 && t.retry <= MAX_RETRY && t.srtt <= 60000 && t.rttvar <= 60000
  }

  ghost predicate FlowOk(f: Flow) { f.mss <= 1440 && f.cwnd <= STREAM }

  ghost predicate Bounds(s: Sock) {
    |s.rx| <= STREAM && |s.tx| <= STREAM && TimerOk(s.tm) && FlowOk(s.fl)
  }

  ghost predicate Numbers(s: Sock) {
    && (Opening(s.state) ==>
          s.sndUna == s.iss && s.sndNxt == Wrap(s.iss + 1) && s.tx == [] && s.rx == [] && !s.closeReq)
    && (Sending(s.state) ==> Flight(s) <= |s.tx|)
    && (Finishing(s.state) ==>
          s.tx == [] && s.sndUna == s.finSeq && s.sndNxt == Wrap(s.finSeq + 1) && s.closeReq)
    && (s.state.FinWait2? || s.state.TimeWait? ==>
          s.tx == [] && s.sndUna == s.sndNxt == Wrap(s.finSeq + 1) && s.closeReq)
    && (if s.state.Error? then s.error < 0 else (s.peerFin <==> PeerFinState(s.state)))
  }

  /** The sender and close invariant. */
  ghost predicate Inv(s: Sock) { s.used ==> Bounds(s) && Numbers(s) }

  /** The application can add no more bytes to this socket. */
  ghost predicate Frozen(s: Sock) { !s.used || !(Opening(s.state) || Sending(s.state)) }

  /** acc is the stream accepted from the application so far; tx is its unacknowledged tail. */
  ghost predicate Sent(s: Sock, acc: seq<byte>) {
    s.used ==>
      && (Opening(s.state) ==> acc == [])
      && (Sending(s.state) ==>
            |s.tx| <= |acc| && s.tx == acc[|acc| - |s.tx|..]
            && s.sndUna == Wrap(s.iss + 1 + |acc| - |s.tx|))
      && (Finishing(s.state) || s.state.FinWait2? || s.state.TimeWait? ==>
            s.finSeq == Wrap(s.iss + 1 + |acc|))
  }

  ghost function Offset(g: Seg, iss: u32): nat { Wrap(g.sq - iss - 1) }

  /** A segment as this sender may emit it: data copied from the accepted stream at its own offset. */
  ghost predicate SegOk(g: Seg, iss: u32, acc: seq<byte>, frozen: bool) {
    g.rst ||
    if g.syn then g.sq == iss && g.data == [] && !g.fin
    else
      && |g.data| <= 1440
      && (g.data != [] ==>
            Offset(g, iss) + |g.data| <= |acc|
            && g.data == acc[Offset(g, iss)..Offset(g, iss) + |g.data|])
      && (g.fin ==> frozen && g.data == [] && g.sq == Wrap(iss + 1 + |acc|))
  }

  ghost predicate SegsOk(gs: seq<Seg>, iss: u32, acc: seq<byte>, frozen: bool) {
    forall i :: 0 <= i < |gs| ==> SegOk(gs[i], iss, acc, frozen)
  }

  ghost predicate SameReceiver(s: Sock, t: Sock) {
    s.rx == t.rx && s.rcvNxt == t.rcvNxt && s.peerFin == t.peerFin && s.iss == t.iss
  }

  /** State of a call in progress: socket in order, and every segment so far well formed. */
  ghost predicate Good(o: Out, acc: seq<byte>) {
    Inv(o.s) && Sent(o.s, acc) && SegsOk(o.segs, o.s.iss, acc, Frozen(o.s))
  }

  /** A dead socket stays dead, a failed one stays failed, and only input leaves SYN-SENT. */
  ghost predicate Later(s: Sock, t: Sock) {
    && (t.used ==> s.used)
    && (t.used && !t.state.Error? ==> !s.state.Error? && (s.state.SynSent? ==> t.state.SynSent?))
    && (Opening(t.state) ==> t.state == s.state)
  }

  /** One part of a call: keeps Good and never thaws a frozen sender. */
  ghost predicate Holds(o: Out, p: Out, acc: seq<byte>) {
    Good(p, acc) && o.s.iss == p.s.iss && (Frozen(o.s) ==> Frozen(p.s))
  }

  /** A part that also leaves the receive side alone. */
  ghost predicate Keeps(o: Out, p: Out, acc: seq<byte>) {
    Holds(o, p, acc) && SameReceiver(o.s, p.s) && Later(o.s, p.s)
  }

  lemma {:induction false} WrapIsMod(x: int)
    ensures Wrap(x) == x % U32
    decreases if x < 0 then U32 - x else x
  {
    if x < 0 {
      WrapIsMod(x + U32);
    } else if x >= U32 {
      WrapIsMod(x - U32);
    }
  }

  lemma WrapAdd(a: int, b: int)
    ensures Wrap(Wrap(a) + b) == Wrap(a + b)
  {
    WrapIsMod(a);
    WrapIsMod(Wrap(a) + b);
    WrapIsMod(a + b);
  }

  lemma WrapSmall(a: int)
    requires 0 <= a < U32
    ensures Wrap(a) == a
  {
  }

  lemma Freeze(gs: seq<Seg>, iss: u32, acc: seq<byte>, f: bool, f': bool)
    requires SegsOk(gs, iss, acc, f) && (f ==> f')
    ensures SegsOk(gs, iss, acc, f')
  {
    hide Wrap;
  }

  lemma FailKeeps(o: Out, err: int, now: nat, acc: seq<byte>)
    requires Good(o, acc) && err < 0
    ensures Keeps(o, o.(s := Fail(o.s, err, now)), acc)
  {
    hide SegOk, Wrap;
    Freeze(o.segs, o.s.iss, acc, Frozen(o.s), Frozen(Fail(o.s, err, now)));
  }

  lemma RttBounds(t: Timer, now: nat)
    requires TimerOk(t)
    ensures TimerOk(Rtt(t, now))
  {
  }

  /** A slice of the transmit buffer sits at the matching offset of the accepted stream. */
  lemma DataSegOk(s: Sock, acc: seq<byte>, from: nat, n: nat, frozen: bool)
    requires s.used && Sending(s.state) && Bounds(s) && Numbers(s) && Sent(s, acc)
    requires |acc| < MAX_STREAM
    requires from + n <= |s.tx| && n <= 1440
    ensures SegOk(Packet(s, s.sndUna + from, false, false, true, s.tx[from..from + n]), s.iss, acc, frozen)
  {
    var g := Packet(s, s.sndUna + from, false, false, true, s.tx[from..from + n]);
    var b := |acc| - |s.tx|;
    WrapAdd(s.iss + 1 + b, from);
    WrapAdd(s.iss + 1 + b + from, -1 - s.iss);
    WrapSmall(b + from);
    assert Offset(g, s.iss) == b + from;
    assert s.tx[from..from + n] == acc[b + from..b + from + n];
  }

  lemma ResendSegOk(s: Sock, acc: seq<byte>)
    requires s.used && Inv(s) && Sent(s, acc) && |acc| < MAX_STREAM
    requires Opening(s.state) || Finishing(s.state) || (Sending(s.state) && |s.tx| > 0)
    ensures SegOk(ResendSeg(s), s.iss, acc, Frozen(s))
  {
    hide Wrap;
    WrapSmall(s.iss);
    WrapSmall(s.finSeq);
    if Sending(s.state) {
      var n := Min(s.fl.mss, Flight(s));
      DataSegOk(s, acc, 0, n, Frozen(s));
      assert Take(s.tx, n) == s.tx[0..0 + n];
    }
  }

  lemma AppendOk(gs: seq<Seg>, g: Seg, iss: u32, acc: seq<byte>, f: bool, f': bool)
    requires SegsOk(gs, iss, acc, f) && SegOk(g, iss, acc, f') && (f ==> f')
    ensures SegsOk(gs + [g], iss, acc, f')
  {
    hide Wrap;
  }

  lemma EmitKeeps(o: Out, g: Seg, e: Env, acc: seq<byte>)
    requires Good(o, acc) && SegOk(g, o.s.iss, acc, Frozen(o.s))
    ensures Keeps(o, Emit(o, g, e), acc)
  {
    hide Inv, Sent, Wrap;
    AppendOk(o.segs, g, o.s.iss, acc, Frozen(o.s), Frozen(o.s));
  }

  lemma AckKeeps(o: Out, e: Env, acc: seq<byte>)
    requires Good(o, acc)
    ensures Keeps(o, Ack(o, e), acc) && Ack(o, e).s == o.s
  {
    hide Inv, Sent, Wrap;
    EmitKeeps(o, Packet(o.s, o.s.sndNxt, false, false, true, []), e, acc);
  }

  /** Timers and congestion state touch no sequence number, buffer or state. */
  ghost predicate SameProtocol(s: Sock, t: Sock) { t == s.(tm := t.tm, fl := t.fl) }

  lemma SameProtocolKeeps(o: Out, t: Sock, acc: seq<byte>)
    requires Good(o, acc) && SameProtocol(o.s, t) && (t.used ==> TimerOk(t.tm) && FlowOk(t.fl))
    ensures Keeps(o, o.(s := t), acc)
  {
    hide SegOk, Wrap;
  }

  lemma ResentKeeps(o: Out, now: nat, acc: seq<byte>)
    requires o.s.used && Good(o, acc) && |acc| < MAX_STREAM && o.s.tm.retry < MAX_RETRY
    requires Opening(o.s.state) || Finishing(o.s.state) || (Sending(o.s.state) && |o.s.tx| > 0)
    ensures Keeps(o, Out(Resent(o.s, now), o.segs + [ResendSeg(o.s)], o.k + 1), acc)
  {
    hide SegOk, Wrap, ResendSeg;
    var s := o.s;
    ResendSegOk(s, acc);
    AppendOk(o.segs, ResendSeg(s), s.iss, acc, Frozen(s), Frozen(s));
    SameProtocolKeeps(Out(s, o.segs + [ResendSeg(s)], o.k + 1), Resent(s, now), acc);
  }

  lemma ResendShape(o: Out, e: Env)
    ensures Resend(o, e).go ==> SameProtocol(o.s, Resend(o, e).o.s)
  {
    hide Wrap;
  }

  lemma ResendKeeps(o: Out, e: Env, acc: seq<byte>)
    requires EnvOk(e)
    requires o.s.used && !o.s.state.Error? && Good(o, acc) && |acc| < MAX_STREAM
    ensures Keeps(o, Resend(o, e).o, acc)
  {
    hide SegOk, Wrap, ResendSeg, Resent;
    var s := o.s;
    var control := Opening(s.state) || Finishing(s.state);
    if !(control || (s.sndNxt != s.sndUna && |s.tx| > 0)) {
      assert Resend(o, e).o == o;
    } else if !(s.tm.sentAt == 0 || Elapsed(e.now, s.tm.sentAt) >= s.tm.rto) {
      assert Resend(o, e).o == o;
    } else if s.tm.retry >= MAX_RETRY {
      FailKeeps(o, ETIMEDOUT, e.now, acc);
    } else if e.send(o.k) == 0 {
      assert control || Sending(s.state);
      ResentKeeps(o, e.now, acc);
    } else if e.send(o.k) != EAGAIN {
      FailKeeps(o.(k := o.k + 1), e.send(o.k), e.now, acc);
    }
  }

  lemma FlightAdvance(s: Sock, n: nat)
    requires Flight(s) + n < U32
    ensures Wrap(Wrap(s.sndNxt + n) - s.sndUna) == Flight(s) + n
    ensures s.sndNxt == Wrap(s.sndUna + Flight(s))
  {
    WrapAdd(s.sndNxt + n, 0 - s.sndUna);
    WrapIsMod(s.sndNxt - s.sndUna);
    WrapIsMod(s.sndNxt - s.sndUna + n);
    WrapIsMod(s.sndUna + Flight(s));
  }

  lemma AdvanceKeeps(s: Sock, n: nat, tm: Timer, acc: seq<byte>)
    requires s.used && Sending(s.state) && Inv(s) && Sent(s, acc) && Flight(s) + n <= |s.tx| && TimerOk(tm)
    ensures var u := s.(sndNxt := Wrap(s.sndNxt + n), tm := tm);
            Inv(u) && Sent(u, acc) && Flight(u) == Flight(s) + n
  {
    hide SegOk, Wrap, TimerOk, FlowOk;
    FlightAdvance(s, n);
    var u := s.(sndNxt := Wrap(s.sndNxt + n), tm := tm);
    assert Flight(u) == Flight(s) + n;
    hide Flight;
    assert Bounds(u);
    assert Numbers(u);
    assert u.tx == s.tx && u.sndUna == s.sndUna && u.iss == s.iss && u.state == s.state;
    assert Sent(u, acc);
  }

  lemma NextSegOk(s: Sock, n: nat, acc: seq<byte>)
    requires s.used && Sending(s.state) && Inv(s) && Sent(s, acc) && |acc| < MAX_STREAM
    requires Flight(s) + n <= |s.tx| && n <= s.fl.mss
    ensures SegOk(Packet(s, s.sndNxt, false, false, true, s.tx[Flight(s)..Flight(s) + n]), s.iss, acc, Frozen(s))
  {
    hide Wrap;
    FlightAdvance(s, n);
    WrapSmall(s.sndNxt);
    DataSegOk(s, acc, Flight(s), n, Frozen(s));
  }

  lemma SendOneKeeps(o: Out, inflight: nat, n: nat, now: nat, acc: seq<byte>)
    requires o.s.used && Sending(o.s.state) && Good(o, acc) && |acc| < MAX_STREAM
    requires inflight == Flight(o.s) && inflight + n <= |o.s.tx| && n <= o.s.fl.mss
    ensures Keeps(o, SendOne(o, inflight, n, now), acc)
    ensures Flight(SendOne(o, inflight, n, now).s) == inflight + n
  {
    hide SegOk, Wrap;
    var s := o.s;
    var p := SendOne(o, inflight, n, now);
    NextSegOk(s, n, acc);
    AppendOk(o.segs, Packet(s, s.sndNxt, false, false, true, s.tx[inflight..inflight + n]), s.iss, acc, Frozen(s), Frozen(s));
    AdvanceKeeps(s, n, p.s.tm, acc);
  }

  lemma KeepsTransitive(o: Out, p: Out, q: Out, acc: seq<byte>)
    requires Keeps(o, p, acc) && Keeps(p, q, acc)
    ensures Keeps(o, q, acc)
  {
    hide SegOk, Wrap;
  }

  lemma SendBlockedKeeps(o: Out, r: int, e: Env, acc: seq<byte>)
    requires Good(o, acc) && r < 0
    ensures Keeps(o, o.(s := if r == EAGAIN then o.s else Fail(o.s, r, e.now), k := o.k + 1), acc)
  {
    hide SegOk, Wrap;
    FailKeeps(o, r, e.now, acc);
  }

  lemma {:induction false} SendNewKeeps(o: Out, inflight: nat, window: nat, e: Env, acc: seq<byte>)
    requires EnvOk(e)
    requires o.s.used && Sending(o.s.state) && Good(o, acc) && |acc| < MAX_STREAM
    requires inflight == Flight(o.s)
    ensures Keeps(o, SendNew(o, inflight, window, e).o, acc)
    decreases |o.s.tx| - inflight
  {
    hide SegOk, Wrap, Packet;
    var s := o.s;
    if inflight < |s.tx| && inflight < window {
      var n := Min(s.fl.mss, Min(|s.tx| - inflight, window - inflight));
      var r := e.send(o.k);
      if r == 0 {
        var p := SendOne(o, inflight, n, e.now);
        assert SendNew(o, inflight, window, e) == SendNew(p, inflight + n, window, e);
        SendOneKeeps(o, inflight, n, e.now, acc);
        SendNewKeeps(p, inflight + n, window, e, acc);
        KeepsTransitive(o, p, SendNew(p, inflight + n, window, e).o, acc);
      } else {
        SendBlockedKeeps(o, r, e, acc);
      }
    } else {
      assert SendNew(o, inflight, window, e).o == o;
    }
  }

  /** New data never passes sndUna plus the window the loop was given. */
  lemma {:induction false} SendNewWithinWindow(o: Out, inflight: nat, window: nat, e: Env)
    requires inflight == Flight(o.s) && |o.s.tx| <= STREAM
    ensures Flight(SendNew(o, inflight, window, e).o.s) <= Max(inflight, window)
    decreases |o.s.tx| - inflight
  {
    hide Wrap, Packet;
    var s := o.s;
    if inflight < |s.tx| && inflight < window && e.send(o.k) == 0 {
      var n := Min(s.fl.mss, Min(|s.tx| - inflight, window - inflight));
      FlightAdvance(s, n);
      SendNewWithinWindow(SendOne(o, inflight, n, e.now), inflight + n, window, e);
    }
  }

  lemma {:induction false} SendNewShape(o: Out, inflight: nat, window: nat, e: Env)
    ensures var r := SendNew(o, inflight, window, e);
            && r.o.s.tx == o.s.tx && r.o.s.sndUna == o.s.sndUna
            && (r.go ==> r.o.s.used == o.s.used && r.o.s.state == o.s.state && r.o.s.closeReq == o.s.closeReq)
            && r.o.s.fl == o.s.fl && r.o.s.peerWindow == o.s.peerWindow
    decreases |o.s.tx| - inflight
  {
    hide Wrap;
    var s := o.s;
    if inflight < |s.tx| && inflight < window && e.send(o.k) == 0 {
      var n := Min(s.fl.mss, Min(|s.tx| - inflight, window - inflight));
      SendNewShape(SendOne(o, inflight, n, e.now), inflight + n, window, e);
    }
  }

  lemma PersistKeeps(o: Out, e: Env, acc: seq<byte>)
    requires Good(o, acc)
    ensures Keeps(o, Persist(o, e), acc)
    ensures SameProtocol(o.s, Persist(o, e).s)
  {
    hide Wrap;
    if Persist(o, e) != o {
      EmitKeeps(o, Packet(o.s, o.s.sndUna - 1, false, false, true, []), e, acc);
    }
  }

  lemma StartFinKeeps(o: Out, acc: seq<byte>)
    requires o.s.used && Sending(o.s.state) && o.s.closeReq && |o.s.tx| == 0 && Good(o, acc)
    ensures Keeps(o, o.(s := StartFin(o.s)), acc)
    ensures Flight(o.s) == 0
  {
    hide SegOk;
    Freeze(o.segs, o.s.iss, acc, Frozen(o.s), true);
    WrapIsMod(o.s.sndNxt - o.s.sndUna);
    assert Flight(o.s) == 0;
    assert o.s.sndNxt == o.s.sndUna;
    var t := StartFin(o.s);
    assert Sent(t, acc);
    assert Inv(t);
  }

  lemma PumpLiveKeeps(o: Out, e: Env, acc: seq<byte>)
    requires EnvOk(e)
    requires o.s.used && !o.s.state.Error? && Good(o, acc) && |acc| < MAX_STREAM
    ensures Keeps(o, PumpLive(o, e), acc)
  {
    hide SegOk, Wrap, Resend, SendNew, Persist;
    ResendKeeps(o, e, acc);
    ResendShape(o, e);
    var r := Resend(o, e);
    if r.go && Sending(r.o.s.state) {
      var t := r.o.s;
      SendNewKeeps(r.o, Flight(t), Min(t.peerWindow, t.fl.cwnd), e, acc);
      SendNewShape(r.o, Flight(t), Min(t.peerWindow, t.fl.cwnd), e);
      var n := SendNew(r.o, Flight(t), Min(t.peerWindow, t.fl.cwnd), e);
      if n.go {
        PersistKeeps(n.o, e, acc);
        var p := Persist(n.o, e);
        if p.s.closeReq && |p.s.tx| == 0 {
          StartFinKeeps(p, acc);
          ResendKeeps(p.(s := StartFin(p.s)), e, acc);
        }
      }
    }
  }

  lemma PumpKeeps(o: Out, e: Env, acc: seq<byte>)
    requires Good(o, acc) && |acc| < MAX_STREAM && EnvOk(e)
    ensures Keeps(o, Pump(o, e), acc)
  {
    hide SegOk, Wrap, PumpLive;
    var s := o.s;
    if s.used {
      if s.state.FinWait2? && e.now >= s.tm.deadline {
        FailKeeps(o, ETIMEDOUT, e.now, acc);
      } else if !s.state.TimeWait? && !s.state.Error? {
        if e.up {
          SameProtocolKeeps(o, Clamp(s, e), acc);
          PumpLiveKeeps(o.(s := Clamp(s, e)), e, acc);
        } else {
          FailKeeps(o, ENETDOWN, e.now, acc);
        }
      }
    }
  }

  lemma HoldsTransitive(o: Out, p: Out, q: Out, acc: seq<byte>)
    requires Holds(o, p, acc) && Holds(p, q, acc)
    ensures Holds(o, q, acc)
  {
    hide SegOk, Wrap;
  }

  /** An acknowledgement is new and not ahead of sndNxt exactly when it covers bytes in flight, whatever its source. */
  lemma AckInFlight(s: Sock, ack: u32)
    requires Flight(s) <= STREAM + 1
    ensures SeqBefore(s.sndUna, ack) && !SeqBefore(s.sndNxt, ack) <==> 0 < Wrap(ack - s.sndUna) <= Flight(s)
    ensures 0 < Wrap(ack - s.sndUna) <= Flight(s) ==>
              && Wrap(s.sndUna + Wrap(ack - s.sndUna)) == ack
              && Wrap(s.sndNxt - ack) == Flight(s) - Wrap(ack - s.sndUna)
  {
    WrapIsMod(s.sndUna - ack);
    WrapIsMod(s.sndNxt - ack);
    WrapIsMod(ack - s.sndUna);
    WrapIsMod(s.sndNxt - s.sndUna);
  }

  lemma GrowOk(f: Flow, n: nat)
    requires FlowOk(f)
    ensures FlowOk(Grow(f, n))
  {
  }

  lemma AckedKeeps(o: Out, ack: u32, now: nat, acc: seq<byte>)
    requires o.s.used && Sending(o.s.state) && Good(o, acc)
    requires SeqBefore(o.s.sndUna, ack) && !SeqBefore(o.s.sndNxt, ack)
    ensures Wrap(ack - o.s.sndUna) <= |o.s.tx|
    ensures Keeps(o, o.(s := Acked(o.s, Wrap(ack - o.s.sndUna), now)), acc)
  {
    hide SegOk, Rtt, Grow, Wrap;
    var s := o.s;
    AckInFlight(s, ack);
    var n := Wrap(ack - s.sndUna);
    var t := Acked(s, n, now);
    RttBounds(s.tm, now);
    GrowOk(s.fl, n);
    assert Numbers(t);
    assert Sent(t, acc) by {
      WrapAdd(s.iss + 1 + |acc| - |s.tx|, n);
      assert t.tx == acc[|acc| - |t.tx|..];
    }
  }

  lemma FinAckedKeeps(o: Out, now: nat, acc: seq<byte>)
    requires o.s.used && Finishing(o.s.state) && Good(o, acc)
    ensures Keeps(o, o.(s := FinAcked(o.s, Wrap(o.s.finSeq + 1), now)), acc)
  {
    hide SegOk, Wrap;
    Freeze(o.segs, o.s.iss, acc, Frozen(o.s), true);
  }

  lemma DuplicateAckKeeps(o: Out, e: Env, acc: seq<byte>)
    requires o.s.used && Sending(o.s.state) && Good(o, acc) && |acc| < MAX_STREAM && |o.s.tx| > 0
    ensures Keeps(o, DuplicateAck(o, e), acc)
  {
    hide Wrap, SegOk;
    var t := DuplicateAck(o, e).s;
    SameProtocolKeeps(o, t, acc);
    if t.fl.dupacks == 3 {
      var n := Min(t.fl.mss, Flight(t));
      DataSegOk(t, acc, 0, n, Frozen(t));
      assert Take(t.tx, n) == t.tx[0..0 + n];
      EmitKeeps(o.(s := t), Packet(t, t.sndUna, false, false, true, Take(t.tx, n)), e, acc);
    }
  }

  ghost predicate Accepting(s: Sock) {
    s.used && !s.state.Error? && !s.state.SynSent? && !s.state.TimeWait?
  }

  lemma OpenedKeeps(o: Out, ack: u32, now: nat, acc: seq<byte>)
    requires o.s.used && o.s.state.SynRcvd? && Good(o, acc) && ack == o.s.sndNxt
    ensures var t := o.s.(sndUna := ack, state := Established, tm := Rtt(o.s.tm, now).(sentAt := 0));
            Keeps(o, o.(s := t), acc)
  {
    hide SegOk, Rtt, Wrap;
    RttBounds(o.s.tm, now);
    WrapSmall(0);
  }

  /** An acknowledgement of something new: of the FIN, or of data. */
  lemma NewAckKeeps(o: Out, g: Seg, e: Env, acc: seq<byte>)
    requires Accepting(o.s) && !o.s.state.SynRcvd? && Good(o, acc)
    requires SeqBefore(o.s.sndUna, g.ack) && !SeqBefore(o.s.sndNxt, g.ack)
    ensures Keeps(o, AckStage(o, g, e).o, acc)
  {
    hide SegOk, Wrap, Acked, FinAcked, Rtt;
    var s := o.s;
    if Finishing(s.state) {
      if g.ack == Wrap(s.finSeq + 1) {
        FinAckedKeeps(o, e.now, acc);
      } else {
        assert AckStage(o, g, e).o == o;
      }
    } else if Sending(s.state) {
      AckedKeeps(o, g.ack, e.now, acc);
    }
  }

  lemma AckStageKeeps(o: Out, g: Seg, e: Env, acc: seq<byte>)
    requires Accepting(o.s) && Good(o, acc) && |acc| < MAX_STREAM
    requires !SeqBefore(o.s.sndNxt, g.ack)
    ensures Keeps(o, AckStage(o, g, e).o, acc)
  {
    hide SegOk, Wrap, Acked, FinAcked, DuplicateAck, Rtt;
    var s := o.s;
    if s.state.SynRcvd? {
      if g.ack == s.sndNxt && g.sq == s.rcvNxt {
        OpenedKeeps(o, g.ack, e.now, acc);
      } else {
        assert AckStage(o, g, e).o == o;
      }
    } else if SeqBefore(s.sndUna, g.ack) {
      NewAckKeeps(o, g, e, acc);
    } else if g.ack == s.sndUna && |s.tx| > 0 && s.sndNxt != s.sndUna && |g.data| == 0
              && s.peerWindow == g.wnd {
      DuplicateAckKeeps(o, e, acc);
    } else {
      assert AckStage(o, g, e).o == o;
    }
  }

  lemma AckStageShape(o: Out, g: Seg, e: Env)
    requires Accepting(o.s)
    ensures AckStage(o, g, e).go ==>
              var t := AckStage(o, g, e).o.s; t.used && !Opening(t.state) && !t.state.Error?
  {
    hide Wrap;
  }

  lemma AbsorbHolds(o: Out, rest: seq<byte>, fin: bool, now: nat, acc: seq<byte>)
    requires o.s.used && !o.s.state.Error? && !Opening(o.s.state) && Good(o, acc)
    ensures Holds(o, o.(s := Absorb(o.s, rest, fin, now)), acc)
  {
    hide SegOk, Wrap;
  }

  lemma DataStageHolds(o: Out, g: Seg, e: Env, acc: seq<byte>)
    requires o.s.used && !o.s.state.Error? && !Opening(o.s.state) && Good(o, acc)
    ensures Holds(o, DataStage(o, g, e).o, acc)
  {
    hide SegOk, Wrap, Absorb, Emit;
    var s := o.s.(peerWindow := g.wnd);
    var p := o.(s := s);
    assert Holds(o, p, acc);
    AckKeeps(p, e, acc);
    var trim := Trim(s, g);
    var q := p.(s := Absorb(s, g.data[trim..], g.fin, e.now));
    AbsorbHolds(p, g.data[trim..], g.fin, e.now, acc);
    AckKeeps(q, e, acc);
  }

  lemma InputDataHolds(o: Out, g: Seg, e: Env, acc: seq<byte>)
    requires Accepting(o.s) && Good(o, acc) && |acc| < MAX_STREAM && EnvOk(e)
    requires !SeqBefore(o.s.sndNxt, g.ack)
    ensures Holds(o, InputData(o, g, e), acc)
  {
    hide SegOk, Wrap, AckStage, DataStage, Pump;
    AckStageKeeps(o, g, e, acc);
    AckStageShape(o, g, e);
    var a := AckStage(o, g, e);
    if a.go {
      DataStageHolds(a.o, g, e, acc);
      var d := DataStage(a.o, g, e);
      HoldsTransitive(o, a.o, d.o, acc);
      if d.go {
        PumpKeeps(d.o, e, acc);
        HoldsTransitive(o, d.o, Pump(d.o, e), acc);
      }
    }
  }

  lemma InputOpenHolds(o: Out, g: Seg, e: Env, acc: seq<byte>)
    requires Accepting(o.s) && Good(o, acc) && |acc| < MAX_STREAM && EnvOk(e)
    ensures Holds(o, InputOpen(o, g, e), acc)
  {
    hide SegOk, Wrap, InputData, Emit, Acceptable;
    AckKeeps(o, e, acc);
    FailKeeps(o, ECONNRESET, e.now, acc);
    if !SeqBefore(o.s.sndNxt, g.ack) {
      InputDataHolds(o, g, e, acc);
    }
  }

  lemma InputSynSentHolds(o: Out, g: Seg, e: Env, acc: seq<byte>)
    requires o.s.used && o.s.state.SynSent? && Good(o, acc) && EnvOk(e)
    ensures Holds(o, InputSynSent(o, g, e), acc)
  {
    hide SegOk, Rtt, Wrap, Emit;
    FailKeeps(o, ECONNREFUSED, e.now, acc);
    if !g.rst && g.syn && g.ackf && g.ack == o.s.sndNxt && !g.opt.BadOptions? {
      var s := o.s;
      var m := ChosenMss(g, e);
      RttBounds(s.tm, e.now);
      WrapSmall(0);
      var t := s.(fl := s.fl.(mss := m, cwnd := m * 2), peerWindow := g.wnd, sndUna := g.ack,
                  rcvNxt := Wrap(g.sq + 1), state := Established,
                  tm := Rtt(s.tm, e.now).(sentAt := 0));
      assert Holds(o, o.(s := t), acc);
      AckKeeps(o.(s := t), e, acc);
    }
  }

  lemma InputTimeWaitHolds(s: Sock, g: Seg, e: Env, acc: seq<byte>)
    requires s.used && s.state.TimeWait? && Inv(s) && Sent(s, acc)
    ensures Holds(Out(s, [], 0), Input(s, g, e), acc)
  {
    hide SegOk, Wrap, Emit;
    var o := Out(s, [], 0);
    if g.fin {
      AckKeeps(o, e, acc);
      SameProtocolKeeps(Ack(o, e), s.(tm := s.tm.(deadline := e.now + 120000)), acc);
    }
  }

  lemma InputRepeatedSynHolds(s: Sock, e: Env, acc: seq<byte>)
    requires s.used && s.state.SynRcvd? && Inv(s) && Sent(s, acc) && EnvOk(e)
    ensures Keeps(Out(s, [], 0), Pump(Out(s.(tm := s.tm.(sentAt := 0)), [], 0), e), acc)
  {
    hide SegOk, Wrap, Pump;
    var o := Out(s, [], 0);
    var p := o.(s := s.(tm := s.tm.(sentAt := 0)));
    SameProtocolKeeps(o, p.s, acc);
    PumpKeeps(p, e, acc);
    KeepsTransitive(o, p, Pump(p, e), acc);
  }

  /** Any segment at all, genuine or forged, keeps the sender and close invariant. */
  lemma InputHolds(s: Sock, g: Seg, e: Env, acc: seq<byte>)
    requires s.used && Inv(s) && Sent(s, acc) && |acc| < MAX_STREAM && EnvOk(e)
    ensures Holds(Out(s, [], 0), Input(s, g, e), acc)
  {
    hide SegOk, Wrap, InputSynSent, InputOpen, Pump, Emit, Inv, Sent;
    var o := Out(s, [], 0);
    if s.state.SynSent? {
      InputSynSentHolds(o, g, e, acc);
      assert Input(s, g, e) == InputSynSent(o, g, e);
    } else if s.state.TimeWait? {
      InputTimeWaitHolds(s, g, e, acc);
    } else if s.state.Error? {
      assert Input(s, g, e) == o;
    } else if s.state.SynRcvd? && g.syn && Wrap(g.sq + 1) == s.rcvNxt {
      InputRepeatedSynHolds(s, e, acc);
    } else {
      InputOpenHolds(o, g, e, acc);
      assert Input(s, g, e) == InputOpen(o, g, e);
    }
  }

  lemma ResendStops(o: Out, e: Env)
    ensures !Resend(o, e).go || !Sending(o.s.state) ==> !Sending(Resend(o, e).o.s.state)
  {
    hide ResendSeg, Wrap;
  }

  lemma PersistShape(o: Out, e: Env)
    ensures SameProtocol(o.s, Persist(o, e).s) && Persist(o, e).s.fl == o.s.fl
  {
    hide Packet, Wrap;
  }

  lemma SameFlight(s: Sock, t: Sock)
    requires s.sndNxt == t.sndNxt && s.sndUna == t.sndUna
    ensures Flight(s) == Flight(t)
  {
  }

  lemma PumpLiveWithinWindow(o: Out, e: Env)
    requires |o.s.tx| <= STREAM
    requires Sending(PumpLive(o, e).s.state)
    ensures var t := PumpLive(o, e).s;
            t.sndUna == o.s.sndUna && Flight(t) <= Max(Flight(o.s), Min(t.peerWindow, t.fl.cwnd))
  {
    hide Resend, SendNew, Persist, Wrap;
    var r := Resend(o, e);
    ResendShape(o, e);
    ResendStops(o, e);
    assert r.go && Sending(r.o.s.state);
    var t := r.o.s;
    SendNewWithinWindow(r.o, Flight(t), Min(t.peerWindow, t.fl.cwnd), e);
    SendNewShape(r.o, Flight(t), Min(t.peerWindow, t.fl.cwnd), e);
    var n := SendNew(r.o, Flight(t), Min(t.peerWindow, t.fl.cwnd), e);
    if n.go {
      PersistShape(n.o, e);
      var p := Persist(n.o, e);
      ResendStops(p.(s := StartFin(p.s)), e);
    }
  }

  /** After a pump that leaves the connection open, unacknowledged data extends past what was
      already in flight only within min(peer window, congestion window). */
  lemma PumpWithinWindow(o: Out, e: Env)
    requires o.s.used && Inv(o.s)
    requires Sending(Pump(o, e).s.state)
    ensures var t := Pump(o, e).s;
            t.sndUna == o.s.sndUna && Flight(t) <= Max(Flight(o.s), Min(t.peerWindow, t.fl.cwnd))
  {
    hide PumpLive, Flight, Numbers;
    var c := o.(s := Clamp(o.s, e));
    assert Pump(o, e) == PumpLive(c, e);
    PumpLiveWithinWindow(c, e);
    assert Flight(c.s) == Flight(o.s) by { SameFlight(o.s, c.s); }
  }

  lemma AppendSent(s: Sock, more: seq<byte>, acc: seq<byte>)
    requires s.used && Sending(s.state) && Inv(s) && Sent(s, acc) && |s.tx| + |more| <= STREAM
    ensures Inv(s.(tx := s.tx + more)) && Sent(s.(tx := s.tx + more), acc + more)
  {
    hide Wrap;
    var acc' := acc + more;
    var tx' := s.tx + more;
    assert tx' == acc'[|acc'| - |tx'|..];
  }
}
