/**
 What the pump has to do, said without the functions that do it: what is resent and when, how much
 new data goes out and in which segments, probes, the FIN, and what becomes of the timer.
 */
module TcpPump {
  import opened Basics
  import opened Tcp
  import opened TcpInvariant

  ghost predicate Works(e: Env) { forall k :: e.send(k) == 0 }

  /** The segment size that the interface leaves. */
  function Size(s: Sock, e: Env): int { Min(s.fl.mss, e.limit) }

  /** Nothing was sent yet, or the retransmission timeout has passed since. */
  predicate Due(s: Sock, e: Env) { s.tm.sentAt == 0 || Elapsed(e.now, s.tm.sentAt) >= s.tm.rto }

  /** A segment with the socket's acknowledgment and window. */
  predicate Headed(s: Sock, g: Seg, sq: int, syn: bool, fin: bool) {
    g.sq == Wrap(sq) && g.syn == syn && g.fin == fin && !g.rst && g.wnd == Max(0, STREAM - |s.rx|)
    && (g.ackf ==> g.ack == s.rcvNxt) && (g.ackf <==> !s.state.SynSent?)
  }

  /** The oldest bytes in flight, as many as a segment takes. */
  predicate Oldest(s: Sock, e: Env, g: Seg) {
    Headed(s, g, s.sndUna, false, false) && Flight(s) <= |s.tx| && g.data == s.tx[..Min(Size(s, e), Flight(s))]
  }

  /** The segments carry tx[from..to], in order, each at its place in the stream, all but the last full. */
  predicate Carries(s: Sock, segs: seq<Seg>, from: nat, to: nat, size: int) {
    if segs == [] then from == to
    else
      var n := |segs[0].data|;
      && 0 < n <= size && from + n <= to <= |s.tx| && (from + n < to ==> n == size)
      && Headed(s, segs[0], s.sndUna + from, false, false) && segs[0].data == s.tx[from..from + n]
      && Carries(s, segs[1..], from + n, to, size)
  }

  ghost predicate SameBuffers(s: Sock, t: Sock) {
    t.tx == s.tx && t.rx == s.rx && t.sndUna == s.sndUna && t.rcvNxt == s.rcvNxt && t.state == s.state
  }

  lemma {:induction false} CarriesSame(s: Sock, t: Sock, segs: seq<Seg>, from: nat, to: nat, size: int)
    requires SameBuffers(s, t)
    ensures Carries(s, segs, from, to, size) <==> Carries(t, segs, from, to, size)
    decreases |segs|
  {
    hide Wrap;
    if segs != [] {
      CarriesSame(s, t, segs[1..], from + |segs[0].data|, to, size);
    }
  }

  lemma CarriesMore(s: Sock, g: Seg, rest: seq<Seg>, from: nat, to: nat, size: int)
    requires 0 < |g.data| <= size && from + |g.data| <= to <= |s.tx| && (from + |g.data| < to ==> |g.data| == size)
    requires Headed(s, g, s.sndUna + from, false, false) && g.data == s.tx[from..from + |g.data|] && Carries(s, rest, from + |g.data|, to, size)
    ensures Carries(s, [g] + rest, from, to, size)
  {
    hide Headed, Wrap;
    assert ([g] + rest)[1..] == rest;
  }

  /** One turn of the loop over new data. */
  lemma OneSent(o: Out, inflight: nat, n: nat, now: nat)
    requires Sending(o.s.state) && o.s.sndNxt == Wrap(o.s.sndUna + inflight) && inflight + n <= |o.s.tx|
    ensures var p := SendOne(o, inflight, n, now);
      && |p.segs| == |o.segs| + 1 && p.segs[..|o.segs|] == o.segs && p.segs[|o.segs|].data == o.s.tx[inflight..inflight + n]
      && Headed(o.s, p.segs[|o.segs|], o.s.sndUna + inflight, false, false) && SameBuffers(o.s, p.s)
      && (n > 0 ==> p.s == Advanced(o.s, inflight, inflight + n, now))
      && p.s.fl == o.s.fl && p.s.sndNxt == Wrap(o.s.sndUna + (inflight + n))
  {
    hide Wrap;
    WrapAdd(o.s.sndUna + inflight, n);
    WrapAdd(o.s.sndUna + inflight, 0);
  }

  /** The socket once the data in flight reaches from one place to another. */
  function Advanced(s: Sock, from: nat, to: nat, now: nat): Sock {
    s.(sndNxt := Wrap(s.sndUna + to), tm := if from == 0 && to > 0 then s.tm.(sentAt := Stamp(now), retransmitted := false) else s.tm)
  }

  lemma AdvancedJoin(s: Sock, from: nat, mid: nat, to: nat, now: nat)
    requires from < mid <= to
    ensures Advanced(Advanced(s, from, mid, now), mid, to, now) == Advanced(s, from, to, now)
    ensures SameBuffers(s, Advanced(s, from, mid, now))
  {
    hide Wrap;
  }

  /** The loop over new data, with sends that succeed. */
  lemma {:induction false} NewDataSent(o: Out, inflight: nat, window: nat, e: Env) returns (news: seq<Seg>)
    requires Works(e) && Sending(o.s.state) && o.s.sndNxt == Wrap(o.s.sndUna + inflight) && inflight <= |o.s.tx| <= STREAM
    ensures var to := Max(inflight, Min(|o.s.tx|, window));
      var n := SendNew(o, inflight, window, e);
      && n.go && n.o.segs == o.segs + news && Carries(o.s, news, inflight, to, o.s.fl.mss) && n.o.s == Advanced(o.s, inflight, to, e.now)
    decreases |o.s.tx| - inflight
  {
    hide Wrap, SendOne, Carries, Headed, Advanced;
    var s, to := o.s, Max(inflight, Min(|o.s.tx|, window));
    if inflight < |s.tx| && inflight < window {
      var n := Min(s.fl.mss, Min(|s.tx| - inflight, window - inflight));
      var p := SendOne(o, inflight, n, e.now);
      assert SendNew(o, inflight, window, e) == SendNew(p, inflight + n, window, e);
      OneSent(o, inflight, n, e.now);
      AdvancedJoin(s, inflight, inflight + n, to, e.now);
      hide SendNew;
      var rest := NewDataSent(p, inflight + n, window, e);
      var g := p.segs[|o.segs|];
      news := [g] + rest;
      CarriesSame(s, p.s, rest, inflight + n, to, s.fl.mss);
      CarriesMore(s, g, rest, inflight, to, s.fl.mss);
      assert p.segs + rest == o.segs + news;
    } else {
      news := [];
      CarriesNone(s, inflight, s.fl.mss);
      AdvancedNone(s, inflight, e.now);
    }
  }

  lemma AdvancedNone(s: Sock, from: nat, now: nat)
    requires s.sndNxt == Wrap(s.sndUna + from)
    ensures Advanced(s, from, from, now) == s
  {
    hide Wrap;
  }

  lemma CarriesNone(s: Sock, from: nat, size: int)
    ensures Carries(s, [], from, from, size)
  {
  }

  // ---------------------------------------------------------------- laws

  /** Data in flight whose time has come. */
  predicate Repeats(s: Sock, e: Env) { Due(s, e) && Flight(s) > 0 && |s.tx| > 0 }

  predicate GivesUp(s: Sock, e: Env) { Due(s, e) && s.tm.retry >= MAX_RETRY }

  /** Backing off after a repeat of what was sent before. */
  ghost predicate BackedOff(s: Sock, t: Sock, e: Env) {
    if s.tm.sentAt == 0 then t.tm == s.tm.(sentAt := if e.now == 0 then 1 else e.now) && t.fl == s.fl.(mss := Size(s, e))
    else
      && t.tm == s.tm.(retry := s.tm.retry + 1, retransmitted := true, rto := Min(60000, 2 * s.tm.rto), sentAt := if e.now == 0 then 1 else e.now)
      && t.fl == s.fl.(mss := Size(s, e), cwnd := Size(s, e), threshold := Max(2 * Size(s, e), Min(s.fl.cwnd / 2, STREAM)))
  }

  /** A live socket whose local address is still there. */
  ghost predicate Live(s: Sock, e: Env) {
    s.used && Inv(s) && e.up && !s.state.Error? && !s.state.TimeWait? && (s.state.FinWait2? ==> e.now < s.tm.deadline)
  }

  lemma PumpIsLive(s: Sock, e: Env)
    requires Live(s, e)
    ensures Pump(Out(s, [], 0), e) == PumpLive(Out(Clamp(s, e), [], 0), e) && Clamp(s, e) == s.(fl := s.fl.(mss := Size(s, e)))
  {
    hide PumpLive, Inv;
  }

  /** SYN and FIN: sent when they are due, and nothing before. */
  ghost predicate Control(s: Sock, e: Env, sq: int, syn: bool) {
    var p := Pump(Out(s, [], 0), e);
    if GivesUp(s, e) then p.segs == [] && p.s.state.Error? && p.s.error == ETIMEDOUT
    else if !Due(s, e) then p.segs == [] && p.s == s.(fl := s.fl.(mss := Size(s, e)))
    else
      && |p.segs| == 1 && Headed(s, p.segs[0], sq, syn, !syn) && p.segs[0].data == []
      && BackedOff(s, p.s, e) && p.s == s.(tm := p.s.tm, fl := p.s.fl)
  }

  lemma ControlResent(s: Sock, e: Env)
    requires (Opening(s.state) || Finishing(s.state)) && Works(e)
    ensures var p := PumpLive(Out(s, [], 0), e);
      if GivesUp(s, e) then p.segs == [] && p.s.state.Error? && p.s.error == ETIMEDOUT
      else if !Due(s, e) then p.segs == [] && p.s == s
      else p.segs == [ResendSeg(s)] && p.s == Resent(s, e.now)
  {
    hide ResendSeg, Resent;
  }

  lemma ResentBacksOff(s: Sock, e: Env)
    ensures var t := Resent(s.(fl := s.fl.(mss := Size(s, e))), e.now); BackedOff(s, t, e) && t == s.(tm := t.tm, fl := t.fl)
  {
  }

  lemma SynIsSent(s: Sock, e: Env)
    requires Live(s, e) && Opening(s.state) && Works(e)
    ensures Control(s, e, s.iss, true)
  {
    hide Wrap, Inv, Pump, PumpLive, Resent, BackedOff;
    PumpIsLive(s, e);
    ControlResent(Clamp(s, e), e);
    ResentBacksOff(s, e);
  }

  lemma FinIsSent(s: Sock, e: Env)
    requires Live(s, e) && Finishing(s.state) && Works(e)
    ensures Control(s, e, s.finSeq, false)
  {
    hide Wrap, Inv, Pump, PumpLive, Resent, BackedOff;
    PumpIsLive(s, e);
    ControlResent(Clamp(s, e), e);
    ResentBacksOff(s, e);
  }

  // ---------------------------------------------------------------- an open connection

  /** Segments are only added. */
  lemma {:induction false} NewDataAdds(o: Out, inflight: nat, window: nat, e: Env)
    ensures o.segs <= SendNew(o, inflight, window, e).o.segs
    decreases |o.s.tx| - inflight
  {
    hide Wrap, Packet;
    var s := o.s;
    if inflight < |s.tx| && inflight < window && e.send(o.k) == 0 {
      var n := Min(s.fl.mss, Min(|s.tx| - inflight, window - inflight));
      var p := SendOne(o, inflight, n, e.now);
      assert SendNew(o, inflight, window, e) == SendNew(p, inflight + n, window, e);
      NewDataAdds(p, inflight + n, window, e);
    }
  }

  lemma ResendAdds(o: Out, e: Env)
    ensures o.segs <= Resend(o, e).o.segs
  {
    hide ResendSeg, Resent, Fail;
  }

  lemma PersistAdds(o: Out, e: Env)
    ensures o.segs <= Persist(o, e).segs
  {
    hide Packet;
  }

  lemma RestAdds(o: Out, e: Env)
    ensures Resend(o, e).o.segs <= PumpLive(o, e).segs
  {
    hide Resend, SendNew, Persist, Wrap, StartFin, Flight;
    var r := Resend(o, e);
    if r.go && Sending(r.o.s.state) {
      var t := r.o.s;
      NewDataAdds(r.o, Flight(t), Min(t.peerWindow, t.fl.cwnd), e);
      var n := SendNew(r.o, Flight(t), Min(t.peerWindow, t.fl.cwnd), e);
      if n.go {
        PersistAdds(n.o, e);
        var p := Persist(n.o, e);
        ResendAdds(p.(s := StartFin(p.s)), e);
      }
    }
  }

  /** When the timer is due the first thing sent is the oldest data in flight. */
  lemma OldestFirst(s: Sock, e: Env)
    requires Live(s, e) && Sending(s.state) && Repeats(s, e) && s.tm.retry < MAX_RETRY && e.send(0) == 0
    ensures var p := Pump(Out(s, [], 0), e); |p.segs| >= 1 && Oldest(s, e, p.segs[0])
  {
    hide Pump, PumpLive, Wrap, Bounds;
    PumpIsLive(s, e);
    var c := Clamp(s, e);
    var o := Out(c, [], 0);
    WrapSmall(0);
    assert s.sndNxt != s.sndUna;
    assert Resend(o, e).o.segs == [ResendSeg(c)];
    assert Oldest(s, e, ResendSeg(c));
    RestAdds(o, e);
  }

  /** The data of a segment is at or behind what is in flight. */
  predicate Fresh(s: Sock, g: Seg) { g.data != [] ==> Flight(s) <= Wrap(g.sq - s.sndUna) }

  lemma NextIsFresh(s: Sock, sndNxt: int, inflight: nat)
    requires sndNxt == Wrap(s.sndUna + inflight) && Flight(s) <= inflight < U32
    ensures Flight(s) <= Wrap(Wrap(sndNxt) - s.sndUna)
  {
    WrapIsMod(s.sndUna + inflight);
    WrapIsMod(Wrap(sndNxt) - s.sndUna);
  }

  predicate AllFresh(s: Sock, segs: seq<Seg>) { forall i :: 0 <= i < |segs| ==> Fresh(s, segs[i]) }

  lemma OneFresh(s: Sock, o: Out, inflight: nat, n: nat, now: nat)
    requires o.s.sndUna == s.sndUna && o.s.sndNxt == Wrap(s.sndUna + inflight) && Flight(s) <= inflight && inflight + n <= |o.s.tx| <= STREAM
    requires AllFresh(s, o.segs)
    ensures var p := SendOne(o, inflight, n, now);
      AllFresh(s, p.segs) && p.s.sndUna == s.sndUna && p.s.sndNxt == Wrap(s.sndUna + (inflight + n)) && p.s.tx == o.s.tx && p.s.fl == o.s.fl
  {
    hide Wrap, Flight;
    NextIsFresh(s, o.s.sndNxt, inflight);
    WrapAdd(s.sndUna + inflight, n);
  }

  lemma {:induction false} NewDataFresh(s: Sock, o: Out, inflight: nat, window: nat, e: Env)
    requires o.s.sndUna == s.sndUna && o.s.sndNxt == Wrap(s.sndUna + inflight) && Flight(s) <= inflight <= |o.s.tx| <= STREAM
    requires AllFresh(s, o.segs)
    ensures AllFresh(s, SendNew(o, inflight, window, e).o.segs)
    decreases |o.s.tx| - inflight
  {
    hide Wrap, Flight, AllFresh, SendOne;
    if inflight < |o.s.tx| && inflight < window && e.send(o.k) == 0 {
      var n := Min(o.s.fl.mss, Min(|o.s.tx| - inflight, window - inflight));
      assert SendNew(o, inflight, window, e) == SendNew(SendOne(o, inflight, n, e.now), inflight + n, window, e);
      OneFresh(s, o, inflight, n, e.now);
      NewDataFresh(s, SendOne(o, inflight, n, e.now), inflight + n, window, e);
    }
  }

  lemma EmptyFresh(s: Sock, some: seq<Seg>, all: seq<Seg>)
    requires AllFresh(s, some) && some <= all && forall i :: |some| <= i < |all| ==> all[i].data == []
    ensures AllFresh(s, all)
  {
    hide Wrap;
    assert forall i :: 0 <= i < |some| ==> all[i] == some[i];
  }

  lemma PersistEmpty(o: Out, e: Env)
    ensures forall i :: |o.segs| <= i < |Persist(o, e).segs| ==> Persist(o, e).segs[i].data == []
  {
    hide Wrap;
  }

  lemma FinEmpty(o: Out, e: Env)
    requires Sending(o.s.state)
    ensures var r := Resend(o.(s := StartFin(o.s)), e).o; forall i :: |o.segs| <= i < |r.segs| ==> r.segs[i].data == []
  {
    hide Wrap, Resent, Fail;
  }

  /** Before the timer is due nothing that was sent is sent again. */
  lemma NothingEarly(s: Sock, e: Env)
    requires Live(s, e) && !Due(s, e)
    ensures var p := Pump(Out(s, [], 0), e);
      (!Sending(s.state) ==> p.segs == []) && AllFresh(s, p.segs)
  {
    hide Pump, Wrap, SendNew, Persist, StartFin, Bounds, Flight;
    PumpIsLive(s, e);
    var c := Clamp(s, e);
    var o := Out(c, [], 0);
    assert Resend(o, e).o == o && AllFresh(s, o.segs);
    hide AllFresh;
    if Sending(s.state) {
      assert Bounds(s) && Numbers(s);
      InFlight(s);
      assert Resend(o, e) == Stage(o, true);
      SameFlight(s, c);
      var w := Min(c.peerWindow, c.fl.cwnd);
      NewDataFresh(s, o, Flight(c), w, e);
      var n := SendNew(o, Flight(c), w, e);
      if n.go {
        SendNewShape(o, Flight(c), w, e);
        PersistEmpty(n.o, e);
        PersistAdds(n.o, e);
        PersistShape(n.o, e);
        var q := Persist(n.o, e);
        EmptyFresh(s, n.o.segs, q.segs);
        FinEmpty(q, e);
        var z := Resend(q.(s := StartFin(q.s)), e).o;
        ResendAdds(q.(s := StartFin(q.s)), e);
        EmptyFresh(s, q.segs, z.segs);
        assert PumpLive(o, e) == if q.s.closeReq && |q.s.tx| == 0 then z else q;
      }
    }
  }

  lemma InFlight(s: Sock)
    requires s.used && Inv(s) && Sending(s.state)
    ensures Flight(s) <= |s.tx| <= STREAM && s.sndNxt == Wrap(s.sndUna + Flight(s))
  {
    hide Wrap;
    FlightAdvance(s, 0);
  }

  // ---------------------------------------------------------------- everything that a pump sends

  /** The congestion window that counts for new data: one segment after a repeat. */
  function Congestion(s: Sock, e: Env): int { if Repeats(s, e) && s.tm.sentAt != 0 then Size(s, e) else s.fl.cwnd }

  function Threshold(s: Sock, e: Env): int {
    if Repeats(s, e) && s.tm.sentAt != 0 then Max(2 * Size(s, e), Min(s.fl.cwnd / 2, STREAM)) else s.fl.threshold
  }

  function Timeout(s: Sock, e: Env): int { if Repeats(s, e) && s.tm.sentAt != 0 then Min(60000, 2 * s.tm.rto) else s.tm.rto }

  /** How far data is in flight after the pump. */
  function Goal(s: Sock, e: Env): nat { Max(Flight(s), Min(|s.tx|, Min(s.peerWindow, Congestion(s, e)))) }

  /** The peer's window is closed, nothing is in flight, and it is time to ask again. */
  predicate Asks(s: Sock, e: Env) { s.peerWindow == 0 && |s.tx| > 0 && Flight(s) == 0 && e.now >= s.tm.persistAt }

  /** All data is out and acknowledged, and the application has closed. */
  predicate Closes(s: Sock) { s.closeReq && s.tx == [] }

  /** After data and repeats: a probe, a FIN, or nothing. */
  ghost predicate Last(s: Sock, e: Env, rest: seq<Seg>) {
    if Asks(s, e) then |rest| == 1 && Headed(s, rest[0], s.sndUna - 1, false, false) && rest[0].data == []
    else if Closes(s) then |rest| == 1 && Headed(s, rest[0], s.sndNxt, false, true) && rest[0].data == []
    else rest == []
  }

  /** The socket after a pump that could send everything. */
  ghost predicate Pumped(s: Sock, t: Sock, e: Env) {
    && t.used && t.tx == s.tx && t.rx == s.rx && t.sndUna == s.sndUna && t.rcvNxt == s.rcvNxt && t.peerWindow == s.peerWindow
    && t.fl.mss == Size(s, e) && t.fl.cwnd == Congestion(s, e) && t.fl.threshold == Threshold(s, e) && t.tm.rto == Timeout(s, e)
    && (if Closes(s) then
          && t.state == (if s.peerFin then LastAck else FinWait1) && t.finSeq == s.sndNxt && t.sndNxt == Wrap(s.sndNxt + 1)
          && t.tm.retry == 0 && t.tm.sentAt == Stamp(e.now)
        else
          && t.state == s.state && t.sndNxt == Wrap(s.sndUna + Goal(s, e))
          && t.tm.retry == (if Repeats(s, e) && s.tm.sentAt != 0 then s.tm.retry + 1 else s.tm.retry)
          && t.tm.sentAt == (if Repeats(s, e) || (Flight(s) == 0 && Goal(s, e) > 0) then Stamp(e.now) else s.tm.sentAt)
          && t.tm.persistAt == (if Asks(s, e) then e.now + 1000 else s.tm.persistAt))
  }

  lemma StartsWith(s: Sock, e: Env)
    requires Live(s, e) && Sending(s.state) && Works(e) && !(Repeats(s, e) && s.tm.retry >= MAX_RETRY)
    ensures var c := Clamp(s, e);
      var r := Resend(Out(c, [], 0), e);
      && r.go && r.o.s == (if Repeats(s, e) then Resent(c, e.now) else c)
      && (if Repeats(s, e) then |r.o.segs| == 1 && Oldest(s, e, r.o.segs[0]) else r.o.segs == [])
  {
    hide Wrap, Resent, Bounds;
    WrapSmall(0);
    FlightAdvance(s, 0);
    var c := Clamp(s, e);
    SameFlight(s, c);
    assert Flight(s) == 0 ==> s.sndNxt == s.sndUna by { WrapSmall(s.sndUna); }
    if Repeats(s, e) {
      assert Oldest(s, e, ResendSeg(c));
    }
  }

  lemma StartsFlow(s: Sock, e: Env)
    ensures var c := Clamp(s, e);
      var r := if Repeats(s, e) then Resent(c, e.now) else c;
      && SameBuffers(s, r) && r.fl.mss == Size(s, e) && r.fl.cwnd == Congestion(s, e) && r.sndNxt == s.sndNxt && r.used == s.used
      && r.fl.threshold == Threshold(s, e) && r.tm.rto == Timeout(s, e)
      && r.peerWindow == s.peerWindow && r.closeReq == s.closeReq && r.peerFin == s.peerFin && r.tm.persistAt == s.tm.persistAt
      && r.tm.retry == (if Repeats(s, e) && s.tm.sentAt != 0 then s.tm.retry + 1 else s.tm.retry)
      && r.tm.sentAt == if Repeats(s, e) then Stamp(e.now) else s.tm.sentAt
  {
    hide Flight;
  }

  lemma EndsWith(s: Sock, e: Env, o: Out)
    requires Works(e) && Sending(s.state) && Sending(o.s.state) && Flight(o.s) == Goal(s, e) && o.s.rx == s.rx && o.s.tx == s.tx && o.s.sndUna == s.sndUna
    requires o.s.rcvNxt == s.rcvNxt && o.s.peerWindow == s.peerWindow && o.s.closeReq == s.closeReq && o.s.tm.persistAt == s.tm.persistAt
    requires Flight(s) <= |s.tx| && (Closes(s) ==> o.s.sndNxt == s.sndNxt)
    ensures var p := Persist(o, e);
      var z := if p.s.closeReq && |p.s.tx| == 0 then Resend(p.(s := StartFin(p.s)), e).o else p;
      o.segs <= z.segs && Last(s, e, z.segs[|o.segs|..])
      && z.s == (if Closes(s) then Resent(StartFin(o.s), e.now)
                 else if Asks(s, e) then o.s.(tm := o.s.tm.(persistAt := e.now + 1000)) else o.s)
  {
    hide Wrap, Resent, Flight;
    var p := Persist(o, e);
    if Closes(s) {
      assert p == o;
      WrapSmall(o.s.sndNxt);
      var f := o.(s := StartFin(o.s));
      assert Resend(f, e).o == Out(Resent(f.s, e.now), o.segs + [ResendSeg(f.s)], o.k + 1);
      assert (o.segs + [ResendSeg(f.s)])[|o.segs|..] == [ResendSeg(f.s)];
    } else if Asks(s, e) {
      var g := Packet(o.s, o.s.sndUna - 1, false, false, true, []);
      assert (o.segs + [g])[|o.segs|..] == [g];
    }
  }

  /** With a network that takes every packet: a repeat if it is due, all new data that the windows allow, and then a probe or the FIN. */
  lemma PumpSends(s: Sock, e: Env) returns (again: seq<Seg>, news: seq<Seg>, rest: seq<Seg>)
    requires Live(s, e) && Sending(s.state) && Works(e) && !(Repeats(s, e) && s.tm.retry >= MAX_RETRY)
    ensures var p := Pump(Out(s, [], 0), e);
      && p.segs == again + news + rest && Pumped(s, p.s, e)
      && (if Repeats(s, e) then |again| == 1 && Oldest(s, e, again[0]) else again == [])
      && Carries(s, news, Flight(s), Goal(s, e), Size(s, e)) && Last(s, e, rest)
  {
    hide Pump, Wrap, Resend, SendNew, Persist, StartFin, Resent, Carries, Headed, Oldest, Bounds, Last;
    PumpIsLive(s, e);
    StartsWith(s, e);
    StartsFlow(s, e);
    InFlight(s);
    var o := Out(Clamp(s, e), [], 0);
    var r := Resend(o, e).o;
    again := r.segs;
    SameFlight(s, r.s);
    var w := Min(r.s.peerWindow, r.s.fl.cwnd);
    news := NewDataSent(r, Flight(r.s), w, e);
    var n := SendNew(r, Flight(r.s), w, e).o;
    CarriesSame(s, r.s, news, Flight(s), Goal(s, e), Size(s, e));
    Reached(r.s, Flight(s), Goal(s, e), e.now);
    EndsWith(s, e, n);
    var z := PumpLive(o, e);
    rest := z.segs[|n.segs|..];
    Ends(s, e, r.s, n.s, z.s);
  }

  lemma Reached(r: Sock, from: nat, to: nat, now: nat)
    requires to < U32
    ensures Flight(Advanced(r, from, to, now)) == to && (from == to && r.sndNxt == Wrap(r.sndUna + from) ==> Advanced(r, from, to, now) == r)
  {
    WrapIsMod(r.sndUna + to);
    WrapIsMod(Wrap(r.sndUna + to) - r.sndUna);
  }

  lemma Ends(s: Sock, e: Env, r: Sock, n: Sock, z: Sock)
    requires s.used && SameBuffers(s, r) && r.fl.mss == Size(s, e) && r.fl.cwnd == Congestion(s, e) && r.used && r.peerWindow == s.peerWindow
    requires r.tm.retry == (if Repeats(s, e) && s.tm.sentAt != 0 then s.tm.retry + 1 else s.tm.retry) && r.tm.persistAt == s.tm.persistAt
    requires r.tm.sentAt == (if Repeats(s, e) then Stamp(e.now) else s.tm.sentAt) && r.peerFin == s.peerFin
    requires r.fl.threshold == Threshold(s, e) && r.tm.rto == Timeout(s, e)
    requires n == Advanced(r, Flight(s), Goal(s, e), e.now) && (Closes(s) ==> n == r && r.sndNxt == s.sndNxt)
    requires z == if Closes(s) then Resent(StartFin(n), e.now) else if Asks(s, e) then n.(tm := n.tm.(persistAt := e.now + 1000)) else n
    ensures Pumped(s, z, e)
  {
    hide Wrap, Flight;
  }
}
