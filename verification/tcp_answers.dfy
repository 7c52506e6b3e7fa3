/**
 What input has to do, said without the functions that do it: the handshake, what an acknowledgment
 does to the sender, what data and a FIN do to the receiver, which answers are sent, and resets.
 */
module TcpAnswers {
  import opened Basics
  import opened Tcp
  import opened TcpInvariant
  import opened TcpPump

  ghost predicate Synchronized(s: Sock) {
    s.used && Inv(s) && (Sending(s.state) || Finishing(s.state) || s.state.FinWait2?)
  }

  /** The bytes, and the FIN, that an acknowledgment takes off what is in flight. */
  function Newly(s: Sock, g: Seg): nat { if SeqBefore(s.sndUna, g.ack) then Wrap(g.ack - s.sndUna) else 0 }

  /** An empty segment that repeats the last acknowledgment and window while data is in flight. */
  predicate Repeated(s: Sock, g: Seg) {
    g.ack == s.sndUna && Flight(s) > 0 && |s.tx| > 0 && g.data == [] && s.peerWindow == g.wnd
  }

  function Within(lo: int, x: int, hi: int): int { if x < lo then lo else if x > hi then hi else x }

  function Distance(a: int, b: int): int { if a > b then a - b else b - a }

  /** The estimator of RFC 6298: an eighth of the new sample, a quarter of its deviation, both rounded down. */
  ghost predicate Measured(t: Timer, u: Timer, now: nat) {
    && u.retry == 0 && !u.retransmitted && u.persistAt == t.persistAt && u.deadline == t.deadline
    && (if t.retransmitted || t.sentAt == 0 then u.srtt == t.srtt && u.rttvar == t.rttvar && u.rto == t.rto
        else
          var sample := Within(1, Elapsed(now, t.sentAt), 60000);
          && u.rto == Within(1000, u.srtt + 4 * u.rttvar, 60000)
          && (if t.srtt == 0 then u.srtt == sample && 2 * u.rttvar <= sample <= 2 * u.rttvar + 1
              else
                && 8 * u.srtt <= 7 * t.srtt + sample < 8 * u.srtt + 8
                && 4 * u.rttvar <= 3 * t.rttvar + Distance(t.srtt, sample) < 4 * u.rttvar + 4))
  }

  predicate Quotient(a: int, b: int, q: int) { b * q <= a < b * (q + 1) }

  /** Below the threshold the window grows by what was acknowledged, at most a segment; above it by a segment for each window. */
  ghost predicate Opened(f: Flow, h: Flow, n: nat) {
    && h.mss == f.mss && h.threshold == f.threshold && h.dupacks == 0
    && (if f.cwnd < f.threshold then h.cwnd == Max(1, Min(STREAM, f.cwnd + Min(n, f.mss)))
        else exists step :: Quotient(f.mss * f.mss, f.cwnd, step) && h.cwnd == Min(STREAM, f.cwnd + Max(1, step)))
  }

  /** What an acknowledgment does to the sender; again is what the third repetition sends. */
  ghost predicate Acknowledged(s: Sock, m: Sock, g: Seg, e: Env, again: seq<Seg>) {
    var n := Newly(s, g);
    && m.used && m.sndNxt == s.sndNxt && m.rx == s.rx && m.rcvNxt == s.rcvNxt && m.peerFin == s.peerFin && m.closeReq == s.closeReq
    && m.detached == s.detached && m.finSeq == s.finSeq && m.iss == s.iss
    && (if Sending(s.state) && n > 0 then
          && m.state == s.state && m.sndUna == g.ack && n <= |s.tx| && m.tx == s.tx[n..] && Opened(s.fl, m.fl, n) && again == []
          && Measured(s.tm, m.tm, e.now) && m.tm.sentAt == if g.ack == s.sndNxt then 0 else Stamp(e.now)
        else if Finishing(s.state) && n > 0 then
          && m.sndUna == g.ack && m.tx == s.tx && m.fl == s.fl && again == []
          && (if s.state.Closing? then m.state == TimeWait && m.tm == s.tm.(sentAt := 0, deadline := e.now + 120000)
              else m.state == FinWait2 && m.tm == s.tm.(sentAt := 0, deadline := e.now + 60000))
        else
          && m.state == s.state && m.sndUna == s.sndUna && m.tx == s.tx
          && (if Repeated(s, g) && s.fl.dupacks == 2 then
                && |again| == 1 && Headed(s, again[0], s.sndUna, false, false) && Flight(s) <= |s.tx| && again[0].data == s.tx[..Min(s.fl.mss, Flight(s))]
                && m.fl == s.fl.(dupacks := 3, cwnd := s.fl.mss, threshold := Max(2 * s.fl.mss, s.fl.cwnd / 2))
                && m.tm == s.tm.(retransmitted := true, sentAt := e.now)
              else again == [] && m.tm == s.tm && m.fl == if Repeated(s, g) then s.fl.(dupacks := s.fl.dupacks + 1) else s.fl))
  }

  lemma SmoothIs(t: Timer, sample: nat)
    requires TimerOk(t) && 1 <= sample <= 60000
    ensures var u := Smooth(t, sample);
      && u.rto == Within(1000, u.srtt + 4 * u.rttvar, 60000)
      && (if t.srtt == 0 then u.srtt == sample && 2 * u.rttvar <= sample <= 2 * u.rttvar + 1
          else
            && 8 * u.srtt <= 7 * t.srtt + sample < 8 * u.srtt + 8
            && 4 * u.rttvar <= 3 * t.rttvar + Distance(t.srtt, sample) < 4 * u.rttvar + 4)
      && u == t.(srtt := u.srtt, rttvar := u.rttvar, rto := u.rto)
  {
  }

  lemma RttIs(t: Timer, now: nat)
    requires TimerOk(t)
    ensures Measured(t, Rtt(t, now), now) && Rtt(t, now).sentAt == Stamp(now)
  {
    hide Smooth, Elapsed;
    SmoothIs(t, Max(1, Min(Elapsed(now, t.sentAt), 60000)));
  }

  lemma GrowIs(f: Flow, n: nat)
    requires FlowOk(f)
    ensures Opened(f, Grow(f, n), n)
  {
    var step := f.mss * f.mss / f.cwnd;
    QuotientIs(f.mss * f.mss, f.cwnd);
    assert Quotient(f.mss * f.mss, f.cwnd, step);
  }

  lemma QuotientIs(a: nat, b: nat)
    requires b > 0
    ensures Quotient(a, b, a / b)
  {
    assert a == b * (a / b) + a % b;
  }

  lemma NewDataAcked(s: Sock, g: Seg, e: Env)
    requires Synchronized(s) && Sending(s.state) && SeqBefore(s.sndUna, g.ack) && !SeqBefore(s.sndNxt, g.ack)
    ensures Newly(s, g) > 0 && AckStage(Out(s, [], 0), g, e).go && Acknowledged(s, AckStage(Out(s, [], 0), g, e).o.s, g, e, [])
    ensures AckStage(Out(s, [], 0), g, e).o.segs == [] && AckStage(Out(s, [], 0), g, e).o.k == 0
  {
    hide Wrap, SeqBefore, Rtt, Grow, Measured, Opened, Flight;
    InFlight(s);
    AckInFlight(s, g.ack);
    assert Bounds(s);
    RttIs(s.tm, e.now);
    GrowIs(s.fl, Newly(s, g));
    MeasuredSame(s.tm, Rtt(s.tm, e.now), e.now);
  }

  /** The sending time is no part of the estimate. */
  lemma MeasuredSame(t: Timer, u: Timer, now: nat)
    requires Measured(t, u, now)
    ensures Measured(t, u.(sentAt := 0), now)
  {
    hide Elapsed;
  }

  lemma FinIsAcked(s: Sock, g: Seg, e: Env)
    requires Synchronized(s) && Finishing(s.state) && !s.state.LastAck? && SeqBefore(s.sndUna, g.ack) && !SeqBefore(s.sndNxt, g.ack)
    ensures Newly(s, g) > 0 && AckStage(Out(s, [], 0), g, e).go && Acknowledged(s, AckStage(Out(s, [], 0), g, e).o.s, g, e, [])
    ensures AckStage(Out(s, [], 0), g, e).o.segs == [] && AckStage(Out(s, [], 0), g, e).o.k == 0
  {
    hide Wrap, SeqBefore;
    FinFlight(s);
    AckInFlight(s, g.ack);
  }

  /** A FIN in flight is all that is in flight. */
  lemma FinFlight(s: Sock)
    requires Synchronized(s)
    ensures Finishing(s.state) ==> Flight(s) == 1 && Wrap(s.sndUna + 1) == Wrap(s.finSeq + 1)
    ensures s.state.FinWait2? ==> Flight(s) == 0
  {
    WrapIsMod(s.sndNxt - s.sndUna);
    WrapIsMod(s.finSeq + 1);
  }

  lemma NothingAcked(s: Sock, g: Seg, e: Env) returns (again: seq<Seg>)
    requires Synchronized(s) && !SeqBefore(s.sndUna, g.ack) && Works(e)
    ensures var a := AckStage(Out(s, [], 0), g, e);
      a.go && a.o.segs == again && a.o.k == |again| && Acknowledged(s, a.o.s, g, e, again)
  {
    hide Wrap, SeqBefore;
    WrapSmall(0);
    FlightAdvance(s, 0);
    assert Flight(s) == 0 <==> s.sndNxt == s.sndUna by { WrapSmall(s.sndUna); }
    again := AckStage(Out(s, [], 0), g, e).o.segs;
    if Repeated(s, g) {
      assert Sending(s.state);
      InFlight(s);
    }
  }

  lemma AckIs(s: Sock, g: Seg, e: Env) returns (again: seq<Seg>)
    requires Synchronized(s) && !SeqBefore(s.sndNxt, g.ack) && Works(e) && !(s.state.LastAck? && Newly(s, g) > 0)
    ensures var a := AckStage(Out(s, [], 0), g, e);
      a.go && a.o.segs == again && a.o.k == |again| && Acknowledged(s, a.o.s, g, e, again)
  {
    hide Wrap, SeqBefore, AckStage, Acknowledged, Flight;
    again := [];
    if SeqBefore(s.sndUna, g.ack) {
      FinFlight(s);
      if Sending(s.state) {
        NewDataAcked(s, g, e);
      } else {
        AckInFlight(s, g.ack);
        FinIsAcked(s, g, e);
      }
    } else {
      again := NothingAcked(s, g, e);
    }
  }

  // ---------------------------------------------------------------- data and FIN

  /** The next expected byte is number k of the segment, or comes right behind its data. */
  predicate NextAt(m: Sock, g: Seg, k: nat) { k <= |g.data| && Wrap(g.sq + k) == m.rcvNxt }

  function AfterFin(st: State): State {
    if st.Established? then CloseWait else if st.FinWait1? then Closing else if st.FinWait2? then TimeWait else st
  }

  /** Bytes from number k on are taken as far as there is room, and the FIN behind the last of them. */
  ghost predicate Absorbed(m: Sock, t: Sock, g: Seg, e: Env, k: nat)
    requires k <= |g.data|
  {
    var n := Min(|g.data| - k, Max(0, STREAM - |m.rx|));
    var fin := g.fin && k + n == |g.data| && !m.peerFin;
    t == m.(peerWindow := g.wnd, rx := m.rx + g.data[k..k + n], rcvNxt := Wrap(m.rcvNxt + n + if fin then 1 else 0),
            peerFin := m.peerFin || fin, state := if fin then AfterFin(m.state) else m.state,
            tm := if fin && m.state.FinWait2? then m.tm.(deadline := e.now + 120000) else m.tm)
  }

  /** What data and a FIN do to the receiver, the answer, and whether the sender goes on. */
  ghost predicate Delivered(m: Sock, t: Sock, g: Seg, e: Env, answer: seq<Seg>, go: bool) {
    if g.data == [] && !g.fin then t == m.(peerWindow := g.wnd) && answer == [] && go
    else
      && |answer| == 1 && Headed(t, answer[0], t.sndNxt, false, false) && answer[0].data == []
      && (if (m.peerFin && g.data != []) || !exists k: nat :: NextAt(m, g, k) then t == m.(peerWindow := g.wnd) && !go
          else go && forall k: nat :: NextAt(m, g, k) ==> Absorbed(m, t, g, e, k))
  }

  lemma TrimIs(m: Sock, g: Seg, k: nat)
    requires |g.data| < 0x8000_0000 && NextAt(m, g, k)
    ensures Trim(m, g) == k
  {
    WrapIsMod(g.sq + k);
    WrapIsMod(m.rcvNxt - g.sq);
    WrapIsMod(g.sq - m.rcvNxt);
  }

  lemma AbsorbIs(m: Sock, g: Seg, e: Env, k: nat)
    requires k <= |g.data| && !Opening(m.state)
    ensures Absorbed(m, Absorb(m.(peerWindow := g.wnd), g.data[k..], g.fin, e.now), g, e, k)
  {
    hide Wrap;
    var s := m.(peerWindow := g.wnd);
    var n := Min(|g.data| - k, Max(0, STREAM - |m.rx|));
    assert g.data[k..][..n] == g.data[k..k + n];
    WrapAdd(m.rcvNxt + n, 1);
  }

  lemma DataIs(o: Out, g: Seg, e: Env) returns (answer: seq<Seg>)
    requires Works(e) && |g.data| < 0x8000_0000 && !Opening(o.s.state)
    ensures var d := DataStage(o, g, e);
      d.o.segs == o.segs + answer && d.o.k == o.k + |answer| && Delivered(o.s, d.o.s, g, e, answer, d.go)
  {
    hide Wrap, Absorb, Trim;
    var m, d := o.s, DataStage(o, g, e);
    answer := if g.data == [] && !g.fin then [] else [Packet(d.o.s, d.o.s.sndNxt, false, false, true, [])];
    var s := m.(peerWindow := g.wnd);
    var trim := Trim(s, g);
    if m.peerFin && g.data != [] {
    } else if g.data != [] || g.fin {
      TrimWithin(s, g);
      if Wrap(g.sq + trim) == s.rcvNxt {
        assert NextAt(m, g, trim);
        forall k: nat | NextAt(m, g, k)
          ensures Absorbed(m, d.o.s, g, e, k)
        {
          TrimIs(s, g, k);
          AbsorbIs(m, g, e, k);
        }
      } else if k: nat :| NextAt(m, g, k) {
        TrimIs(s, g, k);
        assert false;
      }
    }
  }

  lemma TrimWithin(m: Sock, g: Seg)
    ensures Trim(m, g) <= |g.data|
  {
  }

  // ---------------------------------------------------------------- segments of an open connection

  /** An acceptable segment with an acknowledgment that is not ahead of what was sent. */
  predicate Regular(s: Sock, g: Seg) {
    Acceptable(s.rcvNxt, Window(s), g) && !g.rst && !g.syn && g.ackf && !SeqBefore(s.sndNxt, g.ack) && |g.data| < 0x8000_0000
  }

  /** First the acknowledgment, then the data and the FIN, and then the pump, unless the segment was out of order. */
  lemma RegularInput(s: Sock, g: Seg, e: Env) returns (m: Sock, t: Sock, again: seq<Seg>, answer: seq<Seg>, go: bool)
    requires Synchronized(s) && Works(e) && Regular(s, g) && !(s.state.LastAck? && Newly(s, g) > 0)
    ensures Acknowledged(s, m, g, e, again) && Delivered(m, t, g, e, answer, go)
    ensures var o := Out(t, again + answer, |again| + |answer|);
      Input(s, g, e) == if go then Pump(o, e) else o
  {
    hide Wrap, SeqBefore, AckStage, DataStage, Acknowledged, Delivered, Pump, Acceptable, Inv, Newly;
    again := AckIs(s, g, e);
    var a := AckStage(Out(s, [], 0), g, e).o;
    m := a.s;
    AckStageShape(Out(s, [], 0), g, e);
    answer := DataIs(a, g, e);
    var d := DataStage(a, g, e);
    t, go := d.o.s, d.go;
  }

  /** The acknowledgment of the last FIN frees the socket. */
  lemma LastAcked(s: Sock, g: Seg, e: Env)
    requires Synchronized(s) && Regular(s, g) && s.state.LastAck? && Newly(s, g) > 0
    ensures Input(s, g, e).segs == [] && !Input(s, g, e).s.used
  {
    hide Wrap, SeqBefore, Acceptable;
    FinFlight(s);
    AckInFlight(s, g.ack);
  }

  /** What is not acceptable is answered with where the stream stands, and changes nothing; resets are not answered. */
  lemma Refused(s: Sock, g: Seg, e: Env)
    requires Synchronized(s) && Works(e) && !Acceptable(s.rcvNxt, Window(s), g)
    ensures var p := Input(s, g, e);
      p.s == s && if g.rst then p.segs == [] else |p.segs| == 1 && Headed(s, p.segs[0], s.sndNxt, false, false) && p.segs[0].data == []
  {
    hide Wrap, Acceptable, Inv;
  }

  /** A reset ends the connection exactly at the next expected byte; one elsewhere in the window, and a SYN, is challenged at most. */
  lemma ResetOrSyn(s: Sock, g: Seg, e: Env)
    requires Synchronized(s) && Works(e) && Acceptable(s.rcvNxt, Window(s), g) && (g.rst || g.syn)
    ensures var p := Input(s, g, e);
      if g.rst && g.sq == s.rcvNxt then
        p.segs == [] && p.s.state.Error? && p.s.error == ECONNRESET && p.s.tm.deadline == e.now + 30000 && (p.s.used <==> !s.detached)
      else
        p.s == s && if !e.allow then p.segs == [] else |p.segs| == 1 && Headed(s, p.segs[0], s.sndNxt, false, false) && p.segs[0].data == []
  {
    hide Wrap, Acceptable, Inv;
  }

  /** An acknowledgment of what was not sent is answered, and a segment without one is dropped. */
  lemma BadAck(s: Sock, g: Seg, e: Env)
    requires Synchronized(s) && Works(e) && Acceptable(s.rcvNxt, Window(s), g) && !g.rst && !g.syn && !(g.ackf && !SeqBefore(s.sndNxt, g.ack))
    ensures var p := Input(s, g, e);
      p.s == s && if !g.ackf then p.segs == [] else |p.segs| == 1 && Headed(s, p.segs[0], s.sndNxt, false, false) && p.segs[0].data == []
  {
    hide Wrap, Acceptable, Inv, SeqBefore;
  }

  // ---------------------------------------------------------------- opening and the end

  /** The answer to a SYN opens the connection, and is acknowledged; nothing else does. */
  lemma SynAnswered(s: Sock, g: Seg, e: Env)
    requires s.used && Inv(s) && s.state.SynSent? && Works(e)
    ensures var p := Input(s, g, e);
      if g.syn && g.ackf && !g.rst && g.ack == s.sndNxt && !g.opt.BadOptions? then
        && p.s.state.Established? && p.s.used && p.s.sndUna == s.sndNxt && p.s.sndNxt == s.sndNxt && p.s.rcvNxt == Wrap(g.sq + 1)
        && p.s.peerWindow == g.wnd && Measured(s.tm, p.s.tm, e.now) && p.s.tm.sentAt == 0 && p.s.tx == s.tx && p.s.rx == s.rx
        && p.s.fl.mss == (if g.opt.Mss? && 0 < g.opt.size < e.base then g.opt.size else e.base) && p.s.fl.cwnd == 2 * p.s.fl.mss
        && |p.segs| == 1 && Headed(p.s, p.segs[0], s.sndNxt, false, false) && p.segs[0].data == []
      else
        p.segs == [] && (if g.rst && g.ackf && g.ack == s.sndNxt then p.s.state.Error? && p.s.error == ECONNREFUSED else p.s == s)
  {
    hide Wrap, Rtt, Measured;
    assert Bounds(s);
    RttIs(s.tm, e.now);
    MeasuredSame(s.tm, Rtt(s.tm, e.now), e.now);
  }

  /** A repeated SYN is answered again at once. */
  lemma SynRepeated(s: Sock, g: Seg, e: Env)
    requires s.used && Inv(s) && s.state.SynRcvd? && e.up && Works(e) && g.syn && Wrap(g.sq + 1) == s.rcvNxt && s.tm.retry < MAX_RETRY
    ensures var p := Input(s, g, e);
      |p.segs| == 1 && Headed(s, p.segs[0], s.iss, true, false) && p.segs[0].data == [] && p.s.state == s.state && p.s.tm.sentAt == Stamp(e.now)
  {
    hide Wrap, Pump;
    SynIsSent(s.(tm := s.tm.(sentAt := 0)), e);
  }

  /** The acknowledgment of the answer to a SYN opens the connection, and its data is taken. */
  lemma SynAcknowledged(s: Sock, g: Seg, e: Env) returns (m: Sock, t: Sock, answer: seq<Seg>, go: bool)
    requires s.used && Inv(s) && s.state.SynRcvd? && Regular(s, g) && g.ack == s.sndNxt && g.sq == s.rcvNxt && Works(e)
    ensures m == s.(sndUna := g.ack, state := Established, tm := m.tm) && Measured(s.tm, m.tm, e.now) && m.tm.sentAt == 0
    ensures Delivered(m, t, g, e, answer, go)
    ensures var o := Out(t, answer, |answer|); Input(s, g, e) == if go then Pump(o, e) else o
  {
    hide Wrap, SeqBefore, DataStage, Delivered, Pump, Acceptable, Rtt, Measured;
    assert Bounds(s);
    RttIs(s.tm, e.now);
    MeasuredSame(s.tm, Rtt(s.tm, e.now), e.now);
    var a := AckStage(Out(s, [], 0), g, e).o;
    m := a.s;
    answer := DataIs(a, g, e);
    var d := DataStage(a, g, e);
    t, go := d.o.s, d.go;
    assert [] + answer == answer;
  }

  /** In TIME_WAIT a repeated FIN is acknowledged and starts the wait again. */
  lemma WaitRestarts(s: Sock, g: Seg, e: Env)
    requires s.used && s.state.TimeWait? && Works(e)
    ensures var p := Input(s, g, e);
      if g.fin then
        && p.s == s.(tm := s.tm.(deadline := e.now + 120000))
        && |p.segs| == 1 && Headed(s, p.segs[0], s.sndNxt, false, false) && p.segs[0].data == []
      else p.s == s && p.segs == []
  {
    hide Wrap;
  }

  // ---------------------------------------------------------------- the calls of an application

  /** A send takes as much as there is room for, behind what is there, and then the pump sends. */
  lemma SendTakes(s: Sock, bytes: seq<byte>, e: Env)
    requires s.used && Sending(s.state) && !s.closeReq && |s.tx| <= STREAM
    ensures var r, n := Send(s, bytes, e), Min(|bytes|, STREAM - |s.tx|);
      if n == 0 && bytes != [] then r.code == EAGAIN && r.o == Out(s, [], 0)
      else r.code == n && r.o == Pump(Out(s.(tx := s.tx + bytes[..n]), [], 0), e)
  {
    hide Pump;
  }

  /** A receive gives the oldest bytes, as many as fit, and tells the peer of the room. */
  lemma ReceiveGives(s: Sock, n: nat, e: Env)
    requires n > 0 && Works(e) && !s.state.SynSent?
    ensures var r := Receive(s, n, e);
      if s.rx != [] then
        && r.code == |r.bytes| == Min(n, |s.rx|) && s.rx == r.bytes + r.o.s.rx && r.o.s == s.(rx := r.o.s.rx)
        && |r.o.segs| == 1 && Headed(r.o.s, r.o.segs[0], s.sndNxt, false, false) && r.o.segs[0].data == []
      else r.bytes == [] && r.o == Out(s, [], 0) && r.code == if s.peerFin then 0 else if s.state.Error? then s.error else EAGAIN
  {
    hide Wrap;
  }

  /** Connecting sends a SYN, and accepting one answers it with a SYN that acknowledges it. */
  lemma OpeningSends(iss: u32, mss: pos, g: Seg, e: Env)
    requires e.up && Works(e) && EnvOk(e) && mss <= 1440
    ensures var c, a := Connect(iss, mss, e), Accept(iss, g, e);
      && c.s.used && c.s.state.SynSent? && |c.segs| == 1 && c.segs[0].syn && !c.segs[0].ackf && c.segs[0].sq == iss
      && a.s.used && a.s.state.SynRcvd? && |a.segs| == 1 && a.segs[0].syn && a.segs[0].ackf && a.segs[0].sq == iss
      && a.segs[0].ack == Wrap(g.sq + 1) && a.s.peerWindow == g.wnd
  {
    hide Pump;
    WrapSmall(iss);
    SynIsSent(NewSock(SynSent, iss, 0, mss, 65535), e);
    SynIsSent(NewSock(SynRcvd, iss, Wrap(g.sq + 1), ChosenMss(g, e), g.wnd), e);
  }

  /** Closing resets what was not open yet; otherwise the pump goes on with the close requested and the application gone. */
  lemma CloseAsks(s: Sock, e: Env)
    requires s.used && Works(e)
    ensures var p := Close(s, e);
      if s.state.Error? then p.segs == [] && !p.s.used
      else if Opening(s.state) then |p.segs| == 1 && p.segs[0].rst && p.segs[0].sq == s.sndNxt && p.segs[0].data == [] && !p.s.used
      else p == Pump(Out(s.(detached := true, closeReq := true), [], 0), e)
  {
    hide Pump, Wrap;
    WrapSmall(s.sndNxt);
  }

  /** What waits for time alone: TIME_WAIT and FIN_WAIT_2 end at their deadline, and a failed socket goes with its owner. */
  lemma TimeEnds(s: Sock, e: Env)
    requires s.used && (s.state.TimeWait? || s.state.Error? || (s.state.FinWait2? && e.now >= s.tm.deadline) || !e.up)
    ensures var p := Pump(Out(s, [], 0), e);
      && p.segs == []
      && (if s.state.TimeWait? then p.s == (if e.now >= s.tm.deadline then s.(used := false) else s)
          else if s.state.Error? then p.s == (if s.detached then s.(used := false) else s)
          else p.s.state.Error? && (p.s.used <==> !s.detached) && p.s.tm.deadline == e.now + 30000
               && p.s.error == if s.state.FinWait2? && e.now >= s.tm.deadline then ETIMEDOUT else ENETDOWN)
  {
    hide PumpLive;
  }
}
