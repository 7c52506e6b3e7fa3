/**
 What the sender keeps: over every run of two sockets, a byte leaves the send buffer only when the far end
 has taken it, so that every byte accepted from one application is with the far end or still in the buffer.
 */
module TcpKept {
  import opened Basics
  import opened Tcp
  import opened TcpInvariant
  import opened TcpRuns

  // ---------------------------------------------------------------- what one call acknowledges

  /** The segment acknowledges nothing, or one of the numbers. */
  predicate Tells(g: Seg, these: set<u32>) { g.rst || !g.ackf || g.ack in these }

  ghost predicate Says(segs: seq<Seg>, these: set<u32>) { forall i :: 0 <= i < |segs| ==> Tells(segs[i], these) }

  /** What the socket acknowledges is one of the numbers. */
  predicate Speaks(s: Sock, these: set<u32>) { s.state.SynSent? || s.rcvNxt in these }

  /** Nothing received, nothing acknowledged by the peer. */
  ghost predicate Quiet(s: Sock, t: Sock) { SameReceiver(s, t) && t.sndUna == s.sndUna && (t.state.SynSent? ==> s.state.SynSent?) }

  /** SYN-SENT is left for the worse, a failure for nothing. */
  predicate Moves(s: Sock, t: Sock) {
    && (t.state.SynSent? ==> s.state.SynSent?) && (s.state.SynSent? ==> t.state.SynSent? || t.state.Error?)
    && (s.state.Error? ==> t.state.Error?)
  }

  lemma SaysMore(segs: seq<Seg>, g: Seg, these: set<u32>)
    requires Says(segs, these) && Tells(g, these)
    ensures Says(segs + [g], these)
  {
  }

  lemma ResentSays(s: Sock, these: set<u32>)
    requires Speaks(s, these)
    ensures Tells(ResendSeg(s), these)
  {
    hide Wrap, Take;
  }

  lemma ResentSame(s: Sock, now: nat)
    ensures Quiet(s, Resent(s, now)) && Resent(s, now).state == s.state
  {
    hide BackoffTimer, BackoffFlow;
  }

  lemma ResendQuiet(o: Out, e: Env, these: set<u32>)
    requires Says(o.segs, these) && Speaks(o.s, these)
    ensures var r := Resend(o, e).o; Says(r.segs, these) && Quiet(o.s, r.s) && (r.s.state == o.s.state || (r.s.state.Error? && !Resend(o, e).go))
  {
    hide Wrap, Take, Resent, Elapsed, ResendSeg, Says;
    ResentSame(o.s, e.now);
    ResentSays(o.s, these);
    SaysMore(o.segs, ResendSeg(o.s), these);
  }

  lemma {:induction false} SendNewQuiet(o: Out, inflight: nat, window: nat, e: Env, these: set<u32>)
    requires Says(o.segs, these) && o.s.rcvNxt in these && !o.s.state.SynSent?
    ensures var r := SendNew(o, inflight, window, e).o; Says(r.segs, these) && Quiet(o.s, r.s) && (r.s.state == o.s.state || r.s.state.Error?)
    ensures SendNew(o, inflight, window, e).go ==> SendNew(o, inflight, window, e).o.s.state == o.s.state
    decreases |o.s.tx| - inflight
  {
    hide Wrap, Stamp;
    var s := o.s;
    if inflight < |s.tx| && inflight < window && e.send(o.k) == 0 {
      var n := Min(s.fl.mss, Min(|s.tx| - inflight, window - inflight));
      var p := SendOne(o, inflight, n, e.now);
      SaysMore(o.segs, Packet(s, s.sndNxt, false, false, true, s.tx[inflight..inflight + n]), these);
      SendNewQuiet(p, inflight + n, window, e, these);
    }
  }

  lemma PersistQuiet(o: Out, e: Env, these: set<u32>)
    requires Says(o.segs, these) && o.s.rcvNxt in these && !o.s.state.SynSent?
    ensures var r := Persist(o, e); Says(r.segs, these) && Quiet(o.s, r.s) && r.s.state == o.s.state
  {
    hide Wrap;
    SaysMore(o.segs, Packet(o.s, o.s.sndUna - 1, false, false, true, []), these);
  }

  lemma PumpLiveQuiet(o: Out, e: Env, these: set<u32>)
    requires Says(o.segs, these) && Speaks(o.s, these)
    ensures var r := PumpLive(o, e); Says(r.segs, these) && Quiet(o.s, r.s) && (Opening(o.s.state) ==> r.s.state == o.s.state || r.s.state.Error?)
  {
    hide Resend, SendNew, Persist, Says, Wrap;
    ResendQuiet(o, e, these);
    var r := Resend(o, e);
    if r.go && Sending(r.o.s.state) {
      var t := r.o.s;
      SendNewQuiet(r.o, Flight(t), Min(t.peerWindow, t.fl.cwnd), e, these);
      var n := SendNew(r.o, Flight(t), Min(t.peerWindow, t.fl.cwnd), e);
      if n.go {
        PersistQuiet(n.o, e, these);
        var p := Persist(n.o, e);
        ResendQuiet(p.(s := StartFin(p.s)), e, these);
      }
    }
  }

  /** The pump receives nothing and acknowledges what was received before. */
  lemma PumpQuiet(o: Out, e: Env, these: set<u32>)
    requires Says(o.segs, these) && Speaks(o.s, these)
    ensures var r := Pump(o, e); Says(r.segs, these) && Quiet(o.s, r.s) && Moves(o.s, r.s)
    ensures o.s.state.Error? ==> Pump(o, e).segs == o.segs
    ensures Opening(o.s.state) ==> Pump(o, e).s.state == o.s.state || Pump(o, e).s.state.Error?
  {
    hide PumpLive, Says;
    PumpLiveQuiet(o.(s := Clamp(o.s, e)), e, these);
  }

  /** What was received has been counted. */
  ghost predicate Counted(s: Sock, t: Sock) {
    && |s.rx| <= |t.rx| && (s.peerFin ==> t.peerFin) && t.iss == s.iss
    && t.rcvNxt == Wrap(s.rcvNxt + |t.rx| - |s.rx| + if t.peerFin && !s.peerFin then 1 else 0)
  }

  lemma CountedSame(s: Sock, t: Sock)
    requires SameReceiver(s, t)
    ensures Counted(s, t)
  {
    WrapSmall(s.rcvNxt);
  }

  lemma AckedAt(s: Sock, ack: u32)
    ensures Wrap(s.sndUna + Wrap(ack - s.sndUna)) == ack
  {
    WrapAdd(ack - s.sndUna, s.sndUna);
    WrapSmall(ack);
  }

  lemma AckedSame(s: Sock, ack: u32, now: nat)
    requires Wrap(ack - s.sndUna) <= |s.tx| && !s.state.SynSent?
    ensures var t := Acked(s, Wrap(ack - s.sndUna), now); SameReceiver(s, t) && t.sndUna == ack && !t.state.SynSent?
  {
    AckedAt(s, ack);
    hide Wrap, Rtt, Grow;
  }

  lemma FinAckedSame(s: Sock, ack: u32, now: nat)
    requires !s.state.SynSent?
    ensures var t := FinAcked(s, ack, now); SameReceiver(s, t) && t.sndUna == ack && !t.state.SynSent?
  {
  }

  lemma AckStageSays(o: Out, g: Seg, e: Env, these: set<u32>)
    requires Says(o.segs, these) && o.s.rcvNxt in these && !o.s.state.SynSent?
    ensures var r := AckStage(o, g, e).o;
      && Says(r.segs, these) && SameReceiver(o.s, r.s) && !r.s.state.SynSent?
      && (r.s.sndUna == o.s.sndUna || r.s.sndUna == g.ack)
  {
    hide Rtt, Grow, Take, Wrap, DuplicateAck, SeqBefore, Says, Acked, FinAcked;
    var s := o.s;
    DuplicateSays(o, e, these);
    FinAckedSame(s, g.ack, e.now);
    var n := Wrap(g.ack - s.sndUna);
    if n <= |s.tx| {
      AckedSame(s, g.ack, e.now);
    }
  }

  lemma DuplicateSays(o: Out, e: Env, these: set<u32>)
    requires Says(o.segs, these) && o.s.rcvNxt in these && !o.s.state.SynSent?
    ensures var r := DuplicateAck(o, e);
      Says(r.segs, these) && SameReceiver(o.s, r.s) && !r.s.state.SynSent? && r.s.sndUna == o.s.sndUna
  {
    hide Wrap, Take;
  }

  lemma AckSays(o: Out, e: Env, these: set<u32>)
    requires Says(o.segs, these) && o.s.rcvNxt in these
    ensures Ack(o, e).s == o.s && Says(Ack(o, e).segs, these)
  {
    hide Wrap;
  }

  lemma AbsorbCounts(s: Sock, rest: seq<byte>, fin: bool, now: nat)
    requires !s.state.SynSent?
    ensures var t := Absorb(s, rest, fin, now); Counted(s, t) && t.sndUna == s.sndUna && !t.state.SynSent?
  {
    var take := Min(|rest|, Max(0, Window(s)));
    WrapAdd(s.rcvNxt + take, 1);
    hide Wrap;
  }

  lemma DataStageSays(o: Out, g: Seg, e: Env, these: set<u32>)
    requires Says(o.segs, these) && o.s.rcvNxt in these && !o.s.state.SynSent? && DataStage(o, g, e).o.s.rcvNxt in these
    ensures var r := DataStage(o, g, e).o; Says(r.segs, these) && Counted(o.s, r.s) && r.s.sndUna == o.s.sndUna && !r.s.state.SynSent?
  {
    hide Wrap, Absorb, Ack, Says, Counted, SeqBefore;
    var s := o.s.(peerWindow := g.wnd);
    var p := o.(s := s);
    var trim := Trim(s, g);
    CountedSame(o.s, s);
    AckSays(p, e, these);
    if !(s.peerFin && |g.data| > 0) && (|g.data| > 0 || g.fin) && Wrap(g.sq + trim) == s.rcvNxt {
      AbsorbCounts(s, g.data[trim..], g.fin, e.now);
      var t := Absorb(s, g.data[trim..], g.fin, e.now);
      SameCount(o.s, s, t);
      AckKeepsSock(p.(s := t), e);
      assert DataStage(o, g, e).o == Ack(p.(s := t), e);
      AckSays(p.(s := t), e, these);
    }
  }

  lemma AckKeepsSock(o: Out, e: Env)
    ensures Ack(o, e).s == o.s
  {
    hide Wrap;
  }

  lemma SameCount(s: Sock, u: Sock, t: Sock)
    requires SameReceiver(s, u) && Counted(u, t)
    ensures Counted(s, t)
  {
    hide Wrap;
  }

  lemma CountSame(s: Sock, u: Sock, t: Sock)
    requires Counted(s, u) && SameReceiver(u, t)
    ensures Counted(s, t)
  {
    hide Wrap;
  }

  /** What one input does to the numbers on both sides. */
  ghost predicate Exchanged(s: Sock, g: Seg, o: Out) {
    && Counted(s, o.s) && Says(o.segs, {s.rcvNxt, o.s.rcvNxt}) && !o.s.state.SynSent?
    && (o.s.sndUna == s.sndUna || (g.ackf && !g.rst && o.s.sndUna == g.ack))
  }

  lemma InputDataSays(s: Sock, g: Seg, e: Env)
    requires !s.state.SynSent? && g.ackf && !g.rst
    ensures Exchanged(s, g, InputData(Out(s, [], 0), g, e))
  {
    hide AckStage, DataStage, Pump, Says, Wrap, Counted;
    var o := Out(s, [], 0);
    var z := InputData(o, g, e).s.rcvNxt;
    var these := {s.rcvNxt, z};
    NothingSaid(these);
    AckStageSays(o, g, e, these);
    var a := AckStage(o, g, e);
    CountedSame(s, a.o.s);
    if a.go {
      var d := DataStage(a.o, g, e);
      var more := these + {d.o.s.rcvNxt};
      SaysMost(a.o.segs, these, more);
      DataStageSays(a.o, g, e, more);
      SameCount(s, a.o.s, d.o.s);
      if d.go {
        PumpQuiet(d.o, e, more);
        CountSame(s, d.o.s, Pump(d.o, e).s);
      }
      assert more == these;
    }
  }

  lemma NothingSaid(these: set<u32>)
    ensures Says([], these)
  {
  }

  lemma SaysMost(segs: seq<Seg>, these: set<u32>, more: set<u32>)
    requires Says(segs, these) && these <= more
    ensures Says(segs, more)
  {
  }

  lemma InputSays(s: Sock, g: Seg, e: Env)
    requires !s.state.SynSent?
    ensures Exchanged(s, g, Input(s, g, e))
    ensures s.state.Error? ==> Input(s, g, e) == Out(s, [], 0)
  {
    hide InputData, Pump, Wrap, SeqBefore, Acceptable, Says, Counted;
    var o := Out(s, [], 0);
    NothingSaid({s.rcvNxt});
    AckSays(o, e, {s.rcvNxt});
    CountedSame(s, s);
    assert {s.rcvNxt, s.rcvNxt} == {s.rcvNxt};
    var f := s.(tm := s.tm.(sentAt := 0));
    PumpQuiet(o.(s := f), e, {s.rcvNxt});
    CountedSame(s, Pump(o.(s := f), e).s);
    FailedSame(s, ECONNRESET, e.now);
    CountedSame(s, s.(tm := s.tm.(deadline := e.now + 120000)));
    if g.ackf && !g.rst {
      InputDataSays(s, g, e);
    }
  }

  lemma FailedSame(s: Sock, err: int, now: nat)
    ensures Counted(s, Fail(s, err, now))
  {
    CountedSame(s, Fail(s, err, now));
  }

  lemma InputSynSentSays(s: Sock, g: Seg, e: Env)
    requires s.state.SynSent? && s.used && Inv(s)
    ensures var o := Input(s, g, e);
      && o.s.rx == s.rx && o.s.peerFin == s.peerFin && o.s.iss == s.iss
      && ((o.segs == [] && o.s.rcvNxt == s.rcvNxt && o.s.sndUna == s.sndUna && (o.s.state.SynSent? || o.s.state.Error?))
          || (o.s.state.Established? && o.s.used && Says(o.segs, {o.s.rcvNxt}) && g.ackf && !g.rst && o.s.sndUna == g.ack))
  {
    hide Wrap, Rtt;
  }

  // ---------------------------------------------------------------- the invariant

  /** Bytes that q has taken from the network, handed out or not. */
  function Got(q: Peer): nat { |q.dlv| + if q.sock.Some? then |q.sock.value.rx| else 0 }

  function Fin(q: Peer): nat { if q.sock.Some? && q.sock.value.peerFin then 1 else 0 }

  /** How many bytes of a stream a number acknowledges. */
  function AckOffset(ack: u32, iss: u32): nat { Wrap(ack - iss - 1) }

  lemma OffsetIs(iss: u32, k: nat, ack: u32)
    requires k < U32
    ensures ack == Wrap(iss + 1 + k) <==> AckOffset(ack, iss) == k
  {
    WrapIsMod(iss + 1 + k);
    WrapIsMod(ack - iss - 1);
  }

  /** The segment acknowledges at most n bytes. */
  ghost predicate AckOk(g: Seg, iss: u32, n: nat) { g.rst || !g.ackf || AckOffset(g.ack, iss) <= n }

  /** q acknowledges what it has taken, if it acknowledges anything. */
  ghost predicate Mute(s: Sock) { s.state.SynSent? || (s.state.Error? && s.rx == []) }

  ghost predicate Heard(q: Peer, iss: u32) {
    q.sock.Some? ==> Mute(q.sock.value) || q.sock.value.rcvNxt == Wrap(iss + 1 + Got(q) + Fin(q))
  }

  /** All but n bytes of the stream are still in the send buffer. */
  ghost predicate KeptBy(p: Peer, n: nat) {
    p.sock.Some? && p.sock.value.used ==>
      var s := p.sock.value;
      && (Sending(s.state) ==> |p.acc| <= n + |s.tx|)
      && (Finishing(s.state) || s.state.FinWait2? || s.state.TimeWait? ==> |p.acc| <= n)
  }

  /** From p to q, with what q has sent back. */
  ghost predicate Way(p: Peer, q: Peer, wire: set<Seg>) {
    && (forall g :: g in wire ==> if p.sock.None? then g.rst || !g.ackf else AckOk(g, Isn(p), Got(q) + Fin(q)))
    && (if p.sock.None? then q.sock.Some? ==> Mute(q.sock.value) else Heard(q, Isn(p)))
    && Got(q) <= |p.acc| && (Fin(q) == 1 ==> Got(q) == |p.acc| && Done(p)) && KeptBy(p, Got(q))
  }

  ghost predicate SysKept(y: Sys) { Way(y.client, y.server, y.toClient) && Way(y.server, y.client, y.toServer) }

  // ---------------------------------------------------------------- the sender moves

  lemma KeptStep(s: Sock, t: Sock, acc: seq<byte>, acc': seq<byte>, got: nat, fin: nat)
    requires s.used && t.used && !s.state.Error? && !t.state.Error? && t.iss == s.iss
    requires Inv(s) && Sent(s, acc) && Inv(t) && Sent(t, acc') && |acc'| < MAX_STREAM
    requires acc <= acc' && (Opening(s.state) || Frozen(s) ==> acc' == acc)
    requires got <= |acc| && fin <= 1 && (fin == 1 ==> got == |acc| == |acc'|)
    requires t.sndUna == s.sndUna || AckOffset(t.sndUna, s.iss) <= got + fin
    requires (Sending(s.state) ==> |acc| <= got + |s.tx|) && (Frozen(s) ==> |acc| <= got)
    ensures Sending(t.state) ==> |acc'| <= got + |t.tx|
    ensures Finishing(t.state) || t.state.FinWait2? || t.state.TimeWait? ==> |acc'| <= got
  {
    if Sending(s.state) {
      OffsetIs(s.iss, |acc| - |s.tx|, s.sndUna);
      hide AckOffset;
      if Sending(t.state) {
        OffsetIs(s.iss, |acc'| - |t.tx|, t.sndUna);
      } else if Finishing(t.state) {
        OffsetIs(s.iss, |acc'|, t.sndUna);
      } else if t.state.FinWait2? || t.state.TimeWait? {
        WrapAdd(s.iss + 1 + |acc'|, 1);
        OffsetIs(s.iss, |acc'| + 1, t.sndUna);
      }
      hide Wrap;
    }
  }

  lemma SenderMoves(p: Peer, p': Peer, q: Peer, wire: set<Seg>)
    requires Way(p, q, wire) && p.sock.Some? && p'.sock.Some? && |p'.acc| < MAX_STREAM
    requires var s, t := p.sock.value, p'.sock.value;
      && s.used && Inv(s) && Sent(s, p.acc) && Inv(t) && Sent(t, p'.acc) && t.iss == s.iss && (Frozen(s) ==> Frozen(t))
      && (t.used && !t.state.Error? ==> !s.state.Error?)
      && p.acc <= p'.acc && (Opening(s.state) || Frozen(s) ==> p'.acc == p.acc)
      && (t.sndUna == s.sndUna || AckOffset(t.sndUna, s.iss) <= Got(q) + Fin(q))
    ensures Way(p', q, wire)
  {
    hide Inv, Sent, AckOffset, Wrap, AckOk, Heard;
    var s, t := p.sock.value, p'.sock.value;
    if t.used && !t.state.Error? {
      KeptStep(s, t, p.acc, p'.acc, Got(q), Fin(q));
    }
  }

  lemma ReceiverMoves(p: Peer, q: Peer, q': Peer, wire: set<Seg>, segs: seq<Seg>)
    requires Way(p, q, wire) && q'.sock.Some? && Got(q) <= Got(q') && Fin(q) <= Fin(q') && Got(q') <= |p.acc|
    requires Fin(q') == 1 ==> Got(q') == |p.acc| && Done(p)
    requires if p.sock.None? then Mute(q'.sock.value) && Says(segs, {}) else Heard(q', Isn(p))
    requires p.sock.Some? ==> forall i :: 0 <= i < |segs| ==> AckOk(segs[i], Isn(p), Got(q') + Fin(q'))
    ensures Way(p, q', wire + (set i | 0 <= i < |segs| :: segs[i]))
  {
    hide Mute, Heard, AckOffset;
  }

  lemma BothMove(y: Sys, at: Side, x: Peer, segs: seq<Seg>)
    requires Way(At(y, Other(at)), x, Incoming(y, Other(at)) + (set i | 0 <= i < |segs| :: segs[i]))
    requires Way(x, At(y, Other(at)), Incoming(y, at))
    ensures SysKept(Put(y, at, x, segs))
  {
    hide Way;
  }

  lemma KeptWays(y: Sys, at: Side)
    requires SysKept(y)
    ensures Way(At(y, at), At(y, Other(at)), Incoming(y, at)) && Way(At(y, Other(at)), At(y, at), Incoming(y, Other(at)))
  {
    hide Way;
  }

  /** What a call may acknowledge that receives nothing. */
  function Mouth(s: Sock): set<u32> { if s.state.SynSent? || s.state.Error? then {} else {s.rcvNxt} }

  lemma MouthOk(p: Peer, q: Peer, segs: seq<Seg>, these: set<u32>)
    requires p.sock.Some? && q.sock.Some? && Heard(q, Isn(p)) && Got(q) + Fin(q) < U32 && Says(segs, these)
    requires these == {} || (these == {q.sock.value.rcvNxt} && !Mute(q.sock.value))
    ensures forall i :: 0 <= i < |segs| ==> AckOk(segs[i], Isn(p), Got(q) + Fin(q))
  {
    OffsetIs(Isn(p), Got(q) + Fin(q), q.sock.value.rcvNxt);
    hide AckOffset, Wrap;
  }

  lemma QuietReceiver(p: Peer, q: Peer, t: Sock, acc: seq<byte>, wire: set<Seg>, segs: seq<Seg>)
    requires Way(p, q, wire) && q.sock.Some? && Inv(q.sock.value) && q.sock.value.used && |p.acc| < MAX_STREAM
    requires SameReceiver(q.sock.value, t) && Moves(q.sock.value, t) && Says(segs, Mouth(q.sock.value))
    ensures Way(p, q.(sock := Some(t), acc := acc), wire + (set i | 0 <= i < |segs| :: segs[i]))
  {
    hide AckOffset, Wrap, AckOk, KeptBy;
    var s := q.sock.value;
    var q' := q.(sock := Some(t), acc := acc);
    if p.sock.Some? {
      MouthOk(p, q, segs, Mouth(s));
    }
    ReceiverMoves(p, q, q', wire, segs);
  }

  /** A call that receives nothing and gets nothing acknowledged. */
  lemma QuietKept(y: Sys, at: Side, t: Sock, acc: seq<byte>, segs: seq<Seg>)
    requires SysInv(y) && SysKept(y) && Short(y) && Reachable(At(y, at)) && |acc| < MAX_STREAM
    requires SysInv(Put(y, at, At(y, at).(sock := Some(t), acc := acc), segs))
    requires var s := At(y, at).sock.value;
      && SameReceiver(s, t) && t.sndUna == s.sndUna && Moves(s, t) && Says(segs, Mouth(s)) && (Frozen(s) ==> Frozen(t))
      && At(y, at).acc <= acc && (Opening(s.state) || Frozen(s) ==> acc == At(y, at).acc)
    ensures SysKept(Put(y, at, At(y, at).(sock := Some(t), acc := acc), segs))
  {
    hide ReceiverOk, SegOk, Way, Inv, Sent, Says, Mouth;
    var x, z := At(y, at), At(y, Other(at));
    var x' := x.(sock := Some(t), acc := acc);
    KeptWays(y, at);
    assert SenderOk(x, Incoming(y, Other(at))) && SenderOk(x', Incoming(Put(y, at, x', segs), Other(at)));
    SenderMoves(x, x', z, Incoming(y, at));
    QuietReceiver(z, x, t, acc, Incoming(y, Other(at)), segs);
    BothMove(y, at, x', segs);
  }

  // ---------------------------------------------------------------- every step

  lemma PumpMouth(s: Sock, e: Env)
    ensures var o := Pump(Out(s, [], 0), e);
      && SameReceiver(s, o.s) && o.s.sndUna == s.sndUna && Moves(s, o.s) && Says(o.segs, Mouth(s))
      && (Opening(s.state) ==> o.s.state == s.state || o.s.state.Error?)
  {
    hide Pump;
    var o := Out(s, [], 0);
    NothingSaid({});
    NothingSaid(Mouth(s));
    PumpQuiet(o, e, if s.state.Error? then {s.rcvNxt} else Mouth(s));
  }

  lemma PumpKept(y: Sys, at: Side, e: Env)
    requires SysInv(y) && SysKept(y) && Short(y) && Reachable(At(y, at)) && EnvOk(e)
    requires SysInv(PutOut(y, at, Pump(Out(At(y, at).sock.value, [], 0), e)))
    ensures SysKept(PutOut(y, at, Pump(Out(At(y, at).sock.value, [], 0), e)))
  {
    hide Pump, Way, ReceiverOk, SegOk, Says, Mouth, SameReceiver, Later;
    var x := At(y, at);
    var o := Pump(Out(x.sock.value, [], 0), e);
    PumpMouth(x.sock.value, e);
    PumpKeeps(Out(x.sock.value, [], 0), e, x.acc);
    QuietKept(y, at, o.s, x.acc, o.segs);
  }

  lemma SendMouth(s: Sock, bytes: seq<byte>, e: Env)
    requires s.used && Inv(s)
    ensures var r := Send(s, bytes, e);
      && SameReceiver(s, r.o.s) && r.o.s.sndUna == s.sndUna && Moves(s, r.o.s) && Says(r.o.segs, Mouth(s))
      && (Opening(s.state) ==> Took(r, bytes) == [])
  {
    hide Pump;
    NothingSaid(Mouth(s));
    if Sending(s.state) && !s.closeReq {
      var take := Min(|bytes|, Max(0, STREAM - |s.tx|));
      var t := s.(tx := s.tx + bytes[..take]);
      PumpMouth(t, e);
    }
  }

  lemma SendKept(y: Sys, at: Side, bytes: seq<byte>, e: Env)
    requires SysInv(y) && SysKept(y) && Short(y) && Reachable(At(y, at)) && EnvOk(e)
    requires |At(y, at).acc + Took(Send(At(y, at).sock.value, bytes, e), bytes)| < MAX_STREAM
    requires var x, r := At(y, at), Send(At(y, at).sock.value, bytes, e);
      SysInv(Put(y, at, x.(sock := Some(r.o.s), acc := x.acc + Took(r, bytes)), r.o.segs))
    ensures var x, r := At(y, at), Send(At(y, at).sock.value, bytes, e);
      SysKept(Put(y, at, x.(sock := Some(r.o.s), acc := x.acc + Took(r, bytes)), r.o.segs))
  {
    hide Send, Way, ReceiverOk, SegOk, Says, Mouth, SameReceiver, Later, Took, Inv;
    var x := At(y, at);
    var r := Send(x.sock.value, bytes, e);
    assert SenderOk(x, Incoming(y, Other(at)));
    SendMouth(x.sock.value, bytes, e);
    SendGood(x.sock.value, bytes, e, x.acc);
    assert x.acc + [] == x.acc;
    QuietKept(y, at, r.o.s, x.acc + Took(r, bytes), r.o.segs);
  }

  lemma CloseMouth(s: Sock, e: Env)
    requires s.used
    ensures var o := Close(s, e);
      && SameReceiver(s, o.s) && o.s.sndUna == s.sndUna && Moves(s, o.s) && Says(o.segs, Mouth(s))
  {
    hide Pump, Wrap;
    NothingSaid(Mouth(s));
    if !s.state.Error? && !Opening(s.state) {
      PumpMouth(s.(detached := true, closeReq := true), e);
    }
  }

  lemma CloseKept(y: Sys, at: Side, e: Env)
    requires SysInv(y) && SysKept(y) && Short(y) && Reachable(At(y, at)) && EnvOk(e)
    requires SysInv(PutOut(y, at, Close(At(y, at).sock.value, e)))
    ensures SysKept(PutOut(y, at, Close(At(y, at).sock.value, e)))
  {
    hide Close, Way, ReceiverOk, SegOk, Says, Mouth, SameReceiver, Later;
    var x := At(y, at);
    var o := Close(x.sock.value, e);
    assert SenderOk(x, Incoming(y, Other(at)));
    CloseMouth(x.sock.value, e);
    CloseGood(x.sock.value, e, x.acc);
    QuietKept(y, at, o.s, x.acc, o.segs);
  }

  lemma FaultKept(y: Sys, at: Side, t: Sock)
    requires SysInv(y) && SysKept(y) && Short(y) && Reachable(At(y, at)) && SysInv(PutOut(y, at, Out(t, [], 0)))
    requires var s := At(y, at).sock.value;
      && SameReceiver(s, t) && t.sndUna == s.sndUna && Moves(s, t) && (Frozen(s) ==> Frozen(t))
    ensures SysKept(PutOut(y, at, Out(t, [], 0)))
  {
    hide Way, ReceiverOk, SenderOk, Mouth, SameReceiver;
    NothingSaid(Mouth(At(y, at).sock.value));
    QuietKept(y, at, t, At(y, at).acc, []);
  }

  /** Handing bytes to the application. */
  lemma ReceiveKept(y: Sys, at: Side, n: nat, e: Env)
    requires SysInv(y) && SysKept(y) && Short(y) && Reachable(At(y, at))
    ensures var x, r := At(y, at), Receive(At(y, at).sock.value, n, e);
      SysKept(Put(y, at, x.(sock := Some(r.o.s), dlv := x.dlv + r.bytes, eof := x.eof || (n > 0 && r.code == 0)), r.o.segs))
  {
    hide Way, AckOffset, Wrap;
    var x, z := At(y, at), At(y, Other(at));
    var s, r := x.sock.value, Receive(x.sock.value, n, e);
    var x' := x.(sock := Some(r.o.s), dlv := x.dlv + r.bytes, eof := x.eof || (n > 0 && r.code == 0));
    KeptWays(y, at);
    ReceiveMoves(s, n, e);
    SameSender(x, x', z, Incoming(y, at));
    assert Short(y) && SenderOk(x, Incoming(y, Other(at)));
    ReceiveWay(z, x, n, e, Incoming(y, Other(at)));
    BothMove(y, at, x', r.o.segs);
  }

  lemma ReceiveMoves(s: Sock, n: nat, e: Env)
    ensures var r := Receive(s, n, e);
      && r.o.s == s.(rx := r.o.s.rx) && |r.bytes| + |r.o.s.rx| == |s.rx| && Says(r.o.segs, {s.rcvNxt}) && (s.rx == [] ==> r.o.segs == [])
  {
    hide Wrap;
  }

  lemma SameSender(p: Peer, p': Peer, q: Peer, wire: set<Seg>)
    requires Way(p, q, wire) && p.sock.Some? && p'.sock.Some? && p'.acc == p.acc
    requires p'.sock.value == p.sock.value.(rx := p'.sock.value.rx)
    ensures Way(p', q, wire)
  {
    hide AckOffset, Wrap, AckOk;
  }

  lemma ReceiveWay(p: Peer, q: Peer, n: nat, e: Env, wire: set<Seg>)
    requires Way(p, q, wire) && q.sock.Some? && q.sock.value.used && Inv(q.sock.value) && |p.acc| < MAX_STREAM
    ensures var r := Receive(q.sock.value, n, e);
      Way(p, q.(sock := Some(r.o.s), dlv := q.dlv + r.bytes, eof := q.eof || (n > 0 && r.code == 0)), wire + (set i | 0 <= i < |r.o.segs| :: r.o.segs[i]))
  {
    hide AckOffset, Wrap, AckOk, KeptBy, Receive;
    var s, r := q.sock.value, Receive(q.sock.value, n, e);
    ReceiveMoves(s, n, e);
    var q' := q.(sock := Some(r.o.s), dlv := q.dlv + r.bytes, eof := q.eof || (n > 0 && r.code == 0));
    if p.sock.Some? {
      MouthOk(p, q, r.o.segs, if s.rx == [] then {} else {s.rcvNxt});
    }
    ReceiverMoves(p, q, q', wire, r.o.segs);
  }

  // ---------------------------------------------------------------- input

  /** What is held is within the stream, and all of it after the FIN. */
  ghost predicate Within(s: Sock, acc: seq<byte>, dlv: seq<byte>) {
    |dlv| + |s.rx| <= |acc| && (s.peerFin ==> |dlv| + |s.rx| == |acc|)
  }

  lemma ReceivedWithin(s: Sock, irs: u32, acc: seq<byte>, dlv: seq<byte>)
    requires s.used && Received(s, irs, acc, dlv)
    ensures Within(s, acc, dlv)
  {
    hide Wrap;
    assert |dlv + s.rx| == |dlv| + |s.rx|;
  }

  lemma InputDataWithin(s: Sock, g: Seg, e: Env, mine: seq<byte>, irs: u32, acc: seq<byte>, dlv: seq<byte>, frozen: bool)
    requires Accepting(s) && Inv(s) && Sent(s, mine) && |mine| < MAX_STREAM && EnvOk(e) && g.ackf && !SeqBefore(s.sndNxt, g.ack)
    requires Received(s, irs, acc, dlv) && |acc| < MAX_STREAM && SegOk(g, irs, acc, frozen) && !g.rst && !g.syn
    ensures Within(InputData(Out(s, [], 0), g, e).s, acc, dlv)
  {
    hide SegOk, Pump, AckStage, DataStage, Received, Within, Wrap, Says;
    var o := Out(s, [], 0);
    AckStageKeeps(o, g, e, mine);
    AckStageShape(o, g, e);
    var a := AckStage(o, g, e);
    ReceivedTransfers(s, a.o.s, irs, acc, dlv);
    ReceivedWithin(s, irs, acc, dlv);
    WithinSame(s, a.o.s, acc, dlv);
    if a.go {
      DataStageReceives(a.o, g, e, irs, acc, dlv, frozen);
      var d := DataStage(a.o, g, e);
      DataStageUsed(a.o, g, e);
      ReceivedWithin(d.o.s, irs, acc, dlv);
      if d.go {
        PumpSame(d.o, e);
        WithinSame(d.o.s, Pump(d.o, e).s, acc, dlv);
      }
    }
  }

  lemma WithinSame(s: Sock, t: Sock, acc: seq<byte>, dlv: seq<byte>)
    requires SameReceiver(s, t) && Within(s, acc, dlv)
    ensures Within(t, acc, dlv)
  {
  }

  lemma DataStageUsed(o: Out, g: Seg, e: Env)
    ensures DataStage(o, g, e).o.s.used == o.s.used
  {
    hide Wrap;
  }

  lemma PumpSame(o: Out, e: Env)
    ensures SameReceiver(o.s, Pump(o, e).s)
  {
    hide Pump, Says;
    var these := {o.s.rcvNxt} + set i | 0 <= i < |o.segs| :: o.segs[i].ack;
    AllSaid(o.segs, these);
    PumpQuiet(o, e, these);
  }

  lemma AllSaid(segs: seq<Seg>, these: set<u32>)
    requires forall i :: 0 <= i < |segs| ==> segs[i].ack in these
    ensures Says(segs, these)
  {
  }

  lemma InputWithin(s: Sock, g: Seg, e: Env, mine: seq<byte>, irs: u32, acc: seq<byte>, dlv: seq<byte>, frozen: bool)
    requires s.used && Inv(s) && Sent(s, mine) && |mine| < MAX_STREAM && EnvOk(e)
    requires Received(s, irs, acc, dlv) && |acc| < MAX_STREAM && SegOk(g, irs, acc, frozen)
    ensures Within(Input(s, g, e).s, acc, dlv)
  {
    hide InputData, Pump, Wrap, SegOk, Received, Acceptable, SeqBefore, Sent, Bounds;
    ReceivedWithin(s, irs, acc, dlv);
    if s.state.SynSent? {
      InputSynSentSays(s, g, e);
    } else {
      PumpSame(Out(s.(tm := s.tm.(sentAt := 0)), [], 0), e);
      if Accepting(s) && g.ackf && !g.rst && !g.syn && !SeqBefore(s.sndNxt, g.ack) {
        InputDataWithin(s, g, e, mine, irs, acc, dlv, frozen);
      }
    }
  }

  lemma CountsOn(iss: u32, n: nat, a: u32, d: nat)
    requires a == Wrap(iss + 1 + n)
    ensures Wrap(a + d) == Wrap(iss + 1 + (n + d))
  {
    WrapAdd(iss + 1 + n, d);
  }

  /** The receiver of a segment, and what it answers. */
  lemma InputWay(p: Peer, q: Peer, g: Seg, e: Env, wire: set<Seg>)
    requires Way(p, q, wire) && q.sock.Some? && q.sock.value.used && Inv(q.sock.value) && |p.acc| < MAX_STREAM
    requires var t := Input(q.sock.value, g, e).s;
      Within(t, p.acc, q.dlv) && (t.peerFin ==> Done(p)) && (t.used ==> Received(t, Isn(p), p.acc, q.dlv))
    requires p.sock.None? ==> g.rst
    ensures var o := Input(q.sock.value, g, e);
      Way(p, q.(sock := Some(o.s)), wire + (set i | 0 <= i < |o.segs| :: o.segs[i]))
  {
    hide AckOffset, Wrap, KeptBy, Input, Inv, Counted, AckOk;
    var s, o := q.sock.value, Input(q.sock.value, g, e);
    var q' := q.(sock := Some(o.s));
    if s.state.SynSent? {
      InputSynSentSays(s, g, e);
      OpeningEmpty(s);
      if o.s.state.Established? {
        VoiceOk(p, q', o.segs, {o.s.rcvNxt});
      }
    } else {
      InputSays(s, g, e);
      CountedMore(s, o.s);
      if !s.state.Error? {
        CountedHeard(p, q, o.s);
        BetweenOk(p, q, q', o.segs);
      }
    }
    ReceiverMoves(p, q, q', wire, o.segs);
  }

  lemma OpeningEmpty(s: Sock)
    requires s.used && Inv(s) && Opening(s.state)
    ensures s.rx == []
  {
  }

  lemma CountedMore(s: Sock, t: Sock)
    requires Counted(s, t)
    ensures |s.rx| <= |t.rx| && (s.peerFin ==> t.peerFin)
  {
  }

  lemma CountedHeard(p: Peer, q: Peer, t: Sock)
    requires q.sock.Some? && Heard(q, Isn(p)) && !Mute(q.sock.value) && Counted(q.sock.value, t)
    ensures t.rcvNxt == Wrap(Isn(p) + 1 + (Got(q.(sock := Some(t))) + Fin(q.(sock := Some(t)))))
  {
    var s := q.sock.value;
    CountsOn(Isn(p), Got(q) + Fin(q), s.rcvNxt, |t.rx| - |s.rx| + if t.peerFin && !s.peerFin then 1 else 0);
    hide Wrap;
  }

  lemma VoiceOk(p: Peer, q: Peer, segs: seq<Seg>, these: set<u32>)
    requires p.sock.Some? && q.sock.Some? && Got(q) + Fin(q) < U32 && Says(segs, these)
    requires these == {q.sock.value.rcvNxt} && q.sock.value.rcvNxt == Wrap(Isn(p) + 1 + (Got(q) + Fin(q)))
    ensures forall i :: 0 <= i < |segs| ==> AckOk(segs[i], Isn(p), Got(q) + Fin(q))
  {
    OffsetIs(Isn(p), Got(q) + Fin(q), q.sock.value.rcvNxt);
    hide AckOffset, Wrap;
  }

  lemma BetweenOk(p: Peer, q: Peer, q': Peer, segs: seq<Seg>)
    requires p.sock.Some? && q.sock.Some? && q'.sock.Some? && Got(q) + Fin(q) <= Got(q') + Fin(q') < U32
    requires q.sock.value.rcvNxt == Wrap(Isn(p) + 1 + (Got(q) + Fin(q))) && q'.sock.value.rcvNxt == Wrap(Isn(p) + 1 + (Got(q') + Fin(q')))
    requires Says(segs, {q.sock.value.rcvNxt, q'.sock.value.rcvNxt})
    ensures forall i :: 0 <= i < |segs| ==> AckOk(segs[i], Isn(p), Got(q') + Fin(q'))
  {
    OffsetIs(Isn(p), Got(q) + Fin(q), q.sock.value.rcvNxt);
    OffsetIs(Isn(p), Got(q') + Fin(q'), q'.sock.value.rcvNxt);
    hide AckOffset, Wrap;
  }

  lemma DeliverKept(y: Sys, to: Side, g: Seg, e: Env)
    requires SysInv(y) && SysKept(y) && Short(y) && Reachable(At(y, to)) && EnvOk(e) && (g in Incoming(y, to) || g.rst)
    requires SysInv(PutOut(y, to, Input(At(y, to).sock.value, g, e)))
    ensures SysKept(PutOut(y, to, Input(At(y, to).sock.value, g, e)))
  {
    hide Way, Input, Received, Within, Inv, Sent, Counted, AckOffset;
    var x, z := At(y, to), At(y, Other(to));
    var s, o := x.sock.value, Input(x.sock.value, g, e);
    var x' := x.(sock := Some(o.s));
    KeptWays(y, to);
    assert SenderOk(x, Incoming(y, Other(to))) && SenderOk(z, Incoming(y, to));
    assert SegOk(g, Isn(z), z.acc, Done(z));
    InputHolds(s, g, e, x.acc);
    InputReceives(s, g, e, x.acc, Isn(z), z.acc, x.dlv, Done(z));
    InputWithin(s, g, e, x.acc, Isn(z), z.acc, x.dlv, Done(z));
    FinKept(z, x, Incoming(y, Other(to)));
    InputWay(z, x, g, e, Incoming(y, Other(to)));
    InputUna(x, z, g, e, Incoming(y, to));
    SenderMoves(x, x', z, Incoming(y, to));
    BothMove(y, to, x', o.segs);
  }

  lemma FinKept(p: Peer, q: Peer, wire: set<Seg>)
    requires Way(p, q, wire)
    ensures q.sock.Some? && q.sock.value.peerFin ==> Done(p)
  {
    hide AckOffset, Heard, KeptBy, AckOk;
  }

  lemma InputUna(p: Peer, q: Peer, g: Seg, e: Env, wire: set<Seg>)
    requires Way(p, q, wire) && p.sock.Some? && p.sock.value.used && Inv(p.sock.value) && (g in wire || g.rst)
    ensures var s, t := p.sock.value, Input(p.sock.value, g, e).s;
      && (t.sndUna == s.sndUna || AckOffset(t.sndUna, s.iss) <= Got(q) + Fin(q))
      && (t.used && !t.state.Error? ==> !s.state.Error?)
  {
    hide AckOffset, Heard, KeptBy, Input, Counted, Inv;
    var s := p.sock.value;
    if s.state.SynSent? {
      InputSynSentSays(s, g, e);
    } else {
      InputSays(s, g, e);
    }
  }

  /** A new socket, after its first pump. */
  lemma OpenedKept(y: Sys, at: Side, n: Sock, e: Env)
    requires SysInv(y) && SysKept(y) && At(y, at).sock.None? && Opening(n.state) && n.rx == [] && !n.peerFin
    requires SysInv(PutOut(y, at, Pump(Out(n, [], 0), e)))
    requires var z := At(y, Other(at));
      if n.state.SynSent? then true else z.sock.Some? && n.rcvNxt == Wrap(Isn(z) + 1 + 0)
    ensures SysKept(PutOut(y, at, Pump(Out(n, [], 0), e)))
  {
    hide Pump, Way, Inv, Received, AckOffset, Wrap;
    var x, z := At(y, at), At(y, Other(at));
    var o := Pump(Out(n, [], 0), e);
    var x' := x.(sock := Some(o.s));
    KeptWays(y, at);
    PumpMouth(n, e);
    assert SenderOk(x, Incoming(y, Other(at))) && ReceiverOk(z, x);
    OpenedReceiver(z, x, n, o.s, Incoming(y, Other(at)), o.segs);
    assert SenderOk(x', Incoming(PutOut(y, at, o), Other(at)));
    OpenedSender(x, o.s, z, Incoming(y, at));
    BothMove(y, at, x', o.segs);
  }

  lemma OpenedReceiver(p: Peer, q: Peer, n: Sock, t: Sock, wire: set<Seg>, segs: seq<Seg>)
    requires Way(p, q, wire) && q.sock.None? && q.dlv == [] && Opening(n.state) && n.rx == [] && !n.peerFin
    requires SameReceiver(n, t) && Moves(n, t) && Says(segs, Mouth(n))
    requires if n.state.SynSent? then true else p.sock.Some? && n.rcvNxt == Wrap(Isn(p) + 1 + 0)
    ensures Way(p, q.(sock := Some(t)), wire + (set i | 0 <= i < |segs| :: segs[i]))
  {
    hide AckOffset, Wrap, KeptBy, AckOk;
    var q' := q.(sock := Some(t));
    if p.sock.Some? {
      if n.state.SynSent? {
        SilentOk(segs, Isn(p));
      } else {
        VoiceOk(p, q', segs, {n.rcvNxt});
      }
    }
    ReceiverMoves(p, q, q', wire, segs);
  }

  lemma SilentOk(segs: seq<Seg>, iss: u32)
    requires Says(segs, {})
    ensures forall i, n: nat :: 0 <= i < |segs| ==> AckOk(segs[i], iss, n)
  {
  }

  lemma OpenedSender(p: Peer, t: Sock, q: Peer, wire: set<Seg>)
    requires Way(p, q, wire) && p.sock.None? && (Opening(t.state) || t.state.Error?) && p.acc == []
    ensures Way(p.(sock := Some(t)), q, wire)
  {
    hide AckOffset, Wrap;
  }

  // ---------------------------------------------------------------- every run

  lemma ConnectKept(y: Sys, iss: u32, mss: pos, e: Env)
    requires SysInv(y) && SysKept(y) && y.client.sock.None? && SysInv(PutOut(y, Client, Connect(iss, mss, e)))
    ensures SysKept(PutOut(y, Client, Connect(iss, mss, e)))
  {
    hide Pump, SysInv, SysKept;
    OpenedKept(y, Client, NewSock(SynSent, iss, 0, mss, 65535), e);
  }

  lemma AcceptKept(y: Sys, g: Seg, iss: u32, e: Env)
    requires SysInv(y) && SysKept(y) && y.server.sock.None? && g in y.toServer && g.syn && !g.rst
    requires SysInv(PutOut(y, Server, Accept(iss, g, e)))
    ensures SysKept(PutOut(y, Server, Accept(iss, g, e)))
  {
    hide Pump, Wrap, SysKept, ReceiverOk, Inv, Sent;
    var n := NewSock(SynRcvd, iss, Wrap(g.sq + 1), ChosenMss(g, e), g.wnd);
    assert SegOk(g, Isn(y.client), y.client.acc, Done(y.client));
    hide SysInv;
    OpenedKept(y, Server, n, e);
  }

  lemma MtuKept(y: Sys, at: Side, mss: pos)
    requires SysInv(y) && SysKept(y) && Short(y) && Reachable(At(y, at))
    requires SysInv(PutOut(y, at, Out(PathMtu(At(y, at).sock.value, mss), [], 0)))
    ensures SysKept(PutOut(y, at, Out(PathMtu(At(y, at).sock.value, mss), [], 0)))
  {
    hide SysInv, SysKept;
    FaultKept(y, at, PathMtu(At(y, at).sock.value, mss));
  }

  lemma FailKept(y: Sys, at: Side, err: int, now: nat)
    requires SysInv(y) && SysKept(y) && Short(y) && Reachable(At(y, at))
    requires SysInv(PutOut(y, at, Out(Fail(At(y, at).sock.value, err, now), [], 0)))
    ensures SysKept(PutOut(y, at, Out(Fail(At(y, at).sock.value, err, now), [], 0)))
  {
    hide SysInv, SysKept;
    FaultKept(y, at, Fail(At(y, at).sock.value, err, now));
  }

  lemma StepKept(y: Sys, a: Action)
    requires SysInv(y) && SysKept(y) && Legal(a) && Short(y) && Short(Step(y, a))
    ensures SysKept(Step(y, a))
  {
    hide SysInv, SysKept, Pump, Input, Send, Receive, Close, Fail, Connect, Accept, PathMtu;
    StepKeeps(y, a);
    match a
    case DoConnect(iss, mss, e) =>
      if y.client.sock.None? {
        ConnectKept(y, iss, mss, e);
      }
    case DoDeliver(to, g, iss, e) =>
      if g in Incoming(y, to) || g.rst {
        if Reachable(At(y, to)) {
          DeliverKept(y, to, g, e);
        } else if to.Server? && y.server.sock.None? && g.syn && !g.rst && !g.ackf && !g.fin && !g.opt.BadOptions? {
          AcceptKept(y, g, iss, e);
        }
      }
    case DoPump(at, e) =>
      if Reachable(At(y, at)) {
        PumpKept(y, at, e);
      }
    case DoSend(at, bytes, e) =>
      if Owned(At(y, at)) {
        SendKept(y, at, bytes, e);
      }
    case DoReceive(at, n, e) =>
      if Owned(At(y, at)) {
        ReceiveKept(y, at, n, e);
      }
    case DoClose(at, e) =>
      if Owned(At(y, at)) {
        CloseKept(y, at, e);
      }
    case DoFault(at, err, e) =>
      if Reachable(At(y, at)) {
        FailKept(y, at, err, e.now);
      }
    case DoMtu(at, mss, e) =>
      if Reachable(At(y, at)) {
        MtuKept(y, at, mss);
      }
  }

  lemma {:induction false} RunKept(acts: seq<Action>)
    requires forall i :: 0 <= i < |acts| ==> Legal(acts[i])
    requires Short(Run(acts))
    ensures SysKept(Run(acts))
  {
    hide Step, Legal, SysInv;
    if acts == [] {
      NothingKept();
    } else {
      var before := acts[..|acts| - 1];
      StepExtends(Run(before), acts[|acts| - 1]);
      RunKeeps(before);
      RunKept(before);
      StepKept(Run(before), acts[|acts| - 1]);
    }
  }

  lemma NothingKept()
    ensures SysKept(INITIAL)
  {
  }

  /**
   Over every run: the send buffer of a socket that has not failed is the tail of the stream, and the bytes before it have
   been taken by the far end, which holds them as long as it lives. Nothing is lost in between.
   */
  lemma NoByteLost(acts: seq<Action>, side: Side)
    requires forall i :: 0 <= i < |acts| ==> Legal(acts[i])
    requires Short(Run(acts)) && Reachable(At(Run(acts), side)) && !At(Run(acts), side).sock.value.state.Error?
    ensures var p, q := At(Run(acts), side), At(Run(acts), Other(side));
      var s := p.sock.value;
      && |s.tx| <= |p.acc| && s.tx == p.acc[|p.acc| - |s.tx|..] && |p.acc| - |s.tx| <= Got(q)
      && (Reachable(q) ==> p.acc[..|p.acc| - |s.tx|] <= q.dlv + q.sock.value.rx <= p.acc)
  {
    hide Run, Way, Received, SegOk, Legal;
    RunKeeps(acts);
    RunKept(acts);
    var p, q := At(Run(acts), side), At(Run(acts), Other(side));
    KeptWays(Run(acts), side);
    assert SenderOk(p, Incoming(Run(acts), Other(side))) && ReceiverOk(p, q);
    TailKept(p, q, Incoming(Run(acts), side));
  }

  lemma TailKept(p: Peer, q: Peer, wire: set<Seg>)
    requires Way(p, q, wire) && Reachable(p) && !p.sock.value.state.Error? && Inv(p.sock.value) && Sent(p.sock.value, p.acc) && ReceiverOk(p, q)
    ensures var s := p.sock.value;
      && |s.tx| <= |p.acc| && s.tx == p.acc[|p.acc| - |s.tx|..] && |p.acc| - |s.tx| <= Got(q)
      && (Reachable(q) ==> p.acc[..|p.acc| - |s.tx|] <= q.dlv + q.sock.value.rx <= p.acc)
  {
    hide Wrap, AckOffset, AckOk, Heard, Bounds;
    if Reachable(q) {
      assert |q.dlv + q.sock.value.rx| == Got(q);
    }
  }
}
