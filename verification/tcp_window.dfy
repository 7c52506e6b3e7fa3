/**
 The send window over whole runs: whatever happens to a socket, data in flight
 grows only within the smaller of the peer's window and the congestion window.
 */
module TcpWindow {
  import opened Basics
  import opened Tcp
  import opened TcpInvariant
  import opened TcpRuns

  /** From s to t, data in flight has grown only within t's windows. */
  ghost predicate Within(s: Sock, t: Sock) {
    Sending(t.state) ==> Flight(t) <= Max(Flight(s), Min(t.peerWindow, t.fl.cwnd))
  }

  lemma SameNumbers(s: Sock, t: Sock)
    requires t.sndUna == s.sndUna && t.sndNxt == s.sndNxt
    ensures Flight(t) == Flight(s) && Within(s, t)
  {
    hide Wrap;
  }

  /** An acknowledgement only takes away from what is in flight. */
  lemma AckedFlight(s: Sock, ack: u32, now: nat)
    requires Flight(s) <= STREAM && SeqBefore(s.sndUna, ack) && !SeqBefore(s.sndNxt, ack) && Wrap(ack - s.sndUna) <= |s.tx|
    ensures Flight(Acked(s, Wrap(ack - s.sndUna), now)) <= Flight(s)
  {
    hide Wrap, Rtt, Grow, SeqBefore;
    AckInFlight(s, ack);
  }

  lemma OpenedFlight(s: Sock, t: Sock)
    requires t.sndUna == t.sndNxt
    ensures Flight(t) == 0
  {
    WrapSmall(0);
  }

  lemma AckStageFlight(o: Out, g: Seg, e: Env)
    requires Accepting(o.s) && Inv(o.s) && !SeqBefore(o.s.sndNxt, g.ack)
    ensures var a := AckStage(o, g, e); a.go && Sending(a.o.s.state) ==> Flight(a.o.s) <= Flight(o.s)
  {
    hide Wrap, Rtt, Acked, FinAcked, DuplicateAck, SeqBefore;
    var s, a := o.s, AckStage(o, g, e);
    if a.go && Sending(a.o.s.state) {
      if s.state.SynRcvd? {
        OpenedFlight(s, a.o.s);
      } else if SeqBefore(s.sndUna, g.ack) {
        NewAckFlight(o, g, e);
      } else {
        OldAckNumbers(o, g, e);
        SameNumbers(s, a.o.s);
      }
    }
  }

  lemma NewAckFlight(o: Out, g: Seg, e: Env)
    requires Accepting(o.s) && !o.s.state.SynRcvd? && Inv(o.s) && SeqBefore(o.s.sndUna, g.ack) && !SeqBefore(o.s.sndNxt, g.ack)
    ensures var a := AckStage(o, g, e); a.go && Sending(a.o.s.state) ==> Flight(a.o.s) <= Flight(o.s)
  {
    hide Wrap, Rtt, Acked, SeqBefore;
    var s, a := o.s, AckStage(o, g, e);
    if a.go && Sending(a.o.s.state) {
      assert !Finishing(s.state);
      AckedState(s, Wrap(g.ack - s.sndUna), e.now);
      AckedFlight(s, g.ack, e.now);
    }
  }

  lemma AckedState(s: Sock, n: nat, now: nat)
    requires n <= |s.tx|
    ensures Acked(s, n, now).state == s.state
  {
    hide Wrap, Rtt, Grow;
  }

  lemma OldAckNumbers(o: Out, g: Seg, e: Env)
    requires !o.s.state.SynRcvd? && !SeqBefore(o.s.sndUna, g.ack)
    ensures var t := AckStage(o, g, e).o.s; t.sndUna == o.s.sndUna && t.sndNxt == o.s.sndNxt
  {
    hide Wrap, SeqBefore, Packet;
  }

  lemma DataStageNumbers(o: Out, g: Seg, e: Env)
    ensures var t := DataStage(o, g, e).o.s; t.sndUna == o.s.sndUna && t.sndNxt == o.s.sndNxt
  {
    hide Wrap, SeqBefore, Packet;
  }

  lemma InputDataWithin(o: Out, g: Seg, e: Env, acc: seq<byte>)
    requires Accepting(o.s) && Good(o, acc) && |acc| < MAX_STREAM && EnvOk(e) && !SeqBefore(o.s.sndNxt, g.ack)
    ensures AckStage(o, g, e).go ==> Within(o.s, InputData(o, g, e).s)
  {
    hide Wrap, AckStage, DataStage, Pump, SegOk, Sent, Numbers, Flight, SeqBefore;
    AckStageKeeps(o, g, e, acc);
    AckStageShape(o, g, e);
    AckStageFlight(o, g, e);
    var a := AckStage(o, g, e);
    if a.go {
      DataStageHolds(a.o, g, e, acc);
      DataStageNumbers(a.o, g, e);
      var d := DataStage(a.o, g, e);
      SameNumbers(a.o.s, d.o.s);
      DataStageStates(a.o, g, e);
      if d.go && Sending(Pump(d.o, e).s.state) {
        PumpStates(d.o, e);
        PumpWithin(d.o, e);
      }
    }
  }

  /** Only a socket that sends is left sending by its data stage. */
  lemma DataStageStates(o: Out, g: Seg, e: Env)
    requires !Opening(o.s.state)
    ensures Sending(DataStage(o, g, e).o.s.state) ==> Sending(o.s.state)
    ensures DataStage(o, g, e).o.s.used == o.s.used
  {
    hide Wrap, SeqBefore, Packet;
  }

  lemma PumpStates(o: Out, e: Env)
    ensures Sending(Pump(o, e).s.state) ==> Sending(o.s.state)
  {
    hide PumpLive, Wrap;
    PumpLiveStates(o.(s := Clamp(o.s, e)), e);
  }

  lemma PumpLiveStates(o: Out, e: Env)
    ensures Sending(PumpLive(o, e).s.state) ==> Sending(o.s.state)
  {
    hide Resend, SendNew, Persist, Wrap;
    ResendStops(o, e);
    var r := Resend(o, e);
    if !Sending(o.s.state) {
      assert PumpLive(o, e) == r.o;
    }
  }

  lemma PumpWithin(o: Out, e: Env)
    requires o.s.used ==> Inv(o.s)
    ensures Within(o.s, Pump(o, e).s)
  {
    hide PumpLive, Wrap, Inv, Flight;
    if Sending(Pump(o, e).s.state) {
      if o.s.used {
        PumpWithinWindow(o, e);
      } else {
        assert Pump(o, e).s == o.s;
      }
    }
  }

  lemma InputOpenWithin(o: Out, g: Seg, e: Env, acc: seq<byte>)
    requires Accepting(o.s) && Good(o, acc) && |acc| < MAX_STREAM && EnvOk(e)
    ensures Within(o.s, InputOpen(o, g, e).s)
  {
    hide Wrap, InputData, Acceptable, SegOk, Sent, Numbers, Flight, Packet;
    var t := InputOpen(o, g, e).s;
    if t == o.s || t == Fail(o.s, ECONNRESET, e.now) {
      SameNumbers(o.s, t);
    } else {
      assert InputOpen(o, g, e) == InputData(o, g, e);
      InputDataWithin(o, g, e, acc);
      if !AckStage(o, g, e).go {
        StoppedAck(o, g, e);
      }
    }
  }

  /** An acknowledgement that ends the processing changes nothing, or ends the connection. */
  lemma StoppedAck(o: Out, g: Seg, e: Env)
    requires !AckStage(o, g, e).go
    ensures Within(o.s, InputData(o, g, e).s)
  {
    hide Wrap, Flight, Rtt, Acked, DuplicateAck, SeqBefore;
    var t := AckStage(o, g, e).o.s;
    if t == o.s {
      SameNumbers(o.s, t);
    } else {
      assert t == FinAcked(o.s, g.ack, e.now) && o.s.state.LastAck?;
    }
  }

  /** Input of any segment keeps within the window. */
  lemma InputWithin(s: Sock, g: Seg, e: Env, acc: seq<byte>)
    requires s.used && Inv(s) && Sent(s, acc) && |acc| < MAX_STREAM && EnvOk(e)
    ensures Within(s, Input(s, g, e).s)
  {
    hide Wrap, InputOpen, InputSynSent, Pump, Flight, Sent, Numbers, Packet, Bounds;
    var o := Out(s, [], 0);
    if s.state.SynSent? {
      SynSentWithin(o, g, e);
    } else if s.state.TimeWait? || s.state.Error? {
      SameNumbers(s, Input(s, g, e).s);
    } else if s.state.SynRcvd? && g.syn && Wrap(g.sq + 1) == s.rcvNxt {
      var p := o.(s := s.(tm := s.tm.(sentAt := 0)));
      PumpStates(p, e);
    } else {
      InputOpenWithin(o, g, e, acc);
    }
  }

  lemma SynSentWithin(o: Out, g: Seg, e: Env)
    requires o.s.state.SynSent?
    ensures Within(o.s, InputSynSent(o, g, e).s)
  {
    hide Wrap, Rtt, Packet, ChosenMss;
    var t := InputSynSent(o, g, e).s;
    if Sending(t.state) {
      OpenedFlight(o.s, t);
    }
  }

  lemma SendWithin(s: Sock, bytes: seq<byte>, e: Env, acc: seq<byte>)
    requires s.used && Inv(s) && Sent(s, acc)
    ensures Within(s, Send(s, bytes, e).o.s)
  {
    hide Wrap, Pump, Flight, Numbers, SegOk;
    if Send(s, bytes, e).o.s == s {
      SameNumbers(s, s);
    } else {
      var take := Min(|bytes|, Max(0, STREAM - |s.tx|));
      AppendSent(s, bytes[..take], acc);
      var t := s.(tx := s.tx + bytes[..take]);
      SameNumbers(s, t);
      PumpWithin(Out(t, [], 0), e);
    }
  }

  lemma CloseWithin(s: Sock, e: Env)
    requires s.used && Inv(s)
    ensures Within(s, Close(s, e).s)
  {
    hide Wrap, Pump, Flight, Packet;
    if s.state.Error? || Opening(s.state) {
      SameNumbers(s, Close(s, e).s);
    } else {
      var t := s.(detached := true, closeReq := true);
      SameNumbers(s, t);
      CloseInv(s);
      PumpWithin(Out(t, [], 0), e);
    }
  }

  lemma CloseInv(s: Sock)
    requires Inv(s) && s.used && !Opening(s.state)
    ensures Inv(s.(detached := true, closeReq := true))
  {
    hide Wrap;
  }

  /** In every step of every run, on either side, new data stays within the windows. */
  lemma StepWithin(acts: seq<Action>, a: Action, side: Side)
    requires (forall i :: 0 <= i < |acts| ==> Legal(acts[i])) && Legal(a) && Short(Run(acts))
    requires Reachable(At(Run(acts), side)) && At(Step(Run(acts), a), side).sock.Some?
    ensures Within(At(Run(acts), side).sock.value, At(Step(Run(acts), a), side).sock.value)
  {
    hide Run, Wrap, SegOk, Received, Input, Pump, Send, Close, Receive, Fail, PathMtu, Connect, Accept, Within, Inv, Sent;
    RunKeeps(acts);
    var y := Run(acts);
    var p := At(y, side);
    var s := p.sock.value;
    assert SenderOk(p, Incoming(y, Other(side)));
    SameNumbers(s, s);
    match a
    case DoDeliver(to, g, iss, e) => InputWithin(s, g, e, p.acc);
    case DoPump(at, e) => PumpWithin(Out(s, [], 0), e);
    case DoSend(at, bytes, e) => SendWithin(s, bytes, e, p.acc);
    case DoReceive(at, n, e) => ReceiveNumbers(s, n, e);
    case DoClose(at, e) => CloseWithin(s, e);
    case DoFault(at, err, e) => FailNumbers(s, err, e.now);
    case DoMtu(at, mss, e) => MtuNumbers(s, mss);
    case DoConnect(iss, mss, e) =>
  }

  lemma ReceiveNumbers(s: Sock, n: nat, e: Env)
    ensures Within(s, Receive(s, n, e).o.s)
  {
    hide Wrap, Packet, Flight;
    SameNumbers(s, Receive(s, n, e).o.s);
  }

  lemma FailNumbers(s: Sock, err: int, now: nat)
    ensures Within(s, Fail(s, err, now))
  {
    hide Wrap;
  }

  lemma MtuNumbers(s: Sock, mss: pos)
    ensures Within(s, PathMtu(s, mss))
  {
    hide Wrap, Flight;
    SameNumbers(s, PathMtu(s, mss));
  }
}
