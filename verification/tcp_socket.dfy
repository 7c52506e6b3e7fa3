/**
 The socket as the kernel keeps it: flat fields, with the timers and the flow
 control in a record each, a 16 KiB transmit buffer that
 is shifted down on acknowledgement and a 16 KiB receive ring. Every method is
 proved to compute the corresponding function of Tcp on the abstract value.
 */
module TcpSocket {
  import opened Basics
  import opened Tcp
  import opened TcpInvariant

  /** Position of the i-th queued byte in a ring that starts at head. */
  function Slot(head: nat, i: nat): nat
    requires head < STREAM && i < STREAM
  {
    if head + i < STREAM then head + i else head + i - STREAM
  }

  lemma SlotIsMod(head: nat, i: nat)
    requires head < STREAM && i < STREAM
    ensures (head + i) % STREAM == Slot(head, i) < STREAM
  {
  }

  function Ring(a: seq<byte>, head: nat, n: nat): (r: seq<byte>)
    requires |a| == STREAM && head < STREAM && n <= STREAM
    ensures |r| == n
    ensures forall i :: 0 <= i < n ==> r[i] == a[Slot(head, i)]
  {
    seq(n, i requires 0 <= i < n => a[Slot(head, i)])
  }

  /** Dropping from the front of the ring moves the head. */
  lemma RingDrop(a: seq<byte>, head: nat, n: nat, k: nat)
    requires |a| == STREAM && head < STREAM && k <= n <= STREAM
    ensures (head + k) % STREAM < STREAM
    ensures Ring(a, (head + k) % STREAM, n - k) == Ring(a, head, n)[k..]
  {
    var h := (head + k) % STREAM;
    assert h == if head + k < STREAM then head + k else head + k - STREAM;
    assert forall i :: 0 <= i < n - k ==> Ring(a, h, n - k)[i] == Ring(a, head, n)[k..][i];
  }

  class Socket {
    var used: bool
    var detached: bool
    var peerFin: bool
    var closeReq: bool
    var state: State
    var sndUna: u32
    var sndNxt: u32
    var rcvNxt: u32
    var iss: u32
    var finSeq: u32
    var peerWindow: nat
    var rxHead: nat
    var rxCount: nat
    var txCount: nat
    var tm: Timer
    var fl: Flow
    var error: int
    const rx: array<byte>
    const tx: array<byte>
    /** Segments handed to the IP layer, and how many were tried, in the current call. */
    var wire: seq<Seg>
    var tries: nat

    ghost predicate Valid()
      reads this, rx, tx
    {
      && rx != tx && rx.Length == STREAM && tx.Length == STREAM
      && rxHead < STREAM && rxCount <= STREAM && txCount <= STREAM
    }

    /** The abstract socket. */
    ghost function View(): Sock
      reads this, rx, tx
      requires Valid()
    {
      Sock(used, detached, peerFin, closeReq, state, sndUna, sndNxt, rcvNxt, iss, finSeq, peerWindow,
           Ring(rx[..], rxHead, rxCount), tx[..txCount], error, tm, fl)
    }

    ghost function Now(): Out
      reads this, rx, tx
      requires Valid()
    {
      Out(View(), wire, tries)
    }

    constructor (st: State, isn: u32, next: u32, size: pos, window: nat)
      ensures Valid() && fresh(rx) && fresh(tx)
      ensures Now() == Out(NewSock(st, isn, next, size, window), [], 0)
    {
      used, detached, peerFin, closeReq := true, false, false, false;
      state, sndUna, sndNxt, rcvNxt, iss, finSeq := st, isn, Wrap(isn + 1), next, isn, 0;
      peerWindow, rxHead, rxCount, txCount, error := window, 0, 0, 0, 0;
      tm, fl := Timer(false, 0, 0, 1000, 0, 0, 0, 0), Flow(size, size * 2, 65535, 0);
      rx := new byte[STREAM];
      tx := new byte[STREAM];
      wire, tries := [], 0;
    }

    /** net_tcp_packet. */
    method Transmit(sq: int, syn: bool, fin: bool, ackf: bool, data: seq<byte>, e: Env) returns (r: int)
      requires Valid()
      modifies this`wire, this`tries
      ensures Valid() && View() == old(View())
      ensures r == e.send(old(tries))
      ensures Now() == Emit(old(Now()), Packet(old(View()), sq, syn, fin, ackf, data), e)
    {
      r := e.send(tries);
      if r == 0 {
        wire := wire + [Seg(Wrap(sq), if ackf then rcvNxt else 0, syn, fin, false, ackf,
                            STREAM - rxCount, NoMss, data)];
      }
      tries := tries + 1;
    }

    method SendAck(e: Env)
      requires Valid()
      modifies this`wire, this`tries
      ensures Valid() && View() == old(View())
      ensures Now() == Ack(old(Now()), e)
    {
      var _ := Transmit(sndNxt, false, false, true, [], e);
    }

    method Abort(err: int, now: nat)
      requires Valid()
      modifies this`state, this`error, this`tm, this`used
      ensures Valid() && Now() == old(Now()).(s := Fail(old(View()), err, now))
    {
      state, error, tm := Error, err, tm.(deadline := now + 30000);
      if detached {
        used := false;
      }
    }

    method SmoothRtt(sample: nat)
      requires Valid()
      modifies this`tm
      ensures Valid() && tm == Smooth(old(tm), sample)
    {
      var srtt, rttvar := tm.srtt, tm.rttvar;
      if srtt == 0 {
        srtt, rttvar := sample, sample / 2;
      } else {
        var diff := if srtt > sample then srtt - sample else sample - srtt;
        rttvar := (3 * rttvar + diff) / 4;
        srtt := (7 * srtt + sample) / 8;
      }
      var rto := Min(60000, srtt + 4 * rttvar);
      if rto < 1000 {
        rto := 1000;
      }
      tm := tm.(srtt := srtt, rttvar := rttvar, rto := rto);
    }

    /** net_tcp_rtt. */
    method Sample(now: nat)
      requires Valid()
      modifies this`tm
      ensures Valid() && tm == Rtt(old(tm), now)
    {
      hide Smooth;
      if !tm.retransmitted && tm.sentAt != 0 {
        SmoothRtt(Max(1, Min(Elapsed(now, tm.sentAt), 60000)));
      }
      tm := tm.(retry := 0, retransmitted := false, sentAt := Stamp(now));
    }

    method TransmitOldest(e: Env) returns (r: int)
      requires Valid()
      requires Opening(state) || Finishing(state) || Flight(View()) <= txCount
      modifies this`wire, this`tries
      ensures Valid() && View() == old(View())
      ensures r == e.send(old(tries))
      ensures Now() == Emit(old(Now()), ResendSeg(old(View())), e)
    {
      if Opening(state) {
        r := Transmit(iss, true, false, state.SynRcvd?, [], e);
      } else if Finishing(state) {
        r := Transmit(finSeq, false, true, true, [], e);
      } else {
        var n := Min(fl.mss, Wrap(sndNxt - sndUna));
        assert Take(View().tx, n) == tx[..n];
        r := Transmit(sndUna, false, false, true, tx[..n], e);
      }
    }

    method BackOff(now: nat)
      requires Valid()
      modifies this`tm, this`fl
      ensures Valid() && tm == BackoffTimer(old(tm), now) && fl == BackoffFlow(old(tm), old(fl))
    {
      if tm.sentAt != 0 {
        tm := tm.(retry := tm.retry + 1, retransmitted := true, rto := Min(60000, tm.rto * 2));
        var threshold := Min(fl.cwnd / 2, STREAM);
        if threshold < 2 * fl.mss {
          threshold := 2 * fl.mss;
        }
        fl := fl.(threshold := threshold, cwnd := fl.mss);
      }
      tm := tm.(sentAt := Stamp(now));
    }

    /** Retransmission part of net_tcp_pump; go is false where the source returns. */
    method ResendOldest(e: Env) returns (go: bool)
      requires Valid()
      requires !Opening(state) && !Finishing(state) && sndNxt != sndUna && txCount > 0 ==>
                 Flight(View()) <= txCount
      modifies this
      ensures Valid() && unchanged(rx, tx)
      ensures Stage(Now(), go) == Resend(old(Now()), e)
    {
      hide Wrap, ResendSeg, Ring;
      var control := Opening(state) || Finishing(state);
      if !(control || (sndNxt != sndUna && txCount > 0)) {
        return true;
      }
      if tm.sentAt == 0 || Elapsed(e.now, tm.sentAt) >= tm.rto {
        if tm.retry >= MAX_RETRY {
          Abort(ETIMEDOUT, e.now);
          return false;
        }
        var r := TransmitOldest(e);
        if r == 0 {
          BackOff(e.now);
        } else if r != EAGAIN {
          Abort(r, e.now);
          return false;
        }
      }
      return !control;
    }

    method TransmitNext(inflight: nat, n: nat, e: Env) returns (r: int)
      requires Valid() && inflight + n <= txCount
      modifies this`wire, this`tries, this`tm, this`sndNxt
      ensures Valid() && r == e.send(old(tries))
      ensures Now() == if r == 0 then SendOne(old(Now()), inflight, n, e.now)
                       else old(Now()).(k := old(tries) + 1)
    {
      hide Wrap, Ring;
      assert View().tx[inflight..inflight + n] == tx[inflight..inflight + n];
      r := Transmit(sndNxt, false, false, true, tx[inflight..inflight + n], e);
      if r == 0 {
        if inflight == 0 {
          tm := tm.(sentAt := Stamp(e.now), retransmitted := false);
        }
        sndNxt := Wrap(sndNxt + n);
      }
    }

    /** The transmission loop of net_tcp_pump. */
    method SendFresh(e: Env) returns (go: bool)
      requires Valid() && Flight(View()) <= txCount
      modifies this
      ensures Valid() && unchanged(rx, tx)
      ensures var v := old(View());
              Stage(Now(), go) == SendNew(old(Now()), Flight(v), Min(v.peerWindow, v.fl.cwnd), e)
    {
      hide Wrap, Ring, SendOne;
      var inflight: nat := Wrap(sndNxt - sndUna);
      var window: nat := Min(peerWindow, fl.cwnd);
      ghost var start := SendNew(Now(), inflight, window, e);
      while inflight < txCount && inflight < window
        invariant Valid() && unchanged(rx, tx) && inflight <= txCount
        invariant start == SendNew(Now(), inflight, window, e)
        decreases txCount - inflight
      {
        var n := Min(fl.mss, Min(txCount - inflight, window - inflight));
        var r := TransmitNext(inflight, n, e);
        if r != 0 {
          if r != EAGAIN {
            Abort(r, e.now);
          }
          return false;
        }
        inflight := inflight + n;
      }
      return true;
    }

    method Probe(e: Env)
      requires Valid()
      modifies this`wire, this`tries, this`tm
      ensures Valid() && Now() == Persist(old(Now()), e)
    {
      hide Wrap, Ring;
      if peerWindow == 0 && txCount > 0 && Wrap(sndNxt - sndUna) == 0 && e.now >= tm.persistAt {
        var _ := Transmit(sndUna - 1, false, false, true, [], e);
        tm := tm.(persistAt := e.now + 1000);
      }
    }

    method BeginFin()
      requires Valid()
      modifies this`finSeq, this`sndNxt, this`state, this`tm
      ensures Valid() && Now() == old(Now()).(s := StartFin(old(View())))
    {
      hide Wrap, Ring;
      finSeq := sndNxt;
      sndNxt := Wrap(sndNxt + 1);
      state := if peerFin then LastAck else FinWait1;
      tm := tm.(sentAt := 0, retry := 0);
    }

    /** The part of net_tcp_pump that deals with a live connection. */
    method PumpConnection(e: Env)
      requires Valid()
      requires Sending(state) ==> Flight(View()) <= txCount
      requires !Opening(state) && !Finishing(state) && !Sending(state) ==> sndNxt == sndUna
      modifies this
      ensures Valid() && unchanged(rx, tx) && Now() == PumpLive(old(Now()), e)
    {
      hide Wrap, Ring, Resend, SendNew, Persist, StartFin;
      ghost var o := Now();
      ResendShape(o, e);
      ResendStops(o, e);
      var go := ResendOldest(e);
      if !go || !Sending(state) {
        return;
      }
      SendNewShape(Now(), Flight(View()), Min(peerWindow, fl.cwnd), e);
      go := SendFresh(e);
      if !go {
        return;
      }
      ghost var n := Now();
      Probe(e);
      PersistShape(n, e);
      if closeReq && txCount == 0 {
        BeginFin();
        assert Finishing(state) by { StartFinFinishing(n.s); StartFinFinishing(Persist(n, e).s); }
        var _ := ResendOldest(e);
      }
    }

    /** net_tcp_pump. */
    method RunPump(e: Env, ghost acc: seq<byte>)
      requires Valid() && Good(Now(), acc)
      modifies this
      ensures Valid() && unchanged(rx, tx) && Now() == Pump(old(Now()), e)
    {
      hide PumpLive, Ring, Wrap, SegOk;
      if !used {
        return;
      }
      if state.TimeWait? {
        if e.now >= tm.deadline {
          used := false;
        }
        return;
      }
      if state.Error? {
        if detached {
          used := false;
        }
        return;
      }
      if state.FinWait2? && e.now >= tm.deadline {
        Abort(ETIMEDOUT, e.now);
        return;
      }
      if !e.up {
        Abort(ENETDOWN, e.now);
        return;
      }
      if fl.mss > e.limit {
        fl := fl.(mss := e.limit);
      }
      assert Now() == old(Now()).(s := Clamp(old(View()), e));
      SameFlight(old(View()), View());
      PumpConnection(e);
    }

    /** Shift the transmit buffer down over the acknowledged bytes. */
    method DropAcked(n: nat)
      requires Valid() && n <= txCount
      modifies this`txCount, this`sndUna, tx
      ensures Valid()
      ensures Now() == old(Now()).(s := old(View()).(tx := old(View().tx)[n..], sndUna := Wrap(old(sndUna) + n)))
    {
      hide Ring, Wrap;
      var i := n;
      while i < txCount
        modifies tx
        invariant n <= i <= txCount
        invariant forall j :: 0 <= j < i - n ==> tx[j] == old(tx[j + n])
        invariant forall j :: i - n <= j < STREAM ==> tx[j] == old(tx[j])
      {
        tx[i - n] := tx[i];
        i := i + 1;
      }
      txCount := txCount - n;
      sndUna := Wrap(sndUna + n);
    }

    method GrowWindow(n: nat)
      requires Valid()
      modifies this`fl
      ensures Valid() && fl == Grow(old(fl), n)
    {
      var cwnd := fl.cwnd;
      if cwnd < fl.threshold {
        cwnd := cwnd + Min(n, fl.mss);
      } else {
        cwnd := cwnd + Max(1, fl.mss * fl.mss / cwnd);
      }
      fl := fl.(cwnd := Min(cwnd, STREAM), dupacks := 0);
    }

    method AckData(n: nat, now: nat)
      requires Valid() && n <= txCount
      modifies this, tx
      ensures Valid() && unchanged(rx) && Now() == old(Now()).(s := Acked(old(View()), n, now))
    {
      hide Wrap, Rtt, Grow, Ring;
      DropAcked(n);
      Sample(now);
      GrowWindow(n);
      if sndNxt == sndUna {
        tm := tm.(sentAt := 0);
      }
    }

    method AckFin(ack: u32, now: nat)
      requires Valid()
      modifies this
      ensures Valid() && Now() == old(Now()).(s := FinAcked(old(View()), ack, now))
    {
      hide Ring;
      sndUna, tm := ack, tm.(sentAt := 0);
      if state.LastAck? {
        used := false;
      } else if state.Closing? {
        state, tm := TimeWait, tm.(deadline := now + 120000);
      } else {
        state, tm := FinWait2, tm.(deadline := now + 60000);
      }
    }

    method CountDuplicate(e: Env)
      requires Valid() && Flight(View()) <= txCount
      modifies this
      ensures Valid() && Now() == DuplicateAck(old(Now()), e)
    {
      hide Ring, Wrap;
      fl := fl.(dupacks := fl.dupacks + 1);
      if fl.dupacks == 3 {
        fl := fl.(threshold := Max(2 * fl.mss, fl.cwnd / 2), cwnd := fl.mss);
        tm := tm.(retransmitted := true, sentAt := e.now);
        var n := Min(fl.mss, Wrap(sndNxt - sndUna));
        assert Take(View().tx, n) == tx[..n];
        var _ := Transmit(sndUna, false, false, true, tx[..n], e);
      }
    }

    method OpenPassive(ack: u32, now: nat)
      requires Valid()
      modifies this
      ensures Valid()
      ensures Now() == old(Now()).(s := old(View()).(sndUna := ack, state := Established,
                                                     tm := Rtt(old(tm), now).(sentAt := 0)))
    {
      hide Rtt, Ring;
      sndUna, state := ack, Established;
      Sample(now);
      tm := tm.(sentAt := 0);
    }

    /** Acknowledgement processing of net_tcp_input; go is false where the source returns. */
    method ProcessAck(g: Seg, e: Env) returns (go: bool)
      requires Valid()
      requires |View().tx| > 0 && !SeqBefore(sndUna, g.ack) ==> Flight(View()) <= txCount
      modifies this, tx
      ensures Valid() && Stage(Now(), go) == AckStage(old(Now()), g, e)
    {
      hide Wrap, Ring, Acked, FinAcked, DuplicateAck, Rtt;
      if state.SynRcvd? {
        if g.ack != sndNxt || g.sq != rcvNxt {
          return false;
        }
        OpenPassive(g.ack, e.now);
        return true;
      }
      if SeqBefore(sndUna, g.ack) {
        var n := Wrap(g.ack - sndUna);
        if Finishing(state) {
          if g.ack != Wrap(finSeq + 1) {
            return false;
          }
          var last := state.LastAck?;
          AckFin(g.ack, e.now);
          return !last;
        }
        if n > txCount {
          return false;
        }
        AckData(n, e.now);
      } else if g.ack == sndUna && txCount > 0 && sndNxt != sndUna && |g.data| == 0 && peerWindow == g.wnd {
        CountDuplicate(e);
      }
      return true;
    }

    /** Append to the receive ring. */
    method Enqueue(bytes: seq<byte>)
      requires Valid() && rxCount + |bytes| <= STREAM
      modifies this`rxCount, rx
      ensures Valid()
      ensures Ring(rx[..], rxHead, rxCount) == old(Ring(rx[..], rxHead, rxCount)) + bytes
    {
      var i := 0;
      ghost var queued := Ring(rx[..], rxHead, rxCount);
      while i < |bytes|
        modifies rx
        invariant 0 <= i <= |bytes|
        invariant Ring(rx[..], rxHead, rxCount + i) == queued + bytes[..i]
      {
        SlotIsMod(rxHead, rxCount + i);
        rx[(rxHead + rxCount + i) % STREAM] := bytes[i];
        assert Ring(rx[..], rxHead, rxCount + i + 1) == queued + bytes[..i + 1];
        i := i + 1;
      }
      assert bytes[..i] == bytes;
      rxCount := rxCount + |bytes|;
    }

    method TakeFin(now: nat)
      requires Valid()
      modifies this`peerFin, this`rcvNxt, this`state, this`tm
      ensures Valid() && Now() == old(Now()).(s := FinReceived(old(View()), now))
    {
      hide Wrap, Ring;
      peerFin := true;
      rcvNxt := Wrap(rcvNxt + 1);
      if state.Established? {
        state := CloseWait;
      } else if state.FinWait1? {
        state := Closing;
      } else if state.FinWait2? {
        state, tm := TimeWait, tm.(deadline := now + 120000);
      }
    }

    method TakeData(rest: seq<byte>, fin: bool, now: nat)
      requires Valid()
      modifies this, rx
      ensures Valid() && unchanged(tx) && Now() == old(Now()).(s := Absorb(old(View()), rest, fin, now))
    {
      hide Wrap, Ring, FinReceived;
      var take := Min(|rest|, STREAM - rxCount);
      Enqueue(rest[..take]);
      rcvNxt := Wrap(rcvNxt + take);
      if fin && take == |rest| && !peerFin {
        TakeFin(now);
      }
    }

    /** Data and FIN processing of net_tcp_input; go is false where the source returns. */
    method ProcessData(g: Seg, e: Env) returns (go: bool)
      requires Valid()
      modifies this, rx
      ensures Valid() && unchanged(tx) && Stage(Now(), go) == DataStage(old(Now()), g, e)
    {
      hide Wrap, Ring, Absorb, Packet;
      peerWindow := g.wnd;
      if peerFin && |g.data| > 0 {
        SendAck(e);
        return false;
      }
      if |g.data| > 0 || g.fin {
        var trim := 0;
        if SeqBefore(g.sq, rcvNxt) {
          trim := Min(Wrap(rcvNxt - g.sq), |g.data|);
        }
        if Wrap(g.sq + trim) != rcvNxt {
          SendAck(e);
          return false;
        }
        TakeData(g.data[trim..], g.fin, e.now);
        SendAck(e);
      }
      return true;
    }

    method Adopt(g: Seg, e: Env)
      requires Valid()
      modifies this`fl, this`peerWindow, this`sndUna, this`rcvNxt, this`state
      ensures Valid()
      ensures var m := ChosenMss(g, e);
              Now() == old(Now()).(s := old(View()).(
                  fl := old(fl).(mss := m, cwnd := m * 2), peerWindow := g.wnd, sndUna := g.ack,
                  rcvNxt := Wrap(g.sq + 1), state := Established))
    {
      hide Ring, Wrap;
      fl := fl.(mss := ChosenMss(g, e), cwnd := ChosenMss(g, e) * 2);
      peerWindow, sndUna, rcvNxt, state := g.wnd, g.ack, Wrap(g.sq + 1), Established;
    }

    method InputWhileConnecting(g: Seg, e: Env)
      requires Valid()
      modifies this
      ensures Valid() && unchanged(rx, tx) && Now() == InputSynSent(old(Now()), g, e)
    {
      hide Rtt, Ring, Wrap, Packet, ChosenMss, Emit;
      if g.rst {
        if g.ackf && g.ack == sndNxt {
          Abort(ECONNREFUSED, e.now);
        }
        return;
      }
      if !g.syn || !g.ackf || g.ack != sndNxt || g.opt.BadOptions? {
        return;
      }
      Adopt(g, e);
      Sample(e.now);
      tm := tm.(sentAt := 0);
      SendAck(e);
    }

    method InputSegment(g: Seg, e: Env, ghost acc: seq<byte>)
      requires Valid() && Accepting(View()) && Good(Now(), acc) && |acc| < MAX_STREAM && EnvOk(e)
      requires !SeqBefore(sndNxt, g.ack)
      modifies this, rx, tx
      ensures Valid() && Now() == InputData(old(Now()), g, e)
    {
      hide AckStage, DataStage, Pump, Ring, SegOk, Wrap, Sent;
      ghost var o := Now();
      AckStageKeeps(o, g, e, acc);
      AckStageShape(o, g, e);
      var go := ProcessAck(g, e);
      if !go {
        return;
      }
      ghost var a := Now();
      DataStageHolds(a, g, e, acc);
      go := ProcessData(g, e);
      if !go {
        return;
      }
      RunPump(e, acc);
    }

    method InputConnected(g: Seg, e: Env, ghost acc: seq<byte>)
      requires Valid() && Accepting(View()) && Good(Now(), acc) && |acc| < MAX_STREAM && EnvOk(e)
      modifies this, rx, tx
      ensures Valid() && Now() == InputOpen(old(Now()), g, e)
    {
      hide InputData, Ring, Wrap, SegOk, Packet, Numbers, Sent;
      if !Acceptable(rcvNxt, STREAM - rxCount, g) {
        if !g.rst {
          SendAck(e);
        }
        return;
      }
      if g.rst {
        if g.sq == rcvNxt {
          Abort(ECONNRESET, e.now);
        } else if e.allow {
          SendAck(e);
        }
        return;
      }
      if g.syn {
        if e.allow {
          SendAck(e);
        }
        return;
      }
      if !g.ackf {
        return;
      }
      if SeqBefore(sndNxt, g.ack) {
        SendAck(e);
        return;
      }
      InputSegment(g, e, acc);
    }

    /** net_tcp_input for a segment matched to this socket. */
    method Deliver(g: Seg, e: Env, ghost acc: seq<byte>)
      requires Valid() && used && wire == [] && tries == 0
      requires Inv(View()) && Sent(View(), acc) && |acc| < MAX_STREAM && EnvOk(e)
      modifies this, rx, tx
      ensures Valid() && Now() == Input(old(View()), g, e)
      ensures Holds(old(Now()), Now(), acc)
    {
      hide InputOpen, InputSynSent, Pump, Ring, SegOk, Packet;
      InputHolds(View(), g, e, acc);
      if state.SynSent? {
        InputWhileConnecting(g, e);
      } else if state.TimeWait? {
        if g.fin {
          SendAck(e);
          tm := tm.(deadline := e.now + 120000);
        }
      } else if state.Error? {
      } else if state.SynRcvd? && g.syn && Wrap(g.sq + 1) == rcvNxt {
        ghost var o := Now();
        tm := tm.(sentAt := 0);
        SameProtocolKeeps(o, View(), acc);
        RunPump(e, acc);
      } else {
        InputConnected(g, e, acc);
      }
    }

    /** The TCP branch of k_net_send. */
    method Write(bytes: seq<byte>, e: Env, ghost acc: seq<byte>) returns (code: int)
      requires Valid() && used && wire == [] && tries == 0
      requires Inv(View()) && Sent(View(), acc) && EnvOk(e)
      modifies this, tx
      ensures Valid() && SendResult(Now(), code) == Send(old(View()), bytes, e)
    {
      hide Pump, Ring, SegOk, Wrap;
      if state.Error? {
        return error;
      }
      if !Sending(state) || closeReq {
        return EINVAL;
      }
      var take := Min(|bytes|, STREAM - txCount);
      if take == 0 && |bytes| > 0 {
        return EAGAIN;
      }
      ghost var s := View();
      Append(bytes[..take]);
      AppendSent(s, bytes[..take], acc);
      RunPump(e, acc + bytes[..take]);
      return take;
    }

    method Append(bytes: seq<byte>)
      requires Valid() && txCount + |bytes| <= STREAM
      modifies this`txCount, tx
      ensures Valid() && Now() == old(Now()).(s := old(View()).(tx := old(View().tx) + bytes))
    {
      hide Ring;
      forall i | 0 <= i < |bytes| {
        tx[txCount + i] := bytes[i];
      }
      txCount := txCount + |bytes|;
      assert tx[..txCount] == old(tx[..txCount]) + bytes;
    }

    /** Copy the first bytes of the ring out. */
    method Peek(take: nat) returns (taken: seq<byte>)
      requires Valid() && take <= rxCount
      ensures taken == View().rx[..take]
    {
      taken := [];
      for i := 0 to take
        invariant taken == View().rx[..i]
      {
        SlotIsMod(rxHead, i);
        taken := taken + [rx[(rxHead + i) % STREAM]];
      }
    }

    /** The TCP branch of k_net_receive; taken is what lands in the caller's buffer. */
    method Read(n: nat, e: Env) returns (taken: seq<byte>, code: int)
      requires Valid() && wire == [] && tries == 0
      modifies this
      ensures Valid() && unchanged(rx, tx) && RecvResult(Now(), taken, code) == Receive(old(View()), n, e)
    {
      hide Packet, Ring;
      if n == 0 {
        return [], 0;
      }
      if rxCount > 0 {
        var take := Min(n, rxCount);
        taken := Peek(take);
        RingDrop(rx[..], rxHead, rxCount, take);
        rxHead := (rxHead + take) % STREAM;
        rxCount := rxCount - take;
        SendAck(e);
        return taken, take;
      }
      return [], if peerFin then 0 else if state.Error? then error else EAGAIN;
    }
  }

  lemma StartFinFinishing(s: Sock)
    ensures Finishing(StartFin(s).state)
  {
  }
}


