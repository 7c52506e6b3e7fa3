/**
 Two TCP endpoints joined by a network that may lose, repeat and reorder
 segments, and that may be joined by forged resets. A run is any sequence of
 actions; StreamSafety holds in every state of every run.
 */
module TcpRuns {
  import opened Basics
  import opened Tcp
  import opened TcpInvariant

  // ---------------------------------------------------------------- receiving

  /** s holds a prefix of the peer's stream acc, of which dlv was already handed out. */
  ghost predicate Received(s: Sock, irs: u32, acc: seq<byte>, dlv: seq<byte>) {
    s.used ==>
      && dlv + s.rx <= acc
      && (s.peerFin ==> dlv + s.rx == acc)
      && (Opening(s.state) ==> dlv == [])
      && (!s.state.Error? && !s.state.SynSent? ==>
            s.rcvNxt == Wrap(irs + 1 + |dlv| + |s.rx| + (if s.peerFin then 1 else 0)))
  }

  lemma ReceivedTransfers(s: Sock, t: Sock, irs: u32, acc: seq<byte>, dlv: seq<byte>)
    requires Received(s, irs, acc, dlv) && SameReceiver(s, t) && Later(s, t)
    ensures Received(t, irs, acc, dlv)
  {
  }

  /** Equal sequence numbers mean equal stream offsets, for streams below MAX_STREAM. */
  lemma SameOffset(irs: u32, x: nat, y: nat)
    requires x < U32 && y < U32 && Wrap(irs + 1 + x) == Wrap(irs + 1 + y)
    ensures x == y
  {
  }

  lemma TrimmedOffset(sq: u32, irs: u32, got: nat, trim: nat)
    requires got < MAX_STREAM && Wrap(sq - irs - 1) < MAX_STREAM && trim <= 1440
    requires Wrap(sq + trim) == Wrap(irs + 1 + got)
    ensures Wrap(sq - irs - 1) + trim == got
  {
    var off := Wrap(sq - irs - 1);
    assert sq == irs + 1 + off || sq == irs + 1 + off - U32;
    assert Wrap(irs + 1 + (off + trim)) == Wrap(sq + trim);
    SameOffset(irs, off + trim, got);
  }

  lemma PrefixExtends(base: seq<byte>, more: seq<byte>, acc: seq<byte>)
    requires base <= acc && |base| + |more| <= |acc| && more == acc[|base|..|base| + |more|]
    ensures base + more <= acc
  {
  }

  lemma AbsorbData(s: Sock, rest: seq<byte>, now: nat, irs: u32, acc: seq<byte>, dlv: seq<byte>)
    requires s.used && !s.state.Error? && !Opening(s.state) && !s.peerFin
    requires |s.rx| <= STREAM
    requires Received(s, irs, acc, dlv)
    requires |dlv| + |s.rx| + |rest| <= |acc|
    requires rest == acc[|dlv| + |s.rx|..|dlv| + |s.rx| + |rest|]
    ensures Received(Absorb(s, rest, false, now), irs, acc, dlv)
    ensures dlv + Absorb(s, rest, false, now).rx == acc[..|dlv| + |s.rx| + Min(|rest|, Window(s))]
  {
    var take := Min(|rest|, Window(s));
    var t := Absorb(s, rest, false, now);
    var have := dlv + s.rx;
    var more := rest[..take];
    assert more == acc[|have|..|have| + |more|];
    PrefixExtends(have, more, acc);
    assert dlv + t.rx == have + more;
    WrapAdd(irs + 1 + |have|, take);
  }

  lemma AbsorbFin(s: Sock, now: nat, irs: u32, acc: seq<byte>, dlv: seq<byte>)
    requires s.used && !s.state.Error? && !Opening(s.state)
    requires |s.rx| <= STREAM
    requires Received(s, irs, acc, dlv)
    requires !s.peerFin ==> |dlv| + |s.rx| == |acc|
    ensures Received(Absorb(s, [], true, now), irs, acc, dlv)
  {
    var t := Absorb(s, [], true, now);
    assert s.rx + [] == s.rx;
    WrapAdd(irs + 1 + |dlv| + |s.rx|, 1);
    WrapAdd(irs + 1 + |dlv| + |s.rx|, 0);
    if !s.peerFin {
      assert dlv + s.rx == acc;
    }
  }

  lemma RestOfData(g: Seg, irs: u32, acc: seq<byte>, frozen: bool, trim: nat, got: nat)
    requires SegOk(g, irs, acc, frozen) && !g.rst && !g.syn && |g.data| > 0 && trim <= |g.data|
    requires |acc| < MAX_STREAM && got < MAX_STREAM && Wrap(g.sq + trim) == Wrap(irs + 1 + got)
    ensures !g.fin && got + |g.data| - trim <= |acc|
    ensures g.data[trim..] == acc[got..got + |g.data| - trim]
  {
    TrimmedOffset(g.sq, irs, got, trim);
  }

  lemma AbsorbGenuine(s: Sock, g: Seg, now: nat, irs: u32, acc: seq<byte>, dlv: seq<byte>, frozen: bool)
    requires s.used && !s.state.Error? && !Opening(s.state) && |s.rx| <= STREAM
    requires Received(s, irs, acc, dlv) && |acc| < MAX_STREAM
    requires SegOk(g, irs, acc, frozen) && !g.rst && !g.syn
    requires |g.data| > 0 || g.fin
    requires s.peerFin ==> |g.data| == 0
    requires Wrap(g.sq + Trim(s, g)) == s.rcvNxt
    ensures Received(Absorb(s, g.data[Trim(s, g)..], g.fin, now), irs, acc, dlv)
  {
    var trim := Trim(s, g);
    if |g.data| > 0 {
      RestOfData(g, irs, acc, frozen, trim, |dlv| + |s.rx|);
      AbsorbData(s, g.data[trim..], now, irs, acc, dlv);
    } else {
      assert trim == 0 && g.data[trim..] == [];
      WrapSmall(g.sq);
      if !s.peerFin {
        SameOffset(irs, |acc|, |dlv| + |s.rx|);
      }
      AbsorbFin(s, now, irs, acc, dlv);
    }
  }

  lemma DataStageReceives(o: Out, g: Seg, e: Env, irs: u32, acc: seq<byte>, dlv: seq<byte>, frozen: bool)
    requires o.s.used && !o.s.state.Error? && !Opening(o.s.state) && |o.s.rx| <= STREAM
    requires Received(o.s, irs, acc, dlv) && |acc| < MAX_STREAM
    requires SegOk(g, irs, acc, frozen) && !g.rst && !g.syn
    ensures Received(DataStage(o, g, e).o.s, irs, acc, dlv)
    ensures DataStage(o, g, e).o.s.peerFin && !o.s.peerFin ==> frozen
  {
    var s := o.s.(peerWindow := g.wnd);
    assert Received(s, irs, acc, dlv);
    if !(s.peerFin && |g.data| > 0) && (|g.data| > 0 || g.fin) && Wrap(g.sq + Trim(s, g)) == s.rcvNxt {
      AbsorbGenuine(s, g, e.now, irs, acc, dlv, frozen);
    }
  }

  lemma InputDataReceives(o: Out, g: Seg, e: Env, mine: seq<byte>,
                          irs: u32, acc: seq<byte>, dlv: seq<byte>, frozen: bool)
    requires Accepting(o.s) && Good(o, mine) && |mine| < MAX_STREAM && EnvOk(e)
    requires !SeqBefore(o.s.sndNxt, g.ack)
    requires Received(o.s, irs, acc, dlv) && |acc| < MAX_STREAM
    requires SegOk(g, irs, acc, frozen) && !g.rst && !g.syn
    ensures Received(InputData(o, g, e).s, irs, acc, dlv)
    ensures InputData(o, g, e).s.peerFin && !o.s.peerFin ==> frozen
  {
    hide SegOk, Pump, AckStage, DataStage, Received;
    AckStageKeeps(o, g, e, mine);
    AckStageShape(o, g, e);
    var a := AckStage(o, g, e);
    ReceivedTransfers(o.s, a.o.s, irs, acc, dlv);
    if a.go {
      DataStageReceives(a.o, g, e, irs, acc, dlv, frozen);
      DataStageHolds(a.o, g, e, mine);
      var d := DataStage(a.o, g, e);
      if d.go {
        PumpKeeps(d.o, e, mine);
        ReceivedTransfers(d.o.s, Pump(d.o, e).s, irs, acc, dlv);
      }
    }
  }

  lemma InputOpenReceives(o: Out, g: Seg, e: Env, mine: seq<byte>,
                          irs: u32, acc: seq<byte>, dlv: seq<byte>, frozen: bool)
    requires Accepting(o.s) && Good(o, mine) && |mine| < MAX_STREAM && EnvOk(e)
    requires Received(o.s, irs, acc, dlv) && |acc| < MAX_STREAM
    requires SegOk(g, irs, acc, frozen)
    ensures Received(InputOpen(o, g, e).s, irs, acc, dlv)
    ensures InputOpen(o, g, e).s.peerFin && !o.s.peerFin ==> frozen
  {
    hide SegOk, InputData;
    if Acceptable(o.s.rcvNxt, Window(o.s), g) && !g.rst && !g.syn && g.ackf && !SeqBefore(o.s.sndNxt, g.ack) {
      InputDataReceives(o, g, e, mine, irs, acc, dlv, frozen);
      assert InputOpen(o, g, e) == InputData(o, g, e);
    }
  }

  /** A genuine (or reset) segment extends what the receiver holds only with the sender's next bytes. */
  lemma InputReceives(s: Sock, g: Seg, e: Env, mine: seq<byte>,
                      irs: u32, acc: seq<byte>, dlv: seq<byte>, frozen: bool)
    requires s.used && Inv(s) && Sent(s, mine) && |mine| < MAX_STREAM && EnvOk(e)
    requires Received(s, irs, acc, dlv) && |acc| < MAX_STREAM
    requires SegOk(g, irs, acc, frozen)
    ensures Received(Input(s, g, e).s, irs, acc, dlv)
    ensures Input(s, g, e).s.peerFin && !s.peerFin ==> frozen
  {
    hide InputOpen, Pump;
    var o := Out(s, [], 0);
    if s.state.SynSent? {
      assert Input(s, g, e) == InputSynSent(o, g, e);
      assert dlv + s.rx == [];
    } else if s.state.TimeWait? {
      assert Input(s, g, e).s == s || Input(s, g, e).s == s.(tm := Input(s, g, e).s.tm);
    } else if s.state.Error? {
      assert Input(s, g, e) == o;
    } else if s.state.SynRcvd? && g.syn && Wrap(g.sq + 1) == s.rcvNxt {
      InputRepeatedSynHolds(s, e, mine);
      ReceivedTransfers(s, Input(s, g, e).s, irs, acc, dlv);
    } else {
      InputOpenReceives(o, g, e, mine, irs, acc, dlv, frozen);
      assert Input(s, g, e) == InputOpen(o, g, e);
    }
  }

  /** The 32-bit comparison orders stream offsets that are less than 2^31 apart. */
  lemma SeqBeforeOffsets(irs: u32, x: int, y: int)
    requires -1 <= x && -1 <= y && -0x8000_0000 < x - y < 0x8000_0000
    ensures SeqBefore(Wrap(irs + 1 + x), Wrap(irs + 1 + y)) <==> x < y
  {
    WrapIsMod(irs + 1 + x);
    WrapIsMod(irs + 1 + y);
    WrapIsMod(Wrap(irs + 1 + x) - Wrap(irs + 1 + y));
  }

  lemma InWindowOffsets(s: Sock, irs: u32, got: nat, at: nat)
    requires s.rcvNxt == Wrap(irs + 1 + got) && |s.rx| <= STREAM
    requires -0x4000_0000 < at - got < 0x4000_0000
    ensures InWindow(s.rcvNxt, Window(s), Wrap(irs + 1 + at)) <==> got <= at < got + Window(s)
  {
    SeqBeforeOffsets(irs, at, got);
    SeqBeforeOffsets(irs, at, got + Window(s));
    WrapAdd(irs + 1 + got, Window(s));
  }

  /** The acceptability test in stream terms: the first or the last byte lies in the window. */
  lemma AcceptableOffsets(s: Sock, g: Seg, irs: u32, got: nat, off: nat)
    requires s.rcvNxt == Wrap(irs + 1 + got) && |s.rx| < STREAM
    requires g.sq == Wrap(irs + 1 + off) && 0 < SegLen(g) <= 1441
    requires -0x3000_0000 < off - got < 0x3000_0000
    ensures Acceptable(s.rcvNxt, Window(s), g) <==>
              got <= off < got + Window(s) || got <= off + SegLen(g) - 1 < got + Window(s)
  {
    InWindowOffsets(s, irs, got, off);
    InWindowOffsets(s, irs, got, off + SegLen(g) - 1);
    WrapAdd(irs + 1 + off, SegLen(g) - 1);
  }

  /** The data stage takes a genuine segment from the next expected byte on, up to the window. */
  lemma DataTaken(o: Out, g: Seg, e: Env, irs: u32, acc: seq<byte>, dlv: seq<byte>, frozen: bool)
    requires o.s.used && !o.s.state.Error? && !Opening(o.s.state) && !o.s.peerFin && |o.s.rx| <= STREAM
    requires Received(o.s, irs, acc, dlv) && |acc| < MAX_STREAM
    requires SegOk(g, irs, acc, frozen) && !g.rst && !g.syn && |g.data| > 0
    requires Offset(g, irs) <= |dlv| + |o.s.rx| < Offset(g, irs) + |g.data|
    ensures var got := |dlv| + |o.s.rx|;
            var take := Min(Offset(g, irs) + |g.data| - got, Window(o.s));
            dlv + DataStage(o, g, e).o.s.rx == acc[..got + take]
  {
    hide SegOk, Wrap;
    var got := |dlv| + |o.s.rx|;
    var s := o.s.(peerWindow := g.wnd);
    var trim := got - Offset(g, irs);
    SegOkData(g, irs, acc, frozen);
    TrimOffsets(s, g, irs, got);
    RestOfData(g, irs, acc, frozen, trim, got);
    AbsorbData(s, g.data[trim..], e.now, irs, acc, dlv);
  }

  /** With the sender in order, every acknowledgement that is not ahead of it passes. */
  lemma AckPasses(s: Sock, g: Seg, e: Env)
    requires s.used && Inv(s) && (s.state.Established? || s.state.FinWait1? || s.state.FinWait2?) && !SeqBefore(s.sndNxt, g.ack)
    ensures AckStage(Out(s, [], 0), g, e).go
  {
    hide Wrap, Acked, FinAcked, DuplicateAck;
    if SeqBefore(s.sndUna, g.ack) {
      FlightIs(s);
      AckInFlight(s, g.ack);
    }
  }

  lemma FlightIs(s: Sock)
    requires s.used && Inv(s)
    ensures s.state.Established? ==> Flight(s) <= |s.tx| <= STREAM
    ensures s.state.FinWait1? ==> Flight(s) == 1 && Wrap(s.sndUna + 1) == Wrap(s.finSeq + 1)
    ensures s.state.FinWait2? ==> Flight(s) == 0
  {
    WrapIsMod(s.sndNxt - s.sndUna);
    WrapIsMod(s.finSeq + 1);
  }

  /** A socket that still receives, and a genuine data segment that covers the next expected byte. */
  ghost predicate NextArrives(s: Sock, g: Seg, irs: u32, acc: seq<byte>, dlv: seq<byte>, frozen: bool) {
    && s.used && Inv(s) && (s.state.Established? || s.state.FinWait1? || s.state.FinWait2?)
    && Received(s, irs, acc, dlv) && |acc| < MAX_STREAM
    && SegOk(g, irs, acc, frozen) && !g.rst && !g.syn && |g.data| > 0 && g.ackf && !SeqBefore(s.sndNxt, g.ack)
    && Offset(g, irs) <= |dlv| + |s.rx| < Offset(g, irs) + |g.data|
  }

  /** The segment starts at the next expected byte, or ends within the window. */
  predicate Admitted(s: Sock, off: nat, n: nat, got: nat) { Window(s) > 0 && (off == got || off + n <= got + Window(s)) }

  lemma AdmittedIs(s: Sock, g: Seg, irs: u32, acc: seq<byte>, dlv: seq<byte>, frozen: bool)
    requires NextArrives(s, g, irs, acc, dlv, frozen)
    ensures Acceptable(s.rcvNxt, Window(s), g) <==> Admitted(s, Offset(g, irs), |g.data|, |dlv| + |s.rx|)
  {
    hide SegOk, Wrap, InWindow;
    SegOkData(g, irs, acc, frozen);
    OffsetIsSeq(g, irs);
    if |s.rx| < STREAM {
      AcceptableOffsets(s, g, irs, |dlv| + |s.rx|, Offset(g, irs));
    }
  }

  /**
   What input does with a genuine segment that covers the next expected byte: if it is admitted its
   bytes are taken from there on, up to the window; if not, the socket is as it was.
   */
  lemma NextBytesTaken(s: Sock, g: Seg, e: Env, mine: seq<byte>, irs: u32, acc: seq<byte>, dlv: seq<byte>, frozen: bool)
    requires NextArrives(s, g, irs, acc, dlv, frozen) && Sent(s, mine) && |mine| < MAX_STREAM && EnvOk(e)
    ensures var got := |dlv| + |s.rx|;
            var take := Min(Offset(g, irs) + |g.data| - got, Window(s));
            if Admitted(s, Offset(g, irs), |g.data|, got)
            then take > 0 && dlv + Input(s, g, e).s.rx == acc[..got + take]
            else Input(s, g, e).s == s
  {
    hide SegOk, Wrap, Acceptable, AckStage, DataStage, Pump, Inv;
    AdmittedIs(s, g, irs, acc, dlv, frozen);
    var o := Out(s, [], 0);
    ReceivingPlain(s);
    assert Input(s, g, e) == InputOpen(o, g, e);
    if Acceptable(s.rcvNxt, Window(s), g) {
      assert Input(s, g, e) == InputData(o, g, e);
      AckPasses(s, g, e);
      FreshGood(s, mine);
      AckStageKeeps(o, g, e, mine);
      AckStageShape(o, g, e);
      var a := AckStage(o, g, e).o;
      ReceivedTransfers(s, a.s, irs, acc, dlv);
      DataTaken(a, g, e, irs, acc, dlv, frozen);
      DataStageHolds(a, g, e, mine);
      PumpKeeps(DataStage(a, g, e).o, e, mine);
    }
  }

  lemma ReceivingPlain(s: Sock)
    requires s.used && Inv(s) && (s.state.Established? || s.state.FinWait1? || s.state.FinWait2?)
    ensures Accepting(s) && !s.peerFin && |s.rx| <= STREAM
  {
    hide Wrap;
  }

  lemma FreshGood(s: Sock, mine: seq<byte>)
    requires Inv(s) && Sent(s, mine)
    ensures Good(Out(s, [], 0), mine)
  {
    hide Inv, Sent;
  }

  // A receiver with five bytes of room and a segment of ten that starts one byte early.

  function Straddled(): Sock {
    NewSock(Established, 0, STREAM - 4, 1440, 65535).(sndUna := 1, rx := Zeros(STREAM - 5), fl := Flow(1440, 2880, 65535, 0))
  }

  function Straddling(): Seg { Seg(STREAM - 5, 1, false, false, false, true, 65535, NoMss, Zeros(10)) }

  /** A segment that begins before the window and ends behind it is refused, though its bytes are wanted. */
  lemma StraddlerRefused(e: Env)
    requires EnvOk(e)
    ensures NextArrives(Straddled(), Straddling(), 0, Zeros(20000), [], false) && Sent(Straddled(), [])
    ensures Input(Straddled(), Straddling(), e).s == Straddled()
    ensures DataStage(Out(Straddled(), [], 0), Straddling(), e).o.s.rx == Zeros(STREAM)
  {
    hide Zeros, Input, DataStage;
    StraddlerArrives();
    var s, g, acc := Straddled(), Straddling(), Zeros(20000);
    StraddledNumbers();
    NextBytesTaken(s, g, e, [], 0, acc, [], false);
    DataTaken(Out(s, [], 0), g, e, 0, acc, [], false);
    ZerosPrefix(STREAM, 20000);
  }

  lemma ZerosPrefix(n: nat, m: nat)
    requires n <= m
    ensures Zeros(m)[..n] == Zeros(n) && Zeros(n) <= Zeros(m) && |Zeros(m)| == m && |Zeros(n)| == n
  {
  }

  lemma StraddledNumbers()
    ensures var s, g := Straddled(), Straddling();
      s.state.Established? && s.used && !s.peerFin && |s.rx| == STREAM - 5 && Window(s) == 5 && Offset(g, 0) == STREAM - 6 && |g.data| == 10
      && !g.rst && !g.syn
  {
  }

  lemma StraddlerArrives()
    ensures NextArrives(Straddled(), Straddling(), 0, Zeros(20000), [], false) && Sent(Straddled(), [])
  {
    ZerosPrefix(STREAM - 5, 20000);
    assert [] + Zeros(STREAM - 5) == Zeros(STREAM - 5);
    assert Zeros(10) == Zeros(20000)[STREAM - 6..STREAM + 4];
  }

  lemma TrimOffsets(s: Sock, g: Seg, irs: u32, got: nat)
    requires s.rcvNxt == Wrap(irs + 1 + got) && |g.data| <= 1440
    requires Offset(g, irs) <= got < Offset(g, irs) + |g.data|
    ensures Trim(s, g) == got - Offset(g, irs)
    ensures Wrap(g.sq + Trim(s, g)) == s.rcvNxt
  {
    var off := Offset(g, irs);
    OffsetIsSeq(g, irs);
    SeqBeforeOffsets(irs, off, got);
    WrapIsMod(s.rcvNxt - g.sq);
    WrapIsMod(irs + 1 + got);
    WrapIsMod(irs + 1 + off);
    WrapAdd(irs + 1 + off, got - off);
  }

  lemma SegOkData(g: Seg, irs: u32, acc: seq<byte>, frozen: bool)
    requires SegOk(g, irs, acc, frozen) && !g.rst && !g.syn && |g.data| > 0
    ensures !g.fin && |g.data| <= 1440 && Offset(g, irs) + |g.data| <= |acc|
  {
  }

  lemma OffsetIsSeq(g: Seg, irs: u32)
    ensures g.sq == Wrap(irs + 1 + Offset(g, irs))
  {
    WrapIsMod(g.sq - irs - 1);
    WrapIsMod(irs + 1 + Offset(g, irs));
  }

  // ---------------------------------------------------------------- the system

  /** One end: its socket once there is one, the bytes accepted from and handed to the
      application, and whether a nonzero-length receive has reported end of stream. */
  datatype Peer = Peer(sock: Option<Sock>, acc: seq<byte>, dlv: seq<byte>, eof: bool)

  /** The active opener, the listener, and every segment ever sent in each direction. */
  datatype Sys = Sys(client: Peer, server: Peer, toServer: set<Seg>, toClient: set<Seg>)

  datatype Side = Client | Server

  datatype Action =
    | DoConnect(iss: u32, mss: pos, e: Env)
    | DoDeliver(to: Side, g: Seg, iss: u32, e: Env)
    | DoPump(at: Side, e: Env)
    | DoSend(at: Side, bytes: seq<byte>, e: Env)
    | DoReceive(at: Side, n: nat, e: Env)
    | DoClose(at: Side, e: Env)
    | DoFault(at: Side, err: int, e: Env)
    | DoMtu(at: Side, mss: pos, e: Env)

  const NOBODY := Peer(None, [], [], false)
  const INITIAL := Sys(NOBODY, NOBODY, {}, {})

  function At(y: Sys, side: Side): Peer { if side.Client? then y.client else y.server }

  function Incoming(y: Sys, side: Side): set<Seg> { if side.Client? then y.toClient else y.toServer }

  /** Install a peer's new state and put the segments it sent on its outgoing wire. */
  function Put(y: Sys, side: Side, p: Peer, segs: seq<Seg>): Sys {
    var sent := set i | 0 <= i < |segs| :: segs[i];
    if side.Client? then y.(client := p, toServer := y.toServer + sent)
    else y.(server := p, toClient := y.toClient + sent)
  }

  function PutOut(y: Sys, side: Side, o: Out): Sys {
    Put(y, side, At(y, side).(sock := Some(o.s)), o.segs)
  }

  predicate Reachable(p: Peer) { p.sock.Some? && p.sock.value.used }

  /** The application's handle works until it closes the socket. */
  predicate Owned(p: Peer) { Reachable(p) && !p.sock.value.detached }

  function Deliver(y: Sys, to: Side, g: Seg, iss: u32, e: Env): Sys {
    var p := At(y, to);
    if g !in Incoming(y, to) && !g.rst then y
    else if Reachable(p) then PutOut(y, to, Input(p.sock.value, g, e))
    else if to.Server? && p.sock.None? && g.syn && !g.ackf && !g.rst && !g.fin && !g.opt.BadOptions? then
      PutOut(y, to, Accept(iss, g, e))
    else y
  }

  /** The bytes a send call reports as accepted. */
  function Took(r: SendResult, bytes: seq<byte>): seq<byte> {
    if 0 <= r.code <= |bytes| then bytes[..r.code] else []
  }

  function Step(y: Sys, a: Action): Sys {
    match a
    case DoConnect(iss, mss, e) =>
      if y.client.sock.Some? then y else PutOut(y, Client, Connect(iss, mss, e))
    case DoDeliver(to, g, iss, e) => Deliver(y, to, g, iss, e)
    case DoPump(at, e) =>
      if !Reachable(At(y, at)) then y else PutOut(y, at, Pump(Out(At(y, at).sock.value, [], 0), e))
    case DoSend(at, bytes, e) =>
      var p := At(y, at);
      if !Owned(p) then y
      else
        var r := Send(p.sock.value, bytes, e);
        Put(y, at, p.(sock := Some(r.o.s), acc := p.acc + Took(r, bytes)), r.o.segs)
    case DoReceive(at, n, e) =>
      var p := At(y, at);
      if !Owned(p) then y
      else
        var r := Receive(p.sock.value, n, e);
        Put(y, at, p.(sock := Some(r.o.s), dlv := p.dlv + r.bytes, eof := p.eof || (n > 0 && r.code == 0)),
            r.o.segs)
    case DoClose(at, e) =>
      if !Owned(At(y, at)) then y else PutOut(y, at, Close(At(y, at).sock.value, e))
    case DoFault(at, err, e) =>
      if !Reachable(At(y, at)) then y
      else PutOut(y, at, Out(Fail(At(y, at).sock.value, err, e.now), [], 0))
    case DoMtu(at, mss, e) =>
      if !Reachable(At(y, at)) then y
      else PutOut(y, at, Out(PathMtu(At(y, at).sock.value, mss), [], 0))
  }

  function Run(acts: seq<Action>): Sys {
    if acts == [] then INITIAL else Step(Run(acts[..|acts| - 1]), acts[|acts| - 1])
  }

  // ---------------------------------------------------------------- the invariant

  ghost function Isn(p: Peer): u32 { if p.sock.Some? then p.sock.value.iss else 0 }

  ghost predicate Done(p: Peer) { p.sock.Some? && Frozen(p.sock.value) }

  ghost predicate SenderOk(p: Peer, wire: set<Seg>) {
    && (p.sock.None? ==> p.acc == [] && wire == {})
    && (p.sock.Some? ==>
          && Inv(p.sock.value) && Sent(p.sock.value, p.acc)
          && forall g :: g in wire ==> SegOk(g, p.sock.value.iss, p.acc, Frozen(p.sock.value)))
  }

  /** q has received from p: everything handed out is a prefix, and end of stream means all of it. */
  ghost predicate ReceiverOk(p: Peer, q: Peer) {
    && q.dlv <= p.acc
    && (q.eof ==> q.dlv == p.acc && Done(p))
    && (q.sock.None? ==> q.dlv == [] && !q.eof)
    && (q.sock.Some? ==>
          && Received(q.sock.value, Isn(p), p.acc, q.dlv)
          && (q.sock.value.used && q.sock.value.peerFin ==> Done(p))
          && (q.sock.value.used && p.sock.None? ==> q.sock.value.state.SynSent? || q.sock.value.state.Error?))
  }

  ghost predicate SysInv(y: Sys) {
    && SenderOk(y.client, y.toServer) && SenderOk(y.server, y.toClient)
    && ReceiverOk(y.client, y.server) && ReceiverOk(y.server, y.client)
  }

  function Other(side: Side): Side { if side.Client? then Server else Client }

  /** Peer p became p' without breaking what the far end relies on. */
  ghost predicate Grows(p: Peer, p': Peer) {
    && p.acc <= p'.acc && p'.sock.Some?
    && (p.sock.Some? ==> p.sock.value.iss == p'.sock.value.iss)
    && (Done(p) ==> Done(p') && p'.acc == p.acc)
  }

  lemma SegOkGrows(g: Seg, iss: u32, acc: seq<byte>, acc': seq<byte>, f: bool, f': bool)
    requires SegOk(g, iss, acc, f) && acc <= acc' && (f ==> f' && acc' == acc)
    ensures SegOk(g, iss, acc', f')
  {
  }

  lemma ReceiverKeeps(p: Peer, p': Peer, q: Peer)
    requires ReceiverOk(p, q) && Grows(p, p') && (p.sock.None? ==> p.acc == [])
    ensures ReceiverOk(p', q)
  {
    hide Wrap;
    if q.sock.Some? && q.sock.value.used {
      assert q.dlv + q.sock.value.rx <= p'.acc;
    }
  }

  lemma SenderKeeps(p: Peer, p': Peer, wire: set<Seg>, segs: seq<Seg>)
    requires SenderOk(p, wire) && Grows(p, p')
    requires Good(Out(p'.sock.value, segs, 0), p'.acc)
    ensures SenderOk(p', wire + (set i | 0 <= i < |segs| :: segs[i]))
  {
    var t := p'.sock.value;
    forall g | g in wire + (set i | 0 <= i < |segs| :: segs[i])
      ensures SegOk(g, t.iss, p'.acc, Frozen(t))
    {
      if g in wire {
        SegOkGrows(g, t.iss, p.acc, p'.acc, Frozen(p.sock.value), Frozen(t));
      }
    }
  }

  /** The one place where a peer changes: its own duties and the far end's view stay intact. */
  lemma PutKeeps(y: Sys, side: Side, p': Peer, segs: seq<Seg>)
    requires SysInv(y) && Grows(At(y, side), p')
    requires Good(Out(p'.sock.value, segs, 0), p'.acc)
    requires ReceiverOk(At(y, Other(side)), p')
    ensures SysInv(Put(y, side, p', segs))
  {
    hide SegOk, Received;
    var p, q := At(y, side), At(y, Other(side));
    SenderKeeps(p, p', Incoming(y, Other(side)), segs);
    ReceiverKeeps(p, p', q);
  }

  lemma PutOutKeeps(y: Sys, side: Side, o: Out)
    requires SysInv(y) && Reachable(At(y, side))
    requires Keeps(Out(At(y, side).sock.value, [], 0), o, At(y, side).acc)
    ensures SysInv(PutOut(y, side, o))
  {
    hide SegOk;
    var p, q := At(y, side), At(y, Other(side));
    var p' := p.(sock := Some(o.s));
    ReceivedTransfers(p.sock.value, o.s, Isn(q), q.acc, p.dlv);
    assert Later(p.sock.value, o.s);
    PutKeeps(y, side, p', o.segs);
  }

  ghost predicate Short(y: Sys) { |y.client.acc| < MAX_STREAM && |y.server.acc| < MAX_STREAM }

  lemma NewSockGood(st: State, iss: u32, rcvNxt: u32, mss: pos, wnd: nat)
    requires Opening(st) && mss <= 1440
    ensures Good(Out(NewSock(st, iss, rcvNxt, mss, wnd), [], 0), [])
  {
  }

  lemma ConnectKeeps(y: Sys, iss: u32, mss: pos, e: Env)
    requires SysInv(y) && y.client.sock.None? && EnvOk(e) && mss <= 1440
    ensures SysInv(PutOut(y, Client, Connect(iss, mss, e)))
  {
    hide Pump, Wrap;
    var n := NewSock(SynSent, iss, 0, mss, 65535);
    NewSockGood(SynSent, iss, 0, mss, 65535);
    var o := Connect(iss, mss, e);
    PumpKeeps(Out(n, [], 0), e, []);
    var p' := y.client.(sock := Some(o.s));
    assert Received(n, Isn(y.server), y.server.acc, []);
    ReceivedTransfers(n, o.s, Isn(y.server), y.server.acc, []);
    assert ReceiverOk(y.server, p');
    PutKeeps(y, Client, p', o.segs);
  }

  lemma AcceptKeeps(y: Sys, g: Seg, iss: u32, e: Env)
    requires SysInv(y) && y.server.sock.None? && EnvOk(e) && g in y.toServer
    requires g.syn && !g.rst
    ensures SysInv(PutOut(y, Server, Accept(iss, g, e)))
  {
    hide Pump, Wrap;
    var n := NewSock(SynRcvd, iss, Wrap(g.sq + 1), ChosenMss(g, e), g.wnd);
    NewSockGood(SynRcvd, iss, Wrap(g.sq + 1), ChosenMss(g, e), g.wnd);
    var o := Accept(iss, g, e);
    PumpKeeps(Out(n, [], 0), e, []);
    var p' := y.server.(sock := Some(o.s));
    assert y.client.sock.Some?;
    assert Received(n, Isn(y.client), y.client.acc, []);
    ReceivedTransfers(n, o.s, Isn(y.client), y.client.acc, []);
    assert ReceiverOk(y.client, p');
    PutKeeps(y, Server, p', o.segs);
  }

  lemma DeliverKeeps(y: Sys, to: Side, g: Seg, e: Env)
    requires SysInv(y) && Short(y) && EnvOk(e) && Reachable(At(y, to))
    requires g in Incoming(y, to) || g.rst
    ensures SysInv(PutOut(y, to, Input(At(y, to).sock.value, g, e)))
  {
    hide Input;
    var p, q := At(y, to), At(y, Other(to));
    var s := p.sock.value;
    var o := Input(s, g, e);
    InputHolds(s, g, e, p.acc);
    assert SegOk(g, Isn(q), q.acc, Done(q));
    InputReceives(s, g, e, p.acc, Isn(q), q.acc, p.dlv, Done(q));
    var p' := p.(sock := Some(o.s));
    if q.sock.None? {
      InputBeforePeer(s, g, e);
    }
    assert ReceiverOk(q, p');
    PutKeeps(y, to, p', o.segs);
  }

  /** With no far end yet, only resets reach the opener, and they fail it or leave it waiting. */
  lemma InputBeforePeer(s: Sock, g: Seg, e: Env)
    requires s.state.SynSent? || s.state.Error?
    requires g.rst
    ensures Input(s, g, e).s.state.SynSent? || Input(s, g, e).s.state.Error?
  {
  }

  lemma SendGood(s: Sock, bytes: seq<byte>, e: Env, acc: seq<byte>)
    requires s.used && Inv(s) && Sent(s, acc) && EnvOk(e)
    requires |acc + Took(Send(s, bytes, e), bytes)| < MAX_STREAM
    ensures var r := Send(s, bytes, e);
            && Good(r.o, acc + Took(r, bytes)) && SameReceiver(s, r.o.s) && Later(s, r.o.s)
            && (Frozen(s) ==> Frozen(r.o.s) && Took(r, bytes) == [])
  {
    hide Pump, SegOk, Wrap;
    var r := Send(s, bytes, e);
    var take := Min(|bytes|, Max(0, STREAM - |s.tx|));
    if Sending(s.state) && !s.closeReq && !(take == 0 && |bytes| > 0) {
      var t := s.(tx := s.tx + bytes[..take]);
      AppendSent(s, bytes[..take], acc);
      PumpKeeps(Out(t, [], 0), e, acc + bytes[..take]);
    } else {
      assert acc + [] == acc;
    }
  }

  lemma SendKeeps(y: Sys, at: Side, bytes: seq<byte>, e: Env)
    requires SysInv(y) && EnvOk(e) && Reachable(At(y, at))
    requires |At(y, at).acc + Took(Send(At(y, at).sock.value, bytes, e), bytes)| < MAX_STREAM
    ensures var p := At(y, at);
            var r := Send(p.sock.value, bytes, e);
            SysInv(Put(y, at, p.(sock := Some(r.o.s), acc := p.acc + Took(r, bytes)), r.o.segs))
  {
    hide Send, SegOk, Received, Took;
    var p, q := At(y, at), At(y, Other(at));
    var r := Send(p.sock.value, bytes, e);
    SendGood(p.sock.value, bytes, e, p.acc);
    var p' := p.(sock := Some(r.o.s), acc := p.acc + Took(r, bytes));
    ReceivedTransfers(p.sock.value, r.o.s, Isn(q), q.acc, p.dlv);
    assert p.acc + [] == p.acc;
    PutKeeps(y, at, p', r.o.segs);
  }

  lemma TakenFromFront(dlv: seq<byte>, rx: seq<byte>, n: nat)
    requires n <= |rx|
    ensures (dlv + rx[..n]) + rx[n..] == dlv + rx
  {
  }

  /** A receive call hands out the front of the receive buffer and nothing else. */
  lemma ReceiveGood(s: Sock, n: nat, e: Env, mine: seq<byte>, irs: u32, acc: seq<byte>, dlv: seq<byte>)
    requires s.used && Inv(s) && Sent(s, mine) && Received(s, irs, acc, dlv)
    ensures var r := Receive(s, n, e);
            && Good(r.o, mine) && r.o.s == s.(rx := r.o.s.rx)
            && Received(r.o.s, irs, acc, dlv + r.bytes)
            && dlv + r.bytes <= acc
            && (n > 0 && r.code == 0 ==> s.peerFin && dlv + r.bytes == acc)
  {
    hide SegOk, Wrap;
    var r := Receive(s, n, e);
    if n > 0 && |s.rx| > 0 {
      var take := Min(n, |s.rx|);
      var t := s.(rx := s.rx[take..]);
      TakenFromFront(dlv, s.rx, take);
      assert Inv(t) && Sent(t, mine);
      AckKeeps(Out(t, [], 0), e, mine);
    } else {
      assert dlv + [] == dlv;
      assert n > 0 ==> dlv + s.rx == dlv;
    }
  }

  lemma ReceiveKeeps(y: Sys, at: Side, n: nat, e: Env)
    requires SysInv(y) && Reachable(At(y, at))
    ensures var p := At(y, at);
            var r := Receive(p.sock.value, n, e);
            SysInv(Put(y, at, p.(sock := Some(r.o.s), dlv := p.dlv + r.bytes,
                                 eof := p.eof || (n > 0 && r.code == 0)), r.o.segs))
  {
    hide Receive, SegOk, Received;
    var p, q := At(y, at), At(y, Other(at));
    var r := Receive(p.sock.value, n, e);
    ReceiveGood(p.sock.value, n, e, p.acc, Isn(q), q.acc, p.dlv);
    var p' := p.(sock := Some(r.o.s), dlv := p.dlv + r.bytes, eof := p.eof || (n > 0 && r.code == 0));
    if p.eof {
      assert p.dlv + r.bytes == p.dlv;
    }
    assert ReceiverOk(q, p');
    PutKeeps(y, at, p', r.o.segs);
  }

  lemma CloseGood(s: Sock, e: Env, acc: seq<byte>)
    requires s.used && Inv(s) && Sent(s, acc) && |acc| < MAX_STREAM && EnvOk(e)
    ensures Keeps(Out(s, [], 0), Close(s, e), acc)
  {
    hide Pump, Wrap;
    var o := Out(s, [], 0);
    if Opening(s.state) {
      EmitKeeps(o, Packet(s, s.sndNxt, false, false, true, []).(rst := true), e, acc);
      Freeze(Close(s, e).segs, s.iss, acc, Frozen(s), true);
    } else if !s.state.Error? {
      var t := s.(detached := true, closeReq := true);
      assert Keeps(o, Out(t, [], 0), acc);
      PumpKeeps(Out(t, [], 0), e, acc);
      KeepsTransitive(o, Out(t, [], 0), Close(s, e), acc);
    }
  }

  lemma CloseKeeps(y: Sys, at: Side, e: Env)
    requires SysInv(y) && Short(y) && EnvOk(e) && Reachable(At(y, at))
    ensures SysInv(PutOut(y, at, Close(At(y, at).sock.value, e)))
  {
    hide Close, SegOk;
    var p := At(y, at);
    assert SenderOk(p, Incoming(y, Other(at)));
    CloseGood(p.sock.value, e, p.acc);
    PutOutKeeps(y, at, Close(p.sock.value, e));
  }

  lemma PumpStepKeeps(y: Sys, at: Side, e: Env)
    requires SysInv(y) && Short(y) && EnvOk(e) && Reachable(At(y, at))
    ensures SysInv(PutOut(y, at, Pump(Out(At(y, at).sock.value, [], 0), e)))
  {
    hide Pump;
    PumpKeeps(Out(At(y, at).sock.value, [], 0), e, At(y, at).acc);
    PutOutKeeps(y, at, Pump(Out(At(y, at).sock.value, [], 0), e));
  }

  lemma FaultKeeps(y: Sys, at: Side, err: int, e: Env)
    requires SysInv(y) && Reachable(At(y, at)) && err < 0
    ensures SysInv(PutOut(y, at, Out(Fail(At(y, at).sock.value, err, e.now), [], 0)))
  {
    var p := At(y, at);
    FailKeeps(Out(p.sock.value, [], 0), err, e.now, p.acc);
    PutOutKeeps(y, at, Out(Fail(p.sock.value, err, e.now), [], 0));
  }

  lemma MtuKeeps(y: Sys, at: Side, mss: pos)
    requires SysInv(y) && Reachable(At(y, at))
    ensures SysInv(PutOut(y, at, Out(PathMtu(At(y, at).sock.value, mss), [], 0)))
  {
    var p := At(y, at);
    SameProtocolKeeps(Out(p.sock.value, [], 0), PathMtu(p.sock.value, mss), p.acc);
    PutOutKeeps(y, at, Out(PathMtu(p.sock.value, mss), [], 0));
  }

  /** What the environment of an action may be. */
  ghost predicate Legal(a: Action) {
    && EnvOk(a.e)
    && (a.DoConnect? ==> a.mss <= 1440)
    && (a.DoFault? ==> a.err < 0)
  }

  lemma StepKeeps(y: Sys, a: Action)
    requires SysInv(y) && Legal(a) && Short(y) && Short(Step(y, a))
    ensures SysInv(Step(y, a))
  {
    hide SysInv, Pump, Input, Send, Receive, Close, Fail, Connect, Accept;
    match a
    case DoConnect(iss, mss, e) =>
      if y.client.sock.None? {
        ConnectKeeps(y, iss, mss, e);
      }
    case DoDeliver(to, g, iss, e) =>
      if g in Incoming(y, to) || g.rst {
        if Reachable(At(y, to)) {
          DeliverKeeps(y, to, g, e);
        } else if to.Server? && y.server.sock.None? && g.syn && !g.rst {
          AcceptKeeps(y, g, iss, e);
        }
      }
    case DoPump(at, e) =>
      if Reachable(At(y, at)) {
        PumpStepKeeps(y, at, e);
      }
    case DoSend(at, bytes, e) =>
      if Owned(At(y, at)) {
        SendKeeps(y, at, bytes, e);
      }
    case DoReceive(at, n, e) =>
      if Owned(At(y, at)) {
        ReceiveKeeps(y, at, n, e);
      }
    case DoClose(at, e) =>
      if Owned(At(y, at)) {
        CloseKeeps(y, at, e);
      }
    case DoFault(at, err, e) =>
      if Reachable(At(y, at)) {
        FaultKeeps(y, at, err, e);
      }
    case DoMtu(at, mss, e) =>
      if Reachable(At(y, at)) {
        MtuKeeps(y, at, mss);
      }
  }

  lemma StepExtends(y: Sys, a: Action)
    ensures y.client.acc <= Step(y, a).client.acc && y.server.acc <= Step(y, a).server.acc
  {
    hide Input, Pump, Send, Receive, Close, Fail, Connect, Accept, PathMtu;
  }

  lemma {:induction false} RunKeeps(acts: seq<Action>)
    requires forall i :: 0 <= i < |acts| ==> Legal(acts[i])
    requires Short(Run(acts))
    ensures SysInv(Run(acts))
  {
    hide Step, Legal;
    assert SysInv(INITIAL);
    if acts != [] {
      var before := acts[..|acts| - 1];
      StepExtends(Run(before), acts[|acts| - 1]);
      RunKeeps(before);
      StepKeeps(Run(before), acts[|acts| - 1]);
    }
  }

  /**
   Over every run: what each application received is a prefix of what the other
   one sent, and end of stream is reported only once all of it was delivered.
   */
  lemma StreamSafety(acts: seq<Action>)
    requires forall i :: 0 <= i < |acts| ==> Legal(acts[i])
    requires Short(Run(acts))
    ensures var y := Run(acts);
            && y.server.dlv <= y.client.acc && y.client.dlv <= y.server.acc
            && (y.server.eof ==> y.server.dlv == y.client.acc)
            && (y.client.eof ==> y.client.dlv == y.server.acc)
  {
    hide Run, SenderOk, Received;
    RunKeeps(acts);
  }

  /** Over every run, each live socket satisfies the sender and close invariant. */
  lemma SocketsInOrder(acts: seq<Action>, side: Side)
    requires forall i :: 0 <= i < |acts| ==> Legal(acts[i])
    requires Short(Run(acts)) && Reachable(At(Run(acts), side))
    ensures var s := At(Run(acts), side).sock.value;
            && (Sending(s.state) ==> Flight(s) <= |s.tx| <= STREAM)
            && (Finishing(s.state) ==> |s.tx| == 0 && s.sndUna == s.finSeq)
            && (s.state.TimeWait? ==> s.peerFin && s.sndUna == Wrap(s.finSeq + 1))
            && (!s.state.Error? ==>
                  (s.peerFin <==> s.state.CloseWait? || s.state.Closing? || s.state.LastAck? || s.state.TimeWait?))
            && 1000 <= s.tm.rto <= 60000
  {
    hide Run, Wrap, SegOk, Received;
    RunKeeps(acts);
  }
}
