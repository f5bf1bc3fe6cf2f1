/** Two connected ends.  The network loses, repeats, delays and reorders what either end sends;
    what one application reads is always a prefix of what the other wrote. */
module EndToEnd {
  import opened Words
  import opened Flows
  import opened Buffers
  import opened Connections
  import Receive
  import Sending
  import Acknowledging

  /** A packet on the network: its sequence and acknowledgement numbers, the stream offset and
      bytes of its payload, and how many bytes its sender had received. */
  datatype Frame = Frame(seqNo: uint32, ackNo: uint32, offset: nat, bytes: seq<byte>, received: nat)

  /** One end, with everything it ever put on the network. */
  datatype End = End(w: World, sent: seq<Frame>)

  datatype Pair = Pair(a: End, b: End)

  /** What an end does: something of its own, or taking in frame `k` of the other end's, whose
      remaining header fields are arbitrary. */
  datatype Action =
    | Own(e: Event)
    | TakeIn(k: nat, win: uint16, tsVal: uint32, tsEcr: uint32, ece: bool, ecn: bool)

  function EventOf(peer: End, act: Action): Event
    requires act.TakeIn? ==> act.k < |peer.sent|
  {
    match act
    case Own(e) => e
    case TakeIn(k, win, tsVal, tsEcr, ece, ecn) =>
      var fr := peer.sent[k];
      var pkt := Packet(fr.seqNo, fr.ackNo, win, tsVal, tsEcr, false, ece, ecn);
      if fr.bytes == [] then Ack(pkt) else Data(fr.offset, fr.bytes, pkt)
  }

  /** Applications write along a script, free only what they received, write only free space and
      do not close; frames more than 2^31 bytes old have left the network. */
  predicate Possible(x: End, peer: End, act: Action) {
    match act
    case Own(App(rxBump, data, close)) =>
      && Allowed(x.w, act.e) && !close && x.w.out.stream + data <= peer.w.inb.stream
    case Own(Tx(_)) => true
    case Own(Retx) => true
    case Own(_) => false
    case TakeIn(k, _, _, _, _, _) =>
      && k < |peer.sent|
      && (peer.sent[k].bytes != [] ==> x.w.inb.a.next < peer.sent[k].offset + Receive.HALF)
      && x.w.out.s.acked < peer.sent[k].received + Receive.HALF
  }

  /** The frame that a step puts on the network, if it does. */
  function Emitted(w: World, e: Event, w': World, r: Result): seq<Frame> {
    if r.transmit.None? then []
    else if e.Tx? && |w.out.wire| < |w'.out.wire| then
      var x := w'.out.wire[|w.out.wire|];
      [Frame(r.transmit.value.seqNo, r.transmit.value.ackNo, x.offset, x.bytes, |w'.inb.log|)]
    else
      [Frame(r.transmit.value.seqNo, r.transmit.value.ackNo, 0, [], |w'.inb.log|)]
  }

  function Move(x: End, e: Event): End
    requires ValidWork(WorkOf(e)) && |x.w.inb.mem| > 0 && |x.w.out.mem| > 0
  {
    var w' := Step(x.w, e);
    End(w', x.sent + Emitted(x.w, e, w', Handle(x.w.flow, WorkOf(e)).1))
  }

  // ------------------------------------------------------------------------- invariants

  /** A frame carries the sender's bytes under their sequence numbers, and acknowledges no more
      than the sender received. */
  ghost predicate FrameOk(w: World, fr: Frame) {
    && |fr.bytes| < PLEN_LIMIT
    && (fr.bytes != [] ==>
          && fr.seqNo == Wrap(w.out.s.iss + fr.offset)
          && fr.offset + |fr.bytes| <= |w.out.stream|
          && fr.bytes == w.out.stream[fr.offset..fr.offset + |fr.bytes|])
    && fr.ackNo == Wrap(w.inb.a.isn + fr.received) && fr.received <= w.inb.a.next
  }

  /** One end by itself. */
  ghost predicate EndOk(x: End) {
    && Ok(x.w) && x.w.out.s.len <= Receive.HALF
    && !x.w.inb.a.fin && !x.w.flow.tx.fin
    && forall fr :: fr in x.sent ==> FrameOk(x.w, fr)
  }

  /** How far the receiver `i` is within the first `n` bytes. */
  predicate Within(i: Receive.Receiver, n: nat) {
    i.next <= n && (i.lo < i.hi ==> i.hi <= n)
  }

  /** The direction from `x` to `y`: what `x` knows acknowledged, what `y` has received and what
      `x` wrote follow each other. */
  ghost predicate Follows(x: World, y: World) {
    && y.inb.a.isn == x.out.s.iss
    && x.out.stream <= y.inb.stream
    && x.out.s.acked <= y.inb.a.next
    && Within(y.inb.a, |x.out.stream|)
  }

  ghost predicate Linked(x: End, y: End) {
    EndOk(x) && EndOk(y) && Follows(x.w, y.w) && Follows(y.w, x.w)
  }

  // ---------------------------------------------------------------------------- one step

  /** The sender's half of a consistent state. */
  lemma Amounts(w: World)
    requires Ok(w)
    ensures w.out.s.Ok() && Sending.Represents(w.flow.tx, w.out.s) && w.out.s.total == |w.out.stream|
    ensures w.inb.a.Ok() && Receive.Represents(w.flow.rx, w.inb.a) && |w.inb.log| == w.inb.a.next
    ensures w.inb.log <= w.inb.stream && w.inb.log == w.inb.stream[..w.inb.a.next]
    ensures |w.inb.mem| > 0 && |w.out.mem| > 0
  {
    hide Wrap, Holds, WireOk;
  }

  /** Frames of a linked peer are what a connection may receive. */
  lemma TakeInAllowed(x: End, y: End, act: Action)
    requires Linked(x, y) && Possible(x, y, act) && act.TakeIn?
    ensures Allowed(x.w, EventOf(y, act))
  {
    hide Ok, Wrap, IsPiece;
    Amounts(x.w);
    Amounts(y.w);
    var fr := y.sent[act.k];
    assert FrameOk(y.w, fr);
    if fr.bytes != [] {
      PieceOfMore(fr.bytes, y.w.out.stream, x.w.inb.stream, fr.offset);
    }
  }

  lemma PieceOfMore(bytes: seq<byte>, s: seq<byte>, s': seq<byte>, from: nat)
    requires from + |bytes| <= |s| && bytes == s[from..from + |bytes|] && s <= s'
    ensures IsPiece(bytes, s', from)
  {
    assert s == s'[..|s|];
  }

  lemma PossibleAllowed(x: End, y: End, act: Action)
    requires Linked(x, y) && Possible(x, y, act)
    ensures Allowed(x.w, EventOf(y, act)) && ValidWork(WorkOf(EventOf(y, act)))
    ensures |x.w.inb.mem| > 0 && |x.w.out.mem| > 0
  {
    hide Ok, Wrap;
    Amounts(x.w);
    if act.TakeIn? {
      TakeInAllowed(x, y, act);
    }
  }

  /** What a packet acknowledges is what its acknowledgement number names. */
  lemma BumpIsAckBump(f: FlowTcp, plen: nat, p: Packet)
    requires plen < PLEN_LIMIT
    ensures var n := Handle(f, RxWork(plen, p)).1.txBump;
            n != 0 ==> AckBump(f.tx, p.ackNo) == Some(n)
  {
    hide RxSegment, AckBump, TxAvail, QmGrowth, RxSeqInWindow;
  }

  /** The acknowledgement number of a frame, once accepted, is taken for the number of bytes its
      sender had really received. */
  lemma AckMeansReceived(x: End, y: End, k: nat, n: nat)
    requires Linked(x, y) && k < |y.sent| && x.w.out.s.acked < y.sent[k].received + Receive.HALF
    requires AckBump(x.w.flow.tx, y.sent[k].ackNo) == Some(n)
    ensures x.w.out.s.acked + n == y.sent[k].received
  {
    hide Ok, Wrap, AckBump;
    Amounts(x.w);
    var s, fr := x.w.out.s, y.sent[k];
    assert FrameOk(y.w, fr);
    Sending.AckBumpExact(x.w.flow.tx, s, fr.ackNo);
    WrapInjective(s.iss + (s.acked + n), s.iss + fr.received);
  }

  /** What a step does to the counts of the sending side. */
  lemma StepAcked(w: World, e: Event)
    requires Ok(w) && Allowed(w, e)
    ensures |w.inb.mem| > 0 && |w.out.mem| > 0
    ensures var w', r := Step(w, e), Handle(w.flow, WorkOf(e)).1;
            w'.out.s.acked == w.out.s.acked + (if e.Data? || (e.Ack? && !r.retx) then r.txBump else 0)
            && w'.out.s.iss == w.out.s.iss && w'.out.s.len == w.out.s.len && w'.inb.a.isn == w.inb.a.isn
            && w'.inb.stream == w.inb.stream
            && w'.out.stream == w.out.stream + (if e.App? then e.data else [])
  {
    hide Ok, Wrap, Handle, Get, Put, Deposit;
    Amounts(w);
  }

  lemma ArriveStays(a: Receive.Receiver, from: nat, bytes: nat, n: nat)
    requires a.Ok() && !a.fin && Within(a, n) && from + bytes <= n && 0 < bytes
    ensures var a' := Receive.Arrive(a, from, bytes, false);
            Within(a', n) && !a'.fin && a.next <= a'.next
  {
  }

  /** What a step does to the receiving side, if data comes from the first `n` bytes. */
  lemma StepReceived(w: World, e: Event, n: nat)
    requires Ok(w) && Allowed(w, e) && !w.inb.a.fin && Within(w.inb.a, n)
    requires e.Data? ==> e.from + |e.bytes| <= n && !e.pkt.fin
    requires e.Ack? ==> !e.pkt.fin
    ensures |w.inb.mem| > 0 && |w.out.mem| > 0
    ensures var w' := Step(w, e); Within(w'.inb.a, n) && !w'.inb.a.fin && w.inb.a.next <= w'.inb.a.next
  {
    hide Ok, Wrap, Get, Put, Deposit, Receive.Arrive, RxSegment, CountedAck, TxAvail, QmGrowth, Segment;
    Amounts(w);
    if e.Data? {
      ArriveStays(w.inb.a, e.from, |e.bytes|, n);
    }
  }

  lemma StepOpen(w: World, e: Event)
    requires ValidWork(WorkOf(e)) && !w.flow.tx.fin && (e.App? ==> !e.close) && |w.inb.mem| > 0 && |w.out.mem| > 0
    ensures !Step(w, e).flow.tx.fin
    ensures e.Tx? ==> !Handle(w.flow, WorkOf(e)).1.fin
  {
    hide RxSegment, TxAvail, QmGrowth, StepInbound, StepOutbound, AckBump;
  }

  /** Frames stay what they are as their sender goes on. */
  lemma FrameStays(w: World, w': World, fr: Frame)
    requires FrameOk(w, fr) && Extends(w, w') && w.inb.a.next <= w'.inb.a.next
    ensures FrameOk(w', fr)
  {
    hide Wrap;
    assert w.out.stream == w'.out.stream[..|w.out.stream|];
  }

  /** What is put on the network is in order. */
  lemma EmittedOk(w: World, e: Event)
    requires Ok(w) && Allowed(w, e) && Ok(Step(w, e)) && !w.inb.a.fin && !Step(w, e).inb.a.fin
    requires w.out.s.iss == Step(w, e).out.s.iss
    ensures var w' := Step(w, e);
            forall fr :: fr in Emitted(w, e, w', Handle(w.flow, WorkOf(e)).1) ==> FrameOk(w', fr)
  {
    hide Ok, Wrap, Handle, Step;
    Amounts(w);
    var w' := Step(w, e);
    HeadersTruthful(w, e);
    Amounts(w');
    if e.Tx? && |w.out.wire| < |w'.out.wire| {
      WireFrame(w, e);
    }
  }

  /** A transmission's entry on the wire. */
  lemma WireFrame(w: World, e: Event)
    requires Ok(w) && e.Tx? && |w.inb.mem| > 0 && |w.out.mem| > 0 && Ok(Step(w, e)) && |w.out.wire| < |Step(w, e).out.wire|
    ensures var w', h := Step(w, e), Handle(w.flow, WorkOf(e)).1.transmit;
            var x := w'.out.wire[|w.out.wire|];
            && h.Some? && x.seqNo == h.value.seqNo && x.seqNo == Wrap(w'.out.s.iss + x.offset)
            && |x.bytes| < PLEN_LIMIT && x.offset + |x.bytes| <= |w'.out.stream|
            && x.bytes == w'.out.stream[x.offset..x.offset + |x.bytes|]
  {
    hide Wrap, Holds, InboundOk, Get, TxAvail, Send;
    var w' := Step(w, e);
    assert w'.out.wire[|w.out.wire|] in w'.out.wire;
  }

  lemma MoveEnd(x: End, y: End, act: Action)
    requires Linked(x, y) && Possible(x, y, act)
    requires var e := EventOf(y, act); ValidWork(WorkOf(e)) && |x.w.inb.mem| > 0 && |x.w.out.mem| > 0
    ensures EndOk(Move(x, EventOf(y, act))) && x.w.inb.a.next <= Move(x, EventOf(y, act)).w.inb.a.next
    ensures Within(Move(x, EventOf(y, act)).w.inb.a, |y.w.out.stream|)
  {
    hide Ok, Wrap, Handle, Step, FrameOk, Emitted;
    var e := EventOf(y, act);
    PossibleAllowed(x, y, act);
    var w' := Step(x.w, e);
    StepOk(x.w, e);
    StepExtends(x.w, e);
    FrameBounds(y, act);
    StepReceived(x.w, e, |y.w.out.stream|);
    StepAcked(x.w, e);
    StepOpen(x.w, e);
    EmittedOk(x.w, e);
    forall fr | fr in x.sent
      ensures FrameOk(w', fr)
    {
      FrameStays(x.w, w', fr);
    }
  }

  lemma FrameBounds(y: End, act: Action)
    requires EndOk(y) && (act.TakeIn? ==> act.k < |y.sent|)
    ensures act.TakeIn? ==> var e := EventOf(y, act);
              && (e.Data? ==> e.from + |e.bytes| <= |y.w.out.stream| && !e.pkt.fin) && (e.Ack? ==> !e.pkt.fin)
  {
    hide Ok, Wrap;
    if act.TakeIn? {
      assert FrameOk(y.w, y.sent[act.k]);
    }
  }

  /** Whatever either end does, both directions stay linked. */
  lemma MoveLinked(x: End, y: End, act: Action)
    requires Linked(x, y) && Possible(x, y, act)
    requires var e := EventOf(y, act); ValidWork(WorkOf(e)) && |x.w.inb.mem| > 0 && |x.w.out.mem| > 0
    ensures Linked(Move(x, EventOf(y, act)), y)
  {
    hide Ok, Wrap, Handle, Step, EndOk, Emitted, FrameOk;
    var e := EventOf(y, act);
    PossibleAllowed(x, y, act);
    MoveEnd(x, y, act);
    EndOks(x);
    StepAcked(x.w, e);
    Acknowledged(x, y, act);
  }

  lemma EndOks(x: End)
    requires EndOk(x)
    ensures Ok(x.w)
  {
  }

  /** What `x` takes for acknowledged, `y` has received. */
  lemma Acknowledged(x: End, y: End, act: Action)
    requires Linked(x, y) && Possible(x, y, act)
    requires var e := EventOf(y, act); ValidWork(WorkOf(e)) && |x.w.inb.mem| > 0 && |x.w.out.mem| > 0
    ensures Step(x.w, EventOf(y, act)).out.s.acked <= y.w.inb.a.next
  {
    hide Ok, Wrap, Handle, Step, FrameOk;
    var e := EventOf(y, act);
    PossibleAllowed(x, y, act);
    StepAcked(x.w, e);
    if act.TakeIn? {
      var fr := y.sent[act.k];
      var n := Handle(x.w.flow, WorkOf(e)).1.txBump;
      assert FrameOk(y.w, fr);
      BumpIsAckBump(x.w.flow, |fr.bytes|, e.pkt);
      if n != 0 {
        AckMeansReceived(x, y, act.k, n);
        ReceivedBound(y.w, fr);
      }
    }
  }

  lemma ReceivedBound(w: World, fr: Frame)
    requires FrameOk(w, fr)
    ensures fr.received <= w.inb.a.next
  {
  }

  // -------------------------------------------------------------------------------- runs

  /** A step of either end. */
  datatype Turn = AtA(act: Action) | AtB(act: Action)

  ghost predicate Enabled(p: Pair, t: Turn) {
    match t
    case AtA(act) => Possible(p.a, p.b, act)
    case AtB(act) => Possible(p.b, p.a, act)
  }

  ghost function Next(p: Pair, t: Turn): Pair
    requires Linked(p.a, p.b) && Enabled(p, t)
  {
    match t
    case AtA(act) => PossibleAllowed(p.a, p.b, act); p.(a := Move(p.a, EventOf(p.b, act)))
    case AtB(act) => PossibleAllowed(p.b, p.a, act); p.(b := Move(p.b, EventOf(p.a, act)))
  }

  lemma NextLinked(p: Pair, t: Turn)
    requires Linked(p.a, p.b) && Enabled(p, t)
    ensures Linked(Next(p, t).a, Next(p, t).b)
  {
    hide Move, EventOf, EndOk, Follows, Possible;
    match t
    case AtA(act) =>
      PossibleAllowed(p.a, p.b, act);
      MoveLinked(p.a, p.b, act);
    case AtB(act) =>
      PossibleAllowed(p.b, p.a, act);
      MoveLinked(p.b, p.a, act);
  }

  ghost predicate Feasible(p: Pair, ts: seq<Turn>)
    requires Linked(p.a, p.b)
    decreases |ts|
  {
    ts != [] ==> Enabled(p, ts[0]) && (NextLinked(p, ts[0]); Feasible(Next(p, ts[0]), ts[1..]))
  }

  ghost function Run(p: Pair, ts: seq<Turn>): Pair
    requires Linked(p.a, p.b) && Feasible(p, ts)
    decreases |ts|
  {
    if ts == [] then p else NextLinked(p, ts[0]); Run(Next(p, ts[0]), ts[1..])
  }

  lemma {:induction false} RunLinked(p: Pair, ts: seq<Turn>)
    requires Linked(p.a, p.b) && Feasible(p, ts)
    ensures Linked(Run(p, ts).a, Run(p, ts).b)
    decreases |ts|
  {
    hide Linked, Enabled, Next;
    if ts != [] {
      NextLinked(p, ts[0]);
      RunLinked(Next(p, ts[0]), ts[1..]);
    }
  }

  /** The application at `y` has read a prefix of what the one at `x` wrote. */
  lemma ReadsWhatWasWritten(x: End, y: End)
    requires Linked(x, y)
    ensures y.w.inb.log <= x.w.out.stream
  {
    hide Ok, Wrap;
    Amounts(y.w);
    assert x.w.out.stream == y.w.inb.stream[..|x.w.out.stream|];
  }

  /** What one end is registered with: buffer lengths and memory, its initial sequence number, and
      the script along which its application writes. */
  datatype Side = Side(rxLen: nat, txLen: nat, seqNo: uint32, rxMem: seq<byte>, txMem: seq<byte>, script: seq<byte>) {
    predicate Ok()
      ensures Ok() ==> rxLen < MOD && txLen < MOD
    {
      && PowerOfTwo(rxLen) && PowerOfTwo(txLen) && rxLen <= Receive.HALF && txLen <= Receive.HALF
      && |rxMem| == rxLen && |txMem| == txLen
    }
  }

  /** Two ends as their slow paths register them. */
  function Registered(a: Side, b: Side): (p: Pair)
    requires a.Ok() && b.Ok()
  {
    Pair(End(Established(a.rxLen, a.txLen, b.seqNo, a.seqNo, a.rxMem, a.txMem, b.script), []),
         End(Established(b.rxLen, b.txLen, a.seqNo, b.seqNo, b.rxMem, b.txMem, a.script), []))
  }

  lemma RegisteredLinked(a: Side, b: Side)
    requires a.Ok() && b.Ok()
    ensures Linked(Registered(a, b).a, Registered(a, b).b)
  {
    hide Ok, PowerOfTwo;
    EstablishedOk(a.rxLen, a.txLen, b.seqNo, a.seqNo, a.rxMem, a.txMem, b.script);
    EstablishedOk(b.rxLen, b.txLen, a.seqNo, b.seqNo, b.rxMem, b.txMem, a.script);
  }

  /** From registration on, over a network that loses, repeats, delays and reorders, whatever the
      applications write and however the ends transmit, retransmit and acknowledge: each
      application has read, out of its own buffer, exactly a prefix of what the other has
      written. */
  lemma StreamsArrive(a: Side, b: Side, ts: seq<Turn>)
    requires a.Ok() && b.Ok()
    requires (RegisteredLinked(a, b); Feasible(Registered(a, b), ts))
    ensures (RegisteredLinked(a, b);
             var p := Run(Registered(a, b), ts);
             p.b.w.inb.log <= p.a.w.out.stream && p.a.w.inb.log <= p.b.w.out.stream)
  {
    hide Linked, Feasible, Registered;
    RegisteredLinked(a, b);
    var p := Run(Registered(a, b), ts);
    RunLinked(Registered(a, b), ts);
    ReadsWhatWasWritten(p.a, p.b);
    LinkedBack(p.a, p.b);
    ReadsWhatWasWritten(p.b, p.a);
  }

  lemma LinkedBack(x: End, y: End)
    requires Linked(x, y)
    ensures Linked(y, x)
  {
  }

  // ---------------------------------------------------------------------------- progress

  /** The receiver lacks a byte that was written, and has room for it. */
  predicate Lacks(x: World, y: World) {
    y.inb.a.next < |x.out.stream| && y.inb.a.next < y.inb.a.Limit()
  }

  /** The window that the sender goes by reaches to the byte that the receiver lacks, and it has
      not sent beyond it. */
  predicate Approaching(x: World, y: World) {
    var tx := x.flow.tx;
    && Lacks(x, y) && tx.sent <= tx.remoteAvail
    && x.out.s.sent <= y.inb.a.next < x.out.s.acked + tx.remoteAvail
  }

  /** How much a transmission sends then. */
  function Chunk(w: World): int {
    Min(Min(w.out.s.total - w.out.s.sent, w.flow.tx.remoteAvail - w.flow.tx.sent), TCP_MSS)
  }

  /** A transmission by such a sender: one frame with the next bytes of its stream. */
  lemma TransmitMoves(x: End, y: End)
    requires Linked(x, y) && Approaching(x.w, y.w)
    ensures |x.w.inb.mem| > 0 && |x.w.out.mem| > 0 && Chunk(x.w) > 0
    ensures var x' := Move(x, Tx(false));
            && x'.w.out.s == x.w.out.s.(sent := x.w.out.s.sent + Chunk(x.w)) && x'.w.out.stream == x.w.out.stream
            && x'.w.flow.tx.remoteAvail == x.w.flow.tx.remoteAvail
            && x'.w.flow.tx.sent == x.w.flow.tx.sent + Chunk(x.w)
            && |x'.sent| == |x.sent| + 1
            && var fr := x'.sent[|x.sent|];
               fr.offset == x.w.out.s.sent && |fr.bytes| == Chunk(x.w) && fr.received == x.w.inb.a.next
  {
    hide Ok, Wrap, Get, FrameOk;
    Amounts(x.w);
    Sending.CoveredIsExact(x.w.flow.tx);
  }

  lemma RunOne(p: Pair, t: Turn, ts: seq<Turn>)
    requires Linked(p.a, p.b) && Enabled(p, t)
    requires (NextLinked(p, t); Feasible(Next(p, t), ts))
    ensures Feasible(p, [t] + ts)
    ensures (NextLinked(p, t); Run(p, [t] + ts) == Run(Next(p, t), ts))
  {
    hide Linked, Enabled, Next;
    NextLinked(p, t);
    assert ([t] + ts)[1..] == ts;
  }

  lemma RunNone(p: Pair)
    requires Linked(p.a, p.b)
    ensures Feasible(p, []) && Run(p, []) == p
  {
  }

  /** A frame that starts at or before the byte that is lacking and reaches beyond it is taken. */
  lemma TakenIn(x: End, y: End, k: nat)
    requires Linked(x, y) && Lacks(x.w, y.w) && k < |x.sent|
    requires x.sent[k].offset <= y.w.inb.a.next < x.sent[k].offset + |x.sent[k].bytes|
    requires y.w.out.s.acked < x.sent[k].received + Receive.HALF
    ensures var act := TakeIn(k, 0, 0, 0, false, false);
            && Possible(y, x, act) && ValidWork(WorkOf(EventOf(x, act)))
            && |y.w.inb.mem| > 0 && |y.w.out.mem| > 0
            && |y.w.inb.log| < |Move(y, EventOf(x, act)).w.inb.log|
  {
    hide Ok, Wrap, Handle, FrameOk, Receive.Arrive, Get, Put, Deposit;
    var act := TakeIn(k, 0, 0, 0, false, false);
    assert FrameOk(x.w, x.sent[k]);
    FrameLength(x.w, x.sent[k]);
    LinkedBack(x, y);
    PossibleAllowed(y, x, act);
    var e := EventOf(x, act);
    Amounts(y.w);
    StepOk(y.w, e);
    Amounts(Step(y.w, e));
    Receive.ArriveProgress(y.w.inb.a, e.from, |e.bytes|, false);
  }

  lemma FrameLength(w: World, fr: Frame)
    requires FrameOk(w, fr)
    ensures |fr.bytes| < PLEN_LIMIT
  {
  }

  /** A sender that approaches the byte gets it across, by transmitting until a frame holds it and
      by that one frame arriving. */
  lemma {:induction false} SendUntil(p: Pair) returns (ts: seq<Turn>)
    requires Linked(p.a, p.b) && Approaching(p.a.w, p.b.w)
    ensures Feasible(p, ts) && |p.b.w.inb.log| < |Run(p, ts).b.w.inb.log|
    decreases p.b.w.inb.a.next - p.a.w.out.s.sent
  {
    hide Linked, Move, Run, Feasible;
    var t := AtA(Own(Tx(false)));
    TransmitMoves(p.a, p.b);
    NextLinked(p, t);
    var p' := Next(p, t);
    assert p'.a == Move(p.a, Tx(false)) && p'.b == p.b;
    if p.b.w.inb.a.next < p.a.w.out.s.sent + Chunk(p.a.w) {
      ReceivedEnough(p.a, p.b);
      var k := |p.a.sent|;
      var act := TakeIn(k, 0, 0, 0, false, false);
      TakenIn(p'.a, p'.b, k);
      NextLinked(p', AtB(act));
      var p'' := Next(p', AtB(act));
      RunNone(p'');
      RunOne(p', AtB(act), []);
      RunOne(p, t, [AtB(act)] + []);
      ts := [t] + ([AtB(act)] + []);
    } else {
      var rest := SendUntil(p');
      RunOne(p, t, rest);
      ts := [t] + rest;
    }
  }

  lemma ReceivedEnough(x: End, y: End)
    requires Linked(x, y)
    ensures y.w.out.s.acked <= x.w.inb.a.next
  {
  }

  /** After a reset, a sender whose window reaches far enough approaches the byte. */
  lemma ResetApproaches(x: End, y: End)
    requires Linked(x, y) && Lacks(x.w, y.w)
    requires y.w.inb.a.next - x.w.out.s.acked < x.w.flow.tx.remoteAvail + x.w.flow.tx.sent < MOD
    ensures |x.w.inb.mem| > 0 && |x.w.out.mem| > 0 && Approaching(Move(x, Retx).w, y.w)
  {
    hide Ok, Wrap, FrameOk;
    Amounts(x.w);
  }

  /** No sender is stuck: from every linked state in which the receiver lacks a written byte and
      has room for it, and in which the sender's window, with what a reset adds to it, reaches
      that byte, there is a continuation after which the receiver's application has read more. */
  lemma Progress(p: Pair) returns (ts: seq<Turn>)
    requires Linked(p.a, p.b) && Lacks(p.a.w, p.b.w)
    requires p.b.w.inb.a.next - p.a.w.out.s.acked < p.a.w.flow.tx.remoteAvail + p.a.w.flow.tx.sent < MOD
    ensures Feasible(p, ts) && |p.b.w.inb.log| < |Run(p, ts).b.w.inb.log|
  {
    hide Linked, Move, Run, Feasible, Approaching, Lacks;
    var t := AtA(Own(Retx));
    ResetApproaches(p.a, p.b);
    NextLinked(p, t);
    var p' := Next(p, t);
    assert p'.a == Move(p.a, Retx) && p'.b == p.b;
    var rest := SendUntil(p');
    RunOne(p, t, rest);
    ts := [t] + rest;
  }

  // --------------------------------------------------------------------- acknowledgements

  /** `y` sends at a point that `x` takes in: not behind what `x` received, and in its window. */
  predicate Hears(x: World, y: World) {
    var at := y.out.s.sent;
    x.inb.a.next <= at && (at == x.inb.a.next || at < x.inb.a.Limit())
  }

  /** A forced transmission puts one frame on the network, with what its sender has received. */
  lemma ForcedFrame(y: End)
    requires EndOk(y)
    ensures |y.w.inb.mem| > 0 && |y.w.out.mem| > 0
    ensures var y' := Move(y, Tx(true));
            && |y'.sent| == |y.sent| + 1 && y'.w.inb == y.w.inb && y'.w.out.s.acked == y.w.out.s.acked
            && var fr := y'.sent[|y.sent|];
               fr.received == y.w.inb.a.next && (fr.bytes != [] ==> fr.offset == y.w.out.s.sent)
               && (fr.bytes == [] ==> fr.seqNo == Sending.SeqOf(y.w.out.s, y.w.out.s.sent))
  {
    hide Ok, Wrap, Get, FrameOk, TxAvail, Sending.Represents;
    Amounts(y.w);
    ForcedTransmits(y.w);
  }

  lemma ForcedTransmits(w: World)
    requires Ok(w) && !w.flow.tx.fin
    ensures var (f', r) := Transmit(w.flow, true);
            && r.transmit.Some? && r.payload.Some? && !r.fin && f'.rx == w.flow.rx
            && r.transmit.value.seqNo == Sending.SeqOf(w.out.s, w.out.s.sent)
  {
    hide Wrap, Holds, InboundOk, WireOk, TxAvail;
  }

  /** A frame that is heard brings its acknowledgement with it. */
  lemma HeardAck(x: End, y: End, k: nat)
    requires Linked(x, y) && k < |y.sent| && Possible(x, y, TakeIn(k, 0, 0, 0, false, false))
    requires y.sent[k].received == y.w.inb.a.next
    requires y.sent[k].bytes != [] ==> x.w.inb.a.next <= y.sent[k].offset
                                       && (y.sent[k].offset == x.w.inb.a.next || y.sent[k].offset < x.w.inb.a.Limit())
    requires y.sent[k].bytes == [] ==> Acknowledging.Inside(x.w.inb.a, y.sent[k].seqNo)
    ensures var e := EventOf(y, TakeIn(k, 0, 0, 0, false, false));
            ValidWork(WorkOf(e)) && |x.w.inb.mem| > 0 && |x.w.out.mem| > 0 && Move(x, e).w.out.s.acked == y.w.inb.a.next
  {
    hide Ok, Wrap, Handle, Step, Acknowledging.Inside;
    var act := TakeIn(k, 0, 0, 0, false, false);
    PossibleAllowed(x, y, act);
    Amounts(x.w);
    var fr, s := y.sent[k], x.w.out.s;
    assert FrameOk(y.w, fr);
    var n := y.w.inb.a.next - s.acked;
    assert Acknowledging.Names(s, fr.ackNo, n);
    var e := EventOf(y, act);
    if fr.bytes == [] {
      Acknowledging.AckTaken(x.w, e.pkt);
    } else {
      Acknowledging.SegmentTaken(x.w, e.from, e.bytes, e.pkt);
    }
  }

  /** Acknowledgements get through: from every linked state in which the receiver sends at a point
      that the sender takes in, there is a continuation after which the sender knows of every
      byte that the receiver has received. */
  lemma AcknowledgementArrives(p: Pair) returns (ts: seq<Turn>)
    requires Linked(p.a, p.b) && Hears(p.a.w, p.b.w)
    ensures Feasible(p, ts) && Run(p, ts).a.w.out.s.acked == Run(p, ts).b.w.inb.a.next == p.b.w.inb.a.next
  {
    hide Linked, Move, Run, Feasible, FrameOk;
    var t := AtB(Own(Tx(true)));
    NextLinked(p, t);
    var p' := Next(p, t);
    BothOk(p.a, p.b);
    ForcedFrame(p.b);
    assert p'.b == Move(p.b, Tx(true)) && p'.a == p.a;
    var k := |p.b.sent|;
    var act := TakeIn(k, 0, 0, 0, false, false);
    HeardPossible(p.a, p.b, p'.b);
    HeardAck(p.a, p'.b, k);
    NextLinked(p', AtA(act));
    RunNone(Next(p', AtA(act)));
    RunOne(p', AtA(act), []);
    RunOne(p, t, [AtA(act)] + []);
    ts := [t] + ([AtA(act)] + []);
  }

  lemma BothOk(x: End, y: End)
    requires Linked(x, y)
    ensures EndOk(x) && EndOk(y)
  {
  }

  lemma HeardPossible(x: End, y: End, y': End)
    requires Linked(x, y) && Linked(x, y') && Hears(x.w, y.w)
    requires |y'.sent| == |y.sent| + 1 && y'.w.inb == y.w.inb
    requires var fr := y'.sent[|y.sent|];
             && fr.received == y.w.inb.a.next && (fr.bytes != [] ==> fr.offset == y.w.out.s.sent)
             && (fr.bytes == [] ==> fr.seqNo == Sending.SeqOf(y.w.out.s, y.w.out.s.sent))
    ensures var k := |y.sent|;
            && Possible(x, y', TakeIn(k, 0, 0, 0, false, false))
            && (y'.sent[k].bytes == [] ==> Acknowledging.Inside(x.w.inb.a, y'.sent[k].seqNo))
  {
    hide Ok, Wrap, FrameOk;
    Amounts(x.w);
    var at := y.w.out.s.sent;
    assert x.w.inb.a.Expected() <= at <= x.w.inb.a.Bound()
           && Sending.SeqOf(y.w.out.s, at) == Acknowledging.NumberOf(x.w.inb.a, at);
  }
}
