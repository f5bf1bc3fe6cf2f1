/** One connection end to end: the flow record, both circular buffers, the peer's stream and
    the application's stream, over every run of packets, transmissions, retransmissions and
    application bumps. */
module Connections {
  import opened Words
  import opened Flows
  import opened Buffers
  import Receive
  import Sending

  /** The receiving side: `stream` is all the peer will ever send, `mem` the receive buffer,
      `log` what the application has read when it was told of new bytes. */
  datatype Inbound = Inbound(a: Receive.Receiver, mem: seq<byte>, stream: seq<byte>, log: seq<byte>)

  /** A segment on the wire: its bytes, the sequence number in its header, and the stream
      offset the sender had reached. */
  datatype Sent = Sent(offset: nat, seqNo: uint32, bytes: seq<byte>)

  /** The sending side: `stream` is what the application has handed over so far. */
  datatype Outbound = Outbound(s: Sending.Sender, mem: seq<byte>, stream: seq<byte>, wire: seq<Sent>)

  datatype World = World(flow: FlowTcp, inb: Inbound, out: Outbound)

  datatype Event =
    | Data(from: nat, bytes: seq<byte>, pkt: Packet)
    | Ack(pkt: Packet)
    | App(rxBump: nat, data: seq<byte>, close: bool)
    | Tx(force: bool)
    | Retx

  function WorkOf(e: Event): Work {
    match e
    case Data(_, bytes, pkt) => RxWork(|bytes|, pkt)
    case Ack(pkt) => RxWork(0, pkt)
    case App(rxBump, data, close) => AcWork(rxBump, |data|, close)
    case Tx(force) => TxWork(force)
    case Retx => RetxWork
  }

  /** `bytes` is what `stream` has at offset `from`. */
  predicate IsPiece(bytes: seq<byte>, stream: seq<byte>, from: nat) {
    from + |bytes| <= |stream| && bytes == stream[from..from + |bytes|]
  }

  /** What the environment may do.  Segments carry bytes of the peer's stream under their
      sequence numbers, in any order and any number of times, less than half the sequence
      space away; a FIN sits at the end of the stream.  Once the FIN has been received, anything
      may follow.  The application frees at most what
      it received and writes only into free space.  Acknowledgement numbers, windows and the
      sequence numbers of packets without FIN or payload are unconstrained. */
  predicate Allowed(w: World, e: Event) {
    var a, s := w.inb.a, w.out.s;
    match e
    case Data(from, bytes, pkt) =>
      && 0 < |bytes| < PLEN_LIMIT
      && pkt.seqNo == Wrap(a.isn + from)
      && -Receive.HALF < a.isn + from - a.NextSeq() < Receive.HALF
      && (a.fin || (IsPiece(bytes, w.inb.stream, from) && (pkt.fin ==> from + |bytes| == |w.inb.stream|)))
    case Ack(pkt) =>
      pkt.fin && !a.fin ==>
        && pkt.seqNo == Wrap(a.isn + |w.inb.stream|)
        && -Receive.HALF < a.isn + |w.inb.stream| - a.NextSeq() < Receive.HALF
    case App(rxBump, data, _) =>
      && rxBump < BUMP_LIMIT && |data| < BUMP_LIMIT
      && rxBump <= a.next - a.freed
      && |data| <= s.len - (s.total - s.acked)
    case _ => true
  }

  // ------------------------------------------------------------------------- stepping

  function Slice(stream: seq<byte>, from: nat, n: nat): (data: seq<byte>)
    ensures |data| == n
  {
    seq(n, i => if 0 <= from + i < |stream| then stream[from + i] else 0)
  }

  /** The transfer a handler asked for, out of the packet's payload `bytes`. */
  function Deposit(mem: seq<byte>, bytes: seq<byte>, payload: Option<Dma>): (mem': seq<byte>)
    requires |mem| > 0
    ensures |mem'| == |mem|
  {
    match payload
    case None => mem
    case Some(d) => Put(mem, d.pos, Slice(bytes, d.offset, d.len))
  }

  /** The application reads newly reported bytes at its own cursor. */
  function StepInbound(i: Inbound, e: Event, r: Result): Inbound
    requires |i.mem| > 0
  {
    match e
    case Data(from, bytes, pkt) =>
      var mem := Deposit(i.mem, bytes, r.payload);
      Inbound(Receive.Arrive(i.a, from, |bytes|, pkt.fin), mem, i.stream, i.log + Get(mem, |i.log|, r.rxBump))
    case Ack(pkt) => if r.fin then i.(a := i.a.(fin := true)) else i
    case App(rxBump, _, _) => i.(a := i.a.(freed := i.a.freed + rxBump))
    case _ => i
  }

  function StepOutbound(o: Outbound, e: Event, r: Result): Outbound
    requires |o.mem| > 0
  {
    match e
    case Data(_, _, _) => o.(s := Sending.AckedMore(o.s, r.txBump))
    case Ack(_) => o.(s := if r.retx then Sending.Rewound(o.s) else Sending.AckedMore(o.s, r.txBump))
    case App(_, data, _) =>
      o.(s := o.s.(total := o.s.total + |data|), mem := Put(o.mem, |o.stream|, data), stream := o.stream + data)
    case Tx(_) =>
      if r.payload.None? || r.transmit.None? || r.fin then o
      else
        var d := r.payload.value;
        o.(s := o.s.(sent := o.s.sent + d.len),
           wire := o.wire + [Sent(o.s.sent, r.transmit.value.seqNo, Get(o.mem, d.pos, d.len))])
    case Retx => o.(s := Sending.Rewound(o.s))
  }

  function Step(w: World, e: Event): (w': World)
    requires ValidWork(WorkOf(e)) && |w.inb.mem| > 0 && |w.out.mem| > 0
    ensures |w'.inb.mem| == |w.inb.mem| && |w'.out.mem| == |w.out.mem|
  {
    var (flow, r) := Handle(w.flow, WorkOf(e));
    World(flow, StepInbound(w.inb, e, r), StepOutbound(w.out, e, r))
  }

  // ----------------------------------------------------------------------- invariants

  /** The buffer holds the bytes `[from, to)` of the stream at their circular positions. */
  ghost predicate Holds(mem: seq<byte>, stream: seq<byte>, from: nat, to: nat) {
    && |mem| > 0 && to <= |stream|
    && forall k :: from <= k < to ==> Read(mem, k) == stream[k]
  }

  ghost predicate InboundOk(rx: RxState, i: Inbound) {
    && i.a.Ok() && Receive.Represents(rx, i.a)
    && |i.mem| == i.a.len && MOD % i.a.len == 0
    && i.a.next <= |i.stream| && i.log == i.stream[..i.a.next]
    && (i.a.fin ==> i.a.next == |i.stream|)
    && Holds(i.mem, i.stream, i.a.freed, i.a.next)
    && (i.a.lo < i.a.hi && !i.a.fin ==> Holds(i.mem, i.stream, i.a.lo, i.a.hi))
  }

  ghost predicate WireOk(o: Outbound) {
    forall x :: x in o.wire ==>
      && x.offset + |x.bytes| <= |o.stream|
      && x.bytes == o.stream[x.offset..x.offset + |x.bytes|]
      && x.seqNo == Sending.SeqOf(o.s, x.offset)
  }

  ghost predicate OutboundOk(tx: TxState, o: Outbound) {
    && o.s.Ok() && Sending.Represents(tx, o.s)
    && |o.mem| == o.s.len && 0 < o.s.len && MOD % o.s.len == 0
    && o.s.total == |o.stream|
    && Holds(o.mem, o.stream, o.s.acked, o.s.total)
    && WireOk(o)
  }

  ghost predicate Ok(w: World) {
    InboundOk(w.flow.rx, w.inb) && OutboundOk(w.flow.tx, w.out)
  }

  // ------------------------------------------------------------------- receiving side

  /** Writing stream bytes inside the window keeps every byte the buffer already held. */
  lemma DepositKeeps(i: Inbound, first: nat, last: nat, from: nat, to: nat)
    requires 0 < |i.mem| && i.a.freed <= first <= last <= i.a.freed + |i.mem| && last <= |i.stream|
    requires Holds(i.mem, i.stream, from, to) && i.a.freed <= from && to <= i.a.freed + |i.mem|
    ensures Holds(Put(i.mem, first, Slice(i.stream, first, last - first)), i.stream, from, to)
    ensures Holds(Put(i.mem, first, Slice(i.stream, first, last - first)), i.stream, first, last)
  {
    hide Read, Put;
    var data := Slice(i.stream, first, last - first);
    forall k | i.a.freed <= k < i.a.freed + |i.mem|
      ensures Read(Put(i.mem, first, data), k) == if first <= k < last then i.stream[k] else Read(i.mem, k)
    {
      ReadPut(i.mem, first, data, k);
    }
  }

  lemma HoldsJoin(mem: seq<byte>, stream: seq<byte>, from: nat, mid: nat, mid': nat, to: nat)
    requires Holds(mem, stream, from, mid) && Holds(mem, stream, mid', to) && mid' <= mid
    ensures Holds(mem, stream, from, to)
  {
    hide Read;
  }

  lemma ReadNew(mem: seq<byte>, stream: seq<byte>, log: seq<byte>, to: nat)
    requires |log| <= to && Holds(mem, stream, |log|, to) && log == stream[..|log|]
    ensures log + Get(mem, |log|, to - |log|) == stream[..to]
  {
    hide Read;
  }

  /** The buffer after an in-order segment has been deposited covers the bytes delivered. */
  lemma AdvanceHolds(i: Inbound, mem: seq<byte>, end: nat)
    requires i.a.Ok() && i.a.next <= end <= i.a.Limit()
    requires Holds(mem, i.stream, i.a.freed, i.a.next) && Holds(mem, i.stream, i.a.next, end)
    requires i.a.lo < i.a.hi ==> Holds(mem, i.stream, i.a.lo, i.a.hi)
    ensures var a' := Receive.Advance(i.a, end);
            && Holds(mem, i.stream, a'.freed, a'.next)
            && (a'.lo < a'.hi ==> Holds(mem, i.stream, a'.lo, a'.hi))
  {
    hide Read;
    HoldsJoin(mem, i.stream, i.a.freed, i.a.next, i.a.next, end);
    if i.a.lo < i.a.hi && i.a.lo <= end {
      HoldsJoin(mem, i.stream, i.a.freed, end, i.a.lo, i.a.hi);
    }
  }

  lemma ParkHolds(i: Inbound, mem: seq<byte>, from: nat, end: nat)
    requires i.a.Ok() && i.a.next < from < end
    requires Holds(mem, i.stream, from, end)
    requires i.a.lo < i.a.hi ==> Holds(mem, i.stream, i.a.lo, i.a.hi)
    ensures var a' := Receive.Park(i.a, from, end);
            a'.lo < a'.hi ==> Holds(mem, i.stream, a'.lo, a'.hi)
  {
    hide Read;
    if i.a.lo < i.a.hi {
      if end == i.a.lo {
        HoldsJoin(mem, i.stream, from, end, end, i.a.hi);
      } else if from == i.a.hi {
        HoldsJoin(mem, i.stream, i.a.lo, from, from, end);
      }
    }
  }

  /** The bytes a useful segment adds, and everything held before, are in the buffer after
      the transfer. */
  /** A part of a piece of the stream is that part of the stream. */
  lemma PieceSlice(bytes: seq<byte>, stream: seq<byte>, from: nat, off: nat, n: nat)
    requires IsPiece(bytes, stream, from) && off + n <= |bytes|
    ensures Slice(bytes, off, n) == Slice(stream, from + off, n) && from + |bytes| <= |stream|
  {
  }

  lemma DepositHolds(i: Inbound, from: nat, bytes: seq<byte>, payload: Option<Dma>)
    requires i.a.Ok() && !i.a.fin && |i.mem| == i.a.len && MOD % i.a.len == 0
    requires IsPiece(bytes, i.stream, from) && |bytes| < PLEN_LIMIT && Receive.Stored(i.a, from, |bytes|)
    requires i.a.next <= |i.stream| && Holds(i.mem, i.stream, i.a.freed, i.a.next)
    requires i.a.lo < i.a.hi ==> Holds(i.mem, i.stream, i.a.lo, i.a.hi)
    requires payload == Some(Dma(Wrap(Receive.First(i.a, from)),
                                 Receive.Last(i.a, from, |bytes|) - Receive.First(i.a, from),
                                 Receive.First(i.a, from) - from))
    ensures var mem := Deposit(i.mem, bytes, payload);
            && Holds(mem, i.stream, i.a.freed, i.a.next)
            && Holds(mem, i.stream, Receive.First(i.a, from), Receive.Last(i.a, from, |bytes|))
            && (i.a.lo < i.a.hi ==> Holds(mem, i.stream, i.a.lo, i.a.hi))
  {
    hide Read, Put, Wrap, Holds, Slice, IsPiece;
    var first, last := Receive.First(i.a, from), Receive.Last(i.a, from, |bytes|);
    PieceSlice(bytes, i.stream, from, first - from, last - first);
    PutWrapped(i.mem, first, Slice(i.stream, first, last - first));
    DepositKeeps(i, first, last, i.a.freed, i.a.next);
    if i.a.lo < i.a.hi {
      DepositKeeps(i, first, last, i.a.lo, i.a.hi);
    }
  }

  lemma ArriveHolds(i: Inbound, from: nat, bytes: nat, fin: bool, mem: seq<byte>)
    requires i.a.Ok() && !i.a.fin && Receive.Stored(i.a, from, bytes)
    requires Holds(mem, i.stream, i.a.freed, i.a.next)
    requires Holds(mem, i.stream, Receive.First(i.a, from), Receive.Last(i.a, from, bytes))
    requires i.a.lo < i.a.hi ==> Holds(mem, i.stream, i.a.lo, i.a.hi)
    ensures var a' := Receive.Arrive(i.a, from, bytes, fin);
            && Holds(mem, i.stream, a'.freed, a'.next)
            && (a'.lo < a'.hi ==> Holds(mem, i.stream, a'.lo, a'.hi))
  {
    hide Holds;
    var end := Receive.Last(i.a, from, bytes);
    if i.a.next < from {
      ParkHolds(i, mem, from, end);
    } else {
      AdvanceHolds(i, mem, end);
    }
  }

  /** A segment of the stream takes the receiver no further than the stream goes. */
  lemma ArriveWithin(i: Inbound, from: nat, bytes: nat, fin: bool)
    requires i.a.Ok() && !i.a.fin && i.a.next <= |i.stream| && 0 < bytes && from + bytes <= |i.stream|
    requires i.a.lo < i.a.hi ==> i.a.hi <= |i.stream|
    requires fin ==> from + bytes == |i.stream|
    ensures var a' := Receive.Arrive(i.a, from, bytes, fin);
            && a' == i.a.(next := a'.next, lo := a'.lo, hi := a'.hi, fin := a'.fin)
            && i.a.next <= a'.next <= |i.stream|
            && (a'.fin ==> a'.next == |i.stream|)
            && (!Receive.Stored(i.a, from, bytes) ==> a'.next == i.a.next && a'.lo == i.a.lo && a'.hi == i.a.hi)
  {
  }

  /** What is written into free space leaves the delivered bytes alone, whatever it is. */
  lemma PutKeepsDelivered(i: Inbound, at: nat, data: seq<byte>)
    requires i.a.Ok() && |i.mem| == i.a.len && MOD % i.a.len == 0 && i.a.next <= at && at + |data| <= i.a.Limit()
    requires Holds(i.mem, i.stream, i.a.freed, i.a.next)
    ensures Holds(Put(i.mem, Wrap(at), data), i.stream, i.a.freed, i.a.next)
  {
    hide Read, Put, Wrap;
    PutWrapped(i.mem, at, data);
    forall k | i.a.freed <= k < i.a.next
      ensures Read(Put(i.mem, at, data), k) == Read(i.mem, k)
    {
      ReadPut(i.mem, at, data, k);
    }
  }

  /** After a FIN, a segment moves nothing but the interval that is never delivered, and writes
      only into free space. */
  lemma AfterFin(i: Inbound, from: nat, bytes: nat, fin: bool)
    requires i.a.Ok() && i.a.fin && 0 < bytes
    ensures var a' := Receive.Arrive(i.a, from, bytes, fin);
            && a' == i.a.(lo := a'.lo, hi := a'.hi)
            && (Receive.Stored(i.a, from, bytes) ==>
                  var at := Receive.Position(i.a, Receive.First(i.a, from));
                  i.a.next <= at <= at + (Receive.Last(i.a, from, bytes) - Receive.First(i.a, from)) <= i.a.Limit())
  {
  }

  lemma LateInbound(rx: RxState, i: Inbound, from: nat, bytes: seq<byte>, pkt: Packet, r: Result)
    requires InboundOk(rx, i) && i.a.fin
    requires 0 < |bytes| < PLEN_LIMIT && pkt.seqNo == Wrap(i.a.isn + from)
    requires -Receive.HALF < i.a.isn + from - i.a.NextSeq() < Receive.HALF
    requires var o := RxSegment(rx, pkt.seqNo, |bytes|, pkt.fin); r.payload == o.payload && r.rxBump == o.bump
    ensures InboundOk(RxSegment(rx, pkt.seqNo, |bytes|, pkt.fin).rx, StepInbound(i, Data(from, bytes, pkt), r))
  {
    hide Holds, Wrap, RxSegment, Get, Put, Slice, Receive.Arrive, Receive.Stored, Receive.First, Receive.Last;
    AfterFin(i, from, |bytes|, pkt.fin);
    Receive.SegmentRefines(rx, i.a, from, |bytes|, pkt.fin);
    if Receive.Stored(i.a, from, |bytes|) {
      var at := Receive.Position(i.a, Receive.First(i.a, from));
      PutKeepsDelivered(i, at, Slice(bytes, r.payload.value.offset, r.payload.value.len));
    }
    ReadNothing(Deposit(i.mem, bytes, r.payload), |i.log|, i.log);
  }

  lemma ReadNothing(mem: seq<byte>, pos: nat, log: seq<byte>)
    requires |mem| > 0
    ensures log + Get(mem, pos, 0) == log
  {
  }

  lemma EarlyInbound(rx: RxState, i: Inbound, from: nat, bytes: seq<byte>, pkt: Packet, r: Result)
    requires InboundOk(rx, i) && !i.a.fin
    requires 0 < |bytes| < PLEN_LIMIT && IsPiece(bytes, i.stream, from) && pkt.seqNo == Wrap(i.a.isn + from)
    requires -Receive.HALF < i.a.isn + from - i.a.NextSeq() < Receive.HALF
    requires pkt.fin ==> from + |bytes| == |i.stream|
    requires var o := RxSegment(rx, pkt.seqNo, |bytes|, pkt.fin); r.payload == o.payload && r.rxBump == o.bump
    ensures InboundOk(RxSegment(rx, pkt.seqNo, |bytes|, pkt.fin).rx, StepInbound(i, Data(from, bytes, pkt), r))
  {
    hide Holds, Wrap, RxSegment, Deposit, Get, Receive.Arrive, Receive.Stored;
    ReachOf(i);
    ArriveWithin(i, from, |bytes|, pkt.fin);
    Receive.SegmentRefines(rx, i.a, from, |bytes|, pkt.fin);
    var a' := Receive.Arrive(i.a, from, |bytes|, pkt.fin);
    var mem := Deposit(i.mem, bytes, r.payload);
    if Receive.Stored(i.a, from, |bytes|) {
      DepositHolds(i, from, bytes, r.payload);
      ArriveHolds(i, from, |bytes|, pkt.fin, mem);
    } else {
      NothingStored(i, bytes, r.payload);
    }
    HoldsTail(mem, i.stream, a'.freed, a'.next, |i.log|);
    ReadNew(mem, i.stream, i.log, a'.next);
  }

  /** Any segment of the stream before the FIN, and any segment at all after it. */
  lemma DataInbound(rx: RxState, i: Inbound, from: nat, bytes: seq<byte>, pkt: Packet, r: Result)
    requires InboundOk(rx, i)
    requires 0 < |bytes| < PLEN_LIMIT && pkt.seqNo == Wrap(i.a.isn + from)
    requires -Receive.HALF < i.a.isn + from - i.a.NextSeq() < Receive.HALF
    requires i.a.fin || (IsPiece(bytes, i.stream, from) && (pkt.fin ==> from + |bytes| == |i.stream|))
    requires var o := RxSegment(rx, pkt.seqNo, |bytes|, pkt.fin); r.payload == o.payload && r.rxBump == o.bump
    ensures InboundOk(RxSegment(rx, pkt.seqNo, |bytes|, pkt.fin).rx, StepInbound(i, Data(from, bytes, pkt), r))
  {
    hide InboundOk, RxSegment, Wrap, StepInbound;
    if i.a.fin {
      LateInbound(rx, i, from, bytes, pkt, r);
    } else {
      EarlyInbound(rx, i, from, bytes, pkt, r);
    }
  }

  lemma ReachOf(i: Inbound)
    requires i.a.lo < i.a.hi ==> Holds(i.mem, i.stream, i.a.lo, i.a.hi)
    ensures i.a.lo < i.a.hi ==> i.a.hi <= |i.stream|
  {
  }

  lemma NothingStored(i: Inbound, bytes: seq<byte>, payload: Option<Dma>)
    requires payload == None && |i.mem| > 0
    ensures Deposit(i.mem, bytes, payload) == i.mem
  {
  }

  lemma HoldsTail(mem: seq<byte>, stream: seq<byte>, from: nat, to: nat, mid: nat)
    requires Holds(mem, stream, from, to) && from <= mid
    ensures Holds(mem, stream, mid, to) && to <= |stream|
  {
  }

  lemma AckInbound(f: FlowTcp, i: Inbound, pkt: Packet)
    requires InboundOk(f.rx, i)
    requires pkt.fin && !i.a.fin ==>
               && pkt.seqNo == Wrap(i.a.isn + |i.stream|)
               && -Receive.HALF < i.a.isn + |i.stream| - i.a.NextSeq() < Receive.HALF
    ensures InboundOk(PureAck(f, pkt).0.rx, StepInbound(i, Ack(pkt), PureAck(f, pkt).1))
  {
    hide Wrap, Holds, CountedAck, UpdateWindow, QmGrowth;
    if PureAck(f, pkt).1.fin {
      WrapInjective(i.a.isn + i.a.next, i.a.isn + |i.stream|);
      WrapAdd(i.a.isn + i.a.next, 1);
    }
  }

  lemma AppInbound(rx: RxState, i: Inbound, rxBump: nat)
    requires InboundOk(rx, i) && rxBump <= i.a.next - i.a.freed && rxBump < BUMP_LIMIT
    ensures InboundOk(rx.(avail := Add(rx.avail, rxBump)), i.(a := i.a.(freed := i.a.freed + rxBump)))
  {
    hide Wrap, Holds;
    HoldsTail(i.mem, i.stream, i.a.freed, i.a.next, i.a.freed + rxBump);
  }

  // --------------------------------------------------------------------- sending side

  lemma AckOutbound(t: TxState, o: Outbound, t': TxState, s': Sending.Sender)
    requires OutboundOk(t, o)
    requires s'.Ok() && Sending.Represents(t', s')
    requires s' == o.s.(acked := s'.acked, sent := s'.sent) && o.s.acked <= s'.acked
    ensures OutboundOk(t', o.(s := s'))
  {
    hide Wrap, Holds;
    HoldsTail(o.mem, o.stream, o.s.acked, o.s.total, s'.acked);
  }

  lemma DataOutbound(f: FlowTcp, o: Outbound, from: nat, bytes: seq<byte>, pkt: Packet)
    requires OutboundOk(f.tx, o) && 0 < |bytes| < PLEN_LIMIT
    ensures var (f', r) := Segment(f, |bytes|, pkt);
            OutboundOk(f'.tx, StepOutbound(o, Data(from, bytes, pkt), r))
  {
    hide Wrap, OutboundOk, RxSegment, SegmentAck, QmGrowth;
    assert o.s.Ok() && Sending.Represents(f.tx, o.s) by { OutboundParts(f.tx, o); }
    Sending.SegmentAckRefines(f.tx, o.s, pkt.ackNo);
    var (f', r) := Segment(f, |bytes|, pkt);
    AckOutbound(f.tx, o, f'.tx, Sending.AckedMore(o.s, r.txBump));
  }

  lemma OutboundParts(t: TxState, o: Outbound)
    requires OutboundOk(t, o)
    ensures o.s.Ok() && Sending.Represents(t, o.s) && |o.mem| == o.s.len && 0 < o.s.len
  {
  }

  lemma PureAckOutbound(f: FlowTcp, o: Outbound, pkt: Packet)
    requires OutboundOk(f.tx, o)
    ensures var (f', r) := PureAck(f, pkt);
            OutboundOk(f'.tx, StepOutbound(o, Ack(pkt), r))
  {
    hide Wrap, OutboundOk, RxSeqInWindow, CountedAck, QmGrowth;
    OutboundParts(f.tx, o);
    Sending.CountedAckRefines(f.tx, o.s, pkt.ackNo);
    var (f', r) := PureAck(f, pkt);
    AckOutbound(f.tx, o, f'.tx, if r.retx then Sending.Rewound(o.s) else Sending.AckedMore(o.s, r.txBump));
  }

  lemma RetxOutbound(f: FlowTcp, o: Outbound)
    requires OutboundOk(f.tx, o)
    ensures OutboundOk(Retransmit(f).0.tx, StepOutbound(o, Retx, Retransmit(f).1))
  {
    hide Wrap, OutboundOk, ResetRetransmit, QmGrowth;
    OutboundParts(f.tx, o);
    Sending.ResetRefines(f.tx, o.s);
    AckOutbound(f.tx, o, Retransmit(f).0.tx, Sending.Rewound(o.s));
  }

  /** Bytes written into free space leave the unacknowledged ones alone. */
  lemma WriteHolds(o: Outbound, data: seq<byte>)
    requires 0 < |o.mem| && o.s.acked <= |o.stream| && |o.stream| + |data| <= o.s.acked + |o.mem|
    requires Holds(o.mem, o.stream, o.s.acked, |o.stream|)
    ensures Holds(Put(o.mem, |o.stream|, data), o.stream + data, o.s.acked, |o.stream| + |data|)
  {
    hide Read, Put;
    forall k | o.s.acked <= k < |o.stream| + |data|
      ensures Read(Put(o.mem, |o.stream|, data), k) == (o.stream + data)[k]
    {
      ReadPut(o.mem, |o.stream|, data, k);
    }
  }

  lemma AppOutbound(f: FlowTcp, o: Outbound, rxBump: nat, data: seq<byte>, close: bool)
    requires OutboundOk(f.tx, o) && rxBump < BUMP_LIMIT && |data| < BUMP_LIMIT
    requires |data| <= o.s.len - (o.s.total - o.s.acked)
    ensures var (f', r) := AppBump(f, rxBump, |data|, close);
            OutboundOk(f'.tx, StepOutbound(o, App(rxBump, data, close), r))
  {
    hide Wrap, Holds, Put, QmGrowth;
    WriteHolds(o, data);
  }

  lemma ReadSent(o: Outbound, from: nat, n: nat)
    requires |o.mem| > 0 && MOD % |o.mem| == 0
    requires o.s.acked <= from && from + n <= o.s.total && Holds(o.mem, o.stream, o.s.acked, o.s.total)
    ensures Get(o.mem, Wrap(from), n) == o.stream[from..from + n]
  {
    hide Read, Wrap;
    GetWrapped(o.mem, from, n);
  }

  lemma TxOutbound(f: FlowTcp, o: Outbound, force: bool)
    requires OutboundOk(f.tx, o)
    ensures var (f', r) := Transmit(f, force);
            OutboundOk(f'.tx, StepOutbound(o, Tx(force), r))
  {
    hide Wrap, Holds, Get, Send;
    var (f', r) := Transmit(f, force);
    if r.transmit.Some? {
      var n := Min(TxAvail(f.tx, 0), TCP_MSS);
      Sending.SendRefines(f.tx, o.s, n);
      ReadSent(o, o.s.sent, n);
    }
  }

  // ----------------------------------------------------------------------------- runs

  lemma StepOk(w: World, e: Event)
    requires Ok(w) && Allowed(w, e)
    ensures Ok(Step(w, e))
  {
    hide InboundOk, OutboundOk, Wrap, Segment, PureAck, Transmit, Retransmit, StepInbound, StepOutbound;
    match e
    case Data(from, bytes, pkt) =>
      SegmentInbound(w, from, bytes, pkt);
      DataOutbound(w.flow, w.out, from, bytes, pkt);
    case Ack(pkt) =>
      AckInbound(w.flow, w.inb, pkt);
      PureAckOutbound(w.flow, w.out, pkt);
    case App(rxBump, data, close) =>
      BumpInbound(w, rxBump, data, close);
      AppOutbound(w.flow, w.out, rxBump, data, close);
    case Tx(force) =>
      OtherInbound(w, e);
      TxOutbound(w.flow, w.out, force);
    case Retx =>
      OtherInbound(w, e);
      RetxOutbound(w.flow, w.out);
  }

  lemma SegmentInbound(w: World, from: nat, bytes: seq<byte>, pkt: Packet)
    requires InboundOk(w.flow.rx, w.inb) && Allowed(w, Data(from, bytes, pkt))
    ensures var (f', r) := Segment(w.flow, |bytes|, pkt);
            InboundOk(f'.rx, StepInbound(w.inb, Data(from, bytes, pkt), r))
  {
    hide InboundOk, RxSegment, SegmentAck, QmGrowth, Wrap;
    DataInbound(w.flow.rx, w.inb, from, bytes, pkt, Segment(w.flow, |bytes|, pkt).1);
  }

  lemma BumpInbound(w: World, rxBump: nat, data: seq<byte>, close: bool)
    requires InboundOk(w.flow.rx, w.inb) && Allowed(w, App(rxBump, data, close))
    ensures var (f', r) := AppBump(w.flow, rxBump, |data|, close);
            InboundOk(f'.rx, StepInbound(w.inb, App(rxBump, data, close), r))
  {
    hide InboundOk, QmGrowth;
    AppInbound(w.flow.rx, w.inb, rxBump);
  }

  lemma OtherInbound(w: World, e: Event)
    requires InboundOk(w.flow.rx, w.inb) && (e.Tx? || e.Retx?)
    ensures var (f', r) := Handle(w.flow, WorkOf(e));
            InboundOk(f'.rx, StepInbound(w.inb, e, r))
  {
    hide InboundOk, QmGrowth;
  }

  /** A run the environment may produce. */
  ghost predicate Feasible(w: World, es: seq<Event>)
    requires |w.inb.mem| > 0 && |w.out.mem| > 0
    decreases |es|
  {
    es != [] ==> Allowed(w, es[0]) && Feasible(Step(w, es[0]), es[1..])
  }

  ghost function Run(w: World, es: seq<Event>): World
    requires |w.inb.mem| > 0 && |w.out.mem| > 0 && Feasible(w, es)
    decreases |es|
  {
    if es == [] then w else Run(Step(w, es[0]), es[1..])
  }

  /** How a later state relates to an earlier one: both streams only grow, nothing sent or
      acknowledged is taken back, and after a FIN the receiving side stands still. */
  ghost predicate Extends(w: World, w': World) {
    && w.inb.stream == w'.inb.stream
    && w.inb.log <= w'.inb.log
    && w.inb.a.freed <= w'.inb.a.freed
    && w.out.stream <= w'.out.stream
    && w.out.wire <= w'.out.wire
    && w.out.s.acked <= w'.out.s.acked
    && w.out.s.iss == w'.out.s.iss && w.inb.a.isn == w'.inb.a.isn
    && (w.flow.rx.fin ==> w'.flow.rx.fin && w'.inb.log == w.inb.log && w'.flow.rx.nextSeq == w.flow.rx.nextSeq)
  }

  lemma StepExtends(w: World, e: Event)
    requires Ok(w) && Allowed(w, e)
    ensures Extends(w, Step(w, e))
  {
    StepOk(w, e);
    var w' := Step(w, e);
    StepStreams(w, e);
    if w.flow.rx.fin {
      assert w'.flow.rx.fin && w'.inb.log == w.inb.log && w'.flow.rx.nextSeq == w.flow.rx.nextSeq by {
        StandsStill(w, w');
      }
    }
  }

  lemma StepStreams(w: World, e: Event)
    requires |w.inb.mem| > 0 && |w.out.mem| > 0 && ValidWork(WorkOf(e)) && w.out.s.Ok()
    ensures var w' := Step(w, e);
            && w.inb.stream == w'.inb.stream && w.inb.log <= w'.inb.log
            && w.inb.a.freed <= w'.inb.a.freed && w.out.stream <= w'.out.stream
            && w.out.wire <= w'.out.wire && w.out.s.acked <= w'.out.s.acked
            && w.out.s.iss == w'.out.s.iss && w.inb.a.isn == w'.inb.a.isn
            && (w.inb.a.fin ==> w'.inb.a.fin)
  {
    hide Get, Put, Deposit, Segment, PureAck, Transmit, AppBump, Retransmit;
    var r: Result := Handle(w.flow, WorkOf(e)).1;
    assert 0 <= r.txBump;
  }

  /** With a FIN received there is nothing left to deliver. */
  lemma StandsStill(w: World, w': World)
    requires Ok(w) && Ok(w') && w.inb.stream == w'.inb.stream && w.inb.a.isn == w'.inb.a.isn
    requires w.inb.a.fin && w'.inb.a.fin
    ensures w'.flow.rx.fin && w'.inb.log == w.inb.log && w'.flow.rx.nextSeq == w.flow.rx.nextSeq
  {
    hide Wrap, Holds, OutboundOk;
  }

  lemma ExtendsTrans(w: World, w': World, w'': World)
    requires Extends(w, w') && Extends(w', w'')
    ensures Extends(w, w'')
  {
  }

  /** Every state of every run is consistent, and extends the states before it: the
      application has read exactly a prefix of the peer's stream, in order and once, and
      whatever it has not freed is still in the buffer. */
  lemma {:induction false} RunOk(w: World, es: seq<Event>)
    requires Ok(w) && |w.inb.mem| > 0 && |w.out.mem| > 0 && Feasible(w, es)
    ensures Ok(Run(w, es)) && Extends(w, Run(w, es))
    decreases |es|
  {
    hide Ok, Extends, Step;
    if es == [] {
      assert Extends(w, w) by { ExtendsSelf(w); }
    } else {
      var w' := Step(w, es[0]);
      StepOk(w, es[0]);
      StepExtends(w, es[0]);
      RunOk(w', es[1..]);
      ExtendsTrans(w, w', Run(w', es[1..]));
    }
  }

  lemma ExtendsSelf(w: World)
    ensures Extends(w, w)
  {
  }

  /** A connection as the slow path registers it. */
  function Established(rxLen: nat, txLen: nat, remoteSeq: uint32, localSeq: uint32,
                       rxMem: seq<byte>, txMem: seq<byte>, stream: seq<byte>): World
    requires rxLen < MOD && txLen < MOD
  {
    World(FlowTcp(TxState(txLen, 0, rxLen, 0, localSeq, 0, 0, false, 0),
                  RxState(rxLen, rxLen, remoteSeq, 0, 0, 0, false)),
          Inbound(Receive.Receiver(rxLen, remoteSeq, 0, 0, 0, 0, false), rxMem, stream, []),
          Outbound(Sending.Sender(txLen, localSeq, 0, 0, 0), txMem, [], []))
  }

  /** From registration on, in every run: the application has read a prefix of the peer's
      stream; receive space is conserved; the stored interval lies strictly ahead and inside
      the window; transmit space is conserved; position and sequence number keep their
      distance; and every segment ever sent, first time or again, carries the application's
      bytes for its sequence numbers. */
  lemma EstablishedRuns(rxLen: nat, txLen: nat, remoteSeq: uint32, localSeq: uint32,
                        rxMem: seq<byte>, txMem: seq<byte>, stream: seq<byte>, es: seq<Event>)
    requires PowerOfTwo(rxLen) && PowerOfTwo(txLen) && rxLen <= Receive.HALF && txLen <= Receive.HALF
    requires |rxMem| == rxLen && |txMem| == txLen
    requires var w := Established(rxLen, txLen, remoteSeq, localSeq, rxMem, txMem, stream); Feasible(w, es)
    ensures var w := Run(Established(rxLen, txLen, remoteSeq, localSeq, rxMem, txMem, stream), es);
            var rx, tx, a, s := w.flow.rx, w.flow.tx, w.inb.a, w.out.s;
            && Ok(w)
            && w.inb.log <= w.inb.stream == stream
            && rx.avail + |w.inb.log| - a.freed == rx.len
            && (rx.oooLen > 0 ==> 0 < Sub(rx.oooStart, rx.nextSeq) && Sub(rx.oooStart, rx.nextSeq) + rx.oooLen <= rx.avail)
            && tx.avail + tx.sent == |w.out.stream| - s.acked
            && Sub(tx.nextSeq, tx.nextPos) == localSeq
            && (forall x :: x in w.out.wire ==>
                  && x.seqNo == Wrap(localSeq + x.offset)
                  && x.offset + |x.bytes| <= |w.out.stream|
                  && x.bytes == w.out.stream[x.offset..x.offset + |x.bytes|])
  {
    assert rxLen > 0 && txLen > 0;
    hide Ok, Step, Feasible, PowerOfTwo;
    var w0 := Established(rxLen, txLen, remoteSeq, localSeq, rxMem, txMem, stream);
    EstablishedOk(rxLen, txLen, remoteSeq, localSeq, rxMem, txMem, stream);
    RunOk(w0, es);
    ReadOut(Run(w0, es), localSeq);
  }

  lemma EstablishedOk(rxLen: nat, txLen: nat, remoteSeq: uint32, localSeq: uint32,
                      rxMem: seq<byte>, txMem: seq<byte>, stream: seq<byte>)
    requires PowerOfTwo(rxLen) && PowerOfTwo(txLen) && rxLen <= Receive.HALF && txLen <= Receive.HALF
    requires |rxMem| == rxLen && |txMem| == txLen
    ensures Ok(Established(rxLen, txLen, remoteSeq, localSeq, rxMem, txMem, stream))
  {
    assert rxLen > 0 && txLen > 0;
    hide PowerOfTwo, InboundOk, OutboundOk;
    ModIsPower();
    PowerOfTwoDivides(rxLen, MOD);
    PowerOfTwoDivides(txLen, MOD);
    var w := Established(rxLen, txLen, remoteSeq, localSeq, rxMem, txMem, stream);
    EstablishedInbound(w.flow.rx, w.inb);
    EstablishedOutbound(w.flow.tx, w.out);
  }

  lemma EstablishedInbound(rx: RxState, i: Inbound)
    requires 0 < |i.mem| == i.a.len <= Receive.HALF && MOD % i.a.len == 0 && i.log == []
    requires i.a == Receive.Receiver(i.a.len, i.a.isn, 0, 0, 0, 0, false) && 0 <= i.a.isn < MOD
    requires rx == RxState(i.a.len, i.a.len, i.a.isn, 0, 0, 0, false)
    ensures InboundOk(rx, i)
  {
    assert i.stream[..0] == [];
  }

  lemma EstablishedOutbound(tx: TxState, o: Outbound)
    requires 0 < |o.mem| == o.s.len < MOD && MOD % o.s.len == 0 && o.stream == [] && o.wire == []
    requires o.s == Sending.Sender(o.s.len, o.s.iss, 0, 0, 0) && 0 <= o.s.iss < MOD
    requires tx == TxState(o.s.len, 0, tx.remoteAvail, 0, o.s.iss, 0, 0, false, 0)
    ensures OutboundOk(tx, o)
  {
  }

  /** The conserved quantities, read off a consistent state. */
  lemma ReadOut(w: World, localSeq: uint32)
    requires Ok(w) && w.out.s.iss == localSeq
    ensures var rx, tx, a, s := w.flow.rx, w.flow.tx, w.inb.a, w.out.s;
            && w.inb.log <= w.inb.stream
            && rx.avail + |w.inb.log| - a.freed == rx.len
            && (rx.oooLen > 0 ==> 0 < Sub(rx.oooStart, rx.nextSeq) && Sub(rx.oooStart, rx.nextSeq) + rx.oooLen <= rx.avail)
            && tx.avail + tx.sent == |w.out.stream| - s.acked
            && Sub(tx.nextSeq, tx.nextPos) == localSeq
            && (forall x :: x in w.out.wire ==>
                  && x.seqNo == Wrap(localSeq + x.offset)
                  && x.offset + |x.bytes| <= |w.out.stream|
                  && x.bytes == w.out.stream[x.offset..x.offset + |x.bytes|])
  {
    hide Wrap, Holds, InboundOk, OutboundOk;
    ReadInbound(w.flow.rx, w.inb);
    ReadOutbound(w.flow.tx, w.out, localSeq);
  }

  lemma ReadInbound(rx: RxState, i: Inbound)
    requires InboundOk(rx, i)
    ensures i.log <= i.stream && rx.avail + |i.log| - i.a.freed == rx.len
    ensures rx.oooLen > 0 ==> 0 < Sub(rx.oooStart, rx.nextSeq) && Sub(rx.oooStart, rx.nextSeq) + rx.oooLen <= rx.avail
  {
    hide Wrap, Holds;
    if i.a.lo < i.a.hi {
      WrapDiff(i.a.isn + i.a.lo, i.a.NextSeq());
    }
  }

  lemma ReadOutbound(tx: TxState, o: Outbound, localSeq: uint32)
    requires OutboundOk(tx, o) && o.s.iss == localSeq
    ensures tx.avail + tx.sent == |o.stream| - o.s.acked && Sub(tx.nextSeq, tx.nextPos) == localSeq
    ensures forall x :: x in o.wire ==>
              && x.seqNo == Wrap(localSeq + x.offset)
              && x.offset + |x.bytes| <= |o.stream|
              && x.bytes == o.stream[x.offset..x.offset + |x.bytes|]
  {
    hide Wrap, Holds;
    WrapAdd(o.s.sent, localSeq);
  }

  /** Every header that goes out acknowledges exactly what was delivered, advertises exactly
      the free receive space, and carries the sequence number of the send position: that of
      its own first byte for a transmission, the one reached for an answer. */
  lemma HeadersTruthful(w: World, e: Event)
    requires Ok(w) && Allowed(w, e)
    ensures var w', h := Step(w, e), Handle(w.flow, WorkOf(e)).1.transmit;
            h.Some? ==>
              && h.value.ackNo == Wrap(w'.inb.a.NextSeq())
              && h.value.win == w'.inb.a.Limit() - |w'.inb.log|
              && h.value.seqNo == Sending.SeqOf(w.out.s, if e.Tx? then w.out.s.sent else w'.out.s.sent)
  {
    hide Wrap, Holds, WireOk, Get, Put, Deposit, RxSegment, SegmentAck, CountedAck, TxAvail, QmGrowth, Receive.Arrive;
    StepOk(w, e);
  }

  lemma ReadLonger(w: World, w': World)
    requires Ok(w) && Ok(w') && w.inb.stream == w'.inb.stream
    ensures w'.inb.log != w.inb.log <==> w'.inb.a.next != w.inb.a.next
  {
    hide Holds, Wrap, OutboundOk;
    assert |w.inb.log| == w.inb.a.next && |w'.inb.log| == w'.inb.a.next;
  }

  lemma InFlight(w: World)
    requires Ok(w)
    ensures w.flow.tx.sent == w.out.s.sent - w.out.s.acked
    ensures |w.inb.mem| > 0 && |w.out.mem| > 0
  {
    hide Wrap, Holds;
  }

  /** What a result says of the application's side of the step from `w` to `w'`. */
  ghost predicate Announces(w: World, w': World, r: Result) {
    && w'.inb.stream == w.inb.stream
    && w'.out.s.acked == w.out.s.acked + r.txBump
    && (r.notifyApp <==> w'.inb.a.next != w.inb.a.next || r.txBump != 0 || w'.inb.a.fin != w.inb.a.fin)
    && (r.txpZero <==> r.txBump != 0 && w'.flow.tx.sent == 0)
  }

  lemma DataChanges(w: World, from: nat, bytes: seq<byte>, pkt: Packet)
    requires Ok(w) && Allowed(w, Data(from, bytes, pkt))
    ensures Announces(w, Step(w, Data(from, bytes, pkt)), Handle(w.flow, RxWork(|bytes|, pkt)).1)
  {
    hide Wrap, Holds, WireOk, Get, Deposit, RxSegment, SegmentAck, TxAvail, QmGrowth, Receive.Arrive, Receive.Represents;
    Receive.AnnouncedIffLonger(w.flow.rx, w.inb.a, from, |bytes|, pkt.fin);
    Receive.SegmentRefines(w.flow.rx, w.inb.a, from, |bytes|, pkt.fin);
    Receive.ArriveProgress(w.inb.a, from, |bytes|, pkt.fin);
    FinStays(w.inb.a, from, |bytes|, pkt.fin);
  }

  lemma FinStays(a: Receive.Receiver, from: nat, bytes: nat, fin: bool)
    ensures a.fin ==> Receive.Arrive(a, from, bytes, fin).fin
  {
  }

  lemma AckChanges(w: World, pkt: Packet)
    requires Ok(w) && Allowed(w, Ack(pkt))
    ensures Announces(w, Step(w, Ack(pkt)), Handle(w.flow, RxWork(0, pkt)).1)
  {
    hide Wrap, Holds, WireOk, TxAvail, QmGrowth, AckBump, Acknowledge;
  }

  /** A packet makes the NIC notify the application exactly if it changed something for it:
      new bytes to read, newly acknowledged bytes, or the end of the stream.  The mark that
      nothing is in flight any more is set exactly if an acknowledgement brought that about. */
  lemma NotifiedIffChanged(w: World, e: Event)
    requires Ok(w) && Allowed(w, e) && (e.Data? || e.Ack?)
    ensures var w', r := Step(w, e), Handle(w.flow, WorkOf(e)).1;
            && (r.notifyApp <==> w'.inb.log != w.inb.log || w'.out.s.acked != w.out.s.acked || w'.inb.a.fin != w.inb.a.fin)
            && (r.txpZero <==> w'.out.s.acked != w.out.s.acked && w'.out.s.sent == w'.out.s.acked)
  {
    hide Ok, Step, Handle, Wrap;
    InFlight(w);
    StepOk(w, e);
    InFlight(Step(w, e));
    if e.Data? {
      DataChanges(w, e.from, e.bytes, e.pkt);
    } else {
      AckChanges(w, e.pkt);
    }
    ReadLonger(w, Step(w, e));
  }

  /** Two transmissions of the same stream byte agree, whatever happened in between. */
  lemma TransmissionsAgree(w: World, x: Sent, y: Sent, k: nat)
    requires Ok(w) && x in w.out.wire && y in w.out.wire
    requires x.offset <= k < x.offset + |x.bytes| && y.offset <= k < y.offset + |y.bytes|
    ensures x.bytes[k - x.offset] == y.bytes[k - y.offset] == w.out.stream[k]
  {
    hide Wrap, Holds, InboundOk;
    assert x.bytes[k - x.offset] == w.out.stream[x.offset..x.offset + |x.bytes|][k - x.offset];
    assert y.bytes[k - y.offset] == w.out.stream[y.offset..y.offset + |y.bytes|][k - y.offset];
  }
}
