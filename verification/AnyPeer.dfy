/** What the data path keeps against any packets whatsoever, from any peer: the bounds of the
    receive window, the bytes not yet freed, and the end of the stream after a FIN. */
module AnyPeer {
  import opened Words
  import opened Flows
  import opened Buffers
  import opened Sending
  import Receive

  // -------------------------------------------------------------------------- after a FIN

  lemma FinFreezesSegment(r: RxState, seqNo: uint32, plen: nat, fin: bool)
    requires plen < PLEN_LIMIT && r.fin
    ensures var o := RxSegment(r, seqNo, plen, fin);
            o.rx == r.(oooLen := o.rx.oooLen, oooStart := o.rx.oooStart) && o.bump == 0 && !o.fin
  {
    hide TrimRxBuf, CatchUp;
  }

  /** Once a FIN has been received, no work of any kind moves the expected sequence number or
      the delivery position, reports a byte, or ends the stream again. */
  lemma FinFreezes(f: FlowTcp, w: Work)
    requires ValidWork(w) && f.rx.fin
    ensures var (f', r) := Handle(f, w);
            && f'.rx.fin && f'.rx.nextSeq == f.rx.nextSeq && f'.rx.nextPos == f.rx.nextPos
            && r.rxBump == 0 && (w.RxWork? ==> !r.fin)
  {
    hide RxSegment, SegmentAck, CountedAck, TxAvail, QmGrowth, RxSeqInWindow, ResetRetransmit;
    if w.RxWork? && w.plen != 0 {
      FinFreezesSegment(f.rx, w.pkt.seqNo, w.plen, w.pkt.fin);
    }
  }

  // ------------------------------------------------------------------- the receive window

  /** The free space is part of the buffer, and until a FIN the stored interval is empty or lies
      strictly behind the delivered stream and inside the free space. */
  predicate InWindow(r: RxState) {
    && r.avail <= r.len <= Receive.HALF
    && (!r.fin && r.oooLen > 0 ==>
          0 < Sub(r.oooStart, r.nextSeq) && Sub(r.oooStart, r.nextSeq) + r.oooLen <= r.avail)
  }

  /** A transfer lies in the free space and within the packet's payload. */
  predicate Fits(r: RxState, plen: nat, d: Dma) {
    0 < d.len && Sub(d.pos, r.nextPos) + d.len <= r.avail && d.offset + d.len <= plen
  }

  /** What trimming leaves of any segment lies inside the free space. */
  lemma TrimInside(r: RxState, seqNo: uint32, bytes: nat)
    requires r.avail <= Receive.HALF && bytes < Receive.HALF && TrimRxBuf(r, seqNo, bytes).Some?
    ensures var t := TrimRxBuf(r, seqNo, bytes).value;
            Sub(Add(seqNo, t.start), r.nextSeq) + (bytes - t.start - t.end) <= r.avail
  {
  }

  lemma StoreInside(r: RxState, seqNo: uint32, bytes: uint16, offset: uint16)
    requires InWindow(r) && seqNo != r.nextSeq && Sub(seqNo, r.nextSeq) + bytes <= r.avail
    ensures var o := StoreOutOfOrder(r, seqNo, bytes, offset);
            && InWindow(o.rx) && o.rx.avail == r.avail && o.rx.nextPos == r.nextPos && o.rx.nextSeq == r.nextSeq
            && o.rx.len == r.len && (o.payload.Some? ==> Fits(r, offset + bytes, o.payload.value))
  {
  }

  /** The effect of a segment on the window: what is reported comes out of the free space. */
  predicate Moves(r: RxState, r': RxState, bump: uint32) {
    && InWindow(r') && bump <= r.avail && r'.avail == r.avail - bump && r'.len == r.len
    && r'.nextPos == Add(r.nextPos, bump)
  }

  /** Delivering through the stored interval never takes more than there is free. */
  lemma CatchUpInside(r: RxState, bytes: uint16)
    requires InWindow(r) && !r.fin && 0 < bytes <= r.avail
    ensures var (r', extra) := CatchUp(Deliver(r, bytes));
            bytes + extra < MOD && Moves(r, r', bytes + extra) && r'.fin == r.fin
  {
    hide TrimRxBuf;
    if r.oooLen != 0 {
      DeliveredTrim(r, bytes);
    }
  }

  /** How the stored interval is trimmed after `bytes` bytes have been delivered. */
  lemma DeliveredTrim(r: RxState, bytes: uint16)
    requires InWindow(r) && !r.fin && 0 < bytes <= r.avail && r.oooLen > 0
    ensures var off := Sub(r.oooStart, r.nextSeq);
            && TrimRxBuf(Deliver(r, bytes), r.oooStart, r.oooLen) ==
               (if off + r.oooLen < bytes then None else if off <= bytes then Some(Trimmed(bytes - off, 0)) else Some(Trimmed(0, 0)))
            && (off <= bytes ==> Add(r.oooStart, bytes - off) == Deliver(r, bytes).nextSeq)
            && (off > bytes ==> Sub(r.oooStart, Deliver(r, bytes).nextSeq) == off - bytes)
  {
  }

  lemma DeliverInside(r: RxState, bytes: uint16, offset: uint16)
    requires InWindow(r) && !r.fin && bytes <= r.avail
    ensures var o := DeliverInOrder(r, bytes, offset);
            Moves(r, o.rx, o.bump) && o.rx.fin == r.fin && (o.payload.Some? ==> Fits(r, offset + bytes, o.payload.value))
  {
    hide CatchUp, InWindow;
    if bytes > 0 {
      CatchUpInside(r, bytes);
    }
  }

  lemma FinInside(r: RxState)
    requires InWindow(r)
    ensures InWindow(AcceptFin(r))
  {
  }

  lemma PlaceInside(r: RxState, seqNo: uint32, plen: nat, fin: bool, t: Trimmed)
    requires InWindow(r) && t.start + t.end <= plen < PLEN_LIMIT
    requires Sub(Add(seqNo, t.start), r.nextSeq) + (plen - t.start - t.end) <= r.avail
    ensures var o := PlaceSegment(r, seqNo, plen, fin, t);
            Moves(r, o.rx, o.bump) && (o.payload.Some? ==> Fits(r, plen, o.payload.value))
  {
    hide StoreOutOfOrder, DeliverInOrder, InWindow;
    var bytes := plen - t.start - t.end;
    if Add(seqNo, t.start) != r.nextSeq {
      StoreInside(r, Add(seqNo, t.start), bytes, t.start);
    } else if !r.fin {
      DeliverInside(r, bytes, t.start);
      FinInside(DeliverInOrder(r, bytes, t.start).rx);
    }
  }

  /** Any segment, with any sequence number, length and flags: the window stays as it should be,
      what is reported comes out of the free space without underflow, and only free space is
      written. */
  lemma SegmentInside(r: RxState, seqNo: uint32, plen: nat, fin: bool)
    requires InWindow(r) && plen < PLEN_LIMIT
    ensures var o := RxSegment(r, seqNo, plen, fin);
            Moves(r, o.rx, o.bump) && (o.payload.Some? ==> Fits(r, plen, o.payload.value))
  {
    hide PlaceSegment, InWindow, TrimRxBuf;
    assert r.avail <= Receive.HALF by { WindowBound(r); }
    if TrimRxBuf(r, seqNo, plen).Some? {
      TrimInside(r, seqNo, plen);
      PlaceInside(r, seqNo, plen, fin, TrimRxBuf(r, seqNo, plen).value);
    }
  }

  lemma WindowBound(r: RxState)
    requires InWindow(r)
    ensures r.avail <= r.len <= Receive.HALF
  {
  }

  /** No packet from any peer overwrites a byte that was delivered and not freed: the `len -
      avail` positions before the delivery position. */
  lemma UnfreedUntouched(r: RxState, seqNo: uint32, plen: nat, fin: bool, mem: seq<byte>, data: seq<byte>, k: nat)
    requires InWindow(r) && plen < PLEN_LIMIT && RxSegment(r, seqNo, plen, fin).payload.Some?
    requires |mem| == r.len > 0 && MOD % r.len == 0
    requires |data| == RxSegment(r, seqNo, plen, fin).payload.value.len && 0 < k <= r.len - r.avail
    ensures var d := RxSegment(r, seqNo, plen, fin).payload.value;
            Read(Put(mem, d.pos, data), r.nextPos - k) == Read(mem, r.nextPos - k)
  {
    hide RxSegment, InWindow, Put, Read;
    SegmentInside(r, seqNo, plen, fin);
    var d := RxSegment(r, seqNo, plen, fin).payload.value;
    var off := Sub(d.pos, r.nextPos);
    WrapOf(r.nextPos, d.pos);
    PutWrapped(mem, r.nextPos + off, data);
    ReadPut(mem, r.nextPos + off, data, r.nextPos - k);
  }

  lemma WrapOf(base: uint32, pos: uint32)
    ensures Wrap(base + Sub(pos, base)) == pos
  {
  }

  // ------------------------------------------------------------------------------- runs

  /** The application frees at most what it holds. */
  predicate FreesHeld(f: FlowTcp, w: Work) {
    w.AcWork? ==> w.rxBump <= f.rx.len - f.rx.avail
  }

  /** One item of work of any kind on the receiving half. */
  lemma HandleInside(f: FlowTcp, w: Work)
    requires ValidWork(w) && InWindow(f.rx) && FreesHeld(f, w)
    ensures var (f', r) := Handle(f, w);
            && InWindow(f'.rx) && f'.rx.len == f.rx.len
            && r.rxBump <= f.rx.avail
            && f'.rx.avail == f.rx.avail - r.rxBump + (if w.AcWork? then w.rxBump else 0)
            && f'.rx.nextPos == Add(f.rx.nextPos, r.rxBump)
  {
    hide RxSegment, SegmentAck, CountedAck, TxAvail, QmGrowth, RxSeqInWindow, ResetRetransmit;
    if w.RxWork? && w.plen != 0 {
      SegmentInside(f.rx, w.pkt.seqNo, w.plen, w.pkt.fin);
    }
  }

  ghost predicate AllFreesHeld(f: FlowTcp, ws: seq<Work>)
    requires forall w :: w in ws ==> ValidWork(w)
    decreases |ws|
  {
    ws != [] ==> FreesHeld(f, ws[0]) && AllFreesHeld(Handle(f, ws[0]).0, ws[1..])
  }

  /** All bytes reported to the application in a run. */
  ghost function Delivered(f: FlowTcp, ws: seq<Work>): nat
    requires forall w :: w in ws ==> ValidWork(w)
    decreases |ws|
  {
    if ws == [] then 0 else Handle(f, ws[0]).1.rxBump + Delivered(Handle(f, ws[0]).0, ws[1..])
  }

  /** All bytes that the application freed in a run. */
  function Freed(ws: seq<Work>): nat {
    if ws == [] then 0 else (if ws[0].AcWork? then ws[0].rxBump else 0) + Freed(ws[1..])
  }

  /** Over every run of arbitrary packets, timers, transmissions and bumps: the window is as it
      should be in the end, space is conserved exactly, and the delivery position has moved by
      exactly what was reported. */
  lemma {:induction false} RunInside(f: FlowTcp, ws: seq<Work>)
    requires InWindow(f.rx) && (forall w :: w in ws ==> ValidWork(w)) && AllFreesHeld(f, ws)
    ensures var f' := HandleAll(f, ws);
            && InWindow(f'.rx) && f'.rx.len == f.rx.len
            && f'.rx.avail + Delivered(f, ws) - Freed(ws) == f.rx.avail
            && f'.rx.nextPos == Wrap(f.rx.nextPos + Delivered(f, ws))
    decreases |ws|
  {
    hide Handle, InWindow, FreesHeld, Wrap;
    if ws == [] {
      SmallWrap(f.rx.nextPos);
    } else {
      var (f', r) := Handle(f, ws[0]);
      HandleInside(f, ws[0]);
      RunInside(f', ws[1..]);
      WrapSum(f.rx.nextPos, r.rxBump, Delivered(f', ws[1..]));
    }
  }

  lemma SmallWrap(x: uint32)
    ensures Wrap(x) == x
  {
  }

  lemma WrapSum(x: uint32, y: uint32, n: nat)
    ensures Wrap(Add(x, y) + n) == Wrap(x + (y + n))
  {
    if x + y >= MOD {
      ModShift(x + y + n - MOD, MOD, 1);
    }
  }

  /** The window is as it should be in every state of such a run. */
  lemma {:induction false} AlwaysInside(f: FlowTcp, ws: seq<Work>, n: nat)
    requires InWindow(f.rx) && (forall w :: w in ws ==> ValidWork(w)) && AllFreesHeld(f, ws) && n <= |ws|
    ensures InWindow(HandleAll(f, ws[..n]).rx)
    decreases n
  {
    hide Handle, InWindow, FreesHeld;
    if n > 0 {
      HandleInside(f, ws[0]);
      AlwaysInside(Handle(f, ws[0]).0, ws[1..], n - 1);
      HandleAllStep(f, ws, n - 1);
    }
  }

  /** After a FIN, whatever packets come: nothing is delivered any more, in no run. */
  lemma {:induction false} FinFreezesRun(f: FlowTcp, ws: seq<Work>)
    requires f.rx.fin && forall w :: w in ws ==> ValidWork(w)
    ensures var f' := HandleAll(f, ws);
            && f'.rx.fin && f'.rx.nextSeq == f.rx.nextSeq && f'.rx.nextPos == f.rx.nextPos
            && Delivered(f, ws) == 0
    decreases |ws|
  {
    hide Handle;
    if ws != [] {
      FinFreezes(f, ws[0]);
      FinFreezesRun(Handle(f, ws[0]).0, ws[1..]);
    }
  }

  // ------------------------------------------------------- packets outside the window

  /** A packet without payload that lies outside the receive window, by true distance, changes
      nothing in the record; it is answered with the state of the connection. */
  lemma OutsideIsAnswered(f: FlowTcp, p: Packet, next: int, from: int)
    requires f.rx.nextSeq == Wrap(next) && p.seqNo == Wrap(from) && f.rx.avail <= Receive.HALF
    requires -Receive.HALF < from - next < Receive.HALF
    ensures from < next || next + f.rx.avail < from ==>
              var (f', r) := PureAck(f, p);
              && f' == f && r.transmit == Some(SnapshotHeader(f))
              && r.qmBump == None && r.txBump == 0 && !r.notifyApp && !r.fin && !r.retx
    ensures next <= from <= next + f.rx.avail ==> RxSeqInWindow(f.rx, p.seqNo)
  {
    hide Wrap;
    WrapDiff(from, next);
  }

  /** An application bump that reopens a closed window makes sure that the peer hears of it: the
      flow has something to send, or a transmission is forced that advertises the window. */
  lemma ReopenedIsAnnounced(f: FlowTcp, rxBump: nat, txBump: nat, close: bool)
    requires 0 < rxBump < BUMP_LIMIT && txBump < BUMP_LIMIT && f.rx.avail == 0
    ensures var (f', r) := AppBump(f, rxBump, txBump, close);
            && (TxAvail(f'.tx, 0) > 0 || r.qmForce)
            && var h := Transmit(f', r.qmForce).1.transmit; h.Some? && h.value.win == rxBump
  {
  }

  /** And only then is a transmission forced. */
  lemma ForcedOnlyToReopen(f: FlowTcp, rxBump: nat, txBump: nat, close: bool)
    requires rxBump < BUMP_LIMIT && txBump < BUMP_LIMIT
    ensures var (f', r) := AppBump(f, rxBump, txBump, close);
            r.qmForce ==> f.rx.avail == 0 < f'.rx.avail && Transmit(f', false).1 == NO_RESULT
  {
  }
}
