/** The flow record as it sits in local memory: the handlers update its fields in place, in
    the order the firmware does, and are proved to compute the functions of module Flows. */
module FlowRecords {
  import opened Words
  import opened Flows

  class FlowRecord {
    var tx: TxState
    var rx: RxState

    function Value(): FlowTcp
      reads this
    {
      FlowTcp(tx, rx)
    }

    constructor (f: FlowTcp)
      ensures Value() == f
    {
      tx, rx := f.tx, f.rx;
    }

    /** Overwrite the whole record, as a transfer from the outer cache levels does. */
    method Load(f: FlowTcp)
      modifies this
      ensures Value() == f
    {
      tx, rx := f.tx, f.rx;
    }

    method ResetForRetransmit()
      modifies `tx
      ensures tx == ResetRetransmit(old(tx))
    {
      tx := tx.(dupAcks := 0);
      var x := tx.sent;
      tx := tx.(avail := Add(tx.avail, x));
      tx := tx.(remoteAvail := Add(tx.remoteAvail, x));
      tx := tx.(nextSeq := Sub(tx.nextSeq, x));
      tx := tx.(nextPos := Sub(tx.nextPos, x));
      tx := tx.(sent := 0);
    }

    /** Remove acknowledged bytes: the branch shared by both packet handlers. */
    method TakeAck(bump: uint32)
      modifies `tx
      ensures tx == Acknowledge(old(tx), bump)
    {
      var sent := tx.sent;
      if bump < sent {
        tx := tx.(sent := sent - bump);
      } else {
        tx := tx.(nextSeq := Add(tx.nextSeq, bump));
        tx := tx.(nextSeq := Sub(tx.nextSeq, sent));
        tx := tx.(avail := Sub(tx.avail, bump));
        tx := tx.(avail := Add(tx.avail, sent));
        tx := tx.(sent := 0);
        var pos := Add(tx.nextPos, bump);
        pos := Sub(pos, sent);
        tx := tx.(nextPos := pos);
      }
      tx := tx.(dupAcks := 0);
    }

    method RunTx(force: bool) returns (result: Result)
      modifies this
      ensures (Value(), result) == Transmit(old(Value()), force)
    {
      var avail := TxAvail(tx, 0);
      if avail == 0 && !force {
        return NO_RESULT;
      }
      var payloadLen: uint16 := Min(avail, TCP_MSS);
      var fin := tx.fin && tx.avail == 0;
      result := NO_RESULT.(transmit := Some(Header(tx.nextSeq, rx.nextSeq, rx.avail, tx.nextTs)),
      payload := Some(Dma(tx.nextPos, payloadLen, 0)));
      tx := tx.(nextSeq := Add(tx.nextSeq, payloadLen));
      tx := tx.(nextPos := Add(tx.nextPos, payloadLen));
      tx := tx.(sent := Add(tx.sent, payloadLen));
      tx := tx.(avail := Sub(tx.avail, payloadLen));
      if fin {
        result := result.(fin := true, payload := Some(result.payload.value.(len := (payloadLen - 1) % 0x1_0000)));
      }
    }

    method RunAc(rxBump: nat, txBump: nat, close: bool) returns (result: Result)
      requires rxBump < BUMP_LIMIT && txBump < BUMP_LIMIT
      modifies this
      ensures (Value(), result) == AppBump(old(Value()), rxBump, txBump, close)
    {
      var oldAvail := TxAvail(tx, 0);
      var newAvail := TxAvail(tx, txBump);
      if close {
        tx := tx.(fin := true);
      }
      var rxAvailPrev := rx.avail;
      rx := rx.(avail := Add(rx.avail, rxBump));
      tx := tx.(avail := Add(tx.avail, txBump));
      result := NO_RESULT;
      if oldAvail < newAvail {
        result := result.(qmBump := Some(newAvail - oldAvail));
      }
      if newAvail == 0 && rxAvailPrev == 0 && rx.avail != 0 {
        result := result.(qmForce := true);
      }
    }

    method RunRetx() returns (result: Result)
      modifies this
      ensures (Value(), result) == Retransmit(old(Value()))
    {
      var oldAvail := TxAvail(tx, 0);
      ResetForRetransmit();
      var newAvail := TxAvail(tx, 0);
      result := NO_RESULT;
      if oldAvail < newAvail {
        result := result.(qmBump := Some(newAvail - oldAvail));
      }
    }

    /** Apply the acknowledgement number of a packet without payload. */
    method CountAck(ackNo: uint32) returns (bump: uint32, reset: bool)
      modifies `tx
      ensures AckOutcome(tx, bump, reset) == CountedAck(old(tx), ackNo)
    {
      bump, reset := 0, false;
      var valid := AckBump(tx, ackNo);
      if valid.Some? {
        bump := valid.value;
        if bump != 0 {
          TakeAck(bump);
        } else {
          var cnt := tx.dupAcks + 1;
          tx := tx.(dupAcks := cnt % 0x1_0000);
          if cnt >= 3 {
            ResetForRetransmit();
            reset := true;
          }
        }
      }
    }

    /** The body of the acknowledgement handler up to its `finalize` label. */
    method ProcessAck(p: Packet) returns (bump: uint32, reset: bool, fin: bool, answer: bool, idle: bool)
      modifies this
      ensures var e := PureAck(old(Value()), p);
              && Value() == e.0
              && bump == e.1.txBump && reset == e.1.retx && fin == e.1.fin
              && answer == e.1.transmit.Some? && idle == e.1.txpZero
    {
      bump, reset, fin, answer, idle := 0, false, false, false, false;
      if !RxSeqInWindow(rx, p.seqNo) {
        answer := true;
        return;
      }
      bump, reset := CountAck(p.ackNo);
      idle := bump != 0 && tx.sent == 0;
      if reset {
        return;
      }
      if rx.nextSeq != p.seqNo {
        answer := true;
        return;
      }
      tx := tx.(remoteAvail := p.win);
      tx := tx.(nextTs := p.tsVal);
      if p.fin {
        if !rx.fin && rx.oooLen == 0 {
          rx := rx.(fin := true, nextSeq := Add(rx.nextSeq, 1));
          fin, answer := true, true;
        }
      }
    }

    method RunAck(p: Packet) returns (result: Result)
      modifies this
      ensures (Value(), result) == PureAck(old(Value()), p)
    {
      var oldAvail := TxAvail(tx, 0);
      var bump, reset, fin, answer, idle := ProcessAck(p);
      var newAvail := TxAvail(tx, 0);
      result := NO_RESULT.(txBump := bump, notifyApp := bump != 0 || fin, fin := fin, retx := reset,
      txpZero := idle, ecnBytes := p.ece, tsVal := p.tsEcr);
      if oldAvail < newAvail {
        result := result.(qmBump := Some(newAvail - oldAvail));
      }
      if answer {
        result := result.(transmit := Some(SnapshotHeader(Value())), tsVal := 0, ecnEcho := p.ecn);
      }
    }

    /** Add a trimmed out-of-order segment to the stored interval, if it fits there. */
    method StoreSegment(seqNo: uint32, bytes: uint16, offset: uint16) returns (payload: Option<Dma>)
      modifies `rx
      ensures var o := StoreOutOfOrder(old(rx), seqNo, bytes, offset);
              rx == o.rx && payload == o.payload
    {
      payload := None;
      if bytes == 0 {
        return;
      }
      var pos := Add(rx.nextPos, Sub(seqNo, rx.nextSeq));
      if rx.oooLen == 0 {
        rx := rx.(oooLen := bytes);
        rx := rx.(oooStart := seqNo);
        payload := Some(Dma(pos, bytes, offset));
      } else if Add(seqNo, bytes) == rx.oooStart {
        rx := rx.(oooLen := Add(rx.oooLen, bytes));
        rx := rx.(oooStart := seqNo);
        payload := Some(Dma(pos, bytes, offset));
      } else if Add(rx.oooStart, rx.oooLen) == seqNo {
        rx := rx.(oooLen := Add(rx.oooLen, bytes));
        payload := Some(Dma(pos, bytes, offset));
      }
    }

    /** Re-examine the stored interval after the window advanced. */
    method MergeStored() returns (extra: uint32)
      modifies `rx
      ensures (rx, extra) == CatchUp(old(rx))
    {
      extra := 0;
      if rx.oooLen != 0 {
        var trim := TrimRxBuf(rx, rx.oooStart, rx.oooLen);
        if trim.None? {
          rx := rx.(oooLen := 0);
        } else {
          rx := rx.(oooStart := Add(rx.oooStart, trim.value.start));
          rx := rx.(oooLen := rx.oooLen - trim.value.start);
          rx := rx.(oooLen := rx.oooLen - trim.value.end);
          if rx.oooLen > 0 && rx.oooStart == rx.nextSeq {
            extra := rx.oooLen;
            rx := rx.(avail := Sub(rx.avail, rx.oooLen));
            rx := rx.(nextSeq := Add(rx.nextSeq, rx.oooLen));
            rx := rx.(nextPos := Add(rx.nextPos, rx.oooLen));
            rx := rx.(oooLen := 0);
          }
        }
      }
    }

    /** Hand `bytes` in-order bytes to the application. */
    method DeliverPayload(bytes: uint16, offset: uint16) returns (payload: Option<Dma>, bump: uint32)
      requires bytes != 0
      modifies `rx
      ensures var o := DeliverInOrder(old(rx), bytes, offset);
              rx == o.rx && payload == o.payload && bump == o.bump
    {
      payload := Some(Dma(rx.nextPos, bytes, offset));
      rx := rx.(avail := Sub(rx.avail, bytes));
      rx := rx.(nextSeq := Add(rx.nextSeq, bytes));
      rx := rx.(nextPos := Add(rx.nextPos, bytes));
      var extra := MergeStored();
      bump := Add(bytes, extra);
    }

    /** The part of the segment handler that follows the trimming of the payload. */
    method PlacePayload(p: Packet, plen: nat, trim: Trimmed)
      returns (payload: Option<Dma>, bump: uint32, delivered: bool, fin: bool)
      requires trim.start + trim.end <= plen < PLEN_LIMIT
      modifies this
      ensures var o := PlaceSegment(old(rx), p.seqNo, plen, p.fin, trim);
              && rx == o.rx && payload == o.payload && bump == o.bump && fin == o.fin
              && delivered == (o.inOrder && o.payload.Some?)
              && tx == if o.inOrder then UpdateWindow(old(tx), p) else old(tx)
    {
      hide StoreOutOfOrder, DeliverInOrder;
      payload, bump, delivered, fin := None, 0, false, false;
      var bytes := plen - (trim.start + trim.end);
      var seqNo := Add(p.seqNo, trim.start);
      if seqNo != rx.nextSeq {
        payload := StoreSegment(seqNo, bytes, trim.start);
        return;
      }
      tx := tx.(nextTs := p.tsVal);
      tx := tx.(remoteAvail := p.win);
      if rx.fin && bytes != 0 {
        return;
      }
      if bytes != 0 {
        payload, bump := DeliverPayload(bytes, trim.start);
        delivered := true;
      }
      if p.fin && !rx.fin {
        if rx.nextSeq == Add(p.seqNo, plen) && rx.oooLen == 0 {
          fin := true;
          rx := rx.(fin := true, nextSeq := Add(rx.nextSeq, 1));
        }
      }
    }

    /** The body of the segment handler up to its `finalize` label. */
    method ProcessSeg(plen: nat, p: Packet)
      returns (payload: Option<Dma>, rxBump: uint32, delivered: bool, fin: bool, txBump: uint32, idle: bool)
      requires plen < PLEN_LIMIT
      modifies this
      ensures var o := RxSegment(old(rx), p.seqNo, plen, p.fin);
              var a := if o.accepted then SegmentAck(old(tx), p.ackNo) else AckOutcome(old(tx), 0, false);
              && rx == o.rx && payload == o.payload && rxBump == o.bump && fin == o.fin
              && delivered == (o.inOrder && o.payload.Some?)
              && tx == (if o.inOrder then UpdateWindow(a.tx, p) else a.tx)
              && txBump == a.bump && idle == (a.bump != 0 && a.tx.sent == 0)
    {
      payload, rxBump, delivered, fin, txBump, idle := None, 0, false, false, 0, false;
      var trim := TrimRxBuf(rx, p.seqNo, plen);
      if trim.None? {
        return;
      }
      var valid := AckBump(tx, p.ackNo);
      if valid.Some? && valid.value != 0 {
        txBump := valid.value;
        TakeAck(txBump);
        idle := tx.sent == 0;
      }
      payload, rxBump, delivered, fin := PlacePayload(p, plen, trim.value);
    }

    method RunSeg(plen: nat, p: Packet) returns (result: Result)
      requires plen < PLEN_LIMIT
      modifies this
      ensures (Value(), result) == Segment(old(Value()), plen, p)
    {
      var oldAvail := TxAvail(tx, 0);
      var payload, rxBump, delivered, fin, txBump, idle := ProcessSeg(plen, p);
      var newAvail := TxAvail(tx, 0);
      var qmBump := None;
      if oldAvail < newAvail {
        qmBump := Some(newAvail - oldAvail);
      }
      result := Result(Some(SnapshotHeader(Value())), payload, qmBump, false, rxBump, txBump,
                       txBump != 0 || delivered || fin, fin, false, idle, p.ece, p.ecn, p.tsEcr);
    }

    /** The dispatch of the processing stage. */
    method Run(w: Work) returns (result: Result)
      requires ValidWork(w)
      modifies this
      ensures (Value(), result) == Handle(old(Value()), w)
    {
      match w
      case RxWork(plen, pkt) =>
        if plen == 0 {
          result := RunAck(pkt);
        } else {
          result := RunSeg(plen, pkt);
        }
      case TxWork(force) =>
        result := RunTx(force);
      case AcWork(rxBump, txBump, close) =>
        result := RunAc(rxBump, txBump, close);
      case RetxWork =>
        result := RunRetx();
    }
  }
}
