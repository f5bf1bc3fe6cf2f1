/** The per-flow TCP record and, as functions of its value, the five handlers that the
    data path runs on it.  The record's two directions only meet in one place: whether a
    packet was accepted and whether it was in order decides what its acknowledgement and
    window do to the sending half.  The functions are written that way. */
module Flows {
  import opened Words

  const TCP_MSS: uint16 := 1448
  const PLEN_LIMIT := 2048      // payload lengths are 11 bits wide
  const BUMP_LIMIT := 0x2000_0000  // application bumps are 29 bits wide

  /** The sending half of the record. */
  datatype TxState = TxState(
    len: uint32, avail: uint32, remoteAvail: uint32, sent: uint32,
    nextSeq: uint32, nextPos: uint32, nextTs: uint32, fin: bool, dupAcks: uint16)

  /** The receiving half of the record. */
  datatype RxState = RxState(
    len: uint32, avail: uint32, nextSeq: uint32, nextPos: uint32,
    oooLen: uint32, oooStart: uint32, fin: bool)

  datatype FlowTcp = FlowTcp(tx: TxState, rx: RxState)

  /** The condensed protocol header of a received packet. */
  datatype Packet = Packet(
    seqNo: uint32, ackNo: uint32, win: uint16, tsVal: uint32, tsEcr: uint32,
    fin: bool, ece: bool, ecn: bool)

  datatype Work =
    | RxWork(plen: nat, pkt: Packet)
    | TxWork(force: bool)
    | AcWork(rxBump: nat, txBump: nat, close: bool)
    | RetxWork

  predicate ValidWork(w: Work) {
    match w
    case RxWork(plen, _) => plen < PLEN_LIMIT
    case AcWork(rxBump, txBump, _) => rxBump < BUMP_LIMIT && txBump < BUMP_LIMIT
    case _ => true
  }

  /** Protocol snapshot put in an outgoing header. */
  datatype Header = Header(seqNo: uint32, ackNo: uint32, win: uint32, tsEcr: uint32)

  /** Payload transfer between a packet buffer (from byte `offset`) and the host's circular
      buffer (from the free-running position `pos`). */
  datatype Dma = Dma(pos: uint32, len: uint16, offset: uint16)

  /** What a handler reports.  A register that is read only under a flag is an option here. */
  datatype Result = Result(
    transmit: Option<Header>, payload: Option<Dma>, qmBump: Option<uint32>, qmForce: bool,
    rxBump: uint32, txBump: uint32, notifyApp: bool, fin: bool, retx: bool,
    txpZero: bool, ecnBytes: bool, ecnEcho: bool, tsVal: uint32)

  const NO_RESULT := Result(None, None, None, false, 0, 0, false, false, false, false, false, false, 0)

  // ------------------------------------------------------------------ sending half

  /** Bytes that may be sent once `bump` more are in the buffer; both operations wrap. */
  function TxAvail(t: TxState, bump: uint32): uint32 {
    Min(Add(bump, t.avail), Sub(t.remoteAvail, t.sent))
  }

  /** How far an acknowledgement number moves the sender, if it is acceptable. */
  function AckBump(t: TxState, ack: uint32): Option<uint32> {
    var hole := Sub(ack, Sub(t.nextSeq, t.sent));
    if hole > Add(t.sent, t.avail) then None else Some(hole)
  }

  /** Take `bump` newly acknowledged bytes out of the buffer.  An acknowledgement of bytes
      that a reset put back into `avail` moves the send position forward. */
  function Acknowledge(t: TxState, bump: uint32): TxState {
    var t' := t.(dupAcks := 0);
    if bump < t.sent then
      t'.(sent := t.sent - bump)
    else
      t'.(nextSeq := Sub(Add(t.nextSeq, bump), t.sent),
          nextPos := Sub(Add(t.nextPos, bump), t.sent),
          avail := Add(Sub(t.avail, bump), t.sent),
          sent := 0)
  }

  /** Forget that the unacknowledged bytes were sent. */
  function ResetRetransmit(t: TxState): TxState {
    t.(dupAcks := 0, avail := Add(t.avail, t.sent), remoteAvail := Add(t.remoteAvail, t.sent),
       nextSeq := Sub(t.nextSeq, t.sent), nextPos := Sub(t.nextPos, t.sent), sent := 0)
  }

  datatype AckOutcome = AckOutcome(tx: TxState, bump: uint32, reset: bool)

  /** The acknowledgement carried by a data segment. */
  function SegmentAck(t: TxState, ack: uint32): AckOutcome {
    match AckBump(t, ack)
    case Some(bump) => if bump == 0 then AckOutcome(t, 0, false) else AckOutcome(Acknowledge(t, bump), bump, false)
    case None => AckOutcome(t, 0, false)
  }

  /** The acknowledgement of a packet without payload: the third duplicate resets the sender. */
  function CountedAck(t: TxState, ack: uint32): AckOutcome {
    match AckBump(t, ack)
    case Some(bump) =>
      if bump != 0 then AckOutcome(Acknowledge(t, bump), bump, false)
      else if t.dupAcks + 1 >= 3 then AckOutcome(ResetRetransmit(t), 0, true)
      else AckOutcome(t.(dupAcks := t.dupAcks + 1), 0, false)
    case None => AckOutcome(t, 0, false)
  }

  function UpdateWindow(t: TxState, p: Packet): TxState {
    t.(remoteAvail := p.win, nextTs := p.tsVal)
  }

  // ---------------------------------------------------------------- receiving half

  datatype Trimmed = Trimmed(start: uint32, end: uint32)

  /** Which part of the segment `[seqNo, seqNo + bytes)` fits the unused receive window:
      how much to cut off at either end, or None to drop the segment. */
  function TrimRxBuf(r: RxState, seqNo: uint32, bytes: uint32): (t: Option<Trimmed>)
    ensures t.Some? ==> t.value.start + t.value.end <= bytes
  {
    var behind := Sub(r.nextSeq, seqNo);
    if behind <= bytes then
      var rest := bytes - behind;
      Some(Trimmed(behind, if rest <= r.avail then 0 else rest - r.avail))
    else
      var ahead := Sub(0, behind);
      if ahead >= r.avail then None
      else
        var room := r.avail - ahead;
        Some(Trimmed(0, if room >= bytes then 0 else bytes - room))
  }

  predicate RxSeqInWindow(r: RxState, seqNo: uint32) {
    Sub(seqNo, r.nextSeq) <= r.avail
  }

  /** `bump` bytes of the stream became contiguous. */
  function Deliver(r: RxState, bump: uint32): RxState {
    r.(avail := Sub(r.avail, bump), nextSeq := Add(r.nextSeq, bump), nextPos := Add(r.nextPos, bump))
  }

  /** Fit the stored out-of-order interval to the advanced window, and deliver it if it now
      touches the delivered stream. */
  function CatchUp(r: RxState): (RxState, uint32) {
    if r.oooLen == 0 then (r, 0)
    else
      match TrimRxBuf(r, r.oooStart, r.oooLen)
      case None => (r.(oooLen := 0), 0)
      case Some(t) =>
        var r' := r.(oooStart := Add(r.oooStart, t.start), oooLen := r.oooLen - t.start - t.end);
        if r'.oooLen > 0 && r'.oooStart == r'.nextSeq
        then (Deliver(r', r'.oooLen).(oooLen := 0), r'.oooLen)
        else (r', 0)
  }

  datatype RxOutcome = RxOutcome(
    rx: RxState, accepted: bool, inOrder: bool, payload: Option<Dma>, bump: uint32, fin: bool)

  /** Keep an out-of-order segment if it starts a new interval or extends the stored one. */
  function StoreOutOfOrder(r: RxState, seqNo: uint32, bytes: uint16, offset: uint16): (o: RxOutcome)
    ensures o.accepted && !o.inOrder && o.bump == 0 && !o.fin && o.rx.fin == r.fin
  {
    var payload := Some(Dma(Add(r.nextPos, Sub(seqNo, r.nextSeq)), bytes, offset));
    var keep := RxOutcome(r, true, false, payload, 0, false);
    if bytes == 0 then
      keep.(payload := None)
    else if r.oooLen == 0 then
      keep.(rx := r.(oooLen := bytes, oooStart := seqNo))
    else if Add(seqNo, bytes) == r.oooStart then
      keep.(rx := r.(oooLen := Add(r.oooLen, bytes), oooStart := seqNo))
    else if Add(r.oooStart, r.oooLen) == seqNo then
      keep.(rx := r.(oooLen := Add(r.oooLen, bytes)))
    else
      keep.(payload := None)
  }

  /** Deliver an in-order segment that has been trimmed to `bytes` bytes. */
  function DeliverInOrder(r: RxState, bytes: uint16, offset: uint16): (o: RxOutcome)
    ensures o.accepted && o.inOrder && !o.fin && o.rx.fin == r.fin
    ensures if bytes == 0 then o.rx == r && o.payload == None && o.bump == 0 else o.payload.Some?
  {
    if bytes == 0 then
      RxOutcome(r, true, true, None, 0, false)
    else
      var (r', extra) := CatchUp(Deliver(r, bytes));
      RxOutcome(r', true, true, Some(Dma(r.nextPos, bytes, offset)), Add(bytes, extra), false)
  }

  function AcceptFin(r: RxState): RxState {
    r.(fin := true, nextSeq := Add(r.nextSeq, 1))
  }

  /** Put a trimmed segment where it belongs; a FIN counts once everything before it arrived. */
  function PlaceSegment(r: RxState, seqNo: uint32, plen: nat, fin: bool, t: Trimmed): RxOutcome
    requires t.start + t.end <= plen < PLEN_LIMIT
  {
    var bytes := plen - (t.start + t.end);
    if Add(seqNo, t.start) != r.nextSeq then
      StoreOutOfOrder(r, Add(seqNo, t.start), bytes, t.start)
    else if r.fin && bytes != 0 then
      RxOutcome(r, true, true, None, 0, false)
    else
      var o := DeliverInOrder(r, bytes, t.start);
      if fin && !r.fin && o.rx.nextSeq == Add(seqNo, plen) && o.rx.oooLen == 0
      then o.(rx := AcceptFin(o.rx), fin := true)
      else o
  }

  /** A data segment as seen by the receiving half. */
  function RxSegment(r: RxState, seqNo: uint32, plen: nat, fin: bool): RxOutcome
    requires plen < PLEN_LIMIT
  {
    match TrimRxBuf(r, seqNo, plen)
    case None => RxOutcome(r, false, false, None, 0, false)
    case Some(t) => PlaceSegment(r, seqNo, plen, fin, t)
  }

  // ------------------------------------------------------------------- the handlers

  function SnapshotHeader(f: FlowTcp): Header {
    Header(f.tx.nextSeq, f.rx.nextSeq, f.rx.avail, f.tx.nextTs)
  }

  /** The growth of the sendable amount that the queue manager must learn of. */
  function QmGrowth(before: uint32, after: uint32): Option<uint32> {
    if before < after then Some(after - before) else None
  }

  function Segment(f: FlowTcp, plen: nat, p: Packet): (FlowTcp, Result)
    requires plen < PLEN_LIMIT
  {
    var o := RxSegment(f.rx, p.seqNo, plen, p.fin);
    var a := if o.accepted then SegmentAck(f.tx, p.ackNo) else AckOutcome(f.tx, 0, false);
    var f' := FlowTcp(if o.inOrder then UpdateWindow(a.tx, p) else a.tx, o.rx);
    (f', NO_RESULT.(
      transmit := Some(SnapshotHeader(f')),
      payload := o.payload,
      qmBump := QmGrowth(TxAvail(f.tx, 0), TxAvail(f'.tx, 0)),
      rxBump := o.bump, txBump := a.bump,
      notifyApp := a.bump != 0 || (o.inOrder && o.payload.Some?) || o.fin,
      fin := o.fin,
      txpZero := a.bump != 0 && a.tx.sent == 0,
      ecnBytes := p.ece, ecnEcho := p.ecn, tsVal := p.tsEcr))
  }

  function PureAck(f: FlowTcp, p: Packet): (FlowTcp, Result) {
    var inWindow := RxSeqInWindow(f.rx, p.seqNo);
    var a := if inWindow then CountedAck(f.tx, p.ackNo) else AckOutcome(f.tx, 0, false);
    var inOrder := inWindow && !a.reset && f.rx.nextSeq == p.seqNo;
    var finSeen := inOrder && p.fin && !f.rx.fin && f.rx.oooLen == 0;
    var f' := FlowTcp(if inOrder then UpdateWindow(a.tx, p) else a.tx,
                      if finSeen then AcceptFin(f.rx) else f.rx);
    var answer := finSeen || (!inOrder && !a.reset);
    (f', NO_RESULT.(
      transmit := if answer then Some(SnapshotHeader(f')) else None,
      qmBump := QmGrowth(TxAvail(f.tx, 0), TxAvail(f'.tx, 0)),
      txBump := a.bump,
      notifyApp := a.bump != 0 || finSeen,
      fin := finSeen, retx := a.reset,
      txpZero := a.bump != 0 && a.tx.sent == 0,
      ecnBytes := p.ece, ecnEcho := answer && p.ecn,
      tsVal := if answer then 0 else p.tsEcr))
  }

  /** Take `n` bytes from the available to the sent part of the buffer. */
  function Send(t: TxState, n: uint32): TxState {
    t.(nextSeq := Add(t.nextSeq, n), nextPos := Add(t.nextPos, n), sent := Add(t.sent, n), avail := Sub(t.avail, n))
  }

  function Transmit(f: FlowTcp, force: bool): (FlowTcp, Result) {
    var avail := TxAvail(f.tx, 0);
    if avail == 0 && !force then (f, NO_RESULT)
    else
      var n := Min(avail, TCP_MSS);
      var fin := f.tx.fin && f.tx.avail == 0;
      (f.(tx := Send(f.tx, n)),
       NO_RESULT.(
         transmit := Some(SnapshotHeader(f)),
         // the length field keeps the low 16 bits of `n - 1` when a FIN goes out
         payload := Some(Dma(f.tx.nextPos, if fin then (n - 1) % 0x1_0000 else n, 0)),
         fin := fin))
  }

  function AppBump(f: FlowTcp, rxBump: nat, txBump: nat, close: bool): (FlowTcp, Result)
    requires rxBump < BUMP_LIMIT && txBump < BUMP_LIMIT
  {
    var f' := FlowTcp(
                f.tx.(avail := Add(f.tx.avail, txBump), fin := f.tx.fin || close),
                f.rx.(avail := Add(f.rx.avail, rxBump)));
    (f', NO_RESULT.(
      qmBump := QmGrowth(TxAvail(f.tx, 0), TxAvail(f'.tx, 0)),
      qmForce := TxAvail(f'.tx, 0) == 0 && f.rx.avail == 0 && f'.rx.avail != 0))
  }

  function Retransmit(f: FlowTcp): (FlowTcp, Result) {
    var f' := f.(tx := ResetRetransmit(f.tx));
    (f', NO_RESULT.(qmBump := QmGrowth(TxAvail(f.tx, 0), TxAvail(f'.tx, 0))))
  }

  /** What the processing stage does with one item of work on a flow. */
  function Handle(f: FlowTcp, w: Work): (FlowTcp, Result)
    requires ValidWork(w)
  {
    match w
    case RxWork(plen, pkt) => if plen == 0 then PureAck(f, pkt) else Segment(f, plen, pkt)
    case TxWork(force) => Transmit(f, force)
    case AcWork(rxBump, txBump, close) => AppBump(f, rxBump, txBump, close)
    case RetxWork => Retransmit(f)
  }
}
