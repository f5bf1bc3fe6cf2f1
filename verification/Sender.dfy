/** The sending half against the stream it sends.  A `Sender` holds unbounded stream offsets;
    `Represents` ties it to the 32-bit record. */
module Sending {
  import opened Words
  import opened Flows

  /** `acked` bytes are acknowledged, bytes below `sent` have been put on the wire since the
      last reset, `total` bytes have been handed over by the application; `iss` is the
      sequence number of stream offset 0. */
  datatype Sender = Sender(len: nat, iss: int, acked: nat, sent: nat, total: nat) {
    predicate Ok() {
      && len < MOD
      && acked <= sent <= total <= acked + len
    }
  }

  ghost predicate Represents(t: TxState, s: Sender) {
    && t.len == s.len
    && t.avail == s.total - s.sent
    && t.sent == s.sent - s.acked
    && t.nextSeq == Wrap(s.iss + s.sent)
    && t.nextPos == Wrap(s.sent)
  }

  /** The sequence number of a stream offset. */
  function SeqOf(s: Sender, offset: int): uint32 {
    Wrap(s.iss + offset)
  }

  /** `n` more bytes are acknowledged; bytes acknowledged ahead of `sent` need not be sent. */
  function AckedMore(s: Sender, n: nat): Sender {
    s.(acked := s.acked + n, sent := Max(s.sent, s.acked + n))
  }

  function Rewound(s: Sender): Sender {
    s.(sent := s.acked)
  }

  /** An acknowledgement number is accepted exactly if it names a point between the
      acknowledged bytes and the end of what the application handed over. */
  lemma AckBumpExact(t: TxState, s: Sender, ackNo: uint32)
    requires s.Ok() && Represents(t, s)
    ensures match AckBump(t, ackNo)
            case Some(n) => n <= s.total - s.acked && ackNo == SeqOf(s, s.acked + n)
            case None => forall x :: s.acked <= x <= s.total ==> ackNo != SeqOf(s, x)
  {
    WrapMinus(s.iss + s.sent, s.sent - s.acked);
    var hole := Sub(ackNo, Wrap(s.iss + s.acked));
    WrapAdd(s.iss + s.acked, hole);
    if AckBump(t, ackNo).None? {
      forall x | s.acked <= x <= s.total
        ensures ackNo != SeqOf(s, x)
      {
        WrapInjective(s.iss + x, s.iss + s.acked + hole);
      }
    }
  }

  lemma AcknowledgeRefines(t: TxState, s: Sender, n: nat)
    requires s.Ok() && Represents(t, s) && n <= s.total - s.acked
    ensures AckedMore(s, n).Ok() && Represents(Acknowledge(t, n), AckedMore(s, n))
  {
    hide Wrap;
    if t.sent <= n {
      WrapAdd(s.iss + s.sent, n);
      WrapMinus(s.iss + s.sent + n, t.sent);
      WrapAdd(s.sent, n);
      WrapMinus(s.sent + n, t.sent);
    }
  }

  lemma ResetRefines(t: TxState, s: Sender)
    requires s.Ok() && Represents(t, s)
    ensures Rewound(s).Ok() && Represents(ResetRetransmit(t), Rewound(s))
  {
    hide Wrap;
    WrapMinus(s.iss + s.sent, t.sent);
    WrapMinus(s.sent, t.sent);
  }

  lemma SendRefines(t: TxState, s: Sender, n: nat)
    requires s.Ok() && Represents(t, s) && n <= s.total - s.sent
    ensures s.(sent := s.sent + n).Ok() && Represents(Send(t, n), s.(sent := s.sent + n))
  {
    hide Wrap;
    WrapAdd(s.iss + s.sent, n);
    WrapAdd(s.sent, n);
  }

  /** What either kind of acknowledgement does to the sender. */
  function AfterAck(s: Sender, o: AckOutcome): Sender {
    if o.reset then Rewound(s) else AckedMore(s, o.bump)
  }

  lemma CountedAckRefines(t: TxState, s: Sender, ackNo: uint32)
    requires s.Ok() && Represents(t, s)
    ensures var o := CountedAck(t, ackNo);
            && (o.reset ==> o.bump == 0) && o.bump <= s.total - s.acked
            && AfterAck(s, o).Ok() && Represents(o.tx, AfterAck(s, o))
  {
    hide Wrap;
    AckBumpExact(t, s, ackNo);
    var b := AckBump(t, ackNo);
    if b.Some? && b.value != 0 {
      AcknowledgeRefines(t, s, b.value);
    }
    ResetRefines(t, s);
  }

  lemma SegmentAckRefines(t: TxState, s: Sender, ackNo: uint32)
    requires s.Ok() && Represents(t, s)
    ensures var o := SegmentAck(t, ackNo);
            && !o.reset && o.bump <= s.total - s.acked
            && AfterAck(s, o).Ok() && Represents(o.tx, AfterAck(s, o))
  {
    hide Wrap;
    AckBumpExact(t, s, ackNo);
    var b := AckBump(t, ackNo);
    if b.Some? && b.value != 0 {
      AcknowledgeRefines(t, s, b.value);
    }
  }

  // ---------------------------------------------------------------------- flow control

  /** The peer's window covers what is in flight, so the subtraction in `TxAvail` is exact. */
  predicate Covered(t: TxState) {
    t.sent <= t.remoteAvail
  }

  /** The window update a packet carries keeps `Covered` exactly if the window covers the
      bytes still unacknowledged; every other action keeps it unconditionally. */
  predicate WindowCovers(f: FlowTcp, w: Work)
    requires ValidWork(w)
  {
    match w
    case RxWork(plen, p) =>
      if plen == 0 then
        var a := CountedAck(f.tx, p.ackNo);
        RxSeqInWindow(f.rx, p.seqNo) && !a.reset && f.rx.nextSeq == p.seqNo ==> a.tx.sent <= p.win
      else
        RxSegment(f.rx, p.seqNo, plen, p.fin).inOrder ==> SegmentAck(f.tx, p.ackNo).tx.sent <= p.win
    case _ => true
  }

  lemma AckKeepsCovered(t: TxState, ackNo: uint32)
    requires Covered(t)
    ensures Covered(SegmentAck(t, ackNo).tx) && Covered(CountedAck(t, ackNo).tx)
  {
  }

  lemma TransmitKeepsCovered(f: FlowTcp, force: bool)
    requires Covered(f.tx)
    ensures Covered(Transmit(f, force).0.tx)
  {
  }

  /** For every handler and every input: what is in flight stays covered by the window if
      and only if the packet's window covers what its acknowledgement leaves in flight. */
  lemma CoveredPreservedIff(f: FlowTcp, w: Work)
    requires ValidWork(w) && Covered(f.tx)
    ensures Covered(Handle(f, w).0.tx) <==> WindowCovers(f, w)
  {
    hide RxSegment, SegmentAck, CountedAck;
    match w
    case RxWork(plen, p) =>
      AckKeepsCovered(f.tx, p.ackNo);
      if plen != 0 {
        AcceptedIfInOrder(f.rx, p.seqNo, plen, p.fin);
      }
    case TxWork(force) =>
      TransmitKeepsCovered(f, force);
    case AcWork(_, _, _) =>
    case RetxWork =>
  }

  lemma AcceptedIfInOrder(r: RxState, seqNo: uint32, plen: nat, fin: bool)
    requires plen < PLEN_LIMIT
    ensures RxSegment(r, seqNo, plen, fin).inOrder ==> RxSegment(r, seqNo, plen, fin).accepted
  {
    hide CatchUp, TrimRxBuf;
  }

  function HandleAll(f: FlowTcp, ws: seq<Work>): FlowTcp
    requires forall w :: w in ws ==> ValidWork(w)
    decreases |ws|
  {
    if ws == [] then f else HandleAll(Handle(f, ws[0]).0, ws[1..])
  }

  /** Every window update of the run covers what its acknowledgement leaves in flight. */
  ghost predicate WindowsCover(f: FlowTcp, ws: seq<Work>)
    requires forall w :: w in ws ==> ValidWork(w)
    decreases |ws|
  {
    ws != [] ==> WindowCovers(f, ws[0]) && WindowsCover(Handle(f, ws[0]).0, ws[1..])
  }

  /** The record is covered in every state of the run. */
  ghost predicate AlwaysCovered(f: FlowTcp, ws: seq<Work>)
    requires forall w :: w in ws ==> ValidWork(w)
  {
    forall n :: 0 <= n <= |ws| ==> Covered(HandleAll(f, ws[..n]).tx)
  }

  lemma HandleAllStep(f: FlowTcp, ws: seq<Work>, n: nat)
    requires n < |ws| && forall w :: w in ws ==> ValidWork(w)
    ensures HandleAll(f, ws[..n + 1]) == HandleAll(Handle(f, ws[0]).0, ws[1..][..n])
  {
    assert ws[..n + 1][0] == ws[0] && ws[..n + 1][1..] == ws[1..][..n];
  }

  lemma AlwaysCoveredStep(f: FlowTcp, ws: seq<Work>)
    requires ws != [] && Covered(f.tx) && forall w :: w in ws ==> ValidWork(w)
    ensures AlwaysCovered(f, ws) <==> AlwaysCovered(Handle(f, ws[0]).0, ws[1..])
  {
    hide Handle, Covered;
    var f' := Handle(f, ws[0]).0;
    forall n | 0 <= n <= |ws| && AlwaysCovered(f', ws[1..])
      ensures Covered(HandleAll(f, ws[..n]).tx)
    {
      if n > 0 {
        HandleAllStep(f, ws, n - 1);
      }
    }
    forall n | 0 <= n <= |ws[1..]| && AlwaysCovered(f, ws)
      ensures Covered(HandleAll(f', ws[1..][..n]).tx)
    {
      HandleAllStep(f, ws, n);
      assert Covered(HandleAll(f, ws[..n + 1]).tx);
    }
  }

  /** In every state of every run the subtraction of the flow-control window is exact, if and
      only if every window update of the run covers what is left in flight. */
  lemma {:induction false} RunCoveredIff(f: FlowTcp, ws: seq<Work>)
    requires Covered(f.tx) && forall w :: w in ws ==> ValidWork(w)
    ensures WindowsCover(f, ws) <==> AlwaysCovered(f, ws)
    decreases |ws|
  {
    hide Handle, WindowCovers, Covered;
    if ws != [] {
      var f' := Handle(f, ws[0]).0;
      CoveredPreservedIff(f, ws[0]);
      AlwaysCoveredStep(f, ws);
      if Covered(f'.tx) {
        RunCoveredIff(f', ws[1..]);
      } else {
        assert !Covered(HandleAll(f', ws[1..][..0]).tx);
      }
    }
  }

  // ---------------------------------------------------------------- fast retransmission

  /** A packet without payload whose acknowledgement is valid and says nothing new. */
  predicate IsDuplicate(f: FlowTcp, w: Work) {
    w.RxWork? && w.plen == 0 && RxSeqInWindow(f.rx, w.pkt.seqNo) && AckBump(f.tx, w.pkt.ackNo) == Some(0)
  }

  /** Progress of the acknowledgements, or a timer, starts the count afresh. */
  predicate ClearsDuplicates(f: FlowTcp, w: Work)
    requires ValidWork(w)
  {
    w.RetxWork? || Handle(f, w).1.txBump != 0
  }

  /** Duplicates received since the last progress or timer, over the whole run so far. */
  ghost function Duplicates(f: FlowTcp, ws: seq<Work>): nat
    requires forall w :: w in ws ==> ValidWork(w)
    decreases |ws|
  {
    if ws == [] then 0
    else
      var before, w := ws[..|ws| - 1], ws[|ws| - 1];
      var g := HandleAll(f, before);
      if IsDuplicate(g, w) then Duplicates(f, before) + 1
      else if ClearsDuplicates(g, w) then 0
      else Duplicates(f, before)
  }

  lemma {:induction false} HandleAllLast(f: FlowTcp, ws: seq<Work>)
    requires ws != [] && forall w :: w in ws ==> ValidWork(w)
    ensures HandleAll(f, ws) == Handle(HandleAll(f, ws[..|ws| - 1]), ws[|ws| - 1]).0
    decreases |ws|
  {
    hide Handle;
    if |ws| > 1 {
      HandleAllLast(Handle(f, ws[0]).0, ws[1..]);
      assert ws[1..][..|ws| - 2] == ws[..|ws| - 1][1..];
    }
  }

  /** How one item of work moves the duplicate counter, and when it resets the sender. */
  lemma DuplicateStep(f: FlowTcp, w: Work)
    requires ValidWork(w) && f.tx.dupAcks < 3
    ensures var (f', r) := Handle(f, w);
            && f'.tx.dupAcks == (if IsDuplicate(f, w) then (f.tx.dupAcks + 1) % 3
                                 else if ClearsDuplicates(f, w) then 0 else f.tx.dupAcks)
            && (r.retx <==> IsDuplicate(f, w) && f.tx.dupAcks == 2)
            && (r.retx ==> f'.tx == ResetRetransmit(f.tx))
  {
    hide RxSegment, QmGrowth, TxAvail, RxSeqInWindow, AckBump;
    match w
    case RxWork(_, _) =>
    case TxWork(_) =>
    case AcWork(_, _, _) =>
    case RetxWork =>
  }

  /** Over every run, the sender is reset by exactly every third duplicate since the last
      progress: segments, transmissions and application bumps in between do not count. */
  lemma {:induction false} EveryThirdDuplicate(f: FlowTcp, ws: seq<Work>)
    requires f.tx.dupAcks == 0 && forall w :: w in ws ==> ValidWork(w)
    ensures HandleAll(f, ws).tx.dupAcks == Duplicates(f, ws) % 3
    ensures ws != [] ==>
              var g, w := HandleAll(f, ws[..|ws| - 1]), ws[|ws| - 1];
              Handle(g, w).1.retx <==> IsDuplicate(g, w) && Duplicates(f, ws) % 3 == 0
    decreases |ws|
  {
    hide Handle, IsDuplicate, ClearsDuplicates;
    if ws != [] {
      var before, w := ws[..|ws| - 1], ws[|ws| - 1];
      EveryThirdDuplicate(f, before);
      HandleAllLast(f, ws);
      DuplicateStep(HandleAll(f, before), w);
    }
  }

  // ------------------------------------------------- what a reset and a header depend on

  /** A reset makes all unacknowledged bytes sendable again, as far as the window last heard of
      reaches beyond what was in flight. */
  lemma ResetSendable(t: TxState, s: Sender)
    requires s.Ok() && Represents(t, s) && t.remoteAvail + t.sent < MOD
    ensures TxAvail(ResetRetransmit(t), 0) == Min(s.total - s.acked, t.remoteAvail + (s.sent - s.acked))
    ensures s.sent - s.acked <= TxAvail(ResetRetransmit(t), 0)
  {
    hide Wrap;
  }

  /** A reset lets the sender pass the peer's window if and only if something was in flight and
      more than the window is unacknowledged. */
  lemma ResetOverrunsIff(t: TxState, s: Sender)
    requires s.Ok() && Represents(t, s) && t.remoteAvail + t.sent < MOD
    ensures TxAvail(ResetRetransmit(t), 0) > t.remoteAvail <==> s.acked < s.sent && t.remoteAvail < s.total - s.acked
  {
    hide Wrap;
    ResetSendable(t, s);
  }

  /** Whether a packet is taken for the next in order, so that its window and time stamp count. */
  predicate InOrderPacket(f: FlowTcp, w: Work)
    requires ValidWork(w)
  {
    w.RxWork? &&
    if w.plen == 0
    then f.rx.nextSeq == w.pkt.seqNo && !CountedAck(f.tx, w.pkt.ackNo).reset
    else RxSegment(f.rx, w.pkt.seqNo, w.plen, w.pkt.fin).inOrder
  }

  /** The time stamp of the last packet in order, over the whole run. */
  ghost function LastStamp(f: FlowTcp, ws: seq<Work>): uint32
    requires forall w :: w in ws ==> ValidWork(w)
    decreases |ws|
  {
    if ws == [] then f.tx.nextTs
    else
      var before, w := ws[..|ws| - 1], ws[|ws| - 1];
      if InOrderPacket(HandleAll(f, before), w) then w.pkt.tsVal else LastStamp(f, before)
  }

  lemma StampStep(f: FlowTcp, w: Work)
    requires ValidWork(w)
    ensures var (f', r) := Handle(f, w);
            && f'.tx.nextTs == (if InOrderPacket(f, w) then w.pkt.tsVal else f.tx.nextTs)
            && (r.transmit.Some? ==> r.transmit.value.tsEcr == f'.tx.nextTs)
  {
    hide RxSegment, QmGrowth, TxAvail, AckBump;
    if w.RxWork? && w.plen != 0 {
      AcceptedIfInOrder(f.rx, w.pkt.seqNo, w.plen, w.pkt.fin);
    }
  }

  /** Over every run, every header echoes the time stamp of the last packet in order. */
  lemma {:induction false} EchoesLastStamp(f: FlowTcp, ws: seq<Work>)
    requires forall w :: w in ws ==> ValidWork(w)
    ensures HandleAll(f, ws).tx.nextTs == LastStamp(f, ws)
    ensures ws != [] ==>
              var h := Handle(HandleAll(f, ws[..|ws| - 1]), ws[|ws| - 1]).1.transmit;
              h.Some? ==> h.value.tsEcr == LastStamp(f, ws)
    decreases |ws|
  {
    hide Handle, InOrderPacket;
    if ws != [] {
      var before, w := ws[..|ws| - 1], ws[|ws| - 1];
      EchoesLastStamp(f, before);
      HandleAllLast(f, ws);
      StampStep(HandleAll(f, before), w);
    }
  }

  /** Covered flows send what both the buffer and the peer's window allow, in exact terms. */
  lemma CoveredIsExact(t: TxState)
    requires Covered(t)
    ensures TxAvail(t, 0) == Min(t.avail, t.remoteAvail - t.sent)
  {
  }

  /** A FIN goes out only with a forced transmission that has nothing to send; the length
      field of that transmission then wraps to 65535. */
  lemma FinOnlyIfForcedAndEmpty(f: FlowTcp, force: bool)
    ensures var r := Transmit(f, force).1;
            && (r.fin <==> force && f.tx.fin && f.tx.avail == 0)
            && (r.fin ==> r.payload == Some(Dma(f.tx.nextPos, 0xFFFF, 0)))
  {
  }

  /** A window smaller than what is in flight makes the 32-bit difference wrap, and the
      sender takes the whole of its buffer for sendable. */
  lemma UncoveredWindowWraps()
    ensures exists f: FlowTcp, p: Packet ::
              && Covered(f.tx) && !Covered(PureAck(f, p).0.tx)
              && TxAvail(PureAck(f, p).0.tx, 0) == PureAck(f, p).0.tx.avail > p.win
  {
    var f := FlowTcp(TxState(0x10000, 5000, 2000, 2000, 2000, 2000, 0, false, 0), RxState(0x10000, 0x10000, 0, 0, 0, 0, false));
    var p := Packet(0, 1000, 0, 0, 0, false, false, false);
    assert Covered(f.tx);
    assert PureAck(f, p).0.tx.sent == 1000 && PureAck(f, p).0.tx.remoteAvail == 0;
    assert TxAvail(PureAck(f, p).0.tx, 0) == 5000;
  }
}
