/** What packets do to a connection, in terms of their headers alone: which acknowledgements are
    taken, which FINs end the stream, and which packets are answered. */
module Acknowledging {
  import opened Words
  import opened Flows
  import opened Buffers
  import opened Connections
  import Receive
  import Sending

  /** `ackNo` names the point `n` bytes beyond the acknowledged ones, among those written. */
  predicate Names(s: Sending.Sender, ackNo: uint32, n: nat) {
    n <= s.total - s.acked && ackNo == Sending.SeqOf(s, s.acked + n)
  }

  /** It names no such point. */
  ghost predicate NamesNone(s: Sending.Sender, ackNo: uint32) {
    forall n: nat :: !Names(s, ackNo, n)
  }

  /** No two points have the same number. */
  lemma NamesOne(s: Sending.Sender, ackNo: uint32, n: nat, m: nat)
    requires s.Ok() && Names(s, ackNo, n) && Names(s, ackNo, m)
    ensures n == m
  {
    hide Wrap;
    WrapInjective(s.iss + (s.acked + n), s.iss + (s.acked + m));
  }

  lemma BumpOfNamed(t: TxState, s: Sending.Sender, ackNo: uint32)
    requires s.Ok() && Sending.Represents(t, s)
    ensures forall n: nat :: Names(s, ackNo, n) ==> AckBump(t, ackNo) == Some(n)
    ensures NamesNone(s, ackNo) ==> AckBump(t, ackNo) == None
    ensures AckBump(t, ackNo).Some? ==> Names(s, ackNo, AckBump(t, ackNo).value)
  {
    hide Wrap, AckBump;
    Sending.AckBumpExact(t, s, ackNo);
    assert AckBump(t, ackNo).Some? ==> Names(s, ackNo, AckBump(t, ackNo).value);
    forall n: nat | Names(s, ackNo, n)
      ensures AckBump(t, ackNo) == Some(n)
    {
      if AckBump(t, ackNo).Some? {
        NamesOne(s, ackNo, n, AckBump(t, ackNo).value);
      }
    }
  }

  /** The sending side once `n` more bytes are acknowledged; what was acknowledged need not be
      sent again. */
  function Advanced(s: Sending.Sender, n: nat): Sending.Sender {
    s.(acked := s.acked + n, sent := if s.sent < s.acked + n then s.acked + n else s.sent)
  }

  // ---------------------------------------------------------------------- data segments

  lemma AcceptedIffUseful(rx: RxState, a: Receive.Receiver, from: nat, bytes: nat, fin: bool)
    requires a.Ok() && Receive.Represents(rx, a) && Receive.Plausible(a, from, bytes)
    ensures RxSegment(rx, Wrap(a.isn + from), bytes, fin).accepted <==> !Receive.Useless(a, from, bytes)
    ensures RxSegment(rx, Wrap(a.isn + from), bytes, fin).inOrder <==>
            !Receive.Useless(a, from, bytes) && from <= a.Expected()
  {
    hide Wrap, DeliverInOrder, StoreOutOfOrder, Receive.Represents;
    assert rx.nextSeq == Wrap(a.NextSeq()) && rx.avail == a.Bound() - a.Expected() && rx.avail <= Receive.HALF by {
      Ranges(rx, a);
    }
    Receive.TrimValues(rx, a.NextSeq(), a.isn + from, bytes);
    if !Receive.Useless(a, from, bytes) {
      if from <= a.Expected() {
        WrapAdd(a.isn + from, a.Expected() - from);
      } else {
        WrapInjective(a.isn + from, a.NextSeq());
        WrapAdd(a.isn + from, 0);
      }
    }
  }

  lemma Ranges(rx: RxState, a: Receive.Receiver)
    requires a.Ok() && Receive.Represents(rx, a)
    ensures rx.nextSeq == Wrap(a.NextSeq()) && rx.avail == a.Bound() - a.Expected() && rx.avail <= Receive.HALF
    ensures rx.fin == a.fin && (rx.oooLen == 0 <==> a.lo == a.hi)
  {
    hide Wrap;
  }

  /** Every data segment is answered.  Unless it is useless, its acknowledgement is taken exactly
      if it names a point among the bytes written; and its window and time stamp count exactly
      if it starts at or before the expected byte. */
  lemma SegmentTaken(w: World, from: nat, bytes: seq<byte>, pkt: Packet)
    requires Ok(w) && Allowed(w, Data(from, bytes, pkt))
    ensures var e := Data(from, bytes, pkt);
            var w', r, s := Step(w, e), Handle(w.flow, WorkOf(e)).1, w.out.s;
            var useless := Receive.Useless(w.inb.a, from, |bytes|);
            && r.transmit.Some? && !r.retx && (r.fin <==> w'.inb.a.fin && !w.inb.a.fin)
            && (forall n: nat :: !useless && Names(s, pkt.ackNo, n) ==> r.txBump == n && w'.out.s == Advanced(s, n))
            && (useless || NamesNone(s, pkt.ackNo) ==> r.txBump == 0 && w'.out.s == s)
            && (if !useless && from <= w.inb.a.Expected()
                then w'.flow.tx.remoteAvail == pkt.win && w'.flow.tx.nextTs == pkt.tsVal
                else w'.flow.tx.remoteAvail == w.flow.tx.remoteAvail && w'.flow.tx.nextTs == w.flow.tx.nextTs)
  {
    hide Wrap, RxSegment, TxAvail, QmGrowth, AckBump, Get, Deposit, Receive.Arrive, Receive.Useless, NamesNone, Names, Holds, WireOk;
    BumpOfNamed(w.flow.tx, w.out.s, pkt.ackNo);
    AcceptedIffUseful(w.flow.rx, w.inb.a, from, |bytes|, pkt.fin);
    Receive.SegmentRefines(w.flow.rx, w.inb.a, from, |bytes|, pkt.fin);
    forall n: nat | Names(w.out.s, pkt.ackNo, n)
      ensures n < MOD
    {
      NamesBound(w.out.s, pkt.ackNo, n);
    }
  }

  lemma NamesBound(s: Sending.Sender, ackNo: uint32, n: nat)
    requires s.Ok() && Names(s, ackNo, n)
    ensures n < MOD
  {
  }

  // ------------------------------------------------------------- packets without payload

  /** The sequence number of an offset of the peer's stream. */
  function NumberOf(a: Receive.Receiver, x: nat): uint32 {
    Wrap(a.isn + x)
  }

  /** The packet's sequence number lies in the receive window, ends included. */
  ghost predicate Inside(a: Receive.Receiver, seqNo: uint32) {
    exists x: nat :: a.Expected() <= x <= a.Bound() && seqNo == NumberOf(a, x)
  }

  lemma InsideIff(rx: RxState, a: Receive.Receiver, seqNo: uint32)
    requires a.Ok() && Receive.Represents(rx, a)
    ensures RxSeqInWindow(rx, seqNo) <==> Inside(a, seqNo)
  {
    hide Wrap;
    Ranges(rx, a);
    var off := Sub(seqNo, rx.nextSeq);
    WrapAdd(a.NextSeq(), off);
    if RxSeqInWindow(rx, seqNo) {
      var x := a.Expected() + off;
      assert a.Expected() <= x <= a.Bound() && seqNo == NumberOf(a, x);
    }
    if Inside(a, seqNo) {
      var x: nat :| a.Expected() <= x <= a.Bound() && seqNo == NumberOf(a, x);
      WrapDiff(a.isn + x, a.NextSeq());
    }
  }

  /** The packet is the third duplicate acknowledgement. */
  ghost predicate Third(w: World, pkt: Packet) {
    Inside(w.inb.a, pkt.seqNo) && Names(w.out.s, pkt.ackNo, 0) && w.flow.tx.dupAcks >= 2
  }

  /** What a packet without payload does to the sending side. */
  lemma AckTaken(w: World, pkt: Packet)
    requires Ok(w)
    ensures |w.inb.mem| > 0 && |w.out.mem| > 0
    ensures var e := Ack(pkt);
            var w', r, s := Step(w, e), Handle(w.flow, WorkOf(e)).1, w.out.s;
            && (r.retx <==> Third(w, pkt))
            && (forall n: nat :: Inside(w.inb.a, pkt.seqNo) && Names(s, pkt.ackNo, n) && n > 0 ==>
                  r.txBump == n && w'.out.s == Advanced(s, n))
            && (!Inside(w.inb.a, pkt.seqNo) || NamesNone(s, pkt.ackNo) ==> r.txBump == 0 && w'.out.s == s)
            && (Inside(w.inb.a, pkt.seqNo) && Names(s, pkt.ackNo, 0) ==>
                  r.txBump == 0 && w'.out.s == if Third(w, pkt) then s.(sent := s.acked) else s)
  {
    hide Wrap, TxAvail, QmGrowth, AckBump, RxSeqInWindow, NamesNone, Names, Inside, Holds, WireOk;
    BumpOfNamed(w.flow.tx, w.out.s, pkt.ackNo);
    InsideIff(w.flow.rx, w.inb.a, pkt.seqNo);
    forall n: nat | Names(w.out.s, pkt.ackNo, n)
      ensures n < MOD
    {
      NamesBound(w.out.s, pkt.ackNo, n);
    }
  }

  /** A packet without payload counts as in order if it has the expected sequence number and is
      not the third duplicate. */
  ghost predicate InOrder(w: World, pkt: Packet) {
    pkt.seqNo == Wrap(w.inb.a.NextSeq()) && !Third(w, pkt)
  }

  /** It ends the stream exactly if it is in order, carries the first FIN, and nothing is stored
      out of order; its window and time stamp count exactly if it is in order; and it is answered
      exactly if it is outside the window, out of order without being the third duplicate, or
      ends the stream. */
  lemma FinTaken(w: World, pkt: Packet)
    requires Ok(w)
    ensures |w.inb.mem| > 0 && |w.out.mem| > 0
    ensures var e := Ack(pkt);
            var w', r, a := Step(w, e), Handle(w.flow, WorkOf(e)).1, w.inb.a;
            && (w'.inb.a.fin <==> a.fin || (pkt.fin && InOrder(w, pkt) && a.lo == a.hi))
            && w'.inb.a == a.(fin := w'.inb.a.fin) && (r.fin <==> w'.inb.a.fin && !a.fin)
            && (r.transmit.Some? <==>
                  || !Inside(a, pkt.seqNo)
                  || (pkt.seqNo != Wrap(a.NextSeq()) && !Third(w, pkt))
                  || (w'.inb.a.fin && !a.fin))
            && (InOrder(w, pkt) ==> w'.flow.tx.remoteAvail == pkt.win && w'.flow.tx.nextTs == pkt.tsVal)
            && (!InOrder(w, pkt) ==> w'.flow.tx.nextTs == w.flow.tx.nextTs)
            && (!InOrder(w, pkt) && !Third(w, pkt) ==> w'.flow.tx.remoteAvail == w.flow.tx.remoteAvail)
  {
    hide Wrap, TxAvail, QmGrowth, AckBump, NamesNone, Names, Inside, Holds, WireOk;
    BumpOfNamed(w.flow.tx, w.out.s, pkt.ackNo);
    InsideIff(w.flow.rx, w.inb.a, pkt.seqNo);
    Ranges(w.flow.rx, w.inb.a);
    ExpectedInside(w.inb.a);
  }

  lemma ExpectedInside(a: Receive.Receiver)
    requires a.Ok()
    ensures Inside(a, Wrap(a.NextSeq()))
  {
    hide Wrap;
    assert a.Expected() <= a.Expected() <= a.Bound() && Wrap(a.NextSeq()) == NumberOf(a, a.Expected());
  }

  /** The congestion marks of a packet are passed on, its echo goes with an answer, and the
      measured time stamp is reported unless a packet without payload had to be answered. */
  lemma MarksPassedOn(f: FlowTcp, plen: nat, pkt: Packet)
    requires plen < PLEN_LIMIT
    ensures var r := Handle(f, RxWork(plen, pkt)).1;
            && r.ecnBytes == pkt.ece
            && (r.ecnEcho <==> pkt.ecn && r.transmit.Some?)
            && r.tsVal == if plen == 0 && r.transmit.Some? then 0 else pkt.tsEcr
  {
    hide RxSegment, SegmentAck, CountedAck, TxAvail, QmGrowth, RxSeqInWindow;
  }

  // ------------------------------------------------------------------------------ closing

  /** Over every run, the record is marked closed exactly if it was before or some bump closed it. */
  lemma {:induction false} ClosedIff(f: FlowTcp, ws: seq<Work>)
    requires forall w :: w in ws ==> ValidWork(w)
    ensures Sending.HandleAll(f, ws).tx.fin <==> f.tx.fin || exists w :: w in ws && w.AcWork? && w.close
    decreases |ws|
  {
    hide Handle;
    if ws != [] {
      var w := ws[0];
      ClosedStep(f, w);
      ClosedIff(Handle(f, w).0, ws[1..]);
      assert forall v :: v in ws <==> v == w || v in ws[1..];
    }
  }

  lemma ClosedStep(f: FlowTcp, w: Work)
    requires ValidWork(w)
    ensures Handle(f, w).0.tx.fin <==> f.tx.fin || (w.AcWork? && w.close)
  {
    hide RxSegment, AckBump, TxAvail, QmGrowth, RxSeqInWindow;
  }
}
