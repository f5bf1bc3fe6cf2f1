/** The receiving half against the stream it receives.  A `Receiver` holds unbounded stream
    offsets; `Represents` ties it to the 32-bit record.  Every data segment does to the
    record what `Arrive` does to the offsets. */
module Receive {
  import opened Words
  import opened Flows

  const HALF := 0x8000_0000

  /** `next` bytes of the stream are delivered and `freed` of them given back; `[lo, hi)` is
      the stored out-of-order interval (empty if `lo == hi`); `isn` is the sequence number
      of stream offset 0.  Once a FIN has been received, one offset is its own, and whatever
      lies behind it is not part of the stream. */
  datatype Receiver = Receiver(len: nat, isn: int, freed: nat, next: nat, lo: nat, hi: nat, fin: bool) {
    predicate Ok() {
      && 0 < len <= HALF
      && freed <= next <= freed + len
      && lo <= hi
      && (lo < hi ==> Expected() < lo && hi <= Bound())
    }

    /** The offset expected next; a received FIN takes one. */
    function Expected(): nat {
      next + if fin then 1 else 0
    }

    /** The sequence number expected next. */
    function NextSeq(): int {
      isn + Expected()
    }

    /** End of the receive window, as an offset that counts the FIN. */
    function Bound(): nat {
      freed + len + if fin then 1 else 0
    }

    /** End of the receive window, as an offset of the stream. */
    function Limit(): nat {
      freed + len
    }
  }

  ghost predicate Represents(r: RxState, a: Receiver) {
    && r.len == a.len
    && r.avail == a.Limit() - a.next
    && r.nextSeq == Wrap(a.NextSeq())
    && r.nextPos == Wrap(a.next)
    && r.oooLen == a.hi - a.lo
    && (a.lo < a.hi ==> r.oooStart == Wrap(a.isn + a.lo))
    && r.fin == a.fin
  }

  // ------------------------------------------------------------------------ trimming

  /** Whether stream position `x` is both in the segment and in the window. */
  predicate Wanted(x: int, from: int, bytes: nat, next: int, avail: nat) {
    from <= x < from + bytes && next <= x < next + avail
  }

  /** Trimming keeps exactly the intersection of a segment with the receive window.  It is
      rejected exactly when it ends before the window or starts beyond it. */
  lemma TrimKeepsIntersection(r: RxState, next: int, from: int, bytes: nat)
    requires r.nextSeq == Wrap(next)
    requires -HALF < from - next < HALF
    requires bytes < HALF && r.avail <= HALF
    ensures match TrimRxBuf(r, Wrap(from), bytes)
            case None => forall x :: !Wanted(x, from, bytes, next, r.avail)
            case Some(t) =>
              forall x :: from + t.start <= x < from + bytes - t.end <==> Wanted(x, from, bytes, next, r.avail)
    ensures TrimRxBuf(r, Wrap(from), bytes).None? <==>
            from + bytes < next || (from > next && from >= next + r.avail)
  {
    hide Wrap;
    TrimValues(r, next, from, bytes);
  }

  /** The amounts cut off, in unbounded terms. */
  lemma TrimValues(r: RxState, next: int, from: int, bytes: nat)
    requires r.nextSeq == Wrap(next)
    requires -HALF < from - next < HALF
    requires bytes < HALF && r.avail <= HALF
    ensures TrimRxBuf(r, Wrap(from), bytes) ==
            if from + bytes < next || (from > next && from >= next + r.avail) then None
            else if from <= next then Some(Trimmed(next - from, Max(0, from + bytes - next - r.avail)))
            else Some(Trimmed(0, Max(0, from + bytes - next - r.avail)))
  {
    WrapDiff(next, from);
  }

  // -------------------------------------------------------------- the stream's view

  /** No byte of the segment can be used, and it is not adjacent to the delivered stream. */
  predicate Useless(a: Receiver, from: nat, bytes: nat) {
    from + bytes < a.Expected() || (a.Expected() < from && a.Bound() <= from)
  }

  /** First stream offset that a useful segment adds to the buffer. */
  function First(a: Receiver, from: nat): nat {
    Max(from, a.Expected())
  }

  /** End of what a useful segment adds to the buffer. */
  function Last(a: Receiver, from: nat, bytes: nat): nat {
    Min(from + bytes, a.Bound())
  }

  /** Where in the buffer offset `x` goes; the FIN takes no place. */
  function Position(a: Receiver, x: nat): int {
    x - if a.fin then 1 else 0
  }

  /** Keep `[from, end)` if it starts the interval or extends it at either side. */
  function Park(a: Receiver, from: nat, end: nat): Receiver {
    if a.lo == a.hi then a.(lo := from, hi := end)
    else if end == a.lo then a.(lo := from)
    else if from == a.hi then a.(hi := end)
    else a
  }

  /** Deliver up to `end`, and through the interval if that is now contiguous. */
  function Advance(a: Receiver, end: nat): Receiver {
    if end <= a.next then a
    else if a.lo < a.hi && a.lo <= end then a.(next := Max(end, a.hi), lo := 0, hi := 0)
    else a.(next := end)
  }

  /** What a data segment `[from, from + bytes)` does to the receiver.  After a FIN nothing is
      delivered any more. */
  function Arrive(a: Receiver, from: nat, bytes: nat, fin: bool): Receiver {
    if Useless(a, from, bytes) then a
    else if a.Expected() < from then Park(a, from, Last(a, from, bytes))
    else if a.fin then a
    else
      var a' := Advance(a, Last(a, from, bytes));
      if fin && a'.next == from + bytes && a'.lo == a'.hi then a'.(fin := true) else a'
  }

  /** Whether the segment's usable bytes go to the buffer. */
  predicate Stored(a: Receiver, from: nat, bytes: nat) {
    && !Useless(a, from, bytes)
    && First(a, from) < Last(a, from, bytes)
    && (if a.Expected() < from then Park(a, from, Last(a, from, bytes)) != a else !a.fin)
  }

  // ------------------------------------------------------------------------ refinement

  /** The segments the theorems speak of: not empty, and less than half the sequence space away
      from what is expected. */
  predicate Plausible(a: Receiver, from: nat, bytes: nat) {
    && 0 < bytes < PLEN_LIMIT
    && -HALF < a.isn + from - a.NextSeq() < HALF
  }

  lemma CatchUpRefines(r: RxState, a: Receiver, end: nat)
    requires a.Ok() && !a.fin && a.next < end <= a.Limit() && end - a.next < HALF
    requires r.len == a.len && r.avail == a.Limit() - end && r.nextSeq == Wrap(a.isn + end) && r.nextPos == Wrap(end)
    requires r.oooLen == a.hi - a.lo && !r.fin
    requires a.lo < a.hi ==> r.oooStart == Wrap(a.isn + a.lo)
    ensures Represents(CatchUp(r).0, Advance(a, end))
    ensures CatchUp(r).1 == Advance(a, end).next - end
  {
    hide Wrap, TrimRxBuf;
    if a.lo < a.hi {
      TrimValues(r, a.isn + end, a.isn + a.lo, a.hi - a.lo);
      if a.lo <= end < a.hi {
        WrapAdd(a.isn + a.lo, end - a.lo);
        WrapAdd(a.isn + end, a.hi - end);
        WrapAdd(end, a.hi - end);
      } else if end < a.lo {
        WrapInjective(a.isn + end, a.isn + a.lo);
      }
    }
  }

  lemma AdvanceOk(a: Receiver, end: nat)
    requires a.Ok() && !a.fin && a.next <= end <= a.Limit()
    ensures Advance(a, end).Ok() && end <= Advance(a, end).next <= a.Limit()
    ensures end == a.next ==> Advance(a, end) == a
  {
  }

  lemma DeliverRefines(r: RxState, a: Receiver, end: nat, offset: uint16)
    requires a.Ok() && !a.fin && Represents(r, a) && a.next <= end <= a.Limit() && end - a.next < PLEN_LIMIT
    ensures var o := DeliverInOrder(r, end - a.next, offset);
            && Advance(a, end).Ok() && Represents(o.rx, Advance(a, end))
            && o.bump == Advance(a, end).next - a.next
            && o.payload == if a.next < end then Some(Dma(Wrap(a.next), end - a.next, offset)) else None
  {
    hide Wrap, CatchUp, TrimRxBuf, Advance;
    AdvanceOk(a, end);
    if a.next < end {
      var bytes := end - a.next;
      WrapAdd(a.isn + a.next, bytes);
      WrapAdd(a.next, bytes);
      CatchUpRefines(Deliver(r, bytes), a, end);
    }
  }

  lemma StoreRefines(r: RxState, a: Receiver, from: nat, end: nat, offset: uint16)
    requires a.Ok() && Represents(r, a) && a.Expected() < from < end <= a.Bound() && end - from < PLEN_LIMIT
    ensures var o := StoreOutOfOrder(r, Wrap(a.isn + from), end - from, offset);
            && Park(a, from, end).Ok() && Represents(o.rx, Park(a, from, end))
            && o.bump == 0 && !o.fin && o.accepted && !o.inOrder
            && o.payload == if Park(a, from, end) != a then Some(Dma(Wrap(Position(a, from)), end - from, offset)) else None
  {
    hide Wrap, Add, Sub;
    AdjacentIff(r, a, from, end);
    StorePlace(r, a, from, end);
    StoreSum(a.hi - a.lo, end - from);
  }

  lemma StoreSum(x: uint32, y: uint32)
    ensures x + y < MOD ==> Add(x, y) == x + y
  {
  }

  /** The wrapped tests for adjacency are exact. */
  lemma AdjacentIff(r: RxState, a: Receiver, from: nat, end: nat)
    requires a.Ok() && Represents(r, a) && a.Expected() < from < end <= a.Bound() && end - from < PLEN_LIMIT
    ensures a.lo < a.hi ==>
              && (Add(Wrap(a.isn + from), end - from) == r.oooStart <==> end == a.lo)
              && (Add(r.oooStart, r.oooLen) == Wrap(a.isn + from) <==> from == a.hi)
  {
    hide Wrap;
    WrapAdd(a.isn + from, end - from);
    if a.lo < a.hi {
      WrapInjective(a.isn + end, a.isn + a.lo);
      WrapAdd(a.isn + a.lo, a.hi - a.lo);
      WrapInjective(a.isn + a.hi, a.isn + from);
    }
  }

  /** The position is that of the offset. */
  lemma StorePlace(r: RxState, a: Receiver, from: nat, end: nat)
    requires a.Ok() && Represents(r, a) && a.Expected() < from < end <= a.Bound()
    ensures Add(r.nextPos, Sub(Wrap(a.isn + from), r.nextSeq)) == Wrap(Position(a, from))
  {
    hide Wrap;
    WrapDiff(a.isn + from, a.NextSeq());
    WrapAdd(a.next, from - a.Expected());
  }

  /** A FIN is taken exactly when the whole segment before it has been delivered. */
  lemma FinRefines(a: Receiver, next: nat, from: nat, bytes: nat)
    requires from <= next && -MOD < next - (from + bytes) < MOD && bytes < PLEN_LIMIT
    ensures Add(Wrap(a.isn + from), bytes) == Wrap(a.isn + from + bytes)
    ensures Wrap(a.isn + next) == Add(Wrap(a.isn + from), bytes) <==> next == from + bytes
    ensures Add(Wrap(a.isn + next), 1) == Wrap(a.isn + next + 1)
  {
    WrapAdd(a.isn + from, bytes);
    WrapInjective(a.isn + next, a.isn + from + bytes);
    WrapAdd(a.isn + next, 1);
  }

  /** What the handler must report for a segment. */
  ghost predicate Reports(o: RxOutcome, a: Receiver, a': Receiver, from: nat, bytes: nat)
    requires a.Ok() && Plausible(a, from, bytes)
  {
    && Represents(o.rx, a')
    && o.bump == a'.next - a.next
    && o.fin == (a'.fin && !a.fin)
    && o.payload == if Stored(a, from, bytes)
                    then Some(Dma(Wrap(Position(a, First(a, from))), Last(a, from, bytes) - First(a, from), First(a, from) - from))
                    else None
  }

  lemma PlaceAheadRefines(r: RxState, a: Receiver, from: nat, bytes: nat, fin: bool, t: Trimmed)
    requires a.Ok() && Represents(r, a) && Plausible(a, from, bytes)
    requires !Useless(a, from, bytes) && a.Expected() < from
    requires t == Trimmed(0, from + bytes - Last(a, from, bytes))
    ensures Park(a, from, Last(a, from, bytes)).Ok()
    ensures Reports(PlaceSegment(r, Wrap(a.isn + from), bytes, fin, t), a, Park(a, from, Last(a, from, bytes)), from, bytes)
  {
    hide Wrap, StoreOutOfOrder, DeliverInOrder;
    WrapInjective(a.isn + from, a.NextSeq());
    StoreRefines(r, a, from, Last(a, from, bytes), 0);
  }

  /** Payload in order after the FIN is not taken. */
  lemma PlaceAfterFinRefines(r: RxState, a: Receiver, from: nat, bytes: nat, fin: bool, t: Trimmed)
    requires a.Ok() && Represents(r, a) && Plausible(a, from, bytes) && a.fin
    requires !Useless(a, from, bytes) && from <= a.Expected()
    requires t == Trimmed(a.Expected() - from, from + bytes - Last(a, from, bytes))
    ensures Reports(PlaceSegment(r, Wrap(a.isn + from), bytes, fin, t), a, a, from, bytes)
  {
    hide Wrap, StoreOutOfOrder;
    WrapAdd(a.isn + from, a.Expected() - from);
  }

  lemma PlaceInOrderRefines(r: RxState, a: Receiver, from: nat, bytes: nat, fin: bool, t: Trimmed)
    requires a.Ok() && Represents(r, a) && Plausible(a, from, bytes)
    requires !Useless(a, from, bytes) && from <= a.next && !a.fin
    requires t == Trimmed(a.next - from, from + bytes - Last(a, from, bytes))
    ensures Arrive(a, from, bytes, fin).Ok()
    ensures Reports(PlaceSegment(r, Wrap(a.isn + from), bytes, fin, t), a, Arrive(a, from, bytes, fin), from, bytes)
  {
    hide Wrap, DeliverInOrder, CatchUp, StoreOutOfOrder, TrimRxBuf;
    var end := Last(a, from, bytes);
    WrapAdd(a.isn + from, a.next - from);
    DeliverRefines(r, a, end, a.next - from);
    FinRefines(a, Advance(a, end).next, from, bytes);
  }

  /** The 32-bit handler, on every segment, moves the record as `Arrive` moves the offsets,
      reports exactly the bytes that became contiguous, and asks for the transfer of exactly
      the bytes that were kept. */
  lemma SegmentRefines(r: RxState, a: Receiver, from: nat, bytes: nat, fin: bool)
    requires a.Ok() && Represents(r, a) && Plausible(a, from, bytes)
    ensures Arrive(a, from, bytes, fin).Ok()
    ensures Reports(RxSegment(r, Wrap(a.isn + from), bytes, fin), a, Arrive(a, from, bytes, fin), from, bytes)
  {
    hide Wrap, PlaceSegment, Park, Advance;
    TrimValues(r, a.NextSeq(), a.isn + from, bytes);
    if Useless(a, from, bytes) {
    } else if a.Expected() < from {
      PlaceAheadRefines(r, a, from, bytes, fin, Trimmed(0, from + bytes - Last(a, from, bytes)));
    } else if a.fin {
      PlaceAfterFinRefines(r, a, from, bytes, fin, Trimmed(a.Expected() - from, from + bytes - Last(a, from, bytes)));
    } else {
      PlaceInOrderRefines(r, a, from, bytes, fin, Trimmed(a.next - from, from + bytes - Last(a, from, bytes)));
    }
  }

  /** A segment reports nothing unless it is in order and has a payload to transfer. */
  lemma BumpNeedsPayload(r: RxState, seqNo: uint32, bytes: nat, fin: bool)
    requires bytes < PLEN_LIMIT
    ensures var o := RxSegment(r, seqNo, bytes, fin); o.bump != 0 ==> o.inOrder && o.payload.Some?
  {
    hide CatchUp, TrimRxBuf;
  }

  /** What lies ahead of the delivered stream is not taken for being in order. */
  lemma AheadIsNotInOrder(r: RxState, a: Receiver, from: nat, bytes: nat, fin: bool)
    requires a.Ok() && Represents(r, a) && Plausible(a, from, bytes) && a.Expected() < from
    ensures !RxSegment(r, Wrap(a.isn + from), bytes, fin).inOrder
  {
    hide Wrap, DeliverInOrder;
    TrimValues(r, a.NextSeq(), a.isn + from, bytes);
    WrapInjective(a.isn + from, a.NextSeq());
    assert Add(Wrap(a.isn + from), 0) == Wrap(a.isn + from);
  }

  /** The handler announces a payload to the application exactly if the stream it can read
      became longer. */
  lemma AnnouncedIffLonger(r: RxState, a: Receiver, from: nat, bytes: nat, fin: bool)
    requires a.Ok() && Represents(r, a) && Plausible(a, from, bytes)
    ensures var o := RxSegment(r, Wrap(a.isn + from), bytes, fin);
            o.inOrder && o.payload.Some? <==> a.next < Arrive(a, from, bytes, fin).next
  {
    hide Wrap, RxSegment, Represents;
    SegmentRefines(r, a, from, bytes, fin);
    BumpNeedsPayload(r, Wrap(a.isn + from), bytes, fin);
    if a.Expected() < from {
      AheadIsNotInOrder(r, a, from, bytes, fin);
    }
  }

  /** A segment that starts at or before the next expected byte and reaches beyond it always
      makes progress while there is room, and never takes anything back. */
  lemma ArriveProgress(a: Receiver, from: nat, bytes: nat, fin: bool)
    requires a.Ok() && Plausible(a, from, bytes)
    ensures a.next <= Arrive(a, from, bytes, fin).next
    ensures !a.fin && from <= a.next < Min(from + bytes, a.Limit()) ==>
              Min(from + bytes, a.Limit()) <= Arrive(a, from, bytes, fin).next
  {
  }
}
