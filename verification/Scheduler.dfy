/** The transmit scheduler: bump ring, FIFO, local FIFO and calendar wheel, served by seven
    cooperating threads.  Every function below is one stretch of a thread between two points
    at which it may be swapped out; any interleaving of them is a run. */
module Scheduler {
  import opened Words
  import opened Flows

  const SLOTS := 512
  const LOCAL_SIZE := 256
  const READER := 0       // moves bumps into a queue
  const LOCAL := 1        // serves the local FIFO
  const FIFO := 2         // serves the FIFO
  const FIRST_WHEEL := 3  // four threads serve the wheel
  const THREADS := 7

  type FlowId = x: int | 0 < x < 0x1_0000 witness 1

  /** A queue entry; it stands for a flow that has, or had, something to send. */
  datatype Token = Token(flow: FlowId, grp: nat)

  datatype Entry = Entry(token: Token, avail: int)

  /** An entry of a wheel slot, with the number of slot advances after which it is due. */
  datatype Timed = Timed(token: Token, due: nat)

  /** What a thread holds while it may be swapped out: a token it took from a queue, or one
      that it has served and that goes back to a queue if `keep`. */
  datatype Hand =
    | Idle
    | Taken(token: Token, local: int)
    | Served(token: Token, rest: int, keep: bool)

  /** `avail` is each flow's schedulable amount, `issued` the transmit items not yet
      processed, `pushing` the tokens on their way into the bump ring, `batch` what the FIFO
      thread has fetched and not yet served, `advances` how often the wheel has turned. */
  datatype Qm = Qm(
    avail: map<FlowId, nat>, issued: multiset<FlowId>, pushing: seq<Token>, bumps: seq<Token>,
    fifo: seq<Token>, fifoCount: int, batch: seq<Token>,
    ring: seq<Entry>, head: nat, tail: nat,
    wheel: seq<seq<Timed>>, counts: seq<nat>, slot: nat, skip: nat, advances: nat,
    hands: seq<Hand>)

  ghost predicate Shaped(q: Qm) {
    && (forall f: FlowId :: f in q.avail)
    && |q.ring| == LOCAL_SIZE && q.head < LOCAL_SIZE && q.tail < LOCAL_SIZE
    && |q.wheel| == |q.counts| == SLOTS && q.slot < SLOTS && q.skip <= 1
    && |q.hands| == THREADS
  }

  // --------------------------------------------------------------------- the operations

  /** The wheel slot, counted from the current one, for a rate in cycles per byte; the
      product of rate and chunk is a 32-bit one. */
  function Delay(q: Qm, avail: int, rate: uint32): nat {
    var ts := Wrap(rate * Min(TCP_MSS, avail)) / 1024;
    Min(ts / 256 + q.skip, SLOTS - 1)
  }

  function AddToWheel(q: Qm, t: Token, delay: nat): Qm
    requires Shaped(q)
  {
    var at := (q.slot + delay) % SLOTS;
    q.(counts := q.counts[at := q.counts[at] + 1], wheel := q.wheel[at := q.wheel[at] + [Timed(t, q.advances + delay)]])
  }

  /** Put a token into the queue its rate and amount select. */
  function AddToQueue(q: Qm, t: Token, avail: int, rate: uint32): Qm
    requires Shaped(q)
  {
    if rate == 0 then
      var tail := (q.tail + 1) % LOCAL_SIZE;
      if avail < TCP_MSS || q.head == tail
      then q.(fifoCount := q.fifoCount + 1, fifo := q.fifo + [t])
      else q.(ring := q.ring[q.tail := Entry(t, Min(avail, 0x4000))], tail := tail)
    else
      AddToWheel(q, t, Delay(q, avail, rate))
  }

  /** Credit a flow; the first credit of an idle flow sends a token. */
  function Credit(q: Qm, t: Token, bump: nat): Qm
    requires Shaped(q)
  {
    q.(avail := q.avail[t.flow := q.avail[t.flow] + bump],
       pushing := if q.avail[t.flow] == 0 then q.pushing + [t] else q.pushing)
  }

  datatype Step =
    | PushBump(k: nat)
    | TakeBump
    | ReadBump
    | TakeLocal
    | FetchFifo(n: nat)
    | TakeFifo
    | TakeSlot(i: nat)
    | Dispatch(i: nat)
    | Return(i: nat, rate: uint32)
    | CloseSlot
    | Advance

  predicate Enabled(q: Qm, s: Step)
    requires |q.hands| == THREADS && |q.counts| == SLOTS && q.slot < SLOTS
  {
    match s
    case PushBump(k) => k < |q.pushing|
    case TakeBump => q.hands[READER].Idle? && q.bumps != []
    case ReadBump => q.hands[READER].Taken?
    case TakeLocal => q.hands[LOCAL].Idle? && q.head != q.tail
    case FetchFifo(n) => q.hands[FIFO].Idle? && q.batch == [] && q.fifoCount != 0 && n <= Min(4, |q.fifo|)
    case TakeFifo => q.hands[FIFO].Idle? && q.batch != []
    case TakeSlot(i) => FIRST_WHEEL <= i < THREADS && q.hands[i].Idle? && q.counts[q.slot] != 0
    case Dispatch(i) => LOCAL <= i < THREADS && q.hands[i].Taken?
    case Return(i, _) => i < THREADS && q.hands[i].Served?
    case CloseSlot => true
    case Advance => q.skip == 1 && q.counts[q.slot] == 0
  }

  /** A wheel thread counts an entry off and takes one from the ring, if there is one. */
  function TakeFromSlot(q: Qm, i: nat): Qm
    requires Shaped(q) && Enabled(q, TakeSlot(i))
  {
    var q' := q.(counts := q.counts[q.slot := q.counts[q.slot] - 1]);
    if q.wheel[q.slot] == [] then q'
    else q'.(wheel := q.wheel[q.slot := q.wheel[q.slot][1..]], hands := q.hands[i := Taken(q.wheel[q.slot][0].token, 0)])
  }

  /** Issue a transmit item and take one segment's worth off the flow; no swap separates the
      two.  The flow's amount saturates at 0.  The local FIFO goes by its own copy of the
      amount, which it decreases without a test, and keeps the token without its flow group. */
  function Serve(q: Qm, i: nat): Qm
    requires Shaped(q) && Enabled(q, Dispatch(i))
  {
    var t := q.hands[i].token;
    var before := q.avail[t.flow];
    q.(issued := q.issued + multiset{t.flow},
       avail := q.avail[t.flow := Max(0, before - TCP_MSS)],
       hands := q.hands[i := if i == LOCAL
                             then Served(Token(t.flow, 0), q.hands[i].local - TCP_MSS, true)
                             else Served(t, before - TCP_MSS, before > TCP_MSS)])
  }

  function Next(q: Qm, s: Step): Qm
    requires Shaped(q) && Enabled(q, s)
  {
    match s
    case PushBump(k) => q.(pushing := q.pushing[..k] + q.pushing[k + 1..], bumps := q.bumps + [q.pushing[k]])
    case TakeBump => q.(bumps := q.bumps[1..], hands := q.hands[READER := Taken(q.bumps[0], 0)])
    case ReadBump =>
      var t := q.hands[READER].token;
      q.(hands := q.hands[READER := Served(t, q.avail[t.flow], true)])
    case TakeLocal =>
      var e := q.ring[q.head];
      q.(head := (q.head + 1) % LOCAL_SIZE, hands := q.hands[LOCAL := Taken(e.token, e.avail)])
    case FetchFifo(n) => q.(fifo := q.fifo[n..], batch := q.fifo[..n])
    case TakeFifo => q.(fifoCount := q.fifoCount - 1, batch := q.batch[1..], hands := q.hands[FIFO := Taken(q.batch[0], 0)])
    case TakeSlot(i) => TakeFromSlot(q, i)
    case Dispatch(i) => Serve(q, i)
    case Return(i, rate) =>
      var h := q.hands[i];
      var q' := q.(hands := q.hands[i := Idle]);
      if h.keep then AddToQueue(q', h.token, h.rest, if i == LOCAL then 0 else rate) else q'
    case CloseSlot => q.(skip := 1)
    case Advance => q.(slot := (q.slot + 1) % SLOTS, skip := 0, advances := q.advances + 1)
  }

  // ------------------------------------------------------------ which queue a token goes to

  /** The index of the `i`-th entry of the local FIFO. */
  function RingAt(head: nat, i: nat): (k: nat)
    ensures k < LOCAL_SIZE
  {
    (head + i) % LOCAL_SIZE
  }

  /** The number of its entries. */
  function Span(head: nat, tail: nat): (n: nat)
    ensures n < LOCAL_SIZE
  {
    (tail - head) % LOCAL_SIZE
  }

  /** The contents of the local FIFO, from its head on. */
  ghost function LocalFifo(q: Qm): seq<Entry>
    requires Shaped(q)
  {
    seq(Span(q.head, q.tail), i requires 0 <= i => q.ring[RingAt(q.head, i)])
  }

  /** `q'` is `q` with one more entry at the end of one wheel slot: the token `t`, due after `due`
      advances of the wheel in all. */
  ghost predicate GrewBy(q: Qm, q': Qm, t: Token, due: nat)
    requires Shaped(q)
  {
    var at := (q.slot + (due - q.advances)) % SLOTS;
    && q' == q.(counts := q'.counts, wheel := q'.wheel)
    && q'.counts == q.counts[at := q.counts[at] + 1]
    && q'.wheel == q.wheel[at := q.wheel[at] + [Timed(t, due)]]
  }

  /** The slots that a rate asks for: one for each 2^18 sub-cycles that sending takes. */
  predicate Asks(amount: nat, rate: uint32, slots: nat) {
    slots * 0x4_0000 <= rate * Min(TCP_MSS, amount) < (slots + 1) * 0x4_0000
  }

  /** A flow with a rate goes to the wheel and nowhere else, at the end of one slot; if the 32-bit
      product does not wrap, that is the slot its rate asks for, one later while the current slot
      is closed, and at most 511 ahead. */
  lemma RatedGoesToWheel(q: Qm, t: Token, amount: nat, rate: uint32, slots: nat)
    requires Shaped(q) && rate != 0
    ensures exists due: nat :: GrewBy(q, AddToQueue(q, t, amount, rate), t, due)
                               && q.advances + q.skip <= due <= q.advances + SLOTS - 1
                               && (Asks(amount, rate, slots) && rate * Min(TCP_MSS, amount) < MOD ==>
                                     due == q.advances + Min(slots + q.skip, SLOTS - 1))
  {
    var d := Delay(q, amount, rate);
    if Asks(amount, rate, slots) && rate * Min(TCP_MSS, amount) < MOD {
      SlotsOf(rate * Min(TCP_MSS, amount), slots);
    }
    assert GrewBy(q, AddToQueue(q, t, amount, rate), t, q.advances + d);
  }

  lemma SlotsOf(x: nat, slots: nat)
    requires slots * 0x4_0000 <= x < (slots + 1) * 0x4_0000 && x < MOD
    ensures Wrap(x) / 1024 / 256 == slots
  {
  }

  /** A faster flow, one with fewer cycles to a byte, is never due later. */
  lemma FasterIsNotLater(q: Qm, amount: nat, rate: uint32, rate': uint32)
    requires rate <= rate' && rate' * Min(TCP_MSS, amount) < MOD
    ensures Delay(q, amount, rate) <= Delay(q, amount, rate')
  {
    var chunk := Min(TCP_MSS, amount);
    Product(rate, rate', chunk);
    SlotsMonotone(rate * chunk, rate' * chunk);
  }

  lemma SlotsMonotone(x: nat, y: nat)
    requires x <= y < MOD
    ensures Wrap(x) / 1024 / 256 <= Wrap(y) / 1024 / 256
  {
  }

  lemma Product(a: nat, b: nat, c: nat)
    requires a <= b
    ensures a * c <= b * c
  {
  }

  /** A flow without a rate never goes to the wheel.  It is last in the FIFO exactly if it has less
      than a segment to send or the local FIFO is full; otherwise it is last in the local FIFO,
      with its amount, of which at most 16 KiB count. */
  lemma UnratedGoesToFifo(q: Qm, t: Token, amount: nat)
    requires Shaped(q)
    ensures var q' := AddToQueue(q, t, amount, 0);
            && Shaped(q') && q'.wheel == q.wheel && q'.counts == q.counts
            && (if amount < TCP_MSS || |LocalFifo(q)| == LOCAL_SIZE - 1
                then q' == q.(fifo := q.fifo + [t], fifoCount := q.fifoCount + 1)
                else q' == q.(ring := q'.ring, tail := q'.tail)
                     && LocalFifo(q') == LocalFifo(q) + [Entry(t, Min(amount, 0x4000))])
  {
    hide RingAt, Span;
    var q' := AddToQueue(q, t, amount, 0);
    TailStep(q.head, q.tail, 0);
    if amount >= TCP_MSS && |LocalFifo(q)| != LOCAL_SIZE - 1 {
      var old', new' := LocalFifo(q), LocalFifo(q');
      forall i | 0 <= i < |old'|
        ensures new'[i] == old'[i]
      {
        TailStep(q.head, q.tail, i);
      }
    }
  }

  /** Stepping the tail of the local FIFO. */
  lemma TailStep(head: nat, tail: nat, i: nat)
    requires head < LOCAL_SIZE && tail < LOCAL_SIZE
    ensures var tail', n := (tail + 1) % LOCAL_SIZE, Span(head, tail);
            && (head == tail' <==> n == LOCAL_SIZE - 1)
            && (n != LOCAL_SIZE - 1 ==> Span(head, tail') == n + 1)
            && RingAt(head, n) == tail
            && (i < n ==> RingAt(head, i) != tail)
  {
    hide RingAt, Span;
    SpanIs(head, tail);
    SpanIs(head, (tail + 1) % LOCAL_SIZE);
    RingAtIs(head, Span(head, tail));
    if i < Span(head, tail) {
      RingAtIs(head, i);
    }
  }

  lemma SpanIs(head: nat, tail: nat)
    requires head < LOCAL_SIZE && tail < LOCAL_SIZE
    ensures Span(head, tail) == if head <= tail then tail - head else tail - head + LOCAL_SIZE
  {
  }

  lemma RingAtIs(head: nat, i: nat)
    requires head < LOCAL_SIZE && i < LOCAL_SIZE
    ensures RingAt(head, i) == if head + i < LOCAL_SIZE then head + i else head + i - LOCAL_SIZE
  {
  }

  /** Stepping the head of the local FIFO. */
  lemma HeadStep(head: nat, tail: nat, i: nat)
    requires head < LOCAL_SIZE && tail < LOCAL_SIZE && head != tail
    ensures var head' := (head + 1) % LOCAL_SIZE;
            && RingAt(head, 0) == head && RingAt(head', i) == RingAt(head, i + 1)
            && Span(head', tail) + 1 == Span(head, tail)
  {
    SpanIs(head, tail);
    SpanIs((head + 1) % LOCAL_SIZE, tail);
  }

  /** The thread of the local FIFO takes its first entry. */
  lemma LocalTakesFirst(q: Qm)
    requires Shaped(q) && Enabled(q, TakeLocal)
    ensures var q' := Next(q, TakeLocal);
            && LocalFifo(q) != [] && Shaped(q') && LocalFifo(q') == LocalFifo(q)[1..]
            && q'.hands[LOCAL] == Taken(LocalFifo(q)[0].token, LocalFifo(q)[0].avail)
  {
    hide RingAt, Span, Serve, AddToQueue, TakeFromSlot;
    var q' := Next(q, TakeLocal);
    HeadStep(q.head, q.tail, 0);
    forall i | 0 <= i < |LocalFifo(q')|
      ensures LocalFifo(q')[i] == LocalFifo(q)[i + 1]
    {
      HeadStep(q.head, q.tail, i);
    }
  }

  // ------------------------------------------------------------------ no flow is lost

  ghost predicate Lists(ts: seq<Token>, f: FlowId) {
    exists t :: t in ts && t.flow == f
  }

  /** The token in a thread's hand, unless it is about to be dropped. */
  predicate Holds(h: Hand, f: FlowId) {
    !h.Idle? && h.token.flow == f && (h.Served? ==> h.keep)
  }

  ghost predicate InHand(q: Qm, f: FlowId) {
    exists i :: 0 <= i < |q.hands| && Holds(q.hands[i], f)
  }

  /** Whether ring index `i` lies between head and tail. */
  predicate Occupied(head: nat, tail: nat, i: nat) {
    if head <= tail then head <= i < tail else head <= i < LOCAL_SIZE || i < tail
  }

  ghost predicate InRing(q: Qm, f: FlowId) {
    exists i :: 0 <= i < |q.ring| && Occupied(q.head, q.tail, i) && q.ring[i].token.flow == f
  }

  ghost predicate InSlot(ts: seq<Timed>, f: FlowId) {
    exists t :: t in ts && t.token.flow == f
  }

  ghost predicate InWheel(q: Qm, f: FlowId) {
    exists s :: 0 <= s < |q.wheel| && InSlot(q.wheel[s], f)
  }

  /** Some token for the flow is in a queue or in a thread's hand. */
  ghost predicate Queued(q: Qm, f: FlowId) {
    Lists(q.pushing, f) || Lists(q.bumps, f) || Lists(q.fifo, f) || Lists(q.batch, f)
    || InRing(q, f) || InWheel(q, f) || InHand(q, f)
  }

  ghost predicate NoneLost(q: Qm) {
    Shaped(q) && forall f: FlowId :: q.avail[f] > 0 ==> Queued(q, f)
  }

  lemma ListsAppend(ts: seq<Token>, t: Token, f: FlowId)
    ensures Lists(ts + [t], f) <==> Lists(ts, f) || t.flow == f
  {
    if t.flow == f {
      assert t in ts + [t];
    }
    if Lists(ts, f) {
      var x :| x in ts && x.flow == f;
      assert x in ts + [t];
    }
  }

  lemma ListsHead(ts: seq<Token>, f: FlowId)
    requires ts != []
    ensures Lists(ts, f) ==> ts[0].flow == f || Lists(ts[1..], f)
  {
    if Lists(ts, f) {
      var x :| x in ts && x.flow == f;
      assert x == ts[0] || x in ts[1..];
    }
  }

  lemma ListsSplit(ts: seq<Token>, n: nat, f: FlowId)
    requires n <= |ts|
    ensures Lists(ts, f) ==> Lists(ts[..n], f) || Lists(ts[n..], f)
  {
    if Lists(ts, f) {
      var x :| x in ts && x.flow == f;
      assert x in ts[..n] || x in ts[n..];
    }
  }

  lemma ListsRemove(ts: seq<Token>, k: nat, f: FlowId)
    requires k < |ts|
    ensures Lists(ts, f) ==> ts[k].flow == f || Lists(ts[..k] + ts[k + 1..], f)
  {
    if Lists(ts, f) {
      var x :| x in ts && x.flow == f;
      var i :| 0 <= i < |ts| && ts[i] == x;
      if i != k {
        assert x in ts[..k] || x in ts[k + 1..];
        assert x in ts[..k] + ts[k + 1..];
      }
    }
  }

  lemma SlotAppend(ts: seq<Timed>, t: Timed, f: FlowId)
    ensures InSlot(ts + [t], f) <==> InSlot(ts, f) || t.token.flow == f
  {
    if t.token.flow == f {
      assert t in ts + [t];
    }
    if InSlot(ts, f) {
      var x :| x in ts && x.token.flow == f;
      assert x in ts + [t];
    }
  }

  lemma AddedToWheel(q: Qm, t: Token, delay: nat, f: FlowId)
    requires Shaped(q)
    ensures Shaped(AddToWheel(q, t, delay))
    ensures InWheel(q, f) || t.flow == f ==> InWheel(AddToWheel(q, t, delay), f)
  {
    hide InSlot;
    var at := (q.slot + delay) % SLOTS;
    var q' := AddToWheel(q, t, delay);
    SlotAppend(q.wheel[at], Timed(t, q.advances + delay), f);
    if InWheel(q, f) {
      var s :| 0 <= s < |q.wheel| && InSlot(q.wheel[s], f);
      assert InSlot(q'.wheel[s], f);
    } else if t.flow == f {
      assert InSlot(q'.wheel[at], f);
    }
  }

  lemma AddedToRing(q: Qm, e: Entry, f: FlowId)
    requires Shaped(q) && q.head != (q.tail + 1) % LOCAL_SIZE
    ensures var q' := q.(ring := q.ring[q.tail := e], tail := (q.tail + 1) % LOCAL_SIZE);
            InRing(q, f) || e.token.flow == f ==> InRing(q', f)
  {
    var q' := q.(ring := q.ring[q.tail := e], tail := (q.tail + 1) % LOCAL_SIZE);
    if InRing(q, f) {
      var i :| 0 <= i < |q.ring| && Occupied(q.head, q.tail, i) && q.ring[i].token.flow == f;
      assert Occupied(q'.head, q'.tail, i) && q'.ring[i] == q.ring[i];
    } else if e.token.flow == f {
      assert Occupied(q'.head, q'.tail, q.tail) && q'.ring[q.tail] == e;
    }
  }

  /** Putting a token into a queue queues its flow and unqueues no other. */
  lemma AddQueues(q: Qm, t: Token, avail: int, rate: uint32, f: FlowId)
    requires Shaped(q)
    ensures Shaped(AddToQueue(q, t, avail, rate)) && AddToQueue(q, t, avail, rate).avail == q.avail
    ensures Queued(q, f) || t.flow == f ==> Queued(AddToQueue(q, t, avail, rate), f)
  {
    hide Lists, InWheel, InRing, InHand, AddToWheel, Delay;
    if rate == 0 {
      var tail := (q.tail + 1) % LOCAL_SIZE;
      if avail < TCP_MSS || q.head == tail {
        ListsAppend(q.fifo, t, f);
        SameParts(q, AddToQueue(q, t, avail, rate), f);
      } else {
        AddedToRing(q, Entry(t, Min(avail, 0x4000)), f);
        SameParts(q, AddToQueue(q, t, avail, rate), f);
      }
    } else {
      AddedToWheel(q, t, Delay(q, avail, rate), f);
      WheelOnly(q, t, Delay(q, avail, rate));
      SameParts(q, AddToQueue(q, t, avail, rate), f);
    }
  }

  lemma WheelOnly(q: Qm, t: Token, delay: nat)
    requires Shaped(q)
    ensures var q' := AddToWheel(q, t, delay);
            q' == q.(counts := q'.counts, wheel := q'.wheel)
  {
  }

  /** The parts of a state that did not change hold the same flows. */
  lemma SameParts(q: Qm, q': Qm, f: FlowId)
    ensures q.ring == q'.ring && q.head == q'.head && q.tail == q'.tail ==> InRing(q, f) == InRing(q', f)
    ensures q.wheel == q'.wheel ==> InWheel(q, f) == InWheel(q', f)
    ensures q.hands == q'.hands ==> InHand(q, f) == InHand(q', f)
  {
  }

  /** What one thread's hand contributes. */
  lemma HandChange(q: Qm, i: nat, h: Hand, f: FlowId)
    requires i < |q.hands|
    ensures InHand(q.(hands := q.hands[i := h]), f) ==> InHand(q, f) || Holds(h, f)
    ensures Holds(h, f) ==> InHand(q.(hands := q.hands[i := h]), f)
    ensures InHand(q, f) ==> Holds(q.hands[i], f) || InHand(q.(hands := q.hands[i := h]), f)
  {
    var q' := q.(hands := q.hands[i := h]);
    if Holds(h, f) {
      assert Holds(q'.hands[i], f);
    }
    if InHand(q, f) {
      var j :| 0 <= j < |q.hands| && Holds(q.hands[j], f);
      if j != i {
        assert Holds(q'.hands[j], f);
      }
    }
  }

  lemma BumpStepsQueue(q: Qm, s: Step, f: FlowId)
    requires Shaped(q) && Enabled(q, s) && (s.PushBump? || s.TakeBump? || s.ReadBump?) && Queued(q, f)
    ensures Queued(Next(q, s), f)
  {
    hide Lists, InWheel, InRing, InHand, Queued;
    var q' := Next(q, s);
    SameParts(q, q', f);
    match s {
      case PushBump(k) =>
        ListsRemove(q.pushing, k, f);
        ListsAppend(q.bumps, q.pushing[k], f);
      case TakeBump =>
        ListsHead(q.bumps, f);
        HandChange(q, READER, q'.hands[READER], f);
      case ReadBump =>
        HandChange(q, READER, q'.hands[READER], f);
    }
    SameHands(q, q', f);
    QueuedParts(q, f);
    QueuedParts(q', f);
  }

  lemma QueuedParts(q: Qm, f: FlowId)
    ensures Queued(q, f) <==> Lists(q.pushing, f) || Lists(q.bumps, f) || Lists(q.fifo, f) || Lists(q.batch, f)
                              || InRing(q, f) || InWheel(q, f) || InHand(q, f)
  {
  }

  lemma SameHands(q: Qm, q': Qm, f: FlowId)
    ensures InHand(q', f) == InHand(q.(hands := q'.hands), f)
  {
  }

  lemma FifoStepsQueue(q: Qm, s: Step, f: FlowId)
    requires Shaped(q) && Enabled(q, s) && (s.FetchFifo? || s.TakeFifo?) && Queued(q, f)
    ensures Queued(Next(q, s), f)
  {
    hide Lists, InWheel, InRing, InHand, Queued;
    var q' := Next(q, s);
    SameParts(q, q', f);
    match s {
      case FetchFifo(n) =>
        ListsSplit(q.fifo, n, f);
        assert !Lists(q.batch, f) by { NoneListed(f); }
      case TakeFifo =>
        ListsHead(q.batch, f);
        HandChange(q, FIFO, q'.hands[FIFO], f);
    }
    SameHands(q, q', f);
    QueuedParts(q, f);
    QueuedParts(q', f);
  }

  lemma NoneListed(f: FlowId)
    ensures !Lists([], f)
  {
  }

  lemma RingHead(q: Qm, f: FlowId)
    requires Shaped(q) && q.head != q.tail
    ensures InRing(q, f) ==> q.ring[q.head].token.flow == f || InRing(q.(head := (q.head + 1) % LOCAL_SIZE), f)
  {
    if InRing(q, f) {
      var q' := q.(head := (q.head + 1) % LOCAL_SIZE);
      var i :| 0 <= i < |q.ring| && Occupied(q.head, q.tail, i) && q.ring[i].token.flow == f;
      if i != q.head {
        assert Occupied(q'.head, q'.tail, i);
      }
    }
  }

  lemma LocalStepQueues(q: Qm, f: FlowId)
    requires Shaped(q) && Enabled(q, TakeLocal) && Queued(q, f)
    ensures Queued(Next(q, TakeLocal), f)
  {
    hide Lists, InWheel, InRing, InHand, Queued;
    var q' := Next(q, TakeLocal);
    RingHead(q, f);
    SameParts(q, q', f);
    SameParts(q.(head := q'.head), q', f);
    HandChange(q, LOCAL, q'.hands[LOCAL], f);
    SameHands(q, q', f);
    QueuedParts(q, f);
    QueuedParts(q', f);
  }

  lemma WheelHead(q: Qm, f: FlowId)
    requires Shaped(q) && q.wheel[q.slot] != []
    ensures InWheel(q, f) ==>
              q.wheel[q.slot][0].token.flow == f || InWheel(q.(wheel := q.wheel[q.slot := q.wheel[q.slot][1..]]), f)
  {
    if InWheel(q, f) {
      var q' := q.(wheel := q.wheel[q.slot := q.wheel[q.slot][1..]]);
      var s :| 0 <= s < |q.wheel| && InSlot(q.wheel[s], f);
      var x :| x in q.wheel[s] && x.token.flow == f;
      if s != q.slot {
        assert InSlot(q'.wheel[s], f);
      } else if x != q.wheel[s][0] {
        assert x in q'.wheel[s];
        assert InSlot(q'.wheel[s], f);
      }
    }
  }

  lemma SlotStepQueues(q: Qm, i: nat, f: FlowId)
    requires Shaped(q) && Enabled(q, TakeSlot(i)) && Queued(q, f)
    ensures Queued(Next(q, TakeSlot(i)), f)
  {
    hide Lists, InWheel, InRing, InHand, Queued;
    var q' := Next(q, TakeSlot(i));
    SameParts(q, q', f);
    if q.wheel[q.slot] != [] {
      WheelHead(q, f);
      SameParts(q.(wheel := q'.wheel), q', f);
      HandChange(q, i, q'.hands[i], f);
    }
    SameHands(q, q', f);
    QueuedParts(q, f);
    QueuedParts(q', f);
  }

  lemma DispatchQueues(q: Qm, i: nat, f: FlowId)
    requires Shaped(q) && Enabled(q, Dispatch(i)) && Queued(q, f)
    requires Next(q, Dispatch(i)).avail[f] > 0
    ensures Queued(Next(q, Dispatch(i)), f)
  {
    hide Lists, InWheel, InRing, InHand, Queued;
    var q' := Next(q, Dispatch(i));
    SameParts(q, q', f);
    HandChange(q, i, q'.hands[i], f);
    SameHands(q, q', f);
    QueuedParts(q, f);
    QueuedParts(q', f);
  }

  lemma ReturnQueues(q: Qm, i: nat, rate: uint32, f: FlowId)
    requires Shaped(q) && Enabled(q, Return(i, rate)) && Queued(q, f)
    ensures Queued(Next(q, Return(i, rate)), f)
  {
    hide Lists, InWheel, InRing, InHand, Queued, AddToQueue;
    var h, q' := q.hands[i], q.(hands := q.hands[i := Idle]);
    SameParts(q, q', f);
    HandChange(q, i, Idle, f);
    QueuedParts(q, f);
    QueuedParts(q', f);
    if h.keep {
      AddQueues(q', h.token, h.rest, if i == LOCAL then 0 else rate, f);
    }
  }

  /** No step loses the last token of a flow that still has something to send. */
  lemma NextQueues(q: Qm, s: Step, f: FlowId)
    requires Shaped(q) && Enabled(q, s) && Queued(q, f) && f in Next(q, s).avail && Next(q, s).avail[f] > 0
    ensures Queued(Next(q, s), f)
  {
    match s
    case PushBump(_) => BumpStepsQueue(q, s, f);
    case TakeBump => BumpStepsQueue(q, s, f);
    case ReadBump => BumpStepsQueue(q, s, f);
    case TakeLocal => LocalStepQueues(q, f);
    case FetchFifo(_) => FifoStepsQueue(q, s, f);
    case TakeFifo => FifoStepsQueue(q, s, f);
    case TakeSlot(i) => SlotStepQueues(q, i, f);
    case Dispatch(i) => DispatchQueues(q, i, f);
    case Return(i, rate) => ReturnQueues(q, i, rate, f);
    case CloseSlot => SameParts(q, Next(q, s), f);
    case Advance => SameParts(q, Next(q, s), f);
  }

  lemma NextShaped(q: Qm, s: Step)
    requires Shaped(q) && Enabled(q, s)
    ensures Shaped(Next(q, s)) && (forall f: FlowId :: Next(q, s).avail[f] <= q.avail[f])
  {
    if s.Return? && q.hands[s.i].keep {
      var h := q.hands[s.i];
      AddQueues(q.(hands := q.hands[s.i := Idle]), h.token, h.rest, if s.i == LOCAL then 0 else s.rate, 1);
    }
  }

  lemma NextKeepsFlows(q: Qm, s: Step)
    requires NoneLost(q) && Enabled(q, s)
    ensures NoneLost(Next(q, s))
  {
    hide Queued, Next, Enabled;
    NextShaped(q, s);
    forall f: FlowId | Next(q, s).avail[f] > 0
      ensures Queued(Next(q, s), f)
    {
      NextQueues(q, s, f);
    }
  }

  lemma CreditKeepsFlows(q: Qm, t: Token, bump: nat)
    requires NoneLost(q)
    ensures NoneLost(Credit(q, t, bump))
  {
    hide Lists, InWheel, InRing, InHand;
    var q' := Credit(q, t, bump);
    forall f: FlowId | q'.avail[f] > 0
      ensures Queued(q', f)
    {
      ListsAppend(q.pushing, t, f);
      SameParts(q, q', f);
    }
  }

  // ------------------------------------------------------------------ calendar wheel

  /** Everything in slot `s` comes due when the wheel next stands there. */
  ghost predicate SlotOk(ts: seq<Timed>, s: nat, advances: nat) {
    forall t :: t in ts ==> t.due % SLOTS == s && advances <= t.due < advances + SLOTS
  }

  ghost predicate WheelOk(q: Qm) {
    && Shaped(q) && q.slot == q.advances % SLOTS
    && (forall s :: 0 <= s < SLOTS ==> q.counts[s] == |q.wheel[s]| && SlotOk(q.wheel[s], s, q.advances))
  }

  lemma AddedOnTime(q: Qm, t: Token, delay: nat)
    requires WheelOk(q) && delay < SLOTS
    ensures WheelOk(AddToWheel(q, t, delay))
  {
  }

  lemma AddKeepsWheel(q: Qm, t: Token, avail: int, rate: uint32)
    requires WheelOk(q)
    ensures WheelOk(AddToQueue(q, t, avail, rate))
  {
    hide AddToWheel, SlotOk;
    if rate != 0 {
      AddedOnTime(q, t, Delay(q, avail, rate));
    }
  }

  /** The wheel turns only when the slot it leaves is empty, so nothing is passed over. */
  lemma AdvanceKeepsWheel(q: Qm)
    requires WheelOk(q) && Enabled(q, Advance)
    ensures WheelOk(Next(q, Advance))
  {
    var q' := Next(q, Advance);
    assert q.wheel[q.slot] == [];
    forall s | 0 <= s < SLOTS
      ensures SlotOk(q'.wheel[s], s, q'.advances)
    {
      assert SlotOk(q.wheel[s], s, q.advances);
    }
  }

  lemma TakeKeepsWheel(q: Qm, i: nat)
    requires WheelOk(q) && Enabled(q, TakeSlot(i))
    ensures WheelOk(Next(q, TakeSlot(i)))
  {
    var q' := Next(q, TakeSlot(i));
    assert SlotOk(q.wheel[q.slot], q.slot, q.advances);
    assert forall t :: t in q.wheel[q.slot][1..] ==> t in q.wheel[q.slot];
  }

  lemma NextKeepsWheel(q: Qm, s: Step)
    requires WheelOk(q) && Enabled(q, s)
    ensures WheelOk(Next(q, s))
  {
    hide SlotOk, AddToQueue;
    match s
    case TakeSlot(i) => TakeKeepsWheel(q, i);
    case Advance => AdvanceKeepsWheel(q);
    case Return(i, rate) =>
      var h, q' := q.hands[i], q.(hands := q.hands[i := Idle]);
      if h.keep {
        AddKeepsWheel(q', h.token, h.rest, if i == LOCAL then 0 else rate);
      }
    case _ =>
  }

  /** What a wheel thread takes was placed exactly `due` advances after the start: a flow put
      `delay` slots ahead is released during that slot's visit, after `delay` advances. */
  lemma ReleasedOnTime(q: Qm, i: nat)
    requires WheelOk(q) && Enabled(q, TakeSlot(i))
    ensures q.wheel[q.slot] != [] && q.wheel[q.slot][0].due == q.advances
  {
    var t := q.wheel[q.slot][0];
    assert t in q.wheel[q.slot];
    assert t.due % SLOTS == q.advances % SLOTS && q.advances <= t.due < q.advances + SLOTS;
  }

  /** While the slot is closed it only drains, whatever is added meanwhile. */
  lemma ClosedSlotDrains(q: Qm, s: Step)
    requires Shaped(q) && Enabled(q, s) && q.skip == 1 && !s.Advance?
    ensures Next(q, s).slot == q.slot && Next(q, s).skip == 1
    ensures |Next(q, s).wheel[q.slot]| <= |q.wheel[q.slot]|
  {
    if s.Return? && q.hands[s.i].keep && (s.i != LOCAL && s.rate != 0) {
      var d := Delay(q, q.hands[s.i].rest, s.rate);
      assert 1 <= d < SLOTS;
      assert (q.slot + d) % SLOTS != q.slot;
    }
  }

  // ----------------------------------------------------------------- counters and copies

  /** The FIFO counter counts what is in the ring or fetched from it, and the local FIFO
      holds only flows with a full segment to send; so neither the counter nor an amount that
      goes back to a queue is below 0, although both are decreased without a test. */
  ghost predicate BooksOk(q: Qm) {
    && Shaped(q)
    && q.fifoCount == |q.fifo| + |q.batch|
    && (forall i :: 0 <= i < LOCAL_SIZE && Occupied(q.head, q.tail, i) ==> q.ring[i].avail >= TCP_MSS)
    && (q.hands[LOCAL].Taken? ==> q.hands[LOCAL].local >= TCP_MSS)
    && (forall i :: 0 <= i < THREADS && q.hands[i].Served? && q.hands[i].keep ==> q.hands[i].rest >= 0)
  }

  lemma NextKeepsBooks(q: Qm, s: Step)
    requires BooksOk(q) && Enabled(q, s)
    ensures BooksOk(Next(q, s))
  {
    hide Delay, AddToWheel;
    match s
    case Return(i, rate) =>
      var h, q' := q.hands[i], q.(hands := q.hands[i := Idle]);
      if h.keep {
        AddKeepsBooks(q', h.token, h.rest, if i == LOCAL then 0 else rate);
      }
    case _ => NextShaped(q, s);
  }

  lemma AddKeepsBooks(q: Qm, t: Token, avail: int, rate: uint32)
    requires BooksOk(q)
    ensures BooksOk(AddToQueue(q, t, avail, rate))
  {
    hide Delay, AddToWheel;
    if rate != 0 {
      AddedToWheel(q, t, Delay(q, avail, rate), 1);
      WheelOnly(q, t, Delay(q, avail, rate));
    }
  }

  // ---------------------------------------------------------------- all of it together

  ghost predicate Safe(q: Qm)
    ensures Safe(q) ==> Shaped(q)
  {
    NoneLost(q) && WheelOk(q) && BooksOk(q)
  }

  /** Every step of every thread keeps all three invariants. */
  lemma NextKeepsSafe(q: Qm, s: Step)
    requires Safe(q) && Enabled(q, s)
    ensures Safe(Next(q, s))
  {
    hide NoneLost, WheelOk, BooksOk, Next, Enabled;
    NextKeepsFlows(q, s);
    NextKeepsWheel(q, s);
    NextKeepsBooks(q, s);
  }

  lemma CreditKeepsSafe(q: Qm, t: Token, bump: nat)
    requires Safe(q)
    ensures Safe(Credit(q, t, bump)) && (bump > 0 ==> Queued(Credit(q, t, bump), t.flow))
  {
    hide Queued, SlotOk;
    CreditKeepsFlows(q, t, bump);
    assert bump > 0 ==> Credit(q, t, bump).avail[t.flow] > 0;
  }

  /** The scheduler before its first step: no flow has an amount, every queue is empty, and the
      local FIFO's memory contains anything. */
  function Fresh(avail: map<FlowId, nat>, ring: seq<Entry>): Qm {
    Qm(avail, multiset{}, [], [], [], 0, [], ring, 0, 0,
       seq(SLOTS, _ => []), seq(SLOTS, _ => 0), 0, 0, 0, seq(THREADS, _ => Idle))
  }

  lemma FreshSafe(avail: map<FlowId, nat>, ring: seq<Entry>)
    requires |ring| == LOCAL_SIZE && forall f: FlowId :: f in avail && avail[f] == 0
    ensures Safe(Fresh(avail, ring))
  {
    var q := Fresh(avail, ring);
    assert forall s :: 0 <= s < SLOTS ==> q.wheel[s] == [];
  }
}
