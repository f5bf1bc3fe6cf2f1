/** The scheduler's shared variables and the code of its threads, one method per stretch
    between two swap points.  Every stretch keeps the scheduler's invariants, and with them
    the decrements that the code makes without a test are safe. */
module QueueManagers {
  import opened Words
  import opened Flows
  import opened Scheduler

  // ---------------------------------------------------- stretches as sequences of steps

  /** The thread that moves bumps takes one and reads the flow's amount. */
  ghost function BumpTaken(q: Qm): Qm
    requires Shaped(q) && Enabled(q, TakeBump)
  {
    Next(Next(q, TakeBump), ReadBump)
  }

  /** The thread of the local FIFO takes a flow, serves it and puts it back. */
  ghost function LocalServed(q: Qm): Qm
    requires Shaped(q) && Enabled(q, TakeLocal)
  {
    Next(Next(Next(q, TakeLocal), Dispatch(LOCAL)), Return(LOCAL, 0))
  }

  /** The thread of the FIFO takes a flow it has fetched and serves it. */
  ghost function FifoServed(q: Qm): Qm
    requires Shaped(q) && Enabled(q, TakeFifo)
  {
    Next(Next(q, TakeFifo), Dispatch(FIFO))
  }

  lemma BumpTakenIs(q: Qm)
    requires Shaped(q) && Enabled(q, TakeBump)
    ensures var t := q.bumps[0];
            BumpTaken(q) == q.(bumps := q.bumps[1..], hands := q.hands[READER := Served(t, q.avail[t.flow], true)])
  {
    var h := Taken(q.bumps[0], 0);
    assert q.hands[READER := h][READER := BumpTaken(q).hands[READER]] == q.hands[READER := BumpTaken(q).hands[READER]];
  }

  lemma LocalServedIs(q: Qm)
    requires Shaped(q) && Enabled(q, TakeLocal)
    ensures var e := q.ring[q.head];
            var f := e.token.flow;
            LocalServed(q) == AddToQueue(q.(head := (q.head + 1) % LOCAL_SIZE, issued := q.issued + multiset{f},
                                            avail := q.avail[f := Max(0, q.avail[f] - TCP_MSS)]),
                                         Token(f, 0), e.avail - TCP_MSS, 0)
  {
    hide AddToQueue;
    var q2 := Next(Next(q, TakeLocal), Dispatch(LOCAL));
    assert q2.hands[LOCAL := Idle] == q.hands;
  }

  lemma FifoServedIs(q: Qm)
    requires Shaped(q) && Enabled(q, TakeFifo)
    ensures var t := q.batch[0];
            var before := q.avail[t.flow];
            FifoServed(q) == q.(fifoCount := q.fifoCount - 1, batch := q.batch[1..], issued := q.issued + multiset{t.flow},
                                avail := q.avail[t.flow := Max(0, before - TCP_MSS)],
                                hands := q.hands[FIFO := Served(t, before - TCP_MSS, before > TCP_MSS)])
  {
    var h := FifoServed(q).hands[FIFO];
    assert q.hands[FIFO := Taken(q.batch[0], 0)][FIFO := h] == q.hands[FIFO := h];
  }

  lemma BumpTakenSafe(q: Qm)
    requires Safe(q) && Enabled(q, TakeBump)
    ensures Safe(BumpTaken(q)) && Queued(BumpTaken(q), q.bumps[0].flow)
  {
    hide Safe;
    NextKeepsSafe(q, TakeBump);
    NextKeepsSafe(Next(q, TakeBump), ReadBump);
    assert Holds(BumpTaken(q).hands[READER], q.bumps[0].flow);
  }

  /** What the local FIFO holds covers a whole segment, and a served flow is queued again. */
  lemma LocalServedSafe(q: Qm)
    requires Safe(q) && Enabled(q, TakeLocal)
    ensures q.ring[q.head].avail >= TCP_MSS
    ensures Safe(LocalServed(q)) && Queued(LocalServed(q), q.ring[q.head].token.flow)
  {
    hide Safe, NoneLost, WheelOk, BooksOk, Queued, AddToQueue;
    var q1 := Next(q, TakeLocal);
    NextKeepsSafe(q, TakeLocal);
    var q2 := Next(q1, Dispatch(LOCAL));
    NextKeepsSafe(q1, Dispatch(LOCAL));
    NextKeepsSafe(q2, Return(LOCAL, 0));
    LocalHolds(q1);
    NextShaped(q1, Dispatch(LOCAL));
    AddQueues(q2.(hands := q2.hands[LOCAL := Idle]), q2.hands[LOCAL].token, q2.hands[LOCAL].rest, 0, q.ring[q.head].token.flow);
  }

  lemma LocalHolds(q: Qm)
    requires Safe(q) && q.hands[LOCAL].Taken?
    ensures q.hands[LOCAL].local >= TCP_MSS
  {
  }

  /** Something fetched is counted. */
  lemma FifoServedSafe(q: Qm)
    requires Safe(q) && Enabled(q, TakeFifo)
    ensures q.fifoCount > 0 && Safe(FifoServed(q))
  {
    hide NoneLost, WheelOk;
    NextKeepsSafe(q, TakeFifo);
    NextKeepsSafe(Next(q, TakeFifo), Dispatch(FIFO));
  }

  lemma Counted(q: Qm)
    requires Safe(q)
    ensures q.fifoCount == |q.fifo| + |q.batch|
  {
  }

  /** A token that is put back is in a queue afterwards. */
  lemma ReturnedSafe(q: Qm, i: nat, rate: uint32)
    requires Safe(q) && Enabled(q, Return(i, rate))
    ensures Safe(Next(q, Return(i, rate)))
    ensures q.hands[i].keep ==> q.hands[i].rest >= 0 && Queued(Next(q, Return(i, rate)), q.hands[i].token.flow)
  {
    hide NoneLost, WheelOk, Queued, AddToQueue;
    NextKeepsSafe(q, Return(i, rate));
    var h := q.hands[i];
    AddQueues(q.(hands := q.hands[i := Idle]), h.token, h.rest, if i == LOCAL then 0 else rate, h.token.flow);
  }

  /** What the next schedule of a thread is to be, in a run of the whole scheduler. */
  datatype Choice =
    | Credited(token: Token, bump: nat)
    | Pushed(k: nat)
    | PolledBumps
    | PolledLocal
    | Fetched(n: nat)
    | PolledFifo
    | PolledSlot(i: nat)
    | ServedSlot(i: nat)
    | Returned(i: nat, rate: uint32)
    | SelectedSlot

  /** The stretch that a choice stands for, if the thread's code would go on. */
  ghost predicate Ready(q: Qm, c: Choice)
    requires Shaped(q)
  {
    match c
    case Credited(_, _) => true
    case Pushed(k) => k < |q.pushing|
    case PolledBumps => q.hands[READER].Idle? && q.bumps != []
    case PolledLocal => q.hands[LOCAL].Idle? && q.head != q.tail
    case Fetched(n) => q.hands[FIFO].Idle? && q.batch == [] && q.fifoCount != 0 && n <= Min(4, |q.fifo|)
    case PolledFifo => q.hands[FIFO].Idle? && q.batch != []
    case PolledSlot(i) => FIRST_WHEEL <= i < THREADS && q.hands[i].Idle? && q.counts[q.slot] != 0
    case ServedSlot(i) => FIRST_WHEEL <= i < THREADS && q.hands[i].Taken?
    case Returned(i, _) => i < THREADS && i != LOCAL && q.hands[i].Served?
    case SelectedSlot => true
  }

  /** What the chosen stretch does, as steps of the scheduler. */
  ghost function Stretch(q: Qm, c: Choice): Qm
    requires Shaped(q)
  {
    if !Ready(q, c) then q
    else match c
      case Credited(t, bump) => Credit(q, t, bump)
      case Pushed(k) => Next(q, PushBump(k))
      case PolledBumps => BumpTaken(q)
      case PolledLocal => LocalServed(q)
      case Fetched(n) => Next(q, FetchFifo(n))
      case PolledFifo => FifoServed(q)
      case PolledSlot(i) => Next(q, TakeSlot(i))
      case ServedSlot(i) => Next(q, Dispatch(i))
      case Returned(i, rate) => Next(q, Return(i, rate))
      case SelectedSlot => if Enabled(q, Advance) then Next(q, Advance) else Next(q, CloseSlot)
  }

  /** Every stretch of every thread keeps the invariants. */
  lemma StretchSafe(q: Qm, c: Choice)
    requires Safe(q)
    ensures Safe(Stretch(q, c))
  {
    hide Safe, Next, Credit, BumpTaken, LocalServed, FifoServed, Queued;
    if Ready(q, c) {
      match c
      case Credited(t, bump) => CreditKeepsSafe(q, t, bump);
      case Pushed(k) => NextKeepsSafe(q, PushBump(k));
      case PolledBumps => BumpTakenSafe(q);
      case PolledLocal => LocalServedSafe(q);
      case Fetched(n) => NextKeepsSafe(q, FetchFifo(n));
      case PolledFifo => FifoServedSafe(q);
      case PolledSlot(i) => NextKeepsSafe(q, TakeSlot(i));
      case ServedSlot(i) => NextKeepsSafe(q, Dispatch(i));
      case Returned(i, rate) => NextKeepsSafe(q, Return(i, rate));
      case SelectedSlot => NextKeepsSafe(q, if Enabled(q, Advance) then Advance else CloseSlot);
    }
  }

  ghost function Stretches(q: Qm, cs: seq<Choice>): Qm
    requires Safe(q)
    decreases |cs|
  {
    if cs == [] then q else StretchSafe(q, cs[0]); Stretches(Stretch(q, cs[0]), cs[1..])
  }

  class QueueManager {
    var avail: map<FlowId, nat>
    var issued: multiset<FlowId>
    var pushing: seq<Token>
    var bumps: seq<Token>
    var fifo: seq<Token>
    var fifoCount: nat
    var batch: seq<Token>
    var ring: seq<Entry>
    var head: nat
    var tail: nat
    var wheel: seq<seq<Timed>>
    var counts: seq<nat>
    var slot: nat
    var skip: nat
    var advances: nat    // bookkeeping of the model: how often the wheel has turned
    var hands: seq<Hand>

    ghost function State(): Qm
      reads this
    {
      Qm(avail, issued, pushing, bumps, fifo, fifoCount, batch, ring, head, tail,
         wheel, counts, slot, skip, advances, hands)
    }

    /** No flow is lost, the wheel is on time, and the counters are right. */
    ghost predicate Valid()
      reads this
    {
      Safe(State())
    }

    /** What the first thread sets up before it lets the others start; `flows` are all flow ids. */
    constructor (flows: set<FlowId>, ring: seq<Entry>)
      requires |ring| == LOCAL_SIZE && forall f: FlowId :: f in flows
      ensures Valid() && (forall f: FlowId :: f in avail && avail[f] == 0) && State() == Fresh(avail, ring)
    {
      avail := map f | f in flows :: 0;
      issued, pushing, bumps := multiset{}, [], [];
      fifo, fifoCount, batch := [], 0, [];
      this.ring, head, tail := ring, 0, 0;
      wheel, counts := seq(SLOTS, _ => []), seq(SLOTS, _ => 0);
      slot, skip, advances := 0, 0, 0;
      hands := seq(THREADS, _ => Idle);
      new;
      FreshSafe(avail, ring);
    }

    /** Post-processing adds a handler's report to the flow's amount.  A flow with an amount is
        queued from here on. */
    method PushQmBump(t: Token, bump: nat)
      requires Valid()
      modifies `avail, `pushing
      ensures Valid() && State() == Credit(old(State()), t, bump)
      ensures bump > 0 ==> Queued(State(), t.flow)
    {
      hide Safe, Queued;
      CreditKeepsSafe(State(), t, bump);
      var before := avail[t.flow];
      avail := avail[t.flow := before + bump];
      if before == 0 {
        pushing := pushing + [t];
      }
    }

    /** The token reaches the bump ring. */
    method PushBumpStretch(k: nat)
      requires Valid() && k < |pushing|
      modifies `pushing, `bumps
      ensures Valid() && State() == Next(old(State()), PushBump(k))
      ensures multiset(pushing) + multiset(bumps) == multiset(old(pushing)) + multiset(old(bumps))
    {
      hide Safe;
      NextKeepsSafe(State(), PushBump(k));
      assert pushing == pushing[..k] + [pushing[k]] + pushing[k + 1..];
      bumps := bumps + [pushing[k]];
      pushing := pushing[..k] + pushing[k + 1..];
    }

    method FlowAddToQueue(t: Token, amount: nat, rate: uint32)
      requires Shaped(State())
      modifies `fifo, `fifoCount, `ring, `tail, `wheel, `counts
      ensures State() == AddToQueue(old(State()), t, amount, rate)
    {
      hide AddToWheel;
      if rate == 0 {
        var newTail := (tail + 1) % LOCAL_SIZE;
        if amount < TCP_MSS || head == newTail {
          fifoCount := fifoCount + 1;
          fifo := fifo + [t];
        } else {
          ring := ring[tail := Entry(t, Min(amount, 0x4000))];
          tail := newTail;
        }
      } else {
        var chunk := Min(TCP_MSS, amount);
        var ts := Wrap(rate * chunk) / 1024;
        var ahead := ts / 256 + skip;
        if ahead >= SLOTS {
          ahead := SLOTS - 1;
        }
        AddToSlot(t, ahead);
      }
    }

    method AddToSlot(t: Token, ahead: nat)
      requires Shaped(State())
      modifies `wheel, `counts
      ensures State() == AddToWheel(old(State()), t, ahead)
    {
      var at := (slot + ahead) % SLOTS;
      counts := counts[at := counts[at] + 1];
      wheel := wheel[at := wheel[at] + [Timed(t, advances + ahead)]];
    }

    /** The thread that moves bumps, up to its wait for the flow's amount: the flow stays queued
        in the thread's hand. */
    method BumpStretch()
      requires Valid() && hands[READER].Idle? && bumps != []
      modifies `bumps, `hands
      ensures Valid() && State() == BumpTaken(old(State()))
      ensures Queued(State(), old(bumps)[0].flow)
    {
      hide Safe, BumpTaken, Queued;
      BumpTakenIs(State());
      BumpTakenSafe(State());
      var t := bumps[0];
      bumps := bumps[1..];
      hands := hands[READER := Served(t, avail[t.flow], true)];
    }

    /** The thread of the local FIFO runs without a swap from taking a flow to putting it back.
        The amount it subtracts from always covers the segment. */
    method LocalFifoStretch() returns (flow: FlowId)
      requires Valid() && hands[LOCAL].Idle? && head != tail
      modifies `head, `issued, `avail, `fifo, `fifoCount, `ring, `tail, `wheel, `counts
      ensures Valid() && State() == LocalServed(old(State()))
      ensures flow == old(ring[head]).token.flow && Queued(State(), flow)
      ensures issued == old(issued) + multiset{flow} && avail[flow] == Max(0, old(avail[flow]) - TCP_MSS)
    {
      hide Safe, AddToQueue, Queued, LocalServed;
      LocalServedIs(State());
      LocalServedSafe(State());
      var e := ring[head];
      head := (head + 1) % LOCAL_SIZE;
      flow := e.token.flow;
      issued := issued + multiset{flow};
      avail := avail[flow := Max(0, avail[flow] - TCP_MSS)];
      var left: nat := e.avail - TCP_MSS;
      FlowAddToQueue(Token(flow, 0), left, 0);
    }

    /** Fetch up to four flows from the FIFO. */
    method FetchFifoStretch(n: nat)
      requires Valid() && hands[FIFO].Idle? && batch == [] && fifoCount != 0 && n <= Min(4, |fifo|)
      modifies `fifo, `batch
      ensures Valid() && State() == Next(old(State()), FetchFifo(n))
      ensures batch + fifo == old(fifo) && fifoCount == |batch| + |fifo|
    {
      hide Safe;
      NextKeepsSafe(State(), FetchFifo(n));
      Counted(Next(State(), FetchFifo(n)));
      batch := fifo[..n];
      fifo := fifo[n..];
    }

    /** Serve a fetched flow, up to the wait for its former amount.  The counter is positive,
        without a test. */
    method FifoStretch() returns (flow: FlowId)
      requires Valid() && hands[FIFO].Idle? && batch != []
      modifies `fifoCount, `batch, `hands, `issued, `avail
      ensures Valid() && State() == FifoServed(old(State()))
      ensures flow == old(batch)[0].flow && fifoCount == |batch| + |fifo|
      ensures hands[FIFO].Served? && (hands[FIFO].keep <==> avail[flow] > 0)
      ensures issued == old(issued) + multiset{flow} && avail[flow] == Max(0, old(avail[flow]) - TCP_MSS)
    {
      hide Safe, FifoServed;
      FifoServedIs(State());
      FifoServedSafe(State());
      Counted(FifoServed(State()));
      var t := batch[0];
      flow := t.flow;
      var before := avail[flow];
      fifoCount, batch, issued := fifoCount - 1, batch[1..], issued + multiset{flow};
      avail := avail[flow := Max(0, before - TCP_MSS)];
      hands := hands[FIFO := Served(t, before - TCP_MSS, before > TCP_MSS)];
    }

    /** A wheel thread takes a flow from the current slot.  The slot's ring is not empty when its
        counter says so, and what it holds is due exactly now. */
    method TakeSlotStretch(i: nat)
      requires Valid() && FIRST_WHEEL <= i < THREADS && hands[i].Idle? && counts[slot] != 0
      modifies `counts, `wheel, `hands
      ensures Valid() && State() == Next(old(State()), TakeSlot(i))
      ensures old(wheel[slot]) != [] && old(wheel[slot])[0].due == advances
      ensures hands == old(hands)[i := Taken(old(wheel[slot])[0].token, 0)]
    {
      hide Safe, WheelOk;
      NextKeepsSafe(State(), TakeSlot(i));
      assert WheelOk(State()) by { SafeWheel(State()); }
      ReleasedOnTime(State(), i);
      counts := counts[slot := counts[slot] - 1];
      if wheel[slot] == [] {
        assert false;  // the code goes on to its next round here
      }
      var t := wheel[slot][0].token;
      wheel := wheel[slot := wheel[slot][1..]];
      hands := hands[i := Taken(t, 0)];
    }

    static lemma SafeWheel(q: Qm)
      requires Safe(q)
      ensures WheelOk(q)
    {
    }

    /** A wheel thread serves the flow it took, up to the wait for its former amount. */
    method ServeSlotStretch(i: nat) returns (flow: FlowId)
      requires Valid() && FIRST_WHEEL <= i < THREADS && hands[i].Taken?
      modifies `issued, `avail, `hands
      ensures Valid() && State() == Next(old(State()), Dispatch(i))
      ensures flow == old(hands[i]).token.flow
      ensures hands[i].Served? && (hands[i].keep <==> avail[flow] > 0)
      ensures issued == old(issued) + multiset{flow} && avail[flow] == Max(0, old(avail[flow]) - TCP_MSS)
    {
      hide Safe;
      NextKeepsSafe(State(), Dispatch(i));
      var t := hands[i].token;
      flow := t.flow;
      issued := issued + multiset{flow};
      var before := avail[flow];
      avail := avail[flow := Max(0, before - TCP_MSS)];
      hands := hands[i := Served(t, before - TCP_MSS, before > TCP_MSS)];
    }

    /** A thread puts the flow it holds back, if there is more to send: it is queued again. */
    method ReturnStretch(i: nat, rate: uint32)
      requires Valid() && i < THREADS && i != LOCAL && hands[i].Served?
      modifies `fifo, `fifoCount, `ring, `tail, `wheel, `counts, `hands
      ensures Valid() && State() == Next(old(State()), Return(i, rate))
      ensures hands == old(hands)[i := Idle] && (old(hands[i]).keep ==> Queued(State(), old(hands[i]).token.flow))
    {
      hide Safe, AddToQueue, Queued;
      ReturnedSafe(State(), i, rate);
      var h := hands[i];
      hands := hands[i := Idle];
      if h.keep {
        FlowAddToQueue(h.token, h.rest, rate);
      }
    }

    /** The thread that turns the wheel closes the slot, and leaves it once it is empty. */
    method SelectSlotStretch()
      requires Valid()
      modifies `slot, `skip, `advances
      ensures Valid()
      ensures State() == if Enabled(old(State()), Advance)
                         then Next(old(State()), Advance) else Next(old(State()), CloseSlot)
      ensures advances != old(advances) ==> old(slot) < |wheel| && wheel[old(slot)] == []
      ensures if old(skip) == 1 && old(counts[slot]) == 0
              then slot == (if old(slot) == SLOTS - 1 then 0 else old(slot) + 1) && skip == 0 && advances == old(advances) + 1
              else slot == old(slot) && skip == 1 && advances == old(advances)
    {
      hide Safe, WheelOk;
      ghost var q := State();
      SlotEmpty(q);
      if skip == 1 && counts[slot] == 0 {
        NextKeepsSafe(q, Advance);
        slot, advances, skip := (slot + 1) % SLOTS, advances + 1, 0;
      } else {
        NextKeepsSafe(q, CloseSlot);
        skip := 1;
      }
    }

    static lemma SlotEmpty(q: Qm)
      requires Safe(q)
      ensures Shaped(q) && (q.counts[q.slot] == 0 ==> q.wheel[q.slot] == [])
    {
    }

    /** A stretch on the way from the handlers to the queues. */
    method RunBumpStretch(c: Choice)
      requires Valid() && (c.Credited? || c.Pushed? || c.PolledBumps? || c.SelectedSlot?)
      modifies this
      ensures Valid() && State() == Stretch(old(State()), c)
    {
      hide Safe, Next, Credit, BumpTaken, LocalServed, FifoServed, Queued, AddToQueue;
      match c
      case Credited(t, bump) =>
        PushQmBump(t, bump);
      case Pushed(k) =>
        if k < |pushing| { PushBumpStretch(k); }
      case PolledBumps =>
        if hands[READER].Idle? && bumps != [] { BumpStretch(); }
      case SelectedSlot =>
        SelectSlotStretch();
    }

    /** A stretch of the threads of the two FIFOs. */
    method RunFifoStretch(c: Choice)
      requires Valid() && (c.PolledLocal? || c.Fetched? || c.PolledFifo?)
      modifies this
      ensures Valid() && State() == Stretch(old(State()), c)
    {
      hide Safe, Next, Credit, BumpTaken, LocalServed, FifoServed, Queued, AddToQueue;
      match c
      case PolledLocal =>
        if hands[LOCAL].Idle? && head != tail { var _ := LocalFifoStretch(); }
      case Fetched(n) =>
        if hands[FIFO].Idle? && batch == [] && fifoCount != 0 && n <= Min(4, |fifo|) { FetchFifoStretch(n); }
      case PolledFifo =>
        if hands[FIFO].Idle? && batch != [] { var _ := FifoStretch(); }
    }

    /** A stretch of a wheel thread, or of any thread that puts a flow back. */
    method RunWheelStretch(c: Choice)
      requires Valid() && (c.PolledSlot? || c.ServedSlot? || c.Returned?)
      modifies this
      ensures Valid() && State() == Stretch(old(State()), c)
    {
      hide Safe, Next, Credit, BumpTaken, LocalServed, FifoServed, Queued, AddToQueue;
      match c
      case PolledSlot(i) =>
        if FIRST_WHEEL <= i < THREADS && hands[i].Idle? && counts[slot] != 0 { TakeSlotStretch(i); }
      case ServedSlot(i) =>
        if FIRST_WHEEL <= i < THREADS && hands[i].Taken? { var _ := ServeSlotStretch(i); }
      case Returned(i, rate) =>
        if i < THREADS && i != LOCAL && hands[i].Served? { ReturnStretch(i, rate); }
    }

    /** One stretch of whichever thread is chosen, if its code would go on. */
    method RunStretch(c: Choice)
      requires Valid()
      modifies this
      ensures Valid() && State() == Stretch(old(State()), c)
    {
      hide Safe, Stretch;
      if c.PolledLocal? || c.Fetched? || c.PolledFifo? {
        RunFifoStretch(c);
      } else if c.PolledSlot? || c.ServedSlot? || c.Returned? {
        RunWheelStretch(c);
      } else {
        RunBumpStretch(c);
      }
    }

    /** Any interleaving of the threads' code does what the steps of the scheduler do, and no flow
        with an amount is ever without a token. */
    method Interleave(cs: seq<Choice>)
      requires Valid()
      modifies this
      ensures Valid() && State() == Stretches(old(State()), cs)
      ensures forall f: FlowId :: avail[f] > 0 ==> Queued(State(), f)
    {
      hide Safe, Queued, Stretch;
      var i := 0;
      while i < |cs|
        invariant 0 <= i <= |cs| && Valid()
        invariant Stretches(State(), cs[i..]) == Stretches(old(State()), cs)
      {
        assert cs[i..][0] == cs[i] && cs[i..][1..] == cs[i + 1..];
        RunStretch(cs[i]);
        i := i + 1;
      }
      assert cs[i..] == [];
      AllQueued(State());
    }

    static lemma AllQueued(q: Qm)
      requires Safe(q)
      ensures Shaped(q) && forall f: FlowId :: q.avail[f] > 0 ==> Queued(q, f)
    {
      hide Queued;
    }
  }
}
