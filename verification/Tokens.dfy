/** The tokens of the transmit scheduler are neither lost nor doubled: their number changes only when
    an idle flow is credited and when a flow is served with nothing left. */
module Tokens {
  import opened Words
  import opened Flows
  import opened Scheduler
  import opened Sequences

  function OfToken(f: FlowId): Token -> nat {
    (t: Token) => if t.flow == f then 1 else 0
  }

  function OfEntry(f: FlowId): Entry -> nat {
    (e: Entry) => if e.token.flow == f then 1 else 0
  }

  function OfTimed(f: FlowId): Timed -> nat {
    (t: Timed) => if t.token.flow == f then 1 else 0
  }

  function OfHand(f: FlowId): Hand -> nat {
    (h: Hand) => if !h.Idle? && h.token.flow == f && (h.Served? ==> h.keep) then 1 else 0
  }

  ghost function OfSlot(f: FlowId): seq<Timed> -> nat {
    (ts: seq<Timed>) => Sum(ts, OfTimed(f))
  }

  /** All tokens of a flow: in the rings, the FIFO, the local FIFO, the wheel and the threads' hands. */
  ghost function Count(q: Qm, f: FlowId): nat
    requires Shaped(q)
  {
    Sum(q.pushing, OfToken(f)) + Sum(q.bumps, OfToken(f)) + Sum(q.fifo, OfToken(f)) + Sum(q.batch, OfToken(f))
    + Sum(LocalFifo(q), OfEntry(f)) + Sum(q.wheel, OfSlot(f)) + Sum(q.hands, OfHand(f))
  }

  /** Putting a token into a queue adds it once. */
  lemma AddCounts(q: Qm, t: Token, amount: nat, rate: uint32, f: FlowId)
    requires Shaped(q)
    ensures Shaped(AddToQueue(q, t, amount, rate))
    ensures Count(AddToQueue(q, t, amount, rate), f) == Count(q, f) + if t.flow == f then 1 else 0
  {
    hide AddToQueue, Sum, LocalFifo;
    AddQueues(q, t, amount, rate, f);
    var q' := AddToQueue(q, t, amount, rate);
    if rate == 0 {
      UnratedGoesToFifo(q, t, amount);
      SumAppend(q.fifo, t, OfToken(f));
      SumAppend(LocalFifo(q), Entry(t, Min(amount, 0x4000)), OfEntry(f));
      if !(amount < TCP_MSS || |LocalFifo(q)| == LOCAL_SIZE - 1) {
        assert q'.fifo == q.fifo;
      } else {
        SameLocal(q, q');
      }
    } else {
      RatedGoesToWheel(q, t, amount, rate, 0);
      var due: nat :| GrewBy(q, q', t, due);
      var at := (q.slot + (due - q.advances)) % SLOTS;
      SumUpdate(q.wheel, at, q.wheel[at] + [Timed(t, due)], OfSlot(f));
      SumAppend(q.wheel[at], Timed(t, due), OfTimed(f));
      SameLocal(q, q');
    }
  }

  lemma SameLocal(q: Qm, q': Qm)
    requires Shaped(q) && Shaped(q') && q.ring == q'.ring && q.head == q'.head && q.tail == q'.tail
    ensures LocalFifo(q) == LocalFifo(q')
  {
  }

  /** A step on the way from the handlers to the queues. */
  lemma BumpStepsCount(q: Qm, s: Step, f: FlowId)
    requires Shaped(q) && Enabled(q, s) && (s.PushBump? || s.TakeBump? || s.ReadBump?)
    ensures Shaped(Next(q, s)) && Count(Next(q, s), f) == Count(q, f)
  {
    hide Sum, LocalFifo;
    NextShaped(q, s);
    var q' := Next(q, s);
    SameLocal(q, q');
    match s
    case PushBump(k) =>
      SumCut(q.pushing, k, OfToken(f));
      SumAppend(q.bumps, q.pushing[k], OfToken(f));
    case TakeBump =>
      FirstCounts(q.bumps, f);
      SumUpdate(q.hands, READER, q'.hands[READER], OfHand(f));
    case ReadBump =>
      SumUpdate(q.hands, READER, q'.hands[READER], OfHand(f));
  }

  lemma FirstCounts(ts: seq<Token>, f: FlowId)
    requires ts != []
    ensures Sum(ts, OfToken(f)) == OfToken(f)(ts[0]) + Sum(ts[1..], OfToken(f))
  {
  }

  lemma FifoStepsCount(q: Qm, s: Step, f: FlowId)
    requires Shaped(q) && Enabled(q, s) && (s.FetchFifo? || s.TakeFifo? || s.TakeLocal?)
    ensures Shaped(Next(q, s)) && Count(Next(q, s), f) == Count(q, f)
  {
    hide Sum, LocalFifo;
    NextShaped(q, s);
    var q' := Next(q, s);
    match s
    case FetchFifo(n) =>
      SameLocal(q, q');
      SumConcat(q.fifo[..n], q.fifo[n..], OfToken(f));
      assert q.fifo == q.fifo[..n] + q.fifo[n..];
      NoneCounts(f);
    case TakeFifo =>
      SameLocal(q, q');
      FirstCounts(q.batch, f);
      SumUpdate(q.hands, FIFO, q'.hands[FIFO], OfHand(f));
    case TakeLocal =>
      LocalTakesFirst(q);
      FirstEntryCounts(LocalFifo(q), f);
      SumUpdate(q.hands, LOCAL, q'.hands[LOCAL], OfHand(f));
  }

  lemma NoneCounts(f: FlowId)
    ensures Sum([], OfToken(f)) == 0
  {
  }

  lemma FirstEntryCounts(es: seq<Entry>, f: FlowId)
    requires es != []
    ensures Sum(es, OfEntry(f)) == OfEntry(f)(es[0]) + Sum(es[1..], OfEntry(f))
  {
  }

  lemma FirstTimedCounts(ts: seq<Timed>, f: FlowId)
    requires ts != []
    ensures Sum(ts, OfTimed(f)) == OfTimed(f)(ts[0]) + Sum(ts[1..], OfTimed(f))
  {
  }

  lemma SlotStepCounts(q: Qm, i: nat, f: FlowId)
    requires Shaped(q) && Enabled(q, TakeSlot(i))
    ensures Shaped(Next(q, TakeSlot(i))) && Count(Next(q, TakeSlot(i)), f) == Count(q, f)
  {
    hide Sum, LocalFifo;
    NextShaped(q, TakeSlot(i));
    var q' := Next(q, TakeSlot(i));
    SameLocal(q, q');
    if q.wheel[q.slot] != [] {
      FirstTimedCounts(q.wheel[q.slot], f);
      SumUpdate(q.wheel, q.slot, q.wheel[q.slot][1..], OfSlot(f));
      SumUpdate(q.hands, i, q'.hands[i], OfHand(f));
    }
  }

  /** What serving a flow does: one item is issued, one segment comes off the amount, saturating; the
      FIFO and the wheel keep the token exactly if an amount is left, and remember that amount; the
      local FIFO keeps it in any case, without its group, and goes by its own copy. */
  lemma ServedExactly(q: Qm, i: nat)
    requires Shaped(q) && Enabled(q, Dispatch(i))
    ensures var q', t := Next(q, Dispatch(i)), q.hands[i].token;
            && q' == q.(issued := q'.issued, avail := q'.avail, hands := q'.hands)
            && q'.issued == q.issued + multiset{t.flow}
            && q'.avail == q.avail[t.flow := if q.avail[t.flow] <= TCP_MSS then 0 else q.avail[t.flow] - TCP_MSS]
            && (forall j :: 0 <= j < THREADS && j != i ==> q'.hands[j] == q.hands[j])
            && q'.hands[i].Served?
            && (i == LOCAL ==> q'.hands[i] == Served(Token(t.flow, 0), q.hands[i].local - TCP_MSS, true))
            && (i != LOCAL ==> q'.hands[i].token == t && (q'.hands[i].keep <==> q'.avail[t.flow] > 0)
                               && (q'.hands[i].keep ==> q'.hands[i].rest == q'.avail[t.flow]))
  {
  }

  lemma DispatchCounts(q: Qm, i: nat, f: FlowId)
    requires Shaped(q) && Enabled(q, Dispatch(i))
    ensures Shaped(Next(q, Dispatch(i)))
    ensures Count(Next(q, Dispatch(i)), f) ==
            Count(q, f) - if q.hands[i].token.flow == f && i != LOCAL && Next(q, Dispatch(i)).avail[f] == 0 then 1 else 0
  {
    hide Sum, LocalFifo;
    NextShaped(q, Dispatch(i));
    var q' := Next(q, Dispatch(i));
    SameLocal(q, q');
    SumUpdate(q.hands, i, q'.hands[i], OfHand(f));
  }

  lemma ReturnCounts(q: Qm, i: nat, rate: uint32, f: FlowId)
    requires Shaped(q) && Enabled(q, Return(i, rate)) && (q.hands[i].keep ==> q.hands[i].rest >= 0)
    ensures Shaped(Next(q, Return(i, rate))) && Count(Next(q, Return(i, rate)), f) == Count(q, f)
  {
    hide Sum, LocalFifo, AddToQueue;
    NextShaped(q, Return(i, rate));
    var h, q' := q.hands[i], q.(hands := q.hands[i := Idle]);
    SumUpdate(q.hands, i, Idle, OfHand(f));
    SameLocal(q, q');
    if h.keep {
      AddCounts(q', h.token, h.rest, if i == LOCAL then 0 else rate, f);
    }
  }

  /** Crediting an idle flow adds one token, crediting any other none. */
  lemma CreditCounts(q: Qm, t: Token, bump: nat, f: FlowId)
    requires Shaped(q)
    ensures Shaped(Credit(q, t, bump))
    ensures Credit(q, t, bump).avail == q.avail[t.flow := q.avail[t.flow] + bump]
    ensures Count(Credit(q, t, bump), f) == Count(q, f) + if t.flow == f && q.avail[f] == 0 then 1 else 0
  {
    hide Sum, LocalFifo;
    SameLocal(q, Credit(q, t, bump));
    SumAppend(q.pushing, t, OfToken(f));
  }

  /** Every step of every thread conserves every flow's tokens, except that a flow served with
      nothing left gives one up. */
  lemma NextCounts(q: Qm, s: Step, f: FlowId)
    requires Safe(q) && Enabled(q, s)
    ensures Shaped(Next(q, s))
    ensures Count(Next(q, s), f) ==
            Count(q, f) - if s.Dispatch? && s.i != LOCAL && q.hands[s.i].token.flow == f && Next(q, s).avail[f] == 0 then 1 else 0
  {
    hide Count, Next;
    NextShaped(q, s);
    match s
    case PushBump(_) => BumpStepsCount(q, s, f);
    case TakeBump => BumpStepsCount(q, s, f);
    case ReadBump => BumpStepsCount(q, s, f);
    case TakeLocal => FifoStepsCount(q, s, f);
    case FetchFifo(_) => FifoStepsCount(q, s, f);
    case TakeFifo => FifoStepsCount(q, s, f);
    case TakeSlot(i) => SlotStepCounts(q, i, f);
    case Dispatch(i) => DispatchCounts(q, i, f);
    case Return(i, rate) => ReturnCounts(q, i, rate, f);
    case CloseSlot => TurnCounts(q, s, f);
    case Advance => TurnCounts(q, s, f);
  }

  /** Turning the wheel touches no token; leaving a slot opens the next one. */
  lemma TurnCounts(q: Qm, s: Step, f: FlowId)
    requires Shaped(q) && Enabled(q, s) && (s.CloseSlot? || s.Advance?)
    ensures Shaped(Next(q, s)) && Count(Next(q, s), f) == Count(q, f)
    ensures s.CloseSlot? ==> Next(q, s) == q.(skip := 1)
    ensures s.Advance? ==> Next(q, s).skip == 0 && Next(q, s).slot == if q.slot == SLOTS - 1 then 0 else q.slot + 1
  {
    hide Sum, LocalFifo;
    SameLocal(q, Next(q, s));
  }
}
