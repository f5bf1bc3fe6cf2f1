/** Handlers, post-processing and scheduler together: the amount a flow could send is always
    accounted for somewhere between the flow record and the processing of a transmit item. */
module DataPath {
  import opened Words
  import opened Flows
  import opened Scheduler

  /** A growth that a handler reported and post-processing has not delivered yet. */
  datatype Bump = Bump(flow: FlowId, amount: nat)

  datatype Path = Path(qm: Qm, flows: map<FlowId, FlowTcp>, undelivered: seq<Bump>)

  datatype Event =
    | Work(flow: FlowId, work: Flows.Work)   // a packet, an application bump, a timer, a forced send
    | Transmitted(flow: FlowId)              // one issued transmit item reaches the handler
    | Deliver(k: nat, grp: nat)              // post-processing credits the queue manager
    | Schedule(step: Scheduler.Step)

  ghost predicate Shape(p: Path) {
    Shaped(p.qm) && forall f: FlowId :: f in p.flows
  }

  ghost predicate Possible(p: Path, e: Event)
    requires Shape(p)
  {
    match e
    case Work(_, w) => ValidWork(w) && (w.TxWork? ==> w.force)
    case Transmitted(f) => f in p.qm.issued
    case Deliver(k, _) => k < |p.undelivered|
    case Schedule(s) => Enabled(p.qm, s)
  }

  function Reported(f: FlowId, r: Result): seq<Bump> {
    if r.qmBump.Some? then [Bump(f, r.qmBump.value)] else []
  }

  ghost function After(p: Path, e: Event): (p': Path)
    requires Shape(p) && Possible(p, e)
    ensures Shape(p')
  {
    match e
    case Work(f, w) =>
      var (f', r) := Handle(p.flows[f], w);
      p.(flows := p.flows[f := f'], undelivered := p.undelivered + Reported(f, r))
    case Transmitted(f) =>
      var (f', r) := Handle(p.flows[f], TxWork(false));
      p.(qm := p.qm.(issued := p.qm.issued - multiset{f}), flows := p.flows[f := f'],
         undelivered := p.undelivered + Reported(f, r))
    case Deliver(k, grp) =>
      var b := p.undelivered[k];
      p.(qm := Credit(p.qm, Token(b.flow, grp), b.amount), undelivered := p.undelivered[..k] + p.undelivered[k + 1..])
    case Schedule(s) =>
      NextShaped(p.qm, s);
      p.(qm := Next(p.qm, s))
  }

  function Pending(bs: seq<Bump>, f: FlowId): nat {
    if bs == [] then 0 else (if bs[0].flow == f then bs[0].amount else 0) + Pending(bs[1..], f)
  }

  function Sendable(p: Path, f: FlowId): nat
    requires f in p.flows
  {
    TxAvail(p.flows[f].tx, 0)
  }

  /** What the scheduler knows of, will learn of, or has already issued for the flow. */
  function Known(p: Path, f: FlowId): nat
    requires f in p.qm.avail
  {
    p.qm.avail[f] + Pending(p.undelivered, f) + TCP_MSS * p.qm.issued[f]
  }

  ghost predicate Accounted(p: Path) {
    Shape(p) && forall f: FlowId :: Sendable(p, f) <= Known(p, f)
  }

  // ------------------------------------------------------------------------ the handlers

  /** A handler's report covers the growth of what can be sent. */
  lemma ReportCoversGrowth(f: FlowTcp, w: Flows.Work)
    requires ValidWork(w) && !w.TxWork?
    ensures var (f', r) := Handle(f, w);
            r.qmBump == QmGrowth(TxAvail(f.tx, 0), TxAvail(f'.tx, 0))
  {
    hide RxSegment, SegmentAck, CountedAck, TxAvail, ResetRetransmit, QmGrowth;
  }

  /** A transmission uses up one segment of what can be sent, whatever the window. */
  lemma TransmitUses(f: FlowTcp, force: bool)
    ensures var (f', r) := Transmit(f, force);
            && TxAvail(f'.tx, 0) == TxAvail(f.tx, 0) - Min(TxAvail(f.tx, 0), TCP_MSS)
            && r.qmBump == None
  {
  }

  lemma {:induction false} PendingAppend(bs: seq<Bump>, b: Bump, f: FlowId)
    ensures Pending(bs + [b], f) == Pending(bs, f) + if b.flow == f then b.amount else 0
  {
    if bs == [] {
      assert bs + [b] == [b];
    } else {
      PendingAppend(bs[1..], b, f);
      assert (bs + [b])[1..] == bs[1..] + [b];
    }
  }

  lemma {:induction false} PendingRemove(bs: seq<Bump>, k: nat, f: FlowId)
    requires k < |bs|
    ensures Pending(bs, f) == Pending(bs[..k] + bs[k + 1..], f) + if bs[k].flow == f then bs[k].amount else 0
  {
    if k == 0 {
      assert bs[..k] + bs[k + 1..] == bs[1..];
    } else {
      PendingRemove(bs[1..], k - 1, f);
      assert (bs[..k] + bs[k + 1..])[1..] == bs[1..][..k - 1] + bs[1..][k..];
    }
  }

  // -------------------------------------------------------------------- every step keeps

  /** What a handler's report adds to the undelivered growth. */
  lemma PendingReported(bs: seq<Bump>, g: FlowId, r: Result, f: FlowId)
    ensures Pending(bs + Reported(g, r), f) ==
            Pending(bs, f) + if g == f && r.qmBump.Some? then r.qmBump.value else 0
  {
    if r.qmBump.Some? {
      PendingAppend(bs, Bump(g, r.qmBump.value), f);
    } else {
      assert bs + Reported(g, r) == bs;
    }
  }

  lemma HandleTx(f: FlowTcp, force: bool)
    ensures Handle(f, TxWork(force)) == Transmit(f, force)
  {
  }

  lemma WorkAccounted(p: Path, g: FlowId, w: Flows.Work, f: FlowId)
    requires Accounted(p) && Possible(p, Work(g, w))
    ensures Sendable(After(p, Work(g, w)), f) <= Known(After(p, Work(g, w)), f)
  {
    hide Handle, TxAvail, Pending, Transmit;
    assert Sendable(p, f) <= Known(p, f);
    var r := Handle(p.flows[g], w).1;
    if w.TxWork? {
      HandleTx(p.flows[g], w.force);
      TransmitUses(p.flows[g], w.force);
    } else {
      ReportCoversGrowth(p.flows[g], w);
    }
    PendingReported(p.undelivered, g, r, f);
  }

  lemma TransmittedAccounted(p: Path, g: FlowId, f: FlowId)
    requires Accounted(p) && Possible(p, Transmitted(g))
    ensures Sendable(After(p, Transmitted(g)), f) <= Known(After(p, Transmitted(g)), f)
  {
    hide Handle, TxAvail, Pending, Transmit;
    assert Sendable(p, f) <= Known(p, f);
    HandleTx(p.flows[g], false);
    TransmitUses(p.flows[g], false);
    PendingReported(p.undelivered, g, Handle(p.flows[g], TxWork(false)).1, f);
  }

  lemma DeliverAccounted(p: Path, k: nat, grp: nat, f: FlowId)
    requires Accounted(p) && Possible(p, Deliver(k, grp))
    ensures Sendable(After(p, Deliver(k, grp)), f) <= Known(After(p, Deliver(k, grp)), f)
  {
    hide TxAvail, Pending;
    assert Sendable(p, f) <= Known(p, f);
    PendingRemove(p.undelivered, k, f);
  }

  /** The scheduler takes at most one segment off a flow for each item it issues. */
  lemma StepPays(q: Qm, s: Scheduler.Step, f: FlowId)
    requires Shaped(q) && Enabled(q, s)
    ensures f in Next(q, s).avail
    ensures q.avail[f] + TCP_MSS * q.issued[f] <= Next(q, s).avail[f] + TCP_MSS * Next(q, s).issued[f]
  {
    hide AddToWheel, Delay;
    if s.Return? && q.hands[s.i].keep && s.i != LOCAL && s.rate != 0 {
      var h, q' := q.hands[s.i], q.(hands := q.hands[s.i := Idle]);
      WheelOnly(q', h.token, Delay(q', h.rest, s.rate));
    }
  }

  lemma ScheduleAccounted(p: Path, s: Scheduler.Step, f: FlowId)
    requires Accounted(p) && Possible(p, Schedule(s))
    ensures Sendable(After(p, Schedule(s)), f) <= Known(After(p, Schedule(s)), f)
  {
    hide Next, Enabled, TxAvail, Pending;
    NextShaped(p.qm, s);
    assert Sendable(p, f) <= Known(p, f);
    StepPays(p.qm, s, f);
  }

  /** All that holds in every reachable state. */
  ghost predicate Sound(p: Path) {
    Accounted(p) && Safe(p.qm)
  }

  lemma AfterAccounted(p: Path, e: Event)
    requires Accounted(p) && Possible(p, e)
    ensures Accounted(After(p, e))
  {
    hide Sendable, Known, Handle, Next, Enabled, After;
    forall f: FlowId
      ensures Sendable(After(p, e), f) <= Known(After(p, e), f)
    {
      match e
      case Work(g, w) => WorkAccounted(p, g, w, f);
      case Transmitted(g) => TransmittedAccounted(p, g, f);
      case Deliver(k, grp) => DeliverAccounted(p, k, grp, f);
      case Schedule(s) => ScheduleAccounted(p, s, f);
    }
  }

  /** Consuming an issued item and crediting a flow leave the queues as they are. */
  lemma OthersSafe(p: Path, e: Event)
    requires Safe(p.qm) && Shape(p) && Possible(p, e) && !e.Schedule?
    ensures Safe(After(p, e).qm)
  {
    hide Handle, Lists, SlotOk;
    if e.Deliver? {
      CreditKeepsSafe(p.qm, Token(p.undelivered[e.k].flow, e.grp), p.undelivered[e.k].amount);
    } else {
      forall f: FlowId
        ensures Queued(After(p, e).qm, f) == Queued(p.qm, f)
      {
        SameParts(p.qm, After(p, e).qm, f);
      }
    }
  }

  lemma AfterSound(p: Path, e: Event)
    requires Sound(p) && Possible(p, e)
    ensures Sound(After(p, e))
  {
    hide Accounted, Safe, Next, Handle, Enabled;
    assert Shape(p) by { AccountedShape(p); }
    AfterAccounted(p, e);
    if e.Schedule? {
      NextKeepsSafe(p.qm, e.step);
    } else {
      OthersSafe(p, e);
    }
  }

  lemma AccountedShape(p: Path)
    requires Accounted(p)
    ensures Shape(p)
  {
  }

  // ----------------------------------------------------------------------------- runs

  ghost predicate Feasible(p: Path, es: seq<Event>)
    requires Shape(p)
    decreases |es|
  {
    es != [] ==> Possible(p, es[0]) && Feasible(After(p, es[0]), es[1..])
  }

  ghost function Run(p: Path, es: seq<Event>): Path
    requires Shape(p) && Feasible(p, es)
    decreases |es|
  {
    if es == [] then p else Run(After(p, es[0]), es[1..])
  }

  lemma {:induction false} RunSound(p: Path, es: seq<Event>)
    requires Sound(p) && Shape(p) && Feasible(p, es)
    ensures Sound(Run(p, es))
    decreases |es|
  {
    hide Sound, After, Possible, Shape;
    if es != [] {
      AfterSound(p, es[0]);
      RunSound(After(p, es[0]), es[1..]);
    }
  }

  /** Whenever a flow could send, something will make it send: a token for it is queued, or a
      bump for it is undelivered, or a transmit item for it is on its way to the handler. */
  lemma NeverForgotten(p: Path, es: seq<Event>, f: FlowId)
    requires Sound(p) && Shape(p) && Feasible(p, es)
    ensures var p' := Run(p, es);
            f in p'.flows && (Sendable(p', f) > 0 ==>
              Queued(p'.qm, f) || (exists b :: b in p'.undelivered && b.flow == f) || f in p'.qm.issued)
  {
    hide Queued, WheelOk, BooksOk, TxAvail, After, Possible;
    RunSound(p, es);
    var p' := Run(p, es);
    assert Sendable(p', f) <= Known(p', f);
    SomePending(p'.undelivered, f);
  }

  lemma {:induction false} SomePending(bs: seq<Bump>, f: FlowId)
    ensures Pending(bs, f) > 0 ==> exists b :: b in bs && b.flow == f
  {
    if bs != [] {
      SomePending(bs[1..], f);
      if bs[0].flow == f {
        assert bs[0] in bs;
      }
    }
  }

  /** An idle scheduler in front of flows that have nothing to send. */
  function Start(flows: map<FlowId, FlowTcp>, ring: seq<Entry>): Path {
    Path(Fresh(map f | f in flows :: 0, ring), flows, [])
  }

  lemma StartSound(flows: map<FlowId, FlowTcp>, ring: seq<Entry>)
    requires |ring| == LOCAL_SIZE && forall f: FlowId :: f in flows && flows[f].tx.avail == 0
    ensures Sound(Start(flows, ring))
  {
    hide Safe, Fresh;
    FreshSafe(map f | f in flows :: 0, ring);
    assert Pending([], 1) == 0;
  }
}
