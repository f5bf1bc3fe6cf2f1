/** The threads of the processing stage on the shared flow-state cache.  A thread remembers the
    CAM entry of its lookup and may be swapped out before its handler runs on that entry.  The
    order in which threads look up, and the least-recently-used choice of victims, keep every
    remembered entry in place. */
module CacheThreads {
  import opened Words
  import opened Flows
  import opened FlowCaches
  import opened Sequences

  const THREADS := 8

  /** What a thread remembers from its lookup until its handler has run.  `locked` is the state
      bit it saw: the record of the entry was still on its way.  `turn` numbers the lookup. */
  datatype Hold = Hold(entry: nat, flow: uint32, work: Work, locked: bool, turn: nat)

  /** `arriving` holds the records on their way to locked entries, `held` what each thread
      remembers, `used` the lookup or initial write that used each entry last, and `turn` the
      number of the next lookup, which belongs to the thread that has the order signal. */
  datatype Shared = Shared(c: Cache, arriving: map<nat, FlowTcp>, held: map<nat, Hold>, used: seq<nat>, turn: nat)

  datatype Action =
    | Lookup(flow: uint32, work: Work, victim: nat)
    | Arrive(entry: nat)
    | Execute(thread: nat)

  ghost predicate WellFormed(s: Shared) {
    && Shaped(s.c) && |s.used| == LM_SIZE
    && forall t :: t in s.held ==> s.held[t].entry < LM_SIZE && ValidWork(s.held[t].work)
  }

  /** A thread looks up when the order signal reaches it and its previous handler has run; a
      handler runs once the record is there, if the thread saw that it was not. */
  ghost predicate Possible(s: Shared, a: Action)
    requires WellFormed(s)
  {
    match a
    case Lookup(flow, work, victim) =>
      0 < flow < FLOW_IDS && ValidWork(work) && victim < LM_SIZE && s.turn % THREADS !in s.held
    case Arrive(e) => e < LM_SIZE && e in s.arriving
    case Execute(t) => t in s.held && (s.held[t].locked ==> s.held[t].entry !in s.arriving)
  }

  /** The part of a miss that runs before the processor is released.  A record swapped out of
      the cluster slot is there at once, any other is waited for. */
  ghost function Begin(s: Shared, e: nat, flow: uint32): (Cache, map<nat, FlowTcp>)
    requires WellFormed(s) && e < LM_SIZE
  {
    var c := Miss(s.c, e, flow);
    if s.c.status[s.c.tags[e] % CLS_SIZE] == flow then (c, s.arriving)
    else (c.(lm := s.c.lm), s.arriving[e := c.lm[e]])
  }

  ghost function LookUp(s: Shared, flow: uint32, work: Work, victim: nat): (s': Shared)
    requires WellFormed(s) && Possible(s, Lookup(flow, work, victim))
    ensures WellFormed(s')
  {
    var e := if flow in s.c.tags then IndexOf(s.c.tags, flow) else victim;
    var (c, arriving) := if flow in s.c.tags then (s.c, s.arriving) else Begin(s, victim, flow);
    Shared(c, arriving, s.held[s.turn % THREADS := Hold(e, flow, work, e in arriving, s.turn)],
           s.used[e := s.turn], s.turn + 1)
  }

  /** One action; only the execution of a handler gives a result.  The handler runs on the entry
      that the thread remembers. */
  ghost function Act(s: Shared, a: Action): (o: (Shared, seq<Result>))
    requires WellFormed(s) && Possible(s, a)
    ensures WellFormed(o.0)
  {
    match a
    case Lookup(flow, work, victim) => (LookUp(s, flow, work, victim), [])
    case Arrive(e) => (s.(c := s.c.(lm := s.c.lm[e := s.arriving[e]]), arriving := s.arriving - {e}), [])
    case Execute(t) =>
      var h := s.held[t];
      var (f, r) := Handle(s.c.lm[h.entry], h.work);
      (s.(c := s.c.(lm := s.c.lm[h.entry := f]), held := s.held - {t}), [r])
  }

  // ------------------------------------------------------------------- what has to hold

  /** The cache as it will be once every awaited record has arrived. */
  ghost function Settled(s: Shared): (c: Cache)
    requires WellFormed(s)
    ensures Shaped(c)
  {
    s.c.(lm := seq(LM_SIZE, i requires 0 <= i < LM_SIZE => if i in s.arriving then s.arriving[i] else s.c.lm[i]))
  }

  /** Every remembered entry still belongs to the flow it was looked up for. */
  ghost predicate InPlace(s: Shared)
    requires WellFormed(s)
  {
    forall t :: t in s.held ==> s.c.tags[s.held[t].entry] == s.held[t].flow
  }

  ghost predicate HeldBy(s: Shared, e: nat) {
    exists t :: t in s.held && s.held[t].entry == e
  }

  /** Remembered entries are in place; whoever saw no lock has its record; whatever is awaited
      is awaited by some thread. */
  ghost predicate Coherent(s: Shared)
    requires WellFormed(s)
  {
    && Valid(s.c) && InPlace(s)
    && (forall t :: t in s.held ==> 0 < s.held[t].flow < FLOW_IDS && (!s.held[t].locked ==> s.held[t].entry !in s.arriving))
    && (forall e :: e in s.arriving ==> e < LM_SIZE && HeldBy(s, e))
  }

  /** A miss does not give up an entry that some thread remembers. */
  ghost predicate Spares(s: Shared, a: Action)
    requires WellFormed(s)
  {
    a.Lookup? && a.flow !in s.c.tags ==> !HeldBy(s, a.victim)
  }

  // ------------------------------------------------------------------- single actions

  lemma SettledValid(s: Shared)
    requires WellFormed(s)
    ensures Valid(Settled(s)) <==> Valid(s.c)
  {
  }

  /** The beginning of a miss amounts to the whole miss once the record arrives. */
  lemma BeginSettles(s: Shared, e: nat, flow: uint32)
    requires WellFormed(s) && Valid(s.c) && e < LM_SIZE && e !in s.arriving && flow != 0 && flow !in s.c.tags
    ensures var (c, arriving) := Begin(s, e, flow);
            && Shaped(c) && Settled(s.(c := c, arriving := arriving)) == Miss(Settled(s), e, flow)
  {
    var (c, arriving) := Begin(s, e, flow);
    assert Shaped(c);
    assert Settled(s.(c := c, arriving := arriving)).lm == Miss(Settled(s), e, flow).lm;
  }

  lemma BeginTags(s: Shared, e: nat, flow: uint32)
    requires WellFormed(s) && Valid(s.c) && e < LM_SIZE && flow != 0 && flow !in s.c.tags
    ensures var (c, arriving) := Begin(s, e, flow);
            && c.tags == s.c.tags[e := flow] && Valid(c)
            && (forall i :: i in arriving <==> i in s.arriving || (i == e && s.c.status[s.c.tags[e] % CLS_SIZE] != flow))
  {
    MissKeepsValid(s.c, e, flow);
  }

  /** The arrival of a record changes no flow's current record. */
  lemma ArriveSettles(s: Shared, e: nat)
    requires WellFormed(s) && Possible(s, Arrive(e))
    ensures Settled(Act(s, Arrive(e)).0) == Settled(s)
  {
    assert Settled(Act(s, Arrive(e)).0).lm == Settled(s).lm;
  }

  /** A handler on the remembered entry is a handler on the flow's current record. */
  lemma ExecuteSettles(s: Shared, t: nat)
    requires WellFormed(s) && Coherent(s) && Possible(s, Execute(t))
    ensures var h := s.held[t];
            var x := Item(h.flow, h.work, 0);
            && Settled(Act(s, Execute(t)).0) == Process(Settled(s), x).0
            && Act(s, Execute(t)).1 == [Process(Settled(s), x).1]
  {
    hide Handle, Miss;
    var h := s.held[t];
    SameTag(s.c, h.entry);
    assert Settled(Act(s, Execute(t)).0).lm == Process(Settled(s), Item(h.flow, h.work, 0)).0.lm;
  }

  lemma SameTag(c: Cache, i: nat)
    requires Valid(c) && i < LM_SIZE
    ensures c.tags[i] in c.tags && IndexOf(c.tags, c.tags[i]) == i
  {
  }

  /** Looking up keeps what has to hold, if a miss spares the remembered entries. */
  lemma LookUpCoherent(s: Shared, flow: uint32, work: Work, victim: nat)
    requires WellFormed(s) && Coherent(s)
    requires Possible(s, Lookup(flow, work, victim)) && Spares(s, Lookup(flow, work, victim))
    ensures Coherent(LookUp(s, flow, work, victim))
  {
    hide Begin, Valid, HeldBy;
    var s' := LookUp(s, flow, work, victim);
    var e := s'.held[s.turn % THREADS].entry;
    if flow !in s.c.tags {
      BeginTags(s, victim, flow);
    }
    LookUpHolds(s, s', e);
  }

  /** Whoever held an entry still does, and the thread whose turn it is holds its own. */
  lemma LookUpHolds(s: Shared, s': Shared, e: nat)
    requires s.turn % THREADS !in s.held && s.turn % THREADS in s'.held && s'.held[s.turn % THREADS].entry == e
    requires forall t :: t in s.held ==> t in s'.held && s'.held[t] == s.held[t]
    ensures HeldBy(s', e) && forall i :: HeldBy(s, i) ==> HeldBy(s', i)
    ensures forall t :: t in s.held ==> HeldBy(s, s.held[t].entry)
  {
  }

  lemma ArriveCoherent(s: Shared, e: nat)
    requires WellFormed(s) && Coherent(s) && Possible(s, Arrive(e))
    ensures Coherent(Act(s, Arrive(e)).0)
  {
  }

  lemma ExecuteCoherent(s: Shared, t: nat)
    requires WellFormed(s) && Coherent(s) && Possible(s, Execute(t))
    ensures Coherent(Act(s, Execute(t)).0)
  {
    hide Handle;
    var s' := Act(s, Execute(t)).0;
    forall e | e in s'.arriving
      ensures HeldBy(s', e)
    {
      var u :| u in s.held && s.held[u].entry == e;
      assert u in s'.held;
    }
  }

  /** A lookup leaves every remembered entry in place if and only if its victim is spared. */
  lemma InPlaceIffSpared(s: Shared, a: Action)
    requires WellFormed(s) && Coherent(s) && Possible(s, a)
    ensures InPlace(Act(s, a).0) <==> Spares(s, a)
  {
    hide Handle, Valid, Begin;
    if a.Lookup? && a.flow !in s.c.tags {
      BeginTags(s, a.victim, a.flow);
      var s' := Act(s, a).0;
      if HeldBy(s, a.victim) {
        var t :| t in s.held && s.held[t].entry == a.victim;
        assert t in s'.held && s'.held[t] == s.held[t] && s.held[t].flow in s.c.tags;
      }
    }
  }

  // ---------------------------------------------------------------------- all interleavings

  /** What an action executes, in the order in which handlers run. */
  ghost function Executed(s: Shared, a: Action): seq<Item>
    requires WellFormed(s) && Possible(s, a)
  {
    match a
    case Execute(t) => [Item(s.held[t].flow, s.held[t].work, 0)]
    case _ => []
  }

  /** Each action does to the current records what the flat table does for what it executes. */
  lemma ActRefines(s: Shared, m: map<uint32, FlowTcp>, a: Action)
    requires WellFormed(s) && Coherent(s) && StandsFor(Settled(s), m) && Possible(s, a) && Spares(s, a)
    ensures Coherent(Act(s, a).0)
    ensures forall x :: x in Executed(s, a) ==> ValidItem(x) && x.flow in m
    ensures StandsFor(Settled(Act(s, a).0), RunFlat(m, Executed(s, a)).0)
    ensures Act(s, a).1 == RunFlat(m, Executed(s, a)).1
  {
    hide Miss, Handle, Process, Valid, Current, Begin;
    match a
    case Lookup(flow, work, victim) =>
      LookUpCoherent(s, flow, work, victim);
      LookUpRefines(s, m, flow, work, victim);
    case Arrive(e) =>
      ArriveCoherent(s, e);
      ArriveSettles(s, e);
    case Execute(t) =>
      ExecuteCoherent(s, t);
      ExecuteSettles(s, t);
      var x := Item(s.held[t].flow, s.held[t].work, 0);
      ProcessRefines(Settled(s), m, x);
      RunFlatOne(m, x);
  }

  lemma RunFlatOne(m: map<uint32, FlowTcp>, x: Item)
    requires ValidItem(x) && x.flow in m
    ensures RunFlat(m, [x]) == (FlatProcess(m, x).0, [FlatProcess(m, x).1])
  {
    hide FlatProcess;
    var m' := FlatProcess(m, x).0;
    var rest := [x][1..];
    assert rest == [] && RunFlat(m', rest) == (m', []);
    assert [FlatProcess(m, x).1] + [] == [FlatProcess(m, x).1];
  }

  lemma LookUpRefines(s: Shared, m: map<uint32, FlowTcp>, flow: uint32, work: Work, victim: nat)
    requires WellFormed(s) && Coherent(s) && StandsFor(Settled(s), m)
    requires Possible(s, Lookup(flow, work, victim)) && Spares(s, Lookup(flow, work, victim))
    ensures StandsFor(Settled(LookUp(s, flow, work, victim)), m)
  {
    hide Miss, Current, Valid, Begin;
    var s' := LookUp(s, flow, work, victim);
    if flow in s.c.tags {
      assert Settled(s') == Settled(s);
    } else {
      SettledValid(s);
      BeginSettles(s, victim, flow);
      var (c, arriving) := Begin(s, victim, flow);
      assert Settled(s') == Settled(s.(c := c, arriving := arriving));
      MissKeepsValid(Settled(s), victim, flow);
      forall f: uint32 | 0 < f < FLOW_IDS
        ensures Current(Miss(Settled(s), victim, flow), f) == m[f]
      {
        MissTransparent(Settled(s), victim, flow, f);
      }
    }
  }

  ghost predicate Interleaving(s: Shared, acts: seq<Action>)
    requires WellFormed(s)
    decreases |acts|
  {
    acts != [] ==> Possible(s, acts[0]) && Interleaving(Act(s, acts[0]).0, acts[1..])
  }

  /** All misses of the run spare the remembered entries. */
  ghost predicate AllSpare(s: Shared, acts: seq<Action>)
    requires WellFormed(s) && Interleaving(s, acts)
    decreases |acts|
  {
    acts != [] ==> Spares(s, acts[0]) && AllSpare(Act(s, acts[0]).0, acts[1..])
  }

  ghost function Run(s: Shared, acts: seq<Action>): (o: (Shared, seq<Result>))
    requires WellFormed(s) && Interleaving(s, acts)
    ensures WellFormed(o.0)
    decreases |acts|
  {
    if acts == [] then (s, [])
    else
      var (s', rs) := Act(s, acts[0]);
      var (s'', rs') := Run(s', acts[1..]);
      (s'', rs + rs')
  }

  /** Everything executed in a run, in the order in which handlers ran. */
  ghost function Executions(s: Shared, acts: seq<Action>): seq<Item>
    requires WellFormed(s) && Interleaving(s, acts)
    decreases |acts|
  {
    if acts == [] then [] else Executed(s, acts[0]) + Executions(Act(s, acts[0]).0, acts[1..])
  }

  lemma {:induction false} RunFlatConcat(m: map<uint32, FlowTcp>, xs: seq<Item>, ys: seq<Item>)
    requires forall x :: x in xs + ys ==> ValidItem(x) && x.flow in m
    ensures forall x :: x in xs ==> ValidItem(x) && x.flow in m
    ensures forall y :: y in ys ==> ValidItem(y) && y.flow in RunFlat(m, xs).0
    ensures RunFlat(m, xs + ys).0 == RunFlat(RunFlat(m, xs).0, ys).0
    ensures RunFlat(m, xs + ys).1 == RunFlat(m, xs).1 + RunFlat(RunFlat(m, xs).0, ys).1
    decreases |xs|
  {
    hide FlatProcess;
    assert forall x :: x in xs || x in ys ==> x in xs + ys;
    if xs == [] {
      assert xs + ys == ys;
    } else {
      assert (xs + ys)[1..] == xs[1..] + ys && xs[0] in xs;
      FlatKeepsFlows(m, xs[0]);
      RunFlatConcat(FlatProcess(m, xs[0]).0, xs[1..], ys);
    }
  }

  lemma FlatKeepsFlows(m: map<uint32, FlowTcp>, x: Item)
    requires x.flow in m && ValidItem(x)
    ensures forall f :: f in m <==> f in FlatProcess(m, x).0
  {
    hide Handle;
  }

  lemma {:induction false} RunFlatKeepsFlows(m: map<uint32, FlowTcp>, xs: seq<Item>)
    requires forall x :: x in xs ==> ValidItem(x) && x.flow in m
    ensures forall f :: f in m <==> f in RunFlat(m, xs).0
    decreases |xs|
  {
    hide FlatProcess;
    if xs != [] {
      FlatKeepsFlows(m, xs[0]);
      RunFlatKeepsFlows(FlatProcess(m, xs[0]).0, xs[1..]);
    }
  }

  /** Every interleaving whose misses spare remembered entries, with several records on their
      way at once, gives the handlers' results on the flat table, in the order they ran. */
  lemma {:induction false} SharedCacheInvisible(s: Shared, m: map<uint32, FlowTcp>, acts: seq<Action>)
    requires WellFormed(s) && Coherent(s) && StandsFor(Settled(s), m) && Interleaving(s, acts) && AllSpare(s, acts)
    ensures forall x :: x in Executions(s, acts) ==> ValidItem(x) && x.flow in m
    ensures Run(s, acts).1 == RunFlat(m, Executions(s, acts)).1
    ensures StandsFor(Settled(Run(s, acts).0), RunFlat(m, Executions(s, acts)).0)
    decreases |acts|
  {
    hide Act, Executed, FlatProcess, Coherent, StandsFor, Settled, Possible, Spares;
    if acts != [] {
      ActRefines(s, m, acts[0]);
      var xs, s' := Executed(s, acts[0]), Act(s, acts[0]).0;
      var m' := RunFlat(m, xs).0;
      SharedCacheInvisible(s', m', acts[1..]);
      RunFlatKeepsFlows(m, xs);
      RunFlatConcat(m, xs, Executions(s', acts[1..]));
    }
  }

  // -------------------------------------------------------- why remembered entries stay

  /** `e` is the least recently used entry. */
  ghost predicate Oldest(used: seq<nat>, e: nat) {
    e < |used| && forall i :: 0 <= i < |used| ==> used[e] <= used[i]
  }

  /** The signal goes round, so a thread that has not finished keeps the others from passing it:
      at most seven lookups happen between a thread's lookup and its handler.  And an entry is
      as recently used as the lookups that led to it. */
  ghost predicate Aged(s: Shared)
    requires WellFormed(s)
  {
    && (forall i :: 0 <= i < LM_SIZE ==> s.used[i] < s.turn)
    && (forall i, j :: 0 <= i < j < LM_SIZE ==> s.used[i] != s.used[j])
    && (forall t :: t in s.held ==>
          && t == s.held[t].turn % THREADS
          && s.held[t].turn < s.turn <= s.held[t].turn + THREADS
          && s.held[t].turn <= s.used[s.held[t].entry])
  }

  /** The least recently used of sixteen entries is never one that one of eight threads
      remembers. */
  lemma OldestIsSpared(s: Shared, e: nat)
    requires WellFormed(s) && Aged(s) && Oldest(s.used, e)
    ensures !HeldBy(s, e)
  {
    Crowded(s.used, s.used[e], s.turn);
  }

  lemma ActAged(s: Shared, a: Action)
    requires WellFormed(s) && Aged(s) && Possible(s, a)
    ensures Aged(Act(s, a).0)
  {
    hide Handle, Begin;
    if a.Lookup? {
      LookUpAged(s, a.flow, a.work, a.victim);
    }
  }

  lemma LookUpAged(s: Shared, flow: uint32, work: Work, victim: nat)
    requires WellFormed(s) && Aged(s) && Possible(s, Lookup(flow, work, victim))
    ensures Aged(LookUp(s, flow, work, victim))
  {
    hide Handle, Begin;
    var s' := LookUp(s, flow, work, victim);
    forall t | t in s.held
      ensures s.turn + 1 <= s.held[t].turn + THREADS
    {
      TurnsApart(s.held[t].turn, s.turn);
    }
    UsedNow(s.used, if flow in s.c.tags then IndexOf(s.c.tags, flow) else victim, s.turn);
  }

  lemma TurnsApart(h: nat, n: nat)
    requires h < n <= h + THREADS && h % THREADS != n % THREADS
    ensures n + 1 <= h + THREADS
  {
  }

  lemma UsedNow(used: seq<nat>, e: nat, turn: nat)
    requires e < |used| && forall i :: 0 <= i < |used| ==> used[i] < turn
    requires forall i, j :: 0 <= i < j < |used| ==> used[i] != used[j]
    ensures var used' := used[e := turn];
            && (forall i :: 0 <= i < |used'| ==> used[i] <= used'[i] < turn + 1)
            && (forall i, j :: 0 <= i < j < |used'| ==> used'[i] != used'[j])
  {
  }

  /** Every miss of the run gives up the least recently used entry. */
  ghost predicate LeastRecent(s: Shared, acts: seq<Action>)
    requires WellFormed(s) && Interleaving(s, acts)
    decreases |acts|
  {
    acts != [] ==>
      && (acts[0].Lookup? && acts[0].flow !in s.c.tags ==> Oldest(s.used, acts[0].victim))
      && LeastRecent(Act(s, acts[0]).0, acts[1..])
  }

  /** With least-recently-used victims, no miss of any run takes a remembered entry. */
  lemma {:induction false} LeastRecentSpares(s: Shared, acts: seq<Action>)
    requires WellFormed(s) && Aged(s) && Interleaving(s, acts) && LeastRecent(s, acts)
    ensures AllSpare(s, acts)
    decreases |acts|
  {
    hide Act, Aged, Oldest, HeldBy, Possible;
    if acts != [] {
      var a := acts[0];
      ActAged(s, a);
      if a.Lookup? && a.flow !in s.c.tags {
        OldestIsSpared(s, a.victim);
      }
      LeastRecentSpares(Act(s, a).0, acts[1..]);
    }
  }

  /** After reset: entry `i` was the `i`-th to be written. */
  ghost function Booted(lm: seq<FlowTcp>, cls: seq<FlowTcp>, table: map<uint32, FlowTcp>): Shared {
    Shared(Initial(lm, cls, table), map[], map[], seq(LM_SIZE, i requires 0 <= i < LM_SIZE => i), LM_SIZE)
  }

  lemma BootedOk(lm: seq<FlowTcp>, cls: seq<FlowTcp>, table: map<uint32, FlowTcp>)
    requires |lm| == LM_SIZE && |cls| == CLS_SIZE && forall f: uint32 :: f in table
    ensures var s := Booted(lm, cls, table);
            WellFormed(s) && Coherent(s) && Aged(s) && StandsFor(Settled(s), table)
  {
    InitialTransparent(lm, cls, table);
    assert Settled(Booted(lm, cls, table)).lm == lm;
  }

  /** From reset on, whatever eight threads do in whatever order, every handler computes what it
      would on the flow table itself. */
  lemma ThreadsFromReset(lm: seq<FlowTcp>, cls: seq<FlowTcp>, table: map<uint32, FlowTcp>, acts: seq<Action>)
    requires |lm| == LM_SIZE && |cls| == CLS_SIZE && forall f: uint32 :: f in table
    requires WellFormed(Booted(lm, cls, table)) && Interleaving(Booted(lm, cls, table), acts)
    requires LeastRecent(Booted(lm, cls, table), acts)
    ensures var s := Booted(lm, cls, table);
            && (forall x :: x in Executions(s, acts) ==> ValidItem(x))
            && Run(s, acts).1 == RunFlat(table, Executions(s, acts)).1
            && StandsFor(Settled(Run(s, acts).0), RunFlat(table, Executions(s, acts)).0)
  {
    hide Coherent, Aged, StandsFor, Settled, Act, Booted;
    BootedOk(lm, cls, table);
    LeastRecentSpares(Booted(lm, cls, table), acts);
    SharedCacheInvisible(Booted(lm, cls, table), table, acts);
  }

  // ------------------------------------------------------- what another choice would do

  /** A miss whose flow and whose victim's slot are not in the cluster level. */
  lemma UncachedBegin(s: Shared, v: nat, flow: uint32)
    requires WellFormed(s) && v < LM_SIZE && flow != 0
    requires s.c.status[s.c.tags[v] % CLS_SIZE] == 0 && s.c.status[flow % CLS_SIZE] == 0
    requires s.c.tags[v] != flow
    ensures var (c, arriving) := Begin(s, v, flow);
            && Shaped(c) && arriving == s.arriving[v := s.c.table[flow]] && c.lm == s.c.lm && c.table == s.c.table
            && c.tags == s.c.tags[v := flow] && c.status == s.c.status[s.c.tags[v] % CLS_SIZE := s.c.tags[v]]
  {
  }

  /** A miss on entry 0 and the arrival of its record. */
  function Missed(flow: uint32, w: Work): seq<Action> {
    [Lookup(flow, w, 0), Arrive(0)]
  }

  /** The schedule in which a second lookup takes the entry that the first thread remembers. */
  function Overtaken(w: Work): seq<Action> {
    Missed(1, w) + (Missed(2, w) + [Execute(0)])
  }

  /** One miss by the thread whose turn it is, up to the arrival of the record. */
  ghost function Fetch(s: Shared, flow: uint32, w: Work): Shared
    requires WellFormed(s) && ValidWork(w) && 0 < flow < FLOW_IDS
  {
    s.(c := s.c.(tags := s.c.tags[0 := flow], status := s.c.status[s.c.tags[0] % CLS_SIZE := s.c.tags[0]],
                 cls := s.c.cls[s.c.tags[0] % CLS_SIZE := s.c.lm[0]], lm := s.c.lm[0 := s.c.table[flow]]),
       held := s.held[s.turn % THREADS := Hold(0, flow, w, true, s.turn)], used := s.used[0 := s.turn], turn := s.turn + 1)
  }

  lemma FetchIs(s: Shared, flow: uint32, w: Work)
    requires WellFormed(s) && ValidWork(w) && 0 < flow < FLOW_IDS && flow !in s.c.tags && s.arriving == map[]
    requires s.turn % THREADS !in s.held
    requires s.c.status[s.c.tags[0] % CLS_SIZE] == 0 && s.c.status[flow % CLS_SIZE] == 0
    ensures Possible(s, Lookup(flow, w, 0)) && Possible(Act(s, Lookup(flow, w, 0)).0, Arrive(0))
    ensures WellFormed(Fetch(s, flow, w)) && Act(Act(s, Lookup(flow, w, 0)).0, Arrive(0)).0 == Fetch(s, flow, w)
  {
    UncachedBegin(s, 0, flow);
    var s1 := Act(s, Lookup(flow, w, 0)).0;
    assert s1.arriving - {0} == map[];
  }

  lemma RunCons(s: Shared, a: Action, rest: seq<Action>)
    requires WellFormed(s) && Possible(s, a) && Interleaving(Act(s, a).0, rest)
    ensures Interleaving(s, [a] + rest)
    ensures Run(s, [a] + rest).1 == Act(s, a).1 + Run(Act(s, a).0, rest).1
    ensures Executions(s, [a] + rest) == Executed(s, a) + Executions(Act(s, a).0, rest)
  {
    hide Act, Possible, Executed;
    assert ([a] + rest)[1..] == rest;
  }

  lemma RunMissed(s: Shared, flow: uint32, w: Work, rest: seq<Action>)
    requires WellFormed(s) && ValidWork(w) && 0 < flow < FLOW_IDS && flow !in s.c.tags && s.arriving == map[]
    requires s.turn % THREADS !in s.held
    requires s.c.status[s.c.tags[0] % CLS_SIZE] == 0 && s.c.status[flow % CLS_SIZE] == 0
    requires WellFormed(Fetch(s, flow, w)) && Interleaving(Fetch(s, flow, w), rest)
    ensures Interleaving(s, Missed(flow, w) + rest)
    ensures Run(s, Missed(flow, w) + rest).1 == Run(Fetch(s, flow, w), rest).1
    ensures Executions(s, Missed(flow, w) + rest) == Executions(Fetch(s, flow, w), rest)
  {
    hide Possible, Fetch, LookUp, Handle, Interleaving;
    FetchIs(s, flow, w);
    var s1 := Act(s, Lookup(flow, w, 0)).0;
    RunCons(s1, Arrive(0), rest);
    RunCons(s, Lookup(flow, w, 0), [Arrive(0)] + rest);
    assert [Lookup(flow, w, 0)] + ([Arrive(0)] + rest) == Missed(flow, w) + rest;
  }

  lemma Misled(s: Shared, w: Work)
    requires WellFormed(s) && ValidWork(w) && s.held == map[] && s.arriving == map[] && s.turn % THREADS == 0
    requires s.c.tags[0] == SENTINEL && 1 !in s.c.tags && 2 !in s.c.tags && forall i :: 0 <= i < CLS_SIZE ==> s.c.status[i] == 0
    ensures Interleaving(s, Overtaken(w))
    ensures Run(s, Overtaken(w)).1 == [Handle(s.c.table[2], w).1]
    ensures Executions(s, Overtaken(w)) == [Item(1, w, 0)]
  {
    hide Handle, Interleaving, Run, Executions, Missed;
    var s1 := Fetch(s, 1, w);
    assert s1.c.tags[0] == 1 && 2 !in s1.c.tags;
    var s2 := Fetch(s1, 2, w);
    assert s2.c.lm[0] == s.c.table[2] && s2.held[0].flow == 1;
    assert s2.arriving == map[] && Possible(s2, Execute(0));
    RunNothing(Act(s2, Execute(0)).0);
    RunCons(s2, Execute(0), []);
    assert [Execute(0)] + [] == [Execute(0)];
    RunMissed(s1, 2, w, [Execute(0)]);
    RunMissed(s, 1, w, Missed(2, w) + [Execute(0)]);
  }

  lemma RunNothing(s: Shared)
    requires WellFormed(s)
    ensures Interleaving(s, []) && Run(s, []) == (s, []) && Executions(s, []) == []
  {
  }

  /** Were the victim not the least recently used entry, two lookups could mislead a handler: the
      work of flow 1 runs on the record of flow 2, and its result is not that of flow 1. */
  lemma RememberedVictimMisleads(lm: seq<FlowTcp>, cls: seq<FlowTcp>, table: map<uint32, FlowTcp>)
    requires |lm| == LM_SIZE && |cls| == CLS_SIZE && forall f: uint32 :: f in table
    requires table[1].tx.nextSeq != table[2].tx.nextSeq
    ensures var s, acts := Booted(lm, cls, table), Overtaken(TxWork(true));
            && WellFormed(s) && Interleaving(s, acts) && Executions(s, acts) == [Item(1, TxWork(true), 0)]
            && !AllSpare(s, acts)
            && Run(s, acts).1 != RunFlat(table, Executions(s, acts)).1
  {
    hide Interleaving, Run, Executions, Coherent, Aged, StandsFor, Settled, Overtaken, AllSpare;
    var s, x := Booted(lm, cls, table), Item(1, TxWork(true), 0);
    var acts := Overtaken(TxWork(true));
    BootedOk(lm, cls, table);
    assert forall i :: 0 <= i < LM_SIZE ==> s.c.tags[i] == SENTINEL - i;
    Misled(s, TxWork(true));
    RunFlatOne(table, x);
    assert Handle(table[1], TxWork(true)).1.transmit != Handle(table[2], TxWork(true)).1.transmit;
    if AllSpare(s, acts) {
      SharedCacheInvisible(s, table, acts);
    }
  }
}
