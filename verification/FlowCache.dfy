/** The three-level flow-state cache of the processing stage: sixteen records in local memory
    found through a CAM, a 512-slot direct-mapped level in cluster memory, and the flow table
    behind them.  It is invisible: every run gives the results of running the handlers on a
    flat table. */
module FlowCaches {
  import opened Words
  import opened Flows
  import opened FlowRecords

  const LM_SIZE := 16
  const CLS_SIZE := 512
  const FLOW_IDS := 0x1_0000    // flow ids are 16 bits wide, and 0 is not one
  const TABLE_SIZE := 16384
  const SENTINEL: uint32 := 0xFFFF_FFFF

  /** `tags[i]` names the flow in `lm[i]`; `status[s]` names the flow in `cls[s]`, 0 for none;
      `table` is indexed by every 32-bit word, because the tags that the CAM starts with are
      evicted like flows. */
  datatype Cache = Cache(
    tags: seq<uint32>, lm: seq<FlowTcp>, status: seq<uint32>, cls: seq<FlowTcp>, table: map<uint32, FlowTcp>)

  ghost predicate Shaped(c: Cache) {
    && |c.tags| == |c.lm| == LM_SIZE
    && |c.status| == |c.cls| == CLS_SIZE
    && (forall f: uint32 :: f in c.table)
  }

  /** Tags are unique and never 0; a cluster slot holds only a flow that maps to it and that
      is not in local memory. */
  ghost predicate Valid(c: Cache) {
    && Shaped(c)
    && (forall i, j :: 0 <= i < j < LM_SIZE ==> c.tags[i] != c.tags[j])
    && 0 !in c.tags
    && (forall s :: 0 <= s < CLS_SIZE && c.status[s] != 0 ==> c.status[s] % CLS_SIZE == s && c.status[s] !in c.tags)
  }

  function IndexOf(tags: seq<uint32>, flow: uint32): (i: nat)
    requires flow in tags
    ensures i < |tags| && tags[i] == flow
  {
    if tags[0] == flow then 0 else 1 + IndexOf(tags[1..], flow)
  }

  /** The current record of a flow, wherever its copy is. */
  ghost function Current(c: Cache, flow: uint32): FlowTcp
    requires Shaped(c)
  {
    if flow in c.tags then c.lm[IndexOf(c.tags, flow)]
    else if c.status[flow % CLS_SIZE] == flow then c.cls[flow % CLS_SIZE]
    else c.table[flow]
  }

  /** Bring a flow that is not in local memory into entry `e`. */
  ghost function Miss(c: Cache, e: nat, flow: uint32): Cache
    requires Shaped(c) && e < LM_SIZE
  {
    var victim := c.tags[e];
    var slot := victim % CLS_SIZE;
    var expelled := c.status[slot];
    // the victim moves to the cluster level, whose former occupant moves out
    var c1 := c.(tags := c.tags[e := flow], status := c.status[slot := victim], cls := c.cls[slot := c.lm[e]]);
    if expelled != 0 && expelled == flow then
      c1.(lm := c.lm[e := c.cls[slot]])
    else
      var c2 := if expelled == 0 then c1 else c1.(table := c.table[expelled := c.cls[slot]]);
      var home := flow % CLS_SIZE;
      if c2.status[home] == flow
      then c2.(lm := c.lm[e := c2.cls[home]], status := c2.status[home := 0])
      else c2.(lm := c.lm[e := c2.table[flow]])
  }

  lemma MissKeepsValid(c: Cache, e: nat, flow: uint32)
    requires Valid(c) && e < LM_SIZE && flow != 0 && flow !in c.tags
    ensures Valid(Miss(c, e, flow))
  {
    var c' := Miss(c, e, flow);
    TagsAfter(c, e, flow);
    assert c.tags[e] in c.tags;
    forall s | 0 <= s < CLS_SIZE && c'.status[s] != 0
      ensures c'.status[s] % CLS_SIZE == s && c'.status[s] !in c'.tags
    {
    }
  }

  lemma TagsAfter(c: Cache, e: nat, flow: uint32)
    requires Valid(c) && e < LM_SIZE && flow !in c.tags
    ensures forall f :: f in c.tags[e := flow] <==> f == flow || (f in c.tags && f != c.tags[e])
  {
    var tags' := c.tags[e := flow];
    assert tags'[e] == flow;
    forall f | f in c.tags && f != c.tags[e]
      ensures f in tags'
    {
      assert tags'[IndexOf(c.tags, f)] == f;
    }
  }

  lemma LocalRecord(c: Cache, i: nat)
    requires Valid(c) && i < LM_SIZE
    ensures Current(c, c.tags[i]) == c.lm[i]
  {
    var j := IndexOf(c.tags, c.tags[i]);
    assert i == j;
  }

  /** A miss changes no flow's current record and leaves the requested one in its entry. */
  lemma MissTransparent(c: Cache, e: nat, flow: uint32, f: uint32)
    requires Valid(c) && e < LM_SIZE && flow != 0 && flow !in c.tags && f != 0
    ensures Shaped(Miss(c, e, flow)) && Miss(c, e, flow).tags[e] == flow
    ensures Current(Miss(c, e, flow), f) == Current(c, f)
  {
    var c' := Miss(c, e, flow);
    MissKeepsValid(c, e, flow);
    TagsAfter(c, e, flow);
    if f == flow {
      LocalRecord(c', e);
    } else if f == c.tags[e] {
      LocalRecord(c, e);
    } else if f in c.tags {
      var i := IndexOf(c.tags, f);
      assert c'.tags[i] == f && i != e;
      LocalRecord(c, i);
      LocalRecord(c', i);
    }
  }

  // ----------------------------------------------------------------------------- runs

  /** An item of work for a flow, with the entry that the CAM would give up for it. */
  datatype Item = Item(flow: uint32, work: Work, entry: nat)

  predicate ValidItem(x: Item) {
    0 < x.flow < FLOW_IDS && ValidWork(x.work) && x.entry < LM_SIZE
  }

  /** Look the flow up, bring it in if necessary, and run the handler on its entry. */
  ghost function Process(c: Cache, x: Item): (Cache, Result)
    requires Shaped(c) && ValidItem(x)
  {
    var c' := if x.flow in c.tags then c else Miss(c, x.entry, x.flow);
    var i := if x.flow in c.tags then IndexOf(c.tags, x.flow) else x.entry;
    var (f, r) := Handle(c'.lm[i], x.work);
    (c'.(lm := c'.lm[i := f]), r)
  }

  /** The same item on a flat table. */
  ghost function FlatProcess(m: map<uint32, FlowTcp>, x: Item): (map<uint32, FlowTcp>, Result)
    requires x.flow in m && ValidItem(x)
  {
    var (f, r) := Handle(m[x.flow], x.work);
    (m[x.flow := f], r)
  }

  /** The cache stands for the flat table `m`. */
  ghost predicate StandsFor(c: Cache, m: map<uint32, FlowTcp>) {
    Valid(c) && forall f: uint32 :: 0 < f < FLOW_IDS ==> f in m && m[f] == Current(c, f)
  }

  lemma UpdateLocal(c: Cache, i: nat, v: FlowTcp, f: uint32)
    requires Valid(c) && i < LM_SIZE
    ensures Valid(c.(lm := c.lm[i := v]))
    ensures Current(c.(lm := c.lm[i := v]), f) == if f == c.tags[i] then v else Current(c, f)
  {
    if f in c.tags {
      var j := IndexOf(c.tags, f);
      assert f == c.tags[i] <==> j == i;
    }
  }

  lemma ProcessRefines(c: Cache, m: map<uint32, FlowTcp>, x: Item)
    requires StandsFor(c, m) && ValidItem(x)
    ensures Process(c, x).1 == FlatProcess(m, x).1
    ensures StandsFor(Process(c, x).0, FlatProcess(m, x).0)
  {
    hide Miss, Handle;
    var c' := if x.flow in c.tags then c else Miss(c, x.entry, x.flow);
    var i := if x.flow in c.tags then IndexOf(c.tags, x.flow) else x.entry;
    if x.flow !in c.tags {
      MissKeepsValid(c, x.entry, x.flow);
      MissTransparent(c, x.entry, x.flow, x.flow);
    }
    LocalRecord(c', i);
    var v := Handle(c'.lm[i], x.work).0;
    forall f: uint32 | 0 < f < FLOW_IDS
      ensures Valid(c'.(lm := c'.lm[i := v]))
      ensures Current(c'.(lm := c'.lm[i := v]), f) == FlatProcess(m, x).0[f]
    {
      UpdateLocal(c', i, v, f);
      if x.flow !in c.tags {
        MissTransparent(c, x.entry, x.flow, f);
      }
    }
    assert Valid(c'.(lm := c'.lm[i := v])) by { UpdateLocal(c', i, v, 1); }
  }

  ghost function RunCached(c: Cache, xs: seq<Item>): (Cache, seq<Result>)
    requires Shaped(c) && forall x :: x in xs ==> ValidItem(x)
    decreases |xs|
  {
    if xs == [] then (c, [])
    else
      var (c', r) := Process(c, xs[0]);
      var (c'', rs) := RunCached(c', xs[1..]);
      (c'', [r] + rs)
  }

  ghost function RunFlat(m: map<uint32, FlowTcp>, xs: seq<Item>): (map<uint32, FlowTcp>, seq<Result>)
    requires forall x :: x in xs ==> ValidItem(x) && x.flow in m
    decreases |xs|
  {
    if xs == [] then (m, [])
    else
      var (m', r) := FlatProcess(m, xs[0]);
      var (m'', rs) := RunFlat(m', xs[1..]);
      (m'', [r] + rs)
  }

  /** Every run, under every choice of victims, gives the results of the flat table, and
      every flow's record ends up as it would there. */
  lemma {:induction false} CacheInvisible(c: Cache, m: map<uint32, FlowTcp>, xs: seq<Item>)
    requires StandsFor(c, m) && forall x :: x in xs ==> ValidItem(x)
    ensures RunCached(c, xs).1 == RunFlat(m, xs).1
    ensures StandsFor(RunCached(c, xs).0, RunFlat(m, xs).0)
    decreases |xs|
  {
    hide Process, FlatProcess;
    if xs != [] {
      ProcessRefines(c, m, xs[0]);
      CacheInvisible(Process(c, xs[0]).0, FlatProcess(m, xs[0]).0, xs[1..]);
    }
  }

  /** The cache after reset stands for the flow table, whatever local memory contains. */
  function Initial(lm: seq<FlowTcp>, cls: seq<FlowTcp>, table: map<uint32, FlowTcp>): Cache {
    Cache(seq(LM_SIZE, i requires 0 <= i < LM_SIZE => SENTINEL - i), lm, seq(CLS_SIZE, _ => 0), cls, table)
  }

  lemma InitialTransparent(lm: seq<FlowTcp>, cls: seq<FlowTcp>, table: map<uint32, FlowTcp>)
    requires |lm| == LM_SIZE && |cls| == CLS_SIZE && forall f: uint32 :: f in table
    ensures StandsFor(Initial(lm, cls, table), table)
  {
    var c := Initial(lm, cls, table);
    assert forall s :: 0 <= s < CLS_SIZE ==> c.status[s] == 0;
  }

  /** From reset on, the data path cannot tell the cache from the flow table itself. */
  lemma RunsFromReset(lm: seq<FlowTcp>, cls: seq<FlowTcp>, table: map<uint32, FlowTcp>, xs: seq<Item>)
    requires |lm| == LM_SIZE && |cls| == CLS_SIZE && forall f: uint32 :: f in table
    requires forall x :: x in xs ==> ValidItem(x)
    ensures RunCached(Initial(lm, cls, table), xs).1 == RunFlat(table, xs).1
  {
    InitialTransparent(lm, cls, table);
    CacheInvisible(Initial(lm, cls, table), table, xs);
  }

  // --------------------------------------------------------------- what is written back

  /** The tags that the CAM is initialised with. */
  predicate IsInitialTag(f: uint32) {
    SENTINEL - LM_SIZE < f
  }

  /** The index at which a miss stores a record in the flow table, if it does. */
  ghost function WrittenBack(c: Cache, e: nat, flow: uint32): Option<uint32>
    requires Shaped(c) && e < LM_SIZE
  {
    var out := c.status[c.tags[e] % CLS_SIZE];
    if out != 0 && out != flow then Some(out) else None
  }

  /** A miss stores the current record of what it expels, and nothing else. */
  lemma WriteBackIndex(c: Cache, e: nat, flow: uint32)
    requires Valid(c) && e < LM_SIZE && flow != 0 && flow !in c.tags
    ensures Miss(c, e, flow).table == match WrittenBack(c, e, flow)
                                      case None => c.table
                                      case Some(out) => c.table[out := Current(c, out)]
  {
  }

  /** Tags are those of flows below `limit` or initial ones. */
  ghost predicate KnownTags(c: Cache, limit: nat)
    requires Shaped(c)
  {
    && (forall i :: 0 <= i < LM_SIZE ==> c.tags[i] < limit || IsInitialTag(c.tags[i]))
    && (forall s :: 0 <= s < CLS_SIZE ==> c.status[s] == 0 || c.status[s] < limit || IsInitialTag(c.status[s]))
  }

  ghost predicate Present(c: Cache, f: uint32) {
    f in c.tags || f in c.status
  }

  lemma MissKeepsKnown(c: Cache, e: nat, flow: uint32, limit: nat)
    requires Valid(c) && KnownTags(c, limit) && e < LM_SIZE && 0 < flow < limit && flow !in c.tags
    ensures Shaped(Miss(c, e, flow)) && KnownTags(Miss(c, e, flow), limit)
  {
  }

  /** An initial tag that is written back is gone, and none appears again. */
  lemma MissForgets(c: Cache, e: nat, flow: uint32, f: uint32)
    requires Valid(c) && e < LM_SIZE && 0 < flow < FLOW_IDS && flow !in c.tags && IsInitialTag(f)
    ensures Present(Miss(c, e, flow), f) ==> Present(c, f)
    ensures WrittenBack(c, e, flow) == Some(f) ==> Present(c, f) && !Present(Miss(c, e, flow), f)
  {
    hide IndexOf;
    var c' := Miss(c, e, flow);
    TagsAfter(c, e, flow);
    assert c.tags[e] in c.tags;
    if f in c'.status {
      var s :| 0 <= s < CLS_SIZE && c'.status[s] == f;
      assert c.status[s] == f || f == c.tags[e];
    }
  }

  /** Whether the tags and the cluster status are those of `c`. */
  lemma ProcessTags(c: Cache, x: Item)
    requires Valid(c) && ValidItem(x)
    ensures var c' := Process(c, x).0;
            var m := if x.flow in c.tags then c else Miss(c, x.entry, x.flow);
            Shaped(c') && Valid(c') && c'.tags == m.tags && c'.status == m.status
  {
    hide Handle;
    if x.flow !in c.tags {
      MissKeepsValid(c, x.entry, x.flow);
    }
  }

  /** All indices written back in a run, in order. */
  ghost function WriteBacks(c: Cache, xs: seq<Item>): seq<uint32>
    requires Shaped(c) && forall x :: x in xs ==> ValidItem(x)
    decreases |xs|
  {
    if xs == [] then []
    else
      var x := xs[0];
      assert ValidItem(x);
      var out := if x.flow in c.tags then None else WrittenBack(c, x.entry, x.flow);
      (if out.Some? then [out.value] else []) + WriteBacks(Process(c, x).0, xs[1..])
  }

  /** No initial tag occurs twice. */
  ghost predicate InitialOnce(ks: seq<uint32>) {
    forall i, j :: 0 <= i < j < |ks| && IsInitialTag(ks[i]) ==> ks[i] != ks[j]
  }

  /** Over every run, under every choice of victims: a miss stores records only at the flows'
      own indices and at those of the sixteen initial tags, the latter at most once each. */
  lemma {:induction false} WriteBacksKnown(c: Cache, xs: seq<Item>, limit: nat)
    requires Valid(c) && limit <= FLOW_IDS && KnownTags(c, limit)
    requires forall x :: x in xs ==> ValidItem(x) && x.flow < limit
    ensures forall k :: k in WriteBacks(c, xs) ==> 0 < k < limit || (IsInitialTag(k) && Present(c, k))
    ensures InitialOnce(WriteBacks(c, xs))
    decreases |xs|
  {
    hide Process, Miss, KnownTags, Present;
    if xs != [] {
      var x := xs[0];
      var c' := Process(c, x).0;
      ProcessTags(c, x);
      StepKnown(c, x, limit);
      WriteBacksKnown(c', xs[1..], limit);
      forall k: uint32 | IsInitialTag(k)
        ensures Present(c', k) ==> Present(c, k)
        ensures x.flow !in c.tags && WrittenBack(c, x.entry, x.flow) == Some(k) ==> !Present(c', k)
      {
        StepForgets(c, x, k);
      }
    }
  }

  lemma StepKnown(c: Cache, x: Item, limit: nat)
    requires Valid(c) && limit <= FLOW_IDS && KnownTags(c, limit) && ValidItem(x) && x.flow < limit
    ensures Shaped(Process(c, x).0) && KnownTags(Process(c, x).0, limit)
    ensures x.flow !in c.tags && WrittenBack(c, x.entry, x.flow).Some? ==>
              var k := WrittenBack(c, x.entry, x.flow).value; 0 < k < limit || (IsInitialTag(k) && Present(c, k))
  {
    hide Process, Miss;
    ProcessTags(c, x);
    if x.flow !in c.tags {
      MissKeepsKnown(c, x.entry, x.flow, limit);
    }
  }

  lemma StepForgets(c: Cache, x: Item, f: uint32)
    requires Valid(c) && ValidItem(x) && IsInitialTag(f)
    ensures Present(Process(c, x).0, f) ==> Present(c, f)
    ensures x.flow !in c.tags && WrittenBack(c, x.entry, x.flow) == Some(f) ==> !Present(Process(c, x).0, f)
  {
    hide Process, Miss;
    ProcessTags(c, x);
    if x.flow !in c.tags {
      MissForgets(c, x.entry, x.flow, f);
    }
  }

  /** From reset on, flows inside the flow table are written back inside it; the only stores
      outside are one for each initial tag. */
  lemma StoresFromReset(lm: seq<FlowTcp>, cls: seq<FlowTcp>, table: map<uint32, FlowTcp>, xs: seq<Item>)
    requires |lm| == LM_SIZE && |cls| == CLS_SIZE && forall f: uint32 :: f in table
    requires forall x :: x in xs ==> ValidItem(x) && x.flow < TABLE_SIZE
    ensures var ks := WriteBacks(Initial(lm, cls, table), xs);
            (forall k :: k in ks ==> 0 < k < TABLE_SIZE || IsInitialTag(k)) && InitialOnce(ks)
  {
    hide WriteBacks;
    InitialTransparent(lm, cls, table);
    WriteBacksKnown(Initial(lm, cls, table), xs, TABLE_SIZE);
  }

  /** The flows of the first sixteen misses in the example below. */
  function ExampleFlow(n: nat): uint32
    requires n < LM_SIZE
  {
    if n == 0 then 511 else n
  }

  /** `n` misses on a fresh cache, each giving up the least recently used entry. */
  ghost function Misses(c: Cache, n: nat): Cache
    requires Shaped(c) && n <= LM_SIZE
    ensures Shaped(Misses(c, n))
  {
    if n == 0 then c else Miss(Misses(c, n - 1), n - 1, ExampleFlow(n - 1))
  }

  /** `d` is what `n` of these misses make of the cache `c`. */
  ghost predicate Filling(c: Cache, d: Cache, n: nat)
    requires Shaped(c) && Shaped(d)
  {
    && d.tags[0] == 511 && d.status[511] == SENTINEL && d.cls[511] == c.lm[0] && d.table == c.table
    && (forall i :: n <= i < LM_SIZE ==> d.tags[i] == SENTINEL - i)
    && (forall s :: 0 <= s < CLS_SIZE - n ==> d.status[s] == 0)
  }

  lemma FillingStep(c: Cache, d: Cache, n: nat)
    requires Shaped(c) && Shaped(d) && 1 <= n < LM_SIZE && Filling(c, d, n)
    ensures Shaped(Miss(d, n, n)) && Filling(c, Miss(d, n, n), n + 1)
  {
    assert d.tags[n] % CLS_SIZE == CLS_SIZE - 1 - n;
  }

  lemma FillingStart(c: Cache)
    requires Shaped(c)
    requires forall i :: 0 <= i < LM_SIZE ==> c.tags[i] == SENTINEL - i
    requires forall s :: 0 <= s < CLS_SIZE ==> c.status[s] == 0
    ensures Shaped(Miss(c, 0, 511)) && Filling(c, Miss(c, 0, 511), 1)
  {
    assert c.tags[0] % CLS_SIZE == 511;
  }

  lemma {:induction false} AfterMisses(c: Cache, n: nat)
    requires Shaped(c) && 1 <= n <= LM_SIZE
    requires forall i :: 0 <= i < LM_SIZE ==> c.tags[i] == SENTINEL - i
    requires forall s :: 0 <= s < CLS_SIZE ==> c.status[s] == 0
    ensures Filling(c, Misses(c, n), n)
  {
    hide Miss, Filling;
    if n == 1 {
      assert Misses(c, 0) == c;
      FillingStart(c);
    } else {
      AfterMisses(c, n - 1);
      FillingStep(c, Misses(c, n - 1), n - 1);
    }
  }

  /** Such a store does happen: the seventeenth of a series of misses, all in the order of least
      recent use, stores what entry 0 contained at reset far outside the flow table. */
  lemma SentinelWrittenBack(lm: seq<FlowTcp>, cls: seq<FlowTcp>, table: map<uint32, FlowTcp>)
    requires |lm| == LM_SIZE && |cls| == CLS_SIZE && forall f: uint32 :: f in table
    ensures var c := Misses(Initial(lm, cls, table), LM_SIZE);
            Miss(c, 0, 16).table == table[SENTINEL := lm[0]] && SENTINEL >= TABLE_SIZE
  {
    hide Misses;
    var c0 := Initial(lm, cls, table);
    AfterMisses(c0, LM_SIZE);
    assert Misses(c0, LM_SIZE).tags[0] % CLS_SIZE == 511;
  }

  // --------------------------------------------------------- the cache as it is updated

  class FlowCache {
    var tags: seq<uint32>
    const lm: seq<FlowRecord>
    var status: seq<uint32>
    var cls: seq<FlowTcp>
    var table: map<uint32, FlowTcp>

    ghost predicate Distinct() {
      |lm| == LM_SIZE && forall i, j :: 0 <= i < j < |lm| ==> lm[i] != lm[j]
    }

    ghost function Records(): (rs: seq<FlowTcp>)
      reads this, lm
      ensures |rs| == |lm|
    {
      seq(|lm|, i requires 0 <= i < |lm| reads lm => lm[i].Value())
    }

    ghost function State(): Cache
      reads this, lm
    {
      Cache(tags, Records(), status, cls, table)
    }

    /** Reset: local memory and the cluster level keep their contents. */
    constructor (lm: seq<FlowRecord>, cls: seq<FlowTcp>, table: map<uint32, FlowTcp>)
      requires |lm| == LM_SIZE && forall i, j :: 0 <= i < j < |lm| ==> lm[i] != lm[j]
      requires |cls| == CLS_SIZE && forall f: uint32 :: f in table
      ensures Distinct() && this.lm == lm
      ensures State() == Initial(old(seq(LM_SIZE, i requires 0 <= i < LM_SIZE reads lm => lm[i].Value())), cls, table)
    {
      this.lm, this.cls, this.table := lm, cls, table;
      tags, status := [], [];
      new;
      var i := 0;
      while i < LM_SIZE
        invariant 0 <= i <= LM_SIZE && |tags| == i && status == []
        invariant this.cls == cls && this.table == table
        invariant forall k :: 0 <= k < i ==> tags[k] == SENTINEL - k
      {
        tags := tags + [SENTINEL - i];
        i := i + 1;
      }
      var idx := 0;
      while idx < CLS_SIZE
        invariant 0 <= idx <= CLS_SIZE && |status| == idx
        invariant |tags| == LM_SIZE && forall k :: 0 <= k < LM_SIZE ==> tags[k] == SENTINEL - k
        invariant this.cls == cls && this.table == table
        invariant forall k :: 0 <= k < idx ==> status[k] == 0
      {
        status := status + [0];
        idx := idx + 1;
      }
      assert Records() == old(seq(LM_SIZE, i requires 0 <= i < LM_SIZE reads lm => lm[i].Value()));
    }

    /** One record of local memory changed. */
    twostate lemma RecordsAfter(e: nat)
      requires Distinct() && e < LM_SIZE
      requires forall i :: 0 <= i < LM_SIZE && i != e ==> lm[i].Value() == old(lm[i].Value())
      ensures Records() == old(Records())[e := lm[e].Value()]
    {
    }

    method HandleMiss(e: nat, flow: uint32)
      requires Distinct() && Shaped(State()) && e < LM_SIZE
      modifies this, lm[e]
      ensures State() == Miss(old(State()), e, flow)
    {
      var incomingSlot := flow % CLS_SIZE;
      var evicted := tags[e];
      var evictedSlot := evicted % CLS_SIZE;
      var expelled := status[evictedSlot];
      tags := tags[e := flow];
      var evictRecord := lm[e].Value();
      status := status[evictedSlot := evicted];
      if expelled == 0 {
        cls := cls[evictedSlot := evictRecord];
      } else {
        var swapped := cls[evictedSlot];
        cls := cls[evictedSlot := evictRecord];
        if expelled == flow {
          lm[e].Load(swapped);
          RecordsAfter(e);
          return;
        }
        table := table[expelled := swapped];
      }
      var incoming;
      if status[incomingSlot] == flow {
        status := status[incomingSlot := 0];
        incoming := cls[incomingSlot];
      } else {
        incoming := table[flow];
      }
      lm[e].Load(incoming);
      RecordsAfter(e);
    }

    /** Look up, bring in on a miss, and run the handler in place. */
    method ProcessItem(x: Item) returns (result: Result)
      requires Distinct() && Shaped(State()) && ValidItem(x)
      modifies this, lm
      ensures (State(), result) == Process(old(State()), x)
    {
      var i := x.entry;
      if x.flow in tags {
        i := IndexOf(tags, x.flow);
      } else {
        HandleMiss(x.entry, x.flow);
      }
      label Found:
      result := lm[i].Run(x.work);
      RecordsAfter@Found(i);
    }
  }
}
