/** The threaded, cached data path seen from one flow: it is a run of the handlers on that flow's
    record alone, so that everything proved of a connection holds there too. */
module ThreadedPath {
  import opened Words
  import opened Flows
  import opened FlowCaches
  import opened CacheThreads
  import Sending
  import Connections

  /** The work of one flow among the items of a run. */
  function WorksOf(xs: seq<Item>, f: uint32): seq<Work> {
    if xs == [] then [] else (if xs[0].flow == f then [xs[0].work] else []) + WorksOf(xs[1..], f)
  }

  /** The results of one flow among the results of a run. */
  function ResultsOf(xs: seq<Item>, rs: seq<Result>, f: uint32): seq<Result>
    requires |xs| == |rs|
  {
    if xs == [] then [] else (if xs[0].flow == f then [rs[0]] else []) + ResultsOf(xs[1..], rs[1..], f)
  }

  /** The results of a run of the handlers on one record. */
  ghost function Answers(f: FlowTcp, ws: seq<Work>): seq<Result>
    requires forall w :: w in ws ==> ValidWork(w)
    decreases |ws|
  {
    if ws == [] then [] else [Handle(f, ws[0]).1] + Answers(Handle(f, ws[0]).0, ws[1..])
  }

  lemma {:induction false} WorksValid(xs: seq<Item>, f: uint32)
    requires forall x :: x in xs ==> ValidItem(x)
    ensures forall w :: w in WorksOf(xs, f) ==> ValidWork(w)
  {
    if xs != [] {
      assert xs[0] in xs;
      WorksValid(xs[1..], f);
    }
  }

  /** Projection: for one flow, a run on the flat table is a run of the handlers on its record,
      with the same results in the same order. */
  lemma {:induction false} FlatProjects(m: map<uint32, FlowTcp>, xs: seq<Item>, f: uint32)
    requires (forall x :: x in xs ==> ValidItem(x) && x.flow in m) && f in m
    ensures forall w :: w in WorksOf(xs, f) ==> ValidWork(w)
    ensures f in RunFlat(m, xs).0 && RunFlat(m, xs).0[f] == Sending.HandleAll(m[f], WorksOf(xs, f))
    ensures |RunFlat(m, xs).1| == |xs| && ResultsOf(xs, RunFlat(m, xs).1, f) == Answers(m[f], WorksOf(xs, f))
    decreases |xs|
  {
    hide Handle;
    WorksValid(xs, f);
    if xs != [] {
      var x := xs[0];
      assert x in xs;
      var m' := FlatProcess(m, x).0;
      FlatProjects(m', xs[1..], f);
      var ws := WorksOf(xs[1..], f);
      if x.flow == f {
        assert ([x.work] + ws)[1..] == ws;
      } else {
        assert WorksOf(xs, f) == ws;
      }
      assert RunFlat(m, xs).1 == [FlatProcess(m, x).1] + RunFlat(m', xs[1..]).1;
      assert RunFlat(m, xs).1[1..] == RunFlat(m', xs[1..]).1;
    }
  }

  function EventWorks(es: seq<Connections.Event>): seq<Work> {
    if es == [] then [] else [Connections.WorkOf(es[0])] + EventWorks(es[1..])
  }

  /** The record of a connection after a run is what the handlers make of it. */
  lemma {:induction false} ConnectionRecord(w: Connections.World, es: seq<Connections.Event>)
    requires |w.inb.mem| > 0 && |w.out.mem| > 0 && Connections.Feasible(w, es)
    ensures forall x :: x in EventWorks(es) ==> ValidWork(x)
    ensures Connections.Run(w, es).flow == Sending.HandleAll(w.flow, EventWorks(es))
    decreases |es|
  {
    hide Handle, Connections.StepInbound, Connections.StepOutbound;
    if es != [] {
      var w' := Connections.Step(w, es[0]);
      ConnectionRecord(w', es[1..]);
      assert EventWorks(es)[1..] == EventWorks(es[1..]);
    }
  }

  /** From reset on, whatever the threads do with all the flows: if what they execute for one flow
      are the events of a connection, then its current record is that of the connection's run, the
      results are those of the handlers on it, and the connection is consistent, with all that
      follows for what its application reads and what it sends. */
  lemma ThreadedConnection(lm: seq<FlowTcp>, cls: seq<FlowTcp>, table: map<uint32, FlowTcp>, acts: seq<Action>,
                           f: uint32, w: Connections.World, es: seq<Connections.Event>)
    requires |lm| == LM_SIZE && |cls| == CLS_SIZE && forall g: uint32 :: g in table
    requires WellFormed(Booted(lm, cls, table)) && Interleaving(Booted(lm, cls, table), acts)
    requires LeastRecent(Booted(lm, cls, table), acts)
    requires 0 < f < FLOW_IDS && Connections.Ok(w) && w.flow == table[f]
    requires |w.inb.mem| > 0 && |w.out.mem| > 0 && Connections.Feasible(w, es)
    requires WorksOf(Executions(Booted(lm, cls, table), acts), f) == EventWorks(es)
    ensures var s := Booted(lm, cls, table);
            && Current(Settled(CacheThreads.Run(s, acts).0), f) == Connections.Run(w, es).flow
            && |CacheThreads.Run(s, acts).1| == |Executions(s, acts)|
            && (forall x :: x in EventWorks(es) ==> ValidWork(x))
            && ResultsOf(Executions(s, acts), CacheThreads.Run(s, acts).1, f) == Answers(w.flow, EventWorks(es))
    ensures Connections.Ok(Connections.Run(w, es)) && Connections.Extends(w, Connections.Run(w, es))
  {
    hide Connections.Ok, Connections.Extends, Settled, Booted, Act, Handle, Current;
    ThreadsFromReset(lm, cls, table, acts);
    FlatProjects(table, Executions(Booted(lm, cls, table), acts), f);
    ConnectionRecord(w, es);
    Connections.RunOk(w, es);
  }
}
