/** Round robin over the application contexts that have descriptors to fetch. */
module AppContexts {
  import opened Words
  import opened Buffers
  import opened Sequences

  const CONTEXTS := 32

  /** Descriptor number `index` of context `ctx` was fetched from ring position `pos`. */
  datatype Fetch = Fetch(ctx: nat, index: nat, pos: nat)

  /** The rotation in unbounded terms: `queue` is the order of service; `known` descriptors of
      a context are known to exist, those from `start` to `fetched` have been fetched; `unpolled`
      contexts have been activated but not polled yet. */
  datatype Rotation = Rotation(
    queue: seq<nat>, len: seq<nat>, known: seq<nat>, start: seq<nat>, fetched: seq<nat>, unpolled: set<nat>, log: seq<Fetch>)

  ghost predicate Shaped(a: Rotation) {
    |a.len| == |a.known| == |a.start| == |a.fetched| == CONTEXTS
  }

  /** Serve the context at the head: fetch its next descriptor and requeue it if it has more. */
  function Serve(a: Rotation): Rotation
    requires Shaped(a) && a.queue != [] && a.queue[0] < CONTEXTS && a.len[a.queue[0]] > 0
  {
    var c := a.queue[0];
    var n := a.fetched[c];
    a.(fetched := a.fetched[c := n + 1],
       log := a.log + [Fetch(c, n, n % a.len[c])],
       queue := a.queue[1..] + if a.known[c] != n + 1 then [c] else [])
  }

  /** Learn that the host has produced `total` descriptors for `c`. */
  function Poll(a: Rotation, c: nat, total: nat): Rotation
    requires Shaped(a) && c < CONTEXTS
  {
    a.(known := a.known[c := total], unpolled := a.unpolled - {c},
       queue := if c !in a.queue && total != a.fetched[c] then a.queue + [c] else a.queue)
  }

  /** The host has set up context `c`, whose ring it starts at `first`. */
  function Activate(a: Rotation, c: nat, len: nat, first: nat, total: nat): Rotation
    requires Shaped(a) && c < CONTEXTS
  {
    a.(len := a.len[c := len], known := a.known[c := total], start := a.start[c := first], fetched := a.fetched[c := first],
       unpolled := a.unpolled + {c})
  }

  ghost predicate Distinct(s: seq<nat>) {
    forall i, j :: 0 <= i < j < |s| ==> s[i] != s[j]
  }

  /** A context is queued exactly once or not at all; it is queued if and only if it has a
      known descriptor that was not fetched, unless it has never been polled. */
  ghost predicate Ok(a: Rotation) {
    && Shaped(a) && Distinct(a.queue)
    && (forall c :: c in a.queue ==> 0 < c < CONTEXTS)
    && (forall c :: 0 <= c < CONTEXTS && a.len[c] > 0 ==> a.fetched[c] <= a.known[c] < a.fetched[c] + a.len[c])
    && (forall c :: 0 <= c < CONTEXTS && a.len[c] == 0 ==> c !in a.queue && a.fetched[c] == a.known[c] == 0)
    && (forall c :: c in a.queue ==> a.known[c] != a.fetched[c])
    && (forall c :: 0 < c < CONTEXTS && c !in a.unpolled && a.known[c] != a.fetched[c] ==> c in a.queue)
  }

  lemma DistinctTail(s: seq<nat>, c: nat)
    requires Distinct(s) && s != []
    ensures Distinct(s[1..]) && s[0] !in s[1..] && Distinct(s[1..] + [s[0]])
    ensures c in s <==> c == s[0] || c in s[1..]
  {
  }

  lemma ServeOk(a: Rotation)
    requires Ok(a) && a.queue != []
    ensures a.queue[0] < CONTEXTS && a.len[a.queue[0]] > 0 && Ok(Serve(a))
  {
    var c := a.queue[0];
    assert c in a.queue;
    DistinctTail(a.queue, c);
    var a' := Serve(a);
    forall d
      ensures d in a'.queue <==> d in a.queue && (d == c ==> a.known[c] != a.fetched[c] + 1)
    {
      DistinctTail(a.queue, d);
    }
  }

  lemma PollOk(a: Rotation, c: nat, total: nat)
    requires Ok(a) && 0 < c < CONTEXTS && a.len[c] > 0
    requires a.known[c] <= total < a.fetched[c] + a.len[c]
    ensures Ok(Poll(a, c, total))
  {
    var a' := Poll(a, c, total);
    assert forall d :: d in a'.queue <==> d in a.queue || (d == c && total != a.fetched[c]);
  }

  lemma ActivateOk(a: Rotation, c: nat, len: nat, first: nat, total: nat)
    requires Ok(a) && 0 < c < CONTEXTS && a.len[c] == 0 && first <= total < first + len
    ensures Ok(Activate(a, c, len, first, total))
  {
  }

  /** Never more than 31 contexts are queued, so a 32-entry ring cannot overflow. */
  lemma QueueBounded(a: Rotation)
    requires Ok(a)
    ensures |a.queue| < CONTEXTS
  {
    assert forall i :: 0 <= i < |a.queue| ==> a.queue[i] in a.queue;
    Crowded(a.queue, 1, CONTEXTS);
  }

  // ------------------------------------------------------------------------------ runs

  datatype Event = Served | Polled(ctx: nat, total: nat) | Activated(ctx: nat, len: nat, first: nat, total: nat)

  /** The host appends descriptors and never laps the consumer. */
  ghost predicate Enabled(a: Rotation, e: Event)
    requires Shaped(a)
  {
    match e
    case Served => a.queue != []
    case Polled(c, total) => 0 < c < CONTEXTS && a.len[c] > 0 && a.known[c] <= total < a.fetched[c] + a.len[c]
    case Activated(c, len, first, total) => 0 < c < CONTEXTS && a.len[c] == 0 && first <= total < first + len
  }

  ghost function Next(a: Rotation, e: Event): (a': Rotation)
    requires Ok(a) && Enabled(a, e)
    ensures Ok(a')
  {
    match e
    case Served => ServeOk(a); Serve(a)
    case Polled(c, total) => PollOk(a, c, total); Poll(a, c, total)
    case Activated(c, len, first, total) => ActivateOk(a, c, len, first, total); Activate(a, c, len, first, total)
  }

  ghost predicate Feasible(a: Rotation, es: seq<Event>)
    requires Ok(a)
    decreases |es|
  {
    es != [] ==> Enabled(a, es[0]) && Feasible(Next(a, es[0]), es[1..])
  }

  ghost function Run(a: Rotation, es: seq<Event>): (a': Rotation)
    requires Ok(a) && Feasible(a, es)
    ensures Ok(a')
    decreases |es|
  {
    if es == [] then a else Run(Next(a, es[0]), es[1..])
  }

  function Serves(es: seq<Event>): nat {
    if es == [] then 0 else (if es[0].Served? then 1 else 0) + Serves(es[1..])
  }

  /** A queued context moves up by one with every service, whatever else happens: after as
      many services as there were contexts ahead of it, it is at the head. */
  lemma {:induction false} MovesUp(a: Rotation, es: seq<Event>, k: nat)
    requires Ok(a) && Feasible(a, es) && k < |a.queue| && Serves(es) <= k
    ensures var q := Run(a, es).queue; k - Serves(es) < |q| && q[k - Serves(es)] == a.queue[k]
    decreases |es|
  {
    hide Ok;
    if es != [] {
      MovesUp(Next(a, es[0]), es[1..], if es[0].Served? then k - 1 else k);
    }
  }

  // ------------------------------------------------------- published descriptors are fetched

  /** After a poll a context is queued exactly if it has a descriptor to fetch, at the end if it
      was not queued before; the others keep their order. */
  lemma PollQueues(a: Rotation, c: nat, total: nat)
    requires Ok(a) && Enabled(a, Polled(c, total))
    ensures var a' := Poll(a, c, total);
            && (c in a'.queue <==> total != a.fetched[c]) && a'.known[c] == total && a'.fetched == a.fetched
            && a'.queue == if c !in a.queue && total != a.fetched[c] then a.queue + [c] else a.queue
  {
  }

  /** Whether the last activation of context `c`, if any, was followed by a poll of it. */
  predicate PolledSince(es: seq<Event>, c: nat) {
    es != [] &&
    match es[|es| - 1]
    case Polled(d, _) => d == c || PolledSince(es[..|es| - 1], c)
    case Activated(d, _, _, _) => d != c && PolledSince(es[..|es| - 1], c)
    case Served => PolledSince(es[..|es| - 1], c)
  }

  lemma {:induction false} FeasiblePrefix(a: Rotation, es: seq<Event>)
    requires Ok(a) && Feasible(a, es) && es != []
    ensures var before := es[..|es| - 1];
            && Feasible(a, before) && Enabled(Run(a, before), es[|es| - 1])
            && Run(a, es) == Next(Run(a, before), es[|es| - 1])
    decreases |es|
  {
    hide Ok, Enabled, Next;
    if |es| > 1 {
      FeasiblePrefix(Next(a, es[0]), es[1..]);
      assert es[1..][..|es| - 2] == es[..|es| - 1][1..];
    }
  }

  /** Over every run: a context that was polled since its activation is queued exactly if it has a
      known descriptor that was not fetched. */
  lemma {:induction false} QueuedIffPending(a: Rotation, es: seq<Event>, c: nat)
    requires Ok(a) && Feasible(a, es) && 0 < c < CONTEXTS && PolledSince(es, c)
    ensures var a' := Run(a, es);
            && c !in a'.unpolled && (c in a'.queue <==> a'.known[c] != a'.fetched[c])
    decreases |es|
  {
    hide Serve, Distinct;
    var before, e := es[..|es| - 1], es[|es| - 1];
    FeasiblePrefix(a, es);
    if !(e.Polled? && e.ctx == c) {
      QueuedIffPending(a, before, c);
      KeepsPolled(Run(a, before), e, c);
    }
  }

  lemma KeepsPolled(a: Rotation, e: Event, c: nat)
    requires Ok(a) && Enabled(a, e) && c !in a.unpolled && (e.Activated? ==> e.ctx != c)
    ensures c !in Next(a, e).unpolled
  {
    hide Ok;
  }

  /** What events do to a queued context: it is served when at the head, and keeps a descriptor
      that is known to be there. */
  lemma StepTowards(a: Rotation, e: Event, k: nat, d: nat)
    requires Ok(a) && Enabled(a, e) && k < |a.queue| && a.queue[k] < CONTEXTS
    requires a.fetched[a.queue[k]] <= d < a.known[a.queue[k]]
    ensures var c, a' := a.queue[k], Next(a, e);
            && Shaped(a') && d < a'.known[c]
            && (if e.Served? && k == 0
                then a'.fetched[c] == a.fetched[c] + 1 && (a'.fetched[c] <= d ==> a'.queue != [] && a'.queue[|a'.queue| - 1] == c)
                else a'.fetched[c] == a.fetched[c] && (if e.Served? then k - 1 else k) < |a'.queue|
                     && a'.queue[if e.Served? then k - 1 else k] == c)
  {
  }

  lemma StepGrows(a: Rotation, e: Event, c: nat)
    requires Ok(a) && Enabled(a, e) && c < CONTEXTS && a.len[c] > 0
    ensures var a' := Next(a, e); Shaped(a') && a'.len[c] > 0 && a.fetched[c] <= a'.fetched[c]
  {
  }

  lemma {:induction false} FetchedGrows(a: Rotation, es: seq<Event>, c: nat)
    requires Ok(a) && Feasible(a, es) && c < CONTEXTS && a.len[c] > 0
    ensures a.fetched[c] <= Run(a, es).fetched[c]
    decreases |es|
  {
    hide Ok, Next;
    if es != [] {
      StepGrows(a, es[0], c);
      FetchedGrows(Next(a, es[0]), es[1..], c);
    }
  }

  /** A published descriptor is fetched in time: descriptor `d` of the context at position `k`, once
      known, after at most `k + 1` services and a full round of 32 for each descriptor of the
      context before it, whatever else is served, polled or activated meanwhile. */
  lemma {:induction false} FetchedInTime(a: Rotation, es: seq<Event>, k: nat, d: nat)
    requires Ok(a) && Feasible(a, es) && k < |a.queue| && a.queue[k] < CONTEXTS
    requires a.fetched[a.queue[k]] <= d < a.known[a.queue[k]]
    requires Serves(es) >= k + 1 + (d - a.fetched[a.queue[k]]) * CONTEXTS
    ensures d < Run(a, es).fetched[a.queue[k]]
    decreases |es|
  {
    hide Ok, Enabled, Serve, Poll, Activate;
    var c, e, a' := a.queue[k], es[0], Next(a, es[0]);
    StepTowards(a, e, k, d);
    if e.Served? && k == 0 {
      if a'.fetched[c] <= d {
        QueueBounded(a');
        FetchedInTime(a', es[1..], |a'.queue| - 1, d);
      } else {
        HasLength(a', c);
        FetchedGrows(a', es[1..], c);
      }
    } else {
      FetchedInTime(a', es[1..], if e.Served? then k - 1 else k, d);
    }
  }

  lemma HasLength(a: Rotation, c: nat)
    requires Ok(a) && c < CONTEXTS && a.fetched[c] > 0
    ensures a.len[c] > 0
  {
  }

  /** Together: what the host has published and a poll has seen is fetched, after a number of
      services that depends only on how many descriptors of the context come before it. */
  lemma PublishedIsFetched(a: Rotation, c: nat, total: nat, es: seq<Event>, d: nat)
    requires Ok(a) && Enabled(a, Polled(c, total)) && a.fetched[c] <= d < total
    requires Feasible(Next(a, Polled(c, total)), es) && Serves(es) >= (d - a.fetched[c] + 1) * CONTEXTS
    ensures d < Run(Next(a, Polled(c, total)), es).fetched[c]
  {
    var a' := Next(a, Polled(c, total));
    PollQueues(a, c, total);
    var k :| 0 <= k < |a'.queue| && a'.queue[k] == c;
    QueueBounded(a');
    FetchedInTime(a', es, k, d);
  }

  /** The numbers of the descriptors fetched for one context, in order. */
  function FetchedOf(log: seq<Fetch>, c: nat): seq<nat> {
    if log == [] then []
    else FetchedOf(log[..|log| - 1], c) + if log[|log| - 1].ctx == c then [log[|log| - 1].index] else []
  }

  /** The numbers from `first` up to `end`. */
  function Numbers(first: nat, end: nat): seq<nat>
    requires first <= end
  {
    seq(end - first, i requires 0 <= i < end - first => first + i)
  }

  /** Every context's descriptors were fetched once each, in order, from their ring places. */
  ghost predicate Logged(a: Rotation) {
    && Shaped(a)
    && (forall c :: 0 <= c < CONTEXTS ==> a.start[c] <= a.fetched[c] && FetchedOf(a.log, c) == Numbers(a.start[c], a.fetched[c]))
    && (forall c :: 0 <= c < CONTEXTS && a.len[c] == 0 ==> a.start[c] == a.fetched[c])
    && (forall f :: f in a.log ==> f.ctx < CONTEXTS && a.len[f.ctx] > 0 && f.pos == f.index % a.len[f.ctx])
  }

  lemma FetchedMore(log: seq<Fetch>, f: Fetch, c: nat)
    ensures FetchedOf(log + [f], c) == FetchedOf(log, c) + if f.ctx == c then [f.index] else []
  {
    assert (log + [f])[..|log|] == log;
  }

  lemma NumbersMore(first: nat, end: nat)
    requires first <= end
    ensures Numbers(first, end + 1) == Numbers(first, end) + [end]
  {
  }

  lemma ServeLogged(a: Rotation)
    requires Logged(a) && Ok(a) && a.queue != []
    ensures Logged(Next(a, Served))
  {
    hide Ok, FetchedOf, Numbers;
    ServeOk(a);
    var a', c := Serve(a), a.queue[0];
    var f := Fetch(c, a.fetched[c], a.fetched[c] % a.len[c]);
    NumbersMore(a.start[c], a.fetched[c]);
    forall d | 0 <= d < CONTEXTS
      ensures FetchedOf(a'.log, d) == Numbers(a'.start[d], a'.fetched[d])
    {
      FetchedMore(a.log, f, d);
    }
  }

  lemma {:induction false} RunLogged(a: Rotation, es: seq<Event>)
    requires Ok(a) && Logged(a) && Feasible(a, es)
    ensures Logged(Run(a, es))
    decreases |es|
  {
    hide Ok, FetchedOf;
    if es != [] {
      if es[0].Served? {
        ServeLogged(a);
      }
      RunLogged(Next(a, es[0]), es[1..]);
    }
  }

  // -------------------------------------------------------- the firmware's representation

  /** The ring entry `i` places behind the head. */
  function Spot(head: nat, i: nat): nat {
    if head + i < CONTEXTS then head + i else head + i - CONTEXTS
  }

  /** The queue as the occupied part of the 32-entry ring. */
  ghost predicate RingHolds(r: seq<nat>, head: nat, tail: nat, queue: seq<nat>) {
    && |r| == CONTEXTS && head < CONTEXTS && tail < CONTEXTS
    && |queue| < CONTEXTS && tail == Spot(head, |queue|)
    && (forall i :: 0 <= i < |queue| ==> r[Spot(head, i)] == queue[i])
  }

  lemma RingHead(r: seq<nat>, head: nat, tail: nat, queue: seq<nat>)
    requires RingHolds(r, head, tail, queue) && head != tail
    ensures queue != [] && r[head] == queue[0]
    ensures RingHolds(r, (head + 1) % CONTEXTS, tail, queue[1..])
  {
    assert Spot(head, 0) == head;
    forall i | 0 <= i < |queue| - 1
      ensures r[Spot((head + 1) % CONTEXTS, i)] == queue[1..][i]
    {
      assert Spot((head + 1) % CONTEXTS, i) == Spot(head, i + 1);
    }
  }

  lemma RingAppend(r: seq<nat>, head: nat, tail: nat, queue: seq<nat>, idx: nat)
    requires RingHolds(r, head, tail, queue) && |queue| + 1 < CONTEXTS
    ensures RingHolds(r[tail := idx], head, (tail + 1) % CONTEXTS, queue + [idx])
  {
  }

  /** Producer and consumer indices are the counts modulo the queue length. */
  ghost predicate Indices(a: Rotation, len: seq<nat>, pIdx: seq<nat>, cIdx: seq<nat>) {
    && Shaped(a) && len == a.len && |pIdx| == |cIdx| == CONTEXTS
    && (forall c :: 0 <= c < CONTEXTS && len[c] > 0 ==> pIdx[c] == Rem(a.known[c], len[c]) && cIdx[c] == Rem(a.fetched[c], len[c]))
  }

  lemma ServeIndices(a: Rotation, len: seq<nat>, pIdx: seq<nat>, cIdx: seq<nat>)
    requires Ok(a) && a.queue != [] && Indices(a, len, pIdx, cIdx)
    ensures var c := a.queue[0];
            && 0 < c < CONTEXTS && a.len[c] > 0
            && Indices(Serve(a), len, pIdx, cIdx[c := Rem(cIdx[c] + 1, len[c])])
            && (pIdx[c] != Rem(cIdx[c] + 1, len[c]) <==> a.known[c] != a.fetched[c] + 1)
  {
    hide Rem;
    var c := a.queue[0];
    assert c in a.queue;
    NextIndex(len[c], a.fetched[c]);
    IndexTellsApart(len[c], a.fetched[c] + 1, a.known[c]);
  }

  lemma PollIndices(a: Rotation, len: seq<nat>, pIdx: seq<nat>, cIdx: seq<nat>, c: nat, total: nat)
    requires Ok(a) && Indices(a, len, pIdx, cIdx) && 0 < c < CONTEXTS && len[c] > 0
    requires a.known[c] <= total < a.fetched[c] + len[c]
    ensures Indices(Poll(a, c, total), len, pIdx[c := Rem(total, len[c])], cIdx)
    ensures Rem(total, len[c]) != cIdx[c] <==> total != a.fetched[c]
  {
    hide Rem;
    IndexTellsApart(len[c], a.fetched[c], total);
  }

  lemma ActivateIndices(a: Rotation, len: seq<nat>, pIdx: seq<nat>, cIdx: seq<nat>, c: nat, newLen: nat, first: nat, total: nat)
    requires Indices(a, len, pIdx, cIdx) && 0 < c < CONTEXTS && first < newLen
    ensures Indices(Activate(a, c, newLen, first, total), len[c := newLen], pIdx[c := Rem(total, newLen)], cIdx[c := first])
  {
    ModOf(first, newLen, 0, first);
  }

  class AppScheduler {
    const ring: array<nat>
    var head: nat
    var tail: nat
    var onQueue: set<nat>
    var len: seq<nat>
    var pIdx: seq<nat>
    var cIdx: seq<nat>
    ghost var abs: Rotation

    /** Ring indices and queue indices are the wrapped forms of the rotation's counts. */
    ghost predicate Valid()
      reads this, ring
    {
      && Ok(abs) && RingHolds(ring[..], head, tail, abs.queue) && Indices(abs, len, pIdx, cIdx)
      && (forall c :: c in onQueue <==> c in abs.queue)
    }

    constructor ()
      ensures Valid() && Logged(abs) && abs.queue == []
    {
      ring := new nat[CONTEXTS](_ => 0);
      head, tail, onQueue := 0, 0, {};
      len, pIdx, cIdx := seq(CONTEXTS, _ => 0), seq(CONTEXTS, _ => 0), seq(CONTEXTS, _ => 0);
      abs := Rotation([], seq(CONTEXTS, _ => 0), seq(CONTEXTS, _ => 0), seq(CONTEXTS, _ => 0), seq(CONTEXTS, _ => 0), {}, []);
    }

    /** Put a context at the end of the ring. */
    method Enqueue(idx: nat, ghost queue: seq<nat>)
      requires RingHolds(ring[..], head, tail, queue) && |queue| + 1 < CONTEXTS
      modifies `tail, `onQueue, ring
      ensures RingHolds(ring[..], head, tail, queue + [idx]) && onQueue == old(onQueue) + {idx}
    {
      RingAppend(ring[..], head, tail, queue, idx);
      ring[tail] := idx;
      assert ring[..] == old(ring[..])[tail := idx];
      tail := (tail + 1) % CONTEXTS;
      onQueue := onQueue + {idx};
    }

    /** One descriptor fetch: what runs without a swap between the two bit operations. */
    method ServeNext() returns (idx: nat, pos: nat)
      requires Valid() && head != tail
      modifies this, ring
      ensures Valid() && old(abs).queue != [] && abs == Next(old(abs), Served)
      ensures idx == old(abs).queue[0] && idx < |old(cIdx)| && pos == old(cIdx)[idx]
    {
      hide Ok;
      RingHead(ring[..], head, tail, abs.queue);
      ServeIndices(abs, len, pIdx, cIdx);
      ServeOk(abs);
      QueueBounded(Serve(abs));
      OkDistinct(abs);
      idx := ring[head];
      head := (head + 1) % CONTEXTS;
      onQueue := onQueue - {idx};
      pos := cIdx[idx];
      cIdx := cIdx[idx := Rem(pos + 1, len[idx])];
      ghost var rest := abs.queue[1..];
      abs := Serve(abs);
      if pIdx[idx] != cIdx[idx] {
        Enqueue(idx, rest);
      }
    }

    static lemma OkDistinct(a: Rotation)
      requires Ok(a) && a.queue != []
      ensures forall c :: c in a.queue <==> c == a.queue[0] || c in a.queue[1..]
      ensures a.queue[0] !in a.queue[1..]
    {
      DistinctTail(a.queue, 0);
    }

    /** Note the host's tail for a context, and queue the context if it has work. */
    method PollContext(idx: nat, hostTail: nat, ghost total: nat)
      requires Valid() && 0 < idx < CONTEXTS && len[idx] > 0
      requires abs.known[idx] <= total < abs.fetched[idx] + len[idx] && hostTail == Rem(total, len[idx])
      modifies this, ring
      ensures Valid() && abs == Next(old(abs), Polled(idx, total))
    {
      hide Ok;
      PollOk(abs, idx, total);
      QueueBounded(Poll(abs, idx, total));
      PollIndices(abs, len, pIdx, cIdx, idx, total);
      pIdx := pIdx[idx := hostTail];
      ghost var queue := abs.queue;
      abs := Poll(abs, idx, total);
      if idx !in onQueue && pIdx[idx] != cIdx[idx] {
        Enqueue(idx, queue);
      }
    }

    /** Copy the registers of a context that the host has just set up. */
    method ActivateContext(idx: nat, newLen: nat, hostHead: nat, hostTail: nat, ghost total: nat)
      requires Valid() && 0 < idx < CONTEXTS && len[idx] == 0 && hostHead < newLen
      requires hostHead <= total < hostHead + newLen && hostTail == Rem(total, newLen)
      modifies this
      ensures Valid() && abs == Next(old(abs), Activated(idx, newLen, hostHead, total))
    {
      hide Ok;
      ActivateOk(abs, idx, newLen, hostHead, total);
      ActivateIndices(abs, len, pIdx, cIdx, idx, newLen, hostHead, total);
      len, pIdx, cIdx := len[idx := newLen], pIdx[idx := hostTail], cIdx[idx := hostHead];
      abs := Activate(abs, idx, newLen, hostHead, total);
    }
  }
}
