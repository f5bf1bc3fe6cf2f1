/** The timeout manager: two doubly linked lists over a 28-bit wrapping microsecond clock. */
module Timeouts {
  import opened Words
  import Buffers
  import opened Sequences

  const RANGE := 0x1000_0000
  const MIDDLE := 0x800_0000
  const MAX_TIMEOUTS := 64

  /** Signed distance from the time stamp `cur` to the time stamp `ts`. */
  function RelTime(cur: nat, ts: nat): int
    requires cur < RANGE && ts < RANGE
  {
    if cur < MIDDLE then
      var start := (cur - MIDDLE) % RANGE;
      if start <= ts then ts - start - MIDDLE else ts - cur
    else if cur == MIDDLE then ts - cur
    else
      var end := (cur + MIDDLE) % RANGE + 1;
      if ts < end then ts + (RANGE - cur) else ts - cur
  }

  /** The 28 bits of a time that fit into a stamp. */
  function Low(n: int): (ts: nat)
    ensures ts < RANGE
  {
    n % RANGE
  }

  /** The distance of wrapped stamps is that of the times, if those are less than half the
      range apart. */
  lemma RelTimeExact(now: nat, deadline: nat)
    requires -MIDDLE < deadline - now < MIDDLE
    ensures RelTime(Low(now), Low(deadline)) == deadline - now
  {
    var q, r := now / RANGE, deadline / RANGE;
    assert now == RANGE * q + Low(now) && deadline == RANGE * r + Low(deadline);
    assert -1 <= r - q <= 1;
  }

  /** At exactly half the range the sign depends on the clock's position, so the bound above
      cannot be relaxed on either side. */
  lemma RelTimeAtMiddle(now: nat)
    ensures RelTime(Low(now), Low(now + MIDDLE)) == if Low(now) > MIDDLE then MIDDLE else -MIDDLE
  {
    assert Low(now + MIDDLE) == Low(Low(now) + MIDDLE);
  }

  /** The type that a stamp carries above its time. */
  function KindOf(stamp: uint32): nat {
    stamp / RANGE
  }

  /** A signed result compared with an unsigned operand is taken modulo 2^32. */
  function AsUnsigned(x: int): int {
    if x < 0 then x + MOD else x
  }

  /** A timeout.  `armed` is the flag its owner keeps; `deadline` and `id` are ghosts: the
      unbounded time at which it is due and the number of its arming. */
  class Timeout {
    var prev: Timeout?
    var next: Timeout?
    var stamp: uint32
    var armed: bool
    ghost var deadline: nat
    ghost var id: nat
  }

  /** A timeout handed to the handler: which arming, when it was due, and the clock then. */
  datatype Firing = Firing(id: nat, deadline: nat, at: nat)

  // ------------------------------------------------------------------ what is invariant

  /** A list of timeouts, linked both ways between its ends, without repetition. */
  ghost predicate Chain(s: seq<Timeout>, first: Timeout?, last: Timeout?)
    reads s`prev, s`next
    ensures Chain(s, first, last) ==> first == if s == [] then null else s[0]
  {
    && first == (if s == [] then null else s[0])
    && last == (if s == [] then null else s[|s| - 1])
    && (forall i {:trigger s[i].prev} :: 0 <= i < |s| ==> s[i].prev == if i == 0 then null else s[i - 1])
    && (forall i {:trigger s[i].next} :: 0 <= i < |s| ==> s[i].next == if i == |s| - 1 then null else s[i + 1])
    && (forall i, j :: 0 <= i < j < |s| ==> s[i] != s[j])
  }

  ghost predicate Sorted(s: seq<Timeout>)
    reads s`deadline
  {
    forall i, j :: 0 <= i < j < |s| ==> s[i].deadline <= s[j].deadline
  }

  /** Everything due comes before everything pending. */
  ghost predicate Before(due: seq<Timeout>, pending: seq<Timeout>)
    reads due`deadline, pending`deadline
  {
    forall t, u :: t in due && u in pending ==> t.deadline <= u.deadline
  }

  /** What is pending lies less than half the range ahead, and its stamp says when. */
  ghost predicate Ahead(pending: seq<Timeout>, clock: nat)
    reads pending`deadline, pending`stamp
  {
    forall t :: t in pending ==> clock <= t.deadline < clock + MIDDLE && Low(t.stamp) == Low(t.deadline)
  }

  ghost predicate Past(due: seq<Timeout>, clock: nat)
    reads due`deadline
  {
    forall t :: t in due ==> t.deadline <= clock
  }

  /** The two lists have no timeout in common, and together hold exactly `live`. */
  ghost predicate Partition(due: seq<Timeout>, pending: seq<Timeout>, live: set<Timeout>) {
    && (forall t :: t in due ==> t in live)
    && (forall t :: t in pending ==> t in live && t !in due)
    && (forall t :: t in live ==> t in pending || t in due)
  }

  ghost predicate Flagged(live: set<Timeout>, universe: set<Timeout>)
    reads universe`armed
  {
    live <= universe && forall t :: t in universe ==> (t.armed <==> t in live)
  }

  /** No arming fired twice or early, and firings went by deadline over the whole history. */
  ghost predicate History(fired: seq<Firing>, clock: nat, serial: nat) {
    && (forall f :: f in fired ==> f.deadline <= f.at <= clock && f.id < serial)
    && (forall i, j :: 0 <= i < j < |fired| ==> fired[i].deadline <= fired[j].deadline && fired[i].id != fired[j].id)
  }

  /** Armings have their own numbers, none of them fired, and no firing overtook them. */
  ghost predicate Waiting(fired: seq<Firing>, live: set<Timeout>, serial: nat)
    reads live`id, live`deadline
  {
    && (forall t :: t in live ==> t.id < serial)
    && (forall t, u :: t in live && u in live && t != u ==> t.id != u.id)
    && (forall f, t :: f in fired && t in live ==> f.deadline <= t.deadline && f.id != t.id)
  }

  /** Both lists are in order of true deadlines, the due one first; what is pending has not
      been reached by `clock`, what is due has been reached by `now`. */
  ghost predicate InOrder(due: seq<Timeout>, pending: seq<Timeout>, clock: nat, now: nat)
    reads due`deadline, pending`deadline, pending`stamp
  {
    Sorted(pending) && Sorted(due) && Before(due, pending) && Ahead(pending, clock) && Past(due, now)
  }

  /** The lists hold the armed timeouts, and the history is as it should be. */
  ghost predicate Accounts(due: seq<Timeout>, pending: seq<Timeout>, live: set<Timeout>, universe: set<Timeout>,
                           fired: seq<Firing>, clock: nat, serial: nat)
    reads universe`armed, live`id, live`deadline
  {
    && Partition(due, pending, live) && Flagged(live, universe)
    && History(fired, clock, serial) && Waiting(fired, live, serial)
  }

  // ------------------------------------------------------- how the invariants are kept

  lemma ShiftFirst(due: seq<Timeout>, pending: seq<Timeout>, now: nat)
    requires pending != [] && Sorted(due) && Sorted(pending) && Before(due, pending) && Past(due, now)
    requires pending[0].deadline <= now
    ensures Sorted(due + [pending[0]]) && Sorted(pending[1..])
    ensures Before(due + [pending[0]], pending[1..]) && Past(due + [pending[0]], now)
  {
    assert pending[0] in pending;
    assert forall t :: t in pending[1..] ==> t in pending;
  }

  lemma AheadRest(pending: seq<Timeout>, clock: nat)
    requires Ahead(pending, clock) && pending != []
    ensures clock <= pending[0].deadline < clock + MIDDLE && Low(pending[0].stamp) == Low(pending[0].deadline)
    ensures Ahead(pending[1..], clock)
  {
    assert pending[0] in pending;
    assert forall t :: t in pending[1..] ==> t in pending;
  }

  lemma AheadLater(pending: seq<Timeout>, clock: nat, now: nat)
    requires Ahead(pending, clock) && clock <= now && forall t :: t in pending ==> now < t.deadline
    ensures Ahead(pending, now)
  {
  }

  lemma AllAfterFirst(s: seq<Timeout>, now: nat)
    requires Sorted(s) && s != [] && now < s[0].deadline
    ensures forall t :: t in s ==> now < t.deadline
  {
    forall t | t in s
      ensures now < t.deadline
    {
      var i :| 0 <= i < |s| && s[i] == t;
    }
  }

  lemma SamePartition(d: seq<Timeout>, p: seq<Timeout>, d': seq<Timeout>, p': seq<Timeout>, live: set<Timeout>)
    requires Partition(d, p, live) && d + p == d' + p'
    requires forall t :: t in p' ==> t !in d'
    ensures Partition(d', p', live)
  {
    assert forall t :: t in d || t in p <==> t in d + p;
    assert forall t :: t in d' || t in p' <==> t in d' + p';
  }

  lemma LaterHistory(fired: seq<Firing>, clock: nat, clock': nat, serial: nat, serial': nat)
    requires History(fired, clock, serial) && clock <= clock' && serial <= serial'
    ensures History(fired, clock', serial')
  {
  }

  /** A chain into which `to` has been spliced at position `k`. */
  lemma SplicedChain(p: seq<Timeout>, to: Timeout, k: nat)
    requires k <= |p| && to !in p && forall i, j :: 0 <= i < j < |p| ==> p[i] != p[j]
    requires to.prev == (if k == 0 then null else p[k - 1]) && to.next == if k == |p| then null else p[k]
    requires forall i {:trigger p[i].next} :: 0 <= i < |p| ==>
               p[i].next == if i == k - 1 then to else if i == |p| - 1 then null else p[i + 1]
    requires forall i {:trigger p[i].prev} :: 0 <= i < |p| ==>
               p[i].prev == if i == k then to else if i == 0 then null else p[i - 1]
    ensures var p' := p[..k] + [to] + p[k..]; Chain(p', p'[0], p'[|p'| - 1])
  {
    var p' := p[..k] + [to] + p[k..];
    assert forall i :: 0 <= i < k ==> p'[i] == p[i];
    assert p'[k] == to;
    assert forall i :: k < i < |p'| ==> p'[i] == p[i - 1];
  }

  /** A chain from which position `k` has been taken out. */
  lemma CutChain(p: seq<Timeout>, k: nat)
    requires k < |p| && forall i, j :: 0 <= i < j < |p| ==> p[i] != p[j]
    requires forall i {:trigger p[i].next} :: 0 <= i < |p| && i != k ==>
               p[i].next == var n := if i == k - 1 then i + 2 else i + 1; if n == |p| then null else p[n]
    requires forall i {:trigger p[i].prev} :: 0 <= i < |p| && i != k ==>
               p[i].prev == var n := if i == k + 1 then i - 2 else i - 1; if n == -1 then null else p[n]
    ensures var p' := p[..k] + p[k + 1..];
            if p' == [] then Chain(p', null, null) else Chain(p', p'[0], p'[|p'| - 1])
  {
    var p' := p[..k] + p[k + 1..];
    assert forall i :: 0 <= i < k ==> p'[i] == p[i];
    assert forall i :: k <= i < |p'| ==> p'[i] == p[i + 1];
  }

  lemma InsertedSorted(p: seq<Timeout>, k: nat, to: Timeout)
    requires Sorted(p) && k <= |p|
    requires k > 0 ==> p[k - 1].deadline <= to.deadline
    requires forall i :: k <= i < |p| ==> to.deadline <= p[i].deadline
    ensures Sorted(p[..k] + [to] + p[k..])
  {
  }

  lemma InsertedAhead(due: seq<Timeout>, p: seq<Timeout>, k: nat, to: Timeout, clock: nat)
    requires Before(due, p) && Ahead(p, clock) && Past(due, clock) && k <= |p|
    requires clock <= to.deadline < clock + MIDDLE && Low(to.stamp) == Low(to.deadline)
    ensures Before(due, p[..k] + [to] + p[k..]) && Ahead(p[..k] + [to] + p[k..], clock)
  {
    hide Low;
    InsertedMembers(p, k, to);
  }

  lemma InsertedMembers(p: seq<Timeout>, k: nat, to: Timeout)
    requires k <= |p|
    ensures forall t :: t in p[..k] + [to] + p[k..] <==> t in p || t == to
  {
    var p' := p[..k] + [to] + p[k..];
    assert p'[k] == to;
    assert p == p[..k] + p[k..];
  }

  lemma InsertedPartition(due: seq<Timeout>, p: seq<Timeout>, k: nat, to: Timeout, live: set<Timeout>)
    requires Partition(due, p, live) && k <= |p| && to !in due
    ensures Partition(due, p[..k] + [to] + p[k..], live + {to})
  {
    InsertedMembers(p, k, to);
  }

  lemma Armed(fired: seq<Firing>, live: set<Timeout>, clock: nat, serial: nat, to: Timeout)
    requires History(fired, clock, serial) && Waiting(fired, live, serial)
    requires to !in live && to.id == serial && clock <= to.deadline
    ensures Waiting(fired, live + {to}, serial + 1) && History(fired, clock, serial + 1)
  {
  }

  lemma Disarmed(fired: seq<Firing>, live: set<Timeout>, serial: nat, to: Timeout)
    requires Waiting(fired, live, serial)
    ensures Waiting(fired, live - {to}, serial)
  {
  }

  lemma Fired(fired: seq<Firing>, live: set<Timeout>, clock: nat, serial: nat, to: Timeout)
    requires History(fired, clock, serial) && Waiting(fired, live, serial)
    requires to in live && to.deadline <= clock && forall t :: t in live ==> to.deadline <= t.deadline
    ensures var f := Firing(to.id, to.deadline, clock);
            History(fired + [f], clock, serial) && Waiting(fired + [f], live - {to}, serial)
  {
    var f := Firing(to.id, to.deadline, clock);
    assert forall g :: g in fired + [f] <==> g in fired || g == f;
  }

  /** The ends of a list without position `k`. */
  lemma CutEnds(p: seq<Timeout>, k: nat)
    requires k < |p|
    ensures var p' := p[..k] + p[k + 1..];
            if |p| == 1 then p' == []
            else && p' != [] && p'[0] == (if k == 0 then p[1] else p[0])
                 && p'[|p'| - 1] == if k == |p| - 1 then p[k - 1] else p[|p| - 1]
  {
  }

  /** Lists stay in order when an element is taken out. */
  lemma CutOrder(p: seq<Timeout>, k: nat)
    requires k < |p| && Sorted(p)
    ensures Sorted(p[..k] + p[k + 1..])
  {
  }

  lemma OrderOpens(due: seq<Timeout>, pending: seq<Timeout>, clock: nat, now: nat)
    requires InOrder(due, pending, clock, clock) && clock <= now
    ensures InOrder(due, pending, clock, now)
  {
  }

  lemma OrderHead(due: seq<Timeout>, pending: seq<Timeout>, clock: nat, now: nat)
    requires InOrder(due, pending, clock, now) && pending != []
    ensures clock <= pending[0].deadline < clock + MIDDLE && Low(pending[0].stamp) == Low(pending[0].deadline)
    ensures pending[0].deadline <= now ==> InOrder(due + [pending[0]], pending[1..], clock, now)
  {
    hide Sorted, Before, Past, Ahead;
    AheadRest(pending, clock);
    if pending[0].deadline <= now {
      ShiftFirst(due, pending, now);
    }
  }

  lemma OrderCloses(due: seq<Timeout>, pending: seq<Timeout>, clock: nat, now: nat)
    requires InOrder(due, pending, clock, now) && clock <= now
    requires pending != [] ==> now < pending[0].deadline
    ensures InOrder(due, pending, now, now) && forall t :: t in pending ==> now < t.deadline
  {
    if pending != [] {
      AllAfterFirst(pending, now);
    }
    AheadLater(pending, clock, now);
  }

  lemma OrderAt(due: seq<Timeout>, pending: seq<Timeout>, clock: nat, k: nat)
    requires InOrder(due, pending, clock, clock) && k < |pending|
    ensures RelTime(Low(clock), Low(pending[k].stamp)) == pending[k].deadline - clock >= 0
  {
    assert pending[k] in pending;
    RelTimeExact(clock, pending[k].deadline);
  }

  lemma OrderEnters(due: seq<Timeout>, p: seq<Timeout>, k: nat, to: Timeout, clock: nat)
    requires InOrder(due, p, clock, clock) && k <= |p|
    requires clock <= to.deadline < clock + MIDDLE && Low(to.stamp) == Low(to.deadline)
    requires k > 0 ==> p[k - 1].deadline <= to.deadline
    requires forall i :: k <= i < |p| ==> to.deadline <= p[i].deadline
    ensures InOrder(due, p[..k] + [to] + p[k..], clock, clock)
  {
    hide Sorted, Before, Past, Ahead, Low;
    InsertedSorted(p, k, to);
    InsertedAhead(due, p, k, to, clock);
  }

  lemma OrderLeaves(due: seq<Timeout>, p: seq<Timeout>, k: nat, clock: nat)
    requires InOrder(due, p, clock, clock)
    requires forall i, j :: 0 <= i < j < |p| ==> p[i] != p[j]
    requires forall i, j :: 0 <= i < j < |due| ==> due[i] != due[j]
    ensures k < |p| ==> InOrder(due, p[..k] + p[k + 1..], clock, clock)
    ensures k < |due| ==> InOrder(due[..k] + due[k + 1..], p, clock, clock)
  {
    if k < |p| {
      CutOrder(p, k);
      CutMembers(p, k);
    }
    if k < |due| {
      CutOrder(due, k);
      CutMembers(due, k);
    }
  }

  lemma AccountsMove(d: seq<Timeout>, p: seq<Timeout>, d': seq<Timeout>, p': seq<Timeout>, live: set<Timeout>,
                     universe: set<Timeout>, fired: seq<Firing>, clock: nat, now: nat, serial: nat)
    requires Accounts(d, p, live, universe, fired, clock, serial) && clock <= now && d + p == d' + p'
    requires forall t :: t in p' ==> t !in d'
    ensures Accounts(d', p', live, universe, fired, now, serial)
  {
    hide Partition, Flagged, History, Waiting;
    SamePartition(d, p, d', p', live);
    LaterHistory(fired, clock, now, serial, serial);
  }

  lemma AccountsEnter(d: seq<Timeout>, p: seq<Timeout>, k: nat, to: Timeout, live: set<Timeout>,
                      universe: set<Timeout>, fired: seq<Firing>, clock: nat, serial: nat)
    requires Partition(d, p, live) && live <= universe && History(fired, clock, serial) && Waiting(fired, live, serial)
    requires forall t :: t in universe && t != to ==> (t.armed <==> t in live)
    requires k <= |p| && to !in live && to.armed && to.id == serial && clock <= to.deadline
    ensures Accounts(d, p[..k] + [to] + p[k..], live + {to}, universe + {to}, fired, clock, serial + 1)
  {
    hide Partition, History, Waiting;
    Outside(d, p, live, to);
    InsertedPartition(d, p, k, to, live);
    Armed(fired, live, clock, serial, to);
  }

  lemma Outside(d: seq<Timeout>, p: seq<Timeout>, live: set<Timeout>, to: Timeout)
    requires Partition(d, p, live) && to !in live
    ensures to !in p && to !in d
  {
  }

  lemma AccountsLeave(d: seq<Timeout>, p: seq<Timeout>, k: nat, to: Timeout, live: set<Timeout>,
                      universe: set<Timeout>, fired: seq<Firing>, clock: nat, serial: nat)
    requires Partition(d, p, live) && live <= universe && History(fired, clock, serial) && Waiting(fired, live, serial)
    requires forall t :: t in universe && t != to ==> (t.armed <==> t in live)
    requires to in live && !to.armed
    requires forall i, j :: 0 <= i < j < |p| ==> p[i] != p[j]
    requires forall i, j :: 0 <= i < j < |d| ==> d[i] != d[j]
    ensures k < |p| && p[k] == to ==> Accounts(d, p[..k] + p[k + 1..], live - {to}, universe, fired, clock, serial)
    ensures k < |d| && d[k] == to ==> Accounts(d[..k] + d[k + 1..], p, live - {to}, universe, fired, clock, serial)
  {
    hide History, Waiting;
    Disarmed(fired, live, serial, to);
    if k < |p| && p[k] == to {
      CutMembers(p, k);
    }
    if k < |d| && d[k] == to {
      CutMembers(d, k);
    }
  }

  /** The first due timeout fires. */
  lemma AccountsFire(d: seq<Timeout>, p: seq<Timeout>, live: set<Timeout>, universe: set<Timeout>,
                     fired: seq<Firing>, clock: nat, serial: nat)
    requires d != [] && InOrder(d, p, clock, clock) && Partition(d, p, live)
    requires History(fired, clock, serial) && Waiting(fired, live, serial)
    ensures var f := Firing(d[0].id, d[0].deadline, clock);
            History(fired + [f], clock, serial) && Waiting(fired + [f], live - {d[0]}, serial)
  {
    hide History, Waiting;
    assert d[0] in d;
    forall t | t in live
      ensures d[0].deadline <= t.deadline
    {
      if t in d {
        var i :| 0 <= i < |d| && d[i] == t;
      }
    }
    Fired(fired, live, clock, serial, d[0]);
  }

  lemma AccountsExpire(d: seq<Timeout>, p: seq<Timeout>, live: set<Timeout>, universe: set<Timeout>,
                       fired: seq<Firing>, clock: nat, serial: nat)
    requires d != [] && Partition(d, p, live) && live <= universe
    requires History(fired, clock, serial) && Waiting(fired, live - {d[0]}, serial)
    requires forall t :: t in universe && t != d[0] ==> (t.armed <==> t in live)
    requires !d[0].armed && forall i, j :: 0 <= i < j < |d| ==> d[i] != d[j]
    ensures Accounts(d[1..], p, live - {d[0]}, universe, fired, clock, serial)
  {
    hide History, Waiting;
    CutMembers(d, 0);
    assert d[..0] + d[0 + 1..] == d[1..];
    assert d[0] in d;
  }

  lemma AccountsParts(d: seq<Timeout>, p: seq<Timeout>, live: set<Timeout>, universe: set<Timeout>,
                      fired: seq<Firing>, clock: nat, serial: nat)
    requires Accounts(d, p, live, universe, fired, clock, serial)
    ensures Partition(d, p, live) && live <= universe && History(fired, clock, serial) && Waiting(fired, live, serial)
    ensures forall t :: t in universe ==> (t.armed <==> t in live)
    ensures forall t :: t in p ==> t in live && t !in d
    ensures forall t :: t in d ==> t in live
    ensures forall t :: t in live ==> t in p || t in d
  {
  }

  /** What the owner of a timeout may do when one fires: arm or disarm any timeout. */
  datatype Reaction =
    | Arm(to: Timeout, us: nat, kind: nat, at: nat)
    | Cancel(to: Timeout)

  lemma LowOfWrap(n: int)
    ensures Low(Wrap(n)) == Low(n)
  {
    assert Wrap(n) == n - MOD * (n / MOD) && MOD == 16 * RANGE;
  }

  // ------------------------------------------------------------------------ the manager

  /** `pending` and `due` are the two lists; `clock` is the last time seen, unbounded;
      `universe` holds every timeout used so far, `live` those that are armed, `serial`
      counts the armings, `fired` is the history of firings. */
  class TimeoutManager {
    var timeoutsFirst: Timeout?
    var timeoutsLast: Timeout?
    var dueFirst: Timeout?
    var dueLast: Timeout?
    var clock: nat
    ghost var pending: seq<Timeout>
    ghost var due: seq<Timeout>
    ghost var universe: set<Timeout>
    ghost var live: set<Timeout>
    ghost var serial: nat
    ghost var fired: seq<Firing>

    /** Both lists are well linked. */
    ghost predicate Linked()
      reads `timeoutsFirst, `timeoutsLast, `dueFirst, `dueLast, `pending, `due, `universe
      reads pending`prev, pending`next, due`prev, due`next
      ensures Linked() ==> timeoutsFirst == if pending == [] then null else pending[0]
      ensures Linked() ==> dueFirst == if due == [] then null else due[0]
    {
      && Chain(pending, timeoutsFirst, timeoutsLast)
      && Chain(due, dueFirst, dueLast)
      && (forall t :: t in pending ==> t !in due && t in universe)
      && (forall t :: t in due ==> t in universe)
    }

    ghost predicate Valid()
      reads this, pending, due, universe, live
    {
      && Linked() && InOrder(due, pending, clock, clock)
      && Accounts(due, pending, live, universe, fired, clock, serial)
    }

    constructor ()
      ensures Valid() && fired == [] && live == {} && universe == {} && clock == 0
    {
      timeoutsFirst, timeoutsLast, dueFirst, dueLast := null, null, null, null;
      clock, pending, due, universe, live, serial, fired := 0, [], [], {}, {}, 0, [];
    }

    // ------------------------------------------------------------ what has become due

    /** Unlink the first pending timeout. */
    method PopPending() returns (to: Timeout)
      requires Linked() && pending != []
      modifies `timeoutsFirst, `timeoutsLast, `pending, universe`prev
      ensures Linked() && to == old(pending)[0] && pending == old(pending)[1..]
      ensures to in universe && to !in pending && to !in due
    {
      to := timeoutsFirst;
      var next := to.next;
      timeoutsFirst := next;
      if next != null {
        next.prev := null;
      } else {
        timeoutsLast := null;
      }
      pending := pending[1..];
    }

    method AppendDue(to: Timeout)
      requires Linked() && to in universe && to !in pending && to !in due
      modifies `dueFirst, `dueLast, `due, universe`prev, universe`next
      ensures Linked() && due == old(due) + [to]
    {
      to.next := null;
      to.prev := dueLast;
      if dueLast == null {
        dueFirst := to;
      } else {
        dueLast.next := to;
      }
      dueLast := to;
      due := due + [to];
    }

    /** Move all timeouts that are due at `now` to the due list. */
    method MoveDue(curTs: nat, ghost now: nat)
      requires Linked() && InOrder(due, pending, clock, clock)
      requires curTs == Low(now) && clock <= now < clock + MIDDLE
      modifies `timeoutsFirst, `timeoutsLast, `dueFirst, `dueLast, `pending, `due, universe`prev, universe`next
      ensures Linked() && InOrder(due, pending, now, now)
      ensures due + pending == old(due + pending) && |old(due)| <= |due|
      ensures forall t :: t in pending ==> now < t.deadline && t !in due
    {
      hide Linked, InOrder, RelTime, Low;
      OrderOpens(due, pending, clock, now);
      while timeoutsFirst != null && RelTime(curTs, Low(timeoutsFirst.stamp)) <= 0
        invariant Linked() && InOrder(due, pending, clock, now)
        invariant due + pending == old(due + pending) && |old(due)| <= |due|
        decreases |pending|
      {
        OrderHead(due, pending, clock, now);
        RelTimeExact(now, pending[0].deadline);
        assert (due + [pending[0]]) + pending[1..] == due + pending;
        var to := PopPending();
        AppendDue(to);
      }
      if pending != [] {
        OrderHead(due, pending, clock, now);
        RelTimeExact(now, pending[0].deadline);
      }
      OrderCloses(due, pending, clock, now);
      Disjoint();
    }

    lemma Disjoint()
      requires Linked()
      ensures forall t :: t in pending ==> t !in due
    {
    }

    /** Move what is due at `now`, and remember the time. */
    method Tick(curTs: nat, now: nat)
      requires Valid() && curTs == Low(now) && clock <= now < clock + MIDDLE
      modifies `timeoutsFirst, `timeoutsLast, `dueFirst, `dueLast, `pending, `due, `clock, universe`prev, universe`next
      ensures Valid() && clock == now
      ensures due + pending == old(due + pending) && |old(due)| <= |due|
      ensures forall t :: t in pending ==> now < t.deadline
    {
      hide Linked, InOrder, Low, Accounts;
      MoveDue(curTs, now);
      AccountsMove(old(due), old(pending), due, pending, live, universe, fired, clock, now, serial);
      clock := now;
    }

    // ------------------------------------------------------------------------- arming

    lemma Neighbours(k: nat)
      requires Linked()
      ensures timeoutsLast == if pending == [] then null else pending[|pending| - 1]
      ensures k < |pending| ==> pending[k].prev == if k == 0 then null else pending[k - 1]
      ensures k < |pending| ==> pending[k].next == if k == |pending| - 1 then null else pending[k + 1]
    {
    }

    /** Find where a timeout due `us` from now belongs, searching from the end of the list. */
    method FindPlace(curTs: nat, us: nat) returns (tp: Timeout?, tn: Timeout?, ghost k: nat)
      requires Linked() && InOrder(due, pending, clock, clock) && curTs == Low(clock) && us < MIDDLE
      ensures k <= |pending|
      ensures tp == (if k == 0 then null else pending[k - 1]) && tn == if k == |pending| then null else pending[k]
      ensures k > 0 ==> pending[k - 1].deadline <= clock + us
      ensures forall i :: k <= i < |pending| ==> clock + us < pending[i].deadline
    {
      hide RelTime, Low, Linked, InOrder;
      Neighbours(0);
      tp := timeoutsLast;
      k := |pending|;
      while tp != null && AsUnsigned(RelTime(curTs, Low(tp.stamp))) > us
        invariant k <= |pending| && tp == if k == 0 then null else pending[k - 1]
        invariant forall i :: k <= i < |pending| ==> clock + us < pending[i].deadline
        decreases k
      {
        OrderAt(due, pending, clock, k - 1);
        Neighbours(k - 1);
        tp := tp.prev;
        k := k - 1;
      }
      if k > 0 {
        OrderAt(due, pending, clock, k - 1);
        Neighbours(k - 1);
      }
      tn := if tp != null then tp.next else timeoutsFirst;
    }

    /** Write the links around `to`, between the neighbours `tp` and `tn`. */
    method Splice(to: Timeout, tp: Timeout?, tn: Timeout?)
      requires tp != to && tn != to
      modifies `timeoutsFirst, `timeoutsLast, to`prev, to`next
      modifies (if tp == null then {} else {tp})`next, (if tn == null then {} else {tn})`prev
      ensures to.next == tn && to.prev == tp
      ensures if tp == null then timeoutsFirst == to else tp.next == to && timeoutsFirst == old(timeoutsFirst)
      ensures if tn == null then timeoutsLast == to else tn.prev == to && timeoutsLast == old(timeoutsLast)
    {
      to.next := tn;
      to.prev := tp;
      if tp == null {
        timeoutsFirst := to;
      } else {
        tp.next := to;
      }
      if tn == null {
        timeoutsLast := to;
      } else {
        tn.prev := to;
      }
    }

    /** Splice `to` in at position `k` of the pending chain. */
    method SplicePending(to: Timeout, tp: Timeout?, tn: Timeout?, ghost k: nat)
      requires Chain(pending, timeoutsFirst, timeoutsLast) && to !in pending
      requires k <= |pending|
      requires tp == if k == 0 then null else pending[k - 1]
      requires tn == if k == |pending| then null else pending[k]
      modifies `timeoutsFirst, `timeoutsLast, pending`prev, pending`next, to`prev, to`next
      ensures Chain(pending[..k] + [to] + pending[k..], timeoutsFirst, timeoutsLast)
    {
      Splice(to, tp, tn);
      SplicedChain(pending, to, k);
    }

    /** Put `to` at position `k` of the pending list, next to its neighbours there. */
    method InsertPending(to: Timeout, tp: Timeout?, tn: Timeout?, ghost k: nat)
      requires Linked() && to !in pending && to !in due
      requires k <= |pending|
      requires tp == if k == 0 then null else pending[k - 1]
      requires tn == if k == |pending| then null else pending[k]
      modifies `timeoutsFirst, `timeoutsLast, `pending, `universe, universe`prev, universe`next, to`prev, to`next
      ensures Linked() && pending == old(pending)[..k] + [to] + old(pending)[k..] && universe == old(universe) + {to}
    {
      hide Chain;
      assert forall t :: t in due ==> t !in pending && t != to;
      SplicePending(to, tp, tn, k);
      assert forall t :: t in due ==> t.prev == old(t.prev) && t.next == old(t.next);
      assert Chain(due, dueFirst, dueLast);
      InsertedMembers(pending, k, to);
      pending := pending[..k] + [to] + pending[k..];
      universe := universe + {to};
    }

    /** Write the stamp of a timeout. */
    method Stamp(to: Timeout, us: nat, kind: nat, curTs: nat)
      requires curTs == Low(clock)
      modifies to`stamp, to`armed, to`deadline, to`id
      ensures Low(to.stamp) == Low(to.deadline) && to.deadline == clock + us && to.armed && to.id == serial
      ensures KindOf(to.stamp) == kind % 16
    {
      to.stamp := Wrap(kind * RANGE + Low(curTs + us));
      to.armed := true;
      to.deadline := clock + us;
      to.id := serial;
      LowOfStamp(kind, clock, us);
      KindOfStamp(kind, Low(curTs + us));
    }

    /** The type comes out of the stamp as it went in, as far as four bits hold it. */
    static lemma KindOfStamp(kind: nat, low: nat)
      requires low < RANGE
      ensures KindOf(Wrap(kind * RANGE + low)) == kind % 16
    {
      var q := kind / 16;
      assert kind == 16 * q + kind % 16;
      assert kind * RANGE + low == MOD * q + (RANGE * (kind % 16) + low) by { assert MOD == 16 * RANGE; }
      Buffers.ModOf(kind * RANGE + low, MOD, q, RANGE * (kind % 16) + low);
      Buffers.ModOf(RANGE * (kind % 16) + low, RANGE, kind % 16, low);
    }

    /** The type bits of a stamp do not disturb the time in it. */
    static lemma LowOfStamp(kind: nat, now: nat, us: nat)
      ensures Low(Wrap(kind * RANGE + Low(Low(now) + us))) == Low(now + us)
    {
      LowOfWrap(kind * RANGE + Low(Low(now) + us));
      Buffers.ModShift(Low(Low(now) + us), RANGE, kind);
      assert now + us == (Low(now) + us) + RANGE * (now / RANGE);
      Buffers.ModShift(Low(now) + us, RANGE, now / RANGE);
    }

    /** The pending list with `to` at position `k`. */
    ghost function With(to: Timeout, k: nat): seq<Timeout>
      requires k <= |pending|
      reads `pending
    {
      pending[..k] + [to] + pending[k..]
    }

    /** Stamp `to`, so that it fits in at position `k`. */
    method Prepare(to: Timeout, us: nat, kind: nat, curTs: nat, ghost k: nat)
      requires Valid() && to !in live && us < MIDDLE && curTs == Low(clock)
      requires k <= |pending|
      requires k > 0 ==> pending[k - 1].deadline <= clock + us
      requires forall i :: k <= i < |pending| ==> clock + us < pending[i].deadline
      modifies `live, `serial, to`stamp, to`armed, to`deadline, to`id
      ensures Linked() && to !in pending && to !in due && to.deadline == clock + us && to.armed && KindOf(to.stamp) == kind % 16
      ensures live == old(live) + {to}
      ensures InOrder(due, With(to, k), clock, clock)
      ensures Accounts(due, With(to, k), live, universe + {to}, fired, clock, serial)
    {
      hide Linked, InOrder, Accounts, Low, History, Waiting, Partition;
      AccountsParts(due, pending, live, universe, fired, clock, serial);
      Outside(due, pending, live, to);
      Stamp(to, us, kind, curTs);
      OrderEnters(due, pending, k, to, clock);
      AccountsEnter(due, pending, k, to, live, universe, fired, clock, serial);
      live := live + {to};
      serial := serial + 1;
    }

    /** Stamp `to` and link it in at position `k`, where it belongs. */
    method Enter(to: Timeout, us: nat, kind: nat, curTs: nat, tp: Timeout?, tn: Timeout?, ghost k: nat)
      requires Valid() && to !in live && us < MIDDLE && curTs == Low(clock)
      requires k <= |pending|
      requires tp == (if k == 0 then null else pending[k - 1]) && tn == if k == |pending| then null else pending[k]
      requires k > 0 ==> pending[k - 1].deadline <= clock + us
      requires forall i :: k <= i < |pending| ==> clock + us < pending[i].deadline
      modifies `timeoutsFirst, `timeoutsLast, `pending, `universe, `live, `serial, universe`prev, universe`next, to
      ensures Valid()
      ensures universe == old(universe) + {to} && live == old(live) + {to}
      ensures to.deadline == clock + us && to.armed && KindOf(to.stamp) == kind % 16
    {
      hide Linked, InOrder, Accounts, Low;
      Prepare(to, us, kind, curTs, k);
      ghost var p, u := With(to, k), universe + {to};
      InsertPending(to, tp, tn, k);
      assert InOrder(due, p, clock, clock);
      assert Accounts(due, p, live, u, fired, clock, serial);
    }

    /** Arm `to` for `us` microseconds from `now`. */
    method ArmTs(to: Timeout, us: nat, kind: nat, curTs: uint32, now: nat)
      requires Valid() && !to.armed
      requires us < MIDDLE && Low(curTs) == Low(now) && clock <= now < clock + MIDDLE
      modifies this, universe`prev, universe`next, to
      ensures Valid() && clock == now && fired == old(fired)
      ensures universe == old(universe) + {to} && live == old(live) + {to}
      ensures to.deadline == now + us && to.armed && KindOf(to.stamp) == kind % 16
    {
      hide Linked, InOrder, Accounts, Low;
      AccountsParts(due, pending, live, universe, fired, clock, serial);
      Tick(Low(curTs), now);
      var tp, tn, k := FindPlace(Low(curTs), us);
      Enter(to, us, kind, Low(curTs), tp, tn, k);
    }

    // ----------------------------------------------------------------------- disarming

    /** Make what points forward to `to` point to its successor. */
    method BypassForward(to: Timeout, prev: Timeout?, next: Timeout?)
      requires prev == null ==> timeoutsFirst == to || dueFirst == to
      modifies `timeoutsFirst, `dueFirst, (if prev == null then {} else {prev})`next
      ensures prev != null ==> prev.next == next && timeoutsFirst == old(timeoutsFirst) && dueFirst == old(dueFirst)
      ensures prev == null && old(timeoutsFirst) == to ==> timeoutsFirst == next && dueFirst == old(dueFirst)
      ensures prev == null && old(timeoutsFirst) != to ==> timeoutsFirst == old(timeoutsFirst) && dueFirst == next
    {
      if prev == null {
        if timeoutsFirst == to {
          timeoutsFirst := next;
        } else if dueFirst == to {
          dueFirst := next;
        } else {
          assert false;  // the manager would abort here
        }
      } else {
        prev.next := next;
      }
    }

    /** Make what points back to `to` point to its predecessor. */
    method BypassBackward(to: Timeout, prev: Timeout?, next: Timeout?)
      requires next == null ==> timeoutsLast == to || dueLast == to
      modifies `timeoutsLast, `dueLast, (if next == null then {} else {next})`prev
      ensures next != null ==> next.prev == prev && timeoutsLast == old(timeoutsLast) && dueLast == old(dueLast)
      ensures next == null && old(timeoutsLast) == to ==> timeoutsLast == prev && dueLast == old(dueLast)
      ensures next == null && old(timeoutsLast) != to ==> timeoutsLast == old(timeoutsLast) && dueLast == prev
    {
      if next == null {
        if timeoutsLast == to {
          timeoutsLast := prev;
        } else if dueLast == to {
          dueLast := prev;
        } else {
          assert false;  // the manager would abort here
        }
      } else {
        next.prev := prev;
      }
    }

    /** Link the neighbours of `to`, which is at position `k` of the chain `s`, to each other. */
    method Bypass(to: Timeout, ghost s: seq<Timeout>, ghost k: nat, ghost first: Timeout?, ghost last: Timeout?)
      requires k < |s| && s[k] == to && Chain(s, first, last)
      requires k == 0 ==> timeoutsFirst == to || dueFirst == to
      requires k == |s| - 1 ==> timeoutsLast == to || dueLast == to
      modifies `timeoutsFirst, `timeoutsLast, `dueFirst, `dueLast, s`prev, s`next
      ensures var c := s[..k] + s[k + 1..];
              Chain(c, if c == [] then null else c[0], if c == [] then null else c[|c| - 1])
      ensures timeoutsFirst == (if k == 0 && old(timeoutsFirst) == to then old(to.next) else old(timeoutsFirst))
      ensures dueFirst == (if k == 0 && old(timeoutsFirst) != to then old(to.next) else old(dueFirst))
      ensures timeoutsLast == (if k == |s| - 1 && old(timeoutsLast) == to then old(to.prev) else old(timeoutsLast))
      ensures dueLast == (if k == |s| - 1 && old(timeoutsLast) != to then old(to.prev) else old(dueLast))
    {
      var prev, next := to.prev, to.next;
      BypassForward(to, prev, next);
      BypassBackward(to, prev, next);
      CutChain(s, k);
    }

    /** The ends of the lists, seen from position `k` of one of them. */
    lemma EndsOf(s: seq<Timeout>, k: nat)
      requires Linked() && (s == pending || s == due) && k < |s|
      ensures s[k].prev == (if k == 0 then null else s[k - 1]) && s[k].next == if k == |s| - 1 then null else s[k + 1]
      ensures s == pending ==> timeoutsFirst == s[0] && timeoutsLast == s[|s| - 1] && dueFirst != s[k] && dueLast != s[k]
      ensures s == due ==> dueFirst == s[0] && dueLast == s[|s| - 1] && timeoutsFirst != s[k] && timeoutsLast != s[k]
      ensures s[k] in pending <==> s == pending
    {
      assert s[k] in s;
      assert due != [] ==> due[0] in due && due[|due| - 1] in due;
      assert pending != [] ==> pending[0] in pending && pending[|pending| - 1] in pending;
    }

    /** The same, next to a chain `other` that has nothing in common with `s`. */
    method BypassBeside(to: Timeout, ghost s: seq<Timeout>, ghost k: nat, ghost first: Timeout?, ghost last: Timeout?,
                        ghost other: seq<Timeout>, ghost oFirst: Timeout?, ghost oLast: Timeout?)
      requires k < |s| && s[k] == to && Chain(s, first, last)
      requires Chain(other, oFirst, oLast) && forall t :: t in other ==> t !in s
      requires k == 0 ==> timeoutsFirst == to || dueFirst == to
      requires k == |s| - 1 ==> timeoutsLast == to || dueLast == to
      modifies `timeoutsFirst, `timeoutsLast, `dueFirst, `dueLast, s`prev, s`next
      ensures Chain(other, oFirst, oLast)
      ensures var c := s[..k] + s[k + 1..];
              Chain(c, if c == [] then null else c[0], if c == [] then null else c[|c| - 1])
      ensures timeoutsFirst == (if k == 0 && old(timeoutsFirst) == to then old(to.next) else old(timeoutsFirst))
      ensures dueFirst == (if k == 0 && old(timeoutsFirst) != to then old(to.next) else old(dueFirst))
      ensures timeoutsLast == (if k == |s| - 1 && old(timeoutsLast) == to then old(to.prev) else old(timeoutsLast))
      ensures dueLast == (if k == |s| - 1 && old(timeoutsLast) != to then old(to.prev) else old(dueLast))
    {
      hide Chain;
      Bypass(to, s, k, first, last);
      assert forall t :: t in other ==> t.prev == old(t.prev) && t.next == old(t.next);
    }

    /** Both lists around position `k` of one of them, and that list without it. */
    lemma Surroundings(s: seq<Timeout>, other: seq<Timeout>, k: nat)
      requires Linked() && k < |s| && ((s == pending && other == due) || (s == due && other == pending))
      ensures Chain(pending, timeoutsFirst, timeoutsLast) && Chain(due, dueFirst, dueLast)
      ensures forall t :: t in other ==> t !in s
      ensures forall t :: t in s[..k] + s[k + 1..] ==> t in s && t in universe && t !in other
      ensures forall t :: t in other ==> t in universe && t !in s[..k] + s[k + 1..]
    {
      hide Chain;
      NoRepeats();
      CutMembers(s, k);
    }

    /** Take `to` out of the list it is in. */
    method Unlink(to: Timeout, ghost s: seq<Timeout>, ghost k: nat)
      requires Linked() && (s == pending || s == due) && k < |s| && s[k] == to
      modifies `timeoutsFirst, `timeoutsLast, `dueFirst, `dueLast, `pending, `due, universe`prev, universe`next
      ensures Linked()
      ensures if to in old(pending) then due == old(due) && pending == s[..k] + s[k + 1..]
              else pending == old(pending) && due == s[..k] + s[k + 1..]
    {
      hide Chain;
      EndsOf(s, k);
      ghost var other := if to in pending then due else pending;
      Surroundings(s, other, k);
      CutEnds(s, k);
      ghost var cut := s[..k] + s[k + 1..];
      BypassBeside(to, s, k, if to in pending then timeoutsFirst else dueFirst, if to in pending then timeoutsLast else dueLast,
                   other, if to in pending then dueFirst else timeoutsFirst, if to in pending then dueLast else timeoutsLast);
      if to in pending {
        pending := cut;
      } else {
        due := cut;
      }
    }

    lemma NoRepeats()
      requires Linked()
      ensures forall i, j :: 0 <= i < j < |pending| ==> pending[i] != pending[j]
      ensures forall i, j :: 0 <= i < j < |due| ==> due[i] != due[j]
    {
    }

    /** An armed timeout is in one of the lists. */
    lemma Locate(to: Timeout) returns (s: seq<Timeout>, k: nat)
      requires Valid() && to in universe && to.armed
      ensures to in live && k < |s| && s[k] == to && s == if to in pending then pending else due
    {
      AccountsParts(due, pending, live, universe, fired, clock, serial);
      s := if to in pending then pending else due;
      k :| 0 <= k < |s| && s[k] == to;
    }

    /** Position `k` of list `s` holds `to`, and `p`, `d` are the lists without it. */
    ghost predicate Located(to: Timeout, s: seq<Timeout>, k: nat, p: seq<Timeout>, d: seq<Timeout>)
      reads `pending, `due
    {
      && k < |s| && s[k] == to && s == (if to in pending then pending else due)
      && p == (if to in pending then s[..k] + s[k + 1..] else pending)
      && d == (if to in pending then due else s[..k] + s[k + 1..])
    }

    /** Clear the flag of `to`; without it, the lists still are as they should be. */
    method Retire(to: Timeout, ghost s: seq<Timeout>, ghost k: nat, ghost p: seq<Timeout>, ghost d: seq<Timeout>)
      requires Valid() && to in live && Located(to, s, k, p, d)
      modifies `live, to`armed
      ensures Linked() && InOrder(d, p, clock, clock) && live == old(live) - {to} && !to.armed
      ensures Accounts(d, p, live, universe, fired, clock, serial)
    {
      hide Linked, InOrder, Accounts, History, Waiting, Partition;
      AccountsParts(due, pending, live, universe, fired, clock, serial);
      NoRepeats();
      OrderLeaves(due, pending, k, clock);
      to.armed := false;
      AccountsLeave(due, pending, k, to, live, universe, fired, clock, serial);
      live := live - {to};
    }

    /** Disarm a timeout that is armed, whichever list it is in. */
    method Disarm(to: Timeout)
      requires Valid() && to in universe && to.armed
      modifies this, universe`prev, universe`next, to`armed
      ensures Valid() && clock == old(clock) && fired == old(fired)
      ensures universe == old(universe) && live == old(live) - {to} && !to.armed
    {
      hide Linked, InOrder, Accounts, History, Waiting, Partition;
      ghost var s, k := Locate(to);
      ghost var cut := s[..k] + s[k + 1..];
      ghost var p, d := if to in pending then cut else pending, if to in pending then due else cut;
      Retire(to, s, k, p, d);
      Unlink(to, s, k);
      assert InOrder(d, p, clock, clock);
      assert Accounts(d, p, live, universe, fired, clock, serial);
    }

    // ------------------------------------------------------------------------- polling

    /** Note that the first due timeout fires. */
    method Expire(to: Timeout)
      requires Valid() && due != [] && to == due[0]
      modifies `live, `fired, to`armed
      ensures Linked() && InOrder(due[1..], pending, clock, clock) && live == old(live) - {to}
      ensures fired == old(fired) + [Firing(to.id, to.deadline, clock)] && !to.armed
      ensures Accounts(due[1..], pending, live, universe, fired, clock, serial)
    {
      hide Linked, InOrder, Accounts, History, Waiting, Partition;
      AccountsParts(due, pending, live, universe, fired, clock, serial);
      NoRepeats();
      OrderLeaves(due, pending, 0, clock);
      assert due[..0] + due[0 + 1..] == due[1..];
      AccountsFire(due, pending, live, universe, fired, clock, serial);
      to.armed := false;
      fired := fired + [Firing(to.id, to.deadline, clock)];
      AccountsExpire(due, pending, live, universe, fired, clock, serial);
      live := live - {to};
    }

    /** Take the first due timeout off its list and hand it to the handler. */
    method FireFirst() returns (to: Timeout, kind: nat)
      requires Valid() && due != []
      modifies `dueFirst, `dueLast, `due, `live, `fired, universe`prev, universe`armed
      ensures Valid() && to == old(due)[0] && due == old(due)[1..] && live == old(live) - {to}
      ensures fired == old(fired) + [Firing(to.id, to.deadline, clock)] && to.deadline <= clock && !to.armed
      ensures to in universe && kind == KindOf(to.stamp)
    {
      hide InOrder, Accounts, Chain;
      FireReady();
      assert due[0] in due;
      ghost var d := due[1..];
      Expire(dueFirst);
      to := PopDue();
      kind := KindOf(to.stamp);
      assert InOrder(d, pending, clock, clock);
      assert Accounts(d, pending, live, universe, fired, clock, serial);
    }

    lemma FireReady()
      requires Valid() && due != []
      ensures due[0].deadline <= clock
    {
      assert due[0] in due;
    }

    /** Unlink the first due timeout. */
    method PopDue() returns (to: Timeout)
      requires Linked() && due != []
      modifies `dueFirst, `dueLast, `due, universe`prev
      ensures Linked() && to == old(due)[0] && due == old(due)[1..]
      ensures to in universe && to !in pending && to !in due
    {
      to := dueFirst;
      dueFirst := to.next;
      if dueFirst != null {
        dueFirst.prev := null;
      } else {
        dueLast := null;
      }
      due := due[1..];
    }

    /** `pool` holds the timeouts of all owners, also those never armed so far. */
    ghost predicate Owned(pool: set<Timeout>)
      reads `universe, pool`armed
    {
      universe <= pool && forall t :: t in pool && t !in universe ==> !t.armed
    }

    /** Carry out one request of the handler, as far as the armed flag and the clock allow. */
    method ReactOnce(r: Reaction, ghost pool: set<Timeout>)
      requires Valid() && Owned(pool) && r.to in pool
      modifies this, pool
      ensures Valid() && Owned(pool) && fired == old(fired) && old(clock) <= clock
    {
      hide Linked, InOrder, Accounts, Low;
      if r.Arm? && !r.to.armed && r.us < MIDDLE && clock <= r.at < clock + MIDDLE {
        LowOfWrap(r.at);
        ArmTs(r.to, r.us, r.kind, Wrap(r.at), r.at);
      } else if r.Cancel? && r.to.armed {
        Disarm(r.to);
      }
    }

    /** Whatever the handler does, to timeouts armed before or for the first time. */
    method React(rs: seq<Reaction>, ghost pool: set<Timeout>)
      requires Valid() && Owned(pool) && forall r :: r in rs ==> r.to in pool
      modifies this, pool
      ensures Valid() && Owned(pool) && fired == old(fired) && old(clock) <= clock
    {
      hide Linked, InOrder, Accounts, Low, Owned;
      var i := 0;
      while i < |rs|
        invariant 0 <= i <= |rs| && Valid() && Owned(pool)
        invariant fired == old(fired) && old(clock) <= clock
      {
        ReactOnce(rs[i], pool);
        i := i + 1;
      }
    }

    /** Fire what is due, in order, letting the handler react after each; at most 64 a call. */
    method PollTs(curTs: uint32, now: nat, reactions: seq<seq<Reaction>>, ghost pool: set<Timeout>)
      requires Valid() && Low(curTs) == Low(now) && clock <= now < clock + MIDDLE
      requires Owned(pool)
      requires forall i :: 0 <= i < |reactions| ==> forall r :: r in reactions[i] ==> r.to in pool
      modifies this, pool
      ensures Valid() && Owned(pool) && now <= clock
      ensures |old(fired)| <= |fired| <= |old(fired)| + MAX_TIMEOUTS && fired[..|old(fired)|] == old(fired)
      ensures |fired| < |old(fired)| + MAX_TIMEOUTS ==> due == []
    {
      hide InOrder, Accounts, Low, Chain;
      Tick(Low(curTs), now);
      var num := 0;
      while dueFirst != null && num < MAX_TIMEOUTS
        invariant Valid() && Owned(pool) && now <= clock
        invariant 0 <= num <= MAX_TIMEOUTS && |fired| == |old(fired)| + num && fired[..|old(fired)|] == old(fired)
        decreases MAX_TIMEOUTS - num
      {
        var to, _ := FireFirst();
        if num < |reactions| {
          React(reactions[num], pool);
        }
        num := num + 1;
      }
    }

    /** Time until the next timeout is due: 0 if one already is, all ones if none is armed. */
    method Next(curTs: uint32, ghost now: nat) returns (wait: uint32)
      requires Valid() && Low(curTs) == Low(now) && clock <= now < clock + MIDDLE
      ensures live == {} <==> wait == MOD - 1
      ensures forall t :: t in live ==> wait <= Max(0, t.deadline - now)
      ensures live != {} ==> exists t :: t in live && wait == Max(0, t.deadline - now)
    {
      hide RelTime, Low, Chain;
      if dueFirst != null {
        assert due[0] in due;
        return 0;
      }
      if timeoutsFirst == null {
        return MOD - 1;
      }
      assert pending[0] in pending;
      RelTimeExact(now, pending[0].deadline);
      var next := RelTime(Low(curTs), Low(timeoutsFirst.stamp));
      wait := if next < 0 then 0 else next;
      forall t | t in live
        ensures pending[0].deadline <= t.deadline
      {
        var i :| 0 <= i < |pending| && pending[i] == t;
      }
    }
  }
}
