/** The slow-path receive ring: the NIC fills descriptors against a head it may have read long
    ago, the host clears them and publishes its head. */
module SlowPathRing {
  import opened Words
  import opened Buffers
  import opened Sequences

  /** Whether `slots` holds, from number `from` on, the acquired packets that are filled in, and
      nothing else within one round of the ring. */
  ghost predicate Holds<P>(slots: seq<Option<P>>, acquired: seq<P>, filled: set<nat>, from: nat) {
    && |slots| > 0 && from <= |acquired| < from + |slots|
    && (forall k :: from <= k < from + |slots| ==> slots[Rem(k, |slots|)] == Content(acquired, filled, k))
  }

  function Content<P>(acquired: seq<P>, filled: set<nat>, k: nat): Option<P> {
    if k < |acquired| && k in filled then Some(acquired[k]) else None
  }

  lemma FillHolds<P>(slots: seq<Option<P>>, acquired: seq<P>, filled: set<nat>, from: nat, k: nat)
    requires Holds(slots, acquired, filled, from) && from <= k < |acquired|
    ensures Holds(slots[Rem(k, |slots|) := Some(acquired[k])], acquired, filled + {k}, from)
  {
    var slots' := slots[Rem(k, |slots|) := Some(acquired[k])];
    forall j | from <= j < from + |slots|
      ensures slots'[Rem(j, |slots|)] == Content(acquired, filled + {k}, j)
    {
      IndexTellsApart(|slots|, Min(j, k), Max(j, k));
    }
  }

  lemma ClearHolds<P>(slots: seq<Option<P>>, acquired: seq<P>, filled: set<nat>, from: nat)
    requires Holds(slots, acquired, filled, from) && from < |acquired|
    requires forall k :: k in filled ==> k < |acquired|
    ensures Holds(slots[Rem(from, |slots|) := None], acquired, filled, from + 1)
  {
    var slots' := slots[Rem(from, |slots|) := None];
    forall j | from + 1 <= j < from + 1 + |slots|
      ensures slots'[Rem(j, |slots|)] == Content(acquired, filled, j)
    {
      if j < from + |slots| {
        IndexTellsApart(|slots|, from, j);
      } else {
        assert j == from + |slots| * 1;
        ModShift(from, |slots|, 1);
      }
    }
  }

  lemma AcquireHolds<P>(slots: seq<Option<P>>, acquired: seq<P>, filled: set<nat>, from: nat, p: P)
    requires Holds(slots, acquired, filled, from) && |acquired| + 1 < from + |slots|
    requires forall k :: k in filled ==> k < |acquired|
    ensures Holds(slots, acquired + [p], filled, from)
  {
    forall j | from <= j < from + |slots|
      ensures Content(acquired + [p], filled, j) == Content(acquired, filled, j)
    {
    }
  }

  /** Stepping an index around the ring. */
  lemma NextSlot(len: nat, n: nat)
    requires 0 < len
    ensures Rem(n + 1, len) == if Rem(n, len) + 1 == len then 0 else Rem(n, len) + 1
  {
    NextIndex(len, n);
    if n % len + 1 == len {
      ModOf(len, len, 1, 0);
    } else {
      ModOf(n % len + 1, len, 0, n % len + 1);
    }
  }

  /** The next index equals the head exactly if `len - 1` packets are outstanding. */
  lemma FullTest(len: nat, n: nat, seen: nat)
    requires 1 < len && seen <= n < seen + len
    ensures var updated := if Rem(n, len) + 1 >= len then 0 else Rem(n, len) + 1;
            updated == Rem(n + 1, len) && (updated == Rem(seen, len) <==> n + 1 == seen + len)
  {
    NextSlot(len, n);
    if n + 1 == seen + len {
      ModShift(seen, len, 1);
    } else {
      IndexTellsApart(len, seen, n + 1);
    }
  }

  /** A packet on its way to the slot acquired for it. */
  datatype Arrival<P> = Arrival(slot: nat, packet: P)

  /** The packets on their way are exactly the acquired ones that are not filled in, each once
      and with its own slot; `numbers` says which they are. */
  ghost predicate UnderWay<P>(card: seq<Arrival<P>>, numbers: seq<nat>, acquired: seq<P>, filled: set<nat>, len: nat)
    requires len > 0
  {
    && |card| == |numbers|
    && (forall i :: 0 <= i < |numbers| ==>
          numbers[i] < |acquired| && numbers[i] !in filled && card[i] == Arrival(Rem(numbers[i], len), acquired[numbers[i]]))
    && (forall i, j :: 0 <= i < j < |numbers| ==> numbers[i] != numbers[j])
    && (forall k :: 0 <= k < |acquired| ==> k in filled || k in numbers)
  }

  lemma AcquireUnderWay<P>(card: seq<Arrival<P>>, numbers: seq<nat>, acquired: seq<P>, filled: set<nat>, len: nat, p: P)
    requires len > 0 && UnderWay(card, numbers, acquired, filled, len) && |acquired| !in filled
    ensures UnderWay(card + [Arrival(Rem(|acquired|, len), p)], numbers + [|acquired|], acquired + [p], filled, len)
  {
    hide Rem;
    var numbers' := numbers + [|acquired|];
    assert numbers'[|numbers|] == |acquired|;
    assert forall k :: k in numbers ==> k in numbers';
  }

  lemma FillUnderWay<P>(card: seq<Arrival<P>>, numbers: seq<nat>, acquired: seq<P>, filled: set<nat>, len: nat, i: nat)
    requires len > 0 && UnderWay(card, numbers, acquired, filled, len) && i < |card|
    ensures UnderWay(card[..i] + card[i + 1..], numbers[..i] + numbers[i + 1..], acquired, filled + {numbers[i]}, len)
  {
    hide Rem;
    var card', numbers' := card[..i] + card[i + 1..], numbers[..i] + numbers[i + 1..];
    CutMembers(numbers, i);
    forall j | 0 <= j < |numbers'|
      ensures numbers'[j] < |acquired| && numbers'[j] !in filled + {numbers[i]}
              && card'[j] == Arrival(Rem(numbers'[j], len), acquired[numbers'[j]])
    {
      var m := if j < i then j else j + 1;
      assert numbers'[j] == numbers[m] && card'[j] == card[m];
      assert numbers'[j] in numbers';
    }
  }

  /** A packet under way is not consumed, and its slot is empty. */
  lemma Arriving<P>(slots: seq<Option<P>>, card: seq<Arrival<P>>, numbers: seq<nat>, acquired: seq<P>, filled: set<nat>, from: nat, i: nat)
    returns (k: nat)
    requires Holds(slots, acquired, filled, from) && UnderWay(card, numbers, acquired, filled, |slots|) && i < |card|
    requires forall k :: 0 <= k < from ==> k in filled
    ensures |numbers| == |card| && k == numbers[i] && from <= k < |acquired| && k !in filled
    ensures card[i] == Arrival(Rem(k, |slots|), acquired[k]) && slots[Rem(k, |slots|)] == None
  {
    hide Rem;
    k := numbers[i];
  }

  /** The head shows a packet exactly if the next one to consume is filled in. */
  lemma AtHead<P>(slots: seq<Option<P>>, acquired: seq<P>, filled: set<nat>, from: nat)
    requires Holds(slots, acquired, filled, from) && forall k :: k in filled ==> k < |acquired|
    ensures |slots| > 0 && from <= |acquired|
    ensures slots[Rem(from, |slots|)] == if from in filled then Some(acquired[from]) else None
  {
    hide Rem;
  }

  /** The next slot is one that the host has cleared. */
  lemma NoneThere<P>(slots: seq<Option<P>>, acquired: seq<P>, filled: set<nat>, from: nat)
    requires Holds(slots, acquired, filled, from)
    ensures |slots| > 0 && slots[Rem(|acquired|, |slots|)] == None
  {
    hide Rem;
  }

  /** What the card's threads and the host do, in any order. */
  datatype Op<P> = NicAcquire(packet: P) | NicRefresh | NicFill(i: nat) | HostTake | HostTell

  /** The ring without a ring: packets in order, how many of them the host took, told the card of
      and the card knows of, which arrived, and which are on their way. */
  datatype Queue<P> = Queue(acquired: seq<P>, numbers: seq<nat>, filled: set<nat>, consumed: nat, published: nat, seen: nat)

  /** What an operation does to a queue that is full with `len - 1` packets. */
  function After<P>(a: Queue<P>, op: Op<P>, len: nat): Queue<P> {
    match op
    case NicAcquire(p) =>
      if |a.acquired| + 1 < a.seen + len then a.(acquired := a.acquired + [p], numbers := a.numbers + [|a.acquired|]) else a
    case NicRefresh => a.(seen := a.published)
    case NicFill(i) =>
      if i < |a.numbers| then a.(filled := a.filled + {a.numbers[i]}, numbers := a.numbers[..i] + a.numbers[i + 1..]) else a
    case HostTake => if a.consumed in a.filled then a.(consumed := a.consumed + 1) else a
    case HostTell => a.(published := a.consumed)
  }

  function AfterAll<P>(a: Queue<P>, ops: seq<Op<P>>, len: nat): Queue<P>
    decreases |ops|
  {
    if ops == [] then a else AfterAll(After(a, ops[0], len), ops[1..], len)
  }

  /** `acquired` are the packets given a slot, in order; `consumed`, `published` and `seen` count
      those the host has taken, has told the NIC of, and the NIC knows of. */
  class ReceiveRing<P(0)> {
    const len: nat
    var slots: seq<Option<P>>
    var tail: nat
    var cachedHead: nat
    var publishedHead: nat
    var head: nat
    var card: seq<Arrival<P>>
    ghost var numbers: seq<nat>
    ghost var acquired: seq<P>
    ghost var filled: set<nat>
    ghost var consumed: nat
    ghost var published: nat
    ghost var seen: nat
    ghost var delivered: seq<P>

    /** Delivery is in order and exactly once, only of packets that are there, at most `len - 1`
        packets are outstanding, and a slot outside the outstanding ones is empty. */
    ghost predicate Valid()
      reads this
    {
      && 1 < len == |slots|
      && seen <= published <= consumed <= |acquired| < seen + len
      && tail == Rem(|acquired|, len) && head == Rem(consumed, len)
      && publishedHead == Rem(published, len) && cachedHead == Rem(seen, len)
      && (forall k :: k in filled ==> k < |acquired|)
      && (forall k :: 0 <= k < consumed ==> k in filled)
      && Holds(slots, acquired, filled, consumed)
      && UnderWay(card, numbers, acquired, filled, len)
      && delivered == acquired[..consumed]
    }

    ghost function Abstract(): Queue<P>
      reads this
    {
      Queue(acquired, numbers, filled, consumed, published, seen)
    }

    constructor (len: nat)
      requires 1 < len
      ensures Valid() && this.len == len && acquired == [] && delivered == []
    {
      this.len := len;
      slots := seq(len, _ => None);
      tail, cachedHead, publishedHead, head := 0, 0, 0, 0;
      card, numbers := [], [];
      acquired, filled, consumed, published, seen, delivered := [], {}, 0, 0, 0, [];
    }

    /** NIC: take the next slot unless the ring looks full against the cached head.  The slot
        is one that the host has cleared, and has told the NIC so. */
    method Acquire(p: P) returns (slot: Option<nat>)
      requires Valid()
      modifies `tail, `card, `numbers, `acquired
      ensures Valid()
      ensures Abstract() == After(old(Abstract()), NicAcquire(p), len)
      ensures slot.Some? <==> |old(acquired)| + 1 < seen + len
      ensures slot.Some? ==> acquired == old(acquired) + [p] && slot.value == Rem(|old(acquired)|, len)
                             && slots[slot.value] == None && card == old(card) + [Arrival(slot.value, p)]
      ensures slot.None? ==> acquired == old(acquired) && card == old(card)
    {
      hide Holds, UnderWay, Rem;
      var updated := tail + 1;
      if updated >= len {
        updated := 0;
      }
      FullTest(len, |acquired|, seen);
      if updated == cachedHead {
        return None;
      }
      slot := Some(tail);
      NoneThere(slots, acquired, filled, consumed);
      AcquireHolds(slots, acquired, filled, consumed, p);
      AcquireUnderWay(card, numbers, acquired, filled, len, p);
      card := card + [Arrival(tail, p)];
      numbers := numbers + [|acquired|];
      tail := updated;
      acquired := acquired + [p];
    }

    /** NIC: read the head that the host published last. */
    method Refresh()
      requires Valid()
      modifies `cachedHead, `seen
      ensures Valid() && seen == published && Abstract() == After(old(Abstract()), NicRefresh, len)
    {
      cachedHead := publishedHead;
      seen := published;
    }

    /** NIC: a packet on its way arrives, with its descriptor, in the slot acquired for it.  The
        slot is empty, whatever the host did in the meantime. */
    method Fill(i: nat)
      requires Valid() && i < |card|
      modifies `slots, `card, `numbers, `filled
      ensures Valid() && Abstract() == After(old(Abstract()), NicFill(i), len)
      ensures var a := old(card)[i]; a.slot < len && old(slots)[a.slot] == None && slots == old(slots)[a.slot := Some(a.packet)]
      ensures i < |old(numbers)| && filled == old(filled) + {old(numbers)[i]} && old(numbers)[i] !in old(filled)
      ensures card == old(card)[..i] + old(card)[i + 1..]
    {
      hide Holds, UnderWay, Rem;
      var a := card[i];
      ghost var k := Arriving(slots, card, numbers, acquired, filled, consumed, i);
      FillHolds(slots, acquired, filled, consumed, k);
      FillUnderWay(card, numbers, acquired, filled, len, i);
      slots := slots[a.slot := Some(a.packet)];
      card := card[..i] + card[i + 1..];
      numbers := numbers[..i] + numbers[i + 1..];
      filled := filled + {k};
    }

    /** Host: hand over the packet at the head, if its descriptor is there, and clear it. */
    method HostPoll() returns (r: Option<P>)
      requires Valid()
      modifies `slots, `head, `consumed, `delivered
      ensures Valid() && Abstract() == After(old(Abstract()), HostTake, len)
      ensures r.None? ==> consumed == old(consumed) && old(consumed) !in filled && slots == old(slots)
      ensures r.Some? ==> old(head) < len && slots == old(slots)[old(head) := None]
      ensures r.Some? ==> old(consumed) in filled && old(consumed) < |acquired| && r.value == acquired[old(consumed)] && consumed == old(consumed) + 1
    {
      hide Holds, UnderWay, Rem;
      AtHead(slots, acquired, filled, consumed);
      if slots[head].None? {
        return None;
      }
      r := slots[head];
      ClearHolds(slots, acquired, filled, consumed);
      slots := slots[head := None];
      var updated := head + 1;
      NextSlot(len, consumed);
      if updated == len {
        updated := updated - len;
      }
      head := updated;
      delivered := delivered + [r.value];
      consumed := consumed + 1;
    }

    /** Host: write the head to NIC memory. */
    method HostPublish()
      requires Valid()
      modifies `publishedHead, `published
      ensures Valid() && published == consumed && Abstract() == After(old(Abstract()), HostTell, len)
    {
      publishedHead := head;
      published := consumed;
    }

    /** One operation, if there is something to do it on. */
    method Do(op: Op<P>)
      requires Valid()
      modifies this
      ensures Valid() && Abstract() == After(old(Abstract()), op, len)
      ensures old(acquired) <= acquired && old(filled) <= filled && old(consumed) <= consumed
    {
      hide Holds, Rem;
      match op {
        case NicAcquire(p) =>
          var _ := Acquire(p);
        case NicRefresh =>
          Refresh();
        case NicFill(k) =>
          if k < |card| {
            Fill(k);
          }
        case HostTake =>
          var _ := HostPoll();
        case HostTell =>
          HostPublish();
      }
    }

    /** Any interleaving of the card's threads and the host: slots are taken, heads are read and
        published late, and descriptors arrive in any order.  The ring does exactly what the queue
        without a ring does, and the host ends up with a prefix of the packets in the order of
        their slots, each exactly once and only after its descriptor arrived. */
    method Interleave(ops: seq<Op<P>>)
      requires Valid()
      modifies this
      ensures Valid() && Abstract() == AfterAll(old(Abstract()), ops, len)
      ensures old(acquired) <= acquired && old(delivered) <= delivered <= acquired && old(filled) <= filled
      ensures |acquired| - |delivered| < len && forall k :: 0 <= k < |delivered| ==> k in filled
    {
      hide Holds, UnderWay, Rem, After;
      var i := 0;
      while i < |ops|
        invariant 0 <= i <= |ops| && Valid()
        invariant AfterAll(Abstract(), ops[i..], len) == AfterAll(old(Abstract()), ops, len)
        invariant old(acquired) <= acquired && old(filled) <= filled && old(consumed) <= consumed
      {
        assert ops[i..][0] == ops[i] && ops[i..][1..] == ops[i + 1..];
        Do(ops[i]);
        i := i + 1;
      }
      assert ops[i..] == [];
    }
  }
}
