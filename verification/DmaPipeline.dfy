/** The receive DMA loop: four command slots, written as a state machine of jumps between
    labels.  It is a FIFO of at most four transfers in flight. */
module DmaPipeline {
  const DEPTH := 4

  /** A jump target: `p` is the next command slot, `q` the number of transfers in flight. */
  datatype Label = Label(p: nat, q: nat)

  /** What a label does on a signal: which slot it works on and where it goes. */
  datatype Jump = Stuck | Go(slot: nat, to: Label)

  /** The reaction of each label to the arrival of a command. */
  function OnCommand(l: Label): Jump {
    match l
    case Label(0, 0) => Go(0, Label(1, 1))
    case Label(0, 1) => Go(0, Label(1, 2))
    case Label(0, 2) => Go(0, Label(1, 3))
    case Label(0, 3) => Go(0, Label(1, 4))
    case Label(1, 0) => Go(1, Label(2, 1))
    case Label(1, 1) => Go(1, Label(2, 2))
    case Label(1, 2) => Go(1, Label(2, 3))
    case Label(1, 3) => Go(1, Label(2, 4))
    case Label(2, 0) => Go(2, Label(3, 1))
    case Label(2, 1) => Go(2, Label(3, 2))
    case Label(2, 2) => Go(2, Label(3, 3))
    case Label(2, 3) => Go(2, Label(3, 4))
    case Label(3, 0) => Go(3, Label(0, 1))
    case Label(3, 1) => Go(3, Label(0, 2))
    case Label(3, 2) => Go(3, Label(0, 3))
    case Label(3, 3) => Go(3, Label(0, 4))
    case _ => Stuck
  }

  /** The reaction of each label to the completion of a transfer. */
  function OnCompletion(l: Label): Jump {
    match l
    case Label(0, 1) => Go(3, Label(0, 0))
    case Label(0, 2) => Go(2, Label(0, 1))
    case Label(0, 3) => Go(1, Label(0, 2))
    case Label(0, 4) => Go(0, Label(0, 3))
    case Label(1, 1) => Go(0, Label(1, 0))
    case Label(1, 2) => Go(3, Label(1, 1))
    case Label(1, 3) => Go(2, Label(1, 2))
    case Label(1, 4) => Go(1, Label(1, 3))
    case Label(2, 1) => Go(1, Label(2, 0))
    case Label(2, 2) => Go(0, Label(2, 1))
    case Label(2, 3) => Go(3, Label(2, 2))
    case Label(2, 4) => Go(2, Label(2, 3))
    case Label(3, 1) => Go(2, Label(3, 0))
    case Label(3, 2) => Go(1, Label(3, 1))
    case Label(3, 3) => Go(0, Label(3, 2))
    case Label(3, 4) => Go(3, Label(3, 3))
    case _ => Stuck
  }

  predicate IsLabel(l: Label) {
    l.p < DEPTH && l.q <= DEPTH
  }

  /** The twenty labels form a counter modulo 4 with an occupancy: commands go into slot `p`
      unless all four slots are in flight, completions are awaited for the slot `q` before. */
  lemma LabelsCount(l: Label)
    requires IsLabel(l)
    ensures OnCommand(l) == if l.q == DEPTH then Stuck else Go(l.p, Label((l.p + 1) % DEPTH, l.q + 1))
    ensures OnCompletion(l) == if l.q == 0 then Stuck else Go((l.p - l.q) % DEPTH, Label(l.p, l.q - 1))
  {
  }

  /** The slot of the `i`-th oldest transfer in flight. */
  function SlotOf(l: Label, i: nat): (s: nat)
    ensures s < DEPTH
  {
    (l.p - l.q + i) % DEPTH
  }

  /** A new transfer takes the slot `p`, which none in flight has, and moves no other. */
  lemma SlotsAfterCommand(l: Label)
    requires IsLabel(l) && l.q < DEPTH
    ensures var l' := Label((l.p + 1) % DEPTH, l.q + 1);
            && SlotOf(l', l.q) == l.p
            && (forall i :: 0 <= i < l.q ==> SlotOf(l', i) == SlotOf(l, i) && SlotOf(l, i) != l.p)
  {
  }

  /** What wakes the loop up. */
  datatype Signal<C> = Arrived(command: C) | Completed

  /** The commands that a FIFO of four places with `q` of them taken accepts. */
  function Accepted<C>(signals: seq<Signal<C>>, q: nat): seq<C> {
    if signals == [] then []
    else match signals[0]
      case Arrived(c) => if q < DEPTH then [c] + Accepted(signals[1..], q + 1) else Accepted(signals[1..], q)
      case Completed => Accepted(signals[1..], if q > 0 then q - 1 else 0)
  }

  /** How many of its elements such a FIFO gives back. */
  function GivenBack<C>(signals: seq<Signal<C>>, q: nat): nat {
    if signals == [] then 0
    else match signals[0]
      case Arrived(_) => GivenBack(signals[1..], if q < DEPTH then q + 1 else q)
      case Completed => if q > 0 then 1 + GivenBack(signals[1..], q - 1) else GivenBack(signals[1..], 0)
  }

  class Loop<C(0)> {
    var at: Label
    const backup: array<C>
    ghost var inFlight: seq<C>
    ghost var processed: seq<C>
    ghost var forwarded: seq<C>

    /** The slots in flight are the `q` before `p`, oldest first, with their commands saved. */
    ghost predicate Valid()
      reads this, backup
    {
      && IsLabel(at) && backup.Length == DEPTH && |inFlight| == at.q
      && (forall i :: 0 <= i < at.q ==> backup[SlotOf(at, i)] == inFlight[i])
      && processed == forwarded + inFlight
    }

    constructor (c: C)
      ensures Valid() && processed == [] && forwarded == []
    {
      at := Label(0, 0);
      backup := new C[DEPTH](_ => c);
      inFlight, processed, forwarded := [], [], [];
    }

    /** A command arrives: save it, start its transfer, move on.  Nothing saved is lost. */
    method Command(c: C) returns (slot: nat)
      requires Valid() && at.q < DEPTH
      modifies this, backup
      ensures Valid() && at.q == old(at.q) + 1 && inFlight == old(inFlight) + [c] && processed == old(processed) + [c] && forwarded == old(forwarded)
      ensures forall i :: 0 <= i < |old(inFlight)| ==> SlotOf(old(at), i) != slot
    {
      hide SlotOf, OnCommand;
      LabelsCount(at);
      SlotsAfterCommand(at);
      var jump := OnCommand(at);
      slot := jump.slot;
      backup[slot] := c;
      at := jump.to;
      inFlight := inFlight + [c];
      processed := processed + [c];
    }

    /** The awaited transfer completes: forward its command, the oldest one. */
    method Completion() returns (c: C)
      requires Valid() && at.q > 0
      modifies this
      ensures Valid() && at.q == old(at.q) - 1 && inFlight == old(inFlight)[1..] && processed == old(processed) && forwarded == old(forwarded) + [c]
      ensures old(inFlight) != [] && c == old(inFlight)[0]
    {
      LabelsCount(at);
      var jump := OnCompletion(at);
      c := backup[jump.slot];
      assert jump.slot == SlotOf(at, 0);
      at := jump.to;
      forwarded := forwarded + [c];
      inFlight := inFlight[1..];
    }

    /** Any sequence of arrivals and completions, each taken where the label waits for it: the loop
        processes exactly the commands that a FIFO of four places accepts, and forwards them
        exactly once, in the order processed. */
    method Run(signals: seq<Signal<C>>)
      requires Valid()
      modifies this, backup
      ensures Valid() && forwarded <= processed && |processed| - |forwarded| <= DEPTH
      ensures processed == old(processed) + Accepted(signals, old(at.q))
      ensures old(forwarded) <= forwarded && |forwarded| == |old(forwarded)| + GivenBack(signals, old(at.q))
    {
      hide SlotOf;
      var i := 0;
      while i < |signals|
        invariant 0 <= i <= |signals| && Valid()
        invariant processed + Accepted(signals[i..], at.q) == old(processed) + Accepted(signals, old(at.q))
        invariant old(forwarded) <= forwarded
        invariant |forwarded| + GivenBack(signals[i..], at.q) == |old(forwarded)| + GivenBack(signals, old(at.q))
      {
        assert signals[i..][0] == signals[i] && signals[i..][1..] == signals[i + 1..];
        match signals[i] {
          case Arrived(c) =>
            if at.q < DEPTH {
              var _ := Command(c);
            }
          case Completed =>
            if at.q > 0 {
              var _ := Completion();
            }
        }
        i := i + 1;
      }
    }
  }
}
