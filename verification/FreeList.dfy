/** The free list of one zone as it is in memory: singly linked handles that are searched,
    unlinked, split, spliced in and merged in place.  Its contents follow the functions on
    sequences of module PacketMemory, and a handle that is given back to the heap cannot be
    reached any more. */
module FreeLists {
  import opened PacketMemory

  class Node {
    var base: nat
    var len: nat
    var next: Node?

    constructor (base: nat, len: nat, next: Node?)
      ensures this.base == base && this.len == len && this.next == next
    {
      this.base, this.len, this.next := base, len, next;
    }
  }

  /** The handles of a list, linked from `first` on, without repetition. */
  ghost predicate Chain(s: seq<Node>, first: Node?)
    reads s`next
  {
    && first == (if s == [] then null else s[0])
    && (forall i {:trigger s[i].next} :: 0 <= i < |s| ==> s[i].next == if i == |s| - 1 then null else s[i + 1])
    && (forall i, j :: 0 <= i < j < |s| ==> s[i] != s[j])
  }

  ghost function Blocks(s: seq<Node>): (bs: seq<Block>)
    reads s
    ensures |bs| == |s|
    ensures forall i :: 0 <= i < |s| ==> bs[i] == Block(s[i].base, s[i].len)
  {
    seq(|s|, i requires 0 <= i < |s| reads s => Block(s[i].base, s[i].len))
  }

  /** A chain whose position `j` links past the one behind it. */
  lemma SkippedChain(s: seq<Node>, first: Node?, j: nat)
    requires j + 1 < |s| && first == s[0] && forall a, b :: 0 <= a < b < |s| ==> s[a] != s[b]
    requires s[j].next == if j + 2 == |s| then null else s[j + 2]
    requires forall i {:trigger s[i].next} :: 0 <= i < |s| && i != j ==> s[i].next == if i == |s| - 1 then null else s[i + 1]
    ensures Chain(s[..j + 1] + s[j + 2..], first)
  {
    var c := s[..j + 1] + s[j + 2..];
    assert forall i :: 0 <= i <= j ==> c[i] == s[i];
    assert forall i :: j < i < |c| ==> c[i] == s[i + 1];
  }

  /** The blocks of such a chain, once position `j` has taken over the length. */
  lemma SkippedBlocks(s: seq<Node>, bs: seq<Block>, j: nat)
    requires j + 1 < |s| == |bs| && Touches(bs[j], bs[j + 1])
    requires forall i :: 0 <= i < |s| && i != j ==> Block(s[i].base, s[i].len) == bs[i]
    requires s[j].base == bs[j].base && s[j].len == bs[j].len + bs[j + 1].len
    ensures Blocks(s[..j + 1] + s[j + 2..]) == MergeNext(bs, j)
  {
    hide Blocks;
    var c := s[..j + 1] + s[j + 2..];
    assert forall i :: 0 <= i < |c| ==> Blocks(c)[i] == MergeNext(bs, j)[i];
  }

  class FreeList {
    var first: Node?
    ghost var nodes: seq<Node>

    ghost predicate Valid()
      reads this, nodes`next
    {
      Chain(nodes, first)
    }

    ghost function Contents(): (bs: seq<Block>)
      reads this, nodes
      ensures |bs| == |nodes|
    {
      Blocks(nodes)
    }

    /** One handle for the whole zone. */
    constructor (whole: Node)
      requires whole.next == null
      ensures Valid() && nodes == [whole] && Contents() == [Block(whole.base, whole.len)]
    {
      first, nodes := whole, [whole];
    }

    /** Search for the first handle that is long enough. */
    method FindFit(length: nat) returns (prev: Node?, ph: Node?, ghost k: nat)
      requires Valid()
      ensures k <= |nodes| && prev == (if k == 0 then null else nodes[k - 1])
      ensures ph == (if k == |nodes| then null else nodes[k])
      ensures forall i :: 0 <= i < k ==> nodes[i].len < length
      ensures k < |nodes| ==> nodes[k].len >= length
    {
      prev, ph, k := null, first, 0;
      while ph != null && ph.len < length
        invariant k <= |nodes| && prev == (if k == 0 then null else nodes[k - 1])
        invariant ph == if k == |nodes| then null else nodes[k]
        invariant forall i :: 0 <= i < k ==> nodes[i].len < length
        decreases |nodes| - k
      {
        prev := ph;
        ph := ph.next;
        k := k + 1;
      }
    }

    /** Take the handle at position `k`, behind `prev`, out of the list. */
    method Unlink(prev: Node?, ph: Node, ghost k: nat)
      requires Valid() && k < |nodes| && ph == nodes[k] && prev == if k == 0 then null else nodes[k - 1]
      modifies `first, `nodes, (if prev == null then {} else {prev})`next
      ensures Valid() && nodes == old(nodes)[..k] + old(nodes)[k + 1..] && ph !in nodes
    {
      if prev == null {
        first := ph.next;
      } else {
        prev.next := ph.next;
      }
      nodes := nodes[..k] + nodes[k + 1..];
    }

    /** Take the whole of the handle at position `k`. */
    method TakeWhole(prev: Node?, ph: Node, ghost k: nat)
      requires Valid() && k < |nodes| && ph == nodes[k] && prev == if k == 0 then null else nodes[k - 1]
      modifies `first, `nodes, (if prev == null then {} else {prev})`next
      ensures Valid() && nodes == old(nodes)[..k] + old(nodes)[k + 1..] && ph !in nodes
      ensures Contents() == TakeAll(old(Contents()), k)
    {
      Unlink(prev, ph, k);
      assert Contents() == TakeAll(old(Contents()), k);
    }

    /** Take the front of the handle at position `k`, under a new handle. */
    method Split(ph: Node, length: nat, ghost k: nat) returns (r: Node)
      requires Valid() && k < |nodes| && ph == nodes[k] && length <= ph.len
      modifies ph`base, ph`len
      ensures fresh(r) && Valid() && r.base == old(ph.base) && r.len == length
      ensures Contents() == TakeFront(old(Contents()), k, length)
    {
      r := new Node(ph.base, length, null);
      ph.base := ph.base + length;
      ph.len := ph.len - length;
      assert Contents() == TakeFront(old(Contents()), k, length);
    }

    /** First fit: a handle of exactly the length leaves the list, a longer one is split if a new
        handle can be had. */
    method TakeFit(length: nat, handleOk: bool) returns (r: Node?)
      requires Valid()
      modifies `first, `nodes, nodes
      ensures Valid()
      ensures r == null ==> nodes == old(nodes) && Contents() == old(Contents())
      ensures r == null <==> forall i :: 0 <= i < |old(nodes)| && FirstFit(old(Contents()), length, i) ==>
                               !handleOk && old(Contents())[i].len != length
      ensures r != null ==> exists i :: 0 <= i < |old(nodes)| && Fitted(old(nodes), old(Contents()), length, r, i)
    {
      hide Blocks, Chain, TakeAll, TakeFront;
      var prev, ph, k := FindFit(length);
      if ph == null {
        return null;
      }
      assert FirstFit(Contents(), length, k) && forall i :: 0 <= i < |nodes| && FirstFit(Contents(), length, i) ==> i == k;
      if ph.len == length {
        TakeWhole(prev, ph, k);
        r := ph;
      } else {
        if !handleOk {
          return null;
        }
        r := Split(ph, length, k);
      }
      assert Fitted(old(nodes), old(Contents()), length, r, k);
    }

    /** `r` is what first fit takes at position `i` of the list that was. */
    ghost predicate Fitted(was: seq<Node>, free: seq<Block>, length: nat, r: Node, i: nat)
      reads this, nodes, r
    {
      && |was| == |free| && FirstFit(free, length, i)
      && r !in nodes && r.base == free[i].base && r.len == length
      && (if free[i].len == length
          then r == was[i] && nodes == was[..i] + was[i + 1..] && Contents() == TakeAll(free, i)
          else r !in was && nodes == was && Contents() == TakeFront(free, i, length))
    }

    // ----------------------------------------------------------------------------- freeing

    /** Search for the place of a handle with offset `base`. */
    method FindPlace(base: nat) returns (prev: Node?, ghost k: nat)
      requires Valid()
      ensures k <= |nodes| && prev == (if k == 0 then null else nodes[k - 1])
      ensures k == InsertPoint(Contents(), base)
    {
      var ph := first;
      prev, k := null, 0;
      while ph != null && ph.next != null && ph.next.base < base
        invariant k <= |nodes| && prev == (if k == 0 then null else nodes[k - 1])
        invariant ph == if k == |nodes| then null else nodes[k]
        invariant InsertPoint(Contents(), base) == k + InsertPoint(Contents()[k..], base)
        decreases |nodes| - k
      {
        assert Contents()[k..][1..] == Contents()[k + 1..];
        assert Contents()[k..][1].base == nodes[k + 1].base;
        prev := ph;
        ph := ph.next;
        k := k + 1;
      }
      if k + 1 < |nodes| {
        assert Contents()[k..][1].base == nodes[k + 1].base;
      }
    }

    /** Link `h` in behind `prev`. */
    method Link(h: Node, prev: Node?, ghost k: nat)
      requires Valid() && h !in nodes && k <= |nodes| && prev == if k == 0 then null else nodes[k - 1]
      modifies `first, `nodes, h`next, (if prev == null then {} else {prev})`next
      ensures Valid() && nodes == old(nodes)[..k] + [h] + old(nodes)[k..]
    {
      if prev == null {
        h.next := first;
        first := h;
      } else {
        h.next := prev.next;
        prev.next := h;
      }
      nodes := nodes[..k] + [h] + nodes[k..];
    }

    /** Merge the handle at position `j` with the one behind it, if that continues it; the latter
        goes back to the heap. */
    method MergeBehind(ph: Node, ghost j: nat) returns (ghost dead: set<Node>)
      requires Valid() && j < |nodes| && ph == nodes[j]
      modifies `nodes, ph`len, ph`next
      ensures Valid() && first == old(first) && Contents() == MergeNext(old(Contents()), j)
      ensures if j + 1 < |old(nodes)| && Touches(old(Contents())[j], old(Contents())[j + 1])
              then nodes == old(nodes)[..j + 1] + old(nodes)[j + 2..] && dead == {old(nodes)[j + 1]}
              else nodes == old(nodes) && dead == {}
      ensures forall d :: d in dead ==> d !in nodes
    {
      hide Blocks;
      dead := {};
      var behind := ph.next;
      if behind != null && ph.base + ph.len == behind.base {
        ph.len := ph.len + behind.len;
        ph.next := behind.next;
        dead := {behind};
        SkippedChain(nodes, first, j);
        SkippedBlocks(nodes, old(Contents()), j);
        nodes := nodes[..j + 1] + nodes[j + 2..];
      }
    }

    /** Merge around the handle at position `k`, whose predecessor is `prev`. */
    method MergeItems(prev: Node?, h: Node, ghost k: nat) returns (ghost dead: set<Node>)
      requires Valid() && k < |nodes| && h == nodes[k] && prev == if k == 0 then null else nodes[k - 1]
      modifies `nodes, h`len, h`next, (if prev == null then {} else {prev})`len, (if prev == null then {} else {prev})`next
      ensures Valid() && first == old(first)
      ensures Contents() == if k > 0 && Touches(old(Contents())[k - 1], old(Contents())[k])
                            then MergeNext(MergeNext(old(Contents()), k - 1), k - 1) else MergeNext(old(Contents()), k)
      ensures forall n :: n in old(nodes) <==> n in nodes || n in dead
      ensures forall d :: d in dead ==> d !in nodes
    {
      hide Blocks, Chain, MergeNext;
      dead := {};
      var ph := h;
      ghost var j := k;
      if prev != null && prev.base + prev.len == h.base {
        j := k - 1;
        dead := MergeBehind(prev, j);
        ph := prev;
      }
      ghost var more := MergeBehind(ph, j);
      dead := dead + more;
    }

    /** Give a handle back: it is spliced in where the search stops and merged around.  Exactly the
        handles merged away go back to the heap, and the list does not reach them. */
    method Release(h: Node) returns (ghost dead: set<Node>)
      requires Valid() && h !in nodes
      modifies `first, `nodes, nodes, h
      ensures Valid() && Contents() == Released(old(Contents()), Block(old(h.base), old(h.len)))
      ensures forall n :: n in old(nodes) || n == h <==> n in nodes || n in dead
      ensures forall d :: d in dead ==> d !in nodes
    {
      hide Blocks, Chain, MergeNext, InsertPoint;
      var prev, k := FindPlace(h.base);
      Link(h, prev, k);
      assert Contents() == old(Contents())[..k] + [Block(old(h.base), old(h.len))] + old(Contents())[k..];
      assert nodes[k] == h && (k > 0 ==> nodes[k - 1] == prev);
      dead := MergeItems(prev, h, k);
    }
  }
}
