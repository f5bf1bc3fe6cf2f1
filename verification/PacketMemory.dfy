/** The first-fit allocator of packet memory: per zone a list of free blocks that is searched,
    split, inserted into and merged.  Free and live blocks always tile the zone. */
module PacketMemory {
  import opened Words

  const ZONE_SIZE := 0x4000_0000
  const MAX_ZONES := 16

  /** `len` bytes of a zone from offset `base` on. */
  datatype Block = Block(base: nat, len: nat)

  datatype Handle = Handle(zone: nat, block: Block)

  predicate Contains(b: Block, x: int) {
    b.base <= x < b.base + b.len
  }

  /** How many of the blocks contain byte `x`. */
  function Cover(bs: seq<Block>, x: int): nat {
    if bs == [] then 0 else (if Contains(bs[0], x) then 1 else 0) + Cover(bs[1..], x)
  }

  /** Every byte of the zone is in exactly one block, and no block leaves the zone. */
  ghost predicate Tiled(free: seq<Block>, live: seq<Block>) {
    forall x: int :: Cover(free, x) + Cover(live, x) == if 0 <= x < ZONE_SIZE then 1 else 0
  }

  lemma {:induction false} CoverConcat(a: seq<Block>, b: seq<Block>, x: int)
    ensures Cover(a + b, x) == Cover(a, x) + Cover(b, x)
  {
    if a == [] {
      assert a + b == b;
    } else {
      CoverConcat(a[1..], b, x);
      assert (a + b)[1..] == a[1..] + b;
    }
  }

  /** Replacing a stretch of the list by one that covers the same bytes changes nothing. */
  lemma CoverReplace(a: seq<Block>, m: seq<Block>, m': seq<Block>, b: seq<Block>, x: int)
    ensures Cover(a + m + b, x) - Cover(m, x) == Cover(a + m' + b, x) - Cover(m', x)
  {
    CoverConcat(a + m, b, x);
    CoverConcat(a, m, x);
    CoverConcat(a + m', b, x);
    CoverConcat(a, m', x);
  }

  /** Blocks that tile a zone do not overlap. */
  lemma TiledDisjoint(free: seq<Block>, live: seq<Block>, i: nat, j: nat, x: int)
    requires Tiled(free, live) && i < j < |free + live|
    ensures !(Contains((free + live)[i], x) && Contains((free + live)[j], x))
  {
    var all := free + live;
    CoverConcat(free, live, x);
    assert all == all[..i] + [all[i]] + all[i + 1..];
    CoverConcat(all[..i] + [all[i]], all[i + 1..], x);
    CoverConcat(all[..i], [all[i]], x);
    CoverPresent(all[i + 1..], j - i - 1, x);
  }

  lemma {:induction false} CoverPresent(bs: seq<Block>, k: nat, x: int)
    requires k < |bs|
    ensures Contains(bs[k], x) ==> Cover(bs, x) >= 1
  {
    if k > 0 {
      CoverPresent(bs[1..], k - 1, x);
    }
  }

  // ------------------------------------------------------------------ what the lists do

  /** Take the whole of block `i`. */
  function TakeAll(free: seq<Block>, i: nat): seq<Block>
    requires i < |free|
  {
    free[..i] + free[i + 1..]
  }

  /** Take `n` bytes from the front of block `i`. */
  function TakeFront(free: seq<Block>, i: nat, n: nat): seq<Block>
    requires i < |free| && n <= free[i].len
  {
    free[i := Block(free[i].base + n, free[i].len - n)]
  }

  /** Merge block `j` with its successor in the list, if that continues it. */
  function MergeNext(free: seq<Block>, j: nat): seq<Block>
    requires j < |free|
  {
    if j + 1 < |free| && free[j].base + free[j].len == free[j + 1].base
    then free[..j] + [Block(free[j].base, free[j].len + free[j + 1].len)] + free[j + 2..]
    else free
  }

  /** Where a block with offset `base` is inserted: before the first block, if any, whose
      successor does not start below it. */
  function InsertPoint(free: seq<Block>, base: nat): (i: nat)
    ensures i < |free| || i == 0 == |free|
  {
    if |free| > 1 && free[1].base < base then 1 + InsertPoint(free[1..], base) else 0
  }

  /** The search passes a block exactly while the one behind it starts below `base`: all blocks passed,
      but the first, start below, and the one behind the insertion point does not. */
  lemma {:induction false} InsertPointExact(free: seq<Block>, base: nat)
    ensures var i := InsertPoint(free, base);
            && (forall j :: 0 < j <= i ==> free[j].base < base)
            && (i + 1 < |free| ==> base <= free[i + 1].base)
  {
    if |free| > 1 && free[1].base < base {
      InsertPointExact(free[1..], base);
      var i := InsertPoint(free[1..], base);
      assert forall j :: 0 < j <= i + 1 ==> free[j] == free[1..][j - 1];
      assert i + 1 < |free[1..]| ==> free[i + 2] == free[1..][i + 1];
    }
  }

  /** Whether block `b` ends where block `c` starts. */
  predicate Touches(b: Block, c: Block) {
    b.base + b.len == c.base
  }

  /** The free list after block `b` has been inserted and merged with its neighbours there. */
  function Released(free: seq<Block>, b: Block): seq<Block> {
    var i := InsertPoint(free, b.base);
    var f1 := free[..i] + [b] + free[i..];
    if i > 0 && Touches(f1[i - 1], b) then MergeNext(MergeNext(f1, i - 1), i - 1) else MergeNext(f1, i)
  }

  /** Each neighbour at the insertion point that touches the block is merged with it. */
  lemma ReleasedMerges(free: seq<Block>, b: Block)
    ensures var i := InsertPoint(free, b.base);
            |Released(free, b)| == |free| + 1 - (if i > 0 && Touches(free[i - 1], b) then 1 else 0)
                                              - (if i < |free| && Touches(b, free[i]) then 1 else 0)
  {
    hide InsertPoint;
    var i := InsertPoint(free, b.base);
    var f1 := free[..i] + [b] + free[i..];
    assert f1[i] == b && (i > 0 ==> f1[i - 1] == free[i - 1]) && (i < |free| ==> f1[i + 1] == free[i]);
    if i > 0 && Touches(free[i - 1], b) {
      var f2 := MergeNext(f1, i - 1);
      assert f2[i - 1] == Block(free[i - 1].base, free[i - 1].len + b.len);
      assert i < |free| ==> f2[i] == free[i];
    }
  }

  lemma ReleasedTiles(fs: seq<Block>, ls: seq<Block>, k: nat)
    requires Tiled(fs, ls) && k < |ls|
    ensures Tiled(Released(fs, ls[k]), TakeAll(ls, k))
  {
    var b := ls[k];
    var i := InsertPoint(fs, b.base);
    var f1 := fs[..i] + [b] + fs[i..];
    forall x: int
      ensures Cover(Released(fs, b), x) + Cover(TakeAll(ls, k), x) == Cover(fs, x) + Cover(ls, x)
    {
      InsertCovers(fs, i, b, x);
      TakeAllCovers(ls, k, x);
      if i > 0 && Touches(f1[i - 1], b) {
        MergeCovers(f1, i - 1, x);
        MergeCovers(MergeNext(f1, i - 1), i - 1, x);
      } else {
        MergeCovers(f1, i, x);
      }
    }
  }

  lemma TakeAllCovers(free: seq<Block>, i: nat, x: int)
    requires i < |free|
    ensures Cover(free, x) == Cover(TakeAll(free, i), x) + if Contains(free[i], x) then 1 else 0
  {
    assert free == free[..i] + [free[i]] + free[i + 1..];
    assert TakeAll(free, i) == free[..i] + [] + free[i + 1..];
    CoverReplace(free[..i], [free[i]], [], free[i + 1..], x);
  }

  lemma TakeFrontCovers(free: seq<Block>, i: nat, n: nat, x: int)
    requires i < |free| && n <= free[i].len
    ensures Cover(free, x) == Cover(TakeFront(free, i, n), x) + if Contains(Block(free[i].base, n), x) then 1 else 0
  {
    var rest := Block(free[i].base + n, free[i].len - n);
    assert free == free[..i] + [free[i]] + free[i + 1..];
    assert TakeFront(free, i, n) == free[..i] + [rest] + free[i + 1..];
    CoverReplace(free[..i], [free[i]], [rest], free[i + 1..], x);
  }

  lemma MergeCovers(free: seq<Block>, j: nat, x: int)
    requires j < |free|
    ensures Cover(MergeNext(free, j), x) == Cover(free, x)
  {
    if j + 1 < |free| && free[j].base + free[j].len == free[j + 1].base {
      var m, m' := [free[j], free[j + 1]], [Block(free[j].base, free[j].len + free[j + 1].len)];
      assert free == free[..j] + m + free[j + 2..];
      CoverReplace(free[..j], m, m', free[j + 2..], x);
      assert Cover(m, x) == Cover(m', x) by {
        CoverConcat([free[j]], [free[j + 1]], x);
        assert m == [free[j]] + [free[j + 1]];
      }
    }
  }

  lemma InsertCovers(free: seq<Block>, i: nat, b: Block, x: int)
    requires i <= |free|
    ensures Cover(free[..i] + [b] + free[i..], x) == Cover(free, x) + if Contains(b, x) then 1 else 0
  {
    assert free == free[..i] + [] + free[i..];
    CoverReplace(free[..i], [b], [], free[i..], x);
  }

  /** Block `i` is the first that can hold `length` bytes. */
  ghost predicate FirstFit(free: seq<Block>, length: nat, i: nat) {
    i < |free| && free[i].len >= length && forall k :: 0 <= k < i ==> free[k].len < length
  }

  // -------------------------------------------------------------------------- the allocator

  class Allocator {
    var free: seq<seq<Block>>
    ghost var live: seq<seq<Block>>

    ghost predicate Valid()
      reads this
    {
      |free| == |live| <= MAX_ZONES && forall z :: 0 <= z < |free| ==> Tiled(free[z], live[z])
    }

    constructor ()
      ensures Valid() && free == []
    {
      free, live := [], [];
    }

    /** One free block per zone, if the memory is made up of one to sixteen huge pages (counted
        in 32 bits); `handleOk[z]` tells whether a handle can be allocated for zone `z`. */
    method Init(memSize: nat, handleOk: seq<bool>) returns (ok: bool)
      requires |handleOk| == MAX_ZONES
      modifies this
      ensures var zones := Wrap(memSize / ZONE_SIZE);
              && (ok <==> memSize % ZONE_SIZE == 0 && 0 < zones <= MAX_ZONES && forall z :: 0 <= z < zones ==> handleOk[z])
              && (ok ==> Valid() && |free| == zones)
      ensures ok ==> forall z :: 0 <= z < |free| ==> free[z] == [Block(0, ZONE_SIZE)] && live[z] == []
    {
      if memSize % ZONE_SIZE != 0 {
        return false;
      }
      var zones := Wrap(memSize / ZONE_SIZE);
      if zones == 0 || zones > MAX_ZONES {
        return false;
      }
      free, live := [], [];
      var z := 0;
      while z < zones
        invariant 0 <= z <= zones && |free| == |live| == z
        invariant forall k :: 0 <= k < z ==> free[k] == [Block(0, ZONE_SIZE)] && live[k] == [] && handleOk[k]
      {
        if !handleOk[z] {
          return false;
        }
        free := free + [[Block(0, ZONE_SIZE)]];
        live := live + [[]];
        z := z + 1;
      }
      assert Tiled([Block(0, ZONE_SIZE)], []);
      ok := true;
    }

    /** First fit in one zone; `handleOk` tells whether a new handle can be allocated. */
    method ZoneAlloc(zone: nat, length: nat, handleOk: bool) returns (r: Option<Handle>)
      requires Valid() && zone < |free|
      modifies this
      ensures Valid() && |free| == old(|free|)
      ensures forall z :: 0 <= z < |free| && z != zone ==> free[z] == old(free[z]) && live[z] == old(live[z])
      ensures r.Some? ==> r.value.zone == zone && r.value.block.len == length
                          && live[zone] == old(live[zone]) + [r.value.block]
      ensures r.Some? ==> exists i :: 0 <= i < |old(free[zone])| && FirstFit(old(free[zone]), length, i)
                                      && r.value.block.base == old(free[zone])[i].base
      ensures r.None? ==> free == old(free) && live == old(live)
      ensures r.None? && handleOk ==> forall b :: b in free[zone] ==> b.len < length
      ensures r.Some? <==> exists i :: 0 <= i < |old(free[zone])| && FirstFit(old(free[zone]), length, i)
                                       && (handleOk || old(free[zone])[i].len == length)
    {
      var fs := free[zone];
      var i := 0;
      while i < |fs| && fs[i].len < length
        invariant 0 <= i <= |fs|
        invariant forall k :: 0 <= k < i ==> fs[k].len < length
      {
        i := i + 1;
      }
      if i == |fs| {
        return None;
      }
      assert FirstFit(fs, length, i) && forall k :: 0 <= k < |fs| && FirstFit(fs, length, k) ==> k == i;
      var taken := fs[i];
      assert taken in fs;
      var fs';
      if taken.len == length {
        fs' := TakeAll(fs, i);
      } else {
        if !handleOk {
          return None;
        }
        taken := Block(taken.base, length);
        fs' := TakeFront(fs, i, length);
      }
      TileTaken(fs, live[zone], fs', i, taken);
      free := free[zone := fs'];
      live := live[zone := live[zone] + [taken]];
      r := Some(Handle(zone, taken));
    }

    /** What leaves the free list and joins the live blocks keeps the zone tiled. */
    static lemma TileTaken(fs: seq<Block>, ls: seq<Block>, fs': seq<Block>, i: nat, taken: Block)
      requires Tiled(fs, ls) && i < |fs|
      requires (taken == fs[i] && fs' == TakeAll(fs, i))
               || (taken == Block(fs[i].base, taken.len) && taken.len <= fs[i].len && fs' == TakeFront(fs, i, taken.len))
      ensures Tiled(fs', ls + [taken])
    {
      forall x: int
        ensures Cover(fs', x) + Cover(ls + [taken], x) == Cover(fs, x) + Cover(ls, x)
      {
        CoverConcat(ls, [taken], x);
        if taken == fs[i] && fs' == TakeAll(fs, i) {
          TakeAllCovers(fs, i, x);
        } else {
          TakeFrontCovers(fs, i, taken.len, x);
        }
      }
    }

    /** Try the zones in turn; `handleOk[z]` tells whether a handle can be allocated there. */
    method Alloc(length: nat, handleOk: seq<bool>) returns (r: Option<Handle>)
      requires Valid() && |handleOk| == |free|
      modifies this
      ensures Valid() && |free| == old(|free|)
      ensures r.None? ==> free == old(free) && live == old(live)
      ensures r.None? && (forall z :: 0 <= z < |free| ==> handleOk[z]) ==>
                forall z, b :: 0 <= z < |free| && b in free[z] ==> b.len < length
      ensures r.Some? ==> var h := r.value;
                h.zone < |free| && h.block.len == length && live == old(live)[h.zone := old(live)[h.zone] + [h.block]]
      ensures r.Some? ==> forall z, b :: 0 <= z < r.value.zone && handleOk[z] && b in free[z] ==> b.len < length
    {
      var zone := 0;
      while zone < |free|
        invariant 0 <= zone <= |free| && free == old(free) && live == old(live) && Valid()
        invariant forall z, b :: 0 <= z < zone && handleOk[z] && b in free[z] ==> b.len < length
      {
        r := ZoneAlloc(zone, length, handleOk[zone]);
        if r.Some? {
          assert live == old(live)[zone := old(live)[zone] + [r.value.block]];
          return;
        }
        zone := zone + 1;
      }
      r := None;
    }

    /** Give a live block back: insert it where the search stops, and merge around it. */
    method Free(h: Handle, ghost k: nat)
      requires Valid() && h.zone < |free| && k < |live[h.zone]| && live[h.zone][k] == h.block
      modifies this
      ensures Valid() && |free| == old(|free|)
      ensures live == old(live)[h.zone := TakeAll(old(live)[h.zone], k)]
      ensures free == old(free)[h.zone := Released(old(free)[h.zone], h.block)]
    {
      var fs := free[h.zone];
      var i := 0;
      while i + 1 < |fs| && fs[i + 1].base < h.block.base
        invariant 0 <= i <= |fs| && InsertPoint(fs, h.block.base) == i + InsertPoint(fs[i..], h.block.base)
        decreases |fs| - i
      {
        assert fs[i..][1..] == fs[i + 1..];
        i := i + 1;
      }
      var fs' := fs[..i] + [h.block] + fs[i..];
      var j := i;
      if i > 0 && Touches(fs'[i - 1], fs'[i]) {
        fs' := MergeNext(fs', i - 1);
        j := i - 1;
      }
      fs' := MergeNext(fs', j);
      ReleasedTiles(fs, live[h.zone], k);
      free := free[h.zone := fs'];
      live := live[h.zone := TakeAll(live[h.zone], k)];
    }
  }
}
