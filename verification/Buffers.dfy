/** Circular host buffers addressed by free-running positions. */
module Buffers {
  import opened Words

  type byte = bv8

  predicate PowerOfTwo(n: nat) {
    n == 1 || (n > 1 && n % 2 == 0 && PowerOfTwo(n / 2))
  }

  /** A power of two divides every larger one; masking a position therefore agrees with
      reducing it modulo the buffer length, also after the position itself has wrapped. */
  lemma {:induction false} PowerOfTwoDivides(n: nat, m: nat)
    requires PowerOfTwo(n) && PowerOfTwo(m) && n <= m
    ensures m % n == 0
  {
    if n > 1 {
      PowerOfTwoDivides(n / 2, m / 2);
      var q := (m / 2) / (n / 2);
      assert m / 2 == (n / 2) * q;
      assert m == n * q by { assert m == 2 * (m / 2) && n == 2 * (n / 2); }
      MultipleMod(q, n);
    }
  }

  lemma Double(n: nat)
    requires PowerOfTwo(n)
    ensures PowerOfTwo(2 * n)
  {
    assert (2 * n) / 2 == n && (2 * n) % 2 == 0;
  }

  lemma Times16(n: nat)
    requires PowerOfTwo(n)
    ensures PowerOfTwo(16 * n)
  {
    hide PowerOfTwo;
    Double(n);
    Double(2 * n);
    Double(4 * n);
    Double(8 * n);
  }

  /** 2^32 is a power of two. */
  lemma ModIsPower()
    ensures PowerOfTwo(MOD)
  {
    assert PowerOfTwo(1);
    hide PowerOfTwo;
    Times16(1);
    Times16(0x10);
    Times16(0x100);
    Times16(0x1000);
    Times16(0x1_0000);
    Times16(0x10_0000);
    Times16(0x100_0000);
    Times16(0x1000_0000);
  }

  lemma MultipleMod(q: int, n: nat)
    requires n > 0
    ensures (n * q) % n == 0
  {
    ModOf(n * q, n, q, 0);
  }

  /** Division with remainder is unique. */
  lemma ModOf(x: int, n: nat, q: int, r: nat)
    requires x == n * q + r && r < n
    ensures x % n == r && x / n == q
  {
    var d := q - x / n;
    assert n * d == x % n - r by {
      assert x == n * (x / n) + x % n;
      assert n * d == n * q - n * (x / n);
    }
    SmallMultiple(n, d);
  }

  lemma SmallMultiple(n: int, d: int)
    requires 0 - n < n * d < n
    ensures d == 0
  {
  }

  /** Congruent numbers have the same remainder. */
  lemma ModShift(x: int, n: nat, q: int)
    requires n > 0
    ensures (x + n * q) % n == x % n
  {
    assert x + n * q == n * (x / n + q) + x % n by { assert n * (x / n + q) == n * (x / n) + n * q; }
    ModOf(x + n * q, n, x / n + q, x % n);
  }

  /** The byte at a free-running position. */
  function Read(mem: seq<byte>, pos: int): byte
    requires |mem| > 0
  {
    mem[pos % |mem|]
  }

  /** Copy `data` into the buffer from position `pos` on, wrapping around at its end. */
  function Put(mem: seq<byte>, pos: int, data: seq<byte>): (mem': seq<byte>)
    requires |mem| > 0
    ensures |mem'| == |mem|
  {
    seq(|mem|, i requires 0 <= i < |mem| =>
      var j := (i - pos) % |mem|;
      if j < |data| then data[j] else mem[i])
  }

  /** Copy `n` bytes out of the buffer from position `pos` on. */
  function Get(mem: seq<byte>, pos: int, n: nat): (data: seq<byte>)
    requires |mem| > 0
    ensures |data| == n
  {
    seq(n, i => Read(mem, pos + i))
  }

  /** Reading back around a copied range: the range itself has the new bytes, and what lies
      less than one buffer length before its end or behind its start is untouched. */
  lemma ReadPut(mem: seq<byte>, pos: int, data: seq<byte>, k: int)
    requires |data| <= |mem| && 0 < |mem|
    requires pos + |data| - |mem| <= k < pos + |mem|
    ensures Read(Put(mem, pos, data), k) == if pos <= k < pos + |data| then data[k - pos] else Read(mem, k)
  {
    var n := |mem|;
    var i := k % n;
    assert i - pos == (k - pos) + n * (-(k / n)) by { assert k == n * (k / n) + i; assert n * (-(k / n)) == -(n * (k / n)); }
    ModShift(k - pos, n, -(k / n));
    if pos <= k {
      ModOf(k - pos, n, 0, k - pos);
    } else {
      ModOf(k - pos, n, -1, k - pos + n);
    }
  }

  /** Buffer lengths that divide 2^32 make wrapped positions as good as unbounded ones. */
  lemma WrappedMod(n: nat, x: int, pos: int)
    requires n > 0 && MOD % n == 0
    ensures (x - Wrap(pos)) % n == (x - pos) % n
    ensures (x + Wrap(pos)) % n == (x + pos) % n
  {
    var c, w := MOD / n, pos / MOD;
    assert MOD == n * c;
    assert pos == MOD * w + Wrap(pos);
    assert MOD * w == n * (c * w);
    ModShift(x - pos, n, c * w);
    ModShift(x + Wrap(pos), n, c * w);
  }

  lemma PutWrapped(mem: seq<byte>, pos: int, data: seq<byte>)
    requires |mem| > 0 && MOD % |mem| == 0
    ensures Put(mem, Wrap(pos), data) == Put(mem, pos, data)
  {
    forall i | 0 <= i < |mem|
      ensures Put(mem, Wrap(pos), data)[i] == Put(mem, pos, data)[i]
    {
      WrappedMod(|mem|, i, pos);
    }
  }

  lemma GetWrapped(mem: seq<byte>, pos: int, n: nat)
    requires |mem| > 0 && MOD % |mem| == 0
    ensures Get(mem, Wrap(pos), n) == Get(mem, pos, n)
  {
    forall i | 0 <= i < n
      ensures Get(mem, Wrap(pos), n)[i] == Get(mem, pos, n)[i]
    {
      ReadWrapped(mem, pos, i);
    }
  }

  lemma ReadWrapped(mem: seq<byte>, pos: int, i: int)
    requires |mem| > 0 && MOD % |mem| == 0
    ensures Read(mem, Wrap(pos) + i) == Read(mem, pos + i)
  {
    WrappedMod(|mem|, i, pos);
  }

  /** The place of a count in a ring of `n`. */
  function Rem(x: int, n: nat): (r: nat)
    requires n > 0
    ensures r < n
  {
    x % n
  }

  /** Indices in a ring of `len` places tell apart counts less than `len` apart. */
  lemma IndexTellsApart(len: nat, x: nat, y: nat)
    requires 0 < len && x <= y < x + len
    ensures Rem(x, len) == Rem(y, len) <==> x == y
  {
    if x % len == y % len {
      var q, r := x / len, y / len;
      assert y - x == len * (r - q) by {
        assert x == len * q + x % len && y == len * r + y % len;
        assert len * (r - q) == len * r - len * q;
      }
      SmallMultiple(len, r - q);
    }
  }

  lemma NextIndex(len: nat, x: nat)
    requires 0 < len
    ensures Rem(Rem(x, len) + 1, len) == Rem(x + 1, len)
  {
    assert x + 1 == (x % len + 1) + len * (x / len);
    ModShift(x % len + 1, len, x / len);
  }
}
