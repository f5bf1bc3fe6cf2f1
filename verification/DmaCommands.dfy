/** Payload transfers between a packet buffer and a circular host buffer: the command that
    post-processing packs into four words, and the one or two transfers that the DMA stage
    unpacks from it. */
module DmaCommands {
  import opened Words
  import opened Buffers

  const FIELD_20 := 0x10_0000   // weight of the length field
  const FIELD_8 := 0x100        // weight of the second length field

  /** `two` tells that the payload wraps around the end of the buffer. */
  datatype Command = Command(two: bool, param1: uint32, param2: uint32, param3: uint32, param4: uint32)

  /** `len` bytes between device address `dev` and host address `host`. */
  datatype Transfer = Transfer(dev: nat, host: nat, len: nat)

  /** The word that holds a host address above 4 GiB and two lengths, in disjoint fields. */
  function Packed(hi: nat, len2: nat, len1: nat): uint32
    requires hi < 0x100 && len2 < 0x1000 && 0 < len1 <= 0x1000
  {
    hi + len2 * FIELD_8 + (len1 - 1) * FIELD_20
  }

  /** Adding fields that do not overlap is what the firmware does by or-ing them, and shifts
      and masks take them apart again. */
  lemma FieldsAreDisjoint(hi: bv32, len2: bv32, len1: bv32)
    requires hi < 0x100 && len2 < 0x1000 && len1 < 0x1000
    ensures hi | (len2 << 8) | (len1 << 20) == hi + (len2 << 8) + (len1 << 20)
    ensures (hi | (len2 << 8) | (len1 << 20)) >> 20 == len1
    ensures ((hi | (len2 << 8) | (len1 << 20)) >> 8) & 0xFFF == len2
    ensures (hi | (len2 << 8) | (len1 << 20)) & 0xFF == hi
  {
  }

  lemma Unpack(hi: nat, len2: nat, len1: nat)
    requires hi < 0x100 && len2 < 0x1000 && 0 < len1 <= 0x1000
    ensures var w := Packed(hi, len2, len1);
            w % FIELD_8 == hi && (w / FIELD_8) % 0x1000 == len2 && w / FIELD_20 + 1 == len1
  {
    var w := Packed(hi, len2, len1);
    ModOf(w, FIELD_8, len2 + (len1 - 1) * 0x1000, hi);
    ModOf(w / FIELD_8, 0x1000, len1 - 1, len2);
    ModOf(w, FIELD_20, len1 - 1, hi + len2 * FIELD_8);
  }

  /** What the caller guarantees: addresses of 40 bits, a power-of-two buffer, a payload that
      fits both the buffer and the 12-bit length fields, and a packet buffer in one piece. */
  predicate Transferable(bufBase: nat, bufLen: nat, pktBase: nat, len: nat) {
    && PowerOfTwo(bufLen) && bufLen <= MOD && bufBase + bufLen <= 0x100 * MOD
    && 0 < len < 0x1000 && len <= bufLen
    && pktBase % MOD + len < MOD && pktBase / MOD < 0x100
  }

  function Prepare(bufBase: nat, bufLen: nat, pktBase: nat, pos: uint32, len: nat): Command
    requires Transferable(bufBase, bufLen, pktBase, len)
  {
    PrepareAt(bufBase, bufLen, pktBase, pos % bufLen, len)
  }

  function PrepareAt(bufBase: nat, bufLen: nat, pktBase: nat, start: nat, len: nat): Command
    requires Transferable(bufBase, bufLen, pktBase, len) && start < bufLen
  {
    var room := bufLen - start;
    if len <= room then
      var host := bufBase + start;
      Command(false, pktBase % MOD, pktBase / MOD, host % MOD, Packed(host / MOD, 0, len))
    else
      Command(true, pktBase % MOD, start, bufBase % MOD, Packed(bufBase / MOD, len - room, room))
  }

  /** The transfers issued for a command; `devHi` is the upper half of the packet's address. */
  function Issue(cmd: Command, devHi: nat): seq<Transfer> {
    var hostHi := cmd.param4 % FIELD_8;
    var len1 := cmd.param4 / FIELD_20 + 1;
    if !cmd.two then
      [Transfer(cmd.param2 * MOD + cmd.param1, hostHi * MOD + cmd.param3, len1)]
    else
      [Transfer(devHi * MOD + cmd.param1, hostHi * MOD + Wrap(cmd.param3 + cmd.param2), len1),
       Transfer(devHi * MOD + Wrap(cmd.param1 + len1), hostHi * MOD + cmd.param3, (cmd.param4 / FIELD_8) % 0x1000)]
  }

  /** The host address that a list of transfers pairs with a device address. */
  function HostAddress(ts: seq<Transfer>, dev: int): int {
    if ts == [] then -1
    else if ts[0].dev <= dev < ts[0].dev + ts[0].len then ts[0].host + (dev - ts[0].dev)
    else HostAddress(ts[1..], dev)
  }

  /** The host address of byte `i` of the payload at device address `pktBase`. */
  function AddressOf(ts: seq<Transfer>, pktBase: nat, i: int): int {
    HostAddress(ts, pktBase + i)
  }

  /** The place of byte `i` in a circular buffer. */
  function Place(bufLen: nat, pos: nat, i: int): int
    requires bufLen > 0
  {
    (pos + i) % bufLen
  }

  /** Byte `i` of the payload goes to or comes from place `(pos + i) mod bufLen`, and no byte
      beyond the payload is touched. */
  ghost predicate CircularCopy(ts: seq<Transfer>, bufBase: nat, bufLen: nat, pktBase: nat, pos: nat, len: nat)
    requires bufLen > 0
  {
    forall i :: AddressOf(ts, pktBase, i) == if 0 <= i < len then bufBase + Place(bufLen, pos, i) else -1
  }

  lemma PlaceOf(bufLen: nat, pos: nat, i: nat)
    requires 0 < bufLen && i < bufLen
    ensures var start := pos % bufLen;
            Place(bufLen, pos, i) == if start + i < bufLen then start + i else start + i - bufLen
  {
    var start := pos % bufLen;
    assert pos + i == (start + i) + bufLen * (pos / bufLen);
    ModShift(start + i, bufLen, pos / bufLen);
    if start + i < bufLen {
      ModOf(start + i, bufLen, 0, start + i);
    } else {
      ModOf(start + i, bufLen, 1, start + i - bufLen);
    }
  }

  lemma Halves(a: nat)
    ensures a == (a / MOD) * MOD + a % MOD
  {
  }

  /** The single transfer of a payload that does not wrap. */
  lemma OneTransfer(bufBase: nat, bufLen: nat, pktBase: nat, start: nat, len: nat)
    requires Transferable(bufBase, bufLen, pktBase, len) && start < bufLen && len <= bufLen - start
    ensures Issue(PrepareAt(bufBase, bufLen, pktBase, start, len), pktBase / MOD)
            == [Transfer(pktBase, bufBase + start, len)]
  {
    Unpack((bufBase + start) / MOD, 0, len);
    Halves(bufBase + start);
    Halves(pktBase);
  }

  lemma NoCarry(hi: nat, lo: nat, n: nat)
    requires lo + n < MOD
    ensures hi * MOD + Wrap(lo + n) == hi * MOD + lo + n
  {
  }

  /** The two transfers of a payload that wraps; the first address is a 32-bit sum. */
  lemma IssueTwo(bufBase: nat, pktBase: nat, start: uint32, room: nat, len: nat)
    requires 0 < room < len < 0x1000 && bufBase / MOD < 0x100 && pktBase % MOD + len < MOD
    ensures Issue(Command(true, pktBase % MOD, start, bufBase % MOD, Packed(bufBase / MOD, len - room, room)), pktBase / MOD)
            == [Transfer(pktBase, (bufBase / MOD) * MOD + Wrap(bufBase % MOD + start), room),
                Transfer(pktBase + room, bufBase, len - room)]
  {
    hide Wrap, Packed;
    Unpack(bufBase / MOD, len - room, room);
    NoCarry(pktBase / MOD, pktBase % MOD, room);
    Halves(bufBase);
    Halves(pktBase);
  }

  /** The packed command copies circularly if and only if the payload does not wrap, or the
      buffer's used part starts in the same 4 GiB as the buffer. */
  lemma CopiesCircularlyIff(bufBase: nat, bufLen: nat, pktBase: nat, pos: uint32, len: nat)
    requires Transferable(bufBase, bufLen, pktBase, len)
    ensures var start := pos % bufLen;
            CircularCopy(Issue(Prepare(bufBase, bufLen, pktBase, pos, len), pktBase / MOD), bufBase, bufLen, pktBase, pos, len)
            <==> len <= bufLen - start || bufBase % MOD + start < MOD
  {
    hide Issue, CircularCopy, Packed, PowerOfTwo;
    var start := pos % bufLen;
    var room := bufLen - start;
    var ts := Issue(Prepare(bufBase, bufLen, pktBase, pos, len), pktBase / MOD);
    if len <= room {
      OneTransfer(bufBase, bufLen, pktBase, start, len);
      OneCovers(ts, bufBase, bufLen, pktBase, pos, len);
    } else {
      IssueTwo(bufBase, pktBase, start, room, len);
      TwoCover(ts, bufBase, bufLen, pktBase, pos, len);
    }
  }

  /** A buffer inside one naturally aligned gigabyte, as all of packet memory's zones are, never
      meets the failing case. */
  lemma GigabyteNeverCrosses(bufBase: nat, bufLen: nat, pktBase: nat, pos: uint32, len: nat)
    requires Transferable(bufBase, bufLen, pktBase, len)
    requires bufBase / 0x4000_0000 == (bufBase + bufLen - 1) / 0x4000_0000
    ensures CircularCopy(Issue(Prepare(bufBase, bufLen, pktBase, pos, len), pktBase / MOD), bufBase, bufLen, pktBase, pos, len)
  {
    hide CircularCopy, Issue, Prepare, PowerOfTwo;
    var start := pos % bufLen;
    assert start < bufLen;
    var g := bufBase / 0x4000_0000;
    assert bufBase + start < 0x4000_0000 * (g + 1);
    SameRegion(bufBase, start, g);
    CopiesCircularlyIff(bufBase, bufLen, pktBase, pos, len);
  }

  lemma SameRegion(base: nat, start: nat, g: nat)
    requires 0x4000_0000 * g <= base && base + start < 0x4000_0000 * (g + 1)
    ensures base % MOD + start < MOD
  {
    var q, r := g / 4, g % 4;
    assert base == MOD * q + (0x4000_0000 * r + (base - 0x4000_0000 * g));
    ModOf(base, MOD, q, 0x4000_0000 * r + (base - 0x4000_0000 * g));
  }

  /** The failing case exists: an 8 KiB buffer that straddles 4 GiB, and a full segment that
      wraps around its end. */
  lemma StraddlingBufferFails(pktBase: nat)
    requires pktBase % MOD + 1448 < MOD && pktBase / MOD < 0x100
    ensures var base := MOD - 4096;
            && Transferable(base, 8192, pktBase, 1448)
            && !CircularCopy(Issue(Prepare(base, 8192, pktBase, 8000, 1448), pktBase / MOD), base, 8192, pktBase, 8000, 1448)
  {
    hide CircularCopy, Issue, Prepare, PowerOfTwo;
    EightKiB();
    CopiesCircularlyIff(MOD - 4096, 8192, pktBase, 8000, 1448);
  }

  lemma EightKiB()
    ensures PowerOfTwo(8192)
  {
    assert PowerOfTwo(1);
    Double(1);
    Times16(2);
    Times16(32);
    Times16(512);
  }

  lemma OneCovers(ts: seq<Transfer>, bufBase: nat, bufLen: nat, pktBase: nat, pos: nat, len: nat)
    requires 0 < bufLen && len <= bufLen - pos % bufLen
    requires ts == [Transfer(pktBase, bufBase + pos % bufLen, len)]
    ensures CircularCopy(ts, bufBase, bufLen, pktBase, pos, len)
  {
    hide Place;
    assert ts[1..] == [];
    forall i
      ensures AddressOf(ts, pktBase, i) == if 0 <= i < len then bufBase + Place(bufLen, pos, i) else -1
    {
      assert HostAddress(ts[1..], pktBase + i) == -1;
      if 0 <= i < len {
        PlaceOf(bufLen, pos, i);
      }
    }
  }

  lemma TwoAddresses(ts: seq<Transfer>, pktBase: nat, room: nat, len: nat, a: nat, b: nat, i: int)
    requires room < len && ts == [Transfer(pktBase, a, room), Transfer(pktBase + room, b, len - room)]
    ensures AddressOf(ts, pktBase, i) ==
            if 0 <= i < room then a + i else if room <= i < len then b + i - room else -1
  {
    var rest := ts[1..];
    assert rest == [Transfer(pktBase + room, b, len - room)];
    assert HostAddress(rest[1..], pktBase + i) == -1;
    assert HostAddress(rest, pktBase + i) == if room <= i < len then b + i - room else -1;
  }

  lemma TwoCover(ts: seq<Transfer>, bufBase: nat, bufLen: nat, pktBase: nat, pos: nat, len: nat)
    requires 0 < bufLen <= MOD && bufLen - pos % bufLen < len <= bufLen
    requires var start := pos % bufLen;
             ts == [Transfer(pktBase, (bufBase / MOD) * MOD + Wrap(bufBase % MOD + start), bufLen - start),
                    Transfer(pktBase + (bufLen - start), bufBase, len - (bufLen - start))]
    ensures CircularCopy(ts, bufBase, bufLen, pktBase, pos, len) <==> bufBase % MOD + pos % bufLen < MOD
  {
    hide Place, AddressOf;
    var start := pos % bufLen;
    var room := bufLen - start;
    var first := (bufBase / MOD) * MOD + Wrap(bufBase % MOD + start);
    assert first == bufBase + start <==> bufBase % MOD + start < MOD;
    forall i
      ensures AddressOf(ts, pktBase, i) ==
              if 0 <= i < len then bufBase + Place(bufLen, pos, i) + (if i < room then first - (bufBase + start) else 0) else -1
    {
      TwoAddresses(ts, pktBase, room, len, first, bufBase, i);
      if 0 <= i < len {
        PlaceOf(bufLen, pos, i);
      }
    }
    assert AddressOf(ts, pktBase, 0) == bufBase + Place(bufLen, pos, 0) + first - (bufBase + start);
  }

  /** Filling in a command, word by word; `two` is the return value. */
  method PrepareCommand(bufBase: nat, bufLen: nat, pktBase: nat, dmaPos: uint32, dmaLen: nat) returns (cmd: Command)
    requires Transferable(bufBase, bufLen, pktBase, dmaLen)
    ensures cmd == Prepare(bufBase, bufLen, pktBase, dmaPos, dmaLen)
    ensures !cmd.two || bufBase % MOD + dmaPos % bufLen < MOD <==>
            CircularCopy(Issue(cmd, pktBase / MOD), bufBase, bufLen, pktBase, dmaPos, dmaLen)
  {
    var len := dmaLen;
    var pos := dmaPos % bufLen;
    var wraparound := bufLen - pos;
    if len <= wraparound {
      var host := bufBase + pos;
      cmd := Command(false, pktBase % MOD, pktBase / MOD, host % MOD, Packed(host / MOD, 0, len));
    } else {
      len := len - wraparound;
      cmd := Command(true, pktBase % MOD, pos, bufBase % MOD, Packed(bufBase / MOD, len, wraparound));
    }
    CopiesCircularlyIff(bufBase, bufLen, pktBase, dmaPos, dmaLen);
  }

  /** `mem'` is the host buffer after payload `data` was written along the transfers. */
  ghost predicate Written(ts: seq<Transfer>, mem: seq<byte>, mem': seq<byte>, bufBase: nat, pktBase: nat, data: seq<byte>) {
    && |mem'| == |mem|
    && (forall i :: 0 <= i < |data| ==>
          var a := AddressOf(ts, pktBase, i) - bufBase; 0 <= a < |mem| && mem'[a] == data[i])
    && (forall j :: 0 <= j < |mem| && mem'[j] != mem[j] ==>
          exists i :: 0 <= i < |data| && AddressOf(ts, pktBase, i) == bufBase + j)
  }

  /** Transfers that copy circularly have the effect of `Put`, the copy that the receive
      buffer's invariants are stated with. */
  lemma WrittenIsPut(ts: seq<Transfer>, mem: seq<byte>, mem': seq<byte>, bufBase: nat, pktBase: nat, pos: nat, data: seq<byte>)
    requires 0 < |mem| && |data| <= |mem|
    requires CircularCopy(ts, bufBase, |mem|, pktBase, pos, |data|) && Written(ts, mem, mem', bufBase, pktBase, data)
    ensures mem' == Put(mem, pos, data)
  {
    hide AddressOf, Place, Put;
    forall j | 0 <= j < |mem|
      ensures mem'[j] == Put(mem, pos, data)[j]
    {
      var d := PlaceBack(mem, pos, j, data);
      assert AddressOf(ts, pktBase, d) == if d < |data| then bufBase + j else -1;
      if d >= |data| && mem'[j] != mem[j] {
        var i :| 0 <= i < |data| && AddressOf(ts, pktBase, i) == bufBase + j;
        PlaceUnique(|mem|, pos, i, d);
        assert false;
      }
    }
  }

  /** Which byte of the payload, if any, belongs at place `j`. */
  lemma PlaceBack(mem: seq<byte>, pos: nat, j: nat, data: seq<byte>) returns (d: nat)
    requires j < |mem|
    ensures d < |mem| && Place(|mem|, pos, d) == j
    ensures Put(mem, pos, data)[j] == if d < |data| then data[d] else mem[j]
  {
    var n := |mem|;
    d := (j - pos) % n;
    assert pos + d == j + n * (-((j - pos) / n)) by {
      assert j - pos == n * ((j - pos) / n) + d;
      assert n * (-((j - pos) / n)) == -(n * ((j - pos) / n));
    }
    ModShift(j, n, -((j - pos) / n));
    ModOf(j, n, 0, j);
  }

  lemma PlaceUnique(n: nat, pos: nat, i: nat, d: nat)
    requires i < n && d < n && Place(n, pos, i) == Place(n, pos, d)
    ensures i == d
  {
    PlaceOf(n, pos, i);
    PlaceOf(n, pos, d);
  }
}
