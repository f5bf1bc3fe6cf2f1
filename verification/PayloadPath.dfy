/** Handlers and DMA together: the transfers that are issued for a handler's request move
    exactly the bytes that the connection's invariants speak of. */
module PayloadPath {
  import opened Words
  import opened Flows
  import opened Buffers
  import opened DmaCommands
  import Receive
  import Connections

  /** A host buffer that lies in one 4 GiB region of the 40-bit address space, and a packet
      buffer in one piece. */
  predicate Placed(bufBase: nat, bufLen: nat, pktBase: nat) {
    && PowerOfTwo(bufLen) && bufBase % MOD + bufLen <= MOD && bufBase + bufLen <= 0x100 * MOD
    && pktBase % MOD + 0x1000 < MOD && pktBase / MOD < 0x100
  }

  /** What a received segment asks for is not empty, fits the length fields and the buffer. */
  lemma ReceivedFits(w: Connections.World, from: nat, bytes: seq<byte>, pkt: Packet)
    requires Connections.Ok(w) && Connections.Allowed(w, Connections.Data(from, bytes, pkt))
    ensures var p := Segment(w.flow, |bytes|, pkt).1.payload;
            p.Some? ==> 0 < p.value.len < 0x1000 && p.value.len <= |w.inb.mem|
  {
    hide Wrap, Connections.Holds, Connections.OutboundOk, RxSegment, SegmentAck, TxAvail, QmGrowth,
      Receive.Arrive, Receive.Represents;
    Receive.SegmentRefines(w.flow.rx, w.inb.a, from, |bytes|, pkt.fin);
  }

  /** What a transmission asks for fits the length fields and the buffer, unless it is the
      FIN whose length wraps. */
  lemma SentFits(w: Connections.World, force: bool)
    requires Connections.Ok(w)
    ensures var r := Transmit(w.flow, force).1;
            r.payload.Some? && !r.fin ==> r.payload.value.len < 0x1000 && r.payload.value.len <= |w.out.mem|
  {
    hide Wrap, Connections.Holds, Connections.InboundOk, Connections.WireOk;
  }

  lemma TransfersAreCircular(bufBase: nat, bufLen: nat, pktBase: nat, pos: uint32, len: nat)
    requires Placed(bufBase, bufLen, pktBase) && 0 < len < 0x1000 && len <= bufLen
    ensures Transferable(bufBase, bufLen, pktBase, len)
    ensures CircularCopy(Issue(Prepare(bufBase, bufLen, pktBase, pos, len), pktBase / MOD), bufBase, bufLen, pktBase, pos, len)
  {
    hide Issue, Prepare, CircularCopy, PowerOfTwo;
    assert pos % bufLen < bufLen;
    CopiesCircularlyIff(bufBase, bufLen, pktBase, pos, len);
  }

  /** Writing a received packet along the issued transfers gives the receive buffer of the
      connection's next state.  (`Transferable` follows from the two lemmas above; it is
      repeated because `Prepare` asks for it.) */
  lemma ReceivedThroughDma(w: Connections.World, from: nat, bytes: seq<byte>, pkt: Packet,
                           bufBase: nat, pktBase: nat, mem': seq<byte>)
    requires Connections.Ok(w) && Connections.Allowed(w, Connections.Data(from, bytes, pkt))
    requires Placed(bufBase, |w.inb.mem|, pktBase) && Segment(w.flow, |bytes|, pkt).1.payload.Some?
    requires var d := Segment(w.flow, |bytes|, pkt).1.payload.value;
             && Transferable(bufBase, |w.inb.mem|, pktBase, d.len)
             && Written(Issue(Prepare(bufBase, |w.inb.mem|, pktBase, d.pos, d.len), pktBase / MOD),
                        w.inb.mem, mem', bufBase, pktBase, Connections.Slice(bytes, d.offset, d.len))
    ensures mem' == Connections.Step(w, Connections.Data(from, bytes, pkt)).inb.mem
  {
    hide Segment, Connections.Ok, Connections.Slice, Placed, Transferable, Issue, Prepare, Written, CircularCopy, Put,
      Get, Receive.Arrive, Connections.StepOutbound, Connections.Allowed;
    NotPure(w, from, bytes, pkt);
    var d := Segment(w.flow, |bytes|, pkt).1.payload.value;
    ReceivedFits(w, from, bytes, pkt);
    var ts := Issue(Prepare(bufBase, |w.inb.mem|, pktBase, d.pos, d.len), pktBase / MOD);
    TransfersAreCircular(bufBase, |w.inb.mem|, pktBase, d.pos, d.len);
    WrittenIsPut(ts, w.inb.mem, mem', bufBase, pktBase, d.pos, Connections.Slice(bytes, d.offset, d.len));
  }

  lemma NotPure(w: Connections.World, from: nat, bytes: seq<byte>, pkt: Packet)
    requires Connections.Ok(w) && Connections.Allowed(w, Connections.Data(from, bytes, pkt))
    ensures 0 < |bytes| < PLEN_LIMIT && |w.inb.mem| > 0 && |w.out.mem| > 0
    ensures Handle(w.flow, RxWork(|bytes|, pkt)) == Segment(w.flow, |bytes|, pkt)
  {
    hide Wrap, Segment, Connections.Holds, Connections.WireOk;
  }

  /** Reading along transfers that copy circularly fetches the circular range. */
  lemma FetchedIsGet(ts: seq<Transfer>, mem: seq<byte>, data: seq<byte>, bufBase: nat, pktBase: nat, pos: nat)
    requires 0 < |mem| && CircularCopy(ts, bufBase, |mem|, pktBase, pos, |data|)
    requires forall i :: 0 <= i < |data| ==>
               var a := AddressOf(ts, pktBase, i) - bufBase; 0 <= a < |mem| ==> data[i] == mem[a]
    ensures data == Get(mem, pos, |data|)
  {
    hide AddressOf;
    forall i | 0 <= i < |data|
      ensures data[i] == Get(mem, pos, |data|)[i]
    {
      assert AddressOf(ts, pktBase, i) == bufBase + Place(|mem|, pos, i);
    }
  }

  /** A packet filled along the issued transfers carries the application's bytes for its
      sequence number. */
  lemma SentThroughDma(w: Connections.World, force: bool, bufBase: nat, pktBase: nat, data: seq<byte>)
    requires Connections.Ok(w) && Placed(bufBase, |w.out.mem|, pktBase)
    requires var r := Transmit(w.flow, force).1; r.payload.Some? && !r.fin && r.payload.value.len == |data| > 0
    requires Transferable(bufBase, |w.out.mem|, pktBase, |data|)
    requires var ts := Issue(Prepare(bufBase, |w.out.mem|, pktBase, w.flow.tx.nextPos, |data|), pktBase / MOD);
             forall i :: 0 <= i < |data| ==>
               var a := AddressOf(ts, pktBase, i) - bufBase; 0 <= a < |w.out.mem| ==> data[i] == w.out.mem[a]
    ensures var s := w.out.s.sent;
            && s + |data| <= |w.out.stream| && data == w.out.stream[s..s + |data|]
            && Transmit(w.flow, force).1.transmit.value.seqNo == Wrap(w.out.s.iss + s)
  {
    hide Connections.Holds, Connections.InboundOk, Connections.WireOk, Placed, Transferable, Issue, Prepare,
      CircularCopy, Get, Wrap, AddressOf;
    SentFits(w, force);
    var ts := Issue(Prepare(bufBase, |w.out.mem|, pktBase, w.flow.tx.nextPos, |data|), pktBase / MOD);
    TransfersAreCircular(bufBase, |w.out.mem|, pktBase, w.flow.tx.nextPos, |data|);
    FetchedIsGet(ts, w.out.mem, data, bufBase, pktBase, w.flow.tx.nextPos);
    Connections.ReadSent(w.out, w.out.s.sent, |data|);
  }
}
