/** Merging one packet into the buffer of an item, in tun/offload_linux.go. */
module GroCoalesce {
  import opened Words
  import opened Headers
  import opened GroPackets
  import opened GroItems

  datatype CoalesceResult = InsufficientCap | PSHEnding | ItemInvalidCSum | PktInvalidCSum | Success

  /** Two packets whose headers are where the item says. */
  ghost predicate Mergeable(info: Info, item: Item, target: Buf, mine: Buf) {
    && item.gsoSize > 0 && item.numMerged < 0xffff && info.thLen == item.thLen
    && (if item.key.tcp then item.thLen >= 20 else item.thLen == 8 && info.gsoSize <= item.gsoSize && !info.pshSet)
    && item.HeadersLen() < |target.pkt| && Shaped(target.pkt, item.key.tcp, item.key.isV6)
    && item.HeadersLen() < |mine.pkt| && Shaped(mine.pkt, item.key.tcp, item.key.isV6)
  }

  /** The total length must not exceed the capacity of the buffer that keeps the packet. */
  function CoalescedLen(item: Item, target: Buf, mine: Buf): int {
    |target.pkt| + |mine.pkt| - item.HeadersLen()
  }

  /** When a packet is merged, and why it is not. */
  ghost function CoalesceOutcome(mode: CanCoalesce, info: Info, item: Item, target: Buf, mine: Buf): CoalesceResult {
    if (if mode == Prepend then mine.room else target.room) < CoalescedLen(item, target, mine) then InsufficientCap
    else if mode == Prepend && info.pshSet then PSHEnding
    else if item.numMerged == 0 && ((!item.key.tcp && item.cSumKnownInvalid) || !RightSum(target.pkt, item.key)) then
      ItemInvalidCSum
    else if !RightSum(mine.pkt, item.key) then PktInvalidCSum
    else Success
  }

  /** The buffer of the item after a merge. */
  function MergedBuf(mode: CanCoalesce, info: Info, item: Item, target: Buf, mine: Buf): (r: Buf)
    requires Mergeable(info, item, target, mine)
    ensures |r.pkt| == CoalescedLen(item, target, mine)
  {
    (if mode == Prepend then mine else target).(pkt := MergedPacket(mode, info, item, target.pkt, mine.pkt))
  }

  /** The buffers after a merge.  That of the packet is not used any more. */
  function MergedBufs(mode: CanCoalesce, info: Info, item: Item, bufs: Bufs, pktI: nat): (r: Bufs)
    requires item.bufsIndex < pktI < |bufs| && Mergeable(info, item, bufs[item.bufsIndex], bufs[pktI])
    ensures |r| == |bufs|
  {
    var target, mine := bufs[item.bufsIndex], bufs[pktI];
    bufs[item.bufsIndex := MergedBuf(mode, info, item, target, mine)][pktI := if mode == Prepend then target else mine]
  }

  method CoalesceTCPPackets(e: Endian, mode: CanCoalesce, pktI: nat, info: Info, item: Item, bufs: array<Buf>)
    returns (result: CoalesceResult, updated: Item)
    requires item.bufsIndex < pktI < bufs.Length && item.key.tcp && mode != Unavailable
    requires Mergeable(info, item, bufs[item.bufsIndex], bufs[pktI])
    modifies bufs
    ensures result == CoalesceOutcome(mode, info, item, old(bufs[item.bufsIndex]), old(bufs[pktI]))
    ensures updated == if result == Success then Merged(mode, info, item) else item
    ensures bufs[..] == if result == Success then MergedBufs(mode, info, item, old(bufs[..]), pktI) else old(bufs[..])
  {
    updated := item;
    var pkt, target := bufs[pktI].pkt, bufs[item.bufsIndex].pkt;
    var headersLen := item.HeadersLen();
    var coalescedLen := CoalescedLen(item, bufs[item.bufsIndex], bufs[pktI]);
    var room := if mode == Prepend then bufs[pktI].room else bufs[item.bufsIndex].room;
    if room < coalescedLen {
      return InsufficientCap, item;
    }
    if mode == Prepend && info.pshSet {
      return PSHEnding, item;
    }
    if item.numMerged == 0 {
      var ok := ChecksumValid(e, target, item.IpLen(), IPPROTO_TCP, item.key.isV6);
      if !ok {
        return ItemInvalidCSum, item;
      }
    }
    var ok := ChecksumValid(e, pkt, item.IpLen(), IPPROTO_TCP, item.key.isV6);
    if !ok {
      return PktInvalidCSum, item;
    }
    if mode == Prepend {
      bufs[pktI] := bufs[pktI].(pkt := pkt + target[headersLen..]);
      bufs[item.bufsIndex], bufs[pktI] := bufs[pktI], bufs[item.bufsIndex];
    } else {
      var head := target;
      if info.pshSet {
        head := SetPsh(target, item.IpLen());
      }
      bufs[item.bufsIndex] := bufs[item.bufsIndex].(pkt := head + pkt[headersLen..]);
    }
    return Success, Merged(mode, info, item);
  }

  method CoalesceUDPPackets(e: Endian, pktI: nat, info: Info, item: Item, bufs: array<Buf>)
    returns (result: CoalesceResult, updated: Item)
    requires item.bufsIndex < pktI < bufs.Length && !item.key.tcp
    requires Mergeable(info, item, bufs[item.bufsIndex], bufs[pktI])
    modifies bufs
    ensures result == CoalesceOutcome(Append, info, item, old(bufs[item.bufsIndex]), old(bufs[pktI]))
    ensures updated == if result == Success then Merged(Append, info, item) else item
    ensures bufs[..] == if result == Success then MergedBufs(Append, info, item, old(bufs[..]), pktI) else old(bufs[..])
  {
    updated := item;
    var pkt, target := bufs[pktI].pkt, bufs[item.bufsIndex].pkt;
    var headersLen := item.HeadersLen();
    if bufs[item.bufsIndex].room < CoalescedLen(item, bufs[item.bufsIndex], bufs[pktI]) {
      return InsufficientCap, item;
    }
    if item.numMerged == 0 {
      if item.cSumKnownInvalid {
        return ItemInvalidCSum, item;
      }
      var ok := ChecksumValid(e, target, item.IpLen(), IPPROTO_UDP, item.key.isV6);
      if !ok {
        return ItemInvalidCSum, item;
      }
    }
    var ok := ChecksumValid(e, pkt, item.IpLen(), IPPROTO_UDP, item.key.isV6);
    if !ok {
      return PktInvalidCSum, item;
    }
    bufs[item.bufsIndex] := bufs[item.bufsIndex].(pkt := target + pkt[headersLen..]);
    return Success, item.(numMerged := item.numMerged + 1);
  }
}
