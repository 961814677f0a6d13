/** applyTCPCoalesceAccounting and applyUDPCoalesceAccounting in tun/offload_linux.go: the headers of merged packets. */
module GroAccounting {
  import opened Words
  import opened Chunks
  import opened Checksum
  import opened Headers
  import opened GroPackets
  import opened Gso
  import opened GroItems
  import opened GroTables

  // ---------------------------------------------------------------------------------------------
  // One packet
  // ---------------------------------------------------------------------------------------------

  /** The virtio header of a merged packet: what it takes to cut it up again. */
  function OffloadOf(t: Item): VirtioNetHdr {
    var gsoType := if !t.key.tcp then VIRTIO_NET_HDR_GSO_UDP_L4
                   else if t.key.isV6 then VIRTIO_NET_HDR_GSO_TCPV6 else VIRTIO_NET_HDR_GSO_TCPV4;
    VirtioNetHdr(gsoType, t.HeadersLen() % 0x1_0000, t.gsoSize, t.IpLen(), if t.key.tcp then 16 else 6)
  }

  /** The headers of the item fit into the packet. */
  ghost predicate Sized(t: Item, pkt: Bytes) {
    t.IpLen() + (if t.key.tcp then 20 else 8) <= t.HeadersLen() <= |pkt| <= 0xffff
  }

  /** The lengths and the header checksum are those of the merged packet, and the transport checksum is that of
      the pseudo-header, for the device to complete. */
  ghost predicate HeadersFit(pkt: Bytes, t: Item)
    requires Sized(t, pkt)
  {
    var iphLen, isV6 := t.IpLen(), t.key.isV6;
    && (if isV6 then Get16(pkt, 4) == |pkt| - iphLen else Get16(pkt, 2) == |pkt| && SumsUp(pkt[..iphLen], 0))
    && (!t.key.tcp ==> Get16(pkt, iphLen + 4) == |pkt| - iphLen)
    && Get16(pkt, iphLen + (if t.key.tcp then 16 else 6))
       == Reference([], Pseudo(pkt, if t.key.tcp then IPPROTO_TCP else IPPROTO_UDP, isV6, |pkt| - iphLen))
  }

  /** The same packet but for lengths and checksums. */
  ghost predicate SamePacket(x: Bytes, y: Bytes, key: FlowKey) {
    |x| == |y| && forall k :: 0 <= k < |x| && !Volatile(key, k) ==> x[k] == y[k]
  }

  /** What the accounting does to the buffer of an item. */
  ghost predicate AccountedFor(t: Item, was: Buf, now: Buf) {
    && now.room == was.room
    && if t.numMerged == 0 then now.pkt == was.pkt && now.vnet == NoOffload
       else
         && Sized(t, was.pkt) && now.vnet == Partial(OffloadOf(t))
         && SamePacket(now.pkt, was.pkt, t.key) && HeadersFit(now.pkt, t)
  }

  method Account(e: Endian, t: Item, was: Buf) returns (now: Buf)
    requires Sized(t, was.pkt)
    ensures AccountedFor(t, was, now)
  {
    if t.numMerged == 0 {
      return was.(vnet := NoOffload);
    }
    var pkt := FitIpHeader(e, was.pkt, t.IpLen(), t.key.isV6);
    pkt := FitTransportHeader(e, pkt, t);
    return was.(vnet := Partial(OffloadOf(t)), pkt := pkt);
  }

  /** The new length, and for IPv4 the new header checksum. */
  method FitIpHeader(e: Endian, was: Bytes, iphLen: nat, isV6: bool) returns (pkt: Bytes)
    requires iphLen == IphLen(isV6) <= |was| <= 0xffff
    ensures |pkt| == |was|
    ensures forall k :: 0 <= k < |was| && !(if isV6 then 4 <= k < 6 else 2 <= k < 4 || 10 <= k < 12) ==> pkt[k] == was[k]
    ensures if isV6 then Get16(pkt, 4) == |pkt| - iphLen else Get16(pkt, 2) == |pkt| && SumsUp(pkt[..iphLen], 0)
  {
    if isV6 {
      return Put16(was, 4, |was| - iphLen);
    }
    var ip := Put16(was[..20], 10, 0);
    ip := FillIp4Length(e, ip, |was|);
    pkt := ip + was[20..];
    assert pkt[..20] == ip && pkt[2..4] == ip[2..4];
  }

  /** The UDP length, and the checksum of the pseudo-header. */
  method FitTransportHeader(e: Endian, was: Bytes, t: Item) returns (pkt: Bytes)
    requires Sized(t, was)
    requires if t.key.isV6 then Get16(was, 4) == |was| - t.IpLen()
             else Get16(was, 2) == |was| && SumsUp(was[..t.IpLen()], 0)
    ensures SamePacket(pkt, was, t.key) && HeadersFit(pkt, t)
  {
    var iphLen, isV6 := t.IpLen(), t.key.isV6;
    pkt := was;
    if !t.key.tcp {
      pkt := Put16(pkt, iphLen + 4, |pkt| - iphLen);
    }
    var proto: byte := if t.key.tcp then IPPROTO_TCP else IPPROTO_UDP;
    var at := iphLen + (if t.key.tcp then 16 else 6);
    var psum := PseudoSum(e, pkt, proto, isV6, |pkt| - iphLen);
    var sum := Sum(e, [], psum);
    ghost var before := pkt;
    pkt := Put16(pkt, at, sum);
    SameAddresses(pkt, before, proto, isV6, |pkt| - iphLen, iphLen);
    SameHead(pkt, was, iphLen);
    assert !t.key.tcp ==> pkt[iphLen + 4..iphLen + 6] == before[iphLen + 4..iphLen + 6];
  }

  lemma SameHead(x: Bytes, y: Bytes, iphLen: nat)
    requires 6 <= iphLen <= |x| == |y| && forall k :: 0 <= k < iphLen ==> x[k] == y[k]
    ensures x[..iphLen] == y[..iphLen] && Get16(x, 2) == Get16(y, 2) && Get16(x, 4) == Get16(y, 4)
  {
    assert x[2..4] == y[2..4] && x[4..6] == y[4..6];
  }

  /** The item stays right. */
  lemma AccountedOk(t: Item, key: FlowKey, was: Buf, now: Buf, orig: seq<Bytes>, part: seq<nat>)
    requires ItemOk(t, key, was, orig, part) && AccountedFor(t, was, now)
    ensures ItemOk(t, key, now, orig, part)
  {
    if t.numMerged > 0 {
      SameTail(now.pkt, was.pkt, t);
      AccountedHeader(t, was, now, orig, part);
    }
  }

  lemma SameTail(x: Bytes, y: Bytes, t: Item)
    requires Sized(t, y) && SamePacket(x, y, t.key)
    ensures x[t.HeadersLen()..] == y[t.HeadersLen()..]
  {
  }

  lemma AccountedHeader(t: Item, was: Buf, now: Buf, orig: seq<Bytes>, part: seq<nat>)
    requires Sized(t, was.pkt) && SamePacket(now.pkt, was.pkt, t.key) && ItemHeader(t, was, orig, part)
    ensures ItemHeader(t, now, orig, part)
  {
    if t.key.tcp {
      assert !Volatile(t.key, FlagsAt(t.key));
      forall k | 0 <= k < |part|
        ensures MemberFlags(orig, part, t, k)
      {
      }
    }
  }

  // ---------------------------------------------------------------------------------------------
  // The items of a table
  // ---------------------------------------------------------------------------------------------

  /** Every item of the table is accounted for, and no other buffer is touched. */
  ghost predicate TableAccounted(m: Flows, was: Bufs, now: Bufs)
    requires |was| == |now|
  {
    && (forall key {:trigger ListAccounted(m[key], was, now)} :: key in m ==> ListAccounted(m[key], was, now))
    && (forall b :: 0 <= b < |was| && !Listed(m, b) ==> now[b] == was[b])
  }

  ghost predicate ListAccounted(items: seq<Item>, was: Bufs, now: Bufs)
    requires |was| == |now|
  {
    forall x {:trigger ItemAccounted(items[x], was, now)} :: 0 <= x < |items| ==> ItemAccounted(items[x], was, now)
  }

  ghost predicate ItemAccounted(t: Item, was: Bufs, now: Bufs)
    requires |was| == |now|
  {
    t.bufsIndex < |was| && AccountedFor(t, was[t.bufsIndex], now[t.bufsIndex])
  }

  /** The flows are visited in any order. */
  method ApplyCoalesceAccounting(e: Endian, bufs: array<Buf>, m: Flows, ghost tcp: bool, ghost orig: seq<Bytes>,
                                 ghost parts: Parts)
    requires bufs.Length == |orig| == |parts| && TableOk(m, tcp, bufs[..], orig, parts, bufs.Length)
    modifies bufs
    ensures TableAccounted(m, old(bufs[..]), bufs[..])
  {
    ghost var was, n := bufs[..], bufs.Length;
    var todo := m.Keys;
    while todo != {}
      invariant todo <= m.Keys
      invariant forall key :: key in m && key !in todo ==> ListAccounted(m[key], was, bufs[..])
      invariant forall b :: 0 <= b < n ==> bufs[b] == was[b] || Visited(m, todo, b)
      decreases |todo|
    {
      var key :| key in todo;
      ghost var before := bufs[..];
      NotVisited(m, tcp, was, before, orig, parts, todo, key);
      AccountList(e, bufs, m[key], key, was, orig, parts);
      OthersAccounted(m, tcp, was, before, bufs[..], orig, parts, todo, key);
      todo := todo - {key};
    }
    forall b | 0 <= b < n && !Listed(m, b)
      ensures bufs[b] == was[b]
    {
    }
  }

  /** The buffer belongs to a flow that is done. */
  ghost predicate Visited(m: Flows, todo: set<FlowKey>, b: nat) {
    exists key :: key in m && key !in todo && HasIndex(m[key], b)
  }

  lemma NotVisited(m: Flows, tcp: bool, was: Bufs, now: Bufs, orig: seq<Bytes>, parts: Parts, todo: set<FlowKey>,
                   key: FlowKey)
    requires |was| == |now| == |orig| == |parts| && TableOk(m, tcp, was, orig, parts, |was|) && key in m && key in todo
    requires forall b :: 0 <= b < |was| ==> now[b] == was[b] || Visited(m, todo, b)
    ensures forall x :: 0 <= x < |m[key]| ==>
      m[key][x].bufsIndex < |was| && now[m[key][x].bufsIndex] == was[m[key][x].bufsIndex]
  {
    forall x | 0 <= x < |m[key]|
      ensures m[key][x].bufsIndex < |was| && now[m[key][x].bufsIndex] == was[m[key][x].bufsIndex]
    {
      InTable(m, tcp, was, orig, parts, |was|, key, x);
      forall k | k in m && k != key
        ensures !HasIndex(m[k], m[key][x].bufsIndex)
      {
        NotElsewhere(m, tcp, was, orig, parts, |was|, key, k, m[key][x].bufsIndex);
      }
    }
  }

  lemma OthersAccounted(m: Flows, tcp: bool, was: Bufs, before: Bufs, now: Bufs, orig: seq<Bytes>, parts: Parts,
                        todo: set<FlowKey>, key: FlowKey)
    requires |was| == |before| == |now| == |orig| == |parts| && TableOk(m, tcp, was, orig, parts, |was|)
    requires key in m && key in todo && ListAccounted(m[key], was, now)
    requires forall b :: 0 <= b < |was| && !HasIndex(m[key], b) ==> now[b] == before[b]
    requires forall k :: k in m && k !in todo ==> ListAccounted(m[k], was, before)
    requires forall b :: 0 <= b < |was| ==> before[b] == was[b] || Visited(m, todo, b)
    ensures forall k :: k in m && k !in todo - {key} ==> ListAccounted(m[k], was, now)
    ensures forall b :: 0 <= b < |was| ==> now[b] == was[b] || Visited(m, todo - {key}, b)
  {
    forall k | k in m && k !in todo
      ensures ListAccounted(m[k], was, now)
    {
      forall x | 0 <= x < |m[k]|
        ensures ItemAccounted(m[k][x], was, now)
      {
        assert ItemAccounted(m[k][x], was, before);
        InTable(m, tcp, was, orig, parts, |was|, k, x);
        NotElsewhere(m, tcp, was, orig, parts, |was|, k, key, m[k][x].bufsIndex);
      }
    }
    forall b | 0 <= b < |was|
      ensures now[b] == was[b] || Visited(m, todo - {key}, b)
    {
      if HasIndex(m[key], b) {
        assert key in m && key !in todo - {key};
      } else if Visited(m, todo, b) {
        var k :| k in m && k !in todo && HasIndex(m[k], b);
        assert k !in todo - {key};
      }
    }
  }

  method AccountList(e: Endian, bufs: array<Buf>, items: seq<Item>, key: FlowKey, ghost was: Bufs,
                     ghost orig: seq<Bytes>,
                     ghost parts: Parts)
    requires bufs.Length == |was| == |orig| == |parts| && ListOk(items, key, was, orig, parts, |was|)
    requires forall x :: 0 <= x < |items| ==> items[x].bufsIndex < |was| && bufs[items[x].bufsIndex] == was[items[x].bufsIndex]
    modifies bufs
    ensures ListAccounted(items, was, bufs[..])
    ensures forall b :: 0 <= b < bufs.Length && !HasIndex(items, b) ==> bufs[b] == old(bufs[b])
  {
    for x := 0 to |items|
      invariant ListAccounted(items[..x], was, bufs[..])
      invariant forall y :: x <= y < |items| ==> bufs[items[y].bufsIndex] == was[items[y].bufsIndex]
      invariant forall b :: 0 <= b < bufs.Length && b !in Indices(items[..x]) ==> bufs[b] == old(bufs[b])
    {
      ghost var before := bufs[..];
      assert PlacedOk(items[x], key, was, orig, parts, |was|);
      AccountOne(e, bufs, items[x], key, was, orig, parts);
      AccountedKept(items, x, was, before, bufs[..]);
      IndicesMore(items, x);
    }
    assert items[..|items|] == items;
  }

  lemma IndicesMore(items: seq<Item>, x: nat)
    requires x < |items|
    ensures Indices(items[..x + 1]) == Indices(items[..x]) + {items[x].bufsIndex}
  {
    assert items[..x + 1] == items[..x] + [items[x]];
  }

  ghost function Indices(items: seq<Item>): set<nat> {
    set t | t in items :: t.bufsIndex
  }

  lemma AccountedKept(items: seq<Item>, x: nat, was: Bufs, before: Bufs, now: Bufs)
    requires |was| == |before| == |now| && x < |items| && InOrder(items)
    requires ListAccounted(items[..x], was, before) && ItemAccounted(items[x], was, now)
    requires forall b :: 0 <= b < |was| && b != items[x].bufsIndex ==> now[b] == before[b]
    ensures ListAccounted(items[..x + 1], was, now)
  {
    var done := items[..x + 1];
    forall y | 0 <= y < |done|
      ensures ItemAccounted(done[y], was, now)
    {
      if y < x {
        assert ItemAccounted(items[..x][y], was, before);
      }
    }
  }

  method AccountOne(e: Endian, bufs: array<Buf>, t: Item, key: FlowKey, ghost was: Bufs, ghost orig: seq<Bytes>,
                    ghost parts: Parts)
    requires bufs.Length == |was| == |orig| == |parts| && PlacedOk(t, key, was, orig, parts, |was|)
    requires bufs[t.bufsIndex] == was[t.bufsIndex]
    modifies bufs
    ensures ItemAccounted(t, was, bufs[..])
    ensures forall b :: 0 <= b < bufs.Length && b != t.bufsIndex ==> bufs[b] == old(bufs[b])
  {
    ItemSizes(t, key, was[t.bufsIndex], orig, parts[t.bufsIndex]);
    bufs[t.bufsIndex] := Account(e, t, bufs[t.bufsIndex]);
  }

  // ---------------------------------------------------------------------------------------------
  // After the accounting
  // ---------------------------------------------------------------------------------------------

  lemma ListAfter(m: Flows, tcp: bool, was: Bufs, now: Bufs, orig: seq<Bytes>, parts: Parts, key: FlowKey)
    requires |was| == |now| == |orig| == |parts| && TableOk(m, tcp, was, orig, parts, |was|)
    requires key in m && ListAccounted(m[key], was, now)
    ensures ListOk(m[key], key, now, orig, parts, |was|)
  {
    assert ListOk(m[key], key, was, orig, parts, |was|);
    forall x | 0 <= x < |m[key]|
      ensures PlacedOk(m[key][x], key, now, orig, parts, |was|)
    {
      assert PlacedOk(m[key][x], key, was, orig, parts, |was|);
      assert ItemAccounted(m[key][x], was, now);
      var b := m[key][x].bufsIndex;
      AccountedOk(m[key][x], key, was[b], now[b], orig, parts[b]);
    }
  }

  lemma TableAfter(m: Flows, tcp: bool, was: Bufs, now: Bufs, orig: seq<Bytes>, parts: Parts)
    requires |was| == |now| == |orig| == |parts| && TableOk(m, tcp, was, orig, parts, |was|)
    requires TableAccounted(m, was, now)
    ensures TableOk(m, tcp, now, orig, parts, |was|)
  {
    forall key | key in m
      ensures ListOk(m[key], key, now, orig, parts, |was|)
    {
      ListAfter(m, tcp, was, now, orig, parts, key);
    }
  }

  /** The accounting of one table does not touch the items of the other. */
  lemma OtherStays(m: Flows, other: Flows, tcp: bool, was: Bufs, now: Bufs, orig: seq<Bytes>, parts: Parts,
                   key: FlowKey,
                   x: nat)
    requires |was| == |now| == |orig| == |parts| && TableOk(m, tcp, was, orig, parts, |was|)
    requires TableOk(other, !tcp, was, orig, parts, |was|) && TableAccounted(m, was, now)
    requires key in other && x < |other[key]|
    ensures other[key][x].bufsIndex < |was| && now[other[key][x].bufsIndex] == was[other[key][x].bufsIndex]
  {
    InTable(other, !tcp, was, orig, parts, |was|, key, x);
    NotInOther(m, !tcp, was, orig, parts, |was|, key, other[key][x].bufsIndex);
  }

  lemma OtherAfter(m: Flows, other: Flows, tcp: bool, was: Bufs, now: Bufs, orig: seq<Bytes>, parts: Parts)
    requires |was| == |now| == |orig| == |parts| && TableOk(m, tcp, was, orig, parts, |was|)
    requires TableOk(other, !tcp, was, orig, parts, |was|) && TableAccounted(m, was, now)
    ensures TableOk(other, !tcp, now, orig, parts, |was|)
  {
    forall key | key in other
      ensures ListOk(other[key], key, now, orig, parts, |was|)
    {
      assert ListOk(other[key], key, was, orig, parts, |was|);
      forall x | 0 <= x < |other[key]|
        ensures other[key][x].bufsIndex < |was| && now[other[key][x].bufsIndex] == was[other[key][x].bufsIndex]
      {
        OtherStays(m, other, tcp, was, now, orig, parts, key, x);
      }
      ListSame(other[key], key, was, now, orig, parts, parts, |was|, |was|);
    }
  }

  lemma RoomsAfter(m: Flows, was: Bufs, now: Bufs)
    requires |was| == |now| && TableAccounted(m, was, now) && Rooms(was)
    ensures Rooms(now)
  {
    forall b | 0 <= b < |now|
      ensures now[b].room == was[b].room
    {
      if Listed(m, b) {
        var key :| key in m && HasIndex(m[key], b);
        var x :| 0 <= x < |m[key]| && m[key][x].bufsIndex == b;
        assert ListAccounted(m[key], was, now);
        assert ItemAccounted(m[key][x], was, now);
      }
    }
  }

  /** The accounting keeps what the tables say about the buffers. */
  lemma AccountedBetween(was: Bufs, now: Bufs, m: Flows, other: Flows, tcp: bool, orig: seq<Bytes>, parts: Parts,
                         canUDPGRO: bool)
    requires Between(was, m, other, tcp, orig, parts, canUDPGRO, |was|) && |was| == |now| && TableAccounted(m, was, now)
    ensures Between(now, m, other, tcp, orig, parts, canUDPGRO, |was|)
  {
    TableAfter(m, tcp, was, now, orig, parts);
    OtherAfter(m, other, tcp, was, now, orig, parts);
    RoomsAfter(m, was, now);
    forall b | 0 <= b < |was|
      ensures Covered(b, now, m, other, orig, parts, canUDPGRO)
    {
      assert Covered(b, was, m, other, orig, parts, canUDPGRO);
    }
  }

  /** Every item is announced as it is: nothing to do for a single packet; for a merged one how to cut it, with
      lengths and checksums to match. */
  ghost predicate Fitted(m: Flows, now: Bufs) {
    forall key {:trigger ListFitted(m[key], now)} :: key in m ==> ListFitted(m[key], now)
  }

  ghost predicate ListFitted(items: seq<Item>, now: Bufs) {
    forall x {:trigger ItemFitted(items[x], now)} :: 0 <= x < |items| ==> ItemFitted(items[x], now)
  }

  ghost predicate ItemFitted(t: Item, now: Bufs) {
    t.bufsIndex < |now| && BufFitted(t, now[t.bufsIndex])
  }

  ghost predicate BufFitted(t: Item, buf: Buf) {
    if t.numMerged == 0 then buf.vnet == NoOffload
    else Sized(t, buf.pkt) && buf.vnet == Partial(OffloadOf(t)) && HeadersFit(buf.pkt, t)
  }

  lemma AccountedFits(m: Flows, was: Bufs, now: Bufs)
    requires |was| == |now| && TableAccounted(m, was, now)
    ensures Fitted(m, now)
  {
    forall key | key in m
      ensures ListFitted(m[key], now)
    {
      assert ListAccounted(m[key], was, now);
      forall x | 0 <= x < |m[key]|
        ensures ItemFitted(m[key][x], now)
      {
        assert ItemAccounted(m[key][x], was, now);
      }
    }
  }

  lemma OtherFits(m: Flows, other: Flows, tcp: bool, was: Bufs, now: Bufs, orig: seq<Bytes>, parts: Parts)
    requires |was| == |now| == |orig| == |parts| && TableOk(m, tcp, was, orig, parts, |was|)
    requires TableOk(other, !tcp, was, orig, parts, |was|) && TableAccounted(m, was, now) && Fitted(other, was)
    ensures Fitted(other, now)
  {
    forall key | key in other
      ensures ListFitted(other[key], now)
    {
      assert ListFitted(other[key], was);
      forall x | 0 <= x < |other[key]|
        ensures ItemFitted(other[key][x], now)
      {
        OtherStays(m, other, tcp, was, now, orig, parts, key, x);
        assert ItemFitted(other[key][x], was);
      }
    }
  }
}
