/** What receive offload in tun/offload_linux.go does not keep: the order of packets that it turns down, the virtio
    headers of items that it drops, and PSH. */
module GroLimits {
  import opened Chunks
  import opened GroPackets
  import opened GroItems
  import opened GroCoalesce
  import opened GroTables
  import opened GroOrder
  import opened GroDone
  import opened GroRun
  import opened GroFlows
  import opened Gro

  // ---------------------------------------------------------------------------------------------
  // The order of UDP packets
  // ---------------------------------------------------------------------------------------------

  /** The packets of a flow that the parser turns down, such as an empty datagram. */
  ghost function TurnedDown(orig: seq<Bytes>, key: FlowKey): set<nat> {
    FlowOf(orig, key) - AdmittedOf(orig, key)
  }

  lemma TurnedDownLeft(orig: seq<Bytes>, key: FlowKey, j: nat)
    requires !key.tcp && j in TurnedDown(orig, key)
    ensures j < |orig| && LeftAlone(orig[j], true)
  {
  }

  lemma {:induction false} PickedAll(s: seq<nat>, which: set<nat>)
    requires forall i :: 0 <= i < |s| ==> s[i] in which
    ensures Picked(s, which) == s
  {
    if s != [] {
      PickedAll(s[..|s| - 1], which);
      assert s == s[..|s| - 1] + [s[|s| - 1]];
    }
  }

  /** A UDP item has its first packet first, and the others in order behind it. */
  lemma ItemAtHome(g: Batch, now: Bufs, tcp: Flows, udp: Flows, parts: Parts, d: Done, b: nat, x: nat)
    requires Finished(g, now, tcp, udp, parts, d) && EachOnce(parts, |now|) && UdpInOrder(g.orig, parts, |now|)
    requires b < |now| && Listed(udp, b) && x in parts[b]
    ensures b <= x
  {
    var k :| k in udp && HasIndex(udp[k], b);
    AllOfFlow(udp, false, now, g.orig, parts, |now|, k, b);
    FirstAtHome(now, udp, g.orig, parts, k, b);
    OneFlowSorted(AdmittedOf(g.orig, k), parts, |now|, b);
    HeadLeast(parts[b], x);
  }

  lemma FirstAtHome(now: Bufs, udp: Flows, orig: seq<Bytes>, parts: Parts, k: FlowKey, b: nat)
    requires |now| == |orig| == |parts| && TableOk(udp, false, now, orig, parts, |now|) && k in udp && HasIndex(udp[k], b)
    ensures b < |parts| && parts[b] != [] && parts[b][0] == b
  {
    var y :| 0 <= y < |udp[k]| && udp[k][y].bufsIndex == b;
    InTable(udp, false, now, orig, parts, |now|, k, y);
  }

  lemma OneFlowSorted(which: set<nat>, parts: Parts, n: nat, b: nat)
    requires EachOnce(parts, n) && KeepsOrder(which, parts, n) && (forall x :: x in which ==> x < n) && b < |parts|
    requires forall i :: 0 <= i < |parts[b]| ==> parts[b][i] in which
    ensures Sorted(parts[b])
  {
    OrderIsSorted(which, parts, n);
    PickedAll(parts[b], which);
  }

  lemma HeadLeast(s: seq<nat>, x: nat)
    requires s != [] && Sorted(s) && x in s
    ensures s[0] <= x
  {
    var i :| 0 <= i < |s| && s[i] == x;
  }

  /** Packets of a UDP flow are not behind their own buffers, and those that are turned down are in their own. */
  lemma AtHome(g: Batch, now: Bufs, tcp: Flows, udp: Flows, parts: Parts, d: Done, key: FlowKey, b: nat, x: nat)
    requires Finished(g, now, tcp, udp, parts, d) && EachOnce(parts, |now|) && UdpInOrder(g.orig, parts, |now|)
    requires g.canUDPGRO && !key.tcp && b < |now|
    ensures HousedAt(parts, FlowOf(g.orig, key), TurnedDown(g.orig, key), b, x)
  {
    if x in parts[b] && x in FlowOf(g.orig, key) {
      if x in TurnedDown(g.orig, key) {
        TurnedDownLeft(g.orig, key, x);
        LeftAtHome(g, now, tcp, udp, parts, d, x, b);
      } else if Listed(udp, b) {
        ItemAtHome(g, now, tcp, udp, parts, d, b, x);
      } else {
        NotWithTcp(g, now, tcp, udp, parts, d, key, b, x);
        assert Covered(b, now, tcp, udp, g.orig, parts, g.canUDPGRO);
      }
    }
  }

  lemma NotWithTcp(g: Batch, now: Bufs, tcp: Flows, udp: Flows, parts: Parts, d: Done, key: FlowKey, b: nat, x: nat)
    requires Finished(g, now, tcp, udp, parts, d) && !key.tcp && b < |now| && x in parts[b]
    requires x < |now| && Admitted(g.orig[x], key)
    ensures !Listed(tcp, b)
  {
    forall k | k in tcp
      ensures !HasIndex(tcp[k], b)
    {
      KeyApart(g.orig[x], key, k);
      if HasIndex(tcp[k], b) {
        AllOfFlow(tcp, true, now, g.orig, parts, |now|, k, b);
        assert false;
      }
    }
  }

  /** All packets of a UDP flow keep their order exactly if none that is turned down is overtaken, that is: no later one
      is merged into an earlier buffer. */
  lemma FlowOrderExactly(g: Batch, now: Bufs, tcp: Flows, udp: Flows, parts: Parts, d: Done, key: FlowKey)
    requires Finished(g, now, tcp, udp, parts, d) && EachOnce(parts, |now|) && UdpInOrder(g.orig, parts, |now|)
    requires g.canUDPGRO && !key.tcp
    ensures KeepsOrder(FlowOf(g.orig, key), parts, |now|)
       <==> NoneOvertaken(parts, FlowOf(g.orig, key), TurnedDown(g.orig, key))
  {
    var which, late := FlowOf(g.orig, key), TurnedDown(g.orig, key);
    assert which - late == AdmittedOf(g.orig, key);
    forall j | j in late
      ensures AloneAt(parts, j)
    {
      TurnedDownLeft(g.orig, key, j);
      LeftUntouched(g, now, tcp, udp, parts, d, j);
    }
    forall b: nat, x: nat | b < |parts|
      ensures HousedAt(parts, which, late, b, x)
    {
      AtHome(g, now, tcp, udp, parts, d, key, b, x);
    }
    OrderExactly(which, late, parts, |now|);
  }

  /** If the parser turns down no packet of the flow, all of them stay in order. */
  lemma NoneTurnedDown(orig: seq<Bytes>, parts: Parts, n: nat, key: FlowKey)
    requires UdpInOrder(orig, parts, n) && !key.tcp
    requires forall j :: 0 <= j < |orig| && InFlow(orig[j], key) ==> Parse(orig[j], false, key.isV6).Some?
    ensures KeepsOrder(FlowOf(orig, key), parts, n)
  {
    assert FlowOf(orig, key) == AdmittedOf(orig, key);
  }

  // ---------------------------------------------------------------------------------------------
  // Dropped items
  // ---------------------------------------------------------------------------------------------

  /** A packet that is written alone, with a virtio header that was not written before, is announced as needing no
      offload exactly if it was not dropped. */
  lemma AnnouncedExactly(start: Bufs, now: Bufs, parts: Parts, toWrite: seq<nat>, canUDPGRO: bool, dropped: set<nat>,
                         b: nat)
    requires |start| == |now| == |parts| && Conserved(start, now, parts, toWrite, canUDPGRO, dropped)
    requires b in toWrite && |parts[b]| == 1
    ensures parts[b] == [b] && now[b].pkt == start[b].pkt
    ensures b !in dropped ==> now[b].vnet == NoOffload
    ensures b in dropped ==> now[b].vnet == start[b].vnet && WrongSum(start[b].pkt)
    ensures start[b].vnet != NoOffload ==> (now[b].vnet == NoOffload <==> b !in dropped)
  {
    var orig := Packets(start);
    assert Faithful(b, start[b], now[b], orig, parts[b], dropped);
    if b in dropped {
      assert Forsaken(b, orig, parts);
    }
  }

  /** Packet i may be joined to the item and would fit; the item is a single packet with a wrong checksum. */
  ghost predicate FindsWrong(t: Item, can: CanCoalesce, info: Info, bufs: Bufs, i: nat)
    requires t.bufsIndex < i < |bufs|
  {
    && can != Unavailable && !(can == Prepend && info.pshSet)
    && CoalescedLen(t, bufs[t.bufsIndex], bufs[i]) <= (if can == Prepend then bufs[i] else bufs[t.bufsIndex]).room
    && t.numMerged == 0 && !RightSum(bufs[t.bufsIndex].pkt, t.key)
  }

  /** Packet i finds item x wrong, and no item behind it has decided before. */
  ghost predicate DropsItem(items: seq<Item>, info: Info, bufs: Bufs, i: nat, x: nat) {
    && x < |items| && items[x].bufsIndex < i < |bufs|
    && FindsWrong(items[x], TcpCan(items[x], info, bufs, i), info, bufs, i)
    && forall y :: x < y < |items| ==> !Decides(TcpVerdict(items[y], info, bufs, i))
  }

  /** Packet i, coming after the run r, drops the item in buffer b. */
  ghost predicate DropsAt(r: Run, i: nat, b: nat) {
    && i < |r.bufs|
    && exists key: FlowKey :: key.tcp && Admitted(r.bufs[i].pkt, key) && key in r.tcp && DropsFrom(r, i, b, key)
  }

  ghost predicate DropsFrom(r: Run, i: nat, b: nat, key: FlowKey)
    requires i < |r.bufs| && Admitted(r.bufs[i].pkt, key) && key in r.tcp
  {
    exists x: nat :: x < |r.tcp[key]| && r.tcp[key][x].bufsIndex == b
      && DropsItem(r.tcp[key], InfoOf(r.bufs[i].pkt, key), r.bufs, i, x)
  }

  ghost predicate GoneAt(items: seq<Item>, verdicts: seq<CoalesceResult>, b: nat, x: nat)
    requires |items| == |verdicts|
  {
    && x < |items| && items[x].bufsIndex == b && verdicts[x] == ItemInvalidCSum
    && forall y :: x < y < |items| ==> !Decides(verdicts[y])
  }

  lemma {:induction false} GoneExactly(items: seq<Item>, verdicts: seq<CoalesceResult>, b: nat)
    requires |items| == |verdicts|
    ensures b in Gone(items, verdicts) <==> exists x: nat :: GoneAt(items, verdicts, b, x)
  {
    if items != [] {
      var m := |items| - 1;
      var items', verdicts' := items[..m], verdicts[..m];
      GoneExactly(items', verdicts', b);
      if !Decides(verdicts[m]) {
        if x: nat :| GoneAt(items', verdicts', b, x) {
          assert GoneAt(items, verdicts, b, x);
        }
        if x: nat :| GoneAt(items, verdicts, b, x) {
          assert x < m ==> GoneAt(items', verdicts', b, x);
        }
        if verdicts[m] == ItemInvalidCSum && items[m].bufsIndex == b {
          assert GoneAt(items, verdicts, b, m);
        }
      }
    }
  }

  lemma DropsExactly(items: seq<Item>, info: Info, bufs: Bufs, i: nat, b: nat, x: nat)
    requires i < |bufs| && x < |items|
    ensures GoneAt(items, TcpVerdicts(items, info, bufs, i), b, x)
       <==> items[x].bufsIndex == b && DropsItem(items, info, bufs, i, x)
  {
    var verdicts := TcpVerdicts(items, info, bufs, i);
    assert forall y :: 0 <= y < |items| ==> verdicts[y] == TcpVerdict(items[y], info, bufs, i);
  }

  lemma TcpDrops(r: Run, i: nat, b: nat, key: FlowKey)
    requires i < |r.bufs| == |r.parts| && key.tcp && Admitted(r.bufs[i].pkt, key)
    ensures b in TcpStep(r.bufs, r.parts, r.tcp, key, InfoOf(r.bufs[i].pkt, key), i).gone
       <==> key in r.tcp && DropsFrom(r, i, b, key)
  {
    var items, info := ItemsOf(r.tcp, key), InfoOf(r.bufs[i].pkt, key);
    GoneExactly(items, TcpVerdicts(items, info, r.bufs, i), b);
    forall x: nat | x < |items|
      ensures GoneAt(items, TcpVerdicts(items, info, r.bufs, i), b, x)
         <==> items[x].bufsIndex == b && DropsItem(items, info, r.bufs, i, x)
    {
      DropsExactly(items, info, r.bufs, i, b, x);
    }
  }

  lemma NextDrops(r: Run, i: nat, canUDPGRO: bool, b: nat)
    requires i < |r.bufs| == |r.parts|
    ensures b in Next(r, i, canUDPGRO).done.dropped <==> b in r.done.dropped || DropsAt(r, i, b)
  {
    var pkt := r.bufs[i].pkt;
    CandidateShaped(pkt, canUDPGRO);
    match PacketIsGROCandidate(pkt, canUDPGRO)
    case TcpCandidate(isV6) =>
      var key := NewFlowKey(pkt, true, isV6);
      if Parse(pkt, true, isV6).Some? {
        KeyAdmits(pkt, true, isV6, canUDPGRO);
        TcpDrops(r, i, b, key);
        forall k: FlowKey | k != key
          ensures !Admitted(pkt, k)
        {
          KeyApart(pkt, key, k);
        }
      } else {
        NoKey(pkt, isV6);
      }
    case _ =>
      NotTcp(pkt, canUDPGRO);
  }

  lemma NoKey(pkt: Bytes, isV6: bool)
    requires Shaped(pkt, true, isV6) && Parse(pkt, true, isV6).None?
    requires PacketIsGROCandidate(pkt, true) == TcpCandidate(isV6)
    ensures forall key: FlowKey :: key.tcp ==> !Admitted(pkt, key)
  {
  }

  lemma NotTcp(pkt: Bytes, canUDPGRO: bool)
    requires !PacketIsGROCandidate(pkt, canUDPGRO).TcpCandidate?
    ensures forall key: FlowKey :: key.tcp ==> !Admitted(pkt, key)
  {
    forall key: FlowKey | key.tcp
      ensures !Admitted(pkt, key)
    {
    }
  }

  /** Packet i of the batch drops the item in buffer b. */
  ghost predicate DropsIn(start: Bufs, canUDPGRO: bool, i: nat, b: nat) {
    i < |start| && DropsAt(After(start, canUDPGRO, i), i, b)
  }

  ghost predicate IsDropped(start: Bufs, canUDPGRO: bool, n: nat, b: nat) {
    n <= |start| && b in After(start, canUDPGRO, n).done.dropped
  }

  /** A packet loses its place in the table, and with it its virtio header, exactly if some later packet of its flow
      finds its checksum wrong. */
  lemma DroppedExactly(start: Bufs, canUDPGRO: bool, n: nat, b: nat)
    requires n <= |start|
    ensures IsDropped(start, canUDPGRO, n, b) <==> exists i: nat :: i < n && DropsIn(start, canUDPGRO, i, b)
  {
    if IsDropped(start, canUDPGRO, n, b) {
      var i := WhoDrops(start, canUDPGRO, n, b);
    } else {
      forall i: nat | i < n
        ensures !DropsIn(start, canUDPGRO, i, b)
      {
        NeverDropped(start, canUDPGRO, i, n, b);
      }
    }
  }

  lemma {:induction false} WhoDrops(start: Bufs, canUDPGRO: bool, n: nat, b: nat) returns (i: nat)
    requires IsDropped(start, canUDPGRO, n, b)
    ensures i < n && DropsIn(start, canUDPGRO, i, b)
  {
    if n == 0 {
      assert false;
    } else {
      i := n - 1;
      var drops := OneMoreDrops(start, canUDPGRO, i, n, b, IsDropped(start, canUDPGRO, i, b));
      if !drops {
        i := WhoDrops(start, canUDPGRO, i, b);
      }
    }
  }

  lemma {:induction false} NeverDropped(start: Bufs, canUDPGRO: bool, i: nat, n: nat, b: nat)
    requires i < n <= |start| && !IsDropped(start, canUDPGRO, n, b)
    ensures !DropsIn(start, canUDPGRO, i, b)
  {
    var m: nat := n - 1;
    var drops := OneMoreDrops(start, canUDPGRO, m, n, b, IsDropped(start, canUDPGRO, m, b));
    if i < m {
      NeverDropped(start, canUDPGRO, i, m, b);
    }
  }

  lemma OneMoreDrops(start: Bufs, canUDPGRO: bool, i: nat, n: nat, b: nat, before: bool) returns (drops: bool)
    requires n == i + 1 <= |start| && before == IsDropped(start, canUDPGRO, i, b)
    ensures drops == DropsIn(start, canUDPGRO, i, b)
    ensures IsDropped(start, canUDPGRO, n, b) == (before || drops)
  {
    drops := DropsIn(start, canUDPGRO, i, b);
    NextDrops(After(start, canUDPGRO, i), i, canUDPGRO, b);
  }
}
