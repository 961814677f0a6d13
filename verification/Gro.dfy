/** handleGRO in tun/offload_linux.go: packets of one flow are merged in their buffers, so that fewer and larger ones
    are written. */
module Gro {
  import opened Words
  import opened Constants
  import opened Chunks
  import opened GroPackets
  import opened GroItems
  import opened GroTables
  import opened GroOrder
  import opened GroDone
  import opened GroRun
  import opened GroFlows
  import opened GroAccounting
  import opened GroSplits

  // ---------------------------------------------------------------------------------------------
  // One packet
  // ---------------------------------------------------------------------------------------------

  /** Everything that holds between two packets.  The runs so far are those of the reference. */
  ghost predicate Running(g: Batch, bufs: Bufs, tcp: Flows, udp: Flows, runs: seq<Run>, n: nat) {
    && |runs| == n + 1 && Referenced(g, runs) && runs[n] == Run(bufs, runs[n].parts, tcp, udp, runs[n].done)
    && Sound(g, bufs, tcp, udp, true, runs[n].parts, runs[n].done, n) && EachOnce(runs[n].parts, n)
    && UdpState(udp, g.orig, runs[n].parts, g.canUDPGRO, n)
  }

  ghost predicate Referenced(g: Batch, runs: seq<Run>) {
    forall k {:trigger ReferencedAt(g, runs, k)} :: 0 <= k < |runs| ==> ReferencedAt(g, runs, k)
  }

  ghost predicate ReferencedAt(g: Batch, runs: seq<Run>, k: nat)
    requires k < |runs|
  {
    k <= |g.start| && runs[k] == After(g.start, g.canUDPGRO, k)
  }

  ghost predicate UdpState(udp: Flows, orig: seq<Bytes>, parts: Parts, canUDPGRO: bool, n: nat) {
    if canUDPGRO then UdpInOrder(orig, parts, n) && NoEmptyList(udp) else udp == map[]
  }

  method OnePacket(e: Endian, bufs: array<Buf>, i: nat, tcpTable: GroTable, udpTable: GroTable, canUDPGRO: bool,
                   ghost g: Batch, ghost runs: seq<Run>, ghost toWrite: seq<nat>)
    returns (result: GroResult, ghost runs': seq<Run>)
    requires i < bufs.Length && i < IDEAL_BATCH_SIZE && tcpTable != udpTable && g.canUDPGRO == canUDPGRO
    requires Running(g, bufs[..], tcpTable.itemsByFlow, udpTable.itemsByFlow, runs, i)
    requires Pooled(tcpTable, i) && Pooled(udpTable, i) && Writes(toWrite, runs[i].parts, i)
    modifies bufs, tcpTable, udpTable
    ensures Running(g, bufs[..], tcpTable.itemsByFlow, udpTable.itemsByFlow, runs', i + 1)
    ensures Pooled(tcpTable, i + 1) && Pooled(udpTable, i + 1)
    ensures Writes(if result == Coalesced then toWrite else toWrite + [i], runs'[i + 1].parts, i + 1)
  {
    ghost var parts', d';
    result, parts', d' := Dispatch(e, bufs, i, tcpTable, udpTable, canUDPGRO, g, runs[i].parts, runs[i].done);
    PlacedOnce(runs[i].parts, parts', i, result);
    WritesMore(toWrite, runs[i].parts, parts', i, result);
    ghost var noted := Noted(bufs[..], i, result);
    if result == Noop {
      bufs[i] := bufs[i].(vnet := NoOffload);
    }
    assert bufs[..] == noted;
    runs' := runs + [Run(noted, parts', tcpTable.itemsByFlow, udpTable.itemsByFlow, d')];
    ReferencedMore(g, i, runs, runs');
  }

  lemma ReferencedMore(g: Batch, i: nat, runs: seq<Run>, runs': seq<Run>)
    requires i < |g.start| && |runs| == i + 1 && Referenced(g, runs) && |runs[i].bufs| == |runs[i].parts| == |g.start|
    requires |runs'| == i + 2 && runs' == runs + [runs'[i + 1]] && runs'[i + 1] == Next(runs[i], i, g.canUDPGRO)
    ensures Referenced(g, runs')
  {
    forall k: nat | k < |runs'|
      ensures ReferencedAt(g, runs', k)
    {
      if k <= i {
        assert ReferencedAt(g, runs, k);
      } else {
        assert ReferencedAt(g, runs, i);
      }
    }
  }

  /** The packet is handed to the GRO of its protocol. */
  method Dispatch(e: Endian, bufs: array<Buf>, i: nat, tcpTable: GroTable, udpTable: GroTable, canUDPGRO: bool,
                  ghost g: Batch, ghost parts: Parts, ghost d: Done)
    returns (result: GroResult, ghost parts': Parts, ghost d': Done)
    requires i < bufs.Length && i < IDEAL_BATCH_SIZE && tcpTable != udpTable && g.canUDPGRO == canUDPGRO
    requires Sound(g, bufs[..], tcpTable.itemsByFlow, udpTable.itemsByFlow, true, parts, d, i)
    requires UdpState(udpTable.itemsByFlow, g.orig, parts, canUDPGRO, i)
    requires Pooled(tcpTable, i) && Pooled(udpTable, i)
    modifies bufs, tcpTable, udpTable
    ensures Sound(g, Noted(bufs[..], i, result), tcpTable.itemsByFlow, udpTable.itemsByFlow, true, parts', d', i + 1)
    ensures UdpState(udpTable.itemsByFlow, g.orig, parts', canUDPGRO, i + 1)
    ensures Pooled(tcpTable, i + 1) && Pooled(udpTable, i + 1) && Placed(parts, parts', i, result)
    ensures Run(Noted(bufs[..], i, result), parts', tcpTable.itemsByFlow, udpTable.itemsByFlow, d')
         == Next(Run(old(bufs[..]), parts, old(tcpTable.itemsByFlow), old(udpTable.itemsByFlow), d), i, canUDPGRO)
  {
    ghost var s: Step;
    CandidateShaped(bufs[i].pkt, canUDPGRO);
    match PacketIsGROCandidate(bufs[i].pkt, canUDPGRO) {
      case TcpCandidate(isV6) =>
        result, s := TcpGRO(e, bufs, i, tcpTable, isV6, udpTable.itemsByFlow, g, parts, d);
        UdpUnmoved(udpTable.itemsByFlow, g.orig, parts, s.parts, canUDPGRO, i, result);
      case UdpCandidate(isV6) =>
        result, s := DispatchUDP(e, bufs, i, tcpTable.itemsByFlow, udpTable, isV6, g, parts, d);
      case NotCandidate =>
        result, s := Noop, LeaveStep(bufs[..], parts, tcpTable.itemsByFlow, i);
        NoneDropped(d);
        SoundNoted(g, bufs[..], s.bufs, s.table, udpTable.itemsByFlow, true, parts, s.parts, d, Advance(d, Noop, {}, i), i);
        UdpUnmoved(udpTable.itemsByFlow, g.orig, parts, s.parts, canUDPGRO, i, result);
    }
    parts', d' := s.parts, Advance(d, result, s.gone, i);
  }

  method DispatchUDP(e: Endian, bufs: array<Buf>, i: nat, ghost tcp: Flows, udpTable: GroTable, isV6: bool,
                     ghost g: Batch, ghost parts: Parts, ghost d: Done)
    returns (result: GroResult, ghost s: Step)
    requires i < bufs.Length && i < IDEAL_BATCH_SIZE && g.canUDPGRO
    requires Sound(g, bufs[..], tcp, udpTable.itemsByFlow, true, parts, d, i)
    requires UdpState(udpTable.itemsByFlow, g.orig, parts, true, i) && Pooled(udpTable, i)
    requires PacketIsGROCandidate(g.orig[i], true) == UdpCandidate(isV6) && Shaped(bufs[i].pkt, false, isV6)
    modifies bufs, udpTable
    ensures s == UdpPacketStep(old(bufs[..]), parts, old(udpTable.itemsByFlow), isV6, i)
    ensures s.result == result && s.bufs == Noted(bufs[..], i, result) && s.table == udpTable.itemsByFlow
    ensures Sound(g, s.bufs, tcp, s.table, true, s.parts, Advance(d, result, s.gone, i), i + 1)
    ensures UdpState(s.table, g.orig, s.parts, true, i + 1) && Pooled(udpTable, i + 1)
    ensures Placed(parts, s.parts, i, result)
  {
    SoundSymmetric(g, bufs[..], tcp, udpTable.itemsByFlow, true, parts, d, i);
    result, s := UdpGRO(e, bufs, i, udpTable, isV6, tcp, g, parts, d);
    SteppedUdp(s, result, g, bufs[..], udpTable.itemsByFlow, tcp, parts, d, i);
  }

  lemma SteppedUdp(s: Step, result: GroResult, g: Batch, bufs: Bufs, udp: Flows, tcp: Flows, parts: Parts, d: Done, i: nat)
    requires Stepped(s, result, g, bufs, udp, tcp, false, parts, d, i)
    ensures Sound(g, s.bufs, tcp, s.table, true, s.parts, Advance(d, result, s.gone, i), i + 1)
  {
    SoundSymmetric(g, s.bufs, s.table, tcp, false, s.parts, Advance(d, result, s.gone, i), i + 1);
  }

  /** A step for a packet that is not merged as UDP leaves the UDP flows as they are. */
  lemma UdpUnmoved(udp: Flows, orig: seq<Bytes>, parts: Parts, parts': Parts, canUDPGRO: bool, n: nat,
                   result: GroResult)
    requires n < |parts| == |orig| && (forall k :: n <= k < |parts| ==> parts[k] == [])
    requires UdpState(udp, orig, parts, canUDPGRO, n) && Placed(parts, parts', n, result)
    requires !PacketIsGROCandidate(orig[n], canUDPGRO).UdpCandidate?
    ensures UdpState(udp, orig, parts', canUDPGRO, n + 1)
  {
    if canUDPGRO {
      OrderStays(orig, parts, parts', n, result);
    }
  }

  // ---------------------------------------------------------------------------------------------
  // What a batch comes to
  // ---------------------------------------------------------------------------------------------

  /** A buffer that is written: it holds the one packet that came in it, or gives back the packets that were merged.
      A single packet is announced as needing no offload, unless it was dropped: then its virtio header is what it was
      at the start. */
  ghost predicate Faithful(b: nat, start: Buf, buf: Buf, orig: seq<Bytes>, part: seq<nat>, dropped: set<nat>)
    requires b < |orig|
  {
    if |part| == 1 then
      part == [b] && buf.pkt == orig[b] && buf.vnet == if b in dropped then start.vnet else NoOffload
    else exists key :: GivesBack(buf, orig, part, key)
  }

  /** Such a packet is unchanged and is announced as needing no offload. */
  ghost predicate Untouchable(b: nat, buf: Buf, orig: seq<Bytes>, part: seq<nat>)
    requires b < |orig|
  {
    part == [b] && buf.pkt == orig[b] && buf.vnet == NoOffload
  }

  /** A TCP packet with a wrong checksum that is alone in its buffer. */
  ghost predicate Forsaken(b: nat, orig: seq<Bytes>, parts: Parts) {
    b < |orig| && b < |parts| && parts[b] == [b] && WrongSum(orig[b])
  }

  /** What a whole batch comes to.  The listed buffers, in order, hold every packet exactly once and give each of
      them back; packets that are left alone are unchanged; and the UDP packets of a flow that are not left alone stay
      in order. */
  ghost predicate Conserved(start: Bufs, now: Bufs, parts: Parts, toWrite: seq<nat>, canUDPGRO: bool, dropped: set<nat>)
    requires |start| == |now| == |parts|
  {
    var orig := Packets(start);
    && Writes(toWrite, parts, |orig|) && EachOnce(parts, |orig|)
    && (forall b :: 0 <= b < |orig| && parts[b] != [] ==> Faithful(b, start[b], now[b], orig, parts[b], dropped))
    && (forall b :: 0 <= b < |orig| && LeftAlone(orig[b], canUDPGRO) ==> Untouchable(b, now[b], orig, parts[b]))
    && (forall b: nat {:trigger Forsaken(b, orig, parts)} :: b in dropped ==> Forsaken(b, orig, parts))
    && (canUDPGRO ==> UdpInOrder(orig, parts, |orig|))
  }

  /** The virtio header of a packet that offload is done with. */
  ghost predicate Announced(b: nat, start: Bufs, now: Bufs, d: Done) {
    d.Has(b) ==>
      && b < |start| && b < |now|
      && now[b].vnet == if b in d.dropped then start[b].vnet else NoOffload
  }

  /** The tables after the accounting. */
  ghost predicate Finished(g: Batch, now: Bufs, tcp: Flows, udp: Flows, parts: Parts, d: Done) {
    && Between(now, tcp, udp, true, g.orig, parts, g.canUDPGRO, |g.orig|) && Fitted(tcp, now) && Fitted(udp, now)
    && (g.canUDPGRO || udp == map[]) && |g.start| == |now| == |g.orig|
    && (forall b: nat {:trigger DoneAt(b, tcp, udp, g.orig, parts, d)} :: DoneAt(b, tcp, udp, g.orig, parts, d))
    && (forall b: nat {:trigger Announced(b, g.start, now, d)} :: Announced(b, g.start, now, d))
  }

  lemma ListedFaithful(now: Bufs, m: Flows, tcp: bool, orig: seq<Bytes>, parts: Parts, b: nat, start: Buf, d: Done)
    requires |now| == |orig| == |parts| && TableOk(m, tcp, now, orig, parts, |orig|) && Fitted(m, now)
    requires b < |orig| && Listed(m, b) && !d.Has(b)
    ensures parts[b] != [] && Faithful(b, start, now[b], orig, parts[b], d.dropped)
  {
    var key :| key in m && HasIndex(m[key], b);
    var x :| 0 <= x < |m[key]| && m[key][x].bufsIndex == b;
    InTable(m, tcp, now, orig, parts, |orig|, key, x);
    assert ListFitted(m[key], now);
    assert ItemFitted(m[key][x], now);
    if m[key][x].numMerged > 0 {
      MergedGivesBack(m[key][x], key, now[b], orig, parts[b]);
    }
  }

  lemma AllFaithful(g: Batch, now: Bufs, tcp: Flows, udp: Flows, parts: Parts, d: Done, b: nat)
    requires Finished(g, now, tcp, udp, parts, d) && b < |now| && parts[b] != []
    ensures Faithful(b, g.start[b], now[b], g.orig, parts[b], d.dropped)
  {
    assert DoneAt(b, tcp, udp, g.orig, parts, d);
    if Listed(tcp, b) {
      ListedFaithful(now, tcp, true, g.orig, parts, b, g.start[b], d);
    } else if Listed(udp, b) {
      ListedFaithful(now, udp, false, g.orig, parts, b, g.start[b], d);
    } else {
      assert Covered(b, now, tcp, udp, g.orig, parts, g.canUDPGRO);
      assert Announced(b, g.start, now, d);
    }
  }

  lemma {:induction false} InSome(parts: Parts, j: nat) returns (c: nat)
    requires Copies(parts, j) > 0
    ensures c < |parts| && j in parts[c]
  {
    var m := |parts| - 1;
    CopiesLast(parts, j);
    if j in parts[m] {
      c := m;
    } else {
      c := InSome(parts[..m], j);
    }
  }

  /** A packet that is left alone is in no item. */
  lemma LeftInNone(now: Bufs, m: Flows, tcp: bool, orig: seq<Bytes>, parts: Parts, canUDPGRO: bool, b: nat, c: nat)
    requires |now| == |orig| == |parts| && TableOk(m, tcp, now, orig, parts, |orig|) && (tcp || canUDPGRO || m == map[])
    requires b < |orig| && LeftAlone(orig[b], canUDPGRO) && c < |parts| && b in parts[c]
    ensures !Listed(m, c)
  {
    forall k | k in m
      ensures !HasIndex(m[k], c)
    {
      if HasIndex(m[k], c) {
        AllOfFlow(m, tcp, now, orig, parts, |orig|, k, c);
        var i :| 0 <= i < |parts[c]| && parts[c][i] == b;
        AdmittedNotLeft(orig[b], k, canUDPGRO);
      }
    }
  }

  /** It has its buffer to itself. */
  lemma LeftAtHome(g: Batch, now: Bufs, tcp: Flows, udp: Flows, parts: Parts, d: Done, b: nat, c: nat)
    requires Finished(g, now, tcp, udp, parts, d) && b < |now| && LeftAlone(g.orig[b], g.canUDPGRO)
    requires c < |parts| && b in parts[c]
    ensures c == b && parts[b] == [b] && now[b].pkt == g.orig[b] && now[b].vnet == NoOffload
  {
    LeftInNone(now, tcp, true, g.orig, parts, g.canUDPGRO, b, c);
    LeftInNone(now, udp, false, g.orig, parts, g.canUDPGRO, b, c);
    assert Covered(c, now, tcp, udp, g.orig, parts, g.canUDPGRO);
    LeftSumUnknown(g.orig[b], g.canUDPGRO);
  }

  lemma LeftUntouched(g: Batch, now: Bufs, tcp: Flows, udp: Flows, parts: Parts, d: Done, b: nat)
    requires Finished(g, now, tcp, udp, parts, d) && EachOnce(parts, |g.orig|)
    requires b < |now| && LeftAlone(g.orig[b], g.canUDPGRO)
    ensures Untouchable(b, now[b], g.orig, parts[b])
  {
    assert Copies(parts, b) == 1;
    var c := InSome(parts, b);
    LeftAtHome(g, now, tcp, udp, parts, d, b, c);
  }

  lemma LeftSumUnknown(pkt: Bytes, canUDPGRO: bool)
    requires LeftAlone(pkt, canUDPGRO)
    ensures !WrongSum(pkt)
  {
    forall key: FlowKey | key.tcp
      ensures !Admitted(pkt, key)
    {
    }
  }

  lemma BatchConserved(g: Batch, now: Bufs, tcp: Flows, udp: Flows, parts: Parts, d: Done, toWrite: seq<nat>)
    requires Finished(g, now, tcp, udp, parts, d) && g.orig == Packets(g.start)
    requires Writes(toWrite, parts, |now|) && EachOnce(parts, |now|)
    requires UdpState(udp, g.orig, parts, g.canUDPGRO, |now|)
    ensures Conserved(g.start, now, parts, toWrite, g.canUDPGRO, d.dropped)
  {
    forall b | 0 <= b < |now| && parts[b] != []
      ensures Faithful(b, g.start[b], now[b], g.orig, parts[b], d.dropped)
    {
      AllFaithful(g, now, tcp, udp, parts, d, b);
    }
    forall b | 0 <= b < |now| && LeftAlone(g.orig[b], g.canUDPGRO)
      ensures Untouchable(b, now[b], g.orig, parts[b])
    {
      LeftUntouched(g, now, tcp, udp, parts, d, b);
    }
    forall b: nat | b in d.dropped
      ensures Forsaken(b, g.orig, parts)
    {
      assert DoneAt(b, tcp, udp, g.orig, parts, d);
    }
  }

  // ---------------------------------------------------------------------------------------------
  // handleGRO
  // ---------------------------------------------------------------------------------------------

  /** `bufs` are the packets of one batch; an empty one is an error. */
  method HandleGRO(e: Endian, bufs: array<Buf>, tcpTable: GroTable, udpTable: GroTable, canUDPGRO: bool)
    returns (ok: bool, toWrite: seq<nat>)
    requires bufs.Length <= IDEAL_BATCH_SIZE && Rooms(bufs[..]) && tcpTable != udpTable
    requires tcpTable.itemsByFlow == map[] && tcpTable.itemsPool == IDEAL_BATCH_SIZE
    requires udpTable.itemsByFlow == map[] && udpTable.itemsPool == IDEAL_BATCH_SIZE
    modifies bufs, tcpTable, udpTable
    ensures ok <==> NoneEmpty(Packets(old(bufs[..])), bufs.Length)
    ensures ok ==>
      var r := After(old(bufs[..]), canUDPGRO, bufs.Length);
      && Conserved(old(bufs[..]), bufs[..], r.parts, toWrite, canUDPGRO, r.done.dropped)
      && Finished(Batch(old(bufs[..]), Packets(old(bufs[..])), canUDPGRO), bufs[..], r.tcp, r.udp, r.parts, r.done)
      && tcpTable.itemsByFlow == r.tcp && udpTable.itemsByFlow == r.udp
    ensures Pooled(tcpTable, bufs.Length) && Pooled(udpTable, bufs.Length)
  {
    ghost var g := Batch(bufs[..], Packets(bufs[..]), canUDPGRO);
    ghost var runs := [After(g.start, canUDPGRO, 0)];
    StartRunning(g, runs);
    var n;
    ok, toWrite, runs, n := EachPacket(e, bufs, tcpTable, udpTable, canUDPGRO, g, runs);
    if ok {
      assert ReferencedAt(g, runs, n);
      Finish(e, bufs, tcpTable.itemsByFlow, udpTable.itemsByFlow, g, runs[n].parts, runs[n].done);
      BatchConserved(g, bufs[..], tcpTable.itemsByFlow, udpTable.itemsByFlow, runs[n].parts, runs[n].done, toWrite);
    }
  }

  /** The loop over the packets, of which n are looked at. */
  method EachPacket(e: Endian, bufs: array<Buf>, tcpTable: GroTable, udpTable: GroTable, canUDPGRO: bool, ghost g: Batch,
                    ghost start: seq<Run>)
    returns (ok: bool, toWrite: seq<nat>, ghost runs: seq<Run>, n: nat)
    requires bufs.Length <= IDEAL_BATCH_SIZE && tcpTable != udpTable && g.canUDPGRO == canUDPGRO
    requires StageOf(g, bufs[..], tcpTable.itemsByFlow, tcpTable.itemsPool, udpTable.itemsByFlow, udpTable.itemsPool,
                     start, [], 0) == Going
    modifies bufs, tcpTable, udpTable
    ensures StageOf(g, bufs[..], tcpTable.itemsByFlow, tcpTable.itemsPool, udpTable.itemsByFlow, udpTable.itemsPool,
                    runs, toWrite, n) == if ok then Going else Stopped
    ensures n <= bufs.Length && (ok ==> n == bufs.Length)
  {
    ok, toWrite, runs, n := true, [], start, 0;
    ghost var stage := Going;
    while ok && n < bufs.Length
      invariant n <= bufs.Length && (ok <==> stage == Going) && stage != Wrong
      invariant StageOf(g, bufs[..], tcpTable.itemsByFlow, tcpTable.itemsPool, udpTable.itemsByFlow, udpTable.itemsPool,
                        runs, toWrite, n) == stage
    {
      ok, toWrite, runs := NextPacket(e, bufs, n, tcpTable, udpTable, canUDPGRO, g, runs, toWrite);
      stage := if ok then Going else Stopped;
      n := n + 1;
    }
  }

  /** Where the loop is: all is well so far, or there was an empty packet. */
  datatype Stage = Going | Stopped | Wrong

  ghost function StageOf(g: Batch, bufs: Bufs, tcp: Flows, tcpPool: nat, udp: Flows, udpPool: nat, runs: seq<Run>,
                         toWrite: seq<nat>, n: nat): Stage
  {
    if !(|g.orig| == |bufs| && PoolOf(tcp, tcpPool, n) && PoolOf(udp, udpPool, n)) then Wrong
    else if InBatch(g, bufs, tcp, udp, runs, toWrite, n) then Going
    else if NoneEmpty(g.orig, |g.orig|) then Wrong else Stopped
  }

  ghost predicate InBatch(g: Batch, bufs: Bufs, tcp: Flows, udp: Flows, runs: seq<Run>, toWrite: seq<nat>, n: nat) {
    Running(g, bufs, tcp, udp, runs, n) && Writes(toWrite, runs[n].parts, n) && NoneEmpty(g.orig, n)
  }

  method NextPacket(e: Endian, bufs: array<Buf>, i: nat, tcpTable: GroTable, udpTable: GroTable, canUDPGRO: bool,
                    ghost g: Batch, ghost runs: seq<Run>, toWrite: seq<nat>)
    returns (ok: bool, toWrite': seq<nat>, ghost runs': seq<Run>)
    requires i < bufs.Length && i < IDEAL_BATCH_SIZE && tcpTable != udpTable && g.canUDPGRO == canUDPGRO
    requires StageOf(g, bufs[..], tcpTable.itemsByFlow, tcpTable.itemsPool, udpTable.itemsByFlow, udpTable.itemsPool,
                     runs, toWrite, i) == Going
    modifies bufs, tcpTable, udpTable
    ensures StageOf(g, bufs[..], tcpTable.itemsByFlow, tcpTable.itemsPool, udpTable.itemsByFlow, udpTable.itemsPool,
                    runs', toWrite', i + 1) == if ok then Going else Stopped
  {
    assert bufs[i].pkt == g.orig[i];
    NextEmpty(g.orig, i);
    if |bufs[i].pkt| < 1 {
      return false, toWrite, runs;
    }
    ok := true;
    var result;
    result, runs' := OnePacket(e, bufs, i, tcpTable, udpTable, canUDPGRO, g, runs, toWrite);
    toWrite' := if result == Coalesced then toWrite else toWrite + [i];
  }

  ghost predicate NoneEmpty(orig: seq<Bytes>, n: nat)
    requires n <= |orig|
  {
    forall k :: 0 <= k < n ==> orig[k] != []
  }

  lemma NextEmpty(orig: seq<Bytes>, i: nat)
    requires i < |orig| && NoneEmpty(orig, i)
    ensures orig[i] == [] ==> !NoneEmpty(orig, |orig|)
    ensures orig[i] != [] ==> NoneEmpty(orig, i + 1)
  {
  }

  function Packets(bufs: Bufs): seq<Bytes> {
    seq(|bufs|, k requires 0 <= k < |bufs| => bufs[k].pkt)
  }

  lemma StartRunning(g: Batch, runs: seq<Run>)
    requires Rooms(g.start) && g.orig == Packets(g.start) && runs == [After(g.start, g.canUDPGRO, 0)]
    ensures InBatch(g, g.start, map[], map[], runs, [], 0)
  {
    StartSound(g, Nothing(|g.start|));
    StartOnce(g.orig, Nothing(|g.start|));
  }

  lemma StartSound(g: Batch, parts: Parts)
    requires Rooms(g.start) && g.orig == Packets(g.start) && parts == Nothing(|g.start|)
    ensures Sound(g, g.start, map[], map[], true, parts, Done({}, {}), 0)
  {
  }

  lemma StartOnce(orig: seq<Bytes>, parts: Parts)
    requires parts == Nothing(|orig|)
    ensures EachOnce(parts, 0) && UdpInOrder(orig, parts, 0)
  {
    NothingFlat(|orig|);
    assert forall j: nat :: Copies(parts, j) == 0;
  }

  /** The accounting of both tables. */
  method Finish(e: Endian, bufs: array<Buf>, tcp: Flows, udp: Flows, ghost g: Batch, ghost parts: Parts, ghost d: Done)
    requires bufs.Length == |g.orig| == |parts| && Sound(g, bufs[..], tcp, udp, true, parts, d, bufs.Length)
    requires g.canUDPGRO || udp == map[]
    modifies bufs
    ensures Finished(g, bufs[..], tcp, udp, parts, d)
  {
    ghost var was := bufs[..];
    ApplyCoalesceAccounting(e, bufs, tcp, true, g.orig, parts);
    ghost var between := bufs[..];
    AccountedBetween(was, between, tcp, udp, true, g.orig, parts, g.canUDPGRO);
    AccountedFits(tcp, was, between);
    ApplyCoalesceAccounting(e, bufs, udp, false, g.orig, parts);
    Symmetric(between, tcp, udp, true, g.orig, parts, g.canUDPGRO, bufs.Length);
    AccountedBetween(between, bufs[..], udp, tcp, false, g.orig, parts, g.canUDPGRO);
    Symmetric(bufs[..], udp, tcp, false, g.orig, parts, g.canUDPGRO, bufs.Length);
    AccountedFits(udp, between, bufs[..]);
    OtherFits(udp, tcp, false, between, bufs[..], g.orig, parts);
    AllAnnounced(g, was, between, bufs[..], tcp, udp, parts, d);
  }

  /** The accounting leaves the packets alone that are in no table. */
  lemma AllAnnounced(g: Batch, was: Bufs, between: Bufs, now: Bufs, tcp: Flows, udp: Flows, parts: Parts, d: Done)
    requires |was| == |between| == |now| && Tracked(g.start, was, tcp, udp, g.orig, parts, d, |was|)
    requires TableAccounted(tcp, was, between) && TableAccounted(udp, between, now)
    ensures forall b: nat {:trigger DoneAt(b, tcp, udp, g.orig, parts, d)} :: DoneAt(b, tcp, udp, g.orig, parts, d)
    ensures forall b: nat {:trigger Announced(b, g.start, now, d)} :: Announced(b, g.start, now, d)
  {
    forall b: nat
      ensures Announced(b, g.start, now, d)
    {
      assert DoneAt(b, tcp, udp, g.orig, parts, d);
      if d.Has(b) {
        assert HeaderAt(b, g.start, was, parts, d, |was|);
      }
    }
  }
}
