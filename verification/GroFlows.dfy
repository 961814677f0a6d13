/** tcpGRO and udpGRO in tun/offload_linux.go: one packet is merged into an item of its flow, or starts one. */
module GroFlows {
  import opened Words
  import opened Constants
  import opened Chunks
  import opened GroPackets
  import opened GroItems
  import opened GroCoalesce
  import opened GroTables
  import opened GroOrder
  import opened GroDone
  import opened GroRun

  // ---------------------------------------------------------------------------------------------
  // One item
  // ---------------------------------------------------------------------------------------------

  lemma MayMerge(t: Item, key: FlowKey, buf: Buf, mine: Buf, orig: seq<Bytes>, part: seq<nat>, info: Info)
    requires ItemOk(t, key, buf, orig, part) && Admitted(mine.pkt, key) && info == InfoOf(mine.pkt, key)
    requires info.thLen == t.thLen && (!key.tcp ==> info.gsoSize <= t.gsoSize)
    ensures Mergeable(info, t, buf, mine)
  {
    ItemSizes(t, key, buf, orig, part);
    AdmittedLengths(mine.pkt, key);
    TargetShaped(t, key, buf, orig, part);
  }

  /** Where an item is in its buffer. */
  lemma ItemAt(m: Flows, tcp: bool, bufs: Bufs, orig: seq<Bytes>, parts: Parts, n: nat, key: FlowKey, x: nat)
    requires n <= |bufs| == |orig| == |parts| && TableOk(m, tcp, bufs, orig, parts, n) && key in m && x < |m[key]|
    ensures var t := m[key][x];
      t.key == key && t.bufsIndex < n && t.gsoSize > 0 && t.HeadersLen() < |bufs[t.bufsIndex].pkt|
  {
    InTable(m, tcp, bufs, orig, parts, n, key, x);
  }

  lemma TargetShaped(t: Item, key: FlowKey, buf: Buf, orig: seq<Bytes>, part: seq<nat>)
    requires ItemOk(t, key, buf, orig, part) && (if key.tcp then 20 <= t.thLen <= 60 else t.thLen == 8)
    ensures Shaped(buf.pkt, key.tcp, key.isV6)
  {
    assert Member(orig, part[0], t, 0);
    assert buf.pkt[0] == orig[part[0]][0];
  }

  /** The merge is done in the buffers; now in the table. */
  method FinishMerge(ghost mode: CanCoalesce, item: Item, ghost info: Info, ghost before: Bufs, bufs: array<Buf>,
                     table: GroTable, ghost other: Flows, ghost g: Batch, ghost parts: Parts, ghost d: Done, pktI: nat,
                     key: FlowKey, x: nat, updated: Item) returns (ghost parts': Parts)
    requires Sound(g, before, table.itemsByFlow, other, key.tcp, parts, d, pktI) && pktI < |before| == bufs.Length
    requires key in table.itemsByFlow && x < |table.itemsByFlow[key]| && item == table.itemsByFlow[key][x]
    requires Admitted(g.orig[pktI], key) && info == InfoOf(g.orig[pktI], key)
    requires item.bufsIndex < pktI && Mergeable(info, item, before[item.bufsIndex], before[pktI])
    requires Fitting(mode, info, item, |before[item.bufsIndex].pkt|) && updated == Merged(mode, info, item)
    requires Agreeing(g.orig[pktI], before[item.bufsIndex].pkt, item)
    requires CoalesceOutcome(mode, info, item, before[item.bufsIndex], before[pktI]) == Success
    requires bufs[..] == MergedBufs(mode, info, item, before, pktI)
    modifies table
    ensures Sound(g, bufs[..], table.itemsByFlow, other, key.tcp, parts', d, pktI + 1)
    ensures table.itemsPool == old(table.itemsPool) && table.itemsByFlow.Keys == old(table.itemsByFlow.Keys)
    ensures table.itemsByFlow == old(table.itemsByFlow)[key := old(table.itemsByFlow)[key][x := updated]]
    ensures Placed(parts, parts', pktI, Coalesced) && item.bufsIndex < |parts|
    ensures parts' == parts[item.bufsIndex := MergedPart(mode, parts[item.bufsIndex], pktI)]
  {
    ghost var flows: Flows := table.itemsByFlow;
    parts' := parts[item.bufsIndex := MergedPart(mode, parts[item.bufsIndex], pktI)];
    MergeInto(mode, item, key, info, before, bufs[..], flows, g.orig, parts, parts', pktI, x);
    MergedElsewhere(mode, item, info, before, bufs[..], pktI);
    table.UpdateAt(updated, x);
    SoundMerged(g, before, bufs[..], flows, table.itemsByFlow, other, key.tcp, parts, parts', d, pktI, key, x, updated);
  }

  /** The merged item is right. */
  lemma MergeInto(mode: CanCoalesce, t: Item, key: FlowKey, info: Info, before: Bufs, now: Bufs, m: Flows,
                  orig: seq<Bytes>, parts: Parts, parts': Parts, n: nat, x: nat)
    requires n < |before| == |orig| == |parts| && TableOk(m, key.tcp, before, orig, parts, n) && Rooms(before)
    requires key in m && x < |m[key]| && t == m[key][x] && t.bufsIndex < n && before[n].pkt == orig[n]
    requires Admitted(orig[n], key) && info == InfoOf(orig[n], key)
    requires Mergeable(info, t, before[t.bufsIndex], before[n]) && Fitting(mode, info, t, |before[t.bufsIndex].pkt|)
    requires Agreeing(orig[n], before[t.bufsIndex].pkt, t)
    requires CoalesceOutcome(mode, info, t, before[t.bufsIndex], before[n]) == Success
    requires now == MergedBufs(mode, info, t, before, n)
    requires parts' == parts[t.bufsIndex := MergedPart(mode, parts[t.bufsIndex], n)]
    ensures PlacedOk(Merged(mode, info, t), key, now, orig, parts', n + 1) && Placed(parts, parts', n, Coalesced)
    ensures |parts'[t.bufsIndex]| >= 2
  {
    var b := t.bufsIndex;
    InTable(m, key.tcp, before, orig, parts, n, key, x);
    MergedItem(mode, t, key, info, before[b], before[n], orig, parts[b], n, now[b]);
    MergedBelow(mode, parts[b], n);
    assert PlacedAt(b, parts'[b], parts, parts', n);
  }

  lemma MergedElsewhere(mode: CanCoalesce, t: Item, info: Info, before: Bufs, now: Bufs, n: nat)
    requires t.bufsIndex < n < |before| && Rooms(before)
    requires Mergeable(info, t, before[t.bufsIndex], before[n]) && now == MergedBufs(mode, info, t, before, n)
    ensures now[n].room <= 0xffff && forall k :: 0 <= k < |before| && k != t.bufsIndex && k != n ==> now[k] == before[k]
  {
  }

  lemma MergedBelow(mode: CanCoalesce, part: seq<nat>, n: nat)
    requires AllBelow(part, n)
    ensures AllBelow(MergedPart(mode, part, n), n + 1)
  {
  }

  /** What a merge that succeeded says about the packets and the buffer. */
  lemma MergedFacts(mode: CanCoalesce, t: Item, key: FlowKey, info: Info, target: Buf, mine: Buf, orig: seq<Bytes>,
                    part: seq<nat>, n: nat, now: Buf)
    requires ItemOk(t, key, target, orig, part) && target.room <= 0xffff && mine.room <= 0xffff
    requires n < |orig| && mine.pkt == orig[n] && Admitted(orig[n], key) && info == InfoOf(orig[n], key)
    requires Mergeable(info, t, target, mine) && Fitting(mode, info, t, |target.pkt|)
    requires CoalesceOutcome(mode, info, t, target, mine) == Success && now == MergedBuf(mode, info, t, target, mine)
    ensures t.numMerged < 0xffff && (key.tcp ==> t.thLen >= 20) && t.HeadersLen() <= |orig[n]|
    ensures now.pkt == MergedPacket(mode, info, t, target.pkt, orig[n]) && |now.pkt| <= now.room <= 0xffff
    ensures RightSums(orig, part, key) && SumAt(orig, n, key) && Member(orig, part[0], t, 0)
  {
    ItemSizes(t, key, target, orig, part);
    assert Member(orig, part[0], t, 0);
    if t.numMerged == 0 {
      assert SumAt(orig, part[0], key);
    }
  }

  /** Merging keeps the item right. */
  lemma MergedItem(mode: CanCoalesce, t: Item, key: FlowKey, info: Info, target: Buf, mine: Buf, orig: seq<Bytes>,
                   part: seq<nat>, n: nat, now: Buf)
    requires ItemOk(t, key, target, orig, part) && AllBelow(part, n) && target.room <= 0xffff && mine.room <= 0xffff
    requires n < |orig| && mine.pkt == orig[n] && Admitted(orig[n], key) && info == InfoOf(orig[n], key)
    requires Mergeable(info, t, target, mine) && Fitting(mode, info, t, |target.pkt|)
    requires Agreeing(orig[n], target.pkt, t)
    requires CoalesceOutcome(mode, info, t, target, mine) == Success && now == MergedBuf(mode, info, t, target, mine)
    ensures ItemOk(Merged(mode, info, t), key, now, orig, MergedPart(mode, part, n))
  {
    MergedWhole(mode, t, key, info, target, mine, orig, part, n, now);
    MergedRight(mode, t, key, info, target, mine, orig, part, n, now);
  }

  lemma MergedWhole(mode: CanCoalesce, t: Item, key: FlowKey, info: Info, target: Buf, mine: Buf, orig: seq<Bytes>,
                    part: seq<nat>, n: nat, now: Buf)
    requires ItemOk(t, key, target, orig, part) && AllBelow(part, n) && target.room <= 0xffff && mine.room <= 0xffff
    requires n < |orig| && mine.pkt == orig[n] && Admitted(orig[n], key) && info == InfoOf(orig[n], key)
    requires Mergeable(info, t, target, mine) && Fitting(mode, info, t, |target.pkt|)
    requires CoalesceOutcome(mode, info, t, target, mine) == Success && now == MergedBuf(mode, info, t, target, mine)
    ensures ItemShape(Merged(mode, info, t), key, now, orig)
    ensures ItemContents(Merged(mode, info, t), now, orig, MergedPart(mode, part, n))
    ensures ItemHeader(Merged(mode, info, t), now, orig, MergedPart(mode, part, n))
  {
    MergedFacts(mode, t, key, info, target, mine, orig, part, n, now);
    MergedParts(mode, t, key, info, target, orig, part, n, now);
  }

  lemma MergedRight(mode: CanCoalesce, t: Item, key: FlowKey, info: Info, target: Buf, mine: Buf, orig: seq<Bytes>,
                    part: seq<nat>, n: nat, now: Buf)
    requires ItemOk(t, key, target, orig, part) && target.room <= 0xffff && mine.room <= 0xffff
    requires n < |orig| && mine.pkt == orig[n] && Admitted(orig[n], key) && info == InfoOf(orig[n], key)
    requires Mergeable(info, t, target, mine) && Fitting(mode, info, t, |target.pkt|)
    requires Agreeing(orig[n], target.pkt, t)
    requires CoalesceOutcome(mode, info, t, target, mine) == Success && now == MergedBuf(mode, info, t, target, mine)
    ensures RightSums(orig, MergedPart(mode, part, n), key)
    ensures AllAlike(orig, MergedPart(mode, part, n), key, t.HeadersLen())
  {
    MergedFacts(mode, t, key, info, target, mine, orig, part, n, now);
    MergedSums(mode, orig, part, key, n);
    MergedAlike(mode, t, target, orig, part, n);
  }

  lemma MergedParts(mode: CanCoalesce, t: Item, key: FlowKey, info: Info, target: Buf, orig: seq<Bytes>, part: seq<nat>,
                    n: nat, now: Buf)
    requires ItemShape(t, key, target, orig) && ItemContents(t, target, orig, part) && ItemHeader(t, target, orig, part)
    requires AllBelow(part, n) && n < |orig| && Admitted(orig[n], key) && info == InfoOf(orig[n], key)
    requires t.numMerged < 0xffff && (key.tcp ==> t.thLen >= 20) && t.HeadersLen() <= |orig[n]|
    requires Fitting(mode, info, t, |target.pkt|)
    requires now.pkt == MergedPacket(mode, info, t, target.pkt, orig[n]) && |now.pkt| <= now.room <= 0xffff
    ensures ItemShape(Merged(mode, info, t), key, now, orig)
    ensures ItemContents(Merged(mode, info, t), now, orig, MergedPart(mode, part, n))
    ensures ItemHeader(Merged(mode, info, t), now, orig, MergedPart(mode, part, n))
  {
    MergedShape(mode, t, key, info, target, orig, n, now);
    MergedMember(mode, t, key, info, target, orig, part, n);
    MergedInside(mode, t, Merged(mode, info, t), info, target, orig, part, MergedPart(mode, part, n), n, now);
  }

  // ---------------------------------------------------------------------------------------------
  // TCP
  // ---------------------------------------------------------------------------------------------

  lemma TcpReady(m: Flows, bufs: Bufs, orig: seq<Bytes>, parts: Parts, n: nat, key: FlowKey, x: nat, info: Info)
    requires n < |bufs| == |orig| == |parts| && TableOk(m, true, bufs, orig, parts, n) && bufs[n].pkt == orig[n]
    requires key.tcp && key in m && x < |m[key]| && Admitted(orig[n], key) && info == InfoOf(orig[n], key)
    requires var t := m[key][x];
      && t.bufsIndex < n && t.gsoSize > 0 && t.HeadersLen() <= |bufs[t.bufsIndex].pkt|
      && t.IpLen() + info.thLen <= |orig[n]|
      && TcpPacketsCanCoalesce(orig[n], info, t, bufs[t.bufsIndex].pkt) != Unavailable
    ensures var t := m[key][x];
      && Fitting(TcpPacketsCanCoalesce(orig[n], info, t, bufs[t.bufsIndex].pkt), info, t, |bufs[t.bufsIndex].pkt|)
      && Mergeable(info, t, bufs[t.bufsIndex], bufs[n]) && Agreeing(orig[n], bufs[t.bufsIndex].pkt, t)
  {
    var t := m[key][x];
    InTable(m, true, bufs, orig, parts, n, key, x);
    TcpFitting(orig[n], info, t, bufs[t.bufsIndex].pkt);
    TcpAgreeing(orig[n], info, t, bufs[t.bufsIndex].pkt);
    MayMerge(t, key, bufs[t.bufsIndex], bufs[n], orig, parts[t.bufsIndex], info);
  }

  /** Tries to merge the packet into item x of its flow. */
  method TryTCP(e: Endian, bufs: array<Buf>, pktI: nat, table: GroTable, key: FlowKey, info: Info, x: nat,
                ghost other: Flows, ghost g: Batch, ghost parts: Parts, ghost d: Done, ghost before: Bufs,
                ghost m: Flows, ghost t: Item)
    returns (result: CoalesceResult, ghost parts': Parts, ghost d': Done)
    requires pktI < bufs.Length && key.tcp && before == bufs[..] && m == table.itemsByFlow
    requires Sound(g, before, m, other, true, parts, d, pktI) && key in m && x < |m[key]| && t == m[key][x]
    requires Admitted(g.orig[pktI], key) && info == InfoOf(g.orig[pktI], key)
    modifies bufs, table
    ensures table.itemsPool == old(table.itemsPool) && table.itemsByFlow.Keys == m.Keys
    ensures result == TcpVerdict(t, info, before, pktI)
    ensures result == Success ==>
      && Sound(g, bufs[..], table.itemsByFlow, other, true, parts', d, pktI + 1)
      && Placed(parts, parts', pktI, Coalesced)
      && TcpMerged(t, info, key, x, before, parts, m, pktI, bufs[..], parts', table.itemsByFlow)
    ensures result != Success ==>
      && bufs[..] == before && Sound(g, before, table.itemsByFlow, other, true, parts, d', pktI)
      && table.itemsByFlow == if result == ItemInvalidCSum then m[key := Removed(m[key], x)] else m
    ensures d' == if result == ItemInvalidCSum then d.(dropped := d.dropped + {t.bufsIndex}) else d
    ensures result == PktInvalidCSum ==> WrongSum(g.orig[pktI])
  {
    parts', d' := parts, d;
    var item := table.itemsByFlow[key][x];
    ItemAt(m, true, before, g.orig, parts, pktI, key, x);
    AdmittedLengths(g.orig[pktI], key);
    var can := TcpPacketsCanCoalesce(bufs[pktI].pkt, info, item, bufs[item.bufsIndex].pkt);
    if can == Unavailable {
      return InsufficientCap, parts, d;
    }
    TcpReady(m, before, g.orig, parts, pktI, key, x, info);
    var updated;
    result, updated := CoalesceTCPPackets(e, can, pktI, info, item, bufs);
    if result == Success {
      parts' := FinishMerge(can, item, info, before, bufs, table, other, g, parts, d, pktI, key, x, updated);
    } else if result == ItemInvalidCSum {
      d' := DropInvalid(bufs, table, other, g, parts, d, pktI, key, x);
    }
  }

  /** What a merge into item t has done. */
  ghost predicate TcpMerged(t: Item, info: Info, key: FlowKey, x: nat, bufs: Bufs, parts: Parts, m: Flows, i: nat,
                            bufs': Bufs, parts': Parts, m': Flows) {
    && i < |bufs| == |parts| && key in m && x < |m[key]| && t == m[key][x] && t.bufsIndex < i
    && Mergeable(info, t, bufs[t.bufsIndex], bufs[i])
    && Step(Coalesced, bufs', parts', m', {})
       == MergeStep(TcpCan(t, info, bufs, i), info, key, x, bufs, parts, m, i, {})
  }

  /** Deletes an item with a wrong checksum from the table. */
  method DropInvalid(bufs: array<Buf>, table: GroTable, ghost other: Flows, ghost g: Batch, ghost parts: Parts,
                     ghost d: Done, pktI: nat, key: FlowKey, x: nat) returns (ghost d': Done)
    requires Sound(g, bufs[..], table.itemsByFlow, other, true, parts, d, pktI)
    requires key in table.itemsByFlow && x < |table.itemsByFlow[key]| && table.itemsByFlow[key][x].numMerged == 0
    requires table.itemsByFlow[key][x].bufsIndex < bufs.Length
    requires !RightSum(bufs[table.itemsByFlow[key][x].bufsIndex].pkt, key)
    modifies table
    ensures Sound(g, bufs[..], table.itemsByFlow, other, true, parts, d', pktI)
    ensures table.itemsPool == old(table.itemsPool) && table.itemsByFlow.Keys == old(table.itemsByFlow.Keys)
    ensures table.itemsByFlow == old(table.itemsByFlow)[key := Removed(old(table.itemsByFlow[key]), x)]
    ensures d' == d.(dropped := d.dropped + {old(table.itemsByFlow[key])[x].bufsIndex})
  {
    ghost var flows: Flows := table.itemsByFlow;
    d' := d.(dropped := d.dropped + {flows[key][x].bufsIndex});
    table.DeleteAt(key, x);
    SoundDropped(g, bufs[..], flows, table.itemsByFlow, other, parts, d, d', pktI, key, x);
  }

  /** Stores the packet as an item of its own. */
  method InsertPacket(bufs: array<Buf>, pktI: nat, table: GroTable, key: FlowKey, info: Info, cSumKnownInvalid: bool,
                      ghost other: Flows, ghost g: Batch, ghost parts: Parts, ghost d: Done)
    requires pktI < bufs.Length && Sound(g, bufs[..], table.itemsByFlow, other, key.tcp, parts, d, pktI)
    requires Admitted(g.orig[pktI], key) && info == InfoOf(g.orig[pktI], key)
    requires cSumKnownInvalid ==> !RightSum(g.orig[pktI], key)
    requires Pooled(table, pktI) && pktI < IDEAL_BATCH_SIZE
    modifies table
    ensures Sound(g, bufs[..], table.itemsByFlow, other, key.tcp, parts[pktI := [pktI]], d, pktI + 1)
    ensures table.itemsByFlow == Inserted(old(table.itemsByFlow), NewItem(key, pktI, info, cSumKnownInvalid))
    ensures Pooled(table, pktI + 1)
  {
    ghost var flows: Flows := table.itemsByFlow;
    var item := NewItem(key, pktI, info, cSumKnownInvalid);
    NewItemOk(key, pktI, bufs[pktI], g.orig, cSumKnownInvalid);
    table.Insert(item);
    InsertedSize(flows, item);
    SoundStarted(g, bufs[..], flows, table.itemsByFlow, other, key.tcp, parts, parts[pktI := [pktI]], d, pktI, item);
  }

  /** The lists in use and the spare ones. */
  predicate Pooled(table: GroTable, n: nat)
    reads table
  {
    PoolOf(table.itemsByFlow, table.itemsPool, n)
  }

  predicate PoolOf(m: Flows, pool: nat, n: nat) {
    |m.Keys| + pool == IDEAL_BATCH_SIZE && |m.Keys| <= n
  }

  lemma InsertedSize(m: Flows, t: Item)
    ensures |Inserted(m, t).Keys| == |m.Keys| + (if t.key in m then 0 else 1)
  {
    assert Inserted(m, t).Keys == m.Keys + {t.key};
  }

  /** The buffers once the caller has announced a packet that is not taken any further. */
  function Noted(bufs: Bufs, i: nat, result: GroResult): Bufs
    requires i < |bufs|
  {
    if result == Noop then Marked(bufs, i) else bufs
  }

  /** The step is done, and what holds between packets holds again. */
  ghost predicate Stepped(s: Step, result: GroResult, g: Batch, bufs: Bufs, m: Flows, other: Flows, tcp: bool, parts: Parts,
                          d: Done, i: nat) {
    && i < |bufs| && i < |parts| && s.result == result && s.bufs == Noted(bufs, i, result) && s.table == m
    && Sound(g, s.bufs, m, other, tcp, s.parts, Advance(d, result, s.gone, i), i + 1)
    && Placed(parts, s.parts, i, result)
  }

  method TcpGRO(e: Endian, bufs: array<Buf>, pktI: nat, table: GroTable, isV6: bool, ghost other: Flows, ghost g: Batch,
                ghost parts: Parts, ghost d: Done) returns (result: GroResult, ghost s: Step)
    requires pktI < bufs.Length && Sound(g, bufs[..], table.itemsByFlow, other, true, parts, d, pktI)
    requires PacketIsGROCandidate(g.orig[pktI], g.canUDPGRO) == TcpCandidate(isV6)
    requires Shaped(bufs[pktI].pkt, true, isV6) && Pooled(table, pktI) && pktI < IDEAL_BATCH_SIZE
    modifies bufs, table
    ensures s == TcpPacketStep(old(bufs[..]), parts, old(table.itemsByFlow), isV6, pktI)
    ensures Stepped(s, result, g, bufs[..], table.itemsByFlow, other, true, parts, d, pktI)
    ensures Pooled(table, pktI + 1)
  {
    var pkt := bufs[pktI].pkt;
    var parsed := Parse(pkt, true, isV6);
    if parsed.None? {
      s := LeaveStep(bufs[..], parts, table.itemsByFlow, pktI);
      SoundNoted(g, bufs[..], s.bufs, table.itemsByFlow, other, true, parts, s.parts, d, Advance(d, Noop, {}, pktI), pktI);
      return Noop, s;
    }
    KeyAdmits(pkt, true, isV6, g.canUDPGRO);
    result, s := TcpPacket(e, bufs, pktI, table, NewFlowKey(pkt, true, isV6), parsed.value, other, g, parts, d);
  }

  lemma KeyAdmits(pkt: Bytes, tcp: bool, isV6: bool, canUDPGRO: bool)
    requires PacketIsGROCandidate(pkt, canUDPGRO) == if tcp then TcpCandidate(isV6) else UdpCandidate(isV6)
    requires Shaped(pkt, tcp, isV6) && Parse(pkt, tcp, isV6).Some?
    ensures Admitted(pkt, NewFlowKey(pkt, tcp, isV6))
  {
  }

  /** What is done with a packet that the parser admits. */
  method TcpPacket(e: Endian, bufs: array<Buf>, pktI: nat, table: GroTable, key: FlowKey, info: Info, ghost other: Flows,
                   ghost g: Batch, ghost parts: Parts, ghost d: Done) returns (result: GroResult, ghost s: Step)
    requires pktI < bufs.Length && key.tcp && Sound(g, bufs[..], table.itemsByFlow, other, true, parts, d, pktI)
    requires Admitted(g.orig[pktI], key) && info == InfoOf(g.orig[pktI], key)
    requires Pooled(table, pktI) && pktI < IDEAL_BATCH_SIZE
    modifies bufs, table
    ensures s == TcpStep(old(bufs[..]), parts, old(table.itemsByFlow), key, info, pktI)
    ensures Stepped(s, result, g, bufs[..], table.itemsByFlow, other, true, parts, d, pktI)
    ensures Pooled(table, pktI + 1)
  {
    ghost var flows: Flows, gone := table.itemsByFlow, {};
    NoneDropped(d);
    if key in table.itemsByFlow {
      result, s, gone := TryFlow(e, bufs, pktI, table, key, info, other, g, parts, d);
      if result != TableInsert {
        return;
      }
    }
    ghost var left: Flows, before: Bufs := table.itemsByFlow, bufs[..];
    InsertPacket(bufs, pktI, table, key, info, false, other, g, parts, d.(dropped := d.dropped + gone));
    result, s := TableInsert, Step(TableInsert, before, parts[pktI := [pktI]], table.itemsByFlow, gone);
    TcpStarted(before, parts, flows, key, info, pktI, left, gone, s);
  }

  /** No item has taken the packet: it starts one. */
  lemma TcpStarted(bufs: Bufs, parts: Parts, m: Flows, key: FlowKey, info: Info, i: nat, left: Flows, gone: set<nat>,
                   s: Step)
    requires i < |bufs| == |parts| && Passed(m, key, TcpVerdicts(ItemsOf(m, key), info, bufs, i), left, gone)
    requires s == Step(TableInsert, bufs, parts[i := [i]], Inserted(left, NewItem(key, i, info, false)), gone)
    ensures s == TcpStep(bufs, parts, m, key, info, i)
  {
  }

  /** Items i, i + 1, ... of the flow have been tried in vain. */
  ghost predicate Trying(flows: Flows, m: Flows, key: FlowKey, verdicts: seq<CoalesceResult>, i: nat, kept: seq<Item>,
                         gone: set<nat>) {
    && key in flows && key in m && m == flows[key := m[key]]
    && Sweeping(m[key], flows[key], verdicts, i, kept, gone)
  }

  /** Tries the items of the flow, the last one first.  TableInsert means that none of them takes the packet. */
  method TryFlow(e: Endian, bufs: array<Buf>, pktI: nat, table: GroTable, key: FlowKey, info: Info, ghost other: Flows,
                 ghost g: Batch, ghost parts: Parts, ghost d: Done)
    returns (result: GroResult, ghost s: Step, ghost gone: set<nat>)
    requires pktI < bufs.Length && key.tcp && Sound(g, bufs[..], table.itemsByFlow, other, true, parts, d, pktI)
    requires key in table.itemsByFlow && Admitted(g.orig[pktI], key) && info == InfoOf(g.orig[pktI], key)
    modifies bufs, table
    ensures table.itemsPool == old(table.itemsPool) && table.itemsByFlow.Keys == old(table.itemsByFlow.Keys)
    ensures result != TableInsert ==>
      && s == TcpStep(old(bufs[..]), parts, old(table.itemsByFlow), key, info, pktI)
      && Stepped(s, result, g, bufs[..], table.itemsByFlow, other, true, parts, d, pktI)
    ensures result == TableInsert ==>
      && bufs[..] == old(bufs[..])
      && Passed(old(table.itemsByFlow), key, TcpVerdicts(old(table.itemsByFlow[key]), info, old(bufs[..]), pktI),
                table.itemsByFlow, gone)
      && Sound(g, bufs[..], table.itemsByFlow, other, true, parts, d.(dropped := d.dropped + gone), pktI)
  {
    ghost var flows, before: Bufs := table.itemsByFlow, bufs[..];
    ghost var verdicts, kept := TcpVerdicts(flows[key], info, before, pktI), [];
    gone := {};
    SweepStart(flows[key], verdicts);
    NoneDropped(d);
    var i: nat := |table.itemsByFlow[key]|;
    while i > 0
      invariant bufs[..] == before && table.itemsPool == old(table.itemsPool)
      invariant Trying(flows, table.itemsByFlow, key, verdicts, i, kept, gone)
      invariant Sound(g, before, table.itemsByFlow, other, true, parts, d.(dropped := d.dropped + gone), pktI)
    {
      result, s, kept, gone := TryItem(e, bufs, pktI, table, key, info, i, other, g, parts, d, before, flows,
                                         table.itemsByFlow, verdicts, kept, gone);
      if result != TableInsert {
        return;
      }
      i := i - 1;
    }
    SweepEnd(table.itemsByFlow[key], flows[key], verdicts, kept, gone);
    result := TableInsert;
    s := LeaveStep(before, parts, flows, pktI);
  }

  lemma NoneDropped(d: Done)
    ensures d.(dropped := d.dropped + {}) == d
  {
    assert d.dropped + {} == d.dropped;
  }

  /** One turn: item i - 1. */
  method TryItem(e: Endian, bufs: array<Buf>, pktI: nat, table: GroTable, key: FlowKey, info: Info, i: nat,
                 ghost other: Flows, ghost g: Batch, ghost parts: Parts, ghost d: Done, ghost before: Bufs,
                 ghost flows: Flows, ghost m: Flows, ghost verdicts: seq<CoalesceResult>, ghost kept: seq<Item>,
                 ghost gone: set<nat>)
    returns (result: GroResult, ghost s: Step, ghost kept': seq<Item>, ghost gone': set<nat>)
    requires 0 < i && pktI < bufs.Length && key.tcp && before == bufs[..] && m == table.itemsByFlow
    requires Trying(flows, m, key, verdicts, i, kept, gone) && verdicts == TcpVerdicts(flows[key], info, before, pktI)
    requires Sound(g, before, m, other, true, parts, d.(dropped := d.dropped + gone), pktI)
    requires Admitted(g.orig[pktI], key) && info == InfoOf(g.orig[pktI], key)
    modifies bufs, table
    ensures table.itemsPool == old(table.itemsPool) && table.itemsByFlow.Keys == m.Keys
    ensures result != TableInsert ==>
      && s == TcpStep(before, parts, flows, key, info, pktI)
      && Stepped(s, result, g, bufs[..], table.itemsByFlow, other, true, parts, d, pktI)
    ensures result == TableInsert ==>
      && bufs[..] == before && Trying(flows, table.itemsByFlow, key, verdicts, i - 1, kept', gone')
      && Sound(g, before, table.itemsByFlow, other, true, parts, d.(dropped := d.dropped + gone'), pktI)
  {
    ghost var parts', d';
    SweepBounds(m[key], flows[key], verdicts, i, kept, gone);
    ghost var item := m[key][i - 1];
    var tried;
    tried, parts', d' := TryTCP(e, bufs, pktI, table, key, info, i - 1, other, g, parts,
                                d.(dropped := d.dropped + gone), before, m, item);
    result := Ends(tried);
    s, kept', gone' := Turn(g, before, flows, m, other, parts, d, pktI, key, info, verdicts, i, item, tried, kept, gone,
                            bufs[..], parts', table.itemsByFlow, d');
  }

  /** What trying one item decides; TableInsert stands for nothing. */
  function Ends(tried: CoalesceResult): GroResult {
    match tried
    case Success => Coalesced
    case PktInvalidCSum => Noop
    case _ => TableInsert
  }

  /** What comes of the turn. */
  lemma Turn(g: Batch, bufs: Bufs, flows: Flows, m: Flows, other: Flows, parts: Parts, d: Done, n: nat, key: FlowKey,
             info: Info, verdicts: seq<CoalesceResult>, i: nat, t: Item, tried: CoalesceResult, kept: seq<Item>,
             gone: set<nat>, bufs': Bufs, parts': Parts, m': Flows, d': Done)
    returns (s: Step, kept': seq<Item>, gone': set<nat>)
    requires 0 < i && n < |bufs| == |bufs'| == |parts| == |g.orig| && Trying(flows, m, key, verdicts, i, kept, gone)
    requires verdicts == TcpVerdicts(flows[key], info, bufs, n) && i <= |m[key]|
    requires Sound(g, bufs, m, other, true, parts, d.(dropped := d.dropped + gone), n)
    requires t == m[key][i - 1] && tried == TcpVerdict(t, info, bufs, n)
    requires tried == Success ==>
      && Sound(g, bufs', m', other, true, parts', d.(dropped := d.dropped + gone), n + 1)
      && Placed(parts, parts', n, Coalesced) && TcpMerged(t, info, key, i - 1, bufs, parts, m, n, bufs', parts', m')
    requires tried != Success ==>
      && bufs' == bufs && Sound(g, bufs, m', other, true, parts, d', n)
      && m' == if tried == ItemInvalidCSum then m[key := Removed(m[key], i - 1)] else m
    requires d' == if tried == ItemInvalidCSum
                   then d.(dropped := d.dropped + gone).(dropped := d.dropped + gone + {t.bufsIndex})
                   else d.(dropped := d.dropped + gone)
    requires tried == PktInvalidCSum ==> WrongSum(g.orig[n])
    ensures Ends(tried) != TableInsert ==>
      s == TcpStep(bufs, parts, flows, key, info, n) && Stepped(s, Ends(tried), g, bufs', m', other, true, parts, d, n)
    ensures Ends(tried) == TableInsert ==>
      && bufs' == bufs && Trying(flows, m', key, verdicts, i - 1, kept', gone')
      && Sound(g, bufs, m', other, true, parts, d.(dropped := d.dropped + gone'), n)
  {
    s, kept', gone' := TurnStep(bufs, flows, m, parts, n, key, info, verdicts, i, t, tried, kept, gone, bufs', parts', m');
    if tried == PktInvalidCSum {
      RefusedStepped(g, bufs, m, other, parts, d, n, gone, s);
    } else if tried != Success {
      assert d.(dropped := d.dropped + gone') == d';
    }
  }

  lemma TurnStep(bufs: Bufs, flows: Flows, m: Flows, parts: Parts, n: nat, key: FlowKey, info: Info,
                 verdicts: seq<CoalesceResult>, i: nat, t: Item, tried: CoalesceResult, kept: seq<Item>, gone: set<nat>,
                 bufs': Bufs, parts': Parts, m': Flows) returns (s: Step, kept': seq<Item>, gone': set<nat>)
    requires 0 < i && n < |bufs| == |bufs'| == |parts| && Trying(flows, m, key, verdicts, i, kept, gone)
    requires verdicts == TcpVerdicts(flows[key], info, bufs, n) && i <= |m[key]|
    requires t == m[key][i - 1] && tried == TcpVerdict(t, info, bufs, n)
    requires tried == Success ==> TcpMerged(t, info, key, i - 1, bufs, parts, m, n, bufs', parts', m')
    requires tried != Success ==> m' == if tried == ItemInvalidCSum then m[key := Removed(m[key], i - 1)] else m
    ensures tried == Success ==> s == Step(Coalesced, bufs', parts', m', gone)
    ensures tried == PktInvalidCSum ==> s == Step(Noop, Marked(bufs, n), parts[n := [n]], m, gone)
    ensures Ends(tried) != TableInsert ==> s == TcpStep(bufs, parts, flows, key, info, n)
    ensures Ends(tried) == TableInsert ==> Trying(flows, m', key, verdicts, i - 1, kept', gone')
    ensures gone' == if tried == ItemInvalidCSum then gone + {t.bufsIndex} else gone
  {
    SweepBounds(m[key], flows[key], verdicts, i, kept, gone);
    VerdictAt(flows[key], info, bufs, n, verdicts, i - 1, t, tried);
    gone' := if tried == ItemInvalidCSum then gone + {t.bufsIndex} else gone;
    kept' := if tried == ItemInvalidCSum then kept else [t] + kept;
    s := LeaveStep(bufs, parts, m, n);
    if tried == Success {
      s := Step(Coalesced, bufs', parts', m', gone);
      ItemTakes(bufs, parts, flows, m, n, key, info, verdicts, i, t, kept, gone, bufs', parts', m');
    } else if tried == PktInvalidCSum {
      s := s.(gone := gone);
      ItemRefuses(bufs, parts, flows, m, n, key, info, verdicts, i, kept, gone, s);
    } else {
      ItemPasses(flows, m, m', key, verdicts, i, t, tried, kept, kept', gone, gone');
    }
  }

  lemma SweepBounds(items: seq<Item>, was: seq<Item>, verdicts: seq<CoalesceResult>, i: nat, kept: seq<Item>,
                    gone: set<nat>)
    requires 0 < i && Sweeping(items, was, verdicts, i, kept, gone)
    ensures i <= |was| == |verdicts| && i <= |items| && items[i - 1] == was[i - 1]
  {
  }

  lemma VerdictAt(items: seq<Item>, info: Info, bufs: Bufs, n: nat, verdicts: seq<CoalesceResult>, x: nat, t: Item,
                  tried: CoalesceResult)
    requires x < |items| && verdicts == TcpVerdicts(items, info, bufs, n) && t == items[x]
    requires tried == TcpVerdict(t, info, bufs, n)
    ensures x < |verdicts| && verdicts[x] == tried
  {
  }

  lemma ItemTakes(bufs: Bufs, parts: Parts, flows: Flows, m: Flows, n: nat, key: FlowKey, info: Info,
                  verdicts: seq<CoalesceResult>, i: nat, t: Item, kept: seq<Item>, gone: set<nat>, bufs': Bufs,
                  parts': Parts, m': Flows)
    requires 0 < i && n < |bufs| == |parts| && Trying(flows, m, key, verdicts, i, kept, gone)
    requires verdicts == TcpVerdicts(flows[key], info, bufs, n) && verdicts[i - 1] == Success
    requires i <= |m[key]| && t == m[key][i - 1]
    requires TcpMerged(t, info, key, i - 1, bufs, parts, m, n, bufs', parts', m')
    ensures Step(Coalesced, bufs', parts', m', gone) == TcpStep(bufs, parts, flows, key, info, n)
  {
    SweepStop(m[key], flows[key], verdicts, i, kept, gone);
    TakenStep(bufs, parts, flows, key, info, n, verdicts, m, i - 1, Step(Coalesced, bufs', parts', m', gone));
  }

  lemma ItemRefuses(bufs: Bufs, parts: Parts, flows: Flows, m: Flows, n: nat, key: FlowKey, info: Info,
                    verdicts: seq<CoalesceResult>, i: nat, kept: seq<Item>, gone: set<nat>, s: Step)
    requires 0 < i && n < |bufs| == |parts| && Trying(flows, m, key, verdicts, i, kept, gone)
    requires verdicts == TcpVerdicts(flows[key], info, bufs, n) && verdicts[i - 1] == PktInvalidCSum
    requires s == Step(Noop, Marked(bufs, n), parts[n := [n]], m, gone)
    ensures s == TcpStep(bufs, parts, flows, key, info, n)
  {
    SweepStop(m[key], flows[key], verdicts, i, kept, gone);
    RefusedStep(bufs, parts, flows, key, info, n, verdicts, m, s);
  }

  lemma RefusedStepped(g: Batch, bufs: Bufs, m: Flows, other: Flows, parts: Parts, d: Done, n: nat, gone: set<nat>,
                       s: Step)
    requires n < |bufs| == |parts| == |g.orig| && WrongSum(g.orig[n])
    requires Sound(g, bufs, m, other, true, parts, d.(dropped := d.dropped + gone), n)
    requires s == Step(Noop, Marked(bufs, n), parts[n := [n]], m, gone)
    ensures Stepped(s, Noop, g, bufs, m, other, true, parts, d, n)
  {
    var d', d'' := d.(dropped := d.dropped + gone), Advance(d, Noop, gone, n);
    SoundNoted(g, bufs, s.bufs, m, other, true, parts, s.parts, d', d'', n);
  }

  lemma ItemPasses(flows: Flows, m: Flows, m': Flows, key: FlowKey, verdicts: seq<CoalesceResult>, i: nat, t: Item,
                   tried: CoalesceResult, kept: seq<Item>, kept': seq<Item>, gone: set<nat>, gone': set<nat>)
    requires 0 < i && Trying(flows, m, key, verdicts, i, kept, gone) && i <= |m[key]| && t == m[key][i - 1]
    requires tried == verdicts[i - 1] && tried != Success && tried != PktInvalidCSum
    requires m' == if tried == ItemInvalidCSum then m[key := Removed(m[key], i - 1)] else m
    requires kept' == if tried == ItemInvalidCSum then kept else [t] + kept
    requires gone' == if tried == ItemInvalidCSum then gone + {t.bufsIndex} else gone
    ensures Trying(flows, m', key, verdicts, i - 1, kept', gone')
  {
    SweepStep(m[key], flows[key], verdicts, i, kept, gone);
    assert m' == flows[key := m'[key]];
  }

  lemma RefusedStep(bufs: Bufs, parts: Parts, m: Flows, key: FlowKey, info: Info, i: nat, verdicts: seq<CoalesceResult>,
                    left: Flows, s: Step)
    requires i < |bufs| == |parts| && key in m && verdicts == TcpVerdicts(m[key], info, bufs, i)
    requires Decided(verdicts) == Noop && left == Sweep(m, key, verdicts)
    requires s == Step(Noop, Marked(bufs, i), parts[i := [i]], left, Gone(m[key], verdicts))
    ensures s == TcpStep(bufs, parts, m, key, info, i)
  {
  }

  /** The item that takes the packet is the one that the verdicts say. */
  lemma TakenStep(bufs: Bufs, parts: Parts, m: Flows, key: FlowKey, info: Info, i: nat, verdicts: seq<CoalesceResult>,
                  left: Flows, x: nat, s: Step)
    requires i < |bufs| == |parts| && key in m && verdicts == TcpVerdicts(m[key], info, bufs, i)
    requires Decided(verdicts) == Coalesced && Taker(verdicts) == x && left == Sweep(m, key, verdicts)
    requires x < |left[key]| && left[key][x] == m[key][x] && s.gone == Gone(m[key], verdicts) && s.result == Coalesced
    requires TcpMerged(left[key][x], info, key, x, bufs, parts, left, i, s.bufs, s.parts, s.table)
    ensures s == TcpStep(bufs, parts, m, key, info, i)
  {
  }

  /** No item has taken the packet. */
  ghost predicate Passed(m: Flows, key: FlowKey, verdicts: seq<CoalesceResult>, m': Flows, gone: set<nat>) {
    && |verdicts| == |ItemsOf(m, key)| && Decided(verdicts) == TableInsert
    && m' == Sweep(m, key, verdicts) && gone == Gone(ItemsOf(m, key), verdicts)
  }

  // ---------------------------------------------------------------------------------------------
  // UDP
  // ---------------------------------------------------------------------------------------------

  ghost predicate NoEmptyList(m: Flows) {
    forall key :: key in m ==> m[key] != []
  }

  lemma StillNotEmpty(m: Flows, m': Flows, key: FlowKey, items: seq<Item>)
    requires NoEmptyList(m) && items != [] && m' == m[key := items]
    ensures NoEmptyList(m')
  {
  }

  lemma AllOfFlow(m: Flows, tcp: bool, bufs: Bufs, orig: seq<Bytes>, parts: Parts, n: nat, k: FlowKey, c: nat)
    requires n <= |bufs| == |orig| == |parts| && TableOk(m, tcp, bufs, orig, parts, n)
    requires k in m && HasIndex(m[k], c)
    ensures c < n && forall i :: 0 <= i < |parts[c]| ==> parts[c][i] in AdmittedOf(orig, k)
  {
    var x :| 0 <= x < |m[k]| && m[k][x].bufsIndex == c;
    InTable(m, tcp, bufs, orig, parts, n, k, x);
    forall i | 0 <= i < |parts[c]|
      ensures parts[c][i] in AdmittedOf(orig, k)
    {
      assert Member(orig, parts[c][i], m[k][x], i);
    }
  }

  /** A buffer with packets of one flow has none of another. */
  lemma NoneOfOther(m: Flows, tcp: bool, bufs: Bufs, orig: seq<Bytes>, parts: Parts, n: nat, k: FlowKey, c: nat,
                    key: FlowKey)
    requires n <= |bufs| == |orig| == |parts| && TableOk(m, tcp, bufs, orig, parts, n)
    requires k in m && HasIndex(m[k], c) && k != key
    ensures c < n && Picked(parts[c], AdmittedOf(orig, key)) == []
  {
    AllOfFlow(m, tcp, bufs, orig, parts, n, k, c);
    forall i | 0 <= i < |parts[c]|
      ensures parts[c][i] !in AdmittedOf(orig, key)
    {
      KeyApart(orig[parts[c][i]], k, key);
    }
    PickedNone(parts[c], AdmittedOf(orig, key));
  }

  lemma NotAfterLast(items: seq<Item>, c: nat)
    requires items != [] && InOrder(items) && c > items[|items| - 1].bufsIndex
    ensures !HasIndex(items, c)
  {
    forall x | 0 <= x < |items|
      ensures items[x].bufsIndex != c
    {
      assert x < |items| - 1 ==> items[x].bufsIndex < items[|items| - 1].bufsIndex;
    }
  }

  /** Such a packet is not admitted to a UDP flow. */
  lemma SettledApart(b: nat, bufs: Bufs, orig: seq<Bytes>, parts: Parts, key: FlowKey)
    requires b < |bufs| == |orig| == |parts| && Settled(b, bufs, orig, parts, true) && !key.tcp
    ensures Picked(parts[b], AdmittedOf(orig, key)) == []
  {
    if LeftAlone(orig[b], true) {
      LeftNotAdmitted(orig[b], key);
    } else {
      var k: FlowKey :| k.tcp && Admitted(orig[b], k) && !RightSum(orig[b], k);
      KeyApart(orig[b], k, key);
    }
    PickedOne(b, AdmittedOf(orig, key));
  }

  lemma LeftNotAdmitted(pkt: Bytes, key: FlowKey)
    requires LeftAlone(pkt, true)
    ensures !Admitted(pkt, key)
  {
  }

  /** Behind the last item of a UDP flow there are no packets that were admitted to the flow. */
  lemma LastOfFlow(bufs: Bufs, m: Flows, other: Flows, orig: seq<Bytes>, parts: Parts, n: nat, key: FlowKey, b: nat)
    requires Between(bufs, m, other, false, orig, parts, true, n) && !key.tcp && key in m && m[key] != []
    requires b == m[key][|m[key]| - 1].bufsIndex
    ensures NothingAfter(parts, b, AdmittedOf(orig, key))
  {
    forall c | b < c < |parts|
      ensures Picked(parts[c], AdmittedOf(orig, key)) == []
    {
      AfterLast(bufs, m, other, orig, parts, n, key, b, c);
    }
  }

  lemma AfterLast(bufs: Bufs, m: Flows, other: Flows, orig: seq<Bytes>, parts: Parts, n: nat, key: FlowKey, b: nat,
                  c: nat)
    requires Between(bufs, m, other, false, orig, parts, true, n) && !key.tcp && key in m && m[key] != []
    requires b == m[key][|m[key]| - 1].bufsIndex && b < c < |parts|
    ensures Picked(parts[c], AdmittedOf(orig, key)) == []
  {
    assert ListOk(m[key], key, bufs, orig, parts, n);
    NotAfterLast(m[key], c);
    if c < n {
      NoneAt(bufs, m, other, orig, parts, n, key, c);
    }
  }

  lemma NoneAt(bufs: Bufs, m: Flows, other: Flows, orig: seq<Bytes>, parts: Parts, n: nat, key: FlowKey, c: nat)
    requires Between(bufs, m, other, false, orig, parts, true, n) && c < n && !key.tcp
    requires key in m ==> !HasIndex(m[key], c)
    ensures Picked(parts[c], AdmittedOf(orig, key)) == []
  {
    assert Covered(c, bufs, m, other, orig, parts, true);
    if Listed(m, c) {
      var k :| k in m && HasIndex(m[k], c);
      NoneOfOther(m, false, bufs, orig, parts, n, k, c, key);
    } else if Listed(other, c) {
      var k :| k in other && HasIndex(other[k], c);
      NoneOfOther(other, true, bufs, orig, parts, n, k, c, key);
    } else if parts[c] != [] {
      SettledApart(c, bufs, orig, parts, key);
    }
  }

  /** What holds for UDP besides. */
  ghost predicate UdpSound(g: Batch, bufs: Bufs, m: Flows, other: Flows, parts: Parts, d: Done, n: nat) {
    && Sound(g, bufs, m, other, false, parts, d, n) && g.canUDPGRO
    && UdpInOrder(g.orig, parts, n) && NoEmptyList(m)
  }

  /** Tries to merge the packet into the last item of its flow, and no other. */
  method TryUDP(e: Endian, bufs: array<Buf>, pktI: nat, table: GroTable, key: FlowKey, info: Info,
                ghost other: Flows, ghost g: Batch, ghost parts: Parts, ghost d: Done)
    returns (result: CoalesceResult, ghost parts': Parts)
    requires pktI < bufs.Length && !key.tcp && UdpSound(g, bufs[..], table.itemsByFlow, other, parts, d, pktI)
    requires key in table.itemsByFlow && Admitted(g.orig[pktI], key) && info == InfoOf(g.orig[pktI], key)
    modifies bufs, table
    ensures result == LastVerdict(old(table.itemsByFlow[key]), info, old(bufs[..]), pktI)
    ensures result != Success ==> bufs[..] == old(bufs[..]) && table.itemsByFlow == old(table.itemsByFlow)
    ensures table.itemsPool == old(table.itemsPool) && table.itemsByFlow.Keys == old(table.itemsByFlow.Keys)
    ensures result == PktInvalidCSum ==> !RightSum(g.orig[pktI], key)
    ensures result == Success ==>
      && UdpSound(g, bufs[..], table.itemsByFlow, other, parts', d, pktI + 1) && Placed(parts, parts', pktI, Coalesced)
      && Step(Coalesced, bufs[..], parts', table.itemsByFlow, {})
         == UdpStep(old(bufs[..]), parts, old(table.itemsByFlow), key, info, pktI)
  {
    parts' := parts;
    var x := |table.itemsByFlow[key]| - 1;
    var item := table.itemsByFlow[key][x];
    ItemAt(table.itemsByFlow, false, bufs[..], g.orig, parts, pktI, key, x);
    if UdpPacketsCanCoalesce(bufs[pktI].pkt, info, item, bufs[item.bufsIndex].pkt) != Append {
      return InsufficientCap, parts;
    }
    UdpReady(table.itemsByFlow, bufs[..], g.orig, parts, pktI, key, x, info);
    ghost var before := bufs[..];
    var updated;
    result, updated := CoalesceUDPPackets(e, pktI, info, item, bufs);
    if result == Success {
      parts' := FinishUDP(item, info, before, bufs, table, other, g, parts, d, pktI, key, x, updated);
    }
  }

  /** The packet comes last in its flow. */
  method FinishUDP(item: Item, ghost info: Info, ghost before: Bufs, bufs: array<Buf>, table: GroTable,
                   ghost other: Flows, ghost g: Batch, ghost parts: Parts, ghost d: Done, pktI: nat, key: FlowKey, x: nat,
                   updated: Item) returns (ghost parts': Parts)
    requires UdpSound(g, before, table.itemsByFlow, other, parts, d, pktI) && pktI < |before| == bufs.Length
    requires !key.tcp && key in table.itemsByFlow && x == |table.itemsByFlow[key]| - 1
    requires item == table.itemsByFlow[key][x] && Admitted(g.orig[pktI], key) && info == InfoOf(g.orig[pktI], key)
    requires item.bufsIndex < pktI && Mergeable(info, item, before[item.bufsIndex], before[pktI])
    requires Fitting(Append, info, item, |before[item.bufsIndex].pkt|) && updated == Merged(Append, info, item)
    requires Agreeing(g.orig[pktI], before[item.bufsIndex].pkt, item)
    requires CoalesceOutcome(Append, info, item, before[item.bufsIndex], before[pktI]) == Success
    requires bufs[..] == MergedBufs(Append, info, item, before, pktI)
    modifies table
    ensures UdpSound(g, bufs[..], table.itemsByFlow, other, parts', d, pktI + 1)
    ensures table.itemsPool == old(table.itemsPool) && table.itemsByFlow.Keys == old(table.itemsByFlow.Keys)
    ensures table.itemsByFlow == old(table.itemsByFlow)[key := old(table.itemsByFlow)[key][x := updated]]
    ensures item.bufsIndex < |parts|
    ensures parts' == parts[item.bufsIndex := MergedPart(Append, parts[item.bufsIndex], pktI)]
    ensures Placed(parts, parts', pktI, Coalesced)
  {
    ghost var flows: Flows := table.itemsByFlow;
    LastOfFlow(before, flows, other, g.orig, parts, pktI, key, item.bufsIndex);
    parts' := FinishMerge(Append, item, info, before, bufs, table, other, g, parts, d, pktI, key, x, updated);
    StillNotEmpty(flows, table.itemsByFlow, key, flows[key][x := updated]);
    OrderMerge(g.orig, parts, parts', item.bufsIndex, pktI, key);
  }

  lemma UdpReady(m: Flows, bufs: Bufs, orig: seq<Bytes>, parts: Parts, n: nat, key: FlowKey, x: nat, info: Info)
    requires n < |bufs| == |orig| == |parts| && TableOk(m, false, bufs, orig, parts, n) && bufs[n].pkt == orig[n]
    requires !key.tcp && key in m && x < |m[key]| && Admitted(orig[n], key) && info == InfoOf(orig[n], key)
    requires var t := m[key][x];
      && t.bufsIndex < n && t.gsoSize > 0 && t.HeadersLen() <= |bufs[t.bufsIndex].pkt|
      && UdpPacketsCanCoalesce(orig[n], info, t, bufs[t.bufsIndex].pkt) == Append
    ensures var t := m[key][x];
      && Fitting(Append, info, t, |bufs[t.bufsIndex].pkt|) && Mergeable(info, t, bufs[t.bufsIndex], bufs[n])
      && Agreeing(orig[n], bufs[t.bufsIndex].pkt, t)
  {
    var t := m[key][x];
    InTable(m, false, bufs, orig, parts, n, key, x);
    ItemSizes(t, key, bufs[t.bufsIndex], orig, parts[t.bufsIndex]);
    AdmittedLengths(orig[n], key);
    UdpFitting(orig[n], info, t, bufs[t.bufsIndex].pkt);
    MayMerge(t, key, bufs[t.bufsIndex], bufs[n], orig, parts[t.bufsIndex], info);
  }

  /** It is called only if UDP packets may be merged. */
  method UdpGRO(e: Endian, bufs: array<Buf>, pktI: nat, table: GroTable, isV6: bool, ghost other: Flows, ghost g: Batch,
                ghost parts: Parts, ghost d: Done) returns (result: GroResult, ghost s: Step)
    requires pktI < bufs.Length && UdpSound(g, bufs[..], table.itemsByFlow, other, parts, d, pktI)
    requires PacketIsGROCandidate(g.orig[pktI], true) == UdpCandidate(isV6)
    requires Shaped(bufs[pktI].pkt, false, isV6) && Pooled(table, pktI) && pktI < IDEAL_BATCH_SIZE
    modifies bufs, table
    ensures s == UdpPacketStep(old(bufs[..]), parts, old(table.itemsByFlow), isV6, pktI)
    ensures Stepped(s, result, g, bufs[..], table.itemsByFlow, other, false, parts, d, pktI)
    ensures UdpInOrder(g.orig, s.parts, pktI + 1) && NoEmptyList(table.itemsByFlow)
    ensures Pooled(table, pktI + 1)
  {
    var pkt := bufs[pktI].pkt;
    var parsed := Parse(pkt, false, isV6);
    if parsed.None? {
      s := LeaveStep(bufs[..], parts, table.itemsByFlow, pktI);
      SoundNoted(g, bufs[..], s.bufs, table.itemsByFlow, other, false, parts, s.parts, d, Advance(d, Noop, {}, pktI), pktI);
      OrderInsert(g.orig, parts, s.parts, pktI);
      return Noop, s;
    }
    KeyAdmits(pkt, false, isV6, true);
    result, s := UdpPacket(e, bufs, pktI, table, NewFlowKey(pkt, false, isV6), parsed.value, other, g, parts, d);
  }

  method UdpPacket(e: Endian, bufs: array<Buf>, pktI: nat, table: GroTable, key: FlowKey, info: Info, ghost other: Flows,
                   ghost g: Batch, ghost parts: Parts, ghost d: Done) returns (result: GroResult, ghost s: Step)
    requires pktI < bufs.Length && UdpSound(g, bufs[..], table.itemsByFlow, other, parts, d, pktI)
    requires !key.tcp && Admitted(g.orig[pktI], key) && info == InfoOf(g.orig[pktI], key)
    requires Pooled(table, pktI) && pktI < IDEAL_BATCH_SIZE
    modifies bufs, table
    ensures s == UdpStep(old(bufs[..]), parts, old(table.itemsByFlow), key, info, pktI)
    ensures Stepped(s, result, g, bufs[..], table.itemsByFlow, other, false, parts, d, pktI)
    ensures UdpInOrder(g.orig, s.parts, pktI + 1) && NoEmptyList(table.itemsByFlow)
    ensures Pooled(table, pktI + 1)
  {
    var pktCSumKnownInvalid := false;
    if key in table.itemsByFlow {
      var tried;
      ghost var parts';
      tried, parts' := TryUDP(e, bufs, pktI, table, key, info, other, g, parts, d);
      if tried == Success {
        NoneGone(d, Coalesced, pktI);
        return Coalesced, Step(Coalesced, bufs[..], parts', table.itemsByFlow, {});
      }
      pktCSumKnownInvalid := tried == PktInvalidCSum;
    }
    ghost var flows: Flows, before: Bufs := table.itemsByFlow, bufs[..];
    InsertPacket(bufs, pktI, table, key, info, pktCSumKnownInvalid, other, g, parts, d);
    result, s := TableInsert, Step(TableInsert, before, parts[pktI := [pktI]], table.itemsByFlow, {});
    UdpStarted(g, before, flows, other, parts, d, pktI, key, info, pktCSumKnownInvalid, s);
  }

  /** The packet starts an item. */
  lemma UdpStarted(g: Batch, bufs: Bufs, m: Flows, other: Flows, parts: Parts, d: Done, n: nat, key: FlowKey, info: Info,
                   cSumKnownInvalid: bool, s: Step)
    requires n < |bufs| == |parts| == |g.orig| && UdpInOrder(g.orig, parts, n) && NoEmptyList(m)
    requires forall k :: n <= k < |parts| ==> parts[k] == []
    requires LastVerdict(ItemsOf(m, key), info, bufs, n) != Success
    requires cSumKnownInvalid <==> LastVerdict(ItemsOf(m, key), info, bufs, n) == PktInvalidCSum
    requires s == Step(TableInsert, bufs, parts[n := [n]], Inserted(m, NewItem(key, n, info, cSumKnownInvalid)), {})
    requires Sound(g, bufs, s.table, other, false, s.parts, d, n + 1)
    ensures s == UdpStep(bufs, parts, m, key, info, n)
    ensures Stepped(s, TableInsert, g, bufs, s.table, other, false, parts, d, n)
    ensures UdpInOrder(g.orig, s.parts, n + 1) && NoEmptyList(s.table)
  {
    OrderInsert(g.orig, parts, s.parts, n);
    StillNotEmpty(m, s.table, key, s.table[key]);
    NoneGone(d, TableInsert, n);
  }
}
