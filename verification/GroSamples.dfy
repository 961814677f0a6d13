/** Batches for which receive offload in tun/offload_linux.go loses something: PSH, a virtio header, the order of a UDP
    flow. */
module GroSamples {
  import opened Words
  import opened Chunks
  import opened Checksum
  import opened Headers
  import opened Gso
  import opened GroPackets
  import opened GroItems
  import opened GroCoalesce
  import opened GroTables
  import opened GroOrder
  import opened GroDone
  import opened GroRun
  import opened Gro
  import opened GroLimits
  import opened GroTrains

  // ---------------------------------------------------------------------------------------------
  // Packets
  // ---------------------------------------------------------------------------------------------

  function SampleKey(tcp: bool): FlowKey {
    FlowKey(tcp, false, [10, 0, 0, 1], [10, 0, 0, 2], 1, 2, 0)
  }

  function SampleIp(totalLen: byte, proto: byte): Bytes {
    [0x45, 0, 0, totalLen, 0, 0, 0, 0, 64, proto, 0, 0, 10, 0, 0, 1, 10, 0, 0, 2]
  }

  function SampleTcp(sentSeq: byte, psh: bool): Bytes {
    [0, 1, 0, 2, 0, 0, 0, sentSeq, 0, 0, 0, 0, 0x50, Flags(psh), 0, 0, 0, 0, 0, 0, 7]
  }

  function SampleUdp(payload: Bytes): Bytes
    requires |payload| < 100
  {
    [0, 1, 0, 2, 0, 8 + |payload|, 0, 0] + payload
  }

  /** The packet with its transport checksum filled in. */
  ghost function Completed(ip: Bytes, th: Bytes, at: nat, proto: byte): Bytes
    requires |ip| == 20 && at + 2 <= |th| < 0x1_0000
  {
    ip + Put16(th, at, Complement(Reference(th, Pseudo(ip, proto, false, |th|))))
  }

  lemma CompletedSum(ip: Bytes, th: Bytes, at: nat, proto: byte)
    requires |ip| == 20 && at + 2 <= |th| < 0x1_0000 && at % 2 == 0 && Get16(th, at) == 0
    ensures var pkt := Completed(ip, th, at, proto);
      && |pkt| == 20 + |th| && TransportSumsUp(pkt, 20, proto, false)
      && pkt[..20] == ip && pkt[20..20 + at] == th[..at]
  {
    var pkt, initial := Completed(ip, th, at, proto), Pseudo(ip, proto, false, |th|);
    PutCompletes(th, at, initial);
    assert pkt[20..] == Put16(th, at, Complement(Reference(th, initial)));
    SameAddresses(pkt, ip, proto, false, |th|, 20);
  }

  lemma SampleIpFields(pkt: Bytes, totalLen: byte, proto: byte)
    requires |pkt| >= 20 && pkt[..20] == SampleIp(totalLen, proto)
    ensures pkt[0] == 0x45 && pkt[6] == pkt[7] == 0 && pkt[9] == proto
    ensures pkt[2..4] == [0, totalLen] && pkt[12..16] == [10, 0, 0, 1] && pkt[16..20] == [10, 0, 0, 2]
  {
    assert forall k :: 0 <= k < 20 ==> pkt[k] == SampleIp(totalLen, proto)[k];
    Field2(pkt, 2, 0, totalLen);
    Field4(pkt, 12, 10, 0, 0, 1);
    Field4(pkt, 16, 10, 0, 0, 2);
  }

  lemma SampleTcpFields(pkt: Bytes, sentSeq: byte, psh: bool)
    requires |pkt| == 41 && pkt[20..36] == SampleTcp(sentSeq, psh)[..16]
    ensures pkt[20..22] == [0, 1] && pkt[22..24] == [0, 2] && pkt[32] == 0x50 && pkt[33] == Flags(psh)
    ensures pkt[24..28] == [0, 0, 0, sentSeq] && pkt[28..32] == [0, 0, 0, 0]
  {
    var th := SampleTcp(sentSeq, psh);
    assert forall k :: 20 <= k < 36 ==> pkt[k] == pkt[20..36][k - 20] && pkt[20..36][k - 20] == th[..16][k - 20];
    assert forall k :: 20 <= k < 36 ==> pkt[k] == th[k - 20];
    Field2(pkt, 20, 0, 1);
    Field2(pkt, 22, 0, 2);
    Field4(pkt, 24, 0, 0, 0, sentSeq);
    Field4(pkt, 28, 0, 0, 0, 0);
  }

  lemma Field2(pkt: Bytes, at: nat, a: byte, b: byte)
    requires at + 2 <= |pkt| && pkt[at] == a && pkt[at + 1] == b
    ensures pkt[at..at + 2] == [a, b]
  {
  }

  lemma Field4(pkt: Bytes, at: nat, a: byte, b: byte, c: byte, d: byte)
    requires at + 4 <= |pkt| && pkt[at] == a && pkt[at + 1] == b && pkt[at + 2] == c && pkt[at + 3] == d
    ensures pkt[at..at + 4] == [a, b, c, d]
  {
  }

  lemma SampleAdmitted(pkt: Bytes, sentSeq: byte, psh: bool)
    requires |pkt| == 41 && pkt[..20] == SampleIp(41, IPPROTO_TCP) && pkt[20..36] == SampleTcp(sentSeq, psh)[..16]
    ensures Admitted(pkt, SampleKey(true)) && InfoOf(pkt, SampleKey(true)) == Info(20, 1, sentSeq, psh)
  {
    SampleIpFields(pkt, 41, IPPROTO_TCP);
    SampleTcpFields(pkt, sentSeq, psh);
  }

  /** A TCP packet over IPv4 with one byte of payload and a right checksum. */
  lemma Sample(sentSeq: byte, psh: bool) returns (pkt: Bytes)
    ensures |pkt| == 41 && pkt[..20] == SampleIp(41, IPPROTO_TCP) && RightSum(pkt, SampleKey(true))
    ensures pkt[20..36] == SampleTcp(sentSeq, psh)[..16]
    ensures Admitted(pkt, SampleKey(true)) && InfoOf(pkt, SampleKey(true)) == Info(20, 1, sentSeq, psh)
  {
    var ip, th := SampleIp(41, IPPROTO_TCP), SampleTcp(sentSeq, psh);
    assert th[16..18] == [0, 0];
    CompletedSum(ip, th, 16, IPPROTO_TCP);
    pkt := Completed(ip, th, 16, IPPROTO_TCP);
    SampleAdmitted(pkt, sentSeq, psh);
  }

  /** The packets in buffers that are large enough. */
  function Batched(pkts: seq<Bytes>): (r: Bufs)
    ensures |r| == |pkts| && Rooms(r)
    ensures forall k :: 0 <= k < |r| ==> r[k] == Buf(pkts[k], 0xffff, Unset)
  {
    seq(|pkts|, k requires 0 <= k < |pkts| => Buf(pkts[k], 0xffff, Unset))
  }

  // ---------------------------------------------------------------------------------------------
  // PSH
  // ---------------------------------------------------------------------------------------------

  lemma SampleJoins(late: Bytes, early: Bytes)
    requires |late| == |early| == 41 && late[..20] == early[..20] == SampleIp(41, IPPROTO_TCP)
    ensures TcpPacketsCanCoalesce(early, Info(20, 1, 0, false), NewItem(SampleKey(true), 0, Info(20, 1, 1, true), false),
                                  late)
         == Prepend
  {
    assert forall k :: 0 <= k < 20 ==> late[k] == late[..20][k] && early[k] == early[..20][k];
  }

  /** A packet with PSH set, and then the packet before it: the second one becomes the head of the merged packet,
      and PSH is gone. */
  lemma PshIsLost() returns (key: FlowKey, late: Bytes, early: Bytes)
    ensures Admitted(late, key) && Admitted(early, key) && |late| == |early| == 41
    ensures var info, t := InfoOf(early, key), NewItem(key, 0, InfoOf(late, key), false);
      && t.HeadersLen() == 40 && key.tcp && info.thLen == t.thLen == 20
      && TcpPacketsCanCoalesce(early, info, t, late) == Prepend
      && CoalesceOutcome(Prepend, info, t, Buf(late, 0xffff, Unset), Buf(early, 0xffff, Unset)) == Success
      && InfoOf(late, key).pshSet && FlagsAre(MergedPacket(Prepend, info, t, late, early), key, false)
  {
    key := SampleKey(true);
    late := Sample(1, true);
    early := Sample(0, false);
    SampleJoins(late, early);
    AdmittedFlags(early, key);
  }

  // ---------------------------------------------------------------------------------------------
  // A virtio header
  // ---------------------------------------------------------------------------------------------

  /** Next to a right sum there is a wrong one. */
  lemma NextIsWrong(x: nat)
    requires FoldAll(x) == 0xffff
    ensures FoldAll(x + 1) != 0xffff
  {
    FoldAllIsValue(x);
    FoldAllIsValue(x + 1);
    SameSumAdd(x, 0xffff, 1, 1);
  }

  lemma OtherWordWrong(b: Bytes, at: nat, v: uint16, initial: nat)
    requires at % 2 == 0 && at + 2 <= |b| && SumsUp(b, initial) && (v == Get16(b, at) + 1 || v + 1 == Get16(b, at))
    ensures !SumsUp(Put16(b, at, v), initial)
  {
    WordSumPut(b, at, v);
    var s, s' := initial + WordSum(b), initial + WordSum(Put16(b, at, v));
    if FoldAll(s') == 0xffff {
      NextIsWrong(if s' == s + 1 then s else s');
    }
  }

  /** The same with a wrong checksum. */
  lemma WrongSample() returns (pkt: Bytes)
    ensures |pkt| == 41 && pkt[..20] == SampleIp(41, IPPROTO_TCP) && !RightSum(pkt, SampleKey(true))
    ensures Admitted(pkt, SampleKey(true)) && InfoOf(pkt, SampleKey(true)) == Info(20, 1, 0, false)
  {
    var right := Sample(0, false);
    pkt := Spoilt(right);
    SpoiltFields(right, pkt);
    SampleAdmitted(pkt, 0, false);
  }

  /** Another checksum is stored in the packet. */
  function Spoilt(pkt: Bytes): Bytes
    requires |pkt| == 41
  {
    var th := pkt[20..];
    var was := Get16(th, 16);
    pkt[..20] + Put16(th, 16, if was == 0 then 1 else was - 1)
  }

  lemma SpoiltFields(right: Bytes, pkt: Bytes)
    requires |right| == 41 && TransportSumsUp(right, 20, IPPROTO_TCP, false) && pkt == Spoilt(right)
    ensures |pkt| == 41 && pkt[..20] == right[..20] && pkt[20..36] == right[20..36]
    ensures !TransportSumsUp(pkt, 20, IPPROTO_TCP, false)
  {
    var th := right[20..];
    var was := Get16(th, 16);
    var v: uint16 := if was == 0 then 1 else was - 1;
    OtherWordWrong(th, 16, v, Pseudo(right, IPPROTO_TCP, false, 21));
    SameAddresses(pkt, right, IPPROTO_TCP, false, 21, 20);
    assert pkt[20..] == Put16(th, 16, v);
    assert forall k :: 20 <= k < 36 ==> pkt[k] == right[k];
    assert pkt[20..36] == right[20..36];
  }

  lemma SampleFollows(early: Bytes, late: Bytes)
    requires |late| == |early| == 41 && late[..20] == early[..20] == SampleIp(41, IPPROTO_TCP)
    ensures TcpPacketsCanCoalesce(late, Info(20, 1, 1, false), NewItem(SampleKey(true), 0, Info(20, 1, 0, false), false),
                                  early)
         == Append
  {
    assert forall k :: 0 <= k < 20 ==> late[k] == late[..20][k] && early[k] == early[..20][k];
  }

  lemma SweptOne(t: Item)
    ensures var verdicts := [ItemInvalidCSum];
      Swept([t], verdicts) == [] && Gone([t], verdicts) == {t.bufsIndex} && Decided(verdicts) == TableInsert
  {
    var verdicts := [ItemInvalidCSum];
    assert [t][..0] == [] && verdicts[..0] == [];
  }

  /** The only item of the flow is found wrong. */
  lemma TcpReplaces(bufs: Bufs, parts: Parts, m: Flows, key: FlowKey, info: Info, i: nat, t: Item)
    requires i < |bufs| == |parts| && key in m && m[key] == [t] && TcpVerdict(t, info, bufs, i) == ItemInvalidCSum
    ensures TcpStep(bufs, parts, m, key, info, i)
         == Step(TableInsert, bufs, parts[i := [i]], m[key := [NewItem(key, i, info, false)]], {t.bufsIndex})
  {
    var verdicts, left := TcpVerdicts(m[key], info, bufs, i), m[key := []];
    assert verdicts == [ItemInvalidCSum];
    SweptOne(t);
    InsertedFirst(left, NewItem(key, i, info, false));
    InsertedOver(m, key, [NewItem(key, i, info, false)]);
  }

  lemma InsertedOver(m: Flows, key: FlowKey, items: seq<Item>)
    ensures m[key := []][key := items] == m[key := items]
  {
  }

  lemma FindsWrongSample(start: Bufs, wrong: Bytes, next: Bytes, t: Item)
    requires |start| == 2 && start[0] == Buf(wrong, 0xffff, Unset) && start[1] == Buf(next, 0xffff, Unset)
    requires |wrong| == |next| == 41
    requires wrong[..20] == next[..20] == SampleIp(41, IPPROTO_TCP) && !RightSum(wrong, SampleKey(true))
    requires t == NewItem(SampleKey(true), 0, Info(20, 1, 0, false), false)
    ensures TcpVerdict(t, Info(20, 1, 1, false), start, 1) == ItemInvalidCSum
  {
    SampleIpFields(wrong, 41, IPPROTO_TCP);
    SampleIpFields(next, 41, IPPROTO_TCP);
    SampleFollows(wrong, next);
  }

  lemma FirstRun(start: Bufs, canUDPGRO: bool, r: Run, t: Item)
    requires |start| == 2 && Admitted(start[0].pkt, SampleKey(true)) && r == After(start, canUDPGRO, 1)
    requires InfoOf(start[0].pkt, SampleKey(true)) == Info(20, 1, 0, false)
    requires t == NewItem(SampleKey(true), 0, Info(20, 1, 0, false), false)
    ensures r == Run(start, [[0], []], map[SampleKey(true) := [t]], map[], Done({}, {}))
  {
    var r0 := Run(start, Nothing(2), map[], map[], Done({}, {}));
    TcpNext(r0, 0, canUDPGRO, SampleKey(true));
    TcpStarts(start, Nothing(2), map[], SampleKey(true), Info(20, 1, 0, false), 0);
    NoneGone(r0.done, TableInsert, 0);
    assert Nothing(2)[0 := [0]] == [[0], []];
  }

  lemma SecondRun(start: Bufs, canUDPGRO: bool, r: Run, t: Item)
    requires |start| == 2 && Admitted(start[1].pkt, SampleKey(true))
    requires InfoOf(start[1].pkt, SampleKey(true)) == Info(20, 1, 1, false)
    requires r == Run(start, [[0], []], map[SampleKey(true) := [t]], map[], Done({}, {})) && t.bufsIndex == 0
    requires TcpVerdict(t, Info(20, 1, 1, false), start, 1) == ItemInvalidCSum
    ensures Next(r, 1, canUDPGRO).parts == [[0], [1]] && Next(r, 1, canUDPGRO).done == Done({}, {0})
  {
    TcpNext(r, 1, canUDPGRO, SampleKey(true));
    TcpReplaces(start, r.parts, r.tcp, SampleKey(true), Info(20, 1, 1, false), 1, t);
  }

  /** Two packets of one TCP flow, of which the first has a wrong checksum.  The second one finds out, and the first is
      dropped: it is written with the virtio header that happened to be there. */
  lemma HeaderIsLost(canUDPGRO: bool) returns (start: Bufs)
    ensures |start| == 2 && Rooms(start) && start[0].vnet == start[1].vnet == Unset
    ensures var r := After(start, canUDPGRO, 2);
      r.parts == [[0], [1]] && r.done == Done({}, {0})
  {
    var wrong := WrongSample();
    var next := Sample(1, false);
    start := Batched([wrong, next]);
    BothRuns(start, wrong, next, canUDPGRO);
  }

  lemma BothRuns(start: Bufs, wrong: Bytes, next: Bytes, canUDPGRO: bool)
    requires |start| == 2 && start[0] == Buf(wrong, 0xffff, Unset) && start[1] == Buf(next, 0xffff, Unset)
    requires |wrong| == |next| == 41
    requires wrong[..20] == next[..20] == SampleIp(41, IPPROTO_TCP) && !RightSum(wrong, SampleKey(true))
    requires Admitted(wrong, SampleKey(true)) && InfoOf(wrong, SampleKey(true)) == Info(20, 1, 0, false)
    requires Admitted(next, SampleKey(true)) && InfoOf(next, SampleKey(true)) == Info(20, 1, 1, false)
    ensures var r := After(start, canUDPGRO, 2);
      r.parts == [[0], [1]] && r.done == Done({}, {0})
  {
    var r1, t := After(start, canUDPGRO, 1), NewItem(SampleKey(true), 0, Info(20, 1, 0, false), false);
    FirstRun(start, canUDPGRO, r1, t);
    FindsWrongSample(start, wrong, next, t);
    SecondRun(start, canUDPGRO, r1, t);
  }

  // ---------------------------------------------------------------------------------------------
  // The order of a UDP flow
  // ---------------------------------------------------------------------------------------------

  lemma UdpFields(pkt: Bytes, payload: Bytes)
    requires |payload| <= 1 && |pkt| == 28 + |payload| && pkt[20..26] == SampleUdp(payload)[..6]
    ensures pkt[20..22] == [0, 1] && pkt[22..24] == [0, 2]
  {
    var th := SampleUdp(payload);
    assert forall k :: 20 <= k < 26 ==> pkt[k] == pkt[20..26][k - 20] && pkt[20..26][k - 20] == th[..6][k - 20];
    assert forall k :: 20 <= k < 26 ==> pkt[k] == th[k - 20];
    Field2(pkt, 20, 0, 1);
    Field2(pkt, 22, 0, 2);
  }

  lemma DatagramInFlow(pkt: Bytes, payload: Bytes)
    requires |payload| <= 1 && |pkt| == 28 + |payload| && pkt[..20] == SampleIp(28 + |payload|, IPPROTO_UDP)
    requires pkt[20..26] == SampleUdp(payload)[..6]
    ensures InFlow(pkt, SampleKey(false))
    ensures payload == [] ==> Parse(pkt, false, false).None?
    ensures payload != [] ==> Admitted(pkt, SampleKey(false)) && InfoOf(pkt, SampleKey(false)) == Info(8, 1, 0, false)
  {
    SampleIpFields(pkt, 28 + |payload|, IPPROTO_UDP);
    UdpFields(pkt, payload);
  }

  /** A UDP packet over IPv4 with a right checksum. */
  lemma Datagram(payload: Bytes) returns (pkt: Bytes)
    requires |payload| <= 1
    ensures |pkt| == 28 + |payload| && pkt[..20] == SampleIp(28 + |payload|, IPPROTO_UDP)
    ensures RightSum(pkt, SampleKey(false)) && InFlow(pkt, SampleKey(false))
    ensures payload == [] ==> Parse(pkt, false, false).None?
    ensures payload != [] ==> Admitted(pkt, SampleKey(false)) && InfoOf(pkt, SampleKey(false)) == Info(8, 1, 0, false)
  {
    var ip, th := SampleIp(28 + |payload|, IPPROTO_UDP), SampleUdp(payload);
    assert th[6..8] == [0, 0];
    CompletedSum(ip, th, 6, IPPROTO_UDP);
    pkt := Completed(ip, th, 6, IPPROTO_UDP);
    DatagramInFlow(pkt, payload);
  }

  lemma TurnedDownNext(r: Run, i: nat, key: FlowKey)
    requires i < |r.bufs| == |r.parts| && !key.tcp && InFlow(r.bufs[i].pkt, key)
    requires Parse(r.bufs[i].pkt, false, key.isV6).None?
    ensures Next(r, i, true)
         == Run(Marked(r.bufs, i), r.parts[i := [i]], r.tcp, r.udp, Advance(r.done, Noop, {}, i))
  {
  }

  lemma SampleMerges(start: Bufs, full: Bytes, info: Info, t: Item)
    requires |start| == 3 && start[0] == start[2] == Buf(full, 0xffff, Unset) && |full| == 29
    requires full[..20] == SampleIp(29, IPPROTO_UDP) && RightSum(full, SampleKey(false))
    requires info == Info(8, 1, 0, false) && t == NewItem(SampleKey(false), 0, info, false)
    ensures UdpVerdict(t, info, start, 2) == Success
  {
    SampleIpFields(full, 29, IPPROTO_UDP);
  }

  lemma OneDatagram(start: Bufs, t: Item, info: Info, r: Run)
    requires |start| == 3 && Admitted(start[0].pkt, SampleKey(false)) && info == InfoOf(start[0].pkt, SampleKey(false))
    requires t == NewItem(SampleKey(false), 0, info, false) && r == After(start, true, 1)
    ensures r == Run(start, [[0], [], []], map[], map[SampleKey(false) := [t]], Done({}, {}))
  {
    var r0 := Run(start, Nothing(3), map[], map[], Done({}, {}));
    UdpNext(r0, 0, SampleKey(false));
    InsertedFirst(map[], t);
    NoneGone(r0.done, TableInsert, 0);
    assert Nothing(3)[0 := [0]] == [[0], [], []];
  }

  lemma TwoDatagrams(start: Bufs, t: Item, r: Run)
    requires |start| == 3 && InFlow(start[1].pkt, SampleKey(false)) && Parse(start[1].pkt, false, false).None?
    requires r == Run(start, [[0], [], []], map[], map[SampleKey(false) := [t]], Done({}, {}))
    ensures Next(r, 1, true)
         == Run(Marked(start, 1), [[0], [1], []], map[], map[SampleKey(false) := [t]], Done({1}, {}))
  {
    TurnedDownNext(r, 1, SampleKey(false));
    assert r.parts[1 := [1]] == [[0], [1], []];
  }

  lemma ThreeDatagrams(bufs: Bufs, full: Bytes, info: Info, t: Item, r: Run)
    requires |bufs| == 3 && bufs[0] == bufs[2] == Buf(full, 0xffff, Unset) && |full| == 29
    requires full[..20] == SampleIp(29, IPPROTO_UDP) && RightSum(full, SampleKey(false))
    requires Admitted(full, SampleKey(false)) && info == InfoOf(full, SampleKey(false)) == Info(8, 1, 0, false)
    requires t == NewItem(SampleKey(false), 0, info, false)
    requires r == Run(bufs, [[0], [1], []], map[], map[SampleKey(false) := [t]], Done({1}, {}))
    ensures Next(r, 2, true).parts == [[0, 2], [1], []]
  {
    UdpNext(r, 2, SampleKey(false));
    SampleMerges(bufs, full, info, t);
    assert [0] + [2] == [0, 2];
    assert r.parts[0 := [0, 2]] == [[0, 2], [1], []];
  }

  lemma OutOfOrder(which: set<nat>)
    requires which == {0, 1, 2}
    ensures !KeepsOrder(which, [[0, 2], [1], []], 3)
  {
    var parts: Parts := [[0, 2], [1], []];
    var two: Parts := [[0, 2], [1]];
    var one: Parts := [[0, 2]];
    var none: Parts := [];
    assert parts[..2] == two && two[..1] == one && one[..0] == none;
    assert Flat(none) == [];
    assert Flat(one) == [] + [0, 2];
    assert Flat(two) == Flat(one) + [1];
    assert Flat(parts) == Flat(two) + [];
    assert Flat(parts) == [0, 2, 1];
    assert UpTo(1) == UpTo(0) + [0];
    assert UpTo(2) == UpTo(1) + [1];
    assert UpTo(3) == UpTo(2) + [2];
    assert UpTo(3) == [0, 1, 2];
    PickedAll([0, 2, 1], which);
    PickedAll([0, 1, 2], which);
  }

  /** Three datagrams of one flow, of which the second is empty.  The third is merged into the first, and so it is
      written before the second. */
  lemma OrderIsLost() returns (start: Bufs, key: FlowKey)
    ensures |start| == 3 && Rooms(start) && !key.tcp && After(start, true, 3).parts == [[0, 2], [1], []]
    ensures RightSum(start[0].pkt, key) && RightSum(start[1].pkt, key) && RightSum(start[2].pkt, key)
    ensures FlowOf(Packets(start), key) == {0, 1, 2} && TurnedDown(Packets(start), key) == {1}
    ensures !KeepsOrder(FlowOf(Packets(start), key), After(start, true, 3).parts, 3)
  {
    key := SampleKey(false);
    var full := Datagram([7]);
    var empty := Datagram([]);
    start := Batched([full, empty, full]);
    AllRuns(start, full, Info(8, 1, 0, false));
    ThreeInFlow(start, key);
    SampleOrder(FlowOf(Packets(start), key), After(start, true, 3).parts);
  }

  lemma ThreeInFlow(start: Bufs, key: FlowKey)
    requires |start| == 3 && !key.tcp
    requires Admitted(start[0].pkt, key) && InFlow(start[1].pkt, key) && Admitted(start[2].pkt, key)
    requires Parse(start[1].pkt, false, key.isV6).None?
    ensures FlowOf(Packets(start), key) == {0, 1, 2} && TurnedDown(Packets(start), key) == {1}
  {
    SampleFlow(start, Packets(start), key);
  }

  lemma SampleOrder(which: set<nat>, parts: Parts)
    requires which == {0, 1, 2} && parts == [[0, 2], [1], []]
    ensures !KeepsOrder(which, parts, 3)
  {
    OutOfOrder(which);
  }

  lemma SampleFlow(start: Bufs, orig: seq<Bytes>, key: FlowKey)
    requires |start| == 3 && !key.tcp && orig == Packets(start)
    requires Admitted(start[0].pkt, key) && InFlow(start[1].pkt, key) && Admitted(start[2].pkt, key)
    requires !Admitted(start[1].pkt, key)
    ensures FlowOf(orig, key) == {0, 1, 2} && TurnedDown(orig, key) == {1}
  {
    assert orig == [start[0].pkt, start[1].pkt, start[2].pkt];
    assert AdmittedOf(orig, key) == {0, 2};
  }

  lemma AllRuns(start: Bufs, full: Bytes, info: Info)
    requires |start| == 3 && start[0] == start[2] == Buf(full, 0xffff, Unset) && |full| == 29
    requires full[..20] == SampleIp(29, IPPROTO_UDP) && RightSum(full, SampleKey(false))
    requires Admitted(full, SampleKey(false)) && info == InfoOf(full, SampleKey(false)) == Info(8, 1, 0, false)
    requires InFlow(start[1].pkt, SampleKey(false)) && Parse(start[1].pkt, false, false).None?
    ensures After(start, true, 3).parts == [[0, 2], [1], []]
  {
    var t := NewItem(SampleKey(false), 0, info, false);
    var r1, r2 := After(start, true, 1), After(start, true, 2);
    OneDatagram(start, t, info, r1);
    TwoDatagrams(start, t, r1);
    ThreeDatagrams(Marked(start, 1), full, info, t, r2);
  }
}
