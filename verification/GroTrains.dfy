/** Packets that belong together are merged, all of them, by receive offload in tun/offload_linux.go. */
module GroTrains {
  import opened Words
  import opened Wrappers
  import opened Chunks
  import opened Headers
  import opened GroPackets
  import opened GroItems
  import opened GroCoalesce
  import opened GroTables
  import opened GroOrder
  import opened GroDone
  import opened GroRun
  import opened GroSplits

  // ---------------------------------------------------------------------------------------------
  // One packet of a batch
  // ---------------------------------------------------------------------------------------------

  lemma TcpStays(pkt: Bytes, key: FlowKey, canUDPGRO: bool)
    requires key.tcp && Admitted(pkt, key)
    ensures PacketIsGROCandidate(pkt, canUDPGRO) == TcpCandidate(key.isV6)
    ensures Shaped(pkt, true, key.isV6) && NewFlowKey(pkt, true, key.isV6) == key
    ensures Parse(pkt, true, key.isV6) == Some(InfoOf(pkt, key))
  {
  }

  lemma TcpNext(r: Run, i: nat, canUDPGRO: bool, key: FlowKey)
    requires i < |r.bufs| == |r.parts| && key.tcp && Admitted(r.bufs[i].pkt, key)
    ensures var s := TcpStep(r.bufs, r.parts, r.tcp, key, InfoOf(r.bufs[i].pkt, key), i);
      Next(r, i, canUDPGRO) == Run(s.bufs, s.parts, s.table, r.udp, Advance(r.done, s.result, s.gone, i))
  {
    TcpStays(r.bufs[i].pkt, key, canUDPGRO);
  }

  lemma TcpStarts(bufs: Bufs, parts: Parts, m: Flows, key: FlowKey, info: Info, i: nat)
    requires i < |bufs| == |parts| && key !in m
    ensures TcpStep(bufs, parts, m, key, info, i)
         == Step(TableInsert, bufs, parts[i := [i]], m[key := [NewItem(key, i, info, false)]], {})
  {
    assert TcpVerdicts([], info, bufs, i) == [];
    InsertedFirst(m, NewItem(key, i, info, false));
  }

  lemma InsertedFirst(m: Flows, t: Item)
    requires ItemsOf(m, t.key) == []
    ensures Inserted(m, t) == m[t.key := [t]]
  {
    assert ItemsOf(m, t.key) + [t] == [t];
  }

  lemma UdpNext(r: Run, i: nat, key: FlowKey)
    requires i < |r.bufs| == |r.parts| && !key.tcp && Admitted(r.bufs[i].pkt, key)
    ensures var s := UdpStep(r.bufs, r.parts, r.udp, key, InfoOf(r.bufs[i].pkt, key), i);
      Next(r, i, true) == Run(s.bufs, s.parts, r.tcp, s.table, Advance(r.done, s.result, s.gone, i))
  {
  }

  lemma UdpStarts(bufs: Bufs, parts: Parts, m: Flows, key: FlowKey, info: Info, i: nat)
    requires i < |bufs| == |parts| && key !in m
    ensures UdpStep(bufs, parts, m, key, info, i)
         == Step(TableInsert, bufs, parts[i := [i]], m[key := [NewItem(key, i, info, false)]], {})
  {
    InsertedFirst(m, NewItem(key, i, info, false));
  }

  lemma TookOne(t: Item)
    ensures var verdicts := [Success];
      Swept([t], verdicts) == [t] && Gone([t], verdicts) == {} && Decided(verdicts) == Coalesced && Taker(verdicts) == 0
  {
  }

  /** The only item of the flow takes the packet. */
  lemma TcpTakes(bufs: Bufs, parts: Parts, m: Flows, key: FlowKey, info: Info, i: nat, t: Item)
    requires i < |bufs| == |parts| && m == map[key := [t]] && TcpVerdict(t, info, bufs, i) == Success
    ensures TcpStep(bufs, parts, m, key, info, i)
         == MergeStep(TcpCan(t, info, bufs, i), info, key, 0, bufs, parts, m, i, {})
  {
    var verdicts := TcpVerdicts(m[key], info, bufs, i);
    assert verdicts == [Success];
    TookOne(t);
    assert Sweep(m, key, verdicts) == m;
  }

  // ---------------------------------------------------------------------------------------------
  // Packets, byte by byte
  // ---------------------------------------------------------------------------------------------

  /** A complete TCP or UDP packet over IPv4 or IPv6, with `thLen` bytes of transport header right behind a plain IP header
      and a payload of `size` bytes.  It is no fragment, and a TCP packet has ACK set, may have PSH set, and nothing
      else. */
  ghost predicate Whole(pkt: Bytes, tcp: bool, isV6: bool, thLen: nat, size: nat) {
    var ip := if isV6 then 40 else 20;
    && |pkt| == ip + thLen + size <= 0xffff && size > 0
    && (if tcp then 20 <= thLen <= 60 && pkt[ip + 12] / 16 * 4 == thLen && (pkt[ip + 13] == 0x10 || pkt[ip + 13] == 0x18)
        else thLen == 8)
    && (if isV6 then pkt[0] / 16 == 6 && pkt[6] == (if tcp then 6 else 17) && pkt[4] as int * 0x100 + pkt[5] as int == thLen + size
        else
          && pkt[0] == 0x45 && pkt[9] == (if tcp then 6 else 17) && pkt[2] as int * 0x100 + pkt[3] as int == |pkt|
          && pkt[6] % 0x40 == 0 && pkt[7] == 0)
  }

  lemma WholeAdmitted(pkt: Bytes, tcp: bool, isV6: bool, thLen: nat, size: nat)
    requires Whole(pkt, tcp, isV6, thLen, size)
    ensures Shaped(pkt, tcp, isV6) && Admitted(pkt, NewFlowKey(pkt, tcp, isV6))
    ensures var ip := IphLen(isV6);
      InfoOf(pkt, NewFlowKey(pkt, tcp, isV6))
      == Info(thLen, size, if tcp then Get32(pkt, ip + 4) else 0, tcp && pkt[ip + 13] == 0x18)
  {
    assert Get16(pkt, 2) == pkt[2] as int * 0x100 + pkt[3] as int;
    assert Get16(pkt, 4) == pkt[4] as int * 0x100 + pkt[5] as int;
  }

  /** Packets whose compared bytes are the same are of one flow. */
  lemma AlikeSameFlow(first: Bytes, pkt: Bytes, key: FlowKey, thLen: nat, size: nat, h: nat)
    requires Whole(first, key.tcp, key.isV6, thLen, size) && Whole(pkt, key.tcp, key.isV6, thLen, size)
    requires Shaped(first, key.tcp, key.isV6) && NewFlowKey(first, key.tcp, key.isV6) == key
    requires h == IphLen(key.isV6) + thLen && Alike(first, pkt, key, h)
    ensures Shaped(pkt, key.tcp, key.isV6) && NewFlowKey(pkt, key.tcp, key.isV6) == key
  {
    var at, size, ip := SrcAddrAt(key.isV6), AddrSize(key.isV6), IphLen(key.isV6);
    assert forall k :: at <= k < at + 2 * size ==> Compared(key, k) && first[k] == pkt[k];
    assert pkt[at..at + size] == first[at..at + size];
    assert pkt[at + size..at + 2 * size] == first[at + size..at + 2 * size];
    SameField(first, pkt, key, h, ip, ip + 2);
    SameField(first, pkt, key, h, ip + 2, ip + 4);
    if key.tcp {
      SameField(first, pkt, key, h, ip + 8, ip + 12);
    }
  }

  lemma SameField(first: Bytes, pkt: Bytes, key: FlowKey, h: nat, at: nat, end: nat)
    requires Alike(first, pkt, key, h) && at <= end <= h && forall k :: at <= k < end ==> Compared(key, k)
    ensures pkt[at..end] == first[at..end]
  {
    forall k | at <= k < end
      ensures pkt[k] == first[k]
    {
    }
  }

  // ---------------------------------------------------------------------------------------------
  // Trains
  // ---------------------------------------------------------------------------------------------

  /** Packet i of the train: like the first one in every byte that is compared, of the same size, with a right
      checksum. */
  ghost predicate CarAt(start: Bufs, key: FlowKey, thLen: nat, size: nat, i: nat)
    requires i < |start|
  {
    && Whole(start[i].pkt, key.tcp, key.isV6, thLen, size)
    && Alike(start[0].pkt, start[i].pkt, key, IphLen(key.isV6) + thLen) && RightSum(start[i].pkt, key)
  }

  ghost predicate Cars(start: Bufs, key: FlowKey, thLen: nat, size: nat) {
    && start != [] && Rooms(start)
    && (forall i: nat {:trigger CarAt(start, key, thLen, size, i)} :: i < |start| ==> CarAt(start, key, thLen, size, i))
    && Shaped(start[0].pkt, key.tcp, key.isV6) && NewFlowKey(start[0].pkt, key.tcp, key.isV6) == key
  }

  /** What the packet says of itself, in the terms of the parser. */
  lemma CarAdmitted(start: Bufs, key: FlowKey, thLen: nat, size: nat, i: nat)
    requires Cars(start, key, thLen, size) && i < |start|
    ensures CarAt(start, key, thLen, size, i) && Admitted(start[i].pkt, key) && 0 < size <= 0xffff
    ensures var pkt, ip := start[i].pkt, IphLen(key.isV6);
      && |pkt| == ip + thLen + size <= 0xffff && (if key.tcp then 20 <= thLen <= 60 else thLen == 8)
      && Shaped(pkt, key.tcp, key.isV6) && (key.isV6 <==> pkt[0] / 16 == 6)
      && InfoOf(pkt, key) == Info(thLen, size, if key.tcp then Get32(pkt, ip + 4) else 0, key.tcp && pkt[ip + 13] == 0x18)
  {
    assert CarAt(start, key, thLen, size, i) && CarAt(start, key, thLen, size, 0);
    AlikeSameFlow(start[0].pkt, start[i].pkt, key, thLen, size, IphLen(key.isV6) + thLen);
    WholeAdmitted(start[i].pkt, key.tcp, key.isV6, thLen, size);
  }

  /** The packets come in the order of the stream: each one starts where the one before it ends, PSH ends the train, and
      the first buffer has room for all. */
  ghost predicate Forward(start: Bufs, key: FlowKey, thLen: nat, size: nat) {
    && Cars(start, key, thLen, size) && IphLen(key.isV6) + thLen + |start| * size <= start[0].room
    && (key.tcp ==> forall i: nat {:trigger FollowsAt(start, key, size, i)} :: i < |start| ==> FollowsAt(start, key, size, i))
  }

  ghost predicate FollowsAt(start: Bufs, key: FlowKey, size: nat, i: nat)
    requires i < |start|
  {
    var first, pkt, at := start[0].pkt, start[i].pkt, IphLen(key.isV6) + 4;
    && at + 10 <= |pkt| && at + 4 <= |first|
    && Get32(pkt, at) == SeqPlus(Get32(first, at), i * size)
    && (i + 1 < |start| ==> pkt[at + 9] == 0x10)
  }

  /** The payloads of the first k packets. */
  function Loads(start: Bufs, h: nat, k: nat): Bytes
    requires k <= |start|
  {
    if k == 0 then [] else Loads(start, h, k - 1) + (if h <= |start[k - 1].pkt| then start[k - 1].pkt[h..] else [])
  }

  lemma {:induction false} LoadsLength(start: Bufs, key: FlowKey, thLen: nat, size: nat, k: nat)
    requires Cars(start, key, thLen, size) && k <= |start|
    ensures |Loads(start, IphLen(key.isV6) + thLen, k)| == k * size
  {
    if k > 0 {
      LoadsLength(start, key, thLen, size, k - 1);
      assert CarAt(start, key, thLen, size, k - 1);
      OnceMore(k, size);
    }
  }

  /** The buffer of the item after k packets: the headers of the first one, and the payloads of all. */
  ghost predicate Gathers(buf: Buf, start: Bufs, key: FlowKey, h: nat, k: nat)
    requires 0 < k <= |start|
  {
    var first := start[0];
    && h <= |buf.pkt| && h <= |first.pkt| && buf.room == first.room && buf.pkt[h..] == Loads(start, h, k)
    && SameHeader(buf.pkt, first.pkt, key, h) && (k == 1 ==> buf == first)
  }

  /** The run after k packets of the train, which are all in one item. */
  ghost predicate Pulled(r: Run, start: Bufs, t: Item, h: nat, k: nat)
    requires 0 < k <= |start|
  {
    && |r.bufs| == |start| && Gathers(r.bufs[0], start, t.key, h, k)
    && (forall i :: 0 < i < |start| ==> r.bufs[i] == start[i])
    && r.parts == Nothing(|start|)[0 := UpTo(k)] && r.done == Done({}, {})
    && r.tcp == (if t.key.tcp then map[t.key := [t]] else map[]) && r.udp == if t.key.tcp then map[] else map[t.key := [t]]
  }

  lemma TimesAtLeast(n: nat, size: nat, k: nat)
    requires 0 < size && k <= n
    ensures n <= n * size && k * size <= n * size
  {
  }

  /** The headers in the buffer pass the tests. */
  lemma TrainHeaders(first: Bytes, pkt: Bytes, buf: Bytes, key: FlowKey, h: nat)
    requires Alike(first, pkt, key, h) && SameHeader(buf, first, key, h) && h >= 28 && (key.isV6 <==> pkt[0] / 16 == 6)
    requires key.isV6 ==> h >= 40
    ensures IpHeadersCanCoalesce(pkt, buf)
  {
    if key.isV6 {
      SameTested(first, pkt, buf, key, h, 0);
      SameTested(first, pkt, buf, key, h, 7);
      assert !Volatile(key, 1) && buf[1] == first[1];
    } else {
      SameTested(first, pkt, buf, key, h, 1);
      SameTested(first, pkt, buf, key, h, 6);
      SameTested(first, pkt, buf, key, h, 8);
    }
  }

  lemma SameTested(first: Bytes, pkt: Bytes, buf: Bytes, key: FlowKey, h: nat, j: nat)
    requires Alike(first, pkt, key, h) && SameHeader(buf, first, key, h)
    requires j < h && Compared(key, j) && !Volatile(key, j) && !(key.tcp && j == FlagsAt(key))
    ensures pkt[j] == buf[j]
  {
    assert first[j] == pkt[j];
  }

  lemma TrainOptions(first: Bytes, pkt: Bytes, buf: Bytes, key: FlowKey, h: nat)
    requires Alike(first, pkt, key, h) && SameHeader(buf, first, key, h) && key.tcp && IphLen(key.isV6) + 20 <= h
    ensures pkt[IphLen(key.isV6) + 20..h] == buf[IphLen(key.isV6) + 20..h]
  {
    var at := IphLen(key.isV6) + 20;
    forall j | at <= j < h
      ensures pkt[j] == buf[j]
    {
      SameTested(first, pkt, buf, key, h, j);
    }
  }

  lemma LhsIs(size: uint16, k: nat)
    requires 0 < k <= 0xffff && k * size <= 0xffff
    ensures LhsLen(size, k - 1) == k * size
  {
    OnceMore(k, size);
  }

  lemma TcpAppends(pkt: Bytes, info: Info, t: Item, target: Bytes)
    requires t.gsoSize > 0 && t.HeadersLen() <= |target| && t.IpLen() + info.thLen <= |pkt| && 20 <= info.thLen == t.thLen
    requires pkt[t.IpLen() + 20..t.HeadersLen()] == target[t.IpLen() + 20..t.HeadersLen()]
    requires IpHeadersCanCoalesce(pkt, target) && !t.pshSet && info.gsoSize <= t.gsoSize
    requires info.sentSeq == SeqPlus(t.sentSeq, LhsLen(t.gsoSize, t.numMerged))
    requires (|target| - t.HeadersLen()) % t.gsoSize == 0
    ensures TcpPacketsCanCoalesce(pkt, info, t, target) == Append
  {
  }

  lemma TrainPieces(buf: Buf, start: Bufs, key: FlowKey, thLen: nat, size: nat, k: nat)
    requires Cars(start, key, thLen, size) && 0 < k <= |start| && size > 0
    requires Gathers(buf, start, key, IphLen(key.isV6) + thLen, k)
    ensures |buf.pkt| - IphLen(key.isV6) - thLen == k * size && (|buf.pkt| - IphLen(key.isV6) - thLen) % size == 0
  {
    var h := IphLen(key.isV6) + thLen;
    LoadsLength(start, key, thLen, size, k);
    assert |buf.pkt[h..]| == |buf.pkt| - h;
    RemainderUnique(|buf.pkt| - h, size, k, 0);
  }

  /** What the tests look at. */
  lemma TrainFacts(buf: Buf, start: Bufs, key: FlowKey, thLen: nat, size: nat, k: nat)
    requires Cars(start, key, thLen, size) && 0 < k < |start| && Gathers(buf, start, key, IphLen(key.isV6) + thLen, k)
    ensures var h, pkt := IphLen(key.isV6) + thLen, start[k].pkt;
      && h <= |pkt| && size > 0 && |buf.pkt| == h + k * size && (|buf.pkt| - h) % size == 0
      && IpHeadersCanCoalesce(pkt, buf.pkt)
      && (key.tcp ==> IphLen(key.isV6) + 20 <= h && pkt[IphLen(key.isV6) + 20..h] == buf.pkt[IphLen(key.isV6) + 20..h])
  {
    var h := IphLen(key.isV6) + thLen;
    CarAdmitted(start, key, thLen, size, k);
    TrainHeaders(start[0].pkt, start[k].pkt, buf.pkt, key, h);
    TrainPieces(buf, start, key, thLen, size, k);
    if key.tcp {
      TrainOptions(start[0].pkt, start[k].pkt, buf.pkt, key, h);
    }
  }

  /** The packet may join the item. */
  lemma TrainCan(buf: Buf, pkt: Bytes, t: Item, info: Info, size: uint16, k: nat)
    requires 0 < k <= 0xffff && k * size <= 0xffff && t.gsoSize == size > 0 && t.numMerged == k - 1
    requires info.thLen == t.thLen && info.gsoSize == size && t.HeadersLen() <= |pkt| && t.HeadersLen() <= |buf.pkt|
    requires IpHeadersCanCoalesce(pkt, buf.pkt) && (|buf.pkt| - t.HeadersLen()) % size == 0
    requires t.key.tcp ==>
      && t.thLen >= 20 && pkt[t.IpLen() + 20..t.HeadersLen()] == buf.pkt[t.IpLen() + 20..t.HeadersLen()]
      && info.sentSeq == SeqPlus(t.sentSeq, k * size) && !t.pshSet
    ensures if t.key.tcp then TcpPacketsCanCoalesce(pkt, info, t, buf.pkt) == Append
            else UdpPacketsCanCoalesce(pkt, info, t, buf.pkt) == Append
  {
    LhsIs(size, k);
    if t.key.tcp {
      TcpAppends(pkt, info, t, buf.pkt);
    }
  }

  lemma LoadsMore(start: Bufs, h: nat, k: nat)
    requires k < |start| && h <= |start[k].pkt|
    ensures Loads(start, h, k + 1) == Loads(start, h, k) + start[k].pkt[h..]
  {
  }

  lemma PartsMore(n: nat, k: nat)
    requires 0 < k < n
    ensures var parts: Parts := Nothing(n)[0 := UpTo(k)];
      parts[0 := MergedPart(Append, parts[0], k)] == Nothing(n)[0 := UpTo(k + 1)]
  {
  }

  /** The merge of packet k. */
  lemma TrainBuffer(was: Buf, start: Bufs, key: FlowKey, h: nat, k: nat, t: Item, info: Info, now: Buf)
    requires 0 < k < |start| && Gathers(was, start, key, h, k) && h <= |start[k].pkt|
    requires t.key == key && t.HeadersLen() == h < |was.pkt| && (key.tcp ==> t.thLen >= 20)
    requires now == was.(pkt := MergedPacket(Append, info, t, was.pkt, start[k].pkt))
    ensures Gathers(now, start, key, h, k + 1)
  {
    AppendTail(t, info, was, start[k].pkt, now);
    LoadsMore(start, h, k);
    assert h <= |now.pkt|;
  }

  lemma TrainTable(key: FlowKey, size: uint16, thLen: nat, seq0: uint32, k: nat, t: Item, info: Info, psh: bool)
    requires 0 < k < 0xffff && t == Item(key, 0, k - 1, size, thLen, seq0, false, false)
    requires info.gsoSize == size && info.pshSet == psh
    ensures Merged(Append, info, t) == Item(key, 0, k, size, thLen, seq0, psh, false)
    ensures var m: Flows := map[key := [t]];
      m[key := m[key][0 := Merged(Append, info, t)]] == map[key := [Item(key, 0, k, size, thLen, seq0, psh, false)]]
  {
    TableOfOne(key, t, Merged(Append, info, t));
  }

  lemma TableOfOne(key: FlowKey, t: Item, u: Item)
    ensures var m: Flows := map[key := [t]];
      m[key := m[key][0 := u]] == map[key := [u]]
  {
    assert [t][0 := u] == [u];
  }

  lemma TrainMergeable(buf: Buf, mine: Buf, t: Item, info: Info)
    requires t.gsoSize > 0 && t.numMerged < 0xffff && info.thLen == t.thLen && info.gsoSize == t.gsoSize
    requires if t.key.tcp then t.thLen >= 20 else t.thLen == 8 && !info.pshSet
    requires t.HeadersLen() < |buf.pkt| && t.HeadersLen() < |mine.pkt| && Shaped(mine.pkt, t.key.tcp, t.key.isV6)
    requires !t.key.isV6 ==> buf.pkt[0] == mine.pkt[0]
    ensures Mergeable(info, t, buf, mine)
  {
  }

  lemma TrainVerdict(bufs: Bufs, t: Item, info: Info, k: nat)
    requires 0 < k < |bufs| && t.bufsIndex == 0 && Mergeable(info, t, bufs[0], bufs[k]) && !t.cSumKnownInvalid
    requires CoalescedLen(t, bufs[0], bufs[k]) <= bufs[0].room && RightSum(bufs[k].pkt, t.key)
    requires t.numMerged == 0 ==> RightSum(bufs[0].pkt, t.key)
    requires if t.key.tcp then TcpPacketsCanCoalesce(bufs[k].pkt, info, t, bufs[0].pkt) == Append
             else UdpPacketsCanCoalesce(bufs[k].pkt, info, t, bufs[0].pkt) == Append
    ensures t.key.tcp ==> TcpCan(t, info, bufs, k) == Append && TcpVerdict(t, info, bufs, k) == Success
    ensures !t.key.tcp ==> UdpVerdict(t, info, bufs, k) == Success
  {
  }

  lemma TrainRoom(n: nat, size: uint16, k: nat, h: nat, room: nat)
    requires 0 < size && k < n && h + n * size <= room <= 0xffff
    ensures n <= 0xffff && k * size <= 0xffff && (h + k * size) + size <= room
  {
    TimesAtLeast(n, size, k);
    TimesAtLeast(n, size, k + 1);
    OnceMore(k + 1, size);
  }

  /** The packet of the turn may join the item. */
  lemma TrainJoins(buf: Buf, start: Bufs, key: FlowKey, thLen: nat, size: uint16, k: nat, t: Item, info: Info)
    requires Forward(start, key, thLen, size) && 0 < k < |start| && k <= 0xffff && k * size <= 0xffff
    requires t == ItemAfter(start, key, thLen, size, k) && Admitted(start[k].pkt, key) && info == InfoOf(start[k].pkt, key)
    requires Gathers(buf, start, key, IphLen(key.isV6) + thLen, k) && info.thLen == thLen && size > 0
    requires IphLen(key.isV6) + thLen <= |start[k].pkt|
    ensures if key.tcp then TcpPacketsCanCoalesce(start[k].pkt, info, t, buf.pkt) == Append
            else UdpPacketsCanCoalesce(start[k].pkt, info, t, buf.pkt) == Append
    ensures !t.pshSet
  {
    CarAdmitted(start, key, thLen, size, k);
    TrainFacts(buf, start, key, thLen, size, k);
    if key.tcp {
      assert FollowsAt(start, key, size, k) && FollowsAt(start, key, size, k - 1);
    }
    TrainCan(buf, start[k].pkt, t, info, size, k);
  }

  /** And it does. */
  lemma TrainMerges(bufs: Bufs, start: Bufs, key: FlowKey, thLen: nat, size: uint16, k: nat, t: Item, info: Info)
    requires Forward(start, key, thLen, size) && 0 < k < |start| == |bufs| && bufs[k] == start[k] && k <= 0x1_0000
    requires t == ItemAfter(start, key, thLen, size, k) && Admitted(start[k].pkt, key) && info == InfoOf(start[k].pkt, key)
    requires Gathers(bufs[0], start, key, IphLen(key.isV6) + thLen, k)
    ensures |start| <= 0xffff && Mergeable(info, t, bufs[0], bufs[k]) && !t.pshSet
    ensures key.tcp ==> TcpCan(t, info, bufs, k) == Append && TcpVerdict(t, info, bufs, k) == Success
    ensures !key.tcp ==> UdpVerdict(t, info, bufs, k) == Success
  {
    CarAdmitted(start, key, thLen, size, k);
    CarAdmitted(start, key, thLen, size, 0);
    TrainRoom(|start|, size, k, IphLen(key.isV6) + thLen, start[0].room);
    TrainJoins(bufs[0], start, key, thLen, size, k, t, info);
    TrainPieces(bufs[0], start, key, thLen, size, k);
    assert !Volatile(key, 0) && bufs[0].pkt[0] == start[0].pkt[0];
    TimesAtLeast(k, size, 1);
    TrainMergeable(bufs[0], bufs[k], t, info);
    TrainVerdict(bufs, t, info, k);
  }

  /** The item after k packets.  It has PSH set if the last one has. */
  ghost function ItemAfter(start: Bufs, key: FlowKey, thLen: nat, size: uint16, k: nat): Item
    requires 0 < k <= |start| && k <= 0x1_0000
  {
    var at := IphLen(key.isV6) + 4;
    Item(key, 0, k - 1, size, thLen, if key.tcp && at + 4 <= |start[0].pkt| then Get32(start[0].pkt, at) else 0,
         key.tcp && at + 9 < |start[k - 1].pkt| && start[k - 1].pkt[at + 9] == 0x18, false)
  }

  ghost predicate Moved(s: Step, start: Bufs, u: Item, h: nat, k: nat) {
    && 0 < k <= |start| == |s.bufs| && Gathers(s.bufs[0], start, u.key, h, k)
    && (forall i :: 0 < i < |start| ==> s.bufs[i] == start[i])
    && s.parts == Nothing(|start|)[0 := UpTo(k)] && s.table == map[u.key := [u]]
  }

  /** What a merge into the only item leaves. */
  lemma TrainStep(r: Run, start: Bufs, key: FlowKey, thLen: nat, size: uint16, k: nat, t: Item, info: Info, s: Step)
    requires 0 < k < |start| <= 0xffff && t == ItemAfter(start, key, thLen, size, k) && !t.pshSet && info.gsoSize == size
    requires Pulled(r, start, t, t.HeadersLen(), k) && t.HeadersLen() <= |start[k].pkt| && (key.tcp ==> thLen >= 20)
    requires info.pshSet == ItemAfter(start, key, thLen, size, k + 1).pshSet
    requires Mergeable(info, t, r.bufs[0], r.bufs[k])
    requires s == MergeStep(Append, info, key, 0, r.bufs, r.parts, map[key := [t]], k, {})
    ensures Moved(s, start, ItemAfter(start, key, thLen, size, k + 1), IphLen(key.isV6) + thLen, k + 1)
  {
    TrainBuffer(r.bufs[0], start, key, t.HeadersLen(), k, t, info, s.bufs[0]);
    PartsMore(|start|, k);
    TrainTable(key, size, thLen, t.sentSeq, k, t, info, info.pshSet);
  }

  lemma TcpTurn(r: Run, start: Bufs, key: FlowKey, thLen: nat, size: uint16, k: nat, canUDPGRO: bool, t: Item, info: Info)
    returns (s: Step)
    requires Forward(start, key, thLen, size) && 0 < k < |start| <= 0xffff && key.tcp
    requires t == ItemAfter(start, key, thLen, size, k) && Pulled(r, start, t, IphLen(key.isV6) + thLen, k)
    requires Admitted(start[k].pkt, key) && info == InfoOf(start[k].pkt, key)
    ensures Mergeable(info, t, r.bufs[0], r.bufs[k]) && !t.pshSet && |r.parts| == |start|
    ensures s == MergeStep(Append, info, key, 0, r.bufs, r.parts, map[key := [t]], k, {})
    ensures Next(r, k, canUDPGRO) == Run(s.bufs, s.parts, s.table, r.udp, r.done)
  {
    TrainMerges(r.bufs, start, key, thLen, size, k, t, info);
    s := MergeStep(Append, info, key, 0, r.bufs, r.parts, map[key := [t]], k, {});
    TcpTakes(r.bufs, r.parts, map[key := [t]], key, info, k, t);
    TcpNext(r, k, canUDPGRO, key);
    NoneGone(r.done, Coalesced, k);
  }

  lemma UdpTurn(r: Run, start: Bufs, key: FlowKey, thLen: nat, size: uint16, k: nat, t: Item, info: Info) returns (s: Step)
    requires Forward(start, key, thLen, size) && 0 < k < |start| <= 0xffff && !key.tcp
    requires t == ItemAfter(start, key, thLen, size, k) && Pulled(r, start, t, IphLen(key.isV6) + thLen, k)
    requires Admitted(start[k].pkt, key) && info == InfoOf(start[k].pkt, key)
    ensures Mergeable(info, t, r.bufs[0], r.bufs[k]) && !t.pshSet && |r.parts| == |start|
    ensures s == MergeStep(Append, info, key, 0, r.bufs, r.parts, map[key := [t]], k, {})
    ensures Next(r, k, true) == Run(s.bufs, s.parts, r.tcp, s.table, r.done)
  {
    TrainMerges(r.bufs, start, key, thLen, size, k, t, info);
    s := MergeStep(Append, info, key, 0, r.bufs, r.parts, map[key := [t]], k, {});
    UdpNext(r, k, key);
    NoneGone(r.done, Coalesced, k);
  }

  /** The run after the merge. */
  lemma TrainPulled(s: Step, start: Bufs, u: Item, h: nat, k: nat, r: Run)
    requires Moved(s, start, u, h, k)
    requires r == if u.key.tcp then Run(s.bufs, s.parts, s.table, map[], Done({}, {}))
                  else Run(s.bufs, s.parts, map[], s.table, Done({}, {}))
    ensures Pulled(r, start, u, h, k)
  {
  }

  lemma TrainGoesOn(r: Run, start: Bufs, key: FlowKey, thLen: nat, size: uint16, k: nat, t: Item, info: Info, s: Step,
                    r': Run)
    requires 0 < k < |start| <= 0xffff && t == ItemAfter(start, key, thLen, size, k) && !t.pshSet && info.gsoSize == size
    requires Pulled(r, start, t, IphLen(key.isV6) + thLen, k) && IphLen(key.isV6) + thLen <= |start[k].pkt| && (key.tcp ==> thLen >= 20)
    requires info.pshSet == ItemAfter(start, key, thLen, size, k + 1).pshSet
    requires Mergeable(info, t, r.bufs[0], r.bufs[k])
    requires s == MergeStep(Append, info, key, 0, r.bufs, r.parts, map[key := [t]], k, {})
    requires r' == if key.tcp then Run(s.bufs, s.parts, s.table, r.udp, r.done)
                   else Run(s.bufs, s.parts, r.tcp, s.table, r.done)
    ensures Pulled(r', start, ItemAfter(start, key, thLen, size, k + 1), IphLen(key.isV6) + thLen, k + 1)
  {
    TrainStep(r, start, key, thLen, size, k, t, info, s);
    TrainPulled(s, start, ItemAfter(start, key, thLen, size, k + 1), IphLen(key.isV6) + thLen, k + 1, r');
  }

  lemma TrainTurn(r: Run, start: Bufs, key: FlowKey, thLen: nat, size: uint16, k: nat, canUDPGRO: bool, t: Item)
    requires Forward(start, key, thLen, size) && 0 < k < |start| <= 0xffff && (key.tcp || canUDPGRO)
    requires t == ItemAfter(start, key, thLen, size, k) && Pulled(r, start, t, IphLen(key.isV6) + thLen, k)
    ensures |r.bufs| == |r.parts| == |start|
    ensures Pulled(Next(r, k, canUDPGRO), start, ItemAfter(start, key, thLen, size, k + 1), IphLen(key.isV6) + thLen, k + 1)
  {
    var info := TurnInfo(r, start, key, thLen, size, k);
    var s := TurnStep(r, start, key, thLen, size, k, canUDPGRO, t, info);
    TrainGoesOn(r, start, key, thLen, size, k, t, info, s, Next(r, k, canUDPGRO));
  }

  lemma TurnStep(r: Run, start: Bufs, key: FlowKey, thLen: nat, size: uint16, k: nat, canUDPGRO: bool, t: Item, info: Info)
    returns (s: Step)
    requires Forward(start, key, thLen, size) && 0 < k < |start| <= 0xffff && (key.tcp || canUDPGRO)
    requires t == ItemAfter(start, key, thLen, size, k) && Pulled(r, start, t, IphLen(key.isV6) + thLen, k)
    requires Admitted(start[k].pkt, key) && info == InfoOf(start[k].pkt, key)
    ensures Mergeable(info, t, r.bufs[0], r.bufs[k]) && !t.pshSet && |r.parts| == |start|
    ensures s == MergeStep(Append, info, key, 0, r.bufs, r.parts, map[key := [t]], k, {})
    ensures Next(r, k, canUDPGRO) == if key.tcp then Run(s.bufs, s.parts, s.table, r.udp, r.done)
                                     else Run(s.bufs, s.parts, r.tcp, s.table, r.done)
  {
    if key.tcp {
      s := TcpTurn(r, start, key, thLen, size, k, canUDPGRO, t, info);
    } else {
      s := UdpTurn(r, start, key, thLen, size, k, t, info);
    }
  }

  lemma TurnInfo(r: Run, start: Bufs, key: FlowKey, thLen: nat, size: uint16, k: nat) returns (info: Info)
    requires Forward(start, key, thLen, size) && 0 < k < |start| && k <= 0xffff
    requires |r.bufs| == |start| && r.bufs[k] == start[k]
    ensures Admitted(start[k].pkt, key) && info == InfoOf(start[k].pkt, key)
    ensures info.gsoSize == size && info.pshSet == ItemAfter(start, key, thLen, size, k + 1).pshSet
    ensures info.thLen == thLen && IphLen(key.isV6) + thLen <= |start[k].pkt| && (key.tcp ==> thLen >= 20)
  {
    CarAdmitted(start, key, thLen, size, k);
    info := InfoOf(start[k].pkt, key);
  }

  lemma TrainStarts(start: Bufs, key: FlowKey, thLen: nat, size: uint16, canUDPGRO: bool)
    requires Forward(start, key, thLen, size) && (key.tcp || canUDPGRO)
    ensures Pulled(After(start, canUDPGRO, 1), start, ItemAfter(start, key, thLen, size, 1), IphLen(key.isV6) + thLen, 1)
  {
    var r0 := Run(start, Nothing(|start|), map[], map[], Done({}, {}));
    CarAdmitted(start, key, thLen, size, 0);
    var info := InfoOf(start[0].pkt, key);
    NoneGone(r0.done, TableInsert, 0);
    assert UpTo(1) == [0];
    FirstLoad(start, IphLen(key.isV6) + thLen);
    if key.tcp {
      TcpNext(r0, 0, canUDPGRO, key);
      TcpStarts(start, r0.parts, map[], key, info, 0);
    } else {
      UdpNext(r0, 0, key);
      UdpStarts(start, r0.parts, map[], key, info, 0);
    }
  }

  lemma FirstLoad(start: Bufs, h: nat)
    requires start != [] && h <= |start[0].pkt|
    ensures Loads(start, h, 1) == start[0].pkt[h..]
  {
    assert Loads(start, h, 1) == Loads(start, h, 0) + start[0].pkt[h..];
  }

  lemma {:induction false} TrainRun(start: Bufs, key: FlowKey, thLen: nat, size: uint16, canUDPGRO: bool, k: nat)
    requires Forward(start, key, thLen, size) && (key.tcp || canUDPGRO) && 0 < k <= |start| <= 0xffff
    ensures Pulled(After(start, canUDPGRO, k), start, ItemAfter(start, key, thLen, size, k), IphLen(key.isV6) + thLen, k)
  {
    if k == 1 {
      TrainStarts(start, key, thLen, size, canUDPGRO);
    } else {
      TrainRun(start, key, thLen, size, canUDPGRO, k - 1);
      TrainTurn(After(start, canUDPGRO, k - 1), start, key, thLen, size, k - 1, canUDPGRO,
                ItemAfter(start, key, thLen, size, k - 1));
    }
  }

  /** A train ends up in its first buffer: all packets in order, and their payloads one behind the other. */
  lemma TrainMerged(start: Bufs, key: FlowKey, thLen: nat, size: uint16, canUDPGRO: bool)
    requires Forward(start, key, thLen, size) && (key.tcp || canUDPGRO)
    ensures var r, h := After(start, canUDPGRO, |start|), IphLen(key.isV6) + thLen;
      && r.parts == Nothing(|start|)[0 := UpTo(|start|)]
      && h <= |r.bufs[0].pkt| && r.bufs[0].pkt[h..] == Loads(start, h, |start|)
  {
    CarAdmitted(start, key, thLen, size, 0);
    TrainRoom(|start|, size, 0, IphLen(key.isV6) + thLen, start[0].room);
    TrainRun(start, key, thLen, size, canUDPGRO, |start|);
  }

  /** So only the first buffer is written. */
  lemma TrainWritten(n: nat, toWrite: seq<nat>)
    requires n > 0 && Writes(toWrite, Nothing(n)[0 := UpTo(n)], n)
    ensures toWrite == [0]
  {
    var parts: Parts := Nothing(n)[0 := UpTo(n)];
    assert parts[0] == UpTo(n - 1) + [n - 1];
    assert 0 in toWrite;
    forall i | 0 <= i < |toWrite|
      ensures toWrite[i] == 0
    {
      assert toWrite[i] in toWrite && parts[toWrite[i]] != [];
    }
    OnlyOne(toWrite, n);
  }

  lemma OnlyOne(s: seq<nat>, n: nat)
    requires Ascending(s, n) && s != [] && forall i :: 0 <= i < |s| ==> s[i] == 0
    ensures s == [0]
  {
    LastAtLeast(s, n);
  }

  lemma {:induction false} LastAtLeast(s: seq<nat>, n: nat)
    requires Ascending(s, n) && s != []
    ensures s[|s| - 1] >= |s| - 1
  {
    if |s| > 1 {
      LastAtLeast(s[..|s| - 1], n);
      assert s[|s| - 2] < s[|s| - 1];
    }
  }
}
