/** What receive offload in tun/offload_linux.go keeps about merged packets, and what merging does to it.

    The source has an item type each for TCP and UDP; here they are one type, and the flow key tells the
    protocol. */
module GroItems {
  import opened Words
  import opened Chunks
  import opened Headers
  import opened GroPackets
  import opened Gso

  /** What the virtio header in front of a packet says. */
  datatype Vnet = Unset | NoOffload | Partial(hdr: VirtioNetHdr)

  /** A buffer from the packet on.  `room` is the capacity that merging counts on. */
  datatype Buf = Buf(pkt: Bytes, room: nat, vnet: Vnet)

  type Bufs = seq<Buf>

  /** `parts[b]` are the positions of the packets whose payloads are now in buffer b, in order. */
  type Parts = seq<seq<nat>>

  // ---------------------------------------------------------------------------------------------
  // Packets of a flow
  // ---------------------------------------------------------------------------------------------

  ghost predicate InFlow(pkt: Bytes, key: FlowKey) {
    && PacketIsGROCandidate(pkt, true) == (if key.tcp then TcpCandidate(key.isV6) else UdpCandidate(key.isV6))
    && Shaped(pkt, key.tcp, key.isV6) && NewFlowKey(pkt, key.tcp, key.isV6) == key
  }

  /** A packet of the flow that the parser does not turn down. */
  ghost predicate Admitted(pkt: Bytes, key: FlowKey) {
    InFlow(pkt, key) && Parse(pkt, key.tcp, key.isV6).Some?
  }

  ghost function InfoOf(pkt: Bytes, key: FlowKey): Info
    requires Admitted(pkt, key)
  {
    Parse(pkt, key.tcp, key.isV6).value
  }

  /** A packet is in one flow at most. */
  lemma KeyUnique(pkt: Bytes, a: FlowKey, b: FlowKey)
    requires InFlow(pkt, a) && InFlow(pkt, b)
    ensures a == b
  {
  }

  lemma KeyApart(pkt: Bytes, a: FlowKey, b: FlowKey)
    requires InFlow(pkt, a) && a != b
    ensures !InFlow(pkt, b)
  {
  }

  /** The transport checksum of the packet is right. */
  ghost predicate RightSum(pkt: Bytes, key: FlowKey) {
    && Shaped(pkt, key.tcp, key.isV6)
    && TransportSumsUp(pkt, IphLen(key.isV6), if key.tcp then IPPROTO_TCP else IPPROTO_UDP, key.isV6)
  }

  /** Where the flags of a TCP packet are. */
  function FlagsAt(key: FlowKey): nat {
    IphLen(key.isV6) + TCP_FLAGS_OFFSET
  }

  /** The flags of a TCP packet that is admitted. */
  function Flags(psh: bool): byte {
    if psh then TCP_FLAG_ACK + TCP_FLAG_PSH else TCP_FLAG_ACK
  }

  predicate FlagsAre(pkt: Bytes, key: FlowKey, psh: bool) {
    FlagsAt(key) < |pkt| && pkt[FlagsAt(key)] == Flags(psh)
  }

  lemma AdmittedFlags(pkt: Bytes, key: FlowKey)
    requires Admitted(pkt, key) && key.tcp
    ensures FlagsAre(pkt, key, InfoOf(pkt, key).pshSet)
  {
  }

  lemma AdmittedLengths(pkt: Bytes, key: FlowKey)
    requires Admitted(pkt, key)
    ensures var info := InfoOf(pkt, key);
      && |pkt| == IphLen(key.isV6) + info.thLen + info.gsoSize <= 0xffff && info.gsoSize > 0
      && (if key.tcp then 20 <= info.thLen <= 60 else info.thLen == 8)
  {
  }

  /** The bytes of the headers that depend on the length: lengths and checksums. */
  predicate Volatile(key: FlowKey, k: int) {
    var th := k - IphLen(key.isV6);
    || (if key.isV6 then 4 <= k < 6 else 2 <= k < 4 || 10 <= k < 12)
    || (if key.tcp then 16 <= th < 18 else 4 <= th < 8)
  }

  /** The headers are the same but for such bytes and the TCP flags. */
  ghost predicate SameHeader(x: Bytes, y: Bytes, key: FlowKey, h: nat) {
    && h <= |x| && h <= |y|
    && forall k :: 0 <= k < h && !Volatile(key, k) && !(key.tcp && k == FlagsAt(key)) ==> x[k] == y[k]
  }

  /** The header bytes in which packets must agree to be merged. */
  predicate Compared(key: FlowKey, k: int) {
    var th := k - IphLen(key.isV6);
    || (if key.isV6 then k == 0 || 6 <= k < 40 else 0 <= k < 2 || 6 <= k < 10 || 12 <= k < 20)
    || (if key.tcp then 0 <= th < 4 || 8 <= th < 12 || 20 <= th else 0 <= th < 4)
  }

  /** They agree in these, and over IPv6 in the first half of the traffic class. */
  ghost predicate Alike(x: Bytes, y: Bytes, key: FlowKey, h: nat) {
    && IphLen(key.isV6) <= h <= |x| && h <= |y|
    && (forall k :: 0 <= k < h && Compared(key, k) ==> x[k] == y[k]) && (key.isV6 ==> x[1] / 16 == y[1] / 16)
  }

  /** What the tests on the headers of two packets establish. */
  ghost predicate Agreeing(pkt: Bytes, target: Bytes, t: Item) {
    && IpHeadersCanCoalesce(pkt, target) && t.HeadersLen() <= |pkt| && t.HeadersLen() <= |target|
    && (t.key.tcp ==> forall k :: t.IpLen() + 20 <= k < t.HeadersLen() ==> pkt[k] == target[k])
  }

  lemma TcpAgreeing(pkt: Bytes, info: Info, t: Item, target: Bytes)
    requires t.key.tcp && t.gsoSize > 0 && t.HeadersLen() <= |target| && t.IpLen() + info.thLen <= |pkt|
    requires TcpPacketsCanCoalesce(pkt, info, t, target) != Unavailable
    ensures Agreeing(pkt, target, t)
  {
    var ip, h := t.IpLen(), t.HeadersLen();
    forall k | ip + 20 <= k < h
      ensures pkt[k] == target[k]
    {
      SliceAt(pkt, ip + 20, h, k - (ip + 20));
      SliceAt(target, ip + 20, h, k - (ip + 20));
    }
  }

  /** A packet that agrees with what is in the buffer is like the packet whose headers the buffer has. */
  lemma AgreeingAlike(pkt: Bytes, target: Bytes, first: Bytes, t: Item)
    requires Admitted(pkt, t.key) && Admitted(first, t.key)
    requires InfoOf(pkt, t.key).thLen == t.thLen && InfoOf(first, t.key).thLen == t.thLen
    requires SameHeader(target, first, t.key, t.HeadersLen()) && Agreeing(pkt, target, t)
    ensures Alike(first, pkt, t.key, t.HeadersLen())
  {
    forall k | 0 <= k < t.HeadersLen() && Compared(t.key, k)
      ensures first[k] == pkt[k]
    {
      if k < t.IpLen() {
        SameIpByte(pkt, target, first, t, k);
      } else {
        SameTransportByte(pkt, target, first, t, k);
      }
    }
  }

  lemma SameIpByte(pkt: Bytes, target: Bytes, first: Bytes, t: Item, k: nat)
    requires Admitted(pkt, t.key) && Admitted(first, t.key)
    requires SameHeader(target, first, t.key, t.HeadersLen()) && Agreeing(pkt, target, t)
    requires k < t.IpLen() && Compared(t.key, k)
    ensures k < |pkt| && k < |first| && first[k] == pkt[k]
  {
    var at, size := SrcAddrAt(t.key.isV6), AddrSize(t.key.isV6);
    if at <= k < at + size {
      SliceAt(pkt, at, at + size, k - at);
      SliceAt(first, at, at + size, k - at);
    } else if at + size <= k {
      SliceAt(pkt, at + size, at + 2 * size, k - at - size);
      SliceAt(first, at + size, at + 2 * size, k - at - size);
    } else {
      SameTestedByte(pkt, target, first, t, k);
    }
  }

  /** The bytes before the addresses: the tests compare them, or fix them. */
  lemma SameTestedByte(pkt: Bytes, target: Bytes, first: Bytes, t: Item, k: nat)
    requires Admitted(pkt, t.key) && Admitted(first, t.key)
    requires SameHeader(target, first, t.key, t.HeadersLen()) && Agreeing(pkt, target, t)
    requires k < SrcAddrAt(t.key.isV6) && Compared(t.key, k)
    ensures k < |pkt| && k < |first| && first[k] == pkt[k]
  {
    assert !Volatile(t.key, k) && target[k] == first[k];
  }

  lemma SameTransportByte(pkt: Bytes, target: Bytes, first: Bytes, t: Item, k: nat)
    requires Admitted(pkt, t.key) && Admitted(first, t.key)
    requires SameHeader(target, first, t.key, t.HeadersLen()) && Agreeing(pkt, target, t)
    requires t.IpLen() <= k < t.HeadersLen() && Compared(t.key, k)
    ensures k < |pkt| && k < |first| && first[k] == pkt[k]
  {
    var ip := t.IpLen();
    if k >= ip + 20 && t.key.tcp {
      assert !Volatile(t.key, k) && target[k] == first[k];
    } else if k < ip + 4 {
      SamePorts(pkt, first, t.key);
    } else {
      WordOf4(pkt[ip + 8..ip + 12], first[ip + 8..ip + 12]);
      SliceAt(pkt, ip + 8, ip + 12, k - (ip + 8));
      SliceAt(first, ip + 8, ip + 12, k - (ip + 8));
    }
  }

  lemma SamePorts(pkt: Bytes, first: Bytes, key: FlowKey)
    requires InFlow(pkt, key) && InFlow(first, key)
    ensures var ip := IphLen(key.isV6);
      && ip + 4 <= |pkt| && ip + 4 <= |first| && forall k :: ip <= k < ip + 4 ==> first[k] == pkt[k]
  {
    var ip := IphLen(key.isV6);
    WordOf(pkt[ip..ip + 2], first[ip..ip + 2]);
    WordOf(pkt[ip + 2..ip + 4], first[ip + 2..ip + 4]);
    forall k | ip <= k < ip + 4
      ensures first[k] == pkt[k]
    {
      var at := if k < ip + 2 then ip else ip + 2;
      SliceAt(pkt, at, at + 2, k - at);
      SliceAt(first, at, at + 2, k - at);
    }
  }

  lemma WordOf4(x: Bytes, y: Bytes)
    requires |x| == |y| == 4 && BigUint32(x) == BigUint32(y)
    ensures x == y
  {
    assert x[3] == y[3] && x[2] == y[2] && x[1] == y[1] && x[0] == y[0];
  }

  // ---------------------------------------------------------------------------------------------
  // What an item stands for
  // ---------------------------------------------------------------------------------------------

  /** Packet j is number k of the item: same flow, same header length, and k segments after its start. */
  ghost predicate Member(orig: seq<Bytes>, j: nat, t: Item, k: nat) {
    && j < |orig| && Admitted(orig[j], t.key)
    && InfoOf(orig[j], t.key).thLen == t.thLen
    && (t.key.tcp ==> InfoOf(orig[j], t.key).sentSeq == SeqAt(t.sentSeq, t.gsoSize, k))
  }

  /** The sequence number k segments after `first`. */
  function SeqAt(first: uint32, size: nat, k: nat): uint32 {
    if k == 0 then first else (SeqAt(first, size, k - 1) + size) % 0x1_0000_0000
  }

  lemma {:induction false} SeqAtClosed(first: uint32, size: nat, k: nat)
    ensures SeqAt(first, size, k) == (first + k * size) % 0x1_0000_0000
  {
    if k > 0 {
      SeqAtClosed(first, size, k - 1);
      OnceMore(k, size);
      ModAdd(first + (k - 1) * size, size);
    }
  }

  lemma OnceMore(k: nat, size: nat)
    requires k > 0
    ensures k * size == (k - 1) * size + size
  {
  }

  lemma ModAdd(a: nat, b: nat)
    ensures (a % 0x1_0000_0000 + b) % 0x1_0000_0000 == (a + b) % 0x1_0000_0000
  {
  }

  lemma SeqAtEnd(first: uint32, size: uint16, numMerged: uint16, length: nat)
    requires length == (numMerged + 1) * size <= 0xffff
    ensures SeqAt(first, size, numMerged + 1) == (first + LhsLen(size, numMerged)) % 0x1_0000_0000
  {
    SeqAtClosed(first, size, numMerged + 1);
    assert (numMerged + 1) * size == size + numMerged * size;
  }

  lemma {:induction false} SeqAtShifted(first: uint32, size: nat, k: nat)
    requires k > 0
    ensures SeqAt((first + size) % 0x1_0000_0000, size, k - 1) == SeqAt(first, size, k)
  {
    if k > 1 {
      SeqAtShifted(first, size, k - 1);
    }
  }

  function Payload(orig: seq<Bytes>, j: nat, h: nat): Bytes {
    if j < |orig| && h <= |orig[j]| then orig[j][h..] else []
  }

  function Payloads(orig: seq<Bytes>, part: seq<nat>, h: nat): seq<Bytes> {
    seq(|part|, k requires 0 <= k < |part| => Payload(orig, part[k], h))
  }

  /** The item, its buffer and the packet that came in that buffer. */
  ghost predicate ItemShape(t: Item, key: FlowKey, buf: Buf, orig: seq<Bytes>) {
    && t.key == key && t.gsoSize > 0 && t.bufsIndex < |orig| && Admitted(orig[t.bufsIndex], key)
    && t.HeadersLen() < |buf.pkt| <= 0xffff && buf.room <= 0xffff
    && (t.cSumKnownInvalid ==> !RightSum(orig[t.bufsIndex], key))
  }

  /** Cutting the payload of an item at its segment size gives back the payloads of its packets. */
  ghost predicate ItemContents(t: Item, buf: Buf, orig: seq<Bytes>, part: seq<nat>)
    requires t.gsoSize > 0 && t.HeadersLen() <= |buf.pkt|
  {
    && |part| == t.numMerged + 1
    && Cut(buf.pkt[t.HeadersLen()..], t.gsoSize) == Payloads(orig, part, t.HeadersLen())
    && (forall k :: 0 <= k < |part| ==> Member(orig, part[k], t, k))
    && (t.numMerged == 0 ==>
          && part == [t.bufsIndex] && t.bufsIndex < |orig| && buf.pkt == orig[t.bufsIndex]
          && |buf.pkt| == t.HeadersLen() + t.gsoSize)
  }

  /** The headers are those of its first packet.  Only its last packet may have PSH set, and the headers have it
      set if that packet did not come before the first one.  UDP packets are only appended. */
  ghost predicate ItemHeader(t: Item, buf: Buf, orig: seq<Bytes>, part: seq<nat>) {
    && part != [] && part[0] < |orig| && SameHeader(buf.pkt, orig[part[0]], t.key, t.HeadersLen())
    && (t.key.tcp ==>
          && (forall k :: 0 <= k < |part| ==> MemberFlags(orig, part, t, k))
          && FlagsAre(buf.pkt, t.key, t.pshSet && part[0] <= part[|part| - 1]))
    && (!t.key.tcp ==> part[0] == t.bufsIndex)
  }

  /** All packets of an item are like its first one. */
  ghost predicate AllAlike(orig: seq<Bytes>, part: seq<nat>, key: FlowKey, h: nat) {
    part != [] && forall k :: 0 <= k < |part| ==> AlikeAt(orig, part[0], part[k], key, h)
  }

  ghost predicate AlikeAt(orig: seq<Bytes>, i: nat, j: nat, key: FlowKey, h: nat) {
    i < |orig| && j < |orig| && Alike(orig[i], orig[j], key, h)
  }

  ghost predicate MemberFlags(orig: seq<Bytes>, part: seq<nat>, t: Item, k: nat)
    requires k < |part|
  {
    part[k] < |orig| && FlagsAre(orig[part[k]], t.key, t.pshSet && k == |part| - 1)
  }

  /** Only packets with right checksums are merged. */
  ghost predicate RightSums(orig: seq<Bytes>, part: seq<nat>, key: FlowKey) {
    forall k :: 0 <= k < |part| ==> SumAt(orig, part[k], key)
  }

  ghost predicate SumAt(orig: seq<Bytes>, j: nat, key: FlowKey) {
    j < |orig| && RightSum(orig[j], key)
  }

  ghost predicate ItemOk(t: Item, key: FlowKey, buf: Buf, orig: seq<Bytes>, part: seq<nat>) {
    && ItemShape(t, key, buf, orig) && ItemContents(t, buf, orig, part) && ItemHeader(t, buf, orig, part)
    && (t.numMerged > 0 ==> RightSums(orig, part, key)) && AllAlike(orig, part, key, t.HeadersLen())
  }

  lemma ItemSizes(t: Item, key: FlowKey, buf: Buf, orig: seq<Bytes>, part: seq<nat>)
    requires ItemOk(t, key, buf, orig, part)
    ensures t.numMerged < 0xffff && (if key.tcp then 20 <= t.thLen <= 60 else t.thLen == 8)
  {
    CutCount(buf.pkt[t.HeadersLen()..], t.gsoSize);
    assert Member(orig, part[0], t, 0);
    AdmittedLengths(orig[part[0]], key);
  }

  /** The item that stands for one packet. */
  function NewItem(key: FlowKey, bufsIndex: nat, info: Info, cSumKnownInvalid: bool): Item {
    Item(key, bufsIndex, 0, info.gsoSize, info.thLen, info.sentSeq, info.pshSet, cSumKnownInvalid)
  }

  lemma NewItemOk(key: FlowKey, i: nat, buf: Buf, orig: seq<Bytes>, cSumKnownInvalid: bool)
    requires i < |orig| && buf.pkt == orig[i] && buf.room <= 0xffff && Admitted(orig[i], key)
    requires cSumKnownInvalid ==> !RightSum(orig[i], key)
    ensures ItemOk(NewItem(key, i, InfoOf(orig[i], key), cSumKnownInvalid), key, buf, orig, [i])
  {
    var info := InfoOf(orig[i], key);
    var t := NewItem(key, i, info, cSumKnownInvalid);
    var p := buf.pkt[t.HeadersLen()..];
    assert |p| == info.gsoSize && Cut(p, info.gsoSize) == [p];
    assert Payloads(orig, [i], t.HeadersLen()) == [p];
    assert SeqAt(t.sentSeq, t.gsoSize, 0) == t.sentSeq;
    assert AlikeAt(orig, i, i, key, t.HeadersLen());
    if key.tcp {
      AdmittedFlags(orig[i], key);
      assert MemberFlags(orig, [i], t, 0);
    }
  }

  // ---------------------------------------------------------------------------------------------
  // An item and one more packet
  // ---------------------------------------------------------------------------------------------

  /** What the tests on two packets establish. */
  ghost predicate Fitting(mode: CanCoalesce, info: Info, t: Item, length: nat)
    requires t.gsoSize > 0 && t.HeadersLen() <= length
  {
    && mode != Unavailable && info.thLen == t.thLen
    && (mode == Append ==>
          && info.gsoSize <= t.gsoSize && (length - t.HeadersLen()) % t.gsoSize == 0
          && (t.key.tcp ==> !t.pshSet && info.sentSeq == (t.sentSeq + LhsLen(t.gsoSize, t.numMerged)) % 0x1_0000_0000))
    && (mode == Prepend ==>
          && t.key.tcp && info.gsoSize >= t.gsoSize && (info.gsoSize > t.gsoSize ==> t.numMerged == 0)
          && !info.pshSet && (info.sentSeq + info.gsoSize) % 0x1_0000_0000 == t.sentSeq)
  }

  lemma TcpFitting(pkt: Bytes, info: Info, t: Item, target: Bytes)
    requires t.key.tcp && t.gsoSize > 0 && t.HeadersLen() <= |target| && t.IpLen() + info.thLen <= |pkt|
    requires TcpPacketsCanCoalesce(pkt, info, t, target) != Unavailable
    ensures Fitting(TcpPacketsCanCoalesce(pkt, info, t, target), info, t, |target|)
  {
  }

  lemma UdpFitting(pkt: Bytes, info: Info, t: Item, target: Bytes)
    requires !t.key.tcp && t.gsoSize > 0 && t.HeadersLen() <= |target| && info.thLen == t.thLen
    requires UdpPacketsCanCoalesce(pkt, info, t, target) == Append
    ensures Fitting(Append, info, t, |target|)
  {
  }

  /** The item after a merge. */
  function Merged(mode: CanCoalesce, info: Info, item: Item): Item
    requires item.numMerged < 0xffff
  {
    var grown := item.(numMerged := item.numMerged + 1,
                       gsoSize := if info.gsoSize > item.gsoSize then info.gsoSize else item.gsoSize);
    if mode == Prepend then grown.(sentSeq := info.sentSeq) else grown.(pshSet := item.pshSet || info.pshSet)
  }

  /** pkt[iphLen + 13] |= PSH */
  function SetPsh(pkt: Bytes, iphLen: nat): Bytes
    requires iphLen + 20 <= |pkt|
  {
    var flags := pkt[iphLen + TCP_FLAGS_OFFSET];
    if Psh(flags) then pkt else pkt[iphLen + TCP_FLAGS_OFFSET := flags + TCP_FLAG_PSH]
  }

  /** The packet of the item as it is before another one is appended. */
  function HeadOf(info: Info, item: Item, target: Bytes): Bytes
    requires item.key.tcp ==> item.IpLen() + 20 <= |target|
  {
    if item.key.tcp && info.pshSet then SetPsh(target, item.IpLen()) else target
  }

  /** The packet after a merge. */
  function MergedPacket(mode: CanCoalesce, info: Info, item: Item, target: Bytes, pkt: Bytes): Bytes
    requires item.HeadersLen() <= |target| && item.HeadersLen() <= |pkt| && (item.key.tcp ==> item.thLen >= 20)
  {
    if mode == Prepend then pkt + target[item.HeadersLen()..]
    else HeadOf(info, item, target) + pkt[item.HeadersLen()..]
  }

  /** The packets of the item after a merge. */
  function MergedPart(mode: CanCoalesce, part: seq<nat>, i: nat): seq<nat> {
    if mode == Prepend then [i] + part else part + [i]
  }

  ghost predicate AllBelow(part: seq<nat>, n: nat) {
    forall k :: 0 <= k < |part| ==> part[k] < n
  }

  lemma MergedShape(mode: CanCoalesce, t: Item, key: FlowKey, info: Info, buf: Buf, orig: seq<Bytes>, i: nat, now: Buf)
    requires ItemShape(t, key, buf, orig) && t.numMerged < 0xffff && (key.tcp ==> t.thLen >= 20)
    requires i < |orig| && t.HeadersLen() <= |orig[i]|
    requires now.pkt == MergedPacket(mode, info, t, buf.pkt, orig[i]) && |now.pkt| <= now.room <= 0xffff
    ensures ItemShape(Merged(mode, info, t), key, now, orig)
  {
  }

  /** The packet is the first one of the item, or the next one. */
  lemma MergedMember(mode: CanCoalesce, t: Item, key: FlowKey, info: Info, buf: Buf, orig: seq<Bytes>, part: seq<nat>,
                     i: nat)
    requires t.key == key && t.gsoSize > 0 && t.HeadersLen() < |buf.pkt| <= 0xffff && t.numMerged < 0xffff
    requires ItemContents(t, buf, orig, part) && Fitting(mode, info, t, |buf.pkt|)
    requires i < |orig| && Admitted(orig[i], key) && info == InfoOf(orig[i], key)
    ensures |orig[i]| == t.HeadersLen() + info.gsoSize && info.gsoSize > 0
    ensures key.tcp ==> FlagsAre(orig[i], key, info.pshSet)
    ensures if mode == Prepend then Member(orig, i, Merged(mode, info, t), 0) else Member(orig, i, t, |part|)
  {
    AdmittedLengths(orig[i], key);
    if key.tcp {
      AdmittedFlags(orig[i], key);
    }
    if mode == Prepend {
      PrependMember(t, key, info, orig, i);
    } else {
      AppendSize(t, buf, orig, part);
      AppendMember(t, key, info, orig, i);
    }
  }

  lemma MergedInside(mode: CanCoalesce, t: Item, u: Item, info: Info, buf: Buf, orig: seq<Bytes>, part: seq<nat>,
                     more: seq<nat>, i: nat, now: Buf)
    requires t.gsoSize > 0 && t.HeadersLen() < |buf.pkt| && t.numMerged < 0xffff && (t.key.tcp ==> t.thLen >= 20)
    requires ItemContents(t, buf, orig, part) && ItemHeader(t, buf, orig, part) && AllBelow(part, i)
    requires i < |orig| && |orig[i]| == t.HeadersLen() + info.gsoSize && info.gsoSize > 0
    requires Fitting(mode, info, t, |buf.pkt|) && (t.key.tcp ==> FlagsAre(orig[i], t.key, info.pshSet))
    requires u == Merged(mode, info, t) && more == MergedPart(mode, part, i)
    requires if mode == Prepend then Member(orig, i, u, 0) else Member(orig, i, t, |part|)
    requires now.pkt == MergedPacket(mode, info, t, buf.pkt, orig[i])
    ensures t.HeadersLen() <= |now.pkt| && ItemContents(u, now, orig, more) && ItemHeader(u, now, orig, more)
  {
    if mode == Prepend {
      PrependOk(t, u, info, buf, orig, part, more, i, now);
    } else {
      AppendOk(t, u, info, buf, orig, part, more, i, now);
    }
  }

  lemma AppendOk(t: Item, u: Item, info: Info, buf: Buf, orig: seq<Bytes>, part: seq<nat>, more: seq<nat>, i: nat, now: Buf)
    requires t.gsoSize > 0 && t.HeadersLen() < |buf.pkt| && t.numMerged < 0xffff && (t.key.tcp ==> t.thLen >= 20)
    requires ItemContents(t, buf, orig, part) && ItemHeader(t, buf, orig, part) && AllBelow(part, i)
    requires i < |orig| && t.HeadersLen() < |orig[i]| && |orig[i]| - t.HeadersLen() == info.gsoSize
    requires Fitting(Append, info, t, |buf.pkt|) && Member(orig, i, t, |part|)
    requires t.key.tcp ==> FlagsAre(orig[i], t.key, info.pshSet)
    requires now.pkt == MergedPacket(Append, info, t, buf.pkt, orig[i])
    requires u == Merged(Append, info, t) && more == part + [i]
    ensures t.HeadersLen() <= |now.pkt| && ItemContents(u, now, orig, more) && ItemHeader(u, now, orig, more)
  {
    AppendTail(t, info, buf, orig[i], now);
    AppendContents(t, info, buf, orig, part, i, now);
    AppendHeader(t, info, buf, orig, part, i, now);
  }

  lemma PrependOk(t: Item, u: Item, info: Info, buf: Buf, orig: seq<Bytes>, part: seq<nat>, more: seq<nat>, i: nat, now: Buf)
    requires t.gsoSize > 0 && t.HeadersLen() < |buf.pkt| && t.numMerged < 0xffff
    requires ItemContents(t, buf, orig, part) && ItemHeader(t, buf, orig, part) && AllBelow(part, i)
    requires i < |orig| && t.HeadersLen() < |orig[i]| && |orig[i]| - t.HeadersLen() == info.gsoSize
    requires Fitting(Prepend, info, t, |buf.pkt|) && FlagsAre(orig[i], t.key, false)
    requires u == Merged(Prepend, info, t) && more == [i] + part && Member(orig, i, u, 0)
    requires now.pkt == orig[i] + buf.pkt[t.HeadersLen()..]
    ensures t.HeadersLen() <= |now.pkt| && ItemContents(u, now, orig, more) && ItemHeader(u, now, orig, more)
  {
    PrependTail(orig[i], buf.pkt, t.HeadersLen(), now.pkt);
    PrependContents(t, info, buf, orig, part, i, now);
    PrependHeader(t, info, buf, orig, part, i, now);
  }

  lemma PrependTail(pkt: Bytes, target: Bytes, h: nat, now: Bytes)
    requires h <= |pkt| && h <= |target| && now == pkt + target[h..]
    ensures |now| >= h && now[h..] == pkt[h..] + target[h..]
  {
  }

  /** The new packet may become the first one. */
  lemma MergedAlike(mode: CanCoalesce, t: Item, buf: Buf, orig: seq<Bytes>, part: seq<nat>, i: nat)
    requires AllAlike(orig, part, t.key, t.HeadersLen()) && Member(orig, part[0], t, 0)
    requires SameHeader(buf.pkt, orig[part[0]], t.key, t.HeadersLen())
    requires i < |orig| && Admitted(orig[i], t.key) && InfoOf(orig[i], t.key).thLen == t.thLen
    requires Agreeing(orig[i], buf.pkt, t)
    ensures AllAlike(orig, MergedPart(mode, part, i), t.key, t.HeadersLen())
  {
    var more, h := MergedPart(mode, part, i), t.HeadersLen();
    AgreeingAlike(orig[i], buf.pkt, orig[part[0]], t);
    forall k | 0 <= k < |more|
      ensures AlikeAt(orig, more[0], more[k], t.key, h)
    {
      assert AlikeAt(orig, part[0], more[k], t.key, h);
    }
  }

  lemma MergedSums(mode: CanCoalesce, orig: seq<Bytes>, part: seq<nat>, key: FlowKey, i: nat)
    requires RightSums(orig, part, key) && SumAt(orig, i, key)
    ensures RightSums(orig, MergedPart(mode, part, i), key)
  {
  }

  lemma AppendTail(t: Item, info: Info, buf: Buf, pkt: Bytes, now: Buf)
    requires t.HeadersLen() < |buf.pkt| && (t.key.tcp ==> t.thLen >= 20) && t.HeadersLen() <= |pkt|
    requires now.pkt == MergedPacket(Append, info, t, buf.pkt, pkt)
    ensures now.pkt[t.HeadersLen()..] == buf.pkt[t.HeadersLen()..] + pkt[t.HeadersLen()..]
    ensures SameHeader(now.pkt, buf.pkt, t.key, t.HeadersLen())
  {
  }

  /** A packet that can be appended to is full. */
  lemma AppendSize(t: Item, buf: Buf, orig: seq<Bytes>, part: seq<nat>)
    requires t.gsoSize > 0 && t.HeadersLen() < |buf.pkt| && ItemContents(t, buf, orig, part)
    requires (|buf.pkt| - t.HeadersLen()) % t.gsoSize == 0
    ensures |buf.pkt| - t.HeadersLen() == (t.numMerged + 1) * t.gsoSize
  {
    MultipleFull(buf.pkt[t.HeadersLen()..], t.gsoSize);
    FullLength(buf.pkt[t.HeadersLen()..], t.gsoSize);
  }

  lemma AppendMember(t: Item, key: FlowKey, info: Info, orig: seq<Bytes>, i: nat)
    requires t.key == key && t.numMerged < 0xffff && (t.numMerged + 1) * t.gsoSize <= 0xffff
    requires i < |orig| && Admitted(orig[i], key) && info == InfoOf(orig[i], key) && info.thLen == t.thLen
    requires key.tcp ==> info.sentSeq == (t.sentSeq + LhsLen(t.gsoSize, t.numMerged)) % 0x1_0000_0000
    ensures Member(orig, i, t, t.numMerged + 1)
  {
    SeqAtEnd(t.sentSeq, t.gsoSize, t.numMerged, (t.numMerged + 1) * t.gsoSize);
  }

  lemma AppendContents(t: Item, info: Info, buf: Buf, orig: seq<Bytes>, part: seq<nat>, i: nat, now: Buf)
    requires t.gsoSize > 0 && t.HeadersLen() < |buf.pkt| && ItemContents(t, buf, orig, part) && t.numMerged < 0xffff
    requires i < |orig| && t.HeadersLen() < |orig[i]| && |orig[i]| - t.HeadersLen() <= t.gsoSize
    requires info.gsoSize <= t.gsoSize && (|buf.pkt| - t.HeadersLen()) % t.gsoSize == 0
    requires Member(orig, i, t, |part|) && t.HeadersLen() <= |now.pkt|
    requires now.pkt[t.HeadersLen()..] == buf.pkt[t.HeadersLen()..] + orig[i][t.HeadersLen()..]
    ensures ItemContents(Merged(Append, info, t), now, orig, part + [i])
  {
    AppendPayload(buf.pkt[t.HeadersLen()..], t.gsoSize, orig, part, i, t.HeadersLen());
    MembersKept(t, Merged(Append, info, t), orig, part + [i]);
  }

  lemma AppendPayload(p: Bytes, size: nat, orig: seq<Bytes>, part: seq<nat>, i: nat, h: nat)
    requires size > 0 && p != [] && |p| % size == 0 && i < |orig| && h < |orig[i]| && |orig[i]| - h <= size
    requires Cut(p, size) == Payloads(orig, part, h)
    ensures Cut(p + orig[i][h..], size) == Payloads(orig, part + [i], h)
    ensures |p| == |part| * size
  {
    var q := orig[i][h..];
    MultipleFull(p, size);
    CutAppend(p, q, size);
    FullLength(p, size);
    assert Payloads(orig, part + [i], h) == Payloads(orig, part, h) + [q];
  }

  lemma MembersKept(t: Item, u: Item, orig: seq<Bytes>, part: seq<nat>)
    requires u == t.(numMerged := u.numMerged, pshSet := u.pshSet)
    requires forall k :: 0 <= k < |part| ==> Member(orig, part[k], t, k)
    ensures forall k :: 0 <= k < |part| ==> Member(orig, part[k], u, k)
  {
  }

  lemma AppendHeader(t: Item, info: Info, buf: Buf, orig: seq<Bytes>, part: seq<nat>, i: nat, now: Buf)
    requires t.numMerged < 0xffff && ItemHeader(t, buf, orig, part) && AllBelow(part, i)
    requires t.HeadersLen() <= |buf.pkt| && (t.key.tcp ==> t.thLen >= 20) && i < |orig| && t.HeadersLen() <= |orig[i]|
    requires t.key.tcp ==> !t.pshSet && FlagsAre(orig[i], t.key, info.pshSet)
    requires now.pkt == MergedPacket(Append, info, t, buf.pkt, orig[i])
    requires SameHeader(now.pkt, buf.pkt, t.key, t.HeadersLen())
    ensures ItemHeader(Merged(Append, info, t), now, orig, part + [i])
  {
    var u, more := Merged(Append, info, t), part + [i];
    assert more[0] == part[0];
    if t.key.tcp {
      AppendFlags(t, info, buf, orig, part, i, now);
      forall k | 0 <= k < |more|
        ensures MemberFlags(orig, more, u, k)
      {
        assert k < |part| ==> MemberFlags(orig, part, t, k);
      }
    }
  }

  lemma AppendFlags(t: Item, info: Info, buf: Buf, orig: seq<Bytes>, part: seq<nat>, i: nat, now: Buf)
    requires t.key.tcp && t.thLen >= 20 && i < |orig| && t.HeadersLen() <= |orig[i]| && t.HeadersLen() <= |buf.pkt|
    requires FlagsAre(buf.pkt, t.key, false) && now.pkt == MergedPacket(Append, info, t, buf.pkt, orig[i])
    ensures FlagsAre(now.pkt, t.key, info.pshSet)
  {
    assert now.pkt[FlagsAt(t.key)] == HeadOf(info, t, buf.pkt)[FlagsAt(t.key)];
  }

  lemma PrependMember(t: Item, key: FlowKey, info: Info, orig: seq<Bytes>, i: nat)
    requires t.key == key && t.numMerged < 0xffff
    requires i < |orig| && Admitted(orig[i], key) && info == InfoOf(orig[i], key) && info.thLen == t.thLen
    ensures Member(orig, i, Merged(Prepend, info, t), 0)
  {
    assert SeqAt(info.sentSeq, info.gsoSize, 0) == info.sentSeq;
  }

  lemma PrependContents(t: Item, info: Info, buf: Buf, orig: seq<Bytes>, part: seq<nat>, i: nat, now: Buf)
    requires t.gsoSize > 0 && t.HeadersLen() < |buf.pkt| && ItemContents(t, buf, orig, part) && t.numMerged < 0xffff
    requires i < |orig| && t.HeadersLen() < |orig[i]| && |orig[i]| - t.HeadersLen() == info.gsoSize
    requires info.gsoSize >= t.gsoSize && (info.gsoSize > t.gsoSize ==> t.numMerged == 0)
    requires (info.sentSeq + info.gsoSize) % 0x1_0000_0000 == t.sentSeq
    requires Member(orig, i, Merged(Prepend, info, t), 0) && t.HeadersLen() <= |now.pkt|
    requires now.pkt[t.HeadersLen()..] == orig[i][t.HeadersLen()..] + buf.pkt[t.HeadersLen()..]
    ensures ItemContents(Merged(Prepend, info, t), now, orig, [i] + part)
  {
    var u, h := Merged(Prepend, info, t), t.HeadersLen();
    PrependPayload(buf.pkt[h..], t.gsoSize, u.gsoSize, orig, part, i, h);
    PrependMembers(t, u, orig, part, i);
  }

  lemma PrependMembers(t: Item, u: Item, orig: seq<Bytes>, part: seq<nat>, i: nat)
    requires u == t.(numMerged := u.numMerged, gsoSize := u.gsoSize, sentSeq := u.sentSeq)
    requires forall k :: 0 <= k < |part| ==> Member(orig, part[k], t, k)
    requires Member(orig, i, u, 0) && (u.gsoSize == t.gsoSize || |part| == 1)
    requires (u.sentSeq + u.gsoSize) % 0x1_0000_0000 == t.sentSeq
    ensures forall k :: 0 <= k < |part| + 1 ==> Member(orig, ([i] + part)[k], u, k)
  {
    forall k | 0 <= k < |part|
      ensures Member(orig, part[k], u, k + 1)
    {
      assert Member(orig, part[k], t, k);
      SeqAtShifted(u.sentSeq, u.gsoSize, k + 1);
      OneSize(t.sentSeq, t.gsoSize, u.gsoSize, k);
    }
  }

  lemma PrependPayload(p: Bytes, size: nat, first: nat, orig: seq<Bytes>, part: seq<nat>, i: nat, h: nat)
    requires first >= size > 0 && p != [] && (first > size ==> |part| == 1)
    requires i < |orig| && h < |orig[i]| && |orig[i]| - h == first
    requires Cut(p, size) == Payloads(orig, part, h)
    ensures Cut(orig[i][h..] + p, first) == Payloads(orig, [i] + part, h)
  {
    OnePiece(p, size);
    CutPrepend(orig[i][h..], p, first);
    assert Payloads(orig, [i] + part, h) == [orig[i][h..]] + Payloads(orig, part, h);
  }

  /** For the first segment its size does not matter. */
  lemma OneSize(first: uint32, size: nat, size': nat, k: nat)
    requires size == size' || k == 0
    ensures SeqAt(first, size, k) == SeqAt(first, size', k)
  {
  }

  lemma PrependHeader(t: Item, info: Info, buf: Buf, orig: seq<Bytes>, part: seq<nat>, i: nat, now: Buf)
    requires t.key.tcp && t.numMerged < 0xffff && ItemHeader(t, buf, orig, part) && AllBelow(part, i)
    requires i < |orig| && t.HeadersLen() <= |orig[i]| && t.HeadersLen() <= |buf.pkt|
    requires FlagsAre(orig[i], t.key, false) && now.pkt == orig[i] + buf.pkt[t.HeadersLen()..]
    ensures ItemHeader(Merged(Prepend, info, t), now, orig, [i] + part)
  {
    var u, more := Merged(Prepend, info, t), [i] + part;
    assert more[|more| - 1] == part[|part| - 1];
    forall k | 0 <= k < |more|
      ensures MemberFlags(orig, more, u, k)
    {
      assert k > 0 ==> MemberFlags(orig, part, t, k - 1);
    }
  }
}
