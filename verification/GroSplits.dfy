/** Segmentation in tun/offload_linux.go undoes what receive offload in the same file merged. */
module GroSplits {
  import opened Words
  import opened Wrappers
  import opened Chunks
  import opened Checksum
  import opened Headers
  import opened GroPackets
  import opened Gso
  import opened GroItems
  import opened GroAccounting

  // ---------------------------------------------------------------------------------------------
  // The headers of a segment
  // ---------------------------------------------------------------------------------------------

  /** The header bytes that a segment takes over from the packet. */
  predicate Kept(key: FlowKey, k: int) {
    var th := k - IphLen(key.isV6);
    && !Volatile(key, k) && (key.isV6 || !(4 <= k < 6))
    && (key.tcp ==> !(4 <= th < 8) && th != TCP_FLAGS_OFFSET)
  }

  ghost predicate KeptAlike(x: Bytes, y: Bytes, key: FlowKey, h: nat) {
    h <= |x| && h <= |y| && forall k :: 0 <= k < h && Kept(key, k) ==> x[k] == y[k]
  }

  /** What a segment is, read byte by byte. */
  lemma SegmentBytes(seg: Bytes, pkt: Bytes, t: Item, hdr: VirtioNetHdr, i: nat, advance: nat, last: bool, dataLen: nat)
    requires Sized(t, pkt) && hdr == OffloadOf(t) && t.HeadersLen() <= |seg| <= 0xffff
    requires IpHeaderOf(seg[..t.IpLen()], pkt[..t.IpLen()], i, |seg|, t.key.isV6)
    requires TransportHeaderOf(seg[t.IpLen()..t.HeadersLen()], pkt[t.IpLen()..t.HeadersLen()], hdr, advance, last, dataLen)
    ensures KeptAlike(seg, pkt, t.key, t.HeadersLen())
  {
    forall j | 0 <= j < t.HeadersLen() && Kept(t.key, j)
      ensures seg[j] == pkt[j]
    {
      SegmentByte(seg, pkt, t, hdr, i, advance, last, dataLen, j);
    }
  }

  lemma SegmentByte(seg: Bytes, pkt: Bytes, t: Item, hdr: VirtioNetHdr, i: nat, advance: nat, last: bool, dataLen: nat,
                    j: nat)
    requires Sized(t, pkt) && hdr == OffloadOf(t) && t.HeadersLen() <= |seg| <= 0xffff
    requires IpHeaderOf(seg[..t.IpLen()], pkt[..t.IpLen()], i, |seg|, t.key.isV6)
    requires TransportHeaderOf(seg[t.IpLen()..t.HeadersLen()], pkt[t.IpLen()..t.HeadersLen()], hdr, advance, last, dataLen)
    requires j < t.HeadersLen() && Kept(t.key, j)
    ensures seg[j] == pkt[j]
  {
    var ip, h := t.IpLen(), t.HeadersLen();
    if j < ip {
      IpByte(seg[..ip], pkt[..ip], t.key, i, |seg|, j);
    } else {
      TransportByte(seg[ip..h], pkt[ip..h], t, hdr, advance, last, dataLen, j - ip);
      SliceAt(seg, ip, h, j - ip);
      SliceAt(pkt, ip, h, j - ip);
    }
  }

  lemma SegmentLength(seg: Bytes, pkt: Bytes, key: FlowKey, i: nat)
    requires IphLen(key.isV6) <= |seg| <= 0xffff && IphLen(key.isV6) <= |pkt|
    requires IpHeaderOf(seg[..IphLen(key.isV6)], pkt[..IphLen(key.isV6)], i, |seg|, key.isV6)
    ensures if key.isV6 then Get16(seg, 4) == |seg| - 40 else Get16(seg, 2) == |seg|
  {
    HeadField(seg, IphLen(key.isV6), 2);
    HeadField(seg, IphLen(key.isV6), 4);
  }

  lemma HeadField(b: Bytes, ip: nat, at: nat)
    requires at + 2 <= ip <= |b|
    ensures Get16(b[..ip], at) == Get16(b, at)
  {
    assert b[..ip][at..at + 2] == b[at..at + 2];
  }

  lemma IpByte(r: Bytes, ip: Bytes, key: FlowKey, i: nat, totalLen: nat, j: nat)
    requires |ip| == IphLen(key.isV6) && totalLen <= 0xffff && IpHeaderOf(r, ip, i, totalLen, key.isV6)
    requires j < |ip| && Kept(key, j)
    ensures j < |r| && r[j] == ip[j]
  {
  }

  lemma TransportByte(r: Bytes, th: Bytes, t: Item, hdr: VirtioNetHdr, advance: nat, last: bool, dataLen: nat, j: nat)
    requires t.HeadersLen() <= 0xffff && hdr == OffloadOf(t)
    requires |th| == hdr.TransportLen() >= (if hdr.Tcp() then 20 else 8)
    requires TransportHeaderOf(r, th, hdr, advance, last, dataLen) && j < |th| && Kept(t.key, t.IpLen() + j)
    ensures j < |r| && r[j] == th[j]
  {
    assert !Rewritten(hdr, j);
  }

  lemma SegmentSeq(seg: Bytes, pkt: Bytes, t: Item, hdr: VirtioNetHdr, advance: nat, last: bool, dataLen: nat)
    requires Sized(t, pkt) && hdr == OffloadOf(t) && t.key.tcp && t.HeadersLen() <= |seg|
    requires TransportHeaderOf(seg[t.IpLen()..t.HeadersLen()], pkt[t.IpLen()..t.HeadersLen()], hdr, advance, last, dataLen)
    ensures Get32(seg, t.IpLen() + 4) == (Get32(pkt, t.IpLen() + 4) + advance) % 0x1_0000_0000
    ensures seg[FlagsAt(t.key)] == if last then pkt[FlagsAt(t.key)] else Cleared(pkt[FlagsAt(t.key)])
  {
    var ip, h := t.IpLen(), t.HeadersLen();
    SubSlice(seg, ip, h, 4, 8);
    SubSlice(pkt, ip, h, 4, 8);
    assert seg[ip..h][TCP_FLAGS_OFFSET] == seg[FlagsAt(t.key)] && pkt[ip..h][TCP_FLAGS_OFFSET] == pkt[FlagsAt(t.key)];
  }

  /** The fields that a segment has of its own, besides sequence number and flags: IPv4 identification and header
      checksum, and the UDP length. */
  ghost predicate Computed(seg: Bytes, pkt: Bytes, key: FlowKey, k: nat) {
    var ip := IphLen(key.isV6);
    && ip + 8 <= |seg| && ip + 8 <= |pkt|
    && (!key.isV6 ==> Get16(seg, 4) == IdPlus(Get16(pkt, 4), k) && SumsUp(seg[..20], 0))
    && (!key.tcp ==> Get16(seg, ip + 4) == |seg| - ip)
  }

  function IdPlus(first: uint16, k: nat): uint16 {
    (first + k) % 0x1_0000
  }

  lemma SegmentComputed(seg: Bytes, pkt: Bytes, t: Item, hdr: VirtioNetHdr, k: nat, advance: nat, last: bool,
                        dataLen: nat)
    requires Sized(t, pkt) && hdr == OffloadOf(t) && |seg| == t.HeadersLen() + dataLen <= 0xffff
    requires IpHeaderOf(seg[..t.IpLen()], pkt[..t.IpLen()], k, |seg|, t.key.isV6)
    requires TransportHeaderOf(seg[t.IpLen()..t.HeadersLen()], pkt[t.IpLen()..t.HeadersLen()], hdr, advance, last, dataLen)
    ensures Computed(seg, pkt, t.key, k)
  {
    var ip, h := t.IpLen(), t.HeadersLen();
    HeadField(seg, ip, 4);
    HeadField(pkt, ip, 4);
    SubSlice(seg, ip, h, 4, 6);
  }

  function SeqPlus(first: uint32, advance: nat): uint32 {
    (first + advance) % 0x1_0000_0000
  }

  /** Segment k of a merged packet, as far as it matters here. */
  ghost predicate Reads(seg: Bytes, pkt: Bytes, t: Item, piece: Bytes, k: nat, advance: nat, last: bool)
    requires t.HeadersLen() <= |pkt| && (t.key.tcp ==> t.thLen >= 20)
  {
    var ip, h := t.IpLen(), t.HeadersLen();
    && |seg| == h + |piece| && seg[h..] == piece && Computed(seg, pkt, t.key, k)
    && KeptAlike(seg, pkt, t.key, h) && (if t.key.isV6 then Get16(seg, 4) == |seg| - 40 else Get16(seg, 2) == |seg|)
    && TransportSumsUp(seg, ip, if t.key.tcp then IPPROTO_TCP else IPPROTO_UDP, t.key.isV6)
    && (t.key.tcp ==>
          && Get32(seg, ip + 4) == SeqPlus(Get32(pkt, ip + 4), advance)
          && seg[FlagsAt(t.key)] == if last then pkt[FlagsAt(t.key)] else Cleared(pkt[FlagsAt(t.key)]))
  }

  /** Where segment k starts in the payload. */
  function Offset(k: nat, size: nat): nat {
    k * size
  }

  lemma SegmentReads(seg: Bytes, pkt: Bytes, t: Item, hdr: VirtioNetHdr, k: nat, piece: Bytes, advance: nat, last: bool)
    requires Sized(t, pkt) && hdr == OffloadOf(t) && |seg| == t.HeadersLen() + |piece| <= 0xffff
    requires seg[t.HeadersLen()..] == piece
    requires IpHeaderOf(seg[..t.IpLen()], pkt[..t.IpLen()], k, |seg|, t.key.isV6)
    requires TransportHeaderOf(seg[t.IpLen()..t.HeadersLen()], pkt[t.IpLen()..t.HeadersLen()], hdr, advance, last, |piece|)
    requires TransportSumsUp(seg, t.IpLen(), if t.key.tcp then IPPROTO_TCP else IPPROTO_UDP, t.key.isV6)
    ensures Reads(seg, pkt, t, piece, k, advance, last)
  {
    SegmentComputed(seg, pkt, t, hdr, k, advance, last, |piece|);
    SegmentBytes(seg, pkt, t, hdr, k, advance, last, |piece|);
    SegmentLength(seg, pkt, t.key, k);
    if t.key.tcp {
      SegmentSeq(seg, pkt, t, hdr, advance, last, |piece|);
    }
  }

  // ---------------------------------------------------------------------------------------------
  // A segment and the packet it came from
  // ---------------------------------------------------------------------------------------------

  /** Headers that are kept make a packet of the same flow. */
  lemma KeptFlow(seg: Bytes, pkt: Bytes, key: FlowKey)
    requires InFlow(pkt, key) && KeptAlike(seg, pkt, key, IphLen(key.isV6) + (if key.tcp then 20 else 8))
    ensures InFlow(seg, key)
  {
    var at, size, th := SrcAddrAt(key.isV6), AddrSize(key.isV6), IphLen(key.isV6);
    assert seg[0] == pkt[0] && seg[if key.isV6 then 6 else 9] == pkt[if key.isV6 then 6 else 9];
    KeptSlice(seg, pkt, key, at, at + size);
    KeptSlice(seg, pkt, key, at + size, at + 2 * size);
    KeptSlice(seg, pkt, key, th, th + 2);
    KeptSlice(seg, pkt, key, th + 2, th + 4);
    if key.tcp {
      KeptSlice(seg, pkt, key, th + 8, th + 12);
    }
  }

  lemma KeptSlice(x: Bytes, y: Bytes, key: FlowKey, from: nat, to: nat)
    requires from <= to && KeptAlike(x, y, key, to) && forall k :: from <= k < to ==> Kept(key, k)
    ensures x[from..to] == y[from..to]
  {
    assert forall k :: from <= k < to ==> Kept(key, k) && x[k] == y[k];
  }

  lemma KeptParse(seg: Bytes, pkt: Bytes, key: FlowKey, psh: bool)
    requires Admitted(pkt, key) && KeptAlike(seg, pkt, key, IphLen(key.isV6) + (if key.tcp then 20 else 8))
    requires Shaped(seg, key.tcp, key.isV6) && IphLen(key.isV6) + InfoOf(pkt, key).thLen < |seg| <= 0xffff
    requires if key.isV6 then Get16(seg, 4) == |seg| - 40 else Get16(seg, 2) == |seg|
    requires if key.tcp then FlagsAre(seg, key, psh) else !psh
    ensures Parse(seg, key.tcp, key.isV6)
         == Some(Info(InfoOf(pkt, key).thLen, |seg| - InfoOf(pkt, key).thLen - IphLen(key.isV6),
                      if key.tcp then Get32(seg, IphLen(key.isV6) + 4) else 0, psh))
  {
    var ip := IphLen(key.isV6);
    assert key.tcp ==> seg[ip + 12] == pkt[ip + 12];
    assert !key.isV6 ==> seg[6] == pkt[6] && seg[7] == pkt[7];
  }

  /** The header bytes that a segment does not have from its own packet: IPv4 identification and header checksum, the
      IPv6 flow label with the second half of the traffic class, the reserved bits, flags, window, checksum and urgent
      pointer of TCP, and length and checksum of UDP. */
  predicate Replaced(key: FlowKey, k: int) {
    var th := k - IphLen(key.isV6);
    || (if key.isV6 then 1 <= k < 4 else 4 <= k < 6 || 10 <= k < 12)
    || (if key.tcp then 12 <= th < 20 else 4 <= th < 8)
  }

  /** All other header bytes are those of the packet, and so is the first half of the traffic class. */
  ghost predicate SameBytes(seg: Bytes, pkt: Bytes, key: FlowKey, h: nat) {
    && IphLen(key.isV6) <= h <= |seg| && h <= |pkt|
    && (forall k :: 0 <= k < h && !Replaced(key, k) ==> seg[k] == pkt[k]) && (key.isV6 ==> seg[1] / 16 == pkt[1] / 16)
  }

  /** The segment is like the packet: of the same flow, with the same header length, sequence number and payload, the
      same header bytes but for the replaced ones, and a right checksum.  PSH is set as in the packet, unless `lost`. */
  ghost predicate Restores(seg: Bytes, pkt: Bytes, key: FlowKey, lost: bool) {
    && Admitted(pkt, key) && Admitted(seg, key) && RightSum(seg, key)
    && InfoOf(seg, key) == InfoOf(pkt, key).(pshSet := InfoOf(pkt, key).pshSet && !lost)
    && var h := IphLen(key.isV6) + InfoOf(pkt, key).thLen;
      |seg| == |pkt| && seg[h..] == pkt[h..] && SameBytes(seg, pkt, key, h)
  }

  /** Segment k is like packet k.  Only PSH may be lost: that of a packet that came before the first one.  The replaced
      bytes are those of the first packet, or are computed for the segment. */
  ghost predicate RestoresAt(seg: Bytes, orig: seq<Bytes>, part: seq<nat>, k: nat, key: FlowKey)
    requires k < |part|
  {
    && part[k] < |orig| && part[0] < |orig| && Restores(seg, orig[part[k]], key, part[0] > part[k])
    && KeptAlike(seg, orig[part[0]], key, IphLen(key.isV6) + InfoOf(seg, key).thLen)
    && Computed(seg, orig[part[0]], key, k)
  }

  lemma SegmentPayload(t: Item, buf: Buf, orig: seq<Bytes>, part: seq<nat>, k: nat, advance: nat)
    requires t.gsoSize > 0 && t.HeadersLen() <= |buf.pkt| && ItemContents(t, buf, orig, part) && k < |part|
    requires advance == Offset(k, t.gsoSize)
    ensures part[k] < |orig| && Admitted(orig[part[k]], t.key) && InfoOf(orig[part[k]], t.key).thLen == t.thLen
    ensures t.HeadersLen() < |orig[part[k]]|
    ensures k < |Cut(buf.pkt[t.HeadersLen()..], t.gsoSize)| == |part|
    ensures Cut(buf.pkt[t.HeadersLen()..], t.gsoSize)[k] == orig[part[k]][t.HeadersLen()..]
    ensures t.key.tcp ==> InfoOf(orig[part[k]], t.key).sentSeq == SeqPlus(t.sentSeq, advance)
  {
    assert Member(orig, part[k], t, k);
    AdmittedLengths(orig[part[k]], t.key);
    var pieces := Payloads(orig, part, t.HeadersLen());
    assert pieces[k] == Payload(orig, part[k], t.HeadersLen());
    SeqAtClosed(t.sentSeq, t.gsoSize, k);
  }

  /** The headers of the item are those of its first packet. */
  lemma FirstHeader(t: Item, buf: Buf, orig: seq<Bytes>, part: seq<nat>)
    requires t.gsoSize > 0 && t.HeadersLen() <= |buf.pkt| && ItemContents(t, buf, orig, part)
    requires ItemHeader(t, buf, orig, part)
    ensures Admitted(orig[part[0]], t.key) && InfoOf(orig[part[0]], t.key).thLen == t.thLen
    ensures KeptAlike(buf.pkt, orig[part[0]], t.key, t.HeadersLen())
    ensures t.key.tcp && t.thLen >= 20 ==> Get32(buf.pkt, t.IpLen() + 4) == t.sentSeq
    ensures t.IpLen() + 8 <= |orig[part[0]]| && t.IpLen() + 8 <= |buf.pkt|
    ensures !t.key.isV6 ==> Get16(buf.pkt, 4) == Get16(orig[part[0]], 4)
  {
    var at := t.IpLen() + 4;
    assert Member(orig, part[0], t, 0);
    AdmittedLengths(orig[part[0]], t.key);
    assert SeqAt(t.sentSeq, t.gsoSize, 0) == t.sentSeq;
    if t.key.tcp && t.thLen >= 20 {
      assert buf.pkt[at..at + 4] == orig[part[0]][at..at + 4];
    }
    if !t.key.isV6 {
      assert buf.pkt[4..6] == orig[part[0]][4..6];
    }
  }

  /** The flags of a segment. */
  lemma SegmentFlags(seg: Bytes, t: Item, buf: Buf, orig: seq<Bytes>, part: seq<nat>, k: nat)
    requires t.key.tcp && ItemHeader(t, buf, orig, part) && k < |part|
    requires FlagsAt(t.key) < |seg|
    requires seg[FlagsAt(t.key)] == if k == |part| - 1 then buf.pkt[FlagsAt(t.key)] else Cleared(buf.pkt[FlagsAt(t.key)])
    requires part[k] < |orig| && Admitted(orig[part[k]], t.key)
    ensures FlagsAre(seg, t.key, InfoOf(orig[part[k]], t.key).pshSet && part[0] <= part[k])
  {
    assert MemberFlags(orig, part, t, k);
    AdmittedFlags(orig[part[k]], t.key);
    ClearedFlags(t.pshSet && part[0] <= part[|part| - 1]);
  }

  lemma ClearedFlags(psh: bool)
    ensures Cleared(Flags(psh)) == Flags(false)
  {
  }

  lemma KeptThrough(seg: Bytes, pkt: Bytes, first: Bytes, key: FlowKey, h: nat)
    requires KeptAlike(seg, pkt, key, h) && KeptAlike(pkt, first, key, h)
    ensures KeptAlike(seg, first, key, h)
  {
  }

  /** The kept headers of the first packet, and the lengths, payload, sequence number and flags of another one. */
  lemma LikePacket(seg: Bytes, pkt: Bytes, first: Bytes, key: FlowKey, thLen: nat, lost: bool)
    requires Admitted(pkt, key) && InfoOf(pkt, key).thLen == thLen >= (if key.tcp then 20 else 8)
    requires Admitted(first, key) && InfoOf(first, key).thLen == thLen
    requires KeptAlike(seg, first, key, IphLen(key.isV6) + thLen) && RightSum(seg, key)
    requires Alike(first, pkt, key, IphLen(key.isV6) + thLen)
    requires |seg| == |pkt| && seg[IphLen(key.isV6) + thLen..] == pkt[IphLen(key.isV6) + thLen..]
    requires if key.isV6 then Get16(seg, 4) == |seg| - 40 else Get16(seg, 2) == |seg|
    requires key.tcp ==>
      && Get32(seg, IphLen(key.isV6) + 4) == InfoOf(pkt, key).sentSeq
      && FlagsAre(seg, key, InfoOf(pkt, key).pshSet && !lost)
    ensures Restores(seg, pkt, key, lost)
  {
    AdmittedLengths(pkt, key);
    KeptFlow(seg, first, key);
    KeptParse(seg, first, key, InfoOf(pkt, key).pshSet && !lost);
    LikeBytes(seg, pkt, first, key, IphLen(key.isV6) + thLen);
  }

  lemma LikeBytes(seg: Bytes, pkt: Bytes, first: Bytes, key: FlowKey, h: nat)
    requires if key.tcp then IphLen(key.isV6) + 20 <= h else h == IphLen(key.isV6) + 8
    requires |seg| == |pkt| && Admitted(pkt, key)
    requires KeptAlike(seg, first, key, h) && Alike(first, pkt, key, h)
    requires if key.isV6 then Get16(seg, 4) == |seg| - 40 else Get16(seg, 2) == |seg|
    requires key.tcp ==> Get32(seg, IphLen(key.isV6) + 4) == InfoOf(pkt, key).sentSeq
    ensures SameBytes(seg, pkt, key, h)
  {
    var ip, at := IphLen(key.isV6), if key.isV6 then 4 else 2;
    WordOf(seg[at..at + 2], pkt[at..at + 2]);
    if key.tcp {
      WordOf4(seg[ip + 4..ip + 8], pkt[ip + 4..ip + 8]);
    }
    forall k | 0 <= k < h && !Replaced(key, k)
      ensures seg[k] == pkt[k]
    {
      LikeByte(seg, pkt, first, key, h, k);
    }
    assert key.isV6 ==> Kept(key, 1);
  }

  /** It is compared, or part of the length or of the sequence number. */
  lemma LikeByte(seg: Bytes, pkt: Bytes, first: Bytes, key: FlowKey, h: nat, k: nat)
    requires if key.tcp then IphLen(key.isV6) + 20 <= h else h == IphLen(key.isV6) + 8
    requires k < h && !Replaced(key, k)
    requires KeptAlike(seg, first, key, h) && Alike(first, pkt, key, h)
    requires var at := if key.isV6 then 4 else 2; seg[at..at + 2] == pkt[at..at + 2]
    requires key.tcp ==>
      seg[IphLen(key.isV6) + 4..IphLen(key.isV6) + 8] == pkt[IphLen(key.isV6) + 4..IphLen(key.isV6) + 8]
    ensures seg[k] == pkt[k]
  {
    var ip, at := IphLen(key.isV6), if key.isV6 then 4 else 2;
    if at <= k < at + 2 {
      SliceAt(seg, at, at + 2, k - at);
      SliceAt(pkt, at, at + 2, k - at);
    } else if key.tcp && ip + 4 <= k < ip + 8 {
      SliceAt(seg, ip + 4, ip + 8, k - (ip + 4));
      SliceAt(pkt, ip + 4, ip + 8, k - (ip + 4));
    } else {
      assert Kept(key, k) && Compared(key, k);
    }
  }

  lemma ReadsLike(t: Item, buf: Buf, first: Bytes, pkt: Bytes, seg: Bytes, k: nat, advance: nat, last: bool, lost: bool)
    requires t.thLen >= (if t.key.tcp then 20 else 8) && t.HeadersLen() <= |buf.pkt| && t.HeadersLen() <= |pkt|
    requires Admitted(first, t.key) && InfoOf(first, t.key).thLen == t.thLen
    requires Admitted(pkt, t.key) && InfoOf(pkt, t.key).thLen == t.thLen
    requires KeptAlike(buf.pkt, first, t.key, t.HeadersLen()) && Alike(first, pkt, t.key, t.HeadersLen())
    requires Reads(seg, buf.pkt, t, pkt[t.HeadersLen()..], k, advance, last)
    requires t.key.tcp ==>
      && InfoOf(pkt, t.key).sentSeq == SeqPlus(Get32(buf.pkt, t.IpLen() + 4), advance)
      && FlagsAre(seg, t.key, InfoOf(pkt, t.key).pshSet && !lost)
    ensures Restores(seg, pkt, t.key, lost) && KeptAlike(seg, first, t.key, t.HeadersLen())
  {
    KeptThrough(seg, buf.pkt, first, t.key, t.HeadersLen());
    LikePacket(seg, pkt, first, t.key, t.thLen, lost);
  }

  /** Segment k of a merged packet is like packet k. */
  lemma SegmentRestores(t: Item, key: FlowKey, buf: Buf, orig: seq<Bytes>, part: seq<nat>, pieces: seq<Bytes>,
                        seg: Bytes, k: nat)
    requires t.key == key && t.gsoSize > 0 && t.thLen >= (if key.tcp then 20 else 8) && k < |part| == |pieces|
    requires t.HeadersLen() <= |buf.pkt| && ItemContents(t, buf, orig, part) && ItemHeader(t, buf, orig, part)
    requires AlikeAt(orig, part[0], part[k], key, t.HeadersLen())
    requires pieces == Cut(buf.pkt[t.HeadersLen()..], t.gsoSize)
    requires Reads(seg, buf.pkt, t, pieces[k], k, Offset(k, t.gsoSize), k == |part| - 1)
    ensures RestoresAt(seg, orig, part, k, key)
  {
    SegmentPayload(t, buf, orig, part, k, Offset(k, t.gsoSize));
    FirstHeader(t, buf, orig, part);
    if key.tcp {
      SegmentFlags(seg, t, buf, orig, part, k);
    }
    ReadsLike(t, buf, orig[part[0]], orig[part[k]], seg, k, Offset(k, t.gsoSize), k == |part| - 1, part[0] > part[k]);
  }

  // ---------------------------------------------------------------------------------------------
  // A merged packet
  // ---------------------------------------------------------------------------------------------

  /** The segmentation type of linux/virtio_net.h is that of the packet: 5 for UDP, 4 for TCP over IPv6, 1 for TCP over
      IPv4. */
  predicate TypeNames(pkt: Bytes, gsoType: byte) {
    && |pkt| >= 20
    && if pkt[0] / 16 == 6 then gsoType == (if pkt[6] == 17 then 5 else 4)
       else gsoType == if pkt[9] == 17 then 5 else 1
  }

  lemma ItemTypeNames(t: Item, key: FlowKey, buf: Buf, orig: seq<Bytes>, part: seq<nat>)
    requires ItemOk(t, key, buf, orig, part)
    ensures TypeNames(buf.pkt, OffloadOf(t).gsoType)
  {
    assert Member(orig, part[0], t, 0);
    var first, at := orig[part[0]], if key.isV6 then 6 else 9;
    assert !Volatile(key, 0) && !Volatile(key, at);
    assert buf.pkt[0] == first[0] && buf.pkt[at] == first[at];
  }

  /** Splitting the packet in the buffer, as its virtio header says, gives back the packets that were merged, which
      had right checksums. */
  ghost predicate GivesBack(buf: Buf, orig: seq<Bytes>, part: seq<nat>, key: FlowKey) {
    && buf.vnet.Partial? && WellFormed(buf.pkt, buf.vnet.hdr, key.isV6) && RightSums(orig, part, key)
    && TypeNames(buf.pkt, buf.vnet.hdr.gsoType)
    && |Cut(buf.pkt[buf.vnet.hdr.hdrLen..], buf.vnet.hdr.gsoSize)| == |part|
    && forall k: nat, seg {:trigger SegmentOf(seg, buf.pkt, buf.vnet.hdr, key.isV6, k)} ::
         k < |part| && SegmentOf(seg, buf.pkt, buf.vnet.hdr, key.isV6, k) ==> RestoresAt(seg, orig, part, k, key)
  }

  lemma OffloadWellFormed(t: Item, pkt: Bytes)
    requires Sized(t, pkt) && t.gsoSize > 0
    ensures WellFormed(pkt, OffloadOf(t), t.key.isV6) && OffloadOf(t).hdrLen == t.HeadersLen()
  {
  }

  lemma MergedGivesBack(t: Item, key: FlowKey, buf: Buf, orig: seq<Bytes>, part: seq<nat>)
    requires ItemOk(t, key, buf, orig, part) && BufFitted(t, buf) && t.numMerged > 0
    ensures GivesBack(buf, orig, part, key)
  {
    ItemSizes(t, key, buf, orig, part);
    OffloadWellFormed(t, buf.pkt);
    ItemTypeNames(t, key, buf, orig, part);
    SegmentPayload(t, buf, orig, part, 0, 0);
    forall k: nat, seg | k < |part| && SegmentOf(seg, buf.pkt, OffloadOf(t), key.isV6, k)
      ensures RestoresAt(seg, orig, part, k, key)
    {
      SegmentGivesBack(t, key, buf, orig, part, OffloadOf(t), Cut(buf.pkt[t.HeadersLen()..], t.gsoSize), seg, k);
    }
  }

  lemma SegmentGivesBack(t: Item, key: FlowKey, buf: Buf, orig: seq<Bytes>, part: seq<nat>, hdr: VirtioNetHdr,
                         pieces: seq<Bytes>, seg: Bytes, k: nat)
    requires ItemOk(t, key, buf, orig, part) && t.thLen >= (if key.tcp then 20 else 8) && Sized(t, buf.pkt)
    requires hdr == OffloadOf(t) && hdr.hdrLen == t.HeadersLen() && WellFormed(buf.pkt, hdr, key.isV6)
    requires pieces == Cut(buf.pkt[hdr.hdrLen..], hdr.gsoSize) && k < |pieces| == |part|
    requires SegmentOf(seg, buf.pkt, hdr, key.isV6, k)
    ensures RestoresAt(seg, orig, part, k, key)
  {
    SegmentReads(seg, buf.pkt, t, hdr, k, pieces[k], Offset(k, t.gsoSize), k == |pieces| - 1);
    assert AlikeAt(orig, part[0], part[k], key, t.HeadersLen());
    SegmentRestores(t, key, buf, orig, part, pieces, seg, k);
  }

  /** What the accounting leaves in the checksum field is what GsoNoneChecksum, or a device, needs to complete the
      checksum of the whole merged packet. */
  lemma MergedCompletes(pkt: Bytes, t: Item, out: Bytes)
    requires Sized(t, pkt) && HeadersFit(pkt, t) && |out| == |pkt|
    requires var at := OffloadOf(t).csumStart + OffloadOf(t).csumOffset;
      && (forall k :: 0 <= k < |pkt| && !(at <= k < at + 2) ==> out[k] == pkt[k])
      && SumsUp(out[OffloadOf(t).csumStart..], Get16(pkt, at))
    ensures TransportSumsUp(out, t.IpLen(), if t.key.tcp then IPPROTO_TCP else IPPROTO_UDP, t.key.isV6)
  {
    var ip, proto := t.IpLen(), if t.key.tcp then IPPROTO_TCP else IPPROTO_UDP;
    var length: uint16 := |pkt| - ip;
    FoldedStart(out[ip..], Pseudo(pkt, proto, t.key.isV6, length));
    SameAddresses(out, pkt, proto, t.key.isV6, length, ip);
    assert (|out| - ip) % 0x1_0000 == length;
  }

  /** It does not matter whether the initial sum is folded before. */
  lemma FoldedStart(b: Bytes, initial: nat)
    ensures Reference(b, Reference([], initial)) == Reference(b, initial)
  {
    FoldAllIsValue(initial);
    FoldAllIsValue(FoldAll(initial));
    SameReference(b, FoldAll(initial), initial);
  }

  /** What GsoSplit makes of such a packet. */
  lemma SplitRestores(buf: Buf, orig: seq<Bytes>, part: seq<nat>, key: FlowKey, outs: seq<Bytes>, sizes: seq<nat>)
    requires GivesBack(buf, orig, part, key) && |part| <= |outs| <= |sizes|
    requires Segmented(outs, sizes, buf.pkt, buf.vnet.hdr, key.isV6, |part|)
    ensures forall k :: 0 <= k < |part| ==> sizes[k] <= |outs[k]| && RestoresAt(outs[k][..sizes[k]], orig, part, k, key)
  {
    forall k | 0 <= k < |part|
      ensures sizes[k] <= |outs[k]| && RestoresAt(outs[k][..sizes[k]], orig, part, k, key)
    {
      assert SegmentOf(outs[k][..sizes[k]], buf.pkt, buf.vnet.hdr, key.isV6, k);
    }
  }
}
