/** Segmentation of a large packet in tun/offload_linux.go. */
module Gso {
  import opened Words
  import opened Chunks
  import opened Checksum
  import opened Headers

  const VIRTIO_NET_HDR_GSO_TCPV4: byte := 1
  const VIRTIO_NET_HDR_GSO_TCPV6: byte := 4
  const VIRTIO_NET_HDR_GSO_UDP_L4: byte := 5

  datatype VirtioNetHdr = VirtioNetHdr(gsoType: byte, hdrLen: uint16, gsoSize: uint16, csumStart: uint16,
                                       csumOffset: uint16)
  {
    predicate Tcp() {
      gsoType == VIRTIO_NET_HDR_GSO_TCPV4 || gsoType == VIRTIO_NET_HDR_GSO_TCPV6
    }

    function Protocol(): byte {
      if Tcp() then IPPROTO_TCP else IPPROTO_UDP
    }

    /** The length of the transport header. */
    function TransportLen(): int {
      hdrLen - csumStart
    }
  }

  /** A packet whose headers have room for what is written to them, with the checksum in a word of its own. */
  ghost predicate WellFormed(pkt: Bytes, hdr: VirtioNetHdr, isV6: bool) {
    && |pkt| <= 0xffff && hdr.gsoSize > 0 && hdr.hdrLen <= |pkt|
    && hdr.csumStart >= (if isV6 then 40 else 20)
    && hdr.TransportLen() >= (if hdr.Tcp() then 20 else 8)
    && hdr.csumOffset % 2 == 0 && hdr.csumOffset + 2 <= hdr.TransportLen()
    && hdr.csumOffset != 4 && (hdr.Tcp() ==> hdr.csumOffset != 6 && hdr.csumOffset != 12)
  }

  // ---------------------------------------------------------------------------------------------
  // What a segment must be
  // ---------------------------------------------------------------------------------------------

  function Fin(flags: byte): bool {
    flags % 2 == 1
  }

  function Psh(flags: byte): bool {
    flags / 8 % 2 == 1
  }

  /** flags &^ (FIN | PSH) */
  function Cleared(flags: byte): (r: byte)
    ensures !Fin(r) && !Psh(r)
    ensures r / 2 % 4 == flags / 2 % 4 && r / 16 == flags / 16
  {
    flags / 16 * 16 + flags / 2 % 4 * 2
  }

  /** The IP header of segment i, made from the header of the packet. */
  ghost predicate IpHeaderOf(r: Bytes, ip: Bytes, i: nat, totalLen: nat, isV6: bool)
    requires |ip| >= (if isV6 then 40 else 20) && totalLen <= 0xffff
  {
    && |r| == |ip|
    && if isV6 then
         Get16(r, 4) == totalLen - |ip| && forall k :: 0 <= k < |ip| && !(4 <= k < 6) ==> r[k] == ip[k]
       else
         && Get16(r, 2) == totalLen && Get16(r, 4) == (Get16(ip, 4) + i) % 0x1_0000 && SumsUp(r, 0)
         && forall k :: 0 <= k < |ip| && !(2 <= k < 6) && !(10 <= k < 12) ==> r[k] == ip[k]
  }

  /** The length field of an IP header is right: the total length, or for IPv6 what follows the fixed header. */
  ghost predicate LengthRight(ip: Bytes, totalLen: nat, isV6: bool)
    requires |ip| >= (if isV6 then 40 else 20)
  {
    if isV6 then Get16(ip, 4) == totalLen - 40 else Get16(ip, 2) == totalLen
  }

  /** There are no IPv6 extension headers. */
  predicate PlainHeader(iphLen: nat, isV6: bool) {
    isV6 ==> iphLen == 40
  }

  /** The bytes of the transport header that differ between segments. */
  predicate Rewritten(hdr: VirtioNetHdr, k: nat) {
    || (hdr.csumOffset <= k < hdr.csumOffset + 2)
    || (if hdr.Tcp() then 4 <= k < 8 || k == TCP_FLAGS_OFFSET else 4 <= k < 6)
  }

  /** The transport header of a segment that starts `advance` bytes into the payload, checksum apart. */
  ghost predicate TransportHeaderOf(r: Bytes, th: Bytes, hdr: VirtioNetHdr, advance: nat, last: bool, dataLen: nat)
    requires |th| == hdr.TransportLen() >= (if hdr.Tcp() then 20 else 8)
  {
    && |r| == |th|
    && if hdr.Tcp() then
         && Get32(r, 4) == (Get32(th, 4) + advance) % 0x1_0000_0000
         && r[TCP_FLAGS_OFFSET] == (if last then th[TCP_FLAGS_OFFSET] else Cleared(th[TCP_FLAGS_OFFSET]))
         && forall k :: 0 <= k < |th| && !Rewritten(hdr, k) ==> r[k] == th[k]
       else
         && Get16(r, 4) == |th| + dataLen
         && forall k :: 0 <= k < |th| && !Rewritten(hdr, k) ==> r[k] == th[k]
  }

  /** Segment i of n of a packet: its headers, its share of the payload, and right checksums. */
  ghost predicate SegmentOf(seg: Bytes, pkt: Bytes, hdr: VirtioNetHdr, isV6: bool, i: nat)
    requires WellFormed(pkt, hdr, isV6) && i < |Cut(pkt[hdr.hdrLen..], hdr.gsoSize)|
  {
    var pieces := Cut(pkt[hdr.hdrLen..], hdr.gsoSize);
    var iphLen := hdr.csumStart;
    && |seg| == hdr.hdrLen + |pieces[i]| <= 0xffff
    && seg[hdr.hdrLen..] == pieces[i]
    && IpHeaderOf(seg[..iphLen], pkt[..iphLen], i, |seg|, isV6)
    && TransportHeaderOf(seg[iphLen..hdr.hdrLen], pkt[iphLen..hdr.hdrLen], hdr, i * hdr.gsoSize, i == |pieces| - 1,
                         |pieces[i]|)
    && TransportSumsUp(seg, iphLen, hdr.Protocol(), isV6)
  }

  // ---------------------------------------------------------------------------------------------
  // Filling in one segment
  // ---------------------------------------------------------------------------------------------

  /** The IP header region of the output, where the header of the packet was copied to. */
  method FillIpHeader(e: Endian, ip: Bytes, i: nat, totalLen: nat, isV6: bool) returns (out: Bytes)
    requires |ip| >= (if isV6 then 40 else 20) && |ip| <= totalLen <= 0xffff
    requires !isV6 ==> Get16(ip, 10) == 0
    ensures IpHeaderOf(out, ip, i, totalLen, isV6)
    ensures LengthRight(out, totalLen, isV6) <==> PlainHeader(|ip|, isV6)
  {
    out := ip;
    if !isV6 {
      if i > 0 {
        out := Put16(out, 4, AddWrapping(Get16(out, 4), i));
      }
      ghost var numbered := out;
      assert numbered[10..12] == ip[10..12];
      out := FillIp4Length(e, out, totalLen);
      assert out[4..6] == numbered[4..6];
    } else {
      out := Put16(out, 4, totalLen - |ip|);
    }
  }

  /** x + uint16(y) in 16 bits */
  function AddWrapping(x: uint16, y: nat): (r: uint16)
    ensures r == (x + y) % 0x1_0000
  {
    (x + y % 0x1_0000) % 0x1_0000
  }

  method FillIp4Length(e: Endian, ip: Bytes, totalLen: uint16) returns (out: Bytes)
    requires |ip| >= 20 && Get16(ip, 10) == 0
    ensures |out| == |ip| && Get16(out, 2) == totalLen && SumsUp(out, 0)
    ensures forall k :: 0 <= k < |ip| && !(2 <= k < 4) && !(10 <= k < 12) ==> out[k] == ip[k]
  {
    out := Put16(ip, 2, totalLen);
    assert out[10..12] == ip[10..12];
    PutCompletes(out, 10, 0);
    var sum := Sum(e, out, 0);
    ghost var before := out;
    out := Put16(out, 10, Complement(sum));
    assert out[2..4] == before[2..4];
  }

  /** The transport header region of the output, checksum apart, where the header of the packet was copied to. */
  method FillTransportHeader(th: Bytes, hdr: VirtioNetHdr, advance: uint16, last: bool, dataLen: nat)
    returns (out: Bytes)
    requires |th| == hdr.TransportLen() >= (if hdr.Tcp() then 20 else 8)
    requires |th| + dataLen <= 0xffff
    requires hdr.csumOffset + 2 <= |th| && hdr.csumOffset % 2 == 0
    requires hdr.csumOffset != 4 && (hdr.Tcp() ==> hdr.csumOffset != 6 && hdr.csumOffset != 12)
    ensures TransportHeaderOf(out, th, hdr, advance, last, dataLen)
    ensures Get16(out, hdr.csumOffset) == Get16(th, hdr.csumOffset)
  {
    if hdr.Tcp() {
      out := Put32(th, 4, (Get32(th, 4) + advance) % 0x1_0000_0000);
      ghost var before := out;
      if !last {
        out := ClearFlags(out);
      }
      assert out[4..8] == before[4..8];
    } else {
      out := Put16(th, 4, dataLen % 0x1_0000 + |th|);
    }
    assert out[hdr.csumOffset..hdr.csumOffset + 2] == th[hdr.csumOffset..hdr.csumOffset + 2];
  }

  method ClearFlags(th: Bytes) returns (out: Bytes)
    requires |th| >= 20
    ensures out == th[TCP_FLAGS_OFFSET := Cleared(th[TCP_FLAGS_OFFSET])]
  {
    out := th[TCP_FLAGS_OFFSET := Cleared(th[TCP_FLAGS_OFFSET])];
  }

  /** Stores the checksum of the whole segment. */
  method FillTransportChecksum(e: Endian, out: Bytes, hdr: VirtioNetHdr, isV6: bool) returns (seg: Bytes)
    requires hdr.csumStart <= hdr.csumStart + hdr.csumOffset + 2 <= |out| <= 0xffff && hdr.csumOffset % 2 == 0
    requires SrcAddrAt(isV6) + 2 * AddrSize(isV6) <= hdr.csumStart
    requires Get16(out, hdr.csumStart + hdr.csumOffset) == 0
    ensures |seg| == |out| && TransportSumsUp(seg, hdr.csumStart, hdr.Protocol(), isV6)
    ensures forall k :: 0 <= k < |out| && !(hdr.csumOffset <= k - hdr.csumStart < hdr.csumOffset + 2) ==>
      seg[k] == out[k]
  {
    var iphLen, at := hdr.csumStart, hdr.csumOffset;
    var lenForPseudo := |out| - iphLen;
    var transportCSumNoFold := PseudoSum(e, out, hdr.Protocol(), isV6, lenForPseudo);
    var sum := Sum(e, out[iphLen..], transportCSumNoFold);
    seg := Put16(out, iphLen + at, Complement(sum));
    SubSlice(out, iphLen, |out|, at, at + 2);
    assert out[iphLen..|out|] == out[iphLen..];
    TransportCompleted(out, seg, iphLen, at, hdr.Protocol(), isV6);
  }

  lemma TransportCompleted(out: Bytes, seg: Bytes, iphLen: nat, at: nat, proto: byte, isV6: bool)
    requires iphLen + at + 2 <= |out| <= 0xffff && at % 2 == 0
    requires SrcAddrAt(isV6) + 2 * AddrSize(isV6) <= iphLen && Get16(out[iphLen..], at) == 0
    requires seg == Put16(out, iphLen + at,
                          Complement(Reference(out[iphLen..], Pseudo(out, proto, isV6, |out| - iphLen))))
    ensures TransportSumsUp(seg, iphLen, proto, isV6)
  {
    var initial := Pseudo(out, proto, isV6, |out| - iphLen);
    PutCompletes(out[iphLen..], at, initial);
    PutInTail(out, iphLen, at, Complement(Reference(out[iphLen..], initial)));
    SameAddresses(seg, out, proto, isV6, |out| - iphLen, iphLen);
  }

  lemma PutInTail(b: Bytes, from: nat, at: nat, v: uint16)
    requires from + at + 2 <= |b|
    ensures Put16(b, from + at, v)[from..] == Put16(b[from..], at, v)
  {
    var x, y := Put16(b, from + at, v), Put16(b[from..], at, v);
    WordOf(x[from + at..from + at + 2], y[at..at + 2]);
    forall k | 0 <= k < |y|
      ensures x[from..][k] == y[k]
    {
      assert x[from + at..from + at + 2][0] == x[from + at] && x[from + at..from + at + 2][1] == x[from + at + 1];
      assert y[at..at + 2][0] == y[at] && y[at..at + 2][1] == y[at + 1];
    }
  }

  lemma SameAddresses(x: Bytes, y: Bytes, proto: byte, isV6: bool, length: uint16, n: nat)
    requires SrcAddrAt(isV6) + 2 * AddrSize(isV6) <= n <= |x| && n <= |y|
    requires forall k :: 0 <= k < n ==> x[k] == y[k]
    ensures Pseudo(x, proto, isV6, length) == Pseudo(y, proto, isV6, length)
  {
    var at, size := SrcAddrAt(isV6), AddrSize(isV6);
    assert x[at..at + size] == y[at..at + size];
    assert x[at + size..at + 2 * size] == y[at + size..at + 2 * size];
  }

  // ---------------------------------------------------------------------------------------------
  // The whole packet
  // ---------------------------------------------------------------------------------------------

  /** One segment, from the packet with its checksum fields cleared. */
  method FillSegment(e: Endian, pkt: Bytes, hdr: VirtioNetHdr, isV6: bool, i: nat, advance: uint16, data: Bytes, last: bool)
    returns (seg: Bytes)
    requires WellFormed(pkt, hdr, isV6) && Zeroed(pkt, hdr, isV6) && hdr.hdrLen + |data| <= |pkt|
    ensures |seg| == hdr.hdrLen + |data| && seg[hdr.hdrLen..] == data
    ensures IpHeaderOf(seg[..hdr.csumStart], pkt[..hdr.csumStart], i, |seg|, isV6)
    ensures TransportHeaderOf(seg[hdr.csumStart..hdr.hdrLen], pkt[hdr.csumStart..hdr.hdrLen], hdr, advance, last, |data|)
    ensures TransportSumsUp(seg, hdr.csumStart, hdr.Protocol(), isV6)
  {
    var ip, th := FillHeaders(e, pkt, hdr, isV6, i, advance, |data|, last);
    var out := ip + th + data;
    assert out[hdr.csumStart..hdr.hdrLen] == th;
    SubSlice(out, hdr.csumStart, hdr.hdrLen, hdr.csumOffset, hdr.csumOffset + 2);
    seg := FillTransportChecksum(e, out, hdr, isV6);
    assert seg[..hdr.csumStart] == ip && seg[hdr.hdrLen..] == data;
    Keeps(seg[hdr.csumStart..hdr.hdrLen], th, pkt[hdr.csumStart..hdr.hdrLen], hdr, advance, last, |data|);
  }

  method FillHeaders(e: Endian, pkt: Bytes, hdr: VirtioNetHdr, isV6: bool, i: nat, advance: uint16, dataLen: nat, last: bool)
    returns (ip: Bytes, th: Bytes)
    requires WellFormed(pkt, hdr, isV6) && Zeroed(pkt, hdr, isV6) && hdr.hdrLen + dataLen <= |pkt|
    ensures IpHeaderOf(ip, pkt[..hdr.csumStart], i, hdr.hdrLen + dataLen, isV6)
    ensures TransportHeaderOf(th, pkt[hdr.csumStart..hdr.hdrLen], hdr, advance, last, dataLen)
    ensures Get16(th, hdr.csumOffset) == 0
  {
    var iphLen := hdr.csumStart;
    SubSlice(pkt, 0, iphLen, 10, 12);
    assert pkt[0..iphLen] == pkt[..iphLen];
    ip := FillIpHeader(e, pkt[..iphLen], i, hdr.hdrLen + dataLen, isV6);
    SubSlice(pkt, iphLen, hdr.hdrLen, hdr.csumOffset, hdr.csumOffset + 2);
    th := FillTransportHeader(pkt[iphLen..hdr.hdrLen], hdr, advance, last, dataLen);
  }

  /** The checksum fields of the packet are cleared. */
  ghost predicate Zeroed(pkt: Bytes, hdr: VirtioNetHdr, isV6: bool)
    requires WellFormed(pkt, hdr, isV6)
  {
    Get16(pkt, hdr.csumStart + hdr.csumOffset) == 0 && (!isV6 ==> Get16(pkt, 10) == 0)
  }

  lemma Keeps(r: Bytes, th: Bytes, was: Bytes, hdr: VirtioNetHdr, advance: nat, last: bool, dataLen: nat)
    requires |was| == |r| == hdr.TransportLen() >= (if hdr.Tcp() then 20 else 8)
    requires hdr.csumOffset + 2 <= |was| && hdr.csumOffset % 2 == 0
    requires hdr.csumOffset != 4 && (hdr.Tcp() ==> hdr.csumOffset != 6 && hdr.csumOffset != 12)
    requires TransportHeaderOf(th, was, hdr, advance, last, dataLen)
    requires forall k :: 0 <= k < |th| && !(hdr.csumOffset <= k < hdr.csumOffset + 2) ==> r[k] == th[k]
    ensures TransportHeaderOf(r, was, hdr, advance, last, dataLen)
  {
    if hdr.Tcp() {
      assert r[4..8] == th[4..8];
    } else {
      assert r[4..6] == th[4..6];
    }
  }

  /** Splits the packet and returns the number of segments; `tooMany` if there are not enough buffers. */
  method GsoSplit(e: Endian, input: array<byte>, hdr: VirtioNetHdr, outBuffs: array<Bytes>, sizes: array<nat>, isV6: bool)
    returns (n: int, tooMany: bool)
    requires WellFormed(input[..], hdr, isV6) && outBuffs.Length <= sizes.Length
    requires forall k :: 0 <= k < outBuffs.Length ==> Roomy(outBuffs[k], hdr, input.Length)
    modifies input, outBuffs, sizes
    ensures tooMany <==> outBuffs.Length < |Cut(old(input[hdr.hdrLen..]), hdr.gsoSize)|
    ensures !tooMany ==> n == |Cut(old(input[hdr.hdrLen..]), hdr.gsoSize)| == (input.Length - hdr.hdrLen + hdr.gsoSize - 1) / hdr.gsoSize
    ensures !tooMany ==> Segmented(outBuffs[..], sizes[..], old(input[..]), hdr, isV6, n)
    ensures !tooMany ==> forall k :: 0 <= k < n ==>
      hdr.hdrLen <= sizes[k] <= |outBuffs[k]| &&
      (LengthRight(outBuffs[k][..sizes[k]], sizes[k], isV6) <==> PlainHeader(hdr.csumStart, isV6))
  {
    ghost var orig := input[..];
    ClearChecksums(input, hdr, isV6);
    var pkt := input[..];
    ClearedTail(pkt, orig, hdr, isV6);
    n, tooMany := SplitAll(e, pkt, hdr, outBuffs, sizes, isV6, orig);
    CutLength(pkt[hdr.hdrLen..], hdr.gsoSize);
    if !tooMany {
      LengthsRight(outBuffs[..], sizes[..], orig, hdr, isV6, n);
    }
  }

  /** The length of a segment is right exactly if there are no IPv6 extension headers. */
  lemma LengthRightExactly(seg: Bytes, pkt: Bytes, hdr: VirtioNetHdr, isV6: bool, i: nat)
    requires WellFormed(pkt, hdr, isV6) && i < |Cut(pkt[hdr.hdrLen..], hdr.gsoSize)| && SegmentOf(seg, pkt, hdr, isV6, i)
    ensures hdr.hdrLen <= |seg| && (LengthRight(seg, |seg|, isV6) <==> PlainHeader(hdr.csumStart, isV6))
  {
    var ip := seg[..hdr.csumStart];
    assert ip[2..4] == seg[2..4] && ip[4..6] == seg[4..6];
  }

  /** FIN and PSH are bits 0 and 3 of byte 13.  They are set in the last segment at most, and no other bit changes. */
  lemma FlagsOfSegments(seg: Bytes, pkt: Bytes, hdr: VirtioNetHdr, isV6: bool, i: nat)
    requires WellFormed(pkt, hdr, isV6) && i < |Cut(pkt[hdr.hdrLen..], hdr.gsoSize)| && SegmentOf(seg, pkt, hdr, isV6, i)
    requires hdr.Tcp()
    ensures var at, last := hdr.csumStart + 13, i + 1 == |Cut(pkt[hdr.hdrLen..], hdr.gsoSize)|;
      && at < |seg| && at < |pkt| && (last ==> seg[at] == pkt[at])
      && (!last ==> seg[at] % 2 == 0 && seg[at] / 8 % 2 == 0)
      && seg[at] / 2 % 4 == pkt[at] / 2 % 4 && seg[at] / 16 == pkt[at] / 16
  {
    SliceAt(seg, hdr.csumStart, hdr.hdrLen, TCP_FLAGS_OFFSET);
    SliceAt(pkt, hdr.csumStart, hdr.hdrLen, TCP_FLAGS_OFFSET);
  }

  /** What is done to a packet that needs no cutting but a checksum: what the checksum field holds counts as well.  The
      place of the field is computed in 16 bits. */
  method GsoNoneChecksum(e: Endian, input: array<byte>, csumStart: uint16, csumOffset: uint16)
    requires csumStart <= input.Length && (csumStart + csumOffset) % 0x1_0000 + 2 <= input.Length
    modifies input
    ensures var at := (csumStart + csumOffset) % 0x1_0000;
      && (forall k :: 0 <= k < input.Length && !(at <= k < at + 2) ==> input[k] == old(input[k]))
      && (at == csumStart + csumOffset && csumOffset % 2 == 0 ==>
            SumsUp(input[csumStart..], Get16(old(input[..]), at)))
  {
    var cSumAt := (csumStart + csumOffset) % 0x1_0000;
    var initial := BigUint16(input[cSumAt..cSumAt + 2]);
    input[cSumAt], input[cSumAt + 1] := 0, 0;
    ghost var tail := input[csumStart..];
    var sum := Sum(e, input[csumStart..], initial);
    var w := PutBigUint16(Complement(sum));
    input[cSumAt], input[cSumAt + 1] := w[0], w[1];
    if cSumAt == csumStart + csumOffset && csumOffset % 2 == 0 {
      assert tail[csumOffset..csumOffset + 2] == [0, 0];
      PutCompletes(tail, csumOffset, initial);
      assert input[csumStart..] == Put16(tail, csumOffset, Complement(sum));
    }
  }

  lemma LengthsRight(outs: seq<Bytes>, sizes: seq<nat>, orig: Bytes, hdr: VirtioNetHdr, isV6: bool, n: nat)
    requires WellFormed(orig, hdr, isV6) && n <= |outs| <= |sizes| && Segmented(outs, sizes, orig, hdr, isV6, n)
    ensures forall k :: 0 <= k < n ==>
      hdr.hdrLen <= sizes[k] <= |outs[k]| &&
      (LengthRight(outs[k][..sizes[k]], sizes[k], isV6) <==> PlainHeader(hdr.csumStart, isV6))
  {
    forall k | 0 <= k < n
      ensures hdr.hdrLen <= sizes[k] <= |outs[k]|
      ensures LengthRight(outs[k][..sizes[k]], sizes[k], isV6) <==> PlainHeader(hdr.csumStart, isV6)
    {
      LengthRightExactly(outs[k][..sizes[k]], orig, hdr, isV6, k);
    }
  }

  /** A UDP datagram over IPv6 behind a hop-by-hop header of 8 bytes: of the 17 bytes that follow the fixed header the
      segment announces 9. */
  method ExtensionHeaderNotCounted(e: Endian) returns (seg: Bytes)
    ensures |seg| == 57 && Get16(seg, 4) == 9 && !LengthRight(seg, 57, true)
  {
    var hdr := VirtioNetHdr(VIRTIO_NET_HDR_GSO_UDP_L4, 56, 1, 48, 6);
    var input := new byte[57](_ => 0);
    input[0], input[6], input[40] := 0x60, 0, IPPROTO_UDP;
    var outBuffs := new Bytes[1](_ => seq(57, _ => 0));
    var sizes := new nat[1](_ => 0);
    var n, tooMany := GsoSplit(e, input, hdr, outBuffs, sizes, true);
    seg := outBuffs[0][..sizes[0]];
    assert seg[..48][4..6] == seg[4..6];
  }

  /** The loop over the segments. */
  method SplitAll(e: Endian, pkt: Bytes, hdr: VirtioNetHdr, outBuffs: array<Bytes>, sizes: array<nat>, isV6: bool,
                  ghost orig: Bytes) returns (n: int, tooMany: bool)
    requires WellFormed(orig, hdr, isV6) && ClearedOf(pkt, orig, hdr, isV6) && outBuffs.Length <= sizes.Length
    requires forall k :: 0 <= k < outBuffs.Length ==> Roomy(outBuffs[k], hdr, |pkt|)
    modifies outBuffs, sizes
    ensures tooMany <==> outBuffs.Length < |Cut(pkt[hdr.hdrLen..], hdr.gsoSize)|
    ensures !tooMany ==> n == |Cut(pkt[hdr.hdrLen..], hdr.gsoSize)|
    ensures !tooMany ==> Segmented(outBuffs[..], sizes[..], orig, hdr, isV6, n)
  {
    ReachedStart(pkt, hdr);
    var i: nat, nextSegmentDataAt: int := 0, hdr.hdrLen;
    while nextSegmentDataAt < |pkt|
      invariant 0 <= i <= outBuffs.Length && Reached(pkt, hdr, i, nextSegmentDataAt)
      invariant forall k :: 0 <= k < outBuffs.Length ==> Roomy(outBuffs[k], hdr, |pkt|)
      invariant Segmented(outBuffs[..], sizes[..], orig, hdr, isV6, i)
      decreases |pkt| - nextSegmentDataAt
    {
      if i == outBuffs.Length {
        return i - 1, true;
      }
      nextSegmentDataAt := SplitOne(e, pkt, hdr, outBuffs, sizes, isV6, i, nextSegmentDataAt, orig);
      i := i + 1;
    }
    return i, false;
  }

  /** Room for the largest segment. */
  ghost predicate Roomy(out: Bytes, hdr: VirtioNetHdr, length: nat) {
    |out| >= hdr.hdrLen + hdr.gsoSize || |out| >= length
  }

  ghost predicate Segmented(outs: seq<Bytes>, sizes: seq<nat>, orig: Bytes, hdr: VirtioNetHdr, isV6: bool, n: nat)
    requires WellFormed(orig, hdr, isV6) && n <= |outs| <= |sizes|
  {
    n <= |Cut(orig[hdr.hdrLen..], hdr.gsoSize)| &&
    forall k :: 0 <= k < n ==> sizes[k] <= |outs[k]| && SegmentOf(outs[k][..sizes[k]], orig, hdr, isV6, k)
  }

  /** Where the loop stands before segment i. */
  ghost predicate Reached(pkt: Bytes, hdr: VirtioNetHdr, i: nat, at: int)
    requires hdr.hdrLen <= |pkt| && hdr.gsoSize > 0
  {
    var pieces := Cut(pkt[hdr.hdrLen..], hdr.gsoSize);
    && at == hdr.hdrLen + i * hdr.gsoSize && i <= |pieces|
    && (if at < |pkt| then pieces[i..] == Cut(pkt[at..], hdr.gsoSize) else i == |pieces|)
  }

  lemma ReachedStart(pkt: Bytes, hdr: VirtioNetHdr)
    requires hdr.hdrLen <= |pkt| && hdr.gsoSize > 0
    ensures Reached(pkt, hdr, 0, hdr.hdrLen)
  {
    assert 0 * hdr.gsoSize == 0;
  }

  lemma ReachedStep(pkt: Bytes, hdr: VirtioNetHdr, i: nat, at: nat)
    requires hdr.hdrLen <= |pkt| <= 0xffff && hdr.gsoSize > 0 && Reached(pkt, hdr, i, at) && at < |pkt|
    ensures var pieces := Cut(pkt[hdr.hdrLen..], hdr.gsoSize);
      var end := if at + hdr.gsoSize > |pkt| then |pkt| else at + hdr.gsoSize;
      && i < |pieces| && pieces[i] == pkt[at..end] && (i == |pieces| - 1 <==> end == |pkt|)
      && Reached(pkt, hdr, i + 1, at + hdr.gsoSize)
  {
    var pieces := Cut(pkt[hdr.hdrLen..], hdr.gsoSize);
    CutStep(pkt, hdr.gsoSize, at);
    SuffixStep(pieces, i);
    OneMoreTime(i, hdr.gsoSize);
  }

  lemma SuffixStep(pieces: seq<Bytes>, i: nat)
    requires i <= |pieces| && pieces[i..] != []
    ensures i < |pieces| && pieces[i..][0] == pieces[i] && pieces[i + 1..] == pieces[i..][1..]
  {
  }

  lemma OneMoreTime(i: nat, size: nat)
    ensures (i + 1) * size == i * size + size
  {
  }

  /** The product does not wrap in 16 bits. */
  lemma NoWrap(size: nat, i: nat)
    requires size > 0 && i * size <= 0xffff
    ensures i <= 0xffff && size * (i % 0x1_0000) % 0x1_0000 == i * size
  {
    Grows(i, size);
  }

  lemma Grows(i: nat, size: nat)
    requires size > 0
    ensures i * size >= i
  {
  }

  /** The same packet before and after its checksum fields were cleared. */
  ghost predicate ClearedOf(pkt: Bytes, orig: Bytes, hdr: VirtioNetHdr, isV6: bool)
    requires WellFormed(orig, hdr, isV6)
  {
    && |pkt| == |orig| && Zeroed(pkt, hdr, isV6)
    && forall k :: 0 <= k < |pkt| && !(0 <= k - hdr.csumStart - hdr.csumOffset < 2) && (isV6 || !(10 <= k < 12)) ==>
         pkt[k] == orig[k]
  }

  lemma ClearedTail(pkt: Bytes, orig: Bytes, hdr: VirtioNetHdr, isV6: bool)
    requires WellFormed(orig, hdr, isV6) && ClearedOf(pkt, orig, hdr, isV6)
    ensures pkt[hdr.hdrLen..] == orig[hdr.hdrLen..]
  {
    assert forall k :: hdr.hdrLen <= k < |pkt| ==> pkt[k] == orig[k];
  }

  method ClearChecksums(input: array<byte>, hdr: VirtioNetHdr, isV6: bool)
    requires WellFormed(input[..], hdr, isV6)
    modifies input
    ensures ClearedOf(input[..], old(input[..]), hdr, isV6)
  {
    if !isV6 {
      input[10], input[11] := 0, 0;
    }
    var transportCsumAt := hdr.csumStart + hdr.csumOffset;
    input[transportCsumAt], input[transportCsumAt + 1] := 0, 0;
    assert input[..][transportCsumAt..transportCsumAt + 2] == [0, 0];
    assert !isV6 ==> input[..][10..12] == [0, 0];
  }

  /** What was made from the cleared packet is made from the packet. */
  lemma FromCleared(seg: Bytes, pkt: Bytes, orig: Bytes, hdr: VirtioNetHdr, isV6: bool, i: nat, advance: nat, last: bool,
                    dataLen: nat)
    requires WellFormed(orig, hdr, isV6) && ClearedOf(pkt, orig, hdr, isV6) && hdr.hdrLen <= |seg| <= 0xffff
    requires IpHeaderOf(seg[..hdr.csumStart], pkt[..hdr.csumStart], i, |seg|, isV6)
    requires TransportHeaderOf(seg[hdr.csumStart..hdr.hdrLen], pkt[hdr.csumStart..hdr.hdrLen], hdr, advance, last, dataLen)
    ensures IpHeaderOf(seg[..hdr.csumStart], orig[..hdr.csumStart], i, |seg|, isV6)
    ensures TransportHeaderOf(seg[hdr.csumStart..hdr.hdrLen], orig[hdr.csumStart..hdr.hdrLen], hdr, advance, last, dataLen)
  {
    var ip, ipWas := pkt[..hdr.csumStart], orig[..hdr.csumStart];
    assert forall k :: 4 <= k < 6 ==> ip[k] == pkt[k] && ipWas[k] == orig[k] && pkt[k] == orig[k];
    assert ip[4..6] == ipWas[4..6];
    var th, was := pkt[hdr.csumStart..hdr.hdrLen], orig[hdr.csumStart..hdr.hdrLen];
    forall k | 0 <= k < |th| && !(hdr.csumOffset <= k < hdr.csumOffset + 2)
      ensures th[k] == was[k]
    {
      SliceAt(pkt, hdr.csumStart, hdr.hdrLen, k);
      SliceAt(orig, hdr.csumStart, hdr.hdrLen, k);
    }
    if hdr.Tcp() {
      assert th[4..8] == was[4..8];
    }
  }

  /** One turn of the loop. */
  method SplitOne(e: Endian, pkt: Bytes, hdr: VirtioNetHdr, outBuffs: array<Bytes>, sizes: array<nat>, isV6: bool, i: nat,
                  nextSegmentDataAt: nat, ghost orig: Bytes) returns (next: int)
    requires WellFormed(orig, hdr, isV6) && ClearedOf(pkt, orig, hdr, isV6)
    requires nextSegmentDataAt < |pkt| && Reached(pkt, hdr, i, nextSegmentDataAt)
    requires i < outBuffs.Length <= sizes.Length
    requires forall k :: 0 <= k < outBuffs.Length ==> Roomy(outBuffs[k], hdr, |pkt|)
    requires Segmented(outBuffs[..], sizes[..], orig, hdr, isV6, i)
    modifies outBuffs, sizes
    ensures forall k :: 0 <= k < outBuffs.Length ==> Roomy(outBuffs[k], hdr, |pkt|)
    ensures next == nextSegmentDataAt + hdr.gsoSize && Reached(pkt, hdr, i + 1, next)
    ensures Segmented(outBuffs[..], sizes[..], orig, hdr, isV6, i + 1)
  {
    ReachedStep(pkt, hdr, i, nextSegmentDataAt);
    var nextSegmentEnd := nextSegmentDataAt + hdr.gsoSize;
    if nextSegmentEnd > |pkt| {
      nextSegmentEnd := |pkt|;
    }
    var seg := MakeSegment(e, pkt, hdr, isV6, i, pkt[nextSegmentDataAt..nextSegmentEnd], nextSegmentEnd == |pkt|, orig);
    StoreSegment(outBuffs, sizes, i, seg, hdr, isV6, orig);
    next := nextSegmentDataAt + hdr.gsoSize;
  }

  method MakeSegment(e: Endian, pkt: Bytes, hdr: VirtioNetHdr, isV6: bool, i: nat, data: Bytes, last: bool,
                     ghost orig: Bytes) returns (seg: Bytes)
    requires WellFormed(orig, hdr, isV6) && ClearedOf(pkt, orig, hdr, isV6)
    requires i * hdr.gsoSize <= 0xffff && hdr.hdrLen + |data| <= |pkt|
    requires var pieces := Cut(pkt[hdr.hdrLen..], hdr.gsoSize);
      i < |pieces| && data == pieces[i] && last == (i == |pieces| - 1)
    ensures i < |Cut(orig[hdr.hdrLen..], hdr.gsoSize)| && SegmentOf(seg, orig, hdr, isV6, i)
    ensures |seg| == hdr.hdrLen + |data|
  {
    NoWrap(hdr.gsoSize, i);
    seg := FillSegment(e, pkt, hdr, isV6, i, hdr.gsoSize * (i % 0x1_0000) % 0x1_0000, data, last);
    FromCleared(seg, pkt, orig, hdr, isV6, i, i * hdr.gsoSize, last, |data|);
    ClearedTail(pkt, orig, hdr, isV6);
  }

  method StoreSegment(outBuffs: array<Bytes>, sizes: array<nat>, i: nat, seg: Bytes, hdr: VirtioNetHdr, isV6: bool,
                      ghost orig: Bytes)
    requires WellFormed(orig, hdr, isV6) && i < outBuffs.Length <= sizes.Length
    requires i < |Cut(orig[hdr.hdrLen..], hdr.gsoSize)| && SegmentOf(seg, orig, hdr, isV6, i)
    requires forall k :: 0 <= k < outBuffs.Length ==> Roomy(outBuffs[k], hdr, |orig|)
    requires |seg| <= |outBuffs[i]| && Segmented(outBuffs[..], sizes[..], orig, hdr, isV6, i)
    modifies outBuffs, sizes
    ensures forall k :: 0 <= k < outBuffs.Length ==> Roomy(outBuffs[k], hdr, |orig|)
    ensures Segmented(outBuffs[..], sizes[..], orig, hdr, isV6, i + 1)
  {
    sizes[i] := |seg|;
    outBuffs[i] := seg + outBuffs[i][|seg|..];
    assert outBuffs[i][..sizes[i]] == seg;
  }
}
