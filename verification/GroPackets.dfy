/** The decisions of receive offload in tun/offload_linux.go: which packets are candidates, which flow they
    belong to, and whether two of them may be merged. */
module GroPackets {
  import opened Words
  import opened Wrappers
  import opened Chunks
  import opened Headers

  const TCP_FLAG_ACK: byte := 0x10
  const TCP_FLAG_PSH: byte := 0x08
  const UDPH_LEN := 8

  datatype Candidate = NotCandidate | TcpCandidate(isV6: bool) | UdpCandidate(isV6: bool)

  function PacketIsGROCandidate(b: Bytes, canUDPGRO: bool): Candidate {
    if |b| < 28 then NotCandidate
    else if b[0] / 16 == 4 then
      if b[0] % 16 != 5 then NotCandidate  // IP options
      else if b[9] == IPPROTO_TCP && |b| >= 40 then TcpCandidate(false)
      else if b[9] == IPPROTO_UDP && canUDPGRO then UdpCandidate(false)
      else NotCandidate
    else if b[0] / 16 == 6 then
      if b[6] == IPPROTO_TCP && |b| >= 60 then TcpCandidate(true)
      else if b[6] == IPPROTO_UDP && |b| >= 48 && canUDPGRO then UdpCandidate(true)
      else NotCandidate
    else NotCandidate
  }

  /** What the candidate test says about a packet. */
  predicate Shaped(pkt: Bytes, tcp: bool, isV6: bool) {
    && |pkt| >= IphLen(isV6) + (if tcp then 20 else UDPH_LEN)
    && (!isV6 ==> pkt[0] % 16 == 5)
  }

  function IphLen(isV6: bool): nat {
    if isV6 then 40 else 20
  }

  lemma CandidateShaped(b: Bytes, canUDPGRO: bool)
    ensures match PacketIsGROCandidate(b, canUDPGRO)
      case NotCandidate => true
      case TcpCandidate(isV6) => Shaped(b, true, isV6)
      case UdpCandidate(isV6) => Shaped(b, false, isV6)
  {
  }

  /** A flow; packets with different acknowledgements count as different TCP flows. */
  datatype FlowKey = FlowKey(tcp: bool, isV6: bool, srcAddr: Bytes, dstAddr: Bytes, srcPort: uint16, dstPort: uint16,
                             rxAck: uint32)

  function NewFlowKey(pkt: Bytes, tcp: bool, isV6: bool): FlowKey
    requires Shaped(pkt, tcp, isV6)
  {
    var at, size, th := SrcAddrAt(isV6), AddrSize(isV6), IphLen(isV6);
    FlowKey(tcp, isV6, pkt[at..at + size], pkt[at + size..at + 2 * size], Get16(pkt, th), Get16(pkt, th + 2),
            if tcp then Get32(pkt, th + 8) else 0)
  }

  /** The parts of a packet that merging looks at. */
  datatype Info = Info(thLen: nat, gsoSize: uint16, sentSeq: uint32, pshSet: bool)

  /** The tests that come before the flow is looked up.  None means that the packet is left alone. */
  function Parse(pkt: Bytes, tcp: bool, isV6: bool): Option<Info>
    requires Shaped(pkt, tcp, isV6)
  {
    var iphLen := IphLen(isV6);
    if |pkt| > 0xffff then None
    else if isV6 && Get16(pkt, 4) != |pkt| - iphLen then None
    else if !isV6 && Get16(pkt, 2) != |pkt| then None
    else
      var thLen := if tcp then pkt[iphLen + 12] / 16 * 4 else UDPH_LEN;
      if tcp && (thLen < 20 || thLen > 60) then None
      else if |pkt| < iphLen + thLen then None
      else if !isV6 && Fragment(pkt) then None
      else if tcp && pkt[iphLen + TCP_FLAGS_OFFSET] != TCP_FLAG_ACK
              && pkt[iphLen + TCP_FLAGS_OFFSET] != TCP_FLAG_ACK + TCP_FLAG_PSH then None
      else if |pkt| - thLen - iphLen < 1 then None
      else Some(Info(thLen, |pkt| - thLen - iphLen, if tcp then Get32(pkt, iphLen + 4) else 0,
                     tcp && pkt[iphLen + TCP_FLAGS_OFFSET] != TCP_FLAG_ACK))
  }

  /** More fragments, or a fragment offset. */
  predicate Fragment(pkt: Bytes)
    requires |pkt| > 7
  {
    pkt[6] / 32 % 2 == 1 || pkt[6] as int * 8 % 0x100 != 0 || pkt[7] != 0
  }

  /** Whether two IP headers are the same where merging needs it. */
  predicate IpHeadersCanCoalesce(pktA: Bytes, pktB: Bytes) {
    if |pktA| < 9 || |pktB| < 9 then false
    else if pktA[0] / 16 == 6 then
      pktA[0] == pktB[0] && pktA[1] / 16 == pktB[1] / 16 && pktA[7] == pktB[7]
    else
      pktA[1] == pktB[1] && pktA[6] / 32 == pktB[6] / 32 && pktA[8] == pktB[8]
  }

  /** Bookkeeping for a packet that others may be merged into.  UDP has no sequence numbers and no PSH. */
  datatype Item = Item(key: FlowKey, bufsIndex: nat, numMerged: uint16, gsoSize: uint16, thLen: nat, sentSeq: uint32,
                       pshSet: bool, cSumKnownInvalid: bool)
  {
    function IpLen(): nat {
      IphLen(key.isV6)
    }

    function HeadersLen(): nat {
      IpLen() + thLen
    }
  }

  datatype CanCoalesce = Prepend | Unavailable | Append

  function UdpPacketsCanCoalesce(pkt: Bytes, info: Info, item: Item, target: Bytes): CanCoalesce
    requires item.gsoSize > 0 && item.HeadersLen() <= |target|
  {
    if !IpHeadersCanCoalesce(pkt, target) then Unavailable
    else if (|target| - item.HeadersLen()) % item.gsoSize != 0 then Unavailable  // a short one ends the item
    else if info.gsoSize > item.gsoSize then Unavailable
    else Append
  }

  /** Where the payload of an item ends, computed in 16 bits. */
  function LhsLen(gsoSize: uint16, numMerged: uint16): uint16 {
    (gsoSize + numMerged * gsoSize) % 0x1_0000
  }

  function TcpPacketsCanCoalesce(pkt: Bytes, info: Info, item: Item, target: Bytes): CanCoalesce
    requires item.gsoSize > 0 && item.HeadersLen() <= |target| && item.IpLen() + info.thLen <= |pkt|
  {
    var iphLen := item.IpLen();
    if info.thLen != item.thLen then Unavailable
    else if info.thLen > 20 && pkt[iphLen + 20..iphLen + info.thLen] != target[iphLen + 20..iphLen + info.thLen] then
      Unavailable  // other options
    else if !IpHeadersCanCoalesce(pkt, target) then Unavailable
    else
      if info.sentSeq == (item.sentSeq + LhsLen(item.gsoSize, item.numMerged)) % 0x1_0000_0000 then
        if item.pshSet then Unavailable
        else if (|target| - item.HeadersLen()) % item.gsoSize != 0 then Unavailable
        else if info.gsoSize > item.gsoSize then Unavailable
        else Append
      else if (info.sentSeq + info.gsoSize) % 0x1_0000_0000 == item.sentSeq then
        if info.pshSet then Unavailable
        else if info.gsoSize < item.gsoSize then Unavailable
        else if info.gsoSize > item.gsoSize && item.numMerged > 0 then Unavailable
        else Prepend
      else Unavailable
  }
}
