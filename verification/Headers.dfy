/** Fields of packet headers, and what it takes for their checksums to be right. */
module Headers {
  import opened Words
  import opened Chunks
  import opened Checksum

  const IPPROTO_TCP: byte := 6
  const IPPROTO_UDP: byte := 17
  const TCP_FLAGS_OFFSET := 13
  const IPV4_SRC_ADDR_OFFSET := 12
  const IPV6_SRC_ADDR_OFFSET := 8

  function Get16(b: Bytes, at: nat): uint16
    requires at + 2 <= |b|
  {
    BigUint16(b[at..at + 2])
  }

  function Get32(b: Bytes, at: nat): uint32
    requires at + 4 <= |b|
  {
    BigUint32(b[at..at + 4])
  }

  function Put16(b: Bytes, at: nat, v: uint16): (r: Bytes)
    requires at + 2 <= |b|
    ensures |r| == |b| && Get16(r, at) == v
    ensures forall k :: 0 <= k < |b| && !(at <= k < at + 2) ==> r[k] == b[k]
  {
    var w := PutBigUint16(v);
    var r := b[at := w[0]][at + 1 := w[1]];
    assert r[at..at + 2] == w;
    r
  }

  function Put32(b: Bytes, at: nat, v: uint32): (r: Bytes)
    requires at + 4 <= |b|
    ensures |r| == |b| && Get32(r, at) == v
    ensures forall k :: 0 <= k < |b| && !(at <= k < at + 4) ==> r[k] == b[k]
  {
    var w := PutBigUint32(v);
    var r := b[at := w[0]][at + 1 := w[1]][at + 2 := w[2]][at + 3 := w[3]];
    assert r[at..at + 4] == w;
    r
  }

  /** Storing a word at an even position changes the sum by the difference. */
  lemma {:induction false} WordSumPut(b: Bytes, at: nat, v: uint16)
    requires at % 2 == 0 && at + 2 <= |b|
    ensures WordSum(Put16(b, at, v)) == WordSum(b) - Get16(b, at) + v
  {
    var r := Put16(b, at, v);
    if at == 0 {
      assert r[..2] == r[0..2] && b[..2] == b[0..2];
      assert r[2..] == b[2..];
    } else {
      WordSumPut(b[2..], at - 2, v);
      assert r[..2] == b[..2];
      assert b[2..][at - 2..at] == b[at..at + 2];
      var w := Put16(b[2..], at - 2, v);
      forall k | 0 <= k < |w|
        ensures w[k] == r[2..][k]
      {
        assert r[at..at + 2] == PutBigUint16(v) && w[at - 2..at] == PutBigUint16(v) by {
          WordOf(r[at..at + 2], w[at - 2..at]);
        }
        if k == at - 2 {
          assert w[k] == w[at - 2..at][0] && r[at..at + 2][0] == r[at];
        } else if k == at - 1 {
          assert w[k] == w[at - 2..at][1] && r[at..at + 2][1] == r[at + 1];
        }
      }
      assert w == r[2..];
    }
  }

  lemma WordOf(x: Bytes, y: Bytes)
    requires |x| == |y| == 2 && BigUint16(x) == BigUint16(y)
    ensures x == y && x == PutBigUint16(BigUint16(x))
  {
    assert x == [x[0], x[1]] && y == [y[0], y[1]];
  }

  /** The checksum of a header, its own field included, is right. */
  ghost predicate SumsUp(b: Bytes, initial: nat) {
    Reference(b, initial) == 0xffff
  }

  /** Filling a cleared field with the complement of the sum makes it right. */
  lemma PutCompletes(b: Bytes, at: nat, initial: nat)
    requires at % 2 == 0 && at + 2 <= |b| && Get16(b, at) == 0
    ensures SumsUp(Put16(b, at, Complement(Reference(b, initial))), initial)
  {
    WordSumPut(b, at, Complement(Reference(b, initial)));
    ComplementCompletes(initial + WordSum(b));
  }

  function AddrSize(isV6: bool): nat {
    if isV6 then 16 else 4
  }

  function SrcAddrAt(isV6: bool): nat {
    if isV6 then IPV6_SRC_ADDR_OFFSET else IPV4_SRC_ADDR_OFFSET
  }

  /** The pseudo-header sum of a transport segment of `length` bytes under the given IP header. */
  function Pseudo(pkt: Bytes, proto: byte, isV6: bool, length: uint16): nat
    requires |pkt| >= SrcAddrAt(isV6) + 2 * AddrSize(isV6)
  {
    var at, size := SrcAddrAt(isV6), AddrSize(isV6);
    PseudoHeader(proto, pkt[at..at + size], pkt[at + size..at + 2 * size], length)
  }

  /** The checksum of the transport segment of a packet is right. */
  ghost predicate TransportSumsUp(pkt: Bytes, iphLen: nat, proto: byte, isV6: bool)
    requires iphLen <= |pkt| && |pkt| >= SrcAddrAt(isV6) + 2 * AddrSize(isV6)
  {
    SumsUp(pkt[iphLen..], Pseudo(pkt, proto, isV6, (|pkt| - iphLen) % 0x1_0000))
  }

  /** In other words: the pseudo-header and the segment behind it, as bytes, sum up to ones. */
  lemma TransportSumOfBytes(pkt: Bytes, iphLen: nat, proto: byte, isV6: bool)
    requires iphLen <= |pkt| && |pkt| >= SrcAddrAt(isV6) + 2 * AddrSize(isV6)
    ensures var src, dst := SrcAddrAt(isV6), SrcAddrAt(isV6) + AddrSize(isV6);
      TransportSumsUp(pkt, iphLen, proto, isV6)
      <==> SumsUp(PseudoHeaderBytes(proto, pkt[src..dst], pkt[dst..dst + AddrSize(isV6)], (|pkt| - iphLen) % 0x1_0000, isV6)
                  + pkt[iphLen..], 0)
  {
    var src, dst := SrcAddrAt(isV6), SrcAddrAt(isV6) + AddrSize(isV6);
    PseudoHeaderAsBytes(proto, pkt[src..dst], pkt[dst..dst + AddrSize(isV6)], (|pkt| - iphLen) % 0x1_0000, isV6, pkt[iphLen..]);
  }

  method PseudoSum(e: Endian, pkt: Bytes, proto: byte, isV6: bool, length: uint16) returns (r: uint64)
    requires |pkt| >= SrcAddrAt(isV6) + 2 * AddrSize(isV6)
    ensures forall b :: Reference(b, r) == Reference(b, Pseudo(pkt, proto, isV6, length))
  {
    var at, size := SrcAddrAt(isV6), AddrSize(isV6);
    r := PseudoHeaderChecksumNoFold(e, proto, pkt[at..at + size], pkt[at + size..at + 2 * size], length);
    forall b: Bytes
      ensures Reference(b, r) == Reference(b, Pseudo(pkt, proto, isV6, length))
    {
      SameReference(b, r, Pseudo(pkt, proto, isV6, length));
    }
  }

  lemma SameReference(b: Bytes, x: nat, y: nat)
    requires SameSum(x, y)
    ensures Reference(b, x) == Reference(b, y)
  {
    FoldAllIsValue(x + WordSum(b));
    FoldAllIsValue(y + WordSum(b));
    SameSumAdd(x, y, WordSum(b), WordSum(b));
  }

  /** The test of a received packet. */
  method ChecksumValid(e: Endian, pkt: Bytes, iphLen: byte, proto: byte, isV6: bool) returns (ok: bool)
    requires iphLen <= |pkt| && |pkt| >= SrcAddrAt(isV6) + 2 * AddrSize(isV6)
    ensures ok <==> TransportSumsUp(pkt, iphLen, proto, isV6)
  {
    var lenForPseudo := (|pkt| - iphLen) % 0x1_0000;
    var cSum := PseudoSum(e, pkt, proto, isV6, lenForPseudo);
    var sum := Sum(e, pkt[iphLen..], cSum);
    ok := Complement(sum) == 0;
  }
}
