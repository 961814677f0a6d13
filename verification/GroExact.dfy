/** When receive offload in tun/offload_linux.go joins a packet to an item, in terms of the packets themselves. */
module GroExact {
  import opened Words
  import opened Chunks
  import opened GroPackets
  import opened GroItems
  import opened GroSplits
  import opened GroTrains

  /** Headers that may differ only where nothing is compared. */
  ghost predicate SameKind(first: Bytes, pkt: Bytes, key: FlowKey) {
    && Admitted(first, key) && Admitted(pkt, key) && InfoOf(first, key).thLen == InfoOf(pkt, key).thLen
    && Alike(first, pkt, key, IphLen(key.isV6) + InfoOf(pkt, key).thLen)
  }

  /** The packet comes right behind the last one, which has full size and no PSH, and is not larger than the others. */
  ghost predicate Continues(first: Bytes, last: Bytes, pkt: Bytes, key: FlowKey) {
    SameKind(first, pkt, key) && Admitted(last, key)
    && ContinuesAt(InfoOf(first, key), InfoOf(last, key), InfoOf(pkt, key), key.tcp)
  }

  predicate ContinuesAt(f: Info, l: Info, p: Info, tcp: bool) {
    && p.gsoSize <= f.gsoSize == l.gsoSize
    && (tcp ==> p.sentSeq == SeqPlus(l.sentSeq, l.gsoSize) && !l.pshSet)
  }

  /** The packet comes right before the first one and has no PSH; it is of the same size, or the first one is alone and
      smaller. */
  ghost predicate Precedes(first: Bytes, pkt: Bytes, key: FlowKey, alone: bool) {
    SameKind(first, pkt, key) && PrecedesAt(InfoOf(first, key), InfoOf(pkt, key), alone)
  }

  predicate PrecedesAt(f: Info, p: Info, alone: bool) {
    && f.sentSeq == SeqPlus(p.sentSeq, p.gsoSize) && !p.pshSet
    && (p.gsoSize == f.gsoSize || (alone && p.gsoSize > f.gsoSize))
  }

  // ---------------------------------------------------------------------------------------------
  // What an item says of its packets
  // ---------------------------------------------------------------------------------------------

  lemma {:induction false} CutTotal(p: Bytes, size: nat)
    requires size > 0 && p != []
    ensures var pieces := Cut(p, size);
      pieces != [] && |p| == (|pieces| - 1) * size + |pieces[|pieces| - 1]|
  {
    if |p| > size {
      var rest := Cut(p[size..], size);
      CutTotal(p[size..], size);
      assert |rest| * size == (|rest| - 1) * size + size;
    }
  }

  /** A packet of an item. */
  lemma MemberAt(t: Item, key: FlowKey, buf: Buf, orig: seq<Bytes>, part: seq<nat>, k: nat)
    requires ItemOk(t, key, buf, orig, part) && k < |part|
    ensures part[k] < |orig| && Admitted(orig[part[k]], key) && InfoOf(orig[part[k]], key).thLen == t.thLen
    ensures |orig[part[k]]| == t.HeadersLen() + InfoOf(orig[part[k]], key).gsoSize
    ensures k < |Cut(buf.pkt[t.HeadersLen()..], t.gsoSize)|
    ensures |Cut(buf.pkt[t.HeadersLen()..], t.gsoSize)[k]| == InfoOf(orig[part[k]], key).gsoSize
  {
    assert Member(orig, part[k], t, k);
    AdmittedLengths(orig[part[k]], key);
    assert Payloads(orig, part, t.HeadersLen())[k] == Payload(orig, part[k], t.HeadersLen());
  }

  lemma MemberSequence(t: Item, key: FlowKey, buf: Buf, orig: seq<Bytes>, part: seq<nat>, k: nat)
    requires ItemOk(t, key, buf, orig, part) && k < |part| && key.tcp
    ensures part[k] < |orig| && Admitted(orig[part[k]], key)
    ensures InfoOf(orig[part[k]], key).sentSeq == SeqPlus(t.sentSeq, Offset(k, t.gsoSize))
  {
    assert Member(orig, part[k], t, k);
    SeqAtOffset(t.sentSeq, t.gsoSize, k);
  }

  lemma SeqAtOffset(first: uint32, size: nat, k: nat)
    ensures SeqAt(first, size, k) == SeqPlus(first, Offset(k, size))
  {
    SeqAtClosed(first, size, k);
  }

  lemma MemberPsh(t: Item, key: FlowKey, buf: Buf, orig: seq<Bytes>, part: seq<nat>, k: nat)
    requires ItemOk(t, key, buf, orig, part) && k < |part| && key.tcp
    ensures part[k] < |orig| && Admitted(orig[part[k]], key)
    ensures InfoOf(orig[part[k]], key).pshSet == (t.pshSet && k == |part| - 1)
  {
    assert Member(orig, part[k], t, k) && MemberFlags(orig, part, t, k);
    AdmittedFlags(orig[part[k]], key);
  }

  lemma SameOffset(a: nat, b: nat, size: nat)
    requires a == b
    ensures a * size == Offset(b, size)
  {
  }

  lemma EndSizes(t: Item, key: FlowKey, buf: Buf, orig: seq<Bytes>, part: seq<nat>, f: nat, l: nat)
    requires ItemOk(t, key, buf, orig, part)
    requires var pieces := Cut(buf.pkt[t.HeadersLen()..], t.gsoSize);
      |pieces| == |part| && f == |pieces[0]| && l == |pieces[|part| - 1]|
    ensures f == t.gsoSize >= l && |buf.pkt| - t.HeadersLen() == Offset(t.numMerged, t.gsoSize) + l
  {
    var p := buf.pkt[t.HeadersLen()..];
    CutTotal(p, t.gsoSize);
    SameOffset(|part| - 1, t.numMerged, t.gsoSize);
    CutSizes(p, t.gsoSize, 0);
    CutSizes(p, t.gsoSize, |part| - 1);
  }

  /** The first and the last packet of an item. */
  lemma ItemEnds(t: Item, key: FlowKey, buf: Buf, orig: seq<Bytes>, part: seq<nat>)
    requires ItemOk(t, key, buf, orig, part)
    ensures part != [] && part[0] < |orig| && part[|part| - 1] < |orig|
    ensures var first, last := orig[part[0]], orig[part[|part| - 1]];
      && Admitted(first, key) && Admitted(last, key) && InfoOf(first, key).thLen == InfoOf(last, key).thLen == t.thLen
      && InfoOf(first, key).gsoSize == t.gsoSize >= InfoOf(last, key).gsoSize
      && |buf.pkt| - t.HeadersLen() == Offset(t.numMerged, t.gsoSize) + InfoOf(last, key).gsoSize
  {
    var m: nat := |part| - 1;
    MemberAt(t, key, buf, orig, part, 0);
    MemberAt(t, key, buf, orig, part, m);
    EndSizes(t, key, buf, orig, part, InfoOf(orig[part[0]], key).gsoSize, InfoOf(orig[part[m]], key).gsoSize);
  }

  lemma NoneFurther(first: uint32, size: nat)
    ensures SeqPlus(first, Offset(0, size)) == first
  {
  }

  lemma ItemStarts(t: Item, key: FlowKey, buf: Buf, orig: seq<Bytes>, part: seq<nat>)
    requires ItemOk(t, key, buf, orig, part) && key.tcp
    ensures part != [] && part[0] < |orig| && Admitted(orig[part[0]], key)
    ensures InfoOf(orig[part[0]], key).sentSeq == t.sentSeq
  {
    MemberSequence(t, key, buf, orig, part, 0);
    NoneFurther(t.sentSeq, t.gsoSize);
  }

  lemma ItemStops(t: Item, key: FlowKey, buf: Buf, orig: seq<Bytes>, part: seq<nat>, m: nat)
    requires ItemOk(t, key, buf, orig, part) && key.tcp && m == t.numMerged
    ensures m == |part| - 1 && part[m] < |orig| && Admitted(orig[part[m]], key)
    ensures InfoOf(orig[part[m]], key).pshSet == t.pshSet
    ensures InfoOf(orig[part[m]], key).sentSeq == SeqPlus(t.sentSeq, Offset(m, t.gsoSize))
  {
    MemberSequence(t, key, buf, orig, part, m);
    MemberPsh(t, key, buf, orig, part, m);
  }

  // ---------------------------------------------------------------------------------------------
  // Headers
  // ---------------------------------------------------------------------------------------------

  /** The tests on the headers. */
  ghost predicate Passes(pkt: Bytes, info: Info, t: Item, target: Bytes) {
    && info.thLen == t.thLen && IpHeadersCanCoalesce(pkt, target) && t.HeadersLen() <= |pkt| && t.HeadersLen() <= |target|
    && (t.key.tcp ==> t.thLen >= 20 && pkt[t.IpLen() + 20..t.HeadersLen()] == target[t.IpLen() + 20..t.HeadersLen()])
  }

  lemma PassesExactly(pkt: Bytes, info: Info, t: Item, target: Bytes, first: Bytes)
    requires Admitted(pkt, t.key) && Admitted(first, t.key) && info == InfoOf(pkt, t.key) && InfoOf(first, t.key).thLen == t.thLen
    requires t.HeadersLen() <= |target| && SameHeader(target, first, t.key, t.HeadersLen())
    ensures Passes(pkt, info, t, target) <==> SameKind(first, pkt, t.key)
  {
    AdmittedLengths(pkt, t.key);
    AdmittedLengths(first, t.key);
    if SameKind(first, pkt, t.key) {
      TrainHeaders(first, pkt, target, t.key, t.HeadersLen());
      if t.key.tcp {
        TrainOptions(first, pkt, target, t.key, t.HeadersLen());
      }
    }
    if Passes(pkt, info, t, target) {
      PassesAgreeing(pkt, info, t, target);
      AgreeingAlike(pkt, target, first, t);
    }
  }

  lemma PassesAgreeing(pkt: Bytes, info: Info, t: Item, target: Bytes)
    requires Passes(pkt, info, t, target)
    ensures Agreeing(pkt, target, t)
  {
    if t.key.tcp {
      var ip, h := t.IpLen(), t.HeadersLen();
      forall k | ip + 20 <= k < h
        ensures pkt[k] == target[k]
      {
        SliceAt(pkt, ip + 20, h, k - (ip + 20));
        SliceAt(target, ip + 20, h, k - (ip + 20));
      }
    }
  }

  // ---------------------------------------------------------------------------------------------
  // Sequence numbers
  // ---------------------------------------------------------------------------------------------

  /** The item is full exactly if its last packet is. */
  lemma FullExactly(m: nat, size: uint16, l: nat, length: nat)
    requires 0 < l <= size && length == Offset(m, size) + l
    ensures length % size == 0 <==> l == size
  {
    if l == size {
      OnceMore(m + 1, size);
      RemainderUnique(length, size, m + 1, 0);
    } else {
      RemainderUnique(length, size, m, l);
    }
  }

  lemma SequenceJoins(first: uint32, a: nat, b: nat)
    ensures SeqPlus(SeqPlus(first, a), b) == SeqPlus(first, a + b)
  {
    ModAdd(first + a, b);
  }

  /** The sum in 16 bits does not matter for full items. */
  lemma FullEnd(first: uint32, size: uint16, numMerged: uint16)
    requires size > 0 && numMerged < 0xffff && Offset(numMerged, size) + size <= 0xffff
    ensures SeqPlus(first, LhsLen(size, numMerged)) == SeqPlus(SeqPlus(first, Offset(numMerged, size)), size)
  {
    OnceMore(numMerged + 1, size);
    LhsIs(size, numMerged + 1);
    SequenceJoins(first, Offset(numMerged, size), size);
  }

  /** The packet cannot be behind the item and before it at once. */
  lemma NotBoth(first: uint32, own: uint32, lhs: uint16, size: uint16)
    requires size > 0 && own == SeqPlus(first, lhs)
    ensures SeqPlus(own, size) != first
  {
    SequenceJoins(first, lhs, size);
  }

  // ---------------------------------------------------------------------------------------------
  // The answers
  // ---------------------------------------------------------------------------------------------

  /** What the item says of its first and its last packet. */
  ghost predicate EndsAre(t: Item, f: Info, l: Info, length: nat) {
    && SizesAre(t, f, l, length) && t.numMerged < 0xffff
    && (t.key.tcp ==>
          f.sentSeq == t.sentSeq && l.pshSet == t.pshSet && l.sentSeq == SeqPlus(t.sentSeq, Offset(t.numMerged, t.gsoSize)))
  }

  ghost predicate SizesAre(t: Item, f: Info, l: Info, length: nat) {
    0 < l.gsoSize <= f.gsoSize == t.gsoSize && length == Offset(t.numMerged, t.gsoSize) + l.gsoSize <= 0xffff
  }

  lemma ItemSizesAre(t: Item, key: FlowKey, buf: Buf, orig: seq<Bytes>, part: seq<nat>, f: Info, l: Info, length: nat)
    requires ItemOk(t, key, buf, orig, part) && part[0] < |orig| && part[|part| - 1] < |orig|
    requires Admitted(orig[part[0]], key) && Admitted(orig[part[|part| - 1]], key) && length == |buf.pkt| - t.HeadersLen()
    requires f == InfoOf(orig[part[0]], key) && l == InfoOf(orig[part[|part| - 1]], key)
    ensures SizesAre(t, f, l, length) && f.thLen == t.thLen && t.numMerged == |part| - 1
  {
    ItemEnds(t, key, buf, orig, part);
    AdmittedLengths(orig[part[|part| - 1]], key);
  }

  lemma ItemSays(t: Item, key: FlowKey, buf: Buf, orig: seq<Bytes>, part: seq<nat>, f: Info, l: Info)
    requires ItemOk(t, key, buf, orig, part) && part[0] < |orig| && part[|part| - 1] < |orig|
    requires Admitted(orig[part[0]], key) && Admitted(orig[part[|part| - 1]], key)
    requires f == InfoOf(orig[part[0]], key) && l == InfoOf(orig[part[|part| - 1]], key)
    ensures EndsAre(t, f, l, |buf.pkt| - t.HeadersLen()) && f.thLen == t.thLen && t.numMerged == |part| - 1
  {
    ItemSizes(t, key, buf, orig, part);
    ItemSizesAre(t, key, buf, orig, part, f, l, |buf.pkt| - t.HeadersLen());
    if key.tcp {
      ItemStarts(t, key, buf, orig, part);
      ItemStops(t, key, buf, orig, part, t.numMerged);
    }
  }

  /** In terms of the item. */
  lemma TcpAnswers(pkt: Bytes, info: Info, t: Item, target: Bytes, f: Info, l: Info)
    requires t.key.tcp && t.HeadersLen() < |target| && t.IpLen() + info.thLen <= |pkt| && info.thLen >= 20
    requires info.gsoSize > 0 && EndsAre(t, f, l, |target| - t.HeadersLen())
    ensures TcpPacketsCanCoalesce(pkt, info, t, target) == Append
       <==> Passes(pkt, info, t, target) && ContinuesAt(f, l, info, true)
    ensures TcpPacketsCanCoalesce(pkt, info, t, target) == Prepend
       <==> Passes(pkt, info, t, target) && PrecedesAt(f, info, t.numMerged == 0)
  {
    var length, lhs := |target| - t.HeadersLen(), LhsLen(t.gsoSize, t.numMerged);
    FullExactly(t.numMerged, t.gsoSize, l.gsoSize, length);
    if l.gsoSize == t.gsoSize {
      FullEnd(t.sentSeq, t.gsoSize, t.numMerged);
    }
    if info.sentSeq == SeqPlus(t.sentSeq, lhs) {
      NotBoth(t.sentSeq, info.sentSeq, lhs, info.gsoSize);
    }
  }

  /** A TCP packet is appended exactly if it continues the item, and prepended exactly if it precedes it. */
  lemma TcpJoinsExactly(t: Item, key: FlowKey, buf: Buf, orig: seq<Bytes>, part: seq<nat>, pkt: Bytes)
    requires ItemOk(t, key, buf, orig, part) && key.tcp && Admitted(pkt, key)
    ensures part != [] && part[0] < |orig| && part[|part| - 1] < |orig|
    ensures t.IpLen() + InfoOf(pkt, key).thLen <= |pkt|
    ensures TcpPacketsCanCoalesce(pkt, InfoOf(pkt, key), t, buf.pkt) == Append
       <==> Continues(orig[part[0]], orig[part[|part| - 1]], pkt, key)
    ensures TcpPacketsCanCoalesce(pkt, InfoOf(pkt, key), t, buf.pkt) == Prepend
       <==> Precedes(orig[part[0]], pkt, key, |part| == 1)
  {
    ItemEnds(t, key, buf, orig, part);
    AdmittedLengths(pkt, key);
    var first, last, info := orig[part[0]], orig[part[|part| - 1]], InfoOf(pkt, key);
    ItemSays(t, key, buf, orig, part, InfoOf(first, key), InfoOf(last, key));
    PassesExactly(pkt, info, t, buf.pkt, first);
    TcpAnswers(pkt, info, t, buf.pkt, InfoOf(first, key), InfoOf(last, key));
  }

  lemma UdpAnswers(pkt: Bytes, info: Info, t: Item, target: Bytes, f: Info, l: Info)
    requires !t.key.tcp && t.HeadersLen() < |target| && t.HeadersLen() <= |pkt| && info.thLen == t.thLen
    requires EndsAre(t, f, l, |target| - t.HeadersLen())
    ensures UdpPacketsCanCoalesce(pkt, info, t, target) == Append
       <==> Passes(pkt, info, t, target) && ContinuesAt(f, l, info, false)
  {
    FullExactly(t.numMerged, t.gsoSize, l.gsoSize, |target| - t.HeadersLen());
  }

  /** A UDP packet is appended exactly if the item has only full packets so far and this one is not larger. */
  lemma UdpJoinsExactly(t: Item, key: FlowKey, buf: Buf, orig: seq<Bytes>, part: seq<nat>, pkt: Bytes)
    requires ItemOk(t, key, buf, orig, part) && !key.tcp && Admitted(pkt, key)
    ensures part != [] && part[0] < |orig| && part[|part| - 1] < |orig|
    ensures UdpPacketsCanCoalesce(pkt, InfoOf(pkt, key), t, buf.pkt) == Append
       <==> Continues(orig[part[0]], orig[part[|part| - 1]], pkt, key)
  {
    ItemEnds(t, key, buf, orig, part);
    ItemSizes(t, key, buf, orig, part);
    AdmittedLengths(pkt, key);
    var first, last, info := orig[part[0]], orig[part[|part| - 1]], InfoOf(pkt, key);
    ItemSays(t, key, buf, orig, part, InfoOf(first, key), InfoOf(last, key));
    PassesExactly(pkt, info, t, buf.pkt, first);
    UdpAnswers(pkt, info, t, buf.pkt, InfoOf(first, key), InfoOf(last, key));
  }
}
