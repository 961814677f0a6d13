/** Segmentation offload of UDP datagrams in conn/bind_std.go: several datagrams travel as one message
    with a segment size, which the receiver cuts up again in place. */
module Batching {
  import opened Words
  import opened Constants
  import opened Wrappers
  import opened Chunks
  import opened Grouping

  /** The datagrams in a message.  Size 0 stands for no segmentation. */
  function Carried(p: Bytes, size: nat): seq<Bytes> {
    if size == 0 then [p] else Cut(p, size)
  }

  // ---------------------------------------------------------------------------------------------
  // Sending
  // ---------------------------------------------------------------------------------------------

  function Payloads(bufs: seq<Datagram>): seq<Bytes> {
    seq(|bufs|, i requires 0 <= i < |bufs| => bufs[i].payload)
  }

  /** What the kernel sends: every message cut at its segment size. */
  function OnTheWire(msgs: seq<Message>): seq<Bytes> {
    if msgs == [] then []
    else OnTheWire(msgs[..|msgs| - 1]) + Carried(msgs[|msgs| - 1].payload, msgs[|msgs| - 1].gso)
  }

  /** The limits of the kernel on a message that is cut. */
  ghost predicate Accepted(m: Message, limit: nat) {
    && m.gso <= |m.payload| <= m.capacity
    && |Carried(m.payload, m.gso)| <= MAX_DATAGRAMS
    && (|Carried(m.payload, m.gso)| > 1 ==> |m.payload| <= limit)
  }

  ghost predicate Finished(msgs: seq<Message>, limit: nat) {
    forall k :: 0 <= k < |msgs| ==> Accepted(msgs[k], limit)
  }

  /** The open message after the first i datagrams.  Only lengths and capacities matter. */
  ghost function OpenAfter(bufs: seq<Datagram>, i: nat, limit: nat): Open
    requires 0 < i <= |bufs|
  {
    if i == 1 then Opened(bufs[0])
    else
      var o, n := OpenAfter(bufs, i - 1, limit), |bufs[i - 1].payload|;
      if o.Joins(n, limit) then o.With(n) else Opened(bufs[i - 1])
  }

  /** An empty datagram is put into the open message. */
  ghost predicate Dropped(bufs: seq<Datagram>, i: nat, limit: nat)
    requires i < |bufs|
  {
    i > 0 && bufs[i].payload == [] && OpenAfter(bufs, i, limit).Joins(0, limit)
  }

  /** The first i datagrams without those. */
  ghost function Kept(bufs: seq<Datagram>, i: nat, limit: nat): seq<Bytes>
    requires i <= |bufs|
  {
    if i == 0 then []
    else Kept(bufs, i - 1, limit) + (if Dropped(bufs, i - 1, limit) then [] else [bufs[i - 1].payload])
  }

  lemma {:induction false} KeptAll(bufs: seq<Datagram>, i: nat, limit: nat)
    requires i <= |bufs|
    ensures |Kept(bufs, i, limit)| <= i
    ensures |Kept(bufs, i, limit)| == i ==> Kept(bufs, i, limit) == Payloads(bufs)[..i]
    ensures |Kept(bufs, i, limit)| == i <==> forall j :: 0 <= j < i ==> !Dropped(bufs, j, limit)
  {
    if i > 0 {
      KeptAll(bufs, i - 1, limit);
      assert Payloads(bufs)[..i] == Payloads(bufs)[..i - 1] + [bufs[i - 1].payload];
    }
  }

  lemma KeptExactly(bufs: seq<Datagram>, limit: nat)
    ensures Kept(bufs, |bufs|, limit) == Payloads(bufs) <==> forall i :: 0 <= i < |bufs| ==> !Dropped(bufs, i, limit)
  {
    KeptAll(bufs, |bufs|, limit);
    assert Payloads(bufs)[..|bufs|] == Payloads(bufs);
  }

  /** An open message, whose segment size may not be written yet.  What it carries is the datagrams that went in,
      the empty ones aside. */
  ghost predicate Gathering(m: Message, o: Open, limit: nat, last: bool) {
    && o.length == |m.payload| && o.capacity == m.capacity && o.gsoSize <= |m.payload| <= m.capacity
    && |Carried(m.payload, o.gsoSize)| <= o.dgramCnt <= MAX_DATAGRAMS && o.dgramCnt > 0
    && (o.gsoSize == 0 ==> m.payload == [])
    && (o.dgramCnt > 1 ==> |m.payload| <= limit)
    && (!o.endBatch && o.gsoSize > 0 ==> Full(m.payload, o.gsoSize))
    && m.gso == (if last && o.dgramCnt > 1 then o.gsoSize else 0)
  }

  lemma GatherMore(m: Message, buf: Bytes, o: Open, limit: nat, last: bool)
    requires limit <= MAX_IPV6_PAYLOAD && Gathering(m, o, limit, false) && o.Joins(|buf|, limit)
    ensures o.gsoSize <= limit
    ensures var joined := m.(payload := m.payload + buf, gso := if last then o.gsoSize else 0);
      && Gathering(joined, o.With(|buf|), limit, last)
      && Carried(joined.payload, o.gsoSize)
         == Carried(m.payload, o.gsoSize) + (if buf == [] then [] else [buf])
  {
    if buf == [] {
      assert m.payload + buf == m.payload;
    } else {
      CutAppend(m.payload, buf, o.gsoSize);
    }
  }

  /** What the messages up to `base` carry, the last of them still open. */
  ghost predicate Carries(msgs: seq<Message>, base: int, o: Open, limit: nat, last: bool, sent: seq<Bytes>)
    requires -1 <= base < |msgs|
  {
    if base == -1 then sent == []
    else
      && Gathering(msgs[base], o, limit, last)
      && OnTheWire(msgs[..base]) + Carried(msgs[base].payload, o.gsoSize) == sent
      && Finished(msgs[..base], limit)
  }

  /** The payload limit for the family of the endpoint. */
  function Limit(is6: bool): nat {
    if is6 then MAX_IPV6_PAYLOAD else MAX_IPV4_PAYLOAD
  }

  lemma OneMoreDatagram(bufs: seq<Datagram>, i: nat, o: Open, limit: nat)
    requires i < |bufs| && (i > 0 ==> o == OpenAfter(bufs, i, limit))
    ensures var n, joins := |bufs[i].payload|, i > 0 && o.Joins(|bufs[i].payload|, limit);
      && OpenAfter(bufs, i + 1, limit) == (if joins then o.With(n) else Opened(bufs[i]))
      && Kept(bufs, i + 1, limit)
         == Kept(bufs, i, limit) + (if joins && bufs[i].payload == [] then [] else [bufs[i].payload])
  {
  }

  /** Fills `msgs` and returns how many of them are used.  All datagrams are sent, in order, exactly if none is
      empty and put into an open message; otherwise all but those are. */
  method CoalesceMessages(is6: bool, bufs: seq<Datagram>, msgs: array<Message>) returns (n: nat, ghost starts: seq<nat>)
    requires |bufs| <= msgs.Length
    requires forall i :: 0 <= i < |bufs| ==> |bufs[i].payload| <= bufs[i].capacity
    modifies msgs
    ensures n <= |bufs|
    ensures OnTheWire(msgs[..n]) == Kept(bufs, |bufs|, Limit(is6))
    ensures OnTheWire(msgs[..n]) == Payloads(bufs) <==>
      forall i :: 0 <= i < |bufs| ==> !Dropped(bufs, i, Limit(is6))
    ensures Finished(msgs[..n], Limit(is6))
    ensures n == |starts| && Divided(bufs, starts, |bufs|, Limit(is6)) && Greedy(bufs, starts, |bufs|, Limit(is6))
    ensures forall k: nat {:trigger LaidAt(bufs, |bufs|, starts, msgs[..], k)} ::
      k < n ==> LaidAt(bufs, |bufs|, starts, msgs[..], k)
  {
    var base;
    ghost var o;
    base, o, starts := EachDatagram(bufs, msgs, Limit(is6));
    n := base + 1;
    AllFinished(msgs[..], base, o, Limit(is6), Kept(bufs, |bufs|, Limit(is6)));
    KeptExactly(bufs, Limit(is6));
  }

  /** The loop over the datagrams. */
  method EachDatagram(bufs: seq<Datagram>, msgs: array<Message>, maxPayloadLen: nat)
    returns (base: int, ghost o: Open, ghost starts: seq<nat>)
    requires |bufs| <= msgs.Length && maxPayloadLen <= MAX_IPV6_PAYLOAD
    requires forall i :: 0 <= i < |bufs| ==> |bufs[i].payload| <= bufs[i].capacity
    modifies msgs
    ensures base < |bufs| && InStep(bufs, |bufs|, msgs[..], base, o, starts, maxPayloadLen)
  {
    starts, base, o := [], -1, Open(0, 0, 0, 0, false);
    var gsoSize: nat, dgramCnt: nat, endBatch := 0, 0, false;
    for i := 0 to |bufs|
      invariant -1 <= base < i && o.gsoSize == gsoSize && o.dgramCnt == dgramCnt && o.endBatch == endBatch
      invariant ProgressOf(bufs, i, msgs[..], base, o, starts, maxPayloadLen) == InOrder
    {
      base, gsoSize, dgramCnt, endBatch, o, starts :=
        NextDatagram(bufs, i, msgs, base, gsoSize, dgramCnt, endBatch, maxPayloadLen, o, starts);
    }
  }

  /** The messages after the first i datagrams. */
  ghost predicate InStep(bufs: seq<Datagram>, i: nat, msgs: seq<Message>, base: int, o: Open, starts: seq<nat>, limit: nat) {
    && i <= |bufs| && -1 <= base < |msgs| && Filled(bufs, i, msgs, base, o, limit)
    && |starts| == base + 1 && Laid(bufs, i, starts, msgs, o, limit)
  }

  /** Whether all is as it should be. */
  datatype Progress = InOrder | Astray

  ghost function ProgressOf(bufs: seq<Datagram>, i: nat, msgs: seq<Message>, base: int, o: Open, starts: seq<nat>,
                            limit: nat): Progress {
    if InStep(bufs, i, msgs, base, o, starts, limit) then InOrder else Astray
  }

  /** One turn of the loop. */
  method NextDatagram(bufs: seq<Datagram>, i: nat, msgs: array<Message>, base0: int, gsoSize0: nat, dgramCnt0: nat,
                      endBatch0: bool, limit: nat, ghost o: Open, ghost starts: seq<nat>)
    returns (base: int, gsoSize: nat, dgramCnt: nat, endBatch: bool, ghost o': Open, ghost starts': seq<nat>)
    requires i < |bufs| <= msgs.Length && |bufs[i].payload| <= bufs[i].capacity && limit <= MAX_IPV6_PAYLOAD
    requires o.gsoSize == gsoSize0 && o.dgramCnt == dgramCnt0 && o.endBatch == endBatch0
    requires -1 <= base0 < i && ProgressOf(bufs, i, msgs[..], base0, o, starts, limit) == InOrder
    modifies msgs
    ensures base0 <= base <= base0 + 1
    ensures o'.gsoSize == gsoSize && o'.dgramCnt == dgramCnt && o'.endBatch == endBatch
    ensures ProgressOf(bufs, i + 1, msgs[..], base, o', starts', limit) == InOrder
  {
    base, gsoSize, dgramCnt, endBatch, o', starts' := base0, gsoSize0, dgramCnt0, endBatch0, o, starts;
    ghost var before := msgs[..];
    var buf := bufs[i].payload;
    if i > 0 && Open(|msgs[base].payload|, msgs[base].capacity, gsoSize, dgramCnt, endBatch).Joins(|buf|, limit) {
      Join(bufs, i, msgs, base, o, gsoSize, limit);
      LaidJoin(bufs, i, starts, before, msgs[..], o, limit);
      o' := o.With(|buf|);
      dgramCnt := dgramCnt + 1;
      if |buf| < gsoSize {
        endBatch := true;
      }
    } else {
      ghost var closed := Start(bufs, i, msgs, base, o, gsoSize, dgramCnt, limit);
      LaidStart(bufs, i, starts, before, closed, msgs[..], o, limit);
      starts' := starts + [i];
      o' := Opened(bufs[i]);
      endBatch := false;
      base := base + 1;
      gsoSize := |buf|;
      dgramCnt := 1;
    }
  }

  /** The first i datagrams are in the messages up to `base`. */
  ghost predicate Filled(bufs: seq<Datagram>, i: nat, msgs: seq<Message>, base: int, o: Open, limit: nat)
    requires i <= |bufs| && -1 <= base < |msgs|
  {
    && (base == -1 <==> i == 0) && (if i == 0 then o.dgramCnt == 0 else o == OpenAfter(bufs, i, limit))
    && Carries(msgs, base, o, limit, i == |bufs|, Kept(bufs, i, limit))
  }

  lemma OneMoreMessage(msgs: seq<Message>, k: nat)
    requires k < |msgs|
    ensures OnTheWire(msgs[..k + 1]) == OnTheWire(msgs[..k]) + Carried(msgs[k].payload, msgs[k].gso)
  {
    assert msgs[..k + 1][..k] == msgs[..k];
  }

  lemma AllFinished(msgs: seq<Message>, base: int, o: Open, limit: nat, sent: seq<Bytes>)
    requires -1 <= base < |msgs| && Carries(msgs, base, o, limit, true, sent)
    ensures OnTheWire(msgs[..base + 1]) == sent && Finished(msgs[..base + 1], limit)
  {
    if base >= 0 {
      OneMoreMessage(msgs, base);
      LastFinished(msgs[base], o, limit);
      assert msgs[..base + 1] == msgs[..base] + [msgs[base]];
    }
  }

  lemma LastFinished(m: Message, o: Open, limit: nat)
    requires Gathering(m, o, limit, true)
    ensures Accepted(m, limit) && Carried(m.payload, m.gso) == Carried(m.payload, o.gsoSize)
  {
    if o.dgramCnt == 1 && o.gsoSize > 0 {
      OnePiece(m.payload, o.gsoSize);
    }
  }

  /** Appends the datagram to the open message. */
  method Join(bufs: seq<Datagram>, i: nat, msgs: array<Message>, base: int, ghost o: Open, gsoSize: nat, limit: nat)
    requires 0 < i < |bufs| && 0 <= base < msgs.Length && limit <= MAX_IPV6_PAYLOAD && gsoSize == o.gsoSize
    requires Filled(bufs, i, msgs[..], base, o, limit) && o.Joins(|bufs[i].payload|, limit)
    modifies msgs
    ensures Filled(bufs, i + 1, msgs[..], base, o.With(|bufs[i].payload|), limit) && gsoSize < 0x1_0000
    ensures var m := old(msgs[..])[base];
      msgs[..] == old(msgs[..])[base := Message(m.payload + bufs[i].payload, m.capacity,
                                                if i + 1 == |bufs| then gsoSize else m.gso)]
  {
    var buf, last := bufs[i].payload, i + 1 == |bufs|;
    GatherMore(msgs[base], buf, o, limit, last);
    ghost var before := msgs[..base];
    msgs[base] := msgs[base].(payload := msgs[base].payload + buf);
    if last {
      msgs[base] := msgs[base].(gso := gsoSize);
    }
    assert msgs[..][..base] == before;
    OneMoreDatagram(bufs, i, o, limit);
  }

  /** Finishes the open message and starts another one with the datagram. */
  method Start(bufs: seq<Datagram>, i: nat, msgs: array<Message>, base: int, ghost o: Open, gsoSize: nat, dgramCnt: nat,
               limit: nat) returns (ghost closed: seq<Message>)
    requires i < |bufs| && -1 <= base < msgs.Length - 1 && limit <= MAX_IPV6_PAYLOAD
    requires |bufs[i].payload| <= bufs[i].capacity && gsoSize == o.gsoSize && dgramCnt == o.dgramCnt
    requires Filled(bufs, i, msgs[..], base, o, limit) && (i > 0 ==> !o.Joins(|bufs[i].payload|, limit))
    modifies msgs
    ensures Filled(bufs, i + 1, msgs[..], base + 1, Opened(bufs[i]), limit)
    ensures dgramCnt > 1 ==> base >= 0 && gsoSize < 0x1_0000
    ensures closed == if dgramCnt > 1 then old(msgs[..])[base := old(msgs[..])[base].(gso := gsoSize)] else old(msgs[..])
    ensures msgs[..] == closed[base + 1 := Message(bufs[i].payload, bufs[i].capacity, 0)]
  {
    var d := bufs[i];
    Close(msgs, base, o, gsoSize, dgramCnt, limit, Kept(bufs, i, limit));
    closed := msgs[..];
    ghost var before := msgs[..base + 1];
    msgs[base + 1] := Message(d.payload, d.capacity, 0);
    assert msgs[..][..base + 1] == before;
    OneDatagram(d.payload);
    OneMoreDatagram(bufs, i, o, limit);
  }

  lemma OneDatagram(p: Bytes)
    ensures Carried(p, |p|) == [p] && Full(p, |p|)
  {
  }

  /** Writes the segment size of the open message if it holds several datagrams. */
  method Close(msgs: array<Message>, base: int, ghost o: Open, gsoSize: nat, dgramCnt: nat, limit: nat,
               ghost sent: seq<Bytes>)
    requires -1 <= base < msgs.Length && limit <= MAX_IPV6_PAYLOAD
    requires gsoSize == o.gsoSize && dgramCnt == o.dgramCnt && (base == -1 ==> dgramCnt == 0)
    requires Carries(msgs[..], base, o, limit, false, sent)
    modifies msgs
    ensures OnTheWire(msgs[..base + 1]) == sent && Finished(msgs[..base + 1], limit)
    ensures dgramCnt > 1 ==> base >= 0 && gsoSize < 0x1_0000
    ensures msgs[..] == if dgramCnt > 1 then old(msgs[..])[base := old(msgs[..])[base].(gso := gsoSize)] else old(msgs[..])
  {
    ghost var before := if base >= 0 then msgs[..base] else [];
    if dgramCnt > 1 {
      msgs[base] := msgs[base].(gso := gsoSize);
    }
    if base >= 0 {
      assert msgs[..][..base] == before;
    }
    AllFinished(msgs[..], base, o, limit, sent);
    assert msgs[..][..base + 1] == msgs[..base + 1];
  }

  /** An empty datagram right after the first one is lost exactly if the first one is within the limit. */
  lemma SecondEmptyDropped(d: Datagram, e: Datagram, limit: nat)
    requires |d.payload| <= d.capacity && e.payload == []
    ensures Dropped([d, e], 1, limit) <==> |d.payload| <= limit
    ensures Dropped([d, e], 1, limit) ==> Kept([d, e], 2, limit) == [d.payload]
  {
    assert OpenAfter([d, e], 1, limit) == Opened(d);
    assert Kept([d, e], 1, limit) == [d.payload];
  }

  // ---------------------------------------------------------------------------------------------
  // Receiving
  // ---------------------------------------------------------------------------------------------

  /** A message slot.  `n` bytes of the buffer are data; what is behind them is left over from earlier use.
      `gso` is missing when the control data cannot be parsed. */
  datatype Slot = Slot(buf: Bytes, n: nat, addr: int, gso: Option<uint16>)

  datatype Piece = Piece(data: Bytes, addr: int)

  datatype Error = NoError | BadControl | Overflow

  /** The pieces written, and how the loop ended. */
  datatype Split = Split(out: seq<Piece>, err: Error)

  /** All buffers have one size, and no more was read into one than fits. */
  ghost predicate Slots(msgs: seq<Slot>, size: nat) {
    forall k :: 0 <= k < |msgs| ==>
      |msgs[k].buf| == size && msgs[k].n <= size && (msgs[k].gso.Some? ==> msgs[k].gso.value <= size)
  }

  /** What the loop takes out of a message.  A segment size larger than the message takes bytes that are not
      part of it. */
  function Taken(m: Slot): seq<Bytes>
    requires m.gso.Some? && m.n <= |m.buf| && m.gso.value <= |m.buf|
  {
    if m.gso.value > m.n then [m.buf[..m.gso.value]] else Carried(m.buf[..m.n], m.gso.value)
  }

  function Pieces(m: Slot): (r: seq<Piece>)
    requires m.gso.Some? && m.n <= |m.buf| && m.gso.value <= |m.buf|
    ensures |r| == |Taken(m)|
  {
    seq(|Taken(m)|, i requires 0 <= i < |Taken(m)| => Piece(Taken(m)[i], m.addr))
  }

  /** The pieces of the messages from `at` on, in order, up to an empty slot; they must never get ahead of the
      messages that they come from. */
  function Gathered(msgs: seq<Slot>, at: nat, out: seq<Piece>, size: nat): Split
    requires Slots(msgs, size)
    decreases |msgs| - at
  {
    if at >= |msgs| || msgs[at].n == 0 then Split(out, NoError)
    else if msgs[at].gso.None? then Split(out, BadControl)
    else
      var more := out + Pieces(msgs[at]);
      if |more| > at + 1 then Split(more[..at + 1], Overflow) else Gathered(msgs, at + 1, more, size)
  }

  ghost predicate Written(msgs: seq<Slot>, out: seq<Piece>) {
    && |out| <= |msgs|
    && forall k :: 0 <= k < |out| ==>
         msgs[k].n == |out[k].data| <= |msgs[k].buf| && msgs[k].buf[..msgs[k].n] == out[k].data && msgs[k].addr == out[k].addr
  }

  /** What every step keeps: the buffers, and the pieces that are written. */
  ghost predicate Ready(msgs: seq<Slot>, out: seq<Piece>, size: nat) {
    Slots(msgs, size) && Written(msgs, out)
  }

  /** Cuts the messages from `firstMsgAt` on and writes the pieces from slot 0 on. */
  method SplitCoalescedMessages(msgs: array<Slot>, firstMsgAt: nat, ghost size: nat) returns (n: nat, err: Error)
    requires firstMsgAt <= msgs.Length && Slots(msgs[..], size)
    modifies msgs
    ensures var result := Gathered(old(msgs[..]), firstMsgAt, [], size);
      err == result.err && n == |result.out| && Ready(msgs[..], result.out, size)
  {
    n, err := 0, NoError;
    ghost var was: seq<Slot>, out: seq<Piece> := msgs[..], [];
    ghost var goal := Gathered(was, firstMsgAt, [], size);
    var i, done := firstMsgAt, false;
    while i < msgs.Length && !done
      invariant firstMsgAt <= i <= msgs.Length && n == |out| && Ready(msgs[..], out, size)
      invariant forall k :: i <= k < msgs.Length ==> msgs[k] == was[k]
      invariant if done then goal == Split(out, err) else err == NoError && n <= i && goal == Gathered(was, i, out, size)
      decreases msgs.Length - i
    {
      n, done, err, out := NextMessage(msgs, i, n, size, out, was);
      i := i + 1;
    }
  }

  /** One turn of the loop. */
  method NextMessage(msgs: array<Slot>, i: nat, at: nat, ghost size: nat, ghost out: seq<Piece>, ghost was: seq<Slot>)
    returns (n: nat, done: bool, err: Error, ghost more: seq<Piece>)
    requires i < msgs.Length == |was| && at == |out| <= i && Ready(msgs[..], out, size)
    requires Slots(was, size) && msgs[i] == was[i]
    modifies msgs
    ensures Ready(msgs[..], more, size) && n == |more|
    ensures forall k :: i < k < msgs.Length ==> msgs[k] == old(msgs[k])
    ensures if done then Gathered(was, i, out, size) == Split(more, err)
            else err == NoError && n <= i + 1 && Gathered(was, i, out, size) == Gathered(was, i + 1, more, size)
  {
    GatheredStep(was, i, out, size);
    if msgs[i].n == 0 {
      return at, true, NoError, out;
    }
    if msgs[i].gso.None? {
      return at, true, BadControl, out;
    }
    more := out + Pieces(was[i]);
    n, done := SplitMessage(msgs, i, at, size, out);
    err := NoError;
    if done {
      err, more := Overflow, more[..i + 1];
    }
  }

  lemma GatheredStep(msgs: seq<Slot>, i: nat, out: seq<Piece>, size: nat)
    requires Slots(msgs, size) && i < |msgs|
    ensures Gathered(msgs, i, out, size) ==
      if msgs[i].n == 0 then Split(out, NoError)
      else if msgs[i].gso.None? then Split(out, BadControl)
      else if |out + Pieces(msgs[i])| > i + 1 then Split((out + Pieces(msgs[i]))[..i + 1], Overflow)
      else Gathered(msgs, i + 1, out + Pieces(msgs[i]), size)
  {
  }

  /** One message: all its pieces, and then nothing of it is left, unless the last piece stayed where it was. */
  method SplitMessage(msgs: array<Slot>, i: nat, at: nat, ghost size: nat, ghost out: seq<Piece>)
    returns (n: nat, overflow: bool)
    requires i < msgs.Length && at == |out| <= i && Ready(msgs[..], out, size)
    requires msgs[i].n > 0 && msgs[i].gso.Some?
    modifies msgs
    ensures forall k :: i < k < msgs.Length ==> msgs[k] == old(msgs[k])
    ensures var more := out + Pieces(old(msgs[i]));
      && overflow == (|more| > i + 1)
      && Ready(msgs[..], if overflow then more[..i + 1] else more, size)
      && n == (if overflow then i + 1 else |more|)
      && (n <= i ==> msgs[i].n == 0)
  {
    ghost var more := out + Pieces(msgs[i]);
    n, overflow := SplitOne(msgs, i, at, size, out);
    if !overflow && i != n - 1 {
      Empty(msgs, i, size, more);
    }
  }

  /** Marks a message as used up. */
  method Empty(msgs: array<Slot>, i: nat, ghost size: nat, ghost out: seq<Piece>)
    requires |out| <= i < msgs.Length && Slots(msgs[..], size) && Written(msgs[..], out)
    modifies msgs
    ensures Slots(msgs[..], size) && Written(msgs[..], out)
    ensures msgs[i] == old(msgs[i]).(n := 0)
    ensures forall k :: 0 <= k < msgs.Length && k != i ==> msgs[k] == old(msgs[k])
  {
    msgs[i] := msgs[i].(n := 0);
  }

  /** The inner loop. */
  method SplitOne(msgs: array<Slot>, i: nat, at: nat, ghost size: nat, ghost out: seq<Piece>)
    returns (n: nat, overflow: bool)
    requires i < msgs.Length && at == |out| <= i && Slots(msgs[..], size) && Written(msgs[..], out)
    requires msgs[i].n > 0 && msgs[i].gso.Some?
    modifies msgs
    ensures Slots(msgs[..], size) && forall k :: i < k < msgs.Length ==> msgs[k] == old(msgs[k])
    ensures var more := out + Pieces(old(msgs[i]));
      && overflow == (|more| > i + 1)
      && Written(msgs[..], if overflow then more[..i + 1] else more)
      && n == if overflow then i + 1 else |more|
  {
    ghost var was, more := msgs[i], out + Pieces(msgs[i]);
    var gsoSize := msgs[i].gso.value;
    var numToSplit := NumToSplit(msgs[i]);
    var start: nat, end: nat := 0, if gsoSize > 0 then gsoSize else msgs[i].n;
    StepsStart(was, end);
    n := at;
    for j := 0 to numToSplit
      invariant n == at + j <= i + 1
      invariant Slots(msgs[..], size) && Written(msgs[..], more[..n])
      invariant forall k :: i < k < msgs.Length ==> msgs[k] == old(msgs[k])
      invariant n <= i ==> msgs[i] == was && Stands(was, j, start, end)
    {
      if n > i {
        return n, true;
      }
      start, end := Emit(msgs, i, n, j, start, end, gsoSize, size, was, more);
      n := n + 1;
    }
    assert more[..n] == more;
    return n, false;
  }

  /** Writes piece j and moves on. */
  method Emit(msgs: array<Slot>, i: nat, n: nat, j: nat, start: nat, end: nat, gsoSize: nat, ghost size: nat,
              ghost was: Slot, ghost more: seq<Piece>) returns (start': nat, end': nat)
    requires n <= i < msgs.Length && Slots(msgs[..], size) && n < |more| && Written(msgs[..], more[..n])
    requires msgs[i] == was && was.gso == Some(gsoSize) && 0 < was.n && j < |Taken(was)| && Stands(was, j, start, end)
    requires more[n] == Piece(Taken(was)[j], was.addr)
    modifies msgs
    ensures Slots(msgs[..], size) && Written(msgs[..], more[..n + 1])
    ensures forall k :: 0 <= k < msgs.Length && k != n ==> msgs[k] == old(msgs[k])
    ensures n < i ==> Stands(was, j + 1, start', end')
  {
    Next(was, j, start, end);
    Put(msgs, n, msgs[i].buf[start..end], msgs[i].addr, size, more[..n]);
    assert more[..n + 1] == more[..n] + [Piece(was.buf[start..end], was.addr)];
    start' := end;
    end' := end + gsoSize;
    if end' > msgs[i].n {
      end' := msgs[i].n;
    }
  }

  method NumToSplit(m: Slot) returns (k: nat)
    requires m.gso.Some? && 0 < m.n <= |m.buf| && m.gso.value <= |m.buf|
    ensures k == |Taken(m)|
  {
    k := 1;
    if m.gso.value > 0 {
      k := (m.n + m.gso.value - 1) / m.gso.value;
    }
    TakenLength(m);
  }

  /** Copies one piece into its slot.  When the slot is the one that is being split, its tail is overwritten
      only as far as the piece reaches. */
  method Put(msgs: array<Slot>, at: nat, data: Bytes, addr: int, ghost size: nat, ghost out: seq<Piece>)
    requires at == |out| < msgs.Length && Slots(msgs[..], size) && Written(msgs[..], out) && |data| <= size
    modifies msgs
    ensures Slots(msgs[..], size) && Written(msgs[..], out + [Piece(data, addr)])
    ensures forall k :: 0 <= k < msgs.Length && k != at ==> msgs[k] == old(msgs[k])
  {
    msgs[at] := msgs[at].(buf := data + msgs[at].buf[|data|..], n := |data|, addr := addr);
  }

  /** Where the inner loop stands before piece j. */
  ghost predicate Stands(m: Slot, j: nat, start: nat, end: nat)
    requires m.gso.Some? && 0 < m.n <= |m.buf| && m.gso.value <= |m.buf|
  {
    j < |Taken(m)| ==>
      var size := m.gso.value;
      if size == 0 || size > m.n then j == start == 0 && end == (if size == 0 then m.n else size)
      else start < m.n && end == (if start + size > m.n then m.n else start + size)
           && Taken(m)[j..] == Cut(m.buf[start..m.n], size)
  }

  lemma StepsStart(m: Slot, end: nat)
    requires m.gso.Some? && 0 < m.n <= |m.buf| && m.gso.value <= |m.buf|
    requires end == if m.gso.value > 0 then m.gso.value else m.n
    ensures Stands(m, 0, 0, end)
  {
    assert Taken(m)[0..] == Taken(m);
  }

  lemma Next(m: Slot, j: nat, start: nat, end: nat)
    requires m.gso.Some? && 0 < m.n <= |m.buf| && m.gso.value <= |m.buf|
    requires j < |Taken(m)| && Stands(m, j, start, end)
    ensures start <= end <= |m.buf| && Taken(m)[j] == m.buf[start..end]
    ensures Stands(m, j + 1, end, if end + m.gso.value > m.n then m.n else end + m.gso.value)
  {
    var size := m.gso.value;
    if 0 < size <= m.n {
      var rest := m.buf[start..m.n];
      var pieces := Cut(rest, size);
      assert Taken(m)[j] == Taken(m)[j..][0] == pieces[0];
      assert Taken(m)[j + 1..] == Taken(m)[j..][1..];
      if |rest| > size {
        SubSlice(m.buf, start, m.n, 0, size);
        SubSlice(m.buf, start, m.n, size, |rest|);
        assert rest[..size] == rest[0..size] && rest[size..] == rest[size..|rest|];
      } else {
        assert rest == m.buf[start..end];
      }
    }
  }

  lemma TakenLength(m: Slot)
    requires m.gso.Some? && 0 < m.n <= |m.buf| && m.gso.value <= |m.buf|
    ensures |Taken(m)| == if m.gso.value == 0 then 1 else (m.n + m.gso.value - 1) / m.gso.value
  {
    if m.gso.value > m.n {
      QuotientUnique(m.n + m.gso.value - 1, m.gso.value, 1, m.n - 1,
                     (m.n + m.gso.value - 1) / m.gso.value, (m.n + m.gso.value - 1) % m.gso.value);
    } else if m.gso.value > 0 {
      CutLength(m.buf[..m.n], m.gso.value);
    }
  }

  // ---------------------------------------------------------------------------------------------
  // The two together
  // ---------------------------------------------------------------------------------------------

  const READ_AT := 126  // IDEAL_BATCH_SIZE - IDEAL_BATCH_SIZE / MAX_DATAGRAMS

  /** With 128 slots, of which the last two are read into, and at most 64 pieces to a message, the pieces never
      get ahead. */
  lemma NeverOverflows(msgs: seq<Slot>, size: nat)
    requires Slots(msgs, size) && |msgs| == IDEAL_BATCH_SIZE
    requires forall k :: READ_AT <= k < |msgs| && msgs[k].n > 0 && msgs[k].gso.Some? ==>
      |Taken(msgs[k])| <= MAX_DATAGRAMS
    ensures READ_AT == IDEAL_BATCH_SIZE - IDEAL_BATCH_SIZE / MAX_DATAGRAMS
    ensures Gathered(msgs, READ_AT, [], size).err != Overflow
  {
    if msgs[126].n > 0 && msgs[126].gso.Some? {
      var more := [] + Pieces(msgs[126]);
      assert |more| <= 64;
      assert Gathered(msgs, 126, [], size) == Gathered(msgs, 127, more, size);
      if msgs[127].n > 0 && msgs[127].gso.Some? {
        assert |Pieces(msgs[127])| <= 64;
        assert Gathered(msgs, 127, more, size) == Gathered(msgs, 128, more + Pieces(msgs[127]), size);
      }
    }
  }

  /** A message is cut where it was put together exactly if the segment size is not larger than the message:
      no byte of it is lost and none is added. */
  lemma TakenIsCut(m: Slot)
    requires m.gso.Some? && 0 < m.n <= |m.buf| && m.gso.value <= |m.buf|
    ensures m.gso.value <= m.n <==> Taken(m) == Carried(m.buf[..m.n], m.gso.value)
  {
    if m.gso.value > m.n {
      assert |Taken(m)[0]| == m.gso.value && Carried(m.buf[..m.n], m.gso.value) == [m.buf[..m.n]];
    }
  }

  /** The slots that a receiver gets when a sender's messages arrive. */
  ghost predicate Arrived(slots: seq<Slot>, at: nat, msgs: seq<Message>, size: nat) {
    && Slots(slots, size) && at + |msgs| <= |slots|
    && (forall k :: 0 <= k < |msgs| ==>
          && slots[at + k].n == |msgs[k].payload| && slots[at + k].buf[..slots[at + k].n] == msgs[k].payload
          && slots[at + k].gso == Some(msgs[k].gso))
    && (forall k :: at + |msgs| <= k < |slots| ==> slots[k].n == 0)
  }

  function Datas(out: seq<Piece>): seq<Bytes> {
    seq(|out|, i requires 0 <= i < |out| => out[i].data)
  }

  /** The pieces so far are the datagrams of the first k messages. */
  ghost predicate SoFar(msgs: seq<Message>, k: nat, out: seq<Piece>)
    requires k <= |msgs|
  {
    Datas(out) == OnTheWire(msgs[..k])
  }

  lemma SoFarStep(msgs: seq<Message>, k: nat, out: seq<Piece>, pieces: seq<Piece>)
    requires k < |msgs| && SoFar(msgs, k, out) && Datas(pieces) == Carried(msgs[k].payload, msgs[k].gso)
    ensures SoFar(msgs, k + 1, out + pieces)
  {
    OneMoreMessage(msgs, k);
    DatasJoin(out, pieces);
  }

  lemma DatasJoin(a: seq<Piece>, b: seq<Piece>)
    ensures Datas(a + b) == Datas(a) + Datas(b)
  {
  }

  /** Whatever is sent comes out again: the pieces are the datagrams, in order. */
  lemma {:induction false} RoundTrip(slots: seq<Slot>, at: nat, msgs: seq<Message>, k: nat, out: seq<Piece>, size: nat)
    requires Arrived(slots, at, msgs, size) && k <= |msgs| && SoFar(msgs, k, out)
    requires forall j :: 0 <= j < |msgs| ==> 0 < |msgs[j].payload| && msgs[j].gso <= |msgs[j].payload|
    requires Gathered(slots, at + k, out, size).err != Overflow
    ensures Gathered(slots, at + k, out, size).err == NoError
    ensures SoFar(msgs, |msgs|, Gathered(slots, at + k, out, size).out)
    decreases |msgs| - k
  {
    if k < |msgs| {
      RoundTripStep(slots, at, msgs, k, out, size);
      RoundTrip(slots, at, msgs, k + 1, out + Pieces(slots[at + k]), size);
    } else {
      assert Gathered(slots, at + k, out, size) == Split(out, NoError);
    }
  }

  lemma RoundTripStep(slots: seq<Slot>, at: nat, msgs: seq<Message>, k: nat, out: seq<Piece>, size: nat)
    requires Arrived(slots, at, msgs, size) && k < |msgs| && SoFar(msgs, k, out)
    requires 0 < |msgs[k].payload| && msgs[k].gso <= |msgs[k].payload|
    requires Gathered(slots, at + k, out, size).err != Overflow
    ensures Gathered(slots, at + k, out, size) == Gathered(slots, at + (k + 1), out + Pieces(slots[at + k]), size)
    ensures SoFar(msgs, k + 1, out + Pieces(slots[at + k]))
  {
    MessageArrives(slots, at, msgs, k, size);
    GatheredStep(slots, at + k, out, size);
    PieceDatas(slots[at + k]);
    SoFarStep(msgs, k, out, Pieces(slots[at + k]));
  }

  lemma PieceDatas(m: Slot)
    requires m.gso.Some? && m.n <= |m.buf| && m.gso.value <= |m.buf|
    ensures Datas(Pieces(m)) == Taken(m)
  {
  }

  lemma MessageArrives(slots: seq<Slot>, at: nat, msgs: seq<Message>, k: nat, size: nat)
    requires Arrived(slots, at, msgs, size) && k < |msgs| && 0 < |msgs[k].payload| && msgs[k].gso <= |msgs[k].payload|
    ensures var m := slots[at + k];
      && 0 < m.n <= |m.buf| && m.gso == Some(msgs[k].gso) && m.gso.value <= |m.buf|
      && Taken(m) == Carried(msgs[k].payload, msgs[k].gso)
  {
    var m := slots[at + k];
    assert m.gso == Some(msgs[k].gso) && m.n == |msgs[k].payload|;
    TakenIsCut(m);
  }

  lemma EmptyCarriesEmpty(m: Message, limit: nat)
    requires Accepted(m, limit)
    ensures m.payload == [] ==> [] in Carried(m.payload, m.gso)
  {
  }

  /** An empty message would show as an empty datagram. */
  lemma {:induction false} EmptyMessageShows(msgs: seq<Message>, limit: nat)
    requires Finished(msgs, limit) && [] !in OnTheWire(msgs)
    ensures forall k :: 0 <= k < |msgs| ==> msgs[k].payload != []
  {
    if msgs != [] {
      assert Accepted(msgs[|msgs| - 1], limit);
      EmptyCarriesEmpty(msgs[|msgs| - 1], limit);
      EmptyMessageShows(msgs[..|msgs| - 1], limit);
      forall k | 0 <= k < |msgs|
        ensures msgs[k].payload != []
      {
        assert k < |msgs| - 1 ==> msgs[k] == msgs[..|msgs| - 1][k];
      }
    }
  }

  /** Two messages of CoalesceMessages, cut in place by a receiver of 128 slots, give back the datagrams. */
  lemma Delivered(slots: seq<Slot>, msgs: seq<Message>, limit: nat, size: nat)
    requires |slots| == IDEAL_BATCH_SIZE && Arrived(slots, READ_AT, msgs, size) && Finished(msgs, limit)
    requires [] !in OnTheWire(msgs)
    ensures Gathered(slots, READ_AT, [], size).err == NoError
    ensures Datas(Gathered(slots, READ_AT, [], size).out) == OnTheWire(msgs)
  {
    EmptyMessageShows(msgs, limit);
    forall k | READ_AT <= k < |slots| && slots[k].n > 0 && slots[k].gso.Some?
      ensures |Taken(slots[k])| <= MAX_DATAGRAMS
    {
      var m := msgs[k - READ_AT];
      assert slots[READ_AT + (k - READ_AT)].gso == Some(m.gso);
      TakenIsCut(slots[k]);
      assert Accepted(m, limit);
    }
    NeverOverflows(slots, size);
    RoundTrip(slots, READ_AT, msgs, 0, [], size);
    assert msgs[..|msgs|] == msgs;
  }
}
