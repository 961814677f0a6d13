/** Which datagrams conn/bind_std.go puts into one message. */
module Grouping {
  import opened Words
  import opened Chunks

  const MAX_IPV4_PAYLOAD := 65507
  const MAX_IPV6_PAYLOAD := 65527
  const MAX_DATAGRAMS := 64

  /** A datagram in its buffer, which may have room for more. */
  datatype Datagram = Datagram(payload: Bytes, capacity: nat)

  /** `gso` is the segment size in the control data, 0 without one. */
  datatype Message = Message(payload: Bytes, capacity: nat, gso: uint16)

  /** The message that datagrams are being gathered in: the length and capacity of its buffer, its segment size,
      and how many datagrams went in.  A short datagram ends it. */
  datatype Open = Open(length: nat, capacity: nat, gsoSize: nat, dgramCnt: nat, endBatch: bool)
  {
    /** Whether a datagram of `n` bytes is put into it. */
    predicate Joins(n: nat, limit: nat) {
      n + length <= limit && n <= gsoSize && n <= capacity - length && dgramCnt < MAX_DATAGRAMS && !endBatch
    }

    function With(n: nat): Open {
      Open(length + n, capacity, gsoSize, dgramCnt + 1, endBatch || n < gsoSize)
    }
  }

  function Opened(d: Datagram): Open {
    Open(|d.payload|, d.capacity, |d.payload|, 1, false)
  }

  // ---------------------------------------------------------------------------------------------
  // Which datagrams make a message
  // ---------------------------------------------------------------------------------------------

  function Length(bufs: seq<Datagram>, from: nat, to: nat): nat
    requires from <= to <= |bufs|
  {
    if to == from then 0 else Length(bufs, from, to - 1) + |bufs[to - 1].payload|
  }

  function Together(bufs: seq<Datagram>, from: nat, to: nat): (r: Bytes)
    requires from <= to <= |bufs|
    ensures |r| == Length(bufs, from, to)
  {
    if to == from then [] else Together(bufs, from, to - 1) + bufs[to - 1].payload
  }

  /** These datagrams can travel as one message: at most 64, all of one size except for a last one that may be shorter,
      and, if there are several, within the payload limit and within the buffer of the first. */
  ghost predicate OneMessage(bufs: seq<Datagram>, from: nat, to: nat, limit: nat)
    requires from < to <= |bufs|
  {
    && to - from <= MAX_DATAGRAMS
    && (forall j :: from <= j < to - 1 ==> |bufs[j].payload| == |bufs[from].payload|)
    && |bufs[to - 1].payload| <= |bufs[from].payload|
    && (to - from > 1 ==> Length(bufs, from, to) <= limit && Length(bufs, from, to) <= bufs[from].capacity)
  }

  /** Where message k ends, if the messages start at these datagrams and there are i of them. */
  function EndOf(starts: seq<nat>, k: nat, i: nat): nat {
    if k + 1 < |starts| then starts[k + 1] else i
  }

  /** The first i datagrams are divided into messages. */
  ghost predicate Divided(bufs: seq<Datagram>, starts: seq<nat>, i: nat, limit: nat)
    requires i <= |bufs|
  {
    && (i == 0 <==> starts == []) && (i > 0 ==> starts[0] == 0)
    && forall k: nat {:trigger PartAt(bufs, starts, k, i, limit)} :: k < |starts| ==> PartAt(bufs, starts, k, i, limit)
  }

  ghost predicate PartAt(bufs: seq<Datagram>, starts: seq<nat>, k: nat, i: nat, limit: nat)
    requires k < |starts| && i <= |bufs|
  {
    starts[k] < EndOf(starts, k, i) <= i && OneMessage(bufs, starts[k], EndOf(starts, k, i), limit)
  }

  /** No message could have taken the datagram after its last one as well. */
  ghost predicate Greedy(bufs: seq<Datagram>, starts: seq<nat>, i: nat, limit: nat)
    requires i <= |bufs| && Divided(bufs, starts, i, limit)
  {
    forall k: nat {:trigger FullAt(bufs, starts, k, i, limit)} :: k + 1 < |starts| ==> FullAt(bufs, starts, k, i, limit)
  }

  ghost predicate FullAt(bufs: seq<Datagram>, starts: seq<nat>, k: nat, i: nat, limit: nat)
    requires k + 1 < |starts| && i <= |bufs|
  {
    starts[k] < starts[k + 1] < |bufs| && !OneMessage(bufs, starts[k], starts[k + 1] + 1, limit)
  }

  /** The message holds these datagrams, one behind the other; if it is done and there are several, their size goes
      with it. */
  ghost predicate MessageIs(m: Message, bufs: seq<Datagram>, from: nat, to: nat, done: bool)
    requires from < to <= |bufs|
  {
    && m.payload == Together(bufs, from, to) && m.capacity == bufs[from].capacity
    && m.gso == if done && to - from > 1 then |bufs[from].payload| else 0
  }

  ghost predicate Tracks(o: Open, bufs: seq<Datagram>, from: nat, i: nat, limit: nat) {
    && from < i <= |bufs| && OneMessage(bufs, from, i, limit)
    && o == Open(Length(bufs, from, i), bufs[from].capacity, |bufs[from].payload|, i - from,
                 |bufs[i - 1].payload| < |bufs[from].payload|)
  }

  /** The test of the loop asks exactly whether the next datagram can travel with the ones before it. */
  lemma JoinsExactly(o: Open, bufs: seq<Datagram>, from: nat, i: nat, limit: nat)
    requires Tracks(o, bufs, from, i, limit) && i < |bufs|
    ensures o.Joins(|bufs[i].payload|, limit) <==> OneMessage(bufs, from, i + 1, limit)
    ensures o.Joins(|bufs[i].payload|, limit) ==> Tracks(o.With(|bufs[i].payload|), bufs, from, i + 1, limit)
  {
    assert Length(bufs, from, i + 1) == Length(bufs, from, i) + |bufs[i].payload|;
    if OneMessage(bufs, from, i + 1, limit) {
      assert |bufs[i - 1].payload| == |bufs[from].payload|;
    }
  }

  lemma OpensExactly(bufs: seq<Datagram>, i: nat, limit: nat)
    requires i < |bufs|
    ensures Tracks(Opened(bufs[i]), bufs, i, i + 1, limit) && Together(bufs, i, i + 1) == bufs[i].payload
  {
    assert Length(bufs, i, i + 1) == Length(bufs, i, i) + |bufs[i].payload|;
    assert Together(bufs, i, i + 1) == Together(bufs, i, i) + bufs[i].payload;
  }

  /** What the messages are after the first i datagrams. */
  ghost predicate Laid(bufs: seq<Datagram>, i: nat, starts: seq<nat>, msgs: seq<Message>, o: Open, limit: nat)
    requires i <= |bufs|
  {
    && |starts| <= |msgs| && Divided(bufs, starts, i, limit) && Greedy(bufs, starts, i, limit)
    && (starts != [] ==> Tracks(o, bufs, starts[|starts| - 1], i, limit))
    && forall k: nat {:trigger LaidAt(bufs, i, starts, msgs, k)} :: k < |starts| ==> LaidAt(bufs, i, starts, msgs, k)
  }

  ghost predicate LaidAt(bufs: seq<Datagram>, i: nat, starts: seq<nat>, msgs: seq<Message>, k: nat)
    requires i <= |bufs| && k < |starts| <= |msgs|
  {
    && starts[k] < EndOf(starts, k, i) <= |bufs|
    && MessageIs(msgs[k], bufs, starts[k], EndOf(starts, k, i), k + 1 < |starts| || i == |bufs|)
  }

  lemma LaidJoin(bufs: seq<Datagram>, i: nat, starts: seq<nat>, msgs: seq<Message>, msgs': seq<Message>, o: Open,
                 limit: nat)
    requires 0 < i < |bufs| && Laid(bufs, i, starts, msgs, o, limit) && o.Joins(|bufs[i].payload|, limit)
    requires o.gsoSize < 0x1_0000
    requires var b := |starts| - 1;
      msgs' == msgs[b := Message(msgs[b].payload + bufs[i].payload, msgs[b].capacity,
                                 if i + 1 == |bufs| then o.gsoSize else msgs[b].gso)]
    ensures Laid(bufs, i + 1, starts, msgs', o.With(|bufs[i].payload|), limit)
  {
    var b := |starts| - 1;
    JoinsExactly(o, bufs, starts[b], i, limit);
    var i' := i + 1;
    forall k: nat | k < |starts|
      ensures PartAt(bufs, starts, k, i', limit) && LaidAt(bufs, i', starts, msgs', k)
    {
      assert PartAt(bufs, starts, k, i, limit) && LaidAt(bufs, i, starts, msgs, k);
    }
    forall k: nat | k + 1 < |starts|
      ensures FullAt(bufs, starts, k, i', limit)
    {
      assert FullAt(bufs, starts, k, i, limit);
    }
  }

  lemma LaidStart(bufs: seq<Datagram>, i: nat, starts: seq<nat>, msgs: seq<Message>, closed: seq<Message>,
                  msgs': seq<Message>, o: Open, limit: nat)
    requires i < |bufs| && Laid(bufs, i, starts, msgs, o, limit) && |starts| < |msgs|
    requires i > 0 ==> !o.Joins(|bufs[i].payload|, limit)
    requires i > 0 && o.dgramCnt > 1 ==> o.gsoSize < 0x1_0000
    requires closed == if i > 0 && o.dgramCnt > 1
                       then msgs[|starts| - 1 := msgs[|starts| - 1].(gso := o.gsoSize)] else msgs
    requires msgs' == closed[|starts| := Message(bufs[i].payload, bufs[i].capacity, 0)]
    ensures Laid(bufs, i + 1, starts + [i], msgs', Opened(bufs[i]), limit)
  {
    var starts', i' := starts + [i], i + 1;
    OpensExactly(bufs, i, limit);
    if i > 0 {
      JoinsExactly(o, bufs, starts[|starts| - 1], i, limit);
    }
    forall k: nat | k < |starts'|
      ensures PartAt(bufs, starts', k, i', limit) && LaidAt(bufs, i', starts', msgs', k)
    {
      if k < |starts| {
        assert PartAt(bufs, starts, k, i, limit) && LaidAt(bufs, i, starts, msgs, k);
        assert EndOf(starts', k, i') == EndOf(starts, k, i);
      }
    }
    forall k: nat | k + 1 < |starts'|
      ensures FullAt(bufs, starts', k, i', limit)
    {
      if k + 1 < |starts| {
        assert FullAt(bufs, starts, k, i, limit);
      }
    }
  }

  lemma {:induction false} LengthPart(bufs: seq<Datagram>, from: nat, f: nat, t: nat, end: nat)
    requires from <= f <= t <= end <= |bufs|
    ensures Length(bufs, f, t) <= Length(bufs, from, end)
    decreases end
  {
    if t < end {
      LengthPart(bufs, from, f, t, end - 1);
    } else if f < t {
      LengthPart(bufs, from, f, t - 1, t - 1);
    }
  }

  /** Datagrams that can travel together can do so in part, if the buffer of the first of these is large enough. */
  lemma PartOfMessage(bufs: seq<Datagram>, from: nat, f: nat, t: nat, to: nat, limit: nat)
    requires from <= f < t <= to <= |bufs| && OneMessage(bufs, from, to, limit)
    requires f == from || bufs[f].capacity >= limit
    ensures OneMessage(bufs, f, t, limit)
  {
    LengthPart(bufs, from, f, t, to);
  }

  /** Taking as much as possible each time stays ahead of any other way to divide the datagrams. */
  lemma {:induction false} StaysAhead(bufs: seq<Datagram>, starts: seq<nat>, other: seq<nat>, limit: nat, k: nat)
    requires Divided(bufs, starts, |bufs|, limit) && Greedy(bufs, starts, |bufs|, limit)
    requires Divided(bufs, other, |bufs|, limit) && k < |starts|
    requires forall j :: 0 <= j < |bufs| ==> bufs[j].capacity >= limit
    ensures k < |other| && other[k] <= starts[k]
  {
    if k > 0 {
      var m: nat, n := k - 1, |bufs|;
      StaysAhead(bufs, starts, other, limit, m);
      assert PartAt(bufs, starts, m, n, limit) && FullAt(bufs, starts, m, n, limit) && PartAt(bufs, other, m, n, limit);
      var e := EndOf(other, m, n);
      if e > starts[k] {
        PartOfMessage(bufs, other[m], starts[m], starts[k] + 1, e, limit);
        assert false;
      }
    }
  }

  /** If the buffers are large enough there are as few messages as possible. */
  lemma Fewest(bufs: seq<Datagram>, starts: seq<nat>, other: seq<nat>, limit: nat)
    requires Divided(bufs, starts, |bufs|, limit) && Greedy(bufs, starts, |bufs|, limit)
    requires Divided(bufs, other, |bufs|, limit)
    requires forall j :: 0 <= j < |bufs| ==> bufs[j].capacity >= limit
    ensures |starts| <= |other|
  {
    if starts != [] {
      StaysAhead(bufs, starts, other, limit, |starts| - 1);
    }
  }

  /** Otherwise there may be more: the buffer of the first datagram has room for one more, and that one's for two. */
  lemma RoomMatters(limit: nat) returns (bufs: seq<Datagram>, starts: seq<nat>, other: seq<nat>)
    requires limit >= 3
    ensures Divided(bufs, starts, |bufs|, limit) && Greedy(bufs, starts, |bufs|, limit)
    ensures Divided(bufs, other, |bufs|, limit) && |other| < |starts|
  {
    bufs := [Datagram([7], 2), Datagram([7], 3), Datagram([7], 1), Datagram([7], 1)];
    starts, other := [0, 2, 3], [0, 1];
    Ones(bufs);
    assert PartAt(bufs, starts, 0, 4, limit) && PartAt(bufs, starts, 1, 4, limit) && PartAt(bufs, starts, 2, 4, limit);
    assert FullAt(bufs, starts, 0, 4, limit) && FullAt(bufs, starts, 1, 4, limit);
    assert PartAt(bufs, other, 0, 4, limit) && PartAt(bufs, other, 1, 4, limit);
  }

  lemma {:induction false} LengthOfEqual(bufs: seq<Datagram>, from: nat, to: nat, size: nat)
    requires from <= to <= |bufs| && forall j :: from <= j < to ==> |bufs[j].payload| == size
    ensures Length(bufs, from, to) == (to - from) * size
  {
    if from < to {
      LengthOfEqual(bufs, from, to - 1, size);
      assert (to - from) * size == (to - 1 - from) * size + size;
    }
  }

  lemma Ones(bufs: seq<Datagram>)
    requires forall j :: 0 <= j < |bufs| ==> |bufs[j].payload| == 1
    ensures forall from: nat, to: nat :: from <= to <= |bufs| ==> Length(bufs, from, to) == to - from
  {
    forall from: nat, to: nat | from <= to <= |bufs|
      ensures Length(bufs, from, to) == to - from
    {
      LengthOfEqual(bufs, from, to, 1);
    }
  }

  /** Up to 64 datagrams of one size that fit are one message. */
  lemma EqualOnesTogether(bufs: seq<Datagram>, starts: seq<nat>, limit: nat, size: nat)
    requires Divided(bufs, starts, |bufs|, limit) && Greedy(bufs, starts, |bufs|, limit)
    requires 0 < |bufs| <= MAX_DATAGRAMS && forall j :: 0 <= j < |bufs| ==> |bufs[j].payload| == size
    requires |bufs| * size <= limit && |bufs| * size <= bufs[0].capacity
    ensures starts == [0]
  {
    LengthOfEqual(bufs, 0, |bufs|, size);
    assert OneMessage(bufs, 0, |bufs|, limit);
    if |starts| > 1 {
      assert FullAt(bufs, starts, 0, |bufs|, limit);
      PartOfMessage(bufs, 0, 0, starts[1] + 1, |bufs|, limit);
      assert false;
    }
  }
}
