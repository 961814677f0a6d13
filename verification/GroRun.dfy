/** Receive offload in tun/offload_linux.go without its buffers: what each packet of a batch does, as a function. */
module GroRun {
  import opened GroPackets
  import opened GroItems
  import opened GroCoalesce
  import opened GroTables
  import opened GroOrder
  import opened GroDone

  // ---------------------------------------------------------------------------------------------
  // A packet and the items of its flow
  // ---------------------------------------------------------------------------------------------

  /** Whether, and at which end, TCP packet i may join item t. */
  ghost function TcpCan(t: Item, info: Info, bufs: Bufs, i: nat): CanCoalesce {
    if t.key.tcp && t.bufsIndex < i < |bufs| && Mergeable(info, t, bufs[t.bufsIndex], bufs[i])
    then TcpPacketsCanCoalesce(bufs[i].pkt, info, t, bufs[t.bufsIndex].pkt) else Unavailable
  }

  /** What comes of packet i when it meets item t; InsufficientCap stands for nothing at all. */
  ghost function TcpVerdict(t: Item, info: Info, bufs: Bufs, i: nat): CoalesceResult {
    if TcpCan(t, info, bufs, i) == Unavailable then InsufficientCap
    else CoalesceOutcome(TcpCan(t, info, bufs, i), info, t, bufs[t.bufsIndex], bufs[i])
  }

  ghost function TcpVerdicts(items: seq<Item>, info: Info, bufs: Bufs, i: nat): seq<CoalesceResult> {
    seq(|items|, x requires 0 <= x < |items| => TcpVerdict(items[x], info, bufs, i))
  }

  ghost function UdpVerdict(t: Item, info: Info, bufs: Bufs, i: nat): CoalesceResult {
    if t.bufsIndex < i < |bufs| && Mergeable(info, t, bufs[t.bufsIndex], bufs[i])
       && UdpPacketsCanCoalesce(bufs[i].pkt, info, t, bufs[t.bufsIndex].pkt) == Append
    then CoalesceOutcome(Append, info, t, bufs[t.bufsIndex], bufs[i]) else InsufficientCap
  }

  /** UDP packets are tried with the last item only. */
  ghost function LastVerdict(items: seq<Item>, info: Info, bufs: Bufs, i: nat): CoalesceResult {
    if items == [] then InsufficientCap else UdpVerdict(items[|items| - 1], info, bufs, i)
  }

  /** The items are tried from the last one on; the first that takes the packet, or finds its checksum wrong, decides. */
  function Decided(verdicts: seq<CoalesceResult>): GroResult {
    if verdicts == [] then TableInsert
    else
      match verdicts[|verdicts| - 1]
      case Success => Coalesced
      case PktInvalidCSum => Noop
      case _ => Decided(verdicts[..|verdicts| - 1])
  }

  /** The item that takes the packet. */
  function Taker(verdicts: seq<CoalesceResult>): (x: nat)
    requires Decided(verdicts) == Coalesced
    ensures x < |verdicts| && verdicts[x] == Success
  {
    if verdicts[|verdicts| - 1] == Success then |verdicts| - 1 else Taker(verdicts[..|verdicts| - 1])
  }

  predicate Decides(verdict: CoalesceResult) {
    verdict == Success || verdict == PktInvalidCSum
  }

  /** Of the items that would decide the last one does. */
  predicate DecidesAt(verdicts: seq<CoalesceResult>, x: nat) {
    x < |verdicts| && Decides(verdicts[x]) && forall y :: x < y < |verdicts| ==> !Decides(verdicts[y])
  }

  lemma {:induction false} DecidedExactly(verdicts: seq<CoalesceResult>)
    ensures Decided(verdicts) == TableInsert <==> forall x :: 0 <= x < |verdicts| ==> !Decides(verdicts[x])
    ensures Decided(verdicts) == Coalesced <==> exists x: nat :: DecidesAt(verdicts, x) && verdicts[x] == Success
    ensures Decided(verdicts) == Coalesced ==> DecidesAt(verdicts, Taker(verdicts))
  {
    if verdicts != [] {
      var m := |verdicts| - 1;
      var rest := verdicts[..m];
      DecidedExactly(rest);
      if Decides(verdicts[m]) {
        assert DecidesAt(verdicts, m);
      } else {
        assert forall x: nat :: DecidesAt(verdicts, x) <==> DecidesAt(rest, x);
      }
    }
  }

  /** What is left of the items: those whose own checksum turns out wrong on the way are deleted. */
  function Swept(items: seq<Item>, verdicts: seq<CoalesceResult>): seq<Item>
    requires |items| == |verdicts|
  {
    if items == [] then []
    else
      var m := |items| - 1;
      match verdicts[m]
      case Success => items
      case PktInvalidCSum => items
      case ItemInvalidCSum => Swept(items[..m], verdicts[..m])
      case _ => Swept(items[..m], verdicts[..m]) + [items[m]]
  }

  /** The buffers of the deleted ones. */
  function Gone(items: seq<Item>, verdicts: seq<CoalesceResult>): set<nat>
    requires |items| == |verdicts|
  {
    if items == [] then {}
    else
      var m := |items| - 1;
      match verdicts[m]
      case Success => {}
      case PktInvalidCSum => {}
      case ItemInvalidCSum => Gone(items[..m], verdicts[..m]) + {items[m].bufsIndex}
      case _ => Gone(items[..m], verdicts[..m])
  }

  /** The items up to the one that takes the packet stay where they are. */
  lemma {:induction false} TakerStays(items: seq<Item>, verdicts: seq<CoalesceResult>)
    requires |items| == |verdicts| && Decided(verdicts) == Coalesced
    ensures Taker(verdicts) < |Swept(items, verdicts)|
    ensures Swept(items, verdicts)[Taker(verdicts)] == items[Taker(verdicts)]
  {
    var m := |items| - 1;
    if verdicts[m] != Success {
      TakerStays(items[..m], verdicts[..m]);
    }
  }

  // ---------------------------------------------------------------------------------------------
  // One packet
  // ---------------------------------------------------------------------------------------------

  /** What a packet does to the buffers, to their contents and to the table of its protocol, and which packets are
      dropped from it. */
  datatype Step = Step(result: GroResult, bufs: Bufs, parts: Parts, table: Flows, gone: set<nat>)

  ghost function MergeStep(mode: CanCoalesce, info: Info, key: FlowKey, x: nat, bufs: Bufs, parts: Parts, m: Flows,
                           i: nat, gone: set<nat>): (s: Step)
    requires i < |bufs| == |parts| && key in m && x < |m[key]| && m[key][x].bufsIndex < i
    requires Mergeable(info, m[key][x], bufs[m[key][x].bufsIndex], bufs[i])
    ensures |s.bufs| == |s.parts| == |bufs|
  {
    var t := m[key][x];
    Step(Coalesced, MergedBufs(mode, info, t, bufs, i),
         parts[t.bufsIndex := MergedPart(mode, parts[t.bufsIndex], i)],
         m[key := m[key][x := Merged(mode, info, t)]], gone)
  }

  /** The table without the deleted items. */
  function Sweep(m: Flows, key: FlowKey, verdicts: seq<CoalesceResult>): Flows
    requires |verdicts| == |ItemsOf(m, key)|
  {
    if key in m then m[key := Swept(m[key], verdicts)] else m
  }

  ghost function TcpStep(bufs: Bufs, parts: Parts, m: Flows, key: FlowKey, info: Info, i: nat): (s: Step)
    requires i < |bufs| == |parts|
    ensures |s.bufs| == |s.parts| == |bufs|
  {
    var items := ItemsOf(m, key);
    var verdicts := TcpVerdicts(items, info, bufs, i);
    var left, gone := Sweep(m, key, verdicts), Gone(items, verdicts);
    match Decided(verdicts)
    case Noop => Step(Noop, Marked(bufs, i), parts[i := [i]], left, gone)
    case TableInsert => Step(TableInsert, bufs, parts[i := [i]], Inserted(left, NewItem(key, i, info, false)), gone)
    case Coalesced =>
      TakerStays(items, verdicts);
      var x := Taker(verdicts);
      MergeStep(TcpCan(items[x], info, bufs, i), info, key, x, bufs, parts, left, i, gone)
  }

  ghost function UdpStep(bufs: Bufs, parts: Parts, m: Flows, key: FlowKey, info: Info, i: nat): (s: Step)
    requires i < |bufs| == |parts|
    ensures |s.bufs| == |s.parts| == |bufs|
  {
    var items := ItemsOf(m, key);
    var verdict := LastVerdict(items, info, bufs, i);
    if verdict == Success then MergeStep(Append, info, key, |items| - 1, bufs, parts, m, i, {})
    else Step(TableInsert, bufs, parts[i := [i]], Inserted(m, NewItem(key, i, info, verdict == PktInvalidCSum)), {})
  }

  // ---------------------------------------------------------------------------------------------
  // A batch
  // ---------------------------------------------------------------------------------------------

  datatype Run = Run(bufs: Bufs, parts: Parts, tcp: Flows, udp: Flows, done: Done)

  function Advance(d: Done, result: GroResult, gone: set<nat>, i: nat): Done {
    Done(if result == Noop then d.noted + {i} else d.noted, d.dropped + gone)
  }

  lemma NoneGone(d: Done, result: GroResult, i: nat)
    requires result != Noop
    ensures Advance(d, result, {}, i) == d
  {
    assert d.dropped + {} == d.dropped;
  }

  ghost function LeaveStep(bufs: Bufs, parts: Parts, m: Flows, i: nat): Step
    requires i < |bufs| == |parts|
  {
    Step(Noop, Marked(bufs, i), parts[i := [i]], m, {})
  }

  ghost function TcpPacketStep(bufs: Bufs, parts: Parts, m: Flows, isV6: bool, i: nat): (s: Step)
    requires i < |bufs| == |parts| && Shaped(bufs[i].pkt, true, isV6)
    ensures |s.bufs| == |s.parts| == |bufs|
  {
    match Parse(bufs[i].pkt, true, isV6)
    case None => LeaveStep(bufs, parts, m, i)
    case Some(info) => TcpStep(bufs, parts, m, NewFlowKey(bufs[i].pkt, true, isV6), info, i)
  }

  ghost function UdpPacketStep(bufs: Bufs, parts: Parts, m: Flows, isV6: bool, i: nat): (s: Step)
    requires i < |bufs| == |parts| && Shaped(bufs[i].pkt, false, isV6)
    ensures |s.bufs| == |s.parts| == |bufs|
  {
    match Parse(bufs[i].pkt, false, isV6)
    case None => LeaveStep(bufs, parts, m, i)
    case Some(info) => UdpStep(bufs, parts, m, NewFlowKey(bufs[i].pkt, false, isV6), info, i)
  }

  ghost function Next(r: Run, i: nat, canUDPGRO: bool): (r': Run)
    requires i < |r.bufs| == |r.parts|
    ensures |r'.bufs| == |r'.parts| == |r.bufs|
  {
    CandidateShaped(r.bufs[i].pkt, canUDPGRO);
    match PacketIsGROCandidate(r.bufs[i].pkt, canUDPGRO)
    case TcpCandidate(isV6) =>
      var s := TcpPacketStep(r.bufs, r.parts, r.tcp, isV6, i);
      Run(s.bufs, s.parts, s.table, r.udp, Advance(r.done, s.result, s.gone, i))
    case UdpCandidate(isV6) =>
      var s := UdpPacketStep(r.bufs, r.parts, r.udp, isV6, i);
      Run(s.bufs, s.parts, r.tcp, s.table, Advance(r.done, s.result, s.gone, i))
    case NotCandidate =>
      Run(Marked(r.bufs, i), r.parts[i := [i]], r.tcp, r.udp, Advance(r.done, Noop, {}, i))
  }

  /** After the first n packets. */
  ghost function After(start: Bufs, canUDPGRO: bool, n: nat): (r: Run)
    requires n <= |start|
    ensures |r.bufs| == |r.parts| == |start|
  {
    if n == 0 then Run(start, Nothing(|start|), map[], map[], Done({}, {}))
    else Next(After(start, canUDPGRO, n - 1), n - 1, canUDPGRO)
  }

  // ---------------------------------------------------------------------------------------------
  // Trying the items one by one
  // ---------------------------------------------------------------------------------------------

  /** The first i items have not been tried yet; `kept` and `gone` is what became of the others. */
  ghost predicate Sweeping(items: seq<Item>, was: seq<Item>, verdicts: seq<CoalesceResult>, i: nat, kept: seq<Item>,
                           gone: set<nat>) {
    && i <= |was| == |verdicts| && items == was[..i] + kept
    && Swept(was, verdicts) == Swept(was[..i], verdicts[..i]) + kept
    && Gone(was, verdicts) == Gone(was[..i], verdicts[..i]) + gone
    && Decided(verdicts) == Decided(verdicts[..i])
    && (Decided(verdicts) == Coalesced ==> Taker(verdicts) == Taker(verdicts[..i]))
  }

  lemma SweepStart(was: seq<Item>, verdicts: seq<CoalesceResult>)
    requires |was| == |verdicts|
    ensures Sweeping(was, was, verdicts, |was|, [], {})
  {
    assert was[..|was|] == was && verdicts[..|was|] == verdicts;
  }

  /** Item i - 1 is tried and found wrong, or nothing comes of it. */
  lemma SweepStep(items: seq<Item>, was: seq<Item>, verdicts: seq<CoalesceResult>, i: nat, kept: seq<Item>,
                  gone: set<nat>)
    requires 0 < i && Sweeping(items, was, verdicts, i, kept, gone)
    requires verdicts[i - 1] != Success && verdicts[i - 1] != PktInvalidCSum
    ensures i - 1 < |items| && items[i - 1] == was[i - 1]
    ensures verdicts[i - 1] == ItemInvalidCSum ==>
      Sweeping(Removed(items, i - 1), was, verdicts, i - 1, kept, gone + {was[i - 1].bufsIndex})
    ensures verdicts[i - 1] != ItemInvalidCSum ==>
      Sweeping(items, was, verdicts, i - 1, [was[i - 1]] + kept, gone)
  {
    var m := i - 1;
    assert was[..i][..m] == was[..m] && verdicts[..i][..m] == verdicts[..m];
    assert was[..i] == was[..m] + [was[m]];
    assert Removed(items, m) == was[..m] + kept;
    var before := Swept(was[..m], verdicts[..m]);
    assert (before + [was[m]]) + kept == before + ([was[m]] + kept);
    assert items == was[..m] + ([was[m]] + kept);
  }

  /** Item i - 1 decides. */
  lemma SweepStop(items: seq<Item>, was: seq<Item>, verdicts: seq<CoalesceResult>, i: nat, kept: seq<Item>,
                  gone: set<nat>)
    requires 0 < i && Sweeping(items, was, verdicts, i, kept, gone)
    requires verdicts[i - 1] == Success || verdicts[i - 1] == PktInvalidCSum
    ensures i - 1 < |items| && items[i - 1] == was[i - 1]
    ensures Swept(was, verdicts) == items && Gone(was, verdicts) == gone
    ensures Decided(verdicts) == if verdicts[i - 1] == Success then Coalesced else Noop
    ensures verdicts[i - 1] == Success ==> Taker(verdicts) == i - 1
  {
  }

  lemma SweepEnd(items: seq<Item>, was: seq<Item>, verdicts: seq<CoalesceResult>, kept: seq<Item>, gone: set<nat>)
    requires Sweeping(items, was, verdicts, 0, kept, gone)
    ensures Swept(was, verdicts) == items && Gone(was, verdicts) == gone && Decided(verdicts) == TableInsert
  {
  }
}
