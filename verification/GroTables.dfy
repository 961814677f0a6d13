/** The tables of receive offload in tun/offload_linux.go, and what they say about the buffers.

    The source has a table type each for TCP and UDP; here they are one class. */
module GroTables {
  import opened Constants
  import opened Chunks
  import opened GroPackets
  import opened GroItems

  // ---------------------------------------------------------------------------------------------
  // The table
  // ---------------------------------------------------------------------------------------------

  type Flows = map<FlowKey, seq<Item>>

  class GroTable {
    var itemsByFlow: Flows
    /** How many spare lists there are.  A list that is used up is not made, it is taken. */
    var itemsPool: nat

    constructor ()
      ensures itemsByFlow == map[] && itemsPool == IDEAL_BATCH_SIZE
    {
      itemsByFlow, itemsPool := map[], IDEAL_BATCH_SIZE;
    }

    method Insert(item: Item)
      requires item.key !in itemsByFlow ==> itemsPool > 0
      modifies this
      ensures itemsByFlow == Inserted(old(itemsByFlow), item)
      ensures itemsPool == old(itemsPool) - (if item.key in old(itemsByFlow) then 0 else 1)
    {
      var items := [];
      if item.key in itemsByFlow {
        items := itemsByFlow[item.key];
      } else {
        itemsPool := itemsPool - 1;
      }
      itemsByFlow := itemsByFlow[item.key := items + [item]];
    }

    method UpdateAt(item: Item, i: nat)
      requires item.key in itemsByFlow && i < |itemsByFlow[item.key]|
      modifies this
      ensures itemsByFlow == old(itemsByFlow)[item.key := old(itemsByFlow)[item.key][i := item]]
      ensures itemsPool == old(itemsPool)
    {
      itemsByFlow := itemsByFlow[item.key := itemsByFlow[item.key][i := item]];
    }

    method DeleteAt(key: FlowKey, i: nat)
      requires key in itemsByFlow && i < |itemsByFlow[key]|
      modifies this
      ensures itemsByFlow == old(itemsByFlow)[key := Removed(old(itemsByFlow)[key], i)]
      ensures itemsPool == old(itemsPool)
    {
      itemsByFlow := itemsByFlow[key := Removed(itemsByFlow[key], i)];
    }

    /** Gives every list back. */
    method Reset()
      modifies this
      ensures itemsByFlow == map[] && itemsPool == old(itemsPool) + |old(itemsByFlow.Keys)|
    {
      while itemsByFlow != map[]
        invariant itemsPool + |itemsByFlow.Keys| == old(itemsPool) + |old(itemsByFlow.Keys)|
        decreases |itemsByFlow.Keys|
      {
        var key :| key in itemsByFlow;
        itemsPool := itemsPool + 1;
        assert (itemsByFlow - {key}).Keys == itemsByFlow.Keys - {key};
        itemsByFlow := itemsByFlow - {key};
      }
    }
  }

  function ItemsOf(m: Flows, key: FlowKey): seq<Item> {
    if key in m then m[key] else []
  }

  function Inserted(m: Flows, item: Item): Flows {
    m[item.key := ItemsOf(m, item.key) + [item]]
  }

  function Removed(items: seq<Item>, i: nat): seq<Item>
    requires i < |items|
  {
    items[..i] + items[i + 1..]
  }

  // ---------------------------------------------------------------------------------------------
  // What the table says about the buffers
  // ---------------------------------------------------------------------------------------------

  /** Every item is right, and the items are written in their order. */
  ghost predicate ListOk(items: seq<Item>, key: FlowKey, bufs: Bufs, orig: seq<Bytes>, parts: Parts, n: nat)
    requires n <= |bufs| == |orig| == |parts|
  {
    && (forall x {:trigger PlacedOk(items[x], key, bufs, orig, parts, n)} :: 0 <= x < |items| ==>
          PlacedOk(items[x], key, bufs, orig, parts, n))
    && InOrder(items)
  }

  ghost predicate InOrder(items: seq<Item>) {
    forall x, y :: 0 <= x < y < |items| ==> items[x].bufsIndex < items[y].bufsIndex
  }

  ghost predicate PlacedOk(t: Item, key: FlowKey, bufs: Bufs, orig: seq<Bytes>, parts: Parts, n: nat)
    requires n <= |bufs| == |orig| == |parts|
  {
    && t.bufsIndex < n && AllBelow(parts[t.bufsIndex], n)
    && ItemOk(t, key, bufs[t.bufsIndex], orig, parts[t.bufsIndex])
  }

  ghost predicate TableOk(m: Flows, tcp: bool, bufs: Bufs, orig: seq<Bytes>, parts: Parts, n: nat)
    requires n <= |bufs| == |orig| == |parts|
  {
    && (forall key :: key in m ==> key.tcp == tcp)
    && (forall key {:trigger ListOk(m[key], key, bufs, orig, parts, n)} :: key in m ==>
          ListOk(m[key], key, bufs, orig, parts, n))
  }

  /** A step for one flow: the buffers of the packets of other flows stay as they are. */
  ghost predicate OnlyFlow(key: FlowKey, bufs: Bufs, bufs': Bufs, orig: seq<Bytes>, parts: Parts, parts': Parts, n: nat)
    requires n <= |bufs| == |orig| == |parts| && |bufs'| == |bufs| == |parts'|
  {
    forall b :: 0 <= b < n && !InFlow(orig[b], key) ==> bufs'[b] == bufs[b] && parts'[b] == parts[b]
  }

  lemma PlacedSame(t: Item, key: FlowKey, bufs: Bufs, bufs': Bufs, orig: seq<Bytes>, parts: Parts, parts': Parts,
                   n: nat, n': nat)
    requires n <= n' <= |bufs| == |orig| == |parts| && |bufs'| == |bufs| == |parts'|
    requires PlacedOk(t, key, bufs, orig, parts, n)
    requires bufs'[t.bufsIndex] == bufs[t.bufsIndex] && parts'[t.bufsIndex] == parts[t.bufsIndex]
    ensures PlacedOk(t, key, bufs', orig, parts', n')
  {
  }

  /** A list whose buffers did not change stays right. */
  lemma ListSame(items: seq<Item>, key: FlowKey, bufs: Bufs, bufs': Bufs, orig: seq<Bytes>, parts: Parts, parts': Parts,
                 n: nat, n': nat)
    requires n <= n' <= |bufs| == |orig| == |parts| && |bufs'| == |bufs| == |parts'|
    requires ListOk(items, key, bufs, orig, parts, n)
    requires forall x :: 0 <= x < |items| ==>
      && items[x].bufsIndex < n && bufs'[items[x].bufsIndex] == bufs[items[x].bufsIndex]
      && parts'[items[x].bufsIndex] == parts[items[x].bufsIndex]
    ensures ListOk(items, key, bufs', orig, parts', n')
  {
    forall x | 0 <= x < |items|
      ensures PlacedOk(items[x], key, bufs', orig, parts', n')
    {
      PlacedSame(items[x], key, bufs, bufs', orig, parts, parts', n, n');
    }
  }

  lemma OtherList(m: Flows, tcp: bool, key: FlowKey, k: FlowKey, bufs: Bufs, bufs': Bufs, orig: seq<Bytes>,
                  parts: Parts,
                  parts': Parts, n: nat, n': nat)
    requires n <= n' <= |bufs| == |orig| == |parts| && |bufs'| == |bufs| == |parts'|
    requires TableOk(m, tcp, bufs, orig, parts, n) && OnlyFlow(key, bufs, bufs', orig, parts, parts', n)
    requires k in m && k != key
    ensures ListOk(m[k], k, bufs', orig, parts', n')
  {
    assert ListOk(m[k], k, bufs, orig, parts, n);
    forall x | 0 <= x < |m[k]|
      ensures m[k][x].bufsIndex < n
      ensures bufs'[m[k][x].bufsIndex] == bufs[m[k][x].bufsIndex]
      ensures parts'[m[k][x].bufsIndex] == parts[m[k][x].bufsIndex]
    {
      InTable(m, tcp, bufs, orig, parts, n, k, x);
      KeyApart(orig[m[k][x].bufsIndex], k, key);
    }
    ListSame(m[k], k, bufs, bufs', orig, parts, parts', n, n');
  }

  /** Replacing the list of one flow. */
  lemma TableSet(m: Flows, m': Flows, tcp: bool, key: FlowKey, items: seq<Item>, bufs: Bufs, bufs': Bufs,
                 orig: seq<Bytes>,
                 parts: Parts, parts': Parts, n: nat, n': nat)
    requires n <= n' <= |bufs| == |orig| == |parts| && |bufs'| == |bufs| == |parts'|
    requires TableOk(m, tcp, bufs, orig, parts, n) && OnlyFlow(key, bufs, bufs', orig, parts, parts', n)
    requires key.tcp == tcp && ListOk(items, key, bufs', orig, parts', n') && m' == m[key := items]
    ensures TableOk(m', tcp, bufs', orig, parts', n')
  {
    forall k | k in m && k != key
      ensures ListOk(m[k], k, bufs', orig, parts', n')
    {
      OtherList(m, tcp, key, k, bufs, bufs', orig, parts, parts', n, n');
    }
  }

  /** The other table. */
  lemma TableSame(m: Flows, tcp: bool, key: FlowKey, bufs: Bufs, bufs': Bufs, orig: seq<Bytes>,
                  parts: Parts, parts': Parts, n: nat, n': nat)
    requires n <= n' <= |bufs| == |orig| == |parts| && |bufs'| == |bufs| == |parts'|
    requires TableOk(m, tcp, bufs, orig, parts, n) && OnlyFlow(key, bufs, bufs', orig, parts, parts', n)
    requires key.tcp != tcp
    ensures TableOk(m, tcp, bufs', orig, parts', n')
  {
    forall k | k in m
      ensures ListOk(m[k], k, bufs', orig, parts', n')
    {
      OtherList(m, tcp, key, k, bufs, bufs', orig, parts, parts', n, n');
    }
  }

  /** The packet starts an item of its own. */
  lemma ListInsert(items: seq<Item>, key: FlowKey, t: Item, bufs: Bufs, orig: seq<Bytes>, parts: Parts, n: nat)
    requires n < |bufs| == |orig| == |parts| && parts[n] == []
    requires items == [] || ListOk(items, key, bufs, orig, parts, n)
    requires t.bufsIndex == n && ItemOk(t, key, bufs[n], orig, [n])
    ensures ListOk(items + [t], key, bufs, orig, parts[n := [n]], n + 1)
  {
    var more, parts' := items + [t], parts[n := [n]];
    forall x | 0 <= x < |items|
      ensures PlacedOk(items[x], key, bufs, orig, parts', n + 1)
      ensures items[x].bufsIndex < n
    {
      PlacedSame(items[x], key, bufs, bufs, orig, parts, parts', n, n + 1);
    }
    assert PlacedOk(t, key, bufs, orig, parts', n + 1);
    assert forall x :: 0 <= x < |more| ==> more[x] == if x < |items| then items[x] else t;
  }

  /** An item is replaced by what became of it. */
  lemma ListUpdate(items: seq<Item>, key: FlowKey, x: nat, u: Item, bufs: Bufs, bufs': Bufs, orig: seq<Bytes>,
                   parts: Parts, parts': Parts, n: nat)
    requires n < |bufs| == |orig| == |parts| && |bufs'| == |bufs| == |parts'|
    requires ListOk(items, key, bufs, orig, parts, n) && x < |items|
    requires u.bufsIndex == items[x].bufsIndex && PlacedOk(u, key, bufs', orig, parts', n + 1)
    requires forall b :: 0 <= b < n && b != u.bufsIndex ==> bufs'[b] == bufs[b] && parts'[b] == parts[b]
    ensures ListOk(items[x := u], key, bufs', orig, parts', n + 1)
  {
    assert PlacedOk(items[x], key, bufs, orig, parts, n);
    var more := items[x := u];
    forall y | 0 <= y < |items|
      ensures PlacedOk(more[y], key, bufs', orig, parts', n + 1)
    {
      assert PlacedOk(items[y], key, bufs, orig, parts, n);
      if y != x {
        assert items[y].bufsIndex != items[x].bufsIndex;
        PlacedSame(items[y], key, bufs, bufs', orig, parts, parts', n, n + 1);
      }
    }
  }

  lemma ListRemove(items: seq<Item>, key: FlowKey, x: nat, bufs: Bufs, orig: seq<Bytes>, parts: Parts, n: nat)
    requires n <= |bufs| == |orig| == |parts| && ListOk(items, key, bufs, orig, parts, n) && x < |items| && key.tcp
    ensures ListOk(Removed(items, x), key, bufs, orig, parts, n)
  {
    var left := Removed(items, x);
    forall y | 0 <= y < |left|
      ensures PlacedOk(left[y], key, bufs, orig, parts, n)
    {
      RemovedAt(items, x, y);
      assert PlacedOk(items[if y < x then y else y + 1], key, bufs, orig, parts, n);
    }
    RemovedInOrder(items, x);
  }

  lemma RemovedAt(items: seq<Item>, x: nat, y: nat)
    requires x < |items| && y < |items| - 1
    ensures Removed(items, x)[y] == items[if y < x then y else y + 1]
  {
  }

  lemma RemovedInOrder(items: seq<Item>, x: nat)
    requires x < |items| && InOrder(items)
    ensures InOrder(Removed(items, x))
  {
    var left := Removed(items, x);
    forall y, z | 0 <= y < z < |left|
      ensures left[y].bufsIndex < left[z].bufsIndex
    {
      RemovedAt(items, x, y);
      RemovedAt(items, x, z);
    }
  }

  // ---------------------------------------------------------------------------------------------
  // One packet at a time
  // ---------------------------------------------------------------------------------------------

  ghost predicate HasIndex(items: seq<Item>, b: nat) {
    exists x :: 0 <= x < |items| && items[x].bufsIndex == b
  }

  ghost predicate Listed(m: Flows, b: nat) {
    exists key :: key in m && HasIndex(m[key], b)
  }

  /** A packet that is no candidate or that the parser turns down. */
  ghost predicate LeftAlone(pkt: Bytes, canUDPGRO: bool) {
    match PacketIsGROCandidate(pkt, canUDPGRO)
    case NotCandidate => true
    case TcpCandidate(isV6) => Shaped(pkt, true, isV6) ==> Parse(pkt, true, isV6).None?
    case UdpCandidate(isV6) => Shaped(pkt, false, isV6) ==> Parse(pkt, false, isV6).None?
  }

  lemma AdmittedNotLeft(pkt: Bytes, key: FlowKey, canUDPGRO: bool)
    requires Admitted(pkt, key) && (key.tcp || canUDPGRO)
    ensures !LeftAlone(pkt, canUDPGRO)
  {
    assert PacketIsGROCandidate(pkt, canUDPGRO) == PacketIsGROCandidate(pkt, true);
  }

  /** A TCP packet whose checksum is wrong. */
  ghost predicate WrongSum(pkt: Bytes) {
    exists key: FlowKey :: key.tcp && Admitted(pkt, key) && !RightSum(pkt, key)
  }

  /** The buffer holds the one packet it came with, and is done: a packet that is left alone is announced as needing
      no offload; one with a wrong checksum is not looked at again. */
  ghost predicate Settled(b: nat, bufs: Bufs, orig: seq<Bytes>, parts: Parts, canUDPGRO: bool)
    requires b < |bufs| == |orig| == |parts|
  {
    && parts[b] == [b] && bufs[b].pkt == orig[b]
    && ((LeftAlone(orig[b], canUDPGRO) && bufs[b].vnet == NoOffload) || WrongSum(orig[b]))
  }

  /** Between packets: `m` is the table of the one protocol, `other` that of the other. */
  ghost predicate Between(bufs: Bufs, m: Flows, other: Flows, tcp: bool, orig: seq<Bytes>, parts: Parts,
                          canUDPGRO: bool, n: nat) {
    && n <= |bufs| == |orig| == |parts|
    && TableOk(m, tcp, bufs, orig, parts, n) && TableOk(other, !tcp, bufs, orig, parts, n)
    && Untouched(bufs, orig, parts, n) && Rooms(bufs) && AllCovered(bufs, m, other, orig, parts, canUDPGRO, n)
  }

  ghost predicate Untouched(bufs: Bufs, orig: seq<Bytes>, parts: Parts, n: nat)
    requires n <= |bufs| == |orig| == |parts|
  {
    forall k :: n <= k < |bufs| ==> bufs[k].pkt == orig[k] && parts[k] == []
  }

  /** Merged packets are at most as long as a packet can be. */
  ghost predicate Rooms(bufs: Bufs) {
    forall k :: 0 <= k < |bufs| ==> bufs[k].room <= 0xffff
  }

  ghost predicate AllCovered(bufs: Bufs, m: Flows, other: Flows, orig: seq<Bytes>, parts: Parts, canUDPGRO: bool,
                             n: nat)
    requires n <= |bufs| == |orig| == |parts|
  {
    forall b :: 0 <= b < n ==> Covered(b, bufs, m, other, orig, parts, canUDPGRO)
  }

  /** Whatever the buffer holds is accounted for by an item, unless it is done. */
  ghost predicate Covered(b: nat, bufs: Bufs, m: Flows, other: Flows, orig: seq<Bytes>, parts: Parts, canUDPGRO: bool)
    requires b < |bufs| == |orig| == |parts|
  {
    parts[b] == [] || Settled(b, bufs, orig, parts, canUDPGRO) || Listed(m, b) || Listed(other, b)
  }

  lemma Symmetric(bufs: Bufs, m: Flows, other: Flows, tcp: bool, orig: seq<Bytes>, parts: Parts, canUDPGRO: bool,
                  n: nat)
    requires Between(bufs, m, other, tcp, orig, parts, canUDPGRO, n)
    ensures Between(bufs, other, m, !tcp, orig, parts, canUDPGRO, n)
  {
    forall b | 0 <= b < n
      ensures Covered(b, bufs, other, m, orig, parts, canUDPGRO)
    {
      assert Covered(b, bufs, m, other, orig, parts, canUDPGRO);
    }
  }

  /** The list of one flow is replaced, together with what it says about the buffers. */
  lemma SetFlow(bufs: Bufs, bufs': Bufs, m: Flows, other: Flows, tcp: bool, orig: seq<Bytes>, parts: Parts,
                parts': Parts, canUDPGRO: bool,
                n: nat, n': nat, key: FlowKey, items: seq<Item>, m': Flows)
    requires Between(bufs, m, other, tcp, orig, parts, canUDPGRO, n) && n <= n' <= |bufs| == |bufs'| == |parts'|
    requires m' == m[key := items]
    requires OnlyFlow(key, bufs, bufs', orig, parts, parts', n)
    requires key.tcp == tcp && ListOk(items, key, bufs', orig, parts', n')
    requires forall k :: n' <= k < |bufs| ==> bufs'[k] == bufs[k] && parts'[k] == parts[k]
    requires Rooms(bufs')
    requires forall b :: 0 <= b < n' && (b >= n || InFlow(orig[b], key)) ==>
      parts'[b] == [] || Settled(b, bufs', orig, parts', canUDPGRO) || HasIndex(items, b)
    ensures Between(bufs', m', other, tcp, orig, parts', canUDPGRO, n')
  {
    TableSet(m, m', tcp, key, items, bufs, bufs', orig, parts, parts', n, n');
    TableSame(other, !tcp, key, bufs, bufs', orig, parts, parts', n, n');
    forall b | 0 <= b < n'
      ensures Covered(b, bufs', m', other, orig, parts', canUDPGRO)
    {
      if b >= n || InFlow(orig[b], key) {
        if HasIndex(items, b) {
          assert key in m' && HasIndex(m'[key], b);
        }
      } else {
        StaysCovered(b, bufs, bufs', m, other, tcp, orig, parts, parts', canUDPGRO, n, key, items);
      }
    }
  }

  lemma StaysCovered(b: nat, bufs: Bufs, bufs': Bufs, m: Flows, other: Flows, tcp: bool, orig: seq<Bytes>, parts: Parts,
                     parts': Parts, canUDPGRO: bool, n: nat, key: FlowKey, items: seq<Item>)
    requires b < n <= |bufs| == |orig| == |parts| && |bufs| == |bufs'| == |parts'|
    requires TableOk(m, tcp, bufs, orig, parts, n) && Covered(b, bufs, m, other, orig, parts, canUDPGRO)
    requires !InFlow(orig[b], key)
    requires bufs'[b] == bufs[b] && parts'[b] == parts[b]
    ensures Covered(b, bufs', m[key := items], other, orig, parts', canUDPGRO)
  {
    if Listed(m, b) {
      var k := WhereListed(b, m, tcp, bufs, orig, parts, n);
      StaysListed(b, m, m[key := items], k);
    }
  }

  lemma WhereListed(b: nat, m: Flows, tcp: bool, bufs: Bufs, orig: seq<Bytes>, parts: Parts,
                    n: nat) returns (k: FlowKey)
    requires b < n <= |bufs| == |orig| == |parts| && TableOk(m, tcp, bufs, orig, parts, n) && Listed(m, b)
    ensures k in m && HasIndex(m[k], b) && InFlow(orig[b], k)
  {
    k :| k in m && HasIndex(m[k], b);
    ListedInFlow(m, tcp, bufs, orig, parts, n, k, b);
  }

  lemma StaysListed(b: nat, m: Flows, m': Flows, k: FlowKey)
    requires k in m && HasIndex(m[k], b) && k in m' && m'[k] == m[k]
    ensures Listed(m', b)
  {
    assert HasIndex(m'[k], b);
  }

  lemma ListedInFlow(m: Flows, tcp: bool, bufs: Bufs, orig: seq<Bytes>, parts: Parts, n: nat, key: FlowKey, b: nat)
    requires n <= |bufs| == |orig| == |parts| && TableOk(m, tcp, bufs, orig, parts, n)
    requires key in m && HasIndex(m[key], b)
    ensures b < n && InFlow(orig[b], key)
  {
    var x :| 0 <= x < |m[key]| && m[key][x].bufsIndex == b;
    InTable(m, tcp, bufs, orig, parts, n, key, x);
  }

  /** The buffer of a packet that is not taken any further is announced as needing no offload. */
  function Marked(bufs: Bufs, i: nat): Bufs
    requires i < |bufs|
  {
    bufs[i := bufs[i].(vnet := NoOffload)]
  }

  lemma LeaveAlone(bufs: Bufs, m: Flows, other: Flows, tcp: bool, orig: seq<Bytes>, parts: Parts, canUDPGRO: bool,
                   n: nat)
    requires Between(bufs, m, other, tcp, orig, parts, canUDPGRO, n) && n < |bufs|
    requires LeftAlone(orig[n], canUDPGRO) || WrongSum(orig[n])
    ensures Between(Marked(bufs, n), m, other, tcp, orig, parts[n := [n]], canUDPGRO, n + 1)
  {
    var bufs', parts' := Marked(bufs, n), parts[n := [n]];
    TableMore(m, tcp, bufs, bufs', orig, parts, parts', n);
    TableMore(other, !tcp, bufs, bufs', orig, parts, parts', n);
    forall b | 0 <= b < n + 1
      ensures Covered(b, bufs', m, other, orig, parts', canUDPGRO)
    {
      if b < n {
        assert Covered(b, bufs, m, other, orig, parts, canUDPGRO);
      }
    }
  }

  lemma TableMore(m: Flows, tcp: bool, bufs: Bufs, bufs': Bufs, orig: seq<Bytes>, parts: Parts, parts': Parts, n: nat)
    requires n < |bufs| == |orig| == |parts| && TableOk(m, tcp, bufs, orig, parts, n)
    requires bufs' == Marked(bufs, n) && parts' == parts[n := [n]]
    ensures TableOk(m, tcp, bufs', orig, parts', n + 1)
  {
    forall k | k in m
      ensures ListOk(m[k], k, bufs', orig, parts', n + 1)
    {
      ListMore(m[k], k, bufs, bufs', orig, parts, parts', n);
    }
  }

  lemma ListMore(items: seq<Item>, key: FlowKey, bufs: Bufs, bufs': Bufs, orig: seq<Bytes>, parts: Parts,
                 parts': Parts, n: nat)
    requires n < |bufs| == |orig| == |parts| && ListOk(items, key, bufs, orig, parts, n)
    requires bufs' == Marked(bufs, n) && parts' == parts[n := [n]]
    ensures ListOk(items, key, bufs', orig, parts', n + 1)
  {
    assert forall x :: 0 <= x < |items| ==> PlacedOk(items[x], key, bufs, orig, parts, n);
    ListSame(items, key, bufs, bufs', orig, parts, parts', n, n + 1);
  }

  /** A packet that starts an item. */
  lemma StartItem(bufs: Bufs, m: Flows, m': Flows, other: Flows, tcp: bool, orig: seq<Bytes>, parts: Parts,
                  canUDPGRO: bool, n: nat, t: Item)
    requires Between(bufs, m, other, tcp, orig, parts, canUDPGRO, n) && n < |bufs|
    requires t.key.tcp == tcp && t.bufsIndex == n && ItemOk(t, t.key, bufs[n], orig, [n])
    requires m' == Inserted(m, t)
    ensures Between(bufs, m', other, tcp, orig, parts[n := [n]], canUDPGRO, n + 1)
  {
    ListInsert(ItemsOf(m, t.key), t.key, t, bufs, orig, parts, n);
    StartCovers(bufs, m, other, tcp, orig, parts, canUDPGRO, n, t);
    SetFlow(bufs, bufs, m, other, tcp, orig, parts, parts[n := [n]], canUDPGRO, n, n + 1, t.key, ItemsOf(m, t.key) + [t], m');
  }

  lemma StartCovers(bufs: Bufs, m: Flows, other: Flows, tcp: bool, orig: seq<Bytes>, parts: Parts, canUDPGRO: bool,
                    n: nat, t: Item)
    requires Between(bufs, m, other, tcp, orig, parts, canUDPGRO, n) && n < |bufs| && t.key.tcp == tcp
    requires t.bufsIndex == n
    ensures var parts' := parts[n := [n]];
      forall b :: 0 <= b < n + 1 && (b >= n || InFlow(orig[b], t.key)) ==>
        parts'[b] == [] || Settled(b, bufs, orig, parts', canUDPGRO) || HasIndex(ItemsOf(m, t.key) + [t], b)
  {
    var items, parts' := ItemsOf(m, t.key), parts[n := [n]];
    var more := items + [t];
    assert more[|items|] == t;
    forall b | 0 <= b < n + 1 && (b >= n || InFlow(orig[b], t.key))
      ensures parts'[b] == [] || Settled(b, bufs, orig, parts', canUDPGRO) || HasIndex(more, b)
    {
      if b < n && parts[b] != [] && !Settled(b, bufs, orig, parts, canUDPGRO) {
        InItsFlow(bufs, m, other, tcp, orig, parts, canUDPGRO, n, t.key, b);
        var x :| 0 <= x < |items| && items[x].bufsIndex == b;
        assert more[x].bufsIndex == b;
      }
    }
  }

  /** A buffer with merged packets is listed under its own flow. */
  lemma InItsFlow(bufs: Bufs, m: Flows, other: Flows, tcp: bool, orig: seq<Bytes>, parts: Parts, canUDPGRO: bool,
                  n: nat, key: FlowKey, b: nat)
    requires Between(bufs, m, other, tcp, orig, parts, canUDPGRO, n) && b < n && key.tcp == tcp && InFlow(orig[b], key)
    requires parts[b] != [] && !Settled(b, bufs, orig, parts, canUDPGRO)
    ensures key in m && HasIndex(m[key], b)
  {
    assert Covered(b, bufs, m, other, orig, parts, canUDPGRO);
    NotInOther(other, tcp, bufs, orig, parts, n, key, b);
    var k :| k in m && HasIndex(m[k], b);
    ListedInFlow(m, tcp, bufs, orig, parts, n, k, b);
    KeyUnique(orig[b], k, key);
  }

  lemma NotInOther(other: Flows, tcp: bool, bufs: Bufs, orig: seq<Bytes>, parts: Parts, n: nat, key: FlowKey, b: nat)
    requires n <= |bufs| == |orig| == |parts| && TableOk(other, !tcp, bufs, orig, parts, n)
    requires b < n && key.tcp == tcp && InFlow(orig[b], key)
    ensures !Listed(other, b)
  {
    forall k | k in other
      ensures !HasIndex(other[k], b)
    {
      NotElsewhere(other, !tcp, bufs, orig, parts, n, key, k, b);
    }
  }

  /** A buffer is listed under the flow of its own packet only. */
  lemma NotElsewhere(m: Flows, tcp: bool, bufs: Bufs, orig: seq<Bytes>, parts: Parts, n: nat, key: FlowKey,
                     k: FlowKey, b: nat)
    requires n <= |bufs| == |orig| == |parts| && TableOk(m, tcp, bufs, orig, parts, n) && k in m && k != key
    requires b < n && InFlow(orig[b], key)
    ensures !HasIndex(m[k], b)
  {
    forall y | 0 <= y < |m[k]|
      ensures m[k][y].bufsIndex != b
    {
      InTable(m, tcp, bufs, orig, parts, n, k, y);
      KeyApart(orig[m[k][y].bufsIndex], k, key);
    }
  }

  /** An item with a wrong checksum is dropped from the table; its packet stays where it is. */
  lemma DropItem(bufs: Bufs, m: Flows, m': Flows, other: Flows, orig: seq<Bytes>, parts: Parts, canUDPGRO: bool,
                 n: nat, key: FlowKey, x: nat)
    requires Between(bufs, m, other, true, orig, parts, canUDPGRO, n) && key in m && x < |m[key]|
    requires m[key][x].numMerged == 0
    requires m[key][x].bufsIndex < |orig| && m' == m[key := Removed(m[key], x)]
    requires !RightSum(orig[m[key][x].bufsIndex], key)
    ensures Between(bufs, m', other, true, orig, parts, canUDPGRO, n)
  {
    InTable(m, true, bufs, orig, parts, n, key, x);
    ListRemove(m[key], key, x, bufs, orig, parts, n);
    DropCovers(bufs, m, other, orig, parts, canUDPGRO, n, key, x, Removed(m[key], x));
    SetFlow(bufs, bufs, m, other, true, orig, parts, parts, canUDPGRO, n, n, key, Removed(m[key], x), m');
  }

  lemma DropCovers(bufs: Bufs, m: Flows, other: Flows, orig: seq<Bytes>, parts: Parts, canUDPGRO: bool, n: nat,
                   key: FlowKey, x: nat,
                   left: seq<Item>)
    requires Between(bufs, m, other, true, orig, parts, canUDPGRO, n) && key in m && x < |m[key]|
    requires m[key][x].numMerged == 0
    requires left == Removed(m[key], x) && key.tcp
    requires m[key][x].bufsIndex < |orig| && !RightSum(orig[m[key][x].bufsIndex], key)
    ensures forall b :: 0 <= b < n && InFlow(orig[b], key) ==>
      parts[b] == [] || Settled(b, bufs, orig, parts, canUDPGRO) || HasIndex(left, b)
  {
    InTable(m, true, bufs, orig, parts, n, key, x);
    forall b | 0 <= b < n && InFlow(orig[b], key)
      ensures parts[b] == [] || Settled(b, bufs, orig, parts, canUDPGRO) || HasIndex(left, b)
    {
      MergeCovers(b, bufs, m, other, true, orig, parts, canUDPGRO, n, key);
      if HasIndex(m[key], b) && b != m[key][x].bufsIndex {
        OtherIndex(m[key], x, left, b);
      }
    }
  }

  lemma OtherIndex(items: seq<Item>, x: nat, left: seq<Item>, b: nat)
    requires x < |items| && left == Removed(items, x) && HasIndex(items, b) && b != items[x].bufsIndex
    ensures HasIndex(left, b)
  {
    var y :| 0 <= y < |items| && items[y].bufsIndex == b;
    assert left[if y < x then y else y - 1].bufsIndex == b;
  }

  /** A packet that was merged into item x. */
  lemma MergeItem(bufs: Bufs, bufs': Bufs, m: Flows, m': Flows, other: Flows, tcp: bool, orig: seq<Bytes>, parts: Parts,
                  parts': Parts, canUDPGRO: bool, n: nat, key: FlowKey, x: nat, u: Item, items: seq<Item>, part: seq<nat>)
    requires Between(bufs, m, other, tcp, orig, parts, canUDPGRO, n) && n < |bufs| == |bufs'|
    requires key.tcp == tcp && key in m && x < |m[key]| && items == m[key][x := u]
    requires u.bufsIndex == m[key][x].bufsIndex < n && parts' == parts[u.bufsIndex := part]
    requires PlacedOk(u, key, bufs', orig, parts', n + 1) && bufs'[n].room <= 0xffff
    requires forall k :: 0 <= k < |bufs| && k != u.bufsIndex && k != n ==> bufs'[k] == bufs[k]
    requires m' == m[key := items]
    ensures Between(bufs', m', other, tcp, orig, parts', canUDPGRO, n + 1)
  {
    MergedList(bufs, bufs', m, tcp, orig, parts, parts', n, key, x, u, items, part);
    MergedTail(bufs, bufs', parts, parts', n, u.bufsIndex, part);
    MergeCoversAll(bufs, bufs', m, other, tcp, orig, parts, parts', canUDPGRO, n, key, x, u, items, part);
    SetFlow(bufs, bufs', m, other, tcp, orig, parts, parts', canUDPGRO, n, n + 1, key, items, m');
  }

  lemma MergedList(bufs: Bufs, bufs': Bufs, m: Flows, tcp: bool, orig: seq<Bytes>, parts: Parts, parts': Parts,
                   n: nat, key: FlowKey, x: nat, u: Item, items: seq<Item>, part: seq<nat>)
    requires n < |bufs| == |orig| == |parts| && |bufs'| == |bufs| && TableOk(m, tcp, bufs, orig, parts, n)
    requires key.tcp == tcp && key in m && x < |m[key]| && items == m[key][x := u]
    requires u.bufsIndex == m[key][x].bufsIndex < n && parts' == parts[u.bufsIndex := part]
    requires PlacedOk(u, key, bufs', orig, parts', n + 1)
    requires forall k :: 0 <= k < |bufs| && k != u.bufsIndex && k != n ==> bufs'[k] == bufs[k]
    ensures OnlyFlow(key, bufs, bufs', orig, parts, parts', n) && ListOk(items, key, bufs', orig, parts', n + 1)
    ensures bufs'[u.bufsIndex].room <= 0xffff
  {
    InTable(m, tcp, bufs, orig, parts, n, key, x);
    ListUpdate(m[key], key, x, u, bufs, bufs', orig, parts, parts', n);
  }

  lemma MergedTail(bufs: Bufs, bufs': Bufs, parts: Parts, parts': Parts, n: nat, b: nat, part: seq<nat>)
    requires b < n < |bufs| == |bufs'| == |parts| && parts' == parts[b := part]
    requires Rooms(bufs)
    requires forall k :: 0 <= k < |bufs| && k != b && k != n ==> bufs'[k] == bufs[k]
    requires bufs'[b].room <= 0xffff && bufs'[n].room <= 0xffff
    ensures forall k :: n + 1 <= k < |bufs| ==> bufs'[k] == bufs[k] && parts'[k] == parts[k]
    ensures Rooms(bufs')
  {
  }

  lemma InTable(m: Flows, tcp: bool, bufs: Bufs, orig: seq<Bytes>, parts: Parts, n: nat, key: FlowKey, x: nat)
    requires n <= |bufs| == |orig| == |parts| && TableOk(m, tcp, bufs, orig, parts, n) && key in m && x < |m[key]|
    ensures ListOk(m[key], key, bufs, orig, parts, n) && PlacedOk(m[key][x], key, bufs, orig, parts, n)
    ensures InFlow(orig[m[key][x].bufsIndex], key)
  {
  }

  lemma MergeCoversAll(bufs: Bufs, bufs': Bufs, m: Flows, other: Flows, tcp: bool, orig: seq<Bytes>, parts: Parts,
                       parts': Parts, canUDPGRO: bool, n: nat, key: FlowKey, x: nat, u: Item, items: seq<Item>, part: seq<nat>)
    requires Between(bufs, m, other, tcp, orig, parts, canUDPGRO, n) && n < |bufs| == |bufs'| && key.tcp == tcp
    requires key in m && x < |m[key]| && u.bufsIndex == m[key][x].bufsIndex < n
    requires items == m[key][x := u] && parts' == parts[u.bufsIndex := part]
    requires forall k :: 0 <= k < |bufs| && k != u.bufsIndex && k != n ==> bufs'[k] == bufs[k]
    ensures forall b :: 0 <= b < n + 1 && (b >= n || InFlow(orig[b], key)) ==>
      parts'[b] == [] || Settled(b, bufs', orig, parts', canUDPGRO) || HasIndex(items, b)
  {
    forall b | 0 <= b < n + 1 && (b >= n || InFlow(orig[b], key))
      ensures parts'[b] == [] || Settled(b, bufs', orig, parts', canUDPGRO) || HasIndex(items, b)
    {
      SameIndices(m[key], x, u, b);
      if b < n && b != u.bufsIndex {
        MergeCovers(b, bufs, m, other, tcp, orig, parts, canUDPGRO, n, key);
      }
    }
  }

  lemma MergeCovers(b: nat, bufs: Bufs, m: Flows, other: Flows, tcp: bool, orig: seq<Bytes>, parts: Parts,
                    canUDPGRO: bool, n: nat,
                    key: FlowKey)
    requires Between(bufs, m, other, tcp, orig, parts, canUDPGRO, n) && b < n && key.tcp == tcp
    requires InFlow(orig[b], key) && key in m
    ensures parts[b] == [] || Settled(b, bufs, orig, parts, canUDPGRO) || HasIndex(m[key], b)
  {
    if parts[b] != [] && !Settled(b, bufs, orig, parts, canUDPGRO) {
      InItsFlow(bufs, m, other, tcp, orig, parts, canUDPGRO, n, key, b);
    }
  }

  lemma SameIndices(items: seq<Item>, x: nat, u: Item, b: nat)
    requires x < |items| && u.bufsIndex == items[x].bufsIndex
    ensures HasIndex(items, b) ==> HasIndex(items[x := u], b)
    ensures b == u.bufsIndex ==> HasIndex(items[x := u], b)
  {
    assert items[x := u][x] == u;
    if HasIndex(items, b) {
      var y :| 0 <= y < |items| && items[y].bufsIndex == b;
      assert items[x := u][y].bufsIndex == b;
    }
  }
}
