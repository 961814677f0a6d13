/** Where the packets of a batch end up: each in one place, those of a UDP flow in the order in which they came. */
module GroOrder {
  import opened Chunks
  import opened GroPackets
  import opened GroItems

  // ---------------------------------------------------------------------------------------------
  // One packet more
  // ---------------------------------------------------------------------------------------------

  datatype GroResult = Noop | TableInsert | Coalesced

  /** Where packet n went: into a buffer of its own, or next to the packets of an earlier buffer. */
  ghost predicate Placed(parts: Parts, parts': Parts, n: nat, result: GroResult)
    requires n < |parts|
  {
    if result != Coalesced then parts' == parts[n := [n]]
    else exists b: nat, part: seq<nat> :: PlacedAt(b, part, parts, parts', n)
  }

  ghost predicate PlacedAt(b: nat, part: seq<nat>, parts: Parts, parts': Parts, n: nat)
    requires n < |parts|
  {
    b < n && parts[b] != [] && parts' == parts[b := part] && Joins(part, parts[b], n)
  }

  ghost predicate Joins(part: seq<nat>, was: seq<nat>, n: nat) {
    part == was + [n] || part == [n] + was
  }

  /** All packets in the buffers, buffer by buffer. */
  ghost function Flat(parts: Parts): seq<nat> {
    if parts == [] then [] else Flat(parts[..|parts| - 1]) + parts[|parts| - 1]
  }

  function Nothing(n: nat): Parts {
    seq(n, _ => [])
  }

  lemma {:induction false} NothingFlat(n: nat)
    ensures Flat(Nothing(n)) == []
  {
    if n > 0 {
      NothingFlat(n - 1);
      assert Nothing(n)[..n - 1] == Nothing(n - 1);
    }
  }

  // ---------------------------------------------------------------------------------------------
  // Each packet is in one place
  // ---------------------------------------------------------------------------------------------

  /** How often packet j is in the buffers. */
  ghost function Copies(parts: Parts, j: nat): nat {
    multiset(Flat(parts))[j]
  }

  /** Each of the first n packets is in exactly one place. */
  ghost predicate EachOnce(parts: Parts, n: nat) {
    forall j: nat {:trigger Copies(parts, j)} :: Copies(parts, j) == if j < n then 1 else 0
  }

  lemma {:induction false} CopiesSet(parts: Parts, parts': Parts, b: nat, j: nat)
    requires b < |parts| == |parts'| && parts' == parts[b := parts'[b]]
    ensures Copies(parts', j) + multiset(parts[b])[j] == Copies(parts, j) + multiset(parts'[b])[j]
  {
    var m := |parts| - 1;
    CopiesLast(parts, j);
    CopiesLast(parts', j);
    if b < m {
      CopiesSet(parts[..m], parts'[..m], b, j);
    } else {
      assert parts'[..m] == parts[..m];
    }
  }

  lemma CopiesLast(parts: Parts, j: nat)
    requires parts != []
    ensures Copies(parts, j) == Copies(parts[..|parts| - 1], j) + multiset(parts[|parts| - 1])[j]
  {
  }

  lemma PlacedOnce(parts: Parts, parts': Parts, n: nat, result: GroResult)
    requires n < |parts| && Placed(parts, parts', n, result) && parts[n] == [] && EachOnce(parts, n)
    ensures EachOnce(parts', n + 1)
  {
    if result != Coalesced {
      OneMore(parts, n, [n], n);
    } else {
      var b: nat, part: seq<nat> :| PlacedAt(b, part, parts, parts', n);
      OneMore(parts, b, part, n);
    }
  }

  lemma OneMore(parts: Parts, b: nat, part: seq<nat>, n: nat)
    requires b < |parts| && Joins(part, parts[b], n) && EachOnce(parts, n)
    ensures EachOnce(parts[b := part], n + 1)
  {
    var parts' := parts[b := part];
    forall j: nat
      ensures Copies(parts', j) == if j < n + 1 then 1 else 0
    {
      CopiesSet(parts, parts', b, j);
      assert multiset(part)[j] == multiset(parts[b])[j] + multiset([n])[j];
      assert Copies(parts, j) == if j < n then 1 else 0;
    }
  }

  // ---------------------------------------------------------------------------------------------
  // The order of some packets
  // ---------------------------------------------------------------------------------------------

  /** 0, 1, ..., n - 1 */
  function UpTo(n: nat): seq<nat> {
    if n == 0 then [] else UpTo(n - 1) + [n - 1]
  }

  /** Those of the packets that are in the set. */
  ghost function Picked(s: seq<nat>, which: set<nat>): seq<nat> {
    if s == [] then []
    else
      var last := s[|s| - 1];
      Picked(s[..|s| - 1], which) + (if last in which then [last] else [])
  }

  /** Read buffer by buffer, these of the first n packets come in the order in which they came in, none missing. */
  ghost predicate KeepsOrder(which: set<nat>, parts: Parts, n: nat) {
    Picked(Flat(parts), which) == Picked(UpTo(n), which)
  }

  lemma {:induction false} PickedJoin(a: seq<nat>, b: seq<nat>, which: set<nat>)
    ensures Picked(a + b, which) == Picked(a, which) + Picked(b, which)
  {
    if b == [] {
      assert a + b == a;
    } else {
      var c := b[..|b| - 1];
      assert (a + b)[..|a + b| - 1] == a + c;
      PickedJoin(a, c, which);
    }
  }

  lemma PickedOne(j: nat, which: set<nat>)
    ensures Picked([j], which) == if j in which then [j] else []
  {
    assert [j][..0] == [];
  }

  lemma {:induction false} PickedNone(s: seq<nat>, which: set<nat>)
    requires forall i :: 0 <= i < |s| ==> s[i] !in which
    ensures Picked(s, which) == []
  {
    if s != [] {
      PickedNone(s[..|s| - 1], which);
    }
  }

  lemma FlatLast(parts: Parts, which: set<nat>)
    requires parts != []
    ensures var m := |parts| - 1;
      Picked(Flat(parts), which) == Picked(Flat(parts[..m]), which) + Picked(parts[m], which)
  {
    PickedJoin(Flat(parts[..|parts| - 1]), parts[|parts| - 1], which);
  }

  /** A change to one buffer that does not concern these packets. */
  lemma {:induction false} FlatSame(parts: Parts, parts': Parts, b: nat, which: set<nat>)
    requires b < |parts| == |parts'| && parts' == parts[b := parts'[b]]
    requires Picked(parts'[b], which) == Picked(parts[b], which)
    ensures Picked(Flat(parts'), which) == Picked(Flat(parts), which)
  {
    var m := |parts| - 1;
    FlatLast(parts, which);
    FlatLast(parts', which);
    if b < m {
      FlatSame(parts[..m], parts'[..m], b, which);
    } else {
      assert parts'[..m] == parts[..m];
    }
  }

  /** After buffer b there is none of these packets. */
  ghost predicate NothingAfter(parts: Parts, b: nat, which: set<nat>) {
    forall c :: b < c < |parts| ==> Picked(parts[c], which) == []
  }

  lemma {:induction false} FlatGrows(parts: Parts, parts': Parts, b: nat, n: nat, which: set<nat>)
    requires b < |parts| && NothingAfter(parts, b, which) && parts' == parts[b := parts[b] + [n]]
    ensures Picked(Flat(parts'), which) == Picked(Flat(parts), which) + Picked([n], which)
  {
    var m := |parts| - 1;
    FlatLast(parts, which);
    FlatLast(parts', which);
    if b < m {
      FlatGrows(parts[..m], parts'[..m], b, n, which);
      assert Picked(parts[m], which) == [];
      NothingBetween(Picked(Flat(parts[..m]), which), Picked([n], which), Picked(parts[m], which));
    } else {
      assert parts'[..m] == parts[..m];
      PickedJoin(parts[b], [n], which);
      Regroup(Picked(Flat(parts[..m]), which), Picked(parts[m], which), Picked([n], which));
    }
  }

  lemma NothingBetween(a: seq<nat>, b: seq<nat>, none: seq<nat>)
    requires none == []
    ensures (a + b) + none == (a + none) + b
  {
  }

  lemma Regroup(a: seq<nat>, b: seq<nat>, c: seq<nat>)
    ensures a + (b + c) == (a + b) + c
  {
  }

  /** Packet n comes last. */
  lemma OrderGrows(which: set<nat>, parts: Parts, parts': Parts, b: nat, n: nat)
    requires b < |parts| && NothingAfter(parts, b, which) && KeepsOrder(which, parts, n)
    requires parts' == parts[b := parts[b] + [n]]
    ensures KeepsOrder(which, parts', n + 1)
  {
    FlatGrows(parts, parts', b, n, which);
    PickedJoin(UpTo(n), [n], which);
  }

  /** Packet n is not one of these. */
  lemma OrderSame(which: set<nat>, parts: Parts, parts': Parts, b: nat, part: seq<nat>, n: nat)
    requires b < |parts| && Joins(part, parts[b], n) && KeepsOrder(which, parts, n) && n !in which
    requires parts' == parts[b := part]
    ensures KeepsOrder(which, parts', n + 1)
  {
    PickedOne(n, which);
    PickedJoin(parts[b], [n], which);
    PickedJoin([n], parts[b], which);
    FlatSame(parts, parts', b, which);
    PickedJoin(UpTo(n), [n], which);
  }

  // ---------------------------------------------------------------------------------------------
  // UDP packets that are admitted stay in order
  // ---------------------------------------------------------------------------------------------

  ghost function FlowOf(orig: seq<Bytes>, key: FlowKey): set<nat> {
    set j | 0 <= j < |orig| && InFlow(orig[j], key)
  }

  ghost function AdmittedOf(orig: seq<Bytes>, key: FlowKey): set<nat> {
    set j | 0 <= j < |orig| && Admitted(orig[j], key)
  }

  /** The admitted packets of every UDP flow keep their order.  Those that the parser turns down may be overtaken. */
  ghost predicate UdpInOrder(orig: seq<Bytes>, parts: Parts, n: nat) {
    forall key: FlowKey :: !key.tcp ==> KeepsOrder(AdmittedOf(orig, key), parts, n)
  }

  /** A packet in a buffer of its own. */
  lemma OrderInsert(orig: seq<Bytes>, parts: Parts, parts': Parts, n: nat)
    requires n < |parts| && (forall k :: n <= k < |parts| ==> parts[k] == []) && UdpInOrder(orig, parts, n)
    requires parts' == parts[n := [n]]
    ensures UdpInOrder(orig, parts', n + 1)
  {
    assert parts[n] + [n] == [n];
    forall key: FlowKey | !key.tcp
      ensures KeepsOrder(AdmittedOf(orig, key), parts', n + 1)
    {
      OrderGrows(AdmittedOf(orig, key), parts, parts', n, n);
    }
  }

  /** A packet of another protocol. */
  lemma OrderStays(orig: seq<Bytes>, parts: Parts, parts': Parts, n: nat, result: GroResult)
    requires n < |parts| && (forall k :: n <= k < |parts| ==> parts[k] == []) && UdpInOrder(orig, parts, n)
    requires Placed(parts, parts', n, result) && forall key: FlowKey :: !key.tcp ==> n !in AdmittedOf(orig, key)
    ensures UdpInOrder(orig, parts', n + 1)
  {
    if result != Coalesced {
      OrderInsert(orig, parts, parts', n);
    } else {
      var b: nat, part: seq<nat> :| PlacedAt(b, part, parts, parts', n);
      forall key: FlowKey | !key.tcp
        ensures KeepsOrder(AdmittedOf(orig, key), parts', n + 1)
      {
        OrderSame(AdmittedOf(orig, key), parts, parts', b, part, n);
      }
    }
  }

  /** A packet that is merged into the last item of its flow. */
  lemma OrderMerge(orig: seq<Bytes>, parts: Parts, parts': Parts, b: nat, n: nat, key: FlowKey)
    requires b < |parts| && n < |orig| && Admitted(orig[n], key) && UdpInOrder(orig, parts, n)
    requires NothingAfter(parts, b, AdmittedOf(orig, key)) && parts' == parts[b := parts[b] + [n]]
    ensures UdpInOrder(orig, parts', n + 1)
  {
    forall k: FlowKey | !k.tcp
      ensures KeepsOrder(AdmittedOf(orig, k), parts', n + 1)
    {
      if k == key {
        OrderGrows(AdmittedOf(orig, key), parts, parts', b, n);
      } else {
        KeyApart(orig[n], key, k);
        OrderSame(AdmittedOf(orig, k), parts, parts', b, parts[b] + [n], n);
      }
    }
  }

  // ---------------------------------------------------------------------------------------------
  // When packets that are turned down are overtaken
  // ---------------------------------------------------------------------------------------------

  ghost predicate Sorted(s: seq<nat>) {
    forall i, j :: 0 <= i < j < |s| ==> s[i] < s[j]
  }

  ghost predicate AllLess(a: seq<nat>, b: seq<nat>) {
    forall x, y :: x in a && y in b ==> x < y
  }

  lemma SortedJoin(a: seq<nat>, b: seq<nat>)
    ensures Sorted(a + b) <==> Sorted(a) && Sorted(b) && AllLess(a, b)
  {
    if Sorted(a + b) {
      SortedParts(a, b);
    } else if Sorted(a) && Sorted(b) && AllLess(a, b) {
      PartsSorted(a, b);
    }
  }

  lemma PartsSorted(a: seq<nat>, b: seq<nat>)
    requires Sorted(a) && Sorted(b) && AllLess(a, b)
    ensures Sorted(a + b)
  {
    var s := a + b;
    forall i, j | 0 <= i < j < |s|
      ensures s[i] < s[j]
    {
      assert i < |a| ==> s[i] in a;
      assert j >= |a| ==> s[j] in b;
    }
  }

  lemma SortedParts(a: seq<nat>, b: seq<nat>)
    requires Sorted(a + b)
    ensures Sorted(a) && Sorted(b) && AllLess(a, b)
  {
    var s := a + b;
    assert forall i :: 0 <= i < |a| ==> s[i] == a[i];
    forall i, j | 0 <= i < j < |b|
      ensures b[i] < b[j]
    {
      assert s[|a| + i] < s[|a| + j];
    }
    forall x, y | x in a && y in b
      ensures x < y
    {
      var i :| 0 <= i < |a| && a[i] == x;
      var j :| 0 <= j < |b| && b[j] == y;
      assert s[i] < s[|a| + j];
    }
  }

  lemma {:induction false} PickedMembers(s: seq<nat>, which: set<nat>)
    ensures forall x :: x in Picked(s, which) <==> x in s && x in which
  {
    if s != [] {
      PickedMembers(s[..|s| - 1], which);
      assert s == s[..|s| - 1] + [s[|s| - 1]];
    }
  }

  lemma {:induction false} UpToMembers(n: nat)
    ensures forall x :: x in UpTo(n) <==> 0 <= x < n
  {
    if n > 0 {
      UpToMembers(n - 1);
    }
  }

  lemma {:induction false} UpToSorted(n: nat, which: set<nat>)
    ensures Sorted(Picked(UpTo(n), which))
  {
    if n > 0 {
      UpToSorted(n - 1, which);
      UpToStep(n, which);
      SortedJoin(Picked(UpTo(n - 1), which), Picked([n - 1], which));
    }
  }

  lemma UpToStep(n: nat, which: set<nat>)
    requires n > 0
    ensures Picked(UpTo(n), which) == Picked(UpTo(n - 1), which) + Picked([n - 1], which)
    ensures Sorted(Picked([n - 1], which)) && AllLess(Picked(UpTo(n - 1), which), Picked([n - 1], which))
  {
    var before, last := Picked(UpTo(n - 1), which), Picked([n - 1], which);
    PickedJoin(UpTo(n - 1), [n - 1], which);
    PickedOne(n - 1, which);
    PickedBelow(n - 1, which);
    OneAbove(before, last, n - 1);
  }

  lemma OneAbove(before: seq<nat>, last: seq<nat>, n: nat)
    requires (last == [n] || last == []) && forall x :: x in before ==> x < n
    ensures Sorted(last) && AllLess(before, last)
  {
  }

  lemma PickedBelow(n: nat, which: set<nat>)
    ensures forall x :: x in Picked(UpTo(n), which) ==> x < n
  {
    UpToMembers(n);
    PickedMembers(UpTo(n), which);
  }

  /** Each buffer is sorted, and so are the buffers among each other. */
  ghost predicate Blocks(parts: Parts, which: set<nat>) {
    && (forall b :: 0 <= b < |parts| ==> Sorted(Picked(parts[b], which)))
    && (forall b, c :: 0 <= b < c < |parts| ==> AllLess(Picked(parts[b], which), Picked(parts[c], which)))
  }

  lemma {:induction false} FlatMembers(parts: Parts, which: set<nat>)
    ensures forall x :: x in Picked(Flat(parts), which) <==> exists b :: 0 <= b < |parts| && x in Picked(parts[b], which)
  {
    if parts != [] {
      var m := |parts| - 1;
      FlatMembers(parts[..m], which);
      FlatLast(parts, which);
      forall x
        ensures x in Picked(Flat(parts), which) <==> exists b :: 0 <= b < |parts| && x in Picked(parts[b], which)
      {
        if b :| 0 <= b < |parts| && x in Picked(parts[b], which) {
          assert b < m ==> x in Picked(parts[..m][b], which);
        }
      }
    }
  }

  lemma {:induction false} FlatSorted(parts: Parts, which: set<nat>)
    ensures Sorted(Picked(Flat(parts), which)) <==> Blocks(parts, which)
  {
    if parts != [] {
      var m := |parts| - 1;
      FlatSorted(parts[..m], which);
      FlatLast(parts, which);
      SortedJoin(Picked(Flat(parts[..m]), which), Picked(parts[m], which));
      FlatMembers(parts[..m], which);
      BlocksLast(parts, m, Picked(Flat(parts[..m]), which), which);
    }
  }

  lemma BlocksLast(parts: Parts, m: nat, before: seq<nat>, which: set<nat>)
    requires |parts| == m + 1
    requires forall x :: x in before <==> exists b :: 0 <= b < m && x in Picked(parts[..m][b], which)
    ensures Blocks(parts, which)
       <==> Blocks(parts[..m], which) && Sorted(Picked(parts[m], which)) && AllLess(before, Picked(parts[m], which))
  {
    assert forall b :: 0 <= b < m ==> parts[..m][b] == parts[b];
    if Blocks(parts[..m], which) && Sorted(Picked(parts[m], which)) && AllLess(before, Picked(parts[m], which)) {
      forall b, c | 0 <= b < c < |parts|
        ensures AllLess(Picked(parts[b], which), Picked(parts[c], which))
      {
        if c < m {
          assert AllLess(Picked(parts[..m][b], which), Picked(parts[..m][c], which));
        } else {
          assert forall x :: x in Picked(parts[b], which) ==> x in Picked(parts[..m][b], which) && x in before;
        }
      }
    }
    if Blocks(parts, which) {
      forall x, y | x in before && y in Picked(parts[m], which)
        ensures x < y
      {
        var b :| 0 <= b < m && x in Picked(parts[..m][b], which);
        assert AllLess(Picked(parts[b], which), Picked(parts[m], which));
      }
    }
  }

  /** There is only one sorted list of given numbers. */
  lemma {:induction false} SortedUnique(a: seq<nat>, b: seq<nat>)
    requires Sorted(a) && Sorted(b) && forall x :: x in a <==> x in b
    ensures a == b
  {
    NotEmptyHas(a);
    NotEmptyHas(b);
    if a != [] && b != [] {
      var m, k := |a| - 1, |b| - 1;
      assert a[m] in b && b[k] in a;
      assert a[m] == b[k];
      forall x
        ensures x in a[..m] <==> x in b[..k]
      {
        LessThanLast(a, x);
        LessThanLast(b, x);
      }
      SortedUnique(a[..m], b[..k]);
      assert a == a[..m] + [a[m]] && b == b[..k] + [b[k]];
    }
  }

  lemma NotEmptyHas(s: seq<nat>)
    ensures s != [] ==> exists x :: x in s
  {
    if s != [] {
      assert s[0] in s;
    }
  }

  lemma LessThanLast(s: seq<nat>, x: int)
    requires s != [] && Sorted(s)
    ensures x in s[..|s| - 1] <==> x in s && x != s[|s| - 1]
  {
    assert s == s[..|s| - 1] + [s[|s| - 1]];
  }

  lemma {:induction false} CopyIsThere(s: seq<nat>, x: nat)
    ensures multiset(s)[x] > 0 <==> x in s
  {
  }

  /** For packets that are all in the buffers, order is sortedness. */
  lemma OrderIsSorted(which: set<nat>, parts: Parts, n: nat)
    requires EachOnce(parts, n) && forall x :: x in which ==> x < n
    ensures KeepsOrder(which, parts, n) <==> Blocks(parts, which)
  {
    var flat, up := Picked(Flat(parts), which), Picked(UpTo(n), which);
    UpToSorted(n, which);
    UpToMembers(n);
    FlatSorted(parts, which);
    PickedMembers(Flat(parts), which);
    PickedMembers(UpTo(n), which);
    if Sorted(flat) {
      forall x
        ensures x in flat <==> x in up
      {
        if x in which {
          assert Copies(parts, x) == 1;
          CopyIsThere(Flat(parts), x);
        }
      }
      SortedUnique(flat, up);
    }
  }

  /** Packet k is written before packet j, which came before it. */
  ghost predicate Overtakes(parts: Parts, which: set<nat>, late: set<nat>, b: nat, j: nat, k: nat) {
    b < j < k && b < |parts| && k in parts[b] && k in which && j in late
  }

  /** Packet x is not in a buffer behind its own, and a late one has its own to itself. */
  ghost predicate HousedAt(parts: Parts, which: set<nat>, late: set<nat>, b: nat, x: nat)
    requires b < |parts|
  {
    x in parts[b] && x in which ==> b <= x && (x in late ==> parts[b] == [b])
  }

  ghost predicate Housed(parts: Parts, which: set<nat>, late: set<nat>) {
    forall b: nat, x: nat {:trigger HousedAt(parts, which, late, b, x)} ::
      b < |parts| ==> HousedAt(parts, which, late, b, x)
  }

  ghost predicate AloneAt(parts: Parts, j: nat) {
    j < |parts| && parts[j] == [j]
  }

  ghost predicate Alone(parts: Parts, late: set<nat>) {
    forall j {:trigger AloneAt(parts, j)} :: j in late ==> AloneAt(parts, j)
  }

  ghost predicate NoneOvertaken(parts: Parts, which: set<nat>, late: set<nat>) {
    forall b, j, k :: !Overtakes(parts, which, late, b, j, k)
  }

  /** All of these packets keep their order exactly if none of the late ones is overtaken.  The late ones are those that
      have their buffers to themselves; the others keep their order among each other. */
  lemma OrderExactly(which: set<nat>, late: set<nat>, parts: Parts, n: nat)
    requires EachOnce(parts, n) && |parts| == n && late <= which && forall x :: x in which ==> x < n
    requires KeepsOrder(which - late, parts, n) && Alone(parts, late)
    requires Housed(parts, which, late)
    ensures KeepsOrder(which, parts, n) <==> NoneOvertaken(parts, which, late)
  {
    OrderIsSorted(which, parts, n);
    OrderIsSorted(which - late, parts, n);
    if Blocks(parts, which) {
      BlocksNoneOvertaken(which, late, parts);
    }
    if NoneOvertaken(parts, which, late) {
      NotOvertakenBlocks(which, late, parts, n);
    }
  }

  lemma BlocksNoneOvertaken(which: set<nat>, late: set<nat>, parts: Parts)
    requires Blocks(parts, which) && late <= which && Alone(parts, late)
    ensures NoneOvertaken(parts, which, late)
  {
    forall b: nat, j: nat, k: nat
      ensures !Overtakes(parts, which, late, b, j, k)
    {
      if b < j && j in late {
        assert AloneAt(parts, j);
        PickedMembers(parts[b], which);
        PickedMembers(parts[j], which);
        assert AllLess(Picked(parts[b], which), Picked(parts[j], which));
      }
    }
  }

  lemma NotOvertakenBlocks(which: set<nat>, late: set<nat>, parts: Parts, n: nat)
    requires |parts| == n && late <= which && (forall x :: x in which ==> x < n) && Blocks(parts, which - late)
    requires Housed(parts, which, late)
    requires NoneOvertaken(parts, which, late)
    ensures Blocks(parts, which)
  {
    forall b | 0 <= b < n
      ensures Sorted(Picked(parts[b], which))
    {
      BufferSorted(which, late, parts, b);
    }
    forall b, c | 0 <= b < c < n
      ensures AllLess(Picked(parts[b], which), Picked(parts[c], which))
    {
      BuffersInOrder(which, late, parts, b, c);
    }
  }

  lemma {:induction false} PickedSame(s: seq<nat>, which: set<nat>, late: set<nat>)
    requires forall x :: x in s ==> x !in late
    ensures Picked(s, which - late) == Picked(s, which)
  {
    if s != [] {
      assert s[|s| - 1] in s;
      PickedSame(s[..|s| - 1], which, late);
    }
  }

  lemma BufferSorted(which: set<nat>, late: set<nat>, parts: Parts, b: nat)
    requires b < |parts| && late <= which && Blocks(parts, which - late)
    requires Housed(parts, which, late)
    ensures Sorted(Picked(parts[b], which))
  {
    if parts[b] == [b] {
      PickedOne(b, which);
    } else {
      PickedMembers(parts[b], which);
      forall x | x in parts[b]
        ensures x !in late
      {
        assert HousedAt(parts, which, late, b, x);
      }
      PickedSame(parts[b], which, late);
    }
  }

  lemma BuffersInOrder(which: set<nat>, late: set<nat>, parts: Parts, b: nat, c: nat)
    requires b < c < |parts| && late <= which && Blocks(parts, which - late)
    requires Housed(parts, which, late)
    requires NoneOvertaken(parts, which, late)
    ensures AllLess(Picked(parts[b], which), Picked(parts[c], which))
  {
    PickedMembers(parts[b], which);
    PickedMembers(parts[c], which);
    PickedMembers(parts[b], which - late);
    PickedMembers(parts[c], which - late);
    forall x, y | x in Picked(parts[b], which) && y in Picked(parts[c], which)
      ensures x < y
    {
      assert HousedAt(parts, which, late, b, x) && HousedAt(parts, which, late, c, y);
      if y in late {
        assert parts[c] == [c] && y == c;
        assert !Overtakes(parts, which, late, b, y, x);
        assert x != y;
      } else if x in late {
        assert parts[b] == [b] && x == b;
      } else {
        assert AllLess(Picked(parts[b], which - late), Picked(parts[c], which - late));
      }
    }
  }

  // ---------------------------------------------------------------------------------------------
  // The list of buffers to write
  // ---------------------------------------------------------------------------------------------

  /** Strictly ascending and below n. */
  ghost predicate Ascending(s: seq<nat>, n: nat) {
    && (forall i :: 0 <= i < |s| ==> s[i] < n)
    && (forall i, j :: 0 <= i < j < |s| ==> s[i] < s[j])
  }

  /** The buffers to write: in order, and exactly those that hold packets. */
  ghost predicate Writes(toWrite: seq<nat>, parts: Parts, n: nat)
    requires n <= |parts|
  {
    Ascending(toWrite, n) && forall b :: 0 <= b < n ==> (b in toWrite <==> parts[b] != [])
  }

  lemma WritesMore(toWrite: seq<nat>, parts: Parts, parts': Parts, n: nat, result: GroResult)
    requires n < |parts| && Placed(parts, parts', n, result) && parts[n] == [] && Writes(toWrite, parts, n)
    ensures Writes(if result == Coalesced then toWrite else toWrite + [n], parts', n + 1)
  {
  }
}
