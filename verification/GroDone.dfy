/** Which packets receive offload in tun/offload_linux.go is done with, and what becomes of their virtio headers. */
module GroDone {
  import opened Chunks
  import opened GroPackets
  import opened GroItems
  import opened GroTables

  /** `noted` are the packets that were announced as needing no offload when they came; `dropped` are those whose items
      were deleted from the TCP table. */
  datatype Done = Done(noted: set<nat>, dropped: set<nat>)
  {
    predicate Has(b: nat) {
      b in noted || b in dropped
    }
  }

  ghost predicate InTables(m: Flows, other: Flows, b: nat) {
    Listed(m, b) || Listed(other, b)
  }

  /** A buffer in use is in a table or done with, and never both. */
  ghost predicate DoneAt(b: nat, m: Flows, other: Flows, orig: seq<Bytes>, parts: Parts, d: Done) {
    && (d.Has(b) ==> b < |parts| && parts[b] == [b] && !InTables(m, other, b))
    && (b in d.dropped ==> b !in d.noted && b < |orig| && WrongSum(orig[b]))
    && (b < |parts| && parts[b] != [] ==> InTables(m, other, b) || d.Has(b))
  }

  /** As long as a buffer holds no more than its own packet, its virtio header was written only if it was noted. */
  ghost predicate HeaderAt(b: nat, start: Bufs, bufs: Bufs, parts: Parts, d: Done, n: nat)
    requires b < |start| == |bufs| == |parts|
  {
    b >= n || parts[b] == [b] ==> bufs[b].vnet == if b in d.noted then NoOffload else start[b].vnet
  }

  ghost predicate Tracked(start: Bufs, bufs: Bufs, m: Flows, other: Flows, orig: seq<Bytes>, parts: Parts, d: Done, n: nat) {
    && |start| == |bufs| == |orig| == |parts|
    && (forall b: nat {:trigger DoneAt(b, m, other, orig, parts, d)} :: DoneAt(b, m, other, orig, parts, d))
    && (forall b: nat {:trigger HeaderAt(b, start, bufs, parts, d, n)} :: b < |bufs| ==>
          HeaderAt(b, start, bufs, parts, d, n))
  }

  lemma TrackedSymmetric(start: Bufs, bufs: Bufs, m: Flows, other: Flows, orig: seq<Bytes>, parts: Parts, d: Done, n: nat)
    requires Tracked(start, bufs, m, other, orig, parts, d, n)
    ensures Tracked(start, bufs, other, m, orig, parts, d, n)
  {
    forall b: nat
      ensures DoneAt(b, other, m, orig, parts, d)
    {
      assert DoneAt(b, m, other, orig, parts, d);
    }
  }

  /** A packet that is announced at once. */
  lemma TrackedNoted(start: Bufs, bufs: Bufs, bufs': Bufs, m: Flows, other: Flows, orig: seq<Bytes>, parts: Parts,
                  parts': Parts, d: Done, d': Done, n: nat)
    requires Tracked(start, bufs, m, other, orig, parts, d, n) && n < |bufs| && !InTables(m, other, n) && parts[n] == []
    requires bufs' == Marked(bufs, n) && parts' == parts[n := [n]] && d' == d.(noted := d.noted + {n})
    ensures Tracked(start, bufs', m, other, orig, parts', d', n + 1)
  {
    assert DoneAt(n, m, other, orig, parts, d);
    forall b: nat
      ensures DoneAt(b, m, other, orig, parts', d')
    {
      assert DoneAt(b, m, other, orig, parts, d);
    }
    var n' := n + 1;
    forall b: nat | b < |bufs|
      ensures HeaderAt(b, start, bufs', parts', d', n')
    {
      assert HeaderAt(b, start, bufs, parts, d, n);
    }
  }

  /** A packet that starts an item. */
  lemma TrackedStarted(start: Bufs, bufs: Bufs, m: Flows, m': Flows, other: Flows, orig: seq<Bytes>, parts: Parts,
                    parts': Parts, d: Done, n: nat, t: Item)
    requires Tracked(start, bufs, m, other, orig, parts, d, n) && n < |bufs| && parts[n] == []
    requires t.bufsIndex == n && m' == Inserted(m, t) && parts' == parts[n := [n]]
    ensures Tracked(start, bufs, m', other, orig, parts', d, n + 1)
  {
    assert DoneAt(n, m, other, orig, parts, d);
    forall b: nat
      ensures DoneAt(b, m', other, orig, parts', d)
    {
      assert DoneAt(b, m, other, orig, parts, d);
      InsertedListed(m, t, b);
    }
    var n' := n + 1;
    forall b: nat | b < |bufs|
      ensures HeaderAt(b, start, bufs, parts', d, n')
    {
      assert HeaderAt(b, start, bufs, parts, d, n);
    }
  }

  lemma InsertedListed(m: Flows, t: Item, b: nat)
    ensures Listed(Inserted(m, t), b) <==> Listed(m, b) || b == t.bufsIndex
  {
    var m', items := Inserted(m, t), ItemsOf(m, t.key);
    var more := items + [t];
    assert HasIndex(more, b) <==> HasIndex(items, b) || b == t.bufsIndex by {
      assert more[|items|] == t;
      if x :| 0 <= x < |items| && items[x].bufsIndex == b {
        assert more[x].bufsIndex == b;
      }
    }
    ListedElsewhere(m, m', t.key, more, b);
  }

  lemma ListedElsewhere(m: Flows, m': Flows, key: FlowKey, items: seq<Item>, b: nat)
    requires m' == m[key := items]
    ensures Listed(m', b) <==> HasIndex(items, b) || exists k :: k in m && k != key && HasIndex(m[k], b)
  {
    if k :| k in m' && HasIndex(m'[k], b) {
      assert k != key ==> k in m && HasIndex(m[k], b);
    }
    if HasIndex(items, b) {
      assert HasIndex(m'[key], b);
    }
    if k :| k in m && k != key && HasIndex(m[k], b) {
      assert HasIndex(m'[k], b);
    }
  }

  /** An item that is deleted. */
  lemma TrackedDropped(start: Bufs, bufs: Bufs, m: Flows, m': Flows, other: Flows, orig: seq<Bytes>, parts: Parts, d: Done,
                    d': Done, n: nat, b0: nat)
    requires Tracked(start, bufs, m, other, orig, parts, d, n)
    requires b0 < |parts| && parts[b0] == [b0] && Listed(m, b0) && !Listed(other, b0) && WrongSum(orig[b0])
    requires forall b: nat :: Listed(m', b) <==> Listed(m, b) && b != b0
    requires d' == d.(dropped := d.dropped + {b0})
    ensures Tracked(start, bufs, m', other, orig, parts, d', n)
  {
    assert DoneAt(b0, m, other, orig, parts, d);
    forall b: nat
      ensures DoneAt(b, m', other, orig, parts, d')
    {
      assert DoneAt(b, m, other, orig, parts, d);
    }
    forall b: nat | b < |bufs|
      ensures HeaderAt(b, start, bufs, parts, d', n)
    {
      assert HeaderAt(b, start, bufs, parts, d, n);
    }
  }

  lemma RemovedListed(m: Flows, tcp: bool, bufs: Bufs, orig: seq<Bytes>, parts: Parts, n: nat, key: FlowKey, x: nat,
                      m': Flows, b: nat)
    requires n <= |bufs| == |orig| == |parts| && TableOk(m, tcp, bufs, orig, parts, n)
    requires key in m && x < |m[key]| && m' == m[key := Removed(m[key], x)]
    ensures Listed(m', b) <==> Listed(m, b) && b != m[key][x].bufsIndex
  {
    var items, left := m[key], Removed(m[key], x);
    InTable(m, tcp, bufs, orig, parts, n, key, x);
    RemovedIndex(items, x, b);
    ListedElsewhere(m, m', key, left, b);
    ListedElsewhere(m, m, key, items, b);
    assert m[key := items] == m;
    if b == items[x].bufsIndex {
      forall k | k in m && k != key
        ensures !HasIndex(m[k], b)
      {
        NotElsewhere(m, tcp, bufs, orig, parts, n, key, k, b);
      }
    }
  }

  lemma RemovedIndex(items: seq<Item>, x: nat, b: nat)
    requires x < |items| && InOrder(items)
    ensures HasIndex(Removed(items, x), b) <==> HasIndex(items, b) && b != items[x].bufsIndex
  {
    var left := Removed(items, x);
    if y :| 0 <= y < |left| && left[y].bufsIndex == b {
      var z := if y < x then y else y + 1;
      assert left[y] == items[z];
      assert if z < x then items[z].bufsIndex < items[x].bufsIndex else items[x].bufsIndex < items[z].bufsIndex;
    }
    if HasIndex(items, b) && b != items[x].bufsIndex {
      OtherIndex(items, x, left, b);
    }
  }

  /** A packet that is merged into item x. */
  lemma TrackedMerged(start: Bufs, bufs: Bufs, bufs': Bufs, m: Flows, m': Flows, other: Flows, orig: seq<Bytes>,
                   parts: Parts, parts': Parts, d: Done, n: nat, key: FlowKey, x: nat, u: Item, part: seq<nat>)
    requires Tracked(start, bufs, m, other, orig, parts, d, n) && n < |bufs| == |bufs'| && parts[n] == []
    requires key in m && x < |m[key]| && u.bufsIndex == m[key][x].bufsIndex < n && m' == m[key := m[key][x := u]]
    requires parts' == parts[u.bufsIndex := part] && |part| >= 2
    requires forall k :: 0 <= k < |bufs| && k != u.bufsIndex && k != n ==> bufs'[k] == bufs[k]
    ensures Tracked(start, bufs', m', other, orig, parts', d, n + 1)
  {
    assert HasIndex(m[key], u.bufsIndex);
    assert DoneAt(u.bufsIndex, m, other, orig, parts, d);
    forall b: nat
      ensures DoneAt(b, m', other, orig, parts', d)
    {
      assert DoneAt(b, m, other, orig, parts, d);
      MergedListed(m, key, x, u, b);
    }
    var n' := n + 1;
    forall b: nat | b < |bufs|
      ensures HeaderAt(b, start, bufs', parts', d, n')
    {
      assert HeaderAt(b, start, bufs, parts, d, n);
    }
  }

  lemma MergedListed(m: Flows, key: FlowKey, x: nat, u: Item, b: nat)
    requires key in m && x < |m[key]| && u.bufsIndex == m[key][x].bufsIndex
    ensures Listed(m[key := m[key][x := u]], b) <==> Listed(m, b)
  {
    var items := m[key];
    var more := items[x := u];
    SameIndices(items, x, u, b);
    SameIndices(more, x, items[x], b);
    assert more[x := items[x]] == items;
    ListedElsewhere(m, m[key := more], key, more, b);
    ListedElsewhere(m, m, key, items, b);
    assert m[key := items] == m;
  }

  // ---------------------------------------------------------------------------------------------
  // Between packets
  // ---------------------------------------------------------------------------------------------

  /** What does not change while a batch is looked at. */
  datatype Batch = Batch(start: Bufs, orig: seq<Bytes>, canUDPGRO: bool)

  /** What holds between packets. */
  ghost predicate Sound(g: Batch, bufs: Bufs, m: Flows, other: Flows, tcp: bool, parts: Parts, d: Done, n: nat) {
    && Between(bufs, m, other, tcp, g.orig, parts, g.canUDPGRO, n)
    && Tracked(g.start, bufs, m, other, g.orig, parts, d, n)
  }

  lemma SoundSymmetric(g: Batch, bufs: Bufs, m: Flows, other: Flows, tcp: bool, parts: Parts, d: Done, n: nat)
    requires Sound(g, bufs, m, other, tcp, parts, d, n)
    ensures Sound(g, bufs, other, m, !tcp, parts, d, n)
  {
    Symmetric(bufs, m, other, tcp, g.orig, parts, g.canUDPGRO, n);
    TrackedSymmetric(g.start, bufs, m, other, g.orig, parts, d, n);
  }

  lemma NotYetListed(m: Flows, tcp: bool, bufs: Bufs, orig: seq<Bytes>, parts: Parts, n: nat, b: nat)
    requires n <= |bufs| == |orig| == |parts| && TableOk(m, tcp, bufs, orig, parts, n) && b >= n
    ensures !Listed(m, b)
  {
    forall k | k in m
      ensures !HasIndex(m[k], b)
    {
      forall x | 0 <= x < |m[k]|
        ensures m[k][x].bufsIndex != b
      {
        InTable(m, tcp, bufs, orig, parts, n, k, x);
      }
    }
  }

  /** A packet that is announced at once. */
  lemma SoundNoted(g: Batch, bufs: Bufs, bufs': Bufs, m: Flows, other: Flows, tcp: bool, parts: Parts, parts': Parts,
                   d: Done, d': Done, n: nat)
    requires Sound(g, bufs, m, other, tcp, parts, d, n) && n < |bufs|
    requires LeftAlone(g.orig[n], g.canUDPGRO) || WrongSum(g.orig[n])
    requires bufs' == Marked(bufs, n) && parts' == parts[n := [n]] && d' == d.(noted := d.noted + {n})
    ensures Sound(g, bufs', m, other, tcp, parts', d', n + 1)
  {
    NotYetListed(m, tcp, bufs, g.orig, parts, n, n);
    NotYetListed(other, !tcp, bufs, g.orig, parts, n, n);
    LeaveAlone(bufs, m, other, tcp, g.orig, parts, g.canUDPGRO, n);
    TrackedNoted(g.start, bufs, bufs', m, other, g.orig, parts, parts', d, d', n);
  }

  lemma SoundStarted(g: Batch, bufs: Bufs, m: Flows, m': Flows, other: Flows, tcp: bool, parts: Parts, parts': Parts,
                     d: Done, n: nat, t: Item)
    requires Sound(g, bufs, m, other, tcp, parts, d, n) && n < |bufs|
    requires t.key.tcp == tcp && t.bufsIndex == n && ItemOk(t, t.key, bufs[n], g.orig, [n])
    requires m' == Inserted(m, t) && parts' == parts[n := [n]]
    ensures Sound(g, bufs, m', other, tcp, parts', d, n + 1)
  {
    StartItem(bufs, m, m', other, tcp, g.orig, parts, g.canUDPGRO, n, t);
    TrackedStarted(g.start, bufs, m, m', other, g.orig, parts, parts', d, n, t);
  }

  /** An item that is dropped is a TCP packet with a wrong checksum, alone in its buffer. */
  lemma SoundDropped(g: Batch, bufs: Bufs, m: Flows, m': Flows, other: Flows, parts: Parts, d: Done, d': Done, n: nat,
                     key: FlowKey, x: nat)
    requires Sound(g, bufs, m, other, true, parts, d, n) && key in m && x < |m[key]| && m[key][x].numMerged == 0
    requires m[key][x].bufsIndex < |bufs| && !RightSum(bufs[m[key][x].bufsIndex].pkt, key)
    requires m' == m[key := Removed(m[key], x)] && d' == d.(dropped := d.dropped + {m[key][x].bufsIndex})
    ensures Sound(g, bufs, m', other, true, parts, d', n)
  {
    var b := m[key][x].bufsIndex;
    InTable(m, true, bufs, g.orig, parts, n, key, x);
    DropItem(bufs, m, m', other, g.orig, parts, g.canUDPGRO, n, key, x);
    assert HasIndex(m[key], b);
    NotInOther(other, true, bufs, g.orig, parts, n, key, b);
    forall c: nat
      ensures Listed(m', c) <==> Listed(m, c) && c != b
    {
      RemovedListed(m, true, bufs, g.orig, parts, n, key, x, m', c);
    }
    TrackedDropped(g.start, bufs, m, m', other, g.orig, parts, d, d', n, b);
  }

  lemma SoundMerged(g: Batch, bufs: Bufs, bufs': Bufs, m: Flows, m': Flows, other: Flows, tcp: bool, parts: Parts,
                    parts': Parts, d: Done, n: nat, key: FlowKey, x: nat, u: Item)
    requires Sound(g, bufs, m, other, tcp, parts, d, n) && n < |bufs| == |bufs'| == |parts'|
    requires key.tcp == tcp && key in m && x < |m[key]| && u.bufsIndex == m[key][x].bufsIndex < n
    requires m' == m[key := m[key][x := u]] && parts' == parts[u.bufsIndex := parts'[u.bufsIndex]]
    requires PlacedOk(u, key, bufs', g.orig, parts', n + 1) && bufs'[n].room <= 0xffff && |parts'[u.bufsIndex]| >= 2
    requires forall k :: 0 <= k < |bufs| && k != u.bufsIndex && k != n ==> bufs'[k] == bufs[k]
    ensures Sound(g, bufs', m', other, tcp, parts', d, n + 1)
  {
    MergeItem(bufs, bufs', m, m', other, tcp, g.orig, parts, parts', g.canUDPGRO, n, key, x, u, m[key][x := u],
              parts'[u.bufsIndex]);
    TrackedMerged(g.start, bufs, bufs', m, m', other, g.orig, parts, parts', d, n, key, x, u, parts'[u.bufsIndex]);
  }
}
