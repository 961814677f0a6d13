/** The shape of a trie of device/allowedips.go is canonical: it depends only on the map from
    prefixes to peers, not on the history that led to it. */
module TrieShape {
  import opened AddressBits
  import opened TrieHeap
  import AllowedIPs

  /** A trie without its pointers. */
  datatype Tree = Empty | Node(key: Prefix, peer: Peer?, left: Tree, right: Tree)

  type Owned = (Prefix, Peer)

  /** `k` lies strictly below `top`, on branch `b`. */
  ghost predicate Under(top: Prefix, b: nat, k: Prefix) {
    && |top.bits| == |k.bits| && top.cidr < k.cidr <= |k.bits|
    && Agree(top.bits, k.bits, top.cidr) && Bit(k.bits, top.cidr) == b
  }

  ghost predicate Canonical(t: Tree, w: nat) {
    t.Node? ==>
      && |t.key.bits| == w && t.key.cidr <= w && t.key.bits == Mask(t.key.bits, t.key.cidr)
      && (t.left.Node? ==> Under(t.key, 0, t.left.key)) && (t.right.Node? ==> Under(t.key, 1, t.right.key))
      && (t.peer == null ==> t.left.Node? && t.right.Node?)
      && Canonical(t.left, w) && Canonical(t.right, w)
  }

  ghost function Entries(t: Tree): set<Owned> {
    match t
    case Empty => {}
    case Node(k, p, l, r) => (if p == null then {} else {(k, p)}) + Entries(l) + Entries(r)
  }

  // ---------------------------------------------------------------------------------------------
  // A canonical tree is determined by its entries
  // ---------------------------------------------------------------------------------------------

  lemma {:induction false} EntriesBelow(t: Tree, w: nat, e: Owned)
    requires Canonical(t, w) && e in Entries(t)
    ensures t.Node? && |e.0.bits| == w && t.key.cidr <= e.0.cidr <= w && Agree(t.key.bits, e.0.bits, t.key.cidr)
    ensures e.0.cidr == t.key.cidr ==> t.peer != null && e == (t.key, t.peer)
    ensures e in Entries(t.left) ==> Under(t.key, 0, e.0)
    ensures e in Entries(t.right) ==> Under(t.key, 1, e.0)
  {
    if e in Entries(t.left) {
      EntriesBelow(t.left, w, e);
    }
    if e in Entries(t.right) {
      EntriesBelow(t.right, w, e);
    }
  }

  lemma {:induction false} SomeEntry(t: Tree, w: nat) returns (e: Owned)
    requires Canonical(t, w) && t.Node?
    ensures e in Entries(t)
  {
    if t.peer != null {
      e := (t.key, t.peer);
    } else {
      e := SomeEntry(t.left, w);
    }
  }

  /** The root prefix is the longest common prefix of the entries. */
  lemma NoShorterRoot(t: Tree, u: Tree, w: nat)
    requires Canonical(t, w) && Canonical(u, w) && t.Node? && u.Node? && Entries(t) == Entries(u)
    ensures t.key.cidr >= u.key.cidr
  {
    if t.peer != null {
      assert (t.key, t.peer) in Entries(t);
      EntriesBelow(u, w, (t.key, t.peer));
    } else {
      var e0 := SomeEntry(t.left, w);
      var e1 := SomeEntry(t.right, w);
      EntriesBelow(t, w, e0);
      EntriesBelow(t, w, e1);
      EntriesBelow(u, w, e0);
      EntriesBelow(u, w, e1);
    }
  }

  lemma SameRoot(t: Tree, u: Tree, w: nat)
    requires Canonical(t, w) && Canonical(u, w) && t.Node? && u.Node? && Entries(t) == Entries(u)
    ensures t.key == u.key && t.peer == u.peer
  {
    NoShorterRoot(t, u, w);
    NoShorterRoot(u, t, w);
    var e := SomeEntry(t, w);
    EntriesBelow(t, w, e);
    EntriesBelow(u, w, e);
    MaskEqual(t.key.bits, u.key.bits, t.key.cidr);
    if t.peer != null {
      assert (t.key, t.peer) in Entries(t);
      EntriesBelow(u, w, (t.key, t.peer));
    }
    if u.peer != null {
      assert (u.key, u.peer) in Entries(u);
      EntriesBelow(t, w, (u.key, u.peer));
    }
  }

  lemma SameBranch(t: Tree, u: Tree, w: nat, e: Owned)
    requires Canonical(t, w) && Canonical(u, w) && t.Node? && u.Node? && Entries(t) == Entries(u)
    requires t.key == u.key && t.peer == u.peer
    ensures e in Entries(t.left) ==> e in Entries(u.left)
    ensures e in Entries(t.right) ==> e in Entries(u.right)
  {
    if e in Entries(t.left) || e in Entries(t.right) {
      assert e in Entries(u);
      EntriesBelow(t, w, e);
      EntriesBelow(u, w, e);
    }
  }

  lemma BranchesWithin(t: Tree, u: Tree, w: nat)
    requires Canonical(t, w) && Canonical(u, w) && t.Node? && u.Node? && Entries(t) == Entries(u)
    requires t.key == u.key && t.peer == u.peer
    ensures Entries(t.left) <= Entries(u.left) && Entries(t.right) <= Entries(u.right)
  {
    forall e | e in Entries(t.left)
      ensures e in Entries(u.left)
    {
      SameBranch(t, u, w, e);
    }
    forall e | e in Entries(t.right)
      ensures e in Entries(u.right)
    {
      SameBranch(t, u, w, e);
    }
  }

  lemma {:induction false} CanonicalUnique(t: Tree, u: Tree, w: nat)
    requires Canonical(t, w) && Canonical(u, w) && Entries(t) == Entries(u)
    ensures t == u
  {
    if t.Node? && u.Node? {
      SameRoot(t, u, w);
      BranchesWithin(t, u, w);
      BranchesWithin(u, t, w);
      CanonicalUnique(t.left, u.left, w);
      CanonicalUnique(t.right, u.right, w);
    } else if t.Node? {
      var e := SomeEntry(t, w);
    } else if u.Node? {
      var e := SomeEntry(u, w);
    }
  }

  // ---------------------------------------------------------------------------------------------
  // The tree behind the pointers
  // ---------------------------------------------------------------------------------------------

  ghost function Shape(h: Heap, root: TrieEntry?, w: nat, n: TrieEntry?): Tree
    requires Wf(h, root, w) && (n != null ==> n in h)
    decreases if n == null then 0 else w + 1 - h[n].cidr
  {
    if n == null then Empty
    else
      assert NodeOk(h, root, w, n);
      assert ChildOk(h, n, 0) && ChildOk(h, n, 1);
      Node(h[n].Key(), h[n].peer, Shape(h, root, w, h[n].child.At(0)), Shape(h, root, w, h[n].child.At(1)))
  }

  lemma {:induction false} ShapeCanonical(h: Heap, root: TrieEntry?, w: nat, n: TrieEntry?)
    requires Wf(h, root, w) && (n != null ==> n in h)
    ensures Canonical(Shape(h, root, w, n), w)
    decreases if n == null then 0 else w + 1 - h[n].cidr
  {
    if n != null {
      assert NodeOk(h, root, w, n);
      assert ChildOk(h, n, 0) && ChildOk(h, n, 1);
      ShapeCanonical(h, root, w, h[n].child.At(0));
      ShapeCanonical(h, root, w, h[n].child.At(1));
    }
  }

  lemma {:induction false} ShapeSound(h: Heap, root: TrieEntry?, w: nat, m: Table, n: TrieEntry?, e: Owned)
    requires Wf(h, root, w) && Represents(h, m) && (n != null ==> n in h)
    requires e in Entries(Shape(h, root, w, n))
    ensures e.0 in m && m[e.0] == e.1
    decreases if n == null then 0 else w + 1 - h[n].cidr
  {
    assert NodeOk(h, root, w, n);
    assert ChildOk(h, n, 0) && ChildOk(h, n, 1);
    var c0, c1 := h[n].child.At(0), h[n].child.At(1);
    if e in Entries(Shape(h, root, w, c0)) {
      ShapeSound(h, root, w, m, c0, e);
    } else if e in Entries(Shape(h, root, w, c1)) {
      ShapeSound(h, root, w, m, c1, e);
    } else {
      assert h[n].Key() in m;
    }
  }

  lemma {:induction false} ShapeComplete(h: Heap, root: TrieEntry?, w: nat, n: TrieEntry, x: TrieEntry)
    requires Wf(h, root, w) && n in h && x in h && h[x].peer != null
    requires |h[x].bits| == w && Covers(h[n].Key(), h[x].bits) && h[n].cidr <= h[x].cidr <= w
    ensures (h[x].Key(), h[x].peer) in Entries(Shape(h, root, w, n))
    decreases w + 1 - h[n].cidr
  {
    assert NodeOk(h, root, w, n);
    assert ChildOk(h, n, 0) && ChildOk(h, n, 1);
    if n != x {
      Path(h, root, w, n, x, h[x].bits);
      var b := Bit(h[x].bits, h[n].cidr);
      ShapeComplete(h, root, w, h[n].child.At(b), x);
    }
  }

  lemma ShapeEntries(h: Heap, root: TrieEntry?, w: nat, m: Table)
    requires Wf(h, root, w) && Represents(h, m)
    ensures Entries(Shape(h, root, w, root)) == set k | k in m :: (k, m[k])
  {
    forall e | e in Entries(Shape(h, root, w, root))
      ensures e.0 in m && m[e.0] == e.1
    {
      ShapeSound(h, root, w, m, root, e);
    }
    forall k | k in m
      ensures (k, m[k]) in Entries(Shape(h, root, w, root))
    {
      assert HasOwner(h, k);
      var x :| x in h && Holds(h, k, x);
      RootAbove(h, root, w, x);
      ShapeComplete(h, root, w, root, x);
      assert h[x].Key() in m;
    }
  }

  /** The shape depends only on the map. */
  lemma SameTableSameShape(h: Heap, root: TrieEntry?, g: Heap, top: TrieEntry?, w: nat, m: Table)
    requires Wf(h, root, w) && Wf(g, top, w) && Represents(h, m) && Represents(g, m)
    ensures Shape(h, root, w, root) == Shape(g, top, w, top)
  {
    ShapeEntries(h, root, w, m);
    ShapeEntries(g, top, w, m);
    ShapeCanonical(h, root, w, root);
    ShapeCanonical(g, top, w, top);
    CanonicalUnique(Shape(h, root, w, root), Shape(g, top, w, top), w);
  }

  /** Inserting a prefix that was not there and removing it again restores the tree. */
  lemma InsertThenRemove(h: Heap, root: TrieEntry?, g: Heap, top: TrieEntry?, w: nat, m: Table, ip: seq<bool>, cidr: nat, peer: Peer)
    requires Wf(h, root, w) && Represents(h, m)
    requires Prefix(Mask(ip, cidr), cidr) !in m
    requires Wf(g, top, w)
    requires Represents(g, AllowedIPs.Apply(AllowedIPs.Apply(m, AllowedIPs.Op.Insert(ip, cidr, peer)), AllowedIPs.Op.Remove(ip, cidr, peer)))
    ensures Shape(h, root, w, root) == Shape(g, top, w, top)
  {
    var k := Prefix(Mask(ip, cidr), cidr);
    assert m[k := peer] - {k} == m;
    SameTableSameShape(h, root, g, top, w, m);
  }

  /** An empty table has no node at all: nothing is leaked when every prefix is gone. */
  lemma EmptyTableEmptyTrie(h: Heap, root: TrieEntry?, w: nat)
    requires Wf(h, root, w) && Represents(h, map[])
    ensures root == null && h == map[]
  {
    if root != null {
      ShapeCanonical(h, root, w, root);
      var e := SomeEntry(Shape(h, root, w, root), w);
      ShapeEntries(h, root, w, map[]);
    }
  }
}
