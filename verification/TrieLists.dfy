/** The intrusive lists of device/allowedips.go: each peer lists the entries it owns. */
module TrieLists {
  import opened TrieHeap

  /** container/list.Remove of the element that holds `n`. */
  function Without(s: seq<TrieEntry>, n: TrieEntry): seq<TrieEntry> {
    if s == [] then [] else (if s[0] == n then [] else [s[0]]) + Without(s[1..], n)
  }

  ghost predicate Distinct(s: seq<TrieEntry>) {
    forall i, j :: 0 <= i < j < |s| ==> s[i] != s[j]
  }

  lemma {:induction false} WithoutMembers(s: seq<TrieEntry>, n: TrieEntry)
    ensures forall x :: x in Without(s, n) <==> x in s && x != n
  {
    if s != [] {
      WithoutMembers(s[1..], n);
      assert forall x :: x in s <==> x == s[0] || x in s[1..];
    }
  }

  lemma {:induction false} WithoutDistinct(s: seq<TrieEntry>, n: TrieEntry)
    requires Distinct(s)
    ensures Distinct(Without(s, n))
  {
    if s != [] {
      WithoutDistinct(s[1..], n);
      WithoutMembers(s[1..], n);
      assert s[0] !in s[1..];
    }
  }

  lemma AppendDistinct(s: seq<TrieEntry>, n: TrieEntry)
    requires Distinct(s) && n !in s
    ensures Distinct(s + [n])
  {
    assert forall i :: 0 <= i < |s| ==> s[i] in s;
  }

  lemma {:induction false} WithoutAbsent(s: seq<TrieEntry>, n: TrieEntry)
    requires n !in s
    ensures Without(s, n) == s
  {
    if s != [] {
      WithoutAbsent(s[1..], n);
    }
  }

  lemma WithoutFirst(s: seq<TrieEntry>)
    requires s != [] && Distinct(s)
    ensures Without(s, s[0]) == s[1..]
  {
    WithoutAbsent(s[1..], s[0]);
  }

  type Lists = map<Peer, seq<TrieEntry>>

  /** The lists partition the owned entries: each is on its owner's list, once, and on no other.
      Lists may also hold entries of another trie. */
  ghost predicate Consistent(lists: Lists, h: Heap) {
    && (forall n {:trigger h[n].peer} :: n in h && h[n].peer != null ==> h[n].peer in lists && n in lists[h[n].peer])
    && (forall p, n {:trigger n in lists[p], n in h} :: p in lists && n in h && n in lists[p] ==> h[n].peer == p)
    && (forall p {:trigger Distinct(lists[p])} :: p in lists ==> Distinct(lists[p]))
  }

  /** `n` leaves every list and, if `to` is a peer, joins the end of its list. */
  ghost function Moved(lists: Lists, n: TrieEntry, to: Peer?): Lists {
    map p | p in lists :: if p == to then Without(lists[p], n) + [n] else Without(lists[p], n)
  }

  lemma MovedList(lists: Lists, n: TrieEntry, to: Peer?, p: Peer)
    requires p in lists && Distinct(lists[p])
    ensures Distinct(Moved(lists, n, to)[p])
    ensures forall x :: x in Moved(lists, n, to)[p] <==> (x in lists[p] && x != n) || (x == n && p == to)
  {
    var s := Without(lists[p], n);
    assert Distinct(lists[p]);
    WithoutMembers(lists[p], n);
    WithoutDistinct(lists[p], n);
    if p == to {
      AppendDistinct(s, n);
    }
  }

  lemma MovedConsistent(lists: Lists, h: Heap, n: TrieEntry, to: Peer?)
    requires Consistent(lists, h) && n in h
    requires to != null ==> to in lists
    ensures Consistent(Moved(lists, n, to), h[n := h[n].(peer := to)])
  {
    var g := Moved(lists, n, to);
    forall p | p in g
      ensures Distinct(g[p])
      ensures forall x :: x in g[p] <==> (x in lists[p] && x != n) || (x == n && p == to)
    {
      assert Distinct(lists[p]);
      MovedList(lists, n, to, p);
    }
  }

  /** An entry that is on no list is moved by adding it. */
  lemma MovedNew(lists: Lists, n: TrieEntry, to: Peer)
    requires to in lists && forall p :: p in lists ==> n !in lists[p]
    ensures Moved(lists, n, to) == lists[to := lists[to] + [n]]
  {
    forall p | p in lists
      ensures Without(lists[p], n) == lists[p]
    {
      WithoutAbsent(lists[p], n);
    }
  }

  /** `n` leaves the list of `from` and joins the end of the list of `to`. */
  ghost function Shifted(lists: Lists, n: TrieEntry, from: Peer?, to: Peer?): Lists
    requires (from != null ==> from in lists) && (to != null ==> to in lists)
  {
    var rest := if from == null then lists else lists[from := Without(lists[from], n)];
    if to == null then rest else rest[to := rest[to] + [n]]
  }

  lemma ShiftedIsMoved(lists: Lists, n: TrieEntry, from: Peer?, to: Peer?)
    requires (from != null ==> from in lists) && (to != null ==> to in lists)
    requires forall p :: p in lists && p != from ==> n !in lists[p]
    ensures Shifted(lists, n, from, to) == Moved(lists, n, to)
  {
    forall p | p in lists
      ensures p in Shifted(lists, n, from, to) && Shifted(lists, n, from, to)[p] == Moved(lists, n, to)[p]
    {
      ShiftedAt(lists, n, from, to, p);
    }
    ShiftedKeys(lists, n, from, to);
  }

  lemma ShiftedKeys(lists: Lists, n: TrieEntry, from: Peer?, to: Peer?)
    requires (from != null ==> from in lists) && (to != null ==> to in lists)
    ensures Shifted(lists, n, from, to).Keys == lists.Keys
  {
  }

  lemma ShiftedAt(lists: Lists, n: TrieEntry, from: Peer?, to: Peer?, p: Peer)
    requires (from != null ==> from in lists) && (to != null ==> to in lists) && p in lists
    requires p != from ==> n !in lists[p]
    ensures p in Shifted(lists, n, from, to) && Shifted(lists, n, from, to)[p] == Moved(lists, n, to)[p]
  {
    if p != from {
      WithoutAbsent(lists[p], n);
    }
  }

  /** An entry that was owned, or new and unlisted, changes hands. */
  lemma HandedOver(lists: Lists, h: Heap, n: TrieEntry, to: Peer?)
    requires Consistent(lists, h) && n in h && (to != null ==> to in lists)
    ensures h[n].peer != null ==> h[n].peer in lists
    ensures Shifted(lists, n, h[n].peer, to) == Moved(lists, n, to)
    ensures Consistent(Moved(lists, n, to), h[n := h[n].(peer := to)])
  {
    assert h[n].peer != null ==> h[n].peer in lists;
    forall p | p in lists && p != h[n].peer
      ensures n !in lists[p]
    {
    }
    ShiftedIsMoved(lists, n, h[n].peer, to);
    MovedConsistent(lists, h, n, to);
  }

  /** `g` adds to `h` the entry `n`, owned by `to`, and otherwise only unowned entries; no list
      mentions any of them. */
  ghost predicate Grown(lists: Lists, h: Heap, g: Heap, n: TrieEntry, to: Peer) {
    && n !in h && n in g && g[n].peer == to
    && (forall x :: x in h ==> x in g && g[x].peer == h[x].peer)
    && (forall x :: x in g && x !in h && x != n ==> g[x].peer == null)
    && (forall x, p :: x in g && x !in h && p in lists ==> x !in lists[p])
  }

  lemma HandedNew(lists: Lists, h: Heap, g: Heap, n: TrieEntry, to: Peer)
    requires Consistent(lists, h) && to in lists && Grown(lists, h, g, n, to)
    ensures lists[to := lists[to] + [n]] == Moved(lists, n, to)
    ensures Consistent(Moved(lists, n, to), g)
  {
    var unowned := h[n := g[n].(peer := null)];
    NewNodesConsistent(lists, h, unowned);
    MovedNew(lists, n, to);
    MovedConsistent(lists, unowned, n, to);
    forall x, p | x in g && x !in h && x != n && p in lists
      ensures x !in Moved(lists, n, to)[p]
    {
      assert Distinct(lists[p]);
      MovedList(lists, n, to, p);
    }
    NewNodesConsistent(Moved(lists, n, to), unowned[n := unowned[n].(peer := to)], g);
  }

  /** New entries without an owner change nothing, as long as no list mentions them. */
  lemma NewNodesConsistent(lists: Lists, h: Heap, g: Heap)
    requires Consistent(lists, h)
    requires forall n :: n in h ==> n in g && g[n].peer == h[n].peer
    requires forall n :: n in g && n !in h ==> g[n].peer == null && forall p :: p in lists ==> n !in lists[p]
    ensures Consistent(lists, g)
  {
  }

  lemma FewerConsistent(lists: Lists, h: Heap, g: Heap)
    requires Consistent(lists, h)
    requires Shrunk(h, g)
    ensures Consistent(lists, g)
  {
  }

  /** The lists hold only entries from `nodes`. */
  ghost predicate Contained(lists: Lists, nodes: set<TrieEntry>) {
    forall p, n {:trigger n in lists[p]} :: p in lists && n in lists[p] ==> n in nodes
  }

  /** Moving an entry of one trie does not concern another trie. */
  lemma MovedElsewhere(lists: Lists, h: Heap, n: TrieEntry, to: Peer?)
    requires Consistent(lists, h) && n !in h
    ensures Consistent(Moved(lists, n, to), h)
  {
    var g := Moved(lists, n, to);
    forall p | p in lists
      ensures Distinct(g[p])
      ensures forall x :: x in g[p] <==> (x in lists[p] && x != n) || (x == n && p == to)
    {
      assert Distinct(lists[p]);
      MovedList(lists, n, to, p);
    }
  }

  lemma MovedMember(lists: Lists, h: Heap, n: TrieEntry, to: Peer?, p: Peer, x: TrieEntry)
    requires Consistent(lists, h) && p in lists
    ensures x in Moved(lists, n, to)[p] <==> (x in lists[p] && x != n) || (x == n && p == to)
  {
    assert Distinct(lists[p]);
    MovedList(lists, n, to, p);
  }

  lemma MovedContained(lists: Lists, nodes: set<TrieEntry>, h: Heap, n: TrieEntry, to: Peer?)
    requires Contained(lists, nodes) && Consistent(lists, h)
    requires to != null ==> n in nodes
    ensures Contained(Moved(lists, n, to), nodes)
  {
    forall p, x | p in lists && x in Moved(lists, n, to)[p]
      ensures x in nodes
    {
      MovedMember(lists, h, n, to, p, x);
    }
  }

  /** Dropping `n` and unowned entries leaves the other lists contained. */
  lemma RemovedContained(lists: Lists, h: Heap, g: Heap, others: set<TrieEntry>, n: TrieEntry)
    requires Contained(lists, h.Keys + others) && Consistent(lists, h) && KeepsOwned(h, g, n)
    ensures Contained(Moved(lists, n, null), g.Keys + others)
  {
    forall p, x | p in lists && x in Moved(lists, n, null)[p]
      ensures x in g.Keys + others
    {
      MovedMember(lists, h, n, null, p, x);
    }
  }

  lemma NewListConsistent(lists: Lists, h: Heap, peer: Peer)
    requires Consistent(lists, h) && peer !in lists
    ensures Consistent(lists[peer := []], h)
  {
    var more := lists[peer := []];
    forall p | p in more
      ensures Distinct(more[p])
    {
      assert p != peer ==> Distinct(lists[p]);
    }
  }
}
