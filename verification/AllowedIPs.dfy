/** The routing table of device/allowedips.go: insertion, removal and lookup in the two tries, and
    the lists of entries kept in each peer. */
module AllowedIPs {
  import opened AddressBits
  import opened TrieHeap
  import opened TrieSearch
  import opened TrieLists

  // ---------------------------------------------------------------------------------------------
  // The table as a plain map
  // ---------------------------------------------------------------------------------------------

  datatype Op =
    | Insert(ip: seq<bool>, cidr: nat, peer: Peer)
    | Remove(ip: seq<bool>, cidr: nat, peer: Peer)
    | RemoveByPeer(peer: Peer)

  /** What each operation does to the map from prefixes to peers. */
  ghost function Apply(m: Table, op: Op): Table {
    match op
    case Insert(ip, cidr, peer) => m[Prefix(Mask(ip, cidr), cidr) := peer]
    case Remove(ip, cidr, peer) =>
      var k := Prefix(Mask(ip, cidr), cidr);
      if k in m && m[k] == peer then m - {k} else m
    case RemoveByPeer(peer) => map k | k in m && m[k] != peer :: m[k]
  }

  ghost function ViewOf(nodes: set<TrieEntry>): Heap
    reads nodes
  {
    map n | n in nodes :: n.View()
  }

  /** `lists` is what the peers hold. */
  ghost predicate ListsAre(lists: Lists)
    reads lists.Keys`trieEntries
  {
    forall p :: p in lists ==> p.trieEntries == lists[p]
  }

  // ---------------------------------------------------------------------------------------------
  // One trie
  // ---------------------------------------------------------------------------------------------

  class Trie {
    var root: TrieEntry?
    const w: nat
    ghost var nodes: set<TrieEntry>
    ghost var table: Table

    ghost function View(): Heap
      reads this`nodes, nodes
    {
      ViewOf(nodes)
    }

    ghost predicate Valid()
      reads this, nodes
    {
      && Wf(View(), root, w)
      && Represents(View(), table)
      && forall n :: n in nodes ==> n.Positioned()
    }

    constructor (w: nat)
      requires AddressLength(w)
      ensures Valid() && table == map[] && nodes == {} && this.w == w
    {
      root := null;
      this.w := w;
      nodes := {};
      table := map[];
    }

    lemma EntryOk(n: TrieEntry)
      requires Valid() && n in nodes
      ensures 8 * n.bitAtByte + 7 - n.bitAtShift == n.cidr <= w && |n.bits| == w
      ensures n.bitAtByte == w / 8 <==> n.cidr == w
      ensures n.bitAtShift <= 7
      ensures n.bits == Mask(n.bits, n.cidr)
      ensures forall b :: 0 <= b <= 1 && n.child.At(b) != null ==> n.child.At(b) in nodes && n.cidr < n.child.At(b).cidr
    {
      assert NodeOk(View(), root, w, n);
      assert ChildOk(View(), n, 0) && ChildOk(View(), n, 1);
    }

    /** The last node on the path of `ip` not longer than `cidr`, and whether it is the prefix
        itself. */
    method NodePlacement(ip: seq<bool>, cidr: nat) returns (parent: TrieEntry?, exact: bool)
      requires Valid() && |ip| == w && cidr <= w
      ensures exact ==> parent != null && parent in nodes && parent.View().Key() == Prefix(Mask(ip, cidr), cidr)
      ensures !exact ==> StopsAt(View(), root, w, parent, ip, cidr)
    {
      ghost var h := View();
      var node: TrieEntry? := root;
      parent, exact := null, false;
      OnPathAtRoot(h, root, w, ip, cidr);
      while node != null && node.cidr <= cidr && CommonBits(node.bits, ip) >= node.cidr
        invariant node != null ==> node in nodes && |node.bits| == w
        invariant OnPath(h, root, w, parent, node, ip, cidr)
        decreases if node == null then 0 else w + 1 - node.cidr
      {
        EntryOk(node);
        CoversIff(h[node].Key(), ip);
        OnPathStep(h, root, w, parent, node, ip, cidr);
        parent := node;
        if parent.cidr == cidr {
          return parent, true;
        }
        var bit := Choose(ip, node.bitAtByte, node.bitAtShift);
        node := node.child.At(bit);
      }
      if node != null {
        CoversIff(h[node].Key(), ip);
      }
    }

    /** Longest-prefix lookup. */
    method Lookup(ip: seq<bool>) returns (found: Peer?)
      requires Valid() && |ip| == w
      ensures IsLongestMatch(table, ip, found)
    {
      ghost var last, node, best;
      found, last, node, best := Descend(ip, View());
      LookupAnswer(View(), root, w, table, last, node, best, ip);
    }

    /** The loop of `Lookup`. */
    method Descend(ip: seq<bool>, ghost h: Heap) returns (found: Peer?, ghost last: TrieEntry?, ghost end: TrieEntry?, ghost best: TrieEntry?)
      requires Valid() && |ip| == w && h == View()
      ensures Searching(h, root, w, last, end, best, ip)
      ensures end == null || !Covers(h[end].Key(), ip)
      ensures found == if best == null then null else h[best].peer
    {
      var size := |ip| / 8;
      var node: TrieEntry? := root;
      found := null;
      last, best, end := null, null, null;
      SearchAtRoot(h, root, w, ip);
      while node != null && CommonBits(node.bits, ip) >= node.cidr
        invariant node != null ==> node in nodes && |node.bits| == w
        invariant Searching(h, root, w, last, node, best, ip)
        invariant found == if best == null then null else h[best].peer
        decreases if node == null then 0 else w + 1 - node.cidr
      {
        EntryOk(node);
        CoversIff(h[node].Key(), ip);
        SearchStep(h, root, w, last, node, best, ip);
        if node.peer != null {
          found := node.peer;
          best := node;
        }
        last := node;
        if node.bitAtByte == size {
          return found, last, null, best;
        }
        var bit := Choose(ip, node.bitAtByte, node.bitAtShift);
        node := node.child.At(bit);
      }
      if node != null {
        CoversIff(h[node].Key(), ip);
      }
      end := node;
    }

    // ---- pieces shared by insertion and removal ----

    static method RemoveFromPeerEntries(node: TrieEntry)
      modifies (if node.peer == null then {} else {node.peer})`trieEntries
      ensures node.peer != null ==> node.peer.trieEntries == Without(old(node.peer.trieEntries), node)
    {
      if node.peer != null {
        node.peer.trieEntries := Without(node.peer.trieEntries, node);
      }
    }

    static method AddToPeerEntries(node: TrieEntry)
      requires node.peer != null
      modifies node.peer`trieEntries
      ensures node.peer.trieEntries == old(node.peer.trieEntries) + [node]
    {
      node.peer.trieEntries := node.peer.trieEntries + [node];
    }

    /** `bits[i] &= mask[i]` for every position of the mask. */
    static method MaskSelf(ip: seq<bool>, cidr: nat) returns (bits: seq<bool>)
      ensures bits == Mask(ip, cidr)
    {
      var mask := CIDRMask(cidr, |ip|);
      bits := ip;
      for i := 0 to |mask|
        invariant |bits| == |ip|
        invariant forall j :: 0 <= j < |ip| ==> bits[j] == if j < i then ip[j] && mask[j] else ip[j]
      {
        bits := bits[i := bits[i] && mask[i]];
      }
    }

    // ---- insertion ----

    /** `*slot = x`, where the slot is child `b` of `p`, or the root. */
    method FillSlot(p: TrieEntry?, b: nat, x: TrieEntry?)
      requires p != null ==> p in nodes && b <= 1
      modifies this`root, nodes`child
      ensures root == if p == null then x else old(root)
      ensures View() == SetSlot(old(View()), p, b, x)
    {
      if p == null {
        root := x;
      } else {
        p.child := p.child.With(b, x);
      }
    }

    /** The slot below `p` is empty. */
    method LinkLeaf(p: TrieEntry?, b: nat, added: TrieEntry, ghost peer: Peer, ghost k: Prefix)
      requires added !in nodes && added.View() == Entry(peer, NO_CHILDREN, null, 2, k.cidr, k.bits)
      requires p != null ==> p in nodes && b <= 1
      modifies this`root, this`nodes, nodes`child, added`child, added`parent, added`parentBitType
      ensures nodes == old(nodes) + {added}
      ensures root == if p == null then added else old(root)
      ensures View() == WithLeaf(old(View()), p, b, added, peer, k)
    {
      ghost var h := View();
      added.parent, added.parentBitType := p, b;
      nodes := nodes + {added};
      assert View() == h[added := Entry(peer, NO_CHILDREN, p, b, k.cidr, k.bits)];
      FillSlot(p, b, added);
    }

    /** The node `down` in the slot lies below the new prefix. */
    method LinkAbove(p: TrieEntry?, b: nat, added: TrieEntry, ghost peer: Peer, ghost k: Prefix, down: TrieEntry, bd: nat)
      requires added !in nodes && added.View() == Entry(peer, NO_CHILDREN, null, 2, k.cidr, k.bits)
      requires p != null ==> p in nodes && b <= 1
      requires down in nodes && down != p && bd <= 1
      modifies this`root, this`nodes, nodes`child, added`child, nodes`parent, nodes`parentBitType, added`parent, added`parentBitType
      ensures nodes == old(nodes) + {added}
      ensures root == if p == null then added else old(root)
      ensures View() == WithAbove(old(View()), p, b, added, peer, k, down, bd)
    {
      ghost var h := View();
      down.parent, down.parentBitType := added, bd;
      added.child := added.child.With(bd, down);
      added.parent, added.parentBitType := p, b;
      nodes := nodes + {added};
      assert View() == SetParent(h, down, added, bd)[added := Entry(peer, NO_CHILDREN.With(bd, down), p, b, k.cidr, k.bits)];
      FillSlot(p, b, added);
    }

    static method Join(join: TrieEntry, p: TrieEntry?, b: nat, bd: nat, down: TrieEntry, added: TrieEntry)
      requires bd <= 1 && join != down && join != added && down != added && join.child == NO_CHILDREN
      modifies join`child, join`parent, join`parentBitType, down`parent, down`parentBitType, added`parent, added`parentBitType
      ensures join.View() == old(join.View()).(child := NO_CHILDREN.With(bd, down).With(1 - bd, added), parent := p, bitType := b)
      ensures down.View() == old(down.View()).(parent := join, bitType := bd)
      ensures added.View() == old(added.View()).(parent := join, bitType := 1 - bd)
    {
      down.parent, down.parentBitType := join, bd;
      join.child := join.child.With(bd, down);
      added.parent, added.parentBitType := join, 1 - bd;
      join.child := join.child.With(1 - bd, added);
      join.parent, join.parentBitType := p, b;
    }

    /** The new prefix and the node `down` in the slot part: `join` takes the slot. */
    method LinkBranch(p: TrieEntry?, b: nat, added: TrieEntry, ghost peer: Peer, ghost k: Prefix, down: TrieEntry, join: TrieEntry, bd: nat, ghost common: nat)
      requires added !in nodes && added.View() == Entry(peer, NO_CHILDREN, null, 2, k.cidr, k.bits)
      requires join !in nodes && join != added && join.View() == Entry(null, NO_CHILDREN, null, 2, common, Mask(k.bits, common))
      requires p != null ==> p in nodes && b <= 1
      requires down in nodes && down != p && bd <= 1
      modifies this`root, this`nodes, nodes`child, nodes`parent, nodes`parentBitType
      modifies added`child, added`parent, added`parentBitType, join`child, join`parent, join`parentBitType
      ensures nodes == old(nodes) + {added, join}
      ensures root == if p == null then join else old(root)
      ensures View() == WithBranch(old(View()), p, b, added, peer, k, down, join, common, bd)
    {
      ghost var h := View();
      Join(join, p, b, bd, down, added);
      nodes := nodes + {added, join};
      assert View() == SetParent(h, down, join, bd)
                         [added := Entry(peer, NO_CHILDREN, join, 1 - bd, k.cidr, k.bits)]
                         [join := Entry(null, NO_CHILDREN.With(bd, down).With(1 - bd, added), p, b, common, Mask(k.bits, common))];
      FillSlot(p, b, join);
    }

    /** A node that was just made for the prefix and is not yet linked. */
    ghost predicate IsNew(added: TrieEntry, ip: seq<bool>, cidr: nat, peer: Peer)
      reads this, added
    {
      && added !in nodes && |ip| == w && cidr <= w
      && added.View() == Entry(peer, NO_CHILDREN, null, 2, cidr, Mask(ip, cidr))
      && added.Positioned()
    }

    /** Insertion into an empty slot. */
    method NewLeaf(p: TrieEntry?, b: nat, added: TrieEntry, peer: Peer, ghost k: Prefix)
      requires Valid() && added !in nodes && added.Positioned()
      requires added.View() == Entry(peer, NO_CHILDREN, null, 2, k.cidr, k.bits)
      requires p != null ==> p in nodes && b <= 1
      requires
        var g := WithLeaf(View(), p, b, added, peer, k);
        Wf(g, if p == null then added else root, w) && Represents(g, table[k := peer])
      modifies this, nodes`child, nodes`parent, nodes`parentBitType, added`child, added`parent, added`parentBitType
      ensures Valid() && nodes == old(nodes) + {added}
      ensures table == old(table)[k := peer]
    {
      table := table[k := peer];
      LinkLeaf(p, b, added, peer, k);
    }

    /** Insertion above the node in the slot. */
    method NewAbove(p: TrieEntry?, b: nat, added: TrieEntry, peer: Peer, ghost k: Prefix, down: TrieEntry, bd: nat)
      requires Valid() && added !in nodes && added.Positioned()
      requires added.View() == Entry(peer, NO_CHILDREN, null, 2, k.cidr, k.bits)
      requires p != null ==> p in nodes && b <= 1
      requires down in nodes && down != p && bd <= 1
      requires
        var g := WithAbove(View(), p, b, added, peer, k, down, bd);
        Wf(g, if p == null then added else root, w) && Represents(g, table[k := peer])
      modifies this, nodes`child, nodes`parent, nodes`parentBitType, added`child, added`parent, added`parentBitType
      ensures Valid() && nodes == old(nodes) + {added}
      ensures table == old(table)[k := peer]
    {
      table := table[k := peer];
      LinkAbove(p, b, added, peer, k, down, bd);
    }

    /** Insertion beside the node in the slot, under a new joining node. */
    method NewBranch(p: TrieEntry?, b: nat, added: TrieEntry, peer: Peer, ghost k: Prefix, down: TrieEntry, join: TrieEntry, bd: nat, ghost common: nat)
      requires Valid() && added !in nodes && added.Positioned()
      requires added.View() == Entry(peer, NO_CHILDREN, null, 2, k.cidr, k.bits)
      requires p != null ==> p in nodes && b <= 1
      requires down in nodes && down != p && bd <= 1
      requires join !in nodes && join != added && join.Positioned()
      requires join.View() == Entry(null, NO_CHILDREN, null, 2, common, Mask(k.bits, common))
      requires
        var g := WithBranch(View(), p, b, added, peer, k, down, join, common, bd);
        Wf(g, if p == null then join else root, w) && Represents(g, table[k := peer])
      modifies this, nodes`child, nodes`parent, nodes`parentBitType, added`child, added`parent, added`parentBitType
      modifies join`child, join`parent, join`parentBitType
      ensures Valid() && nodes == old(nodes) + {added, join}
      ensures table == old(table)[k := peer]
    {
      table := table[k := peer];
      LinkBranch(p, b, added, peer, k, down, join, bd, common);
    }

    /** The slot below `p` holds `down`: the new node goes above it or beside it. */
    method LinkBeside(p: TrieEntry?, b: nat, down: TrieEntry, ip: seq<bool>, cidr: nat, added: TrieEntry, peer: Peer)
      requires Valid() && StopsAt(View(), root, w, p, ip, cidr) && b == SlotBit(View(), p, ip)
      requires down == Below(View(), root, w, p, ip) && down in nodes && |down.bits| == w && down.cidr <= w
      requires IsNew(added, ip, cidr, peer)
      modifies this, nodes`child, nodes`parent, nodes`parentBitType, added`child, added`parent, added`parentBitType
      ensures Valid() && added in nodes && old(nodes) <= nodes && fresh(nodes - old(nodes) - {added})
      ensures forall n :: n in nodes - old(nodes) - {added} ==> n.peer == null
      ensures table == old(table)[Prefix(Mask(ip, cidr), cidr) := peer]
    {
      var common := CommonBits(down.bits, ip);
      if cidr <= common {
        var bd := Choose(down.bits, added.bitAtByte, added.bitAtShift);
        AboveInserts(View(), root, w, table, p, ip, cidr, added, peer);
        NewAbove(p, b, added, peer, Prefix(Mask(ip, cidr), cidr), down, bd);
      } else {
        LinkJoined(p, b, down, ip, cidr, added, peer, common);
      }
    }

    method LinkJoined(p: TrieEntry?, b: nat, down: TrieEntry, ip: seq<bool>, cidr: nat, added: TrieEntry, peer: Peer, common: nat)
      requires Valid() && StopsAt(View(), root, w, p, ip, cidr) && b == SlotBit(View(), p, ip)
      requires down == Below(View(), root, w, p, ip) && down in nodes
      requires |down.bits| == w && common < cidr && Agree(down.bits, ip, common) && down.bits[common] != ip[common]
      requires IsNew(added, ip, cidr, peer)
      modifies this, nodes`child, nodes`parent, nodes`parentBitType, added`child, added`parent, added`parentBitType
      ensures Valid() && added in nodes && old(nodes) <= nodes && fresh(nodes - old(nodes) - {added})
      ensures forall n :: n in nodes - old(nodes) - {added} ==> n.peer == null
      ensures table == old(table)[Prefix(Mask(ip, cidr), cidr) := peer]
    {
      ghost var h := View();
      var bits := MaskSelf(added.bits, common);
      var join := new TrieEntry(null, bits, common);
      var bd := Choose(down.bits, join.bitAtByte, join.bitAtShift);
      BranchInserts(h, root, w, table, p, ip, cidr, added, peer, join, common);
      NewBranch(p, b, added, peer, Prefix(Mask(ip, cidr), cidr), down, join, bd, common);
      assert join.peer == null;
    }

    /** The part of `insert` that links a new node below `p`. */
    method LinkNew(p: TrieEntry?, ip: seq<bool>, cidr: nat, added: TrieEntry, peer: Peer)
      requires Valid() && StopsAt(View(), root, w, p, ip, cidr)
      requires IsNew(added, ip, cidr, peer)
      modifies this, nodes`child, nodes`parent, nodes`parentBitType, added`child, added`parent, added`parentBitType
      ensures Valid() && added in nodes && old(nodes) <= nodes && fresh(nodes - old(nodes) - {added})
      ensures forall n :: n in nodes - old(nodes) - {added} ==> n.peer == null
      ensures table == old(table)[Prefix(Mask(ip, cidr), cidr) := peer]
    {
      var b := 2;
      var down := root;
      if p != null {
        EntryOk(p);
        b := Choose(ip, p.bitAtByte, p.bitAtShift);
        down := p.child.At(b);
      }
      BelowInHeap(View(), root, w, p, ip);
      if down == null {
        LeafInserts(View(), root, w, table, p, ip, cidr, added, peer);
        NewLeaf(p, b, added, peer, Prefix(Mask(ip, cidr), cidr));
      } else {
        EntryOk(down);
        LinkBeside(p, b, down, ip, cidr, added, peer);
      }
    }

    /** The list and field assignments by which a node changes owner. */
    static method Reassign(node: TrieEntry, to: Peer?, ghost lists: Lists)
      requires ListsAre(lists)
      requires (node.peer != null ==> node.peer in lists) && (to != null ==> to in lists)
      modifies node`peer, lists.Keys`trieEntries
      ensures node.peer == to
      ensures ListsAre(Shifted(lists, node, old(node.peer), to))
    {
      RemoveFromPeerEntries(node);
      node.peer := to;
      if to != null {
        AddToPeerEntries(node);
      }
    }

    /** The node leaves its owner's list and, if `to` is a peer, joins the end of that peer's. */
    method ChangeOwner(node: TrieEntry, to: Peer?, ghost lists: Lists)
      requires node in nodes && (to != null ==> to in lists)
      requires ListsAre(lists) && Consistent(lists, View())
      modifies node`peer, lists.Keys`trieEntries
      ensures ListsAre(Moved(lists, node, to))
      ensures View() == old(View())[node := old(View())[node].(peer := to)]
      ensures Consistent(Moved(lists, node, to), View())
    {
      HandedOver(lists, View(), node, to);
      assert node.peer == View()[node].peer;
      Reassign(node, to, lists);
    }

    /** The branch of `insert` for a prefix that is already there. */
    method InsertExisting(node: TrieEntry, peer: Peer, ghost lists: Lists)
      requires Valid() && node in nodes && peer in lists
      requires ListsAre(lists) && Consistent(lists, View())
      modifies this`table, node`peer, lists.Keys`trieEntries
      ensures Valid() && node.peer == peer
      ensures table == old(table)[old(node.View()).Key() := peer]
      ensures ListsAre(Moved(lists, node, peer)) && Consistent(Moved(lists, node, peer), View())
    {
      NewOwner(View(), root, w, table, node, peer);
      table := table[View()[node].Key() := peer];
      ChangeOwner(node, peer, lists);
    }

    /** The branch of `insert` for a prefix that is not there. */
    method InsertAt(parent: TrieEntry?, ip: seq<bool>, cidr: nat, peer: Peer, ghost lists: Lists) returns (newNode: TrieEntry)
      requires Valid() && StopsAt(View(), root, w, parent, ip, cidr)
      modifies this, nodes`child, nodes`parent, nodes`parentBitType, peer`trieEntries
      ensures Valid() && fresh(newNode) && newNode in nodes && old(nodes) <= nodes && fresh(nodes - old(nodes))
      ensures table == old(table)[Prefix(Mask(ip, cidr), cidr) := peer]
      ensures newNode.peer == peer
      ensures forall n :: n in nodes - old(nodes) - {newNode} ==> n.peer == null
      ensures peer.trieEntries == old(peer.trieEntries) + [newNode]
      ensures forall n, p :: n in nodes && n !in old(nodes) && p in lists ==> n !in lists[p]
    {
      var bits := MaskSelf(ip, cidr);
      newNode := new TrieEntry(peer, bits, cidr);
      AddToPeerEntries(newNode);
      LinkNew(parent, ip, cidr, newNode, peer);
    }

    method InsertGrown(parent: TrieEntry?, ip: seq<bool>, cidr: nat, peer: Peer, ghost lists: Lists) returns (node: TrieEntry)
      requires Valid() && StopsAt(View(), root, w, parent, ip, cidr) && peer in lists && ListsAre(lists)
      modifies this, nodes`child, nodes`parent, nodes`parentBitType, peer`trieEntries
      ensures Valid() && old(nodes) <= nodes && fresh(nodes - old(nodes))
      ensures table == old(table)[Prefix(Mask(ip, cidr), cidr) := peer]
      ensures Grown(lists, old(View()), View(), node, peer)
      ensures ListsAre(lists[peer := lists[peer] + [node]])
    {
      node := InsertAt(parent, ip, cidr, peer, lists);
    }

    method InsertFresh(parent: TrieEntry?, ip: seq<bool>, cidr: nat, peer: Peer, ghost lists: Lists) returns (node: TrieEntry)
      requires Valid() && StopsAt(View(), root, w, parent, ip, cidr) && peer in lists
      requires ListsAre(lists) && Consistent(lists, View())
      modifies this, nodes`child, nodes`parent, nodes`parentBitType, peer`trieEntries
      ensures Valid() && node in nodes && old(nodes) <= nodes && fresh(nodes - old(nodes))
      ensures table == old(table)[Prefix(Mask(ip, cidr), cidr) := peer]
      ensures ListsAre(Moved(lists, node, peer)) && Consistent(Moved(lists, node, peer), View())
    {
      ghost var h := View();
      node := InsertGrown(parent, ip, cidr, peer, lists);
      HandedNew(lists, h, View(), node, peer);
    }

    /** `insert`; `node` is the entry that now holds the prefix. */
    method Insert(ip: seq<bool>, cidr: nat, peer: Peer, ghost lists: Lists) returns (ghost node: TrieEntry)
      requires Valid() && |ip| == w && cidr <= w && peer in lists
      requires ListsAre(lists) && Consistent(lists, View())
      modifies this, nodes, lists.Keys`trieEntries
      ensures Valid() && node in nodes && old(nodes) <= nodes && fresh(nodes - old(nodes))
      ensures table == Apply(old(table), Op.Insert(ip, cidr, peer))
      ensures ListsAre(Moved(lists, node, peer)) && Consistent(Moved(lists, node, peer), View())
    {
      var parent, exact := NodePlacement(ip, cidr);
      if exact {
        node := parent;
        InsertExisting(parent, peer, lists);
      } else {
        node := InsertFresh(parent, ip, cidr, peer, lists);
      }
    }

    // ---- removal ----

    /** The only child `c` of `n`, or nothing, takes the slot of `n`. */
    method Lift(n: TrieEntry, c: TrieEntry?)
      requires n in nodes && (c != null ==> c in nodes && c != n)
      requires n.parent != null ==>
                 n.parent in nodes && n.parent != c && n.parent != n && n.parentBitType <= 1
      modifies this`root, this`nodes, nodes`child, nodes`parent, nodes`parentBitType
      ensures nodes == old(nodes) - {n} && n.View() == old(n.View())
      ensures root == if old(n.parent) == null then c else old(root)
      ensures View() == Lifted(old(View()), n, c)
    {
      if c != null {
        c.parent, c.parentBitType := n.parent, n.parentBitType;
      }
      if n.parent == null {
        root := c;
      } else {
        n.parent.child := n.parent.child.With(n.parentBitType, c);
      }
      nodes := nodes - {n};
    }

    static method ZeroizePointers(n: TrieEntry)
      modifies n`peer, n`child, n`parent
      ensures n.peer == null && n.child == NO_CHILDREN && n.parent == null
    {
      n.peer := null;
      n.child := NO_CHILDREN;
      n.parent := null;
    }

    /** Lifting the only child of a node that no longer has an owner. */
    method LiftChild(n: TrieEntry, c: TrieEntry?)
      requires n in nodes && WfExcept(View(), root, w, n) && OnlyChild(View(), n, c)
      modifies this`root, this`nodes, nodes`child, nodes`parent, nodes`parentBitType
      ensures nodes == old(nodes) - {n} && n.View() == old(n.View())
      ensures n.parent == null <==> n.parentBitType > 1
      ensures n.parent != null ==>
                && n.parent in nodes && n.parent.View() == View()[n.parent] && n.parent.peer == old(View())[n.parent].peer
                && n.parent.child == old(View())[n.parent].child.With(n.parentBitType, c)
      ensures WfExcept(View(), root, w, n.parent)
      ensures c != null || n.parent == null || n.parent.peer != null ==> Wf(View(), root, w)
      ensures Shrunk(old(View()), View())
    {
      ghost var h, p := View(), n.parent;
      LiftFacts(h, root, w, n, c);
      assert LinksOk(h, root, w, n);
      LiftWf(h, root, w, n, c);
      LiftShrinks(h, n, c);
      if p != null {
        LiftedEntry(h, n, c, p);
      }
      Lift(n, c);
    }

    /** A node without an owner and without two children leaves the trie; `join` is the peer-less
        parent that this leaves with one child, if any. */
    method TrimNode(node: TrieEntry) returns (join: TrieEntry?)
      requires node in nodes && node.peer == null && WfExcept(View(), root, w, node)
      requires !(node.child.At(0) != null && node.child.At(1) != null)
      modifies this`root, this`nodes, nodes`child, nodes`parent, nodes`parentBitType
      ensures nodes == old(nodes) - {node} && node.View() == old(node.View()) && Shrunk(old(View()), View())
      ensures join == null ==> Wf(View(), root, w)
      ensures join != null ==>
                && join in nodes && join == node.parent && join.peer == null && WfExcept(View(), root, w, join)
                && node.parentBitType <= 1
                && join.child.At(node.parentBitType) == null && join.child.At(1 - node.parentBitType) != null
    {
      var bit := if node.child.At(0) == null then 1 else 0;
      var child := node.child.At(bit);
      ghost var h := View();
      assert h[node] == node.View();
      assert LinksOk(h, root, w, node);
      assert node.parent != null ==> NodeOk(h, root, w, node.parent);
      LiftChild(node, child);
      if node.child.At(0) != null || node.child.At(1) != null || node.parentBitType > 1 {
        return null;
      }
      if node.parent.peer != null {
        return null;
      }
      return node.parent;
    }

    /** The structural part of `remove`: the node leaves the trie, and so does the joining node above
        it if it loses a child. */
    method Trim(node: TrieEntry) returns (ghost join: TrieEntry?)
      requires node in nodes && node.peer == null && WfExcept(View(), root, w, node)
      requires !(node.child.At(0) != null && node.child.At(1) != null)
      modifies this`root, this`nodes, nodes`child, nodes`parent, nodes`parentBitType, nodes`peer
      ensures nodes == old(nodes) - {node} - (if join == null then {} else {join})
      ensures join != null ==> join in old(View()) && old(View())[join].peer == null
      ensures Wf(View(), root, w) && Shrunk(old(View()), View())
    {
      var parent := TrimNode(node);
      if parent != null {
        TrimParent(parent, 1 - node.parentBitType);
      }
      ZeroizePointers(node);
      join := parent;
    }

    /** The joining node keeps one child, which takes its slot. */
    method TrimParent(parent: TrieEntry, bit: nat)
      requires parent in nodes && parent.peer == null && WfExcept(View(), root, w, parent)
      requires bit <= 1 && parent.child.At(1 - bit) == null && parent.child.At(bit) != null
      modifies this`root, this`nodes, nodes`child, nodes`parent, nodes`parentBitType, nodes`peer
      ensures nodes == old(nodes) - {parent} && Wf(View(), root, w) && Shrunk(old(View()), View())
    {
      var child := parent.child.At(bit);
      LiftChild(parent, child);
      ZeroizePointers(parent);
    }

    /** `remove`, after the owner is gone; `h` is the trie before. */
    method RemoveLinks(node: TrieEntry, ghost h: Heap)
      requires h.Keys == nodes && node in nodes && h[node].peer != null && View() == h[node := h[node].(peer := null)]
      requires Wf(h, root, w) && Represents(h, table)
      requires forall n :: n in nodes ==> n.Positioned()
      modifies this, nodes`child, nodes`parent, nodes`parentBitType, nodes`peer
      ensures Valid() && nodes <= old(nodes) && Shrunk(old(View()), View())
      ensures table == old(table) - {h[node].Key()}
      ensures KeepsOwned(h, View(), node)
    {
      ghost var m, top := table, root;
      table := m - {h[node].Key()};
      ghost var join := RemoveNode(node, h);
      RemovedEntry(h, top, w, View(), m, node, join);
    }

    method RemoveNode(node: TrieEntry, ghost h: Heap) returns (ghost join: TrieEntry?)
      requires h.Keys == nodes && node in nodes && View() == h[node := h[node].(peer := null)]
      requires Wf(h, root, w)
      modifies this`root, this`nodes, nodes`child, nodes`parent, nodes`parentBitType, nodes`peer
      ensures old(nodes) - {node} - (if join == null then {} else {join}) <= nodes <= old(nodes)
      ensures join != null ==> join in h && (h[join].peer == null || join == node)
      ensures Wf(View(), root, w) && Shrunk(old(View()), View())
    {
      assert NodeOk(h, root, w, node);
      assert node.View() == View()[node];
      DisownedWf(h, root, w, node);
      join := null;
      if node.child.At(0) == null || node.child.At(1) == null {
        ghost var g := View();
        join := Trim(node);
        assert join != null ==> g[join].peer == null;
      }
    }

    /** `remove`. */
    method RemoveEntry(node: TrieEntry, ghost lists: Lists)
      requires Valid() && node in nodes && node.peer != null
      requires ListsAre(lists) && Consistent(lists, View())
      modifies this, nodes, lists.Keys`trieEntries
      ensures Valid() && nodes <= old(nodes) && KeepsOwned(old(View()), View(), node)
      ensures table == old(table) - {old(node.View()).Key()}
      ensures ListsAre(Moved(lists, node, null)) && Consistent(Moved(lists, node, null), View())
    {
      ghost var h := View();
      ChangeOwner(node, null, lists);
      ghost var g := View();
      RemoveLinks(node, h);
      FewerConsistent(Moved(lists, node, null), g, View());
    }

    /** `Remove` in one trie: nothing happens unless the prefix belongs to this very peer. */
    method Remove(ip: seq<bool>, cidr: nat, peer: Peer, ghost lists: Lists) returns (ghost gone: TrieEntry?)
      requires Valid() && |ip| == w && cidr <= w
      requires ListsAre(lists) && Consistent(lists, View())
      modifies this, nodes, lists.Keys`trieEntries
      ensures Valid() && nodes <= old(nodes)
      ensures table == Apply(old(table), Op.Remove(ip, cidr, peer))
      ensures gone == null ==> nodes == old(nodes) && ListsAre(lists) && Consistent(lists, View())
      ensures gone != null ==>
                && gone in old(nodes) && KeepsOwned(old(View()), View(), gone)
                && ListsAre(Moved(lists, gone, null)) && Consistent(Moved(lists, gone, null), View())
    {
      var node, exact := NodePlacement(ip, cidr);
      PlacedOwner(ip, cidr, node, exact);
      if !exact || node == null || node.peer != peer {
        return null;
      }
      RemoveEntry(node, lists);
      return node;
    }

    lemma KeyLengths()
      requires Valid()
      ensures forall k :: k in table ==> |k.bits| == w && k.cidr <= w && k.bits == Mask(k.bits, k.cidr)
    {
      forall k | k in table
        ensures |k.bits| == w && k.cidr <= w && k.bits == Mask(k.bits, k.cidr)
      {
        assert HasOwner(View(), k);
        var n :| n in View() && Holds(View(), k, n);
        assert NodeOk(View(), root, w, n);
      }
    }

    /** A prefix is in the table exactly when its placement is exact and owned. */
    lemma PlacedOwner(ip: seq<bool>, cidr: nat, node: TrieEntry?, exact: bool)
      requires Valid() && |ip| == w && cidr <= w
      requires exact ==> node != null && node in nodes && View()[node].Key() == Prefix(Mask(ip, cidr), cidr)
      requires !exact ==> StopsAt(View(), root, w, node, ip, cidr)
      ensures var k := Prefix(Mask(ip, cidr), cidr);
        && (k in table <==> exact && node.peer != null)
        && (k in table ==> table[k] == node.peer)
    {
      var k := Prefix(Mask(ip, cidr), cidr);
      if k in table {
        assert HasOwner(View(), k);
        var n :| n in View() && Holds(View(), k, n);
        if exact {
          SameKeySameNode(View(), root, w, n, node);
        } else {
          StopMeansAbsent(View(), root, w, node, ip, cidr, n);
        }
      }
    }
  }

  // ---------------------------------------------------------------------------------------------
  // The table
  // ---------------------------------------------------------------------------------------------

  /** Two tries that share the peers' lists. */
  ghost predicate Paired(t: Trie, other: Trie, lists: Lists)
    reads t, other, t.nodes, other.nodes, lists.Keys`trieEntries
  {
    && t != other && t.Valid() && other.Valid() && t.nodes !! other.nodes
    && ListsAre(lists) && Consistent(lists, t.View()) && Consistent(lists, other.View())
    && Contained(lists, t.nodes + other.nodes)
  }

  lemma PairedSwap(t: Trie, other: Trie, lists: Lists)
    requires Paired(t, other, lists)
    ensures Paired(other, t, lists)
  {
    assert t.nodes + other.nodes == other.nodes + t.nodes;
  }

  lemma PairedMore(t: Trie, other: Trie, lists: Lists, peer: Peer)
    requires Paired(t, other, lists) && peer !in lists && peer.trieEntries == []
    ensures Paired(t, other, lists[peer := []])
  {
    NewListConsistent(lists, t.View(), peer);
    NewListConsistent(lists, other.View(), peer);
  }

  method InsertInto(t: Trie, other: Trie, ip: seq<bool>, cidr: nat, peer: Peer, ghost lists: Lists) returns (ghost more: Lists)
    requires Paired(t, other, lists) && |ip| == t.w && cidr <= |ip| && peer in lists
    modifies t, t.nodes, lists.Keys`trieEntries
    ensures Paired(t, other, more) && more.Keys == lists.Keys
    ensures t.table == Apply(old(t.table), Op.Insert(ip, cidr, peer))
    ensures old(t.nodes) <= t.nodes && fresh(t.nodes - old(t.nodes))
  {
    ghost var h := t.View();
    ghost var node := t.Insert(ip, cidr, peer, lists);
    more := Moved(lists, node, peer);
    assert node !in other.nodes;
    MovedElsewhere(lists, other.View(), node, peer);
    MovedContained(lists, t.nodes + other.nodes, h, node, peer);
  }

  method RemoveFrom(t: Trie, other: Trie, ip: seq<bool>, cidr: nat, peer: Peer, ghost lists: Lists) returns (ghost fewer: Lists)
    requires Paired(t, other, lists) && |ip| == t.w && cidr <= |ip|
    modifies t, t.nodes, lists.Keys`trieEntries
    ensures Paired(t, other, fewer) && fewer.Keys == lists.Keys
    ensures t.table == Apply(old(t.table), Op.Remove(ip, cidr, peer))
    ensures t.nodes <= old(t.nodes)
  {
    ghost var h := t.View();
    ghost var gone := t.Remove(ip, cidr, peer, lists);
    fewer := lists;
    if gone != null {
      fewer := Moved(lists, gone, null);
      assert gone !in other.nodes;
      MovedElsewhere(lists, other.View(), gone, null);
      RemovedContained(lists, h, t.View(), other.nodes, gone);
    }
  }

  /** `elem.Value.remove()` for an entry of `t` at the front of its owner's list. */
  method RemoveFront(t: Trie, other: Trie, node: TrieEntry, peer: Peer, ghost lists: Lists) returns (ghost fewer: Lists)
    requires Paired(t, other, lists) && node in t.nodes
    requires peer in lists && lists[peer] != [] && node == lists[peer][0]
    modifies t, t.nodes, lists.Keys`trieEntries
    ensures Paired(t, other, fewer) && fewer.Keys == lists.Keys && fewer[peer] == lists[peer][1..]
    ensures t.nodes <= old(t.nodes)
    ensures OneFewer(old(t.table), t.table, peer)
  {
    ghost var h, m := t.View(), t.table;
    assert node in lists[peer] && h[node].peer == peer && node.peer == peer;
    assert h[node].Key() in m && m[h[node].Key()] == peer;
    fewer := Moved(lists, node, null);
    t.RemoveEntry(node, lists);
    assert node !in other.nodes;
    MovedElsewhere(lists, other.View(), node, null);
    RemovedContained(lists, h, t.View(), other.nodes, node);
    assert Distinct(lists[peer]);
    WithoutFirst(lists[peer]);
  }

  class AllowedIPs {
    const ipv4: Trie
    const ipv6: Trie
    /** The entry list of every peer. */
    ghost var lists: Lists

    ghost predicate Valid()
      reads this, ipv4, ipv6, ipv4.nodes, ipv6.nodes, lists.Keys`trieEntries
    {
      ipv4.w == IPV4_BITS && ipv6.w == IPV6_BITS && Paired(ipv4, ipv6, lists)
    }

    /** The table as a map from prefixes to peers. */
    ghost function Table(): Table
      reads this, ipv4, ipv6
    {
      ipv4.table + ipv6.table
    }

    constructor ()
      ensures Valid() && Table() == map[] && lists == map[]
    {
      ipv4 := new Trie(IPV4_BITS);
      ipv6 := new Trie(IPV6_BITS);
      lists := map[];
    }

    /** A peer without entries comes under the table's care. */
    method AddPeer(peer: Peer)
      requires Valid() && peer !in lists && peer.trieEntries == []
      modifies this
      ensures Valid() && lists == old(lists)[peer := []] && Table() == old(Table())
    {
      PairedMore(ipv4, ipv6, lists, peer);
      lists := lists[peer := []];
    }

    method Insert4(ip: seq<bool>, cidr: nat, peer: Peer)
      requires Valid() && |ip| == IPV4_BITS && cidr <= |ip| && peer in lists
      modifies this`lists, ipv4, ipv4.nodes, lists.Keys`trieEntries
      ensures Valid() && ipv4.table == Apply(old(ipv4.table), Op.Insert(ip, cidr, peer)) && lists.Keys == old(lists.Keys)
    {
      lists := InsertInto(ipv4, ipv6, ip, cidr, peer, lists);
    }

    method Insert6(ip: seq<bool>, cidr: nat, peer: Peer)
      requires Valid() && |ip| == IPV6_BITS && cidr <= |ip| && peer in lists
      modifies this`lists, ipv6, ipv6.nodes, lists.Keys`trieEntries
      ensures Valid() && ipv6.table == Apply(old(ipv6.table), Op.Insert(ip, cidr, peer)) && lists.Keys == old(lists.Keys)
    {
      PairedSwap(ipv4, ipv6, lists);
      lists := InsertInto(ipv6, ipv4, ip, cidr, peer, lists);
      PairedSwap(ipv6, ipv4, lists);
    }

    method Insert(ip: seq<bool>, cidr: nat, peer: Peer)
      requires Valid() && AddressLength(|ip|) && cidr <= |ip| && peer in lists
      modifies this, ipv4, ipv6, ipv4.nodes, ipv6.nodes, lists.Keys`trieEntries
      ensures Valid() && Table() == Apply(old(Table()), Op.Insert(ip, cidr, peer))
      ensures lists.Keys == old(lists.Keys)
    {
      ipv4.KeyLengths();
      ipv6.KeyLengths();
      ApplyToUnion(ipv4.table, ipv6.table, Op.Insert(ip, cidr, peer), |ip|);
      if |ip| == IPV6_BITS {
        Insert6(ip, cidr, peer);
      } else {
        Insert4(ip, cidr, peer);
      }
    }

    method Remove4(ip: seq<bool>, cidr: nat, peer: Peer)
      requires Valid() && |ip| == IPV4_BITS && cidr <= |ip|
      modifies this`lists, ipv4, ipv4.nodes, lists.Keys`trieEntries
      ensures Valid() && ipv4.table == Apply(old(ipv4.table), Op.Remove(ip, cidr, peer)) && lists.Keys == old(lists.Keys)
    {
      lists := RemoveFrom(ipv4, ipv6, ip, cidr, peer, lists);
    }

    method Remove6(ip: seq<bool>, cidr: nat, peer: Peer)
      requires Valid() && |ip| == IPV6_BITS && cidr <= |ip|
      modifies this`lists, ipv6, ipv6.nodes, lists.Keys`trieEntries
      ensures Valid() && ipv6.table == Apply(old(ipv6.table), Op.Remove(ip, cidr, peer)) && lists.Keys == old(lists.Keys)
    {
      PairedSwap(ipv4, ipv6, lists);
      lists := RemoveFrom(ipv6, ipv4, ip, cidr, peer, lists);
      PairedSwap(ipv6, ipv4, lists);
    }

    method Remove(ip: seq<bool>, cidr: nat, peer: Peer)
      requires Valid() && AddressLength(|ip|) && cidr <= |ip|
      modifies this, ipv4, ipv6, ipv4.nodes, ipv6.nodes, lists.Keys`trieEntries
      ensures Valid() && Table() == Apply(old(Table()), Op.Remove(ip, cidr, peer))
      ensures lists.Keys == old(lists.Keys)
    {
      ipv4.KeyLengths();
      ipv6.KeyLengths();
      ApplyToUnion(ipv4.table, ipv6.table, Op.Remove(ip, cidr, peer), |ip|);
      if |ip| == IPV6_BITS {
        Remove6(ip, cidr, peer);
      } else {
        Remove4(ip, cidr, peer);
      }
    }

    lemma WhichTrie(node: TrieEntry, peer: Peer)
      requires Valid() && peer in lists && node in lists[peer]
      ensures |node.bits| == IPV4_BITS ==> node in ipv4.nodes
      ensures |node.bits| != IPV4_BITS ==> node in ipv6.nodes
    {
      assert node in ipv4.nodes + ipv6.nodes;
      if node in ipv4.nodes {
        ipv4.EntryOk(node);
      } else {
        ipv6.EntryOk(node);
      }
    }

    method RemoveFront4(node: TrieEntry, peer: Peer)
      requires Valid() && peer in lists && lists[peer] != [] && node == lists[peer][0] && node in ipv4.nodes
      modifies this`lists, ipv4, ipv4.nodes, lists.Keys`trieEntries
      ensures Valid() && lists.Keys == old(lists.Keys) && lists[peer] == old(lists[peer])[1..]
      ensures ipv4.nodes <= old(ipv4.nodes) && OneFewer(old(ipv4.table), ipv4.table, peer)
    {
      lists := RemoveFront(ipv4, ipv6, node, peer, lists);
    }

    method RemoveFront6(node: TrieEntry, peer: Peer)
      requires Valid() && peer in lists && lists[peer] != [] && node == lists[peer][0] && node in ipv6.nodes
      modifies this`lists, ipv6, ipv6.nodes, lists.Keys`trieEntries
      ensures Valid() && lists.Keys == old(lists.Keys) && lists[peer] == old(lists[peer])[1..]
      ensures ipv6.nodes <= old(ipv6.nodes) && OneFewer(old(ipv6.table), ipv6.table, peer)
    {
      PairedSwap(ipv4, ipv6, lists);
      lists := RemoveFront(ipv6, ipv4, node, peer, lists);
      PairedSwap(ipv6, ipv4, lists);
    }

    /** The loop of `RemoveByPeer`; it notes the next element before it removes an entry. */
    method Drain(peer: Peer)
      requires Valid() && peer in lists
      modifies this, ipv4, ipv6, ipv4.nodes, ipv6.nodes, lists.Keys`trieEntries
      ensures Valid() && lists.Keys == old(lists.Keys) && lists[peer] == []
      ensures Apply(ipv4.table, Op.RemoveByPeer(peer)) == Apply(old(ipv4.table), Op.RemoveByPeer(peer))
      ensures Apply(ipv6.table, Op.RemoveByPeer(peer)) == Apply(old(ipv6.table), Op.RemoveByPeer(peer))
    {
      var elems := peer.trieEntries;
      ghost var m4, m6 := ipv4.table, ipv6.table;
      assert lists[peer] == elems;
      for i := 0 to |elems|
        invariant Valid() && lists.Keys == old(lists.Keys) && lists[peer] == elems[i..]
        invariant ipv4.nodes <= old(ipv4.nodes) && ipv6.nodes <= old(ipv6.nodes)
        invariant Apply(ipv4.table, Op.RemoveByPeer(peer)) == Apply(m4, Op.RemoveByPeer(peer))
        invariant Apply(ipv6.table, Op.RemoveByPeer(peer)) == Apply(m6, Op.RemoveByPeer(peer))
      {
        ghost var t4, t6 := ipv4.table, ipv6.table;
        assert elems[i] in lists[peer];
        WhichTrie(elems[i], peer);
        if |elems[i].bits| == IPV4_BITS {
          RemoveFront4(elems[i], peer);
          OneFewerApply(t4, ipv4.table, peer);
        } else {
          RemoveFront6(elems[i], peer);
          OneFewerApply(t6, ipv6.table, peer);
        }
      }
    }

    method RemoveByPeer(peer: Peer)
      requires Valid() && peer in lists
      modifies this, ipv4, ipv6, ipv4.nodes, ipv6.nodes, lists.Keys`trieEntries
      ensures Valid() && Table() == Apply(old(Table()), Op.RemoveByPeer(peer))
      ensures lists.Keys == old(lists.Keys) && lists[peer] == []
    {
      ghost var m4, m6 := ipv4.table, ipv6.table;
      ipv4.KeyLengths();
      ipv6.KeyLengths();
      DrainUnion(m4, m6, peer);
      Drain(peer);
      NothingLeft(ipv4.View(), ipv4.table, lists, peer);
      NothingLeft(ipv6.View(), ipv6.table, lists, peer);
    }

    /** Hands the prefixes of a peer to `cb`, which says whether to go on: each once, and all of them unless it
        was stopped. */
    method EntriesForPeer(peer: Peer, cb: Prefix -> bool) returns (visited: seq<Prefix>)
      requires Valid() && peer in lists
      ensures forall i :: 0 <= i < |visited| ==> visited[i] in Table() && Table()[visited[i]] == peer
      ensures forall i, j :: 0 <= i < j < |visited| ==> visited[i] != visited[j]
      ensures forall i :: 0 <= i < |visited| - 1 ==> cb(visited[i])
      ensures visited == [] || cb(visited[|visited| - 1]) ==>
        forall k :: k in Table() && Table()[k] == peer ==> k in visited
    {
      visited := [];
      assert peer.trieEntries == lists[peer];
      for i := 0 to |peer.trieEntries|
        invariant |visited| == i && KeysOf(lists[peer], visited) && forall j :: 0 <= j < i ==> cb(visited[j])
      {
        var node := peer.trieEntries[i];
        visited := visited + [Prefix(node.bits, node.cidr)];
        if !cb(Prefix(node.bits, node.cidr)) {
          break;
        }
      }
      VisitedOnce(peer, visited);
      if |visited| == |lists[peer]| {
        VisitedAll(peer, visited);
      }
    }

    /** The prefixes of the first entries. */
    ghost predicate KeysOf(entries: seq<TrieEntry>, visited: seq<Prefix>)
      reads entries
    {
      |visited| <= |entries| && forall j :: 0 <= j < |visited| ==> visited[j] == entries[j].View().Key()
    }

    lemma VisitedOnce(peer: Peer, visited: seq<Prefix>)
      requires Valid() && peer in lists && KeysOf(lists[peer], visited)
      ensures forall i :: 0 <= i < |visited| ==> visited[i] in Table() && Table()[visited[i]] == peer
      ensures forall i, j :: 0 <= i < j < |visited| ==> visited[i] != visited[j]
    {
      var all := lists[peer];
      assert Distinct(all);
      forall i | 0 <= i < |visited|
        ensures visited[i] in Table() && Table()[visited[i]] == peer
      {
        assert all[i] in all;
        ListedEntry(all[i], peer);
      }
      forall i, j | 0 <= i < j < |visited|
        ensures visited[i] != visited[j]
      {
        assert all[i] in all && all[j] in all && all[i] != all[j];
        ListedOnce(all[i], all[j], peer);
      }
    }

    lemma VisitedAll(peer: Peer, visited: seq<Prefix>)
      requires Valid() && peer in lists && KeysOf(lists[peer], visited) && |visited| == |lists[peer]|
      ensures forall k :: k in Table() && Table()[k] == peer ==> k in visited
    {
      var all := lists[peer];
      forall k | k in Table() && Table()[k] == peer
        ensures k in visited
      {
        var n := OwnedIsListed(k, peer);
        var j :| 0 <= j < |all| && all[j] == n;
        assert visited[j] == k;
      }
    }

    /** What is in the list of a peer is in the table, for that peer. */
    lemma ListedEntry(n: TrieEntry, peer: Peer)
      requires Valid() && peer in lists && n in lists[peer]
      ensures n in ipv4.nodes || n in ipv6.nodes
      ensures n.View().Key() in Table() && Table()[n.View().Key()] == peer
      ensures |n.bits| == if n in ipv4.nodes then IPV4_BITS else IPV6_BITS
    {
      ipv4.KeyLengths();
      ipv6.KeyLengths();
      if n in ipv4.nodes {
        assert ipv4.View()[n].Key() in ipv4.table;
      } else {
        assert n in ipv6.nodes;
        assert ipv6.View()[n].Key() in ipv6.table;
      }
    }

    lemma ListedOnce(n: TrieEntry, m: TrieEntry, peer: Peer)
      requires Valid() && peer in lists && n in lists[peer] && m in lists[peer] && n != m
      ensures n.View().Key() != m.View().Key()
    {
      ListedEntry(n, peer);
      ListedEntry(m, peer);
      if n.View().Key() == m.View().Key() {
        if n in ipv4.nodes {
          SameKeySameNode(ipv4.View(), ipv4.root, ipv4.w, n, m);
        } else {
          SameKeySameNode(ipv6.View(), ipv6.root, ipv6.w, n, m);
        }
      }
    }

    /** What the table has for a peer is in its list. */
    lemma OwnedIsListed(k: Prefix, peer: Peer) returns (n: TrieEntry)
      requires Valid() && k in Table() && Table()[k] == peer && peer in lists
      ensures n in lists[peer] && n.View().Key() == k
    {
      if k in ipv6.table {
        assert HasOwner(ipv6.View(), k);
        n :| n in ipv6.View() && Holds(ipv6.View(), k, n);
        assert ipv6.View()[n].peer == peer;
      } else {
        assert HasOwner(ipv4.View(), k);
        n :| n in ipv4.View() && Holds(ipv4.View(), k, n);
        assert ipv4.View()[n].peer == peer;
      }
    }

    method Lookup(ip: seq<bool>) returns (found: Peer?)
      requires Valid() && AddressLength(|ip|)
      ensures IsLongestMatch(Table(), ip, found)
    {
      ipv4.KeyLengths();
      ipv6.KeyLengths();
      LookupInUnion(ipv4.table, ipv6.table, ip);
      if |ip| == IPV6_BITS {
        found := ipv6.Lookup(ip);
      } else {
        found := ipv4.Lookup(ip);
      }
    }
  }

  // ---------------------------------------------------------------------------------------------
  // The two tries answer for disjoint prefixes
  // ---------------------------------------------------------------------------------------------

  ghost predicate Lengths(m: Table, w: nat) {
    forall k :: k in m ==> |k.bits| == w
  }

  lemma ApplyToUnion(m4: Table, m6: Table, op: Op, len: nat)
    requires Lengths(m4, IPV4_BITS) && Lengths(m6, IPV6_BITS)
    requires !op.RemoveByPeer? && |op.ip| == len
    ensures len == IPV4_BITS ==> Apply(m4 + m6, op) == Apply(m4, op) + m6
    ensures len == IPV6_BITS ==> Apply(m4 + m6, op) == m4 + Apply(m6, op)
  {
    var k := Prefix(Mask(op.ip, op.cidr), op.cidr);
    assert len == IPV4_BITS ==> k !in m6;
    assert len == IPV6_BITS ==> k !in m4;
  }

  lemma DrainUnion(m4: Table, m6: Table, peer: Peer)
    requires Lengths(m4, IPV4_BITS) && Lengths(m6, IPV6_BITS)
    ensures Apply(m4 + m6, Op.RemoveByPeer(peer)) == Apply(m4, Op.RemoveByPeer(peer)) + Apply(m6, Op.RemoveByPeer(peer))
  {
    assert forall k :: k in m4 ==> k !in m6;
  }

  /** At most one entry, and only an entry of `peer`, is gone. */
  ghost predicate OneFewer(m: Table, fewer: Table, peer: Peer) {
    fewer == m || exists k :: k in m && m[k] == peer && fewer == m - {k}
  }

  lemma OneFewerApply(m: Table, fewer: Table, peer: Peer)
    requires OneFewer(m, fewer, peer)
    ensures Apply(fewer, Op.RemoveByPeer(peer)) == Apply(m, Op.RemoveByPeer(peer))
  {
  }

  /** A peer whose list is empty owns no entry. */
  lemma NothingLeft(h: Heap, m: Table, lists: Lists, peer: Peer)
    requires Represents(h, m) && Consistent(lists, h) && peer in lists && lists[peer] == []
    ensures Apply(m, Op.RemoveByPeer(peer)) == m
  {
    forall k | k in m
      ensures m[k] != peer
    {
      assert HasOwner(h, k);
      var n :| n in h && Holds(h, k, n);
      assert h[n].peer in lists && n in lists[h[n].peer];
    }
  }

  lemma LookupInUnion(m4: Table, m6: Table, ip: seq<bool>)
    requires Lengths(m4, IPV4_BITS) && Lengths(m6, IPV6_BITS)
    ensures |ip| == IPV4_BITS ==> forall a :: IsLongestMatch(m4, ip, a) ==> IsLongestMatch(m4 + m6, ip, a)
    ensures |ip| == IPV6_BITS ==> forall a :: IsLongestMatch(m6, ip, a) ==> IsLongestMatch(m4 + m6, ip, a)
  {
    forall a | |ip| == IPV4_BITS && IsLongestMatch(m4, ip, a)
      ensures IsLongestMatch(m4 + m6, ip, a)
    {
      if a != null {
        var k :| IsLongest(m4, ip, k) && m4[k] == a;
        assert IsLongest(m4 + m6, ip, k);
      }
    }
    forall a | |ip| == IPV6_BITS && IsLongestMatch(m6, ip, a)
      ensures IsLongestMatch(m4 + m6, ip, a)
    {
      if a != null {
        var k :| IsLongest(m6, ip, k) && m6[k] == a;
        assert IsLongest(m4 + m6, ip, k);
      }
    }
  }
}
