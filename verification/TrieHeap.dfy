/** The nodes of the allowed-IPs trie of device/allowedips.go, and what holds of every trie they
    form.

    A trie is a set of `TrieEntry` objects.  Its pointers are described node by node by `NodeOk`,
    with no recursion: all the facts about paths used by insertion, removal and lookup follow from
    these local facts because `cidr` grows strictly downward. */
module TrieHeap {
  import opened AddressBits

  class Peer {
    /** The intrusive list of the entries this peer owns, in insertion order. */
    var trieEntries: seq<TrieEntry>

    constructor ()
      ensures trieEntries == []
    {
      trieEntries := [];
    }
  }

  /** `parent` and `parentBitType` stand for the pointer to the slot that holds this node: child
      slot `parentBitType` of `parent`, or, when `parent` is null and `parentBitType` is 2, the
      root slot.  The list element pointer has no field: it is nil exactly when `peer` is. */
  class TrieEntry {
    var peer: Peer?
    var child: Children
    var parent: TrieEntry?
    var parentBitType: nat
    var cidr: nat
    var bitAtByte: nat
    var bitAtShift: nat
    var bits: seq<bool>

    constructor (peer: Peer?, bits: seq<bool>, cidr: nat)
      ensures View() == Entry(peer, NO_CHILDREN, null, 2, cidr, bits)
      ensures Positioned()
    {
      assert cidr == 8 * (cidr / 8) + cidr % 8;
      this.peer := peer;
      child := NO_CHILDREN;
      parent, parentBitType := null, 2;
      this.cidr := cidr;
      bitAtByte := cidr / 8;
      bitAtShift := 7 - cidr % 8;
      this.bits := bits;
    }

    /** Byte and shift address bit `cidr`: they are `cidr / 8` and `7 - cidr % 8`. */
    ghost predicate Positioned()
      reads this
    {
      bitAtShift <= 7 && 8 * bitAtByte + 7 - bitAtShift == cidr
    }

    ghost function View(): Entry
      reads this
    {
      Entry(peer, child, parent, parentBitType, cidr, bits)
    }
  }

  /** The array of two child pointers, a value inside its node. */
  datatype Children = Children(zero: TrieEntry?, one: TrieEntry?)
  {
    function At(b: nat): TrieEntry?
      requires b <= 1
    {
      if b == 0 then zero else one
    }

    function With(b: nat, c: TrieEntry?): Children
      requires b <= 1
    {
      if b == 0 then this.(zero := c) else this.(one := c)
    }
  }

  const NO_CHILDREN := Children(null, null)

  datatype Prefix = Prefix(bits: seq<bool>, cidr: nat)

  /** The fields of a node at one moment. */
  datatype Entry = Entry(peer: Peer?, child: Children, parent: TrieEntry?, bitType: nat, cidr: nat, bits: seq<bool>)
  {
    function Key(): Prefix {
      Prefix(bits, cidr)
    }
  }

  type Heap = map<TrieEntry, Entry>

  // ---------------------------------------------------------------------------------------------
  // Well-formed tries
  // ---------------------------------------------------------------------------------------------

  /** A child lies strictly below its parent, under the branch bit of its slot, and points back. */
  ghost predicate ChildOk(h: Heap, n: TrieEntry, b: nat)
    requires n in h && b <= 1
  {
    var c := h[n].child.At(b);
    c != null ==>
      && c in h
      && h[c].parent == n && h[c].bitType == b
      && |h[c].bits| == |h[n].bits| && h[n].cidr < h[c].cidr <= |h[c].bits|
      && Agree(h[n].bits, h[c].bits, h[n].cidr)
      && Bit(h[c].bits, h[n].cidr) == b
  }

  ghost predicate ParentOk(h: Heap, root: TrieEntry?, n: TrieEntry)
    requires n in h
  {
    var p := h[n].parent;
    if p == null then n == root && h[n].bitType == 2
    else p in h && h[n].bitType <= 1 && h[p].child.At(h[n].bitType) == n
  }

  ghost predicate LinksOk(h: Heap, root: TrieEntry?, w: nat, n: TrieEntry)
    requires n in h
  {
    var e := h[n];
    && |e.bits| == w && e.cidr <= w && e.bits == Mask(e.bits, e.cidr)
    && ChildOk(h, n, 0) && ChildOk(h, n, 1)
    && ParentOk(h, root, n)
  }

  /** A node without a peer joins two subtries. */
  ghost predicate NodeOk(h: Heap, root: TrieEntry?, w: nat, n: TrieEntry)
    requires n in h
  {
    && LinksOk(h, root, w, n)
    && (h[n].peer == null ==> h[n].child.At(0) != null && h[n].child.At(1) != null)
  }

  ghost predicate RootOk(h: Heap, root: TrieEntry?, w: nat) {
    && AddressLength(w)
    && (root == null ==> h == map[])
    && (root != null ==> root in h && h[root].parent == null)
  }

  ghost predicate Wf(h: Heap, root: TrieEntry?, w: nat) {
    RootOk(h, root, w) && forall n {:trigger NodeOk(h, root, w, n)} :: n in h ==> NodeOk(h, root, w, n)
  }

  /** The prefix of `e` contains the address `ip`. */
  ghost predicate Covers(k: Prefix, ip: seq<bool>) {
    |k.bits| == |ip| && k.cidr <= |ip| && Agree(k.bits, ip, k.cidr)
  }

  lemma ParentStep(h: Heap, root: TrieEntry?, w: nat, n: TrieEntry)
    requires Wf(h, root, w) && n in h && h[n].parent != null
    ensures var p := h[n].parent;
      && p in h && h[p].cidr < h[n].cidr <= w && |h[p].bits| == |h[n].bits| == w
      && h[n].bitType <= 1 && h[p].child.At(h[n].bitType) == n
      && Agree(h[p].bits, h[n].bits, h[p].cidr) && Bit(h[n].bits, h[p].cidr) == h[n].bitType
  {
    assert NodeOk(h, root, w, n);
    assert NodeOk(h, root, w, h[n].parent);
  }

  /** The root prefix contains every other, and no other node is as short. */
  lemma {:induction false} RootAbove(h: Heap, root: TrieEntry?, w: nat, n: TrieEntry)
    requires Wf(h, root, w) && n in h
    ensures root != null && root in h && h[root].cidr <= h[n].cidr
    ensures |h[root].bits| == |h[n].bits| == w && h[n].cidr <= w && Agree(h[root].bits, h[n].bits, h[root].cidr)
    ensures n != root ==> h[root].cidr < h[n].cidr
    decreases h[n].cidr
  {
    assert NodeOk(h, root, w, n);
    if h[n].parent != null {
      ParentStep(h, root, w, n);
      RootAbove(h, root, w, h[n].parent);
    }
  }

  /** The nodes whose prefixes contain one address form a single downward path: from a node on it,
      the child chosen by the address leads to every longer one. */
  lemma {:induction false} Path(h: Heap, root: TrieEntry?, w: nat, n: TrieEntry, m: TrieEntry, ip: seq<bool>)
    requires Wf(h, root, w) && n in h && m in h && |ip| == w
    requires Covers(h[n].Key(), ip) && Covers(h[m].Key(), ip) && h[n].cidr <= h[m].cidr
    ensures n != m ==>
      && h[n].cidr < h[m].cidr
      && var c := h[n].child.At(Bit(ip, h[n].cidr));
         c != null && c in h && h[c].cidr <= h[m].cidr && Covers(h[c].Key(), ip)
    decreases h[n].cidr + h[m].cidr
  {
    assert NodeOk(h, root, w, n);
    assert NodeOk(h, root, w, m);
    RootAbove(h, root, w, n);
    RootAbove(h, root, w, m);
    if n != m && m != root {
      ParentStep(h, root, w, m);
      var q := h[m].parent;
      assert Covers(h[q].Key(), ip) by { assert NodeOk(h, root, w, q); }
      assert h[m].bitType == Bit(ip, h[q].cidr);
      if h[n].cidr <= h[q].cidr {
        Path(h, root, w, n, q, ip);
      } else {
        Path(h, root, w, q, n, ip);
        assert h[m].cidr == h[n].cidr;
        PathTwins(h, root, w, n, m, ip);
        assert false;
      }
    }
  }

  /** Two different nodes of the same length cannot both contain `ip`. */
  lemma {:induction false} PathTwins(h: Heap, root: TrieEntry?, w: nat, n: TrieEntry, m: TrieEntry, ip: seq<bool>)
    requires Wf(h, root, w) && n in h && m in h && |ip| == w
    requires Covers(h[n].Key(), ip) && Covers(h[m].Key(), ip) && h[n].cidr == h[m].cidr
    ensures n == m
    decreases h[n].cidr + h[m].cidr, 0
  {
    assert NodeOk(h, root, w, n);
    assert NodeOk(h, root, w, m);
    RootAbove(h, root, w, n);
    RootAbove(h, root, w, m);
    if n != root && m != root {
      ParentStep(h, root, w, n);
      ParentStep(h, root, w, m);
      var p, q := h[n].parent, h[m].parent;
      assert Covers(h[p].Key(), ip) by { assert NodeOk(h, root, w, p); }
      assert Covers(h[q].Key(), ip) by { assert NodeOk(h, root, w, q); }
      if h[p].cidr <= h[q].cidr {
        Path(h, root, w, p, q, ip);
      } else {
        Path(h, root, w, q, p, ip);
      }
    }
  }

  // ---------------------------------------------------------------------------------------------
  // What a trie means: a map from prefixes to peers
  // ---------------------------------------------------------------------------------------------

  type Table = map<Prefix, Peer>

  ghost predicate Holds(h: Heap, k: Prefix, n: TrieEntry) {
    n in h && h[n].peer != null && h[n].Key() == k
  }

  ghost predicate HasOwner(h: Heap, k: Prefix) {
    exists n :: n in h && Holds(h, k, n)
  }

  ghost predicate Represents(h: Heap, m: Table) {
    && (forall n {:trigger h[n].Key()} :: n in h && h[n].peer != null ==> h[n].Key() in m && m[h[n].Key()] == h[n].peer)
    && (forall k {:trigger HasOwner(h, k)} :: k in m ==> HasOwner(h, k))
  }

  /** The answer of longest-prefix routing: the peer of a longest prefix that contains `ip`. */
  ghost predicate IsLongestMatch(m: Table, ip: seq<bool>, answer: Peer?) {
    if answer == null then forall k :: k in m ==> !Covers(k, ip)
    else exists k :: IsLongest(m, ip, k) && m[k] == answer
  }

  ghost predicate IsLongest(m: Table, ip: seq<bool>, k: Prefix) {
    k in m && Covers(k, ip) && forall other :: other in m && Covers(other, ip) ==> other.cidr <= k.cidr
  }

  /** Routing is a function of the map when its prefixes are masked: at most one peer is right. */
  lemma LongestMatchUnique(m: Table, ip: seq<bool>, a: Peer?, b: Peer?)
    requires forall k :: k in m ==> |k.bits| == |ip| && k.cidr <= |ip| && k.bits == Mask(k.bits, k.cidr)
    requires IsLongestMatch(m, ip, a) && IsLongestMatch(m, ip, b)
    ensures a == b
  {
    if a != null && b != null {
      var j :| IsLongest(m, ip, j) && m[j] == a;
      var k :| IsLongest(m, ip, k) && m[k] == b;
      MaskEqual(j.bits, k.bits, j.cidr);
    }
  }

  lemma SameKeySameNode(h: Heap, root: TrieEntry?, w: nat, n: TrieEntry, m: TrieEntry)
    requires Wf(h, root, w) && n in h && m in h && h[n].Key() == h[m].Key()
    ensures n == m
  {
    RootAbove(h, root, w, n);
    PathTwins(h, root, w, n, m, h[n].bits);
  }

  // ---------------------------------------------------------------------------------------------
  // Where nodePlacement stops
  // ---------------------------------------------------------------------------------------------

  /** The node in the slot that `p` and `ip` choose; the root slot when `p` is null. */
  ghost function Below(h: Heap, root: TrieEntry?, w: nat, p: TrieEntry?, ip: seq<bool>): TrieEntry?
    requires Wf(h, root, w) && |ip| == w
    requires p != null ==> p in h && h[p].cidr < w
  {
    if p == null then root
    else
      assert NodeOk(h, root, w, p);
      h[p].child.At(Bit(ip, h[p].cidr))
  }

  /** `p` is the last node on the path of `ip` that is shorter than `cidr`, and the node below it
      is absent, too long, or does not contain `ip`. */
  ghost predicate StopsAt(h: Heap, root: TrieEntry?, w: nat, p: TrieEntry?, ip: seq<bool>, cidr: nat)
    requires Wf(h, root, w)
  {
    && |ip| == w && cidr <= w
    && (p != null ==> p in h && h[p].cidr < cidr && Covers(h[p].Key(), ip))
    && var down := Below(h, root, w, p, ip);
       down != null ==> down in h && !(h[down].cidr <= cidr && Covers(h[down].Key(), ip))
  }

  lemma BelowInHeap(h: Heap, root: TrieEntry?, w: nat, p: TrieEntry?, ip: seq<bool>)
    requires Wf(h, root, w) && |ip| == w
    requires p != null ==> p in h && h[p].cidr < w
    ensures var down := Below(h, root, w, p, ip);
      down != null ==>
        && down in h && h[down].parent == p && h[down].bitType == (if p == null then 2 else Bit(ip, h[p].cidr))
        && (p != null ==> h[p].cidr < h[down].cidr)
  {
    if p != null {
      assert NodeOk(h, root, w, p);
    } else if root != null {
      assert NodeOk(h, root, w, root);
    }
  }

  lemma StopMeansAbsent(h: Heap, root: TrieEntry?, w: nat, p: TrieEntry?, ip: seq<bool>, cidr: nat, n: TrieEntry)
    requires Wf(h, root, w) && StopsAt(h, root, w, p, ip, cidr) && n in h
    ensures h[n].Key() != Prefix(Mask(ip, cidr), cidr)
  {
    if h[n].Key() == Prefix(Mask(ip, cidr), cidr) {
      RootAbove(h, root, w, n);
      if p != null {
        Path(h, root, w, p, n, ip);
      }
    }
  }

  // ---------------------------------------------------------------------------------------------
  // Insertion
  // ---------------------------------------------------------------------------------------------

  /** `*slot = c`, where the slot is child `b` of `p`; the root slot is not part of the heap. */
  ghost function SetSlot(h: Heap, p: TrieEntry?, b: nat, c: TrieEntry?): Heap
    requires p != null ==> p in h && b <= 1
  {
    if p == null then h else h[p := h[p].(child := h[p].child.With(b, c))]
  }

  ghost function SetParent(h: Heap, n: TrieEntry, p: TrieEntry?, b: nat): Heap
    requires n in h
  {
    h[n := h[n].(parent := p, bitType := b)]
  }

  ghost function SlotBit(h: Heap, p: TrieEntry?, ip: seq<bool>): nat
    requires p != null ==> p in h && h[p].cidr < |ip|
  {
    if p == null then 2 else Bit(ip, h[p].cidr)
  }

  /** Nodes keep their prefix and peer. */
  ghost predicate Keeps(h: Heap, g: Heap, n: TrieEntry) {
    n in h && n in g && g[n].Key() == h[n].Key() && g[n].peer == h[n].peer
  }

  /** `x` may stand in slot `b` of `p`. */
  ghost predicate FitsSlot(h: Heap, root: TrieEntry?, w: nat, p: TrieEntry?, b: nat, x: Entry) {
    && x.parent == p && x.bitType == b && |x.bits| == w && x.cidr <= w
    && (p == null ==> b == 2)
    && (p != null ==> p in h && b <= 1 && |h[p].bits| == w && h[p].cidr < x.cidr &&
                      Agree(h[p].bits, x.bits, h[p].cidr) && Bit(x.bits, h[p].cidr) == b)
  }

  /** `g` differs from `h` only in slot `b` of `p`, which held `down` and now holds `x`, and in the
      parent of `down`. */
  ghost predicate Spliced(h: Heap, g: Heap, p: TrieEntry?, b: nat, down: TrieEntry?, x: TrieEntry) {
    && x in g && x !in h
    && (p != null ==> p in h && p in g && p != down && b <= 1 && h[p].child.At(b) == down &&
                      g[p] == h[p].(child := h[p].child.With(b, x)))
    && (down != null ==> down in h && down in g && h[down].parent == p && h[down].bitType == b &&
                         g[down] == h[down].(parent := g[down].parent, bitType := g[down].bitType))
    && forall n :: n in h && n != p && n != down ==> n in g && g[n] == h[n]
  }

  /** Every old node but `down` stays well-formed when the slot is filled. */
  lemma OutsideOk(h: Heap, g: Heap, root: TrieEntry?, w: nat, p: TrieEntry?, b: nat, down: TrieEntry?, x: TrieEntry, n: TrieEntry)
    requires Wf(h, root, w) && Spliced(h, g, p, b, down, x)
    requires FitsSlot(h, root, w, p, b, g[x])
    requires p == null ==> root == down
    requires n in h && n != down
    ensures n in g && NodeOk(g, if p == null then x else root, w, n)
  {
    assert NodeOk(h, root, w, n);
    if p != null {
      assert NodeOk(h, root, w, p);
    }
    OutsideChildOk(h, g, root, w, p, b, down, x, n, 0);
    OutsideChildOk(h, g, root, w, p, b, down, x, n, 1);
  }

  lemma OutsideChildOk(h: Heap, g: Heap, root: TrieEntry?, w: nat, p: TrieEntry?, b: nat, down: TrieEntry?, x: TrieEntry, n: TrieEntry, i: nat)
    requires Wf(h, root, w) && Spliced(h, g, p, b, down, x)
    requires FitsSlot(h, root, w, p, b, g[x])
    requires n in h && n != down && i <= 1
    ensures n in g && ChildOk(g, n, i)
  {
    assert NodeOk(h, root, w, n);
    assert ChildOk(h, n, i);
    if n != p || i != b {
      var c := h[n].child.At(i);
      if c != null {
        assert c in g && g[c].cidr == h[c].cidr && g[c].bits == h[c].bits;
      }
    }
  }

  /** The displaced node stays well-formed under its new parent `y`. */
  lemma DownOk(h: Heap, g: Heap, root: TrieEntry?, top: TrieEntry, w: nat, p: TrieEntry?, b: nat, down: TrieEntry, x: TrieEntry)
    requires Wf(h, root, w) && Spliced(h, g, p, b, down, x)
    requires ParentOk(g, top, down)
    ensures NodeOk(g, top, w, down)
  {
    assert NodeOk(h, root, w, down);
    if p != null {
      ParentStep(h, root, w, down);
    }
    assert ChildOk(h, down, 0) && ChildOk(h, down, 1);
    assert ChildOk(g, down, 0);
    assert ChildOk(g, down, 1);
  }

  /** A splice keeps the trie well-formed when the nodes it adds are. */
  lemma SplicedWf(h: Heap, g: Heap, root: TrieEntry?, w: nat, p: TrieEntry?, b: nat, down: TrieEntry?, x: TrieEntry)
    requires Wf(h, root, w) && Spliced(h, g, p, b, down, x)
    requires FitsSlot(h, root, w, p, b, g[x])
    requires p == null ==> root == down
    requires down != null ==> ParentOk(g, if p == null then x else root, down)
    requires forall n :: n in g && n !in h ==> NodeOk(g, if p == null then x else root, w, n)
    ensures Wf(g, if p == null then x else root, w)
  {
    var top := if p == null then x else root;
    forall n | n in h
      ensures NodeOk(g, top, w, n)
    {
      if n == down {
        DownOk(h, g, root, top, w, p, b, down, x);
      } else {
        OutsideOk(h, g, root, w, p, b, down, x, n);
      }
    }
    if p != null {
      RootAbove(h, root, w, p);
    }
  }

  /** The slot is empty: the new node goes there. */
  ghost function WithLeaf(h: Heap, p: TrieEntry?, b: nat, added: TrieEntry, peer: Peer, k: Prefix): Heap
    requires p != null ==> p in h && b <= 1 && p != added
  {
    SetSlot(h[added := Entry(peer, NO_CHILDREN, p, b, k.cidr, k.bits)], p, b, added)
  }

  /** Any prefix of `ip` longer than `p` fits the slot that `ip` chooses below `p`. */
  lemma PrefixFitsSlot(h: Heap, root: TrieEntry?, w: nat, p: TrieEntry?, ip: seq<bool>, cidr: nat, len: nat, x: Entry)
    requires Wf(h, root, w) && StopsAt(h, root, w, p, ip, cidr) && len <= cidr
    requires p != null ==> h[p].cidr < len
    requires x.parent == p && x.bitType == SlotBit(h, p, ip) && x.cidr == len && x.bits == Mask(Mask(ip, cidr), len)
    ensures FitsSlot(h, root, w, p, SlotBit(h, p, ip), x)
  {
    if p != null {
      assert NodeOk(h, root, w, p);
    }
  }

  lemma LeafSpliced(h: Heap, root: TrieEntry?, w: nat, p: TrieEntry?, ip: seq<bool>, cidr: nat, added: TrieEntry, peer: Peer)
    requires Wf(h, root, w) && StopsAt(h, root, w, p, ip, cidr) && Below(h, root, w, p, ip) == null
    requires added !in h
    ensures Spliced(h, WithLeaf(h, p, SlotBit(h, p, ip), added, peer, Prefix(Mask(ip, cidr), cidr)), p, SlotBit(h, p, ip), null, added)
  {
  }

  lemma LeafNodeOk(g: Heap, top: TrieEntry, w: nat, added: TrieEntry)
    requires added in g && ParentOk(g, top, added)
    requires
      var x := g[added];
      |x.bits| == w && x.cidr <= w && x.bits == Mask(x.bits, x.cidr) && x.peer != null && x.child == NO_CHILDREN
    ensures NodeOk(g, top, w, added)
  {
  }

  lemma LeafWf(h: Heap, root: TrieEntry?, w: nat, p: TrieEntry?, ip: seq<bool>, cidr: nat, added: TrieEntry, peer: Peer)
    requires Wf(h, root, w) && StopsAt(h, root, w, p, ip, cidr) && Below(h, root, w, p, ip) == null
    requires added !in h
    ensures Wf(WithLeaf(h, p, SlotBit(h, p, ip), added, peer, Prefix(Mask(ip, cidr), cidr)), if p == null then added else root, w)
  {
    var k := Prefix(Mask(ip, cidr), cidr);
    var b := SlotBit(h, p, ip);
    var g := WithLeaf(h, p, b, added, peer, k);
    MaskTwice(ip, cidr);
    PrefixFitsSlot(h, root, w, p, ip, cidr, cidr, g[added]);
    LeafSpliced(h, root, w, p, ip, cidr, added, peer);
    LeafNodeOk(g, if p == null then added else root, w, added);
    SplicedWf(h, g, root, w, p, b, null, added);
  }

  /** The node in the slot lies below the new prefix: the new node takes its place. */
  ghost function WithAbove(h: Heap, p: TrieEntry?, b: nat, added: TrieEntry, peer: Peer, k: Prefix, down: TrieEntry, bd: nat): Heap
    requires p != null ==> p in h && b <= 1 && p != added
    requires down in h && down != p && down != added && bd <= 1
  {
    SetSlot(SetParent(h, down, added, bd)[added := Entry(peer, NO_CHILDREN.With(bd, down), p, b, k.cidr, k.bits)], p, b, added)
  }

  lemma AboveSpliced(h: Heap, root: TrieEntry?, w: nat, p: TrieEntry?, ip: seq<bool>, cidr: nat, added: TrieEntry, peer: Peer)
    requires Wf(h, root, w) && StopsAt(h, root, w, p, ip, cidr) && Below(h, root, w, p, ip) != null
    requires added !in h
    requires var down := Below(h, root, w, p, ip); |h[down].bits| == w && cidr < w
    ensures var down := Below(h, root, w, p, ip);
      && down in h && down != p
      && Spliced(h, WithAbove(h, p, SlotBit(h, p, ip), added, peer, Prefix(Mask(ip, cidr), cidr), down, Bit(h[down].bits, cidr)),
                 p, SlotBit(h, p, ip), down, added)
  {
    BelowInHeap(h, root, w, p, ip);
  }

  /** A new node above one displaced node. */
  lemma AboveNodeOk(g: Heap, top: TrieEntry, w: nat, added: TrieEntry, down: TrieEntry)
    requires added in g && down in g && ParentOk(g, top, added)
    requires
      var x, d := g[added], g[down];
      && |x.bits| == |d.bits| == w && x.cidr < d.cidr <= w && x.bits == Mask(x.bits, x.cidr) && x.peer != null
      && Agree(x.bits, d.bits, x.cidr)
      && x.child == NO_CHILDREN.With(Bit(d.bits, x.cidr), down) && d.parent == added && d.bitType == Bit(d.bits, x.cidr)
    ensures NodeOk(g, top, w, added)
  {
  }

  lemma AboveWf(h: Heap, root: TrieEntry?, w: nat, p: TrieEntry?, ip: seq<bool>, cidr: nat, added: TrieEntry, peer: Peer)
    requires Wf(h, root, w) && StopsAt(h, root, w, p, ip, cidr) && Below(h, root, w, p, ip) != null
    requires added !in h
    requires var down := Below(h, root, w, p, ip); |h[down].bits| == w && Agree(h[down].bits, ip, cidr) && cidr < w
    ensures var down := Below(h, root, w, p, ip);
      && down != p
      && Wf(WithAbove(h, p, SlotBit(h, p, ip), added, peer, Prefix(Mask(ip, cidr), cidr), down, Bit(h[down].bits, cidr)),
            if p == null then added else root, w)
  {
    var down := Below(h, root, w, p, ip);
    BelowInHeap(h, root, w, p, ip);
    var b := SlotBit(h, p, ip);
    var g := WithAbove(h, p, b, added, peer, Prefix(Mask(ip, cidr), cidr), down, Bit(h[down].bits, cidr));
    MaskTwice(ip, cidr);
    PrefixFitsSlot(h, root, w, p, ip, cidr, cidr, g[added]);
    AboveSpliced(h, root, w, p, ip, cidr, added, peer);
    assert NodeOk(h, root, w, down);
    AboveNodeOk(g, if p == null then added else root, w, added, down);
    SplicedWf(h, g, root, w, p, b, down, added);
  }

  /** The node in the slot and the new prefix part at bit `common`: a peer-less node joins them. */
  ghost function WithBranch(h: Heap, p: TrieEntry?, b: nat, added: TrieEntry, peer: Peer, k: Prefix, down: TrieEntry, join: TrieEntry, common: nat, bd: nat): Heap
    requires p != null ==> p in h && b <= 1 && p != added && p != join
    requires down in h && down != p && down != added && down != join && added != join && bd <= 1
  {
    SetSlot(SetParent(h, down, join, bd)
              [added := Entry(peer, NO_CHILDREN, join, 1 - bd, k.cidr, k.bits)]
              [join := Entry(null, NO_CHILDREN.With(bd, down).With(1 - bd, added), p, b, common, Mask(k.bits, common))],
            p, b, join)
  }

  lemma BranchSpliced(h: Heap, root: TrieEntry?, w: nat, p: TrieEntry?, ip: seq<bool>, cidr: nat, added: TrieEntry, peer: Peer, join: TrieEntry, common: nat)
    requires Wf(h, root, w) && StopsAt(h, root, w, p, ip, cidr) && Below(h, root, w, p, ip) != null
    requires added !in h && join !in h && added != join
    requires var down := Below(h, root, w, p, ip); |h[down].bits| == w && common < cidr
    ensures var down := Below(h, root, w, p, ip);
      && down in h && down != p
      && Spliced(h, WithBranch(h, p, SlotBit(h, p, ip), added, peer, Prefix(Mask(ip, cidr), cidr), down, join, common, Bit(h[down].bits, common)),
                 p, SlotBit(h, p, ip), down, join)
  {
    BelowInHeap(h, root, w, p, ip);
  }

  /** A joining node above a displaced node and a new leaf that part at its length. */
  lemma BranchNodesOk(g: Heap, top: TrieEntry, w: nat, added: TrieEntry, down: TrieEntry, join: TrieEntry)
    requires added in g && down in g && join in g && ParentOk(g, top, join)
    requires
      var x, d, j := g[added], g[down], g[join];
      && |x.bits| == |d.bits| == |j.bits| == w && j.cidr < d.cidr <= w && j.cidr < x.cidr <= w
      && x.bits == Mask(x.bits, x.cidr) && j.bits == Mask(j.bits, j.cidr) && x.peer != null
      && Agree(j.bits, d.bits, j.cidr) && Agree(j.bits, x.bits, j.cidr)
      && var bd := Bit(d.bits, j.cidr);
         && Bit(x.bits, j.cidr) == 1 - bd
         && x.child == NO_CHILDREN && x.parent == join && x.bitType == 1 - bd
         && d.parent == join && d.bitType == bd
         && j.child == NO_CHILDREN.With(bd, down).With(1 - bd, added)
    ensures NodeOk(g, top, w, join) && NodeOk(g, top, w, added)
  {
  }

  lemma BranchWf(h: Heap, root: TrieEntry?, w: nat, p: TrieEntry?, ip: seq<bool>, cidr: nat, added: TrieEntry, peer: Peer, join: TrieEntry, common: nat)
    requires Wf(h, root, w) && StopsAt(h, root, w, p, ip, cidr) && Below(h, root, w, p, ip) != null
    requires added !in h && join !in h && added != join
    requires var down := Below(h, root, w, p, ip);
      common < cidr && |h[down].bits| == w && Agree(h[down].bits, ip, common) && h[down].bits[common] != ip[common]
    ensures var down := Below(h, root, w, p, ip);
      && down != p
      && Wf(WithBranch(h, p, SlotBit(h, p, ip), added, peer, Prefix(Mask(ip, cidr), cidr), down, join, common, Bit(h[down].bits, common)),
            if p == null then join else root, w)
  {
    var down := Below(h, root, w, p, ip);
    BelowInHeap(h, root, w, p, ip);
    var b := SlotBit(h, p, ip);
    var g := WithBranch(h, p, b, added, peer, Prefix(Mask(ip, cidr), cidr), down, join, common, Bit(h[down].bits, common));
    MaskTwice(ip, cidr);
    MaskTwice(Mask(ip, cidr), common);
    BranchBelowStop(h, root, w, p, ip, cidr, common);
    PrefixFitsSlot(h, root, w, p, ip, cidr, common, g[join]);
    BranchSpliced(h, root, w, p, ip, cidr, added, peer, join, common);
    assert NodeOk(h, root, w, down);
    BranchNodesOk(g, if p == null then join else root, w, added, down, join);
    SplicedWf(h, g, root, w, p, b, down, join);
  }

  /** The branching bit lies between the two nodes it joins. */
  lemma BranchBelowStop(h: Heap, root: TrieEntry?, w: nat, p: TrieEntry?, ip: seq<bool>, cidr: nat, common: nat)
    requires Wf(h, root, w) && StopsAt(h, root, w, p, ip, cidr) && Below(h, root, w, p, ip) != null
    requires var down := Below(h, root, w, p, ip);
      common < cidr && |h[down].bits| == w && Agree(h[down].bits, ip, common) && h[down].bits[common] != ip[common]
    ensures common < h[Below(h, root, w, p, ip)].cidr
    ensures p != null ==> h[p].cidr < common
  {
    var down := Below(h, root, w, p, ip);
    BelowInHeap(h, root, w, p, ip);
    assert NodeOk(h, root, w, down);
    if h[down].cidr <= common {
      assert Covers(h[down].Key(), ip);
    }
    if p != null {
      assert NodeOk(h, root, w, p);
      assert Bit(h[down].bits, h[p].cidr) == Bit(ip, h[p].cidr);
      assert forall i :: 0 <= i < h[p].cidr ==> h[down].bits[i] == ip[i];
    }
  }

  /** An insertion that adds one owned node and keeps the others adds one entry to the map. */
  lemma RepresentsInsert(h: Heap, g: Heap, m: Table, added: TrieEntry, k: Prefix, peer: Peer)
    requires Represents(h, m)
    requires forall n :: n in h ==> h[n].Key() != k
    requires forall n :: n in h ==> Keeps(h, g, n)
    requires forall n :: n in g && n !in h && n != added ==> g[n].peer == null
    requires added !in h && Holds(g, k, added) && g[added].peer == peer
    ensures Represents(g, m[k := peer])
  {
    forall j {:trigger HasOwner(g, j)} | j in m[k := peer]
      ensures HasOwner(g, j)
    {
      if j == k {
        assert Holds(g, j, added);
      } else {
        assert HasOwner(h, j);
        var n :| n in h && Holds(h, j, n);
        assert Keeps(h, g, n);
        assert Holds(g, j, n);
      }
    }
    forall n | n in g && g[n].peer != null
      ensures g[n].Key() in m[k := peer] && m[k := peer][g[n].Key()] == g[n].peer
    {
      if n in h {
        assert Keeps(h, g, n);
      }
    }
  }

  lemma AddedEntry(h: Heap, g: Heap, root: TrieEntry?, w: nat, m: Table, p: TrieEntry?, ip: seq<bool>, cidr: nat, added: TrieEntry, peer: Peer)
    requires Wf(h, root, w) && Represents(h, m) && StopsAt(h, root, w, p, ip, cidr)
    requires forall n :: n in h ==> Keeps(h, g, n)
    requires forall n :: n in g && n !in h && n != added ==> g[n].peer == null
    requires added !in h && Holds(g, Prefix(Mask(ip, cidr), cidr), added) && g[added].peer == peer
    ensures Represents(g, m[Prefix(Mask(ip, cidr), cidr) := peer])
  {
    forall n | n in h
      ensures h[n].Key() != Prefix(Mask(ip, cidr), cidr)
    {
      StopMeansAbsent(h, root, w, p, ip, cidr, n);
    }
    RepresentsInsert(h, g, m, added, Prefix(Mask(ip, cidr), cidr), peer);
  }

  lemma LeafInserts(h: Heap, root: TrieEntry?, w: nat, m: Table, p: TrieEntry?, ip: seq<bool>, cidr: nat, added: TrieEntry, peer: Peer)
    requires Wf(h, root, w) && Represents(h, m) && StopsAt(h, root, w, p, ip, cidr) && Below(h, root, w, p, ip) == null
    requires added !in h
    ensures
      var k := Prefix(Mask(ip, cidr), cidr);
      var g := WithLeaf(h, p, SlotBit(h, p, ip), added, peer, k);
      Wf(g, if p == null then added else root, w) && Represents(g, m[k := peer])
  {
    var k := Prefix(Mask(ip, cidr), cidr);
    LeafWf(h, root, w, p, ip, cidr, added, peer);
    AddedEntry(h, WithLeaf(h, p, SlotBit(h, p, ip), added, peer, k), root, w, m, p, ip, cidr, added, peer);
  }

  lemma AboveInserts(h: Heap, root: TrieEntry?, w: nat, m: Table, p: TrieEntry?, ip: seq<bool>, cidr: nat, added: TrieEntry, peer: Peer)
    requires Wf(h, root, w) && Represents(h, m) && StopsAt(h, root, w, p, ip, cidr) && Below(h, root, w, p, ip) != null
    requires added !in h
    requires var down := Below(h, root, w, p, ip); |h[down].bits| == w && Agree(h[down].bits, ip, cidr) && cidr < w
    ensures
      var down := Below(h, root, w, p, ip);
      && down != p
      && var k := Prefix(Mask(ip, cidr), cidr);
         var g := WithAbove(h, p, SlotBit(h, p, ip), added, peer, k, down, Bit(h[down].bits, cidr));
         Wf(g, if p == null then added else root, w) && Represents(g, m[k := peer])
  {
    var k := Prefix(Mask(ip, cidr), cidr);
    var down := Below(h, root, w, p, ip);
    AboveWf(h, root, w, p, ip, cidr, added, peer);
    AddedEntry(h, WithAbove(h, p, SlotBit(h, p, ip), added, peer, k, down, Bit(h[down].bits, cidr)), root, w, m, p, ip, cidr, added, peer);
  }

  lemma BranchInserts(h: Heap, root: TrieEntry?, w: nat, m: Table, p: TrieEntry?, ip: seq<bool>, cidr: nat, added: TrieEntry, peer: Peer, join: TrieEntry, common: nat)
    requires Wf(h, root, w) && Represents(h, m) && StopsAt(h, root, w, p, ip, cidr) && Below(h, root, w, p, ip) != null
    requires added !in h && join !in h && added != join
    requires var down := Below(h, root, w, p, ip);
      common < cidr && |h[down].bits| == w && Agree(h[down].bits, ip, common) && h[down].bits[common] != ip[common]
    ensures
      var down := Below(h, root, w, p, ip);
      && down != p
      && var k := Prefix(Mask(ip, cidr), cidr);
         var g := WithBranch(h, p, SlotBit(h, p, ip), added, peer, k, down, join, common, Bit(h[down].bits, common));
         Wf(g, if p == null then join else root, w) && Represents(g, m[k := peer])
  {
    var k := Prefix(Mask(ip, cidr), cidr);
    var down := Below(h, root, w, p, ip);
    BranchWf(h, root, w, p, ip, cidr, added, peer, join, common);
    AddedEntry(h, WithBranch(h, p, SlotBit(h, p, ip), added, peer, k, down, join, common, Bit(h[down].bits, common)),
               root, w, m, p, ip, cidr, added, peer);
  }

  /** The prefix is already in the trie: its node changes owner. */
  lemma NewOwnerRepresents(h: Heap, root: TrieEntry?, w: nat, m: Table, n: TrieEntry, peer: Peer)
    requires Wf(h, root, w) && Represents(h, m) && n in h
    ensures Represents(h[n := h[n].(peer := peer)], m[h[n].Key() := peer])
  {
    var g := h[n := h[n].(peer := peer)];
    var k := h[n].Key();
    forall j {:trigger HasOwner(g, j)} | j in m[k := peer]
      ensures HasOwner(g, j)
    {
      if j == k {
        assert Holds(g, j, n);
      } else {
        assert HasOwner(h, j);
        var x :| x in h && Holds(h, j, x);
        assert Holds(g, j, x);
      }
    }
    forall x | x in g && g[x].peer != null
      ensures g[x].Key() in m[k := peer] && m[k := peer][g[x].Key()] == g[x].peer
    {
      if g[x].Key() == k {
        SameKeySameNode(h, root, w, x, n);
      }
    }
  }

  lemma NewOwner(h: Heap, root: TrieEntry?, w: nat, m: Table, n: TrieEntry, peer: Peer)
    requires Wf(h, root, w) && Represents(h, m) && n in h
    ensures var g := h[n := h[n].(peer := peer)];
      Wf(g, root, w) && Represents(g, m[h[n].Key() := peer])
  {
    var g := h[n := h[n].(peer := peer)];
    forall x | x in h
      ensures NodeOk(g, root, w, x)
    {
      assert NodeOk(h, root, w, x);
    }
    NewOwnerRepresents(h, root, w, m, n, peer);
  }

  // ---------------------------------------------------------------------------------------------
  // Removal
  // ---------------------------------------------------------------------------------------------

  /** Every node but `x` is well-formed; `x` may be a peer-less node with fewer than two children. */
  ghost predicate WfExcept(h: Heap, root: TrieEntry?, w: nat, x: TrieEntry?) {
    && RootOk(h, root, w)
    && (forall n {:trigger LinksOk(h, root, w, n)} :: n in h ==> LinksOk(h, root, w, n))
    && (forall n {:trigger NodeOk(h, root, w, n)} :: n in h && n != x ==> NodeOk(h, root, w, n))
  }

  /** `n` leaves the trie and its only child `c`, if any, takes its slot. */
  ghost function Lifted(h: Heap, n: TrieEntry, c: TrieEntry?): Heap
    requires n in h && (c != null ==> c in h)
    requires var p := h[n].parent; p != null ==> p in h && p != c && h[n].bitType <= 1
  {
    var p, b := h[n].parent, h[n].bitType;
    SetSlot(if c == null then h else SetParent(h, c, p, b), p, b, c) - {n}
  }

  ghost predicate OnlyChild(h: Heap, n: TrieEntry, c: TrieEntry?)
    requires n in h
  {
    && (h[n].child == Children(c, null) || h[n].child == Children(null, c))
  }

  lemma LiftFacts(h: Heap, root: TrieEntry?, w: nat, n: TrieEntry, c: TrieEntry?)
    requires WfExcept(h, root, w, n) && n in h && OnlyChild(h, n, c)
    ensures c != null ==> c in h && c != n && h[c].parent == n && h[n].cidr < h[c].cidr
    ensures var p := h[n].parent;
      p != null ==> p in h && p != c && p != n && h[n].bitType <= 1 && h[p].child.At(h[n].bitType) == n
                    && h[p].cidr < h[n].cidr
  {
    assert LinksOk(h, root, w, n);
    assert ChildOk(h, n, 0) && ChildOk(h, n, 1);
    var p := h[n].parent;
    if p != null {
      assert LinksOk(h, root, w, p);
      assert ChildOk(h, p, h[n].bitType);
    }
  }

  /** The lifted child fits the slot of the node it replaces. */
  lemma LiftedSlotOk(h: Heap, root: TrieEntry?, w: nat, n: TrieEntry, c: TrieEntry?)
    requires WfExcept(h, root, w, n) && n in h && OnlyChild(h, n, c) && h[n].parent != null
    requires c != null ==> c in h
    requires var p := h[n].parent; p in h && p != c && p != n && h[n].bitType <= 1
    ensures ChildOk(Lifted(h, n, c), h[n].parent, h[n].bitType)
  {
    LiftFacts(h, root, w, n, c);
    assert LinksOk(h, root, w, n);
    assert LinksOk(h, root, w, h[n].parent);
    assert ChildOk(h, h[n].parent, h[n].bitType);
    assert ChildOk(h, n, 0) && ChildOk(h, n, 1);
  }

  lemma LiftedEntry(h: Heap, n: TrieEntry, c: TrieEntry?, m: TrieEntry)
    requires n in h && (c != null ==> c in h && c != n) && m in h && m != n
    requires var p := h[n].parent; p != null ==> p in h && p != c && p != n && h[n].bitType <= 1
    ensures
      var g, p, b := Lifted(h, n, c), h[n].parent, h[n].bitType;
      && m in g
      && g[m].bits == h[m].bits && g[m].cidr == h[m].cidr && g[m].peer == h[m].peer
      && g[m].child == (if m == p then h[m].child.With(b, c) else h[m].child)
      && g[m].parent == (if m == c then p else h[m].parent)
      && g[m].bitType == (if m == c then b else h[m].bitType)
  {
  }

  lemma LiftedOtherChildOk(h: Heap, root: TrieEntry?, w: nat, n: TrieEntry, c: TrieEntry?, m: TrieEntry, i: nat)
    requires WfExcept(h, root, w, n) && n in h && OnlyChild(h, n, c)
    requires m in h && m != n && i <= 1 && !(m == h[n].parent && i == h[n].bitType)
    requires c != null ==> c in h
    requires var p := h[n].parent; p != null ==> p in h && p != c && h[n].bitType <= 1
    ensures var g := Lifted(h, n, c); m in g && ChildOk(g, m, i)
  {
    LiftFacts(h, root, w, n, c);
    assert LinksOk(h, root, w, m);
    assert ChildOk(h, m, i);
    LiftedEntry(h, n, c, m);
    var d := h[m].child.At(i);
    if d != null {
      LiftedEntry(h, n, c, d);
    }
  }

  lemma LiftedChildOk(h: Heap, root: TrieEntry?, w: nat, n: TrieEntry, c: TrieEntry?, m: TrieEntry, i: nat)
    requires WfExcept(h, root, w, n) && n in h && OnlyChild(h, n, c)
    requires m in h && m != n && i <= 1
    requires c != null ==> c in h
    requires var p := h[n].parent; p != null ==> p in h && p != c && h[n].bitType <= 1
    ensures var g := Lifted(h, n, c); m in g && ChildOk(g, m, i)
  {
    LiftFacts(h, root, w, n, c);
    var p, b := h[n].parent, h[n].bitType;
    assert LinksOk(h, root, w, m);
    LiftedEntry(h, n, c, m);
    if m == p && i == b {
      LiftedSlotOk(h, root, w, n, c);
    } else {
      LiftedOtherChildOk(h, root, w, n, c, m, i);
    }
  }

  lemma LiftedParentOk(h: Heap, root: TrieEntry?, w: nat, n: TrieEntry, c: TrieEntry?, m: TrieEntry)
    requires WfExcept(h, root, w, n) && n in h && OnlyChild(h, n, c)
    requires m in h && m != n
    requires c != null ==> c in h
    requires var p := h[n].parent; p != null ==> p in h && p != c && h[n].bitType <= 1
    ensures m in Lifted(h, n, c) && ParentOk(Lifted(h, n, c), if h[n].parent == null then c else root, m)
  {
    LiftFacts(h, root, w, n, c);
    LiftedEntry(h, n, c, m);
    assert LinksOk(h, root, w, n) && ParentOk(h, root, n);
    if m == c {
      if h[n].parent != null {
        LiftedEntry(h, n, c, h[n].parent);
      }
    } else {
      LiftedOtherParentOk(h, root, w, n, c, m);
    }
  }

  /** The node keeps its parent, which may have lost another child. */
  lemma LiftedOtherParentOk(h: Heap, root: TrieEntry?, w: nat, n: TrieEntry, c: TrieEntry?, m: TrieEntry)
    requires WfExcept(h, root, w, n) && n in h && OnlyChild(h, n, c)
    requires m in h && m != n && m != c
    requires c != null ==> c in h
    requires var p := h[n].parent; p != null ==> p in h && p != c && h[n].bitType <= 1
    ensures m in Lifted(h, n, c) && ParentOk(Lifted(h, n, c), if h[n].parent == null then c else root, m)
  {
    LiftFacts(h, root, w, n, c);
    LiftedEntry(h, n, c, m);
    assert LinksOk(h, root, w, n) && ParentOk(h, root, n);
    assert LinksOk(h, root, w, m) && ParentOk(h, root, m);
    var q := h[m].parent;
    if q != null {
      assert q != n;
      LiftedEntry(h, n, c, q);
      assert q == h[n].parent ==> h[m].bitType != h[n].bitType;
    }
  }

  lemma LiftedLinksOk(h: Heap, root: TrieEntry?, w: nat, n: TrieEntry, c: TrieEntry?, m: TrieEntry)
    requires WfExcept(h, root, w, n) && n in h && OnlyChild(h, n, c)
    requires m in h && m != n
    requires c != null ==> c in h
    requires var p := h[n].parent; p != null ==> p in h && p != c && h[n].bitType <= 1
    ensures m in Lifted(h, n, c) && LinksOk(Lifted(h, n, c), if h[n].parent == null then c else root, w, m)
  {
    LiftFacts(h, root, w, n, c);
    LiftedChildOk(h, root, w, n, c, m, 0);
    LiftedChildOk(h, root, w, n, c, m, 1);
    LiftedParentOk(h, root, w, n, c, m);
    assert LinksOk(h, root, w, m);
  }

  /** `g` has no node that `h` has not, and its nodes keep their prefix and peer. */
  ghost predicate Shrunk(h: Heap, g: Heap) {
    forall x :: x in g ==> x in h && g[x].Key() == h[x].Key() && g[x].peer == h[x].peer
  }

  lemma LiftShrinks(h: Heap, n: TrieEntry, c: TrieEntry?)
    requires n in h && (c != null ==> c in h && c != n)
    requires var p := h[n].parent; p != null ==> p in h && p != c && p != n && h[n].bitType <= 1
    ensures Shrunk(h, Lifted(h, n, c))
  {
  }

  /** Lifting leaves at most the old parent ill-formed, and only if it had no peer and lost a child. */
  lemma LiftWf(h: Heap, root: TrieEntry?, w: nat, n: TrieEntry, c: TrieEntry?)
    requires WfExcept(h, root, w, n) && n in h && OnlyChild(h, n, c)
    ensures
      var p := h[n].parent;
      && (c != null ==> c in h) && (p != null ==> p in h && p != c && h[n].bitType <= 1)
      && var g := Lifted(h, n, c);
         && WfExcept(g, if p == null then c else root, w, p)
         && (c != null || p == null || h[p].peer != null ==> Wf(g, if p == null then c else root, w))
  {
    LiftFacts(h, root, w, n, c);
    var p := h[n].parent;
    var g := Lifted(h, n, c);
    var top := if p == null then c else root;
    forall m | m in g
      ensures LinksOk(g, top, w, m)
      ensures m != p || c != null || h[m].peer != null ==> NodeOk(g, top, w, m)
    {
      LiftedLinksOk(h, root, w, n, c, m);
      assert NodeOk(h, root, w, m);
    }
    LiftRootOk(h, root, w, n, c);
  }

  lemma LiftRootOk(h: Heap, root: TrieEntry?, w: nat, n: TrieEntry, c: TrieEntry?)
    requires WfExcept(h, root, w, n) && n in h && OnlyChild(h, n, c)
    requires c != null ==> c in h
    requires var p := h[n].parent; p != null ==> p in h && p != c && h[n].bitType <= 1
    ensures RootOk(Lifted(h, n, c), if h[n].parent == null then c else root, w)
  {
    LiftFacts(h, root, w, n, c);
    assert LinksOk(h, root, w, n);
    if h[n].parent != null {
      assert LinksOk(h, root, w, h[n].parent);
      assert root != n && root in h;
      assert LinksOk(h, root, w, root);
    } else if c == null {
      forall m | m in h
        ensures m == n
      {
        OnlyRootLeft(h, root, w, m);
      }
    }
  }

  /** A root without children is alone. */
  lemma {:induction false} OnlyRootLeft(h: Heap, root: TrieEntry?, w: nat, m: TrieEntry)
    requires root != null && WfExcept(h, root, w, root) && m in h && h[root].child == NO_CHILDREN
    ensures m == root
    decreases h[m].cidr
  {
    assert LinksOk(h, root, w, m);
    if m != root {
      var p := h[m].parent;
      assert LinksOk(h, root, w, p);
      assert ChildOk(h, p, h[m].bitType);
      OnlyRootLeft(h, root, w, p);
    }
  }

  /** A node with two children only loses its peer. */
  lemma DisownedWf(h: Heap, root: TrieEntry?, w: nat, n: TrieEntry)
    requires Wf(h, root, w) && n in h
    ensures var g := h[n := h[n].(peer := null)];
      && WfExcept(g, root, w, n)
      && (h[n].child.At(0) != null && h[n].child.At(1) != null ==> Wf(g, root, w))
  {
    var g := h[n := h[n].(peer := null)];
    forall x | x in h
      ensures LinksOk(g, root, w, x)
      ensures x != n || (h[n].child.At(0) != null && h[n].child.At(1) != null) ==> NodeOk(g, root, w, x)
    {
      assert NodeOk(h, root, w, x);
    }
  }

  /** A removal that drops one owned node, and otherwise only peer-less ones, drops one entry. */
  lemma RepresentsRemove(h: Heap, root: TrieEntry?, w: nat, g: Heap, m: Table, n: TrieEntry, k: Prefix)
    requires Wf(h, root, w) && Represents(h, m) && Holds(h, k, n)
    requires forall x :: x in g ==> x in h && g[x].Key() == h[x].Key() && (g[x].peer == h[x].peer || x == n)
    requires n in g ==> g[n].peer == null
    requires forall x :: x in h && x != n && h[x].peer != null ==> x in g
    ensures Represents(g, m - {k})
  {
    forall j {:trigger HasOwner(g, j)} | j in m - {k}
      ensures HasOwner(g, j)
    {
      assert HasOwner(h, j);
      var x :| x in h && Holds(h, j, x);
      assert Holds(g, j, x);
    }
    forall x | x in g && g[x].peer != null
      ensures g[x].Key() in m - {k} && (m - {k})[g[x].Key()] == g[x].peer
    {
      if g[x].Key() == k {
        SameKeySameNode(h, root, w, x, n);
      }
    }
  }

  /** No owned node but `n` is dropped. */
  ghost predicate KeepsOwned(h: Heap, g: Heap, n: TrieEntry) {
    forall x :: x in h && x != n && h[x].peer != null ==> x in g
  }

  /** The owner of `n` is gone, and then at most `n` and one peer-less node. */
  lemma RemovedEntry(h: Heap, root: TrieEntry?, w: nat, g: Heap, m: Table, n: TrieEntry, join: TrieEntry?)
    requires Wf(h, root, w) && Represents(h, m) && n in h && h[n].peer != null
    requires Shrunk(h[n := h[n].(peer := null)], g)
    requires h.Keys - {n} - (if join == null then {} else {join}) <= g.Keys
    requires join != null ==> join in h && (h[join].peer == null || join == n)
    ensures Represents(g, m - {h[n].Key()}) && KeepsOwned(h, g, n)
  {
    forall x | x in h && x != n && h[x].peer != null
      ensures x in g
    {
      assert x in h.Keys - {n} - (if join == null then {} else {join});
    }
    RepresentsRemove(h, root, w, g, m, n, h[n].Key());
  }
}
