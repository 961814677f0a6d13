/** Why the two cursor loops of device/allowedips.go, `nodePlacement` and `lookup`, stop at the right
    node. */
module TrieSearch {
  import opened AddressBits
  import opened TrieHeap

  // ---------------------------------------------------------------------------------------------
  // nodePlacement
  // ---------------------------------------------------------------------------------------------

  /** The cursor of `NodePlacement`: `node` hangs below `parent`, the last shorter node on the path. */
  ghost predicate OnPath(h: Heap, root: TrieEntry?, w: nat, parent: TrieEntry?, node: TrieEntry?, ip: seq<bool>, cidr: nat) {
    && Wf(h, root, w) && |ip| == w && cidr <= w
    && (parent != null ==> parent in h && h[parent].cidr < cidr && Covers(h[parent].Key(), ip))
    && node == Below(h, root, w, parent, ip)
    && (node != null ==> node in h && |h[node].bits| == w && h[node].cidr <= w)
  }

  lemma OnPathAtRoot(h: Heap, root: TrieEntry?, w: nat, ip: seq<bool>, cidr: nat)
    requires Wf(h, root, w) && |ip| == w && cidr <= w
    ensures OnPath(h, root, w, null, root, ip, cidr)
  {
    if root != null {
      assert NodeOk(h, root, w, root);
    }
  }

  lemma OnPathStep(h: Heap, root: TrieEntry?, w: nat, parent: TrieEntry?, node: TrieEntry, ip: seq<bool>, cidr: nat)
    requires OnPath(h, root, w, parent, node, ip, cidr) && Covers(h[node].Key(), ip) && h[node].cidr <= cidr
    ensures h[node].cidr == cidr ==> h[node].Key() == Prefix(Mask(ip, cidr), cidr)
    ensures h[node].cidr < cidr ==>
      && var next := h[node].child.At(Bit(ip, h[node].cidr));
         OnPath(h, root, w, node, next, ip, cidr) && (next != null ==> h[node].cidr < h[next].cidr)
  {
    assert NodeOk(h, root, w, node);
    if h[node].cidr == cidr {
      MaskEqual(h[node].bits, ip, cidr);
    } else {
      var bit := Bit(ip, h[node].cidr);
      assert ChildOk(h, node, bit);
    }
  }

  /** The loop guard is containment. */
  lemma CoversIff(k: Prefix, ip: seq<bool>)
    requires |k.bits| == |ip| && AddressLength(|ip|) && k.cidr <= |ip|
    ensures CommonBits(k.bits, ip) >= k.cidr <==> Covers(k, ip)
  {
  }

  // ---------------------------------------------------------------------------------------------
  // lookup
  // ---------------------------------------------------------------------------------------------

  /** A matching node longer than the last one visited lies at or below the next one. */
  ghost predicate Ahead(h: Heap, last: TrieEntry?, node: TrieEntry?, ip: seq<bool>) {
    && (last != null ==> last in h)
    && (node != null ==> node in h && (last != null ==> h[last].cidr < h[node].cidr))
    && forall n {:trigger Covers(h[n].Key(), ip)} :: n in h && Covers(h[n].Key(), ip) && (last == null || h[n].cidr > h[last].cidr) ==>
         node != null && Covers(h[node].Key(), ip) && h[node].cidr <= h[n].cidr
  }

  /** No owned matching node among those visited is longer than the best so far. */
  ghost predicate BestSoFar(h: Heap, last: TrieEntry?, best: TrieEntry?, ip: seq<bool>) {
    && (last != null ==> last in h)
    && (best != null ==> best in h && h[best].peer != null && Covers(h[best].Key(), ip) &&
                         last != null && h[best].cidr <= h[last].cidr)
    && forall n {:trigger Covers(h[n].Key(), ip)} :: n in h && Covers(h[n].Key(), ip) && h[n].peer != null && last != null && h[n].cidr <= h[last].cidr ==>
         best != null && h[n].cidr <= h[best].cidr
  }

  lemma AheadAtRoot(h: Heap, root: TrieEntry?, w: nat, ip: seq<bool>)
    requires Wf(h, root, w) && |ip| == w
    ensures Ahead(h, null, root, ip)
  {
    forall n | n in h && Covers(h[n].Key(), ip)
      ensures root != null && Covers(h[root].Key(), ip) && h[root].cidr <= h[n].cidr
    {
      RootAbove(h, root, w, n);
    }
  }

  lemma AheadStep(h: Heap, root: TrieEntry?, w: nat, node: TrieEntry, ip: seq<bool>)
    requires Wf(h, root, w) && |ip| == w && node in h && Covers(h[node].Key(), ip)
    ensures h[node].cidr == w ==> Ahead(h, node, null, ip)
    ensures h[node].cidr < w ==>
      var c := h[node].child.At(Bit(ip, h[node].cidr));
      Ahead(h, node, c, ip) && (c != null ==> h[node].cidr < h[c].cidr)
  {
    assert NodeOk(h, root, w, node);
    forall n | n in h && Covers(h[n].Key(), ip) && h[n].cidr > h[node].cidr
      ensures h[node].cidr < w
      ensures var c := h[node].child.At(Bit(ip, h[node].cidr));
        c != null && c in h && Covers(h[c].Key(), ip) && h[c].cidr <= h[n].cidr
    {
      Path(h, root, w, node, n, ip);
    }
  }

  lemma BestStep(h: Heap, root: TrieEntry?, w: nat, last: TrieEntry?, node: TrieEntry, best: TrieEntry?, ip: seq<bool>)
    requires Wf(h, root, w) && |ip| == w && node in h && Covers(h[node].Key(), ip)
    requires Ahead(h, last, node, ip) && BestSoFar(h, last, best, ip)
    ensures BestSoFar(h, node, if h[node].peer != null then node else best, ip)
  {
    var now := if h[node].peer != null then node else best;
    assert best != null ==> h[best].cidr <= h[node].cidr;
    forall n | n in h && Covers(h[n].Key(), ip) && h[n].peer != null && h[n].cidr <= h[node].cidr
      ensures now != null && h[n].cidr <= h[now].cidr
    {
      if last == null || h[n].cidr > h[last].cidr {
        PathTwins(h, root, w, n, node, ip);
      }
    }
  }

  /** The invariant of the lookup loop. */
  ghost predicate Searching(h: Heap, root: TrieEntry?, w: nat, last: TrieEntry?, node: TrieEntry?, best: TrieEntry?, ip: seq<bool>) {
    && Wf(h, root, w) && |ip| == w
    && Ahead(h, last, node, ip) && BestSoFar(h, last, best, ip)
    && (node != null ==> node in h && |h[node].bits| == w && h[node].cidr <= w)
  }

  lemma SearchAtRoot(h: Heap, root: TrieEntry?, w: nat, ip: seq<bool>)
    requires Wf(h, root, w) && |ip| == w
    ensures Searching(h, root, w, null, root, null, ip)
  {
    AheadAtRoot(h, root, w, ip);
    if root != null {
      assert NodeOk(h, root, w, root);
    }
  }

  lemma SearchStep(h: Heap, root: TrieEntry?, w: nat, last: TrieEntry?, node: TrieEntry, best: TrieEntry?, ip: seq<bool>)
    requires Searching(h, root, w, last, node, best, ip) && Covers(h[node].Key(), ip)
    ensures
      var next := if h[node].cidr < w then h[node].child.At(Bit(ip, h[node].cidr)) else null;
      Searching(h, root, w, node, next, if h[node].peer != null then node else best, ip)
  {
    BestStep(h, root, w, last, node, best, ip);
    AheadStep(h, root, w, node, ip);
    assert NodeOk(h, root, w, node);
  }

  lemma LookupAnswer(h: Heap, root: TrieEntry?, w: nat, m: Table, last: TrieEntry?, node: TrieEntry?, best: TrieEntry?, ip: seq<bool>)
    requires Searching(h, root, w, last, node, best, ip) && Represents(h, m)
    requires node == null || !Covers(h[node].Key(), ip)
    ensures IsLongestMatch(m, ip, if best == null then null else h[best].peer)
  {
    forall k | k in m && Covers(k, ip)
      ensures best != null && k.cidr <= h[best].cidr
    {
      assert HasOwner(h, k);
      var n :| n in h && Holds(h, k, n);
      assert Covers(h[n].Key(), ip);
    }
    if best != null {
      assert IsLongest(m, ip, h[best].Key());
    }
  }
}
