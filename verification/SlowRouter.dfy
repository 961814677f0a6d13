/** The naive router that device/allowedips_rand_test.go checks the trie against: a list of prefixes,
    longest first.  The list and the trie mean the same map, so they give the same answers. */
module SlowRouter {
  import opened AddressBits
  import opened TrieHeap
  import opened AllowedIPs

  /** `bits` is stored as given, host bits included. */
  datatype SlowNode = SlowNode(peer: Peer, cidr: nat, bits: seq<bool>)

  type Router = seq<SlowNode>

  ghost predicate ValidNode(n: SlowNode, w: nat) {
    |n.bits| == w && n.cidr <= w
  }

  /** Sorted by length, longest first, with no two entries for one prefix. */
  ghost predicate ValidRouter(r: Router, w: nat) {
    && AddressLength(w)
    && (forall i :: 0 <= i < |r| ==> ValidNode(r[i], w))
    && (forall i, j :: 0 <= i < j < |r| ==> Before(r[i], r[j]))
  }

  ghost predicate Before(a: SlowNode, b: SlowNode) {
    a.cidr >= b.cidr && Key(a) != Key(b)
  }

  function Key(n: SlowNode): Prefix {
    Prefix(Mask(n.bits, n.cidr), n.cidr)
  }

  /** The test for the same prefix. */
  predicate Same(t: SlowNode, addr: seq<bool>, cidr: nat)
    requires |t.bits| == |addr| && (|addr| == IPV4_BITS || |addr| == IPV6_BITS)
  {
    t.cidr == cidr && CommonBits(t.bits, addr) >= cidr
  }

  /** The position of the entry for the prefix, or the length of the list. */
  method Find(r: Router, addr: seq<bool>, cidr: nat) returns (at: nat)
    requires ValidRouter(r, |addr|) && cidr <= |addr|
    ensures at <= |r|
    ensures at < |r| ==> Key(r[at]) == Prefix(Mask(addr, cidr), cidr)
    ensures at == |r| ==> forall i :: 0 <= i < |r| ==> Key(r[i]) != Prefix(Mask(addr, cidr), cidr)
  {
    at := 0;
    while at < |r| && !Same(r[at], addr, cidr)
      invariant at <= |r|
      invariant forall i :: 0 <= i < at ==> Key(r[i]) != Prefix(Mask(addr, cidr), cidr)
    {
      SameIsKey(r[at], addr, cidr);
      at := at + 1;
    }
    if at < |r| {
      SameIsKey(r[at], addr, cidr);
    }
  }

  lemma SameIsKey(t: SlowNode, addr: seq<bool>, cidr: nat)
    requires ValidNode(t, |addr|) && AddressLength(|addr|) && cidr <= |addr|
    ensures Same(t, addr, cidr) <==> Key(t) == Prefix(Mask(addr, cidr), cidr)
  {
    if t.cidr == cidr {
      MaskEqual(t.bits, addr, cidr);
    }
  }

  /** The place where sorting puts a new entry. */
  function Place(r: Router, cidr: nat): (at: nat)
    ensures at <= |r|
    ensures forall i :: 0 <= i < at ==> r[i].cidr >= cidr
    ensures at < |r| ==> r[at].cidr < cidr
  {
    if r == [] || r[0].cidr < cidr then 0
    else
      var at := 1 + Place(r[1..], cidr);
      assert forall i :: 1 <= i < at ==> r[i] == r[1..][i - 1];
      at
  }

  /** The map a router stands for. */
  ghost predicate Stands(r: Router, m: Table) {
    && (forall i :: 0 <= i < |r| ==> Key(r[i]) in m && m[Key(r[i])] == r[i].peer)
    && (forall k :: k in m ==> Listed(r, k))
  }

  ghost predicate Listed(r: Router, k: Prefix) {
    exists i :: 0 <= i < |r| && Key(r[i]) == k
  }

  method Insert(r: Router, addr: seq<bool>, cidr: nat, peer: Peer, ghost m: Table) returns (s: Router)
    requires ValidRouter(r, |addr|) && cidr <= |addr| && Stands(r, m)
    ensures ValidRouter(s, |addr|) && Stands(s, Apply(m, Op.Insert(addr, cidr, peer)))
  {
    var node := SlowNode(peer, cidr, addr);
    var at := Find(r, addr, cidr);
    if at < |r| {
      s := r[at := node];
      Replaced(r, at, node, m);
      ReplacedValid(r, at, node, |addr|);
    } else {
      var p := Place(r, cidr);
      s := r[..p] + [node] + r[p..];
      Spread(r, p, node, m);
      SpreadValid(r, p, node, |addr|);
    }
  }

  lemma Replaced(r: Router, at: nat, node: SlowNode, m: Table)
    requires at < |r| && Key(r[at]) == Key(node) && Stands(r, m)
    requires forall i, j :: 0 <= i < j < |r| ==> Before(r[i], r[j])
    ensures Stands(r[at := node], m[Key(node) := node.peer])
  {
    var s := r[at := node];
    forall i | 0 <= i < |s|
      ensures Key(s[i]) in m[Key(node) := node.peer] && m[Key(node) := node.peer][Key(s[i])] == s[i].peer
    {
      if i != at {
        assert if i < at then Before(r[i], r[at]) else Before(r[at], r[i]);
      }
    }
    forall k {:trigger Listed(s, k)} | k in m[Key(node) := node.peer]
      ensures Listed(s, k)
    {
      assert Listed(r, k);
      var i :| 0 <= i < |r| && Key(r[i]) == k;
      assert Key(s[i]) == k;
    }
  }

  lemma ReplacedValid(r: Router, at: nat, node: SlowNode, w: nat)
    requires ValidRouter(r, w) && ValidNode(node, w) && at < |r| && Key(r[at]) == Key(node)
    ensures ValidRouter(r[at := node], w)
  {
  }

  lemma SpreadValid(r: Router, p: nat, node: SlowNode, w: nat)
    requires ValidRouter(r, w) && ValidNode(node, w) && p == Place(r, node.cidr)
    requires forall i :: 0 <= i < |r| ==> Key(r[i]) != Key(node)
    ensures ValidRouter(r[..p] + [node] + r[p..], w)
  {
    forall i | 0 <= i < |r|
      ensures if i < p then Before(r[i], node) else Before(node, r[i])
    {
      assert p <= i ==> p == i || Before(r[p], r[i]);
    }
    SpreadBefore(r, p, node, r[..p] + [node] + r[p..], w);
  }

  lemma SpreadBefore(r: Router, p: nat, node: SlowNode, s: Router, w: nat)
    requires p <= |r| && s == r[..p] + [node] + r[p..] && ValidRouter(r, w) && ValidNode(node, w)
    requires forall i :: 0 <= i < |r| ==> if i < p then Before(r[i], node) else Before(node, r[i])
    ensures ValidRouter(s, w)
  {
    forall i | 0 <= i < |s|
      ensures ValidNode(s[i], w)
    {
      assert i != p ==> s[i] == r[if i < p then i else i - 1];
    }
    forall i, j | 0 <= i < j < |s|
      ensures Before(s[i], s[j])
    {
      assert i != p ==> s[i] == r[if i < p then i else i - 1];
      assert j != p ==> s[j] == r[if j < p then j else j - 1];
    }
  }

  lemma Spread(r: Router, p: nat, node: SlowNode, m: Table)
    requires p <= |r| && Stands(r, m) && forall i :: 0 <= i < |r| ==> Key(r[i]) != Key(node)
    ensures Stands(r[..p] + [node] + r[p..], m[Key(node) := node.peer])
  {
    var s := r[..p] + [node] + r[p..];
    assert s[p] == node;
    assert forall i :: 0 <= i < p ==> s[i] == r[i];
    assert forall i :: p < i < |s| ==> s[i] == r[i - 1];
    forall k {:trigger Listed(s, k)} | k in m[Key(node) := node.peer]
      ensures Listed(s, k)
    {
      if k == Key(node) {
        assert Key(s[p]) == k;
      } else {
        assert Listed(r, k);
        var i :| 0 <= i < |r| && Key(r[i]) == k;
        assert Key(s[if i < p then i else i + 1]) == k;
      }
    }
  }

  /** The first entry that contains the address is a longest one. */
  method Lookup(r: Router, addr: seq<bool>, ghost m: Table) returns (found: Peer?)
    requires ValidRouter(r, |addr|) && Stands(r, m)
    ensures IsLongestMatch(m, addr, found)
  {
    var i := 0;
    while i < |r|
      invariant i <= |r|
      invariant forall j :: 0 <= j < i ==> !Covers(Key(r[j]), addr)
    {
      CoversKey(r[i], addr);
      if CommonBits(r[i].bits, addr) >= r[i].cidr {
        FirstIsLongest(r, i, addr, m);
        return r[i].peer;
      }
      i := i + 1;
    }
    forall k | k in m
      ensures !Covers(k, addr)
    {
      assert Listed(r, k);
      var j :| 0 <= j < |r| && Key(r[j]) == k;
    }
    return null;
  }

  lemma CoversKey(n: SlowNode, addr: seq<bool>)
    requires ValidNode(n, |addr|) && AddressLength(|addr|)
    ensures CommonBits(n.bits, addr) >= n.cidr <==> Covers(Key(n), addr)
  {
  }

  lemma FirstIsLongest(r: Router, i: nat, addr: seq<bool>, m: Table)
    requires ValidRouter(r, |addr|) && Stands(r, m) && i < |r| && Covers(Key(r[i]), addr)
    requires forall j :: 0 <= j < i ==> !Covers(Key(r[j]), addr)
    ensures IsLongestMatch(m, addr, r[i].peer)
  {
    forall k | k in m && Covers(k, addr)
      ensures k.cidr <= r[i].cidr
    {
      assert Listed(r, k);
      var j :| 0 <= j < |r| && Key(r[j]) == k;
    }
    assert IsLongest(m, addr, Key(r[i]));
  }

  /** The entries of the other peers, in order. */
  function Others(r: Router, peer: Peer): Router {
    if r == [] then []
    else
      var last := r[|r| - 1];
      Others(r[..|r| - 1], peer) + (if last.peer != peer then [last] else [])
  }

  method RemoveByPeer(r: Router, peer: Peer, ghost m: Table, ghost w: nat) returns (s: Router)
    requires ValidRouter(r, w) && Stands(r, m)
    ensures ValidRouter(s, w) && Stands(s, Apply(m, Op.RemoveByPeer(peer)))
  {
    s := [];
    for i := 0 to |r|
      invariant s == Others(r[..i], peer)
    {
      assert r[..i + 1][..i] == r[..i];
      if r[i].peer != peer {
        s := s + [r[i]];
      }
    }
    assert r[..|r|] == r;
    OthersValid(r, peer, w);
    OthersStand(r, peer, m);
  }

  lemma {:induction false} OthersMember(r: Router, peer: Peer, x: SlowNode)
    ensures x in Others(r, peer) <==> x in r && x.peer != peer
  {
    if r != [] {
      OthersMember(r[..|r| - 1], peer, x);
      assert r == r[..|r| - 1] + [r[|r| - 1]];
    }
  }

  lemma {:induction false} OthersValid(r: Router, peer: Peer, w: nat)
    requires ValidRouter(r, w)
    ensures ValidRouter(Others(r, peer), w)
  {
    if r != [] {
      var rest, last := r[..|r| - 1], r[|r| - 1];
      OthersValid(rest, peer, w);
      var s := Others(rest, peer);
      forall i | 0 <= i < |s|
        ensures Before(s[i], last)
      {
        OthersMember(rest, peer, s[i]);
        var j :| 0 <= j < |rest| && rest[j] == s[i];
        assert Before(r[j], r[|r| - 1]);
      }
    }
  }

  lemma OthersListed(r: Router, peer: Peer, m: Table, k: Prefix)
    requires Stands(r, m) && k in m && m[k] != peer
    ensures Listed(Others(r, peer), k)
  {
    var s := Others(r, peer);
    assert Listed(r, k);
    var i :| 0 <= i < |r| && Key(r[i]) == k;
    OthersMember(r, peer, r[i]);
    var j :| 0 <= j < |s| && s[j] == r[i];
    assert Key(s[j]) == k;
  }

  lemma OthersStand(r: Router, peer: Peer, m: Table)
    requires Stands(r, m)
    ensures Stands(Others(r, peer), Apply(m, Op.RemoveByPeer(peer)))
  {
    var s, g := Others(r, peer), Apply(m, Op.RemoveByPeer(peer));
    forall i | 0 <= i < |s|
      ensures Key(s[i]) in g && g[Key(s[i])] == s[i].peer
    {
      OthersMember(r, peer, s[i]);
      var j :| 0 <= j < |r| && r[j] == s[i];
      assert Key(r[j]) in m;
    }
    forall k | k in g
      ensures Listed(s, k)
    {
      OthersListed(r, peer, m, k);
    }
  }

  /** A trie and a router that stand for the same map never disagree on an address. */
  lemma RoutersAgree(m: Table, w: nat, r: Router, addr: seq<bool>, slow: Peer?, fast: Peer?)
    requires ValidRouter(r, w) && Stands(r, m) && |addr| == w
    requires IsLongestMatch(m, addr, slow) && IsLongestMatch(m, addr, fast)
    ensures slow == fast
  {
    forall k | k in m
      ensures |k.bits| == w && k.cidr <= w && k.bits == Mask(k.bits, k.cidr)
    {
      assert Listed(r, k);
      var i :| 0 <= i < |r| && Key(r[i]) == k;
      MaskTwice(r[i].bits, r[i].cidr);
    }
    LongestMatchUnique(m, addr, slow, fast);
  }
}
