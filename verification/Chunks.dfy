/** Cutting a byte string into pieces of one size, the last one perhaps shorter. */
module Chunks {
  import opened Words

  type Bytes = seq<byte>

  function Cut(p: Bytes, size: nat): seq<Bytes>
    requires size > 0
  {
    if p == [] then [] else if |p| <= size then [p] else [p[..size]] + Cut(p[size..], size)
  }

  function Joined(pieces: seq<Bytes>): Bytes {
    if pieces == [] then [] else pieces[0] + Joined(pieces[1..])
  }

  lemma JoinedCons(a: Bytes, rest: seq<Bytes>)
    ensures Joined([a] + rest) == a + Joined(rest)
  {
    assert ([a] + rest)[1..] == rest;
  }

  lemma {:induction false} CutJoined(p: Bytes, size: nat)
    requires size > 0
    ensures Joined(Cut(p, size)) == p
  {
    if |p| > size {
      CutJoined(p[size..], size);
      JoinedCons(p[..size], Cut(p[size..], size));
    } else if p != [] {
      JoinedCons(p, []);
      assert [p] + [] == [p] && p + [] == p;
    }
  }

  lemma {:induction false} CutLength(p: Bytes, size: nat)
    requires size > 0
    ensures |Cut(p, size)| == (|p| + size - 1) / size
  {
    if p == [] {
      QuotientUnique(size - 1, size, 0, size - 1, (size - 1) / size, (size - 1) % size);
    } else if |p| <= size {
      QuotientUnique(|p| + size - 1, size, 1, |p| - 1, (|p| + size - 1) / size, (|p| + size - 1) % size);
    } else {
      DivOnce(|p| + size - 1, size);
      CutLength(p[size..], size);
    }
  }

  /** Every piece but the last one has full size. */
  lemma {:induction false} CutSizes(p: Bytes, size: nat, i: nat)
    requires size > 0 && i < |Cut(p, size)|
    ensures 0 < |Cut(p, size)[i]| <= size
    ensures i < |Cut(p, size)| - 1 ==> |Cut(p, size)[i]| == size
  {
    if |p| > size && i > 0 {
      CutSizes(p[size..], size, i - 1);
    }
  }

  /** The piece that starts at `at`, and the pieces after it. */
  lemma CutStep(p: Bytes, size: nat, at: nat)
    requires size > 0 && at < |p|
    ensures var end := if at + size > |p| then |p| else at + size;
      Cut(p[at..], size) == [p[at..end]] + Cut(p[end..], size)
  {
    if at + size < |p| {
      assert p[at..][..size] == p[at..at + size] && p[at..][size..] == p[at + size..];
    } else {
      assert p[at..] == p[at..|p|] && p[|p|..] == [];
    }
  }

  /** Whether the last piece has full size too. */
  predicate Full(p: Bytes, size: nat) {
    |p| == size || (|p| > size > 0 && Full(p[size..], size))
  }

  lemma {:induction false} CutAppend(p: Bytes, b: Bytes, size: nat)
    requires size > 0 && Full(p, size) && 0 < |b| <= size
    ensures Cut(p + b, size) == Cut(p, size) + [b]
    ensures Full(p + b, size) <==> |b| == size
  {
    if |p| == size {
      assert (p + b)[..size] == p && (p + b)[size..] == b;
    } else {
      assert (p + b)[..size] == p[..size] && (p + b)[size..] == p[size..] + b;
      CutAppend(p[size..], b, size);
    }
  }

  lemma CutPrepend(a: Bytes, p: Bytes, size: nat)
    requires 0 < |a| == size && p != []
    ensures Cut(a + p, size) == [a] + Cut(p, size)
  {
    assert (a + p)[..size] == a && (a + p)[size..] == p;
  }

  lemma {:induction false} FullLength(p: Bytes, size: nat)
    requires size > 0 && Full(p, size)
    ensures |p| == |Cut(p, size)| * size
  {
    if |p| > size {
      FullLength(p[size..], size);
      assert |Cut(p, size)| * size == |Cut(p[size..], size)| * size + size;
    }
  }

  lemma {:induction false} MultipleFull(p: Bytes, size: nat)
    requires size > 0 && p != [] && |p| % size == 0
    ensures Full(p, size)
  {
    if |p| < size {
      RemainderUnique(|p|, size, 0, |p|);
    } else if |p| > size {
      RemainderUnique(|p| - size, size, |p| / size - 1, 0);
      MultipleFull(p[size..], size);
    }
  }

  lemma {:induction false} CutCount(p: Bytes, size: nat)
    requires size > 0
    ensures |Cut(p, size)| <= |p|
  {
    if |p| > size {
      CutCount(p[size..], size);
    }
  }

  lemma OnePiece(p: Bytes, size: nat)
    requires size > 0 && p != []
    ensures |Cut(p, size)| == 1 <==> |p| <= size
  {
    if |p| > size {
      assert Cut(p[size..], size) != [];
    }
  }

  lemma RemainderUnique(a: nat, size: nat, q: nat, r: nat)
    requires size > 0 && a == q * size + r && r < size
    ensures a % size == r
  {
    QuotientUnique(a, size, q, r, a / size, a % size);
  }

  lemma DivOnce(a: nat, size: nat)
    requires 0 < size <= a
    ensures a / size == 1 + (a - size) / size
  {
    QuotientUnique(a, size, (a - size) / size + 1, (a - size) % size, a / size, a % size);
  }

  lemma QuotientUnique(a: int, size: int, q: int, r: int, q': int, r': int)
    requires a == q * size + r && a == q' * size + r' && 0 <= r < size && 0 <= r' < size
    ensures q == q'
  {
    if q < q' {
      AtLeastOnce(q' - q, size);
    } else if q > q' {
      AtLeastOnce(q - q', size);
    }
  }

  lemma AtLeastOnce(d: int, size: int)
    requires d >= 1 && size > 0
    ensures d * size >= size
  {
  }
}
