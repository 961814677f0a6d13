/** The anti-replay window of replay/replay.go, an implementation of RFC 6479, section 2.

    A `Filter` is a ring of 128 blocks of 64 bits.  Its specification does not mention the ring:
    it is the history of requests since the last reset, and `Fresh` says from that history alone
    which request must be let through. */
module Replay {
  import opened Words

  const BLOCK_BITS := 64
  const RING_BLOCKS := 128
  const WINDOW_SIZE := 8128  // (RING_BLOCKS - 1) * BLOCK_BITS

  type Block = bv64

  datatype Request = Request(counter: uint64, limit: uint64)

  // ---------------------------------------------------------------------------------------------
  // What a replay filter is for, said without a ring
  // ---------------------------------------------------------------------------------------------

  /** The counters a perfect filter has let through after seeing `history`. */
  ghost function Accepted(history: seq<Request>): set<int>
    decreases |history|, 0
  {
    if history == [] then {}
    else
      var before, r := history[..|history| - 1], history[|history| - 1];
      if Fresh(before, r) then Accepted(before) + {r.counter} else Accepted(before)
  }

  /** The largest counter let through so far, or 0. */
  ghost function Highest(history: seq<Request>): int
    decreases |history|, 0
  {
    if history == [] then 0
    else
      var before, r := history[..|history| - 1], history[|history| - 1];
      if Fresh(before, r) && r.counter > Highest(before) then r.counter else Highest(before)
  }

  /** Never let through before, below the limit, and not too far behind the largest. */
  ghost predicate Fresh(history: seq<Request>, r: Request)
    decreases |history|, 1
  {
    && r.counter < r.limit
    && Highest(history) - r.counter <= WINDOW_SIZE
    && r.counter !in Accepted(history)
  }

  lemma {:induction false} HighestIsMaximum(history: seq<Request>)
    ensures forall c :: c in Accepted(history) ==> 0 <= c <= Highest(history)
    ensures Accepted(history) == {} ==> Highest(history) == 0
    ensures Accepted(history) != {} ==> Highest(history) in Accepted(history)
    ensures 0 <= Highest(history) < 0x1_0000_0000_0000_0000
  {
    if history != [] {
      HighestIsMaximum(history[..|history| - 1]);
    }
  }

  lemma {:induction false} AcceptedGrows(history: seq<Request>, i: nat)
    requires i <= |history|
    ensures Accepted(history[..i]) <= Accepted(history)
  {
    if i < |history| {
      var before := history[..|history| - 1];
      AcceptedGrows(before, i);
      assert before[..i] == history[..i];
    } else {
      assert history[..i] == history;
    }
  }

  /** No counter is let through twice in a run. */
  lemma NeverTwice(history: seq<Request>, i: nat, j: nat)
    requires i < j < |history|
    requires Fresh(history[..i], history[i]) && Fresh(history[..j], history[j])
    ensures history[i].counter != history[j].counter
  {
    assert history[..i + 1][..i] == history[..i];
    assert history[i].counter in Accepted(history[..i + 1]);
    assert history[..j][..i + 1] == history[..i + 1];
    AcceptedGrows(history[..j], i + 1);
  }

  /** A sender that never repeats a counter and whose packets are reordered by no more than the
      window loses none of them: a counter that no earlier request carried is refused only for being
      over the limit or too old. */
  lemma {:induction false} NewCounterRefusedOnlyForAge(history: seq<Request>, r: Request)
    requires forall i :: 0 <= i < |history| ==> history[i].counter != r.counter
    ensures Fresh(history, r) <==> r.counter < r.limit && Highest(history) - r.counter <= WINDOW_SIZE
  {
    AcceptedWasRequested(history);
  }

  lemma {:induction false} AcceptedWasRequested(history: seq<Request>)
    ensures forall c :: c in Accepted(history) ==> exists i :: 0 <= i < |history| && history[i].counter == c
  {
    if history != [] {
      var before := history[..|history| - 1];
      AcceptedWasRequested(before);
      forall c | c in Accepted(history)
        ensures exists i :: 0 <= i < |history| && history[i].counter == c
      {
        if c in Accepted(before) {
          var i :| 0 <= i < |before| && before[i].counter == c;
          assert history[i].counter == c;
        } else {
          assert history[|history| - 1].counter == c;
        }
      }
    }
  }

  // ---------------------------------------------------------------------------------------------
  // Bits of a block
  // ---------------------------------------------------------------------------------------------

  function BitIndex(k: nat): (r: bv64)
    requires k < BLOCK_BITS
    ensures r < 64
  {
    Narrow(k) as bv64
  }

  function Narrow(k: nat): (r: bv7)
    requires k < BLOCK_BITS
    ensures r as nat == k && r < 64
  {
    k as bv7
  }

  predicate IsSet(b: Block, k: bv64)
    requires k < 64
  {
    (b >> k) & 1 == 1
  }

  predicate BitSet(b: Block, k: nat)
    requires k < BLOCK_BITS
  {
    IsSet(b, BitIndex(k))
  }

  lemma BitIndexInjective(j: nat, k: nat)
    requires j < BLOCK_BITS && k < BLOCK_BITS
    ensures BitIndex(j) == BitIndex(k) <==> j == k
  {
    WideningInjective(Narrow(j), Narrow(k));
  }

  lemma WideningInjective(x: bv7, y: bv7)
    ensures x as bv64 == y as bv64 <==> x == y
  {
  }

  lemma OrSetsOneBit(b: Block, j: bv64, k: bv64)
    requires j < 64 && k < 64
    ensures IsSet(b | (1 << k), j) <==> j == k || IsSet(b, j)
  {
  }

  lemma OrChangesUnsetBit(b: Block, k: bv64)
    requires k < 64
    ensures b == b | (1 << k) <==> IsSet(b, k)
  {
  }

  /** The bits of a block, least significant first. */
  ghost function Bits(b: Block): (bits: seq<bool>)
    ensures |bits| == BLOCK_BITS
  {
    seq(BLOCK_BITS, k requires 0 <= k < BLOCK_BITS => BitSet(b, k))
  }

  ghost function View(blocks: seq<Block>): (view: seq<seq<bool>>)
    ensures |view| == |blocks|
    ensures forall i :: 0 <= i < |view| ==> view[i] == Bits(blocks[i]) && |view[i]| == BLOCK_BITS
  {
    seq(|blocks|, i requires 0 <= i < |blocks| => Bits(blocks[i]))
  }

  function WithBit(b: Block, k: nat): Block
    requires k < BLOCK_BITS
  {
    b | (1 << BitIndex(k))
  }

  lemma NoBitOfZero(k: bv64)
    requires k < 64
    ensures !IsSet(0, k)
  {
  }

  lemma EmptyBlock()
    ensures forall k :: 0 <= k < BLOCK_BITS ==> !Bits(0)[k]
  {
    forall k | 0 <= k < BLOCK_BITS
      ensures !Bits(0)[k]
    {
      NoBitOfZero(BitIndex(k));
    }
  }

  lemma OneBitWithBit(b: Block, j: nat, k: nat)
    requires j < BLOCK_BITS && k < BLOCK_BITS
    ensures BitSet(WithBit(b, k), j) <==> j == k || BitSet(b, j)
  {
    BitIndexInjective(j, k);
    OrSetsOneBit(b, BitIndex(j), BitIndex(k));
  }

  lemma BitsWithBit(b: Block, k: nat)
    requires k < BLOCK_BITS
    ensures Bits(WithBit(b, k)) == Bits(b)[k := true]
  {
    forall j | 0 <= j < BLOCK_BITS
      ensures Bits(WithBit(b, k))[j] == Bits(b)[k := true][j]
    {
      OneBitWithBit(b, j, k);
    }
  }

  lemma WithBitChanges(b: Block, k: nat)
    requires k < BLOCK_BITS
    ensures WithBit(b, k) != b <==> !Bits(b)[k]
  {
    OrChangesUnsetBit(b, BitIndex(k));
  }

  // ---------------------------------------------------------------------------------------------
  // The ring
  // ---------------------------------------------------------------------------------------------

  /** The ring slot of block number `b`. */
  function SlotOf(b: nat): (slot: nat)
    ensures slot < RING_BLOCKS
  {
    b % 128
  }

  /** The counters whose block is in the ring when `last` is the largest counter let through. */
  predicate Held(last: int, c: int) {
    0 <= c && c / 64 <= last / 64 < c / 64 + RING_BLOCKS
  }

  /** Every bit of a held block says whether its counter was let through.  Nothing is said about
      the other slots: after a reset they keep what they held before. */
  ghost predicate Tracks(blocks: seq<seq<bool>>, last: int, accepted: set<int>)
    requires Ring(blocks)
  {
    forall c {:trigger c in accepted} :: Held(last, c) ==>
      (blocks[SlotOf(c / 64)][c % 64] <==> c in accepted)
  }

  ghost predicate Ring(blocks: seq<seq<bool>>) {
    |blocks| == RING_BLOCKS && forall i :: 0 <= i < RING_BLOCKS ==> |blocks[i]| == BLOCK_BITS
  }

  lemma NearBlocksDiffer(b: nat, i: nat)
    requires b < i < b + RING_BLOCKS
    ensures SlotOf(b) != SlotOf(i)
  {
    var d := i - b;
    assert (b % 128 + d) % 128 == (b + d) % 128;
  }

  /** Two held counters share a block only when they have the same block number. */
  lemma SlotOwner(last: nat, c: int, d: int)
    requires Held(last, c) && Held(last, d)
    ensures SlotOf(c / 64) == SlotOf(d / 64) <==> c / 64 == d / 64
  {
    var b, e := c / 64, d / 64;
    if b < e {
      NearBlocksDiffer(b, e);
    } else if e < b {
      NearBlocksDiffer(e, b);
    }
  }

  /** A fresh filter, or one just reset: Block 0 is clear and nothing was let through. */
  lemma TracksNothing(blocks: seq<seq<bool>>)
    requires Ring(blocks) && blocks[0] == Bits(0)
    ensures Tracks(blocks, 0, {})
  {
    EmptyBlock();
  }

  /** Setting one held bit adds one counter; the bit was set before only if the counter was there. */
  lemma TracksOneMore(blocks: seq<seq<bool>>, last: nat, accepted: set<int>, counter: nat)
    requires Ring(blocks) && Tracks(blocks, last, accepted)
    requires Held(last, counter)
    ensures
      var slot := SlotOf(counter / 64);
      var more := blocks[slot := blocks[slot][counter % 64 := true]];
      Ring(more) && Tracks(more, last, accepted + {counter})
    ensures blocks[SlotOf(counter / 64)][counter % 64] <==> counter in accepted
  {
    var slot := SlotOf(counter / 64);
    var more := blocks[slot := blocks[slot][counter % 64 := true]];
    forall c | Held(last, c)
      ensures more[SlotOf(c / 64)][c % 64] <==> c in accepted + {counter}
    {
      SlotOwner(last, c, counter);
      assert blocks[SlotOf(c / 64)][c % 64] <==> c in accepted;
    }
  }

  /** Moving the window: the blocks above the old one were cleared, the others kept. */
  lemma TracksAfterAdvance(blocks: seq<seq<bool>>, moved: seq<seq<bool>>, last: nat, counter: nat, accepted: set<int>)
    requires Ring(blocks) && Ring(moved) && Tracks(blocks, last, accepted)
    requires last < counter
    requires forall c :: c in accepted ==> c <= last
    requires forall b :: last / 64 < b <= counter / 64 < b + RING_BLOCKS ==> moved[SlotOf(b)] == Bits(0)
    requires forall b :: 0 <= b <= last / 64 && counter / 64 < b + RING_BLOCKS ==> moved[SlotOf(b)] == blocks[SlotOf(b)]
    ensures Tracks(moved, counter, accepted)
  {
    forall c | Held(counter, c)
      ensures moved[SlotOf(c / 64)][c % 64] <==> c in accepted
    {
      EmptyBlock();
      if c / 64 > last / 64 {
        assert c > last;
      } else {
        assert Held(last, c);
        assert blocks[SlotOf(c / 64)][c % 64] <==> c in accepted;
      }
    }
  }

  class Filter {
    var last: uint64
    const ring: array<Block>
    ghost var history: seq<Request>

    ghost predicate Valid()
      reads this, ring
    {
      && ring.Length == RING_BLOCKS
      && last == Highest(history)
      && Tracks(View(ring[..]), last, Accepted(history))
    }

    constructor ()
      ensures Valid() && history == [] && fresh(ring)
    {
      last := 0;
      ring := new Block[RING_BLOCKS](_ => 0);
      history := [];
      new;
      TracksNothing(View(ring[..]));
    }

    /** Only block 0 is cleared. */
    method Reset()
      requires ring.Length == RING_BLOCKS
      modifies this, ring
      ensures Valid() && history == []
    {
      last := 0;
      ring[0] := 0;
      history := [];
      TracksNothing(View(ring[..]));
    }

    method ValidateCounter(counter: uint64, limit: uint64) returns (ok: bool)
      requires Valid()
      modifies this, ring
      ensures Valid()
      ensures history == old(history) + [Request(counter, limit)]
      ensures ok <==> Fresh(old(history), Request(counter, limit))
    {
      ghost var before := history;
      history := before + [Request(counter, limit)];
      assert history[..|history| - 1] == before;
      HighestIsMaximum(before);
      if counter >= limit {
        return false;
      }
      if counter > last {
        MoveTo(counter, Accepted(before));
      } else if last - counter > WINDOW_SIZE {
        return false;
      }
      ok := SetBit(counter, Accepted(before));
      assert Accepted(before) + {counter} == Accepted(history);
    }

    /** Moves the window so that it ends at a new largest counter. */
    method MoveTo(counter: uint64, ghost accepted: set<int>)
      requires ring.Length == RING_BLOCKS && last < counter && Tracks(View(ring[..]), last, accepted)
      requires forall c :: c in accepted ==> c <= last
      modifies this`last, ring
      ensures last == counter && Tracks(View(ring[..]), counter, accepted)
    {
      var current := last / 64;
      var diff := counter / 64 - current;
      if diff > RING_BLOCKS {
        diff := RING_BLOCKS;
      }
      ClearAfter(current, diff);
      TracksAfterAdvance(View(old(ring[..])), View(ring[..]), last, counter, accepted);
      last := counter;
    }

    /** Sets the bit of a counter in the window, and says whether it was clear. */
    method SetBit(counter: uint64, ghost accepted: set<int>) returns (changed: bool)
      requires ring.Length == RING_BLOCKS && Held(last, counter) && Tracks(View(ring[..]), last, accepted)
      modifies ring
      ensures Tracks(View(ring[..]), last, accepted + {counter})
      ensures changed <==> counter !in accepted
    {
      TracksOneMore(View(ring[..]), last, accepted, counter);
      var indexBlock := SlotOf(counter / 64);
      var indexBit := counter % 64;
      var oldBlock := ring[indexBlock];
      var newBlock := WithBit(oldBlock, indexBit);
      BitsWithBit(oldBlock, indexBit);
      WithBitChanges(oldBlock, indexBit);
      ghost var view := View(ring[..]);
      ring[indexBlock] := newBlock;
      assert View(ring[..]) == view[indexBlock := view[indexBlock][indexBit := true]];
      return oldBlock != newBlock;
    }

    /** The loop of the branch that moves the window forward. */
    method ClearAfter(current: nat, diff: nat)
      requires ring.Length == RING_BLOCKS && diff <= RING_BLOCKS
      modifies ring
      ensures forall b :: current < b && current + diff - RING_BLOCKS < b <= current + diff ==> ring[SlotOf(b)] == 0
      ensures diff == RING_BLOCKS ==> forall b: nat :: ring[SlotOf(b)] == 0
      ensures forall b :: 0 <= b <= current && current + diff < b + RING_BLOCKS ==>
                ring[SlotOf(b)] == old(ring[SlotOf(b)])
    {
      var i := current + 1;
      while i <= current + diff
        invariant current + 1 <= i <= current + diff + 1
        invariant forall b :: current < b < i ==> ring[SlotOf(b)] == 0
        invariant forall b :: 0 <= b <= current && i <= b + RING_BLOCKS ==> ring[SlotOf(b)] == old(ring[SlotOf(b)])
      {
        forall b | 0 <= b <= current && i < b + RING_BLOCKS
          ensures SlotOf(b) != SlotOf(i)
        {
          NearBlocksDiffer(b, i);
        }
        ring[SlotOf(i)] := 0;
        i := i + 1;
      }
      if diff == RING_BLOCKS {
        forall b: nat
          ensures ring[SlotOf(b)] == 0
        {
          CoveredByWholeTurn(current, b);
        }
      }
    }
  }

  /** Any 128 consecutive block numbers visit every slot. */
  lemma CoveredByWholeTurn(current: nat, b: nat)
    ensures exists e :: current < e <= current + RING_BLOCKS && SlotOf(e) == SlotOf(b)
  {
    var k := (b - current - 1) % 128;
    var e := current + 1 + k;
    assert SlotOf(e) == SlotOf(b);
  }
}
