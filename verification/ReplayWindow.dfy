/** Why the window of replay/replay.go has the size it has. */
module ReplayWindow {
  import opened Replay

  /** No counter within the window of the largest one has had to give its slot to another block. */
  ghost predicate WindowFits(window: nat) {
    forall last: nat, c: nat {:trigger OwnsSlot(last, c)} :: c <= last && last - c <= window ==> OwnsSlot(last, c)
  }

  /** The slot of the counter is not that of a later block, up to the one of `last`. */
  ghost predicate OwnsSlot(last: nat, c: nat) {
    forall b: nat {:trigger SlotOf(b)} :: c / 64 < b <= last / 64 ==> SlotOf(b) != SlotOf(c / 64)
  }

  /** The window is as large as the ring allows: one bit short of a whole turn of blocks. */
  lemma WindowIsLargest(window: nat)
    ensures WINDOW_SIZE == (RING_BLOCKS - 1) * BLOCK_BITS
    ensures WindowFits(window) <==> window <= WINDOW_SIZE
  {
    if window <= WINDOW_SIZE {
      forall last: nat, c: nat | c <= last && last - c <= window
        ensures OwnsSlot(last, c)
      {
        OwnsWithin(last, c);
      }
    } else {
      var last, c := 8192, 63;
      assert SlotOf(128) == SlotOf(0);
      assert !OwnsSlot(last, c);
    }
  }

  lemma OwnsWithin(last: nat, c: nat)
    requires c <= last && last - c <= WINDOW_SIZE
    ensures OwnsSlot(last, c)
  {
    forall b: nat | c / 64 < b <= last / 64
      ensures SlotOf(b) != SlotOf(c / 64)
    {
      NearBlocksDiffer(c / 64, b);
    }
  }
}
