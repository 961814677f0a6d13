/** The Internet checksum of tun/checksum.go (RFC 1071).

    The reference is section 2 of the RFC: add the 16-bit big-endian words of the data, pad an odd
    last byte with zero, and fold the carries back until the sum fits 16 bits.  The implementation
    adds 64-bit words in the machine's own byte order, chains the carries, and folds exactly four
    times. */
module Checksum {
  import opened Words

  // ---------------------------------------------------------------------------------------------
  // The reference
  // ---------------------------------------------------------------------------------------------

  /** The plain integer sum of the big-endian 16-bit words of `b`. */
  function WordSum(b: seq<byte>): nat {
    if b == [] then 0
    else if |b| == 1 then b[0] * 0x100
    else BigUint16(b[..2]) + WordSum(b[2..])
  }

  function Fold(x: nat): nat {
    x / 0x1_0000 + x % 0x1_0000
  }

  /** Fold until the sum fits 16 bits. */
  function FoldAll(x: nat): (r: uint16) {
    if x < 0x1_0000 then x else FoldAll(Fold(x))
  }

  /** The sum that RFC 1071 prescribes, before the final complement. */
  function Reference(b: seq<byte>, initial: nat): uint16 {
    FoldAll(initial + WordSum(b))
  }

  // ---------------------------------------------------------------------------------------------
  // One's-complement arithmetic
  // ---------------------------------------------------------------------------------------------

  /** The 16-bit one's-complement value of a sum.  Only 0 itself has value 0: 0xffff keeps 0xffff. */
  function Value(x: nat): (v: uint16) {
    if x <= 0xffff then x else Value(x - 0xffff)
  }

  ghost predicate SameSum(a: nat, b: nat) {
    Value(a) == Value(b)
  }

  lemma {:induction false} ValueOfMultiple(x: nat, k: nat)
    requires x > 0
    ensures Value(x + 0xffff * k) == Value(x)
  {
    if k > 0 {
      ValueOfMultiple(x, k - 1);
      assert x + 0xffff * k - 0xffff == x + 0xffff * (k - 1);
    }
  }

  lemma SameSumBy(a: nat, b: nat, k: nat)
    requires a == b + 0xffff * k
    requires b > 0 || k == 0
    ensures SameSum(a, b)
  {
    if k > 0 {
      ValueOfMultiple(b, k);
    }
  }

  lemma {:induction false} ValueOfSum(a: nat, c: nat)
    ensures Value(a + c) == Value(Value(a) + c)
  {
    if a > 0xffff {
      ValueOfSum(a - 0xffff, c);
    }
  }

  lemma SameSumAdd(a: nat, b: nat, c: nat, d: nat)
    requires SameSum(a, b) && SameSum(c, d)
    ensures SameSum(a + c, b + d)
  {
    ValueOfSum(a, c);
    ValueOfSum(b, c);
    ValueOfSum(c, b);
    ValueOfSum(d, b);
  }

  lemma {:induction false} ValueOfShift(a: nat)
    ensures Value(0x100 * a) == Value(0x100 * Value(a))
  {
    if a > 0xffff {
      ValueOfShift(a - 0xffff);
      SameSumBy(0x100 * a, 0x100 * (a - 0xffff), 0x100);
    }
  }

  lemma SameSumShift(a: nat, b: nat)
    requires SameSum(a, b)
    ensures SameSum(0x100 * a, 0x100 * b)
  {
    ValueOfShift(a);
    ValueOfShift(b);
  }

  lemma FoldKeepsSum(x: nat)
    ensures SameSum(Fold(x), x)
  {
    var hi, lo := x / 0x1_0000, x % 0x1_0000;
    assert x == hi * 0x1_0000 + lo;
    SameSumBy(x, Fold(x), hi);
  }

  /** Folding to the end computes the one's-complement value. */
  lemma {:induction false} FoldAllIsValue(x: nat)
    ensures FoldAll(x) == Value(x)
  {
    if x >= 0x1_0000 {
      FoldKeepsSum(x);
      FoldAllIsValue(Fold(x));
    }
  }

  // ---------------------------------------------------------------------------------------------
  // Byte order independence
  // ---------------------------------------------------------------------------------------------

  /** The sum of the 16-bit words of `b` in the machine's own byte order. */
  ghost function NativeSum(e: Endian, b: seq<byte>): nat {
    if b == [] then 0
    else if |b| == 1 then NativeUint16(e, [b[0], 0])
    else NativeUint16(e, b[..2]) + NativeSum(e, b[2..])
  }

  lemma {:induction false} NativeSumConcat(e: Endian, a: seq<byte>, b: seq<byte>)
    requires |a| % 2 == 0
    ensures NativeSum(e, a + b) == NativeSum(e, a) + NativeSum(e, b)
  {
    if a == [] {
      assert a + b == b;
    } else {
      assert (a + b)[..2] == a[..2] && (a + b)[2..] == a[2..] + b;
      NativeSumConcat(e, a[2..], b);
    }
  }

  /** What reading in the wrong byte order does to a sum: on a little-endian machine it multiplies
      by 0x100, and doing it twice changes nothing. */
  ghost function Scaled(e: Endian, x: nat): nat {
    if e.Big? then x else 0x100 * x
  }

  lemma ScaledTwice(e: Endian, x: nat)
    ensures SameSum(Scaled(e, Scaled(e, x)), x)
  {
    if e.Little? {
      SameSumBy(0x100 * (0x100 * x), x, x);
    }
  }

  lemma ScaledSameSum(e: Endian, x: nat, y: nat)
    requires SameSum(x, y)
    ensures SameSum(Scaled(e, x), Scaled(e, y))
  {
    SameSumShift(x, y);
  }

  lemma {:induction false} NativeSumScaled(e: Endian, b: seq<byte>)
    ensures SameSum(Scaled(e, NativeSum(e, b)), WordSum(b))
  {
    if |b| >= 2 {
      NativeSumScaled(e, b[2..]);
      if e.Little? {
        SameSumBy(0x100 * NativeUint16(e, b[..2]), BigUint16(b[..2]), b[1]);
      }
      SameSumAdd(Scaled(e, NativeUint16(e, b[..2])), BigUint16(b[..2]),
                 Scaled(e, NativeSum(e, b[2..])), WordSum(b[2..]));
    }
  }

  lemma NativeSum4(e: Endian, b: seq<byte>)
    requires |b| == 4
    ensures SameSum(NativeUint32(e, b), NativeSum(e, b))
  {
    var lo, hi := b[..2], b[2..];
    assert hi[..2] == hi && hi[2..] == [];
    assert NativeSum(e, hi) == NativeUint16(e, hi);
    SameSumBy(NativeUint32(e, b), NativeSum(e, b), NativeUint16(e, if e.Big? then lo else hi));
  }

  lemma NativeSum8(e: Endian, b: seq<byte>)
    requires |b| == 8
    ensures SameSum(NativeUint64(e, b), NativeSum(e, b))
  {
    var lo, hi := b[..4], b[4..];
    assert b == lo + hi;
    NativeSumConcat(e, lo, hi);
    NativeSum4(e, lo);
    NativeSum4(e, hi);
    SameSumAdd(NativeUint32(e, lo), NativeSum(e, lo), NativeUint32(e, hi), NativeSum(e, hi));
    var top: nat := NativeUint32(e, if e.Big? then lo else hi);
    SameSumBy(NativeUint64(e, b), NativeUint32(e, lo) + NativeUint32(e, hi), 0x1_0001 * top);
  }

  /** Writing a word in native order and reading it back big-endian. */
  function Swap(e: Endian, x: uint64): uint64 {
    BigUint64(PutNativeUint64(e, x))
  }

  lemma SwapScales(e: Endian, x: uint64)
    ensures SameSum(Swap(e, x), Scaled(e, x))
  {
    var b := PutNativeUint64(e, x);
    NativeSum8(Big, b);
    NativeSum8(e, b);
    BigSumIsWordSum(b);
    NativeSumScaled(e, b);
    ScaledSameSum(e, x, NativeSum(e, b));
  }

  lemma {:induction false} BigSumIsWordSum(b: seq<byte>)
    ensures NativeSum(Big, b) == WordSum(b)
  {
    if |b| >= 2 {
      BigSumIsWordSum(b[2..]);
    }
  }

  // ---------------------------------------------------------------------------------------------
  // The carry chain
  // ---------------------------------------------------------------------------------------------

  /** math/bits.Add64. */
  function Add64(x: uint64, y: uint64, carry: nat): (r: (uint64, nat))
    requires carry <= 1
    ensures r.0 + 0x1_0000_0000_0000_0000 * r.1 == x + y + carry && r.1 <= 1
  {
    var sum := x + y + carry;
    if sum < 0x1_0000_0000_0000_0000 then (sum, 0) else (sum - 0x1_0000_0000_0000_0000, 1)
  }

  /** The accumulator and the pending carry stand for the sum `s`, and adding the carry to the
      accumulator cannot wrap. */
  ghost predicate Carries(ac: uint64, carry: nat, s: nat) {
    && carry <= 1
    && (carry == 1 ==> ac < 0xffff_ffff_ffff_ffff)
    && SameSum(ac + carry, s)
  }

  lemma AddKeepsSum(ac: uint64, carry: nat, s: nat, word: uint64, w: nat)
    requires Carries(ac, carry, s) && SameSum(word, w)
    ensures var (sum, out) := Add64(ac, word, carry); Carries(sum, out, s + w)
  {
    var (sum, out) := Add64(ac, word, carry);
    SameSumAdd(ac + carry, s, word, w);
    SameSumBy(ac + carry + word, sum + out, out * 0x1_0001_0001_0001);
  }

  /** One `bits.Add64` line: the word at `off` joins the sum of the words before it. */
  method AddWord(e: Endian, ac: uint64, carry: nat, b: seq<byte>, off: nat, ghost s: nat) returns (sum: uint64, out: nat)
    requires off % 2 == 0 && off + 8 <= |b|
    requires Carries(ac, carry, s + NativeSum(e, b[..off]))
    ensures Carries(sum, out, s + NativeSum(e, b[..off + 8]))
  {
    var word := b[off..off + 8];
    var r := Add64(ac, NativeUint64(e, word), carry);
    sum, out := r.0, r.1;
    NativeSum8(e, word);
    PrefixSum(e, b, off, off + 8);
    AddKeepsSum(ac, carry, s + NativeSum(e, b[..off]), NativeUint64(e, word), NativeSum(e, word));
  }

  /** Two `bits.Add64` lines; the blocks of 4, 8 and 16 lines are the same chain, doubled. */
  method AddTwoWords(e: Endian, ac: uint64, carry: nat, b: seq<byte>, off: nat, ghost s: nat) returns (sum: uint64, out: nat)
    requires off % 2 == 0 && off + 16 <= |b|
    requires Carries(ac, carry, s + NativeSum(e, b[..off]))
    ensures Carries(sum, out, s + NativeSum(e, b[..off + 16]))
  {
    sum, out := AddWord(e, ac, carry, b, off, s);
    sum, out := AddWord(e, sum, out, b, off + 8, s);
  }

  method AddFourWords(e: Endian, ac: uint64, carry: nat, b: seq<byte>, off: nat, ghost s: nat) returns (sum: uint64, out: nat)
    requires off % 2 == 0 && off + 32 <= |b|
    requires Carries(ac, carry, s + NativeSum(e, b[..off]))
    ensures Carries(sum, out, s + NativeSum(e, b[..off + 32]))
  {
    sum, out := AddTwoWords(e, ac, carry, b, off, s);
    sum, out := AddTwoWords(e, sum, out, b, off + 16, s);
  }

  method AddEightWords(e: Endian, ac: uint64, carry: nat, b: seq<byte>, off: nat, ghost s: nat) returns (sum: uint64, out: nat)
    requires off % 2 == 0 && off + 64 <= |b|
    requires Carries(ac, carry, s + NativeSum(e, b[..off]))
    ensures Carries(sum, out, s + NativeSum(e, b[..off + 64]))
  {
    sum, out := AddFourWords(e, ac, carry, b, off, s);
    sum, out := AddFourWords(e, sum, out, b, off + 32, s);
  }

  method AddSixteenWords(e: Endian, ac: uint64, carry: nat, b: seq<byte>, off: nat, ghost s: nat) returns (sum: uint64, out: nat)
    requires off % 2 == 0 && off + 128 <= |b|
    requires Carries(ac, carry, s + NativeSum(e, b[..off]))
    ensures Carries(sum, out, s + NativeSum(e, b[..off + 128]))
  {
    sum, out := AddEightWords(e, ac, carry, b, off, s);
    sum, out := AddEightWords(e, sum, out, b, off + 64, s);
  }

  /** The `ac += carry` that ends a chain loses nothing. */
  lemma CarryFits(ac: uint64, carry: nat, s: nat)
    requires Carries(ac, carry, s)
    ensures ac + carry < 0x1_0000_0000_0000_0000 && SameSum(ac + carry, s)
  {
  }

  /** A word narrower than the accumulator, with the carry added back at once. */
  method AddNarrow(ac0: uint64, word: uint64, ghost s: nat, ghost w: nat) returns (ac: uint64)
    requires Carries(ac0, 0, s) && SameSum(word, w)
    ensures Carries(ac, 0, s + w)
  {
    var r := Add64(ac0, word, 0);
    AddKeepsSum(ac0, 0, s, word, w);
    CarryFits(r.0, r.1, s + w);
    ac := r.0 + r.1;
  }

  /** The loop over blocks of 128 bytes; `off` is how far the slice has been advanced. */
  method SumBlocks(e: Endian, init: uint64, b: seq<byte>) returns (ac: uint64, off: nat)
    ensures off % 2 == 0 && |b| - 128 < off <= |b|
    ensures Carries(ac, 0, init + NativeSum(e, b[..off]))
  {
    ac, off := init, 0;
    var carry;
    while |b| - off >= 128
      invariant off % 2 == 0 && off <= |b|
      invariant Carries(ac, 0, init + NativeSum(e, b[..off]))
    {
      ac, carry := AddSixteenWords(e, ac, 0, b, off, init);
      off := off + 128;
      CarryFits(ac, carry, init + NativeSum(e, b[..off]));
      ac := ac + carry;
    }
  }

  /** The branches for 64 and 32 bytes. */
  method SumTail64(e: Endian, ac0: uint64, b: seq<byte>, off0: nat, ghost init: nat) returns (ac: uint64, off: nat)
    requires off0 % 2 == 0 && |b| - 128 < off0 <= |b|
    requires Carries(ac0, 0, init + NativeSum(e, b[..off0]))
    ensures off % 2 == 0 && |b| - 32 < off <= |b|
    ensures Carries(ac, 0, init + NativeSum(e, b[..off]))
  {
    ac, off := ac0, off0;
    if |b| - off >= 64 {
      var carry;
      ac, carry := AddEightWords(e, ac, 0, b, off, init);
      off := off + 64;
      CarryFits(ac, carry, init + NativeSum(e, b[..off]));
      ac := ac + carry;
    }
    ac, off := SumTail32(e, ac, b, off, init);
  }

  method SumTail32(e: Endian, ac0: uint64, b: seq<byte>, off0: nat, ghost init: nat) returns (ac: uint64, off: nat)
    requires off0 % 2 == 0 && |b| - 64 < off0 <= |b|
    requires Carries(ac0, 0, init + NativeSum(e, b[..off0]))
    ensures off % 2 == 0 && |b| - 32 < off <= |b|
    ensures Carries(ac, 0, init + NativeSum(e, b[..off]))
  {
    ac, off := ac0, off0;
    if |b| - off >= 32 {
      var carry;
      ac, carry := AddFourWords(e, ac, 0, b, off, init);
      off := off + 32;
      CarryFits(ac, carry, init + NativeSum(e, b[..off]));
      ac := ac + carry;
    }
  }

  /** The branches for 16 and 8 bytes. */
  method SumTail16(e: Endian, ac0: uint64, b: seq<byte>, off0: nat, ghost init: nat) returns (ac: uint64, off: nat)
    requires off0 % 2 == 0 && |b| - 32 < off0 <= |b|
    requires Carries(ac0, 0, init + NativeSum(e, b[..off0]))
    ensures off % 2 == 0 && |b| - 8 < off <= |b|
    ensures Carries(ac, 0, init + NativeSum(e, b[..off]))
  {
    ac, off := ac0, off0;
    var carry;
    if |b| - off >= 16 {
      ac, carry := AddTwoWords(e, ac, 0, b, off, init);
      off := off + 16;
      CarryFits(ac, carry, init + NativeSum(e, b[..off]));
      ac := ac + carry;
    }
    if |b| - off >= 8 {
      ac, carry := AddWord(e, ac, 0, b, off, init);
      off := off + 8;
      CarryFits(ac, carry, init + NativeSum(e, b[..off]));
      ac := ac + carry;
    }
  }

  lemma PrefixSum(e: Endian, b: seq<byte>, off: nat, end: nat)
    requires off % 2 == 0 && off <= end <= |b|
    ensures NativeSum(e, b[..end]) == NativeSum(e, b[..off]) + NativeSum(e, b[off..end])
  {
    assert b[..end] == b[..off] + b[off..end];
    NativeSumConcat(e, b[..off], b[off..end]);
  }

  lemma NativeSum2(e: Endian, b: seq<byte>)
    requires |b| == 2
    ensures NativeUint16(e, b) == NativeSum(e, b)
  {
    assert b[..2] == b && b[2..] == [];
  }

  /** The branch for 4 bytes. */
  method SumTail4(e: Endian, ac0: uint64, b: seq<byte>, off0: nat, ghost init: nat) returns (ac: uint64, off: nat)
    requires off0 % 2 == 0 && |b| - 8 < off0 <= |b|
    requires Carries(ac0, 0, init + NativeSum(e, b[..off0]))
    ensures off % 2 == 0 && |b| - 4 < off <= |b|
    ensures Carries(ac, 0, init + NativeSum(e, b[..off]))
  {
    ac, off := ac0, off0;
    if |b| - off >= 4 {
      var word := b[off..off + 4];
      NativeSum4(e, word);
      PrefixSum(e, b, off, off + 4);
      ac := AddNarrow(ac, NativeUint32(e, word), init + NativeSum(e, b[..off]), NativeSum(e, word));
      off := off + 4;
    }
  }

  /** The branch for 2 bytes. */
  method SumTail2(e: Endian, ac0: uint64, b: seq<byte>, off0: nat, ghost init: nat) returns (ac: uint64, off: nat)
    requires off0 % 2 == 0 && |b| - 4 < off0 <= |b|
    requires Carries(ac0, 0, init + NativeSum(e, b[..off0]))
    ensures off % 2 == 0 && |b| - 2 < off <= |b|
    ensures Carries(ac, 0, init + NativeSum(e, b[..off]))
  {
    ac, off := ac0, off0;
    if |b| - off >= 2 {
      var word := b[off..off + 2];
      NativeSum2(e, word);
      PrefixSum(e, b, off, off + 2);
      ac := AddNarrow(ac, NativeUint16(e, word), init + NativeSum(e, b[..off]), NativeSum(e, word));
      off := off + 2;
    }
  }

  /** The odd last byte is padded with a zero byte. */
  method SumLastByte(e: Endian, ac0: uint64, b: seq<byte>, off: nat, ghost init: nat) returns (ac: uint64)
    requires off % 2 == 0 && |b| - 2 < off <= |b|
    requires Carries(ac0, 0, init + NativeSum(e, b[..off]))
    ensures Carries(ac, 0, init + NativeSum(e, b))
  {
    ac := ac0;
    if |b| - off == 1 {
      var last := [b[off], 0];
      assert b[off..] == [b[off]] && b[..|b|] == b;
      PrefixSum(e, b, off, |b|);
      ac := AddNarrow(ac, NativeUint16(e, last), init + NativeSum(e, b[..off]), NativeSum(e, b[off..]));
    } else {
      assert b[..off] == b;
    }
  }

  /** The native sum of all of `b`, on top of `init`. */
  method SumNative(e: Endian, b: seq<byte>, init: uint64) returns (ac: uint64)
    ensures Carries(ac, 0, init + NativeSum(e, b))
  {
    var off;
    ac, off := SumBlocks(e, init, b);
    ac, off := SumTail64(e, ac, b, off, init);
    ac, off := SumTail16(e, ac, b, off, init);
    ac, off := SumTail4(e, ac, b, off, init);
    ac, off := SumTail2(e, ac, b, off, init);
    ac := SumLastByte(e, ac, b, off, init);
  }

  method ChecksumNoFold(e: Endian, b: seq<byte>, initial: uint64) returns (r: uint64)
    ensures SameSum(r, initial + WordSum(b))
  {
    var init := Swap(e, initial);
    var ac := SumNative(e, b, init);
    r := Swap(e, ac);
    SwapBack(e, initial, init, ac, NativeSum(e, b), b);
  }

  lemma SwapBack(e: Endian, initial: uint64, init: uint64, ac: uint64, n: nat, b: seq<byte>)
    requires init == Swap(e, initial) && n == NativeSum(e, b) && SameSum(ac, init + n)
    ensures SameSum(Swap(e, ac), initial + WordSum(b))
  {
    SwapTwice(e, initial);
    NativeSumScaled(e, b);
    SwapBackTo(e, initial, init, ac, n, WordSum(b));
  }

  lemma SwapBackTo(e: Endian, initial: uint64, init: uint64, ac: uint64, n: nat, w: nat)
    requires SameSum(Scaled(e, init), initial) && SameSum(Scaled(e, n), w) && SameSum(ac, init + n)
    ensures SameSum(Swap(e, ac), initial + w)
  {
    SumScales(e, initial, init, n, w);
    ScaledSameSum(e, ac, init + n);
    SwapScales(e, ac);
  }

  lemma SwapTwice(e: Endian, x: uint64)
    ensures SameSum(Scaled(e, Swap(e, x)), x)
  {
    SwapScales(e, x);
    ScaledSameSum(e, Swap(e, x), Scaled(e, x));
    ScaledTwice(e, x);
  }

  lemma SumScales(e: Endian, initial: nat, init: nat, n: nat, w: nat)
    requires SameSum(Scaled(e, init), initial) && SameSum(Scaled(e, n), w)
    ensures SameSum(Scaled(e, init + n), initial + w)
  {
    SameSumAdd(Scaled(e, init), initial, Scaled(e, n), w);
  }

  // ---------------------------------------------------------------------------------------------
  // Folding, and the public functions
  // ---------------------------------------------------------------------------------------------

  /** Four folds bring any 64-bit value into 16 bits; the third can still leave 17. */
  lemma FourFolds(x: uint64)
    ensures Fold(Fold(Fold(Fold(x)))) < 0x1_0000
    ensures Fold(Fold(Fold(Fold(x)))) == FoldAll(x)
  {
    var x1 := Fold(x);
    assert x1 < 0x1_0000_0000_0000 + 0xffff;
    var x2 := Fold(x1);
    assert x2 < 0x1_0000_0000 + 0xffff;
    var x3 := Fold(x2);
    assert x3 < 0x1_0000 + 0xffff;
    var x4 := Fold(x3);
    FoldKeepsSum(x);
    FoldKeepsSum(x1);
    FoldKeepsSum(x2);
    FoldKeepsSum(x3);
    FoldAllIsValue(x);
  }

  lemma ThreeFoldsAreNotEnough()
    ensures Fold(Fold(Fold(0xffff_ffff_0001_0000))) >= 0x1_0000
  {
  }

  /** For every byte string, every 64-bit initial value and both byte orders, the implementation
      returns what section 2 of RFC 1071 prescribes. */
  method Sum(e: Endian, b: seq<byte>, initial: uint64) returns (r: uint16)
    ensures r == Reference(b, initial)
  {
    var ac := ChecksumNoFold(e, b, initial);
    FourFolds(ac);
    FoldAllIsValue(ac);
    FoldAllIsValue(initial + WordSum(b));
    ac := Fold(ac);
    ac := Fold(ac);
    ac := Fold(ac);
    ac := Fold(ac);
    r := ac;
  }

  /** The pseudo-header of a transport segment, as the checksum sees it. */
  function PseudoHeader(protocol: byte, src: seq<byte>, dst: seq<byte>, totalLen: uint16): nat {
    WordSum(src) + WordSum(dst) + protocol + totalLen
  }

  method PseudoHeaderChecksumNoFold(e: Endian, protocol: byte, src: seq<byte>, dst: seq<byte>, totalLen: uint16)
    returns (r: uint64)
    ensures SameSum(r, PseudoHeader(protocol, src, dst, totalLen))
  {
    var sum0 := ChecksumNoFold(e, src, 0);
    var sum1 := ChecksumNoFold(e, dst, sum0);
    SameSumAdd(sum0, WordSum(src), WordSum(dst), WordSum(dst));
    var sum2 := ChecksumNoFold(e, [0, protocol], sum1);
    assert WordSum([0, protocol]) == protocol;
    SameSumAdd(sum1, WordSum(src) + WordSum(dst), protocol, protocol);
    var tmp := PutBigUint16(totalLen);
    r := ChecksumNoFold(e, tmp, sum2);
    assert tmp[..2] == tmp && tmp[2..] == [];
    assert WordSum(tmp) == totalLen;
    SameSumAdd(sum2, WordSum(src) + WordSum(dst) + protocol, totalLen, totalLen);
  }

  lemma {:induction false} WordSumConcat(a: seq<byte>, b: seq<byte>)
    requires |a| % 2 == 0
    ensures WordSum(a + b) == WordSum(a) + WordSum(b)
  {
    if a == [] {
      assert a + b == b;
    } else {
      assert (a + b)[..2] == a[..2] && (a + b)[2..] == a[2..] + b;
      WordSumConcat(a[2..], b);
    }
  }

  lemma WordSum2(x: byte, y: byte)
    ensures WordSum([x, y]) == x * 0x100 + y
  {
    assert [x, y][..2] == [x, y] && [x, y][2..] == [];
  }

  /** What is put in front of a transport segment for its checksum: over IPv4 as section 3.1 of RFC 793 has it, over IPv6
      as section 8.1 of RFC 8200 does, with a length of 32 bits and the protocol in the last of four bytes. */
  function PseudoHeaderBytes(protocol: byte, src: seq<byte>, dst: seq<byte>, totalLen: uint16, isV6: bool): seq<byte> {
    if isV6 then src + dst + PutBigUint32(totalLen) + [0, 0, 0, protocol]
    else src + dst + [0, protocol] + PutBigUint16(totalLen)
  }

  lemma WordSumOfWord(v: uint16)
    ensures WordSum(PutBigUint16(v)) == v
  {
    var w := PutBigUint16(v);
    assert w[..2] == w && w[2..] == [];
  }

  lemma Long(v: uint16)
    ensures PutBigUint32(v) == [0, 0] + PutBigUint16(v)
  {
  }

  lemma StaysEven(n: nat, k: nat, m: nat)
    requires n % 2 == 0 && k % 2 == 0 && m == n + k
    ensures m % 2 == 0
  {
  }

  lemma TailOverV4(a: seq<byte>, protocol: byte, totalLen: uint16)
    requires |a| % 2 == 0
    ensures WordSum(a + [0, protocol] + PutBigUint16(totalLen)) == WordSum(a) + protocol + totalLen
  {
    WordSum2(0, protocol);
    WordSumOfWord(totalLen);
    WordSumConcat(a, [0, protocol]);
    StaysEven(|a|, 2, |a + [0, protocol]|);
    WordSumConcat(a + [0, protocol], PutBigUint16(totalLen));
  }

  lemma TailOverV6(a: seq<byte>, protocol: byte, totalLen: uint16)
    requires |a| % 2 == 0
    ensures WordSum(a + PutBigUint32(totalLen) + [0, 0, 0, protocol]) == WordSum(a) + protocol + totalLen
  {
    var zeros, len := [0, 0], PutBigUint16(totalLen);
    Long(totalLen);
    assert [0, 0, 0, protocol] == zeros + [0, protocol];
    WordSum2(0, 0);
    WordSum2(0, protocol);
    WordSumOfWord(totalLen);
    WordSumConcat(zeros, len);
    WordSumConcat(zeros, [0, protocol]);
    WordSumConcat(a, zeros + len);
    StaysEven(|a|, 4, |a + (zeros + len)|);
    WordSumConcat(a + (zeros + len), zeros + [0, protocol]);
  }

  /** The checksum of a segment is that of the pseudo-header, byte for byte, and the segment behind it. */
  lemma PseudoHeaderAsBytes(protocol: byte, src: seq<byte>, dst: seq<byte>, totalLen: uint16, isV6: bool, th: seq<byte>)
    requires |src| % 2 == 0 && |dst| % 2 == 0
    ensures Reference(th, PseudoHeader(protocol, src, dst, totalLen))
         == Reference(PseudoHeaderBytes(protocol, src, dst, totalLen, isV6) + th, 0)
  {
    WordSumConcat(src, dst);
    if isV6 {
      TailOverV6(src + dst, protocol, totalLen);
    } else {
      TailOverV4(src + dst, protocol, totalLen);
    }
    WordSumConcat(PseudoHeaderBytes(protocol, src, dst, totalLen, isV6), th);
  }

  /** A byte that is left over counts as if a zero came behind it. */
  lemma {:induction false} OddIsPadded(b: seq<byte>)
    requires |b| % 2 == 1
    ensures WordSum(b) == WordSum(b + [0])
  {
    if |b| == 1 {
      assert b + [0] == [b[0], 0];
      WordSum2(b[0], 0);
    } else {
      assert (b + [0])[..2] == b[..2] && (b + [0])[2..] == b[2..] + [0];
      OddIsPadded(b[2..]);
    }
  }

  lemma {:induction false} NumberMod(b: seq<byte>)
    requires |b| % 2 == 0
    ensures exists k: nat :: Number(b) == WordSum(b) + 0xffff * k
  {
    if b == [] {
      assert Number(b) == WordSum(b) + 0xffff * 0;
    } else {
      var a, x, y := b[..|b| - 2], b[|b| - 2], b[|b| - 1];
      NumberMod(a);
      var k: nat :| Number(a) == WordSum(a) + 0xffff * k;
      assert b == a + [x, y] && b[..|b| - 1] == a + [x] && (a + [x])[..|a|] == a;
      WordSumConcat(a, [x, y]);
      WordSum2(x, y);
      assert Number(b) == (Number(a) * 0x100 + x) * 0x100 + y;
      assert Number(b) == WordSum(b) + 0xffff * (k + Number(a));
    }
  }

  lemma {:induction false} ShiftMod(w: nat, k: nat)
    ensures (w + 0xffff * k) % 0xffff == w % 0xffff
  {
    if k > 0 {
      ShiftMod(w, k - 1);
      assert w + 0xffff * k == (w + 0xffff * (k - 1)) + 0xffff;
    }
  }

  predicate AllZero(b: seq<byte>) {
    forall i :: 0 <= i < |b| ==> b[i] == 0
  }

  lemma {:induction false} ZeroSum(b: seq<byte>)
    ensures WordSum(b) == 0 <==> AllZero(b)
  {
    if |b| >= 2 {
      ZeroSum(b[2..]);
      assert AllZero(b) <==> b[0] == 0 && b[1] == 0 && AllZero(b[2..]) by {
        if b[0] == 0 && b[1] == 0 && AllZero(b[2..]) {
          assert forall i :: 2 <= i < |b| ==> b[i] == b[2..][i - 2];
        }
      }
    }
  }

  lemma NumberSame(b: seq<byte>)
    requires |b| % 2 == 0
    ensures Number(b) % 0xffff == WordSum(b) % 0xffff
  {
    NumberMod(b);
    var k: nat :| Number(b) == WordSum(b) + 0xffff * k;
    ShiftMod(WordSum(b), k);
  }

  lemma WordsToOnes(b: seq<byte>)
    ensures Reference(b, 0) == 0xffff <==> WordSum(b) % 0xffff == 0 && !AllZero(b)
  {
    ZeroSum(b);
    FoldAllIsValue(WordSum(b));
    ValueMod(WordSum(b));
  }

  /** RFC 1071 without words or folds: the sum is right exactly if the data, padded to an even length and read as one
      large number, is a multiple of 0xffff, and not all zero. */
  lemma SumsToOnes(b: seq<byte>)
    ensures Reference(b, 0) == 0xffff <==> Number(if |b| % 2 == 0 then b else b + [0]) % 0xffff == 0 && !AllZero(b)
  {
    WordsToOnes(b);
    if |b| % 2 == 1 {
      OddIsPadded(b);
      NumberSame(b + [0]);
    } else {
      NumberSame(b);
    }
  }

  lemma {:induction false} ValueMod(x: nat)
    ensures Value(x) == 0xffff <==> x > 0 && x % 0xffff == 0
    decreases x
  {
    if x > 0xffff {
      ValueMod(x - 0xffff);
    }
  }

  function Complement(x: uint16): uint16 {
    0xffff - x
  }

  /** Storing the complement of the sum makes the whole sum 0xffff. */
  lemma ComplementCompletes(s: nat)
    ensures FoldAll(s + Complement(FoldAll(s))) == 0xffff
  {
    var v := Value(s);
    var c := Complement(v);
    FoldAllIsValue(s);
    FoldAllIsValue(s + c);
    SameSumAdd(v, s, c, c);
  }
}
