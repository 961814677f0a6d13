/** The timestamps of tai64n/tai64n.go: seconds and whitened nanoseconds, compared as byte strings. */
module Tai64n {
  import opened Words

  const BASE := 0x4000_0000_0000_000a
  /** The low 24 bits of the nanoseconds are cleared. */
  const WHITENED := 0x100_0000
  const SECOND := 1_000_000_000

  type Timestamp = seq<byte>

  /** A clock reading: seconds since 1970 as a signed 64-bit number, and nanoseconds within the second. */
  datatype Time = Time(unix: int, nanosecond: nat)

  ghost predicate ValidTime(t: Time) {
    -0x8000_0000_0000_0000 <= t.unix < 0x8000_0000_0000_0000 && t.nanosecond < SECOND
  }

  function Nanoseconds(t: Time): int {
    t.unix * SECOND + t.nanosecond
  }

  /** Go converts the signed seconds to an unsigned word, and the addition wraps. */
  function Stamp(t: Time): (r: Timestamp)
    requires ValidTime(t)
    ensures |r| == 12
    ensures BigUint64(r[..8]) == (BASE + t.unix) % 0x1_0000_0000_0000_0000
    ensures BigUint32(r[8..]) == t.nanosecond / WHITENED * WHITENED
  {
    var secs := PutBigUint64((BASE + t.unix) % 0x1_0000_0000_0000_0000);
    var nano := PutBigUint32(t.nanosecond / WHITENED * WHITENED);
    assert (secs + nano)[..8] == secs && (secs + nano)[8..] == nano;
    secs + nano
  }

  /** Byte-wise comparison, as bytes.Compare does it. */
  predicate After(a: Timestamp, b: Timestamp) {
    a != [] && (b == [] || a[0] > b[0] || (a[0] == b[0] && After(a[1..], b[1..])))
  }

  lemma {:induction false} AfterTransitive(a: Timestamp, b: Timestamp, c: Timestamp)
    requires After(a, b) && After(b, c)
    ensures After(a, c)
  {
    if c != [] && a[0] == b[0] == c[0] {
      AfterTransitive(a[1..], b[1..], c[1..]);
    }
  }

  lemma {:induction false} AfterTotal(a: Timestamp, b: Timestamp)
    ensures a == b || After(a, b) || After(b, a)
    ensures !(After(a, b) && After(b, a)) && !After(a, a)
  {
    if a != [] && b != [] {
      AfterTotal(a[1..], b[1..]);
      assert a == [a[0]] + a[1..] && b == [b[0]] + b[1..];
    }
    if a != [] {
      AfterTotal(a[1..], a[1..]);
    }
  }

  /** Strings of one length compare by their heads, then by their tails. */
  lemma {:induction false} AfterAppend(a: seq<byte>, x: seq<byte>, b: seq<byte>, y: seq<byte>)
    requires |a| == |b|
    ensures After(a + x, b + y) <==> After(a, b) || (a == b && After(x, y))
  {
    if a == [] {
      assert a + x == x && b + y == y;
    } else {
      AfterAppend(a[1..], x, b[1..], y);
      assert (a + x)[1..] == a[1..] + x && (b + y)[1..] == b[1..] + y;
      assert a == [a[0]] + a[1..] && b == [b[0]] + b[1..];
    }
  }

  /** On four bytes, byte order is the order of the words. */
  lemma AfterIsGreater32(a: seq<byte>, b: seq<byte>)
    requires |a| == |b| == 4
    ensures After(a, b) <==> BigUint32(a) > BigUint32(b)
    ensures a == b <==> BigUint32(a) == BigUint32(b)
  {
    var a1, a2, a3, b1, b2, b3 := a[1..], a[2..], a[3..], b[1..], b[2..], b[3..];
    assert a1[1..] == a2 && a2[1..] == a3 && b1[1..] == b2 && b2[1..] == b3;
    assert a3[1..] == [] && b3[1..] == [];
    assert After(a3, b3) <==> a[3] > b[3];
    assert After(a2, b2) <==> a[2] > b[2] || (a[2] == b[2] && a[3] > b[3]);
    assert After(a1, b1) <==> a[1] > b[1] || (a[1] == b[1] && After(a2, b2));
  }

  lemma AfterIsGreater64(a: seq<byte>, b: seq<byte>)
    requires |a| == |b| == 8
    ensures After(a, b) <==> BigUint64(a) > BigUint64(b)
    ensures a == b <==> BigUint64(a) == BigUint64(b)
  {
    AfterAppend(a[..4], a[4..], b[..4], b[4..]);
    assert a == a[..4] + a[4..] && b == b[..4] + b[4..];
    AfterIsGreater32(a[..4], b[..4]);
    AfterIsGreater32(a[4..], b[4..]);
  }

  /** Whether the seconds wrap past the all-zero label. */
  predicate Wraps(t: Time) {
    t.unix < -BASE
  }

  /** What the order of two stamps says about the readings. */
  lemma StampOrder(t1: Time, t2: Time)
    requires ValidTime(t1) && ValidTime(t2)
    ensures After(Stamp(t2), Stamp(t1)) <==>
      if Wraps(t1) != Wraps(t2) then Wraps(t2)
      else t1.unix < t2.unix || (t1.unix == t2.unix && t1.nanosecond / WHITENED < t2.nanosecond / WHITENED)
  {
    var a, b := Stamp(t2), Stamp(t1);
    AfterAppend(a[..8], a[8..], b[..8], b[8..]);
    assert a == a[..8] + a[8..] && b == b[..8] + b[8..];
    AfterIsGreater64(a[..8], b[..8]);
    AfterIsGreater32(a[8..], b[8..]);
    SecondsLabel(t1);
    SecondsLabel(t2);
  }

  lemma SecondsLabel(t: Time)
    requires ValidTime(t)
    ensures (BASE + t.unix) % 0x1_0000_0000_0000_0000
         == if Wraps(t) then BASE + t.unix + 0x1_0000_0000_0000_0000 else BASE + t.unix
  {
  }

  /** A later reading never gets a smaller stamp, except when exactly the earlier one wraps. */
  lemma StampMonotoneExactly(t1: Time, t2: Time)
    requires ValidTime(t1) && ValidTime(t2) && Nanoseconds(t1) <= Nanoseconds(t2)
    ensures !After(Stamp(t1), Stamp(t2)) <==> !(Wraps(t1) && !Wraps(t2))
  {
    StampOrder(t2, t1);
    assert t1.unix <= t2.unix;
    assert t1.nanosecond <= t2.nanosecond ==> t1.nanosecond / WHITENED <= t2.nanosecond / WHITENED;
  }

  /** Readings that are 2^24 ns apart have different stamps, whatever the nanoseconds. */
  lemma StampStrict(t1: Time, t2: Time)
    requires ValidTime(t1) && ValidTime(t2) && Nanoseconds(t1) + WHITENED <= Nanoseconds(t2)
    requires !(Wraps(t1) && !Wraps(t2))
    ensures After(Stamp(t2), Stamp(t1))
  {
    StampOrder(t1, t2);
    assert t1.unix <= t2.unix;
  }

  /** 2^24 is the least such distance. */
  lemma StampStrictTight(d: nat)
    requires d < WHITENED
    ensures var t1, t2 := Time(0, 0), Time(0, d);
      Nanoseconds(t2) == Nanoseconds(t1) + d && !After(Stamp(t2), Stamp(t1))
  {
    StampOrder(Time(0, 0), Time(0, d));
  }
}
