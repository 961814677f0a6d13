/** Bytes and the fixed-width unsigned words that encoding/binary reads from and writes to them. */
module Words {
  type byte = x: int | 0 <= x < 0x100
  type uint16 = x: int | 0 <= x < 0x1_0000
  type uint32 = x: int | 0 <= x < 0x1_0000_0000
  type uint64 = x: int | 0 <= x < 0x1_0000_0000_0000_0000

  /** The byte order of the machine. */
  datatype Endian = Little | Big

  function BigUint16(b: seq<byte>): uint16
    requires |b| == 2
  {
    b[0] as int * 0x100 + b[1] as int
  }

  function BigUint32(b: seq<byte>): uint32
    requires |b| == 4
  {
    b[0] as int * 0x100_0000 + b[1] as int * 0x1_0000 + b[2] as int * 0x100 + b[3] as int
  }

  function BigUint64(b: seq<byte>): uint64
    requires |b| == 8
  {
    BigUint32(b[..4]) as int * 0x1_0000_0000 + BigUint32(b[4..]) as int
  }

  function LittleUint32(b: seq<byte>): uint32
    requires |b| == 4
  {
    b[0] as int + b[1] as int * 0x100 + b[2] as int * 0x1_0000 + b[3] as int * 0x100_0000
  }

  function NativeUint16(e: Endian, b: seq<byte>): uint16
    requires |b| == 2
  {
    if e.Big? then BigUint16(b) else b[0] as int + b[1] as int * 0x100
  }

  function NativeUint32(e: Endian, b: seq<byte>): uint32
    requires |b| == 4
  {
    if e.Big? then BigUint32(b) else LittleUint32(b)
  }

  function NativeUint64(e: Endian, b: seq<byte>): uint64
    requires |b| == 8
  {
    if e.Big? then BigUint64(b) else LittleUint32(b[..4]) as int + LittleUint32(b[4..]) as int * 0x1_0000_0000
  }

  function PutBigUint16(x: uint16): (b: seq<byte>)
    ensures |b| == 2 && BigUint16(b) == x
  {
    [x / 0x100, x % 0x100]
  }

  function PutBigUint32(x: uint32): (b: seq<byte>)
    ensures |b| == 4 && BigUint32(b) == x
  {
    var hi, lo := x / 0x1_0000, x % 0x1_0000;
    [hi / 0x100, hi % 0x100, lo / 0x100, lo % 0x100]
  }

  function PutBigUint64(x: uint64): (b: seq<byte>)
    ensures |b| == 8 && BigUint64(b) == x
  {
    var hi, lo := PutBigUint32(x / 0x1_0000_0000), PutBigUint32(x % 0x1_0000_0000);
    assert (hi + lo)[..4] == hi && (hi + lo)[4..] == lo;
    hi + lo
  }

  function Reversed4(b: seq<byte>): (r: seq<byte>)
    requires |b| == 4
    ensures |r| == 4 && LittleUint32(r) == BigUint32(b)
  {
    [b[3], b[2], b[1], b[0]]
  }

  function PutNativeUint64(e: Endian, x: uint64): (b: seq<byte>)
    ensures |b| == 8 && NativeUint64(e, b) == x
  {
    if e.Big? then PutBigUint64(x)
    else
      var hi, lo := PutBigUint32(x / 0x1_0000_0000), PutBigUint32(x % 0x1_0000_0000);
      var b := Reversed4(lo) + Reversed4(hi);
      assert b[..4] == Reversed4(lo) && b[4..] == Reversed4(hi);
      b
  }

  /** The number that the bytes spell, most significant byte first. */
  function Number(b: seq<byte>): nat {
    if b == [] then 0 else Number(b[..|b| - 1]) * 0x100 + b[|b| - 1]
  }

  lemma SubSlice(b: seq<byte>, lo: nat, hi: nat, x: nat, y: nat)
    requires lo <= hi <= |b| && x <= y <= hi - lo
    ensures b[lo..hi][x..y] == b[lo + x..lo + y]
  {
    forall k | 0 <= k < y - x
      ensures b[lo..hi][x..y][k] == b[lo + x..lo + y][k]
    {
    }
  }

  lemma SliceAt(b: seq<byte>, lo: nat, hi: nat, k: nat)
    requires lo + k < hi <= |b|
    ensures b[lo..hi][k] == b[lo + k]
  {
  }

  lemma HeadSlice(a: seq<byte>, b: seq<byte>, x: nat, y: nat)
    requires x <= y <= |a|
    ensures (a + b)[x..y] == a[x..y]
  {
    forall k | 0 <= k < y - x
      ensures (a + b)[x..y][k] == a[x..y][k]
    {
    }
  }
}
