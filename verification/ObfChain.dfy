/** The obfuscation chains of device/obf.go: a packet of fixed, random and data parts, one tag for each. */
module ObfChain {
  import opened Words
  import opened Chunks
  import Base64

  datatype Tag =
    | BytesTag(data: Bytes)        // b
    | TimestampTag                 // t
    | RandTag(length: nat)         // r
    | RandCharTag(length: nat)     // rc
    | RandDigitTag(length: nat)    // rd
    | DataTag                      // d
    | DataStringTag                // ds
    | DataSizeTag(length: nat)     // dz
  {
    predicate IsData() {
      DataTag? || DataStringTag?
    }

    function ObfuscatedLen(n: nat): nat {
      match this
      case BytesTag(data) => |data|
      case TimestampTag => 4
      case DataTag => n
      case DataStringTag => Base64.EncodedLen(n)
      case _ => length
    }

    function DeobfuscatedLen(n: nat): nat {
      if DataTag? then n else if DataStringTag? then Base64.DecodedLen(n) else 0
    }
  }

  type Chain = seq<Tag>

  /** What the first k tags put out. */
  function LengthOf(c: Chain, k: nat, n: nat): nat
    requires k <= |c|
  {
    if k == 0 then 0 else LengthOf(c, k - 1, n) + c[k - 1].ObfuscatedLen(n)
  }

  function ObfuscatedLen(c: Chain, n: nat): nat {
    LengthOf(c, |c|, n)
  }

  /** What the first k tags read back. */
  function DecodedOf(c: Chain, k: nat, dynamicLen: nat): nat
    requires k <= |c|
  {
    if k == 0 then 0 else DecodedOf(c, k - 1, dynamicLen) + c[k - 1].DeobfuscatedLen(dynamicLen)
  }

  /** The lengths of the parts that the source does not determine come off first. */
  function DeobfuscatedLen(c: Chain, n: nat): nat
    requires n >= ObfuscatedLen(c, 0)
  {
    DecodedOf(c, |c|, n - ObfuscatedLen(c, 0))
  }

  // ---------------------------------------------------------------------------------------------
  // What one tag writes and checks
  // ---------------------------------------------------------------------------------------------

  /** Byte x % 52 of the small letters followed by the capital ones. */
  function Char52(x: byte): byte {
    if x % 52 < 26 then 97 + x % 52 else 65 + (x % 52 - 26)
  }

  /** unicode.IsLetter on the first 256 code points. */
  predicate IsLetter(b: byte) {
    || 65 <= b <= 90 || 97 <= b <= 122
    || b == 0xaa || b == 0xb5 || b == 0xba || (0xc0 <= b && b != 0xd7 && b != 0xf7)
  }

  predicate IsDigit(b: byte) {
    48 <= b <= 57
  }

  /** The size of the source in big-endian order, cut to its last `length` bytes. */
  function Size(n: nat, length: nat): Bytes {
    if length == 0 then [] else Size(n / 0x100, length - 1) + [n % 0x100]
  }

  /** What a tag puts out for a source; `noise` and `now` are the randomness and the clock. */
  function Output(t: Tag, src: Bytes, noise: Bytes, now: uint32): (r: Bytes)
    requires t.RandTag? || t.RandCharTag? || t.RandDigitTag? ==> |noise| == t.length
    ensures |r| == t.ObfuscatedLen(|src|)
  {
    match t
    case BytesTag(data) => data
    case TimestampTag => PutBigUint32(now)
    case RandTag(_) => noise
    case RandCharTag(n) => seq(n, i requires 0 <= i < n => Char52(noise[i]))
    case RandDigitTag(n) => seq(n, i requires 0 <= i < n => 48 + noise[i] % 10)
    case DataTag => src
    case DataStringTag => Base64.EncodeLength(src); Base64.Encode(src)
    case DataSizeTag(n) => SizeLength(|src|, n); Size(|src|, n)
  }

  lemma {:induction false} SizeLength(n: nat, length: nat)
    ensures |Size(n, length)| == length
  {
    if length > 0 {
      SizeLength(n / 0x100, length - 1);
    }
  }

  /** How many numbers can be written with so many bytes. */
  function Numbers(length: nat): (n: nat)
    ensures n > 0
  {
    if length == 0 then 1 else 0x100 * Numbers(length - 1)
  }

  /** The bytes of the size tag are the size, as far as it fits into them. */
  lemma {:induction false} SizeIsNumber(n: nat, length: nat)
    ensures Number(Size(n, length)) == n % Numbers(length)
  {
    if length > 0 {
      var high := Size(n / 0x100, length - 1);
      SizeIsNumber(n / 0x100, length - 1);
      assert (high + [n % 0x100])[..|high|] == high;
      ModByParts(n, Numbers(length - 1));
    }
  }

  lemma ModByParts(n: nat, m: nat)
    requires m > 0
    ensures n % (0x100 * m) == n / 0x100 % m * 0x100 + n % 0x100
  {
    var q, r, low := n / 0x100 / m, n / 0x100 % m, n % 0x100;
    assert n / 0x100 == q * m + r;
    assert n == q * (0x100 * m) + (r * 0x100 + low);
    RemainderUnique(n, 0x100 * m, q, r * 0x100 + low);
  }

  /** What a tag demands of its part of the packet. */
  predicate Accepts(t: Tag, part: Bytes) {
    match t
    case BytesTag(data) => part == data
    case RandCharTag(_) => forall i :: 0 <= i < |part| ==> IsLetter(part[i])
    case RandDigitTag(_) => forall i :: 0 <= i < |part| ==> IsDigit(part[i])
    case _ => true
  }

  /** What a data tag reads back. */
  function Decoded(t: Tag, part: Bytes): Bytes
    requires t.IsData()
  {
    if t.DataTag? then part else Base64.Decode(part)
  }

  lemma OutputAccepted(t: Tag, src: Bytes, noise: Bytes, now: uint32)
    requires t.RandTag? || t.RandCharTag? || t.RandDigitTag? ==> |noise| == t.length
    ensures Accepts(t, Output(t, src, noise, now))
    ensures t.IsData() ==> Decoded(t, Output(t, src, noise, now)) == src
  {
    Base64.RoundTrip(src);
  }

  // ---------------------------------------------------------------------------------------------
  // Obfuscate
  // ---------------------------------------------------------------------------------------------

  ghost predicate Supplied(c: Chain, noises: seq<Bytes>) {
    && |noises| == |c|
    && forall i :: 0 <= i < |c| && (c[i].RandTag? || c[i].RandCharTag? || c[i].RandDigitTag?) ==>
         |noises[i]| == c[i].length
  }

  /** What the first k tags write. */
  ghost function WireOf(c: Chain, k: nat, src: Bytes, noises: seq<Bytes>, now: uint32): (r: Bytes)
    requires Supplied(c, noises) && k <= |c|
    ensures |r| == LengthOf(c, k, |src|)
  {
    if k == 0 then [] else WireOf(c, k - 1, src, noises, now) + Output(c[k - 1], src, noises[k - 1], now)
  }

  /** The whole packet. */
  ghost function Wire(c: Chain, src: Bytes, noises: seq<Bytes>, now: uint32): Bytes
    requires Supplied(c, noises)
  {
    WireOf(c, |c|, src, noises, now)
  }

  method Obfuscate(c: Chain, dst: array<byte>, src: Bytes, noises: seq<Bytes>, now: uint32)
    requires Supplied(c, noises) && dst.Length >= ObfuscatedLen(c, |src|)
    modifies dst
    ensures dst[..ObfuscatedLen(c, |src|)] == Wire(c, src, noises, now)
    ensures forall k :: ObfuscatedLen(c, |src|) <= k < dst.Length ==> dst[k] == old(dst[k])
  {
    var written := 0;
    for i := 0 to |c|
      invariant written == LengthOf(c, i, |src|) <= ObfuscatedLen(c, |src|)
      invariant dst[..written] == WireOf(c, i, src, noises, now)
      invariant forall k :: written <= k < dst.Length ==> dst[k] == old(dst[k])
    {
      PrefixStep(c, i, |src|);
      Write(dst, written, Output(c[i], src, noises[i], now));
      written := written + c[i].ObfuscatedLen(|src|);
    }
  }

  lemma PrefixStep(c: Chain, i: nat, n: nat)
    requires i < |c|
    ensures LengthOf(c, i + 1, n) == LengthOf(c, i, n) + c[i].ObfuscatedLen(n)
    ensures LengthOf(c, i + 1, n) <= ObfuscatedLen(c, n)
  {
    PrefixShorter(c, i + 1, |c|, n);
  }

  lemma {:induction false} PrefixShorter(c: Chain, i: nat, k: nat, n: nat)
    requires i <= k <= |c|
    ensures LengthOf(c, i, n) <= LengthOf(c, k, n)
  {
    if i < k {
      PrefixShorter(c, i, k - 1, n);
    }
  }

  /** copy(dst[at:], data) */
  method Write(dst: array<byte>, at: nat, data: Bytes)
    requires at + |data| <= dst.Length
    modifies dst
    ensures dst[..at] == old(dst[..at]) && dst[at..at + |data|] == data && dst[..at + |data|] == old(dst[..at]) + data
    ensures forall k :: at + |data| <= k < dst.Length ==> dst[k] == old(dst[k])
  {
    for k := 0 to |data|
      invariant dst[..at] == old(dst[..at])
      invariant forall j :: 0 <= j < k ==> dst[at + j] == data[j]
      invariant forall j :: at + k <= j < dst.Length ==> dst[j] == old(dst[j])
    {
      dst[at + k] := data[k];
    }
    assert dst[at..at + |data|] == data;
    assert dst[..at + |data|] == dst[..at] + dst[at..at + |data|];
  }

  // ---------------------------------------------------------------------------------------------
  // Deobfuscate
  // ---------------------------------------------------------------------------------------------

  /** The chain has one data tag, at position p. */
  predicate OneData(c: Chain, p: nat) {
    p < |c| && c[p].IsData() && forall i :: 0 <= i < |c| && i != p ==> !c[i].IsData()
  }

  /** Where the part of tag i begins, if `dynamicLen` bytes are not fixed. */
  function ReadAt(c: Chain, i: nat, dynamicLen: nat): nat
    requires i <= |c|
  {
    if i == 0 then 0 else ReadAt(c, i - 1, dynamicLen) + c[i - 1].ObfuscatedLen(c[i - 1].DeobfuscatedLen(dynamicLen))
  }

  function WrittenAt(c: Chain, i: nat, dynamicLen: nat): nat
    requires i <= |c|
  {
    if i == 0 then 0 else WrittenAt(c, i - 1, dynamicLen) + c[i - 1].DeobfuscatedLen(dynamicLen)
  }

  /** The part of tag i in a packet. */
  function Part(c: Chain, i: nat, src: Bytes): Bytes
    requires i < |c| && |src| >= ObfuscatedLen(c, 0) && ReadAt(c, i + 1, |src| - ObfuscatedLen(c, 0)) <= |src|
  {
    src[ReadAt(c, i, |src| - ObfuscatedLen(c, 0))..ReadAt(c, i + 1, |src| - ObfuscatedLen(c, 0))]
  }

  lemma {:induction false} ReadsInRange(c: Chain, p: nat, i: nat, dynamicLen: nat)
    requires OneData(c, p) && i <= |c|
    ensures ReadAt(c, i, dynamicLen) <= LengthOf(c, i, 0) + (if i > p then dynamicLen else 0)
    ensures WrittenAt(c, i, dynamicLen) == if i > p then c[p].DeobfuscatedLen(dynamicLen) else 0
  {
    if i > 0 {
      ReadsInRange(c, p, i - 1, dynamicLen);
      TagReads(c[i - 1], dynamicLen);
    }
  }

  /** A data tag reads what is not fixed, any other tag what is. */
  lemma TagReads(t: Tag, dynamicLen: nat)
    ensures t.ObfuscatedLen(t.DeobfuscatedLen(dynamicLen))
         <= t.ObfuscatedLen(0) + (if t.IsData() then dynamicLen else 0)
    ensures !t.IsData() ==> t.DeobfuscatedLen(dynamicLen) == 0
  {
    Base64.EncodedFits(dynamicLen);
  }

  lemma InRange(c: Chain, p: nat, i: nat, n: nat)
    requires OneData(c, p) && i <= |c| && n >= ObfuscatedLen(c, 0)
    ensures ReadAt(c, i, n - ObfuscatedLen(c, 0)) <= n
  {
    ReadsInRange(c, p, i, n - ObfuscatedLen(c, 0));
    PrefixShorter(c, i, |c|, 0);
  }

  lemma TagInRange(c: Chain, p: nat, i: nat, n: nat)
    requires OneData(c, p) && i < |c| && n >= ObfuscatedLen(c, 0)
    ensures ReadAt(c, i + 1, n - ObfuscatedLen(c, 0)) <= n
    ensures c[i].IsData() ==> i == p && WrittenAt(c, i, n - ObfuscatedLen(c, 0)) == 0
    ensures WrittenAt(c, |c|, n - ObfuscatedLen(c, 0)) == c[p].DeobfuscatedLen(n - ObfuscatedLen(c, 0))
  {
    InRange(c, p, i + 1, n);
    ReadsInRange(c, p, i, n - ObfuscatedLen(c, 0));
    ReadsInRange(c, p, |c|, n - ObfuscatedLen(c, 0));
  }

  lemma {:induction false} WrittenAll(c: Chain, i: nat, dynamicLen: nat)
    requires i <= |c|
    ensures WrittenAt(c, i, dynamicLen) == DecodedOf(c, i, dynamicLen)
  {
    if i > 0 {
      WrittenAll(c, i - 1, dynamicLen);
    }
  }

  /** Whether the packet has the form that the chain prescribes. */
  ghost predicate WellFormed(c: Chain, p: nat, src: Bytes)
    requires OneData(c, p) && |src| >= ObfuscatedLen(c, 0)
  {
    forall i :: 0 <= i < |c| ==> TagAccepts(c, p, i, src)
  }

  ghost predicate TagAccepts(c: Chain, p: nat, i: nat, src: Bytes)
    requires OneData(c, p) && |src| >= ObfuscatedLen(c, 0) && i < |c|
  {
    InRange(c, p, i + 1, |src|);
    Accepts(c[i], Part(c, i, src))
  }

  ghost function Payload(c: Chain, p: nat, src: Bytes): Bytes
    requires OneData(c, p) && |src| >= ObfuscatedLen(c, 0)
  {
    InRange(c, p, p + 1, |src|);
    Decoded(c[p], Part(c, p, src))
  }

  method Deobfuscate(c: Chain, dst: array<byte>, src: Bytes, ghost p: nat) returns (ok: bool)
    requires OneData(c, p) && |src| >= ObfuscatedLen(c, 0) && dst.Length >= DeobfuscatedLen(c, |src|)
    modifies dst
    ensures ok <==> WellFormed(c, p, src)
    ensures ok ==> |Payload(c, p, src)| <= dst.Length && dst[..|Payload(c, p, src)|] == Payload(c, p, src)
  {
    var dynamicLen := |src| - ObfuscatedLen(c, 0);
    var written, read := 0, 0;
    WrittenAll(c, |c|, dynamicLen);
    for i := 0 to |c|
      invariant read == ReadAt(c, i, dynamicLen) && written == WrittenAt(c, i, dynamicLen)
      invariant forall j :: 0 <= j < i ==> TagAccepts(c, p, j, src)
      invariant i > p ==> |Payload(c, p, src)| <= dst.Length && dst[..|Payload(c, p, src)|] == Payload(c, p, src)
    {
      var deobfLen := c[i].DeobfuscatedLen(dynamicLen);
      var obfLen := c[i].ObfuscatedLen(deobfLen);
      TagInRange(c, p, i, |src|);
      var part := src[read..read + obfLen];
      assert part == Part(c, i, src);
      if !Accepts(c[i], part) {
        assert !TagAccepts(c, p, i, src);
        return false;
      }
      if c[i].IsData() {
        DecodedLength(c[i], part, deobfLen);
        Write(dst, written, Decoded(c[i], part));
      }
      written := written + deobfLen;
      read := read + obfLen;
    }
    return true;
  }

  lemma DecodedLength(t: Tag, part: Bytes, n: nat)
    requires t.IsData() && |part| == t.ObfuscatedLen(n)
    ensures |Decoded(t, part)| <= n
  {
    Base64.DecodeLength(part);
    Base64.LengthsInverse(n);
  }

  // ---------------------------------------------------------------------------------------------
  // The round trip
  // ---------------------------------------------------------------------------------------------

  /** The parts are read where they were written. */
  lemma {:induction false} ReadsWhatWasWritten(c: Chain, p: nat, i: nat, n: nat)
    requires OneData(c, p) && i <= |c|
    ensures ReadAt(c, i, c[p].ObfuscatedLen(n)) == LengthOf(c, i, n)
  {
    if i > 0 {
      ReadsWhatWasWritten(c, p, i - 1, n);
      Base64.LengthsInverse(n);
    }
  }

  /** Only the data tag depends on the length of the source. */
  lemma {:induction false} LengthSplits(c: Chain, p: nat, i: nat, n: nat)
    requires OneData(c, p) && i <= |c|
    ensures LengthOf(c, i, n) == LengthOf(c, i, 0) + (if i > p then c[p].ObfuscatedLen(n) else 0)
  {
    if i > 0 {
      LengthSplits(c, p, i - 1, n);
    }
  }

  lemma {:induction false} WirePart(c: Chain, i: nat, k: nat, src: Bytes, noises: seq<Bytes>, now: uint32)
    requires Supplied(c, noises) && i < k <= |c|
    ensures LengthOf(c, i, |src|) <= LengthOf(c, i + 1, |src|) <= |WireOf(c, k, src, noises, now)|
    ensures WireOf(c, k, src, noises, now)[LengthOf(c, i, |src|)..LengthOf(c, i + 1, |src|)]
         == Output(c[i], src, noises[i], now)
  {
    var m := k - 1;
    var x, y := LengthOf(c, i, |src|), LengthOf(c, i + 1, |src|);
    var before, last := WireOf(c, m, src, noises, now), Output(c[m], src, noises[m], now);
    if i < m {
      WirePart(c, i, m, src, noises, now);
      HeadSlice(before, last, x, y);
    } else {
      LastSlice(before, last, x, y);
    }
  }

  lemma LastSlice(before: Bytes, last: Bytes, x: nat, y: nat)
    requires x == |before| && y == |before| + |last|
    ensures (before + last)[x..y] == last
  {
  }

  /** For every chain with one data tag the lengths are inverse to each other, and what Obfuscate writes is
      accepted and gives back the source. */
  lemma RoundTrip(c: Chain, p: nat, src: Bytes, noises: seq<Bytes>, now: uint32)
    requires OneData(c, p) && Supplied(c, noises)
    ensures var packet := Wire(c, src, noises, now);
      && |packet| == ObfuscatedLen(c, |src|) >= ObfuscatedLen(c, 0)
      && DeobfuscatedLen(c, |packet|) == |src|
      && WellFormed(c, p, packet) && Payload(c, p, packet) == src
  {
    var packet := Wire(c, src, noises, now);
    PacketLengths(c, p, src, noises, now);
    forall i | 0 <= i < |c|
      ensures TagAccepts(c, p, i, packet)
    {
      PartIsOutput(c, p, i, src, noises, now);
      OutputAccepted(c[i], src, noises[i], now);
    }
    PartIsOutput(c, p, p, src, noises, now);
    OutputAccepted(c[p], src, noises[p], now);
  }

  lemma PacketLengths(c: Chain, p: nat, src: Bytes, noises: seq<Bytes>, now: uint32)
    requires OneData(c, p) && Supplied(c, noises)
    ensures var packet := Wire(c, src, noises, now);
      && |packet| == ObfuscatedLen(c, |src|) >= ObfuscatedLen(c, 0)
      && DeobfuscatedLen(c, |packet|) == |src|
  {
    DynamicLength(c, p, |src|);
    WrittenAll(c, |c|, c[p].ObfuscatedLen(|src|));
    ReadsInRange(c, p, |c|, c[p].ObfuscatedLen(|src|));
    Base64.LengthsInverse(|src|);
  }

  lemma PartIsOutput(c: Chain, p: nat, i: nat, src: Bytes, noises: seq<Bytes>, now: uint32)
    requires OneData(c, p) && Supplied(c, noises) && i < |c|
    ensures var packet := Wire(c, src, noises, now);
      && |packet| >= ObfuscatedLen(c, 0) && ReadAt(c, i + 1, |packet| - ObfuscatedLen(c, 0)) <= |packet|
      && Part(c, i, packet) == Output(c[i], src, noises[i], now)
  {
    WholeWirePart(c, i, src, noises, now);
    PartAt(c, p, i, |src|, Wire(c, src, noises, now), Output(c[i], src, noises[i], now));
  }

  lemma PartAt(c: Chain, p: nat, i: nat, n: nat, packet: Bytes, part: Bytes)
    requires OneData(c, p) && i < |c| && |packet| == ObfuscatedLen(c, n)
    requires LengthOf(c, i, n) <= LengthOf(c, i + 1, n) <= |packet|
    requires packet[LengthOf(c, i, n)..LengthOf(c, i + 1, n)] == part
    ensures |packet| >= ObfuscatedLen(c, 0) && ReadAt(c, i + 1, |packet| - ObfuscatedLen(c, 0)) <= |packet|
    ensures Part(c, i, packet) == part
  {
    DynamicLength(c, p, n);
    ReadsWhatWasWritten(c, p, i, n);
    ReadsWhatWasWritten(c, p, i + 1, n);
  }

  lemma DynamicLength(c: Chain, p: nat, n: nat)
    requires OneData(c, p)
    ensures ObfuscatedLen(c, n) == ObfuscatedLen(c, 0) + c[p].ObfuscatedLen(n)
  {
    LengthSplits(c, p, |c|, n);
  }

  lemma WholeWirePart(c: Chain, i: nat, src: Bytes, noises: seq<Bytes>, now: uint32)
    requires Supplied(c, noises) && i < |c|
    ensures var packet := Wire(c, src, noises, now);
      && LengthOf(c, i, |src|) <= LengthOf(c, i + 1, |src|) <= |packet|
      && packet[LengthOf(c, i, |src|)..LengthOf(c, i + 1, |src|)] == Output(c[i], src, noises[i], now)
  {
    WirePart(c, i, |c|, src, noises, now);
  }

  /** How many data tags of either kind there are among the first k. */
  function PlainOf(c: Chain, k: nat): nat
    requires k <= |c|
  {
    if k == 0 then 0 else PlainOf(c, k - 1) + (if c[k - 1].DataTag? then 1 else 0)
  }

  function StringsOf(c: Chain, k: nat): nat
    requires k <= |c|
  {
    if k == 0 then 0 else StringsOf(c, k - 1) + (if c[k - 1].DataStringTag? then 1 else 0)
  }

  function Plain(c: Chain): nat {
    PlainOf(c, |c|)
  }

  function Strings(c: Chain): nat {
    StringsOf(c, |c|)
  }

  /** k times x */
  function Times(k: nat, x: nat): nat {
    if k == 0 then 0 else Times(k - 1, x) + x
  }

  lemma {:induction false} LengthSum(c: Chain, k: nat, n: nat, encoded: nat)
    requires encoded == Base64.EncodedLen(n) && k <= |c|
    ensures LengthOf(c, k, n) == LengthOf(c, k, 0) + Times(PlainOf(c, k), n) + Times(StringsOf(c, k), encoded)
  {
    if k > 0 {
      LengthSum(c, k - 1, n, encoded);
      TagLenSum(c[k - 1], n, encoded);
    }
  }

  lemma TagLenSum(t: Tag, n: nat, encoded: nat)
    requires encoded == Base64.EncodedLen(n)
    ensures t.ObfuscatedLen(n)
         == t.ObfuscatedLen(0) + (if t.DataTag? then n else 0) + (if t.DataStringTag? then encoded else 0)
  {
  }

  lemma {:induction false} DecodedSum(c: Chain, k: nat, n: nat)
    requires k <= |c|
    ensures DecodedOf(c, k, n) == Times(PlainOf(c, k), n) + Times(StringsOf(c, k), Base64.DecodedLen(n))
  {
    if k > 0 {
      DecodedSum(c, k - 1, n);
    }
  }

  /** The length of the source can be told from that of the packet exactly if there is one data tag. */
  lemma LengthsInverseExactly(c: Chain)
    ensures (forall n :: LengthRestored(c, n)) <==> Plain(c) + Strings(c) == 1
  {
    if Plain(c) + Strings(c) == 1 {
      forall n
        ensures LengthRestored(c, n)
      {
        OneTagRestores(c, n);
      }
    } else {
      OtherwiseNotRestored(c);
    }
  }

  ghost predicate LengthRestored(c: Chain, n: nat) {
    ObfuscatedLen(c, n) >= ObfuscatedLen(c, 0) && DeobfuscatedLen(c, ObfuscatedLen(c, n)) == n
  }

  lemma OneTagRestores(c: Chain, n: nat)
    requires Plain(c) + Strings(c) == 1
    ensures LengthRestored(c, n)
  {
    LengthSum(c, |c|, n, Base64.EncodedLen(n));
    DecodedSum(c, |c|, ObfuscatedLen(c, n) - ObfuscatedLen(c, 0));
    Base64.LengthsInverse(n);
    if Plain(c) == 1 {
      assert Strings(c) == 0 && Times(1, n) == Times(0, n) + n;
    } else {
      assert Strings(c) == 1 && Times(1, Base64.EncodedLen(n)) == Times(0, Base64.EncodedLen(n)) + Base64.EncodedLen(n);
      assert Times(1, n) == Times(0, n) + n;
    }
  }

  /** One byte comes back as none, or as too many. */
  lemma OtherwiseNotRestored(c: Chain)
    requires Plain(c) + Strings(c) != 1
    ensures !LengthRestored(c, 1)
  {
    var a, b := Plain(c), Strings(c);
    LengthSum(c, |c|, 1, 2);
    TimesAtLeast(a, 1);
    TimesAtLeast(b, 2);
    var n := Times(a, 1) + Times(b, 2);
    DecodedSum(c, |c|, n);
    TimesAtLeast(a, n);
    TimesAtLeast(b, Base64.DecodedLen(n));
    if a + b >= 2 {
      assert n >= 2;
      assert n >= 4 || a > 0;
      assert Base64.DecodedLen(n) >= 1;
    }
  }

  lemma {:induction false} TimesAtLeast(k: nat, x: nat)
    ensures k > 0 ==> Times(k, x) >= x
    ensures x > 0 ==> Times(k, x) >= k
    ensures x >= 2 ==> Times(k, x) >= 2 * k
    ensures k == 0 || x == 0 ==> Times(k, x) == 0
  {
    if k > 0 {
      TimesAtLeast(k - 1, x);
    }
  }
}
