/** Addresses as their bits in network order, and the three bit operations of
    device/allowedips.go: `commonBits`, `choose` and `maskSelf`.

    Byte `k` of an address is bits `8k .. 8k+7`, most significant first, so the shift
    `(ip[byte] >> shift) & 1` reads bit `8 * byte + 7 - shift`. */
module AddressBits {
  const IPV4_BITS := 32
  const IPV6_BITS := 128

  ghost predicate AddressLength(w: nat) {
    w == IPV4_BITS || w == IPV6_BITS
  }

  /** The two addresses have the same first `k` bits. */
  ghost predicate Agree(a: seq<bool>, b: seq<bool>, k: nat)
    requires |a| == |b| && k <= |a|
  {
    forall i :: 0 <= i < k ==> a[i] == b[i]
  }

  function Bit(a: seq<bool>, i: nat): (b: nat)
    requires i < |a|
    ensures b <= 1
  {
    if a[i] then 1 else 0
  }

  /** `(ip[bitAtByte] >> bitAtShift) & 1`. */
  function Choose(ip: seq<bool>, bitAtByte: nat, bitAtShift: nat): (b: nat)
    requires bitAtShift <= 7 && 8 * bitAtByte + 7 - bitAtShift < |ip|
    ensures b <= 1
  {
    Bit(ip, 8 * bitAtByte + 7 - bitAtShift)
  }

  function Xor(a: seq<bool>, b: seq<bool>): (x: seq<bool>)
    requires |a| == |b|
    ensures |x| == |a| && forall i :: 0 <= i < |x| ==> x[i] == (a[i] != b[i])
  {
    seq(|a|, i requires 0 <= i < |a| => a[i] != b[i])
  }

  function LeadingZeros(x: seq<bool>): (n: nat)
    ensures n <= |x| && (forall i :: 0 <= i < n ==> !x[i]) && (n < |x| ==> x[n])
  {
    if x == [] || x[0] then 0
    else
      var n := LeadingZeros(x[1..]);
      assert forall i :: 1 <= i < n + 1 ==> x[i] == x[1..][i - 1];
      n + 1
  }

  function CommonBits4(a: seq<bool>, b: seq<bool>): (n: nat)
    requires |a| == |b| == IPV4_BITS
    ensures n <= |a| && Agree(a, b, n) && (n < |a| ==> a[n] != b[n])
  {
    LeadingZeros(Xor(a, b))
  }

  /** Two 64-bit words, the second read only if the first is equal. */
  function CommonBits6(a: seq<bool>, b: seq<bool>): (n: nat)
    requires |a| == |b| == IPV6_BITS
    ensures n <= |a| && Agree(a, b, n) && (n < |a| ==> a[n] != b[n])
  {
    var x := Xor(a[..64], b[..64]);
    assert forall i :: 0 <= i < 64 ==> x[i] == (a[i] != b[i]);
    var n := LeadingZeros(x);
    if n < 64 then n
    else
      var y := Xor(a[64..], b[64..]);
      assert forall i :: 64 <= i < 128 ==> y[i - 64] == (a[i] != b[i]);
      64 + LeadingZeros(y)
  }

  function CommonBits(a: seq<bool>, b: seq<bool>): (n: nat)
    requires |a| == |b| && (|a| == IPV4_BITS || |a| == IPV6_BITS)
    ensures n <= |a| && Agree(a, b, n) && (n < |a| ==> a[n] != b[n])
  {
    if |a| == IPV4_BITS then CommonBits4(a, b) else CommonBits6(a, b)
  }

  /** The address with every bit from `k` on cleared. */
  function Mask(a: seq<bool>, k: nat): (m: seq<bool>)
    ensures |m| == |a|
    ensures forall i :: 0 <= i < |a| ==> m[i] == (i < k && a[i])
  {
    seq(|a|, i requires 0 <= i < |a| => i < k && a[i])
  }

  lemma MaskTwice(a: seq<bool>, k: nat)
    ensures Mask(Mask(a, k), k) == Mask(a, k)
  {
  }

  lemma MaskEqual(a: seq<bool>, b: seq<bool>, k: nat)
    requires |a| == |b| && k <= |a|
    ensures Mask(a, k) == Mask(b, k) <==> Agree(a, b, k)
  {
    if Agree(a, b, k) {
      assert Mask(a, k) == Mask(b, k);
    }
    if Mask(a, k) == Mask(b, k) {
      forall i | 0 <= i < k
        ensures a[i] == b[i]
      {
        assert Mask(a, k)[i] == Mask(b, k)[i];
      }
    }
  }

  /** `net.CIDRMask` as a bit string. */
  function CIDRMask(ones: nat, w: nat): (m: seq<bool>)
    ensures |m| == w && forall i :: 0 <= i < w ==> m[i] == (i < ones)
  {
    seq(w, i => i < ones)
  }
}
