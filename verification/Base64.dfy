/** Base64 without padding (RFC 4648, section 4, with the option of section 3.2). */
module Base64 {
  import opened Words
  import opened Wrappers

  type Sextet = x: int | 0 <= x < 64

  function Letter(i: Sextet): byte {
    if i < 26 then 65 + i
    else if i < 52 then 97 + (i - 26)
    else if i < 62 then 48 + (i - 52)
    else if i == 62 then 43 else 47
  }

  function Index(c: byte): Option<Sextet> {
    if 65 <= c < 91 then Some(c - 65)
    else if 97 <= c < 123 then Some(c - 97 + 26)
    else if 48 <= c < 58 then Some(c - 48 + 52)
    else if c == 43 then Some(62)
    else if c == 47 then Some(63)
    else None
  }

  lemma IndexOfLetter(i: Sextet)
    ensures Index(Letter(i)) == Some(i)
  {
  }

  /** n characters in a row. */
  function Row(first: char, n: nat): string
    requires first as int + n <= 128
  {
    seq(n, i requires 0 <= i < n => (first as int + i) as char)
  }

  /** The alphabet of table 1 in RFC 4648, in its order. */
  function Alphabet(): string {
    Row('A', 26) + Row('a', 26) + Row('0', 10) + "+/"
  }

  lemma LettersInOrder(i: Sextet)
    ensures |Alphabet()| == 64 && Letter(i) == Alphabet()[i] as int
  {
  }

  /** Four letters for three bytes, and one letter more than there are bytes left over. */
  function EncodedLen(n: nat): nat {
    if n == 0 then 0 else if n < 3 then n + 1 else 4 + EncodedLen(n - 3)
  }

  /** Three bytes for four letters; of the letters left over the first adds nothing. */
  function DecodedLen(n: nat): nat {
    if n <= 1 then 0 else if n < 4 then n - 1 else 3 + DecodedLen(n - 4)
  }

  /** The closed forms that encoding/base64 computes. */
  lemma {:induction false} LengthFormulas(n: nat)
    ensures EncodedLen(n) == n / 3 * 4 + (n % 3 * 8 + 5) / 6
    ensures DecodedLen(n) == n / 4 * 3 + n % 4 * 6 / 8
  {
    if n >= 3 {
      LengthFormulas(n - 3);
      assert n / 3 == 1 + (n - 3) / 3 && n % 3 == (n - 3) % 3;
    }
    if n >= 4 {
      LengthFormulas(n - 4);
      assert n / 4 == 1 + (n - 4) / 4 && n % 4 == (n - 4) % 4;
    }
  }

  function Encode(b: seq<byte>): seq<byte> {
    if b == [] then []
    else if |b| == 1 then [Letter(b[0] / 4), Letter(b[0] % 4 * 16)]
    else if |b| == 2 then [Letter(b[0] / 4), Letter(b[0] % 4 * 16 + b[1] / 16), Letter(b[1] % 16 * 4)]
    else
      [Letter(b[0] / 4), Letter(b[0] % 4 * 16 + b[1] / 16), Letter(b[1] % 16 * 4 + b[2] / 64), Letter(b[2] % 64)]
      + Encode(b[3..])
  }

  /** Stops at the first group that has a byte outside the alphabet. */
  function Decode(s: seq<byte>): seq<byte> {
    if |s| < 2 then []
    else
      var c0, c1 := Index(s[0]), Index(s[1]);
      if c0.None? || c1.None? then []
      else
        var first := c0.value * 4 + c1.value / 16;
        if |s| == 2 then [first]
        else
          var c2 := Index(s[2]);
          if c2.None? then []
          else
            var second := c1.value % 16 * 16 + c2.value / 4;
            if |s| == 3 then [first, second]
            else
              var c3 := Index(s[3]);
              if c3.None? then [] else [first, second, c2.value % 4 * 64 + c3.value] + Decode(s[4..])
  }

  lemma {:induction false} EncodeLength(b: seq<byte>)
    ensures |Encode(b)| == EncodedLen(|b|)
  {
    if |b| >= 3 {
      EncodeLength(b[3..]);
    }
  }

  lemma {:induction false} DecodeLength(s: seq<byte>)
    ensures |Decode(s)| <= DecodedLen(|s|)
  {
    if |s| >= 4 {
      DecodeLength(s[4..]);
    }
  }

  /** The lengths are inverse to each other. */
  lemma {:induction false} LengthsInverse(n: nat)
    ensures DecodedLen(EncodedLen(n)) == n
  {
    if n >= 3 {
      LengthsInverse(n - 3);
    }
  }

  lemma {:induction false} EncodedFits(n: nat)
    ensures EncodedLen(DecodedLen(n)) <= n
  {
    if n >= 4 {
      EncodedFits(n - 4);
    }
  }

  lemma {:induction false} RoundTrip(b: seq<byte>)
    ensures Decode(Encode(b)) == b
  {
    if |b| == 1 {
      OneByte(b[0]);
    } else if |b| == 2 {
      TwoBytes(b[0], b[1]);
    } else if |b| >= 3 {
      RoundTrip(b[3..]);
      ThreeBytes(b[0], b[1], b[2]);
      assert Encode(b)[4..] == Encode(b[3..]);
    }
  }

  lemma OneByte(x: byte)
    ensures Decode([Letter(x / 4), Letter(x % 4 * 16)]) == [x]
  {
    IndexOfLetter(x / 4);
    IndexOfLetter(x % 4 * 16);
  }

  lemma TwoBytes(x: byte, y: byte)
    ensures Decode([Letter(x / 4), Letter(x % 4 * 16 + y / 16), Letter(y % 16 * 4)]) == [x, y]
  {
    IndexOfLetter(x / 4);
    IndexOfLetter(x % 4 * 16 + y / 16);
    IndexOfLetter(y % 16 * 4);
    Middle(x, y);
  }

  lemma Middle(x: byte, y: byte)
    ensures (x % 4 * 16 + y / 16) / 16 == x % 4 && (x % 4 * 16 + y / 16) % 16 == y / 16
  {
  }

  lemma ThreeBytes(x: byte, y: byte, z: byte)
    ensures var c0, c1, c2, c3 := x / 4, x % 4 * 16 + y / 16, y % 16 * 4 + z / 64, z % 64;
      && Index(Letter(c0)) == Some(c0) && Index(Letter(c1)) == Some(c1)
      && Index(Letter(c2)) == Some(c2) && Index(Letter(c3)) == Some(c3)
      && c0 * 4 + c1 / 16 == x && c1 % 16 * 16 + c2 / 4 == y && c2 % 4 * 64 + c3 == z
  {
    IndexOfLetter(x / 4);
    IndexOfLetter(x % 4 * 16 + y / 16);
    IndexOfLetter(y % 16 * 4 + z / 64);
    IndexOfLetter(z % 64);
    Middle(x, y);
    assert (y % 16 * 4 + z / 64) / 4 == y % 16 && (y % 16 * 4 + z / 64) % 4 == z / 64;
  }
}
