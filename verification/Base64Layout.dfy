/** Where each bit of a byte string goes in its encoding: the alphabet of section 5
    of RFC 4648 and its groups of 24 bits (section 4). */
module Base64Layout {
  import opened Wrappers
  import opened Base64Url

  const UPPER := "ABCDEFGHIJKLMNOPQRSTUVWXYZ"
  const LOWER := "abcdefghijklmnopqrstuvwxyz"
  const TEN := "0123456789"

  /** The alphabet, in the order of the digits; the decoder also reads the two
      characters of the standard alphabet. */
  lemma AlphabetIs(n: Code)
    ensures |UPPER| == |LOWER| == 26 && |TEN| == 10
    ensures CodeChar(n) == if n < 26 then UPPER[n] else if n < 52 then LOWER[n - 26] else if n < 62 then TEN[n - 52]
                           else if n == 62 then '-' else '_'
    ensures CharCode(CodeChar(n)) == Some(n)
    ensures CharCode('+') == Some(62) && CharCode('/') == Some(63)
  {
  }

  function Bits24(a: Byte, b: Byte, c: Byte): bv24 {
    (a as bv24 << 16) | (b as bv24 << 8) | c as bv24
  }

  function Digits24(w: Sextet, x: Sextet, y: Sextet, z: Sextet): bv24 {
    (w as bv24 << 18) | (x as bv24 << 12) | (y as bv24 << 6) | z as bv24
  }

  lemma SameBits(a: Byte, b: Byte, c: Byte)
    ensures Digits24(Digit1(a), Digit2(a, b), Digit3(b, c), Digit4(c)) == Bits24(a, b, c)
  {
  }

  /** Bytes and digits beyond the end count as 0. */
  function ByteAt(b: seq<Byte>, i: nat): Byte { if i < |b| then b[i] else 0 }

  function DigitAt(d: seq<Sextet>, i: nat): Sextet { if i < |d| then d[i] else 0 }

  ghost predicate GroupAgrees(b: seq<Byte>, d: seq<Sextet>, g: nat) {
    Digits24(DigitAt(d, 4 * g), DigitAt(d, 4 * g + 1), DigitAt(d, 4 * g + 2), DigitAt(d, 4 * g + 3))
    == Bits24(ByteAt(b, 3 * g), ByteAt(b, 3 * g + 1), ByteAt(b, 3 * g + 2))
  }

  lemma {:induction false} PackedGroups(b: seq<Byte>, g: nat)
    ensures GroupAgrees(b, Pack(b), g)
    decreases g
  {
    if g == 0 {
      FirstGroup(b);
    } else if |b| < 3 {
      assert |Pack(b)| <= 4;
    } else {
      PackedGroups(b[3..], g - 1);
      PackGroup(b[0], b[1], b[2], b[3..]);
      assert b == [b[0], b[1], b[2]] + b[3..];
      OneGroupOn(b, Pack(b), b[3..], Pack(b[3..]), g - 1);
    }
  }

  lemma FirstGroup(b: seq<Byte>)
    ensures GroupAgrees(b, Pack(b), 0)
  {
    SameBits(ByteAt(b, 0), ByteAt(b, 1), ByteAt(b, 2));
    if |b| == 0 {
      assert Pack(b) == [];
    } else if |b| == 1 {
      PackShort(b[0], 0);
      assert b == [b[0]];
    } else if |b| == 2 {
      PackShort(b[0], b[1]);
      assert b == [b[0], b[1]];
    }
  }

  lemma OneGroupOn(b: seq<Byte>, d: seq<Sextet>, b': seq<Byte>, d': seq<Sextet>, g: nat)
    requires |b| >= 3 && |d| >= 4 && b' == b[3..] && d' == d[4..] && GroupAgrees(b', d', g)
    ensures GroupAgrees(b, d, g + 1)
  {
    forall i: nat ensures ByteAt(b', i) == ByteAt(b, i + 3) && DigitAt(d', i) == DigitAt(d, i + 4) {
    }
  }

  /** Each group of three bytes becomes four characters that carry the same 24 bits
      from the left, the first character the highest six; a last group is filled up
      with zero bits, and no character is written for six bits beyond them. */
  lemma EncodingLayout(b: seq<Byte>, g: nat)
    ensures forall i :: 0 <= i < |Encode(b)| ==> exists v: Sextet :: DigitAt(Pack(b), i) == v && Encode(b)[i] == DigitChar(v)
    ensures GroupAgrees(b, Pack(b), g)
    ensures |Encode(b)| == |Pack(b)| == (8 * |b| + 5) / 6
  {
    EncodeIsPack(b);
    PackedGroups(b, g);
    EncodedForm(b);
    assert Encode(b) == Chars(Pack(b));
    forall i | 0 <= i < |Encode(b)| ensures DigitAt(Pack(b), i) == Pack(b)[i] && Encode(b)[i] == DigitChar(Pack(b)[i]) {
    }
  }
}
