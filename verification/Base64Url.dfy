/** Unpadded base64url (src/signer.py, section 5 of RFC 4648). Python's decoder
    is lenient: it skips characters outside the alphabet, accepts the standard
    alphabet's '+' and '/' too, and stops at a completing run of '='. */
module Base64Url {
  import opened Wrappers

  type Byte = bv8
  type Sextet = bv6

  datatype DecodeError = NotAscii | OneDigitLeft | IncorrectPadding

  // ----- the alphabet ------------------------------------------------------------------

  type Code = n: int | 0 <= n < 64

  function CodeChar(n: Code): char {
    if n < 26 then 'A' + n as char
    else if n < 52 then 'a' + (n - 26) as char
    else if n < 62 then '0' + (n - 52) as char
    else if n == 62 then '-' else '_'
  }

  function CharCode(c: char): Option<Code> {
    if 'A' <= c <= 'Z' then Some(c as int - 'A' as int)
    else if 'a' <= c <= 'z' then Some(c as int - 'a' as int + 26)
    else if '0' <= c <= '9' then Some(c as int - '0' as int + 52)
    else if c == '-' || c == '+' then Some(62)
    else if c == '_' || c == '/' then Some(63)
    else None
  }

  function DigitChar(v: Sextet): char { CodeChar(v as int) }

  function DigitValue(c: char): Option<Sextet> {
    var code := CharCode(c);
    if code.Some? then Some(code.value as Sextet) else None
  }

  predicate UrlSafe(c: char) { CharCode(c).Some? && c != '+' && c != '/' }

  lemma CodesMatch(n: Code)
    ensures CharCode(CodeChar(n)) == Some(n) && UrlSafe(CodeChar(n))
  {
  }

  lemma UrlSafeIsCodeChar(c: char)
    requires UrlSafe(c)
    ensures CodeChar(CharCode(c).value) == c
  {
  }

  lemma CodeAsSextet(n: Code)
    ensures (n as Sextet) as int == n
  {
  }

  lemma SextetAsCode(v: Sextet)
    ensures (v as int) as Sextet == v
  {
  }

  lemma DigitsMatch(v: Sextet)
    ensures DigitValue(DigitChar(v)) == Some(v) && UrlSafe(DigitChar(v))
  {
    CodesMatch(v as int);
    SextetAsCode(v);
  }

  lemma UrlSafeIsDigitChar(c: char)
    requires UrlSafe(c)
    ensures DigitChar(DigitValue(c).value) == c
  {
    UrlSafeIsCodeChar(c);
    CodeAsSextet(CharCode(c).value);
  }

  // ----- regrouping eight-bit bytes into six-bit digits and back ------------------------

  function Digit1(a: Byte): Sextet { (a >> 2) as Sextet }
  function Digit2(a: Byte, b: Byte): Sextet { (((a & 3) << 4) | (b >> 4)) as Sextet }
  function Digit3(b: Byte, c: Byte): Sextet { (((b & 15) << 2) | (c >> 6)) as Sextet }
  function Digit4(c: Byte): Sextet { (c & 63) as Sextet }

  function Byte1(w: Sextet, x: Sextet): Byte { (w as Byte << 2) | (x as Byte >> 4) }
  function Byte2(x: Sextet, y: Sextet): Byte { (x as Byte << 4) | (y as Byte >> 2) }
  function Byte3(y: Sextet, z: Sextet): Byte { (y as Byte << 6) | z as Byte }

  lemma BytesOfDigits(a: Byte, b: Byte, c: Byte)
    ensures Byte1(Digit1(a), Digit2(a, b)) == a
    ensures Byte2(Digit2(a, b), Digit3(b, c)) == b
    ensures Byte3(Digit3(b, c), Digit4(c)) == c
  {
  }

  lemma DigitsOfBytes(w: Sextet, x: Sextet, y: Sextet, z: Sextet)
    ensures Digit1(Byte1(w, x)) == w
    ensures Digit2(Byte1(w, x), Byte2(x, y)) == x
    ensures Digit3(Byte2(x, y), Byte3(y, z)) == y
    ensures Digit4(Byte3(y, z)) == z
  {
  }

  lemma LastDigits(w: Sextet, x: Sextet, y: Sextet)
    ensures Digit2(Byte1(w, x), 0) == x <==> x & 15 == 0
    ensures Digit3(Byte2(x, y), 0) == y <==> y & 3 == 0
  {
  }

  // ----- encoding -----------------------------------------------------------------------

  /** `base64.urlsafe_b64encode`: four characters for each three bytes, the last
      group filled up with '='. */
  function UrlsafeEncode(b: seq<Byte>): string {
    if |b| == 0 then ""
    else if |b| == 1 then
      [DigitChar(Digit1(b[0])), DigitChar(Digit2(b[0], 0)), '=', '=']
    else if |b| == 2 then
      [DigitChar(Digit1(b[0])), DigitChar(Digit2(b[0], b[1])), DigitChar(Digit3(b[1], 0)), '=']
    else
      [DigitChar(Digit1(b[0])), DigitChar(Digit2(b[0], b[1])), DigitChar(Digit3(b[1], b[2])), DigitChar(Digit4(b[2]))]
      + UrlsafeEncode(b[3..])
  }

  function StripPadding(s: string): string {
    if |s| > 0 && s[|s| - 1] == '=' then StripPadding(s[..|s| - 1]) else s
  }

  /** `_b64u_encode` */
  function Encode(b: seq<Byte>): string { StripPadding(UrlsafeEncode(b)) }

  // ----- decoding -----------------------------------------------------------------------

  /** The decoder between two characters: how many digits of a group it has seen,
      the last of them, the '=' since, and the bytes written. */
  datatype State = State(quad: nat, left: Sextet, pads: nat, out: seq<Byte>)

  function TakeDigit(st: State, v: Sextet): State {
    match st.quad
    case 0 => State(1, v, 0, st.out)
    case 1 => State(2, v, 0, st.out + [Byte1(st.left, v)])
    case 2 => State(3, v, 0, st.out + [Byte2(st.left, v)])
    case _ => State(0, 0, 0, st.out + [Byte3(st.left, v)])
  }

  function Scan(s: string, st: State): Result<seq<Byte>, DecodeError>
    decreases |s|
  {
    if |s| == 0 then
      if st.quad == 0 then Ok(st.out)
      else if st.quad == 1 then Err(OneDigitLeft)
      else Err(IncorrectPadding)
    else if s[0] == '=' then
      if st.quad >= 2 && st.quad + st.pads + 1 >= 4 then Ok(st.out)
      else Scan(s[1..], if st.quad >= 2 then st.(pads := st.pads + 1) else st)
    else
      match DigitValue(s[0])
      case None => Scan(s[1..], st)
      case Some(v) => Scan(s[1..], TakeDigit(st, v))
  }

  function Repeat(c: char, n: nat): string { seq(n, _ => c) }

  /** `(-len) % 4` */
  function PaddingNeeded(len: nat): nat { -(len as int) % 4 }

  function Start(): State { State(0, 0, 0, []) }

  /** `_b64u_decode` */
  function Decode(s: string): Result<seq<Byte>, DecodeError> {
    var padded := s + Repeat('=', PaddingNeeded(|s|));
    if exists c :: c in padded && c as int >= 128 then Err(NotAscii) else Scan(padded, Start())
  }

  // ----- both sides as sequences of six-bit digits -----------------------------------------

  function Pack(b: seq<Byte>): seq<Sextet> {
    if |b| == 0 then []
    else if |b| == 1 then [Digit1(b[0]), Digit2(b[0], 0)]
    else if |b| == 2 then [Digit1(b[0]), Digit2(b[0], b[1]), Digit3(b[1], 0)]
    else [Digit1(b[0]), Digit2(b[0], b[1]), Digit3(b[1], b[2]), Digit4(b[2])] + Pack(b[3..])
  }

  /** The bytes made of complete groups of eight bits; the rest is dropped. */
  function Unpack(d: seq<Sextet>): seq<Byte> {
    if |d| < 2 then []
    else if |d| == 2 then [Byte1(d[0], d[1])]
    else if |d| == 3 then [Byte1(d[0], d[1]), Byte2(d[1], d[2])]
    else [Byte1(d[0], d[1]), Byte2(d[1], d[2]), Byte3(d[2], d[3])] + Unpack(d[4..])
  }

  function Chars(d: seq<Sextet>): string { seq(|d|, i requires 0 <= i < |d| => DigitChar(d[i])) }

  /** The values of the alphabet characters of `s`, the others skipped. */
  function Digits(s: string): seq<Sextet> {
    if |s| == 0 then []
    else (match DigitValue(s[0]) case None => [] case Some(v) => [v]) + Digits(s[1..])
  }

  lemma {:induction false} UnpackPack(b: seq<Byte>)
    ensures Unpack(Pack(b)) == b
  {
    if |b| == 0 {
    } else if |b| == 1 {
      BytesOfDigits(b[0], 0, 0);
      UnpackShort(Digit1(b[0]), Digit2(b[0], 0), 0);
    } else if |b| == 2 {
      BytesOfDigits(b[0], b[1], 0);
      UnpackShort(Digit1(b[0]), Digit2(b[0], b[1]), Digit3(b[1], 0));
    } else {
      var rest := b[3..];
      UnpackPack(rest);
      BytesOfDigits(b[0], b[1], b[2]);
      UnpackGroup(Digit1(b[0]), Digit2(b[0], b[1]), Digit3(b[1], b[2]), Digit4(b[2]), Pack(rest));
      assert b == [b[0], b[1], b[2]] + rest;
    }
  }

  lemma UnpackShort(w: Sextet, x: Sextet, y: Sextet)
    ensures Unpack([w, x]) == [Byte1(w, x)]
    ensures Unpack([w, x, y]) == [Byte1(w, x), Byte2(x, y)]
  {
  }

  lemma UnpackGroup(w: Sextet, x: Sextet, y: Sextet, z: Sextet, rest: seq<Sextet>)
    ensures Unpack([w, x, y, z] + rest) == [Byte1(w, x), Byte2(x, y), Byte3(y, z)] + Unpack(rest)
  {
    assert ([w, x, y, z] + rest)[4..] == rest;
  }

  lemma PackGroup(a: Byte, b: Byte, c: Byte, rest: seq<Byte>)
    ensures Pack([a, b, c] + rest) == [Digit1(a), Digit2(a, b), Digit3(b, c), Digit4(c)] + Pack(rest)
  {
    assert ([a, b, c] + rest)[3..] == rest;
  }

  /** `k` digits are just enough for `n` bytes. */
  predicate Fits(n: nat, k: nat) {
    3 * k - 4 * n == if n % 3 == 0 then 0 else if n % 3 == 1 then 2 else 1
  }

  lemma {:induction false} PackLength(b: seq<Byte>)
    ensures Fits(|b|, |Pack(b)|)
  {
    if |b| >= 3 {
      var rest := b[3..];
      PackLength(rest);
      PackGroup(b[0], b[1], b[2], rest);
      assert b == [b[0], b[1], b[2]] + rest;
      OneGroupMore(|rest|, |Pack(rest)|);
    }
  }

  lemma OneGroupMore(n: nat, k: nat)
    requires Fits(n, k)
    ensures Fits(n + 3, k + 4)
  {
  }

  lemma RoundUp(n: nat, k: nat)
    requires Fits(n, k)
    ensures k == (4 * n + 2) / 3 && k % 4 != 1
  {
  }

  lemma {:induction false} UnpackLength(d: seq<Sextet>)
    ensures |Unpack(d)| == 3 * |d| / 4
  {
    if |d| >= 4 {
      UnpackLength(d[4..]);
      UnpackGroup(d[0], d[1], d[2], d[3], d[4..]);
      assert d == [d[0], d[1], d[2], d[3]] + d[4..];
    }
  }

  /** The bits of the last digit beyond the last whole byte are 0. */
  predicate ZeroTail(d: seq<Sextet>) {
    && (|d| % 4 == 2 ==> d[|d| - 1] & 15 == 0)
    && (|d| % 4 == 3 ==> d[|d| - 1] & 3 == 0)
  }

  lemma {:induction false} PackUnpack(d: seq<Sextet>)
    ensures Pack(Unpack(d)) == d <==> |d| % 4 != 1 && ZeroTail(d)
  {
    if |d| < 4 {
      PackUnpackLast(d);
    } else {
      var b, rest := Unpack(d), d[4..];
      PackUnpack(rest);
      DigitsOfBytes(d[0], d[1], d[2], d[3]);
      PackGroup(Byte1(d[0], d[1]), Byte2(d[1], d[2]), Byte3(d[2], d[3]), Unpack(rest));
      assert d == [d[0], d[1], d[2], d[3]] + rest;
      assert Pack(b) == d[..4] + Pack(Unpack(rest));
      assert Pack(b) == d ==> Pack(b)[4..] == rest;
      ZeroTailOfRest(d);
    }
  }

  lemma ZeroTailOfRest(d: seq<Sextet>)
    requires |d| >= 4
    ensures ZeroTail(d) == ZeroTail(d[4..]) && |d[4..]| % 4 == |d| % 4
  {
  }

  lemma PackUnpackLast(d: seq<Sextet>)
    requires |d| < 4
    ensures Pack(Unpack(d)) == d <==> |d| % 4 != 1 && ZeroTail(d)
  {
    if |d| < 2 {
      PackUnpackNothing(d);
    } else if |d| == 2 {
      PackUnpackTwo(d[0], d[1], d);
    } else {
      PackUnpackThree(d[0], d[1], d[2], d);
    }
  }

  lemma PackUnpackNothing(d: seq<Sextet>)
    requires |d| < 2
    ensures Pack(Unpack(d)) == d <==> |d| % 4 != 1 && ZeroTail(d)
  {
    assert Pack(Unpack(d)) == [];
  }

  lemma PackUnpackTwo(w: Sextet, x: Sextet, d: seq<Sextet>)
    requires d == [w, x]
    ensures Pack(Unpack(d)) == d <==> |d| % 4 != 1 && ZeroTail(d)
  {
    var x' := Digit2(Byte1(w, x), 0);
    UnpackShort(w, x, 0);
    DigitsOfBytes(w, x, 0, 0);
    PackShort(Byte1(w, x), 0);
    assert Pack(Unpack(d)) == [w, x'];
    LastDigits(w, x, 0);
    assert [w, x'][1] == x' && d[1] == x;
  }

  lemma PackUnpackThree(w: Sextet, x: Sextet, y: Sextet, d: seq<Sextet>)
    requires d == [w, x, y]
    ensures Pack(Unpack(d)) == d <==> |d| % 4 != 1 && ZeroTail(d)
  {
    var y' := Digit3(Byte2(x, y), 0);
    UnpackShort(w, x, y);
    DigitsOfBytes(w, x, y, 0);
    PackShort(Byte1(w, x), Byte2(x, y));
    assert Pack(Unpack(d)) == [w, x, y'];
    LastDigits(w, x, y);
    assert [w, x, y'][2] == y' && d[2] == y;
  }

  lemma PackShort(a: Byte, b: Byte)
    ensures Pack([a]) == [Digit1(a), Digit2(a, 0)]
    ensures Pack([a, b]) == [Digit1(a), Digit2(a, b), Digit3(b, 0)]
  {
  }

  // ----- encoding, in terms of digits ---------------------------------------------------------

  /** Stripping '=' removes the padding and nothing else, and `(-len) % 4` is
      the number of characters it removed. */
  lemma {:induction false} EncodeIsPack(b: seq<Byte>)
    ensures UrlsafeEncode(b) == Chars(Pack(b)) + Repeat('=', PaddingNeeded(|Pack(b)|))
    ensures Encode(b) == Chars(Pack(b))
  {
    PaddedChars(b);
    StripExactly(Chars(Pack(b)), PaddingNeeded(|Pack(b)|));
  }

  lemma {:induction false} PaddedChars(b: seq<Byte>)
    ensures UrlsafeEncode(b) == Chars(Pack(b)) + Repeat('=', PaddingNeeded(|Pack(b)|))
  {
    if |b| == 0 {
      assert Chars([]) == [];
    } else if |b| < 3 {
      PaddedCharsShort(b);
    } else {
      PaddedChars(b[3..]);
      assert b == [b[0], b[1], b[2]] + b[3..];
      PackGroup(b[0], b[1], b[2], b[3..]);
      UrlsafeEncodeGroup(b[0], b[1], b[2], b[3..]);
      AddGroup([Digit1(b[0]), Digit2(b[0], b[1]), Digit3(b[1], b[2]), Digit4(b[2])], Pack(b[3..]));
    }
  }

  lemma UrlsafeEncodeGroup(a: Byte, b: Byte, c: Byte, rest: seq<Byte>)
    ensures UrlsafeEncode([a, b, c] + rest)
         == Chars([Digit1(a), Digit2(a, b), Digit3(b, c), Digit4(c)]) + UrlsafeEncode(rest)
  {
    assert ([a, b, c] + rest)[3..] == rest;
    CharsOfGroup(Digit1(a), Digit2(a, b), Digit3(b, c), Digit4(c));
  }

  lemma CharsOfGroup(w: Sextet, x: Sextet, y: Sextet, z: Sextet)
    ensures Chars([w, x, y, z]) == [DigitChar(w), DigitChar(x), DigitChar(y), DigitChar(z)]
  {
  }

  lemma AddGroup(group: seq<Sextet>, d: seq<Sextet>)
    requires |group| == 4
    ensures Chars(group) + (Chars(d) + Repeat('=', PaddingNeeded(|d|)))
         == Chars(group + d) + Repeat('=', PaddingNeeded(|group + d|))
  {
    CharsConcat(group, d);
    PaddingCompletes(|d|);
    PaddingCompletes(|group + d|);
  }

  lemma PaddedCharsShort(b: seq<Byte>)
    requires 1 <= |b| <= 2
    ensures UrlsafeEncode(b) == Chars(Pack(b)) + Repeat('=', PaddingNeeded(|Pack(b)|))
  {
    PaddingCompletes(|Pack(b)|);
    assert Repeat('=', 1) == ['='] && Repeat('=', 2) == ['=', '='];
    var d := Pack(b);
    if |b| == 1 {
      assert Chars(d) == [DigitChar(d[0]), DigitChar(d[1])];
    } else {
      assert Chars(d) == [DigitChar(d[0]), DigitChar(d[1]), DigitChar(d[2])];
    }
  }

  lemma CharsConcat(d: seq<Sextet>, d': seq<Sextet>)
    ensures Chars(d + d') == Chars(d) + Chars(d')
  {
  }

  lemma {:induction false} StripExactly(s: string, n: nat)
    requires |s| > 0 ==> s[|s| - 1] != '='
    ensures StripPadding(s + Repeat('=', n)) == s
  {
    if n == 0 {
      assert s + Repeat('=', n) == s;
    } else {
      assert (s + Repeat('=', n))[..|s| + n - 1] == s + Repeat('=', n - 1);
      StripExactly(s, n - 1);
    }
  }

  lemma {:induction false} DigitsOfChars(d: seq<Sextet>)
    ensures Digits(Chars(d)) == d
  {
    if |d| > 0 {
      DigitsMatch(d[0]);
      assert Chars(d)[1..] == Chars(d[1..]);
      DigitsOfChars(d[1..]);
      assert d == [d[0]] + d[1..];
    }
  }

  lemma CharsAreUrlSafe(d: seq<Sextet>)
    ensures forall c :: c in Chars(d) ==> UrlSafe(c)
  {
    forall c | c in Chars(d) ensures UrlSafe(c) {
      var i :| 0 <= i < |d| && Chars(d)[i] == c;
      DigitsMatch(d[i]);
    }
  }

  lemma {:induction false} CharsOfDigits(s: string)
    requires forall c :: c in s ==> UrlSafe(c)
    ensures Chars(Digits(s)) == s
  {
    if |s| > 0 {
      assert s[0] in s;
      UrlSafeIsDigitChar(s[0]);
      forall c | c in s[1..] ensures UrlSafe(c) { assert c in s; }
      CharsOfDigits(s[1..]);
      var d := Digits(s);
      assert d[1..] == Digits(s[1..]);
      assert Chars(d) == [DigitChar(d[0])] + Chars(d[1..]);
      assert s == [s[0]] + s[1..];
    }
  }

  // ----- decoding, in terms of digits -----------------------------------------------------------

  function TakeAll(st: State, d: seq<Sextet>): State
    decreases |d|
  {
    if |d| == 0 then st else TakeAll(TakeDigit(st, d[0]), d[1..])
  }

  lemma {:induction false} ScanPlain(s: string, t: string, st: State)
    requires '=' !in s
    ensures Scan(s + t, st) == Scan(t, TakeAll(st, Digits(s)))
    decreases |s|
  {
    if |s| == 0 {
      assert s + t == t;
    } else {
      assert s[0] in s && (s + t)[0] == s[0];
      assert (s + t)[1..] == s[1..] + t;
      var v := DigitValue(s[0]);
      if v.Some? {
        assert Digits(s) == [v.value] + Digits(s[1..]);
        ScanPlain(s[1..], t, TakeDigit(st, v.value));
      } else {
        assert Digits(s) == Digits(s[1..]);
        ScanPlain(s[1..], t, st);
      }
    }
  }

  lemma {:induction false} TakeAllUnpacks(out: seq<Byte>, d: seq<Sextet>)
    ensures var st := TakeAll(State(0, 0, 0, out), d);
            st.quad == |d| % 4 && st.pads == 0 && st.out == out + Unpack(d)
    decreases |d|
  {
    if |d| < 4 {
      TakeLast(out, d);
    } else {
      TakeGroup(out, d[0], d[1], d[2], d[3], d[4..]);
      assert d == [d[0], d[1], d[2], d[3]] + d[4..];
      var three := [Byte1(d[0], d[1]), Byte2(d[1], d[2]), Byte3(d[2], d[3])];
      TakeAllUnpacks(out + three, d[4..]);
      UnpackGroup(d[0], d[1], d[2], d[3], d[4..]);
      assert out + three + Unpack(d[4..]) == out + Unpack(d);
    }
  }

  lemma TakeOne(st: State, v: Sextet, rest: seq<Sextet>)
    ensures TakeAll(st, [v] + rest) == TakeAll(TakeDigit(st, v), rest)
  {
    assert ([v] + rest)[1..] == rest;
  }

  lemma TakeTwo(out: seq<Byte>, w: Sextet, x: Sextet, rest: seq<Sextet>)
    ensures TakeAll(State(0, 0, 0, out), [w, x] + rest) == TakeAll(State(2, x, 0, out + [Byte1(w, x)]), rest)
  {
    TakeOne(State(0, 0, 0, out), w, [x] + rest);
    TakeOne(State(1, w, 0, out), x, rest);
    assert [w, x] + rest == [w] + ([x] + rest);
  }

  lemma TakeThree(out: seq<Byte>, w: Sextet, x: Sextet, y: Sextet, rest: seq<Sextet>)
    ensures TakeAll(State(0, 0, 0, out), [w, x, y] + rest)
         == TakeAll(State(3, y, 0, out + [Byte1(w, x), Byte2(x, y)]), rest)
  {
    TakeTwo(out, w, x, [y] + rest);
    assert [w, x, y] + rest == [w, x] + ([y] + rest);
    var out' := out + [Byte1(w, x)];
    TakeOne(State(2, x, 0, out'), y, rest);
    assert out' + [Byte2(x, y)] == out + [Byte1(w, x), Byte2(x, y)];
  }

  lemma TakeGroup(out: seq<Byte>, w: Sextet, x: Sextet, y: Sextet, z: Sextet, rest: seq<Sextet>)
    ensures TakeAll(State(0, 0, 0, out), [w, x, y, z] + rest)
         == TakeAll(State(0, 0, 0, out + [Byte1(w, x), Byte2(x, y), Byte3(y, z)]), rest)
  {
    TakeThree(out, w, x, y, [z] + rest);
    assert [w, x, y, z] + rest == [w, x, y] + ([z] + rest);
    var out' := out + [Byte1(w, x), Byte2(x, y)];
    TakeOne(State(3, y, 0, out'), z, rest);
    assert out' + [Byte3(y, z)] == out + [Byte1(w, x), Byte2(x, y), Byte3(y, z)];
  }

  lemma TakeLast(out: seq<Byte>, d: seq<Sextet>)
    requires |d| < 4
    ensures var st := TakeAll(State(0, 0, 0, out), d);
            st.quad == |d| && st.pads == 0 && st.out == out + Unpack(d)
  {
    var st0 := State(0, 0, 0, out);
    if |d| == 1 {
      TakeOne(st0, d[0], []);
      assert d == [d[0]] + [];
      assert TakeAll(st0, d) == State(1, d[0], 0, out);
    } else if |d| == 2 {
      TakeTwo(out, d[0], d[1], []);
      assert d == [d[0], d[1]] + [];
      assert TakeAll(st0, d) == State(2, d[1], 0, out + [Byte1(d[0], d[1])]);
    } else if |d| == 3 {
      TakeThree(out, d[0], d[1], d[2], []);
      assert d == [d[0], d[1], d[2]] + [];
      assert TakeAll(st0, d) == State(3, d[2], 0, out + [Byte1(d[0], d[1]), Byte2(d[1], d[2])]);
    }
  }

  /** At the end of the data, only a whole group, or a run of '=' that completes
      a group of two or three digits, is accepted. */
  lemma {:induction false} ScanPadding(n: nat, st: State)
    requires st.quad < 4
    ensures var r := Scan(Repeat('=', n), st);
            if st.quad == 0 || (st.quad >= 2 && n > 0 && st.quad + st.pads + n >= 4) then r == Ok(st.out)
            else r == Err(if st.quad == 1 then OneDigitLeft else IncorrectPadding)
    decreases n
  {
    if n > 0 {
      assert Repeat('=', n)[1..] == Repeat('=', n - 1);
      if !(st.quad >= 2 && st.quad + st.pads + 1 >= 4) {
        ScanPadding(n - 1, if st.quad >= 2 then st.(pads := st.pads + 1) else st);
      }
    }
  }

  // ----- main results -----------------------------------------------------------------------------

  predicate Ascii(s: string) { forall c :: c in s ==> c as int < 128 }

  /** Every input without '=': what the decoder returns depends on the alphabet
      characters only, but whether it accepts depends on the length as well,
      because the padding is computed before other characters are skipped. */
  lemma DecodeWithoutPadding(s: string)
    requires '=' !in s
    ensures var d := Digits(s);
            Decode(s) ==
            if !Ascii(s) then Err(NotAscii)
            else if |d| % 4 == 1 then Err(OneDigitLeft)
            else if |d| % 4 != 0 && |d| % 4 + PaddingNeeded(|s|) < 4 then Err(IncorrectPadding)
            else Ok(Unpack(d))
  {
    DecodeIsScan(s);
    ScanPadded(s, PaddingNeeded(|s|));
  }

  lemma PaddingIsAscii(s: string, n: nat)
    ensures (exists c :: c in s + Repeat('=', n) && c as int >= 128) <==> !Ascii(s)
  {
    var padded := s + Repeat('=', n);
    forall c | c in s ensures c in padded {
      var i :| 0 <= i < |s| && s[i] == c;
      assert padded[i] == c;
    }
  }

  lemma DecodeIsScan(s: string)
    ensures Decode(s) == if !Ascii(s) then Err(NotAscii) else Scan(s + Repeat('=', PaddingNeeded(|s|)), Start())
  {
    PaddingIsAscii(s, PaddingNeeded(|s|));
  }

  lemma ScanPadded(s: string, n: nat)
    requires '=' !in s
    ensures var d := Digits(s);
            Scan(s + Repeat('=', n), Start()) ==
            if |d| % 4 == 1 then Err(OneDigitLeft)
            else if |d| % 4 != 0 && |d| % 4 + n < 4 then Err(IncorrectPadding)
            else Ok(Unpack(d))
  {
    var d := Digits(s);
    var st := TakeAll(Start(), d);
    ScanPlain(s, Repeat('=', n), Start());
    TakeAllUnpacks([], d);
    assert st.out == [] + Unpack(d) == Unpack(d);
    ScanPadding(n, st);
  }

  /** The padding completes the last group, unless that is a single digit. */
  lemma PaddingCompletes(n: nat)
    ensures n % 4 == 0 ==> PaddingNeeded(n) == 0
    ensures n % 4 != 0 ==> n % 4 + PaddingNeeded(n) == 4
  {
  }

  lemma DecodeChars(d: seq<Sextet>)
    requires |d| % 4 != 1
    ensures Decode(Chars(d)) == Ok(Unpack(d))
  {
    CharsAreUrlSafe(d);
    DigitsOfChars(d);
    AlphabetStringsDecode(Chars(d));
  }

  /** For every byte string, decode(encode(b)) == b. */
  lemma RoundTrip(b: seq<Byte>)
    ensures Decode(Encode(b)) == Ok(b)
  {
    EncodeIsPack(b);
    PackLength(b);
    RoundUp(|b|, |Pack(b)|);
    DecodeChars(Pack(b));
    UnpackPack(b);
  }

  /** Four characters for three bytes, never one more than a multiple of four,
      and all from the URL-safe alphabet. */
  lemma EncodedForm(b: seq<Byte>)
    ensures |Encode(b)| == (4 * |b| + 2) / 3 && |Encode(b)| % 4 != 1
    ensures forall c :: c in Encode(b) ==> UrlSafe(c)
  {
    EncodeIsPack(b);
    PackLength(b);
    RoundUp(|b|, |Pack(b)|);
    CharsAreUrlSafe(Pack(b));
  }

  /** Padding is stripped and restored exactly. */
  lemma StrippedPaddingIsRestored(b: seq<Byte>)
    ensures Encode(b) + Repeat('=', PaddingNeeded(|Encode(b)|)) == UrlsafeEncode(b)
  {
    EncodeIsPack(b);
  }

  /** Text that still carries its padding decodes to the same bytes. */
  lemma PaddedTextDecodes(b: seq<Byte>)
    ensures Decode(UrlsafeEncode(b)) == Decode(Encode(b)) == Ok(b)
  {
    var s, t := Encode(b), UrlsafeEncode(b);
    RoundTrip(b);
    StrippedPaddingIsRestored(b);
    NothingMoreNeeded(|s|);
    assert |t| == |s| + PaddingNeeded(|s|);
    assert t + Repeat('=', 0) == t;
  }

  lemma NothingMoreNeeded(n: nat)
    ensures PaddingNeeded(n + PaddingNeeded(n)) == 0
  {
    PaddingCompletes(n);
  }

  lemma EncodeInjective(a: seq<Byte>, b: seq<Byte>)
    ensures Encode(a) == Encode(b) <==> a == b
  {
    RoundTrip(a);
    RoundTrip(b);
  }

  /** Strings over the URL-safe alphabet decode unless one digit is left over. */
  lemma AlphabetStringsDecode(s: string)
    requires forall c :: c in s ==> UrlSafe(c)
    ensures Decode(s).Ok? <==> |s| % 4 != 1
    ensures Decode(s).Ok? ==> Decode(s) == Ok(Unpack(Digits(s))) && |Decode(s).value| == 3 * |s| / 4
  {
    CharsOfDigits(s);
    assert |Digits(s)| == |s|;
    forall c | c in s ensures c != '=' && c as int < 128 {
      UrlSafeIsAscii(c);
    }
    DecodeDigits(s);
    UnpackLength(Digits(s));
  }

  lemma UrlSafeIsAscii(c: char)
    requires UrlSafe(c)
    ensures c != '=' && c as int < 128
  {
  }

  lemma DecodeDigits(s: string)
    requires '=' !in s && Ascii(s) && |Digits(s)| == |s|
    ensures Decode(s) == if |s| % 4 == 1 then Err(OneDigitLeft) else Ok(Unpack(Digits(s)))
  {
    DecodeWithoutPadding(s);
    PaddingCompletes(|s|);
  }

  /** Exactly the canonical strings come back unchanged: URL-safe characters
      only, no single digit left over, and unused bits 0. */
  lemma CanonicalStrings(s: string)
    ensures Decode(s).Ok? && Encode(Decode(s).value) == s
       <==> (forall c :: c in s ==> UrlSafe(c)) && |s| % 4 != 1 && ZeroTail(Digits(s))
  {
    var d := Digits(s);
    if Decode(s).Ok? && Encode(Decode(s).value) == s {
      EncodedForm(Decode(s).value);
    }
    if forall c :: c in s ==> UrlSafe(c) {
      AlphabetStringsDecode(s);
      CharsOfDigits(s);
      PackUnpack(d);
      EncodeIsPack(Unpack(d));
      DigitsOfChars(Pack(Unpack(d)));
    }
  }

  /** So decoding is not injective: two-character strings that differ only in the
      last four bits, such as those of the digits 0, 0 and 0, 1, give the same byte. */
  lemma UnusedBitsAreDropped(w: Sextet, x: Sextet, x': Sextet)
    ensures Decode(Chars([w, x])).Ok? && Decode(Chars([w, x'])).Ok?
    ensures Decode(Chars([w, x])) == Decode(Chars([w, x'])) <==> x >> 4 == x' >> 4
  {
    TwoDigits(w, x);
    TwoDigits(w, x');
    SameByte(w, x, x');
  }

  lemma SameByte(w: Sextet, x: Sextet, x': Sextet)
    ensures [Byte1(w, x)] == [Byte1(w, x')] <==> x >> 4 == x' >> 4
  {
    assert [Byte1(w, x)][0] == Byte1(w, x) && [Byte1(w, x')][0] == Byte1(w, x');
  }

  lemma TwoDigits(w: Sextet, x: Sextet)
    ensures Decode(Chars([w, x])) == Ok([Byte1(w, x)])
  {
    DecodeChars([w, x]);
    UnpackShort(w, x, 0);
  }
}
