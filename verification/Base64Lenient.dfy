/** What the lenient decoder makes of every string: '=' inside the text, characters
    outside the alphabet and missing or superfluous padding included. */
module Base64Lenient {
  import opened Wrappers
  import opened Base64Url

  /** How many '=' follow the last digit. */
  function EqualsSince(t: string): nat {
    if t == "" then 0
    else
      var n, last := |t| - 1, t[|t| - 1];
      if DigitValue(last).Some? then 0 else if last == '=' then EqualsSince(t[..n]) + 1 else EqualsSince(t[..n])
  }

  /** The '=' at position `i` completes a group of two or three digits. */
  predicate Completes(t: string, i: nat)
    requires i < |t|
  {
    var q := |Digits(t[..i])| % 4;
    t[i] == '=' && q >= 2 && q + EqualsSince(t[..i]) + 1 >= 4
  }

  // ----- the decoder before position i ------------------------------------------------

  function StateAfter(s: string): State {
    var st := TakeAll(Start(), Digits(s));
    st.(pads := if |Digits(s)| % 4 >= 2 then EqualsSince(s) else 0)
  }

  lemma {:induction false} DigitsSnoc(s: string, c: char)
    ensures Digits(s + [c]) == Digits(s) + if DigitValue(c).Some? then [DigitValue(c).value] else []
  {
    if s == "" {
      assert s + [c] == [c] && [c][1..] == "";
    } else {
      DigitsSnoc(s[1..], c);
      assert (s + [c])[1..] == s[1..] + [c] && (s + [c])[0] == s[0];
      var head := if DigitValue(s[0]).Some? then [DigitValue(s[0]).value] else [];
      assert Digits(s) == head + Digits(s[1..]);
      assert Digits(s + [c]) == head + Digits(s[1..] + [c]);
    }
  }

  lemma {:induction false} TakeAllSnoc(st: State, d: seq<Sextet>, v: Sextet)
    ensures TakeAll(st, d + [v]) == TakeDigit(TakeAll(st, d), v)
    decreases |d|
  {
    if d == [] {
      assert d + [v] == [v] && [v][1..] == [];
      TakeOne(st, v, []);
      assert [v] + [] == [v];
    } else {
      assert (d + [v])[1..] == d[1..] + [v];
      TakeAllSnoc(TakeDigit(st, d[0]), d[1..], v);
    }
  }

  /** What the decoder knows about a prefix. */
  lemma StateAfterIs(s: string)
    ensures var st := StateAfter(s);
            && st.quad == |Digits(s)| % 4 && st.out == Unpack(Digits(s))
            && st.pads == if st.quad >= 2 then EqualsSince(s) else 0
  {
    TakeAllUnpacks([], Digits(s));
    assert [] + Unpack(Digits(s)) == Unpack(Digits(s));
  }

  lemma AfterDigit(s: string, c: char)
    requires DigitValue(c).Some?
    ensures StateAfter(s + [c]) == TakeDigit(StateAfter(s), DigitValue(c).value)
  {
    var v := DigitValue(c).value;
    DigitsSnoc(s, c);
    TakeAllSnoc(Start(), Digits(s), v);
    TakeAllUnpacks([], Digits(s) + [v]);
    assert EqualsSince(s + [c]) == 0;
  }

  lemma AfterOther(s: string, c: char)
    requires DigitValue(c).None?
    ensures StateAfter(s + [c]) ==
            if c == '=' && StateAfter(s).quad >= 2 then StateAfter(s).(pads := StateAfter(s).pads + 1) else StateAfter(s)
  {
    DigitsSnoc(s, c);
    StateAfterIs(s);
    assert Digits(s + [c]) == Digits(s);
    assert (s + [c])[..|s|] == s;
  }

  lemma ScanStep(s: string, c: char, rest: string)
    requires !Completes(s + ([c] + rest), |s|)
    ensures Scan([c] + rest, StateAfter(s)) == Scan(rest, StateAfter(s + [c]))
  {
    assert (s + ([c] + rest))[..|s|] == s && ([c] + rest)[1..] == rest;
    StateAfterIs(s);
    if DigitValue(c).Some? {
      AfterDigit(s, c);
    } else {
      AfterOther(s, c);
    }
  }

  lemma {:induction false} ScanTo(t: string, i: nat)
    requires i <= |t| && forall j :: 0 <= j < i ==> !Completes(t, j)
    ensures Scan(t, Start()) == Scan(t[i..], StateAfter(t[..i]))
  {
    if i == 0 {
      assert t[0..] == t && t[..0] == "";
    } else {
      ScanTo(t, i - 1);
      assert t[i - 1..] == [t[i - 1]] + t[i..] && t[..i - 1] + [t[i - 1]] == t[..i];
      assert t == t[..i - 1] + ([t[i - 1]] + t[i..]);
      ScanStep(t[..i - 1], t[i - 1], t[i..]);
    }
  }

  lemma FirstCompletion(t: string) returns (stop: nat)
    ensures stop <= |t| && (stop < |t| ==> Completes(t, stop))
    ensures forall j :: 0 <= j < stop ==> !Completes(t, j)
  {
    stop := 0;
    while stop < |t| && !Completes(t, stop)
      invariant stop <= |t|
      invariant forall j :: 0 <= j < stop ==> !Completes(t, j)
    {
      stop := stop + 1;
    }
  }

  // ----- every string ------------------------------------------------------------------------

  /** The decoder reads up to the first '=' that completes a group and ignores the
      rest; if there is none the digits of the whole text must fill their groups. */
  lemma DecodeVerdict(s: string) returns (stop: nat)
    ensures var t := s + Repeat('=', PaddingNeeded(|s|));
            && stop <= |t| && (stop < |t| ==> Completes(t, stop))
            && (forall j :: 0 <= j < stop ==> !Completes(t, j))
            && Decode(s) ==
               if !Ascii(s) then Err(NotAscii)
               else if stop < |t| || |Digits(s)| % 4 == 0 then Ok(Unpack(Digits(t[..stop])))
               else if |Digits(s)| % 4 == 1 then Err(OneDigitLeft)
               else Err(IncorrectPadding)
  {
    var pad := Repeat('=', PaddingNeeded(|s|));
    var t := s + pad;
    stop := FirstCompletion(t);
    DecodeIsScan(s);
    ScanTo(t, stop);
    StateAfterIs(t[..stop]);
    if stop < |t| {
      assert t[stop..][0] == '=';
    } else {
      assert t[stop..] == "" && t[..stop] == t;
      PaddingHasNoDigits(s, PaddingNeeded(|s|));
    }
  }

  lemma {:induction false} PaddingHasNoDigits(s: string, n: nat)
    ensures Digits(s + Repeat('=', n)) == Digits(s)
  {
    if n == 0 {
      assert s + Repeat('=', 0) == s;
    } else {
      PaddingHasNoDigits(s, n - 1);
      DigitsSnoc(s + Repeat('=', n - 1), '=');
      assert s + Repeat('=', n) == s + Repeat('=', n - 1) + ['='];
    }
  }

  // ----- ignored characters can spoil good text ---------------------------------------------------

  lemma {:induction false} DigitsConcat(s: string, t: string)
    ensures Digits(s + t) == Digits(s) + Digits(t)
  {
    if t == "" {
      assert s + t == s;
    } else {
      var n := |t| - 1;
      DigitsConcat(s, t[..n]);
      DigitsSnoc(s + t[..n], t[n]);
      DigitsSnoc(t[..n], t[n]);
      assert s + t == s + t[..n] + [t[n]] && t == t[..n] + [t[n]];
    }
  }

  /** One character the decoder ignores, such as a line break, anywhere in text it
      accepts: still accepted if and only if the text needed no padding. */
  lemma OneIgnoredCharacter(s: string, c: char, t: string)
    requires (forall x :: x in s + t ==> UrlSafe(x)) && |s + t| % 4 != 1
    requires DigitValue(c).None? && c != '=' && c as int < 128
    ensures Decode(s + t).Ok?
    ensures Decode(s + [c] + t) == if |s + t| % 4 == 0 then Decode(s + t) else Err(IncorrectPadding)
  {
    AlphabetStringsDecode(s + t);
    CharsOfDigits(s + t);
    IgnoredLeavesDigits(s, c, t);
    DecodeWithoutPadding(s + [c] + t);
    if |s + t| % 4 >= 2 { OneMoreNeedsLess(|s + t|); }
  }

  lemma IgnoredLeavesDigits(s: string, c: char, t: string)
    requires forall x :: x in s + t ==> UrlSafe(x)
    requires DigitValue(c).None? && c != '=' && c as int < 128
    ensures Digits(s + [c] + t) == Digits(s + t)
    ensures '=' !in s + [c] + t && Ascii(s + [c] + t)
  {
    DigitsConcat(s + [c], t);
    DigitsSnoc(s, c);
    DigitsConcat(s, t);
    assert Digits(s + [c]) == Digits(s);
    forall x | x in s + [c] + t ensures x != '=' && x as int < 128 {
      if x != c {
        assert x in s + t;
        UrlSafeIsAscii(x);
      }
    }
  }

  lemma OneMoreNeedsLess(n: nat)
    requires n % 4 >= 2
    ensures n % 4 + PaddingNeeded(n + 1) < 4
  {
  }
}
