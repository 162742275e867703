/** Counting and selecting elements of a sequence, and how both depend only on
    which elements there are. */
module Counting {

  function Count<T>(s: seq<T>, p: T -> bool): nat {
    if |s| == 0 then 0 else Count(s[..|s| - 1], p) + (if p(s[|s| - 1]) then 1 else 0)
  }

  function Not<T>(p: T -> bool): T -> bool { (x: T) => !p(x) }

  function Select<T>(s: seq<T>, p: T -> bool): seq<T> {
    if |s| == 0 then [] else Select(s[..|s| - 1], p) + (if p(s[|s| - 1]) then [s[|s| - 1]] else [])
  }

  lemma CountSnoc<T>(s: seq<T>, x: T, p: T -> bool)
    ensures Count(s + [x], p) == Count(s, p) + if p(x) then 1 else 0
  {
    assert (s + [x])[..|s|] == s;
  }

  lemma SelectSnoc<T>(s: seq<T>, x: T, p: T -> bool)
    ensures Select(s + [x], p) == Select(s, p) + if p(x) then [x] else []
  {
    assert (s + [x])[..|s|] == s;
  }

  lemma {:induction false} CountConcat<T>(s: seq<T>, t: seq<T>, p: T -> bool)
    ensures Count(s + t, p) == Count(s, p) + Count(t, p)
  {
    if |t| == 0 {
      assert s + t == s;
    } else {
      var t', x := t[..|t| - 1], t[|t| - 1];
      CountConcat(s, t', p);
      CountSnoc(s + t', x, p);
      assert s + t == (s + t') + [x];
    }
  }

  lemma {:induction false} SelectConcat<T>(s: seq<T>, t: seq<T>, p: T -> bool)
    ensures Select(s + t, p) == Select(s, p) + Select(t, p)
  {
    if |t| == 0 {
      assert s + t == s;
    } else {
      var t', x := t[..|t| - 1], t[|t| - 1];
      SelectConcat(s, t', p);
      SelectSnoc(s + t', x, p);
      assert s + t == (s + t') + [x];
    }
  }

  lemma {:induction false} SelectSplits<T>(s: seq<T>, p: T -> bool)
    ensures multiset(Select(s, p)) + multiset(Select(s, Not(p))) == multiset(s)
  {
    if |s| != 0 {
      var x := s[|s| - 1];
      SelectSplits(s[..|s| - 1], p);
      assert s == s[..|s| - 1] + [x];
    }
  }

  /** More elements, never fewer matches. */
  lemma {:induction false} CountMonotone<T>(s: seq<T>, t: seq<T>, p: T -> bool)
    requires multiset(s) <= multiset(t)
    ensures Count(s, p) <= Count(t, p)
  {
    if |s| != 0 {
      var s', x := s[..|s| - 1], s[|s| - 1];
      assert s == s' + [x];
      assert x in multiset(t);
      var k :| 0 <= k < |t| && t[k] == x;
      var t' := t[..k] + t[k + 1..];
      assert t == t[..k] + [x] + t[k + 1..];
      assert multiset(s) == multiset(s') + multiset{x};
      assert multiset(t) == multiset(t') + multiset{x};
      forall y ensures multiset(s')[y] <= multiset(t')[y] {
        assert multiset(s)[y] <= multiset(t)[y];
      }
      CountMonotone(s', t', p);
      CountConcat(t[..k] + [x], t[k + 1..], p);
      CountSnoc(t[..k], x, p);
      CountConcat(t[..k], t[k + 1..], p);
    }
  }

  lemma {:induction false} CountWeaker<T>(s: seq<T>, p: T -> bool, q: T -> bool)
    requires forall x :: x in s && p(x) ==> q(x)
    ensures Count(s, p) <= Count(s, q)
  {
    if |s| != 0 { CountWeaker(s[..|s| - 1], p, q); }
  }

  lemma {:induction false} CountBound<T>(s: seq<T>, p: T -> bool)
    ensures Count(s, p) <= |s|
    ensures (forall x :: x in s ==> p(x)) ==> Count(s, p) == |s|
    ensures (forall x :: x in s ==> !p(x)) ==> Count(s, p) == 0
  {
    if |s| != 0 { CountBound(s[..|s| - 1], p); }
  }

  lemma {:induction false} AllCounted<T>(s: seq<T>, p: T -> bool, x: T)
    requires Count(s, p) == |s| && x in s
    ensures p(x)
  {
    var n := |s| - 1;
    CountBound(s[..n], p);
    if x != s[n] {
      assert x in s[..n];
      AllCounted(s[..n], p, x);
    }
  }

  lemma {:induction false} SelectIs<T>(s: seq<T>, p: T -> bool)
    ensures forall x :: x in Select(s, p) <==> x in s && p(x)
    ensures |Select(s, p)| == Count(s, p)
  {
    if |s| != 0 {
      SelectIs(s[..|s| - 1], p);
      assert s == s[..|s| - 1] + [s[|s| - 1]];
    }
  }

  /** Where in the input a selected element came from. */
  lemma {:induction false} SelectedFrom<T>(s: seq<T>, p: T -> bool, i: nat) returns (j: nat)
    requires i < |Select(s, p)|
    ensures j < |s| && s[j] == Select(s, p)[i] && p(s[j])
  {
    var n := |s| - 1;
    if i < |Select(s[..n], p)| {
      j := SelectedFrom(s[..n], p, i);
    } else {
      j := n;
    }
  }

  // ----- selecting and counting what was selected --------------------------------------

  lemma {:induction false} CountSelected<T>(s: seq<T>, p: T -> bool, q: T -> bool)
    requires forall x :: x in s && q(x) ==> p(x)
    ensures Count(Select(s, p), q) == Count(s, q)
  {
    if |s| != 0 {
      var n := |s| - 1;
      CountSelected(s[..n], p, q);
      assert s[n] in s;
      if p(s[n]) {
        CountSnoc(Select(s[..n], p), s[n], q);
      } else {
        assert Select(s, p) == Select(s[..n], p);
      }
    }
  }

  lemma {:induction false} SelectTwice<T>(s: seq<T>, p: T -> bool, q: T -> bool, both: T -> bool)
    requires forall x :: x in s ==> (both(x) <==> p(x) && q(x))
    ensures Select(Select(s, p), q) == Select(s, both)
  {
    if |s| != 0 {
      var n := |s| - 1;
      SelectTwice(s[..n], p, q, both);
      assert s[n] in s;
      if p(s[n]) {
        SelectSnoc(Select(s[..n], p), s[n], q);
      } else {
        assert Select(s, p) == Select(s[..n], p);
      }
    }
  }

  lemma {:induction false} SelectAllOrNone<T>(s: seq<T>, p: T -> bool)
    ensures (forall x :: x in s ==> p(x)) ==> Select(s, p) == s
    ensures (forall x :: x in s ==> !p(x)) ==> Select(s, p) == []
  {
    if |s| != 0 {
      var n := |s| - 1;
      SelectAllOrNone(s[..n], p);
      assert s == s[..n] + [s[n]];
    }
  }

  lemma {:induction false} SelectCounts<T>(s: seq<T>, p: T -> bool, x: T)
    ensures multiset(Select(s, p))[x] == if p(x) then multiset(s)[x] else 0
  {
    if |s| != 0 {
      var n := |s| - 1;
      SelectCounts(s[..n], p, x);
      assert s == s[..n] + [s[n]];
    }
  }

  lemma SelectIgnoresOrder<T(!new)>(a: seq<T>, b: seq<T>, p: T -> bool)
    requires multiset(a) == multiset(b)
    ensures multiset(Select(a, p)) == multiset(Select(b, p))
  {
    var sa, sb := multiset(Select(a, p)), multiset(Select(b, p));
    forall x ensures sa[x] == sb[x] {
      SelectCounts(a, p, x);
      SelectCounts(b, p, x);
    }
    assert sa == sb;
  }

  lemma CountIgnoresOrder<T>(a: seq<T>, b: seq<T>, p: T -> bool)
    requires multiset(a) == multiset(b)
    ensures Count(a, p) == Count(b, p)
  {
    CountMonotone(a, b, p);
    CountMonotone(b, a, p);
  }

  // ----- sums ------------------------------------------------------------------------------

  function SumOf<T>(s: seq<T>, f: T -> real): real {
    if |s| == 0 then 0.0 else SumOf(s[..|s| - 1], f) + f(s[|s| - 1])
  }

  lemma {:induction false} SumOfSame<T>(s: seq<T>, f: T -> real, g: T -> real)
    requires forall x :: x in s ==> f(x) == g(x)
    ensures SumOf(s, f) == SumOf(s, g)
  {
    if |s| != 0 { SumOfSame(s[..|s| - 1], f, g); }
  }
}
