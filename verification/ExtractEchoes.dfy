/** When the page loop ends against an upstream that reports a fixed total, whatever
    page it says its answers are. */
module ExtractEchoes {
  import opened Wrappers
  import opened Extract

  /** Every answer reports `n` pages in all. Requests may raise. */
  ghost predicate Totals<T>(up: Upstream<T>, n: int) {
    forall p :: up(p).Some? ==> OnlyTotal(up(p).value, n)
  }

  lemma FollowingIs<T>(up: Upstream<T>, p: int, n: int)
    requires up(p).Some? && OnlyTotal(up(p).value, n)
    ensures var e := Echo(up(p).value, p);
            Following(up, p) == if n != 0 && e < n && e != -1 then Some(e + 1) else None
  {
  }

  // ----- always the same page -----------------------------------------------------------

  lemma {:induction false} SamePageForever<T>(up: Upstream<T>, n: int, c: int, k: nat)
    requires forall p :: up(p).Some? && OnlyTotal(up(p).value, n) && Echo(up(p).value, p) == c
    requires n != 0 && c < n && c != -1
    ensures Requested(up, k) == Some(if k == 0 then 1 else c + 1)
  {
    if k > 0 {
      SamePageForever(up, n, c, k - 1);
      FollowingIs(up, if k == 1 then 1 else c + 1, n);
    }
  }

  /** An upstream that calls every answer page `c` of `n` lets the loop end if and
      only if it has no pages, `c` is the last page or later, or the next page
      would be page 0. Saying page 1 of two or more keeps it going forever. */
  lemma ConstantEchoEndsIff<T>(up: Upstream<T>, n: int, c: int)
    requires forall p :: up(p).Some? && OnlyTotal(up(p).value, n) && Echo(up(p).value, p) == c
    ensures Ends(up) <==> n == 0 || c >= n || c == -1
  {
    if n == 0 || c >= n || c == -1 {
      FollowingIs(up, 1, n);
      assert Requested(up, 0) == Some(1);
      assert Requested(up, 1).None?;
    } else {
      forall k ensures Requested(up, k).Some? { SamePageForever(up, n, c, k); }
    }
  }

  // ----- any non-negative echoes --------------------------------------------------------------

  lemma {:induction false} WithinTotal<T>(up: Upstream<T>, n: int, k: nat)
    requires Totals(up, n) && n >= 1 && forall p :: up(p).Some? ==> Echo(up(p).value, p) >= 0
    requires Requested(up, k).Some?
    ensures 1 <= Requested(up, k).value <= n
  {
    if k > 0 {
      var p := Requested(up, k - 1).value;
      FollowingIs(up, p, n);
    }
  }

  /** More pages than there are numbers from 1 to n: one of them comes twice. */
  lemma {:induction false} Pigeonhole(s: seq<int>, n: nat) returns (i: nat, j: nat)
    requires |s| > n && forall k :: 0 <= k < |s| ==> 1 <= s[k] <= n
    ensures i < j < |s| && s[i] == s[j]
    decreases n
  {
    assert 1 <= s[0] <= n;
    if i', j' :| 0 <= i' < j' < |s| && s[i'] == s[j'] == n {
      i, j := i', j';
    } else if l :| 0 <= l < |s| && s[l] == n {
      var rest := s[..l] + s[l + 1..];
      i, j := Pigeonhole(rest, n - 1);
      assert rest[i] == s[if i < l then i else i + 1] && rest[j] == s[if j < l then j else j + 1];
      i, j := if i < l then i else i + 1, if j < l then j else j + 1;
    } else {
      i, j := Pigeonhole(s, n - 1);
    }
  }

  lemma {:induction false} SameFromThere<T>(up: Upstream<T>, i: nat, j: nat, d: nat)
    requires Requested(up, i) == Requested(up, j)
    ensures Requested(up, i + d) == Requested(up, j + d)
  {
    if d > 0 { SameFromThere(up, i, j, d - 1); }
  }

  /** A page requested twice is requested forever. */
  lemma {:induction false} RepeatsForever<T>(up: Upstream<T>, i: nat, j: nat, k: nat)
    requires i < j && Requested(up, j).Some? && Requested(up, i) == Requested(up, j)
    ensures Requested(up, k).Some?
  {
    if k <= j {
      if Requested(up, k).None? { StaysEnded(up, k, j); }
    } else {
      RepeatsForever(up, i, j, k - (j - i));
      SameFromThere(up, i, j, k - j);
    }
  }

  lemma TwiceWithinTotal<T>(up: Upstream<T>, n: nat) returns (i: nat, j: nat)
    requires Totals(up, n) && n >= 1 && forall p :: up(p).Some? ==> Echo(up(p).value, p) >= 0
    requires Requested(up, n).Some?
    ensures i < j <= n && Requested(up, j).Some? && Requested(up, i) == Requested(up, j)
  {
    forall k: nat | k <= n ensures Requested(up, k).Some? && 1 <= Requested(up, k).value <= n {
      if Requested(up, k).None? { StaysEnded(up, k, n); }
      WithinTotal(up, n, k);
    }
    var pages := seq(n + 1, k requires 0 <= k <= n => Requested(up, k).value);
    i, j := Pigeonhole(pages, n);
  }

  /** Whatever non-negative pages an upstream with a fixed total says its answers
      are: if the loop has not ended after as many requests as there are pages (one
      when there are none), it never ends. */
  lemma EndsWithinTotalOrNever<T>(up: Upstream<T>, n: int)
    requires Totals(up, n) && forall p :: up(p).Some? ==> Echo(up(p).value, p) >= 0
    ensures Ends(up) <==> Requested(up, if n >= 1 then n else 1).None?
  {
    if n < 1 {
      assert Requested(up, 0) == Some(1);
      if up(1).Some? { FollowingIs(up, 1, n); }
      assert Requested(up, 1).None?;
    } else if Requested(up, n).Some? {
      var i, j := TwiceWithinTotal(up, n);
      forall k ensures Requested(up, k).Some? { RepeatsForever(up, i, j, k); }
    }
  }

  // ----- echoes that never fall behind ------------------------------------------------------------

  lemma {:induction false} MovesForward<T>(up: Upstream<T>, n: int, k: nat)
    requires Totals(up, n) && forall p :: p >= 1 && up(p).Some? ==> Echo(up(p).value, p) >= p
    requires Requested(up, k).Some?
    ensures k < Requested(up, k).value && (k > 0 ==> Requested(up, k).value <= n)
  {
    if k > 0 {
      MovesForward(up, n, k - 1);
      FollowingIs(up, Requested(up, k - 1).value, n);
    }
  }

  /** An upstream that never says less than the page asked for lets the loop end,
      after at most as many requests as there are pages. */
  lemma ForwardEchoesEnd<T>(up: Upstream<T>, n: int)
    requires Totals(up, n) && forall p :: p >= 1 && up(p).Some? ==> Echo(up(p).value, p) >= p
    ensures Ends(up) && Requested(up, if n >= 1 then n else 1).None?
  {
    var k := if n >= 1 then n else 1;
    if Requested(up, k).Some? { MovesForward(up, n, k); }
  }
}
