/** Python's `sorted(xs, key=k)` and `xs.sort(key=k)`: a stable ascending sort.
    The key is a real number, which covers the priorities, timestamps, counts
    and scores the service sorts by; `reverse=True` is a sort by the negated
    key, because Python keeps ties in input order there too. */
module Sorting {

  ghost predicate Ascending<T>(s: seq<T>, key: T -> real) {
    forall i, j :: 0 <= i < j < |s| ==> key(s[i]) <= key(s[j])
  }

  ghost predicate Distinct<T>(s: seq<T>) {
    forall i, j :: 0 <= i < j < |s| ==> s[i] != s[j]
  }

  /** The elements of `s` whose key is `v`, in the order they occur in `s`. */
  ghost function Tied<T>(s: seq<T>, key: T -> real, v: real): seq<T> {
    if |s| == 0 then [] else (if key(s[0]) == v then [s[0]] else []) + Tied(s[1..], key, v)
  }

  function Insert<T>(x: T, s: seq<T>, key: T -> real): seq<T> {
    if |s| == 0 || key(x) <= key(s[0]) then [x] + s
    else [s[0]] + Insert(x, s[1..], key)
  }

  function StableSort<T>(s: seq<T>, key: T -> real): (r: seq<T>)
  {
    if |s| == 0 then [] else Insert(s[0], StableSort(s[1..], key), key)
  }

  lemma {:induction false} InsertElements<T>(x: T, s: seq<T>, key: T -> real)
    ensures multiset(Insert(x, s, key)) == multiset{x} + multiset(s)
  {
    if |s| != 0 && key(x) > key(s[0]) {
      InsertElements(x, s[1..], key);
      assert s == [s[0]] + s[1..];
    }
  }

  lemma {:induction false} InsertAscending<T>(x: T, s: seq<T>, key: T -> real)
    requires Ascending(s, key)
    ensures Ascending(Insert(x, s, key), key)
  {
    if |s| != 0 && key(x) > key(s[0]) {
      var tail := Insert(x, s[1..], key);
      InsertAscending(x, s[1..], key);
      InsertElements(x, s[1..], key);
      forall j | 0 <= j < |tail| ensures key(s[0]) <= key(tail[j]) {
        assert tail[j] in multiset(tail);
        assert tail[j] == x || tail[j] in s[1..];
      }
    }
  }

  lemma {:induction false} InsertKeepsTies<T>(x: T, s: seq<T>, key: T -> real, v: real)
    ensures Tied(Insert(x, s, key), key, v) == Tied([x] + s, key, v)
  {
    if |s| != 0 && key(x) > key(s[0]) {
      InsertKeepsTies(x, s[1..], key, v);
      assert ([s[0]] + Insert(x, s[1..], key))[1..] == Insert(x, s[1..], key);
      assert ([x] + s)[1..] == s && ([x] + s[1..])[1..] == s[1..];
    }
  }

  /** The sort is an ascending permutation that keeps equal keys in input order. */
  lemma {:induction false} StableSortSpec<T>(s: seq<T>, key: T -> real)
    ensures Ascending(StableSort(s, key), key)
    ensures multiset(StableSort(s, key)) == multiset(s)
    ensures |StableSort(s, key)| == |s|
    ensures forall v :: Tied(StableSort(s, key), key, v) == Tied(s, key, v)
  {
    if |s| != 0 {
      var rest := StableSort(s[1..], key);
      StableSortSpec(s[1..], key);
      InsertAscending(s[0], rest, key);
      InsertElements(s[0], rest, key);
      assert s == [s[0]] + s[1..];
      forall v ensures Tied(StableSort(s, key), key, v) == Tied(s, key, v) {
        InsertKeepsTies(s[0], rest, key, v);
        assert ([s[0]] + rest)[1..] == rest;
      }
    }
    assert |multiset(StableSort(s, key))| == |multiset(s)|;
  }

  lemma {:induction false} TiedAbsent<T>(s: seq<T>, key: T -> real, v: real)
    requires forall i :: 0 <= i < |s| ==> key(s[i]) > v
    ensures Tied(s, key, v) == []
  {
    if |s| != 0 { TiedAbsent(s[1..], key, v); }
  }

  lemma TiedHead<T>(s: seq<T>, key: T -> real)
    requires |s| > 0
    ensures Tied(s, key, key(s[0])) == [s[0]] + Tied(s[1..], key, key(s[0]))
  {
  }

  /** These properties leave no freedom: at most one sequence is ascending and
      lists every tie in a given order, so `StableSort` is what `sorted` returns. */
  lemma {:induction false} StableSortUnique<T>(a: seq<T>, b: seq<T>, key: T -> real)
    requires Ascending(a, key) && Ascending(b, key)
    requires forall v :: Tied(a, key, v) == Tied(b, key, v)
    ensures a == b
  {
    if |a| == 0 {
      if |b| != 0 { TiedHead(b, key); }
    } else {
      TiedHead(a, key);
      var v := key(a[0]);
      if |b| == 0 || key(b[0]) > v {
        TiedAbsent(b, key, v);
      } else {
        TiedHead(b, key);
        if key(b[0]) < v { TiedAbsent(a, key, key(b[0])); }
        assert key(b[0]) == v && a[0] == b[0];
        forall w ensures Tied(a[1..], key, w) == Tied(b[1..], key, w) {
          var head := if key(a[0]) == w then [a[0]] else [];
          assert Tied(a, key, w) == head + Tied(a[1..], key, w);
          assert Tied(b, key, w) == head + Tied(b[1..], key, w);
          assert Tied(a, key, w)[|head|..] == Tied(a[1..], key, w);
          assert Tied(b, key, w)[|head|..] == Tied(b[1..], key, w);
        }
        StableSortUnique(a[1..], b[1..], key);
        assert a == [a[0]] + a[1..] && b == [b[0]] + b[1..];
      }
    }
  }

  lemma {:induction false} TiedConcat<T>(a: seq<T>, b: seq<T>, key: T -> real, v: real)
    ensures Tied(a + b, key, v) == Tied(a, key, v) + Tied(b, key, v)
  {
    if |a| == 0 {
      assert a + b == b;
    } else {
      TiedConcat(a[1..], b, key, v);
      assert (a + b)[0] == a[0] && (a + b)[1..] == a[1..] + b;
      var head, rest := if key(a[0]) == v then [a[0]] else [], Tied(a[1..], key, v);
      assert Tied(a, key, v) == head + rest;
      assert Tied(a + b, key, v) == head + (rest + Tied(b, key, v));
    }
  }

  lemma FirstOfBlock<T>(s: seq<T>, block: seq<T>, rest: seq<T>)
    requires s == block + rest && block != []
    ensures block[0] in block && s[0] == block[0]
  {
  }

  /** In order, equal keys form a block. */
  lemma {:induction false} TiedIsBlock<T>(s: seq<T>, key: T -> real, v: real) returns (below: seq<T>, above: seq<T>)
    requires Ascending(s, key)
    ensures s == below + Tied(s, key, v) + above
    ensures forall x :: x in below ==> key(x) < v
    ensures forall x :: x in above ==> key(x) > v
  {
    if |s| == 0 {
      below, above := [], [];
    } else if key(s[0]) > v {
      TiedAbsent(s, key, v);
      below, above := [], s;
    } else {
      var tail, block := s[1..], Tied(s[1..], key, v);
      below, above := TiedIsBlock(tail, key, v);
      assert s == [s[0]] + tail;
      if key(s[0]) < v {
        below := [s[0]] + below;
      } else if below != [] {
        FirstOfBlock(tail, below, block + above);
        assert false;
      }
    }
  }

  /** What is in order already stays as it is. */
  lemma SortOfSorted<T>(s: seq<T>, key: T -> real)
    requires Ascending(s, key)
    ensures StableSort(s, key) == s
  {
    StableSortSpec(s, key);
    StableSortUnique(StableSort(s, key), s, key);
  }

  lemma SortElements<T>(s: seq<T>, key: T -> real, x: T)
    ensures x in StableSort(s, key) <==> x in s
  {
    StableSortSpec(s, key);
    assert x in StableSort(s, key) <==> x in multiset(StableSort(s, key));
  }

  lemma TiesOfBlocks<T>(a: seq<T>, b: seq<T>, key: T -> real, v: real)
    ensures Tied(StableSort(a + b, key), key, v) == Tied(StableSort(a, key) + StableSort(b, key), key, v)
  {
    StableSortSpec(a, key);
    StableSortSpec(b, key);
    StableSortSpec(a + b, key);
    TiedConcat(a, b, key, v);
    TiedConcat(StableSort(a, key), StableSort(b, key), key, v);
  }

  /** Blocks that are in order among themselves are sorted one by one. */
  lemma SortOfBlocks<T>(a: seq<T>, b: seq<T>, key: T -> real)
    requires forall x, y :: x in a && y in b ==> key(x) <= key(y)
    ensures StableSort(a + b, key) == StableSort(a, key) + StableSort(b, key)
  {
    forall v ensures Tied(StableSort(a + b, key), key, v) == Tied(StableSort(a, key) + StableSort(b, key), key, v) {
      TiesOfBlocks(a, b, key, v);
    }
    StableSortSpec(a + b, key);
    BlocksAscend(a, b, key);
    StableSortUnique(StableSort(a + b, key), StableSort(a, key) + StableSort(b, key), key);
  }

  lemma BlocksAscend<T>(a: seq<T>, b: seq<T>, key: T -> real)
    requires forall x, y :: x in a && y in b ==> key(x) <= key(y)
    ensures Ascending(StableSort(a, key) + StableSort(b, key), key)
  {
    StableSortSpec(a, key);
    StableSortSpec(b, key);
    var sa, sb := StableSort(a, key), StableSort(b, key);
    forall i, j | 0 <= i < |sa| && 0 <= j < |sb| ensures key(sa[i]) <= key(sb[j]) {
      SortElements(a, key, sa[i]);
      SortElements(b, key, sb[j]);
    }
  }

  lemma SameElements<T>(a: seq<T>, b: seq<T>)
    requires multiset(a) == multiset(b)
    ensures |a| == |b|
    ensures forall x :: x in a <==> x in b
  {
    assert |multiset(a)| == |a| && |multiset(b)| == |b|;
    forall x ensures x in a <==> x in b {
      assert x in a <==> x in multiset(a);
      assert x in b <==> x in multiset(b);
    }
  }

  /** Having no duplicates is a property of the multiset of elements. */
  lemma DistinctFromMultiset<T>(a: seq<T>, b: seq<T>)
    requires multiset(a) == multiset(b) && Distinct(a)
    ensures Distinct(b)
  {
    SameElements(a, b);
    forall i, j | 0 <= i < j < |b| ensures b[i] != b[j] {
      DistinctCountsOne(a, b[i]);
      if b[i] == b[j] { RepeatCountsTwo(b, i, j); }
    }
  }

  lemma RepeatCountsTwo<T>(b: seq<T>, i: nat, j: nat)
    requires i < j < |b| && b[i] == b[j]
    ensures multiset(b)[b[i]] >= 2
  {
    assert b == b[..i] + [b[i]] + b[i+1..j] + [b[j]] + b[j+1..];
  }

  lemma {:induction false} DistinctCountsOne<T>(a: seq<T>, x: T)
    requires Distinct(a)
    ensures multiset(a)[x] <= 1
  {
    if |a| != 0 {
      DistinctCountsOne(a[1..], x);
      assert a == [a[0]] + a[1..];
      if a[0] == x { assert x !in a[1..]; assert multiset(a[1..])[x] == 0; }
    }
  }

  /** Taking the last element of `s` out of a permutation `t` of it. */
  lemma TakeOut<T>(s: seq<T>, t: seq<T>) returns (k: nat)
    requires s != [] && multiset(s) == multiset(t)
    ensures k < |t| && t[k] == s[|s| - 1]
    ensures multiset(s[..|s| - 1]) == multiset(t[..k] + t[k + 1..])
  {
    var n := |s| - 1;
    var x := s[n];
    SameElements(s, t);
    assert x in s && x in t;
    k :| 0 <= k < |t| && t[k] == x;
    assert t == t[..k] + [x] + t[k + 1..] && s == s[..n] + [x];
    assert multiset(s) == multiset(s[..n]) + multiset{x};
    assert multiset(t) == multiset(t[..k] + t[k + 1..]) + multiset{x};
    RemoveOne(multiset(s[..n]), multiset(t[..k] + t[k + 1..]), x);
  }

  lemma RemoveOne<T>(a: multiset<T>, b: multiset<T>, x: T)
    requires a + multiset{x} == b + multiset{x}
    ensures a == b
  {
    assert a == (a + multiset{x}) - multiset{x};
    assert b == (b + multiset{x}) - multiset{x};
  }
}
