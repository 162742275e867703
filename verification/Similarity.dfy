/** Cosine similarity between events, seen as sets of buyers
    (`build_item_similarity_matrix` in src/recommender.py). */
module Similarity {
  import opened Wrappers
  import opened Sorting

  type History = map<string, seq<string>>

  /** `math.sqrt` on natural numbers, in exact arithmetic. */
  ghost predicate IsSqrt(sqrt: nat -> real) {
    forall n: nat :: sqrt(n) >= 0.0 && sqrt(n) * sqrt(n) == n as real
  }

  function Buyers(h: History, event: string): set<string> {
    set u | u in h && event in h[u]
  }

  function AllEvents(h: History): set<string> {
    set u, e | u in h && e in h[u] :: e
  }

  /** The end of `_cosine`. */
  function Quotient(dot: int, mag1: real, mag2: real): real {
    if mag1 == 0.0 || mag2 == 0.0 then 0.0
    else
      assert mag1 * mag2 != 0.0;
      dot as real / (mag1 * mag2)
  }

  /** What `_cosine` returns for two 0/1 vectors with these supports. */
  function Cosine(sqrt: nat -> real, a: set<string>, b: set<string>): real {
    Quotient(|a * b|, sqrt(|a|), sqrt(|b|))
  }

  // ----- arithmetic of the quotient ------------------------------------------------

  lemma PositiveRoot(sqrt: nat -> real, n: nat)
    requires IsSqrt(sqrt) && n > 0
    ensures sqrt(n) > 0.0 && sqrt(n) * sqrt(n) == n as real
  {
  }

  lemma SquareLess(x: real, y: real)
    requires 0.0 <= x < y
    ensures x * x < y * y
  {
    assert (y - x) * y > 0.0 && (y - x) * x >= 0.0;
    assert y * y == (y - x) * y + (y - x) * x + x * x;
  }

  lemma SquareOrder(x: real, y: real)
    requires x >= 0.0 && y >= 0.0
    ensures x <= y <==> x * x <= y * y
    ensures x == y <==> x * x == y * y
  {
    if x < y { SquareLess(x, y); }
    if y < x { SquareLess(y, x); }
  }

  lemma ProductSquare(p: real, q: real)
    ensures (p * q) * (p * q) == (p * p) * (q * q)
  {
  }

  lemma QuotientFacts(d: real, m: real)
    requires m > 0.0 && d >= 0.0
    ensures 0.0 <= d / m && (d / m <= 1.0 <==> d <= m) && (d / m == 1.0 <==> d == m) && (d / m == 0.0 <==> d == 0.0)
  {
  }

  /** d common buyers out of x and y, over the product of the two magnitudes. */
  lemma CosineQuotient(d: nat, x: nat, y: nat, p: real, q: real)
    requires d <= x && d <= y && x > 0 && y > 0
    requires p > 0.0 && q > 0.0 && p * p == x as real && q * q == y as real
    ensures p * q > 0.0 && 0.0 <= Quotient(d, p, q) <= 1.0
    ensures Quotient(d, p, q) == 1.0 <==> d == x == y
    ensures Quotient(d, p, q) == 0.0 <==> d == 0
  {
    RootsMultiply(p, q, x, y);
    OverlapBound(d, x, y);
    assert (d * d) as real == d as real * d as real && (x * y) as real == x as real * y as real;
    SquareOrder(d as real, p * q);
    QuotientFacts(d as real, p * q);
  }

  lemma SubsetSize<T>(a: set<T>, b: set<T>)
    requires a <= b
    ensures |a| <= |b| && (|a| == |b| ==> a == b)
  {
    assert b == a + (b - a);
    assert |b| == |a| + |b - a|;
    if |a| == |b| { assert b - a == {}; }
  }

  /** With d common buyers out of x and y: d * d <= x * y, with equality only
      when the three numbers are equal. */
  lemma OverlapBound(d: nat, x: nat, y: nat)
    requires d <= x && d <= y && x > 0 && y > 0
    ensures d * d <= x * y && (d * d == x * y <==> d == x == y)
  {
    assert d * d <= d * y <= x * y;
    if d < x { assert d * y < x * y; }
    if d < y && d == x { assert d * d < d * y; }
  }

  /** Similarity of bought events lies in [0, 1], is 1 exactly for equal sets of
      buyers, 0 exactly for disjoint ones, and the zero-magnitude branches are
      never taken. */
  lemma CosineRange(sqrt: nat -> real, a: set<string>, b: set<string>)
    requires IsSqrt(sqrt) && a != {} && b != {}
    ensures sqrt(|a|) != 0.0 && sqrt(|b|) != 0.0 && sqrt(|a|) * sqrt(|b|) != 0.0
    ensures 0.0 <= Cosine(sqrt, a, b) <= 1.0
    ensures Cosine(sqrt, a, b) == 1.0 <==> a == b
    ensures Cosine(sqrt, a, b) == 0.0 <==> a !! b
  {
    PositiveRoot(sqrt, |a|);
    PositiveRoot(sqrt, |b|);
    SubsetSize(a * b, a);
    SubsetSize(a * b, b);
    CosineQuotient(|a * b|, |a|, |b|, sqrt(|a|), sqrt(|b|));
    OverlapSays(a, b);
  }

  lemma OverlapSays(a: set<string>, b: set<string>)
    ensures a == b <==> |a * b| == |a| == |b|
    ensures a !! b <==> |a * b| == 0
  {
    if a == b {
      assert a * b == a;
    } else if |a * b| == |a| == |b| {
      SubsetSize(a * b, a);
      SubsetSize(a * b, b);
      assert false;
    }
    if a !! b {
      assert a * b == {};
    } else {
      var x :| x in a && x in b;
      assert x in a * b;
    }
  }

  lemma RootsMultiply(p: real, q: real, x: nat, y: nat)
    requires p > 0.0 && q > 0.0 && p * p == x as real && q * q == y as real
    ensures p * q > 0.0 && (p * q) * (p * q) == x as real * y as real
  {
    ProductSquare(p, q);
  }

  /** The cosine in squared form, which determines it as it is not negative. */
  lemma CosineSquared(sqrt: nat -> real, a: set<string>, b: set<string>)
    requires IsSqrt(sqrt) && a != {} && b != {}
    ensures Cosine(sqrt, a, b) >= 0.0
    ensures Cosine(sqrt, a, b) * Cosine(sqrt, a, b) * (|a| as real * |b| as real) == |a * b| as real * |a * b| as real
  {
    PositiveRoot(sqrt, |a|);
    PositiveRoot(sqrt, |b|);
    CosineRange(sqrt, a, b);
    RootsMultiply(sqrt(|a|), sqrt(|b|), |a|, |b|);
    QuotientIs(|a * b|, sqrt(|a|), sqrt(|b|), sqrt(|a|) * sqrt(|b|));
    QuotientSquared(|a * b| as real, sqrt(|a|) * sqrt(|b|), Cosine(sqrt, a, b));
  }

  lemma QuotientSquared(d: real, m: real, c: real)
    requires m != 0.0 && c == d / m
    ensures c * c * (m * m) == d * d
  {
    assert c * m == d;
    assert c * c * (m * m) == (c * m) * (c * m);
  }

  lemma QuotientSymmetric(dot: int, p: real, q: real)
    ensures Quotient(dot, p, q) == Quotient(dot, q, p)
  {
    if p != 0.0 && q != 0.0 {
      QuotientIs(dot, p, q, p * q);
      QuotientIs(dot, q, p, p * q);
    } else {
      assert Quotient(dot, p, q) == 0.0;
      assert Quotient(dot, q, p) == 0.0;
    }
  }

  lemma QuotientIs(dot: int, p: real, q: real, m: real)
    requires p != 0.0 && q != 0.0 && m == p * q
    ensures m != 0.0 && Quotient(dot, p, q) == dot as real / m
  {
  }

  lemma CosineSymmetric(sqrt: nat -> real, a: set<string>, b: set<string>)
    ensures Cosine(sqrt, a, b) == Cosine(sqrt, b, a)
  {
    assert a * b == b * a;
    QuotientSymmetric(|a * b|, sqrt(|a|), sqrt(|b|));
  }

  // ----- `_cosine` and the matrix -----------------------------------------------------

  /** A 0/1 vector: the buyers of an event, each mapped to 1. */
  ghost predicate IsVector(v: map<string, int>, buyers: set<string>) {
    v.Keys == buyers && forall u :: u in v ==> v[u] == 1
  }

  method CosineOf(v1: map<string, int>, v2: map<string, int>, sqrt: nat -> real,
                  ghost a: set<string>, ghost b: set<string>) returns (c: real)
    requires IsVector(v1, a) && IsVector(v2, b)
    ensures c == Cosine(sqrt, a, b)
  {
    var dot := Dot(v1, v2, a, b);
    var squares1 := SumOfSquares(v1, a);
    var squares2 := SumOfSquares(v2, b);
    c := Quotient(dot, sqrt(squares1), sqrt(squares2));
  }

  method Dot(v1: map<string, int>, v2: map<string, int>, ghost a: set<string>, ghost b: set<string>)
    returns (dot: int)
    requires IsVector(v1, a) && IsVector(v2, b)
    ensures dot == |a * b|
  {
    dot := 0;
    var todo := v1.Keys + v2.Keys;
    assert todo * (a * b) == a * b;
    while todo != {}
      invariant todo <= a + b && dot + |todo * (a * b)| == |a * b|
    {
      var u :| u in todo;
      var x1 := if u in v1 then v1[u] else 0;
      var x2 := if u in v2 then v2[u] else 0;
      assert x1 * x2 == if u in a * b then 1 else 0;
      assert (todo - {u}) * (a * b) == todo * (a * b) - (if u in a * b then {u} else {});
      dot := dot + x1 * x2;
      todo := todo - {u};
    }
    assert |todo * (a * b)| == 0;
  }

  method SumOfSquares(v: map<string, int>, ghost buyers: set<string>) returns (n: nat)
    requires IsVector(v, buyers)
    ensures n == |buyers|
  {
    n := 0;
    var todo := v.Keys;
    while todo != {}
      invariant todo <= v.Keys && n + |todo| == |buyers|
    {
      var u :| u in todo;
      n := n + v[u] * v[u];
      todo := todo - {u};
    }
  }

  type Matrix = map<string, map<string, real>>

  /** One row per event, covering exactly the other events. */
  ghost predicate IsSimilarityMatrix(m: Matrix, h: History, sqrt: nat -> real) {
    && (forall e :: e in m <==> e in AllEvents(h))
    && (forall e, f :: e in m ==>
          Entry(m, e, f) == if f in AllEvents(h) && f != e then Some(Affinity(h, sqrt, e, f)) else None)
  }

  function Entry(m: Matrix, e: string, f: string): Option<real> {
    if e in m && f in m[e] then Some(m[e][f]) else None
  }

  type Values = (string, string) -> real

  function Affinity(h: History, sqrt: nat -> real, e: string, f: string): real {
    Cosine(sqrt, Buyers(h, e), Buyers(h, f))
  }

  ghost predicate AreAffinities(value: Values, h: History, sqrt: nat -> real) {
    forall e, f {:trigger Affinity(h, sqrt, e, f)} :: value(e, f) == Affinity(h, sqrt, e, f)
  }

  lemma AllAffinities(h: History, sqrt: nat -> real) returns (value: Values)
    ensures AreAffinities(value, h, sqrt)
  {
    value := (e: string, f: string) => Affinity(h, sqrt, e, f);
  }

  function RowOf(m: Matrix, e: string): map<string, real> { if e in m then m[e] else map[] }

  /** `similarity[e1][e2] = sim` and `similarity[e2][e1] = sim`; both rows exist
      whenever the loops do this, see `FilledRows`. */
  function SetPair(m: Matrix, e1: string, e2: string, sim: real): Matrix {
    var m' := m[e1 := RowOf(m, e1)[e2 := sim]];
    m'[e2 := RowOf(m', e2)[e1 := sim]]
  }

  lemma SetPairEntry(m: Matrix, e1: string, e2: string, sim: real, e: string, f: string)
    requires e1 != e2
    ensures Entry(SetPair(m, e1, e2, sim), e, f)
         == if (e == e1 && f == e2) || (e == e2 && f == e1) then Some(sim) else Entry(m, e, f)
  {
  }

  function EmptyRows(events: seq<string>): Matrix { map e | e in events :: map[] }

  /** The matrix when the loops stand at (i, j). */
  ghost function FilledMatrix(events: seq<string>, i: nat, j: nat, value: Values): Matrix
    requires At(events, i, j)
    decreases i, j
  {
    if j > i + 1 then
      SetPair(FilledMatrix(events, i, j - 1, value), events[i], events[j - 1], value(events[i], events[j - 1]))
    else if i > 0 then FilledMatrix(events, i - 1, |events|, value)
    else EmptyRows(events)
  }

  predicate At(events: seq<string>, i: nat, j: nat) {
    i < j && i <= |events| && (j <= |events| || j == i + 1)
  }

  lemma {:induction false} FilledRows(events: seq<string>, i: nat, j: nat, value: Values)
    requires At(events, i, j)
    ensures forall e :: e in FilledMatrix(events, i, j, value) <==> e in events
    decreases i, j
  {
    if j > i + 1 {
      FilledRows(events, i, j - 1, value);
      assert events[i] in events && events[j - 1] in events;
    } else if i > 0 {
      FilledRows(events, i - 1, |events|, value);
    }
  }

  /** The loops have passed the positions p and q, in either order. */
  predicate Passed(p: nat, q: nat, i: nat, j: nat) {
    if p < q then p < i || (p == i && q < j)
    else q < p && (q < i || (q == i && p < j))
  }

  lemma SetPairAt(m: Matrix, events: seq<string>, i: nat, k: nat, sim: real, p: nat, q: nat)
    requires Distinct(events) && i < |events| && k < |events| && i != k && p < |events| && q < |events|
    ensures Entry(SetPair(m, events[i], events[k], sim), events[p], events[q])
         == if (p == i && q == k) || (p == k && q == i) then Some(sim) else Entry(m, events[p], events[q])
  {
    SamePosition(events, i, k);
    SamePosition(events, p, i);
    SamePosition(events, p, k);
    SamePosition(events, q, i);
    SamePosition(events, q, k);
    SetPairEntry(m, events[i], events[k], sim, events[p], events[q]);
  }

  lemma SamePosition(s: seq<string>, i: nat, j: nat)
    requires Distinct(s) && i < |s| && j < |s|
    ensures s[i] == s[j] <==> i == j
  {
  }

  lemma {:induction false} FilledEntry(events: seq<string>, i: nat, j: nat, value: Values, p: nat, q: nat)
    requires Distinct(events) && At(events, i, j)
    requires p < |events| && q < |events| && value(events[p], events[q]) == value(events[q], events[p])
    ensures Entry(FilledMatrix(events, i, j, value), events[p], events[q])
         == if Passed(p, q, i, j) then Some(value(events[p], events[q])) else None
    decreases i, j
  {
    if j > i + 1 {
      FilledEntry(events, i, j - 1, value, p, q);
      SetPairAt(FilledMatrix(events, i, j - 1, value), events, i, j - 1, value(events[i], events[j - 1]), p, q);
    } else if i > 0 {
      FilledEntry(events, i - 1, |events|, value, p, q);
    }
  }

  lemma {:induction false} FilledRowsHoldEvents(events: seq<string>, i: nat, j: nat, value: Values, e: string, f: string)
    requires Distinct(events) && At(events, i, j)
    requires f !in events
    ensures Entry(FilledMatrix(events, i, j, value), e, f).None?
    decreases i, j
  {
    if j > i + 1 {
      FilledRowsHoldEvents(events, i, j - 1, value, e, f);
      var e1, e2 := events[i], events[j - 1];
      SamePosition(events, i, j - 1);
      SetPairEntry(FilledMatrix(events, i, j - 1, value), e1, e2, value(e1, e2), e, f);
    } else if i > 0 {
      FilledRowsHoldEvents(events, i - 1, |events|, value, e, f);
    }
  }

  lemma FilledEntryIs(events: seq<string>, value: Values, e: string, f: string)
    requires Distinct(events) && e in events && value(e, f) == value(f, e)
    ensures Entry(FilledMatrix(events, |events|, |events| + 1, value), e, f)
         == if f in events && f != e then Some(value(e, f)) else None
  {
    var n := |events|;
    if f in events {
      var p :| 0 <= p < n && events[p] == e;
      var q :| 0 <= q < n && events[q] == f;
      FilledEntry(events, n, n + 1, value, p, q);
    } else {
      FilledRowsHoldEvents(events, n, n + 1, value, e, f);
    }
  }

  lemma FilledIsSimilarity(events: seq<string>, h: History, sqrt: nat -> real, value: Values, m: Matrix)
    requires Distinct(events) && forall e :: e in events <==> e in AllEvents(h)
    requires AreAffinities(value, h, sqrt) && m == FilledMatrix(events, |events|, |events| + 1, value)
    ensures IsSimilarityMatrix(m, h, sqrt)
  {
    FilledRows(events, |events|, |events| + 1, value);
    forall e, f | e in m
      ensures Entry(m, e, f) == if f in AllEvents(h) && f != e then Some(Affinity(h, sqrt, e, f)) else None
    {
      CosineSymmetric(sqrt, Buyers(h, e), Buyers(h, f));
      assert value(e, f) == Affinity(h, sqrt, e, f) == Affinity(h, sqrt, f, e) == value(f, e);
      FilledEntryIs(events, value, e, f);
    }
  }

  /** The buyers of each listed event as 0/1 vectors. */
  ghost predicate AreVectors(vectors: map<string, map<string, int>>, events: seq<string>, h: History) {
    forall e :: e in events ==> e in vectors && IsVector(vectors[e], Buyers(h, e))
  }

  method BuildItemSimilarityMatrix(h: History, sqrt: nat -> real) returns (similarity: Matrix)
    ensures IsSimilarityMatrix(similarity, h, sqrt)
  {
    var events := ListEvents(AllEvents(h));
    var vectors := EventVectors(h, events);
    ghost var value := AllAffinities(h, sqrt);
    similarity := EmptyRows(events);
    for i := 0 to |events|
      invariant similarity == FilledMatrix(events, i, i + 1, value)
    {
      similarity := FillRow(similarity, events, vectors, h, sqrt, i, value);
      assert FilledMatrix(events, i + 1, i + 2, value) == FilledMatrix(events, i, |events|, value);
    }
    FilledIsSimilarity(events, h, sqrt, value, similarity);
  }

  /** The inner loop: the similarities of event `i` to all later events. */
  method FillRow(m: Matrix, events: seq<string>, vectors: map<string, map<string, int>>,
                 ghost h: History, sqrt: nat -> real, i: nat, ghost value: Values) returns (m': Matrix)
    requires i < |events| && AreVectors(vectors, events, h) && AreAffinities(value, h, sqrt)
    requires m == FilledMatrix(events, i, i + 1, value)
    ensures m' == FilledMatrix(events, i, |events|, value)
  {
    m' := m;
    for j := i + 1 to |events|
      invariant m' == FilledMatrix(events, i, j, value)
    {
      m' := FillPair(m', events, vectors, h, sqrt, i, j, value);
    }
  }

  method FillPair(m: Matrix, events: seq<string>, vectors: map<string, map<string, int>>, ghost h: History,
                  sqrt: nat -> real, i: nat, j: nat, ghost value: Values) returns (m': Matrix)
    requires i < j < |events| && AreVectors(vectors, events, h) && AreAffinities(value, h, sqrt)
    requires m == FilledMatrix(events, i, j, value)
    ensures m' == FilledMatrix(events, i, j + 1, value)
  {
    var e1, e2 := events[i], events[j];
    var sim := PairSimilarity(vectors, events, h, sqrt, e1, e2);
    m' := SetPair(m, e1, e2, sim);
  }

  method PairSimilarity(vectors: map<string, map<string, int>>, ghost events: seq<string>, ghost h: History,
                        sqrt: nat -> real, e1: string, e2: string) returns (sim: real)
    requires AreVectors(vectors, events, h) && e1 in events && e2 in events
    ensures sim == Affinity(h, sqrt, e1, e2)
  {
    sim := CosineOf(vectors[e1], vectors[e2], sqrt, Buyers(h, e1), Buyers(h, e2));
  }

  method EventVectors(h: History, events: seq<string>) returns (vectors: map<string, map<string, int>>)
    ensures AreVectors(vectors, events, h)
  {
    vectors := map e | e in events :: map u | u in h && e in h[u] :: 1;
    forall e | e in events ensures vectors[e].Keys == Buyers(h, e) {
    }
  }

  /** The elements of a set as a list without repetitions. */
  method ListEvents(s: set<string>) returns (list: seq<string>)
    ensures forall e :: e in list <==> e in s
    ensures Distinct(list) && |list| == |s|
  {
    list := [];
    var todo := s;
    while todo != {}
      invariant todo <= s && |list| + |todo| == |s|
      invariant forall e :: e in list <==> e in s && e !in todo
      invariant Distinct(list)
    {
      var e :| e in todo;
      list := list + [e];
      todo := todo - {e};
    }
  }

  /** For every history: each event's row covers exactly the other events, the
      matrix is symmetric, entries lie in [0, 1], and an entry is 1 iff the two
      events have the same buyers and 0 iff they have none in common. */
  lemma MatrixIsWellFormed(m: Matrix, h: History, sqrt: nat -> real, e: string, f: string)
    requires IsSqrt(sqrt) && IsSimilarityMatrix(m, h, sqrt) && e in m
    ensures f in m[e] <==> f in AllEvents(h) && f != e
    ensures f in m[e] ==> f in m && e in m[f] && m[e][f] == m[f][e]
    ensures f in m[e] ==> 0.0 <= m[e][f] <= 1.0
    ensures f in m[e] ==> (m[e][f] == 1.0 <==> Buyers(h, e) == Buyers(h, f))
    ensures f in m[e] ==> (m[e][f] == 0.0 <==> Buyers(h, e) !! Buyers(h, f))
  {
    assert Entry(m, e, f) == if f in AllEvents(h) && f != e then Some(Affinity(h, sqrt, e, f)) else None;
    if f in m[e] {
      assert Entry(m, f, e) == Some(Affinity(h, sqrt, f, e));
      BoughtBySomeone(h, e);
      BoughtBySomeone(h, f);
      CosineRange(sqrt, Buyers(h, e), Buyers(h, f));
      CosineSymmetric(sqrt, Buyers(h, e), Buyers(h, f));
    }
  }

  lemma BoughtBySomeone(h: History, e: string)
    requires e in AllEvents(h)
    ensures Buyers(h, e) != {}
  {
    var u :| u in h && e in h[u];
    assert u in Buyers(h, e);
  }
}
