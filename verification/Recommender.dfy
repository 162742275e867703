/** Top-N recommendations from the similarity matrix
    (`get_item_recommendations` in src/recommender.py). */
module Recommender {
  import opened Wrappers
  import opened Sorting
  import opened Similarity

  // ----- sums over sets ----------------------------------------------------------------

  ghost function SumOver(s: set<string>, f: string -> real): real {
    if s == {} then 0.0 else
      var x :| x in s;
      f(x) + SumOver(s - {x}, f)
  }

  lemma {:induction false} SumRemove(s: set<string>, x: string, f: string -> real)
    requires x in s
    ensures SumOver(s, f) == f(x) + SumOver(s - {x}, f)
  {
    var y :| y in s && SumOver(s, f) == f(y) + SumOver(s - {y}, f);
    if y != x {
      SumRemove(s - {y}, x, f);
      SumRemove(s - {x}, y, f);
      assert s - {y} - {x} == s - {x} - {y};
    }
  }

  lemma SumAdd(s: set<string>, x: string, f: string -> real)
    requires x !in s
    ensures SumOver(s + {x}, f) == SumOver(s, f) + f(x)
  {
    SumRemove(s + {x}, x, f);
    assert s + {x} - {x} == s;
  }

  lemma {:induction false} SumSameTerms(s: set<string>, f: string -> real, g: string -> real)
    requires forall x :: x in s ==> f(x) == g(x)
    ensures SumOver(s, f) == SumOver(s, g)
  {
    if s != {} {
      var x :| x in s;
      SumRemove(s, x, f);
      SumRemove(s, x, g);
      SumSameTerms(s - {x}, f, g);
    }
  }

  /** A sum of terms in [0, 1] lies in [0, |s|] and is 0 only if every term is. */
  lemma {:induction false} SumOfFractions(s: set<string>, f: string -> real)
    requires forall x :: x in s ==> 0.0 <= f(x) <= 1.0
    ensures 0.0 <= SumOver(s, f) <= |s| as real
    ensures SumOver(s, f) == 0.0 <==> forall x :: x in s ==> f(x) == 0.0
  {
    if s != {} {
      var x :| x in s;
      SumRemove(s, x, f);
      SumOfFractions(s - {x}, f);
      assert s == (s - {x}) + {x};
      assert forall y :: y in s ==> y == x || y in s - {x};
    }
  }

  // ----- the first `n` of a ranking ------------------------------------------------------

  /** How many elements Python's `s[:n]` keeps of `len` ones. */
  function SliceLength(len: nat, n: int): nat {
    if n >= 0 then (if n <= len then n else len)
    else if len + n >= 0 then len + n else 0
  }

  /** `r` is a best choice of `n` candidates: no duplicates, best first, and no
      candidate left out scores more than a chosen one. */
  ghost predicate IsTop(r: seq<string>, candidates: set<string>, score: string -> real, n: int) {
    && Distinct(r)
    && (forall c :: c in r ==> c in candidates)
    && (n >= 0 ==> |r| == if n <= |candidates| then n else |candidates|)
    && (n < 0 ==> |r| == if |candidates| + n >= 0 then |candidates| + n else 0)
    && (forall i, j :: 0 <= i < j < |r| ==> score(r[i]) >= score(r[j]))
    && (forall c, x :: c in candidates && c !in r && x in r ==> score(x) >= score(c))
  }

  /** `sorted(names, key=score, reverse=True)[:n]` */
  function Top(names: seq<string>, score: string -> real, n: int): seq<string> {
    var ranking := StableSort(names, (c: string) => -score(c));
    StableSortSpec(names, (c: string) => -score(c));
    ranking[..SliceLength(|names|, n)]
  }

  lemma TopIsTop(names: seq<string>, candidates: set<string>, score: string -> real, n: int)
    requires Distinct(names) && |names| == |candidates| && forall c :: c in names <==> c in candidates
    ensures IsTop(Top(names, score, n), candidates, score, n)
  {
    var key := (c: string) => -score(c);
    var ranking := StableSort(names, key);
    StableSortSpec(names, key);
    SameElements(names, ranking);
    DistinctFromMultiset(names, ranking);
    forall i, j | 0 <= i < j < |ranking| ensures score(ranking[i]) >= score(ranking[j]) {
      assert key(ranking[i]) <= key(ranking[j]);
    }
    PrefixIsTop(ranking, candidates, score, n);
  }

  lemma PrefixIsTop(ranking: seq<string>, candidates: set<string>, score: string -> real, n: int)
    requires Distinct(ranking) && |ranking| == |candidates| && forall c :: c in ranking <==> c in candidates
    requires forall i, j :: 0 <= i < j < |ranking| ==> score(ranking[i]) >= score(ranking[j])
    ensures IsTop(ranking[..SliceLength(|ranking|, n)], candidates, score, n)
  {
    var r := ranking[..SliceLength(|ranking|, n)];
    forall c, x | c in candidates && c !in r && x in r ensures score(x) >= score(c) {
      var i :| 0 <= i < |r| && r[i] == x;
      assert c in ranking;
      var j :| 0 <= j < |ranking| && ranking[j] == c;
      assert forall k :: 0 <= k < |r| ==> ranking[k] == r[k];
      assert j >= |r| && ranking[i] == x;
    }
  }

  // ----- popularity ------------------------------------------------------------------------

  /** How often each user bought the event. */
  ghost function Purchases(h: History, e: string): string -> real {
    (u: string) => if u in h then multiset(h[u])[e] as real else 0.0
  }

  /** Total number of purchases of an event. */
  ghost function Popularity(h: History): string -> real {
    (e: string) => SumOver(h.Keys, Purchases(h, e))
  }

  function Tally(counts: map<string, int>, e: string): int {
    if e in counts then counts[e] else 0
  }

  /** The counters hold the purchases of the users in `done`. */
  ghost predicate Tallied(counts: map<string, int>, h: History, done: set<string>) {
    && (forall e :: e in counts <==> exists u :: u in done && u in h && e in h[u])
    && forall e :: Tally(counts, e) as real == SumOver(done, Purchases(h, e))
  }

  method CountPurchases(h: History) returns (counts: map<string, int>)
    ensures Tallied(counts, h, h.Keys)
  {
    counts := map[];
    var todo := h.Keys;
    ghost var done := {};
    while todo != {}
      invariant done !! todo && done + todo == h.Keys
      invariant Tallied(counts, h, done)
    {
      var u :| u in todo;
      var before := counts;
      counts := CountBasket(counts, h[u]);
      AnotherUser(before, counts, h, done, u);
      done := done + {u};
      todo := todo - {u};
    }
    assert done == h.Keys;
  }

  method CountBasket(counts: map<string, int>, events: seq<string>) returns (counts': map<string, int>)
    ensures forall e :: e in counts' <==> e in counts || e in events
    ensures forall e :: Tally(counts', e) == Tally(counts, e) + multiset(events)[e]
  {
    counts' := counts;
    for k := 0 to |events|
      invariant forall e :: e in counts' <==> e in counts || e in events[..k]
      invariant forall e :: Tally(counts', e) == Tally(counts, e) + multiset(events[..k])[e]
    {
      var e := events[k];
      assert events[..k + 1] == events[..k] + [e];
      counts' := counts'[e := Tally(counts', e) + 1];
    }
    assert events[..|events|] == events;
  }

  lemma AnotherUser(counts: map<string, int>, counts': map<string, int>, h: History, done: set<string>, u: string)
    requires Tallied(counts, h, done) && u in h && u !in done
    requires forall e :: e in counts' <==> e in counts || e in h[u]
    requires forall e :: Tally(counts', e) == Tally(counts, e) + multiset(h[u])[e]
    ensures Tallied(counts', h, done + {u})
  {
    forall e ensures Tally(counts', e) as real == SumOver(done + {u}, Purchases(h, e)) {
      SumAdd(done, u, Purchases(h, e));
    }
  }

  // ----- scores ------------------------------------------------------------------------------

  /** The similarity of `c` to each event, 0 where the matrix has no entry. */
  ghost function SimilarityTo(m: Matrix, c: string): string -> real {
    (p: string) => var x := Entry(m, p, c); if x.Some? then x.value else 0.0
  }

  /** The score of a candidate: its similarities to the distinct events bought. */
  ghost function Score(m: Matrix, bought: set<string>): string -> real {
    (c: string) => SumOver(bought, SimilarityTo(m, c))
  }

  /** Events some bought event has an entry for, other than those bought. */
  ghost predicate IsCandidate(m: Matrix, done: set<string>, bought: set<string>, c: string) {
    c !in bought && exists p :: p in done && Entry(m, p, c).Some?
  }

  function ValueOf(scores: map<string, real>, c: string): real {
    if c in scores then scores[c] else 0.0
  }

  /** The scores collected from the rows of the events in `done`. */
  ghost predicate Scored(scores: map<string, real>, m: Matrix, done: set<string>, bought: set<string>) {
    && (forall c :: c in scores <==> IsCandidate(m, done, bought, c))
    && forall c :: c !in bought ==> ValueOf(scores, c) == SumOver(done, SimilarityTo(m, c))
  }

  method ScoreCandidates(m: Matrix, bought: set<string>) returns (scores: map<string, real>)
    ensures Scored(scores, m, bought, bought)
  {
    scores := map[];
    var todo := bought;
    ghost var done := {};
    while todo != {}
      invariant done !! todo && done + todo == bought
      invariant Scored(scores, m, done, bought)
    {
      var p :| p in todo;
      var before := scores;
      scores := AddRow(scores, if p in m then m[p] else map[], bought);
      AnotherRow(before, scores, m, done, bought, p);
      done := done + {p};
      todo := todo - {p};
    }
    assert done == bought;
  }

  method AddRow(scores: map<string, real>, row: map<string, real>, bought: set<string>)
    returns (scores': map<string, real>)
    ensures forall c :: c in scores' <==> c in scores || (c in row && c !in bought)
    ensures forall c :: c !in bought ==> ValueOf(scores', c) == ValueOf(scores, c) + ValueOf(row, c)
  {
    scores' := scores;
    var todo := row.Keys;
    while todo != {}
      invariant todo <= row.Keys
      invariant forall c :: c in scores' <==> c in scores || (c in row && c !in todo && c !in bought)
      invariant forall c :: c !in bought ==>
        ValueOf(scores', c) == ValueOf(scores, c) + if c in todo then 0.0 else ValueOf(row, c)
    {
      var c :| c in todo;
      if c !in bought {
        scores' := scores'[c := ValueOf(scores', c) + row[c]];
      }
      todo := todo - {c};
    }
  }

  lemma AnotherRow(scores: map<string, real>, scores': map<string, real>, m: Matrix,
                   done: set<string>, bought: set<string>, p: string)
    requires Scored(scores, m, done, bought) && p !in done
    requires var row := if p in m then m[p] else map[];
             && (forall c :: c in scores' <==> c in scores || (c in row && c !in bought))
             && forall c :: c !in bought ==> ValueOf(scores', c) == ValueOf(scores, c) + ValueOf(row, c)
    ensures Scored(scores', m, done + {p}, bought)
  {
    forall c | c !in bought ensures ValueOf(scores', c) == SumOver(done + {p}, SimilarityTo(m, c)) {
      SumAdd(done, p, SimilarityTo(m, c));
    }
    forall c ensures IsCandidate(m, done + {p}, bought, c)
                <==> IsCandidate(m, done, bought, c) || (Entry(m, p, c).Some? && c !in bought) {
      if Entry(m, p, c).Some? { assert p in done + {p}; }
    }
  }

  // ----- recommendations ------------------------------------------------------------------------

  function UserEvents(h: History, user: string): seq<string> {
    if user in h then h[user] else []
  }

  function AsSet(s: seq<string>): set<string> { set e | e in s }

  ghost function Candidates(m: Matrix, bought: set<string>): set<string> {
    set p, c | p in m && c in m[p] && IsCandidate(m, bought, bought, c) :: c
  }

  /** Without history: the most purchased events. Otherwise: the events most
      similar to what the user bought. */
  method GetItemRecommendations(user: string, h: History, m: Matrix, topN: int) returns (r: seq<string>)
    ensures UserEvents(h, user) == [] ==> IsTop(r, AllEvents(h), Popularity(h), topN)
    ensures UserEvents(h, user) != [] ==>
              var bought := AsSet(UserEvents(h, user));
              IsTop(r, Candidates(m, bought), Score(m, bought), topN)
    ensures var pool := if UserEvents(h, user) == [] then |AllEvents(h)| else |Candidates(m, AsSet(UserEvents(h, user)))|;
            |r| == if topN >= 0 then (if topN <= pool then topN else pool) else if pool + topN >= 0 then pool + topN else 0
  {
    var userEvents := UserEvents(h, user);
    if userEvents == [] {
      r := MostPopular(h, topN);
    } else {
      r := MostSimilar(m, AsSet(userEvents), topN);
    }
  }

  method MostPopular(h: History, topN: int) returns (r: seq<string>)
    ensures IsTop(r, AllEvents(h), Popularity(h), topN)
  {
    var counts := CountPurchases(h);
    var names := ListEvents(counts.Keys);
    assert counts.Keys == AllEvents(h);
    var key := (e: string) => Tally(counts, e) as real;
    TopIsTop(names, AllEvents(h), key, topN);
    r := Top(names, key, topN);
    SameRanking(r, AllEvents(h), key, Popularity(h), topN);
  }

  method MostSimilar(m: Matrix, bought: set<string>, topN: int) returns (r: seq<string>)
    ensures IsTop(r, Candidates(m, bought), Score(m, bought), topN)
  {
    var scores := ScoreCandidates(m, bought);
    var names := ListEvents(scores.Keys);
    assert scores.Keys == Candidates(m, bought);
    var key := (c: string) => ValueOf(scores, c);
    TopIsTop(names, Candidates(m, bought), key, topN);
    r := Top(names, key, topN);
    SameRanking(r, Candidates(m, bought), key, Score(m, bought), topN);
  }

  lemma SameRanking(r: seq<string>, candidates: set<string>, f: string -> real, g: string -> real, n: int)
    requires IsTop(r, candidates, f, n) && forall c :: c in candidates ==> f(c) == g(c)
    ensures IsTop(r, candidates, g, n)
  {
    forall i, j | 0 <= i < j < |r| ensures g(r[i]) >= g(r[j]) {
      assert r[i] in r && r[j] in r;
    }
  }

  /** The endpoint: the matrix of the whole history, then the best three. */
  method RecommendEvents(user: string, h: History, sqrt: nat -> real) returns (r: seq<string>)
    ensures var candidates := AllEvents(h) - AsSet(UserEvents(h, user));
            |r| == if |candidates| <= 3 then |candidates| else 3
    ensures UserEvents(h, user) == [] ==> IsTop(r, AllEvents(h), Popularity(h), 3)
    ensures UserEvents(h, user) != [] ==>
              var bought := AsSet(UserEvents(h, user));
              IsTop(r, AllEvents(h) - bought, TotalAffinity(h, sqrt, bought), 3)
  {
    var m := BuildItemSimilarityMatrix(h, sqrt);
    r := GetItemRecommendations(user, h, m, 3);
    if UserEvents(h, user) != [] {
      RecommendationsAreOptimal(user, h, m, sqrt, r, 3);
    }
  }

  /** The sum of the cosine similarities of an event to those bought. */
  ghost function TotalAffinity(h: History, sqrt: nat -> real, bought: set<string>): string -> real {
    (c: string) => SumOver(bought, AffinityTo(h, sqrt, c))
  }

  ghost function AffinityTo(h: History, sqrt: nat -> real, c: string): string -> real {
    (p: string) => Affinity(h, sqrt, p, c)
  }

  /** With the matrix built from the same history, every unpurchased event is a
      candidate and is ranked by its summed cosine similarity to the purchases. */
  lemma RecommendationsAreOptimal(user: string, h: History, m: Matrix, sqrt: nat -> real, r: seq<string>, n: int)
    requires IsSimilarityMatrix(m, h, sqrt) && UserEvents(h, user) != []
    requires var bought := AsSet(UserEvents(h, user)); IsTop(r, Candidates(m, bought), Score(m, bought), n)
    ensures var bought := AsSet(UserEvents(h, user));
            && Candidates(m, bought) == AllEvents(h) - bought
            && IsTop(r, AllEvents(h) - bought, TotalAffinity(h, sqrt, bought), n)
  {
    var bought := AsSet(UserEvents(h, user));
    EverythingElseIsACandidate(user, h, m, sqrt);
    forall c | c in AllEvents(h) - bought ensures Score(m, bought)(c) == TotalAffinity(h, sqrt, bought)(c) {
      forall p | p in bought ensures SimilarityTo(m, c)(p) == AffinityTo(h, sqrt, c)(p) {
        BoughtIsAnEvent(h, user, p);
        assert Entry(m, p, c) == Some(Affinity(h, sqrt, p, c));
      }
      SumSameTerms(bought, SimilarityTo(m, c), AffinityTo(h, sqrt, c));
    }
    SameRanking(r, AllEvents(h) - bought, Score(m, bought), TotalAffinity(h, sqrt, bought), n);
  }

  lemma BoughtIsAnEvent(h: History, user: string, p: string)
    requires p in UserEvents(h, user)
    ensures p in AllEvents(h) && user in Buyers(h, p)
  {
  }

  lemma EverythingElseIsACandidate(user: string, h: History, m: Matrix, sqrt: nat -> real)
    requires IsSimilarityMatrix(m, h, sqrt) && UserEvents(h, user) != []
    ensures Candidates(m, AsSet(UserEvents(h, user))) == AllEvents(h) - AsSet(UserEvents(h, user))
  {
    var bought := AsSet(UserEvents(h, user));
    var first := UserEvents(h, user)[0];
    BoughtIsAnEvent(h, user, first);
    forall c ensures c in Candidates(m, bought) <==> c in AllEvents(h) - bought {
      if c in Candidates(m, bought) {
        var p :| p in bought && Entry(m, p, c).Some?;
        assert Entry(m, p, c) == if c in AllEvents(h) && c != p then Some(Affinity(h, sqrt, p, c)) else None;
      }
      if c in AllEvents(h) - bought {
        assert Entry(m, first, c) == Some(Affinity(h, sqrt, first, c));
        assert first in bought && IsCandidate(m, bought, bought, c);
      }
    }
  }

  /** Some buyer of `c` also bought something the user bought. */
  ghost predicate Related(h: History, bought: set<string>, c: string) {
    exists p, u :: p in bought && u in Buyers(h, p) && u in Buyers(h, c)
  }

  /** The affinity is 0 exactly for unrelated events, and at most the number of
      distinct purchases. */
  lemma AffinityRange(h: History, sqrt: nat -> real, bought: set<string>, c: string)
    requires IsSqrt(sqrt) && bought <= AllEvents(h) && c in AllEvents(h)
    ensures 0.0 <= TotalAffinity(h, sqrt, bought)(c) <= |bought| as real
    ensures TotalAffinity(h, sqrt, bought)(c) > 0.0 <==> Related(h, bought, c)
  {
    BoughtBySomeone(h, c);
    forall p | p in bought
      ensures 0.0 <= AffinityTo(h, sqrt, c)(p) <= 1.0
      ensures AffinityTo(h, sqrt, c)(p) == 0.0 <==> Buyers(h, p) !! Buyers(h, c)
    {
      BoughtBySomeone(h, p);
      CosineRange(sqrt, Buyers(h, p), Buyers(h, c));
    }
    SumOfFractions(bought, AffinityTo(h, sqrt, c));
  }

  /** Events nobody shares with the user are only recommended once every event
      somebody does share has been. */
  lemma RelatedEventsComeFirst(user: string, h: History, sqrt: nat -> real, r: seq<string>, n: int, k: nat, c: string)
    requires IsSqrt(sqrt) && k < |r|
    requires var bought := AsSet(UserEvents(h, user)); IsTop(r, AllEvents(h) - bought, TotalAffinity(h, sqrt, bought), n)
    requires var bought := AsSet(UserEvents(h, user));
             c in AllEvents(h) - bought && Related(h, bought, c) && !Related(h, bought, r[k])
    ensures c in r[..k]
  {
    var bought := AsSet(UserEvents(h, user));
    forall p | p in bought ensures p in AllEvents(h) {
      BoughtIsAnEvent(h, user, p);
    }
    assert r[k] in r;
    var affinity := TotalAffinity(h, sqrt, bought);
    AffinityRange(h, sqrt, bought, c);
    AffinityRange(h, sqrt, bought, r[k]);
    BetterComesFirst(r, AllEvents(h) - bought, affinity, n, k, c);
  }

  lemma BetterComesFirst(r: seq<string>, candidates: set<string>, score: string -> real, n: int, k: nat, c: string)
    requires IsTop(r, candidates, score, n) && k < |r| && c in candidates && score(c) > score(r[k])
    ensures c in r[..k]
  {
    assert r[k] in r;
    assert c in r;
    var i :| 0 <= i < |r| && r[i] == c;
    assert forall j :: k < j < |r| ==> score(r[k]) >= score(r[j]);
    assert i < k;
    assert r[..k][i] == c;
  }
}
