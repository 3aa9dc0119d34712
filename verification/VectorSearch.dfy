/** Vector search: the similarity score, and the best matches for a query vector. */
module VectorSearch {
  import opened Json
  import opened Sequences
  import Sorting

  type Vectors = map<string, seq<real>>

  function Dot(a: seq<real>, b: seq<real>): real
    requires |a| == |b|
  {
    if a == [] then 0.0 else Dot(a[..|a| - 1], b[..|b| - 1]) + a[|a| - 1] * b[|b| - 1]
  }

  /** The inner product over the product of the squared norms; zero for other lengths and for zero vectors. */
  function Score(a: seq<real>, b: seq<real>): real {
    if |a| != |b| then 0.0 else Ratio(Dot(a, b), Dot(a, a), Dot(b, b))
  }

  function Ratio(product: real, normA: real, normB: real): real {
    if normA == 0.0 || normB == 0.0 then 0.0 else product / (normA * normB)
  }

  lemma RatioDivides(product: real, normA: real, normB: real)
    requires normA != 0.0 && normB != 0.0
    ensures normA * normB != 0.0 && Ratio(product, normA, normB) == product / (normA * normB)
  {
  }

  method CosineSimilarity(a: seq<real>, b: seq<real>) returns (score: real)
    ensures score == Score(a, b)
  {
    if |a| != |b| {
      return 0.0;
    }
    var dotProduct, normA, normB := 0.0, 0.0, 0.0;
    for i := 0 to |a|
      invariant dotProduct == Dot(a[..i], b[..i])
      invariant normA == Dot(a[..i], a[..i])
      invariant normB == Dot(b[..i], b[..i])
    {
      assert a[..i + 1][..i] == a[..i] && b[..i + 1][..i] == b[..i];
      dotProduct := dotProduct + a[i] * b[i];
      normA := normA + a[i] * a[i];
      normB := normB + b[i] * b[i];
    }
    assert a[..|a|] == a && b[..|b|] == b;
    assert dotProduct == Dot(a, b) && normA == Dot(a, a) && normB == Dot(b, b);
    if normA == 0.0 || normB == 0.0 {
      return 0.0;
    }
    RatioDivides(dotProduct, normA, normB);
    score := dotProduct / (normA * normB);
  }

  // ---------------------------------------------------------------- the score

  lemma SquareIsNotNegative(x: real)
    ensures x * x >= 0.0
  {
  }

  lemma {:induction false} NormIsNotNegative(a: seq<real>)
    ensures Dot(a, a) >= 0.0
  {
    if a != [] {
      NormIsNotNegative(a[..|a| - 1]);
      SquareIsNotNegative(a[|a| - 1]);
    }
  }

  lemma {:induction false} DotCommutes(a: seq<real>, b: seq<real>)
    requires |a| == |b|
    ensures Dot(a, b) == Dot(b, a)
  {
    if a != [] {
      DotCommutes(a[..|a| - 1], b[..|b| - 1]);
    }
  }

  lemma ProductOfSquares(u: real, v: real)
    ensures (u * v) * (u * v) == (u * u) * (v * v)
  {
  }

  lemma TimesNotNegative(u: real, v: real, w: real)
    requires u <= v && w >= 0.0
    ensures u * w <= v * w
  {
  }

  lemma RootOrder(u: real, v: real)
    requires u * u <= v * v && v >= 0.0
    ensures u <= v
  {
    assert (v - u) * (u + v) == v * v - u * u;
    if u + v > 0.0 {
      SignOfProduct(v - u, u + v);
    }
  }

  lemma ArithmeticGeometric(m: real, n: real)
    ensures 4.0 * (m * n) <= (m + n) * (m + n)
  {
    SquareIsNotNegative(m - n);
    assert (m + n) * (m + n) - 4.0 * (m * n) == (m - n) * (m - n);
  }

  /** The step of the induction: one more coordinate x, y. */
  lemma CauchySchwarzStep(p: real, na: real, nb: real, x: real, y: real)
    requires na >= 0.0 && nb >= 0.0 && p * p <= na * nb
    ensures (p + x * y) * (p + x * y) <= (na + x * x) * (nb + y * y)
  {
    var m, n, z := na * (y * y), nb * (x * x), x * y;
    SquareIsNotNegative(x);
    SquareIsNotNegative(y);
    SquareIsNotNegative(z);
    TimesNotNegative(0.0, na, y * y);
    TimesNotNegative(0.0, nb, x * x);
    ProductOfSquares(x, y);
    assert m * n == (na * nb) * (z * z) by {
      Regroup(na, nb, x, y);
    }
    TimesNotNegative(p * p, na * nb, z * z);
    ProductOfSquares(p, z);
    ArithmeticGeometric(m, n);
    assert (2.0 * (p * z)) * (2.0 * (p * z)) <= (m + n) * (m + n) by {
      assert (2.0 * (p * z)) * (2.0 * (p * z)) == 4.0 * ((p * z) * (p * z));
    }
    RootOrder(2.0 * (p * z), m + n);
    Expand(p, na, nb, x, y);
  }

  lemma Regroup(na: real, nb: real, x: real, y: real)
    ensures (na * (y * y)) * (nb * (x * x)) == (na * nb) * ((x * y) * (x * y))
  {
    ProductOfSquares(x, y);
    var s, t := x * x, y * y;
    assert (na * t) * (nb * s) == (na * nb) * (s * t);
  }

  lemma Expand(p: real, na: real, nb: real, x: real, y: real)
    ensures (na + x * x) * (nb + y * y) - (p + x * y) * (p + x * y)
         == (na * nb - p * p) + (na * (y * y) + nb * (x * x) - 2.0 * (p * (x * y)))
  {
    ProductOfSquares(x, y);
    var s, t, z := x * x, y * y, x * y;
    assert (na + s) * (nb + t) == na * nb + na * t + s * nb + s * t;
    assert (p + z) * (p + z) == p * p + 2.0 * (p * z) + z * z;
  }

  lemma {:induction false} CauchySchwarz(a: seq<real>, b: seq<real>)
    requires |a| == |b|
    ensures Dot(a, b) * Dot(a, b) <= Dot(a, a) * Dot(b, b)
  {
    if a != [] {
      var a', b' := a[..|a| - 1], b[..|b| - 1];
      CauchySchwarz(a', b');
      NormIsNotNegative(a');
      NormIsNotNegative(b');
      CauchySchwarzStep(Dot(a', b'), Dot(a', a'), Dot(b', b'), a[|a| - 1], b[|b| - 1]);
    }
  }

  lemma RatioIsBounded(p: real, na: real, nb: real)
    requires na > 0.0 && nb > 0.0 && p * p <= na * nb
    ensures Ratio(p, na, nb) * Ratio(p, na, nb) * (na * nb) <= 1.0
  {
    var q := na * nb;
    assert q > 0.0;
    DivideThenTimes(p, q);
    var s := Ratio(p, na, nb);
    assert s * s * q == s * p;
    assert (1.0 - s * p) * q == q - p * p by { assert (s * p) * q == (s * q) * p; }
    SignOfProduct(1.0 - s * p, q);
  }

  /** Cauchy-Schwarz for the score. It divides by squared norms, so this, and not |score| <= 1, is the bound. */
  lemma ScoreIsBounded(a: seq<real>, b: seq<real>)
    ensures |a| == |b| ==> Score(a, b) * Score(a, b) * (Dot(a, a) * Dot(b, b)) <= 1.0
    ensures Score(a, b) == Score(b, a)
  {
    if |a| == |b| {
      DotCommutes(a, b);
      if Dot(a, a) != 0.0 && Dot(b, b) != 0.0 {
        CauchySchwarz(a, b);
        NormIsNotNegative(a);
        NormIsNotNegative(b);
        assert Score(a, b) == Ratio(Dot(a, b), Dot(a, a), Dot(b, b));
        RatioIsBounded(Dot(a, b), Dot(a, a), Dot(b, b));
      }
    }
  }

  predicate AllZero(a: seq<real>) {
    forall i | 0 <= i < |a| :: a[i] == 0.0
  }

  /** The inner product is nothing on zeros and counts a change of one coordinate times the other vector's. */
  lemma {:induction false} DotByCoordinates(a: seq<real>, b: seq<real>, i: nat, x: real)
    requires |a| == |b| && i < |a|
    ensures AllZero(b) ==> Dot(a, b) == 0.0
    ensures Dot(a, b[i := x]) == Dot(a, b) + a[i] * (x - b[i])
  {
    var n := |a| - 1;
    if i < n {
      assert b[i := x][..n] == b[..n][i := x];
      DotByCoordinates(a[..n], b[..n], i, x);
    } else {
      assert b[i := x][..n] == b[..n];
      if n > 0 {
        DotByCoordinates(a[..n], b[..n], 0, x);
      }
    }
  }

  lemma SquareIsZeroIff(x: real)
    ensures x * x >= 0.0 && (x * x == 0.0 <==> x == 0.0)
  {
    SquareIsNotNegative(x);
    if x > 0.0 {
      SignOfProduct(-x, x);
      assert (-x) * x == -(x * x);
    } else if x < 0.0 {
      SignOfProduct(x, -x);
      assert x * (-x) == -(x * x);
    }
  }

  lemma SumIsZeroIff(p: real, q: real)
    requires p >= 0.0 && q >= 0.0
    ensures p + q == 0.0 <==> p == 0.0 && q == 0.0
  {
  }

  /** Only the zero vector has norm zero. */
  lemma {:induction false} NormIsZeroIff(a: seq<real>)
    ensures Dot(a, a) == 0.0 <==> AllZero(a)
  {
    if a != [] {
      var front, x := a[..|a| - 1], a[|a| - 1];
      NormIsZeroIff(front);
      NormIsNotNegative(front);
      SquareIsZeroIff(x);
      SumIsZeroIff(Dot(front, front), x * x);
      assert AllZero(a) <==> AllZero(front) && x == 0.0;
    } else {
      assert AllZero(a);
    }
  }

  /** The score is zero for vectors of other lengths and for zero vectors; else it is the product over both squared norms. */
  lemma ScoreMeaning(a: seq<real>, b: seq<real>)
    ensures |a| != |b| || AllZero(a) || AllZero(b) ==> Score(a, b) == 0.0
    ensures |a| == |b| && !AllZero(a) && !AllZero(b) ==>
      Dot(a, a) * Dot(b, b) > 0.0 && Score(a, b) * (Dot(a, a) * Dot(b, b)) == Dot(a, b)
  {
    NormIsZeroIff(a);
    NormIsZeroIff(b);
    NormIsNotNegative(a);
    NormIsNotNegative(b);
    if |a| == |b| && !AllZero(a) && !AllZero(b) {
      RatioDivides(Dot(a, b), Dot(a, a), Dot(b, b));
      DivideThenTimes(Dot(a, b), Dot(a, a) * Dot(b, b));
    }
  }

  /** The score of a short vector with itself is above one. */
  lemma ScoreCanExceedOne()
    ensures Score([0.5], [0.5]) == 4.0
  {
    assert [0.5][..0] == [];
    assert Dot([], []) == 0.0;
    assert Dot([0.5], [0.5]) == 0.25;
  }

  /** A stored copy of the query scores at least as high as another vector exactly when that vector is long enough. */
  lemma CopyRanksFirstIff(query: seq<real>, other: seq<real>)
    requires |query| == |other| && Dot(query, query) != 0.0 && Dot(other, other) != 0.0
    ensures Score(query, query) >= Score(query, other) <==> Dot(query, other) <= Dot(other, other)
  {
    NormIsNotNegative(query);
    NormIsNotNegative(other);
    var q, p, v := Dot(query, query), Dot(query, other), Dot(other, other);
    assert Score(query, query) == Ratio(q, q, q) && Score(query, other) == Ratio(p, q, v);
    CompareQuotients(q, p, v);
  }

  lemma DivideThenTimes(p: real, d: real)
    requires d != 0.0
    ensures (p / d) * d == p
  {
  }

  lemma SignOfProduct(d: real, w: real)
    requires w > 0.0
    ensures d * w >= 0.0 <==> d >= 0.0
  {
  }

  lemma CompareQuotients(q: real, p: real, v: real)
    requires q > 0.0 && v > 0.0
    ensures Ratio(q, q, q) >= Ratio(p, q, v) <==> p <= v
  {
    var x, y := q / (q * q), p / (q * v);
    assert q * v > 0.0 && q * q > 0.0;
    DivideThenTimes(q, q * q);
    DivideThenTimes(p, q * v);
    var d := x - y;
    assert (x * q) * q == q && x * q == 1.0;
    assert d * (q * v) == (x * q) * v - y * (q * v) == v - p;
    SignOfProduct(d, q * v);
  }

  // ---------------------------------------------------------------- the best matches

  function ResultSize(limit: int, n: nat): nat {
    if limit < 0 then 0 else if limit < n then limit else n
  }

  /** The best matches: distinct stored ids, best first, and nothing left out that scores more. */
  ghost predicate BestMatches(vectors: Vectors, query: seq<real>, limit: int, ids: seq<string>) {
    && |ids| == ResultSize(limit, |vectors|)
    && NoRepeats(ids)
    && (forall i | 0 <= i < |ids| :: ids[i] in vectors)
    && (forall i, j | 0 <= i < j < |ids| :: Score(query, vectors[ids[i]]) >= Score(query, vectors[ids[j]]))
    && (forall i, id | 0 <= i < |ids| && id in vectors && id !in ids :: Score(query, vectors[id]) <= Score(query, vectors[ids[i]]))
  }

  datatype ScoredDoc = ScoredDoc(id: string, score: real)

  function Descending(d: ScoredDoc): real {
    -d.score
  }

  const DEFAULT_LIMIT := 10

  method Search(vectors: Vectors, query: seq<real>, requested: Option<int>) returns (ids: seq<string>)
    ensures BestMatches(vectors, query, if requested.Some? then requested.value else DEFAULT_LIMIT, ids)
    ensures requested.None? ==> |ids| == if |vectors| < 10 then |vectors| else 10
    ensures requested.Some? ==> |ids| == if requested.value < 0 then 0
      else if |vectors| < requested.value then |vectors| else requested.value
  {
    var results := ScoreAll(vectors, query);
    hide Scored, BestMatches, Score;
    var sorted := Sorting.SortBy(results, Descending);
    SortedScores(vectors, query, results, sorted);
    var limit := if requested.Some? then requested.value else DEFAULT_LIMIT;
    ids := [];
    var i := 0;
    while i < |sorted| && i < limit
      invariant i <= |sorted| && (i <= limit || i == 0)
      invariant |ids| == i && forall j | 0 <= j < i :: ids[j] == sorted[j].id
    {
      ids := ids + [sorted[i].id];
      i := i + 1;
    }
    TakeBest(vectors, query, limit, sorted, ids);
  }

  ghost predicate Scored(vectors: Vectors, query: seq<real>, docs: seq<ScoredDoc>) {
    && |docs| == |vectors|
    && (forall i, j | 0 <= i < j < |docs| :: docs[i].id != docs[j].id)
    && (forall i | 0 <= i < |docs| :: docs[i].id in vectors && docs[i].score == Score(query, vectors[docs[i].id]))
    && (forall id | id in vectors :: Listed(docs, id))
  }

  ghost predicate Listed(docs: seq<ScoredDoc>, id: string) {
    exists i | 0 <= i < |docs| :: docs[i].id == id
  }

  method ScoreAll(vectors: Vectors, query: seq<real>) returns (results: seq<ScoredDoc>)
    ensures Scored(vectors, query, results)
  {
    results := [];
    var rest := vectors.Keys;
    while rest != {}
      invariant rest <= vectors.Keys && |results| + |rest| == |vectors|
      invariant forall i, j | 0 <= i < j < |results| :: results[i].id != results[j].id
      invariant forall i | 0 <= i < |results| :: results[i].id in vectors && results[i].id !in rest
      invariant forall i | 0 <= i < |results| :: results[i].score == Score(query, vectors[results[i].id])
      invariant forall id | id in vectors && id !in rest :: Listed(results, id)
    {
      var id :| id in rest;
      var score := CosineSimilarity(query, vectors[id]);
      ghost var before := results;
      results := results + [ScoredDoc(id, score)];
      rest := rest - {id};
      forall other | other in vectors && other !in rest ensures Listed(results, other) {
        if other == id {
          assert results[|before|].id == other;
        } else {
          assert Listed(before, other);
          var i :| 0 <= i < |before| && before[i].id == other;
          assert results[i].id == other;
        }
      }
    }
  }

  lemma SameElements<T>(a: seq<T>, b: seq<T>, x: T)
    requires multiset(a) == multiset(b)
    ensures x in a <==> x in b
  {
    assert x in multiset(a) <==> x in multiset(b);
  }

  lemma {:induction false} RepeatCountsTwice<T>(s: seq<T>, i: nat, j: nat)
    requires i < j < |s| && s[i] == s[j]
    ensures multiset(s)[s[i]] >= 2
  {
    assert s == s[..j] + [s[j]] + s[j + 1..];
    assert s[..j][i] == s[i];
  }

  lemma {:induction false} CountsOnce(docs: seq<ScoredDoc>, x: ScoredDoc)
    requires forall i, j | 0 <= i < j < |docs| :: docs[i].id != docs[j].id
    ensures multiset(docs)[x] <= 1
  {
    if docs != [] {
      var front := Front(docs);
      CountsOnce(front, x);
      FrontLast(docs);
      assert multiset(docs) == multiset(front) + multiset{Last(docs)} by {
        assert multiset(front + [Last(docs)]) == multiset(front) + multiset([Last(docs)]);
      }
      assert x == Last(docs) ==> x !in front;
    }
  }

  lemma SortedScores(vectors: Vectors, query: seq<real>, docs: seq<ScoredDoc>, sorted: seq<ScoredDoc>)
    requires Scored(vectors, query, docs) && multiset(docs) == multiset(sorted) && |docs| == |sorted|
    ensures Scored(vectors, query, sorted)
  {
    forall i | 0 <= i < |sorted|
      ensures sorted[i].id in vectors && sorted[i].score == Score(query, vectors[sorted[i].id])
    {
      SameElements(docs, sorted, sorted[i]);
    }
    forall i, j | 0 <= i < j < |sorted| ensures sorted[i].id != sorted[j].id {
      if sorted[i].id == sorted[j].id {
        assert sorted[i] == sorted[j];
        RepeatCountsTwice(sorted, i, j);
        CountsOnce(docs, sorted[i]);
      }
    }
    forall id | id in vectors ensures Listed(sorted, id) {
      assert Listed(docs, id);
      var i :| 0 <= i < |docs| && docs[i].id == id;
      SameElements(docs, sorted, docs[i]);
    }
  }

  lemma TakeBest(vectors: Vectors, query: seq<real>, limit: int, sorted: seq<ScoredDoc>, ids: seq<string>)
    requires Scored(vectors, query, sorted) && Sorting.Ascending(sorted, Descending)
    requires |ids| == ResultSize(limit, |sorted|) && forall i | 0 <= i < |ids| :: ids[i] == sorted[i].id
    ensures BestMatches(vectors, query, limit, ids)
  {
    forall i, j | 0 <= i < j < |sorted| ensures sorted[i].score >= sorted[j].score {
      assert Descending(sorted[i]) <= Descending(sorted[j]);
    }
    forall i, id | 0 <= i < |ids| && id in vectors && id !in ids
      ensures Score(query, vectors[id]) <= Score(query, vectors[ids[i]])
    {
      assert forall k | 0 <= k < |ids| :: sorted[k].id == ids[k] && ids[k] in ids;
      assert Listed(sorted, id);
      var k :| 0 <= k < |sorted| && sorted[k].id == id;
    }
  }

  // ---------------------------------------------------------------- the answer is determined up to ties

  function ToSet(ids: seq<string>): set<string> {
    set id | id in ids
  }

  lemma {:induction false} DistinctSize(ids: seq<string>)
    requires NoRepeats(ids)
    ensures |ToSet(ids)| == |ids|
  {
    if ids != [] {
      DistinctSize(Front(ids));
      FrontLast(ids);
      assert ToSet(ids) == ToSet(Front(ids)) + {Last(ids)};
    }
  }

  /** Any two answers to the same query have the same scores place by place, whatever the sort and the map order did. */
  lemma ScoresAreDetermined(vectors: Vectors, query: seq<real>, limit: int, a: seq<string>, b: seq<string>, i: nat)
    requires BestMatches(vectors, query, limit, a) && BestMatches(vectors, query, limit, b) && i < |a|
    ensures Score(query, vectors[a[i]]) == Score(query, vectors[b[i]])
  {
    NotBetter(vectors, query, limit, a, b, i);
    NotBetter(vectors, query, limit, b, a, i);
  }

  lemma NotBetter(vectors: Vectors, query: seq<real>, limit: int, a: seq<string>, b: seq<string>, i: nat)
    requires BestMatches(vectors, query, limit, a) && BestMatches(vectors, query, limit, b) && i < |a|
    ensures Score(query, vectors[a[i]]) <= Score(query, vectors[b[i]])
  {
    if Score(query, vectors[a[i]]) > Score(query, vectors[b[i]]) {
      forall j | 0 <= j <= i ensures a[j] in b[..i] {
        RanksBefore(vectors, query, limit, a, b, i, j);
      }
      hide BestMatches, Score;
      NoMoreThan(a[..i + 1], b[..i]);
    }
  }

  lemma NoMoreThan(x: seq<string>, y: seq<string>)
    requires NoRepeats(x) && NoRepeats(y) && forall i | 0 <= i < |x| :: x[i] in y
    ensures |x| <= |y|
  {
    DistinctSize(x);
    DistinctSize(y);
    Subset(ToSet(x), ToSet(y));
  }

  lemma RanksBefore(vectors: Vectors, query: seq<real>, limit: int, a: seq<string>, b: seq<string>, i: nat, j: nat)
    requires BestMatches(vectors, query, limit, a) && BestMatches(vectors, query, limit, b) && j <= i < |a|
    requires Score(query, vectors[a[i]]) > Score(query, vectors[b[i]])
    ensures a[j] in b[..i]
  {
    hide Score;
    assert Score(query, vectors[a[j]]) >= Score(query, vectors[a[i]]);
    assert a[j] in b;
    var k :| 0 <= k < |b| && b[k] == a[j];
    assert k < i;
    assert b[..i][k] == a[j];
  }

  lemma {:induction false} Subset(x: set<string>, y: set<string>)
    requires x <= y
    ensures |x| <= |y|
  {
    if x != {} {
      var e :| e in x;
      Subset(x - {e}, y - {e});
    }
  }
}
