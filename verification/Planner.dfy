/** The query planner: which filters an index takes, what it is expected to cost, and the cheapest choice. */
module Planner {
  import opened Json
  import opened Sequences
  import opened Filters
  import opened SecondaryIndex
  import Tokens
  import Sorting

  datatype IndexStats = IndexStats(cardinality: int, selectivity: real, avgBucketSize: real)

  datatype CollectionStats = CollectionStats(totalDocuments: int, indexStats: map<string, IndexStats>)

  datatype ScanType = FullScan | IndexScan | IndexOnlyScan

  datatype Plan = Plan(
    scan: ScanType,
    index: Option<Index>,
    indexFilters: seq<Filter>,
    postFilters: seq<Filter>,
    limit: int,
    estimatedRows: int,
    estimatedCost: real)

  // ---------------------------------------------------------------- which filters an index takes

  predicate CanUseIndex(idx: Index, f: Filter) {
    match idx.kind
    case BTree => f.key in idx.fields
    case GIN => true
    case _ => false
  }

  /** The filters the index takes (or does not take), in the query's order. */
  function Taken(idx: Index, filters: seq<Filter>, taken: bool): seq<Filter> {
    if filters == [] then []
    else
      var n := |filters| - 1;
      if CanUseIndex(idx, filters[n]) == taken then Taken(idx, filters[..n], taken) + [filters[n]]
      else Taken(idx, filters[..n], taken)
  }

  method AnalyzeIndexSuitability(idx: Index, filters: seq<Filter>) returns (indexFilters: seq<Filter>, postFilters: seq<Filter>)
    ensures indexFilters == Taken(idx, filters, true) && postFilters == Taken(idx, filters, false)
  {
    indexFilters, postFilters := [], [];
    for i := 0 to |filters|
      invariant indexFilters == Taken(idx, filters[..i], true) && postFilters == Taken(idx, filters[..i], false)
    {
      assert filters[..i + 1][..i] == filters[..i];
      var usable := CanUse(idx, filters[i]);
      if usable {
        indexFilters := indexFilters + [filters[i]];
      } else {
        postFilters := postFilters + [filters[i]];
      }
    }
    assert filters[..|filters|] == filters;
  }

  /** The search through the index's field list. */
  method CanUseBTreeIndex(idx: Index, f: Filter) returns (ok: bool)
    ensures ok <==> f.key in idx.fields
  {
    for i := 0 to |idx.fields|
      invariant f.key !in idx.fields[..i]
    {
      if f.key == idx.fields[i] {
        return true;
      }
    }
    ok := false;
  }

  method CanUse(idx: Index, f: Filter) returns (ok: bool)
    ensures ok <==> CanUseIndex(idx, f)
  {
    match idx.kind
    case BTree => ok := CanUseBTreeIndex(idx, f);
    case GIN => ok := true;
    case _ => ok := false;
  }

  ghost predicate Subsequence<T>(a: seq<T>, b: seq<T>) {
    a == [] || (b != [] && (Subsequence(a, Front(b)) || (Last(a) == Last(b) && Subsequence(Front(a), Front(b)))))
  }

  lemma {:induction false} TakenMembers(idx: Index, filters: seq<Filter>, taken: bool, f: Filter)
    ensures f in Taken(idx, filters, taken) <==> f in filters && CanUseIndex(idx, f) == taken
  {
    if filters != [] {
      TakenMembers(idx, Front(filters), taken, f);
      FrontLast(filters);
    }
  }

  lemma {:induction false} TakenInOrder(idx: Index, filters: seq<Filter>, taken: bool)
    ensures Subsequence(Taken(idx, filters, taken), filters)
  {
    if filters != [] {
      TakenInOrder(idx, Front(filters), taken);
      SnocFront(Taken(idx, Front(filters), taken), Last(filters));
    }
  }

  lemma SnocCounts<T>(s: seq<T>, x: T)
    ensures multiset(s + [x]) == multiset(s) + multiset{x}
  {
  }

  lemma {:induction false} TakenCounts(idx: Index, filters: seq<Filter>)
    ensures multiset(Taken(idx, filters, true)) + multiset(Taken(idx, filters, false)) == multiset(filters)
  {
    if filters != [] {
      var f := Last(filters);
      TakenCounts(idx, Front(filters));
      FrontLast(filters);
      SnocCounts(Front(filters), f);
      SnocCounts(Taken(idx, Front(filters), CanUseIndex(idx, f)), f);
    }
  }

  /** The split keeps every filter once and in order, and asks of a document what the query asked. */
  lemma SplitIsAPartition(lib: Tokens.Library, idx: Index, filters: seq<Filter>, doc: Fields)
    ensures multiset(Taken(idx, filters, true)) + multiset(Taken(idx, filters, false)) == multiset(filters)
    ensures Subsequence(Taken(idx, filters, true), filters) && Subsequence(Taken(idx, filters, false), filters)
    ensures forall f :: f in Taken(idx, filters, true) <==> f in filters && CanUseIndex(idx, f)
    ensures MatchesAll(lib, doc, filters)
       <==> MatchesAll(lib, doc, Taken(idx, filters, true)) && MatchesAll(lib, doc, Taken(idx, filters, false))
  {
    TakenCounts(idx, filters);
    TakenInOrder(idx, filters, true);
    TakenInOrder(idx, filters, false);
    forall f: Filter ensures forall taken :: f in Taken(idx, filters, taken) <==> f in filters && CanUseIndex(idx, f) == taken {
      TakenMembers(idx, filters, true, f);
      TakenMembers(idx, filters, false, f);
    }
    hide Taken, Subsequence, CanUseIndex, MatchesFilter;
    var yes, no := Taken(idx, filters, true), Taken(idx, filters, false);
    forall f | f in filters ensures f in yes || f in no {
      assert f in Taken(idx, filters, CanUseIndex(idx, f));
    }
  }

  // ---------------------------------------------------------------- estimates

  /** The conversion of a float to an int drops the fraction. */
  function Truncate(x: real): int {
    if x >= 0.0 then x.Floor else -(-x).Floor
  }

  function Larger(a: real, b: real): real {
    if a < b then b else a
  }

  /** The share of the documents one filter is expected to keep; the filter itself is not looked at. */
  function Selectivity(stats: Option<IndexStats>, kind: IndexKind): real {
    match stats
    case None => 0.1
    case Some(s) =>
      if kind == BTree && s.cardinality > 0 then 1.0 / s.cardinality as real
      else if kind == GIN then 0.01
      else s.selectivity
  }

  function Power(x: real, n: nat): real {
    if n == 0 then 1.0 else Power(x, n - 1) * x
  }

  function EstimatedRows(total: int, stats: Option<IndexStats>, kind: IndexKind, n: nat): int {
    if n == 0 then total
    else if stats.None? then Truncate(total as real * 0.1)
    else AtLeastOne(Portion(total, Power(Selectivity(stats, kind), n)))
  }

  function Portion(total: int, share: real): real {
    total as real * share
  }

  function AtLeastOne(rows: real): int {
    Truncate(Larger(1.0, rows))
  }

  function EstimatedCost(stats: Option<IndexStats>, rows: int): real {
    1.0 + rows as real * (if stats.Some? then stats.value.avgBucketSize else 10.0)
  }

  lemma {:induction false} PowerShrinks(x: real, n: nat)
    requires 0.0 <= x <= 1.0
    ensures 0.0 <= Power(x, n + 1) <= Power(x, n) <= 1.0
  {
    if n > 0 {
      PowerShrinks(x, n - 1);
    }
    Scale(0.0, Power(x, n), x);
    Scale(x, 1.0, Power(x, n));
  }

  lemma Scale(a: real, b: real, w: real)
    requires a <= b && w >= 0.0
    ensures a * w <= b * w && w * a <= w * b
  {
  }

  /** With statistics, the estimate stays between one and the collection's size, and more filters never raise it. */
  lemma EstimateIsMonotone(total: int, stats: IndexStats, kind: IndexKind, n: nat)
    requires total >= 0 && 0.0 <= stats.selectivity <= 1.0 && n > 0
    ensures 1 <= EstimatedRows(total, Some(stats), kind, n) <= if total > 1 then total else 1
    ensures EstimatedRows(total, Some(stats), kind, n + 1) <= EstimatedRows(total, Some(stats), kind, n)
  {
    var x := Selectivity(Some(stats), kind);
    SelectivityIsAShare(stats, kind);
    PowerShrinks(x, n);
    var p, q := Power(x, n), Power(x, n + 1);
    Portions(total, p, q);
    hide Power, Selectivity, AtLeastOne, Portion;
    AtLeastOneIsMonotone(Portion(total, q), Portion(total, p));
    AtLeastOneIsMonotone(Portion(total, p), total as real);
    AtLeastOneOfWhole(total);
  }

  lemma Portions(total: int, p: real, q: real)
    requires total >= 0 && 0.0 <= q <= p <= 1.0
    ensures 0.0 <= Portion(total, q) <= Portion(total, p) <= total as real
  {
    Scale(q, p, total as real);
    Scale(p, 1.0, total as real);
  }

  lemma AtLeastOneIsMonotone(a: real, b: real)
    requires a <= b
    ensures 1 <= AtLeastOne(a) <= AtLeastOne(b)
  {
  }

  lemma AtLeastOneOfWhole(n: int)
    ensures AtLeastOne(n as real) == if n > 1 then n else 1
  {
  }

  lemma SelectivityIsAShare(stats: IndexStats, kind: IndexKind)
    requires 0.0 <= stats.selectivity <= 1.0
    ensures 0.0 <= Selectivity(Some(stats), kind) <= 1.0
  {
    if stats.cardinality > 0 {
      var c := stats.cardinality as real;
      assert c >= 1.0 && (1.0 / c) * c == 1.0;
    }
  }

  /** What share of the documents a filter keeps: one over the cardinality of a B-tree, a hundredth for GIN. */
  predicate IsShareOf(kind: IndexKind, s: IndexStats, share: real) {
    if kind == GIN then share == 0.01
    else if kind == BTree && s.cardinality > 0 then share * s.cardinality as real == 1.0
    else share == s.selectivity
  }

  lemma ShareIsSelectivity(kind: IndexKind, s: IndexStats, share: real)
    requires IsShareOf(kind, s, share)
    ensures Selectivity(Some(s), kind) == share
  {
    if kind == BTree && s.cardinality > 0 {
      var c := s.cardinality as real;
      assert (1.0 / c) * c == 1.0;
      assert (share - 1.0 / c) * c == 0.0;
    }
  }

  /** That share of all, without its fraction, and one at least. */
  predicate IsWholePart(rows: int, total: int, share: real) {
    if total as real * share < 1.0 then rows == 1 else rows as real <= total as real * share < rows as real + 1.0
  }

  lemma WholePart(total: int, share: real)
    ensures IsWholePart(AtLeastOne(Portion(total, share)), total, share)
  {
  }

  lemma WholeTenth(total: int)
    requires total >= 0
    ensures 10 * Truncate(total as real * 0.1) <= total < 10 * Truncate(total as real * 0.1) + 10
  {
    var x := total as real * 0.1;
    assert x.Floor as real <= x < x.Floor as real + 1.0;
    assert (10 * x.Floor) as real <= total as real < (10 * x.Floor + 10) as real;
  }

  /**
   * What the estimates mean. With statistics the rows are all documents times one share for each filter, at least one
   * and without the fraction; without statistics they are a tenth of all, whatever the filters are. A look-up costs
   * one, and each row the average bucket size, or ten.
   */
  lemma EstimateMeaning(total: int, stats: Option<IndexStats>, kind: IndexKind, n: nat, share: real)
    requires n > 0 && total >= 0
    ensures stats.Some? && IsShareOf(kind, stats.value, share) ==>
      IsWholePart(EstimatedRows(total, stats, kind, n), total, Power(share, n))
    ensures stats.None? ==> 10 * EstimatedRows(total, stats, kind, n) <= total < 10 * EstimatedRows(total, stats, kind, n) + 10
    ensures EstimatedRows(total, stats, kind, 0) == total
    ensures forall rows :: EstimatedCost(stats, rows) - 1.0 == rows as real * if stats.Some? then stats.value.avgBucketSize else 10.0
  {
    hide Selectivity, IsShareOf, Truncate, Larger, IsWholePart, AtLeastOne;
    match stats
    case None => WholeTenth(total);
    case Some(s) =>
      if IsShareOf(kind, s, share) {
        ShareIsSelectivity(kind, s, share);
        WholePart(total, Power(share, n));
      }
  }

  // ---------------------------------------------------------------- the choice

  datatype Candidate = Candidate(index: Index, indexFilters: seq<Filter>, postFilters: seq<Filter>, cost: real, rows: int)

  function CostOf(c: Candidate): real {
    c.cost
  }

  const DEFAULT_TOTAL := 1000
  const DEFAULT_STATS := IndexStats(100, 0.1, 10.0)

  class QueryOptimizer {
    const indexes: seq<Index>
    var stats: CollectionStats

    /** Without statistics every index of the collection gets the same default ones. */
    constructor (indexes: seq<Index>, stats: Option<CollectionStats>)
      ensures this.indexes == indexes
      ensures stats.Some? ==> this.stats == stats.value
      ensures stats.None? ==> HasDefaults()
    {
      this.indexes := indexes;
      new;
      if stats.Some? {
        this.stats := stats.value;
      } else {
        var m: map<string, IndexStats> := map[];
        for i := 0 to |indexes|
          invariant forall j | 0 <= j < i :: indexes[j].name in m
          invariant forall name | name in m :: m[name] == DEFAULT_STATS
        {
          m := m[indexes[i].name := DEFAULT_STATS];
        }
        this.stats := CollectionStats(DEFAULT_TOTAL, m);
      }
    }

    ghost predicate HasDefaults()
      reads this
    {
      stats.totalDocuments == DEFAULT_TOTAL && forall idx | idx in indexes :: StatsOf(idx) == Some(DEFAULT_STATS)
    }

    function StatsOf(idx: Index): Option<IndexStats>
      reads this
    {
      if idx.name in stats.indexStats then Some(stats.indexStats[idx.name]) else None
    }

    function RowsFor(idx: Index, n: nat): int
      reads this
    {
      EstimatedRows(stats.totalDocuments, StatsOf(idx), idx.kind, n)
    }

    function CostFor(idx: Index, filters: seq<Filter>): real
      reads this
    {
      EstimatedCost(StatsOf(idx), RowsFor(idx, |Taken(idx, filters, true)|))
    }

    method EstimateIndexRows(idx: Index, filters: seq<Filter>) returns (rows: int)
      ensures rows == RowsFor(idx, |filters|)
      ensures rows == EstimatedRows(stats.totalDocuments,
        if idx.name in stats.indexStats then Some(stats.indexStats[idx.name]) else None, idx.kind, |filters|)
    {
      if |filters| == 0 {
        return stats.totalDocuments;
      }
      if StatsOf(idx).None? {
        return Truncate(stats.totalDocuments as real * 0.1);
      }
      var estimated := stats.totalDocuments as real;
      for i := 0 to |filters|
        invariant estimated == Portion(stats.totalDocuments, Power(Selectivity(StatsOf(idx), idx.kind), i))
      {
        MultiplyOnce(stats.totalDocuments, Selectivity(StatsOf(idx), idx.kind), i);
        estimated := estimated * Selectivity(StatsOf(idx), idx.kind);
      }
      rows := AtLeastOne(estimated);
    }

    ghost predicate Usable(idx: Index, filters: seq<Filter>) {
      Taken(idx, filters, true) != []
    }

    /** No usable index costs less than the chosen one. */
    ghost predicate Cheapest(best: Index, filters: seq<Filter>)
      reads this
    {
      && best in indexes && Usable(best, filters)
      && forall idx | idx in indexes && Usable(idx, filters) :: CostFor(best, filters) <= CostFor(idx, filters)
    }

    ghost predicate Evaluated(candidates: seq<Candidate>, seen: seq<Index>, filters: seq<Filter>)
      reads this
    {
      && (forall c | c in candidates ::
           && c.index in seen && Usable(c.index, filters)
           && c.indexFilters == Taken(c.index, filters, true) && c.postFilters == Taken(c.index, filters, false)
           && c.cost == CostFor(c.index, filters) && c.rows == RowsFor(c.index, |c.indexFilters|))
      && forall idx | idx in seen && Usable(idx, filters) :: HasCandidate(candidates, idx)
    }

    ghost predicate HasCandidate(candidates: seq<Candidate>, idx: Index) {
      exists c | c in candidates :: c.index == idx
    }

    method SelectBestIndex(filters: seq<Filter>)
      returns (best: Option<Index>, indexFilters: seq<Filter>, postFilters: seq<Filter>)
      ensures best.None? <==> forall idx | idx in indexes :: !Usable(idx, filters)
      ensures best.None? ==> postFilters == filters
      ensures best.Some? ==>
        && Cheapest(best.value, filters)
        && indexFilters == Taken(best.value, filters, true) && postFilters == Taken(best.value, filters, false)
    {
      if |filters| == 0 {
        return None, [], [];
      }
      var candidates := EvaluateIndexes(filters);
      if |candidates| == 0 {
        return None, [], filters;
      }
      var sorted := Sorting.SortBy(candidates, CostOf);
      FirstIsCheapest(candidates, sorted, filters);
      best, indexFilters, postFilters := Some(sorted[0].index), sorted[0].indexFilters, sorted[0].postFilters;
    }

    method EvaluateIndexes(filters: seq<Filter>) returns (candidates: seq<Candidate>)
      ensures Evaluated(candidates, indexes, filters)
    {
      candidates := [];
      for i := 0 to |indexes|
        invariant Evaluated(candidates, indexes[..i], filters)
      {
        var idx := indexes[i];
        var indexFilters, postFilters := AnalyzeIndexSuitability(idx, filters);
        ghost var before := candidates;
        if |indexFilters| > 0 {
          var rows := EstimateIndexRows(idx, indexFilters);
          candidates := candidates + [Candidate(idx, indexFilters, postFilters, EstimatedCost(StatsOf(idx), rows), rows)];
          assert candidates[|before|].index == idx;
        }
        forall other | other in indexes[..i + 1] && Usable(other, filters) ensures HasCandidate(candidates, other) {
          if other in indexes[..i] {
            assert HasCandidate(before, other);
            var c :| c in before && c.index == other;
            assert c in candidates;
          }
        }
      }
      assert indexes[..|indexes|] == indexes;
    }

    lemma FirstIsCheapest(candidates: seq<Candidate>, sorted: seq<Candidate>, filters: seq<Filter>)
      requires Evaluated(candidates, indexes, filters)
      requires candidates != [] && multiset(candidates) == multiset(sorted) && Sorting.Ascending(sorted, CostOf)
      ensures sorted != [] && sorted[0] in candidates && Cheapest(sorted[0].index, filters)
    {
      assert candidates[0] in multiset(sorted);
      assert sorted[0] in multiset(candidates);
      forall idx | idx in indexes && Usable(idx, filters) ensures CostFor(sorted[0].index, filters) <= CostFor(idx, filters) {
        assert HasCandidate(candidates, idx);
        var c :| c in candidates && c.index == idx;
        assert c in multiset(sorted);
        var k :| 0 <= k < |sorted| && sorted[k] == c;
        assert CostOf(sorted[0]) <= CostOf(sorted[k]);
      }
    }

    /** An index takes one of the filters: a B-tree that has its field, or a GIN index. */
    lemma UsableIff(idx: Index, filters: seq<Filter>)
      ensures Usable(idx, filters) <==>
        exists f :: f in filters && ((idx.kind == BTree && f.key in idx.fields) || idx.kind == GIN)
    {
      forall f ensures f in Taken(idx, filters, true) <==> f in filters && CanUseIndex(idx, f) {
        TakenMembers(idx, filters, true, f);
      }
      hide Taken;
      if Taken(idx, filters, true) != [] {
        assert Taken(idx, filters, true)[0] in Taken(idx, filters, true);
      }
    }

    /** The plan is the cheapest index's own split, or a full scan when no index takes any filter. */
    method Optimize(filters: seq<Filter>, limit: int) returns (plan: Plan)
      ensures plan.limit == limit
      ensures plan.index.None? <==> forall idx | idx in indexes :: !Usable(idx, filters)
      ensures plan.index.None? ==>
        && plan.scan == FullScan && plan.indexFilters == [] && plan.postFilters == filters
        && plan.estimatedRows == stats.totalDocuments && plan.estimatedCost == stats.totalDocuments as real
      ensures plan.index.Some? ==>
        var idx := plan.index.value;
        && Cheapest(idx, filters) && plan.estimatedCost == CostFor(idx, filters)
        && plan.estimatedRows == RowsFor(idx, |Taken(idx, filters, true)|)
        && plan.indexFilters == Taken(idx, filters, true) && plan.postFilters == Taken(idx, filters, false)
        && plan.scan == (if plan.postFilters == [] then IndexOnlyScan else IndexScan)
      ensures plan.scan != FullScan ==> plan.index.Some? && plan.indexFilters != []
      ensures plan.scan != FullScan <==>
        exists idx, f :: idx in indexes && f in filters && ((idx.kind == BTree && f.key in idx.fields) || idx.kind == GIN)
    {
      forall idx | idx in indexes
        ensures Usable(idx, filters) <==>
          exists f :: f in filters && ((idx.kind == BTree && f.key in idx.fields) || idx.kind == GIN)
      {
        UsableIff(idx, filters);
      }
      hide Taken;
      plan := Plan(FullScan, None, [], [], limit, stats.totalDocuments, stats.totalDocuments as real);
      if |filters| == 0 {
        return;
      }
      var best, indexFilters, postFilters := SelectBestIndex(filters);
      match best
      case Some(idx) =>
        var rows := EstimateIndexRows(idx, indexFilters);
        plan := Plan(if |postFilters| == 0 then IndexOnlyScan else IndexScan, best, indexFilters, postFilters, limit,
          rows, EstimatedCost(StatsOf(idx), rows));
      case None => plan := plan.(postFilters := filters);
    }
  }

  lemma MultiplyOnce(total: int, x: real, n: nat)
    ensures Portion(total, Power(x, n)) * x == Portion(total, Power(x, n + 1))
  {
  }

  /**
   * With the default statistics, which are the only ones queries are planned with, an index that takes one
   * filter costs 101 and an index that takes more costs 11, whatever its kind.
   */
  lemma DefaultCosts(kind: IndexKind, n: nat)
    requires n > 0 && (kind == BTree || kind == GIN)
    ensures EstimatedCost(Some(DEFAULT_STATS), EstimatedRows(DEFAULT_TOTAL, Some(DEFAULT_STATS), kind, n))
         == if n == 1 then 101.0 else 11.0
  {
    assert Selectivity(Some(DEFAULT_STATS), kind) == 0.01;
    PowerOfPercent(n);
    if n > 1 {
      assert Larger(1.0, Portion(1000, Power(0.01, n))) == 1.0;
    }
  }

  lemma {:induction false} PowerOfPercent(n: nat)
    requires n > 0
    ensures n == 1 ==> Power(0.01, n) == 0.01
    ensures n > 1 ==> 0.0 <= Power(0.01, n) <= 0.0001
  {
    if n > 1 {
      PowerOfPercent(n - 1);
    } else {
      assert Power(0.01, 0) == 1.0;
    }
  }

  lemma DefaultCostFor(opt: QueryOptimizer, idx: Index, filters: seq<Filter>)
    requires opt.HasDefaults() && idx in opt.indexes && opt.Usable(idx, filters)
    ensures opt.CostFor(idx, filters) == if |Taken(idx, filters, true)| == 1 then 101.0 else 11.0
  {
    var f := Taken(idx, filters, true)[0];
    TakenMembers(idx, filters, true, f);
    DefaultCosts(idx.kind, |Taken(idx, filters, true)|);
  }

  /**
   * So with default statistics an index is a cheapest one exactly when it takes two filters or more, or no
   * index does; a GIN index takes every filter and is never beaten.
   */
  lemma CheapestByDefaultIff(opt: QueryOptimizer, best: Index, filters: seq<Filter>)
    requires opt.HasDefaults() && best in opt.indexes && opt.Usable(best, filters)
    ensures opt.Cheapest(best, filters) <==>
      |Taken(best, filters, true)| > 1 || forall idx | idx in opt.indexes :: |Taken(idx, filters, true)| <= 1
    ensures best.kind == GIN ==> opt.Cheapest(best, filters)
  {
    forall idx | idx in opt.indexes && opt.Usable(idx, filters)
      ensures opt.CostFor(idx, filters) == if |Taken(idx, filters, true)| == 1 then 101.0 else 11.0
    {
      DefaultCostFor(opt, idx, filters);
    }
    if best.kind == GIN {
      forall idx | idx in opt.indexes ensures |Taken(idx, filters, true)| <= |Taken(best, filters, true)| {
        TakenSize(best, filters);
        TakenSize(idx, filters);
      }
    }
  }

  lemma {:induction false} TakenSize(idx: Index, filters: seq<Filter>)
    ensures |Taken(idx, filters, true)| <= |filters|
    ensures idx.kind == GIN ==> |Taken(idx, filters, true)| == |filters|
  {
    if filters != [] {
      TakenSize(idx, filters[..|filters| - 1]);
    }
  }
}
