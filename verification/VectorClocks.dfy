/**
 * Vector clocks: the map values, the lattice they form, and the operations of the Go package,
 * which run loops over maps held by reference.
 */
module VectorClocks {

  type PeerID = string

  /** The entries of a clock; a peer without an entry counts as 0. */
  type Counts = map<PeerID, nat>

  datatype Order = Equal | Before | After | Concurrent

  function Count(c: Counts, p: PeerID): nat {
    if p in c then c[p] else 0
  }

  /** The pointwise order; only the entries of `a` can break it. */
  predicate Leq(a: Counts, b: Counts) {
    forall p | p in a :: a[p] <= Count(b, p)
  }

  function Max(m: nat, n: nat): nat {
    if m < n then n else m
  }

  function Join(a: Counts, b: Counts): (j: Counts)
    ensures j.Keys == a.Keys + b.Keys
    ensures forall p: PeerID :: Count(j, p) == Max(Count(a, p), Count(b, p))
  {
    map p | p in a.Keys + b.Keys :: Max(Count(a, p), Count(b, p))
  }

  function Bump(c: Counts, p: PeerID): Counts {
    c[p := Count(c, p) + 1]
  }

  /** What `Compare` reports, said with the pointwise order alone. */
  function Relation(a: Counts, b: Counts): Order {
    if Leq(a, b) then
      if Leq(b, a) then Equal else Before
    else
      if Leq(b, a) then After else Concurrent
  }

  /** The comparison outcomes on which a document gives way to an incoming clock. */
  predicate Yields(a: Counts, b: Counts) {
    Relation(a, b) in {Before, Concurrent}
  }

  function JoinAll(cs: seq<Counts>): Counts {
    if cs == [] then map[] else Join(cs[0], JoinAll(cs[1..]))
  }

  // ---------------------------------------------------------------- the lattice

  /** `Leq` compares every peer, with missing entries read as 0. */
  lemma LeqIsPointwise(a: Counts, b: Counts)
    ensures Leq(a, b) <==> forall p: PeerID :: Count(a, p) <= Count(b, p)
  {
    if forall p: PeerID :: Count(a, p) <= Count(b, p) {
      forall p | p in a ensures a[p] <= Count(b, p) {
        assert Count(a, p) <= Count(b, p);
      }
    }
  }

  lemma LeqTransitive(a: Counts, b: Counts, c: Counts)
    requires Leq(a, b) && Leq(b, c)
    ensures Leq(a, c)
  {
    forall p | p in a ensures a[p] <= Count(c, p) {
      assert a[p] <= Count(b, p) <= Count(c, p);
    }
  }

  /** `Merge` is the least upper bound: above both clocks, and below everything above both. */
  lemma JoinIsLeastUpperBound(a: Counts, b: Counts, c: Counts)
    ensures Leq(a, Join(a, b)) && Leq(b, Join(a, b))
    ensures Leq(Join(a, b), c) <==> Leq(a, c) && Leq(b, c)
  {
    var j := Join(a, b);
    forall p | p in a ensures Count(j, p) >= a[p] { assert p in j; }
    forall p | p in b ensures Count(j, p) >= b[p] { assert p in j; }
    if Leq(j, c) {
      forall p | p in a ensures a[p] <= Count(c, p) { assert p in j; }
      forall p | p in b ensures b[p] <= Count(c, p) { assert p in j; }
    }
  }

  /** Joining is associative on the map values themselves, zero entries included. */
  lemma JoinAssociative(a: Counts, b: Counts, c: Counts)
    ensures Join(a, Join(b, c)) == Join(Join(a, b), c)
  {
    var l, r := Join(a, Join(b, c)), Join(Join(a, b), c);
    assert l.Keys == r.Keys;
    assert forall p | p in l :: l[p] == Count(l, p) == Count(r, p) == r[p];
  }

  lemma JoinCommutes(a: Counts, b: Counts)
    ensures Join(a, b) == Join(b, a)
    ensures Join(a, a) == a
  {
    assert Join(a, a).Keys == a.Keys;
  }

  /** Comparing with the arguments swapped gives the dual answer. */
  lemma RelationIsDual(a: Counts, b: Counts)
    ensures Relation(b, a) == match Relation(a, b) case Equal => Equal case Before => After case After => Before case Concurrent => Concurrent
  {
  }

  /** Counting up moves strictly up, in exactly one component. */
  lemma BumpMovesStrictlyUp(c: Counts, p: PeerID)
    ensures Relation(c, Bump(c, p)) == Before
    ensures forall q: PeerID :: Count(Bump(c, p), q) == Count(c, q) + (if q == p then 1 else 0)
  {
    assert Count(Bump(c, p), p) == Count(c, p) + 1;
    assert p in Bump(c, p);
    assert !Leq(Bump(c, p), c);
  }

  lemma {:induction false} JoinAllKeys(cs: seq<Counts>, p: PeerID)
    ensures p in JoinAll(cs) <==> exists i | 0 <= i < |cs| :: p in cs[i]
  {
    if cs != [] {
      JoinAllKeys(cs[1..], p);
      assert cs == [cs[0]] + cs[1..];
      if p in JoinAll(cs[1..]) {
        var i :| 0 <= i < |cs[1..]| && p in cs[1..][i];
        assert p in cs[i + 1];
      }
    }
  }

  lemma {:induction false} JoinAllBounds(cs: seq<Counts>, p: PeerID)
    ensures forall i | 0 <= i < |cs| :: Count(cs[i], p) <= Count(JoinAll(cs), p)
    ensures Count(JoinAll(cs), p) > 0 ==> exists i | 0 <= i < |cs| :: Count(cs[i], p) == Count(JoinAll(cs), p)
    ensures p in JoinAll(cs) <==> exists i | 0 <= i < |cs| :: p in cs[i]
  {
    if cs != [] {
      var first, rest := cs[0], cs[1..];
      JoinAllBounds(rest, p);
      assert JoinAll(cs) == Join(first, JoinAll(rest));
      JoinAllKeys(cs, p);
      hide Join, JoinAll, Count;
      forall i | 1 <= i < |cs| ensures Count(cs[i], p) <= Count(JoinAll(cs), p) { assert cs[i] == rest[i - 1]; }
      if Count(JoinAll(cs), p) > 0 && Count(first, p) != Count(JoinAll(cs), p) {
        var i :| 0 <= i < |rest| && Count(rest[i], p) == Count(JoinAll(cs), p);
        assert cs[i + 1] == rest[i];
      }
    }
  }

  /** The join depends on which clocks there are, not on their order or number. */
  lemma JoinAllOfSameClocks(cs: seq<Counts>, cs': seq<Counts>)
    requires forall c :: c in cs <==> c in cs'
    ensures JoinAll(cs) == JoinAll(cs')
  {
    JoinAllWithin(cs, cs');
    JoinAllWithin(cs', cs);
    assert JoinAll(cs).Keys == JoinAll(cs').Keys;
    forall p | p in JoinAll(cs) ensures JoinAll(cs)[p] == JoinAll(cs')[p] {
      assert Count(JoinAll(cs), p) == Count(JoinAll(cs'), p);
    }
  }

  lemma JoinAllWithin(cs: seq<Counts>, cs': seq<Counts>)
    requires forall c :: c in cs ==> c in cs'
    ensures JoinAll(cs).Keys <= JoinAll(cs').Keys
    ensures forall p: PeerID :: Count(JoinAll(cs), p) <= Count(JoinAll(cs'), p)
  {
    forall p: PeerID ensures Count(JoinAll(cs), p) <= Count(JoinAll(cs'), p)
    {
      JoinAllBounds(cs, p);
      JoinAllBounds(cs', p);
      if Count(JoinAll(cs), p) > 0 {
        var i :| 0 <= i < |cs| && Count(cs[i], p) == Count(JoinAll(cs), p);
        assert cs[i] in cs';
      }
    }
    forall p | p in JoinAll(cs) ensures p in JoinAll(cs') {
      JoinAllBounds(cs, p);
      JoinAllBounds(cs', p);
      var i :| 0 <= i < |cs| && p in cs[i];
      assert cs[i] in cs';
    }
  }

  // ---------------------------------------------------------------- the operations

  /** A Go map is a reference, so a clock is an object; the code also passes nil for an empty clock. */
  class VectorClock {
    var counts: Counts

    constructor (counts: Counts)
      ensures this.counts == counts
    {
      this.counts := counts;
    }
  }

  function View(clock: VectorClock?): Counts
    reads clock
  {
    if clock == null then map[] else clock.counts
  }

  method NewVectorClock() returns (clock: VectorClock)
    ensures fresh(clock) && View(clock) == map[]
  {
    clock := new VectorClock(map[]);
  }

  /** Writes the clock it was given, and makes one only when that was nil. */
  method Increment(clock: VectorClock?, peerID: PeerID) returns (result: VectorClock)
    modifies clock
    ensures clock != null ==> result == clock
    ensures clock == null ==> fresh(result)
    ensures View(result) == Bump(old(View(clock)), peerID)
  {
    if clock == null {
      result := new VectorClock(map[]);
    } else {
      result := clock;
    }
    var c := if peerID in result.counts then result.counts[peerID] else 0;
    result.counts := result.counts[peerID := c + 1];
  }

  /** Copies the first clock, then raises or adds the entries of the second, in any key order. */
  method Merge(clock1: VectorClock?, clock2: VectorClock?) returns (merged: VectorClock)
    ensures fresh(merged)
    ensures View(merged) == Join(View(clock1), View(clock2))
  {
    hide Join;
    merged := new VectorClock(map[]);
    var first, second := View(clock1), View(clock2);
    var keys := first.Keys;
    while keys != {}
      invariant keys <= first.Keys
      invariant fresh(merged) && merged.counts.Keys == first.Keys - keys
      invariant forall p | p in merged.counts :: merged.counts[p] == first[p]
    {
      var p :| p in keys;
      merged.counts := merged.counts[p := first[p]];
      keys := keys - {p};
    }
    keys := second.Keys;
    while keys != {}
      invariant keys <= second.Keys
      invariant fresh(merged) && merged.counts.Keys == first.Keys + (second.Keys - keys)
      invariant forall p | p in merged.counts ::
        merged.counts[p] == if p in keys then first[p] else Max(Count(first, p), Count(second, p))
    {
      var p :| p in keys;
      if p !in merged.counts || second[p] > merged.counts[p] {
        merged.counts := merged.counts[p := second[p]];
      }
      keys := keys - {p};
    }
    EntriesOfJoin(first, second, merged.counts);
  }

  lemma EntriesOfJoin(a: Counts, b: Counts, c: Counts)
    requires c.Keys == a.Keys + b.Keys && forall p | p in c :: c[p] == Max(Count(a, p), Count(b, p))
    ensures c == Join(a, b)
  {
  }

  /** Two flags over all keys, in any order, decide the pointwise relation. */
  method Compare(clock1: VectorClock?, clock2: VectorClock?) returns (result: Order)
    ensures result == Relation(View(clock1), View(clock2))
  {
    var first, second := View(clock1), View(clock2);
    var hasGreater, hasLess := false, false;
    var all := first.Keys + second.Keys;
    var keys := all;
    while keys != {}
      invariant keys <= all
      invariant hasGreater <==> exists p | p in all - keys :: Count(first, p) > Count(second, p)
      invariant hasLess <==> exists p | p in all - keys :: Count(first, p) < Count(second, p)
    {
      var p :| p in keys;
      var v1 := if p in first then first[p] else 0;
      var v2 := if p in second then second[p] else 0;
      if v1 > v2 { hasGreater := true; }
      if v1 < v2 { hasLess := true; }
      ghost var before := keys;
      keys := keys - {p};
      assert all - keys == (all - before) + {p};
    }
    assert Leq(first, second) <==> !hasGreater;
    assert Leq(second, first) <==> !hasLess;
    if !hasGreater && !hasLess {
      return Equal;
    } else if hasGreater && !hasLess {
      return After;
    } else if hasLess && !hasGreater {
      return Before;
    } else {
      return Concurrent;
    }
  }

  /** Despite its name and like its comment: before or equal. */
  method HappensBefore(clock1: VectorClock?, clock2: VectorClock?) returns (result: bool)
    ensures result <==> Leq(View(clock1), View(clock2))
  {
    var c1 := Compare(clock1, clock2);
    var c2 := Compare(clock1, clock2);
    result := c1 == Before || c2 == Equal;
  }

  /** A copy that later writes to the original do not reach; nil stays nil. */
  method Clone(clock: VectorClock?) returns (copy: VectorClock?)
    ensures clock == null <==> copy == null
    ensures copy != null ==> fresh(copy)
    ensures View(copy) == View(clock)
  {
    if clock == null {
      return null;
    }
    var c := new VectorClock(map[]);
    var keys := clock.counts.Keys;
    while keys != {}
      invariant keys <= clock.counts.Keys
      invariant fresh(c) && c.counts.Keys == clock.counts.Keys - keys
      invariant forall p | p in c.counts :: c.counts[p] == clock.counts[p]
    {
      var p :| p in keys;
      c.counts := c.counts[p := clock.counts[p]];
      keys := keys - {p};
    }
    return c;
  }
}
