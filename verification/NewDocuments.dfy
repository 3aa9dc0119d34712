/** Operations where there is no document yet: which one makes it, and the laws of folding from there on. */
module NewDocuments {
  import opened Sequences
  import opened Json
  import opened VectorClocks
  import opened Resolver

  /** What a write makes where there is nothing: its document, under the clock, time and peer of the operation. */
  lemma WriteMakesDocument(op: Operation)
    requires HasData(op)
    ensures Apply(None, op).Some? <==> CarriesFields(op)
    ensures CarriesFields(op) ==>
      var made, data := Apply(None, op).value, op.data.value;
      && (forall p: PeerID :: Count(made.vector, p) == Count(op.vector, p))
      && made.timestamp == op.timestamp && made.peerID == op.peerID
      && made.payload == data.payload && made.id == data.id && made.entryType == data.entryType
      && made.stage == data.stage && made.deleted == data.deleted
  {
  }

  /** Folding operations from a document or from nothing, in list order. */
  function FoldFrom(doc: Option<Doc>, ops: seq<Operation>): Option<Doc>
    requires AllHaveData(ops)
  {
    if ops == [] then doc else Apply(FoldFrom(doc, Front(ops)), Last(ops))
  }

  lemma {:induction false} FoldFromDocument(doc: Doc, ops: seq<Operation>)
    requires AllHaveData(ops)
    ensures FoldFrom(Some(doc), ops) == Some(Fold(doc, ops))
  {
    if ops != [] {
      FoldFromDocument(doc, Front(ops));
    }
  }

  predicate NoWrites(ops: seq<Operation>) {
    forall i | 0 <= i < |ops| :: !CarriesFields(ops[i])
  }

  /** Nothing is made exactly while there is no write. */
  lemma {:induction false} NothingMadeIff(ops: seq<Operation>)
    requires AllHaveData(ops)
    ensures FoldFrom(None, ops).None? <==> NoWrites(ops)
  {
    if ops != [] {
      var front, last := Front(ops), Last(ops);
      assert ops[|ops| - 1] == last && forall i | 0 <= i < |front| :: ops[i] == front[i];
      NothingMadeIff(front);
    }
  }

  lemma {:induction false} FoldFromConcat(doc: Option<Doc>, a: seq<Operation>, b: seq<Operation>)
    requires AllHaveData(a) && AllHaveData(b)
    ensures AllHaveData(a + b) && FoldFrom(doc, a + b) == FoldFrom(FoldFrom(doc, a), b)
  {
    if b == [] {
      assert a + b == a;
    } else {
      assert Front(a + b) == a + Front(b) && Last(a + b) == Last(b);
      FoldFromConcat(doc, a, Front(b));
    }
  }

  /** Operations with their first write. */
  predicate FirstWrite(before: seq<Operation>, first: Operation, after: seq<Operation>) {
    AllHaveData(before) && HasData(first) && AllHaveData(after) && NoWrites(before) && CarriesFields(first)
  }

  lemma FromFirstWrite(before: seq<Operation>, first: Operation, after: seq<Operation>)
    requires FirstWrite(before, first, after)
    ensures AllHaveData(before + [first] + after)
    ensures Apply(None, first).Some?
    ensures FoldFrom(None, before + [first] + after) == Some(Fold(Apply(None, first).value, after))
  {
    FoldFromConcat(None, before + [first], after);
    NothingMadeIff(before);
    SnocFront(before, first);
    FoldFromDocument(Apply(None, first).value, after);
  }

  /** The clock is the join of all operation clocks from the first write on, and of none before it. */
  lemma ClockFromNothing(before: seq<Operation>, first: Operation, after: seq<Operation>, p: PeerID)
    requires FirstWrite(before, first, after)
    ensures AllHaveData(before + [first] + after) && FoldFrom(None, before + [first] + after).Some?
    ensures Count(FoldFrom(None, before + [first] + after).value.vector, p) == Count(JoinAll(Stamps([first] + after)), p)
  {
    FromFirstWrite(before, first, after);
    FoldVectorIsJoin(Apply(None, first).value, after, p);
    assert Stamps([first] + after) == [first.vector] + Stamps(after);
    assert JoinAll([first.vector] + Stamps(after)) == Join(first.vector, JoinAll(Stamps(after))) by {
      assert ([first.vector] + Stamps(after))[1..] == Stamps(after);
    }
  }

  /**
   * An operation from the first write on changes nothing when it is applied again, that write included. An earlier
   * one, which found nothing to delete, is ignored later exactly when later clocks cover it.
   */
  lemma RedeliveryFromNothing(before: seq<Operation>, first: Operation, after: seq<Operation>, op: Operation)
    requires FirstWrite(before, first, after) && HasData(op)
    ensures AllHaveData(before + [first] + after)
    ensures op in [first] + after ==>
      Apply(FoldFrom(None, before + [first] + after), op) == FoldFrom(None, before + [first] + after)
    ensures op in before ==>
      (Apply(FoldFrom(None, before + [first] + after), op) == FoldFrom(None, before + [first] + after)
       <==> op.kind == Other || Leq(op.vector, JoinAll(Stamps([first] + after))))
  {
    FromFirstWrite(before, first, after);
    var start := Apply(None, first).value;
    var doc := Fold(start, after);
    if op in [first] + after {
      if op in after {
        var i :| 0 <= i < |after| && after[i] == op;
        FoldIgnoresRedelivery(start, after, i);
      } else {
        FirstIsCovered(first, after);
      }
    }
    if op in before && op.kind != Other {
      var k :| 0 <= k < |before| && before[k] == op;
      var j := JoinAll(Stamps([first] + after));
      forall p: PeerID ensures Count(doc.vector, p) == Count(j, p) {
        ClockFromNothing(before, first, after, p);
      }
      LeqIsPointwise(op.vector, doc.vector);
      LeqIsPointwise(op.vector, j);
      hide JoinAll, Stamps, Fold, FoldFrom;
      DeletionIdleIff(doc, op);
    }
  }

  lemma FirstIsCovered(first: Operation, after: seq<Operation>)
    requires HasData(first) && CarriesFields(first) && AllHaveData(after)
    ensures Leq(first.vector, Fold(Apply(None, first).value, after).vector)
    ensures ApplyTo(Fold(Apply(None, first).value, after), first) == Fold(Apply(None, first).value, after)
  {
    var start := Apply(None, first).value;
    assert after[..0] == [];
    FoldIsMonotone(start, after, 0);
  }

  lemma DeletionIdleIff(doc: Doc, op: Operation)
    requires op.kind == Delete
    ensures ApplyTo(doc, op) == doc <==> Leq(op.vector, doc.vector)
  {
    JoinIsLeastUpperBound(doc.vector, op.vector, doc.vector);
    LeqIsPointwise(doc.vector, doc.vector);
  }
}
