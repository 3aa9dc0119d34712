/**
 * Convergence of the operation fold: which delivery orders of the same operations give the same document.
 */
module CausalFold {
  import opened Json
  import opened Sequences
  import opened VectorClocks
  import opened Resolver

  /** A delivery order: clocks are distinct and nothing comes before what it causally follows. */
  predicate Delivery(ops: seq<Operation>) {
    forall i, j | 0 <= i < j < |ops| :: !Leq(ops[j].vector, ops[i].vector)
  }

  predicate Known(ops: seq<Operation>) {
    AllHaveData(ops) && forall i | 0 <= i < |ops| :: ops[i].kind != Other
  }

  /** `o` is counted by its issuer beyond `other`. */
  predicate Ahead(o: Operation, other: Counts) {
    Count(other, o.peerID) < Count(o.vector, o.peerID)
  }

  /** An operation's own component exceeds the document's and that of every operation not causally after it. */
  predicate SteppedForward(doc: Doc, ops: seq<Operation>) {
    && (forall o | o in ops :: Ahead(o, doc.vector))
    && (forall o, other | o in ops && other in ops :: Leq(o.vector, other.vector) || Ahead(o, other.vector))
  }

  /** Every operation found a clock that let it take effect. */
  predicate NoneDropped(doc: Doc, ops: seq<Operation>)
    requires AllHaveData(ops)
  {
    ops == [] ||
    (NoneDropped(doc, ops[..|ops| - 1]) && Yields(Fold(doc, ops[..|ops| - 1]).vector, ops[|ops| - 1].vector))
  }

  ghost predicate Reordered(ops: seq<Operation>, ops': seq<Operation>) {
    multiset(ops) == multiset(ops')
  }

  lemma ReorderedMembers(ops: seq<Operation>, ops': seq<Operation>)
    requires Reordered(ops, ops')
    ensures forall o :: o in ops <==> o in ops'
    ensures |ops| == |ops'|
  {
    forall o ensures o in ops <==> o in ops' {
      assert o in ops <==> o in multiset(ops);
      assert o in ops' <==> o in multiset(ops');
    }
    assert |multiset(ops)| == |multiset(ops')|;
  }

  // ---------------------------------------------------------------- nothing is dropped

  lemma {:induction false} FoldStaysBelow(doc: Doc, ops: seq<Operation>, p: PeerID, bound: nat)
    requires AllHaveData(ops)
    requires Count(doc.vector, p) < bound
    requires forall i | 0 <= i < |ops| :: Count(ops[i].vector, p) < bound
    ensures Count(Fold(doc, ops).vector, p) < bound
  {
    if ops != [] {
      var n := |ops| - 1;
      FoldStaysBelow(doc, ops[..n], p, bound);
      ApplyJoins(Fold(doc, ops[..n]), ops[n], p);
    }
  }

  lemma {:induction false} DeliveryDropsNothing(doc: Doc, ops: seq<Operation>)
    requires Known(ops) && Delivery(ops) && SteppedForward(doc, ops)
    ensures NoneDropped(doc, ops)
  {
    if ops != [] {
      var n := |ops| - 1;
      var o, before := ops[n], ops[..n];
      forall x | x in before ensures x in ops {}
      DeliveryDropsNothing(doc, before);
      forall j | 0 <= j < n ensures Count(before[j].vector, o.peerID) < Count(o.vector, o.peerID) {
        assert Leq(o.vector, ops[j].vector) || Ahead(o, ops[j].vector);
      }
      assert Ahead(o, doc.vector);
      FoldStaysBelow(doc, before, o.peerID, Count(o.vector, o.peerID));
      LeqIsPointwise(o.vector, Fold(doc, before).vector);
    }
  }

  // ---------------------------------------------------------------- what a fold without drops computes

  lemma LastTakesEffect(doc: Doc, ops: seq<Operation>)
    requires Known(ops) && NoneDropped(doc, ops) && ops != []
    ensures Known(ops[..|ops| - 1]) && NoneDropped(doc, ops[..|ops| - 1])
    ensures Fold(doc, ops) == TakeEffect(Fold(doc, ops[..|ops| - 1]), ops[|ops| - 1])
  {
  }

  lemma JoinOneMore(v: Counts, ops: seq<Operation>, op: Operation)
    requires op.kind != Other
    ensures Join(Join(v, JoinAll(Stamps(ops))), op.vector) == Join(v, JoinAll(Stamps(ops + [op])))
  {
    assert Stamps(ops + [op]) == Stamps(ops) + [op.vector];
    JoinAllSnoc(Stamps(ops), op.vector);
    JoinAssociative(v, JoinAll(Stamps(ops)), op.vector);
  }

  lemma {:induction false} FoldVector(doc: Doc, ops: seq<Operation>)
    requires Known(ops) && NoneDropped(doc, ops)
    ensures Fold(doc, ops).vector == Join(doc.vector, JoinAll(Stamps(ops)))
  {
    if ops == [] {
      assert Join(doc.vector, map[]) == doc.vector;
    } else {
      hide NoneDropped, Fold, Stamps, JoinAll, Join;
      var init, last := Front(ops), Last(ops);
      LastTakesEffect(doc, ops);
      FoldVector(doc, init);
      JoinOneMore(doc.vector, init, last);
      FrontLast(ops);
    }
  }

  ghost predicate LatestTimestamp(doc: Doc, ops: seq<Operation>, t: int) {
    && doc.timestamp <= t
    && (forall o | o in ops :: o.timestamp <= t)
    && (t == doc.timestamp || exists o | o in ops :: o.timestamp == t)
  }

  ghost predicate DeletesSome(ops: seq<Operation>) {
    exists o | o in ops :: o.kind == Delete
  }

  /** Everything but the clock and the payload, from the set of operations alone. */
  ghost predicate Summarizes(doc: Doc, ops: seq<Operation>, result: Doc) {
    && LatestTimestamp(doc, ops, result.timestamp)
    && (result.deleted <==> doc.deleted || DeletesSome(ops))
    && result.id == doc.id && result.entryType == doc.entryType
    && result.peerID == doc.peerID && result.stage == doc.stage
  }

  lemma SummarizesOneMore(doc: Doc, ops: seq<Operation>, result: Doc, op: Operation)
    requires Summarizes(doc, ops, result) && HasData(op)
    ensures Summarizes(doc, ops + [op], TakeEffect(result, op))
  {
    assert forall o :: o in ops + [op] <==> o in ops || o == op;
    assert op in ops + [op];
  }

  lemma {:induction false} FoldMetadata(doc: Doc, ops: seq<Operation>)
    requires Known(ops) && NoneDropped(doc, ops)
    ensures Summarizes(doc, ops, Fold(doc, ops))
  {
    if ops != [] {
      hide NoneDropped, Fold, Summarizes, TakeEffect;
      var init, last := Front(ops), Last(ops);
      LastTakesEffect(doc, ops);
      FoldMetadata(doc, init);
      SummarizesOneMore(doc, init, Fold(doc, init), last);
      FrontLast(ops);
    }
  }

  lemma SummaryDecides(doc: Doc, ops: seq<Operation>, ops': seq<Operation>, one: Doc, two: Doc)
    requires Summarizes(doc, ops, one) && Summarizes(doc, ops', two)
    requires forall o :: o in ops <==> o in ops'
    requires one.vector == two.vector
    ensures one.(payload := map[]) == two.(payload := map[])
  {
  }

  predicate Writes(op: Operation, field: string)
    requires HasData(op)
  {
    CarriesFields(op) && field in op.data.value.payload
  }

  /** The value of a field is that of its last writer in delivery order, or the document's own. */
  ghost predicate WrittenLast(ops: seq<Operation>, field: string, i: int)
    requires AllHaveData(ops)
  {
    && -1 <= i < |ops|
    && (forall j | i < j < |ops| :: !Writes(ops[j], field))
    && (i >= 0 ==> Writes(ops[i], field))
  }

  /** What the last writer at `i` means for the value of the field, -1 standing for the start document. */
  ghost predicate Decides(doc: Doc, ops: seq<Operation>, field: string, i: int, payload: Fields)
    requires AllHaveData(ops)
  {
    && WrittenLast(ops, field, i)
    && (i >= 0 ==> field in payload && payload[field] == ops[i].data.value.payload[field])
    && (i == -1 ==> (field in payload <==> field in doc.payload))
    && (i == -1 && field in doc.payload ==> payload[field] == doc.payload[field])
  }

  lemma DecidesOneMore(doc: Doc, ops: seq<Operation>, field: string, i: int, result: Doc, op: Operation) returns (i': int)
    requires AllHaveData(ops) && HasData(op) && op.kind != Other
    requires Decides(doc, ops, field, i, result.payload)
    ensures AllHaveData(ops + [op])
    ensures Decides(doc, ops + [op], field, i', TakeEffect(result, op).payload)
  {
    i' := if Writes(op, field) then |ops| else i;
  }

  lemma {:induction false} LastWriterWins(doc: Doc, ops: seq<Operation>, field: string) returns (i: int)
    requires Known(ops) && NoneDropped(doc, ops)
    ensures Decides(doc, ops, field, i, Fold(doc, ops).payload)
  {
    if ops == [] {
      i := -1;
    } else {
      hide NoneDropped, Fold, Decides, TakeEffect;
      var init, last := Front(ops), Last(ops);
      LastTakesEffect(doc, ops);
      i := LastWriterWins(doc, init, field);
      i := DecidesOneMore(doc, init, field, i, Fold(doc, init), last);
      FrontLast(ops);
    }
  }

  // ---------------------------------------------------------------- same operations, same metadata

  lemma StampsMembers(ops: seq<Operation>, ops': seq<Operation>)
    requires forall o :: o in ops <==> o in ops'
    ensures forall c :: c in Stamps(ops) <==> c in Stamps(ops')
  {
    forall c ensures c in Stamps(ops) ==> c in Stamps(ops') {
      if c in Stamps(ops) {
        var i :| 0 <= i < |ops| && Stamp(ops[i]) == c;
        assert ops[i] in ops';
        var j :| 0 <= j < |ops'| && ops'[j] == ops[i];
        assert Stamps(ops')[j] == c;
      }
    }
    forall c ensures c in Stamps(ops') ==> c in Stamps(ops) {
      if c in Stamps(ops') {
        var i :| 0 <= i < |ops'| && Stamp(ops'[i]) == c;
        assert ops'[i] in ops;
        var j :| 0 <= j < |ops| && ops[j] == ops'[i];
        assert Stamps(ops)[j] == c;
      }
    }
  }

  /**
   * Two delivery orders of the same operations drop nothing and agree on the clock, the timestamp,
   * the deletion flag and every other field but the payload.
   */
  lemma MetadataConverges(doc: Doc, ops: seq<Operation>, ops': seq<Operation>)
    requires Known(ops) && Reordered(ops, ops') && SteppedForward(doc, ops)
    requires Delivery(ops) && Delivery(ops')
    ensures Known(ops') && SteppedForward(doc, ops')
    ensures NoneDropped(doc, ops) && NoneDropped(doc, ops')
    ensures Fold(doc, ops).(payload := map[]) == Fold(doc, ops').(payload := map[])
  {
    ReorderedMembers(ops, ops');
    forall i | 0 <= i < |ops'| ensures HasData(ops'[i]) && ops'[i].kind != Other {
      assert ops'[i] in ops;
      var j :| 0 <= j < |ops| && ops[j] == ops'[i];
    }
    DeliveryDropsNothing(doc, ops);
    DeliveryDropsNothing(doc, ops');
    FoldMetadata(doc, ops);
    FoldMetadata(doc, ops');
    FoldVector(doc, ops);
    FoldVector(doc, ops');
    StampsMembers(ops, ops');
    JoinAllOfSameClocks(Stamps(ops), Stamps(ops'));
    SummaryDecides(doc, ops, ops', Fold(doc, ops), Fold(doc, ops'));
  }

  // ---------------------------------------------------------------- when payloads agree, exactly

  /** A writer of the field that no other writer of it causally follows. */
  predicate MaximalWriter(ops: seq<Operation>, o: Operation, field: string)
    requires AllHaveData(ops)
  {
    && o in ops && HasData(o) && Writes(o, field)
    && forall i | 0 <= i < |ops| && Writes(ops[i], field) && ops[i] != o :: !Leq(o.vector, ops[i].vector)
  }

  /** All maximal writers of a field write the same value. */
  ghost predicate MaximalWritersAgree(ops: seq<Operation>)
    requires AllHaveData(ops)
  {
    forall field: string, o: Operation, o': Operation ::
      MaximalWriter(ops, o, field) && MaximalWriter(ops, o', field) ==>
        o.data.value.payload[field] == o'.data.value.payload[field]
  }

  /** A condition on pairs that is enough: operations with concurrent clocks agree on the fields they share. */
  ghost predicate ConcurrentOperationsAgree(ops: seq<Operation>)
    requires AllHaveData(ops)
  {
    forall i, j | 0 <= i < |ops| && 0 <= j < |ops| && Relation(ops[i].vector, ops[j].vector) == Concurrent
      && CarriesFields(ops[i]) && CarriesFields(ops[j]) ::
      Agree(ops[i].data.value.payload, ops[j].data.value.payload)
  }

  lemma ConcurrentAgreementSuffices(ops: seq<Operation>)
    requires AllHaveData(ops) && ConcurrentOperationsAgree(ops)
    ensures MaximalWritersAgree(ops)
  {
    forall field: string, o: Operation, o': Operation | MaximalWriter(ops, o, field) && MaximalWriter(ops, o', field)
      ensures o.data.value.payload[field] == o'.data.value.payload[field]
    {
      if o != o' {
        var i :| 0 <= i < |ops| && ops[i] == o;
        var j :| 0 <= j < |ops| && ops[j] == o';
        assert Relation(ops[i].vector, ops[j].vector) == Concurrent;
        assert Agree(o.data.value.payload, o'.data.value.payload);
      }
    }
  }

  lemma LastWriterIsMaximal(ops: seq<Operation>, field: string, i: int)
    requires Known(ops) && Delivery(ops)
    requires WrittenLast(ops, field, i) && i >= 0
    ensures MaximalWriter(ops, ops[i], field)
  {
    forall j | 0 <= j < |ops| && Writes(ops[j], field) && ops[j] != ops[i]
      ensures !Leq(ops[i].vector, ops[j].vector)
    {
      assert j < i;
    }
  }

  /** Maximality depends on the set of operations only. */
  lemma MaximalWriterOfReordered(ops: seq<Operation>, ops': seq<Operation>, o: Operation, field: string)
    requires AllHaveData(ops) && AllHaveData(ops') && Reordered(ops, ops') && MaximalWriter(ops, o, field)
    ensures MaximalWriter(ops', o, field)
  {
    ReorderedMembers(ops, ops');
    forall i | 0 <= i < |ops'| && Writes(ops'[i], field) && ops'[i] != o ensures !Leq(o.vector, ops'[i].vector) {
      assert ops'[i] in ops;
      var j :| 0 <= j < |ops| && ops[j] == ops'[i];
    }
  }

  /** If one order writes the field last at `i`, the other order ends with the same value there. */
  lemma FieldFollows(doc: Doc, ops: seq<Operation>, ops': seq<Operation>, field: string)
    requires Known(ops) && NoneDropped(doc, ops) && Delivery(ops)
    requires Known(ops') && NoneDropped(doc, ops') && Delivery(ops')
    requires Reordered(ops, ops') && MaximalWritersAgree(ops)
    requires field in Fold(doc, ops).payload
    ensures field in Fold(doc, ops').payload
    ensures Fold(doc, ops').payload[field] == Fold(doc, ops).payload[field]
  {
    ReorderedMembers(ops, ops');
    var i := LastWriterWins(doc, ops, field);
    var i' := LastWriterWins(doc, ops', field);
    if i' >= 0 {
      LastWriterIsMaximal(ops', field, i');
      MaximalWriterOfReordered(ops', ops, ops'[i'], field);
      var j :| 0 <= j < |ops| && ops[j] == ops'[i'];
      assert i >= 0;
    }
    if i >= 0 {
      LastWriterIsMaximal(ops, field, i);
      assert ops[i] in ops';
      var j :| 0 <= j < |ops'| && ops'[j] == ops[i];
      assert i' >= 0;
    }
  }

  lemma AgreementOfReordered(ops: seq<Operation>, ops': seq<Operation>)
    requires AllHaveData(ops) && AllHaveData(ops') && Reordered(ops, ops') && MaximalWritersAgree(ops)
    ensures MaximalWritersAgree(ops')
  {
    forall field: string, o: Operation, o': Operation | MaximalWriter(ops', o, field) && MaximalWriter(ops', o', field)
      ensures o.data.value.payload[field] == o'.data.value.payload[field]
    {
      MaximalWriterOfReordered(ops', ops, o, field);
      MaximalWriterOfReordered(ops', ops, o', field);
    }
  }

  /** Under that agreement any two delivery orders give the same document. */
  lemma PayloadConverges(doc: Doc, ops: seq<Operation>, ops': seq<Operation>)
    requires Known(ops) && Reordered(ops, ops') && SteppedForward(doc, ops)
    requires Delivery(ops) && Delivery(ops')
    requires MaximalWritersAgree(ops)
    ensures Known(ops') && Fold(doc, ops) == Fold(doc, ops')
  {
    hide NoneDropped, Fold, MaximalWritersAgree, Delivery;
    MetadataConverges(doc, ops, ops');
    AgreementOfReordered(ops, ops');
    SubPayload(doc, ops, ops');
    SubPayload(doc, ops', ops);
    SameDocument(Fold(doc, ops), Fold(doc, ops'));
  }

  lemma SubPayload(doc: Doc, ops: seq<Operation>, ops': seq<Operation>)
    requires Known(ops) && NoneDropped(doc, ops) && Delivery(ops)
    requires Known(ops') && NoneDropped(doc, ops') && Delivery(ops')
    requires Reordered(ops, ops') && MaximalWritersAgree(ops)
    ensures forall field | field in Fold(doc, ops).payload ::
      field in Fold(doc, ops').payload && Fold(doc, ops').payload[field] == Fold(doc, ops).payload[field]
  {
    hide NoneDropped, Fold, MaximalWritersAgree, Delivery;
    forall field | field in Fold(doc, ops).payload
      ensures field in Fold(doc, ops').payload && Fold(doc, ops').payload[field] == Fold(doc, ops).payload[field]
    {
      FieldFollows(doc, ops, ops', field);
    }
  }

  lemma SameDocument(one: Doc, two: Doc)
    requires one.(payload := map[]) == two.(payload := map[])
    requires forall field | field in one.payload :: field in two.payload && two.payload[field] == one.payload[field]
    requires forall field | field in two.payload :: field in one.payload
    ensures one == two
  {
    assert one.payload == two.payload;
    assert one == one.(payload := map[]).(payload := one.payload);
  }

  /** The operations at or above a clock, or the others, in their order. */
  function Select(ops: seq<Operation>, floor: Counts, above: bool): seq<Operation> {
    if ops == [] then []
    else
      var n := |ops| - 1;
      var rest := Select(ops[..n], floor, above);
      if Leq(floor, ops[n].vector) == above then rest + [ops[n]] else rest
  }

  lemma {:induction false} SelectKeepsDelivery(ops: seq<Operation>, floor: Counts, above: bool)
    requires Delivery(ops)
    ensures Delivery(Select(ops, floor, above))
    ensures forall o :: o in Select(ops, floor, above) <==> o in ops && Leq(floor, o.vector) == above
  {
    if ops != [] {
      var n := |ops| - 1;
      SelectKeepsDelivery(ops[..n], floor, above);
      var rest := Select(ops[..n], floor, above);
      FrontLast(ops);
      forall i | 0 <= i < |rest| ensures !Leq(ops[n].vector, rest[i].vector) {
        assert rest[i] in ops[..n];
      }
    }
  }

  lemma {:induction false} SelectSplits(ops: seq<Operation>, floor: Counts)
    ensures multiset(Select(ops, floor, false) + Select(ops, floor, true)) == multiset(ops)
  {
    if ops != [] {
      var n := |ops| - 1;
      SelectSplits(ops[..n], floor);
      FrontLast(ops);
      var lo, hi := Select(ops[..n], floor, false), Select(ops[..n], floor, true);
      assert multiset(ops) == multiset(lo) + multiset(hi) + multiset{ops[n]};
    }
  }

  /** Everything that does not follow a clock first, then what does: again a delivery order. */
  lemma SelectedOrder(ops: seq<Operation>, floor: Counts) returns (ops': seq<Operation>)
    requires Delivery(ops)
    ensures ops' == Select(ops, floor, false) + Select(ops, floor, true)
    ensures Reordered(ops, ops') && Delivery(ops')
  {
    var lo, hi := Select(ops, floor, false), Select(ops, floor, true);
    ops' := lo + hi;
    SelectSplits(ops, floor);
    SelectKeepsDelivery(ops, floor, false);
    SelectKeepsDelivery(ops, floor, true);
    forall i, j | 0 <= i < j < |ops'| ensures !Leq(ops'[j].vector, ops'[i].vector) {
      if i < |lo| && j >= |lo| {
        assert ops'[j] in hi && ops'[i] in lo;
        if Leq(ops'[j].vector, ops'[i].vector) {
          LeqTransitive(floor, ops'[j].vector, ops'[i].vector);
        }
      }
    }
  }

  /** Any maximal writer of a field can be delivered last among its writers, and then its value stands. */
  lemma WriterCanStand(doc: Doc, ops: seq<Operation>, o: Operation, field: string) returns (ops': seq<Operation>)
    requires Known(ops) && Delivery(ops) && SteppedForward(doc, ops)
    requires MaximalWriter(ops, o, field)
    ensures Reordered(ops, ops') && Delivery(ops') && Known(ops')
    ensures field in Fold(doc, ops').payload && Fold(doc, ops').payload[field] == o.data.value.payload[field]
  {
    ops' := SelectedOrder(ops, o.vector);
    MetadataConverges(doc, ops, ops');
    MaximalWriterOfReordered(ops, ops', o, field);
    var k := LastWriterWins(doc, ops', field);
    LastAboveIs(ops, ops', o, field, k);
  }

  lemma LastAboveIs(ops: seq<Operation>, ops': seq<Operation>, o: Operation, field: string, k: int)
    requires Known(ops) && Known(ops') && Delivery(ops) && MaximalWriter(ops, o, field) && MaximalWriter(ops', o, field)
    requires ops' == Select(ops, o.vector, false) + Select(ops, o.vector, true)
    requires WrittenLast(ops', field, k)
    ensures k >= 0 && ops'[k] == o
  {
    var lo, hi := Select(ops, o.vector, false), Select(ops, o.vector, true);
    SelectKeepsDelivery(ops, o.vector, true);
    LeqIsPointwise(o.vector, o.vector);
    assert o in hi;
    var m :| 0 <= m < |hi| && hi[m] == o;
    assert ops'[|lo| + m] == o;
    assert k >= |lo| + m;
    assert ops'[k] in hi;
  }

  /** All delivery orders of the operations lead to one document. */
  ghost predicate OrderIndependent(doc: Doc, ops: seq<Operation>)
    requires AllHaveData(ops)
  {
    forall ops' :: Reordered(ops, ops') && Delivery(ops') && AllHaveData(ops') ==> Fold(doc, ops') == Fold(doc, ops)
  }

  /** Replicas that deliver the same operations converge exactly when the maximal writers of each field agree. */
  lemma ConvergenceIff(doc: Doc, ops: seq<Operation>)
    requires Known(ops) && Delivery(ops) && SteppedForward(doc, ops)
    ensures OrderIndependent(doc, ops) <==> MaximalWritersAgree(ops)
  {
    if MaximalWritersAgree(ops) {
      forall ops' | Reordered(ops, ops') && Delivery(ops') && AllHaveData(ops') ensures Fold(doc, ops') == Fold(doc, ops) {
        PayloadConverges(doc, ops, ops');
      }
    }
    if OrderIndependent(doc, ops) {
      forall field: string, o: Operation, o': Operation | MaximalWriter(ops, o, field) && MaximalWriter(ops, o', field)
        ensures o.data.value.payload[field] == o'.data.value.payload[field]
      {
        var one := WriterCanStand(doc, ops, o, field);
        var two := WriterCanStand(doc, ops, o', field);
        assert Fold(doc, one) == Fold(doc, ops) == Fold(doc, two);
      }
    }
  }
}
