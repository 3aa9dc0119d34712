/**
 * The CRDT resolver on values: the merge of two document states and the application of one operation.
 * A nil payload map and an empty one are the same value here.
 */
module Resolver {
  import opened Json
  import opened VectorClocks

  datatype Doc = Doc(
    id: string,
    entryType: string,
    payload: Fields,
    vector: Counts,
    timestamp: int,
    peerID: PeerID,
    stage: string,
    deleted: bool)

  datatype OperationType = Insert | Update | Delete | Other

  datatype Operation = Operation(
    kind: OperationType,
    documentID: string,
    data: Option<Doc>,
    vector: Counts,
    timestamp: int,
    peerID: PeerID)

  // ---------------------------------------------------------------- merging states

  /** Later timestamp first; on a tie the peer id that is not smaller. */
  predicate Outranks(a: Doc, b: Doc) {
    a.timestamp > b.timestamp || (a.timestamp == b.timestamp && !Less(a.peerID, b.peerID))
  }

  /** The winner with the joined clock and the loser's fields it did not have itself. */
  function MergeInto(winner: Doc, loser: Doc): Doc {
    winner.(vector := Join(winner.vector, loser.vector), payload := loser.payload + winner.payload)
  }

  function Resolve(local: Doc, remote: Doc): Doc {
    if remote.deleted && !local.deleted then
      if Yields(local.vector, remote.vector) then remote else local
    else if local.deleted && !remote.deleted then
      if Yields(remote.vector, local.vector) then local else remote
    else
      match Relation(local.vector, remote.vector)
      case After => local
      case Before => remote
      case Equal => local
      case Concurrent => if Outranks(local, remote) then MergeInto(local, remote) else MergeInto(remote, local)
  }

  // ---------------------------------------------------------------- applying operations

  predicate CarriesFields(op: Operation) {
    op.kind.Insert? || op.kind.Update?
  }

  /** The operation carries the document that its kind makes the code read. */
  predicate HasData(op: Operation) {
    CarriesFields(op) ==> op.data.Some?
  }

  predicate AllHaveData(ops: seq<Operation>) {
    forall i | 0 <= i < |ops| :: HasData(ops[i])
  }

  /** The one state in which applying an operation would read through a nil pointer is excluded. */
  predicate Applicable(doc: Option<Doc>, op: Operation) {
    CarriesFields(op) && doc.Some? && Yields(doc.value.vector, op.vector) ==> op.data.Some?
  }

  /** The document with the operation's clock, timestamp and fields or deletion. */
  function TakeEffect(doc: Doc, op: Operation): Doc
    requires HasData(op)
  {
    var stamped := doc.(vector := Join(doc.vector, op.vector),
                        timestamp := if op.timestamp > doc.timestamp then op.timestamp else doc.timestamp);
    match op.kind
    case Delete => stamped.(deleted := true)
    case Other => stamped
    case _ => stamped.(payload := doc.payload + op.data.value.payload)
  }

  function ApplyTo(doc: Doc, op: Operation): Doc
    requires Applicable(Some(doc), op)
  {
    if op.kind == Other || !Yields(doc.vector, op.vector) then doc else TakeEffect(doc, op)
  }

  function Apply(doc: Option<Doc>, op: Operation): Option<Doc>
    requires Applicable(doc, op)
  {
    if doc.Some? then
      Some(ApplyTo(doc.value, op))
    else if CarriesFields(op) && op.data.Some? then
      Some(op.data.value.(vector := op.vector, timestamp := op.timestamp, peerID := op.peerID))
    else
      None
  }

  /** A stored map as a document, with the clock the code invents for it. */
  function ToDistributed(fields: Fields, id: string, peerID: PeerID, now: int): Doc {
    Doc(id, "", fields, map[peerID := 1], now, peerID, "", false)
  }

  // ---------------------------------------------------------------- what the two do, part by part

  /** The winner's description, the larger count of every peer, and every field of both, the winner's first. */
  ghost predicate Combines(m: Doc, winner: Doc, loser: Doc) {
    && m.id == winner.id && m.entryType == winner.entryType && m.stage == winner.stage && m.deleted == winner.deleted
    && m.timestamp == winner.timestamp && m.peerID == winner.peerID
    && (forall p: PeerID :: Count(m.vector, p) == if Count(winner.vector, p) < Count(loser.vector, p) then Count(loser.vector, p)
                                                  else Count(winner.vector, p))
    && (forall k :: k in m.payload <==> k in winner.payload || k in loser.payload)
    && (forall k | k in m.payload :: m.payload[k] == if k in winner.payload then winner.payload[k] else loser.payload[k])
  }

  /**
   * A later clock wins, whatever the flags say. With equal clocks a live document wins over a deleted one and
   * otherwise the local one stays. Of two concurrent states the deleted one wins; when both are live or both
   * deleted they are combined, and the winner has the later time, then the larger peer id, then is the local one.
   */
  lemma ResolveMeaning(a: Doc, b: Doc)
    ensures Leq(a.vector, b.vector) && !Leq(b.vector, a.vector) ==> Resolve(a, b) == b
    ensures Leq(b.vector, a.vector) && !Leq(a.vector, b.vector) ==> Resolve(a, b) == a
    ensures Leq(a.vector, b.vector) && Leq(b.vector, a.vector) ==> Resolve(a, b) == if a.deleted && !b.deleted then b else a
    ensures !Leq(a.vector, b.vector) && !Leq(b.vector, a.vector) ==>
      if a.deleted != b.deleted then Resolve(a, b) == if a.deleted then a else b
      else if a.timestamp < b.timestamp || (a.timestamp == b.timestamp && Less(a.peerID, b.peerID)) then Combines(Resolve(a, b), b, a)
      else Combines(Resolve(a, b), a, b)
  {
  }

  /**
   * An operation that the clock covers, or of unknown kind, changes nothing. Any other counts its clock, moves the
   * time up to its own, and writes its fields over those that are there or sets the flag; nothing else changes.
   */
  lemma ApplyMeaning(doc: Doc, op: Operation)
    requires HasData(op)
    ensures op.kind == Other || Leq(op.vector, doc.vector) ==> ApplyTo(doc, op) == doc
    ensures op.kind != Other && !Leq(op.vector, doc.vector) ==>
      var after := ApplyTo(doc, op);
      && after.id == doc.id && after.entryType == doc.entryType && after.stage == doc.stage && after.peerID == doc.peerID
      && after.timestamp == (if doc.timestamp < op.timestamp then op.timestamp else doc.timestamp)
      && (forall p: PeerID :: Count(after.vector, p) == if Count(doc.vector, p) < Count(op.vector, p) then Count(op.vector, p)
                                                        else Count(doc.vector, p))
      && (op.kind == Delete ==> after.deleted && after.payload == doc.payload)
      && (CarriesFields(op) ==>
            && after.deleted == doc.deleted
            && (forall k :: k in after.payload <==> k in doc.payload || k in op.data.value.payload)
            && (forall k | k in after.payload ::
                  after.payload[k] == if k in op.data.value.payload then op.data.value.payload[k] else doc.payload[k]))
  {
  }

  // ---------------------------------------------------------------- laws of merging two states

  /** Both documents say the same about every field they share. */
  predicate Agree(a: Fields, b: Fields) {
    forall k | k in a && k in b :: a[k] == b[k]
  }

  /** What decides whether the order of the two arguments matters. */
  predicate OrderFree(a: Doc, b: Doc) {
    a.deleted == b.deleted ==>
      match Relation(a.vector, b.vector)
      case Equal => a == b
      case Concurrent =>
        (a.timestamp, a.peerID) == (b.timestamp, b.peerID) ==>
          a.id == b.id && a.entryType == b.entryType && a.stage == b.stage && Agree(a.payload, b.payload)
      case _ => true
  }

  /** Merging is commutative exactly there. */
  lemma ResolveCommutesIff(a: Doc, b: Doc)
    ensures Resolve(a, b) == Resolve(b, a) <==> OrderFree(a, b)
  {
    RelationIsDual(a.vector, b.vector);
    JoinCommutes(a.vector, b.vector);
    LessIsTrichotomous(a.peerID, b.peerID);
    if a.deleted == b.deleted && Relation(a.vector, b.vector) == Concurrent && (a.timestamp, a.peerID) == (b.timestamp, b.peerID) {
      var ab, ba := b.payload + a.payload, a.payload + b.payload;
      if ab == ba {
        forall k | k in a.payload && k in b.payload ensures a.payload[k] == b.payload[k] {
          assert ab[k] == ba[k];
        }
      }
      assert Agree(a.payload, b.payload) ==> ab == ba;
    }
  }

  /** Two states that tie: with equal clocks the one that is there already stays, so the order decides. */
  lemma ResolveNeedNotCommute()
    ensures
      var a := Doc("x", "", map["f" := Bool(true)], map["p" := 1], 0, "p", "", false);
      var b := a.(payload := map["f" := Bool(false)]);
      Resolve(a, b) == a && Resolve(b, a) == b && a != b
  {
    assert map["f" := Bool(true)]["f"] != map["f" := Bool(false)]["f"];
  }

  /** A state that was merged once changes nothing when it arrives again, on either side of the tree. */
  lemma ResolveAbsorbsRedelivery(a: Doc, b: Doc)
    ensures Resolve(Resolve(a, b), a) == Resolve(a, b)
    ensures Resolve(Resolve(a, b), b) == Resolve(a, b)
  {
    JoinIsLeastUpperBound(a.vector, b.vector, Join(a.vector, b.vector));
    JoinCommutes(a.vector, b.vector);
    RelationIsDual(a.vector, b.vector);
  }

  /**
   * Where the merge loses the join: the clock of the result is the join of both clocks exactly when the
   * flags agree, or the two clocks are comparable.
   */
  lemma ResolveJoinsClocksIff(a: Doc, b: Doc)
    ensures (Relation(Resolve(a, b).vector, Join(a.vector, b.vector)) == Equal)
        <==> (a.deleted == b.deleted || Relation(a.vector, b.vector) != Concurrent)
  {
    var j := Join(a.vector, b.vector);
    JoinIsLeastUpperBound(a.vector, b.vector, a.vector);
    JoinIsLeastUpperBound(a.vector, b.vector, b.vector);
    JoinIsLeastUpperBound(a.vector, b.vector, j);
    JoinCommutes(a.vector, b.vector);
    RelationIsDual(a.vector, b.vector);
    LeqIsPointwise(j, j);
  }

  /** A live document meets a concurrent deletion: the result forgets what the document's clock counted. */
  lemma ResolveCanLoseClocks()
    ensures
      var live := Doc("x", "", map[], map["p" := 1], 0, "p", "", false);
      var gone := Doc("x", "", map[], map["q" := 1], 0, "q", "", true);
      Resolve(live, gone) == gone && Count(gone.vector, "p") == 0 && Count(Join(live.vector, gone.vector), "p") == 1
  {
    assert "p" in map["p" := 1] && "q" in map["q" := 1];
  }

  // ---------------------------------------------------------------- folding operations

  /** The document after a list of operations, applied in list order. */
  function Fold(doc: Doc, ops: seq<Operation>): Doc
    requires AllHaveData(ops)
  {
    if ops == [] then doc else ApplyTo(Fold(doc, ops[..|ops| - 1]), ops[|ops| - 1])
  }

  /** The clock an operation brings; an unknown kind brings none. */
  function Stamp(op: Operation): Counts {
    if op.kind == Other then map[] else op.vector
  }

  function Stamps(ops: seq<Operation>): seq<Counts> {
    seq(|ops|, i requires 0 <= i < |ops| => Stamp(ops[i]))
  }

  lemma {:induction false} JoinAllSnoc(cs: seq<Counts>, c: Counts)
    ensures JoinAll(cs + [c]) == Join(JoinAll(cs), c)
  {
    if cs == [] {
      assert cs + [c] == [c];
      assert JoinAll([c]) == Join(c, map[]);
      JoinCommutes(c, map[]);
    } else {
      assert (cs + [c])[1..] == cs[1..] + [c];
      JoinAllSnoc(cs[1..], c);
      JoinAssociative(cs[0], JoinAll(cs[1..]), c);
    }
  }

  /** One application joins the clocks, whether the operation took effect or was ignored. */
  lemma ApplyJoins(doc: Doc, op: Operation, p: PeerID)
    requires HasData(op)
    ensures Count(ApplyTo(doc, op).vector, p) == Max(Count(doc.vector, p), Count(Stamp(op), p))
  {
    LeqIsPointwise(op.vector, doc.vector);
  }

  /**
   * The clock of a folded document is the join of the start clock and all operation clocks, whatever
   * was ignored on the way and in whatever order it came.
   */
  lemma {:induction false} FoldVectorIsJoin(doc: Doc, ops: seq<Operation>, p: PeerID)
    requires AllHaveData(ops)
    ensures Count(Fold(doc, ops).vector, p) == Count(Join(doc.vector, JoinAll(Stamps(ops))), p)
  {
    if ops != [] {
      var n := |ops| - 1;
      FoldVectorIsJoin(doc, ops[..n], p);
      assert Stamps(ops) == Stamps(ops[..n]) + [Stamp(ops[n])];
      JoinAllSnoc(Stamps(ops[..n]), Stamp(ops[n]));
      ApplyJoins(Fold(doc, ops[..n]), ops[n], p);
    }
  }

  /** Deletion and the timestamp never go back, and the clock only grows. */
  lemma {:induction false} FoldIsMonotone(doc: Doc, ops: seq<Operation>, n: nat)
    requires AllHaveData(ops)
    requires n <= |ops|
    ensures Fold(doc, ops[..n]).deleted ==> Fold(doc, ops).deleted
    ensures Fold(doc, ops[..n]).timestamp <= Fold(doc, ops).timestamp
    ensures Leq(Fold(doc, ops[..n]).vector, Fold(doc, ops).vector)
    decreases |ops|
  {
    if n == |ops| {
      assert ops[..n] == ops;
      LeqIsPointwise(Fold(doc, ops).vector, Fold(doc, ops).vector);
    } else {
      var m := |ops| - 1;
      assert ops[..m][..n] == ops[..n];
      FoldIsMonotone(doc, ops[..m], n);
      var d := Fold(doc, ops[..m]);
      ApplyCovers(d, ops[m]);
      LeqTransitive(Fold(doc, ops[..n]).vector, d.vector, ApplyTo(d, ops[m]).vector);
    }
  }

  /** After an operation, the clock is at least the operation's. */
  lemma ApplyCovers(doc: Doc, op: Operation)
    requires HasData(op)
    ensures Leq(Stamp(op), ApplyTo(doc, op).vector)
    ensures Leq(doc.vector, ApplyTo(doc, op).vector)
  {
    JoinIsLeastUpperBound(doc.vector, op.vector, doc.vector);
    LeqIsPointwise(doc.vector, doc.vector);
  }

  /** Every operation of the list is below the clock from its position on. */
  lemma {:induction false} FoldCovers(doc: Doc, ops: seq<Operation>, i: nat)
    requires AllHaveData(ops)
    requires i < |ops|
    ensures Leq(Stamp(ops[i]), Fold(doc, ops).vector)
  {
    var m := |ops| - 1;
    var before := Fold(doc, ops[..m]);
    ApplyCovers(before, ops[m]);
    if i < m {
      FoldCovers(doc, ops[..m], i);
      LeqTransitive(Stamp(ops[i]), before.vector, Fold(doc, ops).vector);
    }
  }

  /** An operation of the list, delivered again at any later point, changes nothing. */
  lemma FoldIgnoresRedelivery(doc: Doc, ops: seq<Operation>, i: nat)
    requires AllHaveData(ops)
    requires i < |ops|
    ensures ApplyTo(Fold(doc, ops), ops[i]) == Fold(doc, ops)
  {
    FoldCovers(doc, ops, i);
  }
}
