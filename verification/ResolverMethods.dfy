/**
 * The resolver as the code runs it: documents are objects, payloads and clocks are maps held by reference,
 * and merging or applying writes into the maps it was given.
 */
module ResolverMethods {
  import opened Json
  import opened VectorClocks
  import opened Resolver

  class Document {
    var id: string
    var entryType: string
    var payload: FieldMap?
    var vector: VectorClock?
    var timestamp: int
    var peerID: PeerID
    var stage: string
    var deleted: bool

    constructor (id: string, entryType: string, payload: FieldMap?, vector: VectorClock?, timestamp: int,
                 peerID: PeerID, stage: string, deleted: bool)
      ensures this.id == id && this.entryType == entryType && this.payload == payload && this.vector == vector
      ensures this.timestamp == timestamp && this.peerID == peerID && this.stage == stage && this.deleted == deleted
    {
      this.id, this.entryType, this.payload, this.vector := id, entryType, payload, vector;
      this.timestamp, this.peerID, this.stage, this.deleted := timestamp, peerID, stage, deleted;
    }

    /** The document as a value. */
    function Value(): Doc
      reads this, payload, vector
    {
      Doc(id, entryType, FieldsOf(payload), View(vector), timestamp, peerID, stage, deleted)
    }
  }

  function FieldsOf(payload: FieldMap?): Fields
    reads payload
  {
    if payload == null then map[] else payload.fields
  }

  /** An operation as it is passed around: by value, with a pointer to its document and to its clock. */
  datatype OperationRef = OperationRef(
    kind: OperationType,
    documentID: string,
    data: Document?,
    vector: VectorClock?,
    timestamp: int,
    peerID: PeerID)
  {
    function Value(): Operation
      reads data, vector, if data == null then {} else {data.payload, data.vector}
    {
      Operation(kind, documentID, if data == null then None else Some(data.Value()), View(vector), timestamp, peerID)
    }
  }

  function ValueOf(doc: Document?): Option<Doc>
    reads doc, if doc == null then {} else {doc.payload, doc.vector}
  {
    if doc == null then None else Some(doc.Value())
  }

  /** The value says everything that a document holds: two of one value agree part by part. */
  lemma ValueSaysAll(a: Document, b: Document)
    requires a.Value() == b.Value()
    ensures a.id == b.id && a.entryType == b.entryType && a.stage == b.stage && a.deleted == b.deleted
    ensures a.timestamp == b.timestamp && a.peerID == b.peerID
    ensures a.payload != null && b.payload != null ==> a.payload.fields == b.payload.fields
    ensures a.vector != null && b.vector != null ==> a.vector.counts == b.vector.counts
  {
  }

  /** And so does the value of an operation. */
  lemma OperationSaysAll(a: OperationRef, b: OperationRef)
    requires a.Value() == b.Value()
    ensures a.kind == b.kind && a.documentID == b.documentID && a.timestamp == b.timestamp && a.peerID == b.peerID
    ensures (a.data == null <==> b.data == null) && (a.data != null && b.data != null ==> a.data.Value() == b.data.Value())
    ensures a.vector != null && b.vector != null ==> a.vector.counts == b.vector.counts
  {
  }

  // ---------------------------------------------------------------- merging

  /**
   * The result shares the winner's payload map, so the loser's extra fields appear in the winner as well,
   * while the winner's clock stays what it was.
   */
  method MergeDocuments(winner: Document, loser: Document) returns (merged: Document)
    modifies winner.payload
    ensures fresh(merged) && merged.payload != null && fresh(merged.vector)
    ensures merged.Value() == MergeInto(old(winner.Value()), old(loser.Value()))
    ensures if winner.payload == null then fresh(merged.payload) else merged.payload == winner.payload
    ensures View(winner.vector) == old(View(winner.vector))
    ensures winner.payload != null ==> FieldsOf(winner.payload) == old(FieldsOf(loser.payload)) + old(FieldsOf(winner.payload))
  {
    var vector := Merge(winner.vector, loser.vector);
    var theirs := FieldsOf(loser.payload);
    var payload := winner.payload;
    if payload == null {
      payload := new FieldMap(map[]);
    }
    FillMissing(payload, theirs);
    merged := new Document(winner.id, winner.entryType, payload, vector, winner.timestamp,
                           winner.peerID, winner.stage, winner.deleted);
  }

  /** Adds the fields a payload map does not have, one key at a time in any order. */
  method FillMissing(payload: FieldMap, source: Fields)
    modifies payload
    ensures payload.fields == source + old(payload.fields)
  {
    ghost var before := payload.fields;
    var keys := source.Keys;
    while keys != {}
      invariant keys <= source.Keys
      invariant payload.fields.Keys == before.Keys + (source.Keys - keys)
      invariant forall k | k in payload.fields :: payload.fields[k] == if k in before then before[k] else source[k]
    {
      var k :| k in keys;
      if k !in payload.fields {
        payload.fields := payload.fields[k := source[k]];
      }
      keys := keys - {k};
    }
    assert payload.fields == source + before;
  }

  /** The inputs whose payload map a call may write: none, unless both are there, agree on deletion and are concurrent. */
  predicate Merges(local: Document?, remote: Document?)
    reads local, remote, if local == null then {} else {local.payload, local.vector}, if remote == null then {} else {remote.payload, remote.vector}
  {
    && local != null && remote != null
    && local.deleted == remote.deleted
    && Relation(View(local.vector), View(remote.vector)) == Concurrent
  }

  method ResolveConflict(local: Document?, remote: Document?) returns (result: Document?)
    modifies if local == null then {} else {local.payload}, if remote == null then {} else {remote.payload}
    ensures remote == null ==> result == local
    ensures local == null ==> result == remote
    ensures local != null && remote != null ==>
      result != null && result.Value() == Resolve(old(local.Value()), old(remote.Value()))
    ensures old(Merges(local, remote)) ==> fresh(result)
    ensures !old(Merges(local, remote)) ==> (result == local || result == remote)
    ensures !old(Merges(local, remote)) ==> ValueOf(local) == old(ValueOf(local)) && ValueOf(remote) == old(ValueOf(remote))
  {
    if remote == null {
      return local;
    }
    if local == null {
      return remote;
    }
    if remote.deleted && !local.deleted {
      var comp := Compare(local.vector, remote.vector);
      if comp == Before || comp == Concurrent {
        return remote;
      }
      return local;
    }
    if local.deleted && !remote.deleted {
      var comp := Compare(remote.vector, local.vector);
      if comp == Before || comp == Concurrent {
        return local;
      }
      return remote;
    }
    var order := Compare(local.vector, remote.vector);
    match order
    case After => return local;
    case Before => return remote;
    case Equal => return local;
    case Concurrent =>
      if local.timestamp > remote.timestamp {
        result := MergeDocuments(local, remote);
      } else if local.timestamp < remote.timestamp {
        result := MergeDocuments(remote, local);
      } else if !Less(local.peerID, remote.peerID) {
        result := MergeDocuments(local, remote);
      } else {
        result := MergeDocuments(remote, local);
      }
  }

  // ---------------------------------------------------------------- applying

  /**
   * A document that is there is changed in place; one that is not is made from the operation's document
   * and goes on sharing its payload map.
   */
  method ApplyOperation(doc: Document?, op: OperationRef) returns (result: Document?)
    requires Applicable(ValueOf(doc), op.Value())
    modifies doc, if doc == null then {} else {doc.payload}
    ensures ValueOf(result) == Apply(old(ValueOf(doc)), old(op.Value()))
    ensures doc != null ==> result == doc
    ensures doc == null && result != null ==> fresh(result) && op.data != null && result.payload == op.data.payload
    ensures doc != null && doc.payload != old(doc.payload) ==> fresh(doc.payload)
  {
    hide Leq, Join;
    match op.kind
    case Insert => result := ApplyFields(doc, op);
    case Update => result := ApplyFields(doc, op);
    case Delete =>
      if doc == null {
        return null;
      }
      var comp := Compare(doc.vector, op.vector);
      if comp == Before || comp == Concurrent {
        doc.deleted := true;
        TakeClock(doc, op);
      }
      return doc;
    case Other =>
      return doc;
  }

  method ApplyFields(doc: Document?, op: OperationRef) returns (result: Document?)
    requires CarriesFields(op.Value()) && Applicable(ValueOf(doc), op.Value())
    modifies doc, if doc == null then {} else {doc.payload}
    ensures ValueOf(result) == Apply(old(ValueOf(doc)), old(op.Value()))
    ensures doc != null ==> result == doc
    ensures doc == null && result != null ==> fresh(result) && op.data != null && result.payload == op.data.payload
    ensures doc != null && doc.payload != old(doc.payload) ==> fresh(doc.payload)
  {
    hide Leq, Join;
    if doc == null {
      if op.data == null {
        return null;
      }
      var vector := Clone(op.vector);
      result := new Document(op.data.id, op.data.entryType, op.data.payload, vector, op.timestamp,
                             op.peerID, op.data.stage, op.data.deleted);
      return;
    }
    var comp := Compare(doc.vector, op.vector);
    if comp == Before || comp == Concurrent {
      TakeFields(doc, op);
      TakeClock(doc, op);
    }
    return doc;
  }

  method TakeFields(doc: Document, op: OperationRef)
    requires op.data != null
    modifies doc`payload, doc.payload
    ensures doc.Value() == old(doc.Value()).(payload := old(FieldsOf(doc.payload)) + old(FieldsOf(op.data.payload)))
    ensures doc.payload != old(doc.payload) ==> fresh(doc.payload)
  {
    if doc.payload == null {
      doc.payload := new FieldMap(map[]);
    }
    Overlay(doc.payload, FieldsOf(op.data.payload));
  }

  /** Joins the operation's clock into a new clock of the document and keeps the later timestamp. */
  method TakeClock(doc: Document, op: OperationRef)
    modifies doc`vector, doc`timestamp
    ensures doc.Value() == old(doc.Value()).(
      vector := Join(old(View(doc.vector)), old(View(op.vector))),
      timestamp := if op.timestamp > old(doc.timestamp) then op.timestamp else old(doc.timestamp))
  {
    doc.vector := Merge(doc.vector, op.vector);
    if op.timestamp > doc.timestamp {
      doc.timestamp := op.timestamp;
    }
  }

  /** Writes fields over a payload map, one key at a time in any order. */
  method Overlay(payload: FieldMap, source: Fields)
    modifies payload
    ensures payload.fields == old(payload.fields) + source
  {
    ghost var before := payload.fields;
    var keys := source.Keys;
    while keys != {}
      invariant keys <= source.Keys
      invariant payload.fields.Keys == before.Keys + (source.Keys - keys)
      invariant forall k | k in payload.fields ::
        payload.fields[k] == if k in source && k !in keys then source[k] else before[k]
    {
      var k :| k in keys;
      payload.fields := payload.fields[k := source[k]];
      keys := keys - {k};
    }
    assert payload.fields == before + source;
  }

  // ---------------------------------------------------------------- conversions

  /** A copy of a payload map, key by key; nil stays nil. */
  method CloneMap(src: FieldMap?) returns (dst: FieldMap?)
    ensures src == null <==> dst == null
    ensures dst != null ==> fresh(dst)
    ensures FieldsOf(dst) == FieldsOf(src)
  {
    if src == null {
      return null;
    }
    var copy := new FieldMap(map[]);
    var keys := src.fields.Keys;
    while keys != {}
      invariant keys <= src.fields.Keys
      invariant fresh(copy) && copy.fields.Keys == src.fields.Keys - keys
      invariant forall k | k in copy.fields :: copy.fields[k] == src.fields[k]
    {
      var k :| k in keys;
      copy.fields := copy.fields[k := src.fields[k]];
      keys := keys - {k};
    }
    return copy;
  }

  /** A stored map as a document of its own, with the clock {peerID: 1}; a map without a text id is a caller's error. */
  method ToDistributedDocument(payload: FieldMap, peerID: PeerID, now: int) returns (doc: Document)
    requires HasID(payload.fields)
    ensures fresh(doc) && fresh(doc.payload) && fresh(doc.vector)
    ensures doc.Value() == ToDistributed(payload.fields, payload.fields["id"].text, peerID, now)
    ensures payload.fields["id"] == Str(doc.id) && doc.payload.fields == payload.fields && doc.vector.counts == map[peerID := 1]
    ensures doc.timestamp == now && doc.peerID == peerID && doc.entryType == "" && doc.stage == "" && !doc.deleted
  {
    var v := NewVectorClock();
    v.counts := v.counts[peerID := 1];
    var copy := CloneMap(payload);
    doc := new Document(payload.fields["id"].text, "", copy, v, now, peerID, "", false);
  }

  method ToRegular(doc: Document?) returns (regular: FieldMap?)
    ensures doc == null ==> regular == null
    ensures doc != null ==> FieldsOf(regular) == FieldsOf(doc.payload) && (regular != null ==> fresh(regular))
  {
    if doc == null {
      return null;
    }
    regular := CloneMap(doc.payload);
  }
}
