/**
 * One peer's collection as the code keeps it: a clock object that is counted up in place, a log whose
 * entries hold their own clock objects, and the local store.
 */
module DistributedCollection {
  import opened Json
  import opened Changes
  import opened Sequences
  import opened VectorClocks
  import opened Resolver
  import opened ResolverMethods
  import opened Replication

  datatype Result<+T> = Ok(value: T) | Err(message: string)

  /** A logged operation: its document never changes again, its clock is an object. */
  datatype LogEntry = LogEntry(
    kind: OperationType,
    documentID: string,
    data: Doc,
    vector: VectorClock?,
    timestamp: int,
    peerID: PeerID)
  {
    function Value(): Operation
      reads vector
    {
      Operation(kind, documentID, Some(data), View(vector), timestamp, peerID)
    }
  }

  function LogValue(log: seq<LogEntry>): (ops: seq<Operation>)
    reads set e | e in log :: e.vector
    ensures |ops| == |log|
    ensures forall i | 0 <= i < |ops| :: ops[i] == log[i].Value()
  {
    if log == [] then [] else LogValue(log[..|log| - 1]) + [log[|log| - 1].Value()]
  }

  lemma LogValueSnoc(log: seq<LogEntry>, e: LogEntry)
    ensures LogValue(log + [e]) == LogValue(log) + [e.Value()]
  {
  }

  lemma LogValueDrop(log: seq<LogEntry>, n: nat)
    requires n <= |log|
    ensures LogValue(log[n..]) == LogValue(log)[n..]
  {
  }

  /** The local collection over the storage, which keeps copies of what it is given. */
  class LocalCollection {
    var store: Store
    /** What was written and deleted. */
    ghost var changes: seq<Change>

    constructor ()
      ensures store == map[] && changes == []
    {
      store := map[];
      changes := [];
    }

    /** `written` says whether the storage took the document. */
    method Insert(doc: FieldMap, written: bool) returns (result: Result<FieldMap>)
      requires HasID(doc.fields)
      modifies this
      ensures result.Ok? <==> written
      ensures result.Ok? ==> store == Put(old(store), doc.fields) && fresh(result.value) && result.value.fields == doc.fields
      ensures result.Ok? ==> changes == old(changes) + [Write(doc.fields["id"].text, doc.fields)]
      ensures result.Err? ==> store == old(store) && changes == old(changes)
    {
      if !written {
        return Err("storage");
      }
      store := store[doc.fields["id"].text := doc.fields];
      changes := changes + [Write(doc.fields["id"].text, doc.fields)];
      var inserted := new FieldMap(doc.fields);
      return Ok(inserted);
    }

    /** `removed` says whether the storage could drop the document; the count is 1 whether or not there was one. */
    method Delete(id: string, removed: bool) returns (result: Result<nat>)
      modifies this
      ensures result == if removed then Ok(1) else Err("storage")
      ensures store == if removed then old(store) - {id} else old(store)
      ensures changes == old(changes) + if removed then [Erase(id)] else []
    {
      if !removed {
        return Err("storage");
      }
      store := store - {id};
      changes := changes + [Erase(id)];
      return Ok(1);
    }

    method Find(id: string) returns (doc: FieldMap?)
      ensures doc == null <==> id !in store
      ensures doc != null ==> fresh(doc) && doc.fields == store[id]
    {
      if id !in store {
        return null;
      }
      doc := new FieldMap(store[id]);
    }
  }

  class DistributedCollection {
    const peerID: PeerID
    const local: LocalCollection
    var attached: bool
    var localVector: VectorClock?
    var operationLog: seq<LogEntry>
    var syncInProgress: bool
    /** The messages given to the network, as the values that were encoded. */
    var sent: seq<Message>

    /** No logged clock is the clock that local operations count up in place. */
    ghost predicate Valid()
      reads this, local
    {
      && Filed(local.store)
      && forall e | e in operationLog :: e.vector != null && e.vector != localVector
    }

    /** The collection as the value that the protocol speaks about. */
    ghost function State(): PeerState
      reads this, local, localVector, set e | e in operationLog :: e.vector
    {
      PeerState(View(localVector), LogValue(operationLog), local.store, syncInProgress)
    }

    constructor (peerID: PeerID)
      ensures Valid() && fresh(local) && !attached && sent == []
      ensures State() == PeerState(map[], [], map[], false) && this.peerID == peerID
    {
      this.peerID := peerID;
      this.local := new LocalCollection();
      this.attached := false;
      this.localVector := null;
      this.operationLog := [];
      this.syncInProgress := false;
      this.sent := [];
    }

    /**
     * Attaching starts from an empty clock, whatever the log holds, and asks the others for what they have.
     * `added` says whether the network took the collection.
     */
    method AttachToNetwork(added: bool) returns (result: Result<()>)
      requires Valid()
      modifies this
      ensures Valid() && local.store == old(local.store) && operationLog == old(operationLog)
      ensures result.Ok? <==> !old(attached) && added
      ensures result.Err? ==> attached == old(attached) && State() == old(State()) && sent == old(sent)
      ensures result.Ok? ==> attached && fresh(localVector) && View(localVector) == map[]
      ensures result.Ok? ==> syncInProgress && sent == old(sent) + [Request(peerID, map[])]
    {
      if attached {
        return Err("already attached");
      }
      if !added {
        return Err("network");
      }
      attached := true;
      localVector := NewVectorClock();
      syncInProgress := false;
      result := this.RequestSync();
    }

    method DetachFromNetwork()
      requires Valid()
      modifies this
      ensures Valid() && !attached && operationLog == old(operationLog) && local.store == old(local.store) && sent == old(sent)
    {
      if attached {
        localVector := null;
        syncInProgress := false;
        attached := false;
      }
    }

    method GetCurrentVector() returns (vector: VectorClock)
      requires Valid()
      ensures fresh(vector) && View(vector) == if attached then View(localVector) else map[]
    {
      if !attached {
        vector := NewVectorClock();
        return;
      }
      var copy := Clone(localVector);
      if copy == null {
        vector := NewVectorClock();
      } else {
        vector := copy;
      }
    }

    /** Logs the operation, forgets the oldest beyond the limit, counts it in place, and announces it. */
    method BroadcastOperation(op: LogEntry)
      requires Valid() && op.vector != null && op.vector != localVector
      modifies this, localVector
      ensures Valid() && attached == old(attached) && local.store == old(local.store)
      ensures !attached ==> State() == old(State()) && sent == old(sent)
      ensures attached ==> State() == Log(old(State()), peerID, old(op.Value()))
      ensures attached ==> sent == old(sent) + [Announce(old(op.Value()))]
      ensures attached && old(localVector) == null ==> fresh(localVector)
      ensures !attached || old(localVector) != null ==> localVector == old(localVector)
    {
      hide LogValue, Prune, Filed;
      if !attached {
        return;
      }
      AppendToLog(op);
      localVector := Increment(localVector, peerID);
      sent := sent + [Announce(op.Value())];
    }

    method AppendToLog(op: LogEntry)
      requires Valid() && op.vector != null && op.vector != localVector
      modifies this`operationLog
      ensures Valid()
      ensures LogValue(operationLog) == Prune(old(LogValue(operationLog)) + [op.Value()])
      ensures forall e | e in operationLog :: e == op || e in old(operationLog)
    {
      hide Prune, Filed, LogValue;
      LogValueSnoc(operationLog, op);
      operationLog := operationLog + [op];
      PruneOperationLog();
    }

    /** The newest ten thousand entries stay. */
    method PruneOperationLog()
      modifies this`operationLog
      ensures LogValue(operationLog) == Prune(old(LogValue(operationLog)))
      ensures |operationLog| <= |old(operationLog)|
      ensures operationLog == old(operationLog)[|old(operationLog)| - |operationLog|..]
      ensures |operationLog| == if |old(operationLog)| < 10000 then |old(operationLog)| else 10000
      ensures forall e | e in operationLog :: e in old(operationLog)
    {
      hide LogValue;
      if |operationLog| > MAX_LOG_SIZE {
        LogValueDrop(operationLog, |operationLog| - MAX_LOG_SIZE);
        operationLog := operationLog[|operationLog| - MAX_LOG_SIZE..];
      }
    }

    // -------------------------------------------------------------- local operations

    /** The operation to announce; its clock is a copy taken before the operation is counted. */
    method DescribeInsert(inserted: FieldMap, now: int) returns (op: LogEntry)
      requires Valid() && attached && HasID(inserted.fields)
      ensures fresh(op.vector) && op.Value() == InsertOperation(peerID, State().vector, inserted.fields, now)
    {
      hide LogValue, Filed;
      var dist := ToDistributedDocument(inserted, peerID, now);
      var vector := GetCurrentVector();
      op := LogEntry(OperationType.Insert, dist.id, dist.Value(), vector, now, peerID);
    }

    /** A document without a text id, or one the storage does not take, is refused and changes nothing. */
    method Insert(doc: FieldMap, now: int, written: bool) returns (result: Result<FieldMap>)
      requires Valid()
      modifies this, local, localVector
      ensures Valid() && attached == old(attached)
      ensures result.Ok? <==> HasID(old(doc.fields)) && written
      ensures result.Ok? <==> written && exists id :: "id" in old(doc.fields) && old(doc.fields)["id"] == Str(id)
      ensures result.Err? ==> State() == old(State()) && sent == old(sent) && local.changes == old(local.changes)
      ensures result.Ok? ==> local.changes == old(local.changes) + [Write(old(doc.fields["id"].text), old(doc.fields))]
      ensures result.Ok? && !attached ==>
        local.store == Put(old(local.store), old(doc.fields)) && operationLog == old(operationLog) && sent == old(sent)
      ensures result.Ok? && attached ==> State() == InsertLocally(old(State()), peerID, old(doc.fields), now)
      ensures result.Ok? && attached ==>
        sent == old(sent) + [Announce(InsertOperation(peerID, old(State().vector), old(doc.fields), now))]
      ensures result.Ok? && attached ==>
        var op := sent[|sent| - 1].op;
        && op.kind == OperationType.Insert && op.timestamp == now && op.peerID == peerID && op.vector == old(State().vector)
        && op.documentID == old(doc.fields["id"].text) && op.data.Some?
        && op.data.value.payload == old(doc.fields) && op.data.value.timestamp == now && op.data.value.peerID == peerID
        && op.data.value.vector == map[peerID := 1] && op.data.value.id == op.documentID && !op.data.value.deleted
    {
      if !HasID(doc.fields) {
        return Err("document must contain 'id'");
      }
      assert doc.fields["id"] == Str(doc.fields["id"].text);
      hide LogValue, Filed, Prune;
      result := local.Insert(doc, written);
      if result.Err? {
        return;
      }
      if attached {
        var op := DescribeInsert(result.value, now);
        BroadcastOperation(op);
      }
    }

    method Delete(id: string, now: int, removed: bool) returns (result: Result<nat>)
      requires Valid()
      modifies this, local, localVector
      ensures Valid() && attached == old(attached)
      ensures result == if removed then Ok(1) else Err("storage")
      ensures !removed ==> State() == old(State()) && sent == old(sent)
      ensures local.changes == old(local.changes) + if removed then [Erase(id)] else []
      ensures removed && !attached ==> local.store == old(local.store) - {id} && operationLog == old(operationLog) && sent == old(sent)
      ensures removed && attached ==> State() == DeleteLocally(old(State()), peerID, id, now)
      ensures removed && attached ==> sent == old(sent) + [Announce(DeleteOperation(peerID, old(State().vector), id, now))]
      ensures removed && attached ==>
        var op := sent[|sent| - 1].op;
        && op.kind == OperationType.Delete && op.timestamp == now && op.peerID == peerID && op.vector == old(State().vector)
        && op.documentID == id
    {
      ghost var before := State();
      result := local.Delete(id, removed);
      if result.Err? {
        return;
      }
      if attached && result.value > 0 {
        var vector := GetCurrentVector();
        var op := LogEntry(OperationType.Delete, id, Doc(id, "", map[], map[], 0, "", "", true), vector, now, peerID);
        assert op.Value() == DeleteOperation(peerID, before.vector, id, now);
        BroadcastOperation(op);
      }
    }

    // -------------------------------------------------------------- remote operations

    /** A detached collection still stores what arrives, but keeps no clock. */
    static ghost function Counted(attached: bool, before: PeerState, after: PeerState): PeerState {
      if attached then after else before.(store := after.store)
    }

    /** The stored document, the operation applied to it, the result stored, the clocks joined into a new clock. */
    method HandleRemoteOperation(op: OperationRef, now: int)
      requires Valid() && Sound(op.Value())
      modifies this, local
      ensures Valid() && attached == old(attached)
      ensures if attached then fresh(localVector) else localVector == old(localVector)
      ensures State() == Counted(attached, old(State()), Receive(old(State()), old(op.Value()), now))
      ensures local.changes == old(local.changes) + [ReceivedChange(old(local.store), old(op.Value()), now)]
      ensures sent == old(sent) && operationLog == old(operationLog)
    {
      hide LogValue, Filed, Sound, Join, ReceiveIntoStore;
      ReceiveLocally(op, now);
      if attached {
        localVector := Merge(localVector, op.vector);
      }
    }

    method ReceiveLocally(op: OperationRef, now: int)
      requires Filed(local.store) && Sound(op.Value())
      modifies local
      ensures Filed(local.store) && local.store == ReceiveIntoStore(old(local.store), op.Value(), now)
      ensures local.changes == old(local.changes) + [ReceivedChange(old(local.store), op.Value(), now)]
    {
      hide Filed, Merged, Sound, HasID, Put;
      var result := ApplyToStored(op, now);
      MergedHasID(local.store, op.Value(), now);
      StoreResult(op.documentID, result);
      ReceiveKeepsFiled(old(local.store), op.Value(), now);
    }

    /** Reads the stored document, gives it a clock, and applies the operation to that document. */
    method ApplyToStored(op: OperationRef, now: int) returns (result: Document?)
      requires Filed(local.store) && Sound(op.Value())
      ensures ValueOf(result) == Merged(local.store, op.Value(), now)
    {
      hide Apply;
      var existing := local.Find(op.documentID);
      var existingDist: Document? := null;
      if existing != null {
        existingDist := ToDistributedDocument(existing, op.peerID, now);
      }
      result := ApplyOperation(existingDist, op);
    }

    method StoreResult(id: string, result: Document?)
      requires result != null && !result.deleted ==> HasID(FieldsOf(result.payload))
      modifies local
      ensures local.store == if result == null || result.deleted then old(local.store) - {id} else Put(old(local.store), FieldsOf(result.payload))
      ensures local.changes == old(local.changes) + [if result == null || result.deleted then Erase(id)
                                                     else Write(FieldsOf(result.payload)["id"].text, FieldsOf(result.payload))]
    {
      if result == null {
        var _ := local.Delete(id, true);
      } else if result.deleted {
        var _ := local.Delete(id, true);
      } else {
        var regular := ToRegular(result);
        var _ := local.Insert(regular, true);
      }
    }

    /** Sends the logged operations that the requester's clock does not count, in log order. */
    method HandleSyncRequest(sender: PeerID, remote: Counts) returns (missing: seq<LogEntry>)
      requires Valid() && attached
      modifies this`sent
      ensures LogValue(missing) == Missing(LogValue(operationLog), remote)
      ensures sent == old(sent) + [Response(sender, Missing(old(LogValue(operationLog)), remote))]
    {
      hide LogValue, Missing, Valid;
      missing := [];
      MissingOfNothing(remote);
      for i := 0 to |operationLog|
        invariant LogValue(missing) == Missing(LogValue(operationLog[..i]), remote) && sent == old(sent)
      {
        var op := operationLog[i];
        var newer := IsNewer(op, remote);
        MissingOneMore(operationLog[..i], op, remote);
        TakeOneMore(operationLog, i);
        if newer {
          LogValueSnoc(missing, op);
          missing := missing + [op];
        }
      }
      TakeAll(operationLog);
      sent := sent + [Response(sender, LogValue(missing))];
    }

    static method IsNewer(op: LogEntry, remote: Counts) returns (newer: bool)
      ensures newer <==> OwnCounter(op.Value()) > Count(remote, op.peerID)
    {
      var remoteClock := if op.peerID in remote then remote[op.peerID] else 0;
      var counts := View(op.vector);
      var opClock := if op.peerID in counts then counts[op.peerID] else 0;
      newer := opClock > remoteClock;
    }

    static lemma CountedOneMore(attached: bool, before: PeerState, s: PeerState, ops: seq<Operation>, i: nat, now: int)
      requires AllSound(ops) && Filed(before.store) && i < |ops|
      requires s == Counted(attached, before, ReceiveAll(before, ops[..i], now))
      ensures Sound(ops[i]) && Filed(s.store)
      ensures Counted(attached, s, Receive(s, ops[i], now)) == Counted(attached, before, ReceiveAll(before, ops[..i + 1], now))
      ensures ReceivedChanges(before, ops[..i + 1], now)
           == ReceivedChanges(before, ops[..i], now) + [ReceivedChange(s.store, ops[i], now)]
    {
      ReceiveOneMore(before, ops, i, now);
      hide Receive, ReceiveAll, ReceivedChanges, ReceivedChange, Sound, Filed;
      StoreDependsOnStore(s, ReceiveAll(before, ops[..i], now), ops[i], now);
    }

    static lemma CountedToTheEnd(attached: bool, before: PeerState, after: PeerState)
      ensures Counted(attached, before, after.(syncing := false))
           == if attached then Counted(attached, before, after).(syncing := false) else Counted(attached, before, after)
      ensures Counted(attached, before, before) == before
    {
    }

    /** Takes in the operations of an answer one after the other; the clock of the answer itself is not used. */
    method HandleSyncResponse(ops: seq<OperationRef>, now: int, ghost values: seq<Operation>)
      requires Valid()
      requires |values| == |ops| && forall i | 0 <= i < |ops| :: ops[i].Value() == values[i]
      requires AllSound(values)
      modifies this, local
      ensures Valid() && attached == old(attached)
      ensures State() == Counted(attached, old(State()), ReceiveAll(old(State()), values, now).(syncing := false))
      ensures local.changes == old(local.changes) + ReceivedChanges(old(State()), values, now)
      ensures sent == old(sent) && operationLog == old(operationLog)
    {
      hide LogValue, Receive, ReceiveAll, ReceivedChanges, ReceivedChange, Sound, Filed, Counted;
      ghost var before := State();
      ReceiveNothing(before, values, now);
      CountedToTheEnd(attached, before, before);
      for i := 0 to |ops|
        invariant Valid() && attached == old(attached) && operationLog == old(operationLog) && sent == old(sent)
        invariant localVector == old(localVector) || fresh(localVector)
        invariant forall j | 0 <= j < |ops| :: ops[j].Value() == values[j]
        invariant State() == Counted(attached, before, ReceiveAll(before, values[..i], now))
        invariant local.changes == old(local.changes) + ReceivedChanges(before, values[..i], now)
      {
        CountedOneMore(attached, before, State(), values, i, now);
        HandleRemoteOperation(ops[i], now);
      }
      TakeAll(values);
      CountedToTheEnd(attached, before, ReceiveAll(before, values, now));
      if attached {
        syncInProgress := false;
      }
    }

    /** Sends the current clock, unless a request is in progress or the collection is not attached. */
    method RequestSync() returns (result: Result<()>)
      requires Valid()
      modifies this`syncInProgress, this`sent
      ensures Valid()
      ensures result.Ok? <==> attached
      ensures State() == old(State()).(syncing := attached || old(syncInProgress))
      ensures sent == old(sent) + if attached && !old(syncInProgress) then [Request(peerID, View(localVector))] else []
    {
      if !attached {
        return Err("not attached to network");
      }
      if syncInProgress {
        return Ok(());
      }
      syncInProgress := true;
      sent := sent + [Request(peerID, View(localVector))];
      return Ok(());
    }
  }

  lemma ReceiveNothing(s: PeerState, ops: seq<Operation>, now: int)
    requires AllSound(ops) && Filed(s.store)
    ensures ReceiveAll(s, ops[..0], now) == s && ReceivedChanges(s, ops[..0], now) == []
  {
  }

  lemma ReceiveOneMore(s: PeerState, ops: seq<Operation>, i: nat, now: int)
    requires AllSound(ops) && Filed(s.store) && i < |ops|
    ensures AllSound(ops[..i]) && AllSound(ops[..i + 1]) && Sound(ops[i])
    ensures ReceiveAll(s, ops[..i + 1], now) == Receive(ReceiveAll(s, ops[..i], now), ops[i], now)
    ensures ReceivedChanges(s, ops[..i + 1], now)
         == ReceivedChanges(s, ops[..i], now) + [ReceivedChange(ReceiveAll(s, ops[..i], now).store, ops[i], now)]
  {
    TakeOneMore(ops, i);
    hide Receive, Sound, Filed, ReceivedChange;
  }

  lemma StoreDependsOnStore(s: PeerState, t: PeerState, op: Operation, now: int)
    requires Sound(op) && Filed(s.store) && s.store == t.store
    ensures Receive(s, op, now).store == Receive(t, op, now).store
  {
  }

  lemma MergedHasID(store: Store, op: Operation, now: int)
    requires Sound(op) && Filed(store)
    ensures Merged(store, op, now).Some? && !Merged(store, op, now).value.deleted ==>
      HasID(Merged(store, op, now).value.payload) && Merged(store, op, now).value.payload["id"].text == op.documentID
    ensures Merged(store, op, now).Some? && !Merged(store, op, now).value.deleted ==> HasID(Merged(store, op, now).value.payload)
  {
  }

  lemma MissingOfNothing(remote: Counts)
    ensures LogValue([]) == [] && Missing(LogValue([]), remote) == []
    ensures forall log: seq<LogEntry> :: log[..0] == []
  {
  }

  lemma MissingOneMore(log: seq<LogEntry>, e: LogEntry, remote: Counts)
    ensures Missing(LogValue(log + [e]), remote) == Missing(LogValue(log), remote)
      + (if OwnCounter(e.Value()) > Count(remote, e.peerID) then [e.Value()] else [])
  {
    LogValueSnoc(log, e);
    SnocFront(LogValue(log), e.Value());
  }

  lemma TakeOneMore<T>(s: seq<T>, i: nat)
    requires i < |s|
    ensures s[..i + 1] == s[..i] + [s[i]] && s[..i + 1][..i] == s[..i]
  {
  }

  lemma TakeAll<T>(s: seq<T>)
    ensures s[..|s|] == s
  {
  }
}
