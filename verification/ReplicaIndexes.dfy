/**
 * Replication over the file storage: what the operations on a peer's timeline write and delete there, and so when
 * an index of the replicated collection stays exact.
 */
module ReplicaIndexes {
  import opened Json
  import opened Sequences
  import opened Changes
  import opened Postings
  import opened Tokens
  import opened SecondaryIndex
  import Executor
  import opened IndexedRuns
  import opened FileStore
  import opened StoredRuns
  import opened VectorClocks
  import opened Resolver
  import opened Replication
  import opened Causality
  import opened Timelines

  // ---------------------------------------------------------------- one operation

  /**
   * What an operation makes its holder write or delete, where it has this copy of the document. A remote operation
   * always does one of the two, even where the resolver ignores it.
   */
  function ChangeOf(q: PeerID, copy: Option<Fields>, op: Operation): Change
    requires Sound(op)
  {
    if op.peerID == q then
      (if CarriesFields(op) then Write(op.documentID, op.data.value.payload) else Erase(op.documentID))
    else if RemoteEffect(copy, op).Some? then Write(op.documentID, RemoteEffect(copy, op).value)
    else Erase(op.documentID)
  }

  /** It is what the protocol step writes or deletes. */
  lemma ReceivedIsChangeOf(q: PeerID, store: Store, op: Operation, now: int)
    requires Sound(op) && Filed(store) && op.peerID != q
    ensures ReceivedChange(store, op, now) == ChangeOf(q, Lookup(store, op.documentID), op)
    ensures ReceiveIntoStore(store, op, now) == Changed(store, ReceivedChange(store, op, now))
  {
    ReceiveTouchesOneDocument(store, op, now, op.documentID);
  }

  /** The changes along a timeline. */
  function ChangesOf(q: PeerID, timeline: seq<Operation>): seq<Change> {
    if timeline == [] then []
    else
      var front, op := Front(timeline), Last(timeline);
      if Sound(op) then ChangesOf(q, front) + [ChangeOf(q, Replay(q, front, op.documentID), op)] else ChangesOf(q, front)
  }

  predicate Live(timeline: seq<Operation>) {
    forall i | 0 <= i < |timeline| :: Sound(timeline[i]) && IssuesLive(timeline[i]) && timeline[i].kind != OperationType.Other
  }

  lemma LiveFront(timeline: seq<Operation>)
    requires Live(timeline) && timeline != []
    ensures Live(Front(timeline)) && Sound(Last(timeline)) && IssuesLive(Last(timeline)) && Last(timeline).kind != OperationType.Other
  {
  }

  lemma ChangeLeaves(q: PeerID, docs: Store, op: Operation, id: string)
    requires Sound(op) && IssuesLive(op) && op.kind != OperationType.Other
    ensures var copy := Lookup(docs, op.documentID);
      Lookup(Changed(docs, ChangeOf(q, copy, op)), id)
      == if op.documentID != id then Lookup(docs, id) else if op.peerID == q then OwnerEffect(copy, op) else RemoteEffect(copy, op)
  {
    hide RemoteEffect;
  }

  /** The changes leave the documents that the timeline leaves. */
  lemma {:induction false} ChangesReplay(q: PeerID, timeline: seq<Operation>, id: string)
    requires Live(timeline)
    ensures Lookup(DocumentsAfter(ChangesOf(q, timeline)), id) == Replay(q, timeline, id)
  {
    hide Live, Sound, Stale, ChangeOf, Changed, OwnerEffect, RemoteEffect;
    if timeline == [] {
      assert DocumentsAfter([]) == map[];
    } else {
      LiveFront(timeline);
      var front, op := Front(timeline), Last(timeline);
      ChangesReplay(q, front, id);
      ChangesReplay(q, front, op.documentID);
      DocumentsOneMore(ChangesOf(q, front), ChangeOf(q, Replay(q, front, op.documentID), op));
      ChangeLeaves(q, DocumentsAfter(ChangesOf(q, front)), op, id);
    }
  }

  // ---------------------------------------------------------------- when nothing is overwritten

  /** Each operation found no copy of its document, or dropped the one it found. */
  predicate KeptClear(q: PeerID, timeline: seq<Operation>) {
    forall k | 0 <= k < |timeline| :: FindsClear(q, timeline, k)
  }

  predicate FindsClear(q: PeerID, timeline: seq<Operation>, k: nat)
    requires k < |timeline|
  {
    var op := timeline[k];
    Replay(q, timeline[..k], op.documentID).None? || (op.kind == Delete && (op.peerID == q || !Stale(op)))
  }

  lemma KeptClearOneMore(q: PeerID, timeline: seq<Operation>)
    requires timeline != []
    ensures KeptClear(q, timeline) <==> KeptClear(q, Front(timeline)) && FindsClear(q, timeline, |timeline| - 1)
  {
    var front := Front(timeline);
    forall k | 0 <= k < |front| ensures FindsClear(q, front, k) <==> FindsClear(q, timeline, k) {
      assert front[..k] == timeline[..k];
    }
  }

  lemma {:induction false} NeverOverwritesIff(q: PeerID, timeline: seq<Operation>)
    requires Live(timeline)
    ensures NeverOverwrites(ChangesOf(q, timeline)) <==> KeptClear(q, timeline)
  {
    if timeline != [] {
      LiveFront(timeline);
      KeptClearOneMore(q, timeline);
      var front, op := Front(timeline), Last(timeline);
      NeverOverwritesIff(q, front);
      ChangesReplay(q, front, op.documentID);
      SnocFront(ChangesOf(q, front), ChangeOf(q, Replay(q, front, op.documentID), op));
      hide DocumentsAfter, Sound, Stale, Replay, KeptClear;
    }
  }

  /** Where nothing is overwritten, a deletion lies between any two writes of a document: no write is taken in twice. */
  lemma {:induction false} WritesAreApart(q: PeerID, timeline: seq<Operation>, i: nat, j: nat)
    requires Live(timeline) && KeptClear(q, timeline) && i < j < |timeline|
    requires CarriesFields(timeline[i]) && CarriesFields(timeline[j]) && timeline[i].documentID == timeline[j].documentID
    ensures exists k | i < k < j :: timeline[k].kind == Delete && timeline[k].documentID == timeline[i].documentID
  {
    assert FindsClear(q, timeline, j);
    if forall k | i < k < j :: !(timeline[k].kind == Delete && timeline[k].documentID == timeline[i].documentID) {
      StaysThere(q, timeline, i, j);
      assert false;
    }
  }

  lemma {:induction false} StaysThere(q: PeerID, timeline: seq<Operation>, i: nat, j: nat)
    requires Live(timeline) && KeptClear(q, timeline) && i < j <= |timeline| && CarriesFields(timeline[i])
    requires forall k | i < k < j :: !(timeline[k].kind == Delete && timeline[k].documentID == timeline[i].documentID)
    ensures Replay(q, timeline[..j], timeline[i].documentID).Some?
  {
    var id, op := timeline[i].documentID, timeline[j - 1];
    assert timeline[..j] == timeline[..j - 1] + [op];
    ReplayOneMore(q, timeline[..j - 1], op, id);
    if j == i + 1 {
      assert FindsClear(q, timeline, i);
    } else {
      StaysThere(q, timeline, i, j - 1);
    }
    hide Stale;
  }

  // ---------------------------------------------------------------- in every run

  /** In every run the changes along a peer's timeline leave its store. */
  lemma ChangesLeaveStore(sys: System, q: PeerID)
    requires Reached(sys) && q in sys.peers
    ensures SameDomains(sys) && Live(sys.timeline[q])
    ensures DocumentsAfter(ChangesOf(q, sys.timeline[q])) == sys.peers[q].store
  {
    hide Reached, Sound, IssuesLive, ChangesOf, DocumentsAfter, Replay, TimelineWell;
    StoreIsReplay(sys, q, "");
    forall i | 0 <= i < |sys.timeline[q]|
      ensures Sound(sys.timeline[q][i]) && IssuesLive(sys.timeline[q][i]) && sys.timeline[q][i].kind != OperationType.Other
    {
      TimelineIsGenuine(sys, q, sys.timeline[q][i]);
    }
    var docs, store := DocumentsAfter(ChangesOf(q, sys.timeline[q])), sys.peers[q].store;
    forall id: string ensures Lookup(docs, id) == Lookup(store, id) {
      StoreIsReplay(sys, q, id);
      ChangesReplay(q, sys.timeline[q], id);
    }
    hide *;
    SameStore(docs, store);
  }

  lemma SameStore(a: Store, b: Store)
    requires forall id: string :: Lookup(a, id) == Lookup(b, id)
    ensures a == b
  {
    forall id | id in a ensures id in b && a[id] == b[id] { assert Lookup(a, id) == Lookup(b, id); }
    forall id | id in b ensures id in a { assert Lookup(a, id) == Lookup(b, id); }
  }

  /**
   * In every run: the lists of a one-field index of a replicated collection, created before the data, have been
   * exact throughout exactly when no operation found a copy that it did not drop.
   */
  lemma ReplicaListsAreExactIff(sys: System, q: PeerID, lib: Library, field: string)
    requires Reached(sys) && q in sys.peers
    ensures SameDomains(sys)
    ensures ExactAlways(false, Told(lib, field, ChangesOf(q, sys.timeline[q]))) <==> KeptClear(q, sys.timeline[q])
  {
    hide Reached, Told, ChangesOf, KeptClear, Live;
    ChangesLeaveStore(sys, q);
    ListsAreExactIff(lib, field, ChangesOf(q, sys.timeline[q]));
    NeverOverwritesIff(q, sys.timeline[q]);
  }

  /** The same with the storage: its index holds the peer's documents as rows, and is clean exactly then. */
  lemma ReplicatedFollower(storage: FileStorage, idx: Index, sys: System, q: PeerID, listing: seq<string>)
    requires storage.Valid() && Follower(storage, idx) && !idx.unique
    requires Reached(sys) && q in sys.peers && q in sys.timeline
    requires Of(storage.changes, idx.collection) == ChangesOf(q, sys.timeline[q])
    ensures Executor.Indexed(storage.index.lib, idx.fields[0], Executor.Store(listing, sys.peers[q].store), idx.Live())
    ensures CleanAlways(idx.ListsAreUnique(), idx.history) <==> KeptClear(q, sys.timeline[q])
  {
    hide Reached, Told, ChangesOf, KeptClear, Executor.Indexed, CleanAlways, FilesFollow;
    ChangesLeaveStore(sys, q);
    FollowerIsIndexed(storage, idx, listing);
    NeverOverwritesIff(q, sys.timeline[q]);
  }
}
