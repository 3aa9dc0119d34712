/**
 * Replication of documents that one peer writes: when the copies at the other peers follow the owner's store.
 */
module SingleOwner {
  import opened Json
  import opened VectorClocks
  import opened Resolver
  import opened Replication
  import opened Causality
  import opened CausalClocks
  import opened Timelines

  // ---------------------------------------------------------------- one document

  /**
   * The condition on the owner's side, checkable when the operation is issued: on an existing document,
   * a stale operation must not be a deletion or bring other fields, and an insert must keep the field names.
   */
  predicate Follows(own: Option<Fields>, op: Operation)
    requires Sound(op)
  {
    own.Some? ==>
      match op.kind
      case Delete => !Stale(op)
      case Other => true
      case _ => if Stale(op) then own.value == op.data.value.payload else own.value.Keys <= op.data.value.payload.Keys
  }

  /** From equal documents, the copy equals the owner's document afterwards exactly under that condition. */
  lemma CopyFollowsIff(own: Option<Fields>, op: Operation)
    requires Sound(op) && IssuesLive(op)
    ensures RemoteEffect(own, op) == OwnerEffect(own, op) <==> Follows(own, op)
  {
    if own.Some? && CarriesFields(op) && !Stale(op) {
      var fields := op.data.value.payload;
      if own.value + fields == fields {
        forall k | k in own.value ensures k in fields {
          assert k in own.value + fields;
        }
      }
      if own.value.Keys <= fields.Keys {
        assert own.value + fields == fields;
      }
    }
  }

  // ---------------------------------------------------------------- a store

  /** The owner kept the condition at every operation. */
  predicate Tame(ops: seq<Operation>) {
    ops == [] ||
    var n := |ops| - 1;
    Tame(ops[..n]) && (Sound(ops[n]) ==> Follows(OwnAfter(ops[..n], ops[n].documentID), ops[n]))
  }

  ghost predicate SameAt(ops: seq<Operation>, n: nat)
    requires n <= |ops|
  {
    forall id: string :: CopyAfter(ops[..n], id) == OwnAfter(ops[..n], id)
  }

  /** After every delivered prefix, all copies equal the owner's documents. */
  ghost predicate CopiesFollow(ops: seq<Operation>) {
    forall n: nat | n <= |ops| :: SameAt(ops, n)
  }

  predicate AllLive(ops: seq<Operation>) {
    forall i | 0 <= i < |ops| :: IssuesLive(ops[i])
  }

  lemma CopiesFollowFront(ops: seq<Operation>)
    requires ops != []
    ensures CopiesFollow(ops) <==> CopiesFollow(ops[..|ops| - 1]) && SameAt(ops, |ops|)
  {
    var front := ops[..|ops| - 1];
    forall n: nat | n <= |front| ensures SameAt(ops, n) <==> SameAt(front, n) {
      assert front[..n] == ops[..n];
    }
  }

  /** In-order replication follows the owner at every moment exactly when the owner kept the condition. */
  lemma {:induction false} CopiesFollowIff(ops: seq<Operation>)
    requires AllLive(ops)
    ensures CopiesFollow(ops) <==> Tame(ops)
  {
    if ops == [] {
      forall n: nat | n <= |ops| ensures SameAt(ops, n) {
        assert ops[..n] == [];
      }
    } else {
      var n := |ops| - 1;
      var front, last := ops[..n], ops[n];
      CopiesFollowIff(front);
      CopiesFollowFront(ops);
      if CopiesFollow(front) {
        assert SameAt(front, n);
        assert front[..n] == front;
        assert ops[..|ops|] == ops;
        var id := last.documentID;
        if Sound(last) { CopyFollowsIff(OwnAfter(front, id), last); }
        assert forall other | other != id :: CopyAfter(ops, other) == CopyAfter(front, other) && OwnAfter(ops, other) == OwnAfter(front, other);
        assert SameAt(ops, |ops|) <==> CopyAfter(ops, id) == OwnAfter(ops, id);
      }
    }
  }

  // ---------------------------------------------------------------- the system

  /** A document that has an owner is written by its owner only. */
  ghost predicate OwnersWrite(issued: Record, owner: string -> Option<PeerID>) {
    forall p, k: nat | p in issued && k < |issued[p]| :: owner(issued[p][k].op.documentID) in {None, Some(p)}
  }

  lemma TimelineIsOwned(sys: System, owner: string -> Option<PeerID>, q: PeerID, p: PeerID, id: string)
    requires Reached(sys) && OwnersWrite(sys.issued, owner) && q in sys.peers && q in sys.timeline && owner(id) == Some(p)
    ensures forall i | 0 <= i < |sys.timeline[q]| && sys.timeline[q][i].documentID == id :: sys.timeline[q][i].peerID == p
  {
    hide Reached, Sound;
    forall i | 0 <= i < |sys.timeline[q]| && sys.timeline[q][i].documentID == id ensures sys.timeline[q][i].peerID == p {
      TimelineIsGenuine(sys, q, sys.timeline[q][i]);
    }
  }

  /** What a store holds of an owned document: the owner's operations, its own effect or that on a copy. */
  lemma OwnedReplay(sys: System, owner: string -> Option<PeerID>, q: PeerID, p: PeerID, id: string)
    requires Reached(sys) && OwnersWrite(sys.issued, owner) && q in sys.peers && owner(id) == Some(p)
    ensures SameDomains(sys)
    ensures Lookup(sys.peers[q].store, id)
         == if p == q then OwnAfter(Operations(sys.issued[q]), id) else CopyAfter(From(sys.received[q], p), id)
  {
    hide Reached, OwnersWrite, From, NotFrom, CopyAfter, OwnAfter, Replay, InClockOrder, Below;
    StoreIsReplay(sys, q, id);
    TimelineIsOwned(sys, owner, q, p, id);
    ReplayOfOneWriter(q, sys.timeline[q], p, id);
    if p != q {
      FromOthers(sys.timeline[q], q, p);
    }
  }

  /**
   * The refinement theorem. In every run in which owners alone write: a peer that was handed the first n
   * operations of an owner, in order and once each, holds exactly the documents the owner had after those
   * operations, provided the owner kept the condition; after all of them, exactly the owner's store.
   */
  lemma CopiesMirrorOwner(sys: System, owner: string -> Option<PeerID>, q: PeerID, p: PeerID, n: nat, id: string)
    requires Reached(sys) && OwnersWrite(sys.issued, owner)
    requires q in sys.peers && p in sys.peers && q != p && owner(id) == Some(p)
    requires n <= |sys.issued[p]| && From(sys.received[q], p) == Operations(sys.issued[p])[..n]
    requires Tame(Operations(sys.issued[p])[..n])
    ensures Lookup(sys.peers[q].store, id) == OwnAfter(Operations(sys.issued[p])[..n], id)
    ensures n == |sys.issued[p]| ==> Lookup(sys.peers[q].store, id) == Lookup(sys.peers[p].store, id)
  {
    hide Reached, Inv, Tame, CopyAfter, OwnAfter, From, OwnersWrite, AllLive;
    ReachedInv(sys);
    InvDomains(sys);
    IssuedAreLive(sys, p, n);
    FollowsAt(Operations(sys.issued[p])[..n], id);
    OwnedReplay(sys, owner, q, p, id);
    OwnedReplay(sys, owner, p, p, id);
    assert n == |sys.issued[p]| ==> Operations(sys.issued[p])[..n] == Operations(sys.issued[p]);
  }

  lemma FollowsAt(ops: seq<Operation>, id: string)
    requires AllLive(ops) && Tame(ops)
    ensures CopyAfter(ops, id) == OwnAfter(ops, id)
  {
    hide Tame, CopyAfter, OwnAfter;
    CopiesFollowIff(ops);
    assert SameAt(ops, |ops|);
    assert ops[..|ops|] == ops;
  }

  lemma IssuedAreLive(sys: System, p: PeerID, n: nat)
    requires Inv(sys) && p in sys.issued && n <= |sys.issued[p]|
    ensures AllLive(Operations(sys.issued[p])[..n])
  {
    hide Inv;
    forall i | 0 <= i < n ensures IssuesLive(Operations(sys.issued[p])[..n][i]) {
      EventWell(sys, Event(p, i));
    }
  }
}
