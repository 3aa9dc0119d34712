/**
 * What the clocks of issued operations tell about causality in every reachable state, where they tell
 * nothing, and what that means for documents that fold the same operations.
 */
module CausalClocks {
  import opened Json
  import opened Sequences
  import opened VectorClocks
  import opened Resolver
  import opened Replication
  import opened Causality
  import opened CausalFold

  function Clock(sys: System, e: Event): Counts
    requires IsEvent(sys.issued, e)
  {
    At(sys.issued, e).op.vector
  }

  /** Operation `a` can have influenced operation `b`. */
  predicate Influenced(sys: System, a: Event, b: Event)
    requires IsEvent(sys.issued, b)
  {
    a in At(sys.issued, b).causes
  }

  lemma EventWell(sys: System, e: Event)
    requires Inv(sys) && IsEvent(sys.issued, e)
    ensures At(sys.issued, e).op.peerID == e.peer && OwnCounter(At(sys.issued, e).op) == e.index
    ensures Sound(At(sys.issued, e).op) && At(sys.issued, e).op.kind != Other && IssuesLive(At(sys.issued, e).op)
    ensures Tracks(sys.issued, e.peer, Clock(sys, e), At(sys.issued, e).causes)
  {
    assert IssuedWell(sys.issued, e.peer, e.index);
  }

  /** Influence is a strict partial order that clocks respect. */
  lemma InfluenceIsStrictOrder(sys: System, a: Event, b: Event)
    requires Reached(sys) && IsEvent(sys.issued, b) && Influenced(sys, a, b)
    ensures IsEvent(sys.issued, a) && Leq(Clock(sys, a), Clock(sys, b))
    ensures !Influenced(sys, b, a) && !Influenced(sys, a, a)
    ensures forall c | Influenced(sys, c, a) :: Influenced(sys, c, b)
  {
    ReachedInv(sys);
    EventWell(sys, b);
    assert Founded(sys.issued, Clock(sys, b), At(sys.issued, b).causes, a);
    EventWell(sys, a);
  }

  /**
   * The operations of peer `p` that can have influenced an operation are its first ones, and the
   * component for `p` says how many: exactly below it for the issuer itself, up to and including it for
   * another peer. Only a component 0 for another peer leaves open whether the very first one is among them.
   */
  lemma ComponentGivesHistory(sys: System, b: Event, p: PeerID, j: nat)
    requires Reached(sys) && IsEvent(sys.issued, b)
    ensures p == b.peer ==> (Influenced(sys, Event(p, j), b) <==> j < Count(Clock(sys, b), p))
    ensures p != b.peer && Count(Clock(sys, b), p) > 0 ==> (Influenced(sys, Event(p, j), b) <==> j <= Count(Clock(sys, b), p))
    ensures p != b.peer && Influenced(sys, Event(p, j), b) ==> j <= Count(Clock(sys, b), p)
  {
    ReachedInv(sys);
    EventWell(sys, b);
    var v, h := Clock(sys, b), At(sys.issued, b).causes;
    if p != b.peer && Count(v, p) > 0 {
      var top := Event(p, Count(v, p));
      assert top in h && Founded(sys.issued, v, h, top);
      EventWell(sys, top);
    }
    if Event(p, j) in h {
      assert Founded(sys.issued, v, h, Event(p, j));
      EventWell(sys, Event(p, j));
      LeqIsPointwise(Clock(sys, Event(p, j)), v);
    }
  }

  /** A component beyond an operation's own counter proves that the operation is in the history. */
  lemma ClocksAreSound(sys: System, a: Event, b: Event)
    requires Reached(sys) && IsEvent(sys.issued, a) && IsEvent(sys.issued, b)
    requires Count(Clock(sys, b), a.peer) > Count(Clock(sys, a), a.peer)
    ensures Influenced(sys, a, b)
  {
    ReachedInv(sys);
    EventWell(sys, a);
    ComponentGivesHistory(sys, b, a.peer, a.index);
  }

  /**
   * The clock order decides causality between different operations, for every operation that is not the
   * first of its peer, and for a first one wherever the other clock counts its peer or is its issuer's own.
   */
  lemma ClockOrderDecidesCausality(sys: System, a: Event, b: Event)
    requires Reached(sys) && IsEvent(sys.issued, a) && IsEvent(sys.issued, b) && a != b
    requires a.index > 0 || a.peer == b.peer || Count(Clock(sys, b), a.peer) > 0
    ensures Leq(Clock(sys, a), Clock(sys, b)) <==> Influenced(sys, a, b)
  {
    ReachedInv(sys);
    EventWell(sys, a);
    EventWell(sys, b);
    if Influenced(sys, a, b) {
      InfluenceIsStrictOrder(sys, a, b);
    }
    if Leq(Clock(sys, a), Clock(sys, b)) {
      LeqIsPointwise(Clock(sys, a), Clock(sys, b));
      assert Count(Clock(sys, a), a.peer) <= Count(Clock(sys, b), a.peer);
      ComponentGivesHistory(sys, b, a.peer, a.index);
    }
  }

  // ---------------------------------------------------------------- replicas folding issued operations

  /** Genuine operations other than first ones, on a document that has not counted them yet, satisfy the convergence conditions. */
  lemma IssuedOperationsStepForward(sys: System, doc: Doc, ops: seq<Operation>)
    requires Reached(sys)
    requires forall op | op in ops :: Genuine(sys.issued, op) && OwnCounter(op) > 0 && Ahead(op, doc.vector)
    ensures Known(ops) && SteppedForward(doc, ops)
  {
    ReachedInv(sys);
    forall i | 0 <= i < |ops| ensures HasData(ops[i]) && ops[i].kind != Other {
      assert ops[i] in ops;
      EventWell(sys, EventOf(ops[i]));
    }
    forall o, other | o in ops && other in ops ensures Leq(o.vector, other.vector) || Ahead(o, other.vector) {
      if !Ahead(o, other.vector) {
        var a, b := EventOf(o), EventOf(other);
        ComponentGivesHistory(sys, b, a.peer, a.index);
        if a == b {
          LeqIsPointwise(o.vector, o.vector);
        } else {
          EventWell(sys, b);
          assert Influenced(sys, a, b);
          InfluenceIsStrictOrder(sys, a, b);
        }
      }
    }
  }

  /**
   * For documents of the resolver, which keep the clocks they are given: the same operations of a run, none of
   * them a peer's first, applied to equal documents in causal orders agree on everything but the payload, and
   * on the payload for all orders exactly when the maximal writers of each field agree.
   */
  lemma IssuedOperationsConverge(sys: System, doc: Doc, ops: seq<Operation>, ops': seq<Operation>)
    requires Reached(sys)
    requires forall op | op in ops :: Genuine(sys.issued, op) && OwnCounter(op) > 0 && Ahead(op, doc.vector)
    requires Reordered(ops, ops') && Delivery(ops) && Delivery(ops')
    ensures AllHaveData(ops) && AllHaveData(ops')
    ensures Fold(doc, ops).(payload := map[]) == Fold(doc, ops').(payload := map[])
    ensures OrderIndependent(doc, ops) <==> MaximalWritersAgree(ops)
  {
    IssuedOperationsStepForward(sys, doc, ops);
    MetadataConverges(doc, ops, ops');
    ConvergenceIff(doc, ops);
  }

  // ---------------------------------------------------------------- where clocks tell nothing

  lemma RunOneMore(start: System, steps: seq<Step>, step: Step)
    requires ValidRun(start, steps) && Enabled(StateAfter(start, steps), step)
    ensures ValidRun(start, steps + [step])
    ensures StateAfter(start, steps + [step]) == Next(StateAfter(start, steps), step)
  {
    SnocFront(steps, step);
  }

  lemma ReachNext(sys: System, step: Step)
    requires Reached(sys) && Enabled(sys, step)
    ensures Reached(Next(sys, step))
  {
    hide Enabled, Next, ValidRun, StateAfter, Init;
    var names: set<PeerID>, steps: seq<Step> :| ValidRun(Init(names), steps) && sys == StateAfter(Init(names), steps);
    RunOneMore(Init(names), steps, step);
    assert ValidRun(Init(names), steps + [step]) && Next(sys, step) == StateAfter(Init(names), steps + [step]);
  }

  /** A peer takes in an operation and then writes: the two steps of a reply. */
  predicate CanReply(sys: System, q: PeerID, op: Operation, fields: Fields, now: int) {
    Enabled(sys, Deliver(q, op, now)) && HasID(fields)
  }

  function Reply(sys: System, q: PeerID, op: Operation, fields: Fields, now: int): System
    requires CanReply(sys, q, op, fields, now)
  {
    ReceiveKeepsFiled(sys.peers[q].store, op, now);
    Next(Next(sys, Deliver(q, op, now)), LocalInsert(q, fields, now))
  }

  function ReplyOperation(sys: System, q: PeerID, op: Operation, fields: Fields, now: int): Operation
    requires CanReply(sys, q, op, fields, now)
  {
    InsertOperation(q, Join(sys.peers[q].vector, op.vector), fields, now)
  }

  /** The reply is a step of the run, and what it answers can have influenced it. */
  lemma ReplyIsInfluenced(sys: System, q: PeerID, op: Operation, fields: Fields, now: int)
    requires Reached(sys) && CanReply(sys, q, op, fields, now)
    ensures Reached(Reply(sys, q, op, fields, now))
    ensures var after := Reply(sys, q, op, fields, now); var b := Event(q, |sys.issued[q]|);
            IsEvent(after.issued, b) && At(after.issued, b).op == ReplyOperation(sys, q, op, fields, now)
            && Influenced(after, EventOf(op), b)
  {
    ReceiveKeepsFiled(sys.peers[q].store, op, now);
    ReachNext(sys, Deliver(q, op, now));
    ReachNext(Next(sys, Deliver(q, op, now)), LocalInsert(q, fields, now));
  }

  /**
   * Every document of the resolver that took in the operation ignores the reply to it exactly when the replying
   * peer knew nothing beyond the operation's own clock: the reply then repeats that clock.
   */
  lemma ReplyIsIgnoredIff(sys: System, q: PeerID, op: Operation, fields: Fields, now: int)
    requires CanReply(sys, q, op, fields, now) && op.kind != Other
    ensures (forall doc: Doc :: ApplyTo(ApplyTo(doc, op), ReplyOperation(sys, q, op, fields, now)) == ApplyTo(doc, op))
        <==> Leq(sys.peers[q].vector, op.vector)
  {
    var reply := ReplyOperation(sys, q, op, fields, now);
    if Leq(sys.peers[q].vector, op.vector) {
      forall doc: Doc ensures ApplyTo(ApplyTo(doc, op), reply) == ApplyTo(doc, op) {
        RepeatedClockIsIgnored(doc, op, reply, sys.peers[q].vector);
      }
    } else {
      NewerReplyCounts(op, reply, sys.peers[q].vector);
    }
  }

  /** It happens: one peer's first operation, and the first operation of a peer that takes it in. */
  lemma SomeReplyIsIgnored(p: PeerID, q: PeerID, fields: Fields, now: int) returns (sys: System, op: Operation)
    requires p != q && HasID(fields)
    ensures Reached(sys) && CanReply(sys, q, op, fields, now) && op.kind != Other
    ensures forall doc: Doc :: ApplyTo(ApplyTo(doc, op), ReplyOperation(sys, q, op, fields, now)) == ApplyTo(doc, op)
  {
    var start := Init({p, q});
    var step := LocalInsert(p, fields, now);
    sys, op := Next(start, step), InsertOperation(p, map[], fields, now);
    StartIsReached({p, q});
    FirstIsAnnounced({p, q}, p, q, fields, now);
    hide Reached, Enabled, Next, InsertOperation;
    ReachNext(start, step);
    ReplyIsIgnoredIff(sys, q, op, fields, now);
  }

  lemma StartIsReached(names: set<PeerID>)
    ensures Reached(Init(names))
  {
    assert ValidRun(Init(names), []) && StateAfter(Init(names), []) == Init(names);
  }

  lemma FirstIsAnnounced(names: set<PeerID>, p: PeerID, q: PeerID, fields: Fields, now: int)
    requires p in names && q in names && p != q && HasID(fields)
    ensures Enabled(Init(names), LocalInsert(p, fields, now))
    ensures var sys := Next(Init(names), LocalInsert(p, fields, now)); var op := InsertOperation(p, map[], fields, now);
      op.kind != Other && CanReply(sys, q, op, fields, now) && Leq(sys.peers[q].vector, op.vector)
  {
  }

  lemma RepeatedClockIsIgnored(doc: Doc, op: Operation, reply: Operation, v: Counts)
    requires HasData(op) && op.kind != Other && HasData(reply)
    requires reply.vector == Join(v, op.vector) && Leq(v, op.vector)
    ensures ApplyTo(ApplyTo(doc, op), reply) == ApplyTo(doc, op)
  {
    JoinIsLeastUpperBound(v, op.vector, op.vector);
    LeqIsPointwise(op.vector, op.vector);
    ApplyCovers(doc, op);
    LeqTransitive(reply.vector, op.vector, ApplyTo(doc, op).vector);
  }

  lemma NewerReplyCounts(op: Operation, reply: Operation, v: Counts)
    requires HasData(op) && HasData(reply) && reply.kind != Other
    requires reply.vector == Join(v, op.vector) && !Leq(v, op.vector)
    ensures exists doc: Doc :: ApplyTo(ApplyTo(doc, op), reply) != ApplyTo(doc, op)
  {
    var doc := Doc("", "", map[], map[], 0, "", "", false);
    var after := ApplyTo(doc, op);
    JoinIsLeastUpperBound(v, op.vector, op.vector);
    JoinIsLeastUpperBound(map[], op.vector, op.vector);
    LeqIsPointwise(op.vector, op.vector);
    assert Leq(after.vector, op.vector);
    if Leq(reply.vector, after.vector) {
      LeqTransitive(reply.vector, after.vector, op.vector);
    }
    NewClockChanges(after, reply);
  }

  /** An operation the document's clock does not cover changes the document. */
  lemma NewClockChanges(doc: Doc, op: Operation)
    requires HasData(op) && op.kind != Other && !Leq(op.vector, doc.vector)
    ensures ApplyTo(doc, op) != doc
  {
    ApplyCovers(doc, op);
  }

  /**
   * A first operation with a clock of zeros leaves no trace: its receiver goes on with the same clock as if
   * it had not arrived, so the next operation's clock is the same with and without it in the history.
   */
  lemma FirstOperationLeavesNoTrace(sys: System, q: PeerID, op: Operation, fields: Fields, now: int)
    requires Reached(sys) && CanReply(sys, q, op, fields, now) && Leq(op.vector, map[])
    ensures var with := Reply(sys, q, op, fields, now); var without := Next(sys, LocalInsert(q, fields, now)); var b := Event(q, |sys.issued[q]|);
      && Reached(with) && Reached(without) && IsEvent(with.issued, b) && IsEvent(without.issued, b)
      && Relation(Clock(with, b), Clock(without, b)) == Equal
      && Influenced(with, EventOf(op), b)
      && (Influenced(without, EventOf(op), b) <==> EventOf(op) in sys.history[q])
  {
    ReplyIsInfluenced(sys, q, op, fields, now);
    ReachNext(sys, LocalInsert(q, fields, now));
    var v := sys.peers[q].vector;
    LeqIsPointwise(v, v);
    JoinIsLeastUpperBound(v, op.vector, v);
    forall p | p in op.vector ensures op.vector[p] <= Count(v, p) {
      assert op.vector[p] <= Count(map[], p);
    }
  }
}
