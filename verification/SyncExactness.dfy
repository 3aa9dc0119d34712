/**
 * What a peer keeps in its log, what a sync answer contains, and which operations sync can no longer repair.
 */
module SyncExactness {
  import opened Sequences
  import opened VectorClocks
  import opened Resolver
  import opened Replication
  import opened Causality
  import opened CausalClocks

  function Clamp(n: int, top: nat): (c: nat)
    ensures c <= top
  {
    if n < 0 then 0 else if n > top then top else n
  }

  /** The number of operations that no longer fit in the log. */
  function Pruned(sys: System, p: PeerID): nat
    requires p in sys.issued
  {
    if |sys.issued[p]| > MAX_LOG_SIZE then |sys.issued[p]| - MAX_LOG_SIZE else 0
  }

  predicate Consecutive(log: seq<Operation>, p: PeerID, start: nat) {
    forall i | 0 <= i < |log| :: log[i].peerID == p && OwnCounter(log[i]) == start + i
  }

  /**
   * In every run the log of a peer is the last operations it issued, at most the maximal number, with
   * consecutive own counters up to the newest.
   */
  lemma LogIsExactTail(sys: System, p: PeerID)
    requires Reached(sys) && p in sys.peers
    ensures SameDomains(sys)
    ensures |sys.peers[p].log| == |sys.issued[p]| - Pruned(sys, p) <= MAX_LOG_SIZE
    ensures forall i | 0 <= i < |sys.peers[p].log| :: sys.peers[p].log[i] == sys.issued[p][Pruned(sys, p) + i].op
    ensures Consecutive(sys.peers[p].log, p, Pruned(sys, p))
  {
    hide Inv, Tracks, LogOf, Reached;
    ReachedInv(sys);
    LogOfPeer(sys, p);
    TailEntries(sys.issued[p]);
    forall i | 0 <= i < |sys.peers[p].log|
      ensures sys.peers[p].log[i].peerID == p && OwnCounter(sys.peers[p].log[i]) == Pruned(sys, p) + i
    {
      EventWell(sys, Event(p, Pruned(sys, p) + i));
    }
  }

  lemma LogOfPeer(sys: System, p: PeerID)
    requires Inv(sys) && p in sys.peers
    ensures SameDomains(sys) && sys.peers[p].log == LogOf(sys.issued[p])
  {
    hide Tracks, HandedWell, LogOf, IssuedWell, MessageWell;
    assert PeerWell(sys.issued, p, sys.peers[p], sys.history[p], sys.received[p]);
  }

  lemma TailEntries(issued: seq<Issued>)
    ensures var start := if |issued| > MAX_LOG_SIZE then |issued| - MAX_LOG_SIZE else 0;
            |LogOf(issued)| == |issued| - start && forall i | 0 <= i < |LogOf(issued)| :: LogOf(issued)[i] == issued[start + i].op
  {
  }

  lemma {:induction false} MissingOfConsecutive(log: seq<Operation>, p: PeerID, start: nat, remote: Counts)
    requires Consecutive(log, p, start)
    ensures Missing(log, remote) == log[Clamp(Count(remote, p) + 1 - start, |log|)..]
  {
    if log != [] {
      var cut := Count(remote, p) + 1 - start;
      MissingOfConsecutive(Front(log), p, start, remote);
      SliceOfFront(log, Clamp(cut, |log| - 1));
      assert OwnCounter(Last(log)) == start + |log| - 1;
    }
  }

  lemma SliceOfFront<T>(s: seq<T>, i: nat)
    requires s != [] && i <= |s| - 1
    ensures Front(s)[i..] + [Last(s)] == s[i..]
    ensures Front(s)[|s| - 1..] == [] && s[|s|..] == []
  {
  }

  /** The answer to a request is the part of the log beyond the requester's component for the responder. */
  lemma AnswerIsSuffix(sys: System, p: PeerID, remote: Counts)
    requires Reached(sys) && p in sys.peers
    ensures SameDomains(sys)
    ensures Missing(sys.peers[p].log, remote)
         == sys.peers[p].log[Clamp(Count(remote, p) + 1 - Pruned(sys, p), |sys.peers[p].log|)..]
  {
    hide Reached, Missing, Consecutive;
    LogIsExactTail(sys, p);
    hide *;
    MissingOfConsecutive(sys.peers[p].log, p, Pruned(sys, p), remote);
  }

  /** A requester that has counted the first k operations, k at least 1, is sent exactly the others still kept. */
  lemma PrefixHolderGetsTheRest(sys: System, p: PeerID, remote: Counts, k: nat)
    requires Reached(sys) && p in sys.peers
    requires 1 <= k <= |sys.issued[p]| && Count(remote, p) == k - 1
    ensures SameDomains(sys)
    ensures |Missing(sys.peers[p].log, remote)| == |sys.issued[p]| - Max(k, Pruned(sys, p))
    ensures forall i | 0 <= i < |Missing(sys.peers[p].log, remote)| ::
      Missing(sys.peers[p].log, remote)[i] == sys.issued[p][Max(k, Pruned(sys, p)) + i].op
  {
    hide Reached, Missing, Consecutive;
    LogIsExactTail(sys, p);
    AnswerIsSuffix(sys, p, remote);
    var log, start := sys.peers[p].log, Pruned(sys, p);
    assert Clamp(k - start, |log|) == Max(k, start) - start;
  }

  // ---------------------------------------------------------------- a completed exchange

  lemma {:induction false} ReceiveAllCounts(s: PeerState, ops: seq<Operation>, now: int)
    requires AllSound(ops) && Filed(s.store)
    ensures Leq(s.vector, ReceiveAll(s, ops, now).vector)
    ensures forall i | 0 <= i < |ops| :: Leq(ops[i].vector, ReceiveAll(s, ops, now).vector)
  {
    LeqIsPointwise(s.vector, s.vector);
    if ops != [] {
      var n := |ops| - 1;
      var before, after := ReceiveAll(s, ops[..n], now), ReceiveAll(s, ops, now);
      ReceiveAllCounts(s, ops[..n], now);
      JoinIsLeastUpperBound(before.vector, ops[n].vector, after.vector);
      LeqTransitive(s.vector, before.vector, after.vector);
      forall i | 0 <= i < n ensures Leq(ops[i].vector, after.vector) {
        LeqTransitive(ops[..n][i].vector, before.vector, after.vector);
      }
    }
  }

  lemma AnswerIsSound(sys: System, p: PeerID, remote: Counts)
    requires Reached(sys) && p in sys.peers
    ensures AllSound(Missing(sys.peers[p].log, remote))
  {
    ReachedInv(sys);
    hide Missing, Reached;
    var answer := Missing(sys.peers[p].log, remote);
    forall i | 0 <= i < |answer| ensures Sound(answer[i]) {
      AnswerIsGenuine(sys, p, remote, i);
      EventWell(sys, EventOf(answer[i]));
    }
  }

  /** A clock that is above the requester's and above the answer counts the whole log. */
  lemma AnswerCountsLog(log: seq<Operation>, p: PeerID, start: nat, remote: Counts, v: Counts)
    requires Consecutive(log, p, start) && Leq(remote, v)
    requires forall i | 0 <= i < |Missing(log, remote)| :: Leq(Missing(log, remote)[i].vector, v)
    ensures Missing(log, v) == []
  {
    MissingOfConsecutive(log, p, start, remote);
    MissingOfConsecutive(log, p, start, v);
    LeqIsPointwise(remote, v);
    var answer := Missing(log, remote);
    hide Missing, Leq;
    if answer != [] {
      assert Last(answer) == Last(log);
      LeqIsPointwise(Last(answer).vector, v);
    }
  }

  /** After the answer is taken in, the same responder has nothing more to answer. */
  lemma SecondAnswerIsEmpty(sys: System, p: PeerID, s: PeerState, remote: Counts, now: int)
    requires Reached(sys) && p in sys.peers
    requires Filed(s.store) && Leq(remote, s.vector)
    ensures AllSound(Missing(sys.peers[p].log, remote))
    ensures Missing(sys.peers[p].log, ReceiveAll(s, Missing(sys.peers[p].log, remote), now).vector) == []
  {
    AnswerIsSound(sys, p, remote);
    var answer := Missing(sys.peers[p].log, remote);
    var v := ReceiveAll(s, answer, now).vector;
    ReceiveAllCounts(s, answer, now);
    LogIsExactTail(sys, p);
    hide *;
    LeqTransitive(remote, s.vector, v);
    AnswerCountsLog(sys.peers[p].log, p, Pruned(sys, p), remote, v);
  }

  // ---------------------------------------------------------------- what sync cannot repair

  /** A peer's first operation is in no answer, whatever the requester has. */
  lemma FirstOperationIsNeverSent(log: seq<Operation>, remote: Counts, op: Operation)
    requires OwnCounter(op) == 0
    ensures op !in Missing(log, remote)
  {
    MissingComesFromLog(log, remote, op);
  }

  /** The requester's clock counts an operation it was never handed. */
  ghost predicate Gap(sys: System, q: PeerID, op: Operation)
    requires SameDomains(sys) && q in sys.peers
  {
    op !in sys.received[q] && OwnCounter(op) <= Count(sys.peers[q].vector, op.peerID)
  }

  /** What the operations a peer was handed count of the operations of `r`. */
  function HeardOf(received: seq<Operation>, r: PeerID): nat {
    if received == [] then 0 else Max(HeardOf(Front(received), r), Count(Last(received).vector, r))
  }

  /** The clock knows of other peers what the handed operations counted, and nothing else. */
  ghost predicate PeerHears(q: PeerID, v: Counts, received: seq<Operation>) {
    forall r: PeerID | r != q :: Count(v, r) == HeardOf(received, r)
  }

  ghost predicate AllHear(sys: System)
    requires SameDomains(sys)
  {
    forall q | q in sys.peers :: PeerHears(q, sys.peers[q].vector, sys.received[q])
  }

  lemma {:induction false} HeardOfIsBound(received: seq<Operation>, r: PeerID, n: nat)
    ensures HeardOf(received, r) < n <==> n > 0 && forall i | 0 <= i < |received| :: Count(received[i].vector, r) < n
  {
    if received != [] {
      var front := Front(received);
      HeardOfIsBound(front, r, n);
      assert forall i | 0 <= i < |front| :: front[i] == received[i];
    }
  }

  lemma HearsOneMore(q: PeerID, v: Counts, received: seq<Operation>, op: Operation)
    requires PeerHears(q, v, received)
    ensures PeerHears(q, Join(v, op.vector), received + [op])
  {
    SnocFront(received, op);
  }

  lemma HandHears(sys: System, p: PeerID, op: Operation, now: int)
    requires SameDomains(sys) && p in sys.peers && Sound(op) && Filed(sys.peers[p].store) && AllHear(sys)
    ensures AllHear(Hand(sys, p, op, now))
  {
    hide Filed, Sound, ReceiveIntoStore;
    assert PeerHears(p, sys.peers[p].vector, sys.received[p]);
    HearsOneMore(p, sys.peers[p].vector, sys.received[p], op);
  }

  lemma {:induction false} HandAllHears(sys: System, p: PeerID, ops: seq<Operation>, now: int)
    requires SameDomains(sys) && p in sys.peers && AllSound(ops) && Filed(sys.peers[p].store) && AllHear(sys)
    ensures AllHear(HandAll(sys, p, ops, now))
  {
    if ops != [] {
      hide AllHear, Hand;
      HandAllHears(sys, p, ops[..|ops| - 1], now);
      HandHears(HandAll(sys, p, ops[..|ops| - 1], now), p, ops[|ops| - 1], now);
    }
  }

  lemma StepHears(sys: System, step: Step)
    requires Enabled(sys, step) && AllHear(sys)
    ensures AllHear(Next(sys, step))
  {
    hide HandAll, Hand, ReceiveAll, Filed, Sound, Prune, Issue, AllHear, InsertOperation, DeleteOperation;
    var p := step.peer;
    match step
    case LocalInsert(_, fields, now) =>
      IssueHears(sys, p, InsertLocally(sys.peers[p], p, fields, now), InsertOperation(p, sys.peers[p].vector, fields, now));
    case LocalDelete(_, id, now) =>
      IssueHears(sys, p, DeleteLocally(sys.peers[p], p, id, now), DeleteOperation(p, sys.peers[p].vector, id, now));
    case Deliver(_, op, now) => HandHears(sys, p, op, now);
    case FinishSync(_, ops, now) =>
      HandAllHears(sys, p, ops, now);
      QuietHears(HandAll(sys, p, ops, now), Next(sys, step));
    case _ => QuietHears(sys, Next(sys, step));
  }

  lemma IssueHears(sys: System, p: PeerID, s: PeerState, op: Operation)
    requires SameDomains(sys) && p in sys.peers && AllHear(sys) && s.vector == Bump(sys.peers[p].vector, p)
    ensures AllHear(Issue(sys, p, s, op))
  {
    assert PeerHears(p, sys.peers[p].vector, sys.received[p]);
    BumpMovesStrictlyUp(sys.peers[p].vector, p);
  }

  lemma QuietHears(sys: System, sys': System)
    requires SameDomains(sys) && SameDomains(sys') && AllHear(sys)
    requires sys'.peers.Keys == sys.peers.Keys && sys'.received == sys.received
    requires forall q | q in sys.peers :: sys'.peers[q].vector == sys.peers[q].vector
    ensures AllHear(sys')
  {
  }

  lemma {:induction false} RunHears(names: set<PeerID>, steps: seq<Step>)
    requires ValidRun(Init(names), steps)
    ensures AllHear(StateAfter(Init(names), steps))
  {
    if steps != [] {
      hide AllHear;
      RunHears(names, steps[..|steps| - 1]);
      StepHears(StateAfter(Init(names), steps[..|steps| - 1]), steps[|steps| - 1]);
    }
  }

  /** In every run: the component for another peer is the highest that a handed operation carried. */
  lemma ClockIsWhatWasHeard(sys: System, q: PeerID, r: PeerID)
    requires Reached(sys) && q in sys.peers && r != q
    ensures SameDomains(sys) && Count(sys.peers[q].vector, r) == HeardOf(sys.received[q], r)
  {
    ReachedInv(sys);
    var names: set<PeerID>, steps: seq<Step> :| ValidRun(Init(names), steps) && sys == StateAfter(Init(names), steps);
    RunHears(names, steps);
    assert PeerHears(q, sys.peers[q].vector, sys.received[q]);
  }

  /**
   * An answer to a peer's current clock contains nothing it was handed before. It contains a kept operation it
   * was not handed exactly when that is not the first of its issuer and no operation it was handed counts it.
   */
  lemma AnswerRepairsIff(sys: System, p: PeerID, q: PeerID, op: Operation)
    requires Reached(sys) && p in sys.peers && q in sys.peers
    ensures SameDomains(sys)
    ensures op in Missing(sys.peers[p].log, sys.peers[q].vector) ==> op !in sys.received[q]
    ensures op in sys.peers[p].log && op !in sys.received[q] ==>
      (op in Missing(sys.peers[p].log, sys.peers[q].vector)
       <==> p != q && OwnCounter(op) > 0 && forall i | 0 <= i < |sys.received[q]| :: Count(sys.received[q][i].vector, p) < OwnCounter(op))
  {
    hide Reached, Missing, Inv;
    ReachedInv(sys);
    LogIsExactTail(sys, p);
    MissingComesFromLog(sys.peers[p].log, sys.peers[q].vector, op);
    if op in sys.received[q] {
      HandedIsCounted(sys, q, op);
    }
    if op in sys.peers[p].log {
      LoggedIsOwn(sys, p, op);
      if p != q {
        ClockIsWhatWasHeard(sys, q, p);
        HeardOfIsBound(sys.received[q], p, OwnCounter(op));
      }
    }
  }

  /** A logged operation is its peer's own, and that peer's clock has counted it. */
  lemma LoggedIsOwn(sys: System, p: PeerID, op: Operation)
    requires Reached(sys) && p in sys.peers && op in sys.peers[p].log
    ensures op.peerID == p && OwnCounter(op) < Count(sys.peers[p].vector, p)
  {
    hide Reached, Tracks;
    ReachedInv(sys);
    LogIsExactTail(sys, p);
    assert PeerWell(sys.issued, p, sys.peers[p], sys.history[p], sys.received[p]);
  }

  lemma HandedIsCounted(sys: System, q: PeerID, op: Operation)
    requires Inv(sys) && q in sys.peers && op in sys.received[q]
    ensures OwnCounter(op) <= Count(sys.peers[q].vector, op.peerID)
  {
    assert PeerWell(sys.issued, q, sys.peers[q], sys.history[q], sys.received[q]);
    var i :| 0 <= i < |sys.received[q]| && sys.received[q][i] == op;
    assert HandedWell(sys.issued, q, sys.history[q], op);
    assert Founded(sys.issued, sys.peers[q].vector, sys.history[q], EventOf(op));
    LeqIsPointwise(op.vector, sys.peers[q].vector);
  }

  lemma StepCounts(sys: System, step: Step, q: PeerID)
    requires Inv(sys) && Enabled(sys, step) && q in sys.peers
    ensures Leq(sys.peers[q].vector, Next(sys, step).peers[q].vector)
  {
    hide Inv, ReceiveAll, HandAll;
    var v := sys.peers[q].vector;
    LeqIsPointwise(v, v);
    if q == step.peer {
      match step
      case LocalInsert(_, _, _) => BumpMovesStrictlyUp(v, q);
      case LocalDelete(_, _, _) => BumpMovesStrictlyUp(v, q);
      case Deliver(_, op, _) => JoinIsLeastUpperBound(v, op.vector, v);
      case FinishSync(_, ops, now) => ReceiveAllCounts(sys.peers[q], ops, now);
      case _ =>
    } else if step.FinishSync? {
      HandAllOthers(sys, step.peer, step.ops, step.now, q);
    }
  }

  lemma {:induction false} HandAllOthers(sys: System, p: PeerID, ops: seq<Operation>, now: int, q: PeerID)
    requires SameDomains(sys) && p in sys.peers && AllSound(ops) && Filed(sys.peers[p].store)
    requires q in sys.peers && q != p
    ensures HandAll(sys, p, ops, now).peers[q] == sys.peers[q]
    ensures HandAll(sys, p, ops, now).received[q] == sys.received[q]
  {
    if ops != [] {
      var front, x := Front(ops), Last(ops);
      HandAllOthers(sys, p, front, now, q);
      HandFrame(HandAll(sys, p, front, now), p, x, now);
      hide Hand, Receive, ReceiveAll, Sound, Filed;
    }
  }

  lemma {:induction false} RunCounts(sys: System, steps: seq<Step>, q: PeerID)
    requires Inv(sys) && ValidRun(sys, steps) && q in sys.peers
    ensures Inv(StateAfter(sys, steps)) && q in StateAfter(sys, steps).peers
    ensures Leq(sys.peers[q].vector, StateAfter(sys, steps).peers[q].vector)
  {
    LeqIsPointwise(sys.peers[q].vector, sys.peers[q].vector);
    if steps != [] {
      hide Inv;
      var before := StateAfter(sys, Front(steps));
      RunCounts(sys, Front(steps), q);
      StepKeepsInv(before, Last(steps));
      StepCounts(before, Last(steps), q);
      LeqTransitive(sys.peers[q].vector, before.peers[q].vector, Next(before, Last(steps)).peers[q].vector);
    }
  }

  /**
   * A gap is permanent for sync: however the run goes on, no log answers a request that the peer can then
   * make with the operation it lacks. Only the original announcement can still bring it.
   */
  lemma GapIsPermanent(sys: System, q: PeerID, op: Operation, steps: seq<Step>, log: seq<Operation>)
    requires Reached(sys) && ValidRun(sys, steps)
    requires SameDomains(sys) && q in sys.peers && Gap(sys, q, op)
    ensures q in StateAfter(sys, steps).peers
    ensures op !in Missing(log, StateAfter(sys, steps).peers[q].vector)
  {
    ReachedInv(sys);
    RunCounts(sys, steps, q);
    var v := StateAfter(sys, steps).peers[q].vector;
    LeqIsPointwise(sys.peers[q].vector, v);
    MissingComesFromLog(log, v, op);
  }

  /** Taking in an operation opens a gap at exactly the other operations it counts that were not handed yet. */
  lemma GapOpensIff(sys: System, q: PeerID, op: Operation, later: Operation, now: int)
    requires Enabled(sys, Deliver(q, later, now))
    ensures Gap(Next(sys, Deliver(q, later, now)), q, op)
       <==> op != later && (Gap(sys, q, op) || (op !in sys.received[q] && OwnCounter(op) <= Count(later.vector, op.peerID)))
  {
  }

  /** The same, in terms of what was handed: the gaps after each single operation taken in. */
  predicate InGap(received: seq<Operation>, op: Operation) {
    op !in received && OwnCounter(op) <= HeardOf(received, op.peerID)
  }

  lemma GapIsInGap(sys: System, q: PeerID, op: Operation)
    requires Reached(sys) && q in sys.peers && op.peerID != q
    ensures SameDomains(sys) && (Gap(sys, q, op) <==> InGap(sys.received[q], op))
  {
    ClockIsWhatWasHeard(sys, q, op.peerID);
  }

  /** Whatever counts the operation was taken in after it. */
  predicate NeverPassed(received: seq<Operation>, op: Operation) {
    forall i | 0 <= i < |received| && received[i] != op && OwnCounter(op) <= Count(received[i].vector, op.peerID) ::
      op in received[..i]
  }

  lemma NeverPassedOneMore(received: seq<Operation>, later: Operation, op: Operation)
    ensures NeverPassed(received + [later], op) <==>
      NeverPassed(received, op) && (later != op && OwnCounter(op) <= Count(later.vector, op.peerID) ==> op in received)
  {
    var all := received + [later];
    assert all[|received|] == later && all[..|received|] == received;
    forall i | 0 <= i < |received| ensures all[i] == received[i] && all[..i] == received[..i] {
    }
    if NeverPassed(all, op) {
      forall i | 0 <= i < |received| && received[i] != op && OwnCounter(op) <= Count(received[i].vector, op.peerID)
        ensures op in received[..i]
      {
        assert all[i] == received[i];
      }
    }
  }

  ghost predicate NeverInGap(received: seq<Operation>, op: Operation) {
    forall n: nat | n <= |received| :: !InGap(received[..n], op)
  }

  lemma NeverInGapFront(received: seq<Operation>, later: Operation, op: Operation)
    ensures NeverInGap(received + [later], op) <==> NeverInGap(received, op) && !InGap(received + [later], op)
  {
    var all := received + [later];
    assert all[..|all|] == all;
    assert forall n: nat | n <= |received| :: all[..n] == received[..n];
  }

  /** One operation, any order of arrival: it is never in a gap exactly when nothing that counts it came first. */
  lemma {:induction false} NeverInGapIff(received: seq<Operation>, op: Operation)
    requires OwnCounter(op) > 0
    ensures NeverInGap(received, op) <==> NeverPassed(received, op)
  {
    if received == [] {
      assert forall n: nat | n <= |received| :: received[..n] == [];
    } else {
      var front, later := Front(received), Last(received);
      FrontLast(received);
      NeverInGapIff(front, op);
      NeverInGapFront(front, later, op);
      NeverPassedOneMore(front, later, op);
      assert front[..|front|] == front;
      assert NeverInGap(front, op) ==> !InGap(front, op);
      assert op in front + [later] <==> op in front || op == later;
    }
  }

  /** The operations of others that sync could send: all but the first of each peer. */
  predicate Repairable(sys: System, q: PeerID, e: Event) {
    IsEvent(sys.issued, e) && e.peer != q && e.index > 0
  }

  lemma GapFreeAnswer(received: seq<Operation>, log: seq<Operation>, v: Counts, op: Operation)
    requires OwnCounter(op) > 0 && Count(v, op.peerID) == HeardOf(received, op.peerID)
    ensures NeverInGap(received, op) <==> NeverPassed(received, op)
    ensures NeverPassed(received, op) ==> !InGap(received, op)
    ensures NeverPassed(received, op) && op in log && op !in received ==> op in Missing(log, v)
  {
    hide Missing, NeverPassed;
    NeverInGapIff(received, op);
    assert received[..|received|] == received;
    assert NeverInGap(received, op) ==> !InGap(received, op);
    MissingComesFromLog(log, v, op);
  }

  lemma RepairableNeverInGapIff(sys: System, q: PeerID, e: Event)
    requires Reached(sys) && q in sys.peers && Repairable(sys, q, e)
    ensures SameDomains(sys) && e.peer in sys.peers
    ensures var op := At(sys.issued, e).op;
      && (NeverInGap(sys.received[q], op) <==> NeverPassed(sys.received[q], op))
      && (NeverPassed(sys.received[q], op) ==> !InGap(sys.received[q], op))
      && (NeverPassed(sys.received[q], op) && op in sys.peers[e.peer].log && op !in sys.received[q]
          ==> op in Missing(sys.peers[e.peer].log, sys.peers[q].vector))
  {
    hide Reached, Inv, Missing, NeverPassed, NeverInGap, InGap, HeardOf;
    ReachedInv(sys);
    InvDomains(sys);
    EventWell(sys, e);
    ClockIsWhatWasHeard(sys, q, e.peer);
    GapFreeAnswer(sys.received[q], sys.peers[e.peer].log, sys.peers[q].vector, At(sys.issued, e).op);
  }

  /**
   * In every run, no operation that sync could send is ever in a gap at a peer, at any moment between two
   * operations it takes in, exactly when each operation it took in came after all others that it counts. And
   * then none is in a gap of its clock now, and an answer repairs everything: whatever is kept and was not
   * handed is sent.
   */
  lemma NoGapEverIff(sys: System, q: PeerID)
    requires Reached(sys) && q in sys.peers
    ensures SameDomains(sys)
    ensures (forall e | Repairable(sys, q, e) :: NeverInGap(sys.received[q], At(sys.issued, e).op))
       <==> (forall e | Repairable(sys, q, e) :: NeverPassed(sys.received[q], At(sys.issued, e).op))
    ensures (forall e | Repairable(sys, q, e) :: NeverPassed(sys.received[q], At(sys.issued, e).op)) ==>
      forall e | Repairable(sys, q, e) :: !Gap(sys, q, At(sys.issued, e).op)
    ensures (forall e | Repairable(sys, q, e) :: NeverPassed(sys.received[q], At(sys.issued, e).op)) ==>
      forall e | Repairable(sys, q, e) && At(sys.issued, e).op in sys.peers[e.peer].log && At(sys.issued, e).op !in sys.received[q] ::
        At(sys.issued, e).op in Missing(sys.peers[e.peer].log, sys.peers[q].vector)
  {
    ReachedInv(sys);
    InvDomains(sys);
    hide Inv, Reached, Missing, NeverPassed, NeverInGap, Gap;
    forall e | Repairable(sys, q, e)
      ensures var op := At(sys.issued, e).op;
        && (NeverInGap(sys.received[q], op) <==> NeverPassed(sys.received[q], op))
        && (NeverPassed(sys.received[q], op) ==> !Gap(sys, q, op))
        && (NeverPassed(sys.received[q], op) && op in sys.peers[e.peer].log && op !in sys.received[q]
            ==> op in Missing(sys.peers[e.peer].log, sys.peers[q].vector))
    {
      RepairableNeverInGapIff(sys, q, e);
      EventWell(sys, e);
      GapIsInGap(sys, q, At(sys.issued, e).op);
    }
  }
}
