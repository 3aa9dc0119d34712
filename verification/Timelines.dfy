/**
 * What every store holds in every run: the replay of its peer's timeline, own operations with their effect on the
 * own store, and operations handed over with their effect on a stored copy.
 */
module Timelines {
  import opened Json
  import opened Sequences
  import opened VectorClocks
  import opened Resolver
  import opened Replication
  import opened Causality
  import opened CausalClocks

  // ---------------------------------------------------------------- one document

  /** The clock of the operation does not exceed the clock that the receiver invents for its stored copy. */
  predicate Stale(op: Operation) {
    Leq(op.vector, map[op.peerID := 1])
  }

  /** What an operation does to the receiver's copy of its document. */
  function RemoteEffect(copy: Option<Fields>, op: Operation): Option<Fields>
    requires Sound(op)
  {
    if CarriesFields(op) then
      var fields := op.data.value.payload;
      if copy.None? then (if op.data.value.deleted then None else Some(fields))
      else if Stale(op) then copy
      else Some(copy.value + fields)
    else if op.kind == Delete then
      if copy.Some? && Stale(op) then copy else None
    else
      copy
  }

  /** What the operation did to the owner's own document when it was issued. */
  function OwnerEffect(own: Option<Fields>, op: Operation): Option<Fields>
    requires Sound(op)
  {
    match op.kind
    case Delete => None
    case Other => own
    case _ => Some(op.data.value.payload)
  }

  /** Only the first two operations of a peer can be stale. */
  lemma OnlyEarlyOperationsAreStale(op: Operation)
    requires OwnCounter(op) >= 2
    ensures !Stale(op)
  {
    LeqIsPointwise(op.vector, map[op.peerID := 1]);
  }

  /** Receiving changes the operation's own document only, and that one as described. */
  lemma ReceiveTouchesOneDocument(store: Store, op: Operation, now: int, id: string)
    requires Sound(op) && Filed(store)
    ensures Lookup(ReceiveIntoStore(store, op, now), id)
         == if id == op.documentID then RemoteEffect(Lookup(store, id), op) else Lookup(store, id)
  {
    assert Merged(store, op, now).Some? && !Merged(store, op, now).value.deleted ==>
      HasID(Merged(store, op, now).value.payload) && Merged(store, op, now).value.payload["id"].text == op.documentID;
  }

  /** The receiver's copy after taking in operations in this order, and the owner's document after issuing them. */
  function CopyAfter(ops: seq<Operation>, id: string): Option<Fields> {
    if ops == [] then None
    else
      var n := |ops| - 1;
      var before := CopyAfter(ops[..n], id);
      if ops[n].documentID == id && Sound(ops[n]) then RemoteEffect(before, ops[n]) else before
  }

  function OwnAfter(ops: seq<Operation>, id: string): Option<Fields> {
    if ops == [] then None
    else
      var n := |ops| - 1;
      var before := OwnAfter(ops[..n], id);
      if ops[n].documentID == id && Sound(ops[n]) then OwnerEffect(before, ops[n]) else before
  }

  /** The document of peer `q` after its timeline. */
  function Replay(q: PeerID, timeline: seq<Operation>, id: string): Option<Fields> {
    if timeline == [] then None
    else
      var before, op := Replay(q, Front(timeline), id), Last(timeline);
      if op.documentID != id || !Sound(op) then before
      else if op.peerID == q then OwnerEffect(before, op)
      else RemoteEffect(before, op)
  }

  lemma ReplayOneMore(q: PeerID, timeline: seq<Operation>, op: Operation, id: string)
    ensures Replay(q, timeline + [op], id)
         == var before := Replay(q, timeline, id);
            if op.documentID != id || !Sound(op) then before
            else if op.peerID == q then OwnerEffect(before, op) else RemoteEffect(before, op)
  {
    SnocFront(timeline, op);
  }

  lemma AfterOneMore(ops: seq<Operation>, op: Operation, id: string)
    ensures CopyAfter(ops + [op], id) == if op.documentID == id && Sound(op) then RemoteEffect(CopyAfter(ops, id), op) else CopyAfter(ops, id)
    ensures OwnAfter(ops + [op], id) == if op.documentID == id && Sound(op) then OwnerEffect(OwnAfter(ops, id), op) else OwnAfter(ops, id)
  {
    SnocFront(ops, op);
  }

  // ---------------------------------------------------------------- timelines

  /** The operations of one issuer among others, in the order they are in. */
  function From(ops: seq<Operation>, p: PeerID): seq<Operation> {
    if ops == [] then []
    else
      var n := |ops| - 1;
      if ops[n].peerID == p then From(ops[..n], p) + [ops[n]] else From(ops[..n], p)
  }

  /** And those of all other issuers. */
  function NotFrom(ops: seq<Operation>, p: PeerID): seq<Operation> {
    if ops == [] then []
    else
      var n := |ops| - 1;
      if ops[n].peerID == p then NotFrom(ops[..n], p) else NotFrom(ops[..n], p) + [ops[n]]
  }

  lemma FromOneMore(ops: seq<Operation>, op: Operation, p: PeerID)
    ensures From(ops + [op], p) == if op.peerID == p then From(ops, p) + [op] else From(ops, p)
    ensures NotFrom(ops + [op], p) == if op.peerID == p then NotFrom(ops, p) else NotFrom(ops, p) + [op]
  {
    SnocFront(ops, op);
  }

  lemma {:induction false} FromMembers(ops: seq<Operation>, p: PeerID)
    ensures forall op :: op in From(ops, p) <==> op in ops && op.peerID == p
    ensures forall op :: op in NotFrom(ops, p) <==> op in ops && op.peerID != p
  {
    if ops != [] {
      FromMembers(Front(ops), p);
      FrontLast(ops);
    }
  }

  lemma {:induction false} FromOthers(ops: seq<Operation>, q: PeerID, p: PeerID)
    requires p != q
    ensures From(NotFrom(ops, q), p) == From(ops, p)
  {
    if ops != [] {
      FromOthers(Front(ops), q, p);
      if Last(ops).peerID != q {
        FromOneMore(NotFrom(Front(ops), q), Last(ops), p);
      }
    }
  }

  /** What the operation counts of peer `q`, if anything, is one of its first `n` operations. */
  predicate CountsWithin(op: Operation, q: PeerID, n: nat) {
    Count(op.vector, q) > 0 ==> Count(op.vector, q) < n
  }

  /** The operation of another peer may be handed to the issuer of `own` before that one is issued. */
  predicate MayPrecede(op: Operation, own: Operation) {
    Leq(op.vector, own.vector) && CountsWithin(op, own.peerID, OwnCounter(own))
  }

  /** An own operation carries what came before it in its clock, and nothing handed before counts it already. */
  ghost predicate InClockOrder(q: PeerID, timeline: seq<Operation>) {
    forall i, j | 0 <= i < j < |timeline| && timeline[j].peerID == q ::
      if timeline[i].peerID == q then Leq(timeline[i].vector, timeline[j].vector) else MayPrecede(timeline[i], timeline[j])
  }

  ghost predicate Below(q: PeerID, timeline: seq<Operation>, v: Counts) {
    forall i | 0 <= i < |timeline| ::
      Leq(timeline[i].vector, v) && (timeline[i].peerID != q ==> CountsWithin(timeline[i], q, Count(v, q)))
  }

  /** The timeline is made of the own operations and those handed over, each in order, and respects clocks. */
  ghost predicate TimelineWell(q: PeerID, v: Counts, own: seq<Operation>, received: seq<Operation>, timeline: seq<Operation>) {
    && From(timeline, q) == own && NotFrom(timeline, q) == received
    && InClockOrder(q, timeline) && Below(q, timeline, v)
  }

  ghost predicate StoreReplays(q: PeerID, store: Store, timeline: seq<Operation>) {
    forall id: string :: Lookup(store, id) == Replay(q, timeline, id)
  }

  ghost predicate PeerReplays(q: PeerID, s: PeerState, own: seq<Operation>, received: seq<Operation>, timeline: seq<Operation>) {
    TimelineWell(q, s.vector, own, received, timeline) && StoreReplays(q, s.store, timeline)
  }

  ghost predicate AllReplay(sys: System)
    requires SameDomains(sys)
  {
    forall q | q in sys.peers ::
      PeerReplays(q, sys.peers[q], Operations(sys.issued[q]), sys.received[q], sys.timeline[q])
  }

  lemma TimelineGrows(q: PeerID, timeline: seq<Operation>, op: Operation, v: Counts, v': Counts)
    requires InClockOrder(q, timeline) && Below(q, timeline, v) && Leq(v, v') && Leq(op.vector, v')
    requires if op.peerID == q then op.vector == v else CountsWithin(op, q, Count(v, q))
    ensures InClockOrder(q, timeline + [op]) && Below(q, timeline + [op], v')
  {
    var all := timeline + [op];
    LeqIsPointwise(v, v');
    assert Count(v, q) <= Count(v', q);
    hide Leq, Count;
    forall i | 0 <= i < |timeline| ensures all[i] == timeline[i] && Leq(all[i].vector, v') {
      LeqTransitive(timeline[i].vector, v, v');
    }
    assert all[|timeline|] == op;
  }

  lemma IssueReplays(q: PeerID, s: PeerState, s': PeerState, own: seq<Operation>, received: seq<Operation>, timeline: seq<Operation>, op: Operation)
    requires PeerReplays(q, s, own, received, timeline)
    requires Sound(op) && op.peerID == q && op.vector == s.vector && s'.vector == Bump(s.vector, q)
    requires forall id: string ::
      Lookup(s'.store, id) == if id == op.documentID then OwnerEffect(Lookup(s.store, id), op) else Lookup(s.store, id)
    ensures PeerReplays(q, s', own + [op], received, timeline + [op])
  {
    BumpMovesStrictlyUp(s.vector, q);
    LeqIsPointwise(s.vector, s.vector);
    FromOneMore(timeline, op, q);
    TimelineGrows(q, timeline, op, s.vector, s'.vector);
    hide OwnerEffect, Sound, Leq, Bump, From, NotFrom;
    forall id: string ensures Lookup(s'.store, id) == Replay(q, timeline + [op], id) {
      ReplayOneMore(q, timeline, op, id);
    }
  }

  lemma HandReplays(q: PeerID, s: PeerState, own: seq<Operation>, received: seq<Operation>, timeline: seq<Operation>, op: Operation, now: int)
    requires PeerReplays(q, s, own, received, timeline)
    requires Sound(op) && Filed(s.store) && op.peerID != q && CountsWithin(op, q, Count(s.vector, q))
    ensures PeerReplays(q, Receive(s, op, now), own, received + [op], timeline + [op])
  {
    var v' := Join(s.vector, op.vector);
    LeqIsPointwise(v', v');
    JoinIsLeastUpperBound(s.vector, op.vector, v');
    FromOneMore(timeline, op, q);
    TimelineGrows(q, timeline, op, s.vector, v');
    hide RemoteEffect, Sound, Filed, Leq, Join, From, NotFrom, ReceiveIntoStore;
    forall id: string ensures Lookup(ReceiveIntoStore(s.store, op, now), id) == Replay(q, timeline + [op], id) {
      ReplayOneMore(q, timeline, op, id);
      ReceiveTouchesOneDocument(s.store, op, now, id);
    }
  }

  // ---------------------------------------------------------------- every run

  lemma OperationsOneMore(issued: seq<Issued>, i: Issued)
    ensures Operations(issued + [i]) == Operations(issued) + [i.op]
  {
  }

  lemma IssueKeepsReplay(sys: System, p: PeerID, s: PeerState, op: Operation)
    requires SameDomains(sys) && p in sys.peers && AllReplay(sys)
    requires Sound(op) && op.peerID == p && op.vector == sys.peers[p].vector && s.vector == Bump(sys.peers[p].vector, p)
    requires forall id: string ::
      Lookup(s.store, id) == if id == op.documentID then OwnerEffect(Lookup(sys.peers[p].store, id), op) else Lookup(sys.peers[p].store, id)
    ensures AllReplay(Issue(sys, p, s, op))
  {
    hide PeerReplays, OwnerEffect, Sound, Bump, Lookup;
    IssueReplays(p, sys.peers[p], s, Operations(sys.issued[p]), sys.received[p], sys.timeline[p], op);
    OperationsOneMore(sys.issued[p], Issued(op, sys.history[p]));
  }

  lemma LocalStepKeepsReplay(sys: System, step: Step)
    requires Enabled(sys, step) && (step.LocalInsert? || step.LocalDelete?) && AllReplay(sys)
    ensures AllReplay(Next(sys, step))
  {
    hide AllReplay, Prune, Filed;
    var p, s := step.peer, sys.peers[step.peer];
    match step
    case LocalInsert(_, fields, now) =>
      IssueKeepsReplay(sys, p, InsertLocally(s, p, fields, now), InsertOperation(p, s.vector, fields, now));
    case LocalDelete(_, id, now) =>
      IssueKeepsReplay(sys, p, DeleteLocally(s, p, id, now), DeleteOperation(p, s.vector, id, now));
    case _ =>
  }

  lemma HandKeepsReplay(sys: System, q: PeerID, op: Operation, now: int)
    requires SameDomains(sys) && AllReplay(sys) && q in sys.peers
    requires Sound(op) && Filed(sys.peers[q].store) && op.peerID != q
    requires CountsWithin(op, q, Count(sys.peers[q].vector, q))
    ensures AllReplay(Hand(sys, q, op, now))
  {
    hide PeerReplays, Sound, Filed, Receive;
    HandReplays(q, sys.peers[q], Operations(sys.issued[q]), sys.received[q], sys.timeline[q], op, now);
  }

  lemma {:induction false} HandAllKeepsReplay(sys: System, q: PeerID, ops: seq<Operation>, now: int)
    requires SameDomains(sys) && AllReplay(sys) && q in sys.peers
    requires AllSound(ops) && Filed(sys.peers[q].store)
    requires forall i | 0 <= i < |ops| :: ops[i].peerID != q && CountsWithin(ops[i], q, Count(sys.peers[q].vector, q))
    ensures AllReplay(HandAll(sys, q, ops, now))
    ensures Count(sys.peers[q].vector, q) <= Count(HandAll(sys, q, ops, now).peers[q].vector, q)
  {
    if ops != [] {
      hide AllReplay, Hand, Filed, Sound, ReceiveAll, Receive, Count;
      var n := |ops| - 1;
      HandAllKeepsReplay(sys, q, ops[..n], now);
      HandKeepsReplay(HandAll(sys, q, ops[..n], now), q, ops[n], now);
      HandCounts(HandAll(sys, q, ops[..n], now), q, ops[n], now);
    }
  }

  lemma HandCounts(sys: System, q: PeerID, op: Operation, now: int)
    requires SameDomains(sys) && q in sys.peers && Sound(op) && Filed(sys.peers[q].store)
    ensures Count(sys.peers[q].vector, q) <= Count(Hand(sys, q, op, now).peers[q].vector, q)
  {
  }

  /** Whatever is sent counts of a peer only what that peer has issued. */
  lemma SentCountsWithin(sys: System, q: PeerID, op: Operation)
    requires Inv(sys) && q in sys.peers && Genuine(sys.issued, op) && op.peerID != q
    ensures CountsWithin(op, q, Count(sys.peers[q].vector, q))
  {
    InvAt(sys, q);
    var e := EventOf(op);
    assert IssuedWell(sys.issued, e.peer, e.index);
    if Count(op.vector, q) > 0 {
      assert Founded(sys.issued, op.vector, At(sys.issued, e).causes, Event(q, Count(op.vector, q)));
    }
  }

  lemma QuietKeepsReplay(sys: System, sys': System)
    requires SameDomains(sys) && SameDomains(sys') && AllReplay(sys) && sys'.peers.Keys == sys.peers.Keys
    requires sys'.issued == sys.issued && sys'.received == sys.received && sys'.timeline == sys.timeline
    requires forall q | q in sys.peers :: sys'.peers[q].store == sys.peers[q].store && sys'.peers[q].vector == sys.peers[q].vector
    ensures AllReplay(sys')
  {
    hide TimelineWell, StoreReplays;
    forall q | q in sys'.peers ensures PeerReplays(q, sys'.peers[q], Operations(sys'.issued[q]), sys'.received[q], sys'.timeline[q]) {
      assert PeerReplays(q, sys.peers[q], Operations(sys.issued[q]), sys.received[q], sys.timeline[q]);
    }
  }

  lemma FinishKeepsReplay(sys: System, step: Step)
    requires Inv(sys) && Enabled(sys, step) && step.FinishSync? && AllReplay(sys)
    ensures AllReplay(Next(sys, step))
  {
    hide AllReplay, HandAll, ReceiveAll, PeerWell, IssuedWell, Filed, Sound, CountsWithin;
    assert MessageWell(sys.issued, Response(step.peer, step.ops));
    forall i | 0 <= i < |step.ops| ensures CountsWithin(step.ops[i], step.peer, Count(sys.peers[step.peer].vector, step.peer)) {
      SentCountsWithin(sys, step.peer, step.ops[i]);
    }
    HandAllKeepsReplay(sys, step.peer, step.ops, step.now);
    QuietKeepsReplay(HandAll(sys, step.peer, step.ops, step.now), Next(sys, step));
  }

  lemma AnnouncedIsGenuine(sys: System, op: Operation)
    requires Inv(sys) && Announce(op) in sys.net
    ensures Genuine(sys.issued, op)
  {
    assert MessageWell(sys.issued, Announce(op));
  }

  lemma StepKeepsReplay(sys: System, step: Step)
    requires Inv(sys) && Enabled(sys, step) && AllReplay(sys)
    ensures AllReplay(Next(sys, step))
  {
    hide Inv, AllReplay, HandAll, ReceiveAll, Hand, Issue, CountsWithin;
    match step
    case LocalInsert(_, _, _) => LocalStepKeepsReplay(sys, step);
    case LocalDelete(_, _, _) => LocalStepKeepsReplay(sys, step);
    case Deliver(q, op, now) =>
      AnnouncedIsGenuine(sys, op);
      SentCountsWithin(sys, q, op);
      HandKeepsReplay(sys, q, op, now);
    case FinishSync(_, _, _) => FinishKeepsReplay(sys, step);
    case _ => QuietKeepsReplay(sys, Next(sys, step));
  }

  /** In every run, whoever writes what: every store is the replay of its peer's timeline. */
  lemma {:induction false} RunReplays(names: set<PeerID>, steps: seq<Step>)
    requires ValidRun(Init(names), steps)
    ensures AllReplay(StateAfter(Init(names), steps))
  {
    if steps == [] {
      forall q | q in names ensures PeerReplays(q, Init(names).peers[q], [], [], []) {
      }
      assert forall q | q in names :: Operations(Init(names).issued[q]) == [];
    } else {
      hide AllReplay, Inv;
      RunKeepsInv(names, steps[..|steps| - 1]);
      RunReplays(names, steps[..|steps| - 1]);
      StepKeepsReplay(StateAfter(Init(names), steps[..|steps| - 1]), steps[|steps| - 1]);
    }
  }

  lemma ReachedReplays(sys: System)
    requires Reached(sys)
    ensures Inv(sys) && SameDomains(sys) && AllReplay(sys)
  {
    hide Inv, AllReplay;
    ReachedInv(sys);
    InvDomains(sys);
    var names: set<PeerID>, steps: seq<Step> :| ValidRun(Init(names), steps) && sys == StateAfter(Init(names), steps);
    RunReplays(names, steps);
  }

  /** One peer, one document: the statement as it is used. */
  lemma StoreIsReplay(sys: System, q: PeerID, id: string)
    requires Reached(sys) && q in sys.peers
    ensures SameDomains(sys)
    ensures Lookup(sys.peers[q].store, id) == Replay(q, sys.timeline[q], id)
    ensures TimelineWell(q, sys.peers[q].vector, Operations(sys.issued[q]), sys.received[q], sys.timeline[q])
  {
    hide Reached, Inv, TimelineWell;
    ReachedReplays(sys);
    assert PeerReplays(q, sys.peers[q], Operations(sys.issued[q]), sys.received[q], sys.timeline[q]);
  }

  /** Every operation on a timeline was issued, by the peer itself or by another. */
  lemma TimelineIsGenuine(sys: System, q: PeerID, op: Operation)
    requires Reached(sys) && q in sys.peers && q in sys.timeline && op in sys.timeline[q]
    ensures Genuine(sys.issued, op) && Sound(op) && IssuesLive(op) && op.kind != Other
  {
    hide Reached, Inv, Tracks, IssuedWell, InClockOrder, Below;
    StoreIsReplay(sys, q, op.documentID);
    FromMembers(sys.timeline[q], q);
    ReachedInv(sys);
    if op.peerID == q {
      assert op in Operations(sys.issued[q]);
      var k :| 0 <= k < |sys.issued[q]| && sys.issued[q][k].op == op;
      EventWell(sys, Event(q, k));
    } else {
      assert op in sys.received[q];
      HandedIsGenuine(sys, q, op);
      EventWell(sys, EventOf(op));
    }
  }

  lemma HandedIsGenuine(sys: System, q: PeerID, op: Operation)
    requires Inv(sys) && q in sys.peers && op in sys.received[q]
    ensures Genuine(sys.issued, op) && op.peerID != q
  {
    hide Tracks, IssuedWell;
    assert PeerWell(sys.issued, q, sys.peers[q], sys.history[q], sys.received[q]);
    var i :| 0 <= i < |sys.received[q]| && sys.received[q][i] == op;
    assert HandedWell(sys.issued, q, sys.history[q], sys.received[q][i]);
  }

  // ---------------------------------------------------------------- one writer

  /** Where one peer alone writes a document, its operations alone decide, in its own store and in copies. */
  lemma {:induction false} ReplayOfOneWriter(q: PeerID, timeline: seq<Operation>, p: PeerID, id: string)
    requires forall i | 0 <= i < |timeline| && timeline[i].documentID == id :: timeline[i].peerID == p
    ensures Replay(q, timeline, id) == if p == q then OwnAfter(From(timeline, p), id) else CopyAfter(From(timeline, p), id)
  {
    if timeline != [] {
      var front, last := Front(timeline), Last(timeline);
      assert forall i | 0 <= i < |front| :: front[i] == timeline[i];
      ReplayOfOneWriter(q, front, p, id);
      FrontLast(timeline);
      FromOneMore(front, last, p);
      AfterOneMore(From(front, p), last, id);
      ReplayOneMore(q, front, last, id);
    }
  }

  /** Where a peer never wrote a document itself, its copy replays all that it was handed. */
  lemma {:induction false} ReplayOfReader(q: PeerID, timeline: seq<Operation>, id: string)
    requires forall i | 0 <= i < |timeline| && timeline[i].documentID == id :: timeline[i].peerID != q
    ensures Replay(q, timeline, id) == CopyAfter(NotFrom(timeline, q), id) == CopyAfter(timeline, id)
  {
    if timeline != [] {
      var front, last := Front(timeline), Last(timeline);
      assert forall i | 0 <= i < |front| :: front[i] == timeline[i];
      ReplayOfReader(q, front, id);
      FrontLast(timeline);
      FromOneMore(front, last, q);
      AfterOneMore(NotFrom(front, q), last, id);
      AfterOneMore(front, last, id);
      ReplayOneMore(q, front, last, id);
    }
  }
}
