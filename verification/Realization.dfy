/**
 * Which timelines happen: the ways in which the clocks of operations let a peer come by them are exactly those of
 * runs. So what is said of all possible timelines is said of all runs.
 */
module Realization {
  import opened Json
  import opened Sequences
  import opened VectorClocks
  import opened Resolver
  import opened Replication
  import opened Causality
  import opened CausalClocks
  import opened Timelines
  import opened Replicas
  import opened Writers

  // ---------------------------------------------------------------- what clocks and operations look like

  /** No entry is zero, so counting alike means being equal. */
  predicate Positive(v: Counts) {
    forall p | p in v :: v[p] > 0
  }

  lemma CountsDecide(v: Counts, w: Counts)
    requires Positive(v) && Positive(w) && forall p: PeerID :: Count(v, p) == Count(w, p)
    ensures v == w
  {
    forall p ensures p in v <==> p in w {
      assert Count(v, p) == Count(w, p);
    }
    forall p | p in v ensures v[p] == w[p] {
      assert Count(v, p) == Count(w, p);
    }
  }

  /** The operation is what its peer announces for an insert or a deletion. */
  predicate Crafted(op: Operation) {
    || (op.data.Some? && HasID(op.data.value.payload)
        && op == InsertOperation(op.peerID, op.vector, op.data.value.payload, op.timestamp))
    || op == DeleteOperation(op.peerID, op.vector, op.documentID, op.timestamp)
  }

  ghost predicate AllCrafted(sys: System)
    requires SameDomains(sys)
  {
    && (forall p | p in sys.peers :: Positive(sys.peers[p].vector))
    && (forall p, k: nat | p in sys.issued && k < |sys.issued[p]| :: IsCrafted(sys.issued[p][k].op))
  }

  predicate IsCrafted(op: Operation) {
    Crafted(op) && Positive(op.vector)
  }

  lemma IssueKeepsCrafted(sys: System, p: PeerID, s: PeerState, op: Operation)
    requires SameDomains(sys) && p in sys.peers && AllCrafted(sys) && IsCrafted(op) && Positive(s.vector)
    ensures AllCrafted(Issue(sys, p, s, op))
  {
    hide IsCrafted, Positive;
  }

  lemma HandKeepsCrafted(sys: System, q: PeerID, op: Operation, now: int)
    requires SameDomains(sys) && q in sys.peers && Sound(op) && Filed(sys.peers[q].store) && AllCrafted(sys) && Positive(op.vector)
    ensures AllCrafted(Hand(sys, q, op, now))
  {
    JoinIsPositive(sys.peers[q].vector, op.vector);
    hide IsCrafted, Positive, Sound, Filed, Join, ReceiveIntoStore;
  }

  lemma JoinIsPositive(v: Counts, w: Counts)
    requires Positive(v) && Positive(w)
    ensures Positive(Join(v, w))
  {
    forall p | p in Join(v, w) ensures Join(v, w)[p] > 0 {
      assert Count(Join(v, w), p) == Max(Count(v, p), Count(w, p));
    }
  }

  lemma {:induction false} HandAllKeepsCrafted(sys: System, q: PeerID, ops: seq<Operation>, now: int)
    requires SameDomains(sys) && q in sys.peers && AllSound(ops) && Filed(sys.peers[q].store) && AllCrafted(sys)
    requires forall i | 0 <= i < |ops| :: Positive(ops[i].vector)
    ensures AllCrafted(HandAll(sys, q, ops, now))
  {
    if ops != [] {
      hide AllCrafted, Hand, Filed, Sound, Positive, ReceiveAll, Receive;
      HandAllKeepsCrafted(sys, q, ops[..|ops| - 1], now);
      HandKeepsCrafted(HandAll(sys, q, ops[..|ops| - 1], now), q, ops[|ops| - 1], now);
    }
  }

  lemma QuietKeepsCrafted(sys: System, sys': System)
    requires SameDomains(sys) && SameDomains(sys') && AllCrafted(sys) && sys'.peers.Keys == sys.peers.Keys
    requires sys'.issued == sys.issued && forall q | q in sys.peers :: sys'.peers[q].vector == sys.peers[q].vector
    ensures AllCrafted(sys')
  {
    hide IsCrafted, Positive;
  }

  lemma SentIsPositive(sys: System, op: Operation)
    requires Inv(sys) && AllCrafted(sys) && Genuine(sys.issued, op)
    ensures Positive(op.vector)
  {
    assert IsCrafted(sys.issued[op.peerID][OwnCounter(op)].op);
  }

  lemma LocalStepKeepsCrafted(sys: System, step: Step)
    requires Enabled(sys, step) && (step.LocalInsert? || step.LocalDelete?) && AllCrafted(sys)
    ensures AllCrafted(Next(sys, step))
  {
    hide AllCrafted, Prune, Filed, Issue;
    var p, s := step.peer, sys.peers[step.peer];
    BumpIsPositive(sys, p);
    match step
    case LocalInsert(_, fields, now) =>
      IssueKeepsCrafted(sys, p, InsertLocally(s, p, fields, now), InsertOperation(p, s.vector, fields, now));
    case LocalDelete(_, id, now) =>
      IssueKeepsCrafted(sys, p, DeleteLocally(s, p, id, now), DeleteOperation(p, s.vector, id, now));
    case _ =>
  }

  lemma BumpIsPositive(sys: System, p: PeerID)
    requires SameDomains(sys) && AllCrafted(sys) && p in sys.peers
    ensures Positive(sys.peers[p].vector) && Positive(Bump(sys.peers[p].vector, p))
  {
  }

  lemma StepKeepsCrafted(sys: System, step: Step)
    requires Inv(sys) && Enabled(sys, step) && AllCrafted(sys)
    ensures AllCrafted(Next(sys, step))
  {
    hide Inv, AllCrafted, Next, Enabled;
    match step
    case LocalInsert(_, _, _) => LocalStepKeepsCrafted(sys, step);
    case LocalDelete(_, _, _) => LocalStepKeepsCrafted(sys, step);
    case Deliver(_, _, _) => DeliveryKeepsCrafted(sys, step);
    case FinishSync(_, _, _) => FinishKeepsCrafted(sys, step);
    case _ => QuietStepKeepsCrafted(sys, step);
  }

  lemma DeliveryKeepsCrafted(sys: System, step: Step)
    requires Inv(sys) && Enabled(sys, step) && step.Deliver? && AllCrafted(sys)
    ensures AllCrafted(Next(sys, step))
  {
    hide Inv, AllCrafted, Hand, Positive, Sound, Filed;
    AnnouncedIsGenuine(sys, step.op);
    SentIsPositive(sys, step.op);
    HandKeepsCrafted(sys, step.peer, step.op, step.now);
  }

  lemma QuietStepKeepsCrafted(sys: System, step: Step)
    requires Enabled(sys, step) && AllCrafted(sys)
    requires step.RequestSync? || step.AnswerSync? || step.SyncTimeout?
    ensures AllCrafted(Next(sys, step))
  {
    var next := Next(sys, step);
    hide *;
    QuietStepIsQuiet(sys, step);
    QuietKeepsCrafted(sys, next);
  }

  lemma QuietStepIsQuiet(sys: System, step: Step)
    requires Enabled(sys, step)
    requires step.RequestSync? || step.AnswerSync? || step.SyncTimeout?
    ensures Next(sys, step).issued == sys.issued
    ensures forall q | q in sys.peers :: Next(sys, step).peers[q].vector == sys.peers[q].vector
  {
    hide Missing, Filed, Issue, Hand, HandAll, InsertLocally, DeleteLocally, Enabled;
    match step
    case RequestSync(p) => assert Next(sys, step).peers == sys.peers[p := sys.peers[p].(syncing := true)];
    case AnswerSync(_, _, _) => assert Next(sys, step).peers == sys.peers;
    case SyncTimeout(p) => assert Next(sys, step).peers == sys.peers[p := sys.peers[p].(syncing := false)];
    case _ =>
  }

  lemma FinishKeepsCrafted(sys: System, step: Step)
    requires Inv(sys) && Enabled(sys, step) && step.FinishSync? && AllCrafted(sys)
    ensures AllCrafted(Next(sys, step))
  {
    hide AllCrafted, Hand, HandAll, ReceiveAll, PeerWell, IssuedWell, Filed, Sound, Positive, Issue, InsertLocally, DeleteLocally, HasID;
    assert MessageWell(sys.issued, Response(step.peer, step.ops));
    forall i | 0 <= i < |step.ops| ensures Positive(step.ops[i].vector) {
      SentIsPositive(sys, step.ops[i]);
    }
    HandAllKeepsCrafted(sys, step.peer, step.ops, step.now);
    QuietKeepsCrafted(HandAll(sys, step.peer, step.ops, step.now), Next(sys, step));
  }

  lemma {:induction false} RunIsCrafted(names: set<PeerID>, steps: seq<Step>)
    requires ValidRun(Init(names), steps)
    ensures AllCrafted(StateAfter(Init(names), steps))
  {
    if steps != [] {
      hide AllCrafted, Inv;
      RunKeepsInv(names, steps[..|steps| - 1]);
      RunIsCrafted(names, steps[..|steps| - 1]);
      StepKeepsCrafted(StateAfter(Init(names), steps[..|steps| - 1]), steps[|steps| - 1]);
    }
  }

  lemma ReachedIsCrafted(sys: System)
    requires Reached(sys)
    ensures Inv(sys) && SameDomains(sys) && AllCrafted(sys)
  {
    hide Inv, AllCrafted;
    ReachedInv(sys);
    InvDomains(sys);
    var names: set<PeerID>, steps: seq<Step> :| ValidRun(Init(names), steps) && sys == StateAfter(Init(names), steps);
    RunIsCrafted(names, steps);
  }

  // ---------------------------------------------------------------- an order of the events

  function EventsOf(sys: System): set<Event> {
    set p, k | p in sys.issued && 0 <= k < |sys.issued[p]| :: Event(p, k)
  }

  /**
   * Where an event stands as seen from peer `q`: what counts none of `q`'s operations stands first, what counts
   * one of them stands right after it.
   */
  function Tier(sys: System, q: PeerID, e: Event): nat
    requires IsEvent(sys.issued, e)
  {
    if e.peer == q then 2 * e.index + 1
    else if Count(Clock(sys, e), q) == 0 then 0
    else 2 * Count(Clock(sys, e), q) + 2
  }

  predicate Before(sys: System, q: PeerID, a: Event, b: Event)
    requires IsEvent(sys.issued, a) && IsEvent(sys.issued, b)
  {
    || Tier(sys, q, a) < Tier(sys, q, b)
    || (Tier(sys, q, a) == Tier(sys, q, b) && |At(sys.issued, a).causes| < |At(sys.issued, b).causes|)
  }

  /** What the clock of an event names: the earlier ones of its peer, and the last one it counts of each other. */
  predicate Names(sys: System, e: Event, d: Event)
    requires IsEvent(sys.issued, e)
  {
    if d.peer == e.peer then d.index < e.index else d.index == Count(Clock(sys, e), d.peer) && d.index > 0
  }

  lemma FewerCauses(a: set<Event>, b: set<Event>, d: Event)
    requires a <= b && d in b && d !in a
    ensures |a| < |b|
  {
    assert a <= b - {d};
    SubsetCounts(a, b - {d});
  }

  lemma {:induction false} SubsetCounts(a: set<Event>, b: set<Event>)
    requires a <= b
    ensures |a| <= |b|
  {
    if a != {} {
      var x :| x in a;
      SubsetCounts(a - {x}, b - {x});
    }
  }

  /** What is named took place before, with a smaller clock and fewer causes. */
  lemma NamedIsCause(sys: System, e: Event, d: Event)
    requires Inv(sys) && IsEvent(sys.issued, e) && Names(sys, e, d)
    ensures IsEvent(sys.issued, d) && Leq(Clock(sys, d), Clock(sys, e))
    ensures At(sys.issued, d).causes <= At(sys.issued, e).causes && d in At(sys.issued, e).causes
    ensures |At(sys.issued, d).causes| < |At(sys.issued, e).causes|
  {
    hide Inv, Leq;
    EventWell(sys, e);
    assert Founded(sys.issued, Clock(sys, e), At(sys.issued, e).causes, d);
    EventWell(sys, d);
    FewerCauses(At(sys.issued, d).causes, At(sys.issued, e).causes, d);
  }

  lemma NamedIsBefore(sys: System, q: PeerID, e: Event, d: Event)
    requires Inv(sys) && IsEvent(sys.issued, e) && Names(sys, e, d)
    ensures IsEvent(sys.issued, d) && Before(sys, q, d, e)
  {
    NamedIsCause(sys, e, d);
    EventWell(sys, e);
    EventWell(sys, d);
    LeqIsPointwise(Clock(sys, d), Clock(sys, e));
    hide Inv, Leq;
    var l := Count(Clock(sys, d), q);
    if d.peer != q && l > 0 {
      assert Event(q, l) in At(sys.issued, d).causes;
      assert e.peer == q ==> l < e.index;
    }
  }

  /** An operation that may precede an own one stands before it. */
  lemma MayPrecedeIsBefore(sys: System, q: PeerID, d: Event, e: Event)
    requires Inv(sys) && IsEvent(sys.issued, d) && IsEvent(sys.issued, e) && d.peer != q && e.peer == q
    requires MayPrecede(At(sys.issued, d).op, At(sys.issued, e).op)
    ensures Before(sys, q, d, e)
  {
    hide Inv, Leq;
    EventWell(sys, e);
  }

  /** In any non-empty set some event has none before it. */
  lemma {:induction false} Foremost(sys: System, q: PeerID, left: set<Event>) returns (e: Event)
    requires left != {} && forall x | x in left :: IsEvent(sys.issued, x)
    ensures e in left && forall x | x in left :: !Before(sys, q, x, e)
    decreases left
  {
    var x :| x in left;
    if left == {x} {
      e := x;
    } else {
      var y := Foremost(sys, q, left - {x});
      hide Tier;
      e := if Before(sys, q, x, y) then x else y;
      forall z | z in left ensures !Before(sys, q, z, e) {
        if z != x {
          assert !Before(sys, q, z, y);
        }
      }
    }
  }

  // ---------------------------------------------------------------- fresh peers

  lemma {:induction false} LongName(used: set<PeerID>) returns (name: PeerID)
    ensures forall p | p in used :: |p| < |name|
    decreases used
  {
    if used == {} {
      return "";
    }
    var p :| p in used;
    var other := LongName(used - {p});
    name := if |p| < |other| then other else p + "+";
    forall x | x in used ensures |x| < |name| {
      assert x == p || x in used - {p};
    }
  }

  /** A peer of its own for each event. */
  lemma {:induction false} StandIns(events: set<Event>, used: set<PeerID>) returns (names: map<Event, PeerID>)
    ensures names.Keys == events && forall e | e in events :: names[e] !in used
    ensures forall a, b | a in events && b in events && a != b :: names[a] != names[b]
    decreases events
  {
    if events == {} {
      return map[];
    }
    var e :| e in events;
    var rest := StandIns(events - {e}, used);
    var name := LongName(used + rest.Values);
    assert name !in used + rest.Values;
    names := rest[e := name];
    forall a, b | a in events && b in events && a != b ensures names[a] != names[b] {
      assert a != e ==> rest[a] in rest.Values;
      assert b != e ==> rest[b] in rest.Values;
    }
  }

  // ---------------------------------------------------------------- steps of one peer

  /** Only peer `u` moved, and nothing that was sent is lost. */
  ghost predicate Moved(s: System, s': System, u: PeerID) {
    && Reached(s) && SameDomains(s) && Reached(s') && SameDomains(s')
    && s'.peers.Keys == s.peers.Keys && u in s.peers && s.net <= s'.net
    && forall r | r in s.peers && r != u ::
         s'.peers[r] == s.peers[r] && s'.issued[r] == s.issued[r] && s'.timeline[r] == s.timeline[r]
  }

  lemma MovedOn(s: System, s': System, s'': System, u: PeerID)
    requires Moved(s, s', u) && Moved(s', s'', u)
    ensures Moved(s, s'', u)
  {
    hide Reached;
  }

  /** The operations were announced by others. */
  predicate Deliverable(s: System, u: PeerID, ds: seq<Operation>) {
    forall i | 0 <= i < |ds| :: Announce(ds[i]) in s.net && ds[i].peerID != u && Sound(ds[i])
  }

  function JoinFrom(v: Counts, ds: seq<Operation>): Counts {
    if ds == [] then v else Join(JoinFrom(v, ds[..|ds| - 1]), ds[|ds| - 1].vector)
  }

  lemma HandOne(s: System, u: PeerID, d: Operation) returns (s': System)
    requires Reached(s) && SameDomains(s) && u in s.peers && Announce(d) in s.net && d.peerID != u && Sound(d)
    ensures Moved(s, s', u) && s'.issued[u] == s.issued[u]
    ensures s'.timeline[u] == s.timeline[u] + [d] && s'.peers[u].vector == Join(s.peers[u].vector, d.vector)
  {
    hide Reached, Sound, Join, Filed, ReceiveIntoStore;
    MayStep(s, Deliver(u, d, 0));
    s' := Next(s, Deliver(u, d, 0));
  }

  lemma {:induction false} HandSeq(s: System, u: PeerID, ds: seq<Operation>) returns (s': System)
    requires Reached(s) && SameDomains(s) && u in s.peers && Deliverable(s, u, ds)
    ensures Moved(s, s', u) && s'.issued[u] == s.issued[u]
    ensures s'.timeline[u] == s.timeline[u] + ds && s'.peers[u].vector == JoinFrom(s.peers[u].vector, ds)
  {
    hide Reached, Sound, Deliverable, Join;
    if ds == [] {
      s' := s;
      assert s.timeline[u] + ds == s.timeline[u];
    } else {
      var front, last := ds[..|ds| - 1], ds[|ds| - 1];
      DeliverableFront(s, u, ds);
      var mid := HandSeq(s, u, front);
      s' := HandOne(mid, u, last);
      MovedOn(s, mid, s', u);
      TakeOneMore(s.timeline[u], ds);
    }
  }

  lemma DeliverableFront(s: System, u: PeerID, ds: seq<Operation>)
    requires Deliverable(s, u, ds) && ds != []
    ensures Deliverable(s, u, ds[..|ds| - 1])
    ensures Announce(ds[|ds| - 1]) in s.net && ds[|ds| - 1].peerID != u && Sound(ds[|ds| - 1])
  {
    hide Sound;
  }

  /** A peer whose clock is the operation's can issue it. */
  lemma IssueOne(s: System, op: Operation) returns (s': System)
    requires Reached(s) && SameDomains(s) && op.peerID in s.peers && Crafted(op) && op.vector == s.peers[op.peerID].vector
    ensures Moved(s, s', op.peerID) && |s'.issued[op.peerID]| == |s.issued[op.peerID]| + 1
    ensures s'.timeline[op.peerID] == s.timeline[op.peerID] + [op]
    ensures s'.peers[op.peerID].vector == Bump(op.vector, op.peerID) && Announce(op) in s'.net
  {
    hide Reached, Filed, Prune, Bump;
    var u := op.peerID;
    var step := if op == DeleteOperation(u, op.vector, op.documentID, op.timestamp) then LocalDelete(u, op.documentID, op.timestamp)
                else LocalInsert(u, op.data.value.payload, op.timestamp);
    MayStep(s, step);
    s' := Next(s, step);
  }

  /** The joined clock stays below what all are below, and reaches each of them. */
  lemma {:induction false} JoinFromBounds(v: Counts, ds: seq<Operation>, w: Counts)
    requires Leq(v, w) && forall i | 0 <= i < |ds| :: Leq(ds[i].vector, w)
    ensures Leq(v, JoinFrom(v, ds)) && Leq(JoinFrom(v, ds), w)
    ensures forall i | 0 <= i < |ds| :: Leq(ds[i].vector, JoinFrom(v, ds))
  {
    LeqIsPointwise(v, v);
    if ds != [] {
      var front, last := ds[..|ds| - 1], ds[|ds| - 1];
      JoinFromBounds(v, front, w);
      var before := JoinFrom(v, front);
      JoinIsLeastUpperBound(before, last.vector, w);
      hide Leq, Join;
      LeqTransitive(v, before, JoinFrom(v, ds));
      forall i | 0 <= i < |ds| ensures Leq(ds[i].vector, JoinFrom(v, ds)) {
        if i < |front| {
          assert front[i] == ds[i];
          LeqTransitive(front[i].vector, before, JoinFrom(v, ds));
        }
      }
    }
  }

  // ---------------------------------------------------------------- the plan of a run

  /**
   * In the run to be built every event of `sys` takes place again with its clock: as its operation where that is one
   * of `ops`, else as the insert of a document aside. Each event has a stand-in: a peer that is handed its operation
   * alone and then inserts a document aside, so with the clock of the event.
   */
  datatype Plan = Plan(sys: System, q: PeerID, timeline: seq<Operation>, ops: seq<Operation>, id: string, stands: map<Event, PeerID>)

  ghost predicate Sensible(pl: Plan) {
    && Inv(pl.sys) && SameDomains(pl.sys) && AllCrafted(pl.sys)
    && (forall op | op in pl.ops :: Genuine(pl.sys.issued, op) && op.documentID == pl.id)
    && Possible(pl.q, pl.timeline, pl.ops)
    && pl.stands.Keys == EventsOf(pl.sys)
    && (forall e | e in pl.stands :: pl.stands[e] !in pl.sys.peers && pl.stands[e] != pl.q)
    && (forall a, b | a in pl.stands && b in pl.stands && a != b :: pl.stands[a] != pl.stands[b])
  }

  function Aside(id: string): (fields: Fields)
    ensures HasID(fields) && fields["id"].text != id
  {
    map["id" := Str(id + "+")]
  }

  function Original(pl: Plan, e: Event): Operation
    requires IsEvent(pl.sys.issued, e)
  {
    At(pl.sys.issued, e).op
  }

  function Again(pl: Plan, e: Event): Operation
    requires IsEvent(pl.sys.issued, e)
  {
    if Original(pl, e) in pl.ops then Original(pl, e) else InsertOperation(e.peer, Clock(pl.sys, e), Aside(pl.id), 0)
  }

  function StandIn(pl: Plan, e: Event): Operation
    requires IsEvent(pl.sys.issued, e) && e in pl.stands
  {
    InsertOperation(pl.stands[e], Clock(pl.sys, e), Aside(pl.id), 0)
  }

  lemma AgainIsAlike(pl: Plan, e: Event)
    requires Sensible(pl) && IsEvent(pl.sys.issued, e)
    ensures var op := Again(pl, e);
      && Crafted(op) && Sound(op) && op.peerID == e.peer && op.vector == Clock(pl.sys, e)
      && (op.documentID == pl.id <==> Original(pl, e) in pl.ops)
  {
    hide Inv, Possible;
    EventWell(pl.sys, e);
    assert IsCrafted(pl.sys.issued[e.peer][e.index].op);
  }

  lemma StandInIsAside(pl: Plan, e: Event)
    requires Sensible(pl) && IsEvent(pl.sys.issued, e)
    ensures e in pl.stands
    ensures var op := StandIn(pl, e);
      && Crafted(op) && Sound(op) && op.peerID == pl.stands[e] && op.vector == Clock(pl.sys, e) && op.documentID != pl.id
  {
    hide Inv, Possible, AllCrafted;
    assert e in EventsOf(pl.sys);
  }

  /** The clock of a peer after its first `n` operations, with nothing handed to it since. */
  function AfterOwn(sys: System, u: PeerID, n: nat): Counts
    requires u in sys.issued && n <= |sys.issued[u]|
  {
    if n == 0 then map[] else Bump(Clock(sys, Event(u, n - 1)), u)
  }

  ghost predicate PeerStaged(pl: Plan, done: set<Event>, s: System, u: PeerID)
    requires SameDomains(s) && u in s.peers && u in pl.sys.issued
  {
    && |s.issued[u]| <= |pl.sys.issued[u]|
    && (forall k: nat | k < |pl.sys.issued[u]| :: Event(u, k) in done <==> k < |s.issued[u]|)
    && s.peers[u].vector == AfterOwn(pl.sys, u, |s.issued[u]|)
  }

  ghost predicate AllStaged(pl: Plan, done: set<Event>, s: System) {
    && SameDomains(s) && s.peers.Keys == pl.sys.peers.Keys + {pl.q} + pl.stands.Values
    && forall u | u in pl.sys.peers && u in pl.sys.issued :: PeerStaged(pl, done, s, u)
  }

  ghost predicate Sent(pl: Plan, done: set<Event>, s: System) {
    forall e | e in done && IsEvent(pl.sys.issued, e) && e in pl.stands ::
      Announce(Again(pl, e)) in s.net && Announce(StandIn(pl, e)) in s.net
  }

  ghost predicate StandsIdle(pl: Plan, done: set<Event>, s: System) {
    forall e | e in pl.stands && e !in done :: pl.stands[e] in s.peers && s.peers[pl.stands[e]].vector == map[]
  }

  /** Of its timeline, `q` has been given the first `m` operations, with its own ones that are done. */
  ghost predicate Given(pl: Plan, done: set<Event>, m: nat) {
    && m <= |pl.timeline|
    && forall i | 0 <= i < |pl.timeline| && pl.timeline[i].peerID == pl.q :: i < m <==> EventOf(pl.timeline[i]) in done
  }

  ghost predicate Staged(pl: Plan, done: set<Event>, s: System, m: nat) {
    && Reached(s) && AllStaged(pl, done, s)
    && Sent(pl, done, s) && StandsIdle(pl, done, s) && Given(pl, done, m)
    && OnDocument(s.timeline[pl.q], pl.id) == pl.timeline[..m]
  }

  /** The event is the next to take place: all before it have. */
  ghost predicate Due(pl: Plan, done: set<Event>, e: Event) {
    && IsEvent(pl.sys.issued, e) && e !in done
    && forall x | IsEvent(pl.sys.issued, x) && Before(pl.sys, pl.q, x, e) :: x in done
  }

  lemma DueIsEvent(pl: Plan, done: set<Event>, e: Event)
    requires Due(pl, done, e)
    ensures IsEvent(pl.sys.issued, e) && e !in done
  {
  }

  // ---------------------------------------------------------------- what the issuer is handed first

  lemma IsInTimeline(pl: Plan, e: Event) returns (j: nat)
    requires Sensible(pl) && IsEvent(pl.sys.issued, e) && e.peer == pl.q && Original(pl, e) in pl.ops
    ensures j < |pl.timeline| && pl.timeline[j] == Original(pl, e)
  {
    assert Original(pl, e) in pl.timeline;
    j :| 0 <= j < |pl.timeline| && pl.timeline[j] == Original(pl, e);
  }

  /** What lies on the timeline before the own operation that is due: operations of others that took place already. */
  lemma SegmentIsDone(pl: Plan, done: set<Event>, m: nat, e: Event, j: nat)
    requires Sensible(pl) && Due(pl, done, e) && Given(pl, done, m) && e.peer == pl.q
    requires j < |pl.timeline| && pl.timeline[j] == Original(pl, e) && Original(pl, e) in pl.ops
    ensures m <= j && Given(pl, done + {e}, j + 1)
    ensures forall i | m <= i < j :: OtherDone(pl, done, e, pl.timeline[i])
  {
    hide Inv, AllCrafted, Possible, OtherDone, EventsOf, Before, Genuine;
    EventWell(pl.sys, e);
    assert EventOf(pl.timeline[j]) == e;
    OwnOnTimeline(pl, done, m, e, j, j);
    forall i | 0 <= i < |pl.timeline| && pl.timeline[i].peerID == pl.q
      ensures i < j + 1 <==> EventOf(pl.timeline[i]) in done + {e}
    {
      OwnOnTimeline(pl, done, m, e, j, i);
    }
    forall i | m <= i < j ensures OtherDone(pl, done, e, pl.timeline[i]) {
      OtherOnTimeline(pl, done, m, e, j, i);
    }
  }

  /** Another peer's operation that took place and is below the clock of the event. */
  ghost predicate OtherDone(pl: Plan, done: set<Event>, e: Event, op: Operation)
    requires IsEvent(pl.sys.issued, e)
  {
    op in pl.ops && op.peerID != e.peer && EventOf(op) in done && Leq(op.vector, Clock(pl.sys, e))
  }

  lemma OwnOnTimeline(pl: Plan, done: set<Event>, m: nat, e: Event, j: nat, i: nat)
    requires Sensible(pl) && Due(pl, done, e) && Given(pl, done, m) && e.peer == pl.q
    requires j < |pl.timeline| && pl.timeline[j] == Original(pl, e) && EventOf(pl.timeline[j]) == e
    requires i < |pl.timeline| && pl.timeline[i].peerID == pl.q
    ensures i < j ==> EventOf(pl.timeline[i]) in done
    ensures i > j ==> EventOf(pl.timeline[i]) !in done && EventOf(pl.timeline[i]) != e
    ensures m <= j
  {
    var x := EventOf(pl.timeline[i]);
    assert pl.timeline[i] in pl.ops && IsEvent(pl.sys.issued, x);
    assert pl.timeline[j].peerID == pl.q;
    hide Inv, AllCrafted, Genuine;
    if i < j {
      assert Before(pl.sys, pl.q, x, e);
    }
  }

  lemma OtherOnTimeline(pl: Plan, done: set<Event>, m: nat, e: Event, j: nat, i: nat)
    requires Sensible(pl) && Due(pl, done, e) && Given(pl, done, m) && e.peer == pl.q
    requires m <= i < j < |pl.timeline| && pl.timeline[j] == Original(pl, e) && EventOf(pl.timeline[j]) == e
    ensures OtherDone(pl, done, e, pl.timeline[i])
  {
    var op := pl.timeline[i];
    assert op in pl.ops;
    if op.peerID == pl.q {
      OwnOnTimeline(pl, done, m, e, j, i);
    } else {
      assert MayPrecede(op, pl.timeline[j]);
      MayPrecedeIsBefore(pl.sys, pl.q, EventOf(op), e);
    }
  }

  /** An own event that is not to be shown leaves the timeline where it is. */
  lemma GivenAsBefore(pl: Plan, done: set<Event>, m: nat, e: Event)
    requires Sensible(pl) && IsEvent(pl.sys.issued, e) && Given(pl, done, m) && !(e.peer == pl.q && Original(pl, e) in pl.ops)
    ensures Given(pl, done + {e}, m)
  {
    hide Inv, AllCrafted;
    forall i | 0 <= i < |pl.timeline| && pl.timeline[i].peerID == pl.q ensures EventOf(pl.timeline[i]) != e {
      assert pl.timeline[i] in pl.ops;
    }
  }

  /** Of each other peer that the clock counts, the event it counts. */
  lemma {:induction false} NamedOthers(sys: System, e: Event, peers: set<PeerID>) returns (ds: seq<Event>)
    requires Inv(sys) && IsEvent(sys.issued, e)
    ensures forall i | 0 <= i < |ds| :: IsEvent(sys.issued, ds[i]) && Names(sys, e, ds[i]) && ds[i].peer != e.peer
    ensures forall r | r in peers && r != e.peer && Count(Clock(sys, e), r) > 0 ::
      exists i | 0 <= i < |ds| :: ds[i] == Event(r, Count(Clock(sys, e), r))
    decreases peers
  {
    hide Inv, Leq;
    if peers == {} {
      return [];
    }
    var r :| r in peers;
    var rest := NamedOthers(sys, e, peers - {r});
    var d := Event(r, Count(Clock(sys, e), r));
    if r == e.peer || Count(Clock(sys, e), r) == 0 {
      ds := rest;
    } else {
      NamedIsCause(sys, e, d);
      ds := rest + [d];
      assert ds[|rest|] == d && forall i | 0 <= i < |rest| :: ds[i] == rest[i];
      forall x | x in peers && x != e.peer && Count(Clock(sys, e), x) > 0
        ensures exists i | 0 <= i < |ds| :: ds[i] == Event(x, Count(Clock(sys, e), x))
      {
        if x != r {
          var i :| 0 <= i < |rest| && rest[i] == Event(x, Count(Clock(sys, e), x));
          assert ds[i] == rest[i];
        }
      }
    }
  }

  lemma AfterOwnFits(sys: System, e: Event)
    requires Inv(sys) && IsEvent(sys.issued, e)
    ensures Leq(AfterOwn(sys, e.peer, e.index), Clock(sys, e))
    ensures Count(AfterOwn(sys, e.peer, e.index), e.peer) == Count(Clock(sys, e), e.peer) == e.index
  {
    hide Inv, Leq;
    EventWell(sys, e);
    var v, w := AfterOwn(sys, e.peer, e.index), Clock(sys, e);
    LeqIsPointwise(v, w);
    if e.index > 0 {
      var d := Event(e.peer, e.index - 1);
      NamedIsCause(sys, e, d);
      EventWell(sys, d);
      LeqIsPointwise(Clock(sys, d), w);
      BumpMovesStrictlyUp(Clock(sys, d), e.peer);
    }
  }

  /** What reaches every component of the event's clock and stays below it makes up that clock. */
  lemma {:induction false} ClockArrives(sys: System, e: Event, hs: seq<Operation>)
    requires Inv(sys) && IsEvent(sys.issued, e)
    requires forall i | 0 <= i < |hs| :: Leq(hs[i].vector, Clock(sys, e))
    requires forall r | r != e.peer && Count(Clock(sys, e), r) > 0 ::
      exists i | 0 <= i < |hs| :: Count(hs[i].vector, r) == Count(Clock(sys, e), r)
    requires Positive(JoinFrom(AfterOwn(sys, e.peer, e.index), hs)) && Positive(Clock(sys, e))
    ensures JoinFrom(AfterOwn(sys, e.peer, e.index), hs) == Clock(sys, e)
  {
    hide Inv, Leq, JoinFrom, Positive;
    var v, w := AfterOwn(sys, e.peer, e.index), Clock(sys, e);
    var j := JoinFrom(v, hs);
    AfterOwnFits(sys, e);
    JoinFromBounds(v, hs, w);
    LeqIsPointwise(v, j);
    LeqIsPointwise(j, w);
    forall r: PeerID ensures Count(j, r) == Count(w, r) {
      if r != e.peer && Count(w, r) > 0 {
        var i :| 0 <= i < |hs| && Count(hs[i].vector, r) == Count(w, r);
        LeqIsPointwise(hs[i].vector, j);
      }
    }
    CountsDecide(j, w);
  }

  // ---------------------------------------------------------------- one event takes place again

  lemma {:induction false} OnDocumentConcat(a: seq<Operation>, b: seq<Operation>, id: string)
    ensures OnDocument(a + b, id) == OnDocument(a, id) + OnDocument(b, id)
  {
    if b == [] {
      assert a + b == a;
    } else {
      assert Front(a + b) == a + Front(b) && Last(a + b) == Last(b);
      OnDocumentConcat(a, Front(b), id);
    }
  }

  lemma {:induction false} AllOnDocument(ops: seq<Operation>, id: string)
    requires forall i | 0 <= i < |ops| :: ops[i].documentID == id
    ensures OnDocument(ops, id) == ops
  {
    if ops != [] {
      AllOnDocument(Front(ops), id);
      FrontLast(ops);
    }
  }

  lemma {:induction false} NoneOnDocument(ops: seq<Operation>, id: string)
    requires forall i | 0 <= i < |ops| :: ops[i].documentID != id
    ensures OnDocument(ops, id) == []
  {
    if ops != [] {
      NoneOnDocument(Front(ops), id);
    }
  }

  function StandInsOf(pl: Plan, ds: seq<Event>): seq<Operation>
    requires forall i | 0 <= i < |ds| :: IsEvent(pl.sys.issued, ds[i]) && ds[i] in pl.stands
  {
    seq(|ds|, i requires 0 <= i < |ds| => StandIn(pl, ds[i]))
  }

  /** The issuer's next operation is this one. */
  lemma DueIsNext(pl: Plan, done: set<Event>, s: System, m: nat, e: Event)
    requires Sensible(pl) && Staged(pl, done, s, m) && Due(pl, done, e)
    ensures e.peer in pl.sys.peers && e.peer in s.peers && |s.issued[e.peer]| == e.index
    ensures s.peers[e.peer].vector == AfterOwn(pl.sys, e.peer, e.index)
  {
    hide Inv, AllCrafted, Possible, Before, Reached, Sent, StandsIdle, Given, AfterOwn, OnDocument;
    assert PeerStaged(pl, done, s, e.peer);
    var n := |s.issued[e.peer]|;
    if n < e.index {
      var d := Event(e.peer, n);
      NamedIsBefore(pl.sys, pl.q, e, d);
      assert false;
    }
  }

  /** What the clock of a due event names of other peers took place, and its stand-in can be handed over. */
  lemma StandInsAreSent(pl: Plan, done: set<Event>, s: System, e: Event, ds: seq<Event>)
    requires Sensible(pl) && Sent(pl, done, s) && Due(pl, done, e) && e.peer in pl.sys.peers
    requires forall i | 0 <= i < |ds| :: IsEvent(pl.sys.issued, ds[i]) && Names(pl.sys, e, ds[i]) && ds[i].peer != e.peer
    ensures forall i | 0 <= i < |ds| :: ds[i] in pl.stands
    ensures Deliverable(s, e.peer, StandInsOf(pl, ds))
    ensures |StandInsOf(pl, ds)| == |ds|
    ensures forall i | 0 <= i < |ds| ::
      Leq(StandInsOf(pl, ds)[i].vector, Clock(pl.sys, e)) && StandInsOf(pl, ds)[i].vector == Clock(pl.sys, ds[i])
    ensures forall i | 0 <= i < |StandInsOf(pl, ds)| :: StandInsOf(pl, ds)[i].documentID != pl.id
  {
    hide Inv, AllCrafted, Possible, Before, Sound, Leq, StandIn, Names, EventsOf;
    forall i | 0 <= i < |ds|
      ensures ds[i] in pl.stands && Leq(Clock(pl.sys, ds[i]), Clock(pl.sys, e))
      ensures Announce(StandIn(pl, ds[i])) in s.net && Sound(StandIn(pl, ds[i])) && StandIn(pl, ds[i]).peerID != e.peer
      ensures StandIn(pl, ds[i]).vector == Clock(pl.sys, ds[i]) && StandIn(pl, ds[i]).documentID != pl.id
    {
      StandInIsAside(pl, ds[i]);
      NamedIsCause(pl.sys, e, ds[i]);
      NamedIsBefore(pl.sys, pl.q, e, ds[i]);
    }
  }

  /** The part of the timeline that the issuer of a due event must be given first, and how far it then is. */
  lemma Segment(pl: Plan, done: set<Event>, s: System, m: nat, e: Event) returns (shown: seq<Operation>, m': nat)
    requires Sensible(pl) && Sent(pl, done, s) && Given(pl, done, m) && Due(pl, done, e)
    ensures Given(pl, done + {e}, m')
    ensures Deliverable(s, e.peer, shown)
    ensures forall i | 0 <= i < |shown| :: Leq(shown[i].vector, Clock(pl.sys, e)) && shown[i].documentID == pl.id
    ensures m <= |pl.timeline| && m' <= |pl.timeline|
    ensures e.peer != pl.q ==> m' == m && shown == []
    ensures e.peer == pl.q ==>
      pl.timeline[..m'] == pl.timeline[..m] + shown + if Original(pl, e) in pl.ops then [Original(pl, e)] else []
  {
    hide Inv, AllCrafted, Possible, Before, Sound, Leq, EventsOf;
    if e.peer == pl.q && Original(pl, e) in pl.ops {
      var j := IsInTimeline(pl, e);
      SegmentIsDone(pl, done, m, e, j);
      shown, m' := pl.timeline[m..j], j + 1;
      assert pl.timeline[..j + 1] == pl.timeline[..m] + pl.timeline[m..j] + [pl.timeline[j]];
      forall i | 0 <= i < |shown|
        ensures Announce(shown[i]) in s.net && shown[i].peerID != e.peer && Sound(shown[i])
        ensures Leq(shown[i].vector, Clock(pl.sys, e)) && shown[i].documentID == pl.id
      {
        assert OtherDone(pl, done, e, pl.timeline[m + i]);
        DoneIsSent(pl, done, s, shown[i]);
      }
    } else {
      shown, m' := [], m;
      GivenAsBefore(pl, done, m, e);
    }
  }

  lemma DoneIsSent(pl: Plan, done: set<Event>, s: System, op: Operation)
    requires Sensible(pl) && Sent(pl, done, s) && op in pl.ops && EventOf(op) in done
    ensures Announce(op) in s.net && Sound(op) && op.documentID == pl.id
  {
    hide Inv, AllCrafted, Possible, Sound;
    var e := EventOf(op);
    assert Original(pl, e) == op;
    AgainIsAlike(pl, e);
    assert e in EventsOf(pl.sys);
  }

  lemma DeliverableBoth(s: System, u: PeerID, a: seq<Operation>, b: seq<Operation>)
    requires Deliverable(s, u, a) && Deliverable(s, u, b)
    ensures Deliverable(s, u, a + b)
  {
    hide Sound;
  }

  /** Before the event takes place again, its issuer is brought to its clock and shown what is due on the timeline. */
  lemma Arrives(pl: Plan, done: set<Event>, s: System, m: nat, e: Event) returns (s': System, m': nat)
    requires Sensible(pl) && Staged(pl, done, s, m) && Due(pl, done, e)
    ensures Moved(s, s', e.peer) && s'.issued[e.peer] == s.issued[e.peer]
    ensures s'.peers[e.peer].vector == Clock(pl.sys, e)
    ensures Given(pl, done + {e}, m')
    ensures e.peer != pl.q ==> m' == m
    ensures e.peer == pl.q ==>
      OnDocument(s'.timeline[pl.q], pl.id) + (if Original(pl, e) in pl.ops then [Original(pl, e)] else []) == pl.timeline[..m']
  {
    hide Sensible, Staged, Due, Leq, Reached, Sent, StandsIdle, Given, OnDocument, JoinFrom, Deliverable;
    hide Names, AfterOwn, StandInsOf, Count;
    DueIsEvent(pl, done, e);
    StagedParts(pl, done, s, m);
    DueIsNext(pl, done, s, m, e);
    var shown;
    shown, m' := Segment(pl, done, s, m, e);
    var ds := NamedOthersOf(pl, e);
    StandInsAreSent(pl, done, s, e, ds);
    var others := StandInsOf(pl, ds);
    DeliverableBoth(s, e.peer, shown, others);
    s' := HandSeq(s, e.peer, shown + others);
    ArrivesAtClock(pl, e, shown, ds, s');
    ShownOnDocument(s.timeline[e.peer], shown, others, pl.id);
  }

  lemma NamedOthersOf(pl: Plan, e: Event) returns (ds: seq<Event>)
    requires Sensible(pl) && IsEvent(pl.sys.issued, e)
    ensures forall i | 0 <= i < |ds| :: IsEvent(pl.sys.issued, ds[i]) && Names(pl.sys, e, ds[i]) && ds[i].peer != e.peer
    ensures forall r | r in Clock(pl.sys, e).Keys && r != e.peer && Count(Clock(pl.sys, e), r) > 0 ::
      exists i | 0 <= i < |ds| :: ds[i] == Event(r, Count(Clock(pl.sys, e), r))
  {
    hide Inv, Possible, AllCrafted;
    ds := NamedOthers(pl.sys, e, Clock(pl.sys, e).Keys);
  }

  lemma StagedParts(pl: Plan, done: set<Event>, s: System, m: nat)
    requires Staged(pl, done, s, m)
    ensures Reached(s) && SameDomains(s) && s.peers.Keys == pl.sys.peers.Keys + {pl.q} + pl.stands.Values
    ensures Sent(pl, done, s) && StandsIdle(pl, done, s) && Given(pl, done, m)
    ensures pl.q in s.timeline && m <= |pl.timeline| && OnDocument(s.timeline[pl.q], pl.id) == pl.timeline[..m]
  {
    hide Reached, Sent, StandsIdle, PeerStaged, OnDocument;
  }

  lemma ShownOnDocument(before: seq<Operation>, shown: seq<Operation>, others: seq<Operation>, id: string)
    requires forall i | 0 <= i < |shown| :: shown[i].documentID == id
    requires forall i | 0 <= i < |others| :: others[i].documentID != id
    ensures OnDocument(before + (shown + others), id) == OnDocument(before, id) + shown
  {
    hide OnDocument;
    OnDocumentConcat(before, shown + others, id);
    OnDocumentConcat(shown, others, id);
    AllOnDocument(shown, id);
    NoneOnDocument(others, id);
  }

  lemma {:induction false} ArrivesAtClock(pl: Plan, e: Event, shown: seq<Operation>, ds: seq<Event>, s: System)
    requires Sensible(pl) && IsEvent(pl.sys.issued, e) && Reached(s) && SameDomains(s) && e.peer in s.peers
    requires forall i | 0 <= i < |shown| :: Leq(shown[i].vector, Clock(pl.sys, e))
    requires forall i | 0 <= i < |ds| :: IsEvent(pl.sys.issued, ds[i]) && ds[i] in pl.stands
    requires |StandInsOf(pl, ds)| == |ds| && forall i | 0 <= i < |ds| ::
      Leq(StandInsOf(pl, ds)[i].vector, Clock(pl.sys, e)) && StandInsOf(pl, ds)[i].vector == Clock(pl.sys, ds[i])
    requires forall r | r in Clock(pl.sys, e).Keys && r != e.peer && Count(Clock(pl.sys, e), r) > 0 ::
      exists i | 0 <= i < |ds| :: ds[i] == Event(r, Count(Clock(pl.sys, e), r))
    requires s.peers[e.peer].vector == JoinFrom(AfterOwn(pl.sys, e.peer, e.index), shown + StandInsOf(pl, ds))
    ensures s.peers[e.peer].vector == Clock(pl.sys, e)
  {
    hide Inv, Possible, Leq, Reached, JoinFrom, AfterOwn, EventsOf;
    var hs, w := shown + StandInsOf(pl, ds), Clock(pl.sys, e);
    ReachedIsCrafted(s);
    assert IsCrafted(pl.sys.issued[e.peer][e.index].op);
    hide AllCrafted, IsCrafted, Positive, StandIn;
    forall r | r != e.peer && Count(w, r) > 0 ensures exists i | 0 <= i < |hs| :: Count(hs[i].vector, r) == Count(w, r) {
      var i :| 0 <= i < |ds| && ds[i] == Event(r, Count(w, r));
      EventWell(pl.sys, ds[i]);
      assert hs[|shown| + i] == StandInsOf(pl, ds)[i];
    }
    ClockArrives(pl.sys, e, hs);
  }

  lemma JoinWithNothing(v: Counts)
    ensures Join(map[], v) == v
  {
    forall p: PeerID ensures Count(Join(map[], v), p) == Count(v, p) {
    }
    forall p | p in v ensures Join(map[], v)[p] == v[p] {
      assert Count(Join(map[], v), p) == Count(v, p);
    }
  }

  /** First the issuer moved, then the stand-in. */
  ghost predicate MovedBoth(s: System, mid: System, s': System, u: PeerID, z: PeerID) {
    Moved(s, mid, u) && Moved(mid, s', z) && u != z
  }

  /** The issuer issued the event again, and its stand-in stands for it. */
  ghost predicate Reissued(pl: Plan, e: Event, s: System, mid: System, s': System)
    requires IsEvent(pl.sys.issued, e) && e in pl.stands
  {
    && MovedBoth(s, mid, s', e.peer, pl.stands[e])
    && |mid.issued[e.peer]| == |s.issued[e.peer]| + 1 && mid.peers[e.peer].vector == Bump(Clock(pl.sys, e), e.peer)
    && Announce(Again(pl, e)) in s'.net && Announce(StandIn(pl, e)) in s'.net
  }

  lemma ReissuedSince(pl: Plan, e: Event, s: System, at: System, mid: System, s': System)
    requires IsEvent(pl.sys.issued, e) && e in pl.stands
    requires Moved(s, at, e.peer) && at.issued[e.peer] == s.issued[e.peer] && Reissued(pl, e, at, mid, s')
    ensures Reissued(pl, e, s, mid, s')
  {
    hide Reached, Again, StandIn, Clock, Bump;
  }

  /** The issuer issues the event again, then its stand-in does what it stands for. */
  lemma Reissue(pl: Plan, e: Event, s: System) returns (mid: System, s': System)
    requires Sensible(pl) && IsEvent(pl.sys.issued, e) && Reached(s) && SameDomains(s)
    requires e in pl.stands && e.peer in s.peers && pl.stands[e] in s.peers && e.peer != pl.stands[e]
    requires s.peers[e.peer].vector == Clock(pl.sys, e) && s.peers[pl.stands[e]].vector == map[]
    ensures Reissued(pl, e, s, mid, s') && mid.timeline[e.peer] == s.timeline[e.peer] + [Again(pl, e)]
  {
    hide Sensible, Reached, Again, StandIn, Crafted, Sound, Bump, Join;
    AgainIsAlike(pl, e);
    StandInIsAside(pl, e);
    JoinWithNothing(Clock(pl.sys, e));
    mid := IssueOne(s, Again(pl, e));
    var handed := HandOne(mid, pl.stands[e], Again(pl, e));
    s' := IssueOne(handed, StandIn(pl, e));
    MovedOn(mid, handed, s', pl.stands[e]);
  }

  lemma PeersStay(pl: Plan, done: set<Event>, e: Event, s: System, mid: System, s': System)
    requires IsEvent(pl.sys.issued, e) && e in pl.stands && e.peer in pl.sys.peers && e !in done
    requires AllStaged(pl, done, s) && Reissued(pl, e, s, mid, s') && e.peer in s.issued && |s.issued[e.peer]| == e.index
    requires Sensible(pl)
    ensures AllStaged(pl, done + {e}, s')
  {
    hide Inv, AllCrafted, Possible, Reached, Bump, EventsOf, PeerStaged, Clock, Again, StandIn;
    assert pl.stands[e] !in pl.sys.peers;
    hide Sensible;
    forall u | u in pl.sys.peers && u in pl.sys.issued ensures PeerStaged(pl, done + {e}, s', u) {
      if u == e.peer {
        IssuerStays(pl, done, e, s, s');
      } else {
        OtherStays(pl, done, e, s, s', u);
      }
    }
  }

  lemma IssuerStays(pl: Plan, done: set<Event>, e: Event, s: System, s': System)
    requires SameDomains(s) && SameDomains(s') && IsEvent(pl.sys.issued, e) && e.peer in s.peers && e.peer in s'.peers
    requires PeerStaged(pl, done, s, e.peer)
    requires |s'.issued[e.peer]| == |s.issued[e.peer]| + 1 == e.index + 1
    requires s'.peers[e.peer].vector == Bump(Clock(pl.sys, e), e.peer)
    ensures PeerStaged(pl, done + {e}, s', e.peer)
  {
  }

  lemma OtherStays(pl: Plan, done: set<Event>, e: Event, s: System, s': System, u: PeerID)
    requires SameDomains(s) && SameDomains(s') && u in pl.sys.issued && u in s.peers && u in s'.peers
    requires PeerStaged(pl, done, s, u) && u != e.peer
    requires s'.issued[u] == s.issued[u] && s'.peers[u] == s.peers[u]
    ensures PeerStaged(pl, done + {e}, s', u)
  {
  }

  lemma StandsStay(pl: Plan, done: set<Event>, e: Event, s: System, mid: System, s': System)
    requires Sensible(pl) && IsEvent(pl.sys.issued, e) && e in pl.stands && e.peer in pl.sys.peers
    requires StandsIdle(pl, done, s) && MovedBoth(s, mid, s', e.peer, pl.stands[e])
    ensures StandsIdle(pl, done + {e}, s')
  {
    hide Inv, AllCrafted, Possible, Reached, EventsOf;
    forall f | f in pl.stands && f !in done + {e} ensures pl.stands[f] in s'.peers && s'.peers[pl.stands[f]].vector == map[] {
      assert pl.stands[f] != e.peer && pl.stands[f] != pl.stands[e];
    }
  }

  lemma SentStays(pl: Plan, done: set<Event>, e: Event, s: System, mid: System, s': System)
    requires IsEvent(pl.sys.issued, e) && e in pl.stands
    requires Sent(pl, done, s) && MovedBoth(s, mid, s', e.peer, pl.stands[e])
    requires Announce(Again(pl, e)) in s'.net && Announce(StandIn(pl, e)) in s'.net
    ensures Sent(pl, done + {e}, s')
  {
    hide Reached, Again, StandIn;
  }

  /** One more event takes place. */
  lemma TakesPlace(pl: Plan, done: set<Event>, s: System, m: nat, e: Event) returns (s': System, m': nat)
    requires Sensible(pl) && Staged(pl, done, s, m) && Due(pl, done, e)
    ensures Staged(pl, done + {e}, s', m')
  {
    hide Sensible, Due, Reached, Sent, StandsIdle, Given, OnDocument, AfterOwn, Again, StandIn, PeerStaged, Bump, Clock, Staged;
    DueIsEvent(pl, done, e);
    StagedParts(pl, done, s, m);
    DueIsNext(pl, done, s, m, e);
    HasStandIn(pl, done, s, e);
    var at: System;
    at, m' := Arrives(pl, done, s, m, e);
    var mid: System;
    mid, s' := Reissue(pl, e, at);
    NowStaged(pl, done, s, m, e, at, mid, s', m');
  }

  lemma NowStaged(pl: Plan, done: set<Event>, s: System, m: nat, e: Event, at: System, mid: System, s': System, m': nat)
    requires IsEvent(pl.sys.issued, e) && e in pl.stands && e.peer in pl.sys.peers && e !in done && pl.stands[e] != pl.q
    requires Moved(s, at, e.peer) && at.issued[e.peer] == s.issued[e.peer] && |s.issued[e.peer]| == e.index
    requires Given(pl, done + {e}, m') && (e.peer != pl.q ==> m' == m)
    requires e.peer == pl.q ==>
      OnDocument(at.timeline[pl.q], pl.id) + (if Original(pl, e) in pl.ops then [Original(pl, e)] else []) == pl.timeline[..m']
    requires Reissued(pl, e, at, mid, s') && mid.timeline[e.peer] == at.timeline[e.peer] + [Again(pl, e)]
    requires Sensible(pl) && Staged(pl, done, s, m)
    ensures Staged(pl, done + {e}, s', m')
  {
    hide Sensible, Due, Reached, Sent, StandsIdle, OnDocument, AfterOwn, Again, StandIn, AllStaged, Bump, Clock, Staged, Given, Original;
    ReissuedSince(pl, e, s, at, mid, s');
    StagedParts(pl, done, s, m);
    PeersAreStaged(pl, done, s, m);
    PeersStay(pl, done, e, s, mid, s');
    StandsStay(pl, done, e, s, mid, s');
    SentStays(pl, done, e, s, mid, s');
    if e.peer == pl.q {
      ShownAgain(pl, e, at.timeline[pl.q]);
    }
    GivenWithin(pl, done + {e}, m');
    Assemble(pl, done + {e}, s', m');
  }

  lemma GivenWithin(pl: Plan, done: set<Event>, m: nat)
    requires Given(pl, done, m)
    ensures m <= |pl.timeline|
  {
  }

  lemma ShownAgain(pl: Plan, e: Event, timeline: seq<Operation>)
    requires Sensible(pl) && IsEvent(pl.sys.issued, e)
    ensures OnDocument(timeline + [Again(pl, e)], pl.id)
         == OnDocument(timeline, pl.id) + if Original(pl, e) in pl.ops then [Original(pl, e)] else []
  {
    hide Sensible, OnDocument;
    AgainIsAlike(pl, e);
    OnDocumentOneMore(timeline, Again(pl, e), pl.id);
  }

  lemma PeersAreStaged(pl: Plan, done: set<Event>, s: System, m: nat)
    requires Staged(pl, done, s, m)
    ensures AllStaged(pl, done, s)
  {
    hide Reached, Sent, StandsIdle, Given, AllStaged, OnDocument;
  }

  lemma Assemble(pl: Plan, done: set<Event>, s: System, m: nat)
    requires Reached(s) && AllStaged(pl, done, s)
    requires Sent(pl, done, s) && StandsIdle(pl, done, s) && Given(pl, done, m)
    requires m <= |pl.timeline| && OnDocument(s.timeline[pl.q], pl.id) == pl.timeline[..m]
    ensures Staged(pl, done, s, m)
  {
    hide Reached, Sent, StandsIdle, PeerStaged, OnDocument;
  }

  lemma HasStandIn(pl: Plan, done: set<Event>, s: System, e: Event)
    requires Sensible(pl) && StandsIdle(pl, done, s) && IsEvent(pl.sys.issued, e) && e !in done && e.peer in pl.sys.peers
    ensures e in pl.stands && pl.stands[e] in s.peers && s.peers[pl.stands[e]].vector == map[]
    ensures pl.stands[e] !in pl.sys.peers && pl.stands[e] != pl.q && pl.stands[e] != e.peer
  {
    hide Inv, AllCrafted, Possible;
    assert e in EventsOf(pl.sys);
  }

  lemma {:induction false} AllTakePlace(pl: Plan, done: set<Event>, s: System, m: nat) returns (s': System, m': nat)
    requires Sensible(pl) && Staged(pl, done, s, m) && done <= EventsOf(pl.sys)
    ensures Staged(pl, EventsOf(pl.sys), s', m')
    decreases EventsOf(pl.sys) - done
  {
    hide Sensible, Staged, Before;
    var left := EventsOf(pl.sys) - done;
    if left == {} {
      assert done == EventsOf(pl.sys);
      s', m' := s, m;
    } else {
      var e := Foremost(pl.sys, pl.q, left);
      forall x | IsEvent(pl.sys.issued, x) && Before(pl.sys, pl.q, x, e) ensures x in done {
        assert x in EventsOf(pl.sys);
      }
      var next, k := TakesPlace(pl, done, s, m, e);
      s', m' := AllTakePlace(pl, done + {e}, next, k);
    }
  }

  lemma StartIsStaged(pl: Plan) returns (s: System)
    requires Sensible(pl)
    ensures Staged(pl, {}, s, 0)
  {
    hide Inv, AllCrafted, Possible, Reached, EventsOf;
    var names := pl.sys.peers.Keys + {pl.q} + pl.stands.Values;
    s := Init(names);
    StartIsReached(names);
    assert OnDocument([], pl.id) == [];
  }

  /** At the end `q` is given the rest, which others issued. */
  lemma RestIsGiven(pl: Plan, s: System, m: nat) returns (s': System)
    requires Sensible(pl) && Staged(pl, EventsOf(pl.sys), s, m)
    ensures Reached(s') && SameDomains(s') && pl.q in s'.peers && OnDocument(s'.timeline[pl.q], pl.id) == pl.timeline
  {
    hide Sensible, Staged, Reached, OnDocument, Deliverable, JoinFrom, Sent, StandsIdle, Given, EventsOf;
    StagedParts(pl, EventsOf(pl.sys), s, m);
    var rest := pl.timeline[m..];
    RestIsSent(pl, s, m);
    s' := HandSeq(s, pl.q, rest);
    OnDocumentConcat(s.timeline[pl.q], rest, pl.id);
    AllOnDocument(rest, pl.id);
    TwoParts(pl.timeline, m);
  }

  lemma TwoParts(timeline: seq<Operation>, m: nat)
    requires m <= |timeline|
    ensures timeline[..m] + timeline[m..] == timeline
  {
  }

  lemma RestIsSent(pl: Plan, s: System, m: nat)
    requires Sensible(pl) && Sent(pl, EventsOf(pl.sys), s) && Given(pl, EventsOf(pl.sys), m)
    ensures Deliverable(s, pl.q, pl.timeline[m..])
    ensures forall i | 0 <= i < |pl.timeline[m..]| :: pl.timeline[m..][i].documentID == pl.id
  {
    hide Inv, AllCrafted, Sound, Sent, EventsOf;
    var rest := pl.timeline[m..];
    forall i | 0 <= i < |rest|
      ensures Announce(rest[i]) in s.net && rest[i].peerID != pl.q && Sound(rest[i]) && rest[i].documentID == pl.id
    {
      assert rest[i] == pl.timeline[m + i] && rest[i] in pl.ops;
      EventIsThere(pl.sys, EventOf(rest[i]));
      DoneIsSent(pl, EventsOf(pl.sys), s, rest[i]);
    }
  }

  lemma EventIsThere(sys: System, e: Event)
    requires IsEvent(sys.issued, e)
    ensures e in EventsOf(sys)
  {
  }

  // ---------------------------------------------------------------- the theorem

  /**
   * Every way in which the clocks let a peer come by operations of a run on one document is how it comes by them in
   * some run.
   */
  lemma TimelineHappens(sys: System, q: PeerID, timeline: seq<Operation>, ops: seq<Operation>, id: string) returns (s: System)
    requires Reached(sys) && (forall op | op in ops :: Genuine(sys.issued, op) && op.documentID == id)
    requires Possible(q, timeline, ops)
    ensures Reached(s) && SameDomains(s) && q in s.peers && OnDocument(s.timeline[q], id) == timeline
  {
    hide Reached, Inv, AllCrafted, Possible, Genuine, Staged, OnDocument;
    ReachedIsCrafted(sys);
    var stands := StandIns(EventsOf(sys), sys.peers.Keys + {q});
    var pl := Plan(sys, q, timeline, ops, id, stands);
    assert Sensible(pl);
    hide Sensible;
    var start := StartIsStaged(pl);
    var all, m := AllTakePlace(pl, {}, start, 0);
    s := RestIsGiven(pl, all, m);
  }

  /** The clocks decide exactly: among lists of the operations, the possible ones are those that happen. */
  lemma HappensIff(sys: System, q: PeerID, timeline: seq<Operation>, ops: seq<Operation>, id: string)
    requires Reached(sys) && (forall op | op in ops :: Genuine(sys.issued, op) && op.documentID == id)
    requires SameOperations(ops, timeline)
    ensures Possible(q, timeline, ops) <==> Happens(q, timeline, id)
  {
    hide Reached, Genuine, OnDocument, OwnInOrder, HeardBefore;
    if Possible(q, timeline, ops) {
      var s := TimelineHappens(sys, q, timeline, ops, id);
    }
    if Happens(q, timeline, id) {
      var s: System :| Reached(s) && SameDomains(s) && q in s.peers && OnDocument(s.timeline[q], id) == timeline;
      HeldPossibly(s, q, id);
    }
  }

  /** In some run the peer comes by the operations on the document in this way. */
  ghost predicate Happens(q: PeerID, timeline: seq<Operation>, id: string) {
    exists s: System :: Reached(s) && SameDomains(s) && q in s.peers && OnDocument(s.timeline[q], id) == timeline
  }

  /** In every state of every run, whoever holds the operations on the document, and no others, holds this copy of it. */
  ghost predicate AllRunsAgree(ops: seq<Operation>, id: string) {
    forall s: System, q: PeerID | Reached(s) && SameDomains(s) && q in s.peers && SameOperations(ops, OnDocument(s.timeline[q], id)) ::
      Lookup(s.peers[q].store, id) == CopyAfter(ops, id)
  }

  lemma GenuineIsIssuable(sys: System, ops: seq<Operation>, id: string)
    requires Reached(sys) && (forall op | op in ops :: Genuine(sys.issued, op) && op.documentID == id)
    ensures Issuable(ops, id)
  {
    hide Reached, Sound, IssuesLive, OwnCounter;
    ReachedInv(sys);
    hide Inv;
    forall i | 0 <= i < |ops|
      ensures Sound(ops[i]) && IssuesLive(ops[i]) && ops[i].documentID == id && ops[i].kind != Other
    {
      EventWell(sys, EventOf(ops[i]));
    }
    forall i, j | 0 <= i < |ops| && 0 <= j < |ops| && EventOf(ops[i]) == EventOf(ops[j]) ensures ops[i] == ops[j] {
      assert Genuine(sys.issued, ops[i]) && Genuine(sys.issued, ops[j]);
    }
  }

  /**
   * The many-writer theorem for runs. Take operations on one document that were issued in some run: in all runs
   * all their holders, readers and writers, hold one and the same document, exactly when nothing is brought, or the
   * operations settle and each issuer's last one comes to what they settle to.
   */
  lemma RunsAgreeIff(sys: System, ops: seq<Operation>, id: string)
    requires Reached(sys) && (forall op | op in ops :: Genuine(sys.issued, op) && op.documentID == id)
    ensures AllRunsAgree(ops, id) <==> Agreeable(ops, id)
  {
    hide Reached, Genuine, OnDocument, Replay, CopyAfter, Agreeable, Issuable, OwnInOrder, HeardBefore;
    GenuineIsIssuable(sys, ops, id);
    AllHoldersAgreeIff(ops, id);
    if AllHoldersAgree(ops, id) {
      forall s: System, q: PeerID | Reached(s) && SameDomains(s) && q in s.peers && SameOperations(ops, OnDocument(s.timeline[q], id))
        ensures Lookup(s.peers[q].store, id) == CopyAfter(ops, id)
      {
        HeldPossibly(s, q, id);
        assert Possible(q, OnDocument(s.timeline[q], id), ops);
      }
    }
    if AllRunsAgree(ops, id) {
      forall q, timeline | Possible(q, timeline, ops) ensures Replay(q, timeline, id) == CopyAfter(ops, id) {
        var s := TimelineHappens(sys, q, timeline, ops, id);
        HeldPossibly(s, q, id);
      }
    }
  }
}
