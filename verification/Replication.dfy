/**
 * The replication protocol on values: what one peer does to its own state, and the system of peers
 * that exchange messages without any order.
 */
module Replication {
  import opened Json
  import opened Changes
  import opened VectorClocks
  import opened Resolver

  const MAX_LOG_SIZE: nat := 10000

  type Store = map<string, Fields>

  /** One attached collection. */
  datatype PeerState = PeerState(
    vector: Counts,
    log: seq<Operation>,
    store: Store,
    syncing: bool)

  // ---------------------------------------------------------------- one peer

  /** Every stored document is filed under its own id. */
  predicate Filed(store: Store) {
    forall id | id in store :: HasID(store[id]) && store[id]["id"].text == id
  }

  function Put(store: Store, fields: Fields): Store
    requires HasID(fields)
  {
    store[fields["id"].text := fields]
  }

  function Lookup(store: Store, id: string): Option<Fields> {
    if id in store then Some(store[id]) else None
  }

  /** The log keeps its newest entries. */
  function Prune(log: seq<Operation>): seq<Operation> {
    if |log| > MAX_LOG_SIZE then log[|log| - MAX_LOG_SIZE..] else log
  }

  function InsertOperation(self: PeerID, vector: Counts, fields: Fields, now: int): Operation
    requires HasID(fields)
  {
    var id := fields["id"].text;
    Operation(Insert, id, Some(ToDistributed(fields, id, self, now)), vector, now, self)
  }

  function DeleteOperation(self: PeerID, vector: Counts, id: string, now: int): Operation {
    Operation(Delete, id, Some(Doc(id, "", map[], map[], 0, "", "", true)), vector, now, self)
  }

  /** Logging an own operation; the operation's clock was taken before this counts it. */
  function Log(s: PeerState, self: PeerID, op: Operation): PeerState {
    s.(log := Prune(s.log + [op]), vector := Bump(s.vector, self))
  }

  function InsertLocally(s: PeerState, self: PeerID, fields: Fields, now: int): PeerState
    requires HasID(fields)
  {
    Log(s.(store := Put(s.store, fields)), self, InsertOperation(self, s.vector, fields, now))
  }

  function DeleteLocally(s: PeerState, self: PeerID, id: string, now: int): PeerState {
    Log(s.(store := s.store - {id}), self, DeleteOperation(self, s.vector, id, now))
  }

  /** An operation that no state makes the code read through a missing field. */
  predicate Sound(op: Operation) {
    && HasData(op)
    && (CarriesFields(op) ==> HasID(op.data.value.payload) && op.data.value.payload["id"].text == op.documentID)
  }

  /** The stored document with the clock invented for it, then the operation, then the store. */
  function Merged(store: Store, op: Operation, now: int): Option<Doc>
    requires Sound(op)
  {
    var existing := Lookup(store, op.documentID);
    Apply(if existing.Some? then Some(ToDistributed(existing.value, op.documentID, op.peerID, now)) else None, op)
  }

  function ReceiveIntoStore(store: Store, op: Operation, now: int): Store
    requires Sound(op) && Filed(store)
  {
    var result := Merged(store, op, now);
    if result.None? || result.value.deleted then store - {op.documentID} else Put(store, result.value.payload)
  }

  /** What that writes to the storage or deletes there: a document that is left as it is is written again. */
  function ReceivedChange(store: Store, op: Operation, now: int): Change
    requires Sound(op) && Filed(store)
  {
    var result := Merged(store, op, now);
    if result.None? || result.value.deleted then Erase(op.documentID) else Write(op.documentID, result.value.payload)
  }

  function Receive(s: PeerState, op: Operation, now: int): PeerState
    requires Sound(op) && Filed(s.store)
  {
    s.(store := ReceiveIntoStore(s.store, op, now), vector := Join(s.vector, op.vector))
  }

  predicate AllSound(ops: seq<Operation>) {
    forall i | 0 <= i < |ops| :: Sound(ops[i])
  }

  /** Whatever arrives, documents stay filed under their ids. */
  lemma ReceiveKeepsFiled(store: Store, op: Operation, now: int)
    requires Sound(op) && Filed(store)
    ensures Filed(ReceiveIntoStore(store, op, now))
  {
  }

  function ReceiveAll(s: PeerState, ops: seq<Operation>, now: int): (s': PeerState)
    requires AllSound(ops) && Filed(s.store)
    ensures Filed(s'.store)
  {
    if ops == [] then s
    else
      var before := ReceiveAll(s, ops[..|ops| - 1], now);
      ReceiveKeepsFiled(before.store, ops[|ops| - 1], now);
      Receive(before, ops[|ops| - 1], now)
  }

  function ReceivedChanges(s: PeerState, ops: seq<Operation>, now: int): seq<Change>
    requires AllSound(ops) && Filed(s.store)
  {
    if ops == [] then []
    else
      var front, last := ops[..|ops| - 1], ops[|ops| - 1];
      ReceivedChanges(s, front, now) + [ReceivedChange(ReceiveAll(s, front, now).store, last, now)]
  }

  /** The own counter of an operation, with a missing entry read as 0. */
  function OwnCounter(op: Operation): nat {
    Count(op.vector, op.peerID)
  }

  /** The part of a log that a requester with clock `remote` is sent. */
  function Missing(log: seq<Operation>, remote: Counts): seq<Operation> {
    if log == [] then []
    else
      var n := |log| - 1;
      var rest := Missing(log[..n], remote);
      if OwnCounter(log[n]) > Count(remote, log[n].peerID) then rest + [log[n]] else rest
  }

  // ---------------------------------------------------------------- the system

  /** The k-th operation a peer issued, counting from 0. */
  datatype Event = Event(peer: PeerID, index: nat)

  datatype Issued = Issued(op: Operation, causes: set<Event>)

  datatype Message =
    | Announce(op: Operation)
    | Request(from: PeerID, vector: Counts)
    | Response(to: PeerID, ops: seq<Operation>)

  /**
   * All peers, every message ever sent, and four records that no peer can see: what each peer issued,
   * which operations can have influenced it, which remote operations it was handed, in order, and its
   * timeline: its own operations and those it was handed, as they took place.
   * Messages are never removed, so they can arrive late, repeatedly, in any order, or never.
   */
  datatype System = System(
    peers: map<PeerID, PeerState>,
    net: set<Message>,
    issued: map<PeerID, seq<Issued>>,
    history: map<PeerID, set<Event>>,
    received: map<PeerID, seq<Operation>>,
    timeline: map<PeerID, seq<Operation>>)

  predicate SameDomains(sys: System) {
    sys.peers.Keys == sys.issued.Keys == sys.history.Keys == sys.received.Keys == sys.timeline.Keys
  }

  function Init(names: set<PeerID>): System {
    System(
      map p | p in names :: PeerState(map[], [], map[], false),
      {},
      map p | p in names :: [],
      map p | p in names :: {},
      map p | p in names :: [],
      map p | p in names :: [])
  }

  predicate IsEvent(issued: map<PeerID, seq<Issued>>, e: Event) {
    e.peer in issued && e.index < |issued[e.peer]|
  }

  function At(issued: map<PeerID, seq<Issued>>, e: Event): Issued
    requires IsEvent(issued, e)
  {
    issued[e.peer][e.index]
  }

  function EventOf(op: Operation): Event {
    Event(op.peerID, OwnCounter(op))
  }

  function CausesOf(issued: map<PeerID, seq<Issued>>, e: Event): set<Event> {
    if IsEvent(issued, e) then At(issued, e).causes else {}
  }

  datatype Step =
    | LocalInsert(peer: PeerID, fields: Fields, now: int)
    | LocalDelete(peer: PeerID, id: string, now: int)
    | Deliver(peer: PeerID, op: Operation, now: int)
    | RequestSync(peer: PeerID)
    | AnswerSync(peer: PeerID, from: PeerID, vector: Counts)
    | FinishSync(peer: PeerID, ops: seq<Operation>, now: int)
    | SyncTimeout(peer: PeerID)

  /** Messages reach only other peers; a request is sent only when none is in progress. */
  predicate Enabled(sys: System, step: Step) {
    && SameDomains(sys)
    && step.peer in sys.peers
    && Filed(sys.peers[step.peer].store)
    && match step
       case LocalInsert(_, fields, _) => HasID(fields)
       case LocalDelete(_, _, _) => true
       case Deliver(p, op, _) => Announce(op) in sys.net && op.peerID != p && Sound(op)
       case RequestSync(p) => !sys.peers[p].syncing
       case AnswerSync(p, from, vector) => Request(from, vector) in sys.net && from != p
       case FinishSync(p, ops, _) => Response(p, ops) in sys.net && AllSound(ops)
       case SyncTimeout(_) => true
  }

  function Issue(sys: System, p: PeerID, s: PeerState, op: Operation): (sys': System)
    requires SameDomains(sys) && p in sys.peers
    ensures SameDomains(sys') && sys'.peers.Keys == sys.peers.Keys
  {
    System(
      sys.peers[p := s],
      sys.net + {Announce(op)},
      sys.issued[p := sys.issued[p] + [Issued(op, sys.history[p])]],
      sys.history[p := sys.history[p] + {Event(p, |sys.issued[p]|)}],
      sys.received,
      sys.timeline[p := sys.timeline[p] + [op]])
  }

  function Hand(sys: System, p: PeerID, op: Operation, now: int): (sys': System)
    requires SameDomains(sys) && p in sys.peers && Sound(op) && Filed(sys.peers[p].store)
    ensures SameDomains(sys') && sys'.peers.Keys == sys.peers.Keys && sys'.issued == sys.issued
  {
    sys.(peers := sys.peers[p := Receive(sys.peers[p], op, now)],
         history := sys.history[p := sys.history[p] + {EventOf(op)} + CausesOf(sys.issued, EventOf(op))],
         received := sys.received[p := sys.received[p] + [op]],
         timeline := sys.timeline[p := sys.timeline[p] + [op]])
  }

  function HandAll(sys: System, p: PeerID, ops: seq<Operation>, now: int): (sys': System)
    requires SameDomains(sys) && p in sys.peers && AllSound(ops) && Filed(sys.peers[p].store)
    ensures SameDomains(sys') && sys'.peers.Keys == sys.peers.Keys
    ensures sys'.peers[p] == ReceiveAll(sys.peers[p], ops, now)
  {
    if ops == [] then sys
    else
      var before := HandAll(sys, p, ops[..|ops| - 1], now);
      Hand(before, p, ops[|ops| - 1], now)
  }

  function Next(sys: System, step: Step): (sys': System)
    requires Enabled(sys, step)
    ensures SameDomains(sys') && sys'.peers.Keys == sys.peers.Keys
  {
    var p := step.peer;
    var s := sys.peers[p];
    match step
    case LocalInsert(_, fields, now) =>
      Issue(sys, p, InsertLocally(s, p, fields, now), InsertOperation(p, s.vector, fields, now))
    case LocalDelete(_, id, now) =>
      Issue(sys, p, DeleteLocally(s, p, id, now), DeleteOperation(p, s.vector, id, now))
    case Deliver(_, op, now) =>
      Hand(sys, p, op, now)
    case RequestSync(_) =>
      sys.(peers := sys.peers[p := s.(syncing := true)], net := sys.net + {Request(p, s.vector)})
    case AnswerSync(_, from, vector) =>
      sys.(net := sys.net + {Response(from, Missing(s.log, vector))})
    case FinishSync(_, ops, now) =>
      var after := HandAll(sys, p, ops, now);
      after.(peers := after.peers[p := after.peers[p].(syncing := false)])
    case SyncTimeout(_) =>
      sys.(peers := sys.peers[p := s.(syncing := false)])
  }

  // ---------------------------------------------------------------- runs

  predicate ValidRun(sys: System, steps: seq<Step>)
    decreases |steps|, 0
  {
    steps == [] ||
    (ValidRun(sys, steps[..|steps| - 1]) && Enabled(StateAfter(sys, steps[..|steps| - 1]), steps[|steps| - 1]))
  }

  function StateAfter(sys: System, steps: seq<Step>): System
    requires ValidRun(sys, steps)
    decreases |steps|, 1
  {
    if steps == [] then sys else Next(StateAfter(sys, steps[..|steps| - 1]), steps[|steps| - 1])
  }

  /** The state after some run of some set of peers, all attached and empty at the start. */
  ghost predicate Reached(sys: System) {
    exists names: set<PeerID>, steps: seq<Step> :: ValidRun(Init(names), steps) && sys == StateAfter(Init(names), steps)
  }
}
