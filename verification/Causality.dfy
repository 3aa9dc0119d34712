/**
 * What clocks say about causality in every run: the invariant of the system, and what follows from it.
 */
module Causality {
  import opened VectorClocks
  import opened Resolver
  import opened Replication

  type Record = map<PeerID, seq<Issued>>

  // ---------------------------------------------------------------- the invariant

  /**
   * The clock `v` of peer `self` describes the set `h` of operations that can have influenced it.
   * A component for another peer names an operation in `h`, the own component counts the own operations
   * in `h`, and `h` holds with each operation everything that influenced it, below its clock.
   */
  ghost predicate Tracks(issued: Record, self: PeerID, v: Counts, h: set<Event>) {
    && (forall r: PeerID :: Count(v, r) > 0 && r != self ==> Event(r, Count(v, r)) in h)
    && (forall j: nat :: Event(self, j) in h <==> j < Count(v, self))
    && (forall e | e in h :: Founded(issued, v, h, e))
  }

  ghost predicate Founded(issued: Record, v: Counts, h: set<Event>, e: Event) {
    IsEvent(issued, e) && At(issued, e).causes <= h && Leq(At(issued, e).op.vector, v)
  }

  /** No operation brings the fields of a deleted document. */
  predicate IssuesLive(op: Operation) {
    CarriesFields(op) && op.data.Some? ==> !op.data.value.deleted
  }

  /** The k-th operation of peer `p` carries its number, its issuer, and a clock that tracks its causes. */
  ghost predicate IssuedWell(issued: Record, p: PeerID, k: nat)
    requires p in issued && k < |issued[p]|
  {
    var i := issued[p][k];
    && i.op.peerID == p && OwnCounter(i.op) == k
    && i.op.kind != Other && Sound(i.op) && IssuesLive(i.op)
    && Tracks(issued, p, i.op.vector, i.causes)
  }

  /** What holds of a peer: its state, what can have influenced it, and what it was handed. */
  ghost predicate PeerWell(issued: Record, p: PeerID, s: PeerState, h: set<Event>, received: seq<Operation>) {
    && p in issued
    && Filed(s.store)
    && Count(s.vector, p) == |issued[p]|
    && Tracks(issued, p, s.vector, h)
    && s.log == LogOf(issued[p])
    && (forall i | 0 <= i < |received| :: HandedWell(issued, p, h, received[i]))
  }

  /** What a peer was handed is a genuine operation of another peer, and part of its history. */
  predicate HandedWell(issued: Record, p: PeerID, h: set<Event>, op: Operation) {
    Genuine(issued, op) && op.peerID != p && EventOf(op) in h
  }

  /** The operation is one that its issuer issued, unchanged. */
  predicate Genuine(issued: Record, op: Operation) {
    IsEvent(issued, EventOf(op)) && At(issued, EventOf(op)).op == op
  }

  function Operations(issued: seq<Issued>): (ops: seq<Operation>)
    ensures |ops| == |issued|
    ensures forall k | 0 <= k < |ops| :: ops[k] == issued[k].op
  {
    seq(|issued|, k requires 0 <= k < |issued| => issued[k].op)
  }

  /** The log is the last operations its peer issued, at most the maximal number. */
  function LogOf(issued: seq<Issued>): seq<Operation> {
    Prune(Operations(issued))
  }

  ghost predicate MessageWell(issued: Record, m: Message) {
    match m
    case Announce(op) => Genuine(issued, op)
    case Request(_, _) => true
    case Response(to, ops) => forall i | 0 <= i < |ops| :: Genuine(issued, ops[i]) && ops[i].peerID != to
  }

  ghost predicate AllIssuedWell(issued: Record) {
    forall p, k: nat | p in issued && k < |issued[p]| :: IssuedWell(issued, p, k)
  }

  ghost predicate PeersWell(sys: System, issued: Record, except: set<PeerID>)
    requires SameDomains(sys)
  {
    forall q | q in sys.peers && q !in except :: PeerWell(issued, q, sys.peers[q], sys.history[q], sys.received[q])
  }

  ghost predicate MessagesWell(net: set<Message>, issued: Record) {
    forall m | m in net :: MessageWell(issued, m)
  }

  ghost predicate Inv(sys: System) {
    && SameDomains(sys)
    && AllIssuedWell(sys.issued)
    && PeersWell(sys, sys.issued, {})
    && MessagesWell(sys.net, sys.issued)
  }

  lemma InvDomains(sys: System)
    requires Inv(sys)
    ensures SameDomains(sys)
  {
  }

  // ---------------------------------------------------------------- issuing

  ghost predicate Extends(issued: Record, issued': Record) {
    issued.Keys == issued'.Keys && forall p | p in issued :: issued[p] <= issued'[p]
  }

  lemma TracksGrows(issued: Record, issued': Record, self: PeerID, v: Counts, h: set<Event>)
    requires Tracks(issued, self, v, h) && Extends(issued, issued')
    ensures Tracks(issued', self, v, h)
  {
    forall e | e in h ensures Founded(issued', v, h, e) {
      assert Founded(issued, v, h, e);
      assert issued[e.peer] <= issued'[e.peer];
    }
  }

  lemma GenuineGrows(issued: Record, issued': Record, op: Operation)
    requires Genuine(issued, op) && Extends(issued, issued')
    ensures Genuine(issued', op)
  {
    assert issued[op.peerID] <= issued'[op.peerID];
  }

  /** Counting the own new operation keeps clock and history in step. */
  lemma TracksOwn(issued: Record, issued': Record, p: PeerID, v: Counts, h: set<Event>, op: Operation)
    requires p in issued && Tracks(issued, p, v, h) && Count(v, p) == |issued[p]|
    requires issued' == issued[p := issued[p] + [Issued(op, h)]] && op.vector == v
    ensures Tracks(issued', p, Bump(v, p), h + {Event(p, |issued[p]|)})
  {
    var v', h' := Bump(v, p), h + {Event(p, |issued[p]|)};
    TracksGrows(issued, issued', p, v, h);
    BumpMovesStrictlyUp(v, p);
    LeqIsPointwise(v, v');
    FoundedOwn(issued', v, h, v', h', Event(p, |issued[p]|));
  }

  lemma FoundedOwn(issued: Record, v: Counts, h: set<Event>, v': Counts, h': set<Event>, own: Event)
    requires forall e | e in h :: Founded(issued, v, h, e)
    requires Leq(v, v') && h' == h + {own}
    requires IsEvent(issued, own) && At(issued, own).causes == h && At(issued, own).op.vector == v
    ensures forall e | e in h' :: Founded(issued, v', h', e)
  {
    forall e | e in h' ensures Founded(issued, v', h', e) {
      if e in h {
        assert Founded(issued, v, h, e);
        LeqTransitive(At(issued, e).op.vector, v, v');
      }
    }
  }

  lemma LogAppends(issued: seq<Issued>, i: Issued)
    ensures LogOf(issued + [i]) == Prune(LogOf(issued) + [i.op])
  {
    assert Operations(issued + [i]) == Operations(issued) + [i.op];
  }

  lemma PeerGrows(issued: Record, issued': Record, p: PeerID, s: PeerState, h: set<Event>, received: seq<Operation>)
    requires PeerWell(issued, p, s, h, received) && Extends(issued, issued') && issued'[p] == issued[p]
    ensures PeerWell(issued', p, s, h, received)
  {
    TracksGrows(issued, issued', p, s.vector, h);
    forall i | 0 <= i < |received| ensures HandedWell(issued', p, h, received[i]) {
      assert HandedWell(issued, p, h, received[i]);
      GenuineGrows(issued, issued', received[i]);
    }
  }

  /** An operation with the clock its issuer holds, as both local operations make it. */
  predicate IssuedBy(p: PeerID, s: PeerState, op: Operation) {
    op.peerID == p && op.vector == s.vector && op.kind != Other && Sound(op) && IssuesLive(op)
  }

  function Recorded(issued: Record, p: PeerID, op: Operation, h: set<Event>): Record
    requires p in issued
  {
    issued[p := issued[p] + [Issued(op, h)]]
  }

  lemma IssuerStaysWell(issued: Record, p: PeerID, s: PeerState, h: set<Event>, received: seq<Operation>, store: Store, op: Operation)
    requires PeerWell(issued, p, s, h, received) && IssuedBy(p, s, op) && Filed(store)
    ensures PeerWell(Recorded(issued, p, op, h), p, Log(s.(store := store), p, op), h + {Event(p, |issued[p]|)}, received)
  {
    var issued' := Recorded(issued, p, op, h);
    TracksOwn(issued, issued', p, s.vector, h, op);
    BumpMovesStrictlyUp(s.vector, p);
    LogAppends(issued[p], Issued(op, h));
    forall i | 0 <= i < |received| ensures HandedWell(issued', p, h + {Event(p, |issued[p]|)}, received[i]) {
      assert HandedWell(issued, p, h, received[i]);
      GenuineGrows(issued, issued', received[i]);
    }
  }

  lemma IssuedStaysWell(issued: Record, p: PeerID, s: PeerState, h: set<Event>, received: seq<Operation>, op: Operation)
    requires PeerWell(issued, p, s, h, received) && IssuedBy(p, s, op) && AllIssuedWell(issued)
    ensures AllIssuedWell(Recorded(issued, p, op, h))
  {
    var issued' := Recorded(issued, p, op, h);
    forall q, k: nat | q in issued' && k < |issued'[q]| ensures IssuedWell(issued', q, k) {
      if k < |issued[q]| {
        assert IssuedWell(issued, q, k);
        TracksGrows(issued, issued', q, issued[q][k].op.vector, issued[q][k].causes);
      } else {
        TracksGrows(issued, issued', p, op.vector, h);
      }
    }
  }

  lemma OnlyItsOwnGrows(issued: Record, p: PeerID, op: Operation, h: set<Event>)
    requires p in issued
    ensures Extends(issued, Recorded(issued, p, op, h))
    ensures forall q | q in issued && q != p :: Recorded(issued, p, op, h)[q] == issued[q]
  {
  }

  lemma OtherPeersGrow(sys: System, issued': Record, p: PeerID)
    requires SameDomains(sys) && PeersWell(sys, sys.issued, {p}) && Extends(sys.issued, issued')
    requires forall q | q in sys.issued && q != p :: issued'[q] == sys.issued[q]
    ensures PeersWell(sys, issued', {p})
  {
    forall q | q in sys.peers && q != p
      ensures PeerWell(issued', q, sys.peers[q], sys.history[q], sys.received[q])
    {
      PeerGrows(sys.issued, issued', q, sys.peers[q], sys.history[q], sys.received[q]);
    }
  }

  lemma MessagesGrow(net: set<Message>, issued: Record, issued': Record)
    requires MessagesWell(net, issued) && Extends(issued, issued')
    ensures MessagesWell(net, issued')
  {
    forall m | m in net ensures MessageWell(issued', m) {
      MessageGrows(issued, issued', m);
    }
  }

  lemma AnnouncedWell(net: set<Message>, issued: Record, p: PeerID, s: PeerState, h: set<Event>, op: Operation)
    requires MessagesWell(net, issued) && p in issued && IssuedBy(p, s, op) && Count(s.vector, p) == |issued[p]|
    ensures MessagesWell(net + {Announce(op)}, Recorded(issued, p, op, h))
  {
    MessagesGrow(net, issued, Recorded(issued, p, op, h));
    assert MessageWell(Recorded(issued, p, op, h), Announce(op));
  }

  ghost predicate OthersKept(sys: System, sys': System, p: PeerID)
    requires SameDomains(sys) && SameDomains(sys') && sys'.peers.Keys == sys.peers.Keys
  {
    forall q | q in sys.peers && q != p ::
      sys'.peers[q] == sys.peers[q] && sys'.history[q] == sys.history[q] && sys'.received[q] == sys.received[q]
  }

  /** One peer changed, the others and the messages stayed well. */
  lemma AssembleInv(sys: System, sys': System, p: PeerID)
    requires SameDomains(sys) && SameDomains(sys') && sys'.peers.Keys == sys.peers.Keys
    requires OthersKept(sys, sys', p)
    requires PeersWell(sys, sys'.issued, {p})
    requires p in sys'.peers && PeerWell(sys'.issued, p, sys'.peers[p], sys'.history[p], sys'.received[p])
    requires AllIssuedWell(sys'.issued) && MessagesWell(sys'.net, sys'.issued)
    ensures Inv(sys')
  {
    hide PeerWell, AllIssuedWell, MessagesWell;
  }

  /** The invariant, taken apart at one peer. */
  lemma InvAt(sys: System, p: PeerID)
    requires Inv(sys) && p in sys.peers
    ensures SameDomains(sys) && AllIssuedWell(sys.issued) && MessagesWell(sys.net, sys.issued)
    ensures PeersWell(sys, sys.issued, {p})
    ensures PeerWell(sys.issued, p, sys.peers[p], sys.history[p], sys.received[p])
  {
    hide PeerWell, AllIssuedWell, MessagesWell;
  }

  lemma IssueFrame(sys: System, p: PeerID, s: PeerState, op: Operation)
    requires SameDomains(sys) && p in sys.peers
    ensures var sys' := Issue(sys, p, s, op);
      && OthersKept(sys, sys', p)
      && sys'.issued == Recorded(sys.issued, p, op, sys.history[p]) && sys'.net == sys.net + {Announce(op)}
      && sys'.peers[p] == s && sys'.history[p] == sys.history[p] + {Event(p, |sys.issued[p]|)}
      && sys'.received[p] == sys.received[p]
  {
  }

  lemma HandFrame(sys: System, p: PeerID, op: Operation, now: int)
    requires SameDomains(sys) && p in sys.peers && Sound(op) && Filed(sys.peers[p].store)
    ensures var sys' := Hand(sys, p, op, now);
      && OthersKept(sys, sys', p) && sys'.net == sys.net
      && sys'.peers[p] == Receive(sys.peers[p], op, now) && sys'.received[p] == sys.received[p] + [op]
      && sys'.history[p] == sys.history[p] + {EventOf(op)} + CausesOf(sys.issued, EventOf(op))
  {
    hide Receive, Sound, Filed, CausesOf;
  }

  lemma IssueKeepsInv(sys: System, p: PeerID, store: Store, op: Operation)
    requires Inv(sys) && p in sys.peers && IssuedBy(p, sys.peers[p], op) && Filed(store)
    ensures Inv(Issue(sys, p, Log(sys.peers[p].(store := store), p, op), op))
  {
    InvAt(sys, p);
    var s, h := sys.peers[p], sys.history[p];
    assert Count(s.vector, p) == |sys.issued[p]|;
    hide PeerWell, PeersWell, AllIssuedWell, MessagesWell, Inv, IssuedBy, Log, Filed;
    IssuedStaysWell(sys.issued, p, s, h, sys.received[p], op);
    IssuerStaysWell(sys.issued, p, s, h, sys.received[p], store, op);
    OnlyItsOwnGrows(sys.issued, p, op, h);
    OtherPeersGrow(sys, Recorded(sys.issued, p, op, h), p);
    AnnouncedWell(sys.net, sys.issued, p, s, h, op);
    IssueFrame(sys, p, Log(s.(store := store), p, op), op);
    hide *;
    AssembleInv(sys, Issue(sys, p, Log(s.(store := store), p, op), op), p);
  }

  lemma MessageGrows(issued: Record, issued': Record, m: Message)
    requires MessageWell(issued, m) && Extends(issued, issued')
    ensures MessageWell(issued', m)
  {
    match m
    case Announce(op) => GenuineGrows(issued, issued', op);
    case Request(_, _) =>
    case Response(_, ops) =>
      forall i | 0 <= i < |ops| ensures Genuine(issued', ops[i]) {
        GenuineGrows(issued, issued', ops[i]);
      }
  }

  // ---------------------------------------------------------------- receiving

  /** Joining the clock of a received operation keeps clock and history in step. */
  lemma TracksReceived(issued: Record, q: PeerID, v: Counts, h: set<Event>, op: Operation)
    requires q in issued && Tracks(issued, q, v, h) && Count(v, q) == |issued[q]|
    requires Genuine(issued, op) && op.peerID != q
    requires IssuedWell(issued, op.peerID, OwnCounter(op))
    ensures Count(Join(v, op.vector), q) == Count(v, q)
    ensures Tracks(issued, q, Join(v, op.vector), h + {EventOf(op)} + CausesOf(issued, EventOf(op)))
  {
    var e := EventOf(op);
    var causes := At(issued, e).causes;
    var v', h' := Join(v, op.vector), h + {e} + causes;
    if Count(op.vector, q) > 0 {
      assert Founded(issued, op.vector, causes, Event(q, Count(op.vector, q)));
    }
    JoinIsLeastUpperBound(v, op.vector, v');
    forall x | x in h' ensures Founded(issued, v', h', x) {
      if x in h {
        assert Founded(issued, v, h, x);
        LeqTransitive(At(issued, x).op.vector, v, v');
      } else if x in causes {
        assert Founded(issued, op.vector, causes, x);
        LeqTransitive(At(issued, x).op.vector, op.vector, v');
      }
    }
    forall j: nat ensures Event(q, j) in h' <==> j < Count(v', q) {
      if Event(q, j) in causes {
        assert Founded(issued, op.vector, causes, Event(q, j));
      }
    }
  }

  lemma ReceiverStaysWell(issued: Record, q: PeerID, s: PeerState, h: set<Event>, received: seq<Operation>, op: Operation, now: int)
    requires PeerWell(issued, q, s, h, received)
    requires Genuine(issued, op) && op.peerID != q && IssuedWell(issued, op.peerID, OwnCounter(op))
    ensures PeerWell(issued, q, Receive(s, op, now), h + {EventOf(op)} + CausesOf(issued, EventOf(op)), received + [op])
  {
    hide Tracks;
    TracksReceived(issued, q, s.vector, h, op);
    ReceiveKeepsFiled(s.store, op, now);
    var h' := h + {EventOf(op)} + CausesOf(issued, EventOf(op));
    forall i | 0 <= i < |received + [op]| ensures HandedWell(issued, q, h', (received + [op])[i]) {
      if i < |received| { assert HandedWell(issued, q, h, received[i]); }
    }
  }

  lemma HandKeepsInv(sys: System, q: PeerID, op: Operation, now: int)
    requires Inv(sys) && q in sys.peers
    requires Genuine(sys.issued, op) && op.peerID != q
    ensures Sound(op) && Filed(sys.peers[q].store)
    ensures Inv(Hand(sys, q, op, now))
  {
    InvAt(sys, q);
    hide Inv, PeersWell, MessagesWell, Tracks;
    assert IssuedWell(sys.issued, op.peerID, OwnCounter(op));
    assert Filed(sys.peers[q].store);
    ReceiverStaysWell(sys.issued, q, sys.peers[q], sys.history[q], sys.received[q], op, now);
    HandFrame(sys, q, op, now);
    hide *;
    AssembleInv(sys, Hand(sys, q, op, now), q);
  }

  lemma {:induction false} HandAllKeepsInv(sys: System, q: PeerID, ops: seq<Operation>, now: int)
    requires Inv(sys) && q in sys.peers
    requires forall i | 0 <= i < |ops| :: Genuine(sys.issued, ops[i]) && ops[i].peerID != q
    ensures AllSound(ops) && Filed(sys.peers[q].store)
    ensures Inv(HandAll(sys, q, ops, now))
    ensures HandAll(sys, q, ops, now).issued == sys.issued
  {
    hide Tracks;
    assert PeerWell(sys.issued, q, sys.peers[q], sys.history[q], sys.received[q]);
    forall i | 0 <= i < |ops| ensures Sound(ops[i]) {
      assert IssuedWell(sys.issued, ops[i].peerID, OwnCounter(ops[i]));
    }
    if ops != [] {
      HandAllKeepsInv(sys, q, ops[..|ops| - 1], now);
      HandKeepsInv(HandAll(sys, q, ops[..|ops| - 1], now), q, ops[|ops| - 1], now);
    }
  }

  // ---------------------------------------------------------------- every step, every run

  lemma {:induction false} MissingComesFromLog(log: seq<Operation>, remote: Counts, op: Operation)
    ensures op in Missing(log, remote) <==> op in log && OwnCounter(op) > Count(remote, op.peerID)
  {
    if log != [] {
      var n := |log| - 1;
      MissingComesFromLog(log[..n], remote, op);
      assert log == log[..n] + [log[n]];
    }
  }

  lemma AnswerIsGenuine(sys: System, p: PeerID, vector: Counts, i: nat)
    requires Inv(sys) && p in sys.peers
    requires i < |Missing(sys.peers[p].log, vector)|
    ensures Genuine(sys.issued, Missing(sys.peers[p].log, vector)[i])
    ensures Missing(sys.peers[p].log, vector)[i].peerID == p
  {
    var op := Missing(sys.peers[p].log, vector)[i];
    MissingComesFromLog(sys.peers[p].log, vector, op);
    LogOfPeer(sys, p);
    hide Missing, Tracks, PeersWell, MessagesWell;
    LoggedIsGenuine(sys.issued, p, op);
  }

  lemma LogOfPeer(sys: System, p: PeerID)
    requires Inv(sys) && p in sys.peers
    ensures p in sys.issued && sys.peers[p].log == LogOf(sys.issued[p])
  {
    assert PeerWell(sys.issued, p, sys.peers[p], sys.history[p], sys.received[p]);
    hide Tracks, MessagesWell, AllIssuedWell, LogOf;
  }

  lemma LoggedIsGenuine(issued: Record, p: PeerID, op: Operation)
    requires AllIssuedWell(issued) && p in issued && op in LogOf(issued[p])
    ensures Genuine(issued, op) && op.peerID == p
  {
    hide Tracks;
    var ops := Operations(issued[p]);
    var j :| 0 <= j < |Prune(ops)| && Prune(ops)[j] == op;
    var k := if |ops| > MAX_LOG_SIZE then |ops| - MAX_LOG_SIZE + j else j;
    assert ops[k] == op;
    assert IssuedWell(issued, p, k);
  }

  lemma QuietPeerWell(issued: Record, p: PeerID, s: PeerState, h: set<Event>, received: seq<Operation>, syncing: bool)
    requires PeerWell(issued, p, s, h, received)
    ensures PeerWell(issued, p, s.(syncing := syncing), h, received)
  {
  }

  /** Steps that only set the flag or send a message. */
  lemma QuietKeepsInv(sys: System, sys': System, p: PeerID, syncing: bool)
    requires Inv(sys) && p in sys.peers
    requires sys'.issued == sys.issued && sys'.history == sys.history
    requires sys'.received == sys.received && sys'.timeline == sys.timeline
    requires sys'.peers == sys.peers[p := sys.peers[p].(syncing := syncing)]
    requires MessagesWell(sys'.net, sys.issued)
    ensures Inv(sys')
  {
    hide PeersWell, AllIssuedWell, MessagesWell, PeerWell;
    InvAt(sys, p);
    QuietPeerWell(sys.issued, p, sys.peers[p], sys.history[p], sys.received[p], syncing);
    assert SameDomains(sys') && OthersKept(sys, sys', p);
    hide *;
    AssembleInv(sys, sys', p);
  }

  lemma InsertKeepsInv(sys: System, step: Step)
    requires Inv(sys) && Enabled(sys, step) && step.LocalInsert?
    ensures Inv(Next(sys, step)) && Extends(sys.issued, Next(sys, step).issued)
  {
    hide Inv, Log, Prune;
    var p, s := step.peer, sys.peers[step.peer];
    IssueKeepsInv(sys, p, Put(s.store, step.fields), InsertOperation(p, s.vector, step.fields, step.now));
  }

  lemma DeleteKeepsInv(sys: System, step: Step)
    requires Inv(sys) && Enabled(sys, step) && step.LocalDelete?
    ensures Inv(Next(sys, step)) && Extends(sys.issued, Next(sys, step).issued)
  {
    hide Inv, Log, Prune;
    var p, s := step.peer, sys.peers[step.peer];
    IssueKeepsInv(sys, p, s.store - {step.id}, DeleteOperation(p, s.vector, step.id, step.now));
  }

  lemma AnswerKeepsInv(sys: System, step: Step)
    requires Inv(sys) && Enabled(sys, step) && step.AnswerSync?
    ensures Inv(Next(sys, step)) && Next(sys, step).issued == sys.issued
  {
    hide Tracks;
    var p, s, from := step.peer, sys.peers[step.peer], step.from;
    var answer := Missing(s.log, step.vector);
    forall i | 0 <= i < |answer| ensures Genuine(sys.issued, answer[i]) && answer[i].peerID != from {
      AnswerIsGenuine(sys, p, step.vector, i);
    }
    assert MessageWell(sys.issued, Response(from, answer));
    assert sys.peers == sys.peers[p := s.(syncing := s.syncing)];
    QuietKeepsInv(sys, Next(sys, step), p, s.syncing);
  }

  lemma FinishKeepsInv(sys: System, step: Step)
    requires Inv(sys) && Enabled(sys, step) && step.FinishSync?
    ensures Inv(Next(sys, step)) && Next(sys, step).issued == sys.issued
  {
    hide HandAll, ReceiveAll, PeersWell, AllIssuedWell, Genuine;
    var p := step.peer;
    assert MessageWell(sys.issued, Response(p, step.ops));
    HandAllKeepsInv(sys, p, step.ops, step.now);
    var after := HandAll(sys, p, step.ops, step.now);
    hide MessagesWell, AllSound, Filed;
    QuietKeepsInv(after, after.(peers := after.peers[p := after.peers[p].(syncing := false)]), p, false);
  }

  lemma DeliverKeepsInv(sys: System, step: Step)
    requires Inv(sys) && Enabled(sys, step) && step.Deliver?
    ensures Inv(Next(sys, step)) && Next(sys, step).issued == sys.issued
  {
    assert MessageWell(sys.issued, Announce(step.op));
    hide PeersWell, AllIssuedWell, MessagesWell, Genuine, Hand;
    HandKeepsInv(sys, step.peer, step.op, step.now);
  }

  lemma StepKeepsInv(sys: System, step: Step)
    requires Inv(sys) && Enabled(sys, step)
    ensures Inv(Next(sys, step))
    ensures Extends(sys.issued, Next(sys, step).issued)
  {
    hide Tracks, IssuedWell, PeerWell;
    match step
    case LocalInsert(_, _, _) => InsertKeepsInv(sys, step);
    case LocalDelete(_, _, _) => DeleteKeepsInv(sys, step);
    case Deliver(_, _, _) => DeliverKeepsInv(sys, step);
    case RequestSync(p) => QuietKeepsInv(sys, Next(sys, step), p, true);
    case AnswerSync(_, _, _) => AnswerKeepsInv(sys, step);
    case FinishSync(_, _, _) => FinishKeepsInv(sys, step);
    case SyncTimeout(p) => QuietKeepsInv(sys, Next(sys, step), p, false);
  }

  lemma {:induction false} RunKeepsInv(names: set<PeerID>, steps: seq<Step>)
    requires ValidRun(Init(names), steps)
    ensures Inv(StateAfter(Init(names), steps))
  {
    if steps != [] {
      RunKeepsInv(names, steps[..|steps| - 1]);
      StepKeepsInv(StateAfter(Init(names), steps[..|steps| - 1]), steps[|steps| - 1]);
    }
  }

  /** The invariant holds in every state of every run. */
  lemma ReachedInv(sys: System)
    requires Reached(sys)
    ensures Inv(sys)
  {
    var names: set<PeerID>, steps: seq<Step> :| ValidRun(Init(names), steps) && sys == StateAfter(Init(names), steps);
    RunKeepsInv(names, steps);
  }
}
