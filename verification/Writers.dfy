/**
 * A document that several peers write: the own store of a writer takes its own operations as they are, a stored
 * copy takes them through the invented clock. When all holders of the same operations hold the same document.
 */
module Writers {
  import opened Json
  import opened Sequences
  import opened VectorClocks
  import opened Resolver
  import opened Replication
  import opened Causality
  import opened CausalClocks
  import opened Timelines
  import opened Replicas

  // ---------------------------------------------------------------- possible timelines

  /** The own operations of `q` come in the order it issued them. */
  predicate OwnInOrder(q: PeerID, timeline: seq<Operation>) {
    forall i, j | 0 <= i < j < |timeline| && timeline[i].peerID == q && timeline[j].peerID == q ::
      OwnCounter(timeline[i]) < OwnCounter(timeline[j])
  }

  /** What was handed over before an own operation is within that operation's clock, and does not count it yet. */
  predicate HeardBefore(q: PeerID, timeline: seq<Operation>) {
    forall i, j | 0 <= i < j < |timeline| && timeline[i].peerID != q && timeline[j].peerID == q ::
      MayPrecede(timeline[i], timeline[j])
  }

  /**
   * A way in which `q` can have come by the operations, those of others perhaps repeatedly; for a peer that issued
   * none of them, any order.
   */
  ghost predicate Possible(q: PeerID, timeline: seq<Operation>, ops: seq<Operation>) {
    SameOperations(ops, timeline) && OwnInOrder(q, timeline) && HeardBefore(q, timeline)
  }

  /** Operations on one document as peers issue them, in any order: one under each number of a peer. */
  predicate Issuable(ops: seq<Operation>, id: string) {
    && About(ops, id)
    && (forall i | 0 <= i < |ops| :: ops[i].kind != Other)
    && (forall i, j | 0 <= i < |ops| && 0 <= j < |ops| && EventOf(ops[i]) == EventOf(ops[j]) :: ops[i] == ops[j])
  }

  /** Each once, in an order in which they can have been issued. */
  predicate IssuedInOrder(ops: seq<Operation>, id: string) {
    && About(ops, id)
    && (forall i | 0 <= i < |ops| :: ops[i].kind != Other)
    && (forall i | 0 <= i < |ops| :: OwnInOrder(ops[i].peerID, ops))
  }

  // ---------------------------------------------------------------- the condition

  /** The last operation of its issuer. */
  predicate IsLast(ops: seq<Operation>, last: Operation) {
    forall i | 0 <= i < |ops| && ops[i].peerID == last.peerID :: OwnCounter(ops[i]) <= OwnCounter(last)
  }

  /** An operation of another peer that the issuer can only have been handed afterwards. */
  predicate IsLate(op: Operation, last: Operation) {
    op.peerID != last.peerID && !MayPrecede(op, last)
  }

  predicate LateFresh(ops: seq<Operation>, last: Operation, field: string) {
    exists i | 0 <= i < |ops| :: IsLate(ops[i], last) && Fresh(ops[i]) && field in ops[i].data.value.payload
  }

  predicate SomeLate(ops: seq<Operation>, last: Operation) {
    exists i | 0 <= i < |ops| :: IsLate(ops[i], last) && HasFields(ops[i])
  }

  predicate OthersBring(ops: seq<Operation>, p: PeerID, fields: Fields) {
    forall i | 0 <= i < |ops| && ops[i].peerID != p && HasFields(ops[i]) :: ops[i].data.value.payload == fields
  }

  /**
   * After its own last operation the issuer comes to the fields `m` whatever it is handed and when. A last write
   * brings them, but for what fresh operations bring that it can only be handed later; after a last deletion the
   * later ones must bring all of them, or every write of the others brings exactly them.
   */
  predicate ComesTo(ops: seq<Operation>, last: Operation, m: Fields) {
    if HasFields(last) then
      && (forall field | field in last.data.value.payload :: Holds(m, field, last.data.value.payload[field]) || LateFresh(ops, last, field))
      && (forall field | field in m :: field in last.data.value.payload || LateFresh(ops, last, field))
    else
      SomeLate(ops, last) && ((forall field | field in m :: LateFresh(ops, last, field)) || OthersBring(ops, last.peerID, m))
  }

  /** For one peer: its last operation on the document, if it issued any, comes to the copy the operations settle to. */
  predicate WriterComes(q: PeerID, ops: seq<Operation>, id: string) {
    forall i | 0 <= i < |ops| && ops[i].peerID == q && IsLast(ops, ops[i]) ::
      CopyAfter(ops, id).Some? && ComesTo(ops, ops[i], CopyAfter(ops, id).value)
  }

  predicate Agreeable(ops: seq<Operation>, id: string) {
    NothingBrought(ops) || (Settled(ops) && forall i | 0 <= i < |ops| :: WriterComes(ops[i].peerID, ops, id))
  }

  /** Whoever holds the operations, and however it came by them, holds the same document. */
  ghost predicate AllHoldersAgree(ops: seq<Operation>, id: string) {
    forall q, timeline | Possible(q, timeline, ops) :: Replay(q, timeline, id) == CopyAfter(ops, id)
  }

  // ---------------------------------------------------------------- after the last own operation

  function Onward(copy: Option<Fields>, ops: seq<Operation>): Option<Fields>
    requires forall i | 0 <= i < |ops| :: Sound(ops[i])
  {
    if ops == [] then copy else RemoteEffect(Onward(copy, ops[..|ops| - 1]), ops[|ops| - 1])
  }

  lemma {:induction false} OnwardFromNothing(ops: seq<Operation>, id: string)
    requires About(ops, id)
    ensures Onward(None, ops) == CopyAfter(ops, id)
  {
    if ops != [] {
      OnwardFromNothing(ops[..|ops| - 1], id);
    }
  }

  lemma {:induction false} ReplayOnward(q: PeerID, before: seq<Operation>, last: Operation, after: seq<Operation>, id: string)
    requires About(after, id) && forall i | 0 <= i < |after| :: after[i].peerID != q
    requires Sound(last) && last.documentID == id && last.peerID == q && last.kind != Other
    ensures Replay(q, before + [last] + after, id)
         == Onward(if HasFields(last) then Some(last.data.value.payload) else None, after)
  {
    if after == [] {
      assert before + [last] + after == before + [last];
      ReplayOneMore(q, before, last, id);
    } else {
      var front := after[..|after| - 1];
      ReplayOnward(q, before, last, front, id);
      assert before + [last] + after == before + [last] + front + [after[|after| - 1]];
      ReplayOneMore(q, before + [last] + front, after[|after| - 1], id);
    }
  }

  /** The fields, with those that fresh operations bring as these bring them. */
  ghost predicate Overlaid(fields: Fields, ops: seq<Operation>, copy: Fields) {
    && (forall i, field | 0 <= i < |ops| && Fresh(ops[i]) && field in ops[i].data.value.payload ::
          Holds(copy, field, ops[i].data.value.payload[field]))
    && (forall field | !Offered(ops, field) :: Kept(fields, copy, field))
  }

  predicate Kept(fields: Fields, copy: Fields, field: string) {
    (field in copy <==> field in fields) && (field in fields ==> Holds(copy, field, fields[field]))
  }

  lemma OfferedOneMore(ops: seq<Operation>, op: Operation, field: string)
    ensures Offered(ops + [op], field) <==> Offered(ops, field) || (Fresh(op) && field in op.data.value.payload)
  {
    var all := ops + [op];
    assert all[|ops|] == op && forall i | 0 <= i < |ops| :: all[i] == ops[i];
    if Offered(ops, field) {
      var i :| 0 <= i < |ops| && Fresh(ops[i]) && field in ops[i].data.value.payload;
      assert Fresh(all[i]);
    }
  }

  lemma OverlaidOneMore(fields: Fields, ops: seq<Operation>, op: Operation, copy: Fields)
    requires Overlaid(fields, ops, copy) && Sound(op) && (op.kind == Delete ==> Stale(op)) && FreshAgree(ops + [op])
    ensures RemoteEffect(Some(copy), op).Some? && Overlaid(fields, ops + [op], RemoteEffect(Some(copy), op).value)
  {
    var all, copy' := ops + [op], RemoteEffect(Some(copy), op).value;
    assert all[|ops|] == op && forall i | 0 <= i < |ops| :: all[i] == ops[i];
    hide Stale, Sound, Offered;
    forall i, field | 0 <= i < |all| && Fresh(all[i]) && field in all[i].data.value.payload
      ensures Holds(copy', field, all[i].data.value.payload[field])
    {
      if i < |ops| {
        assert Holds(copy, field, ops[i].data.value.payload[field]);
        assert Fresh(op) ==> Agree(all[i].data.value.payload, all[|ops|].data.value.payload);
      }
    }
    forall field | !Offered(all, field) ensures Kept(fields, copy', field) {
      OfferedOneMore(ops, op, field);
      assert Kept(fields, copy, field);
    }
  }

  /** A document that is there only takes what fresh operations bring. */
  lemma {:induction false} OnwardTakesFresh(fields: Fields, ops: seq<Operation>, id: string)
    requires About(ops, id) && DeletionsAreStale(ops) && FreshAgree(ops)
    ensures Onward(Some(fields), ops).Some? && Overlaid(fields, ops, Onward(Some(fields), ops).value)
  {
    if ops == [] {
      assert forall field | !Offered(ops, field) :: Kept(fields, fields, field);
    } else {
      var front, last := ops[..|ops| - 1], ops[|ops| - 1];
      assert forall i | 0 <= i < |front| :: front[i] == ops[i];
      FrontLast(ops);
      OnwardTakesFresh(fields, front, id);
      hide Overlaid, RemoteEffect;
      OverlaidOneMore(fields, front, last, Onward(Some(fields), front).value);
    }
  }

  /** Where all writes bring the same, that is what is left, fresh or not. */
  lemma {:induction false} OnePayloadStays(ops: seq<Operation>, id: string, fields: Fields)
    requires About(ops, id) && DeletionsAreStale(ops)
    requires forall i | 0 <= i < |ops| && HasFields(ops[i]) :: ops[i].data.value.payload == fields
    ensures CopyAfter(ops, id) == if NothingBrought(ops) then None else Some(fields)
  {
    if ops != [] {
      var front, last := Front(ops), Last(ops);
      assert forall i | 0 <= i < |front| :: ops[i] == front[i];
      OnePayloadStays(front, id, fields);
      if !NothingBrought(front) {
        var i :| 0 <= i < |front| && HasFields(front[i]);
        assert HasFields(ops[i]);
      }
      assert fields + fields == fields;
      assert HasFields(ops[|ops| - 1]) ==> last.data.value.payload == fields;
    }
  }

  lemma {:induction false} CopyIsNamed(ops: seq<Operation>, id: string)
    requires About(ops, id)
    ensures CopyAfter(ops, id).Some? ==> "id" in CopyAfter(ops, id).value
  {
    if ops != [] {
      CopyIsNamed(ops[..|ops| - 1], id);
    }
  }

  // ---------------------------------------------------------------- the condition suffices

  /** The operations that a writer is handed after its last own one: others' operations, with all the late ones. */
  predicate After(ops: seq<Operation>, last: Operation, after: seq<Operation>) {
    && (forall i | 0 <= i < |after| :: after[i] in ops && after[i].peerID != last.peerID)
    && (forall i | 0 <= i < |ops| && IsLate(ops[i], last) :: ops[i] in after)
  }

  lemma AfterIsSettled(ops: seq<Operation>, last: Operation, after: seq<Operation>, id: string)
    requires About(ops, id) && After(ops, last, after)
    ensures About(after, id)
    ensures DeletionsAreStale(ops) ==> DeletionsAreStale(after)
    ensures FreshAgree(ops) ==> FreshAgree(after)
  {
    hide Sound, Stale;
  }

  /** Late fresh operations are among those handed over afterwards. */
  lemma LateIsOffered(ops: seq<Operation>, last: Operation, after: seq<Operation>, field: string)
    requires After(ops, last, after) && LateFresh(ops, last, field)
    ensures Offered(after, field)
  {
    var i :| 0 <= i < |ops| && IsLate(ops[i], last) && Fresh(ops[i]) && field in ops[i].data.value.payload;
    assert ops[i] in after;
    var j :| 0 <= j < |after| && after[j] == ops[i];
  }

  /** What is offered afterwards has the value that the operations settle to. */
  lemma OfferedHasValue(ops: seq<Operation>, last: Operation, after: seq<Operation>, id: string, field: string) returns (v: Value)
    requires About(ops, id) && DeletionsAreStale(ops) && FreshAgree(ops) && CopyAfter(ops, id).Some?
    requires After(ops, last, after) && Offered(after, field)
    ensures Holds(CopyAfter(ops, id).value, field, v)
    ensures exists i | 0 <= i < |after| :: Fresh(after[i]) && Holds(after[i].data.value.payload, field, v)
  {
    CopyReflects(ops, id);
    hide CopyAfter, Stale, Sound;
    var i :| 0 <= i < |after| && Fresh(after[i]) && field in after[i].data.value.payload;
    v := after[i].data.value.payload[field];
    assert after[i] in ops;
    var j :| 0 <= j < |ops| && ops[j] == after[i];
    assert Holds(CopyAfter(ops, id).value, field, ops[j].data.value.payload[field]);
  }

  lemma WriteComesThrough(ops: seq<Operation>, last: Operation, after: seq<Operation>, id: string)
    requires About(ops, id) && DeletionsAreStale(ops) && FreshAgree(ops) && CopyAfter(ops, id).Some?
    requires After(ops, last, after) && HasFields(last) && ComesTo(ops, last, CopyAfter(ops, id).value)
    requires About(after, id)
    ensures Onward(Some(last.data.value.payload), after) == CopyAfter(ops, id)
  {
    var fields, m := last.data.value.payload, CopyAfter(ops, id).value;
    AfterIsSettled(ops, last, after, id);
    OnwardTakesFresh(fields, after, id);
    var r := Onward(Some(fields), after).value;
    hide CopyAfter, Onward, About, DeletionsAreStale, FreshAgree, Stale;
    forall field: string, v: Value ensures Holds(r, field, v) <==> Holds(m, field, v) {
      if Offered(after, field) {
        var w := OfferedHasValue(ops, last, after, id, field);
        var i :| 0 <= i < |after| && Fresh(after[i]) && Holds(after[i].data.value.payload, field, w);
        assert Holds(r, field, after[i].data.value.payload[field]);
      } else {
        assert Kept(fields, r, field);
        if LateFresh(ops, last, field) { LateIsOffered(ops, last, after, field); }
      }
    }
    hide *;
    SameMap(r, m);
  }

  lemma DeletionComesThrough(ops: seq<Operation>, last: Operation, after: seq<Operation>, id: string)
    requires About(ops, id) && Settled(ops) && !NothingBrought(ops) && CopyAfter(ops, id).Some?
    requires After(ops, last, after) && !HasFields(last) && ComesTo(ops, last, CopyAfter(ops, id).value)
    requires About(after, id)
    ensures CopyAfter(after, id) == CopyAfter(ops, id)
  {
    var m := CopyAfter(ops, id).value;
    AfterIsSettled(ops, last, after, id);
    LateArrives(ops, last, after);
    if OthersBring(ops, last.peerID, m) {
      hide CopyAfter, About, Settled;
      forall i | 0 <= i < |after| && HasFields(after[i]) ensures after[i].data.value.payload == m {
        var j :| 0 <= j < |ops| && ops[j] == after[i];
      }
      OnePayloadStays(after, id, m);
    } else {
      CopyIsNamed(ops, id);
      LateIsOffered(ops, last, after, "id");
      LateUnion(ops, last, after, id);
    }
  }

  lemma LateArrives(ops: seq<Operation>, last: Operation, after: seq<Operation>)
    requires After(ops, last, after) && SomeLate(ops, last)
    ensures !NothingBrought(after)
  {
    var i :| 0 <= i < |ops| && IsLate(ops[i], last) && HasFields(ops[i]);
    assert ops[i] in after;
    var j :| 0 <= j < |after| && after[j] == ops[i];
    assert HasFields(after[j]);
  }

  lemma LateUnion(ops: seq<Operation>, last: Operation, after: seq<Operation>, id: string)
    requires About(ops, id) && Settled(ops) && !NothingBrought(ops) && CopyAfter(ops, id).Some?
    requires After(ops, last, after) && About(after, id) && DeletionsAreStale(after) && FreshAgree(after)
    requires forall field | field in CopyAfter(ops, id).value :: LateFresh(ops, last, field)
    requires Offered(after, "id")
    ensures CopyAfter(after, id) == CopyAfter(ops, id)
  {
    var m := CopyAfter(ops, id).value;
    SomeFreshAmong(ops, last, after);
    CoverAmong(ops, last, after, id);
    forall field: string, v: Value
      ensures CopyAfter(after, id).Some?
      ensures Holds(CopyAfter(after, id).value, field, v) <==> Holds(m, field, v)
    {
      CopyIsUnion(after, id, field, v);
      hide CopyAfter, About, DeletionsAreStale, FreshAgree, FreshCover, SomeFresh, Stale;
      if i :| 0 <= i < |after| && Fresh(after[i]) && Holds(after[i].data.value.payload, field, v) {
        assert Offered(after, field);
        FreshHasValue(ops, last, after, id, i, field);
      }
      if Holds(m, field, v) {
        LateIsOffered(ops, last, after, field);
        var w := OfferedHasValue(ops, last, after, id, field);
      }
    }
    CopyIsUnion(after, id, "", Null);
    hide *;
    SameMap(CopyAfter(after, id).value, m);
  }

  lemma FreshHasValue(ops: seq<Operation>, last: Operation, after: seq<Operation>, id: string, i: nat, field: string)
    requires About(ops, id) && DeletionsAreStale(ops) && FreshAgree(ops) && CopyAfter(ops, id).Some?
    requires After(ops, last, after) && i < |after| && Fresh(after[i]) && field in after[i].data.value.payload
    ensures Holds(CopyAfter(ops, id).value, field, after[i].data.value.payload[field])
  {
    CopyReflects(ops, id);
    hide CopyAfter, Stale, Sound;
    assert after[i] in ops;
    var j :| 0 <= j < |ops| && ops[j] == after[i];
    assert Holds(CopyAfter(ops, id).value, field, ops[j].data.value.payload[field]);
  }

  lemma SomeFreshAmong(ops: seq<Operation>, last: Operation, after: seq<Operation>)
    requires After(ops, last, after) && Offered(after, "id")
    ensures SomeFresh(after) && SomeFresh(ops)
  {
    var i :| 0 <= i < |after| && Fresh(after[i]) && "id" in after[i].data.value.payload;
    var j :| 0 <= j < |ops| && ops[j] == after[i];
  }

  lemma CoverAmong(ops: seq<Operation>, last: Operation, after: seq<Operation>, id: string)
    requires About(ops, id) && Settled(ops) && !NothingBrought(ops) && SomeFresh(ops) && CopyAfter(ops, id).Some?
    requires After(ops, last, after)
    requires forall field | field in CopyAfter(ops, id).value :: LateFresh(ops, last, field)
    ensures FreshCover(after)
  {
    CopyReflects(ops, id);
    hide CopyAfter, Stale, Sound;
    forall i, field | 0 <= i < |after| && HasFields(after[i]) && field in after[i].data.value.payload ensures Offered(after, field) {
      var j :| 0 <= j < |ops| && ops[j] == after[i];
      assert Offered(ops, field);
      var k :| 0 <= k < |ops| && Fresh(ops[k]) && field in ops[k].data.value.payload;
      assert Holds(CopyAfter(ops, id).value, field, ops[k].data.value.payload[field]);
      LateIsOffered(ops, last, after, field);
    }
  }

  lemma {:induction false} ReplayNothing(q: PeerID, timeline: seq<Operation>, id: string)
    requires About(timeline, id) && NothingBrought(timeline)
    ensures Replay(q, timeline, id) == None
  {
    if timeline != [] {
      ReplayNothing(q, Front(timeline), id);
    }
  }

  predicate WritesAt(q: PeerID, timeline: seq<Operation>, k: nat) {
    k < |timeline| && timeline[k].peerID == q && forall j | k < j < |timeline| :: timeline[j].peerID != q
  }

  lemma {:induction false} FindLastOwn(q: PeerID, timeline: seq<Operation>) returns (k: nat)
    requires exists i | 0 <= i < |timeline| :: timeline[i].peerID == q
    ensures WritesAt(q, timeline, k)
  {
    if timeline[|timeline| - 1].peerID == q {
      k := |timeline| - 1;
    } else {
      var front := timeline[..|timeline| - 1];
      assert exists i | 0 <= i < |front| :: front[i].peerID == q by {
        var i :| 0 <= i < |timeline| && timeline[i].peerID == q;
        assert front[i] == timeline[i];
      }
      k := FindLastOwn(q, front);
      assert forall j | 0 <= j < |front| :: front[j] == timeline[j];
    }
  }

  /** What a possible timeline looks like after its last own operation. */
  lemma SplitAtLastOwn(q: PeerID, timeline: seq<Operation>, ops: seq<Operation>, k: nat)
    requires Possible(q, timeline, ops) && WritesAt(q, timeline, k)
    ensures timeline == timeline[..k] + [timeline[k]] + timeline[k + 1..]
    ensures timeline[k] in ops && IsLast(ops, timeline[k]) && After(ops, timeline[k], timeline[k + 1..])
  {
    var last, after := timeline[k], timeline[k + 1..];
    Among(ops, timeline);
    forall i | 0 <= i < |ops| && ops[i].peerID == q ensures OwnCounter(ops[i]) <= OwnCounter(last) {
      var j := SameMembers(timeline, ops, i);
    }
    forall i | 0 <= i < |ops| && IsLate(ops[i], last) ensures ops[i] in after {
      var j := SameMembers(timeline, ops, i);
      assert j > k;
      assert after[j - k - 1] == ops[i];
    }
    forall i | 0 <= i < |after| ensures after[i] in ops && after[i].peerID != q {
      assert after[i] == timeline[k + 1 + i];
    }
  }

  /** A holder whose own last operation comes to the settled copy holds it, whatever it was handed and when. */
  lemma HolderHasCopy(q: PeerID, timeline: seq<Operation>, ops: seq<Operation>, id: string)
    requires About(ops, id) && (forall i | 0 <= i < |ops| :: ops[i].kind != Other) && Possible(q, timeline, ops)
    requires NothingBrought(ops) || (Settled(ops) && WriterComes(q, ops, id))
    ensures Replay(q, timeline, id) == CopyAfter(ops, id)
  {
    SettledOfReordered(ops, timeline, id);
    hide CopyAfter, Replay, Settled, About, ComesTo, HeardBefore, OwnInOrder;
    if NothingBrought(ops) {
      ReplayNothing(q, timeline, id);
      NothingLeft(ops, id);
    } else if forall i | 0 <= i < |timeline| :: timeline[i].peerID != q {
      ReplayOfReader(q, timeline, id);
      SettledHoweverDelivered(ops, timeline, id);
    } else {
      var k := FindLastOwn(q, timeline);
      SplitAtLastOwn(q, timeline, ops, k);
      LastOwnDecides(q, timeline, ops, id, k);
    }
  }

  lemma LastOwnDecides(q: PeerID, timeline: seq<Operation>, ops: seq<Operation>, id: string, k: nat)
    requires About(ops, id) && (forall i | 0 <= i < |ops| :: ops[i].kind != Other)
    requires !NothingBrought(ops) && Settled(ops) && WriterComes(q, ops, id) && WritesAt(q, timeline, k)
    requires timeline == timeline[..k] + [timeline[k]] + timeline[k + 1..]
    requires timeline[k] in ops && IsLast(ops, timeline[k]) && After(ops, timeline[k], timeline[k + 1..])
    ensures Replay(q, timeline, id) == CopyAfter(ops, id)
  {
    var last, after := timeline[k], timeline[k + 1..];
    var i :| 0 <= i < |ops| && ops[i] == last;
    assert CopyAfter(ops, id).Some? && ComesTo(ops, last, CopyAfter(ops, id).value);
    AfterIsSettled(ops, last, after, id);
    assert Sound(last) && last.documentID == id;
    assert forall i | 0 <= i < |after| :: after[i].peerID != q;
    hide CopyAfter, Replay, About, ComesTo, After, WriterComes, Sound, Stale, Onward;
    ReplayOnward(q, timeline[..k], last, after, id);
    if HasFields(last) {
      WriteComesThrough(ops, last, after, id);
    } else {
      DeletionComesThrough(ops, last, after, id);
      OnwardFromNothing(after, id);
    }
  }

  // ---------------------------------------------------------------- the condition is necessary

  /** A name that none of the issuers has. */
  lemma {:induction false} Stranger(ops: seq<Operation>) returns (q: PeerID)
    ensures forall i | 0 <= i < |ops| :: |ops[i].peerID| < |q|
  {
    if ops == [] {
      return "";
    }
    var r := Stranger(ops[..|ops| - 1]);
    q := if |ops[|ops| - 1].peerID| < |r| then r else ops[|ops| - 1].peerID + "+";
    assert forall i | 0 <= i < |ops| - 1 :: ops[..|ops| - 1][i] == ops[i];
  }

  /** Peers that only read may be handed the operations in any order. */
  lemma ReadersForceAnyOrder(ops: seq<Operation>, id: string)
    requires About(ops, id) && AllHoldersAgree(ops, id)
    ensures AnyOrder(ops, id)
  {
    var q := Stranger(ops);
    forall ops': seq<Operation> | multiset(ops') == multiset(ops) ensures CopyAfter(ops', id) == CopyAfter(ops, id) {
      WithinOf(ops, ops');
      forall i | 0 <= i < |ops'| ensures ops'[i].peerID != q {
        var j := SameMembers(ops, ops', i);
      }
      assert Possible(q, ops', ops);
      ReplayOfReader(q, ops', id);
    }
  }

  function Late(ops: seq<Operation>, last: Operation): seq<Operation> {
    if ops == [] then []
    else
      var n := |ops| - 1;
      if IsLate(ops[n], last) then Late(ops[..n], last) + [ops[n]] else Late(ops[..n], last)
  }

  function Early(ops: seq<Operation>, last: Operation): seq<Operation> {
    if ops == [] then []
    else
      var n := |ops| - 1;
      if ops[n].peerID != last.peerID && MayPrecede(ops[n], last) then Early(ops[..n], last) + [ops[n]] else Early(ops[..n], last)
  }

  lemma {:induction false} LateAndEarly(ops: seq<Operation>, last: Operation)
    ensures forall op :: op in Late(ops, last) <==> op in ops && IsLate(op, last)
    ensures forall op :: op in Early(ops, last) <==> op in ops && op.peerID != last.peerID && MayPrecede(op, last)
  {
    if ops != [] {
      hide MayPrecede;
      LateAndEarly(Front(ops), last);
      FrontLast(ops);
    }
  }

  lemma {:induction false} FromIsOrdered(ops: seq<Operation>, p: PeerID)
    requires OwnInOrder(p, ops)
    ensures OwnInOrder(p, From(ops, p))
  {
    if ops != [] {
      var front, x := Front(ops), Last(ops);
      assert forall i | 0 <= i < |front| :: front[i] == ops[i];
      FromIsOrdered(front, p);
      FromMembers(front, p);
      if x.peerID == p {
        forall i | 0 <= i < |From(front, p)| ensures From(front, p)[i].peerID == p && OwnCounter(From(front, p)[i]) < OwnCounter(x) {
          assert From(front, p)[i] in front;
          var j :| 0 <= j < |front| && front[j] == From(front, p)[i];
          assert ops[j].peerID == p && ops[|ops| - 1].peerID == p;
        }
      }
    }
  }

  /** The last operation of its issuer is the last of its operations. */
  lemma LastOfIssuer(ops: seq<Operation>, id: string, last: Operation)
    requires IssuedInOrder(ops, id) && last in ops && IsLast(ops, last)
    ensures OwnInOrder(last.peerID, ops)
    ensures From(ops, last.peerID) != [] && Last(From(ops, last.peerID)) == last
  {
    var p := last.peerID;
    var k :| 0 <= k < |ops| && ops[k] == last;
    assert OwnInOrder(ops[k].peerID, ops);
    FromIsOrdered(ops, p);
    FromMembers(ops, p);
    var own := From(ops, p);
    assert last in own;
    var i :| 0 <= i < |own| && own[i] == last;
    assert own[|own| - 1] in own;
    var j :| 0 <= j < |ops| && ops[j] == own[|own| - 1];
    assert OwnCounter(own[|own| - 1]) <= OwnCounter(last);
  }

  /** The operations handed to the issuer before its last own one are early ones, and all others come after. */
  ghost predicate Parted(ops: seq<Operation>, last: Operation, before: seq<Operation>, after: seq<Operation>) {
    && (forall op | op in before :: op in Early(ops, last))
    && (forall op :: op in before || op in after <==> op in Early(ops, last) || op in Late(ops, last))
  }

  /** Each such way is possible. */
  lemma PossibleWith(ops: seq<Operation>, id: string, last: Operation, before: seq<Operation>, after: seq<Operation>)
    requires IssuedInOrder(ops, id) && last in ops && IsLast(ops, last) && Parted(ops, last, before, after)
    ensures From(ops, last.peerID) != []
    ensures Possible(last.peerID, Front(From(ops, last.peerID)) + before + [last] + after, ops)
    ensures forall i | 0 <= i < |after| :: after[i] in ops && after[i].peerID != last.peerID
  {
    var q := last.peerID;
    LastOfIssuer(ops, id, last);
    FromMembers(ops, q);
    FromIsOrdered(ops, q);
    var own := From(ops, q);
    AmongEarlyAndLate(ops, last, before, after);
    hide *;
    OwnSplits(own, last, q);
    PartsArePossible(q, Front(own), before, last, after);
    PartsAreAll(ops, own, before, last, after);
    PartsMakePossible(q, Front(own) + before + [last] + after, ops);
  }

  lemma PartsMakePossible(q: PeerID, timeline: seq<Operation>, ops: seq<Operation>)
    requires SameOperations(ops, timeline) && OwnInOrder(q, timeline) && HeardBefore(q, timeline)
    ensures Possible(q, timeline, ops)
  {
  }

  lemma OwnSplits(own: seq<Operation>, last: Operation, q: PeerID)
    requires own != [] && Last(own) == last && (forall op :: op in own ==> op.peerID == q) && OwnInOrder(q, own)
    ensures OwnInOrder(q, Front(own) + [last]) && forall op | op in Front(own) :: op.peerID == q
  {
    FrontLast(own);
  }

  lemma PartsAreAll(ops: seq<Operation>, own: seq<Operation>, before: seq<Operation>, last: Operation, after: seq<Operation>)
    requires own != [] && Last(own) == last
    requires forall op :: op in ops <==> op in own || op in before || op in after
    ensures SameOperations(ops, Front(own) + before + [last] + after)
  {
    FrontLast(own);
    forall op ensures op in Front(own) + before + [last] + after <==> op in own || op in before || op in after {
    }
  }

  lemma AmongEarlyAndLate(ops: seq<Operation>, last: Operation, before: seq<Operation>, after: seq<Operation>)
    requires Parted(ops, last, before, after)
    ensures forall op | op in before :: op.peerID != last.peerID && MayPrecede(op, last)
    ensures forall op | op in after :: op in ops && op.peerID != last.peerID
    ensures forall op :: op in ops <==> op in From(ops, last.peerID) || op in before || op in after
  {
    LateAndEarly(ops, last);
    FromMembers(ops, last.peerID);
    hide Early, Late, MayPrecede, From, NotFrom;
  }

  lemma PartsArePossible(q: PeerID, own: seq<Operation>, before: seq<Operation>, last: Operation, after: seq<Operation>)
    requires OwnInOrder(q, own + [last]) && last.peerID == q && forall op | op in own :: op.peerID == q
    requires forall op | op in before :: op.peerID != q && MayPrecede(op, last)
    requires forall op | op in after :: op.peerID != q
    ensures OwnInOrder(q, own + before + [last] + after) && HeardBefore(q, own + before + [last] + after)
  {
    hide MayPrecede;
    var timeline, n, k := own + before + [last] + after, |own|, |own| + |before|;
    forall i | 0 <= i < |timeline|
      ensures timeline[i] == if i < n then own[i] else if i < k then before[i - n] else if i == k then last else after[i - k - 1]
    {
    }
    assert forall i | 0 <= i < |own| :: own[i] in own && (own + [last])[i] == own[i];
    assert (own + [last])[n] == last;
    assert forall i | 0 <= i < |before| :: before[i] in before;
    assert forall i | 0 <= i < |after| :: after[i] in after;
  }

  /** What the writer then holds is what it must come to. */
  lemma MustComeTo(ops: seq<Operation>, id: string, last: Operation, before: seq<Operation>, after: seq<Operation>)
    requires IssuedInOrder(ops, id) && last in ops && IsLast(ops, last) && AllHoldersAgree(ops, id)
    requires Parted(ops, last, before, after)
    ensures About(after, id) && forall i | 0 <= i < |after| :: after[i] in ops
    ensures Onward(if HasFields(last) then Some(last.data.value.payload) else None, after) == CopyAfter(ops, id)
  {
    PossibleWith(ops, id, last, before, after);
    AmongIsAbout(ops, id, last, after);
    var own := Front(From(ops, last.peerID)) + before;
    AgreesAt(last.peerID, own + [last] + after, ops, id);
    hide *;
    GoesOnTo(last.peerID, own, last, after, id, CopyAfter(ops, id));
  }

  lemma AgreesAt(q: PeerID, timeline: seq<Operation>, ops: seq<Operation>, id: string)
    requires AllHoldersAgree(ops, id) && Possible(q, timeline, ops)
    ensures Replay(q, timeline, id) == CopyAfter(ops, id)
  {
  }

  lemma GoesOnTo(q: PeerID, before: seq<Operation>, last: Operation, after: seq<Operation>, id: string, copy: Option<Fields>)
    requires About(after, id) && forall i | 0 <= i < |after| :: after[i].peerID != q
    requires Sound(last) && last.documentID == id && last.peerID == q && last.kind != Other
    requires Replay(q, before + [last] + after, id) == copy
    ensures forall i | 0 <= i < |after| :: Sound(after[i])
    ensures Onward(if HasFields(last) then Some(last.data.value.payload) else None, after) == copy
  {
    ReplayOnward(q, before, last, after, id);
  }

  lemma AmongIsAbout(ops: seq<Operation>, id: string, last: Operation, after: seq<Operation>)
    requires IssuedInOrder(ops, id) && last in ops && forall i | 0 <= i < |after| :: after[i] in ops
    ensures About(after, id) && Sound(last) && last.documentID == id && last.kind != Other
  {
    hide Sound, OwnInOrder;
    var k :| 0 <= k < |ops| && ops[k] == last;
  }

  lemma WriteMustCome(ops: seq<Operation>, id: string, last: Operation)
    requires IssuedInOrder(ops, id) && last in ops && IsLast(ops, last) && AllHoldersAgree(ops, id)
    requires DeletionsAreStale(ops) && FreshAgree(ops) && HasFields(last)
    ensures CopyAfter(ops, id).Some? && ComesTo(ops, last, CopyAfter(ops, id).value)
  {
    var fields, late := last.data.value.payload, Late(ops, last);
    LateAndEarly(ops, last);
    MustComeTo(ops, id, last, Early(ops, last), late);
    LateIsAfter(ops, last);
    AfterIsSettled(ops, last, late, id);
    OnwardTakesFresh(fields, late, id);
    hide CopyAfter, Onward, IssuedInOrder, AllHoldersAgree, IsLast, DeletionsAreStale, FreshAgree, About, Stale;
    var m := CopyAfter(ops, id).value;
    forall field ensures Offered(late, field) ==> LateFresh(ops, last, field) {
      OfferedIsLate(ops, last, field);
    }
    forall field | !LateFresh(ops, last, field) ensures Kept(fields, m, field) {
    }
  }

  lemma LateIsAfter(ops: seq<Operation>, last: Operation)
    ensures After(ops, last, Late(ops, last))
  {
    LateAndEarly(ops, last);
    hide Leq, Late, Early, From;
  }

  lemma OfferedIsLate(ops: seq<Operation>, last: Operation, field: string)
    ensures Offered(Late(ops, last), field) ==> LateFresh(ops, last, field)
  {
    LateAndEarly(ops, last);
    var late := Late(ops, last);
    hide Late, Early, Leq;
    if Offered(late, field) {
      var i :| 0 <= i < |late| && Fresh(late[i]) && field in late[i].data.value.payload;
      assert late[i] in late;
      var j :| 0 <= j < |ops| && ops[j] == late[i];
    }
  }

  /** Where a write arrives first, the rest goes on from what it brings. */
  lemma {:induction false} FirstThenOnward(first: Operation, rest: seq<Operation>, id: string)
    requires About([first] + rest, id) && HasFields(first)
    ensures forall i | 0 <= i < |rest| :: Sound(rest[i])
    ensures CopyAfter([first] + rest, id) == Onward(Some(first.data.value.payload), rest)
  {
    var ops := [first] + rest;
    assert ops[0] == first && forall i | 0 <= i < |rest| :: rest[i] == ops[i + 1];
    if rest == [] {
      assert ops[..0] == [];
      assert CopyAfter([], id) == None;
    } else {
      var front := [first] + Front(rest);
      assert Front(ops) == front && Last(ops) == Last(rest);
      assert forall i | 0 <= i < |front| :: front[i] == ops[i];
      FirstThenOnward(first, Front(rest), id);
    }
  }

  lemma NothingOverlaid(fields: Fields, ops: seq<Operation>, copy: Fields)
    requires Overlaid(fields, ops, copy) && forall field :: !Offered(ops, field)
    ensures copy == fields
  {
    hide Offered;
    forall field: string, v: Value ensures Holds(copy, field, v) <==> Holds(fields, field, v) {
      assert Kept(fields, copy, field);
    }
    SameMap(copy, fields);
  }

  /** With nothing fresh afterwards, a write that arrives first stays as it is. */
  lemma FirstStays(first: Operation, rest: seq<Operation>, id: string)
    requires About([first] + rest, id) && HasFields(first) && DeletionsAreStale(rest) && FreshAgree(rest) && !SomeFresh(rest)
    ensures CopyAfter([first] + rest, id) == Some(first.data.value.payload)
  {
    var fields := first.data.value.payload;
    FirstThenOnward(first, rest, id);
    assert forall i | 0 <= i < |rest| :: rest[i] == ([first] + rest)[i + 1];
    OnwardTakesFresh(fields, rest, id);
    var r := Onward(Some(fields), rest).value;
    forall field ensures !Offered(rest, field) {
    }
    hide *;
    NothingOverlaid(fields, rest, r);
  }

  lemma DeletionMustCome(ops: seq<Operation>, id: string, last: Operation)
    requires IssuedInOrder(ops, id) && last in ops && IsLast(ops, last) && AllHoldersAgree(ops, id)
    requires DeletionsAreStale(ops) && FreshAgree(ops) && !HasFields(last) && CopyAfter(ops, id).Some?
    ensures ComesTo(ops, last, CopyAfter(ops, id).value)
  {
    var late, m := Late(ops, last), CopyAfter(ops, id).value;
    LateAndEarly(ops, last);
    MustComeTo(ops, id, last, Early(ops, last), late);
    OnwardFromNothing(late, id);
    LateIsAfter(ops, last);
    AfterIsSettled(ops, last, late, id);
    hide CopyAfter, Onward, Late, Early, IsLast, Stale, Leq, AllHoldersAgree, IssuedInOrder;
    if NothingBrought(late) {
      NothingLeft(late, id);
    } else {
      var i :| 0 <= i < |late| && HasFields(late[i]);
      assert late[i] in late;
      var j :| 0 <= j < |ops| && ops[j] == late[i];
      assert SomeLate(ops, last);
    }
    if SomeFresh(late) {
      FreshLateMustCover(ops, id, last);
    } else {
      OthersMustBring(ops, id, last);
    }
  }

  /** An operation of others, early or late, may be the first that the issuer is handed after its last own one. */
  lemma ComesFirst(ops: seq<Operation>, id: string, last: Operation, op: Operation)
    requires IssuedInOrder(ops, id) && last in ops && IsLast(ops, last) && AllHoldersAgree(ops, id)
    requires !HasFields(last) && (op in Early(ops, last) || op in Late(ops, last))
    ensures About([op] + Late(ops, last), id) && CopyAfter([op] + Late(ops, last), id) == CopyAfter(ops, id)
  {
    var after := [op] + Late(ops, last);
    hide *;
    PartedWith(ops, last, op);
    MustComeTo(ops, id, last, Early(ops, last), after);
    OnwardFromNothing(after, id);
  }

  lemma PartedWith(ops: seq<Operation>, last: Operation, op: Operation)
    requires op in Early(ops, last) || op in Late(ops, last)
    ensures Parted(ops, last, Early(ops, last), [op] + Late(ops, last))
    ensures Parted(ops, last, Early(ops, last), Late(ops, last))
  {
    hide Early, Late;
  }

  lemma FreshLateMustCover(ops: seq<Operation>, id: string, last: Operation)
    requires IssuedInOrder(ops, id) && last in ops && IsLast(ops, last) && AllHoldersAgree(ops, id)
    requires DeletionsAreStale(Late(ops, last)) && !HasFields(last) && CopyAfter(ops, id).Some? && SomeFresh(Late(ops, last))
    ensures forall field | field in CopyAfter(ops, id).value :: LateFresh(ops, last, field)
  {
    hide CopyAfter, Late, Early, IsLast, Stale, MayPrecede, AllHoldersAgree, IssuedInOrder, About, Offered;
    var late := Late(ops, last);
    var i :| 0 <= i < |late| && Fresh(late[i]);
    var after := [late[i]] + late;
    ComesFirst(ops, id, last, late[i]);
    DeletionsStayStale(late, i);
    OnlyOfferedFields(late[i], late, id);
    forall field | field in CopyAfter(ops, id).value ensures LateFresh(ops, last, field) {
      OfferedOfReordered(late, after, field);
      OfferedIsLate(ops, last, field);
    }
  }

  lemma DeletionsStayStale(ops: seq<Operation>, i: nat)
    requires i < |ops| && DeletionsAreStale(ops)
    ensures DeletionsAreStale([ops[i]] + ops) && SameOperations(ops, [ops[i]] + ops)
  {
    hide Stale;
    forall op ensures op in ops <==> op in [ops[i]] + ops {
    }
  }

  lemma OthersMustBring(ops: seq<Operation>, id: string, last: Operation)
    requires IssuedInOrder(ops, id) && last in ops && IsLast(ops, last) && AllHoldersAgree(ops, id)
    requires DeletionsAreStale(ops) && FreshAgree(ops)
    requires !HasFields(last) && CopyAfter(ops, id).Some? && !SomeFresh(Late(ops, last))
    ensures OthersBring(ops, last.peerID, CopyAfter(ops, id).value)
  {
    LateAndEarly(ops, last);
    hide CopyAfter, Late, Early, Stale, IsLast, AllHoldersAgree, IssuedInOrder;
    forall i | 0 <= i < |ops| && ops[i].peerID != last.peerID && HasFields(ops[i])
      ensures ops[i].data.value.payload == CopyAfter(ops, id).value
    {
      OtherMustMatch(ops, id, last, ops[i]);
    }
  }

  lemma OtherMustMatch(ops: seq<Operation>, id: string, last: Operation, op: Operation)
    requires IssuedInOrder(ops, id) && last in ops && IsLast(ops, last) && AllHoldersAgree(ops, id)
    requires DeletionsAreStale(ops) && FreshAgree(ops) && !HasFields(last) && !SomeFresh(Late(ops, last))
    requires (op in Early(ops, last) || op in Late(ops, last)) && HasFields(op)
    ensures CopyAfter(ops, id) == Some(op.data.value.payload)
  {
    LateIsAfter(ops, last);
    AboutIssued(ops, id);
    AfterIsSettled(ops, last, Late(ops, last), id);
    hide *;
    ComesFirst(ops, id, last, op);
    FirstStays(op, Late(ops, last), id);
  }

  lemma AboutIssued(ops: seq<Operation>, id: string)
    requires IssuedInOrder(ops, id)
    ensures About(ops, id)
  {
  }

  lemma OrderedHoldersAgree(ops: seq<Operation>, id: string)
    requires IssuedInOrder(ops, id) && AllHoldersAgree(ops, id)
    ensures Agreeable(ops, id)
  {
    hide Settled, CopyAfter, Replay, OwnInOrder, HeardBefore, ComesTo;
    if !NothingBrought(ops) {
      ReadersForceAnyOrder(ops, id);
      AnyOrderIff(ops, id);
      AgreeingWritersCome(ops, id);
    }
  }

  // ---------------------------------------------------------------- any list of operations

  predicate Numbered(ops: seq<Operation>) {
    forall i, j | 0 <= i < j < |ops| :: OwnCounter(ops[i]) <= OwnCounter(ops[j]) && ops[i] != ops[j]
  }

  /** The operations by their numbers, each once. */
  lemma {:induction false} Arrange(ops: seq<Operation>) returns (ordered: seq<Operation>)
    ensures SameOperations(ops, ordered) && Numbered(ordered)
  {
    if ops == [] {
      return [];
    }
    var front, op := Front(ops), Last(ops);
    FrontLast(ops);
    var rest := Arrange(front);
    ordered := rest;
    if op !in rest {
      var n := PlaceFor(rest, op);
      ordered := rest[..n] + [op] + rest[n..];
      PlacedAt(rest, op, n);
    }
  }

  lemma {:induction false} PlaceFor(rest: seq<Operation>, op: Operation) returns (n: nat)
    requires Numbered(rest)
    ensures n <= |rest|
    ensures forall i | 0 <= i < n :: OwnCounter(rest[i]) <= OwnCounter(op)
    ensures forall i | n <= i < |rest| :: OwnCounter(op) <= OwnCounter(rest[i])
  {
    hide OwnCounter;
    if rest == [] || OwnCounter(Last(rest)) <= OwnCounter(op) {
      n := |rest|;
      forall i | 0 <= i < n ensures OwnCounter(rest[i]) <= OwnCounter(op) {
        assert OwnCounter(rest[i]) <= OwnCounter(Last(rest));
      }
    } else {
      n := PlaceFor(Front(rest), op);
    }
  }

  lemma PlacedAt(rest: seq<Operation>, op: Operation, n: nat)
    requires Numbered(rest) && op !in rest && n <= |rest|
    requires forall i | 0 <= i < n :: OwnCounter(rest[i]) <= OwnCounter(op)
    requires forall i | n <= i < |rest| :: OwnCounter(op) <= OwnCounter(rest[i])
    ensures Numbered(rest[..n] + [op] + rest[n..])
    ensures forall x :: x in rest[..n] + [op] + rest[n..] <==> x in rest || x == op
  {
    hide OwnCounter;
    var all := rest[..n] + [op] + rest[n..];
    assert forall i | 0 <= i < |all| :: all[i] == if i < n then rest[i] else if i == n then op else rest[i - 1];
    assert rest == rest[..n] + rest[n..];
  }

  lemma DifferentNumbers(ops: seq<Operation>, id: string, a: Operation, b: Operation)
    requires Issuable(ops, id) && a in ops && b in ops && a != b && a.peerID == b.peerID
    ensures OwnCounter(a) != OwnCounter(b)
  {
    hide OwnCounter, About;
    var k :| 0 <= k < |ops| && ops[k] == a;
    var l :| 0 <= l < |ops| && ops[l] == b;
    assert ops[k] != ops[l] ==> EventOf(ops[k]) != EventOf(ops[l]);
  }

  lemma NumberedIsInOrder(ops: seq<Operation>, ordered: seq<Operation>, id: string)
    requires Issuable(ops, id) && SameOperations(ops, ordered) && Numbered(ordered)
    ensures IssuedInOrder(ordered, id)
  {
    SettledOfReordered(ops, ordered, id);
    Among(ops, ordered);
    hide OwnCounter, About, Sound;
    forall i, j | 0 <= i < j < |ordered| && ordered[i].peerID == ordered[j].peerID
      ensures OwnCounter(ordered[i]) < OwnCounter(ordered[j])
    {
      DifferentNumbers(ops, id, ordered[i], ordered[j]);
    }
    forall i | 0 <= i < |ordered| ensures ordered[i].kind != Other && OwnInOrder(ordered[i].peerID, ordered) {
      assert ordered[i] in ops;
    }
  }

  lemma ComesToOfSame(ops: seq<Operation>, ops': seq<Operation>, last: Operation, m: Fields)
    requires SameOperations(ops, ops') && ComesTo(ops, last, m)
    ensures ComesTo(ops', last, m)
  {
    hide IsLate, Stale;
    Among(ops, ops');
    forall field ensures LateFresh(ops, last, field) ==> LateFresh(ops', last, field) {
      if LateFresh(ops, last, field) {
        var i :| 0 <= i < |ops| && IsLate(ops[i], last) && Fresh(ops[i]) && field in ops[i].data.value.payload;
        var j := SameMembers(ops', ops, i);
      }
    }
    if SomeLate(ops, last) {
      var i :| 0 <= i < |ops| && IsLate(ops[i], last) && HasFields(ops[i]);
      var j := SameMembers(ops', ops, i);
      assert IsLate(ops'[j], last) && HasFields(ops'[j]);
    }
    forall i | 0 <= i < |ops'| && OthersBring(ops, last.peerID, m) && ops'[i].peerID != last.peerID && HasFields(ops'[i])
      ensures ops'[i].data.value.payload == m
    {
      var j := SameMembers(ops, ops', i);
    }
  }

  /** The condition is one on the set of operations. */
  lemma AgreeableOfSame(ops: seq<Operation>, ops': seq<Operation>, id: string)
    requires SameOperations(ops, ops') && About(ops, id) && Agreeable(ops, id)
    ensures Agreeable(ops', id)
  {
    SettledOfReordered(ops, ops', id);
    SettledOfReordered(ops', ops, id);
    if !NothingBrought(ops) {
      SettledHoweverDelivered(ops, ops', id);
      hide CopyAfter, ComesTo, About, DeletionsAreStale, FreshAgree, FreshCover, SomeFresh, OnePayload, OwnCounter;
      forall i, k | 0 <= i < |ops'| && 0 <= k < |ops'| && ops'[k].peerID == ops'[i].peerID && IsLast(ops', ops'[k])
        ensures CopyAfter(ops', id).Some? && ComesTo(ops', ops'[k], CopyAfter(ops', id).value)
      {
        LastOfSame(ops, ops', k);
        var l := SameMembers(ops, ops', k);
        assert WriterComes(ops[l].peerID, ops, id);
        ComesToOfSame(ops, ops', ops'[k], CopyAfter(ops, id).value);
      }
    }
  }

  lemma LastOfSame(ops: seq<Operation>, ops': seq<Operation>, k: nat)
    requires SameOperations(ops, ops') && k < |ops'| && IsLast(ops', ops'[k])
    ensures IsLast(ops, ops'[k])
  {
    hide OwnCounter;
    forall i | 0 <= i < |ops| && ops[i].peerID == ops'[k].peerID ensures OwnCounter(ops[i]) <= OwnCounter(ops'[k]) {
      var j := SameMembers(ops', ops, i);
    }
  }

  /**
   * A document with many writers, at readers and writers alike: all holders of the same operations hold the same
   * document, however they came by them, exactly when nothing is brought, or the operations settle and each
   * issuer's last operation comes to what they settle to.
   */
  lemma AllHoldersAgreeIff(ops: seq<Operation>, id: string)
    requires Issuable(ops, id)
    ensures AllHoldersAgree(ops, id) <==> Agreeable(ops, id)
  {
    hide Settled, CopyAfter, Replay, OwnInOrder, HeardBefore, ComesTo, Agreeable;
    if Agreeable(ops, id) {
      forall q, timeline | Possible(q, timeline, ops) ensures Replay(q, timeline, id) == CopyAfter(ops, id) {
        EveryPeerComes(q, ops, id);
        HolderHasCopy(q, timeline, ops, id);
      }
    }
    if AllHoldersAgree(ops, id) {
      var ordered := Arrange(ops);
      NumberedIsInOrder(ops, ordered, id);
      AgreeOnceEach(ops, ordered, id);
      OrderedHoldersAgree(ordered, id);
      AboutIssued(ordered, id);
      AgreeableOfSame(ordered, ops, id);
    }
  }

  lemma AgreeOnceEach(ops: seq<Operation>, ordered: seq<Operation>, id: string)
    requires AllHoldersAgree(ops, id) && SameOperations(ops, ordered)
    ensures AllHoldersAgree(ordered, id)
  {
    hide Replay, CopyAfter, OwnInOrder, HeardBefore;
    var q := Stranger(ordered);
    StrangerMayHold(q, ordered, ops);
    ReplayOfReader(q, ordered, id);
    forall r, timeline | Possible(r, timeline, ordered) ensures Replay(r, timeline, id) == CopyAfter(ordered, id) {
      assert Possible(r, timeline, ops);
    }
  }

  lemma StrangerMayHold(q: PeerID, timeline: seq<Operation>, ops: seq<Operation>)
    requires SameOperations(ops, timeline) && forall i | 0 <= i < |timeline| :: timeline[i].peerID != q
    ensures Possible(q, timeline, ops)
  {
  }

  lemma EveryPeerComes(q: PeerID, ops: seq<Operation>, id: string)
    requires Agreeable(ops, id)
    ensures NothingBrought(ops) || (Settled(ops) && WriterComes(q, ops, id))
  {
    hide Settled, CopyAfter, ComesTo, IsLast;
    if !NothingBrought(ops) {
      forall i | 0 <= i < |ops| && ops[i].peerID == q && IsLast(ops, ops[i])
        ensures CopyAfter(ops, id).Some? && ComesTo(ops, ops[i], CopyAfter(ops, id).value)
      {
        assert WriterComes(ops[i].peerID, ops, id);
      }
    }
  }

  lemma AgreeingWritersCome(ops: seq<Operation>, id: string)
    requires IssuedInOrder(ops, id) && AllHoldersAgree(ops, id) && Settled(ops) && !NothingBrought(ops)
    ensures forall i | 0 <= i < |ops| :: WriterComes(ops[i].peerID, ops, id)
  {
    CopyReflects(ops, id);
    assert CopyAfter(ops, id).Some?;
    hide CopyAfter, ComesTo, IssuedInOrder, AllHoldersAgree, IsLast, FreshAgree, DeletionsAreStale, SomeFresh;
    forall i | 0 <= i < |ops| && IsLast(ops, ops[i]) ensures ComesTo(ops, ops[i], CopyAfter(ops, id).value) {
      if HasFields(ops[i]) {
        WriteMustCome(ops, id, ops[i]);
      } else {
        DeletionMustCome(ops, id, ops[i]);
      }
    }
  }

  // ---------------------------------------------------------------- in every run

  /** The operations on one document among others. */
  function OnDocument(ops: seq<Operation>, id: string): seq<Operation> {
    if ops == [] then []
    else if Last(ops).documentID == id then OnDocument(Front(ops), id) + [Last(ops)]
    else OnDocument(Front(ops), id)
  }

  lemma OnDocumentOneMore(timeline: seq<Operation>, op: Operation, id: string)
    ensures OnDocument(timeline + [op], id) == OnDocument(timeline, id) + if op.documentID == id then [op] else []
  {
    SnocFront(timeline, op);
  }

  lemma {:induction false} OnDocumentMembers(ops: seq<Operation>, id: string)
    ensures forall op | op in OnDocument(ops, id) :: op in ops && op.documentID == id
  {
    if ops != [] {
      OnDocumentMembers(Front(ops), id);
      FrontLast(ops);
    }
  }

  lemma {:induction false} ReplayOnDocument(q: PeerID, timeline: seq<Operation>, id: string)
    ensures Replay(q, OnDocument(timeline, id), id) == Replay(q, timeline, id)
  {
    if timeline != [] {
      ReplayOnDocument(q, Front(timeline), id);
      FrontLast(timeline);
      ReplayOneMore(q, OnDocument(Front(timeline), id), Last(timeline), id);
    }
  }

  /** Leaving out operations keeps the order of the others. */
  lemma {:induction false} OnDocumentInOrder(q: PeerID, timeline: seq<Operation>, id: string)
    requires OwnInOrder(q, timeline) && HeardBefore(q, timeline)
    ensures OwnInOrder(q, OnDocument(timeline, id)) && HeardBefore(q, OnDocument(timeline, id))
  {
    if timeline != [] {
      var front, last := Front(timeline), Last(timeline);
      var n := |front|;
      assert timeline[n] == last && forall i | 0 <= i < n :: front[i] == timeline[i];
      OnDocumentInOrder(q, front, id);
      OnDocumentMembers(front, id);
      hide MayPrecede;
      if last.documentID == id && last.peerID == q {
        forall i | 0 <= i < |OnDocument(front, id)|
          ensures var op := OnDocument(front, id)[i];
            if op.peerID == q then OwnCounter(op) < OwnCounter(last) else MayPrecede(op, last)
        {
          assert OnDocument(front, id)[i] in front;
          var j :| 0 <= j < n && front[j] == OnDocument(front, id)[i];
          assert timeline[j].peerID == q ==> OwnCounter(timeline[j]) < OwnCounter(timeline[n]);
        }
      }
    }
  }

  /** Own operations that are numbered in order are in order on the timeline. */
  lemma {:induction false} NumberedInOrder(q: PeerID, timeline: seq<Operation>)
    requires forall k | 0 <= k < |From(timeline, q)| :: OwnCounter(From(timeline, q)[k]) == k
    ensures OwnInOrder(q, timeline)
  {
    if timeline != [] {
      var front, last := Front(timeline), Last(timeline);
      var n := |front|;
      assert timeline[n] == last && forall i | 0 <= i < n :: front[i] == timeline[i];
      FromFront(timeline, q);
      assert forall k | 0 <= k < |From(front, q)| :: From(timeline, q)[k] == From(front, q)[k];
      NumberedInOrder(q, front);
      FromMembers(front, q);
      if last.peerID == q {
        forall i | 0 <= i < n && timeline[i].peerID == q ensures OwnCounter(timeline[i]) < OwnCounter(last) {
          assert front[i] in From(front, q);
          var j :| 0 <= j < |From(front, q)| && From(front, q)[j] == front[i];
          assert From(timeline, q)[j] == front[i] && From(timeline, q)[|From(front, q)|] == last;
        }
      }
    }
  }

  lemma FromFront(timeline: seq<Operation>, q: PeerID)
    requires timeline != []
    ensures From(timeline, q) == if Last(timeline).peerID == q then From(Front(timeline), q) + [Last(timeline)] else From(Front(timeline), q)
  {
  }

  /** In every run the operations on a document that a peer holds came to it in a possible way. */
  lemma HeldPossibly(sys: System, q: PeerID, id: string)
    requires Reached(sys) && q in sys.peers
    ensures SameDomains(sys)
    ensures var held := OnDocument(sys.timeline[q], id);
      && About(held, id) && (forall i | 0 <= i < |held| :: held[i].kind != Other)
      && OwnInOrder(q, held) && HeardBefore(q, held)
      && Lookup(sys.peers[q].store, id) == Replay(q, held, id)
  {
    StoreIsReplay(sys, q, id);
    ReplayOnDocument(q, sys.timeline[q], id);
    OwnAreNumbered(sys, q);
    NumberedInOrder(q, sys.timeline[q]);
    OnDocumentInOrder(q, sys.timeline[q], id);
    OnDocumentMembers(sys.timeline[q], id);
    var held := OnDocument(sys.timeline[q], id);
    hide Reached, OnDocument, OwnInOrder, HeardBefore, Replay, Sound, TimelineWell;
    forall i | 0 <= i < |held| ensures Sound(held[i]) && IssuesLive(held[i]) && held[i].documentID == id && held[i].kind != Other {
      assert held[i] in held;
      TimelineIsGenuine(sys, q, held[i]);
    }
  }

  lemma OwnAreNumbered(sys: System, q: PeerID)
    requires Reached(sys) && q in sys.peers
    ensures q in sys.timeline && forall k | 0 <= k < |From(sys.timeline[q], q)| :: OwnCounter(From(sys.timeline[q], q)[k]) == k
  {
    hide Reached, Inv, InClockOrder, Below, From, NotFrom;
    StoreIsReplay(sys, q, "");
    ReachedInv(sys);
    forall k | 0 <= k < |From(sys.timeline[q], q)| ensures OwnCounter(From(sys.timeline[q], q)[k]) == k {
      EventWell(sys, Event(q, k));
    }
  }

  /**
   * In every run, whoever writes: two peers that hold the same operations on a document, own ones and handed ones
   * alike, each any number of times, hold the same document if the condition holds for the operations and both peers.
   */
  lemma HoldersAgree(sys: System, q: PeerID, r: PeerID, id: string)
    requires Reached(sys) && SameDomains(sys) && q in sys.peers && r in sys.peers
    requires SameOperations(OnDocument(sys.timeline[q], id), OnDocument(sys.timeline[r], id))
    requires var ops := OnDocument(sys.timeline[q], id);
      NothingBrought(ops) || (Settled(ops) && WriterComes(q, ops, id) && WriterComes(r, ops, id))
    ensures Lookup(sys.peers[q].store, id) == Lookup(sys.peers[r].store, id) == CopyAfter(OnDocument(sys.timeline[q], id), id)
  {
    var ops := OnDocument(sys.timeline[q], id);
    hide Reached, OnDocument, Settled, WriterComes, NothingBrought, OwnInOrder, HeardBefore, Replay, CopyAfter, About;
    HeldPossibly(sys, q, id);
    HeldPossibly(sys, r, id);
    HolderHasCopy(q, ops, ops, id);
    HolderHasCopy(r, OnDocument(sys.timeline[r], id), ops, id);
  }

  /** For peers that did not write the document, the operations only have to settle. */
  lemma ReadersSettle(sys: System, q: PeerID, r: PeerID, id: string)
    requires Reached(sys) && SameDomains(sys) && q in sys.peers && r in sys.peers
    requires forall op | op in OnDocument(sys.timeline[q], id) :: op.peerID != q && op.peerID != r
    requires SameOperations(OnDocument(sys.timeline[q], id), OnDocument(sys.timeline[r], id))
    requires Settled(OnDocument(sys.timeline[q], id))
    ensures Lookup(sys.peers[q].store, id) == Lookup(sys.peers[r].store, id)
  {
    hide Reached, Settled, OnDocument, CopyAfter;
    HoldersAgree(sys, q, r, id);
  }

  // ---------------------------------------------------------------- a run in which writers disagree

  /** Two peers of a reached state, and what is on their timelines. */
  ghost predicate Between(sys: System, p: PeerID, q: PeerID, atP: seq<Operation>, atQ: seq<Operation>) {
    && Reached(sys) && SameDomains(sys) && p in sys.peers && q in sys.peers
    && sys.timeline[p] == atP && sys.timeline[q] == atQ
  }

  lemma MayStep(sys: System, step: Step)
    requires Reached(sys) && SameDomains(sys) && step.peer in sys.peers
    requires match step
      case LocalInsert(_, fields, _) => HasID(fields)
      case LocalDelete(_, _, _) => true
      case Deliver(q, op, _) => Announce(op) in sys.net && op.peerID != q && Sound(op)
      case _ => false
    ensures Enabled(sys, step) && Reached(Next(sys, step))
  {
    assert Enabled(sys, step) by {
      hide Reached, Filed, Sound;
      ReachedInv(sys);
      StoresAreFiled(sys, step.peer);
    }
    hide Reached, Enabled, Next;
    ReachNext(sys, step);
  }

  lemma InsertStep(sys: System, p: PeerID, q: PeerID, fields: Fields, now: int, atP: seq<Operation>, atQ: seq<Operation>)
    requires Between(sys, p, q, atP, atQ) && p != q && HasID(fields)
    ensures var step := LocalInsert(p, fields, now); var op := InsertOperation(p, sys.peers[p].vector, fields, now);
      && Enabled(sys, step) && Between(Next(sys, step), p, q, atP + [op], atQ)
      && Announce(op) in Next(sys, step).net && Next(sys, step).peers[q] == sys.peers[q]
      && Next(sys, step).peers[p].vector == Bump(sys.peers[p].vector, p)
  {
    hide Reached;
    MayStep(sys, LocalInsert(p, fields, now));
    hide Filed, Prune;
  }

  lemma DeleteStep(sys: System, p: PeerID, q: PeerID, id: string, now: int, atP: seq<Operation>, atQ: seq<Operation>)
    requires Between(sys, p, q, atP, atQ) && p != q
    ensures var step := LocalDelete(q, id, now); var op := DeleteOperation(q, sys.peers[q].vector, id, now);
      && Enabled(sys, step) && Between(Next(sys, step), p, q, atP, atQ + [op]) && Announce(op) in Next(sys, step).net
  {
    hide Reached;
    MayStep(sys, LocalDelete(q, id, now));
    hide Filed, Prune;
  }

  lemma DeliveryEffect(sys: System, q: PeerID, op: Operation, now: int)
    requires Enabled(sys, Deliver(q, op, now))
    ensures var after := Next(sys, Deliver(q, op, now));
      && after.timeline == sys.timeline[q := sys.timeline[q] + [op]]
      && after.peers.Keys == sys.peers.Keys && after.peers[q].vector == Join(sys.peers[q].vector, op.vector)
  {
    hide Filed, Sound, ReceiveIntoStore, Join;
  }

  lemma DeliveryStep(sys: System, p: PeerID, q: PeerID, to: PeerID, op: Operation, now: int, atP: seq<Operation>, atQ: seq<Operation>)
    requires Between(sys, p, q, atP, atQ) && p != q && to in {p, q}
    requires Announce(op) in sys.net && op.peerID != to && Sound(op)
    ensures var step := Deliver(to, op, now);
      && Enabled(sys, step)
      && Between(Next(sys, step), p, q, if to == p then atP + [op] else atP, if to == q then atQ + [op] else atQ)
      && Next(sys, step).peers[to].vector == Join(sys.peers[to].vector, op.vector)
  {
    hide Reached, Sound, Join;
    MayStep(sys, Deliver(to, op, now));
    DeliveryEffect(sys, to, op, now);
    hide Enabled, Next;
  }

  lemma StartBetween(p: PeerID, q: PeerID)
    ensures Between(Init({p, q}), p, q, [], [])
    ensures Init({p, q}).peers[p].vector == map[] && Init({p, q}).peers[q].vector == map[]
  {
    StartIsReached({p, q});
    hide Reached;
  }

  /** One peer inserts, the other takes it in and deletes, the first takes in the deletion: both hold both operations. */
  lemma InsertAndDelete(p: PeerID, q: PeerID, fields: Fields, now: int) returns (sys: System)
    requires p != q && HasID(fields)
    ensures var both := [InsertOperation(p, map[], fields, now)] + [DeleteOperation(q, map[], fields["id"].text, now)];
      Between(sys, p, q, both, both)
  {
    var op, gone := InsertOperation(p, map[], fields, now), DeleteOperation(q, map[], fields["id"].text, now);
    var start := Init({p, q});
    StartBetween(p, q);
    SoundOperations(p, q, fields, now);
    assert Join(map[], op.vector) == map[] && [] + [op] == [op];
    hide *;
    InsertStep(start, p, q, fields, now, [], []);
    var inserted := Next(start, LocalInsert(p, fields, now));
    DeliveryStep(inserted, p, q, q, op, now, [op], []);
    var taken := Next(inserted, Deliver(q, op, now));
    DeleteStep(taken, p, q, fields["id"].text, now, [op], [op]);
    var deleted := Next(taken, LocalDelete(q, fields["id"].text, now));
    DeliveryStep(deleted, p, q, p, gone, now, [op], [op] + [gone]);
    sys := Next(deleted, Deliver(p, gone, now));
  }

  lemma SoundOperations(p: PeerID, q: PeerID, fields: Fields, now: int)
    requires HasID(fields)
    ensures var op, gone := InsertOperation(p, map[], fields, now), DeleteOperation(q, map[], fields["id"].text, now);
      && Sound(op) && op.peerID == p && HasFields(op) && op.data.value.payload == fields && !op.data.value.deleted && Stale(op)
      && Sound(gone) && gone.peerID == q && gone.kind == Delete && Stale(gone)
      && op.documentID == gone.documentID == fields["id"].text
  {
  }

  /** The operations settle, and yet the peers disagree: the inserter keeps the document, the deleter does not. */
  lemma WritersCanDisagree(p: PeerID, q: PeerID, fields: Fields, now: int) returns (sys: System)
    requires p != q && HasID(fields)
    ensures Reached(sys) && SameDomains(sys) && p in sys.peers && q in sys.peers
    ensures var id := fields["id"].text;
      && OnDocument(sys.timeline[p], id) == OnDocument(sys.timeline[q], id) && Settled(OnDocument(sys.timeline[p], id))
      && Lookup(sys.peers[p].store, id) == Some(fields) && Lookup(sys.peers[q].store, id) == None
  {
    sys := InsertAndDelete(p, q, fields, now);
    var id := fields["id"].text;
    var op, gone := InsertOperation(p, map[], fields, now), DeleteOperation(q, map[], id, now);
    SoundOperations(p, q, fields, now);
    assert [op] + [gone] == [op, gone];
    StoreIsReplay(sys, p, id);
    StoreIsReplay(sys, q, id);
    hide Reached, TimelineWell, InsertOperation, DeleteOperation, Stale, Sound;
    TwoReplays(p, q, op, gone, id);
  }

  lemma TwoReplays(p: PeerID, q: PeerID, op: Operation, gone: Operation, id: string)
    requires p != q && op.peerID == p && gone.peerID == q && op.documentID == gone.documentID == id
    requires Sound(op) && Sound(gone) && HasFields(op) && !op.data.value.deleted && gone.kind == Delete && Stale(op) && Stale(gone)
    ensures Replay(p, [op, gone], id) == Some(op.data.value.payload) && Replay(q, [op, gone], id) == None
    ensures OnDocument([op, gone], id) == [op, gone] && Settled([op, gone])
  {
    hide Stale, Sound;
    var both := [op, gone];
    assert Front(both) == [op] && Last(both) == gone && Front([op]) == [] && Last([op]) == op;
    assert Replay(p, [op], id) == Some(op.data.value.payload);
    assert Replay(q, [op], id) == Some(op.data.value.payload);
    assert OnDocument([op], id) == [op];
    assert !SomeFresh(both) && OnePayload(both) && DeletionsAreStale(both);
  }

  // ---------------------------------------------------------------- a reply that can only come later

  /**
   * A write by `q`, with its third own number, and a first write of `p` in reply to it: the reply is within the
   * clock of the write, and yet `q` can only be handed it afterwards.
   */
  lemma ReplyIsLate(last: Operation, reply: Operation, id: string)
    requires Sound(last) && IssuesLive(last) && last.documentID == id && HasFields(last) && last.peerID != reply.peerID
    requires Sound(reply) && IssuesLive(reply) && reply.documentID == id && HasFields(reply)
    requires last.vector == reply.vector == map[last.peerID := 2]
    ensures Leq(reply.vector, last.vector) && IsLate(reply, last) && Fresh(last) && Fresh(reply)
    ensures (forall field | field in last.data.value.payload :: Holds(reply.data.value.payload, field, last.data.value.payload[field]))
      ==> Agreeable([last, reply], id) && CopyAfter([last, reply], id) == Some(reply.data.value.payload)
  {
    var ops := [last, reply];
    var fields, more := last.data.value.payload, reply.data.value.payload;
    assert ops[0] == last && ops[1] == reply;
    assert last.peerID in last.vector && !Leq(last.vector, map[last.peerID := 1]) && !Leq(reply.vector, map[reply.peerID := 1]);
    if forall field | field in fields :: Holds(more, field, fields[field]) {
      assert FreshAgree(ops) && SomeFresh(ops) && DeletionsAreStale(ops) && FreshCover(ops) by { ReplySettles(last, reply); }
      ReplyStands(last, reply, id);
      hide CopyAfter, Sound, Settled;
      forall i | 0 <= i < |ops| && IsLast(ops, ops[i]) ensures ComesTo(ops, ops[i], more) {
        forall field | field in more ensures field in ops[i].data.value.payload || LateFresh(ops, ops[i], field) {
          if i == 0 { assert IsLate(ops[1], ops[0]) && Fresh(ops[1]); }
        }
      }
    }
  }

  lemma ReplySettles(last: Operation, reply: Operation)
    requires Fresh(last) && Fresh(reply)
    requires forall field | field in last.data.value.payload :: Holds(reply.data.value.payload, field, last.data.value.payload[field])
    ensures FreshAgree([last, reply]) && SomeFresh([last, reply]) && DeletionsAreStale([last, reply]) && FreshCover([last, reply])
  {
    var ops := [last, reply];
    assert ops[0] == last && ops[1] == reply;
    hide Stale;
    forall i, field | 0 <= i < |ops| && HasFields(ops[i]) && field in ops[i].data.value.payload ensures Offered(ops, field) {
      assert Fresh(ops[i]);
    }
  }

  lemma ReplyStands(last: Operation, reply: Operation, id: string)
    requires About([last, reply], id) && Fresh(last) && Fresh(reply)
    requires forall field | field in last.data.value.payload :: Holds(reply.data.value.payload, field, last.data.value.payload[field])
    ensures CopyAfter([last, reply], id) == Some(reply.data.value.payload)
  {
    var ops := [last, reply];
    assert ops[0] == last && ops[1] == reply && Front(ops) == [last] && [last][..0] == [];
    assert CopyAfter([], id) == None;
    assert CopyAfter([last], id) == Some(last.data.value.payload);
    assert last.data.value.payload + reply.data.value.payload == reply.data.value.payload;
  }

  lemma SymmetricBetween(sys: System, p: PeerID, q: PeerID, atP: seq<Operation>, atQ: seq<Operation>)
    requires Between(sys, p, q, atP, atQ)
    ensures Between(sys, q, p, atQ, atP)
  {
    hide Reached;
  }

  /** The run: `q` writes elsewhere twice and then the document, `p` takes that in and replies, `q` takes in the reply. */
  lemma WriteAndReply(p: PeerID, q: PeerID, aside: Fields, fields: Fields, more: Fields, now: int) returns (sys: System)
    requires p != q && HasID(aside) && HasID(fields) && HasID(more)
    ensures var last, reply := InsertOperation(q, map[q := 2], fields, now), InsertOperation(p, map[q := 2], more, now);
      Between(sys, p, q, [last] + [reply],
        [InsertOperation(q, map[], aside, now)] + [InsertOperation(q, map[q := 1], aside, now)] + [last] + [reply])
  {
    var first, second := InsertOperation(q, map[], aside, now), InsertOperation(q, map[q := 1], aside, now);
    var last, reply := InsertOperation(q, map[q := 2], fields, now), InsertOperation(p, map[q := 2], more, now);
    var start := Init({p, q});
    StartBetween(p, q);
    SymmetricBetween(start, p, q, [], []);
    assert Bump(map[], q) == map[q := 1] && Bump(map[q := 1], q) == map[q := 2] && Join(map[], map[q := 2]) == map[q := 2];
    assert [] + [first] == [first] && [] + [last] == [last] && last.vector == map[q := 2];
    assert Sound(last) && Sound(reply) && last.peerID == q && reply.peerID == p;
    hide *;
    InsertStep(start, q, p, aside, now, [], []);
    var one := Next(start, LocalInsert(q, aside, now));
    InsertStep(one, q, p, aside, now, [first], []);
    var two := Next(one, LocalInsert(q, aside, now));
    InsertStep(two, q, p, fields, now, [first] + [second], []);
    var three := Next(two, LocalInsert(q, fields, now));
    SymmetricBetween(three, q, p, [first] + [second] + [last], []);
    DeliveryStep(three, p, q, p, last, now, [], [first] + [second] + [last]);
    var four := Next(three, Deliver(p, last, now));
    InsertStep(four, p, q, more, now, [last], [first] + [second] + [last]);
    var five := Next(four, LocalInsert(p, more, now));
    DeliveryStep(five, p, q, q, reply, now, [last] + [reply], [first] + [second] + [last]);
    sys := Next(five, Deliver(q, reply, now));
  }

  /** Both hold what the reply brought, because `q` cannot have been handed it before its last write. */
  lemma ReplyStandsAtBoth(p: PeerID, q: PeerID, aside: Fields, fields: Fields, more: Fields, now: int) returns (sys: System)
    requires p != q && HasID(aside) && HasID(fields) && HasID(more)
    requires aside["id"].text != fields["id"].text == more["id"].text
    requires forall field | field in fields :: Holds(more, field, fields[field])
    ensures Reached(sys) && SameDomains(sys) && p in sys.peers && q in sys.peers
    ensures var id := fields["id"].text;
      var last, reply := InsertOperation(q, map[q := 2], fields, now), InsertOperation(p, map[q := 2], more, now);
      && OnDocument(sys.timeline[p], id) == OnDocument(sys.timeline[q], id) == [last, reply]
      && Leq(reply.vector, last.vector) && IsLate(reply, last)
      && Lookup(sys.peers[p].store, id) == Lookup(sys.peers[q].store, id) == Some(more)
  {
    hide Reached, InsertOperation, Settled, WriterComes, NothingBrought, Agreeable, CopyAfter, OnDocument, About, IsLate, Leq;
    var id := fields["id"].text;
    var last, reply := InsertOperation(q, map[q := 2], fields, now), InsertOperation(p, map[q := 2], more, now);
    sys := WriteAndReply(p, q, aside, fields, more, now);
    InsertsAreAlike(q, map[], aside, now);
    InsertsAreAlike(q, map[q := 1], aside, now);
    InsertsAreAlike(q, map[q := 2], fields, now);
    InsertsAreAlike(p, map[q := 2], more, now);
    ReplyIsLate(last, reply, id);
    EveryPeerComes(p, [last, reply], id);
    EveryPeerComes(q, [last, reply], id);
    OnBoth(InsertOperation(q, map[], aside, now), InsertOperation(q, map[q := 1], aside, now), last, reply, id);
    SameOfItself([last, reply]);
    HoldersAgree(sys, p, q, id);
  }

  lemma SameOfItself(ops: seq<Operation>)
    ensures SameOperations(ops, ops)
  {
  }

  lemma InsertsAreAlike(p: PeerID, v: Counts, fields: Fields, now: int)
    requires HasID(fields)
    ensures var op := InsertOperation(p, v, fields, now);
      && op.documentID == fields["id"].text && op.peerID == p && op.vector == v && op.data.Some? && op.data.value.payload == fields
      && HasFields(op) && Sound(op) && IssuesLive(op)
  {
  }

  lemma OnBoth(first: Operation, second: Operation, last: Operation, reply: Operation, id: string)
    requires first.documentID != id && second.documentID != id && last.documentID == reply.documentID == id
    ensures OnDocument([last] + [reply], id) == [last, reply]
    ensures OnDocument([first] + [second] + [last] + [reply], id) == [last, reply]
  {
    var none: seq<Operation> := [];
    assert OnDocument(none, id) == none && none + [first] == [first] && none + [last] == [last];
    OnDocumentOneMore(none, last, id);
    OnDocumentOneMore([last], reply, id);
    OnDocumentOneMore(none, first, id);
    OnDocumentOneMore([first], second, id);
    OnDocumentOneMore([first] + [second], last, id);
    OnDocumentOneMore([first] + [second] + [last], reply, id);
  }
}
