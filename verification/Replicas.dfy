/**
 * What stored copies converge to. The collection hands operations to the resolver with an invented clock and
 * delivers them in no particular order, so the convergence of the resolver does not carry over to it as it is.
 */
module Replicas {
  import opened Json
  import opened Sequences
  import opened VectorClocks
  import opened Resolver
  import opened Replication
  import opened Causality
  import opened CausalClocks
  import opened Timelines
  import opened SingleOwner
  import opened SyncExactness

  // ---------------------------------------------------------------- many writers, any order

  /** Operations on one document, as peers issue them. */
  predicate About(ops: seq<Operation>, id: string) {
    forall i | 0 <= i < |ops| :: Sound(ops[i]) && IssuesLive(ops[i]) && ops[i].documentID == id
  }

  predicate HasFields(op: Operation) {
    CarriesFields(op) && op.data.Some?
  }

  /** It overlays its fields wherever it arrives; a stale one only counts where there is no copy yet. */
  predicate Fresh(op: Operation) {
    HasFields(op) && !Stale(op)
  }

  /** No field is brought. */
  predicate NothingBrought(ops: seq<Operation>) {
    forall i | 0 <= i < |ops| :: !HasFields(ops[i])
  }

  predicate SomeFresh(ops: seq<Operation>) {
    exists i | 0 <= i < |ops| :: Fresh(ops[i])
  }

  predicate DeletionsAreStale(ops: seq<Operation>) {
    forall i | 0 <= i < |ops| && ops[i].kind == Delete :: Stale(ops[i])
  }

  /** Any two fresh operations say the same about the fields they share. */
  predicate FreshAgree(ops: seq<Operation>) {
    forall i, j | 0 <= i < |ops| && 0 <= j < |ops| && Fresh(ops[i]) && Fresh(ops[j]) ::
      Agree(ops[i].data.value.payload, ops[j].data.value.payload)
  }

  /** Some fresh operation brings the field. */
  predicate Offered(ops: seq<Operation>, field: string) {
    exists i | 0 <= i < |ops| :: Fresh(ops[i]) && field in ops[i].data.value.payload
  }

  /** Fresh operations bring every field that any operation brings. */
  predicate FreshCover(ops: seq<Operation>) {
    forall i, field | 0 <= i < |ops| && HasFields(ops[i]) && field in ops[i].data.value.payload :: Offered(ops, field)
  }

  predicate OnePayload(ops: seq<Operation>) {
    forall i, j | 0 <= i < |ops| && 0 <= j < |ops| && HasFields(ops[i]) && HasFields(ops[j]) ::
      ops[i].data.value.payload == ops[j].data.value.payload
  }

  /**
   * The condition: nothing is brought at all; or every deletion is stale, fresh operations agree, and either
   * fresh ones bring all the fields, or none is fresh and all bring one payload.
   */
  predicate Settled(ops: seq<Operation>) {
    || NothingBrought(ops)
    || (DeletionsAreStale(ops) && FreshAgree(ops) && if SomeFresh(ops) then FreshCover(ops) else OnePayload(ops))
  }

  /** The same operations, in any order and each any number of times. */
  ghost predicate SameOperations(ops: seq<Operation>, ops': seq<Operation>) {
    forall op :: op in ops <==> op in ops'
  }

  /** However they arrive, also repeatedly, the same copy is left. */
  ghost predicate AnyDelivery(ops: seq<Operation>, id: string) {
    forall ops': seq<Operation> | SameOperations(ops, ops') :: CopyAfter(ops', id) == CopyAfter(ops, id)
  }

  /** Every order of arrival leaves the same copy. */
  ghost predicate AnyOrder(ops: seq<Operation>, id: string) {
    forall ops': seq<Operation> | multiset(ops') == multiset(ops) :: CopyAfter(ops', id) == CopyAfter(ops, id)
  }

  predicate Holds(m: Fields, field: string, v: Value) {
    field in m && m[field] == v
  }

  // ---------------------------------------------------------------- what a copy can hold

  lemma {:induction false} NothingLeft(ops: seq<Operation>, id: string)
    requires About(ops, id) && NothingBrought(ops)
    ensures CopyAfter(ops, id) == None
  {
    if ops != [] {
      NothingLeft(Front(ops), id);
    }
  }

  /** The values fresh operations brought, all of them, and no field that was not brought. */
  ghost predicate Reflects(ops: seq<Operation>, copy: Option<Fields>) {
    && (copy.Some? <==> !NothingBrought(ops))
    && (forall i, field | copy.Some? && 0 <= i < |ops| && Fresh(ops[i]) && field in ops[i].data.value.payload ::
          Holds(copy.value, field, ops[i].data.value.payload[field]))
    && (forall field | copy.Some? && field in copy.value :: Brought(ops, field))
  }

  predicate Brought(ops: seq<Operation>, field: string) {
    exists i | 0 <= i < |ops| :: HasFields(ops[i]) && field in ops[i].data.value.payload
  }

  lemma ReflectsOneMore(ops: seq<Operation>, op: Operation, copy: Option<Fields>)
    requires Reflects(ops, copy) && Sound(op) && IssuesLive(op)
    requires DeletionsAreStale(ops + [op]) && FreshAgree(ops + [op])
    ensures Reflects(ops + [op], RemoteEffect(copy, op))
  {
    var all, copy' := ops + [op], RemoteEffect(copy, op);
    assert all[|ops|] == op && forall i | 0 <= i < |ops| :: all[i] == ops[i];
    hide Stale, Sound;
    forall i, field | copy'.Some? && 0 <= i < |all| && Fresh(all[i]) && field in all[i].data.value.payload
      ensures Holds(copy'.value, field, all[i].data.value.payload[field])
    {
      if i < |ops| {
        assert copy.Some?;
        assert Holds(copy.value, field, ops[i].data.value.payload[field]);
        assert Fresh(op) ==> Agree(all[i].data.value.payload, all[|ops|].data.value.payload);
      }
    }
    forall field | copy'.Some? && field in copy'.value ensures Brought(all, field) {
      if copy.Some? && field in copy.value {
        assert Brought(ops, field);
        var i :| 0 <= i < |ops| && HasFields(ops[i]) && field in ops[i].data.value.payload;
        assert all[i] == ops[i];
      }
    }
    if copy.Some? {
      var i :| 0 <= i < |ops| && HasFields(ops[i]);
      assert HasFields(all[i]);
    }
  }

  lemma {:induction false} CopyReflects(ops: seq<Operation>, id: string)
    requires About(ops, id) && DeletionsAreStale(ops) && FreshAgree(ops)
    ensures Reflects(ops, CopyAfter(ops, id))
  {
    if ops != [] {
      var front, last := Front(ops), Last(ops);
      FrontLast(ops);
      assert forall i | 0 <= i < |front| :: ops[i] == front[i];
      CopyReflects(front, id);
      ReflectsOneMore(front, last, CopyAfter(front, id));
    }
  }

  /** Where fresh operations bring all the fields, the copy is exactly the union of what they brought. */
  lemma CopyIsUnion(ops: seq<Operation>, id: string, field: string, v: Value)
    requires About(ops, id) && DeletionsAreStale(ops) && FreshAgree(ops) && SomeFresh(ops) && FreshCover(ops)
    ensures CopyAfter(ops, id).Some?
    ensures Holds(CopyAfter(ops, id).value, field, v)
       <==> exists i | 0 <= i < |ops| :: Fresh(ops[i]) && Holds(ops[i].data.value.payload, field, v)
  {
    CopyReflects(ops, id);
    hide CopyAfter;
    var copy := CopyAfter(ops, id);
    if Holds(copy.value, field, v) {
      assert Brought(ops, field);
      assert Offered(ops, field);
      var i :| 0 <= i < |ops| && Fresh(ops[i]) && field in ops[i].data.value.payload;
      assert Holds(copy.value, field, ops[i].data.value.payload[field]);
    }
  }

  /** Where nothing fresh arrives, the first payload stays. */
  lemma {:induction false} FirstPayloadStays(ops: seq<Operation>, id: string, fields: Fields)
    requires About(ops, id) && DeletionsAreStale(ops) && !SomeFresh(ops)
    requires forall i | 0 <= i < |ops| && HasFields(ops[i]) :: ops[i].data.value.payload == fields
    ensures CopyAfter(ops, id) == if NothingBrought(ops) then None else Some(fields)
  {
    if ops != [] {
      var front, last := Front(ops), Last(ops);
      assert forall i | 0 <= i < |front| :: ops[i] == front[i];
      FirstPayloadStays(front, id, fields);
      if !NothingBrought(front) {
        var i :| 0 <= i < |front| && HasFields(front[i]);
        assert HasFields(ops[i]);
      }
      assert HasFields(last) ==> Stale(last);
    }
  }

  // ---------------------------------------------------------------- settled operations

  lemma SameMembers(ops: seq<Operation>, ops': seq<Operation>, i: nat) returns (j: nat)
    requires SameOperations(ops, ops') && i < |ops'|
    ensures j < |ops| && ops[j] == ops'[i]
  {
    assert ops'[i] in ops;
    j :| 0 <= j < |ops| && ops[j] == ops'[i];
  }

  lemma WithinOf(ops: seq<Operation>, ops': seq<Operation>)
    requires multiset(ops) == multiset(ops')
    ensures SameOperations(ops, ops') && SameOperations(ops', ops)
  {
    forall op ensures op in ops <==> op in ops' {
      assert op in multiset(ops) <==> op in multiset(ops');
    }
  }

  lemma Among(ops: seq<Operation>, ops': seq<Operation>)
    requires SameOperations(ops, ops')
    ensures forall i | 0 <= i < |ops'| :: ops'[i] in ops
  {
  }

  /** The condition does not depend on the order, nor on repetitions. */
  lemma SettledOfReordered(ops: seq<Operation>, ops': seq<Operation>, id: string)
    requires SameOperations(ops, ops') && About(ops, id)
    ensures About(ops', id)
    ensures NothingBrought(ops) ==> NothingBrought(ops')
    ensures DeletionsAreStale(ops) ==> DeletionsAreStale(ops')
    ensures FreshAgree(ops) ==> FreshAgree(ops')
    ensures OnePayload(ops) ==> OnePayload(ops')
    ensures SomeFresh(ops) ==> SomeFresh(ops')
    ensures FreshCover(ops) ==> FreshCover(ops')
  {
    hide Sound, Stale;
    Among(ops, ops');
    if SomeFresh(ops) {
      var i :| 0 <= i < |ops| && Fresh(ops[i]);
      var j := SameMembers(ops', ops, i);
    }
    if FreshCover(ops) {
      forall i, field | 0 <= i < |ops'| && HasFields(ops'[i]) && field in ops'[i].data.value.payload ensures Offered(ops', field) {
        var j := SameMembers(ops, ops', i);
        OfferedOfReordered(ops', ops, field);
      }
    }
  }

  lemma SettledHoweverDelivered(ops: seq<Operation>, ops': seq<Operation>, id: string)
    requires About(ops, id) && Settled(ops) && SameOperations(ops, ops')
    ensures CopyAfter(ops', id) == CopyAfter(ops, id)
  {
    SettledOfReordered(ops, ops', id);
    SettledOfReordered(ops', ops, id);
    Among(ops, ops');
    hide CopyAfter, About, DeletionsAreStale, FreshAgree, FreshCover, SomeFresh;
    if NothingBrought(ops) {
      NothingLeft(ops, id);
      NothingLeft(ops', id);
    } else if SomeFresh(ops) {
      SameUnion(ops, ops', id);
    } else {
      var i :| 0 <= i < |ops| && HasFields(ops[i]);
      FirstPayloadStays(ops, id, ops[i].data.value.payload);
      FirstPayloadStays(ops', id, ops[i].data.value.payload);
    }
  }

  lemma SameUnion(ops: seq<Operation>, ops': seq<Operation>, id: string)
    requires SameOperations(ops, ops')
    requires About(ops, id) && DeletionsAreStale(ops) && FreshAgree(ops) && SomeFresh(ops) && FreshCover(ops)
    requires About(ops', id) && DeletionsAreStale(ops') && FreshAgree(ops') && SomeFresh(ops') && FreshCover(ops')
    ensures CopyAfter(ops', id) == CopyAfter(ops, id)
  {
    forall field: string, v: Value
      ensures CopyAfter(ops, id).Some? && CopyAfter(ops', id).Some?
      ensures Holds(CopyAfter(ops, id).value, field, v) <==> Holds(CopyAfter(ops', id).value, field, v)
    {
      CopyIsUnion(ops, id, field, v);
      CopyIsUnion(ops', id, field, v);
      hide CopyAfter, About, DeletionsAreStale, FreshAgree, FreshCover, SomeFresh, Fresh;
      if i :| 0 <= i < |ops| && Fresh(ops[i]) && Holds(ops[i].data.value.payload, field, v) {
        var j := SameMembers(ops', ops, i);
      }
      if i :| 0 <= i < |ops'| && Fresh(ops'[i]) && Holds(ops'[i].data.value.payload, field, v) {
        var j := SameMembers(ops, ops', i);
      }
    }
    CopyIsUnion(ops, id, "", Null);
    CopyIsUnion(ops', id, "", Null);
    hide *;
    SameMap(CopyAfter(ops, id).value, CopyAfter(ops', id).value);
  }

  lemma SameMap(a: Fields, b: Fields)
    requires forall field: string, v: Value :: Holds(a, field, v) <==> Holds(b, field, v)
    ensures a == b
  {
    forall field | field in a ensures field in b && a[field] == b[field] {
      assert Holds(a, field, a[field]);
    }
    forall field | field in b ensures field in a {
      assert Holds(b, field, b[field]);
    }
  }

  // ---------------------------------------------------------------- and only those

  /** Any operation can arrive last, and any can arrive first. */
  lemma ArrivesLast(ops: seq<Operation>, id: string, i: nat) returns (rest: seq<Operation>)
    requires About(ops, id) && i < |ops|
    ensures multiset(rest + [ops[i]]) == multiset(ops)
    ensures CopyAfter(rest + [ops[i]], id) == RemoteEffect(CopyAfter(rest, id), ops[i])
  {
    rest := ops[..i] + ops[i + 1..];
    assert ops == ops[..i] + [ops[i]] + ops[i + 1..];
    AfterOneMore(rest, ops[i], id);
  }

  lemma ArrivesFirst(ops: seq<Operation>, id: string, i: nat) returns (rest: seq<Operation>)
    requires About(ops, id) && i < |ops|
    ensures multiset([ops[i]] + rest) == multiset(ops) && SameOperations(ops, [ops[i]] + rest)
    ensures About([ops[i]] + rest, id)
  {
    rest := ops[..i] + ops[i + 1..];
    assert ops == ops[..i] + [ops[i]] + ops[i + 1..];
    WithinOf(ops, [ops[i]] + rest);
    SettledOfReordered(ops, [ops[i]] + rest, id);
  }

  /** The fields of whatever arrives first stay, unless something fresh deletes them. */
  lemma {:induction false} FirstFieldsStay(first: Operation, rest: seq<Operation>, id: string)
    requires About([first] + rest, id) && DeletionsAreStale([first] + rest) && HasFields(first)
    ensures CopyAfter([first] + rest, id).Some?
    ensures first.data.value.payload.Keys <= CopyAfter([first] + rest, id).value.Keys
  {
    var ops := [first] + rest;
    assert ops[0] == first;
    if rest == [] {
      assert ops[..0] == [];
      assert CopyAfter([], id) == None;
    } else {
      assert Front(ops) == [first] + Front(rest) && Last(ops) == Last(rest);
      assert forall i | 0 <= i < |ops| - 1 :: Front(ops)[i] == ops[i];
      FirstFieldsStay(first, Front(rest), id);
    }
  }

  /** After a fresh operation only fresh ones add fields. */
  lemma {:induction false} OnlyOfferedFields(first: Operation, rest: seq<Operation>, id: string)
    requires About([first] + rest, id) && DeletionsAreStale([first] + rest) && Fresh(first)
    ensures CopyAfter([first] + rest, id).Some?
    ensures forall field | field in CopyAfter([first] + rest, id).value :: Offered([first] + rest, field)
  {
    var ops := [first] + rest;
    assert ops[0] == first;
    if rest == [] {
      assert ops[..0] == [];
      assert CopyAfter([], id) == None;
    } else {
      var front := [first] + Front(rest);
      assert Front(ops) == front && Last(ops) == Last(rest);
      assert forall i | 0 <= i < |front| :: front[i] == ops[i];
      OnlyOfferedFields(first, Front(rest), id);
      forall field | field in CopyAfter(ops, id).value ensures Offered(ops, field) {
        if field in CopyAfter(front, id).value {
          assert Offered(front, field);
          var i :| 0 <= i < |front| && Fresh(front[i]) && field in front[i].data.value.payload;
          assert ops[i] == front[i];
        } else {
          assert ops[|ops| - 1] == Last(rest);
        }
      }
    }
  }

  /** Where nothing fresh arrives, what arrives first decides. */
  lemma {:induction false} FirstDecides(first: Operation, rest: seq<Operation>, id: string)
    requires About([first] + rest, id) && DeletionsAreStale([first] + rest) && HasFields(first) && !SomeFresh([first] + rest)
    ensures CopyAfter([first] + rest, id) == Some(first.data.value.payload)
  {
    var ops := [first] + rest;
    assert ops[0] == first;
    if rest == [] {
      assert ops[..0] == [];
      assert CopyAfter([], id) == None;
    } else {
      assert Front(ops) == [first] + Front(rest) && Last(ops) == Last(rest);
      assert forall i | 0 <= i < |ops| - 1 :: Front(ops)[i] == ops[i];
      FirstDecides(first, Front(rest), id);
      assert !Fresh(ops[|ops| - 1]);
    }
  }

  lemma InThisOrder(ops: seq<Operation>, ops': seq<Operation>, id: string)
    requires AnyOrder(ops, id) && multiset(ops') == multiset(ops)
    ensures CopyAfter(ops', id) == CopyAfter(ops, id)
  {
    hide CopyAfter;
  }

  lemma NoFreshDeletion(ops: seq<Operation>, id: string, i: nat, j: nat)
    requires About(ops, id) && AnyOrder(ops, id) && i < |ops| && j < |ops|
    requires HasFields(ops[i]) && ops[j].kind == Delete
    ensures Stale(ops[j])
  {
    var endI := ArrivesLast(ops, id, i);
    var endJ := ArrivesLast(ops, id, j);
    InThisOrder(ops, endI + [ops[i]], id);
    InThisOrder(ops, endJ + [ops[j]], id);
    hide CopyAfter, Stale, AnyOrder, About;
  }

  /** Where all orders agree, every fresh operation's values stand. */
  lemma FreshStands(ops: seq<Operation>, id: string, i: nat)
    requires About(ops, id) && AnyOrder(ops, id) && i < |ops| && Fresh(ops[i])
    ensures CopyAfter(ops, id).Some?
    ensures forall field | field in ops[i].data.value.payload ::
      Holds(CopyAfter(ops, id).value, field, ops[i].data.value.payload[field])
  {
    var rest := ArrivesLast(ops, id, i);
    assert CopyAfter(rest + [ops[i]], id) == CopyAfter(ops, id);
    hide CopyAfter, Stale;
  }

  lemma FreshMustCover(ops: seq<Operation>, id: string, i: nat, j: nat)
    requires About(ops, id) && AnyOrder(ops, id) && DeletionsAreStale(ops)
    requires i < |ops| && HasFields(ops[i]) && j < |ops| && Fresh(ops[j])
    ensures forall field | field in ops[i].data.value.payload :: Offered(ops, field)
  {
    var afterI := ArrivesFirst(ops, id, i);
    var afterJ := ArrivesFirst(ops, id, j);
    SettledOfReordered(ops, [ops[i]] + afterI, id);
    SettledOfReordered(ops, [ops[j]] + afterJ, id);
    FirstFieldsStay(ops[i], afterI, id);
    OnlyOfferedFields(ops[j], afterJ, id);
    InThisOrder(ops, [ops[i]] + afterI, id);
    InThisOrder(ops, [ops[j]] + afterJ, id);
    hide *;
    forall field | field in ops[i].data.value.payload ensures Offered(ops, field) {
      OfferedOfReordered(ops, [ops[j]] + afterJ, field);
    }
  }

  lemma OfferedOfReordered(ops: seq<Operation>, ops': seq<Operation>, field: string)
    requires SameOperations(ops, ops') && Offered(ops', field)
    ensures Offered(ops, field)
  {
    var k :| 0 <= k < |ops'| && Fresh(ops'[k]) && field in ops'[k].data.value.payload;
    var l := SameMembers(ops, ops', k);
  }

  lemma StaleMustMatch(ops: seq<Operation>, id: string, i: nat)
    requires About(ops, id) && AnyOrder(ops, id) && DeletionsAreStale(ops) && !SomeFresh(ops)
    requires i < |ops| && HasFields(ops[i])
    ensures CopyAfter(ops, id) == Some(ops[i].data.value.payload)
  {
    var rest := ArrivesFirst(ops, id, i);
    SettledOfReordered(ops, [ops[i]] + rest, id);
    SettledOfReordered([ops[i]] + rest, ops, id);
    FirstDecides(ops[i], rest, id);
    assert CopyAfter([ops[i]] + rest, id) == CopyAfter(ops, id);
  }

  /**
   * A document written by many peers, whatever the operations: all orders of arrival leave the same copy
   * exactly when they are settled. A deletion settles with an insert only when it is stale, where the resolver
   * on its own would let every deletion win. And then repetitions do not matter either.
   */
  lemma AnyOrderIff(ops: seq<Operation>, id: string)
    requires About(ops, id)
    ensures AnyOrder(ops, id) <==> Settled(ops)
    ensures AnyDelivery(ops, id) <==> Settled(ops)
  {
    hide Settled, CopyAfter, About;
    if Settled(ops) {
      forall ops': seq<Operation> | SameOperations(ops, ops') ensures CopyAfter(ops', id) == CopyAfter(ops, id) {
        SettledHoweverDelivered(ops, ops', id);
      }
    }
    forall ops': seq<Operation> | multiset(ops') == multiset(ops) ensures SameOperations(ops, ops') {
      WithinOf(ops, ops');
    }
    if AnyOrder(ops, id) {
      OrderFreeIsSettled(ops, id);
    }
  }

  /** Two stale writes of different fields, as two peers' first ones are: whichever arrives first stays. */
  lemma FirstWritesCollide(a: Operation, b: Operation, id: string)
    requires About([a, b], id) && HasFields(a) && HasFields(b) && Stale(a) && Stale(b)
    ensures CopyAfter([a, b], id) == Some(a.data.value.payload) && CopyAfter([b, a], id) == Some(b.data.value.payload)
  {
    assert [a, b][0] == a && [a, b][1] == b && [b, a][0] == b && [b, a][1] == a;
    assert About([b, a], id);
    FirstDecides(a, [b], id);
    FirstDecides(b, [a], id);
    assert [a] + [b] == [a, b] && [b] + [a] == [b, a];
  }

  lemma OrderFreeIsSettled(ops: seq<Operation>, id: string)
    requires About(ops, id) && AnyOrder(ops, id)
    ensures Settled(ops)
  {
    hide AnyOrder, CopyAfter, Stale, About;
    if NothingBrought(ops) {
      return;
    }
    var i :| 0 <= i < |ops| && HasFields(ops[i]);
    forall j | 0 <= j < |ops| && ops[j].kind == Delete ensures Stale(ops[j]) {
      NoFreshDeletion(ops, id, i, j);
    }
    forall j, k | 0 <= j < |ops| && 0 <= k < |ops| && Fresh(ops[j]) && Fresh(ops[k])
      ensures Agree(ops[j].data.value.payload, ops[k].data.value.payload)
    {
      FreshStands(ops, id, j);
      FreshStands(ops, id, k);
    }
    if SomeFresh(ops) {
      var j :| 0 <= j < |ops| && Fresh(ops[j]);
      forall k, field | 0 <= k < |ops| && HasFields(ops[k]) && field in ops[k].data.value.payload ensures Offered(ops, field) {
        FreshMustCover(ops, id, k, j);
      }
    } else {
      forall j, k | 0 <= j < |ops| && 0 <= k < |ops| && HasFields(ops[j]) && HasFields(ops[k])
        ensures ops[j].data.value.payload == ops[k].data.value.payload
      {
        StaleMustMatch(ops, id, j);
        StaleMustMatch(ops, id, k);
      }
    }
  }

  // ---------------------------------------------------------------- replies

  /**
   * A stored copy has the invented clock instead of its own, so here it depends on the reply alone: every store
   * that has a copy stays as it is exactly when the reply's clock counts no one else and at most one operation
   * of the replier, or the reply brings nothing but the id.
   */
  lemma CopiesIgnoreReplyIff(sys: System, q: PeerID, op: Operation, fields: Fields, now: int, later: int)
    requires CanReply(sys, q, op, fields, now)
    ensures var reply := ReplyOperation(sys, q, op, fields, now);
      Sound(reply) &&
      ((forall store: Store | Filed(store) && reply.documentID in store :: ReceiveIntoStore(store, reply, later) == store)
       <==> Leq(Join(sys.peers[q].vector, op.vector), map[q := 1]) || fields.Keys == {"id"})
  {
    var reply := ReplyOperation(sys, q, op, fields, now);
    if Stale(reply) || fields.Keys == {"id"} {
      forall store: Store | Filed(store) && reply.documentID in store ensures ReceiveIntoStore(store, reply, later) == store {
        CopyIgnores(store, reply, later);
      }
    } else {
      var field :| field in fields && field != "id";
      CopyTakes(reply, field, later);
    }
  }

  lemma CopyIgnores(store: Store, reply: Operation, later: int)
    requires Sound(reply) && HasFields(reply) && Filed(store) && reply.documentID in store
    requires Stale(reply) || reply.data.value.payload.Keys == {"id"}
    ensures ReceiveIntoStore(store, reply, later) == store
  {
    var after, copy := ReceiveIntoStore(store, reply, later), store[reply.documentID];
    assert reply.data.value.payload.Keys == {"id"} ==> copy + reply.data.value.payload == copy;
    forall id: string ensures Lookup(after, id) == Lookup(store, id) {
      ReceiveTouchesOneDocument(store, reply, later, id);
    }
    hide ReceiveIntoStore, Stale;
    SameStore(after, store);
  }

  lemma SameStore(a: Store, b: Store)
    requires forall id: string :: Lookup(a, id) == Lookup(b, id)
    ensures a == b
  {
    forall id: string ensures id in a <==> id in b {
      assert Lookup(a, id) == Lookup(b, id);
    }
    forall id | id in a ensures a[id] == b[id] {
      assert Lookup(a, id) == Lookup(b, id);
    }
  }

  lemma CopyTakes(reply: Operation, field: string, later: int)
    requires Sound(reply) && HasFields(reply) && !Stale(reply)
    requires field in reply.data.value.payload && field != "id"
    ensures exists store: Store :: Filed(store) && reply.documentID in store && ReceiveIntoStore(store, reply, later) != store
  {
    var fields := reply.data.value.payload;
    var copy: Fields := map["id" := fields["id"], field := if fields[field] == Null then Bool(true) else Null];
    var store: Store := map[reply.documentID := copy];
    ReceiveTouchesOneDocument(store, reply, later, reply.documentID);
    assert (copy + fields)[field] != copy[field];
    assert Filed(store);
  }

  // ---------------------------------------------------------------- announcements

  /** Every operation issued was announced. */
  ghost predicate AllAnnounced(issued: Record, net: set<Message>) {
    forall p, k: nat | p in issued && k < |issued[p]| :: Announce(issued[p][k].op) in net
  }

  lemma IssueAnnounces(sys: System, p: PeerID, s: PeerState, op: Operation)
    requires SameDomains(sys) && p in sys.peers && AllAnnounced(sys.issued, sys.net)
    ensures AllAnnounced(Issue(sys, p, s, op).issued, Issue(sys, p, s, op).net)
  {
    var after := Issue(sys, p, s, op);
    forall q, k: nat | q in after.issued && k < |after.issued[q]| ensures Announce(after.issued[q][k].op) in after.net {
      assert k < |sys.issued[q]| ==> after.issued[q][k] == sys.issued[q][k];
    }
  }

  lemma {:induction false} HandAllSends(sys: System, p: PeerID, ops: seq<Operation>, now: int)
    requires SameDomains(sys) && p in sys.peers && AllSound(ops) && Filed(sys.peers[p].store)
    ensures HandAll(sys, p, ops, now).net == sys.net && HandAll(sys, p, ops, now).issued == sys.issued
  {
    if ops != [] {
      HandAllSends(sys, p, ops[..|ops| - 1], now);
    }
  }

  lemma StepAnnounces(sys: System, step: Step)
    requires Enabled(sys, step) && AllAnnounced(sys.issued, sys.net)
    ensures AllAnnounced(Next(sys, step).issued, Next(sys, step).net)
  {
    var p, s := step.peer, sys.peers[step.peer];
    hide Filed, Receive, ReceiveAll, Sound;
    match step
    case LocalInsert(_, fields, now) => IssueAnnounces(sys, p, InsertLocally(s, p, fields, now), InsertOperation(p, s.vector, fields, now));
    case LocalDelete(_, id, now) => IssueAnnounces(sys, p, DeleteLocally(s, p, id, now), DeleteOperation(p, s.vector, id, now));
    case FinishSync(_, ops, now) => HandAllSends(sys, p, ops, now);
    case _ =>
  }

  lemma {:induction false} RunAnnounces(names: set<PeerID>, steps: seq<Step>)
    requires ValidRun(Init(names), steps)
    ensures AllAnnounced(StateAfter(Init(names), steps).issued, StateAfter(Init(names), steps).net)
  {
    if steps != [] {
      hide AllAnnounced;
      RunAnnounces(names, steps[..|steps| - 1]);
      StepAnnounces(StateAfter(Init(names), steps[..|steps| - 1]), steps[|steps| - 1]);
    }
  }

  // ---------------------------------------------------------------- catching up

  /** One exchange: the timer ends a request that is still open, then request, answer, and taking the answer in. */
  function Exchange(sys: System, q: PeerID, p: PeerID, now: int): seq<Step>
    requires q in sys.peers && p in sys.peers
  {
    var v := sys.peers[q].vector;
    Question(sys, q, p) + [FinishSync(q, Missing(sys.peers[p].log, v), now)]
  }

  function Question(sys: System, q: PeerID, p: PeerID): seq<Step>
    requires q in sys.peers
  {
    [SyncTimeout(q), RequestSync(q), AnswerSync(p, q, sys.peers[q].vector)]
  }

  /** The state when the answer is on its way: nothing but messages and the flag has changed. */
  function Answered(sys: System, q: PeerID, p: PeerID): System
    requires q in sys.peers && p in sys.peers
  {
    var v := sys.peers[q].vector;
    sys.(peers := sys.peers[q := sys.peers[q].(syncing := true)],
         net := sys.net + {Request(q, v)} + {Response(q, Missing(sys.peers[p].log, v))})
  }

  lemma Regroup<T>(a: seq<T>, b: seq<T>, x: T)
    ensures a + b + [x] == a + (b + [x])
  {
  }

  lemma RunTo(start: System, steps: seq<Step>, before: System, step: Step, after: System)
    requires ValidRun(start, steps) && StateAfter(start, steps) == before
    requires Enabled(before, step) && Next(before, step) == after
    ensures ValidRun(start, steps + [step]) && StateAfter(start, steps + [step]) == after
  {
    RunOneMore(start, steps, step);
    hide *;
  }

  lemma EmptyRun(sys: System)
    ensures ValidRun(sys, []) && StateAfter(sys, []) == sys
  {
  }

  lemma OneByOne<T>(a: T, b: T, c: T)
    ensures [] + [a] + [b] + [c] == [a, b, c]
  {
  }

  lemma QuestionAndAnswer(sys: System, q: PeerID, p: PeerID)
    requires SameDomains(sys) && q in sys.peers && p in sys.peers && q != p
    requires Filed(sys.peers[q].store) && Filed(sys.peers[p].store)
    ensures ValidRun(sys, Question(sys, q, p)) && StateAfter(sys, Question(sys, q, p)) == Answered(sys, q, p)
  {
    var a, b, c := SyncTimeout(q), RequestSync(q), AnswerSync(p, q, sys.peers[q].vector);
    OneByOne(a, b, c);
    assert Question(sys, q, p) == [a, b, c];
    QuestionIsEnabled(sys, q, p);
    EmptyRun(sys);
    hide *;
    RunTo(sys, [], sys, a, Next(sys, a));
    RunTo(sys, [] + [a], Next(sys, a), b, Next(Next(sys, a), b));
    RunTo(sys, [] + [a] + [b], Next(Next(sys, a), b), c, Answered(sys, q, p));
  }

  lemma QuestionIsEnabled(sys: System, q: PeerID, p: PeerID)
    requires SameDomains(sys) && q in sys.peers && p in sys.peers && q != p
    requires Filed(sys.peers[q].store) && Filed(sys.peers[p].store)
    ensures Enabled(sys, SyncTimeout(q))
    ensures var quiet := Next(sys, SyncTimeout(q));
      && Enabled(quiet, RequestSync(q))
      && Enabled(Next(quiet, RequestSync(q)), AnswerSync(p, q, sys.peers[q].vector))
      && Next(Next(quiet, RequestSync(q)), AnswerSync(p, q, sys.peers[q].vector)) == Answered(sys, q, p)
  {
    hide Filed, Missing, Issue, Hand, HandAll, ReceiveAll, Sound;
    var quiet := Next(sys, SyncTimeout(q));
    assert Next(quiet, RequestSync(q)).peers == sys.peers[q := sys.peers[q].(syncing := true)];
  }

  lemma {:induction false} HandAllReceives(sys: System, q: PeerID, ops: seq<Operation>, now: int)
    requires SameDomains(sys) && q in sys.peers && AllSound(ops) && Filed(sys.peers[q].store)
    ensures HandAll(sys, q, ops, now).received[q] == sys.received[q] + ops
  {
    if ops == [] {
      assert sys.received[q] + ops == sys.received[q];
    } else {
      HandAllReceives(sys, q, ops[..|ops| - 1], now);
      hide Sound, Filed, ReceiveAll, Receive, CausesOf;
      TakeOneMore(sys.received[q], ops);
    }
  }

  lemma TakeOneMore<T>(before: seq<T>, ops: seq<T>)
    requires ops != []
    ensures before + ops[..|ops| - 1] + [ops[|ops| - 1]] == before + ops
  {
    assert ops[..|ops| - 1] + [ops[|ops| - 1]] == ops;
  }

  /** The exchange is a run, and it hands the requester the answer to its clock and changes nothing else of others. */
  lemma ExchangeIsRun(sys: System, q: PeerID, p: PeerID, now: int)
    requires Reached(sys) && q in sys.peers && p in sys.peers && q != p
    ensures SameDomains(sys) && ValidRun(sys, Exchange(sys, q, p, now))
    ensures var after := StateAfter(sys, Exchange(sys, q, p, now));
      && SameDomains(after) && after.issued == sys.issued && after.peers.Keys == sys.peers.Keys && after.peers[p] == sys.peers[p]
      && after.received[q] == sys.received[q] + Missing(sys.peers[p].log, sys.peers[q].vector)
  {
    hide Reached, Inv, Filed, Missing, HandAll, ReceiveAll, ValidRun, StateAfter, Question;
    ReachedInv(sys);
    InvDomains(sys);
    StoresAreFiled(sys, q);
    StoresAreFiled(sys, p);
    var answer := Missing(sys.peers[p].log, sys.peers[q].vector);
    AnswerIsSound(sys, p, sys.peers[q].vector);
    QuestionAndAnswer(sys, q, p);
    RunOneMore(sys, Question(sys, q, p), FinishSync(q, answer, now));
    HandAllReceives(Answered(sys, q, p), q, answer, now);
    HandAllSends(Answered(sys, q, p), q, answer, now);
    HandAllOthers(Answered(sys, q, p), q, answer, now, p);
  }

  lemma StoresAreFiled(sys: System, q: PeerID)
    requires Inv(sys) && q in sys.peers
    ensures Filed(sys.peers[q].store)
  {
    assert PeerWell(sys.issued, q, sys.peers[q], sys.history[q], sys.received[q]);
  }

  lemma {:induction false} FromAppended(received: seq<Operation>, ops: seq<Operation>, p: PeerID)
    requires forall i | 0 <= i < |ops| :: ops[i].peerID == p
    ensures From(received + ops, p) == From(received, p) + ops
  {
    if ops == [] {
      assert received + ops == received;
    } else {
      FromAppended(received, Front(ops), p);
      FrontLast(ops);
      assert Last(ops).peerID == p;
      hide From;
      FromOneMore(received + Front(ops), Last(ops), p);
      Regroup(received, Front(ops), Last(ops));
      Regroup(From(received, p), Front(ops), Last(ops));
    }
  }

  /** After the exchange the requester was handed, from the responder, what it was handed before and the answer. */
  lemma ExchangeHands(sys: System, q: PeerID, p: PeerID, now: int)
    requires Reached(sys) && q in sys.peers && p in sys.peers && q != p
    ensures SameDomains(sys) && ValidRun(sys, Exchange(sys, q, p, now))
    ensures var after := StateAfter(sys, Exchange(sys, q, p, now));
      SameDomains(after) && q in after.peers
      && From(after.received[q], p) == From(sys.received[q], p) + Missing(sys.peers[p].log, sys.peers[q].vector)
  {
    hide Reached, Inv, Missing, Exchange, StateAfter, ValidRun;
    ExchangeIsRun(sys, q, p, now);
    ReachedInv(sys);
    var answer := Missing(sys.peers[p].log, sys.peers[q].vector);
    forall i | 0 <= i < |answer| ensures answer[i].peerID == p {
      AnswerIsGenuine(sys, p, sys.peers[q].vector, i);
    }
    FromAppended(sys.received[q], answer, p);
  }

  /** At the moment of asking: nothing is missing, or the clock counts what was handed and nothing beyond, and the log reaches back. */
  predicate SyncSuffices(sys: System, q: PeerID, p: PeerID, k: nat)
    requires SameDomains(sys) && q in sys.peers && p in sys.peers
  {
    k == |sys.issued[p]| || (k > 0 && Count(sys.peers[q].vector, p) == k - 1 && Pruned(sys, p) <= k)
  }

  /** A prefix and the answer make up the whole exactly under that condition. */
  lemma PrefixAndAnswer(sys: System, q: PeerID, p: PeerID, k: nat)
    requires Reached(sys) && SameDomains(sys) && q in sys.peers && p in sys.peers && q != p
    requires k <= |sys.issued[p]| && From(sys.received[q], p) == Operations(sys.issued[p])[..k]
    ensures Operations(sys.issued[p])[..k] + Missing(sys.peers[p].log, sys.peers[q].vector) == Operations(sys.issued[p])
       <==> SyncSuffices(sys, q, p, k)
  {
    hide Reached, Inv, Missing, From;
    ReachedInv(sys);
    PrefixIsCounted(sys, q, p, k);
    LogIsExactTail(sys, p);
    var v, log, start := sys.peers[q].vector, sys.peers[p].log, Pruned(sys, p);
    AnswerIsSuffix(sys, p, v);
    ClockWithinIssued(sys, q, p);
    hide Consecutive;
    PrefixAndSuffix(Operations(sys.issued[p]), log, k, start, Clamp(Count(v, p) + 1 - start, |log|));
  }

  /** A prefix and a cut of the tail make up the whole when the cut starts where the prefix ends, or adds nothing to the whole. */
  lemma PrefixAndSuffix(ops: seq<Operation>, log: seq<Operation>, k: nat, start: nat, cut: nat)
    requires k <= |ops| && |log| + start == |ops| && forall i | 0 <= i < |log| :: log[i] == ops[start + i]
    requires cut <= |log| && (k <= start + cut || cut == |log|)
    ensures ops[..k] + log[cut..] == ops <==> start + cut == k || k == |ops|
  {
    if start + cut == k {
      assert ops[..k] + log[cut..] == ops;
    }
    assert |ops[..k] + log[cut..]| == k + |log| - cut;
    if k == |ops| {
      assert log[cut..] == [];
      assert ops[..k] + [] == ops;
    }
  }

  /** Being handed a prefix, a clock counts at least its last operation. */
  lemma PrefixIsCounted(sys: System, q: PeerID, p: PeerID, k: nat)
    requires Inv(sys) && q in sys.peers && p in sys.peers
    requires k <= |sys.issued[p]| && q in sys.received && p in sys.issued && From(sys.received[q], p) == Operations(sys.issued[p])[..k]
    ensures k > 0 ==> Count(sys.peers[q].vector, p) >= k - 1
  {
    hide Inv, From;
    if k > 0 {
      var op := sys.issued[p][k - 1].op;
      assert op == Operations(sys.issued[p])[..k][k - 1];
      FromMembers(sys.received[q], p);
      assert op in From(sys.received[q], p);
      HandedIsCounted(sys, q, op);
      EventWell(sys, Event(p, k - 1));
    }
  }

  lemma ClockWithinIssued(sys: System, q: PeerID, p: PeerID)
    requires Inv(sys) && q in sys.peers && p in sys.issued && q != p
    ensures Count(sys.peers[q].vector, p) > 0 ==> Count(sys.peers[q].vector, p) < |sys.issued[p]|
  {
    assert PeerWell(sys.issued, q, sys.peers[q], sys.history[q], sys.received[q]);
    var v, h := sys.peers[q].vector, sys.history[q];
    if Count(v, p) > 0 {
      assert Founded(sys.issued, v, h, Event(p, Count(v, p)));
    }
  }

  /**
   * A peer that was handed exactly the first k operations of another holds all of them, in order, after one
   * sync exchange exactly when: there were no more; or k is at least 1, its clock does not count past them, and
   * none of the others was pruned. No announcement needs to arrive.
   */
  lemma SyncCompletesIff(sys: System, q: PeerID, p: PeerID, k: nat, now: int)
    requires Reached(sys) && SameDomains(sys) && q in sys.peers && p in sys.peers && q != p
    requires k <= |sys.issued[p]| && From(sys.received[q], p) == Operations(sys.issued[p])[..k]
    ensures ValidRun(sys, Exchange(sys, q, p, now))
    ensures var after := StateAfter(sys, Exchange(sys, q, p, now));
      SameDomains(after) && q in after.peers
      && (From(after.received[q], p) == Operations(sys.issued[p]) <==> SyncSuffices(sys, q, p, k))
  {
    ExchangeHands(sys, q, p, now);
    PrefixAndAnswer(sys, q, p, k);
    hide *;
  }

  /**
   * And then it holds the owner's documents: where documents are written by their owners and an owner kept the
   * condition, one exchange under that condition leads to exactly the owner's present documents.
   */
  lemma SyncAgreesWithOwner(sys: System, owner: string -> Option<PeerID>, q: PeerID, p: PeerID, k: nat, now: int)
    requires Reached(sys) && SameDomains(sys) && q in sys.peers && p in sys.peers && q != p
    requires OwnersWrite(sys.issued, owner) && Tame(Operations(sys.issued[p]))
    requires k <= |sys.issued[p]| && From(sys.received[q], p) == Operations(sys.issued[p])[..k] && SyncSuffices(sys, q, p, k)
    ensures ValidRun(sys, Exchange(sys, q, p, now))
    ensures var after := StateAfter(sys, Exchange(sys, q, p, now));
      && q in after.peers && p in after.peers && after.peers[p] == sys.peers[p]
      && forall id: string | owner(id) == Some(p) :: Lookup(after.peers[q].store, id) == Lookup(sys.peers[p].store, id)
  {
    hide Reached, From, OwnersWrite, Tame, Lookup, Exchange, ValidRun, StateAfter;
    var m := |sys.issued[p]|;
    ExchangeIsRun(sys, q, p, now);
    SyncCompletesIff(sys, q, p, k, now);
    RunReaches(sys, Exchange(sys, q, p, now));
    var after := StateAfter(sys, Exchange(sys, q, p, now));
    assert Operations(sys.issued[p])[..m] == Operations(sys.issued[p]);
    hide *;
    forall id: string | owner(id) == Some(p) ensures Lookup(after.peers[q].store, id) == Lookup(sys.peers[p].store, id) {
      CopiesMirrorOwner(after, owner, q, p, m, id);
    }
  }

  lemma {:induction false} RunReaches(sys: System, steps: seq<Step>)
    requires Reached(sys) && ValidRun(sys, steps)
    ensures Reached(StateAfter(sys, steps))
  {
    if steps != [] {
      RunReaches(sys, steps[..|steps| - 1]);
      hide Reached;
      ReachNext(StateAfter(sys, steps[..|steps| - 1]), steps[|steps| - 1]);
    }
  }
}
