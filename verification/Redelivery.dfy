/** The same operation handed over again: what a stored copy is made of, and when it stays as it is. */
module Redelivery {
  import opened Json
  import opened Sequences
  import opened Resolver
  import opened Replication
  import opened Causality
  import opened Timelines
  import opened Replicas

  /** The i-th operation writes its fields to the copy: it is fresh, or there is no copy yet. */
  predicate Sets(ops: seq<Operation>, i: nat, id: string)
    requires i < |ops|
  {
    HasFields(ops[i]) && (Fresh(ops[i]) || CopyAfter(ops[..i], id).None?)
  }

  predicate Clears(op: Operation) {
    op.kind == Delete && !Stale(op)
  }

  /** Nothing after the i-th operation drops the copy. */
  predicate NotCleared(ops: seq<Operation>, i: nat) {
    forall j | i < j < |ops| :: !Clears(ops[j])
  }

  predicate NotReset(ops: seq<Operation>, i: nat, id: string, field: string) {
    forall j | i < j < |ops| && Sets(ops, j, id) :: field !in ops[j].data.value.payload
  }

  /** Some write was not dropped. */
  predicate Alive(ops: seq<Operation>, id: string) {
    exists i | 0 <= i < |ops| :: Sets(ops, i, id) && NotCleared(ops, i)
  }

  /** The last write of the field since the copy was last dropped brought the value. */
  predicate LastSet(ops: seq<Operation>, id: string, field: string, v: Value) {
    exists i | 0 <= i < |ops| ::
      Sets(ops, i, id) && Holds(ops[i].data.value.payload, field, v) && NotCleared(ops, i) && NotReset(ops, i, id, field)
  }

  lemma SetsOfFront(ops: seq<Operation>, op: Operation, i: nat, id: string)
    requires i < |ops|
    ensures (ops + [op])[i] == ops[i]
    ensures Sets(ops + [op], i, id) <==> Sets(ops, i, id)
    ensures NotCleared(ops + [op], i) <==> NotCleared(ops, i) && !Clears(op)
  {
    var all := ops + [op];
    assert all[..i] == ops[..i];
    assert all[|ops|] == op && forall j | 0 <= j < |ops| :: all[j] == ops[j];
    if NotCleared(all, i) {
      forall j | i < j < |ops| ensures !Clears(ops[j]) {
        assert all[j] == ops[j];
      }
    }
  }

  lemma SetsAtEnd(ops: seq<Operation>, op: Operation, id: string)
    ensures (ops + [op])[|ops|] == op && NotCleared(ops + [op], |ops|)
    ensures Sets(ops + [op], |ops|, id) <==> HasFields(op) && (Fresh(op) || CopyAfter(ops, id).None?)
  {
    assert (ops + [op])[..|ops|] == ops;
  }

  lemma NotResetOneMore(ops: seq<Operation>, op: Operation, i: nat, id: string, field: string)
    requires i < |ops|
    ensures NotReset(ops + [op], i, id, field)
       <==> NotReset(ops, i, id, field) && (Sets(ops + [op], |ops|, id) ==> field !in op.data.value.payload)
  {
    var all := ops + [op];
    forall j | 0 <= j < |ops| ensures all[j] == ops[j] && (Sets(all, j, id) <==> Sets(ops, j, id)) {
      SetsOfFront(ops, op, j, id);
    }
    assert all[|ops|] == op;
    if NotReset(all, i, id, field) {
      forall j | i < j < |ops| && Sets(ops, j, id) ensures field !in ops[j].data.value.payload {
        assert Sets(all, j, id);
      }
    }
  }

  lemma AliveOneMore(ops: seq<Operation>, op: Operation, id: string)
    ensures Alive(ops + [op], id)
       <==> (Alive(ops, id) && !Clears(op)) || (HasFields(op) && (Fresh(op) || CopyAfter(ops, id).None?))
  {
    var all := ops + [op];
    SetsAtEnd(ops, op, id);
    hide CopyAfter, Fresh, Clears, NotCleared;
    forall i | 0 <= i < |ops|
      ensures (Sets(all, i, id) <==> Sets(ops, i, id)) && (NotCleared(all, i) <==> NotCleared(ops, i) && !Clears(op))
    {
      SetsOfFront(ops, op, i, id);
    }
    if Alive(ops, id) && !Clears(op) {
      var i :| 0 <= i < |ops| && Sets(ops, i, id) && NotCleared(ops, i);
      assert Sets(all, i, id);
    }
    if HasFields(op) && (Fresh(op) || CopyAfter(ops, id).None?) {
      assert Sets(all, |ops|, id);
    }
  }

  lemma LastSetOneMore(ops: seq<Operation>, op: Operation, id: string, field: string, v: Value)
    ensures var sets := HasFields(op) && (Fresh(op) || CopyAfter(ops, id).None?);
      LastSet(ops + [op], id, field, v)
      <==> if sets && field in op.data.value.payload then op.data.value.payload[field] == v else LastSet(ops, id, field, v) && !Clears(op)
  {
    var all := ops + [op];
    SetsAtEnd(ops, op, id);
    assert NotReset(all, |ops|, id, field);
    hide CopyAfter, Fresh, Clears, NotCleared, NotReset;
    forall i | 0 <= i < |ops|
      ensures all[i] == ops[i]
      ensures (Sets(all, i, id) <==> Sets(ops, i, id)) && (NotCleared(all, i) <==> NotCleared(ops, i) && !Clears(op))
      ensures NotReset(all, i, id, field)
         <==> NotReset(ops, i, id, field) && (Sets(all, |ops|, id) ==> field !in op.data.value.payload)
    {
      SetsOfFront(ops, op, i, id);
      NotResetOneMore(ops, op, i, id, field);
    }
    var sets := Sets(all, |ops|, id);
    if sets && Holds(op.data.value.payload, field, v) {
      assert Holds(all[|ops|].data.value.payload, field, v);
    }
    if LastSet(ops, id, field, v) && !Clears(op) && !(sets && field in op.data.value.payload) {
      var i :| 0 <= i < |ops| && Sets(ops, i, id) && Holds(ops[i].data.value.payload, field, v) && NotCleared(ops, i) && NotReset(ops, i, id, field);
      assert Sets(all, i, id);
    }
  }

  /** A stored copy is the last writes of its fields since it was last dropped, whatever was handed over. */
  lemma {:induction false} CopyIsLastSet(ops: seq<Operation>, id: string, field: string, v: Value)
    requires About(ops, id)
    ensures CopyAfter(ops, id).Some? <==> Alive(ops, id)
    ensures CopyAfter(ops, id).Some? && Holds(CopyAfter(ops, id).value, field, v) <==> LastSet(ops, id, field, v)
  {
    if ops != [] {
      var front, last := Front(ops), Last(ops);
      FrontLast(ops);
      assert Sound(last) && IssuesLive(last) && last.documentID == id;
      assert forall i | 0 <= i < |front| :: front[i] == ops[i];
      CopyIsLastSet(front, id, field, v);
      AliveOneMore(front, last, id);
      LastSetOneMore(front, last, id, field, v);
      AfterOneMore(front, last, id);
      hide Alive, LastSet, Sound, CopyAfter, About;
    }
  }

  /**
   * An operation that is handed over again leaves a copy as it is exactly when: it is a deletion, and stale or
   * there is no copy; or it is a write, there is a copy, and it is stale or its values are the last ones set.
   * The resolver on its own would ignore it always.
   */
  lemma RedeliveryIsIdleIff(ops: seq<Operation>, id: string, op: Operation)
    requires About(ops, id) && op in ops
    ensures CopyAfter(ops + [op], id) == CopyAfter(ops, id)
       <==> match op.kind
            case Delete => Stale(op) || !Alive(ops, id)
            case Other => true
            case _ =>
              && Alive(ops, id)
              && (Stale(op) || forall field | field in op.data.value.payload :: LastSet(ops, id, field, op.data.value.payload[field]))
  {
    var i :| 0 <= i < |ops| && ops[i] == op;
    assert Sound(op) && IssuesLive(op) && op.documentID == id;
    AfterOneMore(ops, op, id);
    CopyIsLastSet(ops, id, "", Null);
    var copy := CopyAfter(ops, id);
    if HasFields(op) {
      var fields := op.data.value.payload;
      forall field | field in fields
        ensures copy.Some? && Holds(copy.value, field, fields[field]) <==> LastSet(ops, id, field, fields[field])
      {
        CopyIsLastSet(ops, id, field, fields[field]);
      }
      hide LastSet, Alive, CopyAfter, About, Stale;
      if copy.Some? {
        OverlayIsIdleIff(copy.value, fields);
      }
    }
  }

  lemma OverlayIsIdleIff(copy: Fields, fields: Fields)
    ensures copy + fields == copy <==> forall field | field in fields :: Holds(copy, field, fields[field])
  {
    if copy + fields == copy {
      forall field | field in fields ensures Holds(copy, field, fields[field]) {
        assert field in copy + fields && (copy + fields)[field] == fields[field];
      }
    }
    if forall field | field in fields :: Holds(copy, field, fields[field]) {
      assert copy + fields == copy;
    }
  }
}
