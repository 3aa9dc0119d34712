/**
 * Inverted lists as B-tree and GIN indexes keep them: documents are appended under their keys, and removed
 * by deleting one entry from every list. When the lists are exactly the live documents, and when not.
 */
module Postings {
  import opened Sequences

  type Buckets = map<string, seq<string>>

  function Bucket(data: Buckets, key: string): seq<string> {
    if key in data then data[key] else []
  }

  // ---------------------------------------------------------------- the two updates

  /** A unique list accepts nothing while it holds something. */
  function AddEntry(data: Buckets, unique: bool, key: string, id: string): Buckets {
    if unique && Bucket(data, key) != [] then data else data[key := Bucket(data, key) + [id]]
  }

  function AddEntries(data: Buckets, unique: bool, keys: seq<string>, id: string): Buckets {
    if keys == [] then data
    else AddEntry(AddEntries(data, unique, keys[..|keys| - 1], id), unique, keys[|keys| - 1], id)
  }

  /** The list without the first occurrence of the id. */
  function RemoveFirst(ids: seq<string>, id: string): seq<string> {
    if ids == [] then []
    else if ids[0] == id then ids[1..]
    else [ids[0]] + RemoveFirst(ids[1..], id)
  }

  /** One entry leaves every list that has the id; a list that becomes empty leaves the map. */
  function RemoveEntries(data: Buckets, id: string): Buckets {
    map key | key in data && !(id in data[key] && RemoveFirst(data[key], id) == []) :: RemoveFirst(data[key], id)
  }

  lemma {:induction false} RemoveFirstAbsent(ids: seq<string>, id: string)
    requires id !in ids
    ensures RemoveFirst(ids, id) == ids
  {
    if ids != [] {
      RemoveFirstAbsent(ids[1..], id);
    }
  }

  lemma {:induction false} RemoveFirstCounts(ids: seq<string>, id: string, other: string)
    ensures multiset(RemoveFirst(ids, id))[other]
         == multiset(ids)[other] - (if other == id && id in ids then 1 else 0)
  {
    if ids != [] {
      assert ids == [ids[0]] + ids[1..];
      RemoveFirstCounts(ids[1..], id, other);
    }
  }

  /** How removing reads list by list. */
  lemma BucketAfterRemoval(data: Buckets, id: string, key: string)
    ensures Bucket(RemoveEntries(data, id), key) == RemoveFirst(Bucket(data, key), id)
  {
    if key in data && id !in data[key] {
      RemoveFirstAbsent(data[key], id);
    }
  }

  // ---------------------------------------------------------------- runs

  /** What the index sees of a document: its id and the keys it goes under, in the order they are added. */
  datatype Row = Row(id: string, keys: seq<string>)

  datatype Command = Put(row: Row) | Remove(id: string)

  /** The live documents, latest written last, and the lists. */
  datatype Table = Table(rows: seq<Row>, data: Buckets)

  function Without(rows: seq<Row>, id: string): seq<Row> {
    if rows == [] then []
    else
      var n := |rows| - 1;
      if rows[n].id == id then Without(rows[..n], id) else Without(rows[..n], id) + [rows[n]]
  }

  /** Writing a document again replaces it in the store but does not take its old entries away. */
  function Step(unique: bool, t: Table, c: Command): Table {
    match c
    case Put(row) => Table(Without(t.rows, row.id) + [row], AddEntries(t.data, unique, row.keys, row.id))
    case Remove(id) => Table(Without(t.rows, id), RemoveEntries(t.data, id))
  }

  function Run(unique: bool, cs: seq<Command>): Table {
    if cs == [] then Table([], map[]) else Step(unique, Run(unique, cs[..|cs| - 1]), cs[|cs| - 1])
  }

  lemma {:induction false} WithoutKeeps(rows: seq<Row>, id: string, row: Row)
    ensures row in Without(rows, id) <==> row in rows && row.id != id
  {
    if rows != [] {
      WithoutKeeps(rows[..|rows| - 1], id, row);
      FrontLast(rows);
    }
  }

  // ---------------------------------------------------------------- nothing is missed

  ghost predicate NothingMissed(t: Table) {
    forall row, key | row in t.rows && key in row.keys :: row.id in Bucket(t.data, key)
  }

  lemma {:induction false} AddEntriesContains(data: Buckets, keys: seq<string>, id: string, key: string, x: string)
    ensures x in Bucket(AddEntries(data, false, keys, id), key) <==> x in Bucket(data, key) || (x == id && key in keys)
  {
    if keys != [] {
      var n := |keys| - 1;
      AddEntriesContains(data, keys[..n], id, key, x);
      FrontLast(keys);
    }
  }

  lemma {:induction false} RemoveFirstKeepsOthers(ids: seq<string>, id: string, x: string)
    requires x != id
    ensures x in RemoveFirst(ids, id) <==> x in ids
  {
    if ids != [] {
      RemoveFirstKeepsOthers(ids[1..], id, x);
      assert x in ids <==> x == ids[0] || x in ids[1..] by { assert ids == [ids[0]] + ids[1..]; }
    }
  }

  lemma StepMissesNothing(t: Table, c: Command)
    requires NothingMissed(t)
    ensures NothingMissed(Step(false, t, c))
  {
    var t' := Step(false, t, c);
    forall row, key | row in t'.rows && key in row.keys ensures row.id in Bucket(t'.data, key) {
      match c
      case Put(added) =>
        WithoutKeeps(t.rows, added.id, row);
        AddEntriesContains(t.data, added.keys, added.id, key, row.id);
      case Remove(id) =>
        WithoutKeeps(t.rows, id, row);
        BucketAfterRemoval(t.data, id, key);
        RemoveFirstKeepsOthers(Bucket(t.data, key), id, row.id);
    }
  }

  /** After any writes and deletions, overwrites included, every live document is under each of its keys. */
  lemma {:induction false} RunMissesNothing(cs: seq<Command>)
    ensures NothingMissed(Run(false, cs))
  {
    if cs != [] {
      RunMissesNothing(cs[..|cs| - 1]);
      StepMissesNothing(Run(false, cs[..|cs| - 1]), cs[|cs| - 1]);
    }
  }

  // ---------------------------------------------------------------- shape of the lists

  predicate NoEmptyList(data: Buckets) {
    forall key | key in data :: data[key] != []
  }

  predicate OneEntryLists(data: Buckets) {
    forall key | key in data :: |data[key]| == 1
  }

  lemma {:induction false} AddEntriesShape(data: Buckets, unique: bool, keys: seq<string>, id: string)
    ensures NoEmptyList(data) ==> NoEmptyList(AddEntries(data, unique, keys, id))
    ensures unique && OneEntryLists(data) ==> OneEntryLists(AddEntries(data, unique, keys, id))
  {
    if keys != [] {
      AddEntriesShape(data, unique, keys[..|keys| - 1], id);
    }
  }

  lemma RemoveEntriesShape(data: Buckets, id: string)
    requires NoEmptyList(data)
    ensures NoEmptyList(RemoveEntries(data, id))
    ensures OneEntryLists(data) ==> OneEntryLists(RemoveEntries(data, id))
  {
    forall key | key in RemoveEntries(data, id)
      ensures RemoveEntries(data, id)[key] != []
      ensures OneEntryLists(data) ==> |RemoveEntries(data, id)[key]| == 1
    {
      if id !in data[key] { RemoveFirstAbsent(data[key], id); }
      if OneEntryLists(data) { assert data[key] == [data[key][0]]; }
    }
  }

  /** No list is ever empty, and a unique index holds one entry under every key it holds. */
  lemma {:induction false} RunShape(unique: bool, cs: seq<Command>)
    ensures NoEmptyList(Run(unique, cs).data)
    ensures unique ==> OneEntryLists(Run(unique, cs).data)
  {
    if cs != [] {
      var t, c := Run(unique, cs[..|cs| - 1]), cs[|cs| - 1];
      RunShape(unique, cs[..|cs| - 1]);
      match c
      case Put(row) => AddEntriesShape(t.data, unique, row.keys, row.id);
      case Remove(id) => RemoveEntriesShape(t.data, id);
    }
  }

  // ---------------------------------------------------------------- exactness

  /** The live documents that go under a key, in the order they were written, once each. */
  function Expected(rows: seq<Row>, key: string): seq<string> {
    if rows == [] then []
    else
      var n := |rows| - 1;
      if key in rows[n].keys then Expected(rows[..n], key) + [rows[n].id] else Expected(rows[..n], key)
  }

  ghost predicate Exact(t: Table) {
    forall key: string :: Bucket(t.data, key) == Expected(t.rows, key)
  }

  ghost predicate ExactAlways(unique: bool, cs: seq<Command>) {
    forall n: nat | n <= |cs| :: Exact(Run(unique, cs[..n]))
  }

  /**
   * The condition on a write. In an ordinary index: its keys are all different, and it does not overwrite a
   * document that is in the index. In a unique index: no other live document has one of its keys, and a
   * document that is overwritten keeps its keys.
   */
  predicate CleanPut(unique: bool, rows: seq<Row>, row: Row) {
    if unique then
      && (forall r, key | r in rows && key in row.keys && key in r.keys :: r.id == row.id)
      && (forall r, key | r in rows && r.id == row.id && key in r.keys :: key in row.keys)
    else
      && NoRepeats(row.keys)
      && (forall r | r in rows && r.id == row.id :: r.keys == [])
  }

  predicate Clean(unique: bool, rows: seq<Row>, c: Command) {
    c.Put? ==> CleanPut(unique, rows, c.row)
  }

  predicate CleanAlways(unique: bool, cs: seq<Command>) {
    cs == [] || (CleanAlways(unique, cs[..|cs| - 1]) && Clean(unique, Run(unique, cs[..|cs| - 1]).rows, cs[|cs| - 1]))
  }

  predicate DistinctIDs(rows: seq<Row>) {
    forall i, j | 0 <= i < j < |rows| :: rows[i].id != rows[j].id
  }

  lemma {:induction false} WithoutIsDistinct(rows: seq<Row>, id: string)
    requires DistinctIDs(rows)
    ensures DistinctIDs(Without(rows, id))
    ensures forall r | r in Without(rows, id) :: r.id != id && r in rows
  {
    if rows != [] {
      WithoutIsDistinct(rows[..|rows| - 1], id);
      FrontLast(rows);
    }
  }

  lemma {:induction false} RunIsDistinct(unique: bool, cs: seq<Command>)
    ensures DistinctIDs(Run(unique, cs).rows)
  {
    if cs != [] {
      RunIsDistinct(unique, cs[..|cs| - 1]);
      var t, c := Run(unique, cs[..|cs| - 1]), cs[|cs| - 1];
      WithoutIsDistinct(t.rows, if c.Put? then c.row.id else c.id);
    }
  }

  /** Removing a document takes its id, and nothing else, out of the expected lists. */
  lemma {:induction false} ExpectedWithout(rows: seq<Row>, id: string, key: string)
    requires DistinctIDs(rows)
    ensures Expected(Without(rows, id), key) == RemoveFirst(Expected(rows, key), id)
    ensures forall x | x in Expected(rows, key) :: exists r | r in rows :: r.id == x && key in r.keys
    ensures forall r | r in rows && key in r.keys :: r.id in Expected(rows, key)
  {
    if rows != [] {
      var n := |rows| - 1;
      var front, last := rows[..n], rows[n];
      FrontLast(rows);
      ExpectedWithout(front, id, key);
      var before := Expected(front, key);
      assert last.id !in before;
      if key in last.keys {
        RemoveFirstOfSnoc(before, last.id, id);
      }
      if last.id != id && key in last.keys {
        SnocFront(Without(front, id), last);
      } else if last.id != id {
        SnocFront(Without(front, id), last);
      } else {
        RemoveFirstAbsent(before, id);
      }
    }
  }

  lemma {:induction false} RemoveFirstOfSnoc(ids: seq<string>, x: string, id: string)
    ensures RemoveFirst(ids + [x], id) == if id in ids || x != id then RemoveFirst(ids, id) + [x] else ids
  {
    if ids == [] {
      assert RemoveFirst([x], id) == if x == id then [] else [x];
    } else {
      assert (ids + [x])[1..] == ids[1..] + [x];
      RemoveFirstOfSnoc(ids[1..], x, id);
      assert id in ids <==> id == ids[0] || id in ids[1..] by { assert ids == [ids[0]] + ids[1..]; }
    }
  }

  // ---------------------------------------------------------------- one write

  function Repeat(id: string, n: nat): seq<string> {
    seq(n, _ => id)
  }

  function Occurrences(keys: seq<string>, key: string): nat {
    multiset(keys)[key]
  }

  lemma {:induction false} AddedToBucket(data: Buckets, keys: seq<string>, id: string, key: string)
    ensures Bucket(AddEntries(data, false, keys, id), key) == Bucket(data, key) + Repeat(id, Occurrences(keys, key))
  {
    if keys == [] {
      assert Bucket(data, key) + Repeat(id, 0) == Bucket(data, key);
    } else {
      var n := |keys| - 1;
      AddedToBucket(data, keys[..n], id, key);
      FrontLast(keys);
      assert multiset(keys) == multiset(Front(keys)) + multiset{Last(keys)} by {
        assert multiset(Front(keys) + [Last(keys)]) == multiset(Front(keys)) + multiset([Last(keys)]);
      }
      var m := Occurrences(keys[..n], key);
      RepeatOneMore(Bucket(data, key), id, m);
    }
  }

  lemma RepeatOneMore(ids: seq<string>, id: string, m: nat)
    ensures (ids + Repeat(id, m)) + [id] == ids + Repeat(id, m + 1)
  {
  }

  lemma {:induction false} AddedToUniqueBucket(data: Buckets, keys: seq<string>, id: string, key: string)
    ensures Bucket(AddEntries(data, true, keys, id), key)
         == if Bucket(data, key) != [] || key !in keys then Bucket(data, key) else [id]
  {
    if keys != [] {
      AddedToUniqueBucket(data, keys[..|keys| - 1], id, key);
      FrontLast(keys);
    }
  }

  /**
   * A key of a unique index is held by nobody or by one document. The first that comes with the key takes it, and
   * keeps it, whatever is written, until that document is deleted.
   */
  lemma UniqueKeyHasOneHolder(cs: seq<Command>, c: Command, key: string)
    ensures var before, after := Bucket(Run(true, cs).data, key), Bucket(Run(true, cs + [c]).data, key);
      && |before| <= 1
      && (before != [] ==> after == if c == Remove(before[0]) then [] else before)
      && (before == [] ==> after == if c.Put? && key in c.row.keys then [c.row.id] else [])
  {
    var t := Run(true, cs);
    RunShape(true, cs);
    SnocFront(cs, c);
    match c
    case Put(row) => AddedToUniqueBucket(t.data, row.keys, row.id, key);
    case Remove(id) =>
      BucketAfterRemoval(t.data, id, key);
      assert Bucket(t.data, key) != [] ==> Bucket(t.data, key)[1..] == [];
  }

  /** What one key asks of a write, in an ordinary and in a unique index. */
  predicate KeyClean(unique: bool, ids: seq<string>, row: Row, key: string) {
    if unique then
      (key in row.keys && ids != [] ==> row.id in ids) && (row.id in ids ==> key in row.keys)
    else
      Occurrences(row.keys, key) <= 1 && row.id !in ids
  }

  ghost predicate EveryKeyClean(unique: bool, rows: seq<Row>, row: Row) {
    forall key: string :: KeyClean(unique, Expected(rows, key), row, key)
  }

  lemma RepeatCounts(id: string, n: nat)
    ensures multiset(Repeat(id, n))[id] == n
  {
    if n > 0 {
      RepeatCounts(id, n - 1);
      assert Repeat(id, n) == Repeat(id, n - 1) + [id];
    }
  }

  lemma OrdinaryKeyIff(ids: seq<string>, row: Row, key: string)
    ensures ids + Repeat(row.id, Occurrences(row.keys, key)) == RemoveFirst(ids, row.id) + (if key in row.keys then [row.id] else [])
        <==> KeyClean(false, ids, row, key)
  {
    var n := Occurrences(row.keys, key);
    var left, right := ids + Repeat(row.id, n), RemoveFirst(ids, row.id) + (if key in row.keys then [row.id] else []);
    RepeatCounts(row.id, n);
    RemoveFirstCounts(ids, row.id, row.id);
    assert key in row.keys <==> n > 0;
    assert multiset(left)[row.id] == multiset(ids)[row.id] + n;
    assert multiset(right)[row.id] == multiset(RemoveFirst(ids, row.id))[row.id] + (if n > 0 then 1 else 0);
    if n <= 1 && row.id !in ids {
      RemoveFirstAbsent(ids, row.id);
      assert Repeat(row.id, n) == if n > 0 then [row.id] else [];
    }
  }

  lemma UniqueKeyIff(ids: seq<string>, row: Row, key: string)
    requires |ids| <= 1
    ensures (if ids != [] || key !in row.keys then ids else [row.id]) == RemoveFirst(ids, row.id) + (if key in row.keys then [row.id] else [])
        <==> KeyClean(true, ids, row, key)
  {
    if ids != [] {
      assert ids == [ids[0]];
    }
  }

  /** The lists under one key after a write, given that they were exact before. */
  lemma PutExactAtKeyIff(unique: bool, t: Table, row: Row, key: string)
    requires Exact(t) && DistinctIDs(t.rows) && (unique ==> OneEntryLists(t.data))
    ensures Bucket(Step(unique, t, Put(row)).data, key) == Expected(Step(unique, t, Put(row)).rows, key)
        <==> KeyClean(unique, Expected(t.rows, key), row, key)
  {
    var ids := Expected(t.rows, key);
    assert Bucket(t.data, key) == ids;
    ExpectedWithout(t.rows, row.id, key);
    SnocFront(Without(t.rows, row.id), row);
    if unique {
      AddedToUniqueBucket(t.data, row.keys, row.id, key);
      UniqueKeyIff(ids, row, key);
    } else {
      AddedToBucket(t.data, row.keys, row.id, key);
      OrdinaryKeyIff(ids, row, key);
    }
  }

  lemma {:induction false} RepeatsIff(keys: seq<string>)
    ensures NoRepeats(keys) <==> forall key: string :: Occurrences(keys, key) <= 1
  {
    if keys != [] {
      var front, last := Front(keys), Last(keys);
      RepeatsIff(front);
      FrontLast(keys);
      assert multiset(keys) == multiset(front) + multiset{last} by {
        assert multiset(front + [last]) == multiset(front) + multiset([last]);
      }
      if NoRepeats(keys) {
        assert NoRepeats(front);
        assert last !in front;
        forall key: string ensures Occurrences(keys, key) <= 1 {
          assert Occurrences(front, key) <= 1;
        }
      }
      if forall key: string :: Occurrences(keys, key) <= 1 {
        forall key: string ensures Occurrences(front, key) <= 1 {
          assert Occurrences(keys, key) <= 1;
        }
        assert Occurrences(keys, last) <= 1;
        assert last !in front;
        assert forall i | 0 <= i < |front| :: front[i] == keys[i];
      }
    }
  }

  /** The expected lists in terms of the rows. */
  ghost predicate Lists(rows: seq<Row>, key: string) {
    forall r | r in rows :: key in r.keys ==> r.id in Expected(rows, key)
  }

  ghost predicate ListsOnly(rows: seq<Row>, key: string) {
    forall x | x in Expected(rows, key) :: exists r | r in rows :: r.id == x && key in r.keys
  }

  /** The condition on a write is the conditions of all keys. */
  lemma CleanPutIff(unique: bool, rows: seq<Row>, row: Row)
    requires DistinctIDs(rows)
    requires unique ==> forall key: string :: |Expected(rows, key)| <= 1
    ensures CleanPut(unique, rows, row) <==> EveryKeyClean(unique, rows, row)
  {
    forall key: string ensures Lists(rows, key) && ListsOnly(rows, key) {
      ExpectedWithout(rows, row.id, key);
    }
    if unique {
      CleanUniqueIff(rows, row);
    } else {
      RepeatsIff(row.keys);
      CleanOrdinaryIff(rows, row);
    }
  }

  lemma SomethingIn(keys: seq<string>)
    ensures keys != [] ==> exists key: string :: key in keys
  {
    if keys != [] { assert keys[0] in keys; }
  }

  lemma CleanOrdinaryIff(rows: seq<Row>, row: Row)
    requires forall key: string :: Lists(rows, key) && ListsOnly(rows, key)
    requires NoRepeats(row.keys) <==> forall key: string :: Occurrences(row.keys, key) <= 1
    ensures CleanPut(false, rows, row) <==> EveryKeyClean(false, rows, row)
  {
    if EveryKeyClean(false, rows, row) {
      forall key: string ensures Occurrences(row.keys, key) <= 1 {
        assert KeyClean(false, Expected(rows, key), row, key);
      }
      forall r | r in rows && r.id == row.id ensures r.keys == [] {
        forall key: string ensures key !in r.keys {
          assert KeyClean(false, Expected(rows, key), row, key) && Lists(rows, key);
        }
        SomethingIn(r.keys);
      }
    }
    if CleanPut(false, rows, row) {
      forall key: string ensures KeyClean(false, Expected(rows, key), row, key) {
        assert Occurrences(row.keys, key) <= 1;
        assert ListsOnly(rows, key);
      }
    }
  }

  lemma CleanUniqueIff(rows: seq<Row>, row: Row)
    requires forall key: string :: Lists(rows, key) && ListsOnly(rows, key)
    requires forall key: string :: |Expected(rows, key)| <= 1
    ensures CleanPut(true, rows, row) <==> EveryKeyClean(true, rows, row)
  {
    if EveryKeyClean(true, rows, row) {
      forall r, key | r in rows && key in row.keys && key in r.keys ensures r.id == row.id {
        assert KeyClean(true, Expected(rows, key), row, key) && Lists(rows, key);
        assert |Expected(rows, key)| <= 1;
      }
      forall r, key | r in rows && r.id == row.id && key in r.keys ensures key in row.keys {
        assert KeyClean(true, Expected(rows, key), row, key) && Lists(rows, key);
      }
    }
    if CleanPut(true, rows, row) {
      forall key: string ensures KeyClean(true, Expected(rows, key), row, key) {
        var ids := Expected(rows, key);
        assert ListsOnly(rows, key);
        if ids != [] && key in row.keys {
          var x := ids[0];
          assert x in ids;
          var r :| r in rows && r.id == x && key in r.keys;
        }
        if row.id in ids {
          var r :| r in rows && r.id == row.id && key in r.keys;
        }
      }
    }
  }

  // ---------------------------------------------------------------- runs, exactly

  /** One command keeps the lists exact exactly when it meets the condition. */
  lemma StepExactIff(unique: bool, t: Table, c: Command)
    requires Exact(t) && DistinctIDs(t.rows) && (unique ==> OneEntryLists(t.data))
    ensures Exact(Step(unique, t, c)) <==> Clean(unique, t.rows, c)
  {
    match c
    case Put(row) =>
      var t' := Step(unique, t, c);
      forall key: string
        ensures Bucket(t'.data, key) == Expected(t'.rows, key) <==> KeyClean(unique, Expected(t.rows, key), row, key)
        ensures unique ==> |Expected(t.rows, key)| <= 1
      {
        PutExactAtKeyIff(unique, t, row, key);
        assert Bucket(t.data, key) == Expected(t.rows, key);
      }
      CleanPutIff(unique, t.rows, row);
      ForAllKeys(unique, t, t', row);
    case Remove(id) =>
      forall key: string ensures Bucket(RemoveEntries(t.data, id), key) == Expected(Without(t.rows, id), key) {
        BucketAfterRemoval(t.data, id, key);
        ExpectedWithout(t.rows, id, key);
      }
  }

  lemma ForAllKeys(unique: bool, t: Table, t': Table, row: Row)
    requires forall key: string ::
      Bucket(t'.data, key) == Expected(t'.rows, key) <==> KeyClean(unique, Expected(t.rows, key), row, key)
    ensures Exact(t') <==> EveryKeyClean(unique, t.rows, row)
  {
    if Exact(t') {
      forall key: string ensures KeyClean(unique, Expected(t.rows, key), row, key) {
        assert Bucket(t'.data, key) == Expected(t'.rows, key);
      }
    }
    if EveryKeyClean(unique, t.rows, row) {
      forall key: string ensures Bucket(t'.data, key) == Expected(t'.rows, key) {
        assert KeyClean(unique, Expected(t.rows, key), row, key);
      }
    }
  }

  lemma PrefixOfFront(cs: seq<Command>, n: nat)
    requires cs != [] && n < |cs|
    ensures cs[..|cs| - 1][..n] == cs[..n]
  {
  }

  lemma WholeSlice(cs: seq<Command>)
    ensures cs[..|cs|] == cs
  {
  }

  lemma ExactAlwaysFront(unique: bool, cs: seq<Command>)
    requires cs != []
    ensures ExactAlways(unique, cs) <==> ExactAlways(unique, cs[..|cs| - 1]) && Exact(Run(unique, cs))
  {
    hide Run, Exact;
    var front := cs[..|cs| - 1];
    forall n: nat | n <= |front| ensures cs[..n] == front[..n] {
      PrefixOfFront(cs, n);
    }
    WholeSlice(cs);
  }

  /**
   * Through a whole run the lists are exactly the live documents of each key, in the order written and once
   * each, exactly when every write met the condition.
   */
  lemma {:induction false} ExactIff(unique: bool, cs: seq<Command>)
    ensures ExactAlways(unique, cs) <==> CleanAlways(unique, cs)
  {
    if cs == [] {
      assert forall n: nat | n <= |cs| :: cs[..n] == [];
      assert Exact(Run(unique, []));
    } else {
      var front := cs[..|cs| - 1];
      ExactIff(unique, front);
      ExactAlwaysFront(unique, cs);
      RunIsDistinct(unique, front);
      RunShape(unique, front);
      if ExactAlways(unique, front) {
        assert front[..|front|] == front;
        assert Exact(Run(unique, front));
        StepExactIff(unique, Run(unique, front), cs[|cs| - 1]);
      }
    }
  }

  /**
   * A document written under new entries and deleted again leaves an entry behind under a key exactly when
   * it went under that key more than once.
   */
  lemma StaleEntryIff(t: Table, row: Row, key: string)
    requires row.id !in Bucket(t.data, key)
    ensures row.id in Bucket(Step(false, Step(false, t, Put(row)), Remove(row.id)).data, key) <==> Occurrences(row.keys, key) > 1
  {
    var ids := Bucket(t.data, key);
    var n := Occurrences(row.keys, key);
    AddedToBucket(t.data, row.keys, row.id, key);
    BucketAfterRemoval(AddEntries(t.data, false, row.keys, row.id), row.id, key);
    RemoveFirstCounts(ids + Repeat(row.id, n), row.id, row.id);
    RepeatCounts(row.id, n);
    assert multiset(ids + Repeat(row.id, n))[row.id] == multiset(ids)[row.id] + n == n;
  }
}
