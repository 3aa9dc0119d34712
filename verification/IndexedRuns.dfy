/**
 * From the first write on: what a one-field B-tree index that was created before the data holds after any
 * run of writes and deletions, and when a query may use it.
 */
module IndexedRuns {
  import opened Json
  import opened Sequences
  import opened Changes
  import opened Postings
  import opened Tokens
  import opened Filters
  import opened SecondaryIndex
  import opened Executor

  /** What the index is told of a change. */
  function ToldOf(lib: Library, field: string, c: Change): Command {
    match c
    case Write(id, doc) => Put(Row(id, [CompositeKey(lib, [field], doc)]))
    case Erase(id) => Remove(id)
  }

  function Told(lib: Library, field: string, cs: seq<Change>): seq<Command> {
    if cs == [] then [] else Told(lib, field, Front(cs)) + [ToldOf(lib, field, Last(cs))]
  }

  ghost function RowsAfter(lib: Library, field: string, cs: seq<Change>): seq<Row> {
    Run(false, Told(lib, field, cs)).rows
  }

  lemma ToldLast(lib: Library, field: string, cs: seq<Change>)
    requires cs != []
    ensures Run(false, Told(lib, field, cs)) == Step(false, Run(false, Told(lib, field, Front(cs))), ToldOf(lib, field, Last(cs)))
    ensures CleanAlways(false, Told(lib, field, cs)) <==>
      CleanAlways(false, Told(lib, field, Front(cs))) && Clean(false, RowsAfter(lib, field, Front(cs)), ToldOf(lib, field, Last(cs)))
  {
    SnocFront(Told(lib, field, Front(cs)), ToldOf(lib, field, Last(cs)));
  }

  function ChangedRows(lib: Library, field: string, before: seq<Row>, c: Change): seq<Row> {
    if c.Write? then Without(before, c.id) + [ToldOf(lib, field, c).row] else Without(before, c.target)
  }

  /** One change keeps the live rows and the documents together. */
  lemma ChangeKeepsIndexed(lib: Library, field: string, listing: seq<string>, before: seq<Row>, docs: map<string, Fields>, c: Change)
    requires Indexed(lib, field, Store(listing, docs), before) && DistinctIDs(ChangedRows(lib, field, before, c))
    ensures Indexed(lib, field, Store(listing, Changed(docs, c)), ChangedRows(lib, field, before, c))
  {
    var after, docs' := ChangedRows(lib, field, before, c), Changed(docs, c);
    forall row | row in after ensures row.id in docs' && row.keys == [CompositeKey(lib, [field], docs'[row.id])] {
      RowIsDocument(lib, field, listing, before, docs, c, row);
    }
    forall x | x in docs' ensures IsLive(after, x) {
      DocumentIsRow(lib, field, listing, before, docs, c, x);
    }
    hide Changed, ChangedRows, IsLive, CompositeKey;
  }

  lemma RowIsDocument(lib: Library, field: string, listing: seq<string>, before: seq<Row>, docs: map<string, Fields>, c: Change, row: Row)
    requires Indexed(lib, field, Store(listing, docs), before) && row in ChangedRows(lib, field, before, c)
    ensures row.id in Changed(docs, c) && row.keys == [CompositeKey(lib, [field], Changed(docs, c)[row.id])]
  {
    WithoutKeeps(before, TargetOf(c), row);
    hide Without, CompositeKey, DistinctIDs, IsLive;
  }

  lemma DocumentIsRow(lib: Library, field: string, listing: seq<string>, before: seq<Row>, docs: map<string, Fields>, c: Change, x: string)
    requires Indexed(lib, field, Store(listing, docs), before) && x in Changed(docs, c)
    ensures IsLive(ChangedRows(lib, field, before, c), x)
  {
    LiveAfter(before, TargetOf(c), Row(TargetOf(c), if c.Write? then ToldOf(lib, field, c).row.keys else []));
    hide CompositeKey, DistinctIDs, IsLive, Without;
  }

  /** The live rows are the documents, each once and under its present key. */
  lemma {:induction false} RunIsIndexed(lib: Library, field: string, cs: seq<Change>, listing: seq<string>)
    ensures Indexed(lib, field, Store(listing, DocumentsAfter(cs)), RowsAfter(lib, field, cs))
  {
    RunIsDistinct(false, Told(lib, field, cs));
    if cs != [] {
      RunIsIndexed(lib, field, Front(cs), listing);
      ToldLast(lib, field, cs);
      hide Indexed, DistinctIDs, Without, Run, CompositeKey;
      assert RowsAfter(lib, field, cs) == ChangedRows(lib, field, RowsAfter(lib, field, Front(cs)), Last(cs));
      ChangeKeepsIndexed(lib, field, listing, RowsAfter(lib, field, Front(cs)), DocumentsAfter(Front(cs)), Last(cs));
    }
  }

  /** For such an index the condition on the writes is that no live document is ever overwritten. */
  lemma {:induction false} CleanIffNeverOverwrites(lib: Library, field: string, cs: seq<Change>)
    ensures CleanAlways(false, Told(lib, field, cs)) <==> NeverOverwrites(cs)
  {
    if cs != [] {
      CleanIffNeverOverwrites(lib, field, Front(cs));
      ToldLast(lib, field, cs);
      RunIsIndexed(lib, field, Front(cs), []);
      var rows := RowsAfter(lib, field, Front(cs));
      if Last(cs).Write? && Last(cs).id in DocumentsAfter(Front(cs)) {
        assert IsLive(rows, Last(cs).id);
      }
    }
  }

  /**
   * After any run that never overwrites, every list is exactly the documents with that key, in the order they
   * were written; and it is so throughout a run only if the run never overwrites.
   */
  lemma ListsAreExactIff(lib: Library, field: string, cs: seq<Change>)
    ensures ExactAlways(false, Told(lib, field, cs)) <==> NeverOverwrites(cs)
  {
    ExactIff(false, Told(lib, field, cs));
    CleanIffNeverOverwrites(lib, field, cs);
  }

  /** The ids a look-up gives after the run, and the ids a scan gives. */
  ghost function LookedUp(lib: Library, field: string, cs: seq<Change>, pushed: seq<Filter>): seq<string>
    requires pushed != []
  {
    Bucket(Run(false, Told(lib, field, cs)).data, lib.show(pushed[0].value))
  }

  ghost function Scanned(lib: Library, cs: seq<Change>, listing: seq<string>, pushed: seq<Filter>): seq<string> {
    Selected(lib, Store(listing, DocumentsAfter(cs)), listing, pushed)
  }

  /** With equality pushed down, the look-up and the scan agree after every run that never overwrites. */
  lemma RunAgrees(lib: Library, field: string, cs: seq<Change>, listing: seq<string>, pushed: seq<Filter>)
    requires NeverOverwrites(cs) && WellListed(Store(listing, DocumentsAfter(cs)))
    requires AllMirror(lib, field, Store(listing, DocumentsAfter(cs))) && OnField(field, pushed) && Faithful(lib, pushed)
    ensures multiset(LookedUp(lib, field, cs, pushed)) == multiset(Scanned(lib, cs, listing, pushed))
  {
    var store, rows, key := Store(listing, DocumentsAfter(cs)), RowsAfter(lib, field, cs), lib.show(pushed[0].value);
    RunIsIndexed(lib, field, cs, listing);
    ListsAreExactIff(lib, field, cs);
    var told := Told(lib, field, cs);
    assert told[..|told|] == told;
    assert Exact(Run(false, told));
    AgreesIff(lib, field, store, rows, pushed);
    assert Agrees(lib, store, rows, pushed);
  }

  /** With overwriting nothing the scan finds is missed, but the look-up may give more. */
  lemma RunCovers(lib: Library, field: string, cs: seq<Change>, listing: seq<string>, pushed: seq<Filter>, id: string)
    requires WellListed(Store(listing, DocumentsAfter(cs)))
    requires AllMirror(lib, field, Store(listing, DocumentsAfter(cs))) && OnField(field, pushed) && Faithful(lib, pushed)
    requires id in Scanned(lib, cs, listing, pushed)
    ensures id in LookedUp(lib, field, cs, pushed)
  {
    var store, rows, key := Store(listing, DocumentsAfter(cs)), RowsAfter(lib, field, cs), lib.show(pushed[0].value);
    SelectedMembers(lib, store, listing, pushed, id);
    RunIsIndexed(lib, field, cs, listing);
    ListOfScan(lib, field, store, rows, pushed);
    ListMembers(lib, field, store, rows, key, id);
    RunMissesNothing(Told(lib, field, cs));
    assert IsLive(rows, id);
    var row :| row in rows && row.id == id;
    assert key in row.keys;
  }

  /**
   * An overwrite always spoils the list of the document's old key: the id stays there when the key changes,
   * and is there at least twice when it does not. No later filter drops it. The numbers are exactly one and
   * two for the first overwrite of a run.
   */
  lemma OverwriteLeavesAStaleEntry(lib: Library, field: string, cs: seq<Change>, id: string, doc: Fields)
    requires id in DocumentsAfter(cs)
    ensures var key := CompositeKey(lib, [field], DocumentsAfter(cs)[id]);
      var least := if CompositeKey(lib, [field], doc) == key then 2 else 1;
      var entries := multiset(Bucket(Run(false, Told(lib, field, cs + [Write(id, doc)])).data, key))[id];
      entries >= least && (NeverOverwrites(cs) ==> entries == least)
  {
    var key, next := CompositeKey(lib, [field], DocumentsAfter(cs)[id]), CompositeKey(lib, [field], doc);
    SnocFront(cs, Write(id, doc));
    ToldLast(lib, field, cs + [Write(id, doc)]);
    ListHasIt(lib, field, cs, id);
    hide *;
    ListAfterWrite(Run(false, Told(lib, field, cs)), next, id, key);
  }

  lemma ListAfterWrite(t: Table, next: string, id: string, key: string)
    ensures Bucket(Step(false, t, Put(Row(id, [next]))).data, key) == Bucket(t.data, key) + (if next == key then [id] else [])
  {
    AddOneEntry(t.data, false, next, id);
  }

  lemma ListHasIt(lib: Library, field: string, cs: seq<Change>, id: string)
    requires id in DocumentsAfter(cs)
    ensures var entries := multiset(Bucket(Run(false, Told(lib, field, cs)).data, CompositeKey(lib, [field], DocumentsAfter(cs)[id])))[id];
      entries >= 1 && (NeverOverwrites(cs) ==> entries == 1)
  {
    var key, t := CompositeKey(lib, [field], DocumentsAfter(cs)[id]), Run(false, Told(lib, field, cs));
    RunIsIndexed(lib, field, cs, []);
    RunMissesNothing(Told(lib, field, cs));
    LiveIsListed(lib, field, Store([], DocumentsAfter(cs)), t, id);
    if NeverOverwrites(cs) {
      ListHasItOnce(lib, field, cs, key, id);
    }
    hide *;
  }

  lemma LiveIsListed(lib: Library, field: string, store: Store, t: Table, id: string)
    requires Indexed(lib, field, store, t.rows) && NothingMissed(t) && id in store.docs
    ensures id in Bucket(t.data, CompositeKey(lib, [field], store.docs[id]))
  {
    hide CompositeKey;
    assert IsLive(t.rows, id);
    var row :| row in t.rows && row.id == id;
    assert CompositeKey(lib, [field], store.docs[id]) in row.keys;
  }

  lemma ListHasItOnce(lib: Library, field: string, cs: seq<Change>, key: string, id: string)
    requires NeverOverwrites(cs)
    ensures multiset(Bucket(Run(false, Told(lib, field, cs)).data, key))[id] <= 1
  {
    var told := Told(lib, field, cs);
    var t := Run(false, told);
    ListsAreExactIff(lib, field, cs);
    assert told[..|told|] == told;
    assert Exact(t);
    RunIsIndexed(lib, field, cs, []);
    ListMembers(lib, field, Store([], DocumentsAfter(cs)), t.rows, key, id);
    hide Indexed, Run, Told, CompositeKey;
    RepeatsIff(Expected(t.rows, key));
    assert Occurrences(Expected(t.rows, key), id) <= 1;
  }
}
