/**
 * Storage, indexes and queries together: what an index created before the data holds after any run of the
 * file storage, and when a query may trust it against the documents that are read back.
 */
module StoredRuns {
  import opened Json
  import opened Sequences
  import opened Changes
  import opened Postings
  import opened Tokens
  import opened Filters
  import opened SecondaryIndex
  import opened Planner
  import opened Executor
  import opened IndexedRuns
  import opened VectorRuns
  import opened GinRuns
  import opened FileStore

  /** The index was there before the first write of its collection. */
  ghost predicate SeenAll(storage: FileStorage, idx: Index)
    reads storage, storage.index, idx
  {
    && idx in storage.index.indexes.Values
    && |idx.changes| == |Of(storage.changes, idx.collection)|
  }

  lemma SeenAllChanges(storage: FileStorage, idx: Index)
    requires storage.Valid() && SeenAll(storage, idx)
    ensures idx.Valid() && idx.Tracks(storage.index.lib) && idx.changes == Of(storage.changes, idx.collection)
  {
    assert IsTail(idx.changes, Of(storage.changes, idx.collection));
    hide FilesFollow;
  }

  // ---------------------------------------------------------------- the history

  lemma {:induction false} TellsAreTold(lib: Library, field: string, partialExpr: string, cs: seq<Change>, told: seq<Command>)
    requires |cs| == |told| && forall i | 0 <= i < |cs| :: Tells(lib, BTree, [field], partialExpr, cs[i], told[i])
    requires multiset(partialExpr)['='] != 1
    ensures told == Told(lib, field, cs)
  {
    if cs != [] {
      var c, t := Last(cs), Last(told);
      forall i | 0 <= i < |Front(cs)| ensures Tells(lib, BTree, [field], partialExpr, Front(cs)[i], Front(told)[i]) {
        assert Front(cs)[i] == cs[i] && Front(told)[i] == told[i];
      }
      TellsAreTold(lib, field, partialExpr, Front(cs), Front(told));
      assert Tells(lib, BTree, [field], partialExpr, c, t);
      if c.Write? {
        PartialExpressionMeaning(lib, partialExpr, "", "", c.doc);
      }
      hide MatchesPartial, CompositeKey, Told;
      assert t == ToldOf(lib, field, c);
      FrontLast(told);
      LastTold(lib, field, cs);
    }
  }

  lemma LastTold(lib: Library, field: string, cs: seq<Change>)
    requires cs != []
    ensures Told(lib, field, cs) == Told(lib, field, Front(cs)) + [ToldOf(lib, field, Last(cs))]
  {
  }

  /** The uniqueness flag bears on the lists, not on the rows. */
  lemma {:induction false} RowsIgnoreFlag(unique: bool, cs: seq<Command>)
    ensures Run(unique, cs).rows == Run(false, cs).rows
  {
    if cs != [] {
      RowsIgnoreFlag(unique, Front(cs));
    }
  }

  /** A B-tree index on one field whose condition takes every document, as long as the data. */
  ghost predicate Follower(storage: FileStorage, idx: Index)
    reads storage, storage.index, idx
  {
    SeenAll(storage, idx) && idx.kind == BTree && |idx.fields| == 1 && multiset(idx.partialExpr)['='] != 1
  }

  /**
   * After any run of the storage: such an index was told exactly the changes of its collection, its rows are
   * the stored documents, and, unless it is unique, its lists have been exact throughout exactly when no
   * document was overwritten.
   */
  lemma FollowerIsIndexed(storage: FileStorage, idx: Index, listing: seq<string>)
    requires storage.Valid() && Follower(storage, idx)
    ensures var lib, cs := storage.index.lib, Of(storage.changes, idx.collection);
      && idx.history == Told(lib, idx.fields[0], cs)
      && Indexed(lib, idx.fields[0], Store(listing, DocumentsAfter(cs)), idx.Live())
      && (!idx.unique ==> (CleanAlways(idx.ListsAreUnique(), idx.history) <==> NeverOverwrites(cs)))
  {
    var lib, cs, field := storage.index.lib, Of(storage.changes, idx.collection), idx.fields[0];
    SeenAllChanges(storage, idx);
    assert idx.fields == [field];
    TellsAreTold(lib, field, idx.partialExpr, cs, idx.history);
    RowsIgnoreFlag(idx.ListsAreUnique(), idx.history);
    RunIsIndexed(lib, field, cs, listing);
    CleanIffNeverOverwrites(lib, field, cs);
    hide *;
  }

  // ---------------------------------------------------------------- the documents that are read back

  ghost function FiledIDs(storage: FileStorage, collection: string): set<string>
    reads storage
  {
    set path | path in storage.files && path.0 == collection :: path.1
  }

  /** What `Find` gives, id by id. */
  ghost function ReadDocuments(storage: FileStorage, collection: string, readFile: string -> Option<Value>): map<string, Fields>
    reads storage
  {
    map id | id in FiledIDs(storage, collection) && storage.Reads(collection, id, readFile).Present?
      :: storage.Reads(collection, id, readFile).doc
  }

  ghost predicate AllReadBack(storage: FileStorage, collection: string, readFile: string -> Option<Value>)
    reads storage
  {
    var docs := DocumentsAfter(Of(storage.changes, collection));
    forall id | id in docs :: storage.ReadsBack(docs[id], (collection, id) in storage.keys, readFile)
  }

  /** After any run, the storage reads as the documents that were written, exactly when each of them reads back. */
  lemma ReadsAsWrittenIff(storage: FileStorage, collection: string, readFile: string -> Option<Value>)
    requires storage.Valid()
    ensures ReadDocuments(storage, collection, readFile) == DocumentsAfter(Of(storage.changes, collection))
      <==> AllReadBack(storage, collection, readFile)
  {
    var read, docs := ReadDocuments(storage, collection, readFile), DocumentsAfter(Of(storage.changes, collection));
    forall id
      ensures id in FiledIDs(storage, collection) <==> id in docs
      ensures id in docs ==>
        (storage.Reads(collection, id, readFile) == Present(docs[id])
         <==> storage.ReadsBack(docs[id], (collection, id) in storage.keys, readFile))
    {
      storage.ReadBackIff(collection, id, readFile);
      assert (collection, id) in storage.files ==> (collection, id).1 in FiledIDs(storage, collection);
    }
    hide Of, DocumentsAfter, FiledIDs;
    if AllReadBack(storage, collection, readFile) {
      assert read == docs;
    } else {
      var id :| id in docs && !storage.ReadsBack(docs[id], (collection, id) in storage.keys, readFile);
      assert id !in read || read[id] != docs[id];
    }
  }

  // ---------------------------------------------------------------- queries

  /**
   * After any run that never overwrites and whose documents read back, a query may use the index against the
   * stored documents: what `ExecuteGet` promises of trustworthy indexes applies.
   */
  lemma FollowerIsTrustworthyIff(storage: FileStorage, idx: Index, listing: seq<string>, filters: seq<Filter>,
                                 readFile: string -> Option<Value>)
    requires storage.Valid() && Follower(storage, idx) && !idx.unique && AllReadBack(storage, idx.collection, readFile)
    ensures var lib, store := storage.index.lib, Store(listing, ReadDocuments(storage, idx.collection, readFile));
      Trustworthy(lib, idx, store, filters) <==>
        && NeverOverwrites(Of(storage.changes, idx.collection))
        && idx.name == idx.collection && WellListed(store) && AllMirror(lib, idx.fields[0], store)
        && Taken(idx, filters, true) != [] && Faithful(lib, Taken(idx, filters, true))
  {
    ReadsAsWrittenIff(storage, idx.collection, readFile);
    FollowerIsIndexed(storage, idx, listing);
    SeenAllChanges(storage, idx);
    hide Indexed, CleanAlways, WellListed, AllMirror, Taken, Faithful, FilesFollow, AllReadBack, ReadDocuments, Told;
  }

  /** An index whose look-up finds the documents: the planner takes it under its own name and pushes only what it answers. */
  ghost predicate Fit(storage: FileStorage, idx: Index, store: Store, filters: seq<Filter>)
    reads storage, storage.index, idx
  {
    && Follower(storage, idx) && !idx.unique && idx.name == idx.collection
    && Taken(idx, filters, true) != []
    && AllMirror(storage.index.lib, idx.fields[0], store) && Faithful(storage.index.lib, Taken(idx, filters, true))
  }

  /** So after such a run `ExecuteGet` answers as the scan does when every index it may choose is fit. */
  lemma CandidatesAreTrustworthy(storage: FileStorage, collection: string, listing: seq<string>, filters: seq<Filter>,
                                readFile: string -> Option<Value>)
    requires storage.Valid() && AllReadBack(storage, collection, readFile) && NeverOverwrites(Of(storage.changes, collection))
    requires var store := Store(listing, ReadDocuments(storage, collection, readFile));
      WellListed(store) && forall idx | idx in Candidates(storage.index, collection, filters) :: Fit(storage, idx, store, filters)
    ensures var store := Store(listing, ReadDocuments(storage, collection, readFile));
      forall idx | idx in Candidates(storage.index, collection, filters) :: Trustworthy(storage.index.lib, idx, store, filters)
  {
    var store := Store(listing, ReadDocuments(storage, collection, readFile));
    hide AllReadBack, ReadDocuments, WellListed, AllMirror, Faithful, Trustworthy, FilesFollow;
    forall idx | idx in Candidates(storage.index, collection, filters)
      ensures Trustworthy(storage.index.lib, idx, store, filters)
    {
      assert Fit(storage, idx, store, filters);
      FollowerIsTrustworthyIff(storage, idx, listing, filters, readFile);
    }
  }

  /**
   * After any run, a GIN index created before the data lists under every word exactly the stored documents in which
   * it stands, once each, if no document said a word twice and none it held was overwritten.
   */
  lemma WordsAfterRun(storage: FileStorage, idx: Index, word: string)
    requires storage.Valid() && SeenAll(storage, idx) && idx.kind == GIN
    ensures var lib, cs := storage.index.lib, Of(storage.changes, idx.collection);
      WordClean(lib, idx.partialExpr, cs) ==> ListsWord(lib, idx.partialExpr, DocumentsAfter(cs), word, Bucket(idx.data, word))
  {
    SeenAllChanges(storage, idx);
    GinListsAreExactIff(idx, storage.index.lib);
    hide WordClean, ListsWord, FilesFollow;
  }

  /**
   * After any run, a vector index created before the data holds the vectors given last, and they are those of
   * the stored documents when no document with a vector was overwritten by one without.
   */
  lemma VectorsAfterRun(storage: FileStorage, idx: Index)
    requires storage.Valid() && SeenAll(storage, idx) && idx.kind == HNSW
    ensures var lib, cs := storage.index.lib, Of(storage.changes, idx.collection);
      && idx.vectors == VectorsAfter(lib, idx.partialExpr, cs)
      && (KeepsVectors(lib, idx.partialExpr, cs) ==> idx.vectors == CarriedVectors(lib, idx.partialExpr, DocumentsAfter(cs)))
  {
    var lib, cs := storage.index.lib, Of(storage.changes, idx.collection);
    SeenAllChanges(storage, idx);
    VectorsFollowIff(lib, idx.partialExpr, cs);
    hide KeepsVectors, VectorsAfter, CarriedVectors, DocumentsAfter, FilesFollow, Of;
    if KeepsVectors(lib, idx.partialExpr, cs) {
      assert cs[..|cs|] == cs;
      assert Faithfully(lib, idx.partialExpr, cs[..|cs|]);
    }
  }
}
