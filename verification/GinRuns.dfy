/** What the lists of a GIN index hold after any run of writes and deletions, in terms of the documents alone. */
module GinRuns {
  import opened Json
  import opened Sequences
  import opened Changes
  import opened Postings
  import opened Tokens
  import opened WordCounts
  import opened SecondaryIndex

  /** The index takes the document and the word stands in it. */
  ghost predicate HasWord(lib: Library, partialExpr: string, doc: Fields, word: string) {
    MatchesPartial(lib, partialExpr, doc) && StandsIn(lib, Object(doc), word)
  }

  ghost predicate InIndex(lib: Library, partialExpr: string, doc: Fields) {
    exists word: string :: HasWord(lib, partialExpr, doc, word)
  }

  ghost predicate WordsOnce(lib: Library, partialExpr: string, doc: Fields) {
    MatchesPartial(lib, partialExpr, doc) ==> SaysOnce(lib, Object(doc))
  }

  /** Every document that is written says no word twice, and none that the index holds is overwritten. */
  ghost predicate WordClean(lib: Library, partialExpr: string, cs: seq<Change>) {
    cs == [] || (WordClean(lib, partialExpr, Front(cs)) && WordCleanStep(lib, partialExpr, DocumentsAfter(Front(cs)), Last(cs)))
  }

  ghost predicate WordCleanStep(lib: Library, partialExpr: string, docs: map<string, Fields>, c: Change) {
    c.Write? ==> WordsOnce(lib, partialExpr, c.doc) && (c.id in docs ==> !InIndex(lib, partialExpr, docs[c.id]))
  }

  // ---------------------------------------------------------------- rows and documents

  /** The keys that the document goes under. */
  ghost predicate KeysFit(lib: Library, partialExpr: string, doc: Fields, keys: seq<string>) {
    if MatchesPartial(lib, partialExpr, doc) then multiset(keys) == TokensOf(lib, Object(doc)) else keys == []
  }

  lemma KeysAreWords(lib: Library, partialExpr: string, doc: Fields, keys: seq<string>)
    requires KeysFit(lib, partialExpr, doc, keys)
    ensures forall word: string :: word in keys <==> HasWord(lib, partialExpr, doc, word)
    ensures keys == [] <==> !InIndex(lib, partialExpr, doc)
    ensures NoRepeats(keys) <==> WordsOnce(lib, partialExpr, doc)
  {
    forall word: string ensures word in keys <==> HasWord(lib, partialExpr, doc, word) {
      TokenStandsSomewhere(lib, Object(doc), word);
      assert word in keys <==> word in multiset(keys);
    }
    if keys != [] {
      assert keys[0] in keys;
      assert HasWord(lib, partialExpr, doc, keys[0]);
    }
    if InIndex(lib, partialExpr, doc) {
      var word: string :| HasWord(lib, partialExpr, doc, word);
      assert word in keys;
    }
    SaysOnceIff(lib, Object(doc));
    hide TokensOf, SaysOnce, HasWord;
    RepeatsIff(keys);
    forall word: string
      ensures MatchesPartial(lib, partialExpr, doc) ==> (CountsOnce(lib, Object(doc), word) <==> Occurrences(keys, word) <= 1)
    {
    }
  }

  ghost predicate RowsFit(lib: Library, partialExpr: string, docs: map<string, Fields>, rows: seq<Row>) {
    && DistinctIDs(rows)
    && (forall row | row in rows :: row.id in docs && KeysFit(lib, partialExpr, docs[row.id], row.keys))
    && (forall id | id in docs :: IsLive(rows, id))
  }

  ghost predicate AllTold(lib: Library, fields: seq<string>, partialExpr: string, cs: seq<Change>, told: seq<Command>) {
    |cs| == |told| && forall i | 0 <= i < |cs| :: Tells(lib, GIN, fields, partialExpr, cs[i], told[i])
  }

  lemma AllToldFront(lib: Library, fields: seq<string>, partialExpr: string, cs: seq<Change>, told: seq<Command>)
    requires AllTold(lib, fields, partialExpr, cs, told) && cs != []
    ensures AllTold(lib, fields, partialExpr, Front(cs), Front(told))
    ensures Tells(lib, GIN, fields, partialExpr, Last(cs), Last(told))
  {
    hide Tells;
    forall i | 0 <= i < |Front(cs)| ensures Tells(lib, GIN, fields, partialExpr, Front(cs)[i], Front(told)[i]) {
      assert Front(cs)[i] == cs[i] && Front(told)[i] == told[i];
    }
  }

  lemma StepFits(lib: Library, fields: seq<string>, partialExpr: string, docs: map<string, Fields>, t: Table, c: Change, told: Command)
    requires RowsFit(lib, partialExpr, docs, t.rows) && Tells(lib, GIN, fields, partialExpr, c, told)
    requires DistinctIDs(Step(false, t, told).rows)
    ensures RowsFit(lib, partialExpr, Changed(docs, c), Step(false, t, told).rows)
  {
    hide DistinctIDs, TokensOf, MatchesPartial, AddEntries, RemoveEntries, Without, IsLive;
    var docs', rows' := Changed(docs, c), Step(false, t, told).rows;
    var target := TargetOf(c);
    forall row | row in rows' ensures row.id in docs' && KeysFit(lib, partialExpr, docs'[row.id], row.keys) {
      WithoutKeeps(t.rows, target, row);
    }
    forall id | id in docs' ensures IsLive(rows', id) {
      LiveAfter(t.rows, target, if told.Put? then told.row else Row(target, []));
    }
  }

  lemma {:induction false} RunFits(lib: Library, fields: seq<string>, partialExpr: string, cs: seq<Change>, told: seq<Command>)
    requires AllTold(lib, fields, partialExpr, cs, told)
    ensures RowsFit(lib, partialExpr, DocumentsAfter(cs), Run(false, told).rows)
  {
    RunIsDistinct(false, told);
    if cs != [] {
      AllToldFront(lib, fields, partialExpr, cs, told);
      RunFits(lib, fields, partialExpr, Front(cs), Front(told));
      hide RowsFit, AllTold, Tells, DistinctIDs, Step;
      StepFits(lib, fields, partialExpr, DocumentsAfter(Front(cs)), Run(false, Front(told)), Last(cs), Last(told));
    }
  }

  // ---------------------------------------------------------------- the condition

  lemma StepCleanIff(lib: Library, fields: seq<string>, partialExpr: string, docs: map<string, Fields>, rows: seq<Row>,
                     c: Change, told: Command)
    requires RowsFit(lib, partialExpr, docs, rows) && Tells(lib, GIN, fields, partialExpr, c, told)
    ensures Clean(false, rows, told) <==> WordCleanStep(lib, partialExpr, docs, c)
  {
    hide DistinctIDs, TokensOf, MatchesPartial, InIndex, WordsOnce;
    if c.Write? {
      KeysAreWords(lib, partialExpr, c.doc, told.row.keys);
      forall r | r in rows && r.id == c.id ensures r.keys == [] <==> !InIndex(lib, partialExpr, docs[c.id]) {
        KeysAreWords(lib, partialExpr, docs[c.id], r.keys);
      }
      if c.id in docs {
        var r :| r in rows && r.id == c.id;
      }
    }
  }

  lemma {:induction false} RunCleanIff(lib: Library, fields: seq<string>, partialExpr: string, cs: seq<Change>, told: seq<Command>)
    requires AllTold(lib, fields, partialExpr, cs, told)
    ensures CleanAlways(false, told) <==> WordClean(lib, partialExpr, cs)
  {
    if cs != [] {
      AllToldFront(lib, fields, partialExpr, cs, told);
      RunCleanIff(lib, fields, partialExpr, Front(cs), Front(told));
      RunFits(lib, fields, partialExpr, Front(cs), Front(told));
      hide RowsFit, AllTold, Tells, Clean, WordCleanStep, Run;
      StepCleanIff(lib, fields, partialExpr, DocumentsAfter(Front(cs)), Run(false, Front(told)).rows, Last(cs), Last(told));
    }
  }

  // ---------------------------------------------------------------- the lists

  lemma {:induction false} ExpectedHasNoRepeats(rows: seq<Row>, key: string)
    requires DistinctIDs(rows)
    ensures NoRepeats(Expected(rows, key))
    ensures forall id :: id in Expected(rows, key) <==> exists row | row in rows :: row.id == id && key in row.keys
  {
    if rows != [] {
      var front, last := rows[..|rows| - 1], rows[|rows| - 1];
      ExpectedHasNoRepeats(front, key);
      FrontLast(rows);
      assert forall i | 0 <= i < |front| :: front[i] == rows[i] && front[i].id != last.id;
      assert last.id !in Expected(front, key);
      forall id ensures id in Expected(rows, key) <==> exists row | row in rows :: row.id == id && key in row.keys {
        if id in Expected(front, key) {
          var row :| row in front && row.id == id && key in row.keys;
          assert row in rows;
        }
        if row :| row in rows && row.id == id && key in row.keys {
          assert row in front || row == last;
        }
      }
    }
  }

  /** The list of a word is exactly the present documents in which it stands, once each. */
  ghost predicate ListsWord(lib: Library, partialExpr: string, docs: map<string, Fields>, word: string, ids: seq<string>) {
    NoRepeats(ids) && forall id :: id in ids <==> id in docs && HasWord(lib, partialExpr, docs[id], word)
  }

  lemma ExpectedListsWord(lib: Library, partialExpr: string, docs: map<string, Fields>, rows: seq<Row>, word: string)
    requires RowsFit(lib, partialExpr, docs, rows)
    ensures ListsWord(lib, partialExpr, docs, word, Expected(rows, word))
  {
    ExpectedHasNoRepeats(rows, word);
    hide Expected, DistinctIDs, HasWord, TokensOf, MatchesPartial, KeysFit;
    forall id ensures id in Expected(rows, word) <==> id in docs && HasWord(lib, partialExpr, docs[id], word) {
      if id in docs {
        assert IsLive(rows, id);
        var row :| row in rows && row.id == id;
        forall r | r in rows && r.id == id ensures word in r.keys <==> HasWord(lib, partialExpr, docs[id], word) {
          KeysAreWords(lib, partialExpr, docs[id], r.keys);
        }
      }
    }
  }

  /**
   * A GIN index has been exact throughout exactly when no document said a word twice and none that it held was
   * overwritten. Then the list of every word is the present documents in which it stands, once each; it is empty
   * when there are none, as after their deletion.
   */
  lemma GinListsAreExactIff(idx: Index, lib: Library)
    requires idx.Valid() && idx.Tracks(lib) && idx.kind == GIN
    ensures ExactAlways(false, idx.history) <==> WordClean(lib, idx.partialExpr, idx.changes)
    ensures WordClean(lib, idx.partialExpr, idx.changes) ==>
      forall word: string :: ListsWord(lib, idx.partialExpr, DocumentsAfter(idx.changes), word, Bucket(idx.data, word))
  {
    var cs, told := idx.changes, idx.history;
    assert AllTold(lib, idx.fields, idx.partialExpr, cs, told);
    RunCleanIff(lib, idx.fields, idx.partialExpr, cs, told);
    ExactIff(false, told);
    RunFits(lib, idx.fields, idx.partialExpr, cs, told);
    hide WordClean, CleanAlways, RowsFit, ListsWord, DocumentsAfter, AllTold;
    if WordClean(lib, idx.partialExpr, cs) {
      assert told[..|told|] == told;
      assert Exact(Run(false, told));
      forall word: string ensures ListsWord(lib, idx.partialExpr, DocumentsAfter(cs), word, Bucket(idx.data, word)) {
        ExpectedListsWord(lib, idx.partialExpr, DocumentsAfter(cs), Run(false, told).rows, word);
      }
    }
  }

  lemma NothingListed(lib: Library, partialExpr: string, docs: map<string, Fields>, word: string, ids: seq<string>)
    requires ListsWord(lib, partialExpr, docs, word, ids)
    ensures ids == [] <==> forall id | id in docs :: !HasWord(lib, partialExpr, docs[id], word)
  {
    hide HasWord;
    if ids != [] {
      assert ids[0] in ids;
    }
    if id :| id in docs && HasWord(lib, partialExpr, docs[id], word) {
      assert id in ids;
    }
  }

  /** And without any condition a word's list misses no present document in which it stands. */
  lemma GinMissesNothing(idx: Index, lib: Library, id: string, word: string)
    requires idx.Valid() && idx.Tracks(lib) && idx.kind == GIN
    requires id in DocumentsAfter(idx.changes) && HasWord(lib, idx.partialExpr, DocumentsAfter(idx.changes)[id], word)
    ensures id in Bucket(idx.data, word)
  {
    var cs, told := idx.changes, idx.history;
    assert AllTold(lib, idx.fields, idx.partialExpr, cs, told);
    RunFits(lib, idx.fields, idx.partialExpr, cs, told);
    RunMissesNothing(told);
    var rows := Run(false, told).rows;
    hide Run, DocumentsAfter, AllTold, HasWord, KeysFit;
    assert IsLive(rows, id);
    var row :| row in rows && row.id == id;
    KeysAreWords(lib, idx.partialExpr, DocumentsAfter(cs)[id], row.keys);
    assert word in row.keys;
  }
}
