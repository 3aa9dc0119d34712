/**
 * Running a plan: a scan of every document, or a look into an index followed by the remaining filters. When
 * the two give the same documents, exactly.
 */
module Executor {
  import opened Json
  import opened Sequences
  import opened Postings
  import Text
  import opened Tokens
  import opened Filters
  import opened SecondaryIndex
  import opened Planner
  import Sorting

  /** A collection's documents by id, and the order the directory lists them in. */
  datatype Store = Store(listing: seq<string>, docs: map<string, Fields>)

  ghost predicate WellListed(store: Store) {
    && NoRepeats(store.listing)
    && (forall id :: id in store.listing <==> id in store.docs)
  }

  function Limited<T>(s: seq<T>, limit: int): (r: seq<T>)
    ensures r <= s && |r| == if 0 < limit < |s| then limit else |s|
  {
    if limit > 0 && |s| > limit then s[..limit] else s
  }

  /** The ids whose document is there and passes the filters, in the order given. */
  ghost function Selected(lib: Library, store: Store, ids: seq<string>, filters: seq<Filter>): (r: seq<string>)
    ensures forall id | id in r :: id in store.docs
  {
    if ids == [] then []
    else
      var rest, id := Selected(lib, store, Front(ids), filters), Last(ids);
      if id in store.docs && MatchesAll(lib, store.docs[id], filters) then rest + [id] else rest
  }

  ghost predicate Stored(store: Store, ids: seq<string>) {
    forall id | id in ids :: id in store.docs
  }

  lemma LimitedAreStored(store: Store, ids: seq<string>, limit: int)
    requires Stored(store, ids)
    ensures Stored(store, Limited(ids, limit))
    ensures DocsOf(store, Limited(ids, limit)) == Limited(DocsOf(store, ids), limit)
  {
  }

  function DocsOf(store: Store, ids: seq<string>): seq<Fields>
    requires Stored(store, ids)
  {
    seq(|ids|, i requires 0 <= i < |ids| => store.docs[ids[i]])
  }

  lemma {:induction false} SelectedMembers(lib: Library, store: Store, ids: seq<string>, filters: seq<Filter>, id: string)
    ensures id in Selected(lib, store, ids, filters)
       <==> id in ids && id in store.docs && MatchesAll(lib, store.docs[id], filters)
    ensures NoRepeats(ids) ==> NoRepeats(Selected(lib, store, ids, filters))
    ensures |Selected(lib, store, ids, filters)| <= |ids|
  {
    if ids != [] {
      SelectedMembers(lib, store, Front(ids), filters, id);
      SelectedMembers(lib, store, Front(ids), filters, Last(ids));
      FrontLast(ids);
    }
  }

  /** The places whose document is there and passes the filters, from the first to the last. */
  ghost predicate ArePassing(lib: Library, store: Store, ids: seq<string>, filters: seq<Filter>, at: seq<nat>) {
    && (forall i, j | 0 <= i < j < |at| :: at[i] < at[j])
    && (forall k: nat :: k in at <==> k < |ids| && ids[k] in store.docs && MatchesAll(lib, store.docs[ids[k]], filters))
  }

  predicate AreAt(ids: seq<string>, at: seq<nat>, chosen: seq<string>) {
    |chosen| == |at| && forall i | 0 <= i < |at| :: at[i] < |ids| && chosen[i] == ids[at[i]]
  }

  lemma OneMorePassing(lib: Library, store: Store, ids: seq<string>, filters: seq<Filter>, at: seq<nat>, chosen: seq<string>)
    requires ids != [] && ArePassing(lib, store, Front(ids), filters, at) && AreAt(Front(ids), at, chosen)
    ensures var n := |ids| - 1;
      if ids[n] in store.docs && MatchesAll(lib, store.docs[ids[n]], filters)
      then ArePassing(lib, store, ids, filters, at + [n]) && AreAt(ids, at + [n], chosen + [ids[n]])
      else ArePassing(lib, store, ids, filters, at) && AreAt(ids, at, chosen)
  {
    hide MatchesAll;
    var n := |ids| - 1;
    assert forall k: nat | k < n :: Front(ids)[k] == ids[k];
    assert forall i | 0 <= i < |at| :: at[i] in at;
    assert forall k: nat :: k in at + [n] <==> k in at || k == n;
  }

  lemma NothingPasses(lib: Library, store: Store, filters: seq<Filter>)
    ensures ArePassing(lib, store, [], filters, []) && AreAt([], [], Selected(lib, store, [], filters))
  {
  }

  lemma {:induction false} SelectedInOrder(lib: Library, store: Store, ids: seq<string>, filters: seq<Filter>) returns (at: seq<nat>)
    ensures ArePassing(lib, store, ids, filters, at) && AreAt(ids, at, Selected(lib, store, ids, filters))
  {
    hide MatchesAll, ArePassing, AreAt;
    if ids == [] {
      NothingPasses(lib, store, filters);
      return [];
    } else {
      var n := |ids| - 1;
      at := SelectedInOrder(lib, store, Front(ids), filters);
      OneMorePassing(lib, store, ids, filters, at, Selected(lib, store, Front(ids), filters));
      at := if ids[n] in store.docs && MatchesAll(lib, store.docs[ids[n]], filters) then at + [n] else at;
    }
  }

  /** What a scan collects are the documents at these places, in this order, each once for each place. */
  lemma ScanInOrder(lib: Library, store: Store, ids: seq<string>, filters: seq<Filter>) returns (at: seq<nat>)
    ensures ArePassing(lib, store, ids, filters, at)
    ensures var docs := DocsOf(store, Selected(lib, store, ids, filters));
      |docs| == |at| && forall i | 0 <= i < |at| ::
        at[i] < |ids| && ids[at[i]] in store.docs && docs[i] == store.docs[ids[at[i]]]
  {
    at := SelectedInOrder(lib, store, ids, filters);
    hide ArePassing;
  }

  // ---------------------------------------------------------------- the three ways to run a plan

  /** The loop both document scans share: load, test, keep. */
  method Collect(lib: Library, store: Store, ids: seq<string>, filters: seq<Filter>, limit: int)
    returns (results: seq<Fields>)
    ensures results == Limited(DocsOf(store, Selected(lib, store, ids, filters)), limit)
  {
    results := [];
    for i := 0 to |ids|
      invariant results == DocsOf(store, Selected(lib, store, ids[..i], filters))
    {
      NextSelected(lib, store, ids, filters, i);
      if ids[i] in store.docs {
        var ok := MatchesFilters(lib, store.docs[ids[i]], filters);
        if ok {
          results := results + [store.docs[ids[i]]];
        }
      }
    }
    assert ids[..|ids|] == ids;
    if limit > 0 && |results| > limit {
      results := results[..limit];
    }
  }

  lemma NextSelected(lib: Library, store: Store, ids: seq<string>, filters: seq<Filter>, i: nat)
    requires i < |ids|
    ensures Selected(lib, store, ids[..i + 1], filters)
      == if ids[i] in store.docs && MatchesAll(lib, store.docs[ids[i]], filters)
         then Selected(lib, store, ids[..i], filters) + [ids[i]] else Selected(lib, store, ids[..i], filters)
  {
    assert Front(ids[..i + 1]) == ids[..i] && Last(ids[..i + 1]) == ids[i];
  }

  datatype Answer = Failed | Documents(docs: seq<Fields>) | IDs(ids: seq<string>)

  /** The index plans look up: the collection's name is taken to be the index's own name. */
  ghost function Looked(manager: IndexManager, name: string): Option<Index>
    reads manager
  {
    var key := IndexManager.KeyOf(name, name);
    if key in manager.indexes && !manager.indexes[key].kind.Other? then Some(manager.indexes[key]) else None
  }

  /** What the look-up gives: the list under the first pushed value, and nothing at all unless it is a B-tree. */
  ghost function Found(lib: Library, idx: Index, filters: seq<Filter>): seq<string>
    requires filters != []
    reads idx
  {
    if idx.kind == BTree then Bucket(idx.data, lib.show(filters[0].value)) else []
  }

  /** `listed` says whether the collection could be listed at all. */
  method ExecuteFullScan(lib: Library, plan: Plan, store: Store, listed: bool) returns (r: Answer)
    ensures r == if listed
      then Documents(Limited(DocsOf(store, Selected(lib, store, store.listing, plan.postFilters)), plan.limit)) else Failed
  {
    if !listed {
      return Failed;
    }
    var results := Collect(lib, store, store.listing, plan.postFilters, plan.limit);
    r := Documents(results);
  }

  method LookUp(manager: IndexManager, plan: Plan) returns (r: Option<seq<string>>)
    requires manager.Valid() && plan.index.Some? && plan.indexFilters != []
    ensures r.Some? <==> Looked(manager, plan.index.value.name).Some?
    ensures r.Some? ==> r.value == Found(manager.lib, Looked(manager, plan.index.value.name).value, plan.indexFilters)
  {
    var name := plan.index.value.name;
    r := manager.QueryIndex(name, name, Query(Some(plan.indexFilters[0].value), None, None, None));
  }

  method ExecuteIndexScan(plan: Plan, manager: IndexManager, store: Store) returns (r: Answer)
    requires manager.Valid() && plan.index.Some? && plan.indexFilters != []
    ensures r.Failed? <==> Looked(manager, plan.index.value.name).None?
    ensures !r.Failed? ==>
      var found := Found(manager.lib, Looked(manager, plan.index.value.name).value, plan.indexFilters);
      r == Documents(Limited(DocsOf(store, Selected(manager.lib, store, found, plan.postFilters)), plan.limit))
  {
    var found := LookUp(manager, plan);
    match found
    case None => r := Failed;
    case Some(ids) =>
      var results := Collect(manager.lib, store, ids, plan.postFilters, plan.limit);
      r := Documents(results);
  }

  /** No document is looked at: the list itself is the answer. */
  method ExecuteIndexOnlyScan(plan: Plan, manager: IndexManager) returns (r: Answer)
    requires manager.Valid() && plan.index.Some? && plan.indexFilters != []
    ensures r.Failed? <==> Looked(manager, plan.index.value.name).None?
    ensures !r.Failed? ==>
      r == IDs(Limited(Found(manager.lib, Looked(manager, plan.index.value.name).value, plan.indexFilters), plan.limit))
  {
    var found := LookUp(manager, plan);
    match found
    case None => r := Failed;
    case Some(ids) =>
      var docIDs := ids;
      if plan.limit > 0 && |docIDs| > plan.limit {
        docIDs := docIDs[..plan.limit];
      }
      r := IDs(docIDs);
  }

  /** The chosen index is the one looked up exactly when it carries its collection's name. */
  lemma ChosenIndexIsReadIff(manager: IndexManager, idx: Index)
    requires manager.Valid() && IndexManager.KeyOf(idx.collection, idx.name) in manager.indexes && !idx.kind.Other?
    requires manager.indexes[IndexManager.KeyOf(idx.collection, idx.name)] == idx
    ensures Looked(manager, idx.name) == Some(idx) <==> idx.collection == idx.name
  {
    KeyIsInjective(idx.collection, idx.name, idx.name);
  }

  lemma KeyIsInjective(a: string, b: string, name: string)
    ensures IndexManager.KeyOf(a, name) == IndexManager.KeyOf(b, name) <==> a == b
  {
    var x, y := IndexManager.KeyOf(a, name), IndexManager.KeyOf(b, name);
    if x == y {
      assert |a| == |b| && x[..|a|] == a && y[..|b|] == b;
    }
  }

  // ---------------------------------------------------------------- index and scan agree

  /** Every document of the store went under its key, and nothing else did: the index was there before the data. */
  ghost predicate IndexedBy(lib: Library, fields: seq<string>, store: Store, rows: seq<Row>) {
    && DistinctIDs(rows)
    && (forall row | row in rows :: row.id in store.docs && row.keys == [CompositeKey(lib, fields, store.docs[row.id])])
    && (forall id | id in store.docs :: IsLive(rows, id))
  }

  ghost predicate Indexed(lib: Library, field: string, store: Store, rows: seq<Row>) {
    IndexedBy(lib, [field], store, rows)
  }

  /** The indexed top-level field repeats the payload field of the same name, or both are missing. */
  predicate Mirrors(lib: Library, field: string, doc: Fields) {
    && (field in doc <==> HasPayload(doc) && field in doc["payload"].fields)
    && (field in doc ==> lib.show(doc[field]) == lib.show(doc["payload"].fields[field]))
    && HasPayload(doc)
  }

  ghost predicate AllMirror(lib: Library, field: string, store: Store) {
    forall id | id in store.docs :: Mirrors(lib, field, store.docs[id])
  }

  /** The list under the pushed value holds the same ids as a scan with the pushed filters. */
  ghost predicate Agrees(lib: Library, store: Store, rows: seq<Row>, pushed: seq<Filter>)
    requires pushed != []
  {
    multiset(Expected(rows, lib.show(pushed[0].value))) == multiset(Selected(lib, store, store.listing, pushed))
  }

  ghost predicate AlwaysAgrees(lib: Library, field: string, pushed: seq<Filter>)
    requires pushed != []
  {
    forall store, rows | WellListed(store) && AllMirror(lib, field, store) && Indexed(lib, field, store, rows) ::
      Agrees(lib, store, rows, pushed)
  }

  /** Whether a filter accepts a value, from the printed forms alone. */
  predicate Accepts(operator: string, shown: string, s: string) {
    match operator
    case "=" => s == shown
    case "!=" => s != shown
    case ">" => Less(shown, s)
    case "<" => Less(s, shown)
    case ">=" => !Less(s, shown)
    case "<=" => !Less(shown, s)
    case "CONTAINS" => Text.Contains(s, shown)
    case "STARTS_WITH" => shown <= s
    case _ => false
  }

  lemma AcceptsMeansMatches(lib: Library, payload: Fields, f: Filter)
    ensures MatchesFilter(lib, payload, f) <==> f.key in payload && Accepts(f.operator, lib.show(f.value), lib.show(payload[f.key]))
  {
    if f.key in payload {
      LessIsTrichotomous(lib.show(payload[f.key]), lib.show(f.value));
    }
  }

  /** The pushed filters together accept the first one's printed value and no other text, and that value is not empty. */
  ghost predicate Faithful(lib: Library, pushed: seq<Filter>)
    requires pushed != []
  {
    && lib.show(pushed[0].value) != ""
    && forall s: string :: s == lib.show(pushed[0].value) <==> AcceptedByAll(lib, pushed, s)
  }

  ghost predicate AcceptedByAll(lib: Library, pushed: seq<Filter>, s: string) {
    forall f | f in pushed :: Accepts(f.operator, lib.show(f.value), s)
  }

  ghost predicate OnField(field: string, pushed: seq<Filter>) {
    pushed != [] && forall f | f in pushed :: f.key == field
  }

  lemma KeyOfOneField(lib: Library, field: string, doc: Fields)
    ensures CompositeKey(lib, [field], doc) == if field in doc then lib.show(doc[field]) else ""
  {
    assert [field][..0] == [];
    assert Parts(lib, [], doc) == [];
    assert Parts(lib, [field], doc) == if field in doc then [lib.show(doc[field])] else [];
  }

  /** Which ids the list holds. */
  lemma ListMembers(lib: Library, field: string, store: Store, rows: seq<Row>, key: string, id: string)
    requires Indexed(lib, field, store, rows)
    ensures id in Expected(rows, key) <==> id in store.docs && CompositeKey(lib, [field], store.docs[id]) == key
    ensures NoRepeats(Expected(rows, key))
  {
    ListMembersBy(lib, [field], store, rows, key, id);
  }

  lemma ListMembersBy(lib: Library, fields: seq<string>, store: Store, rows: seq<Row>, key: string, id: string)
    requires IndexedBy(lib, fields, store, rows)
    ensures id in Expected(rows, key) <==> id in store.docs && CompositeKey(lib, fields, store.docs[id]) == key
    ensures NoRepeats(Expected(rows, key))
  {
    ExpectedWithout(rows, id, key);
    ExpectedOnce(rows, key);
    if id in store.docs && CompositeKey(lib, fields, store.docs[id]) == key {
      assert IsLive(rows, id);
      var row :| row in rows && row.id == id;
      assert key in row.keys;
    }
  }

  lemma {:induction false} ExpectedOnce(rows: seq<Row>, key: string)
    requires DistinctIDs(rows)
    ensures NoRepeats(Expected(rows, key))
  {
    if rows != [] {
      ExpectedOnce(Front(rows), key);
      ExpectedWithout(Front(rows), "", key);
      FrontLast(rows);
      var before := Expected(Front(rows), key);
      assert Last(rows).id !in before;
      assert Expected(rows, key) == if key in Last(rows).keys then before + [Last(rows).id] else before;
    }
  }

  lemma MatchesPushed(lib: Library, field: string, pushed: seq<Filter>, doc: Fields)
    requires OnField(field, pushed) && Mirrors(lib, field, doc)
    ensures MatchesAll(lib, doc, pushed) <==> field in doc && AcceptedByAll(lib, pushed, lib.show(doc[field]))
  {
    var payload := doc["payload"].fields;
    forall f | f in pushed
      ensures MatchesFilter(lib, payload, f) <==> f.key in payload && Accepts(f.operator, lib.show(f.value), lib.show(payload[f.key]))
    {
      AcceptsMeansMatches(lib, payload, f);
    }
    hide MatchesFilter, Accepts;
    assert pushed[0] in pushed;
  }

  /** Two lists without repeats hold the same ids when they have the same members. */
  lemma SameOnce(a: seq<string>, b: seq<string>)
    requires NoRepeats(a) && NoRepeats(b)
    ensures multiset(a) == multiset(b) <==> forall id: string :: id in a <==> id in b
  {
    RepeatsIff(a);
    RepeatsIff(b);
    if forall id: string :: id in a <==> id in b {
      forall id: string ensures multiset(a)[id] == multiset(b)[id] {
        assert Occurrences(a, id) <= 1 && Occurrences(b, id) <= 1;
        assert id in a <==> id in b;
      }
    }
    if multiset(a) == multiset(b) {
      forall id: string ensures id in a <==> id in b {
        assert id in multiset(a) <==> id in multiset(b);
      }
    }
  }

  /** One store: what agreement says of each document. */
  lemma AgreesIff(lib: Library, field: string, store: Store, rows: seq<Row>, pushed: seq<Filter>)
    requires WellListed(store) && AllMirror(lib, field, store) && Indexed(lib, field, store, rows) && OnField(field, pushed)
    ensures Agrees(lib, store, rows, pushed) <==> forall id | id in store.docs :: DocAgrees(lib, field, store.docs[id], pushed)
  {
    var list, scan := Expected(rows, lib.show(pushed[0].value)), Selected(lib, store, store.listing, pushed);
    forall id: string
      ensures id in list <==> id in store.docs && CompositeKey(lib, [field], store.docs[id]) == lib.show(pushed[0].value)
      ensures id in scan <==> id in store.docs && MatchesAll(lib, store.docs[id], pushed)
      ensures NoRepeats(list) && NoRepeats(scan)
    {
      ListMembers(lib, field, store, rows, lib.show(pushed[0].value), id);
      SelectedMembers(lib, store, store.listing, pushed, id);
    }
    SameOnce(list, scan);
    forall id | id in store.docs
      ensures DocAgrees(lib, field, store.docs[id], pushed) <==> (id in list <==> id in scan)
    {
      KeyOfOneField(lib, field, store.docs[id]);
      MatchesPushed(lib, field, pushed, store.docs[id]);
    }
  }

  ghost predicate DocAgrees(lib: Library, field: string, doc: Fields, pushed: seq<Filter>)
    requires pushed != []
  {
    (if field in doc then lib.show(doc[field]) else "") == lib.show(pushed[0].value)
    <==> field in doc && AcceptedByAll(lib, pushed, lib.show(doc[field]))
  }

  /** A store with one document. */
  lemma OneDocument(lib: Library, field: string, id: string, doc: Fields, pushed: seq<Filter>)
    requires Mirrors(lib, field, doc) && OnField(field, pushed) && AlwaysAgrees(lib, field, pushed)
    ensures DocAgrees(lib, field, doc, pushed)
  {
    var store := Store([id], map[id := doc]);
    var rows := [Row(id, [CompositeKey(lib, [field], doc)])];
    assert rows[0] in rows;
    assert IsLive(rows, id);
    assert WellListed(store) && AllMirror(lib, field, store) && Indexed(lib, field, store, rows);
    AgreesIff(lib, field, store, rows, pushed);
    assert Agrees(lib, store, rows, pushed);
    assert store.docs[id] == doc;
  }

  /**
   * The look-up gives the scan's documents, whatever the collection holds, exactly when the pushed filters
   * together mean equality with the first one's value.
   */
  lemma IndexAgreesIff(lib: Library, field: string, pushed: seq<Filter>)
    requires OnField(field, pushed) && field != "id" && field != "payload"
    requires forall s: string :: lib.show(Str(s)) == s
    ensures AlwaysAgrees(lib, field, pushed) <==> Faithful(lib, pushed)
  {
    if AlwaysAgrees(lib, field, pushed) {
      var bare := map["id" := Str(""), "payload" := Object(map[])];
      OneDocument(lib, field, "", bare, pushed);
      forall s: string ensures s == lib.show(pushed[0].value) <==> AcceptedByAll(lib, pushed, s) {
        var doc := map["id" := Str(""), field := Str(s), "payload" := Object(map[field := Str(s)])];
        OneDocument(lib, field, "", doc, pushed);
      }
    }
    if Faithful(lib, pushed) {
      forall store, rows | WellListed(store) && AllMirror(lib, field, store) && Indexed(lib, field, store, rows)
        ensures Agrees(lib, store, rows, pushed)
      {
        AgreesIff(lib, field, store, rows, pushed);
      }
    }
  }

  /** With one pushed filter that is: it is an equality, and its value does not print as the empty text. */
  lemma OneFilterIsFaithfulIff(lib: Library, f: Filter)
    ensures Faithful(lib, [f]) <==> f.operator == "=" && lib.show(f.value) != ""
  {
    var x := lib.show(f.value);
    assert forall s: string :: AcceptedByAll(lib, [f], s) <==> Accepts(f.operator, x, s) by {
      assert [f][0] == f;
    }
    if f.operator != "=" && x != "" {
      OtherText(f.operator, x);
    }
  }

  /** Every other operator refuses the value itself or accepts another text too. */
  lemma OtherText(operator: string, x: string)
    requires operator != "=" && x != ""
    ensures exists s: string :: (s == x) != Accepts(operator, x, s)
  {
    var longer := x + "!";
    LessIsTrichotomous(x, x);
    LongerIsMore(x);
    assert longer != x && longer[0..] == longer && x <= longer;
    assert Less("", x);
    LessIsTrichotomous("", x);
    assert operator == "<=" ==> ("" == x) != Accepts(operator, x, "");
    assert operator == ">=" ==> (longer == x) != Accepts(operator, x, longer);
    assert operator == "CONTAINS" || operator == "STARTS_WITH" ==> (longer == x) != Accepts(operator, x, longer);
    assert operator != "<=" && operator != ">=" && operator != "CONTAINS" && operator != "STARTS_WITH" ==>
      (x == x) != Accepts(operator, x, x);
  }

  lemma {:induction false} LongerIsMore(x: string)
    ensures Less(x, x + "!")
    ensures !Less(x + "!", x)
  {
    if x != [] {
      LongerIsMore(x[1..]);
      assert (x + "!")[1..] == x[1..] + "!";
    }
  }

  /** Several equalities on the field are faithful only when they ask for the same text. */
  lemma EqualitiesAreFaithfulIff(lib: Library, pushed: seq<Filter>)
    requires pushed != [] && forall f | f in pushed :: f.operator == "="
    ensures Faithful(lib, pushed)
       <==> lib.show(pushed[0].value) != "" && forall f | f in pushed :: lib.show(f.value) == lib.show(pushed[0].value)
  {
    var x := lib.show(pushed[0].value);
    assert pushed[0] in pushed;
    if Faithful(lib, pushed) {
      assert AcceptedByAll(lib, pushed, x);
    }
  }

  // ---------------------------------------------------------------- whole queries

  /**
   * An index whose answer can stand for a scan: a B-tree on one field that carries its collection's name, was
   * there before the data, saw no write that spoils its lists, and whose pushed filters mean equality.
   */
  ghost predicate Trustworthy(lib: Library, idx: Index, store: Store, filters: seq<Filter>)
    reads idx
  {
    && idx.Valid() && idx.kind == BTree && |idx.fields| == 1 && idx.name == idx.collection
    && CleanAlways(idx.ListsAreUnique(), idx.history)
    && WellListed(store) && AllMirror(lib, idx.fields[0], store) && Indexed(lib, idx.fields[0], store, idx.Live())
    && Taken(idx, filters, true) != [] && Faithful(lib, Taken(idx, filters, true))
  }

  /** Post-filtering the list selects what the scan selects with all filters. */
  lemma PlanAgrees(lib: Library, idx: Index, store: Store, filters: seq<Filter>)
    requires Trustworthy(lib, idx, store, filters)
    ensures var pushed, rest := Taken(idx, filters, true), Taken(idx, filters, false);
      var byIndex := Selected(lib, store, Found(lib, idx, pushed), rest);
      && multiset(byIndex) == multiset(Selected(lib, store, store.listing, filters))
      && (rest == [] ==> multiset(Found(lib, idx, pushed)) == multiset(Selected(lib, store, store.listing, filters)))
  {
    var pushed, rest := Taken(idx, filters, true), Taken(idx, filters, false);
    var field, key := idx.fields[0], lib.show(pushed[0].value);
    ListAnswers(idx, key);
    var list := Found(lib, idx, pushed);
    assert list == Expected(idx.Live(), key);
    PushedAreOnField(idx, filters);
    AgreesIff(lib, field, store, idx.Live(), pushed);
    ListOfScan(lib, field, store, idx.Live(), pushed);
    var byIndex, scan := Selected(lib, store, list, rest), Selected(lib, store, store.listing, filters);
    forall id: string
      ensures id in byIndex <==> id in scan
      ensures rest == [] ==> (id in list <==> id in scan)
      ensures NoRepeats(byIndex) && NoRepeats(list) && NoRepeats(scan)
    {
      ListMembers(lib, field, store, idx.Live(), key, id);
      SelectedMembers(lib, store, list, rest, id);
      SelectedMembers(lib, store, store.listing, filters, id);
      if id in store.docs {
        SplitIsAPartition(lib, idx, filters, store.docs[id]);
        assert id in list <==> MatchesAll(lib, store.docs[id], pushed);
        assert Mirrors(lib, field, store.docs[id]);
      }
    }
    SameOnce(byIndex, scan);
    SameOnce(list, scan);
  }

  lemma PushedAreOnField(idx: Index, filters: seq<Filter>)
    requires idx.kind == BTree && |idx.fields| == 1 && Taken(idx, filters, true) != []
    ensures OnField(idx.fields[0], Taken(idx, filters, true))
  {
    forall f | f in Taken(idx, filters, true) ensures f.key == idx.fields[0] {
      TakenMembers(idx, filters, true, f);
    }
  }

  lemma ListOfScan(lib: Library, field: string, store: Store, rows: seq<Row>, pushed: seq<Filter>)
    requires WellListed(store) && AllMirror(lib, field, store) && Indexed(lib, field, store, rows)
    requires OnField(field, pushed) && Faithful(lib, pushed)
    ensures forall id :: id in Expected(rows, lib.show(pushed[0].value)) <==> id in store.docs && MatchesAll(lib, store.docs[id], pushed)
  {
    forall id
      ensures id in Expected(rows, lib.show(pushed[0].value)) <==> id in store.docs && MatchesAll(lib, store.docs[id], pushed)
    {
      ListMembers(lib, field, store, rows, lib.show(pushed[0].value), id);
      if id in store.docs {
        KeyOfOneField(lib, field, store.docs[id]);
        MatchesPushed(lib, field, pushed, store.docs[id]);
      }
    }
  }

  /** What a query should give: the scan's documents, or as many of them as the limit allows. */
  ghost predicate GivesScan(lib: Library, store: Store, filters: seq<Filter>, limit: int, ids: seq<string>) {
    var scan := Selected(lib, store, store.listing, filters);
    && (limit <= 0 ==> multiset(ids) == multiset(scan))
    && multiset(ids) <= multiset(scan)
    && |ids| == if 0 < limit < |scan| then limit else |scan|
  }

  /** The same of an answer, whether it lists ids or holds documents. */
  ghost predicate AnswersQuery(lib: Library, store: Store, filters: seq<Filter>, limit: int, r: Answer) {
    match r
    case Failed => false
    case IDs(ids) => GivesScan(lib, store, filters, limit, ids)
    case Documents(docs) => exists ids :: GivesScan(lib, store, filters, limit, ids) && Stored(store, ids) && docs == DocsOf(store, ids)
  }

  lemma LimitedGivesScan(lib: Library, store: Store, filters: seq<Filter>, limit: int, ids: seq<string>)
    requires multiset(ids) == multiset(Selected(lib, store, store.listing, filters))
    ensures GivesScan(lib, store, filters, limit, Limited(ids, limit))
    ensures AnswersQuery(lib, store, filters, limit, IDs(Limited(ids, limit)))
    ensures Stored(store, ids) && AnswersQuery(lib, store, filters, limit, Documents(Limited(DocsOf(store, ids), limit)))
  {
    var scan := Selected(lib, store, store.listing, filters);
    assert |multiset(ids)| == |ids| && |multiset(scan)| == |scan|;
    if limit > 0 && |ids| > limit {
      Sorting.SplitAt(ids, limit);
    }
    forall id | id in ids ensures id in store.docs {
      assert id in multiset(scan);
    }
    LimitedAreStored(store, ids, limit);
  }

  /**
   * A GET query plans with the default statistics and runs the plan. When every index that takes one of its
   * filters is trustworthy, it gives the documents a scan with all filters gives. When there are such indexes
   * and all of them are blind, it gives nothing, which is right exactly when the scan gives nothing.
   */
  method ExecuteGet(manager: IndexManager, collection: string, filters: seq<Filter>, limit: int, store: Store, listed: bool)
    returns (r: Answer)
    requires manager.Valid()
    ensures listed && (forall idx | idx in Candidates(manager, collection, filters) :: Trustworthy(manager.lib, idx, store, filters))
        ==> AnswersQuery(manager.lib, store, filters, limit, r)
    ensures AllBlind(manager, collection, filters, store) ==>
      && r in {IDs([]), Documents([])}
      && (AnswersQuery(manager.lib, store, filters, limit, r) <==> Selected(manager.lib, store, store.listing, filters) == [])
  {
    hide AnswersQuery, GivesScan, Trustworthy, Blind, Limited, Taken, Selected, Found, DocsOf, Index.Tracks, Index.Valid;
    var indexes := manager.GetIndexesForCollection(collection);
    var optimizer := new QueryOptimizer(indexes, None);
    var plan := optimizer.Optimize(filters, limit);
    assert plan.index.None? ==> forall idx | idx in indexes :: Taken(idx, filters, true) == [];
    match plan.scan
    case FullScan =>
      r := ExecuteFullScan(manager.lib, plan, store, listed);
      LimitedGivesScan(manager.lib, store, filters, limit, Selected(manager.lib, store, store.listing, filters));
      NoCandidates(manager, collection, filters, indexes);
    case IndexScan =>
      r := ExecuteIndexScan(plan, manager, store);
      ChosenPlanAgrees(manager, collection, plan, filters, store);
      BlindPlanFindsNothing(manager, collection, plan, filters, store);
    case IndexOnlyScan =>
      r := ExecuteIndexOnlyScan(plan, manager);
      ChosenPlanAgrees(manager, collection, plan, filters, store);
      BlindPlanFindsNothing(manager, collection, plan, filters, store);
  }

  /** The indexes of the collection that take one of the filters. */
  ghost function Candidates(manager: IndexManager, collection: string, filters: seq<Filter>): set<Index>
    reads manager
  {
    set idx | idx in manager.indexes.Values && idx.collection == collection && Taken(idx, filters, true) != []
  }

  /** There are such indexes, and none of them finds anything. */
  ghost predicate AllBlind(manager: IndexManager, collection: string, filters: seq<Filter>, store: Store)
    reads manager, manager.indexes.Values
  {
    && Candidates(manager, collection, filters) != {}
    && forall idx | idx in Candidates(manager, collection, filters) :: Blind(manager.lib, idx, store, filters)
  }

  lemma NoCandidates(manager: IndexManager, collection: string, filters: seq<Filter>, indexes: seq<Index>)
    requires forall idx: Index :: idx in indexes <==> idx in manager.indexes.Values && idx.collection == collection
    requires forall idx | idx in indexes :: Taken(idx, filters, true) == []
    ensures Candidates(manager, collection, filters) == {}
  {
  }

  /**
   * An index whose look-up finds nothing although it carries its collection's name: a GIN index, which is asked
   * for a value but answers tokens; or a B-tree on several fields, whose keys have more separators than the value.
   */
  ghost predicate Blind(lib: Library, idx: Index, store: Store, filters: seq<Filter>)
    reads idx
  {
    && idx.Valid() && idx.name == idx.collection && Taken(idx, filters, true) != []
    && (idx.kind == GIN || SeveralFields(lib, idx, store, lib.show(Taken(idx, filters, true)[0].value)))
  }

  ghost predicate SeveralFields(lib: Library, idx: Index, store: Store, value: string)
    requires idx.Valid()
    reads idx
  {
    && idx.kind == BTree && CleanAlways(idx.ListsAreUnique(), idx.history)
    && IndexedBy(lib, idx.fields, store, idx.Live())
    && (forall id | id in store.docs :: HasAll(idx.fields, store.docs[id]))
    && multiset(value)['|'] < |idx.fields| - 1
  }

  lemma {:induction false} JoinSeparators(parts: seq<string>)
    ensures multiset(Text.Join(parts, '|'))['|'] >= |parts| - 1
  {
    if |parts| > 1 {
      JoinSeparators(parts[1..]);
      assert Text.Join(parts, '|') == parts[0] + ['|'] + Text.Join(parts[1..], '|');
    }
  }

  lemma BlindFindsNothing(lib: Library, idx: Index, store: Store, filters: seq<Filter>)
    requires Blind(lib, idx, store, filters)
    ensures Found(lib, idx, Taken(idx, filters, true)) == []
  {
    if idx.kind == BTree {
      var value := lib.show(Taken(idx, filters, true)[0].value);
      ListAnswers(idx, value);
      var list := Expected(idx.Live(), value);
      forall id: string ensures id !in list {
        ListMembersBy(lib, idx.fields, store, idx.Live(), value, id);
        if id in store.docs {
          PartsOfAll(lib, idx.fields, store.docs[id]);
          JoinSeparators(Parts(lib, idx.fields, store.docs[id]));
        }
      }
      SomethingIn(list);
    }
  }

  /** Nothing is the right answer exactly when the scan gives nothing. */
  lemma NothingAnswersIff(lib: Library, store: Store, filters: seq<Filter>, limit: int)
    ensures var empty := Selected(lib, store, store.listing, filters) == [];
      && (AnswersQuery(lib, store, filters, limit, IDs([])) <==> empty)
      && (AnswersQuery(lib, store, filters, limit, Documents([])) <==> empty)
  {
    var scan := Selected(lib, store, store.listing, filters);
    if scan == [] {
      LimitedGivesScan(lib, store, filters, limit, []);
      assert Limited(DocsOf(store, []), limit) == [];
    }
  }

  lemma BlindPlanFindsNothing(manager: IndexManager, collection: string, plan: Plan, filters: seq<Filter>, store: Store)
    requires manager.Valid() && plan.index.Some?
    requires plan.index.value in manager.indexes.Values && plan.index.value.collection == collection
    requires plan.indexFilters == Taken(plan.index.value, filters, true) && plan.indexFilters != []
    ensures Blind(manager.lib, plan.index.value, store, filters) ==>
      && Looked(manager, plan.index.value.name) == Some(plan.index.value)
      && Limited(Found(manager.lib, plan.index.value, plan.indexFilters), plan.limit) == []
      && Limited(DocsOf(store, Selected(manager.lib, store, Found(manager.lib, plan.index.value, plan.indexFilters), plan.postFilters)), plan.limit) == []
    ensures var empty := Selected(manager.lib, store, store.listing, filters) == [];
      && (AnswersQuery(manager.lib, store, filters, plan.limit, IDs([])) <==> empty)
      && (AnswersQuery(manager.lib, store, filters, plan.limit, Documents([])) <==> empty)
  {
    var idx := plan.index.value;
    NothingAnswersIff(manager.lib, store, filters, plan.limit);
    hide AnswersQuery;
    if Blind(manager.lib, idx, store, filters) {
      assert IndexManager.KeyOf(idx.collection, idx.name) in manager.indexes;
      ChosenIndexIsReadIff(manager, idx);
      BlindFindsNothing(manager.lib, idx, store, filters);
    }
  }

  lemma ChosenPlanAgrees(manager: IndexManager, collection: string, plan: Plan, filters: seq<Filter>, store: Store)
    requires manager.Valid() && plan.index.Some?
    requires plan.index.value in manager.indexes.Values && plan.index.value.collection == collection
    requires plan.indexFilters == Taken(plan.index.value, filters, true) && plan.indexFilters != []
    requires plan.postFilters == Taken(plan.index.value, filters, false)
    ensures Trustworthy(manager.lib, plan.index.value, store, filters) ==>
      && Looked(manager, plan.index.value.name) == Some(plan.index.value)
      && var found := Found(manager.lib, plan.index.value, plan.indexFilters);
      && AnswersQuery(manager.lib, store, filters, plan.limit,
           Documents(Limited(DocsOf(store, Selected(manager.lib, store, found, plan.postFilters)), plan.limit)))
      && (plan.postFilters == [] ==> AnswersQuery(manager.lib, store, filters, plan.limit, IDs(Limited(found, plan.limit))))
  {
    var idx := plan.index.value;
    if Trustworthy(manager.lib, idx, store, filters) {
      assert IndexManager.KeyOf(idx.collection, idx.name) in manager.indexes;
      ChosenIndexIsReadIff(manager, idx);
      PlanAgrees(manager.lib, idx, store, filters);
      var found := Found(manager.lib, idx, plan.indexFilters);
      LimitedGivesScan(manager.lib, store, filters, plan.limit, Selected(manager.lib, store, found, plan.postFilters));
      if plan.postFilters == [] {
        LimitedGivesScan(manager.lib, store, filters, plan.limit, found);
      }
    }
  }
}
