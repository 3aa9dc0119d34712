/**
 * The index manager: every index of a collection follows the writes and deletions of its documents, and
 * queries read its lists. Each index carries, as ghost state, the commands it has seen since it was created,
 * so that what is proved of runs of commands holds of the lists a query reads.
 */
module SecondaryIndex {
  import opened Json
  import opened Changes
  import opened Postings
  import opened Tokens
  import Sequences
  import VectorSearch

  datatype IndexKind = BTree | GIN | HNSW | Other(name: string)

  /** What a document's write means to an index: its id, and the keys the document goes under. */
  ghost predicate RowFits(lib: Library, kind: IndexKind, fields: seq<string>, partialExpr: string, doc: Fields, row: Row)
    requires HasID(doc)
  {
    && row.id == doc["id"].text
    && if !MatchesPartial(lib, partialExpr, doc) then row.keys == []
       else match kind
         case BTree => row.keys == [CompositeKey(lib, fields, doc)]
         case GIN => multiset(row.keys) == TokensOf(lib, Object(doc))
         case _ => row.keys == []
  }

  /** What an index is told of a change. */
  ghost predicate Tells(lib: Library, kind: IndexKind, fields: seq<string>, partialExpr: string, c: Change, told: Command) {
    match c
    case Write(id, doc) =>
      HasID(doc) && doc["id"].text == id && told.Put? && RowFits(lib, kind, fields, partialExpr, doc, told.row)
    case Erase(id) => told == Remove(id)
  }

  /** The vector a document carries; elements that are not numbers read as zero. */
  function VectorOf(doc: Fields): Option<seq<real>> {
    if "payload" in doc && doc["payload"].Object? && "vector" in doc["payload"].fields
       && doc["payload"].fields["vector"].Array?
    then
      var items := doc["payload"].fields["vector"].items;
      Some(seq(|items|, i requires 0 <= i < |items| => if items[i].Number? then items[i].number else 0.0))
    else None
  }

  /** The vector is the array under `vector` in the payload, number by number; elsewhere there is none. */
  lemma VectorIsInPayload(doc: Fields)
    ensures VectorOf(doc).Some? <==>
      exists payload: Fields, items: seq<Value> :: InPayload(doc, payload, items)
    ensures forall payload: Fields, items: seq<Value> | InPayload(doc, payload, items) ::
      && VectorOf(doc).Some? && |VectorOf(doc).value| == |items|
      && forall i | 0 <= i < |items| ::
        && (forall x :: items[i] == Number(x) ==> VectorOf(doc).value[i] == x)
        && (!items[i].Number? ==> VectorOf(doc).value[i] == 0.0)
  {
    if VectorOf(doc).Some? {
      assert InPayload(doc, doc["payload"].fields, doc["payload"].fields["vector"].items);
    }
  }

  predicate InPayload(doc: Fields, payload: Fields, items: seq<Value>) {
    "payload" in doc && doc["payload"] == Object(payload) && "vector" in payload && payload["vector"] == Array(items)
  }

  /** A write under this id that gives the vector index a vector. */
  predicate Gives(lib: Library, partialExpr: string, c: Change) {
    c.Write? && MatchesPartial(lib, partialExpr, c.doc) && VectorOf(c.doc).Some?
  }

  /** The vectors held after the changes: a write without a vector leaves what is there. */
  function VectorsAfter(lib: Library, partialExpr: string, cs: seq<Change>): map<string, seq<real>> {
    if cs == [] then map[] else HeldAfter(lib, partialExpr, VectorsAfter(lib, partialExpr, Sequences.Front(cs)), Sequences.Last(cs))
  }

  function HeldAfter(lib: Library, partialExpr: string, held: map<string, seq<real>>, c: Change): map<string, seq<real>> {
    match c
    case Write(id, doc) => if Gives(lib, partialExpr, c) then held[id := VectorOf(doc).value] else held
    case Erase(id) => held - {id}
  }

  lemma VectorsOneMore(lib: Library, partialExpr: string, cs: seq<Change>, c: Change)
    ensures VectorsAfter(lib, partialExpr, cs + [c]) == HeldAfter(lib, partialExpr, VectorsAfter(lib, partialExpr, cs), c)
  {
    Sequences.SnocFront(cs, c);
  }

  ghost predicate IsLive(rows: seq<Row>, id: string) {
    exists row | row in rows :: row.id == id
  }

  /** Live documents stay live when another document is written or deleted; the one written is live. */
  lemma LiveAfter(rows: seq<Row>, id: string, row: Row)
    requires row.id == id
    ensures IsLive(Without(rows, id) + [row], id)
    ensures forall other | other != id && IsLive(rows, other) ::
      IsLive(Without(rows, id), other) && IsLive(Without(rows, id) + [row], other)
  {
    var rows' := Without(rows, id) + [row];
    assert rows'[|rows'| - 1] == row;
    forall other | other != id && IsLive(rows, other)
      ensures IsLive(Without(rows, id), other) && IsLive(rows', other)
    {
      var r :| r in rows && r.id == other;
      WithoutKeeps(rows, id, r);
      assert r in rows';
    }
  }

  class Index {
    const name: string
    const collection: string
    const kind: IndexKind
    const fields: seq<string>
    const unique: bool
    const partialExpr: string
    var data: Buckets
    var vectors: map<string, seq<real>>
    var neighbors: map<string, seq<string>>
    /** What the index was told since it was created, and the writes and deletions that it was told of. */
    ghost var history: seq<Command>
    ghost var changes: seq<Change>

    ghost predicate Valid()
      reads this
    {
      && data == Run(ListsAreUnique(), history).data
      && (kind.HNSW? || kind.Other? ==> data == map[])
      && neighbors.Keys == vectors.Keys
      && (kind != HNSW ==> vectors == map[])
      && (forall id | id in vectors :: IsLive(Live(), id))
    }

    /** Only B-tree insertion looks at the flag. */
    predicate ListsAreUnique() {
      unique && kind == BTree
    }

    /** The documents written and not deleted since the index was created. */
    ghost function Live(): seq<Row>
      reads this
    {
      Run(ListsAreUnique(), history).rows
    }

    /** The index has followed the changes; a vector index holds the vectors that they give. */
    ghost predicate Tracks(lib: Library)
      reads this
    {
      && |changes| == |history|
      && (forall i | 0 <= i < |changes| :: Tells(lib, kind, fields, partialExpr, changes[i], history[i]))
      && (kind == HNSW ==> vectors == VectorsAfter(lib, partialExpr, changes))
    }

    ghost predicate Took(lib: Library, doc: Fields, before: seq<Command>, past: seq<Change>)
      requires HasID(doc)
      reads this
    {
      && changes == past + [Write(doc["id"].text, doc)]
      && |history| == |before| + 1 && history[..|before|] == before
      && history[|before|].Put?
      && RowFits(lib, kind, fields, partialExpr, doc, history[|before|].row)
    }

    constructor (name: string, collection: string, kind: IndexKind, fields: seq<string>, unique: bool, partialExpr: string)
      ensures Valid() && history == [] && changes == []
      ensures this.name == name && this.collection == collection && this.kind == kind
      ensures this.fields == fields && this.unique == unique && this.partialExpr == partialExpr
      ensures vectors == map[]
    {
      this.name, this.collection, this.kind := name, collection, kind;
      this.fields, this.unique, this.partialExpr := fields, unique, partialExpr;
      data, vectors, neighbors := map[], map[], map[];
      history, changes := [], [];
    }

    ghost method Record(c: Command, change: Change)
      modifies `history, `changes
      ensures history == old(history) + [c] && changes == old(changes) + [change]
      ensures Run(ListsAreUnique(), history) == Step(ListsAreUnique(), old(Run(ListsAreUnique(), history)), c)
    {
      history, changes := history + [c], changes + [change];
      Sequences.SnocFront(old(history), c);
    }
  }

  method InsertBTree(lib: Library, idx: Index, docID: string, doc: Fields)
    requires idx.Valid() && idx.kind == BTree && HasID(doc) && docID == doc["id"].text && MatchesPartial(lib, idx.partialExpr, doc)
    modifies idx`data, idx`history, idx`changes
    ensures idx.Valid() && idx.Took(lib, doc, old(idx.history), old(idx.changes))
    ensures idx.data == AddEntry(old(idx.data), idx.unique, CompositeKey(lib, idx.fields, doc), docID)
  {
    var key := BuildCompositeKey(lib, idx.fields, doc);
    ghost var rows := idx.Live();
    idx.Record(Put(Row(docID, [key])), Write(docID, doc));
    LiveAfter(rows, docID, Row(docID, [key]));
    AddOneEntry(idx.data, idx.unique, key, docID);
    if idx.unique && key in idx.data && |idx.data[key]| > 0 {
      return;
    }
    idx.data := idx.data[key := (if key in idx.data then idx.data[key] else []) + [docID]];
  }

  lemma AddOneEntry(data: Buckets, unique: bool, key: string, id: string)
    ensures AddEntries(data, unique, [key], id) == AddEntry(data, unique, key, id)
  {
    assert [key][..0] == [];
  }

  /** Appends the id once for every token, in whatever order the document's fields are walked. */
  method InsertGIN(lib: Library, idx: Index, docID: string, doc: Fields)
    requires idx.Valid() && idx.kind == GIN && HasID(doc) && docID == doc["id"].text && MatchesPartial(lib, idx.partialExpr, doc)
    modifies idx`data, idx`history, idx`changes
    ensures idx.Valid() && idx.Took(lib, doc, old(idx.history), old(idx.changes))
    ensures forall token: string ::
      Bucket(idx.data, token) == Bucket(old(idx.data), token) + Repeat(docID, TokensOf(lib, Object(doc))[token])
  {
    var tokens := Tokenize(lib, Object(doc), []);
    ghost var before := idx.data;
    for i := 0 to |tokens|
      invariant idx.data == AddEntries(before, false, tokens[..i], docID)
      invariant idx.history == old(idx.history) && idx.changes == old(idx.changes)
    {
      var token := tokens[i];
      AddNextEntry(before, tokens, i, docID);
      idx.data := idx.data[token := (if token in idx.data then idx.data[token] else []) + [docID]];
    }
    assert tokens[..|tokens|] == tokens;
    ghost var rows := idx.Live();
    idx.Record(Put(Row(docID, tokens)), Write(docID, doc));
    LiveAfter(rows, docID, Row(docID, tokens));
    forall token: string
      ensures Bucket(idx.data, token) == Bucket(before, token) + Repeat(docID, TokensOf(lib, Object(doc))[token])
    {
      AddedToBucket(before, tokens, docID, token);
    }
  }

  lemma AddNextEntry(data: Buckets, tokens: seq<string>, i: nat, id: string)
    requires i < |tokens|
    ensures AddEntries(data, false, tokens[..i + 1], id) == AddEntry(AddEntries(data, false, tokens[..i], id), false, tokens[i], id)
  {
    assert tokens[..i + 1][..i] == tokens[..i];
  }

  method InsertHNSW(lib: Library, idx: Index, docID: string, doc: Fields)
    requires idx.Valid() && idx.kind == HNSW
    requires HasID(doc) && docID == doc["id"].text && MatchesPartial(lib, idx.partialExpr, doc)
    modifies idx`vectors, idx`neighbors, idx`history, idx`changes
    ensures idx.Valid() && idx.Took(lib, doc, old(idx.history), old(idx.changes))
    ensures idx.vectors == if VectorOf(doc).Some? then old(idx.vectors)[docID := VectorOf(doc).value] else old(idx.vectors)
  {
    ghost var rows := idx.Live();
    idx.Record(Put(Row(docID, [])), Write(docID, doc));
    LiveAfter(rows, docID, Row(docID, []));
    if "payload" in doc && doc["payload"].Object? && "vector" in doc["payload"].fields
      && doc["payload"].fields["vector"].Array?
    {
      var items := doc["payload"].fields["vector"].items;
      var vec := ReadVector(items);
      assert vec == VectorOf(doc).value;
      idx.vectors := idx.vectors[docID := vec];
      idx.neighbors := idx.neighbors[docID := []];
    }
  }

  method ReadVector(items: seq<Value>) returns (vec: seq<real>)
    ensures |vec| == |items|
    ensures forall i | 0 <= i < |items| :: vec[i] == if items[i].Number? then items[i].number else 0.0
  {
    vec := [];
    for i := 0 to |items|
      invariant |vec| == i
      invariant forall j | 0 <= j < i :: vec[j] == if items[j].Number? then items[j].number else 0.0
    {
      vec := vec + [if items[i].Number? then items[i].number else 0.0];
    }
  }

  /** The lists when those under `rest` have not been visited yet. */
  ghost function Halfway(data: Buckets, rest: set<string>, id: string): Buckets {
    map key | key in data && (key in rest || key in RemoveEntries(data, id))
      :: if key in rest then data[key] else RemoveEntries(data, id)[key]
  }

  lemma HalfwayStep(data: Buckets, rest: set<string>, id: string, key: string)
    requires rest <= data.Keys && key in rest
    ensures var half, left := Halfway(data, rest, id), RemoveFirst(data[key], id);
      && key in half && half[key] == data[key]
      && Halfway(data, rest - {key}, id)
         == if id !in data[key] then half else if left == [] then half[key := left] - {key} else half[key := left]
  {
    if id !in data[key] {
      RemoveFirstAbsent(data[key], id);
    }
  }

  /** One entry leaves every list, whatever the order the lists are visited in; deleteBTree and deleteGIN alike. */
  method DeleteEntries(idx: Index, docID: string)
    requires idx.Valid() && (idx.kind == BTree || idx.kind == GIN)
    modifies idx`data, idx`history, idx`changes
    ensures idx.Valid() && idx.history == old(idx.history) + [Remove(docID)] && idx.changes == old(idx.changes) + [Erase(docID)]
    ensures idx.data == RemoveEntries(old(idx.data), docID)
  {
    ghost var before := idx.data;
    var rest := idx.data.Keys;
    assert Halfway(before, rest, docID) == before;
    while rest != {}
      invariant rest <= before.Keys
      invariant idx.history == old(idx.history) && idx.changes == old(idx.changes)
      invariant idx.data == Halfway(before, rest, docID)
    {
      var key :| key in rest;
      HalfwayStep(before, rest, docID, key);
      hide *;
      var found, left := CutFirst(idx.data[key], docID);
      if found {
        idx.data := idx.data[key := left];
        if |left| == 0 {
          idx.data := idx.data - {key};
        }
      }
      rest := rest - {key};
    }
    assert idx.data == RemoveEntries(before, docID);
    ghost var rows := idx.Live();
    idx.Record(Remove(docID), Erase(docID));
    LiveAfter(rows, docID, Row(docID, []));
  }

  /** The search through one list, up to the first match. */
  method CutFirst(docIDs: seq<string>, docID: string) returns (found: bool, left: seq<string>)
    ensures found <==> docID in docIDs
    ensures left == RemoveFirst(docIDs, docID) && (!found ==> left == docIDs)
  {
    var i := 0;
    while i < |docIDs| && docIDs[i] != docID
      invariant i <= |docIDs| && docID !in docIDs[..i]
    {
      i := i + 1;
    }
    RemoveFirstAt(docIDs, docID, i);
    found := i < |docIDs|;
    left := if found then docIDs[..i] + docIDs[i + 1..] else docIDs;
  }

  lemma {:induction false} RemoveFirstAt(ids: seq<string>, id: string, i: nat)
    requires i <= |ids| && id !in ids[..i] && (i < |ids| ==> ids[i] == id)
    ensures RemoveFirst(ids, id) == if i < |ids| then ids[..i] + ids[i + 1..] else ids
    ensures id in ids <==> i < |ids|
  {
    if i == |ids| {
      assert ids[..i] == ids;
      RemoveFirstAbsent(ids, id);
    } else if i > 0 {
      assert ids[0] != id by { assert ids[0] in ids[..i]; }
      FirstApart(ids, i);
      RemoveFirstAt(ids[1..], id, i - 1);
    }
  }

  lemma FirstApart(ids: seq<string>, i: nat)
    requires 0 < i < |ids|
    ensures forall x | x in ids[1..][..i - 1] :: x in ids[..i]
    ensures ids[..i] + ids[i + 1..] == [ids[0]] + (ids[1..][..i - 1] + ids[1..][i..])
  {
    assert ids[..i] == [ids[0]] + ids[1..][..i - 1];
    assert ids[1..][i..] == ids[i + 1..];
  }

  method DeleteHNSW(idx: Index, docID: string)
    requires idx.Valid() && idx.kind == HNSW
    modifies idx`vectors, idx`neighbors, idx`history, idx`changes
    ensures idx.Valid() && idx.history == old(idx.history) + [Remove(docID)] && idx.changes == old(idx.changes) + [Erase(docID)]
    ensures idx.vectors == old(idx.vectors) - {docID}
  {
    ghost var rows := idx.Live();
    idx.Record(Remove(docID), Erase(docID));
    LiveAfter(rows, docID, Row(docID, []));
    idx.vectors := idx.vectors - {docID};
    idx.neighbors := idx.neighbors - {docID};
  }

  lemma TracksOneMore(lib: Library, idx: Index, told: seq<Command>, past: seq<Change>, held: map<string, seq<real>>,
                     c: Command, change: Change)
    requires |past| == |told| && forall i | 0 <= i < |past| :: Tells(lib, idx.kind, idx.fields, idx.partialExpr, past[i], told[i])
    requires idx.kind == HNSW ==> held == VectorsAfter(lib, idx.partialExpr, past)
    requires idx.history == told + [c] && idx.changes == past + [change]
    requires Tells(lib, idx.kind, idx.fields, idx.partialExpr, change, c)
    requires idx.kind == HNSW ==> idx.vectors == HeldAfter(lib, idx.partialExpr, held, change)
    ensures idx.Tracks(lib)
  {
    VectorsOneMore(lib, idx.partialExpr, past, change);
    hide Tells, VectorsAfter, HeldAfter;
  }

  // ---------------------------------------------------------------- the manager

  datatype Query = Query(value: Option<Value>, token: Option<string>, vector: Option<seq<real>>, limit: Option<int>)

  /** What every answer of a B-tree or GIN list promises, in terms of the documents the index has seen. */
  ghost predicate AnswersKey(idx: Index, key: string, ids: seq<string>)
    reads idx
  {
    var unique, history := idx.ListsAreUnique(), idx.history;
    && ids == Bucket(idx.data, key)
    && (!unique ==> forall row | row in idx.Live() && key in row.keys :: row.id in ids)
    && (unique ==> |ids| <= 1)
    && (CleanAlways(unique, history) ==> ids == Expected(idx.Live(), key))
  }

  lemma ListAnswers(idx: Index, key: string)
    requires idx.Valid()
    ensures AnswersKey(idx, key, Bucket(idx.data, key))
  {
    var unique, history := idx.ListsAreUnique(), idx.history;
    RunShape(unique, history);
    if !unique {
      RunMissesNothing(history);
    }
    if CleanAlways(unique, history) {
      ExactIff(unique, history);
      assert history[..|history|] == history;
      assert Exact(Run(unique, history));
    }
  }

  class IndexManager {
    const lib: Library
    var indexes: map<string, Index>

    ghost predicate Valid()
      reads this, indexes.Values
    {
      && (forall key | key in indexes ::
           indexes[key].Valid() && indexes[key].Tracks(lib) && key == KeyOf(indexes[key].collection, indexes[key].name))
      && (forall a, b | a in indexes && b in indexes && a != b :: indexes[a] != indexes[b])
    }

    static function KeyOf(collection: string, name: string): string {
      collection + ":" + name
    }

    constructor (lib: Library)
      ensures Valid() && this.lib == lib && indexes == map[]
    {
      this.lib, indexes := lib, map[];
    }

    /**
     * A new index starts empty: documents already in the collection are not put into it. `saved` says whether
     * its metadata could be written; if not, that is an error, but the index is there all the same.
     */
    method CreateIndex(collection: string, name: string, kind: IndexKind, fields: seq<string>, unique: bool, partialExpr: string, saved: bool)
      returns (ok: bool)
      requires Valid()
      modifies this
      ensures Valid()
      ensures ok <==> KeyOf(collection, name) !in old(indexes) && saved
      ensures KeyOf(collection, name) in old(indexes) ==> indexes == old(indexes)
      ensures KeyOf(collection, name) !in old(indexes) ==>
        && KeyOf(collection, name) in indexes && indexes - {KeyOf(collection, name)} == old(indexes)
        && var idx := indexes[KeyOf(collection, name)];
          fresh(idx) && idx.history == [] && idx.changes == [] && idx.kind == kind && idx.fields == fields && idx.unique == unique
          && idx.partialExpr == partialExpr && idx.name == name && idx.collection == collection
    {
      var key := KeyOf(collection, name);
      if key in indexes {
        return false;
      }
      var index := new Index(name, collection, kind, fields, unique, partialExpr);
      indexes := indexes[key := index];
      assert indexes - {key} == old(indexes);
      ok := saved;
    }

    method DropIndex(collection: string, name: string) returns (ok: bool)
      requires Valid()
      modifies this
      ensures Valid()
      ensures ok <==> KeyOf(collection, name) in old(indexes)
      ensures indexes == old(indexes) - {KeyOf(collection, name)}
    {
      var key := KeyOf(collection, name);
      ok := key in indexes;
      indexes := indexes - {key};
    }

    method GetIndexesForCollection(collection: string) returns (list: seq<Index>)
      requires Valid()
      ensures forall idx: Index :: idx in list <==> idx in indexes.Values && idx.collection == collection
      ensures forall i, j | 0 <= i < j < |list| :: list[i] != list[j]
    {
      hide Index.Valid, Index.Tracks;
      list := [];
      var rest := indexes.Keys;
      while rest != {}
        invariant rest <= indexes.Keys
        invariant forall i | 0 <= i < |list| :: list[i] in indexes.Values && list[i].collection == collection
        invariant forall i | 0 <= i < |list| :: KeyOf(list[i].collection, list[i].name) !in rest
        invariant forall key | key in indexes && key !in rest && indexes[key].collection == collection :: indexes[key] in list
        invariant forall i, j | 0 <= i < j < |list| :: list[i] != list[j]
      {
        var key :| key in rest;
        if indexes[key].collection == collection {
          list := list + [indexes[key]];
        }
        rest := rest - {key};
      }
    }

    /** How one index stands after a document is written. */
    twostate predicate Followed(idx: Index, doc: Fields)
      requires HasID(doc)
      reads idx
    {
      && idx.Took(lib, doc, old(idx.history), old(idx.changes))
      && idx.vectors == if idx.kind == HNSW && MatchesPartial(lib, idx.partialExpr, doc) && VectorOf(doc).Some?
         then old(idx.vectors)[doc["id"].text := VectorOf(doc).value] else old(idx.vectors)
    }

    /** And after an id is dropped. */
    twostate predicate Dropped(idx: Index, docID: string)
      reads idx
    {
      && idx.history == old(idx.history) + [Remove(docID)] && idx.changes == old(idx.changes) + [Erase(docID)]
      && idx.vectors == old(idx.vectors) - {docID}
    }

    /** Every index of the collection takes the document, no other index changes. */
    method Insert(collection: string, doc: Fields)
      requires Valid() && HasID(doc)
      modifies indexes.Values
      ensures Valid()
      ensures forall idx | idx in indexes.Values :: if idx.collection == collection then Followed(idx, doc) else unchanged(idx)
    {
      hide Index.Valid, Index.Tracks, Index.Took, MatchesPartial, VectorOf;
      var list := GetIndexesForCollection(collection);
      for i := 0 to |list|
        invariant forall idx | idx in indexes.Values :: idx.Valid() && idx.Tracks(lib)
        invariant forall idx | idx in indexes.Values && idx in list[..i] :: Followed(idx, doc)
        invariant forall idx | idx in indexes.Values && idx !in list[..i] :: unchanged(idx)
      {
        InsertOne(list[i], doc);
      }
    }

    method InsertOne(idx: Index, doc: Fields)
      requires idx.Valid() && idx.Tracks(lib) && HasID(doc)
      modifies idx
      ensures idx.Valid() && idx.Tracks(lib) && Followed(idx, doc)
    {
      var docID := doc["id"].text;
      ghost var told, past, held := idx.history, idx.changes, idx.vectors;
      FileOne(idx, docID, doc);
      TracksOneMore(lib, idx, told, past, held, idx.history[|told|], Write(docID, doc));
    }

    method FileOne(idx: Index, docID: string, doc: Fields)
      requires idx.Valid() && HasID(doc) && docID == doc["id"].text
      modifies idx
      ensures idx.Valid() && Followed(idx, doc)
    {
      if !MatchesPartial(lib, idx.partialExpr, doc) {
        Pass(idx, docID, doc);
        return;
      }
      match idx.kind
      case BTree => InsertBTree(lib, idx, docID, doc);
      case GIN => InsertGIN(lib, idx, docID, doc);
      case HNSW => InsertHNSW(lib, idx, docID, doc);
      case Other(_) => Pass(idx, docID, doc);
    }

    /** The index is left as it is; only its record of the document is kept. */
    ghost method Pass(idx: Index, docID: string, doc: Fields)
      requires idx.Valid()
      modifies idx`history, idx`changes
      ensures idx.Valid() && idx.history == old(idx.history) + [Put(Row(docID, []))]
      ensures idx.changes == old(idx.changes) + [Write(docID, doc)]
    {
      ghost var rows := idx.Live();
      idx.Record(Put(Row(docID, [])), Write(docID, doc));
      LiveAfter(rows, docID, Row(docID, []));
    }

    /** The id leaves every list of every index of the collection. */
    method Delete(collection: string, docID: string)
      requires Valid()
      modifies indexes.Values
      ensures Valid()
      ensures forall idx | idx in indexes.Values :: if idx.collection == collection then Dropped(idx, docID) else unchanged(idx)
    {
      hide Index.Valid, Index.Tracks;
      var list := GetIndexesForCollection(collection);
      for i := 0 to |list|
        invariant forall idx | idx in indexes.Values :: idx.Valid() && idx.Tracks(lib)
        invariant forall idx | idx in indexes.Values && idx in list[..i] :: Dropped(idx, docID)
        invariant forall idx | idx in indexes.Values && idx !in list[..i] :: unchanged(idx)
      {
        DeleteOne(list[i], docID);
      }
    }

    method DeleteOne(idx: Index, docID: string)
      requires idx.Valid() && idx.Tracks(lib)
      modifies idx
      ensures idx.Valid() && idx.Tracks(lib) && Dropped(idx, docID)
    {
      ghost var told, past, held := idx.history, idx.changes, idx.vectors;
      match idx.kind
      case BTree => DeleteEntries(idx, docID);
      case GIN => DeleteEntries(idx, docID);
      case HNSW => DeleteHNSW(idx, docID);
      case Other(_) => idx.Record(Remove(docID), Erase(docID));
      TracksOneMore(lib, idx, told, past, held, Remove(docID), Erase(docID));
    }

    /** None is the error: no such index, or an index of no known type. */
    method QueryIndex(collection: string, name: string, query: Query) returns (r: Option<seq<string>>)
      requires Valid()
      ensures r.None? <==> KeyOf(collection, name) !in indexes || indexes[KeyOf(collection, name)].kind.Other?
      ensures r.Some? ==> Answers(indexes[KeyOf(collection, name)], query, r.value)
    {
      var key := KeyOf(collection, name);
      if key !in indexes {
        return None;
      }
      var idx := indexes[key];
      match idx.kind
      case BTree => {
        if query.value.Some? {
          var printed := lib.show(query.value.value);
          ListAnswers(idx, printed);
          return Some(if printed in idx.data then idx.data[printed] else []);
        }
        return Some([]);
      }
      case GIN => {
        if query.token.Some? {
          ListAnswers(idx, query.token.value);
          return Some(if query.token.value in idx.data then idx.data[query.token.value] else []);
        }
        return Some([]);
      }
      case HNSW => {
        if query.vector.Some? {
          var ids := VectorSearch.Search(idx.vectors, query.vector.value, query.limit);
          return Some(ids);
        }
        return Some([]);
      }
      case Other(_) => return None;
    }

    /** A B-tree answers a value, GIN a token, HNSW a vector; an index asked in another way answers nothing. */
    ghost predicate Answers(idx: Index, query: Query, ids: seq<string>)
      reads idx
    {
      match idx.kind
      case BTree => if query.value.Some? then AnswersKey(idx, lib.show(query.value.value), ids) else ids == []
      case GIN => if query.token.Some? then AnswersKey(idx, query.token.value, ids) else ids == []
      case HNSW =>
        if query.vector.Some? then
          var limit := if query.limit.Some? then query.limit.value else VectorSearch.DEFAULT_LIMIT;
          && VectorSearch.BestMatches(idx.vectors, query.vector.value, limit, ids)
          && forall id | id in ids :: IsLive(idx.Live(), id)
        else ids == []
      case Other(_) => false
    }
  }
}
