/** The file storage: documents by collection and id, sealed where they are sensitive, and the indexes that follow. */
module FileStore {
  import opened Json
  import opened Changes
  import opened Filters
  import opened Encryption
  import opened SecondaryIndex
  import opened Tokens

  /** A read gives a document or its absence, or fails. */
  datatype Read = Failure | Absent | Present(doc: Fields)

  predicate SaysEncrypted(doc: Fields) {
    "encrypted" in doc && doc["encrypted"] == Bool(true)
  }

  // ---------------------------------------------------------------- blobs

  /** A MEMORY document whose payload names a blob file. */
  predicate RefersToBlob(doc: Fields) {
    && "entryType" in doc && doc["entryType"] == Str("MEMORY")
    && HasPayload(doc) && "blobRef" in doc["payload"].fields && doc["payload"].fields["blobRef"].Str?
  }

  /** And the file can be read. */
  predicate Loads(doc: Fields, readFile: string -> Option<Value>) {
    RefersToBlob(doc) && readFile(doc["payload"].fields["blobRef"].text).Some?
  }

  /** The blob takes the place of the reference to it. */
  function WithBlob(doc: Fields, readFile: string -> Option<Value>): Fields {
    if !Loads(doc, readFile) then doc
    else
      var payload := doc["payload"].fields;
      doc["payload" := Object(payload["blob" := readFile(payload["blobRef"].text).value] - {"blobRef"})]
  }

  method LoadBlob(doc: FieldMap, readFile: string -> Option<Value>)
    modifies doc
    ensures doc.fields == WithBlob(old(doc.fields), readFile)
  {
    if "entryType" in doc.fields && doc.fields["entryType"] == Str("MEMORY") {
      if HasPayload(doc.fields) {
        var payload := doc.fields["payload"].fields;
        if "blobRef" in payload && payload["blobRef"].Str? {
          var blob := readFile(payload["blobRef"].text);
          if blob.Some? {
            payload := payload["blob" := blob.value];
            payload := payload - {"blobRef"};
            doc.fields := doc.fields["payload" := Object(payload)];
          }
        }
      }
    }
  }

  /** The document is a memory with a reference to a blob file at the path. */
  predicate NamesBlob(doc: Fields, payload: Fields, path: string) {
    && "entryType" in doc && doc["entryType"] == Str("MEMORY") && "payload" in doc && doc["payload"] == Object(payload)
    && "blobRef" in payload && payload["blobRef"] == Str(path)
  }

  /** What a read does with it: in the payload the file's content stands for the reference, and nothing else changes. */
  lemma BlobMeaning(doc: Fields, readFile: string -> Option<Value>)
    ensures Loads(doc, readFile) <==> exists payload, path :: NamesBlob(doc, payload, path) && readFile(path).Some?
    ensures !Loads(doc, readFile) ==> WithBlob(doc, readFile) == doc
    ensures forall payload, path, blob | NamesBlob(doc, payload, path) && readFile(path) == Some(blob) ::
      var read := WithBlob(doc, readFile);
      && read.Keys == doc.Keys && (forall key | key in doc && key != "payload" :: read[key] == doc[key])
      && read["payload"].Object? && HoldsBlob(payload, blob, read["payload"].fields)
  {
    if Loads(doc, readFile) {
      assert NamesBlob(doc, doc["payload"].fields, doc["payload"].fields["blobRef"].text);
    }
  }

  predicate HoldsBlob(payload: Fields, blob: Value, loaded: Fields) {
    && "blob" in loaded && loaded["blob"] == blob && "blobRef" !in loaded
    && (forall key | key in payload && key !in {"blob", "blobRef"} :: key in loaded && loaded[key] == payload[key])
    && (forall key | key in loaded && key != "blob" :: key in payload)
  }

  /** Loading always changes the document. */
  lemma LoadingChanges(doc: Fields, readFile: string -> Option<Value>)
    ensures WithBlob(doc, readFile) == doc <==> !Loads(doc, readFile)
  {
    if Loads(doc, readFile) {
      assert "blobRef" !in WithBlob(doc, readFile)["payload"].fields;
    }
  }

  /** Neither opening a document nor loading a blob brings back metadata or markers. */
  lemma OpenedStaysOpened(crypto: Crypto, file: Fields, readFile: string -> Option<Value>)
    requires OpenedDocument(crypto, file).Some?
    ensures var read := WithBlob(OpenedDocument(crypto, file).value, readFile);
      && "encrypted" !in read && "encryption_key_id" !in read
      && (HasPayload(file) ==> HasPayload(read) && NoMarkers(read["payload"].fields))
  {
    var restored := OpenedDocument(crypto, file).value;
    if HasPayload(file) {
      assert NoMarkers(restored["payload"].fields);
    }
    BlobIsNoMarker();
  }

  lemma BlobIsNoMarker()
    ensures !IsMarker("blob")
  {
    MarkerEnd("blob");
  }

  /** The input that shows it: stored as it is given, and changed by the read. */
  lemma BlobReferenceIsNotReadBack(path: string, readFile: string -> Option<Value>)
    requires readFile(path).Some?
    ensures
      var doc := map["id" := Str("x"), "entryType" := Str("MEMORY"), "payload" := Object(map["blobRef" := Str(path)])];
      HasID(doc) && !SaysEncrypted(doc) && WithBlob(doc, readFile) != doc
  {
    var doc := map["id" := Str("x"), "entryType" := Str("MEMORY"), "payload" := Object(map["blobRef" := Str(path)])];
    LoadingChanges(doc, readFile);
  }

  // ---------------------------------------------------------------- the files after a run

  type Record = map<string, seq<Change>>
  type Files = map<(string, string), Fields>

  function Of(changes: Record, collection: string): seq<Change> {
    if collection in changes then changes[collection] else []
  }

  function Noted(changes: Record, collection: string, c: Change): Record {
    changes[collection := Of(changes, collection) + [c]]
  }

  /** The file of a document, sealed under the key or as it was given. */
  ghost predicate FileOf(crypto: Crypto, collection: string, doc: Fields, keyID: Option<string>, file: Fields) {
    if keyID.Some? then SealedDocument(crypto, collection, keyID.value, doc, file) else file == doc
  }

  function FileIn(files: Files, path: (string, string)): Option<Fields> {
    if path in files then Some(files[path]) else None
  }

  function KeyIn(keys: map<(string, string), string>, path: (string, string)): Option<string> {
    if path in keys then Some(keys[path]) else None
  }

  /** There is a file for each document that the changes leave, under its own id, and no other file. */
  ghost predicate FilesFollow(crypto: Crypto, files: Files, keys: map<(string, string), string>, changes: Record) {
    forall path: (string, string) ::
      PathFollows(crypto, path, FileIn(files, path), KeyIn(keys, path), Of(changes, path.0))
  }

  ghost predicate PathFollows(crypto: Crypto, path: (string, string), file: Option<Fields>, keyID: Option<string>, cs: seq<Change>) {
    var docs := DocumentsAfter(cs);
    && (file.Some? <==> path.1 in docs)
    && (file.Some? ==>
          && HasID(docs[path.1]) && docs[path.1]["id"].text == path.1
          && FileOf(crypto, path.0, docs[path.1], keyID, file.value))
  }

  lemma WriteFollows(crypto: Crypto, files: Files, keys: map<(string, string), string>, changes: Record,
                     collection: string, doc: Fields, keyID: Option<string>, file: Fields)
    requires FilesFollow(crypto, files, keys, changes) && HasID(doc) && FileOf(crypto, collection, doc, keyID, file)
    ensures var path := (collection, doc["id"].text);
      FilesFollow(crypto, files[path := file], if keyID.Some? then keys[path := keyID.value] else keys - {path},
        Noted(changes, collection, Write(doc["id"].text, doc)))
  {
    var written := (collection, doc["id"].text);
    var files', keys', changes' := files[written := file], if keyID.Some? then keys[written := keyID.value] else keys - {written},
      Noted(changes, collection, Write(doc["id"].text, doc));
    hide FileOf, DocumentsAfter, PathFollows;
    forall path: (string, string)
      ensures PathFollows(crypto, path, FileIn(files', path), KeyIn(keys', path), Of(changes', path.0))
    {
      assert PathFollows(crypto, path, FileIn(files, path), KeyIn(keys, path), Of(changes, path.0));
      if path.0 == collection {
        PathAfterWrite(crypto, path, FileIn(files, path), KeyIn(keys, path), Of(changes, path.0), doc, keyID, file);
      }
    }
  }

  /** The path of the written document has its new file, another path of the collection what it had. */
  lemma PathAfterWrite(crypto: Crypto, path: (string, string), before: Option<Fields>, key: Option<string>, cs: seq<Change>,
                       doc: Fields, keyID: Option<string>, file: Fields)
    requires PathFollows(crypto, path, before, key, cs) && HasID(doc) && FileOf(crypto, path.0, doc, keyID, file)
    ensures var id := doc["id"].text;
      if path.1 == id then PathFollows(crypto, path, Some(file), keyID, cs + [Write(id, doc)])
      else PathFollows(crypto, path, before, key, cs + [Write(id, doc)])
  {
    DocumentsOneMore(cs, Write(doc["id"].text, doc));
    hide FileOf, DocumentsAfter;
  }

  lemma PathAfterErase(crypto: Crypto, path: (string, string), before: Option<Fields>, key: Option<string>, cs: seq<Change>, id: string)
    requires PathFollows(crypto, path, before, key, cs)
    ensures if path.1 == id then PathFollows(crypto, path, None, None, cs + [Erase(id)])
            else PathFollows(crypto, path, before, key, cs + [Erase(id)])
  {
    DocumentsOneMore(cs, Erase(id));
    hide FileOf, DocumentsAfter;
  }

  lemma EraseFollows(crypto: Crypto, files: Files, keys: map<(string, string), string>, changes: Record, collection: string, id: string)
    requires FilesFollow(crypto, files, keys, changes)
    ensures FilesFollow(crypto, files - {(collection, id)}, keys - {(collection, id)}, Noted(changes, collection, Erase(id)))
  {
    var files', keys', changes' := files - {(collection, id)}, keys - {(collection, id)}, Noted(changes, collection, Erase(id));
    hide FileOf, DocumentsAfter, PathFollows;
    forall path: (string, string)
      ensures PathFollows(crypto, path, FileIn(files', path), KeyIn(keys', path), Of(changes', path.0))
    {
      assert PathFollows(crypto, path, FileIn(files, path), KeyIn(keys, path), Of(changes, path.0));
      PathAfterErase(crypto, path, FileIn(files, path), KeyIn(keys, path), Of(changes, path.0), id);
    }
  }

  /** The changes that an index has seen are the last ones of its collection: all since it was created. */
  predicate IsTail(past: seq<Change>, all: seq<Change>) {
    |past| <= |all| && past == all[|all| - |past|..]
  }

  lemma TailOneMore(past: seq<Change>, changes: Record, collection: string, other: string, c: Change)
    requires IsTail(past, Of(changes, other))
    ensures IsTail(if other == collection then past + [c] else past, Of(Noted(changes, collection, c), other))
  {
  }

  /**
   * What a file must keep secret, from the fields alone: with a key, every secret field of the payload is in the file
   * as a text that opens to it, with its marker. Without a key, and in a collection without secrets, the file is the
   * document.
   */
  ghost predicate KeepsSecrets(crypto: Crypto, collection: string, hasKey: bool, doc: Fields, file: Fields) {
    && (hasKey && HasPayload(doc) ==> HasPayload(file) && forall key | key in doc["payload"].fields && (collection, key) in SECRETS ::
          HoldsSecret(crypto, doc["payload"].fields, file["payload"].fields, key))
    && (!hasKey || (forall key :: (collection, key) !in SECRETS) ==> file == doc)
  }

  lemma FileKeepsSecrets(crypto: Crypto, collection: string, masterKey: Option<string>, doc: Fields, file: Fields)
    requires if masterKey.Some? && collection in SENSITIVE_COLLECTIONS then SealedDocument(crypto, collection, masterKey.value, doc, file)
             else file == doc
    ensures KeepsSecrets(crypto, collection, masterKey.Some?, doc, file)
  {
    hide HoldsSecret, Sealed, MarksSecret;
    SecretCollections(collection);
    if HasPayload(doc) && masterKey.Some? && collection in SENSITIVE_COLLECTIONS {
      ExactlySecretsAreSealed(crypto, collection, doc["payload"].fields, file["payload"].fields);
    }
  }

  lemma SecretCollections(collection: string)
    ensures collection in SENSITIVE_COLLECTIONS <==> exists key :: (collection, key) in SECRETS
  {
    if collection in SENSITIVE_COLLECTIONS {
      SensitiveIsSecret(collection, SensitiveFields(collection)[0]);
    }
  }

  class FileStorage {
    const crypto: Crypto
    const index: IndexManager
    var masterKey: Option<string>
    var files: Files
    var nonce: nat
    /** The writes and deletions that were done, by collection, and the keys that the sealed files are sealed under. */
    ghost var changes: Record
    ghost var keys: map<(string, string), string>

    ghost predicate Valid()
      reads this, index, index.indexes.Values
    {
      && (forall keyID :: Inverts(crypto, keyID))
      && index.Valid()
      && FilesFollow(crypto, files, keys, changes)
      && (keys != map[] ==> masterKey.Some?)
      && IndexesFollow()
    }

    ghost predicate IndexesFollow()
      reads this, index, index.indexes.Values
    {
      forall idx | idx in index.indexes.Values :: IsTail(idx.changes, Of(changes, idx.collection))
    }

    constructor (crypto: Crypto, lib: Library)
      requires forall keyID :: Inverts(crypto, keyID)
      ensures Valid() && files == map[] && masterKey == None && this.crypto == crypto && changes == map[]
      ensures fresh(index) && index.lib == lib && index.indexes == map[]
    {
      this.crypto, masterKey, files, nonce := crypto, None, map[], 0;
      changes, keys := map[], map[];
      index := new IndexManager(lib);
    }

    method SetMasterKey(keyID: string)
      requires Valid()
      modifies `masterKey
      ensures Valid() && masterKey == Some(keyID)
    {
      masterKey := Some(keyID);
    }

    /** An index starts empty, whatever the collection holds; see `IndexManager.CreateIndex`. */
    method CreateIndex(collection: string, name: string, kind: IndexKind, fields: seq<string>, unique: bool, partialExpr: string, saved: bool)
      returns (ok: bool)
      requires Valid()
      modifies index
      ensures Valid()
      ensures ok <==> IndexManager.KeyOf(collection, name) !in old(index.indexes) && saved
      ensures IndexManager.KeyOf(collection, name) in old(index.indexes) ==> index.indexes == old(index.indexes)
      ensures IndexManager.KeyOf(collection, name) !in old(index.indexes) ==>
        && IndexManager.KeyOf(collection, name) in index.indexes
        && index.indexes - {IndexManager.KeyOf(collection, name)} == old(index.indexes)
        && var idx := index.indexes[IndexManager.KeyOf(collection, name)];
          fresh(idx) && idx.changes == [] && idx.kind == kind && idx.fields == fields && idx.unique == unique
          && idx.partialExpr == partialExpr && idx.name == name && idx.collection == collection
    {
      hide FilesFollow, Inverts, Of, Index.Valid, Index.Tracks;
      ghost var before, key := index.indexes, IndexManager.KeyOf(collection, name);
      ok := index.CreateIndex(collection, name, kind, fields, unique, partialExpr, saved);
      forall idx | idx in index.indexes.Values ensures IsTail(idx.changes, Of(changes, idx.collection)) {
        var k :| k in index.indexes && index.indexes[k] == idx;
        if k in before {
          assert before[k] == idx && idx in before.Values;
          assert old(IsTail(idx.changes, Of(changes, idx.collection)));
        }
      }
    }

    method DropIndex(collection: string, name: string) returns (ok: bool)
      requires Valid()
      modifies index
      ensures Valid()
      ensures ok <==> IndexManager.KeyOf(collection, name) in old(index.indexes)
      ensures index.indexes == old(index.indexes) - {IndexManager.KeyOf(collection, name)}
    {
      hide FilesFollow, Inverts;
      ok := index.DropIndex(collection, name);
    }

    /** Whether a document of the collection is sealed before it is written. */
    ghost predicate Seals(collection: string)
      reads this
    {
      masterKey.Some? && collection in SENSITIVE_COLLECTIONS
    }

    /** What a successful write leaves in the files. */
    twostate predicate Written(collection: string, doc: Fields)
      requires HasID(doc)
      reads this
    {
      var path := (collection, doc["id"].text);
      && path in files && files == old(files)[path := files[path]]
      && changes == Noted(old(changes), collection, Write(doc["id"].text, doc))
      && keys == (if Seals(collection) then old(keys)[path := masterKey.value] else old(keys) - {path})
      && if Seals(collection) then SealedDocument(crypto, collection, masterKey.value, doc, files[path]) else files[path] == doc
    }

    /**
     * Writes the document's file, sealed where the collection asks for it; `written` says whether the file
     * system took it. The indexes take the document as it was given, in the clear, and the caller's map is
     * not touched.
     */
    method Insert(collection: string, doc: FieldMap, written: bool) returns (ok: bool)
      requires Valid() && HasID(doc.fields)
      modifies this`files, this`nonce, this`changes, this`keys, index.indexes.Values
      ensures Valid()
      ensures ok ==> written && Written(collection, doc.fields)
      ensures ok ==> KeepsSecrets(crypto, collection, masterKey.Some?, doc.fields, files[(collection, doc.fields["id"].text)])
      ensures ok ==> forall idx | idx in index.indexes.Values ::
        if idx.collection == collection then index.Followed(idx, doc.fields) else unchanged(idx)
      ensures !ok ==> files == old(files) && changes == old(changes) && keys == old(keys)
      ensures !ok ==> !written || (Seals(collection) && HasPayload(doc.fields))
      ensures !ok ==> forall idx | idx in index.indexes.Values :: unchanged(idx)
    {
      hide SealedDocument, HasPayload, FilesFollow, IsTail, Inverts, Of, Noted, KeepsSecrets, Index.Valid, Index.Tracks;
      ok := WriteFile(collection, doc, written);
      if ok {
        FileKeepsSecrets(crypto, collection, masterKey, doc.fields, files[(collection, doc.fields["id"].text)]);
        index.Insert(collection, doc.fields);
        forall idx | idx in index.indexes.Values ensures IsTail(idx.changes, Of(changes, idx.collection)) {
          assert old(IsTail(idx.changes, Of(changes, idx.collection)));
          TailOneMore(old(idx.changes), old(changes), collection, idx.collection, Write(doc.fields["id"].text, doc.fields));
        }
      }
    }

    method WriteFile(collection: string, doc: FieldMap, written: bool) returns (ok: bool)
      requires Valid() && HasID(doc.fields)
      modifies this`files, this`nonce, this`changes, this`keys
      ensures ok ==> written && Written(collection, doc.fields)
      ensures FilesFollow(crypto, files, keys, changes) && (keys != map[] ==> masterKey.Some?)
      ensures !ok ==> files == old(files) && changes == old(changes) && keys == old(keys)
      ensures !ok ==> !written || (Seals(collection) && HasPayload(doc.fields))
    {
      var copy := new FieldMap(doc.fields);
      var sensitive := IsEncryptedCollection(collection);
      if sensitive && masterKey.Some? {
        var done, next := EncryptDocument(crypto, collection, copy, masterKey.value, nonce);
        nonce := next;
        if !done {
          return false;
        }
      }
      if !written {
        return false;
      }
      Note(collection, doc.fields, if sensitive then masterKey else None, copy.fields);
      files := files[(collection, doc.fields["id"].text) := copy.fields];
      ok := true;
    }

    ghost method Note(collection: string, doc: Fields, keyID: Option<string>, file: Fields)
      requires FilesFollow(crypto, files, keys, changes) && (keys != map[] ==> masterKey.Some?)
      requires HasID(doc) && FileOf(crypto, collection, doc, keyID, file) && (keyID.Some? ==> masterKey.Some?)
      modifies this`changes, this`keys
      ensures FilesFollow(crypto, files[(collection, doc["id"].text) := file], keys, changes)
      ensures changes == Noted(old(changes), collection, Write(doc["id"].text, doc)) && (keys != map[] ==> masterKey.Some?)
      ensures var path := (collection, doc["id"].text);
        keys == if keyID.Some? then old(keys)[path := keyID.value] else old(keys) - {path}
    {
      WriteFollows(crypto, files, keys, changes, collection, doc, keyID, file);
      var path := (collection, doc["id"].text);
      keys := if keyID.Some? then keys[path := keyID.value] else keys - {path};
      changes := Noted(changes, collection, Write(doc["id"].text, doc));
    }

    method RemoveFile(collection: string, id: string)
      requires FilesFollow(crypto, files, keys, changes)
      modifies this`files, this`changes, this`keys
      ensures files == old(files) - {(collection, id)} && changes == Noted(old(changes), collection, Erase(id))
      ensures FilesFollow(crypto, files, keys, changes) && keys == old(keys) - {(collection, id)}
    {
      EraseFollows(crypto, files, keys, changes, collection, id);
      files, keys, changes := files - {(collection, id)}, keys - {(collection, id)}, Noted(changes, collection, Erase(id));
    }

    /** An error of removing the file, other than that there is none, leaves the indexes alone. */
    method Delete(collection: string, id: string, removed: bool) returns (ok: bool)
      requires Valid()
      modifies this`files, this`changes, this`keys, index.indexes.Values
      ensures Valid() && ok == removed
      ensures !ok ==> files == old(files) && changes == old(changes) && keys == old(keys)
      ensures !ok ==> forall idx | idx in index.indexes.Values :: unchanged(idx)
      ensures ok ==> files == old(files) - {(collection, id)} && keys == old(keys) - {(collection, id)}
      ensures ok ==> changes == Noted(old(changes), collection, Erase(id))
      ensures ok ==> forall idx | idx in index.indexes.Values ::
        if idx.collection == collection then index.Dropped(idx, id) else unchanged(idx)
    {
      hide FilesFollow, IsTail, Inverts, Of, Noted, Index.Valid, Index.Tracks;
      if !removed {
        return false;
      }
      RemoveFile(collection, id);
      index.Delete(collection, id);
      forall idx | idx in index.indexes.Values ensures IsTail(idx.changes, Of(changes, idx.collection)) {
        assert old(IsTail(idx.changes, Of(changes, idx.collection)));
        TailOneMore(old(idx.changes), old(changes), collection, idx.collection, Erase(id));
      }
      ok := true;
    }

    /** A file that says it is encrypted is opened, when there is a key; then a blob it refers to is loaded. */
    ghost function Reads(collection: string, id: string, readFile: string -> Option<Value>): Read
      reads this
    {
      if (collection, id) !in files then Absent
      else
        var file := files[(collection, id)];
        if SaysEncrypted(file) && masterKey.Some? then
          match OpenedDocument(crypto, file)
          case None => Failure
          case Some(doc) => Present(WithBlob(doc, readFile))
        else Present(WithBlob(file, readFile))
    }

    method Find(collection: string, id: string, readFile: string -> Option<Value>) returns (r: Read)
      requires Valid()
      ensures r == Reads(collection, id, readFile)
    {
      if (collection, id) !in files {
        return Absent;
      }
      var doc := new FieldMap(files[(collection, id)]);
      if SaysEncrypted(doc.fields) && masterKey.Some? {
        var ok := DecryptDocument(crypto, doc);
        if !ok {
          return Failure;
        }
      }
      LoadBlob(doc, readFile);
      r := Present(doc.fields);
    }

    /**
     * In every state, the last document written under an id is read back exactly as it was written when, and
     * only when: a sealed one is plain; one that is not sealed does not itself say that it is encrypted, or
     * there is no key; and it does not refer to a blob that loads.
     */
    ghost predicate ReadsBack(doc: Fields, sealed: bool, readFile: string -> Option<Value>)
      reads this
    {
      && (if sealed && HasPayload(doc) then Plain(doc)
          else masterKey.None? || "encrypted" !in doc || doc["encrypted"] != Bool(true))
      && !Loads(doc, readFile)
    }

    lemma ReadBackIff(collection: string, id: string, readFile: string -> Option<Value>)
      requires Valid()
      ensures (collection, id) in files <==> id in DocumentsAfter(Of(changes, collection))
      ensures (collection, id) in files ==>
        var doc := DocumentsAfter(Of(changes, collection))[id];
        (Reads(collection, id, readFile) == Present(doc) <==> ReadsBack(doc, (collection, id) in keys, readFile))
    {
      var path := (collection, id);
      assert PathFollows(crypto, path, FileIn(files, path), KeyIn(keys, path), Of(changes, collection));
      if path in files {
        var file, doc := files[path], DocumentsAfter(Of(changes, collection))[id];
        LoadingChanges(doc, readFile);
        if masterKey.Some? && SaysEncrypted(file) {
          if path in keys && HasPayload(doc) {
            DocumentRestoredIff(crypto, collection, keys[path], doc, file);
          }
          if OpenedDocument(crypto, file).Some? {
            OpenedStaysOpened(crypto, file, readFile);
          }
        }
      }
    }
  }
}
