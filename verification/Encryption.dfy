/** Field encryption at rest: sensitive payload fields are sealed on the way in and opened on the way out. */
module Encryption {
  import opened Json
  import opened Text
  import opened Filters

  /** The library calls. Sealing draws a nonce, so the same bytes may seal differently each time. */
  datatype Crypto = Crypto(
    marshal: Value -> Option<string>,
    unmarshal: string -> Option<Value>,
    seal: (string, string, nat) -> Option<string>,
    open: string -> Option<string>)

  /** Whatever was sealed under the key opens to the same bytes, and JSON bytes read back as the same value. */
  ghost predicate Inverts(crypto: Crypto, keyID: string) {
    forall v, bytes, nonce, sealed | crypto.marshal(v) == Some(bytes) && crypto.seal(bytes, keyID, nonce) == Some(sealed) ::
      crypto.open(sealed) == Some(bytes) && crypto.unmarshal(bytes) == Some(v)
  }

  // ---------------------------------------------------------------- what is sensitive

  const SENSITIVE_COLLECTIONS := ["credentials", "pqc_keys", "sessions", "audit_log", "threat_events", "access_control"]

  function SensitiveFields(collection: string): seq<string> {
    match collection
    case "credentials" => ["hash", "salt"]
    case "pqc_keys" => ["kyber_private_key", "dilithium_private_key"]
    case "sessions" => ["token_hash"]
    case "audit_log" => ["details"]
    case "threat_events" => ["indicators"]
    case "access_control" => ["permissions"]
    case _ => []
  }

  predicate Sensitive(collection: string, field: string) {
    field in SensitiveFields(collection)
  }

  method IsEncryptedCollection(collection: string) returns (ok: bool)
    ensures ok <==> collection in SENSITIVE_COLLECTIONS
    ensures ok <==> exists field :: Sensitive(collection, field)
  {
    ok := false;
    for i := 0 to |SENSITIVE_COLLECTIONS|
      invariant collection !in SENSITIVE_COLLECTIONS[..i]
    {
      if collection == SENSITIVE_COLLECTIONS[i] {
        assert Sensitive(collection, SensitiveFields(collection)[0]);
        return true;
      }
    }
  }

  method IsSensitiveField(collection: string, field: string) returns (ok: bool)
    ensures ok <==> Sensitive(collection, field)
  {
    var fields := SensitiveFields(collection);
    for i := 0 to |fields|
      invariant field !in fields[..i]
    {
      if field == fields[i] {
        return true;
      }
    }
    ok := false;
  }

  // ---------------------------------------------------------------- payloads

  const SUFFIX := "_encrypted"

  predicate IsMarker(key: string) {
    HasSuffix(key, SUFFIX)
  }

  /** The text opens to the value. */
  predicate OpensTo(crypto: Crypto, sealed: Value, v: Value) {
    && sealed.Str? && crypto.open(sealed.text).Some?
    && crypto.unmarshal(crypto.open(sealed.text).value) == Some(v)
  }

  /** What a key of the payload becomes, and what the marker of a sensitive key is. */
  ghost predicate FromField(crypto: Crypto, collection: string, payload: Fields, key: string, v: Value) {
    key in payload && if Sensitive(collection, key) then OpensTo(crypto, v, payload[key]) else v == payload[key]
  }

  ghost predicate FromMarker(collection: string, payload: Fields, key: string, v: Value) {
    IsMarker(key) && key[..|key| - |SUFFIX|] in payload && Sensitive(collection, key[..|key| - |SUFFIX|]) && v == Bool(true)
  }

  /**
   * A sealed payload. A payload key that is also the marker of another one may come from either, as the order
   * of the map decides.
   */
  ghost predicate Sealed(crypto: Crypto, collection: string, payload: Fields, out: Fields) {
    && (forall key | key in payload :: key in out && (Sensitive(collection, key) ==> key + SUFFIX in out))
    && (forall key | key in out :: FromField(crypto, collection, payload, key, out[key]) || FromMarker(collection, payload, key, out[key]))
  }

  predicate Marked(payload: Fields, key: string) {
    key + SUFFIX in payload && payload[key + SUFFIX] == Bool(true)
  }

  predicate CanOpen(crypto: Crypto, sealed: Value) {
    sealed.Str? && crypto.open(sealed.text).Some? && crypto.unmarshal(crypto.open(sealed.text).value).Some?
  }

  function OpenValue(crypto: Crypto, sealed: Value): Value
    requires CanOpen(crypto, sealed)
  {
    crypto.unmarshal(crypto.open(sealed.text).value).value
  }

  /** Markers are dropped, marked fields opened, the rest kept; any field that does not open fails the whole. */
  function Opened(crypto: Crypto, payload: Fields): Option<Fields> {
    if forall key | key in payload && !IsMarker(key) && Marked(payload, key) :: CanOpen(crypto, payload[key])
    then Some(map key | key in payload && !IsMarker(key)
      :: if Marked(payload, key) then OpenValue(crypto, payload[key]) else payload[key])
    else None
  }

  /** The key has the form of a marker, and the field has a marker that is true. */
  ghost predicate NamesMarker(key: string) {
    exists field: string :: key == field + "_encrypted"
  }

  predicate SaysSealed(payload: Fields, field: string) {
    field + "_encrypted" in payload && payload[field + "_encrypted"] == Bool(true)
  }

  /**
   * What opening does to any payload, sealed here or not: a marked field gives the value that its text opens to, the
   * other fields stay, no marker is left; and it fails exactly when some marked field opens to nothing.
   */
  lemma OpenedMeaning(crypto: Crypto, payload: Fields)
    ensures Opened(crypto, payload).None? <==>
      exists key :: key in payload && !NamesMarker(key) && SaysSealed(payload, key) && forall v :: !OpensTo(crypto, payload[key], v)
    ensures Opened(crypto, payload).Some? ==>
      var plain := Opened(crypto, payload).value;
      && (forall key :: key in plain <==> key in payload && !NamesMarker(key))
      && (forall key | key in plain ::
            if SaysSealed(payload, key) then OpensTo(crypto, payload[key], plain[key]) else plain[key] == payload[key])
  {
    forall key: string ensures IsMarker(key) <==> NamesMarker(key) {
      if IsMarker(key) {
        assert key == key[..|key| - |SUFFIX|] + "_encrypted";
      }
    }
    forall key | key in payload ensures CanOpen(crypto, payload[key]) <==> exists v :: OpensTo(crypto, payload[key], v) {
      if CanOpen(crypto, payload[key]) {
        assert OpensTo(crypto, payload[key], OpenValue(crypto, payload[key]));
      }
    }
    hide IsMarker, NamesMarker;
  }

  predicate NoMarkers(payload: Fields) {
    forall key | key in payload :: !IsMarker(key)
  }

  lemma MarkerOf(key: string)
    ensures IsMarker(key + SUFFIX) && (key + SUFFIX)[..|key + SUFFIX| - |SUFFIX|] == key
  {
  }

  /** Opening a sealed payload restores it exactly when none of its own keys looks like a marker. */
  lemma PayloadRestoredIff(crypto: Crypto, collection: string, payload: Fields, out: Fields)
    requires Sealed(crypto, collection, payload, out)
    ensures Opened(crypto, out) == Some(payload) <==> NoMarkers(payload)
  {
    if NoMarkers(payload) {
      forall key | key in out && !IsMarker(key)
        ensures key in payload
        ensures Marked(out, key) <==> Sensitive(collection, key)
        ensures if Marked(out, key) then OpensTo(crypto, out[key], payload[key]) else out[key] == payload[key]
      {
        assert FromField(crypto, collection, payload, key, out[key]);
        MarkerOf(key);
      }
      var restored := Opened(crypto, out);
      assert restored.Some? && restored.value == payload;
    } else {
      var key :| key in payload && IsMarker(key);
      assert Opened(crypto, out).Some? ==> key !in Opened(crypto, out).value;
    }
  }

  /** No sensitive field has a name that looks like a marker. */
  lemma SensitiveIsNoMarker(collection: string, field: string)
    requires Sensitive(collection, field)
    ensures !IsMarker(field)
  {
    assert field != [] && field[|field| - 1] in {'h', 't', 'y', 's'};
    MarkerEnd(field);
  }

  lemma MarkerEnd(key: string)
    ensures IsMarker(key) ==> key != [] && key[|key| - 1] == 'd'
  {
    if IsMarker(key) {
      assert key[|key| - |SUFFIX|..][|SUFFIX| - 1] == 'd';
    }
  }

  /** A sensitive field's plain value is not what is stored under its key. */
  lemma SensitiveFieldsAreSealed(crypto: Crypto, collection: string, payload: Fields, out: Fields, key: string)
    requires Sealed(crypto, collection, payload, out) && key in payload && Sensitive(collection, key)
    ensures key in out && OpensTo(crypto, out[key], payload[key])
  {
    SensitiveIsNoMarker(collection, key);
    hide Sensitive, IsMarker, OpensTo;
  }

  /** The fields that are secret, collection by collection. */
  const SECRETS := {
    ("credentials", "hash"), ("credentials", "salt"),
    ("pqc_keys", "kyber_private_key"), ("pqc_keys", "dilithium_private_key"),
    ("sessions", "token_hash"), ("audit_log", "details"),
    ("threat_events", "indicators"), ("access_control", "permissions")}

  lemma SensitiveIsSecret(collection: string, field: string)
    ensures Sensitive(collection, field) <==> (collection, field) in SECRETS
  {
  }

  /** The key is the marker of a secret field of the payload. */
  ghost predicate MarksSecret(collection: string, payload: Fields, key: string) {
    exists field :: field in payload && (collection, field) in SECRETS && key == field + "_encrypted"
  }

  /** Under the key is a text that opens to the payload's value, and its marker is set. */
  predicate HoldsSecret(crypto: Crypto, payload: Fields, out: Fields, key: string)
    requires key in payload
  {
    && key in out && out[key].Str? && crypto.open(out[key].text).Some?
    && crypto.unmarshal(crypto.open(out[key].text).value) == Some(payload[key])
    && key + "_encrypted" in out
    && (out[key + "_encrypted"] == Bool(true)
        || (key + "_encrypted" in payload && out[key + "_encrypted"] == payload[key + "_encrypted"]))
  }

  lemma SecretIsSealed(crypto: Crypto, collection: string, payload: Fields, out: Fields, key: string)
    requires Sealed(crypto, collection, payload, out) && key in payload && (collection, key) in SECRETS
    ensures HoldsSecret(crypto, payload, out, key)
  {
    SensitiveIsSecret(collection, key);
    hide Sensitive;
    SensitiveFieldsAreSealed(crypto, collection, payload, out, key);
    MarkerOf(key);
    MarkerIsNotSealed(crypto, collection, payload, out, key + SUFFIX);
  }

  lemma MarkerMarksSecret(collection: string, payload: Fields, key: string, v: Value)
    requires FromMarker(collection, payload, key, v)
    ensures v == Bool(true) && MarksSecret(collection, payload, key)
  {
    var field := key[..|key| - |SUFFIX|];
    SensitiveIsSecret(collection, field);
    assert key == field + "_encrypted";
  }

  lemma OtherIsKept(crypto: Crypto, collection: string, payload: Fields, out: Fields, key: string)
    requires Sealed(crypto, collection, payload, out) && (collection, key) !in SECRETS && (key in payload || key in out)
    ensures key in out
    ensures (key in payload && out[key] == payload[key]) || (out[key] == Bool(true) && MarksSecret(collection, payload, key))
  {
    SensitiveIsSecret(collection, key);
    hide Sensitive, MarksSecret;
    if FromMarker(collection, payload, key, out[key]) {
      MarkerMarksSecret(collection, payload, key, out[key]);
    }
  }

  lemma AddedIsMarker(crypto: Crypto, collection: string, payload: Fields, out: Fields, key: string)
    requires Sealed(crypto, collection, payload, out) && key in out && key !in payload
    ensures out[key] == Bool(true) && MarksSecret(collection, payload, key)
  {
    hide Sensitive, MarksSecret;
    MarkerMarksSecret(collection, payload, key, out[key]);
  }

  /**
   * What an encrypted payload holds, field by field. Exactly the secret fields are sealed, with a marker each, and
   * the others kept; only a field of the payload that is named as a marker can be in the place of that marker.
   */
  lemma ExactlySecretsAreSealed(crypto: Crypto, collection: string, payload: Fields, out: Fields)
    requires Sealed(crypto, collection, payload, out)
    ensures forall key | key in payload && (collection, key) in SECRETS :: HoldsSecret(crypto, payload, out, key)
    ensures forall key | key in payload && (collection, key) !in SECRETS ::
      key in out && (out[key] == payload[key] || (out[key] == Bool(true) && MarksSecret(collection, payload, key)))
    ensures forall key | key in out && key !in payload :: out[key] == Bool(true) && MarksSecret(collection, payload, key)
  {
    hide HoldsSecret, MarksSecret, Sealed;
    forall key | key in payload && (collection, key) in SECRETS ensures HoldsSecret(crypto, payload, out, key) {
      SecretIsSealed(crypto, collection, payload, out, key);
    }
    forall key | key in payload && (collection, key) !in SECRETS
      ensures key in out && (out[key] == payload[key] || (out[key] == Bool(true) && MarksSecret(collection, payload, key)))
    {
      OtherIsKept(crypto, collection, payload, out, key);
    }
    forall key | key in out && key !in payload ensures out[key] == Bool(true) && MarksSecret(collection, payload, key) {
      AddedIsMarker(crypto, collection, payload, out, key);
    }
  }

  lemma MarkerIsNotSealed(crypto: Crypto, collection: string, payload: Fields, out: Fields, key: string)
    requires Sealed(crypto, collection, payload, out) && key in out && IsMarker(key)
    ensures out[key] == Bool(true) || (key in payload && out[key] == payload[key])
  {
    if Sensitive(collection, key) {
      SensitiveIsNoMarker(collection, key);
    }
  }

  /** The same, while the keys in `rest` have not been visited. */
  ghost predicate SealedSoFar(crypto: Crypto, collection: string, payload: Fields, rest: set<string>, out: Fields) {
    && (forall key | key in payload && key !in rest :: key in out && (Sensitive(collection, key) ==> key + SUFFIX in out))
    && (forall key | key in out :: FromField(crypto, collection, payload, key, out[key]) || FromMarker(collection, payload, key, out[key]))
  }

  lemma SealedNothing(crypto: Crypto, collection: string, payload: Fields)
    ensures SealedSoFar(crypto, collection, payload, payload.Keys, map[])
  {
  }

  lemma SealedAll(crypto: Crypto, collection: string, payload: Fields, out: Fields)
    requires SealedSoFar(crypto, collection, payload, {}, out)
    ensures Sealed(crypto, collection, payload, out)
  {
  }

  lemma SealOne(crypto: Crypto, collection: string, payload: Fields, rest: set<string>, out: Fields, key: string, sealed: Value)
    requires SealedSoFar(crypto, collection, payload, rest, out) && key in payload
    requires Sensitive(collection, key) && OpensTo(crypto, sealed, payload[key])
    ensures SealedSoFar(crypto, collection, payload, rest - {key}, out[key := sealed][key + SUFFIX := Bool(true)])
  {
    MarkerOf(key);
  }

  lemma KeepOne(crypto: Crypto, collection: string, payload: Fields, rest: set<string>, out: Fields, key: string)
    requires SealedSoFar(crypto, collection, payload, rest, out) && key in payload && !Sensitive(collection, key)
    ensures SealedSoFar(crypto, collection, payload, rest - {key}, out[key := payload[key]])
  {
  }

  method EncryptPayload(crypto: Crypto, collection: string, payload: Fields, keyID: string, nonce: nat)
    returns (r: Option<Fields>, next: nat)
    requires Inverts(crypto, keyID)
    ensures r.Some? ==> Sealed(crypto, collection, payload, r.value)
    ensures r.None? ==> exists key, n | key in payload && Sensitive(collection, key) :: !CanSeal(crypto, payload[key], keyID, n)
  {
    hide SealedSoFar, Sensitive;
    next := nonce;
    var encrypted: Fields := map[];
    SealedNothing(crypto, collection, payload);
    var rest := payload.Keys;
    while rest != {}
      invariant rest <= payload.Keys
      invariant SealedSoFar(crypto, collection, payload, rest, encrypted)
    {
      var key :| key in rest;
      var sensitive := IsSensitiveField(collection, key);
      if sensitive {
        var bytes := crypto.marshal(payload[key]);
        var sealed := if bytes.Some? then crypto.seal(bytes.value, keyID, next) else None;
        if sealed.None? {
          assert !CanSeal(crypto, payload[key], keyID, next);
          return None, next;
        }
        next := next + 1;
        SealOne(crypto, collection, payload, rest, encrypted, key, Str(sealed.value));
        encrypted := encrypted[key := Str(sealed.value)];
        encrypted := encrypted[key + SUFFIX := Bool(true)];
      } else {
        KeepOne(crypto, collection, payload, rest, encrypted, key);
        encrypted := encrypted[key := payload[key]];
      }
      rest := rest - {key};
    }
    SealedAll(crypto, collection, payload, encrypted);
    r := Some(encrypted);
  }

  predicate CanSeal(crypto: Crypto, v: Value, keyID: string, nonce: nat) {
    crypto.marshal(v).Some? && crypto.seal(crypto.marshal(v).value, keyID, nonce).Some?
  }

  method DecryptPayload(crypto: Crypto, payload: Fields) returns (r: Option<Fields>)
    ensures r == Opened(crypto, payload)
  {
    var decrypted: Fields := map[];
    var rest := payload.Keys;
    while rest != {}
      invariant rest <= payload.Keys
      invariant forall key | key in payload && key !in rest && !IsMarker(key) && Marked(payload, key) :: CanOpen(crypto, payload[key])
      invariant decrypted == map key | key in payload && key !in rest && !IsMarker(key)
        :: if Marked(payload, key) then OpenValue(crypto, payload[key]) else payload[key]
    {
      var key :| key in rest;
      rest := rest - {key};
      if IsMarker(key) {
        continue;
      }
      if Marked(payload, key) {
        if !payload[key].Str? {
          return None;
        }
        var bytes := crypto.open(payload[key].text);
        var v := if bytes.Some? then crypto.unmarshal(bytes.value) else None;
        if v.None? {
          return None;
        }
        decrypted := decrypted[key := v.value];
      } else {
        decrypted := decrypted[key := payload[key]];
      }
    }
    assert Opened(crypto, payload).Some? && decrypted == Opened(crypto, payload).value;
    r := Some(decrypted);
  }

  // ---------------------------------------------------------------- documents

  /** The document as it is stored: untouched, or with its payload sealed and the two metadata keys set. */
  ghost predicate SealedDocument(crypto: Crypto, collection: string, keyID: string, doc: Fields, out: Fields) {
    if HasPayload(doc) then
      && "payload" in out && out["payload"].Object?
      && Sealed(crypto, collection, doc["payload"].fields, out["payload"].fields)
      && out == doc["payload" := out["payload"]]["encrypted" := Bool(true)]["encryption_key_id" := Str(keyID)]
    else out == doc
  }

  /** Opening a document: no key id, or a field that does not open, is an error. */
  function OpenedDocument(crypto: Crypto, doc: Fields): Option<Fields> {
    if "encryption_key_id" !in doc || !doc["encryption_key_id"].Str? then None
    else if HasPayload(doc) then
      match Opened(crypto, doc["payload"].fields)
      case None => None
      case Some(payload) => Some(doc["payload" := Object(payload)] - {"encrypted", "encryption_key_id"})
    else Some(doc - {"encrypted", "encryption_key_id"})
  }

  /** What is written beside the payload: two metadata keys and nothing else, and these only with a payload. */
  lemma SealedDocumentMeaning(crypto: Crypto, collection: string, keyID: string, doc: Fields, out: Fields)
    requires SealedDocument(crypto, collection, keyID, doc, out)
    ensures HasPayload(doc) ==>
      && out.Keys == doc.Keys + {"encrypted", "encryption_key_id"}
      && out["encrypted"] == Bool(true) && out["encryption_key_id"] == Str(keyID)
      && out["payload"].Object? && Sealed(crypto, collection, doc["payload"].fields, out["payload"].fields)
      && forall key | key in doc && key !in {"payload", "encrypted", "encryption_key_id"} :: out[key] == doc[key]
    ensures !HasPayload(doc) ==> out == doc
  {
  }

  /** What is read of a stored document: it must name its key as text, loses both metadata keys, and has its payload opened. */
  lemma OpenedDocumentMeaning(crypto: Crypto, doc: Fields)
    ensures OpenedDocument(crypto, doc).Some? <==>
      && (exists keyID :: "encryption_key_id" in doc && doc["encryption_key_id"] == Str(keyID))
      && (HasPayload(doc) ==> Opened(crypto, doc["payload"].fields).Some?)
    ensures OpenedDocument(crypto, doc).Some? ==>
      var plain := OpenedDocument(crypto, doc).value;
      && plain.Keys == doc.Keys - {"encrypted", "encryption_key_id"}
      && (forall key | key in plain && key != "payload" :: plain[key] == doc[key])
      && (HasPayload(doc) ==> plain["payload"] == Object(Opened(crypto, doc["payload"].fields).value))
      && (!HasPayload(doc) && "payload" in doc ==> plain["payload"] == doc["payload"])
  {
    if "encryption_key_id" in doc && doc["encryption_key_id"].Str? {
      assert doc["encryption_key_id"] == Str(doc["encryption_key_id"].text);
    }
  }

  /** The document map is changed in place; on an error it is as it was. */
  method EncryptDocument(crypto: Crypto, collection: string, doc: FieldMap, keyID: string, nonce: nat) returns (ok: bool, next: nat)
    requires Inverts(crypto, keyID)
    modifies doc
    ensures ok ==> SealedDocument(crypto, collection, keyID, old(doc.fields), doc.fields)
    ensures !ok ==>
      && doc.fields == old(doc.fields) && HasPayload(doc.fields)
      && exists key, n | key in doc.fields["payload"].fields && Sensitive(collection, key) ::
        !CanSeal(crypto, doc.fields["payload"].fields[key], keyID, n)
  {
    ok, next := true, nonce;
    if HasPayload(doc.fields) {
      var encrypted;
      encrypted, next := EncryptPayload(crypto, collection, doc.fields["payload"].fields, keyID, nonce);
      if encrypted.None? {
        return false, next;
      }
      doc.fields := doc.fields["payload" := Object(encrypted.value)];
      doc.fields := doc.fields["encrypted" := Bool(true)];
      doc.fields := doc.fields["encryption_key_id" := Str(keyID)];
    }
  }

  method DecryptDocument(crypto: Crypto, doc: FieldMap) returns (ok: bool)
    modifies doc
    ensures ok <==> OpenedDocument(crypto, old(doc.fields)).Some?
    ensures doc.fields == if ok then OpenedDocument(crypto, old(doc.fields)).value else old(doc.fields)
  {
    if "encryption_key_id" !in doc.fields || !doc.fields["encryption_key_id"].Str? {
      return false;
    }
    if HasPayload(doc.fields) {
      var decrypted := DecryptPayload(crypto, doc.fields["payload"].fields);
      if decrypted.None? {
        return false;
      }
      doc.fields := doc.fields["payload" := Object(decrypted.value)];
    }
    ghost var before := doc.fields;
    doc.fields := doc.fields - {"encrypted"};
    doc.fields := doc.fields - {"encryption_key_id"};
    assert doc.fields == before - {"encrypted", "encryption_key_id"};
    ok := true;
  }

  /** What the caller can check: no marker among the payload keys, and neither metadata key in the document. */
  predicate Plain(doc: Fields) {
    HasPayload(doc) ==> NoMarkers(doc["payload"].fields) && "encrypted" !in doc && "encryption_key_id" !in doc
  }

  /** A sealed document opens to the original exactly when that holds. */
  lemma DocumentRestoredIff(crypto: Crypto, collection: string, keyID: string, doc: Fields, out: Fields)
    requires Inverts(crypto, keyID) && HasPayload(doc) && SealedDocument(crypto, collection, keyID, doc, out)
    ensures OpenedDocument(crypto, out) == Some(doc) <==> Plain(doc)
  {
    PayloadRestoredIff(crypto, collection, doc["payload"].fields, out["payload"].fields);
    var restored := OpenedDocument(crypto, out);
    if Plain(doc) {
      assert restored.Some? && restored.value == doc;
    } else if restored.Some? {
      assert "encrypted" !in restored.value && "encryption_key_id" !in restored.value;
      assert restored.value["payload"] == Object(Opened(crypto, out["payload"].fields).value);
    }
  }
}
