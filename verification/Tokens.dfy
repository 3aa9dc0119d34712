/** What an index takes from a document: composite keys for B-trees, word tokens for GIN. */
module Tokens {
  import opened Json
  import Text

  /** The library calls: `%v` printing, lower-casing and splitting on blanks, and trimming blanks. */
  datatype Library = Library(show: Value -> string, words: string -> seq<string>, trimSpace: string -> string)

  // ---------------------------------------------------------------- composite keys

  function Parts(lib: Library, fields: seq<string>, doc: Fields): seq<string> {
    if fields == [] then []
    else
      var n := |fields| - 1;
      Parts(lib, fields[..n], doc) + (if fields[n] in doc then [lib.show(doc[fields[n]])] else [])
  }

  /** The printed values of the fields that are there, in the order of the field list. */
  function CompositeKey(lib: Library, fields: seq<string>, doc: Fields): string {
    Text.Join(Parts(lib, fields, doc), '|')
  }

  /** The places of the field list whose field is there, from the first to the last. */
  predicate ArePresent(fields: seq<string>, doc: Fields, at: seq<nat>) {
    && (forall i, j | 0 <= i < j < |at| :: at[i] < at[j])
    && (forall i | 0 <= i < |at| :: at[i] < |fields| && fields[at[i]] in doc)
    && (forall k | 0 <= k < |fields| && fields[k] in doc :: k in at)
  }

  lemma OneMorePresent(fields: seq<string>, doc: Fields, at: seq<nat>)
    requires fields != [] && ArePresent(fields[..|fields| - 1], doc, at)
    ensures ArePresent(fields, doc, if fields[|fields| - 1] in doc then at + [|fields| - 1] else at)
  {
    var front, last := fields[..|fields| - 1], |fields| - 1;
    forall k | 0 <= k < |fields| && fields[k] in doc ensures k in if fields[last] in doc then at + [last] else at {
      assert k < last ==> front[k] == fields[k];
    }
  }

  lemma PartsOneMore(lib: Library, fields: seq<string>, doc: Fields)
    requires fields != []
    ensures var front, last := Parts(lib, fields[..|fields| - 1], doc), fields[|fields| - 1];
      Parts(lib, fields, doc) == if last in doc then front + [lib.show(doc[last])] else front
  {
  }

  ghost predicate PrintedAt(lib: Library, fields: seq<string>, doc: Fields, at: seq<nat>, parts: seq<string>) {
    |parts| == |at| && forall i | 0 <= i < |at| :: at[i] < |fields| && fields[at[i]] in doc && parts[i] == lib.show(doc[fields[at[i]]])
  }

  lemma OneMorePrinted(lib: Library, fields: seq<string>, doc: Fields, at: seq<nat>, parts: seq<string>)
    requires fields != [] && PrintedAt(lib, fields[..|fields| - 1], doc, at, parts)
    ensures PrintedAt(lib, fields, doc, at, parts)
    ensures var n := |fields| - 1; fields[n] in doc ==> PrintedAt(lib, fields, doc, at + [n], parts + [lib.show(doc[fields[n]])])
  {
  }

  lemma NoParts(lib: Library, doc: Fields)
    ensures ArePresent([], doc, []) && PrintedAt(lib, [], doc, [], Parts(lib, [], doc))
  {
  }

  /** The parts of a key are the printed values at these places, in this order. */
  lemma {:induction false} PartsInOrder(lib: Library, fields: seq<string>, doc: Fields) returns (at: seq<nat>)
    ensures ArePresent(fields, doc, at) && PrintedAt(lib, fields, doc, at, Parts(lib, fields, doc))
  {
    hide ArePresent, PrintedAt;
    if fields == [] {
      NoParts(lib, doc);
      return [];
    } else {
      var n := |fields| - 1;
      at := PartsInOrder(lib, fields[..n], doc);
      OneMorePresent(fields, doc, at);
      OneMorePrinted(lib, fields, doc, at, Parts(lib, fields[..n], doc));
      PartsOneMore(lib, fields, doc);
      at := if fields[n] in doc then at + [n] else at;
    }
  }

  predicate HasAll(fields: seq<string>, doc: Fields) {
    forall field | field in fields :: field in doc
  }

  lemma {:induction false} PartsOfAll(lib: Library, fields: seq<string>, doc: Fields)
    requires HasAll(fields, doc)
    ensures |Parts(lib, fields, doc)| == |fields|
    ensures forall i | 0 <= i < |fields| :: Parts(lib, fields, doc)[i] == lib.show(doc[fields[i]])
  {
    if fields != [] {
      PartsOfAll(lib, fields[..|fields| - 1], doc);
    }
  }

  predicate SeparatorFree(lib: Library, fields: seq<string>, doc: Fields) {
    forall field | field in fields && field in doc :: '|' !in lib.show(doc[field])
  }

  /** Two documents with every field and no separator in the values share a key only when all values print alike. */
  lemma CompositeKeyIsInjective(lib: Library, fields: seq<string>, a: Fields, b: Fields)
    requires HasAll(fields, a) && HasAll(fields, b)
    requires |fields| == 1 || (SeparatorFree(lib, fields, a) && SeparatorFree(lib, fields, b))
    ensures CompositeKey(lib, fields, a) == CompositeKey(lib, fields, b)
       <==> forall field | field in fields :: lib.show(a[field]) == lib.show(b[field])
  {
    var x, y := Parts(lib, fields, a), Parts(lib, fields, b);
    PartsOfAll(lib, fields, a);
    PartsOfAll(lib, fields, b);
    if |fields| > 1 {
      Text.SplitJoin(x, '|');
      Text.SplitJoin(y, '|');
    }
    if x == y {
      forall field | field in fields ensures lib.show(a[field]) == lib.show(b[field]) {
        var i :| 0 <= i < |fields| && fields[i] == field;
        assert x[i] == y[i];
      }
    }
  }

  lemma JoinPair(a: string, b: string, separator: char)
    ensures Text.Join([a] + [b], separator) == a + [separator] + b
  {
    assert ([a] + [b])[1..] == [b];
  }

  /** Without those conditions documents collide: a separator inside a value, or a field that is not there. */
  lemma CompositeKeysCollide(lib: Library)
    requires lib.show(Str("a|b")) == "a|b" && lib.show(Str("c")) == "c" && lib.show(Str("a")) == "a" && lib.show(Str("b|c")) == "b|c"
    ensures CompositeKey(lib, ["x", "y"], map["x" := Str("a|b"), "y" := Str("c")])
         == CompositeKey(lib, ["x", "y"], map["x" := Str("a"), "y" := Str("b|c")])
    ensures CompositeKey(lib, ["x", "y"], map["x" := Str("c")]) == CompositeKey(lib, ["x", "y"], map["y" := Str("c")])
  {
    assert ["x", "y"][..1] == ["x"] && ["x"][..0] == [];
    forall doc: Fields ensures Parts(lib, ["x", "y"], doc)
        == (if "x" in doc then [lib.show(doc["x"])] else []) + (if "y" in doc then [lib.show(doc["y"])] else [])
    {
      assert Parts(lib, [], doc) == [];
      assert Parts(lib, ["x"], doc) == (if "x" in doc then [lib.show(doc["x"])] else []);
    }
    JoinPair("a|b", "c", '|');
    JoinPair("a", "b|c", '|');
    assert "a|b" + ['|'] + "c" == "a" + ['|'] + "b|c";
  }

  // ---------------------------------------------------------------- partial indexes

  /** A partial index takes documents whose field prints as expected; other expressions are ignored. */
  predicate MatchesPartial(lib: Library, partialExpr: string, doc: Fields) {
    var parts := Text.Split(partialExpr, '=');
    if partialExpr == "" || |parts| != 2 then true
    else
      var field := lib.trimSpace(parts[0]);
      field in doc && lib.show(doc[field]) == lib.trimSpace(parts[1])
  }

  /**
   * `field = value` takes exactly the documents whose field prints as the value. An expression with no
   * equals sign, or with two (as in `x == y`), takes every document.
   */
  lemma PartialExpressionMeaning(lib: Library, partialExpr: string, field: string, expected: string, doc: Fields)
    requires '=' !in field && '=' !in expected
    ensures MatchesPartial(lib, field + ['='] + expected, doc)
       <==> lib.trimSpace(field) in doc && lib.show(doc[lib.trimSpace(field)]) == lib.trimSpace(expected)
    ensures multiset(partialExpr)['='] != 1 ==> MatchesPartial(lib, partialExpr, doc)
  {
    Text.SplitAtFirst(field, expected, '=');
    Text.SplitOfFree(expected, '=');
    Text.SplitCount(partialExpr, '=');
  }

  // ---------------------------------------------------------------- tokens

  /** The words of all strings inside a value, with repetitions. */
  ghost function TokensOf(lib: Library, v: Value): multiset<string>
    decreases v, 1, 0
  {
    match v
    case Str(s) => multiset(lib.words(s))
    case Array(items) => TokensOfItems(lib, v, |items|)
    case Object(fields) => TokensOfFields(lib, v, fields.Keys)
    case _ => multiset{}
  }

  ghost function TokensOfItems(lib: Library, v: Value, n: nat): multiset<string>
    requires v.Array? && n <= |v.items|
    decreases v, 0, n
  {
    if n == 0 then multiset{} else TokensOfItems(lib, v, n - 1) + TokensOf(lib, v.items[n - 1])
  }

  ghost function TokensOfFields(lib: Library, v: Value, keys: set<string>): multiset<string>
    requires v.Object? && keys <= v.fields.Keys
    decreases v, 0, |keys|
  {
    if keys == {} then multiset{}
    else
      var key :| key in keys;
      TokensOfFields(lib, v, keys - {key}) + TokensOf(lib, v.fields[key])
  }

  /** It does not matter in which order the fields are visited. */
  lemma {:induction false} AnyFieldLast(lib: Library, v: Value, keys: set<string>, key: string)
    requires v.Object? && keys <= v.fields.Keys && key in keys
    ensures TokensOfFields(lib, v, keys) == TokensOfFields(lib, v, keys - {key}) + TokensOf(lib, v.fields[key])
    decreases |keys|
  {
    var chosen :| chosen in keys
      && TokensOfFields(lib, v, keys) == TokensOfFields(lib, v, keys - {chosen}) + TokensOf(lib, v.fields[chosen]);
    if chosen != key {
      AnyFieldLast(lib, v, keys - {chosen}, key);
      AnyFieldLast(lib, v, keys - {key}, chosen);
      assert keys - {chosen} - {key} == keys - {key} - {chosen};
    }
  }

  lemma OneItemDone(lib: Library, v: Value, n: nat)
    requires v.Array? && n < |v.items|
    ensures TokensOfItems(lib, v, n + 1) == TokensOfItems(lib, v, n) + TokensOf(lib, v.items[n])
  {
  }

  lemma NothingDone(lib: Library, v: Value)
    ensures v.Array? ==> TokensOfItems(lib, v, 0) == multiset{}
    ensures v.Object? ==> TokensOfFields(lib, v, v.fields.Keys - v.fields.Keys) == multiset{}
  {
  }

  lemma OneFieldDone(lib: Library, v: Value, rest: set<string>, key: string)
    requires v.Object? && rest <= v.fields.Keys && key in rest
    ensures TokensOfFields(lib, v, v.fields.Keys - (rest - {key}))
         == TokensOfFields(lib, v, v.fields.Keys - rest) + TokensOf(lib, v.fields[key])
  {
    AnyFieldLast(lib, v, v.fields.Keys - (rest - {key}), key);
    assert v.fields.Keys - (rest - {key}) - {key} == v.fields.Keys - rest;
  }

  /** A token is found exactly when some string inside the value has that word. */
  ghost predicate SaysWord(lib: Library, v: Value, word: string)
    decreases v
  {
    match v
    case Str(s) => word in lib.words(s)
    case Array(items) => exists i | 0 <= i < |items| :: SaysWord(lib, items[i], word)
    case Object(fields) => exists key | key in fields :: SaysWord(lib, fields[key], word)
    case _ => false
  }

  lemma {:induction false} TokensAreWords(lib: Library, v: Value, word: string)
    ensures word in TokensOf(lib, v) <==> SaysWord(lib, v, word)
    decreases v, 1, 0
  {
    match v
    case Array(items) => ItemTokensAreWords(lib, v, |items|, word);
    case Object(fields) => FieldTokensAreWords(lib, v, fields.Keys, word);
    case _ =>
  }

  lemma {:induction false} ItemTokensAreWords(lib: Library, v: Value, n: nat, word: string)
    requires v.Array? && n <= |v.items|
    ensures word in TokensOfItems(lib, v, n) <==> exists i | 0 <= i < n :: SaysWord(lib, v.items[i], word)
    decreases v, 0, n
  {
    if n > 0 {
      ItemTokensAreWords(lib, v, n - 1, word);
      TokensAreWords(lib, v.items[n - 1], word);
    }
  }

  lemma {:induction false} FieldTokensAreWords(lib: Library, v: Value, keys: set<string>, word: string)
    requires v.Object? && keys <= v.fields.Keys
    ensures word in TokensOfFields(lib, v, keys) <==> exists key | key in keys :: SaysWord(lib, v.fields[key], word)
    decreases v, 0, |keys|
  {
    if keys != {} {
      var key :| key in keys;
      AnyFieldLast(lib, v, keys, key);
      FieldTokensAreWords(lib, v, keys - {key}, word);
      TokensAreWords(lib, v.fields[key], word);
      if exists k | k in keys :: SaysWord(lib, v.fields[k], word) {
        var k :| k in keys && SaysWord(lib, v.fields[k], word);
        assert k == key || k in keys - {key};
      }
    }
  }

  // ---------------------------------------------------------------- the loops

  method BuildCompositeKey(lib: Library, fields: seq<string>, doc: Fields) returns (key: string)
    ensures key == CompositeKey(lib, fields, doc)
  {
    var parts := [];
    for i := 0 to |fields|
      invariant parts == Parts(lib, fields[..i], doc)
    {
      assert fields[..i + 1][..i] == fields[..i];
      if fields[i] in doc {
        parts := parts + [lib.show(doc[fields[i]])];
      }
    }
    assert fields[..|fields|] == fields;
    key := Text.Join(parts, '|');
  }

  /** Walks the value, fields in any order. */
  method Tokenize(lib: Library, v: Value, before: seq<string>) returns (tokens: seq<string>)
    ensures multiset(tokens) == multiset(before) + TokensOf(lib, v)
    decreases v
  {
    tokens := before;
    NothingDone(lib, v);
    hide TokensOfItems, TokensOfFields;
    match v
    case Str(s) => tokens := tokens + lib.words(s);
    case Array(items) =>
      for i := 0 to |items|
        invariant multiset(tokens) == multiset(before) + TokensOfItems(lib, v, i)
      {
        tokens := Tokenize(lib, items[i], tokens);
        OneItemDone(lib, v, i);
      }
    case Object(fields) =>
      var rest := fields.Keys;
      while rest != {}
        invariant rest <= fields.Keys
        invariant multiset(tokens) == multiset(before) + TokensOfFields(lib, v, fields.Keys - rest)
      {
        var key :| key in rest;
        tokens := Tokenize(lib, fields[key], tokens);
        OneFieldDone(lib, v, rest, key);
        rest := rest - {key};
      }
      assert fields.Keys - rest == fields.Keys;
    case _ =>
  }
}
