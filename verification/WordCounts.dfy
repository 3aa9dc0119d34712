/** How often a token counts, from the document itself: one token for each place at which a nested string has the word. */
module WordCounts {
  import opened Json
  import opened Tokens

  datatype Turn = Item(index: nat) | Field(key: string)

  /** A string inside the value, by the turns to it, and the number of a word in that string. */
  datatype Place = Place(path: seq<Turn>, number: nat)

  /** The word stands at the place. */
  predicate Says(lib: Library, v: Value, path: seq<Turn>, number: nat, word: string)
    decreases |path|
  {
    if path == [] then v.Str? && number < |lib.words(v.text)| && lib.words(v.text)[number] == word
    else match path[0]
      case Item(i) => v.Array? && i < |v.items| && Says(lib, v.items[i], path[1..], number, word)
      case Field(key) => v.Object? && key in v.fields && Says(lib, v.fields[key], path[1..], number, word)
  }

  ghost predicate AreThePlaces(lib: Library, v: Value, word: string, places: set<Place>) {
    forall path: seq<Turn>, number: nat :: Place(path, number) in places <==> Says(lib, v, path, number, word)
  }

  // ---------------------------------------------------------------- one string

  lemma {:induction false} NumbersOfWord(words: seq<string>, word: string) returns (places: set<Place>)
    ensures forall path: seq<Turn>, number: nat ::
      Place(path, number) in places <==> path == [] && number < |words| && words[number] == word
    ensures |places| == multiset(words)[word]
  {
    if words == [] {
      return {};
    }
    var n := |words| - 1;
    var rest := NumbersOfWord(words[..n], word);
    assert words == words[..n] + [words[n]];
    places := if words[n] == word then rest + {Place([], n)} else rest;
  }

  // ---------------------------------------------------------------- inside lists and objects

  function Behind(turn: Turn, places: set<Place>): set<Place> {
    set place | place in places :: Place([turn] + place.path, place.number)
  }

  lemma {:induction false} BehindCounts(turn: Turn, places: set<Place>)
    ensures |Behind(turn, places)| == |places|
  {
    if places != {} {
      var place :| place in places;
      BehindCounts(turn, places - {place});
      var moved := Place([turn] + place.path, place.number);
      forall other | other in places - {place} ensures Place([turn] + other.path, other.number) != moved {
        assert ([turn] + other.path)[1..] == other.path && ([turn] + place.path)[1..] == place.path;
      }
      assert moved !in Behind(turn, places - {place});
      assert Behind(turn, places) == Behind(turn, places - {place}) + {moved};
    }
  }

  lemma BehindMembers(turn: Turn, places: set<Place>, path: seq<Turn>, number: nat)
    ensures Place(path, number) in Behind(turn, places) <==> path != [] && path[0] == turn && Place(path[1..], number) in places
  {
    if path != [] && path[0] == turn && Place(path[1..], number) in places {
      assert [turn] + path[1..] == path;
    }
    if Place(path, number) in Behind(turn, places) {
      var place :| place in places && Place([turn] + place.path, place.number) == Place(path, number);
      assert path[1..] == place.path;
    }
  }

  lemma DisjointCounts(a: set<Place>, b: set<Place>)
    requires a !! b
    ensures |a + b| == |a| + |b|
  {
  }

  /** What a collection of places behind different turns looks like, with one more turn. */
  lemma OneMoreTurn(turn: Turn, inner: set<Place>, rest: set<Place>)
    requires forall place | place in rest :: place.path != [] && place.path[0] != turn
    ensures |rest + Behind(turn, inner)| == |rest| + |inner|
    ensures forall path: seq<Turn>, number: nat ::
      Place(path, number) in rest + Behind(turn, inner) <==>
        Place(path, number) in rest || (path != [] && path[0] == turn && Place(path[1..], number) in inner)
  {
    forall path: seq<Turn>, number: nat
      ensures Place(path, number) in Behind(turn, inner) <==> path != [] && path[0] == turn && Place(path[1..], number) in inner
    {
      BehindMembers(turn, inner, path, number);
    }
    BehindCounts(turn, inner);
    assert rest !! Behind(turn, inner);
    hide Behind;
    DisjointCounts(rest, Behind(turn, inner));
  }

  /** The number of tokens of a word is the number of places at which it stands. */
  lemma {:induction false} TokensCountPlaces(lib: Library, v: Value, word: string) returns (places: set<Place>)
    ensures AreThePlaces(lib, v, word, places)
    ensures |places| == TokensOf(lib, v)[word]
    decreases v, 1, 0
  {
    match v
    case Str(s) =>
      places := NumbersOfWord(lib.words(s), word);
    case Array(items) =>
      places := PlacesInItems(lib, v, |items|, word);
    case Object(fields) =>
      places := PlacesInFields(lib, v, fields.Keys, word);
    case _ =>
      places := {};
  }

  ghost predicate InItems(lib: Library, v: Value, n: nat, word: string, places: set<Place>)
    requires v.Array? && n <= |v.items|
  {
    forall path: seq<Turn>, number: nat :: Place(path, number) in places <==>
      path != [] && path[0].Item? && path[0].index < n && Says(lib, v.items[path[0].index], path[1..], number, word)
  }

  lemma {:induction false} PlacesInItems(lib: Library, v: Value, n: nat, word: string) returns (places: set<Place>)
    requires v.Array? && n <= |v.items|
    ensures InItems(lib, v, n, word, places)
    ensures |places| == TokensOfItems(lib, v, n)[word]
    decreases v, 0, n
  {
    NothingDone(lib, v);
    if n == 0 {
      return {};
    }
    OneItemDone(lib, v, n - 1);
    hide *;
    var rest := PlacesInItems(lib, v, n - 1, word);
    var inner := TokensCountPlaces(lib, v.items[n - 1], word);
    places := rest + Behind(Item(n - 1), inner);
    LastItemPlaces(lib, v, n, word, rest, inner);
  }

  lemma LastItemPlaces(lib: Library, v: Value, n: nat, word: string, rest: set<Place>, inner: set<Place>)
    requires v.Array? && 0 < n <= |v.items|
    requires InItems(lib, v, n - 1, word, rest) && AreThePlaces(lib, v.items[n - 1], word, inner)
    ensures |rest + Behind(Item(n - 1), inner)| == |rest| + |inner|
    ensures InItems(lib, v, n, word, rest + Behind(Item(n - 1), inner))
  {
    hide Says, Behind;
    forall place | place in rest ensures place.path != [] && place.path[0] != Item(n - 1) {
      assert Place(place.path, place.number) in rest;
    }
    OneMoreTurn(Item(n - 1), inner, rest);
    forall path: seq<Turn>, number: nat
      ensures Place(path, number) in rest + Behind(Item(n - 1), inner) <==>
        path != [] && path[0].Item? && path[0].index < n && Says(lib, v.items[path[0].index], path[1..], number, word)
    {
      if path != [] && path[0].Item? && path[0].index == n - 1 {
        assert path[0] == Item(n - 1);
      }
    }
  }

  lemma {:induction false} PlacesInFields(lib: Library, v: Value, keys: set<string>, word: string) returns (places: set<Place>)
    requires v.Object? && keys <= v.fields.Keys
    ensures forall path: seq<Turn>, number: nat :: Place(path, number) in places <==>
      path != [] && path[0].Field? && path[0].key in keys && Says(lib, v.fields[path[0].key], path[1..], number, word)
    ensures |places| == TokensOfFields(lib, v, keys)[word]
    decreases v, 0, |keys|
  {
    hide Says, TokensOf, Behind;
    if keys == {} {
      return {};
    }
    var key :| key in keys;
    AnyFieldLast(lib, v, keys, key);
    var rest := PlacesInFields(lib, v, keys - {key}, word);
    var inner := TokensCountPlaces(lib, v.fields[key], word);
    assert forall place | place in rest :: place == Place(place.path, place.number);
    OneMoreTurn(Field(key), inner, rest);
    places := rest + Behind(Field(key), inner);
  }

  // ---------------------------------------------------------------- words said once

  /** The word stands at one place at most. */
  ghost predicate SaysWordOnce(lib: Library, v: Value, word: string) {
    forall a: Place, b: Place | Says(lib, v, a.path, a.number, word) && Says(lib, v, b.path, b.number, word) :: a == b
  }

  /** No word stands at two places. */
  ghost predicate SaysOnce(lib: Library, v: Value) {
    forall word: string :: SaysWordOnce(lib, v, word)
  }

  ghost predicate StandsIn(lib: Library, v: Value, word: string) {
    exists path: seq<Turn>, number: nat :: Says(lib, v, path, number, word)
  }

  lemma TwoPlaces(places: set<Place>, a: Place, b: Place)
    requires a in places && b in places && a != b
    ensures |places| >= 2
  {
    assert |places - {a} - {b}| == |places| - 2;
  }

  ghost predicate AllTheSame(places: set<Place>) {
    forall a, b | a in places && b in places :: a == b
  }

  lemma OnePlace(places: set<Place>)
    ensures |places| <= 1 <==> AllTheSame(places)
  {
    if |places| <= 1 {
      forall a, b | a in places && b in places ensures a == b {
        if a != b { TwoPlaces(places, a, b); }
      }
    } else {
      var a :| a in places;
      assert |places - {a}| == |places| - 1;
      var b :| b in places - {a};
      assert a in places && b in places && a != b;
    }
  }

  ghost predicate CountsOnce(lib: Library, v: Value, word: string) {
    TokensOf(lib, v)[word] <= 1
  }

  lemma SaysWordOnceIff(lib: Library, v: Value, word: string)
    ensures SaysWordOnce(lib, v, word) <==> CountsOnce(lib, v, word)
  {
    var places := TokensCountPlaces(lib, v, word);
    hide Says, TokensOf;
    OnePlace(places);
    assert forall a: Place :: a == Place(a.path, a.number);
  }

  lemma SaysOnceIff(lib: Library, v: Value)
    ensures SaysOnce(lib, v) <==> forall word: string :: CountsOnce(lib, v, word)
  {
    hide CountsOnce, SaysWordOnce;
    forall word: string ensures SaysWordOnce(lib, v, word) <==> CountsOnce(lib, v, word) {
      SaysWordOnceIff(lib, v, word);
    }
  }

  /** A token is there exactly when the word stands somewhere. */
  lemma TokenStandsSomewhere(lib: Library, v: Value, word: string)
    ensures word in TokensOf(lib, v) <==> StandsIn(lib, v, word)
  {
    var places := TokensCountPlaces(lib, v, word);
    hide Says, TokensOf;
    if places == {} {
      assert TokensOf(lib, v)[word] == 0;
      forall path: seq<Turn>, number: nat ensures !Says(lib, v, path, number, word) {
        assert Place(path, number) !in places;
      }
    } else {
      var place :| place in places;
      assert Place(place.path, place.number) in places;
      assert |places - {place}| == |places| - 1;
      assert TokensOf(lib, v)[word] > 0;
      assert Says(lib, v, place.path, place.number, word);
    }
  }
}
