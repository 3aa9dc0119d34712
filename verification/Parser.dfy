/** The GET parser: a cursor over the blank-separated tokens, and the token lists it reads back exactly. */
module Parser {
  import opened Json
  import opened Filters
  import opened Sequences
  import Text

  /** The library calls: upper case, the number readers, and trimming blanks. */
  datatype Readers = Readers(
    upper: string -> string,
    parseFloat: string -> Option<real>,
    parseInt: string -> Option<int>,
    atoi: string -> Option<int>,
    trimSpace: string -> string)

  datatype GetQuery = GetQuery(entryType: string, filters: seq<Filter>, similarTo: seq<real>, limit: int)

  const QUOTE := {'"'}
  const BRACKETS := {'[', ']'}

  // ---------------------------------------------------------------- what a token list means

  /** Text in quotes, or a number if it reads as one; quotes do not make a number text. */
  function ValueOf(lib: Readers, token: string): Value {
    var s := Text.Trim(token, QUOTE);
    if lib.parseFloat(s).Some? then Number(lib.parseFloat(s).value)
    else if lib.parseInt(s).Some? then Number(lib.parseInt(s).value as real)
    else Str(s)
  }

  /** The numbers among the pieces; pieces that are not numbers are skipped. */
  function NumbersOf(lib: Readers, pieces: seq<string>): seq<real> {
    if pieces == [] then []
    else
      var rest, x := NumbersOf(lib, Front(pieces)), lib.parseFloat(lib.trimSpace(Last(pieces)));
      if x.Some? then rest + [x.value] else rest
  }

  function VectorOf(lib: Readers, token: string): seq<real> {
    NumbersOf(lib, Text.Split(Text.Trim(token, BRACKETS), ','))
  }

  function LimitOf(lib: Readers, token: string): int {
    if lib.atoi(token).Some? then lib.atoi(token).value else 0
  }

  datatype Clauses = Clauses(filters: seq<Filter>, similarTo: seq<real>, limit: int)

  predicate AtSimilar(parts: seq<string>) {
    |parts| >= 2 && parts[0] == "SIMILAR" && parts[1] == "TO"
  }

  predicate AtLimit(parts: seq<string>) {
    |parts| >= 1 && parts[0] == "LIMIT"
  }

  /** The tokens after WHERE: filters of three tokens each, up to one closing clause; the rest is ignored. */
  function ClausesOf(lib: Readers, parts: seq<string>): Clauses {
    if AtSimilar(parts) then Clauses([], if |parts| > 2 then VectorOf(lib, parts[2]) else [], 0)
    else if AtLimit(parts) then Clauses([], [], if |parts| > 1 then LimitOf(lib, parts[1]) else 0)
    else if |parts| > 2 then
      var rest := ClausesOf(lib, parts[3..]);
      rest.(filters := [Filter(parts[0], parts[1], ValueOf(lib, parts[2]))] + rest.filters)
    else Clauses([], [], 0)
  }

  // ---------------------------------------------------------------- the loop

  method ParseVector(lib: Readers, token: string) returns (vector: seq<real>)
    ensures vector == VectorOf(lib, token)
  {
    var pieces := Text.Split(Text.Trim(token, BRACKETS), ',');
    vector := [];
    for i := 0 to |pieces|
      invariant vector == NumbersOf(lib, pieces[..i])
    {
      assert Front(pieces[..i + 1]) == pieces[..i] && Last(pieces[..i + 1]) == pieces[i];
      var x := lib.parseFloat(lib.trimSpace(pieces[i]));
      if x.Some? {
        vector := vector + [x.value];
      }
    }
    assert pieces[..|pieces|] == pieces;
  }

  ghost predicate Continues(all: Clauses, filters: seq<Filter>, rest: Clauses) {
    all == Clauses(filters + rest.filters, rest.similarTo, rest.limit)
  }

  method ParseGet(lib: Readers, parts: seq<string>) returns (r: Option<GetQuery>)
    ensures r.None? <==> |parts| < 2
    ensures r.Some? ==> r.value.entryType == lib.upper(parts[0])
    ensures r.Some? ==>
      Clauses(r.value.filters, r.value.similarTo, r.value.limit)
      == if parts[1] == "WHERE" then ClausesOf(lib, parts[2..]) else Clauses([], [], 0)
  {
    if |parts| < 2 {
      return None;
    }
    var filters: seq<Filter>, similarTo: seq<real>, limit: int := [], [], 0;
    var i := 1;
    if parts[i] == "WHERE" {
      i := i + 1;
      ghost var all := ClausesOf(lib, parts[2..]);
      while i < |parts|
        invariant 2 <= i <= |parts| && similarTo == [] && limit == 0
        invariant Continues(all, filters, ClausesOf(lib, parts[i..]))
      {
        if parts[i] == "SIMILAR" && i + 1 < |parts| && parts[i + 1] == "TO" {
          i := i + 2;
          if i < |parts| {
            similarTo := ParseVector(lib, parts[i]);
          }
          break;
        } else if parts[i] == "LIMIT" {
          i := i + 1;
          if i < |parts| && lib.atoi(parts[i]).Some? {
            limit := lib.atoi(parts[i]).value;
          }
          break;
        } else if i + 2 < |parts| {
          assert parts[i..][3..] == parts[i + 3..];
          filters := filters + [Filter(parts[i], parts[i + 1], ValueOf(lib, parts[i + 2]))];
          i := i + 3;
        } else {
          break;
        }
      }
      assert Clauses(filters, similarTo, limit) == all;
    }
    r := Some(GetQuery(lib.upper(parts[0]), filters, similarTo, limit));
  }

  // ---------------------------------------------------------------- what a token spells

  /** The token, without quotes at its ends, reads as the number; or it is the text, which reads as none. */
  ghost predicate Spells(lib: Readers, token: string, v: Value) {
    exists text :: Text.IsCore(token, text, QUOTE) &&
      match v
      case Number(x) =>
        lib.parseFloat(text) == Some(x)
        || (lib.parseFloat(text).None? && lib.parseInt(text).Some? && lib.parseInt(text).value as real == x)
      case Str(t) => t == text && lib.parseFloat(text).None? && lib.parseInt(text).None?
      case _ => false
  }

  /** Every token spells exactly one value, and that is the one the parser takes. */
  lemma SpellsIff(lib: Readers, token: string, v: Value)
    ensures Spells(lib, token, v) <==> ValueOf(lib, token) == v
  {
    var core := Text.Trim(token, QUOTE);
    Text.TrimIff(token, core, QUOTE);
    forall text | Text.IsCore(token, text, QUOTE) ensures text == core {
      Text.TrimIff(token, text, QUOTE);
    }
    hide Text.IsCore, Text.Trim;
  }

  /** The token reads as the limit, or as no integer, and then there is none. */
  predicate SpellsLimit(lib: Readers, token: string, limit: int) {
    lib.atoi(token) == Some(limit) || (lib.atoi(token).None? && limit == 0)
  }

  /** Between the brackets, separated by commas: the numbers of the vector in order, and pieces that are no numbers. */
  ghost predicate SpellsVector(lib: Readers, token: string, vector: seq<real>) {
    exists inside, pieces :: Text.IsCore(token, inside, BRACKETS) && AreThePieces(inside, pieces) && Lists(lib, pieces, vector)
  }

  /** The pieces between the commas. */
  predicate AreThePieces(text: string, pieces: seq<string>) {
    pieces != [] && Text.Free(pieces, ',') && Text.Join(pieces, ',') == text
  }

  /** The pieces at the given positions read as the numbers, and the others as none. */
  ghost predicate Lists(lib: Readers, pieces: seq<string>, vector: seq<real>) {
    exists at: seq<nat> :: ListsAt(lib, pieces, vector, at)
  }

  predicate ListsAt(lib: Readers, pieces: seq<string>, vector: seq<real>, at: seq<nat>) {
    && |at| == |vector|
    && (forall i | 0 <= i < |at| :: at[i] < |pieces| && lib.parseFloat(lib.trimSpace(pieces[at[i]])) == Some(vector[i]))
    && (forall i, j | 0 <= i < j < |at| :: at[i] < at[j])
    && (forall k: nat | k < |pieces| && k !in at :: lib.parseFloat(lib.trimSpace(pieces[k])).None?)
  }

  lemma {:induction false} NumbersAreListed(lib: Readers, pieces: seq<string>) returns (at: seq<nat>)
    ensures ListsAt(lib, pieces, NumbersOf(lib, pieces), at)
  {
    if pieces == [] {
      return [];
    }
    var front, n := Front(pieces), |pieces| - 1;
    at := NumbersAreListed(lib, front);
    assert forall k | 0 <= k < n :: front[k] == pieces[k];
    if lib.parseFloat(lib.trimSpace(pieces[n])).Some? {
      ghost var before := at;
      at := at + [n];
      assert forall k :: k in at <==> k in before || k == n;
    }
  }

  /** The positions that read as numbers are the same whoever lists them. */
  lemma {:induction false} ListedIsNumbers(lib: Readers, pieces: seq<string>, vector: seq<real>, at: seq<nat>)
    requires ListsAt(lib, pieces, vector, at)
    ensures vector == NumbersOf(lib, pieces)
  {
    if pieces == [] {
      assert at == [];
    } else {
      var front, n := Front(pieces), |pieces| - 1;
      assert forall k | 0 <= k < n :: front[k] == pieces[k];
      if at != [] && Last(at) == n {
        FrontLast(at);
        assert forall i | 0 <= i < |Front(at)| :: Front(at)[i] == at[i] && at[i] < Last(at);
        ListedIsNumbers(lib, front, Front(vector), Front(at));
        FrontLast(vector);
      } else {
        forall i | 0 <= i < |at| ensures at[i] != n {
          assert i < |at| - 1 ==> at[i] < at[|at| - 1];
        }
        assert forall i | 0 <= i < |at| :: at[i] in at;
        ListedIsNumbers(lib, front, vector, at);
      }
    }
  }

  lemma SpellsVectorIff(lib: Readers, token: string, vector: seq<real>)
    ensures SpellsVector(lib, token, vector) <==> VectorOf(lib, token) == vector
  {
    var inside := Text.Trim(token, BRACKETS);
    var pieces := Text.Split(inside, ',');
    Text.TrimIff(token, inside, BRACKETS);
    Text.JoinSplit(inside, ',');
    var at := NumbersAreListed(lib, pieces);
    assert Lists(lib, pieces, NumbersOf(lib, pieces));
    hide Text.IsCore, Text.Trim, Text.Split, Text.Join, NumbersOf, ListsAt;
    if SpellsVector(lib, token, vector) {
      var inside', pieces' :| Text.IsCore(token, inside', BRACKETS) && AreThePieces(inside', pieces') && Lists(lib, pieces', vector);
      Text.TrimIff(token, inside', BRACKETS);
      Text.SplitJoin(pieces', ',');
      var at' :| ListsAt(lib, pieces', vector, at');
      ListedIsNumbers(lib, pieces', vector, at');
    }
  }

  // ---------------------------------------------------------------- reading back

  /** How a token list can end after its conditions. */
  datatype Closing =
    | Nothing(rest: seq<string>)
    | Limit(token: string, limit: int, rest: seq<string>)
    | OpenLimit
    | Similar(token: string, vector: seq<real>, rest: seq<string>)
    | OpenSimilar

  predicate Collides(c: Filter) {
    c.key == "LIMIT" || (c.key == "SIMILAR" && c.operator == "TO")
  }

  /** The closing means its data; what follows a clause is anything, and too few tokens for a condition are no clause. */
  ghost predicate Proper(lib: Readers, closing: Closing) {
    match closing
    case Nothing(rest) => |rest| <= 2 && !AtSimilar(rest) && !AtLimit(rest)
    case Limit(token, limit, _) => SpellsLimit(lib, token, limit)
    case Similar(token, vector, _) => SpellsVector(lib, token, vector)
    case _ => true
  }

  function ClosingTokens(closing: Closing): seq<string> {
    match closing
    case Nothing(rest) => rest
    case Limit(token, _, rest) => ["LIMIT", token] + rest
    case OpenLimit => ["LIMIT"]
    case Similar(token, _, rest) => ["SIMILAR", "TO", token] + rest
    case OpenSimilar => ["SIMILAR", "TO"]
  }

  /** Three tokens for each filter, its value as the given token, and the closing. */
  function Written(filters: seq<Filter>, tokens: seq<string>, closing: Closing): seq<string>
    requires |tokens| == |filters|
  {
    if filters == [] then ClosingTokens(closing)
    else [filters[0].key, filters[0].operator, tokens[0]] + Written(filters[1..], tokens[1..], closing)
  }

  ghost predicate SpellsAll(lib: Readers, filters: seq<Filter>, tokens: seq<string>) {
    |tokens| == |filters| && forall i | 0 <= i < |filters| :: Spells(lib, tokens[i], filters[i].value)
  }

  function ClosingVector(closing: Closing): seq<real> {
    if closing.Similar? then closing.vector else []
  }

  function ClosingLimit(closing: Closing): int {
    if closing.Limit? then closing.limit else 0
  }

  lemma SameTail(f: Filter, a: seq<Filter>, b: seq<Filter>)
    ensures [f] + a == [f] + b <==> a == b
  {
    assert ([f] + a)[1..] == a && ([f] + b)[1..] == b;
  }

  lemma ClosingIsRead(lib: Readers, closing: Closing)
    requires Proper(lib, closing)
    ensures ClausesOf(lib, ClosingTokens(closing)) == Clauses([], ClosingVector(closing), ClosingLimit(closing))
  {
    var parts := ClosingTokens(closing);
    match closing
    case Nothing(_) =>
    case Limit(token, limit, rest) => assert parts[0] == "LIMIT" && parts[1] == token;
    case OpenLimit =>
    case Similar(token, vector, rest) =>
      assert parts[0] == "SIMILAR" && parts[1] == "TO" && parts[2] == token;
      SpellsVectorIff(lib, token, vector);
    case OpenSimilar =>
  }

  lemma FirstOrRest(filters: seq<Filter>)
    requires filters != []
    ensures forall f :: f in filters <==> f == filters[0] || f in filters[1..]
  {
    assert filters == [filters[0]] + filters[1..];
  }

  /**
   * For filters, vector and limit given as data and written with tokens that spell them: parsing gives back exactly
   * these when no filter reads as a closing clause, and only then.
   */
  lemma {:induction false} ParsingInvertsIff(lib: Readers, filters: seq<Filter>, tokens: seq<string>, closing: Closing)
    requires SpellsAll(lib, filters, tokens) && Proper(lib, closing)
    ensures ClausesOf(lib, Written(filters, tokens, closing)) == Clauses(filters, ClosingVector(closing), ClosingLimit(closing))
       <==> forall f | f in filters :: !Collides(f)
    ensures |ClausesOf(lib, Written(filters, tokens, closing)).filters| <= |filters|
  {
    hide Spells, VectorOf, ValueOf, Proper, ClosingTokens;
    if filters == [] {
      ClosingIsRead(lib, closing);
    } else {
      var parts, f, rest := Written(filters, tokens, closing), filters[0], filters[1..];
      assert Spells(lib, tokens[0], f.value);
      SpellsIff(lib, tokens[0], f.value);
      forall i | 0 <= i < |rest| ensures Spells(lib, tokens[1..][i], rest[i].value) {
        assert Spells(lib, tokens[i + 1], filters[i + 1].value);
      }
      ParsingInvertsIff(lib, rest, tokens[1..], closing);
      assert parts[3..] == Written(rest, tokens[1..], closing);
      assert AtSimilar(parts) || AtLimit(parts) <==> Collides(f);
      SameTail(f, ClausesOf(lib, parts[3..]).filters, rest);
      assert filters == [f] + rest;
      FirstOrRest(filters);
    }
  }

  /** And every token list is written in this way, with filters that do not read as a clause. */
  lemma {:induction false} EveryListIsWritten(lib: Readers, parts: seq<string>)
    returns (filters: seq<Filter>, tokens: seq<string>, closing: Closing)
    ensures SpellsAll(lib, filters, tokens) && Proper(lib, closing)
    ensures Written(filters, tokens, closing) == parts && forall f | f in filters :: !Collides(f)
  {
    filters, tokens := [], [];
    if AtSimilar(parts) {
      if |parts| > 2 {
        closing := Similar(parts[2], VectorOf(lib, parts[2]), parts[3..]);
        SpellsVectorIff(lib, parts[2], VectorOf(lib, parts[2]));
        assert ["SIMILAR", "TO", parts[2]] + parts[3..] == parts;
      } else {
        closing := OpenSimilar;
        assert parts == ["SIMILAR", "TO"];
      }
    } else if AtLimit(parts) {
      if |parts| > 1 {
        closing := Limit(parts[1], LimitOf(lib, parts[1]), parts[2..]);
        assert ["LIMIT", parts[1]] + parts[2..] == parts;
      } else {
        closing := OpenLimit;
        assert parts == ["LIMIT"];
      }
    } else if |parts| <= 2 {
      closing := Nothing(parts);
    } else {
      var rest, others;
      rest, others, closing := EveryListIsWritten(lib, parts[3..]);
      var f := Filter(parts[0], parts[1], ValueOf(lib, parts[2]));
      SpellsIff(lib, parts[2], f.value);
      filters, tokens := [f] + rest, [parts[2]] + others;
      hide Spells, ValueOf, Proper, ClosingTokens, ClausesOf;
      assert filters[1..] == rest && tokens[1..] == others;
      assert [parts[0], parts[1], parts[2]] + parts[3..] == parts;
    }
  }

  // ---------------------------------------------------------------- values and vectors

  /** Text put in quotes is read back exactly when it has no quote at its ends and does not read as a number. */
  lemma QuotedTextIsReadBackIff(lib: Readers, s: string)
    ensures ValueOf(lib, ['"'] + s + ['"']) == Str(s)
       <==> (s != [] ==> s[0] != '"' && s[|s| - 1] != '"') && lib.parseFloat(s).None? && lib.parseInt(s).None?
  {
    var token := ['"'] + s + ['"'];
    var core := Text.Trim(token, QUOTE);
    Text.TrimIff(token, core, QUOTE);
    if s == [] || (s[0] != '"' && s[|s| - 1] != '"') {
      Text.TrimPair('"', s, '"', QUOTE);
    }
  }

  predicate Reads(lib: Readers, tokens: seq<string>, vector: seq<real>) {
    && |tokens| == |vector|
    && forall i | 0 <= i < |tokens| :: lib.parseFloat(lib.trimSpace(tokens[i])) == Some(vector[i])
  }

  lemma {:induction false} NumbersReadBack(lib: Readers, tokens: seq<string>, vector: seq<real>)
    requires Reads(lib, tokens, vector)
    ensures NumbersOf(lib, tokens) == vector
  {
    if tokens != [] {
      NumbersReadBack(lib, Front(tokens), Front(vector));
      FrontLast(vector);
    }
  }

  /** A vector written as one token, numbers between commas in brackets, is read back. */
  lemma VectorIsReadBack(lib: Readers, tokens: seq<string>, vector: seq<real>)
    requires Reads(lib, tokens, vector) && tokens != []
    requires forall token | token in tokens :: token != [] && ',' !in token && '[' !in token && ']' !in token
    ensures VectorOf(lib, ['['] + Text.Join(tokens, ',') + [']']) == vector
  {
    var joined := Text.Join(tokens, ',');
    JoinedEnds(tokens);
    Text.TrimPair('[', joined, ']', BRACKETS);
    Text.SplitJoin(tokens, ',');
    NumbersReadBack(lib, tokens, vector);
  }

  lemma {:induction false} JoinedEnds(tokens: seq<string>)
    requires tokens != []
    requires forall token | token in tokens :: token != [] && '[' !in token && ']' !in token
    ensures var s := Text.Join(tokens, ','); s != [] && s[0] !in BRACKETS && s[|s| - 1] !in BRACKETS
  {
    assert tokens[0] in tokens;
    if |tokens| > 1 {
      assert forall token | token in tokens[1..] :: token in tokens;
      JoinedEnds(tokens[1..]);
    }
  }
}
