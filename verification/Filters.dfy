/** What a WHERE filter means for a document: the comparison of printed payload fields. */
module Filters {
  import opened Json
  import opened Tokens
  import Text

  datatype Filter = Filter(key: string, operator: string, value: Value)

  function CompareValues(lib: Library, a: Value, b: Value): int {
    if Less(lib.show(a), lib.show(b)) then -1
    else if Less(lib.show(b), lib.show(a)) then 1
    else 0
  }

  predicate MatchesFilter(lib: Library, payload: Fields, f: Filter) {
    f.key in payload &&
    var val := payload[f.key];
    match f.operator
    case "=" => lib.show(val) == lib.show(f.value)
    case "!=" => lib.show(val) != lib.show(f.value)
    case ">" => CompareValues(lib, val, f.value) > 0
    case "<" => CompareValues(lib, val, f.value) < 0
    case ">=" => CompareValues(lib, val, f.value) >= 0
    case "<=" => CompareValues(lib, val, f.value) <= 0
    case "CONTAINS" => Text.Contains(lib.show(val), lib.show(f.value))
    case "STARTS_WITH" => lib.show(f.value) <= lib.show(val)
    case _ => false
  }

  predicate HasPayload(doc: Fields) {
    "payload" in doc && doc["payload"].Object?
  }

  ghost predicate MatchesAll(lib: Library, doc: Fields, filters: seq<Filter>) {
    HasPayload(doc) && forall f | f in filters :: MatchesFilter(lib, doc["payload"].fields, f)
  }

  method MatchesFilters(lib: Library, doc: Fields, filters: seq<Filter>) returns (ok: bool)
    ensures ok <==> MatchesAll(lib, doc, filters)
  {
    if !HasPayload(doc) {
      return false;
    }
    for i := 0 to |filters|
      invariant forall f | f in filters[..i] :: MatchesFilter(lib, doc["payload"].fields, f)
    {
      if !MatchesFilter(lib, doc["payload"].fields, filters[i]) {
        return false;
      }
    }
    assert filters[..|filters|] == filters;
    ok := true;
  }

  /**
   * What each operator asks of the printed field, said without the operators' own functions. A missing field and
   * an unknown operator match nothing.
   */
  lemma FilterMeaning(lib: Library, payload: Fields, f: Filter)
    ensures f.key !in payload ==> !MatchesFilter(lib, payload, f)
    ensures f.operator !in {"=", "!=", ">", "<", ">=", "<=", "CONTAINS", "STARTS_WITH"} ==> !MatchesFilter(lib, payload, f)
    ensures f.key in payload ==>
      var shown, asked := lib.show(payload[f.key]), lib.show(f.value);
      && (f.operator == "=" ==> (MatchesFilter(lib, payload, f) <==> shown == asked))
      && (f.operator == "!=" ==> (MatchesFilter(lib, payload, f) <==> shown != asked))
      && (f.operator == "<" ==> (MatchesFilter(lib, payload, f) <==> Less(shown, asked)))
      && (f.operator == ">" ==> (MatchesFilter(lib, payload, f) <==> Less(asked, shown)))
      && (f.operator == "<=" ==> (MatchesFilter(lib, payload, f) <==> shown == asked || Less(shown, asked)))
      && (f.operator == ">=" ==> (MatchesFilter(lib, payload, f) <==> shown == asked || Less(asked, shown)))
      && (f.operator == "CONTAINS" ==>
            (MatchesFilter(lib, payload, f) <==> exists before: string, after: string :: shown == before + asked + after))
      && (f.operator == "STARTS_WITH" ==>
            (MatchesFilter(lib, payload, f) <==> exists after: string :: shown == asked + after))
  {
    if f.key in payload {
      var shown, asked := lib.show(payload[f.key]), lib.show(f.value);
      LessIsTrichotomous(shown, asked);
      Text.ContainsIff(shown, asked);
      if asked <= shown {
        assert shown == asked + shown[|asked|..];
      }
    }
  }

  /** All filters are asked of the payload object; without one a document matches nothing. */
  lemma AllFiltersAreAsked(lib: Library, doc: Fields, filters: seq<Filter>)
    ensures MatchesAll(lib, doc, filters) <==>
      exists payload :: "payload" in doc && doc["payload"] == Object(payload)
        && forall i | 0 <= i < |filters| :: MatchesFilter(lib, payload, filters[i])
  {
    hide MatchesFilter;
    if MatchesAll(lib, doc, filters) {
      assert doc["payload"] == Object(doc["payload"].fields);
    }
  }

  /** The six comparisons are one total order on the printed forms, and a missing field matches none of them. */
  lemma ComparisonsAgree(lib: Library, payload: Fields, key: string, value: Value)
    ensures key !in payload ==> forall op :: !MatchesFilter(lib, payload, Filter(key, op, value))
    ensures key in payload ==>
      && (MatchesFilter(lib, payload, Filter(key, ">=", value)) <==> !MatchesFilter(lib, payload, Filter(key, "<", value)))
      && (MatchesFilter(lib, payload, Filter(key, "<=", value)) <==> !MatchesFilter(lib, payload, Filter(key, ">", value)))
      && (MatchesFilter(lib, payload, Filter(key, "=", value)) <==> !MatchesFilter(lib, payload, Filter(key, "!=", value)))
      && (MatchesFilter(lib, payload, Filter(key, "=", value)) <==>
            MatchesFilter(lib, payload, Filter(key, "<=", value)) && MatchesFilter(lib, payload, Filter(key, ">=", value)))
      && (MatchesFilter(lib, payload, Filter(key, "STARTS_WITH", value)) ==>
            MatchesFilter(lib, payload, Filter(key, ">=", value)) && MatchesFilter(lib, payload, Filter(key, "CONTAINS", value)))
  {
    if key in payload {
      var a, b := lib.show(payload[key]), lib.show(value);
      LessIsTrichotomous(a, b);
      if b <= a {
        PrefixIsNotLess(a, b);
        assert a[0..] == a;
        assert b <= a[0..];
      }
    }
  }

  lemma {:induction false} PrefixIsNotLess(a: string, b: string)
    requires b <= a
    ensures !Less(a, b)
  {
    if b != [] {
      PrefixIsNotLess(a[1..], b[1..]);
    }
  }

  /** Raising the bound of a `>` filter can only lose documents. */
  lemma RangesNest(lib: Library, payload: Fields, key: string, low: Value, high: Value)
    requires Less(lib.show(low), lib.show(high)) && MatchesFilter(lib, payload, Filter(key, ">", high))
    ensures MatchesFilter(lib, payload, Filter(key, ">", low))
  {
    var a := lib.show(payload[key]);
    LessIsTrichotomous(a, lib.show(high));
    LessIsTransitive(lib.show(low), lib.show(high), a);
    LessIsTrichotomous(lib.show(low), a);
  }

  /** The order is the order of printed text, not of numbers. */
  lemma NumbersCompareAsText(lib: Library)
    requires lib.show(Number(9.0)) == "9" && lib.show(Number(10.0)) == "10"
    ensures MatchesFilter(lib, map["n" := Number(10.0)], Filter("n", "<", Number(9.0)))
  {
  }
}
