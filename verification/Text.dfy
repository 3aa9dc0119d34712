/** The string operations the storage and query code uses: splitting, joining, trimming, prefixes. */
module Text {

  /** The pieces between the separators; always at least one. */
  function Split(s: string, separator: char): (parts: seq<string>)
    ensures parts != []
  {
    if s == [] then [[]]
    else
      var rest := Split(s[1..], separator);
      if s[0] == separator then [[]] + rest else [[s[0]] + rest[0]] + rest[1..]
  }

  function Join(parts: seq<string>, separator: char): string {
    if parts == [] then []
    else if |parts| == 1 then parts[0]
    else parts[0] + [separator] + Join(parts[1..], separator)
  }

  predicate Free(parts: seq<string>, separator: char) {
    forall part | part in parts :: separator !in part
  }

  function TrimLeft(s: string, cut: set<char>): string {
    if s != [] && s[0] in cut then TrimLeft(s[1..], cut) else s
  }

  function TrimRight(s: string, cut: set<char>): string {
    if s != [] && s[|s| - 1] in cut then TrimRight(s[..|s| - 1], cut) else s
  }

  function Trim(s: string, cut: set<char>): string {
    TrimRight(TrimLeft(s, cut), cut)
  }

  predicate HasSuffix(s: string, suffix: string) {
    |suffix| <= |s| && s[|s| - |suffix|..] == suffix
  }

  predicate Contains(s: string, part: string) {
    exists i | 0 <= i <= |s| - |part| :: part <= s[i..]
  }

  /** The part lies in the text exactly when the text is something, the part, and something. */
  lemma ContainsIff(s: string, part: string)
    ensures Contains(s, part) <==> exists before: string, after: string :: s == before + part + after
  {
    if Contains(s, part) {
      var i :| 0 <= i <= |s| - |part| && part <= s[i..];
      assert s == s[..i] + part + s[i + |part|..];
    }
    if before: string, after: string :| s == before + part + after {
      assert s[|before|..] == part + after;
    }
  }

  lemma {:induction false} SplitOfFree(s: string, separator: char)
    requires separator !in s
    ensures Split(s, separator) == [s]
  {
    if s != [] {
      SplitOfFree(s[1..], separator);
      assert [s[0]] + s[1..] == s;
    }
  }

  lemma {:induction false} SplitAtFirst(head: string, tail: string, separator: char)
    requires separator !in head
    ensures Split(head + [separator] + tail, separator) == [head] + Split(tail, separator)
  {
    var whole := head + [separator] + tail;
    if head == [] {
      assert whole[1..] == tail;
    } else {
      assert whole[1..] == head[1..] + [separator] + tail;
      SplitAtFirst(head[1..], tail, separator);
      assert [head[0]] + head[1..] == head;
    }
  }

  /** Splitting undoes joining when no part holds the separator. */
  lemma {:induction false} SplitJoin(parts: seq<string>, separator: char)
    requires parts != [] && Free(parts, separator)
    ensures Split(Join(parts, separator), separator) == parts
  {
    if |parts| == 1 {
      SplitOfFree(parts[0], separator);
    } else {
      SplitJoin(parts[1..], separator);
      SplitAtFirst(parts[0], Join(parts[1..], separator), separator);
      assert [parts[0]] + parts[1..] == parts;
    }
  }

  /** And joining undoes splitting, always; no piece holds the separator. */
  lemma {:induction false} JoinSplit(s: string, separator: char)
    ensures Join(Split(s, separator), separator) == s && Free(Split(s, separator), separator)
  {
    if s != [] {
      var rest := Split(s[1..], separator);
      JoinSplit(s[1..], separator);
      assert s == [s[0]] + s[1..];
      assert rest == [rest[0]] + rest[1..];
      if s[0] == separator {
        assert ([[]] + rest)[1..] == rest;
      } else {
        assert ([[s[0]] + rest[0]] + rest[1..])[1..] == rest[1..];
        assert separator !in rest[0] by { assert rest[0] in rest; }
      }
    }
  }

  /** There is one more piece than there are separators. */
  lemma {:induction false} SplitCount(s: string, separator: char)
    ensures |Split(s, separator)| == 1 + multiset(s)[separator]
  {
    if s != [] {
      SplitCount(s[1..], separator);
      assert s == [s[0]] + s[1..];
    }
  }

  predicate AllIn(s: string, cut: set<char>) {
    forall c | c in s :: c in cut
  }

  /** The token is the text between cut characters, and the text has none at its ends. */
  ghost predicate IsCore(token: string, text: string, cut: set<char>) {
    && (text != [] ==> text[0] !in cut && text[|text| - 1] !in cut)
    && exists before: string, after: string :: AllIn(before, cut) && AllIn(after, cut) && token == before + text + after
  }

  lemma {:induction false} TrimLeftOf(before: string, rest: string, cut: set<char>)
    requires AllIn(before, cut) && (rest != [] ==> rest[0] !in cut)
    ensures TrimLeft(before + rest, cut) == rest
  {
    if before == [] {
      assert before + rest == rest;
    } else {
      assert (before + rest)[1..] == before[1..] + rest;
      TrimLeftOf(before[1..], rest, cut);
    }
  }

  lemma {:induction false} TrimRightOf(text: string, after: string, cut: set<char>)
    requires AllIn(after, cut) && (text != [] ==> text[|text| - 1] !in cut)
    ensures TrimRight(text + after, cut) == text
  {
    if after == [] {
      assert text + after == text;
    } else {
      assert (text + after)[..|text + after| - 1] == text + after[..|after| - 1];
      TrimRightOf(text, after[..|after| - 1], cut);
    }
  }

  lemma {:induction false} TrimLeftSplits(s: string, cut: set<char>) returns (before: string)
    ensures AllIn(before, cut) && s == before + TrimLeft(s, cut)
    ensures TrimLeft(s, cut) != [] ==> TrimLeft(s, cut)[0] !in cut
  {
    if s != [] && s[0] in cut {
      var rest := TrimLeftSplits(s[1..], cut);
      before := [s[0]] + rest;
      assert s == [s[0]] + s[1..];
    } else {
      before := [];
    }
  }

  lemma {:induction false} TrimRightSplits(s: string, cut: set<char>) returns (after: string)
    requires s != [] ==> s[0] !in cut
    ensures AllIn(after, cut) && s == TrimRight(s, cut) + after
    ensures var t := TrimRight(s, cut); t != [] ==> t[0] !in cut && t[|t| - 1] !in cut
  {
    if s != [] && s[|s| - 1] in cut {
      var rest := TrimRightSplits(s[..|s| - 1], cut);
      after := rest + [s[|s| - 1]];
      assert s == s[..|s| - 1] + [s[|s| - 1]];
    } else {
      after := [];
    }
  }

  lemma TrimLeavesCore(token: string, cut: set<char>)
    ensures IsCore(token, Trim(token, cut), cut)
  {
    hide TrimLeft, TrimRight, AllIn;
    var before := TrimLeftSplits(token, cut);
    var after := TrimRightSplits(TrimLeft(token, cut), cut);
    assert token == before + Trim(token, cut) + after;
  }

  lemma CoreIsTrimmed(before: string, text: string, after: string, cut: set<char>)
    requires AllIn(before, cut) && AllIn(after, cut)
    requires text != [] ==> text[0] !in cut && text[|text| - 1] !in cut
    ensures Trim(before + text + after, cut) == text
  {
    if text == [] {
      TrimLeftOf(before + after, [], cut);
      assert before + text + after == before + after + [];
    } else {
      TrimLeftOf(before, text + after, cut);
      TrimRightOf(text, after, cut);
      hide AllIn;
      assert before + text + after == before + (text + after);
    }
  }

  /** What trimming leaves, said without recursion. */
  lemma TrimIff(token: string, text: string, cut: set<char>)
    ensures Trim(token, cut) == text <==> IsCore(token, text, cut)
  {
    TrimLeavesCore(token, cut);
    hide Trim, AllIn;
    if IsCore(token, text, cut) {
      var before: string, after: string :| AllIn(before, cut) && AllIn(after, cut) && token == before + text + after;
      CoreIsTrimmed(before, text, after, cut);
    }
  }

  /** Trimming takes a pair of cut characters off a string that neither starts nor ends with one. */
  lemma TrimPair(open: char, s: string, close: char, cut: set<char>)
    requires open in cut && close in cut
    requires s == [] || (s[0] !in cut && s[|s| - 1] !in cut)
    ensures Trim([open] + s + [close], cut) == s
  {
    var whole := [open] + s + [close];
    assert whole[1..] == s + [close];
    if s == [] {
      assert s + [close] == [close] && [close][1..] == [];
      assert TrimLeft([close], cut) == [];
    } else {
      var tail := s + [close];
      assert tail[0] == s[0] && tail[|s|] == close && tail[..|s|] == s;
      assert TrimRight(tail, cut) == TrimRight(s, cut);
    }
  }
}
