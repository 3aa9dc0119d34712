/** Small facts about sequences that the proofs by induction on the last element use. */
module Sequences {

  predicate NoRepeats<T(==)>(s: seq<T>) {
    forall i, j | 0 <= i < j < |s| :: s[i] != s[j]
  }

  function Front<T>(s: seq<T>): seq<T>
    requires s != []
  {
    s[..|s| - 1]
  }

  function Last<T>(s: seq<T>): T
    requires s != []
  {
    s[|s| - 1]
  }

  lemma FrontLast<T>(s: seq<T>)
    requires s != []
    ensures Front(s) + [Last(s)] == s
    ensures forall x :: x in s <==> x in Front(s) || x == Last(s)
  {
    assert Front(s) + [Last(s)] == s;
    forall x ensures x in s <==> x in Front(s) || x == Last(s) {
      assert x in Front(s) + [Last(s)] <==> x in Front(s) || x == Last(s);
    }
  }

  lemma SnocFront<T>(s: seq<T>, x: T)
    ensures Front(s + [x]) == s && Last(s + [x]) == x
  {
  }
}
