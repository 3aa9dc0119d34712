/** What a vector index holds after any run of writes and deletions, and when that is what the documents carry. */
module VectorRuns {
  import opened Json
  import opened Sequences
  import opened Changes
  import opened Tokens
  import opened SecondaryIndex

  // ---------------------------------------------------------------- the last vector given

  predicate GivesTo(lib: Library, partialExpr: string, c: Change, id: string) {
    Gives(lib, partialExpr, c) && c.id == id
  }

  /** After this change nothing gives the id another vector and nothing deletes it. */
  ghost predicate IsLastGift(lib: Library, partialExpr: string, cs: seq<Change>, id: string, k: nat) {
    && k < |cs| && GivesTo(lib, partialExpr, cs[k], id)
    && forall j | k < j < |cs| :: !GivesTo(lib, partialExpr, cs[j], id) && cs[j] != Erase(id)
  }

  lemma GiftOneMore(lib: Library, partialExpr: string, cs: seq<Change>, id: string, k: nat)
    requires cs != []
    ensures IsLastGift(lib, partialExpr, cs, id, k) <==>
      if k == |cs| - 1 then GivesTo(lib, partialExpr, Last(cs), id)
      else IsLastGift(lib, partialExpr, Front(cs), id, k) && !GivesTo(lib, partialExpr, Last(cs), id) && Last(cs) != Erase(id)
  {
    hide GivesTo;
    var n := |cs| - 1;
    if k < n {
      assert forall j | 0 <= j < n :: Front(cs)[j] == cs[j];
      if IsLastGift(lib, partialExpr, cs, id, k) {
        assert !GivesTo(lib, partialExpr, cs[n], id) && cs[n] != Erase(id);
      }
    }
  }

  /**
   * After every run: an id has a vector exactly when some write gave it one that no deletion of the id
   * follows, and it is the vector of the last such write, whatever was written under the id since.
   */
  lemma {:induction false} VectorIsLastGiven(lib: Library, partialExpr: string, cs: seq<Change>, id: string)
    ensures id in VectorsAfter(lib, partialExpr, cs) <==> exists k: nat :: IsLastGift(lib, partialExpr, cs, id, k)
    ensures forall k: nat | IsLastGift(lib, partialExpr, cs, id, k) ::
      id in VectorsAfter(lib, partialExpr, cs) && VectorsAfter(lib, partialExpr, cs)[id] == VectorOf(cs[k].doc).value
  {
    if cs != [] {
      var front, n := Front(cs), |cs| - 1;
      VectorIsLastGiven(lib, partialExpr, front, id);
      forall k: nat { GiftOneMore(lib, partialExpr, cs, id, k); }
      hide IsLastGift, VectorOf, MatchesPartial;
      if GivesTo(lib, partialExpr, Last(cs), id) {
        assert IsLastGift(lib, partialExpr, cs, id, n);
      } else if id in VectorsAfter(lib, partialExpr, front) && Last(cs) != Erase(id) {
        var k: nat :| IsLastGift(lib, partialExpr, front, id, k);
        assert k < n by { LastGiftIsThere(lib, partialExpr, front, id, k); }
        assert IsLastGift(lib, partialExpr, cs, id, k);
      }
      forall k: nat | IsLastGift(lib, partialExpr, cs, id, k)
        ensures id in VectorsAfter(lib, partialExpr, cs) && VectorsAfter(lib, partialExpr, cs)[id] == VectorOf(cs[k].doc).value
      {
        LastGiftIsThere(lib, partialExpr, cs, id, k);
      }
    }
  }

  lemma LastGiftIsThere(lib: Library, partialExpr: string, cs: seq<Change>, id: string, k: nat)
    requires IsLastGift(lib, partialExpr, cs, id, k)
    ensures k < |cs| && GivesTo(lib, partialExpr, cs[k], id)
  {
  }

  // ---------------------------------------------------------------- against the documents

  /** The vectors that the documents carry, for the documents that the index takes. */
  function CarriedVectors(lib: Library, partialExpr: string, docs: map<string, Fields>): map<string, seq<real>> {
    map id | id in docs && MatchesPartial(lib, partialExpr, docs[id]) && VectorOf(docs[id]).Some? :: VectorOf(docs[id]).value
  }

  /** No write without a vector replaces a document that has one. */
  predicate KeepsVectors(lib: Library, partialExpr: string, cs: seq<Change>) {
    cs == [] ||
      (KeepsVectors(lib, partialExpr, Front(cs)) &&
       (Last(cs).Write? && !Gives(lib, partialExpr, Last(cs)) ==>
          Last(cs).id !in CarriedVectors(lib, partialExpr, DocumentsAfter(Front(cs)))))
  }

  predicate Faithfully(lib: Library, partialExpr: string, cs: seq<Change>) {
    VectorsAfter(lib, partialExpr, cs) == CarriedVectors(lib, partialExpr, DocumentsAfter(cs))
  }

  lemma CarriedAfter(lib: Library, partialExpr: string, docs: map<string, Fields>, c: Change)
    ensures var carried := CarriedVectors(lib, partialExpr, docs);
      CarriedVectors(lib, partialExpr, Changed(docs, c)) ==
        match c
        case Write(id, doc) => if Gives(lib, partialExpr, c) then carried[id := VectorOf(doc).value] else carried - {id}
        case Erase(id) => carried - {id}
  {
    hide VectorOf, MatchesPartial;
  }

  lemma FaithfulStep(lib: Library, partialExpr: string, cs: seq<Change>)
    requires cs != [] && Faithfully(lib, partialExpr, Front(cs))
    ensures Faithfully(lib, partialExpr, cs) <==>
      (Last(cs).Write? && !Gives(lib, partialExpr, Last(cs)) ==>
        Last(cs).id !in CarriedVectors(lib, partialExpr, DocumentsAfter(Front(cs))))
  {
    CarriedAfter(lib, partialExpr, DocumentsAfter(Front(cs)), Last(cs));
    hide CarriedVectors, Gives, VectorOf;
  }

  /**
   * The index holds exactly the vectors of the present documents throughout a run, exactly when no document
   * with a vector is ever overwritten by one without.
   */
  lemma {:induction false} VectorsFollowIff(lib: Library, partialExpr: string, cs: seq<Change>)
    ensures (forall n: nat | n <= |cs| :: Faithfully(lib, partialExpr, cs[..n])) <==> KeepsVectors(lib, partialExpr, cs)
  {
    var n := |cs|;
    assert cs[..n] == cs;
    if cs == [] {
      assert forall m: nat | m <= 0 :: cs[..m] == [];
    } else {
      VectorsFollowIff(lib, partialExpr, Front(cs));
      assert forall m: nat | m < n :: Front(cs)[..m] == cs[..m];
      assert cs[..n - 1] == Front(cs);
      if Faithfully(lib, partialExpr, Front(cs)) {
        FaithfulStep(lib, partialExpr, cs);
      }
      hide Faithfully, CarriedVectors, Gives;
      if KeepsVectors(lib, partialExpr, cs) {
        assert Faithfully(lib, partialExpr, Front(cs)[..n - 1]);
      }
    }
  }
}
