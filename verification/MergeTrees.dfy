/** Merging many document states: every order and every grouping of `Resolve` is a binary tree over the inputs. */
module MergeTrees {
  import opened Json
  import opened VectorClocks
  import opened Resolver

  datatype Tree = Leaf(doc: Doc) | Node(left: Tree, right: Tree)

  function Leaves(t: Tree): (docs: seq<Doc>)
    ensures docs != []
  {
    match t
    case Leaf(doc) => [doc]
    case Node(left, right) => Leaves(left) + Leaves(right)
  }

  function Eval(t: Tree): Doc {
    match t
    case Leaf(doc) => doc
    case Node(left, right) => Resolve(Eval(left), Eval(right))
  }

  function Clocks(docs: seq<Doc>): seq<Counts> {
    seq(|docs|, i requires 0 <= i < |docs| => docs[i].vector)
  }

  ghost predicate MergesOf(t: Tree, docs: seq<Doc>) {
    multiset(Leaves(t)) == multiset(docs)
  }

  // ---------------------------------------------------------------- clocks

  predicate SameFlag(docs: seq<Doc>, deleted: bool) {
    forall i | 0 <= i < |docs| :: docs[i].deleted == deleted
  }

  lemma {:induction false} JoinAllConcat(cs: seq<Counts>, cs': seq<Counts>)
    ensures JoinAll(cs + cs') == Join(JoinAll(cs), JoinAll(cs'))
  {
    if cs == [] {
      assert cs + cs' == cs';
      JoinCommutes(map[], JoinAll(cs'));
      assert Join(map[], JoinAll(cs')) == JoinAll(cs');
    } else {
      assert (cs + cs')[1..] == cs[1..] + cs';
      JoinAllConcat(cs[1..], cs');
      JoinAssociative(cs[0], JoinAll(cs[1..]), JoinAll(cs'));
    }
  }

  lemma ClocksOfParts(l: seq<Doc>, r: seq<Doc>)
    ensures JoinAll(Clocks(l + r)) == Join(JoinAll(Clocks(l)), JoinAll(Clocks(r)))
  {
    assert Clocks(l + r) == Clocks(l) + Clocks(r);
    JoinAllConcat(Clocks(l), Clocks(r));
  }

  lemma FlagOfParts(l: seq<Doc>, r: seq<Doc>, deleted: bool)
    requires SameFlag(l + r, deleted)
    ensures SameFlag(l, deleted) && SameFlag(r, deleted)
  {
    assert forall i | 0 <= i < |l| :: l[i] == (l + r)[i];
    assert forall i | 0 <= i < |r| :: r[i] == (l + r)[|l| + i];
  }

  lemma SplitFlag(t: Tree, deleted: bool)
    requires t.Node? && SameFlag(Leaves(t), deleted)
    ensures SameFlag(Leaves(t.left), deleted) && SameFlag(Leaves(t.right), deleted)
  {
    FlagOfParts(Leaves(t.left), Leaves(t.right), deleted);
  }

  /** Two documents with one flag: the clock of their merge is the join. */
  lemma ResolveJoins(a: Doc, b: Doc, p: PeerID)
    requires a.deleted == b.deleted
    ensures Resolve(a, b).deleted == a.deleted
    ensures Count(Resolve(a, b).vector, p) == Max(Count(a.vector, p), Count(b.vector, p))
  {
    LeqIsPointwise(a.vector, b.vector);
    LeqIsPointwise(b.vector, a.vector);
  }

  /** Whatever the tree, documents with one deletion flag merge to the join of all their clocks. */
  lemma {:induction false} TreeClockIsJoin(t: Tree, deleted: bool, p: PeerID)
    requires SameFlag(Leaves(t), deleted)
    ensures Eval(t).deleted == deleted
    ensures Count(Eval(t).vector, p) == Count(JoinAll(Clocks(Leaves(t))), p)
  {
    match t
    case Leaf(doc) =>
      assert Leaves(t)[0] == doc;
      assert Clocks([doc]) == [doc.vector];
      assert JoinAll([doc.vector]) == Join(doc.vector, JoinAll([]));
    case Node(left, right) =>
      SplitFlag(t, deleted);
      TreeClockIsJoin(left, deleted, p);
      TreeClockIsJoin(right, deleted, p);
      ResolveJoins(Eval(left), Eval(right), p);
      ClocksOfParts(Leaves(left), Leaves(right));
  }

  // ---------------------------------------------------------------- independent inputs

  /** Each input counts some peer further than all the others do. */
  ghost predicate Independent(docs: seq<Doc>) {
    forall i | 0 <= i < |docs| :: Standalone(docs, i)
  }

  ghost predicate Standalone(docs: seq<Doc>, i: nat)
    requires i < |docs|
  {
    exists p: PeerID :: Tops(docs, i, p)
  }

  ghost predicate Tops(docs: seq<Doc>, i: nat, p: PeerID)
    requires i < |docs|
  {
    forall j | 0 <= j < |docs| && j != i :: Count(docs[j].vector, p) < Count(docs[i].vector, p)
  }

  predicate DistinctRanks(docs: seq<Doc>) {
    forall i, j | 0 <= i < j < |docs| :: docs[i].timestamp != docs[j].timestamp || docs[i].peerID != docs[j].peerID
  }

  function Without(docs: seq<Doc>, i: nat): seq<Doc>
    requires i < |docs|
  {
    docs[..i] + docs[i + 1..]
  }

  /** Independence, said with joins: no input clock lies below the join of the others. */
  lemma IndependentIff(docs: seq<Doc>)
    requires |docs| > 1
    ensures Independent(docs) <==> forall i | 0 <= i < |docs| :: !Leq(docs[i].vector, JoinAll(Clocks(Without(docs, i))))
  {
    forall i | 0 <= i < |docs|
      ensures Standalone(docs, i) <==> !Leq(docs[i].vector, JoinAll(Clocks(Without(docs, i))))
    {
      var others := Without(docs, i);
      var j := JoinAll(Clocks(others));
      forall p: PeerID ensures Tops(docs, i, p) <==> Count(docs[i].vector, p) > Count(j, p) {
        TopsIff(docs, i, p);
      }
      LeqIsPointwise(docs[i].vector, j);
    }
  }

  lemma TopsIff(docs: seq<Doc>, i: nat, p: PeerID)
    requires |docs| > 1 && i < |docs|
    ensures Tops(docs, i, p) <==> Count(docs[i].vector, p) > Count(JoinAll(Clocks(Without(docs, i))), p)
  {
    var cs, c := Clocks(Without(docs, i)), Count(docs[i].vector, p);
    assert forall m | 0 <= m < |cs| :: cs[m] == docs[if m < i then m else m + 1].vector;
    JoinAllBounds(cs, p);
    if c > Count(JoinAll(cs), p) {
      forall j | 0 <= j < |docs| && j != i ensures Count(docs[j].vector, p) < c {
        var m := if j < i then j else j - 1;
        assert Count(cs[m], p) <= Count(JoinAll(cs), p);
      }
    }
    if Tops(docs, i, p) {
      assert Count(docs[if i == 0 then 1 else 0].vector, p) < c;
      if Count(JoinAll(cs), p) > 0 {
        var m :| 0 <= m < |cs| && Count(cs[m], p) == Count(JoinAll(cs), p);
      }
    }
  }

  lemma SplitIndependence(t: Tree)
    requires t.Node? && Independent(Leaves(t)) && DistinctRanks(Leaves(t))
    ensures Independent(Leaves(t.left)) && Independent(Leaves(t.right))
    ensures DistinctRanks(Leaves(t.left)) && DistinctRanks(Leaves(t.right))
  {
    var l, r, all := Leaves(t.left), Leaves(t.right), Leaves(t);
    assert forall i | 0 <= i < |l| :: l[i] == all[i];
    assert forall i | 0 <= i < |r| :: r[i] == all[|l| + i];
    forall i | 0 <= i < |l| ensures Standalone(l, i) {
      assert Standalone(all, i);
      var p: PeerID :| Tops(all, i, p);
      assert Tops(l, i, p);
    }
    forall i | 0 <= i < |r| ensures Standalone(r, i) {
      assert Standalone(all, |l| + i);
      var p: PeerID :| Tops(all, |l| + i, p);
      assert Tops(r, i, p);
    }
  }

  /** One side of a node never lies below the other. */
  lemma SidesAreConcurrent(t: Tree, deleted: bool)
    requires t.Node? && SameFlag(Leaves(t), deleted) && Independent(Leaves(t))
    ensures Relation(Eval(t.left).vector, Eval(t.right).vector) == Concurrent
  {
    var l, r, all := Leaves(t.left), Leaves(t.right), Leaves(t);
    SplitFlag(t, deleted);
    assert Standalone(all, 0) && Standalone(all, |l|);
    var p: PeerID :| Tops(all, 0, p);
    SideTops(t.left, t.right, deleted, l[0], p) by {
      assert all[0] == l[0];
      forall j | 0 <= j < |r| ensures Count(r[j].vector, p) < Count(l[0].vector, p) { assert r[j] == all[|l| + j]; }
    }
    var q: PeerID :| Tops(all, |l|, q);
    SideTops(t.right, t.left, deleted, r[0], q) by {
      assert all[|l|] == r[0];
      forall j | 0 <= j < |l| ensures Count(l[j].vector, q) < Count(r[0].vector, q) { assert l[j] == all[j]; }
    }
  }

  lemma SideTops(s: Tree, t: Tree, deleted: bool, d: Doc, p: PeerID)
    requires SameFlag(Leaves(s), deleted) && SameFlag(Leaves(t), deleted)
    requires d in Leaves(s)
    requires forall j | 0 <= j < |Leaves(t)| :: Count(Leaves(t)[j].vector, p) < Count(d.vector, p)
    ensures !Leq(Eval(s).vector, Eval(t).vector)
  {
    TreeClockIsJoin(s, deleted, p);
    TreeClockIsJoin(t, deleted, p);
    JoinReaches(Leaves(s), d, p);
    JoinStaysBelow(Leaves(t), Count(d.vector, p), p);
    hide *;
    LeqIsPointwise(Eval(s).vector, Eval(t).vector);
  }

  lemma JoinReaches(docs: seq<Doc>, d: Doc, p: PeerID)
    requires d in docs
    ensures Count(d.vector, p) <= Count(JoinAll(Clocks(docs)), p)
  {
    var cs := Clocks(docs);
    JoinAllBounds(cs, p);
    var i :| 0 <= i < |docs| && docs[i] == d;
    assert cs[i] == d.vector;
    hide JoinAll, Count;
  }

  lemma JoinStaysBelow(docs: seq<Doc>, n: nat, p: PeerID)
    requires docs != [] && forall j | 0 <= j < |docs| :: Count(docs[j].vector, p) < n
    ensures Count(JoinAll(Clocks(docs)), p) < n
  {
    var cs := Clocks(docs);
    JoinAllBounds(cs, p);
    hide JoinAll, Count;
    assert Count(docs[0].vector, p) < n;
    if Count(JoinAll(cs), p) > 0 {
      var m :| 0 <= m < |cs| && Count(cs[m], p) == Count(JoinAll(cs), p);
      assert cs[m] == docs[m].vector;
    }
  }

  // ---------------------------------------------------------------- the winner

  predicate Beats(a: Doc, b: Doc) {
    a.timestamp > b.timestamp || (a.timestamp == b.timestamp && Less(b.peerID, a.peerID))
  }

  lemma BeatsTransitive(a: Doc, b: Doc, c: Doc)
    requires Beats(a, b) && Beats(b, c)
    ensures Beats(a, c)
  {
    if a.timestamp == b.timestamp == c.timestamp {
      LessIsTransitive(c.peerID, b.peerID, a.peerID);
    }
  }

  /** The input with the latest timestamp, ties going to the greatest peer id. */
  predicate Winner(docs: seq<Doc>, w: Doc) {
    w in docs && forall i | 0 <= i < |docs| :: docs[i] == w || Beats(w, docs[i])
  }

  lemma WinnerIsUnique(docs: seq<Doc>, w: Doc, w': Doc)
    requires Winner(docs, w) && Winner(docs, w')
    ensures w == w'
  {
    LessIsTrichotomous(w.peerID, w'.peerID);
  }

  /** The winner's fields stand, every field name survives, and every value comes from some input. */
  ghost predicate UnionOf(docs: seq<Doc>, w: Doc, payload: Fields) {
    && (forall k | k in w.payload :: k in payload && payload[k] == w.payload[k])
    && (forall k, i | 0 <= i < |docs| && k in docs[i].payload :: k in payload)
    && (forall k | k in payload :: exists i | 0 <= i < |docs| :: k in docs[i].payload && docs[i].payload[k] == payload[k])
  }

  /** What every merge tree over the inputs computes, up to the values the winner leaves open. */
  ghost predicate MergeOutcome(docs: seq<Doc>, w: Doc, result: Doc) {
    && Winner(docs, w)
    && result.(payload := w.payload) == w.(vector := JoinAll(Clocks(docs)))
    && UnionOf(docs, w, result.payload)
  }

  lemma UnionOfNode(l: seq<Doc>, r: seq<Doc>, all: seq<Doc>, w: Doc, o: Doc, p: Fields, q: Fields)
    requires UnionOf(l, w, p) && UnionOf(r, o, q)
    requires forall d :: d in all <==> d in l || d in r
    ensures UnionOf(all, w, q + p)
  {
    forall k, i | 0 <= i < |all| && k in all[i].payload ensures k in q + p {
      assert all[i] in l || all[i] in r;
    }
    forall k | k in q + p
      ensures exists i | 0 <= i < |all| :: k in all[i].payload && all[i].payload[k] == (q + p)[k]
    {
      var d: Doc;
      if k in p {
        var i :| 0 <= i < |l| && k in l[i].payload && l[i].payload[k] == p[k];
        d := l[i];
      } else {
        var i :| 0 <= i < |r| && k in r[i].payload && r[i].payload[k] == q[k];
        d := r[i];
      }
      assert d in all;
    }
  }

  /** The winner of one side wins the whole when it beats the winner of the other. */
  lemma WinnerOfNode(l: seq<Doc>, r: seq<Doc>, all: seq<Doc>, w: Doc, o: Doc)
    requires Winner(l, w) && Winner(r, o) && Beats(w, o)
    requires forall d :: d in all <==> d in l || d in r
    ensures Winner(all, w)
  {
    forall i | 0 <= i < |all| ensures all[i] == w || Beats(w, all[i]) {
      if all[i] in r && all[i] != o { BeatsTransitive(w, o, all[i]); }
    }
  }

  lemma SidesDiffer(t: Tree, w: Doc, o: Doc)
    requires t.Node? && DistinctRanks(Leaves(t)) && w in Leaves(t.left) && o in Leaves(t.right)
    ensures Outranks(w, o) <==> Beats(w, o)
    ensures !Outranks(w, o) <==> Beats(o, w)
  {
    var l, r := Leaves(t.left), Leaves(t.right);
    var i :| 0 <= i < |l| && l[i] == w;
    var j :| 0 <= j < |r| && r[j] == o;
    assert Leaves(t)[i] == w && Leaves(t)[|l| + j] == o;
    LessIsTrichotomous(w.peerID, o.peerID);
  }

  /** The merge-tree theorem: every order and grouping gives the same winner, clock and field names. */
  lemma {:induction false} EveryTreeAgrees(t: Tree, deleted: bool) returns (w: Doc)
    requires SameFlag(Leaves(t), deleted) && Independent(Leaves(t)) && DistinctRanks(Leaves(t))
    ensures MergeOutcome(Leaves(t), w, Eval(t))
  {
    match t
    case Leaf(doc) =>
      w := doc;
      LeafOutcome(doc);
    case Node(left, right) =>
      SplitFlag(t, deleted);
      SplitIndependence(t);
      hide Leaves, SameFlag, Independent, DistinctRanks, MergeOutcome, Eval;
      var a := EveryTreeAgrees(left, deleted);
      var b := EveryTreeAgrees(right, deleted);
      w := NodeOutcome(t, deleted, a, b);
  }

  lemma LeafOutcome(doc: Doc)
    ensures MergeOutcome([doc], doc, doc)
  {
    assert Clocks([doc]) == [doc.vector];
    assert JoinAll([doc.vector]) == Join(doc.vector, map[]) == doc.vector;
    assert forall k | k in doc.payload :: k in [doc][0].payload;
  }

  /** A node of independent inputs takes the merging branch of the resolver. */
  lemma NodeMerges(t: Tree, deleted: bool)
    requires t.Node? && SameFlag(Leaves(t), deleted) && Independent(Leaves(t))
    ensures Eval(t) == if Outranks(Eval(t.left), Eval(t.right)) then MergeInto(Eval(t.left), Eval(t.right))
                       else MergeInto(Eval(t.right), Eval(t.left))
  {
    SplitFlag(t, deleted);
    TreeClockIsJoin(t.left, deleted, "");
    TreeClockIsJoin(t.right, deleted, "");
    SidesAreConcurrent(t, deleted);
    hide JoinAll, Clocks, SameFlag, Independent, Relation, Join, Outranks;
  }

  /** A node keeps the winner of one side, joins the clocks and unites the fields. */
  lemma NodeOutcome(t: Tree, deleted: bool, a: Doc, b: Doc) returns (w: Doc)
    requires t.Node? && SameFlag(Leaves(t), deleted) && Independent(Leaves(t)) && DistinctRanks(Leaves(t))
    requires MergeOutcome(Leaves(t.left), a, Eval(t.left)) && MergeOutcome(Leaves(t.right), b, Eval(t.right))
    ensures MergeOutcome(Leaves(t), w, Eval(t))
  {
    var l, r := Eval(t.left), Eval(t.right);
    NodeMerges(t, deleted);
    SidesDiffer(t, a, b);
    hide UnionOf, Independent, DistinctRanks, JoinAll, Clocks, SameFlag, Resolve, MergeInto, Beats;
    assert Outranks(l, r) == Outranks(a, b);
    if Outranks(a, b) {
      w := a;
      LeftOutcome(Leaves(t.left), Leaves(t.right), a, b, l, r);
    } else {
      w := b;
      RightOutcome(Leaves(t.left), Leaves(t.right), a, b, l, r);
    }
  }

  lemma LeftOutcome(ls: seq<Doc>, rs: seq<Doc>, a: Doc, b: Doc, l: Doc, r: Doc)
    requires MergeOutcome(ls, a, l) && MergeOutcome(rs, b, r) && Beats(a, b)
    ensures MergeOutcome(ls + rs, a, MergeInto(l, r))
  {
    WinnerOfNode(ls, rs, ls + rs, a, b);
    UnionOfNode(ls, rs, ls + rs, a, b, l.payload, r.payload);
    ClocksOfParts(ls, rs);
    hide UnionOf, Winner, JoinAll, Clocks, Join, Beats;
  }

  lemma RightOutcome(ls: seq<Doc>, rs: seq<Doc>, a: Doc, b: Doc, l: Doc, r: Doc)
    requires MergeOutcome(ls, a, l) && MergeOutcome(rs, b, r) && Beats(b, a)
    ensures MergeOutcome(ls + rs, b, MergeInto(r, l))
  {
    WinnerOfNode(rs, ls, ls + rs, b, a);
    UnionOfNode(rs, ls, ls + rs, b, a, r.payload, l.payload);
    ClocksOfParts(ls, rs);
    JoinCommutes(l.vector, r.vector);
    hide UnionOf, Winner, JoinAll, Clocks, Join, Beats;
  }

  // ---------------------------------------------------------------- two trees over the same inputs

  /** The conditions under which the theorem speaks, for one collection of inputs. */
  ghost predicate Mergeable(docs: seq<Doc>, deleted: bool) {
    SameFlag(docs, deleted) && Independent(docs) && DistinctRanks(docs)
  }

  lemma {:induction false} OnceEach(docs: seq<Doc>, d: Doc)
    requires DistinctRanks(docs)
    ensures multiset(docs)[d] <= 1
  {
    if docs != [] {
      var n := |docs| - 1;
      OnceEach(docs[..n], d);
      assert docs == docs[..n] + [docs[n]];
      assert forall i | 0 <= i < n :: docs[..n][i] != docs[n];
      assert d == docs[n] ==> d !in docs[..n];
    }
  }

  lemma TwiceMeansTwo(docs: seq<Doc>, i: nat, j: nat)
    requires i < j < |docs| && docs[i] == docs[j]
    ensures multiset(docs)[docs[i]] >= 2
  {
    assert docs == docs[..j] + docs[j..];
    assert docs[..j][i] == docs[i] && docs[j..][0] == docs[i];
    assert docs[i] in multiset(docs[..j]) && docs[i] in multiset(docs[j..]);
  }

  /** The conditions do not depend on the order of the inputs. */
  lemma MergeableInAnyOrder(docs: seq<Doc>, docs': seq<Doc>, deleted: bool)
    requires Mergeable(docs, deleted) && multiset(docs) == multiset(docs')
    ensures Mergeable(docs', deleted)
  {
    forall i, j | 0 <= i < |docs'| && 0 <= j < |docs'| && i != j ensures docs'[i] != docs'[j] {
      OnceEach(docs, docs'[i]);
      if docs'[i] == docs'[j] {
        if i < j { TwiceMeansTwo(docs', i, j); } else { TwiceMeansTwo(docs', j, i); }
      }
    }
    forall i | 0 <= i < |docs'| ensures docs'[i].deleted == deleted && Standalone(docs', i) {
      var m := Position(docs, docs', i);
      assert Standalone(docs, m);
      var p: PeerID :| Tops(docs, m, p);
      forall j | 0 <= j < |docs'| && j != i ensures Count(docs'[j].vector, p) < Count(docs'[i].vector, p) {
        var n := Position(docs, docs', j);
      }
      assert Tops(docs', i, p);
    }
    forall i, j | 0 <= i < j < |docs'|
      ensures docs'[i].timestamp != docs'[j].timestamp || docs'[i].peerID != docs'[j].peerID
    {
      var m := Position(docs, docs', i);
      var n := Position(docs, docs', j);
      assert m != n;
    }
  }

  lemma Position(docs: seq<Doc>, docs': seq<Doc>, i: nat) returns (m: nat)
    requires multiset(docs) == multiset(docs') && i < |docs'|
    ensures m < |docs| && docs[m] == docs'[i]
  {
    assert docs'[i] in multiset(docs');
    assert docs'[i] in docs;
    m :| m < |docs| && docs[m] == docs'[i];
  }

  lemma SameClocks(docs: seq<Doc>, docs': seq<Doc>)
    requires multiset(docs) == multiset(docs')
    ensures JoinAll(Clocks(docs)) == JoinAll(Clocks(docs'))
  {
    forall i | 0 <= i < |docs| ensures docs[i].vector in Clocks(docs') {
      var m := Position(docs', docs, i);
      assert Clocks(docs')[m] == docs[i].vector;
    }
    forall i | 0 <= i < |docs'| ensures docs'[i].vector in Clocks(docs) {
      var m := Position(docs, docs', i);
      assert Clocks(docs)[m] == docs'[i].vector;
    }
    JoinAllOfSameClocks(Clocks(docs), Clocks(docs'));
  }

  /** What a tree computes, in terms of the inputs in any order. */
  lemma OutcomeOfInputs(t: Tree, docs: seq<Doc>, deleted: bool) returns (w: Doc)
    requires Mergeable(docs, deleted) && MergesOf(t, docs)
    ensures MergeOutcome(docs, w, Eval(t))
  {
    var leaves := Leaves(t);
    MergeableInAnyOrder(docs, leaves, deleted);
    w := EveryTreeAgrees(t, deleted);
    SameClocks(docs, leaves);
    assert w in multiset(leaves);
    forall i | 0 <= i < |docs| ensures docs[i] == w || Beats(w, docs[i]) {
      var m := Position(leaves, docs, i);
    }
    var payload := Eval(t).payload;
    forall k, i | 0 <= i < |docs| && k in docs[i].payload ensures k in payload {
      var m := Position(leaves, docs, i);
    }
    forall k | k in payload ensures exists i | 0 <= i < |docs| :: k in docs[i].payload && docs[i].payload[k] == payload[k] {
      var m :| 0 <= m < |leaves| && k in leaves[m].payload && leaves[m].payload[k] == payload[k];
      var i := Position(docs, leaves, m);
      assert docs[i] == leaves[m];
    }
  }

  // ---------------------------------------------------------------- when trees agree completely

  /** Inputs that carry a field the winner lacks carry one value for it. */
  ghost predicate LosersAgree(docs: seq<Doc>, w: Doc) {
    forall i, j, k | 0 <= i < |docs| && 0 <= j < |docs| && k in docs[i].payload && k in docs[j].payload && k !in w.payload ::
      docs[i].payload[k] == docs[j].payload[k]
  }

  /** A tree over a list of inputs, whichever. */
  function Comb(docs: seq<Doc>): Tree
    requires docs != []
  {
    if |docs| == 1 then Leaf(docs[0]) else Node(Comb(docs[..|docs| - 1]), Leaf(docs[|docs| - 1]))
  }

  lemma {:induction false} CombLeaves(docs: seq<Doc>)
    requires docs != []
    ensures Leaves(Comb(docs)) == docs
  {
    if |docs| > 1 {
      CombLeaves(docs[..|docs| - 1]);
    }
  }

  /** A tree that merges the winner with the i-th input first; that input's value then stands. */
  lemma InputCanStand(docs: seq<Doc>, deleted: bool, w: Doc, i: nat, k: string) returns (t: Tree)
    requires Mergeable(docs, deleted) && Winner(docs, w)
    requires i < |docs| && docs[i] != w && k in docs[i].payload && k !in w.payload
    ensures MergesOf(t, docs)
    ensures k in Eval(t).payload && Eval(t).payload[k] == docs[i].payload[k]
  {
    var d := docs[i];
    var m :| 0 <= m < |docs| && docs[m] == w;
    var rest := TheOthers(docs, i, m);
    var pair := Node(Leaf(w), Leaf(d));
    MergeableInAnyOrder(docs, [w, d] + rest, deleted);
    assert Leaves(pair) == [w, d];
    if rest == [] {
      t := pair;
      assert Leaves(t) == [w, d] + rest;
      PairOutcome(t, w, d, deleted, k);
    } else {
      t := Node(pair, Comb(rest));
      CombLeaves(rest);
      assert Leaves(t) == [w, d] + rest;
      forall b | b in rest ensures b == w || Beats(w, b) {
        assert b in multiset([w, d] + rest);
        assert b in docs;
      }
      PairStands(pair, Comb(rest), w, d, deleted, k);
    }
  }

  lemma WithoutOne(docs: seq<Doc>, i: nat)
    requires i < |docs|
    ensures multiset(docs) == multiset(Without(docs, i)) + multiset{docs[i]}
  {
    assert docs == docs[..i] + [docs[i]] + docs[i + 1..];
  }

  lemma TheOthers(docs: seq<Doc>, i: nat, m: nat) returns (rest: seq<Doc>)
    requires i < |docs| && m < |docs| && i != m
    ensures multiset(docs) == multiset([docs[m], docs[i]] + rest)
  {
    var m' := if m < i then m else m - 1;
    assert Without(docs, i)[m'] == docs[m];
    WithoutOne(docs, i);
    WithoutOne(Without(docs, i), m');
    rest := Without(Without(docs, i), m');
    hide Without;
    PairAndRest(docs[m], docs[i], rest);
  }

  lemma PairAndRest(a: Doc, b: Doc, rest: seq<Doc>)
    ensures multiset([a, b] + rest) == multiset{a} + multiset{b} + multiset(rest)
  {
    assert multiset([a, b]) == multiset{a} + multiset{b};
  }

  /** The pair keeps what it has when it meets the other inputs, none of which its winner loses to. */
  lemma PairStands(pair: Tree, others: Tree, w: Doc, d: Doc, deleted: bool, k: string)
    requires pair == Node(Leaf(w), Leaf(d)) && Beats(w, d)
    requires Mergeable(Leaves(Node(pair, others)), deleted)
    requires k in d.payload && k !in w.payload
    requires forall b | b in Leaves(others) :: b == w || Beats(w, b)
    ensures k in Eval(Node(pair, others)).payload && Eval(Node(pair, others)).payload[k] == d.payload[k]
  {
    var t := Node(pair, others);
    SplitFlag(t, deleted);
    SplitIndependence(t);
    PairOutcome(pair, w, d, deleted, k);
    NodeMerges(t, deleted);
    var b := EveryTreeAgrees(others, deleted);
    assert w in Leaves(pair) by { assert Leaves(pair)[0] == w; }
    SidesDiffer(t, w, b);
    LessIsTrichotomous(w.peerID, b.peerID);
    hide UnionOf, JoinAll, Clocks, Independent, SameFlag, DistinctRanks, Join, Resolve;
    assert Outranks(Eval(pair), Eval(others)) == Outranks(w, b);
  }

  lemma PairOutcome(t: Tree, w: Doc, d: Doc, deleted: bool, k: string)
    requires t == Node(Leaf(w), Leaf(d)) && Mergeable(Leaves(t), deleted) && Beats(w, d)
    requires k in d.payload && k !in w.payload
    ensures Eval(t).timestamp == w.timestamp && Eval(t).peerID == w.peerID
    ensures k in Eval(t).payload && Eval(t).payload[k] == d.payload[k]
  {
    NodeMerges(t, deleted);
    LessIsTrichotomous(w.peerID, d.peerID);
  }

  /** The merge is order-free on these inputs: all trees over them give one document. */
  ghost predicate OneOutcome(docs: seq<Doc>) {
    forall t, t' :: MergesOf(t, docs) && MergesOf(t', docs) ==> Eval(t) == Eval(t')
  }

  /** All trees give one document exactly when the inputs agree on the fields the winner lacks. */
  lemma OneOutcomeIff(docs: seq<Doc>, deleted: bool, w: Doc)
    requires Mergeable(docs, deleted) && Winner(docs, w)
    ensures OneOutcome(docs) <==> LosersAgree(docs, w)
  {
    if LosersAgree(docs, w) {
      forall t, t' | MergesOf(t, docs) && MergesOf(t', docs) ensures Eval(t) == Eval(t') {
        var a := OutcomeOfInputs(t, docs, deleted);
        var b := OutcomeOfInputs(t', docs, deleted);
        WinnerIsUnique(docs, w, a);
        WinnerIsUnique(docs, w, b);
        SamePayload(docs, w, Eval(t).payload, Eval(t').payload);
        assert Eval(t) == Eval(t).(payload := w.payload).(payload := Eval(t).payload);
        assert Eval(t') == Eval(t').(payload := w.payload).(payload := Eval(t').payload);
      }
    }
    if OneOutcome(docs) {
      forall i, j, k | 0 <= i < |docs| && 0 <= j < |docs| && k in docs[i].payload && k in docs[j].payload && k !in w.payload
        ensures docs[i].payload[k] == docs[j].payload[k]
      {
        var one := InputCanStand(docs, deleted, w, i, k);
        var two := InputCanStand(docs, deleted, w, j, k);
        assert Eval(one) == Eval(two);
      }
    }
  }

  lemma SamePayload(docs: seq<Doc>, w: Doc, p: Fields, q: Fields)
    requires UnionOf(docs, w, p) && UnionOf(docs, w, q) && LosersAgree(docs, w)
    ensures p == q
  {
    hide UnionOf, LosersAgree;
    forall k | k in p ensures k in q && p[k] == q[k] {
      FieldAgrees(docs, w, p, q, k);
    }
    forall k | k in q ensures k in p {
      FieldAgrees(docs, w, q, p, k);
    }
  }

  lemma FieldAgrees(docs: seq<Doc>, w: Doc, p: Fields, q: Fields, k: string)
    requires UnionOf(docs, w, p) && UnionOf(docs, w, q) && LosersAgree(docs, w) && k in p
    ensures k in q && p[k] == q[k]
  {
    var i :| 0 <= i < |docs| && k in docs[i].payload && docs[i].payload[k] == p[k];
    assert k in q;
    if k !in w.payload {
      var j :| 0 <= j < |docs| && k in docs[j].payload && docs[j].payload[k] == q[k];
      assert docs[i].payload[k] == docs[j].payload[k];
    }
  }
}
