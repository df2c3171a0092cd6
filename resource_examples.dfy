/** Worked examples of `statementListToResourceList` and `searchResources`
    on small stores of the shape the library's Model tests use, stated for
    any nodes of the right kinds. */
module ResourceListExamples {
  import opened Wrappers
  import opened Terms
  import opened OrderedMaps
  import opened Statements
  import opened ResourceLists
  import StoreSpec

  /** Indexing one more statement appends it to the list of its subject. */
  lemma IndexOfSnoc(stmts: seq<Statement>, st: Statement)
    requires AllWellFormed(stmts) && WellFormedStatement(st)
    ensures AllWellFormed(stmts + [st])
    ensures var m := IndexOf(stmts);
      var k := UriOf(st.subject);
      IndexOf(stmts + [st]) == Index(if k in m.lists then m.keys else m.keys + [k], m.lists[k := ListOf(m, k) + [st]])
  {
    assert (stmts + [st])[..|stmts|] == stmts;
  }

  /** Two statements about different subjects give two keys, in order. */
  lemma IndexOfTwo(x: Statement, y: Statement)
    requires WellFormedStatement(x) && WellFormedStatement(y) && UriOf(x.subject) != UriOf(y.subject)
    ensures IndexOf([x, y]) == Index([UriOf(x.subject), UriOf(y.subject)],
                                     map[UriOf(x.subject) := [x], UriOf(y.subject) := [y]])
  {
    var empty: seq<Statement> := [];
    IndexOfSnoc(empty, x);
    assert empty + [x] == [x];
    assert IndexOf(empty) == Index([], map[]);
    var m := IndexOf([x]);
    assert m == Index([UriOf(x.subject)], map[UriOf(x.subject) := [x]]) by {
      assert ListOf(Index([], map[]), UriOf(x.subject)) + [x] == [x];
      assert map[][UriOf(x.subject) := [x]] == map[UriOf(x.subject) := [x]];
    }
    IndexOfSnoc([x], y);
    assert ListOf(m, UriOf(y.subject)) + [y] == [y];
    assert [x] + [y] == [x, y];
  }

  /** Two distinct subjects linked by one predicate. */
  predicate TwoCycle(a: Node, b: Node, p: Node) {
    !a.LiteralNode? && !b.LiteralNode? && p.Resource? && UriOf(a) != UriOf(b)
  }

  /** The index of the two-statement cycle a -p-> b -p-> a. */
  function CycleIndex(a: Node, b: Node, p: Node): Index
    requires TwoCycle(a, b, p)
  {
    Index([UriOf(a), UriOf(b)], map[UriOf(a) := [Statement(a, p, b)], UriOf(b) := [Statement(b, p, a)]])
  }

  lemma CycleInner(a: Node, b: Node, p: Node)
    requires TwoCycle(a, b, p)
    ensures var idx := CycleIndex(a, b, p);
      ValidIndex(idx)
      && Build(idx, UriOf(b), Ctx({UriOf(a)}, map[], []))
         == (Some(Term(b, [Entry(p.uri, Plain(a))])), Ctx({UriOf(a)}, map[UriOf(b) := Term(b, [Entry(p.uri, Plain(a))])], []))
  {
    var idx := CycleIndex(a, b, p);
    var ka, kb := UriOf(a), UriOf(b);
    var st := Statement(b, p, a);
    var c0 := Ctx({ka}, map[], []);
    assert {ka} + {kb} == {ka, kb};
    CycleValid(a, b, p);
    BuildUnvisited(idx, kb, c0);
    CycleInnerProps(a, b, p);
  }

  /** The inner resource's one property is the plain outer one, whose key
      is already in progress. */
  lemma CycleInnerProps(a: Node, b: Node, p: Node)
    requires TwoCycle(a, b, p)
    ensures var idx := CycleIndex(a, b, p);
      var c1 := Ctx({UriOf(a), UriOf(b)}, map[], []);
      && ValidIndex(idx) && ValidCtx(idx, c1)
      && BuildProps(idx, UriOf(b), [Statement(b, p, a)], 0, Plain(b), c1) == (Term(b, [Entry(p.uri, Plain(a))]), c1)
  {
    var idx := CycleIndex(a, b, p);
    var ka, kb := UriOf(a), UriOf(b);
    var st := Statement(b, p, a);
    var c1 := Ctx({ka, kb}, map[], []);
    CycleValid(a, b, p);
    assert Build(idx, ka, c1) == (None, c1);
    assert Child(idx, kb, [st], 0, c1) == (Plain(a), c1);
    OneProperty(idx, kb, st, Plain(b), c1, Plain(a), c1);
  }

  lemma CycleOuterChild(a: Node, b: Node, p: Node)
    requires TwoCycle(a, b, p)
    ensures var idx := CycleIndex(a, b, p);
      ValidIndex(idx)
      && Child(idx, UriOf(a), [Statement(a, p, b)], 0, Ctx({UriOf(a)}, map[], []))
         == (Term(b, [Entry(p.uri, Plain(a))]), Ctx({UriOf(a)}, map[UriOf(b) := Term(b, [Entry(p.uri, Plain(a))])], []))
  {
    CycleInner(a, b, p);
  }

  lemma CycleOuterProps(a: Node, b: Node, p: Node)
    requires TwoCycle(a, b, p)
    ensures var idx := CycleIndex(a, b, p);
      var c2 := Ctx({UriOf(a)}, map[UriOf(b) := Term(b, [Entry(p.uri, Plain(a))])], []);
      ValidIndex(idx)
      && BuildProps(idx, UriOf(a), [Statement(a, p, b)], 0, Plain(a), Ctx({UriOf(a)}, map[], []))
         == (CycleTree(a, b, p), c2)
  {
    var idx := CycleIndex(a, b, p);
    CycleValid(a, b, p);
    CycleOuterChild(a, b, p);
    var tb := Term(b, [Entry(p.uri, Plain(a))]);
    OneProperty(idx, UriOf(a), Statement(a, p, b), Plain(a), Ctx({UriOf(a)}, map[], []),
      tb, Ctx({UriOf(a)}, map[UriOf(b) := tb], []));
  }

  /** The loop over a key with one statement, whose child is `v`, adds
      that one property. */
  lemma OneProperty(idx: Index, key: string, st: Statement, acc: Term, c: Ctx, v: Term, c1: Ctx)
    requires ValidIndex(idx) && ValidCtx(idx, c) && key in c.processing && key in idx.lists
    requires [st] == ListOf(idx, key) && !acc.node.LiteralNode? && acc.props == []
    requires Child(idx, key, [st], 0, c) == (v, c1)
    ensures BuildProps(idx, key, [st], 0, acc, c) == (Term(acc.node, [Entry(st.pred.uri, v)]), c1)
  {
    assert [st][..0] == [];
    LastProperty(idx, key, [st], 0, acc, c, v, c1);
    assert Put([], st.pred.uri, v) == [Entry(st.pred.uri, v)];
  }

  lemma CycleOuterBuild(a: Node, b: Node, p: Node)
    requires TwoCycle(a, b, p)
    ensures var idx := CycleIndex(a, b, p);
      ValidIndex(idx)
      && Build(idx, UriOf(a), Ctx({}, map[], []))
         == (Some(CycleTree(a, b, p)),
             Ctx({}, map[UriOf(b) := Term(b, [Entry(p.uri, Plain(a))]), UriOf(a) := CycleTree(a, b, p)], []))
  {
    var idx := CycleIndex(a, b, p);
    var none: set<string> := {};
    assert none + {UriOf(a)} == {UriOf(a)};
    assert ValidIndex(idx) by { CycleValid(a, b, p); }
    BuildUnvisited(idx, UriOf(a), Ctx({}, map[], []));
    CycleOuterProps(a, b, p);
  }

  lemma CycleValid(a: Node, b: Node, p: Node)
    requires TwoCycle(a, b, p)
    ensures ValidIndex(CycleIndex(a, b, p))
  {
  }

  /** A two-statement cycle gives a single root, the first subject, whose
      property holds the second subject, whose property holds the plain
      first subject again: the cycle is cut where it closes. */
  lemma CycleRoots(a: Node, b: Node, p: Node)
    requires TwoCycle(a, b, p)
    ensures ResourceList([Statement(a, p, b), Statement(b, p, a)]) == [Entry(UriOf(a), CycleTree(a, b, p))]
  {
    var idx := CycleIndex(a, b, p);
    var ka, kb := UriOf(a), UriOf(b);
    IndexOfTwo(Statement(a, p, b), Statement(b, p, a));
    CycleOuterBuild(a, b, p);
    var c3 := Ctx({}, map[kb := Term(b, [Entry(p.uri, Plain(a))]), ka := CycleTree(a, b, p)], []);
    var c4 := c3.(roots := [Entry(ka, CycleTree(a, b, p))]);
    assert BuildRoots(idx, 2, c4) == c4;
    assert BuildRoots(idx, 1, c4) == c4;
    assert BuildRoots(idx, 0, Ctx({}, map[], [])) == c4;
  }

  /** The tree the cycle is turned into: a, holding b, holding the plain a. */
  function CycleTree(a: Node, b: Node, p: Node): Term
    requires TwoCycle(a, b, p)
  {
    Term(a, [Entry(p.uri, Term(b, [Entry(p.uri, Plain(a))]))])
  }

  lemma CycleSearch(a: Node, b: Node, p: Node)
    requires TwoCycle(a, b, p)
    ensures var stmts := [Statement(a, p, b), Statement(b, p, a)];
      && AllWellFormed(stmts)
      && StoreSpec.SearchSpec(stmts, Obj(Plain(a)), Null, Null) == Ok(Some([stmts[0]]))
      && Collect(stmts, [stmts[0]], 0, {}, [stmts[0]]) == stmts
  {
    var st1, st2 := Statement(a, p, b), Statement(b, p, a);
    var stmts := [st1, st2];
    var ka, kb := UriOf(a), UriOf(b);
    NodeEqualsIff(a, a); NodeEqualsIff(a, b); NodeEqualsIff(b, a); NodeEqualsIff(b, b);
    assert StoreSpec.Matching(stmts, Obj(Plain(a)), Null, Null) == [st1];
    assert StoreSpec.Matching(stmts, Obj(Plain(b)), Null, Null) == [st2];
    assert SearchFrom(stmts, a, {ka}, {kb}) == (None, {ka});
    assert SearchFromAll(stmts, [st2], 1, {ka}, {kb}, [st2]) == ([st2], {ka});
    assert SearchFromAll(stmts, [st2], 0, {ka}, {kb}, [st2]) == ([st2], {ka});
    var none: set<string> := {};
    assert none + {kb} == {kb};
    assert {ka} + {kb} == {ka, kb};
    assert SearchFrom(stmts, b, {ka}, {}) == (Some([st2]), {ka, kb});
    assert none + {ka} == {ka};
    assert Collect(stmts, [st1], 1, {ka, kb}, [st1, st2]) == [st1, st2];
  }

  /** `searchResources(test1)` on the store test1 -pred-> test2 -pred-> test1
      returns the single resource test1; following its property twice leads
      back to test1. */
  lemma CycleExample(a: Node, b: Node, p: Node)
    requires TwoCycle(a, b, p)
    ensures var stmts := [Statement(a, p, b), Statement(b, p, a)];
      AllWellFormed(stmts) && SearchResources(stmts, Obj(Plain(a)), Null, Null) == Ok(Single(CycleTree(a, b, p)))
  {
    CycleSearch(a, b, p);
    CycleRoots(a, b, p);
  }

  // ---------------------------------------------------------------------
  // A subject lost to an overwritten property

  /** A subject f with one statement (object the literal l), and a subject
      x whose predicate p points first at f and then, overwriting it, at a
      node g that is the subject of no statement. */
  predicate Overwrite(f: Node, x: Node, g: Node, p: Node, l: Node) {
    && !f.LiteralNode? && !x.LiteralNode? && !g.LiteralNode? && p.Resource? && l.LiteralNode?
    && UriOf(f) != UriOf(x) && UriOf(g) != UriOf(f) && UriOf(g) != UriOf(x)
  }

  function OverwriteStore(f: Node, x: Node, g: Node, p: Node, l: Node): seq<Statement> {
    [Statement(f, p, l), Statement(x, p, f), Statement(x, p, g)]
  }

  function OverwriteIndex(f: Node, x: Node, g: Node, p: Node, l: Node): Index
    requires Overwrite(f, x, g, p, l)
  {
    Index([UriOf(f), UriOf(x)],
          map[UriOf(f) := [Statement(f, p, l)], UriOf(x) := [Statement(x, p, f), Statement(x, p, g)]])
  }

  /** The resource built for f, and the one built for x. */
  function FTree(f: Node, p: Node, l: Node): Term
    requires p.Resource?
  {
    Term(f, [Entry(p.uri, Plain(l))])
  }

  function XTree(x: Node, g: Node, p: Node): Term
    requires p.Resource?
  {
    Term(x, [Entry(p.uri, Plain(g))])
  }

  lemma OverwriteIndexOf(f: Node, x: Node, g: Node, p: Node, l: Node)
    requires Overwrite(f, x, g, p, l)
    ensures AllWellFormed(OverwriteStore(f, x, g, p, l))
    ensures IndexOf(OverwriteStore(f, x, g, p, l)) == OverwriteIndex(f, x, g, p, l)
    ensures ValidIndex(OverwriteIndex(f, x, g, p, l))
  {
    var s1, s2, s3 := Statement(f, p, l), Statement(x, p, f), Statement(x, p, g);
    IndexOfTwo(s1, s2);
    IndexOfSnoc([s1, s2], s3);
    assert [s1, s2] + [s3] == OverwriteStore(f, x, g, p, l);
    var m := IndexOf([s1, s2]);
    assert ListOf(m, UriOf(x)) + [s3] == [s2, s3];
    IndexOfValid(OverwriteStore(f, x, g, p, l));
  }

  /** f, the first key, is built on its own and becomes a root. */
  lemma OverwriteFirst(f: Node, x: Node, g: Node, p: Node, l: Node)
    requires Overwrite(f, x, g, p, l)
    ensures var idx := OverwriteIndex(f, x, g, p, l);
      ValidIndex(idx)
      && Build(idx, UriOf(f), Ctx({}, map[], []))
         == (Some(FTree(f, p, l)), Ctx({}, map[UriOf(f) := FTree(f, p, l)], []))
  {
    var idx := OverwriteIndex(f, x, g, p, l);
    var kf := UriOf(f);
    var none: set<string> := {};
    assert none + {kf} == {kf};
    OverwriteIndexOf(f, x, g, p, l);
    BuildUnvisited(idx, kf, Ctx({}, map[], []));
    var c1 := Ctx({kf}, map[], []);
    assert Child(idx, kf, [Statement(f, p, l)], 0, c1) == (Plain(l), c1);
    OneProperty(idx, kf, Statement(f, p, l), Plain(f), c1, Plain(l), c1);
  }

  /** The first statement about x fetches the finished f and drops it from
      the roots. */
  lemma OverwriteChildF(f: Node, x: Node, g: Node, p: Node, l: Node)
    requires Overwrite(f, x, g, p, l)
    ensures var idx := OverwriteIndex(f, x, g, p, l);
      var c := Ctx({UriOf(x)}, map[UriOf(f) := FTree(f, p, l)], [Entry(UriOf(f), FTree(f, p, l))]);
      && ValidIndex(idx) && ValidCtx(idx, c)
      && Child(idx, UriOf(x), [Statement(x, p, f), Statement(x, p, g)], 0, c) == (FTree(f, p, l), c.(roots := []))
  {
    var idx := OverwriteIndex(f, x, g, p, l);
    var kf, kx := UriOf(f), UriOf(x);
    var tf := FTree(f, p, l);
    var c := Ctx({kx}, map[kf := tf], [Entry(kf, tf)]);
    OverwriteIndexOf(f, x, g, p, l);
    OverwriteFirst(f, x, g, p, l);
    assert ValidCtx(idx, c);
    assert Unset([Entry(kf, tf)], kf) == [];
    assert Build(idx, kf, c) == (Some(tf), c.(roots := []));
  }

  /** The second statement about x gives the plain g, no subject. */
  lemma OverwriteChildG(f: Node, x: Node, g: Node, p: Node, l: Node, c: Ctx)
    requires Overwrite(f, x, g, p, l)
    requires ValidIndex(OverwriteIndex(f, x, g, p, l)) && ValidCtx(OverwriteIndex(f, x, g, p, l), c)
    requires UriOf(x) in c.processing
    ensures Child(OverwriteIndex(f, x, g, p, l), UriOf(x), [Statement(x, p, f), Statement(x, p, g)], 1, c) == (Plain(g), c)
  {
  }

  /** The loop over a key with two statements, whose children are `v1`
      and then `v2`, adds the first property and then the second. */
  lemma TwoProperties(idx: Index, key: string, l: seq<Statement>, acc: Term, c: Ctx, v1: Term, c1: Ctx, v2: Term, c2: Ctx)
    requires ValidIndex(idx) && ValidCtx(idx, c) && key in c.processing && key in idx.lists
    requires l == ListOf(idx, key) && |l| == 2
    requires !acc.node.LiteralNode? && DistinctKeys(acc.props) && Shape(acc, l[..0]) && Nested(idx, l[..0], acc)
    requires Child(idx, key, l, 0, c) == (v1, c1)
    requires ValidCtx(idx, c1) && key in c1.processing && Child(idx, key, l, 1, c1) == (v2, c2)
    ensures BuildProps(idx, key, l, 0, acc, c) == (Term(acc.node, Put(Put(acc.props, l[0].pred.uri, v1), l[1].pred.uri, v2)), c2)
  {
    var i: nat := 0;
    PropertyTurn(idx, key, l, i, acc, c, v1, c1);
    LastProperty(idx, key, l, i + 1, Term(acc.node, Put(acc.props, l[i].pred.uri, v1)), c1, v2, c2);
  }

  /** A turn of the loop over a key adds the statement's child `v` and
      goes on from the context `c1` the child left. */
  lemma PropertyTurn(idx: Index, key: string, l: seq<Statement>, i: nat, acc: Term, c: Ctx, v: Term, c1: Ctx)
    requires ValidIndex(idx) && ValidCtx(idx, c) && key in c.processing && key in idx.lists
    requires l == ListOf(idx, key) && i < |l|
    requires !acc.node.LiteralNode? && DistinctKeys(acc.props) && Shape(acc, l[..i]) && Nested(idx, l[..i], acc)
    requires Child(idx, key, l, i, c) == (v, c1)
    ensures ValidCtx(idx, c1) && key in c1.processing
    ensures var t := Term(acc.node, Put(acc.props, l[i].pred.uri, v));
      && DistinctKeys(t.props) && Shape(t, l[..i + 1]) && Nested(idx, l[..i + 1], t)
      && BuildProps(idx, key, l, i, acc, c) == BuildProps(idx, key, l, i + 1, t, c1)
  {
    BuildPropsStep(idx, key, l, i, acc, c);
  }

  /** The last turn of the loop adds the last statement's child `v`. */
  lemma LastProperty(idx: Index, key: string, l: seq<Statement>, i: nat, acc: Term, c: Ctx, v: Term, c1: Ctx)
    requires ValidIndex(idx) && ValidCtx(idx, c) && key in c.processing && key in idx.lists
    requires l == ListOf(idx, key) && i + 1 == |l|
    requires !acc.node.LiteralNode? && DistinctKeys(acc.props) && Shape(acc, l[..i]) && Nested(idx, l[..i], acc)
    requires Child(idx, key, l, i, c) == (v, c1)
    ensures BuildProps(idx, key, l, i, acc, c) == (Term(acc.node, Put(acc.props, l[i].pred.uri, v)), c1)
  {
    BuildPropsStep(idx, key, l, i, acc, c);
    BuildPropsDone(idx, key, l, i + 1, Term(acc.node, Put(acc.props, l[i].pred.uri, v)), c1);
  }

  /** Building x: the first statement fetches the finished f (dropping it
      from the roots); the second overwrites that property with the plain g. */
  lemma OverwriteProps(f: Node, x: Node, g: Node, p: Node, l: Node)
    requires Overwrite(f, x, g, p, l)
    ensures var idx := OverwriteIndex(f, x, g, p, l);
      var c := Ctx({UriOf(x)}, map[UriOf(f) := FTree(f, p, l)], [Entry(UriOf(f), FTree(f, p, l))]);
      && ValidIndex(idx) && ValidCtx(idx, c)
      && BuildProps(idx, UriOf(x), [Statement(x, p, f), Statement(x, p, g)], 0, Plain(x), c)
         == (XTree(x, g, p), c.(roots := []))
  {
    var idx := OverwriteIndex(f, x, g, p, l);
    var tf := FTree(f, p, l);
    var c := Ctx({UriOf(x)}, map[UriOf(f) := tf], [Entry(UriOf(f), tf)]);
    var ls := [Statement(x, p, f), Statement(x, p, g)];
    var c1 := c.(roots := []);
    OverwriteChildF(f, x, g, p, l);
    OverwriteChildG(f, x, g, p, l, c1);
    assert ls[..0] == [];
    TwoProperties(idx, UriOf(x), ls, Plain(x), c, tf, c1, Plain(g), c1);
    assert Put([], p.uri, tf) == [Entry(p.uri, tf)];
    assert Put([Entry(p.uri, tf)], p.uri, Plain(g)) == [Entry(p.uri, Plain(g))];
  }

  /** x, the second key, is built with f as a finished child. */
  lemma OverwriteSecond(f: Node, x: Node, g: Node, p: Node, l: Node)
    requires Overwrite(f, x, g, p, l)
    ensures var idx := OverwriteIndex(f, x, g, p, l);
      var c1 := Ctx({}, map[UriOf(f) := FTree(f, p, l)], [Entry(UriOf(f), FTree(f, p, l))]);
      && ValidIndex(idx) && ValidCtx(idx, c1)
      && Build(idx, UriOf(x), c1)
         == (Some(XTree(x, g, p)), Ctx({}, map[UriOf(f) := FTree(f, p, l), UriOf(x) := XTree(x, g, p)], []))
  {
    var idx := OverwriteIndex(f, x, g, p, l);
    var kx := UriOf(x);
    var c1 := Ctx({}, map[UriOf(f) := FTree(f, p, l)], [Entry(UriOf(f), FTree(f, p, l))]);
    OverwriteProps(f, x, g, p, l);
    assert ValidCtx(idx, c1);
    var none: set<string> := {};
    assert none + {kx} == {kx};
    BuildUnvisited(idx, kx, c1);
  }

  /** f is built first as a root; building x fetches it as a child and
      drops it from the roots, and the overwrite then drops it from x. */
  lemma OverwriteRoots(f: Node, x: Node, g: Node, p: Node, l: Node)
    requires Overwrite(f, x, g, p, l)
    ensures AllWellFormed(OverwriteStore(f, x, g, p, l))
    ensures ResourceList(OverwriteStore(f, x, g, p, l)) == [Entry(UriOf(x), XTree(x, g, p))]
  {
    var idx := OverwriteIndex(f, x, g, p, l);
    OverwriteIndexOf(f, x, g, p, l);
    OverwriteBuildRoots(f, x, g, p, l);
  }

  lemma OverwriteBuildRoots(f: Node, x: Node, g: Node, p: Node, l: Node)
    requires Overwrite(f, x, g, p, l)
    ensures var idx := OverwriteIndex(f, x, g, p, l);
      ValidIndex(idx) && BuildRoots(idx, 0, Ctx({}, map[], [])).roots == [Entry(UriOf(x), XTree(x, g, p))]
  {
    var idx := OverwriteIndex(f, x, g, p, l);
    var kf, kx := UriOf(f), UriOf(x);
    var tf, tx := FTree(f, p, l), XTree(x, g, p);
    OverwriteFirst(f, x, g, p, l);
    var c1 := Ctx({}, map[kf := tf], [Entry(kf, tf)]);
    assert Put([], kf, tf) == [Entry(kf, tf)];
    assert BuildRoots(idx, 0, Ctx({}, map[], [])) == BuildRoots(idx, 1, c1);
    OverwriteSecond(f, x, g, p, l);
    var c3 := Ctx({}, map[kf := tf, kx := tx], [Entry(kx, tx)]);
    assert Put([], kx, tx) == [Entry(kx, tx)];
    assert BuildRoots(idx, 1, c1) == BuildRoots(idx, 2, c3);
  }

  /** The wildcard search collects exactly the store: the recursive search
      from f's URI stops because the outer loop marked it processed, and g
      has no statements. */
  lemma OverwriteCollect(f: Node, x: Node, g: Node, p: Node, l: Node)
    requires Overwrite(f, x, g, p, l)
    ensures var stmts := OverwriteStore(f, x, g, p, l);
      && AllWellFormed(stmts)
      && StoreSpec.SearchSpec(stmts, Null, Null, Null) == Ok(Some(stmts))
      && Collected(stmts, Null, Null, Null) == stmts
  {
    var stmts := OverwriteStore(f, x, g, p, l);
    var kf, kx := UriOf(f), UriOf(x);
    OverwriteIndexOf(f, x, g, p, l);
    StoreSpec.WildcardMatchesAll(stmts);
    OverwriteCollectTail(f, x, g, p, l);
    assert SearchFrom(stmts, f, {kf, kx}, {}) == (None, {kf, kx});
    assert {kf} + {kx} == {kf, kx};
    assert Collect(stmts, stmts, 1, {kf}, stmts) == stmts;
    var none: set<string> := {};
    assert none + {kf} == {kf};
    assert Collect(stmts, stmts, 0, {}, stmts) == stmts;
  }

  /** The last statement's object g has no statements of its own. */
  lemma OverwriteCollectTail(f: Node, x: Node, g: Node, p: Node, l: Node)
    requires Overwrite(f, x, g, p, l)
    ensures var stmts := OverwriteStore(f, x, g, p, l);
      AllWellFormed(stmts) && Collect(stmts, stmts, 2, {UriOf(f), UriOf(x)}, stmts) == stmts
  {
    var stmts := OverwriteStore(f, x, g, p, l);
    var kf, kx, kg := UriOf(f), UriOf(x), UriOf(g);
    OverwriteIndexOf(f, x, g, p, l);
    NoMatchG(f, x, g, p, l);
    assert {kf, kx} + {kg} == {kf, kx, kg};
    assert SearchFrom(stmts, g, {kf, kx}, {}) == (Some([]), {kf, kx, kg});
    assert Collect(stmts, stmts, 3, {kf, kx, kg}, stmts) == stmts;
    assert {kf, kx} + {kx} == {kf, kx};
  }

  /** g is the subject of no statement. */
  lemma NoMatchG(f: Node, x: Node, g: Node, p: Node, l: Node)
    requires Overwrite(f, x, g, p, l)
    ensures StoreSpec.Matching(OverwriteStore(f, x, g, p, l), Obj(Plain(g)), Null, Null) == []
  {
    var stmts := OverwriteStore(f, x, g, p, l);
    NodeEqualsIff(g, f); NodeEqualsIff(g, x);
    assert !StoreSpec.Matches(stmts[0], Obj(Plain(g)), Null, Null);
    assert !StoreSpec.Matches(stmts[1], Obj(Plain(g)), Null, Null);
    assert !StoreSpec.Matches(stmts[2], Obj(Plain(g)), Null, Null);
    assert StoreSpec.Matching(stmts[3..], Obj(Plain(g)), Null, Null) == [];
    assert stmts[2..][1..] == stmts[3..];
    assert StoreSpec.Matching(stmts[2..], Obj(Plain(g)), Null, Null) == [];
    assert stmts[1..][1..] == stmts[2..];
    assert StoreSpec.Matching(stmts[1..], Obj(Plain(g)), Null, Null) == [];
  }

  /** `searchResources()` with three wildcards finds f's statement, yet its
      result holds no resource for f: the one root is x, whose property p
      holds the plain g, because `addProperty` overwrote the child f with
      it. A found subject can thus be neither a root nor nested in one. */
  lemma OverwrittenSubjectLost(f: Node, x: Node, g: Node, p: Node, l: Node)
    requires Overwrite(f, x, g, p, l)
    ensures var stmts := OverwriteStore(f, x, g, p, l);
      && AllWellFormed(stmts)
      && StoreSpec.SearchSpec(stmts, Null, Null, Null) == Ok(Some(stmts))
      && UriOf(f) in Subjects(stmts)
      && SearchResources(stmts, Null, Null, Null) == Ok(Single(XTree(x, g, p)))
      && UriOf(x) != UriOf(f)
      && XTree(x, g, p).props == [Entry(p.uri, Plain(g))] && UriOf(g) != UriOf(f)
  {
    var stmts := OverwriteStore(f, x, g, p, l);
    OverwriteCollect(f, x, g, p, l);
    OverwriteRoots(f, x, g, p, l);
    assert stmts[0] in stmts;
  }
}
