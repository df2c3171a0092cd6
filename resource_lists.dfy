/** `model/Model.php`, the conversions between statement lists and lists of
    decorated resources: `statementListToResourceList` (with its recursive
    helper), `resourceListToStatementList` and `searchResources` (with
    `searchResourcesRecursive`). The PHP code keeps its bookkeeping in
    object fields that it resets around each call; here that state is the
    explicit `Ctx` value threaded through the recursion. */
module ResourceLists {
  import opened Wrappers
  import opened Terms
  import opened OrderedMaps
  import opened Check
  import opened Statements
  import Resources
  import StoreSpec

  predicate AllWellFormed(stmts: seq<Statement>) {
    forall st :: st in stmts ==> WellFormedStatement(st)
  }

  // ---------------------------------------------------------------------
  // Indexing by subject URI

  /** `$indexedStatements`: subject URI to the statements about it; `keys`
      holds the subject URIs in first-seen order, the order a PHP array
      iterates them. */
  datatype Index = Index(keys: seq<string>, lists: map<string, seq<Statement>>)

  /** `$indexedStatements[$k]`, or the empty list when it is not set. */
  function ListOf(idx: Index, k: string): seq<Statement> {
    if k in idx.lists then idx.lists[k] else []
  }

  /** The statements of `stmts` whose subject has URI `k`, in order. */
  function WithSubject(stmts: seq<Statement>, k: string): (r: seq<Statement>)
    requires AllWellFormed(stmts)
    ensures forall x :: x in r <==> x in stmts && UriOf(x.subject) == k
  {
    if stmts == [] then []
    else
      var init := stmts[..|stmts| - 1];
      var last := stmts[|stmts| - 1];
      assert forall x :: x in stmts <==> x in init || x == last;
      assert last in stmts;
      WithSubject(init, k) + (if UriOf(last.subject) == k then [last] else [])
  }

  predicate NoDuplicates(ks: seq<string>) {
    forall i, j :: 0 <= i < j < |ks| ==> ks[i] != ks[j]
  }

  /** The indexing loop of `statementListToResourceList`:
      `$indexedStatements[$subjectUri][] = $statement` for each statement. */
  function IndexOf(stmts: seq<Statement>): (idx: Index)
    requires AllWellFormed(stmts)
  {
    if stmts == [] then Index([], map[])
    else
      var init := stmts[..|stmts| - 1];
      var last := stmts[|stmts| - 1];
      assert forall x :: x in stmts <==> x in init || x == last;
      assert last in stmts;
      var m := IndexOf(init);
      var key := UriOf(last.subject);
      Index(if key in m.lists then m.keys else m.keys + [key], m.lists[key := ListOf(m, key) + [last]])
  }

  /** The index lists each subject URI once, in first-seen order, with the
      statements about it in their original order. */
  lemma {:induction false} IndexOfSpec(stmts: seq<Statement>)
    requires AllWellFormed(stmts)
    ensures NoDuplicates(IndexOf(stmts).keys)
    ensures forall k :: k in IndexOf(stmts).keys <==> k in IndexOf(stmts).lists
    ensures forall k :: ListOf(IndexOf(stmts), k) == WithSubject(stmts, k)
    ensures forall k :: k in IndexOf(stmts).lists <==> WithSubject(stmts, k) != []
  {
    if stmts != [] {
      var init := stmts[..|stmts| - 1];
      var last := stmts[|stmts| - 1];
      assert forall x :: x in stmts <==> x in init || x == last;
      IndexOfSpec(init);
    }
  }

  /** What the recursion needs of an index: the keys are those of the map,
      and every key has a non-empty list of well-formed statements about it. */
  ghost predicate ValidIndex(idx: Index) {
    && (forall k :: k in idx.keys <==> k in idx.lists)
    && forall k :: k in idx.lists ==>
         && idx.lists[k] != []
         && forall st :: st in idx.lists[k] ==> WellFormedStatement(st) && UriOf(st.subject) == k
  }

  lemma IndexOfValid(stmts: seq<Statement>)
    requires AllWellFormed(stmts)
    ensures ValidIndex(IndexOf(stmts))
  {
    var idx := IndexOf(stmts);
    IndexOfSpec(stmts);
    forall k | k in idx.lists ensures idx.lists[k] != [] {
      assert ListOf(idx, k) == WithSubject(stmts, k);
    }
  }

  // ---------------------------------------------------------------------
  // The shape of a built resource

  /** The object of the last statement in `l` whose predicate has URI `pk`:
      with last-write-wins property maps, the object a resource keeps. */
  function LastObject(l: seq<Statement>, pk: string): Option<Node> {
    if l == [] then None
    else if l[|l| - 1].pred == Resource(pk) then Some(l[|l| - 1].obj)
    else LastObject(l[..|l| - 1], pk)
  }

  lemma {:induction false} LastObjectIn(l: seq<Statement>, pk: string)
    requires LastObject(l, pk).Some?
    ensures exists st :: st in l && st.pred == Resource(pk) && st.obj == LastObject(l, pk).value
  {
    if l[|l| - 1].pred != Resource(pk) {
      LastObjectIn(l[..|l| - 1], pk);
      var st :| st in l[..|l| - 1] && st.pred == Resource(pk) && st.obj == LastObject(l, pk).value;
      assert st in l;
    }
  }

  /** The properties of `t` are exactly the predicates used in `l`, each
      holding (a term equal to) the object of the last such statement. */
  ghost predicate Shape(t: Term, l: seq<Statement>) {
    && (forall pk :: Lookup(t.props, pk).Some? <==> LastObject(l, pk).Some?)
    && (forall pk :: Lookup(t.props, pk).Some? ==>
          NodeEquals(Lookup(t.props, pk).value.node, LastObject(l, pk).value))
  }

  /** The resource built from the statements `l` about one subject: the
      subject of the last of them, with the properties they give it. */
  ghost predicate RootOf(l: seq<Statement>, t: Term) {
    && l != []
    && t.node == l[|l| - 1].subject
    && DistinctKeys(t.props)
    && Shape(t, l)
  }

  /** The resource built for key `k`: the root built from its statements,
      whose property values are nested as `Nested` says. */
  ghost predicate Shaped(idx: Index, k: string, t: Term)
    decreases t, 1
  {
    && k in idx.lists
    && RootOf(idx.lists[k], t)
    && !t.node.LiteralNode?
    && UriOf(t.node) == k
    && Nested(idx, idx.lists[k], t)
  }

  /** Each property value of `t` is, for the object the statements `l`
      give that predicate last, the value `NestedChild` allows. */
  ghost predicate Nested(idx: Index, l: seq<Statement>, t: Term)
    decreases t, 0
  {
    forall j :: 0 <= j < |t.props| && LastObject(l, t.props[j].key).Some? ==>
      NestedChild(idx, LastObject(l, t.props[j].key).value, t.props[j].value)
  }

  /** The value a property gets for the object `obj`: a literal or a node
      that is no indexed subject stays the plain object; an indexed subject
      becomes the resource built for its key, or stays the plain object
      when its key was met while still in progress (a cycle). */
  ghost predicate NestedChild(idx: Index, obj: Node, v: Term)
    decreases v, 2
  {
    if !obj.LiteralNode? && UriOf(obj) in idx.lists then v == Plain(obj) || Shaped(idx, UriOf(obj), v)
    else v == Plain(obj)
  }

  /** `addProperty` of the next statement's value keeps every property
      value nested. */
  lemma NestedStep(idx: Index, acc: Term, l: seq<Statement>, i: nat, child: Term)
    requires i < |l| && l[i].pred.Resource?
    requires DistinctKeys(acc.props) && Nested(idx, l[..i], acc)
    requires NestedChild(idx, l[i].obj, child)
    ensures Nested(idx, l[..i + 1], Term(acc.node, Put(acc.props, l[i].pred.uri, child)))
  {
    var key := l[i].pred.uri;
    var m := Put(acc.props, key, child);
    PutKeepsDistinct(acc.props, key, child);
    forall j | 0 <= j < |m| && LastObject(l[..i + 1], m[j].key).Some?
      ensures NestedChild(idx, LastObject(l[..i + 1], m[j].key).value, m[j].value)
    {
      var pk := m[j].key;
      LastObjectSnoc(l, i, pk);
      LookupDistinct(m, j);
      LookupPut(acc.props, key, child, pk);
      if pk != key {
        var j' :| 0 <= j' < |acc.props| && acc.props[j'] == Entry(pk, m[j].value);
        assert LastObject(l[..i], acc.props[j'].key).Some?;
      }
    }
  }

  lemma LastObjectSnoc(l: seq<Statement>, i: nat, pk: string)
    requires i < |l|
    ensures LastObject(l[..i + 1], pk) == if l[i].pred == Resource(pk) then Some(l[i].obj) else LastObject(l[..i], pk)
  {
    var p := l[..i + 1];
    assert p[..|p| - 1] == l[..i];
  }

  /** `addProperty` of the next statement extends the shape by one statement. */
  lemma ShapeStep(acc: Term, l: seq<Statement>, i: nat, child: Term)
    requires i < |l| && l[i].pred.Resource?
    requires DistinctKeys(acc.props) && Shape(acc, l[..i])
    requires NodeEquals(child.node, l[i].obj)
    ensures DistinctKeys(Put(acc.props, l[i].pred.uri, child))
    ensures Shape(Term(acc.node, Put(acc.props, l[i].pred.uri, child)), l[..i + 1])
  {
    var key := l[i].pred.uri;
    var m := Put(acc.props, key, child);
    PutKeepsDistinct(acc.props, key, child);
    forall pk
      ensures Lookup(m, pk).Some? <==> LastObject(l[..i + 1], pk).Some?
      ensures Lookup(m, pk).Some? ==> NodeEquals(Lookup(m, pk).value.node, LastObject(l[..i + 1], pk).value)
    {
      LookupPut(acc.props, key, child, pk);
      LastObjectSnoc(l, i, pk);
    }
  }

  // ---------------------------------------------------------------------
  // statementListToResourceList

  /** `$processingResources` (keys under construction), `$processedResources`
      (finished resources by key) and `$returnResources` (the roots). */
  datatype Ctx = Ctx(processing: set<string>, processed: map<string, Term>, roots: seq<Entry<string, Term>>)

  ghost predicate ValidCtx(idx: Index, c: Ctx) {
    && (forall k :: k in c.processed ==> k in idx.lists && k !in c.processing && Shaped(idx, k, c.processed[k]))
    && DistinctKeys(c.roots)
    && (forall e :: e in c.roots ==> e.key in c.processed && e.value == c.processed[e.key])
  }

  /** Finished resources stay finished and are never rebuilt. */
  ghost predicate Grows(a: map<string, Term>, b: map<string, Term>) {
    forall k :: k in a ==> k in b && b[k] == a[k]
  }

  /** The keys that still have to be visited: the recursion's measure. */
  function Pending(idx: Index, c: Ctx): set<string> {
    idx.lists.Keys - c.processing - c.processed.Keys
  }

  lemma {:induction false} SubsetCard(a: set<string>, b: set<string>)
    requires a <= b
    ensures |a| <= |b|
  {
    if a != {} {
      var x :| x in a;
      SubsetCard(a - {x}, b - {x});
    }
  }

  /** `statementListToResourceListRecursive($key, ...)`: a finished key is
      returned again and dropped from the roots (it is somebody's child); a key
      still in progress closes a cycle and yields null; any other key is built
      from the subject of its last statement, each object that is itself an
      indexed subject being built first. */
  function Build(idx: Index, key: string, c: Ctx): (r: (Option<Term>, Ctx))
    requires ValidIndex(idx) && ValidCtx(idx, c) && key in idx.lists
    ensures ValidCtx(idx, r.1) && r.1.processing == c.processing && Grows(c.processed, r.1.processed)
    ensures Pending(idx, r.1) <= Pending(idx, c)
    ensures key in c.processed ==> r == (Some(c.processed[key]), c.(roots := Unset(c.roots, key)))
    ensures key !in c.processed && key in c.processing ==> r == (None, c)
    ensures key !in c.processing ==> key in r.1.processed && r.0 == Some(r.1.processed[key])
    ensures r.0.Some? ==> Shaped(idx, key, r.0.value)
    decreases |Pending(idx, c)|, 0
  {
    if key in c.processed then
      UnsetKeepsDistinct(c.roots, key);
      (Some(c.processed[key]), c.(roots := Unset(c.roots, key)))
    else if key in c.processing then (None, c)
    else
      var l := ListOf(idx, key);
      var c1 := c.(processing := c.processing + {key});
      StartKey(idx, key, c);
      var b := BuildProps(idx, key, l, 0, Plain(l[|l| - 1].subject), c1);
      var c3 := b.1.(processing := c.processing, processed := b.1.processed[key := b.0]);
      FinishKey(idx, key, c, b.1, b.0);
      (Some(b.0), c3)
  }

  /** Marking a key as in progress keeps the context valid and removes the
      key from the pending ones; the construction starts from the plain
      subject of the key's last statement. */
  lemma StartKey(idx: Index, key: string, c: Ctx)
    requires ValidIndex(idx) && ValidCtx(idx, c) && key in idx.lists && key !in c.processing && key !in c.processed
    ensures var c1 := c.(processing := c.processing + {key});
      && ValidCtx(idx, c1) && Pending(idx, c1) == Pending(idx, c) - {key}
      && |Pending(idx, c1)| < |Pending(idx, c)|
    ensures var l := ListOf(idx, key);
      && l != [] && !l[|l| - 1].subject.LiteralNode? && Shape(Plain(l[|l| - 1].subject), l[..0])
  {
    StartCtx(idx, key, c);
    assert key in Pending(idx, c);
    StartList(idx, key);
  }

  /** An unvisited resource is built from its own statements, with the key
      marked as in progress, and then recorded as finished. */
  lemma BuildUnvisited(idx: Index, key: string, c: Ctx)
    requires ValidIndex(idx) && ValidCtx(idx, c) && key in idx.lists && key !in c.processing && key !in c.processed
    ensures var c1 := c.(processing := c.processing + {key});
      var l := ListOf(idx, key);
      && ValidCtx(idx, c1) && l != [] && !l[|l| - 1].subject.LiteralNode? && Shape(Plain(l[|l| - 1].subject), l[..0])
      && var b := BuildProps(idx, key, l, 0, Plain(l[|l| - 1].subject), c1);
         Build(idx, key, c) == (Some(b.0), b.1.(processing := c.processing, processed := b.1.processed[key := b.0]))
  {
    StartKey(idx, key, c);
  }

  lemma StartCtx(idx: Index, key: string, c: Ctx)
    requires ValidCtx(idx, c) && key !in c.processed
    ensures var c1 := c.(processing := c.processing + {key});
      ValidCtx(idx, c1) && Pending(idx, c1) == Pending(idx, c) - {key}
  {
  }

  lemma StartList(idx: Index, key: string)
    requires ValidIndex(idx) && key in idx.lists
    ensures var l := ListOf(idx, key);
      && l != [] && !l[|l| - 1].subject.LiteralNode? && Shape(Plain(l[|l| - 1].subject), l[..0])
  {
    var l := ListOf(idx, key);
    assert l[|l| - 1] in l;
    assert l[..0] == [];
  }

  /** Recording a finished resource keeps the context valid. */
  lemma FinishKey(idx: Index, key: string, c: Ctx, c2: Ctx, t: Term)
    requires ValidIndex(idx) && key in idx.lists && key !in c.processing && key !in c.processed
    requires ValidCtx(idx, c2) && c2.processing == c.processing + {key} && Grows(c.processed, c2.processed)
    requires Pending(idx, c2) <= Pending(idx, c) - {key}
    requires t.node == ListOf(idx, key)[|ListOf(idx, key)| - 1].subject
    requires DistinctKeys(t.props) && Shape(t, ListOf(idx, key)) && Nested(idx, ListOf(idx, key), t)
    ensures var c3 := c2.(processing := c.processing, processed := c2.processed[key := t]);
      && ValidCtx(idx, c3) && Grows(c.processed, c3.processed) && Pending(idx, c3) <= Pending(idx, c)
  {
    var l := ListOf(idx, key);
    assert l[|l| - 1] in l;
  }

  /** One step of `BuildProps`: the `i`-th property is built and added. */
  lemma BuildPropsStep(idx: Index, key: string, l: seq<Statement>, i: nat, acc: Term, c: Ctx)
    requires ValidIndex(idx) && ValidCtx(idx, c) && key in c.processing && key in idx.lists
    requires l == ListOf(idx, key) && i < |l|
    requires !acc.node.LiteralNode? && DistinctKeys(acc.props) && Shape(acc, l[..i]) && Nested(idx, l[..i], acc)
    ensures var b := Child(idx, key, l, i, c);
      var t := Term(acc.node, Put(acc.props, l[i].pred.uri, b.0));
      && Resources.AddProperty(acc, Obj(Plain(l[i].pred)), Obj(b.0)) == Ok(t)
      && DistinctKeys(t.props) && Shape(t, l[..i + 1]) && Nested(idx, l[..i + 1], t)
      && BuildProps(idx, key, l, i, acc, c) == BuildProps(idx, key, l, i + 1, t, b.1)
  {
    ShapeStep(acc, l, i, Child(idx, key, l, i, c).0);
    NestedStep(idx, acc, l, i, Child(idx, key, l, i, c).0);
  }

  /** `BuildProps` past the last statement returns what it was given. */
  lemma BuildPropsDone(idx: Index, key: string, l: seq<Statement>, i: nat, acc: Term, c: Ctx)
    requires ValidIndex(idx) && ValidCtx(idx, c) && key in c.processing && key in idx.lists
    requires l == ListOf(idx, key) && i == |l|
    requires !acc.node.LiteralNode? && DistinctKeys(acc.props) && Shape(acc, l[..i]) && Nested(idx, l[..i], acc)
    ensures BuildProps(idx, key, l, i, acc, c) == (acc, c)
  {
  }

  /** The loop over the statements about `key`, from position `i` on, adding
      each property to `acc`. */
  function BuildProps(idx: Index, key: string, l: seq<Statement>, i: nat, acc: Term, c: Ctx): (r: (Term, Ctx))
    requires ValidIndex(idx) && ValidCtx(idx, c) && key in c.processing && key in idx.lists
    requires l == ListOf(idx, key) && i <= |l|
    requires !acc.node.LiteralNode? && DistinctKeys(acc.props) && Shape(acc, l[..i]) && Nested(idx, l[..i], acc)
    ensures r.0.node == acc.node && DistinctKeys(r.0.props) && Shape(r.0, l) && Nested(idx, l, r.0)
    ensures ValidCtx(idx, r.1) && r.1.processing == c.processing && Grows(c.processed, r.1.processed)
    ensures Pending(idx, r.1) <= Pending(idx, c)
    decreases |Pending(idx, c)|, 1, |l| - i, 1
  {
    if i == |l| then
      assert l[..i] == l;
      (acc, c)
    else
      var b := Child(idx, key, l, i, c);
      AddChild(idx, acc, l, i, b.0);
      var next := Resources.AddProperty(acc, Obj(Plain(l[i].pred)), Obj(b.0));
      var r := BuildProps(idx, key, l, i + 1, next.value, b.1);
      GrowsTrans(c.processed, b.1.processed, r.1.processed);
      r
  }

  /** Adding the `i`-th property, with its value `child`, to `acc`. */
  lemma AddChild(idx: Index, acc: Term, l: seq<Statement>, i: nat, child: Term)
    requires i < |l| && l[i].pred.Resource?
    requires !acc.node.LiteralNode? && DistinctKeys(acc.props) && Shape(acc, l[..i]) && Nested(idx, l[..i], acc)
    requires NodeEquals(child.node, l[i].obj) && NestedChild(idx, l[i].obj, child)
    ensures var t := Term(acc.node, Put(acc.props, l[i].pred.uri, child));
      && Resources.AddProperty(acc, Obj(Plain(l[i].pred)), Obj(child)) == Ok(t)
      && DistinctKeys(t.props) && Shape(t, l[..i + 1]) && Nested(idx, l[..i + 1], t)
  {
    ShapeStep(acc, l, i, child);
    NestedStep(idx, acc, l, i, child);
  }

  /** The object the `i`-th statement about `key` gets as its property value:
      the resource built for it when it is an indexed subject and not a
      cycle, otherwise the statement's own object. */
  function Child(idx: Index, key: string, l: seq<Statement>, i: nat, c: Ctx): (r: (Term, Ctx))
    requires ValidIndex(idx) && ValidCtx(idx, c) && key in c.processing && key in idx.lists
    requires l == ListOf(idx, key) && i < |l|
    ensures NodeEquals(r.0.node, l[i].obj) && l[i].pred.Resource?
    ensures var o := l[i].obj;
      !o.LiteralNode? && UriOf(o) in idx.lists && UriOf(o) in c.processed ==> r.0 == c.processed[UriOf(o)]
    ensures var o := l[i].obj;
      !o.LiteralNode? && UriOf(o) in idx.lists && UriOf(o) !in c.processing ==>
        Shaped(idx, UriOf(o), r.0) && UriOf(o) in r.1.processed && r.0 == r.1.processed[UriOf(o)]
    ensures var o := l[i].obj;
      o.LiteralNode? || UriOf(o) !in idx.lists || UriOf(o) in c.processing ==> r.0 == Plain(o)
    ensures NestedChild(idx, l[i].obj, r.0)
    ensures ValidCtx(idx, r.1) && r.1.processing == c.processing && Grows(c.processed, r.1.processed)
    ensures Pending(idx, r.1) <= Pending(idx, c) && |Pending(idx, r.1)| <= |Pending(idx, c)|
    decreases |Pending(idx, c)|, 1, |l| - i, 0
  {
    var st := l[i];
    assert st in l;
    var b :=
      if !st.obj.LiteralNode? && UriOf(st.obj) in idx.lists then
        var o := Build(idx, UriOf(st.obj), c);
        (if o.0.Some? then o.0.value else Plain(st.obj), o.1)
      else (Plain(st.obj), c);
    NodeEqualsIff(b.0.node, st.obj);
    SubsetCard(Pending(idx, b.1), Pending(idx, c));
    b
  }

  lemma GrowsTrans(a: map<string, Term>, b: map<string, Term>, c: map<string, Term>)
    requires Grows(a, b) && Grows(b, c)
    ensures Grows(a, c)
  {
  }

  /** The outer loop over the index keys from position `i`: each key not yet
      finished becomes a root. */
  function BuildRoots(idx: Index, i: nat, c: Ctx): (r: Ctx)
    requires ValidIndex(idx) && ValidCtx(idx, c) && c.processing == {} && i <= |idx.keys|
    ensures ValidCtx(idx, r) && r.processing == {} && Grows(c.processed, r.processed)
    ensures forall j :: i <= j < |idx.keys| ==> idx.keys[j] in r.processed
    ensures c.roots != [] || (exists j :: i <= j < |idx.keys| && idx.keys[j] !in c.processed) ==> r.roots != []
    decreases |idx.keys| - i
  {
    if i == |idx.keys| then c
    else
      var k := idx.keys[i];
      if k in c.processed then
        var r := BuildRoots(idx, i + 1, c);
        RootsLater(idx, i, c);
        r
      else
        var b := Build(idx, k, c);
        RootAdded(idx, b.1, k, b.0.value);
        var c1 := b.1.(roots := Put(b.1.roots, k, b.0.value));
        var r := BuildRoots(idx, i + 1, c1);
        GrowsTrans(c.processed, c1.processed, r.processed);
        assert c1.roots != [];
        KeysFrom(idx.keys, i, r.processed);
        r
  }

  /** The keys from `i` on are finished when the one at `i` and those after
      it are. */
  lemma KeysFrom(keys: seq<string>, i: nat, done: map<string, Term>)
    requires i < |keys| && keys[i] in done
    requires forall j :: i + 1 <= j < |keys| ==> keys[j] in done
    ensures forall j :: i <= j < |keys| ==> keys[j] in done
  {
  }

  /** A key at `i` that is already finished leaves any unfinished key to
      the positions after it. */
  lemma RootsLater(idx: Index, i: nat, c: Ctx)
    requires i < |idx.keys| && idx.keys[i] in c.processed
    ensures (exists j :: i <= j < |idx.keys| && idx.keys[j] !in c.processed) ==>
              exists j :: i + 1 <= j < |idx.keys| && idx.keys[j] !in c.processed
  {
  }

  /** Recording a finished resource as a root keeps the context valid. */
  lemma RootAdded(idx: Index, c: Ctx, k: string, t: Term)
    requires ValidCtx(idx, c) && k in c.processed && c.processed[k] == t
    ensures ValidCtx(idx, c.(roots := Put(c.roots, k, t)))
    ensures Entry(k, t) in Put(c.roots, k, t)
  {
    var roots := Put(c.roots, k, t);
    PutKeepsDistinct(c.roots, k, t);
    PutEntries(c.roots, k, t);
    LookupPut(c.roots, k, t, k);
  }

  /** Root `k` of the result for `stmts`: the subject of the last statement
      about `k`, whose properties are the predicates of the statements about
      `k`, each with the object of the last of them. */
  ghost predicate BuiltFrom(stmts: seq<Statement>, k: string, t: Term)
    requires AllWellFormed(stmts)
  {
    RootOf(WithSubject(stmts, k), t)
  }

  /** `statementListToResourceList` on a list of statements: the roots, keyed
      by subject URI. */
  function ResourceList(stmts: seq<Statement>): (r: seq<Entry<string, Term>>)
    requires AllWellFormed(stmts)
    ensures DistinctKeys(r)
    ensures forall e :: e in r ==> BuiltFrom(stmts, e.key, e.value)
    ensures forall e :: e in r ==> Shaped(IndexOf(stmts), e.key, e.value)
    ensures forall e :: e in r ==> IsResource(Obj(e.value)) && Resources.HasProperties(e.value)
    ensures r == [] <==> stmts == []
  {
    var idx := IndexOf(stmts);
    IndexOfValid(stmts);
    IndexNonEmpty(stmts);
    var c := BuildRoots(idx, 0, Ctx({}, map[], []));
    RootsBuiltFrom(stmts, c);
    c.roots
  }

  lemma IndexNonEmpty(stmts: seq<Statement>)
    requires AllWellFormed(stmts)
    ensures stmts != [] ==> IndexOf(stmts).keys != []
  {
    IndexOfSpec(stmts);
    if stmts != [] {
      assert stmts[0] in stmts;
      assert stmts[0] in WithSubject(stmts, UriOf(stmts[0].subject));
      assert UriOf(stmts[0].subject) in IndexOf(stmts).keys;
    }
  }

  lemma RootsBuiltFrom(stmts: seq<Statement>, c: Ctx)
    requires AllWellFormed(stmts) && ValidCtx(IndexOf(stmts), c)
    ensures forall e :: e in c.roots ==> BuiltFrom(stmts, e.key, e.value)
    ensures forall e :: e in c.roots ==> IsResource(Obj(e.value)) && Resources.HasProperties(e.value)
  {
    forall e | e in c.roots
      ensures BuiltFrom(stmts, e.key, e.value)
      ensures IsResource(Obj(e.value)) && Resources.HasProperties(e.value)
    {
      assert Shaped(IndexOf(stmts), e.key, e.value);
      ShapedBuiltFrom(stmts, e.key, e.value);
    }
  }

  lemma ShapedBuiltFrom(stmts: seq<Statement>, k: string, t: Term)
    requires AllWellFormed(stmts) && Shaped(IndexOf(stmts), k, t)
    ensures BuiltFrom(stmts, k, t)
    ensures IsResource(Obj(t)) && Resources.HasProperties(t)
  {
    IndexOfSpec(stmts);
    assert ListOf(IndexOf(stmts), k) == WithSubject(stmts, k);
    BuiltFromFacts(stmts, k, t);
  }

  /** `statementListToResourceList($list)`: every element must be a
      statement. */
  function StatementListToResourceList(vs: seq<Value>): (r: Result<seq<Entry<string, Term>>>)
    requires forall v :: v in vs && v.Stmt? ==> WellFormedStatement(v.statement)
    ensures r.Ok? <==> forall v :: v in vs ==> IsStatement(v)
    ensures r.Err? ==> r == Err("API_ERROR")
    ensures r.Ok? ==> DistinctKeys(r.value) && (r.value == [] <==> vs == [])
    ensures r.Ok? ==> forall e :: e in r.value ==>
              && IsResource(Obj(e.value))
              && Resources.HasProperties(e.value)
              && BuiltFrom(StatementsOf(vs), e.key, e.value)
              && Shaped(IndexOf(StatementsOf(vs)), e.key, e.value)
  {
    if exists v :: v in vs && !v.Stmt? then Err("API_ERROR")
    else Ok(ResourceList(StatementsOf(vs)))
  }

  /** The statements inside a list of statement values. */
  function StatementsOf(vs: seq<Value>): (stmts: seq<Statement>)
    requires forall v :: v in vs ==> v.Stmt?
    requires forall v :: v in vs && v.Stmt? ==> WellFormedStatement(v.statement)
    ensures |stmts| == |vs| && AllWellFormed(stmts)
    ensures forall j :: 0 <= j < |vs| ==> vs[j] == Stmt(stmts[j])
  {
    if vs == [] then []
    else
      assert vs[0] in vs;
      assert forall v :: v in vs[1..] ==> v in vs;
      [vs[0].statement] + StatementsOf(vs[1..])
  }

  /** A built resource is a resource or blank node with at least one
      property. */
  lemma BuiltFromFacts(stmts: seq<Statement>, k: string, t: Term)
    requires AllWellFormed(stmts) && BuiltFrom(stmts, k, t)
    ensures IsResource(Obj(t)) && Resources.HasProperties(t)
  {
    var l := WithSubject(stmts, k);
    var st := l[|l| - 1];
    assert st in l;
    assert LastObject(l, st.pred.uri).Some?;
  }

  /** Every property of a root comes from a statement about it: the same
      predicate and an equal object; the root itself is that statement's
      subject. */
  lemma PropertiesFromStatements(stmts: seq<Statement>, k: string, t: Term, j: nat)
    requires AllWellFormed(stmts) && BuiltFrom(stmts, k, t) && j < |t.props|
    ensures !t.node.LiteralNode? && UriOf(t.node) == k
    ensures exists st :: st in stmts && UriOf(st.subject) == k && st.pred == Resource(t.props[j].key)
              && NodeEquals(t.props[j].value.node, st.obj)
  {
    var l := WithSubject(stmts, k);
    assert l[|l| - 1] in l;
    assert l[|l| - 1] in stmts;
    var pk := t.props[j].key;
    LookupDistinct(t.props, j);
    LastObjectIn(l, pk);
    var st :| st in l && st.pred == Resource(pk) && st.obj == LastObject(l, pk).value;
    assert st in stmts && UriOf(st.subject) == k;
  }

  lemma {:induction false} LookupDistinct<V>(m: seq<Entry<string, V>>, j: nat)
    requires DistinctKeys(m) && j < |m|
    ensures Lookup(m, m[j].key) == Some(m[j].value)
  {
    if j > 0 {
      assert DistinctKeys(m[1..]) by {
        forall a, b | 0 <= a < b < |m[1..]| ensures m[1..][a].key != m[1..][b].key {
          assert m[a + 1].key != m[b + 1].key;
        }
      }
      assert m[0].key != m[j].key;
      LookupDistinct(m[1..], j - 1);
    }
  }

  // ---------------------------------------------------------------------
  // resourceListToStatementList

  /** The statements one resource's own properties stand for. */
  function Direct(t: Term): (r: seq<Statement>)
    ensures |r| == |t.props|
    ensures forall j :: 0 <= j < |r| ==> r[j] == Statement(t.node, Resource(t.props[j].key), t.props[j].value.node)
    decreases |t.props|
  {
    if t.props == [] then []
    else [Statement(t.node, Resource(t.props[0].key), t.props[0].value.node)] + Direct(Term(t.node, t.props[1..]))
  }

  function DirectAll(vs: seq<Value>): seq<Statement>
    requires forall v :: v in vs ==> v.Obj?
  {
    if vs == [] then [] else Direct(vs[0].term) + DirectAll(vs[1..])
  }

  /** `resourceListToStatementList($list)`: each element must be a resource
      (or blank node) with properties; one statement per property, resources
      in list order. */
  function ResourceListToStatementList(vs: seq<Value>): (r: Result<seq<Statement>>)
    ensures r.Ok? <==> forall v :: v in vs ==> IsResource(v) && Resources.HasProperties(v.term)
    ensures r.Ok? ==> forall x :: x in r.value <==> exists v :: v in vs && x in Direct(v.term)
  {
    if exists v :: v in vs && !(IsResource(v) && Resources.HasProperties(v.term)) then Err("API_ERROR")
    else
      DirectAllMembers(vs);
      Ok(DirectAll(vs))
  }

  lemma {:induction false} DirectAllMembers(vs: seq<Value>)
    requires forall v :: v in vs ==> v.Obj?
    ensures forall x :: x in DirectAll(vs) <==> exists v :: v in vs && x in Direct(v.term)
  {
    if vs != [] {
      DirectAllMembers(vs[1..]);
      assert forall v :: v in vs <==> v == vs[0] || v in vs[1..];
    }
  }

  /** Converting the roots back gives only statements equal to ones in the
      original list. (Nested resources are not roots, and a later statement
      with the same subject and predicate overwrites an earlier one, so not
      every statement comes back.) */
  lemma RoundTripSound(stmts: seq<Statement>, x: Statement)
    requires AllWellFormed(stmts)
    requires x in ResourceListToStatementList(RootValues(ResourceList(stmts))).value
    ensures exists st :: st in stmts && Statements.Equals(x, Stmt(st))
  {
    var roots := ResourceList(stmts);
    RootStatement(stmts, x);
    var e, j :| e in roots && 0 <= j < |e.value.props| && x == Direct(e.value)[j];
    PropertiesFromStatements(stmts, e.key, e.value, j);
    var st :| st in stmts && UriOf(st.subject) == e.key && st.pred == Resource(e.value.props[j].key)
              && NodeEquals(e.value.props[j].value.node, st.obj);
    EqualByParts(x, st);
  }

  /** A statement given back comes from one property of one root. */
  lemma RootStatement(stmts: seq<Statement>, x: Statement)
    requires AllWellFormed(stmts)
    requires x in ResourceListToStatementList(RootValues(ResourceList(stmts))).value
    ensures exists e, j :: e in ResourceList(stmts) && 0 <= j < |e.value.props| && x == Direct(e.value)[j]
  {
    var roots := ResourceList(stmts);
    var vs := RootValues(roots);
    var v :| v in vs && x in Direct(v.term);
    var j :| 0 <= j < |v.term.props| && x == Direct(v.term)[j];
    var e :| e in roots && v == Obj(e.value);
    assert e in roots && 0 <= j < |e.value.props| && x == Direct(e.value)[j];
  }

  lemma EqualByParts(x: Statement, st: Statement)
    requires !x.subject.LiteralNode? && !st.subject.LiteralNode? && UriOf(x.subject) == UriOf(st.subject)
    requires x.pred == st.pred && st.pred.Resource? && NodeEquals(x.obj, st.obj)
    ensures Statements.Equals(x, Stmt(st))
  {
    NodeEqualsIff(x.subject, st.subject);
    NodeEqualsIff(x.pred, st.pred);
  }

  /** The roots as the values `resourceListToStatementList` takes. */
  function RootValues(roots: seq<Entry<string, Term>>): (vs: seq<Value>)
    requires forall e :: e in roots ==> IsResource(Obj(e.value)) && Resources.HasProperties(e.value)
    ensures forall v :: v in vs <==> exists e :: e in roots && v == Obj(e.value)
    ensures ResourceListToStatementList(vs).Ok?
  {
    if roots == [] then []
    else
      var rest := RootValues(roots[1..]);
      assert forall e :: e in roots <==> e == roots[0] || e in roots[1..];
      [Obj(roots[0].value)] + rest
  }

  // ---------------------------------------------------------------------
  // searchResources

  /** The subject URIs of the store: the measure of the recursive search. */
  function SubjectKeys(stmts: seq<Statement>): set<string>
    requires AllWellFormed(stmts)
  {
    set st | st in stmts :: UriOf(st.subject)
  }

  /** A statement found by searching for subject `n` is about `n`'s URI. */
  lemma FoundIsAbout(stmts: seq<Statement>, n: Node, x: Statement)
    requires AllWellFormed(stmts) && !n.LiteralNode?
    requires x in StoreSpec.Matching(stmts, Obj(Plain(n)), Null, Null)
    ensures x in stmts && UriOf(x.subject) == UriOf(n) && UriOf(n) in SubjectKeys(stmts)
  {
    NodeEqualsIff(n, x.subject);
  }

  /** Every statement of the store about the subject URI `u` is in `l`. */
  ghost predicate Covered(stmts: seq<Statement>, u: string, l: seq<Statement>)
    requires AllWellFormed(stmts)
  {
    forall y :: y in stmts && UriOf(y.subject) == u ==> y in l
  }

  /** Each statement of `part` whose object is a resource or a blank node
      either points at a URI of `skip` or has every statement about that
      URI in `whole`: the search went on from that object. */
  ghost predicate ClosedIn(stmts: seq<Statement>, part: seq<Statement>, skip: set<string>, whole: seq<Statement>)
    requires AllWellFormed(stmts)
  {
    forall x :: x in part && !x.obj.LiteralNode? ==> UriOf(x.obj) in skip || Covered(stmts, UriOf(x.obj), whole)
  }

  /** Searching for subject `n` finds every statement about its URI. */
  lemma MatchingAbout(stmts: seq<Statement>, n: Node)
    requires AllWellFormed(stmts) && !n.LiteralNode?
    ensures Covered(stmts, UriOf(n), StoreSpec.Matching(stmts, Obj(Plain(n)), Null, Null))
  {
    forall y | y in stmts && UriOf(y.subject) == UriOf(n)
      ensures y in StoreSpec.Matching(stmts, Obj(Plain(n)), Null, Null)
    {
      NodeEqualsIff(n, y.subject);
    }
  }

  lemma CoveredGrows(stmts: seq<Statement>, u: string, a: seq<Statement>, b: seq<Statement>)
    requires AllWellFormed(stmts) && Covered(stmts, u, a)
    requires forall x :: x in a ==> x in b
    ensures Covered(stmts, u, b)
  {
  }

  /** Closure survives a larger skip set and a larger container. */
  lemma ClosedWiden(stmts: seq<Statement>, part: seq<Statement>, skip: set<string>, skip': set<string>,
                    whole: seq<Statement>, whole': seq<Statement>)
    requires AllWellFormed(stmts) && ClosedIn(stmts, part, skip, whole)
    requires skip <= skip' && forall x :: x in whole ==> x in whole'
    ensures ClosedIn(stmts, part, skip', whole')
  {
    forall x | x in part && !x.obj.LiteralNode? && UriOf(x.obj) !in skip'
      ensures Covered(stmts, UriOf(x.obj), whole')
    {
      CoveredGrows(stmts, UriOf(x.obj), whole, whole');
    }
  }

  /** URIs whose statements are all in the container can leave the skip set. */
  lemma ClosedShrink(stmts: seq<Statement>, part: seq<Statement>, skip: set<string>, extra: set<string>,
                     whole: seq<Statement>)
    requires AllWellFormed(stmts) && ClosedIn(stmts, part, skip + extra, whole)
    requires forall u :: u in extra ==> Covered(stmts, u, whole)
    ensures ClosedIn(stmts, part, skip, whole)
  {
  }

  lemma ClosedConcat(stmts: seq<Statement>, a: seq<Statement>, b: seq<Statement>, skip: set<string>,
                     whole: seq<Statement>)
    requires AllWellFormed(stmts) && ClosedIn(stmts, a, skip, whole) && ClosedIn(stmts, b, skip, whole)
    ensures ClosedIn(stmts, a + b, skip, whole)
  {
    assert forall x :: x in a + b ==> x in a || x in b;
  }

  /** The tail of `found` from `i` is its element at `i` followed by the
      tail from `i + 1`. */
  lemma ClosedStep(stmts: seq<Statement>, found: seq<Statement>, i: nat, skip: set<string>, whole: seq<Statement>)
    requires AllWellFormed(stmts) && i < |found|
    requires ClosedIn(stmts, found[i + 1..], skip, whole)
    requires !found[i].obj.LiteralNode? ==> UriOf(found[i].obj) in skip || Covered(stmts, UriOf(found[i].obj), whole)
    ensures ClosedIn(stmts, found[i..], skip, whole)
  {
    assert found[i..] == [found[i]] + found[i + 1..];
  }

  /** `searchResourcesRecursive($subject)`: null for a URI already
      processed or in progress; otherwise the statements about the subject
      followed by what the search collects from each of their objects, the
      URI being in progress meanwhile and processed afterwards. (On an
      empty store the PHP search returns null instead of an empty list;
      callers treat both alike.) The result holds every statement about
      each URI the call processed, and the search went on from every object
      in it that was neither processed nor in progress when the call began. */
  function SearchFrom(stmts: seq<Statement>, n: Node, processed: set<string>, processing: set<string>)
    : (r: (Option<seq<Statement>>, set<string>))
    requires AllWellFormed(stmts) && !n.LiteralNode?
    ensures processed <= r.1
    ensures r.0.None? <==> UriOf(n) in processed || UriOf(n) in processing
    ensures r.0.None? ==> r.1 == processed
    ensures r.0.Some? ==> UriOf(n) in r.1 && forall x :: x in r.0.value ==> x in stmts
    ensures r.0.Some? ==> StoreSpec.Matching(stmts, Obj(Plain(n)), Null, Null) <= r.0.value
    ensures r.0.Some? ==> forall u :: u in r.1 - processed ==> Covered(stmts, u, r.0.value)
    ensures r.0.Some? ==> ClosedIn(stmts, r.0.value, processed + processing, r.0.value)
    decreases |SubjectKeys(stmts) - processing - processed|, 0
  {
    var key := UriOf(n);
    if key in processed || key in processing then (None, processed)
    else
      var found := StoreSpec.Matching(stmts, Obj(Plain(n)), Null, Null);
      MatchingAbout(stmts, n);
      if found == [] then (Some([]), processed + {key})
      else
        FoundIsAbout(stmts, n, found[0]);
        assert SubjectKeys(stmts) - (processing + {key}) - processed
          == (SubjectKeys(stmts) - processing - processed) - {key};
        var l := SearchFromAll(stmts, found, 0, processed, processing + {key}, found);
        SearchFromClosed(stmts, key, found, processed, processing, l.0, l.1);
        (Some(l.0), l.1 + {key})
  }

  /** How the loop's guarantees give those of `searchResourcesRecursive`. */
  lemma SearchFromClosed(stmts: seq<Statement>, key: string, found: seq<Statement>, processed: set<string>,
                         processing: set<string>, l: seq<Statement>, done: set<string>)
    requires AllWellFormed(stmts) && Covered(stmts, key, found)
    requires |found| <= |l| && l[..|found|] == found
    requires forall u :: u in done - processed ==> Covered(stmts, u, l)
    requires ClosedIn(stmts, found[0..], processed + (processing + {key}), l)
    requires ClosedIn(stmts, l[|found|..], processed + (processing + {key}), l)
    ensures found <= l && Covered(stmts, key, l)
    ensures forall u :: u in (done + {key}) - processed ==> Covered(stmts, u, l)
    ensures ClosedIn(stmts, l, processed + processing, l)
  {
    CoveredGrows(stmts, key, found, l);
    assert l == found[0..] + l[|found|..];
    ClosedConcat(stmts, found[0..], l[|found|..], processed + (processing + {key}), l);
    assert processed + (processing + {key}) == (processed + processing) + {key};
    ClosedShrink(stmts, l, processed + processing, {key}, l);
  }

  /** The loop of `searchResourcesRecursive` over the statements found, from
      position `i`, appending to `acc`. */
  function SearchFromAll(stmts: seq<Statement>, found: seq<Statement>, i: nat, processed: set<string>,
                         processing: set<string>, acc: seq<Statement>): (r: (seq<Statement>, set<string>))
    requires AllWellFormed(stmts) && i <= |found|
    requires forall x :: x in found ==> x in stmts
    requires forall x :: x in acc ==> x in stmts
    ensures processed <= r.1
    ensures forall x :: x in r.0 ==> x in stmts
    ensures |acc| <= |r.0| && r.0[..|acc|] == acc
    ensures forall u :: u in r.1 - processed ==> Covered(stmts, u, r.0)
    ensures ClosedIn(stmts, found[i..], processed + processing, r.0)
    ensures ClosedIn(stmts, r.0[|acc|..], processed + processing, r.0)
    decreases |SubjectKeys(stmts) - processing - processed|, 1, |found| - i
  {
    if i == |found| then
      assert found[i..] == [] && acc[|acc|..] == [];
      (acc, processed)
    else
      assert found[i] in found;
      var o := found[i].obj;
      if o.LiteralNode? then
        var r := SearchFromAll(stmts, found, i + 1, processed, processing, acc);
        ClosedStep(stmts, found, i, processed + processing, r.0);
        r
      else
        var sub := SearchFrom(stmts, o, processed, processing);
        SubsetCard(SubjectKeys(stmts) - processing - sub.1, SubjectKeys(stmts) - processing - processed);
        var more := if sub.0.Some? then sub.0.value else [];
        var r := SearchFromAll(stmts, found, i + 1, sub.1, processing, acc + more);
        SearchFromAllStep(stmts, found, i, processed, processing, acc, sub.0, sub.1, r.0, r.1);
        r
  }

  /** One turn of the loop of `searchResourcesRecursive`: the guarantees of
      the recursive call on the object and of the rest of the loop combine. */
  lemma SearchFromAllStep(stmts: seq<Statement>, found: seq<Statement>, i: nat, processed: set<string>,
                          processing: set<string>, acc: seq<Statement>, sub: Option<seq<Statement>>,
                          mid: set<string>, r: seq<Statement>, done: set<string>)
    requires AllWellFormed(stmts) && i < |found| && !found[i].obj.LiteralNode?
    requires processed <= mid && mid <= done
    requires sub.None? ==> mid == processed && UriOf(found[i].obj) in processed + processing
    requires sub.Some? ==> Covered(stmts, UriOf(found[i].obj), sub.value)
    requires sub.Some? ==> forall u :: u in mid - processed ==> Covered(stmts, u, sub.value)
    requires sub.Some? ==> ClosedIn(stmts, sub.value, processed + processing, sub.value)
    requires var more := if sub.Some? then sub.value else [];
      && |acc + more| <= |r| && r[..|acc + more|] == acc + more
    requires forall u :: u in done - mid ==> Covered(stmts, u, r)
    requires ClosedIn(stmts, found[i + 1..], mid + processing, r)
    requires ClosedIn(stmts, r[|acc + (if sub.Some? then sub.value else [])|..], mid + processing, r)
    ensures |acc| <= |r| && r[..|acc|] == acc
    ensures forall u :: u in done - processed ==> Covered(stmts, u, r)
    ensures ClosedIn(stmts, found[i..], processed + processing, r)
    ensures ClosedIn(stmts, r[|acc|..], processed + processing, r)
  {
    var more := if sub.Some? then sub.value else [];
    assert r[..|acc|] == (r[..|acc + more|])[..|acc|];
    assert forall x :: x in more ==> x in r by {
      forall x | x in more ensures x in r {
        assert x in (acc + more);
        assert r[..|acc + more|] == acc + more;
      }
    }
    forall u | u in mid - processed ensures Covered(stmts, u, r) {
      CoveredGrows(stmts, u, more, r);
    }
    assert mid + processing == (processed + processing) + (mid - processed);
    ClosedShrink(stmts, found[i + 1..], processed + processing, mid - processed, r);
    if sub.Some? {
      CoveredGrows(stmts, UriOf(found[i].obj), more, r);
    }
    ClosedStep(stmts, found, i, processed + processing, r);
    var rest := r[|acc + more|..];
    ClosedShrink(stmts, rest, processed + processing, mid - processed, r);
    if sub.Some? {
      ClosedWiden(stmts, more, processed + processing, processed + processing, more, r);
    }
    assert r[|acc|..] == more + rest;
    ClosedConcat(stmts, more, rest, processed + processing, r);
  }

  /** The loop of `searchResources` over the statements the search found,
      from position `i`: each subject is marked processed, then the search
      continues from its object. Every object of what it collects is a
      subject of `found`, was processed before, or has all its statements
      collected. */
  function Collect(stmts: seq<Statement>, found: seq<Statement>, i: nat, processed: set<string>, acc: seq<Statement>)
    : (r: seq<Statement>)
    requires AllWellFormed(stmts) && i <= |found|
    requires forall x :: x in found ==> x in stmts
    requires forall x :: x in acc ==> x in stmts
    ensures forall x :: x in r ==> x in stmts
    ensures |acc| <= |r| && r[..|acc|] == acc
    ensures ClosedIn(stmts, found[i..], processed + Subjects(found), r)
    ensures ClosedIn(stmts, r[|acc|..], processed + Subjects(found), r)
    decreases |found| - i
  {
    if i == |found| then
      assert found[i..] == [] && acc[|acc|..] == [];
      acc
    else
      assert found[i] in found;
      var st := found[i];
      var p := processed + {UriOf(st.subject)};
      assert p + Subjects(found) == processed + Subjects(found);
      if st.obj.LiteralNode? then
        var r := Collect(stmts, found, i + 1, p, acc);
        ClosedStep(stmts, found, i, processed + Subjects(found), r);
        r
      else
        var sub := SearchFrom(stmts, st.obj, p, {});
        var more := if sub.0.Some? then sub.0.value else [];
        var r := Collect(stmts, found, i + 1, sub.1, acc + more);
        assert (acc + more)[..|acc|] == acc;
        assert r[..|acc|] == (r[..|acc + more|])[..|acc|];
        assert p + {} == p;
        CollectStep(stmts, found, i, p, processed + Subjects(found), acc, sub.0, sub.1, r);
        r
  }

  /** One turn of the outer loop of `searchResources`. */
  lemma CollectStep(stmts: seq<Statement>, found: seq<Statement>, i: nat, p: set<string>, skip: set<string>,
                    acc: seq<Statement>, sub: Option<seq<Statement>>, mid: set<string>, r: seq<Statement>)
    requires AllWellFormed(stmts) && i < |found| && !found[i].obj.LiteralNode?
    requires AllWellFormed(found) && p <= skip && skip == p + Subjects(found)
    requires p <= mid
    requires sub.None? ==> mid == p && UriOf(found[i].obj) in p
    requires sub.Some? ==> Covered(stmts, UriOf(found[i].obj), sub.value)
    requires sub.Some? ==> forall u :: u in mid - p ==> Covered(stmts, u, sub.value)
    requires sub.Some? ==> ClosedIn(stmts, sub.value, p, sub.value)
    requires var more := if sub.Some? then sub.value else [];
      && |acc + more| <= |r| && r[..|acc + more|] == acc + more
    requires ClosedIn(stmts, found[i + 1..], mid + Subjects(found), r)
    requires ClosedIn(stmts, r[|acc + (if sub.Some? then sub.value else [])|..], mid + Subjects(found), r)
    ensures ClosedIn(stmts, found[i..], skip, r)
    ensures ClosedIn(stmts, r[|acc|..], skip, r)
  {
    var more := if sub.Some? then sub.value else [];
    assert forall x :: x in more ==> x in r by {
      forall x | x in more ensures x in r {
        assert x in (acc + more);
        assert r[..|acc + more|] == acc + more;
      }
    }
    forall u | u in mid - p ensures Covered(stmts, u, r) {
      CoveredGrows(stmts, u, more, r);
    }
    assert mid + Subjects(found) == skip + (mid - p);
    ClosedShrink(stmts, found[i + 1..], skip, mid - p, r);
    if sub.Some? {
      CoveredGrows(stmts, UriOf(found[i].obj), more, r);
    }
    ClosedStep(stmts, found, i, skip, r);
    var rest := r[|acc + more|..];
    ClosedShrink(stmts, rest, skip, mid - p, r);
    if sub.Some? {
      ClosedWiden(stmts, more, p, skip, more, r);
    }
    assert r[|acc|..] == more + rest;
    ClosedConcat(stmts, more, rest, skip, r);
  }

  /** The subject URIs of a statement list. */
  function Subjects(l: seq<Statement>): set<string>
    requires AllWellFormed(l)
  {
    set x | x in l :: UriOf(x.subject)
  }

  /** What `searchResources` returns: null, the one resource, or the map of
      resources by URI. */
  datatype Found = NoResource | Single(resource: Term) | Several(resources: seq<Entry<string, Term>>)

  /** A resource whose properties all come from statements of the store
      about its URI. */
  ghost predicate FromStore(stmts: seq<Statement>, t: Term) {
    && !t.node.LiteralNode?
    && Resources.HasProperties(t)
    && forall j :: 0 <= j < |t.props| ==>
         exists st :: st in stmts && !st.subject.LiteralNode? && UriOf(st.subject) == UriOf(t.node)
           && st.pred == Resource(t.props[j].key) && NodeEquals(t.props[j].value.node, st.obj)
  }

  /** The statements `searchResources` hands to
      `statementListToResourceList` (`$wholeList`): those `search` found,
      in order, followed by what the search collects from their objects.
      Each of them is a statement of the store, and every statement about
      the URI of an object among them is collected too, unless that URI is
      the subject of a statement `search` found (the outer loop marks those
      processed without reading their other statements). */
  function Collected(stmts: seq<Statement>, s: Value, p: Value, o: Value): (w: seq<Statement>)
    requires AllWellFormed(stmts)
    requires StoreSpec.SearchSpec(stmts, s, p, o).Ok? && StoreSpec.SearchSpec(stmts, s, p, o).value.Some?
    ensures StoreSpec.SearchSpec(stmts, s, p, o).value.value <= w
    ensures forall x :: x in w ==> x in stmts
    ensures AllWellFormed(w) && AllWellFormed(StoreSpec.SearchSpec(stmts, s, p, o).value.value)
    ensures ClosedIn(stmts, w, Subjects(StoreSpec.SearchSpec(stmts, s, p, o).value.value), w)
  {
    var found := StoreSpec.SearchSpec(stmts, s, p, o).value.value;
    StoreSpec.SearchMembers(stmts, s, p, o);
    var w := Collect(stmts, found, 0, {}, found);
    assert found[0..] == found && w == w[..|found|] + w[|found|..];
    assert {} + Subjects(found) == Subjects(found);
    ClosedConcat(stmts, found[0..], w[|found|..], Subjects(found), w);
    w
  }

  /** `searchResources($s, $p, $o)`: the statements found by `search`, the
      statements reachable from their objects (`Collected`), all turned into
      resources; null when there is no root, the root itself when there is
      one, the list of roots otherwise. An empty store makes `search` return
      null, which `statementListToResourceList` rejects. */
  function SearchResources(stmts: seq<Statement>, s: Value, p: Value, o: Value): (r: Result<Found>)
    requires AllWellFormed(stmts)
    ensures stmts == [] ==> r == Err("API_ERROR")
    ensures stmts != [] ==> (r.Ok? <==> StoreSpec.SearchSpec(stmts, s, p, o).Ok?)
    ensures r.Ok? ==> StoreSpec.SearchSpec(stmts, s, p, o).Ok? && StoreSpec.SearchSpec(stmts, s, p, o).value.Some?
    ensures r.Ok? ==> (r.value == NoResource <==> StoreSpec.SearchSpec(stmts, s, p, o).value == Some([]))
    ensures r.Ok? ==>
              var roots := ResourceList(Collected(stmts, s, p, o));
              && (r.value.NoResource? <==> roots == [])
              && (r.value.Single? <==> |roots| == 1)
              && (r.value.Single? ==> r.value.resource == roots[0].value)
              && (r.value.Several? ==> r.value.resources == roots)
    ensures r.Ok? && r.value.Single? ==> FromStore(stmts, r.value.resource)
    ensures r.Ok? && r.value.Several? ==>
              && |r.value.resources| >= 2
              && DistinctKeys(r.value.resources)
              && forall e :: e in r.value.resources ==> FromStore(stmts, e.value) && UriOf(e.value.node) == e.key
  {
    var found :- StoreSpec.SearchSpec(stmts, s, p, o);
    if found.None? then Err("API_ERROR")
    else
      var whole := Collected(stmts, s, p, o);
      assert found.value != [] ==> whole != [] by {
        if found.value != [] { assert found.value[0] in whole; }
      }
      var roots := ResourceList(whole);
      forall e | e in roots ensures FromStore(stmts, e.value) && UriOf(e.value.node) == e.key {
        RootFromStore(stmts, whole, e.key, e.value);
      }
      if roots == [] then Ok(NoResource)
      else if |roots| == 1 then
        assert roots[0] in roots;
        Ok(Single(roots[0].value))
      else Ok(Several(roots))
  }

  lemma RootFromStore(stmts: seq<Statement>, whole: seq<Statement>, k: string, t: Term)
    requires AllWellFormed(stmts) && forall x :: x in whole ==> x in stmts
    requires AllWellFormed(whole) && BuiltFrom(whole, k, t)
    ensures FromStore(stmts, t) && UriOf(t.node) == k
  {
    var l := WithSubject(whole, k);
    assert l[|l| - 1] in l;
    BuiltFromFacts(whole, k, t);
    forall j | 0 <= j < |t.props|
      ensures exists st :: st in stmts && !st.subject.LiteralNode? && UriOf(st.subject) == UriOf(t.node)
                && st.pred == Resource(t.props[j].key) && NodeEquals(t.props[j].value.node, st.obj)
    {
      PropertiesFromStatements(whole, k, t, j);
    }
  }
}
