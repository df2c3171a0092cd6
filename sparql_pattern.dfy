/** The pattern tree of `sparql/sparqlEngine/SparqlEngine.php`
    (`buildPattern`, `buildRecursiveTreePattern`): the WHERE triples are
    grouped under their subject text, and a triple whose object is a
    variable that heads triples of its own gets that variable's branch in
    place of the object. A variable re-entered while it is still being
    expanded keeps its plain object (the cycle cut); a variable expanded
    once is cached and every later reference gets the cached branch. */
module SparqlPatterns {
  import opened Wrappers
  import opened OrderedMaps
  import opened SparqlQueries
  import opened Terms
  import Check

  /** `getWhereTriples()`: subject text to its triples, in insertion order. */
  type WhereMap = seq<Entry<string, seq<WhereTriple>>>

  /** The object of a pattern triple: the triple's own object, or the
      branch of the variable it names. */
  datatype PatternObject = Leaf(part: Part) | Nested(branch: Branch)

  datatype PatternTriple = PatternTriple(subject: Part, pred: Part, obj: PatternObject)

  /** `$returnTriples`: the "variable" entry and the triples, in order. */
  datatype Branch = Branch(variable: string, triples: seq<PatternTriple>)

  /** An entry of `$processedVariables`: the variable itself stands for "no
      triples" (`$this->processedVariables[$var] = $var`), an array for the
      expanded branch. */
  datatype Cached = LeafMark | Built(branch: Branch)

  /** `$processingVariables` and `$processedVariables`. */
  datatype PCtx = PCtx(processing: set<string>, processed: map<string, Cached>)

  /** `$this->pattern`: subject text to branch (null for a subject without
      triples). */
  type Pattern = seq<Entry<string, Option<Branch>>>

  const StartCtx := PCtx({}, map[])

  function KeySet(wt: WhereMap): set<string> {
    set k | k in Keys(wt)
  }

  /** A subject with triples is one of the keys. */
  lemma ShrinkMeasure(wt: WhereMap, processing: set<string>, v: string)
    requires TriplesOf(wt, v) != [] && v !in processing
    ensures |KeySet(wt) - (processing + {v})| < |KeySet(wt) - processing|
  {
    assert v in KeySet(wt);
    assert KeySet(wt) - processing == (KeySet(wt) - (processing + {v})) + {v};
  }

  // ---------------------------------------------------------------------
  // buildRecursiveTreePattern

  /** `buildRecursiveTreePattern($var)` against the two maps: the cached
      result of a processed variable; null for a variable still being
      processed; null (and a "no triples" mark) for a subject without
      triples; otherwise the branch of its triples, expanded in order with
      the subject marked as processing, then cached. */
  function Build(wt: WhereMap, v: string, ctx: PCtx): (r: (Option<Branch>, PCtx))
    requires IsVariable(v) || v !in ctx.processing
    ensures r.1.processing == ctx.processing
    decreases |KeySet(wt) - ctx.processing|, 0
  {
    if IsVariable(v) && v in ctx.processed then
      (match ctx.processed[v] case LeafMark => None case Built(b) => Some(b), ctx)
    else if IsVariable(v) && v in ctx.processing then (None, ctx)
    else if TriplesOf(wt, v) == [] then (None, ctx.(processed := ctx.processed[v := LeafMark]))
    else
      ShrinkMeasure(wt, ctx.processing, v);
      var inner := BuildTriples(wt, TriplesOf(wt, v), ctx.(processing := ctx.processing + {v}));
      var b := Branch(v, inner.0);
      (Some(b), PCtx(inner.1.processing - {v}, inner.1.processed[v := Built(b)]))
  }

  /** The `foreach ($processTriples as $key => $triple)` loop. */
  function BuildTriples(wt: WhereMap, l: seq<WhereTriple>, ctx: PCtx): (r: (seq<PatternTriple>, PCtx))
    ensures r.1.processing == ctx.processing
    ensures |r.0| == |l|
    decreases |KeySet(wt) - ctx.processing|, 1, |l| + 1
  {
    if l == [] then ([], ctx)
    else
      var head := BuildObject(wt, l[0].obj, ctx);
      var rest := BuildTriples(wt, l[1..], head.1);
      ([PatternTriple(l[0].subject, l[0].pred, head.0)] + rest.0, rest.1)
  }

  /** One triple's object: a variable is expanded, and a non-empty result
      replaces the object. */
  function BuildObject(wt: WhereMap, o: Part, ctx: PCtx): (r: (PatternObject, PCtx))
    ensures r.1.processing == ctx.processing
    decreases |KeySet(wt) - ctx.processing|, 1, 0
  {
    if o.Var? && IsVariable(o.name) then
      var c := Build(wt, o.name, ctx);
      (if c.0.Some? then Nested(c.0.value) else Leaf(o), c.1)
    else (Leaf(o), ctx)
  }

  /** One step of the triple loop of `buildRecursiveTreePattern`. */
  lemma BuildTriplesCons(wt: WhereMap, l: seq<WhereTriple>, ctx: PCtx)
    requires l != []
    ensures var head := BuildObject(wt, l[0].obj, ctx);
      BuildTriples(wt, l, ctx)
      == ([PatternTriple(l[0].subject, l[0].pred, head.0)] + BuildTriples(wt, l[1..], head.1).0,
          BuildTriples(wt, l[1..], head.1).1)
  {
  }

  /** `buildRecursiveTreePattern` past its three early returns. */
  lemma BuildExpands(wt: WhereMap, v: string, ctx: PCtx)
    requires !(IsVariable(v) && v in ctx.processed) && v !in ctx.processing && TriplesOf(wt, v) != []
    ensures var inner := BuildTriples(wt, TriplesOf(wt, v), ctx.(processing := ctx.processing + {v}));
      Build(wt, v, ctx)
      == (Some(Branch(v, inner.0)), PCtx(inner.1.processing - {v}, inner.1.processed[v := Built(Branch(v, inner.0))]))
  {
  }

  // ---------------------------------------------------------------------
  // buildPattern

  /** The `foreach ($whereTriples as $key => $triples)` loop of
      `buildPattern`: a key already processed is skipped. */
  function PatternFrom(wt: WhereMap, rest: WhereMap, pat: Pattern, ctx: PCtx): (r: (Pattern, PCtx))
    requires ctx.processing == {}
    ensures r.1.processing == {}
    decreases |rest|
  {
    if rest == [] then (pat, ctx)
    else if rest[0].key in ctx.processed then PatternFrom(wt, rest[1..], pat, ctx)
    else
      var b := Build(wt, rest[0].key, ctx);
      PatternFrom(wt, rest[1..], Put(pat, rest[0].key, b.0), b.1)
  }

  /** `buildPattern()`: both maps start empty. */
  function BuildPatternSpec(wt: WhereMap): Pattern {
    PatternFrom(wt, wt, [], StartCtx).0
  }

  // ---------------------------------------------------------------------
  // The shape of what is built

  /** A branch mirrors the WHERE triples of its variable one for one:
      subject and predicate as written, the object either as written or
      replaced by the branch of the variable it names. */
  predicate Conforms(wt: WhereMap, b: Branch)
    decreases b, 1
  {
    var ts := TriplesOf(wt, b.variable);
    |b.triples| == |ts| && forall i :: 0 <= i < |ts| ==> TripleConforms(wt, b.triples[i], ts[i])
  }

  predicate TripleConforms(wt: WhereMap, pt: PatternTriple, t: WhereTriple)
    decreases pt, 0
  {
    pt.subject == t.subject && pt.pred == t.pred
    && match pt.obj
       case Leaf(x) => x == t.obj
       case Nested(c) => t.obj == Var(c.variable) && Conforms(wt, c)
  }

  /** `x` heads the branch or a branch nested in it. */
  predicate Mentions(b: Branch, x: string)
    decreases b
  {
    b.variable == x
    || exists i :: 0 <= i < |b.triples| && b.triples[i].obj.Nested? && Mentions(b.triples[i].obj.branch, x)
  }

  /** No branch is nested, at any depth, inside a branch of its own
      variable: every path from the root names distinct variables. */
  predicate Acyclic(b: Branch)
    decreases b
  {
    forall i :: 0 <= i < |b.triples| && b.triples[i].obj.Nested? ==>
      !Mentions(b.triples[i].obj.branch, b.variable) && Acyclic(b.triples[i].obj.branch)
  }

  /** A branch that conforms, is acyclic, and names only variables in `done`. */
  ghost predicate Good(wt: WhereMap, b: Branch, done: set<string>) {
    Conforms(wt, b) && Acyclic(b) && forall x :: Mentions(b, x) ==> x in done
  }

  ghost predicate ObjectGood(wt: WhereMap, o: PatternObject, done: set<string>) {
    o.Nested? ==> Good(wt, o.branch, done)
  }

  /** What the two maps keep between calls: nothing processed is still
      processing, a "no triples" mark stands for a subject without triples,
      and a cached branch is the good branch of its own variable. */
  ghost predicate Inv(wt: WhereMap, ctx: PCtx) {
    && (forall k :: k in ctx.processed ==> k !in ctx.processing)
    && (forall k :: k in ctx.processed ==>
          match ctx.processed[k]
          case LeafMark => TriplesOf(wt, k) == []
          case Built(b) => b.variable == k && TriplesOf(wt, k) != [] && Good(wt, b, ctx.processed.Keys))
  }

  /** The cache only grows, and cached entries never change. */
  predicate Grows(c0: PCtx, c1: PCtx) {
    forall k :: k in c0.processed ==> k in c1.processed && c1.processed[k] == c0.processed[k]
  }

  /** Whether `Build(wt, v, ctx)` hits the cycle cut. */
  predicate Cut(v: string, ctx: PCtx) {
    IsVariable(v) && v in ctx.processing && v !in ctx.processed
  }

  lemma GoodGrows(wt: WhereMap, b: Branch, d0: set<string>, d1: set<string>)
    requires Good(wt, b, d0) && d0 <= d1
    ensures Good(wt, b, d1)
  {
  }

  /** Expanding a variable keeps the maps consistent and returns, unless the
      cycle cut applies or there are no triples, a good branch headed by
      that variable; the variable is then cached; every branch newly cached
      is nested in the result. */
  lemma {:induction false} BuildFacts(wt: WhereMap, v: string, ctx: PCtx)
    requires Inv(wt, ctx)
    requires IsVariable(v) || (v !in ctx.processing && v !in ctx.processed)
    ensures var r := Build(wt, v, ctx);
      && Inv(wt, r.1) && Grows(ctx, r.1)
      && (r.0.None? <==> TriplesOf(wt, v) == [] || Cut(v, ctx))
      && (r.0.Some? ==> r.0.value.variable == v && Good(wt, r.0.value, r.1.processed.Keys))
      && (!Cut(v, ctx) ==> v in r.1.processed)
      && (forall x :: x in r.1.processed && x !in ctx.processed && r.1.processed[x].Built? ==>
            r.0.Some? && Mentions(r.0.value, x))
    decreases |KeySet(wt) - ctx.processing|, 0, 1
  {
    if IsVariable(v) && v in ctx.processed {
    } else if IsVariable(v) && v in ctx.processing {
    } else if TriplesOf(wt, v) == [] {
      MarkFacts(wt, v, ctx);
    } else {
      FreshFacts(wt, v, ctx);
    }
  }

  /** Marking a subject without triples keeps the maps consistent. */
  lemma MarkFacts(wt: WhereMap, v: string, ctx: PCtx)
    requires Inv(wt, ctx) && TriplesOf(wt, v) == [] && v !in ctx.processing
    ensures var r1 := ctx.(processed := ctx.processed[v := LeafMark]);
      Inv(wt, r1) && (v !in ctx.processed ==> Grows(ctx, r1))
  {
    var r1 := ctx.(processed := ctx.processed[v := LeafMark]);
    forall k | k in ctx.processed && ctx.processed[k].Built?
      ensures Good(wt, ctx.processed[k].branch, r1.processed.Keys)
    {
      GoodGrows(wt, ctx.processed[k].branch, ctx.processed.Keys, r1.processed.Keys);
    }
  }

  /** The expansion of a subject with triples that is neither cached nor
      being processed. */
  lemma {:induction false} FreshFacts(wt: WhereMap, v: string, ctx: PCtx)
    requires Inv(wt, ctx) && TriplesOf(wt, v) != [] && v !in ctx.processing && v !in ctx.processed
    ensures var r := Build(wt, v, ctx);
      && Inv(wt, r.1) && Grows(ctx, r.1)
      && r.0.Some? && r.0.value.variable == v && Good(wt, r.0.value, r.1.processed.Keys)
      && v in r.1.processed
      && (forall x :: x in r.1.processed && x !in ctx.processed && r.1.processed[x].Built? ==>
            Mentions(r.0.value, x))
    decreases |KeySet(wt) - ctx.processing|, 0, 0
  {
    ShrinkMeasure(wt, ctx.processing, v);
    var ic := ctx.(processing := ctx.processing + {v});
    BuildTriplesFacts(wt, TriplesOf(wt, v), ic);
    var inner := BuildTriples(wt, TriplesOf(wt, v), ic);
    var c1 := inner.1;
    var b := Branch(v, inner.0);
    assert Build(wt, v, ctx) == (Some(b), PCtx(c1.processing - {v}, c1.processed[v := Built(b)]));
    assert v !in c1.processed;
    assert Conforms(wt, b);
    BranchFacts(wt, b, c1);
    CacheFacts(wt, b, ctx, c1);
  }

  /** The branch built over `c1` is acyclic and names only `v` and cached
      variables. */
  lemma BranchFacts(wt: WhereMap, b: Branch, c1: PCtx)
    requires Inv(wt, c1) && b.variable in c1.processing
    requires forall i :: 0 <= i < |b.triples| ==> ObjectGood(wt, b.triples[i].obj, c1.processed.Keys)
    ensures Acyclic(b)
    ensures forall x :: Mentions(b, x) ==> x == b.variable || x in c1.processed
  {
    forall i | 0 <= i < |b.triples| && b.triples[i].obj.Nested?
      ensures !Mentions(b.triples[i].obj.branch, b.variable)
    {
      assert Good(wt, b.triples[i].obj.branch, c1.processed.Keys);
    }
    forall x | Mentions(b, x) && x != b.variable ensures x in c1.processed {
      var i :| 0 <= i < |b.triples| && b.triples[i].obj.Nested? && Mentions(b.triples[i].obj.branch, x);
      assert Good(wt, b.triples[i].obj.branch, c1.processed.Keys);
    }
  }

  /** Caching the new branch keeps the maps consistent. */
  lemma CacheFacts(wt: WhereMap, b: Branch, ctx: PCtx, c1: PCtx)
    requires Inv(wt, c1) && Grows(ctx, c1) && c1.processing == ctx.processing + {b.variable}
    requires b.variable !in ctx.processing && b.variable !in c1.processed
    requires TriplesOf(wt, b.variable) != [] && Conforms(wt, b) && Acyclic(b)
    requires forall x :: Mentions(b, x) ==> x == b.variable || x in c1.processed
    requires forall x :: x in c1.processed && x !in ctx.processed && c1.processed[x].Built? ==>
      exists i :: 0 <= i < |b.triples| && b.triples[i].obj.Nested? && Mentions(b.triples[i].obj.branch, x)
    ensures var r1 := PCtx(c1.processing - {b.variable}, c1.processed[b.variable := Built(b)]);
      && Inv(wt, r1) && Grows(ctx, r1)
      && Good(wt, b, r1.processed.Keys)
      && (forall x :: x in r1.processed && x !in ctx.processed && r1.processed[x].Built? ==> Mentions(b, x))
  {
    var r1 := PCtx(c1.processing - {b.variable}, c1.processed[b.variable := Built(b)]);
    assert r1.processing == ctx.processing;
    forall k | k in c1.processed && c1.processed[k].Built?
      ensures Good(wt, c1.processed[k].branch, r1.processed.Keys)
    {
      GoodGrows(wt, c1.processed[k].branch, c1.processed.Keys, r1.processed.Keys);
    }
  }

  lemma {:induction false} BuildTriplesFacts(wt: WhereMap, l: seq<WhereTriple>, ctx: PCtx)
    requires Inv(wt, ctx)
    ensures var r := BuildTriples(wt, l, ctx);
      && Inv(wt, r.1) && Grows(ctx, r.1)
      && (forall i :: 0 <= i < |l| ==> TripleConforms(wt, r.0[i], l[i]) && ObjectGood(wt, r.0[i].obj, r.1.processed.Keys))
      && (forall x :: x in r.1.processed && x !in ctx.processed && r.1.processed[x].Built? ==>
            exists i :: 0 <= i < |r.0| && r.0[i].obj.Nested? && Mentions(r.0[i].obj.branch, x))
    decreases |KeySet(wt) - ctx.processing|, 1, |l| + 1
  {
    if l != [] {
      BuildObjectFacts(wt, l[0].obj, ctx);
      var head := BuildObject(wt, l[0].obj, ctx);
      BuildTriplesFacts(wt, l[1..], head.1);
      var rest := BuildTriples(wt, l[1..], head.1);
      var t := PatternTriple(l[0].subject, l[0].pred, head.0);
      BuildTriplesCons(wt, l, ctx);
      if head.0.Nested? {
        GoodGrows(wt, head.0.branch, head.1.processed.Keys, rest.1.processed.Keys);
      }
      ConsConforms(wt, l, t, rest.0, rest.1.processed.Keys);
      ConsCovers(t, rest.0, ctx, head.1, rest.1);
    }
  }

  /** The triple built first, then those built after it, mirror `l`. */
  lemma ConsConforms(wt: WhereMap, l: seq<WhereTriple>, t: PatternTriple, rest: seq<PatternTriple>, done: set<string>)
    requires l != [] && TripleConforms(wt, t, l[0]) && ObjectGood(wt, t.obj, done)
    requires |rest| == |l| - 1
    requires forall i :: 0 <= i < |l[1..]| ==> TripleConforms(wt, rest[i], l[1..][i]) && ObjectGood(wt, rest[i].obj, done)
    ensures var ts := [t] + rest;
      forall i :: 0 <= i < |l| ==> TripleConforms(wt, ts[i], l[i]) && ObjectGood(wt, ts[i].obj, done)
  {
    var ts := [t] + rest;
    forall i | 0 < i < |l|
      ensures TripleConforms(wt, ts[i], l[i]) && ObjectGood(wt, ts[i].obj, done)
    {
      assert ts[i] == rest[i - 1] && l[i] == l[1..][i - 1];
    }
  }

  /** Every branch cached while building the triples is nested in one of
      them: in the first if it was cached by the first, else in a later one. */
  lemma ConsCovers(t: PatternTriple, rest: seq<PatternTriple>, c0: PCtx, c1: PCtx, c2: PCtx)
    requires Grows(c1, c2)
    requires forall x :: x in c1.processed && x !in c0.processed && c1.processed[x].Built? ==>
               t.obj.Nested? && Mentions(t.obj.branch, x)
    requires forall x :: x in c2.processed && x !in c1.processed && c2.processed[x].Built? ==>
               exists i :: 0 <= i < |rest| && rest[i].obj.Nested? && Mentions(rest[i].obj.branch, x)
    ensures var ts := [t] + rest;
      forall x :: x in c2.processed && x !in c0.processed && c2.processed[x].Built? ==>
        exists i :: 0 <= i < |ts| && ts[i].obj.Nested? && Mentions(ts[i].obj.branch, x)
  {
    var ts := [t] + rest;
    forall x | x in c2.processed && x !in c0.processed && c2.processed[x].Built?
      ensures exists i :: 0 <= i < |ts| && ts[i].obj.Nested? && Mentions(ts[i].obj.branch, x)
    {
      if x in c1.processed {
        assert ts[0] == t;
      } else {
        var j :| 0 <= j < |rest| && rest[j].obj.Nested? && Mentions(rest[j].obj.branch, x);
        assert ts[j + 1] == rest[j];
      }
    }
  }

  /** A triple's object is replaced exactly when it is a variable with
      triples of its own that the cycle cut does not stop. */
  lemma {:induction false} BuildObjectFacts(wt: WhereMap, o: Part, ctx: PCtx)
    requires Inv(wt, ctx)
    ensures var r := BuildObject(wt, o, ctx);
      && Inv(wt, r.1) && Grows(ctx, r.1)
      && (r.0.Nested? <==> o.Var? && IsVariable(o.name) && TriplesOf(wt, o.name) != [] && !Cut(o.name, ctx))
      && (r.0.Leaf? ==> r.0.part == o)
      && (r.0.Nested? ==> o == Var(r.0.branch.variable) && Good(wt, r.0.branch, r.1.processed.Keys))
      && (forall x :: x in r.1.processed && x !in ctx.processed && r.1.processed[x].Built? ==>
            r.0.Nested? && Mentions(r.0.branch, x))
    decreases |KeySet(wt) - ctx.processing|, 1, 0
  {
    if o.Var? && IsVariable(o.name) {
      BuildFacts(wt, o.name, ctx);
    }
  }

  /** Expanding a variable twice returns the same result the second time
      and changes nothing: every variable is expanded at most once. */
  lemma BuildTwice(wt: WhereMap, v: string, ctx: PCtx)
    requires IsVariable(v)
    ensures var r := Build(wt, v, ctx); Build(wt, v, r.1) == r
  {
  }

  // ---------------------------------------------------------------------
  // The pattern

  ghost predicate PatternGood(wt: WhereMap, pat: Pattern, done: set<string>) {
    forall i :: 0 <= i < |pat| && pat[i].value.Some? ==>
      pat[i].value.value.variable == pat[i].key && Good(wt, pat[i].value.value, done)
  }

  /** Every cached branch is nested in some branch of the pattern. */
  ghost predicate Covered(pat: Pattern, ctx: PCtx) {
    forall x :: x in ctx.processed && ctx.processed[x].Built? ==>
      exists i :: 0 <= i < |pat| && pat[i].value.Some? && Mentions(pat[i].value.value, x)
  }

  lemma {:induction false} PatternFacts(wt: WhereMap, rest: WhereMap, pat: Pattern, ctx: PCtx)
    requires Inv(wt, ctx) && ctx.processing == {}
    requires DistinctKeys(rest) && forall k :: k in Keys(rest) ==> k !in Keys(pat)
    requires PatternGood(wt, pat, ctx.processed.Keys) && Covered(pat, ctx)
    ensures var r := PatternFrom(wt, rest, pat, ctx);
      && Inv(wt, r.1) && PatternGood(wt, r.0, r.1.processed.Keys) && Covered(r.0, r.1)
      && Grows(ctx, r.1)
      && (forall k :: k in Keys(rest) ==> k in r.1.processed)
    decreases |rest|, 1
  {
    if rest != [] {
      var k := rest[0].key;
      assert Keys(rest) == [k] + Keys(rest[1..]);
      if k in ctx.processed {
        PatternFacts(wt, rest[1..], pat, ctx);
      } else {
        PatternFactsAdded(wt, rest, pat, ctx);
      }
    }
  }

  /** The same facts when the first key of the loop gets a new entry. */
  lemma {:induction false} PatternFactsAdded(wt: WhereMap, rest: WhereMap, pat: Pattern, ctx: PCtx)
    requires Inv(wt, ctx) && ctx.processing == {}
    requires DistinctKeys(rest) && forall k :: k in Keys(rest) ==> k !in Keys(pat)
    requires PatternGood(wt, pat, ctx.processed.Keys) && Covered(pat, ctx)
    requires rest != [] && rest[0].key !in ctx.processed
    ensures var r := PatternFrom(wt, rest, pat, ctx);
      && Inv(wt, r.1) && PatternGood(wt, r.0, r.1.processed.Keys) && Covered(r.0, r.1)
      && Grows(ctx, r.1)
      && (forall k :: k in Keys(rest) ==> k in r.1.processed)
    decreases |rest|, 0
  {
    var k := rest[0].key;
    PatternStep(wt, k, pat, ctx);
    var b := Build(wt, k, ctx);
    var pat1 := Put(pat, k, b.0);
    LaterKeys(rest, pat, pat1);
    PatternFacts(wt, rest[1..], pat1, b.1);
    var r := PatternFrom(wt, rest[1..], pat1, b.1);
    assert PatternFrom(wt, rest, pat, ctx) == r;
    GrowsTrans(ctx, b.1, r.1);
    assert Keys(rest) == [k] + Keys(rest[1..]);
  }

  /** The loop's later keys are distinct and missing from the pattern once
      the first key is added. */
  lemma LaterKeys(rest: WhereMap, pat: Pattern, pat1: Pattern)
    requires rest != [] && DistinctKeys(rest) && forall k :: k in Keys(rest) ==> k !in Keys(pat)
    requires Keys(pat1) == Keys(pat) + [rest[0].key]
    ensures DistinctKeys(rest[1..]) && forall k :: k in Keys(rest[1..]) ==> k !in Keys(pat1)
  {
    assert Keys(rest) == [rest[0].key] + Keys(rest[1..]);
    assert forall j :: 0 <= j < |rest[1..]| ==> rest[1..][j].key != rest[0].key;
  }

  lemma GrowsTrans(c0: PCtx, c1: PCtx, c2: PCtx)
    requires Grows(c0, c1) && Grows(c1, c2)
    ensures Grows(c0, c2)
  {
  }

  /** The keys of the pattern: those it started with, and the loop's keys
      that were not already expanded, the first of them included. */
  lemma {:induction false} PatternKeys(wt: WhereMap, rest: WhereMap, pat: Pattern, ctx: PCtx)
    requires ctx.processing == {}
    requires DistinctKeys(rest) && forall k :: k in Keys(rest) ==> k !in Keys(pat)
    ensures var r := PatternFrom(wt, rest, pat, ctx);
      && (forall k :: k in Keys(r.0) ==> k in Keys(pat) || k in Keys(rest))
      && (forall k :: k in Keys(pat) ==> k in Keys(r.0))
      && (rest != [] && rest[0].key !in ctx.processed ==> rest[0].key in Keys(r.0))
    decreases |rest|
  {
    if rest != [] {
      var k := rest[0].key;
      assert Keys(rest) == [k] + Keys(rest[1..]);
      if k in ctx.processed {
        PatternKeys(wt, rest[1..], pat, ctx);
      } else {
        var b := Build(wt, k, ctx);
        var pat1 := Put(pat, k, b.0);
        assert Keys(pat1) == Keys(pat) + [k];
        assert forall j :: 0 <= j < |rest[1..]| ==> rest[1..][j].key != k;
        PatternKeys(wt, rest[1..], pat1, b.1);
      }
    }
  }

  /** One entry of the pattern loop: the new key's branch is appended. */
  lemma PatternStep(wt: WhereMap, k: string, pat: Pattern, ctx: PCtx)
    requires Inv(wt, ctx) && ctx.processing == {} && k !in ctx.processed && k !in Keys(pat)
    requires PatternGood(wt, pat, ctx.processed.Keys) && Covered(pat, ctx)
    ensures var b := Build(wt, k, ctx); var pat1 := Put(pat, k, b.0);
      && Inv(wt, b.1) && b.1.processing == {} && k in b.1.processed && Grows(ctx, b.1)
      && PatternGood(wt, pat1, b.1.processed.Keys) && Covered(pat1, b.1)
      && Keys(pat1) == Keys(pat) + [k]
  {
    BuildFacts(wt, k, ctx);
    var b := Build(wt, k, ctx);
    PutAbsent(pat, k, b.0);
    var pat1 := Put(pat, k, b.0);
    assert pat1 == pat + [Entry(k, b.0)];
    assert Keys(pat1) == Keys(pat) + [k];
    forall i | 0 <= i < |pat| && pat[i].value.Some?
      ensures Good(wt, pat[i].value.value, b.1.processed.Keys)
    {
      GoodGrows(wt, pat[i].value.value, ctx.processed.Keys, b.1.processed.Keys);
    }
    assert PatternGood(wt, pat1, b.1.processed.Keys);
    forall x | x in b.1.processed && b.1.processed[x].Built?
      ensures exists i :: 0 <= i < |pat1| && pat1[i].value.Some? && Mentions(pat1[i].value.value, x)
    {
      if x in ctx.processed {
        var i :| 0 <= i < |pat| && pat[i].value.Some? && Mentions(pat[i].value.value, x);
        assert pat1[i] == pat[i];
      } else {
        assert pat1[|pat|] == Entry(k, b.0);
      }
    }
  }

  /** What `buildPattern` returns: an entry per WHERE subject that was not
      already expanded inside an earlier one, the first subject always
      among them; each branch headed by its subject, conforming to the
      WHERE triples and acyclic; and no subject with triples lost, since
      each is nested in (or heads) some branch. */
  lemma PatternShape(wt: WhereMap)
    requires DistinctKeys(wt)
    ensures var pat := BuildPatternSpec(wt);
      && (forall k :: k in Keys(pat) ==> k in Keys(wt))
      && (wt != [] ==> wt[0].key in Keys(pat))
      && (forall i :: 0 <= i < |pat| && pat[i].value.Some? ==>
            pat[i].value.value.variable == pat[i].key && Conforms(wt, pat[i].value.value) && Acyclic(pat[i].value.value))
      && (forall k :: k in Keys(wt) && TriplesOf(wt, k) != [] ==>
            exists i :: 0 <= i < |pat| && pat[i].value.Some? && Mentions(pat[i].value.value, k))
  {
    PatternShapeKeys(wt);
    PatternShapeBranches(wt);
  }

  lemma PatternShapeKeys(wt: WhereMap)
    requires DistinctKeys(wt)
    ensures var pat := BuildPatternSpec(wt);
      && (forall k :: k in Keys(pat) ==> k in Keys(wt))
      && (wt != [] ==> wt[0].key in Keys(pat))
  {
    PatternKeys(wt, wt, [], StartCtx);
  }

  lemma PatternShapeBranches(wt: WhereMap)
    requires DistinctKeys(wt)
    ensures var pat := BuildPatternSpec(wt);
      && (forall i :: 0 <= i < |pat| && pat[i].value.Some? ==>
            pat[i].value.value.variable == pat[i].key && Conforms(wt, pat[i].value.value) && Acyclic(pat[i].value.value))
      && (forall k :: k in Keys(wt) && TriplesOf(wt, k) != [] ==>
            exists i :: 0 <= i < |pat| && pat[i].value.Some? && Mentions(pat[i].value.value, k))
  {
    PatternFacts(wt, wt, [], StartCtx);
    var r := PatternFrom(wt, wt, [], StartCtx);
    forall k | k in Keys(wt) && TriplesOf(wt, k) != []
      ensures exists i :: 0 <= i < |r.0| && r.0[i].value.Some? && Mentions(r.0[i].value.value, k)
    {
      assert k in r.1.processed;
      assert r.1.processed[k].Built?;
    }
  }

  /** The cycle `?x p ?y . ?y p ?x`: `?y` is nested under `?x`, the inner
      `?x` keeps its plain object, and `?y` gets no entry of its own. */
  lemma CycleExample(p: Node)
    ensures var wt := [Entry("?x", [WhereTriple(Var("?x"), Fixed(p), Var("?y"))]),
                       Entry("?y", [WhereTriple(Var("?y"), Fixed(p), Var("?x"))])];
      BuildPatternSpec(wt) ==
        [Entry("?x", Some(Branch("?x", [PatternTriple(Var("?x"), Fixed(p),
           Nested(Branch("?y", [PatternTriple(Var("?y"), Fixed(p), Leaf(Var("?x")))])))])))]
  {
    VariableExamples();
    assert "?x" != "?y" by { assert "?x"[1] != "?y"[1]; }
    assert IsVariable("?y") by { assert "?y"[1..] == "y"; assert Check.IsAlnum('y'); }
    var wt := [Entry("?x", [WhereTriple(Var("?x"), Fixed(p), Var("?y"))]),
               Entry("?y", [WhereTriple(Var("?y"), Fixed(p), Var("?x"))])];
    var bx := [WhereTriple(Var("?x"), Fixed(p), Var("?y"))];
    var by_ := [WhereTriple(Var("?y"), Fixed(p), Var("?x"))];
    assert TriplesOf(wt, "?x") == bx;
    assert TriplesOf(wt, "?y") == by_;
    var c0 := PCtx({"?x"}, map[]);
    var c1 := PCtx({"?x", "?y"}, map[]);
    assert Build(wt, "?x", c1) == (None, c1);
    assert BuildObject(wt, Var("?x"), c1) == (Leaf(Var("?x")), c1);
    assert by_[1..] == [] && bx[1..] == [];
    assert BuildTriples(wt, [], c1) == ([], c1);
    var yb := Branch("?y", [PatternTriple(Var("?y"), Fixed(p), Leaf(Var("?x")))]);
    assert BuildTriples(wt, by_, c1).0 == yb.triples;
    assert BuildTriples(wt, by_, c1).1 == c1;
    assert c1.processing - {"?y"} == {"?x"};
    assert c0.(processing := c0.processing + {"?y"}) == c1;
    var ctxY := PCtx({"?x"}, map["?y" := Built(yb)]);
    assert Build(wt, "?y", c0) == (Some(yb), ctxY);
    assert BuildObject(wt, Var("?y"), c0) == (Nested(yb), ctxY);
    assert BuildTriples(wt, [], ctxY) == ([], ctxY);
    assert bx[0] == WhereTriple(Var("?x"), Fixed(p), Var("?y"));
    assert BuildTriples(wt, bx[1..], ctxY) == ([], ctxY);
    var hx := BuildObject(wt, bx[0].obj, c0);
    assert hx == (Nested(yb), ctxY);
    assert BuildTriples(wt, bx, c0) == ([PatternTriple(bx[0].subject, bx[0].pred, hx.0)] + BuildTriples(wt, bx[1..], hx.1).0,
                                        BuildTriples(wt, bx[1..], hx.1).1);
    var px := PatternTriple(Var("?x"), Fixed(p), Nested(yb));
    assert [px] + BuildTriples(wt, bx[1..], hx.1).0 == [px];
    assert BuildTriples(wt, bx, c0) == ([PatternTriple(Var("?x"), Fixed(p), Nested(yb))], ctxY);
    var xb := Branch("?x", [PatternTriple(Var("?x"), Fixed(p), Nested(yb))]);
    var fin := PCtx({}, map["?y" := Built(yb), "?x" := Built(xb)]);
    assert StartCtx.(processing := StartCtx.processing + {"?x"}) == c0;
    assert ctxY.processing - {"?x"} == {};
    assert Build(wt, "?x", StartCtx) == (Some(xb), fin);
    assert PatternFrom(wt, wt[1..], [Entry("?x", Some(xb))], fin) == ([Entry("?x", Some(xb))], fin);
  }

  /** The WHERE graph of one triple `?x ?y ?z`: its object has no triples
      of its own, so the pattern is the single branch of `?x` with the
      object kept as it is. */
  lemma SingleTriplePattern(x: string, y: Part, z: string)
    requires IsVariable(x) && IsVariable(z) && x != z
    ensures BuildPatternSpec([Entry(x, [WhereTriple(Var(x), y, Var(z))])])
         == [Entry(x, Some(Branch(x, [PatternTriple(Var(x), y, Leaf(Var(z)))])))]
  {
    var tx := WhereTriple(Var(x), y, Var(z));
    var wt := [Entry(x, [tx])];
    assert TriplesOf(wt, x) == [tx];
    assert TriplesOf(wt, z) == [];
    var c0 := PCtx({x}, map[]);
    var cz := PCtx({x}, map[z := LeafMark]);
    assert Build(wt, z, c0) == (None, cz);
    assert BuildObject(wt, Var(z), c0) == (Leaf(Var(z)), cz);
    assert [tx][1..] == [];
    assert BuildTriples(wt, [], cz) == ([], cz);
    var pt := PatternTriple(Var(x), y, Leaf(Var(z)));
    assert [pt] + [] == [pt];
    assert BuildTriples(wt, [tx], c0) == ([pt], cz);
    var xb := Branch(x, [pt]);
    assert StartCtx.(processing := StartCtx.processing + {x}) == c0;
    assert cz.processing - {x} == {};
    var fin := PCtx({}, map[z := LeafMark, x := Built(xb)]);
    assert Build(wt, x, StartCtx) == (Some(xb), fin);
    assert wt[1..] == [];
    assert PatternFrom(wt, wt, [], StartCtx) == PatternFrom(wt, [], [Entry(x, Some(xb))], fin);
  }
}
