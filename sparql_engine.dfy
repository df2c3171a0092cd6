/** The engine object of `sparql/sparqlEngine/SparqlEngine.php`. It holds
    the query, the model, the processing and processed maps of pattern
    building, the pattern and the result table, and rewrites them in place.
    Each method is proved against the function of `SparqlPatterns` or
    `SparqlEvaluation` that specifies it; the properties of the query are
    proved about those functions. */
module SparqlEngines {
  import opened Wrappers
  import Seqs
  import opened Terms
  import opened OrderedMaps
  import opened SparqlQueries
  import opened SparqlTables
  import opened SparqlPatterns
  import opened SparqlEvaluation
  import SparqlParsers
  import Store

  /** A method's result and final table against a specification that may
      throw: on success the same value and that table, on a throw the same
      message (the table is then discarded with the engine's state). */
  predicate Outcome<T(==)>(spec: Result<(Table, T)>, r: Result<T>, t: Table) {
    match spec
    case Ok(v) => r == Ok(v.1) && t == v.0
    case Err(m) => r == Err(m)
  }

  /** Once the predicate loop has succeeded, the rest of possibility (2) is
      the object loop on the table it left. */
  lemma LaterLoopsStep(stmts: seq<Statement>, t: Table, vs: Vars, s: Value, p: Value, o: Value, del: seq<nat>,
                       r2: (Table, seq<nat>))
    requires LoopIf(stmts, !IsSetVar(t, vs.s) && IsSetVar(t, vs.p), PredicatePos, vs.p, t, vs, s, p, o, del) == Ok(r2)
    ensures SparqlEvaluation.LaterLoops(stmts, t, vs, s, p, o, del)
            == LoopIf(stmts, !IsSetVar(r2.0, vs.s) && !IsSetVar(r2.0, vs.p) && IsSetVar(r2.0, vs.o),
                      ObjectPos, vs.o, r2.0, vs, s, p, o, r2.1)
  {
  }

  /** One column of `formatArray`: its key, and its printed column unless
      that is empty. */
  lemma FormatStep(t: Table, i: nat)
    requires i < |t|
    ensures t[..i + 1] == t[..i] + [t[i]]
    ensures Keys(t[..i + 1]) == Keys(t[..i]) + [t[i].key]
  {
    assert t[..i + 1] == t[..i] + [t[i]];
  }

  lemma TextsStep(t: Table, i: nat, prev: seq<Entry<string, seq<string>>>, texts: seq<Entry<string, seq<string>>>)
    requires i < |t| && TextTable(t) == prev + TextTable(t[i..])
    requires var head := ColumnText(t[i].value.cells);
      texts == if head == [] then prev else prev + [Entry(t[i].key, head)]
    ensures TextTable(t) == texts + TextTable(t[i + 1..])
  {
    var head := ColumnText(t[i].value.cells);
    var rest := TextTable(t[i + 1..]);
    TextTableAt(t, i);
    if head == [] {
      assert [] + rest == rest;
    } else {
      Seqs.AppendAssoc(prev, [Entry(t[i].key, head)], rest);
    }
  }

  lemma TextTableAt(t: Table, i: nat)
    requires i < |t|
    ensures var head := ColumnText(t[i].value.cells);
      TextTable(t[i..]) == (if head == [] then [] else [Entry(t[i].key, head)]) + TextTable(t[i + 1..])
  {
    assert t[i..][0] == t[i] && t[i..][1..] == t[i + 1..];
  }

  class SparqlEngine {
    var queryString: string
    var query: QueryState
    var model: Store.Model?
    var processing: set<string>
    var processed: map<string, Cached>
    var resultTable: Table
    var pattern: Pattern

    /** The fields the table methods leave alone. */
    function Others(): (string, QueryState, Store.Model?, Pattern)
      reads this
    {
      (queryString, query, model, pattern)
    }

    /** The two maps of pattern building, as the specification threads them. */
    function Ctx(): PCtx
      reads this
    {
      PCtx(processing, processed)
    }

    constructor()
      ensures queryString == "" && query == EmptyQuery && model == null
      ensures processing == {} && processed == map[] && resultTable == [] && pattern == []
    {
      queryString := "";
      query := EmptyQuery;
      model := null;
      processing := {};
      processed := map[];
      resultTable := [];
      pattern := [];
    }

    /** `init()`: everything but the result table is cleared. */
    method Init()
      modifies this
      ensures queryString == "" && query == EmptyQuery && model == null
      ensures processing == {} && processed == map[] && pattern == []
      ensures resultTable == old(resultTable)
    {
      queryString := "";
      model := null;
      processed := map[];
      processing := {};
      query := EmptyQuery;
      pattern := [];
    }

    // -------------------------------------------------------------------
    // buildPattern

    /** `buildRecursiveTreePattern($var)` */
    method BuildRecursiveTreePattern(v: string) returns (r: Option<Branch>)
      requires IsVariable(v) || v !in processing
      modifies this
      ensures Others() == old(Others()) && resultTable == old(resultTable)
      ensures (r, Ctx()) == Build(query.whereTriples, v, old(Ctx()))
      decreases |KeySet(query.whereTriples) - processing|, 0
    {
      ghost var spec := Build(query.whereTriples, v, Ctx());
      if IsVariable(v) && v in processed {
        assert spec == (match processed[v] case LeafMark => None case Built(b) => Some(b), Ctx());
        match processed[v]
        case LeafMark => return None;
        case Built(b) => return Some(b);
      }
      if IsVariable(v) && v in processing {
        assert spec == (None, Ctx());
        return None;
      }
      var triples := TriplesOf(query.whereTriples, v);
      if triples == [] {
        assert spec == (None, Ctx().(processed := processed[v := LeafMark]));
        processed := processed[v := LeafMark];
        return None;
      }
      ShrinkMeasure(query.whereTriples, processing, v);
      BuildExpands(query.whereTriples, v, Ctx());
      processing := processing + {v};
      var built := BuildTriplesLoop(triples);
      processing := processing - {v};
      var b := Branch(v, built);
      processed := processed[v := Built(b)];
      r := Some(b);
    }

    /** The `foreach ($processTriples as $key => $triple)` loop of
        `buildRecursiveTreePattern`: a variable object is expanded, and a
        non-empty result replaces it. */
    method BuildTriplesLoop(triples: seq<WhereTriple>) returns (built: seq<PatternTriple>)
      modifies this
      ensures Others() == old(Others()) && resultTable == old(resultTable)
      ensures (built, Ctx()) == BuildTriples(query.whereTriples, triples, old(Ctx()))
      decreases |KeySet(query.whereTriples) - processing|, 1
    {
      ghost var wt := query.whereTriples;
      ghost var start := Ctx();
      built := [];
      var i := 0;
      assert triples[i..] == triples;
      while i < |triples|
        invariant 0 <= i <= |triples|
        invariant Others() == old(Others()) && resultTable == old(resultTable)
        invariant processing == start.processing
        invariant BuildTriples(wt, triples, start).0 == built + BuildTriples(wt, triples[i..], Ctx()).0
        invariant BuildTriples(wt, triples, start).1 == BuildTriples(wt, triples[i..], Ctx()).1
      {
        assert triples[i..][0] == triples[i] && triples[i..][1..] == triples[i + 1..];
        ghost var before := Ctx();
        BuildTriplesCons(wt, triples[i..], before);
        var t := triples[i];
        var obj := Leaf(t.obj);
        if t.obj.Var? && IsVariable(t.obj.name) {
          var c := BuildRecursiveTreePattern(t.obj.name);
          if c.Some? {
            obj := Nested(c.value);
          }
        }
        assert BuildObject(wt, t.obj, before) == (obj, Ctx());
        built := built + [PatternTriple(t.subject, t.pred, obj)];
        i := i + 1;
      }
      assert triples[i..] == [];
      assert BuildTriples(wt, [], Ctx()) == ([], Ctx());
      assert built + [] == built;
    }

    /** `buildPattern()`: each key not yet processed gets its branch; the two
        maps are cleared before and after. */
    method BuildPattern() returns (r: Pattern)
      modifies this
      ensures queryString == old(queryString) && query == old(query) && model == old(model)
      ensures resultTable == old(resultTable)
      ensures r == pattern == PatternFrom(query.whereTriples, query.whereTriples, old(pattern), StartCtx).0
      ensures processing == {} && processed == map[]
    {
      processed := map[];
      processing := {};
      var wt := query.whereTriples;
      var i := 0;
      while i < |wt|
        invariant 0 <= i <= |wt|
        invariant queryString == old(queryString) && query == old(query) && model == old(model)
        invariant resultTable == old(resultTable)
        invariant processing == {}
        invariant PatternFrom(wt, wt[i..], pattern, Ctx()).0 == PatternFrom(wt, wt, old(pattern), StartCtx).0
      {
        assert wt[i..][0] == wt[i] && wt[i..][1..] == wt[i + 1..];
        var key := wt[i].key;
        if key !in processed {
          var b := BuildRecursiveTreePattern(key);
          pattern := Put(pattern, key, b);
        }
        i := i + 1;
      }
      assert wt[i..] == [];
      processed := map[];
      processing := {};
      r := pattern;
    }

    // -------------------------------------------------------------------
    // The result table

    /** `removeRow($row)` */
    method RemoveRow(row: nat)
      modifies this
      ensures Others() == old(Others()) && Ctx() == old(Ctx())
      ensures resultTable == SparqlTables.RemoveRow(old(resultTable), row)
    {
      ghost var t0 := resultTable;
      var i := 0;
      while i < |resultTable|
        invariant 0 <= i <= |resultTable| == |t0|
        invariant Others() == old(Others()) && Ctx() == old(Ctx())
        invariant forall j :: 0 <= j < i ==> resultTable[j] == Entry(t0[j].key, UnsetCell(t0[j].value, row))
        invariant forall j :: i <= j < |t0| ==> resultTable[j] == t0[j]
      {
        resultTable := resultTable[i := Entry(resultTable[i].key, UnsetCell(resultTable[i].value, row))];
        i := i + 1;
      }
    }

    /** The `$rowVars` loop of `processRow`. */
    method CollectRow(row: nat) returns (rv: Row)
      ensures rv == RowOf(resultTable, row)
    {
      rv := [];
      var i := 0;
      while i < |resultTable|
        invariant 0 <= i <= |resultTable|
        invariant rv == RowOf(resultTable, row)[..i]
      {
        rv := rv + [Entry(resultTable[i].key, CellAt(resultTable[i].value, row))];
        i := i + 1;
      }
    }

    /** `foreach ($rowVars as $key => $o) $this->resultTable[$key][] = $o` */
    method AppendRowVars(rv: Row)
      modifies this
      ensures Others() == old(Others()) && Ctx() == old(Ctx())
      ensures resultTable == AppendRow(old(resultTable), rv)
    {
      var i := 0;
      while i < |rv|
        invariant 0 <= i <= |rv|
        invariant Others() == old(Others()) && Ctx() == old(Ctx())
        invariant AppendRow(resultTable, rv[i..]) == AppendRow(old(resultTable), rv)
      {
        assert rv[i..][0] == rv[i] && rv[i..][1..] == rv[i + 1..];
        resultTable := AppendTableCell(resultTable, rv[i].key, rv[i].value);
        i := i + 1;
      }
      assert rv[i..] == [];
    }

    /** The one-match case of `processRow`: the row's cell of each variable
        is assigned, subject first. */
    method BindRow(row: nat, st: Statement, vs: Vars)
      modifies this
      ensures Others() == old(Others()) && Ctx() == old(Ctx())
      ensures resultTable == BindOne(old(resultTable), row, st, vs)
    {
      if IsVar(vs.s) {
        resultTable := SetTableCell(resultTable, vs.s.value, row, Some(st.subject));
      }
      if IsVar(vs.p) {
        resultTable := SetTableCell(resultTable, vs.p.value, row, Some(st.pred));
      }
      if IsVar(vs.o) {
        resultTable := SetTableCell(resultTable, vs.o.value, row, Some(st.obj));
      }
    }

    /** The several-matches case of `processRow`: the row is collected and
        removed, then rebound and appended once per match. */
    method DuplicateRow(row: nat, sts: seq<Statement>, vs: Vars)
      modifies this
      ensures Others() == old(Others()) && Ctx() == old(Ctx())
      ensures resultTable == Duplicate(SparqlTables.RemoveRow(old(resultTable), row), RowOf(old(resultTable), row), sts, vs)
    {
      var rowVars := CollectRow(row);
      RemoveRow(row);
      ghost var t1 := resultTable;
      ghost var rv0 := rowVars;
      var i := 0;
      while i < |sts|
        invariant 0 <= i <= |sts|
        invariant Others() == old(Others()) && Ctx() == old(Ctx())
        invariant Duplicate(resultTable, rowVars, sts[i..], vs) == Duplicate(t1, rv0, sts, vs)
      {
        assert sts[i..][0] == sts[i] && sts[i..][1..] == sts[i + 1..];
        if IsVar(vs.s) {
          rowVars := Put(rowVars, vs.s.value, Some(sts[i].subject));
        }
        if IsVar(vs.p) {
          rowVars := Put(rowVars, vs.p.value, Some(sts[i].pred));
        }
        if IsVar(vs.o) {
          rowVars := Put(rowVars, vs.o.value, Some(sts[i].obj));
        }
        AppendRowVars(rowVars);
        i := i + 1;
      }
      assert sts[i..] == [];
    }

    /** `processRow($row, $res, $sV, $pV, $oV)` */
    method ProcessRow(row: nat, res: Option<seq<Statement>>, vs: Vars) returns (ok: bool)
      modifies this
      ensures Others() == old(Others()) && Ctx() == old(Ctx())
      ensures (resultTable, ok) == ProcessRowSpec(old(resultTable), row, res, vs)
    {
      if res.None? || |res.value| == 0 {
        return false;
      }
      var sts := res.value;
      if |sts| == 1 {
        BindRow(row, sts[0], vs);
      }
      if |sts| > 1 && (IsVar(vs.s) || IsVar(vs.p) || IsVar(vs.o)) {
        DuplicateRow(row, sts, vs);
      }
      return true;
    }

    // -------------------------------------------------------------------
    // applyPatternRecusively

    /** `if ($this->isVariable($xV)) $this->resultTable[$xV] = array()`,
        subject first. */
    method ResetColumns(vs: Vars)
      modifies this
      ensures Others() == old(Others()) && Ctx() == old(Ctx())
      ensures resultTable == ResetVars(old(resultTable), vs)
    {
      if IsVar(vs.s) {
        resultTable := Put(resultTable, vs.s.value, EmptyColumn);
      }
      if IsVar(vs.p) {
        resultTable := Put(resultTable, vs.p.value, EmptyColumn);
      }
      if IsVar(vs.o) {
        resultTable := Put(resultTable, vs.o.value, EmptyColumn);
      }
    }

    /** One statement of the fill loop: `$this->resultTable[$xV][] = ...`
        for each variable, subject first. */
    method AppendParts(st: Statement, vs: Vars)
      modifies this
      ensures Others() == old(Others()) && Ctx() == old(Ctx())
      ensures resultTable == FillRow(old(resultTable), st, vs)
    {
      if IsVar(vs.s) {
        resultTable := AppendTableCell(resultTable, vs.s.value, Some(st.subject));
      }
      if IsVar(vs.p) {
        resultTable := AppendTableCell(resultTable, vs.p.value, Some(st.pred));
      }
      if IsVar(vs.o) {
        resultTable := AppendTableCell(resultTable, vs.o.value, Some(st.obj));
      }
    }

    /** Possibility (1) once the matches are found: the columns are emptied
        and filled from the matches in order. */
    method FillColumns(sts: seq<Statement>, vs: Vars)
      modifies this
      ensures Others() == old(Others()) && Ctx() == old(Ctx())
      ensures resultTable == FreshColumns(old(resultTable), sts, vs)
    {
      ResetColumns(vs);
      var i := 0;
      while i < |sts|
        invariant 0 <= i <= |sts|
        invariant Others() == old(Others()) && Ctx() == old(Ctx())
        invariant Fill(resultTable, sts[i..], vs) == FreshColumns(old(resultTable), sts, vs)
      {
        assert sts[i..][0] == sts[i] && sts[i..][1..] == sts[i + 1..];
        AppendParts(sts[i], vs);
        i := i + 1;
      }
      assert sts[i..] == [];
    }

    /** One `foreach ($this->resultTable[$xV] as $row => $x)` loop of
        possibility (2), over a copy of the column taken when it starts. */
    method JoinLoop(pos: Position, col: string, vs: Vars, s: Value, p: Value, o: Value, del: seq<nat>)
      returns (r: Result<seq<nat>>)
      requires model != null
      modifies this
      ensures Others() == old(Others()) && Ctx() == old(Ctx())
      ensures Outcome(RowLoop(model.statements, pos, ColumnOf(old(resultTable), col).cells, old(resultTable), vs, s, p, o, del),
                      r, resultTable)
    {
      var rows := ColumnOf(resultTable, col).cells;
      var d := del;
      var i := 0;
      while i < |rows|
        invariant 0 <= i <= |rows|
        invariant Others() == old(Others()) && Ctx() == old(Ctx())
        invariant RowLoop(model.statements, pos, rows[i..], resultTable, vs, s, p, o, d)
               == RowLoop(model.statements, pos, rows, old(resultTable), vs, s, p, o, del)
      {
        assert rows[i..][0] == rows[i] && rows[i..][1..] == rows[i + 1..];
        var row := rows[i].key;
        var args := RowArgs(pos, resultTable, row, rows[i].value, vs, s, p, o);
        if args.Some? {
          var res := model.Search(args.value.0, args.value.1, args.value.2);
          if res.Err? {
            return Err(res.message);
          }
          var kept := ProcessRow(row, res.value, vs);
          if !kept {
            d := d + [row];
          }
        }
        i := i + 1;
      }
      assert rows[i..] == [];
      r := Ok(d);
    }
  
    /** A join loop, run when its condition holds on the current table. */
    method GuardedJoinLoop(cond: bool, pos: Position, ov: Option<string>, vs: Vars, s: Value, p: Value, o: Value,
                           del: seq<nat>) returns (r: Result<seq<nat>>)
      requires model != null && (cond ==> IsVar(ov))
      modifies this
      ensures Others() == old(Others()) && Ctx() == old(Ctx())
      ensures Outcome(LoopIf(model.statements, cond, pos, ov, old(resultTable), vs, s, p, o, del), r, resultTable)
    {
      if cond {
        r := JoinLoop(pos, ov.value, vs, s, p, o, del);
      } else {
        r := Ok(del);
      }
    }

    /** The three guarded loops of possibility (2), collecting the rows to
        delete. */
    method JoinLoops(vs: Vars, s: Value, p: Value, o: Value) returns (r: Result<seq<nat>>)
      requires model != null
      modifies this
      ensures Others() == old(Others()) && Ctx() == old(Ctx())
      ensures Outcome(SparqlEvaluation.JoinLoops(model.statements, old(resultTable), vs, s, p, o), r, resultTable)
    {
      var l1 := GuardedJoinLoop(IsSetVar(resultTable, vs.s), SubjectPos, vs.s, vs, s, p, o, []);
      if l1.Err? {
        return Err(l1.message);
      }
      r := LaterLoops(vs, s, p, o, l1.value);
    }

    /** The predicate and object loops of possibility (2). */
    method LaterLoops(vs: Vars, s: Value, p: Value, o: Value, del: seq<nat>) returns (r: Result<seq<nat>>)
      requires model != null
      modifies this
      ensures Others() == old(Others()) && Ctx() == old(Ctx())
      ensures Outcome(SparqlEvaluation.LaterLoops(model.statements, old(resultTable), vs, s, p, o, del), r, resultTable)
    {
      var l2 := GuardedJoinLoop(!IsSetVar(resultTable, vs.s) && IsSetVar(resultTable, vs.p), PredicatePos, vs.p,
                                vs, s, p, o, del);
      if l2.Err? {
        return Err(l2.message);
      }
      ghost var r2 := (resultTable, l2.value);
      LaterLoopsStep(model.statements, old(resultTable), vs, s, p, o, del, r2);
      r := ObjectLoop(vs, s, p, o, l2.value);
    }

    /** The object loop of possibility (2). */
    method ObjectLoop(vs: Vars, s: Value, p: Value, o: Value, del: seq<nat>) returns (r: Result<seq<nat>>)
      requires model != null
      modifies this
      ensures Others() == old(Others()) && Ctx() == old(Ctx())
      ensures Outcome(LoopIf(model.statements,
                             !IsSetVar(old(resultTable), vs.s) && !IsSetVar(old(resultTable), vs.p)
                             && IsSetVar(old(resultTable), vs.o),
                             ObjectPos, vs.o, old(resultTable), vs, s, p, o, del), r, resultTable)
    {
      r := GuardedJoinLoop(!IsSetVar(resultTable, vs.s) && !IsSetVar(resultTable, vs.p) && IsSetVar(resultTable, vs.o),
                           ObjectPos, vs.o, vs, s, p, o, del);
    }

    /** `foreach ($deleteRows as $row) $this->removeRow($row)` */
    method RemoveRows(rows: seq<nat>)
      modifies this
      ensures Others() == old(Others()) && Ctx() == old(Ctx())
      ensures resultTable == SparqlEvaluation.RemoveRows(old(resultTable), rows)
    {
      var i := 0;
      assert rows[i..] == rows;
      while i < |rows|
        invariant 0 <= i <= |rows|
        invariant Others() == old(Others()) && Ctx() == old(Ctx())
        invariant SparqlEvaluation.RemoveRows(resultTable, rows[i..]) == SparqlEvaluation.RemoveRows(old(resultTable), rows)
      {
        assert rows[i..][0] == rows[i] && rows[i..][1..] == rows[i + 1..];
        RemoveRow(rows[i]);
        i := i + 1;
      }
      assert rows[i..] == [];
    }

    /** Possibility (2): the loops, then the rows they queued are removed. */
    method Join(vs: Vars, s: Value, p: Value, o: Value) returns (r: Result<()>)
      requires model != null
      modifies this
      ensures Others() == old(Others()) && Ctx() == old(Ctx())
      ensures match SparqlEvaluation.Join(model.statements, old(resultTable), vs, s, p, o)
              case Ok(t) => r == Ok(()) && resultTable == t
              case Err(m) => r == Err(m)
    {
      var deleteRows := JoinLoops(vs, s, p, o);
      if deleteRows.Err? {
        return Err(deleteRows.message);
      }
      if |deleteRows.value| >= 1 {
        RemoveRows(deleteRows.value);
      }
      r := Ok(());
    }

    /** One triple of a branch: possibility (1) when none of its variables
        has a column, possibility (2) otherwise. */
    method ApplyTriple(vs: Vars, s: Value, p: Value, o: Value) returns (r: Result<bool>)
      requires model != null
      modifies this
      ensures Others() == old(Others()) && Ctx() == old(Ctx())
      ensures Outcome(SparqlEvaluation.ApplyTriple(model.statements, old(resultTable), vs, s, p, o), r, resultTable)
    {
      if !IsSetVar(resultTable, vs.s) && !IsSetVar(resultTable, vs.p) && !IsSetVar(resultTable, vs.o) {
        r := ApplyFresh(vs, s, p, o);
      } else {
        r := ApplyJoined(vs, s, p, o);
      }
    }

    /** Possibility (2) of `applyTriple`: the join with the columns set. */
    method ApplyJoined(vs: Vars, s: Value, p: Value, o: Value) returns (r: Result<bool>)
      requires model != null && !NoneSet(resultTable, vs)
      modifies this
      ensures Others() == old(Others()) && Ctx() == old(Ctx())
      ensures Outcome(SparqlEvaluation.ApplyTriple(model.statements, old(resultTable), vs, s, p, o), r, resultTable)
    {
      var joined := Join(vs, s, p, o);
      if joined.Err? {
        return Err(joined.message);
      }
      r := Ok(true);
    }

    /** Possibility (1) of `applyTriple`: the matches start fresh columns. */
    method ApplyFresh(vs: Vars, s: Value, p: Value, o: Value) returns (r: Result<bool>)
      requires model != null && NoneSet(resultTable, vs)
      modifies this
      ensures Others() == old(Others()) && Ctx() == old(Ctx())
      ensures Outcome(SparqlEvaluation.ApplyTriple(model.statements, old(resultTable), vs, s, p, o), r, resultTable)
    {
      var res := model.Search(s, p, o);
      if res.Err? {
        return Err(res.message);
      }
      if res.value.None? || res.value.value == [] {
        return Ok(false);
      }
      FillColumns(res.value.value, vs);
      return Ok(true);
    }

    /** `applyPatternRecusively($branch)` */
    method ApplyPatternRecursively(b: Branch) returns (r: Result<bool>)
      requires model != null
      modifies this
      ensures Others() == old(Others()) && Ctx() == old(Ctx())
      ensures Outcome(ApplyBranch(model.statements, old(resultTable), b), r, resultTable)
      decreases b
    {
      ghost var stmts := model.statements;
      ghost var t0 := resultTable;
      var i := 0;
      while i < |b.triples|
        invariant 0 <= i <= |b.triples|
        invariant Others() == old(Others()) && Ctx() == old(Ctx())
        invariant ApplyTriples(stmts, resultTable, b, i) == ApplyBranch(stmts, t0, b)
      {
        ghost var before := resultTable;
        var pt := b.triples[i];
        var (s, sV) := Resolve(pt.subject);
        var (p, pV) := Resolve(pt.pred);
        var vs: Vars;
        var o: Value;
        match pt.obj {
          case Nested(c) =>
            var rc := ApplyPatternRecursively(c);
            if rc.Err? {
              return Err(rc.message);
            }
            if !rc.value {
              return Ok(false);
            }
            vs, o := Vars(sV, pV, Some(c.variable)), Null;
          case Leaf(x) =>
            var (o1, oV) := Resolve(x);
            vs, o := Vars(sV, pV, oV), o1;
        }
        assert ApplyTriples(stmts, before, b, i) == ApplyRest(stmts, resultTable, b, i, vs, s, p, o);
        var rt := ApplyTriple(vs, s, p, o);
        if rt.Err? {
          return Err(rt.message);
        }
        if !rt.value {
          return Ok(false);
        }
        i := i + 1;
      }
      r := Ok(true);
    }

    /** `applyPattern($pattern)`: the table starts empty and every branch is
        applied to it in order, whatever each returns. */
    method ApplyPattern(pat: Pattern) returns (r: Result<Table>)
      requires model != null
      modifies this
      ensures Others() == old(Others()) && Ctx() == old(Ctx())
      ensures r == ApplyPatternSpec(model.statements, pat)
      ensures r.Ok? ==> resultTable == r.value
    {
      ghost var stmts := model.statements;
      resultTable := [];
      var i := 0;
      assert pat[i..] == pat;
      while i < |pat|
        invariant 0 <= i <= |pat|
        invariant Others() == old(Others()) && Ctx() == old(Ctx())
        invariant ApplyPatternFrom(stmts, resultTable, pat[i..]) == ApplyPatternSpec(stmts, pat)
      {
        assert pat[i..][0] == pat[i] && pat[i..][1..] == pat[i + 1..];
        match pat[i].value {
          case None =>
          case Some(branch) =>
            var applied := ApplyPatternRecursively(branch);
            if applied.Err? {
              return Err(applied.message);
            }
        }
        i := i + 1;
      }
      assert pat[i..] == [];
      r := Ok(resultTable);
    }

    // -------------------------------------------------------------------
    // filterBySelect, format, query

    /** `filterBySelect($unfilteredResult)`: every column not named as a
        result variable is unset from the copy. */
    method FilterBySelect(t: Table) returns (r: Table)
      ensures r == Filter(t, query.resultVariables)
    {
      var resultVars := query.resultVariables;
      r := [];
      var i := 0;
      assert t[i..] == t;
      while i < |t|
        invariant 0 <= i <= |t|
        invariant Filter(t, resultVars) == r + Filter(t[i..], resultVars)
      {
        assert t[i..][0] == t[i] && t[i..][1..] == t[i + 1..];
        if t[i].key in Keys(resultVars) {
          r := r + [t[i]];
        }
        i := i + 1;
      }
      assert t[i..] == [];
    }

    /** The inner loop of `formatArray`: one string per node of the column. */
    method ColumnStrings(cells: seq<Entry<nat, Cell>>) returns (texts: seq<string>)
      ensures texts == ColumnText(cells)
    {
      texts := [];
      var i := 0;
      assert cells[i..] == cells;
      while i < |cells|
        invariant 0 <= i <= |cells|
        invariant ColumnText(cells) == texts + ColumnText(cells[i..])
      {
        assert cells[i..][0] == cells[i] && cells[i..][1..] == cells[i + 1..];
        assert ColumnText(cells[i..]) == CellText(cells[i].value) + ColumnText(cells[i + 1..]);
        ghost var prev := texts;
        match cells[i].value {
          case None =>
          case Some(BlankNode(id)) => texts := texts + ["_:" + id];
          case Some(LiteralNode(lit, _, _)) => texts := texts + [lit];
          case Some(Resource(uri)) => texts := texts + [uri];
        }
        assert texts == prev + CellText(cells[i].value);
        Seqs.AppendAssoc(prev, CellText(cells[i].value), ColumnText(cells[i + 1..]));
        i := i + 1;
      }
      assert cells[i..] == [];
    }

    /** `formatArray($res, $stringify)` */
    method FormatArray(t: Table, stringify: bool) returns (variables: seq<string>, table: FormattedTable)
      ensures variables == Keys(t)
      ensures table == if stringify then Strings(TextTable(t)) else Objects(t)
    {
      variables := [];
      var texts: seq<Entry<string, seq<string>>> := [];
      var columns: Table := [];
      var i := 0;
      assert t[i..] == t;
      while i < |t|
        invariant 0 <= i <= |t|
        invariant variables == Keys(t[..i]) && columns == t[..i]
        invariant stringify ==> TextTable(t) == texts + TextTable(t[i..])
      {
        FormatStep(t, i);
        variables := variables + [t[i].key];
        if stringify {
          var strings := ColumnStrings(t[i].value.cells);
          ghost var prev := texts;
          if strings != [] {
            texts := texts + [Entry(t[i].key, strings)];
          }
          TextsStep(t, i, prev, texts);
        }
        columns := columns + [t[i]];
        i := i + 1;
      }
      assert t[i..] == [] && t[..i] == t;
      table := if stringify then Strings(texts) else Objects(columns);
    }

    /** `format($res, $format)`: "objectarray" keeps the nodes, "array" and
        every other format print them. */
    method Format(t: Table, format: string) returns (variables: seq<string>, table: FormattedTable)
      ensures forall text :: Formatted(variables, table, text) == FormatSpec(t, format, text)
    {
      if format == "array" {
        variables, table := FormatArray(t, true);
      } else if format == "objectarray" {
        variables, table := FormatArray(t, false);
      } else {
        variables, table := FormatArray(t, true);
      }
    }

    /** `querySelect()`: build the pattern, apply it, filter by the SELECT
        variables. */
    method QuerySelect() returns (r: Result<Table>)
      requires model != null
      modifies this
      ensures queryString == old(queryString) && query == old(query) && model == old(model)
      ensures r == match ApplyPatternSpec(model.statements,
                                          PatternFrom(query.whereTriples, query.whereTriples, old(pattern), StartCtx).0)
                   case Ok(t) => Ok(Filter(t, query.resultVariables))
                   case Err(m) => Err(m)
    {
      var pat := BuildPattern();
      var applied := ApplyPattern(pat);
      if applied.Err? {
        return Err(applied.message);
      }
      var filtered := FilterBySelect(applied.value);
      r := Ok(filtered);
    }

    /** `query($queryString, $model, $format)`: the engine is reset, the text
        parsed, a SELECT query evaluated and the result formatted, with the
        query text added. */
    method Query(text: string, m: Store.Model, format: string) returns (r: Result<Formatted>)
      modifies this
      ensures r == QuerySpec(text, m.statements, format)
    {
      Init();
      queryString := text;
      model := m;
      var parsed := SparqlParsers.Parse(text);
      if parsed.Err? {
        return Err(parsed.message);
      }
      query := parsed.value.State();
      if query.form != Some(Select) {
        return Err(ArrayError);
      }
      var res := QuerySelect();
      if res.Err? {
        return Err(res.message);
      }
      var variables, table := Format(res.value, format);
      r := Ok(Formatted(variables, table, queryString));
    }
  }

  /** `SparqlEngine::doQuery($queryString, $model, $format)`: a fresh engine
      answers the query. */
  method DoQuery(text: string, m: Store.Model, format: string) returns (r: Result<Formatted>)
    ensures r == QuerySpec(text, m.statements, format)
  {
    var engine := new SparqlEngine();
    r := engine.Query(text, m, format);
  }
}
