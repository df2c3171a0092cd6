/** The evaluation half of `sparql/sparqlEngine/SparqlEngine.php` as
    functions: a pattern branch is applied triple by triple to the result
    table (`applyPatternRecusively`), a triple either starts fresh columns
    (possibility 1) or is joined row by row against the columns already
    there (possibility 2), and the final table is projected on the SELECT
    variables (`filterBySelect`) and formatted (`formatArray`). The store
    is the sequence of its statements; it does not change during a query. */
module SparqlEvaluation {
  import opened Wrappers
  import opened Terms
  import opened OrderedMaps
  import opened StoreSpec
  import opened SparqlQueries
  import opened SparqlTables
  import opened SparqlPatterns
  import SparqlParsers

  /** `format` throws when the query produced no array. */
  const ArrayError := SparqlError + "Array expected"

  // ---------------------------------------------------------------------
  // A triple's search arguments

  /** `$subject`/`$subjectVar` (likewise for predicate and object): a
      variable becomes a null argument and names its column; a node is the
      argument; any other text is passed on as it is. */
  function Resolve(x: Part): (r: (Value, Option<string>))
    ensures r.1.Some? <==> x.Var? && IsVariable(x.name)
    ensures r.1.Some? ==> r.0 == Null && r.1.value == x.name
  {
    match x
    case Var(n) => if IsVariable(n) then (Null, Some(n)) else (Str(n), None)
    case Fixed(node) => (Obj(Plain(node)), None)
  }

  /** A cell passed to `search`: a node, or null as a wildcard. */
  function CellValue(c: Cell): Value {
    match c
    case Some(n) => Obj(Plain(n))
    case None => Null
  }

  /** `isSetVar($var)`: a variable with a column. */
  predicate IsSetVar(t: Table, ov: Option<string>) {
    IsVar(ov) && Lookup(t, ov.value).Some?
  }

  /** The column whose rows a join loop walks. */
  datatype Position = SubjectPos | PredicatePos | ObjectPos

  /** The search arguments for one row of a join loop, from the row's cell
      `x` of the walked column and the current table: a set variable
      contributes its cell in that row. None when the subject, predicate
      and object columns are all set and the object cell is already set
      (possibility 4: nothing to search). */
  function RowArgs(pos: Position, t: Table, row: nat, x: Cell, vs: Vars, s: Value, p: Value, o: Value)
    : (r: Option<(Value, Value, Value)>)
    ensures r.None? ==> pos == SubjectPos && IsSetVar(t, vs.p) && IsSetVar(t, vs.o)
  {
    match pos
    case SubjectPos =>
      if IsSetVar(t, vs.p) then
        var pv := CellValue(CellAt(ColumnOf(t, vs.p.value), row));
        if IsSetVar(t, vs.o) then
          if IsSetCell(ColumnOf(t, vs.o.value), row) then None else Some((CellValue(x), pv, o))
        else Some((CellValue(x), pv, o))
      else if IsSetVar(t, vs.o) then Some((CellValue(x), p, CellValue(CellAt(ColumnOf(t, vs.o.value), row))))
      else Some((CellValue(x), p, o))
    case PredicatePos =>
      if IsSetVar(t, vs.o) then Some((s, CellValue(x), CellValue(CellAt(ColumnOf(t, vs.o.value), row))))
      else Some((s, CellValue(x), o))
    case ObjectPos => Some((s, p, CellValue(x)))
  }

  /** One turn of a join loop: the row `x` of the walked column is searched
      and handed to `processRow`. The result is the table that turn leaves
      and whether the row is queued in `$deleteRows`. */
  function RowTurn(stmts: seq<Statement>, pos: Position, x: Entry<nat, Cell>, t: Table, vs: Vars,
                   s: Value, p: Value, o: Value): (r: Result<(Table, bool)>)
    ensures r.Err? <==> RowArgs(pos, t, x.key, x.value, vs, s, p, o).Some?
                        && SearchSpec(stmts, RowArgs(pos, t, x.key, x.value, vs, s, p, o).value.0,
                                      RowArgs(pos, t, x.key, x.value, vs, s, p, o).value.1,
                                      RowArgs(pos, t, x.key, x.value, vs, s, p, o).value.2).Err?
    ensures r.Ok? ==>
      (r.value.1 <==>
         (&& RowArgs(pos, t, x.key, x.value, vs, s, p, o).Some?
          && NoMatches(SearchSpec(stmts, RowArgs(pos, t, x.key, x.value, vs, s, p, o).value.0,
                                  RowArgs(pos, t, x.key, x.value, vs, s, p, o).value.1,
                                  RowArgs(pos, t, x.key, x.value, vs, s, p, o).value.2).value)))
    ensures r.Ok? && r.value.1 ==> r.value.0 == t
  {
    match RowArgs(pos, t, x.key, x.value, vs, s, p, o)
    case None => Ok((t, false))
    case Some(a) =>
      match SearchSpec(stmts, a.0, a.1, a.2)
      case Err(m) => Err(m)
      case Ok(res) =>
        var pr := ProcessRowSpec(t, x.key, res, vs);
        Ok((pr.0, !pr.1))
  }

  /** One `foreach ($this->resultTable[$xV] as $row => $x)` loop over a
      snapshot of the walked column: each row takes its turn, and a row the
      turn rejects is queued in `$deleteRows`. */
  function RowLoop(stmts: seq<Statement>, pos: Position, rows: seq<Entry<nat, Cell>>, t: Table, vs: Vars,
                   s: Value, p: Value, o: Value, del: seq<nat>): (r: Result<(Table, seq<nat>)>)
    ensures r.Ok? ==> |r.value.1| >= |del| && r.value.1[..|del|] == del
    ensures r.Ok? ==> forall j :: |del| <= j < |r.value.1| ==> r.value.1[j] in Keys(rows)
    decreases |rows|
  {
    if rows == [] then Ok((t, del))
    else
      var row := rows[0].key;
      assert Keys(rows) == [row] + Keys(rows[1..]);
      match RowTurn(stmts, pos, rows[0], t, vs, s, p, o)
      case Err(m) => Err(m)
      case Ok(tr) =>
        var del1 := if tr.1 then del + [row] else del;
        var r := RowLoop(stmts, pos, rows[1..], tr.0, vs, s, p, o, del1);
        if r.Ok? then
          DeleteExtends(del, del1, r.value.1, row, Keys(rows[1..]));
          r
        else r
  }

  /** Queuing at most one more row before the rest of the loop keeps the
      queue so far as a prefix. */
  lemma DeleteExtends(del: seq<nat>, del1: seq<nat>, out: seq<nat>, row: nat, later: seq<nat>)
    requires del1 == del || del1 == del + [row]
    requires |out| >= |del1| && out[..|del1|] == del1
    requires forall j :: |del1| <= j < |out| ==> out[j] in later
    ensures |out| >= |del| && out[..|del|] == del
    ensures forall j :: |del| <= j < |out| ==> out[j] in [row] + later
  {
    assert out[..|del|] == del1[..|del|];
    forall j | |del| <= j < |out|
      ensures out[j] in [row] + later
    {
      if j < |del1| {
        assert out[j] == del1[j] == row;
      }
    }
  }

  /** `foreach ($deleteRows as $row) $this->removeRow($row)` */
  function RemoveRows(t: Table, rows: seq<nat>): Table
    decreases |rows|
  {
    if rows == [] then t else RemoveRows(RemoveRow(t, rows[0]), rows[1..])
  }

  /** A join loop, when its condition holds on the current table. */
  function LoopIf(stmts: seq<Statement>, cond: bool, pos: Position, ov: Option<string>, t: Table, vs: Vars,
                  s: Value, p: Value, o: Value, del: seq<nat>): Result<(Table, seq<nat>)>
    requires cond ==> IsVar(ov)
  {
    if cond then RowLoop(stmts, pos, ColumnOf(t, ov.value).cells, t, vs, s, p, o, del) else Ok((t, del))
  }

  /** Possibility (2): the subject loop, then the predicate loop, then the
      object loop, each guarded on the table as the previous one left it. */
  function JoinLoops(stmts: seq<Statement>, t: Table, vs: Vars, s: Value, p: Value, o: Value)
    : Result<(Table, seq<nat>)>
  {
    match LoopIf(stmts, IsSetVar(t, vs.s), SubjectPos, vs.s, t, vs, s, p, o, [])
    case Err(m) => Err(m)
    case Ok(r1) => LaterLoops(stmts, r1.0, vs, s, p, o, r1.1)
  }

  /** The predicate and object loops of possibility (2). */
  function LaterLoops(stmts: seq<Statement>, t: Table, vs: Vars, s: Value, p: Value, o: Value, del: seq<nat>)
    : Result<(Table, seq<nat>)>
  {
    match LoopIf(stmts, !IsSetVar(t, vs.s) && IsSetVar(t, vs.p), PredicatePos, vs.p, t, vs, s, p, o, del)
    case Err(m) => Err(m)
    case Ok(r2) =>
      LoopIf(stmts, !IsSetVar(r2.0, vs.s) && !IsSetVar(r2.0, vs.p) && IsSetVar(r2.0, vs.o),
             ObjectPos, vs.o, r2.0, vs, s, p, o, r2.1)
  }

  /** The loops, then the removal of the rows they queued. */
  function Join(stmts: seq<Statement>, t: Table, vs: Vars, s: Value, p: Value, o: Value): Result<Table> {
    match JoinLoops(stmts, t, vs, s, p, o)
    case Err(m) => Err(m)
    case Ok(r3) => Ok(RemoveRows(r3.0, r3.1))
  }

  /** None of the triple's variables has a column yet. */
  predicate NoneSet(t: Table, vs: Vars) {
    !IsSetVar(t, vs.s) && !IsSetVar(t, vs.p) && !IsSetVar(t, vs.o)
  }

  /** A search result with nothing in it. */
  predicate NoMatches(res: Option<seq<Statement>>) {
    res.None? || res.value == []
  }

  /** One triple against the table: with no variable set, a search whose
      matches start fresh columns, or false when there are none; otherwise
      the join, which never returns false. */
  function ApplyTriple(stmts: seq<Statement>, t: Table, vs: Vars, s: Value, p: Value, o: Value)
    : (r: Result<(Table, bool)>)
    ensures r.Ok? && !r.value.1 ==> r.value.0 == t
    ensures r.Ok? ==> (!r.value.1 <==> NoneSet(t, vs) && SearchSpec(stmts, s, p, o).Ok?
                                        && NoMatches(SearchSpec(stmts, s, p, o).value))
  {
    if NoneSet(t, vs) then
      match SearchSpec(stmts, s, p, o)
      case Err(m) => Err(m)
      case Ok(res) =>
        if res.None? || res.value == [] then Ok((t, false)) else Ok((FreshColumns(t, res.value, vs), true))
    else
      match Join(stmts, t, vs, s, p, o)
      case Err(m) => Err(m)
      case Ok(t1) => Ok((t1, true))
  }

  // ---------------------------------------------------------------------
  // applyPatternRecusively and applyPattern

  /** `applyPatternRecusively($branch)`: the triples in order; false from
      a triple or from a nested branch ends the branch with false, leaving
      the table as it stands. */
  function ApplyBranch(stmts: seq<Statement>, t: Table, b: Branch): (r: Result<(Table, bool)>)
    decreases b, 1
  {
    ApplyTriples(stmts, t, b, 0)
  }

  function ApplyTriples(stmts: seq<Statement>, t: Table, b: Branch, i: nat): (r: Result<(Table, bool)>)
    decreases b, 0, |b.triples| - i, 1
  {
    if i >= |b.triples| then Ok((t, true))
    else
      var pt := b.triples[i];
      var (s, sV) := Resolve(pt.subject);
      var (p, pV) := Resolve(pt.pred);
      match pt.obj
      case Nested(c) =>
        (match ApplyBranch(stmts, t, c)
         case Err(m) => Err(m)
         case Ok(rc) =>
           if !rc.1 then Ok((rc.0, false))
           else ApplyRest(stmts, rc.0, b, i, Vars(sV, pV, Some(c.variable)), s, p, Null))
      case Leaf(x) =>
        var (o, oV) := Resolve(x);
        ApplyRest(stmts, t, b, i, Vars(sV, pV, oV), s, p, o)
  }

  /** Triple `i` searched with its arguments, then the triples after it. */
  function ApplyRest(stmts: seq<Statement>, t: Table, b: Branch, i: nat, vs: Vars, s: Value, p: Value, o: Value)
    : (r: Result<(Table, bool)>)
    requires i < |b.triples|
    decreases b, 0, |b.triples| - i, 0
  {
    match ApplyTriple(stmts, t, vs, s, p, o)
    case Err(m) => Err(m)
    case Ok(rt) => if !rt.1 then Ok((rt.0, false)) else ApplyTriples(stmts, rt.0, b, i + 1)
  }

  /** `applyPattern($pattern)`: every branch from an empty table, in
      order, each result kept whatever its truth value; a null branch
      leaves the table alone. */
  function ApplyPatternFrom(stmts: seq<Statement>, t: Table, pat: Pattern): Result<Table>
    decreases |pat|
  {
    if pat == [] then Ok(t)
    else match pat[0].value
      case None => ApplyPatternFrom(stmts, t, pat[1..])
      case Some(b) =>
        match ApplyBranch(stmts, t, b)
        case Err(m) => Err(m)
        case Ok(r) => ApplyPatternFrom(stmts, r.0, pat[1..])
  }

  function ApplyPatternSpec(stmts: seq<Statement>, pat: Pattern): Result<Table> {
    ApplyPatternFrom(stmts, [], pat)
  }

  // ---------------------------------------------------------------------
  // filterBySelect, format

  /** `filterBySelect`: the columns named as result variables, in order,
      unchanged. */
  function Filter(t: Table, resultVars: seq<Entry<string, string>>): (r: Table)
    decreases |t|
  {
    if t == [] then []
    else (if t[0].key in Keys(resultVars) then [t[0]] else []) + Filter(t[1..], resultVars)
  }

  /** One node as `formatArray` prints it. */
  function NodeText(n: Node): string {
    match n
    case BlankNode(id) => "_:" + id
    case LiteralNode(lit, _, _) => lit
    case Resource(uri) => uri
  }

  /** A null cell prints nothing. */
  function CellText(c: Cell): seq<string> {
    match c
    case None => []
    case Some(n) => [NodeText(n)]
  }

  function ColumnText(cells: seq<Entry<nat, Cell>>): seq<string>
    decreases |cells|
  {
    if cells == [] then [] else CellText(cells[0].value) + ColumnText(cells[1..])
  }

  /** `$array["table"]` in "array" mode: a column gets an entry with its
      first printed node. */
  function TextTable(t: Table): seq<Entry<string, seq<string>>>
    decreases |t|
  {
    if t == [] then []
    else
      var text := ColumnText(t[0].value.cells);
      (if text == [] then [] else [Entry(t[0].key, text)]) + TextTable(t[1..])
  }

  datatype FormattedTable = Strings(texts: seq<Entry<string, seq<string>>>) | Objects(columns: Table)

  /** The array `query` returns: "variables", "table" and "query" (the
      "time" entry is not modelled). */
  datatype Formatted = Formatted(variables: seq<string>, table: FormattedTable, query: string)

  /** `format($res, $format)` followed by the "query" entry: "objectarray"
      keeps the columns as they are, any other format prints them. */
  function FormatSpec(t: Table, format: string, text: string): (r: Formatted)
    ensures r.variables == Keys(t) && r.query == text
  {
    if format == "objectarray" then Formatted(Keys(t), Objects(t), text)
    else Formatted(Keys(t), Strings(TextTable(t)), text)
  }

  /** `query($queryString, $model, $format)` on the statements of the
      model: parse (every form but SELECT is refused there), build the
      pattern, apply it, project, format. */
  function QuerySpec(text: string, stmts: seq<Statement>, format: string): (r: Result<Formatted>)
    ensures r.Ok? ==> r.value.query == text
  {
    match SparqlParsers.ParseSpec(text)
    case Err(m) => Err(m)
    case Ok(q) =>
      if q.form != Some(Select) then Err(ArrayError)
      else
        match ApplyPatternSpec(stmts, BuildPatternSpec(q.whereTriples))
        case Err(m) => Err(m)
        case Ok(t) => Ok(FormatSpec(Filter(t, q.resultVariables), format, text))
  }

  // ---------------------------------------------------------------------
  // Properties

  /** Possibility (1) with matches: a variable that occurs once in the
      triple gets a column with one entry per match, keyed 0, 1, ..., each
      the part of that same match; every match is a stored statement that
      matches the triple's arguments. */
  lemma FreshTriple(stmts: seq<Statement>, t: Table, vs: Vars, s: Value, p: Value, o: Value, k: string)
    requires NoneSet(t, vs) && OnePosition(vs, k)
    requires ApplyTriple(stmts, t, vs, s, p, o).Ok? && ApplyTriple(stmts, t, vs, s, p, o).value.1
    ensures SearchSpec(stmts, s, p, o).Ok? && SearchSpec(stmts, s, p, o).value.Some?
    ensures var res := SearchSpec(stmts, s, p, o).value.value;
      var c := ColumnOf(ApplyTriple(stmts, t, vs, s, p, o).value.0, k);
      && |c.cells| == |res| > 0
      && forall i :: 0 <= i < |res| ==>
           c.cells[i] == Entry(i, Binding(res[i], k, vs).value) && res[i] in stmts && Matches(res[i], s, p, o)
  {
    var res := SearchSpec(stmts, s, p, o).value.value;
    FreshColumnOnce(t, res, vs, k);
  }

  /** The branch of the triple `?x ?y ?z` on a non-empty store succeeds
      with the fresh columns of all the stored statements. */
  lemma AllVariablesTable(stmts: seq<Statement>, x: string, y: string, z: string)
    requires stmts != [] && IsVariable(x) && IsVariable(y) && IsVariable(z)
    ensures ApplyBranch(stmts, [], Branch(x, [PatternTriple(Var(x), Var(y), Leaf(Var(z)))]))
         == Ok((FreshColumns([], stmts, Vars(Some(x), Some(y), Some(z))), true))
  {
    var vs := Vars(Some(x), Some(y), Some(z));
    assert SearchSpec(stmts, Null, Null, Null) == Ok(Some(stmts)) by { WildcardMatchesAll(stmts); }
    var t1 := FreshColumns([], stmts, vs);
    var b := Branch(x, [PatternTriple(Var(x), Var(y), Leaf(Var(z)))]);
    assert NoneSet([], vs);
    assert ApplyTriple(stmts, [], vs, Null, Null, Null) == Ok((t1, true));
    assert ApplyTriples(stmts, t1, b, 1) == Ok((t1, true));
    assert Resolve(Var(x)) == (Null, Some(x)) && Resolve(Var(y)) == (Null, Some(y)) && Resolve(Var(z)) == (Null, Some(z));
    assert ApplyRest(stmts, [], b, 0, vs, Null, Null, Null) == Ok((t1, true));
    assert ApplyTriples(stmts, [], b, 0) == Ok((t1, true));
  }

  /** The triple `?x ?y ?z` on a non-empty store: three columns with one
      row per stored statement, in store order, holding its subject,
      predicate and object. */
  lemma AllVariablesBranch(stmts: seq<Statement>, x: string, y: string, z: string)
    requires stmts != []
    requires IsVariable(x) && IsVariable(y) && IsVariable(z) && x != y && y != z && x != z
    ensures var r := ApplyBranch(stmts, [], Branch(x, [PatternTriple(Var(x), Var(y), Leaf(Var(z)))]));
      && r.Ok? && r.value.1
      && |ColumnOf(r.value.0, x).cells| == |ColumnOf(r.value.0, y).cells| == |ColumnOf(r.value.0, z).cells| == |stmts|
      && forall i :: 0 <= i < |stmts| ==>
           && ColumnOf(r.value.0, x).cells[i] == Entry(i, Some(stmts[i].subject))
           && ColumnOf(r.value.0, y).cells[i] == Entry(i, Some(stmts[i].pred))
           && ColumnOf(r.value.0, z).cells[i] == Entry(i, Some(stmts[i].obj))
  {
    var vs := Vars(Some(x), Some(y), Some(z));
    AllVariablesTable(stmts, x, y, z);
    FreshColumnOnce([], stmts, vs, x);
    FreshColumnOnce([], stmts, vs, y);
    FreshColumnOnce([], stmts, vs, z);
  }

  /** A nested sub-pattern that fails ends its enclosing branch with false,
      with the table as the sub-pattern left it. */
  lemma NestedFailure(stmts: seq<Statement>, t: Table, b: Branch, i: nat)
    requires i < |b.triples| && b.triples[i].obj.Nested?
    requires ApplyBranch(stmts, t, b.triples[i].obj.branch).Ok? && !ApplyBranch(stmts, t, b.triples[i].obj.branch).value.1
    ensures ApplyTriples(stmts, t, b, i) == Ok((ApplyBranch(stmts, t, b.triples[i].obj.branch).value.0, false))
  {
  }

  /** Removing the queued rows unsets each of them in every column; every
      other cell, the columns and their order stay. */
  lemma {:induction false} RemoveRowsSpec(t: Table, rows: seq<nat>, k: string)
    ensures Keys(RemoveRows(t, rows)) == Keys(t)
    ensures forall j :: j in rows ==> !IsSetCell(ColumnOf(RemoveRows(t, rows), k), j)
    ensures forall j :: j !in rows ==> Lookup(ColumnOf(RemoveRows(t, rows), k).cells, j) == Lookup(ColumnOf(t, k).cells, j)
    ensures ValidTable(t) ==> ValidTable(RemoveRows(t, rows))
    decreases |rows|
  {
    if rows != [] {
      var t1 := RemoveRow(t, rows[0]);
      RemoveRowSpec(t, rows[0], k);
      RemoveRowsSpec(t1, rows[1..], k);
      var r := RemoveRows(t, rows);
      assert r == RemoveRows(t1, rows[1..]);
      forall j | j in rows ensures !IsSetCell(ColumnOf(r, k), j) {
        if j !in rows[1..] {
          assert j == rows[0];
          assert Lookup(ColumnOf(r, k).cells, j) == None;
        }
      }
    }
  }

  // ---------------------------------------------------------------------
  // The rows a join deletes

  /** The table the rest of a join loop starts from once its first row has
      taken its turn. */
  function NextTable(stmts: seq<Statement>, pos: Position, rows: seq<Entry<nat, Cell>>, t: Table, vs: Vars,
                     s: Value, p: Value, o: Value): Table
    requires rows != []
  {
    match RowTurn(stmts, pos, rows[0], t, vs, s, p, o)
    case Err(_) => t
    case Ok(tr) => tr.0
  }

  /** The table row `k` of a join loop sees at its turn: the loop's table
      once the rows before it have been processed. */
  function TableBefore(stmts: seq<Statement>, pos: Position, rows: seq<Entry<nat, Cell>>, t: Table, vs: Vars,
                       s: Value, p: Value, o: Value, k: nat): Table
    decreases k
  {
    if k == 0 || rows == [] then t
    else TableBefore(stmts, pos, rows[1..], NextTable(stmts, pos, rows, t, vs, s, p, o), vs, s, p, o, k - 1)
  }

  /** Row `k` of a join loop is queued at its turn: by `RowTurn`'s
      contract, it was searched over the table it saw and the search found
      nothing, so `processRow` returned false for it. */
  predicate FoundNothing(stmts: seq<Statement>, pos: Position, rows: seq<Entry<nat, Cell>>, t: Table, vs: Vars,
                         s: Value, p: Value, o: Value, k: nat)
    requires k < |rows|
  {
    var tr := RowTurn(stmts, pos, rows[k], TableBefore(stmts, pos, rows, t, vs, s, p, o, k), vs, s, p, o);
    tr.Ok? && tr.value.1
  }

  /** One turn of a join loop: the first row is queued exactly when its
      search found nothing, and the rest of the loop goes on from the table
      that turn left. */
  lemma RowLoopStep(stmts: seq<Statement>, pos: Position, rows: seq<Entry<nat, Cell>>, t: Table,
                    vs: Vars, s: Value, p: Value, o: Value, del: seq<nat>)
    requires rows != [] && RowLoop(stmts, pos, rows, t, vs, s, p, o, del).Ok?
    ensures RowTurn(stmts, pos, rows[0], t, vs, s, p, o).Ok?
    ensures RowLoop(stmts, pos, rows, t, vs, s, p, o, del)
      == RowLoop(stmts, pos, rows[1..], NextTable(stmts, pos, rows, t, vs, s, p, o), vs, s, p, o,
                 if FoundNothing(stmts, pos, rows, t, vs, s, p, o, 0) then del + [rows[0].key] else del)
  {
    assert TableBefore(stmts, pos, rows, t, vs, s, p, o, 0) == t;
  }

  /** Row `k` sees, at its turn, what row `k - 1` of the rest of the loop
      sees once the first row has taken its turn. */
  lemma FoundNothingShift(stmts: seq<Statement>, pos: Position, rows: seq<Entry<nat, Cell>>, t: Table,
                          vs: Vars, s: Value, p: Value, o: Value, k: nat)
    requires 0 < k < |rows|
    ensures rows[k] == rows[1..][k - 1]
    ensures FoundNothing(stmts, pos, rows, t, vs, s, p, o, k)
      == FoundNothing(stmts, pos, rows[1..], NextTable(stmts, pos, rows, t, vs, s, p, o), vs, s, p, o, k - 1)
  {
    assert TableBefore(stmts, pos, rows, t, vs, s, p, o, k)
      == TableBefore(stmts, pos, rows[1..], NextTable(stmts, pos, rows, t, vs, s, p, o), vs, s, p, o, k - 1);
  }

  /** The rows a join loop queues for deletion, in the order it meets
      them: those whose search found nothing. */
  function Queued(stmts: seq<Statement>, pos: Position, rows: seq<Entry<nat, Cell>>, t: Table, vs: Vars,
                  s: Value, p: Value, o: Value): seq<nat>
    decreases |rows|
  {
    if rows == [] then []
    else
      var head := if FoundNothing(stmts, pos, rows, t, vs, s, p, o, 0) then [rows[0].key] else [];
      head + Queued(stmts, pos, rows[1..], NextTable(stmts, pos, rows, t, vs, s, p, o), vs, s, p, o)
  }

  /** The first row of a join loop, queued or not. */
  function Head(stmts: seq<Statement>, pos: Position, rows: seq<Entry<nat, Cell>>, t: Table, vs: Vars,
                s: Value, p: Value, o: Value): seq<nat>
    requires rows != []
  {
    if FoundNothing(stmts, pos, rows, t, vs, s, p, o, 0) then [rows[0].key] else []
  }

  /** One turn of a join loop in terms of `Head`: the loop goes on from
      the table the first row left, with `Head` queued. */
  lemma LoopStep(stmts: seq<Statement>, pos: Position, rows: seq<Entry<nat, Cell>>, t: Table,
                 vs: Vars, s: Value, p: Value, o: Value, del: seq<nat>)
    requires rows != [] && RowLoop(stmts, pos, rows, t, vs, s, p, o, del).Ok?
    ensures RowLoop(stmts, pos, rows, t, vs, s, p, o, del)
      == RowLoop(stmts, pos, rows[1..], NextTable(stmts, pos, rows, t, vs, s, p, o), vs, s, p, o,
                 del + Head(stmts, pos, rows, t, vs, s, p, o))
  {
    RowLoopStep(stmts, pos, rows, t, vs, s, p, o, del);
    if !FoundNothing(stmts, pos, rows, t, vs, s, p, o, 0) {
      assert del + Head(stmts, pos, rows, t, vs, s, p, o) == del;
    }
  }

  /** `Queued` is `Head` followed by the rows the rest of the loop queues. */
  lemma QueuedStep(stmts: seq<Statement>, pos: Position, rows: seq<Entry<nat, Cell>>, t: Table,
                   vs: Vars, s: Value, p: Value, o: Value)
    requires rows != []
    ensures Queued(stmts, pos, rows, t, vs, s, p, o)
      == Head(stmts, pos, rows, t, vs, s, p, o) + Queued(stmts, pos, rows[1..], NextTable(stmts, pos, rows, t, vs, s, p, o), vs, s, p, o)
  {
  }

  /** A join loop that succeeds appends exactly `Queued` to its queue. */
  lemma {:induction false} RowLoopQueued(stmts: seq<Statement>, pos: Position, rows: seq<Entry<nat, Cell>>, t: Table,
                                         vs: Vars, s: Value, p: Value, o: Value, del: seq<nat>)
    requires RowLoop(stmts, pos, rows, t, vs, s, p, o, del).Ok?
    ensures RowLoop(stmts, pos, rows, t, vs, s, p, o, del).value.1 == del + Queued(stmts, pos, rows, t, vs, s, p, o)
    decreases |rows|
  {
    if rows != [] {
      var t1 := NextTable(stmts, pos, rows, t, vs, s, p, o);
      var h := Head(stmts, pos, rows, t, vs, s, p, o);
      LoopStep(stmts, pos, rows, t, vs, s, p, o, del);
      QueuedStep(stmts, pos, rows, t, vs, s, p, o);
      RowLoopQueued(stmts, pos, rows[1..], t1, vs, s, p, o, del + h);
      QueueAppend(del, h, del + h, Queued(stmts, pos, rows[1..], t1, vs, s, p, o),
                  RowLoop(stmts, pos, rows[1..], t1, vs, s, p, o, del + h).value.1);
    }
  }

  /** Associativity of the queue, kept apart from the loop's definitions. */
  lemma QueueAppend(del: seq<nat>, head: seq<nat>, del1: seq<nat>, q: seq<nat>, out: seq<nat>)
    requires del1 == del + head && out == del1 + q
    ensures out == del + (head + q)
  {
  }

  /** Every row whose search found nothing is queued. */
  lemma {:induction false} QueuedHas(stmts: seq<Statement>, pos: Position, rows: seq<Entry<nat, Cell>>, t: Table,
                                     vs: Vars, s: Value, p: Value, o: Value, k: nat)
    requires k < |rows| && FoundNothing(stmts, pos, rows, t, vs, s, p, o, k)
    ensures rows[k].key in Queued(stmts, pos, rows, t, vs, s, p, o)
    decreases k
  {
    if k > 0 {
      FoundNothingShift(stmts, pos, rows, t, vs, s, p, o, k);
      QueuedHas(stmts, pos, rows[1..], NextTable(stmts, pos, rows, t, vs, s, p, o), vs, s, p, o, k - 1);
    }
  }

  /** Every queued row is one whose search found nothing. */
  lemma {:induction false} QueuedFrom(stmts: seq<Statement>, pos: Position, rows: seq<Entry<nat, Cell>>, t: Table,
                                      vs: Vars, s: Value, p: Value, o: Value, x: nat)
    requires x in Queued(stmts, pos, rows, t, vs, s, p, o)
    ensures exists k :: 0 <= k < |rows| && rows[k].key == x && FoundNothing(stmts, pos, rows, t, vs, s, p, o, k)
    decreases |rows|
  {
    var t1 := NextTable(stmts, pos, rows, t, vs, s, p, o);
    if FoundNothing(stmts, pos, rows, t, vs, s, p, o, 0) && x == rows[0].key {
    } else {
      assert x in Queued(stmts, pos, rows[1..], t1, vs, s, p, o);
      QueuedFrom(stmts, pos, rows[1..], t1, vs, s, p, o, x);
      var k' :| 0 <= k' < |rows[1..]| && rows[1..][k'].key == x && FoundNothing(stmts, pos, rows[1..], t1, vs, s, p, o, k');
      FoundNothingShift(stmts, pos, rows, t, vs, s, p, o, k' + 1);
    }
  }

  /** A turn never drops a column. */
  lemma RowTurnKeeps(stmts: seq<Statement>, pos: Position, x: Entry<nat, Cell>, t: Table, vs: Vars,
                     s: Value, p: Value, o: Value)
    requires RowTurn(stmts, pos, x, t, vs, s, p, o).Ok?
    ensures KeepsColumns(t, RowTurn(stmts, pos, x, t, vs, s, p, o).value.0)
  {
    match RowArgs(pos, t, x.key, x.value, vs, s, p, o) {
      case None =>
      case Some(a) =>
        ProcessRowKeeps(t, x.key, SearchSpec(stmts, a.0, a.1, a.2).value, vs);
    }
  }

  /** A join loop never drops a column. */
  lemma {:induction false} RowLoopKeeps(stmts: seq<Statement>, pos: Position, rows: seq<Entry<nat, Cell>>, t: Table,
                                        vs: Vars, s: Value, p: Value, o: Value, del: seq<nat>)
    requires RowLoop(stmts, pos, rows, t, vs, s, p, o, del).Ok?
    ensures KeepsColumns(t, RowLoop(stmts, pos, rows, t, vs, s, p, o, del).value.0)
    decreases |rows|
  {
    if rows != [] {
      var t1 := NextTable(stmts, pos, rows, t, vs, s, p, o);
      RowLoopStep(stmts, pos, rows, t, vs, s, p, o, del);
      RowTurnKeeps(stmts, pos, rows[0], t, vs, s, p, o);
      RowLoopKeeps(stmts, pos, rows[1..], t1, vs, s, p, o,
                   if FoundNothing(stmts, pos, rows, t, vs, s, p, o, 0) then del + [rows[0].key] else del);
    }
  }

  /** The position whose loop possibility (2) runs: the first one whose
      variable has a column. */
  function FirstSet(t: Table, vs: Vars): (r: (Position, Option<string>))
    requires !NoneSet(t, vs)
    ensures IsSetVar(t, r.1)
  {
    if IsSetVar(t, vs.s) then (SubjectPos, vs.s)
    else if IsSetVar(t, vs.p) then (PredicatePos, vs.p)
    else (ObjectPos, vs.o)
  }

  /** Of the three guarded loops of possibility (2) exactly one runs, the
      one of the first position whose variable has a column: a loop never
      drops a column, so the guards of the later loops fail. */
  lemma JoinSingleLoop(stmts: seq<Statement>, t: Table, vs: Vars, s: Value, p: Value, o: Value)
    requires !NoneSet(t, vs)
    ensures var (pos, ov) := FirstSet(t, vs);
      JoinLoops(stmts, t, vs, s, p, o) == RowLoop(stmts, pos, ColumnOf(t, ov.value).cells, t, vs, s, p, o, [])
  {
    if IsSetVar(t, vs.s) {
      SubjectLoopOnly(stmts, t, vs, s, p, o);
    } else if IsSetVar(t, vs.p) {
      PredicateLoopOnly(stmts, t, vs, s, p, o);
    } else {
      assert LoopIf(stmts, false, SubjectPos, vs.s, t, vs, s, p, o, []) == Ok((t, []));
      assert LoopIf(stmts, false, PredicatePos, vs.p, t, vs, s, p, o, []) == Ok((t, []));
    }
  }

  /** With the subject's column set, only the subject loop runs. */
  lemma SubjectLoopOnly(stmts: seq<Statement>, t: Table, vs: Vars, s: Value, p: Value, o: Value)
    requires IsSetVar(t, vs.s)
    ensures JoinLoops(stmts, t, vs, s, p, o) == RowLoop(stmts, SubjectPos, ColumnOf(t, vs.s.value).cells, t, vs, s, p, o, [])
  {
    var r1 := LoopIf(stmts, true, SubjectPos, vs.s, t, vs, s, p, o, []);
    if r1.Ok? {
      RowLoopKeeps(stmts, SubjectPos, ColumnOf(t, vs.s.value).cells, t, vs, s, p, o, []);
      assert IsSetVar(r1.value.0, vs.s);
      LaterLoopsSkip(stmts, r1.value.0, vs, s, p, o, r1.value.1);
    }
  }

  /** With the predicate's column set and not the subject's, only the
      predicate loop runs. */
  lemma PredicateLoopOnly(stmts: seq<Statement>, t: Table, vs: Vars, s: Value, p: Value, o: Value)
    requires !IsSetVar(t, vs.s) && IsSetVar(t, vs.p)
    ensures JoinLoops(stmts, t, vs, s, p, o) == RowLoop(stmts, PredicatePos, ColumnOf(t, vs.p.value).cells, t, vs, s, p, o, [])
  {
    assert LoopIf(stmts, false, SubjectPos, vs.s, t, vs, s, p, o, []) == Ok((t, []));
    var r2 := LoopIf(stmts, true, PredicatePos, vs.p, t, vs, s, p, o, []);
    if r2.Ok? {
      RowLoopKeeps(stmts, PredicatePos, ColumnOf(t, vs.p.value).cells, t, vs, s, p, o, []);
      assert IsSetVar(r2.value.0, vs.p);
      assert LoopIf(stmts, false, ObjectPos, vs.o, r2.value.0, vs, s, p, o, r2.value.1) == r2;
    }
  }

  /** With the subject's column set, neither later loop runs. */
  lemma LaterLoopsSkip(stmts: seq<Statement>, t: Table, vs: Vars, s: Value, p: Value, o: Value, del: seq<nat>)
    requires IsSetVar(t, vs.s)
    ensures LaterLoops(stmts, t, vs, s, p, o, del) == Ok((t, del))
  {
    assert LoopIf(stmts, false, PredicatePos, vs.p, t, vs, s, p, o, del) == Ok((t, del));
  }

  /** After possibility (2) every row of the walked column that the loop
      queued (by `QueuedHas` and `QueuedFrom`, exactly the rows whose search
      found nothing) is unset in every column, and every other row keeps
      its cells as the loop left them; the columns stay. */
  lemma JoinDeletes(stmts: seq<Statement>, t: Table, vs: Vars, s: Value, p: Value, o: Value, k: string, j: nat)
    requires !NoneSet(t, vs) && Join(stmts, t, vs, s, p, o).Ok?
    ensures RowLoop(stmts, FirstSet(t, vs).0, ColumnOf(t, FirstSet(t, vs).1.value).cells, t, vs, s, p, o, []).Ok?
    ensures var (pos, ov) := FirstSet(t, vs);
      var rows := ColumnOf(t, ov.value).cells;
      var lt := RowLoop(stmts, pos, rows, t, vs, s, p, o, []).value.0;
      var t1 := Join(stmts, t, vs, s, p, o).value;
      && Keys(t1) == Keys(lt)
      && (j in Queued(stmts, pos, rows, t, vs, s, p, o) ==> !IsSetCell(ColumnOf(t1, k), j))
      && (j !in Queued(stmts, pos, rows, t, vs, s, p, o) ==> Lookup(ColumnOf(t1, k).cells, j) == Lookup(ColumnOf(lt, k).cells, j))
  {
    var (pos, ov) := FirstSet(t, vs);
    var rows := ColumnOf(t, ov.value).cells;
    JoinSingleLoop(stmts, t, vs, s, p, o);
    var r := RowLoop(stmts, pos, rows, t, vs, s, p, o, []).value;
    RowLoopQueued(stmts, pos, rows, t, vs, s, p, o, []);
    assert r.1 == Queued(stmts, pos, rows, t, vs, s, p, o);
    RemoveRowsSpec(r.0, r.1, k);
    var t1 := Join(stmts, t, vs, s, p, o).value;
    assert t1 == RemoveRows(r.0, r.1);
  }

  /** Possibility (2) deletes exactly the rows whose search found
      nothing: a walked row that found nothing at its turn is unset in
      every column of the joined table, and every other row keeps, in every
      column, the cell the join loop left it. */
  lemma JoinDeletesNoMatch(stmts: seq<Statement>, t: Table, vs: Vars, s: Value, p: Value, o: Value,
                           c: string, j: nat)
    requires !NoneSet(t, vs) && Join(stmts, t, vs, s, p, o).Ok?
    ensures RowLoop(stmts, FirstSet(t, vs).0, ColumnOf(t, FirstSet(t, vs).1.value).cells, t, vs, s, p, o, []).Ok?
    ensures var (pos, ov) := FirstSet(t, vs);
      var rows := ColumnOf(t, ov.value).cells;
      var t1 := Join(stmts, t, vs, s, p, o).value;
      && ((exists k :: 0 <= k < |rows| && rows[k].key == j && FoundNothing(stmts, pos, rows, t, vs, s, p, o, k))
          ==> !IsSetCell(ColumnOf(t1, c), j))
      && ((forall k :: 0 <= k < |rows| && rows[k].key == j ==> !FoundNothing(stmts, pos, rows, t, vs, s, p, o, k))
          ==> Lookup(ColumnOf(t1, c).cells, j)
              == Lookup(ColumnOf(RowLoop(stmts, pos, rows, t, vs, s, p, o, []).value.0, c).cells, j))
  {
    var (pos, ov) := FirstSet(t, vs);
    var rows := ColumnOf(t, ov.value).cells;
    JoinDeletes(stmts, t, vs, s, p, o, c, j);
    if exists k :: 0 <= k < |rows| && rows[k].key == j && FoundNothing(stmts, pos, rows, t, vs, s, p, o, k) {
      var k :| 0 <= k < |rows| && rows[k].key == j && FoundNothing(stmts, pos, rows, t, vs, s, p, o, k);
      QueuedHas(stmts, pos, rows, t, vs, s, p, o, k);
    }
    if j in Queued(stmts, pos, rows, t, vs, s, p, o) {
      QueuedFrom(stmts, pos, rows, t, vs, s, p, o, j);
    }
  }

  /** `filterBySelect` keeps exactly the columns named as result
      variables, in their order, with their values unchanged. */
  lemma {:induction false} FilterKeeps(t: Table, rv: seq<Entry<string, string>>, k: string)
    ensures IsSubseq(Filter(t, rv), t)
    ensures forall e :: e in Filter(t, rv) <==> e in t && e.key in Keys(rv)
    ensures Lookup(Filter(t, rv), k) == if k in Keys(rv) then Lookup(t, k) else None
    decreases |t|
  {
    if t != [] {
      FilterKeeps(t[1..], rv, k);
      var f := Filter(t, rv);
      if t[0].key in Keys(rv) {
        assert f == [t[0]] + Filter(t[1..], rv);
        assert f[1..] == Filter(t[1..], rv);
      } else {
        assert f == Filter(t[1..], rv);
        SubseqSkip(f, t);
      }
      assert Keys(f) == (if t[0].key in Keys(rv) then [t[0].key] else []) + Keys(Filter(t[1..], rv));
    }
  }

  /** An unknown format prints like "array". */
  lemma FormatFallback(t: Table, format: string, text: string)
    requires format != "objectarray"
    ensures FormatSpec(t, format, text) == FormatSpec(t, "array", text)
    ensures FormatSpec(t, format, text).table == Strings(TextTable(t))
  {
  }

  /** A column prints one string per non-null cell, in key order. */
  lemma {:induction false} ColumnTextSpec(cells: seq<Entry<nat, Cell>>)
    ensures |ColumnText(cells)| <= |cells|
    ensures (forall i :: 0 <= i < |cells| ==> cells[i].value.Some?) ==>
      ColumnText(cells) == seq(|cells|, i requires 0 <= i < |cells| => NodeText(cells[i].value.value))
    decreases |cells|
  {
    if cells != [] {
      ColumnTextSpec(cells[1..]);
    }
  }

  /** In "array" mode a column with something to print is listed under its
      variable with those strings, a column with nothing to print is absent;
      every printed column comes from the table. */
  lemma {:induction false} TextTableSpec(t: Table, k: string)
    requires DistinctKeys(t)
    ensures Lookup(TextTable(t), k) ==
      if k in Keys(t) && ColumnText(ColumnOf(t, k).cells) != [] then Some(ColumnText(ColumnOf(t, k).cells)) else None
    decreases |t|
  {
    if t != [] {
      assert Keys(t) == [t[0].key] + Keys(t[1..]);
      assert DistinctKeys(t[1..]);
      TextTableSpec(t[1..], k);
      var text := ColumnText(t[0].value.cells);
      var rest := TextTable(t[1..]);
      if text != [] {
        assert TextTable(t) == [Entry(t[0].key, text)] + rest;
        assert TextTable(t)[1..] == rest;
      } else {
        assert TextTable(t) == rest;
        if t[0].key == k {
          assert k !in Keys(t[1..]);
        }
      }
    }
  }

  /** A query answers only with SELECT variables, and a SELECT query that
      parses and evaluates keeps every result-variable column the
      evaluation produced. */
  lemma QueryVariables(text: string, stmts: seq<Statement>, format: string, v: string)
    requires QuerySpec(text, stmts, format).Ok?
    ensures SparqlParsers.ParseSpec(text).Ok? && SparqlParsers.ParseSpec(text).value.form == Some(Select)
    ensures var q := SparqlParsers.ParseSpec(text).value;
      var t := ApplyPatternSpec(stmts, BuildPatternSpec(q.whereTriples)).value;
      v in QuerySpec(text, stmts, format).value.variables <==> v in Keys(t) && v in Keys(q.resultVariables)
  {
    var q := SparqlParsers.ParseSpec(text).value;
    var t := ApplyPatternSpec(stmts, BuildPatternSpec(q.whereTriples)).value;
    FilterKeeps(t, q.resultVariables, v);
    assert v in Keys(Filter(t, q.resultVariables)) <==> Lookup(Filter(t, q.resultVariables), v).Some?;
  }

  /** The WHERE clause `?x ?y ?z` on a non-empty store: the pattern has one
      branch, and applying it gives one row per stored statement in each of
      the three columns. */
  lemma AllVariablesQuery(stmts: seq<Statement>, x: string, y: string, z: string)
    requires stmts != []
    requires IsVariable(x) && IsVariable(y) && IsVariable(z) && x != y && y != z && x != z
    ensures var r := ApplyPatternSpec(stmts, BuildPatternSpec([Entry(x, [WhereTriple(Var(x), Var(y), Var(z))])]));
      && r.Ok?
      && |ColumnOf(r.value, x).cells| == |ColumnOf(r.value, y).cells| == |ColumnOf(r.value, z).cells| == |stmts|
      && forall i :: 0 <= i < |stmts| ==>
           && ColumnOf(r.value, x).cells[i] == Entry(i, Some(stmts[i].subject))
           && ColumnOf(r.value, y).cells[i] == Entry(i, Some(stmts[i].pred))
           && ColumnOf(r.value, z).cells[i] == Entry(i, Some(stmts[i].obj))
  {
    SingleTriplePattern(x, Var(y), z);
    var b := Branch(x, [PatternTriple(Var(x), Var(y), Leaf(Var(z)))]);
    var pat := [Entry(x, Some(b))];
    AllVariablesBranch(stmts, x, y, z);
    var rb := ApplyBranch(stmts, [], b);
    assert pat[1..] == [];
    assert ApplyPatternFrom(stmts, [], pat) == ApplyPatternFrom(stmts, rb.value.0, []);
  }
}
