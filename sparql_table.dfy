/** The result table of `sparql/sparqlEngine/SparqlEngine.php`: a PHP array
    from variable name to column, each column a PHP array from row number
    to node. Keys survive `unset`, `$a[$k] = $v` replaces in place or adds at
    the end, and `$a[] = $v` adds under the column's high-water mark, which
    `unset` never lowers. A missing or null cell reads as null. */
module SparqlTables {
  import opened Wrappers
  import opened Terms
  import opened OrderedMaps
  import SparqlQueries

  /** A cell: a node, or a PHP null copied from a missing cell. */
  type Cell = Option<Node>

  /** A column: its cells in insertion order, and the next key `[]` uses. */
  datatype Column = Column(cells: seq<Entry<nat, Cell>>, next: nat)

  type Table = seq<Entry<string, Column>>

  /** One row collected across the columns: `$rowVars` of `processRow`. */
  type Row = seq<Entry<string, Cell>>

  const EmptyColumn := Column([], 0)

  /** What a PHP array guarantees: distinct keys, all below the high-water
      mark. */
  predicate ValidColumn(c: Column) {
    DistinctKeys(c.cells) && forall i :: 0 <= i < |c.cells| ==> c.cells[i].key < c.next
  }

  predicate ValidTable(t: Table) {
    DistinctKeys(t) && forall i :: 0 <= i < |t| ==> ValidColumn(t[i].value)
  }

  /** `$this->resultTable[$v]`, a missing column read as an empty one. */
  function ColumnOf(t: Table, v: string): Column {
    match Lookup(t, v)
    case Some(c) => c
    case None => EmptyColumn
  }

  /** `$column[$row]`: a missing cell reads as null. */
  function CellAt(c: Column, row: nat): Cell {
    match Lookup(c.cells, row)
    case Some(x) => x
    case None => None
  }

  /** `isset($column[$row])`: present and not null. */
  predicate IsSetCell(c: Column, row: nat) {
    CellAt(c, row).Some?
  }

  // ---------------------------------------------------------------------
  // Column operations

  /** `$column[$row] = $x` */
  function SetCell(c: Column, row: nat, x: Cell): (r: Column)
    ensures ValidColumn(c) ==> ValidColumn(r)
    ensures CellAt(r, row) == x && Lookup(r.cells, row) == Some(x)
    ensures forall j :: j != row ==> Lookup(r.cells, j) == Lookup(c.cells, j)
    ensures row < r.next && c.next <= r.next
  {
    LookupPutAll(c.cells, row, x);
    PutColumnValid(c, row, x);
    Column(Put(c.cells, row, x), if row + 1 > c.next then row + 1 else c.next)
  }

  lemma PutColumnValid(c: Column, row: nat, x: Cell)
    ensures ValidColumn(c) ==> ValidColumn(Column(Put(c.cells, row, x), if row + 1 > c.next then row + 1 else c.next))
  {
    var r := Column(Put(c.cells, row, x), if row + 1 > c.next then row + 1 else c.next);
    if ValidColumn(c) {
      PutKeepsDistinct(c.cells, row, x);
      PutEntries(c.cells, row, x);
      forall i | 0 <= i < |r.cells| ensures r.cells[i].key < r.next {
        assert r.cells[i] in r.cells;
        if r.cells[i] != Entry(row, x) {
          var j :| 0 <= j < |c.cells| && c.cells[j] == r.cells[i];
        }
      }
    }
  }

  lemma LookupPutAll<K, V>(m: seq<Entry<K, V>>, k: K, v: V)
    ensures Lookup(Put(m, k, v), k) == Some(v)
    ensures forall o :: o != k ==> Lookup(Put(m, k, v), o) == Lookup(m, o)
  {
    LookupPut(m, k, v, k);
    forall o | o != k ensures Lookup(Put(m, k, v), o) == Lookup(m, o) {
      LookupPut(m, k, v, o);
    }
  }

  /** `$column[] = $x`: a new cell under the high-water mark. */
  function AppendCell(c: Column, x: Cell): (r: Column)
    ensures ValidColumn(c) ==> ValidColumn(r)
  {
    Column(c.cells + [Entry(c.next, x)], c.next + 1)
  }

  /** `unset($column[$row])`: the high-water mark stays. */
  function UnsetCell(c: Column, row: nat): (r: Column)
    ensures ValidColumn(c) ==> ValidColumn(r)
    ensures Lookup(r.cells, row) == None && !IsSetCell(r, row) && r.next == c.next
    ensures forall j :: j != row ==> Lookup(r.cells, j) == Lookup(c.cells, j)
  {
    UnsetColumnFacts(c, row);
    Column(Unset(c.cells, row), c.next)
  }

  lemma UnsetColumnFacts(c: Column, row: nat)
    ensures var r := Column(Unset(c.cells, row), c.next);
      && (ValidColumn(c) ==> ValidColumn(r))
      && Lookup(r.cells, row) == None
      && forall j :: j != row ==> Lookup(r.cells, j) == Lookup(c.cells, j)
  {
    var r := Column(Unset(c.cells, row), c.next);
    LookupUnset(c.cells, row, row);
    forall j | j != row ensures Lookup(r.cells, j) == Lookup(c.cells, j) {
      LookupUnset(c.cells, row, j);
    }
    if ValidColumn(c) {
      UnsetKeepsDistinct(c.cells, row);
      forall i | 0 <= i < |r.cells| ensures r.cells[i].key < r.next {
        assert r.cells[i] in r.cells;
        var j :| 0 <= j < |c.cells| && c.cells[j] == r.cells[i];
      }
    }
  }

  /** A run of `[]` assignments, one key after the other from the
      high-water mark. */
  function AppendCells(c: Column, xs: seq<Cell>): Column {
    Column(c.cells + seq(|xs|, i requires 0 <= i < |xs| => Entry(c.next + i, xs[i])), c.next + |xs|)
  }

  /** In a valid column `[]` is the assignment to the high-water mark: that
      key is always new. */
  lemma AppendIsSetAtNext(c: Column, x: Cell)
    requires ValidColumn(c)
    ensures AppendCell(c, x) == SetCell(c, c.next, x)
  {
    assert c.next !in Keys(c.cells) by {
      assert forall i :: 0 <= i < |c.cells| ==> Keys(c.cells)[i] != c.next;
    }
    PutAbsent(c.cells, c.next, x);
  }

  lemma AppendCellsOne(c: Column, x: Cell, xs: seq<Cell>)
    ensures AppendCells(AppendCell(c, x), xs) == AppendCells(c, [x] + xs)
  {
    var a := AppendCells(AppendCell(c, x), xs);
    var b := AppendCells(c, [x] + xs);
    assert a.cells == b.cells;
  }

  lemma AppendCellsConcat(c: Column, xs: seq<Cell>, ys: seq<Cell>)
    ensures AppendCells(AppendCells(c, xs), ys) == AppendCells(c, xs + ys)
  {
    var a := AppendCells(AppendCells(c, xs), ys);
    var b := AppendCells(c, xs + ys);
    assert a.cells == b.cells;
  }

  /** Assigning twice to the same cell keeps the second value. */
  lemma SetCellTwice(c: Column, row: nat, x: Cell, y: Cell)
    ensures SetCell(SetCell(c, row, x), row, y) == SetCell(c, row, y)
  {
    LastWriteWins(c.cells, row, x, y);
  }

  // ---------------------------------------------------------------------
  // Table operations

  /** `$this->resultTable[$v][$row] = $x`, creating the column when missing. */
  function SetTableCell(t: Table, v: string, row: nat, x: Cell): Table {
    Put(t, v, SetCell(ColumnOf(t, v), row, x))
  }

  /** `$this->resultTable[$v][] = $x`, creating the column when missing. */
  function AppendTableCell(t: Table, v: string, x: Cell): Table {
    Put(t, v, AppendCell(ColumnOf(t, v), x))
  }

  lemma LookupAfterPut(t: Table, v: string, c: Column, k: string)
    ensures Lookup(Put(t, v, c), k) == if k == v then Some(c) else Lookup(t, k)
    ensures ColumnOf(Put(t, v, c), k) == if k == v then c else ColumnOf(t, k)
  {
    LookupPut(t, v, c, k);
  }

  /** `removeRow($row)`: every column loses the cell `$row`. */
  function RemoveRow(t: Table, row: nat): Table {
    seq(|t|, i requires 0 <= i < |t| => Entry(t[i].key, UnsetCell(t[i].value, row)))
  }

  /** `removeRow` keeps the columns and their order, drops the cell of that
      row from each, and changes no other cell and no high-water mark. */
  lemma RemoveRowSpec(t: Table, row: nat, k: string)
    ensures Keys(RemoveRow(t, row)) == Keys(t)
    ensures Lookup(RemoveRow(t, row), k) == match Lookup(t, k) case Some(c) => Some(UnsetCell(c, row)) case None => None
    ensures ColumnOf(RemoveRow(t, row), k) == UnsetCell(ColumnOf(t, k), row)
    ensures !IsSetCell(ColumnOf(RemoveRow(t, row), k), row)
    ensures forall j :: j != row ==> Lookup(ColumnOf(RemoveRow(t, row), k).cells, j) == Lookup(ColumnOf(t, k).cells, j)
    ensures ColumnOf(RemoveRow(t, row), k).next == ColumnOf(t, k).next
    ensures ValidTable(t) ==> ValidTable(RemoveRow(t, row))
  {
    RemoveRowLookup(t, row, k);
    assert UnsetCell(EmptyColumn, row) == EmptyColumn;
    RemoveRowValid(t, row);
  }

  lemma {:induction false} RemoveRowLookup(t: Table, row: nat, k: string)
    ensures Keys(RemoveRow(t, row)) == Keys(t)
    ensures Lookup(RemoveRow(t, row), k) == match Lookup(t, k) case Some(c) => Some(UnsetCell(c, row)) case None => None
    decreases |t|
  {
    var r := RemoveRow(t, row);
    if t != [] {
      assert r[1..] == RemoveRow(t[1..], row);
      RemoveRowLookup(t[1..], row, k);
      assert Keys(r) == [r[0].key] + Keys(r[1..]);
      assert Keys(t) == [t[0].key] + Keys(t[1..]);
    }
  }

  lemma RemoveRowValid(t: Table, row: nat)
    requires Keys(RemoveRow(t, row)) == Keys(t)
    ensures ValidTable(t) ==> ValidTable(RemoveRow(t, row))
  {
    var r := RemoveRow(t, row);
    if ValidTable(t) {
      assert forall i :: 0 <= i < |r| ==> r[i].key == t[i].key;
    }
  }

  // ---------------------------------------------------------------------
  // processRow

  /** The variable, if any, at each position of a triple: `$sV`, `$pV`, `$oV`. */
  datatype Vars = Vars(s: Option<string>, p: Option<string>, o: Option<string>)

  /** `isVariable($xV)` */
  predicate IsVar(ov: Option<string>) {
    ov.Some? && SparqlQueries.IsVariable(ov.value)
  }

  predicate Binds(ov: Option<string>, k: string) {
    IsVar(ov) && ov.value == k
  }

  predicate BindsAny(vs: Vars, k: string) {
    Binds(vs.s, k) || Binds(vs.p, k) || Binds(vs.o, k)
  }

  /** The value a statement gives to variable `k`: subject, then predicate,
      then object are assigned, so the last position holding `k` wins. */
  function Binding(st: Statement, k: string, vs: Vars): (r: Option<Cell>)
    ensures r.Some? <==> BindsAny(vs, k)
  {
    if Binds(vs.o, k) then Some(Some(st.obj))
    else if Binds(vs.p, k) then Some(Some(st.pred))
    else if Binds(vs.s, k) then Some(Some(st.subject))
    else None
  }

  /** `if ($toSetX) $this->resultTable[$xV][$row] = $x` */
  function BindAt(t: Table, ov: Option<string>, row: nat, x: Cell): Table {
    if IsVar(ov) then SetTableCell(t, ov.value, row, x) else t
  }

  lemma BindAtSpec(t: Table, ov: Option<string>, row: nat, x: Cell, k: string)
    ensures Lookup(BindAt(t, ov, row, x), k) == if Binds(ov, k) then Some(SetCell(ColumnOf(t, k), row, x)) else Lookup(t, k)
    ensures ColumnOf(BindAt(t, ov, row, x), k) == if Binds(ov, k) then SetCell(ColumnOf(t, k), row, x) else ColumnOf(t, k)
  {
    if IsVar(ov) {
      LookupAfterPut(t, ov.value, SetCell(ColumnOf(t, ov.value), row, x), k);
    }
  }

  /** One match: the row's cell of each variable is assigned, subject first. */
  function BindOne(t: Table, row: nat, st: Statement, vs: Vars): Table {
    BindAt(BindAt(BindAt(t, vs.s, row, Some(st.subject)), vs.p, row, Some(st.pred)), vs.o, row, Some(st.obj))
  }

  /** With one match, every variable of the triple gets that statement's
      part in the row (its column is created when missing) and nothing else
      changes. */
  lemma BindOneSpec(t: Table, row: nat, st: Statement, vs: Vars, k: string)
    ensures Lookup(BindOne(t, row, st, vs), k) ==
      match Binding(st, k, vs)
      case Some(x) => Some(SetCell(ColumnOf(t, k), row, x))
      case None => Lookup(t, k)
  {
    var t1 := BindAt(t, vs.s, row, Some(st.subject));
    var t2 := BindAt(t1, vs.p, row, Some(st.pred));
    BindAtSpec(t, vs.s, row, Some(st.subject), k);
    BindAtSpec(t1, vs.p, row, Some(st.pred), k);
    BindAtSpec(t2, vs.o, row, Some(st.obj), k);
    var c := ColumnOf(t, k);
    var c1 := ColumnOf(t1, k);
    if Binds(vs.s, k) {
      SetCellTwice(c, row, Some(st.subject), Some(st.pred));
    }
    if Binds(vs.o, k) {
      SetCellTwice(c1, row, Some(st.pred), Some(st.obj));
      SetCellTwice(c, row, Some(st.subject), Some(st.obj));
    }
  }

  /** `foreach ($this->resultTable as $key => $vars) $rowVars[$key] = $vars[$row]` */
  function RowOf(t: Table, row: nat): (r: Row)
    ensures Keys(r) == Keys(t)
  {
    var r := seq(|t|, i requires 0 <= i < |t| => Entry(t[i].key, CellAt(t[i].value, row)));
    assert forall i :: 0 <= i < |t| ==> Keys(r)[i] == Keys(t)[i];
    r
  }

  lemma {:induction false} RowOfLookup(t: Table, row: nat, k: string)
    ensures Lookup(RowOf(t, row), k) == if k in Keys(t) then Some(CellAt(ColumnOf(t, k), row)) else None
    decreases |t|
  {
    if t != [] {
      assert RowOf(t, row)[1..] == RowOf(t[1..], row);
      RowOfLookup(t[1..], row, k);
      assert Keys(t) == [t[0].key] + Keys(t[1..]);
    }
  }

  lemma DistinctKeysOfKeys<V, W>(a: seq<Entry<string, V>>, b: seq<Entry<string, W>>)
    requires Keys(a) == Keys(b) && DistinctKeys(a)
    ensures DistinctKeys(b)
  {
    assert forall i :: 0 <= i < |a| ==> a[i].key == Keys(a)[i] == Keys(b)[i] == b[i].key;
  }

  /** `if ($toSetX) $rowVars[$xV] = $x` */
  function RebindAt(rv: Row, ov: Option<string>, x: Cell): Row {
    if IsVar(ov) then Put(rv, ov.value, x) else rv
  }

  lemma RebindAtSpec(rv: Row, ov: Option<string>, x: Cell, k: string)
    ensures Lookup(RebindAt(rv, ov, x), k) == if Binds(ov, k) then Some(x) else Lookup(rv, k)
    ensures DistinctKeys(rv) ==> DistinctKeys(RebindAt(rv, ov, x))
  {
    if IsVar(ov) {
      LookupPut(rv, ov.value, x, k);
      if DistinctKeys(rv) {
        PutKeepsDistinct(rv, ov.value, x);
      }
    }
  }

  /** The row's variables rebound from one statement, subject first. */
  function Rebind(rv: Row, st: Statement, vs: Vars): Row {
    RebindAt(RebindAt(RebindAt(rv, vs.s, Some(st.subject)), vs.p, Some(st.pred)), vs.o, Some(st.obj))
  }

  lemma RebindSpec(rv: Row, st: Statement, vs: Vars, k: string)
    ensures Lookup(Rebind(rv, st, vs), k) == if BindsAny(vs, k) then Binding(st, k, vs) else Lookup(rv, k)
    ensures DistinctKeys(rv) ==> DistinctKeys(Rebind(rv, st, vs))
  {
    var r1 := RebindAt(rv, vs.s, Some(st.subject));
    var r2 := RebindAt(r1, vs.p, Some(st.pred));
    RebindAtSpec(rv, vs.s, Some(st.subject), k);
    RebindAtSpec(r1, vs.p, Some(st.pred), k);
    RebindAtSpec(r2, vs.o, Some(st.obj), k);
  }

  /** `foreach ($rowVars as $key => $o) $this->resultTable[$key][] = $o` */
  function AppendRow(t: Table, rv: Row): Table
    decreases |rv|
  {
    if rv == [] then t else AppendRow(AppendTableCell(t, rv[0].key, rv[0].value), rv[1..])
  }

  lemma {:induction false} AppendRowSpec(t: Table, rv: Row, k: string)
    requires DistinctKeys(rv)
    ensures Lookup(AppendRow(t, rv), k) ==
      match Lookup(rv, k)
      case Some(x) => Some(AppendCell(ColumnOf(t, k), x))
      case None => Lookup(t, k)
    decreases |rv|
  {
    if rv != [] {
      var t1 := AppendTableCell(t, rv[0].key, rv[0].value);
      LookupAfterPut(t, rv[0].key, AppendCell(ColumnOf(t, rv[0].key), rv[0].value), k);
      assert DistinctKeys(rv[1..]);
      AppendRowSpec(t1, rv[1..], k);
      if k == rv[0].key {
        assert Lookup(rv[1..], k) == None by {
          forall i | 0 <= i < |rv[1..]| ensures Keys(rv[1..])[i] != k {
            assert rv[i + 1].key != rv[0].key;
          }
        }
      }
    }
  }

  /** The loop over the matches when there are several: each rebinds the
      row's variables and appends the row. */
  function Duplicate(t: Table, rv: Row, sts: seq<Statement>, vs: Vars): Table
    decreases |sts|
  {
    if sts == [] then t
    else
      var rv1 := Rebind(rv, sts[0], vs);
      Duplicate(AppendRow(t, rv1), rv1, sts[1..], vs)
  }

  /** The value a copied row holds in column `k` for match `st`: the
      statement's part when `k` is one of the triple's variables, else the
      collected value. */
  function Copied(k: string, rv: Row, st: Statement, vs: Vars): Cell {
    match Binding(st, k, vs)
    case Some(x) => x
    case None => match Lookup(rv, k) case Some(x) => x case None => None
  }

  function CopiedCells(k: string, rv: Row, sts: seq<Statement>, vs: Vars): (r: seq<Cell>)
    ensures |r| == |sts|
    decreases |sts|
  {
    if sts == [] then [] else [Copied(k, rv, sts[0], vs)] + CopiedCells(k, rv, sts[1..], vs)
  }

  lemma {:induction false} CopiedCellsAt(k: string, rv: Row, sts: seq<Statement>, vs: Vars)
    ensures forall i :: 0 <= i < |sts| ==> CopiedCells(k, rv, sts, vs)[i] == Copied(k, rv, sts[i], vs)
    decreases |sts|
  {
    if sts != [] {
      CopiedCellsAt(k, rv, sts[1..], vs);
    }
  }

  /** Rebinding from one match does not change what later matches copy:
      the rebound columns are overwritten by every match. */
  lemma {:induction false} CopiedAfterRebind(k: string, rv: Row, st0: Statement, sts: seq<Statement>, vs: Vars)
    ensures CopiedCells(k, Rebind(rv, st0, vs), sts, vs) == CopiedCells(k, rv, sts, vs)
    decreases |sts|
  {
    RebindSpec(rv, st0, vs, k);
    if sts != [] {
      CopiedAfterRebind(k, rv, st0, sts[1..], vs);
    }
  }

  lemma {:induction false} DuplicateSpec(t: Table, rv: Row, sts: seq<Statement>, vs: Vars, k: string)
    requires DistinctKeys(rv)
    ensures Lookup(Duplicate(t, rv, sts, vs), k) ==
      if sts != [] && (k in Keys(rv) || BindsAny(vs, k))
      then Some(AppendCells(ColumnOf(t, k), CopiedCells(k, rv, sts, vs)))
      else Lookup(t, k)
    decreases |sts|
  {
    if sts != [] {
      var rv1 := Rebind(rv, sts[0], vs);
      RebindSpec(rv, sts[0], vs, k);
      var t1 := AppendRow(t, rv1);
      AppendRowSpec(t, rv1, k);
      DuplicateSpec(t1, rv1, sts[1..], vs, k);
      CopiedAfterRebind(k, rv, sts[0], sts[1..], vs);
      var c := ColumnOf(t, k);
      if k in Keys(rv) || BindsAny(vs, k) {
        var x0 := Copied(k, rv, sts[0], vs);
        assert Lookup(rv1, k) == Some(x0);
        assert ColumnOf(t1, k) == AppendCell(c, x0);
        AppendCellsOne(c, x0, CopiedCells(k, rv, sts[1..], vs));
        assert CopiedCells(k, rv, sts, vs) == [x0] + CopiedCells(k, rv, sts[1..], vs);
        if sts[1..] == [] {
          assert CopiedCells(k, rv, sts[1..], vs) == [];
          assert AppendCells(AppendCell(c, x0), []).cells == AppendCell(c, x0).cells;
        }
      } else {
        assert Lookup(rv1, k) == None;
        assert k !in Keys(rv1);
      }
    }
  }

  /** `processRow($row, $res, $sV, $pV, $oV)`: false for no matches; one
      match binds the row in place; several replace the row by one copy per
      match, appended at the end of every column, as long as the triple has
      a variable. */
  function ProcessRowSpec(t: Table, row: nat, res: Option<seq<Statement>>, vs: Vars): (r: (Table, bool))
    ensures !r.1 <==> res.None? || res.value == []
    ensures !r.1 ==> r.0 == t
  {
    if res.None? || |res.value| == 0 then (t, false)
    else if |res.value| == 1 then (BindOne(t, row, res.value[0], vs), true)
    else if IsVar(vs.s) || IsVar(vs.p) || IsVar(vs.o) then (Duplicate(RemoveRow(t, row), RowOf(t, row), res.value, vs), true)
    else (t, true)
  }

  /** With one match, `processRow` overwrites the row's cell in every column
      of the triple's variables (creating the column when missing) and
      leaves every other cell alone. */
  lemma ProcessRowOne(t: Table, row: nat, st: Statement, vs: Vars, k: string)
    ensures var r := ProcessRowSpec(t, row, Some([st]), vs);
      && r.1
      && (BindsAny(vs, k) ==> Lookup(r.0, k).Some? && CellAt(ColumnOf(r.0, k), row) == Binding(st, k, vs).value)
      && (BindsAny(vs, k) ==> forall j :: j != row ==> Lookup(ColumnOf(r.0, k).cells, j) == Lookup(ColumnOf(t, k).cells, j))
      && (!BindsAny(vs, k) ==> Lookup(r.0, k) == Lookup(t, k))
  {
    BindOneSpec(t, row, st, vs, k);
  }

  /** The cells column `k` receives for the matches `sts` of row `row`: the
      match's part when `k` is one of the triple's variables, else the
      row's old cell. */
  function RowCopies(t: Table, row: nat, sts: seq<Statement>, vs: Vars, k: string): seq<Cell> {
    seq(|sts|, i requires 0 <= i < |sts| =>
          if BindsAny(vs, k) then Binding(sts[i], k, vs).value else CellAt(ColumnOf(t, k), row))
  }

  /** With several matches and a variable to bind, `processRow` removes the
      row and appends one row per match, in order: in a column of one of
      the triple's variables the match's part, in every other column the
      row's old value (null when it had none). A variable without a column
      gets a new one from key 0. No other column appears. */
  lemma ProcessRowMany(t: Table, row: nat, sts: seq<Statement>, vs: Vars, k: string)
    requires ValidTable(t) && |sts| > 1 && (IsVar(vs.s) || IsVar(vs.p) || IsVar(vs.o))
    ensures var r := ProcessRowSpec(t, row, Some(sts), vs);
      && r.1
      && Lookup(r.0, k) ==
         if k in Keys(t) || BindsAny(vs, k)
         then Some(AppendCells(UnsetCell(ColumnOf(t, k), row),
                               RowCopies(t, row, sts, vs, k)))
         else None
  {
    var rv := RowOf(t, row);
    assert ProcessRowSpec(t, row, Some(sts), vs) == (Duplicate(RemoveRow(t, row), rv, sts, vs), true);
    DuplicateRow(t, row, sts, vs, k);
    if k in Keys(t) || BindsAny(vs, k) {
      CopiedRow(t, row, sts, vs, k);
    }
  }

  lemma DuplicateRow(t: Table, row: nat, sts: seq<Statement>, vs: Vars, k: string)
    requires ValidTable(t) && sts != []
    ensures Lookup(Duplicate(RemoveRow(t, row), RowOf(t, row), sts, vs), k) ==
      if k in Keys(t) || BindsAny(vs, k)
      then Some(AppendCells(UnsetCell(ColumnOf(t, k), row), CopiedCells(k, RowOf(t, row), sts, vs)))
      else None
  {
    var rv := RowOf(t, row);
    DistinctKeysOfKeys(t, rv);
    DuplicateSpec(RemoveRow(t, row), rv, sts, vs, k);
    RemoveRowSpec(t, row, k);
  }

  lemma CopiedRow(t: Table, row: nat, sts: seq<Statement>, vs: Vars, k: string)
    requires k in Keys(t) || BindsAny(vs, k)
    ensures CopiedCells(k, RowOf(t, row), sts, vs) ==
      RowCopies(t, row, sts, vs, k)
  {
    RowOfLookup(t, row, k);
    CopiedCellsAt(k, RowOf(t, row), sts, vs);
  }

  /** Every column of `t` is still a column of `t1`. */
  predicate KeepsColumns(t: Table, t1: Table) {
    forall k :: k in Keys(t) ==> k in Keys(t1)
  }

  lemma {:induction false} AppendRowKeeps(t: Table, rv: Row)
    ensures KeepsColumns(t, AppendRow(t, rv))
    decreases |rv|
  {
    if rv != [] {
      AppendRowKeeps(AppendTableCell(t, rv[0].key, rv[0].value), rv[1..]);
    }
  }

  lemma {:induction false} DuplicateKeeps(t: Table, rv: Row, sts: seq<Statement>, vs: Vars)
    ensures KeepsColumns(t, Duplicate(t, rv, sts, vs))
    decreases |sts|
  {
    if sts != [] {
      var rv1 := Rebind(rv, sts[0], vs);
      AppendRowKeeps(t, rv1);
      DuplicateKeeps(AppendRow(t, rv1), rv1, sts[1..], vs);
    }
  }

  /** `processRow` assigns, unsets cells and appends, but never drops a
      column: a variable set before it is still set after it. */
  lemma ProcessRowKeeps(t: Table, row: nat, res: Option<seq<Statement>>, vs: Vars)
    ensures KeepsColumns(t, ProcessRowSpec(t, row, res, vs).0)
  {
    if res.None? || |res.value| == 0 {
    } else if |res.value| == 1 {
      var st := res.value[0];
      var t1 := BindAt(t, vs.s, row, Some(st.subject));
      var t2 := BindAt(t1, vs.p, row, Some(st.pred));
      BindAtKeeps(t, vs.s, row, Some(st.subject));
      BindAtKeeps(t1, vs.p, row, Some(st.pred));
      BindAtKeeps(t2, vs.o, row, Some(st.obj));
    } else if IsVar(vs.s) || IsVar(vs.p) || IsVar(vs.o) {
      RemoveRowLookup(t, row, "");
      DuplicateKeeps(RemoveRow(t, row), RowOf(t, row), res.value, vs);
    }
  }

  lemma BindAtKeeps(t: Table, ov: Option<string>, row: nat, x: Cell)
    ensures KeepsColumns(t, BindAt(t, ov, row, x))
  {
  }

  // ---------------------------------------------------------------------
  // Possibility (1): a triple none of whose variables has a column

  /** `if ($this->isVariable($xV)) $this->resultTable[$xV] = array()` */
  function ResetAt(t: Table, ov: Option<string>): Table {
    if IsVar(ov) then Put(t, ov.value, EmptyColumn) else t
  }

  /** The columns of the triple's variables emptied, subject first. */
  function ResetVars(t: Table, vs: Vars): Table {
    ResetAt(ResetAt(ResetAt(t, vs.s), vs.p), vs.o)
  }

  /** `if ($this->isVariable($xV)) $this->resultTable[$xV][] = $x` */
  function AppendAt(t: Table, ov: Option<string>, x: Cell): Table {
    if IsVar(ov) then AppendTableCell(t, ov.value, x) else t
  }

  lemma AppendAtSpec(t: Table, ov: Option<string>, x: Cell, k: string)
    ensures Lookup(AppendAt(t, ov, x), k) == if Binds(ov, k) then Some(AppendCell(ColumnOf(t, k), x)) else Lookup(t, k)
    ensures ColumnOf(AppendAt(t, ov, x), k) == if Binds(ov, k) then AppendCell(ColumnOf(t, k), x) else ColumnOf(t, k)
  {
    if IsVar(ov) {
      LookupAfterPut(t, ov.value, AppendCell(ColumnOf(t, ov.value), x), k);
    }
  }

  /** One statement's parts appended to the columns of the variables,
      subject first. */
  function FillRow(t: Table, st: Statement, vs: Vars): Table {
    AppendAt(AppendAt(AppendAt(t, vs.s, Some(st.subject)), vs.p, Some(st.pred)), vs.o, Some(st.obj))
  }

  function Fill(t: Table, sts: seq<Statement>, vs: Vars): Table
    decreases |sts|
  {
    if sts == [] then t else Fill(FillRow(t, sts[0], vs), sts[1..], vs)
  }

  /** The table after possibility (1) found the matches `sts`. */
  function FreshColumns(t: Table, sts: seq<Statement>, vs: Vars): Table {
    Fill(ResetVars(t, vs), sts, vs)
  }

  /** The cells one statement appends to the column of `k`. */
  function PartsFor(st: Statement, k: string, vs: Vars): seq<Cell> {
    (if Binds(vs.s, k) then [Some(st.subject)] else [])
    + (if Binds(vs.p, k) then [Some(st.pred)] else [])
    + (if Binds(vs.o, k) then [Some(st.obj)] else [])
  }

  function Gathered(sts: seq<Statement>, k: string, vs: Vars): seq<Cell>
    decreases |sts|
  {
    if sts == [] then [] else PartsFor(sts[0], k, vs) + Gathered(sts[1..], k, vs)
  }

  lemma ResetVarsSpec(t: Table, vs: Vars, k: string)
    ensures Lookup(ResetVars(t, vs), k) == if BindsAny(vs, k) then Some(EmptyColumn) else Lookup(t, k)
  {
    var t1 := ResetAt(t, vs.s);
    var t2 := ResetAt(t1, vs.p);
    if IsVar(vs.s) { LookupAfterPut(t, vs.s.value, EmptyColumn, k); }
    if IsVar(vs.p) { LookupAfterPut(t1, vs.p.value, EmptyColumn, k); }
    if IsVar(vs.o) { LookupAfterPut(t2, vs.o.value, EmptyColumn, k); }
  }

  lemma AppendOptional(c: Column, b: bool, x: Cell)
    ensures (if b then AppendCell(c, x) else c) == AppendCells(c, if b then [x] else [])
  {
    if b {
      AppendCellsOne(c, x, []);
    } else {
      assert AppendCells(c, []).cells == c.cells;
    }
  }

  lemma FillRowSpec(t: Table, st: Statement, vs: Vars, k: string)
    ensures Lookup(FillRow(t, st, vs), k) ==
      if BindsAny(vs, k) then Some(AppendCells(ColumnOf(t, k), PartsFor(st, k, vs))) else Lookup(t, k)
  {
    var t1 := AppendAt(t, vs.s, Some(st.subject));
    var t2 := AppendAt(t1, vs.p, Some(st.pred));
    AppendAtSpec(t, vs.s, Some(st.subject), k);
    AppendAtSpec(t1, vs.p, Some(st.pred), k);
    AppendAtSpec(t2, vs.o, Some(st.obj), k);
    var c := ColumnOf(t, k);
    var xs := if Binds(vs.s, k) then [Some(st.subject)] else [];
    var ys := if Binds(vs.p, k) then [Some(st.pred)] else [];
    var zs := if Binds(vs.o, k) then [Some(st.obj)] else [];
    AppendOptional(c, Binds(vs.s, k), Some(st.subject));
    AppendOptional(AppendCells(c, xs), Binds(vs.p, k), Some(st.pred));
    AppendCellsConcat(c, xs, ys);
    AppendOptional(AppendCells(c, xs + ys), Binds(vs.o, k), Some(st.obj));
    AppendCellsConcat(c, xs + ys, zs);
    assert PartsFor(st, k, vs) == xs + ys + zs;
  }

  lemma {:induction false} FillSpec(t: Table, sts: seq<Statement>, vs: Vars, k: string)
    ensures Lookup(Fill(t, sts, vs), k) ==
      if BindsAny(vs, k) && sts != [] then Some(AppendCells(ColumnOf(t, k), Gathered(sts, k, vs))) else Lookup(t, k)
    decreases |sts|
  {
    if sts != [] {
      var t1 := FillRow(t, sts[0], vs);
      FillRowSpec(t, sts[0], vs, k);
      FillSpec(t1, sts[1..], vs, k);
      if BindsAny(vs, k) {
        AppendCellsConcat(ColumnOf(t, k), PartsFor(sts[0], k, vs), Gathered(sts[1..], k, vs));
        if sts[1..] == [] {
          assert Gathered(sts[1..], k, vs) == [];
          assert PartsFor(sts[0], k, vs) + [] == PartsFor(sts[0], k, vs);
        }
      }
    }
  }

  /** Possibility (1): every variable of the triple gets a fresh column
      holding, in store order, the parts the matches give it; every other
      column is unchanged. */
  lemma FreshColumnsSpec(t: Table, sts: seq<Statement>, vs: Vars, k: string)
    ensures Lookup(FreshColumns(t, sts, vs), k) ==
      if BindsAny(vs, k) then Some(AppendCells(EmptyColumn, Gathered(sts, k, vs))) else Lookup(t, k)
  {
    ResetVarsSpec(t, vs, k);
    FillSpec(ResetVars(t, vs), sts, vs, k);
    if BindsAny(vs, k) && sts == [] {
      assert AppendCells(EmptyColumn, []) == EmptyColumn;
    }
  }

  /** A variable that occurs once in the triple. */
  predicate OnePosition(vs: Vars, k: string) {
    (if Binds(vs.s, k) then 1 else 0) + (if Binds(vs.p, k) then 1 else 0) + (if Binds(vs.o, k) then 1 else 0) == 1
  }

  lemma {:induction false} GatheredOnce(sts: seq<Statement>, k: string, vs: Vars)
    requires OnePosition(vs, k)
    ensures Gathered(sts, k, vs) == seq(|sts|, i requires 0 <= i < |sts| => Binding(sts[i], k, vs).value)
    decreases |sts|
  {
    if sts != [] {
      GatheredOnce(sts[1..], k, vs);
    }
  }

  /** Possibility (1) for a variable that occurs once: its column holds one
      entry per match, keyed 0, 1, ..., each the part of that same match. */
  lemma FreshColumnOnce(t: Table, sts: seq<Statement>, vs: Vars, k: string)
    requires OnePosition(vs, k)
    ensures var c := ColumnOf(FreshColumns(t, sts, vs), k);
      && Lookup(FreshColumns(t, sts, vs), k).Some?
      && c.next == |c.cells| == |sts|
      && forall i :: 0 <= i < |sts| ==> c.cells[i] == Entry(i, Binding(sts[i], k, vs).value)
  {
    FreshColumnsSpec(t, sts, vs, k);
    GatheredOnce(sts, k, vs);
  }
}
