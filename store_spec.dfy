/** The specification functions behind the triple store of
    `model/Model.php`: wildcard matching, the duplicate policy of
    `addStatement`, the statement lists `addResource` and `removeResource`
    walk, and the lemmas that relate them. */
module StoreSpec {
  import opened Wrappers
  import opened Terms
  import opened Check
  import opened Statements

  /** `a` is `b` with some elements left out, the rest in order. */
  predicate IsSubseq<T(==)>(a: seq<T>, b: seq<T>)
    decreases |b|
  {
    if a == [] then true
    else if b == [] then false
    else if a[0] == b[0] then IsSubseq(a[1..], b[1..])
    else IsSubseq(a, b[1..])
  }

  lemma {:induction false} SubseqOfSelf<T>(a: seq<T>)
    ensures IsSubseq(a, a)
    decreases |a|
  {
    if a != [] { SubseqOfSelf(a[1..]); }
  }

  // ---------------------------------------------------------------------
  // search

  /** One position of `search`: an empty argument is a wildcard, any other
      term must equal the statement's part (`$arg->equals($part)`). */
  predicate Hit(arg: Value, part: Node) {
    Empty(arg) || (arg.Obj? && TermEquals(arg.term, Obj(Plain(part))))
  }

  predicate Matches(st: Statement, s: Value, p: Value, o: Value) {
    Hit(s, st.subject) && Hit(p, st.pred) && Hit(o, st.obj)
  }

  /** The statements that match every non-empty position, in store order. */
  function Matching(stmts: seq<Statement>, s: Value, p: Value, o: Value): (r: seq<Statement>)
    ensures forall x :: x in r <==> x in stmts && Matches(x, s, p, o)
    ensures IsSubseq(r, stmts)
  {
    if stmts == [] then []
    else if Matches(stmts[0], s, p, o) then [stmts[0]] + Matching(stmts[1..], s, p, o)
    else
      var r := Matching(stmts[1..], s, p, o);
      SubseqSkip(r, stmts);
      r
  }

  /** `search($s, $p, $o)`: null on an empty store before any argument is
      checked; then each non-empty argument must have its role; then the
      matching statements, possibly none. */
  function SearchSpec(stmts: seq<Statement>, s: Value, p: Value, o: Value): (r: Result<Option<seq<Statement>>>)
    ensures stmts == [] ==> r == Ok(None)
    ensures stmts != [] ==> (r.Ok? <==> (Empty(s) || IsSubject(s)) && (Empty(p) || IsPredicate(p)) && (Empty(o) || IsObject(o)))
  {
    if stmts == [] then Ok(None)
    else if !IsSubject(s) && !Empty(s) then Err("ERP_ERROR_SUBJECT")
    else if !IsPredicate(p) && !Empty(p) then Err("ERP_ERROR_PREDICATE")
    else if !IsObject(o) && !Empty(o) then Err("ERP_ERROR_OBJECT")
    else Ok(Some(Matching(stmts, s, p, o)))
  }

  /** A successful search returns exactly the stored statements that match. */
  lemma SearchMembers(stmts: seq<Statement>, s: Value, p: Value, o: Value)
    requires SearchSpec(stmts, s, p, o).Ok? && SearchSpec(stmts, s, p, o).value.Some?
    ensures forall x :: x in SearchSpec(stmts, s, p, o).value.value <==> x in stmts && Matches(x, s, p, o)
  {
  }

  /** A search with three wildcards returns the whole store. */
  lemma {:induction false} WildcardMatchesAll(stmts: seq<Statement>)
    ensures Matching(stmts, Null, Null, Null) == stmts
  {
    if stmts != [] { WildcardMatchesAll(stmts[1..]); }
  }

  // ---------------------------------------------------------------------
  // contains and the duplicate policy

  /** `contains($statement)`: some stored statement is equal to it. */
  predicate Contains(stmts: seq<Statement>, st: Statement) {
    exists i :: 0 <= i < |stmts| && Equals(st, Stmt(stmts[i]))
  }

  /** `addStatement($statement, $double)`: with duplicates allowed the
      statement is always appended; otherwise only when no equal statement is
      stored. */
  function AddStatementSpec(stmts: seq<Statement>, st: Statement, double: bool): seq<Statement> {
    if double || !Contains(stmts, st) then stmts + [st] else stmts
  }

  /** A sequence of `addStatement` calls. */
  function AddAll(stmts: seq<Statement>, list: seq<Statement>, double: bool): seq<Statement>
    decreases |list|
  {
    if list == [] then stmts else AddAll(AddStatementSpec(stmts, list[0], double), list[1..], double)
  }

  /** The duplicate policy: forbidding duplicates, the statement is appended
      iff no equal one is stored, and the store is unchanged otherwise;
      allowing them, it is always appended. */
  lemma DuplicatePolicy(stmts: seq<Statement>, st: Statement)
    ensures AddStatementSpec(stmts, st, false) == stmts + [st] <==> !Contains(stmts, st)
    ensures Contains(stmts, st) ==> AddStatementSpec(stmts, st, false) == stmts
    ensures AddStatementSpec(stmts, st, true) == stmts + [st]
    ensures !Contains(stmts, st) ==> Contains(AddStatementSpec(stmts, st, false), st)
  {
    if !Contains(stmts, st) {
      EqualsIff(st, st);
      assert Equals(st, Stmt((stmts + [st])[|stmts|]));
    }
  }

  lemma {:induction false} AddAllAppend(s: seq<Statement>, a: seq<Statement>, b: seq<Statement>, d: bool)
    ensures AddAll(s, a + b, d) == AddAll(AddAll(s, a, d), b, d)
    decreases |a|
  {
    if a != [] {
      assert (a + b)[0] == a[0] && (a + b)[1..] == a[1..] + b;
      var s1 := AddStatementSpec(s, a[0], d);
      AddAllAppend(s1, a[1..], b, d);
      calc {
        AddAll(s, a + b, d);
        AddAll(s1, a[1..] + b, d);
        AddAll(AddAll(s1, a[1..], d), b, d);
        AddAll(AddAll(s, a, d), b, d);
      }
    } else {
      assert a + b == b;
    }
  }

  /** A sequence of adds keeps what was stored and appends some of the new
      statements, in order; with duplicates allowed it appends all of them. */
  lemma {:induction false} AddAllExtends(s: seq<Statement>, list: seq<Statement>, d: bool)
    ensures |AddAll(s, list, d)| >= |s|
    ensures AddAll(s, list, d)[..|s|] == s
    ensures IsSubseq(AddAll(s, list, d)[|s|..], list)
    ensures d ==> AddAll(s, list, d) == s + list
    decreases |list|
  {
    if list == [] {
      assert AddAll(s, list, d)[|s|..] == [];
    } else {
      var s1 := AddStatementSpec(s, list[0], d);
      AddAllExtends(s1, list[1..], d);
      DuplicatePolicy(s, list[0]);
      ExtendsStep(s, s1, list, AddAll(s, list, d), d);
    }
  }

  /** One add in front of a run of adds that already extends its start. */
  lemma ExtendsStep(s: seq<Statement>, s1: seq<Statement>, list: seq<Statement>, r: seq<Statement>, d: bool)
    requires list != [] && (s1 == s + [list[0]] || s1 == s) && (d ==> s1 == s + [list[0]])
    requires |r| >= |s1| && r[..|s1|] == s1 && IsSubseq(r[|s1|..], list[1..])
    requires d ==> r == s1 + list[1..]
    ensures |r| >= |s| && r[..|s|] == s
    ensures IsSubseq(r[|s|..], list)
    ensures d ==> r == s + list
  {
    assert r[..|s|] == r[..|s1|][..|s|];
    if s1 == s + [list[0]] {
      assert r[|s|..][0] == list[0] && r[|s|..][1..] == r[|s1|..];
      if d { assert s + list == s1 + list[1..]; }
    } else {
      SubseqSkip(r[|s|..], list);
    }
  }

  lemma SubseqSkip<T>(a: seq<T>, b: seq<T>)
    requires b != [] && IsSubseq(a, b[1..])
    ensures IsSubseq(a, b)
    decreases |b|, 1
  {
    if a != [] && a[0] == b[0] {
      SubseqTail(a, b[1..]);
    }
  }

  lemma SubseqTail<T>(a: seq<T>, b: seq<T>)
    requires a != [] && IsSubseq(a, b)
    ensures IsSubseq(a[1..], b)
    decreases |b|, 2
  {
    if a[0] != b[0] {
      SubseqTail(a, b[1..]);
    }
    SubseqSkip(a[1..], b);
  }

  lemma SubseqMembers<T>(a: seq<T>, b: seq<T>, x: T)
    requires IsSubseq(a, b) && x in a
    ensures x in b
    decreases |b|
  {
    if a[0] == b[0] {
      if x != a[0] { SubseqMembers(a[1..], b[1..], x); }
    } else {
      SubseqMembers(a, b[1..], x);
    }
  }

  // ---------------------------------------------------------------------
  // addResource

  /** The statements `addResource` tries to add for the properties of `t`
      from position `i` on: for each property, first the statements of a
      property-bearing object, then the statement from the stripped subject
      through the predicate to the stripped object. */
  function FlattenFrom(t: Term, i: nat): seq<Statement>
    decreases t, |t.props| - i
  {
    if i >= |t.props| then []
    else
      var o := t.props[i].value;
      (if IsSubject(Obj(o)) && o.props != [] then FlattenFrom(o, 0) else [])
      + [Statement(t.node, Resource(t.props[i].key), o.node)]
      + FlattenFrom(t, i + 1)
  }

  function Flatten(t: Term): seq<Statement> {
    FlattenFrom(t, 0)
  }

  /** Every property of `t` contributes its own statement, with stripped
      subject and object; a resource without properties yields nothing. */
  lemma {:induction false} FlattenDirect(t: Term, i: nat, j: nat)
    requires i <= j < |t.props|
    ensures Statement(t.node, Resource(t.props[j].key), t.props[j].value.node) in FlattenFrom(t, i)
    decreases |t.props| - i
  {
    if i < j { FlattenDirect(t, i + 1, j); }
  }

  lemma FlattenEmpty(t: Term)
    ensures Flatten(t) == [] <==> t.props == []
  {
  }

  /** Every flattened statement has the roles a statement needs, when the
      tree is well formed and rooted in a resource. */
  lemma {:induction false} FlattenWellFormed(t: Term, i: nat)
    requires WellFormed(t) && !t.node.LiteralNode?
    ensures forall x :: x in FlattenFrom(t, i) ==> WellFormedStatement(x)
    decreases t, |t.props| - i
  {
    if i < |t.props| {
      var o := t.props[i].value;
      if IsSubject(Obj(o)) && o.props != [] { FlattenWellFormed(o, 0); }
      FlattenWellFormed(t, i + 1);
    }
  }

  // ---------------------------------------------------------------------
  // removeStatement and removeResource

  /** `removeStatement($st)` on a list: every statement equal to `st` is
      dropped, the others keep their order. */
  function Without(stmts: seq<Statement>, st: Statement): (r: seq<Statement>)
    ensures |r| <= |stmts|
  {
    if stmts == [] then []
    else if Equals(st, Stmt(stmts[0])) then Without(stmts[1..], st)
    else [stmts[0]] + Without(stmts[1..], st)
  }

  /** What `removeStatement` keeps: exactly the statements not equal to the
      argument, in order; it shrinks the list iff an equal one was stored. */
  lemma {:induction false} WithoutSpec(stmts: seq<Statement>, st: Statement)
    ensures forall x :: x in Without(stmts, st) <==> x in stmts && !Equals(st, Stmt(x))
    ensures IsSubseq(Without(stmts, st), stmts)
    ensures |Without(stmts, st)| < |stmts| <==> Contains(stmts, st)
    decreases |stmts|
  {
    if stmts != [] {
      WithoutSpec(stmts[1..], st);
      var rest := Without(stmts[1..], st);
      if Equals(st, Stmt(stmts[0])) {
        SubseqSkip(rest, stmts);
        assert Contains(stmts, st) by { assert Equals(st, Stmt(stmts[0])); }
      } else {
        assert Contains(stmts, st) <==> Contains(stmts[1..], st) by {
          if Contains(stmts, st) {
            var k :| 0 <= k < |stmts| && Equals(st, Stmt(stmts[k]));
            assert k > 0 && stmts[1..][k - 1] == stmts[k];
          }
          if Contains(stmts[1..], st) {
            var k :| 0 <= k < |stmts| - 1 && Equals(st, Stmt(stmts[1..][k]));
            assert stmts[k + 1] == stmts[1..][k];
          }
        }
      }
    }
  }

  /** A sequence of `removeStatement` calls. */
  function RemoveAll(stmts: seq<Statement>, list: seq<Statement>): seq<Statement>
    decreases |list|
  {
    if list == [] then stmts else RemoveAll(Without(stmts, list[0]), list[1..])
  }

  /** The statements `removeResource` removes for the properties of `t` from
      position `i` on: for each property, the statement from `t` through the
      predicate to the object, then, for a resource object, its own. */
  function RemovalFrom(t: Term, i: nat): seq<Statement>
    decreases t, |t.props| - i
  {
    if i >= |t.props| then []
    else
      var o := t.props[i].value;
      [Statement(t.node, Resource(t.props[i].key), o.node)]
      + (if IsResource(Obj(o)) then RemovalFrom(o, 0) else [])
      + RemovalFrom(t, i + 1)
  }

  function Removal(t: Term): seq<Statement> {
    RemovalFrom(t, 0)
  }

  /** Whatever `addResource` adds, `removeResource` names. */
  lemma {:induction false} FlattenInRemoval(t: Term, i: nat)
    ensures forall x :: x in FlattenFrom(t, i) ==> x in RemovalFrom(t, i)
    decreases t, |t.props| - i
  {
    if i < |t.props| {
      var o := t.props[i].value;
      FlattenInRemoval(t, i + 1);
      if IsSubject(Obj(o)) && o.props != [] { FlattenInRemoval(o, 0); }
    }
  }

  lemma {:induction false} WithoutAppend(a: seq<Statement>, b: seq<Statement>, st: Statement)
    ensures Without(a + b, st) == Without(a, st) + Without(b, st)
    decreases |a|
  {
    if a != [] {
      assert (a + b)[0] == a[0] && (a + b)[1..] == a[1..] + b;
      WithoutAppend(a[1..], b, st);
      if Equals(st, Stmt(a[0])) {
        calc {
          Without(a + b, st);
          Without(a[1..] + b, st);
          Without(a[1..], st) + Without(b, st);
          Without(a, st) + Without(b, st);
        }
      } else {
        calc {
          Without(a + b, st);
          [a[0]] + Without(a[1..] + b, st);
          [a[0]] + (Without(a[1..], st) + Without(b, st));
          ([a[0]] + Without(a[1..], st)) + Without(b, st);
          Without(a, st) + Without(b, st);
        }
      }
    } else {
      assert a + b == b;
    }
  }

  lemma {:induction false} RemoveAllAppend(a: seq<Statement>, b: seq<Statement>, list: seq<Statement>)
    ensures RemoveAll(a + b, list) == RemoveAll(a, list) + RemoveAll(b, list)
    decreases |list|
  {
    if list != [] {
      WithoutAppend(a, b, list[0]);
      RemoveAllAppend(Without(a, list[0]), Without(b, list[0]), list[1..]);
    }
  }

  /** Removing a list of statements removes every value that occurs in it. */
  lemma {:induction false} RemoveAllMembers(k: seq<Statement>, list: seq<Statement>)
    requires forall x :: x in k ==> x in list
    ensures RemoveAll(k, list) == []
    decreases |k|
  {
    if k == [] {
      RemoveAllEmpty(list);
    } else {
      RemoveSingleMember(k[0], list);
      RemoveAllMembers(k[1..], list);
      assert k == [k[0]] + k[1..];
      RemoveAllAppend([k[0]], k[1..], list);
    }
  }

  lemma {:induction false} RemoveSingleMember(x: Statement, list: seq<Statement>)
    requires x in list
    ensures RemoveAll([x], list) == []
    decreases |list|
  {
    EqualsIff(x, x);
    if Equals(list[0], Stmt(x)) {
      RemoveAllEmpty(list[1..]);
    } else {
      assert x != list[0];
      RemoveSingleMember(x, list[1..]);
    }
  }

  /** `removeResource` undoes `addResource`: whatever was stored before is
      filtered as if the add had not happened. */
  lemma AddThenRemove(s: seq<Statement>, t: Term, d: bool)
    ensures RemoveAll(AddAll(s, Flatten(t), d), Removal(t)) == RemoveAll(s, Removal(t))
  {
    var r := AddAll(s, Flatten(t), d);
    AddAllExtends(s, Flatten(t), d);
    var kept := r[|s|..];
    assert r == s + kept;
    FlattenInRemoval(t, 0);
    forall x | x in kept ensures x in Removal(t) {
      SubseqMembers(kept, Flatten(t), x);
    }
    RemoveAllMembers(kept, Removal(t));
    RemoveAllAppend(s, kept, Removal(t));
  }

  /** In particular, adding a resource to an empty store and removing it
      again leaves the store empty. */
  lemma AddThenRemoveEmpty(t: Term, d: bool)
    ensures RemoveAll(AddAll([], Flatten(t), d), Removal(t)) == []
  {
    AddThenRemove([], t, d);
    RemoveAllEmpty(Removal(t));
  }

  lemma {:induction false} RemoveAllEmpty(list: seq<Statement>)
    ensures RemoveAll([], list) == []
    decreases |list|
  {
    if list != [] { RemoveAllEmpty(list[1..]); }
  }
}
