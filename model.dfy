/** `model/Model.php`: the triple store. A `Model` holds the statements in
    insertion order, the prefix-to-namespace map, the base namespace and
    prefix used by its node factories, and the counter its blank-node ids
    are minted from.

    The PHP statement list is an array whose keys survive `unset` and whose
    appends go after the highest key; only its iteration order is ever
    observed, so it is a `seq` here. The conversions between statement lists
    and resource lists are in `ResourceLists`. */
module Store {
  import opened Wrappers
  import Seqs
  import opened Terms
  import opened OrderedMaps
  import opened Check
  import opened Statements
  import opened StoreSpec
  import Resources
  import LiteralNodes
  import BlankNodes
  import ResourceLists

  /** `BNODE`: the prefix of minted blank-node ids. */
  const Bnode := "bNode"

  /** `ALLOW_DUPLICATES`: the default duplicate policy of `add`. */
  const AllowDuplicates := true

  function DigitChar(d: nat): (c: char)
    requires d < 10
    ensures '0' <= c <= '9'
  {
    (('0' as int) + d) as char
  }

  /** PHP's decimal rendering of a natural number in a string concatenation. */
  function NatToString(n: nat): (s: string)
    ensures |s| >= 1 && (n >= 10 ==> |s| >= 2)
    ensures forall i :: 0 <= i < |s| ==> '0' <= s[i] <= '9'
    decreases n
  {
    if n < 10 then [DigitChar(n)] else NatToString(n / 10) + [DigitChar(n % 10)]
  }

  /** Different numbers render differently. */
  lemma {:induction false} NatToStringInjective(a: nat, b: nat)
    requires NatToString(a) == NatToString(b)
    ensures a == b
    decreases a
  {
    var sa, sb := NatToString(a), NatToString(b);
    if a >= 10 && b >= 10 {
      assert sa[|sa| - 1] == sb[|sb| - 1];
      assert DigitChar(a % 10) == DigitChar(b % 10);
      assert sa[..|sa| - 1] == NatToString(a / 10);
      assert sb[..|sb| - 1] == NatToString(b / 10);
      NatToStringInjective(a / 10, b / 10);
    } else {
      assert |sa| == 1 && |sb| == 1;
    }
  }

  /** The id minted for counter value `n`. */
  function MintedId(n: nat): string {
    Bnode + NatToString(n)
  }

  /** `generateUniqueId` never repeats an id: ids minted at different counter
      values differ. */
  lemma MintedIdsDistinct(a: nat, b: nat)
    requires a != b
    ensures MintedId(a) != MintedId(b)
  {
    if MintedId(a) == MintedId(b) {
      assert MintedId(a)[|Bnode|..] == NatToString(a);
      assert MintedId(b)[|Bnode|..] == NatToString(b);
      NatToStringInjective(a, b);
    }
  }

  lemma FirstIds()
    ensures MintedId(1) == "bNode1" && MintedId(4) == "bNode4"
  {
  }

  /** `addNamespace` on the prefix map: both arguments are checked, then
      the prefix is (re)bound in place. */
  function PutNamespace(nss: seq<Entry<string, string>>, prefix: string, ns: string): (r: Result<seq<Entry<string, string>>>)
    ensures r.Ok? <==> IsPrefix(prefix) && IsNamespace(ns)
    ensures !IsPrefix(prefix) ==> r == Err("API_ERROR_PREFIX")
    ensures IsPrefix(prefix) && !IsNamespace(ns) ==> r == Err("API_ERROR_NS")
    ensures r.Ok? ==> Lookup(r.value, prefix) == Some(ns)
    ensures r.Ok? ==> forall q :: q != prefix ==> Lookup(r.value, q) == Lookup(nss, q)
  {
    if !IsPrefix(prefix) then Err("API_ERROR_PREFIX")
    else if !IsNamespace(ns) then Err("API_ERROR_NS")
    else
      forall q ensures Lookup(Put(nss, prefix, ns), q) == if q == prefix then Some(ns) else Lookup(nss, q) {
        LookupPut(nss, prefix, ns, q);
      }
      Ok(Put(nss, prefix, ns))
  }

  /** `getNamespace` on the prefix map: the namespace bound to a valid
      prefix, null when none is. */
  function NamespaceOf(nss: seq<Entry<string, string>>, prefix: string): (r: Result<Option<string>>)
    ensures r.Ok? <==> IsPrefix(prefix)
    ensures r.Ok? ==> (r.value.Some? <==> prefix in Keys(nss))
    ensures r.Ok? && r.value.Some? ==> Entry(prefix, r.value.value) in nss
  {
    if !IsPrefix(prefix) then Err("API_ERROR_PREFIX")
    else
      var v := Lookup(nss, prefix);
      if v.Some? then
        var i :| 0 <= i < |nss| && nss[i] == Entry(prefix, v.value);
        assert nss[i] in nss;
        Ok(v)
      else Ok(v)
  }

  class Model {
    var statements: seq<Statement>
    var namespaces: seq<Entry<string, string>>
    var baseNamespace: Option<string>
    var basePrefix: Option<string>
    var bnodeCount: nat

    /** Every stored statement has the roles of a constructed `Statement`;
        every registered prefix and namespace passed the checks. */
    ghost predicate Valid()
      reads this
    {
      && ResourceLists.AllWellFormed(statements)
      && DistinctKeys(namespaces)
      && (forall e :: e in namespaces ==> IsPrefix(e.key) && IsNamespace(e.value))
      && (baseNamespace.Some? ==> IsNamespace(baseNamespace.value))
    }

    /** Everything but the statement list. */
    ghost function Config(): (seq<Entry<string, string>>, Option<string>, Option<string>, nat)
      reads this
    {
      (namespaces, baseNamespace, basePrefix, bnodeCount)
    }

    constructor ()
      ensures Valid()
      ensures statements == [] && namespaces == [] && baseNamespace == None && basePrefix == None
      ensures bnodeCount == 0
    {
      statements := [];
      namespaces := [];
      baseNamespace := None;
      basePrefix := None;
      bnodeCount := 0;
    }

    // -------------------------------------------------------------------
    // Namespaces

    /** `addNamespace($prefix, $namespace)`: both are checked, then the
        prefix is (re)bound. */
    method AddNamespace(prefix: string, ns: string) returns (r: Result<()>)
      requires Valid()
      modifies this
      ensures Valid()
      ensures r.Ok? <==> IsPrefix(prefix) && IsNamespace(ns)
      ensures !IsPrefix(prefix) ==> r == Err("API_ERROR_PREFIX")
      ensures IsPrefix(prefix) && !IsNamespace(ns) ==> r == Err("API_ERROR_NS")
      ensures r.Ok? ==> namespaces == Put(old(namespaces), prefix, ns)
      ensures r.Err? ==> namespaces == old(namespaces)
      ensures PutNamespace(old(namespaces), prefix, ns) == if r.Ok? then Ok(namespaces) else Err(r.message)
      ensures statements == old(statements) && baseNamespace == old(baseNamespace)
      ensures basePrefix == old(basePrefix) && bnodeCount == old(bnodeCount)
    {
      if !IsPrefix(prefix) {
        return Err("API_ERROR_PREFIX");
      }
      if !IsNamespace(ns) {
        return Err("API_ERROR_NS");
      }
      PutKeepsDistinct(namespaces, prefix, ns);
      PutEntries(namespaces, prefix, ns);
      namespaces := Put(namespaces, prefix, ns);
      return Ok(());
    }

    /** `addBaseNamespace($prefix, $namespace)`: the same checks, then the
        pair becomes the base of the factories and is registered too. */
    method AddBaseNamespace(prefix: string, ns: string) returns (r: Result<()>)
      requires Valid()
      modifies this
      ensures Valid()
      ensures r.Ok? <==> IsPrefix(prefix) && IsNamespace(ns)
      ensures !IsPrefix(prefix) ==> r == Err("API_ERROR_PREFIX")
      ensures IsPrefix(prefix) && !IsNamespace(ns) ==> r == Err("API_ERROR_NS")
      ensures r.Ok? ==> namespaces == Put(old(namespaces), prefix, ns)
      ensures r.Ok? ==> baseNamespace == Some(ns) && basePrefix == Some(prefix)
      ensures r.Err? ==> Config() == old(Config())
      ensures statements == old(statements) && bnodeCount == old(bnodeCount)
    {
      if !IsPrefix(prefix) {
        return Err("API_ERROR_PREFIX");
      }
      if !IsNamespace(ns) {
        return Err("API_ERROR_NS");
      }
      baseNamespace := Some(ns);
      basePrefix := Some(prefix);
      r := AddNamespace(prefix, ns);
    }

    /** `getNamespace($prefix)`: the namespace bound to the prefix, or null
        when none is. */
    function GetNamespace(prefix: string): (r: Result<Option<string>>)
      reads this
      ensures r.Ok? <==> IsPrefix(prefix)
      ensures r.Ok? ==> (r.value.Some? <==> prefix in Keys(namespaces))
      ensures r.Ok? && r.value.Some? ==> Entry(prefix, r.value.value) in namespaces
    {
      NamespaceOf(namespaces, prefix)
    }

    /** `hasNamespace($prefix)` */
    function HasNamespace(prefix: string): (r: Result<bool>)
      reads this
      ensures r.Ok? <==> IsPrefix(prefix)
      ensures r.Ok? ==> (r.value <==> prefix in Keys(namespaces))
    {
      if !IsPrefix(prefix) then Err("API_ERROR_PREFIX")
      else Ok(Lookup(namespaces, prefix).Some?)
    }

    /** `removeNamespace($prefix)`: unsets the binding and returns
        `!hasNamespace`, which is always true. */
    method RemoveNamespace(prefix: string) returns (r: Result<bool>)
      requires Valid()
      modifies this
      ensures Valid()
      ensures r.Ok? <==> IsPrefix(prefix)
      ensures r.Ok? ==> r.value && namespaces == Unset(old(namespaces), prefix)
      ensures r.Ok? ==> HasNamespace(prefix) == Ok(false)
      ensures r.Err? ==> namespaces == old(namespaces)
      ensures statements == old(statements) && baseNamespace == old(baseNamespace)
      ensures basePrefix == old(basePrefix) && bnodeCount == old(bnodeCount)
    {
      if !IsPrefix(prefix) {
        return Err("API_ERROR_PREFIX");
      }
      UnsetKeepsDistinct(namespaces, prefix);
      namespaces := Unset(namespaces, prefix);
      var has := HasNamespace(prefix);
      return Ok(!has.value);
    }

    // -------------------------------------------------------------------
    // Queries

    /** `size()` */
    function Size(): nat
      reads this
    {
      |statements|
    }

    /** `isEmpty()` */
    function IsEmpty(): (r: bool)
      reads this
      ensures r <==> Size() == 0
    {
      statements == []
    }

    /** `contains($statement)`: a linear scan for an equal statement. */
    method Contains(v: Value) returns (r: Result<bool>)
      ensures !IsStatement(v) ==> r == Err("API_ERROR_STATEMENT")
      ensures IsStatement(v) ==> r == Ok(StoreSpec.Contains(statements, v.statement))
    {
      if !IsStatement(v) {
        return Err("API_ERROR_STATEMENT");
      }
      if statements == [] {
        return Ok(false);
      }
      var i := 0;
      while i < |statements|
        invariant 0 <= i <= |statements|
        invariant forall j :: 0 <= j < i ==> !Equals(v.statement, Stmt(statements[j]))
      {
        if Equals(v.statement, Stmt(statements[i])) {
          return Ok(true);
        }
        i := i + 1;
      }
      return Ok(false);
    }

    /** `search($s, $p, $o)`: null on an empty store, then the argument
        checks, then a scan keeping the matching statements in order. */
    method Search(s: Value, p: Value, o: Value) returns (r: Result<Option<seq<Statement>>>)
      ensures r == SearchSpec(statements, s, p, o)
    {
      if statements == [] {
        return Ok(None);
      }
      if !IsSubject(s) && !Empty(s) {
        return Err("ERP_ERROR_SUBJECT");
      }
      if !IsPredicate(p) && !Empty(p) {
        return Err("ERP_ERROR_PREDICATE");
      }
      if !IsObject(o) && !Empty(o) {
        return Err("ERP_ERROR_OBJECT");
      }
      var found := ScanMatching(s, p, o);
      SearchSpecOk(statements, s, p, o);
      return Ok(Some(found));
    }

    /** The scan of `search`: each statement is compared position by
        position with the non-empty arguments and kept when all agree. */
    method ScanMatching(s: Value, p: Value, o: Value) returns (found: seq<Statement>)
      requires (Empty(s) || IsSubject(s)) && (Empty(p) || IsPredicate(p)) && (Empty(o) || IsObject(o))
      ensures found == Matching(statements, s, p, o)
    {
      found := [];
      var i := 0;
      while i < |statements|
        invariant 0 <= i <= |statements|
        invariant found + Matching(statements[i..], s, p, o) == Matching(statements, s, p, o)
      {
        var st := statements[i];
        var subFound := if !Empty(s) then TermEquals(s.term, Obj(Plain(st.subject))) else true;
        var preFound := if !Empty(p) then TermEquals(p.term, Obj(Plain(st.pred))) else true;
        var objFound := if !Empty(o) then TermEquals(o.term, Obj(Plain(st.obj))) else true;
        FlagsMatch(st, s, p, o);
        ghost var before := found;
        if subFound && preFound && objFound {
          found := found + [st];
        }
        SearchStep(statements, i, before, found, s, p, o);
        i := i + 1;
      }
      ScanDone(statements, i, found, s, p, o);
    }

    // -------------------------------------------------------------------
    // Adding

    /** `add($statement_or_resource, $double)`: an empty argument throws, a
        statement goes to `addStatement`, a resource or blank node to
        `addResource`, anything else throws. */
    method Add(v: Value, double: bool := AllowDuplicates) returns (r: Result<bool>)
      requires Valid()
      requires v.Stmt? ==> WellFormedStatement(v.statement)
      requires v.Obj? ==> WellFormed(v.term)
      modifies this
      ensures Valid() && Config() == old(Config())
      ensures r.Err? <==> Empty(v) || !(IsStatement(v) || IsSubject(v))
      ensures r.Err? ==> statements == old(statements)
      ensures IsStatement(v) ==> statements == AddStatementSpec(old(statements), v.statement, double)
      ensures IsSubject(v) ==> statements == AddAll(old(statements), Flatten(v.term), double)
      ensures r.Ok? ==> (r.value <==> |statements| > |old(statements)|)
    {
      if Empty(v) {
        return Err("API_ERROR");
      }
      if IsStatement(v) {
        var added := AddStatement(v.statement, double);
        return Ok(added);
      } else if IsSubject(v) {
        var added := AddResource(v.term, double);
        return Ok(added);
      } else {
        return Err("API_ERROR");
      }
    }

    /** `addStatement($statement, $double)`: forbidding duplicates, append
        only when no equal statement is stored; allowing them, always. */
    method AddStatement(st: Statement, double: bool := AllowDuplicates) returns (added: bool)
      requires Valid() && WellFormedStatement(st)
      modifies this
      ensures Valid() && Config() == old(Config())
      ensures statements == AddStatementSpec(old(statements), st, double)
      ensures double || !StoreSpec.Contains(old(statements), st) ==> statements == old(statements) + [st] && added
      ensures !double && StoreSpec.Contains(old(statements), st) ==> statements == old(statements) && !added
    {
      if !double {
        var present := Contains(Stmt(st));
        if !present.value {
          statements := statements + [st];
          return true;
        }
        return false;
      }
      statements := statements + [st];
      return true;
    }

    /** `addResource($resource, $double)`: nothing for a resource without
        properties; otherwise, property by property, first the object's own
        statements when it is a resource with properties, then the statement
        from the stripped subject through the predicate to the stripped
        object. The result is true when any of those adds succeeded. */
    method AddResource(t: Term, double: bool := AllowDuplicates) returns (added: bool)
      requires Valid() && WellFormed(t) && IsSubject(Obj(t))
      modifies this
      ensures Valid() && Config() == old(Config())
      ensures statements == AddAll(old(statements), Flatten(t), double)
      ensures added <==> |statements| > |old(statements)|
      decreases t
    {
      added := false;
      if !Resources.HasProperties(t) {
        return;
      }
      var r := Resources.RemoveAllProperties(t);
      ghost var start := statements;
      var i := 0;
      while i < |t.props|
        invariant 0 <= i <= |t.props|
        invariant Valid() && Config() == old(Config())
        invariant AddAll(statements, FlattenFrom(t, i), double) == AddAll(start, Flatten(t), double)
        invariant |statements| >= |start|
        invariant added <==> |statements| > |start|
      {
        var pred := t.props[i].key;
        var obj := t.props[i].value;
        ghost var before := statements;
        ghost var nested: seq<Statement> := [];
        if IsSubject(Obj(obj)) && Resources.HasProperties(obj) {
          nested := Flatten(obj);
          var sub := AddResource(obj, double);
          AddAllExtends(before, nested, double);
          added := sub || added;
          obj := Resources.RemoveAllProperties(obj);
        }
        ghost var middle := statements;
        var st := Statement(r.node, Resource(pred), obj.node);
        var one := AddStatement(st, double);
        added := one || added;
        FlattenStep(t, i, before, nested, double);
        i := i + 1;
      }
    }

    // -------------------------------------------------------------------
    // Removing

    /** `remove($statement_or_resource)`: an empty argument throws, a
        statement goes to `removeStatement`, a resource or blank node to
        `removeResource`, anything else throws. */
    method Remove(v: Value) returns (r: Result<bool>)
      requires Valid()
      modifies this
      ensures Valid() && Config() == old(Config())
      ensures r.Err? <==> Empty(v) || !(IsStatement(v) || IsResource(v))
      ensures r.Err? ==> statements == old(statements)
      ensures IsStatement(v) ==> statements == Without(old(statements), v.statement)
      ensures IsStatement(v) ==> r == Ok(StoreSpec.Contains(old(statements), v.statement))
      ensures IsResource(v) ==> statements == RemoveAll(old(statements), Removal(v.term))
      ensures r.Ok? ==> (r.value <==> |statements| < |old(statements)|)
    {
      if Empty(v) {
        return Err("API_ERROR");
      }
      if IsStatement(v) {
        var removed := RemoveStatement(v.statement);
        WithoutSpec(old(statements), v.statement);
        return Ok(removed);
      } else if IsResource(v) {
        var removed := RemoveResource(v.term);
        return Ok(removed);
      } else {
        return Err("API_ERROR");
      }
    }

    /** `removeStatement($statement)`: every stored statement equal to the
        argument is unset; true when at least one was. */
    method RemoveStatement(st: Statement) returns (removed: bool)
      requires Valid()
      modifies this
      ensures Valid() && Config() == old(Config())
      ensures statements == Without(old(statements), st)
      ensures removed <==> StoreSpec.Contains(old(statements), st)
    {
      var kept: seq<Statement> := [];
      removed := false;
      var i := 0;
      while i < |statements|
        invariant 0 <= i <= |statements|
        invariant kept + Without(statements[i..], st) == Without(statements, st)
        invariant removed <==> exists j :: 0 <= j < i && Equals(st, Stmt(statements[j]))
      {
        assert statements[i..][0] == statements[i] && statements[i..][1..] == statements[i + 1..];
        if Equals(st, Stmt(statements[i])) {
          removed := true;
        } else {
          kept := kept + [statements[i]];
        }
        i := i + 1;
      }
      assert statements[i..] == [];
      WithoutSpec(statements, st);
      SubsetWellFormed(kept, statements);
      statements := kept;
    }

    /** `removeResource($resource)`: nothing for a resource without
        properties; otherwise, property by property, remove the statement from
        the resource through the predicate to the object, then, for a
        resource object, its own statements. True when anything was removed. */
    method RemoveResource(t: Term) returns (removed: bool)
      requires Valid() && IsResource(Obj(t))
      modifies this
      ensures Valid() && Config() == old(Config())
      ensures statements == RemoveAll(old(statements), Removal(t))
      ensures |statements| <= |old(statements)|
      ensures removed <==> |statements| < |old(statements)|
      decreases t
    {
      removed := false;
      if t.props == [] {
        return;
      }
      ghost var start := statements;
      var i := 0;
      while i < |t.props|
        invariant 0 <= i <= |t.props|
        invariant Valid() && Config() == old(Config())
        invariant RemoveAll(statements, RemovalFrom(t, i)) == RemoveAll(start, Removal(t))
        invariant |statements| <= |start|
        invariant removed <==> |statements| < |start|
      {
        var pred := t.props[i].key;
        var obj := t.props[i].value;
        ghost var before := statements;
        var st := Statement(t.node, Resource(pred), obj.node);
        var one := RemoveStatement(st);
        WithoutSpec(before, st);
        removed := one || removed;
        ghost var middle := statements;
        ghost var nested: seq<Statement> := [];
        if IsResource(Obj(obj)) {
          nested := Removal(obj);
          var sub := RemoveResource(obj);
          removed := sub || removed;
        }
        RemovalStep(t, i, before, nested);
        i := i + 1;
      }
    }

    // -------------------------------------------------------------------
    // Editing

    /** `edit($old, $new)`: both must be non-empty; two statements are
        edited by removing the old and adding the new one, two resources by
        removing the old and adding the new resource, each add with the
        default duplicate policy; any other pair throws. */
    method Edit(a: Value, b: Value) returns (r: Result<()>)
      requires Valid()
      requires b.Stmt? ==> WellFormedStatement(b.statement)
      requires b.Obj? ==> WellFormed(b.term)
      modifies this
      ensures Valid() && Config() == old(Config())
      ensures r.Ok? <==> !Empty(a) && !Empty(b) &&
                         ((IsStatement(a) && IsStatement(b)) || (IsResource(a) && IsResource(b)))
      ensures r.Err? ==> statements == old(statements)
      ensures r.Ok? && IsStatement(a) ==>
                statements == AddStatementSpec(Without(old(statements), a.statement), b.statement, AllowDuplicates)
      ensures r.Ok? && IsResource(a) ==>
                statements == AddAll(RemoveAll(old(statements), Removal(a.term)), Flatten(b.term), AllowDuplicates)
    {
      if Empty(a) || Empty(b) {
        return Err("API_ERROR");
      }
      if IsStatement(a) && IsStatement(b) {
        var _ := RemoveStatement(a.statement);
        var _ := AddStatement(b.statement);
        return Ok(());
      } else if IsResource(a) && IsResource(b) {
        var _ := RemoveResource(a.term);
        var _ := AddResource(b.term);
        return Ok(());
      } else {
        return Err("API_ERROR");
      }
    }

    // -------------------------------------------------------------------
    // Factories

    /** `generateUniqueId()`: pre-increments the counter and appends it to
        `BNODE`. */
    method GenerateUniqueId() returns (id: string)
      requires Valid()
      modifies this
      ensures Valid()
      ensures bnodeCount == old(bnodeCount) + 1 && id == MintedId(bnodeCount)
      ensures statements == old(statements) && namespaces == old(namespaces)
      ensures baseNamespace == old(baseNamespace) && basePrefix == old(basePrefix)
    {
      bnodeCount := bnodeCount + 1;
      id := Bnode + NatToString(bnodeCount);
    }

    /** `newBlankNode()`: a blank node with a freshly minted id. */
    method NewBlankNode() returns (b: Term)
      requires Valid()
      modifies this
      ensures Valid()
      ensures bnodeCount == old(bnodeCount) + 1 && b == BlankNodes.NewBlankNode(MintedId(bnodeCount))
      ensures statements == old(statements) && namespaces == old(namespaces)
      ensures baseNamespace == old(baseNamespace) && basePrefix == old(basePrefix)
    {
      var id := GenerateUniqueId();
      b := BlankNodes.NewBlankNode(id);
    }

    /** `newResource($name)`: throws without a base namespace; an empty name
        mints a blank node; otherwise the resource named `name` in the base
        namespace, which the `Resource` constructor may still reject. */
    method NewResource(name: Option<string> := None) returns (r: Result<Term>)
      requires Valid()
      modifies this
      ensures Valid()
      ensures baseNamespace.None? ==> r == Err("API_ERROR_BASENS") && bnodeCount == old(bnodeCount)
      ensures baseNamespace.Some? && (name.None? || Empty(Str(name.value))) ==>
                bnodeCount == old(bnodeCount) + 1 && r == Ok(Plain(BlankNode(MintedId(bnodeCount))))
      ensures baseNamespace.Some? && name.Some? && !Empty(Str(name.value)) ==>
                bnodeCount == old(bnodeCount) && r == Resources.NewResource(baseNamespace.value, name)
      ensures statements == old(statements) && namespaces == old(namespaces)
      ensures baseNamespace == old(baseNamespace) && basePrefix == old(basePrefix)
    {
      if !(baseNamespace.Some? && IsNamespace(baseNamespace.value)) {
        return Err("API_ERROR_BASENS");
      }
      if name.None? || Empty(Str(name.value)) {
        var b := NewBlankNode();
        return Ok(b);
      }
      r := Resources.NewResource(baseNamespace.value, name);
    }

    /** `newLiteralNode($literal, $datatype)`: throws without a base
        namespace. */
    function NewLiteralNode(literal: string, dtype: Option<string> := Some(LiteralNodes.StringType)): (r: Result<Node>)
      requires Valid()
      reads this
      ensures r.Ok? <==> baseNamespace.Some?
      ensures r.Err? ==> r == Err("API_ERROR_BASENS")
      ensures r.Ok? ==> r.value.LiteralNode? && r.value.literal == literal && r.value.dtype == dtype
      ensures r.Ok? ==> r.value.language.None?
    {
      if !(baseNamespace.Some? && IsNamespace(baseNamespace.value)) then Err("API_ERROR_BASENS")
      else Ok(LiteralNodes.NewLiteralNode(literal, dtype))
    }

    /** `newStatement($s, $p, $o)`: the `Statement` constructor. */
    function NewStatement(s: Value, p: Value, o: Value): (r: Result<Statement>)
      ensures r.Ok? <==> IsSubject(s) && IsPredicate(p) && IsObject(o)
      ensures r.Ok? ==> r.value == Statement(s.term.node, p.term.node, o.term.node)
    {
      Statements.NewStatement(s, p, o)
    }
  }

  // ---------------------------------------------------------------------
  // Proof steps of the class

  /** The three flags of the `search` loop together are `Matches`. */
  lemma FlagsMatch(st: Statement, s: Value, p: Value, o: Value)
    requires (Empty(s) || IsSubject(s)) && (Empty(p) || IsPredicate(p)) && (Empty(o) || IsObject(o))
    ensures Matches(st, s, p, o) <==>
      && (if !Empty(s) then TermEquals(s.term, Obj(Plain(st.subject))) else true)
      && (if !Empty(p) then TermEquals(p.term, Obj(Plain(st.pred))) else true)
      && (if !Empty(o) then TermEquals(o.term, Obj(Plain(st.obj))) else true)
  {
  }

  /** One step of the `search` loop keeps what is found plus what is still
      to be scanned equal to the matching statements. */
  lemma SearchStep(stmts: seq<Statement>, i: nat, found: seq<Statement>, found': seq<Statement>,
                   s: Value, p: Value, o: Value)
    requires i < |stmts|
    requires found + Matching(stmts[i..], s, p, o) == Matching(stmts, s, p, o)
    requires found' == if Matches(stmts[i], s, p, o) then found + [stmts[i]] else found
    ensures found' + Matching(stmts[i + 1..], s, p, o) == Matching(stmts, s, p, o)
  {
    var head := if Matches(stmts[i], s, p, o) then [stmts[i]] else [];
    MatchingFirst(stmts, i, s, p, o);
    Seqs.AppendAssoc(found, head, Matching(stmts[i + 1..], s, p, o));
  }

  /** The matches from `i` on: the `i`-th statement if it matches, then the
      matches after it. */
  lemma MatchingFirst(stmts: seq<Statement>, i: nat, s: Value, p: Value, o: Value)
    requires i < |stmts|
    ensures Matching(stmts[i..], s, p, o)
            == (if Matches(stmts[i], s, p, o) then [stmts[i]] else []) + Matching(stmts[i + 1..], s, p, o)
  {
    var rest := stmts[i..];
    assert rest[0] == stmts[i] && rest[1..] == stmts[i + 1..];
    if !Matches(stmts[i], s, p, o) {
      assert [] + Matching(stmts[i + 1..], s, p, o) == Matching(stmts[i + 1..], s, p, o);
    }
  }

  lemma ScanDone(stmts: seq<Statement>, i: nat, found: seq<Statement>, s: Value, p: Value, o: Value)
    requires i == |stmts| && found + Matching(stmts[i..], s, p, o) == Matching(stmts, s, p, o)
    ensures found == Matching(stmts, s, p, o)
  {
    assert stmts[i..] == [];
    assert found + [] == found;
  }

  lemma SearchSpecOk(stmts: seq<Statement>, s: Value, p: Value, o: Value)
    requires stmts != []
    requires (Empty(s) || IsSubject(s)) && (Empty(p) || IsPredicate(p)) && (Empty(o) || IsObject(o))
    ensures SearchSpec(stmts, s, p, o) == Ok(Some(Matching(stmts, s, p, o)))
  {
  }

  lemma SubsetWellFormed(a: seq<Statement>, b: seq<Statement>)
    requires ResourceLists.AllWellFormed(b) && forall x :: x in a ==> x in b
    ensures ResourceLists.AllWellFormed(a)
  {
  }

  /** One property of `addResource`: the nested statements, then the
      property's own, then the rest. */
  lemma FlattenStep(t: Term, i: nat, before: seq<Statement>, nested: seq<Statement>, double: bool)
    requires i < |t.props|
    requires var o := t.props[i].value;
      nested == if IsSubject(Obj(o)) && o.props != [] then FlattenFrom(o, 0) else []
    ensures var st := Statement(t.node, Resource(t.props[i].key), t.props[i].value.node);
      AddAll(before, FlattenFrom(t, i), double)
      == AddAll(AddStatementSpec(AddAll(before, nested, double), st, double), FlattenFrom(t, i + 1), double)
  {
    var st := Statement(t.node, Resource(t.props[i].key), t.props[i].value.node);
    var rest := FlattenFrom(t, i + 1);
    assert FlattenFrom(t, i) == nested + ([st] + rest);
    AddAllAppend(before, nested, [st] + rest, double);
    AddAllAppend(AddAll(before, nested, double), [st], rest, double);
    assert [st][1..] == [];
  }

  /** One property of `removeResource`: the property's own statement, then
      the object's, then the rest. */
  lemma RemovalStep(t: Term, i: nat, before: seq<Statement>, nested: seq<Statement>)
    requires i < |t.props|
    requires var o := t.props[i].value;
      nested == if IsResource(Obj(o)) then RemovalFrom(o, 0) else []
    ensures var st := Statement(t.node, Resource(t.props[i].key), t.props[i].value.node);
      RemoveAll(before, RemovalFrom(t, i))
      == RemoveAll(RemoveAll(Without(before, st), nested), RemovalFrom(t, i + 1))
  {
    var st := Statement(t.node, Resource(t.props[i].key), t.props[i].value.node);
    var rest := RemovalFrom(t, i + 1);
    assert RemovalFrom(t, i) == [st] + (nested + rest);
    RemoveAllConcat(Without(before, st), nested, rest);
  }

  lemma {:induction false} RemoveAllConcat(s: seq<Statement>, a: seq<Statement>, b: seq<Statement>)
    ensures RemoveAll(s, a + b) == RemoveAll(RemoveAll(s, a), b)
    decreases |a|
  {
    if a == [] {
      assert a + b == b;
    } else {
      assert (a + b)[0] == a[0] && (a + b)[1..] == a[1..] + b;
      RemoveAllConcat(Without(s, a[0]), a[1..], b);
    }
  }
}
