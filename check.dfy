/** The argument checks of `util/Check.php`, plus the string and kind checks
    the callers use but that the shown file does not define (`isUri`,
    `isNamespace`, `isPrefix`, `isName`, `isPrefixAndName`, `isResource`,
    `isBlankNode`, `isLiteralNode`). Those are given the plain definitions
    below, chosen to agree with the accept/reject examples of the library's
    Check tests:
    - isUri            ^http://.+[#/][A-Za-z0-9]+$
    - isNamespace      ^http://.+[#/]$
    - isPrefix, isName ^[A-Za-z0-9]+$
    - isPrefixAndName  ^[A-Za-z0-9]+:[A-Za-z0-9]+$  */
module Check {
  import opened Terms
  import OrderedMaps

  predicate IsAlnum(c: char) {
    ('a' <= c <= 'z') || ('A' <= c <= 'Z') || ('0' <= c <= '9')
  }

  predicate AllAlnum(s: string) {
    forall i :: 0 <= i < |s| ==> IsAlnum(s[i])
  }

  /** The start of the longest alphanumeric suffix of `s`. */
  function NameStart(s: string): (k: nat)
    ensures k <= |s|
    ensures AllAlnum(s[k..])
    ensures 0 < k ==> !IsAlnum(s[k - 1])
    decreases |s|
  {
    if s == [] then 0
    else if IsAlnum(s[|s| - 1]) then
      var k := NameStart(s[..|s| - 1]);
      assert s[k..] == s[..|s| - 1][k..] + [s[|s| - 1]];
      k
    else |s|
  }

  predicate HasHttpScheme(s: string) {
    |s| >= 7 && s[..7] == "http://"
  }

  predicate IsSeparatorOfNamespace(c: char) {
    c == '#' || c == '/'
  }

  /** `^http://.+[#/][A-Za-z0-9]+$`, computed through the alphanumeric tail. */
  predicate IsUri(s: string) {
    HasHttpScheme(s)
    && var k := NameStart(s);
    9 <= k < |s| && IsSeparatorOfNamespace(s[k - 1])
  }

  /** `^http://.+[#/]$` */
  predicate IsNamespace(s: string) {
    HasHttpScheme(s) && |s| >= 9 && IsSeparatorOfNamespace(s[|s| - 1])
  }

  /** `^[A-Za-z0-9]+$` */
  predicate IsName(s: string) {
    |s| > 0 && AllAlnum(s)
  }

  /** Prefixes follow the same pattern as names. */
  predicate IsPrefix(s: string) {
    IsName(s)
  }

  /** `^[A-Za-z0-9]+:[A-Za-z0-9]+$`, computed through the alphanumeric tail. */
  predicate IsPrefixAndName(s: string) {
    var k := NameStart(s);
    2 <= k < |s| && s[k - 1] == ':' && IsName(s[..k - 1])
  }

  /** The regular expression of `isUri`, written as an existential split. */
  predicate UriPattern(s: string) {
    HasHttpScheme(s)
    && exists k :: 9 <= k < |s| && IsSeparatorOfNamespace(s[k - 1]) && AllAlnum(s[k..])
  }

  /** The regular expression of `isPrefixAndName`, written as a split. */
  predicate PrefixAndNamePattern(s: string) {
    exists k :: 1 <= k < |s| - 1 && s[k] == ':' && IsName(s[..k]) && IsName(s[k + 1..])
  }

  /** A non-alphanumeric character followed by an alphanumeric run marks
      the start of the longest alphanumeric suffix. */
  lemma {:induction false} NameStartAt(s: string, k: nat)
    requires 0 < k <= |s| && !IsAlnum(s[k - 1]) && AllAlnum(s[k..])
    ensures NameStart(s) == k
    decreases |s|
  {
    if k < |s| {
      assert IsAlnum(s[|s| - 1]);
      var t := s[..|s| - 1];
      assert t[k - 1] == s[k - 1];
      assert t[k..] == s[k..|s| - 1];
      NameStartAt(t, k);
    }
  }

  lemma IsUriIffPattern(s: string)
    ensures IsUri(s) <==> UriPattern(s)
  {
    if UriPattern(s) {
      var k :| 9 <= k < |s| && IsSeparatorOfNamespace(s[k - 1]) && AllAlnum(s[k..]);
      NameStartAt(s, k);
    }
  }

  lemma IsPrefixAndNameIffPattern(s: string)
    ensures IsPrefixAndName(s) <==> PrefixAndNamePattern(s)
  {
    if IsPrefixAndName(s) {
      var k := NameStart(s);
      assert 1 <= k - 1 < |s| - 1 && s[k - 1] == ':' && IsName(s[..k - 1]) && IsName(s[k..]);
    }
    if PrefixAndNamePattern(s) {
      var k :| 1 <= k < |s| - 1 && s[k] == ':' && IsName(s[..k]) && IsName(s[k + 1..]);
      NameStartAt(s, k + 1);
    }
  }

  /** `isResource`: an instance of `Resource`, which includes blank nodes. */
  predicate IsResource(v: Value) {
    v.Obj? && (v.term.node.Resource? || v.term.node.BlankNode?)
  }

  /** `isSubject`: any `Resource` instance, decorated or not. */
  predicate IsSubject(v: Value) {
    IsResource(v)
  }

  /** `isPredicate`: a `Resource` that is not a blank node and has an empty
      property map. */
  predicate IsPredicate(v: Value) {
    v.Obj? && v.term.node.Resource? && v.term.props == []
  }

  /** `isObject`: a `Resource` or a `LiteralNode`; every term is one. */
  predicate IsObject(v: Value) {
    v.Obj?
  }

  predicate IsStatement(v: Value) {
    v.Stmt?
  }

  predicate IsBlankNode(v: Value) {
    v.Obj? && v.term.node.BlankNode?
  }

  predicate IsLiteralNode(v: Value) {
    v.Obj? && v.term.node.LiteralNode?
  }

  /** `isValidURI`: not implemented in the library; any string passes. */
  predicate IsValidUri(v: Value) {
    v.Str?
  }

  /** `isValidPrefix`: not implemented in the library; any string passes. */
  predicate IsValidPrefix(v: Value) {
    v.Str?
  }

  /** Each role check accepts exactly its kinds of term. */
  lemma RolesByKind(v: Value)
    ensures IsSubject(v) <==> v.Obj? && !v.term.node.LiteralNode?
    ensures IsPredicate(v) <==> v.Obj? && v.term.node.Resource? && v.term.props == []
    ensures IsObject(v) <==> v.Obj? && (v.term.node.Resource? || v.term.node.BlankNode? || v.term.node.LiteralNode?)
    ensures IsPredicate(v) ==> IsSubject(v) && IsObject(v)
  {
  }

  /** A blank node may be a subject or an object, never a predicate. */
  lemma BlankNodeRoles(id: string, ps: seq<OrderedMaps.Entry<string, Term>>)
    ensures IsSubject(Obj(Term(BlankNode(id), ps)))
    ensures IsObject(Obj(Term(BlankNode(id), ps)))
    ensures !IsPredicate(Obj(Term(BlankNode(id), ps)))
  {
  }

  /** Strings, statements and null are never terms. */
  lemma NonTermsRejected(v: Value)
    requires !v.Obj?
    ensures !IsSubject(v) && !IsPredicate(v) && !IsObject(v)
    ensures IsStatement(v) <==> v.Stmt?
  {
  }

  lemma ValidStubs(v: Value)
    ensures IsValidUri(v) <==> v.Str?
    ensures IsValidPrefix(v) <==> v.Str?
  {
  }

  const ExampleNs := "http://example.org/"

  /** The accept/reject examples of the library's tests for `isUri`,
      `isNamespace`, `isName`/`isPrefix` and `isPrefixAndName`. */
  lemma CheckExamples()
    ensures !IsUri("test") && IsUri(ExampleNs + "test") && IsUri(ExampleNs + "test/test2")
    ensures !IsUri(ExampleNs + "test/") && !IsUri(ExampleNs + "test#")
    ensures IsNamespace(ExampleNs) && !IsNamespace("+#") && !IsNamespace(ExampleNs + "test")
    ensures !IsNamespace(ExampleNs + ":name") && !IsNamespace("extest")
    ensures IsName("test") && IsName("test2") && !IsName("+#") && !IsName(ExampleNs + "test/")
    ensures IsPrefix("ex") && !IsPrefix(ExampleNs + "test#")
    ensures IsPrefixAndName("ex:test") && !IsPrefixAndName("+#") && !IsPrefixAndName("extest")
    ensures !IsPrefixAndName(ExampleNs + "test/") && !IsPrefixAndName(ExampleNs + ":name")
  {
    var u := ExampleNs + "test";
    assert u[..7] == "http://";
    NameStartAt(u, 19);
    var u2 := ExampleNs + "test/test2";
    assert u2[..7] == "http://";
    NameStartAt(u2, 24);
    assert !IsName(ExampleNs + "test/") by { assert !IsAlnum((ExampleNs + "test/")[4]); }
    assert !IsPrefix(ExampleNs + "test#") by { assert !IsAlnum((ExampleNs + "test#")[4]); }
    assert !IsName("+#") by { assert !IsAlnum("+#"[0]); }
    NameStartAt("ex:test", 3);
    assert "ex:test"[..2] == "ex";
    assert NameStart("extest") == 0 by {
      assert AllAlnum("extest");
      NameStartZero("extest");
    }
    NameStartAt(ExampleNs + ":name", 20);
  }

  lemma {:induction false} NameStartZero(s: string)
    requires AllAlnum(s)
    ensures NameStart(s) == 0
    decreases |s|
  {
    if s != [] {
      assert IsAlnum(s[|s| - 1]);
      var t := s[..|s| - 1];
      assert AllAlnum(t) by { forall i | 0 <= i < |t| ensures IsAlnum(t[i]) { assert t[i] == s[i]; } }
      NameStartZero(t);
    }
  }
}
