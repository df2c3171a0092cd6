/** `sparql/sparqlEngine/SparqlParser.php`: a parser built from
    case-insensitive searches and three regular expressions. It rejects
    FROM, picks the result form, and supports SELECT only. It then reads
    the variables before WHERE, the PREFIX declarations and the triples
    between "WHERE {" and the last "}", feeding each to a `SparqlQuery`. */
module SparqlParsers {
  import opened Wrappers
  import opened Terms
  import opened OrderedMaps
  import opened Check
  import opened SparqlQueries

  const FromError := "FROM is not supported"
  const NamespacesError := "Could not determine namespaces!"
  const VariablesError := "Could not determine variables!"

  // ---------------------------------------------------------------------
  // String primitives

  /** `needle` occurs at `k` in `hay`, ignoring the case of ASCII letters. */
  predicate MatchAt(hay: string, needle: string, k: nat) {
    k + |needle| <= |hay| && ToUpper(hay[k..k + |needle|]) == ToUpper(needle)
  }

  function FindFrom(hay: string, needle: string, i: nat): (r: Option<nat>)
    ensures r.Some? ==> i <= r.value && MatchAt(hay, needle, r.value)
    ensures r.Some? ==> forall j :: i <= j < r.value ==> !MatchAt(hay, needle, j)
    ensures r.None? ==> forall j :: i <= j ==> !MatchAt(hay, needle, j)
    decreases |hay| - i
  {
    if i + |needle| > |hay| then None
    else if MatchAt(hay, needle, i) then Some(i)
    else FindFrom(hay, needle, i + 1)
  }

  /** `stripos($hay, $needle)`: the first case-insensitive occurrence. */
  function StrIPos(hay: string, needle: string): Option<nat> {
    FindFrom(hay, needle, 0)
  }

  predicate ContainsCI(hay: string, needle: string) {
    StrIPos(hay, needle).Some?
  }

  /** `strrpos($s, $c)` for one character. */
  function LastIndex(s: string, c: char): (r: Option<nat>)
    ensures r.Some? ==> r.value < |s| && s[r.value] == c && forall j :: r.value < j < |s| ==> s[j] != c
    ensures r.None? ==> c !in s
  {
    if s == [] then None
    else if s[|s| - 1] == c then Some(|s| - 1)
    else
      var r := LastIndex(s[..|s| - 1], c);
      assert forall x :: x in s ==> x in s[..|s| - 1] || x == s[|s| - 1];
      r
  }

  /** The characters `trim` removes: " \t\n\r\0\x0B". */
  predicate IsBlank(c: char) {
    c == ' ' || c == '\t' || c == '\n' || c == '\r' || c as int == 0 || c as int == 11
  }

  function TrimStart(s: string, i: nat): (k: nat)
    requires i <= |s|
    ensures i <= k <= |s| && (forall j :: i <= j < k ==> IsBlank(s[j])) && (k < |s| ==> !IsBlank(s[k]))
    decreases |s| - i
  {
    if i < |s| && IsBlank(s[i]) then TrimStart(s, i + 1) else i
  }

  function TrimEnd(s: string, lo: nat, e: nat): (k: nat)
    requires lo <= e <= |s|
    ensures lo <= k <= e && (forall j :: k <= j < e ==> IsBlank(s[j])) && (k > lo ==> !IsBlank(s[k - 1]))
    decreases e
  {
    if e > lo && IsBlank(s[e - 1]) then TrimEnd(s, lo, e - 1) else e
  }

  /** `trim($s)`: the text between the leading and the trailing blanks. */
  function Trim(s: string): (t: string)
    ensures |t| <= |s|
    ensures t != [] ==> !IsBlank(t[0]) && !IsBlank(t[|t| - 1])
  {
    var a := TrimStart(s, 0);
    s[a..TrimEnd(s, a, |s|)]
  }

  function FirstIndex(s: string, c: char): (k: nat)
    requires c in s
    ensures k < |s| && s[k] == c && c !in s[..k]
  {
    if s[0] == c then 0
    else
      assert c in s[1..] by { var j :| 0 <= j < |s| && s[j] == c; assert s[1..][j - 1] == c; }
      var k := FirstIndex(s[1..], c);
      assert s[..k + 1] == [s[0]] + s[1..][..k];
      k + 1
  }

  lemma {:induction false} FirstIndexAt(s: string, c: char, j: nat)
    requires j < |s| && s[j] == c && c !in s[..j]
    ensures FirstIndex(s, c) == j
  {
    assert c in s;
    if j > 0 {
      assert s[0] == s[..j][0];
      assert s[1..][j - 1] == c && s[1..][..j - 1] == s[..j][1..];
      FirstIndexAt(s[1..], c, j - 1);
    }
  }

  /** The inverse of `explode`: the pieces with the separator between them. */
  function Join(pieces: seq<string>, c: char): string
    requires |pieces| >= 1
  {
    if |pieces| == 1 then pieces[0] else pieces[0] + [c] + Join(pieces[1..], c)
  }

  /** `explode($c, $s)` for a one-character separator: the text between
      consecutive separators, always at least one piece. */
  function Split(s: string, c: char): (r: seq<string>)
    ensures |r| >= 1
    ensures forall i :: 0 <= i < |r| ==> c !in r[i]
    ensures Join(r, c) == s
    decreases |s|
  {
    if c !in s then [s]
    else
      var k := FirstIndex(s, c);
      var rest := Split(s[k + 1..], c);
      assert s == s[..k] + [c] + s[k + 1..];
      [s[..k]] + rest
  }

  /** Joining pieces without separators and splitting again gives the
      pieces back. */
  lemma {:induction false} SplitJoin(pieces: seq<string>, c: char)
    requires |pieces| >= 1 && forall i :: 0 <= i < |pieces| ==> c !in pieces[i]
    ensures Split(Join(pieces, c), c) == pieces
    decreases |pieces|
  {
    var s := Join(pieces, c);
    if |pieces| == 1 {
      assert s == pieces[0];
    } else {
      var tail := Join(pieces[1..], c);
      assert s == pieces[0] + [c] + tail;
      assert s[|pieces[0]|] == c;
      assert c in s;
      assert s[..|pieces[0]|] == pieces[0];
      FirstIndexAt(s, c, |pieces[0]|);
      var k := FirstIndex(s, c);
      assert s[k + 1..] == tail;
      SplitJoin(pieces[1..], c);
    }
  }

  // ---------------------------------------------------------------------
  // getResultFormat

  /** `getResultFormat()`: the first of SELECT, ASK, CONSTRUCT and DESCRIBE
      that occurs anywhere in the query, in that priority order. */
  function ResultFormat(text: string): (r: Result<string>)
    ensures r == Ok("SELECT") <==> ContainsCI(text, "SELECT")
    ensures r == Ok("ASK") <==> !ContainsCI(text, "SELECT") && ContainsCI(text, "ASK")
    ensures r == Ok("CONSTRUCT") <==> !ContainsCI(text, "SELECT") && !ContainsCI(text, "ASK") && ContainsCI(text, "CONSTRUCT")
    ensures r == Ok("DESCRIBE") <==> !ContainsCI(text, "SELECT") && !ContainsCI(text, "ASK")
                                     && !ContainsCI(text, "CONSTRUCT") && ContainsCI(text, "DESCRIBE")
    ensures r.Err? <==> !ContainsCI(text, "SELECT") && !ContainsCI(text, "ASK")
                        && !ContainsCI(text, "CONSTRUCT") && !ContainsCI(text, "DESCRIBE")
    ensures r.Err? ==> r == Err(FormatError)
  {
    if ContainsCI(text, "SELECT") then Ok("SELECT")
    else if ContainsCI(text, "ASK") then Ok("ASK")
    else if ContainsCI(text, "CONSTRUCT") then Ok("CONSTRUCT")
    else if ContainsCI(text, "DESCRIBE") then Ok("DESCRIBE")
    else Err(FormatError)
  }

  // ---------------------------------------------------------------------
  // handleSelect: preg_match_all('/(?P<var>\?[a-z0-9]+)+/i', ...)

  /** A `\?[a-z0-9]` start of the repeated group at `i`. */
  predicate UnitAt(s: string, i: nat) {
    i + 1 < |s| && s[i] == '?' && IsAlnum(s[i + 1])
  }

  /** The matches of the variable pattern from `i` on. The group repeats
      over adjacent units such as "?x?y" and keeps only its last capture,
      so a unit is reported only when no other unit follows it at once. */
  function VariableMatches(s: string, i: nat): (r: seq<string>)
    requires i <= |s|
    ensures forall v :: v in r ==> IsVariable(v)
    decreases |s| - i
  {
    if i == |s| then []
    else if UnitAt(s, i) then
      var u := AlnumEnd(s, i + 1);
      var v := s[i..u];
      assert v[0] == '?' && v[1..] == s[i + 1..u] && IsName(v[1..]);
      (if UnitAt(s, u) then [] else [v]) + VariableMatches(s, u)
    else VariableMatches(s, i + 1)
  }

  /** The pattern finds nothing exactly when no '?' is followed by a letter
      or digit. */
  lemma {:induction false} NoVariablesIff(s: string, i: nat)
    requires i <= |s|
    ensures VariableMatches(s, i) == [] <==> forall j :: i <= j ==> !UnitAt(s, j)
    decreases |s| - i
  {
    if i < |s| {
      NoVariablesIff(s, if UnitAt(s, i) then AlnumEnd(s, i + 1) else i + 1);
      if UnitAt(s, i) {
        var u := AlnumEnd(s, i + 1);
        if !UnitAt(s, u) {
          assert VariableMatches(s, i) != [];
        }
      }
    }
  }

  /** `substr($q, 0, stripos($q, "WHERE"))`: the text before the first
      WHERE, or "" when there is none (a `false` length is 0). */
  function SelectRegion(text: string): (r: string)
    ensures !ContainsCI(text, "WHERE") ==> r == ""
  {
    match StrIPos(text, "WHERE")
    case None => ""
    case Some(k) => text[..k]
  }

  /** `addResultVariable` for each variable, in order. */
  function AddVariables(q: QueryState, vars: seq<string>): Result<QueryState>
    decreases |vars|
  {
    if vars == [] then Ok(q)
    else
      var q1 :- AddResultVariableSpec(q, vars[0]);
      AddVariables(q1, vars[1..])
  }

  /** `handleSelect()` */
  function HandleSelectSpec(q: QueryState): Result<QueryState> {
    var vars := VariableMatches(SelectRegion(q.text), 0);
    if vars == [] then Err(VariablesError) else AddVariables(q, vars)
  }

  /** Valid variables are all added; the result variables are then those of
      `q` and the added ones, and nothing else changes. */
  lemma {:induction false} AddVariablesSpec(q: QueryState, vars: seq<string>)
    requires forall v :: v in vars ==> IsVariable(v)
    ensures AddVariables(q, vars).Ok?
    ensures var r := AddVariables(q, vars).value;
      && r.(resultVariables := q.resultVariables) == q
      && forall v :: v in Keys(r.resultVariables) <==> v in Keys(q.resultVariables) || v in vars
    ensures DistinctKeys(q.resultVariables) ==> DistinctKeys(AddVariables(q, vars).value.resultVariables)
    decreases |vars|
  {
    if vars != [] {
      var q1 := AddResultVariableSpec(q, vars[0]).value;
      assert forall v :: v in vars[1..] ==> v in vars;
      AddVariablesSpec(q1, vars[1..]);
      forall v ensures v in Keys(q1.resultVariables) <==> v in Keys(q.resultVariables) || v == vars[0] {
        assert Lookup(q1.resultVariables, v).Some? <==> v in Keys(q1.resultVariables);
      }
      assert forall v :: v in vars <==> v == vars[0] || v in vars[1..];
      if DistinctKeys(q.resultVariables) {
        PutKeepsDistinct(q.resultVariables, vars[0], vars[0]);
      }
    }
  }

  // ---------------------------------------------------------------------
  // handleNamespaces: preg_match_all('/(?P<prefix>[a-z0-9]+): <(?P<namespace>[^ ]+)> /i', ...)

  /** The first space at or after `i`, or `|s|`. */
  function SpaceFrom(s: string, i: nat): (e: nat)
    requires i <= |s|
    ensures i <= e <= |s| && (e < |s| ==> s[e] == ' ') && forall j :: i <= j < e ==> s[j] != ' '
    decreases |s| - i
  {
    if i == |s| || s[i] == ' ' then i else SpaceFrom(s, i + 1)
  }

  /** A match of the declaration pattern starting at `i`: the prefix is the
      alphanumeric run there, followed by ": <"; the namespace runs to the
      first space, which must come right after a '>'. The last component
      is the index after the match. */
  function DeclarationAt(s: string, i: nat): (r: Option<(string, string, nat)>)
    requires i <= |s|
    ensures r.Some? ==> IsName(r.value.0) && r.value.1 != [] && ' ' !in r.value.1 && i < r.value.2 <= |s|
  {
    if i < |s| && IsAlnum(s[i]) then
      var k := AlnumEnd(s, i);
      if k + 3 <= |s| && s[k..k + 3] == ": <" then
        var sp := SpaceFrom(s, k + 3);
        if sp < |s| && sp >= k + 5 && s[sp - 1] == '>' then
          var ns := s[k + 3..sp - 1];
          assert forall j :: 0 <= j < |ns| ==> ns[j] == s[k + 3 + j];
          Some((s[i..k], ns, sp + 1))
        else None
      else None
    else None
  }

  /** All declarations from `i` on; after a match the search resumes after
      it. */
  function DeclarationMatches(s: string, i: nat): (r: seq<(string, string)>)
    requires i <= |s|
    ensures forall d :: d in r ==> IsName(d.0) && d.1 != [] && ' ' !in d.1
    decreases |s| - i
  {
    if i == |s| then []
    else match DeclarationAt(s, i)
      case Some((p, ns, e)) => [(p, ns)] + DeclarationMatches(s, e)
      case None => DeclarationMatches(s, i + 1)
  }

  /** "prefix: <namespace> " at `i` is matched there. */
  lemma DeclarationFound(s: string, i: nat, prefix: string, ns: string)
    requires IsName(prefix) && ns != [] && ' ' !in ns
    requires i + |prefix| + |ns| + 5 <= |s| && s[i..i + |prefix| + |ns| + 5] == prefix + ": <" + ns + "> "
    ensures DeclarationAt(s, i) == Some((prefix, ns, i + |prefix| + |ns| + 5))
  {
    DeclarationHead(s, i, prefix, ns);
    DeclarationTail(s, i, prefix, ns);
  }

  lemma DeclarationHead(s: string, i: nat, prefix: string, ns: string)
    requires IsName(prefix)
    requires i + |prefix| + |ns| + 5 <= |s| && s[i..i + |prefix| + |ns| + 5] == prefix + ": <" + ns + "> "
    ensures IsAlnum(s[i]) && AlnumEnd(s, i) == i + |prefix|
    ensures s[i..i + |prefix|] == prefix && s[i + |prefix|..i + |prefix| + 3] == ": <"
  {
    var d := prefix + ": <" + ns + "> ";
    var k := i + |prefix|;
    assert forall j :: 0 <= j < |d| ==> s[i + j] == d[j];
    assert s[i..k] == prefix by { assert forall j :: 0 <= j < |prefix| ==> s[i + j] == d[j] == prefix[j]; }
    assert s[k] == ':' by { assert d[|prefix|] == ':'; }
    AlnumEndAt(s, i, k);
    assert s[k..k + 3] == ": <" by { assert d[|prefix|..|prefix| + 3] == ": <"; }
  }

  lemma DeclarationTail(s: string, i: nat, prefix: string, ns: string)
    requires ns != [] && ' ' !in ns
    requires i + |prefix| + |ns| + 5 <= |s| && s[i..i + |prefix| + |ns| + 5] == prefix + ": <" + ns + "> "
    ensures var k := i + |prefix|; var sp := k + 3 + |ns| + 1;
      && SpaceFrom(s, k + 3) == sp && s[sp - 1] == '>' && s[k + 3..sp - 1] == ns
  {
    var d := prefix + ": <" + ns + "> ";
    var k := i + |prefix|;
    assert forall j :: 0 <= j < |d| ==> s[i + j] == d[j];
    var sp := k + 3 + |ns| + 1;
    assert s[sp] == ' ' && s[sp - 1] == '>' by { assert d[|d| - 1] == ' ' && d[|d| - 2] == '>'; }
    forall j | k + 3 <= j < sp ensures s[j] != ' ' {
      if j < sp - 1 {
        assert s[j] == d[j - i] == ns[j - k - 3];
        assert ns[j - k - 3] in ns;
      }
    }
    assert SpaceFrom(s, k + 3) == sp;
    assert s[k + 3..sp - 1] == ns by {
      assert forall j :: 0 <= j < |ns| ==> s[k + 3 + j] == d[|prefix| + 3 + j] == ns[j];
    }
  }



  /** `addNamespace` for each declaration, in order. */
  function AddNamespaces(q: QueryState, decls: seq<(string, string)>): Result<QueryState>
    decreases |decls|
  {
    if decls == [] then Ok(q)
    else
      var q1 :- AddNamespaceSpec(q, decls[0].0, decls[0].1);
      AddNamespaces(q1, decls[1..])
  }

  lemma AddNamespacesStep(q: QueryState, decls: seq<(string, string)>)
    requires decls != []
    ensures AddNamespaces(q, decls) == match AddNamespaceSpec(q, decls[0].0, decls[0].1)
                                       case Ok(q1) => AddNamespaces(q1, decls[1..])
                                       case Err(m) => Err(m)
  {
  }

  /** `handleNamespaces()` */
  function HandleNamespacesSpec(q: QueryState): Result<QueryState> {
    var decls := DeclarationMatches(q.text, 0);
    if decls == [] then Err(NamespacesError) else AddNamespaces(q, decls)
  }

  /** Registering declarations succeeds exactly when every namespace is
      valid (the prefixes always are); then the prefixes are those of `q`
      and the declared ones, and nothing else changes. */
  lemma {:induction false} AddNamespacesSpec(q: QueryState, decls: seq<(string, string)>)
    requires forall d :: d in decls ==> IsName(d.0)
    ensures AddNamespaces(q, decls).Ok? <==> forall d :: d in decls ==> IsNamespace(d.1)
    ensures AddNamespaces(q, decls).Ok? ==>
      var r := AddNamespaces(q, decls).value;
      && r.(namespaces := q.namespaces) == q
      && forall p :: p in Keys(r.namespaces) <==> p in Keys(q.namespaces) || exists d :: d in decls && d.0 == p
    decreases |decls|
  {
    if decls != [] {
      var d0 := decls[0];
      assert d0 in decls;
      assert forall d :: d in decls <==> d == d0 || d in decls[1..];
      if IsNamespace(d0.1) {
        var q1 := AddNamespaceSpec(q, d0.0, d0.1).value;
        AddNamespacesSpec(q1, decls[1..]);
        forall p ensures p in Keys(q1.namespaces) <==> p in Keys(q.namespaces) || p == d0.0 {
          assert Lookup(q1.namespaces, p).Some? <==> p in Keys(q1.namespaces);
        }
      }
    }
  }

  // ---------------------------------------------------------------------
  // handleWhere

  /** The text of the triples: from the 8th character after "WHERE {" (or
      from index 8 when that text is missing, `false + 8`), up to the last
      "}" (nothing when there is none), trimmed. */
  function WhereRegion(text: string): string {
    var start := match StrIPos(text, "WHERE {") case Some(k) => k + 8 case None => 8;
    var rest := if start <= |text| then text[start..] else "";
    var cut := match LastIndex(rest, '}') case Some(k) => rest[..k] case None => "";
    Trim(cut)
  }

  /** One segment per triple: the whole text when it has no '.', else the
      pieces between the dots. */
  function WhereSegments(text: string): (r: seq<string>)
    ensures |r| >= 1
  {
    var t := WhereRegion(text);
    if '.' !in t then [t] else Split(t, '.')
  }

  /** `list($subj, $pred, $obj) = explode(" ", trim($token))`: the first three
      pieces; a missing piece is null, which no node pattern accepts, read
      here as "". */
  function TripleTokens(segment: string): (string, string, string) {
    var ps := Split(Trim(segment), ' ');
    (ps[0], if |ps| > 1 then ps[1] else "", if |ps| > 2 then ps[2] else "")
  }

  /** `addWhereTriple` for each segment, in order. */
  function AddTriples(q: QueryState, segments: seq<string>): Result<QueryState>
    decreases |segments|
  {
    if segments == [] then Ok(q)
    else
      var t := TripleTokens(segments[0]);
      var q1 :- AddWhereTripleSpec(q, t.0, t.1, t.2);
      AddTriples(q1, segments[1..])
  }

  lemma AddTriplesStep(q: QueryState, segments: seq<string>)
    requires segments != []
    ensures var t := TripleTokens(segments[0]);
      AddTriples(q, segments) == match AddWhereTripleSpec(q, t.0, t.1, t.2)
                                 case Ok(q1) => AddTriples(q1, segments[1..])
                                 case Err(m) => Err(m)
  {
  }

  /** `handleWhere()` */
  function HandleWhereSpec(q: QueryState): Result<QueryState> {
    AddTriples(q, WhereSegments(q.text))
  }

  /** Each segment stores exactly one triple, and nothing but the WHERE
      triples changes. */
  lemma {:induction false} AddTriplesCounts(q: QueryState, segments: seq<string>)
    requires DistinctKeys(q.whereTriples) && AddTriples(q, segments).Ok?
    ensures TripleCount(AddTriples(q, segments).value.whereTriples) == TripleCount(q.whereTriples) + |segments|
    ensures AddTriples(q, segments).value.(whereTriples := q.whereTriples) == q
    decreases |segments|
  {
    if segments != [] {
      var t := TripleTokens(segments[0]);
      AddWhereTripleCounts(q, t.0, t.1, t.2);
      AddTriplesCounts(AddWhereTripleSpec(q, t.0, t.1, t.2).value, segments[1..]);
    }
  }

  // ---------------------------------------------------------------------
  // parse

  /** `parse($queryString)`: FROM is refused before anything else; the form
      is set next and must be SELECT; then the variables, then the
      prefixes when PREFIX occurs, then the triples when WHERE occurs. */
  function ParseSpec(text: string): (r: Result<QueryState>)
    ensures ContainsCI(text, "FROM") ==> r == Err(FromError)
  {
    if ContainsCI(text, "FROM") then Err(FromError)
    else
      var formName :- ResultFormat(text);
      match SetResultFormSpec(EmptyQuery.(text := text), formName)
      case Err(m) => Err(m)
      case Ok(q1) =>
        if q1.form != Some(Select) then Err(SupportError) else AfterForm(q1)
  }

  /** The steps after the form: the variables, then the prefixes when
      PREFIX occurs, then the triples when WHERE occurs. */
  function AfterForm(q1: QueryState): Result<QueryState> {
    var q2 :- HandleSelectSpec(q1);
    var q3 :- if ContainsCI(q1.text, "PREFIX") then HandleNamespacesSpec(q2) else Ok(q2);
    if ContainsCI(q1.text, "WHERE") then HandleWhereSpec(q3) else Ok(q3)
  }

  /** Only SELECT is supported: a query that names none of the four forms
      fails with the format error, and one whose first form by priority is
      ASK, CONSTRUCT or DESCRIBE fails with the support error. */
  lemma OnlySelect(text: string)
    requires !ContainsCI(text, "FROM")
    ensures ResultFormat(text).Err? ==> ParseSpec(text) == Err(FormatError)
    ensures ResultFormat(text).Ok? && ResultFormat(text) != Ok("SELECT") ==> ParseSpec(text) == Err(SupportError)
  {
    if ResultFormat(text).Ok? && ResultFormat(text) != Ok("SELECT") {
      OtherForm(text);
    }
  }

  lemma OtherForm(text: string)
    requires !ContainsCI(text, "FROM") && ResultFormat(text).Ok? && ResultFormat(text) != Ok("SELECT")
    ensures ParseSpec(text) == Err(SupportError)
  {
    var f := ResultFormat(text).value;
    FormOfName(f);
  }

  /** The names `ResultFormat` gives are read as their forms. */
  lemma FormOfName(f: string)
    requires f in ["SELECT", "ASK", "CONSTRUCT", "DESCRIBE"]
    ensures ParseForm(f).Ok? && (ParseForm(f).value == Select <==> f == "SELECT")
  {
    if f == "SELECT" {
      ParseFormCaseInsensitive(f, Select);
    } else if f == "ASK" {
      ParseFormCaseInsensitive(f, Ask);
    } else if f == "CONSTRUCT" {
      ParseFormCaseInsensitive(f, Construct);
    } else {
      ParseFormCaseInsensitive(f, Describe);
    }
  }

  /** A SELECT query whose text before the first WHERE holds no '?' followed
      by a letter or digit fails with the variables error, whatever its
      prefixes say: variables are read before prefixes. A SELECT query
      without WHERE therefore always fails. */
  lemma VariablesFirst(text: string)
    requires !ContainsCI(text, "FROM") && ContainsCI(text, "SELECT")
    requires forall j :: 0 <= j ==> !UnitAt(SelectRegion(text), j)
    ensures ParseSpec(text) == Err(VariablesError)
  {
    NoVariablesIff(SelectRegion(text), 0);
    assert ToUpper("SELECT") == "SELECT";
  }

  lemma SelectNeedsWhere(text: string)
    requires !ContainsCI(text, "FROM") && ContainsCI(text, "SELECT") && !ContainsCI(text, "WHERE")
    ensures ParseSpec(text) == Err(VariablesError)
  {
    VariablesFirst(text);
  }

  /** What a successful parse holds: the result variables are exactly the
      matches before WHERE; when PREFIX occurs, at least one declaration was
      found and the prefixes are exactly the declared ones, otherwise there
      are none; when WHERE occurs, one triple per segment is stored,
      otherwise none. */
  lemma ParsedQuery(text: string)
    requires ParseSpec(text).Ok?
    ensures var r := ParseSpec(text).value;
      && (forall v :: v in Keys(r.resultVariables) <==> v in VariableMatches(SelectRegion(text), 0))
      && (ContainsCI(text, "PREFIX") ==> DeclarationMatches(text, 0) != [])
      && (forall p :: p in Keys(r.namespaces) <==>
            ContainsCI(text, "PREFIX") && exists d :: d in DeclarationMatches(text, 0) && d.0 == p)
      && TripleCount(r.whereTriples) == (if ContainsCI(text, "WHERE") then |WhereSegments(text)| else 0)
      && r.text == text && r.form == Some(Select)
      && ValidState(r)
  {
    OnlySelect(text);
    SelectParsed(text);
    AfterFormFacts(EmptyQuery.(text := text).(form := Some(Select)));
  }

  lemma SelectParsed(text: string)
    requires !ContainsCI(text, "FROM") && ContainsCI(text, "SELECT")
    ensures ParseSpec(text) == AfterForm(EmptyQuery.(text := text).(form := Some(Select)))
  {
    FormOfName("SELECT");
  }

  lemma AfterFormFacts(q1: QueryState)
    requires q1 == EmptyQuery.(text := q1.text).(form := Some(Select)) && AfterForm(q1).Ok?
    ensures var r := AfterForm(q1).value; var text := q1.text;
      && (forall v :: v in Keys(r.resultVariables) <==> v in VariableMatches(SelectRegion(text), 0))
      && (ContainsCI(text, "PREFIX") ==> DeclarationMatches(text, 0) != [])
      && (forall p :: p in Keys(r.namespaces) <==>
            ContainsCI(text, "PREFIX") && exists d :: d in DeclarationMatches(text, 0) && d.0 == p)
      && TripleCount(r.whereTriples) == (if ContainsCI(text, "WHERE") then |WhereSegments(text)| else 0)
      && r.text == text && r.form == Some(Select)
      && ValidState(r)
  {
    SelectStep(q1);
    var q2 := HandleSelectSpec(q1).value;
    PrefixStep(q2);
    var q3 := (if ContainsCI(q2.text, "PREFIX") then HandleNamespacesSpec(q2) else Ok(q2)).value;
    WhereStep(q3);
  }

  /** After the variables: only they are set. */
  lemma SelectStep(q1: QueryState)
    requires q1 == EmptyQuery.(text := q1.text).(form := Some(Select)) && HandleSelectSpec(q1).Ok?
    ensures var q2 := HandleSelectSpec(q1).value;
      && ValidState(q2) && q2.namespaces == [] && q2.whereTriples == []
      && q2.text == q1.text && q2.form == Some(Select)
      && (forall v :: v in Keys(q2.resultVariables) <==> v in VariableMatches(SelectRegion(q1.text), 0))
  {
    AddVariablesSpec(q1, VariableMatches(SelectRegion(q1.text), 0));
  }

  /** After the prefixes: the declared ones, when PREFIX occurs. */
  lemma PrefixStep(q2: QueryState)
    requires ValidState(q2) && q2.namespaces == [] && q2.whereTriples == []
    requires (if ContainsCI(q2.text, "PREFIX") then HandleNamespacesSpec(q2) else Ok(q2)).Ok?
    ensures var q3 := (if ContainsCI(q2.text, "PREFIX") then HandleNamespacesSpec(q2) else Ok(q2)).value;
      && ValidState(q3) && q3.whereTriples == [] && q3.(namespaces := q2.namespaces) == q2
      && (ContainsCI(q2.text, "PREFIX") ==> DeclarationMatches(q2.text, 0) != [])
      && (forall p :: p in Keys(q3.namespaces) <==>
            ContainsCI(q2.text, "PREFIX") && exists d :: d in DeclarationMatches(q2.text, 0) && d.0 == p)
  {
    if ContainsCI(q2.text, "PREFIX") {
      var decls := DeclarationMatches(q2.text, 0);
      AddNamespacesSpec(q2, decls);
      AddNamespacesValid(q2, decls);
    }
  }

  /** After the triples: one per segment, when WHERE occurs. */
  lemma WhereStep(q3: QueryState)
    requires ValidState(q3) && q3.whereTriples == []
    requires (if ContainsCI(q3.text, "WHERE") then HandleWhereSpec(q3) else Ok(q3)).Ok?
    ensures var r := (if ContainsCI(q3.text, "WHERE") then HandleWhereSpec(q3) else Ok(q3)).value;
      && ValidState(r) && r.(whereTriples := q3.whereTriples) == q3
      && TripleCount(r.whereTriples) == (if ContainsCI(q3.text, "WHERE") then |WhereSegments(q3.text)| else 0)
  {
    if ContainsCI(q3.text, "WHERE") {
      AddTriplesCounts(q3, WhereSegments(q3.text));
      AddTriplesValid(q3, WhereSegments(q3.text));
    }
  }

  lemma {:induction false} AddNamespacesValid(q: QueryState, decls: seq<(string, string)>)
    requires ValidState(q) && AddNamespaces(q, decls).Ok?
    ensures ValidState(AddNamespaces(q, decls).value)
    decreases |decls|
  {
    if decls != [] {
      StepsKeepValid(q, decls[0].0, decls[0].1, "");
      AddNamespacesValid(AddNamespaceSpec(q, decls[0].0, decls[0].1).value, decls[1..]);
    }
  }

  lemma {:induction false} AddTriplesValid(q: QueryState, segments: seq<string>)
    requires ValidState(q) && AddTriples(q, segments).Ok?
    ensures ValidState(AddTriples(q, segments).value)
    decreases |segments|
  {
    if segments != [] {
      var t := TripleTokens(segments[0]);
      StepsKeepValid(q, t.0, t.1, t.2);
      AddTriplesValid(AddWhereTripleSpec(q, t.0, t.1, t.2).value, segments[1..]);
    }
  }

  // ---------------------------------------------------------------------
  // The parser's methods, each feeding a `SparqlQuery`

  /** A method's result and final state against a specification function
      whose steps may throw part-way: on success the new state, on a throw
      the same message (the steps already taken stay, and `parse` discards
      the object). */
  predicate Completed(spec: Result<QueryState>, r: Result<()>, after: QueryState) {
    match spec
    case Ok(q) => r == Ok(()) && after == q
    case Err(m) => r == Err(m)
  }

  /** `handleSelect()` */
  method HandleSelect(q: SparqlQuery) returns (r: Result<()>)
    modifies q
    ensures Stepped(HandleSelectSpec(old(q.State())), r, old(q.State()), q.State())
  {
    var vars := VariableMatches(SelectRegion(q.text), 0);
    if vars == [] {
      return Err(VariablesError);
    }
    ghost var start := q.State();
    var i := 0;
    while i < |vars|
      invariant 0 <= i <= |vars|
      invariant q.text == start.text
      invariant AddVariables(q.State(), vars[i..]) == AddVariables(start, vars)
    {
      assert vars[i..][1..] == vars[i + 1..];
      // Every match is a valid variable, so adding it cannot fail.
      var _ := q.AddResultVariable(vars[i]);
      i := i + 1;
    }
    r := Ok(());
  }

  /** `handleNamespaces()` */
  method HandleNamespaces(q: SparqlQuery) returns (r: Result<()>)
    modifies q
    ensures Completed(HandleNamespacesSpec(old(q.State())), r, q.State())
  {
    var decls := DeclarationMatches(q.text, 0);
    if decls == [] {
      return Err(NamespacesError);
    }
    ghost var start := q.State();
    var i := 0;
    while i < |decls|
      invariant 0 <= i <= |decls|
      invariant AddNamespaces(q.State(), decls[i..]) == AddNamespaces(start, decls)
    {
      assert decls[i..][0] == decls[i] && decls[i..][1..] == decls[i + 1..];
      AddNamespacesStep(q.State(), decls[i..]);
      var added := q.AddNamespace(decls[i].0, decls[i].1);
      if added.Err? {
        return added;
      }
      i := i + 1;
    }
    r := Ok(());
  }

  /** `handleWhere()` */
  method HandleWhere(q: SparqlQuery) returns (r: Result<()>)
    modifies q
    ensures Completed(HandleWhereSpec(old(q.State())), r, q.State())
  {
    var segments := WhereSegments(q.text);
    ghost var start := q.State();
    var i := 0;
    while i < |segments|
      invariant 0 <= i <= |segments|
      invariant AddTriples(q.State(), segments[i..]) == AddTriples(start, segments)
    {
      assert segments[i..][0] == segments[i] && segments[i..][1..] == segments[i + 1..];
      var t := TripleTokens(segments[i]);
      AddTriplesStep(q.State(), segments[i..]);
      var added := q.AddWhereTriple(t.0, t.1, t.2);
      if added.Err? {
        return added;
      }
      i := i + 1;
    }
    r := Ok(());
  }

  /** `parse($queryString)`: a fresh query filled by the steps above. */
  method Parse(text: string) returns (r: Result<SparqlQuery>)
    ensures ParseSpec(text).Err? ==> r == Err(ParseSpec(text).message)
    ensures ParseSpec(text).Ok? ==> r.Ok? && fresh(r.value) && r.value.State() == ParseSpec(text).value
  {
    if ContainsCI(text, "FROM") {
      return Err(FromError);
    }
    var q := new SparqlQuery();
    q.SetQueryString(text);
    var formName := ResultFormat(text);
    if formName.Err? {
      return Err(formName.message);
    }
    var formSet := q.SetResultForm(formName.value);
    if formSet.Err? {
      return Err(formSet.message);
    }
    if q.form != Some(Select) {
      return Err(SupportError);
    }
    var selected := HandleSelect(q);
    if selected.Err? {
      return Err(selected.message);
    }
    if ContainsCI(text, "PREFIX") {
      var declared := HandleNamespaces(q);
      if declared.Err? {
        return Err(declared.message);
      }
    }
    if ContainsCI(text, "WHERE") {
      var triples := HandleWhere(q);
      if triples.Err? {
        return Err(triples.message);
      }
    }
    r := Ok(q);
  }
}
