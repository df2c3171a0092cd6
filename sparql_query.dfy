/** `sparql/sparqlEngine/SparqlQuery.php`: the query object the parser
    fills. It holds the registered prefixes, the result variables, the
    WHERE triples grouped under the text of their subject, and the result
    form. `transformToNode` turns one token of a WHERE triple into a
    variable or a node. */
module SparqlQueries {
  import opened Wrappers
  import opened Terms
  import opened OrderedMaps
  import opened Check
  import Resources
  import BlankNodes
  import LiteralNodes

  // ---------------------------------------------------------------------
  // Error messages (`sparql/sparqlEngine/Constants.php`)

  const SparqlError := "Sparql Exception: "
  const FormatError := SparqlError + "The format of the query could not be determined."
  const SupportError := SparqlError + "The format of the query is not supported."
  const NamespaceError := SparqlError + "Parameter not a valid namespace!"
  const PrefixError := SparqlError + "Parameter not a valid prefix!"
  const VariableError := SparqlError + "Parameter needs to start with a '?' followed by characters or numbers."
  const MissingNamespaceError := SparqlError + "Node could not be identified. Namespace is missing!"

  function NodeError(token: string): string {
    SparqlError + "Could not interpret node: " + token + "!"
  }

  // ---------------------------------------------------------------------
  // Result forms

  datatype Form = Select | Construct | Ask | Describe

  /** The constants `SELECT`, `CONSTRUCT`, `ASK` and `DESCRIBE`. */
  function FormName(f: Form): string {
    match f
    case Select => "SELECT"
    case Construct => "CONSTRUCT"
    case Ask => "ASK"
    case Describe => "DESCRIBE"
  }

  /** `strtoupper` on one character: only ASCII letters change. */
  function UpperChar(c: char): char {
    if 'a' <= c <= 'z' then (c as int - 32) as char else c
  }

  function ToUpper(s: string): (u: string)
    ensures |u| == |s| && forall i :: 0 <= i < |s| ==> u[i] == UpperChar(s[i])
  {
    seq(|s|, i requires 0 <= i < |s| => UpperChar(s[i]))
  }

  /** The `switch (strtoupper($form))` of `setResultForm`. */
  function ParseForm(form: string): (r: Result<Form>)
    ensures r.Ok? ==> ToUpper(form) == FormName(r.value)
    ensures r.Err? ==> r == Err(FormatError) && forall f: Form :: ToUpper(form) != FormName(f)
  {
    var u := ToUpper(form);
    if u == "SELECT" then Ok(Select)
    else if u == "CONSTRUCT" then Ok(Construct)
    else if u == "ASK" then Ok(Ask)
    else if u == "DESCRIBE" then Ok(Describe)
    else Err(FormatError)
  }

  lemma UpperIdempotent(s: string)
    ensures ToUpper(ToUpper(s)) == ToUpper(s)
  {
  }

  /** The form is read case-insensitively, and every form name reads back
      as its form. */
  lemma ParseFormCaseInsensitive(form: string, f: Form)
    ensures ParseForm(ToUpper(form)) == ParseForm(form)
    ensures ParseForm(FormName(f)) == Ok(f)
  {
    UpperIdempotent(form);
    var n := FormName(f);
    assert ToUpper(n) == n;
  }

  // ---------------------------------------------------------------------
  // Variables

  /** `/^\?([a-z0-9]+)$/i`. The `$` of a PCRE pattern also matches just
      before a final line break, so one trailing "\n" is accepted. */
  predicate IsVariable(s: string) {
    |s| >= 2 && s[0] == '?'
    && (IsName(s[1..]) || (s[|s| - 1] == '\n' && IsName(s[1..|s| - 1])))
  }

  /** The variables the tests use are accepted; `?x+`, `?` and `x` are not. */
  lemma VariableExamples()
    ensures IsVariable("?x") && IsVariable("?nameX")
    ensures !IsVariable("?x+") && !IsVariable("?") && !IsVariable("x")
  {
    assert !IsAlnum('+');
    assert "?x+"[1..] == "x+" && "?x+"[1..2] == "x";
    assert !IsName("x+") by { assert "x+"[1] == '+'; }
  }

  // ---------------------------------------------------------------------
  // Tokens of WHERE triples

  /** A position of a WHERE triple: a variable, kept as its text, or a node. */
  datatype Part = Var(name: string) | Fixed(node: Node)

  datatype WhereTriple = WhereTriple(subject: Part, pred: Part, obj: Part)

  /** The end of the alphanumeric run starting at `i`. */
  function AlnumEnd(s: string, i: nat): (e: nat)
    requires i <= |s|
    ensures i <= e <= |s| && AllAlnum(s[i..e]) && (e < |s| ==> !IsAlnum(s[e]))
    decreases |s| - i
  {
    if i < |s| && IsAlnum(s[i]) then
      var e := AlnumEnd(s, i + 1);
      assert s[i..e] == [s[i]] + s[i + 1..e];
      e
    else i
  }

  /** `/^(_:)(?P<id>[a-z0-9]+)/i`: there is no end anchor, so the id is the
      alphanumeric run after "_:" and anything after it is ignored. */
  predicate IsBlankToken(s: string) {
    |s| >= 3 && s[..2] == "_:" && IsAlnum(s[2])
  }

  function BlankId(s: string): (id: string)
    requires IsBlankToken(s)
    ensures IsName(id)
  {
    s[2..AlnumEnd(s, 2)]
  }

  predicate IsLetter(c: char) {
    ('a' <= c <= 'z') || ('A' <= c <= 'Z')
  }

  /** The end of the run of letters starting at `i`. */
  function LetterEnd(s: string, i: nat): (e: nat)
    requires i <= |s|
    ensures i <= e <= |s| && (forall j :: i <= j < e ==> IsLetter(s[j])) && (e < |s| ==> !IsLetter(s[e]))
    decreases |s| - i
  {
    if i < |s| && IsLetter(s[i]) then LetterEnd(s, i + 1) else i
  }

  /** The index of the first line break at or after `i`, or `|s|`. */
  function LineEnd(s: string, i: nat): (e: nat)
    requires i <= |s|
    ensures i <= e <= |s| && (e < |s| ==> s[e] == '\n') && forall j :: i <= j < e ==> s[j] != '\n'
    decreases |s| - i
  {
    if i == |s| || s[i] == '\n' then i else LineEnd(s, i + 1)
  }

  /** The last '"' at an index in `[lo, e)`. */
  function LastQuote(s: string, lo: nat, e: nat): (q: Option<nat>)
    requires e <= |s|
    ensures q.Some? ==> lo <= q.value < e && s[q.value] == '"' && forall j :: q.value < j < e ==> s[j] != '"'
    ensures q.None? ==> forall j :: lo <= j < e ==> s[j] != '"'
    decreases e
  {
    if e <= lo then None
    else if s[e - 1] == '"' then Some(e - 1)
    else LastQuote(s, lo, e - 1)
  }

  lemma {:induction false} AlnumEndAt(s: string, i: nat, e: nat)
    requires i <= e <= |s| && AllAlnum(s[i..e]) && (e < |s| ==> !IsAlnum(s[e]))
    ensures AlnumEnd(s, i) == e
    decreases e - i
  {
    if i < e {
      assert s[i..e][0] == s[i];
      assert s[i + 1..e] == s[i..e][1..];
      AlnumEndAt(s, i + 1, e);
    }
  }

  lemma {:induction false} LetterEndAt(s: string, i: nat, e: nat)
    requires i <= e <= |s| && (forall j :: i <= j < e ==> IsLetter(s[j])) && (e < |s| ==> !IsLetter(s[e]))
    ensures LetterEnd(s, i) == e
    decreases e - i
  {
    if i < e {
      LetterEndAt(s, i + 1, e);
    }
  }

  lemma {:induction false} LastQuoteAt(s: string, lo: nat, e: nat, q: nat)
    requires lo <= q < e <= |s| && s[q] == '"' && forall j :: q < j < e ==> s[j] != '"'
    ensures LastQuote(s, lo, e) == Some(q)
    decreases e
  {
    if q < e - 1 {
      LastQuoteAt(s, lo, e - 1, q);
    }
  }

  /** A text that does not start with 'h' has no "http://" scheme. */
  lemma NotHttp(s: string)
    requires |s| > 0 && s[0] != 'h'
    ensures !HasHttpScheme(s)
  {
    if |s| >= 7 {
      assert s[..7][0] == s[0];
    }
  }

  /** The closing quote of `^"(?P<literal>.+)"`: `.+` is greedy and does not
      cross a line break, so it is the last '"' before the first line break,
      with at least one character between the quotes. */
  function LiteralClose(s: string): (q: Option<nat>)
    ensures q.Some? ==> 2 <= q.value < |s| && s[0] == '"' && s[q.value] == '"'
    ensures q.Some? ==> forall j :: 1 <= j < q.value ==> s[j] != '\n'
  {
    if |s| >= 1 && s[0] == '"' then LastQuote(s, 2, LineEnd(s, 1)) else None
  }

  /** One `^^xsd:type` or `@lang` suffix group. */
  datatype Annotation = DatatypeTag(name: string) | LanguageTag(tag: string)

  /** The group `(\^\^xsd:(?P<datatype>[a-z]+))|(@(?P<language>[a-z]+))`
      at index `i` (case-insensitive), with the index after it. */
  function AnnotationAt(s: string, i: nat): (r: Option<(Annotation, nat)>)
    requires i <= |s|
    ensures r.Some? ==> i < r.value.1 <= |s|
  {
    if i + 7 <= |s| && s[i..i + 2] == "^^" && ToUpper(s[i + 2..i + 6]) == "XSD:" && IsLetter(s[i + 6]) then
      var e := LetterEnd(s, i + 6);
      Some((DatatypeTag(s[i + 6..e]), e))
    else if i + 2 <= |s| && s[i] == '@' && IsLetter(s[i + 1]) then
      var e := LetterEnd(s, i + 1);
      Some((LanguageTag(s[i + 1..e]), e))
    else None
  }

  /** `{0,2}`: up to two suffix groups, each taken greedily. */
  function Annotations(s: string, i: nat): (r: seq<Annotation>)
    requires i <= |s|
    ensures |r| <= 2
  {
    match AnnotationAt(s, i)
    case None => []
    case Some((a, j)) =>
      match AnnotationAt(s, j)
      case None => [a]
      case Some((b, _)) => [a, b]
  }

  function LastDatatype(anns: seq<Annotation>): Option<string> {
    if anns == [] then None
    else if anns[|anns| - 1].DatatypeTag? then Some(anns[|anns| - 1].name)
    else LastDatatype(anns[..|anns| - 1])
  }

  function LastLanguage(anns: seq<Annotation>): Option<string> {
    if anns == [] then None
    else if anns[|anns| - 1].LanguageTag? then Some(anns[|anns| - 1].tag)
    else LastLanguage(anns[..|anns| - 1])
  }

  /** The `datatype` capture as `preg_match` reports it: the last captured
      type; "" when only the later `language` group matched; missing (null)
      when neither did. */
  function DatatypeCapture(anns: seq<Annotation>): Option<string> {
    if LastDatatype(anns).Some? then LastDatatype(anns)
    else if LastLanguage(anns).Some? then Some("")
    else None
  }

  /** `transformToNode($string)`: a variable stays text; a URI, a registered
      `prefix:name`, a `_:id` and a quoted literal become nodes; everything
      else throws. */
  function TransformToNode(namespaces: seq<Entry<string, string>>, token: string): (r: Result<Part>)
    ensures r.Ok? && r.value.Var? ==> r.value.name == token && IsVariable(token)
    ensures IsVariable(token) ==> r == Ok(Var(token))
    ensures r.Ok? && r.value.Fixed? && r.value.node.Resource? ==> IsUri(r.value.node.uri)
  {
    if IsVariable(token) then Ok(Var(token))
    else if IsUri(token) then
      match Resources.NewResource(token)
      case Ok(t) => Ok(Fixed(t.node))
      case Err(m) => Err(m)
    else if IsPrefixAndName(token) then
      var k := NameStart(token);
      match Lookup(namespaces, token[..k - 1])
      case None => Err(MissingNamespaceError)
      case Some(ns) =>
        match Resources.NewResource(ns + token[k..])
        case Ok(t) => Ok(Fixed(t.node))
        case Err(m) => Err(m)
    else if IsBlankToken(token) then Ok(Fixed(BlankNodes.NewBlankNode(BlankId(token)).node))
    else QuotedToken(token)
  }

  /** The last case of `transformToNode`: a quoted literal with its
      captured datatype and language, or the error for an unknown token. */
  function QuotedToken(token: string): (r: Result<Part>)
    ensures r.Ok? ==> r.value.Fixed? && r.value.node.LiteralNode?
  {
    match LiteralClose(token)
    case Some(q) =>
      var anns := Annotations(token, q + 1);
      Ok(Fixed(LiteralNodes.NewLiteralNode(token[1..q], DatatypeCapture(anns), LastLanguage(anns))))
    case None => Err(NodeError(token))
  }

  /** Every registered namespace passes `isNamespace`. */
  predicate ValidNamespaces(namespaces: seq<Entry<string, string>>) {
    forall i :: 0 <= i < |namespaces| ==> IsPrefix(namespaces[i].key) && IsNamespace(namespaces[i].value)
  }

  lemma LookupValid(namespaces: seq<Entry<string, string>>, prefix: string)
    requires ValidNamespaces(namespaces) && Lookup(namespaces, prefix).Some?
    ensures IsNamespace(Lookup(namespaces, prefix).value)
  {
  }

  /** A namespace followed by a name is a URI. */
  lemma NamespaceNameIsUri(ns: string, name: string)
    requires IsNamespace(ns) && IsName(name)
    ensures IsUri(ns + name)
  {
    var r := Resources.NewResource(ns, Some(name));
    assert r.Ok?;
  }

  /** `prefix:name` with a registered prefix stands for the namespace
      followed by the name; with an unregistered prefix it throws. */
  lemma TransformPrefixed(namespaces: seq<Entry<string, string>>, prefix: string, name: string)
    requires ValidNamespaces(namespaces) && IsPrefix(prefix) && IsName(name)
    ensures var r := TransformToNode(namespaces, prefix + ":" + name);
      match Lookup(namespaces, prefix)
      case None => r == Err(MissingNamespaceError)
      case Some(ns) => r == Ok(Fixed(Resource(ns + name)))
  {
    var s := prefix + ":" + name;
    var k := |prefix| + 1;
    assert s[k - 1] == ':' && s[k..] == name && s[..k - 1] == prefix;
    NameStartAt(s, k);
    assert !IsVariable(s) by { assert s[0] == prefix[0]; }
    PrefixedNotHttp(prefix, name);
    if Lookup(namespaces, prefix).Some? {
      var ns := Lookup(namespaces, prefix).value;
      LookupValid(namespaces, prefix);
      NamespaceNameIsUri(ns, name);
    }
  }

  /** A prefixed name has no "http://" scheme: its only ':' is followed by
      an alphanumeric character. */
  lemma PrefixedNotHttp(prefix: string, name: string)
    requires IsPrefix(prefix) && IsName(name)
    ensures !HasHttpScheme(prefix + ":" + name)
  {
    var s := prefix + ":" + name;
    var n := |prefix|;
    if |s| >= 7 {
      var h := s[..7];
      if n < 4 {
        assert h[n] == ':' && "http://"[n] != ':';
      } else if n == 4 {
        assert h[5] == name[0] && IsAlnum(name[0]);
      } else {
        assert h[4] == prefix[4] && IsAlnum(prefix[4]);
      }
    }
  }

  /** `_:id`, possibly followed by a non-alphanumeric tail, is the blank
      node `id`. */
  lemma TransformBlank(namespaces: seq<Entry<string, string>>, id: string, tail: string)
    requires IsName(id) && (tail != [] ==> !IsAlnum(tail[0]))
    ensures TransformToNode(namespaces, "_:" + id + tail) == Ok(Fixed(BlankNode(id)))
  {
    var s := "_:" + id + tail;
    assert s[0] == '_' && s[1] == ':' && s[..2] == "_:" && s[2] == id[0];
    NotHttp(s);
    NotPrefixed(s);
    var e := 2 + |id|;
    assert s[2..e] == id;
    if e < |s| { assert s[e] == tail[0]; }
    AlnumEndAt(s, 2, e);
  }

  /** A text that does not start with an alphanumeric character is not a
      prefixed name. */
  lemma NotPrefixed(s: string)
    requires |s| > 0 && !IsAlnum(s[0])
    ensures !IsPrefixAndName(s)
  {
    var k := NameStart(s);
    if 2 <= k {
      assert s[..k - 1][0] == s[0];
    }
  }

  /** A quoted text without quotes or line breaks is a literal with no
      datatype (null) and no language; `^^xsd:type` sets the datatype; a
      lone `@lang` sets the language and leaves the datatype "". */
  lemma TransformLiteral(namespaces: seq<Entry<string, string>>, body: string, suffix: string)
    requires body != [] && forall j :: 0 <= j < |body| ==> body[j] != '"' && body[j] != '\n'
    requires forall j :: 0 <= j < |suffix| ==> suffix[j] != '"' && suffix[j] != '\n'
    requires suffix == [] || (suffix[0] != '^' && suffix[0] != '@')
    ensures TransformToNode(namespaces, "\"" + body + "\"" + suffix) == Ok(Fixed(LiteralNode(body, None, None)))
  {
    var s := "\"" + body + "\"" + suffix;
    var q := |body| + 1;
    LiteralShape(s, body, suffix);
    if suffix != [] { assert s[q + 1] == suffix[0]; }
    assert AnnotationAt(s, q + 1) == None;
    TransformQuoted(namespaces, s, q);
  }

  /** A token that is nothing else and has a closing quote is the literal
      between the quotes, with the captures of its suffix groups. */
  lemma TransformQuoted(namespaces: seq<Entry<string, string>>, s: string, q: nat)
    requires !IsVariable(s) && !IsUri(s) && !IsPrefixAndName(s) && !IsBlankToken(s) && LiteralClose(s) == Some(q)
    ensures var anns := Annotations(s, q + 1);
      TransformToNode(namespaces, s) == Ok(Fixed(LiteralNode(s[1..q], DatatypeCapture(anns), LastLanguage(anns))))
  {
    TransformOther(namespaces, s);
    QuotedLiteral(s, q);
  }

  lemma QuotedLiteral(s: string, q: nat)
    requires LiteralClose(s) == Some(q)
    ensures var anns := Annotations(s, q + 1);
      QuotedToken(s) == Ok(Fixed(LiteralNode(s[1..q], DatatypeCapture(anns), LastLanguage(anns))))
  {
  }

  /** A token that is no variable, URI, `prefix:name` or blank node goes
      to the last case. */
  lemma TransformOther(namespaces: seq<Entry<string, string>>, s: string)
    requires !IsVariable(s) && !IsUri(s) && !IsPrefixAndName(s) && !IsBlankToken(s)
    ensures TransformToNode(namespaces, s) == QuotedToken(s)
  {
  }

  lemma TransformTypedLiteral(namespaces: seq<Entry<string, string>>, body: string, dt: string)
    requires body != [] && forall j :: 0 <= j < |body| ==> body[j] != '"' && body[j] != '\n'
    requires dt != [] && forall j :: 0 <= j < |dt| ==> IsLetter(dt[j])
    ensures TransformToNode(namespaces, "\"" + body + "\"" + "^^xsd:" + dt) == Ok(Fixed(LiteralNode(body, Some(dt), None)))
  {
    var suffix := "^^xsd:" + dt;
    var s := "\"" + body + "\"" + suffix;
    var q := |body| + 1;
    assert s == "\"" + body + "\"" + "^^xsd:" + dt;
    forall j | 0 <= j < |suffix| ensures suffix[j] != '"' && suffix[j] != '\n' {
      if j >= 6 { assert suffix[j] == dt[j - 6]; }
    }
    LiteralShape(s, body, suffix);
    TypedSuffix(s, q + 1, dt);
    TransformQuoted(namespaces, s, q);
    assert LastDatatype([DatatypeTag(dt)]) == Some(dt);
  }

  /** `^^xsd:` and a run of letters ending the text form one datatype group,
      and nothing follows it. */
  lemma TypedSuffix(s: string, i: nat, dt: string)
    requires i <= |s| && s[i..] == "^^xsd:" + dt
    requires dt != [] && forall j :: 0 <= j < |dt| ==> IsLetter(dt[j])
    ensures Annotations(s, i) == [DatatypeTag(dt)]
  {
    assert s[i..i + 2] == "^^" && s[i + 2..i + 6] == "xsd:" && s[i + 6] == dt[0];
    assert ToUpper("xsd:") == "XSD:";
    forall j | i + 6 <= j < |s| ensures IsLetter(s[j]) {
      assert s[j] == dt[j - i - 6];
    }
    LetterEndAt(s, i + 6, |s|);
    assert s[i + 6..|s|] == dt;
    assert AnnotationAt(s, i) == Some((DatatypeTag(dt), |s|));
    assert AnnotationAt(s, |s|) == None;
  }

  lemma TransformTaggedLiteral(namespaces: seq<Entry<string, string>>, body: string, lang: string)
    requires body != [] && forall j :: 0 <= j < |body| ==> body[j] != '"' && body[j] != '\n'
    requires lang != [] && forall j :: 0 <= j < |lang| ==> IsLetter(lang[j])
    ensures TransformToNode(namespaces, "\"" + body + "\"" + "@" + lang) == Ok(Fixed(LiteralNode(body, Some(""), Some(lang))))
  {
    var suffix := "@" + lang;
    var s := "\"" + body + "\"" + suffix;
    var q := |body| + 1;
    assert s == "\"" + body + "\"" + "@" + lang;
    forall j | 0 <= j < |suffix| ensures suffix[j] != '"' && suffix[j] != '\n' {
      if j >= 1 { assert suffix[j] == lang[j - 1]; }
    }
    LiteralShape(s, body, suffix);
    TaggedSuffix(s, q + 1, lang);
    TransformQuoted(namespaces, s, q);
    assert LastDatatype([LanguageTag(lang)]) == None && LastLanguage([LanguageTag(lang)]) == Some(lang);
  }

  /** `@` and a run of letters ending the text form one language group. */
  lemma TaggedSuffix(s: string, i: nat, lang: string)
    requires i <= |s| && s[i..] == "@" + lang
    requires lang != [] && forall j :: 0 <= j < |lang| ==> IsLetter(lang[j])
    ensures Annotations(s, i) == [LanguageTag(lang)]
  {
    assert s[i] == '@' && s[i + 1] == lang[0];
    forall j | i + 1 <= j < |s| ensures IsLetter(s[j]) {
      assert s[j] == lang[j - i - 1];
    }
    LetterEndAt(s, i + 1, |s|);
    assert s[i + 1..|s|] == lang;
    assert AnnotationAt(s, i) == Some((LanguageTag(lang), |s|));
    assert AnnotationAt(s, |s|) == None;
  }

  /** A quoted token is not a variable, a URI, a prefixed name or a blank
      node, and its closing quote is the one after the body. */
  lemma LiteralShape(s: string, body: string, suffix: string)
    requires body != [] && forall j :: 0 <= j < |body| ==> body[j] != '"' && body[j] != '\n'
    requires s == "\"" + body + "\"" + suffix
    requires forall j :: 0 <= j < |suffix| ==> suffix[j] != '"' && suffix[j] != '\n'
    ensures !IsVariable(s) && !IsUri(s) && !IsPrefixAndName(s) && !IsBlankToken(s)
    ensures LiteralClose(s) == Some(|body| + 1)
    ensures s[1..|body| + 1] == body
  {
    var q := |body| + 1;
    assert s[0] == '"' && s[q] == '"';
    NotHttp(s);
    NotPrefixed(s);
    assert !IsBlankToken(s) by { if |s| >= 2 { assert s[..2][0] == '"'; } }
    forall j | 1 <= j < |s| ensures s[j] != '\n' && (j > q ==> s[j] != '"') {
      if j < q { assert s[j] == body[j - 1]; }
      else if j > q { assert s[j] == suffix[j - q - 1]; }
    }
    assert LineEnd(s, 1) == |s|;
    LastQuoteAt(s, 2, |s|, q);
    assert s[1..q] == body;
  }

  /** The tokens the tests reject: an unregistered prefix and a bare name. */
  lemma TransformRejects(namespaces: seq<Entry<string, string>>)
    requires ValidNamespaces(namespaces) && Lookup(namespaces, "bla").None?
    ensures TransformToNode(namespaces, "bla:y") == Err(MissingNamespaceError)
    ensures TransformToNode(namespaces, "y").Err?
  {
    assert IsPrefix("bla") by { assert IsAlnum("bla"[1]) && IsAlnum("bla"[2]); }
    TransformPrefixed(namespaces, "bla", "y");
    assert "bla" + ":" + "y" == "bla:y";
    var s := "y";
    assert !IsBlankToken(s) && LiteralClose(s).None?;
    assert !IsUri(s) && !IsPrefixAndName(s);
  }

  // ---------------------------------------------------------------------
  // The query object

  /** The fields of a `SparqlQuery` at one moment. `whereTriples` maps the
      text of each subject to its triples, in insertion order. */
  datatype QueryState = QueryState(
    text: string,
    namespaces: seq<Entry<string, string>>,
    resultVariables: seq<Entry<string, string>>,
    whereTriples: seq<Entry<string, seq<WhereTriple>>>,
    form: Option<Form>)

  const EmptyQuery := QueryState("", [], [], [], None)

  /** `addNamespace($prefix, $namespace)`: the namespace is checked first,
      then the prefix; then the prefix maps to the namespace. */
  function AddNamespaceSpec(q: QueryState, prefix: string, ns: string): (r: Result<QueryState>)
    ensures r.Ok? <==> IsNamespace(ns) && IsPrefix(prefix)
    ensures !IsNamespace(ns) ==> r == Err(NamespaceError)
    ensures r.Ok? ==> Lookup(r.value.namespaces, prefix) == Some(ns)
    ensures r.Ok? ==> forall k :: k != prefix ==> Lookup(r.value.namespaces, k) == Lookup(q.namespaces, k)
    ensures r.Ok? ==> r.value.(namespaces := q.namespaces) == q
  {
    if !IsNamespace(ns) then Err(NamespaceError)
    else if !IsPrefix(prefix) then Err(PrefixError)
    else
      LookupPutAll(q.namespaces, prefix, ns);
      Ok(q.(namespaces := Put(q.namespaces, prefix, ns)))
  }

  lemma LookupPutAll<V>(m: seq<Entry<string, V>>, k: string, v: V)
    ensures Lookup(Put(m, k, v), k) == Some(v)
    ensures forall o :: o != k ==> Lookup(Put(m, k, v), o) == Lookup(m, o)
  {
    LookupPut(m, k, v, k);
    forall o | o != k ensures Lookup(Put(m, k, v), o) == Lookup(m, o) {
      LookupPut(m, k, v, o);
    }
  }

  /** `addResultVariable($var)`: a valid variable is stored under its own
      name, so the variables form a set. */
  function AddResultVariableSpec(q: QueryState, v: string): (r: Result<QueryState>)
    ensures r.Ok? <==> IsVariable(v)
    ensures r.Err? ==> r == Err(VariableError)
    ensures r.Ok? ==> Lookup(r.value.resultVariables, v) == Some(v)
    ensures r.Ok? ==> forall k :: k != v ==> Lookup(r.value.resultVariables, k) == Lookup(q.resultVariables, k)
    ensures r.Ok? ==> r.value.(resultVariables := q.resultVariables) == q
  {
    if !IsVariable(v) then Err(VariableError)
    else
      LookupPutAll(q.resultVariables, v, v);
      Ok(q.(resultVariables := Put(q.resultVariables, v, v)))
  }

  /** Adding a variable twice is adding it once. */
  lemma AddResultVariableTwice(q: QueryState, v: string)
    requires IsVariable(v)
    ensures AddResultVariableSpec(AddResultVariableSpec(q, v).value, v) == AddResultVariableSpec(q, v)
  {
    LastWriteWins(q.resultVariables, v, v, v);
  }

  /** The triples stored under one subject text. */
  function TriplesOf(wt: seq<Entry<string, seq<WhereTriple>>>, subj: string): seq<WhereTriple> {
    match Lookup(wt, subj)
    case None => []
    case Some(ts) => ts
  }

  /** `addWhereTriple($subj, $pred, $obj)`: the three tokens are converted in
      order, the first failure throwing; the triple is appended to the list
      under the subject's text. */
  function AddWhereTripleSpec(q: QueryState, subj: string, pred: string, obj: string): (r: Result<QueryState>)
    ensures r.Ok? <==> TransformToNode(q.namespaces, subj).Ok? && TransformToNode(q.namespaces, pred).Ok?
                        && TransformToNode(q.namespaces, obj).Ok?
    ensures r.Ok? ==>
      TriplesOf(r.value.whereTriples, subj) == TriplesOf(q.whereTriples, subj) +
        [WhereTriple(TransformToNode(q.namespaces, subj).value, TransformToNode(q.namespaces, pred).value,
                     TransformToNode(q.namespaces, obj).value)]
    ensures r.Ok? ==> forall k :: k != subj ==> Lookup(r.value.whereTriples, k) == Lookup(q.whereTriples, k)
    ensures r.Ok? ==> r.value.(whereTriples := q.whereTriples) == q
  {
    var s :- TransformToNode(q.namespaces, subj);
    var p :- TransformToNode(q.namespaces, pred);
    var o :- TransformToNode(q.namespaces, obj);
    var wt := Put(q.whereTriples, subj, TriplesOf(q.whereTriples, subj) + [WhereTriple(s, p, o)]);
    LookupPutAll(q.whereTriples, subj, TriplesOf(q.whereTriples, subj) + [WhereTriple(s, p, o)]);
    Ok(q.(whereTriples := wt))
  }

  /** `setResultForm($form)` */
  function SetResultFormSpec(q: QueryState, form: string): (r: Result<QueryState>)
    ensures r.Ok? <==> ParseForm(form).Ok?
    ensures r.Ok? ==> r.value == q.(form := Some(ParseForm(form).value))
    ensures r.Err? ==> r == Err(FormatError)
  {
    var f :- ParseForm(form);
    Ok(q.(form := Some(f)))
  }

  /** The number of WHERE triples stored, over all subjects. */
  function TripleCount(wt: seq<Entry<string, seq<WhereTriple>>>): nat {
    if wt == [] then 0 else |wt[0].value| + TripleCount(wt[1..])
  }

  lemma {:induction false} TripleCountPut(wt: seq<Entry<string, seq<WhereTriple>>>, k: string, ts: seq<WhereTriple>)
    requires DistinctKeys(wt)
    ensures TripleCount(Put(wt, k, ts)) == TripleCount(wt) - |TriplesOf(wt, k)| + |ts|
    ensures |TriplesOf(wt, k)| <= TripleCount(wt)
  {
    if wt != [] && wt[0].key != k {
      TripleCountPut(wt[1..], k, ts);
    }
  }

  /** Each successful `addWhereTriple` stores exactly one more triple. */
  lemma AddWhereTripleCounts(q: QueryState, subj: string, pred: string, obj: string)
    requires DistinctKeys(q.whereTriples) && AddWhereTripleSpec(q, subj, pred, obj).Ok?
    ensures TripleCount(AddWhereTripleSpec(q, subj, pred, obj).value.whereTriples) == TripleCount(q.whereTriples) + 1
    ensures DistinctKeys(AddWhereTripleSpec(q, subj, pred, obj).value.whereTriples)
  {
    var ts := TriplesOf(q.whereTriples, subj);
    var r := AddWhereTripleSpec(q, subj, pred, obj).value;
    var t := WhereTriple(TransformToNode(q.namespaces, subj).value, TransformToNode(q.namespaces, pred).value,
                         TransformToNode(q.namespaces, obj).value);
    assert r.whereTriples == Put(q.whereTriples, subj, ts + [t]);
    TripleCountPut(q.whereTriples, subj, ts + [t]);
    PutKeepsDistinct(q.whereTriples, subj, ts + [t]);
  }

  /** The state shared by the query and its parser: keys of every map are
      distinct and every registered namespace is valid. */
  predicate ValidState(q: QueryState) {
    DistinctKeys(q.namespaces) && ValidNamespaces(q.namespaces)
    && DistinctKeys(q.resultVariables) && DistinctKeys(q.whereTriples)
  }

  lemma StepsKeepValid(q: QueryState, a: string, b: string, c: string)
    requires ValidState(q)
    ensures AddNamespaceSpec(q, a, b).Ok? ==> ValidState(AddNamespaceSpec(q, a, b).value)
    ensures AddResultVariableSpec(q, a).Ok? ==> ValidState(AddResultVariableSpec(q, a).value)
    ensures AddWhereTripleSpec(q, a, b, c).Ok? ==> ValidState(AddWhereTripleSpec(q, a, b, c).value)
    ensures SetResultFormSpec(q, a).Ok? ==> ValidState(SetResultFormSpec(q, a).value)
  {
    if AddNamespaceSpec(q, a, b).Ok? {
      PutKeepsDistinct(q.namespaces, a, b);
      PutEntries(q.namespaces, a, b);
      var m := Put(q.namespaces, a, b);
      forall i | 0 <= i < |m| ensures IsPrefix(m[i].key) && IsNamespace(m[i].value) {
        assert m[i] in m;
      }
    }
    if AddResultVariableSpec(q, a).Ok? {
      PutKeepsDistinct(q.resultVariables, a, a);
    }
    if AddWhereTripleSpec(q, a, b, c).Ok? {
      AddWhereTripleCounts(q, a, b, c);
    }
  }

  /** A method's result and the state it leaves, read against the
      specification function of the step: on success the new state, on a
      throw the same message and no change. */
  predicate Stepped(spec: Result<QueryState>, r: Result<()>, before: QueryState, after: QueryState) {
    match spec
    case Ok(q) => r == Ok(()) && after == q
    case Err(m) => r == Err(m) && after == before
  }

  class SparqlQuery {
    var text: string
    var namespaces: seq<Entry<string, string>>
    var resultVariables: seq<Entry<string, string>>
    var whereTriples: seq<Entry<string, seq<WhereTriple>>>
    var form: Option<Form>

    function State(): QueryState
      reads this
    {
      QueryState(text, namespaces, resultVariables, whereTriples, form)
    }

    constructor()
      ensures State() == EmptyQuery
    {
      text := "";
      namespaces := [];
      resultVariables := [];
      whereTriples := [];
      form := None;
    }

    /** `setQueryString($query)` */
    method SetQueryString(query: string)
      modifies this
      ensures State() == old(State()).(text := query)
    {
      text := query;
    }

    method AddNamespace(prefix: string, ns: string) returns (r: Result<()>)
      modifies this
      ensures Stepped(AddNamespaceSpec(old(State()), prefix, ns), r, old(State()), State())
    {
      if !IsNamespace(ns) {
        return Err(NamespaceError);
      }
      if !IsPrefix(prefix) {
        return Err(PrefixError);
      }
      namespaces := Put(namespaces, prefix, ns);
      r := Ok(());
    }

    method AddResultVariable(v: string) returns (r: Result<()>)
      modifies this
      ensures Stepped(AddResultVariableSpec(old(State()), v), r, old(State()), State())
    {
      if !IsVariable(v) {
        return Err(VariableError);
      }
      resultVariables := Put(resultVariables, v, v);
      r := Ok(());
    }

    method AddWhereTriple(subj: string, pred: string, obj: string) returns (r: Result<()>)
      modifies this
      ensures Stepped(AddWhereTripleSpec(old(State()), subj, pred, obj), r, old(State()), State())
    {
      var s := TransformToNode(namespaces, subj);
      if s.Err? {
        return Err(s.message);
      }
      var p := TransformToNode(namespaces, pred);
      if p.Err? {
        return Err(p.message);
      }
      var o := TransformToNode(namespaces, obj);
      if o.Err? {
        return Err(o.message);
      }
      whereTriples := Put(whereTriples, subj, TriplesOf(whereTriples, subj) + [WhereTriple(s.value, p.value, o.value)]);
      r := Ok(());
    }

    method SetResultForm(f: string) returns (r: Result<()>)
      modifies this
      ensures Stepped(SetResultFormSpec(old(State()), f), r, old(State()), State())
    {
      var parsed := ParseForm(f);
      if parsed.Err? {
        return Err(parsed.message);
      }
      form := Some(parsed.value);
      r := Ok(());
    }
  }
}
