/** `serializers/TurtleSerializer.php` and `parsers/TurtleParser.php`: the
    line-per-statement subset of Turtle (the W3C Team Submission "Turtle -
    Terse RDF Triple Language") that the library writes and reads. A
    document is one `@prefix p:<ns> .` line per registered namespace,
    then one `S P O .` line per statement, where a resource prints as
    `p:name` when its namespace has a prefix and as `<uri>` otherwise. */
module Turtle {
  import opened Wrappers
  import Seqs
  import opened Terms
  import opened OrderedMaps
  import opened PhpStrings
  import opened Statements
  import opened LineReader
  import LiteralNodes
  import Resources
  import BlankNodes
  import Check
  import ResourceLists
  import StoreSpec
  import Store
  import NTriples
  import Utils

  /** The prefix map of a model: prefix to namespace, in insertion order. */
  type Namespaces = seq<Entry<string, string>>

  // ---------------------------------------------------------------------
  // Serializer

  /** The index of the last entry bound to namespace `ns`. */
  function LastWith(nss: Namespaces, ns: string): (r: Option<nat>)
    ensures r.None? ==> forall i :: 0 <= i < |nss| ==> nss[i].value != ns
    ensures r.Some? ==> r.value < |nss| && nss[r.value].value == ns
    ensures r.Some? ==> forall j :: r.value < j < |nss| ==> nss[j].value != ns
    decreases |nss|
  {
    if nss == [] then None
    else if nss[|nss| - 1].value == ns then Some(|nss| - 1)
    else
      var r := LastWith(nss[..|nss| - 1], ns);
      assert forall i :: 0 <= i < |nss| - 1 ==> nss[..|nss| - 1][i] == nss[i];
      r
  }

  /** `getPrefix($namespace)`: `array_flip` of the prefix map looked up at
      the namespace. Flipping keeps the last prefix bound to a namespace;
      an unbound namespace gives null. */
  function PrefixOf(nss: Namespaces, ns: string): (r: Option<string>)
    ensures r.None? <==> forall i :: 0 <= i < |nss| ==> nss[i].value != ns
    ensures r.Some? ==> Entry(r.value, ns) in nss
  {
    match LastWith(nss, ns)
    case None => None
    case Some(i) => assert nss[i] in nss; Some(nss[i].key)
  }

  /** A resource prints as `prefix:name` when the prefix of its namespace
      is truthy, and as `<uri>` otherwise; a URI whose namespace cannot be
      taken throws. */
  function ResourceText(nss: Namespaces, n: Node): Result<string>
    requires n.Resource?
  {
    match Resources.GetNamespace(Plain(n))
    case Err(e) => Err(e)
    case Ok(ns) =>
      var p := PrefixOf(nss, ns);
      if TruthyPiece(p) then Ok(p.value + ":" + Resources.NameOf(n)) else Ok("<" + n.uri + ">")
  }

  function SubjectText(nss: Namespaces, n: Node): Result<string>
    requires !n.LiteralNode?
  {
    if n.BlankNode? then Ok("_:" + n.id) else ResourceText(nss, n)
  }

  /** Literals print as in N-Triples. */
  function ObjectText(nss: Namespaces, n: Node): Result<string> {
    if n.BlankNode? then Ok("_:" + n.id)
    else if n.Resource? then ResourceText(nss, n)
    else Ok(NTriples.LiteralText(n))
  }

  /** The line one statement becomes; the parts are built in the order
      subject, predicate, object, and the first that throws ends it. */
  function Line(nss: Namespaces, st: Statement): Result<string>
    requires WellFormedStatement(st)
  {
    var s :- SubjectText(nss, st.subject);
    var p :- ResourceText(nss, st.pred);
    var o :- ObjectText(nss, st.obj);
    Ok(s + " " + p + " " + o + " .\n")
  }

  /** The declaration of one namespace. */
  function PrefixLine(e: Entry<string, string>): string {
    "@prefix " + e.key + ":" + "<" + e.value + "> .\n"
  }

  /** The declarations of the whole prefix map, in its order. */
  function Header(nss: Namespaces): string {
    if nss == [] then "" else PrefixLine(nss[0]) + Header(nss[1..])
  }

  /** The line of every statement, in store order. */
  function StatementLines(nss: Namespaces, stmts: seq<Statement>): (r: seq<Result<string>>)
    requires ResourceLists.AllWellFormed(stmts)
    ensures |r| == |stmts|
    ensures forall i :: 0 <= i < |stmts| ==> WellFormedStatement(stmts[i]) && r[i] == Line(nss, stmts[i])
  {
    if stmts == [] then []
    else
      assert stmts[0] in stmts;
      assert forall x :: x in stmts[1..] ==> x in stmts;
      [Line(nss, stmts[0])] + StatementLines(nss, stmts[1..])
  }

  /** The text written before the first line that throws, and whether one
      did. */
  function Written(lines: seq<Result<string>>): (seq<char>, Result<()>) {
    if lines == [] then ("", Ok(()))
    else match lines[0]
      case Err(e) => ("", Err(e))
      case Ok(l) =>
        var rest := Written(lines[1..]);
        (l + rest.0, rest.1)
  }

  /** What the statement loop writes. */
  function Body(nss: Namespaces, stmts: seq<Statement>): (seq<char>, Result<()>)
    requires ResourceLists.AllWellFormed(stmts)
  {
    Written(StatementLines(nss, stmts))
  }

  lemma {:induction false} HeaderSnoc(nss: Namespaces, e: Entry<string, string>)
    ensures Header(nss + [e]) == Header(nss) + PrefixLine(e)
    decreases |nss|
  {
    if nss == [] {
      assert [e][1..] == [];
    } else {
      assert (nss + [e])[1..] == nss[1..] + [e];
      HeaderSnoc(nss[1..], e);
    }
  }

  /** Writing one more line after lines that all succeeded. */
  lemma {:induction false} WrittenSnoc(lines: seq<Result<string>>, line: Result<string>)
    requires Written(lines).1.Ok?
    ensures Written(lines + [line]) == Append(Written(lines).0, line)
    decreases |lines|
  {
    if lines == [] {
      assert lines + [line] == [line] && [line][1..] == [];
      if line.Ok? {
        assert "" + line.value == line.value + "";
      }
    } else {
      assert (lines + [line])[0] == lines[0];
      assert (lines + [line])[1..] == lines[1..] + [line];
      WrittenSnoc(lines[1..], line);
      AppendAfter(lines[0].value, Written(lines[1..]).0, line);
    }
  }

  lemma WrittenStep(lines: seq<Result<string>>, i: nat)
    requires i < |lines| && Written(lines[..i]).1.Ok?
    ensures Written(lines[..i + 1]) == Append(Written(lines[..i]).0, lines[i])
  {
    assert lines[..i + 1] == lines[..i] + [lines[i]];
    WrittenSnoc(lines[..i], lines[i]);
  }

  /** The outcome of writing `text` and then one more line. */
  function Append(text: string, line: Result<string>): (seq<char>, Result<()>) {
    match line
    case Ok(l) => (text + l, Ok(()))
    case Err(e) => (text, Err(e))
  }

  lemma AppendAfter(l0: string, text: string, line: Result<string>)
    ensures var a := Append(text, line); (l0 + a.0, a.1) == Append(l0 + text, line)
  {
    if line.Ok? {
      assert l0 + (text + line.value) == (l0 + text) + line.value;
    }
  }

  /** The body of the statement loop: the three ternaries of the source,
      then the line. */
  method StatementLine(nss: Namespaces, st: Statement) returns (r: Result<string>)
    requires WellFormedStatement(st)
    ensures r == Line(nss, st)
  {
    var subjectText;
    if st.subject.BlankNode? {
      subjectText := "_:" + st.subject.id;
    } else {
      var ns := Resources.GetNamespace(Plain(st.subject));
      if ns.Err? {
        return Err(ns.message);
      }
      var prefix := PrefixOf(nss, ns.value);
      subjectText := if TruthyPiece(prefix) then prefix.value + ":" + Resources.NameOf(st.subject) else "<" + st.subject.uri + ">";
    }
    var ns := Resources.GetNamespace(Plain(st.pred));
    if ns.Err? {
      return Err(ns.message);
    }
    var prefix := PrefixOf(nss, ns.value);
    var predicateText := if TruthyPiece(prefix) then prefix.value + ":" + Resources.NameOf(st.pred) else "<" + st.pred.uri + ">";
    var objectText;
    if st.obj.BlankNode? {
      objectText := "_:" + st.obj.id;
    } else if st.obj.Resource? {
      ns := Resources.GetNamespace(Plain(st.obj));
      if ns.Err? {
        return Err(ns.message);
      }
      prefix := PrefixOf(nss, ns.value);
      objectText := if TruthyPiece(prefix) then prefix.value + ":" + Resources.NameOf(st.obj) else "<" + st.obj.uri + ">";
    } else {
      objectText := NTriples.WriteLiteral(st.obj);
    }
    r := Ok(subjectText + " " + predicateText + " " + objectText + " .\n");
  }

  /** The line of the `i`-th statement, as computed by the loop. */
  method NextLine(nss: Namespaces, stmts: seq<Statement>, ghost lines: seq<Result<string>>, i: nat) returns (line: Result<string>)
    requires ResourceLists.AllWellFormed(stmts) && lines == StatementLines(nss, stmts) && i < |stmts|
    ensures line == lines[i]
  {
    line := StatementLine(nss, stmts[i]);
  }

  /** `TurtleSerializer`: the text is appended to `content`, which
      `serializeToString` clears afterwards. */
  class TurtleSerializer {
    var content: string

    constructor ()
      ensures content == ""
    {
      content := "";
    }

    /** `transform($model)`: an empty model throws; otherwise the prefix
        declarations, then the statement lines up to the first that
        throws, are appended to the content. */
    method Transform(m: Store.Model) returns (r: Result<string>)
      requires m.Valid()
      modifies this
      ensures m.statements == [] ==> r.Err? && content == old(content)
      ensures m.statements != [] ==>
                var body := Body(m.namespaces, m.statements);
                && content == old(content) + Header(m.namespaces) + body.0
                && r == if body.1.Ok? then Ok(content) else Err(body.1.message)
    {
      if m.IsEmpty() {
        return Err("The model is empty and cant be serialized");
      }
      WritePrefixes(m.namespaces);
      r := WriteStatements(m.namespaces, m.statements);
    }

    /** The first loop: one declaration per prefix. */
    method WritePrefixes(nss: Namespaces)
      modifies this
      ensures content == old(content) + Header(nss)
    {
      var i := 0;
      while i < |nss|
        invariant 0 <= i <= |nss|
        invariant content == old(content) + Header(nss[..i])
      {
        assert nss[..i + 1] == nss[..i] + [nss[i]];
        HeaderSnoc(nss[..i], nss[i]);
        content := content + PrefixLine(nss[i]);
        i := i + 1;
      }
      assert nss[..i] == nss;
    }

    /** The second loop: one line per statement, in store order. */
    method WriteStatements(nss: Namespaces, stmts: seq<Statement>) returns (r: Result<string>)
      requires ResourceLists.AllWellFormed(stmts)
      modifies this
      ensures content == old(content) + Body(nss, stmts).0
      ensures r == if Body(nss, stmts).1.Ok? then Ok(content) else Err(Body(nss, stmts).1.message)
    {
      ghost var lines := StatementLines(nss, stmts);
      var i := 0;
      while i < |stmts|
        invariant 0 <= i <= |stmts|
        invariant Written(lines[..i]).1.Ok?
        invariant content == old(content) + Written(lines[..i]).0
      {
        WrittenStep(lines, i);
        var line := NextLine(nss, stmts, lines, i);
        if line.Err? {
          WrittenStops(lines, i + 1);
          return Err(line.message);
        }
        Seqs.AppendAssoc(old(content), Written(lines[..i]).0, line.value);
        content := content + line.value;
        i := i + 1;
      }
      assert lines[..i] == lines;
      return Ok(content);
    }

    /** `serializeToString($model)`: the text of `transform`, after which
        the content is cleared. */
    method SerializeToString(m: Store.Model) returns (r: Result<string>)
      requires m.Valid()
      modifies this
      ensures m.statements == [] ==> r.Err? && content == old(content)
      ensures m.statements != [] && Body(m.namespaces, m.statements).1.Ok? ==>
                r == Ok(old(content) + Header(m.namespaces) + Body(m.namespaces, m.statements).0) && content == ""
      ensures m.statements != [] && Body(m.namespaces, m.statements).1.Err? ==>
                r == Err(Body(m.namespaces, m.statements).1.message)
    {
      r := Transform(m);
      if r.Ok? {
        content := "";
      }
    }
  }

  /** Once a prefix of the lines throws, nothing after it is written. */
  lemma {:induction false} WrittenStops(lines: seq<Result<string>>, k: nat)
    requires k <= |lines| && Written(lines[..k]).1.Err?
    ensures Written(lines) == Written(lines[..k])
    decreases k
  {
    assert lines[..k][0] == lines[0];
    if lines[0].Ok? {
      assert lines[..k][1..] == lines[1..][..k - 1];
      WrittenStops(lines[1..], k - 1);
    }
  }
  // ---------------------------------------------------------------------
  // Parser
  //
  // Every parsing function takes `fixed`: when false it is the code as
  // written; when true a token starting with '<' is read as a bracketed
  // URI before anything else, and only comment lines are skipped. The
  // README's findings say why.

  const Uninterpretable := "The content of the file can not be interpreted"

  /** `saveAsNamespace($line)` on the prefix map: exactly three pieces, the
      second holding a ':'; the prefix is what comes before the first ':',
      the namespace what comes after it without its first and last
      characters; `addNamespace` checks both. (The source's count check
      after the limited `explode` cannot fail once a ':' is present.) */
  function NamespaceLine(nss: Namespaces, line: string): (r: Result<Namespaces>)
    ensures |Explode(line, " ")| != 3 ==> r == Err(Uninterpretable)
  {
    var pieces := Explode(line, " ");
    if |pieces| != 3 || StrPos(pieces[1], ":").None? then Err(Uninterpretable)
    else
      var parts := ExplodeTwo(pieces[1], ":");
      Store.PutNamespace(nss, parts[0], Inner(parts[1]))
  }

  /** The URI a resource token stands for: with a truthy piece after the
      first ':' it is the namespace of the prefix before it (null, the
      empty string, when the prefix is unbound) followed by that piece;
      otherwise the token without its first and last characters. An
      invalid prefix throws. */
  function Resolve(nss: Namespaces, t: string, fixed: bool): Result<string> {
    if fixed && t != [] && t[0] == '<' then Ok(Inner(t))
    else
      var pieces := Explode(t, ":");
      if TruthyPiece(Piece(pieces, 1)) then
        var ns :- Store.NamespaceOf(nss, pieces[0]);
        Ok((if ns.Some? then ns.value else "") + pieces[1])
      else Ok(Inner(t))
  }

  function ParseResource(nss: Namespaces, t: string, fixed: bool): (r: Result<Term>)
    ensures r.Ok? ==> r.value.node.Resource? && r.value.props == []
  {
    var u :- Resolve(nss, t, fixed);
    Resources.NewResource(u)
  }

  /** The subject: a token containing "_:" is a blank node named by what
      follows its first two characters, any other a resource. */
  function ParseSubject(nss: Namespaces, t: string, fixed: bool): (r: Result<Term>)
    ensures r.Ok? ==> !r.value.node.LiteralNode? && r.value.props == []
  {
    if StrPos(t, "_:").None? then ParseResource(nss, t, fixed)
    else Ok(BlankNodes.NewBlankNode(From(t, 2)))
  }

  /** A literal token: a truthy part after "^^" is the bracketed datatype
      and the literal is the part before it; then a truthy part after '@'
      is the language; the quotes are dropped. A missing datatype or
      language reads as "". */
  function ParseLiteral(t: string): (n: Node)
    ensures n.LiteralNode? && n.dtype.Some? && n.language.Some?
  {
    var p1 := Explode(t, "^^");
    var hasType := TruthyPiece(Piece(p1, 1));
    var dtype := if hasType then Inner(p1[1]) else "";
    var literal := if hasType then p1[0] else t;
    ParseLanguage(literal, dtype)
  }

  /** The second half of `ParseLiteral`: the language after '@', if any. */
  function ParseLanguage(literal: string, dtype: string): (n: Node)
    ensures n.LiteralNode? && n.dtype == Some(dtype) && n.language.Some?
  {
    var p2 := Explode(literal, "@");
    var hasLanguage := TruthyPiece(Piece(p2, 1));
    var language := if hasLanguage then p2[1] else "";
    var text := if hasLanguage then p2[0] else literal;
    LiteralNode(Inner(text), Some(dtype), Some(language))
  }

  /** The object: "_:" makes a blank node, a token without '"' a resource,
      anything else a literal. */
  function ParseObject(nss: Namespaces, t: string, fixed: bool): (r: Result<Term>)
    ensures r.Ok? ==> r.value.props == []
  {
    if StrPos(t, "_:").Some? then Ok(BlankNodes.NewBlankNode(From(t, 2)))
    else if StrPos(t, "\"").None? then ParseResource(nss, t, fixed)
    else Ok(Plain(ParseLiteral(t)))
  }

  /** `saveAsStatements($line)`: exactly four space-separated pieces, else
      it throws; then subject, predicate and object, in that order, and
      the statement constructor. */
  function ParseStatement(nss: Namespaces, line: string, fixed: bool): (r: Result<Statement>)
    ensures |Explode(line, " ")| != 4 ==> r == Err(Uninterpretable)
    ensures r.Ok? ==> WellFormedStatement(r.value)
  {
    var pieces := Explode(line, " ");
    if |pieces| != 4 then Err(Uninterpretable)
    else
      var subject :- ParseSubject(nss, pieces[0], fixed);
      var pred :- ParseResource(nss, pieces[1], fixed);
      var obj :- ParseObject(nss, pieces[2], fixed);
      NewStatement(Obj(subject), Obj(pred), Obj(obj))
  }

  /** A line starting with a piece that contains "@prefix" declares a
      namespace. */
  predicate IsPrefixLine(line: string) {
    StrPos(Explode(line, " ")[0], "@prefix").Some?
  }

  /** `handleLine($line)` on the prefix map and the statements: fewer than
      three pieces throws; a declaration rebinds a prefix; any other line
      adds a statement. */
  function LineEffect(nss: Namespaces, stmts: seq<Statement>, line: string, fixed: bool): (r: Result<(Namespaces, seq<Statement>)>)
    ensures |Explode(line, " ")| < 3 ==> r == Err(Uninterpretable)
    ensures r.Ok? && IsPrefixLine(line) ==> r.value.1 == stmts
    ensures r.Ok? && !IsPrefixLine(line) ==> r.value.0 == nss && |r.value.1| == |stmts| + 1
  {
    if |Explode(line, " ")| < 3 then Err(Uninterpretable)
    else if IsPrefixLine(line) then
      var nss' :- NamespaceLine(nss, line);
      Ok((nss', stmts))
    else
      var st :- ParseStatement(nss, line, fixed);
      Ok((nss, StoreSpec.AddStatementSpec(stmts, st, Store.AllowDuplicates)))
  }

  /** The loop of `transform`: skipped lines are passed over, every other
      one is handled; the first that throws ends the load with what was
      done so far. */
  function LoadSpec(nss: Namespaces, stmts: seq<Statement>, lines: seq<string>, fixed: bool): (r: (Namespaces, seq<Statement>, Result<()>))
    decreases |lines|
  {
    if lines == [] then (nss, stmts, Ok(()))
    else if Skipped(lines[0], fixed) then LoadSpec(nss, stmts, lines[1..], fixed)
    else match LineEffect(nss, stmts, lines[0], fixed)
      case Err(e) => (nss, stmts, Err(e))
      case Ok(next) => LoadSpec(next.0, next.1, lines[1..], fixed)
  }

  /** `saveAsNamespace($line)` against the model. */
  method SaveAsNamespace(line: string, m: Store.Model) returns (r: Result<()>)
    requires m.Valid()
    modifies m
    ensures m.Valid() && m.statements == old(m.statements)
    ensures m.baseNamespace == old(m.baseNamespace) && m.basePrefix == old(m.basePrefix) && m.bnodeCount == old(m.bnodeCount)
    ensures NamespaceLine(old(m.namespaces), line).Ok? ==> r.Ok? && m.namespaces == NamespaceLine(old(m.namespaces), line).value
    ensures NamespaceLine(old(m.namespaces), line).Err? ==>
              r == Err(NamespaceLine(old(m.namespaces), line).message) && m.namespaces == old(m.namespaces)
  {
    var pieces := Explode(line, " ");
    if |pieces| != 3 || StrPos(pieces[1], ":").None? {
      return Err(Uninterpretable);
    }
    var parts := ExplodeTwo(pieces[1], ":");
    r := m.AddNamespace(parts[0], Inner(parts[1]));
  }

  /** `saveAsStatements($line)` against the model: the prefixes are looked
      up in the model's map, and the statement is added. */
  method SaveAsStatements(line: string, m: Store.Model, fixed: bool) returns (r: Result<()>)
    requires m.Valid()
    modifies m
    ensures m.Valid() && m.Config() == old(m.Config())
    ensures ParseStatement(old(m.namespaces), line, fixed).Ok? ==>
              r.Ok? && m.statements == StoreSpec.AddStatementSpec(old(m.statements), ParseStatement(old(m.namespaces), line, fixed).value, Store.AllowDuplicates)
    ensures ParseStatement(old(m.namespaces), line, fixed).Err? ==>
              r == Err(ParseStatement(old(m.namespaces), line, fixed).message) && m.statements == old(m.statements)
  {
    var st := ParseStatement(m.namespaces, line, fixed);
    if st.Err? {
      return Err(st.message);
    }
    var _ := m.Add(Stmt(st.value));
    return Ok(());
  }

  /** `handleLine($line)` against the model. */
  method HandleLine(line: string, m: Store.Model, fixed: bool) returns (r: Result<()>)
    requires m.Valid()
    modifies m
    ensures m.Valid() && m.baseNamespace == old(m.baseNamespace) && m.basePrefix == old(m.basePrefix)
    ensures m.bnodeCount == old(m.bnodeCount)
    ensures LineEffect(old(m.namespaces), old(m.statements), line, fixed).Ok? ==>
              r.Ok? && (m.namespaces, m.statements) == LineEffect(old(m.namespaces), old(m.statements), line, fixed).value
    ensures LineEffect(old(m.namespaces), old(m.statements), line, fixed).Err? ==>
              && r == Err(LineEffect(old(m.namespaces), old(m.statements), line, fixed).message)
              && m.namespaces == old(m.namespaces) && m.statements == old(m.statements)
  {
    var pieces := Explode(line, " ");
    if |pieces| < 3 {
      return Err(Uninterpretable);
    }
    if StrPos(pieces[0], "@prefix").Some? {
      r := SaveAsNamespace(line, m);
    } else {
      r := SaveAsStatements(line, m, fixed);
    }
  }

  /** `transform($file, $model)` over the lines of the file. */
  method Transform(lines: seq<string>, m: Store.Model, fixed: bool) returns (r: Result<()>)
    requires m.Valid()
    modifies m
    ensures m.Valid() && m.baseNamespace == old(m.baseNamespace) && m.basePrefix == old(m.basePrefix)
    ensures m.bnodeCount == old(m.bnodeCount)
    ensures (m.namespaces, m.statements, r) == LoadSpec(old(m.namespaces), old(m.statements), lines, fixed)
  {
    var i := 0;
    while i < |lines|
      invariant 0 <= i <= |lines|
      invariant m.Valid() && m.baseNamespace == old(m.baseNamespace) && m.basePrefix == old(m.basePrefix)
      invariant m.bnodeCount == old(m.bnodeCount)
      invariant LoadSpec(m.namespaces, m.statements, lines[i..], fixed) == LoadSpec(old(m.namespaces), old(m.statements), lines, fixed)
    {
      var res := TransformLine(lines, i, m, fixed);
      if res.Err? {
        return res;
      }
      i := i + 1;
    }
    assert lines[i..] == [];
    return Ok(());
  }

  /** The body of the loop in `transform`: the `i`-th line, unless it is
      skipped, is handled. */
  method TransformLine(lines: seq<string>, i: nat, m: Store.Model, fixed: bool) returns (r: Result<()>)
    requires i < |lines| && m.Valid()
    modifies m
    ensures m.Valid() && m.baseNamespace == old(m.baseNamespace) && m.basePrefix == old(m.basePrefix)
    ensures m.bnodeCount == old(m.bnodeCount)
    ensures r.Ok? ==>
              LoadSpec(m.namespaces, m.statements, lines[i + 1..], fixed) == LoadSpec(old(m.namespaces), old(m.statements), lines[i..], fixed)
    ensures r.Err? ==> (m.namespaces, m.statements, r) == LoadSpec(old(m.namespaces), old(m.statements), lines[i..], fixed)
  {
    LoadTail(m.namespaces, m.statements, lines, i, fixed);
    if Skipped(lines[i], fixed) {
      return Ok(());
    }
    r := HandleLine(lines[i], m, fixed);
  }

  /** One step of the load, at the `i`-th line. */
  lemma LoadTail(nss: Namespaces, stmts: seq<Statement>, lines: seq<string>, i: nat, fixed: bool)
    requires i < |lines|
    ensures Skipped(lines[i], fixed) ==> LoadSpec(nss, stmts, lines[i..], fixed) == LoadSpec(nss, stmts, lines[i + 1..], fixed)
    ensures !Skipped(lines[i], fixed) && LineEffect(nss, stmts, lines[i], fixed).Err? ==>
              LoadSpec(nss, stmts, lines[i..], fixed) == (nss, stmts, Err(LineEffect(nss, stmts, lines[i], fixed).message))
    ensures !Skipped(lines[i], fixed) && LineEffect(nss, stmts, lines[i], fixed).Ok? ==>
              var next := LineEffect(nss, stmts, lines[i], fixed).value;
              LoadSpec(nss, stmts, lines[i..], fixed) == LoadSpec(next.0, next.1, lines[i + 1..], fixed)
  {
    assert lines[i..][0] == lines[i] && lines[i..][1..] == lines[i + 1..];
  }
  // ---------------------------------------------------------------------
  // Round trip

  /** A prefix map as a model keeps it: distinct prefixes, and each
      declaration survives the line format (no space or newline in the
      namespace). */
  predicate PrintableNamespaces(nss: Namespaces) {
    && DistinctKeys(nss)
    && forall e :: e in nss ==> PrintableNamespace(e)
  }

  predicate PrintableNamespace(e: Entry<string, string>) {
    Check.IsPrefix(e.key) && Check.IsNamespace(e.value) && ' ' !in e.value && '\n' !in e.value
  }

  /** The namespace of a URI resource. */
  function NamespaceOfResource(n: Node): string
    requires n.Resource? && Check.IsUri(n.uri)
  {
    Resources.GetNamespace(Plain(n)).value
  }

  /** The resource is written as `prefix:name`. */
  predicate Prefixed(nss: Namespaces, n: Node)
    requires n.Resource? && Check.IsUri(n.uri)
  {
    TruthyPiece(PrefixOf(nss, NamespaceOfResource(n)))
  }

  /** A resource the parser can rebuild from its token: a URI free of the
      characters the line format splits on, whose name is truthy when it
      is written prefixed. As written, it must be written prefixed. */
  predicate PrintableResource(nss: Namespaces, n: Node, fixed: bool) {
    && n.Resource? && Check.IsUri(n.uri) && NTriples.Clean(n.uri) && '"' !in n.uri && '@' !in n.uri
    && if Prefixed(nss, n) then Truthy(Resources.NameOf(n)) else fixed
  }

  predicate PrintableBlank(n: Node) {
    n.BlankNode? && ' ' !in n.id && '\n' !in n.id && '@' !in n.id
  }

  /** A literal: as in N-Triples, and a language must be truthy. */
  predicate PrintableLiteral(n: Node) {
    NTriples.PrintableLiteral(n) && (LiteralNodes.HasLanguage(n) ==> Truthy(n.language.value))
  }

  predicate Printable(nss: Namespaces, st: Statement, fixed: bool) {
    && (PrintableResource(nss, st.subject, fixed) || PrintableBlank(st.subject))
    && PrintableResource(nss, st.pred, fixed)
    && (PrintableResource(nss, st.obj, fixed) || PrintableBlank(st.obj) || PrintableLiteral(st.obj))
  }

  /** What a term reads back as: a literal's missing or empty datatype and
      language both come back as "". */
  function ReadBackNode(n: Node): Node {
    if n.LiteralNode? then
      LiteralNode(n.literal,
                  Some(if LiteralNodes.HasDatatype(n) then n.dtype.value else ""),
                  Some(if LiteralNodes.HasLanguage(n) then n.language.value else ""))
    else n
  }

  function ReadBack(st: Statement): Statement {
    Statement(st.subject, st.pred, ReadBackNode(st.obj))
  }

  function ReadBackAll(stmts: seq<Statement>): (r: seq<Statement>)
    ensures |r| == |stmts|
  {
    if stmts == [] then [] else [ReadBack(stmts[0])] + ReadBackAll(stmts[1..])
  }

  /** The token of a prefixed resource, and how it parses back. */
  lemma PrefixedToken(nss: Namespaces, n: Node, fixed: bool)
    requires PrintableNamespaces(nss) && n.Resource? && Check.IsUri(n.uri)
    requires Prefixed(nss, n) && Truthy(Resources.NameOf(n))
    ensures ResourceText(nss, n).Ok?
    ensures var t := ResourceText(nss, n).value;
      && ' ' !in t && '\n' !in t && '"' !in t && '@' !in t && '#' !in t && '_' !in t && t[0] != '<'
      && ParseResource(nss, t, fixed) == Ok(Plain(n))
  {
    var ns := NamespaceOfResource(n);
    var p := PrefixOf(nss, ns).value;
    var name := Resources.NameOf(n);
    Utils.SplitUri(n.uri);
    assert Entry(p, ns) in nss;
    var t := p + ":" + name;
    assert ResourceText(nss, n) == Ok(t);
    PrefixedChars(p, name);
    PrefixedResolve(nss, p, ns, name, fixed);
    NTriples.ResourceRoundTrip(n.uri);
    InnerOfWrapped('<', n.uri, '>');
  }

  /** `prefix:name` is made of letters, digits and one ':'. */
  lemma PrefixedChars(p: string, name: string)
    requires Check.IsName(p) && Check.IsName(name)
    ensures var t := p + ":" + name;
      && ' ' !in t && '\n' !in t && '"' !in t && '@' !in t && '#' !in t && '_' !in t && '<' !in t && t[0] != '<'
  {
    var t := p + ":" + name;
    forall i | 0 <= i < |t|
      ensures Check.IsAlnum(t[i]) || t[i] == ':'
    {
      if i < |p| {
        assert t[i] == p[i];
      } else if i > |p| {
        assert t[i] == name[i - |p| - 1];
      }
    }
  }

  /** `prefix:name` resolves through the map to the namespace and name. */
  lemma PrefixedResolve(nss: Namespaces, p: string, ns: string, name: string, fixed: bool)
    requires DistinctKeys(nss) && Entry(p, ns) in nss && Check.IsPrefix(p) && Check.IsName(name) && Truthy(name)
    ensures Resolve(nss, p + ":" + name, fixed) == Ok(ns + name)
  {
    PrefixedChars(p, name);
    ExplodeCons(p, ":", name);
    ExplodeWithout(name, ":");
    LookupEntry(nss, Entry(p, ns));
  }

  /** The token of a resource written in brackets: as written it throws,
      since the piece before the URI's first ':' is "<http", an invalid
      prefix; fixed, it gives the URI back. */
  lemma BracketedToken(nss: Namespaces, u: string)
    requires Check.IsUri(u)
    ensures Resolve(nss, "<" + u + ">", false).Err?
    ensures Resolve(nss, "<" + u + ">", true) == Ok(u)
  {
    BracketedPieces(u);
    assert !Check.IsPrefix("<http") by {
      assert !Check.IsAlnum("<http"[0]);
    }
    InnerOfWrapped('<', u, '>');
  }

  /** Split at ':', a bracketed URI gives "<http" and a truthy second
      piece starting with "//". */
  lemma BracketedPieces(u: string)
    requires Check.IsUri(u)
    ensures var pieces := Explode("<" + u + ">", ":");
      |pieces| >= 2 && pieces[0] == "<http" && |pieces[1]| >= 2 && pieces[1][0] == '/'
  {
    var rest := u[5..] + ">";
    BracketedShape(u);
    ExplodeCons("<http", ":", rest);
    assert rest[..2] == "//";
    ExplodeFirst(rest, ":", 2);
  }

  lemma BracketedShape(u: string)
    requires Check.IsUri(u)
    ensures "<" + u + ">" == "<http" + ":" + (u[5..] + ">")
  {
    assert u[..7] == "http://";
  }

  /** The first piece of a split starts with any part free of the
      separator's first character. */
  lemma ExplodeFirst(s: string, d: string, k: nat)
    requires d != [] && k <= |s| && d[0] !in s[..k]
    ensures s[..k] <= Explode(s, d)[0]
  {
    match StrPos(s, d)
    case None =>
    case Some(i) =>
      assert OccursAt(s, d, i);
      assert s[i] == d[0];
      assert s[..k] == s[..i][..k];
  }

  /** The token of any printable resource, and how it parses back. */
  lemma ResourceToken(nss: Namespaces, n: Node, fixed: bool)
    requires PrintableNamespaces(nss) && PrintableResource(nss, n, fixed)
    ensures ResourceText(nss, n).Ok?
    ensures var t := ResourceText(nss, n).value;
      && ' ' !in t && '\n' !in t && '"' !in t && '@' !in t && StrPos(t, "_:").None?
      && (!fixed ==> '#' !in t) && t[0] != '#'
      && ParseResource(nss, t, fixed) == Ok(Plain(n))
  {
    if Prefixed(nss, n) {
      PrefixedToken(nss, n, fixed);
      AbsentByFirstChar(ResourceText(nss, n).value, "_:");
    } else {
      BracketedResourceToken(nss, n);
    }
  }

  /** The token of a resource without a truthy prefix is its bracketed
      URI, which only the fixed parser reads back. */
  lemma BracketedResourceToken(nss: Namespaces, n: Node)
    requires n.Resource? && Check.IsUri(n.uri) && NTriples.Clean(n.uri) && '"' !in n.uri && '@' !in n.uri
    requires !Prefixed(nss, n)
    ensures ResourceText(nss, n) == Ok("<" + n.uri + ">")
    ensures var t := "<" + n.uri + ">";
      && ' ' !in t && '\n' !in t && '"' !in t && '@' !in t && StrPos(t, "_:").None? && t[0] != '#'
      && ParseResource(nss, t, true) == Ok(Plain(n))
  {
    BracketedText(nss, n);
    BracketedChars(n.uri);
    BracketedParse(nss, n.uri);
  }

  lemma BracketedText(nss: Namespaces, n: Node)
    requires n.Resource? && Check.IsUri(n.uri) && !Prefixed(nss, n)
    ensures ResourceText(nss, n) == Ok("<" + n.uri + ">")
  {
  }

  lemma BracketedChars(u: string)
    requires NTriples.Clean(u) && '"' !in u && '@' !in u
    ensures var t := "<" + u + ">";
      && ' ' !in t && '\n' !in t && '"' !in t && '@' !in t && StrPos(t, "_:").None? && t[0] != '#'
  {
    NTriples.BracketedClean(u);
  }

  lemma BracketedParse(nss: Namespaces, u: string)
    requires Check.IsUri(u)
    ensures ParseResource(nss, "<" + u + ">", true) == Ok(Plain(Resource(u)))
  {
    BracketedToken(nss, u);
    Resources.CheckNamespaceIsNotUri(u);
  }

  lemma BlankToken(n: Node)
    requires PrintableBlank(n)
    ensures var t := "_:" + n.id;
      && ' ' !in t && '\n' !in t && '@' !in t && t[0] != '#'
      && StrPos(t, "_:") == Some(0) && From(t, 2) == n.id
  {
    NTriples.BlankRoundTrip(n.id);
  }

  /** The parser's literal branch gives back the literal, read back. */
  lemma LiteralToken(n: Node)
    requires PrintableLiteral(n)
    ensures var t := NTriples.LiteralText(n);
      && ' ' !in t && '\n' !in t && t[0] == '"'
      && StrPos(t, "_:").None? && StrPos(t, "\"").Some?
      && ParseLiteral(t) == ReadBackNode(n)
  {
    var t := NTriples.LiteralText(n);
    NTriples.LiteralChars(n);
    NTriples.LiteralNoBlankMark(n);
    assert t[0] == '"';
    assert OccursAt(t, "\"", 0);
    LiteralParse(n);
  }

  /** The literal's text splits at "^^" into the quoted part and the
      datatype, and the quoted part at '@'. */
  lemma LiteralParse(n: Node)
    requires PrintableLiteral(n)
    ensures ParseLiteral(NTriples.LiteralText(n)) == ReadBackNode(n)
  {
    var d := if LiteralNodes.HasDatatype(n) then n.dtype.value else "";
    LiteralTypePart(n);
    LiteralLanguagePart(n, d);
  }

  lemma LiteralTypePart(n: Node)
    requires PrintableLiteral(n)
    ensures var t := NTriples.LiteralText(n);
      var p1 := Explode(t, "^^");
      var hasType := TruthyPiece(Piece(p1, 1));
      && (if hasType then Inner(p1[1]) else "") == (if LiteralNodes.HasDatatype(n) then n.dtype.value else "")
      && (if hasType then p1[0] else t) == NTriples.Quoted(n) + NTriples.LanguagePart(n)
  {
    NTriples.DatatypeSplit(n);
    if LiteralNodes.HasDatatype(n) {
      InnerOfWrapped('<', n.dtype.value, '>');
    } else {
      NTriples.NoCaretBeforeDatatype(n);
    }
  }

  lemma LiteralLanguagePart(n: Node, d: string)
    requires PrintableLiteral(n)
    ensures ParseLanguage(NTriples.Quoted(n) + NTriples.LanguagePart(n), d)
            == LiteralNode(n.literal, Some(d), Some(if LiteralNodes.HasLanguage(n) then n.language.value else ""))
  {
    NTriples.LanguageSplit(n);
    InnerOfWrapped('"', n.literal, '"');
    if !LiteralNodes.HasLanguage(n) {
      assert NTriples.Quoted(n) + NTriples.LanguagePart(n) == NTriples.Quoted(n);
    }
  }

  /** The subject token parses back to the subject. */
  lemma SubjectToken(nss: Namespaces, n: Node, fixed: bool)
    requires PrintableNamespaces(nss)
    requires PrintableResource(nss, n, fixed) || PrintableBlank(n)
    ensures SubjectText(nss, n).Ok?
    ensures var t := SubjectText(nss, n).value;
      && ' ' !in t && '\n' !in t && '@' !in t && (!fixed && n.Resource? ==> '#' !in t) && t[0] != '#'
      && ParseSubject(nss, t, fixed) == Ok(Plain(n))
  {
    if n.BlankNode? {
      BlankToken(n);
    } else {
      ResourceToken(nss, n, fixed);
    }
  }

  /** The object token parses back to the object, read back. */
  lemma ObjectToken(nss: Namespaces, n: Node, fixed: bool)
    requires PrintableNamespaces(nss)
    requires PrintableResource(nss, n, fixed) || PrintableBlank(n) || PrintableLiteral(n)
    ensures ObjectText(nss, n).Ok?
    ensures var t := ObjectText(nss, n).value;
      && ' ' !in t && '\n' !in t
      && ParseObject(nss, t, fixed) == Ok(Plain(ReadBackNode(n)))
  {
    if n.BlankNode? {
      BlankToken(n);
    } else if n.Resource? {
      ResourceToken(nss, n, fixed);
      AbsentByFirstChar(ResourceText(nss, n).value, "\"");
    } else {
      LiteralToken(n);
    }
  }
  /** The serializer's line of a printable statement parses back to the
      statement, read back, and is not a declaration. */
  lemma ParseLine(nss: Namespaces, st: Statement, fixed: bool)
    requires PrintableNamespaces(nss) && WellFormedStatement(st) && Printable(nss, st, fixed)
    ensures Line(nss, st).Ok?
    ensures var l := Line(nss, st).value;
      && |Explode(l, " ")| == 4 && !IsPrefixLine(l)
      && ParseStatement(nss, l, fixed) == Ok(ReadBack(st))
  {
    SubjectToken(nss, st.subject, fixed);
    ResourceToken(nss, st.pred, fixed);
    ObjectToken(nss, st.obj, fixed);
    var a, b, c := SubjectText(nss, st.subject).value, ResourceText(nss, st.pred).value, ObjectText(nss, st.obj).value;
    assert Line(nss, st) == Ok(a + " " + b + " " + c + " .\n");
    NTriples.SplitLine(a, b, c);
    AbsentByFirstChar(a, "@prefix");
    ParseOfPieces(nss, a + " " + b + " " + c + " .\n", a, b, c, fixed, Plain(st.subject), Plain(st.pred), Plain(ReadBackNode(st.obj)));
  }

  /** `saveAsStatements` on a line whose three parts parse. */
  lemma ParseOfPieces(nss: Namespaces, line: string, a: string, b: string, c: string, fixed: bool, s: Term, p: Term, o: Term)
    requires Explode(line, " ") == [a, b, c, ".\n"]
    requires ParseSubject(nss, a, fixed) == Ok(s) && ParseResource(nss, b, fixed) == Ok(p) && ParseObject(nss, c, fixed) == Ok(o)
    requires !s.node.LiteralNode? && s.props == [] && p.node.Resource? && p.props == []
    ensures ParseStatement(nss, line, fixed) == Ok(Statement(s.node, p.node, o.node))
  {
    var pieces := Explode(line, " ");
    assert pieces[0] == a && pieces[1] == b && pieces[2] == c;
    NewStatementOfTerms(s, p, o);
  }

  /** The line is one newline-free body and its "\n"; with only comment
      lines skipped it is never skipped. */
  lemma LineShape(nss: Namespaces, st: Statement, fixed: bool)
    requires PrintableNamespaces(nss) && WellFormedStatement(st) && Printable(nss, st, fixed)
    ensures Line(nss, st).Ok?
    ensures var l := Line(nss, st).value;
      && l == l[..|l| - 1] + "\n" && '\n' !in l[..|l| - 1] && !Skipped(l, true)
  {
    SubjectToken(nss, st.subject, fixed);
    ResourceToken(nss, st.pred, fixed);
    ObjectToken(nss, st.obj, fixed);
    var a, b, c := SubjectText(nss, st.subject).value, ResourceText(nss, st.pred).value, ObjectText(nss, st.obj).value;
    assert Line(nss, st) == Ok(a + " " + b + " " + c + " .\n");
    TextShape(a, b, c);
  }

  lemma TextShape(a: string, b: string, c: string)
    requires a != [] && a[0] != '#' && '\n' !in a && '\n' !in b && '\n' !in c
    ensures var l := a + " " + b + " " + c + " .\n";
      && l == l[..|l| - 1] + "\n" && '\n' !in l[..|l| - 1] && !Skipped(l, true)
  {
    var body := a + " " + b + " " + c + " .";
    assert (body + "\n")[..|body|] == body;
    assert (body + "\n")[0] == a[0];
  }

  /** The statement's line is kept by the load's line filter. */
  predicate Kept(nss: Namespaces, st: Statement, fixed: bool)
    requires WellFormedStatement(st)
  {
    Line(nss, st).Ok? && !Skipped(Line(nss, st).value, fixed)
  }

  /** Handling the line adds the statement read back. */
  lemma LineEffectOfLine(nss: Namespaces, stmts: seq<Statement>, st: Statement, fixed: bool)
    requires PrintableNamespaces(nss) && WellFormedStatement(st) && Printable(nss, st, fixed)
    ensures Line(nss, st).Ok?
    ensures LineEffect(nss, stmts, Line(nss, st).value, fixed) == Ok((nss, stmts + [ReadBack(st)]))
  {
    ParseLine(nss, st, fixed);
  }

  /** The statement lines make up the body, one after the other. */
  lemma BodyCons(nss: Namespaces, stmts: seq<Statement>)
    requires ResourceLists.AllWellFormed(stmts) && stmts != []
    requires Line(nss, stmts[0]).Ok?
    ensures ResourceLists.AllWellFormed(stmts[1..])
    ensures Body(nss, stmts) == (Line(nss, stmts[0]).value + Body(nss, stmts[1..]).0, Body(nss, stmts[1..]).1)
  {
    assert forall x :: x in stmts[1..] ==> x in stmts;
    var lines := StatementLines(nss, stmts);
    assert lines == [Line(nss, stmts[0])] + StatementLines(nss, stmts[1..]);
    assert lines[1..] == StatementLines(nss, stmts[1..]);
  }

  /** One line that is kept and handled, then the rest. */
  lemma LoadStep(nss: Namespaces, stmts: seq<Statement>, l: string, rest: seq<string>, fixed: bool, next: (Namespaces, seq<Statement>))
    requires !Skipped(l, fixed) && LineEffect(nss, stmts, l, fixed) == Ok(next)
    ensures LoadSpec(nss, stmts, [l] + rest, fixed) == LoadSpec(next.0, next.1, rest, fixed)
  {
    assert ([l] + rest)[0] == l && ([l] + rest)[1..] == rest;
  }

  lemma PrependRead(pre: seq<Statement>, stmts: seq<Statement>)
    requires stmts != []
    ensures pre + [ReadBack(stmts[0])] + ReadBackAll(stmts[1..]) == pre + ReadBackAll(stmts)
  {
    assert ReadBackAll(stmts) == [ReadBack(stmts[0])] + ReadBackAll(stmts[1..]);
  }

  /** Loading the statement lines adds every statement back, read back, in
      order, and leaves the prefix map as it is. */
  lemma {:induction false} LoadBody(nss: Namespaces, pre: seq<Statement>, stmts: seq<Statement>, fixed: bool)
    requires PrintableNamespaces(nss) && ResourceLists.AllWellFormed(stmts)
    requires forall st :: st in stmts ==> Printable(nss, st, fixed) && Kept(nss, st, fixed)
    ensures Body(nss, stmts).1.Ok?
    ensures LoadSpec(nss, pre, Lines(Body(nss, stmts).0), fixed) == (nss, pre + ReadBackAll(stmts), Ok(()))
    decreases |stmts|
  {
    if stmts == [] {
      assert pre + [] == pre;
    } else {
      var st := stmts[0];
      assert st in stmts;
      LineShape(nss, st, fixed);
      BodyCons(nss, stmts);
      var l := Line(nss, st).value;
      var restText := Body(nss, stmts[1..]).0;
      LinesCons(l[..|l| - 1], restText);
      assert Body(nss, stmts).0 == l[..|l| - 1] + "\n" + restText;
      LineEffectOfLine(nss, pre, st, fixed);
      LoadStep(nss, pre, l, Lines(restText), fixed, (nss, pre + [ReadBack(st)]));
      assert forall x :: x in stmts[1..] ==> x in stmts;
      LoadBody(nss, pre + [ReadBack(st)], stmts[1..], fixed);
      PrependRead(pre, stmts);
    }
  }

  // The declarations

  /** `addNamespace` for every entry, in order. */
  function PutAll(m: Namespaces, nss: Namespaces): Namespaces
    decreases |nss|
  {
    if nss == [] then m else PutAll(Put(m, nss[0].key, nss[0].value), nss[1..])
  }

  /** Declaring fresh prefixes appends them. */
  lemma {:induction false} PutAllFresh(m: Namespaces, nss: Namespaces)
    requires DistinctKeys(m + nss)
    ensures PutAll(m, nss) == m + nss
    decreases |nss|
  {
    if nss != [] {
      var e := nss[0];
      assert (m + nss)[|m|] == e;
      forall i | 0 <= i < |m|
        ensures Keys(m)[i] != e.key
      {
        assert (m + nss)[i] == m[i];
      }
      PutAbsent(m, e.key, e.value);
      assert m + [e] + nss[1..] == m + nss;
      PutAllFresh(m + [e], nss[1..]);
    }
  }

  /** A declaration line splits into the keyword, `prefix:<namespace>` and
      the closing dot. */
  lemma SplitPrefixLine(e: Entry<string, string>)
    requires PrintableNamespace(e)
    ensures var tok := e.key + ":" + "<" + e.value + ">";
      && Explode(PrefixLine(e), " ") == ["@prefix", tok, ".\n"]
      && ExplodeTwo(tok, ":") == [e.key, "<" + e.value + ">"]
  {
    var tok := e.key + ":" + "<" + e.value + ">";
    KeyChars(e.key);
    PrefixLineSpaced(e);
    ExplodeSpacedThree("@prefix", tok, ".\n");
    RegroupToken(e.key, ":", "<", e.value, ">");
    ExplodeTwoCons(e.key, ":", "<" + e.value + ">");
  }

  /** A declaration line is the keyword, the token and the dot, joined by
      single spaces. */
  lemma PrefixLineSpaced(e: Entry<string, string>)
    ensures PrefixLine(e) == "@prefix" + " " + (e.key + ":" + "<" + e.value + ">" + " " + ".\n")
  {
    assert "@prefix " == "@prefix" + " ";
    assert "> .\n" == ">" + " " + ".\n";
    RegroupLine("@prefix", " ", e.key, ":", "<", e.value, ">", ".\n");
  }

  lemma RegroupLine<T>(p: seq<T>, sp: seq<T>, k: seq<T>, c: seq<T>, l: seq<T>, v: seq<T>, g: seq<T>, dot: seq<T>)
    ensures (p + sp) + k + c + l + v + (g + sp + dot) == p + sp + (k + c + l + v + g + sp + dot)
  {
  }

  lemma RegroupToken<T>(k: seq<T>, c: seq<T>, l: seq<T>, v: seq<T>, g: seq<T>)
    ensures k + c + l + v + g == k + c + (l + v + g)
  {
  }

  /** A valid prefix is made of letters and digits. */
  lemma KeyChars(k: string)
    requires Check.IsPrefix(k)
    ensures ' ' !in k && ':' !in k && '\n' !in k && '#' !in k && k != []
  {
    PrefixedChars(k, "a");
    assert k <= k + ":" + "a";
  }

  /** Handling a declaration line binds its prefix. */
  lemma PrefixLineEffect(nss: Namespaces, stmts: seq<Statement>, e: Entry<string, string>, fixed: bool)
    requires PrintableNamespace(e)
    ensures LineEffect(nss, stmts, PrefixLine(e), fixed) == Ok((Put(nss, e.key, e.value), stmts))
  {
    SplitPrefixLine(e);
    assert OccursAt("@prefix", "@prefix", 0);
    InnerOfWrapped('<', e.value, '>');
    var tok := e.key + ":" + "<" + e.value + ">";
    assert OccursAt(tok, ":", |e.key|);
  }

  /** A declaration line is one newline-free body and its "\n"; it starts
      with '@', and holds a '#' only where its namespace does. */
  lemma PrefixLineShape(e: Entry<string, string>)
    requires PrintableNamespace(e)
    ensures var l := PrefixLine(e);
      && l == l[..|l| - 1] + "\n" && '\n' !in l[..|l| - 1] && !Skipped(l, true)
      && ('#' in l <==> '#' in e.value)
  {
    var body := "@prefix " + e.key + ":" + "<" + e.value + "> .";
    KeyChars(e.key);
    assert PrefixLine(e) == body + "\n";
    assert (body + "\n")[..|body|] == body;
    SkippedLines(PrefixLine(e));
  }

  /** Loading the declarations binds every prefix in order. As written it
      needs namespaces free of '#'. */
  lemma {:induction false} LoadHeader(m: Namespaces, stmts: seq<Statement>, nss: Namespaces, rest: string, fixed: bool)
    requires forall e :: e in nss ==> PrintableNamespace(e) && (fixed || '#' !in e.value)
    ensures LoadSpec(m, stmts, Lines(Header(nss) + rest), fixed) == LoadSpec(PutAll(m, nss), stmts, Lines(rest), fixed)
    decreases |nss|
  {
    if nss == [] {
      assert "" + rest == rest;
    } else {
      var e := nss[0];
      assert e in nss;
      HeaderStep(m, stmts, e, Header(nss[1..]) + rest, fixed);
      HeaderCons(nss, rest);
      assert forall x :: x in nss[1..] ==> x in nss;
      LoadHeader(Put(m, e.key, e.value), stmts, nss[1..], rest, fixed);
    }
  }

  lemma HeaderCons(nss: Namespaces, rest: string)
    requires nss != []
    ensures Header(nss) + rest == PrefixLine(nss[0]) + (Header(nss[1..]) + rest)
  {
    Seqs.AppendAssoc(PrefixLine(nss[0]), Header(nss[1..]), rest);
  }

  /** The first declaration of a header binds its prefix. */
  lemma HeaderStep(m: Namespaces, stmts: seq<Statement>, e: Entry<string, string>, rest: string, fixed: bool)
    requires PrintableNamespace(e) && (fixed || '#' !in e.value)
    ensures LoadSpec(m, stmts, Lines(PrefixLine(e) + rest), fixed) == LoadSpec(Put(m, e.key, e.value), stmts, Lines(rest), fixed)
  {
    var l := PrefixLine(e);
    PrefixLineShape(e);
    SkippedLines(l);
    assert l + rest == l[..|l| - 1] + "\n" + rest;
    LinesCons(l[..|l| - 1], rest);
    PrefixLineEffect(m, stmts, e, fixed);
    LoadStep(m, stmts, l, Lines(rest), fixed, (Put(m, e.key, e.value), stmts));
  }

  /** Writing a model and loading the text into a model without prefixes
      gives back its prefix map and its statements, read back. As written
      this needs every resource written prefixed and no '#' anywhere. */
  lemma DocumentRoundTrip(nss: Namespaces, pre: seq<Statement>, stmts: seq<Statement>, fixed: bool)
    requires PrintableNamespaces(nss) && forall e :: e in nss ==> fixed || '#' !in e.value
    requires ResourceLists.AllWellFormed(stmts)
    requires forall st :: st in stmts ==> Printable(nss, st, fixed) && Kept(nss, st, fixed)
    ensures Body(nss, stmts).1.Ok?
    ensures LoadSpec([], pre, Lines(Header(nss) + Body(nss, stmts).0), fixed) == (nss, pre + ReadBackAll(stmts), Ok(()))
  {
    LoadBody(nss, pre, stmts, fixed);
    LoadHeader([], pre, nss, Body(nss, stmts).0, fixed);
    assert [] + nss == nss;
    PutAllFresh([], nss);
  }

  /** With both fixes, every printable model round-trips: resources
      without a prefix are read from their brackets, and namespaces and
      lines holding '#' are kept. */
  lemma FixedRoundTrip(nss: Namespaces, pre: seq<Statement>, stmts: seq<Statement>)
    requires PrintableNamespaces(nss) && ResourceLists.AllWellFormed(stmts)
    requires forall st :: st in stmts ==> Printable(nss, st, true)
    ensures Body(nss, stmts).1.Ok?
    ensures LoadSpec([], pre, Lines(Header(nss) + Body(nss, stmts).0), true) == (nss, pre + ReadBackAll(stmts), Ok(()))
  {
    forall st | st in stmts
      ensures Kept(nss, st, true)
    {
      assert WellFormedStatement(st);
      LineShape(nss, st, true);
    }
    DocumentRoundTrip(nss, pre, stmts, true);
  }

  /** As written, the line of a statement whose subject has no truthy
      prefix cannot be read back: its `<uri>` token throws. */
  lemma UnprefixedRejected(nss: Namespaces, st: Statement)
    requires PrintableNamespaces(nss) && WellFormedStatement(st) && Printable(nss, st, true)
    requires st.subject.Resource? && !Prefixed(nss, st.subject)
    ensures Line(nss, st).Ok? && ParseStatement(nss, Line(nss, st).value, false).Err?
  {
    SubjectToken(nss, st.subject, true);
    ResourceToken(nss, st.pred, true);
    ObjectToken(nss, st.obj, true);
    var a, b, c := SubjectText(nss, st.subject).value, ResourceText(nss, st.pred).value, ObjectText(nss, st.obj).value;
    assert Line(nss, st) == Ok(a + " " + b + " " + c + " .\n");
    NTriples.SplitLine(a, b, c);
    BracketedText(nss, st.subject);
    BracketedToken(nss, st.subject.uri);
    NTriples.BracketedClean(st.subject.uri);
  }

  /** As written, a declaration of a namespace holding '#' is skipped, so
      its prefix stays unbound; with only comments skipped it is bound. */
  lemma HashNamespaceDropped(m: Namespaces, stmts: seq<Statement>, e: Entry<string, string>, rest: seq<string>)
    requires PrintableNamespace(e) && '#' in e.value
    ensures LoadSpec(m, stmts, [PrefixLine(e)] + rest, false) == LoadSpec(m, stmts, rest, false)
    ensures LoadSpec(m, stmts, [PrefixLine(e)] + rest, true) == LoadSpec(Put(m, e.key, e.value), stmts, rest, true)
  {
    PrefixLineShape(e);
    SkippedLines(PrefixLine(e));
    assert ([PrefixLine(e)] + rest)[0] == PrefixLine(e) && ([PrefixLine(e)] + rest)[1..] == rest;
    PrefixLineEffect(m, stmts, e, true);
  }
}
