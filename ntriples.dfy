/** `serializers/NTripleSerializer.php` and `parsers/NTripleParser.php`:
    the space-delimited subset of N-Triples (section 3 of the W3C "RDF Test
    Cases") the library writes and reads. One statement is one line
    `S P O .`; resources print as `<uri>`, blank nodes as `_:id`, literals
    as `"text"` with an optional `@lang` and then an optional
    `^^<datatype>`. */
module NTriples {
  import opened Wrappers
  import Seqs
  import opened Terms
  import opened PhpStrings
  import opened Statements
  import LiteralNodes
  import Resources
  import BlankNodes
  import Check
  import ResourceLists
  import StoreSpec
  import Store
  import opened LineReader
  import Utils

  // ---------------------------------------------------------------------
  // Serializer

  /** A literal: the quoted text, `@lang` when it has a language, then
      `^^<datatype>` when it has a datatype. */
  function LiteralText(n: Node): string
    requires n.LiteralNode?
  {
    Quoted(n) + LanguagePart(n) + DatatypePart(n)
  }

  function Quoted(n: Node): string
    requires n.LiteralNode?
  {
    "\"" + n.literal + "\""
  }

  function LanguagePart(n: Node): string
    requires n.LiteralNode?
  {
    if LiteralNodes.HasLanguage(n) then "@" + n.language.value else ""
  }

  function DatatypePart(n: Node): string
    requires n.LiteralNode?
  {
    if LiteralNodes.HasDatatype(n) then "^^<" + n.dtype.value + ">" else ""
  }

  function SubjectText(n: Node): string
    requires !n.LiteralNode?
  {
    if n.BlankNode? then "_:" + n.id else "<" + n.uri + ">"
  }

  /** Predicates always print as `<uri>`. */
  function PredicateText(n: Node): string
    requires !n.LiteralNode?
  {
    "<" + UriOf(n) + ">"
  }

  function ObjectText(n: Node): string {
    if n.BlankNode? then "_:" + n.id
    else if n.Resource? then "<" + n.uri + ">"
    else LiteralText(n)
  }

  /** The line one statement becomes. */
  function Line(st: Statement): string
    requires WellFormedStatement(st)
  {
    SubjectText(st.subject) + " " + PredicateText(st.pred) + " " + ObjectText(st.obj) + " .\n"
  }

  /** The lines of the statements, in store order. */
  function Document(stmts: seq<Statement>): string
    requires ResourceLists.AllWellFormed(stmts)
  {
    if stmts == [] then "" else Line(stmts[0]) + Document(stmts[1..])
  }

  /** The document of one more statement of a store. */
  lemma DocumentPrefix(stmts: seq<Statement>, i: nat)
    requires ResourceLists.AllWellFormed(stmts) && i < |stmts|
    ensures WellFormedStatement(stmts[i]) && ResourceLists.AllWellFormed(stmts[..i + 1])
    ensures Document(stmts[..i + 1]) == Document(stmts[..i]) + Line(stmts[i])
  {
    assert stmts[..i + 1] == stmts[..i] + [stmts[i]];
    assert stmts[i] in stmts;
    DocumentSnoc(stmts[..i], stmts[i]);
  }

  lemma {:induction false} DocumentSnoc(stmts: seq<Statement>, st: Statement)
    requires ResourceLists.AllWellFormed(stmts + [st])
    ensures ResourceLists.AllWellFormed(stmts)
    ensures Document(stmts + [st]) == Document(stmts) + Line(st)
    decreases |stmts|
  {
    if stmts == [] {
      assert [st][1..] == [];
    } else {
      assert (stmts + [st])[1..] == stmts[1..] + [st];
      DocumentSnoc(stmts[1..], st);
    }
  }

  /** The body of the serializer's loop for one statement: the subject,
      predicate and object texts, then the line. */
  method StatementLine(st: Statement) returns (line: string)
    requires WellFormedStatement(st)
    ensures line == Line(st)
  {
    var subjectText;
    if st.subject.BlankNode? {
      subjectText := "_:" + st.subject.id;
    } else {
      subjectText := "<" + st.subject.uri + ">";
    }
    var predicateText := "<" + st.pred.uri + ">";
    var objectText;
    if st.obj.BlankNode? {
      objectText := "_:" + st.obj.id;
    } else if st.obj.Resource? {
      objectText := "<" + st.obj.uri + ">";
    } else {
      objectText := WriteLiteral(st.obj);
    }
    line := subjectText + " " + predicateText + " " + objectText + " .\n";
  }

  /** The literal branch of both serializers: the quoted text, then the
      optional language and datatype parts. */
  method WriteLiteral(n: Node) returns (text: string)
    requires n.LiteralNode?
    ensures text == LiteralText(n)
  {
    text := "\"" + n.literal + "\"";
    if LiteralNodes.HasLanguage(n) {
      text := text + "@" + n.language.value;
    }
    if LiteralNodes.HasDatatype(n) {
      text := text + "^^<" + n.dtype.value + ">";
    }
  }

  /** `NTripleSerializer`: the text is appended to `content`, which
      `serializeToString` clears afterwards. */
  class NTripleSerializer {
    var content: string

    constructor ()
      ensures content == ""
    {
      content := "";
    }

    /** `transform($model)`: an empty model throws; otherwise one line per
        statement, in store order, is appended to the content. */
    method Transform(m: Store.Model) returns (r: Result<string>)
      requires m.Valid()
      modifies this
      ensures m.statements == [] ==> r.Err? && content == old(content)
      ensures m.statements != [] ==> content == old(content) + Document(m.statements) && r == Ok(content)
    {
      if m.IsEmpty() {
        return Err("The model is empty and cant be serialized");
      }
      var stmts := m.statements;
      var i := 0;
      while i < |stmts|
        invariant 0 <= i <= |stmts|
        invariant ResourceLists.AllWellFormed(stmts) && ResourceLists.AllWellFormed(stmts[..i])
        invariant content == old(content) + Document(stmts[..i])
      {
        DocumentPrefix(stmts, i);
        var line := StatementLine(stmts[i]);
        Seqs.AppendAssoc(old(content), Document(stmts[..i]), line);
        content := content + line;
        i := i + 1;
      }
      assert stmts[..i] == stmts;
      return Ok(content);
    }

    /** `serializeToString($model)`: the text of `transform`, after which
        the content is cleared. */
    method SerializeToString(m: Store.Model) returns (r: Result<string>)
      requires m.Valid()
      modifies this
      ensures m.statements == [] ==> r.Err? && content == old(content)
      ensures m.statements != [] ==> r == Ok(old(content) + Document(m.statements)) && content == ""
    {
      r := Transform(m);
      if r.Ok? {
        content := "";
      }
    }
  }

  // ---------------------------------------------------------------------
  // Parser

  /** The subject: a piece containing "_:" anywhere is a blank node named
      by what follows its first two characters; otherwise the resource
      named by the piece without its first and last characters. */
  function ParseSubject(t: string): Result<Term> {
    if StrPos(t, "_:").None? then Resources.NewResource(Inner(t))
    else Ok(BlankNodes.NewBlankNode(From(t, 2)))
  }

  /** A literal piece: split on "^^" first (a missing datatype part reads as
      `substr(null, 1, -1)`, the empty string), then the first part on
      "@" (a missing language part is null), then the quotes dropped. */
  function ParseLiteral(t: string): (n: Node)
    ensures n.LiteralNode?
  {
    var p1 := Explode(t, "^^");
    var dtype := match Piece(p1, 1) case None => "" case Some(x) => Inner(x);
    var p2 := Explode(p1[0], "@");
    LiteralNode(Inner(p2[0]), Some(dtype), Piece(p2, 1))
  }

  /** The object: "_:" makes a blank node, a piece without '"' a
      resource, anything else a literal. */
  function ParseObject(t: string): Result<Term> {
    if StrPos(t, "_:").Some? then Ok(BlankNodes.NewBlankNode(From(t, 2)))
    else if StrPos(t, "\"").None? then Resources.NewResource(Inner(t))
    else Ok(Plain(ParseLiteral(t)))
  }

  /** `saveAsStatements($line)`: exactly four space-separated pieces, else
      it throws (the fourth piece is never read); then subject, predicate
      and object are built in that order and the statement constructor
      checks their roles. */
  function ParseStatement(line: string): (r: Result<Statement>)
    ensures |Explode(line, " ")| != 4 ==> r.Err?
    ensures r.Ok? ==> WellFormedStatement(r.value)
  {
    var pieces := Explode(line, " ");
    if |pieces| != 4 then Err("The content of the file can not be interpreted")
    else
      var subject :- ParseSubject(pieces[0]);
      var pred :- Resources.NewResource(Inner(pieces[1]));
      var obj :- ParseObject(pieces[2]);
      NewStatement(Obj(subject), Obj(pred), Obj(obj))
  }

  /** The loop of `transform`: the skipped lines (see `Skipped`) are
      passed over, every other one is parsed and added to the model; the
      first line that fails to parse ends the load with what was added so
      far. `LoadSpec(stmts, lines, false)` is the loop as written. */
  function LoadSpec(stmts: seq<Statement>, lines: seq<string>, commentsOnly: bool): (seq<Statement>, Result<()>)
    decreases |lines|
  {
    if lines == [] then (stmts, Ok(()))
    else if Skipped(lines[0], commentsOnly) then LoadSpec(stmts, lines[1..], commentsOnly)
    else match ParseStatement(lines[0])
      case Err(e) => (stmts, Err(e))
      case Ok(st) => LoadSpec(StoreSpec.AddStatementSpec(stmts, st, Store.AllowDuplicates), lines[1..], commentsOnly)
  }

  /** `transform($file, $model)` over the lines of the file; with
      `commentsOnly` false the lines skipped are those of the code as
      written, with it true only comment lines are. */
  method Transform(lines: seq<string>, m: Store.Model, commentsOnly: bool) returns (r: Result<()>)
    requires m.Valid()
    modifies m
    ensures m.Valid() && m.Config() == old(m.Config())
    ensures (m.statements, r) == LoadSpec(old(m.statements), lines, commentsOnly)
  {
    var i := 0;
    while i < |lines|
      invariant 0 <= i <= |lines|
      invariant m.Valid() && m.Config() == old(m.Config())
      invariant LoadSpec(m.statements, lines[i..], commentsOnly) == LoadSpec(old(m.statements), lines, commentsOnly)
    {
      var res := TransformLine(lines, i, m, commentsOnly);
      if res.Err? {
        return res;
      }
      i := i + 1;
    }
    assert lines[i..] == [];
    return Ok(());
  }

  /** The body of the loop in `transform`: the `i`-th line, unless it is
      skipped, is parsed and added. */
  method TransformLine(lines: seq<string>, i: nat, m: Store.Model, commentsOnly: bool) returns (r: Result<()>)
    requires i < |lines| && m.Valid()
    modifies m
    ensures m.Valid() && m.Config() == old(m.Config())
    ensures r.Ok? ==> LoadSpec(m.statements, lines[i + 1..], commentsOnly) == LoadSpec(old(m.statements), lines[i..], commentsOnly)
    ensures r.Err? ==> (m.statements, r) == LoadSpec(old(m.statements), lines[i..], commentsOnly)
  {
    assert lines[i..][0] == lines[i] && lines[i..][1..] == lines[i + 1..];
    if Skipped(lines[i], commentsOnly) {
      return Ok(());
    }
    var st := ParseStatement(lines[i]);
    if st.Err? {
      return Err(st.message);
    }
    var _ := m.Add(Stmt(st.value));
    return Ok(());
  }

  // ---------------------------------------------------------------------
  // Round trip

  /** Text that survives the line format: no space, no newline and no
      "_:" inside. */
  predicate Clean(s: string) {
    ' ' !in s && '\n' !in s && StrPos(s, "_:").None?
  }

  /** A resource the parser can rebuild from `<uri>`. */
  predicate PrintableResource(n: Node) {
    n.Resource? && Check.IsUri(n.uri) && Clean(n.uri)
  }

  predicate PrintableBlank(n: Node) {
    n.BlankNode? && ' ' !in n.id && '\n' !in n.id
  }

  /** Literal parts must not hold the characters the parser splits on. */
  predicate PrintableLiteral(n: Node) {
    && n.LiteralNode?
    && Clean(n.literal) && '@' !in n.literal && '^' !in n.literal
    && (LiteralNodes.HasLanguage(n) ==> Clean(n.language.value) && '@' !in n.language.value && '^' !in n.language.value)
    && (LiteralNodes.HasDatatype(n) ==> Clean(n.dtype.value) && '^' !in n.dtype.value)
  }

  /** An object: a resource object must also be free of '"', which would
      make the parser read it as a literal. */
  predicate PrintableObject(n: Node) {
    (PrintableResource(n) && '"' !in n.uri) || PrintableBlank(n) || PrintableLiteral(n)
  }

  /** A statement whose every part survives the line format. */
  predicate Printable(st: Statement) {
    && (PrintableResource(st.subject) || PrintableBlank(st.subject))
    && PrintableResource(st.pred)
    && PrintableObject(st.obj)
  }

  /** What a term reads back as: a literal's missing or empty datatype
      comes back as "", a missing or empty language as null. */
  function ReadBackNode(n: Node): Node {
    if n.LiteralNode? then
      LiteralNode(n.literal,
                  Some(if LiteralNodes.HasDatatype(n) then n.dtype.value else ""),
                  if LiteralNodes.HasLanguage(n) then n.language else None)
    else n
  }

  function ReadBack(st: Statement): Statement {
    Statement(st.subject, st.pred, ReadBackNode(st.obj))
  }

  function ReadBackAll(stmts: seq<Statement>): (r: seq<Statement>)
    ensures |r| == |stmts|
  {
    if stmts == [] then [] else [ReadBack(stmts[0])] + ReadBackAll(stmts[1..])
  }

  /** Reading back changes nothing that statement equality looks at: a
      missing datatype comes back as "", which `==` takes for null. */
  lemma ReadBackEquals(st: Statement)
    requires WellFormedStatement(st)
    ensures Statements.Equals(st, Stmt(ReadBack(st)))
  {
    NodeEqualsIff(st.subject, st.subject);
    NodeEqualsIff(st.pred, st.pred);
    NodeEqualsIff(st.obj, ReadBackNode(st.obj));
  }

  /** Every statement read back is found by a search for its original
      object: reading back keeps what equality looks at, although a literal
      without datatype comes back with the datatype "". */
  lemma ReadBackFound(st: Statement)
    requires WellFormedStatement(st)
    ensures st.obj.LiteralNode? && st.obj.dtype.None? ==> ReadBack(st).obj.dtype == Some("")
    ensures StoreSpec.Matching([ReadBack(st)], Null, Null, Obj(Plain(st.obj))) == [ReadBack(st)]
  {
    NodeEqualsIff(st.obj, ReadBackNode(st.obj));
    assert Statements.TermEquals(Plain(st.obj), Obj(Plain(ReadBackNode(st.obj))));
  }

  /** The stored literal of `<http://a/s> <http://a/p> "v" .` (datatype "")
      is found by a search for the literal "v" with a null datatype, which is
      what a SPARQL query literal carries. */
  lemma UntypedLiteralFound()
    ensures var st := Statement(Resource("http://a/s"), Resource("http://a/p"), LiteralNode("v", Some(""), None));
      StoreSpec.Matching([st], Null, Null, Obj(Plain(LiteralNode("v", None, None)))) == [st]
  {
    ReadBackFound(Statement(Resource("http://a/s"), Resource("http://a/p"), LiteralNode("v", None, None)));
  }

  // Pieces of the round trip

  lemma SplitLine(a: string, b: string, c: string)
    requires ' ' !in a && ' ' !in b && ' ' !in c
    ensures Explode(a + " " + b + " " + c + " .\n", " ") == [a, b, c, ".\n"]
  {
    assert " .\n" == " " + ".\n";
    RegroupSpaced(a, " ", b, c, ".\n");
    ExplodeSpaced(a, b, c, ".\n");
  }

  /** `<uri>` holds no "_:" when the URI does not. */
  lemma BracketedClean(u: string)
    requires StrPos(u, "_:").None?
    ensures StrPos("<" + u + ">", "_:").None?
  {
    NoneAcross("<", u, "_:");
    NoneAcross("<" + u, ">", "_:");
  }

  lemma ResourceRoundTrip(u: string)
    requires Check.IsUri(u)
    ensures Resources.NewResource(Inner("<" + u + ">")) == Ok(Plain(Resource(u)))
  {
    InnerOfWrapped('<', u, '>');
    Resources.CheckNamespaceIsNotUri(u);
  }

  lemma BlankRoundTrip(id: string)
    ensures StrPos("_:" + id, "_:") == Some(0)
    ensures From("_:" + id, 2) == id
  {
    assert OccursAt("_:" + id, "_:", 0);
    assert ("_:" + id)[2..] == id;
  }

  lemma SubjectRoundTrip(n: Node)
    requires PrintableResource(n) || PrintableBlank(n)
    ensures ParseSubject(SubjectText(n)) == Ok(Plain(n))
  {
    if n.BlankNode? {
      BlankRoundTrip(n.id);
    } else {
      BracketedClean(n.uri);
      ResourceRoundTrip(n.uri);
    }
  }

  lemma LiteralChars(n: Node)
    requires PrintableLiteral(n)
    ensures ' ' !in LiteralText(n) && '\n' !in LiteralText(n)
  {
    assert ' ' !in Quoted(n) && '\n' !in Quoted(n);
    assert ' ' !in LanguagePart(n) && '\n' !in LanguagePart(n);
    assert ' ' !in DatatypePart(n) && '\n' !in DatatypePart(n);
  }

  lemma LiteralNoBlankMark(n: Node)
    requires PrintableLiteral(n)
    ensures StrPos(LiteralText(n), "_:").None?
  {
    var ql, d := Quoted(n) + LanguagePart(n), DatatypePart(n);
    QuotedNoBlankMark(n);
    if d != "" {
      NoneAcross("^^<", n.dtype.value, "_:");
      NoneAcross("^^<" + n.dtype.value, ">", "_:");
      NoneAcross(ql, d, "_:");
    } else {
      assert ql + d == ql;
    }
  }

  lemma QuotedNoBlankMark(n: Node)
    requires PrintableLiteral(n)
    ensures StrPos(Quoted(n) + LanguagePart(n), "_:").None?
  {
    var q, l := Quoted(n), LanguagePart(n);
    WrappedNoBlankMark('"', n.literal, '"');
    if l != "" {
      NoneAcross("@", n.language.value, "_:");
      NoneAcross(q, l, "_:");
    } else {
      assert q + l == q;
    }
  }

  /** A string free of "_:" stays free of it between two other characters. */
  lemma WrappedNoBlankMark(a: char, s: string, b: char)
    requires StrPos(s, "_:").None? && a !in "_:" && b !in "_:"
    ensures StrPos([a] + s + [b], "_:").None?
  {
    NoneAcross([a], s, "_:");
    NoneAcross([a] + s, [b], "_:");
  }

  lemma DatatypeSplit(n: Node)
    requires PrintableLiteral(n)
    ensures Explode(LiteralText(n), "^^")
            == if LiteralNodes.HasDatatype(n) then [Quoted(n) + LanguagePart(n), "<" + n.dtype.value + ">"]
               else [Quoted(n) + LanguagePart(n)]
  {
    NoCaretBeforeDatatype(n);
    if LiteralNodes.HasDatatype(n) {
      DatatypeSplitWith(n);
    } else {
      ExplodeWithout(Quoted(n) + LanguagePart(n), "^^");
    }
  }

  lemma NoCaretBeforeDatatype(n: Node)
    requires PrintableLiteral(n)
    ensures '^' !in Quoted(n) + LanguagePart(n)
    ensures !LiteralNodes.HasDatatype(n) ==> LiteralText(n) == Quoted(n) + LanguagePart(n)
  {
  }

  lemma DatatypeSplitWith(n: Node)
    requires PrintableLiteral(n) && LiteralNodes.HasDatatype(n)
    requires '^' !in Quoted(n) + LanguagePart(n)
    ensures Explode(LiteralText(n), "^^") == [Quoted(n) + LanguagePart(n), "<" + n.dtype.value + ">"]
  {
    var ql := Quoted(n) + LanguagePart(n);
    var t := "<" + n.dtype.value + ">";
    CaretJoin(ql, n.dtype.value);
    ExplodeCons(ql, "^^", t);
    ExplodeWithout(t, "^^");
  }

  /** The datatype marker splits into the separator and the bracket. */
  lemma CaretJoin(a: string, x: string)
    ensures a + ("^^<" + x + ">") == a + "^^" + ("<" + x + ">")
  {
    assert "^^<" == "^^" + "<";
  }

  lemma LanguageSplit(n: Node)
    requires PrintableLiteral(n)
    ensures Explode(Quoted(n) + LanguagePart(n), "@")
            == if LiteralNodes.HasLanguage(n) then [Quoted(n), n.language.value] else [Quoted(n)]
  {
    var q := Quoted(n);
    assert '@' !in q;
    if LiteralNodes.HasLanguage(n) {
      assert q + LanguagePart(n) == q + "@" + n.language.value;
      ExplodeCons(q, "@", n.language.value);
      ExplodeWithout(n.language.value, "@");
    } else {
      assert q + LanguagePart(n) == q;
      ExplodeWithout(q, "@");
    }
  }

  /** The parser's literal branch gives back the literal, read back. */
  lemma LiteralRoundTrip(n: Node)
    requires PrintableLiteral(n)
    ensures StrPos(LiteralText(n), "_:").None?
    ensures StrPos(LiteralText(n), "\"").Some?
    ensures ParseLiteral(LiteralText(n)) == ReadBackNode(n)
  {
    LiteralNoBlankMark(n);
    assert OccursAt(LiteralText(n), "\"", 0) by {
      assert LiteralText(n)[0] == '"';
    }
    DatatypeSplit(n);
    LanguageSplit(n);
    InnerOfWrapped('"', n.literal, '"');
    if LiteralNodes.HasDatatype(n) {
      InnerOfWrapped('<', n.dtype.value, '>');
    }
  }

  lemma ObjectRoundTrip(n: Node)
    requires PrintableObject(n)
    ensures ParseObject(ObjectText(n)) == Ok(Plain(ReadBackNode(n)))
  {
    if n.BlankNode? {
      BlankRoundTrip(n.id);
    } else if n.Resource? {
      BracketedClean(n.uri);
      AbsentByFirstChar("<" + n.uri + ">", "\"");
      ResourceRoundTrip(n.uri);
    } else {
      LiteralRoundTrip(n);
    }
  }

  /** No part of a line holds a space or a newline. */
  lemma TextChars(st: Statement)
    requires WellFormedStatement(st) && Printable(st)
    ensures ' ' !in SubjectText(st.subject) && '\n' !in SubjectText(st.subject)
    ensures ' ' !in PredicateText(st.pred) && '\n' !in PredicateText(st.pred)
    ensures ' ' !in ObjectText(st.obj) && '\n' !in ObjectText(st.obj)
  {
    if st.obj.LiteralNode? {
      LiteralChars(st.obj);
    }
  }

  /** `saveAsStatements` reads the serializer's line back as the statement
      it was written from. */
  lemma ParseLine(st: Statement)
    requires WellFormedStatement(st) && Printable(st)
    ensures ParseStatement(Line(st)) == Ok(ReadBack(st))
  {
    var a, b, c := SubjectText(st.subject), PredicateText(st.pred), ObjectText(st.obj);
    TextChars(st);
    SplitLine(a, b, c);
    SubjectRoundTrip(st.subject);
    BracketedClean(st.pred.uri);
    ResourceRoundTrip(st.pred.uri);
    ObjectRoundTrip(st.obj);
    ParseOfPieces(Line(st), a, b, c, Plain(st.subject), Plain(st.pred), Plain(ReadBackNode(st.obj)));
  }

  /** `saveAsStatements` on a line whose three parts parse. */
  lemma ParseOfPieces(line: string, a: string, b: string, c: string, s: Term, p: Term, o: Term)
    requires Explode(line, " ") == [a, b, c, ".\n"]
    requires ParseSubject(a) == Ok(s) && Resources.NewResource(Inner(b)) == Ok(p) && ParseObject(c) == Ok(o)
    requires !s.node.LiteralNode? && s.props == [] && p.node.Resource? && p.props == []
    ensures ParseStatement(line) == Ok(Statement(s.node, p.node, o.node))
  {
    var pieces := Explode(line, " ");
    assert pieces[0] == a && pieces[1] == b && pieces[2] == c;
    NewStatementOfTerms(s, p, o);
  }

  /** A line is one newline-free body followed by its "\n". */
  lemma LineEnds(st: Statement)
    requires WellFormedStatement(st) && Printable(st)
    ensures Line(st) == Line(st)[..|Line(st)| - 1] + "\n"
    ensures '\n' !in Line(st)[..|Line(st)| - 1]
  {
    TextChars(st);
    var body := SubjectText(st.subject) + " " + PredicateText(st.pred) + " " + ObjectText(st.obj) + " .";
    assert Line(st) == body + "\n";
    assert Line(st)[..|Line(st)| - 1] == body;
  }

  /** The document splits into exactly the serializer's lines, one per
      statement, in store order. */
  lemma {:induction false} DocumentLines(stmts: seq<Statement>)
    requires ResourceLists.AllWellFormed(stmts)
    requires forall st :: st in stmts ==> Printable(st)
    ensures |Lines(Document(stmts))| == |stmts|
    ensures forall i :: 0 <= i < |stmts| ==> Lines(Document(stmts))[i] == Line(stmts[i])
    decreases |stmts|
  {
    if stmts != [] {
      assert stmts[0] in stmts;
      assert forall x :: x in stmts[1..] ==> x in stmts;
      var rest := stmts[1..];
      DocumentCons(stmts);
      DocumentLines(rest);
      ShiftLines(stmts, Lines(Document(stmts)), Lines(Document(rest)));
    }
  }

  lemma ShiftLines(stmts: seq<Statement>, all: seq<string>, later: seq<string>)
    requires stmts != [] && ResourceLists.AllWellFormed(stmts)
    requires all == [Line(stmts[0])] + later && |later| == |stmts| - 1
    requires forall i :: 0 <= i < |stmts| - 1 ==> later[i] == Line(stmts[1..][i])
    ensures |all| == |stmts|
    ensures forall i :: 0 <= i < |stmts| ==> all[i] == Line(stmts[i])
  {
    assert stmts[0] in stmts;
    forall i | 0 < i < |stmts|
      ensures all[i] == Line(stmts[i])
    {
      assert stmts[1..][i - 1] == stmts[i];
    }
  }

  /** The first line of a document is the first statement's line. */
  lemma DocumentCons(stmts: seq<Statement>)
    requires stmts != [] && ResourceLists.AllWellFormed(stmts) && Printable(stmts[0])
    ensures Lines(Document(stmts)) == [Line(stmts[0])] + Lines(Document(stmts[1..]))
  {
    var l := Line(stmts[0]);
    assert stmts[0] in stmts;
    LineEnds(stmts[0]);
    LinesCons(l[..|l| - 1], Document(stmts[1..]));
    assert Document(stmts) == l[..|l| - 1] + "\n" + Document(stmts[1..]);
  }

  lemma PrependRead(pre: seq<Statement>, stmts: seq<Statement>)
    requires stmts != []
    ensures pre + [ReadBack(stmts[0])] + ReadBackAll(stmts[1..]) == pre + ReadBackAll(stmts)
  {
    assert ReadBackAll(stmts) == [ReadBack(stmts[0])] + ReadBackAll(stmts[1..]);
  }

  /** One line that is not skipped and parses is added, then the rest is
      loaded. */
  lemma LoadStep(pre: seq<Statement>, l: string, rest: seq<string>, st: Statement, commentsOnly: bool)
    requires !Skipped(l, commentsOnly) && ParseStatement(l) == Ok(st)
    ensures LoadSpec(pre, [l] + rest, commentsOnly) == LoadSpec(pre + [st], rest, commentsOnly)
  {
    assert ([l] + rest)[0] == l && ([l] + rest)[1..] == rest;
  }

  /** A line the serializer writes starts with '<' or "_:", so it is never
      a comment line. */
  lemma LineNotComment(st: Statement)
    requires WellFormedStatement(st)
    ensures !Skipped(Line(st), true)
  {
    assert Line(st)[0] == SubjectText(st.subject)[0];
  }

  /** Loading the lines of a document adds back every statement, read back,
      in order: as many as were written. As written (`commentsOnly` false)
      this needs every line to be free of '#'. */
  lemma {:induction false} LoadRoundTrip(pre: seq<Statement>, stmts: seq<Statement>, commentsOnly: bool)
    requires ResourceLists.AllWellFormed(stmts)
    requires forall st :: st in stmts ==> Printable(st) && !Skipped(Line(st), commentsOnly)
    ensures LoadSpec(pre, Lines(Document(stmts)), commentsOnly) == (pre + ReadBackAll(stmts), Ok(()))
    decreases |stmts|
  {
    if stmts == [] {
      assert pre + [] == pre;
    } else {
      var st := stmts[0];
      assert st in stmts;
      DocumentCons(stmts);
      ParseLine(st);
      LoadStep(pre, Line(st), Lines(Document(stmts[1..])), ReadBack(st), commentsOnly);
      assert forall x :: x in stmts[1..] ==> x in stmts;
      LoadRoundTrip(pre + [ReadBack(st)], stmts[1..], commentsOnly);
      PrependRead(pre, stmts);
    }
  }

  /** With only comment lines skipped, every printable document loads back
      whole, whatever '#' its URIs and literals hold. */
  lemma CommentsOnlyRoundTrip(pre: seq<Statement>, stmts: seq<Statement>)
    requires ResourceLists.AllWellFormed(stmts)
    requires forall st :: st in stmts ==> Printable(st)
    ensures LoadSpec(pre, Lines(Document(stmts)), true) == (pre + ReadBackAll(stmts), Ok(()))
  {
    forall st | st in stmts
      ensures !Skipped(Line(st), true)
    {
      assert WellFormedStatement(st);
      LineNotComment(st);
    }
    LoadRoundTrip(pre, stmts, true);
  }

  /** As written, the line of a statement whose URI has a fragment is
      skipped: the one-statement document loads back as nothing. */
  lemma HashLineDropped(pre: seq<Statement>, st: Statement)
    requires WellFormedStatement(st) && Printable(st) && '#' in Line(st)
    ensures LoadSpec(pre, Lines(Document([st])), false) == (pre, Ok(()))
    ensures ReadBackAll([st]) != []
  {
    DocumentCons([st]);
    assert [st][1..] == [];
    SkippedLines(Line(st));
    assert Lines(Document([st])) == [Line(st)];
  }

  /** Such a statement: subject, predicate and object are the usual
      fragment URIs of an RDF vocabulary. */
  const ExampleNs := "http://example.org/ns#"
  const HashSubject := ExampleNs + "me"
  const HashPredicate := ExampleNs + "knows"
  const HashObject := ExampleNs + "you"

  lemma HashStatementExample()
    ensures var st := Statement(Resource(HashSubject), Resource(HashPredicate), Resource(HashObject));
      && WellFormedStatement(st) && Printable(st) && '#' in Line(st)
  {
    var st := Statement(Resource(HashSubject), Resource(HashPredicate), Resource(HashObject));
    NameLetters("me");
    NameLetters("knows");
    NameLetters("you");
    HashPrintable("me", "knows", "you");
    assert HashSubject[21] == '#';
    SubjectHash(st);
  }

  /** Three lower-case names under the example namespace make a printable
      statement. */
  lemma HashPrintable(a: string, b: string, c: string)
    requires LowerName(a) && LowerName(b) && LowerName(c)
    ensures var st := Statement(Resource(ExampleNs + a), Resource(ExampleNs + b), Resource(ExampleNs + c));
      WellFormedStatement(st) && Printable(st)
  {
    HashUri(a);
    HashUri(b);
    HashUri(c);
  }

  predicate LowerName(name: string) {
    Check.IsName(name) && forall c :: c in name ==> 'a' <= c <= 'z'
  }

  lemma NameLetters(name: string)
    requires name in {"me", "knows", "you"}
    ensures LowerName(name)
  {
  }

  /** A subject URI with '#' at index 21 puts '#' into the line. */
  lemma SubjectHash(st: Statement)
    requires WellFormedStatement(st) && st.subject.Resource?
    requires |st.subject.uri| > 21 && st.subject.uri[21] == '#'
    ensures '#' in Line(st)
  {
    LinePrefix(st);
    assert Line(st)[22] == SubjectText(st.subject)[22] == st.subject.uri[21];
  }

  lemma HashUri(name: string)
    requires LowerName(name)
    ensures PrintableResource(Resource(ExampleNs + name)) && '"' !in ExampleNs + name
  {
    ExampleNsChars();
    assert forall c :: c in ExampleNs + name ==> c in ExampleNs || c in name;
    UriPrintable(ExampleNs, name);
  }

  lemma ExampleNsChars()
    ensures Check.IsNamespace(ExampleNs)
    ensures ' ' !in ExampleNs && '\n' !in ExampleNs && '"' !in ExampleNs && '_' !in ExampleNs
  {
    assert Check.IsNamespace(ExampleNs);
  }

  lemma LinePrefix(st: Statement)
    requires WellFormedStatement(st)
    ensures SubjectText(st.subject) <= Line(st)
  {
  }

  /** A namespace and a name made of letters form a printable URI. */
  lemma UriPrintable(ns: string, name: string)
    requires Check.IsNamespace(ns) && Check.IsName(name)
    requires ' ' !in ns + name && '\n' !in ns + name && '"' !in ns + name && '_' !in ns + name
    ensures PrintableResource(Resource(ns + name)) && '"' !in ns + name
  {
    Utils.JoinUri(ns, name);
    AbsentByFirstChar(ns + name, "_:");
  }
}
