/** `model/Statement.php`: a subject-predicate-object triple whose
    constructor checks the role of each of its parts. */
module Statements {
  import opened Wrappers
  import opened Terms
  import opened Check
  import Resources
  import LiteralNodes

  /** `new Statement($subject, $predicate, $object)`: the checks run in the
      order subject, predicate, object. The statement keeps the three nodes
      only: a property map carried by a decorated subject or object is not
      part of the statement. */
  function NewStatement(subject: Value, pred: Value, obj: Value): (r: Result<Statement>)
    ensures r.Ok? <==> IsSubject(subject) && IsPredicate(pred) && IsObject(obj)
    ensures !IsSubject(subject) ==> r == Err("ERP_ERROR_SUBJECT")
    ensures IsSubject(subject) && !IsPredicate(pred) ==> r == Err("ERP_ERROR_PREDICATE")
    ensures IsSubject(subject) && IsPredicate(pred) && !IsObject(obj) ==> r == Err("ERP_ERROR_OBJECT")
    ensures r.Ok? ==> WellFormedStatement(r.value)
    ensures r.Ok? ==>
              && GetSubject(r.value) == subject.term.node
              && GetPredicate(r.value) == pred.term.node
              && GetObject(r.value) == obj.term.node
  {
    if !IsSubject(subject) then Err("ERP_ERROR_SUBJECT")
    else if !IsPredicate(pred) then Err("ERP_ERROR_PREDICATE")
    else if !IsObject(obj) then Err("ERP_ERROR_OBJECT")
    else Ok(Statement(subject.term.node, pred.term.node, obj.term.node))
  }

  /** The roles every constructed statement satisfies. */
  predicate WellFormedStatement(s: Statement) {
    !s.subject.LiteralNode? && s.pred.Resource?
  }

  function GetSubject(s: Statement): Node { s.subject }
  function GetPredicate(s: Statement): Node { s.pred }
  function GetObject(s: Statement): Node { s.obj }

  /** The `equals` a term inherits from its class. */
  function TermEquals(a: Term, that: Value): bool {
    if a.node.LiteralNode? then LiteralNodes.Equals(a.node, that) else Resources.Equals(a, that)
  }

  /** Equality of two plain terms, as used on the parts of statements. */
  function NodeEquals(a: Node, b: Node): bool {
    TermEquals(Plain(a), Obj(Plain(b)))
  }

  /** `equals($that)`: false for a non-statement, otherwise the parts must be
      pairwise equal. */
  function Equals(s: Statement, that: Value): bool {
    if !IsStatement(that) then false
    else
      && NodeEquals(s.subject, that.statement.subject)
      && NodeEquals(s.pred, that.statement.pred)
      && NodeEquals(s.obj, that.statement.obj)
  }

  /** Term equality: same URI for resources and blank nodes, same literal and
      datatype for literals (a null datatype counting as ""), never across
      the two kinds. */
  lemma NodeEqualsIff(a: Node, b: Node)
    ensures NodeEquals(a, b) <==>
      (!a.LiteralNode? && !b.LiteralNode? && UriOf(a) == UriOf(b))
      || (a.LiteralNode? && b.LiteralNode? && a.literal == b.literal
          && (a.dtype == b.dtype || (a.dtype in {None, Some("")} && b.dtype in {None, Some("")})))
  {
    if a.LiteralNode? { LiteralNodes.EqualsIff(a, Obj(Plain(b))); }
  }

  /** Term equality is an equivalence relation. */
  lemma NodeEqualsEquivalence(a: Node, b: Node, c: Node)
    ensures NodeEquals(a, a)
    ensures NodeEquals(a, b) ==> NodeEquals(b, a)
    ensures NodeEquals(a, b) && NodeEquals(b, c) ==> NodeEquals(a, c)
  {
    NodeEqualsIff(a, a); NodeEqualsIff(a, b); NodeEqualsIff(b, a);
    NodeEqualsIff(b, c); NodeEqualsIff(a, c);
  }

  /** Statements are equal iff their parts are pairwise equal; statement
      equality is then an equivalence relation too. */
  lemma EqualsIff(s: Statement, t: Statement)
    ensures Equals(s, Stmt(t)) <==>
      NodeEquals(s.subject, t.subject) && NodeEquals(s.pred, t.pred) && NodeEquals(s.obj, t.obj)
    ensures Equals(s, Stmt(s))
    ensures Equals(s, Stmt(t)) ==> Equals(t, Stmt(s))
  {
    NodeEqualsEquivalence(s.subject, t.subject, s.subject);
    NodeEqualsEquivalence(s.pred, t.pred, s.pred);
    NodeEqualsEquivalence(s.obj, t.obj, s.obj);
  }

  lemma EqualsTransitive(s: Statement, t: Statement, u: Statement)
    requires Equals(s, Stmt(t)) && Equals(t, Stmt(u))
    ensures Equals(s, Stmt(u))
  {
    NodeEqualsEquivalence(s.subject, t.subject, u.subject);
    NodeEqualsEquivalence(s.pred, t.pred, u.pred);
    NodeEqualsEquivalence(s.obj, t.obj, u.obj);
  }

  /** A value that is not a statement is never equal to one. */
  lemma NotAStatement(s: Statement, that: Value)
    requires !that.Stmt?
    ensures !Equals(s, that)
  {
  }

  /** Two statements that differ only in a literal object are not equal. */
  lemma DifferentObjects(subject: Node, pred: Node, a: string, b: string)
    requires a != b
    ensures !Equals(Statement(subject, pred, LiteralNodes.NewLiteralNode(a)),
                    Stmt(Statement(subject, pred, LiteralNodes.NewLiteralNode(b))))
  {
    NodeEqualsIff(LiteralNodes.NewLiteralNode(a), LiteralNodes.NewLiteralNode(b));
  }

  /** Building a statement leaves the subject's property map as it was: the
      subject term passed in is not changed, and nothing of the predicate or
      object is stored in it. */
  lemma ConstructionKeepsSubject(subject: Term, pred: Value, obj: Value)
    requires IsPredicate(pred) && IsObject(obj) && !subject.node.LiteralNode?
    ensures NewStatement(Obj(subject), pred, obj).Ok?
    ensures NewStatement(Obj(subject), pred, obj).value.subject == subject.node
  {
  }

  /** A subject that is not a literal, a plain URI resource as predicate and
      any object make a statement of exactly those nodes. */
  lemma NewStatementOfTerms(s: Term, p: Term, o: Term)
    requires !s.node.LiteralNode? && p.node.Resource? && p.props == []
    ensures NewStatement(Obj(s), Obj(p), Obj(o)) == Ok(Statement(s.node, p.node, o.node))
  {
  }
}
