/** `model/Node.php`: the base equality every term inherits. */
module Nodes {
  import opened Terms

  /** `Node::equals`: true only when `that` is a term object equal to this one
      field by field (PHP's `==` on objects, with exact string comparison);
      `null`, a value of another class, or any other difference gives false. */
  function BaseEquals(self: Term, that: Value): bool {
    if that.Obj? && that.term == self then true
    else if that.Null? || !that.Obj? || !SameClass(that.term.node, self.node) then false
    else false
  }

  /** `is_a($that, get_class($this))` for the three term classes. */
  predicate SameClass(a: Node, b: Node) {
    (a.Resource? && b.Resource?) || (a.BlankNode? && b.BlankNode?) || (a.LiteralNode? && b.LiteralNode?)
  }

  /** Base equality is exactly identity of values: reflexive, false on null
      and across classes, and false for any two values that differ. */
  lemma BaseEqualsIsIdentity(self: Term, that: Value)
    ensures BaseEquals(self, that) <==> that == Obj(self)
    ensures BaseEquals(self, Obj(self))
    ensures !BaseEquals(self, Null)
    ensures that.Obj? && !SameClass(that.term.node, self.node) ==> !BaseEquals(self, that)
  {
  }
}
