/** `model/BlankNode.php`. A blank node is identified by its id alone: its
    URI and its name are the id. */
module BlankNodes {
  import opened Terms
  import Check
  import Resources

  /** `new BlankNode($id)` */
  function NewBlankNode(id: string): (b: Term)
    ensures b.node.BlankNode? && b.props == []
  {
    Plain(BlankNode(id))
  }

  /** `getId()` */
  function GetId(b: Term): string
    requires b.node.BlankNode?
  {
    b.node.id
  }

  /** `getId`, `getName` and `getUri` all give the id passed in, and the
      node passes `isBlankNode`. */
  lemma IdNameUri(id: string)
    ensures GetId(NewBlankNode(id)) == id
    ensures Resources.NameOf(NewBlankNode(id).node) == id
    ensures Resources.GetUri(NewBlankNode(id)) == id
    ensures Check.IsBlankNode(Obj(NewBlankNode(id)))
  {
  }

  /** Two blank nodes are equal exactly when their ids are. */
  lemma EqualById(a: string, b: string)
    ensures Resources.Equals(NewBlankNode(a), Obj(NewBlankNode(b))) <==> a == b
  {
  }
}
