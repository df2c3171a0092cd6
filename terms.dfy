/** The data model shared by every part of the store: RDF terms, the
    decorated view of a resource with its property map, statements, and
    the untyped values PHP callers may pass. */
module Terms {
  import opened Wrappers
  import opened OrderedMaps

  /** A plain RDF term, without properties.
      - `Resource(uri)`: an IRI resource; its name is derived from the URI.
      - `BlankNode(id)`: a blank node; its URI and its name are the id.
      - `LiteralNode(literal, dtype, language)`: `dtype` is the datatype;
      `None` is PHP `null`. */
  datatype Node =
    | Resource(uri: string)
    | BlankNode(id: string)
    | LiteralNode(literal: string, dtype: Option<string>, language: Option<string>)

  /** `getUri()` of a resource or a blank node. */
  function UriOf(n: Node): string
    requires !n.LiteralNode?
  {
    if n.Resource? then n.uri else n.id
  }

  /** A term together with the property map a `Resource` object carries:
      an ordered map from predicate URI to object. Literals never carry
      properties. */
  datatype Term = Term(node: Node, props: seq<Entry<string, Term>>)

  /** A statement holds plain terms; the predicate is always a `Resource`
      when it is built by `Statements.NewStatement`. */
  datatype Statement = Statement(subject: Node, pred: Node, obj: Node)

  /** The untyped values a PHP caller may pass where a term or a statement
      is expected. */
  datatype Value = Null | Str(s: string) | Obj(term: Term) | Stmt(statement: Statement)

  /** PHP's `empty()`: `null`, `""` and `"0"` are empty; objects never are. */
  predicate Empty(v: Value) {
    v.Null? || (v.Str? && (v.s == "" || v.s == "0"))
  }

  /** A term without properties. */
  function Plain(n: Node): Term {
    Term(n, [])
  }

  /** The shape every `Resource` object has: literals carry no properties and
      each property map has distinct keys, all the way down. */
  predicate WellFormed(t: Term)
    decreases t
  {
    (t.node.LiteralNode? ==> t.props == [])
    && DistinctKeys(t.props)
    && forall i :: 0 <= i < |t.props| ==> WellFormed(t.props[i].value)
  }
}
