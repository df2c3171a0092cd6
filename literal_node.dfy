/** `model/LiteralNode.php`: a literal value with a datatype (default
    "string") and an optional language. Equality compares the literal and
    the datatype (a null datatype counting as "") and ignores the language. */
module LiteralNodes {
  import opened Wrappers
  import opened Terms
  import opened Check
  import Nodes

  /** `STRING` */
  const StringType := "string"

  /** `new LiteralNode($literal, $datatype = STRING)`; passing `None`
      explicitly gives a null datatype, as in PHP. The `language` parameter
      is this model's own addition: the PHP constructor takes no third
      argument and drops the language the parsers pass. */
  function NewLiteralNode(literal: string, dtype: Option<string> := Some(StringType), language: Option<string> := None): (l: Node)
    ensures l.LiteralNode?
  {
    LiteralNode(literal, dtype, language)
  }

  function GetLiteral(l: Node): string
    requires l.LiteralNode?
  {
    l.literal
  }

  function GetDatatype(l: Node): Option<string>
    requires l.LiteralNode?
  {
    l.dtype
  }

  function GetLanguage(l: Node): Option<string>
    requires l.LiteralNode?
  {
    l.language
  }

  /** `hasDatatype()`, which `model/LiteralNode.php` does not define: read
      as "set and not the empty string". */
  predicate HasDatatype(l: Node)
    requires l.LiteralNode?
  {
    l.dtype.Some? && l.dtype.value != ""
  }

  /** `hasLanguage()`, which `model/LiteralNode.php` does not define: read
      as "set and not the empty string". */
  predicate HasLanguage(l: Node)
    requires l.LiteralNode?
  {
    l.language.Some? && l.language.value != ""
  }

  /** The datatype as PHP's loose `==` sees it: a null datatype compares
      equal to "" (and to nothing else a datatype can be), so both read as "". */
  function DatatypeText(l: Node): string
    requires l.LiteralNode?
  {
    if l.dtype.Some? then l.dtype.value else ""
  }

  /** `equals($that)`: base equality, else false for null or a non-literal,
      else literal and datatype must both match under `==`. */
  function Equals(l: Node, that: Value): bool
    requires l.LiteralNode?
  {
    if Nodes.BaseEquals(Plain(l), that) then true
    else if that.Null? || !IsLiteralNode(that) then false
    else GetLiteral(l) == GetLiteral(that.term.node) && DatatypeText(l) == DatatypeText(that.term.node)
  }

  /** The datatype defaults to "string"; the getters give back the
      constructor's arguments. */
  lemma Construction(literal: string, dt: Option<string>, lang: Option<string>)
    ensures GetDatatype(NewLiteralNode(literal)) == Some("string")
    ensures GetLanguage(NewLiteralNode(literal)) == None
    ensures GetLiteral(NewLiteralNode(literal, dt, lang)) == literal
    ensures GetDatatype(NewLiteralNode(literal, dt, lang)) == dt
    ensures GetLanguage(NewLiteralNode(literal, dt, lang)) == lang
  {
  }

  /** Literals are equal exactly when literal and datatype are, a null
      datatype counting as ""; a value that is not a literal is never equal,
      even with the same text. */
  lemma EqualsIff(l: Node, that: Value)
    requires l.LiteralNode?
    ensures Equals(l, that) <==>
      && IsLiteralNode(that) && that.term.node.literal == l.literal
      && (that.term.node.dtype == l.dtype || (that.term.node.dtype in {None, Some("")} && l.dtype in {None, Some("")}))
    ensures Equals(l, Obj(Plain(l)))
  {
  }

  /** A literal without datatype equals the same literal with the empty
      datatype, and differs from it under any other datatype. */
  lemma NullDatatypeIsEmpty(literal: string, d: string, a: Option<string>, b: Option<string>)
    ensures Equals(LiteralNode(literal, None, a), Obj(Plain(LiteralNode(literal, Some(""), b))))
    ensures Equals(LiteralNode(literal, Some(""), a), Obj(Plain(LiteralNode(literal, None, b))))
    ensures d != "" ==> !Equals(LiteralNode(literal, None, a), Obj(Plain(LiteralNode(literal, Some(d), b))))
  {
  }

  /** Equality ignores the language: the library's own test expects "de" and
      "en" literals to differ, which the code does not do. */
  lemma LanguageIgnored(literal: string, dt: Option<string>, a: string, b: string)
    ensures Equals(NewLiteralNode(literal, dt, Some(a)), Obj(Plain(NewLiteralNode(literal, dt, Some(b)))))
  {
  }
}
