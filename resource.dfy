/** `model/Resource.php`: building a resource from a URI or from a namespace
    and a name, its property map, and URI-based equality.

    A `Resource` object is modelled by its value (`Terms.Term`): the
    operations that change the property map in place return the updated
    term instead. */
module Resources {
  import opened Wrappers
  import opened Terms
  import opened OrderedMaps
  import opened Check
  import Utils
  import Nodes

  /** `new Resource($namespace_or_uri, $name)`. A URI is kept as it is; a
      namespace needs a valid name and the URI is their concatenation.
      Anything else throws. */
  function NewResource(namespaceOrUri: string, name: Option<string> := None): (r: Result<Term>)
    ensures r.Ok? <==> IsUri(namespaceOrUri) || (IsNamespace(namespaceOrUri) && name.Some? && IsName(name.value))
    ensures r.Ok? ==> r.value.node.Resource? && r.value.props == [] && IsUri(r.value.node.uri)
    ensures r.Ok? && IsNamespace(namespaceOrUri) ==>
      r.value.node.uri == namespaceOrUri + name.value && NameOf(r.value.node) == name.value
    ensures r.Ok? && !IsNamespace(namespaceOrUri) ==>
      r.value.node.uri == namespaceOrUri && Utils.GetName(namespaceOrUri) == Ok(NameOf(r.value.node))
  {
    if !IsUri(namespaceOrUri) && !IsNamespace(namespaceOrUri) then Err("API_ERROR_URI")
    else if IsNamespace(namespaceOrUri) && !(name.Some? && IsName(name.value)) then Err("API_ERROR_NAME")
    else if IsNamespace(namespaceOrUri) then
      Utils.JoinUri(namespaceOrUri, name.value);
      Ok(Plain(Resource(namespaceOrUri + name.value)))
    else Ok(Plain(Resource(namespaceOrUri)))
  }

  /** `getName()`: for a resource, the name `Utils::getName` gives for its
      URI (which is also the name its constructor was given); for a blank
      node, its id. */
  function NameOf(n: Node): string
    requires !n.LiteralNode?
  {
    if n.BlankNode? then n.id
    else match Utils.GetName(n.uri)
      case Ok(v) => v
      case Err(_) => ""
  }

  /** `getUri()` */
  function GetUri(r: Term): string
    requires !r.node.LiteralNode?
  {
    UriOf(r.node)
  }

  /** `getNamespace()`: `Utils::getNamespace` of the URI. */
  function GetNamespace(r: Term): (ns: Result<string>)
    requires !r.node.LiteralNode?
    ensures ns.Ok? <==> IsUri(UriOf(r.node))
    ensures ns.Ok? && r.node.Resource? ==> IsNamespace(ns.value) && ns.value + NameOf(r.node) == r.node.uri
  {
    if IsUri(UriOf(r.node)) then Utils.SplitUri(UriOf(r.node)); Utils.GetNamespace(UriOf(r.node))
    else Utils.GetNamespace(UriOf(r.node))
  }

  /** `addProperty($predicate, $object)`: validates both arguments and
      stores the object under the predicate URI. The PHP method returns the
      same object; here the updated resource is returned. */
  function AddProperty(r: Term, pred: Value, obj: Value): (res: Result<Term>)
    requires !r.node.LiteralNode?
    ensures res.Ok? <==> IsPredicate(pred) && IsObject(obj)
    ensures !IsPredicate(pred) ==> res == Err("ERP_ERROR_PREDICATE")
    ensures IsPredicate(pred) && !IsObject(obj) ==> res == Err("ERP_ERROR_OBJECT")
    ensures res.Ok? ==> res.value.node == r.node
  {
    if !IsPredicate(pred) then Err("ERP_ERROR_PREDICATE")
    else if !IsObject(obj) then Err("ERP_ERROR_OBJECT")
    else Ok(Term(r.node, Put(r.props, pred.term.node.uri, obj.term)))
  }

  /** `hasProperty($predicate)` */
  function HasProperty(r: Term, pred: Value): (res: Result<bool>)
    requires !r.node.LiteralNode?
    ensures res.Ok? <==> IsPredicate(pred)
    ensures res.Ok? ==> (res.value <==> pred.term.node.uri in Keys(r.props))
  {
    if !IsPredicate(pred) then Err("ERP_ERROR_PREDICATE")
    else Ok(Lookup(r.props, pred.term.node.uri).Some?)
  }

  /** `hasProperties()`: the map is not empty. */
  function HasProperties(r: Term): bool {
    r.props != []
  }

  /** `getProperty($predicate)`: the stored object, or null when absent. */
  function GetProperty(r: Term, pred: Value): (res: Result<Option<Term>>)
    requires !r.node.LiteralNode?
    ensures res.Ok? <==> IsPredicate(pred)
    ensures res.Ok? ==> (res.value.None? <==> pred.term.node.uri !in Keys(r.props))
  {
    if !IsPredicate(pred) then Err("ERP_ERROR_PREDICATE")
    else if !HasProperty(r, pred).value then Ok(None)
    else Ok(Lookup(r.props, pred.term.node.uri))
  }

  /** `removeProperty($predicate)`: unsets the key and returns `!isset`,
      which is always true; the updated resource is returned beside it. */
  function RemoveProperty(r: Term, pred: Value): (res: Result<(Term, bool)>)
    requires !r.node.LiteralNode?
    ensures res.Ok? <==> IsPredicate(pred)
    ensures res.Ok? ==> res.value.1 && res.value.0.node == r.node
  {
    if !IsPredicate(pred) then Err("ERP_ERROR_PREDICATE")
    else
      var ps := Unset(r.props, pred.term.node.uri);
      Ok((Term(r.node, ps), Lookup(ps, pred.term.node.uri).None?))
  }

  /** `removeAllProperties()` */
  function RemoveAllProperties(r: Term): (s: Term)
    ensures s.node == r.node && !HasProperties(s)
  {
    Term(r.node, [])
  }

  /** `equals($that)`: base equality, or `that` is a resource (or blank
      node) with the same URI. */
  function Equals(r: Term, that: Value): bool
    requires !r.node.LiteralNode?
  {
    Nodes.BaseEquals(r, that) || (IsResource(that) && UriOf(r.node) == UriOf(that.term.node))
  }

  // ---------------------------------------------------------------------
  // Properties of the property map

  /** After `addProperty(p, o)`, `hasProperty(p)` holds and `getProperty(p)`
      is `o`; every other predicate keeps its object; the map stays a map. */
  lemma AddThenGet(r: Term, p: Value, o: Value, q: Value)
    requires !r.node.LiteralNode? && IsPredicate(p) && IsObject(o) && IsPredicate(q)
    requires DistinctKeys(r.props)
    ensures HasProperty(AddProperty(r, p, o).value, p) == Ok(true)
    ensures GetProperty(AddProperty(r, p, o).value, p) == Ok(Some(o.term))
    ensures q.term.node.uri != p.term.node.uri ==>
      GetProperty(AddProperty(r, p, o).value, q) == GetProperty(r, q)
    ensures DistinctKeys(AddProperty(r, p, o).value.props)
  {
    LookupPut(r.props, p.term.node.uri, o.term, q.term.node.uri);
    PutKeepsDistinct(r.props, p.term.node.uri, o.term);
  }

  /** For an absent predicate `getProperty` gives null. */
  lemma GetAbsent(r: Term, p: Value)
    requires !r.node.LiteralNode? && IsPredicate(p) && p.term.node.uri !in Keys(r.props)
    ensures GetProperty(r, p) == Ok(None)
  {
  }

  /** `removeProperty(p)` deletes only the key of `p` and returns true. */
  lemma RemoveOnlyThatKey(r: Term, p: Value, q: Value)
    requires !r.node.LiteralNode? && IsPredicate(p) && IsPredicate(q)
    ensures RemoveProperty(r, p).Ok? && RemoveProperty(r, p).value.1
    ensures HasProperty(RemoveProperty(r, p).value.0, p) == Ok(false)
    ensures q.term.node.uri != p.term.node.uri ==>
      GetProperty(RemoveProperty(r, p).value.0, q) == GetProperty(r, q)
  {
    LookupUnset(r.props, p.term.node.uri, q.term.node.uri);
  }

  /** `equals` compares URIs only: properties and the resource/blank-node
      class play no part, and a literal is never equal. */
  lemma EqualsIsUriEquality(r: Term, that: Value)
    requires !r.node.LiteralNode?
    ensures Equals(r, that) <==> IsResource(that) && UriOf(r.node) == UriOf(that.term.node)
  {
  }

  /** A resource made from a namespace and a name, and one made from the
      full URI, are equal and have the same name and namespace. */
  lemma NamespaceAndUriForms(ns: string, name: string)
    requires IsNamespace(ns) && IsName(name)
    ensures NewResource(ns, Some(name)).Ok? && NewResource(ns + name).Ok?
    ensures NewResource(ns, Some(name)) == NewResource(ns + name)
    ensures NameOf(NewResource(ns + name).value.node) == name
    ensures GetNamespace(NewResource(ns + name).value) == Ok(ns)
  {
    Utils.JoinUri(ns, name);
    CheckNamespaceIsNotUri(ns + name);
  }

  /** A URI ends in an alphanumeric character, a namespace in '#' or '/'. */
  lemma CheckNamespaceIsNotUri(s: string)
    requires IsUri(s)
    ensures !IsNamespace(s)
  {
    var k := NameStart(s);
    assert s[k..][|s| - 1 - k] == s[|s| - 1];
  }

  /** The constructor rejects a value that is neither a URI nor a namespace,
      and a namespace without a valid name. */
  lemma ConstructorErrors(x: string, name: Option<string>)
    ensures !IsUri(x) && !IsNamespace(x) ==> NewResource(x, name) == Err("API_ERROR_URI")
    ensures IsNamespace(x) && (name.None? || !IsName(name.value)) ==> NewResource(x, name) == Err("API_ERROR_NAME")
  {
  }
}
