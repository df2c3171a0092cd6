/** `util/Utils.php`: splitting a URI into its namespace and its name at the
    last '#', ':' or '/'. */
module Utils {
  import opened Wrappers
  import opened Check

  predicate IsSeparator(c: char) {
    c == '#' || c == ':' || c == '/'
  }

  /** One past the index of the last separator of `u`, or 0 when it has none. */
  function NamespaceEnd(u: string): (l: nat)
    ensures l <= |u|
    ensures 0 < l ==> IsSeparator(u[l - 1])
    ensures forall i :: l <= i < |u| ==> !IsSeparator(u[i])
    decreases |u|
  {
    if u == [] then 0
    else if IsSeparator(u[|u| - 1]) then |u|
    else NamespaceEnd(u[..|u| - 1])
  }

  /** `getNamespaceEnd`: the do-while loop scanning backwards from the last
      character for a separator. Throws on a non-URI. */
  method GetNamespaceEnd(uri: string) returns (r: Result<nat>)
    ensures !IsUri(uri) ==> r.Err?
    ensures IsUri(uri) ==> r == Ok(NamespaceEnd(uri))
  {
    if !IsUri(uri) {
      return Err("API_ERROR_URI");
    }
    var l: int := |uri| - 1;
    while true
      invariant -1 <= l < |uri|
      invariant forall i :: l < i < |uri| ==> !IsSeparator(uri[i])
      decreases l + 1
    {
      if IsSeparator(uri[l]) {
        break;
      }
      l := l - 1;
      if l < 0 {
        break;
      }
    }
    LastSeparatorIsEnd(uri, l + 1);
    return Ok(l + 1);
  }

  /** A position right after a separator with no separator after it is the
      namespace end. */
  lemma {:induction false} LastSeparatorIsEnd(u: string, l: nat)
    requires l <= |u|
    requires 0 < l ==> IsSeparator(u[l - 1])
    requires forall i :: l <= i < |u| ==> !IsSeparator(u[i])
    ensures NamespaceEnd(u) == l
    decreases |u|
  {
    if u != [] && l < |u| {
      var t := u[..|u| - 1];
      forall i | l <= i < |t| ensures !IsSeparator(t[i]) {
        assert t[i] == u[i];
      }
      LastSeparatorIsEnd(t, l);
    }
  }

  /** `getName`: the part of the URI after its namespace end. */
  function GetName(uri: string): (r: Result<string>)
    ensures r.Ok? <==> IsUri(uri)
    ensures r.Ok? ==> |r.value| <= |uri| && r.value == uri[|uri| - |r.value|..]
    ensures r.Ok? ==> forall i :: 0 <= i < |r.value| ==> !IsSeparator(r.value[i])
  {
    if !IsUri(uri) then Err("API_ERROR_URI")
    else Ok(uri[NamespaceEnd(uri)..])
  }

  /** `getNamespace`: the part of the URI up to its namespace end, or ""
      when that end is at most 1. */
  function GetNamespace(uri: string): (r: Result<string>)
    ensures r.Ok? <==> IsUri(uri)
    ensures r.Ok? ==> r.value <= uri
  {
    if !IsUri(uri) then Err("API_ERROR_URI")
    else
      var l := NamespaceEnd(uri);
      if l > 1 then Ok(uri[..l]) else Ok("")
  }

  /** On a URI the namespace end is where its alphanumeric name starts. */
  lemma UriNamespaceEnd(u: string)
    requires IsUri(u)
    ensures NamespaceEnd(u) == NameStart(u) >= 9
  {
    var k := NameStart(u);
    forall i | k <= i < |u| ensures !IsSeparator(u[i]) {
      assert u[k..][i - k] == u[i];
    }
    LastSeparatorIsEnd(u, k);
  }

  /** Every URI splits into a namespace and a name that concatenate back to it. */
  lemma SplitUri(u: string)
    requires IsUri(u)
    ensures GetNamespace(u).Ok? && GetName(u).Ok?
    ensures IsNamespace(GetNamespace(u).value) && IsName(GetName(u).value)
    ensures GetNamespace(u).value + GetName(u).value == u
  {
    UriNamespaceEnd(u);
    var l := NamespaceEnd(u);
    assert u[..l][..7] == u[..7];
    assert u[..l] + u[l..] == u;
  }

  /** A namespace followed by a name is a URI, and splitting it gives both
      parts back. */
  lemma JoinUri(ns: string, n: string)
    requires IsNamespace(ns) && IsName(n)
    ensures IsUri(ns + n)
    ensures GetNamespace(ns + n) == Ok(ns)
    ensures GetName(ns + n) == Ok(n)
  {
    var u := ns + n;
    assert u[..7] == ns[..7];
    assert u[|ns|..] == n;
    assert u[|ns| - 1] == ns[|ns| - 1];
    NameStartAt(u, |ns|);
    UriNamespaceEnd(u);
    assert u[..|ns|] == ns;
  }

  /** The examples of the library's tests: for `NS + "test"` the name is
      "test", the namespace is `NS` and the end is |NS|; a bare "test" is
      rejected by all three (the code throws on it). */
  lemma UtilsExamples()
    ensures GetName(ExampleNs + "test") == Ok("test")
    ensures GetNamespace(ExampleNs + "test") == Ok(ExampleNs)
    ensures NamespaceEnd(ExampleNs + "test") == |ExampleNs|
    ensures GetName("test").Err? && GetNamespace("test").Err?
  {
    CheckExamples();
    assert IsNamespace(ExampleNs) && IsName("test");
    JoinUri(ExampleNs, "test");
    UriNamespaceEnd(ExampleNs + "test");
    NameStartAt(ExampleNs + "test", |ExampleNs|);
  }
}
