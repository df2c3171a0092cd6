/** The RDF/JSON serializer: statements grouped by subject, then by
    predicate, each group in ascending key order, with every object as a
    record `{"value": …, "type": …}`; strings pass through `jsonEscape`. */
module Json {
  import opened Wrappers
  import opened Terms
  import opened OrderedMaps
  import opened PhpStrings
  import LiteralNodes
  import Store

  // -------------------------------------------------------------------
  // jsonEscape

  const Backspace: char := 8 as char
  const FormFeed: char := 12 as char

  /** `str_replace($from, $to, $s)` for one search string: every
      occurrence, left to right, without overlaps. */
  function StrReplace(s: string, from: string, to: string): string
    requires from != []
    decreases |s|
  {
    match StrPos(s, from)
    case None => s
    case Some(i) => s[..i] + to + StrReplace(s[i + |from|..], from, to)
  }

  /** `jsonEscape($param)`: `str_replace` with arrays applies the pairs one
      after the other to the whole string, the backslash first. In PHP's
      double quotes "\b" is a backslash and a 'b', so that pair changes
      nothing; "\f" is the form feed. */
  function JsonEscape(s: string): string {
    var s1 := StrReplace(s, "\\", "\\\\");
    var s2 := StrReplace(s1, "\r", "\\r");
    var s3 := StrReplace(s2, "\t", "\\t");
    var s4 := StrReplace(s3, "\n", "\\n");
    var s5 := StrReplace(s4, "\"", "\\\"");
    var s6 := StrReplace(s5, "\\b", "\\b");
    var s7 := StrReplace(s6, [FormFeed], "\\f");
    StrReplace(s7, "/", "\\/")
  }

  /** The escape of one character, as a reference for the chain. */
  function EscapeChar(c: char): string {
    if c == '\\' then "\\\\"
    else if c == '\r' then "\\r"
    else if c == '\t' then "\\t"
    else if c == '\n' then "\\n"
    else if c == '"' then "\\\""
    else if c == FormFeed then "\\f"
    else if c == '/' then "\\/"
    else [c]
  }

  /** Every character replaced by its escape. */
  function Escape(s: string): string {
    if s == [] then [] else EscapeChar(s[0]) + Escape(s[1..])
  }

  /** Replacing one character by a string, everywhere. */
  function ReplaceChar(s: string, c: char, t: string): string {
    if s == [] then [] else (if s[0] == c then t else [s[0]]) + ReplaceChar(s[1..], c, t)
  }

  /** A one-character search string is replaced character by character. */
  lemma {:induction false} ReplaceSingle(s: string, c: char, t: string)
    ensures StrReplace(s, [c], t) == ReplaceChar(s, c, t)
    decreases |s|
  {
    if s != [] {
      ReplaceSingle(s[1..], c, t);
      if s[0] == c {
        assert s[..1] == [c];
        assert StrPos(s, [c]) == Some(0);
      } else {
        ReplaceCons(s, c, t);
      }
    }
  }

  lemma ReplaceCons(s: string, c: char, t: string)
    requires s != [] && s[0] != c
    ensures StrReplace(s, [c], t) == [s[0]] + StrReplace(s[1..], [c], t)
  {
    assert s[..1] != [c];
    match StrPos(s[1..], [c])
    case None =>
      assert s == [s[0]] + s[1..];
    case Some(r) =>
      assert StrPos(s, [c]) == Some(r + 1);
      assert s[..r + 1] == [s[0]] + s[1..][..r];
      assert s[r + 2..] == s[1..][r + 1..];
  }

  /** Replacing a string by itself changes nothing. */
  lemma {:induction false} ReplaceSame(s: string, d: string)
    requires d != []
    ensures StrReplace(s, d, d) == s
    decreases |s|
  {
    match StrPos(s, d)
    case None =>
    case Some(i) =>
      ReplaceSame(s[i + |d|..], d);
      assert s[i..i + |d|] == d;
      assert s == s[..i] + s[i..i + |d|] + s[i + |d|..];
  }

  lemma {:induction false} ReplaceCharAppend(a: string, b: string, c: char, t: string)
    ensures ReplaceChar(a + b, c, t) == ReplaceChar(a, c, t) + ReplaceChar(b, c, t)
    decreases |a|
  {
    if a == [] {
      assert a + b == b;
    } else {
      assert (a + b)[0] == a[0] && (a + b)[1..] == a[1..] + b;
      ReplaceCharAppend(a[1..], b, c, t);
      var h := if a[0] == c then t else [a[0]];
      assert ReplaceChar(a + b, c, t) == h + ReplaceChar(a[1..] + b, c, t);
      assert h + (ReplaceChar(a[1..], c, t) + ReplaceChar(b, c, t)) == (h + ReplaceChar(a[1..], c, t)) + ReplaceChar(b, c, t);
    }
  }

  /** The chain without its identity step, one character replacement at
      a time. */
  function CharSteps(s: string): string {
    var s1 := ReplaceChar(s, '\\', "\\\\");
    var s2 := ReplaceChar(s1, '\r', "\\r");
    var s3 := ReplaceChar(s2, '\t', "\\t");
    var s4 := ReplaceChar(s3, '\n', "\\n");
    var s5 := ReplaceChar(s4, '"', "\\\"");
    var s7 := ReplaceChar(s5, FormFeed, "\\f");
    ReplaceChar(s7, '/', "\\/")
  }

  lemma ChainIsCharSteps(s: string)
    ensures JsonEscape(s) == CharSteps(s)
  {
    var s1 := StrReplace(s, "\\", "\\\\");
    ReplaceSingle(s, '\\', "\\\\");
    var s2 := StrReplace(s1, "\r", "\\r");
    ReplaceSingle(s1, '\r', "\\r");
    var s3 := StrReplace(s2, "\t", "\\t");
    ReplaceSingle(s2, '\t', "\\t");
    var s4 := StrReplace(s3, "\n", "\\n");
    ReplaceSingle(s3, '\n', "\\n");
    var s5 := StrReplace(s4, "\"", "\\\"");
    ReplaceSingle(s4, '"', "\\\"");
    ReplaceSame(s5, "\\b");
    ReplaceSingle(s5, FormFeed, "\\f");
    var s7 := StrReplace(s5, [FormFeed], "\\f");
    ReplaceSingle(s7, '/', "\\/");
  }

  lemma CharStepsAppend(a: string, b: string)
    ensures CharSteps(a + b) == CharSteps(a) + CharSteps(b)
  {
    var a1, b1 := ReplaceChar(a, '\\', "\\\\"), ReplaceChar(b, '\\', "\\\\");
    ReplaceCharAppend(a, b, '\\', "\\\\");
    var a2, b2 := ReplaceChar(a1, '\r', "\\r"), ReplaceChar(b1, '\r', "\\r");
    ReplaceCharAppend(a1, b1, '\r', "\\r");
    var a3, b3 := ReplaceChar(a2, '\t', "\\t"), ReplaceChar(b2, '\t', "\\t");
    ReplaceCharAppend(a2, b2, '\t', "\\t");
    var a4, b4 := ReplaceChar(a3, '\n', "\\n"), ReplaceChar(b3, '\n', "\\n");
    ReplaceCharAppend(a3, b3, '\n', "\\n");
    var a5, b5 := ReplaceChar(a4, '"', "\\\""), ReplaceChar(b4, '"', "\\\"");
    ReplaceCharAppend(a4, b4, '"', "\\\"");
    var a7, b7 := ReplaceChar(a5, FormFeed, "\\f"), ReplaceChar(b5, FormFeed, "\\f");
    ReplaceCharAppend(a5, b5, FormFeed, "\\f");
    ReplaceCharAppend(a7, b7, '/', "\\/");
  }

  /** A replacement of a character that does not occur changes nothing. */
  lemma ReplaceOther(s: string, c: char, t: string)
    requires c !in s
    ensures ReplaceChar(s, c, t) == s
  {
  }

  lemma ReplaceOne(x: char, c: char, t: string)
    ensures ReplaceChar([x], c, t) == if x == c then t else [x]
  {
    assert [x][1..] == [];
  }

  /** The escape of a character whose escape is two characters long goes
      through the steps after its own unchanged. */
  lemma CharStepsChar(x: char)
    ensures CharSteps([x]) == EscapeChar(x)
  {
    if x == '\\' || x == '\r' || x == '\t' {
      CharStepsEarly(x);
    } else {
      CharStepsLate(x);
    }
  }

  /** The characters the first three replacements escape. */
  lemma CharStepsEarly(x: char)
    requires x == '\\' || x == '\r' || x == '\t'
    ensures CharSteps([x]) == EscapeChar(x)
  {
    FirstThreeSteps(x);
    var e := EscapeChar(x);
    assert e[0] == '\\' && |e| == 2 && (e[1] == '\\' || e[1] == 'r' || e[1] == 't');
    assert '\n' !in e && '"' !in e && FormFeed !in e && '/' !in e;
    LaterStepsUnchanged(e);
  }

  lemma FirstThreeSteps(x: char)
    requires x == '\\' || x == '\r' || x == '\t'
    ensures var s1 := ReplaceChar([x], '\\', "\\\\");
      var s2 := ReplaceChar(s1, '\r', "\\r");
      ReplaceChar(s2, '\t', "\\t") == EscapeChar(x)
  {
    var s1 := ReplaceChar([x], '\\', "\\\\");
    var s2 := ReplaceChar(s1, '\r', "\\r");
    ReplaceOne(x, '\\', "\\\\");
    if x == '\\' {
      ReplaceOther(s1, '\r', "\\r");
      ReplaceOther(s2, '\t', "\\t");
    } else {
      ReplaceOne(x, '\r', "\\r");
      if x == '\t' {
        ReplaceOne(x, '\t', "\\t");
      } else {
        ReplaceOther(s2, '\t', "\\t");
      }
    }
  }

  /** A text holding only backslashes and the letters of the escapes goes
      through the last four replacements unchanged. */
  lemma LaterStepsUnchanged(s3: string)
    requires '\n' !in s3 && '"' !in s3 && FormFeed !in s3 && '/' !in s3
    ensures var s4 := ReplaceChar(s3, '\n', "\\n");
      var s5 := ReplaceChar(s4, '"', "\\\"");
      var s7 := ReplaceChar(s5, FormFeed, "\\f");
      ReplaceChar(s7, '/', "\\/") == s3
  {
    ReplaceOther(s3, '\n', "\\n");
    ReplaceOther(s3, '"', "\\\"");
    ReplaceOther(s3, FormFeed, "\\f");
    ReplaceOther(s3, '/', "\\/");
  }

  /** The other characters: the first three replacements leave them alone. */
  lemma CharStepsLate(x: char)
    requires x != '\\' && x != '\r' && x != '\t'
    ensures CharSteps([x]) == EscapeChar(x)
  {
    var s3 := [x];
    var s4 := ReplaceChar(s3, '\n', "\\n");
    var s5 := ReplaceChar(s4, '"', "\\\"");
    var s7 := ReplaceChar(s5, FormFeed, "\\f");
    ReplaceOne(x, '\\', "\\\\");
    ReplaceOne(x, '\r', "\\r");
    ReplaceOne(x, '\t', "\\t");
    ReplaceOne(x, '\n', "\\n");
    if x == '\n' {
      ReplaceOther(s4, '"', "\\\"");
      ReplaceOther(s5, FormFeed, "\\f");
      ReplaceOther(s7, '/', "\\/");
      return;
    }
    ReplaceOne(x, '"', "\\\"");
    if x == '"' {
      ReplaceOther(s5, FormFeed, "\\f");
      ReplaceOther(s7, '/', "\\/");
      return;
    }
    ReplaceOne(x, FormFeed, "\\f");
    if x == FormFeed {
      ReplaceOther(s7, '/', "\\/");
      return;
    }
    ReplaceOne(x, '/', "\\/");
  }

  /** The `str_replace` chain of `jsonEscape` escapes each character on
      its own: no replacement brings in a character a later pair looks
      for, since the backslash goes first. */
  lemma {:induction false} EscapeChainIsMap(s: string)
    ensures JsonEscape(s) == Escape(s)
    decreases |s|
  {
    ChainIsCharSteps(s);
    if s == [] {
    } else {
      assert s == [s[0]] + s[1..];
      CharStepsAppend([s[0]], s[1..]);
      CharStepsChar(s[0]);
      ChainIsCharSteps(s[1..]);
      EscapeChainIsMap(s[1..]);
    }
  }

  /** The characters a JSON string may hold that `jsonEscape` makes
      legal: every one but the control characters it leaves raw. */
  predicate Escapable(c: char) {
    c >= ' ' || c == '\r' || c == '\t' || c == '\n' || c == FormFeed
  }

  /** The character a JSON escape `\c` stands for (section 7 of RFC 8259,
      without `\u` escapes). */
  function Unescaped(c: char): Option<char> {
    if c == '"' then Some('"')
    else if c == '\\' then Some('\\')
    else if c == '/' then Some('/')
    else if c == 'b' then Some(Backspace)
    else if c == 'f' then Some(FormFeed)
    else if c == 'n' then Some('\n')
    else if c == 'r' then Some('\r')
    else if c == 't' then Some('\t')
    else None
  }

  /** Decodes the body of a JSON string: `None` for a raw quote, a raw
      control character or a bad escape. */
  function Unescape(t: string): Option<string>
    decreases |t|
  {
    if t == [] then Some([])
    else if t[0] == '\\' then
      if |t| < 2 then None
      else
        var c :- Unescaped(t[1]);
        var rest :- Unescape(t[2..]);
        Some([c] + rest)
    else if t[0] == '"' || t[0] < ' ' then None
    else
      var rest :- Unescape(t[1..]);
      Some([t[0]] + rest)
  }

  lemma UnescapeChar(x: char, rest: string)
    requires Escapable(x)
    ensures Unescape(EscapeChar(x) + rest) == match Unescape(rest) case None => None case Some(r) => Some([x] + r)
  {
    var t := EscapeChar(x) + rest;
    if |EscapeChar(x)| == 2 {
      assert t[2..] == rest;
    } else {
      assert t[1..] == rest;
    }
  }

  /** Decoding the output of `jsonEscape` gives the input back, for any
      input free of the control characters it leaves raw. */
  lemma {:induction false} UnescapeEscape(s: string)
    requires forall i :: 0 <= i < |s| ==> Escapable(s[i])
    ensures Unescape(JsonEscape(s)) == Some(s)
  {
    EscapeChainIsMap(s);
    UnescapeMap(s);
  }

  lemma {:induction false} UnescapeMap(s: string)
    requires forall i :: 0 <= i < |s| ==> Escapable(s[i])
    ensures Unescape(Escape(s)) == Some(s)
    decreases |s|
  {
    if s != [] {
      assert Escapable(s[0]);
      assert forall i :: 0 <= i < |s[1..]| ==> s[1..][i] == s[i + 1];
      UnescapeMap(s[1..]);
      UnescapeChar(s[0], Escape(s[1..]));
      assert s == [s[0]] + s[1..];
    }
  }

  /** No raw line break, tab or form feed survives `jsonEscape`. */
  lemma {:induction false} EscapeNoBreaks(s: string)
    ensures var t := JsonEscape(s); '\n' !in t && '\r' !in t && '\t' !in t && FormFeed !in t
  {
    EscapeChainIsMap(s);
    MapNoBreaks(s);
  }

  lemma {:induction false} MapNoBreaks(s: string)
    ensures var t := Escape(s); '\n' !in t && '\r' !in t && '\t' !in t && FormFeed !in t
    decreases |s|
  {
    if s != [] {
      MapNoBreaks(s[1..]);
    }
  }

  /** A backspace passes through raw, which no JSON decoder accepts:
      PHP's "\b" in the search list is not the backspace character. */
  lemma BackspaceStaysRaw()
    ensures JsonEscape([Backspace]) == [Backspace]
    ensures Unescape(JsonEscape([Backspace])) == None
  {
    EscapeChainIsMap([Backspace]);
    assert Escape([Backspace]) == EscapeChar(Backspace) + Escape([]);
  }

  // -------------------------------------------------------------------
  // Grouping: `$m[$key][] = $value`

  type Groups<V> = seq<Entry<string, seq<V>>>

  /** `$m[$k][] = $v`: appends to the group at `k`, opening it at the end
      when `k` is new. */
  function AddTo<V>(m: Groups<V>, k: string, v: V): Groups<V> {
    Put(m, k, Prior(m, k) + [v])
  }

  /** The group at `k`, empty when `k` is not set. */
  function Prior<V>(m: Groups<V>, k: string): seq<V> {
    match Lookup(m, k)
    case Some(vs) => vs
    case None => []
  }

  /** The grouping loop over the values `vs` with keys `ks`. */
  function Grouped<V>(ks: seq<string>, vs: seq<V>): (r: Groups<V>)
    requires |ks| == |vs|
    ensures DistinctKeys(r)
    decreases |ks|
  {
    if ks == [] then []
    else
      var n := |ks| - 1;
      var m := Grouped(ks[..n], vs[..n]);
      PutKeepsDistinct(m, ks[n], Prior(m, ks[n]) + [vs[n]]);
      AddTo(m, ks[n], vs[n])
  }

  /** The values whose key is `k`, in order. */
  function Select<V>(ks: seq<string>, vs: seq<V>, k: string): seq<V>
    requires |ks| == |vs|
    decreases |ks|
  {
    if ks == [] then []
    else
      var n := |ks| - 1;
      Select(ks[..n], vs[..n], k) + (if ks[n] == k then [vs[n]] else [])
  }

  lemma SelectAbsent<V>(ks: seq<string>, vs: seq<V>, k: string)
    requires |ks| == |vs| && k !in ks
    ensures Select(ks, vs, k) == []
  {
    if ks != [] {
      var n := |ks| - 1;
      assert forall x :: x in ks[..n] ==> x in ks;
      SelectAbsent(ks[..n], vs[..n], k);
    }
  }

  /** After the grouping loop every key of `ks` holds exactly its values,
      in input order, and no other key is set. */
  lemma {:induction false} GroupedLookup<V>(ks: seq<string>, vs: seq<V>, k: string)
    requires |ks| == |vs|
    ensures Lookup(Grouped(ks, vs), k) == if k in ks then Some(Select(ks, vs, k)) else None
    decreases |ks|
  {
    if ks != [] {
      var n := |ks| - 1;
      assert ks == ks[..n] + [ks[n]];
      GroupedLookup(ks[..n], vs[..n], k);
      GroupedLookup(ks[..n], vs[..n], ks[n]);
      AddToLookup(Grouped(ks[..n], vs[..n]), ks[..n], vs[..n], ks[n], vs[n], k);
    }
  }

  /** One more step of the grouping loop. */
  lemma AddToLookup<V>(m: Groups<V>, ks: seq<string>, vs: seq<V>, kl: string, vl: V, k: string)
    requires |ks| == |vs|
    requires Lookup(m, k) == if k in ks then Some(Select(ks, vs, k)) else None
    requires Lookup(m, kl) == if kl in ks then Some(Select(ks, vs, kl)) else None
    ensures Lookup(AddTo(m, kl, vl), k) ==
      if k in ks + [kl] then Some(Select(ks, vs, k) + (if kl == k then [vl] else [])) else None
  {
    assert k in ks + [kl] <==> k in ks || k == kl;
    if k == kl {
      AddToSame(m, ks, vs, kl, vl);
    } else {
      AddToOther(m, kl, vl, k);
      assert Select(ks, vs, k) + [] == Select(ks, vs, k);
    }
  }

  lemma AddToOther<V>(m: Groups<V>, kl: string, vl: V, k: string)
    requires k != kl
    ensures Lookup(AddTo(m, kl, vl), k) == Lookup(m, k)
  {
    LookupPut(m, kl, Prior(m, kl) + [vl], k);
  }

  lemma AddToSame<V>(m: Groups<V>, ks: seq<string>, vs: seq<V>, kl: string, vl: V)
    requires |ks| == |vs|
    requires Lookup(m, kl) == if kl in ks then Some(Select(ks, vs, kl)) else None
    ensures Lookup(AddTo(m, kl, vl), kl) == Some(Select(ks, vs, kl) + [vl])
  {
    LookupPut(m, kl, Prior(m, kl) + [vl], kl);
    if kl !in ks {
      SelectAbsent(ks, vs, kl);
    }
  }

  /** The number of values in all groups. */
  function Total<V>(m: Groups<V>): nat {
    if m == [] then 0 else |m[0].value| + Total(m[1..])
  }

  lemma {:induction false} TotalPut<V>(m: Groups<V>, k: string, v: seq<V>)
    ensures Total(Put(m, k, v)) + |Prior(m, k)| == Total(m) + |v|
  {
    if m != [] && m[0].key != k {
      TotalPut(m[1..], k, v);
      assert Put(m, k, v)[1..] == Put(m[1..], k, v);
    } else if m != [] {
      assert Put(m, k, v)[1..] == m[1..];
    }
  }

  /** The grouping loop loses and duplicates no value. */
  lemma {:induction false} GroupedTotal<V>(ks: seq<string>, vs: seq<V>)
    requires |ks| == |vs|
    ensures Total(Grouped(ks, vs)) == |ks|
    decreases |ks|
  {
    if ks != [] {
      var n := |ks| - 1;
      var m := Grouped(ks[..n], vs[..n]);
      GroupedTotal(ks[..n], vs[..n]);
      TotalPut(m, ks[n], Prior(m, ks[n]) + [vs[n]]);
    }
  }

  lemma GroupedStep<V>(ks: seq<string>, vs: seq<V>, i: nat)
    requires |ks| == |vs| && i < |ks|
    ensures Grouped(ks[..i + 1], vs[..i + 1]) == AddTo(Grouped(ks[..i], vs[..i]), ks[i], vs[i])
  {
    assert ks[..i + 1][..i] == ks[..i];
    assert vs[..i + 1][..i] == vs[..i];
  }

  // -------------------------------------------------------------------
  // ksort

  /** PHP's comparison of two non-numeric string keys: character by
      character, a proper prefix first. */
  predicate Below(a: string, b: string)
    decreases |a|
  {
    if a == [] then b != []
    else if b == [] then false
    else if a[0] == b[0] then Below(a[1..], b[1..])
    else a[0] < b[0]
  }

  lemma BelowIrreflexive(a: string)
    ensures !Below(a, a)
  {
  }

  lemma {:induction false} BelowTotal(a: string, b: string)
    requires a != b
    ensures Below(a, b) || Below(b, a)
    decreases |a|
  {
    if a != [] && b != [] && a[0] == b[0] {
      assert a == [a[0]] + a[1..] && b == [b[0]] + b[1..];
      BelowTotal(a[1..], b[1..]);
    }
  }

  lemma {:induction false} BelowTrans(a: string, b: string, c: string)
    requires Below(a, b) && Below(b, c)
    ensures Below(a, c)
    decreases |a|
  {
    if a != [] && a[0] == b[0] && b[0] == c[0] {
      BelowTrans(a[1..], b[1..], c[1..]);
    }
  }

  /** Keys in strictly ascending order. */
  predicate SortedKeys<V>(m: seq<Entry<string, V>>) {
    forall i, j :: 0 <= i < j < |m| ==> Below(m[i].key, m[j].key)
  }

  /** One step of the sort: the entry goes before the first larger key. */
  function Insert<V>(e: Entry<string, V>, s: seq<Entry<string, V>>): (r: seq<Entry<string, V>>)
    ensures multiset(r) == multiset(s) + multiset{e}
    decreases |s|
  {
    if s == [] then [e]
    else if Below(s[0].key, e.key) then
      var r := [s[0]] + Insert(e, s[1..]);
      assert s == [s[0]] + s[1..];
      r
    else [e] + s
  }

  lemma {:induction false} InsertSorted<V>(e: Entry<string, V>, s: seq<Entry<string, V>>)
    requires SortedKeys(s) && e.key !in Keys(s)
    ensures SortedKeys(Insert(e, s))
    decreases |s|
  {
    if s != [] {
      assert Keys(s)[0] == s[0].key;
      if Below(s[0].key, e.key) {
        KeysTail(s);
        InsertSorted(e, s[1..]);
        HeadBelowInsert(e, s);
        ConsSorted(s[0], Insert(e, s[1..]));
      } else {
        BelowTotal(s[0].key, e.key);
        HeadBelowAll(e, s);
        ConsSorted(e, s);
      }
    }
  }

  lemma KeysTail<V>(s: seq<Entry<string, V>>)
    requires s != []
    ensures forall x :: x in Keys(s[1..]) ==> x in Keys(s)
  {
    forall x | x in Keys(s[1..])
      ensures x in Keys(s)
    {
      var i :| 0 <= i < |s[1..]| && Keys(s[1..])[i] == x;
      assert Keys(s)[i + 1] == x;
    }
  }

  lemma HeadBelowInsert<V>(e: Entry<string, V>, s: seq<Entry<string, V>>)
    requires SortedKeys(s) && s != [] && Below(s[0].key, e.key)
    ensures forall j :: 0 <= j < |Insert(e, s[1..])| ==> Below(s[0].key, Insert(e, s[1..])[j].key)
  {
    var t := Insert(e, s[1..]);
    forall j | 0 <= j < |t|
      ensures Below(s[0].key, t[j].key)
    {
      assert t[j] in multiset(t);
      if t[j] != e {
        var k :| 0 <= k < |s[1..]| && s[1..][k] == t[j];
        assert s[k + 1] == t[j];
      }
    }
  }

  lemma HeadBelowAll<V>(e: Entry<string, V>, s: seq<Entry<string, V>>)
    requires SortedKeys(s) && s != [] && Below(e.key, s[0].key)
    ensures forall j :: 0 <= j < |s| ==> Below(e.key, s[j].key)
  {
    forall j | 0 < j < |s|
      ensures Below(e.key, s[j].key)
    {
      BelowTrans(e.key, s[0].key, s[j].key);
    }
  }

  lemma ConsSorted<V>(x: Entry<string, V>, t: seq<Entry<string, V>>)
    requires SortedKeys(t) && forall j :: 0 <= j < |t| ==> Below(x.key, t[j].key)
    ensures SortedKeys([x] + t)
  {
    var r := [x] + t;
    forall i, j | 0 <= i < j < |r|
      ensures Below(r[i].key, r[j].key)
    {
      assert r[j] == t[j - 1];
      if i > 0 {
        assert r[i] == t[i - 1];
      }
    }
  }

  /** `ksort($m)`: the entries in ascending key order. */
  function KSort<V>(m: seq<Entry<string, V>>): (r: seq<Entry<string, V>>)
    requires DistinctKeys(m)
    ensures multiset(r) == multiset(m) && |r| == |m|
    ensures SortedKeys(r)
    decreases |m|
  {
    if m == [] then []
    else
      var rest := KSort(m[1..]);
      assert m == [m[0]] + m[1..];
      NotInSorted(m, rest);
      InsertSorted(m[0], rest);
      Insert(m[0], rest)
  }

  lemma NotInSorted<V>(m: seq<Entry<string, V>>, rest: seq<Entry<string, V>>)
    requires DistinctKeys(m) && m != [] && multiset(rest) == multiset(m[1..])
    ensures m[0].key !in Keys(rest)
  {
    forall i | 0 <= i < |rest|
      ensures rest[i].key != m[0].key
    {
      assert rest[i] in multiset(m[1..]);
      var j :| 0 <= j < |m[1..]| && m[1..][j] == rest[i];
      assert m[j + 1] == rest[i];
    }
  }

  /** A strictly sorted map has distinct keys. */
  lemma SortedDistinct<V>(m: seq<Entry<string, V>>)
    requires SortedKeys(m)
    ensures DistinctKeys(m)
  {
    forall i, j | 0 <= i < j < |m|
      ensures m[i].key != m[j].key
    {
      if m[i].key == m[j].key {
        BelowIrreflexive(m[i].key);
      }
    }
  }

  /** Sorting keeps what every key looks up. */
  lemma KSortLookup<V>(m: seq<Entry<string, V>>, k: string)
    requires DistinctKeys(m)
    ensures Lookup(KSort(m), k) == Lookup(m, k)
  {
    var r := KSort(m);
    SortedDistinct(r);
    if Lookup(m, k).Some? {
      LookupTransfer(m, r, k);
    } else if Lookup(r, k).Some? {
      LookupTransfer(r, m, k);
    }
  }

  /** What a key looks up in one map it looks up in any map with distinct
      keys holding the same entries. */
  lemma LookupTransfer<V>(m: seq<Entry<string, V>>, r: seq<Entry<string, V>>, k: string)
    requires DistinctKeys(r) && multiset(m) == multiset(r) && Lookup(m, k).Some?
    ensures Lookup(r, k) == Lookup(m, k)
  {
    var i :| 0 <= i < |m| && m[i] == Entry(k, Lookup(m, k).value);
    assert m[i] in multiset(r);
    LookupEntry(r, m[i]);
  }

  lemma {:induction false} InsertTotal<V>(e: Entry<string, seq<V>>, s: Groups<V>)
    ensures Total(Insert(e, s)) == |e.value| + Total(s)
    decreases |s|
  {
    if s != [] && Below(s[0].key, e.key) {
      InsertTotal(e, s[1..]);
      assert Insert(e, s)[1..] == Insert(e, s[1..]);
    } else if s != [] {
      assert Insert(e, s)[1..] == s;
    }
  }

  /** Sorting keeps the number of values. */
  lemma {:induction false} KSortTotal<V>(m: Groups<V>)
    requires DistinctKeys(m)
    ensures Total(KSort(m)) == Total(m)
    decreases |m|
  {
    if m != [] {
      KSortTotal(m[1..]);
      InsertTotal(m[0], KSort(m[1..]));
    }
  }

  /** A grouping loop followed by `ksort`: ascending distinct keys, exactly
      the keys of the input, each holding its values in input order; no
      value is lost or duplicated. */
  lemma SortedGroups<V>(ks: seq<string>, vs: seq<V>)
    requires |ks| == |vs|
    ensures var r := KSort(Grouped(ks, vs));
      && SortedKeys(r) && Total(r) == |ks|
      && forall k :: Lookup(r, k) == if k in ks then Some(Select(ks, vs, k)) else None
  {
    var m := Grouped(ks, vs);
    GroupedTotal(ks, vs);
    KSortTotal(m);
    forall k
      ensures Lookup(KSort(m), k) == if k in ks then Some(Select(ks, vs, k)) else None
    {
      KSortLookup(m, k);
      GroupedLookup(ks, vs, k);
    }
  }

  // -------------------------------------------------------------------
  // The document

  /** `getUri()` of a subject or a predicate; a statement of the store
      never has a literal there (`WellFormedStatement`), so the last case
      does not arise. */
  function KeyOf(n: Node): string {
    match n
    case Resource(u) => u
    case BlankNode(id) => id
    case LiteralNode(_, _, _) => ""
  }

  function SubjectKeys(stmts: seq<Statement>): (r: seq<string>)
    ensures |r| == |stmts| && forall i :: 0 <= i < |stmts| ==> r[i] == KeyOf(stmts[i].subject)
  {
    seq(|stmts|, i requires 0 <= i < |stmts| => KeyOf(stmts[i].subject))
  }

  function PredicateKeys(stmts: seq<Statement>): (r: seq<string>)
    ensures |r| == |stmts| && forall i :: 0 <= i < |stmts| ==> r[i] == KeyOf(stmts[i].pred)
  {
    seq(|stmts|, i requires 0 <= i < |stmts| => KeyOf(stmts[i].pred))
  }

  function Objects(stmts: seq<Statement>): (r: seq<Node>)
    ensures |r| == |stmts| && forall i :: 0 <= i < |stmts| ==> r[i] == stmts[i].obj
  {
    seq(|stmts|, i requires 0 <= i < |stmts| => stmts[i].obj)
  }

  /** The first loop and its `ksort`: statements by subject URI. */
  function SubjectGroups(stmts: seq<Statement>): Groups<Statement> {
    KSort(Grouped(SubjectKeys(stmts), stmts))
  }

  /** The loop inside one subject group and its `ksort`: objects by
      predicate URI. */
  function PredicateGroups(stmts: seq<Statement>): Groups<Node> {
    KSort(Grouped(PredicateKeys(stmts), Objects(stmts)))
  }

  /** The parts joined the way the loops write them: a comma before every
      part but the first. */
  function Join(parts: seq<string>): string
    decreases |parts|
  {
    if parts == [] then ""
    else
      var n := |parts| - 1;
      Join(parts[..n]) + (if n != 0 then "," else "") + parts[n]
  }

  /** Read from the front, the joined text is the first part, then a
      comma and a part for each of the others. */
  lemma {:induction false} JoinCons(p: string, ps: seq<string>)
    ensures Join([p] + ps) == if ps == [] then p else p + "," + Join(ps)
    decreases |ps|
  {
    var all := [p] + ps;
    if ps == [] {
      assert all[..0] == [];
    } else {
      var n := |ps| - 1;
      assert all[..n + 1] == [p] + ps[..n];
      JoinCons(p, ps[..n]);
      if n == 0 {
        assert ps[..0] == [];
      }
    }
  }

  lemma JoinStep(parts: seq<string>, i: nat)
    requires i < |parts|
    ensures Join(parts[..i + 1]) == Join(parts[..i]) + (if i != 0 then "," else "") + parts[i]
  {
    assert parts[..i + 1][..i] == parts[..i];
  }

  /** The record of one object: its value and type, and for a literal its
      language and its datatype when they are set. */
  function ObjectRecord(n: Node): string {
    match n
    case BlankNode(id) => "{" + "\"value\":\"_:" + JsonEscape(id) + "\"," + "\"type\":\"bnode\"" + "}"
    case LiteralNode(lit, _, _) =>
      "{" + "\"value\":\"" + JsonEscape(lit) + "\"," + "\"type\":\"literal\"" + LanguagePart(n) + DatatypePart(n) + "}"
    case Resource(u) => "{" + "\"value\":\"" + JsonEscape(u) + "\"," + "\"type\":\"uri\"" + "}"
  }

  function LanguagePart(n: Node): string
    requires n.LiteralNode?
  {
    if LiteralNodes.HasLanguage(n) then ",\"lang\":\"" + JsonEscape(n.language.value) + "\"" else ""
  }

  function DatatypePart(n: Node): string
    requires n.LiteralNode?
  {
    if LiteralNodes.HasDatatype(n) then ",\"datatype\":\"" + JsonEscape(n.dtype.value) + "\"" else ""
  }

  function Records(os: seq<Node>): (r: seq<string>)
    ensures |r| == |os| && forall i :: 0 <= i < |os| ==> r[i] == ObjectRecord(os[i])
  {
    seq(|os|, i requires 0 <= i < |os| => ObjectRecord(os[i]))
  }

  /** `"predicate":[records]` */
  function PredicateEntry(e: Entry<string, seq<Node>>): string {
    "\"" + JsonEscape(e.key) + "\":" + "[" + Join(Records(e.value)) + "]"
  }

  function PredicateEntries(g: Groups<Node>): (r: seq<string>)
    ensures |r| == |g| && forall i :: 0 <= i < |g| ==> r[i] == PredicateEntry(g[i])
  {
    seq(|g|, i requires 0 <= i < |g| => PredicateEntry(g[i]))
  }

  /** `"subject":{predicates}` */
  function SubjectEntry(e: Entry<string, seq<Statement>>): string {
    SubjectKey(e) + "{" + Join(PredicateEntries(PredicateGroups(e.value))) + "}"
  }

  /** The key of a subject group, marked "_:" when the group's first
      subject is a blank node. */
  function SubjectKey(e: Entry<string, seq<Statement>>): string {
    if e.value != [] && e.value[0].subject.BlankNode? then "\"_:" + JsonEscape(e.key) + "\":"
    else "\"" + JsonEscape(e.key) + "\":"
  }

  function SubjectEntries(g: Groups<Statement>): (r: seq<string>)
    ensures |r| == |g| && forall i :: 0 <= i < |g| ==> r[i] == SubjectEntry(g[i])
  {
    seq(|g|, i requires 0 <= i < |g| => SubjectEntry(g[i]))
  }

  /** The text `transform` builds for a non-empty model. */
  function Document(stmts: seq<Statement>): string {
    "{" + Join(SubjectEntries(SubjectGroups(stmts))) + "}"
  }

  /** The object records of the document, summed over its groups. */
  function RecordCount(g: Groups<Statement>): nat {
    if g == [] then 0 else Total(PredicateGroups(g[0].value)) + RecordCount(g[1..])
  }

  lemma {:induction false} RecordCountIsTotal(g: Groups<Statement>)
    ensures RecordCount(g) == Total(g)
    decreases |g|
  {
    if g != [] {
      RecordCountIsTotal(g[1..]);
      SortedGroups(PredicateKeys(g[0].value), Objects(g[0].value));
    }
  }

  /** The document holds one object record per statement of the model. */
  lemma RecordsPerStatement(stmts: seq<Statement>)
    ensures RecordCount(SubjectGroups(stmts)) == |stmts|
  {
    RecordCountIsTotal(SubjectGroups(stmts));
    SortedGroups(SubjectKeys(stmts), stmts);
  }

  /** The subject groups of the document: ascending subject URIs, exactly
      those of the model, each with its statements in store order. */
  lemma SubjectGroupsSpec(stmts: seq<Statement>)
    ensures SortedKeys(SubjectGroups(stmts))
    ensures forall k :: Lookup(SubjectGroups(stmts), k) ==
                        if k in SubjectKeys(stmts) then Some(Select(SubjectKeys(stmts), stmts, k)) else None
  {
    SortedGroups(SubjectKeys(stmts), stmts);
  }

  /** The predicate groups of one subject: ascending predicate URIs, each
      with its objects in store order. */
  lemma PredicateGroupsSpec(stmts: seq<Statement>)
    ensures SortedKeys(PredicateGroups(stmts))
    ensures forall k :: Lookup(PredicateGroups(stmts), k) ==
                        if k in PredicateKeys(stmts) then Some(Select(PredicateKeys(stmts), Objects(stmts), k)) else None
  {
    SortedGroups(PredicateKeys(stmts), Objects(stmts));
  }

  // -------------------------------------------------------------------
  // The serializer

  /** The grouping loop over the statements by subject URI. */
  method GroupBySubject(stmts: seq<Statement>) returns (m: Groups<Statement>)
    ensures m == Grouped(SubjectKeys(stmts), stmts)
  {
    ghost var ks := SubjectKeys(stmts);
    m := [];
    var i := 0;
    while i < |stmts|
      invariant 0 <= i <= |stmts|
      invariant m == Grouped(ks[..i], stmts[..i])
    {
      GroupedStep(ks, stmts, i);
      m := AddTo(m, KeyOf(stmts[i].subject), stmts[i]);
      i := i + 1;
    }
    assert ks[..i] == ks && stmts[..i] == stmts;
  }

  /** The grouping loop over one subject's statements by predicate URI. */
  method GroupByPredicate(stmts: seq<Statement>) returns (m: Groups<Node>)
    ensures m == Grouped(PredicateKeys(stmts), Objects(stmts))
  {
    ghost var ks, os := PredicateKeys(stmts), Objects(stmts);
    m := [];
    var i := 0;
    while i < |stmts|
      invariant 0 <= i <= |stmts|
      invariant m == Grouped(ks[..i], os[..i])
    {
      GroupedStep(ks, os, i);
      m := AddTo(m, KeyOf(stmts[i].pred), stmts[i].obj);
      i := i + 1;
    }
    assert ks[..i] == ks && os[..i] == os;
  }

  lemma Assoc(a: string, b: string, c: string, d: string)
    ensures a + b + c + d == a + (b + c + d)
  {
  }

  lemma Regroup(o: string, a: string, b: string, c: string, d: string)
    ensures o + a + b + c + d == o + (a + b + c + d)
  {
  }

  /** `JsonSerializer`: the text is built in `content`, which
      `serializeToString` clears afterwards. */
  class JsonSerializer {
    var content: string

    constructor ()
      ensures content == ""
    {
      content := "";
    }

    /** `transform($model)`: an empty model throws; otherwise the content
        is set to the document. */
    method Transform(m: Store.Model) returns (r: Result<string>)
      modifies this
      ensures m.statements == [] ==> r == Err("The model is empty and cant be serialized") && content == old(content)
      ensures m.statements != [] ==> content == Document(m.statements) && r == Ok(content)
    {
      if m.IsEmpty() {
        return Err("The model is empty and cant be serialized");
      }
      content := "{";
      var subjects := GroupBySubject(m.statements);
      subjects := KSort(subjects);
      WriteSubjects(subjects);
      content := content + "}";
      r := Ok(content);
    }

    /** The subject loop. */
    method WriteSubjects(g: Groups<Statement>)
      modifies this
      ensures content == old(content) + Join(SubjectEntries(g))
    {
      ghost var parts := SubjectEntries(g);
      var i := 0;
      while i < |g|
        invariant 0 <= i <= |g|
        invariant content == old(content) + Join(parts[..i])
      {
        JoinStep(parts, i);
        var sep := if i != 0 then "," else "";
        content := content + sep;
        WriteSubject(g[i]);
        Assoc(old(content), Join(parts[..i]), sep, parts[i]);
        i := i + 1;
      }
      assert parts[..i] == parts;
    }

    /** One subject group: its key, then its predicate groups in braces. */
    method WriteSubject(e: Entry<string, seq<Statement>>)
      modifies this
      ensures content == old(content) + SubjectEntry(e)
    {
      var head;
      if e.value != [] && e.value[0].subject.BlankNode? {
        head := "\"_:" + JsonEscape(e.key) + "\":";
      } else {
        head := "\"" + JsonEscape(e.key) + "\":";
      }
      content := content + head;
      content := content + "{";
      var predicates := GroupByPredicate(e.value);
      predicates := KSort(predicates);
      WritePredicates(predicates);
      content := content + "}";
      Regroup(old(content), head, "{", Join(PredicateEntries(predicates)), "}");
    }

    /** The predicate loop. */
    method WritePredicates(g: Groups<Node>)
      modifies this
      ensures content == old(content) + Join(PredicateEntries(g))
    {
      ghost var parts := PredicateEntries(g);
      var j := 0;
      while j < |g|
        invariant 0 <= j <= |g|
        invariant content == old(content) + Join(parts[..j])
      {
        JoinStep(parts, j);
        var sep := if j != 0 then "," else "";
        content := content + sep;
        WritePredicate(g[j]);
        Assoc(old(content), Join(parts[..j]), sep, parts[j]);
        j := j + 1;
      }
      assert parts[..j] == parts;
    }

    /** One predicate group: its key, then its object records in brackets. */
    method WritePredicate(e: Entry<string, seq<Node>>)
      modifies this
      ensures content == old(content) + PredicateEntry(e)
    {
      var head := "\"" + JsonEscape(e.key) + "\":";
      content := content + head;
      content := content + "[";
      WriteObjects(e.value);
      content := content + "]";
      Regroup(old(content), head, "[", Join(Records(e.value)), "]");
    }

    /** The object loop. */
    method WriteObjects(os: seq<Node>)
      modifies this
      ensures content == old(content) + Join(Records(os))
    {
      ghost var parts := Records(os);
      var k := 0;
      while k < |os|
        invariant 0 <= k <= |os|
        invariant content == old(content) + Join(parts[..k])
      {
        JoinStep(parts, k);
        var sep := if k != 0 then "," else "";
        content := content + sep;
        WriteObject(os[k]);
        Assoc(old(content), Join(parts[..k]), sep, parts[k]);
        k := k + 1;
      }
      assert parts[..k] == parts;
    }

    /** One object record, by the kind of the object. */
    method WriteObject(n: Node)
      modifies this
      ensures content == old(content) + ObjectRecord(n)
    {
      var record := "{";
      if n.BlankNode? {
        record := record + "\"value\":\"_:" + JsonEscape(n.id) + "\",";
        record := record + "\"type\":\"bnode\"";
      } else if n.LiteralNode? {
        record := record + "\"value\":\"" + JsonEscape(n.literal) + "\",";
        record := record + "\"type\":\"literal\"";
        var lang := "";
        if LiteralNodes.HasLanguage(n) {
          lang := ",\"lang\":\"" + JsonEscape(n.language.value) + "\"";
        }
        var dtype := "";
        if LiteralNodes.HasDatatype(n) {
          dtype := ",\"datatype\":\"" + JsonEscape(n.dtype.value) + "\"";
        }
        record := record + lang + dtype;
      } else {
        record := record + "\"value\":\"" + JsonEscape(n.uri) + "\",";
        record := record + "\"type\":\"uri\"";
      }
      record := record + "}";
      content := content + record;
    }

    /** `serializeToString($model)`: the document, after which the content
        is cleared; an empty model throws before anything is written. */
    method SerializeToString(m: Store.Model) returns (r: Result<string>)
      modifies this
      ensures m.statements == [] ==> r.Err? && content == old(content)
      ensures m.statements != [] ==> r == Ok(Document(m.statements)) && content == ""
    {
      r := Transform(m);
      if r.Ok? {
        content := "";
      }
    }
  }
}
