/** The PHP string built-ins the line formats are made of: `strpos`,
    `explode`, `substr` and the truth value of a string, with the facts
    about delimiters that the round trips rest on. */
module PhpStrings {
  import opened Wrappers

  /** `d` occurs in `s` starting at index `i`. */
  predicate OccursAt(s: string, d: string, i: int) {
    0 <= i && i + |d| <= |s| && s[i..i + |d|] == d
  }

  /** `strpos($s, $d)`: the first index at which `d` occurs, or `None` for
      PHP's `false`. */
  function StrPos(s: string, d: string): (r: Option<nat>)
    requires d != []
    ensures r.Some? ==> OccursAt(s, d, r.value)
    ensures r.Some? ==> forall j :: 0 <= j < r.value ==> !OccursAt(s, d, j)
    ensures r.None? ==> forall j :: !OccursAt(s, d, j)
    decreases |s|
  {
    if |s| < |d| then None
    else if s[..|d|] == d then Some(0)
    else
      var r := StrPos(s[1..], d);
      forall j | 1 <= j
        ensures OccursAt(s, d, j) <==> OccursAt(s[1..], d, j - 1)
      {
        if j + |d| <= |s| {
          SliceOfTail(s, j, |d|);
        }
      }
      if r.None? then None else Some(r.value + 1)
  }

  /** A slice of `s[1..]` is the slice of `s` one index further on. */
  lemma SliceOfTail(s: string, j: int, n: nat)
    requires 1 <= j && j + n <= |s|
    ensures s[j..j + n] == s[1..][j - 1..j - 1 + n]
  {
    var a, b := s[j..j + n], s[1..][j - 1..j - 1 + n];
    forall k | 0 <= k < n
      ensures a[k] == b[k]
    {
      assert s[1..][j - 1 + k] == s[j + k];
    }
  }

  /** `explode($d, $s)`: the pieces of `s` between the occurrences of `d`,
      left to right. */
  function Explode(s: string, d: string): (r: seq<string>)
    requires d != []
    ensures |r| >= 1
    decreases |s|
  {
    match StrPos(s, d)
    case None => [s]
    case Some(i) => [s[..i]] + Explode(s[i + |d|..], d)
  }

  /** `explode($d, $s, 2)`: split at the first occurrence only. */
  function ExplodeTwo(s: string, d: string): (r: seq<string>)
    requires d != []
    ensures 1 <= |r| <= 2
    ensures |r| == 2 <==> StrPos(s, d).Some?
  {
    match StrPos(s, d)
    case None => [s]
    case Some(i) => [s[..i], s[i + |d|..]]
  }

  /** `substr($s, 1, -1)`: drops the first and the last character; a
      string of fewer than two characters gives "". */
  function Inner(s: string): (r: string)
    ensures |s| >= 2 ==> |r| == |s| - 2
  {
    if |s| >= 2 then s[1..|s| - 1] else ""
  }

  /** `substr($s, $k)` for `k >= 0`. */
  function From(s: string, k: nat): string {
    if k <= |s| then s[k..] else ""
  }

  /** PHP's truth value of a string: "" and "0" are false. */
  predicate Truthy(s: string) {
    s != "" && s != "0"
  }

  /** `$pieces[$i]`, null when the index is undefined. */
  function Piece(pieces: seq<string>, i: nat): Option<string> {
    if i < |pieces| then Some(pieces[i]) else None
  }

  /** PHP's truth value of a possibly undefined piece. */
  predicate TruthyPiece(p: Option<string>) {
    p.Some? && Truthy(p.value)
  }

  /** A string without `d` is one piece. */
  lemma ExplodeAbsent(s: string, d: string)
    requires d != [] && StrPos(s, d).None?
    ensures Explode(s, d) == [s]
  {
  }

  /** A string in which the first character of `d` does not occur does
      not contain `d`. */
  lemma AbsentByFirstChar(s: string, d: string)
    requires d != [] && d[0] !in s
    ensures StrPos(s, d).None?
  {
  }

  /** When `a` does not hold the first character of `d`, the first
      occurrence of `d` in `a + d + b` is the one right after `a`. */
  lemma {:induction false} FirstAfter(a: string, d: string, b: string)
    requires d != [] && d[0] !in a
    ensures StrPos(a + d + b, d) == Some(|a|)
  {
    var s := a + d + b;
    assert OccursAt(s, d, |a|) by {
      assert s[|a|..|a| + |d|] == d;
    }
    forall j | 0 <= j < |a|
      ensures !OccursAt(s, d, j)
    {
      assert s[j] == a[j];
    }
  }

  /** Splitting `a + d + b` when `a` is free of `d`'s first character
      gives `a` followed by the pieces of `b`. */
  lemma ExplodeCons(a: string, d: string, b: string)
    requires d != [] && d[0] !in a
    ensures Explode(a + d + b, d) == [a] + Explode(b, d)
  {
    var s := a + d + b;
    FirstAfter(a, d, b);
    assert s[..|a|] == a;
    assert s[|a| + |d|..] == b;
  }

  /** The same, for `explode` with a limit of 2. */
  lemma ExplodeTwoCons(a: string, d: string, b: string)
    requires d != [] && d[0] !in a
    ensures ExplodeTwo(a + d + b, d) == [a, b]
  {
    var s := a + d + b;
    FirstAfter(a, d, b);
    assert s[..|a|] == a;
    assert s[|a| + |d|..] == b;
  }

  /** An occurrence in `a + b` that lies in neither part must cover the
      last character of `a` and the first of `b`; when one of them is not
      a character of `d`, the concatenation is free of `d`. */
  lemma NoneAcross(a: string, b: string, d: string)
    requires d != [] && StrPos(a, d).None? && StrPos(b, d).None?
    requires (a != [] && a[|a| - 1] !in d) || (b != [] && b[0] !in d)
    ensures StrPos(a + b, d).None?
  {
    forall j | OccursAt(a + b, d, j)
      ensures false
    {
      if j + |d| <= |a| {
        OccursLeft(a, b, d, j);
      } else if j >= |a| {
        OccursRight(a, b, d, j);
      } else {
        OccursAcross(a, b, d, j);
      }
    }
  }

  lemma OccursLeft(a: string, b: string, d: string, j: int)
    requires OccursAt(a + b, d, j) && j + |d| <= |a|
    ensures OccursAt(a, d, j)
  {
    assert a[j..j + |d|] == (a + b)[j..j + |d|];
  }

  lemma OccursRight(a: string, b: string, d: string, j: int)
    requires OccursAt(a + b, d, j) && j >= |a|
    ensures OccursAt(b, d, j - |a|)
  {
    assert b[j - |a|..j - |a| + |d|] == (a + b)[j..j + |d|];
  }

  lemma OccursAcross(a: string, b: string, d: string, j: int)
    requires OccursAt(a + b, d, j) && j < |a| < j + |d|
    ensures a[|a| - 1] in d && b[0] in d
  {
    assert (a + b)[j..j + |d|][|a| - 1 - j] == a[|a| - 1];
    assert (a + b)[j..j + |d|][|a| - j] == b[0];
  }

  /** `substr` of a bracketed string gives back what was inside. */
  lemma InnerOfWrapped(l: char, s: string, r: char)
    ensures Inner([l] + s + [r]) == s
  {
    assert ([l] + s + [r])[1..|s| + 1] == s;
  }

  /** Four space-free pieces joined by single spaces split back into the
      pieces. */
  lemma ExplodeSpaced(a: string, b: string, c: string, d: string)
    requires ' ' !in a && ' ' !in b && ' ' !in c && ' ' !in d
    ensures Explode(a + " " + (b + " " + (c + " " + d)), " ") == [a, b, c, d]
  {
    ExplodeSpacedThree(b, c, d);
    SpacedCons(a, b + " " + (c + " " + d), [b, c, d]);
  }

  lemma ExplodeSpacedThree(b: string, c: string, d: string)
    requires ' ' !in b && ' ' !in c && ' ' !in d
    ensures Explode(b + " " + (c + " " + d), " ") == [b, c, d]
  {
    ExplodeSpacedTwo(c, d);
    SpacedCons(b, c + " " + d, [c, d]);
  }

  lemma ExplodeSpacedTwo(c: string, d: string)
    requires ' ' !in c && ' ' !in d
    ensures Explode(c + " " + d, " ") == [c, d]
  {
    ExplodeWithout(d, " ");
    SpacedCons(c, d, [d]);
  }

  /** A space-free piece before a space adds one piece in front. */
  lemma SpacedCons(a: string, rest: string, pieces: seq<string>)
    requires ' ' !in a && Explode(rest, " ") == pieces
    ensures Explode(a + " " + rest, " ") == [a] + pieces
  {
    ExplodeCons(a, " ", rest);
  }

  /** Concatenation regrouped to the right. */
  lemma RegroupSpaced<T>(a: seq<T>, sp: seq<T>, b: seq<T>, c: seq<T>, d: seq<T>)
    ensures a + sp + b + sp + c + (sp + d) == a + sp + (b + sp + (c + sp + d))
  {
  }

  /** Splitting a string free of the separator's first character gives
      the string itself. */
  lemma ExplodeWithout(s: string, d: string)
    requires d != [] && d[0] !in s
    ensures Explode(s, d) == [s]
  {
    AbsentByFirstChar(s, d);
  }
}
