/** Reading a text file line by line, as the parsers' `fgets` loops do, and
    the test both parsers apply to a line before interpreting it. */
module LineReader {
  import opened Wrappers
  import opened PhpStrings

  /** The lines `fgets` hands out one after the other: each ends right
      after a "\n"; the last one may lack it. */
  function Lines(text: string): (r: seq<string>)
    ensures forall i :: 0 <= i < |r| ==> r[i] != []
    decreases |text|
  {
    if text == [] then []
    else match StrPos(text, "\n")
      case None => [text]
      case Some(i) => [text[..i + 1]] + Lines(text[i + 1..])
  }

  /** A newline-free part followed by "\n" is the first line. */
  lemma LinesCons(a: string, b: string)
    requires '\n' !in a
    ensures Lines(a + "\n" + b) == [a + "\n"] + Lines(b)
  {
    FirstAfter(a, "\n", b);
    var s := a + "\n" + b;
    assert s[..|a| + 1] == a + "\n";
    assert s[|a| + 1..] == b;
  }

  /** The lines the parsers' loops pass over. As written, `strpos($line,
      "#") === false` guards the call, so any line holding a '#' anywhere
      is skipped; with `commentsOnly` only a line that starts with '#' (a
      comment line) is. */
  predicate Skipped(line: string, commentsOnly: bool) {
    if commentsOnly then line != [] && line[0] == '#'
    else StrPos(line, "#").Some?
  }

  /** With comments only skipped, a line is skipped iff it starts with '#';
      as written, every such line is skipped and so is every other line
      holding a '#'. */
  lemma SkippedLines(line: string)
    ensures Skipped(line, true) ==> Skipped(line, false)
    ensures Skipped(line, false) <==> '#' in line
  {
    if '#' in line {
      var i :| 0 <= i < |line| && line[i] == '#';
      assert OccursAt(line, "#", i);
    } else {
      AbsentByFirstChar(line, "#");
    }
  }
}
