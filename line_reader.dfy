/** The `lines` input reader: every line of the input file becomes one task
    value, with `str.rstrip("\r\n")` applied. That call strips EVERY trailing
    carriage return and line feed, in any mix, not just one line ending. */
module LineReader {

  /** The characters `rstrip("\r\n")` removes. */
  predicate IsLineEnd(c: char) {
    c == '\r' || c == '\n'
  }

  /** True when `s` is made only of carriage returns and line feeds. */
  predicate AllLineEnds(s: string) {
    forall i :: 0 <= i < |s| ==> IsLineEnd(s[i])
  }

  /** True when `s` does not end in a carriage return or line feed. */
  predicate Stripped(s: string) {
    s == [] || !IsLineEnd(s[|s| - 1])
  }

  /** `line.rstrip("\r\n")`: the line without its trailing run of line-end
      characters. The result is a prefix of the line that does not end in
      a line end, and what was removed is made only of line ends. */
  function StripLineEnd(line: string): (r: string)
    ensures r <= line
    ensures Stripped(r)
    ensures AllLineEnds(line[|r|..])
  {
    if line != [] && IsLineEnd(line[|line| - 1]) then
      var r := StripLineEnd(line[..|line| - 1]);
      assert line[|r|..] == line[..|line| - 1][|r|..] + [line[|line| - 1]];
      r
    else
      line
  }

  /** Stripping twice is stripping once. */
  lemma StripLineEndIdempotent(line: string)
    ensures StripLineEnd(StripLineEnd(line)) == StripLineEnd(line)
  {
  }

  /** The result is determined by its contract: whenever a line is `p + s`
      with `s` made only of line ends and `p` not ending in one, stripping
      returns exactly `p`. So no non-line-end character is ever removed,
      and every trailing line end is. */
  lemma {:induction false} StripLineEndUnique(line: string, p: string, s: string)
    requires line == p + s
    requires AllLineEnds(s)
    requires Stripped(p)
    ensures StripLineEnd(line) == p
  {
    if s == [] {
      assert line == p;
    } else {
      assert line[..|line| - 1] == p + s[..|s| - 1];
      StripLineEndUnique(line[..|line| - 1], p, s[..|s| - 1]);
    }
  }

  /** The `lines` reader over the lines of the input file, in file order:
      one task value per line, the i-th task being the i-th line stripped. */
  function ReadLines(lines: seq<string>): (tasks: seq<string>)
    ensures |tasks| == |lines|
    ensures forall i :: 0 <= i < |lines| ==> tasks[i] == StripLineEnd(lines[i])
  {
    if lines == [] then []
    else [StripLineEnd(lines[0])] + ReadLines(lines[1..])
  }

  /** No task value produced by the `lines` reader ends in a line end, and
      each is a prefix of its line. */
  lemma ReadLinesStripped(lines: seq<string>, i: nat)
    requires i < |lines|
    ensures Stripped(ReadLines(lines)[i]) && ReadLines(lines)[i] <= lines[i]
  {
  }

  /** Worked case: Windows and Unix line endings, and a blank line. */
  lemma ReadLinesExample()
    ensures ReadLines(["a\r\n", "b\n", "\n", "c"]) == ["a", "b", "", "c"]
  {
    StripLineEndUnique("a\r\n", "a", "\r\n");
    StripLineEndUnique("b\n", "b", "\n");
    StripLineEndUnique("\n", "", "\n");
    StripLineEndUnique("c", "c", "");
  }
}
