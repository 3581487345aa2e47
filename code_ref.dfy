/** The code reference given on the command line (PYFILE): a script path,
    optionally followed by `:` and the name of the entry point to call.
    `main` splits it at the LAST colon, as Python's `str.rsplit(":", 1)`
    does, and falls back to the entry point `f` when there is no colon. */
module CodeRef {
  import opened Wrappers

  /** The character that separates the path from the entry-point name. */
  const Separator: char := ':'

  /** The entry point looked up when the reference names none. */
  const DefaultEntry: string := "f"

  /** A parsed code reference: the script to load and the name to look up in it. */
  datatype CodeRef = CodeRef(path: string, entry: string)

  /** The index of the last occurrence of `c` in `s`, if any. */
  function LastIndexOf(s: string, c: char): (r: Option<nat>)
    ensures r.None? <==> c !in s
    ensures r.Some? ==> r.value < |s| && s[r.value] == c && c !in s[r.value + 1..]
  {
    if s == [] then None
    else if s[|s| - 1] == c then Some(|s| - 1)
    else
      assert s == s[..|s| - 1] + [s[|s| - 1]];
      LastIndexOf(s[..|s| - 1], c)
  }

  /** Splits PYFILE into the script path and the entry-point name.
      Without a colon the whole string is the path and the entry is `f`;
      with one, the entry is what follows the last colon (so it holds no
      colon, and may be empty) and the path is everything before it. */
  function ParseCodeRef(pyfile: string): (r: CodeRef)
    ensures Separator !in pyfile ==> r == CodeRef(pyfile, DefaultEntry)
    ensures Separator in pyfile ==>
              Separator !in r.entry && r.path + [Separator] + r.entry == pyfile
  {
    match LastIndexOf(pyfile, Separator)
    case None => CodeRef(pyfile, DefaultEntry)
    case Some(i) =>
      assert pyfile == pyfile[..i] + [Separator] + pyfile[i + 1..];
      CodeRef(pyfile[..i], pyfile[i + 1..])
  }

  /** The split is the only one with a colon-free entry: whenever PYFILE is
      `path + ":" + entry` and `entry` holds no colon, parsing returns exactly
      that path and entry, whatever colons the path itself contains. */
  lemma ParseCodeRefUnique(pyfile: string, path: string, entry: string)
    requires pyfile == path + [Separator] + entry
    requires Separator !in entry
    ensures ParseCodeRef(pyfile) == CodeRef(path, entry)
  {
    assert pyfile[|path|] == Separator;
    var r := LastIndexOf(pyfile, Separator);
    assert r.Some?;
    var i := r.value;
    if i < |path| {
      assert false;
    } else if i > |path| {
      assert false;
    }
    assert pyfile[..i] == path;
    assert pyfile[i + 1..] == entry;
  }

  /** Worked cases: `a:b:c` names entry `c` in
      script `a:b`, a trailing colon names the empty entry, and a bare path
      selects `f`. */
  lemma ParseCodeRefExamples()
    ensures ParseCodeRef("a:b:c") == CodeRef("a:b", "c")
    ensures ParseCodeRef("x:") == CodeRef("x", "")
    ensures ParseCodeRef("job.py") == CodeRef("job.py", "f")
  {
  }
}
