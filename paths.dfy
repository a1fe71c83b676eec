/** String helpers the script relies on: POSIX `os.path.join`, `str.format` with a single
    `{}` field, and `fnmatch.filter(names, "*.jpg")`. */
module Paths {
  type Path = string

  /** `os.path.join(a, b)` on POSIX: an absolute b replaces a; otherwise b is appended, with a
      separating slash unless a is empty or already ends in one. */
  function Join(a: Path, b: Path): (r: Path)
    ensures |b| > 0 && b[0] == '/' ==> r == b
    ensures !(|b| > 0 && b[0] == '/') && (|a| == 0 || a[|a| - 1] == '/') ==> r == a + b
    ensures !(|b| > 0 && b[0] == '/') && |a| > 0 && a[|a| - 1] != '/' ==> r == a + "/" + b
  {
    if |b| > 0 && b[0] == '/' then b
    else if |a| == 0 || a[|a| - 1] == '/' then a + b
    else a + "/" + b
  }

  /** Joining onto a directory that does not end in a slash puts a slash between; the
      result therefore starts with the directory and a slash. */
  lemma JoinUnder(dir: Path, name: Path)
    requires |dir| > 0 && dir[|dir| - 1] != '/'
    requires |name| == 0 || name[0] != '/'
    ensures Join(dir, name) == dir + "/" + name
    ensures StartsWith(Join(dir, name), dir + "/")
  {
  }

  predicate StartsWith(s: string, prefix: string) {
    |prefix| <= |s| && s[..|prefix|] == prefix
  }

  predicate EndsWith(s: string, suffix: string) {
    |suffix| <= |s| && s[|s| - |suffix|..] == suffix
  }

  /** No `{` or `}` in s. */
  predicate NoBraces(s: string) {
    forall k | 0 <= k < |s| :: s[k] != '{' && s[k] != '}'
  }

  /** `template.format(arg)` for a template with one `{}` field: the first `{}` is replaced
      by arg; a template without one is returned as it is. */
  function Format(template: string, arg: string): (r: string)
    ensures NoBraces(template) ==> r == template
  {
    if |template| < 2 then template
    else if template[0] == '{' && template[1] == '}' then arg + template[2..]
    else [template[0]] + Format(template[1..], arg)
  }

  /** Formatting `before + "{}" + after` gives `before + arg + after`. */
  lemma {:induction false} FormatField(before: string, arg: string, after: string)
    requires NoBraces(before)
    ensures Format(before + "{}" + after, arg) == before + arg + after
  {
    if |before| > 0 {
      assert (before + "{}" + after)[1..] == before[1..] + "{}" + after;
      FormatField(before[1..], arg, after);
    } else {
      assert before + "{}" + after == "{}" + after;
    }
  }

  /** `fnmatch.filter(names, "*.jpg")`: the names ending in ".jpg", in their original order
      (on POSIX the match is case-sensitive). */
  function JpgFiles(names: seq<string>): (r: seq<string>)
    ensures |r| <= |names|
    ensures forall k | 0 <= k < |r| :: EndsWith(r[k], ".jpg") && r[k] in names
    ensures forall k | 0 <= k < |names| :: EndsWith(names[k], ".jpg") ==> names[k] in r
  {
    if |names| == 0 then []
    else if EndsWith(names[0], ".jpg") then [names[0]] + JpgFiles(names[1..])
    else JpgFiles(names[1..])
  }

  /** A single name is kept exactly when it ends in ".jpg". */
  lemma JpgFilesOne(name: string)
    ensures JpgFiles([name]) == if EndsWith(name, ".jpg") then [name] else []
  {
    assert [name][1..] == [];
  }

  /** Filtering a listing piece by piece gives the pieces' matches in listing order; with
      JpgFilesOne this fixes the order and multiplicity of the matches. */
  lemma {:induction false} JpgFilesAppend(a: seq<string>, b: seq<string>)
    ensures JpgFiles(a + b) == JpgFiles(a) + JpgFiles(b)
    decreases |a|
  {
    if |a| > 0 {
      assert (a + b)[0] == a[0];
      assert (a + b)[1..] == a[1..] + b;
      JpgFilesAppend(a[1..], b);
    } else {
      assert a + b == b;
    }
  }
}
