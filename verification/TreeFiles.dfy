/** The NUL-delimited inventory of changed files that `git diff --raw -z` prints. */
module TreeFiles {
  import opened Model
  import opened Streaming
  import opened Edits
  import opened Ordering

  predicate Space(c: char) {
    c == ' ' || '\t' <= c <= '\r'
  }

  function SkipSpaces(s: string): (r: string)
    ensures |r| <= |s| && (r != "" ==> !Space(r[0]))
  {
    if s != "" && Space(s[0]) then SkipSpaces(s[1..]) else s
  }

  function WordEnd(s: string): (n: nat)
    ensures n <= |s| && (forall i :: 0 <= i < n ==> !Space(s[i])) && (n < |s| ==> Space(s[n]))
  {
    if s == "" || Space(s[0]) then 0 else 1 + WordEnd(s[1..])
  }

  /** `strings.Fields` on ASCII text. */
  function Fields(s: string): seq<string>
    decreases |s|
  {
    var t := SkipSpaces(s);
    if t == "" then [] else
      var n := WordEnd(t);
      if n == 0 then [] else [t[..n]] + Fields(t[n..])
  }

  function ParseEntry(header: string, path: string): Option<FileEdit> {
    var fields := Fields(header);
    if path == "" || |fields| != 5 || fields[0] == "" || fields[0][0] != ':' then None
    else
      var oldMode, newMode := fields[0][1..], fields[1];
      if !EditMode(oldMode) || !EditMode(newMode) || !ObjectId(fields[2]) || !ObjectId(fields[3]) then None
      else if fields[4] != "A" && fields[4] != "D" && fields[4] != "M" && fields[4] != "T" then None
      else Some(FileEdit(path, oldMode, newMode, fields[2], fields[3], false, []))
  }

  /** One entry and the text after it: two `bytes.Cut`s at NUL bytes. */
  function NextEntry(raw: string): (r: Option<(FileEdit, string)>)
    ensures r.Some? ==> |r.value.1| < |raw|
  {
    var i := IndexOf(raw, '\0');
    if i < 0 then None
    else
      var tail := raw[i + 1..];
      var j := IndexOf(tail, '\0');
      if j < 0 then None
      else
        var entry := ParseEntry(raw[..i], tail[..j]);
        if entry.None? then None else Some((entry.value, tail[j + 1..]))
  }

  function ParseEntries(raw: string): Option<seq<FileEdit>>
    decreases |raw|
  {
    if raw == "" then Some([])
    else
      var next := NextEntry(raw);
      if next.None? then None
      else
        var rest := ParseEntries(next.value.1);
        if rest.None? then None else Some([next.value.0] + rest.value)
  }

  predicate ByPath(a: FileEdit, b: FileEdit) {
    Below(a.path, b.path)
  }

  function PathOf(f: FileEdit): string {
    f.path
  }

  predicate Repeats(files: seq<FileEdit>) {
    exists i :: 0 < i < |files| && files[i - 1].path == files[i].path
  }

  /** `parseEditFiles` on its input: the entries by path, unless one is malformed or a path repeats. */
  function ParseFiles(raw: string): Result<seq<FileEdit>> {
    var entries := ParseEntries(raw);
    if entries.None? then Err(Edits)
    else
      var files := Sort(entries.value, ByPath);
      if Repeats(files) then Err(Edits) else Ok(files)
  }

  lemma ByPathIsPreorder()
    ensures TotalPreorder(ByPath)
  {
    forall x, y ensures ByPath(x, y) || ByPath(y, x) { BelowTotal(x.path, y.path); }
    forall x, y, z | ByPath(x, y) && ByPath(y, z) ensures ByPath(x, z) { BelowTransitive(x.path, y.path, z.path); }
  }

  /** In path order, a repeated path shows up as two neighbours. */
  lemma RepeatsAreNeighbours(files: seq<FileEdit>)
    requires SortedBy(files, ByPath)
    ensures Repeats(files) <==> !Distinct(Map(files, PathOf))
  {
    var paths := Map(files, PathOf);
    if !Distinct(paths) {
      var i, j :| 0 <= i < j < |paths| && paths[i] == paths[j];
      assert ByPath(files[i], files[i + 1]);
      if i + 1 < j {
        assert ByPath(files[i + 1], files[j]);
        BelowAntisymmetric(files[i].path, files[i + 1].path);
      }
      assert files[i + 1 - 1].path == files[i + 1].path;
    }
  }

  /** Any two path orders of the same entries agree: on the verdict, and on the list. */
  lemma PathOrdersAgree(a: seq<FileEdit>, b: seq<FileEdit>)
    requires multiset(a) == multiset(b)
    requires SortedBy(a, ByPath) && SortedBy(b, ByPath)
    ensures Repeats(a) <==> Repeats(b)
    ensures !Repeats(a) ==> a == b
  {
    MapPermutation(a, b, PathOf);
    DistinctPermutation(Map(a, PathOf), Map(b, PathOf));
    RepeatsAreNeighbours(a);
    RepeatsAreNeighbours(b);
    if !Repeats(a) {
      forall x, y | x in a && y in a && ByPath(x, y) && ByPath(y, x) ensures x == y {
        BelowAntisymmetric(x.path, y.path);
        var i :| 0 <= i < |a| && a[i] == x;
        var j :| 0 <= j < |a| && a[j] == y;
        assert Map(a, PathOf)[i] == Map(a, PathOf)[j];
      }
      SortedPermutationsEqual(a, b, ByPath);
    }
  }

  function Prepend(files: seq<FileEdit>, rest: Option<seq<FileEdit>>): Option<seq<FileEdit>> {
    if rest.None? then None else Some(files + rest.value)
  }

  lemma PrependOne(files: seq<FileEdit>, raw: string)
    requires raw != "" && NextEntry(raw).Some?
    ensures Prepend(files, ParseEntries(raw)) ==
            Prepend(files + [NextEntry(raw).value.0], ParseEntries(NextEntry(raw).value.1))
  {
    var next := NextEntry(raw).value;
    var rest := ParseEntries(next.1);
    if rest.Some? {
      assert files + ([next.0] + rest.value) == (files + [next.0]) + rest.value;
    }
  }

  method ReadEntries(input: string) returns (r: Option<seq<FileEdit>>)
    ensures r == ParseEntries(input)
  {
    var files: seq<FileEdit> := [];
    var raw := input;
    assert Prepend([], ParseEntries(input)) == ParseEntries(input) by {
      if ParseEntries(input).Some? {
        assert [] + ParseEntries(input).value == ParseEntries(input).value;
      }
    }
    while |raw| > 0
      invariant ParseEntries(input) == Prepend(files, ParseEntries(raw))
      decreases |raw|
    {
      var next := NextEntry(raw);
      if next.None? {
        return None;
      }
      PrependOne(files, raw);
      files := files + [next.value.0];
      raw := next.value.1;
    }
    assert files + [] == files;
    r := Some(files);
  }

  method SortByPath(files: seq<FileEdit>) returns (r: seq<FileEdit>)
    ensures Repeats(r) <==> Repeats(Sort(files, ByPath))
    ensures !Repeats(r) ==> r == Sort(files, ByPath)
  {
    ByPathIsPreorder();
    r := SortFunc(files, ByPath);
    SortSorted(files, ByPath);
    PathOrdersAgree(r, Sort(files, ByPath));
  }

  method FindRepeat(files: seq<FileEdit>) returns (found: bool)
    ensures found <==> Repeats(files)
  {
    var i := 1;
    while i < |files|
      invariant 1 <= i
      invariant forall k :: 0 < k < i && k < |files| ==> files[k - 1].path != files[k].path
    {
      if files[i - 1].path == files[i].path {
        return true;
      }
      i := i + 1;
    }
    found := false;
  }

  method ParseEditFiles(input: string) returns (r: Result<seq<FileEdit>>)
    ensures r == ParseFiles(input)
  {
    var entries := ReadEntries(input);
    if entries.None? {
      return Err(Edits);
    }
    var files := SortByPath(entries.value);
    var repeated := FindRepeat(files);
    r := if repeated then Err(Edits) else Ok(files);
  }
}
