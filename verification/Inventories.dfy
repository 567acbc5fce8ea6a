/** Printing an inventory of changed files and parsing it again. */
module Inventories {
  import opened Model
  import opened Streaming
  import opened Ordering
  import opened Edits
  import opened TreeFiles

  predicate Word(s: string) {
    s != "" && forall i :: 0 <= i < |s| ==> !Space(s[i]) && s[i] != '\0'
  }

  /** An entry that Git can print: a regular mode on each side, full object names, a path. */
  predicate Printable(f: FileEdit) {
    && EditMode(f.oldMode) && EditMode(f.newMode) && ObjectId(f.oldId) && ObjectId(f.newId)
    && f.path != "" && '\0' !in f.path && !f.binary && f.runs == []
  }

  predicate Status(s: string) {
    s == "A" || s == "D" || s == "M" || s == "T"
  }

  function Header(f: FileEdit, status: string): string {
    ":" + f.oldMode + (" " + (f.newMode + (" " + (f.oldId + (" " + (f.newId + (" " + status)))))))
  }

  function PrintEntry(f: FileEdit, status: string): string {
    Header(f, status) + ['\0'] + f.path + ['\0']
  }

  function PrintFiles(files: seq<FileEdit>, statuses: seq<string>): string
    requires |files| == |statuses|
  {
    if files == [] then "" else PrintEntry(files[0], statuses[0]) + PrintFiles(files[1..], statuses[1..])
  }

  lemma WordEnds(w: string, rest: string)
    requires Word(w) && (rest == "" || Space(rest[0]))
    ensures WordEnd(w + rest) == |w| && SkipSpaces(w + rest) == w + rest
  {
    assert (w + rest)[0] == w[0];
    forall i | 0 <= i < |w| ensures !Space((w + rest)[i]) {
      assert (w + rest)[i] == w[i];
    }
    assert rest != "" ==> (w + rest)[|w|] == rest[0];
  }

  /** The first word, then the rest after one space. */
  lemma FieldsCons(w: string, rest: string)
    requires Word(w)
    ensures Fields(w + (" " + rest)) == [w] + Fields(rest)
  {
    WordEnds(w, " " + rest);
    assert (w + (" " + rest))[|w|..] == " " + rest && (w + (" " + rest))[..|w|] == w;
    assert (" " + rest)[1..] == rest;
    assert SkipSpaces(" " + rest) == SkipSpaces(rest);
  }

  lemma FieldsOne(w: string)
    requires Word(w)
    ensures Fields(w) == [w]
  {
    WordEnds(w, "");
    assert w + "" == w && w[|w|..] == "" && w[..|w|] == w;
    assert Fields("") == [];
  }

  lemma NamesAreWords(f: FileEdit)
    requires Printable(f)
    ensures Word(":" + f.oldMode) && Word(f.newMode) && Word(f.oldId) && Word(f.newId)
  {
    ModeIsWord(f.oldMode);
    ModeIsWord(f.newMode);
    IdIsWord(f.oldId);
    IdIsWord(f.newId);
    assert forall i :: 0 < i < |":" + f.oldMode| ==> (":" + f.oldMode)[i] == f.oldMode[i - 1];
  }

  lemma ModeIsWord(mode: string)
    requires EditMode(mode)
    ensures Word(mode)
  {
  }

  lemma IdIsWord(id: string)
    requires ObjectId(id)
    ensures Word(id)
  {
    forall i | 0 <= i < |id| ensures !Space(id[i]) && id[i] != '\0' {
      assert id[i] in id;
    }
  }

  lemma HeaderFields(f: FileEdit, status: string)
    requires Printable(f) && Status(status)
    ensures Fields(Header(f, status)) == [":" + f.oldMode, f.newMode, f.oldId, f.newId, status]
    ensures '\0' !in Header(f, status)
  {
    hide *;
    var s3 := f.newId + (" " + status);
    var s2 := f.oldId + (" " + s3);
    var s1 := f.newMode + (" " + s2);
    NamesAreWords(f);
    StatusIsWord(status);
    FieldsOne(status);
    FieldsCons(f.newId, status);
    FieldsCons(f.oldId, s3);
    FieldsCons(f.newMode, s2);
    FieldsCons(":" + f.oldMode, s1);
    WordsJoin(f.newId, status);
    WordsJoin(f.oldId, s3);
    WordsJoin(f.newMode, s2);
    WordsJoin(":" + f.oldMode, s1);
    HeaderIs(f, status, s1, s2, s3);
  }

  lemma HeaderIs(f: FileEdit, status: string, s1: string, s2: string, s3: string)
    requires s3 == f.newId + (" " + status) && s2 == f.oldId + (" " + s3) && s1 == f.newMode + (" " + s2)
    ensures Header(f, status) == (":" + f.oldMode) + (" " + s1)
  {
  }

  lemma StatusIsWord(status: string)
    requires Status(status)
    ensures Word(status) && '\0' !in status
  {
  }

  lemma WordsJoin(w: string, rest: string)
    requires Word(w) && '\0' !in rest
    ensures '\0' !in w + (" " + rest)
  {
    forall i | 0 <= i < |w + (" " + rest)| ensures (w + (" " + rest))[i] != '\0' {
      if i > |w| {
        assert (w + (" " + rest))[i] == rest[i - |w| - 1];
      }
    }
  }

  lemma CutAt(head: string, tail: string)
    requires '\0' !in head
    ensures IndexOf(head + ['\0'] + tail, '\0') == |head|
    ensures (head + ['\0'] + tail)[..|head|] == head && (head + ['\0'] + tail)[|head| + 1..] == tail
  {
    var all := head + ['\0'] + tail;
    var i := IndexOf(all, '\0');
    assert all[|head|] == '\0' && all[..|head|] == head;
    forall k | 0 <= k < |head| ensures all[k] != '\0' {
      assert all[k] == head[k] && head[k] in head;
    }
    forall k | 0 <= k < i ensures all[k] != '\0' {
      assert all[..i][k] == all[k];
    }
  }

  lemma EntryRoundTrip(f: FileEdit, status: string, rest: string)
    requires Printable(f) && Status(status)
    ensures NextEntry(PrintEntry(f, status) + rest) == Some((f, rest))
  {
    hide EditMode, ObjectId, Fields, Header, IndexOf;
    var header := Header(f, status);
    HeaderFields(f, status);
    var tail := f.path + ['\0'] + rest;
    assert PrintEntry(f, status) + rest == header + ['\0'] + tail;
    CutAt(header, tail);
    CutAt(f.path, rest);
    EntryParsed(f, status);
  }

  lemma EntryParsed(f: FileEdit, status: string)
    requires Printable(f) && Status(status)
    ensures ParseEntry(Header(f, status), f.path) == Some(f)
  {
    hide EditMode, ObjectId, Fields, Header;
    HeaderFields(f, status);
    assert (":" + f.oldMode)[1..] == f.oldMode;
  }

  lemma {:induction false} EntriesRoundTrip(files: seq<FileEdit>, statuses: seq<string>)
    requires |files| == |statuses|
    requires forall i :: 0 <= i < |files| ==> Printable(files[i]) && Status(statuses[i])
    ensures ParseEntries(PrintFiles(files, statuses)) == Some(files)
  {
    hide Printable, Status, NextEntry, PrintEntry;
    if files != [] {
      EntryRoundTrip(files[0], statuses[0], PrintFiles(files[1..], statuses[1..]));
      EntryNotEmpty(files[0], statuses[0]);
      EntriesRoundTrip(files[1..], statuses[1..]);
      assert files == [files[0]] + files[1..];
    }
  }

  lemma EntryNotEmpty(f: FileEdit, status: string)
    ensures PrintEntry(f, status) != ""
  {
    assert |PrintEntry(f, status)| >= 2;
  }

  /** However the entries are ordered, they come back once each in path order; a path that
      appears twice is refused. */
  lemma FilesRoundTrip(files: seq<FileEdit>, statuses: seq<string>)
    requires |files| == |statuses|
    requires forall i :: 0 <= i < |files| ==> Printable(files[i]) && Status(statuses[i])
    ensures var r := ParseFiles(PrintFiles(files, statuses));
      && (r.Ok? <==> Distinct(Map(files, PathOf)))
      && (r.Ok? ==> multiset(r.value) == multiset(files) && SortedBy(r.value, ByPath))
  {
    hide Printable, Status;
    EntriesRoundTrip(files, statuses);
    ByPathIsPreorder();
    SortSorted(files, ByPath);
    RepeatsAreNeighbours(Sort(files, ByPath));
    MapPermutation(files, Sort(files, ByPath), PathOf);
    DistinctPermutation(Map(files, PathOf), Map(Sort(files, ByPath), PathOf));
  }

  // ----- which entries are accepted -----

  /** The file modes that Git prints in such an inventory. */
  predicate ModeName(s: string) {
    s == "000000" || s == "100644" || s == "100755" || s == "120000" || s == "160000"
  }

  predicate IdName(s: string) {
    (|s| == 40 || |s| == 64) && forall k :: 0 <= k < |s| ==> '0' <= s[k] <= '9' || 'a' <= s[k] <= 'f'
  }

  /** Five words with a space between each two. */
  function FiveWords(a: string, b: string, c: string, d: string, e: string): string {
    a + (" " + (b + (" " + (c + (" " + (d + (" " + e)))))))
  }

  lemma FiveFields(a: string, b: string, c: string, d: string, e: string)
    requires Word(a) && Word(b) && Word(c) && Word(d) && Word(e)
    ensures Fields(FiveWords(a, b, c, d, e)) == [a, b, c, d, e]
    ensures '\0' !in FiveWords(a, b, c, d, e)
  {
    hide Word, Fields;
    var s3 := d + (" " + e);
    var s2 := c + (" " + s3);
    var s1 := b + (" " + s2);
    FieldsOne(e);
    FieldsCons(d, e);
    FieldsCons(c, s3);
    FieldsCons(b, s2);
    FieldsCons(a, s1);
    WordIsClean(e);
    WordsJoin(d, e);
    WordsJoin(c, s3);
    WordsJoin(b, s2);
    WordsJoin(a, s1);
  }

  lemma WordIsClean(w: string)
    requires Word(w)
    ensures '\0' !in w && w != ""
  {
  }

  /** An entry of five words and a path is accepted exactly when it has a path, a colon before the old
      mode, two known modes, two full object names and a known status; it is then the change of that
      path between those modes and objects. */
  lemma EntryExactly(a: string, b: string, c: string, d: string, e: string, path: string, rest: string)
    requires Word(a) && Word(b) && Word(c) && Word(d) && Word(e) && '\0' !in path
    ensures var r := NextEntry(FiveWords(a, b, c, d, e) + ['\0'] + path + ['\0'] + rest);
      && (r.Some? <==>
          && path != "" && a[0] == ':' && ModeName(a[1..]) && ModeName(b) && IdName(c) && IdName(d)
          && (e == "A" || e == "D" || e == "M" || e == "T"))
      && (r.Some? ==> r.value == (FileEdit(path, a[1..], b, c, d, false, []), rest))
  {
    hide Word, Fields, IndexOf, FiveWords, EditMode, ObjectId, ModeName, IdName;
    var header, tail := FiveWords(a, b, c, d, e), path + ['\0'] + rest;
    FiveFields(a, b, c, d, e);
    WordIsClean(a);
    assert header + ['\0'] + path + ['\0'] + rest == header + ['\0'] + tail;
    CutAt(header, tail);
    CutAt(path, rest);
    NamesExactly(a[1..], c);
    NamesExactly(b, d);
  }

  lemma NamesExactly(mode: string, id: string)
    ensures EditMode(mode) <==> ModeName(mode)
    ensures ObjectId(id) <==> IdName(id)
  {
    forall k | 0 <= k < |id| ensures id[k] in id {
    }
  }
}
