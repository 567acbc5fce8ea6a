/** Edit correspondence: two trees' changes are compared as runs of removed and added bytes,
    with the offsets dropped. */
module Edits {
  import opened Model
  import opened Store
  import opened Streaming
  import opened Text

  /** Where an insertion sits: its neighbouring old lines. */
  datatype Anchor = Anchor(before: string, after: string, atStart: bool, atEnd: bool)

  datatype EditRun = EditRun(removed: string, added: string, anchor: Anchor)

  datatype FileEdit = FileEdit(path: string, oldMode: string, newMode: string, oldId: Id, newId: Id,
                               binary: bool, runs: seq<EditRun>)

  const NO_ANCHOR := Anchor("", "", false, false)
  const ABSENT := "000000"
  const SYMLINK := "120000"
  const SUBMODULE := "160000"

  predicate EditMode(mode: string) {
    mode == ABSENT || mode == "100644" || mode == "100755" || mode == SYMLINK || mode == SUBMODULE
  }

  // ----- comparing edits -----

  predicate SameInventory(a: seq<FileEdit>, b: seq<FileEdit>) {
    |a| == |b| && forall i :: 0 <= i < |a| ==>
      a[i].path == b[i].path && a[i].oldMode == b[i].oldMode && a[i].newMode == b[i].newMode
  }

  predicate SameFileEdit(a: FileEdit, b: FileEdit) {
    && a.path == b.path && a.oldMode == b.oldMode && a.newMode == b.newMode && a.binary == b.binary
    && (if a.binary then a.oldId == b.oldId && a.newId == b.newId else a.runs == b.runs)
  }

  predicate SameEdits(a: seq<FileEdit>, b: seq<FileEdit>) {
    |a| == |b| && forall i :: 0 <= i < |a| ==> SameFileEdit(a[i], b[i])
  }

  // ----- one hunk -----

  /** The two sides of a hunk body read so far, and the line counts. */
  datatype Sides = Sides(removed: string, added: string, oldLines: nat, newLines: nat)

  /** One body line, whose text ends at offset `end`; an old last line may lack its newline. */
  function SideLine(h: Hunk, line: string, end: nat, s: Sides): Option<Sides>
    requires |line| > 0
  {
    var content := line[1..];
    if line[0] == '-' then
      var kept := if end == h.oldNoNewlineAt && content != "" && content[|content| - 1] == '\n'
                  then content[..|content| - 1] else content;
      Some(s.(removed := s.removed + kept, oldLines := s.oldLines + 1))
    else if line[0] == '+' then
      Some(s.(added := s.added + content, newLines := s.newLines + 1))
    else None
  }

  function HunkSides(h: Hunk, lines: seq<string>, offset: nat, s: Sides): Option<Sides>
    requires forall i :: 0 <= i < |lines| ==> |lines[i]| > 0
    decreases |lines|
  {
    if lines == [] then Some(s)
    else
      var end := offset + |lines[0]|;
      var next := SideLine(h, lines[0], end, s);
      if next.None? then None else HunkSides(h, lines[1..], end, next.value)
  }

  lemma HunkStep(h: Hunk, rest: string, offset: nat, s: Sides)
    requires rest != ""
    ensures var line := LeadingLine(rest);
            var next := SideLine(h, line, offset + |line|, s);
            HunkSides(h, LinesOf(rest), offset, s) ==
            if next.None? then None
            else HunkSides(h, LinesOf(rest[|line|..]), offset + |line|, next.value)
  {
    var line, lines := LeadingLine(rest), LinesOf(rest);
    assert lines[0] == line && lines[1..] == LinesOf(rest[|line|..]);
  }

  function EditHunk(h: Hunk): Option<EditRun> {
    var sides := HunkSides(h, LinesOf(h.body), 0, Sides("", "", 0, 0));
    if sides.None? || sides.value.oldLines != h.oldLines || sides.value.newLines != h.newLines then None
    else Some(EditRun(sides.value.removed, sides.value.added, NO_ANCHOR))
  }

  /** `insertionSite`: pin an insertion after line `position` to its neighbourhood. */
  function InsertionSite(original: string, position: int): Option<Anchor> {
    var lines := LinesOf(original);
    if position < 0 || position > |lines| then None
    else
      var before := if position > 0 then lines[position - 1] else "";
      var after := if position < |lines| then lines[position] else "";
      if original != "" && !UniqueBytes(original, before + after) then None
      else Some(Anchor(before, after, position == 0, position == |lines|))
  }

  /** One hunk of `fileEdits`: removed bytes must occur once, an insertion must have a site. */
  function RunOf(original: string, h: Hunk): Option<EditRun> {
    var run := EditHunk(h);
    if run.None? then None
    else if run.value.removed != "" then
      if UniqueBytes(original, run.value.removed) then run else None
    else
      var site := InsertionSite(original, h.oldStart);
      if site.None? then None else Some(run.value.(anchor := site.value))
  }

  function RunsOf(original: string, hunks: seq<Hunk>): (r: Option<seq<EditRun>>)
    ensures r.Some? ==> |r.value| == |hunks|
    ensures r.Some? ==> forall i :: 0 <= i < |hunks| ==> RunOf(original, hunks[i]) == Some(r.value[i])
  {
    if hunks == [] then Some([])
    else
      var first := RunOf(original, hunks[0]);
      if first.None? then None
      else
        var rest := RunsOf(original, hunks[1..]);
        if rest.None? then None else Some([first.value] + rest.value)
  }

  // ----- what a hunk list does to the old text -----

  datatype Change = Change(at: int, removed: string, added: string)

  /** The first old line a hunk covers; an insertion comes after line `oldStart`. */
  function FirstLine(h: Hunk): int {
    if h.oldLines == 0 then h.oldStart else h.oldStart - 1
  }

  /** A hunk of a genuine patch: its removed text is the old text of the lines it names. */
  ghost predicate Fits(original: string, h: Hunk) {
    var lines := LinesOf(original);
    && 0 <= FirstLine(h) && 0 <= h.oldLines && FirstLine(h) + h.oldLines <= |lines|
    && EditHunk(h).Some?
    && EditHunk(h).value.removed == Concat(lines[FirstLine(h)..FirstLine(h) + h.oldLines])
  }

  ghost function ChangeOf(original: string, h: Hunk): Change
    requires Fits(original, h)
  {
    Change(LineOffset(original, FirstLine(h)), EditHunk(h).value.removed, EditHunk(h).value.added)
  }

  ghost function ChangesOf(original: string, hunks: seq<Hunk>): seq<Change>
    requires forall h :: h in hunks ==> Fits(original, h)
  {
    seq(|hunks|, i requires 0 <= i < |hunks| => ChangeOf(original, hunks[i]))
  }

  /** Rewrite the old text by a list of changes, copying what lies between them. */
  ghost function Apply(original: string, from: int, changes: seq<Change>): string
    decreases |changes|
  {
    if changes == [] then (if 0 <= from <= |original| then original[from..] else "")
    else
      var c := changes[0];
      (if 0 <= from <= c.at <= |original| then original[from..c.at] else "")
      + c.added + Apply(original, c.at + |c.removed|, changes[1..])
  }

  // ----- the offset-free form determines the change -----

  /** The only place at which a run can apply. */
  function Place(original: string, run: EditRun): int {
    if run.removed != "" then Index(original, run.removed)
    else if original == "" then 0
    else Index(original, run.anchor.before + run.anchor.after) + |run.anchor.before|
  }

  function Replay(original: string, runs: seq<EditRun>): seq<Change> {
    seq(|runs|, i requires 0 <= i < |runs| => Change(Place(original, runs[i]), runs[i].removed, runs[i].added))
  }

  /** The neighbourhood of an insertion is a stretch of the old text around its line. */
  lemma NeighbourhoodOccurs(original: string, position: nat, before: string, after: string)
    requires position <= |LinesOf(original)|
    requires before == if position > 0 then LinesOf(original)[position - 1] else ""
    requires after == if position < |LinesOf(original)| then LinesOf(original)[position] else ""
    ensures |before| <= LineOffset(original, position)
    ensures OccursAt(original, before + after, LineOffset(original, position) - |before|)
  {
    hide LinesOf, OccursAt, Concat;
    ConcatNone();
    var lines := LinesOf(original);
    var m := if position > 0 then position - 1 else position;
    var n := if position < |lines| then position + 1 else position;
    assert lines[m..n] == lines[m..position] + lines[position..n];
    ConcatAppend(lines[m..position], lines[position..n]);
    assert Concat(lines[m..position]) == before by {
      ConcatOne(before);
      assert lines[m..position] == if position > 0 then [before] else [];
    }
    assert Concat(lines[position..n]) == after by {
      ConcatOne(after);
      assert lines[position..n] == if position < |lines| then [after] else [];
    }
    LinesOccur(original, m, n);
    LinesOccur(original, m, position);
  }

  lemma InsertionPlace(original: string, position: int, site: Anchor)
    requires InsertionSite(original, position) == Some(site)
    ensures 0 <= position <= |LinesOf(original)|
    ensures original != "" ==>
              Index(original, site.before + site.after) + |site.before| == LineOffset(original, position)
    ensures original == "" ==> LineOffset(original, position) == 0
  {
    if original != "" {
      NeighbourhoodOccurs(original, position, site.before, site.after);
      UniqueBytesMeansOnce(original, site.before + site.after);
    }
  }

  lemma ConcatNone()
    ensures Concat([]) == ""
  {
  }

  lemma ConcatOne(line: string)
    ensures Concat([line]) == line
  {
    assert Concat([line]) == line + Concat([]);
    assert line + "" == line;
  }

  lemma {:induction false} NonEmptyLines(lines: seq<string>)
    requires lines != [] && |lines[0]| > 0
    ensures Concat(lines) != ""
  {
    assert Concat(lines) == lines[0] + Concat(lines[1..]);
  }

  lemma RemovalPlace(original: string, h: Hunk)
    requires Fits(original, h) && UniqueBytes(original, EditHunk(h).value.removed)
    ensures Index(original, EditHunk(h).value.removed) == LineOffset(original, FirstLine(h))
  {
    LinesOccur(original, FirstLine(h), FirstLine(h) + h.oldLines);
    UniqueBytesMeansOnce(original, EditHunk(h).value.removed);
  }

  lemma RemovalIsNotEmpty(original: string, h: Hunk)
    requires Fits(original, h) && h.oldLines > 0
    ensures EditHunk(h).value.removed != ""
  {
    NonEmptyLines(LinesOf(original)[FirstLine(h)..FirstLine(h) + h.oldLines]);
  }

  lemma RunPlace(original: string, h: Hunk, run: EditRun)
    requires Fits(original, h) && RunOf(original, h) == Some(run)
    ensures Change(Place(original, run), run.removed, run.added) == ChangeOf(original, h)
  {
    if run.removed != "" {
      RemovalPlace(original, h);
    } else {
      if h.oldLines > 0 {
        RemovalIsNotEmpty(original, h);
      }
      InsertionPlace(original, h.oldStart, run.anchor);
    }
  }

  /** Dropping the offsets loses nothing: for a genuine hunk list that passes the uniqueness
      checks, replaying the runs performs exactly the changes of the hunks. */
  lemma RunsDetermineChanges(original: string, hunks: seq<Hunk>, runs: seq<EditRun>)
    requires forall h :: h in hunks ==> Fits(original, h)
    requires RunsOf(original, hunks) == Some(runs)
    ensures Replay(original, runs) == ChangesOf(original, hunks)
  {
    forall i | 0 <= i < |hunks| ensures Replay(original, runs)[i] == ChangesOf(original, hunks)[i] {
      RunPlace(original, hunks[i], runs[i]);
    }
  }

  /** Two patches of one text that are accepted with equal runs rewrite it to the same text. */
  lemma EqualRunsEqualTexts(original: string, one: seq<Hunk>, other: seq<Hunk>)
    requires forall h :: h in one ==> Fits(original, h)
    requires forall h :: h in other ==> Fits(original, h)
    requires RunsOf(original, one).Some? && RunsOf(original, one) == RunsOf(original, other)
    ensures forall i :: 0 <= i < |one| ==> ChangesOf(original, one)[i].at == ChangesOf(original, other)[i].at
    ensures Apply(original, 0, ChangesOf(original, one)) == Apply(original, 0, ChangesOf(original, other))
  {
    RunsDetermineChanges(original, one, RunsOf(original, one).value);
    RunsDetermineChanges(original, other, RunsOf(original, one).value);
  }
}
