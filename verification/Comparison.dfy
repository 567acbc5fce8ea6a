/** Exactly when the changes between two pairs of trees correspond, are refuted, or stay open. */
module Comparison {
  import opened Model
  import opened Store
  import opened Streaming
  import opened Text
  import opened Edits
  import opened TreeFiles
  import opened TreeEdits
  import opened Correspondence
  import opened Hunks
  import opened Ordering

  // ----- one file -----

  /** An absent file and a submodule need no object; any other side needs its blob. */
  predicate SideReads(st: Objects, mode: string, id: Id) {
    mode == "000000" || mode == "160000" || id in st.blobs
  }

  predicate FileReads(st: Objects, f: FileEdit) {
    SideReads(st, f.oldMode, f.oldId) && SideReads(st, f.newMode, f.newId)
  }

  /** A submodule, a link, or a blob that holds a zero byte. */
  predicate SideIsBinary(st: Objects, mode: string, id: Id) {
    mode == "160000" || mode == "120000" || (mode != "000000" && id in st.blobs && '\0' in st.blobs[id])
  }

  /** Such a file is compared by its object IDs alone. */
  predicate ComparedWhole(st: Objects, f: FileEdit) {
    SideIsBinary(st, f.oldMode, f.oldId) || SideIsBinary(st, f.newMode, f.newId)
  }

  /** The text in which hunks are located: the blob that was read under the old ID. */
  function OldContents(st: Objects, f: FileEdit): string {
    if f.newMode != "000000" && f.newId == f.oldId && f.newId in st.blobs then st.blobs[f.newId]
    else if f.oldMode != "000000" && f.oldId in st.blobs then st.blobs[f.oldId]
    else ""
  }

  /** The patch of the file is one parsed section, of these hunks. */
  predicate HasHunks(st: Objects, before: Id, after: Id, f: FileEdit, hunks: seq<Hunk>) {
    PatchOf(st, before, after, f.path) == Ok(Parsed([hunks]))
  }

  /** Every hunk is accepted; a text that changes between two present files has at least one. */
  predicate HunksDo(st: Objects, f: FileEdit, hunks: seq<Hunk>) {
    && (forall i :: 0 <= i < |hunks| ==> RunOf(OldContents(st, f), hunks[i]).Some?)
    && (hunks != [] || f.oldId == f.newId || f.oldMode == "000000" || f.newMode == "000000")
  }

  /** The edits of a file can be stated. */
  ghost predicate Editable(st: Objects, before: Id, after: Id, f: FileEdit) {
    FileReads(st, f)
    && (ComparedWhole(st, f) || exists hunks :: HasHunks(st, before, after, f, hunks) && HunksDo(st, f, hunks))
  }

  lemma SidesRead(st: Objects, mode: string, id: Id)
    ensures ReadSide(st, mode, id).Ok? <==> SideReads(st, mode, id)
    ensures ReadSide(st, mode, id).Err? ==> ReadSide(st, mode, id).error == Unavailable
    ensures ReadSide(st, mode, id).Ok? ==> (ReadSide(st, mode, id).value.binary <==> SideIsBinary(st, mode, id))
    ensures ReadSide(st, mode, id).Ok? ==>
              ReadSide(st, mode, id).value.text ==
              if mode == "000000" || mode == "160000" then None else Some(st.blobs[id])
  {
  }

  lemma OldTextIs(st: Objects, f: FileEdit)
    requires FileReads(st, f) && !ComparedWhole(st, f)
    ensures ReadSide(st, f.oldMode, f.oldId).Ok? && ReadSide(st, f.newMode, f.newId).Ok?
    ensures OldText(f, ReadSide(st, f.oldMode, f.oldId).value, ReadSide(st, f.newMode, f.newId).value) ==
            OldContents(st, f)
  {
    hide ReadSide;
    SidesRead(st, f.oldMode, f.oldId);
    SidesRead(st, f.newMode, f.newId);
  }

  /** Which single section a patch has. */
  lemma OneSection(patch: Patch)
    ensures (exists hunks :: patch == Parsed([hunks])) <==> patch.Parsed? && |patch.files| == 1
    ensures patch.Parsed? && |patch.files| == 1 ==> patch == Parsed([patch.files[0]])
    ensures forall hunks :: patch == Parsed([hunks]) ==> patch.files[0] == hunks
  {
    if patch.Parsed? && |patch.files| == 1 {
      assert patch.files == [patch.files[0]];
    }
    forall hunks | patch == Parsed([hunks]) ensures patch.files[0] == hunks {
    }
  }

  lemma PatchRunsExactly(st: Objects, f: FileEdit, patch: Patch)
    ensures var r := PatchRuns(f, OldContents(st, f), patch);
      && (r.Ok? <==> exists hunks :: patch == Parsed([hunks]) && HunksDo(st, f, hunks))
      && (r.Err? ==> r.error == ReadError.Edits)
      && (r.Ok? ==> forall hunks :: patch == Parsed([hunks]) ==>
            RunsAre(st, f, hunks, r.value))
  {
    hide RunOf, OldContents;
    OneSection(patch);
    if patch.Parsed? && |patch.files| == 1 {
      RunsExactly(OldContents(st, f), patch.files[0]);
    }
  }

  /** The edits of a file are found exactly when both sides can be read and it is compared whole, or
      its patch is one parsed section of accepted hunks.  They are the object IDs alone, or the runs
      of those hunks.  Otherwise the edits are open where everything was read. */
  lemma FileEditsExactly(st: Objects, before: Id, after: Id, f: FileEdit)
    ensures var r := FileEdits(st, before, after, f);
      && (r.Ok? <==> Editable(st, before, after, f))
      && (r == Err(ReadError.Edits) <==>
            && FileReads(st, f) && PatchOf(st, before, after, f.path).Ok?
            && !ComparedWhole(st, f) && !Editable(st, before, after, f))
      && (r.Err? ==> r.error == ReadError.Edits || r.error == Unavailable)
      && (r.Ok? && ComparedWhole(st, f) ==> r.value == f.(binary := true))
      && (r.Ok? && !ComparedWhole(st, f) ==>
            r.value == f.(runs := r.value.runs)
            && forall hunks :: HasHunks(st, before, after, f, hunks) ==> RunsAre(st, f, hunks, r.value.runs))
  {
    hide ReadSide, SideReads, SideIsBinary, PatchRuns, OldText, OldContents, HunksDo, RunOf;
    SidesRead(st, f.oldMode, f.oldId);
    SidesRead(st, f.newMode, f.newId);
    if FileReads(st, f) && !ComparedWhole(st, f) && PatchOf(st, before, after, f.path).Ok? {
      OldTextIs(st, f);
      PatchRunsExactly(st, f, PatchOf(st, before, after, f.path).value);
    }
  }

  /** One run for each hunk. */
  predicate RunsAre(st: Objects, f: FileEdit, hunks: seq<Hunk>, runs: seq<EditRun>) {
    && |runs| == |hunks|
    && forall i :: 0 <= i < |hunks| ==> RunOf(OldContents(st, f), hunks[i]) == Some(runs[i])
  }

  // ----- two files -----

  /** The two changes of a file do the same: both replace the same object by the same object, or
      both rewrite text by the same runs. */
  ghost predicate DoSame(st: Objects, sourceBefore: Id, source: Id, before: Id, after: Id, x: FileEdit, y: FileEdit) {
    if ComparedWhole(st, x) || ComparedWhole(st, y) then
      ComparedWhole(st, x) && ComparedWhole(st, y) && x.oldId == y.oldId && x.newId == y.newId
    else
      exists runs, one, other ::
        && HasHunks(st, sourceBefore, source, x, one) && HasHunks(st, before, after, y, other)
        && RunsAre(st, x, one, runs) && RunsAre(st, y, other, runs)
  }

  /** A file as it is listed, before its edits are read. */
  predicate Unread(f: FileEdit) {
    !f.binary && f.runs == []
  }

  predicate SameName(x: FileEdit, y: FileEdit) {
    x.path == y.path && x.oldMode == y.oldMode && x.newMode == y.newMode
  }

  lemma SameFileExactly(st: Objects, sourceBefore: Id, source: Id, before: Id, after: Id, x: FileEdit, y: FileEdit)
    requires Unread(x) && Unread(y) && SameName(x, y)
    requires Editable(st, sourceBefore, source, x) && Editable(st, before, after, y)
    ensures FileEdits(st, sourceBefore, source, x).Ok? && FileEdits(st, before, after, y).Ok?
    ensures SameFileEdit(FileEdits(st, sourceBefore, source, x).value, FileEdits(st, before, after, y).value) <==>
            DoSame(st, sourceBefore, source, before, after, x, y)
  {
    hide FileEdits, ComparedWhole, HunksDo, RunOf, FileReads, OldContents, PatchOf;
    FileEditsExactly(st, sourceBefore, source, x);
    FileEditsExactly(st, before, after, y);
    var a, b := FileEdits(st, sourceBefore, source, x).value, FileEdits(st, before, after, y).value;
    if !ComparedWhole(st, x) && !ComparedWhole(st, y) {
      var one :| HasHunks(st, sourceBefore, source, x, one);
      var other :| HasHunks(st, before, after, y, other);
      assert RunsAre(st, x, one, a.runs) && RunsAre(st, y, other, b.runs);
      forall runs, u, w | HasHunks(st, sourceBefore, source, x, u) && HasHunks(st, before, after, y, w)
          && RunsAre(st, x, u, runs) && RunsAre(st, y, w, runs)
        ensures a.runs == b.runs
      {
        RunsUnique(st, x, u, runs, a.runs);
        RunsUnique(st, y, w, runs, b.runs);
      }
    }
  }

  lemma RunsUnique(st: Objects, f: FileEdit, hunks: seq<Hunk>, one: seq<EditRun>, other: seq<EditRun>)
    requires RunsAre(st, f, hunks, one) && RunsAre(st, f, hunks, other)
    ensures one == other
  {
    hide RunOf, OldContents;
    forall i | 0 <= i < |hunks| ensures one[i] == other[i] {
      assert Some(one[i]) == Some(other[i]);
    }
  }

  // ----- whole trees -----

  predicate SameNames(a: seq<FileEdit>, b: seq<FileEdit>) {
    |a| == |b| && forall i :: 0 <= i < |a| ==> SameName(a[i], b[i])
  }

  /** The edits of every listed file can be stated. */
  ghost predicate AllEditable(st: Objects, before: Id, after: Id, files: seq<FileEdit>) {
    forall i :: 0 <= i < |files| ==> Editable(st, before, after, files[i])
  }

  ghost predicate AllDoSame(st: Objects, sourceBefore: Id, source: Id, before: Id, after: Id,
                            a: seq<FileEdit>, b: seq<FileEdit>)
    requires |a| == |b|
  {
    forall i :: 0 <= i < |a| ==> DoSame(st, sourceBefore, source, before, after, a[i], b[i])
  }

  lemma {:induction false} EntriesUnread(raw: string)
    ensures ParseEntries(raw).Some? ==> forall f :: f in ParseEntries(raw).value ==> Unread(f)
    decreases |raw|
  {
    hide Fields;
    if raw != "" && NextEntry(raw).Some? {
      EntriesUnread(NextEntry(raw).value.1);
    }
  }

  lemma ListedUnread(st: Objects, before: Id, after: Id)
    ensures FilesOf(st, before, after).Ok? ==>
              forall i :: 0 <= i < |FilesOf(st, before, after).value| ==> Unread(FilesOf(st, before, after).value[i])
  {
    hide ParseEntries, NextEntry;
    if RawDiff(st, before, after).Ok? && ParseEntries(RawDiff(st, before, after).value).Some? {
      var raw := RawDiff(st, before, after).value;
      EntriesUnread(raw);
      if FilesOf(st, before, after).Ok? {
        MembersOfPermutation(FilesOf(st, before, after).value, ParseEntries(raw).value);
      }
    }
  }

  lemma {:induction false} PairsExactly(st: Objects, sourceBefore: Id, source: Id, before: Id, after: Id,
                                       a: seq<FileEdit>, b: seq<FileEdit>)
    requires |a| == |b|
    ensures var r := EditPairs(st, sourceBefore, source, before, after, a, b);
      && (r.Ok? <==> AllEditable(st, sourceBefore, source, a) && AllEditable(st, before, after, b))
      && r != Err(ReadError.Correspondence)
  {
    hide Editable, FileEdits;
    if a != [] {
      FileEditsExactly(st, sourceBefore, source, a[0]);
      FileEditsExactly(st, before, after, b[0]);
      EditsNeverRefute(st, sourceBefore, source, a[0]);
      EditsNeverRefute(st, before, after, b[0]);
      PairsExactly(st, sourceBefore, source, before, after, a[1..], b[1..]);
      assert forall i :: 0 < i < |a| ==> a[i] == a[1..][i - 1] && b[i] == b[1..][i - 1];
    }
  }

  lemma PairsSame(st: Objects, sourceBefore: Id, source: Id, before: Id, after: Id, a: seq<FileEdit>, b: seq<FileEdit>)
    requires SameNames(a, b) && (forall i :: 0 <= i < |a| ==> Unread(a[i]) && Unread(b[i]))
    requires AllEditable(st, sourceBefore, source, a) && AllEditable(st, before, after, b)
    ensures var r := EditPairs(st, sourceBefore, source, before, after, a, b);
      r.Ok? && (SameEdits(r.value.0, r.value.1) <==> AllDoSame(st, sourceBefore, source, before, after, a, b))
  {
    hide Editable, FileEdits, DoSame, EditPairs, SameFileEdit, Unread, SameName;
    PairsExactly(st, sourceBefore, source, before, after, a, b);
    var pair := EditPairs(st, sourceBefore, source, before, after, a, b).value;
    if |a| > 0 {
      PairsAt(st, sourceBefore, source, before, after, a, b, 0);
    } else {
      NoPairs(st, sourceBefore, source, before, after, a, b);
    }
    forall i | 0 <= i < |a|
      ensures |pair.0| == |pair.1| == |a|
      ensures SameFileEdit(pair.0[i], pair.1[i]) <==> DoSame(st, sourceBefore, source, before, after, a[i], b[i])
    {
      PairsAt(st, sourceBefore, source, before, after, a, b, i);
      SameFileExactly(st, sourceBefore, source, before, after, a[i], b[i]);
    }
  }

  lemma NoPairs(st: Objects, sourceBefore: Id, source: Id, before: Id, after: Id, a: seq<FileEdit>, b: seq<FileEdit>)
    requires a == [] && b == []
    ensures EditPairs(st, sourceBefore, source, before, after, a, b) == Ok(([], []))
  {
  }

  /** Two changes correspond exactly when both are listed, name the same nonempty files between the
      same modes, all edits can be stated, and each pair of files does the same.  They are refuted
      exactly when the names differ, or all edits can be stated and some pair does not do the same. */
  lemma ComparedExactly(st: Objects, sourceBefore: Id, source: Id, before: Id, after: Id)
    ensures var r := CompareTrees(st, sourceBefore, source, before, after);
      var one, other := FilesOf(st, sourceBefore, source), FilesOf(st, before, after);
      && (r.Ok? <==>
          && one.Ok? && other.Ok? && one.value != [] && SameNames(one.value, other.value)
          && AllEditable(st, sourceBefore, source, one.value) && AllEditable(st, before, after, other.value)
          && AllDoSame(st, sourceBefore, source, before, after, one.value, other.value))
      && (r == Err(ReadError.Correspondence) <==>
          && one.Ok? && other.Ok?
          && (SameNames(one.value, other.value) ==>
              && one.value != []
              && AllEditable(st, sourceBefore, source, one.value) && AllEditable(st, before, after, other.value)
              && !AllDoSame(st, sourceBefore, source, before, after, one.value, other.value)))
  {
    hide FilesOf, EditPairs, AllEditable, AllDoSame, SameNames, SameInventory, SameEdits, Unread;
    ListingNeverRefutes(st, sourceBefore, source);
    ListingNeverRefutes(st, before, after);
    ListedUnread(st, sourceBefore, source);
    ListedUnread(st, before, after);
    if FilesOf(st, sourceBefore, source).Ok? && FilesOf(st, before, after).Ok? {
      var a, b := FilesOf(st, sourceBefore, source).value, FilesOf(st, before, after).value;
      InventoriesAre(a, b);
      if SameInventory(a, b) {
        PairsExactly(st, sourceBefore, source, before, after, a, b);
        if AllEditable(st, sourceBefore, source, a) && AllEditable(st, before, after, b) {
          PairsSame(st, sourceBefore, source, before, after, a, b);
        }
      }
    }
  }

  lemma InventoriesAre(a: seq<FileEdit>, b: seq<FileEdit>)
    ensures SameInventory(a, b) <==> SameNames(a, b)
    ensures SameNames(a, b) ==> |a| == |b|
  {
  }

  // ----- equal changes -----

  /** A file whose text is rewritten line by line: its patch is one section of hunks that replace
      lines of the old text, each of them at the only place where it can apply. */
  ghost predicate LineEdited(st: Objects, before: Id, after: Id, f: FileEdit) {
    exists hunks :: HasHunks(st, before, after, f, hunks)
      && (hunks != [] || f.oldId == f.newId || f.oldMode == "000000" || f.newMode == "000000")
      && forall i :: 0 <= i < |hunks| ==> AppliesOnce(OldContents(st, f), hunks[i])
  }

  ghost predicate AppliesOnce(original: string, h: Hunk) {
    exists m: nat, n: nat, added ::
      && m <= n <= |LinesOf(original)| && h == LineHunk(original, m, n, added)
      && if m < n then OccursOnce(original, Concat(LinesOf(original)[m..n]))
         else original == "" || OccursOnce(original, Neighbours(original, m))
  }

  lemma LineEditedIsEditable(st: Objects, before: Id, after: Id, f: FileEdit)
    requires FileReads(st, f) && (ComparedWhole(st, f) || LineEdited(st, before, after, f))
    ensures Editable(st, before, after, f)
  {
    hide FileReads, ComparedWhole, OldContents, AppliesOnce, RunOf;
    if !ComparedWhole(st, f) {
      var hunks :| HasHunks(st, before, after, f, hunks)
        && (hunks != [] || f.oldId == f.newId || f.oldMode == "000000" || f.newMode == "000000")
        && forall i :: 0 <= i < |hunks| ==> AppliesOnce(OldContents(st, f), hunks[i]);
      forall i | 0 <= i < |hunks| ensures RunOf(OldContents(st, f), hunks[i]).Some? {
        AppliedOnce(OldContents(st, f), hunks[i]);
      }
      assert HunksDo(st, f, hunks);
    }
  }

  lemma AppliedOnce(original: string, h: Hunk)
    requires AppliesOnce(original, h)
    ensures RunOf(original, h).Some?
  {
    hide RunOf, OccursOnce, LineHunk, Neighbours, LinesOf;
    var m: nat, n: nat, added :|
      && m <= n <= |LinesOf(original)| && h == LineHunk(original, m, n, added)
      && if m < n then OccursOnce(original, Concat(LinesOf(original)[m..n]))
         else original == "" || OccursOnce(original, Neighbours(original, m));
    LineHunkAccepted(original, m, n, added);
  }

  /** Equal changes whose objects can be read and whose texts are edited line by line, each hunk at
      the only place where it can apply, always correspond. */
  lemma SameChangeCorresponds(st: Objects, sourceBefore: Id, source: Id, before: Id, after: Id)
    requires FilesOf(st, sourceBefore, source).Ok? && FilesOf(st, before, after) == FilesOf(st, sourceBefore, source)
    requires FilesOf(st, before, after).value != []
    requires forall f :: f in FilesOf(st, before, after).value ==>
               && FileReads(st, f) && PatchOf(st, sourceBefore, source, f.path) == PatchOf(st, before, after, f.path)
               && (ComparedWhole(st, f) || LineEdited(st, before, after, f))
    ensures CompareTrees(st, sourceBefore, source, before, after).Ok?
  {
    hide FilesOf, FileReads, ComparedWhole, LineEdited, CompareTrees, Editable;
    var files := FilesOf(st, before, after).value;
    ComparedExactly(st, sourceBefore, source, before, after);
    forall i | 0 <= i < |files|
      ensures Editable(st, before, after, files[i]) && Editable(st, sourceBefore, source, files[i])
      ensures DoSame(st, sourceBefore, source, before, after, files[i], files[i])
    {
      assert files[i] in files;
      LineEditedIsEditable(st, before, after, files[i]);
      DoesSame(st, sourceBefore, source, before, after, files[i]);
    }
  }

  lemma DoesSame(st: Objects, sourceBefore: Id, source: Id, before: Id, after: Id, f: FileEdit)
    requires PatchOf(st, sourceBefore, source, f.path) == PatchOf(st, before, after, f.path)
    requires Editable(st, before, after, f)
    ensures Editable(st, sourceBefore, source, f) && DoSame(st, sourceBefore, source, before, after, f, f)
  {
    hide FileReads, ComparedWhole, PatchOf, OldContents, RunOf;
    if !ComparedWhole(st, f) {
      var hunks :| HasHunks(st, before, after, f, hunks) && HunksDo(st, f, hunks);
      assert HasHunks(st, sourceBefore, source, f, hunks);
      RunsExactly(OldContents(st, f), hunks);
      var runs := RunsOf(OldContents(st, f), hunks).value;
      assert RunsAre(st, f, hunks, runs);
    }
  }
}
