/** What accepted edit correspondence says about the two trees. */
module Correspondence {
  import opened Model
  import opened Store
  import opened Edits
  import opened TreeEdits

  /** The file's text on one side of a change; an absent file has none. */
  function TextOf(st: Objects, mode: string, id: Id): string {
    if mode == ABSENT || id !in st.blobs then "" else st.blobs[id]
  }

  /** The hunks turn the old text into the new one, each naming the old lines it removes. */
  ghost predicate Genuine(original: string, rewritten: string, hunks: seq<Hunk>) {
    && (forall h :: h in hunks ==> Fits(original, h))
    && Apply(original, 0, ChangesOf(original, hunks)) == rewritten
  }

  /** A side that is a text, so that hunks can be located in it: not a submodule, whose patch
      names commits, and not an object that cannot be read. */
  predicate HasText(st: Objects, mode: string, id: Id) {
    mode == ABSENT || (mode != SUBMODULE && id in st.blobs)
  }

  /** Git's side: between two texts a patch of one section turns the one into the other, and an
      absent file has an object name of its own. */
  ghost predicate GenuinePatch(st: Objects, before: Id, after: Id, f: FileEdit) {
    && (f.oldMode == ABSENT ==> f.oldId != f.newId)
    && (PatchOf(st, before, after, f.path).Ok? && HasText(st, f.oldMode, f.oldId) && HasText(st, f.newMode, f.newId) ==>
          var patch := PatchOf(st, before, after, f.path).value;
          patch.Parsed? && |patch.files| == 1 ==>
            Genuine(TextOf(st, f.oldMode, f.oldId), TextOf(st, f.newMode, f.newId), patch.files[0]))
  }

  /** Git's side for every file that changes between the two trees. */
  ghost predicate GenuinePatches(st: Objects, before: Id, after: Id) {
    FilesOf(st, before, after).Ok? ==>
      forall f :: f in FilesOf(st, before, after).value ==> GenuinePatch(st, before, after, f)
  }

  /** The file's new text is its old one with these runs replayed at the only places they fit. */
  ghost predicate Rewritten(st: Objects, f: FileEdit, runs: seq<EditRun>) {
    var original := TextOf(st, f.oldMode, f.oldId);
    TextOf(st, f.newMode, f.newId) == Apply(original, 0, Replay(original, runs))
  }

  /** The same object is replaced by the same object, or one list of runs rewrites both texts. */
  ghost predicate SameRewrite(st: Objects, x: FileEdit, y: FileEdit) {
    || (x.oldId == y.oldId && x.newId == y.newId)
    || exists runs :: Rewritten(st, x, runs) && Rewritten(st, y, runs)
  }

  /** Equal old contents end as equal new contents. */
  predicate SameOutcome(st: Objects, x: FileEdit, y: FileEdit) {
    x.oldMode == y.oldMode && x.newMode == y.newMode && TextOf(st, x.oldMode, x.oldId) == TextOf(st, y.oldMode, y.oldId)
    ==> TextOf(st, x.newMode, x.newId) == TextOf(st, y.newMode, y.newId)
  }

  /** The hunks behind a text file's edits are genuine for the very text they were located in. */
  lemma EditsOfText(st: Objects, before: Id, after: Id, f: FileEdit, e: FileEdit) returns (hunks: seq<Hunk>)
    requires FileEdits(st, before, after, f) == Ok(e) && !e.binary && GenuinePatch(st, before, after, f)
    ensures RunsOf(TextOf(st, f.oldMode, f.oldId), hunks) == Some(e.runs)
    ensures Genuine(TextOf(st, f.oldMode, f.oldId), TextOf(st, f.newMode, f.newId), hunks)
  {
    hide RunsOf, Genuine;
    hunks := PatchOf(st, before, after, f.path).value.files[0];
    var first, second := ReadSide(st, f.oldMode, f.oldId).value, ReadSide(st, f.newMode, f.newId).value;
    assert OldText(f, first, second) == TextOf(st, f.oldMode, f.oldId);
  }

  lemma FileEditsKeepNames(st: Objects, before: Id, after: Id, f: FileEdit)
    requires FileEdits(st, before, after, f).Ok?
    ensures var e := FileEdits(st, before, after, f).value;
      e.path == f.path && e.oldMode == f.oldMode && e.newMode == f.newMode && e.oldId == f.oldId && e.newId == f.newId
  {
    hide RunsOf;
  }

  lemma SameEditsSameRewrite(st: Objects, sourceBefore: Id, source: Id, before: Id, after: Id, x: FileEdit, y: FileEdit)
    requires FileEdits(st, sourceBefore, source, x).Ok? && FileEdits(st, before, after, y).Ok?
    requires SameFileEdit(FileEdits(st, sourceBefore, source, x).value, FileEdits(st, before, after, y).value)
    requires GenuinePatch(st, sourceBefore, source, x) && GenuinePatch(st, before, after, y)
    ensures SameRewrite(st, x, y) && SameOutcome(st, x, y)
  {
    hide FileEdits, GenuinePatch, Apply, Replay, Fits;
    var a, b := FileEdits(st, sourceBefore, source, x).value, FileEdits(st, before, after, y).value;
    FileEditsKeepNames(st, sourceBefore, source, x);
    FileEditsKeepNames(st, before, after, y);
    if !a.binary {
      var one := EditsOfText(st, sourceBefore, source, x, a);
      var other := EditsOfText(st, before, after, y, b);
      RunsDetermineChanges(TextOf(st, x.oldMode, x.oldId), one, a.runs);
      RunsDetermineChanges(TextOf(st, y.oldMode, y.oldId), other, a.runs);
      assert Rewritten(st, x, a.runs) && Rewritten(st, y, a.runs);
    }
  }

  lemma {:induction false} PairsAt(st: Objects, sourceBefore: Id, source: Id, before: Id, after: Id,
                                   a: seq<FileEdit>, b: seq<FileEdit>, i: nat)
    requires |a| == |b| && i < |a| && EditPairs(st, sourceBefore, source, before, after, a, b).Ok?
    ensures var pair := EditPairs(st, sourceBefore, source, before, after, a, b).value;
      && |pair.0| == |pair.1| == |a|
      && FileEdits(st, sourceBefore, source, a[i]) == Ok(pair.0[i])
      && FileEdits(st, before, after, b[i]) == Ok(pair.1[i])
  {
    hide FileEdits;
    if i > 0 {
      PairsAt(st, sourceBefore, source, before, after, a[1..], b[1..], i - 1);
    } else if |a| > 1 {
      PairsAt(st, sourceBefore, source, before, after, a[1..], b[1..], 0);
    }
  }

  /** When a source commit and a target commit correspond, they change the same paths between the
      same modes, each pair of files by the same objects or the same replayed runs; where the old
      contents agree, so do the new. */
  lemma CorrespondingTreesAgree(st: Objects, sourceBefore: Id, source: Id, before: Id, after: Id)
    requires CompareTrees(st, sourceBefore, source, before, after).Ok?
    requires GenuinePatches(st, sourceBefore, source) && GenuinePatches(st, before, after)
    ensures FilesOf(st, sourceBefore, source).Ok? && FilesOf(st, before, after).Ok?
    ensures var a, b := FilesOf(st, sourceBefore, source).value, FilesOf(st, before, after).value;
      && SameInventory(a, b) && a != []
      && forall i :: 0 <= i < |a| ==> SameRewrite(st, a[i], b[i]) && SameOutcome(st, a[i], b[i])
  {
    hide FileEdits, FilesOf, EditPairs, GenuinePatch, SameFileEdit, SameRewrite, SameOutcome;
    var a, b := FilesOf(st, sourceBefore, source).value, FilesOf(st, before, after).value;
    var pair := EditPairs(st, sourceBefore, source, before, after, a, b).value;
    forall i | 0 <= i < |a| ensures SameRewrite(st, a[i], b[i]) && SameOutcome(st, a[i], b[i]) {
      PairsAt(st, sourceBefore, source, before, after, a, b, i);
      assert SameFileEdit(pair.0[i], pair.1[i]);
      assert a[i] in a && b[i] in b;
      SameEditsSameRewrite(st, sourceBefore, source, before, after, a[i], b[i]);
    }
  }

  // ----- edits belong to one change -----

  /** The edits read between two trees, file by file in path order. */
  ghost predicate AreEdits(st: Objects, before: Id, after: Id, edits: seq<FileEdit>) {
    && FilesOf(st, before, after).Ok? && |edits| == |FilesOf(st, before, after).value|
    && forall i :: 0 <= i < |edits| ==>
         FileEdits(st, before, after, FilesOf(st, before, after).value[i]) == Ok(edits[i])
  }

  lemma EditsAreDetermined(st: Objects, before: Id, after: Id, one: seq<FileEdit>, other: seq<FileEdit>)
    requires AreEdits(st, before, after, one) && AreEdits(st, before, after, other)
    ensures one == other
  {
    hide FileEdits, FilesOf;
    forall i | 0 <= i < |one| ensures one[i] == other[i] {
      assert Ok(one[i]) == Ok(other[i]);
    }
  }

  /** Corresponding commits have the same edits, those that the comparison returns. */
  lemma ComparedEdits(st: Objects, sourceBefore: Id, source: Id, before: Id, after: Id) returns (theirs: seq<FileEdit>)
    requires CompareTrees(st, sourceBefore, source, before, after).Ok?
    ensures var edits := CompareTrees(st, sourceBefore, source, before, after).value;
      AreEdits(st, sourceBefore, source, edits) && AreEdits(st, before, after, theirs) && SameEdits(edits, theirs)
  {
    hide FileEdits, FilesOf, EditPairs, SameEdits;
    var a, b := FilesOf(st, sourceBefore, source).value, FilesOf(st, before, after).value;
    var pair := EditPairs(st, sourceBefore, source, before, after, a, b).value;
    PairsAt(st, sourceBefore, source, before, after, a, b, 0);
    forall i | 0 <= i < |a|
      ensures FileEdits(st, sourceBefore, source, a[i]) == Ok(pair.0[i])
      ensures FileEdits(st, before, after, b[i]) == Ok(pair.1[i])
    {
      PairsAt(st, sourceBefore, source, before, after, a, b, i);
    }
    theirs := pair.1;
  }

  lemma SameEditsJoins(a: seq<FileEdit>, b: seq<FileEdit>, c: seq<FileEdit>)
    requires SameEdits(a, c) && SameEdits(b, c)
    ensures SameEdits(a, b) && SameEdits(b, a)
  {
    forall i | 0 <= i < |a| ensures SameFileEdit(a[i], b[i]) && SameFileEdit(b[i], a[i]) {
      assert SameFileEdit(a[i], c[i]) && SameFileEdit(b[i], c[i]);
    }
  }

  /** Two source changes that correspond to one target change carry the same edits. */
  lemma CommonTarget(st: Objects, before: Id, after: Id, oneBefore: Id, one: Id, otherBefore: Id, other: Id)
    requires CompareTrees(st, oneBefore, one, before, after).Ok?
    requires CompareTrees(st, otherBefore, other, before, after).Ok?
    ensures SameEdits(CompareTrees(st, oneBefore, one, before, after).value,
                      CompareTrees(st, otherBefore, other, before, after).value)
  {
    hide CompareTrees, SameEdits, AreEdits;
    var x := ComparedEdits(st, oneBefore, one, before, after);
    var y := ComparedEdits(st, otherBefore, other, before, after);
    EditsAreDetermined(st, before, after, x, y);
    SameEditsJoins(CompareTrees(st, oneBefore, one, before, after).value,
                   CompareTrees(st, otherBefore, other, before, after).value, x);
  }

  /** A source change has the same edits whichever target it is compared with. */
  lemma CommonSource(st: Objects, sourceBefore: Id, source: Id, oneBefore: Id, one: Id, otherBefore: Id, other: Id)
    requires CompareTrees(st, sourceBefore, source, oneBefore, one).Ok?
    requires CompareTrees(st, sourceBefore, source, otherBefore, other).Ok?
    ensures CompareTrees(st, sourceBefore, source, oneBefore, one) ==
            CompareTrees(st, sourceBefore, source, otherBefore, other)
  {
    hide CompareTrees, SameEdits, AreEdits;
    var x := ComparedEdits(st, sourceBefore, source, oneBefore, one);
    var y := ComparedEdits(st, sourceBefore, source, otherBefore, other);
    EditsAreDetermined(st, sourceBefore, source, CompareTrees(st, sourceBefore, source, oneBefore, one).value,
                       CompareTrees(st, sourceBefore, source, otherBefore, other).value);
  }

  // ----- a mismatch is conclusive -----

  /** Between the two pairs of trees the same files change from the same objects to the same
      objects, and where both patches of a file are answered they are the same. */
  predicate SameChange(st: Objects, sourceBefore: Id, source: Id, before: Id, after: Id) {
    && FilesOf(st, sourceBefore, source) == FilesOf(st, before, after)
    && (FilesOf(st, before, after).Ok? ==>
          forall f :: f in FilesOf(st, before, after).value ==>
              SamePatch(st, sourceBefore, source, before, after, f.path))
  }

  predicate SamePatch(st: Objects, sourceBefore: Id, source: Id, before: Id, after: Id, path: string) {
    var one, other := PatchOf(st, sourceBefore, source, path), PatchOf(st, before, after, path);
    one.Ok? && other.Ok? ==> one == other
  }

  /** Reading one file's edits never refutes anything by itself. */
  lemma EditsNeverRefute(st: Objects, before: Id, after: Id, f: FileEdit)
    ensures FileEdits(st, before, after, f) != Err(ReadError.Correspondence)
  {
    hide RunsOf;
  }

  lemma SamePatchSameEdits(st: Objects, sourceBefore: Id, source: Id, before: Id, after: Id, f: FileEdit)
    requires SamePatch(st, sourceBefore, source, before, after, f.path)
    requires FileEdits(st, sourceBefore, source, f).Ok? && FileEdits(st, before, after, f).Ok?
    ensures FileEdits(st, sourceBefore, source, f) == FileEdits(st, before, after, f)
  {
    hide RunsOf;
  }

  lemma {:induction false} SamePairs(st: Objects, sourceBefore: Id, source: Id, before: Id, after: Id,
                                     files: seq<FileEdit>)
    requires forall f :: f in files ==> SamePatch(st, sourceBefore, source, before, after, f.path)
    ensures var r := EditPairs(st, sourceBefore, source, before, after, files, files);
      r != Err(ReadError.Correspondence) && (r.Ok? ==> r.value.0 == r.value.1)
  {
    hide FileEdits, SamePatch;
    if files != [] {
      assert files[0] in files && forall f :: f in files[1..] ==> f in files;
      EditsNeverRefute(st, sourceBefore, source, files[0]);
      EditsNeverRefute(st, before, after, files[0]);
      SamePairs(st, sourceBefore, source, before, after, files[1..]);
      if FileEdits(st, sourceBefore, source, files[0]).Ok? && FileEdits(st, before, after, files[0]).Ok? {
        SamePatchSameEdits(st, sourceBefore, source, before, after, files[0]);
      }
    }
  }

  /** Equal changes are never refuted: only unreadable or ambiguous edits can keep them from
      corresponding. */
  lemma SameChangeNeverRefuted(st: Objects, sourceBefore: Id, source: Id, before: Id, after: Id)
    requires SameChange(st, sourceBefore, source, before, after)
    ensures CompareTrees(st, sourceBefore, source, before, after) != Err(ReadError.Correspondence)
  {
    hide FilesOf, EditPairs, SamePatch;
    ListingNeverRefutes(st, before, after);
    if FilesOf(st, before, after).Ok? {
      SamePairs(st, sourceBefore, source, before, after, FilesOf(st, before, after).value);
    }
  }

  lemma ListingNeverRefutes(st: Objects, before: Id, after: Id)
    ensures FilesOf(st, before, after) != Err(ReadError.Correspondence)
  {
  }
}
