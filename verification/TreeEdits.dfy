/** Reading and comparing the edits between two pairs of trees. */
module TreeEdits {
  import opened Model
  import opened Store
  import opened Text
  import opened Edits
  import opened TreeFiles
  import opened View

  // ----- the answer as a function of the store -----

  /** One side of a file: whether it forces a byte comparison, and its text if it has one. */
  datatype Side = Side(binary: bool, text: Option<string>)

  function SideOf(mode: string, blob: string): Side {
    Side(mode == SYMLINK || '\0' in blob, Some(blob))
  }

  function ReadSide(st: Objects, mode: string, id: Id): Result<Side> {
    if mode == ABSENT then Ok(Side(false, None))
    else if mode == SUBMODULE then Ok(Side(true, None))
    else
      match Blob(st, id)
      case Err(e) => Err(e)
      case Ok(blob) => Ok(SideOf(mode, blob))
  }

  /** The text hunks are located in: the blob read under the old object's name. */
  function OldText(f: FileEdit, first: Side, second: Side): string {
    if second.text.Some? && f.newId == f.oldId then second.text.value
    else first.text.GetOr("")
  }

  function PatchRuns(f: FileEdit, text: string, patch: Patch): Result<seq<EditRun>> {
    if patch.Unparsed? || |patch.files| != 1 then Err(ReadError.Edits)
    else
      var runs := RunsOf(text, patch.files[0]);
      if runs.None? then Err(ReadError.Edits)
      else if f.oldId != f.newId && |runs.value| == 0 && f.oldMode != ABSENT && f.newMode != ABSENT
      then Err(ReadError.Edits)
      else Ok(runs.value)
  }

  function FileEdits(st: Objects, before: Id, after: Id, f: FileEdit): Result<FileEdit> {
    match ReadSide(st, f.oldMode, f.oldId)
    case Err(e) => Err(e)
    case Ok(first) =>
      match ReadSide(st, f.newMode, f.newId)
      case Err(e) => Err(e)
      case Ok(second) =>
        if first.binary || second.binary then Ok(f.(binary := true))
        else
          match PatchOf(st, before, after, f.path)
          case Err(e) => Err(e)
          case Ok(patch) =>
            match PatchRuns(f, OldText(f, first, second), patch)
            case Err(e) => Err(e)
            case Ok(runs) => Ok(f.(runs := runs))
  }

  function FilesOf(st: Objects, before: Id, after: Id): Result<seq<FileEdit>> {
    match RawDiff(st, before, after)
    case Err(e) => Err(e)
    case Ok(raw) => ParseFiles(raw)
  }

  /** The pairs from index `i` on: the source file first, then the target file. */
  function EditPairs(st: Objects, sourceBefore: Id, source: Id, before: Id, after: Id,
                     a: seq<FileEdit>, b: seq<FileEdit>): Result<(seq<FileEdit>, seq<FileEdit>)>
    requires |a| == |b|
  {
    if a == [] then Ok(([], []))
    else
      match FileEdits(st, sourceBefore, source, a[0])
      case Err(e) => Err(e)
      case Ok(x) =>
        match FileEdits(st, before, after, b[0])
        case Err(e) => Err(e)
        case Ok(y) =>
          match EditPairs(st, sourceBefore, source, before, after, a[1..], b[1..])
          case Err(e) => Err(e)
          case Ok(rest) => Ok(([x] + rest.0, [y] + rest.1))
  }

  function CompareTrees(st: Objects, sourceBefore: Id, source: Id, before: Id, after: Id): Result<seq<FileEdit>> {
    match FilesOf(st, sourceBefore, source)
    case Err(e) => Err(e)
    case Ok(a) =>
      match FilesOf(st, before, after)
      case Err(e) => Err(e)
      case Ok(b) =>
        if !SameInventory(a, b) then Err(Correspondence)
        else if a == [] || b == [] then Err(ReadError.Edits)
        else
          match EditPairs(st, sourceBefore, source, before, after, a, b)
          case Err(e) => Err(e)
          case Ok(pair) => if SameEdits(pair.0, pair.1) then Ok(pair.0) else Err(Correspondence)
  }

  // ----- the reads themselves -----

  lemma NothingLeft(h: Hunk)
    ensures forall offset, s :: HunkSides(h, LinesOf(""), offset, s) == Some(s)
  {
  }

  method ReadHunk(h: Hunk) returns (r: Option<EditRun>)
    ensures r == EditHunk(h)
  {
    hide HunkSides, LinesOf, LeadingLine, SideLine;
    NothingLeft(h);
    var s := Sides("", "", 0, 0);
    var offset := 0;
    ghost var target := HunkSides(h, LinesOf(h.body), 0, s);
    assert h.body[0..] == h.body;
    while |h.body| > offset
      invariant 0 <= offset <= |h.body|
      invariant target == HunkSides(h, LinesOf(h.body[offset..]), offset, s)
    {
      HunkStep(h, h.body[offset..], offset, s);
      var line := LeadingLine(h.body[offset..]);
      assert h.body[offset..][|line|..] == h.body[offset + |line|..];
      offset := offset + |line|;
      var next := SideLine(h, line, offset, s);
      if next.None? {
        return None;
      }
      s := next.value;
    }
    assert h.body[offset..] == "";
    assert target == Some(s);
    if s.oldLines != h.oldLines || s.newLines != h.newLines {
      return None;
    }
    r := Some(EditRun(s.removed, s.added, NO_ANCHOR));
  }

  method ReadRuns(text: string, hunks: seq<Hunk>) returns (r: Option<seq<EditRun>>)
    ensures r == RunsOf(text, hunks)
  {
    var runs: seq<EditRun> := [];
    for i := 0 to |hunks|
      invariant |runs| == i && forall k :: 0 <= k < i ==> RunOf(text, hunks[k]) == Some(runs[k])
    {
      var run := ReadHunk(hunks[i]);
      if run.None? {
        RunsRefused(text, hunks, i);
        return None;
      }
      if run.value.removed != "" {
        if !UniqueBytes(text, run.value.removed) {
          RunsRefused(text, hunks, i);
          return None;
        }
      } else {
        var site := InsertionSite(text, hunks[i].oldStart);
        if site.None? {
          RunsRefused(text, hunks, i);
          return None;
        }
        run := Some(run.value.(anchor := site.value));
      }
      runs := runs + [run.value];
    }
    RunsAccepted(text, hunks, runs);
    r := Some(runs);
  }

  lemma {:induction false} RunsRefused(text: string, hunks: seq<Hunk>, i: nat)
    requires i < |hunks| && RunOf(text, hunks[i]).None?
    ensures RunsOf(text, hunks).None?
  {
    hide RunOf;
    if i > 0 {
      RunsRefused(text, hunks[1..], i - 1);
    }
  }

  lemma {:induction false} RunsAccepted(text: string, hunks: seq<Hunk>, runs: seq<EditRun>)
    requires |runs| == |hunks| && forall k :: 0 <= k < |hunks| ==> RunOf(text, hunks[k]) == Some(runs[k])
    ensures RunsOf(text, hunks) == Some(runs)
  {
    hide RunOf;
    if hunks != [] {
      RunsAccepted(text, hunks[1..], runs[1..]);
      assert runs == [runs[0]] + runs[1..];
    }
  }

  method ReadBlobSide(v: ObjectView, mode: string, id: Id) returns (r: Result<Side>)
    requires v.Paced()
    modifies v.meter
    ensures v.Paced() && v.meter.asked <= old(v.meter.asked) + 1
    ensures r == if v.meter.failed && mode != ABSENT && mode != SUBMODULE then Err(Budget)
                 else ReadSide(v.store, mode, id)
    ensures old(v.meter.failed) ==> v.meter.failed
    ensures mode == ABSENT || mode == SUBMODULE ==> v.meter.failed == old(v.meter.failed)
    ensures v.meter.nodes == old(v.meter.nodes)
  {
    if mode == ABSENT {
      return Ok(Side(false, None));
    }
    if mode == SUBMODULE {
      return Ok(Side(true, None));
    }
    var blob := v.ReadBlob(id);
    match blob {
      case Err(e) => r := Err(e);
      case Ok(text) => r := Ok(SideOf(mode, text));
    }
  }

  method ReadFileEdits(v: ObjectView, before: Id, after: Id, f: FileEdit) returns (r: Result<FileEdit>)
    requires !v.meter.failed && v.Paced()
    modifies v.meter
    ensures v.Paced() && v.meter.asked <= old(v.meter.asked) + 3
    ensures r == if v.meter.failed then Err(Budget) else FileEdits(v.store, before, after, f)
    ensures v.meter.nodes == old(v.meter.nodes)
  {
    var first := ReadBlobSide(v, f.oldMode, f.oldId);
    if first.Err? {
      return Err(first.error);
    }
    var second := ReadBlobSide(v, f.newMode, f.newId);
    if second.Err? {
      return Err(second.error);
    }
    if first.value.binary || second.value.binary {
      return Ok(f.(binary := true));
    }
    var patch := v.ReadPatch(before, after, f.path);
    if patch.Err? {
      return Err(patch.error);
    }
    if patch.value.Unparsed? || |patch.value.files| != 1 {
      return Err(ReadError.Edits);
    }
    var runs := ReadRuns(OldText(f, first.value, second.value), patch.value.files[0]);
    if runs.None? {
      return Err(ReadError.Edits);
    }
    if f.oldId != f.newId && |runs.value| == 0 && f.oldMode != ABSENT && f.newMode != ABSENT {
      return Err(ReadError.Edits);
    }
    r := Ok(f.(runs := runs.value));
  }

  method ReadTreeFiles(v: ObjectView, before: Id, after: Id) returns (r: Result<seq<FileEdit>>)
    requires v.Paced()
    modifies v.meter
    ensures v.Paced() && v.meter.asked <= old(v.meter.asked) + 1
    ensures r == if v.meter.failed then Err(Budget) else FilesOf(v.store, before, after)
    ensures r.Ok? ==> |r.value| <= v.width
    ensures old(v.meter.failed) ==> v.meter.failed
    ensures v.meter.nodes == old(v.meter.nodes)
  {
    var diff := v.ReadRawDiff(before, after);
    if diff.Err? {
      return Err(diff.error);
    }
    r := ParseEditFiles(diff.value);
    FilesFit(diff.value);
  }

  ghost function Onto(a: seq<FileEdit>, b: seq<FileEdit>, rest: Result<(seq<FileEdit>, seq<FileEdit>)>)
    : Result<(seq<FileEdit>, seq<FileEdit>)>
  {
    match rest
    case Err(e) => Err(e)
    case Ok(pair) => Ok((a + pair.0, b + pair.1))
  }

  lemma OntoStep(st: Objects, sourceBefore: Id, source: Id, before: Id, after: Id,
                 a: seq<FileEdit>, b: seq<FileEdit>, doneA: seq<FileEdit>, doneB: seq<FileEdit>)
    requires |a| == |b| > 0
    requires FileEdits(st, sourceBefore, source, a[0]).Ok? && FileEdits(st, before, after, b[0]).Ok?
    ensures Onto(doneA, doneB, EditPairs(st, sourceBefore, source, before, after, a, b)) ==
            Onto(doneA + [FileEdits(st, sourceBefore, source, a[0]).value],
                 doneB + [FileEdits(st, before, after, b[0]).value],
                 EditPairs(st, sourceBefore, source, before, after, a[1..], b[1..]))
  {
    var x, y := FileEdits(st, sourceBefore, source, a[0]).value, FileEdits(st, before, after, b[0]).value;
    var rest := EditPairs(st, sourceBefore, source, before, after, a[1..], b[1..]);
    if rest.Ok? {
      assert doneA + ([x] + rest.value.0) == (doneA + [x]) + rest.value.0;
      assert doneB + ([y] + rest.value.1) == (doneB + [y]) + rest.value.1;
    }
  }

  /** The reads that comparing two pairs of trees may ask for: every listed file takes a byte. */
  function TreeReads(width: nat): nat {
    2 + 6 * width
  }

  lemma FilesFit(raw: string)
    ensures ParseFiles(raw).Ok? ==> |ParseFiles(raw).value| <= |raw|
  {
    EntriesFit(raw);
  }

  lemma {:induction false} EntriesFit(raw: string)
    ensures ParseEntries(raw).Some? ==> |ParseEntries(raw).value| <= |raw|
    decreases |raw|
  {
    hide NextEntry;
    if raw != "" && NextEntry(raw).Some? {
      EntriesFit(NextEntry(raw).value.1);
    }
  }

  /** The program replaces each inventory entry by its edits, pair by pair. */
  method ReadPairs(v: ObjectView, sourceBefore: Id, source: Id, before: Id, after: Id,
                   left: seq<FileEdit>, right: seq<FileEdit>)
    returns (r: Result<(seq<FileEdit>, seq<FileEdit>)>)
    requires |left| == |right| && !v.meter.failed && v.Paced()
    modifies v.meter
    ensures v.Paced() && v.meter.asked <= old(v.meter.asked) + 6 * |left|
    ensures r == if v.meter.failed then Err(Budget)
                 else EditPairs(v.store, sourceBefore, source, before, after, left, right)
    ensures v.meter.nodes == old(v.meter.nodes)
  {
    hide FileEdits, ObjectView.Paced;
    ghost var target := EditPairs(v.store, sourceBefore, source, before, after, left, right);
    var a, b := [], [];
    var i := 0;
    assert left[0..] == left && right[0..] == right;
    assert target == Onto(a, b, target) by {
      assert target.Ok? ==> [] + target.value.0 == target.value.0 && [] + target.value.1 == target.value.1;
    }
    while i < |left|
      invariant 0 <= i <= |left| && |a| == |b| == i
      invariant v.Paced() && v.meter.asked <= old(v.meter.asked) + 6 * i
      invariant !v.meter.failed && v.meter.nodes == old(v.meter.nodes)
      invariant target == Onto(a, b, EditPairs(v.store, sourceBefore, source, before, after, left[i..], right[i..]))
    {
      var x := ReadFileEdits(v, sourceBefore, source, left[i]);
      if x.Err? {
        return Err(x.error);
      }
      var y := ReadFileEdits(v, before, after, right[i]);
      if y.Err? {
        return Err(y.error);
      }
      OntoStep(v.store, sourceBefore, source, before, after, left[i..], right[i..], a, b);
      assert left[i..][1..] == left[i + 1..] && right[i..][1..] == right[i + 1..];
      a, b, i := a + [x.value], b + [y.value], i + 1;
    }
    assert a + [] == a && b + [] == b;
    r := Ok((a, b));
  }

  method CompareTreeEdits(v: ObjectView, sourceBefore: Id, source: Id, before: Id, after: Id)
    returns (r: Result<seq<FileEdit>>)
    requires v.Paced()
    modifies v.meter
    ensures v.Paced() && v.meter.asked <= old(v.meter.asked) + TreeReads(v.width)
    ensures r == if v.meter.failed then Err(Budget) else CompareTrees(v.store, sourceBefore, source, before, after)
    ensures old(v.meter.failed) ==> v.meter.failed
    ensures v.meter.nodes == old(v.meter.nodes)
  {
    var a := ReadTreeFiles(v, sourceBefore, source);
    if a.Err? {
      return Err(a.error);
    }
    var b := ReadTreeFiles(v, before, after);
    if b.Err? {
      return Err(b.error);
    }
    if !SameInventory(a.value, b.value) {
      return Err(Correspondence);
    }
    if |a.value| == 0 || |b.value| == 0 {
      return Err(ReadError.Edits);
    }
    var pairs := ReadPairs(v, sourceBefore, source, before, after, a.value, b.value);
    if pairs.Err? {
      return Err(pairs.error);
    }
    if !SameEdits(pairs.value.0, pairs.value.1) {
      return Err(Correspondence);
    }
    r := Ok(pairs.value.0);
  }
}
