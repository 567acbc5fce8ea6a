/** Reading a hunk body gives back the two texts it was printed from, byte for byte. */
module Hunks {
  import opened Model
  import opened Store
  import opened Streaming
  import opened Text
  import opened Edits
  import opened Ordering

  predicate Complete(text: string) {
    text != "" && text[|text| - 1] == '\n'
  }

  /** A body line on the old side always ends with a newline, also where the old text does not. */
  function Closed(line: string): string {
    if Complete(line) then line else line + "\n"
  }

  function MinusBody(text: string): string
    decreases |text|
  {
    if text == "" then "" else ("-" + Closed(LeadingLine(text))) + MinusBody(text[|LeadingLine(text)|..])
  }

  function PlusBody(text: string): string
    decreases |text|
  {
    if text == "" then "" else ("+" + LeadingLine(text)) + PlusBody(text[|LeadingLine(text)|..])
  }

  /** A zero-context hunk.  An old text without a final newline is marked by the offset at which
      its last body line ends; a new one simply ends the body. */
  function PrintHunk(removed: string, added: string, oldStart: int): Hunk {
    Hunk(oldStart, |LinesOf(removed)|, |LinesOf(added)|,
         if removed != "" && !Complete(removed) then |MinusBody(removed)| else 0,
         MinusBody(removed) + PlusBody(added))
  }

  lemma LeadingLineOf(line: string, rest: string)
    requires line != "" && '\n' !in line[..|line| - 1]
    requires Complete(line) || rest == ""
    ensures LeadingLine(line + rest) == line && (line + rest)[|line|..] == rest
  {
    var end := IndexOf(line + rest, '\n');
    assert forall i :: 0 <= i < |line| - 1 ==> (line + rest)[i] == line[..|line| - 1][i];
    if Complete(line) {
      assert (line + rest)[|line| - 1] == '\n';
      forall i | 0 <= i < end ensures (line + rest)[i] != '\n' {
        assert (line + rest)[..end][i] != '\n';
      }
    } else {
      assert line + rest == line;
    }
  }

  /** A first line has its newline at its end, or is the whole text. */
  lemma LeadingLineShape(text: string)
    requires text != ""
    ensures var line := LeadingLine(text);
      '\n' !in line[..|line| - 1] && (Complete(line) || (line == text && !Complete(text)))
  {
    var line := LeadingLine(text);
    assert forall i :: 0 <= i < |line| - 1 ==> line[..|line| - 1][i] == text[i];
  }

  /** The first body line of a text, and what is left. */
  lemma MinusFirst(text: string, tail: string)
    requires text != ""
    ensures var line := LeadingLine(text);
      var first, left := "-" + Closed(line), MinusBody(text[|line|..]) + tail;
      && MinusBody(text) + tail == first + left
      && |MinusBody(text)| == |first| + |MinusBody(text[|line|..])|
      && LeadingLine(MinusBody(text) + tail) == first && (MinusBody(text) + tail)[|first|..] == left
  {
    var line := LeadingLine(text);
    var first, left := "-" + Closed(line), MinusBody(text[|line|..]) + tail;
    assert MinusBody(text) == first + MinusBody(text[|line|..]);
    assert MinusBody(text) + tail == first + left;
    LeadingLineShape(text);
    hide LeadingLine, MinusBody;
    forall i | 0 <= i < |first| - 1 ensures first[i] != '\n' {
      if i > 0 { assert first[i] == line[i - 1]; }
      if 0 < i < |line| { assert line[..|line| - 1][i - 1] != '\n'; }
    }
    LeadingLineOf(first, left);
  }

  lemma PlusFirst(text: string)
    requires text != ""
    ensures var line := LeadingLine(text);
      var first, left := "+" + line, PlusBody(text[|line|..]);
      && PlusBody(text) == first + left
      && LeadingLine(PlusBody(text)) == first && PlusBody(text)[|first|..] == left
  {
    var line := LeadingLine(text);
    var first, left := "+" + line, PlusBody(text[|line|..]);
    assert PlusBody(text) == first + left;
    LeadingLineShape(text);
    hide LeadingLine;
    forall i | 0 <= i < |first| - 1 ensures first[i] != '\n' {
      if i > 0 { assert line[..|line| - 1][i - 1] != '\n'; }
    }
    assert !Complete(line) ==> text[|line|..] == "";
    LeadingLineOf(first, left);
  }

  lemma MinusSide(h: Hunk, line: string, end: nat, s: Sides)
    requires line != "" && (h.oldNoNewlineAt == end <==> !Complete(line))
    ensures SideLine(h, "-" + Closed(line), end, s) ==
            Some(s.(removed := s.removed + line, oldLines := s.oldLines + 1))
  {
    assert ("-" + Closed(line))[1..] == Closed(line);
    assert (line + "\n")[..|line|] == line;
  }

  lemma PlusSide(h: Hunk, line: string, end: nat, s: Sides)
    requires line != ""
    ensures SideLine(h, "+" + line, end, s) == Some(s.(added := s.added + line, newLines := s.newLines + 1))
  {
    assert ("+" + line)[1..] == line;
  }

  lemma LinesFirst(text: string)
    requires text != ""
    ensures LinesOf(text) == [LeadingLine(text)] + LinesOf(text[|LeadingLine(text)|..])
  {
  }

  lemma Nothing()
    ensures MinusBody("") == "" && PlusBody("") == "" && LinesOf("") == []
  {
  }

  lemma NoLines(h: Hunk, offset: nat, s: Sides)
    ensures HunkSides(h, [], offset, s) == Some(s)
  {
  }

  /** The mark for a missing newline is met exactly at the line that lacks it. */
  predicate MarkAhead(h: Hunk, text: string, offset: nat) {
    if text == "" || Complete(text) then h.oldNoNewlineAt <= offset
    else h.oldNoNewlineAt == offset + |MinusBody(text)|
  }

  lemma MarkMoves(h: Hunk, text: string, offset: nat)
    requires text != "" && MarkAhead(h, text, offset)
    ensures var line := LeadingLine(text);
      var end := offset + |"-" + Closed(line)|;
      (h.oldNoNewlineAt == end <==> !Complete(line)) && MarkAhead(h, text[|line|..], end)
  {
    MinusFirst(text, "");
    LeadingLineShape(text);
    var line := LeadingLine(text);
    var rest := text[|line|..];
    hide LeadingLine, IndexOf;
    if rest == "" {
      assert text == line;
    } else {
      assert text[|text| - 1] == rest[|rest| - 1];
      assert |MinusBody(rest)| > 0;
    }
  }

  lemma {:induction false} MinusRead(h: Hunk, text: string, tail: string, offset: nat, s: Sides)
    requires MarkAhead(h, text, offset)
    ensures HunkSides(h, LinesOf(MinusBody(text) + tail), offset, s) ==
            HunkSides(h, LinesOf(tail), offset + |MinusBody(text)|,
                      s.(removed := s.removed + text, oldLines := s.oldLines + |LinesOf(text)|))
    decreases |text|
  {
    hide HunkSides, LeadingLine, LinesOf, MinusBody, SideLine, Closed, MarkAhead;
    if text == "" {
      Nothing();
      assert "" + tail == tail && s.removed + text == s.removed;
    } else {
      var line := LeadingLine(text);
      var rest := text[|line|..];
      var end := offset + |"-" + Closed(line)|;
      MinusFirst(text, tail);
      MarkMoves(h, text, offset);
      HunkStep(h, MinusBody(text) + tail, offset, s);
      MinusSide(h, line, end, s);
      MinusRead(h, rest, tail, end, s.(removed := s.removed + line, oldLines := s.oldLines + 1));
      LinesFirst(text);
      assert text == line + rest;
      assert s.removed + line + rest == s.removed + text;
    }
  }

  lemma {:induction false} PlusRead(h: Hunk, text: string, offset: nat, s: Sides)
    ensures HunkSides(h, LinesOf(PlusBody(text)), offset, s) ==
            Some(s.(added := s.added + text, newLines := s.newLines + |LinesOf(text)|))
    decreases |text|
  {
    hide HunkSides, LeadingLine, LinesOf, PlusBody, SideLine;
    if text == "" {
      Nothing();
      NoLines(h, offset, s);
      assert s.added + text == s.added;
    } else {
      var line := LeadingLine(text);
      var rest := text[|line|..];
      PlusFirst(text);
      HunkStep(h, PlusBody(text), offset, s);
      PlusSide(h, line, offset + |"+" + line|, s);
      PlusRead(h, rest, offset + |"+" + line|, s.(added := s.added + line, newLines := s.newLines + 1));
      LinesFirst(text);
      assert text == line + rest;
      assert s.added + line + rest == s.added + text;
    }
  }

  lemma MarkAtStart(removed: string, added: string, oldStart: int)
    ensures MarkAhead(PrintHunk(removed, added, oldStart), removed, 0)
  {
    hide MinusBody, PlusBody, LinesOf;
  }

  /** For all texts, with or without a final newline on either side. */
  lemma HunkRoundTrip(removed: string, added: string, oldStart: int)
    ensures EditHunk(PrintHunk(removed, added, oldStart)) == Some(EditRun(removed, added, NO_ANCHOR))
  {
    hide *;
    var h := PrintHunk(removed, added, oldStart);
    MarkAtStart(removed, added, oldStart);
    HunkNumbers(removed, added, oldStart);
    BodyRead(h, removed, added);
    SidesAreRead(h, Sides(removed, added, |LinesOf(removed)|, |LinesOf(added)|));
  }

  lemma BodyRead(h: Hunk, removed: string, added: string)
    requires MarkAhead(h, removed, 0)
    ensures HunkSides(h, LinesOf(MinusBody(removed) + PlusBody(added)), 0, Sides("", "", 0, 0)) ==
            Some(Sides(removed, added, |LinesOf(removed)|, |LinesOf(added)|))
  {
    hide *;
    var s := Sides("", "", 0, 0);
    MinusRead(h, removed, PlusBody(added), 0, s);
    assert "" + removed == removed && "" + added == added;
    PlusRead(h, added, |MinusBody(removed)|, Sides(removed, "", |LinesOf(removed)|, 0));
  }

  lemma SidesAreRead(h: Hunk, sides: Sides)
    requires HunkSides(h, LinesOf(h.body), 0, Sides("", "", 0, 0)) == Some(sides)
    requires sides.oldLines == h.oldLines && sides.newLines == h.newLines
    ensures EditHunk(h) == Some(EditRun(sides.removed, sides.added, NO_ANCHOR))
  {
    hide LinesOf, HunkSides;
  }

  /** The hunk that replaces the old lines from `m` to `n` by `added`. */
  function LineHunk(original: string, m: nat, n: nat, added: string): Hunk
    requires m <= n <= |LinesOf(original)|
  {
    PrintHunk(Concat(LinesOf(original)[m..n]), added, if m == n then m else m + 1)
  }

  /** The lines of a stretch of lines. */
  lemma {:induction false} LinesOfStretch(original: string, n: nat)
    requires n <= |LinesOf(original)|
    ensures LinesOf(Concat(LinesOf(original)[..n])) == LinesOf(original)[..n]
    decreases n
  {
    var lines := LinesOf(original);
    if n > 0 {
      LeadingLineShape(original);
      var line := LeadingLine(original);
      var rest := original[|line|..];
      LinesOfStretch(rest, n - 1);
      assert lines[1..] == LinesOf(rest);
      assert lines[..n] == [line] + LinesOf(rest)[..n - 1];
      var more := Concat(LinesOf(rest)[..n - 1]);
      ConcatCons(line, LinesOf(rest)[..n - 1]);
      if !Complete(line) {
        assert rest == "";
      }
      assert more != "" ==> Complete(line);
      LeadingLineOf(line, more);
    } else {
      assert lines[..0] == [];
    }
  }

  lemma {:induction false} LinesFrom(original: string, m: nat)
    requires m <= |LinesOf(original)|
    ensures LinesOf(Concat(LinesOf(original)[m..])) == LinesOf(original)[m..]
    decreases m
  {
    if m == 0 {
      LinesJoin(original);
      assert LinesOf(original)[0..] == LinesOf(original);
    } else {
      var rest := original[|LeadingLine(original)|..];
      assert LinesOf(original)[1..] == LinesOf(rest);
      assert LinesOf(original)[m..] == LinesOf(rest)[m - 1..];
      LinesFrom(rest, m - 1);
    }
  }

  /** Such a hunk is genuine: it names the lines whose text it removes. */
  lemma LineHunkFits(original: string, m: nat, n: nat, added: string)
    requires m <= n <= |LinesOf(original)|
    ensures Fits(original, LineHunk(original, m, n, added))
    ensures ChangeOf(original, LineHunk(original, m, n, added)) ==
            Change(LineOffset(original, m), Concat(LinesOf(original)[m..n]), added)
  {
    hide LinesOf, EditHunk, PrintHunk, Concat;
    var lines := LinesOf(original);
    var removed := Concat(lines[m..n]);
    HunkRoundTrip(removed, added, if m == n then m else m + 1);
    LinesFrom(original, m);
    LinesOfStretch(Concat(lines[m..]), n - m);
    assert lines[m..][..n - m] == lines[m..n];
    assert |LinesOf(removed)| == n - m;
    HunkNumbers(removed, added, if m == n then m else m + 1);
  }

  lemma HunkNumbers(removed: string, added: string, oldStart: int)
    ensures var h := PrintHunk(removed, added, oldStart);
      && h.oldStart == oldStart && h.oldLines == |LinesOf(removed)| && h.newLines == |LinesOf(added)|
      && h.body == MinusBody(removed) + PlusBody(added)
  {
    hide LinesOf, MinusBody, PlusBody;
  }

  // ----- which hunks are accepted -----

  /** The part is found in the text at one offset and no other. */
  ghost predicate OccursOnce(text: string, part: string) {
    exists i :: OccursAt(text, part, i) && forall j :: OccursAt(text, part, j) ==> j == i
  }

  /** The old lines on either side of an insertion after line `n`, joined. */
  function Neighbours(original: string, n: nat): string
    requires n <= |LinesOf(original)|
  {
    var lines := LinesOf(original);
    (if n > 0 then lines[n - 1] else "") + (if n < |lines| then lines[n] else "")
  }

  /** An insertion after line `n` can be placed: into an empty text, or between neighbours that occur
      once. */
  ghost predicate Placeable(original: string, n: int) {
    0 <= n <= |LinesOf(original)| && (original == "" || OccursOnce(original, Neighbours(original, n)))
  }

  /** A hunk yields a run exactly when its body reads and its removed text occurs once or, where it
      removes nothing, the insertion can be placed; the anchor is then the neighbourhood. */
  lemma RunExactly(original: string, h: Hunk)
    ensures RunOf(original, h).Some? <==>
            && EditHunk(h).Some?
            && if EditHunk(h).value.removed != "" then OccursOnce(original, EditHunk(h).value.removed)
               else Placeable(original, h.oldStart)
    ensures RunOf(original, h).Some? ==>
              var lines, n := LinesOf(original), h.oldStart;
              RunOf(original, h).value ==
              if EditHunk(h).value.removed != "" then EditHunk(h).value
              else EditHunk(h).value.(anchor := Anchor(if n > 0 then lines[n - 1] else "",
                                                       if n < |lines| then lines[n] else "", n == 0, n == |lines|))
  {
    hide EditHunk, UniqueBytes, LinesOf;
    forall part ensures UniqueBytes(original, part) <==> OccursOnce(original, part) {
      UniqueBytesMeansOnce(original, part);
    }
  }

  /** The hunk that replaces lines `m` to `n` is accepted exactly when their text occurs once or, for
      an insertion, it can be placed; its run then states both texts. */
  lemma LineHunkAccepted(original: string, m: nat, n: nat, added: string)
    requires m <= n <= |LinesOf(original)|
    ensures var lines, run := LinesOf(original), RunOf(original, LineHunk(original, m, n, added));
      && (run.Some? <==>
          if m < n then OccursOnce(original, Concat(lines[m..n]))
          else original == "" || OccursOnce(original, Neighbours(original, m)))
      && (run.Some? ==> run.value.removed == Concat(lines[m..n]) && run.value.added == added)
  {
    hide EditHunk, LinesOf, RunOf, OccursOnce, Neighbours, PrintHunk;
    var lines, h := LinesOf(original), LineHunk(original, m, n, added);
    RunExactly(original, h);
    HunkRoundTrip(Concat(lines[m..n]), added, if m == n then m else m + 1);
    HunkNumbers(Concat(lines[m..n]), added, if m == n then m else m + 1);
    if m < n {
      assert |lines[m]| > 0;
      NonEmptyLines(lines[m..n]);
    } else {
      ConcatNone();
      assert lines[m..n] == [];
    }
  }

  predicate Minus(line: string) {
    line != "" && line[0] == '-'
  }

  predicate Plus(line: string) {
    line != "" && line[0] == '+'
  }

  lemma {:induction false} SidesExactly(h: Hunk, lines: seq<string>, offset: nat, s: Sides)
    requires forall i :: 0 <= i < |lines| ==> |lines[i]| > 0
    ensures HunkSides(h, lines, offset, s).Some? <==> forall i :: 0 <= i < |lines| ==> Minus(lines[i]) || Plus(lines[i])
    ensures HunkSides(h, lines, offset, s).Some? ==>
              && HunkSides(h, lines, offset, s).value.oldLines == s.oldLines + |Select(lines, Minus)|
              && HunkSides(h, lines, offset, s).value.newLines == s.newLines + |Select(lines, Plus)|
    decreases |lines|
  {
    if lines != [] {
      var end := offset + |lines[0]|;
      var next := SideLine(h, lines[0], end, s);
      if next.Some? {
        SidesExactly(h, lines[1..], end, next.value);
        assert forall i :: 0 < i < |lines| ==> lines[i] == lines[1..][i - 1];
      }
    }
  }

  /** A hunk's body reads exactly when each of its lines is removed or added, in the numbers that the
      hunk names. */
  lemma BodyReadsExactly(h: Hunk)
    ensures EditHunk(h).Some? <==>
            var lines := LinesOf(h.body);
            && (forall i :: 0 <= i < |lines| ==> Minus(lines[i]) || Plus(lines[i]))
            && |Select(lines, Minus)| == h.oldLines && |Select(lines, Plus)| == h.newLines
  {
    hide HunkSides, LinesOf;
    SidesExactly(h, LinesOf(h.body), 0, Sides("", "", 0, 0));
  }

  /** All hunks of a patch must be accepted, and then each gives its run. */
  lemma {:induction false} RunsExactly(original: string, hunks: seq<Hunk>)
    ensures RunsOf(original, hunks).Some? <==> forall i :: 0 <= i < |hunks| ==> RunOf(original, hunks[i]).Some?
  {
    hide RunOf;
    if hunks != [] {
      RunsExactly(original, hunks[1..]);
      assert forall i :: 0 < i < |hunks| ==> hunks[i] == hunks[1..][i - 1];
    }
  }
}
