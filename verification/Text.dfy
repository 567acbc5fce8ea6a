/** Byte-string searching and line splitting, as the `bytes` package defines them. */
module Text {
  import opened Streaming

  /** `part` is found in `text` at offset `i`. */
  predicate OccursAt(text: string, part: string, i: int) {
    0 <= i && i + |part| <= |text| && text[i..i + |part|] == part
  }

  function SeekUp(text: string, part: string, i: nat): (r: int)
    requires i <= |text|
    ensures r == -1 || (i <= r && OccursAt(text, part, r))
    ensures forall j :: i <= j && OccursAt(text, part, j) ==> 0 <= r <= j
    decreases |text| - i
  {
    if OccursAt(text, part, i) then i
    else if i == |text| then -1
    else SeekUp(text, part, i + 1)
  }

  function SeekDown(text: string, part: string, i: nat): (r: int)
    requires i <= |text|
    ensures r == -1 || OccursAt(text, part, r)
    ensures forall j :: j <= i && OccursAt(text, part, j) ==> j <= r
    decreases i
  {
    if OccursAt(text, part, i) then i
    else if i == 0 then -1
    else SeekDown(text, part, i - 1)
  }

  /** `bytes.Index`: the first occurrence, or -1. */
  function Index(text: string, part: string): int {
    SeekUp(text, part, 0)
  }

  /** `bytes.LastIndex`. */
  function LastIndex(text: string, part: string): int {
    SeekDown(text, part, |text|)
  }

  /** `uniqueBytes`. */
  predicate UniqueBytes(text: string, part: string) {
    var i := Index(text, part);
    i >= 0 && i == LastIndex(text, part)
  }

  /** The test accepts exactly the texts in which the part occurs once, and then `Index` is
      that occurrence. */
  lemma UniqueBytesMeansOnce(text: string, part: string)
    ensures UniqueBytes(text, part) <==>
            exists i :: OccursAt(text, part, i) && forall j :: OccursAt(text, part, j) ==> j == i
    ensures UniqueBytes(text, part) ==> forall j :: OccursAt(text, part, j) ==> j == Index(text, part)
  {
    var i := Index(text, part);
    if i >= 0 {
      assert OccursAt(text, part, i);
      assert OccursAt(text, part, LastIndex(text, part));
    }
  }

  /** The first line, with its newline if it has one. */
  function LeadingLine(text: string): (line: string)
    requires text != ""
    ensures 0 < |line| <= |text| && line == text[..|line|]
  {
    var end := IndexOf(text, '\n');
    if end < 0 then text else text[..end + 1]
  }

  /** `bytes.SplitAfter(text, "\n")` without the empty piece after a final newline. */
  function LinesOf(text: string): (r: seq<string>)
    ensures forall i :: 0 <= i < |r| ==> |r[i]| > 0
    decreases |text|
  {
    if text == "" then [] else [LeadingLine(text)] + LinesOf(text[|LeadingLine(text)|..])
  }

  lemma ConcatCons(line: string, lines: seq<string>)
    ensures Concat([line] + lines) == line + Concat(lines)
  {
    assert ([line] + lines)[1..] == lines;
  }

  lemma {:induction false} LinesJoin(text: string)
    ensures Concat(LinesOf(text)) == text
    decreases |text|
  {
    if text != "" {
      hide IndexOf;
      var line := LeadingLine(text);
      var rest := text[|line|..];
      assert text == line + rest;
      LinesJoin(rest);
      ConcatCons(line, LinesOf(rest));
      assert LinesOf(text) == [line] + LinesOf(rest);
    }
  }

  lemma {:induction false} ConcatAppend(a: seq<string>, b: seq<string>)
    ensures Concat(a + b) == Concat(a) + Concat(b)
  {
    if a == [] {
      assert a + b == b;
      assert "" + Concat(b) == Concat(b);
    } else {
      assert (a + b)[1..] == a[1..] + b;
      ConcatAppend(a[1..], b);
      assert a[0] + (Concat(a[1..]) + Concat(b)) == (a[0] + Concat(a[1..])) + Concat(b);
    }
  }

  /** The offset at which line `n` begins. */
  function LineOffset(text: string, n: nat): nat
    requires n <= |LinesOf(text)|
  {
    |Concat(LinesOf(text)[..n])|
  }

  /** Cutting a list of lines cuts the text. */
  lemma ConcatSplit(lines: seq<string>, n: nat)
    requires n <= |lines|
    ensures Concat(lines) == Concat(lines[..n]) + Concat(lines[n..])
  {
    hide Concat;
    ConcatAppend(lines[..n], lines[n..]);
    assert lines == lines[..n] + lines[n..];
  }

  lemma LinesSplit(text: string, m: nat, n: nat)
    requires m <= n <= |LinesOf(text)|
    ensures text == Concat(LinesOf(text)[..m]) + Concat(LinesOf(text)[m..n]) + Concat(LinesOf(text)[n..])
    ensures Concat(LinesOf(text)[..n]) == Concat(LinesOf(text)[..m]) + Concat(LinesOf(text)[m..n])
  {
    hide LinesOf;
    var lines := LinesOf(text);
    LinesJoin(text);
    ConcatSplit(lines, n);
    ConcatSplit(lines[..n], m);
    assert lines[..n][..m] == lines[..m] && lines[..n][m..] == lines[m..n];
  }

  /** The lines from `m` to `n` are found at the offset of line `m`. */
  lemma LinesOccur(text: string, m: nat, n: nat)
    requires m <= n <= |LinesOf(text)|
    ensures OccursAt(text, Concat(LinesOf(text)[m..n]), LineOffset(text, m))
    ensures LineOffset(text, n) == LineOffset(text, m) + |Concat(LinesOf(text)[m..n])|
  {
    LinesSplit(text, m, n);
    var a, b, c := Concat(LinesOf(text)[..m]), Concat(LinesOf(text)[m..n]), Concat(LinesOf(text)[n..]);
    Middle(a, b, c);
  }

  lemma Middle(a: string, b: string, c: string)
    ensures OccursAt(a + b + c, b, |a|)
  {
  }
}
