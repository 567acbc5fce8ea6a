/** The revision stream: Git's output arrives in arbitrary chunks. */
module Streaming {
  import opened Model
  import opened Metering

  const MAX_ID := 64

  /** `bytes.IndexByte`. */
  function IndexOf(p: string, c: char): (i: int)
    ensures -1 <= i < |p|
    ensures i < 0 ==> c !in p
    ensures i >= 0 ==> p[i] == c && c !in p[..i]
  {
    if p == [] then -1
    else if p[0] == c then 0
    else
      var i := IndexOf(p[1..], c);
      if i < 0 then -1
      else
        assert p[..i + 1] == [p[0]] + p[1..][..i];
        i + 1
  }

  /** What the stream keeps between writes. */
  datatype Lines = Lines(ids: seq<Id>, pending: string)

  /** The stream and the balances it draws on. */
  datatype Balance = Balance(lines: Lines, records: nat, nodes: nat, inputBytes: nat)

  // ----- the program's loop as a function: one write consumes whole lines -----

  datatype Fed = Fed(balance: Balance) | Exhausted | Malformed

  function Consume(s: Balance, p: string): Fed
    decreases |p|
  {
    if p == [] then Fed(s)
    else
      var end := IndexOf(p, '\n');
      if end < 0 then
        if |s.lines.pending| + |p| > MAX_ID then Malformed
        else Fed(s.(lines := Lines(s.lines.ids, s.lines.pending + p)))
      else
        var id := s.lines.pending + p[..end];
        if |s.lines.pending| + end > MAX_ID then Malformed
        else if s.nodes == 0 || s.records < 1 then Exhausted
        else if !ObjectId(id) then Malformed
        else Consume(Balance(Lines(s.lines.ids + [id], ""), s.records - 1, s.nodes - 1, s.inputBytes), p[end + 1..])
  }

  function Feed(s: Balance, p: string): Fed {
    if |p| > s.inputBytes then Exhausted else Consume(s.(inputBytes := s.inputBytes - |p|), p)
  }

  function FeedAll(s: Balance, chunks: seq<string>): Option<Balance>
    decreases |chunks|
  {
    if chunks == [] then Some(s)
    else
      match Feed(s, chunks[0])
      case Fed(next) => FeedAll(next, chunks[1..])
      case _ => None
  }

  // ----- the reference: one byte at a time, without budgets -----

  function Step(l: Lines, c: char): Option<Lines> {
    if c == '\n' then
      if ObjectId(l.pending) then Some(Lines(l.ids + [l.pending], "")) else None
    else if |l.pending| < MAX_ID then Some(Lines(l.ids, l.pending + [c]))
    else None
  }

  function Parse(l: Lines, text: string): Option<Lines>
    decreases |text|
  {
    if text == [] then Some(l)
    else
      var next := Step(l, text[0]);
      if next.None? then None else Parse(next.value, text[1..])
  }

  function Newlines(text: string): nat {
    if text == [] then 0 else (if text[0] == '\n' then 1 else 0) + Newlines(text[1..])
  }

  function Concat(chunks: seq<string>): string {
    if chunks == [] then "" else chunks[0] + Concat(chunks[1..])
  }

  /** How many bytes and lines of `text` a reader with these balances can take. */
  predicate Affords(s: Balance, text: string) {
    |text| <= s.inputBytes && Newlines(text) <= s.nodes && Newlines(text) <= s.records
  }

  function Reference(s: Balance, text: string): Option<Balance> {
    var parsed := Parse(s.lines, text);
    if parsed.None? || !Affords(s, text) then None
    else Some(Balance(parsed.value, s.records - Newlines(text), s.nodes - Newlines(text), s.inputBytes - |text|))
  }

  // ----- proofs -----

  lemma {:induction false} ParseAppend(l: Lines, a: string, b: string)
    ensures Parse(l, a + b) == (if Parse(l, a).None? then None else Parse(Parse(l, a).value, b))
    ensures Newlines(a + b) == Newlines(a) + Newlines(b)
    decreases |a|
  {
    if a == [] {
      assert a + b == b;
    } else {
      assert (a + b)[1..] == a[1..] + b;
      var next := Step(l, a[0]);
      ParseAppend(if next.None? then l else next.value, a[1..], b);
    }
  }

  lemma {:induction false} ParsePlain(l: Lines, text: string)
    requires '\n' !in text && |l.pending| <= MAX_ID
    ensures Parse(l, text) ==
            (if |l.pending| + |text| <= MAX_ID then Some(Lines(l.ids, l.pending + text)) else None)
    ensures Newlines(text) == 0
    decreases |text|
  {
    if text == [] {
      assert l.pending + text == l.pending;
    } else {
      var next := Lines(l.ids, l.pending + [text[0]]);
      if |l.pending| < MAX_ID {
        ParsePlain(next, text[1..]);
        assert next.pending + text[1..] == l.pending + text;
      } else {
        ParsePlain(Lines(l.ids, ""), text[1..]);
      }
    }
  }

  lemma ParseNothing(l: Lines)
    ensures Parse(l, "") == Some(l) && Newlines("") == 0
  {
  }

  lemma {:induction false} ConsumeIsParse(s: Balance, p: string)
    requires |s.lines.pending| <= MAX_ID
    ensures Consume(s, p).Fed? <==> Parse(s.lines, p).Some? && Newlines(p) <= s.nodes && Newlines(p) <= s.records
    ensures Consume(s, p).Fed? ==>
              Consume(s, p).balance ==
                  Balance(Parse(s.lines, p).value, s.records - Newlines(p), s.nodes - Newlines(p), s.inputBytes)
    ensures Consume(s, p).Malformed? ==> Parse(s.lines, p).None?
    ensures Parse(s.lines, p).Some? ==> |Parse(s.lines, p).value.pending| <= MAX_ID
    decreases |p|
  {
    hide Parse, Newlines, ObjectId, IndexOf;
    ParseNothing(s.lines);
    if p != [] {
      var end := IndexOf(p, '\n');
      ParseLine(s.lines, p);
      if end < 0 {
        ParsePlain(s.lines, p);
      } else {
        var rest := p[end + 1..];
        var id := s.lines.pending + p[..end];
        if |s.lines.pending| + end <= MAX_ID && ObjectId(id) {
          var after := Lines(s.lines.ids + [id], "");
          if s.nodes != 0 && s.records >= 1 {
            ConsumeIsParse(Balance(after, s.records - 1, s.nodes - 1, s.inputBytes), rest);
          } else {
            ConsumeIsParse(Balance(after, s.records, s.nodes, s.inputBytes), rest);
          }
        }
      }
    }
  }

  /** Reading a text is reading its first line and then the rest. */
  lemma ParseLine(l: Lines, p: string)
    requires |l.pending| <= MAX_ID
    ensures var end := IndexOf(p, '\n');
            end >= 0 ==>
              && Newlines(p) == 1 + Newlines(p[end + 1..])
              && Parse(l, p) == (if |l.pending| + end > MAX_ID || !ObjectId(l.pending + p[..end]) then None
                                 else Parse(Lines(l.ids + [l.pending + p[..end]], ""), p[end + 1..]))
  {
    var end := IndexOf(p, '\n');
    if end >= 0 {
      var line, rest := p[..end], p[end + 1..];
      assert p == line + ("\n" + rest);
      ParsePlain(l, line);
      ParseAppend(l, line, "\n" + rest);
      assert ("\n" + rest)[1..] == rest;
    }
  }

  lemma FeedIsParse(s: Balance, p: string)
    requires |s.lines.pending| <= MAX_ID
    ensures Feed(s, p).Fed? ==>
              |Feed(s, p).balance.lines.pending| <= MAX_ID && Parse(s.lines, p) == Some(Feed(s, p).balance.lines)
    ensures Feed(s, p).Malformed? ==> Parse(s.lines, p).None?
  {
    if |p| <= s.inputBytes {
      ConsumeIsParse(s.(inputBytes := s.inputBytes - |p|), p);
    }
  }

  /** One accepted write moves the reader on; a malformed one dooms the whole text. */
  lemma FeedThenParse(s: Balance, p: string, rest: string)
    requires |s.lines.pending| <= MAX_ID
    ensures Feed(s, p).Fed? ==>
              && |Feed(s, p).balance.lines.pending| <= MAX_ID
              && Parse(Feed(s, p).balance.lines, rest) == Parse(s.lines, p + rest)
    ensures Feed(s, p).Malformed? ==> Parse(s.lines, p + rest).None?
  {
    FeedIsParse(s, p);
    ParseAppend(s.lines, p, rest);
  }

  /** However the bytes are split into writes, the stream does what reading them one at a time
      does: it fails for the same inputs and otherwise ends with the same IDs, the same
      unfinished text and the same balances. */
  lemma {:induction false} FeedAllIsReference(s: Balance, chunks: seq<string>)
    requires |s.lines.pending| <= MAX_ID
    ensures FeedAll(s, chunks) == Reference(s, Concat(chunks))
    decreases |chunks|
  {
    hide Parse, Newlines, ObjectId, IndexOf, Consume;
    ParseNothing(s.lines);
    if chunks != [] {
      var p, rest := chunks[0], Concat(chunks[1..]);
      ParseAppend(s.lines, p, rest);
      if |p| <= s.inputBytes {
        ConsumeIsParse(s.(inputBytes := s.inputBytes - |p|), p);
        var next := Feed(s, p);
        if next.Fed? {
          FeedAllIsReference(next.balance, chunks[1..]);
        }
      }
    }
  }

  lemma ChunkInvariance(s: Balance, one: seq<string>, other: seq<string>)
    requires |s.lines.pending| <= MAX_ID
    requires Concat(one) == Concat(other)
    ensures FeedAll(s, one) == FeedAll(s, other)
  {
    FeedAllIsReference(s, one);
    FeedAllIsReference(s, other);
  }

  /** What `git rev-list` prints. */
  function Print(ids: seq<Id>): string {
    if ids == [] then "" else ids[0] + "\n" + Print(ids[1..])
  }

  lemma ParseWholeLine(l: Lines, id: Id, rest: string)
    requires l.pending == "" && ObjectId(id) && '\n' !in id && |id| <= MAX_ID
    ensures Parse(l, id + ("\n" + rest)) == Parse(Lines(l.ids + [id], ""), rest)
    ensures Newlines(id + ("\n" + rest)) == 1 + Newlines(rest)
  {
    hide ObjectId;
    ParsePlain(l, id);
    assert l.pending + id == id;
    ParseAppend(l, id, "\n" + rest);
    assert ("\n" + rest)[1..] == rest;
  }

  lemma {:induction false} ParsePrint(l: Lines, ids: seq<Id>)
    requires l.pending == "" && forall id :: id in ids ==> ObjectId(id)
    ensures Parse(l, Print(ids)) == Some(Lines(l.ids + ids, ""))
    ensures Newlines(Print(ids)) == |ids|
    decreases |ids|
  {
    if ids == [] {
      assert l.ids + ids == l.ids;
    } else {
      var id, rest := ids[0], Print(ids[1..]);
      assert ObjectId(id) && '\n' !in id && |id| <= MAX_ID;
      hide ObjectId;
      assert Print(ids) == id + ("\n" + rest);
      var next := Lines(l.ids + [id], "");
      ParseWholeLine(l, id, rest);
      ParsePrint(next, ids[1..]);
      assert next.ids + ids[1..] == l.ids + ids;
    }
  }

  /** Printing valid IDs and reading them back through any chunks restores them with nothing
      pending, exactly when the budget covers one node and one record an ID and every byte. */
  lemma StreamRoundTrip(records: nat, nodes: nat, inputBytes: nat, ids: seq<Id>, chunks: seq<string>)
    requires forall id :: id in ids ==> ObjectId(id)
    requires Concat(chunks) == Print(ids)
    ensures FeedAll(Balance(Lines([], ""), records, nodes, inputBytes), chunks) ==
            (if |ids| <= records && |ids| <= nodes && |Print(ids)| <= inputBytes
             then Some(Balance(Lines(ids, ""), records - |ids|, nodes - |ids|, inputBytes - |Print(ids)|))
             else None)
  {
    FeedAllIsReference(Balance(Lines([], ""), records, nodes, inputBytes), chunks);
    ParsePrint(Lines([], ""), ids);
    assert [] + ids == ids;
  }

  /** What a reader has taken in so far, as text. */
  function TextOf(l: Lines): string {
    Print(l.ids) + l.pending
  }

  /** Only full object names were taken, and the unfinished line is short and has no newline. */
  predicate WellRead(l: Lines) {
    (forall id :: id in l.ids ==> ObjectId(id)) && '\n' !in l.pending && |l.pending| <= 64
  }

  lemma {:induction false} PrintAppend(ids: seq<Id>, id: Id)
    ensures Print(ids + [id]) == Print(ids) + id + "\n"
  {
    if ids == [] {
      assert Print([id]) == id + "\n" + Print([]);
    } else {
      assert (ids + [id])[0] == ids[0] && (ids + [id])[1..] == ids[1..] + [id];
      PrintAppend(ids[1..], id);
    }
  }

  lemma StepReads(l: Lines, c: char)
    requires WellRead(l)
    ensures Step(l, c).Some? ==> WellRead(Step(l, c).value) && TextOf(Step(l, c).value) == TextOf(l) + [c]
  {
    hide ObjectId, Print;
    if c == '\n' {
      PrintAppend(l.ids, l.pending);
    }
  }

  /** Nothing is lost or made up on the way: what was taken in prints as the text that was read. */
  lemma {:induction false} ParseReads(l: Lines, text: string)
    requires WellRead(l)
    ensures Parse(l, text).Some? ==> WellRead(Parse(l, text).value) && TextOf(Parse(l, text).value) == TextOf(l) + text
    decreases |text|
  {
    hide WellRead, TextOf, Step;
    if text != "" {
      StepReads(l, text[0]);
      if Step(l, text[0]).Some? {
        ParseReads(Step(l, text[0]).value, text[1..]);
        assert text == [text[0]] + text[1..];
      }
    }
  }

  /** A text is read exactly when it is a list of full object names, each on its line, and an
      unfinished line that could still be one; that list and that line are what is read. */
  lemma ParseExactly(text: string, l: Lines)
    ensures Parse(Lines([], ""), text) == Some(l) <==> WellRead(l) && text == Print(l.ids) + l.pending
  {
    ParseReads(Lines([], ""), text);
    assert TextOf(Lines([], "")) + text == text;
    if WellRead(l) && text == Print(l.ids) + l.pending {
      ParsePrint(Lines([], ""), l.ids);
      ParseAppend(Lines([], ""), Print(l.ids), l.pending);
      ParsePlain(Lines(l.ids, ""), l.pending);
      assert [] + l.ids == l.ids && "" + l.pending == l.pending;
    }
  }

  lemma {:induction false} LinesCounted(ids: seq<Id>, rest: string)
    requires (forall id :: id in ids ==> ObjectId(id)) && '\n' !in rest && |rest| <= 64
    ensures Newlines(Print(ids) + rest) == |ids|
  {
    ParsePrint(Lines([], ""), ids);
    ParseAppend(Lines([], ""), Print(ids), rest);
    ParsePlain(Lines([], ""), rest);
  }

  /** The stream takes in exactly such texts, within a budget of a node and a record for each ID and of
      every byte, and spends that much. */
  lemma StreamExactly(records: nat, nodes: nat, inputBytes: nat, chunks: seq<string>, b: Balance)
    ensures FeedAll(Balance(Lines([], ""), records, nodes, inputBytes), chunks) == Some(b) <==>
            var n, text := |b.lines.ids|, Concat(chunks);
            && WellRead(b.lines) && text == Print(b.lines.ids) + b.lines.pending
            && n <= records && n <= nodes && |text| <= inputBytes
            && b.records == records - n && b.nodes == nodes - n && b.inputBytes == inputBytes - |text|
  {
    hide Parse, ObjectId, Print, Newlines, FeedAll;
    var s, text := Balance(Lines([], ""), records, nodes, inputBytes), Concat(chunks);
    FeedAllIsReference(s, chunks);
    forall l ensures Parse(s.lines, text) == Some(l) <==> WellRead(l) && text == Print(l.ids) + l.pending {
      ParseExactly(text, l);
    }
    forall l | WellRead(l) && text == Print(l.ids) + l.pending ensures Newlines(text) == |l.ids| {
      LinesCounted(l.ids, l.pending);
    }
  }

  // ----- the writer -----

  class CommitStream {
    const meter: Meter
    var ids: seq<Id>
    var pending: string

    constructor (meter: Meter)
      ensures this.meter == meter && ids == [] && pending == ""
    {
      this.meter, this.ids, this.pending := meter, [], "";
    }

    function Now(): Balance
      reads this, meter
    {
      Balance(Lines(ids, pending), meter.records, meter.nodes, meter.inputBytes)
    }

    /** One whole line: a node, a record, and its ID. */
    method TakeLine(line: string) returns (ok: bool)
      modifies this, meter
      ensures ok <==> old(meter.nodes) != 0 && old(meter.records) >= 1 && ObjectId(old(pending) + line)
      ensures ok ==> ids == old(ids) + [old(pending) + line] && pending == ""
      ensures meter.failed <==> old(meter.failed) || old(meter.nodes) == 0 || old(meter.records) < 1
      ensures ok ==> meter.nodes == old(meter.nodes) - 1 && meter.records == old(meter.records) - 1
      ensures old(meter.nodes) - 1 <= meter.nodes <= old(meter.nodes)
      ensures old(meter.records) - 1 <= meter.records <= old(meter.records)
      ensures meter.inputBytes == old(meter.inputBytes) && meter.asked == old(meter.asked)
    {
      hide ObjectId;
      var node := meter.Node();
      if !node {
        return false;
      }
      var record := meter.Records(1);
      if !record {
        return false;
      }
      var id := pending + line;
      if !ObjectId(id) {
        return false;
      }
      ids := ids + [id];
      pending := "";
      ok := true;
    }

    /** A failed write leaves the meter failed exactly when it was the budget that ran out. */
    method Write(text: string) returns (ok: bool)
      modifies this, meter
      ensures ok <==> old(Feed(Now(), text)).Fed?
      ensures ok ==> Now() == old(Feed(Now(), text)).balance
      ensures meter.failed <==> old(meter.failed) || old(Feed(Now(), text)).Exhausted?
      ensures meter.nodes <= old(meter.nodes) && meter.asked == old(meter.asked)
      ensures !meter.failed ==>
                && meter.inputBytes + |text| >= old(meter.inputBytes)
                && meter.nodes + |text| >= old(meter.nodes) && meter.records + |text| >= old(meter.records)
      ensures meter.failed && !old(meter.failed) ==>
                old(meter.inputBytes) < |text| || old(meter.nodes) < |text| || old(meter.records) < |text|
    {
      hide ObjectId, IndexOf;
      var charged := meter.Input(|text|);
      if !charged {
        return false;
      }
      ghost var target := Consume(Now(), text);
      var p := text;
      while |p| > 0
        invariant Consume(Now(), p) == target
        invariant meter.failed == old(meter.failed)
        invariant meter.nodes <= old(meter.nodes) && meter.asked == old(meter.asked)
        invariant meter.inputBytes + |text| == old(meter.inputBytes) && |p| <= |text|
        invariant meter.nodes + |text| >= old(meter.nodes) + |p| && meter.records + |text| >= old(meter.records) + |p|
        decreases |p|
      {
        var end := IndexOf(p, '\n');
        if end < 0 {
          if |pending| + |p| > MAX_ID {
            return false;
          }
          pending := pending + p;
          p := "";
          break;
        }
        if |pending| + end > MAX_ID {
          return false;
        }
        var taken := TakeLine(p[..end]);
        if !taken {
          return false;
        }
        p := p[end + 1..];
      }
      ok := true;
    }
  }
}
