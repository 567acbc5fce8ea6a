/** What inputs and outputs cost: every returned or supplied string by its length, every
    collection by its entries. */
module Accounting {
  import opened Model
  import opened Ordering

  function Bytes(ids: seq<string>): nat {
    if ids == [] then 0 else |ids[0]| + Bytes(ids[1..])
  }

  function RepositoryBytes(r: Repository): nat {
    |r.provider| + |r.host| + |r.id|
  }

  /** The method as the evidence spells it. */
  function Label(how: Method): string {
    match how
    case Unstated => ""
    case Merge => "merge"
    case Squash => "squash"
    case Rebase => "rebase"
    case FastForward => "fast_forward"
    case Unknown(text) => text
  }

  function CandidateBytes(c: Candidate): nat {
    RepositoryBytes(c.repository) + |c.id| + |c.terminal| + |c.sourceHead|
    + |Label(c.how)| + |c.methodEvidence| + |c.terminalEvidence| + Bytes(c.source)
  }

  function GapBytes(gaps: seq<Gap>): nat {
    if gaps == [] then 0
    else
      var g := gaps[0];
      |g.candidateId| + |g.objectId| + |g.reason| + |g.span.before| + |g.span.through| + GapBytes(gaps[1..])
  }

  function QueryBytes(q: Query): nat {
    RepositoryBytes(q.bounds.repository) + |q.bounds.base| + |q.bounds.head| + Bytes(q.commits) + GapBytes(q.gaps)
  }

  function InventoryBytes(i: Inventory): nat {
    |i.reason| + |i.nextCommit| + |i.nextPage|
  }

  function PushBytes(pushes: seq<DirectPush>): nat {
    if pushes == [] then 0
    else |pushes[0].before| + |pushes[0].terminal| + Bytes(pushes[0].introduced) + PushBytes(pushes[1..])
  }

  function PushRecords(pushes: seq<DirectPush>): nat {
    if pushes == [] then 0 else 1 + |pushes[0].introduced| + PushRecords(pushes[1..])
  }

  function IntegratedBytes(integrated: seq<Integrated>): nat {
    if integrated == [] then 0
    else |integrated[0].candidateId| + |integrated[0].throughCandidateId| + IntegratedBytes(integrated[1..])
  }

  function LandingBytes(landings: seq<Landing>): nat {
    if landings == [] then 0
    else
      var l := landings[0];
      |l.candidateId| + |l.before| + |l.terminal| + Bytes(l.source) + Bytes(l.introduced) + Bytes(l.proofs)
      + Bytes(l.spine) + LandingBytes(landings[1..])
  }

  function LandingRecords(landings: seq<Landing>): nat {
    if landings == [] then 0
    else
      var l := landings[0];
      1 + |l.source| + |l.introduced| + |l.proofs| + |l.spine| + LandingRecords(landings[1..])
  }

  function ReportBytes(r: Report): nat {
    var c := r.coverage;
    RepositoryBytes(c.bounds.repository) + |c.bounds.base| + |c.bounds.head| + |c.certifiedHead|
    + InventoryBytes(c.inventory) + PushBytes(r.directPushes) + IntegratedBytes(r.integrated) + GapBytes(c.gaps)
    + Bytes(r.unattributed) + LandingBytes(r.landings)
  }

  function ReportRecords(r: Report): nat {
    |r.coverage.gaps| + |r.unattributed| + |r.integrated| + PushRecords(r.directPushes) + LandingRecords(r.landings)
  }

  /** `checkQueryOutput`. */
  predicate QueryFits(q: Query, l: Limits) {
    QueryBytes(q) <= l.outputBytes && |q.commits| + |q.gaps| <= l.records
  }

  /** `checkResultOutput`. */
  predicate ReportFits(r: Report, l: Limits) {
    ReportBytes(r) <= l.outputBytes && ReportRecords(r) <= l.records
  }

  // ----- the same, string by string -----

  function RepositoryStrings(r: Repository): seq<string> {
    [r.provider, r.host, r.id]
  }

  function CandidateStrings(c: Candidate): seq<string> {
    RepositoryStrings(c.repository)
    + [c.id, c.terminal, c.sourceHead, Label(c.how), c.methodEvidence, c.terminalEvidence] + c.source
  }

  function GapStrings(g: Gap): seq<string> {
    [g.candidateId, g.objectId, g.reason, g.span.before, g.span.through]
  }

  function QueryStrings(q: Query): seq<string> {
    RepositoryStrings(q.bounds.repository) + [q.bounds.base, q.bounds.head] + q.commits + FlatMap(q.gaps, GapStrings)
  }

  function InventoryStrings(i: Inventory): seq<string> {
    [i.reason, i.nextCommit, i.nextPage]
  }

  function PushStrings(d: DirectPush): seq<string> {
    [d.before, d.terminal] + d.introduced
  }

  function IntegratedStrings(i: Integrated): seq<string> {
    [i.candidateId, i.throughCandidateId]
  }

  /** The commits and labels that a landing lists. */
  function LandingEntries(l: Landing): seq<string> {
    l.source + l.introduced + l.proofs + l.spine
  }

  function LandingStrings(l: Landing): seq<string> {
    [l.candidateId, l.before, l.terminal] + LandingEntries(l)
  }

  function IntroducedBy(d: DirectPush): seq<Id> {
    d.introduced
  }

  function SourceOf(c: Candidate): seq<Id> {
    c.source
  }

  /** Every string of a report. */
  function ReportStrings(r: Report): seq<string> {
    var c := r.coverage;
    RepositoryStrings(c.bounds.repository) + [c.bounds.base, c.bounds.head, c.certifiedHead]
    + InventoryStrings(c.inventory) + FlatMap(r.directPushes, PushStrings) + FlatMap(r.integrated, IntegratedStrings)
    + FlatMap(c.gaps, GapStrings) + r.unattributed + FlatMap(r.landings, LandingStrings)
  }

  lemma {:induction false} BytesAppend(a: seq<string>, b: seq<string>)
    ensures Bytes(a + b) == Bytes(a) + Bytes(b)
  {
    if a == [] {
      assert a + b == b;
    } else {
      assert (a + b)[1..] == a[1..] + b;
      BytesAppend(a[1..], b);
    }
  }

  lemma BytesNone()
    ensures Bytes([]) == 0
  {
  }

  lemma BytesTwo(x: string, y: string)
    ensures Bytes([x, y]) == |x| + |y|
  {
    assert [x, y][1..] == [y] && [y][1..] == [];
    assert Bytes([y]) == |y| + Bytes([]);
  }

  lemma BytesThree(x: string, y: string, z: string)
    ensures Bytes([x, y, z]) == |x| + |y| + |z|
  {
    assert [x, y, z][1..] == [y, z];
    BytesTwo(y, z);
  }

  lemma BytesFive(u: string, v: string, x: string, y: string, z: string)
    ensures Bytes([u, v, x, y, z]) == |u| + |v| + |x| + |y| + |z|
  {
    assert [u, v] + [x, y, z] == [u, v, x, y, z];
    BytesAppend([u, v], [x, y, z]);
    BytesTwo(u, v);
    BytesThree(x, y, z);
  }

  lemma CandidateCharged(c: Candidate)
    ensures CandidateBytes(c) == Bytes(CandidateStrings(c))
  {
    hide Bytes;
    var own, more := RepositoryStrings(c.repository), [c.id, c.terminal, c.sourceHead];
    var rest := [Label(c.how), c.methodEvidence, c.terminalEvidence];
    assert CandidateStrings(c) == own + (more + (rest + c.source));
    BytesAppend(own, more + (rest + c.source));
    BytesAppend(more, rest + c.source);
    BytesAppend(rest, c.source);
    BytesThree(c.repository.provider, c.repository.host, c.repository.id);
    BytesThree(c.id, c.terminal, c.sourceHead);
    BytesThree(Label(c.how), c.methodEvidence, c.terminalEvidence);
  }

  lemma {:induction false} GapsCharged(gaps: seq<Gap>)
    ensures GapBytes(gaps) == Bytes(FlatMap(gaps, GapStrings))
  {
    hide Bytes;
    if gaps == [] {
      BytesNone();
    } else {
      var g := gaps[0];
      GapsCharged(gaps[1..]);
      BytesAppend(GapStrings(g), FlatMap(gaps[1..], GapStrings));
      BytesFive(g.candidateId, g.objectId, g.reason, g.span.before, g.span.through);
    }
  }

  /** A query is charged the length of every string in it, once. */
  lemma QueryCharged(q: Query)
    ensures QueryBytes(q) == Bytes(QueryStrings(q))
  {
    hide Bytes;
    var r, gaps := q.bounds.repository, FlatMap(q.gaps, GapStrings);
    assert QueryStrings(q) == [r.provider, r.host, r.id, q.bounds.base, q.bounds.head] + (q.commits + gaps);
    BytesAppend([r.provider, r.host, r.id, q.bounds.base, q.bounds.head], q.commits + gaps);
    BytesAppend(q.commits, gaps);
    BytesFive(r.provider, r.host, r.id, q.bounds.base, q.bounds.head);
    GapsCharged(q.gaps);
  }

  lemma {:induction false} PushesCharged(pushes: seq<DirectPush>)
    ensures PushBytes(pushes) == Bytes(FlatMap(pushes, PushStrings))
    ensures PushRecords(pushes) == |pushes| + |FlatMap(pushes, IntroducedBy)|
  {
    hide Bytes;
    if pushes == [] {
      BytesNone();
    } else {
      var d := pushes[0];
      PushesCharged(pushes[1..]);
      BytesAppend(PushStrings(d), FlatMap(pushes[1..], PushStrings));
      BytesAppend([d.before, d.terminal], d.introduced);
      BytesTwo(d.before, d.terminal);
    }
  }

  lemma {:induction false} IntegratedCharged(all: seq<Integrated>)
    ensures IntegratedBytes(all) == Bytes(FlatMap(all, IntegratedStrings))
  {
    hide Bytes;
    if all == [] {
      BytesNone();
    } else {
      IntegratedCharged(all[1..]);
      BytesAppend(IntegratedStrings(all[0]), FlatMap(all[1..], IntegratedStrings));
      BytesTwo(all[0].candidateId, all[0].throughCandidateId);
    }
  }

  lemma LandingCharged(l: Landing)
    ensures |l.candidateId| + |l.before| + |l.terminal| + Bytes(l.source) + Bytes(l.introduced) + Bytes(l.proofs)
            + Bytes(l.spine) == Bytes(LandingStrings(l))
  {
    hide Bytes;
    var names := [l.candidateId, l.before, l.terminal];
    assert LandingStrings(l) == names + (l.source + (l.introduced + (l.proofs + l.spine)));
    BytesAppend(names, l.source + (l.introduced + (l.proofs + l.spine)));
    BytesAppend(l.source, l.introduced + (l.proofs + l.spine));
    BytesAppend(l.introduced, l.proofs + l.spine);
    BytesAppend(l.proofs, l.spine);
    BytesThree(l.candidateId, l.before, l.terminal);
  }

  lemma {:induction false} LandingsCharged(landings: seq<Landing>)
    ensures LandingBytes(landings) == Bytes(FlatMap(landings, LandingStrings))
    ensures LandingRecords(landings) == |landings| + |FlatMap(landings, LandingEntries)|
  {
    hide Bytes;
    if landings == [] {
      BytesNone();
    } else {
      LandingsCharged(landings[1..]);
      BytesAppend(LandingStrings(landings[0]), FlatMap(landings[1..], LandingStrings));
      LandingCharged(landings[0]);
    }
  }

  /** A report is charged the length of every string in it and one record for every entry that it
      lists, each once, against the output and record limits. */
  lemma ReportCharged(r: Report, limits: Limits)
    ensures ReportFits(r, limits) <==>
            Bytes(ReportStrings(r)) <= limits.outputBytes && ReportRecords(r) <= limits.records
    ensures ReportBytes(r) == Bytes(ReportStrings(r))
    ensures ReportRecords(r) ==
            |r.coverage.gaps| + |r.unattributed| + |r.integrated|
            + |r.directPushes| + |FlatMap(r.directPushes, IntroducedBy)|
            + |r.landings| + |FlatMap(r.landings, LandingEntries)|
  {
    hide Bytes, FlatMap;
    var c := r.coverage;
    var own, ends := RepositoryStrings(c.bounds.repository), [c.bounds.base, c.bounds.head, c.certifiedHead];
    var pushes, integrated := FlatMap(r.directPushes, PushStrings), FlatMap(r.integrated, IntegratedStrings);
    var gaps, landings := FlatMap(c.gaps, GapStrings), FlatMap(r.landings, LandingStrings);
    var tail := pushes + (integrated + (gaps + (r.unattributed + landings)));
    assert ReportStrings(r) == own + (ends + (InventoryStrings(c.inventory) + tail));
    BytesAppend(own, ends + (InventoryStrings(c.inventory) + tail));
    BytesAppend(ends, InventoryStrings(c.inventory) + tail);
    BytesAppend(InventoryStrings(c.inventory), tail);
    BytesAppend(pushes, integrated + (gaps + (r.unattributed + landings)));
    BytesAppend(integrated, gaps + (r.unattributed + landings));
    BytesAppend(gaps, r.unattributed + landings);
    BytesAppend(r.unattributed, landings);
    BytesThree(c.bounds.repository.provider, c.bounds.repository.host, c.bounds.repository.id);
    BytesThree(c.bounds.base, c.bounds.head, c.certifiedHead);
    BytesThree(c.inventory.reason, c.inventory.nextCommit, c.inventory.nextPage);
    PushesCharged(r.directPushes);
    IntegratedCharged(r.integrated);
    GapsCharged(c.gaps);
    LandingsCharged(r.landings);
  }

  /** Candidates together are charged every string of each. */
  lemma CandidatesCharged(cs: seq<Candidate>, c: Candidate)
    ensures Bytes(FlatMap([c] + cs, CandidateStrings)) == CandidateBytes(c) + Bytes(FlatMap(cs, CandidateStrings))
  {
    hide Bytes;
    assert ([c] + cs)[1..] == cs;
    CandidateCharged(c);
    BytesAppend(CandidateStrings(c), FlatMap(cs, CandidateStrings));
  }
}
