/** Proving one candidate: which landing, if any, the store supports for it. */
module Proofs {
  import opened Model
  import opened Store
  import opened View
  import opened Edits
  import opened TreeEdits
  import opened Sources
  import opened Ranges
  import opened Alternatives
  import opened Ordering

  const REBASE := "rebase"
  const FAST_FORWARD := "fast_forward"
  const SQUASH := "squash"
  const MERGE := "merge"

  function RefuseAt(c: Candidate, culprit: Id, reason: string): Verdict {
    Verdict(NO_LANDING, Gap(c.id, culprit, reason, NO_SPAN))
  }

  // ----- ranges -----

  function RangeLanding(c: Candidate, r: RangeResult): Landing {
    Landing(c.id, r.before, c.terminal, [REBASE], r.commits, c.source, r.commits)
  }

  /** The rebase attempt, then the fast-forward attempt. */
  function RangeAttempts(p: Interval, c: Candidate, r: RangeResult): (both: (Attempt, Attempt))
    ensures both.0.state.Match? ==> both.0.landing.candidateId == c.id
    ensures both.1.state.Match? ==> both.1.landing.candidateId == c.id
  {
    if r.error == Some(Correspondence) then (REFUTED, REFUTED)
    else
      var a := if r.error.Some?
               then Attempt(Inconclusive, NO_LANDING, Gap(c.id, r.culprit, EditReason(r.error.value), NO_SPAN), false)
               else Attempt(Match, RangeLanding(c, r), NO_GAP, Position(p.spine, c.terminal) + 1 < |c.source|);
      (a, if !r.identical then REFUTED
          else if a.state.Match? then a.(landing := a.landing.(proofs := [FAST_FORWARD]))
          else a)
  }

  function RangeAlternatives(st: Objects, p: Interval, c: Candidate, sourceBefore: Id, before: Id): (Attempt, Attempt)
    requires |c.source| > 0
  {
    RangeAttempts(p, c, CompareRange(st, c, sourceBefore, before))
  }

  function ProveRange(st: Objects, p: Interval, c: Candidate): Verdict
    requires |c.source| > 0
  {
    var end := Position(p.spine, c.terminal) + 1;
    if end < |c.source| || end == 0 then Refuse(c, "range_crosses_base")
    else
      var source := SourceBoundary(st, c);
      if source.gap.reason != "" then Verdict(NO_LANDING, source.gap)
      else
        match Parents(st, c.terminal)
        case Err(e) => Refuse(c, GraphReason(e))
        case Ok(parents) =>
          if |parents| != 1 then Refuse(c, "topology_unproven")
          else
            var attempts := RangeAlternatives(st, p, c, source.before, parents[0]);
            Settle(c, if c.how == FastForward then attempts.1 else attempts.0)
  }

  function Settle(c: Candidate, a: Attempt): Verdict {
    if a.state.Mismatch? then Refuse(c, "source_correspondence_unproven") else Verdict(a.landing, a.gap)
  }

  // ----- squashes and unlabelled single-parent candidates -----

  function SquashLanding(c: Candidate, before: Id): Landing {
    Landing(c.id, before, c.terminal, [SQUASH], [c.terminal], c.source, [c.terminal])
  }

  /** Match, conclusive mismatch, or a gap that prevents choosing another alternative. */
  function SquashAttempt(c: Candidate, before: Id, edits: Result<seq<FileEdit>>): Attempt {
    match edits
    case Ok(_) => Attempt(Match, SquashLanding(c, before), NO_GAP, false)
    case Err(Correspondence) => REFUTED
    case Err(e) => Attempt(Inconclusive, NO_LANDING, Gap(c.id, c.terminal, EditReason(e), NO_SPAN), false)
  }

  function CompareSquash(st: Objects, c: Candidate, sourceBefore: Id, before: Id): Attempt {
    SquashAttempt(c, before, CompareTrees(st, sourceBefore, c.sourceHead, before, c.terminal))
  }

  function ProveSquash(st: Objects, c: Candidate, before: Id): Verdict
    requires |c.source| > 0
  {
    var source := SourceBoundary(st, c);
    if source.gap.reason != "" then Verdict(NO_LANDING, source.gap)
    else
      match Parents(st, before)
      case Err(e) => RefuseAt(c, before, GraphReason(e))
      case Ok(_) => Settle(c, CompareSquash(st, c, source.before, before))
  }

  function ProveSingleParent(st: Objects, p: Interval, c: Candidate, before: Id): Verdict
    requires |c.source| > 0
  {
    var source := SourceBoundary(st, c);
    if source.gap.reason != "" then Verdict(NO_LANDING, source.gap)
    else
      match Parents(st, before)
      case Err(e) => RefuseAt(c, before, GraphReason(e))
      case Ok(_) =>
        var ranges := RangeAlternatives(st, p, c, source.before, before);
        Resolve(c, [CompareSquash(st, c, source.before, before), ranges.0, ranges.1], false)
  }

  // ----- merges -----

  function CheckSourcesFrom(st: Objects, c: Candidate, i: nat): (string, Id)
    requires i <= |c.source|
    decreases |c.source| - i
  {
    if i == |c.source| then
      if c.sourceHead in c.source then ("", "") else ("source_incomplete", c.sourceHead)
    else if c.source[i] == "" || c.source[i] in c.source[..i] then ("source_invalid", c.source[i])
    else
      match Parents(st, c.source[i])
      case Err(e) => (GraphReason(e), c.source[i])
      case Ok(_) => CheckSourcesFrom(st, c, i + 1)
  }

  /** The source commits that `before` does not already contain. */
  function ExpectedFrom(st: Objects, c: Candidate, before: Id, i: nat, expected: seq<Id>): Result<seq<Id>>
    requires i <= |c.source|
    decreases |c.source| - i
  {
    if i == |c.source| then Ok(expected)
    else
      match IsAncestor(st, c.source[i], before)
      case Err(e) => Err(e)
      case Ok(present) => ExpectedFrom(st, c, before, i + 1, if present then expected else expected + [c.source[i]])
  }

  function Without(ids: seq<Id>, id: Id): seq<Id> {
    Select(ids, (x: Id) => x != id)
  }

  function CompareMerge(st: Objects, c: Candidate, before: Id): Result<seq<Id>> {
    match Introduced(st, before, c.terminal)
    case Err(e) => Err(e)
    case Ok(ids) =>
      match ExpectedFrom(st, c, before, 0, [])
      case Err(e) => Err(e)
      case Ok(expected) =>
        var sorted := Sort(Without(ids, c.terminal), Below);
        if sorted == Sort(expected, Below) then Ok(sorted) else Err(Correspondence)
  }

  function MergeVerdict(c: Candidate, before: Id, ids: Result<seq<Id>>): Verdict {
    match ids
    case Ok(introduced) =>
      Verdict(Landing(c.id, before, c.terminal, [MERGE], [c.terminal], c.source, introduced), NO_GAP)
    case Err(Correspondence) => Refuse(c, "source_correspondence_unproven")
    case Err(e) => Refuse(c, GraphReason(e))
  }

  function ProveMerge(st: Objects, c: Candidate, before: Id): Verdict {
    var (reason, culprit) := CheckSourcesFrom(st, c, 0);
    if reason != "" then RefuseAt(c, culprit, reason)
    else if Parents(st, before).Err? then RefuseAt(c, before, GraphReason(Parents(st, before).error))
    else MergeVerdict(c, before, CompareMerge(st, c, before))
  }

  // ----- one candidate -----

  /** What the evidence must state before any object is read. */
  function Admissible(c: Candidate, caps: Capabilities): (reason: string) {
    if (c.how == Rebase && !caps.rebase) || (c.how == FastForward && !caps.fastForward) then "method_unsupported"
    else if c.terminal == "" || c.terminalEvidence == "" then "terminal_unproven"
    else if c.how != Unstated && c.methodEvidence == "" then "method_unproven"
    else if !c.sourceComplete || |c.source| == 0 || c.sourceHead == "" then "source_incomplete"
    else ""
  }

  /** Whether the unlabelled single-parent alternatives are authorised. */
  predicate Automatic(p: Interval, c: Candidate, caps: Capabilities, parents: seq<Id>) {
    c.how == Unstated && |parents| == 1 && caps.singleParentCorrespondence && c.terminal in p.spine
  }

  /** The checks on the terminal's parents for a merge or a squash. */
  function Topology(c: Candidate, caps: Capabilities, parents: seq<Id>): (reason: string)
    ensures c.how == Unstated || c.how == Merge ==>
              (reason == "" <==> caps.merge && |parents| == 2 && parents[1] == c.sourceHead)
    ensures c.how == Squash ==> (reason == "" <==> caps.squash && |parents| == 1)
  {
    var how := if c.how == Unstated && |parents| == 2 then Merge else c.how;
    if how == Unstated then "method_unproven"
    else if (how == Merge && !caps.merge) || (how == Squash && !caps.squash) then "method_unsupported"
    else if (how == Merge && |parents| != 2) || (how == Squash && |parents| != 1) then "topology_unproven"
    else if how == Merge && parents[1] != c.sourceHead then "source_head_mismatch"
    else ""
  }

  /** `proveAt`.  Evidence validation has already rejected any other method label. */
  function ProveAt(st: Objects, p: Interval, c: Candidate, caps: Capabilities): Verdict {
    if Admissible(c, caps) != "" then Refuse(c, Admissible(c, caps))
    else if c.how.Unknown? then Refuse(c, "method_unproven")
    else if c.how == Rebase || c.how == FastForward then ProveRange(st, p, c)
    else
      match Parents(st, c.terminal)
      case Err(e) => Refuse(c, GraphReason(e))
      case Ok(parents) =>
        if Automatic(p, c, caps, parents) then ProveSingleParent(st, p, c, parents[0])
        else if Topology(c, caps, parents) != "" then Refuse(c, Topology(c, caps, parents))
        else if c.how == Squash then ProveSquash(st, c, parents[0])
        else ProveMerge(st, c, parents[0])
  }

  // ----- the same, reading through the view -----

  /** A proof cut short by the budget names it and the candidate. */
  predicate OutOfBudget(c: Candidate, r: Verdict) {
    r.gap.reason == BUDGET_EXHAUSTED && r.gap.candidateId == c.id
  }

  /** The reads that the proof of one candidate may ask for. */
  function ProofReads(c: Candidate, width: nat): nat {
    3 + 2 * |c.source| + TreeReads(width) + RangeReads(c, width)
  }

  method ReadRangeAlternatives(v: ObjectView, p: Interval, c: Candidate, sourceBefore: Id, before: Id)
    returns (r: (Attempt, Attempt))
    requires |c.source| > 0 && v.Paced()
    modifies v.meter
    ensures v.Paced() && v.meter.asked <= old(v.meter.asked) + RangeReads(c, v.width)
    ensures !v.meter.failed ==> r == RangeAlternatives(v.store, p, c, sourceBefore, before)
    ensures v.meter.failed ==> r.0.state.Inconclusive? && OutOfBudget(c, Verdict(NO_LANDING, r.0.gap))
    ensures v.meter.failed && c.how == FastForward ==> r.1 == r.0
    ensures r.0.state.Match? ==> r.0.landing.candidateId == c.id
    ensures r.1.state.Match? ==> r.1.landing.candidateId == c.id
    ensures old(v.meter.failed) ==> v.meter.failed
  {
    var range := RangeCorrespondence(v, c, sourceBefore, before);
    r := RangeAttempts(p, c, range);
  }

  method ReadRange(v: ObjectView, p: Interval, c: Candidate) returns (r: Verdict)
    requires |c.source| > 0 && !v.meter.failed && v.Paced()
    modifies v.meter
    ensures v.Paced() && v.meter.asked <= old(v.meter.asked) + |c.source| + 2 + RangeReads(c, v.width)
    ensures !v.meter.failed ==> r == ProveRange(v.store, p, c)
    ensures v.meter.failed ==> OutOfBudget(c, r)
  {
    var end := Position(p.spine, c.terminal) + 1;
    if end < |c.source| || end == 0 {
      return Refuse(c, "range_crosses_base");
    }
    var source := ReadSourceBoundary(v, c);
    if source.gap.reason != "" {
      return Verdict(NO_LANDING, source.gap);
    }
    var parents := v.Parents(c.terminal);
    if parents.Err? {
      return Refuse(c, GraphReason(parents.error));
    }
    if |parents.value| != 1 {
      return Refuse(c, "topology_unproven");
    }
    var attempts := ReadRangeAlternatives(v, p, c, source.before, parents.value[0]);
    r := Settle(c, if c.how == FastForward then attempts.1 else attempts.0);
  }

  method ReadSquash(v: ObjectView, c: Candidate, before: Id) returns (r: Verdict)
    requires |c.source| > 0 && !v.meter.failed && v.Paced()
    modifies v.meter
    ensures v.Paced() && v.meter.asked <= old(v.meter.asked) + |c.source| + 2 + TreeReads(v.width)
    ensures !v.meter.failed ==> r == ProveSquash(v.store, c, before)
    ensures v.meter.failed ==> OutOfBudget(c, r)
  {
    var source := ReadSourceBoundary(v, c);
    if source.gap.reason != "" {
      return Verdict(NO_LANDING, source.gap);
    }
    var boundary := v.Parents(before);
    if boundary.Err? {
      return RefuseAt(c, before, GraphReason(boundary.error));
    }
    var edits := CompareTreeEdits(v, source.before, c.sourceHead, before, c.terminal);
    r := Settle(c, SquashAttempt(c, before, edits));
  }

  method ReadSingleParent(v: ObjectView, p: Interval, c: Candidate, before: Id) returns (r: Verdict)
    requires |c.source| > 0 && c.id != "" && !v.meter.failed && v.Paced()
    modifies v.meter
    ensures v.Paced()
    ensures v.meter.asked <= old(v.meter.asked) + |c.source| + 2 + TreeReads(v.width) + RangeReads(c, v.width)
    ensures !v.meter.failed ==> r == ProveSingleParent(v.store, p, c, before)
    ensures v.meter.failed ==> OutOfBudget(c, r)
  {
    var source := ReadSourceBoundary(v, c);
    if source.gap.reason != "" {
      return Verdict(NO_LANDING, source.gap);
    }
    var boundary := v.Parents(before);
    if boundary.Err? {
      return RefuseAt(c, before, GraphReason(boundary.error));
    }
    var edits := CompareTreeEdits(v, source.before, c.sourceHead, before, c.terminal);
    var squash := SquashAttempt(c, before, edits);
    var ranges := ReadRangeAlternatives(v, p, c, source.before, before);
    r := ResolveAlternatives(c, [squash, ranges.0, ranges.1], v.meter.failed);
  }

  method CheckSources(v: ObjectView, c: Candidate) returns (reason: string, culprit: Id)
    requires !v.meter.failed && v.Paced()
    modifies v.meter
    ensures v.Paced() && v.meter.asked <= old(v.meter.asked) + |c.source|
    ensures !v.meter.failed ==> (reason, culprit) == CheckSourcesFrom(v.store, c, 0)
    ensures v.meter.failed ==> reason == BUDGET_EXHAUSTED
  {
    var seen: set<Id> := {};
    ghost var target := CheckSourcesFrom(v.store, c, 0);
    for i := 0 to |c.source|
      invariant seen == set k | 0 <= k < i :: c.source[k]
      invariant v.Paced() && v.meter.asked == old(v.meter.asked) + i
      invariant !v.meter.failed
      invariant target == CheckSourcesFrom(v.store, c, i)
    {
      var id := c.source[i];
      assert id in seen <==> id in c.source[..i];
      if id == "" || id in seen {
        return "source_invalid", id;
      }
      seen := seen + {id};
      var parents := v.Parents(id);
      if parents.Err? {
        return GraphReason(parents.error), id;
      }
    }
    assert c.sourceHead in seen <==> c.sourceHead in c.source;
    if c.sourceHead !in seen {
      return "source_incomplete", c.sourceHead;
    }
    return "", "";
  }

  method MergeCorrespondence(v: ObjectView, c: Candidate, before: Id) returns (r: Result<seq<Id>>)
    requires !v.meter.failed && Exact(v.store) && v.Paced()
    modifies v.meter
    ensures v.Paced() && v.meter.asked <= old(v.meter.asked) + |c.source| + 1
    ensures r == if v.meter.failed then Err(Budget) else CompareMerge(v.store, c, before)
  {
    var introduced := v.Introduced(before, c.terminal);
    if introduced.Err? {
      return Err(introduced.error);
    }
    var expected: seq<Id> := [];
    ghost var target := ExpectedFrom(v.store, c, before, 0, []);
    for i := 0 to |c.source|
      invariant v.Paced() && v.meter.asked == old(v.meter.asked) + 1 + i
      invariant !v.meter.failed
      invariant target == ExpectedFrom(v.store, c, before, i, expected)
    {
      var present := v.Ancestor(c.source[i], before);
      if present.Err? {
        return Err(present.error);
      }
      if !present.value {
        expected := expected + [c.source[i]];
      }
    }
    var ids := SortStrings(Without(introduced.value, c.terminal));
    expected := SortStrings(expected);
    r := if ids == expected then Ok(ids) else Err(Correspondence);
  }

  method ReadMerge(v: ObjectView, c: Candidate, before: Id) returns (r: Verdict)
    requires !v.meter.failed && Exact(v.store) && v.Paced()
    modifies v.meter
    ensures v.Paced() && v.meter.asked <= old(v.meter.asked) + 2 * |c.source| + 2
    ensures !v.meter.failed ==> r == ProveMerge(v.store, c, before)
    ensures v.meter.failed ==> OutOfBudget(c, r)
  {
    var reason, culprit := CheckSources(v, c);
    if reason != "" {
      return RefuseAt(c, culprit, reason);
    }
    var boundary := v.Exists(before);
    if boundary.Err? {
      return RefuseAt(c, before, GraphReason(boundary.error));
    }
    var ids := MergeCorrespondence(v, c, before);
    r := MergeVerdict(c, before, ids);
  }

  method ReadProof(v: ObjectView, p: Interval, c: Candidate, caps: Capabilities) returns (r: Verdict)
    requires !c.how.Unknown? && c.id != "" && !v.meter.failed && Exact(v.store) && v.Paced()
    modifies v.meter
    ensures v.Paced() && v.meter.asked <= old(v.meter.asked) + ProofReads(c, v.width)
    ensures !v.meter.failed ==> r == ProveAt(v.store, p, c, caps)
    ensures v.meter.failed ==> OutOfBudget(c, r)
  {
    if Admissible(c, caps) != "" {
      return Refuse(c, Admissible(c, caps));
    }
    if c.how == Rebase || c.how == FastForward {
      r := ReadRange(v, p, c);
      return;
    }
    var parents := v.Parents(c.terminal);
    if parents.Err? {
      return Refuse(c, GraphReason(parents.error));
    }
    if Automatic(p, c, caps, parents.value) {
      r := ReadSingleParent(v, p, c, parents.value[0]);
      return;
    }
    var reason := Topology(c, caps, parents.value);
    if reason != "" {
      return Refuse(c, reason);
    }
    if c.how == Squash {
      r := ReadSquash(v, c, parents.value[0]);
    } else {
      r := ReadMerge(v, c, parents.value[0]);
    }
  }
}
