/** Why a candidate or a push is refused: the first thing that is missing decides the reason and the
    object that its gap names. */
module Refusals {
  import opened Model
  import opened Graph
  import opened Store
  import opened Ordering
  import opened Sources
  import opened TreeEdits
  import opened Ranges
  import opened Alternatives
  import opened Proofs
  import opened Direct
  import opened Acceptance

  /** The verdict is a gap of the candidate for this object and reason. */
  predicate RefusedFor(c: Candidate, v: Verdict, culprit: Id, reason: string) {
    v.gap == Gap(c.id, culprit, reason, Span("", ""))
  }

  lemma ReadsMiss(st: Objects)
    ensures forall id :: Parents(st, id).Err? ==> GraphReason(Parents(st, id).error) == "objects_unavailable"
    ensures forall x, y :: Introduced(st, x, y).Err? ==> Introduced(st, x, y).error == Unavailable
    ensures forall x, y :: IsAncestor(st, x, y).Err? ==> IsAncestor(st, x, y).error == Unavailable
    ensures GraphReason(Unavailable) == "objects_unavailable"
  {
  }

  // ----- the evidence -----

  /** The reads do not matter where the evidence is wanting: an unsupported range method comes first, then
      the terminal, the method, and the source. */
  lemma EvidenceRefused(st: Objects, p: Interval, c: Candidate, caps: Capabilities)
    requires !Stated(c) || (c.how == Rebase && !caps.rebase) || (c.how == FastForward && !caps.fastForward)
    ensures var v := ProveAt(st, p, c, caps);
      var unsupported := (c.how == Rebase && !caps.rebase) || (c.how == FastForward && !caps.fastForward);
      var named := c.terminal != "" && c.terminalEvidence != "";
      && (unsupported ==> RefusedFor(c, v, c.terminal, "method_unsupported"))
      && (!unsupported && !named ==> RefusedFor(c, v, c.terminal, "terminal_unproven"))
      && (!unsupported && named && c.how != Unstated && c.methodEvidence == "" ==>
            RefusedFor(c, v, c.terminal, "method_unproven"))
      && (!unsupported && named && (c.how == Unstated || c.methodEvidence != "") ==>
            RefusedFor(c, v, c.terminal, "source_incomplete"))
  {
    hide ProveRange, ProveSingleParent, ProveSquash, ProveMerge, Parents;
  }

  // ----- a linear source -----

  /** What is wrong with source commit `k` of a chain that is sound up to there. */
  function ChainFault(st: Objects, c: Candidate, k: nat): string
    requires k < |c.source|
  {
    var id := c.source[k];
    if id == "" || id in c.source[..k] then "source_invalid"
    else if Parents(st, id).Err? then "objects_unavailable"
    else if |Parents(st, id).value| != 1 then "topology_unproven"
    else "source_order_unproven"
  }

  /** The first commit that breaks the chain, `k`, is named; a head elsewhere comes before that, and an
      unreadable commit before the chain after it. */
  lemma ChainRefused(st: Objects, c: Candidate, before: Id, k: nat)
    requires |c.source| > 0 && k <= |c.source| && ChainUpTo(st, c, before, k)
    requires k < |c.source| ==> !ChainLink(st, c, if k == 0 then FirstParent(st, c) else before, k)
    requires k == |c.source| ==> Parents(st, before).Err?
    ensures SourceBoundary(st, c).gap ==
            if c.source[|c.source| - 1] != c.sourceHead
            then Gap(c.id, c.sourceHead, "source_head_mismatch", Span("", ""))
            else if k < |c.source| then Gap(c.id, c.source[k], ChainFault(st, c, k), Span("", ""))
            else Gap(c.id, before, "objects_unavailable", Span("", ""))
  {
    ReadsMiss(st);
    ChainStops(st, c, before, k, 0, "");
  }

  function FirstParent(st: Objects, c: Candidate): Id
    requires |c.source| > 0
  {
    var parents := Parents(st, c.source[0]);
    if parents.Ok? && |parents.value| == 1 then parents.value[0] else ""
  }

  lemma {:induction false} ChainStops(st: Objects, c: Candidate, before: Id, k: nat, i: nat, boundary: Id)
    requires |c.source| > 0 && i <= k <= |c.source| && ChainUpTo(st, c, before, k)
    requires i > 0 ==> boundary == before
    requires k < |c.source| ==> !ChainLink(st, c, if k == 0 then FirstParent(st, c) else before, k)
    requires k == |c.source| ==> Parents(st, before).Err?
    ensures BoundaryFrom(st, c, i, boundary).gap ==
            if k < |c.source| then Gap(c.id, c.source[k], ChainFault(st, c, k), Span("", ""))
            else Gap(c.id, before, "objects_unavailable", Span("", ""))
    decreases k - i
  {
    ReadsMiss(st);
    if i < k {
      assert ChainLink(st, c, before, i);
      ChainStops(st, c, before, k, i + 1, before);
    } else if k < |c.source| && Parents(st, c.source[k]).Ok? && |Parents(st, c.source[k]).value| == 1 {
      assert Parents(st, c.source[k]).value == [Parents(st, c.source[k]).value[0]];
    }
  }

  // ----- merges and squashes -----

  /** A readable terminal of the wrong shape, in the order of the tests: an unlabelled candidate with
      neither one nor two parents, a method that is not supported, a wrong number of parents, a merge
      of something else than the source head. */
  lemma ShapeRefused(st: Objects, p: Interval, c: Candidate, caps: Capabilities)
    requires Stated(c) && (c.how == Merge || c.how == Squash || c.how == Unstated) && Parents(st, c.terminal).Ok?
    requires !(c.how == Unstated && |Parents(st, c.terminal).value| == 1
               && caps.singleParentCorrespondence && c.terminal in p.spine)
    ensures var v, parents := ProveAt(st, p, c, caps), Parents(st, c.terminal).value;
      var merges := c.how == Merge || c.how == Unstated;
      && (c.how == Unstated && |parents| != 2 ==> RefusedFor(c, v, c.terminal, "method_unproven"))
      && (c.how == Merge && !caps.merge ==> RefusedFor(c, v, c.terminal, "method_unsupported"))
      && (c.how == Unstated && |parents| == 2 && !caps.merge ==> RefusedFor(c, v, c.terminal, "method_unsupported"))
      && (c.how == Squash && !caps.squash ==> RefusedFor(c, v, c.terminal, "method_unsupported"))
      && (c.how == Squash && caps.squash && |parents| != 1 ==> RefusedFor(c, v, c.terminal, "topology_unproven"))
      && (c.how == Merge && caps.merge && |parents| != 2 ==> RefusedFor(c, v, c.terminal, "topology_unproven"))
      && (merges && caps.merge && |parents| == 2 && parents[1] != c.sourceHead ==>
            RefusedFor(c, v, c.terminal, "source_head_mismatch"))
  {
    hide ProveRange, ProveSingleParent, ProveSquash, ProveMerge;
    AdmissibleExactly(c, caps);
  }

  /** An unreadable terminal is named. */
  lemma TerminalUnread(st: Objects, p: Interval, c: Candidate, caps: Capabilities)
    requires Stated(c) && (c.how == Merge || c.how == Squash || c.how == Unstated) && Parents(st, c.terminal).Err?
    ensures RefusedFor(c, ProveAt(st, p, c, caps), c.terminal, "objects_unavailable")
  {
    AdmissibleExactly(c, caps);
    ReadsMiss(st);
  }

  /** What is wrong with source commit `k` of a merge, or "". */
  function SourceFault(st: Objects, c: Candidate, k: nat): string
    requires k < |c.source|
  {
    if c.source[k] == "" || c.source[k] in c.source[..k] then "source_invalid"
    else if Parents(st, c.source[k]).Err? then "objects_unavailable"
    else ""
  }

  lemma {:induction false} SourcesStop(st: Objects, c: Candidate, k: nat, i: nat)
    requires i <= k <= |c.source| && forall m :: i <= m < k ==> SourceFault(st, c, m) == ""
    requires if k < |c.source| then SourceFault(st, c, k) != "" else c.sourceHead !in c.source
    ensures CheckSourcesFrom(st, c, i) ==
            if k < |c.source| then (SourceFault(st, c, k), c.source[k]) else ("source_incomplete", c.sourceHead)
    decreases k - i
  {
    ReadsMiss(st);
    if i < k {
      assert SourceFault(st, c, i) == "";
      assert |"source_invalid"| > 0 && |"objects_unavailable"| > 0;
      SourcesStop(st, c, k, i + 1);
    }
  }

  /** A merge of the right shape whose source has a fault names the first one, or its head when that is
      not among the commits. */
  lemma MergeSourceRefused(st: Objects, p: Interval, c: Candidate, caps: Capabilities, before: Id, k: nat)
    requires Stated(c) && (c.how == Merge || c.how == Unstated) && caps.merge
    requires Parents(st, c.terminal) == Ok([before, c.sourceHead])
    requires k <= |c.source| && forall m :: 0 <= m < k ==> SourceFault(st, c, m) == ""
    requires if k < |c.source| then SourceFault(st, c, k) != "" else c.sourceHead !in c.source
    ensures var v := ProveAt(st, p, c, caps);
      if k < |c.source| then RefusedFor(c, v, c.source[k], SourceFault(st, c, k))
      else RefusedFor(c, v, c.sourceHead, "source_incomplete")
  {
    AdmissibleExactly(c, caps);
    TwoParents(st, c, before);
    SourcesStop(st, c, k, 0);
  }

  lemma TwoParents(st: Objects, c: Candidate, before: Id)
    requires Parents(st, c.terminal) == Ok([before, c.sourceHead])
    ensures var parents := Parents(st, c.terminal).value;
      |parents| == 2 && parents[0] == before && parents[1] == c.sourceHead
  {
    assert [before, c.sourceHead][0] == before && [before, c.sourceHead][1] == c.sourceHead;
  }

  /** A merge of a sound source is refused for the commit before it, for a read of its history, or
      because it brought in something else. */
  lemma MergeRefused(st: Objects, p: Interval, c: Candidate, caps: Capabilities, before: Id)
    requires Exact(st) && Stated(c) && (c.how == Merge || c.how == Unstated) && caps.merge
    requires Parents(st, c.terminal) == Ok([before, c.sourceHead]) && Listed(st, c)
    ensures var v := ProveAt(st, p, c, caps);
      var read := Introduced(st, before, c.terminal).Ok?
                  && forall k :: 0 <= k < |c.source| ==> IsAncestor(st, c.source[k], before).Ok?;
      && (Parents(st, before).Err? ==> RefusedFor(c, v, before, "objects_unavailable"))
      && (Parents(st, before).Ok? && !read ==> RefusedFor(c, v, c.terminal, "objects_unavailable"))
      && (Parents(st, before).Ok? && read && !BroughtItsSource(st, c, before) ==>
            RefusedFor(c, v, c.terminal, "source_correspondence_unproven"))
  {
    hide CompareMerge, CheckSourcesFrom, Listed, BroughtItsSource, Exact, Parents;
    AdmissibleExactly(c, caps);
    TwoParents(st, c, before);
    CheckedExactly(st, c);
    ReadsMiss(st);
    ComparisonEnds(st, c, before);
    MergeGiven(st, c, before);
  }

  /** How the comparison of a merge can end. */
  lemma ComparisonEnds(st: Objects, c: Candidate, before: Id)
    ensures var r := CompareMerge(st, c, before);
      var read := Introduced(st, before, c.terminal).Ok?
                  && forall k :: 0 <= k < |c.source| ==> IsAncestor(st, c.source[k], before).Ok?;
      if read then r.Ok? || r.error == Correspondence else r == Err(Unavailable)
  {
    hide Sort, Select;
    ReadsMiss(st);
    ExpectedEnds(st, c, before, 0, []);
  }

  lemma {:induction false} ExpectedEnds(st: Objects, c: Candidate, before: Id, i: nat, expected: seq<Id>)
    requires i <= |c.source|
    ensures var r := ExpectedFrom(st, c, before, i, expected);
      if forall k :: i <= k < |c.source| ==> IsAncestor(st, c.source[k], before).Ok? then r.Ok?
      else r == Err(Unavailable)
    decreases |c.source| - i
  {
    ReadsMiss(st);
    if i < |c.source| && IsAncestor(st, c.source[i], before).Ok? {
      ExpectedEnds(st, c, before, i + 1,
                   if IsAncestor(st, c.source[i], before).value then expected else expected + [c.source[i]]);
    }
  }

  /** A squash of the right shape is refused for its source, for the commit before it, or by how the two
      changes compare. */
  lemma SquashRefused(st: Objects, p: Interval, c: Candidate, caps: Capabilities, before: Id)
    requires Stated(c) && c.how == Squash && caps.squash && Parents(st, c.terminal) == Ok([before])
    ensures var v, source := ProveAt(st, p, c, caps), SourceBoundary(st, c);
      && (source.gap.reason != "" ==> v.gap == source.gap)
      && (source.gap.reason == "" && Parents(st, before).Err? ==> RefusedFor(c, v, before, "objects_unavailable"))
      && (source.gap.reason == "" && Parents(st, before).Ok? ==>
            var r := CompareTrees(st, source.before, c.sourceHead, before, c.terminal);
            && (r == Err(Correspondence) ==> RefusedFor(c, v, c.terminal, "source_correspondence_unproven"))
            && (r == Err(ReadError.Edits) ==> RefusedFor(c, v, c.terminal, "edits_unavailable"))
            && (r == Err(Unavailable) ==> RefusedFor(c, v, c.terminal, "objects_unavailable")))
  {
    hide CompareTrees, SourceBoundary;
    AdmissibleExactly(c, caps);
    ReadsMiss(st);
    assert [before][0] == before;
  }

  // ----- ranges and single parents -----

  /** A range is refused because it would cross the base, for its source, for the shape of the terminal,
      or by how the range compares. */
  lemma RangeRefused(st: Objects, p: Interval, c: Candidate, caps: Capabilities)
    requires Stated(c) && ((c.how == Rebase && caps.rebase) || (c.how == FastForward && caps.fastForward))
    ensures var v, source := ProveAt(st, p, c, caps), SourceBoundary(st, c);
      var fits := c.terminal in p.spine && |c.source| <= Position(p.spine, c.terminal) + 1;
      var parents := Parents(st, c.terminal);
      && (!fits ==> RefusedFor(c, v, c.terminal, "range_crosses_base"))
      && (fits && source.gap.reason != "" ==> v.gap == source.gap)
      && (fits && source.gap.reason == "" ==>
            && (parents.Err? ==> RefusedFor(c, v, c.terminal, "objects_unavailable"))
            && (parents.Ok? && |parents.value| != 1 ==> RefusedFor(c, v, c.terminal, "topology_unproven"))
            && (parents.Ok? && |parents.value| == 1 ==>
                  var r := CompareRange(st, c, source.before, parents.value[0]);
                  && (r.error == Some(Correspondence) || (r.error == None && c.how == FastForward && !r.identical) ==>
                        RefusedFor(c, v, c.terminal, "source_correspondence_unproven"))
                  && (r.error == Some(ReadError.Edits) && (c.how == Rebase || r.identical) ==>
                        RefusedFor(c, v, r.culprit, "edits_unavailable"))
                  && (r.error == Some(Unavailable) && (c.how == Rebase || r.identical) ==>
                        RefusedFor(c, v, r.culprit, "objects_unavailable"))))
  {
    hide CompareRange, SourceBoundary, Parents;
    AdmissibleExactly(c, caps);
    ReadsMiss(st);
  }

  /** Which of three attempts decides: the first inconclusive one, then a match across the base, then the
      lack of a match, then matches of different origins. */
  lemma ResolveRefused(c: Candidate, x: Attempt, y: Attempt, z: Attempt)
    requires z.state.Mismatch? || (z.state == y.state && z.crossesBase == y.crossesBase)
    requires !x.crossesBase && (y.state.Match? && z.state.Match? ==> SameOrigin(y.landing, z.landing))
    ensures var v := Resolve(c, [x, y, z], false);
      && (x.state.Inconclusive? ==> v.gap == x.gap)
      && (!x.state.Inconclusive? && y.state.Inconclusive? ==> v.gap == y.gap)
      && (!x.state.Inconclusive? && !y.state.Inconclusive? && y.state.Match? && y.crossesBase ==>
            RefusedFor(c, v, c.terminal, "range_crosses_base"))
      && (x.state.Mismatch? && y.state.Mismatch? ==>
            RefusedFor(c, v, c.terminal, "source_correspondence_unproven"))
      && (x.state.Match? && y.state.Match? && !y.crossesBase && !SameOrigin(x.landing, y.landing) ==>
            RefusedFor(c, v, c.terminal, "origin_ambiguous"))
  {
    hide SameOrigin, Compact, Sort, AllProofs, Matches, Agree, Consistent;
    var attempts := [x, y, z];
    ThreeMembers(x, y, z);
    ThreeConsistent(x, y, z);
    MatchesAre(attempts);
    AgreementIsConsistency(attempts);
    assert attempts[0] == x && attempts[1] == y;
    if x.state.Inconclusive? {
      FirstInconclusiveAt(attempts, 0);
    } else if y.state.Inconclusive? {
      FirstInconclusiveAt(attempts, 1);
    }
    if x.state.Match? {
      assert x in attempts && IsMatch(x);
      assert x.landing in Matches(attempts);
    }
    if x.state.Mismatch? && y.state.Mismatch? {
      NoMatches(attempts);
    }
  }

  lemma NoMatches(attempts: seq<Attempt>)
    requires forall a :: a in attempts ==> !IsMatch(a)
    ensures Matches(attempts) == []
  {
    if Select(attempts, IsMatch) != [] {
      assert Select(attempts, IsMatch)[0] in Select(attempts, IsMatch);
      assert false;
    }
  }

  /** An unlabelled candidate with one parent is refused for its source, for the commit before the
      terminal, by an inconclusive comparison, the squash's first, because only a range across the base
      matches, because nothing does, or because a longer source matches in both ways. */
  lemma SingleParentRefused(st: Objects, p: Interval, c: Candidate, caps: Capabilities, before: Id)
    requires Stated(c) && c.how == Unstated && caps.singleParentCorrespondence && c.terminal in p.spine
    requires Parents(st, c.terminal) == Ok([before])
    ensures var v, source := ProveAt(st, p, c, caps), SourceBoundary(st, c);
      var squash := CompareTrees(st, source.before, c.sourceHead, before, c.terminal);
      var range := CompareRange(st, c, source.before, before);
      var settled := squash.Ok? || squash == Err(Correspondence);
      && (source.gap.reason != "" ==> v.gap == source.gap)
      && (source.gap.reason == "" && Parents(st, before).Err? ==> RefusedFor(c, v, before, "objects_unavailable"))
      && (source.gap.reason == "" && Parents(st, before).Ok? ==>
            && (squash == Err(ReadError.Edits) ==> RefusedFor(c, v, c.terminal, "edits_unavailable"))
            && (squash == Err(Unavailable) ==> RefusedFor(c, v, c.terminal, "objects_unavailable"))
            && (settled && range.error == Some(ReadError.Edits) ==>
                  RefusedFor(c, v, range.culprit, "edits_unavailable"))
            && (settled && range.error == Some(Unavailable) ==>
                  RefusedFor(c, v, range.culprit, "objects_unavailable"))
            && (settled && range.error == None && |c.source| > Position(p.spine, c.terminal) + 1 ==>
                  RefusedFor(c, v, c.terminal, "range_crosses_base"))
            && (squash == Err(Correspondence) && range.error == Some(Correspondence) ==>
                  RefusedFor(c, v, c.terminal, "source_correspondence_unproven"))
            && (squash.Ok? && range.error == None && 1 < |c.source| <= Position(p.spine, c.terminal) + 1 ==>
                  RefusedFor(c, v, c.terminal, "origin_ambiguous")))
  {
    hide CompareTrees, CompareRange, SourceBoundary, Resolve, SameOrigin;
    AdmissibleExactly(c, caps);
    ReadsMiss(st);
    assert [before][0] == before;
    var b := SourceBoundary(st, c).before;
    var x, ranges := CompareSquash(st, c, b, before), RangeAlternatives(st, p, c, b, before);
    if CompareRange(st, c, b, before).error == None {
      OneCommitAgrees(st, c, b, before, [REBASE]);
      RelabelledAgree(ranges.0.landing, [FAST_FORWARD]);
    }
    ResolveRefused(c, x, ranges.0, ranges.1);
  }

  // ----- pushes -----

  /** Why a commit is no push: it cannot be read, it does not follow the commit before it, that one cannot
      be read, its history cannot be listed, or the first listed commit that cannot be read. */
  lemma PushRefused(st: Objects, before: Id, terminal: Id)
    ensures var gap := PushAt(st, before, terminal).gap;
      var parents, ids := Parents(st, terminal), Introduced(st, before, terminal);
      && (parents.Err? ==> gap == Gap("", terminal, "objects_unavailable", Span("", "")))
      && (parents.Ok? && (if parents.value == [] then before != "" else parents.value[0] != before) ==>
            gap == Gap("", terminal, "topology_unproven", Span("", "")))
      && (parents.Ok? && parents.value != [] && parents.value[0] == before && Parents(st, before).Err? ==>
            gap == Gap("", before, "objects_unavailable", Span("", "")))
      && (parents.Ok? && parents.value != [] && parents.value[0] == before && Parents(st, before).Ok? && ids.Err? ==>
            gap == Gap("", terminal, "objects_unavailable", Span("", "")))
      && (parents.Ok? && parents.value != [] && parents.value[0] == before && Parents(st, before).Ok? && ids.Ok? ==>
            forall k :: 0 <= k < |ids.value| && Parents(st, ids.value[k]).Err?
                        && (forall m :: 0 <= m < k ==> Parents(st, ids.value[m]).Ok?) ==>
              gap == Gap("", ids.value[k], "objects_unavailable", Span("", "")))
  {
    hide Parents, FirstUnreadable;
    ReadsMiss(st);
    if Introduced(st, before, terminal).Ok? {
      var ids := Introduced(st, before, terminal).value;
      forall k | 0 <= k < |ids| && Parents(st, ids[k]).Err? && (forall m :: 0 <= m < k ==> Parents(st, ids[m]).Ok?)
        ensures FirstUnreadable(st, ids) == Some((ids[k], Parents(st, ids[k]).error))
      {
        FirstIsFirst(st, ids, k);
      }
    }
  }

  lemma {:induction false} FirstIsFirst(st: Objects, ids: seq<Id>, k: nat)
    requires k < |ids| && Parents(st, ids[k]).Err? && forall m :: 0 <= m < k ==> Parents(st, ids[m]).Ok?
    ensures FirstUnreadable(st, ids) == Some((ids[k], Parents(st, ids[k]).error))
  {
    hide Parents;
    if k > 0 {
      FirstIsFirst(st, ids[1..], k - 1);
    }
  }
}
