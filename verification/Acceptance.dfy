/** Exactly which candidates the proof procedure accepts, method by method. */
module Acceptance {
  import opened Model
  import opened Graph
  import opened Store
  import opened Ordering
  import opened Sources
  import opened TreeEdits
  import opened Ranges
  import opened Edits
  import opened Correspondence
  import opened Direct
  import opened Alternatives
  import opened Proofs
  import opened Merges
  import opened Soundness

  predicate Accepted(v: Verdict) {
    v.gap.reason == ""
  }

  lemma ReasonsAreGiven()
    ensures forall e :: GraphReason(e) != "" && EditReason(e) != ""
  {
  }

  // ----- what the evidence must state -----

  /** A named and evidenced terminal, evidence for a stated method, and a complete nonempty source
      with its head. */
  predicate Stated(c: Candidate) {
    && c.terminal != "" && c.terminalEvidence != ""
    && (c.how == Unstated || c.methodEvidence != "")
    && c.sourceComplete && c.source != [] && c.sourceHead != ""
  }

  /** The provider supports what the candidate needs: its stated method, or for an unlabelled one a
      merge or the comparison of single-parent alternatives. */
  predicate Supported(c: Candidate, caps: Capabilities) {
    match c.how
    case Merge => caps.merge
    case Squash => caps.squash
    case Rebase => caps.rebase
    case FastForward => caps.fastForward
    case Unstated => caps.merge || caps.singleParentCorrespondence
    case Unknown(_) => false
  }

  lemma AdmissibleExactly(c: Candidate, caps: Capabilities)
    ensures Admissible(c, caps) == "" <==>
            Stated(c) && (c.how == Rebase ==> caps.rebase) && (c.how == FastForward ==> caps.fastForward)
  {
  }

  /** Whatever the objects say, nothing is accepted without that evidence and that support. */
  lemma AcceptedIsStated(st: Objects, p: Interval, c: Candidate, caps: Capabilities)
    requires Accepted(ProveAt(st, p, c, caps))
    ensures Stated(c) && Supported(c, caps)
  {
    hide ProveRange, ProveMerge, ProveSquash, ProveSingleParent, Parents;
    ReasonsAreGiven();
    AdmissibleExactly(c, caps);
  }

  // ----- squash -----

  /** A squash is accepted exactly when it is stated and supported, its terminal has one readable
      parent, and its source is a complete linear chain whose whole change corresponds to the
      terminal's. */
  lemma SquashProvenExactly(st: Objects, p: Interval, c: Candidate, caps: Capabilities)
    requires c.how == Squash
    ensures Accepted(ProveAt(st, p, c, caps)) <==>
            && Stated(c) && caps.squash
            && exists before, b :: SquashHolds(st, c, before, b)
  {
    hide SquashHolds, Stated;
    AdmissibleExactly(c, caps);
    ReasonsAreGiven();
    if Admissible(c, caps) == "" && caps.squash && Parents(st, c.terminal).Ok? && |Parents(st, c.terminal).value| == 1 {
      var before := Parents(st, c.terminal).value[0];
      assert Parents(st, c.terminal).value == [before];
      SquashGiven(st, p, c, caps, before);
      SquashUnfold(st, c, before);
    }
    forall before, b | SquashHolds(st, c, before, b) ensures Parents(st, c.terminal) == Ok([before]) {
      SquashUnfold(st, c, before);
    }
  }

  /** The one change of the source chain on top of `b` is that of the terminal on top of `before`. */
  ghost predicate SquashHolds(st: Objects, c: Candidate, before: Id, b: Id) {
    && Parents(st, c.terminal) == Ok([before]) && Parents(st, before).Ok?
    && LinearSource(st, c, b) && CompareTrees(st, b, c.sourceHead, before, c.terminal).Ok?
  }

  lemma SquashUnfold(st: Objects, c: Candidate, before: Id)
    ensures forall b :: SquashHolds(st, c, before, b) <==>
              && Parents(st, c.terminal) == Ok([before]) && Parents(st, before).Ok?
              && LinearSource(st, c, b) && CompareTrees(st, b, c.sourceHead, before, c.terminal).Ok?
  {
  }

  lemma SquashGiven(st: Objects, p: Interval, c: Candidate, caps: Capabilities, before: Id)
    requires c.how == Squash && caps.squash && Admissible(c, caps) == ""
    requires Parents(st, c.terminal) == Ok([before])
    ensures Accepted(ProveAt(st, p, c, caps)) <==>
            && Parents(st, before).Ok?
            && exists b :: LinearSource(st, c, b) && CompareTrees(st, b, c.sourceHead, before, c.terminal).Ok?
  {
    hide CompareTrees, LinearSource, SourceBoundary;
    var source := SourceBoundary(st, c);
    ReasonsAreGiven();
    SourceBoundaryExact(st, c, source.before);
    forall b | LinearSource(st, c, b) ensures source == Boundary(b, NO_GAP) {
      SourceBoundaryExact(st, c, b);
    }
    assert [before][0] == before;
  }

  // ----- fast-forward -----

  /** Walking back along the source itself meets only identical pairs. */
  lemma {:induction false} OwnSourceMatches(st: Objects, c: Candidate, b: Id, id: Id, before: Id, n: nat, w: Walk)
    requires 1 <= n <= |c.source| && LinearSource(st, c, b)
    requires id == c.source[n - 1] && before == SourceParent(c, b, n - 1)
    requires w.pending.None? && w.identical
    ensures WalkRange(st, c, b, id, before, n, w).error == None && WalkRange(st, c, b, id, before, n, w).identical
    decreases n
  {
    if n > 1 {
      assert ChainLink(st, c, b, n - 2);
      var next := TakePair(w, c.source[n - 1], id, before, Identical);
      OwnSourceMatches(st, c, b, before, SourceParent(c, b, n - 2), n - 1, next);
    }
  }

  /** A fast-forward walk without error met its own head at the terminal. */
  lemma HeadIsTerminal(st: Objects, c: Candidate, b: Id, before: Id)
    requires c.how == FastForward && |c.source| > 0 && CompareRange(st, c, b, before).error == None
    ensures c.source[|c.source| - 1] == c.terminal
  {
  }

  /** What a fast-forward owns, commit by commit, is its source. */
  lemma OwnsItsSource(st: Objects, c: Candidate, b: Id, before: Id)
    requires LinearSource(st, c, b) && Parents(st, c.terminal) == Ok([before])
    requires c.source[|c.source| - 1] == c.terminal && CompareRange(st, c, b, before).error == None
    ensures CompareRange(st, c, b, before).commits == c.source
  {
    RangeOwns(st, c, b, before);
    var n := |c.source|;
    var pairs := Suffix(st, c.terminal, before, n);
    forall k | 0 <= k < n ensures pairs[k].0 == c.source[n - 1 - k] {
      IdenticalBelow(st, c, b, c.terminal, before, n, 0, k);
    }
    assert Reverse(Ids(pairs)) == c.source;
  }

  /** A fast-forward is accepted exactly when it is stated and supported and its source is a
      complete linear chain that ends at the terminal and fits the interval; it then introduced
      exactly its source, in order. */
  lemma FastForwardProvenExactly(st: Objects, p: Interval, c: Candidate, caps: Capabilities)
    requires c.how == FastForward
    ensures var v := ProveAt(st, p, c, caps);
      && (Accepted(v) <==>
            && Stated(c) && caps.fastForward
            && |c.source| <= Position(p.spine, c.terminal) + 1 && c.sourceHead == c.terminal
            && exists b :: LinearSource(st, c, b))
      && (Accepted(v) ==> v.landing.spine == c.source && v.landing.introduced == c.source)
  {
    hide LinearSource;
    AdmissibleExactly(c, caps);
    ReasonsAreGiven();
    if Admissible(c, caps) == "" {
      FastForwardGiven(st, p, c, caps);
    }
  }

  lemma FastForwardGiven(st: Objects, p: Interval, c: Candidate, caps: Capabilities)
    requires c.how == FastForward && Admissible(c, caps) == ""
    ensures var v := ProveAt(st, p, c, caps);
      && (Accepted(v) <==> |c.source| <= Position(p.spine, c.terminal) + 1 && c.sourceHead == c.terminal
                           && exists b :: LinearSource(st, c, b))
      && (Accepted(v) ==> v.landing.spine == c.source && v.landing.introduced == c.source)
  {
    hide LinearSource, SourceBoundary, CompareRange;
    ReasonsAreGiven();
    var source := SourceBoundary(st, c);
    SourceBoundaryExact(st, c, source.before);
    forall b | LinearSource(st, c, b) ensures source == Boundary(b, NO_GAP) {
      SourceBoundaryExact(st, c, b);
    }
    if LinearSource(st, c, source.before) {
      HeadOf(st, c, source.before);
      if c.sourceHead == c.terminal {
        OwnRange(st, c, source.before);
      } else if Parents(st, c.terminal).Ok? && |Parents(st, c.terminal).value| == 1 {
        var before := Parents(st, c.terminal).value[0];
        if CompareRange(st, c, source.before, before).error == None {
          HeadIsTerminal(st, c, source.before, before);
        }
      }
    }
  }

  lemma HeadOf(st: Objects, c: Candidate, b: Id)
    requires LinearSource(st, c, b)
    ensures |c.source| > 0 && c.source[|c.source| - 1] == c.sourceHead
  {
  }

  lemma OwnRange(st: Objects, c: Candidate, b: Id)
    requires LinearSource(st, c, b) && c.sourceHead == c.terminal
    ensures Parents(st, c.terminal) == Ok([SourceParent(c, b, |c.source| - 1)])
    ensures var r := CompareRange(st, c, b, SourceParent(c, b, |c.source| - 1));
      r.error == None && r.identical && r.commits == c.source
  {
    assert ChainLink(st, c, b, |c.source| - 1);
    OwnSourceMatches(st, c, b, c.terminal, SourceParent(c, b, |c.source| - 1), |c.source|, START);
    OwnsItsSource(st, c, b, SourceParent(c, b, |c.source| - 1));
  }

  // ----- rebase -----

  /** A rebase is accepted exactly when it is stated and supported, its terminal has one parent,
      its source is a complete linear chain that fits the interval, and source and target pair up:
      the target goes back as far through single parents, every pair is one commit or one change,
      and no change occurs twice. */
  lemma RebaseProvenExactly(st: Objects, p: Interval, c: Candidate, caps: Capabilities)
    requires c.how == Rebase
    ensures Accepted(ProveAt(st, p, c, caps)) <==>
            && Stated(c) && caps.rebase && |c.source| <= Position(p.spine, c.terminal) + 1
            && exists before, b ::
                 Parents(st, c.terminal) == Ok([before]) && LinearSource(st, c, b) && PairedUp(st, c, b, before)
  {
    hide LinearSource, PairedUp;
    AdmissibleExactly(c, caps);
    ReasonsAreGiven();
    if Admissible(c, caps) == "" && Parents(st, c.terminal).Ok? && |Parents(st, c.terminal).value| == 1 {
      var before := Parents(st, c.terminal).value[0];
      assert Parents(st, c.terminal).value == [before];
      RebaseGiven(st, p, c, caps, before);
    }
    forall before | Parents(st, c.terminal) == Ok([before])
      ensures |Parents(st, c.terminal).value| == 1 && Parents(st, c.terminal).value[0] == before
    {
      assert [before][0] == before;
    }
  }

  lemma RebaseGiven(st: Objects, p: Interval, c: Candidate, caps: Capabilities, before: Id)
    requires c.how == Rebase && Admissible(c, caps) == "" && Parents(st, c.terminal) == Ok([before])
    ensures Accepted(ProveAt(st, p, c, caps)) <==>
            |c.source| <= Position(p.spine, c.terminal) + 1
            && exists b :: LinearSource(st, c, b) && PairedUp(st, c, b, before)
  {
    hide LinearSource, SourceBoundary, CompareRange, PairedUp;
    ReasonsAreGiven();
    var source := SourceBoundary(st, c);
    SourceBoundaryExact(st, c, source.before);
    forall b | LinearSource(st, c, b) ensures source == Boundary(b, NO_GAP) {
      SourceBoundaryExact(st, c, b);
    }
    assert [before][0] == before;
    MatchesExactly(st, c, source.before, before);
  }

  /** Why a rebase of a fitting chain is refused, when the reads succeed: a pair that is not one
      change, or a target that stops early, refutes it; otherwise its edits are unavailable. */
  lemma RebaseRefusals(st: Objects, p: Interval, c: Candidate, caps: Capabilities, before: Id, b: Id)
    requires c.how == Rebase && caps.rebase && Stated(c) && Parents(st, c.terminal) == Ok([before])
    requires |c.source| <= Position(p.spine, c.terminal) + 1 && LinearSource(st, c, b)
    requires PairsRead(st, c, b, before)
    ensures var reason := ProveAt(st, p, c, caps).gap.reason;
      var refuted := |Suffix(st, c.terminal, before, |c.source|)| < |c.source| || AnyRefuted(st, c, b, before);
      && (reason == "source_correspondence_unproven" <==> refuted)
      && (reason == "edits_unavailable" <==>
          !refuted && (AnyUnclear(st, c, b, before) || AnyTwins(st, c, b, before)))
  {
    hide LinearSource, SourceBoundary, CompareRange, PairsRead, AnyRefuted, AnyUnclear, AnyTwins, Suffix;
    AdmissibleExactly(c, caps);
    SourceBoundaryExact(st, c, b);
    assert [before][0] == before;
    RangeCompared(st, c, b, before);
  }

  /** No rewritten source commit of a paired range makes the change of another pair's target, so the
      pairing of the rewritten commits is the only one possible. */
  lemma RebasePairsOneWay(st: Objects, c: Candidate, b: Id, before: Id)
    requires PairedUp(st, c, b, before)
    ensures forall j: nat, k: nat :: j < |c.source| && k < |c.source| && j != k ==>
              Untouched(st, c, before, j) || Untouched(st, c, before, k) || Compared(st, c, b, before, j, k).Err?
  {
    hide CompareTrees, Suffix, SameEdits, Untouched, Compared;
    forall j: nat, k: nat | j < |c.source| && k < |c.source| && j != k
      && !Untouched(st, c, before, j) && !Untouched(st, c, before, k)
      ensures Compared(st, c, b, before, j, k).Err?
    {
      NoTwins(st, c, b, before, j, k);
      if Compared(st, c, b, before, j, k).Ok? {
        CrossedPairsRepeat(st, c, b, before, j, k);
      }
    }
  }

  lemma NoTwins(st: Objects, c: Candidate, b: Id, before: Id, j: nat, k: nat)
    requires PairedUp(st, c, b, before) && j < |c.source| && k < |c.source| && j != k
    requires !Untouched(st, c, before, j) && !Untouched(st, c, before, k)
    ensures var one, other := Compared(st, c, b, before, j, j), Compared(st, c, b, before, k, k);
      && one.Ok? && other.Ok?
      && (!SameEdits(one.value, other.value) || !SameEdits(other.value, one.value))
  {
    hide CompareTrees, Suffix, SameEdits, Untouched, Compared;
    assert !Twins(st, c, b, before, if j < k then j else k, if j < k then k else j);
  }

  lemma CrossedPairsRepeat(st: Objects, c: Candidate, b: Id, before: Id, j: nat, k: nat)
    requires j < |c.source| && k < |c.source| && |Suffix(st, c.terminal, before, |c.source|)| == |c.source|
    requires Compared(st, c, b, before, j, j).Ok? && Compared(st, c, b, before, k, k).Ok?
    requires Compared(st, c, b, before, j, k).Ok?
    ensures var one, other := Compared(st, c, b, before, j, j), Compared(st, c, b, before, k, k);
      SameEdits(one.value, other.value) && SameEdits(other.value, one.value)
  {
    hide CompareTrees, Suffix, SameEdits;
    var pairs := Suffix(st, c.terminal, before, |c.source|);
    var i, m := |c.source| - 1 - j, |c.source| - 1 - k;
    CommonSource(st, SourceParent(c, b, i), c.source[i], pairs[j].1, pairs[j].0, pairs[k].1, pairs[k].0);
    CommonTarget(st, pairs[k].1, pairs[k].0, SourceParent(c, b, i), c.source[i], SourceParent(c, b, m), c.source[m]);
    CommonTarget(st, pairs[k].1, pairs[k].0, SourceParent(c, b, m), c.source[m], SourceParent(c, b, i), c.source[i]);
  }

  // ----- direct pushes -----

  lemma {:induction false} AllReadable(st: Objects, ids: seq<Id>)
    ensures FirstUnreadable(st, ids).None? <==> forall k :: 0 <= k < |ids| ==> Parents(st, ids[k]).Ok?
  {
    if ids != [] {
      AllReadable(st, ids[1..]);
      assert forall k :: 0 <= k < |ids[1..]| ==> ids[1..][k] == ids[k + 1];
    }
  }

  /** A spine commit is a direct push exactly when it is a readable root with nothing before it, or
      its readable first parent is the commit before it and every commit it brought in is listed
      and readable. */
  lemma PushProvenExactly(st: Objects, before: Id, terminal: Id)
    ensures PushAt(st, before, terminal).gap.reason == "" <==>
            || (before == "" && Parents(st, terminal) == Ok([]))
            || (&& Parents(st, terminal).Ok? && Parents(st, terminal).value != []
                && Parents(st, terminal).value[0] == before && Parents(st, before).Ok?
                && Introduced(st, before, terminal).Ok?
                && var ids := Introduced(st, before, terminal).value;
                   forall k :: 0 <= k < |ids| ==> Parents(st, ids[k]).Ok?)
    ensures PushAt(st, before, terminal).gap.reason == "" ==>
              PushAt(st, before, terminal).push ==
              if Parents(st, terminal) == Ok([]) then DirectPush("", terminal, [terminal])
              else DirectPush(before, terminal, Introduced(st, before, terminal).value)
  {
    ReasonsAreGiven();
    hide Parents, Introduced;
    if Introduced(st, before, terminal).Ok? {
      AllReadable(st, Introduced(st, before, terminal).value);
    }
  }

  // ----- unlabelled, one parent -----

  /** What squash and range correspondence must say, each conclusively: at least one matches, a
      matching range fits the interval, and both match only for a single commit. */
  predicate Settled(st: Objects, p: Interval, c: Candidate, b: Id, before: Id)
    requires |c.source| > 0
  {
    var squash, range := CompareTrees(st, b, c.sourceHead, before, c.terminal), CompareRange(st, c, b, before);
    && (squash.Ok? || squash == Err(Correspondence))
    && (range.error == None || range.error == Some(Correspondence))
    && (squash.Ok? || range.error == None)
    && (range.error == None ==> |c.source| <= Position(p.spine, c.terminal) + 1)
    && (squash.Ok? && range.error == None ==> |c.source| == 1)
  }

  /** The landing names each alternative that matched and owns what it found. */
  predicate Found(st: Objects, c: Candidate, b: Id, before: Id, l: Landing)
    requires |c.source| > 0
  {
    var squash, range := CompareTrees(st, b, c.sourceHead, before, c.terminal), CompareRange(st, c, b, before);
    var pairs := Suffix(st, c.terminal, before, |c.source|);
    var spine, start := if squash.Ok? then [c.terminal] else Reverse(Ids(pairs)),
        if squash.Ok? then before else pairs[|pairs| - 1].1;
    && l == Landing(c.id, start, c.terminal, l.proofs, spine, c.source, spine)
    && ("squash" in l.proofs <==> squash.Ok?)
    && ("rebase" in l.proofs <==> range.error == None)
    && ("fast_forward" in l.proofs <==> range.error == None && range.identical)
    && (forall tag :: tag in l.proofs ==> tag == "squash" || tag == "rebase" || tag == "fast_forward")
    && (forall i, j :: 0 <= i < j < |l.proofs| ==> l.proofs[i] != l.proofs[j] && Below(l.proofs[i], l.proofs[j]))
  }

  /** A squash and a range agree on an origin exactly when the source is one commit. */
  lemma OneCommitAgrees(st: Objects, c: Candidate, b: Id, before: Id, proofs: seq<string>)
    requires |c.source| > 0 && CompareRange(st, c, b, before).error == None
    ensures var l := RangeLanding(c, CompareRange(st, c, b, before)).(proofs := proofs);
      SameOrigin(SquashLanding(c, before), l) <==> |c.source| == 1
    ensures |c.source| == 1 ==> CompareRange(st, c, b, before).commits == [c.terminal]
  {
    hide CompareRange, Sort;
    RangeOwns(st, c, b, before);
    var r := CompareRange(st, c, b, before);
    assert |r.commits| == |c.source|;
    if |c.source| == 1 {
      assert Suffix(st, c.terminal, before, 1)[0] == (c.terminal, before);
      assert r.commits == [c.terminal];
    }
  }

  lemma ThreeMatches(x: Attempt, y: Attempt, z: Attempt)
    ensures Matches([x, y, z]) == (if IsMatch(x) then [x.landing] else []) + (if IsMatch(y) then [y.landing] else [])
                                  + if IsMatch(z) then [z.landing] else []
  {
    hide Matches, IsMatch;
    NoMatches();
    MatchesAppend([], x);
    MatchesAppend([x], y);
    MatchesAppend([x, y], z);
    assert [] + [x] == [x] && [x] + [y] == [x, y] && [x, y] + [z] == [x, y, z];
  }

  /** Attempts with the shape that the three alternatives have. */
  lemma ThreeAttempts(c: Candidate, x: Attempt, y: Attempt, z: Attempt)
    requires forall a :: a in [x, y, z] && a.state.Inconclusive? ==> a.gap.reason != ""
    requires z.state.Mismatch? || (z.state == y.state && z.crossesBase == y.crossesBase)
    requires !x.crossesBase && (y.state.Match? && z.state.Match? ==> SameOrigin(y.landing, z.landing))
    ensures var r := Resolve(c, [x, y, z], false);
      && (Accepted(r) <==>
            && !x.state.Inconclusive? && !y.state.Inconclusive? && (x.state.Match? || y.state.Match?)
            && !(y.state.Match? && y.crossesBase)
            && (x.state.Match? && y.state.Match? ==> SameOrigin(x.landing, y.landing)))
      && (Accepted(r) ==> LabelledBy(r.landing, [x, y, z])
                          && r.landing == (if x.state.Match? then x else y).landing.(proofs := r.landing.proofs))
  {
    hide *;
    var attempts := [x, y, z];
    ResolveExactly(c, attempts);
    ThreeMembers(x, y, z);
    ThreeConsistent(x, y, z);
    if Accepted(Resolve(c, attempts, false)) {
      FirstOwns(c, attempts);
      ThreeMatches(x, y, z);
    }
  }

  /** The landing is that of the first match. */
  lemma FirstOwns(c: Candidate, attempts: seq<Attempt>)
    requires Accepted(Resolve(c, attempts, false))
    requires forall a :: a in attempts && a.state.Inconclusive? ==> a.gap.reason != ""
    ensures var l := Resolve(c, attempts, false).landing;
      Matches(attempts) != [] && l == Matches(attempts)[0].(proofs := l.proofs)
  {
    hide Matches, Agree, AllProofs, Sort, Compact, FirstInconclusive, AnyInconclusive, AnyCrossing;
    if AnyInconclusive(attempts) {
      InconclusiveHasReason(attempts);
    }
  }

  lemma ThreeMembers(x: Attempt, y: Attempt, z: Attempt)
    ensures forall a :: a in [x, y, z] <==> a == x || a == y || a == z
    ensures AnyInconclusive([x, y, z]) <==> x.state.Inconclusive? || y.state.Inconclusive? || z.state.Inconclusive?
    ensures AnyCrossing([x, y, z]) <==> Crosses(x) || Crosses(y) || Crosses(z)
    ensures forall a :: (IsMatch(a) <==> a.state.Match?) && (Crosses(a) <==> a.state.Match? && a.crossesBase)
    ensures forall v :: Accepted(v) <==> v.gap.reason == ""
  {
    var attempts := [x, y, z];
    assert attempts[0] == x && attempts[1] == y && attempts[2] == z;
  }

  /** The third attempt, where it matches, owns what the second does. */
  lemma ThreeConsistent(x: Attempt, y: Attempt, z: Attempt)
    requires z.state.Mismatch? || z.state == y.state
    requires y.state.Match? && z.state.Match? ==> SameOrigin(y.landing, z.landing)
    ensures Consistent([x, y, z]) <==> (x.state.Match? && y.state.Match? ==> SameOrigin(x.landing, y.landing))
  {
    ThreeMembers(x, y, z);
    hide Sort;
  }

  lemma SingleParentGiven(st: Objects, p: Interval, c: Candidate, caps: Capabilities, before: Id)
    requires c.how == Unstated && caps.singleParentCorrespondence && Admissible(c, caps) == ""
    requires c.terminal in p.spine && Parents(st, c.terminal) == Ok([before])
    ensures var v := ProveAt(st, p, c, caps);
      && (Accepted(v) <==>
          Parents(st, before).Ok? && exists b :: LinearSource(st, c, b) && Settled(st, p, c, b, before))
      && (Accepted(v) ==> exists b :: LinearSource(st, c, b) && Found(st, c, b, before, v.landing))
  {
    hide CompareTrees, LinearSource, SourceBoundary, CompareRange, Resolve, Settled, Found;
    var source := SourceBoundary(st, c);
    ReasonsAreGiven();
    SourceBoundaryExact(st, c, source.before);
    forall b | LinearSource(st, c, b) ensures source == Boundary(b, NO_GAP) {
      SourceBoundaryExact(st, c, b);
    }
    assert [before][0] == before;
    if LinearSource(st, c, source.before) && Parents(st, before).Ok? {
      AlternativesSettle(st, p, c, source.before, before);
    }
  }

  /** The alternatives settle a source chain on top of `b` against a terminal on top of `before`. */
  ghost predicate SingleParentHolds(st: Objects, p: Interval, c: Candidate, before: Id, b: Id) {
    && c.terminal in p.spine && Parents(st, c.terminal) == Ok([before]) && Parents(st, before).Ok?
    && LinearSource(st, c, b) && Settled(st, p, c, b, before)
  }

  /** An unlabelled candidate with one parent is accepted exactly when it is stated, the provider
      supports the comparison, its source is a complete linear chain and the alternatives settle
      it: a longer source that matches both as a squash and as a range is ambiguous. */
  lemma SingleParentProvenExactly(st: Objects, p: Interval, c: Candidate, caps: Capabilities)
    requires c.how == Unstated && Parents(st, c.terminal).Ok? && |Parents(st, c.terminal).value| == 1
    ensures var v := ProveAt(st, p, c, caps);
      && (Accepted(v) <==>
            && Stated(c) && caps.singleParentCorrespondence
            && exists before, b :: SingleParentHolds(st, p, c, before, b))
      && (Accepted(v) ==>
            exists before, b :: SingleParentHolds(st, p, c, before, b) && Found(st, c, b, before, v.landing))
  {
    hide LinearSource, Settled, Found;
    AdmissibleExactly(c, caps);
    ReasonsAreGiven();
    var before := Parents(st, c.terminal).value[0];
    assert Parents(st, c.terminal).value == [before];
    forall other | Parents(st, c.terminal) == Ok([other]) ensures other == before {
      assert [other][0] == other;
    }
    if Admissible(c, caps) == "" && caps.singleParentCorrespondence && c.terminal in p.spine {
      SingleParentGiven(st, p, c, caps, before);
      if Accepted(ProveAt(st, p, c, caps)) {
        var b :| LinearSource(st, c, b) && Settled(st, p, c, b, before);
        var d :| LinearSource(st, c, d) && Found(st, c, d, before, ProveAt(st, p, c, caps).landing);
        OneBoundary(st, c, b, d);
        assert SingleParentHolds(st, p, c, before, b);
      }
    }
  }

  lemma OneBoundary(st: Objects, c: Candidate, b: Id, d: Id)
    requires LinearSource(st, c, b) && LinearSource(st, c, d)
    ensures b == d
  {
    hide LinearSource, SourceBoundary;
    HeadOf(st, c, b);
    SourceBoundaryExact(st, c, b);
    SourceBoundaryExact(st, c, d);
  }

  lemma AlternativesSettle(st: Objects, p: Interval, c: Candidate, b: Id, before: Id)
    requires |c.source| > 0
    ensures var ranges := RangeAlternatives(st, p, c, b, before);
      var r := Resolve(c, [CompareSquash(st, c, b, before), ranges.0, ranges.1], false);
      && (Accepted(r) <==> Settled(st, p, c, b, before))
      && (Accepted(r) ==> Found(st, c, b, before, r.landing))
  {
    hide CompareTrees, CompareRange, Resolve, LabelledBy, SameOrigin;
    ReasonsAreGiven();
    var ranges := RangeAlternatives(st, p, c, b, before);
    var x := CompareSquash(st, c, b, before);
    if CompareRange(st, c, b, before).error == None {
      RangeOwns(st, c, b, before);
      OneCommitAgrees(st, c, b, before, [REBASE]);
      RelabelledAgree(ranges.0.landing, [FAST_FORWARD]);
    }
    ThreeAttempts(c, x, ranges.0, ranges.1);
    var l := Resolve(c, [x, ranges.0, ranges.1], false).landing;
    if LabelledBy(l, [x, ranges.0, ranges.1]) {
      ThreeLabels(l, x, ranges.0, ranges.1);
    }
  }

  lemma RelabelledAgree(l: Landing, proofs: seq<string>)
    ensures SameOrigin(l, l.(proofs := proofs))
  {
  }

  lemma ThreeLabels(l: Landing, x: Attempt, y: Attempt, z: Attempt)
    requires LabelledBy(l, [x, y, z])
    requires x.state.Match? ==> x.landing.proofs == [SQUASH]
    requires y.state.Match? ==> y.landing.proofs == [REBASE]
    requires z.state.Match? ==> z.landing.proofs == [FAST_FORWARD]
    ensures SQUASH in l.proofs <==> x.state.Match?
    ensures REBASE in l.proofs <==> y.state.Match?
    ensures FAST_FORWARD in l.proofs <==> z.state.Match?
    ensures forall tag :: tag in l.proofs ==> tag == SQUASH || tag == REBASE || tag == FAST_FORWARD
    ensures forall i, j :: 0 <= i < j < |l.proofs| ==> l.proofs[i] != l.proofs[j] && Below(l.proofs[i], l.proofs[j])
  {
    hide Below;
    var attempts := [x, y, z];
    assert attempts[0] == x && attempts[1] == y && attempts[2] == z;
    assert x in attempts && y in attempts && z in attempts;
    assert SQUASH[0] != REBASE[0] && SQUASH[0] != FAST_FORWARD[0] && REBASE[0] != FAST_FORWARD[0];
  }

  // ----- merge -----

  /** The source lists distinct readable commits, the head among them. */
  predicate Listed(st: Objects, c: Candidate) {
    && Distinct(c.source) && c.sourceHead in c.source
    && forall k :: 0 <= k < |c.source| ==> c.source[k] != "" && Parents(st, c.source[k]).Ok?
  }

  lemma {:induction false} CheckedFrom(st: Objects, c: Candidate, i: nat)
    requires i <= |c.source|
    ensures CheckSourcesFrom(st, c, i).0 == "" <==>
            c.sourceHead in c.source
            && forall k :: i <= k < |c.source| ==>
                c.source[k] != "" && c.source[k] !in c.source[..k] && Parents(st, c.source[k]).Ok?
    decreases |c.source| - i
  {
    ReasonsAreGiven();
    if i < |c.source| {
      CheckedFrom(st, c, i + 1);
    }
  }

  /** The check passes exactly for such a list. */
  lemma CheckedExactly(st: Objects, c: Candidate)
    ensures CheckSourcesFrom(st, c, 0).0 == "" <==> Listed(st, c)
  {
    CheckedFrom(st, c, 0);
    if CheckSourcesFrom(st, c, 0).0 == "" {
      CheckedSourcesDiffer(st, c, 0);
    }
  }

  /** What the merge brought in besides itself is the source, less what was there before. */
  ghost predicate BroughtItsSource(st: Objects, c: Candidate, before: Id) {
    forall x :: (x in c.source && x !in Reach(st.graph, before)) <==>
                (x in Reach(st.graph, c.terminal) - Reach(st.graph, before) && x != c.terminal)
  }

  /** The terminal merges the source head into `before`, and brought in exactly the distinct readable
      source commits that `before` lacks, every one of these reads answered. */
  ghost predicate MergeHolds(st: Objects, c: Candidate, before: Id) {
    && Parents(st, c.terminal) == Ok([before, c.sourceHead]) && Parents(st, before).Ok?
    && Listed(st, c) && Introduced(st, before, c.terminal).Ok?
    && (forall k :: 0 <= k < |c.source| ==> IsAncestor(st, c.source[k], before).Ok?)
    && BroughtItsSource(st, c, before)
  }

  /** A merge is accepted exactly when it is stated and supported and it holds; so is an unlabelled
      candidate that does not have one parent. */
  lemma MergeProvenExactly(st: Objects, p: Interval, c: Candidate, caps: Capabilities)
    requires Exact(st)
    requires c.how == Merge || (c.how == Unstated && !OneParent(st, c.terminal))
    ensures Accepted(ProveAt(st, p, c, caps)) <==>
            Stated(c) && caps.merge && exists before :: MergeHolds(st, c, before)
  {
    hide Exact, CompareMerge, Listed, CheckSourcesFrom, BroughtItsSource, ProveMerge, Topology;
    AdmissibleExactly(c, caps);
    ReasonsAreGiven();
    if Admissible(c, caps) == "" && Parents(st, c.terminal).Ok? {
      var parents := Parents(st, c.terminal).value;
      if |parents| == 2 && parents[1] == c.sourceHead {
        assert parents == [parents[0], c.sourceHead];
        MergeGiven(st, c, parents[0]);
      }
    }
    forall before | MergeHolds(st, c, before)
      ensures Parents(st, c.terminal) == Ok([before, c.sourceHead])
      ensures |Parents(st, c.terminal).value| == 2
      ensures Parents(st, c.terminal).value[0] == before && Parents(st, c.terminal).value[1] == c.sourceHead
    {
    }
  }

  /** The commit is readable and has a single parent. */
  predicate OneParent(st: Objects, id: Id) {
    Parents(st, id).Ok? && |Parents(st, id).value| == 1
  }

  lemma MergeGiven(st: Objects, c: Candidate, before: Id)
    requires Exact(st)
    ensures Accepted(ProveMerge(st, c, before)) <==>
            && Parents(st, before).Ok? && Listed(st, c) && Introduced(st, before, c.terminal).Ok?
            && (forall k :: 0 <= k < |c.source| ==> IsAncestor(st, c.source[k], before).Ok?)
            && BroughtItsSource(st, c, before)
  {
    hide Exact, CompareMerge, Listed, CheckSourcesFrom, BroughtItsSource;
    ReasonsAreGiven();
    CheckedExactly(st, c);
    if CheckSourcesFrom(st, c, 0).0 == "" {
      ComparedMergeRead(st, c, before);
      if Introduced(st, before, c.terminal).Ok?
         && forall k :: 0 <= k < |c.source| ==> IsAncestor(st, c.source[k], before).Ok? {
        MergeExact(st, c, before);
        BroughtUnfold(st, c, before);
      }
    }
  }

  lemma BroughtUnfold(st: Objects, c: Candidate, before: Id)
    ensures BroughtItsSource(st, c, before) <==>
            forall x :: (x in c.source && x !in Reach(st.graph, before)) <==>
                        (x in Reach(st.graph, c.terminal) - Reach(st.graph, before) && x != c.terminal)
  {
  }

  /** A comparison that succeeds had every read answered. */
  lemma ComparedMergeRead(st: Objects, c: Candidate, before: Id)
    ensures CompareMerge(st, c, before).Ok? ==>
              && Introduced(st, before, c.terminal).Ok?
              && forall k :: 0 <= k < |c.source| ==> IsAncestor(st, c.source[k], before).Ok?
  {
    hide Sort, Select;
    ExpectedRead(st, c, before, 0, []);
  }

  lemma {:induction false} ExpectedRead(st: Objects, c: Candidate, before: Id, i: nat, expected: seq<Id>)
    requires i <= |c.source|
    ensures ExpectedFrom(st, c, before, i, expected).Ok? ==>
              forall k :: i <= k < |c.source| ==> IsAncestor(st, c.source[k], before).Ok?
    decreases |c.source| - i
  {
    if i < |c.source| && IsAncestor(st, c.source[i], before).Ok? {
      ExpectedRead(st, c, before, i + 1,
                   if IsAncestor(st, c.source[i], before).value then expected else expected + [c.source[i]]);
    }
  }

  // ----- what an accepted candidate owns -----

  /** The first parent that the terminal is read to have. */
  function Onto(st: Objects, c: Candidate): Id {
    if Parents(st, c.terminal).Ok? && Parents(st, c.terminal).value != [] then Parents(st, c.terminal).value[0] else ""
  }

  /** A squash owns its terminal alone, on top of the terminal's parent. */
  lemma SquashLands(st: Objects, p: Interval, c: Candidate, caps: Capabilities)
    requires c.how == Squash && Accepted(ProveAt(st, p, c, caps))
    ensures ProveAt(st, p, c, caps).landing ==
            Landing(c.id, Onto(st, c), c.terminal, ["squash"], [c.terminal], c.source, [c.terminal])
  {
    hide CompareTrees, SourceBoundary, Parents;
    ReasonsAreGiven();
  }

  /** A merge owns its terminal, and introduced, sorted and once each, all else that the terminal
      contains and its first parent does not. */
  lemma MergeLands(st: Objects, p: Interval, c: Candidate, caps: Capabilities)
    requires Exact(st) && Accepted(ProveAt(st, p, c, caps))
    requires c.how == Merge || (c.how == Unstated && !OneParent(st, c.terminal))
    ensures var l := ProveAt(st, p, c, caps).landing;
      && l == Landing(c.id, Onto(st, c), c.terminal, ["merge"], [c.terminal], c.source, l.introduced)
      && SortedBy(l.introduced, Below) && Distinct(l.introduced)
      && forall x :: x in l.introduced <==>
           x in Reach(st.graph, c.terminal) && x !in Reach(st.graph, Onto(st, c)) && x != c.terminal
  {
    hide CompareMerge, CheckSourcesFrom, Parents, Exact, Reach;
    ReasonsAreGiven();
    MergeBrought(st, c, Onto(st, c));
  }

  lemma MergeBrought(st: Objects, c: Candidate, before: Id)
    requires Exact(st) && CompareMerge(st, c, before).Ok?
    ensures var ids := CompareMerge(st, c, before).value;
      && SortedBy(ids, Below) && Distinct(ids)
      && forall x :: x in ids <==> x in Reach(st.graph, c.terminal) && x !in Reach(st.graph, before) && x != c.terminal
  {
    hide Reach, ExpectedFrom, Sort, Select;
    var ids := Introduced(st, before, c.terminal).value;
    var brought := Without(ids, c.terminal);
    BelowIsPreorder();
    SortSorted(brought, Below);
    SelectDistinct(ids, (x: Id) => x != c.terminal);
    DistinctPermutation(Sort(brought, Below), brought);
    MembersOfPermutation(Sort(brought, Below), brought);
    forall x ensures x in brought <==>
                     x in Reach(st.graph, c.terminal) && x !in Reach(st.graph, before) && x != c.terminal
    {
      assert x in ids <==> x in Commits(ids);
    }
  }

  /** A rebase owns as many commits as it has sources, those that first parents lead through back from
      the terminal, oldest first, on top of the last one's parent; it introduced the same. */
  lemma RebaseLands(st: Objects, p: Interval, c: Candidate, caps: Capabilities)
    requires c.how == Rebase && Accepted(ProveAt(st, p, c, caps))
    ensures var pairs := Suffix(st, c.terminal, Onto(st, c), |c.source|);
      && |pairs| == |c.source| > 0
      && ProveAt(st, p, c, caps).landing ==
         Landing(c.id, pairs[|pairs| - 1].1, c.terminal, ["rebase"], Reverse(Ids(pairs)), c.source, Reverse(Ids(pairs)))
  {
    hide CompareRange, SourceBoundary, Parents, Suffix;
    ReasonsAreGiven();
    var source := SourceBoundary(st, c);
    if CompareRange(st, c, source.before, Onto(st, c)).error == None {
      RangeOwns(st, c, source.before, Onto(st, c));
    }
  }

  /** A fast-forward owns and introduced its source, on top of the commit before it. */
  lemma FastForwardLands(st: Objects, p: Interval, c: Candidate, caps: Capabilities)
    requires c.how == FastForward && Accepted(ProveAt(st, p, c, caps))
    ensures exists b :: LinearSource(st, c, b) && ProveAt(st, p, c, caps).landing ==
                        Landing(c.id, b, c.terminal, ["fast_forward"], c.source, c.source, c.source)
  {
    hide CompareRange, SourceBoundary, LinearSource;
    ReasonsAreGiven();
    FastForwardProvenExactly(st, p, c, caps);
    var source := SourceBoundary(st, c);
    SourceBoundaryExact(st, c, source.before);
    var b := source.before;
    HeadOf(st, c, b);
    OwnRange(st, c, b);
    assert Parents(st, c.terminal).value == [SourceParent(c, b, |c.source| - 1)];
    OwnsBoundary(st, c, b);
  }

  /** The range that is the source itself starts where the source does. */
  lemma OwnsBoundary(st: Objects, c: Candidate, b: Id)
    requires LinearSource(st, c, b) && c.sourceHead == c.terminal
    requires CompareRange(st, c, b, SourceParent(c, b, |c.source| - 1)).error == None
    ensures CompareRange(st, c, b, SourceParent(c, b, |c.source| - 1)).before == b
  {
    var n, before := |c.source|, SourceParent(c, b, |c.source| - 1);
    RangeOwns(st, c, b, before);
    SuffixOfSource(st, c, b, n);
  }

  lemma {:induction false} SuffixOfSource(st: Objects, c: Candidate, b: Id, n: nat)
    requires LinearSource(st, c, b) && 1 <= n <= |c.source|
    ensures var pairs := Suffix(st, c.source[n - 1], SourceParent(c, b, n - 1), n);
      |pairs| == n && pairs[n - 1].1 == b
    decreases n
  {
    if n > 1 {
      assert ChainLink(st, c, b, n - 2);
      SuffixOfSource(st, c, b, n - 1);
    }
  }

  // ----- what a refusal never says -----

  /** A proof that fails never reports a conflict between candidates. */
  predicate NoConflict(v: Verdict) {
    v.gap.reason != "candidate_conflict"
  }

  lemma ReasonsAreNoConflicts()
    ensures forall e :: GraphReason(e) != "candidate_conflict" && EditReason(e) != "candidate_conflict"
  {
  }

  lemma ProofNeverConflicts(st: Objects, p: Interval, c: Candidate, caps: Capabilities)
    ensures NoConflict(ProveAt(st, p, c, caps))
  {
    hide ProveSingleParent, ProveSquash, ProveMerge, ProveRange, Parents;
    ReasonsAreNoConflicts();
    if Admissible(c, caps) == "" {
      RangeNeverConflicts(st, p, c);
      if Parents(st, c.terminal).Ok? && Parents(st, c.terminal).value != [] {
        SingleParentNeverConflicts(st, p, c, Parents(st, c.terminal).value[0]);
        SquashNeverConflicts(st, c, Parents(st, c.terminal).value[0]);
        MergeNeverConflicts(st, c, Parents(st, c.terminal).value[0]);
      }
    }
  }

  lemma {:induction false} BoundaryNeverConflicts(st: Objects, c: Candidate, i: nat, before: Id)
    requires i <= |c.source|
    ensures BoundaryFrom(st, c, i, before).gap.reason != "candidate_conflict"
    decreases |c.source| - i
  {
    ReasonsAreNoConflicts();
    if i < |c.source| && Parents(st, c.source[i]).Ok? && |Parents(st, c.source[i]).value| == 1 {
      BoundaryNeverConflicts(st, c, i + 1, if i == 0 then Parents(st, c.source[i]).value[0] else before);
    }
  }

  lemma RangeNeverConflicts(st: Objects, p: Interval, c: Candidate)
    requires |c.source| > 0
    ensures NoConflict(ProveRange(st, p, c))
  {
    hide CompareRange, BoundaryFrom, Parents;
    ReasonsAreNoConflicts();
    BoundaryNeverConflicts(st, c, 0, "");
  }

  lemma SquashNeverConflicts(st: Objects, c: Candidate, before: Id)
    requires |c.source| > 0
    ensures NoConflict(ProveSquash(st, c, before))
  {
    hide CompareTrees, BoundaryFrom, Parents;
    ReasonsAreNoConflicts();
    BoundaryNeverConflicts(st, c, 0, "");
  }

  lemma SingleParentNeverConflicts(st: Objects, p: Interval, c: Candidate, before: Id)
    requires |c.source| > 0
    ensures NoConflict(ProveSingleParent(st, p, c, before))
  {
    hide CompareTrees, CompareRange, BoundaryFrom, Parents, Resolve;
    ReasonsAreNoConflicts();
    BoundaryNeverConflicts(st, c, 0, "");
    var source := SourceBoundary(st, c);
    var ranges := RangeAlternatives(st, p, c, source.before, before);
    ResolveNeverConflicts(c, [CompareSquash(st, c, source.before, before), ranges.0, ranges.1]);
  }

  lemma ResolveNeverConflicts(c: Candidate, attempts: seq<Attempt>)
    requires forall a :: a in attempts && a.state.Inconclusive? ==> a.gap.reason != "candidate_conflict"
    ensures NoConflict(Resolve(c, attempts, false))
  {
    if AnyInconclusive(attempts) {
      FirstInconclusiveMember(attempts);
    }
  }

  lemma MergeNeverConflicts(st: Objects, c: Candidate, before: Id)
    ensures NoConflict(ProveMerge(st, c, before))
  {
    hide CompareMerge, Parents;
    ReasonsAreNoConflicts();
    SourcesNeverConflict(st, c, 0);
  }

  lemma {:induction false} SourcesNeverConflict(st: Objects, c: Candidate, i: nat)
    requires i <= |c.source|
    ensures CheckSourcesFrom(st, c, i).0 != "candidate_conflict"
    decreases |c.source| - i
  {
    ReasonsAreNoConflicts();
    if i < |c.source| {
      SourcesNeverConflict(st, c, i + 1);
    }
  }
}
