/** A proven candidate whose terminal is on the spine owns exactly what it claims. */
module Soundness {
  import opened Model
  import opened Graph
  import opened Store
  import opened Intervals
  import opened TreeEdits
  import opened Sources
  import opened Ranges
  import opened Alternatives
  import opened Proofs
  import opened Ordering

  ghost predicate Setting(st: Objects, p: Interval, c: Candidate) {
    Exact(st) && FirstParentSpine(st.graph, p) && c.terminal in p.spine && c.id != ""
  }

  /** The terminal's first parent, as read, is the commit before it on the spine. */
  lemma TerminalParent(st: Objects, p: Interval, c: Candidate)
    requires Setting(st, p, c) && Parents(st, c.terminal).Ok? && Parents(st, c.terminal).value != []
    ensures Parents(st, c.terminal).value == st.graph[c.terminal]
    ensures Parents(st, c.terminal).value[0] == Prev(p, Position(p.spine, c.terminal))
  {
    assert SpineLink(st.graph, p, Position(p.spine, c.terminal));
  }

  lemma SquashSound(st: Objects, p: Interval, c: Candidate, before: Id)
    requires Setting(st, p, c) && Parents(st, c.terminal) == Ok([before])
    ensures SoundLanding(st.graph, p, SquashLanding(c, before))
  {
    hide FirstParentSpine, Reach;
    var k := Position(p.spine, c.terminal);
    TerminalParent(st, p, c);
    ReachSingleParent(st.graph, c.terminal);
    assert p.spine[k..k + 1] == [c.terminal];
  }

  lemma MergeSound(st: Objects, p: Interval, c: Candidate, before: Id, ids: seq<Id>)
    requires Setting(st, p, c) && Parents(st, c.terminal).Ok? && Parents(st, c.terminal).value != []
    requires before == Parents(st, c.terminal).value[0]
    requires CompareMerge(st, c, before) == Ok(ids)
    ensures SoundLanding(st.graph, p, Landing(c.id, before, c.terminal, [MERGE], [c.terminal], c.source, ids))
  {
    hide Sort, Select, FirstParentSpine, Reach;
    var k := Position(p.spine, c.terminal);
    TerminalParent(st, p, c);
    SpineStep(st.graph, p, k);
    var all := Introduced(st, before, c.terminal).value;
    MembersOfPermutation(ids, Without(all, c.terminal));
    forall x ensures x in Contribution(ids, c.terminal) <==> x in Commits(all) {
    }
    assert Contribution(ids, c.terminal) == Stretch(st.graph, p, k, k);
    assert p.spine[k..k + 1] == [c.terminal];
  }

  /** The walked suffix is the spine read backwards from the terminal. */
  lemma {:induction false} SuffixOnSpine(st: Objects, p: Interval, k: int, before: Id, n: nat, m: nat)
    requires Exact(st) && FirstParentSpine(st.graph, p) && 0 <= k < |p.spine|
    requires Parents(st, p.spine[k]) == Ok([before])
    requires m < |Suffix(st, p.spine[k], before, n)| && m <= k
    ensures Suffix(st, p.spine[k], before, n)[m] == (p.spine[k - m], Prev(p, k - m))
    ensures OnlyParent(st.graph, p, k - m)
    decreases m
  {
    assert SpineLink(st.graph, p, k - m);
    if m > 0 {
      SuffixChain(st, p.spine[k], before, n, m - 1);
      SuffixOnSpine(st, p, k, before, n, m - 1);
    }
  }

  /** A suffix as long as the source stays on the spine when the source fits the interval. */
  lemma SuffixIsSpine(st: Objects, p: Interval, k: int, before: Id, n: nat)
    requires Exact(st) && FirstParentSpine(st.graph, p) && 0 <= k < |p.spine| && 1 <= n <= k + 1
    requires Parents(st, p.spine[k]) == Ok([before])
    requires |Suffix(st, p.spine[k], before, n)| == n
    ensures Reverse(Ids(Suffix(st, p.spine[k], before, n))) == p.spine[k + 1 - n..k + 1]
    ensures Suffix(st, p.spine[k], before, n)[n - 1].1 == Prev(p, k + 1 - n)
    ensures forall i :: k + 1 - n <= i <= k ==> OnlyParent(st.graph, p, i)
  {
    hide Exact, FirstParentSpine, Suffix, OnlyParent;
    var pairs := Suffix(st, p.spine[k], before, n);
    forall m | 0 <= m < n ensures pairs[m] == (p.spine[k - m], Prev(p, k - m)) {
      SuffixOnSpine(st, p, k, before, n, m);
    }
    forall i | k + 1 - n <= i <= k ensures OnlyParent(st.graph, p, i) {
      SuffixOnSpine(st, p, k, before, n, k - i);
    }
    var commits := Reverse(Ids(pairs));
    forall m | 0 <= m < n ensures commits[m] == p.spine[k + 1 - n..k + 1][m] {
      assert commits[m] == pairs[n - 1 - m].0;
    }
  }

  /** A matching range inside the interval is the stretch of spine that ends at the terminal. */
  lemma OwnedIsSound(st: Objects, p: Interval, c: Candidate, k: int, before: Id, r: RangeResult, proofs: seq<string>)
    requires Exact(st) && FirstParentSpine(st.graph, p)
    requires 0 <= k < |p.spine| && c.terminal == p.spine[k] && Parents(st, p.spine[k]) == Ok([before])
    requires Owned(st, c, before, r) && |c.source| <= k + 1
    ensures SoundLanding(st.graph, p, RangeLanding(c, r).(proofs := proofs))
  {
    hide Suffix, SoundLanding, FirstParentSpine, Parents, Reach, OnlyParent;
    var j := k + 1 - |c.source|;
    SuffixIsSpine(st, p, k, before, |c.source|);
    var l := RangeLanding(c, r).(proofs := proofs);
    assert l.spine == l.introduced == p.spine[j..k + 1];
    assert l.before == Prev(p, j) && l.terminal == p.spine[k];
    LinearLandingSound(st.graph, p, j, k, l);
  }

  lemma RangeSound(st: Objects, p: Interval, c: Candidate, sourceBefore: Id, before: Id, proofs: seq<string>)
    requires Setting(st, p, c) && Parents(st, c.terminal) == Ok([before])
    requires |c.source| > 0 && CompareRange(st, c, sourceBefore, before).error == None
    requires |c.source| <= Position(p.spine, c.terminal) + 1
    ensures SoundLanding(st.graph, p, RangeLanding(c, CompareRange(st, c, sourceBefore, before)).(proofs := proofs))
  {
    RangeOwns(st, c, sourceBefore, before);
    OwnedIsSound(st, p, c, Position(p.spine, c.terminal), before, CompareRange(st, c, sourceBefore, before), proofs);
  }

  /** A matching attempt inside the interval owns a sound origin. */
  ghost predicate SoundAttempt(g: Ancestry, p: Interval, c: Candidate, a: Attempt) {
    && (a.state.Match? ==> a.landing.candidateId == c.id && a.landing.terminal == c.terminal)
    && (a.state.Match? && !a.crossesBase ==> SoundLanding(g, p, a.landing))
    && (a.state.Inconclusive? ==> a.gap.candidateId == c.id && a.gap.reason != "")
  }

  lemma RangeAttemptsSound(st: Objects, p: Interval, c: Candidate, sourceBefore: Id, before: Id)
    requires Setting(st, p, c) && Parents(st, c.terminal) == Ok([before]) && |c.source| > 0
    ensures SoundAttempt(st.graph, p, c, RangeAlternatives(st, p, c, sourceBefore, before).0)
    ensures SoundAttempt(st.graph, p, c, RangeAlternatives(st, p, c, sourceBefore, before).1)
    ensures |c.source| <= Position(p.spine, c.terminal) + 1 ==>
              && !RangeAlternatives(st, p, c, sourceBefore, before).0.crossesBase
              && !RangeAlternatives(st, p, c, sourceBefore, before).1.crossesBase
  {
    var r := CompareRange(st, c, sourceBefore, before);
    if r.error == None && |c.source| <= Position(p.spine, c.terminal) + 1 {
      RangeSound(st, p, c, sourceBefore, before, [REBASE]);
      RangeSound(st, p, c, sourceBefore, before, [FAST_FORWARD]);
      assert RangeLanding(c, r).(proofs := [REBASE]) == RangeLanding(c, r);
    }
  }

  /** What a verdict on a candidate must satisfy when its terminal is on the spine. */
  ghost predicate Trustworthy(g: Ancestry, p: Interval, c: Candidate, r: Verdict) {
    && (r.gap.reason == "" ==>
          r.gap == NO_GAP && SoundLanding(g, p, r.landing)
          && r.landing.candidateId == c.id && r.landing.terminal == c.terminal)
    && (r.gap.reason != "" ==> r.gap.candidateId == c.id)
  }

  lemma SettleSound(g: Ancestry, p: Interval, c: Candidate, a: Attempt)
    requires SoundAttempt(g, p, c, a) && !a.crossesBase
    requires a.state.Match? ==> a.gap == NO_GAP
    ensures Trustworthy(g, p, c, Settle(c, a))
  {
  }

  lemma ProveRangeSound(st: Objects, p: Interval, c: Candidate)
    requires Setting(st, p, c) && |c.source| > 0
    ensures Trustworthy(st.graph, p, c, ProveRange(st, p, c))
  {
    var source := SourceBoundary(st, c);
    BoundaryNames(st, c);
    if Parents(st, c.terminal).Ok? && |Parents(st, c.terminal).value| == 1
       && |c.source| <= Position(p.spine, c.terminal) + 1 {
      var before := Parents(st, c.terminal).value[0];
      assert Parents(st, c.terminal).value == [before];
      RangeAttemptsSound(st, p, c, source.before, before);
      var attempts := RangeAlternatives(st, p, c, source.before, before);
      SettleSound(st.graph, p, c, if c.how == FastForward then attempts.1 else attempts.0);
    }
  }

  lemma BoundaryNames(st: Objects, c: Candidate)
    requires |c.source| > 0
    ensures SourceBoundary(st, c).gap.reason != "" ==> SourceBoundary(st, c).gap.candidateId == c.id
  {
    BoundaryFromNames(st, c, 0, "");
  }

  lemma {:induction false} BoundaryFromNames(st: Objects, c: Candidate, i: nat, before: Id)
    requires i <= |c.source|
    ensures BoundaryFrom(st, c, i, before).gap.reason != "" ==> BoundaryFrom(st, c, i, before).gap.candidateId == c.id
    decreases |c.source| - i
  {
    if i < |c.source| && Parents(st, c.source[i]).Ok? && |Parents(st, c.source[i]).value| == 1 {
      BoundaryFromNames(st, c, i + 1, if i == 0 then Parents(st, c.source[i]).value[0] else before);
    }
  }

  lemma SquashAttemptSound(st: Objects, p: Interval, c: Candidate, sourceBefore: Id, before: Id)
    requires Setting(st, p, c) && Parents(st, c.terminal) == Ok([before])
    ensures SoundAttempt(st.graph, p, c, CompareSquash(st, c, sourceBefore, before))
  {
    SquashSound(st, p, c, before);
  }

  lemma ProveSquashSound(st: Objects, p: Interval, c: Candidate, before: Id)
    requires Setting(st, p, c) && |c.source| > 0 && Parents(st, c.terminal) == Ok([before])
    ensures Trustworthy(st.graph, p, c, ProveSquash(st, c, before))
  {
    BoundaryNames(st, c);
    var source := SourceBoundary(st, c);
    SquashAttemptSound(st, p, c, source.before, before);
    SettleSound(st.graph, p, c, CompareSquash(st, c, source.before, before));
  }

  lemma ProveSingleParentSound(st: Objects, p: Interval, c: Candidate, before: Id)
    requires Setting(st, p, c) && |c.source| > 0 && Parents(st, c.terminal) == Ok([before])
    ensures Trustworthy(st.graph, p, c, ProveSingleParent(st, p, c, before))
  {
    BoundaryNames(st, c);
    var source := SourceBoundary(st, c);
    SquashAttemptSound(st, p, c, source.before, before);
    RangeAttemptsSound(st, p, c, source.before, before);
    var ranges := RangeAlternatives(st, p, c, source.before, before);
    ResolveSound(st, p, c, [CompareSquash(st, c, source.before, before), ranges.0, ranges.1]);
  }

  /** Resolution returns one of the matching landings, with more labels. */
  lemma ResolveSound(st: Objects, p: Interval, c: Candidate, attempts: seq<Attempt>)
    requires forall a :: a in attempts ==> SoundAttempt(st.graph, p, c, a)
    ensures Trustworthy(st.graph, p, c, Resolve(c, attempts, false))
  {
    hide SoundLanding, Sort, Compact, AllProofs, SameOrigin, Select, FirstInconclusive;
    var matches := Matches(attempts);
    if AnyInconclusive(attempts) {
      InconclusiveHasReason(attempts);
      FirstInconclusiveMember(attempts);
    } else if !AnyCrossing(attempts) && matches != [] && Agree(matches) {
      var a := FirstMatch(attempts);
      assert !Crosses(a);
      Relabelled(st.graph, p, a.landing, Compact(Sort(AllProofs(matches), Below)));
    }
  }

  /** Labels do not bear on what a landing owns. */
  lemma Relabelled(g: Ancestry, p: Interval, l: Landing, proofs: seq<string>)
    ensures SoundLanding(g, p, l) ==> SoundLanding(g, p, l.(proofs := proofs))
  {
  }

  lemma FirstMatch(attempts: seq<Attempt>) returns (a: Attempt)
    requires Matches(attempts) != []
    ensures a in attempts && a.state.Match? && Matches(attempts)[0] == a.landing
    ensures exists i :: 0 <= i < |attempts| && attempts[i] == a
  {
    a := Select(attempts, IsMatch)[0];
    assert a in Select(attempts, IsMatch);
    assert a in attempts;
  }

  lemma {:induction false} FirstInconclusiveMember(attempts: seq<Attempt>)
    requires AnyInconclusive(attempts)
    ensures exists a :: a in attempts && a.state.Inconclusive? && a.gap == FirstInconclusive(attempts)
  {
    if attempts[0].state.Inconclusive? {
      assert attempts[0] in attempts;
    } else {
      FirstInconclusiveMember(attempts[1..]);
      var a :| a in attempts[1..] && a.state.Inconclusive? && a.gap == FirstInconclusive(attempts[1..]);
      assert a in attempts;
    }
  }

  lemma ProveMergeSound(st: Objects, p: Interval, c: Candidate, before: Id)
    requires Setting(st, p, c) && Parents(st, c.terminal).Ok? && Parents(st, c.terminal).value != []
    requires before == Parents(st, c.terminal).value[0]
    ensures Trustworthy(st.graph, p, c, ProveMerge(st, c, before))
  {
    hide CompareMerge, CheckSourcesFrom, FirstParentSpine, Exact;
    if CompareMerge(st, c, before).Ok? {
      MergeSound(st, p, c, before, CompareMerge(st, c, before).value);
    }
  }

  /** Whatever the method, a proven candidate owns a contiguous stretch of the spine that ends at
      its terminal, and what it introduced is exactly what that stretch brings in. */
  lemma ProofsAreSound(st: Objects, p: Interval, c: Candidate, caps: Capabilities)
    requires Setting(st, p, c)
    ensures Trustworthy(st.graph, p, c, ProveAt(st, p, c, caps))
  {
    hide ProveRange, ProveSingleParent, ProveSquash, ProveMerge, SoundLanding, FirstParentSpine, Exact, Parents;
    if Admissible(c, caps) == "" && !c.how.Unknown? {
      if c.how == Rebase || c.how == FastForward {
        ProveRangeSound(st, p, c);
      } else if Parents(st, c.terminal).Ok? {
        var parents := Parents(st, c.terminal).value;
        if |parents| == 1 {
          assert parents == [parents[0]];
        }
        if Automatic(p, c, caps, parents) {
          ProveSingleParentSound(st, p, c, parents[0]);
        } else if Topology(c, caps, parents) == "" {
          if c.how == Squash {
            ProveSquashSound(st, p, c, parents[0]);
          } else {
            ProveMergeSound(st, p, c, parents[0]);
          }
        }
      }
    }
  }

  predicate Named(c: Candidate, r: Verdict) {
    && (r.gap.reason == "" ==> r.gap == NO_GAP && r.landing.candidateId == c.id && r.landing.terminal == c.terminal)
    && (r.gap.reason != "" ==> r.gap.candidateId == c.id)
  }

  /** Off the spine, too, a refusal names the candidate and an acceptance carries no gap. */
  lemma VerdictNames(st: Objects, p: Interval, c: Candidate, caps: Capabilities)
    requires c.id != ""
    ensures Named(c, ProveAt(st, p, c, caps))
  {
    hide ProveSingleParent, ProveSquash, ProveMerge, ProveRange, Parents;
    if Admissible(c, caps) == "" {
      ProofsName(st, p, c);
      if Parents(st, c.terminal).Ok? && Parents(st, c.terminal).value != [] {
        SingleParentNames(st, p, c, Parents(st, c.terminal).value[0]);
        OtherProofsName(st, c, Parents(st, c.terminal).value[0]);
      }
    }
  }

  lemma ProofsName(st: Objects, p: Interval, c: Candidate)
    requires |c.source| > 0
    ensures Named(c, ProveRange(st, p, c))
  {
    hide CompareRange, SourceBoundary, Parents;
    BoundaryNames(st, c);
  }

  lemma OtherProofsName(st: Objects, c: Candidate, before: Id)
    requires |c.source| > 0
    ensures Named(c, ProveSquash(st, c, before)) && Named(c, ProveMerge(st, c, before))
  {
    hide CompareTrees, CompareMerge, CheckSourcesFrom, SourceBoundary, Parents;
    BoundaryNames(st, c);
  }

  lemma SingleParentNames(st: Objects, p: Interval, c: Candidate, before: Id)
    requires |c.source| > 0
    ensures Named(c, ProveSingleParent(st, p, c, before))
  {
    hide CompareRange, CompareTrees, Resolve, SourceBoundary, Parents;
    BoundaryNames(st, c);
    var source := SourceBoundary(st, c);
    var ranges := RangeAlternatives(st, p, c, source.before, before);
    ResolveNames(c, [CompareSquash(st, c, source.before, before), ranges.0, ranges.1]);
  }

  lemma ResolveNames(c: Candidate, attempts: seq<Attempt>)
    requires forall a :: a in attempts && a.state.Match? ==>
        a.landing.candidateId == c.id && a.landing.terminal == c.terminal
    requires forall a :: a in attempts && a.state.Inconclusive? ==> a.gap.candidateId == c.id && a.gap.reason != ""
    ensures Named(c, Resolve(c, attempts, false))
  {
    var matches := Matches(attempts);
    if AnyInconclusive(attempts) {
      InconclusiveHasReason(attempts);
      FirstInconclusiveMember(attempts);
    } else if !AnyCrossing(attempts) && matches != [] && Agree(matches) {
      var a := FirstMatch(attempts);
    }
  }
}
