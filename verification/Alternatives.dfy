/** Choosing between the proofs that could explain one candidate. */
module Alternatives {
  import opened Model
  import opened Ordering

  datatype AttemptState = Inconclusive | Mismatch | Match

  datatype Attempt = Attempt(state: AttemptState, landing: Landing, gap: Gap, crossesBase: bool)

  const REFUTED := Attempt(Mismatch, NO_LANDING, NO_GAP, false)

  predicate SameOrigin(a: Landing, b: Landing) {
    && a.candidateId == b.candidateId && a.before == b.before && a.terminal == b.terminal && a.spine == b.spine
    && Sort(a.introduced, Below) == Sort(b.introduced, Below)
  }

  function Refuse(c: Candidate, reason: string): Verdict {
    Verdict(NO_LANDING, Gap(c.id, c.terminal, reason, NO_SPAN))
  }

  // ----- the answer as a function of the attempts -----

  predicate AnyInconclusive(attempts: seq<Attempt>) {
    exists i :: 0 <= i < |attempts| && attempts[i].state.Inconclusive?
  }

  predicate Crosses(a: Attempt) {
    a.state.Match? && a.crossesBase
  }

  predicate AnyCrossing(attempts: seq<Attempt>) {
    exists i :: 0 <= i < |attempts| && Crosses(attempts[i])
  }

  predicate IsMatch(a: Attempt) {
    a.state.Match?
  }

  function LandingOf(a: Attempt): Landing {
    a.landing
  }

  function ProofsOf(l: Landing): seq<string> {
    l.proofs
  }

  /** The landings of the matching attempts, in order. */
  function Matches(attempts: seq<Attempt>): seq<Landing> {
    Map(Select(attempts, IsMatch), LandingOf)
  }

  function AllProofs(matches: seq<Landing>): seq<string> {
    FlatMap(matches, ProofsOf)
  }

  /** All matches own the same origin. */
  predicate Agree(matches: seq<Landing>) {
    forall i :: 0 <= i < |matches| ==> SameOrigin(matches[0], matches[i])
  }

  function FirstInconclusive(attempts: seq<Attempt>): Gap
    requires AnyInconclusive(attempts)
  {
    if attempts[0].state.Inconclusive? then attempts[0].gap else FirstInconclusive(attempts[1..])
  }

  function Resolve(c: Candidate, attempts: seq<Attempt>, budgetFailed: bool): Verdict {
    var matches := Matches(attempts);
    if budgetFailed then Refuse(c, BUDGET_EXHAUSTED)
    else if AnyInconclusive(attempts) then Verdict(NO_LANDING, FirstInconclusive(attempts))
    else if AnyCrossing(attempts) then Refuse(c, "range_crosses_base")
    else if matches == [] then Refuse(c, "source_correspondence_unproven")
    else if !Agree(matches) then Refuse(c, "origin_ambiguous")
    else Verdict(matches[0].(proofs := Compact(Sort(AllProofs(matches), Below))), NO_GAP)
  }

  // ----- the program's loops -----

  lemma MatchesAppend(a: seq<Attempt>, x: Attempt)
    ensures Matches(a + [x]) == Matches(a) + if IsMatch(x) then [x.landing] else []
  {
    SelectAppend(a, x, IsMatch);
  }

  lemma {:induction false} FirstInconclusiveAt(attempts: seq<Attempt>, i: nat)
    requires i < |attempts| && attempts[i].state.Inconclusive?
    requires forall k :: 0 <= k < i ==> !attempts[k].state.Inconclusive?
    ensures FirstInconclusive(attempts) == attempts[i].gap
  {
    if i > 0 {
      FirstInconclusiveAt(attempts[1..], i - 1);
    }
  }

  lemma AllProofsAppend(matches: seq<Landing>, l: Landing)
    ensures AllProofs(matches + [l]) == AllProofs(matches) + l.proofs
  {
    FlatMapAppend(matches, [l], ProofsOf);
    FlatMapOne(l, ProofsOf);
  }

  method ResolveAlternatives(c: Candidate, attempts: seq<Attempt>, budgetFailed: bool) returns (r: Verdict)
    requires forall i :: 0 <= i < |attempts| && attempts[i].state.Match? ==> attempts[i].landing.candidateId != ""
    ensures r == Resolve(c, attempts, budgetFailed)
  {
    if budgetFailed {
      return Refuse(c, BUDGET_EXHAUSTED);
    }
    for i := 0 to |attempts|
      invariant forall k :: 0 <= k < i ==> !attempts[k].state.Inconclusive?
    {
      if attempts[i].state.Inconclusive? {
        FirstInconclusiveAt(attempts, i);
        return Verdict(NO_LANDING, attempts[i].gap);
      }
    }
    assert !AnyInconclusive(attempts);
    for i := 0 to |attempts|
      invariant forall k :: 0 <= k < i ==> !Crosses(attempts[k])
    {
      if Crosses(attempts[i]) {
        return Refuse(c, "range_crosses_base");
      }
    }
    assert !AnyCrossing(attempts);
    r := AcceptMatches(c, attempts);
  }

  method AcceptMatches(c: Candidate, attempts: seq<Attempt>) returns (r: Verdict)
    requires forall i :: 0 <= i < |attempts| && attempts[i].state.Match? ==> attempts[i].landing.candidateId != ""
    requires !AnyInconclusive(attempts) && !AnyCrossing(attempts)
    ensures r == Resolve(c, attempts, false)
  {
    hide SameOrigin, Matches, AllProofs, AnyInconclusive, AnyCrossing, Sort;
    var accepted := NO_LANDING;
    ghost var seen: seq<Landing> := [];
    assert seen == Matches([]) && seen <= Matches(attempts) by { NoMatches(); }
    assert AllProofs([]) == [] by { NoMatches(); }
    assert attempts[..0] == [];
    for i := 0 to |attempts|
      invariant seen == Matches(attempts[..i]) && seen <= Matches(attempts)
      invariant seen == [] ==> accepted == NO_LANDING
      invariant seen != [] ==> accepted.candidateId != "" && accepted == seen[0].(proofs := AllProofs(seen))
      invariant Agree(seen)
    {
      assert attempts[..i + 1] == attempts[..i] + [attempts[i]];
      MatchesAppend(attempts[..i], attempts[i]);
      MatchesPrefix(attempts, i + 1);
      if attempts[i].state.Match? {
        var l := attempts[i].landing;
        AllProofsAppend(seen, l);
        if accepted.candidateId == "" {
          assert seen + [l] == [l] && [] + l.proofs == l.proofs;
          SameOriginReflexive(l);
          accepted := l;
        } else {
          LabelsDoNotMatter(seen[0], AllProofs(seen), l);
          if !SameOrigin(accepted, l) {
            assert Matches(attempts)[|seen|] == l;
            return Refuse(c, "origin_ambiguous");
          }
          accepted := accepted.(proofs := accepted.proofs + l.proofs);
        }
        seen := seen + [l];
      }
    }
    assert attempts[..|attempts|] == attempts;
    if accepted.candidateId == "" {
      return Refuse(c, "source_correspondence_unproven");
    }
    var proofs := SortStrings(accepted.proofs);
    r := Verdict(accepted.(proofs := Compact(proofs)), NO_GAP);
  }

  lemma NoMatches()
    ensures Matches([]) == [] && AllProofs([]) == []
  {
  }

  lemma SameOriginReflexive(l: Landing)
    ensures SameOrigin(l, l)
  {
  }

  lemma LabelsDoNotMatter(a: Landing, proofs: seq<string>, b: Landing)
    ensures SameOrigin(a.(proofs := proofs), b) <==> SameOrigin(a, b)
  {
  }

  lemma {:induction false} MatchesPrefix(attempts: seq<Attempt>, n: nat)
    requires n <= |attempts|
    ensures Matches(attempts[..n]) <= Matches(attempts)
    decreases |attempts| - n
  {
    if n == |attempts| {
      assert attempts[..n] == attempts;
    } else {
      assert attempts[..n + 1] == attempts[..n] + [attempts[n]];
      MatchesAppend(attempts[..n], attempts[n]);
      MatchesPrefix(attempts, n + 1);
    }
  }

  // ----- exactly when a candidate is settled -----

  lemma MatchesAre(attempts: seq<Attempt>)
    ensures forall l :: l in Matches(attempts) <==> exists a :: a in attempts && IsMatch(a) && a.landing == l
  {
    var matching := Select(attempts, IsMatch);
    forall l ensures l in Matches(attempts) <==> exists a :: a in attempts && IsMatch(a) && a.landing == l {
      if l in Matches(attempts) {
        var i :| 0 <= i < |matching| && Matches(attempts)[i] == l;
        assert matching[i] in matching;
      }
      if a :| a in attempts && IsMatch(a) && a.landing == l {
        var i :| 0 <= i < |matching| && matching[i] == a;
        assert Matches(attempts)[i] == l;
      }
    }
  }

  lemma {:induction false} LabelsAre(matches: seq<Landing>)
    ensures forall tag :: tag in AllProofs(matches) <==> exists l :: l in matches && tag in l.proofs
  {
    if matches != [] {
      LabelsAre(matches[1..]);
      assert AllProofs(matches) == matches[0].proofs + AllProofs(matches[1..]);
      assert forall l :: l in matches <==> l == matches[0] || l in matches[1..];
    }
  }

  predicate Consistent(attempts: seq<Attempt>) {
    forall a, b :: a in attempts && b in attempts && IsMatch(a) && IsMatch(b) ==> SameOrigin(a.landing, b.landing)
  }

  lemma AgreementIsConsistency(attempts: seq<Attempt>)
    ensures Agree(Matches(attempts)) <==> Consistent(attempts)
  {
    MatchesAre(attempts);
    var matches := Matches(attempts);
    if Agree(matches) {
      forall a, b | a in attempts && b in attempts && IsMatch(a) && IsMatch(b)
        ensures SameOrigin(a.landing, b.landing)
      {
        assert a.landing in matches && b.landing in matches;
        var i :| 0 <= i < |matches| && matches[i] == a.landing;
        var j :| 0 <= j < |matches| && matches[j] == b.landing;
        assert SameOrigin(matches[0], matches[i]) && SameOrigin(matches[0], matches[j]);
      }
    }
    if Consistent(attempts) {
      forall i | 0 <= i < |matches| ensures SameOrigin(matches[0], matches[i]) {
        assert matches[0] in matches && matches[i] in matches;
      }
    }
  }

  /** The labels are exactly those of the matches, in strict order. */
  ghost predicate LabelledBy(l: Landing, attempts: seq<Attempt>) {
    && (forall tag :: tag in l.proofs <==> exists a :: a in attempts && IsMatch(a) && tag in a.landing.proofs)
    && (forall i, j :: 0 <= i < j < |l.proofs| ==> l.proofs[i] != l.proofs[j] && Below(l.proofs[i], l.proofs[j]))
  }

  lemma LabelsSorted(l: Landing, attempts: seq<Attempt>)
    requires l.proofs == Compact(Sort(AllProofs(Matches(attempts)), Below))
    ensures LabelledBy(l, attempts)
  {
    var labels := AllProofs(Matches(attempts));
    BelowIsPreorder();
    SortSorted(labels, Below);
    CompactAscends(Sort(labels, Below));
    MembersOfPermutation(Sort(labels, Below), labels);
    LabelsAre(Matches(attempts));
    MatchesAre(attempts);
    hide Sort, AllProofs, Compact, Matches;
    forall tag ensures tag in labels <==> exists a :: a in attempts && IsMatch(a) && tag in a.landing.proofs {
      if a :| a in attempts && IsMatch(a) && tag in a.landing.proofs {
        assert a.landing in Matches(attempts);
      }
    }
  }

  /** A candidate is proven exactly when no alternative is inconclusive or crosses the base, some
      alternative matches, and all that match own one origin; the landing is one of theirs and
      carries all their labels. */
  lemma ResolveExactly(c: Candidate, attempts: seq<Attempt>)
    requires forall a :: a in attempts && a.state.Inconclusive? ==> a.gap.reason != ""
    ensures var r := Resolve(c, attempts, false);
      && (r.gap.reason == "" <==>
          && !AnyInconclusive(attempts) && !AnyCrossing(attempts)
          && (exists a :: a in attempts && IsMatch(a)) && Consistent(attempts))
      && (r.gap.reason == "" ==>
          LabelledBy(r.landing, attempts)
          && exists a :: a in attempts && IsMatch(a) && r.landing == a.landing.(proofs := r.landing.proofs))
  {
    MatchesAre(attempts);
    AgreementIsConsistency(attempts);
    if AnyInconclusive(attempts) {
      InconclusiveHasReason(attempts);
    }
    hide Matches, Agree, Consistent, AllProofs, Sort, Compact, SameOrigin, FirstInconclusive, AnyInconclusive;
    hide AnyCrossing, LabelledBy;
    var matches := Matches(attempts);
    var r := Resolve(c, attempts, false);
    if r.gap.reason == "" {
      assert matches[0] in matches;
      LabelsSorted(r.landing, attempts);
    }
    if a :| a in attempts && IsMatch(a) {
      assert a.landing in matches;
    }
  }

  // ----- the order of the attempts does not choose a winner -----

  lemma SortedEqualIffPermutation(a: seq<string>, b: seq<string>)
    ensures Sort(a, Below) == Sort(b, Below) <==> multiset(a) == multiset(b)
  {
    if multiset(a) == multiset(b) {
      SortOfPermutation(a, b);
    }
  }

  lemma AgreementIgnoresOrder(a: seq<Landing>, b: seq<Landing>)
    requires multiset(a) == multiset(b) && Agree(a)
    ensures Agree(b)
    ensures a != [] ==> b != [] && SameOrigin(a[0], b[0])
  {
    assert |multiset(a)| == |a| && |multiset(b)| == |b|;
    MembersOfPermutation(a, b);
    forall x | x in b ensures a != [] && SameOrigin(a[0], x) {
      assert x in a;
    }
    forall i | 0 <= i < |b| ensures SameOrigin(b[0], b[i]) {
      assert b[0] in b && b[i] in b;
    }
  }

  /** Any two orders of the same attempts leave the candidate unproven both times, or prove the
      same origin with the same labels. */
  lemma AttemptOrderIrrelevant(c: Candidate, one: seq<Attempt>, other: seq<Attempt>, budgetFailed: bool)
    requires multiset(one) == multiset(other)
    requires forall a :: a in one && a.state.Inconclusive? ==> a.gap.reason != ""
    ensures var (x, y) := (Resolve(c, one, budgetFailed), Resolve(c, other, budgetFailed));
            && (x.gap.reason != "" <==> y.gap.reason != "")
            && (x.gap.reason == "" ==>
                  && SameOrigin(x.landing, y.landing) && x.landing.proofs == y.landing.proofs
                  && multiset(x.landing.introduced) == multiset(y.landing.introduced))
  {
    MembersOfPermutation(one, other);
    SelectPermutation(one, other, IsMatch);
    MapPermutation(Select(one, IsMatch), Select(other, IsMatch), LandingOf);
    var a, b := Matches(one), Matches(other);
    assert |multiset(a)| == |a| && |multiset(b)| == |b|;
    assert AnyInconclusive(one) <==> AnyInconclusive(other) by {
      assert AnyInconclusive(one) <==> exists x :: x in one && x.state.Inconclusive?;
      assert AnyInconclusive(other) <==> exists x :: x in other && x.state.Inconclusive?;
    }
    assert AnyCrossing(one) <==> AnyCrossing(other) by {
      assert AnyCrossing(one) <==> exists x :: x in one && Crosses(x);
      assert AnyCrossing(other) <==> exists x :: x in other && Crosses(x);
    }
    if AnyInconclusive(one) && !budgetFailed {
      InconclusiveHasReason(one);
      InconclusiveHasReason(other);
    } else if !budgetFailed && !AnyCrossing(one) {
      if Agree(a) { AgreementIgnoresOrder(a, b); }
      if Agree(b) { AgreementIgnoresOrder(b, a); }
      FlatMapPermutation(a, b, ProofsOf);
      SortOfPermutation(AllProofs(a), AllProofs(b));
      if a != [] && b != [] {
        SortedEqualIffPermutation(a[0].introduced, b[0].introduced);
      }
    }
  }

  lemma {:induction false} InconclusiveHasReason(attempts: seq<Attempt>)
    requires AnyInconclusive(attempts)
    requires forall a :: a in attempts && a.state.Inconclusive? ==> a.gap.reason != ""
    ensures FirstInconclusive(attempts).reason != ""
  {
    if !attempts[0].state.Inconclusive? {
      InconclusiveHasReason(attempts[1..]);
    }
  }
}
