/** Where each candidate ends up: landed, integrated through exactly one merge, or in a gap. */
module Candidates {
  import opened Model
  import opened Graph
  import opened Store
  import opened Intervals
  import opened Proofs
  import opened Soundness
  import opened Overlaps
  import opened Blocking
  import opened Direct
  import opened Origins
  import opened Resolution
  import opened Finishing
  import opened Conservation
  import opened ShallowCheck
  import opened Analysis
  import opened Validation
  import opened Ordering

  // ----- integration has one answer -----

  lemma ContributionsDisjoint(g: Ancestry, p: Interval, a: Landing, b: Landing)
    requires History(g) && FirstParentSpine(g, p) && SoundLanding(g, p, a) && SoundLanding(g, p, b)
    requires !Overlap(a.spine, b.spine)
    ensures Contribution(a.introduced, a.terminal) !! Contribution(b.introduced, b.terminal)
  {
    hide Contribution, Stretch, Overlap, SoundLanding, Start;
    LandingsSeparate(g, p, a, b);
    SoundStretch(g, p, a);
    SoundStretch(g, p, b);
    if Position(p.spine, a.terminal) < Start(p, b) {
      StretchesDisjoint(g, p, Start(p, a), Position(p.spine, a.terminal), Start(p, b), Position(p.spine, b.terminal));
    } else {
      StretchesDisjoint(g, p, Start(p, b), Position(p.spine, b.terminal), Start(p, a), Position(p.spine, a.terminal));
    }
  }

  /** Two surviving merges introduce disjoint histories, so at most one contains a candidate. */
  lemma ContainedOnce(g: Ancestry, p: Interval, outers: seq<Landing>, inner: Landing, i: nat, j: nat)
    requires History(g) && FirstParentSpine(g, p) && AllSound(g, p, outers) && Disjoint(outers)
    requires i < j < |outers|
    ensures !(Contains(outers[i], inner) && Contains(outers[j], inner))
  {
    hide SoundLanding, Overlap, FirstParentSpine;
    ContributionsDisjoint(g, p, outers[i], outers[j]);
    var x := inner.terminal;
    assert x in outers[i].introduced ==> x in Contribution(outers[i].introduced, outers[i].terminal);
    assert x in outers[j].introduced ==> x in Contribution(outers[j].introduced, outers[j].terminal);
  }

  /** The merge at position `i`, and no other, contains the inner landing. */
  ghost predicate OnlyContainer(outers: seq<Landing>, inner: Landing, i: int) {
    && 0 <= i < |outers| && Contains(outers[i], inner)
    && forall j :: 0 <= j < |outers| && j != i ==> !Contains(outers[j], inner)
  }

  lemma {:induction false} ThroughScan(outers: seq<Landing>, inner: Landing, i: nat, through: string)
    requires i <= |outers|
    requires forall k, m :: 0 <= k < m < |outers| ==> !(Contains(outers[k], inner) && Contains(outers[m], inner))
    requires forall k :: 0 <= k < |outers| ==> outers[k].candidateId != ""
    requires through == "" ==> forall k :: 0 <= k < i ==> !Contains(outers[k], inner)
    requires through != "" ==> exists k :: 0 <= k < i && Contains(outers[k], inner) && outers[k].candidateId == through
    ensures ThroughFrom(outers, inner, i, through).Some?
    ensures ThroughFrom(outers, inner, i, through).value == "" <==>
        forall k :: 0 <= k < |outers| ==> !Contains(outers[k], inner)
    ensures ThroughFrom(outers, inner, i, through).value != "" ==>
              exists k :: OnlyContainer(outers, inner, k)
                  && outers[k].candidateId == ThroughFrom(outers, inner, i, through).value
    decreases |outers| - i
  {
    if i == |outers| {
      if through != "" {
        var k :| 0 <= k < i && Contains(outers[k], inner) && outers[k].candidateId == through;
        assert OnlyContainer(outers, inner, k);
      }
    } else if Contains(outers[i], inner) {
      ThroughScan(outers, inner, i + 1, outers[i].candidateId);
    } else {
      ThroughScan(outers, inner, i + 1, through);
    }
  }

  /** An off-spine candidate is integrated exactly when it is labelled a merge or not at all, is
      proven, and some surviving merge contains it; that merge is then the only one, so the conflict
      branch is never taken. */
  lemma IntegrationExact(st: Objects, p: Interval, c: Candidate, caps: Capabilities, outers: seq<Landing>)
    requires Exact(st) && FirstParentSpine(st.graph, p) && AllSound(st.graph, p, outers) && Disjoint(outers)
    ensures var proof := ProveAt(st, p, c, caps);
            var r := IntegratedThrough(st, p, c, caps, outers);
            && (proof.gap.reason == "" ==> ThroughFrom(outers, proof.landing, 0, "").Some?)
            && (r.gap.reason == "" <==>
                (c.how == Merge || c.how == Unstated) && proof.gap.reason == ""
                && exists k :: 0 <= k < |outers| && Contains(outers[k], proof.landing))
            && (r.gap.reason == "" ==>
                exists k :: OnlyContainer(outers, proof.landing, k) && r.through == outers[k].candidateId)
  {
    hide SoundLanding, ProveAt, Overlap;
    var proof := ProveAt(st, p, c, caps);
    forall k, m | 0 <= k < m < |outers|
      ensures !(Contains(outers[k], proof.landing) && Contains(outers[m], proof.landing))
    {
      ContainedOnce(st.graph, p, outers, proof.landing, k, m);
    }
    ThroughScan(outers, proof.landing, 0, "");
  }

  // ----- every candidate is reported once -----

  function IntegratedOf(i: Integrated): string {
    i.candidateId
  }

  predicate NamesCandidate(g: Gap) {
    g.candidateId != ""
  }

  ghost function LandingIds(ls: seq<Landing>): multiset<string> {
    multiset(Map(ls, CandidateOf))
  }

  ghost function IntegratedIds(all: seq<Integrated>): multiset<string> {
    multiset(Map(all, IntegratedOf))
  }

  /** The candidates that gaps name. */
  ghost function GapIds(gaps: seq<Gap>): multiset<string> {
    multiset(Map(Select(gaps, NamesCandidate), GapCandidate))
  }

  ghost function Ids(cs: seq<Candidate>): multiset<string> {
    multiset(Map(cs, IdOf))
  }

  lemma {:induction false} SelectSplit<T(!new)>(a: seq<T>, b: seq<T>, f: T -> bool)
    ensures Select(a + b, f) == Select(a, f) + Select(b, f)
  {
    if a == [] {
      assert a + b == b;
    } else {
      assert (a + b)[1..] == a[1..] + b;
      SelectSplit(a[1..], b, f);
    }
  }

  lemma GapIdsAppend(a: seq<Gap>, b: seq<Gap>)
    ensures GapIds(a + b) == GapIds(a) + GapIds(b)
  {
    SelectSplit(a, b, NamesCandidate);
    MapAppend(Select(a, NamesCandidate), Select(b, NamesCandidate), GapCandidate);
  }

  lemma GapIdsOne(g: Gap)
    ensures GapIds([g]) == if g.candidateId != "" then multiset{g.candidateId} else multiset{}
    ensures GapIds([]) == multiset{}
  {
    assert Select([g], NamesCandidate) == (if NamesCandidate(g) then [g] else []) + Select([], NamesCandidate);
    assert Map([g], GapCandidate) == [g.candidateId];
  }

  lemma IdsAppend(cs: seq<Candidate>, c: Candidate)
    ensures Ids(cs + [c]) == Ids(cs) + multiset{c.id}
  {
    MapAppendOne(cs, c, IdOf);
  }

  lemma LandingIdsAppend(ls: seq<Landing>, l: Landing)
    ensures LandingIds(ls + [l]) == LandingIds(ls) + multiset{l.candidateId}
  {
    MapAppendOne(ls, l, CandidateOf);
  }

  lemma IntegratedIdsAppend(all: seq<Integrated>, i: Integrated)
    ensures IntegratedIds(all + [i]) == IntegratedIds(all) + multiset{i.candidateId}
  {
    MapAppendOne(all, i, IntegratedOf);
  }

  /** The gap or landing that settles a candidate carries its ID. */
  lemma FateNames(st: Objects, p: Interval, n: Counts, caps: Capabilities, c: Candidate)
    requires c.id != ""
    ensures FateOf(st, p, n, caps, c).Gapped? ==> FateOf(st, p, n, caps, c).gap.candidateId == c.id
    ensures FateOf(st, p, n, caps, c).Landed? ==> FateOf(st, p, n, caps, c).landing.candidateId == c.id
  {
    hide ProveAt;
    VerdictNames(st, p, c, caps);
  }

  lemma {:induction false} FirstPassConserves(st: Objects, p: Interval, n: Counts, caps: Capabilities,
                                              order: seq<Candidate>)
    requires Known(order)
    ensures Ids(order) == LandingIds(FlatMap(order, LandedBy(st, p, n, caps)))
                          + GapIds(FlatMap(order, GappedBy(st, p, n, caps)))
                          + Ids(FlatMap(order, DeferredBy(p, n)))
    decreases |order|
  {
    hide FateOf, LandingIds, GapIds, Ids, LandedBy, GappedBy, DeferredBy;
    if order == [] {
      EmptyIds();
    } else {
      var front, c := order[..|order| - 1], order[|order| - 1];
      assert order == front + [c];
      FirstPassConserves(st, p, n, caps, front);
      PassOne(st, p, n, caps, front, c, FlatMap(front, LandedBy(st, p, n, caps)),
              FlatMap(front, GappedBy(st, p, n, caps)), FlatMap(front, DeferredBy(p, n)));
      FateLists(st, p, n, caps, c);
      FateNames(st, p, n, caps, c);
      IdsAppend(front, c);
      FateConserves(FateOf(st, p, n, caps, c), c, FlatMap(front, LandedBy(st, p, n, caps)),
                    FlatMap(front, GappedBy(st, p, n, caps)), FlatMap(front, DeferredBy(p, n)));
    }
  }

  lemma EmptyIds()
    ensures Ids([]) == LandingIds([]) + GapIds([]) + Ids([])
    ensures Ids([]) == IntegratedIds([]) + GapIds([])
  {
  }

  lemma FateConserves(f: Fate, c: Candidate, landed: seq<Landing>, gaps: seq<Gap>, deferred: seq<Candidate>)
    requires c.id != "" && (f.Gapped? ==> f.gap.candidateId == c.id) && (f.Landed? ==> f.landing.candidateId == c.id)
    ensures LandingIds(landed + if f.Landed? then [f.landing] else [])
            + GapIds(gaps + if f.Gapped? then [f.gap] else [])
            + Ids(deferred + if f.Deferred? then [c] else [])
            == LandingIds(landed) + GapIds(gaps) + Ids(deferred) + multiset{c.id}
  {
    hide LandingIds, GapIds, Ids;
    assert landed + [] == landed && gaps + [] == gaps && deferred + [] == deferred;
    match f {
      case Gapped(g) =>
        GapIdsAppend(gaps, [g]);
        GapIdsOne(g);
      case Landed(l) => LandingIdsAppend(landed, l);
      case Deferred => IdsAppend(deferred, c);
    }
  }

  lemma PassageNames(st: Objects, p: Interval, caps: Capabilities, outers: seq<Landing>, c: Candidate)
    requires c.id != ""
    ensures var v := IntegratedThrough(st, p, c, caps, outers);
            v.gap.reason != "" ==> v.gap.candidateId == c.id && CandidateGap(p, c, v.gap).candidateId == c.id
  {
    hide ProveAt;
    VerdictNames(st, p, c, caps);
  }

  lemma {:induction false} SecondPassConserves(st: Objects, p: Interval, caps: Capabilities, outers: seq<Landing>,
                                               deferred: seq<Candidate>)
    requires Known(deferred)
    ensures Ids(deferred) == IntegratedIds(FlatMap(deferred, IntegratedBy(st, p, caps, outers)))
                             + GapIds(FlatMap(deferred, StrandedBy(st, p, caps, outers)))
    decreases |deferred|
  {
    hide IntegratedThrough, IntegratedIds, GapIds, Ids, CandidateGap;
    if deferred == [] {
      EmptyIds();
    } else {
      var front, c := deferred[..|deferred| - 1], deferred[|deferred| - 1];
      assert deferred == front + [c];
      SecondPassConserves(st, p, caps, outers, front);
      var integrated, gaps := FlatMap(front, IntegratedBy(st, p, caps, outers)),
          FlatMap(front, StrandedBy(st, p, caps, outers));
      PlaceOne(st, p, caps, outers, front, c, integrated, gaps);
      PassageNames(st, p, caps, outers, c);
      IdsAppend(front, c);
      var v := IntegratedThrough(st, p, c, caps, outers);
      if v.gap.reason == "" {
        IntegratedIdsAppend(integrated, Integrated(c.id, v.through));
        assert gaps + [] == gaps;
      } else {
        GapIdsAppend(gaps, [CandidateGap(p, c, v.gap)]);
        GapIdsOne(CandidateGap(p, c, v.gap));
        assert integrated + [] == integrated;
      }
    }
  }

  lemma {:induction false} PushGapsNameNobody(st: Objects, p: Interval, skipped: set<Id>, i: nat)
    requires i <= |p.spine|
    ensures GapIds(PushGapsFrom(st, p, skipped, i)) == multiset{}
    decreases |p.spine| - i
  {
    hide PushAt, GapIds;
    if i == |p.spine| {
      GapIdsOne(NO_GAP);
    } else {
      PushGapsNameNobody(st, p, skipped, i + 1);
      PushGapNames(st, p, i);
      var step := GapStep(st, p, skipped, i);
      GapIdsAppend(step, PushGapsFrom(st, p, skipped, i + 1));
      if step != [] {
        assert step == [step[0]];
        GapIdsOne(step[0]);
      } else {
        GapIdsOne(NO_GAP);
      }
    }
  }

  lemma {:induction false} OverlapGapsAllName(ls: seq<Landing>, n: nat)
    requires n <= |ls| && forall k :: 0 <= k < |ls| ==> ls[k].candidateId != ""
    ensures GapIds(OverlapGaps(ls, n)) == multiset(Map(OverlapGaps(ls, n), GapCandidate))
  {
    var gaps := OverlapGaps(ls, n);
    forall g | g in gaps ensures g.candidateId != "" {
      var k := OverlapGapOrigin(ls, n, g);
    }
    SelectAll(gaps);
  }

  lemma {:induction false} SelectAll(gaps: seq<Gap>)
    requires forall g :: g in gaps ==> g.candidateId != ""
    ensures Select(gaps, NamesCandidate) == gaps
  {
    if gaps != [] {
      SelectAll(gaps[1..]);
    }
  }

  lemma KnownDeferred(p: Interval, n: Counts, order: seq<Candidate>)
    requires Known(order)
    ensures Known(FlatMap(order, DeferredBy(p, n)))
    decreases |order|
  {
    if order != [] {
      assert forall k :: 0 <= k < |order[1..]| ==> order[1..][k] == order[k + 1];
      KnownDeferred(p, n, order[1..]);
    }
  }

  lemma {:induction false} LandedAreNamed(st: Objects, p: Interval, n: Counts, caps: Capabilities,
                                          order: seq<Candidate>)
    requires Known(order)
    ensures forall k :: 0 <= k < |FlatMap(order, LandedBy(st, p, n, caps))| ==>
        FlatMap(order, LandedBy(st, p, n, caps))[k].candidateId != ""
    decreases |order|
  {
    hide FateOf;
    if order != [] {
      assert forall k :: 0 <= k < |order[1..]| ==> order[1..][k] == order[k + 1];
      LandedAreNamed(st, p, n, caps, order[1..]);
      FateNames(st, p, n, caps, order[0]);
    }
  }

  /** Resolution reports every candidate exactly once: as a landing, as an integrated candidate,
      or as a gap that names it. */
  lemma ResolutionConserves(st: Objects, p: Interval, cs: seq<Candidate>, caps: Capabilities, gaps0: seq<Gap>)
    requires Known(cs)
    ensures var f := ResolveAll(st, p, cs, caps, gaps0);
            LandingIds(f.landings) + IntegratedIds(f.integrated) + GapIds(f.gaps) == Ids(cs) + GapIds(gaps0)
  {
    hide LandedBy, GappedBy, DeferredBy, IntegratedBy, StrandedBy, LandingIds, IntegratedIds, GapIds, Ids, FlatMap;
    hide Survivors, OverlapGaps, Blocked, Owners;
    var n, order := CountsOf(cs), Sort(cs, ById);
    SortedKnown(cs, order);
    var landed := FlatMap(order, LandedBy(st, p, n, caps));
    var gapped := FlatMap(order, GappedBy(st, p, n, caps));
    var deferred := FlatMap(order, DeferredBy(p, n));
    var kept, overlaps := Survivors(landed, |landed|), OverlapGaps(landed, |landed|);
    var stranded := FlatMap(deferred, StrandedBy(st, p, caps, kept));
    FirstPassConserves(st, p, n, caps, order);
    KnownDeferred(p, n, order);
    SecondPassConserves(st, p, caps, kept, deferred);
    LandedAreNamed(st, p, n, caps, order);
    LandingsConserve(landed);
    var gaps := gaps0 + gapped + overlaps + stranded;
    var skipped := Blocked(p, gaps) + Owners(kept);
    PushGapsNameNobody(st, p, skipped, 0);
    GapIdsAppend(gaps, PushGapsFrom(st, p, skipped, 0));
    GapIdsAppend(gaps0 + gapped + overlaps, stranded);
    GapIdsAppend(gaps0 + gapped, overlaps);
    GapIdsAppend(gaps0, gapped);
  }

  lemma LandingsConserve(landed: seq<Landing>)
    requires forall k :: 0 <= k < |landed| ==> landed[k].candidateId != ""
    ensures LandingIds(Survivors(landed, |landed|)) + GapIds(OverlapGaps(landed, |landed|)) == LandingIds(landed)
  {
    OverlapsConserve(landed, |landed|);
    OverlapGapsAllName(landed, |landed|);
    assert landed[..|landed|] == landed;
  }

  lemma SortedKnown(cs: seq<Candidate>, order: seq<Candidate>)
    requires multiset(order) == multiset(cs)
    ensures Known(cs) ==> Known(order)
    ensures Ids(order) == Ids(cs)
  {
    MembersOfPermutation(order, cs);
    MapPermutation(order, cs, IdOf);
    if Known(cs) {
      forall k | 0 <= k < |order| ensures order[k].id != "" && !order[k].how.Unknown? {
        assert order[k] in cs;
      }
    }
  }

  lemma {:induction false} FilledNames(p: Interval, gaps: seq<Gap>)
    ensures GapIds(Map(gaps, Fill(p))) == GapIds(gaps)
  {
    hide GapIds;
    if gaps == [] {
      assert Map(gaps, Fill(p)) == gaps;
    } else {
      FilledNames(p, gaps[1..]);
      assert gaps == [gaps[0]] + gaps[1..];
      MapAppend([gaps[0]], gaps[1..], Fill(p));
      assert Map([gaps[0]], Fill(p)) == [Fill(p)(gaps[0])];
      GapIdsAppend([gaps[0]], gaps[1..]);
      GapIdsAppend([Fill(p)(gaps[0])], Map(gaps[1..], Fill(p)));
      GapIdsOne(gaps[0]);
      GapIdsOne(Fill(p)(gaps[0]));
    }
  }

  /** Candidate conservation for the finished report. */
  lemma CandidatesConserved(st: Objects, p: Interval, e: Evidence)
    requires CompleteInterval(st.graph, p) && EvidenceFault(p, e) == ""
    requires st.opens && CheckShallow(st, p.query.bounds).Ok?
    ensures var r := ReportOn(st, p, e);
            LandingIds(r.landings) + IntegratedIds(r.integrated) + GapIds(r.coverage.gaps) == Ids(e.candidates)
  {
    hide GapIds, LandingIds, IntegratedIds, Ids, ResolveAll, CompleteInterval;
    var r := ReportOn(st, p, e);
    var gaps0 := FirstGaps(p, e.inventory);
    var f := ResolveAll(st, p, e.candidates, e.capabilities, gaps0);
    CompleteHasSpine(st.graph, p);
    NoFaultIsKnown(p.query.bounds, e.candidates);
    assert f == FindingsOf(st, p, e);
    ResolutionConserves(st, p, e.candidates, e.capabilities, gaps0);
    FirstGapsNameNobody(p, e.inventory);
    FilledNames(p, f.gaps);
    SortedGapIds(Map(f.gaps, Fill(p)), r.coverage.gaps);
    SortedLandingIds(f.landings, r.landings);
  }

  lemma FirstGapsNameNobody(p: Interval, i: Inventory)
    requires p.query.gaps == []
    ensures GapIds(FirstGaps(p, i)) == multiset{}
  {
    if i.supported && i.complete {
      assert FirstGaps(p, i) == [];
      GapIdsOne(NO_GAP);
    } else {
      assert FirstGaps(p, i) == [FirstGaps(p, i)[0]];
      GapIdsOne(FirstGaps(p, i)[0]);
    }
  }

  lemma SortedGapIds(a: seq<Gap>, b: seq<Gap>)
    requires multiset(a) == multiset(b)
    ensures GapIds(a) == GapIds(b)
  {
    SelectPermutation(a, b, NamesCandidate);
    MapPermutation(Select(a, NamesCandidate), Select(b, NamesCandidate), GapCandidate);
  }

  lemma SortedLandingIds(a: seq<Landing>, b: seq<Landing>)
    requires multiset(a) == multiset(b)
    ensures LandingIds(a) == LandingIds(b)
  {
    MapPermutation(a, b, CandidateOf);
  }
}
