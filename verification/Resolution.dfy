/** `resolveOrigins` through the view, and what every run of it guarantees, finished or cut short. */
module Resolution {
  import opened Model
  import opened Graph
  import opened Store
  import opened View
  import opened Intervals
  import opened Proofs
  import opened Pacing
  import opened Soundness
  import opened Overlaps
  import opened Blocking
  import opened Direct
  import opened Origins
  import opened Ordering

  // ----- what findings must satisfy -----

  /** The gap blocks from the base on. */
  predicate Wide(p: Interval, g: Gap) {
    || g.span == NO_SPAN
    || (g.span.before == p.query.bounds.base
        && (g.span.through in p.spine || g.span.through == p.query.bounds.head))
  }

  predicate AllWide(p: Interval, gaps: seq<Gap>) {
    forall k :: 0 <= k < |gaps| ==> Wide(p, gaps[k])
  }

  ghost predicate AllSound(g: Ancestry, p: Interval, ls: seq<Landing>) {
    forall i :: 0 <= i < |ls| ==> SoundLanding(g, p, ls[i]) && ls[i].candidateId != ""
  }

  ghost predicate Disjoint(ls: seq<Landing>) {
    forall i, j :: 0 <= i < j < |ls| ==> !Overlap(ls[i].spine, ls[j].spine)
  }

  ghost predicate NothingCut(p: Interval, gaps: seq<Gap>, ls: seq<Landing>) {
    forall k, i :: 0 <= k < |gaps| && 0 <= i < |ls| ==> Uncut(p, gaps[k].span, ls[i])
  }

  ghost predicate SoundFindings(g: Ancestry, p: Interval, f: Findings) {
    && AllSound(g, p, f.landings) && Disjoint(f.landings)
    && SoundPushes(g, p, Owners(f.landings), f.pushes, |p.spine|)
    && KnownGaps(p, f.gaps) && NothingCut(p, f.gaps, f.landings)
  }

  /** The budget ran out: some gap names it and blocks from position `i` through the head, and
      no push was recorded from there on. */
  ghost predicate ClosedFrom(p: Interval, f: Findings, i: int) {
    && 0 <= i <= |p.spine|
    && (exists k :: 0 <= k < |f.gaps| && BudgetGap(p, f.gaps[k], i))
    && (forall k :: 0 <= k < |f.pushes| ==> Position(p.spine, f.pushes[k].terminal) < i)
  }

  /** What a run that the budget cut short during push classification still has in common with
      the full one: every candidate settled alike, and the pushes up to the cut. */
  predicate ReachedPushes(f: Findings, full: Findings) {
    f.landings == full.landings && f.integrated == full.integrated && f.pushes <= full.pushes
  }

  predicate BudgetGap(p: Interval, g: Gap, i: int) {
    0 <= i <= |p.spine| && g.reason == BUDGET_EXHAUSTED && g.span == Span(Prev(p, i), p.query.bounds.head)
  }

  /** Every spine commit belongs to a landing, is a push, or lies in a gap. */
  predicate Explained(p: Interval, f: Findings) {
    SettledUpTo(p, Owners(f.landings), f.pushes, f.gaps, |p.spine|)
  }

  // ----- the pieces keep it -----

  lemma WideIsKnown(g: Ancestry, p: Interval, gaps: seq<Gap>)
    requires FirstParentSpine(g, p) && AllWide(p, gaps)
    ensures KnownGaps(p, gaps)
  {
    SpineIsAnchored(g, p);
    forall k | 0 <= k < |gaps| ensures KnownSpan(p, gaps[k].span) {
      assert Wide(p, gaps[k]);
    }
  }

  lemma WideIsUncut(g: Ancestry, p: Interval, gap: Gap, l: Landing)
    requires FirstParentSpine(g, p) && Wide(p, gap) && SoundLanding(g, p, l)
    ensures Uncut(p, gap.span, l)
  {
  }

  /** An overlap gap covers exactly the rejected landing's stretch. */
  lemma OverlapGapCovers(g: Ancestry, p: Interval, l: Landing, i: int)
    requires History(g) && FirstParentSpine(g, p) && SoundLanding(g, p, l) && 0 <= i < |p.spine|
    ensures KnownSpan(p, OverlapGap(l).span)
    ensures Covers(p, OverlapGap(l).span, i) <==> Start(p, l) <= i <= Position(p.spine, l.terminal)
  {
    var j := Start(p, l);
    if j > 0 {
      PositionOf(p, j - 1);
    }
    assert SpineLink(g, p, Position(p.spine, l.terminal));
    assert !ObjectId("");
  }

  lemma OverlapGapUncut(g: Ancestry, p: Interval, rejected: Landing, l: Landing)
    requires History(g) && FirstParentSpine(g, p) && SoundLanding(g, p, rejected) && SoundLanding(g, p, l)
    requires !Overlap(l.spine, rejected.spine)
    ensures Uncut(p, OverlapGap(rejected).span, l)
  {
    forall i | Start(p, l) <= i <= Position(p.spine, l.terminal) ensures !Covers(p, OverlapGap(rejected).span, i) {
      OverlapGapCovers(g, p, rejected, i);
      LandingPositions(g, p, l, i);
      LandingPositions(g, p, rejected, i);
    }
  }

  lemma PushGapUncut(g: Ancestry, p: Interval, skipped: set<Id>, gap: Gap, l: Landing)
    requires History(g) && FirstParentSpine(g, p) && SoundLanding(g, p, l)
    requires SomePushGap(p, skipped, gap) && forall id :: id in l.spine ==> id in skipped
    ensures KnownSpan(p, gap.span) && Uncut(p, gap.span, l)
  {
    var i :| PushGap(p, skipped, gap, i);
    SpineIsAnchored(g, p);
    PositionOf(p, i);
    if i > 0 {
      PositionOf(p, i - 1);
    }
    LandingPositions(g, p, l, i);
    assert SpineLink(g, p, i);
    assert !ObjectId("");
  }

  lemma PushGapKnown(g: Ancestry, p: Interval, skipped: set<Id>, gap: Gap)
    requires FirstParentSpine(g, p) && SomePushGap(p, skipped, gap)
    ensures KnownSpan(p, gap.span)
  {
    var i :| PushGap(p, skipped, gap, i);
    SpineIsAnchored(g, p);
  }

  /** Overlap rejection leaves sound, disjoint landings that no gap so far cuts. */
  lemma OverlapsSound(g: Ancestry, p: Interval, landed: seq<Landing>, wide: seq<Gap>)
    requires History(g) && FirstParentSpine(g, p) && AllSound(g, p, landed) && AllWide(p, wide)
    ensures var kept := Survivors(landed, |landed|);
            var gaps := wide + OverlapGaps(landed, |landed|);
            AllSound(g, p, kept) && Disjoint(kept) && KnownGaps(p, gaps) && NothingCut(p, gaps, kept)
  {
    hide SoundLanding, Overlap, Uncut, KnownSpan, FirstParentSpine, Survivors, OverlapGaps, Wide, Clashes, Covers;
    var kept, rejected := Survivors(landed, |landed|), OverlapGaps(landed, |landed|);
    var gaps := wide + rejected;
    SurvivorsDisjoint(landed);
    WideIsKnown(g, p, wide);
    forall i | 0 <= i < |kept| ensures SoundLanding(g, p, kept[i]) && kept[i].candidateId != "" {
      var k := SurvivorOrigin(landed, |landed|, i);
    }
    forall k | 0 <= k < |rejected| ensures KnownSpan(p, rejected[k].span) {
      var m := OverlapGapOrigin(landed, |landed|, rejected[k]);
      SoundStretch(g, p, landed[m]);
      OverlapGapCovers(g, p, landed[m], Start(p, landed[m]));
    }
    forall k, i | 0 <= k < |gaps| && 0 <= i < |kept| ensures Uncut(p, gaps[k].span, kept[i]) {
      if k < |wide| {
        assert Wide(p, wide[k]);
        WideIsUncut(g, p, gaps[k], kept[i]);
      } else {
        var m := OverlapGapOrigin(landed, |landed|, rejected[k - |wide|]);
        SurvivorsAvoidRejected(landed, i, m);
        OverlapGapUncut(g, p, landed[m], kept[i]);
      }
    }
  }

  lemma MoreWideGaps(g: Ancestry, p: Interval, gaps: seq<Gap>, wide: seq<Gap>, ls: seq<Landing>)
    requires FirstParentSpine(g, p) && AllSound(g, p, ls) && AllWide(p, wide)
    requires KnownGaps(p, gaps) && NothingCut(p, gaps, ls)
    ensures KnownGaps(p, gaps + wide) && NothingCut(p, gaps + wide, ls)
  {
    WideIsKnown(g, p, wide);
    forall k, i | 0 <= k < |gaps + wide| && 0 <= i < |ls| ensures Uncut(p, (gaps + wide)[k].span, ls[i]) {
      if k >= |gaps| {
        assert Wide(p, wide[k - |gaps|]);
        WideIsUncut(g, p, wide[k - |gaps|], ls[i]);
      }
    }
  }

  lemma MorePushGaps(g: Ancestry, p: Interval, gaps: seq<Gap>, more: seq<Gap>, ls: seq<Landing>, skipped: set<Id>)
    requires History(g) && FirstParentSpine(g, p) && AllSound(g, p, ls) && PushGaps(p, skipped, more)
    requires Owners(ls) <= skipped
    requires KnownGaps(p, gaps) && NothingCut(p, gaps, ls)
    ensures KnownGaps(p, gaps + more) && NothingCut(p, gaps + more, ls)
  {
    forall k | 0 <= k < |gaps + more| ensures KnownSpan(p, (gaps + more)[k].span) {
      if k >= |gaps| {
        assert SomePushGap(p, skipped, more[k - |gaps|]);
        PushGapKnown(g, p, skipped, more[k - |gaps|]);
      }
    }
    forall k, i | 0 <= k < |gaps + more| && 0 <= i < |ls| ensures Uncut(p, (gaps + more)[k].span, ls[i]) {
      if k >= |gaps| {
        assert SomePushGap(p, skipped, more[k - |gaps|]);
        OwnersOf(ls, i);
        PushGapUncut(g, p, skipped, more[k - |gaps|], ls[i]);
      }
    }
  }

  lemma OwnersOf(ls: seq<Landing>, i: nat)
    requires i < |ls|
    ensures forall id :: id in ls[i].spine ==> id in Owners(ls)
  {
    assert ls[i] in ls;
  }

  lemma CandidateGapIsWide(p: Interval, c: Candidate, g: Gap)
    ensures Wide(p, CandidateGap(p, c, g)) && CandidateGap(p, c, g).candidateId == g.candidateId
    ensures CandidateGap(p, c, g).reason == g.reason
    ensures g.reason == BUDGET_EXHAUSTED ==> BudgetGap(p, CandidateGap(p, c, g), 0)
  {
  }

  // ----- the methods -----

  ghost predicate Known(cs: seq<Candidate>) {
    forall k :: 0 <= k < |cs| ==> cs[k].id != "" && !cs[k].how.Unknown?
  }

  function Tally(table: map<string, nat>, key: string): nat {
    if key in table then table[key] else 0
  }

  /** The two count tables agree with the counts; no terminal is counted for "". */
  ghost predicate Tallies(terminals: map<string, nat>, ids: map<string, nat>, n: Counts) {
    && (forall t :: Tally(terminals, t) == if t == "" then 0 else n.terminals[t])
    && (forall id :: Tally(ids, id) == n.ids[id])
  }

  lemma CountsAppend(cs: seq<Candidate>, c: Candidate)
    ensures CountsOf(cs + [c]) ==
        Counts(CountsOf(cs).terminals + multiset{c.terminal}, CountsOf(cs).ids + multiset{c.id})
  {
    MapAppendOne(cs, c, TerminalOf);
    MapAppendOne(cs, c, IdOf);
  }

  function Bump(table: map<string, nat>, key: string): map<string, nat> {
    table[key := Tally(table, key) + 1]
  }

  lemma BumpTallies(table: map<string, nat>, key: string, t: string)
    ensures Tally(Bump(table, key), t) == Tally(table, t) + if t == key then 1 else 0
  {
  }

  lemma TallyOne(terminals: map<string, nat>, ids: map<string, nat>, n: Counts, terminal: Id, id: string)
    requires Tallies(terminals, ids, n)
    ensures Tallies(if terminal != "" then Bump(terminals, terminal) else terminals, Bump(ids, id),
                    Counts(n.terminals + multiset{terminal}, n.ids + multiset{id}))
  {
    hide Bump, Tally;
    forall t ensures Tally(Bump(terminals, terminal), t) == Tally(terminals, t) + if t == terminal then 1 else 0 {
      BumpTallies(terminals, terminal, t);
    }
    forall t ensures Tally(Bump(ids, id), t) == Tally(ids, t) + if t == id then 1 else 0 {
      BumpTallies(ids, id, t);
    }
  }

  method CandidateCounts(cs: seq<Candidate>) returns (terminals: map<string, nat>, ids: map<string, nat>)
    ensures Tallies(terminals, ids, CountsOf(cs))
  {
    hide CountsOf;
    terminals, ids := map[], map[];
    assert Tallies(terminals, ids, CountsOf([])) by { NoCandidates(); }
    assert cs[..0] == [];
    for i := 0 to |cs|
      invariant Tallies(terminals, ids, CountsOf(cs[..i]))
    {
      var c := cs[i];
      assert cs[..i + 1] == cs[..i] + [c];
      CountsAppend(cs[..i], c);
      TallyOne(terminals, ids, CountsOf(cs[..i]), c.terminal, c.id);
      if c.terminal != "" {
        terminals := Bump(terminals, c.terminal);
      }
      ids := Bump(ids, c.id);
    }
    assert cs[..|cs|] == cs;
  }

  lemma NoCandidates()
    ensures CountsOf([]) == Counts(multiset{}, multiset{})
  {
  }

  /** One candidate of the first pass. */
  method SettleCandidate(v: ObjectView, p: Interval, terminals: map<string, nat>, ids: map<string, nat>,
                         ghost n: Counts, caps: Capabilities, c: Candidate) returns (r: Fate)
    requires Exact(v.store) && FirstParentSpine(v.store.graph, p) && !v.meter.failed && c.id != "" && !c.how.Unknown?
    requires Tallies(terminals, ids, n) && v.Paced()
    modifies v.meter
    ensures v.Paced() && v.meter.asked <= old(v.meter.asked) + (if r.Deferred? then 0 else ProofReads(c, v.width))
    ensures !v.meter.failed ==> r == FateOf(v.store, p, n, caps, c)
    ensures v.meter.failed ==> r.Gapped? && BudgetGap(p, r.gap, 0)
    ensures r.Gapped? ==> Wide(p, r.gap)
    ensures r.Landed? ==> SoundLanding(v.store.graph, p, r.landing) && r.landing.candidateId == c.id
    ensures r.Deferred? ==> !v.meter.failed
  {
    if Tally(terminals, c.terminal) > 1 || Tally(ids, c.id) > 1 {
      CandidateGapIsWide(p, c, Gap(c.id, c.terminal, CONFLICT, NO_SPAN));
      return Gapped(ContestedGap(p, c));
    }
    if LeavesSpine(p, c) {
      return Deferred;
    }
    var proof := ReadProof(v, p, c, caps);
    if proof.gap.reason != "" {
      CandidateGapIsWide(p, c, proof.gap);
      return Gapped(CandidateGap(p, c, proof.gap));
    }
    assert Setting(v.store, p, c) by {
      assert Admissible(c, caps) == "";
    }
    ProofsAreSound(v.store, p, c, caps);
    r := Landed(proof.landing);
  }

  /** The first pass over the candidates in `front` has these results. */
  ghost predicate Passed(st: Objects, p: Interval, n: Counts, caps: Capabilities, front: seq<Candidate>,
                         landed: seq<Landing>, gaps: seq<Gap>, deferred: seq<Candidate>) {
    && landed == FlatMap(front, LandedBy(st, p, n, caps))
    && gaps == FlatMap(front, GappedBy(st, p, n, caps))
    && deferred == FlatMap(front, DeferredBy(p, n))
  }

  lemma PassOne(st: Objects, p: Interval, n: Counts, caps: Capabilities, front: seq<Candidate>, c: Candidate,
                landed: seq<Landing>, gaps: seq<Gap>, deferred: seq<Candidate>)
    requires Passed(st, p, n, caps, front, landed, gaps, deferred)
    ensures Passed(st, p, n, caps, front + [c], landed + LandedBy(st, p, n, caps)(c),
                   gaps + GappedBy(st, p, n, caps)(c), deferred + DeferredBy(p, n)(c))
  {
    FlatMapAppend(front, [c], LandedBy(st, p, n, caps));
    FlatMapAppend(front, [c], GappedBy(st, p, n, caps));
    FlatMapAppend(front, [c], DeferredBy(p, n));
    FlatMapOne(c, LandedBy(st, p, n, caps));
    FlatMapOne(c, GappedBy(st, p, n, caps));
    FlatMapOne(c, DeferredBy(p, n));
  }

  lemma FateLists(st: Objects, p: Interval, n: Counts, caps: Capabilities, c: Candidate)
    ensures var f := FateOf(st, p, n, caps, c);
            && LandedBy(st, p, n, caps)(c) == (if f.Landed? then [f.landing] else [])
            && GappedBy(st, p, n, caps)(c) == (if f.Gapped? then [f.gap] else [])
            && DeferredBy(p, n)(c) == (if f.Deferred? then [c] else [])
  {
  }

  lemma NothingPassed(st: Objects, p: Interval, n: Counts, caps: Capabilities)
    ensures Passed(st, p, n, caps, [], [], [], []) && AllSound(st.graph, p, []) && AllWide(p, []) && Known([])
  {
  }

  lemma KnownAt(cs: seq<Candidate>, i: nat)
    requires Known(cs) && i < |cs|
    ensures cs[i].id != "" && !cs[i].how.Unknown?
  {
  }

  lemma KeepPassing(g: Ancestry, p: Interval, landed: seq<Landing>, gaps: seq<Gap>, deferred: seq<Candidate>,
                    order: seq<Candidate>, i: nat, fate: Fate)
    requires AllSound(g, p, landed) && AllWide(p, gaps) && Known(deferred) && Known(order) && i < |order|
    requires fate.Gapped? ==> Wide(p, fate.gap)
    requires fate.Landed? ==> SoundLanding(g, p, fate.landing) && fate.landing.candidateId != ""
    ensures AllSound(g, p, landed + if fate.Landed? then [fate.landing] else [])
    ensures AllWide(p, gaps + if fate.Gapped? then [fate.gap] else [])
    ensures Known(deferred + if fate.Deferred? then [order[i]] else [])
  {
    hide SoundLanding, Wide;
  }

  method FirstPass(v: ObjectView, p: Interval, terminals: map<string, nat>, ids: map<string, nat>, ghost n: Counts,
                   caps: Capabilities, order: seq<Candidate>)
    returns (landed: seq<Landing>, gaps: seq<Gap>, deferred: seq<Candidate>)
    requires Exact(v.store) && FirstParentSpine(v.store.graph, p) && !v.meter.failed && Known(order)
    requires Tallies(terminals, ids, n) && v.Paced()
    modifies v.meter
    ensures v.Paced()
    ensures v.meter.asked + AllReads(deferred, v.width) <= old(v.meter.asked) + AllReads(order, v.width)
    ensures !v.meter.failed ==> Passed(v.store, p, n, caps, order, landed, gaps, deferred)
    ensures v.meter.failed ==> gaps != [] && BudgetGap(p, gaps[|gaps| - 1], 0)
    ensures AllSound(v.store.graph, p, landed) && AllWide(p, gaps) && Known(deferred)
  {
    hide FateOf, SoundLanding, Wide, FirstParentSpine, Exact, BudgetGap, LandedBy, GappedBy, DeferredBy, Passed;
    hide AllSound, AllWide, Known, AllReads, ProofReads;
    NothingPassed(v.store, p, n, caps);
    landed, gaps, deferred := [], [], [];
    AllReadsNone(v.width);
    assert order[..0] == [];
    for i := 0 to |order|
      invariant v.Paced()
      invariant v.meter.asked + AllReads(deferred, v.width) <= old(v.meter.asked) + AllReads(order[..i], v.width)
      invariant !v.meter.failed
      invariant Passed(v.store, p, n, caps, order[..i], landed, gaps, deferred)
      invariant AllSound(v.store.graph, p, landed) && AllWide(p, gaps) && Known(deferred)
    {
      var c := order[i];
      KnownAt(order, i);
      var fate := SettleCandidate(v, p, terminals, ids, n, caps, c);
      assert order[..i + 1] == order[..i] + [c];
      PassOne(v.store, p, n, caps, order[..i], c, landed, gaps, deferred);
      FateLists(v.store, p, n, caps, c);
      KeepPassing(v.store.graph, p, landed, gaps, deferred, order, i, fate);
      AllReadsStep(order, i, v.width);
      AllReadsConcat(deferred, [c], v.width);
      AllReadsOne(c, v.width);
      assert deferred + [] == deferred;
      landed := landed + (if fate.Landed? then [fate.landing] else []);
      gaps := gaps + (if fate.Gapped? then [fate.gap] else []);
      deferred := deferred + (if fate.Deferred? then [c] else []);
      if v.meter.failed {
        return;
      }
    }
    assert order[..|order|] == order;
  }

  method ContainsAll(outer: Landing, inner: Landing) returns (r: bool)
    ensures r <==> Contains(outer, inner)
  {
    if outer.proofs != [MERGE] {
      return false;
    }
    var introduced: set<Id> := {};
    for i := 0 to |outer.introduced|
      invariant introduced == set k | 0 <= k < i :: outer.introduced[k]
    {
      introduced := introduced + {outer.introduced[i]};
    }
    assert forall id :: id in introduced <==> id in outer.introduced;
    if inner.terminal !in introduced {
      return false;
    }
    for i := 0 to |inner.introduced|
      invariant forall k :: 0 <= k < i ==> inner.introduced[k] in outer.introduced
    {
      if inner.introduced[i] !in introduced {
        return false;
      }
    }
    r := true;
  }

  method FindThrough(outers: seq<Landing>, inner: Landing) returns (r: Option<string>)
    ensures r == ThroughFrom(outers, inner, 0, "")
  {
    var through := "";
    for i := 0 to |outers|
      invariant ThroughFrom(outers, inner, 0, "") == ThroughFrom(outers, inner, i, through)
    {
      var contained := ContainsAll(outers[i], inner);
      if contained {
        if through != "" {
          return None;
        }
        through := outers[i].candidateId;
      }
    }
    r := Some(through);
  }

  method ReadPassage(v: ObjectView, p: Interval, c: Candidate, caps: Capabilities, outers: seq<Landing>)
    returns (r: Passage)
    requires Exact(v.store) && !v.meter.failed && c.id != "" && !c.how.Unknown? && v.Paced()
    modifies v.meter
    ensures v.Paced() && v.meter.asked <= old(v.meter.asked) + ProofReads(c, v.width)
    ensures !v.meter.failed ==> r == IntegratedThrough(v.store, p, c, caps, outers)
    ensures v.meter.failed ==> r.gap.reason == BUDGET_EXHAUSTED && r.gap.candidateId == c.id
  {
    if c.how != Merge && c.how != Unstated {
      return Stranded(c, "terminal_outside_spine");
    }
    var proof := ReadProof(v, p, c, caps);
    if proof.gap.reason != "" {
      return Passage("", proof.gap);
    }
    var through := FindThrough(outers, proof.landing);
    r := PassageOf(c, through);
  }

  ghost predicate Placed(st: Objects, p: Interval, caps: Capabilities, outers: seq<Landing>, front: seq<Candidate>,
                         integrated: seq<Integrated>, gaps: seq<Gap>) {
    && integrated == FlatMap(front, IntegratedBy(st, p, caps, outers))
    && gaps == FlatMap(front, StrandedBy(st, p, caps, outers))
  }

  lemma PlaceOne(st: Objects, p: Interval, caps: Capabilities, outers: seq<Landing>, front: seq<Candidate>,
                 c: Candidate, integrated: seq<Integrated>, gaps: seq<Gap>)
    requires Placed(st, p, caps, outers, front, integrated, gaps)
    ensures Placed(st, p, caps, outers, front + [c], integrated + IntegratedBy(st, p, caps, outers)(c),
                   gaps + StrandedBy(st, p, caps, outers)(c))
  {
    FlatMapAppend(front, [c], IntegratedBy(st, p, caps, outers));
    FlatMapAppend(front, [c], StrandedBy(st, p, caps, outers));
    FlatMapOne(c, IntegratedBy(st, p, caps, outers));
    FlatMapOne(c, StrandedBy(st, p, caps, outers));
  }

  lemma NothingPlaced(st: Objects, p: Interval, caps: Capabilities, outers: seq<Landing>)
    ensures Placed(st, p, caps, outers, [], [], []) && AllWide(p, [])
  {
  }

  lemma PassageLists(st: Objects, p: Interval, caps: Capabilities, outers: seq<Landing>, c: Candidate)
    ensures var v := IntegratedThrough(st, p, c, caps, outers);
            && IntegratedBy(st, p, caps, outers)(c) ==
                (if v.gap.reason == "" then [Integrated(c.id, v.through)] else [])
            && StrandedBy(st, p, caps, outers)(c) == (if v.gap.reason == "" then [] else [CandidateGap(p, c, v.gap)])
  {
    hide IntegratedThrough;
  }

  lemma MoreWide(p: Interval, gaps: seq<Gap>, g: Gap)
    requires AllWide(p, gaps) && Wide(p, g)
    ensures AllWide(p, gaps + [g])
  {
  }

  method SecondPass(v: ObjectView, p: Interval, caps: Capabilities, deferred: seq<Candidate>, outers: seq<Landing>)
    returns (integrated: seq<Integrated>, gaps: seq<Gap>)
    requires Exact(v.store) && !v.meter.failed && Known(deferred) && v.Paced()
    modifies v.meter
    ensures v.Paced() && v.meter.asked <= old(v.meter.asked) + AllReads(deferred, v.width)
    ensures !v.meter.failed ==> Placed(v.store, p, caps, outers, deferred, integrated, gaps)
    ensures v.meter.failed ==> gaps != [] && BudgetGap(p, gaps[|gaps| - 1], 0)
    ensures AllWide(p, gaps)
  {
    hide IntegratedThrough, IntegratedBy, StrandedBy, Placed, AllWide, Known, Exact, BudgetGap, Wide, CandidateGap;
    hide AllReads, ProofReads;
    NothingPlaced(v.store, p, caps, outers);
    integrated, gaps := [], [];
    AllReadsNone(v.width);
    assert deferred[..0] == [];
    for i := 0 to |deferred|
      invariant v.Paced() && v.meter.asked <= old(v.meter.asked) + AllReads(deferred[..i], v.width)
      invariant !v.meter.failed && AllWide(p, gaps)
      invariant Placed(v.store, p, caps, outers, deferred[..i], integrated, gaps)
    {
      var c := deferred[i];
      KnownAt(deferred, i);
      AllReadsStep(deferred, i, v.width);
      var passage := ReadPassage(v, p, c, caps, outers);
      assert deferred[..i + 1] == deferred[..i] + [c];
      PlaceOne(v.store, p, caps, outers, deferred[..i], c, integrated, gaps);
      PassageLists(v.store, p, caps, outers, c);
      CandidateGapIsWide(p, c, passage.gap);
      MoreWide(p, gaps, CandidateGap(p, c, passage.gap));
      assert gaps + [] == gaps;
      integrated := integrated + (if passage.gap.reason == "" then [Integrated(c.id, passage.through)] else []);
      gaps := gaps + (if passage.gap.reason == "" then [] else [CandidateGap(p, c, passage.gap)]);
      if v.meter.failed {
        return;
      }
    }
    assert deferred[..|deferred|] == deferred;
  }

  lemma OwnersAppend(ls: seq<Landing>, l: Landing)
    ensures Owners(ls + [l]) == Owners(ls) + set id | id in l.spine
  {
    forall id ensures id in Owners(ls + [l]) <==> id in Owners(ls) || id in l.spine {
      if id in l.spine {
        assert l in ls + [l];
      }
    }
  }

  method LandingOwners(ls: seq<Landing>) returns (owners: set<Id>)
    ensures owners == Owners(ls)
  {
    owners := {};
    for i := 0 to |ls|
      invariant owners == Owners(ls[..i])
    {
      ghost var earlier := owners;
      var spine := ls[i].spine;
      for k := 0 to |spine|
        invariant owners == earlier + set id | id in spine[..k]
      {
        assert spine[..k + 1] == spine[..k] + [spine[k]];
        owners := owners + {spine[k]};
      }
      assert spine[..|spine|] == spine;
      OwnersAppend(ls[..i], ls[i]);
      assert ls[..i + 1] == ls[..i] + [ls[i]];
    }
    assert ls[..|ls|] == ls;
  }

  method SortById(cs: seq<Candidate>) returns (order: seq<Candidate>)
    ensures multiset(order) == multiset(cs) && SortedBy(order, ById)
    ensures Known(cs) ==> Known(order)
  {
    ByIdIsPreorder();
    order := SortFunc(cs, ById);
    MembersOfPermutation(order, cs);
    if Known(cs) {
      forall k | 0 <= k < |order| ensures order[k].id != "" && !order[k].how.Unknown? {
        assert order[k] in cs;
      }
    }
  }

  method RejectAll(landed: seq<Landing>) returns (kept: seq<Landing>, gaps: seq<Gap>)
    ensures kept == Survivors(landed, |landed|) && gaps == OverlapGaps(landed, |landed|)
  {
    var a := new Landing[|landed|](i requires 0 <= i < |landed| => landed[i]);
    assert a[..] == landed;
    var n;
    n, gaps := RejectOverlaps(a);
    kept := a[..n];
  }

  /** Equal up to the order of the gaps, which the final sort removes. */
  ghost predicate SameFindings(a: Findings, b: Findings) {
    a.landings == b.landings && a.integrated == b.integrated && a.pushes == b.pushes
        && multiset(a.gaps) == multiset(b.gaps)
  }

  lemma OrderChosen(st: Objects, p: Interval, caps: Capabilities, cs: seq<Candidate>, order: seq<Candidate>,
                    gaps0: seq<Gap>)
    requires multiset(order) == multiset(cs) && SortedBy(order, ById)
    ensures SameFindings(ResolveInOrder(st, p, CountsOf(cs), caps, order, gaps0), ResolveAll(st, p, cs, caps, gaps0))
  {
    hide LandedBy, GappedBy, DeferredBy, IntegratedBy, StrandedBy, PushesFrom, PushGapsFrom;
    CountsIgnoreOrder(cs, order);
    ByIdIsPreorder();
    SortSorted(cs, ById);
    OrdersAgree(st, p, caps, order, Sort(cs, ById), gaps0);
  }

  /** The last gap of a cut-off pass closes the whole interval. */
  lemma CutShort(p: Interval, f: Findings, k: int)
    requires 0 <= k < |f.gaps| && BudgetGap(p, f.gaps[k], 0) && f.pushes == []
    ensures ClosedFrom(p, f, 0)
  {
  }

  lemma CutOffCloses(g: Ancestry, p: Interval, skipped: set<Id>, f: Findings, gaps: seq<Gap>, more: seq<Gap>)
    requires f.gaps == gaps + more && exists i :: CutOff(g, p, skipped, f.pushes, more, i)
    ensures exists i :: ClosedFrom(p, f, i)
  {
    var i :| CutOff(g, p, skipped, f.pushes, more, i);
    assert BudgetGap(p, f.gaps[|f.gaps| - 1], i);
    assert ClosedFrom(p, f, i);
  }

  lemma PushesAvoidOwners(g: Ancestry, p: Interval, skipped: set<Id>, owners: set<Id>, pushes: seq<DirectPush>)
    requires SoundPushes(g, p, skipped, pushes, |p.spine|) && owners <= skipped
    ensures SoundPushes(g, p, owners, pushes, |p.spine|)
  {
  }

  /** Whatever push resolution skipped belongs to a landing or lies in an earlier gap. */
  lemma SkippedIsExplained(p: Interval, f: Findings, gaps: seq<Gap>, more: seq<Gap>)
    requires f.gaps == gaps + more && Distinct(p.spine)
    requires SettledUpTo(p, Blocked(p, gaps) + Owners(f.landings), f.pushes, more, |p.spine|)
    ensures Explained(p, f)
  {
    BlocksAppend(p, gaps, more);
    forall i | 0 <= i < |p.spine| ensures SettledAt(p, Owners(f.landings), f.pushes, f.gaps, i) {
      assert SettledAt(p, Blocked(p, gaps) + Owners(f.landings), f.pushes, more, i);
      if p.spine[i] in Blocked(p, gaps) {
        var k :| 0 <= k < |p.spine| && Blocks(p, gaps, k) && p.spine[k] == p.spine[i];
        assert k == i;
      }
    }
  }

  /** A gap over the whole interval explains everything. */
  lemma WholeGapExplains(g: Ancestry, p: Interval, f: Findings, k: int)
    requires FirstParentSpine(g, p) && 0 <= k < |f.gaps| && Effective(p, f.gaps[k].span) == FullSpan(p)
    ensures Explained(p, f)
  {
    hide SettledAt, Owners, FirstParentSpine;
    forall i | 0 <= i < |p.spine| ensures SettledAt(p, Owners(f.landings), f.pushes, f.gaps, i) {
      WholeGapBlocks(g, p, f.gaps, k, i);
      SettledByGap(p, Owners(f.landings), f.pushes, f.gaps, i);
    }
  }

  lemma SettledByGap(p: Interval, skipped: set<Id>, pushes: seq<DirectPush>, gaps: seq<Gap>, i: int)
    requires 0 <= i < |p.spine| && Blocks(p, gaps, i)
    ensures SettledAt(p, skipped, pushes, gaps, i)
  {
  }

  lemma WholeGapBlocks(g: Ancestry, p: Interval, gaps: seq<Gap>, k: int, i: int)
    requires FirstParentSpine(g, p) && 0 <= k < |gaps| && Effective(p, gaps[k].span) == FullSpan(p)
    requires 0 <= i < |p.spine|
    ensures Blocks(p, gaps, i)
  {
    SpineIsAnchored(g, p);
    PositionOf(p, |p.spine| - 1);
    assert Covers(p, gaps[k].span, i);
  }

  lemma BudgetGapIsWhole(p: Interval, g: Gap)
    requires BudgetGap(p, g, 0)
    ensures Effective(p, g.span) == FullSpan(p)
  {
  }

  /** The candidate part of `resolveOrigins`: both passes and the overlap check. */
  method ResolveCandidates(v: ObjectView, p: Interval, order: seq<Candidate>, terminals: map<string, nat>,
                           ids: map<string, nat>, ghost n: Counts, caps: Capabilities, gaps0: seq<Gap>)
    returns (kept: seq<Landing>, integrated: seq<Integrated>, gaps: seq<Gap>)
    requires Exact(v.store) && FirstParentSpine(v.store.graph, p) && !v.meter.failed
    requires Known(order) && Tallies(terminals, ids, n) && AllWide(p, gaps0) && v.Paced()
    modifies v.meter
    ensures v.Paced() && v.meter.asked <= old(v.meter.asked) + AllReads(order, v.width)
    ensures !v.meter.failed ==>
              var landed := FlatMap(order, LandedBy(v.store, p, n, caps));
              var deferred := FlatMap(order, DeferredBy(p, n));
              && kept == Survivors(landed, |landed|)
              && integrated == FlatMap(deferred, IntegratedBy(v.store, p, caps, kept))
              && gaps == gaps0 + FlatMap(order, GappedBy(v.store, p, n, caps)) + OverlapGaps(landed, |landed|)
                         + FlatMap(deferred, StrandedBy(v.store, p, caps, kept))
    ensures v.meter.failed ==> exists k :: 0 <= k < |gaps| && BudgetGap(p, gaps[k], 0)
    ensures AllSound(v.store.graph, p, kept) && Disjoint(kept) && KnownGaps(p, gaps) && NothingCut(p, gaps, kept)
    ensures gaps0 <= gaps
  {
    hide LandedBy, GappedBy, DeferredBy, IntegratedBy, StrandedBy, SoundLanding, FirstParentSpine, Wide, Uncut;
    hide KnownSpan, BudgetGap;
    hide Survivors, OverlapGaps, Tallies, Overlap;
    var landed, first, deferred := FirstPass(v, p, terminals, ids, n, caps, order);
    var overlaps;
    kept, overlaps := RejectAll(landed);
    OverlapsSound(v.store.graph, p, landed, gaps0 + first);
    gaps := gaps0 + first + overlaps;
    integrated := [];
    if v.meter.failed {
      assert gaps[|gaps0| + |first| - 1] == first[|first| - 1];
      return;
    }
    var second;
    integrated, second := SecondPass(v, p, caps, deferred, kept);
    MoreWideGaps(v.store.graph, p, gaps, second, kept);
    gaps := gaps + second;
    if v.meter.failed {
      assert gaps[|gaps| - 1] == second[|second| - 1];
    }
  }

  /** The reads that a whole resolution may ask for. */
  function ResolveReads(p: Interval, cs: seq<Candidate>, width: nat): nat {
    AllReads(cs, width) + PushReads(width) * |p.spine|
  }

  method ResolveOrigins(v: ObjectView, p: Interval, cs: seq<Candidate>, caps: Capabilities, gaps0: seq<Gap>)
    returns (f: Findings)
    requires Exact(v.store) && FirstParentSpine(v.store.graph, p) && !v.meter.failed
    requires Known(cs) && AllWide(p, gaps0) && v.Paced()
    modifies v.meter
    ensures v.Paced() && v.meter.asked <= old(v.meter.asked) + ResolveReads(p, cs, v.width)
    ensures SoundFindings(v.store.graph, p, f) && Explained(p, f) && gaps0 <= f.gaps
    ensures !v.meter.failed ==> SameFindings(f, ResolveAll(v.store, p, cs, caps, gaps0))
    ensures v.meter.failed ==> exists i :: ClosedFrom(p, f, i)
    ensures v.meter.failed ==> ClosedFrom(p, f, 0) || ReachedPushes(f, ResolveAll(v.store, p, cs, caps, gaps0))
  {
    hide LandedBy, GappedBy, DeferredBy, IntegratedBy, StrandedBy, SoundLanding, Wide, Uncut, KnownSpan, BudgetGap;
    hide Survivors, OverlapGaps, Overlap, ResolveAll, CountsOf, SoundPushes, PushGaps, Blocked, Owners, CutOff;
    hide ClosedFrom, Explained, SettledUpTo, AllReads, PushReads;
    var terminals, ids := CandidateCounts(cs);
    var order := SortById(cs);
    AllReadsPermute(order, cs, v.width);
    var kept, integrated, gaps := ResolveCandidates(v, p, order, terminals, ids, CountsOf(cs), caps, gaps0);
    if v.meter.failed {
      f := Findings(kept, integrated, [], gaps);
      var k :| 0 <= k < |gaps| && BudgetGap(p, gaps[k], 0);
      CutShort(p, f, k);
      BudgetGapIsWhole(p, gaps[k]);
      WholeGapExplains(v.store.graph, p, f, k);
      NoPushes(v.store.graph, p, Owners(kept));
      return;
    }
    SpineIsAnchored(v.store.graph, p);
    var blocked := BlockedSpine(gaps, p);
    var owners := LandingOwners(kept);
    var pushes, more := ClassifyDirectPushes(v, p, blocked + owners);
    f := Findings(kept, integrated, pushes, gaps + more);
    MorePushGaps(v.store.graph, p, gaps, more, kept, blocked + owners);
    SkippedIsExplained(p, f, gaps, more);
    PushesAvoidOwners(v.store.graph, p, blocked + owners, owners, pushes);
    OrderChosen(v.store, p, caps, cs, order, gaps0);
    if v.meter.failed {
      CutOffCloses(v.store.graph, p, blocked + owners, f, gaps, more);
      assert ReachedPushes(f, ResolveInOrder(v.store, p, CountsOf(cs), caps, order, gaps0));
    } else {
      assert f == ResolveInOrder(v.store, p, CountsOf(cs), caps, order, gaps0);
    }
  }

  lemma NoPushes(g: Ancestry, p: Interval, skipped: set<Id>)
    ensures SoundPushes(g, p, skipped, [], |p.spine|)
  {
  }
}
