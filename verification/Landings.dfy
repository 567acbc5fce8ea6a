/** The finished report in terms of the evidence alone: which candidates land, which are
    integrated, and which gap every other one leaves. */
module Landings {
  import opened Model
  import opened Graph
  import opened Store
  import opened Intervals
  import opened Proofs
  import opened Acceptance
  import opened Soundness
  import opened Overlaps
  import opened Blocking
  import opened Direct
  import opened Origins
  import opened Resolution
  import opened Finishing
  import opened Conservation
  import opened ShallowCheck
  import opened Validation
  import opened Analysis
  import opened Candidates
  import opened Ordering

  // ----- what the evidence says of one candidate -----

  /** No other candidate has its ID or its nonempty terminal. */
  predicate Alone(cs: seq<Candidate>, i: nat)
    requires i < |cs|
  {
    forall j :: 0 <= j < |cs| && j != i ==>
      cs[j].id != cs[i].id && (cs[i].terminal == "" || cs[j].terminal != cs[i].terminal)
  }

  /** What the objects say of candidate `i`. */
  function Proof(st: Objects, p: Interval, e: Evidence, i: nat): Verdict
    requires i < |e.candidates|
  {
    ProveAt(st, p, e.candidates[i], e.capabilities)
  }

  /** Candidate `i` stands alone, on the spine, and is proven. */
  predicate Provable(st: Objects, p: Interval, e: Evidence, i: nat)
    requires i < |e.candidates|
  {
    Alone(e.candidates, i) && e.candidates[i].terminal in p.spine && Accepted(Proof(st, p, e, i))
  }

  /** Its origin shares a spine commit with that of another such candidate. */
  predicate Collides(st: Objects, p: Interval, e: Evidence, i: nat)
    requires i < |e.candidates|
  {
    exists j: nat :: j < |e.candidates| && j != i && Provable(st, p, e, j)
      && Overlap(Proof(st, p, e, j).landing.spine, Proof(st, p, e, i).landing.spine)
  }

  /** Candidate `i` lands: it can be proven and nobody else claims a commit of its origin. */
  predicate Lands(st: Objects, p: Interval, e: Evidence, i: nat)
    requires i < |e.candidates|
  {
    Provable(st, p, e, i) && !Collides(st, p, e, i)
  }

  /** The interval is complete, the evidence is in order and the repository can be read. */
  ghost predicate Analysable(st: Objects, p: Interval, e: Evidence) {
    && Exact(st) && CompleteInterval(st.graph, p) && EvidenceFault(p, e) == ""
    && st.opens && CheckShallow(st, p.query.bounds).Ok?
  }

  // ----- members of the lists -----

  lemma CountTwice<T>(s: seq<T>, i: nat)
    requires i < |s|
    ensures multiset(s)[s[i]] > 1 <==> exists j :: 0 <= j < |s| && j != i && s[j] == s[i]
  {
    assert s == s[..i] + [s[i]] + s[i + 1..];
    assert multiset(s)[s[i]] == multiset(s[..i])[s[i]] + 1 + multiset(s[i + 1..])[s[i]];
    if s[i] in s[..i] {
      assert s[i] in multiset(s[..i]);
      var j :| 0 <= j < i && s[..i][j] == s[i];
      assert s[j] == s[i];
    } else if s[i] in s[i + 1..] {
      assert s[i] in multiset(s[i + 1..]);
      var j :| 0 <= j < |s[i + 1..]| && s[i + 1..][j] == s[i];
      assert s[i + 1 + j] == s[i];
    } else {
      assert s[i] !in multiset(s[..i]) && s[i] !in multiset(s[i + 1..]);
      forall j | 0 <= j < |s| && j != i ensures s[j] != s[i] {
        assert s[j] == if j < i then s[..i][j] else s[i + 1..][j - i - 1];
      }
    }
  }

  /** The tallies say exactly that somebody else shares the ID or the terminal. */
  lemma AloneExactly(cs: seq<Candidate>, i: nat)
    requires i < |cs|
    ensures Alone(cs, i) <==> !Contested(CountsOf(cs), cs[i])
  {
    var terminals, ids := Map(cs, TerminalOf), Map(cs, IdOf);
    CountTwice(terminals, i);
    CountTwice(ids, i);
    assert forall j :: 0 <= j < |cs| ==> terminals[j] == cs[j].terminal && ids[j] == cs[j].id;
  }

  lemma OrderedMembers(cs: seq<Candidate>)
    ensures forall c :: c in Sort(cs, ById) <==> c in cs
  {
    MembersOfPermutation(Sort(cs, ById), cs);
  }

  // ----- the first pass -----

  ghost function Landed(st: Objects, p: Interval, e: Evidence): seq<Landing> {
    FlatMap(Sort(e.candidates, ById), LandedBy(st, p, CountsOf(e.candidates), e.capabilities))
  }

  lemma OneLanded(st: Objects, p: Interval, e: Evidence, i: nat)
    requires i < |e.candidates|
    ensures LandedBy(st, p, CountsOf(e.candidates), e.capabilities)(e.candidates[i]) ==
            if Provable(st, p, e, i) then [Proof(st, p, e, i).landing] else []
  {
    hide ProveAt, Stated, CountsOf, Contested, Alone;
    AloneExactly(e.candidates, i);
    if Accepted(Proof(st, p, e, i)) {
      AcceptedIsStated(st, p, e.candidates[i], e.capabilities);
      StatedTerminal(e.candidates[i]);
    }
  }

  lemma StatedTerminal(c: Candidate)
    ensures Stated(c) ==> c.terminal != "" && c.terminalEvidence != ""
  {
  }

  lemma LandedExactly(st: Objects, p: Interval, e: Evidence, l: Landing)
    ensures l in Landed(st, p, e) <==>
            exists i: nat :: i < |e.candidates| && Provable(st, p, e, i) && l == Proof(st, p, e, i).landing
  {
    hide LandedBy, Provable, Proof, CountsOf;
    var f := LandedBy(st, p, CountsOf(e.candidates), e.capabilities);
    InFlatMap(Sort(e.candidates, ById), f, l);
    OrderedMembers(e.candidates);
    if l in Landed(st, p, e) {
      var c :| c in e.candidates && l in f(c);
      var i: nat :| i < |e.candidates| && e.candidates[i] == c;
      OneLanded(st, p, e, i);
    }
    forall i: nat | i < |e.candidates| && Provable(st, p, e, i) && l == Proof(st, p, e, i).landing
      ensures l in Landed(st, p, e)
    {
      OneLanded(st, p, e, i);
    }
  }

  /** A provable candidate has a sound landing with its ID and its terminal. */
  lemma ProvableIsSound(st: Objects, p: Interval, e: Evidence, i: nat)
    requires Exact(st) && FirstParentSpine(st.graph, p) && Known(e.candidates)
    requires i < |e.candidates| && Provable(st, p, e, i)
    ensures var l := Proof(st, p, e, i).landing;
      && SoundLanding(st.graph, p, l) && Distinct(l.spine) && l.spine != []
      && l.candidateId == e.candidates[i].id != "" && l.terminal == e.candidates[i].terminal != ""
  {
    hide ProveAt, Stated, Alone, Exact, FirstParentSpine;
    ProofsAreSound(st, p, e.candidates[i], e.capabilities);
    AcceptedIsStated(st, p, e.candidates[i], e.capabilities);
    StatedTerminal(e.candidates[i]);
    SliceDistinct(st.graph, p, Proof(st, p, e, i).landing);
  }

  lemma SliceDistinct(g: Ancestry, p: Interval, l: Landing)
    requires FirstParentSpine(g, p) && SoundLanding(g, p, l)
    ensures Distinct(l.spine) && l.spine != []
  {
  }

  /** No two landings of the first pass carry one ID: uncontested IDs occur once. */
  lemma LandedIdsDiffer(st: Objects, p: Interval, e: Evidence, a: nat, b: nat)
    requires Known(e.candidates) && a < |Landed(st, p, e)| && b < |Landed(st, p, e)| && a != b
    requires Exact(st) && FirstParentSpine(st.graph, p)
    ensures Landed(st, p, e)[a].candidateId != Landed(st, p, e)[b].candidateId
  {
    hide Provable, Proof, SoundLanding, LandedBy, GappedBy, DeferredBy, FlatMap, FirstParentSpine, Exact, CountsOf;
    hide GapIds;
    var landed, order, n := Landed(st, p, e), Sort(e.candidates, ById), CountsOf(e.candidates);
    SortedKnown(e.candidates, order);
    FirstPassConserves(st, p, n, e.capabilities, order);
    var ids := Map(landed, CandidateOf);
    if ids[a] == ids[b] {
      CountTwice(ids, a);
      LandedExactly(st, p, e, landed[a]);
      var i: nat :| i < |e.candidates| && Provable(st, p, e, i) && landed[a] == Proof(st, p, e, i).landing;
      ProvableIsSound(st, p, e, i);
      CountTwice(Map(e.candidates, IdOf), i);
      AloneById(st, p, e, i);
      assert false;
    }
  }

  lemma AloneById(st: Objects, p: Interval, e: Evidence, i: nat)
    requires i < |e.candidates| && Provable(st, p, e, i)
    ensures forall j :: 0 <= j < |e.candidates| && j != i ==> e.candidates[j].id != e.candidates[i].id
  {
  }

  // ----- overlaps -----

  lemma {:induction false} SurvivorsExactly(ls: seq<Landing>, n: nat, l: Landing)
    requires n <= |ls|
    ensures l in Survivors(ls, n) <==> exists k: nat :: k < n && !Clashes(ls, k) && l == ls[k]
  {
    hide Clashes;
    if n > 0 {
      SurvivorsExactly(ls, n - 1, l);
    }
  }

  lemma {:induction false} OverlapGapsExactly(ls: seq<Landing>, n: nat, g: Gap)
    requires n <= |ls|
    ensures g in OverlapGaps(ls, n) <==> exists k: nat :: k < n && Clashes(ls, k) && g == OverlapGap(ls[k])
  {
    hide Clashes, OverlapGap;
    if n > 0 {
      OverlapGapsExactly(ls, n - 1, g);
    }
  }

  /** The landing of candidate `i` clashes with a landing of the first pass exactly when another
      provable candidate claims one of its commits. */
  lemma ClashesExactly(st: Objects, p: Interval, e: Evidence, i: nat, a: nat)
    requires Exact(st) && FirstParentSpine(st.graph, p) && Known(e.candidates)
    requires i < |e.candidates| && Provable(st, p, e, i)
    requires a < |Landed(st, p, e)| && Landed(st, p, e)[a] == Proof(st, p, e, i).landing
    ensures Clashes(Landed(st, p, e), a) <==> Collides(st, p, e, i)
  {
    hide Provable, Proof, SoundLanding, Landed, FirstParentSpine, Exact, Overlap;
    var landed := Landed(st, p, e);
    ProvableIsSound(st, p, e, i);
    forall b: nat | b < |landed| && b != a && Overlap(landed[a].spine, landed[b].spine) ensures Collides(st, p, e, i) {
      LandedExactly(st, p, e, landed[b]);
      var j: nat :| j < |e.candidates| && Provable(st, p, e, j) && landed[b] == Proof(st, p, e, j).landing;
      LandedIdsDiffer(st, p, e, a, b);
      OverlapSymmetric(landed[a].spine, landed[b].spine);
    }
    if Collides(st, p, e, i) {
      var j: nat :| j < |e.candidates| && j != i && Provable(st, p, e, j)
        && Overlap(Proof(st, p, e, j).landing.spine, Proof(st, p, e, i).landing.spine);
      LandedExactly(st, p, e, Proof(st, p, e, j).landing);
      var b: nat :| b < |landed| && landed[b] == Proof(st, p, e, j).landing;
      ProvableIsSound(st, p, e, j);
      AloneById(st, p, e, i);
      OverlapSymmetric(landed[b].spine, landed[a].spine);
    }
  }

  ghost function KeptOf(st: Objects, p: Interval, e: Evidence): seq<Landing> {
    Survivors(Landed(st, p, e), |Landed(st, p, e)|)
  }

  lemma KeptExactly(st: Objects, p: Interval, e: Evidence, l: Landing)
    requires Exact(st) && FirstParentSpine(st.graph, p) && Known(e.candidates)
    ensures l in KeptOf(st, p, e) <==>
            exists i: nat :: i < |e.candidates| && Lands(st, p, e, i) && l == Proof(st, p, e, i).landing
  {
    hide Provable, Proof, Collides, Landed, FirstParentSpine, Exact, Clashes, Survivors;
    var landed := Landed(st, p, e);
    SurvivorsExactly(landed, |landed|, l);
    LandedExactly(st, p, e, l);
    forall i: nat, a: nat | i < |e.candidates| && Provable(st, p, e, i) && a < |landed|
        && landed[a] == Proof(st, p, e, i).landing && landed[a] == l
      ensures Clashes(landed, a) <==> Collides(st, p, e, i)
    {
      ClashesExactly(st, p, e, i, a);
    }
  }

  /** The gaps for overlaps are those of the provable candidates that collide. */
  lemma RejectedExactly(st: Objects, p: Interval, e: Evidence, g: Gap)
    requires Exact(st) && FirstParentSpine(st.graph, p) && Known(e.candidates)
    ensures g in OverlapGaps(Landed(st, p, e), |Landed(st, p, e)|) <==>
            exists i: nat :: i < |e.candidates| && Provable(st, p, e, i) && Collides(st, p, e, i)
              && g == OverlapGap(Proof(st, p, e, i).landing)
  {
    hide Provable, Proof, Collides, Landed, FirstParentSpine, Exact, Clashes, OverlapGaps, OverlapGap;
    var landed := Landed(st, p, e);
    OverlapGapsExactly(landed, |landed|, g);
    forall i: nat, a: nat | i < |e.candidates| && Provable(st, p, e, i) && a < |landed|
        && landed[a] == Proof(st, p, e, i).landing
      ensures Clashes(landed, a) <==> Collides(st, p, e, i)
    {
      ClashesExactly(st, p, e, i, a);
    }
    forall a: nat | a < |landed|
      ensures exists i: nat :: i < |e.candidates| && Provable(st, p, e, i) && landed[a] == Proof(st, p, e, i).landing
    {
      LandedExactly(st, p, e, landed[a]);
    }
    forall i: nat | i < |e.candidates| && Provable(st, p, e, i) ensures Proof(st, p, e, i).landing in landed {
      LandedExactly(st, p, e, Proof(st, p, e, i).landing);
    }
  }

  // ----- the second pass -----

  /** A merge of the report that introduced the terminal of candidate `i` and everything that the
      candidate introduced. */
  predicate CameThrough(st: Objects, p: Interval, e: Evidence, i: nat, l: Landing)
    requires i < |e.candidates|
  {
    && l.proofs == ["merge"] && e.candidates[i].terminal in l.introduced
    && forall id :: id in Proof(st, p, e, i).landing.introduced ==> id in l.introduced
  }

  /** Candidate `i` stands alone off the spine, may be a merge, and is proven. */
  predicate ProvenOutside(st: Objects, p: Interval, e: Evidence, i: nat)
    requires i < |e.candidates|
  {
    && Alone(e.candidates, i) && e.candidates[i].terminal !in p.spine
    && (e.candidates[i].how == Merge || e.candidates[i].how == Unstated) && Accepted(Proof(st, p, e, i))
  }

  ghost function DeferredOf(p: Interval, e: Evidence): seq<Candidate> {
    FlatMap(Sort(e.candidates, ById), DeferredBy(p, CountsOf(e.candidates)))
  }

  /** The second pass looks at candidates that stand alone with an evidenced terminal off the spine. */
  predicate Outside(p: Interval, e: Evidence, i: nat)
    requires i < |e.candidates|
  {
    var c := e.candidates[i];
    Alone(e.candidates, i) && c.terminal != "" && c.terminalEvidence != "" && c.terminal !in p.spine
  }

  lemma DeferredExactly(p: Interval, e: Evidence, c: Candidate)
    ensures c in DeferredOf(p, e) <==> exists i: nat :: i < |e.candidates| && Outside(p, e, i) && c == e.candidates[i]
  {
    hide CountsOf, Contested, Alone;
    var f := DeferredBy(p, CountsOf(e.candidates));
    InFlatMap(Sort(e.candidates, ById), f, c);
    OrderedMembers(e.candidates);
    forall i: nat | i < |e.candidates|
      ensures f(e.candidates[i]) == if Outside(p, e, i) then [e.candidates[i]] else []
    {
      AloneExactly(e.candidates, i);
    }
  }

  /** What becomes of a candidate outside, spelled out. */
  lemma PassageExactly(st: Objects, p: Interval, e: Evidence, outers: seq<Landing>, i: nat)
    requires Exact(st) && FirstParentSpine(st.graph, p) && AllSound(st.graph, p, outers) && Disjoint(outers)
    requires i < |e.candidates| && Outside(p, e, i) && e.candidates[i].id != ""
    ensures var c := e.candidates[i];
      var r := IntegratedThrough(st, p, c, e.capabilities, outers);
      && (r.gap.reason == "" <==>
            ProvenOutside(st, p, e, i) && exists l :: l in outers && CameThrough(st, p, e, i, l))
      && (r.gap.reason == "" ==>
            forall l :: l in outers && CameThrough(st, p, e, i, l) ==> r.through == l.candidateId)
      && (r.gap.reason != "" ==>
            r.gap ==
            if (c.how == Merge || c.how == Unstated) && !Accepted(Proof(st, p, e, i)) then Proof(st, p, e, i).gap
            else Gap(c.id, c.terminal, "terminal_outside_spine", NO_SPAN))
  {
    hide ProveAt, Alone, Exact, FirstParentSpine, AllSound, Disjoint, ThroughFrom;
    var c := e.candidates[i];
    VerdictNames(st, p, c, e.capabilities);
    var inner := Proof(st, p, e, i).landing;
    if Accepted(Proof(st, p, e, i)) {
      forall l ensures Contains(l, inner) <==> CameThrough(st, p, e, i, l) {
      }
    }
    if c.how == Merge || c.how == Unstated {
      IntegrationExact(st, p, c, e.capabilities, outers);
    }
  }

  lemma IntegratedMembers(st: Objects, p: Interval, e: Evidence, outers: seq<Landing>, x: Integrated)
    requires Exact(st) && FirstParentSpine(st.graph, p) && AllSound(st.graph, p, outers) && Disjoint(outers)
    requires Known(e.candidates)
    ensures x in FlatMap(DeferredOf(p, e), IntegratedBy(st, p, e.capabilities, outers)) <==>
            exists i: nat, l :: i < |e.candidates| && ProvenOutside(st, p, e, i) && l in outers
              && CameThrough(st, p, e, i, l) && x == Integrated(e.candidates[i].id, l.candidateId)
  {
    hide ProveAt, Proof, Alone, Exact, FirstParentSpine, AllSound, Disjoint, IntegratedThrough, Stated, CameThrough;
    var f, cs := IntegratedBy(st, p, e.capabilities, outers), e.candidates;
    InFlatMap(DeferredOf(p, e), f, x);
    if x in FlatMap(DeferredOf(p, e), f) {
      var c :| c in DeferredOf(p, e) && x in f(c);
      DeferredExactly(p, e, c);
      var i: nat :| i < |cs| && Outside(p, e, i) && c == cs[i];
      PassageExactly(st, p, e, outers, i);
    }
    forall i: nat, l | i < |cs| && ProvenOutside(st, p, e, i) && l in outers
        && CameThrough(st, p, e, i, l) && x == Integrated(cs[i].id, l.candidateId)
      ensures x in FlatMap(DeferredOf(p, e), f)
    {
      AcceptedOutside(st, p, e, i);
      DeferredExactly(p, e, cs[i]);
      PassageExactly(st, p, e, outers, i);
    }
  }

  lemma AcceptedOutside(st: Objects, p: Interval, e: Evidence, i: nat)
    requires i < |e.candidates| && ProvenOutside(st, p, e, i)
    ensures Outside(p, e, i)
  {
    hide ProveAt, Alone, Stated;
    AcceptedIsStated(st, p, e.candidates[i], e.capabilities);
    StatedTerminal(e.candidates[i]);
  }

  // ----- the gaps that name candidates -----

  /** What an unproven candidate blocks: from the base up to its terminal when that is evidenced and
      on the spine, unless the budget ended the proof; otherwise the whole interval. */
  function UpTo(p: Interval, c: Candidate, reason: string): Span {
    if reason != "input_budget_exhausted" && c.terminalEvidence != "" && c.terminal in p.spine
    then Span(p.query.bounds.base, c.terminal) else Span(p.query.bounds.base, p.query.bounds.head)
  }

  /** The gap that candidate `i` leaves in a report with the given landings. */
  predicate Leaves(st: Objects, p: Interval, e: Evidence, landings: seq<Landing>, i: nat, g: Gap)
    requires i < |e.candidates|
  {
    var c, v := e.candidates[i], Proof(st, p, e, i);
    if !Alone(e.candidates, i) then
      g == Gap(c.id, c.terminal, "candidate_conflict", UpTo(p, c, "candidate_conflict"))
    else if c.terminal in p.spine && Accepted(v) then
      Collides(st, p, e, i) && g == Gap(c.id, c.terminal, "candidate_conflict", Span(v.landing.before, c.terminal))
    else if c.terminal in p.spine || c.terminal == "" || c.terminalEvidence == "" then
      g == v.gap.(span := UpTo(p, c, v.gap.reason))
    else if (c.how == Merge || c.how == Unstated) && !Accepted(v) then
      g == v.gap.(span := UpTo(p, c, v.gap.reason))
    else
      && !(ProvenOutside(st, p, e, i) && exists l :: l in landings && CameThrough(st, p, e, i, l))
      && g == Gap(c.id, c.terminal, "terminal_outside_spine", UpTo(p, c, "terminal_outside_spine"))
  }

  lemma UpToIsCandidateGap(p: Interval, c: Candidate, g: Gap)
    ensures CandidateGap(p, c, g) == g.(span := UpTo(p, c, g.reason))
  {
  }

  /** The three lists of gaps that resolution collects about candidates. */
  ghost function CandidateGaps(st: Objects, p: Interval, e: Evidence): seq<Gap> {
    var n, landed := CountsOf(e.candidates), Landed(st, p, e);
    FlatMap(Sort(e.candidates, ById), GappedBy(st, p, n, e.capabilities)) + OverlapGaps(landed, |landed|)
    + FlatMap(DeferredOf(p, e), StrandedBy(st, p, e.capabilities, KeptOf(st, p, e)))
  }

  /** Candidate `i` is settled by the first pass with a gap. */
  predicate Refused(st: Objects, p: Interval, e: Evidence, i: nat)
    requires i < |e.candidates|
  {
    !Alone(e.candidates, i) || (!Outside(p, e, i) && !Accepted(Proof(st, p, e, i)))
  }

  lemma OneGapped(st: Objects, p: Interval, e: Evidence, i: nat)
    requires i < |e.candidates|
    ensures var c := e.candidates[i];
      GappedBy(st, p, CountsOf(e.candidates), e.capabilities)(c) ==
      if !Alone(e.candidates, i) then [Gap(c.id, c.terminal, CONFLICT, UpTo(p, c, CONFLICT))]
      else if Refused(st, p, e, i) then
        [Proof(st, p, e, i).gap.(span := UpTo(p, c, Proof(st, p, e, i).gap.reason))]
      else []
  {
    hide ProveAt, Stated, CountsOf, Contested, Alone, UpTo, CandidateGap;
    AloneExactly(e.candidates, i);
    var c := e.candidates[i];
    UpToIsCandidateGap(p, c, Gap(c.id, c.terminal, CONFLICT, NO_SPAN));
    UpToIsCandidateGap(p, c, Proof(st, p, e, i).gap);
  }

  lemma GappedExactly(st: Objects, p: Interval, e: Evidence, landings: seq<Landing>, g: Gap)
    ensures g in FlatMap(Sort(e.candidates, ById), GappedBy(st, p, CountsOf(e.candidates), e.capabilities)) <==>
            exists i: nat :: i < |e.candidates| && Refused(st, p, e, i) && Leaves(st, p, e, landings, i, g)
  {
    hide GappedBy, CountsOf, UpTo, ProveAt, Proof, Alone, CameThrough, Collides;
    var f := GappedBy(st, p, CountsOf(e.candidates), e.capabilities);
    InFlatMap(Sort(e.candidates, ById), f, g);
    OrderedMembers(e.candidates);
    forall i: nat | i < |e.candidates|
      ensures g in f(e.candidates[i]) <==> Refused(st, p, e, i) && Leaves(st, p, e, landings, i, g)
    {
      OneGapped(st, p, e, i);
    }
    forall c | c in e.candidates ensures exists i: nat :: i < |e.candidates| && e.candidates[i] == c {
    }
  }

  lemma OverlapGapLeft(st: Objects, p: Interval, e: Evidence, landings: seq<Landing>, i: nat, g: Gap)
    requires Exact(st) && FirstParentSpine(st.graph, p) && Known(e.candidates)
    requires i < |e.candidates| && Provable(st, p, e, i)
    ensures Leaves(st, p, e, landings, i, g) <==>
            Collides(st, p, e, i) && g == OverlapGap(Proof(st, p, e, i).landing)
  {
    hide ProveAt, Proof, Alone, CameThrough, Collides, UpTo, FirstParentSpine, Exact, SoundLanding;
    ProvableIsSound(st, p, e, i);
  }

  lemma StrandedExactly(st: Objects, p: Interval, e: Evidence, outers: seq<Landing>, g: Gap)
    requires Exact(st) && FirstParentSpine(st.graph, p) && AllSound(st.graph, p, outers) && Disjoint(outers)
    requires Known(e.candidates)
    ensures g in FlatMap(DeferredOf(p, e), StrandedBy(st, p, e.capabilities, outers)) <==>
            exists i: nat :: i < |e.candidates| && Outside(p, e, i) && Leaves(st, p, e, outers, i, g)
  {
    hide ProveAt, Proof, Alone, Exact, FirstParentSpine, AllSound, Disjoint, IntegratedThrough, Stated, CameThrough;
    hide UpTo, CandidateGap, Collides;
    var f, cs := StrandedBy(st, p, e.capabilities, outers), e.candidates;
    InFlatMap(DeferredOf(p, e), f, g);
    forall i: nat | i < |cs| && Outside(p, e, i) ensures g in f(cs[i]) <==> Leaves(st, p, e, outers, i, g) {
      PassageExactly(st, p, e, outers, i);
      UpToIsCandidateGap(p, cs[i], IntegratedThrough(st, p, cs[i], e.capabilities, outers).gap);
    }
    forall c ensures c in DeferredOf(p, e) <==> exists i: nat :: i < |cs| && Outside(p, e, i) && c == cs[i] {
      DeferredExactly(p, e, c);
    }
  }

  /** Every candidate is refused by the first pass, provable, or left to the second pass. */
  lemma EveryCase(st: Objects, p: Interval, e: Evidence, i: nat)
    requires i < |e.candidates|
    ensures Refused(st, p, e, i) || Provable(st, p, e, i) || Outside(p, e, i)
  {
    hide ProveAt, Alone, Stated;
    if Accepted(Proof(st, p, e, i)) {
      AcceptedIsStated(st, p, e.candidates[i], e.capabilities);
      StatedTerminal(e.candidates[i]);
    }
  }

  /** The gaps about candidates are those that the candidates leave. */
  lemma CandidateGapsExactly(st: Objects, p: Interval, e: Evidence, g: Gap)
    requires Exact(st) && FirstParentSpine(st.graph, p) && Known(e.candidates)
    ensures g in CandidateGaps(st, p, e) <==>
            exists i: nat :: i < |e.candidates| && Leaves(st, p, e, KeptOf(st, p, e), i, g)
  {
    hide Leaves, Refused, Provable, Outside, Proof, Alone, Exact, FirstParentSpine, FlatMap, Landed, KeptOf;
    hide GappedBy, StrandedBy, OverlapGaps, DeferredOf, CountsOf, OverlapGap, Collides;
    var kept := KeptOf(st, p, e);
    GappedExactly(st, p, e, kept, g);
    RejectedExactly(st, p, e, g);
    KeptSound(st, p, e);
    StrandedExactly(st, p, e, kept, g);
    forall i: nat | i < |e.candidates| && Leaves(st, p, e, kept, i, g)
      ensures Refused(st, p, e, i) || Provable(st, p, e, i) || Outside(p, e, i)
    {
      EveryCase(st, p, e, i);
    }
    forall i: nat | i < |e.candidates| && Provable(st, p, e, i)
      ensures Leaves(st, p, e, kept, i, g) <==> Collides(st, p, e, i) && g == OverlapGap(Proof(st, p, e, i).landing)
    {
      OverlapGapLeft(st, p, e, kept, i, g);
    }
  }

  lemma KeptSound(st: Objects, p: Interval, e: Evidence)
    requires Exact(st) && FirstParentSpine(st.graph, p) && Known(e.candidates)
    ensures AllSound(st.graph, p, KeptOf(st, p, e)) && Disjoint(KeptOf(st, p, e))
  {
    hide Provable, Proof, SoundLanding, Landed, FirstParentSpine, Exact, Survivors, OverlapGaps, Disjoint;
    var landed := Landed(st, p, e);
    forall k | 0 <= k < |landed| ensures SoundLanding(st.graph, p, landed[k]) && landed[k].candidateId != "" {
      LandedExactly(st, p, e, landed[k]);
      var i: nat :| i < |e.candidates| && Provable(st, p, e, i) && landed[k] == Proof(st, p, e, i).landing;
      ProvableIsSound(st, p, e, i);
    }
    ExactHistory(st);
    OverlapsSound(st.graph, p, landed, []);
  }

  /** Such a gap names its candidate and has its span already filled in. */
  lemma LeftGapIsNamed(st: Objects, p: Interval, e: Evidence, landings: seq<Landing>, i: nat, g: Gap)
    requires FirstParentSpine(st.graph, p) && p.query.bounds.head != "" && Known(e.candidates)
    requires i < |e.candidates| && Leaves(st, p, e, landings, i, g)
    ensures g.candidateId == e.candidates[i].id != "" && Fill(p)(g) == g
  {
    hide ProveAt, Alone, CameThrough, Collides, UpTo, FirstParentSpine;
    var c, v := e.candidates[i], Proof(st, p, e, i);
    VerdictNames(st, p, c, e.capabilities);
    UpToIsSpan(st.graph, p, c, v.gap.reason);
    UpToIsSpan(st.graph, p, c, "candidate_conflict");
    UpToIsSpan(st.graph, p, c, "terminal_outside_spine");
    if Accepted(v) {
      AcceptedIsStated(st, p, c, e.capabilities);
      StatedTerminal(c);
    }
  }

  lemma UpToIsSpan(g: Ancestry, p: Interval, c: Candidate, reason: string)
    requires FirstParentSpine(g, p) && p.query.bounds.head != ""
    ensures UpTo(p, c, reason) != NO_SPAN
  {
  }

  /** What the candidates leave depends on which landings there are, not on their order. */
  lemma LeavesIgnoresOrder(st: Objects, p: Interval, e: Evidence, a: seq<Landing>, b: seq<Landing>, i: nat, g: Gap)
    requires multiset(a) == multiset(b) && i < |e.candidates|
    ensures Leaves(st, p, e, a, i, g) <==> Leaves(st, p, e, b, i, g)
  {
    hide ProveAt, Alone, CameThrough, Collides, UpTo, ProvenOutside;
    MembersOfPermutation(a, b);
  }

  // ----- pushes -----

  lemma {:induction false} PushesExactly(st: Objects, p: Interval, skipped: set<Id>, n: nat, d: DirectPush)
    requires n <= |p.spine|
    ensures d in PushesFrom(st, p, skipped, n) <==>
            exists k :: n <= k < |p.spine| && d in PushStep(st, p, skipped, k)
    decreases |p.spine| - n
  {
    hide PushStep;
    if n < |p.spine| {
      PushesExactly(st, p, skipped, n + 1, d);
    }
  }

  lemma {:induction false} PushGapsExactly(st: Objects, p: Interval, skipped: set<Id>, n: nat, g: Gap)
    requires n <= |p.spine|
    ensures g in PushGapsFrom(st, p, skipped, n) <==>
            exists k :: n <= k < |p.spine| && g in GapStep(st, p, skipped, k)
    decreases |p.spine| - n
  {
    hide GapStep;
    if n < |p.spine| {
      PushGapsExactly(st, p, skipped, n + 1, g);
    }
  }

  /** What is asked of spine position `k` when nothing explains it. */
  function PushOf(st: Objects, p: Interval, k: int): Pushed
    requires 0 <= k < |p.spine|
  {
    PushAt(st, Prev(p, k), p.spine[k])
  }

  /** On a full inventory, no landing of the report owns position `k` and no gap about a candidate
      covers it. */
  predicate Unexplained(p: Interval, e: Evidence, r: Report, k: int)
    requires 0 <= k < |p.spine|
  {
    && e.inventory.supported && e.inventory.complete
    && (forall l :: l in r.landings ==> p.spine[k] !in l.spine)
    && (forall g :: g in r.coverage.gaps && g.candidateId != "" ==> !Covers(p, g.span, k))
  }

  // ----- the report -----

  ghost function EarlyGaps(st: Objects, p: Interval, e: Evidence): seq<Gap> {
    FirstGaps(p, e.inventory) + CandidateGaps(st, p, e)
  }

  ghost function SkippedOf(st: Objects, p: Interval, e: Evidence): set<Id> {
    Blocked(p, EarlyGaps(st, p, e)) + Owners(KeptOf(st, p, e))
  }

  lemma FindingsAre(st: Objects, p: Interval, e: Evidence)
    requires st.opens && CheckShallow(st, p.query.bounds).Ok?
    ensures FindingsOf(st, p, e) ==
            Findings(KeptOf(st, p, e),
                     FlatMap(DeferredOf(p, e), IntegratedBy(st, p, e.capabilities, KeptOf(st, p, e))),
                     PushesFrom(st, p, SkippedOf(st, p, e), 0),
                     EarlyGaps(st, p, e) + PushGapsFrom(st, p, SkippedOf(st, p, e), 0))
  {
    hide FlatMap, Survivors, OverlapGaps, Blocked, Owners, PushesFrom, PushGapsFrom, CheckShallow, FirstGaps;
    hide LandedBy, GappedBy, DeferredBy, IntegratedBy, StrandedBy, CountsOf;
    var order, n := Sort(e.candidates, ById), CountsOf(e.candidates);
    var gapped := FlatMap(order, GappedBy(st, p, n, e.capabilities));
    var overlaps := OverlapGaps(Landed(st, p, e), |Landed(st, p, e)|);
    var stranded := FlatMap(DeferredOf(p, e), StrandedBy(st, p, e.capabilities, KeptOf(st, p, e)));
    var gaps := FirstGaps(p, e.inventory) + gapped + overlaps + stranded;
    assert gaps == EarlyGaps(st, p, e);
  }

  lemma AnalysableParts(st: Objects, p: Interval, e: Evidence)
    requires Analysable(st, p, e)
    ensures Exact(st) && FirstParentSpine(st.graph, p) && Known(e.candidates) && p.query.bounds.head != ""
    ensures p.query.gaps == [] && p.query.complete && st.opens && CheckShallow(st, p.query.bounds).Ok?
  {
    hide Exact, CheckShallow;
    CompleteHasSpine(st.graph, p);
    NoFaultIsKnown(p.query.bounds, e.candidates);
  }

  lemma ReportLists(st: Objects, p: Interval, e: Evidence)
    requires Analysable(st, p, e)
    ensures multiset(ReportOn(st, p, e).landings) == multiset(KeptOf(st, p, e))
    ensures ReportOn(st, p, e).integrated ==
            FlatMap(DeferredOf(p, e), IntegratedBy(st, p, e.capabilities, KeptOf(st, p, e)))
  {
    hide Analysable, KeptOf, Exact, FirstParentSpine, FindingsOf, Certified, UnownedFrom, Owned, GapBelow, FlatMap;
    hide DeferredOf, IntegratedBy, EarlyGaps, SkippedOf, PushesFrom, PushGapsFrom;
    AnalysableParts(st, p, e);
    FindingsAre(st, p, e);
  }

  /** A candidate lands exactly when no other shares its ID or its nonempty terminal, its terminal is
      on the spine, the objects prove it, and no other such candidate claims a commit of its origin;
      and these are all the landings. */
  lemma LandsExactly(st: Objects, p: Interval, e: Evidence)
    requires Analysable(st, p, e)
    ensures forall l :: l in ReportOn(st, p, e).landings <==>
              exists i: nat :: i < |e.candidates| && Lands(st, p, e, i) && l == Proof(st, p, e, i).landing
  {
    hide *;
    AnalysableParts(st, p, e);
    ReportLists(st, p, e);
    MembersOfPermutation(ReportOn(st, p, e).landings, KeptOf(st, p, e));
    forall l ensures l in KeptOf(st, p, e) <==>
                     exists i: nat :: i < |e.candidates| && Lands(st, p, e, i) && l == Proof(st, p, e, i).landing
    {
      KeptExactly(st, p, e, l);
    }
  }

  /** A candidate is integrated exactly when it stands alone off the spine, is labelled a merge or not
      at all, is proven, and a merge of the report introduced its terminal and all it introduced. */
  lemma IntegratedExactly(st: Objects, p: Interval, e: Evidence)
    requires Analysable(st, p, e)
    ensures var r := ReportOn(st, p, e);
      forall x :: x in r.integrated <==>
        exists i: nat, l :: i < |e.candidates| && ProvenOutside(st, p, e, i) && l in r.landings
          && CameThrough(st, p, e, i, l) && x == Integrated(e.candidates[i].id, l.candidateId)
  {
    hide *;
    AnalysableParts(st, p, e);
    ReportLists(st, p, e);
    KeptSound(st, p, e);
    MembersOfPermutation(ReportOn(st, p, e).landings, KeptOf(st, p, e));
    forall x ensures x in ReportOn(st, p, e).integrated <==>
        exists i: nat, l :: i < |e.candidates| && ProvenOutside(st, p, e, i) && l in KeptOf(st, p, e)
          && CameThrough(st, p, e, i, l) && x == Integrated(e.candidates[i].id, l.candidateId)
    {
      IntegratedMembers(st, p, e, KeptOf(st, p, e), x);
    }
  }

  lemma FilledMembers(p: Interval, gaps: seq<Gap>, finished: seq<Gap>, g: Gap)
    requires multiset(finished) == multiset(Map(gaps, Fill(p)))
    ensures g in finished <==> exists h :: h in gaps && g == Fill(p)(h)
  {
    hide Fill;
    var filled := Map(gaps, Fill(p));
    MembersOfPermutation(finished, filled);
    if g in filled {
      var k :| 0 <= k < |filled| && filled[k] == g;
      assert gaps[k] in gaps;
    }
    forall h | h in gaps && g == Fill(p)(h) ensures g in filled {
      var k :| 0 <= k < |gaps| && gaps[k] == h;
      assert filled[k] == g;
    }
  }

  lemma PushGapsUnnamed(st: Objects, p: Interval, skipped: set<Id>, g: Gap)
    requires g in PushGapsFrom(st, p, skipped, 0)
    ensures g.candidateId == ""
  {
    hide PushAt, PushGapsFrom;
    PushGapsExactly(st, p, skipped, 0, g);
    var k :| 0 <= k < |p.spine| && g in GapStep(st, p, skipped, k);
    PushGapNames(st, p, k);
  }

  lemma FirstGapsUnnamed(p: Interval, e: Evidence, g: Gap)
    requires p.query.gaps == []
    ensures g in FirstGaps(p, e.inventory) ==> g.candidateId == ""
  {
  }

  lemma NamedAmong(st: Objects, p: Interval, e: Evidence, g: Gap)
    requires Analysable(st, p, e) && g.candidateId != ""
    ensures g in ReportOn(st, p, e).coverage.gaps <==> g in CandidateGaps(st, p, e)
  {
    hide Analysable, Exact, FirstParentSpine, FindingsOf, Certified, UnownedFrom, Owned, GapBelow, CandidateGaps;
    hide Leaves;
    hide PushGapsFrom, FirstGaps, SkippedOf, KeptOf;
    AnalysableParts(st, p, e);
    FindingsAre(st, p, e);
    var f, r := FindingsOf(st, p, e), ReportOn(st, p, e);
    FilledMembers(p, f.gaps, r.coverage.gaps, g);
    forall h | h in f.gaps && h.candidateId != "" ensures h in CandidateGaps(st, p, e) && Fill(p)(h) == h {
      FirstGapsUnnamed(p, e, h);
      if h in PushGapsFrom(st, p, SkippedOf(st, p, e), 0) {
        PushGapsUnnamed(st, p, SkippedOf(st, p, e), h);
      }
      CandidateGapsExactly(st, p, e, h);
      var i: nat :| i < |e.candidates| && Leaves(st, p, e, KeptOf(st, p, e), i, h);
      LeftGapIsNamed(st, p, e, KeptOf(st, p, e), i, h);
    }
    if g in CandidateGaps(st, p, e) {
      assert g in f.gaps;
    }
  }

  /** The gaps that name candidates are exactly those that the candidates leave: a conflict for one
      that shares its ID or terminal or that collides, the refusal of its proof otherwise, and
      `terminal_outside_spine` for one off the spine that came through no merge. */
  lemma GapsExactly(st: Objects, p: Interval, e: Evidence)
    requires Analysable(st, p, e)
    ensures var r := ReportOn(st, p, e);
      forall g: Gap :: g.candidateId != "" ==>
        (g in r.coverage.gaps <==>
         exists i: nat :: i < |e.candidates| && Leaves(st, p, e, r.landings, i, g))
    ensures forall g, i: nat :: i < |e.candidates| && Leaves(st, p, e, ReportOn(st, p, e).landings, i, g) ==>
              g.candidateId == e.candidates[i].id != ""
  {
    hide Analysable, Exact, FirstParentSpine, FindingsOf, Certified, UnownedFrom, Owned, GapBelow, CandidateGaps;
    hide Leaves;
    hide KeptOf;
    AnalysableParts(st, p, e);
    FindingsAre(st, p, e);
    var r := ReportOn(st, p, e);
    forall g: Gap, i: nat | i < |e.candidates|
      ensures Leaves(st, p, e, KeptOf(st, p, e), i, g) <==> Leaves(st, p, e, r.landings, i, g)
      ensures Leaves(st, p, e, r.landings, i, g) ==> g.candidateId == e.candidates[i].id != ""
    {
      LeavesIgnoresOrder(st, p, e, KeptOf(st, p, e), r.landings, i, g);
      if Leaves(st, p, e, r.landings, i, g) {
        LeftGapIsNamed(st, p, e, r.landings, i, g);
      }
    }
    forall g: Gap | g.candidateId != ""
      ensures g in r.coverage.gaps <==>
              exists i: nat :: i < |e.candidates| && Leaves(st, p, e, r.landings, i, g)
    {
      NamedAmong(st, p, e, g);
      CandidateGapsExactly(st, p, e, g);
    }
  }

  /** A candidate is named in a conflict exactly when it shares its ID or its nonempty terminal with
      another, or is provable and collides. */
  lemma ConflictsExactly(st: Objects, p: Interval, e: Evidence, i: nat)
    requires Analysable(st, p, e) && i < |e.candidates|
    ensures (exists g :: g in ReportOn(st, p, e).coverage.gaps && g.candidateId == e.candidates[i].id
                         && g.reason == "candidate_conflict") <==>
            !Alone(e.candidates, i) || (Provable(st, p, e, i) && Collides(st, p, e, i))
  {
    hide Analysable, Exact, FirstParentSpine, Alone, UpTo, Collides, ReportOn, CameThrough, ProvenOutside;
    AnalysableParts(st, p, e);
    GapsExactly(st, p, e);
    var c, r := e.candidates[i], ReportOn(st, p, e);
    if !Alone(e.candidates, i) {
      var g := Gap(c.id, c.terminal, "candidate_conflict", UpTo(p, c, "candidate_conflict"));
      assert Leaves(st, p, e, r.landings, i, g);
    } else {
      if Provable(st, p, e, i) && Collides(st, p, e, i) {
        var g := Gap(c.id, c.terminal, "candidate_conflict", Span(Proof(st, p, e, i).landing.before, c.terminal));
        assert Leaves(st, p, e, r.landings, i, g);
      }
      forall g: Gap | g in r.coverage.gaps && g.candidateId == c.id && g.reason == "candidate_conflict"
        ensures Provable(st, p, e, i) && Collides(st, p, e, i)
      {
        var j: nat :| j < |e.candidates| && Leaves(st, p, e, r.landings, j, g);
        AloneIds(e.candidates, i, j);
        ProofNeverConflicts(st, p, c, e.capabilities);
      }
    }
  }

  lemma AloneIds(cs: seq<Candidate>, i: nat, j: nat)
    requires i < |cs| && j < |cs| && Alone(cs, i) && cs[j].id == cs[i].id
    ensures i == j
  {
  }

  // ----- pushes in the report -----

  /** On a full inventory the early gaps are the report's gaps that name candidates. */
  lemma EarlyGapsNamed(st: Objects, p: Interval, e: Evidence, g: Gap)
    requires Analysable(st, p, e) && e.inventory.supported && e.inventory.complete
    ensures g in EarlyGaps(st, p, e) <==> g in ReportOn(st, p, e).coverage.gaps && g.candidateId != ""
  {
    hide *;
    AnalysableParts(st, p, e);
    EarlyGapsAre(st, p, e);
    FirstGapsNameInventory(p, e);
    if g in CandidateGaps(st, p, e) {
      NamedKept(st, p, e, g);
    }
    if g.candidateId != "" {
      NamedAmong(st, p, e, g);
    }
  }

  /** A gap blocks a position exactly on a partial inventory or where a candidate's gap covers it. */
  lemma BlockedExactly(st: Objects, p: Interval, e: Evidence, k: int)
    requires Analysable(st, p, e) && 0 <= k < |p.spine|
    ensures p.spine[k] in Blocked(p, EarlyGaps(st, p, e)) <==>
            || !(e.inventory.supported && e.inventory.complete)
            || exists g :: g in ReportOn(st, p, e).coverage.gaps && g.candidateId != "" && Covers(p, g.span, k)
  {
    hide *;
    AnalysableParts(st, p, e);
    SpineDistinct(st.graph, p);
    var gaps := EarlyGaps(st, p, e);
    BlockedAt(p, gaps, k);
    if e.inventory.supported && e.inventory.complete {
      forall g ensures g in gaps <==> g in ReportOn(st, p, e).coverage.gaps && g.candidateId != "" {
        EarlyGapsNamed(st, p, e, g);
      }
      BlocksByMember(p, gaps, k);
    } else {
      EarlyGapsAre(st, p, e);
      FirstGapIsWhole(p, e);
      assert gaps[0] == FirstGaps(p, e.inventory)[0];
      WholeGapBlocks(st.graph, p, gaps, 0, k);
    }
  }

  lemma FirstGapIsWhole(p: Interval, e: Evidence)
    requires p.query.gaps == [] && !(e.inventory.supported && e.inventory.complete)
    ensures FirstGaps(p, e.inventory) != [] && Effective(p, FirstGaps(p, e.inventory)[0].span) == FullSpan(p)
  {
  }

  lemma ExplainedExactly(st: Objects, p: Interval, e: Evidence, k: int)
    requires Analysable(st, p, e) && 0 <= k < |p.spine|
    ensures p.spine[k] !in SkippedOf(st, p, e) <==> Unexplained(p, e, ReportOn(st, p, e), k)
  {
    hide Analysable, ReportOn, KeptOf, Covers, Blocked;
    ReportLists(st, p, e);
    BlockedExactly(st, p, e, k);
    MembersOfPermutation(ReportOn(st, p, e).landings, KeptOf(st, p, e));
  }

  lemma BlocksByMember(p: Interval, gaps: seq<Gap>, k: int)
    ensures Blocks(p, gaps, k) <==> exists g :: g in gaps && Covers(p, g.span, k)
  {
    hide Covers;
    if Blocks(p, gaps, k) {
      var m :| 0 <= m < |gaps| && Covers(p, gaps[m].span, k);
      assert gaps[m] in gaps;
    }
  }

  lemma PushStepExactly(st: Objects, p: Interval, skipped: set<Id>, k: nat)
    requires k < |p.spine|
    ensures forall d :: d in PushStep(st, p, skipped, k) <==>
              p.spine[k] !in skipped && PushOf(st, p, k).gap.reason == "" && d == PushOf(st, p, k).push
  {
    hide PushAt;
  }

  /** The pushes are exactly those of the unexplained positions that the objects prove. */
  lemma PushedExactly(st: Objects, p: Interval, e: Evidence)
    requires Analysable(st, p, e)
    ensures var r := ReportOn(st, p, e);
      forall d :: d in r.directPushes <==>
        exists k :: 0 <= k < |p.spine| && Unexplained(p, e, r, k)
          && PushOf(st, p, k).gap.reason == "" && d == PushOf(st, p, k).push
  {
    hide *;
    ReportPushes(st, p, e);
    var skipped, r := SkippedOf(st, p, e), ReportOn(st, p, e);
    forall d ensures d in r.directPushes <==>
                     exists k :: 0 <= k < |p.spine| && Unexplained(p, e, r, k)
                       && PushOf(st, p, k).gap.reason == "" && d == PushOf(st, p, k).push
    {
      PushesExactly(st, p, skipped, 0, d);
      forall k | 0 <= k < |p.spine|
        ensures d in PushStep(st, p, skipped, k) <==>
                Unexplained(p, e, r, k) && PushOf(st, p, k).gap.reason == "" && d == PushOf(st, p, k).push
      {
        ExplainedExactly(st, p, e, k);
        PushStepExactly(st, p, skipped, k);
      }
    }
  }

  lemma ReportPushes(st: Objects, p: Interval, e: Evidence)
    requires Analysable(st, p, e)
    ensures ReportOn(st, p, e).directPushes == PushesFrom(st, p, SkippedOf(st, p, e), 0)
    ensures multiset(ReportOn(st, p, e).coverage.gaps) ==
            multiset(Map(EarlyGaps(st, p, e) + PushGapsFrom(st, p, SkippedOf(st, p, e), 0), Fill(p)))
  {
    hide Analysable, Exact, FirstParentSpine, FindingsOf, Certified, UnownedFrom, Owned, GapBelow, EarlyGaps;
    hide KeptOf, PushGapsFrom, PushesFrom, SkippedOf;
    AnalysableParts(st, p, e);
    FindingsAre(st, p, e);
  }

  lemma GapStepExactly(st: Objects, p: Interval, skipped: set<Id>, k: nat)
    requires k < |p.spine| && FirstParentSpine(st.graph, p)
    ensures forall g :: g in GapStep(st, p, skipped, k) <==>
              p.spine[k] !in skipped && PushOf(st, p, k).gap.reason != ""
              && g == PushOf(st, p, k).gap.(span := Span(Prev(p, k), p.spine[k]))
    ensures forall g :: g in GapStep(st, p, skipped, k) ==> Fill(p)(g) == g && g.candidateId == ""
  {
    hide PushAt;
    PushGapNames(st, p, k);
    assert p.spine[k] != Prev(p, k);
    assert k > 0 && p.spine[k] == "" ==> p.spine[k] != p.query.bounds.base;
  }

  /** The gap that stands for a partial inventory. */
  predicate StandsForInventory(p: Interval, e: Evidence, g: Gap) {
    var i := e.inventory;
    && !(i.supported && i.complete)
    && g == Gap("", i.nextCommit, if i.reason == "" then "inventory_unknown" else i.reason,
                Span(p.query.bounds.base, p.query.bounds.head))
  }

  lemma FilledFirstGaps(p: Interval, e: Evidence, g: Gap)
    requires p.query.gaps == []
    ensures StandsForInventory(p, e, g) <==> exists h :: h in FirstGaps(p, e.inventory) && g == Fill(p)(h)
  {
    FirstGapsNameInventory(p, e);
    var i := e.inventory;
    if StandsForInventory(p, e, g) {
      assert FirstGaps(p, i)[0] in FirstGaps(p, i);
    }
  }

  lemma NamedKept(st: Objects, p: Interval, e: Evidence, h: Gap)
    requires FirstParentSpine(st.graph, p) && p.query.bounds.head != "" && Known(e.candidates) && Exact(st)
    requires h in CandidateGaps(st, p, e)
    ensures h.candidateId != "" && Fill(p)(h) == h
  {
    hide CandidateGaps, Leaves, KeptOf, Fill, FirstParentSpine, Exact;
    CandidateGapsExactly(st, p, e, h);
    var i: nat :| i < |e.candidates| && Leaves(st, p, e, KeptOf(st, p, e), i, h);
    LeftGapIsNamed(st, p, e, KeptOf(st, p, e), i, h);
  }

  /** The gaps that name no candidate are that of a partial inventory, and one for each unexplained
      position that is not provably a push. */
  lemma MissedExactly(st: Objects, p: Interval, e: Evidence)
    requires Analysable(st, p, e)
    ensures var r := ReportOn(st, p, e);
      forall g: Gap :: g.candidateId == "" ==>
        (g in r.coverage.gaps <==>
         || StandsForInventory(p, e, g)
         || exists k :: 0 <= k < |p.spine| && Unexplained(p, e, r, k) && PushOf(st, p, k).gap.reason != ""
                 && g == PushOf(st, p, k).gap.(span := Span(Prev(p, k), p.spine[k])))
  {
    hide *;
    AnalysableParts(st, p, e);
    ReportPushes(st, p, e);
    var skipped, r := SkippedOf(st, p, e), ReportOn(st, p, e);
    forall g: Gap | g.candidateId == ""
      ensures g in r.coverage.gaps <==>
              || StandsForInventory(p, e, g)
              || exists k :: 0 <= k < |p.spine| && Unexplained(p, e, r, k) && PushOf(st, p, k).gap.reason != ""
                      && g == PushOf(st, p, k).gap.(span := Span(Prev(p, k), p.spine[k]))
    {
      UnnamedMembers(st, p, e, g);
      forall k | 0 <= k < |p.spine|
        ensures g in GapStep(st, p, skipped, k) <==>
                Unexplained(p, e, r, k) && PushOf(st, p, k).gap.reason != ""
                && g == PushOf(st, p, k).gap.(span := Span(Prev(p, k), p.spine[k]))
      {
        ExplainedExactly(st, p, e, k);
        GapStepExactly(st, p, skipped, k);
      }
    }
  }

  lemma EarlyGapsAre(st: Objects, p: Interval, e: Evidence)
    ensures EarlyGaps(st, p, e) == FirstGaps(p, e.inventory) + CandidateGaps(st, p, e)
  {
  }

  lemma UnnamedMembers(st: Objects, p: Interval, e: Evidence, g: Gap)
    requires Analysable(st, p, e) && g.candidateId == ""
    ensures g in ReportOn(st, p, e).coverage.gaps <==>
            || StandsForInventory(p, e, g)
            || exists k :: 0 <= k < |p.spine| && g in GapStep(st, p, SkippedOf(st, p, e), k)
  {
    hide *;
    EarlyGapsAre(st, p, e);
    AnalysableParts(st, p, e);
    ReportPushes(st, p, e);
    var first, named, pushed := FirstGaps(p, e.inventory), CandidateGaps(st, p, e),
        PushGapsFrom(st, p, SkippedOf(st, p, e), 0);
    FilledMembers(p, EarlyGaps(st, p, e) + pushed, ReportOn(st, p, e).coverage.gaps, g);
    FilledFirstGaps(p, e, g);
    PushGapsExactly(st, p, SkippedOf(st, p, e), 0, g);
    forall h | h in named ensures g != Fill(p)(h) {
      NamedKept(st, p, e, h);
    }
    forall h | h in pushed ensures Fill(p)(h) == h {
      PushGapsExactly(st, p, SkippedOf(st, p, e), 0, h);
      var k :| 0 <= k < |p.spine| && h in GapStep(st, p, SkippedOf(st, p, e), k);
      GapStepExactly(st, p, SkippedOf(st, p, e), k);
    }
  }

  // ----- the order of the lists -----

  /** The first field in which the gaps differ decides. */
  predicate GapPrecedes(a: Gap, b: Gap) {
    if a.candidateId != b.candidateId then Below(a.candidateId, b.candidateId)
    else if a.reason != b.reason then Below(a.reason, b.reason)
    else if a.objectId != b.objectId then Below(a.objectId, b.objectId)
    else if a.span.before != b.span.before then Below(a.span.before, b.span.before)
    else Below(a.span.through, b.span.through)
  }

  lemma GapPrecedesExactly(a: Gap, b: Gap)
    ensures GapBelow(a, b) <==> GapPrecedes(a, b)
  {
    hide Below;
    var x, y := GapKey(a), GapKey(b);
    assert x[1..] == [a.reason, a.objectId, a.span.before, a.span.through];
    assert y[1..] == [b.reason, b.objectId, b.span.before, b.span.through];
    assert x[2..] == x[1..][1..] == [a.objectId, a.span.before, a.span.through];
    assert y[2..] == y[1..][1..] == [b.objectId, b.span.before, b.span.through];
    assert x[3..] == x[2..][1..] == [a.span.before, a.span.through];
    assert y[3..] == y[2..][1..] == [b.span.before, b.span.through];
    assert x[4..] == x[3..][1..] == [a.span.through] && y[4..] == y[3..][1..] == [b.span.through];
    assert x[4..][1..] == [] && y[4..][1..] == [];
    KeyStep(x, y);
    KeyStep(x[1..], y[1..]);
    KeyStep(x[2..], y[2..]);
    KeyStep(x[3..], y[3..]);
    KeyStep(x[4..], y[4..]);
    BelowReflexive(a.span.through);
  }

  lemma KeyStep(x: seq<string>, y: seq<string>)
    requires x != [] && y != []
    ensures KeyBelow(x, y) <==> if x[0] == y[0] then KeyBelow(x[1..], y[1..]) else Below(x[0], y[0])
    ensures KeyBelow([], y)
  {
  }

  predicate Earlier(p: Interval, a: Id, b: Id) {
    Position(p.spine, a) < Position(p.spine, b)
  }

  lemma {:induction false} UnownedOrdered(p: Interval, owned: set<Id>, n: nat)
    requires n <= |p.spine| && Distinct(p.spine)
    ensures var ids := UnownedFrom(p, owned, n);
      && (forall id :: id in ids ==> id in p.spine[n..])
      && (forall j, k :: 0 <= j < k < |ids| ==> Earlier(p, ids[j], ids[k]))
    decreases |p.spine| - n
  {
    if n < |p.spine| {
      UnownedOrdered(p, owned, n + 1);
      var rest := UnownedFrom(p, owned, n + 1);
      PositionOf(p, n);
      assert p.spine[n..][0] == p.spine[n];
      forall k | 0 <= k < |rest| ensures Earlier(p, p.spine[n], rest[k]) && rest[k] in p.spine[n..] {
        assert rest[k] in rest;
        PositionAfter(p, n, rest[k]);
      }
      var ids := UnownedFrom(p, owned, n);
      assert ids == rest || (ids == [p.spine[n]] + rest);
    }
  }

  lemma PositionAfter(p: Interval, n: nat, id: Id)
    requires n < |p.spine| && Distinct(p.spine) && id in p.spine[n + 1..]
    ensures Position(p.spine, id) > n && id in p.spine[n..]
  {
    var k :| n < k < |p.spine| && p.spine[k] == id;
    PositionOf(p, k);
    assert p.spine[n..][k - n] == id;
  }

  lemma {:induction false} PushesOrdered(st: Objects, p: Interval, skipped: set<Id>, n: nat)
    requires n <= |p.spine| && Distinct(p.spine)
    ensures var all := PushesFrom(st, p, skipped, n);
      && (forall d :: d in all ==> d.terminal in p.spine[n..])
      && (forall j, k :: 0 <= j < k < |all| ==> Earlier(p, all[j].terminal, all[k].terminal))
    decreases |p.spine| - n
  {
    hide PushStep;
    if n < |p.spine| {
      PushesOrdered(st, p, skipped, n + 1);
      PushStepHere(st, p, skipped, n);
      var first, rest := PushStep(st, p, skipped, n), PushesFrom(st, p, skipped, n + 1);
      PositionOf(p, n);
      assert p.spine[n..][0] == p.spine[n];
      forall k | 0 <= k < |rest|
        ensures Earlier(p, p.spine[n], rest[k].terminal) && rest[k].terminal in p.spine[n..]
      {
        assert rest[k] in rest;
        PositionAfter(p, n, rest[k].terminal);
      }
      assert first != [] ==> first[0] in first && first == [first[0]];
    }
  }

  lemma PushStepHere(st: Objects, p: Interval, skipped: set<Id>, n: nat)
    requires n < |p.spine|
    ensures |PushStep(st, p, skipped, n)| <= 1
    ensures forall d :: d in PushStep(st, p, skipped, n) ==> d.terminal == p.spine[n]
  {
  }

  predicate IntegratedBelow(a: Integrated, b: Integrated) {
    Below(a.candidateId, b.candidateId)
  }

  lemma IntegratedOrdered(st: Objects, p: Interval, e: Evidence)
    ensures SortedBy(FlatMap(DeferredOf(p, e), IntegratedBy(st, p, e.capabilities, KeptOf(st, p, e))), IntegratedBelow)
  {
    hide IntegratedThrough, Contested, CountsOf, KeptOf, Below, LeavesSpine;
    var order := Sort(e.candidates, ById);
    ByIdIsPreorder();
    SortSorted(e.candidates, ById);
    FlatMapSorted(order, DeferredBy(p, CountsOf(e.candidates)), ById, ById);
    FlatMapSorted(DeferredOf(p, e), IntegratedBy(st, p, e.capabilities, KeptOf(st, p, e)), ById, IntegratedBelow);
  }

  /** Landings, pushes and unattributed commits are listed in the order of the spine, integrated
      candidates by their IDs, and gaps by candidate, reason, object and span. */
  lemma ReportOrdered(st: Objects, p: Interval, e: Evidence)
    requires Analysable(st, p, e)
    ensures var r := ReportOn(st, p, e);
      && (forall j, k :: 0 <= j < k < |r.landings| ==>
            Position(p.spine, r.landings[j].terminal) <= Position(p.spine, r.landings[k].terminal))
      && (forall j, k :: 0 <= j < k < |r.directPushes| ==>
            Earlier(p, r.directPushes[j].terminal, r.directPushes[k].terminal))
      && (forall j, k :: 0 <= j < k < |r.unattributed| ==> Earlier(p, r.unattributed[j], r.unattributed[k]))
      && (forall j, k :: 0 <= j < k < |r.integrated| ==>
            Below(r.integrated[j].candidateId, r.integrated[k].candidateId))
      && (forall j, k :: 0 <= j < k < |r.coverage.gaps| ==> GapPrecedes(r.coverage.gaps[j], r.coverage.gaps[k]))
  {
    hide Analysable, Exact, FirstParentSpine, FindingsOf, Certified, UnownedFrom, Owned, GapBelow, EarlyGaps, Below;
    hide KeptOf, PushGapsFrom, PushesFrom, SkippedOf, DeferredOf, IntegratedBy, GapPrecedes, Fill, Earlier;
    AnalysableParts(st, p, e);
    FindingsAre(st, p, e);
    var f, r := FindingsOf(st, p, e), ReportOn(st, p, e);
    SpineDistinct(st.graph, p);
    PushesOrdered(st, p, SkippedOf(st, p, e), 0);
    UnownedOrdered(p, Finishing.Owned(f), 0);
    assert r.unattributed == UnownedFrom(p, Finishing.Owned(f), 0);
    PositionOrder(p);
    SortSorted(f.landings, ByPosition(p));
    GapOrder();
    SortSorted(Map(f.gaps, Fill(p)), GapBelow);
    IntegratedOrdered(st, p, e);
    assert forall j, k :: 0 <= j < k < |r.integrated| ==> IntegratedBelow(r.integrated[j], r.integrated[k]);
    forall j, k | 0 <= j < k < |r.coverage.gaps| ensures GapPrecedes(r.coverage.gaps[j], r.coverage.gaps[k]) {
      GapPrecedesExactly(r.coverage.gaps[j], r.coverage.gaps[k]);
    }
  }

  // ----- reports on what could not be read -----

  /** On a repository that cannot be opened, or whose shallow check fails, nothing is attributed: one gap
      over the whole interval says why, beside that of a partial inventory. */
  lemma UnreadReport(st: Objects, p: Interval, e: Evidence)
    requires CompleteInterval(st.graph, p) && History(st.graph)
    requires !st.opens || CheckShallow(st, p.query.bounds).Err?
    ensures var r := ReportOn(st, p, e);
      var reason := if st.opens && CheckShallow(st, p.query.bounds) == Err(ReadError.Shallow) then "shallow_boundary"
                    else "objects_unavailable";
      && r.landings == [] && r.integrated == [] && r.directPushes == []
      && !r.coverage.complete && r.coverage.certifiedHead == p.query.bounds.base
      && forall g :: g in r.coverage.gaps <==>
           StandsForInventory(p, e, g) || g == Gap("", "", reason, Span(p.query.bounds.base, p.query.bounds.head))
  {
    hide *;
    CompleteHasSpine(st.graph, p);
    ShallowCheckExactly(st, p.query.bounds);
    var reason := if st.opens && CheckShallow(st, p.query.bounds) == Err(ReadError.Shallow) then "shallow_boundary"
                  else "objects_unavailable";
    var f, r := Unresolved(FirstGaps(p, e.inventory), reason), ReportOn(st, p, e);
    var last := Gap("", "", reason, NO_SPAN);
    FilledLast(p, last);
    UnreadFindings(st, p, e, reason);
    UnreadLists(st, p, e, reason);
    forall g ensures g in r.coverage.gaps <==> StandsForInventory(p, e, g) || g == Fill(p)(last) {
      FilledMembers(p, f.gaps, r.coverage.gaps, g);
      FilledFirstGaps(p, e, g);
    }
  }

  lemma UnreadLists(st: Objects, p: Interval, e: Evidence, reason: string)
    requires CompleteInterval(st.graph, p) && History(st.graph)
    requires FindingsOf(st, p, e) == Unresolved(FirstGaps(p, e.inventory), reason)
    ensures var r, gaps := ReportOn(st, p, e), FirstGaps(p, e.inventory) + [Gap("", "", reason, NO_SPAN)];
      && r.landings == [] && r.integrated == [] && r.directPushes == []
      && !r.coverage.complete && r.coverage.certifiedHead == p.query.bounds.base
      && Unresolved(FirstGaps(p, e.inventory), reason).gaps == gaps
      && multiset(r.coverage.gaps) == multiset(Map(gaps, Fill(p)))
  {
    hide CompleteInterval, CheckShallow, FirstGaps, Certified, UnownedFrom, Finishing.Owned, GapBelow, Fill, FindingsOf;
    CompleteHasSpine(st.graph, p);
    NothingWhole(st.graph, p, Unresolved(FirstGaps(p, e.inventory), reason));
  }

  lemma UnreadFindings(st: Objects, p: Interval, e: Evidence, reason: string)
    requires if !st.opens then reason == "objects_unavailable"
             else CheckShallow(st, p.query.bounds).Err? && reason == GraphReason(CheckShallow(st, p.query.bounds).error)
    ensures FindingsOf(st, p, e) == Unresolved(FirstGaps(p, e.inventory), reason)
  {
    hide FirstGaps, CheckShallow, ResolveAll;
  }

  lemma FilledLast(p: Interval, g: Gap)
    requires g.span == NO_SPAN
    ensures Fill(p)(g) == g.(span := Span(p.query.bounds.base, p.query.bounds.head))
  {
  }

  /** A gap over the whole interval leaves nothing to certify. */
  lemma NothingWhole(g: Ancestry, p: Interval, f: Findings)
    requires FirstParentSpine(g, p) && f.gaps != [] && f.gaps[|f.gaps| - 1].span == NO_SPAN
    ensures Certified(p, f) == 0
  {
    hide FirstParentSpine, Blocks;
    SpineDistinct(g, p);
    CertifiedEnds(p, f);
    if |p.spine| > 0 {
      WholeGapBlocks(g, p, f.gaps, |f.gaps| - 1, 0);
      BlockedAt(p, f.gaps, 0);
      assert !Certifiable(p, Finishing.Owned(f), Blocked(p, f.gaps), 0);
    }
  }

  /** The report on an interval that could not be prepared repeats the reasons for that and nothing
      else. */
  lemma UnpreparedReport(st: Objects, p: Interval, e: Evidence)
    requires !p.query.complete
    ensures var r := ReportOn(st, p, e);
      && r.landings == [] && r.integrated == [] && r.directPushes == [] && r.unattributed == []
      && !r.coverage.complete && r.coverage.certifiedHead == p.query.bounds.base
      && |r.coverage.gaps| == |p.query.gaps|
      && forall k :: 0 <= k < |p.query.gaps| ==>
           var g := p.query.gaps[k];
           r.coverage.gaps[k] ==
           if g.span == NO_SPAN then g.(span := Span(p.query.bounds.base, p.query.bounds.head)) else g
  {
  }
}
