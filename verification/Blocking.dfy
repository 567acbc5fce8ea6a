/** Gaps as stretches of the spine that must not be certified. */
module Blocking {
  import opened Model
  import opened Graph
  import opened Intervals
  import opened Ordering

  /** `candidateGap`: an unproven candidate blocks from the base, up to its terminal when that
      is known to be on the spine. */
  function CandidateGap(p: Interval, c: Candidate, g: Gap): Gap {
    if g.reason != BUDGET_EXHAUSTED && c.terminalEvidence != "" && c.terminal in p.spine
    then g.(span := Span(p.query.bounds.base, c.terminal))
    else g.(span := FullSpan(p))
  }

  /** The index a Go map gives an end of a span: an unknown ID would read as zero. */
  function Index(p: Interval, id: Id): int {
    if id in p.spine then Position(p.spine, id)
    else if id == p.query.bounds.base then -1
    else 0
  }

  predicate KnownEnd(p: Interval, id: Id) {
    id in p.spine || id == p.query.bounds.base
  }

  /** Both ends are spine positions or the base, so the zero default is never read. */
  predicate KnownSpan(p: Interval, s: Span) {
    s == NO_SPAN || (KnownEnd(p, s.before) && KnownEnd(p, s.through))
  }

  function Effective(p: Interval, s: Span): Span {
    if s == NO_SPAN then FullSpan(p) else s
  }

  /** The span blocks spine position `i`. */
  predicate Covers(p: Interval, s: Span, i: int) {
    Index(p, Effective(p, s).before) < i <= Index(p, Effective(p, s).through)
  }

  predicate Blocks(p: Interval, gaps: seq<Gap>, i: int) {
    exists k :: 0 <= k < |gaps| && Covers(p, gaps[k].span, i)
  }

  /** `blockedSpine`. */
  function Blocked(p: Interval, gaps: seq<Gap>): set<Id> {
    set i | 0 <= i < |p.spine| && Blocks(p, gaps, i) :: p.spine[i]
  }

  predicate KnownGaps(p: Interval, gaps: seq<Gap>) {
    forall k :: 0 <= k < |gaps| ==> KnownSpan(p, gaps[k].span)
  }

  /** The ends of the interval itself are known. */
  predicate Anchored(p: Interval) {
    p.query.bounds.head in p.spine || (p.spine == [] && p.query.bounds.head == p.query.bounds.base)
  }

  lemma SpineIsAnchored(g: Ancestry, p: Interval)
    requires FirstParentSpine(g, p)
    ensures Anchored(p)
  {
  }

  /** A span from the commit before position `j` through position `k` covers those positions and no
      other. */
  lemma SpanCovers(g: Ancestry, p: Interval, j: int, k: int, i: int)
    requires FirstParentSpine(g, p) && 0 <= j <= k < |p.spine| && 0 <= i < |p.spine|
    requires Span(Prev(p, j), p.spine[k]) != NO_SPAN
    ensures Covers(p, Span(Prev(p, j), p.spine[k]), i) <==> j <= i <= k
  {
    PositionOf(p, k);
    if j > 0 {
      PositionOf(p, j - 1);
    }
  }

  /** The gap of a refused candidate blocks exactly the positions up to its terminal, when that is
      evidenced and on the spine and the budget did not end its proof; otherwise it blocks every
      position.  Nothing else of the gap changes. */
  lemma CandidateGapCovers(g: Ancestry, p: Interval, c: Candidate, gap: Gap, i: int)
    requires FirstParentSpine(g, p) && 0 <= i < |p.spine|
    ensures var r := CandidateGap(p, c, gap);
      && r.candidateId == gap.candidateId && r.objectId == gap.objectId && r.reason == gap.reason
      && (Covers(p, r.span, i) <==>
          if gap.reason != "input_budget_exhausted" && c.terminalEvidence != "" && c.terminal in p.spine
          then i <= Position(p.spine, c.terminal) else true)
  {
    SpineIsAnchored(g, p);
    PositionOf(p, |p.spine| - 1);
  }

  /** The position table holds the base and every spine commit, and nothing else. */
  ghost predicate PositionTable(p: Interval, positions: map<Id, int>) {
    && (forall id :: id in positions <==> KnownEnd(p, id))
    && (forall id :: id in positions ==> positions[id] == Index(p, id))
  }

  /** The table after `i` spine commits. */
  ghost predicate TableUpTo(p: Interval, positions: map<Id, int>, i: int)
    requires 0 <= i <= |p.spine|
  {
    && p.query.bounds.base in positions
    && (forall k :: 0 <= k < i ==> p.spine[k] in positions && positions[p.spine[k]] == k)
    && (forall id :: id in positions ==> (id == p.query.bounds.base && positions[id] == -1)
                                         || (0 <= positions[id] < i && p.spine[positions[id]] == id))
  }

  lemma TableStep(p: Interval, positions: map<Id, int>, i: int)
    requires Distinct(p.spine) && 0 <= i < |p.spine| && TableUpTo(p, positions, i)
    ensures TableUpTo(p, positions[p.spine[i] := i], i + 1)
  {
  }

  lemma TableDone(p: Interval, positions: map<Id, int>)
    requires Distinct(p.spine) && TableUpTo(p, positions, |p.spine|)
    ensures PositionTable(p, positions)
  {
    forall id ensures id in positions <==> KnownEnd(p, id) {
      if id in p.spine {
        PositionOf(p, Position(p.spine, id));
      }
    }
    forall id | id in positions ensures positions[id] == Index(p, id) {
      if id in p.spine {
        var k := Position(p.spine, id);
        assert p.spine[k] == id;
      }
    }
  }

  method Positions(p: Interval) returns (positions: map<Id, int>)
    requires Distinct(p.spine)
    ensures PositionTable(p, positions)
  {
    hide TableUpTo, PositionTable;
    positions := map[p.query.bounds.base := -1];
    assert TableUpTo(p, positions, 0) by { TableStart(p); }
    for i := 0 to |p.spine|
      invariant TableUpTo(p, positions, i)
    {
      TableStep(p, positions, i);
      positions := positions[p.spine[i] := i];
    }
    TableDone(p, positions);
  }

  lemma TableStart(p: Interval)
    ensures TableUpTo(p, map[p.query.bounds.base := -1], 0)
  {
  }

  /** Everything one span blocks. */
  function CoveredBy(p: Interval, s: Span): set<Id> {
    set k | 0 <= k < |p.spine| && Covers(p, s, k) :: p.spine[k]
  }

  /** The spine commits at positions `first` up to, not including, `end`. */
  function Slots(p: Interval, first: int, end: int): set<Id> {
    set k | 0 <= k < |p.spine| && first <= k < end :: p.spine[k]
  }

  lemma SlotsGrow(p: Interval, first: int, end: int)
    requires 0 <= first <= end < |p.spine|
    ensures Slots(p, first, end + 1) == Slots(p, first, end) + {p.spine[end]}
  {
  }

  lemma NoSlots(p: Interval, first: int, last: int)
    ensures Slots(p, first, first) == {}
    ensures last < first ==> Slots(p, first, last + 1) == {}
  {
  }

  lemma SpanSlots(p: Interval, positions: map<Id, int>, s: Span)
    requires Anchored(p) && KnownSpan(p, s) && PositionTable(p, positions)
    ensures Effective(p, s).before in positions && Effective(p, s).through in positions
    ensures var first, last := positions[Effective(p, s).before] + 1, positions[Effective(p, s).through];
            0 <= first && last < |p.spine| && CoveredBy(p, s) == Slots(p, first, last + 1)
  {
  }

  method BlockSpan(p: Interval, positions: map<Id, int>, s: Span) returns (blocked: set<Id>)
    requires Anchored(p) && KnownSpan(p, s) && PositionTable(p, positions)
    ensures blocked == CoveredBy(p, s)
  {
    SpanSlots(p, positions, s);
    hide Effective, CoveredBy, Slots;
    var span := Effective(p, s);
    var first, last := positions[span.before] + 1, positions[span.through];
    blocked := {};
    var i := first;
    NoSlots(p, first, last);
    while i <= last
      invariant 0 <= first <= i && last < |p.spine|
      invariant if first <= last then i <= last + 1 else i == first
      invariant blocked == Slots(p, first, i)
    {
      SlotsGrow(p, first, i);
      blocked := blocked + {p.spine[i]};
      i := i + 1;
    }
  }

  method BlockedSpine(gaps: seq<Gap>, p: Interval) returns (blocked: set<Id>)
    requires Distinct(p.spine) && Anchored(p) && KnownGaps(p, gaps)
    ensures blocked == Blocked(p, gaps)
  {
    hide PositionTable, CoveredBy, Blocked, KnownSpan, Anchored;
    var positions := Positions(p);
    blocked := {};
    assert Blocked(p, []) == {} by { NothingBlocked(p); }
    assert gaps[..0] == [];
    for n := 0 to |gaps|
      invariant blocked == Blocked(p, gaps[..n])
    {
      var more := BlockSpan(p, positions, gaps[n].span);
      BlockedAppend(p, gaps[..n], gaps[n]);
      assert gaps[..n + 1] == gaps[..n] + [gaps[n]];
      blocked := blocked + more;
    }
    assert gaps[..|gaps|] == gaps;
  }

  lemma NothingBlocked(p: Interval)
    ensures Blocked(p, []) == {}
  {
  }

  lemma BlockedAppend(p: Interval, gaps: seq<Gap>, g: Gap)
    ensures Blocked(p, gaps + [g]) == Blocked(p, gaps) + CoveredBy(p, g.span)
  {
    BlocksAppend(p, gaps, [g]);
    forall i ensures Blocks(p, [g], i) <==> Covers(p, g.span, i) {
      assert Blocks(p, [g], i) <==> Covers(p, [g][0].span, i);
    }
  }

  lemma BlocksAppend(p: Interval, a: seq<Gap>, b: seq<Gap>)
    ensures forall i :: Blocks(p, a + b, i) <==> Blocks(p, a, i) || Blocks(p, b, i)
  {
    forall i ensures Blocks(p, a + b, i) <==> Blocks(p, a, i) || Blocks(p, b, i) {
      if Blocks(p, a, i) {
        var k :| 0 <= k < |a| && Covers(p, a[k].span, i);
        assert (a + b)[k] == a[k];
      }
      if Blocks(p, b, i) {
        var k :| 0 <= k < |b| && Covers(p, b[k].span, i);
        assert (a + b)[|a| + k] == b[k];
      }
    }
  }

  /** Which commits are blocked does not depend on the order of the gaps. */
  lemma BlockedIgnoresOrder(p: Interval, a: seq<Gap>, b: seq<Gap>)
    requires multiset(a) == multiset(b)
    ensures Blocked(p, a) == Blocked(p, b)
  {
    MembersOfPermutation(a, b);
    forall i ensures Blocks(p, a, i) <==> Blocks(p, b, i) {
      assert Blocks(p, a, i) <==> exists x :: x in a && Covers(p, x.span, i);
      assert Blocks(p, b, i) <==> exists x :: x in b && Covers(p, x.span, i);
    }
  }

  /** A gap that reaches into a landing's stretch already covers where the stretch starts, so no
      certified prefix can end inside it. */
  ghost predicate Uncut(p: Interval, s: Span, l: Landing) {
    forall i :: Start(p, l) <= i <= Position(p.spine, l.terminal) && Covers(p, s, i) ==> Covers(p, s, Start(p, l))
  }
}
