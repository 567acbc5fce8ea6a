/** Settling every candidate of an interval, then the commits no candidate explains. */
module Origins {
  import opened Model
  import opened Store
  import opened Proofs
  import opened Overlaps
  import opened Blocking
  import opened Direct
  import opened Ordering

  // ----- the answer as a function of the store -----

  /** How many candidates name each terminal and each ID. */
  datatype Counts = Counts(terminals: multiset<Id>, ids: multiset<string>)

  function TerminalOf(c: Candidate): Id {
    c.terminal
  }

  function IdOf(c: Candidate): string {
    c.id
  }

  function CountsOf(cs: seq<Candidate>): Counts {
    Counts(multiset(Map(cs, TerminalOf)), multiset(Map(cs, IdOf)))
  }

  predicate Contested(n: Counts, c: Candidate) {
    (c.terminal != "" && n.terminals[c.terminal] > 1) || n.ids[c.id] > 1
  }

  predicate LeavesSpine(p: Interval, c: Candidate) {
    c.terminal != "" && c.terminalEvidence != "" && c.terminal !in p.spine
  }

  /** What the first pass over the candidates makes of one of them. */
  datatype Fate = Gapped(gap: Gap) | Deferred | Landed(landing: Landing)

  function ContestedGap(p: Interval, c: Candidate): Gap {
    CandidateGap(p, c, Gap(c.id, c.terminal, CONFLICT, NO_SPAN))
  }

  function FateOf(st: Objects, p: Interval, n: Counts, caps: Capabilities, c: Candidate): Fate {
    if Contested(n, c) then Gapped(ContestedGap(p, c))
    else if LeavesSpine(p, c) then Deferred
    else
      var v := ProveAt(st, p, c, caps);
      if v.gap.reason != "" then Gapped(CandidateGap(p, c, v.gap)) else Landed(v.landing)
  }

  function LandedBy(st: Objects, p: Interval, n: Counts, caps: Capabilities): Candidate -> seq<Landing> {
    (c: Candidate) => match FateOf(st, p, n, caps, c) case Landed(l) => [l] case _ => []
  }

  function GappedBy(st: Objects, p: Interval, n: Counts, caps: Capabilities): Candidate -> seq<Gap> {
    (c: Candidate) => match FateOf(st, p, n, caps, c) case Gapped(g) => [g] case _ => []
  }

  function DeferredBy(p: Interval, n: Counts): Candidate -> seq<Candidate> {
    (c: Candidate) => if !Contested(n, c) && LeavesSpine(p, c) then [c] else []
  }

  /** The merge `outer` introduced the terminal and everything that `inner` introduced. */
  predicate Contains(outer: Landing, inner: Landing) {
    && outer.proofs == [MERGE] && inner.terminal in outer.introduced
    && forall id :: id in inner.introduced ==> id in outer.introduced
  }

  /** The only outer landing that contains the inner one, "" if none does, None if two do. */
  function ThroughFrom(outers: seq<Landing>, inner: Landing, i: nat, through: string): Option<string>
    requires i <= |outers|
    decreases |outers| - i
  {
    if i == |outers| then Some(through)
    else if Contains(outers[i], inner) then
      if through != "" then None else ThroughFrom(outers, inner, i + 1, outers[i].candidateId)
    else ThroughFrom(outers, inner, i + 1, through)
  }

  /** The candidate an integrated candidate came through, unless the gap names a reason. */
  datatype Passage = Passage(through: string, gap: Gap)

  function Stranded(c: Candidate, reason: string): Passage {
    Passage("", Gap(c.id, c.terminal, reason, NO_SPAN))
  }

  function PassageOf(c: Candidate, through: Option<string>): Passage {
    if through.None? then Stranded(c, CONFLICT)
    else if through.value == "" then Stranded(c, "terminal_outside_spine")
    else Passage(through.value, NO_GAP)
  }

  function IntegratedThrough(st: Objects, p: Interval, c: Candidate, caps: Capabilities,
                             outers: seq<Landing>): Passage {
    if c.how != Merge && c.how != Unstated then Stranded(c, "terminal_outside_spine")
    else
      var v := ProveAt(st, p, c, caps);
      if v.gap.reason != "" then Passage("", v.gap)
      else PassageOf(c, ThroughFrom(outers, v.landing, 0, ""))
  }

  function IntegratedBy(st: Objects, p: Interval, caps: Capabilities,
                        outers: seq<Landing>): Candidate -> seq<Integrated> {
    (c: Candidate) =>
      var v := IntegratedThrough(st, p, c, caps, outers);
      if v.gap.reason == "" then [Integrated(c.id, v.through)] else []
  }

  function StrandedBy(st: Objects, p: Interval, caps: Capabilities, outers: seq<Landing>): Candidate -> seq<Gap> {
    (c: Candidate) =>
      var v := IntegratedThrough(st, p, c, caps, outers);
      if v.gap.reason == "" then [] else [CandidateGap(p, c, v.gap)]
  }

  function Owners(ls: seq<Landing>): set<Id> {
    set l, id | l in ls && id in l.spine :: id
  }

  /** Everything that candidate and push resolution produces. */
  datatype Findings = Findings(landings: seq<Landing>, integrated: seq<Integrated>, pushes: seq<DirectPush>,
                               gaps: seq<Gap>)

  function ResolveInOrder(st: Objects, p: Interval, n: Counts, caps: Capabilities, order: seq<Candidate>,
                          gaps0: seq<Gap>): Findings {
    var landed := FlatMap(order, LandedBy(st, p, n, caps));
    var deferred := FlatMap(order, DeferredBy(p, n));
    var kept := Survivors(landed, |landed|);
    var gaps := gaps0 + FlatMap(order, GappedBy(st, p, n, caps)) + OverlapGaps(landed, |landed|)
                + FlatMap(deferred, StrandedBy(st, p, caps, kept));
    var skipped := Blocked(p, gaps) + Owners(kept);
    Findings(kept, FlatMap(deferred, IntegratedBy(st, p, caps, kept)),
             PushesFrom(st, p, skipped, 0), gaps + PushGapsFrom(st, p, skipped, 0))
  }

  predicate ById(a: Candidate, b: Candidate) {
    Below(a.id, b.id)
  }

  function ResolveAll(st: Objects, p: Interval, cs: seq<Candidate>, caps: Capabilities, gaps0: seq<Gap>): Findings {
    ResolveInOrder(st, p, CountsOf(cs), caps, Sort(cs, ById), gaps0)
  }

  // ----- the order the candidates arrive in -----

  lemma ByIdIsPreorder()
    ensures TotalPreorder(ById)
  {
    forall x, y ensures ById(x, y) || ById(y, x) { BelowTotal(x.id, y.id); }
    forall x, y, z | ById(x, y) && ById(y, z) ensures ById(x, z) { BelowTransitive(x.id, y.id, z.id); }
  }

  lemma CountsIgnoreOrder(a: seq<Candidate>, b: seq<Candidate>)
    requires multiset(a) == multiset(b)
    ensures CountsOf(a) == CountsOf(b)
  {
    MapPermutation(a, b, TerminalOf);
    MapPermutation(a, b, IdOf);
  }

  function Uncontested(n: Counts): Candidate -> bool {
    (c: Candidate) => !Contested(n, c)
  }

  lemma {:induction false} TwiceInMap(s: seq<Candidate>, i: int, j: int)
    requires 0 <= i < j < |s| && s[i].id == s[j].id
    ensures multiset(Map(s, IdOf))[s[i].id] > 1
  {
    var ids := Map(s, IdOf);
    DistinctCounts(ids);
    assert ids == ids[..j] + [ids[j]] + ids[j + 1..];
    assert ids[..j][i] == ids[i];
    assert ids[i] in multiset(ids[..j]);
  }

  lemma UncontestedIdsUnique(s: seq<Candidate>, x: Candidate, y: Candidate)
    requires x in s && y in s && !Contested(CountsOf(s), x) && x.id == y.id
    ensures x == y
  {
    var i :| 0 <= i < |s| && s[i] == x;
    var j :| 0 <= j < |s| && s[j] == y;
    if i < j {
      TwiceInMap(s, i, j);
    } else if j < i {
      TwiceInMap(s, j, i);
    }
  }

  /** Two ID orders of the same candidates agree on the uncontested ones: their IDs are unique. */
  lemma UncontestedOrder(a: seq<Candidate>, b: seq<Candidate>)
    requires multiset(a) == multiset(b) && SortedBy(a, ById) && SortedBy(b, ById)
    ensures Select(a, Uncontested(CountsOf(a))) == Select(b, Uncontested(CountsOf(a)))
  {
    hide CountsOf, Contested;
    var f := Uncontested(CountsOf(a));
    SelectSorted(a, f, ById);
    SelectSorted(b, f, ById);
    SelectPermutation(a, b, f);
    var s := Select(a, f);
    forall x, y | x in s && y in s && ById(x, y) && ById(y, x) ensures x == y {
      BelowAntisymmetric(x.id, y.id);
      UncontestedIdsUnique(a, x, y);
    }
    SortedPermutationsEqual(s, Select(b, f), ById);
  }

  lemma {:induction false} FlatMapOfSelect<U>(s: seq<Candidate>, p: Candidate -> bool, f: Candidate -> seq<U>)
    requires forall c :: !p(c) ==> f(c) == []
    ensures FlatMap(s, f) == FlatMap(Select(s, p), f)
  {
    if s != [] {
      FlatMapOfSelect(s[1..], p, f);
      var head := if p(s[0]) then [s[0]] else [];
      FlatMapAppend(head, Select(s[1..], p), f);
      if p(s[0]) {
        FlatMapOne(s[0], f);
      }
    }
  }

  lemma ContestedContributeNothing(st: Objects, p: Interval, n: Counts, caps: Capabilities)
    ensures forall c :: !Uncontested(n)(c) ==> LandedBy(st, p, n, caps)(c) == []
    ensures forall c :: !Uncontested(n)(c) ==> DeferredBy(p, n)(c) == []
  {
    hide ProveAt;
  }

  /** Any two ID orders lead to the same landings, integrated candidates and direct pushes, and
      to the same gaps up to their order. */
  lemma OrdersAgree(st: Objects, p: Interval, caps: Capabilities, a: seq<Candidate>, b: seq<Candidate>, gaps0: seq<Gap>)
    requires multiset(a) == multiset(b) && SortedBy(a, ById) && SortedBy(b, ById)
    ensures var x := ResolveInOrder(st, p, CountsOf(a), caps, a, gaps0);
            var y := ResolveInOrder(st, p, CountsOf(a), caps, b, gaps0);
            && x.landings == y.landings && x.integrated == y.integrated && x.pushes == y.pushes
            && multiset(x.gaps) == multiset(y.gaps)
  {
    hide FateOf, IntegratedThrough, Contested, CountsOf, Survivors, OverlapGaps, Blocked, Owners, PushesFrom;
    hide PushGapsFrom, LeavesSpine;
    var n := CountsOf(a);
    UncontestedOrder(a, b);
    ContestedContributeNothing(st, p, n, caps);
    FlatMapOfSelect(a, Uncontested(n), LandedBy(st, p, n, caps));
    FlatMapOfSelect(b, Uncontested(n), LandedBy(st, p, n, caps));
    FlatMapOfSelect(a, Uncontested(n), DeferredBy(p, n));
    FlatMapOfSelect(b, Uncontested(n), DeferredBy(p, n));
    FlatMapPermutation(a, b, GappedBy(st, p, n, caps));
    var landed := FlatMap(a, LandedBy(st, p, n, caps));
    var deferred := FlatMap(a, DeferredBy(p, n));
    var kept := Survivors(landed, |landed|);
    var (ga, gb) := (FlatMap(a, GappedBy(st, p, n, caps)), FlatMap(b, GappedBy(st, p, n, caps)));
    var tail := OverlapGaps(landed, |landed|) + FlatMap(deferred, StrandedBy(st, p, caps, kept));
    assert multiset(gaps0 + ga + tail) == multiset(gaps0 + gb + tail);
    assert gaps0 + ga + OverlapGaps(landed, |landed|) + FlatMap(deferred, StrandedBy(st, p, caps, kept)) ==
        gaps0 + ga + tail;
    assert gaps0 + gb + OverlapGaps(landed, |landed|) + FlatMap(deferred, StrandedBy(st, p, caps, kept)) ==
        gaps0 + gb + tail;
    BlockedIgnoresOrder(p, gaps0 + ga + tail, gaps0 + gb + tail);
  }

  /** Resolution does not depend on the order in which the evidence lists its candidates. */
  lemma EvidenceOrderIrrelevant(st: Objects, p: Interval, caps: Capabilities, one: seq<Candidate>,
                                other: seq<Candidate>, gaps0: seq<Gap>)
    requires multiset(one) == multiset(other)
    ensures var x := ResolveAll(st, p, one, caps, gaps0);
            var y := ResolveAll(st, p, other, caps, gaps0);
            && x.landings == y.landings && x.integrated == y.integrated && x.pushes == y.pushes
            && multiset(x.gaps) == multiset(y.gaps)
  {
    CountsIgnoreOrder(one, other);
    ByIdIsPreorder();
    SortSorted(one, ById);
    SortSorted(other, ById);
    CountsIgnoreOrder(one, Sort(one, ById));
    OrdersAgree(st, p, caps, Sort(one, ById), Sort(other, ById), gaps0);
  }
}
