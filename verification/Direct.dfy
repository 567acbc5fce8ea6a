/** Spine commits that no candidate explains: direct pushes. */
module Direct {
  import opened Model
  import opened Graph
  import opened Store
  import opened View
  import opened Intervals
  import opened Blocking

  datatype Pushed = Pushed(push: DirectPush, gap: Gap)

  const NO_PUSH := DirectPush("", "", [])

  function NoPush(culprit: Id, reason: string): Pushed {
    Pushed(NO_PUSH, Gap("", culprit, reason, NO_SPAN))
  }

  /** The first listed commit that cannot be read. */
  function FirstUnreadable(st: Objects, ids: seq<Id>): Option<(Id, ReadError)> {
    if ids == [] then None
    else
      match Parents(st, ids[0])
      case Err(e) => Some((ids[0], e))
      case Ok(_) => FirstUnreadable(st, ids[1..])
  }

  function PushAt(st: Objects, before: Id, terminal: Id): Pushed {
    match Parents(st, terminal)
    case Err(e) => NoPush(terminal, GraphReason(e))
    case Ok(parents) =>
      if |parents| == 0 && before == "" then Pushed(DirectPush("", terminal, [terminal]), NO_GAP)
      else if |parents| == 0 || parents[0] != before then NoPush(terminal, "topology_unproven")
      else
        match Parents(st, before)
        case Err(e) => NoPush(before, GraphReason(e))
        case Ok(_) =>
          match Introduced(st, before, terminal)
          case Err(e) => NoPush(terminal, GraphReason(e))
          case Ok(ids) =>
            var bad := FirstUnreadable(st, ids);
            if bad.Some? then NoPush(bad.value.0, GraphReason(bad.value.1))
            else Pushed(DirectPush(before, terminal, ids), NO_GAP)
  }

  /** The reads that one spine commit may ask for: every introduced commit takes a byte. */
  function PushReads(width: nat): nat {
    3 + width
  }

  lemma OneMoreCommit(each: nat, i: nat, n: nat)
    requires i < n
    ensures each * (i + 1) == each * i + each && each * (i + 1) <= each * n
  {
  }

  method ReadPush(v: ObjectView, before: Id, terminal: Id) returns (r: Pushed)
    requires Exact(v.store) && !v.meter.failed && v.Paced()
    modifies v.meter
    ensures v.Paced() && v.meter.asked <= old(v.meter.asked) + PushReads(v.width)
    ensures !v.meter.failed ==> r == PushAt(v.store, before, terminal)
    ensures v.meter.failed ==> r.gap.reason == BUDGET_EXHAUSTED && r.gap.candidateId == ""
  {
    var parents := v.Parents(terminal);
    if parents.Err? {
      return NoPush(terminal, GraphReason(parents.error));
    }
    if |parents.value| == 0 && before == "" {
      return Pushed(DirectPush("", terminal, [terminal]), NO_GAP);
    }
    if |parents.value| == 0 || parents.value[0] != before {
      return NoPush(terminal, "topology_unproven");
    }
    var boundary := v.Parents(before);
    if boundary.Err? {
      return NoPush(before, GraphReason(boundary.error));
    }
    var ids := v.Introduced(before, terminal);
    if ids.Err? {
      return NoPush(terminal, GraphReason(ids.error));
    }
    assert ids.value[0..] == ids.value;
    for i := 0 to |ids.value|
      invariant v.Paced() && v.meter.asked == old(v.meter.asked) + 3 + i
      invariant !v.meter.failed
      invariant FirstUnreadable(v.store, ids.value) == FirstUnreadable(v.store, ids.value[i..])
    {
      var read := v.Parents(ids.value[i]);
      assert ids.value[i..][1..] == ids.value[i + 1..];
      if read.Err? {
        return NoPush(ids.value[i], GraphReason(read.error));
      }
    }
    r := Pushed(DirectPush(before, terminal, ids.value), NO_GAP);
  }

  /** A direct push introduces what its single spine position brings in. */
  lemma PushSound(st: Objects, p: Interval, i: int)
    requires Exact(st) && FirstParentSpine(st.graph, p) && 0 <= i < |p.spine|
    requires PushAt(st, Prev(p, i), p.spine[i]).gap.reason == ""
    ensures PushAt(st, Prev(p, i), p.spine[i]).gap == NO_GAP
    ensures PushAt(st, Prev(p, i), p.spine[i]).push.terminal == p.spine[i]
    ensures SoundPush(st.graph, p, PushAt(st, Prev(p, i), p.spine[i]).push)
  {
    hide Reach, Path, Connects, Reaches, FirstUnreadable;
    var g := st.graph;
    var d := PushAt(st, Prev(p, i), p.spine[i]).push;
    PositionOf(p, i);
    SpineStep(g, p, i);
    if g[p.spine[i]] == [] {
      ReachRoot(g, p.spine[i]);
      assert SpineLink(g, p, i);
      BaseReach(g, p);
    }
    assert Contribution(d.introduced, d.terminal) == Stretch(g, p, i, i);
  }

  // ----- the whole spine -----

  /** A commit that is neither blocked nor owned is a push, or leaves a gap for itself alone. */
  function PushStep(st: Objects, p: Interval, skipped: set<Id>, i: nat): seq<DirectPush>
    requires i < |p.spine|
  {
    var d := PushAt(st, Prev(p, i), p.spine[i]);
    if p.spine[i] !in skipped && d.gap.reason == "" then [d.push] else []
  }

  function GapStep(st: Objects, p: Interval, skipped: set<Id>, i: nat): seq<Gap>
    requires i < |p.spine|
  {
    var d := PushAt(st, Prev(p, i), p.spine[i]);
    if p.spine[i] !in skipped && d.gap.reason != "" then [d.gap.(span := Span(Prev(p, i), p.spine[i]))] else []
  }

  function PushesFrom(st: Objects, p: Interval, skipped: set<Id>, i: nat): seq<DirectPush>
    requires i <= |p.spine|
    decreases |p.spine| - i
  {
    if i == |p.spine| then [] else PushStep(st, p, skipped, i) + PushesFrom(st, p, skipped, i + 1)
  }

  function PushGapsFrom(st: Objects, p: Interval, skipped: set<Id>, i: nat): seq<Gap>
    requires i <= |p.spine|
    decreases |p.spine| - i
  {
    if i == |p.spine| then [] else GapStep(st, p, skipped, i) + PushGapsFrom(st, p, skipped, i + 1)
  }

  /** Pushes found below position `n`: sound, at distinct positions that were not skipped. */
  ghost predicate SoundPushes(g: Ancestry, p: Interval, skipped: set<Id>, pushes: seq<DirectPush>, n: int) {
    && (forall k :: 0 <= k < |pushes| ==> SoundPush(g, p, pushes[k]) && pushes[k].terminal !in skipped
                                          && Position(p.spine, pushes[k].terminal) < n)
    && (forall k, m :: 0 <= k < m < |pushes| ==> pushes[k].terminal != pushes[m].terminal)
  }

  /** The gap of one unskipped position, or of that position and everything after it. */
  ghost predicate PushGap(p: Interval, skipped: set<Id>, g: Gap, i: int) {
    && 0 <= i < |p.spine| && p.spine[i] !in skipped && g.candidateId == ""
    && g.span.before == Prev(p, i) && (g.span.through == p.spine[i] || g.span.through == p.query.bounds.head)
  }

  ghost predicate SomePushGap(p: Interval, skipped: set<Id>, g: Gap) {
    exists i :: PushGap(p, skipped, g, i)
  }

  ghost predicate PushGaps(p: Interval, skipped: set<Id>, gaps: seq<Gap>) {
    forall k :: 0 <= k < |gaps| ==> SomePushGap(p, skipped, gaps[k])
  }

  /** The budget ran out at position `i`: nothing was found from there on, and the last gap
      reaches from there through the head. */
  ghost predicate CutOff(g: Ancestry, p: Interval, skipped: set<Id>, pushes: seq<DirectPush>, gaps: seq<Gap>, i: int) {
    && 0 <= i < |p.spine| && SoundPushes(g, p, skipped, pushes, i)
    && gaps != [] && gaps[|gaps| - 1].reason == BUDGET_EXHAUSTED
    && gaps[|gaps| - 1].span == Span(Prev(p, i), p.query.bounds.head)
  }

  ghost predicate StepPushes(g: Ancestry, p: Interval, skipped: set<Id>, found: seq<DirectPush>, i: int) {
    found == [] || (|found| == 1 && SoundPush(g, p, found[0]) && found[0].terminal !in skipped
                    && Position(p.spine, found[0].terminal) == i)
  }

  ghost predicate StepGaps(p: Interval, skipped: set<Id>, missed: seq<Gap>, i: int) {
    missed == [] || (|missed| == 1 && PushGap(p, skipped, missed[0], i))
  }

  lemma ExtendStep(g: Ancestry, p: Interval, skipped: set<Id>, pushes: seq<DirectPush>, gaps: seq<Gap>,
                   found: seq<DirectPush>, missed: seq<Gap>, i: int)
    requires SoundPushes(g, p, skipped, pushes, i) && PushGaps(p, skipped, gaps)
    requires StepPushes(g, p, skipped, found, i) && StepGaps(p, skipped, missed, i)
    ensures SoundPushes(g, p, skipped, pushes + found, i + 1) && PushGaps(p, skipped, gaps + missed)
  {
    if found == [] {
      assert pushes + found == pushes;
    } else {
      assert found == [found[0]];
      SoundPushesExtend(g, p, skipped, pushes, i, found[0]);
    }
    if missed == [] {
      assert gaps + missed == gaps;
    } else {
      assert missed == [missed[0]];
      PushGapsExtend(p, skipped, gaps, i, missed[0]);
    }
  }

  lemma NothingYet(g: Ancestry, p: Interval, skipped: set<Id>)
    ensures SoundPushes(g, p, skipped, [], 0) && PushGaps(p, skipped, [])
  {
  }

  lemma SoundPushesWeaken(g: Ancestry, p: Interval, skipped: set<Id>, pushes: seq<DirectPush>, i: int, n: int)
    requires SoundPushes(g, p, skipped, pushes, i) && i <= n
    ensures SoundPushes(g, p, skipped, pushes, n)
  {
  }

  lemma SoundPushesExtend(g: Ancestry, p: Interval, skipped: set<Id>, pushes: seq<DirectPush>, i: int, d: DirectPush)
    requires SoundPushes(g, p, skipped, pushes, i) && SoundPush(g, p, d)
    requires d.terminal !in skipped && Position(p.spine, d.terminal) == i
    ensures SoundPushes(g, p, skipped, pushes + [d], i + 1)
  {
  }

  lemma PushGapsExtend(p: Interval, skipped: set<Id>, gaps: seq<Gap>, i: int, g: Gap)
    requires PushGaps(p, skipped, gaps) && PushGap(p, skipped, g, i)
    ensures PushGaps(p, skipped, gaps + [g])
  {
    assert SomePushGap(p, skipped, g);
  }

  predicate PushedAt(pushes: seq<DirectPush>, id: Id) {
    exists k :: 0 <= k < |pushes| && pushes[k].terminal == id
  }

  /** Position `i` was skipped, is a push, or lies in a gap. */
  predicate SettledAt(p: Interval, skipped: set<Id>, pushes: seq<DirectPush>, gaps: seq<Gap>, i: int)
    requires 0 <= i < |p.spine|
  {
    p.spine[i] in skipped || PushedAt(pushes, p.spine[i]) || Blocks(p, gaps, i)
  }

  predicate SettledUpTo(p: Interval, skipped: set<Id>, pushes: seq<DirectPush>, gaps: seq<Gap>, n: int)
    requires n <= |p.spine|
  {
    forall i :: 0 <= i < n ==> SettledAt(p, skipped, pushes, gaps, i)
  }

  lemma SettleMore(p: Interval, skipped: set<Id>, pushes: seq<DirectPush>, gaps: seq<Gap>,
                   found: seq<DirectPush>, missed: seq<Gap>, n: int)
    requires 0 <= n < |p.spine| && SettledUpTo(p, skipped, pushes, gaps, n) && SettledAt(p, skipped, found, missed, n)
    ensures SettledUpTo(p, skipped, pushes + found, gaps + missed, n + 1)
  {
    BlocksAppend(p, gaps, missed);
    forall i | 0 <= i <= n ensures SettledAt(p, skipped, pushes + found, gaps + missed, i) {
      if i == n {
        PushedAppend(pushes, found, p.spine[n]);
      } else {
        PushedAppend(pushes, found, p.spine[i]);
        assert SettledAt(p, skipped, pushes, gaps, i);
      }
    }
  }

  lemma PushedAppend(pushes: seq<DirectPush>, found: seq<DirectPush>, id: Id)
    ensures PushedAt(pushes, id) || PushedAt(found, id) ==> PushedAt(pushes + found, id)
  {
    if PushedAt(pushes, id) {
      var k :| 0 <= k < |pushes| && pushes[k].terminal == id;
      assert (pushes + found)[k] == pushes[k];
    }
    if PushedAt(found, id) {
      var k :| 0 <= k < |found| && found[k].terminal == id;
      assert (pushes + found)[|pushes| + k] == found[k];
    }
  }

  /** The gap of position `i` covers it; one that reaches through the head covers all the rest. */
  lemma PushGapReaches(g: Ancestry, p: Interval, skipped: set<Id>, gap: Gap, i: int)
    requires FirstParentSpine(g, p) && PushGap(p, skipped, gap, i)
    ensures Covers(p, gap.span, i)
    ensures gap.span.through == p.query.bounds.head ==> forall k :: i <= k < |p.spine| ==> Covers(p, gap.span, k)
  {
    SpineIsAnchored(g, p);
    PositionOf(p, i);
    PositionOf(p, |p.spine| - 1);
    if i > 0 {
      PositionOf(p, i - 1);
    }
  }

  lemma CutSettles(g: Ancestry, p: Interval, skipped: set<Id>, pushes: seq<DirectPush>, gaps: seq<Gap>,
                   missed: seq<Gap>, i: int)
    requires FirstParentSpine(g, p) && 0 <= i < |p.spine| && SettledUpTo(p, skipped, pushes, gaps, i)
    requires |missed| == 1 && PushGap(p, skipped, missed[0], i) && missed[0].span.through == p.query.bounds.head
    ensures SettledUpTo(p, skipped, pushes, gaps + missed, |p.spine|)
  {
    PushGapReaches(g, p, skipped, missed[0], i);
    BlocksAppend(p, gaps, missed);
    forall k | 0 <= k < |p.spine| ensures SettledAt(p, skipped, pushes, gaps + missed, k) {
      if k < i {
        assert SettledAt(p, skipped, pushes, gaps, k);
      } else {
        assert Covers(p, missed[0].span, k);
      }
    }
  }

  lemma Regroup<T>(a: seq<T>, b: seq<T>, c: seq<T>)
    ensures (a + b) + c == a + (b + c)
  {
  }

  lemma PushGapNames(st: Objects, p: Interval, i: int)
    requires 0 <= i < |p.spine|
    ensures PushAt(st, Prev(p, i), p.spine[i]).gap.candidateId == ""
  {
  }

  method ClassifyCommit(v: ObjectView, p: Interval, skipped: set<Id>, before: Id, i: nat)
    returns (pushes: seq<DirectPush>, gaps: seq<Gap>)
    requires Exact(v.store) && FirstParentSpine(v.store.graph, p) && !v.meter.failed
    requires i < |p.spine| && before == Prev(p, i) && v.Paced()
    modifies v.meter
    ensures v.Paced() && v.meter.asked <= old(v.meter.asked) + PushReads(v.width)
    ensures !v.meter.failed ==> pushes == PushStep(v.store, p, skipped, i) && gaps == GapStep(v.store, p, skipped, i)
    ensures v.meter.failed ==> pushes == [] && |gaps| == 1 && gaps[0].reason == BUDGET_EXHAUSTED
                               && gaps[0].span == Span(before, p.query.bounds.head)
    ensures StepPushes(v.store.graph, p, skipped, pushes, i) && StepGaps(p, skipped, gaps, i)
    ensures SettledAt(p, skipped, pushes, gaps, i)
    ensures v.meter.failed ==> PushGap(p, skipped, gaps[0], i)
  {
    pushes, gaps := [], [];
    var id := p.spine[i];
    if id !in skipped {
      var d := ReadPush(v, before, id);
      if d.gap.reason != "" {
        PushGapNames(v.store, p, i);
        gaps := [d.gap.(span := Span(before, if v.meter.failed then p.query.bounds.head else id))];
        PushGapReaches(v.store.graph, p, skipped, gaps[0], i);
      } else {
        PushSound(v.store, p, i);
        PositionOf(p, i);
        pushes := [d.push];
      }
    }
  }

  /** `classifyDirectPushes`: a failed budget leaves the rest of the spine blocked. */
  method ClassifyDirectPushes(v: ObjectView, p: Interval, skipped: set<Id>)
    returns (pushes: seq<DirectPush>, gaps: seq<Gap>)
    requires Exact(v.store) && FirstParentSpine(v.store.graph, p) && !v.meter.failed && v.Paced()
    modifies v.meter
    ensures v.Paced() && v.meter.asked <= old(v.meter.asked) + PushReads(v.width) * |p.spine|
    ensures !v.meter.failed ==>
        pushes == PushesFrom(v.store, p, skipped, 0) && gaps == PushGapsFrom(v.store, p, skipped, 0)
    ensures SoundPushes(v.store.graph, p, skipped, pushes, |p.spine|) && PushGaps(p, skipped, gaps)
    ensures SettledUpTo(p, skipped, pushes, gaps, |p.spine|)
    ensures pushes <= PushesFrom(v.store, p, skipped, 0)
    ensures v.meter.failed ==>
              exists i :: CutOff(v.store.graph, p, skipped, pushes, gaps, i)
  {
    hide Exact, FirstParentSpine, SoundPushes, PushGaps, StepPushes, StepGaps, PushStep, GapStep, SettledAt;
    hide PushGap, PushReads;
    pushes, gaps := [], [];
    var before := p.query.bounds.base;
    assert SoundPushes(v.store.graph, p, skipped, [], 0) && PushGaps(p, skipped, []) by {
      NothingYet(v.store.graph, p, skipped);
    }
    ghost var allPushes, allGaps := PushesFrom(v.store, p, skipped, 0), PushGapsFrom(v.store, p, skipped, 0);
    for i := 0 to |p.spine|
      invariant v.Paced() && v.meter.asked <= old(v.meter.asked) + PushReads(v.width) * i
      invariant !v.meter.failed && before == Prev(p, i)
      invariant SoundPushes(v.store.graph, p, skipped, pushes, i) && PushGaps(p, skipped, gaps)
      invariant SettledUpTo(p, skipped, pushes, gaps, i)
      invariant allPushes == pushes + PushesFrom(v.store, p, skipped, i)
      invariant allGaps == gaps + PushGapsFrom(v.store, p, skipped, i)
    {
      OneMoreCommit(PushReads(v.width), i, |p.spine|);
      var found, missed := ClassifyCommit(v, p, skipped, before, i);
      Regroup(pushes, found, PushesFrom(v.store, p, skipped, i + 1));
      Regroup(gaps, missed, PushGapsFrom(v.store, p, skipped, i + 1));
      ExtendStep(v.store.graph, p, skipped, pushes, gaps, found, missed, i);
      if v.meter.failed {
        assert pushes + found == pushes;
        SoundPushesWeaken(v.store.graph, p, skipped, pushes, i + 1, |p.spine|);
        CutSettles(v.store.graph, p, skipped, pushes, gaps, missed, i);
        gaps := gaps + missed;
        assert CutOff(v.store.graph, p, skipped, pushes, gaps, i);
        return;
      }
      SettleMore(p, skipped, pushes, gaps, found, missed, i);
      pushes, gaps := pushes + found, gaps + missed;
      before := p.spine[i];
    }
    assert pushes + [] == pushes && gaps + [] == gaps;
  }
}
