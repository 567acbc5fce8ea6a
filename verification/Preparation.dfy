/** `Prepare`: pin the interval by walking first parents from the head back to the base. */
module Preparation {
  import opened Model
  import opened Graph
  import opened Store
  import opened Metering
  import opened View
  import opened Intervals
  import opened ShallowCheck
  import opened Accounting
  import opened Validation
  import opened Ordering

  datatype Prepared = Invalid | TooLarge | Pinned(interval: Interval)

  /** A walked spine, before its reach is known. */
  function Draft(b: Bounds, spine: seq<Id>): Interval {
    Interval(Query(b, [], false, []), spine)
  }

  function Incomplete(b: Bounds, culprit: Id, reason: string): Prepared {
    Pinned(Interval(Query(b, [], false, [Gap("", culprit, reason, Span(b.base, b.head))]), []))
  }

  /** Every spine link holds and every spine commit can be read. */
  ghost predicate WalkedSpine(st: Objects, b: Bounds, spine: seq<Id>) {
    var p := Draft(b, spine);
    && (forall i :: 0 <= i < |spine| ==> SpineLink(st.graph, p, i) && Parents(st, spine[i]).Ok?)
    && b.base !in spine
    && Prev(p, |spine|) == b.head
  }

  /** Without a failed budget, an interval is complete exactly when the view can be set up, the
      shallow check passes, and the base, a whole spine and the revision list can be read. */
  ghost predicate Preparable(st: Objects, b: Bounds) {
    && st.opens && CheckShallow(st, b).Ok? && (b.fromRoot || Parents(st, b.base).Ok?)
    && (exists spine :: WalkedSpine(st, b, spine)) && Introduced(st, b.base, b.head).Ok?
  }

  /** A repeated commit would repeat everything before it, first parents being determined. */
  lemma {:induction false} RepeatsShiftBack(g: Ancestry, p: Interval, i: int, j: int, k: int)
    requires forall n :: 0 <= n < |p.spine| ==> SpineLink(g, p, n)
    requires 0 <= k <= i < j < |p.spine|
    ensures p.spine[i] == p.spine[j] ==> p.spine[i - k] == p.spine[j - k]
    decreases k
  {
    if k > 0 {
      RepeatsShiftBack(g, p, i, j, k - 1);
      assert SpineLink(g, p, i - k + 1) && SpineLink(g, p, j - k + 1);
    }
  }

  lemma FirstIsUnique(g: Ancestry, p: Interval, m: int)
    requires forall n :: 0 <= n < |p.spine| ==> SpineLink(g, p, n)
    requires p.query.bounds.base !in p.spine && 0 < m < |p.spine|
    ensures p.spine[0] != p.spine[m]
  {
    assert SpineLink(g, p, 0) && SpineLink(g, p, m);
    assert p.spine[m - 1] in p.spine;
  }

  /** A walk that stops the first time it meets the base, or at the root, repeats no commit.
      Nothing is assumed about cycles elsewhere in the graph. */
  lemma WalkRepeatsNothing(g: Ancestry, p: Interval)
    requires forall n :: 0 <= n < |p.spine| ==> SpineLink(g, p, n)
    requires p.query.bounds.base !in p.spine
    ensures Distinct(p.spine)
  {
    forall i, j | 0 <= i < j < |p.spine| ensures p.spine[i] != p.spine[j] {
      RepeatsShiftBack(g, p, i, j, i);
      FirstIsUnique(g, p, j - i);
    }
  }

  /** Where the walk goes after passing trail commit `k`. */
  function Next(trail: seq<Id>, current: Id, k: int): Id
    requires 0 <= k < |trail|
  {
    if k + 1 < |trail| then trail[k + 1] else current
  }

  ghost predicate TrailLink(st: Objects, b: Bounds, trail: seq<Id>, current: Id, k: int)
    requires 0 <= k < |trail|
  {
    && trail[k] != b.base && Parents(st, trail[k]).Ok? && Parents(st, trail[k]).value != []
    && Parents(st, trail[k]).value[0] == Next(trail, current, k)
  }

  /** Reading first parents back to `current`: what was passed, newest first. */
  ghost predicate Trail(st: Objects, b: Bounds, trail: seq<Id>, current: Id) {
    && (forall k :: 0 <= k < |trail| ==> TrailLink(st, b, trail, current, k))
    && (if trail == [] then current == b.head else trail[0] == b.head)
  }

  lemma TrailGrows(st: Objects, b: Bounds, trail: seq<Id>, current: Id)
    requires Trail(st, b, trail, current) && current != b.base && Parents(st, current).Ok?
        && Parents(st, current).value != []
    ensures Trail(st, b, trail + [current], Parents(st, current).value[0])
  {
    var longer, next := trail + [current], Parents(st, current).value[0];
    forall k | 0 <= k < |longer| ensures TrailLink(st, b, longer, next, k) {
      if k < |trail| {
        assert TrailLink(st, b, trail, current, k);
      }
    }
  }

  lemma TrailToBase(st: Objects, b: Bounds, trail: seq<Id>)
    requires !b.fromRoot && Trail(st, b, trail, b.base)
    ensures WalkedSpine(st, b, Reverse(trail))
  {
    var spine := Reverse(trail);
    forall i | 0 <= i < |spine|
      ensures SpineLink(st.graph, Draft(b, spine), i) && Parents(st, spine[i]).Ok? && spine[i] != b.base
    {
      assert TrailLink(st, b, trail, b.base, |trail| - 1 - i);
    }
  }

  lemma TrailToRoot(st: Objects, b: Bounds, trail: seq<Id>, root: Id)
    requires b.fromRoot && root != b.base && Trail(st, b, trail, root) && Parents(st, root) == Ok([])
    ensures WalkedSpine(st, b, Reverse(trail + [root]))
  {
    var all := trail + [root];
    var spine := Reverse(all);
    forall i | 0 <= i < |spine|
      ensures SpineLink(st.graph, Draft(b, spine), i) && Parents(st, spine[i]).Ok? && spine[i] != b.base
    {
      if i > 0 {
        assert TrailLink(st, b, trail, root, |trail| - i);
        assert all[|all| - 1 - i] == trail[|trail| - i];
      }
    }
  }

  /** Any walkable spine agrees with the trail, which can therefore not be a dead end. */
  lemma {:induction false} TrailFollows(st: Objects, b: Bounds, spine: seq<Id>, trail: seq<Id>, current: Id, k: nat)
    requires WalkedSpine(st, b, spine) && Trail(st, b, trail, current) && k <= |trail|
    ensures k <= |spine| && (k < |trail| ==> k < |spine|)
    ensures (if k < |trail| then trail[k] else current) == Prev(Draft(b, spine), |spine| - k)
    decreases k
  {
    hide Trail, WalkedSpine;
    TrailHead(st, b, trail, current);
    SpineEnd(st, b, spine);
    if k < |trail| {
      LinkAt(st, b, trail, current, k);
    }
    if k > 0 {
      TrailFollows(st, b, spine, trail, current, k - 1);
      LinkAt(st, b, trail, current, k - 1);
      SpineAt(st, b, spine, |spine| - k);
    }
  }

  lemma LinkAt(st: Objects, b: Bounds, trail: seq<Id>, current: Id, k: nat)
    requires Trail(st, b, trail, current) && k < |trail|
    ensures TrailLink(st, b, trail, current, k)
  {
  }

  lemma TrailHead(st: Objects, b: Bounds, trail: seq<Id>, current: Id)
    requires Trail(st, b, trail, current)
    ensures if trail == [] then current == b.head else trail[0] == b.head
  {
  }

  lemma SpineAt(st: Objects, b: Bounds, spine: seq<Id>, i: nat)
    requires WalkedSpine(st, b, spine) && i < |spine|
    ensures SpineLink(st.graph, Draft(b, spine), i) && Parents(st, spine[i]).Ok?
  {
  }

  lemma SpineEnd(st: Objects, b: Bounds, spine: seq<Id>)
    requires WalkedSpine(st, b, spine)
    ensures Prev(Draft(b, spine), |spine|) == b.head
  {
  }

  /** A readable spine that a trail has not used up reads on at the current commit. */
  lemma TrailReadsOn(st: Objects, b: Bounds, spine: seq<Id>, trail: seq<Id>, current: Id)
    requires WalkedSpine(st, b, spine) && Trail(st, b, trail, current) && current != b.base
    ensures Parents(st, current).Ok?
    ensures Parents(st, current) == Ok([]) ==> b.fromRoot
  {
    TrailFollows(st, b, spine, trail, current, |trail|);
    assert SpineLink(st.graph, Draft(b, spine), |spine| - |trail| - 1);
  }

  /** No graph has more distinct commits than it has entries. */
  lemma {:induction false} DistinctFits(ids: seq<Id>, all: set<Id>)
    requires Distinct(ids) && forall k :: 0 <= k < |ids| ==> ids[k] in all
    ensures |ids| <= |all|
    decreases |ids|
  {
    if ids != [] {
      var last := |ids| - 1;
      DistinctFits(ids[..last], all - {ids[last]});
    }
  }

  /** First parents never come back in an acyclic history, so a trail is no longer than the graph. */
  lemma TrailIsShort(st: Objects, b: Bounds, trail: seq<Id>, current: Id)
    requires Exact(st) && Trail(st, b, trail, current)
    ensures |trail| <= |st.graph|
  {
    forall k | 0 <= k < |trail| ensures trail[k] in st.graph {
      assert TrailLink(st, b, trail, current, k);
    }
    forall i, j | 0 <= i < j < |trail| ensures trail[i] != trail[j] {
      var stretch := trail[i..j + 1];
      forall k | 0 <= k < |stretch| - 1 ensures stretch[k + 1] in st.graph[stretch[k]] {
        assert TrailLink(st, b, trail, current, i + k);
      }
      assert Path(st.graph, stretch);
    }
    DistinctFits(trail, st.graph.Keys);
  }

  /** Where a walk that reached `current` stops, and what is said of it: an unreadable commit, or a root
      that is not the base. */
  predicate StopsAt(st: Objects, b: Bounds, current: Id, culprit: Id, reason: string) {
    && current != b.base
    && (|| (Parents(st, current).Err? && culprit == current && reason == "objects_unavailable")
        || (Parents(st, current) == Ok([]) && !b.fromRoot && culprit == "" && reason == "base_not_first_parent"))
  }

  /** The walk along first parents from the head stops short of the base. */
  ghost predicate DeadEnd(st: Objects, b: Bounds, culprit: Id, reason: string) {
    exists trail, current :: Trail(st, b, trail, current) && StopsAt(st, b, current, culprit, reason)
  }

  /** The walk was ended by the budget, or stopped short of the base. */
  ghost predicate Stuck(st: Objects, b: Bounds, r: Prepared, exhausted: bool) {
    exists culprit, reason ::
      && r == Incomplete(b, culprit, reason)
      && if exhausted then reason == "input_budget_exhausted" else DeadEnd(st, b, culprit, reason)
  }

  method WalkSpine(v: ObjectView, b: Bounds) returns (spine: seq<Id>, gap: Option<Prepared>)
    requires Exact(v.store) && ValidBounds(b) && !v.meter.failed && v.Paced()
    modifies v.meter
    ensures v.Paced() && v.meter.asked <= old(v.meter.asked) + |v.store.graph| + 1
    ensures gap.None? ==> !v.meter.failed && WalkedSpine(v.store, b, spine)
    ensures gap.Some? ==> Stuck(v.store, b, gap.value, v.meter.failed)
    ensures gap.Some? && !v.meter.failed ==> !exists s :: WalkedSpine(v.store, b, s)
  {
    hide Trail, WalkedSpine, Exact, ValidBounds, Parents, Incomplete, DeadEnd, StopsAt;
    var trail: seq<Id> := [];
    var current := b.head;
    TrailStarts(v.store, b);
    ReadsMiss(v.store);
    while current != b.base
      invariant v.Paced() && v.meter.asked == old(v.meter.asked) + |trail|
      invariant !v.meter.failed && Trail(v.store, b, trail, current)
      decreases v.meter.nodes
    {
      TrailIsShort(v.store, b, trail, current);
      var parents := v.Parents(current);
      if parents.Err? {
        gap := Some(Incomplete(b, current, GraphReason(parents.error)));
        if !v.meter.failed {
          NoSpine(v.store, b, trail, current);
          Stops(v.store, b, trail, current, current, "objects_unavailable");
        }
        return [], gap;
      }
      if |parents.value| == 0 {
        if b.fromRoot {
          TrailToRoot(v.store, b, trail, current);
          return Reverse(trail + [current]), None;
        }
        gap := Some(Incomplete(b, "", "base_not_first_parent"));
        NoSpine(v.store, b, trail, current);
        Stops(v.store, b, trail, current, "", "base_not_first_parent");
        return [], gap;
      }
      TrailGrows(v.store, b, trail, current);
      trail := trail + [current];
      current := parents.value[0];
    }
    TrailIsShort(v.store, b, trail, current);
    if b.fromRoot {
      RootWalkMissesBase(v.store, b, trail, current);
    }
    TrailToBase(v.store, b, trail);
    return Reverse(trail), None;
  }

  lemma Stops(st: Objects, b: Bounds, trail: seq<Id>, current: Id, culprit: Id, reason: string)
    requires Trail(st, b, trail, current) && current != b.base
    requires if Parents(st, current).Err? then culprit == current && reason == "objects_unavailable"
             else Parents(st, current) == Ok([]) && !b.fromRoot && culprit == "" && reason == "base_not_first_parent"
    ensures DeadEnd(st, b, culprit, reason)
  {
    assert StopsAt(st, b, current, culprit, reason);
  }

  /** Two trails agree as far as both go. */
  lemma {:induction false} TrailsAgree(st: Objects, b: Bounds, one: seq<Id>, x: Id, other: seq<Id>, y: Id, k: nat)
    requires Trail(st, b, one, x) && Trail(st, b, other, y) && k <= |one| <= |other|
    ensures (if k < |one| then one[k] else x) == (if k < |other| then other[k] else y)
    decreases k
  {
    hide Parents;
    if k > 0 {
      TrailsAgree(st, b, one, x, other, y, k - 1);
      assert TrailLink(st, b, one, x, k - 1) && TrailLink(st, b, other, y, k - 1);
    }
  }

  lemma OneStop(st: Objects, b: Bounds, one: seq<Id>, x: Id, other: seq<Id>, y: Id)
    requires Trail(st, b, one, x) && Trail(st, b, other, y) && |one| <= |other|
    requires x != b.base && (Parents(st, x).Err? || Parents(st, x) == Ok([]))
    ensures x == y
  {
    hide Parents;
    if |one| < |other| {
      LinkAt(st, b, other, y, |one|);
    }
    TrailsAgree(st, b, one, x, other, y, |one|);
  }

  /** The walk has one dead end at most, so the report of it is determined. */
  lemma DeadEndIsUnique(st: Objects, b: Bounds, culprit: Id, reason: string, culprit': Id, reason': string)
    requires DeadEnd(st, b, culprit, reason) && DeadEnd(st, b, culprit', reason')
    ensures culprit == culprit' && reason == reason'
  {
    hide Trail, Parents;
    var one, x :| Trail(st, b, one, x) && StopsAt(st, b, x, culprit, reason);
    var other, y :| Trail(st, b, other, y) && StopsAt(st, b, y, culprit', reason');
    if |one| <= |other| {
      OneStop(st, b, one, x, other, y);
    } else {
      OneStop(st, b, other, y, one, x);
    }
  }

  /** A read of the graph that fails says that the objects are unavailable. */
  lemma ReadsMiss(st: Objects)
    ensures forall id :: Parents(st, id).Err? ==> GraphReason(Parents(st, id).error) == "objects_unavailable"
    ensures forall x, y :: Introduced(st, x, y).Err? ==>
              GraphReason(Introduced(st, x, y).error) == "objects_unavailable"
  {
  }

  lemma TrailStarts(st: Objects, b: Bounds)
    ensures Trail(st, b, [], b.head)
  {
  }

  /** Where the walk cannot go on, there is no readable spine. */
  lemma NoSpine(st: Objects, b: Bounds, trail: seq<Id>, current: Id)
    requires Trail(st, b, trail, current) && current != b.base
    requires Parents(st, current).Err? || (Parents(st, current) == Ok([]) && !b.fromRoot)
    ensures !exists s :: WalkedSpine(st, b, s)
  {
    hide Trail, WalkedSpine, Parents;
    forall s ensures !WalkedSpine(st, b, s) {
      if WalkedSpine(st, b, s) {
        TrailReadsOn(st, b, s, trail, current);
      }
    }
  }

  /** No commit has the empty name, so a walk from the root never meets the empty base. */
  lemma RootWalkMissesBase(st: Objects, b: Bounds, trail: seq<Id>, current: Id)
    requires Exact(st) && ValidBounds(b) && b.fromRoot && Trail(st, b, trail, current)
    ensures current != b.base
  {
    assert !ObjectId("");
    if trail != [] {
      var last := trail[|trail| - 1];
      assert TrailLink(st, b, trail, current, |trail| - 1);
      assert current in st.graph[last];
    }
  }

  // ----- the operation -----

  method OpenView(v: ObjectView) returns (r: Result<()>)
    requires !v.meter.failed && v.Paced()
    modifies v.meter
    ensures v.Paced() && v.meter.asked == old(v.meter.asked) + 1
    ensures r == if v.meter.failed then Err(Budget) else if v.store.opens then Ok(()) else Err(Unavailable)
    ensures v.meter.nodes <= old(v.meter.nodes)
  {
    var ok := v.Run();
    r := if !ok then Err(Budget) else if v.store.opens then Ok(()) else Err(Unavailable);
  }

  /** Why nothing could be prepared although the budget held, in the order of the reads: the view, the
      shallow check, the base, the walk along first parents, the revision list. */
  ghost predicate Diagnosed(st: Objects, b: Bounds, culprit: Id, reason: string) {
    if !st.opens then culprit == "" && reason == "objects_unavailable"
    else if CheckShallow(st, b).Err? then
      && culprit == ""
      && reason == if CheckShallow(st, b) == Err(ReadError.Shallow) then "shallow_boundary" else "objects_unavailable"
    else if !b.fromRoot && Parents(st, b.base).Err? then culprit == b.base && reason == "objects_unavailable"
    else if exists spine :: WalkedSpine(st, b, spine) then culprit == "" && reason == "objects_unavailable"
    else DeadEnd(st, b, culprit, reason)
  }

  /** An interval that could not be completed: one gap over the whole of it, which names the budget
      exactly when that was spent, and otherwise the first read that failed. */
  ghost predicate GapOnly(st: Objects, b: Bounds, r: Prepared, exhausted: bool) {
    exists culprit, reason ::
      && r == Incomplete(b, culprit, reason) && reason != ""
      && (reason == "input_budget_exhausted" <==> exhausted) && (!exhausted ==> Diagnosed(st, b, culprit, reason))
  }

  lemma FailedRead(st: Objects, b: Bounds, culprit: Id, reason: string, exhausted: bool)
    requires if exhausted then reason == "input_budget_exhausted" else Diagnosed(st, b, culprit, reason)
    ensures GapOnly(st, b, Incomplete(b, culprit, reason), exhausted)
  {
    hide Incomplete, CheckShallow, WalkedSpine, Trail;
    assert reason != "input_budget_exhausted" || exhausted;
  }

  lemma CompleteFromWalk(st: Objects, b: Bounds, spine: seq<Id>, commits: seq<Id>)
    requires Exact(st) && ValidBounds(b) && WalkedSpine(st, b, spine) && Introduced(st, b.base, b.head).Ok?
    requires commits == Sort(Introduced(st, b.base, b.head).value, Below)
    ensures CompleteInterval(st.graph, Interval(Query(b, commits, true, []), spine))
  {
    var p := Interval(Query(b, commits, true, []), spine);
    forall i | 0 <= i < |spine| ensures SpineLink(st.graph, p, i) {
      assert SpineLink(st.graph, Draft(b, spine), i);
    }
    WalkRepeatsNothing(st.graph, p);
    BelowIsPreorder();
    var ids := Introduced(st, b.base, b.head).value;
    SortSorted(ids, Below);
    MembersOfPermutation(commits, ids);
    DistinctPermutation(commits, ids);
    assert !ObjectId("");
  }

  /** What a preparation comes to: a complete interval, or one named gap, and without a spent
      budget the former exactly when everything it needs can be read. */
  ghost predicate PreparedAs(st: Objects, b: Bounds, p: Interval, exhausted: bool) {
    && p.query.bounds == b
    && (p.query.complete ==> CompleteInterval(st.graph, p) && !exhausted)
    && (!p.query.complete ==> GapOnly(st, b, Pinned(p), exhausted))
    && (!exhausted ==> (p.query.complete <==> Preparable(st, b)))
  }

  /** The reads that a preparation may ask for. */
  function PrepareReads(st: Objects): nat {
    4 + ShallowReads(st) + |st.graph|
  }

  /** One of the limits does not cover that many reads, each of a node and two streams of at most
      `width` bytes, or as many records. */
  predicate Starved(limits: Limits, width: nat, count: nat) {
    var all := (2 * width + 1) * count;
    limits.records < all || limits.nodes < all || limits.inputBytes < all
  }

  /** `width` is the most that one command prints.  A budget that covers the reads is enough. */
  method Prepare(st: Objects, width: nat, path: string, b: Bounds, limits: Limits)
    returns (r: Prepared, ghost exhausted: bool)
    requires Exact(st) && Sized(st, width)
    ensures exhausted ==> Starved(limits, width, PrepareReads(st))
    ensures r.Pinned? && !Starved(limits, width, PrepareReads(st)) ==>
              (r.interval.query.complete <==> Preparable(st, b))
    ensures r.Pinned? && r.interval.query.complete ==> CompleteInterval(st.graph, r.interval)
    ensures r.Invalid? <==> !Positive(limits) || !ValidBounds(b) || path == ""
    ensures r.Pinned? ==> PreparedAs(st, b, r.interval, exhausted) && QueryFits(r.interval.query, limits)
    ensures r.TooLarge? ==> exists p :: PreparedAs(st, b, p, exhausted) && !QueryFits(p.query, limits)
  {
    hide CompleteInterval, GapOnly, Preparable, Exact;
    exhausted := false;
    if !Positive(limits) || !ValidBounds(b) || path == "" {
      return Invalid, exhausted;
    }
    var meter := new Meter(limits.records, limits.nodes, limits.inputBytes);
    var v := new ObjectView(st, meter, width);
    r := PrepareView(v, b);
    exhausted := meter.failed;
    if exhausted {
      v.MoreIsShort(PrepareReads(st));
    }
    assert PreparedAs(st, b, r.interval, exhausted);
    if !QueryFits(r.interval.query, limits) {
      r := TooLarge;
    }
  }

  lemma IncompleteIs(b: Bounds)
    ensures forall culprit, reason ::
              var r := Incomplete(b, culprit, reason);
              r.Pinned? && r.interval.query.bounds == b && !r.interval.query.complete
  {
  }

  method PrepareView(v: ObjectView, b: Bounds) returns (r: Prepared)
    requires Exact(v.store) && ValidBounds(b) && !v.meter.failed && v.Paced()
    modifies v.meter
    ensures v.Paced() && v.meter.asked <= old(v.meter.asked) + PrepareReads(v.store)
    ensures r.Pinned? && r.interval.query.bounds == b
    ensures r.interval.query.complete ==> CompleteInterval(v.store.graph, r.interval) && !v.meter.failed
    ensures !r.interval.query.complete ==> GapOnly(v.store, b, r, v.meter.failed)
    ensures !v.meter.failed ==> (r.interval.query.complete <==> Preparable(v.store, b))
  {
    hide CompleteInterval, WalkedSpine, Exact, CheckShallow, Parents, Introduced, DeadEnd, Incomplete, GapOnly;
    IncompleteIs(b);
    ReadsMiss(v.store);
    ShallowCheckExactly(v.store, b);
    var view := OpenView(v);
    if view.Err? {
      FailedRead(v.store, b, "", GraphReason(view.error), v.meter.failed);
      return Incomplete(b, "", GraphReason(view.error));
    }
    var clear := ReadShallow(v, b);
    if clear.Err? {
      FailedRead(v.store, b, "", GraphReason(clear.error), v.meter.failed);
      return Incomplete(b, "", GraphReason(clear.error));
    }
    if !b.fromRoot {
      var base := v.Parents(b.base);
      if base.Err? {
        FailedRead(v.store, b, b.base, GraphReason(base.error), v.meter.failed);
        return Incomplete(b, b.base, GraphReason(base.error));
      }
    }
    var spine, gap := WalkSpine(v, b);
    if gap.Some? {
      ghost var culprit, reason :| gap.value == Incomplete(b, culprit, reason)
        && (if v.meter.failed then reason == "input_budget_exhausted" else DeadEnd(v.store, b, culprit, reason));
      FailedRead(v.store, b, culprit, reason, v.meter.failed);
      return gap.value;
    }
    var ids := v.Introduced(b.base, b.head);
    if ids.Err? {
      FailedRead(v.store, b, "", GraphReason(ids.error), v.meter.failed);
      return Incomplete(b, "", GraphReason(ids.error));
    }
    var commits := SortStrings(ids.value);
    CompleteFromWalk(v.store, b, spine, commits);
    r := Pinned(Interval(Query(b, commits, true, []), spine));
  }

  /** Every spine commit of a complete interval is one of its commits. */
  lemma SpineIsIntroduced(g: Ancestry, p: Interval, i: int)
    requires History(g) && CompleteInterval(g, p) && 0 <= i < |p.spine|
    ensures p.spine[i] in p.query.commits
  {
    SpineStep(g, p, i);
    StretchInside(g, p, i, i);
    assert p.spine[i] in Commits(p.query.commits);
  }

  /** The interval that a clone prepares is the interval of the full history, spine included:
      nothing that the clone lacks is hidden from it. */
  lemma PreparedFromFullHistory(full: Ancestry, roots: set<Id>, st: Objects, b: Bounds, p: Interval)
    requires Exact(st) && st.graph == Cut(full, roots) && forall r :: r in roots ==> r in st.shallow
    requires Preparable(st, b) && CompleteInterval(st.graph, p) && p.query.bounds == b
    ensures CompleteInterval(full, p)
  {
    ShallowCheckSuffices(full, roots, st, b, b.head);
    if b.base != "" {
      ShallowCheckSuffices(full, roots, st, b, b.base);
    } else {
      NothingBeforeHistory(st.graph);
      NothingBeforeHistory(full);
    }
    forall i | 0 <= i < |p.spine| ensures SpineLink(full, p, i) {
      assert SpineLink(st.graph, p, i);
      SpineStep(st.graph, p, i);
      SpineGrows(st.graph, p, i + 1, |p.spine|);
      if p.spine[i] in roots {
        EntriesClear(st, st.shallow, [b.base, b.head], p.spine[i], b.head);
      }
    }
  }

  lemma NothingBeforeHistory(g: Ancestry)
    requires "" !in g
    ensures Reach(g, "") == iset{}
  {
  }
}
