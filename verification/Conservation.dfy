/** What a finished report accounts for. */
module Conservation {
  import opened Model
  import opened Graph
  import opened Intervals
  import opened Overlaps
  import opened Blocking
  import opened Direct
  import opened Origins
  import opened Resolution
  import opened Finishing
  import opened Ordering

  /** An origin owns the spine positions `first` to `last` and accounts for `commits`. */
  datatype Origin = Origin(first: int, last: int, commits: iset<Id>)

  ghost function LandingOrigin(p: Interval, l: Landing): Origin {
    Origin(Start(p, l), Position(p.spine, l.terminal), Contribution(l.introduced, l.terminal))
  }

  ghost function PushOrigin(p: Interval, d: DirectPush): Origin {
    Origin(Position(p.spine, d.terminal), Position(p.spine, d.terminal), Contribution(d.introduced, d.terminal))
  }

  /** The origins a report lists: its landings, then its direct pushes. */
  ghost function OriginsOf(p: Interval, landings: seq<Landing>, pushes: seq<DirectPush>): seq<Origin> {
    seq(|landings| + |pushes|, i requires 0 <= i < |landings| + |pushes| =>
      if i < |landings| then LandingOrigin(p, landings[i]) else PushOrigin(p, pushes[i - |landings|]))
  }

  /** Each origin accounts for exactly what its stretch of the spine brings in. */
  ghost predicate Stretches(g: Ancestry, p: Interval, os: seq<Origin>) {
    forall i :: 0 <= i < |os| ==>
      0 <= os[i].first <= os[i].last < |p.spine| && os[i].commits == Stretch(g, p, os[i].first, os[i].last)
  }

  ghost predicate Separate(a: Origin, b: Origin) {
    a.last < b.first || b.last < a.first
  }

  ghost predicate AllSeparate(os: seq<Origin>) {
    forall i, j :: 0 <= i < j < |os| ==> Separate(os[i], os[j])
  }

  /** No commit is counted by two origins. */
  ghost predicate Exclusive(os: seq<Origin>) {
    forall i, j :: 0 <= i < j < |os| ==> os[i].commits !! os[j].commits
  }

  /** Position `i` belongs to an origin. */
  ghost predicate Held(os: seq<Origin>, i: int) {
    exists k :: 0 <= k < |os| && os[k].first <= i <= os[k].last
  }

  /** No origin straddles position `n`. */
  ghost predicate Whole(os: seq<Origin>, n: int) {
    forall k :: 0 <= k < |os| ==> os[k].last < n || n <= os[k].first
  }

  /** `x` is accounted for by an origin that ends before position `n`. */
  ghost predicate CountedBefore(os: seq<Origin>, n: int, x: Id) {
    exists k :: 0 <= k < |os| && os[k].last < n && x in os[k].commits
  }

  // ----- stretches of the spine -----

  lemma SeparateExclusive(g: Ancestry, p: Interval, os: seq<Origin>)
    requires History(g) && FirstParentSpine(g, p) && Stretches(g, p, os) && AllSeparate(os)
    ensures Exclusive(os)
  {
    forall i, j | 0 <= i < j < |os| ensures os[i].commits !! os[j].commits {
      assert Separate(os[i], os[j]);
      if os[i].last < os[j].first {
        StretchesDisjoint(g, p, os[i].first, os[i].last, os[j].first, os[j].last);
      } else {
        StretchesDisjoint(g, p, os[j].first, os[j].last, os[i].first, os[i].last);
      }
    }
  }

  lemma CountedArrived(g: Ancestry, p: Interval, os: seq<Origin>, n: int, x: Id)
    requires History(g) && FirstParentSpine(g, p) && Stretches(g, p, os) && 0 <= n <= |p.spine|
    requires CountedBefore(os, n, x)
    ensures x in Reach(g, Prev(p, n)) - Reach(g, p.query.bounds.base)
  {
    var k :| 0 <= k < |os| && os[k].last < n && x in os[k].commits;
    SpineGrows(g, p, os[k].last + 1, n);
    SpineGrows(g, p, 0, os[k].first);
  }

  lemma ArrivedCounted(g: Ancestry, p: Interval, os: seq<Origin>, n: int, x: Id)
    requires History(g) && FirstParentSpine(g, p) && Stretches(g, p, os) && 0 <= n <= |p.spine|
    requires Whole(os, n) && forall i :: 0 <= i < n ==> Held(os, i)
    requires x in Reach(g, Prev(p, n)) - Reach(g, p.query.bounds.base)
    ensures CountedBefore(os, n, x)
  {
    hide FirstParentSpine, History, Stretch, Reach;
    var i := ArrivalPosition(g, p, n, x);
    assert Held(os, i);
    var k :| 0 <= k < |os| && os[k].first <= i <= os[k].last;
    ArrivedInside(g, p, os[k].first, os[k].last, i, x);
  }

  lemma ArrivedInside(g: Ancestry, p: Interval, j: int, k: int, i: int, x: Id)
    requires History(g) && FirstParentSpine(g, p) && 0 <= j <= i <= k < |p.spine|
    requires x in Reach(g, p.spine[i]) && x !in Reach(g, Prev(p, i))
    ensures x in Stretch(g, p, j, k)
  {
    SpineGrows(g, p, i + 1, k + 1);
    SpineGrows(g, p, j, i);
    hide FirstParentSpine, History, Reach;
  }

  /** When the first `n` positions are held by whole origins, those origins together account for
      exactly what the first `n` positions bring in: the telescoping sum. */
  lemma PrefixAccounted(g: Ancestry, p: Interval, os: seq<Origin>, n: int)
    requires History(g) && FirstParentSpine(g, p) && Stretches(g, p, os) && 0 <= n <= |p.spine|
    requires Whole(os, n) && forall i :: 0 <= i < n ==> Held(os, i)
    ensures forall x :: CountedBefore(os, n, x) <==> x in Reach(g, Prev(p, n)) - Reach(g, p.query.bounds.base)
  {
    forall x ensures CountedBefore(os, n, x) <==> x in Reach(g, Prev(p, n)) - Reach(g, p.query.bounds.base) {
      if CountedBefore(os, n, x) {
        CountedArrived(g, p, os, n, x);
      }
      if x in Reach(g, Prev(p, n)) - Reach(g, p.query.bounds.base) {
        ArrivedCounted(g, p, os, n, x);
      }
    }
  }

  // ----- the origins of sound findings -----

  lemma OriginsAreStretches(g: Ancestry, p: Interval, landings: seq<Landing>, pushes: seq<DirectPush>)
    requires AllSound(g, p, landings) && SoundPushes(g, p, Owners(landings), pushes, |p.spine|)
    ensures Stretches(g, p, OriginsOf(p, landings, pushes))
  {
    hide Stretch, Owners, Overlap;
    var os := OriginsOf(p, landings, pushes);
    forall i | 0 <= i < |os|
      ensures 0 <= os[i].first <= os[i].last < |p.spine| && os[i].commits == Stretch(g, p, os[i].first, os[i].last)
    {
      if i < |landings| {
        SoundStretch(g, p, landings[i]);
      } else {
        assert SoundPush(g, p, pushes[i - |landings|]);
      }
    }
  }

  lemma LandingsSeparate(g: Ancestry, p: Interval, a: Landing, b: Landing)
    requires FirstParentSpine(g, p) && SoundLanding(g, p, a) && SoundLanding(g, p, b) && !Overlap(a.spine, b.spine)
    ensures Separate(LandingOrigin(p, a), LandingOrigin(p, b))
  {
    var i := if Start(p, a) < Start(p, b) then Start(p, b) else Start(p, a);
    LandingPositions(g, p, a, i);
    LandingPositions(g, p, b, i);
    assert !(p.spine[i] in a.spine && p.spine[i] in b.spine);
  }

  lemma PushSeparate(g: Ancestry, p: Interval, l: Landing, d: DirectPush)
    requires FirstParentSpine(g, p) && SoundLanding(g, p, l) && SoundPush(g, p, d) && d.terminal !in l.spine
    ensures Separate(LandingOrigin(p, l), PushOrigin(p, d))
  {
    LandingPositions(g, p, l, Position(p.spine, d.terminal));
  }

  lemma OriginAt(p: Interval, landings: seq<Landing>, pushes: seq<DirectPush>, i: nat)
    requires i < |landings| + |pushes|
    ensures OriginsOf(p, landings, pushes)[i] ==
            if i < |landings| then LandingOrigin(p, landings[i]) else PushOrigin(p, pushes[i - |landings|])
  {
  }

  lemma PairSeparate(g: Ancestry, p: Interval, landings: seq<Landing>, pushes: seq<DirectPush>, i: nat, j: nat)
    requires FirstParentSpine(g, p) && AllSound(g, p, landings) && Disjoint(landings)
    requires SoundPushes(g, p, Owners(landings), pushes, |p.spine|)
    requires i < j < |landings| + |pushes|
    ensures Separate(OriginsOf(p, landings, pushes)[i], OriginsOf(p, landings, pushes)[j])
  {
    hide SoundLanding, Overlap, FirstParentSpine, Stretch, Owners;
    OriginAt(p, landings, pushes, i);
    OriginAt(p, landings, pushes, j);
    if j < |landings| {
      LandingsSeparate(g, p, landings[i], landings[j]);
    } else if i < |landings| {
      OwnersOf(landings, i);
      PushSeparate(g, p, landings[i], pushes[j - |landings|]);
    } else {
      assert pushes[i - |landings|].terminal != pushes[j - |landings|].terminal;
    }
  }

  lemma OriginsSeparate(g: Ancestry, p: Interval, landings: seq<Landing>, pushes: seq<DirectPush>)
    requires FirstParentSpine(g, p) && AllSound(g, p, landings) && Disjoint(landings)
    requires SoundPushes(g, p, Owners(landings), pushes, |p.spine|)
    ensures AllSeparate(OriginsOf(p, landings, pushes))
  {
    forall i, j | 0 <= i < j < |landings| + |pushes|
      ensures Separate(OriginsOf(p, landings, pushes)[i], OriginsOf(p, landings, pushes)[j]) {
      PairSeparate(g, p, landings, pushes, i, j);
    }
  }

  lemma OriginCount(p: Interval, landings: seq<Landing>, pushes: seq<DirectPush>)
    ensures |OriginsOf(p, landings, pushes)| == |landings| + |pushes|
  {
  }

  lemma SpineDistinct(g: Ancestry, p: Interval)
    requires FirstParentSpine(g, p)
    ensures Distinct(p.spine)
  {
  }

  lemma PushPosition(g: Ancestry, p: Interval, d: DirectPush)
    requires SoundPush(g, p, d)
    ensures 0 <= Position(p.spine, d.terminal) && p.spine[Position(p.spine, d.terminal)] == d.terminal
  {
  }

  lemma OwnedThenHeld(g: Ancestry, p: Interval, f: Findings, i: int)
    requires FirstParentSpine(g, p) && SoundFindings(g, p, f) && 0 <= i < |p.spine|
    requires p.spine[i] in Owned(f)
    ensures Held(OriginsOf(p, f.landings, f.pushes), i)
  {
    hide SoundLanding, SoundPush, KnownGaps, NothingCut, Disjoint, FirstParentSpine, OriginsOf;
    SpineDistinct(g, p);
    PositionOf(p, i);
    if p.spine[i] in Owners(f.landings) {
      var l :| l in f.landings && p.spine[i] in l.spine;
      var k :| 0 <= k < |f.landings| && f.landings[k] == l;
      LandingPositions(g, p, l, i);
      OriginAt(p, f.landings, f.pushes, k);
      OriginCount(p, f.landings, f.pushes);
    } else {
      var d :| d in f.pushes && d.terminal == p.spine[i];
      var k :| 0 <= k < |f.pushes| && f.pushes[k] == d;
      OriginAt(p, f.landings, f.pushes, |f.landings| + k);
      OriginCount(p, f.landings, f.pushes);
    }
  }

  lemma HeldThenOwned(g: Ancestry, p: Interval, f: Findings, i: int)
    requires FirstParentSpine(g, p) && SoundFindings(g, p, f) && 0 <= i < |p.spine|
    requires Held(OriginsOf(p, f.landings, f.pushes), i)
    ensures p.spine[i] in Owned(f)
  {
    hide SoundLanding, SoundPush, KnownGaps, NothingCut, Disjoint, FirstParentSpine, OriginsOf;
    SpineDistinct(g, p);
    var os := OriginsOf(p, f.landings, f.pushes);
    OriginCount(p, f.landings, f.pushes);
    var k :| 0 <= k < |os| && os[k].first <= i <= os[k].last;
    OriginAt(p, f.landings, f.pushes, k);
    if k < |f.landings| {
      LandingPositions(g, p, f.landings[k], i);
      OwnersOf(f.landings, k);
    } else {
      var d := f.pushes[k - |f.landings|];
      assert d in f.pushes && SoundPush(g, p, d);
      assert d.terminal == p.spine[i] by { PushPosition(g, p, d); }
    }
  }

  /** The certified prefix never ends inside an origin. */
  lemma CertifiedIsWhole(g: Ancestry, p: Interval, f: Findings)
    requires FirstParentSpine(g, p) && SoundFindings(g, p, f)
    ensures Whole(OriginsOf(p, f.landings, f.pushes), Certified(p, f))
  {
    var os, n := OriginsOf(p, f.landings, f.pushes), Certified(p, f);
    forall k | 0 <= k < |os| ensures os[k].last < n || n <= os[k].first {
      OriginAt(p, f.landings, f.pushes, k);
      if k < |f.landings| {
        LandingNotSplit(g, p, f, k);
      }
    }
  }

  lemma LandingNotSplit(g: Ancestry, p: Interval, f: Findings, k: nat)
    requires FirstParentSpine(g, p) && SoundFindings(g, p, f) && k < |f.landings|
    ensures Position(p.spine, f.landings[k].terminal) < Certified(p, f) || Certified(p, f) <= Start(p, f.landings[k])
  {
    hide SoundPushes, KnownGaps, Disjoint, FirstParentSpine, NothingCut, SoundLanding, Blocked, Blocks, Owned;
    hide Certified, Start;
    SpineDistinct(g, p);
    var l, n := f.landings[k], Certified(p, f);
    var j := Start(p, l);
    if j < n <= Position(p.spine, l.terminal) {
      StretchOwned(g, p, f, k, n);
      StretchOwned(g, p, f, k, j);
      CertifiedEnds(p, f);
      assert Certifiable(p, Owned(f), Blocked(p, f.gaps), j);
      BlockedAt(p, f.gaps, n);
      BlockedAt(p, f.gaps, j);
      BlocksFromStart(p, f.gaps, f.landings, k, n);
      assert false;
    }
  }

  /** The certified prefix is the longest one that is owned and unblocked throughout. */
  lemma CertifiedEnds(p: Interval, f: Findings)
    ensures var n := Certified(p, f);
            && (forall i :: 0 <= i < n ==> Certifiable(p, Owned(f), Blocked(p, f.gaps), i))
            && (n < |p.spine| ==> !Certifiable(p, Owned(f), Blocked(p, f.gaps), n))
  {
  }

  lemma StretchOwned(g: Ancestry, p: Interval, f: Findings, k: nat, i: int)
    requires AllSound(g, p, f.landings) && Distinct(p.spine) && k < |f.landings|
    requires Start(p, f.landings[k]) <= i <= Position(p.spine, f.landings[k].terminal)
    ensures 0 <= i < |p.spine| && p.spine[i] in Owned(f)
  {
    LandingPositions(g, p, f.landings[k], i);
    OwnersOf(f.landings, k);
  }

  lemma BlocksFromStart(p: Interval, gaps: seq<Gap>, ls: seq<Landing>, k: nat, n: int)
    requires NothingCut(p, gaps, ls) && k < |ls| && Blocks(p, gaps, n)
    requires Start(p, ls[k]) <= n <= Position(p.spine, ls[k].terminal)
    ensures Blocks(p, gaps, Start(p, ls[k]))
  {
    var m :| 0 <= m < |gaps| && Covers(p, gaps[m].span, n);
    assert Uncut(p, gaps[m].span, ls[k]);
  }

  lemma BlockedAt(p: Interval, gaps: seq<Gap>, i: int)
    requires 0 <= i < |p.spine| && Distinct(p.spine)
    ensures p.spine[i] in Blocked(p, gaps) <==> Blocks(p, gaps, i)
  {
  }

  // ----- the theorems -----

  /** The number of certified spine commits that a report states through `CertifiedHead`. */
  ghost predicate CertifiesUpTo(p: Interval, r: Report, n: int) {
    0 <= n <= |p.spine| && r.coverage.certifiedHead == Prev(p, n)
  }

  /** Conservation: the origins of a report never count a commit twice, count only commits of the
      interval, and in a complete report count all of them. */
  ghost predicate Conserves(g: Ancestry, p: Interval, r: Report) {
    var os := OriginsOf(p, r.landings, r.directPushes);
    var all := Reach(g, p.query.bounds.head) - Reach(g, p.query.bounds.base);
    && all == Commits(p.query.commits)
    && Exclusive(os)
    && (forall k :: 0 <= k < |os| ==> os[k].commits <= all)
    && (r.coverage.complete ==> forall x :: x in all ==> exists k :: 0 <= k < |os| && x in os[k].commits)
  }

  /** Position `n` ends the longest prefix of the spine that is held and not blocked. */
  ghost predicate LongestPrefix(p: Interval, gaps: seq<Gap>, os: seq<Origin>, n: int) {
    && 0 <= n <= |p.spine|
    && (forall i :: 0 <= i < n ==> Held(os, i) && !Blocks(p, gaps, i))
    && (n < |p.spine| ==> !Held(os, n) || Blocks(p, gaps, n))
  }

  /** `x` is in the history between the base and the certified head. */
  ghost predicate CertifiedHistory(g: Ancestry, p: Interval, r: Report, x: Id) {
    x in Reach(g, r.coverage.certifiedHead) - Reach(g, p.query.bounds.base)
  }

  /** The certified head ends the longest held and unblocked prefix, never inside an origin; the
      origins of the prefix account for exactly the certified history; and the report is
      complete exactly when the prefix is the whole spine and no gap is left. */
  ghost predicate CertifiesExactly(g: Ancestry, p: Interval, r: Report) {
    var os := OriginsOf(p, r.landings, r.directPushes);
    exists n :: && CertifiesUpTo(p, r, n) && Whole(os, n) && LongestPrefix(p, r.coverage.gaps, os, n)
                && (forall x :: CountedBefore(os, n, x) <==> CertifiedHistory(g, p, r, x))
                && (r.coverage.complete <==> n == |p.spine| && r.coverage.gaps == [])
  }

  /** The unattributed commits are the spine commits that no origin holds. */
  ghost predicate UnattributedAreUnheld(p: Interval, r: Report) {
    var os := OriginsOf(p, r.landings, r.directPushes);
    && (forall id :: id in r.unattributed ==> id in p.spine)
    && (forall i :: 0 <= i < |p.spine| ==> (p.spine[i] in r.unattributed <==> !Held(os, i)))
  }

  /** A complete report certifies the head, has no gaps and leaves nothing unattributed. */
  ghost predicate CompleteMeansAll(p: Interval, r: Report) {
    r.coverage.complete ==>
      r.coverage.certifiedHead == p.query.bounds.head && r.coverage.gaps == [] && r.unattributed == []
  }

  ghost predicate ReportSound(g: Ancestry, p: Interval, r: Report) {
    && Conserves(g, p, r) && CertifiesExactly(g, p, r) && CompleteMeansAll(p, r) && UnattributedAreUnheld(p, r)
    && AllSound(g, p, r.landings) && Disjoint(r.landings)
    && SoundPushes(g, p, Owners(r.landings), r.directPushes, |p.spine|)
  }

  /** Every unattributed commit lies in a reported gap, and a report without gaps is complete. */
  ghost predicate NothingLost(p: Interval, r: Report) {
    && (forall i :: 0 <= i < |p.spine| && p.spine[i] in r.unattributed ==> Blocks(p, r.coverage.gaps, i))
    && (r.coverage.complete <==> r.coverage.gaps == [])
  }

  lemma FinishLosesNothing(p: Interval, inventory: Inventory, f: Findings)
    requires Explained(p, f) && Distinct(p.spine)
    ensures NothingLost(p, Finish(p, inventory, f))
  {
    hide Owners, Blocks, Blocked;
    var r := Finish(p, inventory, f);
    UnownedExact(p, Owned(f), 0);
    assert p.spine[0..] == p.spine;
    FinishedGapsBlock(p, f.gaps, r.coverage.gaps);
    forall i | 0 <= i < |p.spine| && p.spine[i] !in Owned(f) ensures Blocks(p, f.gaps, i) {
      assert SettledAt(p, Owners(f.landings), f.pushes, f.gaps, i);
      PushedIsOwned(f, p.spine[i]);
    }
    if f.gaps == [] {
      NoGapsNoBlocks(p);
      NothingBlocked(p);
      assert forall i :: 0 <= i < |p.spine| ==> Certifiable(p, Owned(f), Blocked(p, f.gaps), i);
    }
  }

  lemma NoGapsNoBlocks(p: Interval)
    ensures forall i :: !Blocks(p, [], i)
  {
  }

  lemma PushedIsOwned(f: Findings, id: Id)
    ensures id in Owners(f.landings) || PushedAt(f.pushes, id) ==> id in Owned(f)
  {
    if PushedAt(f.pushes, id) {
      var k :| 0 <= k < |f.pushes| && f.pushes[k].terminal == id;
      assert f.pushes[k] in f.pushes;
    }
  }

  lemma SortKeepsSound(g: Ancestry, p: Interval, ls: seq<Landing>, sorted: seq<Landing>)
    requires AllSound(g, p, ls) && Disjoint(ls) && multiset(sorted) == multiset(ls)
    ensures AllSound(g, p, sorted) && Disjoint(sorted) && Owners(sorted) == Owners(ls)
  {
    hide SoundLanding, Overlap;
    MembersOfPermutation(sorted, ls);
    forall i | 0 <= i < |sorted| ensures SoundLanding(g, p, sorted[i]) && sorted[i].candidateId != "" {
      assert sorted[i] in ls;
    }
    SortKeepsDisjoint(g, p, ls, sorted);
  }

  /** Two equal landings would overlap, so disjoint sound landings are distinct, in any order. */
  lemma SortKeepsDisjoint(g: Ancestry, p: Interval, ls: seq<Landing>, sorted: seq<Landing>)
    requires AllSound(g, p, ls) && Disjoint(ls) && multiset(sorted) == multiset(ls)
    ensures Disjoint(sorted)
  {
    hide SoundLanding;
    forall i, j | 0 <= i < j < |ls| ensures ls[i] != ls[j] {
      SelfOverlap(g, p, ls[i]);
      assert !Overlap(ls[i].spine, ls[j].spine);
    }
    DistinctPermutation(ls, sorted);
    MembersOfPermutation(ls, sorted);
    forall i, j | 0 <= i < j < |sorted| ensures !Overlap(sorted[i].spine, sorted[j].spine) {
      assert sorted[i] in ls && sorted[j] in ls;
      var a :| 0 <= a < |ls| && ls[a] == sorted[i];
      var b :| 0 <= b < |ls| && ls[b] == sorted[j];
      assert a != b;
      OverlapSymmetric(ls[a].spine, ls[b].spine);
    }
  }

  lemma OverlapSymmetric(a: seq<Id>, b: seq<Id>)
    ensures Overlap(a, b) <==> Overlap(b, a)
  {
    if Overlap(a, b) { var id :| id in a && id in b; assert Overlap(b, a); }
    if Overlap(b, a) { var id :| id in b && id in a; assert Overlap(a, b); }
  }

  lemma SelfOverlap(g: Ancestry, p: Interval, l: Landing)
    requires SoundLanding(g, p, l)
    ensures Overlap(l.spine, l.spine)
  {
    TerminalIsOwned(g, p, l);
  }

  lemma {:induction false} UnownedExact(p: Interval, owned: set<Id>, i: nat)
    requires i <= |p.spine| && Distinct(p.spine)
    ensures forall id :: id in UnownedFrom(p, owned, i) <==> id in p.spine[i..] && id !in owned
    decreases |p.spine| - i
  {
    if i < |p.spine| {
      UnownedExact(p, owned, i + 1);
      assert p.spine[i..] == [p.spine[i]] + p.spine[i + 1..];
    }
  }

  /** Filling in and sorting the gaps changes nothing about what they block. */
  lemma FinishedGapsBlock(p: Interval, gaps: seq<Gap>, finished: seq<Gap>)
    requires multiset(finished) == multiset(Map(gaps, Fill(p)))
    ensures forall i :: Blocks(p, finished, i) <==> Blocks(p, gaps, i)
    ensures finished == [] <==> gaps == []
  {
    var filled := Map(gaps, Fill(p));
    MembersOfPermutation(finished, filled);
    assert |multiset(finished)| == |finished| && |multiset(filled)| == |filled|;
    forall i ensures Blocks(p, finished, i) <==> Blocks(p, gaps, i) {
      if Blocks(p, finished, i) {
        var k :| 0 <= k < |finished| && Covers(p, finished[k].span, i);
        assert finished[k] in filled;
        var m :| 0 <= m < |filled| && filled[m] == finished[k];
        assert Covers(p, gaps[m].span, i);
      }
      if Blocks(p, gaps, i) {
        var m :| 0 <= m < |gaps| && Covers(p, gaps[m].span, i);
        assert filled[m] in finished;
        var k :| 0 <= k < |finished| && finished[k] == filled[m];
        assert Covers(p, finished[k].span, i);
      }
    }
  }

  /** The report that finishing makes of sound findings accounts for every commit at most once,
      certifies a whole prefix exactly, and is complete only when everything is accounted for. */
  lemma FinishedReportSound(g: Ancestry, p: Interval, inventory: Inventory, f: Findings)
    requires History(g) && CompleteInterval(g, p) && SoundFindings(g, p, f)
    ensures ReportSound(g, p, Finish(p, inventory, f))
  {
    var r := Finish(p, inventory, f);
    var n := Certified(p, f);
    var f' := f.(landings := r.landings);
    SortKeepsSound(g, p, f.landings, r.landings);
    SortedFindingsSound(g, p, f, f');
    FinishedGapsBlock(p, f.gaps, r.coverage.gaps);
    FinishedParts(g, p, f', n, r);
  }

  lemma SortedFindingsSound(g: Ancestry, p: Interval, f: Findings, f': Findings)
    requires SoundFindings(g, p, f) && multiset(f'.landings) == multiset(f.landings)
    requires f' == f.(landings := f'.landings)
    requires AllSound(g, p, f'.landings) && Disjoint(f'.landings) && Owners(f'.landings) == Owners(f.landings)
    ensures SoundFindings(g, p, f') && Owned(f') == Owned(f) && Certified(p, f') == Certified(p, f)
  {
    hide SoundLanding, Overlap, Uncut, SoundPushes, Owners, CertifiedFrom, Blocked;
    MembersOfPermutation(f'.landings, f.landings);
    forall k, i | 0 <= k < |f.gaps| && 0 <= i < |f'.landings| ensures Uncut(p, f.gaps[k].span, f'.landings[i]) {
      assert f'.landings[i] in f.landings;
      var j :| 0 <= j < |f.landings| && f.landings[j] == f'.landings[i];
      assert Uncut(p, f.gaps[k].span, f.landings[j]);
    }
  }

  lemma FinishedParts(g: Ancestry, p: Interval, f: Findings, n: int, r: Report)
    requires History(g) && CompleteInterval(g, p) && SoundFindings(g, p, f) && n == Certified(p, f)
    requires r.landings == f.landings && r.directPushes == f.pushes
    requires r.unattributed == UnownedFrom(p, Owned(f), 0)
    requires r.coverage.complete <==> n == |p.spine| && f.gaps == []
    requires f.gaps == [] <==> r.coverage.gaps == []
    requires forall i :: Blocks(p, r.coverage.gaps, i) <==> Blocks(p, f.gaps, i)
    requires r.coverage.certifiedHead == Prev(p, n)
    ensures ReportSound(g, p, r)
  {
    hide SoundPushes, KnownGaps, NothingCut, AllSound, Disjoint, SoundLanding, Blocked, Owned, Certified, Stretch;
    hide OriginsOf, Separate, Exclusive, Owners, UnownedFrom, Contribution, Held, Blocks;
    var os := OriginsOf(p, f.landings, f.pushes);
    OriginsAreStretches(g, p, f.landings, f.pushes);
    OriginsSeparate(g, p, f.landings, f.pushes);
    SeparateExclusive(g, p, os);
    forall k | 0 <= k < |os| ensures os[k].commits <= Reach(g, p.query.bounds.head) - Reach(g, p.query.bounds.base) {
      StretchInside(g, p, os[k].first, os[k].last);
    }
    PrefixIsLongest(g, p, f, n);
    CertifiedIsWhole(g, p, f);
    PrefixAccounted(g, p, os, n);
    assert CertifiesUpTo(p, r, n);
    assert LongestPrefix(p, r.coverage.gaps, os, n);
    UnownedExact(p, Owned(f), 0);
    assert p.spine[0..] == p.spine;
    forall i | 0 <= i < |p.spine| ensures p.spine[i] in r.unattributed <==> !Held(os, i) {
      OwnedIsHeld(g, p, f, i);
    }
    if r.coverage.complete {
      forall x | x in Reach(g, p.query.bounds.head) - Reach(g, p.query.bounds.base)
        ensures exists k :: 0 <= k < |os| && x in os[k].commits {
        assert CountedBefore(os, n, x);
      }
      assert forall id :: id in r.unattributed ==> id in p.spine;
      HeadIsMember(r.unattributed);
    }
  }

  lemma HeadIsMember(s: seq<Id>)
    ensures s == [] || s[0] in s
  {
  }

  lemma OwnedIsHeld(g: Ancestry, p: Interval, f: Findings, i: int)
    requires FirstParentSpine(g, p) && SoundFindings(g, p, f) && 0 <= i < |p.spine|
    ensures p.spine[i] in Owned(f) <==> Held(OriginsOf(p, f.landings, f.pushes), i)
  {
    if p.spine[i] in Owned(f) { OwnedThenHeld(g, p, f, i); }
    if Held(OriginsOf(p, f.landings, f.pushes), i) { HeldThenOwned(g, p, f, i); }
  }

  lemma PrefixIsLongest(g: Ancestry, p: Interval, f: Findings, n: int)
    requires FirstParentSpine(g, p) && SoundFindings(g, p, f) && n == Certified(p, f)
    ensures LongestPrefix(p, f.gaps, OriginsOf(p, f.landings, f.pushes), n)
  {
    hide SoundPushes, KnownGaps, NothingCut, AllSound, Disjoint, Blocked, Blocks, Owned, Certified, OriginsOf, Held;
    SpineDistinct(g, p);
    CertifiedEnds(p, f);
    forall i | 0 <= i < |p.spine|
      ensures Certifiable(p, Owned(f), Blocked(p, f.gaps), i) <==>
              Held(OriginsOf(p, f.landings, f.pushes), i) && !Blocks(p, f.gaps, i) {
      OwnedIsHeld(g, p, f, i);
      BlockedAt(p, f.gaps, i);
    }
    forall i | 0 <= i < n ensures Held(OriginsOf(p, f.landings, f.pushes), i) && !Blocks(p, f.gaps, i) {
      assert Certifiable(p, Owned(f), Blocked(p, f.gaps), i);
    }
  }
}
