/** Finishing a report: certified prefix, unattributed commits, completeness, final order. */
module Finishing {
  import opened Model
  import opened Graph
  import opened Intervals
  import opened Overlaps
  import opened Blocking
  import opened Origins
  import opened Resolution
  import opened Ordering

  // ----- the order of gaps -----

  function GapKey(g: Gap): seq<string> {
    [g.candidateId, g.reason, g.objectId, g.span.before, g.span.through]
  }

  /** Field by field comparison of keys of equal length. */
  predicate KeyBelow(a: seq<string>, b: seq<string>) {
    a == [] || (b != [] && (if a[0] == b[0] then KeyBelow(a[1..], b[1..]) else Below(a[0], b[0])))
  }

  lemma {:induction false} KeyTotal(a: seq<string>, b: seq<string>)
    ensures KeyBelow(a, b) || KeyBelow(b, a)
  {
    if a != [] && b != [] {
      BelowTotal(a[0], b[0]);
      KeyTotal(a[1..], b[1..]);
    }
  }

  lemma {:induction false} KeyAntisymmetric(a: seq<string>, b: seq<string>)
    requires |a| == |b| && KeyBelow(a, b) && KeyBelow(b, a)
    ensures a == b
  {
    if a != [] {
      if a[0] != b[0] {
        BelowAntisymmetric(a[0], b[0]);
      }
      KeyAntisymmetric(a[1..], b[1..]);
      assert a == [a[0]] + a[1..] && b == [b[0]] + b[1..];
    }
  }

  lemma {:induction false} KeyTransitive(a: seq<string>, b: seq<string>, c: seq<string>)
    requires KeyBelow(a, b) && KeyBelow(b, c)
    ensures KeyBelow(a, c)
  {
    if a != [] {
      if a[0] == b[0] && b[0] == c[0] {
        KeyTransitive(a[1..], b[1..], c[1..]);
      } else {
        BelowReflexive(a[0]);
        BelowReflexive(c[0]);
        BelowTransitive(a[0], b[0], c[0]);
        if a[0] == c[0] {
          BelowAntisymmetric(a[0], b[0]);
        }
      }
    }
  }

  lemma {:induction false} BelowReflexive(a: string)
    ensures Below(a, a)
  {
    BelowTotal(a, a);
  }

  predicate GapBelow(a: Gap, b: Gap) {
    KeyBelow(GapKey(a), GapKey(b))
  }

  lemma GapOrder()
    ensures TotalPreorder(GapBelow)
    ensures forall a, b :: GapBelow(a, b) && GapBelow(b, a) ==> a == b
  {
    forall a, b ensures GapBelow(a, b) || GapBelow(b, a) { KeyTotal(GapKey(a), GapKey(b)); }
    forall a, b, c | GapBelow(a, b) && GapBelow(b, c) ensures GapBelow(a, c) {
      KeyTransitive(GapKey(a), GapKey(b), GapKey(c));
    }
    forall a, b | GapBelow(a, b) && GapBelow(b, a) ensures a == b {
      KeyAntisymmetric(GapKey(a), GapKey(b));
      assert GapKey(a)[0] == GapKey(b)[0] && GapKey(a)[1] == GapKey(b)[1] && GapKey(a)[2] == GapKey(b)[2];
      assert GapKey(a)[3] == GapKey(b)[3] && GapKey(a)[4] == GapKey(b)[4];
    }
  }

  lemma GapSortsAgree(a: seq<Gap>, b: seq<Gap>)
    requires multiset(a) == multiset(b) && SortedBy(a, GapBelow) && SortedBy(b, GapBelow)
    ensures a == b
  {
    GapOrder();
    SortedPermutationsEqual(a, b, GapBelow);
  }

  // ----- the finished report as a function of the findings -----

  function Fill(p: Interval): Gap -> Gap {
    (g: Gap) => g.(span := Effective(p, g.span))
  }

  function ByPosition(p: Interval): (Landing, Landing) -> bool {
    (a: Landing, b: Landing) => Position(p.spine, a.terminal) <= Position(p.spine, b.terminal)
  }

  function Owned(f: Findings): set<Id> {
    Owners(f.landings) + set d | d in f.pushes :: d.terminal
  }

  predicate Certifiable(p: Interval, owned: set<Id>, blocked: set<Id>, i: int)
    requires 0 <= i < |p.spine|
  {
    p.spine[i] in owned && p.spine[i] !in blocked
  }

  /** The end of the longest owned and unblocked prefix, counted from position `i`. */
  function CertifiedFrom(p: Interval, owned: set<Id>, blocked: set<Id>, i: nat): (n: nat)
    requires i <= |p.spine|
    ensures i <= n <= |p.spine|
    ensures forall k :: i <= k < n ==> Certifiable(p, owned, blocked, k)
    ensures n < |p.spine| ==> !Certifiable(p, owned, blocked, n)
    decreases |p.spine| - i
  {
    if i < |p.spine| && Certifiable(p, owned, blocked, i) then CertifiedFrom(p, owned, blocked, i + 1) else i
  }

  function Certified(p: Interval, f: Findings): (n: nat)
    ensures n <= |p.spine|
  {
    CertifiedFrom(p, Owned(f), Blocked(p, f.gaps), 0)
  }

  function UnownedFrom(p: Interval, owned: set<Id>, i: nat): seq<Id>
    requires i <= |p.spine|
    decreases |p.spine| - i
  {
    if i == |p.spine| then []
    else (if p.spine[i] in owned then [] else [p.spine[i]]) + UnownedFrom(p, owned, i + 1)
  }

  function Finish(p: Interval, inventory: Inventory, f: Findings): Report {
    var n := Certified(p, f);
    Report(Sort(f.landings, ByPosition(p)), f.integrated, f.pushes, UnownedFrom(p, Owned(f), 0),
           Coverage(p.query.bounds, inventory, n == |p.spine| && f.gaps == [], Prev(p, n),
                    Sort(Map(f.gaps, Fill(p)), GapBelow)))
  }

  /** Findings that differ only in the order of their gaps finish as the same report. */
  lemma FinishIgnoresGapOrder(p: Interval, inventory: Inventory, a: Findings, b: Findings)
    requires SameFindings(a, b)
    ensures Finish(p, inventory, a) == Finish(p, inventory, b)
  {
    BlockedIgnoresOrder(p, a.gaps, b.gaps);
    assert |multiset(a.gaps)| == |a.gaps| && |multiset(b.gaps)| == |b.gaps|;
    MapPermutation(a.gaps, b.gaps, Fill(p));
    GapOrder();
    SortSorted(Map(a.gaps, Fill(p)), GapBelow);
    SortSorted(Map(b.gaps, Fill(p)), GapBelow);
    GapSortsAgree(Sort(Map(a.gaps, Fill(p)), GapBelow), Sort(Map(b.gaps, Fill(p)), GapBelow));
  }

  // ----- finishing in place -----

  lemma PositionOrder(p: Interval)
    ensures TotalPreorder(ByPosition(p))
  {
  }

  lemma SamePositionSameLanding(g: Ancestry, p: Interval, ls: seq<Landing>, i: int, j: int)
    requires AllSound(g, p, ls) && Disjoint(ls) && 0 <= i < |ls| && 0 <= j < |ls|
    requires Position(p.spine, ls[i].terminal) == Position(p.spine, ls[j].terminal)
    ensures i == j
  {
    TerminalIsOwned(g, p, ls[i]);
    TerminalIsOwned(g, p, ls[j]);
    assert ls[i].terminal == ls[j].terminal;
    assert Overlap(ls[i].spine, ls[j].spine) && Overlap(ls[j].spine, ls[i].spine);
  }

  /** Disjoint landings have different terminals, so their order by position is determined. */
  lemma LandingSortsAgree(g: Ancestry, p: Interval, ls: seq<Landing>, a: seq<Landing>, b: seq<Landing>)
    requires AllSound(g, p, ls) && Disjoint(ls)
    requires multiset(a) == multiset(ls) && multiset(b) == multiset(ls)
    requires SortedBy(a, ByPosition(p)) && SortedBy(b, ByPosition(p))
    ensures a == b
  {
    hide AllSound, Disjoint, SoundLanding;
    MembersOfPermutation(a, ls);
    forall x, y | x in a && y in a && ByPosition(p)(x, y) && ByPosition(p)(y, x) ensures x == y {
      var i :| 0 <= i < |ls| && ls[i] == x;
      var j :| 0 <= j < |ls| && ls[j] == y;
      SamePositionSameLanding(g, p, ls, i, j);
    }
    SortedPermutationsEqual(a, b, ByPosition(p));
  }

  method SortGaps(gaps: seq<Gap>) returns (r: seq<Gap>)
    ensures r == Sort(gaps, GapBelow)
  {
    GapOrder();
    r := SortFunc(gaps, GapBelow);
    SortSorted(gaps, GapBelow);
    GapSortsAgree(r, Sort(gaps, GapBelow));
  }

  method SortLandings(ghost g: Ancestry, p: Interval, ls: seq<Landing>) returns (r: seq<Landing>)
    requires AllSound(g, p, ls) && Disjoint(ls)
    ensures r == Sort(ls, ByPosition(p))
  {
    PositionOrder(p);
    r := SortFunc(ls, ByPosition(p));
    SortSorted(ls, ByPosition(p));
    LandingSortsAgree(g, p, ls, r, Sort(ls, ByPosition(p)));
  }

  /** The scan of `finishCoverage`: `complete` stays set while the prefix is certified. */
  method ScanSpine(p: Interval, owners: set<Id>, blocked: set<Id>)
    returns (unattributed: seq<Id>, complete: bool, certifiedHead: Id)
    ensures unattributed == UnownedFrom(p, owners, 0)
    ensures certifiedHead == Prev(p, CertifiedFrom(p, owners, blocked, 0))
    ensures complete <==> CertifiedFrom(p, owners, blocked, 0) == |p.spine|
  {
    unattributed, complete, certifiedHead := [], true, p.query.bounds.base;
    ghost var n, all := CertifiedFrom(p, owners, blocked, 0), UnownedFrom(p, owners, 0);
    for i := 0 to |p.spine|
      invariant all == unattributed + UnownedFrom(p, owners, i)
      invariant complete <==> n >= i
      invariant complete ==> n == CertifiedFrom(p, owners, blocked, i)
      invariant certifiedHead == Prev(p, if n < i then n else i)
    {
      var id := p.spine[i];
      if id in blocked {
        complete := false;
      }
      if id !in owners {
        assert unattributed + ([id] + UnownedFrom(p, owners, i + 1)) ==
            (unattributed + [id]) + UnownedFrom(p, owners, i + 1);
        unattributed := unattributed + [id];
        complete := false;
      } else {
        assert [] + UnownedFrom(p, owners, i + 1) == UnownedFrom(p, owners, i + 1);
      }
      if complete {
        certifiedHead := id;
      }
    }
    assert unattributed + [] == unattributed;
  }

  method PushOwners(pushes: seq<DirectPush>) returns (owners: set<Id>)
    ensures owners == set d | d in pushes :: d.terminal
  {
    owners := {};
    for i := 0 to |pushes|
      invariant owners == set k | 0 <= k < i :: pushes[k].terminal
    {
      owners := owners + {pushes[i].terminal};
    }
    forall id ensures id in owners <==> id in (set d | d in pushes :: d.terminal) {
      if id in owners {
        var k :| 0 <= k < |pushes| && pushes[k].terminal == id;
        assert pushes[k] in pushes;
      }
    }
  }

  method FinishCoverage(ghost g: Ancestry, p: Interval, inventory: Inventory, f: Findings) returns (r: Report)
    requires FirstParentSpine(g, p) && SoundFindings(g, p, f)
    ensures r == Finish(p, inventory, f)
  {
    SpineIsAnchored(g, p);
    var owners := LandingOwners(f.landings);
    var pushed := PushOwners(f.pushes);
    var blocked := BlockedSpine(f.gaps, p);
    var unattributed, complete, certifiedHead := ScanSpine(p, owners + pushed, blocked);
    var landings := SortLandings(g, p, f.landings);
    var gaps := SortGaps(Map(f.gaps, Fill(p)));
    r := Report(landings, f.integrated, f.pushes, unattributed,
                Coverage(p.query.bounds, inventory, complete && |f.gaps| == 0, certifiedHead, gaps));
  }
}
