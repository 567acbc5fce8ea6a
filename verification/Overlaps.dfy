/** Rejecting landings that claim the same spine commit. */
module Overlaps {
  import opened Model
  import opened Ordering

  predicate Overlap(a: seq<Id>, b: seq<Id>) {
    exists id :: id in a && id in b
  }

  /** Landing `i` repeats a commit or shares one with another landing, rejected or not. */
  predicate Clashes(ls: seq<Landing>, i: nat)
    requires i < |ls|
  {
    !Distinct(ls[i].spine) || exists j :: 0 <= j < |ls| && j != i && Overlap(ls[i].spine, ls[j].spine)
  }

  function OverlapGap(l: Landing): Gap {
    Gap(l.candidateId, l.terminal, CONFLICT, Span(l.before, l.terminal))
  }

  /** The first `n` landings that clash with nothing, in order. */
  function Survivors(ls: seq<Landing>, n: nat): (r: seq<Landing>)
    requires n <= |ls|
    ensures |r| <= n
  {
    if n == 0 then []
    else Survivors(ls, n - 1) + if Clashes(ls, n - 1) then [] else [ls[n - 1]]
  }

  /** One gap for each of the first `n` landings that clashes. */
  function OverlapGaps(ls: seq<Landing>, n: nat): seq<Gap>
    requires n <= |ls|
  {
    if n == 0 then []
    else OverlapGaps(ls, n - 1) + if Clashes(ls, n - 1) then [OverlapGap(ls[n - 1])] else []
  }

  // ----- finding the clashes -----

  /** Spine entry `y` of landing `x` was visited before entry `m` of landing `i`. */
  ghost predicate Visited(ls: seq<Landing>, i: nat, m: nat, x: int, y: int) {
    0 <= x < |ls| && 0 <= y < |ls[x].spine| && (x < i || (x == i && y < m))
  }

  /** Landing `k` has a visited entry that another visited entry repeats. */
  ghost predicate Marked(ls: seq<Landing>, i: nat, m: nat, k: int) {
    exists y, u, w :: Visited(ls, i, m, k, y) && Visited(ls, i, m, u, w) && Repeated(ls, k, y, u, w)
  }

  ghost predicate Repeated(ls: seq<Landing>, x: int, y: int, u: int, w: int)
    requires 0 <= x < |ls| && 0 <= y < |ls[x].spine| && 0 <= u < |ls| && 0 <= w < |ls[u].spine|
  {
    (u != x || w != y) && ls[u].spine[w] == ls[x].spine[y]
  }

  /** The owner table names, for exactly the visited IDs, a landing that has the ID. */
  ghost predicate OwnersUpTo(ls: seq<Landing>, i: nat, m: nat, owners: map<Id, nat>) {
    && (forall x, y :: Visited(ls, i, m, x, y) ==> ls[x].spine[y] in owners)
    && (forall id :: id in owners ==> exists y :: Visited(ls, i, m, owners[id], y) && ls[owners[id]].spine[y] == id)
  }

  lemma VisitNext(ls: seq<Landing>, i: nat, m: nat, x: int, y: int)
    requires i < |ls| && m < |ls[i].spine|
    ensures Visited(ls, i, m + 1, x, y) <==> Visited(ls, i, m, x, y) || (x == i && y == m)
  {
  }

  /** A fresh ID marks nobody. */
  lemma MarkFresh(ls: seq<Landing>, i: nat, m: nat, owners: map<Id, nat>, k: int)
    requires i < |ls| && m < |ls[i].spine| && OwnersUpTo(ls, i, m, owners)
    requires ls[i].spine[m] !in owners
    ensures Marked(ls, i, m + 1, k) <==> Marked(ls, i, m, k)
  {
    if Marked(ls, i, m + 1, k) {
      var y, u, w :| Visited(ls, i, m + 1, k, y) && Visited(ls, i, m + 1, u, w) && Repeated(ls, k, y, u, w);
      assert Visited(ls, i, m, k, y) && Visited(ls, i, m, u, w);
    }
    if Marked(ls, i, m, k) {
      var y, u, w :| Visited(ls, i, m, k, y) && Visited(ls, i, m, u, w) && Repeated(ls, k, y, u, w);
      assert Visited(ls, i, m + 1, k, y) && Visited(ls, i, m + 1, u, w);
    }
  }

  /** A known ID marks its recorded owner and the landing at hand; any other landing that has
      the ID was marked when it met the owner. */
  lemma MarkKnown(ls: seq<Landing>, i: nat, m: nat, owners: map<Id, nat>, k: int)
    requires i < |ls| && m < |ls[i].spine| && OwnersUpTo(ls, i, m, owners)
    requires ls[i].spine[m] in owners
    ensures Marked(ls, i, m + 1, k) <==> Marked(ls, i, m, k) || k == owners[ls[i].spine[m]] || k == i
  {
    var id := ls[i].spine[m];
    var o := owners[id];
    var z :| Visited(ls, i, m, o, z) && ls[o].spine[z] == id;
    assert Visited(ls, i, m + 1, o, z) && Visited(ls, i, m + 1, i, m);
    assert Repeated(ls, o, z, i, m) && Repeated(ls, i, m, o, z);
    if Marked(ls, i, m, k) {
      var y, u, w :| Visited(ls, i, m, k, y) && Visited(ls, i, m, u, w) && Repeated(ls, k, y, u, w);
      assert Visited(ls, i, m + 1, k, y) && Visited(ls, i, m + 1, u, w);
    }
    if Marked(ls, i, m + 1, k) && k != i && k != o {
      var y, u, w :| Visited(ls, i, m + 1, k, y) && Visited(ls, i, m + 1, u, w) && Repeated(ls, k, y, u, w);
      if u == i && w == m {
        assert Repeated(ls, k, y, o, z);
      }
    }
  }

  lemma MarkedIsClash(ls: seq<Landing>, k: nat)
    requires k < |ls|
    ensures Marked(ls, |ls|, 0, k) <==> Clashes(ls, k)
  {
    if Marked(ls, |ls|, 0, k) {
      var y, u, w :| Visited(ls, |ls|, 0, k, y) && Visited(ls, |ls|, 0, u, w) && Repeated(ls, k, y, u, w);
      if u != k {
        assert ls[k].spine[y] in ls[u].spine;
        assert Overlap(ls[k].spine, ls[u].spine);
      }
    }
    if !Distinct(ls[k].spine) {
      var y, w :| 0 <= y < w < |ls[k].spine| && ls[k].spine[y] == ls[k].spine[w];
      assert Visited(ls, |ls|, 0, k, y) && Visited(ls, |ls|, 0, k, w) && Repeated(ls, k, y, k, w);
    } else if Clashes(ls, k) {
      var j :| 0 <= j < |ls| && j != k && Overlap(ls[k].spine, ls[j].spine);
      var id :| id in ls[k].spine && id in ls[j].spine;
      var y :| 0 <= y < |ls[k].spine| && ls[k].spine[y] == id;
      var w :| 0 <= w < |ls[j].spine| && ls[j].spine[w] == id;
      assert Visited(ls, |ls|, 0, k, y) && Visited(ls, |ls|, 0, j, w) && Repeated(ls, k, y, j, w);
    }
  }

  method VisitLanding(ls: seq<Landing>, i: nat, owners0: map<Id, nat>, conflicts0: set<int>)
    returns (owners: map<Id, nat>, conflicts: set<int>)
    requires i < |ls| && OwnersUpTo(ls, i, 0, owners0)
    requires forall k :: k in conflicts0 <==> Marked(ls, i, 0, k)
    ensures OwnersUpTo(ls, i, |ls[i].spine|, owners)
    ensures forall k :: k in conflicts <==> Marked(ls, i, |ls[i].spine|, k)
  {
    hide Marked, Distinct;
    owners, conflicts := owners0, conflicts0;
    for m := 0 to |ls[i].spine|
      invariant OwnersUpTo(ls, i, m, owners)
      invariant forall k :: k in conflicts <==> Marked(ls, i, m, k)
    {
      var id := ls[i].spine[m];
      forall x, y ensures Visited(ls, i, m + 1, x, y) <==> Visited(ls, i, m, x, y) || (x == i && y == m) {
        VisitNext(ls, i, m, x, y);
      }
      if id in owners {
        ghost var earlier := conflicts;
        conflicts := conflicts + {owners[id], i};
        forall k ensures k in conflicts <==> Marked(ls, i, m + 1, k) {
          MarkKnown(ls, i, m, owners, k);
          assert k in earlier <==> Marked(ls, i, m, k);
        }
      } else {
        forall k ensures k in conflicts <==> Marked(ls, i, m + 1, k) {
          MarkFresh(ls, i, m, owners, k);
          assert k in conflicts <==> Marked(ls, i, m, k);
        }
        assert Visited(ls, i, m + 1, i, m);
        owners := owners[id := i];
      }
    }
  }

  method FindConflicts(ls: seq<Landing>) returns (conflicts: set<int>)
    ensures forall k :: 0 <= k < |ls| ==> (k in conflicts <==> Clashes(ls, k))
  {
    var owners: map<Id, nat> := map[];
    conflicts := {};
    for i := 0 to |ls|
      invariant OwnersUpTo(ls, i, 0, owners)
      invariant forall k :: k in conflicts <==> Marked(ls, i, 0, k)
    {
      owners, conflicts := VisitLanding(ls, i, owners, conflicts);
      assert forall x, y :: Visited(ls, i, |ls[i].spine|, x, y) <==> Visited(ls, i + 1, 0, x, y);
      forall k ensures Marked(ls, i, |ls[i].spine|, k) <==> Marked(ls, i + 1, 0, k) {
        if Marked(ls, i + 1, 0, k) {
          var y, u, w :| Visited(ls, i + 1, 0, k, y) && Visited(ls, i + 1, 0, u, w) && Repeated(ls, k, y, u, w);
          assert Visited(ls, i, |ls[i].spine|, k, y) && Visited(ls, i, |ls[i].spine|, u, w);
        }
      }
    }
    forall k | 0 <= k < |ls| ensures k in conflicts <==> Clashes(ls, k) {
      MarkedIsClash(ls, k);
    }
  }

  /** The in-place filter: survivors move to the front of the slice without ever overwriting a
      landing that is still to be read. */
  method RejectOverlaps(a: array<Landing>) returns (kept: nat, gaps: seq<Gap>)
    modifies a
    ensures kept <= a.Length
    ensures a[..kept] == Survivors(old(a[..]), a.Length)
    ensures gaps == OverlapGaps(old(a[..]), a.Length)
  {
    ghost var ls := a[..];
    var conflicts := FindConflicts(a[..]);
    kept, gaps := 0, [];
    for i := 0 to a.Length
      invariant 0 <= kept <= i
      invariant forall k :: i <= k < a.Length ==> a[k] == ls[k]
      invariant a[..kept] == Survivors(ls, i)
      invariant gaps == OverlapGaps(ls, i)
    {
      if i in conflicts {
        gaps := gaps + [OverlapGap(a[i])];
      } else {
        a[kept] := a[i];
        kept := kept + 1;
      }
    }
  }

  // ----- what is left -----

  lemma {:induction false} SurvivorOrigin(ls: seq<Landing>, n: nat, i: nat) returns (k: nat)
    requires n <= |ls| && i < |Survivors(ls, n)|
    ensures k < n && !Clashes(ls, k) && Survivors(ls, n)[i] == ls[k]
    ensures |Survivors(ls, k)| == i
    decreases n
  {
    if i < |Survivors(ls, n - 1)| {
      k := SurvivorOrigin(ls, n - 1, i);
    } else {
      k := n - 1;
    }
  }

  lemma {:induction false} SurvivorsGrow(ls: seq<Landing>, m: nat, n: nat)
    requires m <= n <= |ls|
    ensures |Survivors(ls, m)| <= |Survivors(ls, n)|
    decreases n
  {
    if m < n {
      SurvivorsGrow(ls, m, n - 1);
    }
  }

  /** Survivors keep their order, repeat no commit, and are disjoint from every other landing. */
  lemma SurvivorsDisjoint(ls: seq<Landing>)
    ensures var s := Survivors(ls, |ls|);
            && (forall i :: 0 <= i < |s| ==> Distinct(s[i].spine))
            && (forall i, j :: 0 <= i < j < |s| ==> !Overlap(s[i].spine, s[j].spine))
  {
    var s := Survivors(ls, |ls|);
    forall i | 0 <= i < |s| ensures Distinct(s[i].spine) {
      var k := SurvivorOrigin(ls, |ls|, i);
    }
    forall i, j | 0 <= i < j < |s| ensures !Overlap(s[i].spine, s[j].spine) {
      var k := SurvivorOrigin(ls, |ls|, i);
      var m := SurvivorOrigin(ls, |ls|, j);
      if m <= k {
        SurvivorsGrow(ls, m, k);
      }
    }
  }

  /** A clashing landing survives nowhere: survivors share no commit with it. */
  lemma SurvivorsAvoidRejected(ls: seq<Landing>, i: nat, k: nat)
    requires i < |Survivors(ls, |ls|)| && k < |ls| && Clashes(ls, k)
    ensures !Overlap(Survivors(ls, |ls|)[i].spine, ls[k].spine)
  {
    var m := SurvivorOrigin(ls, |ls|, i);
  }

  lemma {:induction false} OverlapGapOrigin(ls: seq<Landing>, n: nat, g: Gap) returns (k: nat)
    requires n <= |ls| && g in OverlapGaps(ls, n)
    ensures k < n && Clashes(ls, k) && g == OverlapGap(ls[k])
    decreases n
  {
    if n > 0 {
      if g in OverlapGaps(ls, n - 1) {
        k := OverlapGapOrigin(ls, n - 1, g);
      } else {
        k := n - 1;
      }
    }
  }

  function CandidateOf(l: Landing): string {
    l.candidateId
  }

  function GapCandidate(g: Gap): string {
    g.candidateId
  }

  ghost function Kept(ls: seq<Landing>, n: nat): multiset<string>
    requires n <= |ls|
  {
    multiset(Map(Survivors(ls, n), CandidateOf))
  }

  ghost function Reported(ls: seq<Landing>, n: nat): multiset<string>
    requires n <= |ls|
  {
    multiset(Map(OverlapGaps(ls, n), GapCandidate))
  }

  lemma ConserveStep(ls: seq<Landing>, n: nat)
    requires 0 < n <= |ls|
    ensures Kept(ls, n) + Reported(ls, n) == Kept(ls, n - 1) + Reported(ls, n - 1) + multiset{ls[n - 1].candidateId}
  {
    var l := ls[n - 1];
    if Clashes(ls, n - 1) {
      MapAppendOne(OverlapGaps(ls, n - 1), OverlapGap(l), GapCandidate);
      assert Survivors(ls, n) == Survivors(ls, n - 1);
    } else {
      MapAppendOne(Survivors(ls, n - 1), l, CandidateOf);
      assert OverlapGaps(ls, n) == OverlapGaps(ls, n - 1);
    }
  }

  /** Every landing is either kept once or reported once. */
  lemma {:induction false} OverlapsConserve(ls: seq<Landing>, n: nat)
    requires n <= |ls|
    ensures Kept(ls, n) + Reported(ls, n) == multiset(Map(ls[..n], CandidateOf))
  {
    if n == 0 {
      assert ls[..n] == [];
    } else {
      var front, l := ls[..n - 1], ls[n - 1];
      assert ls[..n] == front + [l];
      assert Kept(ls, n) + Reported(ls, n) == multiset(Map(front + [l], CandidateOf)) by {
        OverlapsConserve(ls, n - 1);
        ConserveStep(ls, n);
        MapAppendOne(front, l, CandidateOf);
      }
    }
  }
}
