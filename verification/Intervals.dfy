/** The pinned interval as a first-parent chain, and what a stretch of it contributes. */
module Intervals {
  import opened Model
  import opened Graph
  import opened Ordering

  /** The commit before spine position `i`; the base before the first. */
  function Prev(p: Interval, i: int): Id
    requires 0 <= i <= |p.spine|
  {
    if i == 0 then p.query.bounds.base else p.spine[i - 1]
  }

  /** Spine commit `i` follows its first parent; the root has no parents. */
  ghost predicate SpineLink(g: Ancestry, p: Interval, i: int)
    requires 0 <= i < |p.spine|
  {
    && p.spine[i] in g
    && (if i == 0 && p.query.bounds.fromRoot then g[p.spine[i]] == []
        else |g[p.spine[i]]| > 0 && g[p.spine[i]][0] == Prev(p, i))
  }

  ghost predicate FirstParentSpine(g: Ancestry, p: Interval) {
    && (p.query.bounds.fromRoot <==> p.query.bounds.base == "")
    && (forall i :: 0 <= i < |p.spine| ==> SpineLink(g, p, i))
    && Prev(p, |p.spine|) == p.query.bounds.head
    && Distinct(p.spine) && p.query.bounds.base !in p.spine
  }

  /** What preparation promises about a complete interval. */
  ghost predicate CompleteInterval(g: Ancestry, p: Interval) {
    && FirstParentSpine(g, p)
    && p.query.complete && p.query.gaps == [] && p.query.bounds.head != ""
    && Commits(p.query.commits) == Reach(g, p.query.bounds.head) - Reach(g, p.query.bounds.base)
    && SortedBy(p.query.commits, Below) && Distinct(p.query.commits)
  }

  lemma BaseReach(g: Ancestry, p: Interval)
    requires History(g) && FirstParentSpine(g, p) && p.query.bounds.fromRoot
    ensures Reach(g, p.query.bounds.base) == iset{}
  {
    assert !ObjectId("");
    ReachOutside(g, "");
  }

  lemma SpineStep(g: Ancestry, p: Interval, i: int)
    requires History(g) && FirstParentSpine(g, p) && 0 <= i < |p.spine|
    ensures Reach(g, Prev(p, i)) <= Reach(g, p.spine[i])
    ensures p.spine[i] !in Reach(g, Prev(p, i)) && p.spine[i] in Reach(g, p.spine[i])
  {
    assert SpineLink(g, p, i);
    ReachSelf(g, p.spine[i]);
    if i == 0 && p.query.bounds.fromRoot {
      BaseReach(g, p);
    } else {
      ReachParent(g, p.spine[i], Prev(p, i));
      ParentsDoNotReach(g, p.spine[i], Prev(p, i));
    }
  }

  /** History only grows along the spine. */
  lemma {:induction false} SpineGrows(g: Ancestry, p: Interval, i: int, j: int)
    requires History(g) && FirstParentSpine(g, p) && 0 <= i <= j <= |p.spine|
    ensures Reach(g, Prev(p, i)) <= Reach(g, Prev(p, j))
    decreases j
  {
    if i < j {
      SpineGrows(g, p, i, j - 1);
      SpineStep(g, p, j - 1);
    }
  }

  /** The commits that positions `j` up to `k`, inclusive, bring in. */
  ghost function Stretch(g: Ancestry, p: Interval, j: int, k: int): iset<Id>
    requires 0 <= j <= k < |p.spine|
  {
    Reach(g, p.spine[k]) - Reach(g, Prev(p, j))
  }

  lemma StretchesDisjoint(g: Ancestry, p: Interval, j: int, k: int, m: int, n: int)
    requires History(g) && FirstParentSpine(g, p)
    requires 0 <= j <= k < m <= n < |p.spine|
    ensures Stretch(g, p, j, k) !! Stretch(g, p, m, n)
  {
    SpineGrows(g, p, k + 1, m);
  }

  lemma StretchInside(g: Ancestry, p: Interval, j: int, k: int)
    requires History(g) && FirstParentSpine(g, p)
    requires 0 <= j <= k < |p.spine|
    ensures Stretch(g, p, j, k) <= Reach(g, p.query.bounds.head) - Reach(g, p.query.bounds.base)
  {
    SpineGrows(g, p, 0, j);
    SpineGrows(g, p, k + 1, |p.spine|);
  }

  /** Every commit new since the base came in at one spine position. */
  lemma {:induction false} ArrivalPosition(g: Ancestry, p: Interval, n: int, x: Id) returns (i: int)
    requires History(g) && FirstParentSpine(g, p) && 0 <= n <= |p.spine|
    requires x in Reach(g, Prev(p, n)) && x !in Reach(g, p.query.bounds.base)
    ensures 0 <= i < n && x in Reach(g, p.spine[i]) && x !in Reach(g, Prev(p, i))
    decreases n
  {
    if x in Reach(g, Prev(p, n - 1)) {
      i := ArrivalPosition(g, p, n - 1, x);
    } else {
      i := n - 1;
    }
  }

  lemma PositionOf(p: Interval, i: int)
    requires 0 <= i < |p.spine| && Distinct(p.spine)
    ensures Position(p.spine, p.spine[i]) == i
  {
    var k := Position(p.spine, p.spine[i]);
    assert p.spine[i] in p.spine;
    assert p.spine[k] == p.spine[i];
  }

  /** Spine commit `i` has no parent but the commit before it. */
  ghost predicate OnlyParent(g: Ancestry, p: Interval, i: int) {
    0 <= i < |p.spine| && p.spine[i] in g && g[p.spine[i]] == [Prev(p, i)]
  }

  lemma CommitsAppend(s: seq<Id>, x: Id)
    ensures Commits(s + [x]) == Commits(s) + iset{x}
  {
  }

  lemma LinearStep(g: Ancestry, p: Interval, j: int, k: int)
    requires History(g) && FirstParentSpine(g, p) && 0 <= j <= k < |p.spine| && OnlyParent(g, p, k)
    ensures Stretch(g, p, j, k) == (Reach(g, Prev(p, k)) - Reach(g, Prev(p, j))) + iset{p.spine[k]}
  {
    ReachSingleParent(g, p.spine[k]);
    SpineGrows(g, p, j, k);
  }

  /** A stretch of single-parent commits brings in exactly those commits. */
  lemma {:induction false} LinearStretch(g: Ancestry, p: Interval, j: int, k: int)
    requires History(g) && FirstParentSpine(g, p) && 0 <= j <= k < |p.spine|
    requires forall i :: j <= i <= k ==> OnlyParent(g, p, i)
    ensures Commits(p.spine[j..k + 1]) == Stretch(g, p, j, k)
    decreases k
  {
    hide Reach, FirstParentSpine, History, OnlyParent;
    LinearStep(g, p, j, k);
    assert p.spine[j..k + 1] == p.spine[j..k] + [p.spine[k]];
    CommitsAppend(p.spine[j..k], p.spine[k]);
    if j < k {
      LinearStretch(g, p, j, k - 1);
    }
  }

  // ----- origins -----

  /** What an origin accounts for: everything it introduced and its terminal. */
  ghost function Contribution(introduced: seq<Id>, terminal: Id): iset<Id> {
    Commits(introduced) + iset{terminal}
  }

  /** A landing owns a contiguous stretch of the spine that ends at its terminal and starts just
      after its boundary, and introduces exactly what that stretch brings in. */
  ghost predicate SoundLanding(g: Ancestry, p: Interval, l: Landing) {
    var k := Position(p.spine, l.terminal);
    var j := k + 1 - |l.spine|;
    && 0 <= j <= k
    && l.spine == p.spine[j..k + 1] && l.before == Prev(p, j)
    && Contribution(l.introduced, l.terminal) == Stretch(g, p, j, k)
  }

  ghost predicate SoundPush(g: Ancestry, p: Interval, d: DirectPush) {
    var k := Position(p.spine, d.terminal);
    0 <= k && d.before == Prev(p, k) && Contribution(d.introduced, d.terminal) == Stretch(g, p, k, k)
  }

  /** A landing that lists a linear stretch as its spine and as what it introduced is sound. */
  lemma LinearLandingSound(g: Ancestry, p: Interval, j: int, k: int, l: Landing)
    requires History(g) && FirstParentSpine(g, p) && 0 <= j <= k < |p.spine|
    requires forall i :: j <= i <= k ==> OnlyParent(g, p, i)
    requires l.spine == l.introduced == p.spine[j..k + 1] && l.before == Prev(p, j) && l.terminal == p.spine[k]
    ensures SoundLanding(g, p, l)
  {
    PositionOf(p, k);
    LinearStretch(g, p, j, k);
    assert l.introduced[k - j] == l.terminal;
  }

  /** The first spine position of a landing. */
  function Start(p: Interval, l: Landing): int {
    Position(p.spine, l.terminal) + 1 - |l.spine|
  }

  lemma SoundStretch(g: Ancestry, p: Interval, l: Landing)
    requires SoundLanding(g, p, l)
    ensures 0 <= Start(p, l) <= Position(p.spine, l.terminal) < |p.spine|
    ensures Contribution(l.introduced, l.terminal) == Stretch(g, p, Start(p, l), Position(p.spine, l.terminal))
  {
  }

  lemma TerminalIsOwned(g: Ancestry, p: Interval, l: Landing)
    requires SoundLanding(g, p, l)
    ensures l.terminal in l.spine && l.terminal in p.spine
  {
    var k := Position(p.spine, l.terminal);
    assert l.spine[|l.spine| - 1] == p.spine[k];
  }

  lemma LandingPositions(g: Ancestry, p: Interval, l: Landing, i: int)
    requires SoundLanding(g, p, l) && Distinct(p.spine) && 0 <= i < |p.spine|
    ensures p.spine[i] in l.spine <==> Start(p, l) <= i <= Position(p.spine, l.terminal)
  {
    var j, k := Start(p, l), Position(p.spine, l.terminal);
    if p.spine[i] in l.spine {
      var m :| 0 <= m < |l.spine| && l.spine[m] == p.spine[i];
      assert l.spine[m] == p.spine[j + m];
    }
    if j <= i <= k {
      assert l.spine[i - j] == p.spine[i];
    }
  }
}
