/** Commit ancestry.  A commit name fixes its parents, so the graph is closed and acyclic; it
    says nothing about which commit objects can still be read. */
module Graph {
  import opened Model

  type Ancestry = map<Id, seq<Id>>

  ghost predicate Path(g: Ancestry, p: seq<Id>) {
    && |p| > 0
    && (forall i :: 0 <= i < |p| ==> p[i] in g)
    && (forall i :: 0 <= i < |p| - 1 ==> p[i + 1] in g[p[i]])
  }

  ghost predicate Connects(g: Ancestry, p: seq<Id>, from: Id, to: Id) {
    Path(g, p) && p[0] == from && p[|p| - 1] == to
  }

  ghost predicate Reaches(g: Ancestry, from: Id, to: Id) {
    exists p :: Connects(g, p, from, to)
  }

  /** All history of `id`, itself included; empty for the boundary before history. */
  ghost function Reach(g: Ancestry, id: Id): iset<Id> {
    iset x | Reaches(g, id, x)
  }

  ghost predicate Closed(g: Ancestry) {
    forall id, q :: id in g && q in g[id] ==> q in g
  }

  ghost predicate Acyclic(g: Ancestry) {
    forall p :: Path(g, p) && |p| > 1 ==> p[0] != p[|p| - 1]
  }

  ghost predicate History(g: Ancestry) {
    Closed(g) && Acyclic(g) && forall id :: id in g ==> ObjectId(id)
  }

  /** The elements of a list of commits. */
  ghost function Commits(s: seq<Id>): iset<Id> {
    iset x | x in s
  }

  lemma ReachSelf(g: Ancestry, id: Id)
    requires id in g
    ensures id in Reach(g, id)
  {
    assert Connects(g, [id], id, id);
  }

  lemma ReachTransitive(g: Ancestry, a: Id, b: Id)
    requires b in Reach(g, a)
    ensures Reach(g, b) <= Reach(g, a)
  {
    var p :| Connects(g, p, a, b);
    forall x | x in Reach(g, b) ensures x in Reach(g, a) {
      var q :| Connects(g, q, b, x);
      assert Connects(g, p + q[1..], a, x);
    }
  }

  lemma ReachParent(g: Ancestry, id: Id, parent: Id)
    requires Closed(g) && id in g && parent in g[id]
    ensures Reach(g, parent) <= Reach(g, id)
  {
    assert Connects(g, [id, parent], id, parent);
    ReachTransitive(g, id, parent);
  }

  lemma ReachThroughParent(g: Ancestry, id: Id, x: Id)
    requires x in Reach(g, id) && x != id
    ensures id in g && exists q :: q in g[id] && x in Reach(g, q)
  {
    var p :| Connects(g, p, id, x);
    assert Connects(g, p[1..], p[1], x);
  }

  lemma ParentsDoNotReach(g: Ancestry, id: Id, parent: Id)
    requires History(g) && id in g && parent in g[id]
    ensures id !in Reach(g, parent)
  {
    if id in Reach(g, parent) {
      var p :| Connects(g, p, parent, id);
      assert Path(g, [id] + p);
    }
  }

  lemma ReachRoot(g: Ancestry, id: Id)
    requires id in g && g[id] == []
    ensures Reach(g, id) == iset{id}
  {
    ReachSelf(g, id);
    forall x | x in Reach(g, id) ensures x == id {
      if x != id { ReachThroughParent(g, id, x); }
    }
  }

  /** A commit with one parent adds exactly itself to that parent's history. */
  lemma ReachSingleParent(g: Ancestry, id: Id)
    requires History(g) && id in g && |g[id]| == 1
    ensures Reach(g, id) == iset{id} + Reach(g, g[id][0])
    ensures id !in Reach(g, g[id][0])
  {
    var parent := g[id][0];
    ReachSelf(g, id);
    ReachParent(g, id, parent);
    ParentsDoNotReach(g, id, parent);
    forall x | x in Reach(g, id) ensures x == id || x in Reach(g, parent) {
      if x != id { ReachThroughParent(g, id, x); }
    }
  }

  lemma ReachOutside(g: Ancestry, id: Id)
    requires id !in g
    ensures Reach(g, id) == iset{}
  {
    forall x, p ensures !Connects(g, p, id, x) {
    }
  }
}
