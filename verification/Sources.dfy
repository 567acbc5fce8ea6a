/** The candidate's source commits as a linear chain. */
module Sources {
  import opened Model
  import opened Store
  import opened View

  /** The commit before the source chain, unless the gap names a reason. */
  datatype Boundary = Boundary(before: Id, gap: Gap)

  function Broken(c: Candidate, culprit: Id, reason: string): Boundary {
    Boundary("", Gap(c.id, culprit, reason, NO_SPAN))
  }

  /** The chain from index `i` on, given the boundary found at index 0. */
  function BoundaryFrom(st: Objects, c: Candidate, i: nat, before: Id): Boundary
    requires i <= |c.source|
    decreases |c.source| - i
  {
    if i == |c.source| then
      match Parents(st, before)
      case Err(e) => Broken(c, before, GraphReason(e))
      case Ok(_) => Boundary(before, NO_GAP)
    else
      var id := c.source[i];
      if id == "" || id in c.source[..i] then Broken(c, id, "source_invalid")
      else
        match Parents(st, id)
        case Err(e) => Broken(c, id, GraphReason(e))
        case Ok(parents) =>
          if |parents| != 1 then Broken(c, id, "topology_unproven")
          else if i == 0 then BoundaryFrom(st, c, 1, parents[0])
          else if parents[0] != c.source[i - 1] then Broken(c, id, "source_order_unproven")
          else BoundaryFrom(st, c, i + 1, before)
  }

  function SourceBoundary(st: Objects, c: Candidate): Boundary
    requires |c.source| > 0
  {
    if c.source[|c.source| - 1] != c.sourceHead then Broken(c, c.sourceHead, "source_head_mismatch")
    else BoundaryFrom(st, c, 0, "")
  }

  /** The commit that should precede source commit `i`. */
  function SourceParent(c: Candidate, before: Id, i: nat): Id
    requires i < |c.source|
  {
    if i == 0 then before else c.source[i - 1]
  }

  /** The first `n` source commits are distinct, readable and each the only child step after
      its predecessor. */
  ghost predicate ChainUpTo(st: Objects, c: Candidate, before: Id, n: nat)
    requires n <= |c.source|
  {
    forall k :: 0 <= k < n ==> ChainLink(st, c, before, k)
  }

  ghost predicate ChainLink(st: Objects, c: Candidate, before: Id, k: nat)
    requires k < |c.source|
  {
    && c.source[k] != "" && c.source[k] !in c.source[..k]
    && Parents(st, c.source[k]) == Ok([SourceParent(c, before, k)])
  }

  /** A complete linear chain of distinct readable commits on top of a readable boundary. */
  ghost predicate LinearSource(st: Objects, c: Candidate, before: Id) {
    && |c.source| > 0 && c.source[|c.source| - 1] == c.sourceHead
    && ChainUpTo(st, c, before, |c.source|)
    && Parents(st, before).Ok?
  }

  lemma {:induction false} AcceptedChain(st: Objects, c: Candidate, i: nat, before: Id)
    requires i <= |c.source| && |c.source| > 0
    requires i > 0 ==> ChainUpTo(st, c, before, i)
    ensures var r := BoundaryFrom(st, c, i, before);
            r.gap.reason == "" ==>
              && r.gap == NO_GAP && (i > 0 ==> r.before == before)
              && ChainUpTo(st, c, r.before, |c.source|) && Parents(st, r.before).Ok?
    decreases |c.source| - i
  {
    if i < |c.source| && c.source[i] != "" && c.source[i] !in c.source[..i] && Parents(st, c.source[i]).Ok? {
      var parents := Parents(st, c.source[i]).value;
      if |parents| == 1 {
        assert parents == [parents[0]];
        if i == 0 {
          assert ChainLink(st, c, parents[0], 0);
          AcceptedChain(st, c, 1, parents[0]);
        } else if parents[0] == c.source[i - 1] {
          assert ChainLink(st, c, before, i);
          AcceptedChain(st, c, i + 1, before);
        }
      }
    }
  }

  lemma {:induction false} LinearChainAccepted(st: Objects, c: Candidate, i: nat, before: Id, boundary: Id)
    requires LinearSource(st, c, before) && i <= |c.source|
    requires i > 0 ==> boundary == before
    ensures BoundaryFrom(st, c, i, boundary) == Boundary(before, NO_GAP)
    decreases |c.source| - i
  {
    if i < |c.source| {
      assert ChainLink(st, c, before, i);
      LinearChainAccepted(st, c, i + 1, before, before);
    }
  }

  /** The boundary is accepted exactly for a complete linear chain, and it is then the chain's
      first parent. */
  lemma SourceBoundaryExact(st: Objects, c: Candidate, before: Id)
    requires |c.source| > 0
    ensures SourceBoundary(st, c) == Boundary(before, NO_GAP) <==> LinearSource(st, c, before)
    ensures SourceBoundary(st, c).gap.reason == "" ==> SourceBoundary(st, c).gap == NO_GAP
  {
    AcceptedChain(st, c, 0, "");
    if LinearSource(st, c, before) {
      LinearChainAccepted(st, c, 0, before, "");
    }
  }

  method ReadSourceBoundary(v: ObjectView, c: Candidate) returns (r: Boundary)
    requires |c.source| > 0 && !v.meter.failed && v.Paced()
    modifies v.meter
    ensures v.Paced() && v.meter.asked <= old(v.meter.asked) + |c.source| + 1
    ensures !v.meter.failed ==> r == SourceBoundary(v.store, c)
    ensures v.meter.failed ==> r.gap.reason == BUDGET_EXHAUSTED && r.gap.candidateId == c.id
  {
    if c.source[|c.source| - 1] != c.sourceHead {
      return Broken(c, c.sourceHead, "source_head_mismatch");
    }
    var before := "";
    var seen: set<Id> := {};
    ghost var target := SourceBoundary(v.store, c);
    for i := 0 to |c.source|
      invariant seen == set k | 0 <= k < i :: c.source[k]
      invariant v.Paced() && v.meter.asked == old(v.meter.asked) + i
      invariant !v.meter.failed
      invariant target == BoundaryFrom(v.store, c, i, before)
    {
      var id := c.source[i];
      assert id in seen <==> id in c.source[..i];
      if id == "" || id in seen {
        return Broken(c, id, "source_invalid");
      }
      seen := seen + {id};
      var parents := v.Parents(id);
      if parents.Err? {
        return Broken(c, id, GraphReason(parents.error));
      }
      if |parents.value| != 1 {
        return Broken(c, id, "topology_unproven");
      }
      if i == 0 {
        before := parents.value[0];
      } else if parents.value[0] != c.source[i - 1] {
        return Broken(c, id, "source_order_unproven");
      }
    }
    var boundary := v.Parents(before);
    if boundary.Err? {
      return Broken(c, before, GraphReason(boundary.error));
    }
    r := Boundary(before, NO_GAP);
  }
}
