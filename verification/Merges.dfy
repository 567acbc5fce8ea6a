/** What a proven merge says: its source is exactly what it brought in. */
module Merges {
  import opened Model
  import opened Graph
  import opened Store
  import opened Ordering
  import opened Alternatives
  import opened Proofs

  lemma {:induction false} SelectDistinct<T(!new)>(s: seq<T>, p: T -> bool)
    requires Distinct(s)
    ensures Distinct(Select(s, p))
  {
    if s != [] {
      assert forall i :: 0 <= i < |s[1..]| ==> s[1..][i] == s[i + 1];
      SelectDistinct(s[1..], p);
      assert s[0] !in s[1..];
    }
  }

  lemma DistinctSameMembers<T>(a: seq<T>, b: seq<T>)
    requires Distinct(a) && Distinct(b)
    ensures multiset(a) == multiset(b) <==> forall x :: x in a <==> x in b
  {
    if multiset(a) == multiset(b) {
      MembersOfPermutation(a, b);
    } else if forall x :: x in a <==> x in b {
      DistinctCounts(a);
      DistinctCounts(b);
      forall x ensures multiset(a)[x] == multiset(b)[x] {
        assert x in multiset(a) <==> x in a;
        assert x in multiset(b) <==> x in b;
      }
    }
  }

  /** The ancestry test says that `before` lacks the commit. */
  function Lacks(st: Objects, before: Id): Id -> bool {
    (x: Id) => IsAncestor(st, x, before) == Ok(false)
  }

  lemma {:induction false} ExpectedIsSelected(st: Objects, c: Candidate, before: Id, i: nat, expected: seq<Id>)
    requires i <= |c.source| && forall k :: i <= k < |c.source| ==> IsAncestor(st, c.source[k], before).Ok?
    ensures ExpectedFrom(st, c, before, i, expected) == Ok(expected + Select(c.source[i..], Lacks(st, before)))
    decreases |c.source| - i
  {
    if i == |c.source| {
      assert expected + [] == expected;
    } else {
      var rest := c.source[i..];
      assert rest[0] == c.source[i] && rest[1..] == c.source[i + 1..];
      var more := if IsAncestor(st, c.source[i], before).value then expected else expected + [c.source[i]];
      ExpectedIsSelected(st, c, before, i + 1, more);
      var tail := Select(c.source[i + 1..], Lacks(st, before));
      assert expected + ([c.source[i]] + tail) == (expected + [c.source[i]]) + tail;
      assert expected + ([] + tail) == expected + tail;
    }
  }

  lemma {:induction false} CheckedSourcesDiffer(st: Objects, c: Candidate, i: nat)
    requires i <= |c.source| && Distinct(c.source[..i]) && CheckSourcesFrom(st, c, i).0 == ""
    ensures Distinct(c.source)
    decreases |c.source| - i
  {
    if i < |c.source| {
      assert c.source[..i + 1] == c.source[..i] + [c.source[i]];
      CheckedSourcesDiffer(st, c, i + 1);
    } else {
      assert c.source[..i] == c.source;
    }
  }

  /** With every read answered, a merge matches exactly when the commits new at its first parent
      are the merge itself and the source commits that the first parent lacks. */
  lemma MergeExact(st: Objects, c: Candidate, before: Id)
    requires Exact(st) && CheckSourcesFrom(st, c, 0).0 == ""
    requires Introduced(st, before, c.terminal).Ok?
    requires forall k :: 0 <= k < |c.source| ==> IsAncestor(st, c.source[k], before).Ok?
    ensures CompareMerge(st, c, before).Ok? <==>
            forall x :: (x in c.source && x !in Reach(st.graph, before)) <==>
                        (x in Reach(st.graph, c.terminal) - Reach(st.graph, before) && x != c.terminal)
  {
    hide Sort, Select, Reach;
    var ids := Introduced(st, before, c.terminal).value;
    var brought := Without(ids, c.terminal);
    var expected := Select(c.source, Lacks(st, before));
    ExpectedIsSelected(st, c, before, 0, []);
    assert c.source[0..] == c.source && [] + expected == expected;
    CheckedSourcesDiffer(st, c, 0);
    SelectDistinct(c.source, Lacks(st, before));
    SelectDistinct(ids, (x: Id) => x != c.terminal);
    SortedEqualIffPermutation(brought, expected);
    DistinctSameMembers(brought, expected);
    forall x ensures x in brought <==> x in Reach(st.graph, c.terminal) - Reach(st.graph, before) && x != c.terminal {
      assert x in ids <==> x in Commits(ids);
    }
    forall x ensures x in expected <==> x in c.source && x !in Reach(st.graph, before) {
      if x in c.source {
        var k :| 0 <= k < |c.source| && c.source[k] == x;
      }
    }
  }
}
