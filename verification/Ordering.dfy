/** String order and sorting.  `slices.SortFunc` is not stable, so a sort is modelled by what
    it promises: a permutation that is ordered.  Every place where the program relies on the
    result being determined uses `SortedPermutationsEqual`. */
module Ordering {

  /** `cmp.Compare(a, b) <= 0` on strings. */
  predicate Below(a: string, b: string) {
    a == [] || (b != [] && (a[0] < b[0] || (a[0] == b[0] && Below(a[1..], b[1..]))))
  }

  lemma {:induction false} BelowTotal(a: string, b: string)
    ensures Below(a, b) || Below(b, a)
  {
    if a != [] && b != [] && a[0] == b[0] {
      BelowTotal(a[1..], b[1..]);
    }
  }

  lemma {:induction false} BelowAntisymmetric(a: string, b: string)
    requires Below(a, b) && Below(b, a)
    ensures a == b
  {
    if a != [] {
      BelowAntisymmetric(a[1..], b[1..]);
      assert a == [a[0]] + a[1..] && b == [b[0]] + b[1..];
    }
  }

  lemma {:induction false} BelowTransitive(a: string, b: string, c: string)
    requires Below(a, b) && Below(b, c)
    ensures Below(a, c)
  {
    if a != [] && a[0] == b[0] && b[0] == c[0] {
      BelowTransitive(a[1..], b[1..], c[1..]);
    }
  }

  ghost predicate SortedBy<T(!new)>(s: seq<T>, le: (T, T) -> bool) {
    forall i, j :: 0 <= i < j < |s| ==> le(s[i], s[j])
  }

  ghost predicate TotalPreorder<T(!new)>(le: (T, T) -> bool) {
    && (forall x, y :: le(x, y) || le(y, x))
    && (forall x, y, z :: le(x, y) && le(y, z) ==> le(x, z))
  }

  lemma BelowIsPreorder()
    ensures TotalPreorder(Below)
  {
    forall x, y ensures Below(x, y) || Below(y, x) { BelowTotal(x, y); }
    forall x, y, z | Below(x, y) && Below(y, z) ensures Below(x, z) { BelowTransitive(x, y, z); }
  }

  /** Two ordered arrangements of the same elements are the same list, provided the order
      separates the elements. */
  lemma {:induction false} SortedPermutationsEqual<T(!new)>(a: seq<T>, b: seq<T>, le: (T, T) -> bool)
    requires multiset(a) == multiset(b)
    requires SortedBy(a, le) && SortedBy(b, le)
    requires forall x, y :: x in a && y in a && le(x, y) && le(y, x) ==> x == y
    ensures a == b
  {
    assert |multiset(a)| == |a| && |multiset(b)| == |b|;
    if |a| != 0 {
      SortedHeadsAgree(a, b, le);
      TailsArePermutations(a, b);
      TailSorted(a, le);
      TailSorted(b, le);
      hide SortedBy;
      assert forall x :: x in a[1..] ==> x in a;
      SortedPermutationsEqual(a[1..], b[1..], le);
      assert a == [a[0]] + a[1..] && b == [a[0]] + b[1..];
    }
  }

  lemma TailSorted<T(!new)>(s: seq<T>, le: (T, T) -> bool)
    requires s != [] && SortedBy(s, le)
    ensures SortedBy(s[1..], le)
  {
  }

  lemma TailsArePermutations<T>(a: seq<T>, b: seq<T>)
    requires |a| > 0 && |b| > 0 && a[0] == b[0] && multiset(a) == multiset(b)
    ensures multiset(a[1..]) == multiset(b[1..])
  {
    TailCounts(a);
    TailCounts(b);
  }

  lemma TailCounts<T>(a: seq<T>)
    requires |a| > 0
    ensures multiset(a[1..]) == multiset(a) - multiset{a[0]}
  {
    assert a == [a[0]] + a[1..];
  }

  lemma SortedHeadsAgree<T(!new)>(a: seq<T>, b: seq<T>, le: (T, T) -> bool)
    requires |a| > 0 && |b| > 0 && multiset(a) == multiset(b)
    requires SortedBy(a, le) && SortedBy(b, le)
    requires forall x, y :: x in a && y in a && le(x, y) && le(y, x) ==> x == y
    ensures a[0] == b[0]
  {
    assert a[0] in multiset(b) && b[0] in multiset(a);
    var k :| 0 <= k < |b| && b[k] == a[0];
    var n :| 0 <= n < |a| && a[n] == b[0];
    if k != 0 && n != 0 {
      assert le(b[0], b[k]) && le(a[0], a[n]);
    }
  }

  /** A canonical ordered permutation, used by specification functions. */
  function Sort<T>(s: seq<T>, le: (T, T) -> bool): (r: seq<T>)
    ensures multiset(r) == multiset(s) && |r| == |s|
  {
    if s == [] then []
    else
      assert s == [s[0]] + s[1..];
      Insert(s[0], Sort(s[1..], le), le)
  }

  function Insert<T>(x: T, s: seq<T>, le: (T, T) -> bool): (r: seq<T>)
    ensures multiset(r) == multiset(s) + multiset{x} && |r| == |s| + 1
  {
    if s == [] || le(x, s[0]) then [x] + s
    else
      assert s == [s[0]] + s[1..];
      [s[0]] + Insert(x, s[1..], le)
  }

  lemma {:induction false} InsertSorted<T(!new)>(x: T, s: seq<T>, le: (T, T) -> bool)
    requires TotalPreorder(le) && SortedBy(s, le)
    ensures SortedBy(Insert(x, s, le), le)
  {
    if s != [] && !le(x, s[0]) {
      InsertSorted(x, s[1..], le);
      var r := Insert(x, s[1..], le);
      forall k | 0 <= k < |r| ensures le(s[0], r[k]) {
        assert r[k] in multiset(r);
        assert r[k] == x || r[k] in s[1..];
      }
    }
  }

  lemma {:induction false} SortSorted<T(!new)>(s: seq<T>, le: (T, T) -> bool)
    requires TotalPreorder(le)
    ensures SortedBy(Sort(s, le), le)
  {
    if s != [] {
      SortSorted(s[1..], le);
      InsertSorted(s[0], Sort(s[1..], le), le);
    }
  }

  /** `slices.SortFunc`: callers learn only that the result is an ordered permutation. */
  method SortFunc<T(!new)>(s: seq<T>, le: (T, T) -> bool) returns (r: seq<T>)
    requires TotalPreorder(le)
    ensures multiset(r) == multiset(s) && |r| == |s|
    ensures SortedBy(r, le)
  {
    r := Sort(s, le);
    SortSorted(s, le);
  }

  /** `slices.Sort` on strings is determined: it is `Sort`. */
  method SortStrings(s: seq<string>) returns (r: seq<string>)
    ensures r == Sort(s, Below)
  {
    BelowIsPreorder();
    r := SortFunc(s, Below);
    SortSorted(s, Below);
    StringSortsAgree(r, Sort(s, Below));
  }

  lemma StringSortsAgree(a: seq<string>, b: seq<string>)
    requires multiset(a) == multiset(b)
    requires SortedBy(a, Below) && SortedBy(b, Below)
    ensures a == b
  {
    forall x, y | Below(x, y) && Below(y, x) ensures x == y { BelowAntisymmetric(x, y); }
    SortedPermutationsEqual(a, b, Below);
  }

  /** Sorting forgets the order of its input. */
  lemma SortOfPermutation(a: seq<string>, b: seq<string>)
    requires multiset(a) == multiset(b)
    ensures Sort(a, Below) == Sort(b, Below)
  {
    BelowIsPreorder();
    SortSorted(a, Below);
    SortSorted(b, Below);
    StringSortsAgree(Sort(a, Below), Sort(b, Below));
  }

  /** `slices.Reverse`. */
  function Reverse<T>(s: seq<T>): (r: seq<T>)
    ensures |r| == |s| && forall i :: 0 <= i < |s| ==> r[i] == s[|s| - 1 - i]
  {
    seq(|s|, i requires 0 <= i < |s| => s[|s| - 1 - i])
  }

  /** `slices.Compact`: drop repeats of the preceding element. */
  function Compact(s: seq<string>): (r: seq<string>)
    ensures forall x :: x in r <==> x in s
  {
    if |s| < 2 then s
    else if s[0] == s[1] then Compact(s[1..])
    else [s[0]] + Compact(s[1..])
  }

  /** Compacting a sorted list keeps its members, once each, in strict order. */
  lemma {:induction false} CompactAscends(s: seq<string>)
    requires SortedBy(s, Below)
    ensures forall x :: x in Compact(s) <==> x in s
    ensures forall i, j :: 0 <= i < j < |Compact(s)| ==>
              Compact(s)[i] != Compact(s)[j] && Below(Compact(s)[i], Compact(s)[j])
  {
    if |s| >= 2 {
      CompactAscends(s[1..]);
      if s[0] != s[1] {
        var rest := Compact(s[1..]);
        forall j | 0 <= j < |rest| ensures s[0] != rest[j] && Below(s[0], rest[j]) {
          assert rest[j] in s[1..];
          var n :| 0 <= n < |s[1..]| && s[1..][n] == rest[j];
          assert Below(s[0], s[n + 1]) && Below(s[0], s[1]);
          if s[0] == rest[j] {
            assert n == 0 || Below(s[1], s[n + 1]);
            BelowAntisymmetric(s[0], s[1]);
          }
        }
      }
    }
  }

  lemma MembersOfPermutation<T>(a: seq<T>, b: seq<T>)
    requires multiset(a) == multiset(b)
    ensures forall x :: x in a <==> x in b
  {
    forall x ensures x in a <==> x in b {
      assert x in a <==> x in multiset(a);
    }
  }

  predicate Distinct<T(==)>(s: seq<T>) {
    forall i, j :: 0 <= i < j < |s| ==> s[i] != s[j]
  }

  function Map<T, U>(s: seq<T>, f: T -> U): (r: seq<U>)
    ensures |r| == |s| && forall i :: 0 <= i < |s| ==> r[i] == f(s[i])
  {
    seq(|s|, i requires 0 <= i < |s| => f(s[i]))
  }

  lemma MapAppendOne<T, U>(s: seq<T>, x: T, f: T -> U)
    ensures Map(s + [x], f) == Map(s, f) + [f(x)]
    ensures multiset(Map(s + [x], f)) == multiset(Map(s, f)) + multiset{f(x)}
  {
    assert Map(s + [x], f) == Map(s, f) + [f(x)];
  }

  lemma MapAppend<T, U>(s: seq<T>, t: seq<T>, f: T -> U)
    ensures Map(s + t, f) == Map(s, f) + Map(t, f)
  {
  }

  lemma MapOfSplit<T, U>(left: seq<T>, x: T, right: seq<T>, f: T -> U)
    ensures multiset(Map(left + [x] + right, f)) == multiset(Map(left + right, f)) + multiset{f(x)}
  {
    assert Map(left + [x] + right, f) == Map(left, f) + [f(x)] + Map(right, f);
    assert Map(left + right, f) == Map(left, f) + Map(right, f);
  }

  lemma {:induction false} MapPermutation<T, U>(a: seq<T>, b: seq<T>, f: T -> U)
    requires multiset(a) == multiset(b)
    ensures multiset(Map(a, f)) == multiset(Map(b, f))
  {
    if a == [] {
      assert |multiset(b)| == 0;
    } else {
      var left, right := TakeOut(a, b);
      MapPermutation(a[1..], left + right, f);
      MapOfSplit([], a[0], a[1..], f);
      MapOfSplit(left, a[0], right, f);
      assert [] + [a[0]] + a[1..] == a && [] + a[1..] == a[1..];
    }
  }

  lemma WithoutOne<T>(left: seq<T>, x: T, right: seq<T>)
    ensures multiset(left + right) == multiset(left + [x] + right) - multiset{x}
  {
  }

  /** The first element of `a`, taken out of the permutation `b`. */
  lemma TakeOut<T>(a: seq<T>, b: seq<T>) returns (left: seq<T>, right: seq<T>)
    requires a != [] && multiset(a) == multiset(b)
    ensures b == left + [a[0]] + right
    ensures multiset(a[1..]) == multiset(left + right)
  {
    var k := Find(b, a[0], a);
    left, right := b[..k], b[k + 1..];
    assert b == left + [a[0]] + right;
    TailCounts(a);
    WithoutOne(left, a[0], right);
  }

  lemma Find<T>(b: seq<T>, x: T, a: seq<T>) returns (k: nat)
    requires x in a && multiset(a) == multiset(b)
    ensures k < |b| && b[k] == x
  {
    assert x in multiset(b);
    k :| 0 <= k < |b| && b[k] == x;
  }

  lemma {:induction false} DistinctCounts<T>(s: seq<T>)
    ensures Distinct(s) <==> forall x :: multiset(s)[x] <= 1
  {
    if s != [] {
      assert s == [s[0]] + s[1..];
      assert multiset(s) == multiset{s[0]} + multiset(s[1..]);
      DistinctCounts(s[1..]);
      if Distinct(s) {
        assert s[0] !in s[1..];
        assert s[0] !in multiset(s[1..]);
      } else if Distinct(s[1..]) {
        var i, j :| 0 <= i < j < |s| && s[i] == s[j];
        var rest := s[1..];
        assert forall k :: 0 < k < |s| ==> rest[k - 1] == s[k];
        assert i == 0;
        assert s[1..][j - 1] == s[0];
        assert s[0] in multiset(s[1..]);
        assert multiset(s)[s[0]] >= 2;
      } else {
        var x :| multiset(s[1..])[x] > 1;
        assert multiset(s)[x] > 1;
      }
    }
  }

  lemma DistinctPermutation<T>(a: seq<T>, b: seq<T>)
    requires multiset(a) == multiset(b)
    ensures Distinct(a) <==> Distinct(b)
  {
    DistinctCounts(a);
    DistinctCounts(b);
  }

  function FlatMap<T, U>(s: seq<T>, f: T -> seq<U>): seq<U> {
    if s == [] then [] else f(s[0]) + FlatMap(s[1..], f)
  }

  lemma {:induction false} FlatMapAppend<T, U>(a: seq<T>, b: seq<T>, f: T -> seq<U>)
    ensures FlatMap(a + b, f) == FlatMap(a, f) + FlatMap(b, f)
  {
    if a == [] {
      assert a + b == b;
    } else {
      assert (a + b)[1..] == a[1..] + b;
      FlatMapAppend(a[1..], b, f);
    }
  }

  lemma {:induction false} InFlatMap<T, U>(s: seq<T>, f: T -> seq<U>, y: U)
    ensures y in FlatMap(s, f) <==> exists x :: x in s && y in f(x)
  {
    if s != [] {
      InFlatMap(s[1..], f, y);
      assert forall x :: x in s <==> x == s[0] || x in s[1..];
    }
  }

  /** Mapping the members of a sorted list to at most one element each keeps the order. */
  lemma {:induction false} FlatMapSorted<T(!new), U(!new)>(s: seq<T>, f: T -> seq<U>, le: (T, T) -> bool,
                                                           under: (U, U) -> bool)
    requires SortedBy(s, le) && forall x :: |f(x)| <= 1
    requires forall x, y, u, w :: x in s && y in s && le(x, y) && u in f(x) && w in f(y) ==> under(u, w)
    ensures SortedBy(FlatMap(s, f), under)
  {
    if s != [] {
      var first, rest := f(s[0]), FlatMap(s[1..], f);
      FlatMapSorted(s[1..], f, le, under);
      forall k | 0 <= k < |rest| && first != [] ensures under(first[0], rest[k]) {
        assert rest[k] in rest;
        InFlatMap(s[1..], f, rest[k]);
        var x :| x in s[1..] && rest[k] in f(x);
        var n :| 0 <= n < |s[1..]| && s[1..][n] == x;
        assert le(s[0], s[n + 1]) && first[0] in first;
      }
      assert FlatMap(s, f) == first + rest;
      forall i, j | 0 <= i < j < |first + rest| ensures under((first + rest)[i], (first + rest)[j]) {
        if i >= |first| {
          assert under(rest[i - |first|], rest[j - |first|]);
        }
      }
    }
  }

  lemma FlatMapOne<T, U>(x: T, f: T -> seq<U>)
    ensures FlatMap([x], f) == f(x)
  {
    assert FlatMap([x], f) == f(x) + FlatMap([], f);
  }

  lemma FlatMapOfSplit<T, U>(left: seq<T>, x: T, right: seq<T>, f: T -> seq<U>)
    ensures multiset(FlatMap(left + [x] + right, f)) == multiset(FlatMap(left + right, f)) + multiset(f(x))
  {
    FlatMapAppend(left + [x], right, f);
    FlatMapAppend(left, [x], f);
    FlatMapOne(x, f);
    FlatMapAppend(left, right, f);
  }

  lemma {:induction false} FlatMapPermutation<T, U>(a: seq<T>, b: seq<T>, f: T -> seq<U>)
    requires multiset(a) == multiset(b)
    ensures multiset(FlatMap(a, f)) == multiset(FlatMap(b, f))
  {
    if a == [] {
      assert |multiset(b)| == 0;
    } else {
      var left, right := TakeOut(a, b);
      FlatMapPermutation(a[1..], left + right, f);
      FlatMapOfSplit([], a[0], a[1..], f);
      FlatMapOfSplit(left, a[0], right, f);
      assert [] + [a[0]] + a[1..] == a && [] + a[1..] == a[1..];
    }
  }

  function Select<T(!new)>(s: seq<T>, p: T -> bool): (r: seq<T>)
    ensures forall x :: x in r <==> x in s && p(x)
  {
    if s == [] then [] else (if p(s[0]) then [s[0]] else []) + Select(s[1..], p)
  }

  lemma {:induction false} SelectPermutation<T(!new)>(a: seq<T>, b: seq<T>, p: T -> bool)
    requires multiset(a) == multiset(b)
    ensures multiset(Select(a, p)) == multiset(Select(b, p))
  {
    var f := (x: T) => if p(x) then [x] else [];
    SelectIsFlatMap(a, p, f);
    SelectIsFlatMap(b, p, f);
    FlatMapPermutation(a, b, f);
  }

  lemma {:induction false} SelectIsFlatMap<T(!new)>(s: seq<T>, p: T -> bool, f: T -> seq<T>)
    requires forall x :: f(x) == if p(x) then [x] else []
    ensures Select(s, p) == FlatMap(s, f)
  {
    if s != [] {
      SelectIsFlatMap(s[1..], p, f);
    }
  }

  lemma {:induction false} SelectAppend<T(!new)>(a: seq<T>, x: T, p: T -> bool)
    ensures Select(a + [x], p) == Select(a, p) + if p(x) then [x] else []
  {
    if a == [] {
      assert a + [x] == [x] && [x][1..] == [];
    } else {
      assert (a + [x])[1..] == a[1..] + [x];
      SelectAppend(a[1..], x, p);
    }
  }

  lemma {:induction false} SelectSorted<T(!new)>(s: seq<T>, p: T -> bool, le: (T, T) -> bool)
    requires SortedBy(s, le)
    ensures SortedBy(Select(s, p), le)
  {
    if s != [] {
      SelectSorted(s[1..], p, le);
      var rest := Select(s[1..], p);
      forall k | 0 <= k < |rest| ensures le(s[0], rest[k]) {
        assert rest[k] in s[1..];
        var n :| 0 <= n < |s[1..]| && s[1..][n] == rest[k];
        assert s[n + 1] == rest[k];
      }
    }
  }
}
