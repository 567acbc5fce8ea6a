/** Range proofs: the source commits against the first-parent commits that end at the terminal. */
module Ranges {
  import opened Model
  import opened Store
  import opened View
  import opened Edits
  import opened TreeEdits
  import opened Sources
  import opened Ordering

  /** How one source commit compares with the target commit at the same distance from the end. */
  datatype PairVerdict = Identical | Rewritten(edits: seq<FileEdit>) | Unequal | Ambiguous
    | Unreadable(error: ReadError)

  function JudgePair(st: Objects, c: Candidate, sourceBefore: Id, i: nat, id: Id, before: Id): PairVerdict
    requires i < |c.source|
  {
    if c.source[i] == id then Identical
    else if c.how == FastForward then Unequal
    else
      match CompareTrees(st, SourceParent(c, sourceBefore, i), c.source[i], before, id)
      case Ok(edits) => Rewritten(edits)
      case Err(Correspondence) => Unequal
      case Err(Edits) => Ambiguous
      case Err(e) => Unreadable(e)
  }

  // ----- the walk as a function of the store -----

  datatype Walk = Walk(before: Id, commits: seq<Id>, identical: bool, rewritten: seq<seq<FileEdit>>,
                       pending: Option<Id>)

  const START := Walk("", [], true, [], None)

  /** `culprit` is the commit that is reported with an error. */
  datatype RangeResult = RangeResult(before: Id, commits: seq<Id>, identical: bool, culprit: Id,
                                     error: Option<ReadError>)

  predicate AlreadySeen(rewritten: seq<seq<FileEdit>>, edits: seq<FileEdit>) {
    exists k :: 0 <= k < |rewritten| && SameEdits(rewritten[k], edits)
  }

  function Postpone(w: Walk, source: Id): Walk {
    if w.pending.None? then w.(pending := Some(source)) else w
  }

  /** Take a pair into the walk unless it ends the walk. */
  function TakePair(w: Walk, source: Id, id: Id, before: Id, verdict: PairVerdict): Walk {
    var next := w.(commits := w.commits + [id], before := before);
    match verdict
    case Identical => next
    case Rewritten(edits) =>
      var kept := next.(identical := false, rewritten := w.rewritten + [edits]);
      if AlreadySeen(w.rewritten, edits) then Postpone(kept, source) else kept
    case Ambiguous => Postpone(next.(identical := false), source)
    case _ => next.(identical := false)
  }

  function EndWalk(w: Walk): RangeResult {
    RangeResult(w.before, Reverse(w.commits), w.identical, w.pending.GetOr(""),
                if w.pending.Some? then Some(ReadError.Edits) else None)
  }

  function WalkRange(st: Objects, c: Candidate, sourceBefore: Id, id: Id, before: Id, n: nat, w: Walk): RangeResult
    requires 1 <= n <= |c.source|
    decreases n
  {
    match Parents(st, before)
    case Err(e) => RangeResult(w.before, w.commits, w.identical, before, Some(e))
    case Ok(parents) =>
      var verdict := JudgePair(st, c, sourceBefore, n - 1, id, before);
      var next := TakePair(w, c.source[n - 1], id, before, verdict);
      if verdict.Unequal? then RangeResult(before, next.commits, false, c.source[n - 1], Some(Correspondence))
      else if verdict.Unreadable? then RangeResult(before, next.commits, false, c.source[n - 1], Some(verdict.error))
      else if n == 1 then EndWalk(next)
      else if |parents| != 1 then RangeResult(before, next.commits, next.identical, before, Some(Correspondence))
      else WalkRange(st, c, sourceBefore, before, parents[0], n - 1, next)
  }

  function CompareRange(st: Objects, c: Candidate, sourceBefore: Id, before: Id): RangeResult
    requires |c.source| > 0
  {
    WalkRange(st, c, sourceBefore, c.terminal, before, |c.source|, START)
  }

  // ----- the program's loop -----

  method ReadPair(v: ObjectView, c: Candidate, sourceBefore: Id, i: nat, id: Id, before: Id) returns (r: PairVerdict)
    requires i < |c.source| && !v.meter.failed && v.Paced()
    modifies v.meter
    ensures v.Paced() && v.meter.asked <= old(v.meter.asked) + TreeReads(v.width)
    ensures r == if v.meter.failed then Unreadable(Budget) else JudgePair(v.store, c, sourceBefore, i, id, before)
    ensures v.meter.failed ==> c.how != FastForward
  {
    if c.source[i] == id {
      return Identical;
    }
    if c.how == FastForward {
      return Unequal;
    }
    var edits := CompareTreeEdits(v, SourceParent(c, sourceBefore, i), c.source[i], before, id);
    match edits {
      case Ok(e) => r := Rewritten(e);
      case Err(Correspondence) => r := Unequal;
      case Err(Edits) => r := Ambiguous;
      case Err(e) => r := Unreadable(e);
    }
  }

  /** The reads that a range comparison may ask for. */
  function RangeReads(c: Candidate, width: nat): nat {
    (1 + TreeReads(width)) * |c.source|
  }

  lemma OneFewer(each: nat, n: nat)
    requires n > 0
    ensures each * n == each * (n - 1) + each && each * (n - 1) >= 0
  {
  }

  /** A fast-forward pair is the same commit or ends the walk. */
  lemma FastForwardPair(st: Objects, c: Candidate, sourceBefore: Id, i: nat, id: Id, before: Id, w: Walk)
    requires i < |c.source| && c.how == FastForward
    ensures var verdict := JudgePair(st, c, sourceBefore, i, id, before);
      verdict.Unequal? || TakePair(w, c.source[i], id, before, verdict).identical == w.identical
  {
  }

  method RangeCorrespondence(v: ObjectView, c: Candidate, sourceBefore: Id, before: Id) returns (r: RangeResult)
    requires |c.source| > 0 && v.Paced()
    modifies v.meter
    ensures v.Paced() && v.meter.asked <= old(v.meter.asked) + RangeReads(c, v.width)
    ensures !v.meter.failed ==> r == CompareRange(v.store, c, sourceBefore, before)
    ensures v.meter.failed ==> r.error == Some(Budget) && (c.how == FastForward ==> r.identical)
    ensures old(v.meter.failed) ==> v.meter.failed
  {
    hide JudgePair, TakePair, EndWalk, TreeReads;
    ghost var target := CompareRange(v.store, c, sourceBefore, before);
    var w := START;
    var id, boundary := c.terminal, before;
    var n := |c.source|;
    while true
      invariant 1 <= n <= |c.source|
      invariant v.Paced() && v.meter.asked + (1 + TreeReads(v.width)) * n <= old(v.meter.asked) + RangeReads(c, v.width)
      invariant old(v.meter.failed) ==> v.meter.failed
      invariant !v.meter.failed ==> target == WalkRange(v.store, c, sourceBefore, id, boundary, n, w)
      invariant c.how == FastForward ==> w.identical
      decreases n
    {
      OneFewer(1 + TreeReads(v.width), n);
      var parents := v.Parents(boundary);
      if parents.Err? {
        return RangeResult(w.before, w.commits, w.identical, boundary, Some(parents.error));
      }
      var source := c.source[n - 1];
      var verdict := ReadPair(v, c, sourceBefore, n - 1, id, boundary);
      if c.how == FastForward {
        FastForwardPair(v.store, c, sourceBefore, n - 1, id, boundary, w);
      }
      w := TakePair(w, source, id, boundary, verdict);
      if verdict.Unequal? {
        return RangeResult(boundary, w.commits, false, source, Some(Correspondence));
      }
      if verdict.Unreadable? {
        return RangeResult(boundary, w.commits, false, source, Some(verdict.error));
      }
      if n == 1 {
        return EndWalk(w);
      }
      if |parents.value| != 1 {
        return RangeResult(boundary, w.commits, w.identical, boundary, Some(Correspondence));
      }
      id, boundary, n := boundary, parents.value[0], n - 1;
    }
  }

  // ----- what the walk decides -----

  /** The pairs of target commit and first parent that the walk can visit, newest first. */
  function Suffix(st: Objects, id: Id, before: Id, n: nat): (r: seq<(Id, Id)>)
    ensures |r| <= n && (n > 0 ==> |r| > 0 && r[0] == (id, before))
    decreases n
  {
    if n == 0 then []
    else
      match Parents(st, before)
      case Ok(parents) =>
        if |parents| == 1 then [(id, before)] + Suffix(st, before, parents[0], n - 1) else [(id, before)]
      case Err(_) => [(id, before)]
  }

  /** The verdicts on those pairs; pair `k` belongs to source commit `n - 1 - k`. */
  function Verdicts(st: Objects, c: Candidate, sourceBefore: Id, id: Id, before: Id, n: nat): (r: seq<PairVerdict>)
    requires n <= |c.source|
    ensures |r| == |Suffix(st, id, before, n)|
  {
    var pairs := Suffix(st, id, before, n);
    seq(|pairs|, k requires 0 <= k < |pairs| => JudgePair(st, c, sourceBefore, n - 1 - k, pairs[k].0, pairs[k].1))
  }

  lemma VerdictsUnfold(st: Objects, c: Candidate, sourceBefore: Id, id: Id, before: Id, n: nat)
    requires 1 <= n <= |c.source|
    ensures var vs := Verdicts(st, c, sourceBefore, id, before, n);
            && vs[0] == JudgePair(st, c, sourceBefore, n - 1, id, before)
            && (Parents(st, before).Ok? && |Parents(st, before).value| == 1 ==>
                  vs[1..] == Verdicts(st, c, sourceBefore, before, Parents(st, before).value[0], n - 1))
  {
    var pairs := Suffix(st, id, before, n);
    if Parents(st, before).Ok? && |Parents(st, before).value| == 1 {
      assert pairs[1..] == Suffix(st, before, Parents(st, before).value[0], n - 1);
    }
  }

  ghost predicate ReadsSucceed(st: Objects, c: Candidate, sourceBefore: Id, id: Id, before: Id, n: nat)
    requires n <= |c.source|
  {
    var pairs, vs := Suffix(st, id, before, n), Verdicts(st, c, sourceBefore, id, before, n);
    (forall k :: 0 <= k < |pairs| ==> Parents(st, pairs[k].1).Ok?) && forall k :: 0 <= k < |vs| ==> !vs[k].Unreadable?
  }

  lemma ReadsSucceedUnfold(st: Objects, c: Candidate, sourceBefore: Id, id: Id, before: Id, n: nat)
    requires 1 <= n <= |c.source| && ReadsSucceed(st, c, sourceBefore, id, before, n)
    ensures Parents(st, before).Ok? && !JudgePair(st, c, sourceBefore, n - 1, id, before).Unreadable?
    ensures |Parents(st, before).value| == 1 ==>
              ReadsSucceed(st, c, sourceBefore, before, Parents(st, before).value[0], n - 1)
  {
    var pairs, vs := Suffix(st, id, before, n), Verdicts(st, c, sourceBefore, id, before, n);
    VerdictsUnfold(st, c, sourceBefore, id, before, n);
    assert Parents(st, pairs[0].1).Ok? && !vs[0].Unreadable?;
    if |Parents(st, before).value| == 1 {
      var rest := Suffix(st, before, Parents(st, before).value[0], n - 1);
      assert pairs[1..] == rest;
      forall k | 0 <= k < |rest| ensures Parents(st, rest[k].1).Ok? && !vs[1..][k].Unreadable? {
        assert rest[k] == pairs[k + 1] && vs[1..][k] == vs[k + 1];
      }
    }
  }

  ghost predicate SomeUnequal(vs: seq<PairVerdict>) {
    exists k :: 0 <= k < |vs| && vs[k].Unequal?
  }

  ghost predicate SomeAmbiguous(vs: seq<PairVerdict>) {
    exists k :: 0 <= k < |vs| && vs[k].Ambiguous?
  }

  ghost predicate SomeRewritten(vs: seq<PairVerdict>) {
    exists k :: 0 <= k < |vs| && !vs[k].Identical?
  }

  /** Two different rewritten pairs carry the same edits. */
  ghost predicate SomeRepeated(vs: seq<PairVerdict>) {
    exists j, k :: 0 <= j < k < |vs| && Repeats(vs, j, k)
  }

  ghost predicate Repeats(vs: seq<PairVerdict>, j: nat, k: nat)
    requires j < |vs| && k < |vs|
  {
    vs[j].Rewritten? && vs[k].Rewritten? && SameEdits(vs[j].edits, vs[k].edits)
  }

  /** A rewritten pair repeats edits the walk had met before. */
  ghost predicate RepeatsEarlier(rewritten: seq<seq<FileEdit>>, vs: seq<PairVerdict>) {
    exists k :: 0 <= k < |vs| && vs[k].Rewritten? && AlreadySeen(rewritten, vs[k].edits)
  }

  lemma AmbiguityUnfold(rewritten: seq<seq<FileEdit>>, vs: seq<PairVerdict>)
    requires vs != []
    ensures SomeUnequal(vs) <==> vs[0].Unequal? || SomeUnequal(vs[1..])
    ensures SomeAmbiguous(vs) <==> vs[0].Ambiguous? || SomeAmbiguous(vs[1..])
    ensures SomeRewritten(vs) <==> !vs[0].Identical? || SomeRewritten(vs[1..])
    ensures vs[0].Rewritten? ==>
              (SomeRepeated(vs) || RepeatsEarlier(rewritten, vs) <==>
               AlreadySeen(rewritten, vs[0].edits) || SomeRepeated(vs[1..])
                   || RepeatsEarlier(rewritten + [vs[0].edits], vs[1..]))
    ensures !vs[0].Rewritten? ==>
              (SomeRepeated(vs) <==> SomeRepeated(vs[1..]))
              && (RepeatsEarlier(rewritten, vs) <==> RepeatsEarlier(rewritten, vs[1..]))
  {
    var rest := vs[1..];
    assert forall k :: 0 <= k < |rest| ==> rest[k] == vs[k + 1];
    RepeatedUnfold(vs);
    EarlierUnfold(rewritten, vs);
    if vs[0].Rewritten? {
      SeenUnfold(rewritten, vs[0].edits, rest);
    }
  }

  lemma RepeatedUnfold(vs: seq<PairVerdict>)
    requires vs != []
    ensures SomeRepeated(vs) <==>
            SomeRepeated(vs[1..]) || (vs[0].Rewritten? && RepeatsEarlier([vs[0].edits], vs[1..]))
  {
    var rest := vs[1..];
    if SomeRepeated(vs) {
      var j, k :| 0 <= j < k < |vs| && Repeats(vs, j, k);
      assert rest[k - 1] == vs[k];
      if j == 0 {
        assert SameEdits([vs[0].edits][0], rest[k - 1].edits);
      } else {
        assert rest[j - 1] == vs[j];
        assert Repeats(rest, j - 1, k - 1);
      }
    }
    if SomeRepeated(rest) {
      var j, k :| 0 <= j < k < |rest| && Repeats(rest, j, k);
      assert Repeats(vs, j + 1, k + 1);
    }
    if vs[0].Rewritten? && RepeatsEarlier([vs[0].edits], rest) {
      var k :| 0 <= k < |rest| && rest[k].Rewritten? && AlreadySeen([vs[0].edits], rest[k].edits);
      assert Repeats(vs, 0, k + 1);
    }
  }

  lemma EarlierUnfold(rewritten: seq<seq<FileEdit>>, vs: seq<PairVerdict>)
    requires vs != []
    ensures RepeatsEarlier(rewritten, vs) <==>
            (vs[0].Rewritten? && AlreadySeen(rewritten, vs[0].edits)) || RepeatsEarlier(rewritten, vs[1..])
  {
    var rest := vs[1..];
    if RepeatsEarlier(rewritten, vs) {
      var k :| 0 <= k < |vs| && vs[k].Rewritten? && AlreadySeen(rewritten, vs[k].edits);
      if k > 0 {
        assert rest[k - 1] == vs[k];
      }
    }
    if RepeatsEarlier(rewritten, rest) {
      var k :| 0 <= k < |rest| && rest[k].Rewritten? && AlreadySeen(rewritten, rest[k].edits);
      assert vs[k + 1] == rest[k];
    }
  }

  lemma SeenUnfold(rewritten: seq<seq<FileEdit>>, edits: seq<FileEdit>, vs: seq<PairVerdict>)
    ensures RepeatsEarlier(rewritten + [edits], vs) <==> RepeatsEarlier(rewritten, vs) || RepeatsEarlier([edits], vs)
  {
    var more := rewritten + [edits];
    forall e ensures AlreadySeen(more, e) <==> AlreadySeen(rewritten, e) || AlreadySeen([edits], e) {
      assert more[|rewritten|] == edits && [edits][0] == edits;
      if AlreadySeen(rewritten, e) {
        var k :| 0 <= k < |rewritten| && SameEdits(rewritten[k], e);
        assert more[k] == rewritten[k];
      }
    }
  }

  /** The exact outcome of a walk, from any point on. */
  lemma {:induction false} WalkExact(st: Objects, c: Candidate, sourceBefore: Id, id: Id, before: Id, n: nat, w: Walk)
    requires 1 <= n <= |c.source| && ReadsSucceed(st, c, sourceBefore, id, before, n)
    ensures var r := WalkRange(st, c, sourceBefore, id, before, n, w);
            var pairs := Suffix(st, id, before, n);
            var vs := Verdicts(st, c, sourceBefore, id, before, n);
            && (r.error == Some(Correspondence) <==> SomeUnequal(vs) || |pairs| < n)
            && (r.error != Some(Correspondence) ==>
                  && (r.error == Some(ReadError.Edits) <==>
                      w.pending.Some? || SomeAmbiguous(vs) || SomeRepeated(vs) || RepeatsEarlier(w.rewritten, vs))
                  && (r.error != Some(ReadError.Edits) ==> r.error == None)
                  && (r.identical <==> w.identical && !SomeRewritten(vs)))
    decreases n
  {
    hide JudgePair, SomeUnequal, SomeAmbiguous, SomeRewritten, SomeRepeated, RepeatsEarlier, AlreadySeen, ReadsSucceed;
    hide Verdicts, Parents;
    ReadsSucceedUnfold(st, c, sourceBefore, id, before, n);
    VerdictsUnfold(st, c, sourceBefore, id, before, n);
    var parents := Parents(st, before).value;
    var vs := Verdicts(st, c, sourceBefore, id, before, n);
    var next := TakePair(w, c.source[n - 1], id, before, vs[0]);
    AmbiguityUnfold(w.rewritten, vs);
    if n > 1 && |parents| == 1 && !vs[0].Unequal? {
      WalkExact(st, c, sourceBefore, before, parents[0], n - 1, next);
    } else if n == 1 {
      assert vs[1..] == [];
      NothingInEmpty(w.rewritten);
      if vs[0].Rewritten? {
        NothingInEmpty(w.rewritten + [vs[0].edits]);
      }
    }
  }

  lemma NothingInEmpty(rewritten: seq<seq<FileEdit>>)
    ensures !SomeUnequal([]) && !SomeAmbiguous([]) && !SomeRewritten([]) && !SomeRepeated([])
    ensures !RepeatsEarlier(rewritten, [])
  {
  }

  /** When every read succeeds, the range is refuted exactly when a pair is definitely unequal or
      the target stops being single-parent; otherwise it stays ambiguous exactly when a pair is
      ambiguous or two rewritten pairs carry the same edits; otherwise it matches. */
  lemma RangeExact(st: Objects, c: Candidate, sourceBefore: Id, before: Id)
    requires |c.source| > 0 && ReadsSucceed(st, c, sourceBefore, c.terminal, before, |c.source|)
    ensures var r := CompareRange(st, c, sourceBefore, before);
            var pairs := Suffix(st, c.terminal, before, |c.source|);
            var vs := Verdicts(st, c, sourceBefore, c.terminal, before, |c.source|);
            && (r.error == Some(Correspondence) <==> SomeUnequal(vs) || |pairs| < |c.source|)
            && (r.error == Some(ReadError.Edits) <==>
                !SomeUnequal(vs) && |pairs| == |c.source| && (SomeAmbiguous(vs) || SomeRepeated(vs)))
            && (r.error == None <==>
                !SomeUnequal(vs) && |pairs| == |c.source| && !SomeAmbiguous(vs) && !SomeRepeated(vs))
            && (r.error == None ==> (r.identical <==> !SomeRewritten(vs)))
  {
    WalkExact(st, c, sourceBefore, c.terminal, before, |c.source|, START);
    var vs := Verdicts(st, c, sourceBefore, c.terminal, before, |c.source|);
    assert !RepeatsEarlier([], vs);
  }

  // ----- the same, through commit IDs and tree comparisons -----

  /** Pair `k` is one commit. */
  predicate Untouched(st: Objects, c: Candidate, before: Id, k: nat)
    requires k < |c.source| && k < |Suffix(st, c.terminal, before, |c.source|)|
  {
    c.source[|c.source| - 1 - k] == Suffix(st, c.terminal, before, |c.source|)[k].0
  }

  /** The source commit of pair `j` compared with the target commit of pair `k`. */
  function Compared(st: Objects, c: Candidate, sourceBefore: Id, before: Id, j: nat, k: nat): Result<seq<FileEdit>>
    requires j < |c.source| && k < |Suffix(st, c.terminal, before, |c.source|)|
  {
    var i, pair := |c.source| - 1 - j, Suffix(st, c.terminal, before, |c.source|)[k];
    CompareTrees(st, SourceParent(c, sourceBefore, i), c.source[i], pair.1, pair.0)
  }

  /** Pair `k` holds two commits that cannot be one change: any two for a fast-forward. */
  predicate Refuted(st: Objects, c: Candidate, sourceBefore: Id, before: Id, k: nat)
    requires k < |c.source| && k < |Suffix(st, c.terminal, before, |c.source|)|
  {
    && !Untouched(st, c, before, k)
    && (c.how == FastForward || Compared(st, c, sourceBefore, before, k, k) == Err(Correspondence))
  }

  /** Pair `k` holds two commits whose edits are ambiguous. */
  predicate Unclear(st: Objects, c: Candidate, sourceBefore: Id, before: Id, k: nat)
    requires k < |c.source| && k < |Suffix(st, c.terminal, before, |c.source|)|
  {
    && !Untouched(st, c, before, k) && c.how != FastForward
    && Compared(st, c, sourceBefore, before, k, k) == Err(ReadError.Edits)
  }

  /** Pairs `j` and `k` are rewritten with the same edits. */
  predicate Twins(st: Objects, c: Candidate, sourceBefore: Id, before: Id, j: nat, k: nat)
    requires j < |c.source| && k < |c.source|
    requires j < |Suffix(st, c.terminal, before, |c.source|)| && k < |Suffix(st, c.terminal, before, |c.source|)|
  {
    var one, other := Compared(st, c, sourceBefore, before, j, j), Compared(st, c, sourceBefore, before, k, k);
    && !Untouched(st, c, before, j) && !Untouched(st, c, before, k)
    && one.Ok? && other.Ok? && SameEdits(one.value, other.value)
  }

  ghost predicate AnyRefuted(st: Objects, c: Candidate, sourceBefore: Id, before: Id) {
    exists k: nat :: k < |Suffix(st, c.terminal, before, |c.source|)| && Refuted(st, c, sourceBefore, before, k)
  }

  ghost predicate AnyUnclear(st: Objects, c: Candidate, sourceBefore: Id, before: Id) {
    exists k: nat :: k < |Suffix(st, c.terminal, before, |c.source|)| && Unclear(st, c, sourceBefore, before, k)
  }

  ghost predicate AnyTwins(st: Objects, c: Candidate, sourceBefore: Id, before: Id) {
    exists j: nat, k: nat ::
      j < k < |Suffix(st, c.terminal, before, |c.source|)| && Twins(st, c, sourceBefore, before, j, k)
  }

  /** Every boundary on the way is readable, and every comparison that is needed says something. */
  ghost predicate PairsRead(st: Objects, c: Candidate, sourceBefore: Id, before: Id) {
    var pairs := Suffix(st, c.terminal, before, |c.source|);
    forall k: nat :: k < |pairs| ==>
      && Parents(st, pairs[k].1).Ok?
      && (Untouched(st, c, before, k) || c.how == FastForward
          || var r := Compared(st, c, sourceBefore, before, k, k);
             r.Ok? || r == Err(Correspondence) || r == Err(ReadError.Edits))
  }

  /** What the verdict on pair `k` means. */
  lemma VerdictMeans(st: Objects, c: Candidate, sourceBefore: Id, before: Id, k: nat)
    requires k < |Suffix(st, c.terminal, before, |c.source|)|
    ensures var v := Verdicts(st, c, sourceBefore, c.terminal, before, |c.source|)[k];
      && (v.Identical? <==> Untouched(st, c, before, k))
      && (v.Unequal? <==> Refuted(st, c, sourceBefore, before, k))
      && (v.Ambiguous? <==> Unclear(st, c, sourceBefore, before, k))
      && (v.Rewritten? <==> !Untouched(st, c, before, k) && c.how != FastForward
                            && Compared(st, c, sourceBefore, before, k, k).Ok?)
      && (v.Rewritten? ==> Compared(st, c, sourceBefore, before, k, k) == Ok(v.edits))
  {
    hide CompareTrees, Suffix;
  }

  lemma VerdictsMean(st: Objects, c: Candidate, sourceBefore: Id, before: Id)
    ensures var vs := Verdicts(st, c, sourceBefore, c.terminal, before, |c.source|);
      && (SomeUnequal(vs) <==> AnyRefuted(st, c, sourceBefore, before))
      && (SomeAmbiguous(vs) <==> AnyUnclear(st, c, sourceBefore, before))
      && (c.how != FastForward ==> (SomeRepeated(vs) <==> AnyTwins(st, c, sourceBefore, before)))
      && (c.how == FastForward ==> !SomeRepeated(vs))
      && (SomeRewritten(vs) <==>
          exists k: nat :: k < |Suffix(st, c.terminal, before, |c.source|)| && !Untouched(st, c, before, k))
      && (PairsRead(st, c, sourceBefore, before) <==>
          ReadsSucceed(st, c, sourceBefore, c.terminal, before, |c.source|))
  {
    hide CompareTrees, Suffix, Untouched, Compared, Refuted, Unclear, SameEdits, JudgePair, Verdicts;
    var vs := Verdicts(st, c, sourceBefore, c.terminal, before, |c.source|);
    forall k: nat | k < |vs|
      ensures (vs[k].Identical? <==> Untouched(st, c, before, k))
        && (vs[k].Unequal? <==> Refuted(st, c, sourceBefore, before, k))
        && (vs[k].Ambiguous? <==> Unclear(st, c, sourceBefore, before, k))
    {
      VerdictMeans(st, c, sourceBefore, before, k);
    }
    TwinsRepeat(st, c, sourceBefore, before);
    ReadsMean(st, c, sourceBefore, before);
    assert SomeUnequal(vs) ==> exists k: nat :: k < |vs| && vs[k].Unequal?;
    assert SomeAmbiguous(vs) ==> exists k: nat :: k < |vs| && vs[k].Ambiguous?;
    assert SomeRewritten(vs) ==> exists k: nat :: k < |vs| && !vs[k].Identical?;
  }

  lemma TwinsRepeat(st: Objects, c: Candidate, sourceBefore: Id, before: Id)
    ensures var vs := Verdicts(st, c, sourceBefore, c.terminal, before, |c.source|);
      && (c.how != FastForward ==> (SomeRepeated(vs) <==> AnyTwins(st, c, sourceBefore, before)))
      && (c.how == FastForward ==> !SomeRepeated(vs))
  {
    hide CompareTrees, Suffix, Untouched, Compared, SameEdits, JudgePair, Verdicts;
    var vs := Verdicts(st, c, sourceBefore, c.terminal, before, |c.source|);
    forall j: nat, k: nat | j < k < |vs|
      ensures Repeats(vs, j, k) <==> c.how != FastForward && Twins(st, c, sourceBefore, before, j, k)
    {
      VerdictMeans(st, c, sourceBefore, before, j);
      VerdictMeans(st, c, sourceBefore, before, k);
    }
    if SomeRepeated(vs) {
      var j, k :| 0 <= j < k < |vs| && Repeats(vs, j, k);
      assert Twins(st, c, sourceBefore, before, j, k);
    }
    if c.how != FastForward && AnyTwins(st, c, sourceBefore, before) {
      var j: nat, k: nat :| j < k < |vs| && Twins(st, c, sourceBefore, before, j, k);
      assert Repeats(vs, j, k);
    }
  }

  lemma ReadsMean(st: Objects, c: Candidate, sourceBefore: Id, before: Id)
    ensures PairsRead(st, c, sourceBefore, before) <==>
            ReadsSucceed(st, c, sourceBefore, c.terminal, before, |c.source|)
  {
    hide CompareTrees, Suffix, Untouched, Compared, JudgePair, Verdicts;
    var pairs := Suffix(st, c.terminal, before, |c.source|);
    var vs := Verdicts(st, c, sourceBefore, c.terminal, before, |c.source|);
    forall k: nat | k < |pairs|
      ensures !vs[k].Unreadable? <==>
        (Untouched(st, c, before, k) || c.how == FastForward
         || var r := Compared(st, c, sourceBefore, before, k, k);
            r.Ok? || r == Err(Correspondence) || r == Err(ReadError.Edits))
    {
      VerdictMeans(st, c, sourceBefore, before, k);
    }
    if ReadsSucceed(st, c, sourceBefore, c.terminal, before, |c.source|) {
      assert forall k: nat :: k < |pairs| ==> Parents(st, pairs[k].1).Ok? && !vs[k].Unreadable?;
    }
  }

  /** When every read succeeds, the range is refuted exactly when the target stops being
      single-parent or some pair is two commits that are not one change; otherwise it stays
      inconclusive exactly when the edits of such a pair are ambiguous or two of them are the same;
      otherwise it matches. */
  lemma RangeCompared(st: Objects, c: Candidate, sourceBefore: Id, before: Id)
    requires |c.source| > 0 && PairsRead(st, c, sourceBefore, before)
    ensures var r := CompareRange(st, c, sourceBefore, before);
      var short := |Suffix(st, c.terminal, before, |c.source|)| < |c.source|;
      && (r.error == Some(Correspondence) <==> short || AnyRefuted(st, c, sourceBefore, before))
      && (r.error == Some(ReadError.Edits) <==>
          !short && !AnyRefuted(st, c, sourceBefore, before)
          && (AnyUnclear(st, c, sourceBefore, before) || AnyTwins(st, c, sourceBefore, before)))
      && (r.error == None <==>
          !short && !AnyRefuted(st, c, sourceBefore, before)
          && !AnyUnclear(st, c, sourceBefore, before) && !AnyTwins(st, c, sourceBefore, before))
      && (r.error == None ==>
          (r.identical <==> forall k: nat :: k < |c.source| ==> Untouched(st, c, before, k)))
  {
    hide Suffix, Verdicts, ReadsSucceed, SomeUnequal, SomeAmbiguous, SomeRewritten, SomeRepeated, PairsRead;
    hide CompareRange;
    hide AnyRefuted, AnyUnclear, Untouched;
    VerdictsMean(st, c, sourceBefore, before);
    RangeExact(st, c, sourceBefore, before);
    if c.how == FastForward && AnyTwins(st, c, sourceBefore, before) {
      TwinsAreRefuted(st, c, sourceBefore, before);
    }
  }

  lemma TwinsAreRefuted(st: Objects, c: Candidate, sourceBefore: Id, before: Id)
    requires c.how == FastForward && AnyTwins(st, c, sourceBefore, before)
    ensures AnyRefuted(st, c, sourceBefore, before)
  {
    hide Suffix, CompareTrees, Compared, Untouched;
    var j: nat, k: nat :|
      j < k < |Suffix(st, c.terminal, before, |c.source|)| && Twins(st, c, sourceBefore, before, j, k);
    assert Refuted(st, c, sourceBefore, before, k);
  }

  /** A walk without error read everything on its way. */
  lemma {:induction false} MatchRead(st: Objects, c: Candidate, sourceBefore: Id, id: Id, before: Id, n: nat, w: Walk)
    requires 1 <= n <= |c.source| && WalkRange(st, c, sourceBefore, id, before, n, w).error == None
    ensures ReadsSucceed(st, c, sourceBefore, id, before, n)
    decreases n
  {
    hide JudgePair, TakePair, EndWalk;
    var verdict := JudgePair(st, c, sourceBefore, n - 1, id, before);
    var next := TakePair(w, c.source[n - 1], id, before, verdict);
    var pairs, vs := Suffix(st, id, before, n), Verdicts(st, c, sourceBefore, id, before, n);
    assert pairs[0] == (id, before) && vs[0] == verdict;
    if n > 1 {
      var parent := Parents(st, before).value[0];
      MatchRead(st, c, sourceBefore, before, parent, n - 1, next);
      VerdictsUnfold(st, c, sourceBefore, id, before, n);
      assert pairs[1..] == Suffix(st, before, parent, n - 1);
      forall k | 0 <= k < |pairs| ensures Parents(st, pairs[k].1).Ok? && !vs[k].Unreadable? {
        if k > 0 {
          assert pairs[k] == pairs[1..][k - 1] && vs[k] == vs[1..][k - 1];
        }
      }
    } else {
      assert Suffix(st, id, before, 1) == [(id, before)];
    }
  }

  /** Every pair is one commit or one change, and no change occurs twice. */
  ghost predicate PairedUp(st: Objects, c: Candidate, sourceBefore: Id, before: Id) {
    var pairs := Suffix(st, c.terminal, before, |c.source|);
    && |pairs| == |c.source|
    && (forall k: nat :: k < |pairs| ==>
          && Parents(st, pairs[k].1).Ok?
          && (Untouched(st, c, before, k) || Compared(st, c, sourceBefore, before, k, k).Ok?))
    && !AnyTwins(st, c, sourceBefore, before)
  }

  /** A range that is not a fast-forward matches exactly then, whatever else can be read. */
  lemma MatchesExactly(st: Objects, c: Candidate, sourceBefore: Id, before: Id)
    requires |c.source| > 0 && c.how != FastForward
    ensures CompareRange(st, c, sourceBefore, before).error == None <==> PairedUp(st, c, sourceBefore, before)
  {
    hide Suffix, Untouched, Compared, Verdicts, ReadsSucceed, AnyTwins;
    if CompareRange(st, c, sourceBefore, before).error == None {
      MatchRead(st, c, sourceBefore, c.terminal, before, |c.source|, START);
      VerdictsMean(st, c, sourceBefore, before);
      RangeCompared(st, c, sourceBefore, before);
      var pairs := Suffix(st, c.terminal, before, |c.source|);
      forall k: nat | k < |pairs|
        ensures Untouched(st, c, before, k) || Compared(st, c, sourceBefore, before, k, k).Ok?
      {
        assert !Refuted(st, c, sourceBefore, before, k) && !Unclear(st, c, sourceBefore, before, k);
      }
    } else if PairedUp(st, c, sourceBefore, before) {
      RangeCompared(st, c, sourceBefore, before);
    }
  }

  // ----- where a walk stops, and what it names -----

  /** The walk goes past this pair: its boundary can be read, and it is neither refuted nor unreadable. */
  predicate Passes(st: Objects, pair: (Id, Id), v: PairVerdict) {
    Parents(st, pair.1).Ok? && !v.Unequal? && !v.Unreadable?
  }

  /** The first pair and its verdict, and those of the walk from the next commit on. */
  lemma ListsUnfold(st: Objects, c: Candidate, sourceBefore: Id, id: Id, before: Id, n: nat)
    requires 1 <= n <= |c.source|
    ensures var pairs, vs := Suffix(st, id, before, n), Verdicts(st, c, sourceBefore, id, before, n);
      && |pairs| == |vs| > 0 && pairs[0] == (id, before) && vs[0] == JudgePair(st, c, sourceBefore, n - 1, id, before)
      && (n == 1 ==> |pairs| == 1)
      && (n > 1 ==> (|pairs| > 1 <==> Parents(st, before).Ok? && |Parents(st, before).value| == 1))
      && (|pairs| > 1 ==>
            && pairs[1..] == Suffix(st, before, Parents(st, before).value[0], n - 1)
            && vs[1..] == Verdicts(st, c, sourceBefore, before, Parents(st, before).value[0], n - 1))
  {
    hide JudgePair;
    VerdictsUnfold(st, c, sourceBefore, id, before, n);
    if n > 1 && Parents(st, before).Ok? && |Parents(st, before).value| == 1 {
      assert |Suffix(st, before, Parents(st, before).value[0], n - 1)| > 0;
    }
  }

  /** One step of the walk. */
  lemma WalkStep(st: Objects, c: Candidate, sourceBefore: Id, id: Id, before: Id, n: nat, w: Walk)
    requires 1 <= n <= |c.source|
    ensures var r := WalkRange(st, c, sourceBefore, id, before, n, w);
      var v := JudgePair(st, c, sourceBefore, n - 1, id, before);
      var next := TakePair(w, c.source[n - 1], id, before, v);
      if Parents(st, before).Err? then r.error == Some(Parents(st, before).error) && r.culprit == before
      else if v.Unequal? then r.error == Some(Correspondence) && r.culprit == c.source[n - 1]
      else if v.Unreadable? then r.error == Some(v.error) && r.culprit == c.source[n - 1]
      else if n == 1 then r == EndWalk(next)
      else if |Parents(st, before).value| != 1 then r.error == Some(Correspondence) && r.culprit == before
      else r == WalkRange(st, c, sourceBefore, before, Parents(st, before).value[0], n - 1, next)
  {
    hide JudgePair, TakePair, EndWalk, Parents;
  }

  /** The first pair that it cannot go past, `k`, decides the error and what it names; so does the last
      pair of a target that ends early. */
  lemma {:induction false} WalkStops(st: Objects, c: Candidate, sourceBefore: Id, id: Id, before: Id, n: nat, w: Walk,
                                     k: nat)
    requires 1 <= n <= |c.source| && k < |Suffix(st, id, before, n)|
    requires var pairs, vs := Suffix(st, id, before, n), Verdicts(st, c, sourceBefore, id, before, n);
      && (forall j :: 0 <= j < k ==> Passes(st, pairs[j], vs[j]))
      && (!Passes(st, pairs[k], vs[k]) || k + 1 == |pairs| < n)
    ensures var pairs, vs := Suffix(st, id, before, n), Verdicts(st, c, sourceBefore, id, before, n);
      var r := WalkRange(st, c, sourceBefore, id, before, n, w);
      if Parents(st, pairs[k].1).Err? then r.error == Some(Parents(st, pairs[k].1).error) && r.culprit == pairs[k].1
      else if vs[k].Unequal? then r.error == Some(Correspondence) && r.culprit == c.source[n - 1 - k]
      else if vs[k].Unreadable? then r.error == Some(vs[k].error) && r.culprit == c.source[n - 1 - k]
      else r.error == Some(Correspondence) && r.culprit == pairs[k].1
    decreases k
  {
    hide JudgePair, TakePair, EndWalk, Parents, Suffix, Verdicts, WalkRange;
    var pairs, vs := Suffix(st, id, before, n), Verdicts(st, c, sourceBefore, id, before, n);
    ListsUnfold(st, c, sourceBefore, id, before, n);
    WalkStep(st, c, sourceBefore, id, before, n, w);
    if k > 0 {
      assert Passes(st, pairs[0], vs[0]);
      var parent := Parents(st, before).value[0];
      assert forall j :: 0 <= j < |pairs| - 1 ==> pairs[1..][j] == pairs[j + 1] && vs[1..][j] == vs[j + 1];
      WalkStops(st, c, sourceBefore, before, parent, n - 1,
                TakePair(w, c.source[n - 1], id, before, vs[0]), k - 1);
    }
  }

  /** The edits of pair `k` are ambiguous, or were met before. */
  ghost predicate OpenAt(rewritten: seq<seq<FileEdit>>, vs: seq<PairVerdict>, k: nat)
    requires k < |vs|
  {
    || vs[k].Ambiguous?
    || (vs[k].Rewritten?
        && (AlreadySeen(rewritten, vs[k].edits) || exists j :: 0 <= j < k && Repeats(vs, j, k)))
  }

  lemma OpenShift(rewritten: seq<seq<FileEdit>>, vs: seq<PairVerdict>, k: nat)
    requires 0 < k < |vs|
    ensures OpenAt(rewritten, vs, k) <==>
            OpenAt(if vs[0].Rewritten? then rewritten + [vs[0].edits] else rewritten, vs[1..], k - 1)
  {
    hide SameEdits;
    var rest := vs[1..];
    assert rest[k - 1] == vs[k] && forall j :: 0 <= j < |rest| ==> rest[j] == vs[j + 1];
    if vs[k].Rewritten? {
      if vs[0].Rewritten? {
        var more := rewritten + [vs[0].edits];
        assert more[|rewritten|] == vs[0].edits && forall m :: 0 <= m < |rewritten| ==> more[m] == rewritten[m];
        assert AlreadySeen(more, vs[k].edits) <==> AlreadySeen(rewritten, vs[k].edits) || Repeats(vs, 0, k);
      }
      forall j | 0 < j < k ensures Repeats(vs, j, k) <==> Repeats(rest, j - 1, k - 1) {
      }
      var m := k - 1;
      if exists j :: 0 <= j < m && Repeats(rest, j, m) {
        var j :| 0 <= j < m && Repeats(rest, j, m);
        assert Repeats(vs, j + 1, k);
      }
    }
  }

  /** A walk that goes past every pair names the first one that is left open, if there is one. */
  lemma {:induction false} WalkPends(st: Objects, c: Candidate, sourceBefore: Id, id: Id, before: Id, n: nat, w: Walk)
    requires 1 <= n <= |c.source| && |Suffix(st, id, before, n)| == n
    requires var pairs, vs := Suffix(st, id, before, n), Verdicts(st, c, sourceBefore, id, before, n);
      forall j :: 0 <= j < n ==> Passes(st, pairs[j], vs[j])
    ensures var vs, r := Verdicts(st, c, sourceBefore, id, before, n), WalkRange(st, c, sourceBefore, id, before, n, w);
      && (w.pending.Some? ==> r.error == Some(ReadError.Edits) && r.culprit == w.pending.value)
      && (w.pending.None? ==>
            forall k: nat :: k < n && OpenAt(w.rewritten, vs, k)
                             && (forall j: nat :: j < k ==> !OpenAt(w.rewritten, vs, j)) ==>
              r.error == Some(ReadError.Edits) && r.culprit == c.source[n - 1 - k])
    decreases n
  {
    hide JudgePair, Parents, AlreadySeen, Repeats, Suffix, Verdicts, WalkRange, OpenAt;
    var pairs, vs := Suffix(st, id, before, n), Verdicts(st, c, sourceBefore, id, before, n);
    ListsUnfold(st, c, sourceBefore, id, before, n);
    WalkStep(st, c, sourceBefore, id, before, n, w);
    assert Passes(st, pairs[0], vs[0]);
    var next := TakePair(w, c.source[n - 1], id, before, vs[0]);
    OpenFirst(w.rewritten, vs);
    if n > 1 {
      var parent := Parents(st, before).value[0];
      assert forall j :: 0 <= j < n - 1 ==> pairs[1..][j] == pairs[j + 1] && vs[1..][j] == vs[j + 1];
      WalkPends(st, c, sourceBefore, before, parent, n - 1, next);
      forall k: nat | k < n && w.pending.None? && OpenAt(w.rewritten, vs, k)
          && (forall j: nat :: j < k ==> !OpenAt(w.rewritten, vs, j))
        ensures var r := WalkRange(st, c, sourceBefore, id, before, n, w);
          r.error == Some(ReadError.Edits) && r.culprit == c.source[n - 1 - k]
      {
        if k > 0 {
          OpenShift(w.rewritten, vs, k);
          forall j: nat | j < k - 1 ensures !OpenAt(next.rewritten, vs[1..], j) {
            OpenShift(w.rewritten, vs, j + 1);
          }
        }
      }
    }
  }

  lemma OpenFirst(rewritten: seq<seq<FileEdit>>, vs: seq<PairVerdict>)
    requires vs != []
    ensures OpenAt(rewritten, vs, 0) <==>
            vs[0].Ambiguous? || (vs[0].Rewritten? && AlreadySeen(rewritten, vs[0].edits))
  {
  }

  /** The comparison goes past pair `k`: its boundary can be read, and it is one commit or two whose
      edits are the same or ambiguous. */
  predicate GoesPast(st: Objects, c: Candidate, sourceBefore: Id, before: Id, k: nat)
    requires k < |c.source| && k < |Suffix(st, c.terminal, before, |c.source|)|
  {
    && Parents(st, Suffix(st, c.terminal, before, |c.source|)[k].1).Ok?
    && (|| Untouched(st, c, before, k)
        || (c.how != FastForward
            && (Compared(st, c, sourceBefore, before, k, k).Ok?
                || Compared(st, c, sourceBefore, before, k, k) == Err(ReadError.Edits))))
  }

  lemma PassesExactly(st: Objects, c: Candidate, sourceBefore: Id, before: Id, k: nat)
    requires k < |Suffix(st, c.terminal, before, |c.source|)|
    ensures Passes(st, Suffix(st, c.terminal, before, |c.source|)[k],
                   Verdicts(st, c, sourceBefore, c.terminal, before, |c.source|)[k]) <==>
            GoesPast(st, c, sourceBefore, before, k)
    ensures var v := Verdicts(st, c, sourceBefore, c.terminal, before, |c.source|)[k];
      v.Unreadable? ==> Compared(st, c, sourceBefore, before, k, k) == Err(v.error)
  {
    hide CompareTrees, Suffix;
  }

  /** A range is refuted, or a read of it fails, at the first pair that the comparison cannot go past: it
      names the unreadable boundary, or the source commit; a target that ends early is named by where it
      ends. */
  lemma RangeStops(st: Objects, c: Candidate, sourceBefore: Id, before: Id, k: nat)
    requires |c.source| > 0 && k < |Suffix(st, c.terminal, before, |c.source|)|
    requires forall j: nat :: j < k ==> GoesPast(st, c, sourceBefore, before, j)
    requires || !GoesPast(st, c, sourceBefore, before, k)
             || k + 1 == |Suffix(st, c.terminal, before, |c.source|)| < |c.source|
    ensures var r := CompareRange(st, c, sourceBefore, before);
      var boundary := Suffix(st, c.terminal, before, |c.source|)[k].1;
      if Parents(st, boundary).Err? then r.error == Some(Unavailable) && r.culprit == boundary
      else if Refuted(st, c, sourceBefore, before, k) then
        r.error == Some(Correspondence) && r.culprit == c.source[|c.source| - 1 - k]
      else if !GoesPast(st, c, sourceBefore, before, k) then
        && Compared(st, c, sourceBefore, before, k, k).Err?
        && r.error == Some(Compared(st, c, sourceBefore, before, k, k).error)
        && r.culprit == c.source[|c.source| - 1 - k]
      else r.error == Some(Correspondence) && r.culprit == boundary
  {
    hide Suffix, Verdicts, Compared, Untouched, WalkRange, Refuted, Passes, GoesPast;
    forall j: nat | j <= k
      ensures Passes(st, Suffix(st, c.terminal, before, |c.source|)[j],
                     Verdicts(st, c, sourceBefore, c.terminal, before, |c.source|)[j]) <==>
              GoesPast(st, c, sourceBefore, before, j)
    {
      PassesExactly(st, c, sourceBefore, before, j);
    }
    PassesExactly(st, c, sourceBefore, before, k);
    VerdictMeans(st, c, sourceBefore, before, k);
    WalkStops(st, c, sourceBefore, c.terminal, before, |c.source|, START, k);
    PassUnfold(st, c, sourceBefore, before, k);
  }

  lemma PassUnfold(st: Objects, c: Candidate, sourceBefore: Id, before: Id, k: nat)
    requires k < |Suffix(st, c.terminal, before, |c.source|)|
    ensures var pair, v := Suffix(st, c.terminal, before, |c.source|)[k],
                Verdicts(st, c, sourceBefore, c.terminal, before, |c.source|)[k];
      && (Passes(st, pair, v) <==> Parents(st, pair.1).Ok? && !v.Unequal? && !v.Unreadable?)
      && (Parents(st, pair.1).Err? ==> Parents(st, pair.1).error == Unavailable)
  {
    hide Suffix, Verdicts;
  }

  /** Its edits are ambiguous, or those of a pair nearer to the terminal. */
  predicate LeftOpen(st: Objects, c: Candidate, sourceBefore: Id, before: Id, k: nat)
    requires k < |c.source| && k < |Suffix(st, c.terminal, before, |c.source|)|
  {
    || Unclear(st, c, sourceBefore, before, k)
    || exists j: nat :: j < k && Twins(st, c, sourceBefore, before, j, k)
  }

  /** A range that is neither refuted nor unreadable names the first source commit, from the end, that is
      left open. */
  lemma RangeNames(st: Objects, c: Candidate, sourceBefore: Id, before: Id, k: nat)
    requires |c.source| > 0 && |Suffix(st, c.terminal, before, |c.source|)| == |c.source|
    requires c.how != FastForward && k < |c.source| && LeftOpen(st, c, sourceBefore, before, k)
    requires forall j: nat :: j < k ==> !LeftOpen(st, c, sourceBefore, before, j)
    requires forall j: nat :: j < |c.source| ==> GoesPast(st, c, sourceBefore, before, j)
    ensures CompareRange(st, c, sourceBefore, before).error == Some(ReadError.Edits)
    ensures CompareRange(st, c, sourceBefore, before).culprit == c.source[|c.source| - 1 - k]
  {
    hide Suffix, Verdicts, WalkRange, Passes, GoesPast, LeftOpen, OpenAt;
    forall j: nat | j < |c.source|
      ensures Passes(st, Suffix(st, c.terminal, before, |c.source|)[j],
                     Verdicts(st, c, sourceBefore, c.terminal, before, |c.source|)[j])
      ensures OpenAt([], Verdicts(st, c, sourceBefore, c.terminal, before, |c.source|), j) <==>
              LeftOpen(st, c, sourceBefore, before, j)
    {
      PassesExactly(st, c, sourceBefore, before, j);
      OpenExactly(st, c, sourceBefore, before, j);
    }
    WalkPends(st, c, sourceBefore, c.terminal, before, |c.source|, START);
  }

  lemma OpenExactly(st: Objects, c: Candidate, sourceBefore: Id, before: Id, k: nat)
    requires c.how != FastForward && k < |Suffix(st, c.terminal, before, |c.source|)|
    ensures OpenAt([], Verdicts(st, c, sourceBefore, c.terminal, before, |c.source|), k) <==>
            LeftOpen(st, c, sourceBefore, before, k)
  {
    hide Suffix, Verdicts, Compared, Untouched, SameEdits, Unclear;
    var vs := Verdicts(st, c, sourceBefore, c.terminal, before, |c.source|);
    VerdictMeans(st, c, sourceBefore, before, k);
    forall j: nat | j < k ensures Repeats(vs, j, k) <==> Twins(st, c, sourceBefore, before, j, k) {
      VerdictMeans(st, c, sourceBefore, before, j);
    }
  }

  function Ids(pairs: seq<(Id, Id)>): (r: seq<Id>)
    ensures |r| == |pairs| && forall k :: 0 <= k < |pairs| ==> r[k] == pairs[k].0
  {
    seq(|pairs|, k requires 0 <= k < |pairs| => pairs[k].0)
  }

  /** An error-free walk took its first pair and went on from there. */
  lemma WalkTakes(st: Objects, c: Candidate, sourceBefore: Id, id: Id, before: Id, n: nat, w: Walk) returns (next: Walk)
    requires 1 <= n <= |c.source| && WalkRange(st, c, sourceBefore, id, before, n, w).error == None
    ensures Parents(st, before).Ok?
    ensures next.commits == w.commits + [id] && next.before == before
    ensures n == 1 ==> WalkRange(st, c, sourceBefore, id, before, n, w) == EndWalk(next)
    ensures n > 1 ==> |Parents(st, before).value| == 1
    ensures n > 1 ==> WalkRange(st, c, sourceBefore, id, before, n, w) ==
                      WalkRange(st, c, sourceBefore, before, Parents(st, before).value[0], n - 1, next)
  {
    next := TakePair(w, c.source[n - 1], id, before, JudgePair(st, c, sourceBefore, n - 1, id, before));
  }

  /** A walk that ends without an error owns every pair, whatever else could be read. */
  lemma {:induction false} WalkOwns(st: Objects, c: Candidate, sourceBefore: Id, id: Id, before: Id, n: nat, w: Walk)
    requires 1 <= n <= |c.source| && WalkRange(st, c, sourceBefore, id, before, n, w).error == None
    ensures var r := WalkRange(st, c, sourceBefore, id, before, n, w);
            var pairs := Suffix(st, id, before, n);
            && |pairs| == n && r.before == pairs[n - 1].1 && Parents(st, r.before).Ok?
            && r.commits == Reverse(w.commits + Ids(pairs))
    decreases n
  {
    hide WalkRange, Parents;
    var next := WalkTakes(st, c, sourceBefore, id, before, n, w);
    var parents := Parents(st, before).value;
    if n == 1 {
      assert Suffix(st, id, before, 1)[0] == (id, before);
      assert w.commits + Ids(Suffix(st, id, before, 1)) == next.commits;
    } else {
      WalkOwns(st, c, sourceBefore, before, parents[0], n - 1, next);
      var rest := Suffix(st, before, parents[0], n - 1);
      assert w.commits + Ids([(id, before)] + rest) == next.commits + Ids(rest);
    }
  }

  /** A matching range owns as many commits as the source has, read off the target's chain. */
  ghost predicate Owned(st: Objects, c: Candidate, before: Id, r: RangeResult) {
    var pairs := Suffix(st, c.terminal, before, |c.source|);
    |pairs| == |c.source| > 0 && r.before == pairs[|pairs| - 1].1 && r.commits == Reverse(Ids(pairs))
  }

  lemma RangeOwns(st: Objects, c: Candidate, sourceBefore: Id, before: Id)
    requires |c.source| > 0 && CompareRange(st, c, sourceBefore, before).error == None
    ensures Owned(st, c, before, CompareRange(st, c, sourceBefore, before))
  {
    WalkOwns(st, c, sourceBefore, c.terminal, before, |c.source|, START);
    var pairs := Suffix(st, c.terminal, before, |c.source|);
    assert START.commits + Ids(pairs) == Ids(pairs);
  }

  /** The chain relation along the suffix: each commit's only parent is the next commit. */
  lemma {:induction false} SuffixChain(st: Objects, id: Id, before: Id, n: nat, k: nat)
    requires k + 1 < |Suffix(st, id, before, n)|
    ensures var pairs := Suffix(st, id, before, n);
            && pairs[k + 1].0 == pairs[k].1
            && Parents(st, pairs[k].1) == Ok([pairs[k + 1].1])
    decreases n
  {
    var parents := Parents(st, before).value;
    assert parents == [parents[0]];
    if k > 0 {
      SuffixChain(st, before, parents[0], n - 1, k - 1);
    }
  }

  /** Identity spreads back along two linear chains: below an identical pair every pair is
      identical, down to the two boundaries. */
  lemma {:induction false} IdenticalBelow(st: Objects, c: Candidate, sourceBefore: Id, id: Id, before: Id, n: nat,
                                          k: nat, m: nat)
    requires 1 <= n <= |c.source| && ChainUpTo(st, c, sourceBefore, |c.source|)
    requires Parents(st, id) == Ok([before])
    requires k <= m < |Suffix(st, id, before, n)|
    requires c.source[n - 1 - k] == Suffix(st, id, before, n)[k].0
    ensures c.source[n - 1 - m] == Suffix(st, id, before, n)[m].0
    ensures SourceParent(c, sourceBefore, n - 1 - m) == Suffix(st, id, before, n)[m].1
    decreases m
  {
    var pairs := Suffix(st, id, before, n);
    if m == k {
      assert ChainLink(st, c, sourceBefore, n - 1 - m);
      if m > 0 {
        SuffixChain(st, id, before, n, m - 1);
      }
    } else {
      IdenticalBelow(st, c, sourceBefore, id, before, n, k, m - 1);
      SuffixChain(st, id, before, n, m - 1);
      assert ChainLink(st, c, sourceBefore, n - 1 - m);
    }
  }
}
