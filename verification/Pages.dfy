/** Draining a cursor-paged provider read. */
module Pages {
  import opened Model

  datatype Page<T> = Page(items: seq<T>, exhausted: bool, nextCursor: string)

  /** A provider that answers each cursor the same way every time; other cursors fail. */
  type Provider<T> = map<string, Page<T>>

  datatype Drain<T> = Collected(items: seq<T>) | Revisited(cursor: string) | TooManyPages | NoNextCursor | ProviderError

  // ----- the chain of cursors -----

  predicate Continues<T>(f: Provider<T>, cursor: string) {
    cursor in f && !f[cursor].exhausted && f[cursor].nextCursor != ""
  }

  predicate Ends<T>(f: Provider<T>, cursor: string) {
    cursor in f && f[cursor].exhausted
  }

  /** The cursor of page `n`, if the chain from `start` gets that far. */
  function CursorAt<T>(f: Provider<T>, start: string, n: nat): Option<string> {
    if n == 0 then Some(start)
    else
      var c := CursorAt(f, start, n - 1);
      if c.None? || !Continues(f, c.value) then None else Some(f[c.value].nextCursor)
  }

  /** The items of the first `n` pages of the chain, in order. */
  function ItemsOf<T>(f: Provider<T>, start: string, n: nat): seq<T> {
    if n == 0 then []
    else
      var c := CursorAt(f, start, n - 1);
      ItemsOf(f, start, n - 1) + if c.Some? && c.value in f then f[c.value].items else []
  }

  ghost predicate SameCursor<T>(f: Provider<T>, start: string, i: nat, j: nat) {
    CursorAt(f, start, i).Some? && CursorAt(f, start, i) == CursorAt(f, start, j)
  }

  /** The first `n` pages have different cursors. */
  ghost predicate Fresh<T>(f: Provider<T>, start: string, n: nat) {
    forall i, j :: 0 <= i < j < n ==> !SameCursor(f, start, i, j)
  }

  /** Page `k` is the first whose cursor was met before. */
  ghost predicate CyclesAt<T>(f: Provider<T>, start: string, k: nat) {
    Fresh(f, start, k) && exists i :: 0 <= i < k && SameCursor(f, start, i, k)
  }

  /** The chain ends with page `k`: it is exhausted, names no next cursor, or cannot be fetched. */
  ghost predicate StopsAt<T>(f: Provider<T>, start: string, k: nat) {
    CursorAt(f, start, k).Some? && !Continues(f, CursorAt(f, start, k).value)
  }

  ghost predicate ExhaustedAt<T>(f: Provider<T>, start: string, k: nat) {
    StopsAt(f, start, k) && Ends(f, CursorAt(f, start, k).value)
  }

  ghost predicate FailsAt<T>(f: Provider<T>, start: string, k: nat) {
    StopsAt(f, start, k) && CursorAt(f, start, k).value !in f
  }

  ghost predicate StuckAt<T>(f: Provider<T>, start: string, k: nat) {
    StopsAt(f, start, k) && CursorAt(f, start, k).value in f && !Ends(f, CursorAt(f, start, k).value)
  }

  predicate Within(max: nat, k: nat) {
    max == 0 || k < max
  }

  lemma {:induction false} ChainPrefix<T>(f: Provider<T>, start: string, i: nat, k: nat)
    requires i < k && CursorAt(f, start, k).Some?
    ensures CursorAt(f, start, i).Some? && Continues(f, CursorAt(f, start, i).value)
    decreases k
  {
    if i + 1 < k {
      ChainPrefix(f, start, i, k - 1);
    }
  }

  /** Once a cursor recurs, the chain only goes round. */
  lemma {:induction false} RoundAndRound<T>(f: Provider<T>, start: string, i: nat, n: nat, k: nat) returns (j: nat)
    requires i < n && SameCursor(f, start, i, n) && CursorAt(f, start, k).Some?
    ensures j < n && CursorAt(f, start, j) == CursorAt(f, start, k)
    decreases k
  {
    if k < n {
      j := k;
    } else if k == n {
      j := i;
    } else {
      var m := RoundAndRound(f, start, i, n, k - 1);
      assert CursorAt(f, start, m + 1) == CursorAt(f, start, k);
      j := if m + 1 < n then m + 1 else i;
    }
  }

  /** A chain that cycles never ends, in particular never reaches an exhausted page. */
  lemma CycleNeverEnds<T>(f: Provider<T>, start: string, n: nat, k: nat)
    requires CyclesAt(f, start, n)
    ensures !StopsAt(f, start, k) && !ExhaustedAt(f, start, k)
  {
    if CursorAt(f, start, k).Some? {
      var i :| 0 <= i < n && SameCursor(f, start, i, n);
      var j := RoundAndRound(f, start, i, n, k);
      ChainPrefix(f, start, j, n);
    }
  }

  /** A chain ends at most once. */
  lemma EndsOnce<T>(f: Provider<T>, start: string, j: nat, k: nat)
    requires StopsAt(f, start, j) && j < k
    ensures CursorAt(f, start, k).None?
  {
    if CursorAt(f, start, k).Some? {
      ChainPrefix(f, start, j, k);
    }
  }

  // ----- the loop -----

  ghost predicate Seen<T>(f: Provider<T>, start: string, n: nat, seen: set<string>) {
    && (forall i :: 0 <= i < n ==> CursorAt(f, start, i).Some? && CursorAt(f, start, i).value in seen)
    && (forall c :: c in seen ==> exists i :: 0 <= i < n && CursorAt(f, start, i) == Some(c))
  }

  lemma NotSeen<T>(f: Provider<T>, start: string, n: nat, seen: set<string>)
    requires Seen(f, start, n, seen) && Fresh(f, start, n) && CursorAt(f, start, n).Some?
    ensures CursorAt(f, start, n).value in seen <==> CyclesAt(f, start, n)
    ensures CursorAt(f, start, n).value !in seen ==> Fresh(f, start, n + 1)
    ensures Seen(f, start, n + 1, seen + {CursorAt(f, start, n).value})
  {
    var c := CursorAt(f, start, n).value;
    if c in seen {
      var i :| 0 <= i < n && CursorAt(f, start, i) == Some(c);
      assert SameCursor(f, start, i, n);
    } else {
      forall i | 0 <= i < n ensures !SameCursor(f, start, i, n) {
        assert CursorAt(f, start, i).value in seen;
      }
    }
  }

  /** The drain succeeds exactly when the chain reaches an exhausted page within the bound, with
      the items of the whole chain in order; it reports a cycle exactly when a cursor recurs no
      later than on the call that would exceed the bound; it stops at the bound exactly when that
      many fresh pages all continue to a fresh cursor; and it reports the other two errors exactly
      when the chain ends with them within the bound. */
  ghost predicate Drained<T>(f: Provider<T>, start: string, maxPages: nat, r: Drain<T>) {
    && (r.Collected? <==> exists k: nat :: Within(maxPages, k) && ExhaustedAt(f, start, k))
    && (forall k: nat :: r.Collected? && ExhaustedAt(f, start, k) ==> r.items == ItemsOf(f, start, k + 1))
    && (r.Revisited? <==> exists k: nat :: (maxPages == 0 || k <= maxPages) && CyclesAt(f, start, k))
    && (forall k: nat :: r.Revisited? && CyclesAt(f, start, k) ==> CursorAt(f, start, k) == Some(r.cursor))
    && (r.TooManyPages? <==> maxPages > 0 && Fresh(f, start, maxPages + 1) && CursorAt(f, start, maxPages).Some?)
    && (r.ProviderError? <==> exists k: nat :: Within(maxPages, k) && FailsAt(f, start, k))
    && (r.NoNextCursor? <==> exists k: nat :: Within(maxPages, k) && StuckAt(f, start, k))
  }

  /** Ends on every provider: each round fetches a cursor not fetched before.  `fetched` counts
      the calls, which go along the chain. */
  method CollectPages<T>(f: Provider<T>, start: string, maxPages: nat) returns (r: Drain<T>, ghost fetched: nat)
    ensures Drained(f, start, maxPages, r)
    ensures Fresh(f, start, fetched) && (maxPages > 0 ==> fetched <= maxPages)
  {
    hide CyclesAt, Fresh, StopsAt, Drained, Seen;
    var items: seq<T> := [];
    var seen: set<string> := {};
    var cursor, pages := start, 0;
    FreshStart(f, start);
    while true
      invariant CursorAt(f, start, pages) == Some(cursor)
      invariant Seen(f, start, pages, seen) && Fresh(f, start, pages)
      invariant seen <= f.Keys && items == ItemsOf(f, start, pages)
      invariant maxPages > 0 ==> pages <= maxPages
      decreases |f.Keys - seen|
    {
      NotSeen(f, start, pages, seen);
      if cursor in seen {
        CycleIsFinal(f, start, pages, maxPages);
        return Revisited(cursor), pages;
      }
      if maxPages > 0 && pages >= maxPages {
        BoundIsFinal(f, start, maxPages);
        return TooManyPages, pages;
      }
      ghost var unseen := f.Keys - seen;
      seen := seen + {cursor};
      if !Continues(f, cursor) {
        StopIsFinal(f, start, pages, maxPages);
        fetched := pages + 1;
        if cursor !in f {
          r := ProviderError;
        } else if f[cursor].exhausted {
          r := Collected(items + f[cursor].items);
        } else {
          r := NoNextCursor;
        }
        return;
      }
      assert f.Keys - seen == unseen - {cursor};
      items := items + f[cursor].items;
      cursor, pages := f[cursor].nextCursor, pages + 1;
    }
  }

  lemma FreshStart<T>(f: Provider<T>, start: string)
    ensures Seen(f, start, 0, {}) && Fresh(f, start, 0)
  {
  }

  /** A cycle rules out every other way to stop. */
  lemma CycleIsFinal<T>(f: Provider<T>, start: string, n: nat, maxPages: nat)
    requires CyclesAt(f, start, n) && (maxPages > 0 ==> n <= maxPages)
    ensures CursorAt(f, start, n).Some? && Drained(f, start, maxPages, Revisited(CursorAt(f, start, n).value))
  {
    forall k: nat ensures !StopsAt(f, start, k) { CycleNeverEnds(f, start, n, k); }
    var i :| 0 <= i < n && SameCursor(f, start, i, n);
    assert maxPages > 0 ==> !Fresh(f, start, maxPages + 1);
    forall k: nat | CyclesAt(f, start, k) ensures k == n { CyclesOnce(f, start, k, n); }
  }

  /** The first recurrence is at one place. */
  lemma CyclesOnce<T>(f: Provider<T>, start: string, j: nat, k: nat)
    requires CyclesAt(f, start, j) && CyclesAt(f, start, k)
    ensures j == k
  {
    var a :| 0 <= a < j && SameCursor(f, start, a, j);
    var b :| 0 <= b < k && SameCursor(f, start, b, k);
  }

  /** `n` fresh pages that continue to a fresh cursor: neither an end nor a cycle so far. */
  lemma NothingYet<T>(f: Provider<T>, start: string, n: nat)
    requires Fresh(f, start, n + 1) && CursorAt(f, start, n).Some?
    ensures forall k: nat :: k < n ==> !StopsAt(f, start, k)
    ensures forall k: nat :: k <= n ==> !CyclesAt(f, start, k)
  {
    forall k: nat | k < n ensures !StopsAt(f, start, k) {
      if StopsAt(f, start, k) { EndsOnce(f, start, k, n); }
    }
  }

  lemma BoundIsFinal<T>(f: Provider<T>, start: string, maxPages: nat)
    requires maxPages > 0 && Fresh(f, start, maxPages + 1) && CursorAt(f, start, maxPages).Some?
    ensures Drained(f, start, maxPages, TooManyPages)
  {
    NothingYet(f, start, maxPages);
  }

  function Last<T>(f: Provider<T>, start: string, n: nat): Drain<T>
    requires CursorAt(f, start, n).Some? && !Continues(f, CursorAt(f, start, n).value)
  {
    var c := CursorAt(f, start, n).value;
    if c !in f then ProviderError
    else if f[c].exhausted then Collected(ItemsOf(f, start, n) + f[c].items)
    else NoNextCursor
  }

  lemma StopIsFinal<T>(f: Provider<T>, start: string, n: nat, maxPages: nat)
    requires Fresh(f, start, n + 1) && Within(maxPages, n)
    requires CursorAt(f, start, n).Some? && !Continues(f, CursorAt(f, start, n).value)
    ensures Drained(f, start, maxPages, Last(f, start, n)) && Fresh(f, start, n + 1)
  {
    NothingYet(f, start, n);
    forall k: nat | k > n ensures CursorAt(f, start, k).None? {
      if CursorAt(f, start, k).Some? { ChainPrefix(f, start, n, k); }
    }
    assert forall k: nat :: k > n ==> !CyclesAt(f, start, k);
    assert forall k: nat :: StopsAt(f, start, k) ==> k == n;
    assert ItemsOf(f, start, n + 1) ==
        ItemsOf(f, start, n) + if CursorAt(f, start, n).value in f then f[CursorAt(f, start, n).value].items else [];
  }
}
