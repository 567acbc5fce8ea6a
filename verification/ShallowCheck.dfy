/** Shallow boundaries: commits whose parents the local clone has cut off. */
module ShallowCheck {
  import opened Model
  import opened Graph
  import opened Store
  import opened View

  // ----- the check -----

  /** One shallow entry against the ends of the interval that are given. */
  function CheckEntry(st: Objects, entry: string, heads: seq<Id>): Result<()> {
    if heads == [] then Ok(())
    else if heads[0] == "" then CheckEntry(st, entry, heads[1..])
    else
      match IsAncestor(st, entry, heads[0])
      case Err(e) => Err(e)
      case Ok(found) => if found then Err(ReadError.Shallow) else CheckEntry(st, entry, heads[1..])
  }

  function CheckEntries(st: Objects, entries: seq<string>, heads: seq<Id>): Result<()> {
    if entries == [] then Ok(())
    else if !ObjectId(entries[0]) then Err(ReadError.Shallow)
    else
      match CheckEntry(st, entries[0], heads)
      case Err(e) => Err(e)
      case Ok(_) => CheckEntries(st, entries[1..], heads)
  }

  function CheckShallow(st: Objects, b: Bounds): Result<()> {
    CheckEntries(st, st.shallow, [b.base, b.head])
  }

  // ----- what the check finds -----

  /** The entry is not an ancestor of an end that is given, and that was answered. */
  predicate Clear(st: Objects, entry: string, head: Id) {
    head == "" || ((entry, head) in st.ancestry && !st.ancestry[(entry, head)])
  }

  lemma {:induction false} EntryExactly(st: Objects, entry: string, heads: seq<Id>)
    ensures CheckEntry(st, entry, heads).Ok? <==> forall k :: 0 <= k < |heads| ==> Clear(st, entry, heads[k])
    ensures CheckEntry(st, entry, heads).Err? ==>
              || CheckEntry(st, entry, heads).error == ReadError.Shallow
              || CheckEntry(st, entry, heads).error == Unavailable
  {
    if heads != [] {
      EntryExactly(st, entry, heads[1..]);
      assert forall k :: 0 < k < |heads| ==> heads[k] == heads[1..][k - 1];
    }
  }

  lemma {:induction false} EntriesExactly(st: Objects, entries: seq<string>, heads: seq<Id>)
    ensures CheckEntries(st, entries, heads).Ok? <==>
            forall i :: 0 <= i < |entries| ==>
              ObjectId(entries[i]) && forall k :: 0 <= k < |heads| ==> Clear(st, entries[i], heads[k])
    ensures CheckEntries(st, entries, heads).Err? ==>
              || CheckEntries(st, entries, heads).error == ReadError.Shallow
              || CheckEntries(st, entries, heads).error == Unavailable
  {
    hide Clear, ObjectId, CheckEntry;
    if entries != [] {
      EntryExactly(st, entries[0], heads);
      EntriesExactly(st, entries[1..], heads);
      assert forall i :: 0 < i < |entries| ==> entries[i] == entries[1..][i - 1];
    }
  }

  /** The check passes exactly when every shallow entry is an object name that is answered to be no
      ancestor of the base, where there is one, nor of the head.  It fails on a boundary or on a read. */
  lemma ShallowCheckExactly(st: Objects, b: Bounds)
    ensures CheckShallow(st, b).Ok? <==>
            forall i :: 0 <= i < |st.shallow| ==>
              ObjectId(st.shallow[i]) && Clear(st, st.shallow[i], b.base) && Clear(st, st.shallow[i], b.head)
    ensures CheckShallow(st, b).Err? ==>
              CheckShallow(st, b).error == ReadError.Shallow || CheckShallow(st, b).error == Unavailable
  {
    hide Clear, ObjectId, CheckEntries;
    EntriesExactly(st, st.shallow, [b.base, b.head]);
    assert [b.base, b.head][0] == b.base && [b.base, b.head][1] == b.head;
  }

  /** The reads that the check may ask for. */
  function ShallowReads(st: Objects): nat {
    1 + 2 * |st.shallow|
  }

  method ReadEntry(v: ObjectView, entry: string, heads: seq<Id>) returns (r: Result<()>)
    requires !v.meter.failed && v.Paced()
    modifies v.meter
    ensures v.Paced() && v.meter.asked <= old(v.meter.asked) + |heads|
    ensures r == if v.meter.failed then Err(Budget) else CheckEntry(v.store, entry, heads)
    ensures v.meter.nodes <= old(v.meter.nodes)
  {
    assert heads[0..] == heads;
    for i := 0 to |heads|
      invariant v.Paced() && v.meter.asked <= old(v.meter.asked) + i
      invariant !v.meter.failed && v.meter.nodes <= old(v.meter.nodes)
      invariant CheckEntry(v.store, entry, heads) == CheckEntry(v.store, entry, heads[i..])
    {
      assert heads[i..][1..] == heads[i + 1..];
      if heads[i] != "" {
        var found := v.Ancestor(entry, heads[i]);
        if found.Err? {
          return Err(found.error);
        }
        if found.value {
          return Err(ReadError.Shallow);
        }
      }
    }
    r := Ok(());
  }

  method ReadShallow(v: ObjectView, b: Bounds) returns (r: Result<()>)
    requires !v.meter.failed && v.Paced()
    modifies v.meter
    ensures v.Paced() && v.meter.asked <= old(v.meter.asked) + ShallowReads(v.store)
    ensures r == if v.meter.failed then Err(Budget) else CheckShallow(v.store, b)
    ensures v.meter.nodes <= old(v.meter.nodes)
  {
    var asked := v.Run();
    if !asked {
      return Err(Budget);
    }
    var entries, heads := v.store.shallow, [b.base, b.head];
    assert entries[0..] == entries;
    for i := 0 to |entries|
      invariant v.Paced() && v.meter.asked <= old(v.meter.asked) + 1 + 2 * i
      invariant !v.meter.failed && v.meter.nodes <= old(v.meter.nodes)
      invariant CheckEntries(v.store, entries, heads) == CheckEntries(v.store, entries[i..], heads)
    {
      assert entries[i..][1..] == entries[i + 1..];
      if !ObjectId(entries[i]) {
        return Err(ReadError.Shallow);
      }
      var clear := ReadEntry(v, entries[i], heads);
      if clear.Err? {
        return Err(clear.error);
      }
    }
    r := Ok(());
  }

  // ----- why it is enough -----

  /** What a clone sees: the parents of shallow commits are cut off. */
  ghost function Cut(g: Ancestry, roots: set<Id>): Ancestry {
    map id | id in g :: if id in roots then [] else g[id]
  }

  lemma {:induction false} EntryClear(st: Objects, entry: string, heads: seq<Id>, head: Id)
    requires Exact(st) && CheckEntry(st, entry, heads).Ok? && head in heads && head != ""
    ensures entry !in Reach(st.graph, head)
  {
    if heads[0] != head {
      EntryClear(st, entry, heads[1..], head);
    }
  }

  lemma {:induction false} EntriesClear(st: Objects, entries: seq<string>, heads: seq<Id>, entry: string, head: Id)
    requires Exact(st) && CheckEntries(st, entries, heads).Ok? && entry in entries && head in heads && head != ""
    ensures entry !in Reach(st.graph, head)
  {
    if entries[0] == entry {
      EntryClear(st, entry, heads, head);
    } else {
      EntriesClear(st, entries[1..], heads, entry, head);
    }
  }

  /** A path that meets no cut commit is the same path in the full history. */
  lemma {:induction false} PathSurvives(g: Ancestry, roots: set<Id>, p: seq<Id>, from: Id, to: Id)
    requires Connects(g, p, from, to) && forall r :: r in roots ==> r !in Reach(Cut(g, roots), from)
    ensures Connects(Cut(g, roots), p, from, to)
    decreases |p|
  {
    var c := Cut(g, roots);
    ReachSelf(c, from);
    if |p| > 1 {
      assert p[1] in c[from];
      assert Connects(c, [from, p[1]], from, p[1]);
      ReachTransitive(c, from, p[1]);
      PathSurvives(g, roots, p[1..], p[1], to);
      assert forall i :: 0 < i < |p| ==> p[i] == p[1..][i - 1];
    }
  }

  lemma CutPathIsPath(g: Ancestry, roots: set<Id>, p: seq<Id>, from: Id, to: Id)
    requires Connects(Cut(g, roots), p, from, to)
    ensures Connects(g, p, from, to)
  {
  }

  /** When the clone's view passes the check, it shows the full history of both ends: nothing
      introduced and nothing excluded is hidden. */
  lemma ShallowCheckSuffices(full: Ancestry, roots: set<Id>, st: Objects, b: Bounds, end: Id)
    requires Exact(st) && st.graph == Cut(full, roots)
    requires forall r :: r in roots ==> r in st.shallow
    requires CheckShallow(st, b).Ok? && (end == b.base || end == b.head) && end != ""
    ensures Reach(st.graph, end) == Reach(full, end)
  {
    forall r | r in roots ensures r !in Reach(st.graph, end) {
      assert end in [b.base, b.head];
      EntriesClear(st, st.shallow, [b.base, b.head], r, end);
    }
    forall x | x in Reach(full, end) ensures x in Reach(st.graph, end) {
      var p :| Connects(full, p, end, x);
      PathSurvives(full, roots, p, end, x);
    }
    forall x | x in Reach(st.graph, end) ensures x in Reach(full, end) {
      var p :| Connects(st.graph, p, end, x);
      CutPathIsPath(full, roots, p, end, x);
    }
  }
}
