/** The order in which daemon mutations take their locks, and why no set of mutators can wait in
    a circle. */
module Locking {
  import opened Ordering

  /** One lock file: a canonical config path or a canonical data directory. */
  datatype Key = ConfigKey(path: string) | DataKey(dir: string)

  /** The config lock comes before every data lock; data locks follow the order of their names. */
  predicate Before(a: Key, b: Key) {
    match (a, b)
    case (ConfigKey(_), DataKey(_)) => true
    case (DataKey(x), DataKey(y)) => x != y && Below(x, y)
    case (_, ConfigKey(_)) => false
  }

  lemma BeforeTransitive(a: Key, b: Key, c: Key)
    requires Before(a, b) && Before(b, c)
    ensures Before(a, c)
  {
    if a.DataKey? {
      BelowTransitive(a.dir, b.dir, c.dir);
      if a.dir == c.dir { BelowAntisymmetric(a.dir, b.dir); }
    }
  }

  predicate Ascending(keys: seq<Key>) {
    forall i, j :: 0 <= i < j < |keys| ==> Before(keys[i], keys[j])
  }

  function DataKeyOf(dir: string): Key {
    DataKey(dir)
  }

  /** The directories to lock, in order and once each. */
  function UniqueDirs(dirs: seq<string>): seq<string> {
    Compact(Sort(dirs, Below))
  }

  function DataKeys(dirs: seq<string>): seq<Key> {
    Map(UniqueDirs(dirs), DataKeyOf)
  }

  /** The data locks of a mutation are taken in order, once each, and are exactly those asked for. */
  lemma DataKeysAscend(dirs: seq<string>)
    ensures Ascending(DataKeys(dirs)) && |DataKeys(dirs)| == |UniqueDirs(dirs)|
    ensures forall k :: k in DataKeys(dirs) <==> k.DataKey? && k.dir in dirs
  {
    BelowIsPreorder();
    SortSorted(dirs, Below);
    CompactAscends(Sort(dirs, Below));
    MembersOfPermutation(Sort(dirs, Below), dirs);
    forall k ensures k in DataKeys(dirs) <==> k.DataKey? && k.dir in dirs {
      if k.DataKey? && k.dir in UniqueDirs(dirs) {
        var i :| 0 <= i < |UniqueDirs(dirs)| && UniqueDirs(dirs)[i] == k.dir;
        assert DataKeys(dirs)[i] == k;
      }
    }
  }

  // ----- any number of mutators -----

  /** The locks a mutator holds, in the order it took them, and those it will ask for next. */
  datatype Mutator = Mutator(held: seq<Key>, plan: seq<Key>)

  /** `Begin` asks for a config lock, `Plan` for data locks under it, `Grant` gives the next lock
      asked for once nobody holds it, `Refuse` ends the wait without it, `Drop` releases the lock
      taken last. */
  datatype Event =
    | Begin(m: nat, path: string) | Plan(m: nat, dirs: seq<string>) | Grant(m: nat) | Refuse(m: nat) | Drop(m: nat)

  predicate Free(s: seq<Mutator>, k: Key) {
    forall j :: 0 <= j < |s| ==> k !in s[j].held
  }

  /** What a mutator by itself may do next. */
  predicate Allowed(x: Mutator, e: Event) {
    match e
    case Begin(_, _) => x.held == [] && x.plan == []
    case Plan(_, _) => |x.held| == 1 && x.held[0].ConfigKey? && x.plan == []
    case Grant(_) => x.plan != []
    case Refuse(_) => x.plan != []
    case Drop(_) => x.plan == [] && x.held != []
  }

  function Moved(x: Mutator, e: Event): Mutator
    requires Allowed(x, e)
  {
    match e
    case Begin(_, path) => x.(plan := [ConfigKey(path)])
    case Plan(_, dirs) => x.(plan := DataKeys(dirs))
    case Grant(_) => Mutator(x.held + [x.plan[0]], x.plan[1..])
    case Refuse(_) => x.(plan := [])
    case Drop(_) => x.(held := x.held[..|x.held| - 1])
  }

  /** A lock is granted only when nobody holds it. */
  predicate Enabled(s: seq<Mutator>, e: Event) {
    e.m < |s| && Allowed(s[e.m], e) && (e.Grant? ==> Free(s, s[e.m].plan[0]))
  }

  function Next(s: seq<Mutator>, e: Event): seq<Mutator>
    requires e.m < |s| && Allowed(s[e.m], e)
  {
    s[e.m := Moved(s[e.m], e)]
  }

  predicate IsRun(s: seq<Mutator>, events: seq<Event>)
    decreases |events|
  {
    events != [] ==> Enabled(s, events[0]) && IsRun(Next(s, events[0]), events[1..])
  }

  function After(s: seq<Mutator>, events: seq<Event>): (r: seq<Mutator>)
    requires IsRun(s, events)
    ensures |r| == |s|
    decreases |events|
  {
    if events == [] then s else After(Next(s, events[0]), events[1..])
  }

  predicate Disjoint(a: Mutator, b: Mutator) {
    forall k :: k in a.held ==> k !in b.held
  }

  /** Each mutator's locks, taken and wanted, ascend; no lock has two holders. */
  predicate Ordered(s: seq<Mutator>) {
    && (forall i :: 0 <= i < |s| ==> Ascending(s[i].held + s[i].plan))
    && (forall i, j :: 0 <= i < |s| && 0 <= j < |s| && i != j ==> Disjoint(s[i], s[j]))
  }

  function Idle(n: nat): seq<Mutator> {
    seq(n, i => Mutator([], []))
  }

  lemma AscendingPrefix(keys: seq<Key>, part: seq<Key>)
    requires Ascending(keys) && |part| <= |keys| && part == keys[..|part|]
    ensures Ascending(part)
  {
    assert forall i :: 0 <= i < |part| ==> part[i] == keys[i];
  }

  lemma ConfigThenData(path: string, dirs: seq<string>)
    ensures Ascending([ConfigKey(path)] + DataKeys(dirs))
  {
    hide DataKeys;
    DataKeysAscend(dirs);
    var all := [ConfigKey(path)] + DataKeys(dirs);
    forall i, j | 0 <= i < j < |all| ensures Before(all[i], all[j]) {
      assert all[j] in DataKeys(dirs);
      assert i > 0 ==> all[i] == DataKeys(dirs)[i - 1] && all[j] == DataKeys(dirs)[j - 1];
    }
  }

  lemma OneAscends(s: seq<Mutator>, e: Event)
    requires Enabled(s, e) && Ascending(s[e.m].held + s[e.m].plan)
    ensures var y := Next(s, e)[e.m]; Ascending(y.held + y.plan)
  {
    hide Free, Ascending, DataKeys;
    var x, y := s[e.m], Next(s, e)[e.m];
    match e
    case Begin(_, path) =>
      AscendingOne(path);
      assert y.held + y.plan == [ConfigKey(path)];
    case Plan(_, dirs) =>
      ConfigThenData(x.held[0].path, dirs);
      assert y.held == [ConfigKey(x.held[0].path)];
    case Grant(_) => assert y.held + y.plan == x.held + x.plan;
    case Refuse(_) =>
      assert y.held + y.plan == (x.held + x.plan)[..|x.held|];
      AscendingPrefix(x.held + x.plan, y.held + y.plan);
    case Drop(_) =>
      assert y.held + y.plan == (x.held + x.plan)[..|x.held| - 1];
      AscendingPrefix(x.held + x.plan, y.held + y.plan);
  }

  lemma AscendingOne(path: string)
    ensures Ascending([ConfigKey(path)])
  {
  }

  lemma OneStaysDisjoint(s: seq<Mutator>, e: Event, j: nat)
    requires Enabled(s, e) && j < |s| && j != e.m && Disjoint(s[e.m], s[j])
    ensures Disjoint(Next(s, e)[e.m], s[j]) && Disjoint(s[j], Next(s, e)[e.m])
  {
    hide DataKeys;
  }

  lemma StepOrdered(s: seq<Mutator>, e: Event)
    requires Ordered(s) && Enabled(s, e)
    ensures Ordered(Next(s, e))
  {
    hide Ascending, Disjoint, DataKeys, Free;
    OneAscends(s, e);
    forall j | 0 <= j < |s| && j != e.m
      ensures Disjoint(Next(s, e)[e.m], s[j]) && Disjoint(s[j], Next(s, e)[e.m])
    {
      OneStaysDisjoint(s, e, j);
    }
  }

  /** Over every run of any number of mutators. */
  lemma {:induction false} RunOrdered(s: seq<Mutator>, events: seq<Event>)
    requires Ordered(s) && IsRun(s, events)
    ensures Ordered(After(s, events)) && |After(s, events)| == |s|
    decreases |events|
  {
    if events != [] {
      StepOrdered(s, events[0]);
      RunOrdered(Next(s, events[0]), events[1..]);
    }
  }

  /** `i` waits for a lock that `j` holds. */
  predicate WaitsFor(s: seq<Mutator>, i: nat, j: nat) {
    i < |s| && j < |s| && s[i].plan != [] && s[i].plan[0] in s[j].held
  }

  /** Whoever `i` waits for, itself waits only for a later lock. */
  lemma WaitClimbs(s: seq<Mutator>, i: nat, j: nat)
    requires Ordered(s) && WaitsFor(s, i, j) && s[j].plan != []
    ensures Before(s[i].plan[0], s[j].plan[0])
  {
    var n :| 0 <= n < |s[j].held| && s[j].held[n] == s[i].plan[0];
    var all := s[j].held + s[j].plan;
    assert all[n] == s[i].plan[0] && all[|s[j].held|] == s[j].plan[0];
  }

  predicate IsChain(s: seq<Mutator>, chain: seq<nat>) {
    && chain != []
    && forall n :: 0 <= n < |chain| - 1 ==> WaitsFor(s, chain[n], chain[n + 1])
  }

  lemma {:induction false} ChainClimbs(s: seq<Mutator>, chain: seq<nat>)
    requires Ordered(s) && IsChain(s, chain) && |chain| >= 2
    requires chain[|chain| - 1] < |s| && s[chain[|chain| - 1]].plan != []
    ensures chain[0] < |s| && s[chain[0]].plan != []
    ensures Before(s[chain[0]].plan[0], s[chain[|chain| - 1]].plan[0])
    decreases |chain|
  {
    assert WaitsFor(s, chain[0], chain[1]);
    if |chain| > 2 {
      var rest := chain[1..];
      forall n | 0 <= n < |rest| - 1 ensures WaitsFor(s, rest[n], rest[n + 1]) {
        assert WaitsFor(s, chain[n + 1], chain[n + 1 + 1]);
      }
      ChainClimbs(s, rest);
      assert WaitsFor(s, chain[1], chain[2]);
      WaitClimbs(s, chain[0], chain[1]);
      BeforeTransitive(s[chain[0]].plan[0], s[chain[1]].plan[0], s[chain[|chain| - 1]].plan[0]);
    } else {
      WaitClimbs(s, chain[0], chain[1]);
    }
  }

  /** No reachable state holds a circle of waiting mutators, of any length. */
  lemma NoCircle(n: nat, events: seq<Event>, chain: seq<nat>)
    requires IsRun(Idle(n), events) && IsChain(After(Idle(n), events), chain) && |chain| >= 2
    ensures chain[0] != chain[|chain| - 1]
  {
    var s := After(Idle(n), events);
    RunOrdered(Idle(n), events);
    if chain[0] == chain[|chain| - 1] {
      assert WaitsFor(s, chain[0], chain[1]);
      ChainClimbs(s, chain);
    }
  }

  /** A mutator that can go on: its next lock is free, or it waits for none. */
  predicate Ready(s: seq<Mutator>, i: nat) {
    i < |s| && (s[i].plan == [] || Free(s, s[i].plan[0]))
  }

  /** Along the wait-for links from `i` there is a mutator that can go on. */
  lemma {:induction false} SomeoneIsReady(s: seq<Mutator>, i: nat, met: set<nat>) returns (j: nat)
    requires Ordered(s) && i < |s|
    requires s[i].plan != [] || s[i].held != []
    requires met <= Indices(|s|) && i !in met
    requires s[i].plan != [] ==> forall m :: m in met ==> s[m].plan != [] && Before(s[m].plan[0], s[i].plan[0])
    ensures Ready(s, j)
    ensures s[j].plan != [] || s[j].held != []
    decreases Indices(|s|) - met
  {
    if Ready(s, i) {
      j := i;
    } else {
      var next: nat :| next < |s| && s[i].plan[0] in s[next].held;
      assert WaitsFor(s, i, next);
      if s[next].plan == [] {
        j := next;
      } else {
        WaitClimbs(s, i, next);
        forall m | m in met + {i} ensures Before(s[m].plan[0], s[next].plan[0]) {
          if m != i {
            BeforeTransitive(s[m].plan[0], s[i].plan[0], s[next].plan[0]);
          }
        }
        assert i in Indices(|s|) && next !in met + {i};
        j := SomeoneIsReady(s, next, met + {i});
      }
    }
  }

  function Indices(n: nat): (r: set<nat>)
    ensures forall i: nat :: i in r <==> i < n
  {
    if n == 0 then {} else Indices(n - 1) + {n - 1}
  }

  /** In every reachable state, if anyone waits then someone holding or asking for a lock can go on. */
  lemma NeverStuck(n: nat, events: seq<Event>, i: nat) returns (j: nat)
    requires IsRun(Idle(n), events) && i < n && After(Idle(n), events)[i].plan != []
    ensures Ready(After(Idle(n), events), j)
    ensures After(Idle(n), events)[j].plan != [] || After(Idle(n), events)[j].held != []
  {
    RunOrdered(Idle(n), events);
    j := SomeoneIsReady(After(Idle(n), events), i, {});
  }

  // ----- what one mutator does, and many of them together -----

  /** The events of one mutator, in order. */
  predicate IsTrace(x: Mutator, events: seq<Event>)
    decreases |events|
  {
    events != [] ==> Allowed(x, events[0]) && IsTrace(Moved(x, events[0]), events[1..])
  }

  function EndOf(x: Mutator, events: seq<Event>): Mutator
    requires IsTrace(x, events)
    decreases |events|
  {
    if events == [] then x else EndOf(Moved(x, events[0]), events[1..])
  }

  /** A trace goes on with whatever its end allows. */
  lemma {:induction false} TraceGrows(x: Mutator, events: seq<Event>, e: Event)
    requires IsTrace(x, events) && Allowed(EndOf(x, events), e)
    ensures IsTrace(x, events + [e]) && EndOf(x, events + [e]) == Moved(EndOf(x, events), e)
    decreases |events|
  {
    hide Allowed, Moved;
    var longer := events + [e];
    if events == [] {
      assert longer == [e] && longer[1..] == [];
    } else {
      assert longer[0] == events[0] && longer[1..] == events[1..] + [e];
      TraceGrows(Moved(x, events[0]), events[1..], e);
    }
  }

  /** The part of the events that mutator `m` contributed. */
  function Own(events: seq<Event>, m: nat): seq<Event> {
    if events == [] then []
    else (if events[0].m == m then [events[0]] else []) + Own(events[1..], m)
  }

  /** The lock files exclude each other: a grant gives a lock that nobody holds just then. */
  predicate Exclusive(s: seq<Mutator>, events: seq<Event>)
    decreases |events|
  {
    events != [] && events[0].m < |s| && Allowed(s[events[0].m], events[0]) ==>
      (events[0].Grant? ==> Free(s, s[events[0].m].plan[0])) && Exclusive(Next(s, events[0]), events[1..])
  }

  /** Every mutator contributes a trace of its own. */
  ghost predicate Traces(s: seq<Mutator>, events: seq<Event>) {
    && (forall e :: e in events ==> e.m < |s|)
    && (forall m: nat :: m < |s| ==> IsTrace(s[m], Own(events, m)))
  }

  /** However the mutators' own traces interleave, the whole is a run. */
  lemma {:induction false} InterleavingIsRun(s: seq<Mutator>, events: seq<Event>)
    requires Traces(s, events) && Exclusive(s, events)
    ensures IsRun(s, events)
    ensures forall m: nat :: m < |s| ==> After(s, events)[m] == EndOf(s[m], Own(events, m))
    decreases |events|
  {
    hide Allowed, Moved, Free;
    if events != [] {
      var e, rest := events[0], events[1..];
      assert e in events;
      assert Own(events, e.m) == [e] + Own(rest, e.m) && Own(events, e.m)[1..] == Own(rest, e.m);
      forall m: nat | m < |s|
        ensures IsTrace(Next(s, e)[m], Own(rest, m))
        ensures EndOf(Next(s, e)[m], Own(rest, m)) == EndOf(s[m], Own(events, m))
      {
        if m != e.m {
          assert Own(events, m) == [] + Own(rest, m) == Own(rest, m);
        }
      }
      InterleavingIsRun(Next(s, e), rest);
    }
  }
}
