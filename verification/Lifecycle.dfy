/** Preparing a daemon mutation: lock the config, lock the data directories it names, and recheck
    what was read before the locks were held. */
module Lifecycle {
  import opened Model
  import opened Ordering
  import opened Locking

  datatype Record = Record(pid: int, sourcePath: string, network: string, address: string,
                           service: string, version: string, metadata: map<string, string>)

  datatype Runtime = Runtime(dataDir: string, configPath: string, record: Record)

  predicate SameRuntime(a: Option<Runtime>, b: Option<Runtime>) {
    if a.None? || b.None? then a.None? && b.None?
    else
      && a.value.dataDir == b.value.dataDir && a.value.configPath == b.value.configPath
      && a.value.record.(metadata := map[]) == b.value.record.(metadata := map[])
  }

  /** What the outside answers at one moment; a missing answer is an error.  `identified` holds
      no runtime also where no match is authoritative. */
  datatype World = World(canonical: map<string, string>, configs: map<string, string>,
                         identified: map<string, Option<Runtime>>,
                         runtimes: map<(string, string), Option<Runtime>>,
                         makeable: set<string>, nodes: set<string>,
                         grants: set<Key>, releases: set<Key>)

  /** The data directory of the mutation's config: an identified runtime's when that is preferred. */
  function Loaded(w: World, prefer: bool, path: string, loadPath: string): Option<string> {
    if prefer && path !in w.identified then None
    else if prefer && w.identified[path].Some? then Some(w.identified[path].value.dataDir)
    else if loadPath in w.configs then Some(w.configs[loadPath])
    else None
  }

  function RuntimeFor(w: World, path: string, dir: string): Option<Option<Runtime>> {
    if (path, dir) in w.runtimes then Some(w.runtimes[(path, dir)]) else None
  }

  function LockDirs(dir: string, target: Option<Runtime>): seq<string> {
    [dir] + if target.Some? then [target.value.dataDir] else []
  }

  /** Two answers tell the same runtime when both tell none, or they agree on all but the metadata. */
  lemma SameRuntimeExactly(a: Option<Runtime>, b: Option<Runtime>)
    ensures SameRuntime(a, b) <==>
            || (a.None? && b.None?)
            || (&& a.Some? && b.Some?
                && a.value.dataDir == b.value.dataDir && a.value.configPath == b.value.configPath
                && var x, y := a.value.record, b.value.record;
                   && x.pid == y.pid && x.sourcePath == y.sourcePath && x.network == y.network
                   && x.address == y.address && x.service == y.service && x.version == y.version)
  {
  }

  lemma SameRuntimeItself()
    ensures forall a :: SameRuntime(a, a)
  {
  }

  lemma SameRuntimeSameDirs(dir: string, a: Option<Runtime>, b: Option<Runtime>)
    requires SameRuntime(a, b)
    ensures LockDirs(dir, a) == LockDirs(dir, b)
  {
  }

  /** A lock that is held: its handle and its key. */
  datatype Lock = Lock(handle: nat, key: Key)

  function KeyOf(l: Lock): Key {
    l.key
  }

  function LocksOf(handles: seq<nat>, keys: seq<Key>): seq<Lock>
    requires |handles| == |keys|
  {
    seq(|handles|, i requires 0 <= i < |handles| => Lock(handles[i], keys[i]))
  }

  /** `handles` were taken last, for `keys`, in that order. */
  predicate Took(before: seq<Lock>, after: seq<Lock>, handles: seq<nat>, keys: seq<Key>) {
    |handles| == |keys| && after == before + LocksOf(handles, keys)
  }

  datatype ConfigLock = ConfigLock(path: string, dir: string, lock: nat)

  datatype Prepared = Prepared(path: string, dir: string, target: Option<Runtime>, locks: seq<nat>)

  /** What a second look finds: an answer missing, another directory or runtime, or no change. */
  datatype View = Gone | Changed(dir: string) | Same(target: Option<Runtime>)

  datatype Outcome = Failed | Retry(dir: string) | Ready(mutation: Prepared)

  // ----- what a world that stands still must answer -----

  predicate Granted(w: World, keys: seq<Key>) {
    forall i :: 0 <= i < |keys| ==> keys[i] in w.grants
  }

  predicate Returned(w: World, keys: seq<Key>) {
    forall i :: 0 <= i < |keys| ==> keys[i] in w.releases
  }

  function DirKeys(w: World, path: string, dir: string): seq<Key>
    requires RuntimeFor(w, path, dir).Some?
  {
    DataKeys(LockDirs(dir, RuntimeFor(w, path, dir).value))
  }

  /** The directory can be made, its runtime can be told, and the locks for both can be had. */
  predicate Usable(w: World, path: string, dir: string) {
    dir in w.makeable && RuntimeFor(w, path, dir).Some? && Granted(w, DirKeys(w, path, dir))
  }

  /** From a first guess at the data directory: the guess and the directory that the locked config
      names are both usable, and a wrong guess can be given back. */
  predicate Settles(w: World, prefer: bool, path: string, guess: string) {
    var dir := Loaded(w, prefer, path, path);
    && dir.Some? && Usable(w, path, guess) && Usable(w, path, dir.value) && dir.value in w.nodes
    && (guess != dir.value ==> Returned(w, DirKeys(w, path, guess)))
  }

  /** What a second look finds in a world that stands still. */
  predicate Views(w: World, prefer: bool, path: string, dir: string, v: View) {
    var again := Loaded(w, prefer, path, path);
    && (v.Same? <==> again == Some(dir) && dir in w.nodes)
    && (v.Changed? <==> again.Some? && again.value != dir && RuntimeFor(w, path, again.value).Some?)
    && (v.Changed? ==> again == Some(v.dir))
  }

  /** How the second half of a round ends in a world that stands still. */
  predicate RoundEnds(w: World, prefer: bool, path: string, dir: string, o: Outcome) {
    var again := Loaded(w, prefer, path, path);
    && RuntimeFor(w, path, dir).Some?
    && (o.Ready? <==> again == Some(dir) && dir in w.nodes)
    && (o.Retry? <==> again.Some? && again.value != dir && RuntimeFor(w, path, again.value).Some?
                      && Returned(w, DirKeys(w, path, dir)))
    && (o.Retry? ==> again == Some(o.dir))
  }

  lemma UsableWhen(w: World, path: string, dir: string)
    ensures Usable(w, path, dir) ==> dir in w.makeable && RuntimeFor(w, path, dir).Some?
    ensures dir in w.makeable && RuntimeFor(w, path, dir).Some? ==>
              (Usable(w, path, dir) <==> Granted(w, DataKeys(LockDirs(dir, RuntimeFor(w, path, dir).value))))
  {
    hide Granted, RuntimeFor, DataKeys, LockDirs;
  }

  lemma SettlesNeedsUsable(w: World, prefer: bool, path: string, dir: string)
    ensures Settles(w, prefer, path, dir) ==> Usable(w, path, dir)
  {
  }

  lemma RoundSettles(w: World, prefer: bool, path: string, dir: string, o: Outcome)
    requires Usable(w, path, dir) && RoundEnds(w, prefer, path, dir, o)
    ensures Settles(w, prefer, path, dir) <==> o.Ready? || (o.Retry? && Settles(w, prefer, path, o.dir))
  {
    hide DirKeys, Granted, Returned, Loaded, RuntimeFor;
  }

  predicate Locks(w: World, prefer: bool, configPath: string) {
    && configPath in w.canonical && ConfigKey(w.canonical[configPath]) in w.grants
    && Loaded(w, prefer, w.canonical[configPath], configPath).Some?
  }

  predicate Prepares(w: World, prefer: bool, configPath: string) {
    && Locks(w, prefer, configPath)
    && var path := w.canonical[configPath];
       Settles(w, prefer, path, Loaded(w, prefer, path, configPath).value)
  }

  // ----- the same, in terms of the answers -----

  /** The answers name `dir` as the data directory: that of the identified runtime where one is
      preferred and known, and otherwise the one in the config at `loadPath`. */
  predicate NamesDir(w: World, prefer: bool, path: string, loadPath: string, dir: string) {
    if prefer then
      && path in w.identified
      && match w.identified[path]
         case Some(runtime) => runtime.dataDir == dir
         case None => loadPath in w.configs && w.configs[loadPath] == dir
    else loadPath in w.configs && w.configs[loadPath] == dir
  }

  lemma LoadedExactly(w: World, prefer: bool, path: string, loadPath: string)
    ensures forall dir :: Loaded(w, prefer, path, loadPath) == Some(dir) <==> NamesDir(w, prefer, path, loadPath, dir)
  {
  }

  /** The runtime that serves the config from this directory, none if there is none, is told. */
  predicate Serves(w: World, path: string, dir: string, target: Option<Runtime>) {
    (path, dir) in w.runtimes && w.runtimes[(path, dir)] == target
  }

  lemma RuntimeExactly(w: World, path: string, dir: string)
    ensures forall target :: RuntimeFor(w, path, dir) == Some(target) <==> Serves(w, path, dir, target)
  {
  }

  /** The data locks of a mutation: the directory of its config, and that of its target. */
  predicate NeededLock(dir: string, target: Option<Runtime>, key: Key) {
    key == DataKey(dir) || (target.Some? && key == DataKey(target.value.dataDir))
  }

  lemma NeededExactly(dir: string, target: Option<Runtime>)
    ensures forall key :: key in DataKeys(LockDirs(dir, target)) <==> NeededLock(dir, target, key)
  {
    hide DataKeys;
    DataKeysAscend(LockDirs(dir, target));
    assert LockDirs(dir, target)[0] == dir;
    assert target.Some? ==> LockDirs(dir, target)[1] == target.value.dataDir;
  }

  /** The directory can be made, its runtime is told, and every lock for both is granted. */
  ghost predicate CanLock(w: World, path: string, dir: string) {
    && dir in w.makeable && (path, dir) in w.runtimes
    && forall key :: NeededLock(dir, w.runtimes[(path, dir)], key) ==> key in w.grants
  }

  lemma InKeys(w: World, keys: seq<Key>)
    ensures Granted(w, keys) <==> forall key :: key in keys ==> key in w.grants
    ensures Returned(w, keys) <==> forall key :: key in keys ==> key in w.releases
  {
    if Granted(w, keys) {
      forall key | key in keys ensures key in w.grants {
        var i :| 0 <= i < |keys| && keys[i] == key;
      }
    }
    if Returned(w, keys) {
      forall key | key in keys ensures key in w.releases {
        var i :| 0 <= i < |keys| && keys[i] == key;
      }
    }
    forall i | 0 <= i < |keys| ensures keys[i] in keys {
    }
  }

  /** Every lock for the directory and its runtime can be given back. */
  ghost predicate CanReturn(w: World, path: string, dir: string) {
    && (path, dir) in w.runtimes
    && forall key :: NeededLock(dir, w.runtimes[(path, dir)], key) ==> key in w.releases
  }

  lemma UsableExactly(w: World, path: string, dir: string)
    ensures Usable(w, path, dir) <==> CanLock(w, path, dir)
    ensures CanLock(w, path, dir) ==>
              RuntimeFor(w, path, dir).Some? && (Returned(w, DirKeys(w, path, dir)) <==> CanReturn(w, path, dir))
  {
    hide DataKeys, Granted, Returned, LockDirs;
    if (path, dir) in w.runtimes {
      NeededExactly(dir, w.runtimes[(path, dir)]);
      InKeys(w, DirKeys(w, path, dir));
    }
  }

  /** In a world that stands still a mutation is prepared exactly when the config's path resolves, its
      lock is granted, the config names a first directory and, once locked, the directory that counts,
      both can be locked, the latter has its node ID, and the locks of a first directory that was
      another one can be given back. */
  lemma PreparesExactly(w: World, prefer: bool, configPath: string)
    ensures Prepares(w, prefer, configPath) <==>
            && configPath in w.canonical && ConfigKey(w.canonical[configPath]) in w.grants
            && exists guess, dir ::
                var path := w.canonical[configPath];
                && NamesDir(w, prefer, path, configPath, guess) && NamesDir(w, prefer, path, path, dir)
                && CanLock(w, path, guess) && CanLock(w, path, dir) && dir in w.nodes
                && (guess != dir ==> CanReturn(w, path, guess))
  {
    hide Loaded, NamesDir, Usable, CanLock, CanReturn, DirKeys, Returned, NeededLock, RuntimeFor;
    if configPath in w.canonical {
      var path := w.canonical[configPath];
      LoadedExactly(w, prefer, path, configPath);
      LoadedExactly(w, prefer, path, path);
      forall dir
        ensures Usable(w, path, dir) <==> CanLock(w, path, dir)
        ensures CanLock(w, path, dir) ==>
                  RuntimeFor(w, path, dir).Some? && (Returned(w, DirKeys(w, path, dir)) <==> CanReturn(w, path, dir))
      {
        UsableExactly(w, path, dir);
      }
    }
  }

  const IDLE := Locking.Mutator([], [])

  /** One process that mutates the daemon.  `live` lists the locks it has acquired and not yet
      released, in the order it took them; a handle is never reused, and releasing takes the last
      live one, so every acquired lock is released at most once.  `trace` records what it asks of
      the lock files, and `plan` the locks it will ask for next. */
  class Mutator {
    const id: nat
    /** What the outside answers at each moment; from the last one on, nothing changes. */
    const worlds: seq<World>
    var now: nat
    var live: seq<Lock>
    var taken: nat
    ghost var lastTaken: nat
    ghost var plan: seq<Key>
    ghost var trace: seq<Event>

    ghost predicate Valid() reads this {
      && |worlds| > 0 && lastTaken <= now
      && (forall i, j :: 0 <= i < j < |live| ==> live[i].handle < live[j].handle)
      && (forall i :: 0 <= i < |live| ==> live[i].handle < taken)
      && Traced()
    }

    /** What it has done is a trace, which leaves it with the locks it holds. */
    ghost predicate Traced() reads this {
      && (forall e :: e in trace ==> e.m == id)
      && IsTrace(IDLE, trace) && EndOf(IDLE, trace) == Locking.Mutator(Map(live, KeyOf), plan)
    }

    constructor (id: nat, worlds: seq<World>)
      requires |worlds| > 0
      ensures Valid() && this.id == id && this.worlds == worlds && live == [] && plan == []
    {
      this.id, this.worlds := id, worlds;
      now, live, taken, lastTaken, plan, trace := 0, [], 0, 0, [], [];
    }

    function At(t: nat): World
      requires |worlds| > 0
    {
      worlds[if t < |worlds| then t else |worlds| - 1]
    }

    method Observe() returns (w: World)
      requires Valid()
      modifies this`now
      ensures Valid() && w == At(old(now)) && now == old(now) + 1
    {
      w := At(now);
      now := now + 1;
    }

    /** Decides which locks to ask for next. */
    ghost method Announce(e: Event)
      requires Valid() && (e.Begin? || e.Plan?) && e.m == id && Allowed(Locking.Mutator(Map(live, KeyOf), plan), e)
      modifies this`plan, this`trace
      ensures Valid()
      ensures plan == if e.Begin? then [ConfigKey(e.path)] else DataKeys(e.dirs)
    {
      TraceGrows(IDLE, trace, e);
      trace := trace + [e];
      plan := if e.Begin? then [ConfigKey(e.path)] else DataKeys(e.dirs);
    }

    /** Waits for the next lock of the plan, or fails. */
    method Acquire(key: Key) returns (h: Option<nat>)
      requires Valid() && plan != [] && plan[0] == key
      modifies this
      ensures Valid() && now == old(now) + 1
      ensures h.Some? <==> key in At(old(now)).grants
      ensures h.Some? ==> live == old(live) + [Lock(h.value, key)] && plan == old(plan)[1..] && lastTaken == now
      ensures h.None? ==> live == old(live) && plan == []
    {
      hide IsTrace, EndOf, Map;
      var w := Observe();
      WaitEnds(id, trace, live, plan, taken);
      if key !in w.grants {
        trace, plan := trace + [Refuse(id)], [];
        return None;
      }
      trace, plan := trace + [Grant(id)], plan[1..];
      h := Some(taken);
      live := live + [Lock(taken, key)];
      taken := taken + 1;
      lastTaken := now;
    }

    /** Releases the lock taken last. */
    method Release(h: nat) returns (ok: bool)
      requires Valid() && plan == [] && live != [] && live[|live| - 1].handle == h
      modifies this`now, this`live, this`trace
      ensures Valid() && now == old(now) + 1
      ensures live == old(live)[..|old(live)| - 1]
      ensures ok <==> old(live)[|old(live)| - 1].key in At(old(now)).releases
    {
      hide IsTrace, EndOf;
      var w := Observe();
      var last := |live| - 1;
      ok := live[last].key in w.releases;
      TraceGrows(IDLE, trace, Drop(id));
      assert Map(live, KeyOf)[..last] == Map(live[..last], KeyOf);
      trace := trace + [Drop(id)];
      live := live[..last];
    }

    /** Releases every lock, the last taken first, also when some release fails. */
    method ReleaseAll(ghost before: seq<Lock>, locks: seq<nat>, ghost keys: seq<Key>) returns (ok: bool)
      requires Valid() && plan == [] && Took(before, live, locks, keys)
      modifies this`now, this`live, this`trace
      ensures Valid() && now >= old(now) && live == before
      ensures |worlds| == 1 ==> (ok <==> Returned(worlds[0], keys))
    {
      hide Took, Returned, Traced;
      ReturnedNothing(worlds[0]);
      TookLength(before, live, locks, keys);
      var i := |locks|;
      ok := true;
      assert locks[..i] == locks && keys[..i] == keys && keys[i..] == [];
      while i > 0
        invariant 0 <= i <= |locks| && Valid() && now >= old(now)
        invariant Took(before, live, locks[..i], keys[..i])
        invariant |worlds| == 1 ==> (ok <==> Returned(worlds[0], keys[i..]))
      {
        i := i - 1;
        assert locks[..i + 1][..i] == locks[..i] && keys[..i + 1][..i] == keys[..i]
            && keys[i..] == [keys[i]] + keys[i + 1..];
        ReleaseLast(before, live, locks[..i + 1], keys[..i + 1]);
        ReturnedOneMore(worlds[0], keys[i], keys[i + 1..]);
        var released := Release(locks[i]);
        ok := ok && released;
      }
      TookLength(before, live, [], []);
      assert locks[..0] == [] && keys[..0] == [] && keys[0..] == keys;
    }

    /** Takes one lock for each directory, in order; gives back what it took when one fails. */
    method AcquireMutationLocks(dirs: seq<string>) returns (r: Option<seq<nat>>)
      requires Valid() && plan == [] && |live| == 1 && live[0].key.ConfigKey?
      modifies this
      ensures Valid() && plan == [] && now >= old(now) && lastTaken <= now
      ensures r.None? ==> live == old(live)
      ensures r.Some? ==> Took(old(live), live, r.value, DataKeys(dirs))
      ensures |worlds| == 1 ==> (r.Some? <==> Granted(worlds[0], DataKeys(dirs)))
    {
      hide DataKeys, UniqueDirs, Took, Granted, Traced, Sort, Compact;
      var sorted := SortStrings(dirs);
      var unique := Compact(sorted);
      ghost var keys := DataKeys(dirs);
      DataKeysNamed(dirs);
      Announce(Plan(id, dirs));
      var locks: seq<nat> := [];
      TookNothing(live);
      ReturnedNothing(worlds[0]);
      assert keys[..0] == [] && keys[0..] == keys;
      for i := 0 to |unique|
        invariant Valid() && now >= old(now) && i == |locks| && plan == keys[i..]
        invariant Took(old(live), live, locks, keys[..i])
        invariant |worlds| == 1 ==> Granted(worlds[0], keys[..i])
      {
        GrantedOneMore(worlds[0], keys, i);
        ghost var was := live;
        assert keys[i..][0] == keys[i] && keys[i..][1..] == keys[i + 1..];
        var lock := Acquire(DataKey(unique[i]));
        if lock.None? {
          var _ := ReleaseAll(old(live), locks, keys[..i]);
          return None;
        }
        TakeOneMore(old(live), was, locks, keys[..i], lock.value, keys[i]);
        assert keys[..i + 1] == keys[..i] + [keys[i]];
        locks := locks + [lock.value];
      }
      assert keys[..|unique|] == keys && keys[|unique|..] == [];
      r := Some(locks);
    }

    /** Asks for the lock of one config and waits for it. */
    method AcquireConfigLock(path: string) returns (h: Option<nat>)
      requires Valid() && plan == [] && live == []
      modifies this
      ensures Valid() && plan == [] && now == old(now) + 1
      ensures h.Some? <==> ConfigKey(path) in At(old(now)).grants
      ensures live == if h.Some? then [Lock(h.value, ConfigKey(path))] else []
      ensures h.Some? ==> lastTaken == now
    {
      Announce(Begin(id, path));
      h := Acquire(ConfigKey(path));
    }

    /** Loads the locked config and resolves its path again; `dir` is missing when an answer is. */
    method RereadConfig(configPath: string, path: string, prefer: bool)
      returns (dir: Option<string>, moved: bool, ghost rechecked: nat)
      requires Valid()
      modifies this`now
      ensures Valid() && now > old(now)
      ensures dir.Some? ==> old(now) <= rechecked < now && configPath in At(rechecked).canonical
                            && (moved <==> At(rechecked).canonical[configPath] != path)
      ensures |worlds| == 1 && configPath in worlds[0].canonical ==>
                dir == Loaded(worlds[0], prefer, path, configPath)
    {
      assert |worlds| > 0;
      hide Loaded, Valid;
      moved, rechecked := false, now;
      var w := Observe();
      dir := Loaded(w, prefer, path, configPath);
      if dir.None? {
        return;
      }
      rechecked := now;
      w := Observe();
      if configPath !in w.canonical {
        return None, false, rechecked;
      }
      moved := w.canonical[configPath] != path;
    }

    /** Locks the config and loads it; starts over when the path came to mean another file. */
    method LockMutationConfig(configPath: string, prefer: bool) returns (r: Option<ConfigLock>, ghost rechecked: nat)
      requires Valid() && plan == [] && live == []
      modifies this
      ensures Valid() && plan == [] && now >= old(now)
      ensures r.None? ==> live == []
      ensures r.Some? ==> live == [Lock(r.value.lock, ConfigKey(r.value.path))]
      ensures r.Some? ==> lastTaken <= rechecked < now && configPath in At(rechecked).canonical
                          && At(rechecked).canonical[configPath] == r.value.path
      ensures |worlds| == 1 ==> (r.Some? <==> Locks(worlds[0], prefer, configPath))
      ensures |worlds| == 1 && r.Some? ==>
        r.value.path == worlds[0].canonical[configPath]
        && Loaded(worlds[0], prefer, r.value.path, configPath) == Some(r.value.dir)
    {
      assert |worlds| > 0;
      hide Valid, Loaded;
      while true
        invariant Valid() && plan == [] && live == [] && now >= old(now)
        decreases if now < |worlds| then |worlds| - now else 0
      {
        var w := Observe();
        if configPath !in w.canonical {
          return None, 0;
        }
        var path := w.canonical[configPath];
        var lock := AcquireConfigLock(path);
        if lock.None? {
          return None, 0;
        }
        var dir, moved;
        dir, moved, rechecked := RereadConfig(configPath, path, prefer);
        if dir.Some? && !moved {
          return Some(ConfigLock(path, dir.value, lock.value)), rechecked;
        }
        var released := Release(lock.value);
        if dir.None? || !released {
          return None, 0;
        }
      }
    }

    /** The first half of a round: make the directory, ask for the runtime, lock what both need. */
    method LockTarget(config: ConfigLock, dir: string) returns (target: Option<Runtime>, data: Option<seq<nat>>)
      requires Valid() && plan == [] && live == [Lock(config.lock, ConfigKey(config.path))]
      modifies this
      ensures Valid() && plan == [] && now > old(now) && lastTaken <= now
      ensures data.None? ==> live == []
      ensures data.Some? ==> Took(old(live), live, data.value, DataKeys(LockDirs(dir, target)))
      ensures data.Some? && Stands(old(now)) ==> RuntimeFor(At(old(now)), config.path, dir) == Some(target)
      ensures |worlds| == 1 ==> (data.Some? <==> Usable(worlds[0], config.path, dir))
    {
      assert |worlds| > 0;
      hide DataKeys, Took, LockDirs, Granted, RuntimeFor, Valid, Usable, At, Stands;
      StandsStill(now);
      UsableWhen(worlds[0], config.path, dir);
      target := None;
      var w := Observe();
      if dir !in w.makeable {
        var _ := Release(config.lock);
        return None, None;
      }
      w := Observe();
      var found := RuntimeFor(w, config.path, dir);
      if found.None? {
        var _ := Release(config.lock);
        return None, None;
      }
      target := found.value;
      data := AcquireMutationLocks(LockDirs(dir, target));
      if data.None? {
        var _ := Release(config.lock);
      }
    }

    /** Gives back everything: the data locks and the config lock under them. */
    method Abandon(config: ConfigLock, data: seq<nat>, ghost keys: seq<Key>)
      requires Valid() && plan == [] && Took([Lock(config.lock, ConfigKey(config.path))], live, data, keys)
      modifies this`now, this`live, this`trace
      ensures Valid() && now >= old(now) && live == []
    {
      hide Took, Valid;
      TookBoth(live, config.lock, ConfigKey(config.path), data, keys);
      var _ := ReleaseAll([], [config.lock] + data, [ConfigKey(config.path)] + keys);
    }

    /** Gives back the data locks, and the config lock too when one of them could not be released. */
    method StartOver(config: ConfigLock, data: seq<nat>, ghost keys: seq<Key>) returns (ok: bool)
      requires Valid() && plan == [] && Took([Lock(config.lock, ConfigKey(config.path))], live, data, keys)
      modifies this`now, this`live, this`trace
      ensures Valid() && now >= old(now)
      ensures live == if ok then [Lock(config.lock, ConfigKey(config.path))] else []
      ensures |worlds| == 1 ==> (ok <==> Returned(worlds[0], keys))
    {
      assert |worlds| > 0;
      hide Took, Valid, Returned;
      ok := ReleaseAll([Lock(config.lock, ConfigKey(config.path))], data, keys);
      if !ok {
        var _ := Release(config.lock);
      }
    }

    /** Reads the config and its runtime again, and makes sure of the node. */
    method LookAgain(path: string, dir: string, prefer: bool, target: Option<Runtime>)
      returns (v: View, ghost loadedAt: nat, ghost checkedAt: nat)
      requires Valid()
      modifies this`now
      ensures Valid() && old(now) <= loadedAt < now
      ensures v.Changed? ==> Loaded(At(loadedAt), prefer, path, path) == Some(v.dir)
      ensures v.Changed? && v.dir == dir && Stands(old(now)) ==> RuntimeFor(At(old(now)), path, dir) != Some(target)
      ensures v.Changed? && v.dir == dir ==>
                && loadedAt < checkedAt < now && RuntimeFor(At(checkedAt), path, dir).Some?
                && !SameRuntime(target, RuntimeFor(At(checkedAt), path, dir).value)
      ensures v.Same? ==> loadedAt < checkedAt < now && Loaded(At(loadedAt), prefer, path, path) == Some(dir)
                          && RuntimeFor(At(checkedAt), path, dir) == Some(v.target) && SameRuntime(target, v.target)
      ensures |worlds| == 1 && RuntimeFor(worlds[0], path, dir) == Some(target) ==>
                Views(worlds[0], prefer, path, dir, v)
    {
      assert |worlds| > 0;
      hide SameRuntime, Loaded, RuntimeFor, Valid;
      SameRuntimeItself();
      loadedAt, checkedAt, v := now, now, Gone;
      var w := Observe();
      var again := Loaded(w, prefer, path, path);
      if again.None? {
        return;
      }
      checkedAt := now;
      w := Observe();
      var checked := RuntimeFor(w, path, again.value);
      if checked.None? {
        return;
      }
      if again.value != dir || !SameRuntime(target, checked.value) {
        v := Changed(again.value);
        return;
      }
      w := Observe();
      if dir in w.nodes {
        v := Same(checked.value);
      }
    }

    /** The second half: look again, and keep the locks only if nothing changed. */
    method Recheck(config: ConfigLock, dir: string, prefer: bool, target: Option<Runtime>, data: seq<nat>)
      returns (o: Outcome, ghost loadedAt: nat, ghost checkedAt: nat)
      requires Valid() && plan == [] && lastTaken <= now
      requires Took([Lock(config.lock, ConfigKey(config.path))], live, data, DataKeys(LockDirs(dir, target)))
      modifies this
      ensures Valid() && plan == [] && now > old(now)
      ensures o.Failed? ==> live == []
      ensures o.Retry? ==>
                && live == [Lock(config.lock, ConfigKey(config.path))] && loadedAt < now
                && Loaded(At(loadedAt), prefer, config.path, config.path) == Some(o.dir)
      ensures o.Ready? ==> FreshlyChecked(prefer, o.mutation, loadedAt, checkedAt) && old(now) <= loadedAt
                           && o.mutation.path == config.path && Holds(o.mutation)
      ensures Stands(old(now)) && o.Retry? ==>
                var w := At(old(now));
                && Loaded(w, prefer, config.path, config.path) == Some(o.dir)
                && (o.dir == dir ==> RuntimeFor(w, config.path, dir) != Some(target))
      ensures |worlds| == 1 && RuntimeFor(worlds[0], config.path, dir) == Some(target) ==>
                RoundEnds(worlds[0], prefer, config.path, dir, o)
    {
      assert |worlds| > 0;
      hide DataKeys, Took, LockDirs, Returned, SameRuntime, Loaded, RuntimeFor, Valid, NamesDir, Serves;
      ghost var keys := DataKeys(LockDirs(dir, target));
      var v;
      v, loadedAt, checkedAt := LookAgain(config.path, dir, prefer, target);
      o := Failed;
      match v {
        case Gone =>
          Abandon(config, data, keys);
        case Changed(other) =>
          var ok := StartOver(config, data, keys);
          o := if ok then Retry(other) else Failed;
        case Same(found) =>
          SameRuntimeSameDirs(dir, target, found);
          LoadedExactly(At(loadedAt), prefer, config.path, config.path);
          RuntimeExactly(At(checkedAt), config.path, dir);
          TookBoth(live, config.lock, ConfigKey(config.path), data, keys);
          o := Ready(Prepared(config.path, dir, found, [config.lock] + data));
      }
    }

    /** One round under the config lock: lock what `dir` needs, then look again. */
    method TryMutation(config: ConfigLock, dir: string, prefer: bool)
      returns (o: Outcome, ghost loadedAt: nat, ghost checkedAt: nat)
      requires Valid() && plan == [] && live == [Lock(config.lock, ConfigKey(config.path))]
      modifies this
      ensures Valid() && plan == [] && now > old(now)
      ensures o.Failed? ==> live == []
      ensures o.Retry? ==>
                && live == old(live) && loadedAt < now
                && Loaded(At(loadedAt), prefer, config.path, config.path) == Some(o.dir)
      ensures o.Ready? ==> FreshlyChecked(prefer, o.mutation, loadedAt, checkedAt) && old(now) <= loadedAt
                           && o.mutation.path == config.path && Holds(o.mutation)
      ensures Stands(old(now)) && Loaded(At(old(now)), prefer, config.path, config.path) == Some(dir) ==> !o.Retry?
      ensures Stands(old(now)) && o.Retry? ==> Loaded(At(old(now)), prefer, config.path, config.path) == Some(o.dir)
      ensures |worlds| == 1 ==> (Settles(worlds[0], prefer, config.path, dir) <==>
                                  o.Ready? || (o.Retry? && Settles(worlds[0], prefer, config.path, o.dir)))
    {
      assert |worlds| > 0;
      hide DataKeys, Took, LockDirs, Loaded, RuntimeFor, Valid, FreshlyChecked, Usable, DirKeys, RoundEnds, Settles;
      loadedAt, checkedAt := 0, 0;
      var target, data := LockTarget(config, dir);
      if data.None? {
        SettlesNeedsUsable(worlds[0], prefer, config.path, dir);
        o := Failed;
        return;
      }
      o, loadedAt, checkedAt := Recheck(config, dir, prefer, target, data.value);
      if |worlds| == 1 {
        RoundSettles(worlds[0], prefer, config.path, dir, o);
      }
    }

    /** Nothing changes from `t` on. */
    predicate Stands(t: nat) {
      t + 1 >= |worlds|
    }

    lemma StandsStill(t: nat)
      requires |worlds| > 0
      ensures Stands(t) ==> At(t + 1) == At(t)
      ensures |worlds| == 1 ==> At(t) == At(t + 1) == worlds[0]
    {
    }

    /** The mutation's locks are exactly its config lock and one lock for each of the data
        directories of its config and of its target. */
    ghost predicate Holds(m: Prepared) reads this {
      Took([], live, m.locks, [ConfigKey(m.path)] + DataKeys(LockDirs(m.dir, m.target)))
    }

    /** What the mutation goes by was read after its last lock was taken. */
    ghost predicate FreshlyChecked(prefer: bool, m: Prepared, loadedAt: nat, checkedAt: nat)
      requires |worlds| > 0
      reads this
    {
      && lastTaken <= loadedAt < checkedAt < now
      && NamesDir(At(loadedAt), prefer, m.path, m.path, m.dir)
      && Serves(At(checkedAt), m.path, m.dir, m.target)
    }

    /** The held locks are one each for the config, its data directory and its target's; the mutation
        has their handles, in the order they were taken. */
    ghost predicate HoldsExactly(m: Prepared) reads this {
      && |m.locks| == |live| && (forall i :: 0 <= i < |live| ==> live[i].handle == m.locks[i])
      && (forall i :: 0 <= i < |live| ==> live[i].key == ConfigKey(m.path) || NeededLock(m.dir, m.target, live[i].key))
      && live != [] && live[0].key == ConfigKey(m.path)
      && (forall key :: NeededLock(m.dir, m.target, key) ==> exists i :: 0 <= i < |live| && live[i].key == key)
      && (forall i, j :: 0 <= i < j < |live| ==> live[i].key != live[j].key)
    }

    /** The config's path was found to resolve to this one before the check. */
    ghost predicate ResolvedBefore(configPath: string, path: string, t: nat)
      requires |worlds| > 0
    {
      exists r: nat :: r < t && configPath in At(r).canonical && At(r).canonical[configPath] == path
    }

    /** On success the held locks are those of the rechecked config and target; on every error
        nothing is held.  It ends once the outside stops changing, and then it succeeds exactly
        when every answer it needs is there. */
    method PrepareConfigMutation(configPath: string, prefer: bool)
      returns (r: Option<Prepared>, ghost loadedAt: nat, ghost checkedAt: nat)
      requires Valid() && plan == [] && live == []
      modifies this
      ensures Valid() && plan == []
      ensures r.None? ==> live == []
      ensures r.Some? ==> Holds(r.value) && HoldsExactly(r.value)
      ensures r.Some? ==> FreshlyChecked(prefer, r.value, loadedAt, checkedAt)
      ensures r.Some? ==> ResolvedBefore(configPath, r.value.path, loadedAt)
      ensures |worlds| == 1 ==> (r.Some? <==> Prepares(worlds[0], prefer, configPath))
    {
      hide Took, Settles, Traced, NamesDir;
      var config, resolvedAt := LockMutationConfig(configPath, prefer);
      if config.None? {
        return None, 0, 0;
      }
      var dir := config.value.dir;
      while true
        invariant Valid() && plan == [] && live == [Lock(config.value.lock, ConfigKey(config.value.path))]
        invariant resolvedAt < now
        invariant |worlds| == 1 ==> (Settles(worlds[0], prefer, config.value.path, dir) <==>
            Prepares(worlds[0], prefer, configPath))
        decreases if now < |worlds| then |worlds| - now else 0,
                  if Stands(now) && Loaded(At(now), prefer, config.value.path, config.value.path) == Some(dir)
                  then 0 else 1
      {
        var o;
        o, loadedAt, checkedAt := TryMutation(config.value, dir, prefer);
        match o
        case Failed => return None, 0, 0;
        case Ready(m) =>
          HeldAre(live, m);
          assert resolvedAt < loadedAt;
          return Some(m), loadedAt, checkedAt;
        case Retry(next) => dir := next;
      }
    }
  }

  // ----- many mutators -----

  /** However the mutators interleave, as long as the lock files exclude each other, what they do is
      a run that leaves each with the locks it holds, and no number of them waits in a circle. */
  lemma MutatorsNeverCircle(ms: seq<Mutator>, events: seq<Event>, chain: seq<nat>)
    requires forall i: nat :: i < |ms| ==> ms[i].Valid() && Own(events, i) == ms[i].trace
    requires forall e :: e in events ==> e.m < |ms|
    requires Exclusive(Idle(|ms|), events) && |chain| >= 2
    ensures IsRun(Idle(|ms|), events)
    ensures forall i: nat :: i < |ms| ==>
              After(Idle(|ms|), events)[i] == Locking.Mutator(Map(ms[i].live, KeyOf), ms[i].plan)
    ensures IsChain(After(Idle(|ms|), events), chain) ==> chain[0] != chain[|chain| - 1]
  {
    hide IsTrace, EndOf, IsRun, After, Exclusive, IsChain, Map;
    forall i: nat | i < |ms| ensures IsTrace(Idle(|ms|)[i], Own(events, i)) {
      assert ms[i].Valid();
    }
    InterleavingIsRun(Idle(|ms|), events);
    if IsChain(After(Idle(|ms|), events), chain) {
      NoCircle(|ms|, events, chain);
    }
  }

  // ----- bookkeeping of the held locks -----

  /** A wait for the next planned lock ends with it, or without it and without a plan. */
  lemma WaitEnds(id: nat, trace: seq<Event>, live: seq<Lock>, plan: seq<Key>, handle: nat)
    requires IsTrace(IDLE, trace) && EndOf(IDLE, trace) == Locking.Mutator(Map(live, KeyOf), plan) && plan != []
    ensures IsTrace(IDLE, trace + [Grant(id)]) && IsTrace(IDLE, trace + [Refuse(id)])
    ensures EndOf(IDLE, trace + [Grant(id)]) ==
            Locking.Mutator(Map(live + [Lock(handle, plan[0])], KeyOf), plan[1..])
    ensures EndOf(IDLE, trace + [Refuse(id)]) == Locking.Mutator(Map(live, KeyOf), [])
  {
    hide IsTrace, EndOf, Map;
    TraceGrows(IDLE, trace, Grant(id));
    TraceGrows(IDLE, trace, Refuse(id));
    MapAppendOne(live, Lock(handle, plan[0]), KeyOf);
  }

  lemma ReleaseLast(before: seq<Lock>, after: seq<Lock>, locks: seq<nat>, keys: seq<Key>)
    requires Took(before, after, locks, keys) && locks != []
    ensures after != [] && after[|after| - 1] == Lock(locks[|locks| - 1], keys[|locks| - 1])
    ensures Took(before, after[..|after| - 1], locks[..|locks| - 1], keys[..|keys| - 1])
  {
    var n := |locks| - 1;
    assert LocksOf(locks, keys)[..n] == LocksOf(locks[..n], keys[..n]);
    assert after[..|after| - 1] == before + LocksOf(locks, keys)[..n];
  }

  lemma TookNothing(before: seq<Lock>)
    ensures Took(before, before, [], [])
  {
    assert before + [] == before;
  }

  lemma TookLength(before: seq<Lock>, after: seq<Lock>, locks: seq<nat>, keys: seq<Key>)
    requires Took(before, after, locks, keys)
    ensures |locks| == |keys|
    ensures locks == [] ==> before == after
  {
  }

  lemma ReturnedNothing(w: World)
    ensures Returned(w, []) && Granted(w, [])
  {
  }

  lemma ReturnedOneMore(w: World, k: Key, keys: seq<Key>)
    ensures Returned(w, [k] + keys) <==> k in w.releases && Returned(w, keys)
  {
    if Returned(w, [k] + keys) {
      assert ([k] + keys)[0] == k && forall i :: 0 <= i < |keys| ==> ([k] + keys)[i + 1] == keys[i];
    }
  }

  lemma GrantedOneMore(w: World, keys: seq<Key>, i: nat)
    requires i < |keys|
    ensures Granted(w, keys[..i + 1]) <==> Granted(w, keys[..i]) && keys[i] in w.grants
    ensures keys[i] !in w.grants ==> !Granted(w, keys)
  {
  }

  lemma TakeOneMore(before: seq<Lock>, after: seq<Lock>, locks: seq<nat>, keys: seq<Key>, h: nat, k: Key)
    requires Took(before, after, locks, keys)
    ensures Took(before, after + [Lock(h, k)], locks + [h], keys + [k])
  {
    assert LocksOf(locks + [h], keys + [k]) == LocksOf(locks, keys) + [Lock(h, k)];
  }

  lemma TookBoth(after: seq<Lock>, lock: nat, key: Key, locks: seq<nat>, keys: seq<Key>)
    requires Took([Lock(lock, key)], after, locks, keys)
    ensures Took([], after, [lock] + locks, [key] + keys)
  {
    assert LocksOf([lock] + locks, [key] + keys) == [Lock(lock, key)] + LocksOf(locks, keys);
  }

  lemma AscendingDiffers(keys: seq<Key>)
    requires Ascending(keys)
    ensures forall i, j :: 0 <= i < j < |keys| ==> keys[i] != keys[j]
  {
    forall i, j | 0 <= i < j < |keys| ensures keys[i] != keys[j] {
      assert Before(keys[i], keys[j]);
    }
  }

  lemma TookFromNothing(live: seq<Lock>, handles: seq<nat>, keys: seq<Key>)
    requires Took([], live, handles, keys)
    ensures |live| == |handles| == |keys|
    ensures forall i :: 0 <= i < |live| ==> live[i] == Lock(handles[i], keys[i])
  {
  }

  lemma HeldAre(live: seq<Lock>, m: Prepared)
    requires Took([], live, m.locks, [ConfigKey(m.path)] + DataKeys(LockDirs(m.dir, m.target)))
    ensures |m.locks| == |live| && (forall i :: 0 <= i < |live| ==> live[i].handle == m.locks[i])
    ensures forall i :: 0 <= i < |live| ==> live[i].key == ConfigKey(m.path) || NeededLock(m.dir, m.target, live[i].key)
    ensures live != [] && live[0].key == ConfigKey(m.path)
    ensures forall key :: NeededLock(m.dir, m.target, key) ==> exists i :: 0 <= i < |live| && live[i].key == key
    ensures forall i, j :: 0 <= i < j < |live| ==> live[i].key != live[j].key
  {
    hide DataKeys, LockDirs, NeededLock, LocksOf, Took, Ascending;
    var data := DataKeys(LockDirs(m.dir, m.target));
    NeededExactly(m.dir, m.target);
    ConfigThenData(m.path, LockDirs(m.dir, m.target));
    var keys := [ConfigKey(m.path)] + data;
    AscendingDiffers(keys);
    TookFromNothing(live, m.locks, keys);
    forall i | 0 <= i < |live| ensures live[i].key == ConfigKey(m.path) || NeededLock(m.dir, m.target, live[i].key) {
      assert live[i].key == keys[i] && (i > 0 ==> keys[i] == data[i - 1]);
    }
    forall key | NeededLock(m.dir, m.target, key) ensures exists i :: 0 <= i < |live| && live[i].key == key {
      var i :| 0 <= i < |data| && data[i] == key;
      assert live[i + 1].key == key;
    }
  }

  lemma DataKeysNamed(dirs: seq<string>)
    ensures forall i :: 0 <= i < |UniqueDirs(dirs)| ==> DataKeys(dirs)[i] == DataKey(UniqueDirs(dirs)[i])
    ensures |DataKeys(dirs)| == |UniqueDirs(dirs)| && UniqueDirs(dirs) == Compact(Sort(dirs, Below))
  {
  }
}
