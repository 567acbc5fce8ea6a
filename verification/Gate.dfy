/** The shutdown gate around tmux session creation: creators run a shell script, one stopper
    writes a marker, takes the creation lock and kills the server. */
module Gate {
  import opened Model

  /** Where one run of the script stands. */
  datatype Creator =
    | Fresh        // before the first look at the marker
    | Acquiring    // about to try mkdir
    | Blocked      // mkdir failed; about to look at the marker and sleep
    | Took         // mkdir succeeded; the trap is not installed yet
    | Trapped      // trap installed; about to look at the marker
    | Cleared      // saw no marker; about to launch the command
    | Running(late: bool)    // new-session is running; `late`: a signal waits for it to end
    | Orphaned               // the shell is dead; new-session is still running
    | Leaving(late: bool)    // the handlers still to run: the signal's, then the exit trap
    | Done

  datatype Stopper = Idle | Waiting | Killing(locked: bool) | Killed(locked: bool) | Finished

  datatype Owner = ByCreator(i: nat) | ByStopper

  /** `lock` is the creation.lock directory.  Its owner is bookkeeping: every step only looks at
      whether the directory exists, and removal removes it whoever made it. */
  datatype State = State(creators: seq<Creator>, stopper: Stopper, marker: bool, lock: Option<Owner>)

  /** What may go wrong: a trapped signal before the command starts, one during or after it, an
      exit trap that runs because another signal ends the shell during the command, a marker that
      cannot be written, a stopper that goes on without the lock. */
  datatype Faults = Faults(signalBefore: bool, signalDuring: bool, exitDuring: bool, noMarker: bool, noLock: bool)

  datatype Event =
    | Look(i: nat) | Mkdir(i: nat) | LookAgain(i: nat) | Trap(i: nat) | Guard(i: nat)
    | Launch(i: nat) | Complete(i: nat) | Clean(i: nat) | Signal(i: nat) | Exit(i: nat) | Die(i: nat)
    | Mark(written: bool) | StopMkdir | GiveUp | KillDone | Unlock

  function Initial(n: nat): State {
    State(seq(n, i => Fresh), Idle, false, None)
  }

  function At(s: State, i: nat, c: Creator, lock: Option<Owner>): State
    requires i < |s.creators|
  {
    s.(creators := s.creators[i := c], lock := lock)
  }

  /** One step of creator `i` with `e`; None when the step is not possible. */
  function CreatorStep(f: Faults, s: State, e: Event, i: nat): Option<State>
    requires i < |s.creators|
  {
    match (s.creators[i], e)
    case (Fresh, Look(_)) => Some(At(s, i, if s.marker then Done else Acquiring, s.lock))
    case (Acquiring, Mkdir(_)) =>
      Some(if s.lock.None? then At(s, i, Took, Some(ByCreator(i))) else At(s, i, Blocked, s.lock))
    case (Blocked, LookAgain(_)) => Some(At(s, i, if s.marker then Done else Acquiring, s.lock))
    case (Took, Trap(_)) => Some(At(s, i, Trapped, s.lock))
    case (Trapped, Guard(_)) => Some(At(s, i, if s.marker then Leaving(false) else Cleared, s.lock))
    case (Cleared, Launch(_)) => Some(At(s, i, Running(false), s.lock))
    case (Running(late), Complete(_)) => Some(At(s, i, Leaving(late), s.lock))
    case (Leaving(late), Clean(_)) => Some(At(s, i, if late then Leaving(false) else Done, None))
    case (Orphaned, Complete(_)) => Some(At(s, i, Done, s.lock))
    case (_, Signal(_)) => SignalStep(f, s, i)
    case (_, Exit(_)) => ExitStep(f, s, i)
    case (_, Die(_)) => DieStep(s, i)
    case (_, _) => None
  }

  /** A signal outside the trap's list ends the shell, and its exit trap removes the lock; a command
      that is running goes on. */
  function ExitStep(f: Faults, s: State, i: nat): Option<State>
    requires i < |s.creators|
  {
    match s.creators[i]
    case Trapped => Some(At(s, i, Done, None))
    case Cleared => Some(At(s, i, Done, None))
    case Leaving(_) => Some(At(s, i, Done, None))
    case Running(_) => if f.exitDuring then Some(At(s, i, Orphaned, None)) else None
    case _ => None
  }

  /** A shell that dies without running a handler, at any moment, leaves the lock where it is. */
  function DieStep(s: State, i: nat): Option<State>
    requires i < |s.creators|
  {
    match s.creators[i]
    case Done => None
    case Orphaned => None
    case Running(_) => Some(At(s, i, Orphaned, s.lock))
    case _ => Some(At(s, i, Done, s.lock))
  }

  /** A signal ends a script that has no trap yet.  Afterwards its handler removes the lock and the
      script goes on; while the command runs the handler waits for it. */
  function SignalStep(f: Faults, s: State, i: nat): Option<State>
    requires i < |s.creators|
  {
    match s.creators[i]
    case Fresh => Some(At(s, i, Done, s.lock))
    case Acquiring => Some(At(s, i, Done, s.lock))
    case Blocked => Some(At(s, i, Done, s.lock))
    case Took => Some(At(s, i, Done, s.lock))
    case Trapped => if f.signalBefore then Some(At(s, i, Trapped, None)) else None
    case Cleared => if f.signalBefore then Some(At(s, i, Cleared, None)) else None
    case Running(_) => if f.signalDuring then Some(At(s, i, Running(true), s.lock)) else None
    case Leaving(_) => if f.signalDuring then Some(At(s, i, Leaving(true), s.lock)) else None
    case _ => None
  }

  function StopperStep(f: Faults, s: State, e: Event): Option<State> {
    match (s.stopper, e)
    case (Idle, Mark(written)) =>
      if written || f.noMarker then Some(s.(stopper := Waiting, marker := written)) else None
    case (Waiting, StopMkdir) =>
      if s.lock.None? then Some(s.(stopper := Killing(true), lock := Some(ByStopper))) else Some(s)
    case (Waiting, GiveUp) => if f.noLock then Some(s.(stopper := Killing(false))) else None
    case (Killing(locked), KillDone) => Some(s.(stopper := Killed(locked)))
    case (Killed(locked), Unlock) => Some(s.(stopper := Finished, lock := if locked then None else s.lock))
    case (_, _) => None
  }

  function Step(f: Faults, s: State, e: Event): Option<State> {
    if e.Mark? || e.StopMkdir? || e.GiveUp? || e.KillDone? || e.Unlock? then StopperStep(f, s, e)
    else if e.i < |s.creators| then CreatorStep(f, s, e, e.i)
    else None
  }

  /** The state after the events, in any interleaving they stand for. */
  function Run(f: Faults, s: State, events: seq<Event>): Option<State>
    decreases |events|
  {
    if events == [] then Some(s)
    else
      var next := Step(f, s, events[0]);
      if next.None? then None else Run(f, next.value, events[1..])
  }

  predicate KillStarted(s: State) {
    s.stopper.Killing? || s.stopper.Killed? || s.stopper.Finished?
  }

  /** A new-session command is running, with or without its shell. */
  predicate Commands(c: Creator) {
    c.Running? || c.Orphaned?
  }

  /** No new-session command runs while the kill runs, nor after it. */
  predicate Safe(s: State) {
    KillStarted(s) ==> forall i :: 0 <= i < |s.creators| ==> !Commands(s.creators[i])
  }

  predicate NoFault(f: Faults) {
    !f.signalBefore && !f.signalDuring && !f.exitDuring && !f.noMarker && !f.noLock
  }

  predicate Committed(c: Creator) {
    c.Cleared? || Commands(c)
  }

  predicate Holds(c: Creator) {
    c.Took? || c.Trapped? || c.Cleared? || Commands(c) || c.Leaving?
  }

  /** Whoever is between mkdir and rmdir made the directory that exists now; once the stopper is
      past its wait, no script that saw no marker is left. */
  predicate Invariant(s: State) {
    && (forall i: nat :: i < |s.creators| && Holds(s.creators[i]) ==> s.lock == Some(ByCreator(i)))
    && (forall i: nat :: i < |s.creators| ==> s.creators[i] != Running(true) && s.creators[i] != Leaving(true))
    && (!s.stopper.Idle? ==> s.marker)
    && (s.stopper == Killing(true) || s.stopper == Killed(true) <==> s.lock == Some(ByStopper))
    && s.stopper != Killing(false) && s.stopper != Killed(false)
    && (KillStarted(s) ==> forall i: nat :: i < |s.creators| ==> !Committed(s.creators[i]))
  }

  /** What one step of creator `i` may do: it touches the lock only when nobody else has it, and
      passes its last look only without the marker. */
  predicate Effect(s: State, t: State, i: nat)
    requires i < |s.creators|
  {
    && |t.creators| == |s.creators| && t == At(s, i, t.creators[i], t.lock)
    && (Holds(t.creators[i]) ==> t.lock == Some(ByCreator(i)))
    && (t.lock != s.lock ==> s.lock.None? || Holds(s.creators[i]))
    && (t.lock == s.lock || t.lock.None? || t.lock == Some(ByCreator(i)))
    && t.creators[i] != Running(true) && t.creators[i] != Leaving(true)
    && (Committed(t.creators[i]) ==> Committed(s.creators[i]) || !s.marker)
  }

  lemma CreatorEffect(f: Faults, s: State, e: Event, i: nat)
    requires NoFault(f) && Invariant(s) && i < |s.creators| && CreatorStep(f, s, e, i).Some?
    ensures Effect(s, CreatorStep(f, s, e, i).value, i)
  {
    assert Holds(s.creators[i]) ==> s.lock == Some(ByCreator(i));
  }

  lemma EffectKeeps(s: State, t: State, i: nat)
    requires Invariant(s) && i < |s.creators| && Effect(s, t, i)
    ensures Invariant(t)
  {
    forall j: nat | j < |t.creators| && j != i ensures t.creators[j] == s.creators[j] {
    }
    if t.lock != s.lock && Holds(s.creators[i]) {
      forall j: nat | j < |s.creators| && j != i ensures !Holds(s.creators[j]) {
      }
    }
  }

  lemma CreatorKeeps(f: Faults, s: State, e: Event, i: nat)
    requires NoFault(f) && Invariant(s) && i < |s.creators| && CreatorStep(f, s, e, i).Some?
    ensures Invariant(CreatorStep(f, s, e, i).value)
  {
    hide Invariant, CreatorStep, Effect;
    CreatorEffect(f, s, e, i);
    EffectKeeps(s, CreatorStep(f, s, e, i).value, i);
  }

  lemma StepKeeps(f: Faults, s: State, e: Event)
    requires NoFault(f) && Invariant(s) && Step(f, s, e).Some?
    ensures Invariant(Step(f, s, e).value)
  {
    if e.Mark? || e.StopMkdir? || e.GiveUp? || e.KillDone? || e.Unlock? {
    } else {
      CreatorKeeps(f, s, e, e.i);
    }
  }

  lemma {:induction false} RunKeeps(f: Faults, s: State, events: seq<Event>)
    requires NoFault(f) && Invariant(s) && Run(f, s, events).Some?
    ensures Invariant(Run(f, s, events).value)
    decreases |events|
  {
    if events != [] {
      StepKeeps(f, s, events[0]);
      RunKeeps(f, Step(f, s, events[0]).value, events[1..]);
    }
  }

  /** Every interleaving of any number of creators with the stopper is safe, and at most one
      creator is ever between mkdir and rmdir. */
  lemma GateIsSafe(f: Faults, n: nat, events: seq<Event>)
    requires NoFault(f) && Run(f, Initial(n), events).Some?
    ensures var s := Run(f, Initial(n), events).value;
      && Safe(s)
      && (forall i: nat, j: nat :: i < j < |s.creators| ==> !(Holds(s.creators[i]) && Holds(s.creators[j])))
  {
    RunKeeps(f, Initial(n), events);
  }

  lemma NoNewCommitments(f: Faults, s: State, e: Event, i: nat)
    requires NoFault(f) && Invariant(s) && s.marker && !s.stopper.Idle? && Step(f, s, e).Some?
    requires i < |s.creators| && !Committed(s.creators[i])
    ensures var t := Step(f, s, e).value;
      t.marker && !t.stopper.Idle? && |t.creators| == |s.creators| && !Committed(t.creators[i])
  {
    hide CreatorStep, Invariant, Committed;
    if !(e.Mark? || e.StopMkdir? || e.GiveUp? || e.KillDone? || e.Unlock?) {
      CreatorEffect(f, s, e, e.i);
    }
  }

  /** Once the marker stands, no other command ever starts than one whose creator, holding the
      lock, had already passed its last look. */
  lemma {:induction false} OnlyTheClearedStart(f: Faults, s: State, events: seq<Event>, i: nat)
    requires NoFault(f) && Invariant(s) && s.marker && !s.stopper.Idle? && i < |s.creators|
    requires Run(f, s, events).Some? && !Committed(s.creators[i])
    ensures |Run(f, s, events).value.creators| == |s.creators|
    ensures !Committed(Run(f, s, events).value.creators[i])
    decreases |events|
  {
    hide Step, Invariant;
    if events != [] {
      NoNewCommitments(f, s, events[0], i);
      StepKeeps(f, s, events[0]);
      OnlyTheClearedStart(f, Step(f, s, events[0]).value, events[1..], i);
    }
  }

  function Pending(c: Creator): nat {
    match c
    case Took => 5
    case Trapped => 4
    case Cleared => 3
    case Running(_) => 2
    case Leaving(_) => 1
    case _ => 0
  }

  /** No deadlock: while the creator that made the directory lives, its own steps alone let a
      waiting stopper reach the kill. */
  lemma {:induction false} StopperGetsThrough(f: Faults, s: State, i: nat) returns (events: seq<Event>)
    requires NoFault(f) && Invariant(s) && s.stopper.Waiting? && i < |s.creators|
    requires s.lock.None? || (Holds(s.creators[i]) && !s.creators[i].Orphaned?)
    ensures Run(f, s, events).Some? && Run(f, s, events).value.stopper == Killing(true)
    decreases if s.lock.None? then 0 else Pending(s.creators[i])
  {
    var e := if s.lock.None? then StopMkdir else
      match s.creators[i]
      case Took => Trap(i)
      case Trapped => Guard(i)
      case Cleared => Launch(i)
      case Running(_) => Complete(i)
      case _ => Clean(i);
    var next := Step(f, s, e).value;
    if s.lock.None? {
      events := [e];
      RunCons(f, s, e, []);
    } else {
      StepKeeps(f, s, e);
      var rest := StopperGetsThrough(f, next, i);
      events := [e] + rest;
      RunCons(f, s, e, rest);
    }
  }

  /** The kill over, the stopper gives the lock back. */
  lemma StopperUnlocks(f: Faults, s: State)
    requires s.stopper == Killing(true)
    ensures Run(f, s, [KillDone, Unlock]) == Some(s.(stopper := Finished, lock := None))
  {
    assert [KillDone] + [Unlock] == [KillDone, Unlock] && [Unlock] + [] == [Unlock];
    RunCons(f, s, KillDone, [Unlock]);
    RunCons(f, s.(stopper := Killed(true)), Unlock, []);
  }

  // ----- a creator gets through -----

  /** Before its first attempt at the lock, or between two of them. */
  predicate Trying(c: Creator) {
    c.Fresh? || c.Acquiring? || c.Blocked?
  }

  /** All the events are steps of creator `i` or of creator `j`. */
  predicate OnlyOf(events: seq<Event>, i: nat, j: nat) {
    forall k :: 0 <= k < |events| ==>
      var e := events[k];
      !e.Mark? && !e.StopMkdir? && !e.GiveUp? && !e.KillDone? && !e.Unlock? && (e.i == i || e.i == j)
  }

  /** Without a marker, a creator that tries for a free lock reaches its command by its own steps. */
  lemma CreatorGetsThrough(f: Faults, s: State, i: nat) returns (events: seq<Event>)
    requires i < |s.creators| && Trying(s.creators[i]) && !s.marker && s.lock.None?
    ensures Run(f, s, events) == Some(At(s, i, Running(false), Some(ByCreator(i)))) && OnlyOf(events, i, i)
  {
    match s.creators[i]
    case Fresh => events := Enters(f, s, i);
    case Acquiring => events := TakesFrom(f, s, i);
    case Blocked =>
      var next := At(s, i, Acquiring, None);
      var rest := TakesFrom(f, next, i);
      events := [LookAgain(i)] + rest;
      RunCons(f, s, LookAgain(i), rest);
      assert next.creators[i := Running(false)] == s.creators[i := Running(false)];
  }

  lemma TakesFrom(f: Faults, s: State, i: nat) returns (events: seq<Event>)
    requires i < |s.creators| && s.creators[i] == Acquiring && !s.marker && s.lock.None?
    ensures Run(f, s, events) == Some(At(s, i, Running(false), Some(ByCreator(i)))) && OnlyOf(events, i, i)
  {
    var first := At(s, i, Fresh, None);
    var all := Enters(f, first, i);
    events := all[1..];
    assert all == [all[0]] + events;
    RunCons(f, first, all[0], events);
    assert first.creators[i := Acquiring] == s.creators;
    assert first.creators[i := Running(false)] == s.creators[i := Running(false)];
  }

  /** The live owner of the lock, by its own steps, gives it back. */
  lemma {:induction false} HolderLeaves(f: Faults, s: State, j: nat) returns (events: seq<Event>)
    requires NoFault(f) && Invariant(s) && j < |s.creators| && Holds(s.creators[j]) && !s.creators[j].Orphaned?
    ensures Run(f, s, events) == Some(At(s, j, Done, None)) && OnlyOf(events, j, j)
    decreases Pending(s.creators[j])
  {
    var e := match s.creators[j]
      case Took => Trap(j)
      case Trapped => Guard(j)
      case Cleared => Launch(j)
      case Running(_) => Complete(j)
      case _ => Clean(j);
    var next := Step(f, s, e).value;
    if s.creators[j].Leaving? {
      events := [e];
      RunCons(f, s, e, []);
    } else {
      StepKeeps(f, s, e);
      var rest := HolderLeaves(f, next, j);
      events := [e] + rest;
      RunCons(f, s, e, rest);
      assert next.creators[j := Done] == s.creators[j := Done];
    }
  }

  /** Without a marker, a creator blocked by another's lock reaches its command once the owner, which
      lives, has gone through: the steps of these two alone lead there. */
  lemma BlockedGetsThrough(f: Faults, s: State, i: nat, j: nat) returns (events: seq<Event>)
    requires NoFault(f) && Invariant(s) && !s.marker && i < |s.creators| && Trying(s.creators[i])
    requires j < |s.creators| && Holds(s.creators[j]) && !s.creators[j].Orphaned?
    ensures Run(f, s, events) == Some(At(At(s, j, Done, None), i, Running(false), Some(ByCreator(i))))
    ensures OnlyOf(events, i, j)
  {
    var first := HolderLeaves(f, s, j);
    var rest := CreatorGetsThrough(f, At(s, j, Done, None), i);
    events := first + rest;
    RunConcat(f, s, first, rest);
  }

  /** Once the marker stands, a creator that has not passed its last look comes to its end by its own
      steps and runs no command; a lock of its own it gives back, any other it leaves alone. */
  lemma {:induction false} RefusedEnds(f: Faults, s: State, i: nat) returns (events: seq<Event>)
    requires NoFault(f) && Invariant(s) && s.marker && i < |s.creators|
    requires !Committed(s.creators[i]) && !s.creators[i].Done?
    ensures Run(f, s, events) == Some(At(s, i, Done, if Holds(s.creators[i]) then None else s.lock))
    ensures OnlyOf(events, i, i)
    ensures forall k :: 0 <= k < |events| ==> !events[k].Launch?
    decreases match s.creators[i] case Acquiring => 5 case Blocked => 4 case Fresh => 3 case Took => 3 case Trapped => 2
                                  case _ => 1
  {
    var e := match s.creators[i]
      case Fresh => Look(i)
      case Acquiring => Mkdir(i)
      case Blocked => LookAgain(i)
      case Took => Trap(i)
      case Trapped => Guard(i)
      case _ => Clean(i);
    var next := Step(f, s, e).value;
    if next.creators[i].Done? {
      events := [e];
      RunCons(f, s, e, []);
    } else {
      StepKeeps(f, s, e);
      var rest := RefusedEnds(f, next, i);
      events := [e] + rest;
      RunCons(f, s, e, rest);
      assert next.creators[i := Done] == s.creators[i := Done];
    }
  }

  // ----- each fault breaks the gate -----

  /** Events, one at a time. */
  lemma RunCons(f: Faults, s: State, e: Event, rest: seq<Event>)
    requires Step(f, s, e).Some?
    ensures Run(f, s, [e] + rest) == Run(f, Step(f, s, e).value, rest)
  {
    assert ([e] + rest)[1..] == rest;
  }

  lemma {:induction false} RunConcat(f: Faults, s: State, first: seq<Event>, rest: seq<Event>)
    requires Run(f, s, first).Some?
    ensures Run(f, s, first + rest) == Run(f, Run(f, s, first).value, rest)
    decreases |first|
  {
    if first == [] {
      assert first + rest == rest;
    } else {
      assert (first + rest)[0] == first[0] && (first + rest)[1..] == first[1..] + rest;
      RunConcat(f, Step(f, s, first[0]).value, first[1..], rest);
    }
  }

  /** A creator of a free gate reaches the command. */
  lemma Enters(f: Faults, s: State, i: nat) returns (events: seq<Event>)
    requires i < |s.creators| && s.creators[i] == Fresh && !s.marker && s.lock.None?
    ensures Run(f, s, events) == Some(At(s, i, Running(false), Some(ByCreator(i))))
    ensures events == [Look(i), Mkdir(i), Trap(i), Guard(i), Launch(i)]
  {
    events := [Look(i), Mkdir(i), Trap(i), Guard(i), Launch(i)];
    Enters1(f, s, i);
    var s3 := At(s, i, Trapped, Some(ByCreator(i)));
    var s4 := At(s, i, Cleared, Some(ByCreator(i)));
    assert events == [Look(i), Mkdir(i), Trap(i)] + [Guard(i), Launch(i)];
    RunConcat(f, s, [Look(i), Mkdir(i), Trap(i)], [Guard(i), Launch(i)]);
    assert s3.creators[i := Cleared] == s4.creators;
    assert s4.creators[i := Running(false)] == s.creators[i := Running(false)];
    RunCons(f, s3, Guard(i), [Launch(i)]);
    RunCons(f, s4, Launch(i), []);
  }

  lemma Enters1(f: Faults, s: State, i: nat)
    requires i < |s.creators| && s.creators[i] == Fresh && !s.marker && s.lock.None?
    ensures Run(f, s, [Look(i), Mkdir(i), Trap(i)]) == Some(At(s, i, Trapped, Some(ByCreator(i))))
  {
    var s1 := At(s, i, Acquiring, None);
    var s2 := At(s, i, Took, Some(ByCreator(i)));
    var s3 := At(s, i, Trapped, Some(ByCreator(i)));
    assert s1.creators[i := Took] == s2.creators && s2.creators[i := Trapped] == s3.creators;
    RunCons(f, s, Look(i), [Mkdir(i), Trap(i)]);
    RunCons(f, s1, Mkdir(i), [Trap(i)]);
    RunCons(f, s2, Trap(i), []);
  }

  /** The stopper kills at once when no directory stands in its way. */
  lemma Stops(f: Faults, s: State) returns (events: seq<Event>)
    requires s.stopper.Idle? && s.lock.None?
    ensures Run(f, s, events) == Some(s.(stopper := Killing(true), marker := true, lock := Some(ByStopper)))
  {
    events := [Mark(true), StopMkdir];
    RunCons(f, s, Mark(true), [StopMkdir]);
    RunCons(f, s.(stopper := Waiting, marker := true), StopMkdir, []);
  }

  lemma Unsafe(s: State, i: nat)
    requires KillStarted(s) && i < |s.creators| && Commands(s.creators[i])
    ensures !Safe(s)
  {
  }

  /** A creator whose lock the handler removed goes on to the command. */
  lemma SignalThenLaunch(f: Faults, s: State)
    requires f.signalBefore && |s.creators| == 1 && s.creators[0] == Trapped && !s.marker
    ensures Run(f, s, [Signal(0), Guard(0), Launch(0)]) == Some(At(s, 0, Running(false), None))
  {
    hide Run, StopperStep;
    var s1 := At(s, 0, Trapped, None);
    var s2 := At(s, 0, Cleared, None);
    var s3 := At(s, 0, Running(false), None);
    assert s1.creators[0 := Cleared] == s2.creators && s2.creators[0 := Running(false)] == s3.creators;
    assert [Signal(0)] + [Guard(0), Launch(0)] == [Signal(0), Guard(0), Launch(0)];
    assert [Guard(0)] + [Launch(0)] == [Guard(0), Launch(0)] && [Launch(0)] + [] == [Launch(0)];
    RunCons(f, s, Signal(0), [Guard(0), Launch(0)]);
    RunCons(f, s1, Guard(0), [Launch(0)]);
    RunCons(f, s2, Launch(0), []);
    RunNothing(f, s3);
  }

  /** A signal handled before the command removes the lock, yet the script goes on. */
  lemma SignalBeforeBreaks(f: Faults) returns (events: seq<Event>)
    requires f.signalBefore
    ensures Run(f, Initial(1), events).Some? && !Safe(Run(f, Initial(1), events).value)
  {
    hide Run, Step;
    var s := Initial(1);
    Enters1(f, s, 0);
    var s1 := At(s, 0, Trapped, Some(ByCreator(0)));
    SignalThenLaunch(f, s1);
    var s2 := At(s1, 0, Running(false), None);
    var stop := Stops(f, s2);
    events := [Look(0), Mkdir(0), Trap(0)] + ([Signal(0), Guard(0), Launch(0)] + stop);
    RunConcat(f, s, [Look(0), Mkdir(0), Trap(0)], [Signal(0), Guard(0), Launch(0)] + stop);
    RunConcat(f, s1, [Signal(0), Guard(0), Launch(0)], stop);
    Unsafe(Run(f, s, events).value, 0);
  }

  /** The first creator's exit after a late signal: its handlers remove the directory one by one. */
  lemma LateSignal(f: Faults, s: State)
    requires f.signalDuring && |s.creators| == 2 && s.creators[0] == Running(false)
    ensures Run(f, s, [Signal(0)] + [Complete(0), Clean(0)]) == Some(At(s, 0, Leaving(false), None))
  {
    var s2 := At(s, 0, Running(true), s.lock);
    var s3 := At(s, 0, Leaving(true), s.lock);
    var s4 := At(s, 0, Leaving(false), None);
    assert s2.creators[0 := Leaving(true)] == s3.creators && s3.creators[0 := Leaving(false)] == s4.creators;
    RunCons(f, s, Signal(0), [Complete(0), Clean(0)]);
    RunCons(f, s2, Complete(0), [Clean(0)]);
    RunCons(f, s3, Clean(0), []);
  }

  lemma SecondCleaning(f: Faults, s: State)
    requires |s.creators| == 2 && s.creators[0] == Leaving(false)
    ensures Run(f, s, [Clean(0)]) == Some(At(s, 0, Done, None))
  {
    RunCons(f, s, Clean(0), []);
  }

  /** A signal handled after the command makes the script remove the directory twice: the second
      time it is the next creator's. */
  lemma SignalDuringBreaks(f: Faults) returns (events: seq<Event>)
    requires f.signalDuring
    ensures Run(f, Initial(2), events).Some? && !Safe(Run(f, Initial(2), events).value)
  {
    hide Run, Step;
    var s := Initial(2);
    var first := Enters(f, s, 0);
    var s1 := At(s, 0, Running(false), Some(ByCreator(0)));
    var leave := [Signal(0)] + [Complete(0), Clean(0)];
    LateSignal(f, s1);
    var s2 := At(s1, 0, Leaving(false), None);
    var second := Enters(f, s2, 1);
    var s3 := At(s2, 1, Running(false), Some(ByCreator(1)));
    SecondCleaning(f, s3);
    var s4 := At(s3, 0, Done, None);
    var stop := Stops(f, s4);
    events := first + (leave + (second + ([Clean(0)] + stop)));
    RunConcat(f, s, first, leave + (second + ([Clean(0)] + stop)));
    RunConcat(f, s1, leave, second + ([Clean(0)] + stop));
    RunConcat(f, s2, second, [Clean(0)] + stop);
    RunConcat(f, s3, [Clean(0)], stop);
    Unsafe(Run(f, s, events).value, 1);
  }

  /** A signal that the script does not trap ends the shell during the command; its exit trap
      removes the lock under the command. */
  lemma ExitDuringBreaks(f: Faults) returns (events: seq<Event>)
    requires f.exitDuring
    ensures Run(f, Initial(1), events).Some? && !Safe(Run(f, Initial(1), events).value)
  {
    hide Run;
    var s := Initial(1);
    var enter := Enters(f, s, 0);
    var s1 := At(s, 0, Running(false), Some(ByCreator(0)));
    var s2 := At(s1, 0, Orphaned, None);
    RunCons(f, s1, Exit(0), []);
    RunNothing(f, s2);
    var stop := Stops(f, s2);
    events := enter + ([Exit(0)] + stop);
    assert [Exit(0)] + [] == [Exit(0)];
    RunConcat(f, s, enter, [Exit(0)] + stop);
    RunConcat(f, s1, [Exit(0)], stop);
    Unsafe(Run(f, s, events).value, 0);
  }

  lemma RunNothing(f: Faults, s: State)
    ensures Run(f, s, []) == Some(s)
  {
  }

  /** A stopper that could not write its marker comes and goes without a trace. */
  lemma UnmarkedStop(f: Faults, s: State)
    requires f.noMarker && s.stopper.Idle? && !s.marker && s.lock.None?
    ensures Run(f, s, [Mark(false), StopMkdir, KillDone, Unlock]) == Some(s.(stopper := Finished))
  {
    hide Run, CreatorStep;
    var s1 := s.(stopper := Waiting);
    var s2 := s.(stopper := Killing(true), lock := Some(ByStopper));
    var s3 := s2.(stopper := Killed(true));
    assert [Mark(false)] + [StopMkdir, KillDone, Unlock] == [Mark(false), StopMkdir, KillDone, Unlock];
    assert [StopMkdir] + [KillDone, Unlock] == [StopMkdir, KillDone, Unlock];
    assert [KillDone] + [Unlock] == [KillDone, Unlock] && [Unlock] + [] == [Unlock];
    RunCons(f, s, Mark(false), [StopMkdir, KillDone, Unlock]);
    RunCons(f, s1, StopMkdir, [KillDone, Unlock]);
    RunCons(f, s2, KillDone, [Unlock]);
    RunCons(f, s3, Unlock, []);
    RunNothing(f, s.(stopper := Finished));
  }

  /** Without its marker the stopper only delays a creator. */
  lemma NoMarkerBreaks(f: Faults) returns (events: seq<Event>)
    requires f.noMarker
    ensures Run(f, Initial(1), events).Some? && !Safe(Run(f, Initial(1), events).value)
  {
    hide Run, Step;
    var s := Initial(1);
    UnmarkedStop(f, s);
    var enter := Enters(f, s.(stopper := Finished), 0);
    events := [Mark(false), StopMkdir, KillDone, Unlock] + enter;
    RunConcat(f, s, [Mark(false), StopMkdir, KillDone, Unlock], enter);
    Unsafe(Run(f, s, events).value, 0);
  }

  /** A stopper that stops waiting kills under a running command. */
  lemma NoLockBreaks(f: Faults) returns (events: seq<Event>)
    requires f.noLock
    ensures Run(f, Initial(1), events).Some? && !Safe(Run(f, Initial(1), events).value)
  {
    var s := Initial(1);
    var enter := Enters(f, s, 0);
    var s1 := At(s, 0, Running(false), Some(ByCreator(0)));
    RunCons(f, s1, Mark(true), [GiveUp]);
    RunCons(f, s1.(stopper := Waiting, marker := true), GiveUp, []);
    var stop := [Mark(true)] + [GiveUp];
    events := enter + stop;
    RunConcat(f, s, enter, stop);
    Unsafe(Run(f, s, events).value, 0);
  }

  ghost predicate AlwaysSafe(f: Faults) {
    forall n: nat, events: seq<Event> :: Run(f, Initial(n), events).Some? ==> Safe(Run(f, Initial(n), events).value)
  }

  /** The gate keeps its promise for any number of creators exactly when no trapped signal is
      handled, no other signal makes a shell run its exit trap during the command, the marker is
      written and the stopper gets the lock.  Shells that die without running a handler, before
      the trap or at any later moment, do no harm. */
  lemma GateSafeExactly(f: Faults)
    ensures AlwaysSafe(f) <==> NoFault(f)
  {
    if NoFault(f) {
      forall n: nat, events: seq<Event> | Run(f, Initial(n), events).Some?
        ensures Safe(Run(f, Initial(n), events).value)
      {
        GateIsSafe(f, n, events);
      }
    } else if f.signalBefore {
      var events := SignalBeforeBreaks(f);
    } else if f.signalDuring {
      var events := SignalDuringBreaks(f);
    } else if f.exitDuring {
      var events := ExitDuringBreaks(f);
    } else if f.noMarker {
      var events := NoMarkerBreaks(f);
    } else {
      var events := NoLockBreaks(f);
    }
  }
}
