/**
 * The public admission gate against shutdown: any number of request threads
 * cross two checks of one flag around one counter, all sequentially consistent.
 */
module ShutdownGate {
  type Thread = nat

  datatype Step =
    /** Read the flag clear the first time. */
    | Checked
    /** Has incremented the counter. */
    | Counted
    /** Holds the guard. */
    | Holding
    /** Read the flag set the second time; still to decrement. */
    | BackingOut
    | Done

  datatype State = State(draining: bool, inFlight: int, threads: map<Thread, Step>)

  datatype Action =
    | FirstCheck(thread: Thread)
    | Increment(thread: Thread)
    | SecondCheck(thread: Thread)
    | BackOut(thread: Thread)
    | DropGuard(thread: Thread)
    /** Shutdown stores the flag; nothing ever clears it. */
    | StoreDraining

  const INIT: State := State(false, 0, map[])

  predicate At(s: State, t: Thread, step: Step) {
    t in s.threads && s.threads[t] == step
  }

  function Move(s: State, t: Thread, step: Step): State {
    s.(threads := s.threads[t := step])
  }

  function Apply(s: State, a: Action): State {
    match a
    case FirstCheck(t) => if t in s.threads then s else Move(s, t, if s.draining then Done else Checked)
    case Increment(t) => if At(s, t, Checked) then Move(s.(inFlight := s.inFlight + 1), t, Counted) else s
    case SecondCheck(t) => if At(s, t, Counted) then Move(s, t, if s.draining then BackingOut else Holding) else s
    case BackOut(t) => if At(s, t, BackingOut) then Move(s.(inFlight := s.inFlight - 1), t, Done) else s
    case DropGuard(t) => if At(s, t, Holding) then Move(s.(inFlight := s.inFlight - 1), t, Done) else s
    case StoreDraining => s.(draining := true)
  }

  function Run(s: State, actions: seq<Action>): State
    decreases |actions|
  {
    if actions == [] then s else Run(Apply(s, actions[0]), actions[1..])
  }

  /** The threads between their increment and their decrement. */
  function Inside(s: State): set<Thread> {
    set t | t in s.threads && Inner(s.threads[t])
  }

  predicate Inv(s: State) {
    s.inFlight == |Inside(s)|
  }

  /** The flag is set and nobody holds a guard. */
  predicate Closed(s: State) {
    s.draining && forall t <- s.threads :: s.threads[t] != Holding
  }

  predicate Inner(step: Step) {
    step == Counted || step == Holding || step == BackingOut
  }

  /** How much a thread contributes to the counter. */
  function Weight(s: State, t: Thread): int {
    if t in s.threads && Inner(s.threads[t]) then 1 else 0
  }

  lemma CountWithout(s: State, t: Thread)
    ensures |Inside(s)| == |Inside(s) - {t}| + Weight(s, t)
  {
    if t in Inside(s) {
      assert Inside(s) == (Inside(s) - {t}) + {t};
    } else {
      assert Inside(s) == Inside(s) - {t};
    }
  }

  lemma MoveCounts(s: State, t: Thread, step: Step)
    ensures |Inside(Move(s, t, step))| == |Inside(s)| + Weight(Move(s, t, step), t) - Weight(s, t)
  {
    CountWithout(s, t);
    CountWithout(Move(s, t, step), t);
    assert Inside(s) - {t} == Inside(Move(s, t, step)) - {t};
  }

  lemma StepKeepsInv(s: State, a: Action)
    requires Inv(s)
    ensures Inv(Apply(s, a))
  {
    if a == StoreDraining {
      assert Inside(Apply(s, a)) == Inside(s);
    } else if Apply(s, a) != s {
      var step := Apply(s, a).threads[a.thread];
      MoveCounts(s, a.thread, step);
      assert Inside(Apply(s, a)) == Inside(Move(s, a.thread, step));
    }
  }

  lemma {:induction false} RunKeepsInv(s: State, actions: seq<Action>)
    requires Inv(s)
    ensures Inv(Run(s, actions))
    decreases |actions|
  {
    if actions != [] {
      StepKeepsInv(s, actions[0]);
      RunKeepsInv(Apply(s, actions[0]), actions[1..]);
    }
  }

  lemma {:induction false} ClosedForever(s: State, actions: seq<Action>)
    requires Closed(s)
    ensures Closed(Run(s, actions))
    decreases |actions|
  {
    if actions != [] { ClosedForever(Apply(s, actions[0]), actions[1..]); }
  }

  // ---------------------------------------------------------------------
  // Theorems
  // ---------------------------------------------------------------------

  /** The counter is the number of threads between increment and decrement, backed-out ones included. */
  lemma CounterIsExact(actions: seq<Action>)
    ensures var s := Run(INIT, actions); s.inFlight == |Inside(s)|
  {
    assert Inside(INIT) == {};
    RunKeepsInv(INIT, actions);
  }

  /** Once shutdown has stored the flag and then reads zero, no guard is held, and none ever will be. */
  lemma NoGuardAfterZero(before: seq<Action>, later: seq<Action>)
    requires Run(INIT, before).draining && Run(INIT, before).inFlight == 0
    ensures Closed(Run(INIT, before)) && Closed(Run(Run(INIT, before), later))
  {
    var s := Run(INIT, before);
    CounterIsExact(before);
    forall t | t in s.threads ensures s.threads[t] != Holding {
      assert t !in Inside(s);
    }
    ClosedForever(s, later);
  }

  /** A thread that has counted itself is admitted exactly when the flag is still clear at its second check. */
  lemma AdmittedExactly(s: State, t: Thread, between: seq<Action>)
    requires At(s, t, Counted) && forall i :: 0 <= i < |between| ==> between[i] != SecondCheck(t)
    ensures var later := Run(s, between);
      At(Apply(later, SecondCheck(t)), t, Holding) <==> StoreDraining !in between && !s.draining
  {
    StaysCounted(s, t, between);
  }

  lemma {:induction false} StaysCounted(s: State, t: Thread, between: seq<Action>)
    requires At(s, t, Counted) && forall i :: 0 <= i < |between| ==> between[i] != SecondCheck(t)
    ensures At(Run(s, between), t, Counted)
    ensures Run(s, between).draining <==> s.draining || StoreDraining in between
    decreases |between|
  {
    if between != [] {
      assert between[0] != SecondCheck(t);
      StaysCounted(Apply(s, between[0]), t, between[1..]);
    }
  }

  /** No step of `between` is one of `t`'s own. */
  predicate ByOthers(t: Thread, between: seq<Action>) {
    forall i :: 0 <= i < |between| ==> between[i] == StoreDraining || between[i].thread != t
  }

  lemma {:induction false} OthersLeaveIt(s: State, t: Thread, between: seq<Action>)
    requires t in s.threads && ByOthers(t, between)
    ensures At(Run(s, between), t, s.threads[t])
    ensures Run(s, between).draining <==> s.draining || StoreDraining in between
    decreases |between|
  {
    if between != [] {
      assert between[0] == StoreDraining || between[0].thread != t;
      OthersLeaveIt(Apply(s, between[0]), t, between[1..]);
    }
  }

  /**
   * A request that arrives, whatever the others do between its three steps, is admitted exactly when the flag is
   * clear until its second check; set before the first check it is turned away at once, and set between the two
   * it counts itself out again.
   */
  lemma RequestIsAdmitted(s: State, t: Thread, first: seq<Action>, second: seq<Action>)
    requires t !in s.threads && ByOthers(t, first) && ByOthers(t, second)
    ensures var checked := Run(Apply(s, FirstCheck(t)), first);
      var counted := Run(Apply(checked, Increment(t)), second);
      At(Apply(Apply(counted, SecondCheck(t)), BackOut(t)), t,
         if s.draining || StoreDraining in first + second then Done else Holding)
    ensures s.draining ==> At(Apply(s, FirstCheck(t)), t, Done) && Apply(s, FirstCheck(t)).inFlight == s.inFlight
  {
    var entered := Apply(s, FirstCheck(t));
    OthersLeaveIt(entered, t, first);
    var checked := Run(entered, first);
    OthersLeaveIt(Apply(checked, Increment(t)), t, second);
  }

  /** Nothing else to wait for: with the flag set, a thread can always leave on its own steps. */
  lemma EveryThreadCanLeave(s: State, t: Thread)
    requires s.draining && t in s.threads
    ensures At(Run(s, [Increment(t), SecondCheck(t), BackOut(t), DropGuard(t)]), t, Done)
  {
    var s1 := Apply(s, Increment(t));
    var s2 := Apply(s1, SecondCheck(t));
    var s3 := Apply(s2, BackOut(t));
    assert [Increment(t), SecondCheck(t), BackOut(t), DropGuard(t)][1..] == [SecondCheck(t), BackOut(t), DropGuard(t)];
    assert [SecondCheck(t), BackOut(t), DropGuard(t)][1..] == [BackOut(t), DropGuard(t)];
    assert [BackOut(t), DropGuard(t)][1..] == [DropGuard(t)];
    assert Run(s3, [DropGuard(t)]) == Apply(s3, DropGuard(t));
    assert Run(s2, [BackOut(t), DropGuard(t)]) == Apply(s3, DropGuard(t));
    assert Run(s1, [SecondCheck(t), BackOut(t), DropGuard(t)]) == Apply(s3, DropGuard(t));
  }
}
