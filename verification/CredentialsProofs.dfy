/** What every step of a credential rotation keeps, and what follows for whole runs. */
module CredentialsProofs {
  import opened Prelude
  import opened Credentials

  // ---------------------------------------------------------------------
  // The invariant
  // ---------------------------------------------------------------------

  /** The staged handoff is new to everyone but the plane and, once saved, the disk. */
  predicate PlaneInv(plane: Plane) {
    && plane.acked <= plane.used
    && (plane.staged.Some? ==> plane.staged.value.handoff in plane.used - plane.acked)
  }

  /** The record names `h`, and its replacement is the one the plane has staged. */
  predicate Pending(disk: Config, plane: Plane, h: string) {
    && disk.handoff == Some(h) && plane.staged.Some? && plane.staged.value.handoff == h
    && disk.token == Some(plane.staged.value.token) && disk.version == plane.staged.value.version
    && disk.storage == Some(plane.staged.value.storage)
    && (disk.previous.Some? ==> disk.previous.value.token == plane.current)
  }

  /** The saved token is the settled one, or the staged one while its handoff is still marked. */
  predicate DiskInv(disk: Config, plane: Plane) {
    && (disk.handoff.None? ==> disk.previous.None?)
    && (disk.token.Some? ==>
          || (disk.token == Some(plane.current) && (disk.handoff.Some? ==> disk.handoff.value in plane.acked))
          || (disk.handoff.Some? && Pending(disk, plane, disk.handoff.value)))
  }

  predicate PhaseInv(phase: Phase, disk: Config, plane: Plane) {
    match phase
    case Ready => disk.handoff.None?
    case Offered(r) => disk.handoff.None? && plane.staged == Some(r)
    case Saved(h) => disk.handoff == Some(h)
    case AwaitingAck(h) => disk.handoff == Some(h)
    case Acked(h) => disk.handoff == Some(h) && h in plane.acked
  }

  predicate HolderInv(s: State) {
    match s.holder
    case Nobody => true
    case Refresh(phase, config) => config == s.disk && Enrolled(config) && PhaseInv(phase, s.disk, s.plane)
    case Retry(k, config) => config == s.disk && k in s.tasks && s.tasks[k].Confirmed?
  }

  predicate TasksInv(s: State) {
    forall k <- s.tasks :: s.tasks[k].Confirmed? ==> s.tasks[k].handoff in s.plane.acked
  }

  /** A sent acknowledgement was settled already, or names the saved replacement. */
  predicate SentInv(s: State) {
    forall a <- s.sent :: a.handoff in s.plane.acked || Pending(s.disk, s.plane, a.handoff)
  }

  predicate SavedInv(s: State) {
    && (s.disk.handoff.Some? ==> s.disk.handoff.value in s.saved)
    && (forall a <- s.sent :: a.handoff in s.saved)
    && s.plane.acked <= s.saved
  }

  predicate Inv(s: State) {
    && PlaneInv(s.plane) && DiskInv(s.disk, s.plane) && HolderInv(s)
    && TasksInv(s) && SentInv(s) && SavedInv(s)
  }

  /** An installation at rest, possibly with a saved replacement still to be acknowledged. */
  predicate IsInit(s: State) {
    && Enrolled(s.disk) && PlaneInv(s.plane) && DiskInv(s.disk, s.plane)
    && s.holder == Nobody && s.tasks == map[] && s.sent == {}
    && s.saved == (if s.disk.handoff.Some? then {s.disk.handoff.value} else {}) + s.plane.acked
    && s.rotations == 0
    && s.disk.version <= MAX_VERSION
  }

  // ---------------------------------------------------------------------
  // Every step keeps it
  // ---------------------------------------------------------------------

  lemma StageKeeps(s: State, r: Replacement)
    requires Inv(s)
    ensures Inv(Apply(s, Stage(r)))
  {
  }

  /** Settling the staged replacement finds it saved. */
  lemma DeliverKeeps(s: State, ack: Ack)
    requires Inv(s)
    ensures Inv(Apply(s, Deliver(ack)))
  {
    var t := Apply(s, Deliver(ack));
    if t.plane != s.plane {
      assert Pending(s.disk, s.plane, ack.handoff);
      assert t.plane.current == s.disk.token.value;
      assert DiskInv(t.disk, t.plane);
      assert HolderInv(t);
      forall a | a in t.sent ensures a.handoff in t.plane.acked || Pending(t.disk, t.plane, a.handoff) {
        assert a.handoff in s.plane.acked || Pending(s.disk, s.plane, a.handoff);
      }
    }
  }

  lemma BeginKeeps(s: State, a: Action)
    requires Inv(s) && (a.Begin? || a.Stop?)
    ensures Inv(Apply(s, a))
  {
  }

  lemma SaveKeeps(s: State, r: Replacement, config: Config)
    requires Inv(s) && s.holder == Refresh(Offered(r), config)
    ensures Inv(SaveReplacement(s, r, config))
  {
    var t := SaveReplacement(s, r, config);
    if t.disk != s.disk {
      forall a | a in t.sent ensures a.handoff in t.plane.acked {
        assert a.handoff in s.plane.acked || Pending(s.disk, s.plane, a.handoff);
      }
      assert Pending(t.disk, t.plane, r.handoff);
    }
  }

  lemma RefreshKeeps(s: State, a: Action)
    requires Inv(s) && (a.Ask? || a.Save? || a.SendAck? || a.AckAnswered? || a.Clear?)
    ensures Inv(Apply(s, a))
  {
    if s.holder.Refresh? && s.holder.phase.Offered? { SaveKeeps(s, s.holder.phase.replacement, s.holder.config); }
  }

  lemma TaskKeeps(s: State, a: Action, k: nat)
    requires Inv(s)
    requires a == Spawn(k) || a == TaskAnswered(k) || a == TaskLock(k) || a == TaskClear(k) || a == TaskDies(k)
    ensures Inv(Apply(s, a))
  {
  }

  lemma StepKeepsInv(s: State, a: Action)
    requires Inv(s)
    ensures Inv(Apply(s, a))
  {
    match a
    case Stage(r) => StageKeeps(s, r);
    case Deliver(ack) => DeliverKeeps(s, ack);
    case Begin => BeginKeeps(s, a);
    case Stop => BeginKeeps(s, a);
    case Spawn(k) => TaskKeeps(s, a, k);
    case TaskAnswered(k) => TaskKeeps(s, a, k);
    case TaskLock(k) => TaskKeeps(s, a, k);
    case TaskClear(k) => TaskKeeps(s, a, k);
    case TaskDies(k) => TaskKeeps(s, a, k);
    case _ => RefreshKeeps(s, a);
  }

  /** What a run leaves alone, and how far it has moved the version. */
  predicate Since(start: State, s: State) {
    && Enrolled(start.disk) && Enrolled(s.disk)
    && s.disk.storage.value.target == start.disk.storage.value.target
    && start.rotations <= s.rotations
    && s.disk.version == Saturated(start.disk.version + s.rotations - start.rotations)
  }

  function Saturated(version: int): int {
    if version <= MAX_VERSION then version else MAX_VERSION
  }

  lemma StepKeepsSince(start: State, s: State, a: Action)
    requires Inv(s) && Since(start, s)
    ensures Since(start, Apply(s, a))
  {
    assert s.holder.Refresh? && s.holder.phase.Offered? && Apply(s, a).disk != s.disk ==>
      Validate(s.holder.phase.replacement, s.disk, s.disk.storage.value).None?;
  }

  lemma {:induction false} RunKeeps(start: State, s: State, actions: seq<Action>)
    requires Inv(s) && Since(start, s)
    ensures Inv(Run(s, actions)) && Since(start, Run(s, actions))
    decreases |actions|
  {
    if actions != [] {
      StepKeepsInv(s, actions[0]);
      StepKeepsSince(start, s, actions[0]);
      RunKeeps(start, Apply(s, actions[0]), actions[1..]);
    }
  }

  lemma Reached(start: State, actions: seq<Action>)
    requires IsInit(start)
    ensures Inv(Run(start, actions)) && Since(start, Run(start, actions))
  {
    RunKeeps(start, start, actions);
  }

  // ---------------------------------------------------------------------
  // Theorems
  // ---------------------------------------------------------------------

  /** Whatever stops whenever, the control plane accepts the saved token. */
  lemma SavedTokenIsAccepted(start: State, actions: seq<Action>)
    requires IsInit(start)
    ensures var s := Run(start, actions); s.disk.token.Some? && Accepts(s.plane, s.disk.token.value)
  {
    Reached(start, actions);
  }

  /** An acknowledgement that settles a replacement finds exactly that replacement saved. */
  lemma AckFindsReplacementSaved(start: State, actions: seq<Action>, ack: Ack)
    requires IsInit(start)
    ensures var s := Run(start, actions);
      var t := Apply(s, Deliver(ack));
      t.plane != s.plane ==>
        && s.plane.staged.Some? && s.disk == t.disk
        && s.disk.token == Some(s.plane.staged.value.token) && s.disk.version == s.plane.staged.value.version
        && s.disk.storage == Some(s.plane.staged.value.storage)
    ensures Run(start, actions).plane.acked <= Run(start, actions).saved
  {
    Reached(start, actions);
  }

  /** While a rotation is unsettled, a remembered previous credential is the settled one. */
  lemma PreviousIsKeptUntilAck(start: State, actions: seq<Action>)
    requires IsInit(start)
    ensures var s := Run(start, actions);
      s.disk.previous.Some? && s.disk.token != Some(s.plane.current) ==> s.disk.previous.value.token == s.plane.current
  {
    Reached(start, actions);
  }

  /** The version counts the saved replacements, up to the largest one; the storage target never moves. */
  lemma VersionCountsRotations(start: State, actions: seq<Action>)
    requires IsInit(start)
    ensures var s := Run(start, actions);
      && s.disk.version == Saturated(start.disk.version + s.rotations)
      && s.disk.storage.Some? && s.disk.storage.value.target == start.disk.storage.value.target
  {
    Reached(start, actions);
  }

  /** What a run saves is what the control plane has staged, offered as pending and complete. */
  lemma SavesWhatIsStaged(start: State, actions: seq<Action>, a: Action)
    requires IsInit(start)
    ensures var s := Run(start, actions);
      var t := Apply(s, a);
      t.rotations != s.rotations ==>
        && s.plane.staged.Some? && t.plane == s.plane
        && var r := s.plane.staged.value;
        && t.disk.token == Some(r.token) && t.disk.storage == Some(r.storage) && t.disk.handoff == Some(r.handoff)
        && t.disk.version == r.version && Enrolled(s.disk)
        && t.disk.previous == Some(Previous(s.disk.token.value, s.disk.version, s.disk.storage.value))
        && r.status == "rotation_pending" && ValidField(r.token) && ValidField(r.handoff)
        && ValidField(r.storage.accessKey) && ValidField(r.storage.secretKey)
  {
    Reached(start, actions);
  }

  /** One saved replacement raises the version by exactly one, exactly when it is below the largest. */
  lemma RotationRaisesVersion(start: State, actions: seq<Action>, a: Action)
    requires IsInit(start)
    ensures var s := Run(start, actions);
      var t := Apply(s, a);
      t.rotations != s.rotations ==> (t.disk.version == s.disk.version + 1 <==> s.disk.version < MAX_VERSION)
  {
    Reached(start, actions);
    var s := Run(start, actions);
    StepKeepsSince(s, s, a);
  }

  /** At the largest version a rotation is still accepted, and its version says nothing. */
  lemma LargestVersionRepeats(s: State, r: Replacement)
    requires IsInit(s) && s.disk.version == MAX_VERSION && s.disk.handoff.None?
    requires s.plane.staged == Some(r) && Validate(r, s.disk, s.disk.storage.value).None?
    ensures var t := Run(s, SAVE_STEPS);
      t.disk.token == Some(r.token) && t.rotations == 1 && t.disk.version == s.disk.version
  {
    UpToSave(s, r);
  }

  const SAVE_STEPS: seq<Action> := [Begin] + ([Ask] + [Save])

  lemma RunCons(s: State, a: Action, rest: seq<Action>)
    ensures Run(s, [a] + rest) == Run(Apply(s, a), rest)
  {
    assert ([a] + rest)[1..] == rest;
  }

  lemma RunOne(s: State, a: Action)
    ensures Run(s, [a]) == Apply(s, a)
  {
    assert [a] + [] == [a];
    RunCons(s, a, []);
  }

  lemma UpToSave(s: State, r: Replacement)
    requires Inv(s) && s.holder == Nobody && Enrolled(s.disk) && s.disk.handoff.None?
    requires s.plane.staged == Some(r) && Validate(r, s.disk, s.disk.storage.value).None?
    ensures Run(s, SAVE_STEPS) ==
      s.(disk := Adopted(s.disk, r), holder := Refresh(Saved(r.handoff), Adopted(s.disk, r)),
         saved := s.saved + {r.handoff}, rotations := s.rotations + 1)
  {
    var s1 := Apply(s, Begin);
    var s2 := Apply(s1, Ask);
    RunCons(s, Begin, [Ask] + [Save]);
    RunCons(s1, Ask, [Save]);
    RunOne(s2, Save);
  }

  /** Steps that acknowledge and clear a saved replacement. */
  function FinishSteps(token: string, h: string): seq<Action> {
    [SendAck] + ([Deliver(Ack(token, h))] + ([AckAnswered] + [Clear]))
  }

  /** Delivering the acknowledgement of a saved replacement leaves its token settled. */
  lemma DeliverSettles(s: State)
    requires Inv(s) && s.disk.token.Some? && s.disk.handoff.Some?
    requires Ack(s.disk.token.value, s.disk.handoff.value) in s.sent
    ensures var t := Apply(s, Deliver(Ack(s.disk.token.value, s.disk.handoff.value)));
      t == s.(plane := t.plane) && t.plane.current == s.disk.token.value && s.disk.handoff.value in t.plane.acked
  {
  }

  /** From a saved replacement, the remaining steps settle it and clear the marker. */
  lemma SavedFinishes(s: State)
    requires Inv(s) && s.holder.Refresh? && s.holder.phase.Saved?
    ensures var t := Run(s, FinishSteps(s.disk.token.value, s.holder.phase.handoff));
      && t.disk == Cleared(s.disk) && t.holder == Nobody
      && t.plane.current == s.disk.token.value && s.holder.phase.handoff in t.plane.acked
  {
    var h, token := s.holder.phase.handoff, s.disk.token.value;
    var ack := Deliver(Ack(token, h));
    var s1 := Apply(s, SendAck);
    RunCons(s, SendAck, [ack] + ([AckAnswered] + [Clear]));
    RefreshKeeps(s, SendAck);
    DeliverSettles(s1);
    var s2 := Apply(s1, ack);
    RunCons(s1, ack, [AckAnswered] + [Clear]);
    RunCons(s2, AckAnswered, [Clear]);
    RunOne(Apply(s2, AckAnswered), Clear);
  }

  /** A rerun after any interruption finishes what an earlier run saved. */
  lemma RerunFinishes(start: State, actions: seq<Action>)
    requires IsInit(start)
    requires var s := Run(start, actions); s.holder == Nobody && s.disk.handoff.Some? && s.disk.token.Some?
    ensures var s := Run(start, actions);
      var t := Run(Apply(s, Begin), FinishSteps(s.disk.token.value, s.disk.handoff.value));
      t.disk == Cleared(s.disk) && t.holder == Nobody && t.plane.current == s.disk.token.value
  {
    Reached(start, actions);
    var s := Run(start, actions);
    BeginKeeps(s, Begin);
    SavedFinishes(Apply(s, Begin));
  }

  /** A rotation nobody disturbs ends with the replacement saved, settled and unmarked. */
  lemma UndisturbedRotation(s: State, r: Replacement)
    requires Inv(s) && s.holder == Nobody && Enrolled(s.disk) && s.disk.handoff.None?
    requires s.plane.staged == Some(r) && Validate(r, s.disk, s.disk.storage.value).None?
    ensures var t := Run(Run(s, SAVE_STEPS), FinishSteps(r.token, r.handoff));
      && t.disk == Config(Some(r.token), r.version, Some(r.storage), None, None)
      && t.plane.current == r.token && t.holder == Nobody
  {
    UpToSave(s, r);
    BeginKeeps(s, Begin);
    RefreshKeeps(Apply(s, Begin), Ask);
    SaveKeeps(Apply(Apply(s, Begin), Ask), r, s.disk);
    SavedFinishes(Run(s, SAVE_STEPS));
  }

  /** The same from the moment the control plane stages the replacement, under a handoff id it has not used. */
  lemma StagedRotation(s: State, r: Replacement)
    requires Inv(s) && s.holder == Nobody && Enrolled(s.disk) && s.disk.handoff.None?
    requires s.plane.staged.None? && r.handoff !in s.plane.used && Validate(r, s.disk, s.disk.storage.value).None?
    ensures var t := Run(Run(Apply(s, Stage(r)), SAVE_STEPS), FinishSteps(r.token, r.handoff));
      && t.disk == Config(Some(r.token), r.version, Some(r.storage), None, None)
      && t.plane.current == r.token && t.holder == Nobody
  {
    StageKeeps(s, r);
    UndisturbedRotation(Apply(s, Stage(r)), r);
  }

  /** A value of one to five hundred characters. */
  predicate Sized(value: string) {
    1 <= |value| <= 500
  }

  /**
   * A refresh saves the staged replacement exactly when it is pending, of the next version or, at the largest one,
   * of the same, for the same bucket, endpoint and region, and with all four secrets present. Any other is left,
   * with the record as it was and the lock free.
   */
  lemma SavesExactly(s: State, r: Replacement)
    requires Inv(s) && s.holder == Nobody && Enrolled(s.disk) && s.disk.handoff.None? && s.plane.staged == Some(r)
    ensures var t, target := Run(s, SAVE_STEPS), s.disk.storage.value.target;
      if && r.status == "rotation_pending"
         && r.version == (if s.disk.version < 0xFFFF_FFFF_FFFF_FFFF then s.disk.version + 1 else s.disk.version)
         && r.storage.target.bucket == target.bucket && r.storage.target.endpoint == target.endpoint
         && r.storage.target.region == target.region
         && Sized(r.handoff) && Sized(r.token) && Sized(r.storage.accessKey) && Sized(r.storage.secretKey)
      then
        && t.disk.token == Some(r.token) && t.disk.version == r.version && t.disk.storage == Some(r.storage)
        && t.disk.handoff == Some(r.handoff)
      else t.disk == s.disk && t.holder == Nobody && t.rotations == s.rotations
  {
    var s1 := Apply(s, Begin);
    var s2 := Apply(s1, Ask);
    RunCons(s, Begin, [Ask] + [Save]);
    RunCons(s1, Ask, [Save]);
    RunOne(s2, Save);
    assert s2.holder == Refresh(Offered(r), s.disk);
  }

  /** The refusal reported is that of the first check that fails: status, version, target, secrets. */
  lemma RefusedForTheFirst(r: Replacement, config: Config, storage: Storage)
    ensures r.status != "rotation_pending" ==> Validate(r, config, storage) == Some(UnexpectedStatus)
    ensures Validate(r, config, storage) == Some(OtherTarget) ==> r.version == NextVersion(config.version)
    ensures Validate(r, config, storage) == Some(InvalidField) ==>
      r.storage.target == storage.target && r.version == NextVersion(config.version) && r.status == "rotation_pending"
  {
  }

  /** With nothing staged, or a token the control plane does not know, a refresh ends where it began. */
  lemma NothingToSave(s: State)
    requires s.holder == Nobody && Enrolled(s.disk) && s.disk.handoff.None?
    requires s.plane.staged.None? || !Accepts(s.plane, s.disk.token.value)
    ensures Apply(Apply(s, Begin), Ask) == s
  {
  }

  /** What starts at a saved marker: send, deliver, hear the answer, lock, clear. */
  function TaskSteps(k: nat, token: string, h: string): seq<Action> {
    [Spawn(k)] + ([Deliver(Ack(token, h))] + ([TaskAnswered(k)] + ([TaskLock(k)] + [TaskClear(k)])))
  }

  /** The record that a task confirmed loses its marker and its previous credential, and keeps everything else. */
  lemma ConfirmedClears(s: State, k: nat)
    requires s.holder == Nobody && k in s.tasks && s.tasks[k].Confirmed?
    ensures var t := Apply(Apply(s, TaskLock(k)), TaskClear(k));
      && t.holder == Nobody && k !in t.tasks && t.plane == s.plane && t.sent == s.sent
      && t.disk == if s.disk.handoff == Some(s.tasks[k].handoff)
                   then Config(s.disk.token, s.disk.version, s.disk.storage, None, None) else s.disk
  {
  }

  /** A background acknowledgement that nobody disturbs settles the saved token and clears the marker. */
  lemma UndisturbedTask(s: State, k: nat)
    requires Inv(s) && s.holder == Nobody && s.disk.handoff.Some? && s.disk.token.Some? && k !in s.tasks
    ensures var t := Run(s, TaskSteps(k, s.disk.token.value, s.disk.handoff.value));
      && t.disk == Config(s.disk.token, s.disk.version, s.disk.storage, None, None)
      && t.plane.current == s.disk.token.value && s.disk.handoff.value in t.plane.acked
      && t.holder == Nobody && k !in t.tasks
  {
    var h, token := s.disk.handoff.value, s.disk.token.value;
    var ack := Deliver(Ack(token, h));
    var s1 := Apply(s, Spawn(k));
    TaskKeeps(s, Spawn(k), k);
    RunCons(s, Spawn(k), [ack] + ([TaskAnswered(k)] + ([TaskLock(k)] + [TaskClear(k)])));
    DeliverSettles(s1);
    var s2 := Apply(s1, ack);
    RunCons(s1, ack, [TaskAnswered(k)] + ([TaskLock(k)] + [TaskClear(k)]));
    var s3 := Apply(s2, TaskAnswered(k));
    RunCons(s2, TaskAnswered(k), [TaskLock(k)] + [TaskClear(k)]);
    RunCons(s3, TaskLock(k), [TaskClear(k)]);
    RunOne(Apply(s3, TaskLock(k)), TaskClear(k));
    ConfirmedClears(s3, k);
  }

  /** Whoever stops, the lock is free again and what was saved or settled stays. */
  lemma StoppedLeavesTheRecord(s: State, k: nat)
    requires s.holder.Refresh? || (s.holder.Retry? && s.holder.task == k)
    ensures var t := Apply(s, if s.holder.Refresh? then Stop else TaskDies(k));
      t.holder == Nobody && t.disk == s.disk && t.plane == s.plane && t.sent == s.sent
    ensures k !in Apply(s, TaskDies(k)).tasks
  {
  }
}
