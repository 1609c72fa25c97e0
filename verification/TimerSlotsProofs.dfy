/** Each arm fires at most once, and only as its slot's current arm; both sides agree on what is armed. */
module TimerSlotsProofs {
  import opened Prelude
  import opened TimerSlots

  // ---------------------------------------------------------------------
  // One slot map, over any sequence of operations
  // ---------------------------------------------------------------------

  datatype Op =
    | ArmOp(slot: Slot)
    | InstallOp(slot: Slot, ordinal: Ordinal)
    | FireOp(slot: Slot, ordinal: Ordinal)
    | ClearOp(slot: Slot)

  datatype Table = Table(armed: map<Slot, Ordinal>, next: Ordinal)

  function Step(t: Table, op: Op): Table {
    match op
    case ArmOp(slot) => Table(t.armed[slot := t.next], NextOrdinal(t.next))
    case InstallOp(slot, ordinal) => t.(armed := t.armed[slot := ordinal])
    case FireOp(slot, ordinal) => if Fires(t, slot, ordinal) then t.(armed := t.armed - {slot}) else t
    case ClearOp(slot) => t.(armed := t.armed - {slot})
  }

  predicate Fires(t: Table, slot: Slot, ordinal: Ordinal) {
    slot in t.armed && t.armed[slot] == ordinal
  }

  function After(ops: seq<Op>): Table {
    if ops == [] then Table(map[], 0) else Step(After(ops[..|ops| - 1]), ops[|ops| - 1])
  }

  /** How many arms `ops` made; the next one is numbered by it, until the numbers run out. */
  function Arms(ops: seq<Op>): nat {
    if ops == [] then 0 else Arms(ops[..|ops| - 1]) + if ops[|ops| - 1].ArmOp? then 1 else 0
  }

  function Numbered(arms: nat): Ordinal {
    if arms <= MAX_ORDINAL then arms else MAX_ORDINAL
  }

  lemma {:induction false} NextIsNumbered(ops: seq<Op>)
    ensures After(ops).next == Numbered(Arms(ops))
  {
    if ops != [] { NextIsNumbered(ops[..|ops| - 1]); }
  }

  /** The operation at `i` gave `slot` the ordinal `o`. */
  predicate Gives(ops: seq<Op>, i: nat, slot: Slot, o: Ordinal)
    requires i < |ops|
  {
    ops[i] == InstallOp(slot, o) || (ops[i] == ArmOp(slot) && o == Numbered(Arms(ops[..i])))
  }

  /** The operation at `i` leaves alone an arm `o` of `slot`. */
  predicate Spares(op: Op, slot: Slot, o: Ordinal) {
    op.slot != slot || (op.FireOp? && op.ordinal != o)
  }

  /**
   * The arm `o` of `slot` is live: some operation gave it, and nothing since touched the slot except attempts
   * to fire other ordinals.
   */
  ghost predicate Live(ops: seq<Op>, slot: Slot, o: Ordinal) {
    exists i :: 0 <= i < |ops| && Gives(ops, i, slot, o) && forall j :: i < j < |ops| ==> Spares(ops[j], slot, o)
  }

  lemma LiveSnoc(ops: seq<Op>, slot: Slot, o: Ordinal)
    requires ops != []
    ensures var before := ops[..|ops| - 1];
      Live(ops, slot, o) <==>
        Gives(ops, |ops| - 1, slot, o) || (Live(before, slot, o) && Spares(ops[|ops| - 1], slot, o))
  {
    var before := ops[..|ops| - 1];
    forall i | 0 <= i < |before| ensures Gives(ops, i, slot, o) <==> Gives(before, i, slot, o) {
      assert ops[..i] == before[..i];
    }
    if Live(ops, slot, o) && !Gives(ops, |ops| - 1, slot, o) {
      var i :| 0 <= i < |ops| && Gives(ops, i, slot, o) && forall j :: i < j < |ops| ==> Spares(ops[j], slot, o);
      assert Gives(before, i, slot, o);
    }
    if Live(before, slot, o) && Spares(ops[|ops| - 1], slot, o) {
      var i :| 0 <= i < |before| && Gives(before, i, slot, o)
        && forall j :: i < j < |before| ==> Spares(before[j], slot, o);
      assert Gives(ops, i, slot, o);
      assert forall j :: i < j < |ops| ==> Spares(ops[j], slot, o) by {
        forall j | i < j < |ops| ensures Spares(ops[j], slot, o) {
          if j < |before| { assert Spares(before[j], slot, o); }
        }
      }
    }
  }

  /** `fire` accepts exactly the live arms, whatever arms, installs, fires and clears came before. */
  lemma {:induction false} FiresExactlyLive(ops: seq<Op>, slot: Slot, o: Ordinal)
    ensures Fires(After(ops), slot, o) <==> Live(ops, slot, o)
  {
    if ops != [] {
      var before := ops[..|ops| - 1];
      FiresExactlyLive(before, slot, o);
      LiveSnoc(ops, slot, o);
      NextIsNumbered(before);
      var op := ops[|ops| - 1];
      if op == FireOp(slot, o) {
        assert !Fires(After(ops), slot, o);
      }
    }
  }

  predicate NoInstalls(ops: seq<Op>) {
    forall i :: 0 <= i < |ops| ==> !ops[i].InstallOp?
  }

  lemma {:induction false} ArmsGrow(ops: seq<Op>, i: nat)
    requires i <= |ops|
    ensures Arms(ops[..i]) <= Arms(ops)
    ensures i < |ops| && ops[i].ArmOp? ==> Arms(ops[..i]) < Arms(ops)
    decreases |ops| - i
  {
    if i < |ops| {
      ArmsGrow(ops, i + 1);
      assert ops[..i + 1][..i] == ops[..i];
    } else {
      assert ops[..i] == ops;
    }
  }

  lemma ArmsBetween(ops: seq<Op>, i: nat, j: nat)
    requires i < j <= |ops| && ops[i].ArmOp?
    ensures Arms(ops[..i]) < Arms(ops[..j])
  {
    ArmsGrow(ops[..j], i);
    assert ops[..j][..i] == ops[..i] && ops[..j][i] == ops[i];
  }

  /** While there are numbers for all arms, no ordinal is given twice, to any slot. */
  lemma GivenOnce(ops: seq<Op>, i: nat, j: nat, slot: Slot, other: Slot, o: Ordinal)
    requires Arms(ops) <= MAX_ORDINAL + 1 && NoInstalls(ops) && i < j < |ops| && Gives(ops, i, slot, o)
    ensures !Gives(ops, j, other, o)
  {
    ArmsBetween(ops, i, j);
    ArmsGrow(ops, i);
    ArmsGrow(ops, j);
  }

  /** No two operations give `slot` the ordinal `o`. */
  ghost predicate GivesOnce(ops: seq<Op>, slot: Slot, o: Ordinal) {
    forall i, j :: 0 <= i < j < |ops| ==> !(Gives(ops, i, slot, o) && Gives(ops, j, slot, o))
  }

  /** No slot is armed again once the numbers have run out for it. */
  ghost predicate NoLateRearm(ops: seq<Op>) {
    forall i, j :: 0 <= i < j < |ops| && ops[i].ArmOp? && ops[i] == ops[j] ==> Arms(ops[..i]) < MAX_ORDINAL
  }

  /** Without installs every arm is given once exactly when no slot is armed twice on the last number. */
  lemma GivesOnceExactly(ops: seq<Op>)
    requires NoInstalls(ops)
    ensures (forall slot, o :: GivesOnce(ops, slot, o)) <==> NoLateRearm(ops)
  {
    if NoLateRearm(ops) {
      forall slot, o ensures GivesOnce(ops, slot, o) {
        forall i, j | 0 <= i < j < |ops| && Gives(ops, i, slot, o) ensures !Gives(ops, j, slot, o) {
          ArmsBetween(ops, i, j);
        }
      }
    } else {
      var i, j :| 0 <= i < j < |ops| && ops[i].ArmOp? && ops[i] == ops[j] && Arms(ops[..i]) >= MAX_ORDINAL;
      ArmsBetween(ops, i, j);
      assert Gives(ops, i, ops[i].slot, MAX_ORDINAL) && Gives(ops, j, ops[i].slot, MAX_ORDINAL);
      assert !GivesOnce(ops, ops[i].slot, MAX_ORDINAL);
    }
  }

  /** An arm given once fires at most once. */
  lemma FiresOnce(ops: seq<Op>, i: nat, j: nat, slot: Slot, o: Ordinal)
    requires GivesOnce(ops, slot, o)
    requires i < j < |ops| && ops[i] == FireOp(slot, o) && Fires(After(ops[..i]), slot, o)
    ensures !Fires(After(ops[..j]), slot, o)
  {
    FiresExactlyLive(ops[..i], slot, o);
    FiresExactlyLive(ops[..j], slot, o);
    LaterGive(ops, i, j, slot, o);
  }

  /** A live arm at both points would have been given twice. */
  lemma LaterGive(ops: seq<Op>, i: nat, j: nat, slot: Slot, o: Ordinal)
    requires GivesOnce(ops, slot, o)
    requires i < j < |ops| && ops[i] == FireOp(slot, o) && Live(ops[..i], slot, o)
    ensures !Live(ops[..j], slot, o)
  {
    var a :| 0 <= a < i && Gives(ops[..i], a, slot, o);
    assert ops[..i][..a] == ops[..a];
    assert Gives(ops, a, slot, o);
    forall b | 0 <= b < j && Gives(ops[..j], b, slot, o)
      ensures exists k :: b < k < j && !Spares(ops[..j][k], slot, o)
    {
      assert ops[..j][..b] == ops[..b];
      assert Gives(ops, b, slot, o);
      assert !Spares(ops[..j][i], slot, o);
    }
  }

  /** Installing one arm again lets it fire again. */
  lemma ReinstalledFiresAgain(slot: Slot, o: Ordinal)
    ensures var ops := [InstallOp(slot, o), FireOp(slot, o), InstallOp(slot, o), FireOp(slot, o)];
      Fires(After(ops[..1]), slot, o) && Fires(After(ops[..3]), slot, o)
  {
    var ops := [InstallOp(slot, o), FireOp(slot, o), InstallOp(slot, o), FireOp(slot, o)];
    assert ops[..1][..0] == [];
    assert After(ops[..1]) == Step(Table(map[], 0), InstallOp(slot, o));
    assert After(ops[..3]) == Step(After(ops[..3][..2]), InstallOp(slot, o));
  }

  /** Once the numbers run out, firing a spent arm takes its replacement. */
  lemma SaturatedArmsCollide(t: Table, slot: Slot)
    requires t.next == MAX_ORDINAL
    ensures var rearmed := Step(Step(t, ArmOp(slot)), ArmOp(slot));
      Fires(rearmed, slot, Step(t, ArmOp(slot)).armed[slot])
  {
  }

  /** The map an object of class `Slots` holds, without its values. */
  function TableOf<V>(armed: Armed<V>, next: Ordinal): Table {
    Table(Ordinals(armed), next)
  }

  function Ordinals<V>(armed: Armed<V>): map<Slot, Ordinal> {
    map slot | slot in armed :: armed[slot].ordinal
  }

  /** The methods of `Slots` do what the operations say. */
  lemma MethodsAreSteps<V>(armed: Armed<V>, next: Ordinal, slot: Slot, o: Ordinal, value: V)
    ensures TableOf(armed[slot := Entry(next, value)], NextOrdinal(next)) == Step(TableOf(armed, next), ArmOp(slot))
    ensures TableOf(armed[slot := Entry(o, value)], next) == Step(TableOf(armed, next), InstallOp(slot, o))
    ensures TableOf(Fired(armed, slot, o), next) == Step(TableOf(armed, next), FireOp(slot, o))
    ensures IsCurrent(armed, slot, o) <==> Fires(TableOf(armed, next), slot, o)
    ensures TableOf(armed - {slot}, next) == Step(TableOf(armed, next), ClearOp(slot))
  {
  }

  // ---------------------------------------------------------------------
  // The actor that arms and the driver that installs and fires
  // ---------------------------------------------------------------------

  datatype Driver = Driver(armed: Armed<Key>, deadlines: Deadlines)

  /** `out` holds the arms emitted and not yet drained; `scheduled` and `fired` record history. */
  datatype State = State(actor: Table, out: seq<TimerArm>, driver: Driver, scheduled: nat, fired: seq<TimerArm>)

  datatype Action =
    | Schedule(timer: Timer, at: nat)
    /** The driver installs every emitted arm, in order. */
    | Drain
    /** The driver pops `key` at `now`, and the actor clears the slot of the fired timer. */
    | Pop(key: Key, now: nat)

  const INIT: State := State(Table(map[], 0), [], Driver(map[], map[]), 0, [])

  function InstallOne(d: Driver, arm: TimerArm): Driver {
    Driver(d.armed[arm.slot := Entry(arm.ordinal, KeyOf(arm))],
           Installed(d.deadlines, ValueAt(d.armed, arm.slot), arm))
  }

  function InstallAll(d: Driver, arms: seq<TimerArm>): Driver
    decreases |arms|
  {
    if arms == [] then d else InstallAll(InstallOne(d, arms[0]), arms[1..])
  }

  /** A popped key is the first, is due, and is popped between drains. */
  predicate CanPop(s: State, key: Key, now: nat) {
    s.out == [] && IsFirst(key, s.driver.deadlines.Keys) && key.at <= now
  }

  function Apply(s: State, a: Action): State {
    match a
    case Schedule(timer, at) =>
      s.(actor := Step(s.actor, ArmOp(timer.slot)),
         out := s.out + [TimerArm(timer.slot, s.actor.next, timer, at)], scheduled := s.scheduled + 1)
    case Drain => s.(driver := InstallAll(s.driver, s.out), out := [])
    case Pop(key, now) =>
      if !CanPop(s, key, now) then s
      else
        var arm := s.driver.deadlines[key];
        if !IsCurrent(s.driver.armed, arm.slot, arm.ordinal) then
          s.(driver := s.driver.(deadlines := s.driver.deadlines - {key}))
        else
          s.(driver := Driver(s.driver.armed - {arm.slot}, s.driver.deadlines - {key}),
             actor := Step(s.actor, ClearOp(arm.slot)), fired := s.fired + [arm])
  }

  function Run(s: State, actions: seq<Action>): State
    decreases |actions|
  {
    if actions == [] then s else Run(Apply(s, actions[0]), actions[1..])
  }

  function Schedules(actions: seq<Action>): nat {
    if actions == [] then 0 else (if actions[0].Schedule? then 1 else 0) + Schedules(actions[1..])
  }

  predicate Below(d: Driver, bound: nat) {
    && (forall slot <- d.armed :: d.armed[slot].ordinal < bound)
    && (forall key <- d.deadlines :: key.ordinal < bound)
  }

  /** The maps agree and no ordinal is queued twice. */
  ghost predicate DriverInv(d: Driver) {
    && Paired(d.armed, d.deadlines)
    && (forall j, k :: j in d.deadlines && k in d.deadlines && j.ordinal == k.ordinal ==> j == k)
  }

  predicate OutInv(out: seq<TimerArm>, base: nat) {
    forall i :: 0 <= i < |out| ==> out[i].ordinal == base + i
  }

  predicate FiredInv(fired: seq<TimerArm>, deadlines: Deadlines, base: nat) {
    && (forall i :: 0 <= i < |fired| ==> fired[i].ordinal < base)
    && (forall i, j :: 0 <= i < j < |fired| ==> fired[i].ordinal != fired[j].ordinal)
    && (forall i, key :: 0 <= i < |fired| && key in deadlines ==> fired[i].ordinal != key.ordinal)
  }

  /** Installing what is still on its way would bring the driver level with the actor. */
  ghost predicate Inv(s: State) {
    && s.scheduled <= MAX_ORDINAL + 1 && s.actor.next == Numbered(s.scheduled) && |s.out| <= s.scheduled
    && DriverInv(s.driver) && Below(s.driver, s.scheduled - |s.out|)
    && OutInv(s.out, s.scheduled - |s.out|) && FiredInv(s.fired, s.driver.deadlines, s.scheduled - |s.out|)
    && Ordinals(InstallAll(s.driver, s.out).armed) == s.actor.armed
  }

  lemma InstalledIsPaired(d: Driver, arm: TimerArm)
    requires Paired(d.armed, d.deadlines) && Below(d, arm.ordinal)
    ensures Paired(InstallOne(d, arm).armed, InstallOne(d, arm).deadlines)
  {
    var e := InstallOne(d, arm);
    forall slot | slot in e.armed
      ensures e.armed[slot].value in e.deadlines && e.deadlines[e.armed[slot].value].slot == slot
    {
      if slot != arm.slot { assert d.armed[slot].value in d.deadlines; }
    }
  }

  lemma InstallOneKeeps(d: Driver, arm: TimerArm)
    requires DriverInv(d) && Below(d, arm.ordinal)
    ensures DriverInv(InstallOne(d, arm)) && Below(InstallOne(d, arm), arm.ordinal + 1)
    ensures forall key <- InstallOne(d, arm).deadlines :: key in d.deadlines || key.ordinal == arm.ordinal
  {
    InstalledIsPaired(d, arm);
  }

  lemma {:induction false} InstallAllKeeps(d: Driver, arms: seq<TimerArm>, base: nat)
    requires DriverInv(d) && Below(d, base) && OutInv(arms, base)
    ensures DriverInv(InstallAll(d, arms)) && Below(InstallAll(d, arms), base + |arms|)
    ensures forall key <- InstallAll(d, arms).deadlines :: key in d.deadlines || key.ordinal >= base
    decreases |arms|
  {
    if arms != [] {
      InstallOneKeeps(d, arms[0]);
      InstallAllKeeps(InstallOne(d, arms[0]), arms[1..], base + 1);
    }
  }

  lemma {:induction false} InstallAllSnoc(d: Driver, arms: seq<TimerArm>, arm: TimerArm)
    ensures InstallAll(d, arms + [arm]) == InstallOne(InstallAll(d, arms), arm)
    decreases |arms|
  {
    if arms == [] {
      assert [arm][1..] == [];
    } else {
      assert (arms + [arm])[1..] == arms[1..] + [arm];
      InstallAllSnoc(InstallOne(d, arms[0]), arms[1..], arm);
    }
  }

  lemma ScheduleKeeps(s: State, timer: Timer, at: nat)
    requires Inv(s) && s.scheduled <= MAX_ORDINAL
    ensures Inv(Apply(s, Schedule(timer, at)))
  {
    var arm := TimerArm(timer.slot, s.actor.next, timer, at);
    InstallAllSnoc(s.driver, s.out, arm);
    OrdinalsWith(InstallAll(s.driver, s.out).armed, arm.slot, Entry(arm.ordinal, KeyOf(arm)));
    assert OutInv(s.out + [arm], s.scheduled - |s.out|);
  }

  lemma OrdinalsWith<V>(armed: Armed<V>, slot: Slot, entry: Entry<V>)
    ensures Ordinals(armed[slot := entry]) == Ordinals(armed)[slot := entry.ordinal]
  {
  }

  lemma DrainKeeps(s: State)
    requires Inv(s)
    ensures Inv(Apply(s, Drain))
  {
    InstallAllKeeps(s.driver, s.out, s.scheduled - |s.out|);
  }

  lemma RemoveKeeps(d: Driver, key: Key)
    requires DriverInv(d) && key in d.deadlines
    ensures IsCurrent(d.armed, d.deadlines[key].slot, key.ordinal)
    ensures DriverInv(Driver(d.armed - {d.deadlines[key].slot}, d.deadlines - {key}))
    ensures forall other <- d.deadlines - {key} :: other.ordinal != key.ordinal
  {
  }

  lemma FireOneKeeps(fired: seq<TimerArm>, deadlines: Deadlines, base: nat, key: Key)
    requires FiredInv(fired, deadlines, base) && key in deadlines && key.ordinal < base
    requires deadlines[key].ordinal == key.ordinal
    requires forall other <- deadlines - {key} :: other.ordinal != key.ordinal
    ensures FiredInv(fired + [deadlines[key]], deadlines - {key}, base)
  {
  }

  lemma PopKeeps(s: State, key: Key, now: nat)
    requires Inv(s)
    ensures Inv(Apply(s, Pop(key, now)))
  {
    if CanPop(s, key, now) {
      var arm := s.driver.deadlines[key];
      var d := Driver(s.driver.armed - {arm.slot}, s.driver.deadlines - {key});
      RemoveKeeps(s.driver, key);
      FireOneKeeps(s.fired, s.driver.deadlines, s.scheduled, key);
      OrdinalsWithout(s.driver.armed, arm.slot);
      var actor := Step(s.actor, ClearOp(arm.slot));
      assert Apply(s, Pop(key, now)) == s.(driver := d, actor := actor, fired := s.fired + [arm]);
    }
  }

  lemma OrdinalsWithout<V>(armed: Armed<V>, slot: Slot)
    ensures Ordinals(armed - {slot}) == Ordinals(armed) - {slot}
  {
  }

  lemma {:induction false} RunKeepsInv(s: State, actions: seq<Action>)
    requires Inv(s) && s.scheduled + Schedules(actions) <= MAX_ORDINAL + 1
    ensures Inv(Run(s, actions))
    decreases |actions|
  {
    if actions != [] {
      match actions[0] {
        case Schedule(timer, at) => ScheduleKeeps(s, timer, at);
        case Drain => DrainKeeps(s);
        case Pop(key, now) => PopKeeps(s, key, now);
      }
      RunKeepsInv(Apply(s, actions[0]), actions[1..]);
    }
  }

  lemma Reached(actions: seq<Action>)
    requires Schedules(actions) <= MAX_ORDINAL + 1
    ensures Inv(Run(INIT, actions))
  {
    assert Ordinals(INIT.driver.armed) == map[];
    RunKeepsInv(INIT, actions);
  }

  /** The driver holds exactly the actor's arms, and as many deadlines. */
  ghost predicate SidesAgree(s: State) {
    && Ordinals(s.driver.armed) == s.actor.armed && Paired(s.driver.armed, s.driver.deadlines)
    && |s.driver.deadlines| == |s.actor.armed|
  }

  /** After a drain the sides agree, while there are numbers for all arms. */
  lemma DrainedSidesAgree(actions: seq<Action>)
    requires Schedules(actions) <= MAX_ORDINAL + 1
    ensures SidesAgree(Apply(Run(INIT, actions), Drain))
  {
    Reached(actions);
    var s := Run(INIT, actions);
    DrainKeeps(s);
    var t := Apply(s, Drain);
    PairedSizes(t.driver.armed, t.driver.deadlines);
    assert t.actor.armed.Keys == t.driver.armed.Keys;
  }

  /** Over a whole run no arm fires twice, and each fires as its slot's newest arm, when due, earliest first. */
  lemma EachArmFiresOnce(actions: seq<Action>, key: Key, now: nat)
    requires Schedules(actions) <= MAX_ORDINAL + 1
    ensures var s := Run(INIT, actions);
      && (forall i, j :: 0 <= i < j < |s.fired| ==> s.fired[i].ordinal != s.fired[j].ordinal)
      && (CanPop(s, key, now) ==>
            var arm := s.driver.deadlines[key];
            && Apply(s, Pop(key, now)).fired == s.fired + [arm] && arm.at <= now
            && Fires(s.actor, arm.slot, arm.ordinal)
            && (forall other <- s.driver.deadlines ::
                  key.at < other.at || (key.at == other.at && key.ordinal <= other.ordinal)))
  {
    Reached(actions);
  }

  /** Between drains, as soon as one installed arm is due, some arm fires. */
  lemma DueArmFires(actions: seq<Action>, due: Key, now: nat) returns (key: Key)
    requires Schedules(actions) <= MAX_ORDINAL + 1
    requires var s := Run(INIT, actions);
      s.out == [] && due in s.driver.deadlines && s.driver.deadlines[due].at <= now
    ensures var s := Run(INIT, actions); CanPop(s, key, now) && |Apply(s, Pop(key, now)).fired| == |s.fired| + 1
  {
    Reached(actions);
    var s := Run(INIT, actions);
    FirstExists(s.driver.deadlines.Keys);
    key :| IsFirst(key, s.driver.deadlines.Keys);
    assert AtOrBefore(key, due);
    EachArmFiresOnce(actions, key, now);
  }

  /** The two maps of a queue are of one size. */
  lemma {:induction false} PairedSizes(armed: Armed<Key>, deadlines: Deadlines)
    requires Paired(armed, deadlines)
    ensures |armed| == |deadlines|
    decreases |armed|
  {
    if armed.Keys == {} {
      assert deadlines.Keys == {};
      assert |armed.Keys| == 0 && |deadlines.Keys| == 0;
    } else {
      var slot :| slot in armed.Keys;
      var key := armed[slot].value;
      assert (armed - {slot}).Keys == armed.Keys - {slot};
      assert (deadlines - {key}).Keys == deadlines.Keys - {key};
      assert |armed.Keys - {slot}| == |armed.Keys| - 1;
      assert |deadlines.Keys - {key}| == |deadlines.Keys| - 1;
      PairedSizes(armed - {slot}, deadlines - {key});
    }
  }

  /** Two arms on one number for one instant share a key, and the first is lost. */
  lemma SaturatedInstallLosesTimer(d: Driver, first: TimerArm, second: TimerArm)
    requires first.slot != second.slot && KeyOf(first) == KeyOf(second)
    requires forall key <- d.deadlines :: d.deadlines[key].slot != first.slot
    ensures var e := InstallOne(InstallOne(d, first), second);
      first.slot in e.armed && forall key <- e.deadlines :: e.deadlines[key].slot != first.slot
  {
  }

  function Zeros(n: nat): seq<Action> {
    seq(n, _ => Schedule(Timer(0, 0), 0))
  }

  lemma {:induction false} RunSnoc(s: State, actions: seq<Action>, a: Action)
    ensures Run(s, actions + [a]) == Apply(Run(s, actions), a)
    ensures Schedules(actions + [a]) == Schedules(actions) + if a.Schedule? then 1 else 0
    decreases |actions|
  {
    if actions == [] {
      assert [a][1..] == [];
    } else {
      assert (actions + [a])[1..] == actions[1..] + [a];
      RunSnoc(Apply(s, actions[0]), actions[1..], a);
    }
  }

  /** Scheduling one slot over and over, without a drain. */
  lemma {:induction false} ZerosRun(n: nat)
    ensures var s := Run(INIT, Zeros(n));
      && s.actor.next == Numbered(n) && s.driver == INIT.driver
      && forall i :: 0 <= i < |s.out| ==> s.out[i].slot == 0
    ensures Schedules(Zeros(n)) == n
  {
    if n > 0 {
      ZerosRun(n - 1);
      RunSnoc(INIT, Zeros(n - 1), Schedule(Timer(0, 0), 0));
      assert Zeros(n) == Zeros(n - 1) + [Schedule(Timer(0, 0), 0)];
    }
  }

  lemma {:induction false} InstallZeros(d: Driver, arms: seq<TimerArm>)
    requires forall i :: 0 <= i < |arms| ==> arms[i].slot == 0
    requires forall key <- d.deadlines :: d.deadlines[key].slot == 0
    ensures forall key <- InstallAll(d, arms).deadlines :: InstallAll(d, arms).deadlines[key].slot == 0
    decreases |arms|
  {
    if arms != [] { InstallZeros(InstallOne(d, arms[0]), arms[1..]); }
  }

  /** One arm more than there are numbers, and some run loses a timer. */
  lemma LateArmsAreLost(n: nat) returns (actions: seq<Action>)
    requires n > MAX_ORDINAL + 1
    ensures Schedules(actions) == n && !SidesAgree(Apply(Run(INIT, actions), Drain))
  {
    var a, b := Schedule(Timer(1, 0), 0), Schedule(Timer(2, 0), 0);
    actions := Zeros(n - 2) + [a] + [b];
    ZerosRun(n - 2);
    RunSnoc(INIT, Zeros(n - 2), a);
    RunSnoc(INIT, Zeros(n - 2) + [a], b);
    var s0 := Run(INIT, Zeros(n - 2));
    var s := Run(INIT, actions);
    var first, second := TimerArm(1, MAX_ORDINAL, Timer(1, 0), 0), TimerArm(2, MAX_ORDINAL, Timer(2, 0), 0);
    assert s.out == s0.out + [first] + [second];
    var d := InstallAll(INIT.driver, s0.out);
    InstallZeros(INIT.driver, s0.out);
    InstallAllSnoc(INIT.driver, s0.out, first);
    InstallAllSnoc(INIT.driver, s0.out + [first], second);
    SaturatedInstallLosesTimer(d, first, second);
  }

  /** Runs that schedule `n` arms always leave the sides in agreement exactly when there are numbers for all of them. */
  lemma SidesAgreeExactly(n: nat)
    ensures (forall actions :: Schedules(actions) == n ==> SidesAgree(Apply(Run(INIT, actions), Drain))) <==>
      n <= 0x1_0000_0000_0000_0000
  {
    if n > MAX_ORDINAL + 1 {
      var actions := LateArmsAreLost(n);
    } else {
      forall actions | Schedules(actions) == n ensures SidesAgree(Apply(Run(INIT, actions), Drain)) {
        DrainedSidesAgree(actions);
      }
    }
  }
}
