/** Versioned timer slots, and the deadline queue built on them. */
module TimerSlots {
  import opened Prelude

  const MAX_ORDINAL: nat := 0xFFFF_FFFF_FFFF_FFFF

  type Ordinal = n: nat | n <= MAX_ORDINAL

  type Slot = nat

  /** What is scheduled; several timers can share a slot. */
  datatype Timer = Timer(slot: Slot, detail: nat)

  datatype TimerArm = TimerArm(slot: Slot, ordinal: Ordinal, timer: Timer, at: nat)

  datatype Entry<V> = Entry(ordinal: Ordinal, value: V)

  type Armed<V> = map<Slot, Entry<V>>

  function NextOrdinal(ordinal: Ordinal): Ordinal {
    if ordinal < MAX_ORDINAL then ordinal + 1 else ordinal
  }

  function ValueAt<V>(armed: Armed<V>, slot: Slot): Option<V> {
    if slot in armed then Some(armed[slot].value) else None
  }

  predicate IsCurrent<V>(armed: Armed<V>, slot: Slot, ordinal: Ordinal) {
    slot in armed && armed[slot].ordinal == ordinal
  }

  function Fired<V>(armed: Armed<V>, slot: Slot, ordinal: Ordinal): Armed<V> {
    if IsCurrent(armed, slot, ordinal) then armed - {slot} else armed
  }

  class Slots<V> {
    var armed: Armed<V>
    var nextOrdinal: Ordinal

    constructor ()
      ensures armed == map[] && nextOrdinal == 0
    {
      armed, nextOrdinal := map[], 0;
    }

    method Arm(timer: Timer, at: nat, value: V) returns (arm: TimerArm, displaced: Option<V>)
      modifies this
      ensures arm == TimerArm(timer.slot, old(nextOrdinal), timer, at)
      ensures nextOrdinal == NextOrdinal(old(nextOrdinal))
      ensures armed == old(armed)[timer.slot := Entry(old(nextOrdinal), value)]
      ensures displaced == ValueAt(old(armed), timer.slot)
    {
      var ordinal := nextOrdinal;
      nextOrdinal := NextOrdinal(ordinal);
      arm := TimerArm(timer.slot, ordinal, timer, at);
      displaced := Replace(timer.slot, ordinal, value);
    }

    method Install(arm: TimerArm, value: V) returns (displaced: Option<V>)
      modifies `armed
      ensures armed == old(armed)[arm.slot := Entry(arm.ordinal, value)]
      ensures displaced == ValueAt(old(armed), arm.slot)
    {
      displaced := Replace(arm.slot, arm.ordinal, value);
    }

    method Replace(slot: Slot, ordinal: Ordinal, value: V) returns (displaced: Option<V>)
      modifies `armed
      ensures armed == old(armed)[slot := Entry(ordinal, value)]
      ensures displaced == ValueAt(old(armed), slot)
    {
      displaced := if slot in armed then Some(armed[slot].value) else None;
      armed := armed[slot := Entry(ordinal, value)];
    }

    method Fire(slot: Slot, ordinal: Ordinal) returns (value: Option<V>)
      modifies `armed
      ensures armed == Fired(old(armed), slot, ordinal)
      ensures value == if IsCurrent(old(armed), slot, ordinal) then ValueAt(old(armed), slot) else None
    {
      value := None;
      if slot in armed && armed[slot].ordinal == ordinal {
        value := Some(armed[slot].value);
        armed := armed - {slot};
      }
    }

    method ClearSlot(slot: Slot)
      modifies `armed
      ensures armed == old(armed) - {slot}
    {
      armed := armed - {slot};
    }
  }

  // ---------------------------------------------------------------------
  // The deadline queue
  // ---------------------------------------------------------------------

  datatype Key = Key(at: nat, ordinal: Ordinal)

  predicate AtOrBefore(a: Key, b: Key) {
    a.at < b.at || (a.at == b.at && a.ordinal <= b.ordinal)
  }

  predicate IsFirst(k: Key, keys: set<Key>) {
    k in keys && forall j <- keys :: AtOrBefore(k, j)
  }

  function KeyOf(arm: TimerArm): Key {
    Key(arm.at, arm.ordinal)
  }

  type Deadlines = map<Key, TimerArm>

  /** The two maps hold the same arms: each slot's entry names the deadline entry of its arm. */
  ghost predicate Paired(armed: Armed<Key>, deadlines: Deadlines) {
    && (forall slot <- armed :: armed[slot].value in deadlines && deadlines[armed[slot].value].slot == slot)
    && (forall key <- deadlines :: key == KeyOf(deadlines[key])
          && deadlines[key].slot in armed && armed[deadlines[key].slot] == Entry(key.ordinal, key))
  }

  function Installed(deadlines: Deadlines, displaced: Option<Key>, arm: TimerArm): Deadlines {
    (if displaced.Some? then deadlines - {displaced.value} else deadlines)[KeyOf(arm) := arm]
  }

  /** A non-empty queue has a first key. */
  lemma {:induction false} FirstExists(keys: set<Key>)
    requires keys != {}
    ensures exists k :: IsFirst(k, keys)
  {
    var k :| k in keys;
    if keys - {k} == {} {
      assert keys == {k};
      assert IsFirst(k, keys);
    } else {
      FirstExists(keys - {k});
      var m :| IsFirst(m, keys - {k});
      var first := if AtOrBefore(k, m) then k else m;
      forall j | j in keys ensures AtOrBefore(first, j) {
        if j != k { assert j in keys - {k} && AtOrBefore(m, j); }
      }
      assert IsFirst(first, keys);
    }
  }

  class Timers {
    const slots: Slots<Key>
    var byDeadline: Deadlines

    constructor ()
      ensures slots.armed == map[] && byDeadline == map[] && fresh(slots)
    {
      slots := new Slots();
      byDeadline := map[];
    }

    method Install(arm: TimerArm)
      modifies this, slots
      ensures slots.armed == old(slots.armed)[arm.slot := Entry(arm.ordinal, Key(arm.at, arm.ordinal))]
      ensures byDeadline == Installed(old(byDeadline), ValueAt(old(slots.armed), arm.slot), arm)
    {
      var key := Key(arm.at, arm.ordinal);
      var displaced := slots.Install(arm, key);
      if displaced.Some? {
        byDeadline := byDeadline - {displaced.value};
      }
      byDeadline := byDeadline[key := arm];
    }

    method First() returns (key: Option<Key>)
      ensures key.None? <==> byDeadline == map[]
      ensures key.Some? ==> IsFirst(key.value, byDeadline.Keys)
    {
      if byDeadline.Keys == {} {
        return None;
      }
      FirstExists(byDeadline.Keys);
      var first :| IsFirst(first, byDeadline.Keys);
      key := Some(first);
    }

    method NextDeadline() returns (at: Option<nat>)
      ensures at.None? <==> byDeadline == map[]
      ensures at.Some? ==>
        && (exists key <- byDeadline :: key.at == at.value) && (forall key <- byDeadline :: at.value <= key.at)
    {
      var first := First();
      at := if first.Some? then Some(first.value.at) else None;
    }

    /**
     * Takes the earliest arm when it is due, oldest first among equal deadlines, and fires it if it is its
     * slot's current arm. On a paired queue it always is.
     */
    method PopDue(now: nat) returns (timer: Option<Timer>)
      modifies this, slots
      ensures (forall key <- old(byDeadline) :: key.at > now) ==>
        timer == None && slots.armed == old(slots.armed) && byDeadline == old(byDeadline)
      ensures (exists key <- old(byDeadline) :: key.at <= now) ==>
        exists key ::
          && key in old(byDeadline) && key.at <= now && byDeadline == old(byDeadline) - {key}
          && (forall other <- old(byDeadline) ::
                key.at < other.at || (key.at == other.at && key.ordinal <= other.ordinal))
          && var arm := old(byDeadline)[key];
          && slots.armed == Fired(old(slots.armed), arm.slot, arm.ordinal)
          && timer == if IsCurrent(old(slots.armed), arm.slot, arm.ordinal) then Some(arm.timer) else None
      ensures old(Paired(slots.armed, byDeadline)) ==>
        && Paired(slots.armed, byDeadline)
        && (timer.None? <==> forall key <- old(byDeadline) :: key.at > now)
    {
      var first := First();
      if first.None? || first.value.at > now {
        return None;
      }
      var key := first.value;
      var arm := byDeadline[key];
      byDeadline := byDeadline - {key};
      var fired := slots.Fire(arm.slot, arm.ordinal);
      timer := if fired.Some? then Some(arm.timer) else None;
    }
  }
}
