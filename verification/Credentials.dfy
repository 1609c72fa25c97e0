/**
 * Managed credential rotation: `celld credentials refresh` under the
 * installation lock, the background acknowledgement at start-up, and the
 * control plane that accepts both tokens until an acknowledgement reaches it.
 *
 * A process may stop after any step. A sent acknowledgement may reach the
 * control plane at any later time, again and again, or never. The control
 * plane stages one replacement at a time, never under a handoff id it used
 * before. Saving is a rename, so the record is the old one or the new one.
 */
module Credentials {
  import opened Prelude

  const MAX_VERSION: nat := 0xFFFF_FFFF_FFFF_FFFF
  const MAX_FIELD: nat := 500

  /** Where an installation's data lives. */
  datatype Target = Target(bucket: string, endpoint: string, region: string)

  datatype Storage = Storage(target: Target, accessKey: string, secretKey: string, sessionToken: Option<string>)

  datatype Replacement = Replacement(status: string, handoff: string, version: nat, token: string, storage: Storage)

  datatype Previous = Previous(token: string, version: nat, storage: Storage)

  /** The installation record. */
  datatype Config = Config(
    token: Option<string>, version: nat, storage: Option<Storage>,
    handoff: Option<string>, previous: Option<Previous>)

  datatype Refusal = UnexpectedStatus | NotNextVersion | OtherTarget | InvalidField

  /** The control plane: the settled token, and the replacement it has staged. */
  datatype Plane = Plane(current: string, staged: Option<Replacement>, used: set<string>, acked: set<string>)

  datatype Phase =
    | Ready
    | Offered(replacement: Replacement)
    | Saved(handoff: string)
    | AwaitingAck(handoff: string)
    | Acked(handoff: string)

  /** Who holds the installation lock, with its copy of the record. */
  datatype Holder = Nobody | Refresh(phase: Phase, config: Config) | Retry(task: nat, config: Config)

  /** A background acknowledgement. */
  datatype Task = Sending(handoff: string) | Confirmed(handoff: string)

  datatype Ack = Ack(token: string, handoff: string)

  /** `saved` and `rotations` record history: handoffs ever saved, and replacements saved since the start. */
  datatype State = State(
    disk: Config, plane: Plane, holder: Holder, tasks: map<nat, Task>, sent: set<Ack>,
    saved: set<string>, rotations: nat)

  datatype Action =
    | Stage(replacement: Replacement)
    | Deliver(ack: Ack)
    | Begin
    | Ask
    | Save
    | SendAck
    | AckAnswered
    | Clear
    /** The lock holder stops: a crash, a failed request, a failed save. */
    | Stop
    | Spawn(task: nat)
    | TaskAnswered(task: nat)
    | TaskLock(task: nat)
    | TaskClear(task: nat)
    | TaskDies(task: nat)

  function NextVersion(version: nat): nat {
    if version < MAX_VERSION then version + 1 else version
  }

  predicate ValidField(value: string) {
    value != "" && |value| <= MAX_FIELD
  }

  /** `validate_credential_rotation`: `None` accepts. */
  function Validate(r: Replacement, config: Config, storage: Storage): Option<Refusal> {
    if r.status != "rotation_pending" then Some(UnexpectedStatus)
    else if r.version != NextVersion(config.version) then Some(NotNextVersion)
    else if r.storage.target != storage.target then Some(OtherTarget)
    else if ValidField(r.handoff) && ValidField(r.token) && ValidField(r.storage.accessKey)
      && ValidField(r.storage.secretKey) then None
    else Some(InvalidField)
  }

  predicate Enrolled(config: Config) {
    config.token.Some? && config.storage.Some?
  }

  function Adopted(config: Config, r: Replacement): Config
    requires Enrolled(config)
  {
    Config(Some(r.token), r.version, Some(r.storage), Some(r.handoff),
           Some(Previous(config.token.value, config.version, config.storage.value)))
  }

  function Cleared(config: Config): Config {
    config.(handoff := None, previous := None)
  }

  predicate Accepts(plane: Plane, token: string) {
    token == plane.current || (plane.staged.Some? && token == plane.staged.value.token)
  }

  /** An acknowledgement settles the staged replacement it names, and nothing else. */
  function Acknowledge(plane: Plane, ack: Ack): Plane {
    if Accepts(plane, ack.token) && plane.staged.Some? && plane.staged.value.handoff == ack.handoff then
      plane.(current := plane.staged.value.token, staged := None, acked := plane.acked + {ack.handoff})
    else plane
  }

  function ApplyPlane(s: State, a: Action): State
    requires a.Stage? || a.Deliver?
  {
    match a
    case Stage(r) =>
      if s.plane.staged.None? && r.handoff !in s.plane.used then
        s.(plane := s.plane.(staged := Some(r), used := s.plane.used + {r.handoff}))
      else s
    case Deliver(ack) =>
      if ack in s.sent then s.(plane := Acknowledge(s.plane, ack)) else s
  }

  /** The staged replacement arrives, is checked and saved. */
  function SaveReplacement(s: State, r: Replacement, config: Config): State {
    if !Enrolled(config) || Validate(r, config, config.storage.value).Some? then s.(holder := Nobody)
    else
      s.(disk := Adopted(config, r), holder := Refresh(Saved(r.handoff), Adopted(config, r)),
         saved := s.saved + {r.handoff}, rotations := s.rotations + 1)
  }

  function BeginRefresh(s: State): State {
    if s.holder != Nobody || !Enrolled(s.disk) then s
    else if s.disk.handoff.Some? then s.(holder := Refresh(Saved(s.disk.handoff.value), s.disk))
    else s.(holder := Refresh(Ready, s.disk))
  }

  function ApplyRefresh(s: State, a: Action): State
    requires a.Ask? || a.Save? || a.SendAck? || a.AckAnswered? || a.Clear?
  {
    match s.holder
    case Refresh(Ready, config) =>
      if !a.Ask? || config.token.None? then s
      else if Accepts(s.plane, config.token.value) && s.plane.staged.Some? then
        s.(holder := Refresh(Offered(s.plane.staged.value), config))
      else s.(holder := Nobody)
    case Refresh(Offered(r), config) => if a.Save? then SaveReplacement(s, r, config) else s
    case Refresh(Saved(h), config) =>
      if a.SendAck? && config.token.Some? then
        s.(holder := Refresh(AwaitingAck(h), config), sent := s.sent + {Ack(config.token.value, h)})
      else s
    case Refresh(AwaitingAck(h), config) =>
      if a.AckAnswered? && h in s.plane.acked then s.(holder := Refresh(Acked(h), config)) else s
    case Refresh(Acked(h), config) =>
      if a.Clear? then s.(disk := Cleared(config), holder := Nobody) else s
    case _ => s
  }

  function ApplyTask(s: State, a: Action, k: nat): State
    requires a.Spawn? || a.TaskAnswered? || a.TaskLock? || a.TaskClear? || a.TaskDies?
  {
    match a
    case Spawn(_) =>
      if s.holder == Nobody && k !in s.tasks && s.disk.handoff.Some? && s.disk.token.Some? then
        s.(tasks := s.tasks[k := Sending(s.disk.handoff.value)],
           sent := s.sent + {Ack(s.disk.token.value, s.disk.handoff.value)})
      else s
    case TaskAnswered(_) =>
      if k in s.tasks && s.tasks[k].Sending? && s.tasks[k].handoff in s.plane.acked then
        s.(tasks := s.tasks[k := Confirmed(s.tasks[k].handoff)])
      else s
    case TaskLock(_) =>
      if k in s.tasks && s.tasks[k].Confirmed? && s.holder == Nobody then s.(holder := Retry(k, s.disk)) else s
    case TaskClear(_) =>
      if s.holder.Retry? && s.holder.task == k && k in s.tasks then
        s.(disk := if s.holder.config.handoff == Some(s.tasks[k].handoff) then Cleared(s.holder.config) else s.disk,
           holder := Nobody, tasks := s.tasks - {k})
      else s
    case TaskDies(_) =>
      s.(tasks := s.tasks - {k}, holder := if s.holder.Retry? && s.holder.task == k then Nobody else s.holder)
  }

  function Apply(s: State, a: Action): State {
    match a
    case Stage(_) => ApplyPlane(s, a)
    case Deliver(_) => ApplyPlane(s, a)
    case Begin => BeginRefresh(s)
    case Stop => if s.holder.Refresh? then s.(holder := Nobody) else s
    case Spawn(k) => ApplyTask(s, a, k)
    case TaskAnswered(k) => ApplyTask(s, a, k)
    case TaskLock(k) => ApplyTask(s, a, k)
    case TaskClear(k) => ApplyTask(s, a, k)
    case TaskDies(k) => ApplyTask(s, a, k)
    case _ => ApplyRefresh(s, a)
  }

  function Run(s: State, actions: seq<Action>): State
    decreases |actions|
  {
    if actions == [] then s else Run(Apply(s, actions[0]), actions[1..])
  }
}
