/**
 * One cell, its ownership record, its epoch prefixes, and the nodes that
 * compete for it.
 *
 * Every bucket access is one atomic step. A conditional write is first sent
 * and decided later, at any time or never, and its sender hears the outcome
 * or only that it is unknown. Leases are not modelled: a node may claim
 * whatever record it reads, so the theorems need no clock.
 */
module Ownership {
  import opened Prelude

  /** A node session, by number. */
  type Node = nat
  type Write = nat

  /** `cells/<cell>/own.json`; `node` is `None` for a released cell. */
  datatype Record = Record(node: Option<Node>, epoch: nat, etag: nat)

  datatype Guard = Absent | Match(etag: nat)

  predicate GuardHolds(record: Option<Record>, guard: Guard) {
    match guard
    case Absent => record.None?
    case Match(etag) => record.Some? && record.value.etag == etag
  }

  datatype Status = Pending | Applied | Rejected

  /** A conditional write of the record: a claim, or a release that blanks the node. */
  datatype Op =
    | Claim(node: Node, guard: Guard, epoch: nat, takeover: bool, status: Status)
    | Release(node: Node, guard: Guard, epoch: nat, status: Status)

  /** The record, every conditional write sent to it, and which node was granted which epoch. */
  datatype Store = Store(record: Option<Record>, nextEtag: nat, ops: seq<Op>, granted: map<nat, Node>)

  /** What a restore of one epoch prefix yields, and the proven log position. */
  datatype Prefix = Prefix(content: set<Write>, position: nat)

  /** An unconditional LTX upload that was sent and can land at any time. */
  datatype Upload = Upload(epoch: nat, content: set<Write>, position: nat)

  datatype Ack = Ack(epoch: nat, write: Write)

  /**
   * The LTX prefixes, the uploads sent, each node's local eviction snapshots,
   * and the history: what each activation started from and what was
   * acknowledged.
   */
  datatype Data = Data(
    prefixes: map<nat, Prefix>,
    uploads: seq<Upload>,
    snapshots: map<(Node, nat), set<Write>>,
    restored: map<nat, set<Write>>,
    acked: set<Ack>)

  /** What one node is doing with the cell. */
  datatype Phase =
    | Idle
    /** The first read found no record; the LTX listing comes next. */
    | Listing(reconciling: Option<nat>)
    /** The listing found LTX; the record is read again. */
    | Rereading(reconciling: Option<nat>)
    /** LTX exists and the record is gone: the claim is refused. */
    | Refused
    | Acquiring(op: nat)
    | Reconciling(op: nat)
    | Restoring(epoch: nat, newCell: bool, takeover: bool)
    /** The restore has listed the epoch prefixes and chosen `source`. */
    | Downloading(epoch: nat, source: Option<nat>)
    | Resident(epoch: nat, base: set<Write>, log: seq<Write>)

  datatype State = State(store: Store, data: Data, phases: map<Node, Phase>)

  const Init := State(Store(None, 0, [], map[]), Data(map[], [], map[], map[], {}), map[])

  datatype Action =
    | ReadRecord(node: Node)
    | ListLtx(node: Node)
    | ReadAgain(node: Node)
    | Decide(op: nat)
    | Answer(node: Node, known: bool)
    | Reconcile(node: Node)
    | ListEpochs(node: Node, newest: Option<nat>)
    | Download(node: Node)
    | LocalWrite(node: Node, write: Write)
    | SendUpload(node: Node, position: nat)
    | LandUpload(upload: nat)
    | VerifyAndAck(node: Node, position: nat)
    | Evict(node: Node)
    | SendRelease(node: Node)
    | Abandon(node: Node)
    /** Outside interference: something deletes the record. */
    | LoseRecord

  function PhaseOf(s: State, node: Node): Phase {
    if node in s.phases then s.phases[node] else Idle
  }

  function Elements(log: seq<Write>): set<Write> {
    set w | w in log
  }

  function SetPhase(s: State, node: Node, phase: Phase): State {
    s.(phases := s.phases[node := phase])
  }

  // ---------------------------------------------------------------------
  // Claims and releases
  // ---------------------------------------------------------------------

  function AddOp(s: State, op: Op): State {
    s.(store := s.store.(ops := s.store.ops + [op]))
  }

  function Send(s: State, node: Node, op: Op): State {
    SetPhase(AddOp(s, op), node, Acquiring(|s.store.ops|))
  }

  /** The read of an ambiguous claim found that claim applied. */
  predicate Confirms(s: State, node: Node, record: Record, reconciling: Option<nat>) {
    && reconciling.Some? && reconciling.value < |s.store.ops| && s.store.ops[reconciling.value].Claim?
    && record.node == Some(node) && record.epoch == s.store.ops[reconciling.value].epoch
  }

  /**
   * A read that found `record`. An ambiguous claim that turns out to be
   * applied activates; any other record is claimed at its epoch plus one.
   */
  function Found(s: State, node: Node, record: Record, reconciling: Option<nat>): State {
    if Confirms(s, node, record, reconciling) then
      var claim := s.store.ops[reconciling.value];
      SetPhase(s, node, Restoring(record.epoch, claim.guard == Absent, claim.takeover))
    else
      Send(s, node, Claim(node, Match(record.etag), record.epoch + 1, record.node != Some(node), Pending))
  }

  function FirstRead(s: State, node: Node, reconciling: Option<nat>): State {
    match s.store.record
    case Some(record) => Found(s, node, record, reconciling)
    case None => SetPhase(s, node, Listing(reconciling))
  }

  function ListForClaim(s: State, node: Node, reconciling: Option<nat>): State {
    if s.data.prefixes == map[] then Send(s, node, Claim(node, Absent, 1, false, Pending))
    else SetPhase(s, node, Rereading(reconciling))
  }

  function SecondRead(s: State, node: Node, reconciling: Option<nat>): State {
    match s.store.record
    case Some(record) => Found(s, node, record, reconciling)
    case None => SetPhase(s, node, Refused)
  }

  /** The store decides one pending conditional write. */
  function DecideOp(store: Store, i: nat): Store
    requires i < |store.ops|
  {
    var op := store.ops[i];
    if op.status != Pending then store
    else if !GuardHolds(store.record, op.guard) then store.(ops := store.ops[i := op.(status := Rejected)])
    else
      var owner := if op.Claim? then Some(op.node) else None;
      Store(Some(Record(owner, op.epoch, store.nextEtag)),
            store.nextEtag + 1,
            store.ops[i := op.(status := Applied)],
            if op.Claim? then store.granted[op.epoch := op.node] else store.granted)
  }

  function AnswerOp(s: State, node: Node, i: nat, known: bool): State
    requires i < |s.store.ops|
  {
    var op := s.store.ops[i];
    if !op.Claim? then s
    else if !known then SetPhase(s, node, Reconciling(i))
    else match op.status
      case Applied => SetPhase(s, node, Restoring(op.epoch, op.guard == Absent, op.takeover))
      case Rejected => SetPhase(s, node, Idle)
      case Pending => s
  }

  // ---------------------------------------------------------------------
  // Restore
  // ---------------------------------------------------------------------

  /** What a listing of the epoch prefixes answers: the newest one that holds LTX. */
  predicate IsNewest(prefixes: map<nat, Prefix>, newest: Option<nat>) {
    match newest
    case None => prefixes == map[]
    case Some(e) => e in prefixes && forall f <- prefixes :: f <= e
  }

  function Activate(s: State, node: Node, epoch: nat, base: set<Write>): State {
    SetPhase(s, node, Resident(epoch, base, [])).(data := s.data.(restored := s.data.restored[epoch := base]))
  }

  /** A wake that took nothing over may reuse the previous epoch's local snapshot. */
  predicate ReusesSnapshot(s: State, node: Node, phase: Phase)
    requires phase.Restoring?
  {
    phase.epoch > 1 && !phase.takeover && (node, phase.epoch - 1) in s.data.snapshots
  }

  function WakeFromSnapshot(s: State, node: Node, epoch: nat): State
    requires epoch > 1 && (node, epoch - 1) in s.data.snapshots
  {
    var t := Activate(s, node, epoch, s.data.snapshots[(node, epoch - 1)]);
    t.(data := t.data.(snapshots := t.data.snapshots - {(node, epoch - 1)}))
  }

  /**
   * The first half of a restore. A new cell starts empty, a local wake reuses
   * its snapshot, and every other restore lists the prefixes and refuses a
   * used epoch.
   */
  function ChooseSource(s: State, node: Node, phase: Phase, newest: Option<nat>): State
    requires phase.Restoring?
  {
    if phase.newCell then Activate(s, node, phase.epoch, {})
    else if ReusesSnapshot(s, node, phase) then WakeFromSnapshot(s, node, phase.epoch)
    else if !IsNewest(s.data.prefixes, newest) then s
    else if newest.Some? && newest.value >= phase.epoch then SetPhase(s, node, Idle)
    else SetPhase(s, node, Downloading(phase.epoch, newest))
  }

  function DownloadFrom(s: State, node: Node, epoch: nat, source: Option<nat>): State {
    match source
    case None => Activate(s, node, epoch, {})
    case Some(e) => if e in s.data.prefixes then Activate(s, node, epoch, s.data.prefixes[e].content) else s
  }

  // ---------------------------------------------------------------------
  // Uploads, the output gate, eviction
  // ---------------------------------------------------------------------

  function UploadUpTo(data: Data, phase: Phase, position: nat): Data
    requires phase.Resident? && position <= |phase.log|
  {
    var content := phase.base + Elements(phase.log[..position]);
    data.(uploads := data.uploads + [Upload(phase.epoch, content, position)])
  }

  function Land(data: Data, u: Upload): Data {
    var was := if u.epoch in data.prefixes then data.prefixes[u.epoch] else Prefix({}, 0);
    var position := if was.position < u.position then u.position else was.position;
    data.(prefixes := data.prefixes[u.epoch := Prefix(was.content + u.content, position)])
  }

  /** A landed upload of this epoch covers the log up to `position`. */
  predicate ProofCovers(data: Data, phase: Phase, position: nat)
    requires phase.Resident?
  {
    && position <= |phase.log|
    && phase.epoch in data.prefixes
    && position <= data.prefixes[phase.epoch].position
  }

  /** The record still names this node at this epoch. */
  predicate StillOwner(store: Store, node: Node, epoch: nat) {
    && store.record.Some?
    && store.record.value.node == Some(node)
    && store.record.value.epoch == epoch
  }

  function Acknowledge(data: Data, phase: Phase, position: nat): Data
    requires phase.Resident? && position <= |phase.log|
  {
    data.(acked := data.acked + (set w | w in phase.log[..position] :: Ack(phase.epoch, w)))
  }

  /** After a proof of the upload, one read of the record decides: acknowledge, or reset the cell. */
  function VerifyGate(s: State, node: Node, phase: Phase, position: nat): State
    requires phase.Resident?
  {
    if !ProofCovers(s.data, phase, position) then s
    else if !StillOwner(s.store, node, phase.epoch) then SetPhase(s, node, Idle)
    else s.(data := Acknowledge(s.data, phase, position))
  }

  /** Eviction keeps a local copy, and only once the bucket holds every write. */
  function EvictCell(s: State, node: Node, phase: Phase): State
    requires phase.Resident?
  {
    if ProofCovers(s.data, phase, |phase.log|) then
      SetPhase(s, node, Idle).(data := s.data.(
        snapshots := s.data.snapshots[(node, phase.epoch) := phase.base + Elements(phase.log)]))
    else s
  }

  /** One step. An action that is not enabled changes nothing. */
  function Apply(s: State, a: Action): State {
    match a
    case ReadRecord(n) => if PhaseOf(s, n).Idle? then FirstRead(s, n, None) else s
    case ListLtx(n) =>
      var phase := PhaseOf(s, n);
      if phase.Listing? then ListForClaim(s, n, phase.reconciling) else s
    case ReadAgain(n) =>
      var phase := PhaseOf(s, n);
      if phase.Rereading? then SecondRead(s, n, phase.reconciling) else s
    case Decide(i) => if i < |s.store.ops| then s.(store := DecideOp(s.store, i)) else s
    case Answer(n, known) =>
      var phase := PhaseOf(s, n);
      if phase.Acquiring? && phase.op < |s.store.ops| then AnswerOp(s, n, phase.op, known) else s
    case Reconcile(n) =>
      var phase := PhaseOf(s, n);
      if phase.Reconciling? then FirstRead(s, n, Some(phase.op)) else s
    case ListEpochs(n, newest) =>
      var phase := PhaseOf(s, n);
      if phase.Restoring? then ChooseSource(s, n, phase, newest) else s
    case Download(n) =>
      var phase := PhaseOf(s, n);
      if phase.Downloading? then DownloadFrom(s, n, phase.epoch, phase.source) else s
    case LocalWrite(n, w) =>
      var phase := PhaseOf(s, n);
      if phase.Resident? then SetPhase(s, n, phase.(log := phase.log + [w])) else s
    case SendUpload(n, p) =>
      var phase := PhaseOf(s, n);
      if phase.Resident? && p <= |phase.log| then s.(data := UploadUpTo(s.data, phase, p)) else s
    case LandUpload(i) =>
      if i < |s.data.uploads| then s.(data := Land(s.data, s.data.uploads[i])) else s
    case VerifyAndAck(n, p) =>
      var phase := PhaseOf(s, n);
      if phase.Resident? then VerifyGate(s, n, phase, p) else s
    case Evict(n) =>
      var phase := PhaseOf(s, n);
      if phase.Resident? then EvictCell(s, n, phase) else s
    case SendRelease(n) =>
      var record := s.store.record;
      if record.Some? && record.value.node == Some(n) then
        AddOp(s, Release(n, Match(record.value.etag), record.value.epoch, Pending))
      else s
    case Abandon(n) => SetPhase(s, n, Idle)
    case LoseRecord => s.(store := s.store.(record := None))
  }

  function Run(s: State, actions: seq<Action>): State
    decreases |actions|
  {
    if actions == [] then s else Run(Apply(s, actions[0]), actions[1..])
  }
}
