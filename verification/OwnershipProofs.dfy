/** What every run of `Ownership` keeps, and the theorems that follow from it. */
module OwnershipProofs {
  import opened Prelude
  import opened Ownership

  /** The record's epoch; zero before the first claim. */
  function Epoch(store: Store): nat {
    if store.record.Some? then store.record.value.epoch else 0
  }

  predicate AppliedClaim(op: Op) {
    op.Claim? && op.status == Applied
  }

  // ---------------------------------------------------------------------
  // The invariant, one clause per concern
  // ---------------------------------------------------------------------

  /** The record and the history of grants agree. */
  ghost predicate RecordInv(store: Store) {
    && (store.record.None? ==> store.granted == map[])
    && (store.record.Some? ==>
          && store.record.value.etag < store.nextEtag
          && store.record.value.epoch in store.granted
          && (store.record.value.node.Some? ==>
                store.record.value.node.value == store.granted[store.record.value.epoch]))
    && (forall e <- store.granted :: 1 <= e <= Epoch(store))
  }

  /** A pending write whose guard still matches continues the current record. */
  ghost predicate GuardInv(store: Store, op: Op) {
    match op.guard
    case Absent => op.Claim? && op.epoch == 1
    case Match(etag) =>
      && store.record.Some?
      && etag < store.nextEtag
      && (etag == store.record.value.etag ==>
            if op.Claim? then op.epoch == store.record.value.epoch + 1 else op.epoch == store.record.value.epoch)
  }

  ghost predicate OpsInv(store: Store) {
    && (forall i :: 0 <= i < |store.ops| ==> GuardInv(store, store.ops[i]))
    && (forall i :: 0 <= i < |store.ops| && AppliedClaim(store.ops[i]) ==>
          Granted(store, store.ops[i].node, store.ops[i].epoch))
    && (forall i, j :: 0 <= i < j < |store.ops| && AppliedClaim(store.ops[i]) && AppliedClaim(store.ops[j]) ==>
          store.ops[i].epoch != store.ops[j].epoch)
  }

  ghost predicate Granted(store: Store, node: Node, epoch: nat) {
    epoch in store.granted && store.granted[epoch] == node
  }

  ghost predicate StoreInv(store: Store) {
    RecordInv(store) && OpsInv(store)
  }

  /** Every acknowledged write of an epoch below `epoch` is in `content`. */
  ghost predicate Covers(acked: set<Ack>, epoch: nat, content: set<Write>) {
    forall a <- acked :: a.epoch < epoch ==> a.write in content
  }

  /** Every prefix and upload of an epoch contains what that epoch restored. */
  ghost predicate LineageInv(data: Data) {
    && (forall i :: 0 <= i < |data.uploads| ==>
          data.uploads[i].epoch in data.restored && data.restored[data.uploads[i].epoch] <= data.uploads[i].content)
    && (forall e <- data.prefixes :: e in data.restored && data.restored[e] <= data.prefixes[e].content)
    && (forall k <- data.snapshots :: k.1 in data.restored)
  }

  /** Acknowledged writes are in their own prefix, in every later restore and in every local snapshot. */
  ghost predicate DurableInv(data: Data) {
    && (forall a <- data.acked :: a.epoch in data.prefixes && a.write in data.prefixes[a.epoch].content)
    && (forall e <- data.restored :: Covers(data.acked, e, data.restored[e]))
    && (forall k <- data.snapshots :: Covers(data.acked, k.1 + 1, data.snapshots[k]))
  }

  /** Only granted epochs are activated, and only the grantee holds their snapshots. */
  ghost predicate LinkInv(store: Store, data: Data) {
    && (forall e <- data.restored :: e in store.granted)
    && (forall k <- data.snapshots :: Granted(store, k.0, k.1))
  }

  /** `node` has not activated `epoch`. */
  ghost predicate Unused(store: Store, data: Data, node: Node, epoch: nat) {
    Granted(store, node, epoch) ==> epoch !in data.restored
  }

  /** Op `i` is a claim of `node` whose epoch `node` has not activated. */
  ghost predicate OwnClaim(store: Store, data: Data, node: Node, i: nat) {
    && i < |store.ops|
    && store.ops[i].Claim?
    && store.ops[i].node == node
    && Unused(store, data, node, store.ops[i].epoch)
  }

  ghost predicate UploadOf(u: Upload, log: seq<Write>) {
    u.position <= |log| && Elements(log[..u.position]) <= u.content
  }

  /** What the bucket and the history hold about a resident epoch. */
  ghost predicate ResidentInv(data: Data, node: Node, e: nat, base: set<Write>, log: seq<Write>) {
    && e in data.restored && data.restored[e] == base
    && (node, e) !in data.snapshots
    && (forall a <- data.acked :: a.epoch == e ==> a.write in log)
    && (e in data.prefixes ==>
          && data.prefixes[e].position <= |log|
          && Elements(log[..data.prefixes[e].position]) <= data.prefixes[e].content)
    && (forall i :: 0 <= i < |data.uploads| && data.uploads[i].epoch == e ==> UploadOf(data.uploads[i], log))
  }

  ghost predicate SourceInv(data: Data, e: nat, source: Option<nat>) {
    match source
    case None => Covers(data.acked, e, {})
    case Some(f) => f in data.prefixes && f < e && Covers(data.acked, e, data.prefixes[f].content)
  }

  ghost predicate PhaseInv(store: Store, data: Data, node: Node, phase: Phase) {
    match phase
    case Idle => true
    case Listing(r) => Unused(store, data, node, 1) && (r.Some? ==> OwnClaim(store, data, node, r.value))
    case Rereading(r) => store.record.Some? && (r.Some? ==> OwnClaim(store, data, node, r.value))
    case Refused => false
    case Acquiring(i) => OwnClaim(store, data, node, i)
    case Reconciling(i) => OwnClaim(store, data, node, i)
    case Restoring(e, newCell, _) => Granted(store, node, e) && e !in data.restored && (newCell ==> e == 1)
    case Downloading(e, source) => Granted(store, node, e) && e !in data.restored && SourceInv(data, e, source)
    case Resident(e, base, log) => Granted(store, node, e) && ResidentInv(data, node, e, base, log)
  }

  ghost predicate PhasesInv(s: State) {
    forall n <- s.phases :: PhaseInv(s.store, s.data, n, s.phases[n])
  }

  ghost predicate Inv(s: State) {
    && StoreInv(s.store) && LineageInv(s.data) && DurableInv(s.data) && LinkInv(s.store, s.data) && PhasesInv(s)
  }

  // ---------------------------------------------------------------------
  // Steps of the record
  // ---------------------------------------------------------------------

  lemma PhaseChangeKeeps(s: State, n: Node, phase: Phase)
    requires Inv(s) && PhaseInv(s.store, s.data, n, phase)
    ensures Inv(SetPhase(s, n, phase))
  {
  }

  lemma AddOpKeeps(s: State, op: Op)
    requires Inv(s) && GuardInv(s.store, op) && op.status == Pending
    ensures Inv(AddOp(s, op))
  {
    var t := AddOp(s, op);
    forall i | 0 <= i < |t.store.ops| ensures GuardInv(t.store, t.store.ops[i]) {
      assert i < |s.store.ops| ==> GuardInv(s.store, s.store.ops[i]);
    }
    forall m <- t.phases ensures PhaseInv(t.store, t.data, m, t.phases[m]) {
      assert PhaseInv(s.store, s.data, m, s.phases[m]);
    }
  }

  lemma SendKeeps(s: State, n: Node, op: Op)
    requires Inv(s) && GuardInv(s.store, op) && op.status == Pending
    requires op.Claim? && op.node == n && Unused(s.store, s.data, n, op.epoch)
    ensures Inv(Send(s, n, op))
  {
    AddOpKeeps(s, op);
    PhaseChangeKeeps(AddOp(s, op), n, Acquiring(|s.store.ops|));
  }

  lemma ConfirmedKeeps(s: State, n: Node, i: nat)
    requires Inv(s) && OwnClaim(s.store, s.data, n, i)
    requires s.store.record.Some? && Confirms(s, n, s.store.record.value, Some(i))
    ensures Inv(Found(s, n, s.store.record.value, Some(i)))
  {
    var claim := s.store.ops[i];
    assert GuardInv(s.store, claim);
    PhaseChangeKeeps(s, n, Restoring(claim.epoch, claim.guard == Absent, claim.takeover));
  }

  lemma NextClaimKeeps(s: State, n: Node, takeover: bool)
    requires Inv(s) && s.store.record.Some?
    ensures var record := s.store.record.value;
      Inv(Send(s, n, Claim(n, Match(record.etag), record.epoch + 1, takeover, Pending)))
  {
    SendKeeps(s, n, Claim(n, Match(s.store.record.value.etag), s.store.record.value.epoch + 1, takeover, Pending));
  }

  lemma FoundKeeps(s: State, n: Node, reconciling: Option<nat>)
    requires Inv(s) && s.store.record.Some?
    requires reconciling.Some? ==> OwnClaim(s.store, s.data, n, reconciling.value)
    ensures Inv(Found(s, n, s.store.record.value, reconciling))
  {
    if Confirms(s, n, s.store.record.value, reconciling) {
      ConfirmedKeeps(s, n, reconciling.value);
    } else {
      NextClaimKeeps(s, n, s.store.record.value.node != Some(n));
    }
  }

  lemma FirstReadKeeps(s: State, n: Node, reconciling: Option<nat>)
    requires Inv(s)
    requires reconciling.Some? ==> OwnClaim(s.store, s.data, n, reconciling.value)
    ensures Inv(FirstRead(s, n, reconciling))
  {
    match s.store.record
    case Some(_) => FoundKeeps(s, n, reconciling);
    case None => PhaseChangeKeeps(s, n, Listing(reconciling));
  }

  lemma ListForClaimKeeps(s: State, n: Node, reconciling: Option<nat>)
    requires Inv(s) && PhaseInv(s.store, s.data, n, Listing(reconciling))
    ensures Inv(ListForClaim(s, n, reconciling))
  {
    if s.data.prefixes == map[] {
      SendKeeps(s, n, Claim(n, Absent, 1, false, Pending));
    } else {
      var e :| e in s.data.prefixes;
      assert e in s.store.granted;
      PhaseChangeKeeps(s, n, Rereading(reconciling));
    }
  }

  /** A write that the store applies now extends the record by at most one epoch. */
  lemma AppliedOp(store: Store, i: nat)
    requires StoreInv(store) && i < |store.ops| && store.ops[i].status == Pending
    requires GuardHolds(store.record, store.ops[i].guard)
    ensures store.ops[i].Claim? ==> store.ops[i].epoch == Epoch(store) + 1 && store.ops[i].epoch !in store.granted
    ensures store.ops[i].Release? ==> store.record.Some? && store.ops[i].epoch == Epoch(store)
  {
    assert GuardInv(store, store.ops[i]);
  }

  lemma DecideKeepsStore(store: Store, i: nat)
    requires StoreInv(store) && i < |store.ops|
    ensures StoreInv(DecideOp(store, i))
    ensures forall e <- store.granted :: Granted(DecideOp(store, i), store.granted[e], e)
    ensures forall e <- DecideOp(store, i).granted :: e in store.granted || Epoch(store) < e
    ensures Epoch(store) <= Epoch(DecideOp(store, i)) <= Epoch(store) + 1
    ensures store.record.Some? ==> DecideOp(store, i).record.Some?
  {
    var t := DecideOp(store, i);
    if store.ops[i].status == Pending && GuardHolds(store.record, store.ops[i].guard) {
      AppliedOp(store, i);
    }
    forall j | 0 <= j < |t.ops| ensures GuardInv(t, t.ops[j]) {
      assert GuardInv(store, store.ops[j]);
    }
    forall j | 0 <= j < |t.ops| && AppliedClaim(t.ops[j])
      ensures Granted(t, t.ops[j].node, t.ops[j].epoch)
      ensures AppliedClaim(store.ops[j]) || (j == i && Epoch(store) < t.ops[j].epoch)
    {
    }
  }

  lemma DecideKeeps(s: State, i: nat)
    requires Inv(s) && i < |s.store.ops|
    ensures Inv(s.(store := DecideOp(s.store, i)))
  {
    var t := s.(store := DecideOp(s.store, i));
    DecideKeepsStore(s.store, i);
    forall m <- t.phases ensures PhaseInv(t.store, t.data, m, t.phases[m]) {
      assert PhaseInv(s.store, s.data, m, s.phases[m]);
    }
  }

  lemma AnswerKeeps(s: State, n: Node, i: nat, known: bool)
    requires Inv(s) && OwnClaim(s.store, s.data, n, i)
    ensures Inv(AnswerOp(s, n, i, known))
  {
    var op := s.store.ops[i];
    assert GuardInv(s.store, op);
    if !known {
      PhaseChangeKeeps(s, n, Reconciling(i));
    } else {
      match op.status
      case Applied => PhaseChangeKeeps(s, n, Restoring(op.epoch, op.guard == Absent, op.takeover));
      case Rejected => PhaseChangeKeeps(s, n, Idle);
      case Pending =>
    }
  }

  // ---------------------------------------------------------------------
  // Steps of a restore
  // ---------------------------------------------------------------------

  lemma ActivateKeeps(s: State, n: Node, e: nat, base: set<Write>)
    requires Inv(s) && Granted(s.store, n, e) && e !in s.data.restored && Covers(s.data.acked, e, base)
    ensures Inv(Activate(s, n, e, base))
  {
    var t := Activate(s, n, e, base);
    forall m <- t.phases ensures PhaseInv(t.store, t.data, m, t.phases[m]) {
      if m != n { assert PhaseInv(s.store, s.data, m, s.phases[m]); }
    }
  }

  lemma DropSnapshotKeeps(s: State, k: (Node, nat))
    requires Inv(s)
    ensures Inv(s.(data := s.data.(snapshots := s.data.snapshots - {k})))
  {
    var t := s.(data := s.data.(snapshots := s.data.snapshots - {k}));
    forall m <- t.phases ensures PhaseInv(t.store, t.data, m, t.phases[m]) {
      assert PhaseInv(s.store, s.data, m, s.phases[m]);
    }
  }

  /** The newest prefix contains every acknowledged write. */
  lemma NewestCovers(data: Data, e: nat, newest: Option<nat>)
    requires LineageInv(data) && DurableInv(data) && IsNewest(data.prefixes, newest)
    ensures Covers(data.acked, e, if newest.Some? then data.prefixes[newest.value].content else {})
  {
    if newest.Some? {
      forall a <- data.acked | a.epoch < e ensures a.write in data.prefixes[newest.value].content {
        assert a.epoch <= newest.value;
        assert Covers(data.acked, newest.value, data.restored[newest.value]);
      }
    }
  }

  lemma SnapshotWakeKeeps(s: State, n: Node, e: nat)
    requires Inv(s) && Granted(s.store, n, e) && e !in s.data.restored
    requires e > 1 && (n, e - 1) in s.data.snapshots
    ensures Inv(WakeFromSnapshot(s, n, e))
  {
    ActivateKeeps(s, n, e, s.data.snapshots[(n, e - 1)]);
    DropSnapshotKeeps(Activate(s, n, e, s.data.snapshots[(n, e - 1)]), (n, e - 1));
  }

  lemma ListedKeeps(s: State, n: Node, e: nat, newest: Option<nat>)
    requires Inv(s) && Granted(s.store, n, e) && e !in s.data.restored
    requires IsNewest(s.data.prefixes, newest) && (newest.Some? ==> newest.value < e)
    ensures Inv(SetPhase(s, n, Downloading(e, newest)))
  {
    NewestCovers(s.data, e, newest);
    PhaseChangeKeeps(s, n, Downloading(e, newest));
  }

  lemma ChooseSourceKeeps(s: State, n: Node, phase: Phase, newest: Option<nat>)
    requires Inv(s) && phase.Restoring? && PhaseInv(s.store, s.data, n, phase)
    ensures Inv(ChooseSource(s, n, phase, newest))
  {
    if phase.newCell {
      ActivateKeeps(s, n, phase.epoch, {});
    } else if ReusesSnapshot(s, n, phase) {
      SnapshotWakeKeeps(s, n, phase.epoch);
    } else if IsNewest(s.data.prefixes, newest) {
      if newest.Some? && newest.value >= phase.epoch {
        PhaseChangeKeeps(s, n, Idle);
      } else {
        ListedKeeps(s, n, phase.epoch, newest);
      }
    }
  }

  lemma DownloadKeeps(s: State, n: Node, e: nat, source: Option<nat>)
    requires Inv(s) && PhaseInv(s.store, s.data, n, Downloading(e, source))
    ensures Inv(DownloadFrom(s, n, e, source))
  {
    ActivateKeeps(s, n, e, if source.Some? then s.data.prefixes[source.value].content else {});
  }

  // ---------------------------------------------------------------------
  // Steps of a resident
  // ---------------------------------------------------------------------

  lemma WriteKeeps(s: State, n: Node, phase: Phase, w: Write)
    requires Inv(s) && phase.Resident? && PhaseInv(s.store, s.data, n, phase)
    ensures Inv(SetPhase(s, n, phase.(log := phase.log + [w])))
  {
    var log := phase.log + [w];
    assert forall p: nat :: p <= |phase.log| ==> log[..p] == phase.log[..p];
    PhaseChangeKeeps(s, n, phase.(log := log));
  }

  lemma SendUploadKeeps(s: State, n: Node, phase: Phase, p: nat)
    requires Inv(s) && n in s.phases && s.phases[n] == phase && phase.Resident? && p <= |phase.log|
    ensures Inv(s.(data := UploadUpTo(s.data, phase, p)))
  {
    var t := s.(data := UploadUpTo(s.data, phase, p));
    assert PhaseInv(s.store, s.data, n, phase);
    forall m <- t.phases ensures PhaseInv(t.store, t.data, m, t.phases[m]) {
      assert PhaseInv(s.store, s.data, m, s.phases[m]);
    }
  }

  lemma LandKeeps(s: State, i: nat)
    requires Inv(s) && i < |s.data.uploads|
    ensures Inv(s.(data := Land(s.data, s.data.uploads[i])))
  {
    var t := s.(data := Land(s.data, s.data.uploads[i]));
    forall m <- t.phases ensures PhaseInv(t.store, t.data, m, t.phases[m]) {
      assert PhaseInv(s.store, s.data, m, s.phases[m]);
    }
  }

  /** No later epoch exists while the record still names this one, so nothing restored misses the write. */
  lemma AckKeepsDurable(s: State, n: Node, phase: Phase, p: nat)
    requires Inv(s) && phase.Resident? && PhaseInv(s.store, s.data, n, phase)
    requires ProofCovers(s.data, phase, p) && StillOwner(s.store, n, phase.epoch)
    ensures DurableInv(Acknowledge(s.data, phase, p))
  {
    var t := Acknowledge(s.data, phase, p);
    assert phase.log[..p] <= phase.log[..s.data.prefixes[phase.epoch].position];
    forall e <- t.restored ensures Covers(t.acked, e, t.restored[e]) {
      assert Covers(s.data.acked, e, s.data.restored[e]);
    }
    forall k <- t.snapshots ensures Covers(t.acked, k.1 + 1, t.snapshots[k]) {
      assert Covers(s.data.acked, k.1 + 1, s.data.snapshots[k]);
    }
  }

  lemma AckKeeps(s: State, n: Node, phase: Phase, p: nat)
    requires Inv(s) && n in s.phases && s.phases[n] == phase && phase.Resident?
    ensures Inv(VerifyGate(s, n, phase, p))
  {
    assert PhaseInv(s.store, s.data, n, phase);
    if ProofCovers(s.data, phase, p) {
      if StillOwner(s.store, n, phase.epoch) {
        AckKeepsDurable(s, n, phase, p);
        var t := s.(data := Acknowledge(s.data, phase, p));
        forall m <- t.phases ensures PhaseInv(t.store, t.data, m, t.phases[m]) {
          assert PhaseInv(s.store, s.data, m, s.phases[m]);
        }
      } else {
        PhaseChangeKeeps(s, n, Idle);
      }
    }
  }

  lemma EvictKeeps(s: State, n: Node, phase: Phase)
    requires Inv(s) && n in s.phases && s.phases[n] == phase && phase.Resident?
    ensures Inv(EvictCell(s, n, phase))
  {
    var t := EvictCell(s, n, phase);
    assert PhaseInv(s.store, s.data, n, phase);
    assert Covers(s.data.acked, phase.epoch, phase.base);
    forall m <- t.phases ensures PhaseInv(t.store, t.data, m, t.phases[m]) {
      assert PhaseInv(s.store, s.data, m, s.phases[m]);
    }
  }

  /** The steps of a claim. */
  predicate Claims(a: Action) {
    a.ReadRecord? || a.ListLtx? || a.ReadAgain? || a.Decide? || a.Answer? || a.Reconcile?
  }

  lemma ClaimStepKeeps(s: State, a: Action)
    requires Inv(s) && Claims(a)
    ensures Inv(Apply(s, a))
  {
    match a
    case ReadRecord(n) => if PhaseOf(s, n).Idle? { FirstReadKeeps(s, n, None); }
    case ListLtx(n) => if PhaseOf(s, n).Listing? { ListForClaimKeeps(s, n, s.phases[n].reconciling); }
    case ReadAgain(n) =>
      if PhaseOf(s, n).Rereading? {
        assert PhaseInv(s.store, s.data, n, s.phases[n]);
        FoundKeeps(s, n, s.phases[n].reconciling);
      }
    case Decide(i) => if i < |s.store.ops| { DecideKeeps(s, i); }
    case Answer(n, known) => if PhaseOf(s, n).Acquiring? { AnswerKeeps(s, n, s.phases[n].op, known); }
    case Reconcile(n) => if PhaseOf(s, n).Reconciling? { FirstReadKeeps(s, n, Some(s.phases[n].op)); }
  }

  /** The steps of an owner, from restore to release. */
  lemma OwnerStepKeeps(s: State, a: Action)
    requires Inv(s) && a != LoseRecord && !Claims(a)
    ensures Inv(Apply(s, a))
  {
    match a
    case ListEpochs(n, newest) => if PhaseOf(s, n).Restoring? { ChooseSourceKeeps(s, n, s.phases[n], newest); }
    case Download(n) =>
      if PhaseOf(s, n).Downloading? { DownloadKeeps(s, n, s.phases[n].epoch, s.phases[n].source); }
    case LocalWrite(n, w) => if PhaseOf(s, n).Resident? { WriteKeeps(s, n, s.phases[n], w); }
    case SendUpload(n, p) =>
      if PhaseOf(s, n).Resident? && p <= |PhaseOf(s, n).log| { SendUploadKeeps(s, n, s.phases[n], p); }
    case LandUpload(i) => if i < |s.data.uploads| { LandKeeps(s, i); }
    case VerifyAndAck(n, p) => if PhaseOf(s, n).Resident? { AckKeeps(s, n, s.phases[n], p); }
    case Evict(n) => if PhaseOf(s, n).Resident? { EvictKeeps(s, n, s.phases[n]); }
    case SendRelease(n) =>
      var record := s.store.record;
      if record.Some? && record.value.node == Some(n) {
        AddOpKeeps(s, Release(n, Match(record.value.etag), record.value.epoch, Pending));
      }
    case Abandon(n) => PhaseChangeKeeps(s, n, Idle);
  }

  lemma StepKeepsInv(s: State, a: Action)
    requires Inv(s) && a != LoseRecord
    ensures Inv(Apply(s, a))
  {
    if Claims(a) { ClaimStepKeeps(s, a); } else { OwnerStepKeeps(s, a); }
  }

  // ---------------------------------------------------------------------
  // Whole runs
  // ---------------------------------------------------------------------

  /** celld never deletes the record; this says that nothing else does either. */
  predicate NoLoss(actions: seq<Action>) {
    LoseRecord !in actions
  }

  lemma {:induction false} RunKeepsInv(s: State, actions: seq<Action>)
    requires Inv(s) && NoLoss(actions)
    ensures Inv(Run(s, actions))
    decreases |actions|
  {
    if actions != [] {
      StepKeepsInv(s, actions[0]);
      RunKeepsInv(Apply(s, actions[0]), actions[1..]);
    }
  }

  lemma {:induction false} RunAppend(s: State, first: seq<Action>, second: seq<Action>)
    ensures Run(s, first + second) == Run(Run(s, first), second)
    decreases |first|
  {
    if first == [] {
      assert first + second == second;
    } else {
      assert (first + second)[1..] == first[1..] + second;
      RunAppend(Apply(s, first[0]), first[1..], second);
    }
  }

  /** History is only added to, and an epoch granted later is a higher epoch. */
  ghost predicate Extends(s: State, t: State) {
    && Epoch(s.store) <= Epoch(t.store)
    && (forall e <- t.store.granted :: e in s.store.granted || Epoch(s.store) < e)
    && s.data.acked <= t.data.acked
  }

  /** Only a decided write changes the record or grants an epoch, and nothing takes an acknowledgement back. */
  lemma OnlyDecideGrants(s: State, a: Action)
    requires !a.Decide? && a != LoseRecord
    ensures Apply(s, a).store.record == s.store.record && Apply(s, a).store.granted == s.store.granted
    ensures s.data.acked <= Apply(s, a).data.acked
  {
  }

  lemma StepExtends(s: State, a: Action)
    requires Inv(s) && a != LoseRecord
    ensures Extends(s, Apply(s, a))
    ensures Epoch(Apply(s, a).store) <= Epoch(s.store) + 1
  {
    if !a.Decide? {
      OnlyDecideGrants(s, a);
    } else if a.op < |s.store.ops| {
      DecideKeepsStore(s.store, a.op);
    }
  }

  lemma {:induction false} RunExtends(s: State, actions: seq<Action>)
    requires Inv(s) && NoLoss(actions)
    ensures Extends(s, Run(s, actions))
    decreases |actions|
  {
    if actions != [] {
      StepKeepsInv(s, actions[0]);
      StepExtends(s, actions[0]);
      RunExtends(Apply(s, actions[0]), actions[1..]);
    }
  }

  // ---------------------------------------------------------------------
  // Theorems
  // ---------------------------------------------------------------------

  /** The record's epoch never decreases, and no step skips an epoch. */
  lemma EpochNeverDecreases(before: seq<Action>, a: Action, after: seq<Action>)
    requires NoLoss(before + [a] + after)
    ensures var e0, e1, e2 := Epoch(Run(Init, before).store), Epoch(Run(Init, before + [a]).store),
                              Epoch(Run(Init, before + [a] + after).store);
      e0 <= e1 <= e0 + 1 && e1 <= e2
  {
    RunKeepsInv(Init, before);
    RunKeepsInv(Init, before + [a]);
    RunAppend(Init, before, [a]);
    RunAppend(Init, before + [a], after);
    var s := Run(Init, before);
    assert Run(s, [a]) == Run(Apply(s, a), []);
    StepExtends(s, a);
    RunExtends(Run(Init, before + [a]), after);
  }

  /** Over a whole run, no two claims that the store applied carry the same epoch. */
  lemma EpochGrantedOnce(actions: seq<Action>, i: nat, j: nat)
    requires NoLoss(actions)
    requires i < j < |Run(Init, actions).store.ops|
    requires AppliedClaim(Run(Init, actions).store.ops[i]) && AppliedClaim(Run(Init, actions).store.ops[j])
    ensures Run(Init, actions).store.ops[i].epoch != Run(Init, actions).store.ops[j].epoch
  {
    RunKeepsInv(Init, actions);
  }

  /** At no instant do two nodes serve one epoch. */
  lemma OneWriterPerEpoch(actions: seq<Action>, m: Node, n: Node)
    requires NoLoss(actions)
    requires PhaseOf(Run(Init, actions), m).Resident? && PhaseOf(Run(Init, actions), n).Resident?
    requires PhaseOf(Run(Init, actions), m).epoch == PhaseOf(Run(Init, actions), n).epoch
    ensures m == n
  {
    RunKeepsInv(Init, actions);
    var s := Run(Init, actions);
    assert PhaseInv(s.store, s.data, m, s.phases[m]) && PhaseInv(s.store, s.data, n, s.phases[n]);
  }

  /** A superseded node may still run, but only the node the record names acknowledges, at the record's epoch. */
  lemma OnlyTheOwnerAcknowledges(s: State, a: Action, ack: Ack)
    requires ack in Apply(s, a).data.acked && ack !in s.data.acked
    ensures a.VerifyAndAck? && s.store.record.Some? && s.store.record.value.node == Some(a.node)
    ensures ack.epoch == Epoch(s.store) == PhaseOf(s, a.node).epoch && ack.write in PhaseOf(s, a.node).log
  {
  }

  /**
   * A write acknowledged by the time `before` ends is in the state that every
   * owner of an epoch granted later restores and serves from.
   */
  lemma AcknowledgedWritesSurvive(before: seq<Action>, after: seq<Action>, a: Ack, owner: Node)
    requires NoLoss(before + after)
    requires a in Run(Init, before).data.acked
    requires PhaseOf(Run(Init, before + after), owner).Resident?
    requires PhaseOf(Run(Init, before + after), owner).epoch !in Run(Init, before).store.granted
    ensures a.write in PhaseOf(Run(Init, before + after), owner).base
  {
    RunKeepsInv(Init, before);
    RunAppend(Init, before, after);
    RunKeepsInv(Run(Init, before), after);
    RunExtends(Run(Init, before), after);
    LaterOwnerCovers(Run(Init, before), Run(Init, before + after), a, owner);
  }

  lemma LaterOwnerCovers(s: State, t: State, a: Ack, owner: Node)
    requires Inv(s) && Inv(t) && Extends(s, t)
    requires a in s.data.acked
    requires PhaseOf(t, owner).Resident? && PhaseOf(t, owner).epoch !in s.store.granted
    ensures a.write in PhaseOf(t, owner).base
  {
    var e := t.phases[owner].epoch;
    assert PhaseInv(t.store, t.data, owner, t.phases[owner]);
    assert a.epoch in s.store.granted && Epoch(s.store) < e;
    assert Covers(t.data.acked, e, t.data.restored[e]);
  }

  /** Whatever happens next, the prefix a bucket restore reads holds every acknowledged write. */
  lemma NewestPrefixHoldsEveryAck(actions: seq<Action>, newest: Option<nat>, a: Ack)
    requires NoLoss(actions)
    requires IsNewest(Run(Init, actions).data.prefixes, newest)
    requires a in Run(Init, actions).data.acked
    ensures newest.Some? && a.write in Run(Init, actions).data.prefixes[newest.value].content
  {
    RunKeepsInv(Init, actions);
    NewestCovers(Run(Init, actions).data, a.epoch + 1, newest);
  }

  /** The lost-record check never refuses a cell whose record was not lost. */
  lemma NoFalseLoss(actions: seq<Action>, n: Node)
    requires NoLoss(actions)
    ensures !PhaseOf(Run(Init, actions), n).Refused?
  {
    RunKeepsInv(Init, actions);
    var s := Run(Init, actions);
    assert n in s.phases ==> PhaseInv(s.store, s.data, n, s.phases[n]);
  }

  /** "No record" is answered, and an epoch-one claim sent, only by a listing that found no LTX. */
  lemma AbsentClaimSawNoLtx(s: State, a: Action)
    requires |Apply(s, a).store.ops| > |s.store.ops| && Apply(s, a).store.ops[|s.store.ops|].guard == Absent
    ensures a.ListLtx? && PhaseOf(s, a.node).Listing? && s.data.prefixes == map[]
    ensures Apply(s, a).store.ops[|s.store.ops|] == Claim(a.node, Absent, 1, false, Pending)
  {
  }

  /** The record precedes any LTX of the cell. */
  lemma LtxFollowsGrant(s: State)
    requires Inv(s)
    ensures s.data.uploads != [] || s.data.prefixes != map[] ==> s.store.granted != map[]
  {
    if s.data.uploads != [] {
      assert s.data.uploads[0].epoch in s.store.granted;
    }
    assert forall e <- s.data.prefixes :: e in s.store.granted;
  }

  /** No epoch-one claim is applied beside LTX, landed or still in flight. */
  lemma FirstClaimMeetsNoLtx(actions: seq<Action>, i: nat)
    requires NoLoss(actions)
    requires i < |Run(Init, actions).store.ops|
    requires Run(Init, actions).store.ops[i].Claim? && Run(Init, actions).store.ops[i].epoch == 1
    requires Run(Init, actions).store.ops[i].status == Pending
    requires GuardHolds(Run(Init, actions).store.record, Run(Init, actions).store.ops[i].guard)
    ensures Run(Init, actions).data.prefixes == map[] && Run(Init, actions).data.uploads == []
  {
    RunKeepsInv(Init, actions);
    var s := Run(Init, actions);
    LtxFollowsGrant(s);
    AppliedOp(s.store, i);
  }

  // ---------------------------------------------------------------------
  // The premise is needed, and the protocol does acknowledge
  // ---------------------------------------------------------------------

  lemma RunSnoc(s: State, actions: seq<Action>, k: nat)
    requires k < |actions|
    ensures Run(s, actions[..k + 1]) == Apply(Run(s, actions[..k]), actions[k])
  {
    assert actions[..k + 1] == actions[..k] + [actions[k]];
    RunAppend(s, actions[..k], [actions[k]]);
    var t := Run(s, actions[..k]);
    assert Run(t, [actions[k]]) == Run(Apply(t, actions[k]), []);
  }

  /**
   * Node 1 serves epoch one and has an upload in flight when the record is
   * lost; node 2 then checks the cell before that upload lands.
   */
  const LossRun: seq<Action> :=
    [ReadRecord(1), ListLtx(1), Decide(0), Answer(1, true), ListEpochs(1, None),
     LocalWrite(1, 7), SendUpload(1, 1), LoseRecord, ReadRecord(2), ListLtx(2), LandUpload(0)]

  lemma LossRunServes()
    ensures Run(Init, LossRun[..5]) == LossServing
  {
    var r := LossRun;
    assert r[..0] == [];
    RunSnoc(Init, r, 0);
    RunSnoc(Init, r, 1);
    RunSnoc(Init, r, 2);
    RunSnoc(Init, r, 3);
    RunSnoc(Init, r, 4);
  }

  const LossServing := State(
    Store(Some(Record(Some(1), 1, 0)), 1, [Claim(1, Absent, 1, false, Applied)], map[1 := 1]),
    Data(map[], [], map[], map[1 := {}], {}), map[1 := Resident(1, {}, [])])

  const LossHappened := State(
    Store(None, 1, [Claim(1, Absent, 1, false, Applied)], map[1 := 1]),
    Data(map[], [Upload(1, {7}, 1)], map[], map[1 := {}], {}), map[1 := Resident(1, {}, [7])])

  lemma LossStepsUpload()
    ensures Apply(Apply(Apply(LossServing, LocalWrite(1, 7)), SendUpload(1, 1)), LoseRecord) == LossHappened
  {
    var s1 := Apply(LossServing, LocalWrite(1, 7));
    assert s1.phases[1].log == [7];
    assert s1.phases == map[1 := Resident(1, {}, [7])];
    assert [7][..1] == [7] && {} + Elements([7]) == {7};
    assert Apply(s1, SendUpload(1, 1)).data.uploads == [Upload(1, {7}, 1)];
  }

  lemma LossStepsClaim()
    ensures var s := Apply(Apply(Apply(LossHappened, ReadRecord(2)), ListLtx(2)), LandUpload(0));
      && |s.store.ops| == 2 && s.store.ops[1] == Claim(2, Absent, 1, false, Pending)
      && s.store.record.None? && 1 in s.data.prefixes
  {
    var s1 := Apply(LossHappened, ReadRecord(2));
    assert PhaseOf(s1, 2) == Listing(None);
  }

  lemma LossRunLoses()
    ensures Run(Init, LossRun[..8]) == LossHappened
  {
    LossRunServes();
    RunSnoc(Init, LossRun, 5);
    RunSnoc(Init, LossRun, 6);
    RunSnoc(Init, LossRun, 7);
    LossStepsUpload();
  }

  lemma LossRunClaims()
    ensures Run(Init, LossRun) == Apply(Apply(Apply(LossHappened, ReadRecord(2)), ListLtx(2)), LandUpload(0))
  {
    assert LossRun[..11] == LossRun;
    LossRunLoses();
    RunSnoc(Init, LossRun, 8);
    RunSnoc(Init, LossRun, 9);
    RunSnoc(Init, LossRun, 10);
  }

  /** With a lost record, an epoch-one claim can be applied beside LTX. */
  lemma LossDefeatsFirstClaim()
    ensures !NoLoss(LossRun)
    ensures var s := Run(Init, LossRun);
      && |s.store.ops| == 2 && s.store.ops[1] == Claim(2, Absent, 1, false, Pending)
      && GuardHolds(s.store.record, s.store.ops[1].guard) && 1 in s.data.prefixes
  {
    assert LossRun[7] == LoseRecord;
    LossRunClaims();
    LossStepsClaim();
  }

  /** The claim of a node that nothing disturbs is applied at the next epoch. */
  lemma ClaimIsApplied(s: State, n: Node)
    requires PhaseOf(s, n).Idle? && s.store.record.Some?
    ensures var t := Apply(Apply(Apply(s, ReadRecord(n)), Decide(|s.store.ops|)), Answer(n, true));
      && t.data == s.data
      && StillOwner(t.store, n, Epoch(s.store) + 1)
      && PhaseOf(t, n) == Restoring(Epoch(s.store) + 1, false, s.store.record.value.node != Some(n))
  {
    var record := s.store.record.value;
    var claim := Claim(n, Match(record.etag), record.epoch + 1, record.node != Some(n), Pending);
    var s1 := Apply(s, ReadRecord(n));
    assert s1 == Send(s, n, claim);
    var s2 := Apply(s1, Decide(|s.store.ops|));
    assert s2.store.ops[|s.store.ops|] == claim.(status := Applied);
  }

  /** No prefix is newer than the record. */
  lemma PrefixesAreOld(s: State, e: nat)
    requires Inv(s) && e in s.data.prefixes
    ensures e <= Epoch(s.store)
  {
    assert e in s.store.granted;
  }

  /** The restore of a node that nothing disturbs ends with the cell resident. */
  lemma RestoreCompletes(s: State, n: Node, newest: Option<nat>)
    requires PhaseOf(s, n).Restoring? && IsNewest(s.data.prefixes, newest)
    requires newest.Some? ==> newest.value < PhaseOf(s, n).epoch
    ensures var t := Apply(Apply(s, ListEpochs(n, newest)), Download(n));
      t.store == s.store && PhaseOf(t, n).Resident? && PhaseOf(t, n).epoch == PhaseOf(s, n).epoch
      && t.data.acked == s.data.acked
  {
  }

  /** A node that nothing disturbs takes an existing cell over and serves it, with every acknowledged write. */
  lemma UndisturbedClaim(s: State, n: Node, newest: Option<nat>)
    requires Inv(s) && PhaseOf(s, n).Idle? && s.store.record.Some? && IsNewest(s.data.prefixes, newest)
    ensures var claimed := Apply(Apply(Apply(s, ReadRecord(n)), Decide(|s.store.ops|)), Answer(n, true));
      var t := Apply(Apply(claimed, ListEpochs(n, newest)), Download(n));
      && PhaseOf(t, n).Resident? && PhaseOf(t, n).epoch == Epoch(s.store) + 1
      && StillOwner(t.store, n, Epoch(s.store) + 1)
      && forall a <- s.data.acked :: a.write in PhaseOf(t, n).base
  {
    var s1 := Apply(s, ReadRecord(n));
    var s2 := Apply(s1, Decide(|s.store.ops|));
    var claimed := Apply(s2, Answer(n, true));
    var listed := Apply(claimed, ListEpochs(n, newest));
    var t := Apply(listed, Download(n));
    ClaimIsApplied(s, n);
    if newest.Some? { PrefixesAreOld(s, newest.value); }
    RestoreCompletes(claimed, n, newest);
    StepKeepsInv(s, ReadRecord(n));
    StepKeepsInv(s1, Decide(|s.store.ops|));
    StepKeepsInv(s2, Answer(n, true));
    StepKeepsInv(claimed, ListEpochs(n, newest));
    StepKeepsInv(listed, Download(n));
    forall a | a in s.data.acked ensures a.write in PhaseOf(t, n).base {
      ResidentHolds(s, t, n, a);
    }
  }

  /** A resident of a later epoch holds what was acknowledged before. */
  lemma ResidentHolds(s: State, t: State, n: Node, a: Ack)
    requires Inv(s) && Inv(t) && a in s.data.acked && a in t.data.acked
    requires PhaseOf(t, n).Resident? && PhaseOf(t, n).epoch == Epoch(s.store) + 1
    ensures a.write in PhaseOf(t, n).base
  {
    var e := t.phases[n].epoch;
    assert PhaseInv(t.store, t.data, n, t.phases[n]);
    assert a.epoch in s.store.granted;
    assert Covers(t.data.acked, e, t.data.restored[e]);
  }

  /** A node that nothing disturbs claims a cell that never existed and serves it empty. */
  lemma UndisturbedFirstClaim(s: State, n: Node)
    requires PhaseOf(s, n).Idle? && s.store.record.None? && s.data.prefixes == map[]
    ensures var sent := Apply(Apply(s, ReadRecord(n)), ListLtx(n));
      var t := Apply(Apply(Apply(sent, Decide(|s.store.ops|)), Answer(n, true)), ListEpochs(n, None));
      PhaseOf(t, n) == Resident(1, {}, []) && StillOwner(t.store, n, 1)
  {
    var s1 := Apply(s, ReadRecord(n));
    assert PhaseOf(s1, n) == Listing(None);
    var s2 := Apply(s1, ListLtx(n));
    var claim := Claim(n, Absent, 1, false, Pending);
    assert s2 == Send(s1, n, claim);
    var s3 := Apply(s2, Decide(|s.store.ops|));
    assert s3.store.ops[|s.store.ops|] == claim.(status := Applied);
    var s4 := Apply(s3, Answer(n, true));
    assert PhaseOf(s4, n) == Restoring(1, true, false);
  }

  /** A resident that still owns the cell uploads a write, passes the gate and acknowledges it. */
  lemma UndisturbedWrite(s: State, n: Node, w: Write)
    requires PhaseOf(s, n).Resident? && StillOwner(s.store, n, PhaseOf(s, n).epoch)
    ensures var p, u := |PhaseOf(s, n).log| + 1, |s.data.uploads|;
      var t := Apply(Apply(Apply(s, LocalWrite(n, w)), SendUpload(n, p)), LandUpload(u));
      Ack(PhaseOf(s, n).epoch, w) in Apply(t, VerifyAndAck(n, p)).data.acked
  {
    var phase := PhaseOf(s, n);
    var p, u := |phase.log| + 1, |s.data.uploads|;
    var s1 := Apply(s, LocalWrite(n, w));
    assert PhaseOf(s1, n) == phase.(log := phase.log + [w]);
    var s2 := Apply(s1, SendUpload(n, p));
    assert s2.data.uploads[u].epoch == phase.epoch && s2.data.uploads[u].position == p;
    var s3 := Apply(s2, LandUpload(u));
    assert ProofCovers(s3.data, PhaseOf(s3, n), p);
    assert w in PhaseOf(s3, n).log[..p] by { assert PhaseOf(s3, n).log[..p][p - 1] == w; }
  }
}
