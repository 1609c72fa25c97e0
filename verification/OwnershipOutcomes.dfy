/**
 * What the steps of a node come to: races that it wins and loses, claims whose
 * outcome it does not hear, restarts, evictions and releases.
 */
module OwnershipOutcomes {
  import opened Prelude
  import opened Ownership
  import opened OwnershipProofs

  // ---------------------------------------------------------------------
  // Releases
  // ---------------------------------------------------------------------

  /** A release that nothing disturbs frees the cell: no node is its owner any more. */
  lemma UndisturbedRelease(s: State, n: Node, e: nat)
    requires StillOwner(s.store, n, e)
    ensures var t := Apply(Apply(s, SendRelease(n)), Decide(|s.store.ops|));
      && t.store.record == Some(Record(None, e, s.store.nextEtag))
      && (forall m :: !StillOwner(t.store, m, e))
      && t.store.granted == s.store.granted && t.data == s.data && t.phases == s.phases
  {
    var s1 := Apply(s, SendRelease(n));
    assert s1.store.ops[|s.store.ops|] == Release(n, Match(s.store.record.value.etag), e, Pending);
  }

  /** A release that another write overtakes frees nothing, and a node the record does not name sends none. */
  lemma LateRelease(s: State, n: Node, e: nat, between: Store)
    requires StillOwner(s.store, n, e)
    requires between.ops == Apply(s, SendRelease(n)).store.ops
    requires between.record.None? || between.record.value.etag != s.store.record.value.etag
    ensures DecideOp(between, |s.store.ops|).record == between.record
    ensures forall m :: m != n ==> Apply(s, SendRelease(m)) == s
  {
    assert between.ops[|s.store.ops|] == Release(n, Match(s.store.record.value.etag), e, Pending);
  }

  // ---------------------------------------------------------------------
  // Claims
  // ---------------------------------------------------------------------

  /** What a node sends that reads a record in a state where it awaits nothing. */
  function ClaimOf(record: Record, n: Node): Op {
    Claim(n, Match(record.etag), record.epoch + 1, record.node != Some(n), Pending)
  }

  lemma DecideApplies(store: Store, i: nat)
    requires i < |store.ops| && store.ops[i].status == Pending && GuardHolds(store.record, store.ops[i].guard)
    ensures var t := DecideOp(store, i);
      && t.ops == store.ops[i := store.ops[i].(status := Applied)]
      && t.record.Some? && t.record.value.etag == store.nextEtag
  {
  }

  lemma BothSent(s: State, m: Node, n: Node)
    requires m != n && PhaseOf(s, m).Idle? && PhaseOf(s, n).Idle? && s.store.record.Some?
    ensures var record, i := s.store.record.value, |s.store.ops|;
      var t := Apply(Apply(s, ReadRecord(m)), ReadRecord(n));
      && t.store == s.store.(ops := s.store.ops + [ClaimOf(record, m)] + [ClaimOf(record, n)])
      && PhaseOf(t, m) == Acquiring(i) && PhaseOf(t, n) == Acquiring(i + 1)
  {
  }

  /** Of two claims under one guard, the second decided is refused. */
  lemma SecondIsRefused(store: Store, i: nat, j: nat)
    requires i < j < |store.ops| && store.ops[i].guard == store.ops[j].guard
    requires GuardHolds(store.record, store.ops[i].guard)
    requires store.ops[i].Claim? && store.ops[i].status == Pending && store.ops[j].status == Pending
    requires store.ops[i].guard == Absent || store.ops[i].guard.etag < store.nextEtag
    ensures var t := DecideOp(DecideOp(store, i), j);
      && |t.ops| == |store.ops| && StillOwner(t, store.ops[i].node, store.ops[i].epoch)
      && t.ops[i] == store.ops[i].(status := Applied) && t.ops[j] == store.ops[j].(status := Rejected)
  {
  }

  lemma BothAnswered(s: State, m: Node, n: Node, i: nat, j: nat)
    requires m != n && PhaseOf(s, m) == Acquiring(i) && PhaseOf(s, n) == Acquiring(j)
    requires i < |s.store.ops| && j < |s.store.ops| && AppliedClaim(s.store.ops[i])
    requires s.store.ops[j].Claim? && s.store.ops[j].status == Rejected
    ensures var op := s.store.ops[i];
      var t := Apply(Apply(s, Answer(m, true)), Answer(n, true));
      && t.store == s.store && PhaseOf(t, n) == Idle
      && PhaseOf(t, m) == Restoring(op.epoch, op.guard == Absent, op.takeover)
  {
  }

  /** Two nodes that read one record claim one epoch: the first decided wins it, and the other node starts over. */
  lemma RivalClaims(s: State, m: Node, n: Node)
    requires Inv(s) && m != n && PhaseOf(s, m).Idle? && PhaseOf(s, n).Idle? && s.store.record.Some?
    ensures var i, e := |s.store.ops|, Epoch(s.store) + 1;
      var sent := Apply(Apply(s, ReadRecord(m)), ReadRecord(n));
      var t := Apply(Apply(Apply(Apply(sent, Decide(i)), Decide(i + 1)), Answer(m, true)), Answer(n, true));
      && StillOwner(t.store, m, e) && PhaseOf(t, n) == Idle
      && PhaseOf(t, m) == Restoring(e, false, s.store.record.value.node != Some(m))
  {
    var i := |s.store.ops|;
    BothSent(s, m, n);
    var sent := Apply(Apply(s, ReadRecord(m)), ReadRecord(n));
    SecondIsRefused(sent.store, i, i + 1);
    BothAnswered(Apply(Apply(sent, Decide(i)), Decide(i + 1)), m, n, i, i + 1);
  }

  /** A claim whose answer is lost, but which was applied, is found by the reconciling read and not sent again. */
  lemma LostAnswer(s: State, n: Node)
    requires PhaseOf(s, n).Idle? && s.store.record.Some?
    ensures var i, e := |s.store.ops|, Epoch(s.store) + 1;
      var t := Apply(Apply(Apply(Apply(s, ReadRecord(n)), Decide(i)), Answer(n, false)), Reconcile(n));
      && StillOwner(t.store, n, e) && |t.store.ops| == i + 1
      && PhaseOf(t, n) == Restoring(e, false, s.store.record.value.node != Some(n))
  {
    var record, i := s.store.record.value, |s.store.ops|;
    var s1 := Apply(s, ReadRecord(n));
    assert s1 == Send(s, n, ClaimOf(record, n));
    var s2 := Apply(s1, Decide(i));
    DecideApplies(s1.store, i);
    var s3 := Apply(s2, Answer(n, false));
    assert PhaseOf(s3, n) == Reconciling(i);
  }

  /** The same for the first claim of a new cell, which stays new. */
  lemma LostFirstAnswer(s: State, n: Node)
    requires PhaseOf(s, n).Idle? && s.store.record.None? && s.data.prefixes == map[]
    ensures var i := |s.store.ops|;
      var sent := Apply(Apply(s, ReadRecord(n)), ListLtx(n));
      var t := Apply(Apply(Apply(sent, Decide(i)), Answer(n, false)), Reconcile(n));
      StillOwner(t.store, n, 1) && |t.store.ops| == i + 1 && PhaseOf(t, n) == Restoring(1, true, false)
  {
    var i := |s.store.ops|;
    var s1 := Apply(s, ReadRecord(n));
    assert PhaseOf(s1, n) == Listing(None);
    var s2 := Apply(s1, ListLtx(n));
    assert s2 == Send(s1, n, Claim(n, Absent, 1, false, Pending));
    var s3 := Apply(s2, Decide(i));
    DecideApplies(s2.store, i);
    var s4 := Apply(s3, Answer(n, false));
    assert PhaseOf(s4, n) == Reconciling(i);
  }

  /** A claim whose answer is lost and which was not applied is sent again, over the record as it is then. */
  lemma RetriedClaim(s: State, n: Node)
    requires PhaseOf(s, n).Reconciling? && s.store.record.Some?
    requires s.store.record.value.node != Some(n)
    ensures var i, e := |s.store.ops|, Epoch(s.store) + 1;
      var t := Apply(Apply(Apply(s, Reconcile(n)), Decide(i)), Answer(n, true));
      StillOwner(t.store, n, e) && PhaseOf(t, n) == Restoring(e, false, true)
  {
    var record, i := s.store.record.value, |s.store.ops|;
    var s1 := Apply(s, Reconcile(n));
    assert s1 == Send(s, n, ClaimOf(record, n));
    var s2 := Apply(s1, Decide(i));
    DecideApplies(s1.store, i);
  }

  // ---------------------------------------------------------------------
  // The lost-record check
  // ---------------------------------------------------------------------

  /** A cell with LTX and without a record is refused, and nothing is claimed. */
  lemma LostRecordIsRefused(s: State, n: Node)
    requires PhaseOf(s, n).Idle? && s.store.record.None? && s.data.prefixes != map[]
    ensures var t := Apply(Apply(Apply(s, ReadRecord(n)), ListLtx(n)), ReadAgain(n));
      PhaseOf(t, n) == Refused && t.store == s.store && t.data == s.data
  {
    var s1 := Apply(s, ReadRecord(n));
    assert PhaseOf(s1, n) == Listing(None);
    var s2 := Apply(s1, ListLtx(n));
    assert PhaseOf(s2, n) == Rereading(None);
  }

  /** Unless the record appeared after the first read, by another node's first claim: then it is taken over. */
  lemma LateRecordIsClaimed(s: State, n: Node)
    requires PhaseOf(s, n) == Rereading(None) && s.store.record.Some?
    ensures var i, e := |s.store.ops|, Epoch(s.store) + 1;
      var t := Apply(Apply(Apply(s, ReadAgain(n)), Decide(i)), Answer(n, true));
      StillOwner(t.store, n, e) && PhaseOf(t, n) == Restoring(e, false, s.store.record.value.node != Some(n))
  {
    var record, i := s.store.record.value, |s.store.ops|;
    var s1 := Apply(s, ReadAgain(n));
    assert s1 == Send(s, n, ClaimOf(record, n));
    DecideApplies(s1.store, i);
    var s2 := Apply(s1, Decide(i));
  }

  // ---------------------------------------------------------------------
  // Restore, eviction and reset
  // ---------------------------------------------------------------------

  /** A listing of the prefixes always has its answer: the largest epoch with LTX, if there is any. */
  lemma {:induction false} ListingAnswers(prefixes: map<nat, Prefix>) returns (newest: Option<nat>)
    ensures IsNewest(prefixes, newest) && (newest.None? <==> prefixes == map[])
    decreases |prefixes|
  {
    if prefixes == map[] {
      newest := None;
    } else {
      var e :| e in prefixes;
      var rest := ListingAnswers(prefixes - {e});
      newest := if rest.Some? && rest.value > e then rest else Some(e);
      assert forall f <- prefixes :: f == e || f in prefixes - {e};
    }
  }

  /** An epoch that already has LTX is not served: the claim is given up and nothing is activated. */
  lemma UsedEpochIsRefused(s: State, n: Node, e: nat, newest: nat)
    requires PhaseOf(s, n) == Restoring(e, false, true) && IsNewest(s.data.prefixes, Some(newest)) && newest >= e
    ensures var t := Apply(s, ListEpochs(n, Some(newest)));
      PhaseOf(t, n) == Idle && t.store == s.store && t.data == s.data
  {
  }

  lemma EvictedKeepsCopy(s: State, n: Node)
    requires PhaseOf(s, n).Resident? && ProofCovers(s.data, PhaseOf(s, n), |PhaseOf(s, n).log|)
    ensures var phase, t := PhaseOf(s, n), Apply(s, Evict(n));
      && PhaseOf(t, n) == Idle && t.store == s.store && (n, phase.epoch) in t.data.snapshots
      && t.data.snapshots[(n, phase.epoch)] == phase.base + Elements(phase.log)
  {
  }

  lemma WakesFromCopy(s: State, n: Node, e: nat, newest: Option<nat>)
    requires PhaseOf(s, n) == Restoring(e + 1, false, false) && e >= 1 && (n, e) in s.data.snapshots
    ensures var t := Apply(s, ListEpochs(n, newest));
      && PhaseOf(t, n) == Resident(e + 1, s.data.snapshots[(n, e)], [])
      && t.store == s.store && (n, e) !in t.data.snapshots
  {
  }

  /**
   * A cell evicted and woken on the same node starts from the local copy, with every write, whatever the bucket
   * lists, and the copy is used up.
   */
  lemma LocalWake(s: State, n: Node, newest: Option<nat>)
    requires Inv(s) && PhaseOf(s, n).Resident? && StillOwner(s.store, n, PhaseOf(s, n).epoch)
    requires ProofCovers(s.data, PhaseOf(s, n), |PhaseOf(s, n).log|)
    ensures var e, i := PhaseOf(s, n).epoch, |s.store.ops|;
      var claimed := Apply(Apply(Apply(Apply(s, Evict(n)), ReadRecord(n)), Decide(i)), Answer(n, true));
      var t := Apply(claimed, ListEpochs(n, newest));
      && PhaseOf(t, n) == Resident(e + 1, PhaseOf(s, n).base + Elements(PhaseOf(s, n).log), [])
      && StillOwner(t.store, n, e + 1) && (n, e) !in t.data.snapshots
  {
    var e, i, evicted := PhaseOf(s, n).epoch, |s.store.ops|, Apply(s, Evict(n));
    assert e in s.store.granted;
    EvictedKeepsCopy(s, n);
    ClaimIsApplied(evicted, n);
    WakesFromCopy(Apply(Apply(Apply(evicted, ReadRecord(n)), Decide(i)), Answer(n, true)), n, e, newest);
  }

  /** What the bucket does not hold in full is not evicted. */
  lemma UnprovenStays(s: State, n: Node)
    requires PhaseOf(s, n).Resident? && !ProofCovers(s.data, PhaseOf(s, n), |PhaseOf(s, n).log|)
    ensures Apply(s, Evict(n)) == s
  {
  }

  /** A resident whose cell another node took over acknowledges nothing more: its gate resets the cell. */
  lemma SupersededResets(s: State, m: Node, n: Node, position: nat)
    requires m != n && PhaseOf(s, m).Idle? && PhaseOf(s, n).Resident? && s.store.record.Some?
    requires ProofCovers(s.data, PhaseOf(s, n), position)
    ensures var taken := Apply(Apply(Apply(s, ReadRecord(m)), Decide(|s.store.ops|)), Answer(m, true));
      var t := Apply(taken, VerifyAndAck(n, position));
      PhaseOf(t, n) == Idle && t.data == s.data && StillOwner(t.store, m, Epoch(s.store) + 1)
  {
    ClaimIsApplied(s, m);
  }

  /** A node that stops keeps nothing of what it was doing, and what it wrote to the bucket stays. */
  lemma StoppedForgets(s: State, n: Node, m: Node)
    ensures var t := Apply(s, Abandon(n));
      PhaseOf(t, n) == Idle && t.store == s.store && t.data == s.data && (m != n ==> PhaseOf(t, m) == PhaseOf(s, m))
  {
  }
}
