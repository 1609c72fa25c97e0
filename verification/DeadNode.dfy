/**
 * Retirement of a dead node's record: any number of garbage-collection passes
 * race with whatever else writes the record.
 *
 * A pass samples the clock once, reads the record and sends one conditional
 * write. The write may be decided at any later time or never, and the pass may
 * not learn how. A delete, once issued, lands at any later time. Every write
 * gives the object a version never used before, and the clock is shared and
 * never goes back.
 */
module DeadNode {
  import opened Prelude
  import opened NodeRecord

  /** `body` is `None` for an object that is no JSON object at all. */
  datatype Stored = Stored(body: Option<Wire>, etag: nat)

  datatype Status = Pending | Applied(tomb: nat) | Rejected

  /** A conditional write of the tombstone of `judged`, decoded from `read`, the object's version `guard`. */
  datatype Put = Put(read: Wire, judged: Record, guard: nat, observed: nat, status: Status)

  datatype Pass = Off | Started(observed: nat) | Writing(put: nat) | Fenced(put: nat)

  /** A committed tombstone: what it replaced, what it left, and when. */
  datatype Tomb = Tomb(put: nat, before: Stored, after: Stored, at: nat)

  datatype Object = Object(stored: Option<Stored>, nextEtag: nat)

  /** `deletes` names, for each delete issued, the write that fenced it. */
  datatype State = State(
    node: string, now: nat, bucket: Object, puts: seq<Put>, passes: map<nat, Pass>,
    tombs: seq<Tomb>, deletes: seq<nat>)

  datatype Action =
    | Tick(ms: nat)
    | Start(pass: nat)
    | Read(pass: nat, fails: bool)
    | Decide(put: nat)
    | Answered(pass: nat, known: bool)
    | IssueDelete(pass: nat)
    | DeleteLands(delete: nat)
    | Cancel(pass: nat)
    /** A lease renewal, a successor's install, a seal: any write by anyone else. */
    | Write(body: Option<Wire>)

  predicate IsInit(s: State) {
    && s.puts == [] && s.passes == map[] && s.tombs == [] && s.deletes == []
    && (s.bucket.stored.Some? ==> s.bucket.stored.value.etag < s.bucket.nextEtag)
  }

  predicate Dead(node: string, record: Record, now: nat) {
    node == record.node && record.expires <= now
  }

  /** The record may be replaced by its tombstone: dead, and without a log or with a sealed one not yet fenced. */
  predicate Retirable(node: string, record: Record, now: nat) {
    && Dead(node, record, now)
    && (record.log.Some? ==> Sealed(record.log.value) && record.expires != 0)
  }

  function ReadNode(body: Option<Wire>): Option<Record> {
    if body.None? then None else Decode(body.value)
  }

  function PassOf(s: State, p: nat): Pass {
    if p in s.passes then s.passes[p] else Off
  }

  function Become(s: State, p: nat, pass: Pass): State {
    s.(passes := s.passes[p := pass])
  }

  /** The reads and checks of `retire_dead_node`, up to sending its write. */
  function Judge(s: State, p: nat, observed: nat): State {
    match s.bucket.stored
    case None => Become(s, p, Off)
    case Some(stored) =>
      if ReadNode(stored.body).None? then Become(s, p, Off)
      else
        var record := ReadNode(stored.body).value;
        if !Dead(s.node, record, observed) then Become(s, p, Off)
        else if record.log.Some? && !Sealed(record.log.value) then Become(s, p, Off)
        else if record.log.Some? && record.expires == 0 then Become(s, p, Off)
        else
          Become(s.(puts := s.puts + [Put(stored.body.value, record, stored.etag, observed, Pending)]), p,
                 Writing(|s.puts|))
  }

  function Overwritten(o: Object, body: Option<Wire>): Object {
    Object(Some(Stored(body, o.nextEtag)), o.nextEtag + 1)
  }

  function DecidePut(s: State, i: nat): State
    requires i < |s.puts|
  {
    var put := s.puts[i];
    if put.status != Pending then s
    else if s.bucket.stored.Some? && s.bucket.stored.value.etag == put.guard then
      var after := Overwritten(s.bucket, Some(Encode(Tombstone(put.judged))));
      s.(bucket := after, puts := s.puts[i := put.(status := Applied(|s.tombs|))],
         tombs := s.tombs + [Tomb(i, s.bucket.stored.value, after.stored.value, s.now)])
    else s.(puts := s.puts[i := put.(status := Rejected)])
  }

  function Answer(s: State, p: nat, i: nat, known: bool): State
    requires i < |s.puts|
  {
    if !known then Become(s, p, Off)
    else match s.puts[i].status
      case Pending => s
      case Rejected => Become(s, p, Off)
      case Applied(_) => Become(s, p, if s.puts[i].judged.log.None? then Fenced(i) else Off)
  }

  function Apply(s: State, a: Action): State {
    match a
    case Tick(ms) => s.(now := s.now + ms)
    case Start(p) => if PassOf(s, p) == Off then Become(s, p, Started(s.now)) else s
    case Read(p, fails) =>
      if !PassOf(s, p).Started? then s
      else if fails then Become(s, p, Off)
      else Judge(s, p, PassOf(s, p).observed)
    case Decide(i) => if i < |s.puts| then DecidePut(s, i) else s
    case Answered(p, known) =>
      if PassOf(s, p).Writing? && PassOf(s, p).put < |s.puts| then Answer(s, p, PassOf(s, p).put, known) else s
    case IssueDelete(p) =>
      if PassOf(s, p).Fenced? then Become(s.(deletes := s.deletes + [PassOf(s, p).put]), p, Off) else s
    case DeleteLands(d) => if d < |s.deletes| then s.(bucket := s.bucket.(stored := None)) else s
    case Cancel(p) => Become(s, p, Off)
    case Write(body) => s.(bucket := Overwritten(s.bucket, body))
  }

  function Run(s: State, actions: seq<Action>): State
    decreases |actions|
  {
    if actions == [] then s else Run(Apply(s, actions[0]), actions[1..])
  }

  // ---------------------------------------------------------------------
  // The invariant
  // ---------------------------------------------------------------------

  /** A version still names the object that was read under it. */
  predicate Names(o: Object, guard: nat, read: Wire) {
    && guard < o.nextEtag
    && (o.stored.Some? && o.stored.value.etag == guard ==> o.stored.value.body == Some(read))
  }

  predicate ObjectInv(o: Object) {
    o.stored.Some? ==> o.stored.value.etag < o.nextEtag
  }

  predicate PutInv(s: State, put: Put) {
    && Retirable(s.node, put.judged, put.observed) && put.observed <= s.now
    && Names(s.bucket, put.guard, put.read) && Decode(put.read) == Some(put.judged)
  }

  predicate PutsInv(s: State) {
    forall i :: 0 <= i < |s.puts| ==> PutInv(s, s.puts[i])
  }

  /** Write `i` was applied to a record without a log, and its tombstone is on record. */
  predicate FencedBy(s: State, i: nat) {
    && i < |s.puts| && s.puts[i].judged.log.None? && s.puts[i].status.Applied?
  }

  predicate AppliedInv(s: State) {
    forall i :: 0 <= i < |s.puts| && s.puts[i].status.Applied? ==>
      s.puts[i].status.tomb < |s.tombs| && s.tombs[s.puts[i].status.tomb].put == i
  }

  predicate PassesInv(s: State) {
    forall p <- s.passes ::
      match s.passes[p]
      case Started(observed) => observed <= s.now
      case Fenced(i) => FencedBy(s, i)
      case _ => true
  }

  predicate TombInv(s: State, t: Tomb) {
    && t.put < |s.puts|
    && t.before == Stored(Some(s.puts[t.put].read), s.puts[t.put].guard)
    && t.after.body == Some(Encode(Tombstone(s.puts[t.put].judged)))
    && s.puts[t.put].observed <= t.at <= s.now
  }

  predicate TombsInv(s: State) {
    forall k :: 0 <= k < |s.tombs| ==> TombInv(s, s.tombs[k])
  }

  predicate DeletesInv(s: State) {
    forall d :: 0 <= d < |s.deletes| ==> FencedBy(s, s.deletes[d])
  }

  predicate Inv(s: State) {
    && ObjectInv(s.bucket) && PutsInv(s) && AppliedInv(s) && PassesInv(s) && TombsInv(s) && DeletesInv(s)
  }

  lemma DecidedPut(s: State, i: nat, k: nat)
    requires Inv(s) && i < |s.puts| && k < |s.puts|
    ensures PutInv(DecidePut(s, i), DecidePut(s, i).puts[k])
  {
    assert PutInv(s, s.puts[k]);
  }

  lemma DecidedTomb(s: State, i: nat, k: nat)
    requires Inv(s) && i < |s.puts| && k < |DecidePut(s, i).tombs|
    ensures TombInv(DecidePut(s, i), DecidePut(s, i).tombs[k])
  {
    assert PutInv(s, s.puts[i]);
    if k < |s.tombs| { assert TombInv(s, s.tombs[k]); }
  }

  lemma DecideKeeps(s: State, i: nat)
    requires Inv(s) && i < |s.puts|
    ensures Inv(DecidePut(s, i))
  {
    var t := DecidePut(s, i);
    forall k | 0 <= k < |t.puts| ensures PutInv(t, t.puts[k]) { DecidedPut(s, i, k); }
    forall k | 0 <= k < |t.tombs| ensures TombInv(t, t.tombs[k]) { DecidedTomb(s, i, k); }
    assert forall k :: FencedBy(s, k) ==> FencedBy(t, k);
  }

  lemma BecomeKeeps(s: State, p: nat, pass: Pass)
    requires Inv(s) && (pass.Started? ==> pass.observed <= s.now) && (pass.Fenced? ==> FencedBy(s, pass.put))
    ensures Inv(Become(s, p, pass))
  {
    var t := Become(s, p, pass);
    assert forall k :: FencedBy(s, k) ==> FencedBy(t, k);
    assert forall put :: PutInv(s, put) ==> PutInv(t, put);
    assert forall tomb :: TombInv(s, tomb) ==> TombInv(t, tomb);
  }

  lemma AddPutKeeps(s: State, put: Put)
    requires Inv(s) && PutInv(s, put) && put.status == Pending
    ensures Inv(s.(puts := s.puts + [put]))
  {
    var t := s.(puts := s.puts + [put]);
    forall k | 0 <= k < |t.puts| ensures PutInv(t, t.puts[k]) {
      if k < |s.puts| { assert PutInv(s, s.puts[k]); } else { assert PutInv(s, put); }
    }
    forall k | 0 <= k < |t.tombs| ensures TombInv(t, t.tombs[k]) {
      assert TombInv(s, s.tombs[k]);
    }
    assert forall k :: FencedBy(s, k) ==> FencedBy(t, k);
  }

  lemma JudgeKeeps(s: State, p: nat, observed: nat)
    requires Inv(s) && observed <= s.now
    ensures Inv(Judge(s, p, observed))
  {
    BecomeKeeps(s, p, Off);
    if |Judge(s, p, observed).puts| > |s.puts| {
      var put := Judge(s, p, observed).puts[|s.puts|];
      AddPutKeeps(s, put);
      BecomeKeeps(s.(puts := s.puts + [put]), p, Writing(|s.puts|));
    }
  }

  /** Time passes, or someone else replaces or removes the object. */
  lemma OutsideKeeps(s: State, now: nat, o: Object)
    requires Inv(s) && s.now <= now
    requires o == s.bucket || o == s.bucket.(stored := None) || (exists body :: o == Overwritten(s.bucket, body))
    ensures Inv(s.(now := now, bucket := o))
  {
    var t := s.(now := now, bucket := o);
    assert forall k :: FencedBy(s, k) ==> FencedBy(t, k);
    assert forall put :: PutInv(s, put) ==> PutInv(t, put);
    assert forall tomb :: TombInv(s, tomb) ==> TombInv(t, tomb);
  }

  lemma DeleteKeeps(s: State, i: nat)
    requires Inv(s) && FencedBy(s, i)
    ensures Inv(s.(deletes := s.deletes + [i]))
  {
    var t := s.(deletes := s.deletes + [i]);
    assert forall k :: FencedBy(s, k) ==> FencedBy(t, k);
    assert forall put :: PutInv(s, put) ==> PutInv(t, put);
    assert forall tomb :: TombInv(s, tomb) ==> TombInv(t, tomb);
  }

  lemma PassStepKeeps(s: State, a: Action, p: nat)
    requires Inv(s)
    requires a == Start(p) || a == Cancel(p) || a == IssueDelete(p) || ((a.Answered? || a.Read?) && a.pass == p)
    ensures Inv(Apply(s, a))
  {
    var pass := PassOf(s, p);
    match a
    case Start(_) => BecomeKeeps(s, p, Started(s.now));
    case Read(_, fails) =>
      if pass.Started? && !fails { JudgeKeeps(s, p, pass.observed); } else { BecomeKeeps(s, p, Off); }
    case Answered(_, _) =>
      BecomeKeeps(s, p, Off);
      if pass.Writing? && FencedBy(s, pass.put) { BecomeKeeps(s, p, Fenced(pass.put)); }
    case IssueDelete(_) =>
      if pass.Fenced? {
        DeleteKeeps(s, pass.put);
        BecomeKeeps(s.(deletes := s.deletes + [pass.put]), p, Off);
      }
    case _ => BecomeKeeps(s, p, Off);
  }

  lemma StepKeepsInv(s: State, a: Action)
    requires Inv(s)
    ensures Inv(Apply(s, a))
  {
    match a
    case Decide(i) => if i < |s.puts| { DecideKeeps(s, i); }
    case Tick(ms) => OutsideKeeps(s, s.now + ms, s.bucket);
    case DeleteLands(_) => OutsideKeeps(s, s.now, s.bucket.(stored := None));
    case Write(body) => OutsideKeeps(s, s.now, Overwritten(s.bucket, body));
    case _ => PassStepKeeps(s, a, a.pass);
  }

  lemma {:induction false} RunKeepsInv(s: State, actions: seq<Action>)
    requires Inv(s)
    ensures Inv(Run(s, actions)) && Run(s, actions).node == s.node
    decreases |actions|
  {
    if actions != [] {
      StepKeepsInv(s, actions[0]);
      RunKeepsInv(Apply(s, actions[0]), actions[1..]);
    }
  }

  // ---------------------------------------------------------------------
  // Theorems
  // ---------------------------------------------------------------------

  /** The object a tombstone is written as reads back as the record without its expiry. */
  lemma TombstoneReads(read: Wire)
    requires Decode(read).Some?
    ensures Decode(Encode(Tombstone(Decode(read).value))) == Some(Decode(read).value.(expires := 0))
  {
    DecodeIsWellFormed(read);
    RoundTrip(Tombstone(Decode(read).value));
  }

  /** `after` reads as `before` does, but for the expiry. */
  predicate OnlyExpires(before: Stored, after: Stored) {
    && ReadNode(before.body).Some?
    && ReadNode(after.body) == Some(ReadNode(before.body).value.(expires := 0))
  }

  // What the stored object itself must say, field by field.

  /** The object is a node record. */
  predicate IsNodeRecord(wire: Wire) {
    && "node" in wire && wire["node"].Text?
    && "expires_ms" in wire && wire["expires_ms"].Number?
    && 0 <= wire["expires_ms"].number <= 0xFFFF_FFFF_FFFF_FFFF
    && ("ownership_index_generation" in wire ==> wire["ownership_index_generation"].Text?)
    && ("probe_public_key" in wire ==> wire["probe_public_key"].Text?)
  }

  /** A lease of `node` that has run out. */
  predicate RanOut(wire: Wire, node: string, now: nat)
    requires IsNodeRecord(wire)
  {
    wire["node"] == Text(node) && wire["expires_ms"].number <= now
  }

  predicate HasLog(wire: Wire) {
    "log" in wire && wire["log"] != Null
  }

  predicate HasSealedLog(wire: Wire) {
    HasLog(wire) && wire["log"].Fields? && "state" in wire["log"].fields
    && wire["log"].fields["state"] == Text("sealed")
  }

  /** The object with its expiry at zero, and with every field that a record always has. */
  function FencedWire(wire: Wire): Wire {
    (map["ownership_index_generation" := Text(""), "probe_public_key" := Text("")] + wire)["expires_ms" := Number(0)]
  }

  lemma ReadsExactly(wire: Wire)
    ensures Decode(wire).Some? <==> IsNodeRecord(wire)
    ensures IsNodeRecord(wire) ==>
      && wire["node"] == Text(Decode(wire).value.node) && wire["expires_ms"] == Number(Decode(wire).value.expires)
      && (Decode(wire).value.log.Some? <==> HasLog(wire))
      && (HasLog(wire) ==> (Sealed(Decode(wire).value.log.value) <==> HasSealedLog(wire)))
  {
  }

  lemma FencedExactly(wire: Wire)
    requires IsNodeRecord(wire) && HasLog(wire)
    ensures Encode(Tombstone(Decode(wire).value)) == FencedWire(wire)
  {
    NamesDiffer();
    ReadsExactly(wire);
    forall key ensures key in Encode(Tombstone(Decode(wire).value)) <==> key in FencedWire(wire) {}
    forall key | key in FencedWire(wire)
      ensures Encode(Tombstone(Decode(wire).value))[key] == FencedWire(wire)[key]
    {
    }
  }

  /**
   * Each committed tombstone replaced the very object its pass had judged, an expired record of this
   * node without a log or with a sealed one, and changed nothing but the expiry.
   */
  lemma TombstonesAreSafe(start: State, actions: seq<Action>, k: nat)
    requires IsInit(start) && k < |Run(start, actions).tombs|
    ensures var s := Run(start, actions);
      var tomb := s.tombs[k];
      && tomb.put < |s.puts| && tomb.before == Stored(Some(s.puts[tomb.put].read), s.puts[tomb.put].guard)
      && OnlyExpires(tomb.before, tomb.after)
      && var wire := tomb.before.body.value;
      && IsNodeRecord(wire) && RanOut(wire, start.node, tomb.at) && (HasLog(wire) ==> HasSealedLog(wire))
  {
    RunKeepsInv(start, actions);
    var s := Run(start, actions);
    assert TombInv(s, s.tombs[k]);
    assert PutInv(s, s.puts[s.tombs[k].put]);
    TombstoneReads(s.puts[s.tombs[k].put].read);
    ReadsExactly(s.puts[s.tombs[k].put].read);
  }

  /** Of the stored object itself, a tombstone keeps every field but the expiry. */
  lemma TombstonesKeepFields(start: State, actions: seq<Action>, k: nat, key: string)
    requires IsInit(start) && k < |Run(start, actions).tombs| && key != EXPIRES
    ensures var tomb := Run(start, actions).tombs[k];
      && tomb.before.body.Some? && tomb.after.body.Some?
      && var before, after := tomb.before.body.value, tomb.after.body.value;
      && (key in before && !(key == LOG && before[key] == Null) ==> key in after && after[key] == before[key])
      && (key in after && key !in before ==> (key == GENERATION || key == PROBE_KEY) && after[key] == Text(""))
  {
    RunKeepsInv(start, actions);
    var s := Run(start, actions);
    assert TombInv(s, s.tombs[k]);
    assert PutInv(s, s.puts[s.tombs[k].put]);
    TombstoneKeepsFields(s.puts[s.tombs[k].put].read, key);
  }

  /** A delete is issued only after a tombstone committed over a record without a log. */
  lemma DeletesAreFenced(start: State, actions: seq<Action>, d: nat) returns (k: nat)
    requires IsInit(start) && d < |Run(start, actions).deletes|
    ensures var s := Run(start, actions);
      && k < |s.tombs| && s.tombs[k].put == s.deletes[d]
      && OnlyExpires(s.tombs[k].before, s.tombs[k].after)
      && ReadNode(s.tombs[k].before.body).value.log.None?
  {
    RunKeepsInv(start, actions);
    var s := Run(start, actions);
    assert FencedBy(s, s.deletes[d]);
    k := s.puts[s.deletes[d]].status.tomb;
    assert TombInv(s, s.tombs[k]);
    assert PutInv(s, s.puts[s.tombs[k].put]);
    TombstoneReads(s.puts[s.tombs[k].put].read);
  }

  /** A fenced folded record is final: no pass ever rewrites that version. */
  lemma FoldedTombstoneIsFinal(start: State, actions: seq<Action>, i: nat)
    requires IsInit(start)
    requires var s := Run(start, actions);
      && s.bucket.stored.Some? && ReadNode(s.bucket.stored.value.body).Some?
      && var record := ReadNode(s.bucket.stored.value.body).value;
      && record.log.Some? && record.expires == 0
    ensures Apply(Run(start, actions), Decide(i)).bucket == Run(start, actions).bucket
  {
    RunKeepsInv(start, actions);
    var s := Run(start, actions);
    if i < |s.puts| { assert PutInv(s, s.puts[i]); }
  }

  function DeleteSteps(p: nat, delete: nat): seq<Action> {
    [IssueDelete(p)] + [DeleteLands(delete)]
  }

  function WriteSteps(p: nat, put: nat, delete: nat): seq<Action> {
    [Decide(put)] + ([Answered(p, true)] + DeleteSteps(p, delete))
  }

  function PassSteps(s: State, p: nat): seq<Action> {
    [Start(p)] + ([Read(p, false)] + WriteSteps(p, |s.puts|, |s.deletes|))
  }

  function BodyOf(o: Object): Option<Option<Wire>> {
    if o.stored.None? then None else Some(o.stored.value.body)
  }

  lemma RunCons(s: State, a: Action, rest: seq<Action>)
    ensures Run(s, [a] + rest) == Run(Apply(s, a), rest)
  {
    assert ([a] + rest)[1..] == rest;
  }

  /** A write over the version it judged is applied, and its pass fenced if the record had no log. */
  lemma WriteApplies(s: State, p: nat, read: Wire, record: Record, observed: nat)
    requires s.bucket.stored.Some? && |s.puts| > 0 && PassOf(s, p) == Writing(|s.puts| - 1)
    requires s.puts[|s.puts| - 1] == Put(read, record, s.bucket.stored.value.etag, observed, Pending)
    ensures var t := Apply(Apply(s, Decide(|s.puts| - 1)), Answered(p, true));
      && t.bucket.stored.Some? && t.bucket.stored.value.body == Some(Encode(Tombstone(record)))
      && t.deletes == s.deletes
      && PassOf(t, p) == if record.log.None? then Fenced(|s.puts| - 1) else Off
  {
  }

  lemma LastTwo(s: State, p: nat)
    ensures Run(s, DeleteSteps(p, |s.deletes|)).bucket ==
      if PassOf(s, p).Fenced? then s.bucket.(stored := None) else s.bucket
  {
    RunCons(s, IssueDelete(p), [DeleteLands(|s.deletes|)]);
    assert [DeleteLands(|s.deletes|)] + [] == [DeleteLands(|s.deletes|)];
    RunCons(Apply(s, IssueDelete(p)), DeleteLands(|s.deletes|), []);
  }

  lemma RunWrite(s: State, p: nat, put: nat, delete: nat)
    ensures Run(s, WriteSteps(p, put, delete)) ==
      Run(Apply(Apply(s, Decide(put)), Answered(p, true)), DeleteSteps(p, delete))
  {
    RunCons(s, Decide(put), [Answered(p, true)] + DeleteSteps(p, delete));
    RunCons(Apply(s, Decide(put)), Answered(p, true), DeleteSteps(p, delete));
  }

  /** The last four steps of a pass that has sent its write over the version it read. */
  lemma WrittenPass(s: State, p: nat, read: Wire, record: Record, observed: nat)
    requires s.bucket.stored.Some? && |s.puts| > 0 && PassOf(s, p) == Writing(|s.puts| - 1)
    requires s.puts[|s.puts| - 1] == Put(read, record, s.bucket.stored.value.etag, observed, Pending)
    ensures BodyOf(Run(s, WriteSteps(p, |s.puts| - 1, |s.deletes|)).bucket) ==
      if record.log.None? then None else Some(Some(Encode(Tombstone(record))))
  {
    RunWrite(s, p, |s.puts| - 1, |s.deletes|);
    WriteApplies(s, p, read, record, observed);
    LastTwo(Apply(Apply(s, Decide(|s.puts| - 1)), Answered(p, true)), p);
  }

  /** The same steps do nothing for a pass that has stopped. */
  lemma StoppedPass(s: State, p: nat)
    requires PassOf(s, p) == Off
    ensures Run(s, WriteSteps(p, |s.puts|, |s.deletes|)).bucket == s.bucket
  {
    RunWrite(s, p, |s.puts|, |s.deletes|);
    LastTwo(s, p);
  }

  /** What an undisturbed pass leaves of a record, in terms of `Decode`. */
  lemma PassOutcome(s: State, p: nat)
    requires PassOf(s, p) == Off && s.bucket.stored.Some?
    ensures var body := s.bucket.stored.value.body;
      var record, t := ReadNode(body), Run(s, PassSteps(s, p));
      BodyOf(t.bucket) ==
        if record.None? || !Retirable(s.node, record.value, s.now) then Some(body)
        else if record.value.log.None? then None
        else Some(Some(Encode(Tombstone(record.value))))
  {
    var rest := WriteSteps(p, |s.puts|, |s.deletes|);
    var s1 := Apply(s, Start(p));
    var s2 := Apply(s1, Read(p, false));
    RunCons(s, Start(p), [Read(p, false)] + rest);
    RunCons(s1, Read(p, false), rest);
    if PassOf(s2, p).Writing? {
      var put := s2.puts[|s.puts|];
      WrittenPass(s2, p, put.read, put.judged, put.observed);
    } else {
      StoppedPass(s2, p);
    }
  }

  /**
   * Left alone, a pass removes a record of this node that ran out and has no log, fences one whose log is sealed
   * unless it is fenced already, and leaves every other object as it is.
   */
  lemma UndisturbedPass(s: State, p: nat, body: Option<Wire>)
    requires PassOf(s, p) == Off && s.bucket.stored.Some? && s.bucket.stored.value.body == body
    ensures var left := BodyOf(Run(s, PassSteps(s, p)).bucket);
      if body.None? || !IsNodeRecord(body.value) || !RanOut(body.value, s.node, s.now) then left == Some(body)
      else if !HasLog(body.value) then left == None
      else if HasSealedLog(body.value) && body.value["expires_ms"] != Number(0)
        then left == Some(Some(FencedWire(body.value)))
      else left == Some(body)
  {
    PassOutcome(s, p);
    if body.Some? {
      ReadsExactly(body.value);
      if IsNodeRecord(body.value) && HasLog(body.value) { FencedExactly(body.value); }
    }
  }

  /** There is nothing to retire when there is no object. */
  lemma AbsentPass(s: State, p: nat)
    requires PassOf(s, p) == Off && s.bucket.stored.None?
    ensures Run(s, PassSteps(s, p)).bucket == s.bucket
  {
    var rest := WriteSteps(p, |s.puts|, |s.deletes|);
    var s1 := Apply(s, Start(p));
    RunCons(s, Start(p), [Read(p, false)] + rest);
    RunCons(s1, Read(p, false), rest);
    StoppedPass(Apply(s1, Read(p, false)), p);
  }

  /** A pass judges by the instant it started at: a record that runs out later is left to a later pass. */
  lemma LaterExpiryWaits(s: State, p: nat, ms: nat, wire: Wire)
    requires PassOf(s, p) == Off && s.bucket.stored.Some? && s.bucket.stored.value.body == Some(wire)
    requires IsNodeRecord(wire) && wire["expires_ms"].number > s.now
    ensures var t := Apply(Apply(Apply(s, Start(p)), Tick(ms)), Read(p, false));
      PassOf(t, p) == Off && t.puts == s.puts && t.bucket == s.bucket
  {
    ReadsExactly(wire);
    var s2 := Apply(Apply(s, Start(p)), Tick(ms));
    assert PassOf(s2, p) == Started(s.now);
  }

  /** A pass that another write overtakes, or that does not hear of its own, removes nothing. */
  lemma OvertakenPass(s: State, p: nat, body: Option<Wire>, known: bool)
    requires Inv(s) && PassOf(s, p).Writing? && PassOf(s, p).put < |s.puts|
    requires s.puts[PassOf(s, p).put].status == Pending
    ensures var i := PassOf(s, p).put;
      var decided := Apply(Apply(s, Write(body)), Decide(i));
      var t := Apply(Apply(decided, Answered(p, known)), IssueDelete(p));
      t.bucket == Overwritten(s.bucket, body) && t.deletes == s.deletes && t.tombs == s.tombs && PassOf(t, p) == Off
  {
    var i := PassOf(s, p).put;
    assert PutInv(s, s.puts[i]);
    var decided := Apply(Apply(s, Write(body)), Decide(i));
    assert decided.puts[i].status == Rejected;
  }

  /** A pass that stops, whether its read fails, its answer is lost or it is cancelled, removes nothing. */
  lemma StoppedPassRemovesNothing(s: State, p: nat, a: Action)
    requires a == Cancel(p) || (a == Answered(p, false) && PassOf(s, p).Writing? && PassOf(s, p).put < |s.puts|)
          || (a == Read(p, true) && PassOf(s, p).Started?)
    ensures var t := Apply(s, a); PassOf(t, p) == Off && t == s.(passes := t.passes) && Apply(t, IssueDelete(p)) == t
  {
  }
}
