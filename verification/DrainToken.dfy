/**
 * The fleet drain token: one bucket object that serializes donors.
 *
 * A donor samples the clock, reads the object and sends a conditional write.
 * A read may fail, and then counts as "absent". A write may be decided at any
 * later time or never, and its sender may learn only that it does not know.
 * A crash forgets a donor's hold but not the writes it sent. One process runs
 * under each node name.
 */
module DrainToken {
  import opened Prelude

  type Node = nat

  const TOKEN_TTL_MS: nat := 120_000

  /** `Unparseable` is a body that does not decode: claimable, and no live claim. */
  datatype Body = Token(node: Node, expires: nat) | Unparseable

  datatype Stored = Stored(body: Body, etag: nat)

  datatype Kind = ClaimPut | RenewPut | ReleasePut

  datatype Status = Pending | Applied(etag: nat) | Rejected

  /** A conditional write of the token; `guard` is `None` for a create. */
  datatype Put = Put(node: Node, kind: Kind, guard: Option<nat>, expires: nat, status: Status)

  datatype Hold = Hold(etag: nat, expires: nat)

  datatype Donor =
    | Off
    | Reading(sampled: nat)
    | Claiming(put: nat)
    | Holding(hold: Hold)
    | Renewing(hold: Hold, put: nat)
    /** The renewal's outcome is unknown; the object is read back next. */
    | ReadingBack(hold: Hold)

  datatype State = State(now: nat, stored: Option<Stored>, nextEtag: nat, puts: seq<Put>, donors: map<Node, Donor>)

  datatype Action =
    | Tick(ms: nat)
    | Sample(node: Node)
    | Read(node: Node, fails: bool)
    | Decide(put: nat)
    | ClaimAnswered(node: Node, known: bool)
    | Renew(node: Node)
    | RenewAnswered(node: Node, known: bool)
    | ReadBack(node: Node, fails: bool)
    | CancelRenew(node: Node)
    | Release(node: Node)
    | Crash(node: Node)

  /** Any object may be there already; nobody holds it and nothing is in flight. */
  ghost predicate IsInit(s: State) {
    && s.puts == [] && s.donors == map[]
    && (s.stored.Some? ==> s.stored.value.etag < s.nextEtag)
  }

  predicate HeldByAnother(current: Option<Stored>, node: Node, now: nat) {
    current.Some? && current.value.body.Token? && current.value.body.node != node && current.value.body.expires > now
  }

  predicate MayClaim(current: Option<Stored>, node: Node, now: nat) {
    !HeldByAnother(current, node, now)
  }

  function DonorOf(s: State, n: Node): Donor {
    if n in s.donors then s.donors[n] else Off
  }

  /** The `Hold` a donor's drain carries, also while it renews. */
  function HoldOf(s: State, n: Node): Option<Hold> {
    match DonorOf(s, n)
    case Holding(h) => Some(h)
    case Renewing(h, _) => Some(h)
    case ReadingBack(h) => Some(h)
    case _ => None
  }

  function Become(s: State, n: Node, d: Donor): State {
    s.(donors := s.donors[n := d])
  }

  function Send(s: State, put: Put): State {
    s.(puts := s.puts + [put])
  }

  /** The claim decision of `try_claim`, judged at the instant sampled before the read. */
  function TryClaim(s: State, n: Node, sampled: nat, current: Option<Stored>): State {
    if !MayClaim(current, n, sampled) then Become(s, n, Off)
    else
      var guard := if current.Some? then Some(current.value.etag) else None;
      Become(Send(s, Put(n, ClaimPut, guard, sampled + TOKEN_TTL_MS, Pending)), n, Claiming(|s.puts|))
  }

  predicate GuardHolds(stored: Option<Stored>, guard: Option<nat>) {
    match guard
    case None => stored.None?
    case Some(etag) => stored.Some? && stored.value.etag == etag
  }

  function DecidePut(s: State, i: nat): State
    requires i < |s.puts|
  {
    var put := s.puts[i];
    if put.status != Pending then s
    else if !GuardHolds(s.stored, put.guard) then s.(puts := s.puts[i := put.(status := Rejected)])
    else
      s.(stored := Some(Stored(Token(put.node, put.expires), s.nextEtag)),
         nextEtag := s.nextEtag + 1,
         puts := s.puts[i := put.(status := Applied(s.nextEtag))])
  }

  function ClaimOutcome(s: State, n: Node, i: nat, known: bool): State
    requires i < |s.puts|
  {
    if !known then Become(s, n, Off)
    else match s.puts[i].status
      case Applied(etag) => Become(s, n, Holding(Hold(etag, s.puts[i].expires)))
      case Rejected => Become(s, n, Off)
      case Pending => s
  }

  function RenewOutcome(s: State, n: Node, hold: Hold, i: nat, known: bool): State
    requires i < |s.puts|
  {
    if !known then Become(s, n, ReadingBack(hold))
    else match s.puts[i].status
      case Applied(etag) => Become(s, n, Holding(Hold(etag, s.puts[i].expires)))
      case Rejected => Become(s, n, Off)
      case Pending => s
  }

  /** A record that names this node adopts its etag; anything else is a lost claim. */
  function Adopt(s: State, n: Node, current: Option<Stored>): State {
    if current.Some? && current.value.body.Token? && current.value.body.node == n then
      Become(s, n, Holding(Hold(current.value.etag, current.value.body.expires)))
    else Become(s, n, Off)
  }

  /** One step. An action that is not enabled changes nothing. */
  function Apply(s: State, a: Action): State {
    match a
    case Tick(ms) => s.(now := s.now + ms)
    case Sample(n) => if DonorOf(s, n).Off? then Become(s, n, Reading(s.now)) else s
    case Read(n, fails) =>
      var d := DonorOf(s, n);
      if d.Reading? then TryClaim(s, n, d.sampled, if fails then None else s.stored) else s
    case Decide(i) => if i < |s.puts| then DecidePut(s, i) else s
    case ClaimAnswered(n, known) =>
      var d := DonorOf(s, n);
      if d.Claiming? && d.put < |s.puts| then ClaimOutcome(s, n, d.put, known) else s
    case Renew(n) =>
      var d := DonorOf(s, n);
      if d.Holding? then
        var put := Put(n, RenewPut, Some(d.hold.etag), s.now + TOKEN_TTL_MS, Pending);
        Become(Send(s, put), n, Renewing(d.hold, |s.puts|))
      else s
    case RenewAnswered(n, known) =>
      var d := DonorOf(s, n);
      if d.Renewing? && d.put < |s.puts| then RenewOutcome(s, n, d.hold, d.put, known) else s
    case ReadBack(n, fails) =>
      if DonorOf(s, n).ReadingBack? then Adopt(s, n, if fails then None else s.stored) else s
    case CancelRenew(n) =>
      var d := DonorOf(s, n);
      if d.Renewing? || d.ReadingBack? then Become(s, n, Holding(d.hold)) else s
    case Release(n) =>
      var d := DonorOf(s, n);
      if d.Holding? then Become(Send(s, Put(n, ReleasePut, Some(d.hold.etag), 0, Pending)), n, Off) else s
    case Crash(n) => Become(s, n, Off)
  }

  function Run(s: State, actions: seq<Action>): State
    decreases |actions|
  {
    if actions == [] then s else Run(Apply(s, actions[0]), actions[1..])
  }

  // ---------------------------------------------------------------------
  // The invariant
  // ---------------------------------------------------------------------

  /** What the object must look like for a write whose guard still matches it. */
  ghost predicate LiveGuardInv(s: State, put: Put, body: Body) {
    match put.kind
    case ClaimPut => body.Token? && body.node != put.node ==> body.expires <= s.now
    case RenewPut => body.Token? && body.node == put.node && body.expires <= put.expires
    case ReleasePut => body.Token? && body.node == put.node
  }

  ghost predicate PutInv(s: State, put: Put) {
    && put.expires <= s.now + TOKEN_TTL_MS
    && (put.guard.None? ==> put.kind == ClaimPut)
    && (put.guard.Some? ==>
          && put.guard.value < s.nextEtag
          && s.stored.Some?
          && (put.guard.value == s.stored.value.etag ==> LiveGuardInv(s, put, s.stored.value.body)))
  }

  /**
   * While `hold` is unexpired the object names its donor for at least as
   * long, and no claim or release that the donor once sent can still apply.
   */
  ghost predicate Protected(s: State, n: Node, hold: Hold) {
    && s.stored.Some?
    && hold.etag <= s.stored.value.etag
    && (hold.etag == s.stored.value.etag || hold.expires > s.now ==>
          s.stored.value.body.Token? && s.stored.value.body.node == n)
    && (hold.expires > s.now ==> s.stored.value.body.expires >= hold.expires)
    && (s.stored.value.body.Token? && s.stored.value.body.node == n ==>
          s.stored.value.body.expires <= s.now + TOKEN_TTL_MS)
    && (forall i :: 0 <= i < |s.puts| && s.puts[i].node == n && s.puts[i].kind != RenewPut ==>
          s.puts[i].guard.None? || s.puts[i].guard.value < hold.etag)
  }

  /** Put `i` was sent by `n`; once applied it protects `n` as a hold would. */
  ghost predicate AwaitedInv(s: State, n: Node, i: nat) {
    && i < |s.puts| && s.puts[i].node == n
    && (s.puts[i].status.Applied? ==> Protected(s, n, Hold(s.puts[i].status.etag, s.puts[i].expires)))
  }

  ghost predicate DonorInv(s: State, n: Node, d: Donor) {
    match d
    case Off => true
    case Reading(sampled) => sampled <= s.now
    case Claiming(i) => AwaitedInv(s, n, i)
    case Holding(h) => Protected(s, n, h)
    case Renewing(h, i) => Protected(s, n, h) && AwaitedInv(s, n, i)
    case ReadingBack(h) => Protected(s, n, h)
  }

  ghost predicate Inv(s: State) {
    && (s.stored.Some? ==> s.stored.value.etag < s.nextEtag)
    && (forall i :: 0 <= i < |s.puts| ==> PutInv(s, s.puts[i]))
    && (forall n <- s.donors :: DonorInv(s, n, s.donors[n]))
  }

  lemma BecomeKeeps(s: State, n: Node, d: Donor)
    requires Inv(s) && DonorInv(s, n, d)
    ensures Inv(Become(s, n, d))
  {
    var t := Become(s, n, d);
    forall i | 0 <= i < |t.puts| ensures PutInv(t, t.puts[i]) { assert PutInv(s, s.puts[i]); }
    forall m <- t.donors ensures DonorInv(t, m, t.donors[m]) { assert DonorInv(s, m, t.donors[m]); }
  }

  lemma TickKeeps(s: State, ms: nat)
    requires Inv(s)
    ensures Inv(s.(now := s.now + ms))
  {
    var t := s.(now := s.now + ms);
    forall i | 0 <= i < |t.puts| ensures PutInv(t, t.puts[i]) { assert PutInv(s, s.puts[i]); }
    forall m <- t.donors ensures DonorInv(t, m, t.donors[m]) { assert DonorInv(s, m, s.donors[m]); }
  }

  /** A new write by `n` disturbs no other donor; `n` itself moves to `d`. */
  lemma SendKeeps(s: State, put: Put, d: Donor)
    requires Inv(s) && PutInv(s, put) && put.status == Pending
    requires DonorInv(Send(s, put), put.node, d)
    ensures Inv(Become(Send(s, put), put.node, d))
  {
    var t := Become(Send(s, put), put.node, d);
    forall i | 0 <= i < |t.puts| ensures PutInv(t, t.puts[i]) {
      assert i < |s.puts| ==> PutInv(s, s.puts[i]);
    }
    forall m <- t.donors ensures DonorInv(t, m, t.donors[m]) {
      if m != put.node { assert DonorInv(s, m, s.donors[m]); } else { assert DonorInv(Send(s, put), m, d); }
    }
  }

  /** The write that applies never replaces another donor's live claim. */
  lemma AppliedPut(s: State, i: nat)
    requires Inv(s) && i < |s.puts| && s.puts[i].status == Pending && GuardHolds(s.stored, s.puts[i].guard)
    ensures s.stored.Some? && s.stored.value.body.Token? && s.stored.value.body.node != s.puts[i].node ==>
      s.puts[i].kind == ClaimPut && s.stored.value.body.expires <= s.now
    ensures s.puts[i].kind != ClaimPut ==>
      s.stored.Some? && s.stored.value.body.Token? && s.stored.value.body.node == s.puts[i].node
  {
    assert PutInv(s, s.puts[i]);
  }

  lemma ProtectedSurvives(s: State, i: nat, n: Node, hold: Hold)
    requires Inv(s) && i < |s.puts| && Protected(s, n, hold)
    ensures Protected(DecidePut(s, i), n, hold)
  {
    assert PutInv(s, s.puts[i]);
    var t := DecidePut(s, i);
    forall j | 0 <= j < |t.puts| && t.puts[j].node == n && t.puts[j].kind != RenewPut
      ensures t.puts[j].guard.None? || t.puts[j].guard.value < hold.etag
    {
      assert s.puts[j].node == n && s.puts[j].kind != RenewPut;
    }
  }

  lemma AwaitedSurvives(s: State, i: nat, n: Node, j: nat)
    requires Inv(s) && i < |s.puts| && AwaitedInv(s, n, j)
    ensures AwaitedInv(DecidePut(s, i), n, j)
  {
    var t := DecidePut(s, i);
    if s.puts[j].status.Applied? {
      ProtectedSurvives(s, i, n, Hold(s.puts[j].status.etag, s.puts[j].expires));
    } else if i == j && t.puts[j].status.Applied? {
      assert PutInv(s, s.puts[i]);
      forall k | 0 <= k < |t.puts| && t.puts[k].node == n && t.puts[k].kind != RenewPut
        ensures t.puts[k].guard.None? || t.puts[k].guard.value < t.puts[j].status.etag
      {
        assert PutInv(s, s.puts[k]);
      }
    }
  }

  lemma DecideKeeps(s: State, i: nat)
    requires Inv(s) && i < |s.puts|
    ensures Inv(DecidePut(s, i))
  {
    var t := DecidePut(s, i);
    forall j | 0 <= j < |t.puts| ensures PutInv(t, t.puts[j]) { assert PutInv(s, s.puts[j]); }
    forall m <- t.donors ensures DonorInv(t, m, t.donors[m]) {
      assert DonorInv(s, m, s.donors[m]);
      match s.donors[m]
      case Off =>
      case Reading(_) =>
      case Claiming(j) => AwaitedSurvives(s, i, m, j);
      case Holding(h) => ProtectedSurvives(s, i, m, h);
      case Renewing(h, j) => ProtectedSurvives(s, i, m, h); AwaitedSurvives(s, i, m, j);
      case ReadingBack(h) => ProtectedSurvives(s, i, m, h);
    }
  }

  lemma ReadKeeps(s: State, n: Node, sampled: nat, fails: bool)
    requires Inv(s) && sampled <= s.now
    ensures Inv(TryClaim(s, n, sampled, if fails then None else s.stored))
  {
    var current := if fails then None else s.stored;
    if MayClaim(current, n, sampled) {
      var guard := if current.Some? then Some(current.value.etag) else None;
      SendKeeps(s, Put(n, ClaimPut, guard, sampled + TOKEN_TTL_MS, Pending), Claiming(|s.puts|));
    } else {
      BecomeKeeps(s, n, Off);
    }
  }

  lemma RenewKeeps(s: State, n: Node, hold: Hold)
    requires Inv(s) && DonorInv(s, n, Holding(hold))
    ensures Inv(Become(Send(s, Put(n, RenewPut, Some(hold.etag), s.now + TOKEN_TTL_MS, Pending)), n,
                       Renewing(hold, |s.puts|)))
  {
    SendKeeps(s, Put(n, RenewPut, Some(hold.etag), s.now + TOKEN_TTL_MS, Pending), Renewing(hold, |s.puts|));
  }

  lemma ReleaseKeeps(s: State, n: Node, hold: Hold)
    requires Inv(s) && Protected(s, n, hold)
    ensures Inv(Become(Send(s, Put(n, ReleasePut, Some(hold.etag), 0, Pending)), n, Off))
  {
    SendKeeps(s, Put(n, ReleasePut, Some(hold.etag), 0, Pending), Off);
  }

  lemma ClaimOutcomeKeeps(s: State, n: Node, i: nat, known: bool)
    requires Inv(s) && AwaitedInv(s, n, i)
    ensures Inv(ClaimOutcome(s, n, i, known))
  {
    if known && s.puts[i].status.Applied? {
      BecomeKeeps(s, n, Holding(Hold(s.puts[i].status.etag, s.puts[i].expires)));
    } else {
      BecomeKeeps(s, n, Off);
    }
  }

  lemma RenewOutcomeKeeps(s: State, n: Node, hold: Hold, i: nat, known: bool)
    requires Inv(s) && Protected(s, n, hold) && AwaitedInv(s, n, i)
    ensures Inv(RenewOutcome(s, n, hold, i, known))
  {
    if !known {
      BecomeKeeps(s, n, ReadingBack(hold));
    } else if s.puts[i].status.Applied? {
      BecomeKeeps(s, n, Holding(Hold(s.puts[i].status.etag, s.puts[i].expires)));
    } else {
      BecomeKeeps(s, n, Off);
    }
  }

  lemma AdoptKeeps(s: State, n: Node, hold: Hold, fails: bool)
    requires Inv(s) && Protected(s, n, hold)
    ensures Inv(Adopt(s, n, if fails then None else s.stored))
  {
    var current := if fails then None else s.stored;
    if current.Some? && current.value.body.Token? && current.value.body.node == n {
      BecomeKeeps(s, n, Holding(Hold(current.value.etag, current.value.body.expires)));
    } else {
      BecomeKeeps(s, n, Off);
    }
  }

  lemma ClaimStepKeeps(s: State, a: Action)
    requires Inv(s) && (a.Sample? || a.Read? || a.ClaimAnswered?)
    ensures Inv(Apply(s, a))
  {
    match a
    case Sample(n) => if DonorOf(s, n).Off? { BecomeKeeps(s, n, Reading(s.now)); }
    case Read(n, fails) => if DonorOf(s, n).Reading? { ReadKeeps(s, n, s.donors[n].sampled, fails); }
    case ClaimAnswered(n, known) => if DonorOf(s, n).Claiming? { ClaimOutcomeKeeps(s, n, s.donors[n].put, known); }
  }

  lemma RenewIsSend(s: State, n: Node)
    requires DonorOf(s, n).Holding?
    ensures Apply(s, Renew(n)) == Become(
      Send(s, Put(n, RenewPut, Some(s.donors[n].hold.etag), s.now + TOKEN_TTL_MS, Pending)),
      n, Renewing(s.donors[n].hold, |s.puts|))
  {
  }

  lemma RenewStepKeeps(s: State, n: Node)
    requires Inv(s)
    ensures Inv(Apply(s, Renew(n)))
  {
    if DonorOf(s, n).Holding? {
      RenewIsSend(s, n);
      RenewKeeps(s, n, s.donors[n].hold);
    }
  }

  lemma RenewAnsweredKeeps(s: State, n: Node, known: bool)
    requires Inv(s)
    ensures Inv(Apply(s, RenewAnswered(n, known)))
  {
    if DonorOf(s, n).Renewing? {
      assert DonorInv(s, n, s.donors[n]);
      RenewOutcomeKeeps(s, n, s.donors[n].hold, s.donors[n].put, known);
    }
  }

  lemma HoldStepKeeps(s: State, a: Action)
    requires Inv(s) && (a.ReadBack? || a.CancelRenew? || a.Release?)
    ensures Inv(Apply(s, a))
  {
    match a
    case ReadBack(n, fails) => if DonorOf(s, n).ReadingBack? { AdoptKeeps(s, n, s.donors[n].hold, fails); }
    case CancelRenew(n) =>
      if DonorOf(s, n).Renewing? || DonorOf(s, n).ReadingBack? { BecomeKeeps(s, n, Holding(s.donors[n].hold)); }
    case Release(n) => if DonorOf(s, n).Holding? { ReleaseKeeps(s, n, s.donors[n].hold); }
  }

  lemma StepKeepsInv(s: State, a: Action)
    requires Inv(s)
    ensures Inv(Apply(s, a))
  {
    match a
    case Tick(ms) => TickKeeps(s, ms);
    case Decide(i) => if i < |s.puts| { DecideKeeps(s, i); }
    case Crash(n) => BecomeKeeps(s, n, Off);
    case Sample(_) => ClaimStepKeeps(s, a);
    case Read(_, _) => ClaimStepKeeps(s, a);
    case ClaimAnswered(_, _) => ClaimStepKeeps(s, a);
    case Renew(n) => RenewStepKeeps(s, n);
    case RenewAnswered(n, known) => RenewAnsweredKeeps(s, n, known);
    case _ => HoldStepKeeps(s, a);
  }

  lemma {:induction false} RunKeepsInv(s: State, actions: seq<Action>)
    requires Inv(s)
    ensures Inv(Run(s, actions))
    decreases |actions|
  {
    if actions != [] {
      StepKeepsInv(s, actions[0]);
      RunKeepsInv(Apply(s, actions[0]), actions[1..]);
    }
  }

  // ---------------------------------------------------------------------
  // Theorems
  // ---------------------------------------------------------------------

  /** At no instant of any run do two nodes hold unexpired claims. */
  lemma Exclusion(init: State, actions: seq<Action>, m: Node, n: Node)
    requires IsInit(init)
    requires HoldOf(Run(init, actions), m).Some? && HoldOf(Run(init, actions), n).Some?
    requires HoldOf(Run(init, actions), m).value.expires > Run(init, actions).now
    requires HoldOf(Run(init, actions), n).value.expires > Run(init, actions).now
    ensures m == n
  {
    RunKeepsInv(init, actions);
    var s := Run(init, actions);
    assert DonorInv(s, m, s.donors[m]) && DonorInv(s, n, s.donors[n]);
  }

  /**
   * In every run, a write that the store applies replaces no other donor's
   * live claim; a renewal or a release replaces only its own donor's record.
   */
  lemma NoClobber(init: State, actions: seq<Action>, i: nat)
    requires IsInit(init)
    requires i < |Run(init, actions).puts| && Run(init, actions).puts[i].status == Pending
    requires GuardHolds(Run(init, actions).stored, Run(init, actions).puts[i].guard)
    ensures var s := Run(init, actions);
      && !HeldByAnother(s.stored, s.puts[i].node, s.now)
      && (s.puts[i].kind != ClaimPut ==>
            s.stored.Some? && s.stored.value.body.Token? && s.stored.value.body.node == s.puts[i].node)
  {
    RunKeepsInv(init, actions);
    AppliedPut(Run(init, actions), i);
  }

  /** An unexpired hold is what the ready gate of every other node sees. */
  lemma HoldIsVisible(init: State, actions: seq<Action>, n: Node, other: Node)
    requires IsInit(init) && n != other
    requires HoldOf(Run(init, actions), n).Some?
    requires HoldOf(Run(init, actions), n).value.expires > Run(init, actions).now
    ensures HeldByAnother(Run(init, actions).stored, other, Run(init, actions).now)
  {
    RunKeepsInv(init, actions);
    var s := Run(init, actions);
    assert DonorInv(s, n, s.donors[n]);
  }

  // ---------------------------------------------------------------------
  // What a donor's steps come to
  // ---------------------------------------------------------------------

  /**
   * A claim that nothing disturbs acquires the token for two minutes, unless the object names another node and is
   * unexpired: then nothing is sent. An object that does not decode is no obstacle.
   */
  lemma UndisturbedClaim(s: State, n: Node)
    requires DonorOf(s, n).Off?
    ensures var t := Apply(Apply(Apply(Apply(s, Sample(n)), Read(n, false)), Decide(|s.puts|)), ClaimAnswered(n, true));
      if s.stored.Some? && s.stored.value.body.Token? && s.stored.value.body.node != n
         && s.stored.value.body.expires > s.now
      then DonorOf(t, n) == Off && t.stored == s.stored && t.puts == s.puts
      else
        && HoldOf(t, n) == Some(Hold(s.nextEtag, s.now + 120_000))
        && t.stored == Some(Stored(Token(n, s.now + 120_000), s.nextEtag))
  {
    var s1 := Apply(s, Sample(n));
    var s2 := Apply(s1, Read(n, false));
    if !HeldByAnother(s.stored, n, s.now) {
      assert DonorOf(s2, n) == Claiming(|s.puts|) && s2.puts[|s.puts|].status == Pending;
      var s3 := Apply(s2, Decide(|s.puts|));
      assert s3.puts[|s.puts|].status == Applied(s.nextEtag);
    }
  }

  /** The token lapses: whoever holds it, once its time has passed an undisturbed donor acquires it. */
  lemma TokenLapses(s: State, n: Node, ms: nat)
    requires DonorOf(s, n).Off? && s.stored.Some? && s.stored.value.body.Token?
    requires s.stored.value.body.expires <= s.now + ms
    ensures var lapsed := Apply(s, Tick(ms));
      var t := Apply(Apply(Apply(Apply(lapsed, Sample(n)), Read(n, false)), Decide(|s.puts|)), ClaimAnswered(n, true));
      HoldOf(t, n) == Some(Hold(s.nextEtag, s.now + ms + 120_000))
  {
    UndisturbedClaim(Apply(s, Tick(ms)), n);
  }

  /** A failed read counts as absence, so it acquires the token exactly when there is none, and replaces nothing. */
  lemma BlindClaim(s: State, n: Node)
    requires DonorOf(s, n).Off?
    ensures var t := Apply(Apply(Apply(Apply(s, Sample(n)), Read(n, true)), Decide(|s.puts|)), ClaimAnswered(n, true));
      && HoldOf(t, n) == (if s.stored.None? then Some(Hold(s.nextEtag, s.now + 120_000)) else None)
      && (s.stored.Some? ==> t.stored == s.stored && DonorOf(t, n) == Off)
  {
    var s2 := Apply(Apply(s, Sample(n)), Read(n, true));
    assert DonorOf(s2, n) == Claiming(|s.puts|);
    assert s2.puts[|s.puts|] == Put(n, ClaimPut, None, s.now + TOKEN_TTL_MS, Pending);
    var s3 := Apply(s2, Decide(|s.puts|));
    assert s3.puts[|s.puts|].status == if s.stored.None? then Applied(s.nextEtag) else Rejected;
  }

  /** A claim whose answer is lost holds nothing; the next attempt reads the node's own record and claims over it. */
  lemma UnknownClaimIsRetried(s: State, n: Node)
    requires DonorOf(s, n).Off? && !HeldByAnother(s.stored, n, s.now)
    ensures var sent := Apply(Apply(s, Sample(n)), Read(n, false));
      var lost := Apply(Apply(sent, Decide(|s.puts|)), ClaimAnswered(n, false));
      var again := Apply(Apply(lost, Sample(n)), Read(n, false));
      var t := Apply(Apply(again, Decide(|s.puts| + 1)), ClaimAnswered(n, true));
      HoldOf(lost, n) == None && HoldOf(t, n) == Some(Hold(s.nextEtag + 1, s.now + 120_000))
  {
    var sent := Apply(Apply(s, Sample(n)), Read(n, false));
    assert DonorOf(sent, n) == Claiming(|s.puts|) && sent.puts[|s.puts|].status == Pending;
    var decided := Apply(sent, Decide(|s.puts|));
    assert decided.stored == Some(Stored(Token(n, s.now + TOKEN_TTL_MS), s.nextEtag));
    var lost := Apply(decided, ClaimAnswered(n, false));
    UndisturbedClaim(lost, n);
  }

  /** A renewal that nothing disturbs moves the hold, and the object, to two minutes from now. */
  lemma UndisturbedRenewal(s: State, n: Node)
    requires DonorOf(s, n).Holding? && GuardHolds(s.stored, Some(DonorOf(s, n).hold.etag))
    ensures var t := Apply(Apply(Apply(s, Renew(n)), Decide(|s.puts|)), RenewAnswered(n, true));
      && HoldOf(t, n) == Some(Hold(s.nextEtag, s.now + 120_000)) && DonorOf(t, n).Holding?
      && t.stored == Some(Stored(Token(n, s.now + 120_000), s.nextEtag))
  {
    RenewIsSend(s, n);
    var s1 := Apply(s, Renew(n));
    var s2 := Apply(s1, Decide(|s.puts|));
    assert s2.puts[|s.puts|].status == Applied(s.nextEtag);
  }

  /** A renewal that finds another object under the key loses the hold and leaves the object as it is. */
  lemma LostRenewal(s: State, n: Node)
    requires DonorOf(s, n).Holding? && !GuardHolds(s.stored, Some(DonorOf(s, n).hold.etag))
    ensures var t := Apply(Apply(Apply(s, Renew(n)), Decide(|s.puts|)), RenewAnswered(n, true));
      HoldOf(t, n) == None && DonorOf(t, n) == Off && t.stored == s.stored
  {
    RenewIsSend(s, n);
    var s2 := Apply(Apply(s, Renew(n)), Decide(|s.puts|));
    assert s2.puts[|s.puts|].status == Rejected;
  }

  /** A renewal whose answer is lost holds what the object says, exactly when the object names this node. */
  lemma UnknownRenewal(s: State, n: Node, fails: bool)
    requires DonorOf(s, n).Renewing? && DonorOf(s, n).put < |s.puts|
    ensures var t := Apply(Apply(s, RenewAnswered(n, false)), ReadBack(n, fails));
      && t.stored == s.stored
      && HoldOf(t, n) ==
           if !fails && s.stored.Some? && s.stored.value.body.Token? && s.stored.value.body.node == n
           then Some(Hold(s.stored.value.etag, s.stored.value.body.expires)) else None
  {
    var s1 := Apply(s, RenewAnswered(n, false));
    assert DonorOf(s1, n) == ReadingBack(DonorOf(s, n).hold);
  }

  /** So when the renewal was applied, a lost answer costs nothing. */
  lemma LostAnswerIsReadBack(s: State, n: Node)
    requires DonorOf(s, n).Holding? && GuardHolds(s.stored, Some(DonorOf(s, n).hold.etag))
    ensures var decided := Apply(Apply(s, Renew(n)), Decide(|s.puts|));
      var t := Apply(Apply(decided, RenewAnswered(n, false)), ReadBack(n, false));
      t == Apply(decided, RenewAnswered(n, true))
  {
    RenewIsSend(s, n);
    var decided := Apply(Apply(s, Renew(n)), Decide(|s.puts|));
    assert decided.puts[|s.puts|].status == Applied(s.nextEtag);
    UnknownRenewal(decided, n, false);
    var d := Holding(Hold(s.nextEtag, s.now + TOKEN_TTL_MS));
    assert decided.donors[n := ReadingBack(DonorOf(s, n).hold)][n := d] == decided.donors[n := d];
  }

  /** A drain that stops waiting for its renewal goes on with the hold it had; a crash forgets it, and writes stay. */
  lemma InterruptedRenewal(s: State, n: Node)
    requires DonorOf(s, n).Renewing? || DonorOf(s, n).ReadingBack?
    ensures DonorOf(Apply(s, CancelRenew(n)), n) == Holding(DonorOf(s, n).hold)
    ensures var t := Apply(s, Crash(n)); DonorOf(t, n) == Off && t.stored == s.stored && t.puts == s.puts
  {
  }

  /** A release that nothing disturbs frees the token at once, for every node. */
  lemma UndisturbedRelease(s: State, n: Node, other: Node)
    requires DonorOf(s, n).Holding? && GuardHolds(s.stored, Some(DonorOf(s, n).hold.etag))
    ensures var t := Apply(Apply(s, Release(n)), Decide(|s.puts|));
      && HoldOf(t, n).None? && MayClaim(t.stored, other, t.now)
      && t.stored == Some(Stored(Token(n, 0), s.nextEtag))
  {
    var s1 := Apply(s, Release(n));
    assert s1.puts[|s.puts|] == Put(n, ReleasePut, Some(DonorOf(s, n).hold.etag), 0, Pending);
  }

  /** A release that finds another object under the key leaves it alone. */
  lemma LateRelease(s: State, n: Node)
    requires DonorOf(s, n).Holding? && !GuardHolds(s.stored, Some(DonorOf(s, n).hold.etag))
    ensures var t := Apply(Apply(s, Release(n)), Decide(|s.puts|)); HoldOf(t, n).None? && t.stored == s.stored
  {
    var s1 := Apply(s, Release(n));
    assert s1.puts[|s.puts|] == Put(n, ReleasePut, Some(DonorOf(s, n).hold.etag), 0, Pending);
  }
}
