/**
 * Conditional blob writes: any number of `put_blob` calls race on one object,
 * with each other and with any other writer.
 *
 * A call with conditions reads the object's head, judges it, and sends a write
 * fenced by that version's token. The write may be decided at any later time
 * or never, and its caller may not learn how. The store never gives two
 * versions of the object the same token.
 */
module ConditionalWrites {
  import opened Prelude
  import opened BlobConditions

  datatype Backend = S3 | Gcs | Azure | Local

  datatype Version = Version(etag: Option<string>, generation: Option<string>, uploaded: int)

  /** The precondition a fenced write sends. */
  datatype Fence = Fence(etag: Option<string>, generation: Option<string>)

  datatype Mode = Overwrite | Create | Update(fence: Fence)

  /** An applied write names its commit. */
  datatype Status = Unsent | Pending(mode: Mode) | Applied(commit: nat) | Rejected(mode: Mode)

  /** `Written` is a metadata answer, `Refused` is `Ok(None)`, `Failed` any error. */
  datatype Answer = Waiting | Written | Refused | Failed

  datatype Call = Call(conditions: Conditions, seen: Option<Version>, status: Status, answer: Answer)

  /** A write that took effect: whose it was and what it replaced. */
  datatype Commit = Commit(call: nat, before: Option<Version>)

  datatype Store = Store(backend: Backend, stored: Option<Version>, used: set<string>)

  datatype State = State(store: Store, calls: seq<Call>, commits: seq<Commit>)

  datatype Action =
    | Begin(conditions: Conditions)
    | Head(call: nat, fails: bool)
    | Decide(call: nat, version: Version)
    | Answered(call: nat, known: bool)
    | OutsideWrite(version: Version)
    | OutsideDelete

  function Token(backend: Backend, v: Version): Option<string> {
    var token := if backend == Gcs then v.generation else v.etag;
    if token.Some? && token.value != "" then token else None
  }

  function FenceOf(backend: Backend, token: string): Fence {
    if backend == Gcs then Fence(None, Some(token)) else Fence(Some(token), None)
  }

  /** The store applies a fenced write only to a version that carries what the fence names. */
  predicate Passes(fence: Fence, v: Version) {
    && (fence.etag.Some? ==> v.etag == fence.etag)
    && (fence.generation.Some? ==> v.generation == fence.generation)
  }

  /** The condition, judged of a version or of absence, where upload times are not asked for. */
  predicate Holds(c: Conditions, current: Option<Version>) {
    match current
    case None => EtagMet(c, None)
    case Some(v) => EtagMet(c, v.etag) && TimeMet(c, v.uploaded)
  }

  predicate IsFresh(store: Store, v: Version) {
    Token(store.backend, v).Some? ==> Token(store.backend, v).value !in store.used
  }

  function Install(store: Store, v: Version): Store {
    var token := Token(store.backend, v);
    Store(store.backend, Some(v), if token.Some? then store.used + {token.value} else store.used)
  }

  function BeginCall(c: Conditions): Call {
    Call(c, None, if IsEmpty(c) then Pending(Overwrite) else Unsent, Waiting)
  }

  function Judge(call: Call, store: Store): Call {
    match store.stored
    case Some(current) =>
      if !EtagMet(call.conditions, current.etag) || !TimeMet(call.conditions, current.uploaded) then
        call.(answer := Refused)
      else if Token(store.backend, current).None? then call.(answer := Failed)
      else
        call.(seen := Some(current),
              status := Pending(Update(FenceOf(store.backend, Token(store.backend, current).value))))
    case None =>
      if EtagMet(call.conditions, None) then call.(status := Pending(Create)) else call.(answer := Refused)
  }

  predicate Accepts(store: Store, mode: Mode) {
    match mode
    case Overwrite => true
    case Create => store.stored.None?
    case Update(fence) => store.stored.Some? && Passes(fence, store.stored.value)
  }

  function DecideCall(s: State, c: nat, v: Version): State
    requires c < |s.calls|
  {
    var call := s.calls[c];
    if !call.status.Pending? then s
    else if !Accepts(s.store, call.status.mode) then
      s.(calls := s.calls[c := call.(status := Rejected(call.status.mode))])
    else if !IsFresh(s.store, v) then s
    else
      State(Install(s.store, v), s.calls[c := call.(status := Applied(|s.commits|))],
            s.commits + [Commit(c, s.store.stored)])
  }

  function AnswerOf(call: Call, known: bool): Answer {
    if !known then Failed
    else match call.status
      case Applied(_) => Written
      case Rejected(mode) => if mode == Overwrite then Failed else Refused
      case _ => Waiting
  }

  function Apply(s: State, a: Action): State {
    match a
    case Begin(c) => s.(calls := s.calls + [BeginCall(c)])
    case Head(c, fails) =>
      if c < |s.calls| && s.calls[c].status.Unsent? && s.calls[c].answer.Waiting? then
        s.(calls := s.calls[c := if fails then s.calls[c].(answer := Failed) else Judge(s.calls[c], s.store)])
      else s
    case Decide(c, v) => if c < |s.calls| then DecideCall(s, c, v) else s
    case Answered(c, known) =>
      if c < |s.calls| && s.calls[c].answer.Waiting? && !s.calls[c].status.Unsent? then
        s.(calls := s.calls[c := s.calls[c].(answer := AnswerOf(s.calls[c], known))])
      else s
    case OutsideWrite(v) => if IsFresh(s.store, v) then s.(store := Install(s.store, v)) else s
    case OutsideDelete => s.(store := s.store.(stored := None))
  }

  function Run(s: State, actions: seq<Action>): State
    decreases |actions|
  {
    if actions == [] then s else Run(Apply(s, actions[0]), actions[1..])
  }

  predicate IsInit(s: State) {
    && s.calls == [] && s.commits == [] && TokenUsed(s.store)
  }

  // ---------------------------------------------------------------------
  // The invariant
  // ---------------------------------------------------------------------

  predicate TokenUsed(store: Store) {
    store.stored.Some? && Token(store.backend, store.stored.value).Some? ==>
      Token(store.backend, store.stored.value).value in store.used
  }

  /** A fence built from a version's token passes exactly the versions with that token. */
  lemma FencePasses(backend: Backend, token: string, v: Version)
    requires token != ""
    ensures Passes(FenceOf(backend, token), v) <==> Token(backend, v) == Some(token)
  {
  }

  /** No later version can be taken for `seen`. */
  predicate Pinned(store: Store, seen: Version) {
    var token := Token(store.backend, seen);
    && token.Some? && token.value in store.used
    && (store.stored.Some? && Token(store.backend, store.stored.value) == token ==> store.stored.value == seen)
  }

  predicate SentInv(store: Store, call: Call) {
    match call.status
    case Unsent => call.seen.None?
    case Pending(Overwrite) => IsEmpty(call.conditions)
    case Pending(Create) => call.seen.None? && EtagMet(call.conditions, None)
    case Pending(Update(fence)) =>
      && call.seen.Some? && Holds(call.conditions, call.seen) && Pinned(store, call.seen.value)
      && fence == FenceOf(store.backend, Token(store.backend, call.seen.value).value)
    case _ => true
  }

  predicate AnswerInv(call: Call) {
    match call.answer
    case Written => call.status.Applied?
    case Refused => call.status.Unsent? || (call.status.Rejected? && !call.status.mode.Overwrite?)
    case _ => true
  }

  /** A call without conditions is sent as an overwrite, which nothing refuses. */
  predicate PlainInv(call: Call) {
    IsEmpty(call.conditions) ==>
      && (call.status == Pending(Overwrite) || call.status.Applied?)
      && call.answer != Refused
  }

  predicate CallsInv(s: State) {
    forall c :: 0 <= c < |s.calls| ==>
      SentInv(s.store, s.calls[c]) && AnswerInv(s.calls[c]) && PlainInv(s.calls[c])
  }

  predicate CommitInv(s: State, k: nat, commit: Commit) {
    && commit.call < |s.calls| && s.calls[commit.call].status == Applied(k)
    && (IsEmpty(s.calls[commit.call].conditions)
        || (commit.before == s.calls[commit.call].seen && Holds(s.calls[commit.call].conditions, commit.before)))
  }

  predicate CommitsInv(s: State) {
    && (forall k :: 0 <= k < |s.commits| ==> CommitInv(s, k, s.commits[k]))
    && (forall c :: 0 <= c < |s.calls| && s.calls[c].status.Applied? ==>
          s.calls[c].status.commit < |s.commits| && s.commits[s.calls[c].status.commit].call == c)
  }

  predicate Inv(s: State) {
    TokenUsed(s.store) && CallsInv(s) && CommitsInv(s)
  }

  lemma StoreKeeps(s: State, store: Store)
    requires Inv(s)
    requires store == s.store.(stored := None) || exists v :: IsFresh(s.store, v) && store == Install(s.store, v)
    ensures Inv(s.(store := store))
  {
    assert forall call :: SentInv(s.store, call) ==> SentInv(store, call);
    assert forall k, commit :: CommitInv(s, k, commit) ==> CommitInv(s.(store := store), k, commit);
  }

  /** A call moves on without touching the store. */
  lemma CallKeeps(s: State, c: nat, call: Call)
    requires Inv(s) && c < |s.calls| && SentInv(s.store, call) && AnswerInv(call) && PlainInv(call)
    requires call.conditions == s.calls[c].conditions
    requires (call.status.Applied? || s.calls[c].status.Applied?) ==>
      call.status == s.calls[c].status && call.seen == s.calls[c].seen
    ensures Inv(s.(calls := s.calls[c := call]))
  {
    var t := s.(calls := s.calls[c := call]);
    forall k | 0 <= k < |t.commits| ensures CommitInv(t, k, t.commits[k]) {
      assert CommitInv(s, k, s.commits[k]);
    }
  }

  /** What an accepted write replaces is what its call judged. */
  lemma AcceptedIsJudged(store: Store, call: Call)
    requires SentInv(store, call) && call.status.Pending? && Accepts(store, call.status.mode)
    ensures IsEmpty(call.conditions) || (store.stored == call.seen && Holds(call.conditions, store.stored))
  {
    if call.status.mode.Update? {
      FencePasses(store.backend, Token(store.backend, call.seen.value).value, store.stored.value);
    }
  }

  lemma CommitKeeps(s: State, c: nat, before: Option<Version>)
    requires Inv(s) && c < |s.calls| && s.calls[c].status.Pending? && s.calls[c].answer != Refused
    requires IsEmpty(s.calls[c].conditions) || (before == s.calls[c].seen && Holds(s.calls[c].conditions, before))
    ensures Inv(s.(calls := s.calls[c := s.calls[c].(status := Applied(|s.commits|))],
                   commits := s.commits + [Commit(c, before)]))
  {
    var t := s.(calls := s.calls[c := s.calls[c].(status := Applied(|s.commits|))],
                commits := s.commits + [Commit(c, before)]);
    forall k | 0 <= k < |t.commits| ensures CommitInv(t, k, t.commits[k]) {
      if k < |s.commits| { assert CommitInv(s, k, s.commits[k]); }
    }
  }

  lemma DecideKeeps(s: State, c: nat, v: Version)
    requires Inv(s) && c < |s.calls|
    ensures Inv(DecideCall(s, c, v))
  {
    var call := s.calls[c];
    assert SentInv(s.store, call) && AnswerInv(call);
    if call.status.Pending? {
      if !Accepts(s.store, call.status.mode) {
        CallKeeps(s, c, call.(status := Rejected(call.status.mode)));
      } else if IsFresh(s.store, v) {
        AcceptedIsJudged(s.store, call);
        StoreKeeps(s, Install(s.store, v));
        CommitKeeps(s.(store := Install(s.store, v)), c, s.store.stored);
      }
    }
  }

  lemma BeginKeeps(s: State, c: Conditions)
    requires Inv(s)
    ensures Inv(Apply(s, Begin(c)))
  {
    var t := Apply(s, Begin(c));
    forall k | 0 <= k < |t.commits| ensures CommitInv(t, k, t.commits[k]) {
      assert CommitInv(s, k, s.commits[k]);
    }
  }

  lemma StepKeepsInv(s: State, a: Action)
    requires Inv(s)
    ensures Inv(Apply(s, a))
  {
    match a
    case Begin(c) => BeginKeeps(s, c);
    case Decide(c, v) => if c < |s.calls| { DecideKeeps(s, c, v); }
    case Head(c, fails) =>
      var t := Apply(s, a);
      if t != s { CallKeeps(s, c, t.calls[c]); }
    case Answered(c, known) =>
      var t := Apply(s, a);
      if t != s { CallKeeps(s, c, t.calls[c]); }
    case OutsideWrite(v) => if IsFresh(s.store, v) { StoreKeeps(s, Install(s.store, v)); }
    case OutsideDelete => StoreKeeps(s, s.store.(stored := None));
  }

  lemma {:induction false} RunKeepsInv(s: State, actions: seq<Action>)
    requires Inv(s)
    ensures Inv(Run(s, actions))
    decreases |actions|
  {
    if actions != [] {
      StepKeepsInv(s, actions[0]);
      RunKeepsInv(Apply(s, actions[0]), actions[1..]);
    }
  }

  lemma {:induction false} AnswersAreFinal(s: State, actions: seq<Action>, c: nat)
    requires c < |s.calls| && !s.calls[c].answer.Waiting?
    ensures c < |Run(s, actions).calls| && Run(s, actions).calls[c].answer == s.calls[c].answer
    decreases |actions|
  {
    if actions != [] { AnswersAreFinal(Apply(s, actions[0]), actions[1..], c); }
  }

  // ---------------------------------------------------------------------
  // Theorems
  // ---------------------------------------------------------------------

  /** What the four fields ask of a version, or of absence, of which no upload time is asked. */
  predicate Asked(c: Conditions, current: Option<Version>) {
    var etag := if current.Some? then current.value.etag else None;
    && (c.ifMatch.Some? ==> Matches(c.ifMatch.value, etag))
    && (c.ifNoneMatch.Some? ==> !Matches(c.ifNoneMatch.value, etag))
    && (current.Some? && c.uploadedAfter.Some? ==> c.uploadedAfter.value < current.value.uploaded)
    && (current.Some? && c.uploadedBefore.Some? ==> current.value.uploaded < c.uploadedBefore.value)
  }

  const NO_CONDITIONS: Conditions := Conditions(None, None, None, None)

  /** A conditional write that takes effect replaces the very version, or absence, its condition was judged true of. */
  lemma AppliedHadItsCondition(start: State, actions: seq<Action>, k: nat)
    requires IsInit(start) && k < |Run(start, actions).commits|
    ensures var s := Run(start, actions);
      && s.commits[k].call < |s.calls|
      && Asked(s.calls[s.commits[k].call].conditions, s.commits[k].before)
  {
    RunKeepsInv(start, actions);
    var s := Run(start, actions);
    assert CommitInv(s, k, s.commits[k]);
  }

  /** In no run is a call without conditions refused. */
  lemma PlainNeverRefused(start: State, actions: seq<Action>, c: nat)
    requires IsInit(start) && c < |Run(start, actions).calls|
    requires Run(start, actions).calls[c].conditions == NO_CONDITIONS
    ensures Run(start, actions).calls[c].answer != Refused
  {
    RunKeepsInv(start, actions);
    assert PlainInv(Run(start, actions).calls[c]);
  }

  /** A refused call has written nothing, and never will; an answered write took effect exactly once. */
  lemma AnswersAreTrue(start: State, actions: seq<Action>, later: seq<Action>, c: nat)
    requires IsInit(start) && c < |Run(start, actions).calls|
    ensures var s := Run(Run(start, actions), later);
      && (Run(start, actions).calls[c].answer == Refused ==>
            forall k :: 0 <= k < |s.commits| ==> s.commits[k].call != c)
      && (Run(start, actions).calls[c].answer == Written ==>
            exists k :: 0 <= k < |s.commits| && s.commits[k].call == c)
    ensures var s := Run(Run(start, actions), later);
      forall j, k :: 0 <= j < k < |s.commits| ==> s.commits[j].call != s.commits[k].call
  {
    RunKeepsInv(start, actions);
    RunKeepsInv(Run(start, actions), later);
    var s := Run(Run(start, actions), later);
    if !Run(start, actions).calls[c].answer.Waiting? { AnswersAreFinal(Run(start, actions), later, c); }
    forall j | 0 <= j < |s.commits|
      ensures s.commits[j].call < |s.calls| && s.calls[s.commits[j].call].status == Applied(j)
    {
      assert CommitInv(s, j, s.commits[j]);
    }
  }

  lemma RunCons(s: State, a: Action, rest: seq<Action>)
    ensures Run(s, [a] + rest) == Run(Apply(s, a), rest)
  {
    assert ([a] + rest)[1..] == rest;
  }

  /** The version carries what this backend fences by: the generation on GCS, the entity tag elsewhere. */
  predicate CanFence(backend: Backend, v: Version) {
    match backend
    case Gcs => v.generation.Some? && v.generation.value != ""
    case _ => v.etag.Some? && v.etag.value != ""
  }

  function CallSteps(n: nat, c: Conditions, v: Version): seq<Action> {
    [Begin(c)] + ([Head(n, false)] + ([Decide(n, v)] + [Answered(n, true)]))
  }

  lemma RunCall(s: State, n: nat, c: Conditions, v: Version)
    ensures Run(s, CallSteps(n, c, v)) ==
      Apply(Apply(Apply(Apply(s, Begin(c)), Head(n, false)), Decide(n, v)), Answered(n, true))
  {
    var s1 := Apply(s, Begin(c));
    var s2 := Apply(s1, Head(n, false));
    var s3 := Apply(s2, Decide(n, v));
    RunCons(s, Begin(c), [Head(n, false)] + ([Decide(n, v)] + [Answered(n, true)]));
    RunCons(s1, Head(n, false), [Decide(n, v)] + [Answered(n, true)]);
    RunCons(s2, Decide(n, v), [Answered(n, true)]);
    assert [Answered(n, true)] + [] == [Answered(n, true)];
    RunCons(s3, Answered(n, true), []);
  }

  /** Left alone, a call writes exactly when its condition holds of what is there and a token can fence it. */
  lemma UndisturbedCall(s: State, c: Conditions, v: Version)
    requires Inv(s) && c != NO_CONDITIONS && IsFresh(s.store, v)
    ensures var n := |s.calls|;
      var t := Run(s, CallSteps(n, c, v));
      var fenced := s.store.stored.Some? ==> CanFence(s.store.backend, s.store.stored.value);
      && n < |t.calls| && t.calls[n].answer ==
           (if !Asked(c, s.store.stored) then Refused else if fenced then Written else Failed)
      && t.store.stored == if Asked(c, s.store.stored) && fenced then Some(v) else s.store.stored
  {
    var n := |s.calls|;
    RunCall(s, n, c, v);
    assert Apply(Apply(s, Begin(c)), Head(n, false)).calls[n] == Judge(BeginCall(c), s.store);
    if s.store.stored.Some? && Token(s.store.backend, s.store.stored.value).Some? {
      FencePasses(s.store.backend, Token(s.store.backend, s.store.stored.value).value, s.store.stored.value);
    }
  }

  /** Left alone, a call without conditions writes, whatever is there. */
  lemma UndisturbedPlainCall(s: State, v: Version)
    requires IsFresh(s.store, v)
    ensures var n := |s.calls|;
      var t := Run(s, CallSteps(n, NO_CONDITIONS, v));
      n < |t.calls| && t.calls[n].answer == Written && t.store.stored == Some(v)
  {
    var n := |s.calls|;
    RunCall(s, n, NO_CONDITIONS, v);
    var s2 := Apply(Apply(s, Begin(NO_CONDITIONS)), Head(n, false));
    assert s2.calls[n] == Call(NO_CONDITIONS, None, Pending(Overwrite), Waiting);
  }

  /** Judged and sent, and then overtaken by another write: the call is refused and the other write stays. */
  lemma OvertakenCall(s: State, c: Conditions, v: Version, w: Version)
    requires Inv(s) && c != NO_CONDITIONS && IsFresh(s.store, w)
    requires Asked(c, s.store.stored) && (s.store.stored.Some? ==> CanFence(s.store.backend, s.store.stored.value))
    ensures var n := |s.calls|;
      var sent := Apply(Apply(s, Begin(c)), Head(n, false));
      var t := Apply(Apply(Apply(sent, OutsideWrite(w)), Decide(n, v)), Answered(n, true));
      t.calls[n].answer == Refused && t.store.stored == Some(w) && t.commits == s.commits
  {
    var n := |s.calls|;
    var sent := Apply(Apply(s, Begin(c)), Head(n, false));
    assert sent.calls[n] == Judge(BeginCall(c), s.store);
    if s.store.stored.Some? {
      FencePasses(s.store.backend, Token(s.store.backend, s.store.stored.value).value, w);
    }
  }

  /** The same when the version that was judged is deleted: nothing is written in its place. */
  lemma DeletedUnderCall(s: State, c: Conditions, v: Version)
    requires Inv(s) && c != NO_CONDITIONS && s.store.stored.Some?
    requires Asked(c, s.store.stored) && CanFence(s.store.backend, s.store.stored.value)
    ensures var n := |s.calls|;
      var sent := Apply(Apply(s, Begin(c)), Head(n, false));
      var t := Apply(Apply(Apply(sent, OutsideDelete), Decide(n, v)), Answered(n, true));
      t.calls[n].answer == Refused && t.store.stored == None && t.commits == s.commits
  {
    var n := |s.calls|;
    var sent := Apply(Apply(s, Begin(c)), Head(n, false));
    assert sent.calls[n] == Judge(BeginCall(c), s.store);
  }

  /** A call whose head fails, or whose answer is lost, fails; the head's failure writes nothing. */
  lemma FailedCall(s: State, n: nat)
    requires n < |s.calls| && s.calls[n].answer.Waiting?
    ensures var t := Apply(s, if s.calls[n].status.Unsent? then Head(n, true) else Answered(n, false));
      t.calls[n] == s.calls[n].(answer := Failed) && t.store == s.store && t.commits == s.commits
  {
  }
}
