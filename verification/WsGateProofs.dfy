/** What every run of a `WsGate` keeps: order, proof, and no emission after a failure. */
module WsGateProofs {
  import opened Prelude
  import opened WsGate

  datatype Batch = Batch(request: Request, frames: Frames)

  datatype Fate = Emitted | Dropped

  /**
   * One cell's history: the batches in arrival order, the verdict of each, the
   * fate of the oldest ones, and the frames that left the process.
   */
  datatype History = History(arrived: seq<Batch>, verdicts: seq<Option<bool>>, fates: seq<Fate>, out: seq<Frames>)

  const NoHistory := History([], [], [], [])

  datatype Trace = Trace(gates: Gates, history: map<Scope, History>)

  datatype Event =
    | Arrival(request: Request, scope: Scope, frames: Frames)
    | Settled(request: Request, ok: bool)

  function QueueOf(g: Gates, scope: Scope): seq<Barrier> {
    if scope in g.queues then g.queues[scope] else []
  }

  function HistoryOf(t: Trace, scope: Scope): History {
    if scope in t.history then t.history[scope] else NoHistory
  }

  /** Some cell still holds a batch of `request`. */
  ghost predicate Holds(g: Gates, request: Request) {
    exists scope <- g.queues :: IndexOf(g.queues[scope], request) < |g.queues[scope]|
  }

  function Repeat(fate: Fate, n: nat): (r: seq<Fate>)
    ensures |r| == n && forall i :: 0 <= i < n ==> r[i] == fate
  {
    seq(n, _ => fate)
  }

  function Arrived(h: History, request: Request, frames: Frames): History {
    h.(arrived := h.arrived + [Batch(request, frames)], verdicts := h.verdicts + [None])
  }

  /** Barrier `i` of the queue got its verdict; the gate then flushed or broke, and emitted `emitted`. */
  function Judged(h: History, queue: seq<Barrier>, i: nat, ok: bool, emitted: seq<Frames>): History
    requires i < |queue| && |h.fates| + |queue| == |h.verdicts|
  {
    var settled := queue[i := queue[i].(settled := Some(ok))];
    var verdicts := h.verdicts[|h.fates| + i := Some(ok)];
    var fates := if Broken(settled) then Repeat(Dropped, |queue|) else Repeat(Emitted, ProvenPrefix(settled));
    History(h.arrived, verdicts, h.fates + fates, h.out + emitted)
  }

  /**
   * One event. The output of a cell is what the gate emits at its verdicts. A request id that is still held
   * is not used again, so such an arrival changes nothing.
   */
  ghost function Step(t: Trace, e: Event): Trace {
    match e
    case Arrival(r, scope, frames) =>
      if Holds(t.gates, r) then t
      else Trace(Arrive(t.gates, r, scope, frames),
                 t.history[scope := Arrived(HistoryOf(t, scope), r, frames)])
    case Settled(r, ok) =>
      if r !in t.gates.gated then t.(gates := Verdict(t.gates, r, ok).gates)
      else
        var scope, released := t.gates.gated[r], Verdict(t.gates, r, ok);
        var queue, h := QueueOf(t.gates, scope), HistoryOf(t, scope);
        var i := IndexOf(queue, r);
        if i < |queue| && |h.fates| + |queue| == |h.verdicts| then
          Trace(released.gates, t.history[scope := Judged(h, queue, i, ok, released.emitted)])
        else
          Trace(released.gates, t.history[scope := h.(out := h.out + released.emitted)])
  }

  ghost function Run(t: Trace, events: seq<Event>): Trace
    decreases |events|
  {
    if events == [] then t else Run(Step(t, events[0]), events[1..])
  }

  const Start := Trace(Gates(map[], map[]), map[])

  // ---------------------------------------------------------------------
  // One cell
  // ---------------------------------------------------------------------

  /** The frames of the batches whose fate is `Emitted`, in arrival order. */
  function OutputOf(arrived: seq<Batch>, fates: seq<Fate>): seq<Frames>
    requires |fates| <= |arrived|
  {
    if fates == [] then []
    else
      var last := |fates| - 1;
      OutputOf(arrived, fates[..last]) + (if fates[last] == Emitted then [arrived[last].frames] else [])
  }

  /** No held barrier failed, and the one at the front is not ready to flush. */
  predicate AtRest(queue: seq<Barrier>) {
    !Broken(queue) && (queue != [] ==> queue[0].settled != Some(true))
  }

  predicate DistinctRequests(queue: seq<Barrier>) {
    forall i, j :: 0 <= i < j < |queue| ==> queue[i].request != queue[j].request
  }

  /** The barrier that batch `i` waits in. */
  function BarrierOf(h: History, i: nat): Barrier
    requires i < |h.arrived| == |h.verdicts|
  {
    Barrier(h.arrived[i].request, h.verdicts[i], h.arrived[i].frames)
  }

  /** The queue is exactly the batches that have no fate yet. */
  predicate Tracks(queue: seq<Barrier>, h: History) {
    && |h.verdicts| == |h.arrived| == |h.fates| + |queue|
    && forall j :: 0 <= j < |queue| ==> queue[j] == BarrierOf(h, |h.fates| + j)
  }

  /** Emitted batches were proven; a dropped one was dropped beside a failed one. */
  ghost predicate FatesJust(h: History) {
    && |h.fates| <= |h.verdicts|
    && (forall i :: 0 <= i < |h.fates| && h.fates[i] == Emitted ==> h.verdicts[i] == Some(true))
    && (forall i :: 0 <= i < |h.fates| && h.fates[i] == Dropped ==>
          exists j :: 0 <= j < |h.fates| && h.fates[j] == Dropped && h.verdicts[j] == Some(false))
  }

  ghost predicate CellInv(queue: seq<Barrier>, h: History) {
    && Tracks(queue, h) && FatesJust(h) && AtRest(queue) && DistinctRequests(queue)
    && h.out == OutputOf(h.arrived, h.fates)
  }

  lemma {:induction false} OutputOfMore(arrived: seq<Batch>, more: seq<Batch>, fates: seq<Fate>)
    requires |fates| <= |arrived|
    ensures OutputOf(arrived + more, fates) == OutputOf(arrived, fates)
    decreases |fates|
  {
    if fates != [] {
      OutputOfMore(arrived, more, fates[..|fates| - 1]);
    }
  }

  lemma {:induction false} OutputOfEmitted(arrived: seq<Batch>, fates: seq<Fate>, barriers: seq<Barrier>)
    requires |fates| + |barriers| <= |arrived|
    requires forall i :: 0 <= i < |barriers| ==> barriers[i].frames == arrived[|fates| + i].frames
    ensures OutputOf(arrived, fates + Repeat(Emitted, |barriers|)) == OutputOf(arrived, fates) + FramesOf(barriers)
    decreases |barriers|
  {
    var n := |barriers|;
    if n == 0 {
      assert fates + Repeat(Emitted, 0) == fates;
    } else {
      var all := fates + Repeat(Emitted, n);
      assert all[..|all| - 1] == fates + Repeat(Emitted, n - 1);
      OutputOfEmitted(arrived, fates, barriers[..n - 1]);
      assert FramesOf(barriers) == FramesOf(barriers[..n - 1]) + [barriers[n - 1].frames];
    }
  }

  lemma {:induction false} OutputOfDropped(arrived: seq<Batch>, fates: seq<Fate>, n: nat)
    requires |fates| + n <= |arrived|
    ensures OutputOf(arrived, fates + Repeat(Dropped, n)) == OutputOf(arrived, fates)
    decreases n
  {
    if n == 0 {
      assert fates + Repeat(Dropped, 0) == fates;
    } else {
      var all := fates + Repeat(Dropped, n);
      assert all[..|all| - 1] == fates + Repeat(Dropped, n - 1);
      OutputOfDropped(arrived, fates, n - 1);
    }
  }

  lemma ArrivalKeepsFates(h: History, request: Request, frames: Frames)
    requires FatesJust(h) && |h.fates| <= |h.verdicts|
    ensures FatesJust(Arrived(h, request, frames))
  {
    var j := Arrived(h, request, frames);
    forall i | 0 <= i < |j.fates| && j.fates[i] == Dropped
      ensures exists k :: 0 <= k < |j.fates| && j.fates[k] == Dropped && j.verdicts[k] == Some(false)
    {
      var k :| 0 <= k < |h.fates| && h.fates[k] == Dropped && h.verdicts[k] == Some(false);
      assert j.verdicts[k] == Some(false);
    }
  }

  lemma ArrivalKeepsCell(queue: seq<Barrier>, h: History, request: Request, frames: Frames)
    requires CellInv(queue, h) && IndexOf(queue, request) == |queue|
    ensures CellInv(queue + [Barrier(request, None, frames)], Arrived(h, request, frames))
  {
    OutputOfMore(h.arrived, [Batch(request, frames)], h.fates);
    ArrivalKeepsFates(h, request, frames);
  }

  /** What the queue holds after a verdict on barrier `i`. */
  function QueueAfter(queue: seq<Barrier>, i: nat, ok: bool): seq<Barrier>
    requires i < |queue|
  {
    var settled := queue[i := queue[i].(settled := Some(ok))];
    if Broken(settled) then [] else settled[ProvenPrefix(settled)..]
  }

  lemma JudgedKeepsFates(queue: seq<Barrier>, h: History, i: nat, ok: bool, out: seq<Frames>)
    requires CellInv(queue, h) && i < |queue|
    ensures FatesJust(Judged(h, queue, i, ok, out))
  {
    var j, f := Judged(h, queue, i, ok, out), |h.fates|;
    var settled := queue[i := queue[i].(settled := Some(ok))];
    forall x | 0 <= x < |j.fates| && j.fates[x] == Emitted ensures j.verdicts[x] == Some(true) {
      assert x >= f ==> settled[x - f].settled == j.verdicts[x];
    }
    forall x | 0 <= x < |j.fates| && j.fates[x] == Dropped
      ensures exists y :: 0 <= y < |j.fates| && j.fates[y] == Dropped && j.verdicts[y] == Some(false)
    {
      if x < f {
        var y :| 0 <= y < f && h.fates[y] == Dropped && h.verdicts[y] == Some(false);
        assert j.fates[y] == Dropped && j.verdicts[y] == Some(false);
      } else {
        var b :| 0 <= b < |settled| && settled[b].settled == Some(false);
        assert j.verdicts[f + b] == Some(false);
      }
    }
  }

  lemma QueueAfterRests(queue: seq<Barrier>, i: nat, ok: bool)
    requires i < |queue| && DistinctRequests(queue)
    ensures AtRest(QueueAfter(queue, i, ok)) && DistinctRequests(QueueAfter(queue, i, ok))
  {
    var settled := queue[i := queue[i].(settled := Some(ok))];
    var after := QueueAfter(queue, i, ok);
    if !Broken(settled) {
      forall b | 0 <= b < |after| ensures after[b].settled != Some(false) {
        assert after[b] == settled[ProvenPrefix(settled) + b];
      }
    }
  }

  lemma JudgedTracks(queue: seq<Barrier>, h: History, i: nat, ok: bool, out: seq<Frames>)
    requires Tracks(queue, h) && i < |queue|
    ensures Tracks(QueueAfter(queue, i, ok), Judged(h, queue, i, ok, out))
  {
    var j, after := Judged(h, queue, i, ok, out), QueueAfter(queue, i, ok);
    var settled := queue[i := queue[i].(settled := Some(ok))];
    forall x | 0 <= x < |after|
      ensures after[x] == BarrierOf(j, |j.fates| + x)
    {
      var k := ProvenPrefix(settled);
      assert after[x] == settled[k + x] && |j.fates| + x == |h.fates| + (k + x);
    }
  }

  /** What the gate emits after a verdict on barrier `i`. */
  function Emission(queue: seq<Barrier>, i: nat, ok: bool): seq<Frames>
    requires i < |queue|
  {
    var settled := queue[i := queue[i].(settled := Some(ok))];
    if Broken(settled) then [] else FramesOf(settled[..ProvenPrefix(settled)])
  }

  lemma JudgedOutput(queue: seq<Barrier>, h: History, i: nat, ok: bool)
    requires Tracks(queue, h) && i < |queue| && h.out == OutputOf(h.arrived, h.fates)
    ensures var j := Judged(h, queue, i, ok, Emission(queue, i, ok));
      |j.fates| <= |j.arrived| && j.out == OutputOf(j.arrived, j.fates)
  {
    var settled := queue[i := queue[i].(settled := Some(ok))];
    if Broken(settled) {
      OutputOfDropped(h.arrived, h.fates, |queue|);
    } else {
      OutputOfEmitted(h.arrived, h.fates, settled[..ProvenPrefix(settled)]);
    }
  }

  lemma VerdictKeepsCell(queue: seq<Barrier>, h: History, i: nat, ok: bool)
    requires CellInv(queue, h) && i < |queue|
    ensures CellInv(QueueAfter(queue, i, ok), Judged(h, queue, i, ok, Emission(queue, i, ok)))
  {
    JudgedKeepsFates(queue, h, i, ok, Emission(queue, i, ok));
    QueueAfterRests(queue, i, ok);
    JudgedTracks(queue, h, i, ok, Emission(queue, i, ok));
    JudgedOutput(queue, h, i, ok);
  }

  // ---------------------------------------------------------------------
  // All cells, and the map of unsettled requests
  // ---------------------------------------------------------------------

  /** Barrier `i` of the cell waits for its verdict, under its own request id. */
  ghost predicate Waits(g: Gates, scope: Scope, i: nat) {
    i < |QueueOf(g, scope)| && QueueOf(g, scope)[i].settled.None?
  }

  /** `gated` and the unsettled barriers are in bijection, and no queue is kept empty. */
  ghost predicate GatedInv(g: Gates) {
    && (forall scope <- g.queues :: g.queues[scope] != [])
    && (forall r <- g.gated :: Waits(g, g.gated[r], IndexOf(QueueOf(g, g.gated[r]), r)))
    && (forall scope, i: nat {:trigger Waits(g, scope, i)} :: Waits(g, scope, i) ==>
          QueueOf(g, scope)[i].request in g.gated && g.gated[QueueOf(g, scope)[i].request] == scope)
  }

  ghost predicate Inv(t: Trace) {
    && GatedInv(t.gates)
    && (forall scope :: CellInv(QueueOf(t.gates, scope), HistoryOf(t, scope)))
  }

  lemma {:induction false} IndexOfAppend(queue: seq<Barrier>, b: Barrier, r: Request)
    ensures IndexOf(queue + [b], r) ==
            if IndexOf(queue, r) < |queue| then IndexOf(queue, r) else if b.request == r then |queue| else |queue| + 1
  {
    if queue != [] && queue[0].request != r {
      assert (queue + [b])[1..] == queue[1..] + [b];
      IndexOfAppend(queue[1..], b, r);
    }
  }

  /** In a queue of distinct requests, a barrier is found at its own place. */
  lemma IndexOfAt(queue: seq<Barrier>, i: nat)
    requires DistinctRequests(queue) && i < |queue|
    ensures IndexOf(queue, queue[i].request) == i
  {
  }

  lemma ArrivalWaits(g: Gates, r: Request, scope: Scope, frames: Frames, q: Request)
    requires GatedInv(g) && !Holds(g, r)
    ensures var t := Arrive(g, r, scope, frames);
      q in t.gated ==> Waits(t, t.gated[q], IndexOf(QueueOf(t, t.gated[q]), q))
  {
    var queue := QueueOf(g, scope);
    if q in g.gated && q != r { assert Waits(g, g.gated[q], IndexOf(QueueOf(g, g.gated[q]), q)); }
    IndexOfAppend(queue, Barrier(r, None, frames), q);
    assert scope in g.queues ==> IndexOf(g.queues[scope], r) == |g.queues[scope]|;
  }

  lemma ArrivalGated(g: Gates, r: Request, scope: Scope, frames: Frames, s: Scope, i: nat)
    requires GatedInv(g) && !Holds(g, r)
    ensures var t := Arrive(g, r, scope, frames);
      Waits(t, s, i) ==> QueueOf(t, s)[i].request in t.gated && t.gated[QueueOf(t, s)[i].request] == s
  {
    if Waits(Arrive(g, r, scope, frames), s, i) && (s != scope || i < |QueueOf(g, scope)|) {
      assert Waits(g, s, i);
      assert IndexOf(g.queues[s], r) == |g.queues[s]|;
    }
  }

  lemma ArrivalKeepsGated(g: Gates, r: Request, scope: Scope, frames: Frames)
    requires GatedInv(g) && !Holds(g, r)
    ensures GatedInv(Arrive(g, r, scope, frames))
  {
    var t := Arrive(g, r, scope, frames);
    forall q <- t.gated ensures Waits(t, t.gated[q], IndexOf(QueueOf(t, t.gated[q]), q)) {
      ArrivalWaits(g, r, scope, frames, q);
    }
    forall s, i: nat | Waits(t, s, i)
      ensures QueueOf(t, s)[i].request in t.gated && t.gated[QueueOf(t, s)[i].request] == s
    {
      ArrivalGated(g, r, scope, frames, s, i);
    }
  }

  lemma ArrivalKeepsInv(t: Trace, r: Request, scope: Scope, frames: Frames)
    requires Inv(t) && !Holds(t.gates, r)
    ensures Inv(Step(t, Arrival(r, scope, frames)))
  {
    var u := Step(t, Arrival(r, scope, frames));
    ArrivalKeepsGated(t.gates, r, scope, frames);
    forall s ensures CellInv(QueueOf(u.gates, s), HistoryOf(u, s)) {
      if s == scope {
        assert CellInv(QueueOf(t.gates, s), HistoryOf(t, s));
        ArrivalKeepsCell(QueueOf(t.gates, s), HistoryOf(t, s), r, frames);
      } else {
        assert CellInv(QueueOf(t.gates, s), HistoryOf(t, s));
      }
    }
  }

  lemma VerdictQueues(g: Gates, r: Request, ok: bool)
    requires GatedInv(g) && r in g.gated
    ensures var scope, h := g.gated[r], Verdict(g, r, ok).gates;
      var i := IndexOf(QueueOf(g, scope), r);
      && i < |QueueOf(g, scope)|
      && QueueOf(h, scope) == QueueAfter(QueueOf(g, scope), i, ok)
      && Verdict(g, r, ok).emitted == Emission(QueueOf(g, scope), i, ok)
      && (forall s :: s != scope ==> QueueOf(h, s) == QueueOf(g, s))
  {
    assert Waits(g, g.gated[r], IndexOf(QueueOf(g, g.gated[r]), r));
  }

  /** A flush that settled `r`: what the queue of its cell was, and became. */
  ghost predicate Flushed(g: Gates, r: Request, ok: bool, settled: seq<Barrier>, k: nat) {
    && GatedInv(g) && r in g.gated && DistinctRequests(QueueOf(g, g.gated[r]))
    && Waits(g, g.gated[r], IndexOf(QueueOf(g, g.gated[r]), r))
    && (var queue, at := QueueOf(g, g.gated[r]), IndexOf(QueueOf(g, g.gated[r]), r);
        settled == queue[at := queue[at].(settled := Some(ok))])
    && !Broken(settled) && k == ProvenPrefix(settled)
  }

  /** An unsettled barrier survives a flush, and is found where it was. */
  lemma UnsettledIsKept(settled: seq<Barrier>, i: nat)
    requires i < |settled| && settled[i].settled.None? && DistinctRequests(settled)
    ensures var k := ProvenPrefix(settled);
      k <= i && IndexOf(settled[k..], settled[i].request) == i - k
  {
    var k := ProvenPrefix(settled);
    assert settled[k..][i - k] == settled[i];
    IndexOfAt(settled[k..], i - k);
  }

  lemma StillWaits(g: Gates, r: Request, ok: bool, settled: seq<Barrier>, k: nat, q: Request)
    requires Flushed(g, r, ok, settled, k) && q in g.gated && q != r
    requires g.gated[q] == g.gated[r]
    ensures IndexOf(settled[k..], q) < |settled[k..]| && settled[k..][IndexOf(settled[k..], q)].settled.None?
  {
    var queue := QueueOf(g, g.gated[r]);
    var i := IndexOf(queue, q);
    assert Waits(g, g.gated[q], i);
    assert settled[i] == queue[i];
    UnsettledIsKept(settled, i);
  }

  lemma StillGated(g: Gates, r: Request, ok: bool, settled: seq<Barrier>, k: nat, i: nat)
    requires Flushed(g, r, ok, settled, k) && k + i < |settled| && settled[k + i].settled.None?
    ensures settled[k + i].request != r && settled[k + i].request in g.gated
    ensures g.gated[settled[k + i].request] == g.gated[r]
  {
    assert Waits(g, g.gated[r], k + i);
  }

  lemma FlushKeepsGated(g: Gates, r: Request, ok: bool)
    requires GatedInv(g) && r in g.gated
    requires DistinctRequests(QueueOf(g, g.gated[r]))
    requires !Verdict(g, r, ok).broke
    ensures GatedInv(Verdict(g, r, ok).gates)
  {
    VerdictQueues(g, r, ok);
    var scope, t := g.gated[r], Verdict(g, r, ok).gates;
    var settled := Settle(QueueOf(g, scope), r, ok);
    var k := ProvenPrefix(settled);
    assert Flushed(g, r, ok, settled, k) && QueueOf(t, scope) == settled[k..];
    assert t.gated == g.gated - {r};
    forall q <- t.gated ensures Waits(t, t.gated[q], IndexOf(QueueOf(t, t.gated[q]), q)) {
      if g.gated[q] == scope {
        StillWaits(g, r, ok, settled, k, q);
      } else {
        assert Waits(g, g.gated[q], IndexOf(QueueOf(g, g.gated[q]), q));
      }
    }
    forall s, i: nat | Waits(t, s, i)
      ensures QueueOf(t, s)[i].request in t.gated && t.gated[QueueOf(t, s)[i].request] == s
    {
      if s == scope {
        StillGated(g, r, ok, settled, k, i);
      } else {
        assert Waits(g, s, i);
      }
    }
  }

  lemma BreakKeepsGated(g: Gates, r: Request, ok: bool)
    requires GatedInv(g) && r in g.gated && Verdict(g, r, ok).broke
    ensures GatedInv(Verdict(g, r, ok).gates)
  {
    var t := Verdict(g, r, ok).gates;
    forall q <- t.gated ensures Waits(t, t.gated[q], IndexOf(QueueOf(t, t.gated[q]), q)) {
      assert Waits(g, g.gated[q], IndexOf(QueueOf(g, g.gated[q]), q));
    }
    forall s, i: nat | Waits(t, s, i)
      ensures QueueOf(t, s)[i].request in t.gated && t.gated[QueueOf(t, s)[i].request] == s
    {
      assert Waits(g, s, i);
    }
  }

  lemma SettledHistory(t: Trace, r: Request, ok: bool)
    requires Inv(t) && r in t.gates.gated
    ensures var scope, u := t.gates.gated[r], Step(t, Settled(r, ok));
      var queue, h := QueueOf(t.gates, scope), HistoryOf(t, scope);
      && u.gates == Verdict(t.gates, r, ok).gates
      && IndexOf(queue, r) < |queue| && CellInv(queue, h)
      && HistoryOf(u, scope) == Judged(h, queue, IndexOf(queue, r), ok, Verdict(t.gates, r, ok).emitted)
      && (forall s :: s != scope ==> HistoryOf(u, s) == HistoryOf(t, s))
  {
    var scope := t.gates.gated[r];
    assert Waits(t.gates, scope, IndexOf(QueueOf(t.gates, scope), r));
    assert CellInv(QueueOf(t.gates, scope), HistoryOf(t, scope));
  }

  lemma SettledKeepsCells(t: Trace, r: Request, ok: bool, s: Scope)
    requires Inv(t) && r in t.gates.gated
    ensures CellInv(QueueOf(Step(t, Settled(r, ok)).gates, s), HistoryOf(Step(t, Settled(r, ok)), s))
  {
    VerdictQueues(t.gates, r, ok);
    SettledHistory(t, r, ok);
    if s == t.gates.gated[r] {
      VerdictKeepsCell(QueueOf(t.gates, s), HistoryOf(t, s), IndexOf(QueueOf(t.gates, s), r), ok);
    } else {
      assert CellInv(QueueOf(t.gates, s), HistoryOf(t, s));
    }
  }

  lemma SettledKeepsInv(t: Trace, r: Request, ok: bool)
    requires Inv(t) && r in t.gates.gated
    ensures Inv(Step(t, Settled(r, ok)))
  {
    var u := Step(t, Settled(r, ok));
    assert CellInv(QueueOf(t.gates, t.gates.gated[r]), HistoryOf(t, t.gates.gated[r]));
    if Verdict(t.gates, r, ok).broke { BreakKeepsGated(t.gates, r, ok); } else { FlushKeepsGated(t.gates, r, ok); }
    forall s ensures CellInv(QueueOf(u.gates, s), HistoryOf(u, s)) {
      SettledKeepsCells(t, r, ok, s);
    }
  }

  lemma StepKeepsInv(t: Trace, e: Event)
    requires Inv(t)
    ensures Inv(Step(t, e))
  {
    match e
    case Arrival(r, scope, frames) => if !Holds(t.gates, r) { ArrivalKeepsInv(t, r, scope, frames); }
    case Settled(r, ok) => if r in t.gates.gated { SettledKeepsInv(t, r, ok); }
  }

  lemma {:induction false} RunKeepsInv(t: Trace, events: seq<Event>)
    requires Inv(t)
    ensures Inv(Run(t, events))
    decreases |events|
  {
    if events != [] {
      StepKeepsInv(t, events[0]);
      RunKeepsInv(Step(t, events[0]), events[1..]);
    }
  }

  // ---------------------------------------------------------------------
  // Theorems
  // ---------------------------------------------------------------------

  /**
   * In every run, what a cell emitted is the emitted part of its arrivals, in
   * arrival order, and each emitted batch has a proven verdict.
   */
  lemma EmittedInOrderAndProven(events: seq<Event>, scope: Scope)
    ensures var h := HistoryOf(Run(Start, events), scope);
      && |h.fates| <= |h.arrived| == |h.verdicts|
      && h.out == OutputOf(h.arrived, h.fates)
      && (forall i :: 0 <= i < |h.fates| && h.fates[i] == Emitted ==> h.verdicts[i] == Some(true))
  {
    RunKeepsInv(Start, events);
    var t := Run(Start, events);
    assert CellInv(QueueOf(t.gates, scope), HistoryOf(t, scope));
  }

  /** The output of a cell grows by exactly what the gate emits at a verdict on one of its requests. */
  lemma OutputIsEmitted(t: Trace, r: Request, ok: bool, scope: Scope)
    ensures HistoryOf(Step(t, Settled(r, ok)), scope).out ==
      HistoryOf(t, scope).out +
        if r in t.gates.gated && t.gates.gated[r] == scope then Verdict(t.gates, r, ok).emitted else []
  {
  }

  lemma {:induction false} OutputOfAllEmitted(arrived: seq<Batch>, fates: seq<Fate>)
    requires |fates| <= |arrived| && Dropped !in fates
    ensures |OutputOf(arrived, fates)| == |fates|
    ensures forall i :: 0 <= i < |fates| ==> OutputOf(arrived, fates)[i] == arrived[i].frames
    decreases |fates|
  {
    if fates != [] {
      OutputOfAllEmitted(arrived, fates[..|fates| - 1]);
    }
  }

  lemma CellNothingLost(queue: seq<Barrier>, h: History)
    requires CellInv(queue, h) && Some(false) !in h.verdicts
    ensures |h.out| + |queue| == |h.arrived|
    ensures forall i :: 0 <= i < |h.arrived| ==> (h.out + FramesOf(queue))[i] == h.arrived[i].frames
  {
    assert Dropped !in h.fates;
    OutputOfAllEmitted(h.arrived, h.fates);
  }

  /** Until a failure, emitted plus held is exactly what arrived, in order. */
  lemma NothingLostBeforeFailure(events: seq<Event>, scope: Scope)
    requires Some(false) !in HistoryOf(Run(Start, events), scope).verdicts
    ensures var t := Run(Start, events);
      var h, queue := HistoryOf(t, scope), QueueOf(t.gates, scope);
      && |h.out| + |queue| == |h.arrived|
      && (forall i :: 0 <= i < |h.arrived| ==> (h.out + FramesOf(queue))[i] == h.arrived[i].frames)
  {
    RunKeepsInv(Start, events);
    var t := Run(Start, events);
    CellNothingLost(QueueOf(t.gates, scope), HistoryOf(t, scope));
  }

  lemma FrontVerdict(queue: seq<Barrier>, h: History)
    requires Tracks(queue, h)
    ensures queue != [] ==> queue[0].settled == h.verdicts[|h.fates|]
  {
  }

  /** Once every batch is proven, everything that arrived has left, in order. */
  lemma AllProvenAllEmitted(events: seq<Event>, scope: Scope)
    requires var h := HistoryOf(Run(Start, events), scope);
      forall i :: 0 <= i < |h.verdicts| ==> h.verdicts[i] == Some(true)
    ensures var h := HistoryOf(Run(Start, events), scope);
      && |h.out| == |h.arrived|
      && (forall i :: 0 <= i < |h.arrived| ==> h.out[i] == h.arrived[i].frames)
  {
    RunKeepsInv(Start, events);
    NothingLostBeforeFailure(events, scope);
    var t := Run(Start, events);
    var h, queue := HistoryOf(t, scope), QueueOf(t.gates, scope);
    assert CellInv(queue, h);
    FrontVerdict(queue, h);
    assert h.out + FramesOf(queue) == h.out;
  }

  /** Fates and output only grow: a batch dropped by a failure is never emitted later. */
  ghost predicate Grows(t: Trace, u: Trace) {
    forall scope ::
      HistoryOf(t, scope).fates <= HistoryOf(u, scope).fates && HistoryOf(t, scope).out <= HistoryOf(u, scope).out
  }

  lemma StepGrows(t: Trace, e: Event)
    ensures Grows(t, Step(t, e))
  {
    match e
    case Arrival(r, scope, frames) =>
    case Settled(r, ok) =>
  }

  lemma {:induction false} RunGrows(t: Trace, events: seq<Event>)
    ensures Grows(t, Run(t, events))
    decreases |events|
  {
    if events != [] {
      StepGrows(t, events[0]);
      RunGrows(Step(t, events[0]), events[1..]);
    }
  }

  lemma {:induction false} RunAppend(t: Trace, first: seq<Event>, second: seq<Event>)
    ensures Run(t, first + second) == Run(Run(t, first), second)
    decreases |first|
  {
    if first == [] {
      assert first + second == second;
    } else {
      assert (first + second)[1..] == first[1..] + second;
      RunAppend(Step(t, first[0]), first[1..], second);
    }
  }

  lemma FailureStep(t: Trace, r: Request)
    requires Inv(t) && r in t.gates.gated
    ensures var scope, u := t.gates.gated[r], Step(t, Settled(r, false));
      var h, j := HistoryOf(t, scope), HistoryOf(u, scope);
      && Verdict(t.gates, r, false).emitted == [] && QueueOf(u.gates, scope) == []
      && |h.fates| <= |h.arrived| == |j.fates|
      && (forall i :: |h.fates| <= i < |h.arrived| ==> j.fates[i] == Dropped)
  {
    var scope := t.gates.gated[r];
    var queue := QueueOf(t.gates, scope);
    SettledHistory(t, r, false);
    VerdictQueues(t.gates, r, false);
    var i := IndexOf(queue, r);
    assert queue[i := queue[i].(settled := Some(false))][i].settled == Some(false);
  }

  lemma RunThrough(before: seq<Event>, e: Event, after: seq<Event>)
    ensures Run(Start, before + [e] + after) == Run(Step(Run(Start, before), e), after)
  {
    var t := Run(Start, before);
    RunAppend(Start, before, [e]);
    assert Run(t, [e]) == Run(Step(t, e), []);
    RunAppend(Start, before + [e], after);
  }

  /**
   * A failed verdict empties the cell's queue at once: everything held is
   * dropped, nothing is emitted, and no continuation ever emits it.
   */
  lemma FailureDropsHeld(before: seq<Event>, r: Request, after: seq<Event>)
    requires r in Run(Start, before).gates.gated
    ensures var t := Run(Start, before);
      var scope := t.gates.gated[r];
      var h, v := HistoryOf(t, scope), HistoryOf(Run(Start, before + [Settled(r, false)] + after), scope);
      && Verdict(t.gates, r, false).emitted == []
      && QueueOf(Step(t, Settled(r, false)).gates, scope) == []
      && |h.arrived| <= |v.fates|
      && (forall i :: |h.fates| <= i < |h.arrived| ==> v.fates[i] == Dropped)
  {
    RunKeepsInv(Start, before);
    var t := Run(Start, before);
    FailureStep(t, r);
    RunThrough(before, Settled(r, false), after);
    RunGrows(Step(t, Settled(r, false)), after);
  }

  /** A verdict on a request that no longer waits, late or repeated, emits nothing and changes no cell. */
  lemma LateVerdict(before: seq<Event>, r: Request, ok: bool)
    requires r !in Run(Start, before).gates.gated
    ensures var t := Run(Start, before);
      && Step(t, Settled(r, ok)) == t && Verdict(t.gates, r, ok).emitted == []
      && !Verdict(t.gates, r, ok).broke
  {
  }

  lemma TwoVerdicts(settled: Option<bool>)
    ensures settled.None? || settled == Some(true) || settled == Some(false)
  {
    if settled.Some? {
      if settled.value { assert settled == Some(true); } else { assert settled == Some(false); }
    }
  }

  /** The front barrier at rest is never proven, and every unsettled barrier is in `gated` exactly once. */
  lemma FrontWaitsAndGatedMatches(events: seq<Event>, scope: Scope)
    ensures var g := Run(Start, events).gates;
      && GatedInv(g)
      && DistinctRequests(QueueOf(g, scope))
      && (QueueOf(g, scope) != [] ==> QueueOf(g, scope)[0].settled.None?)
  {
    RunKeepsInv(Start, events);
    var t := Run(Start, events);
    assert CellInv(QueueOf(t.gates, scope), HistoryOf(t, scope));
    if QueueOf(t.gates, scope) != [] {
      var front := QueueOf(t.gates, scope)[0].settled;
      assert front != Some(false);
      TwoVerdicts(front);
    }
  }
}
