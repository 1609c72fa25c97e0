/**
 * The per-cell WebSocket output gate: each `webSocketMessage` batch waits in
 * an ordered queue of barriers until the core proves every write it reveals.
 */
module WsGate {
  import opened Prelude

  type Request = nat
  type Scope = nat
  type Frames = string

  /** `settled` is `None` until the verdict, then whether the writes were proven. */
  datatype Barrier = Barrier(request: Request, settled: Option<bool>, frames: Frames)

  /** `queues` holds each cell's barriers; `gated` the cell of each unsettled request. */
  datatype Gates = Gates(queues: map<Scope, seq<Barrier>>, gated: map<Request, Scope>)

  // ---------------------------------------------------------------------
  // What one arrival and one verdict do
  // ---------------------------------------------------------------------

  function Arrive(g: Gates, request: Request, scope: Scope, frames: Frames): Gates {
    var queue := if scope in g.queues then g.queues[scope] else [];
    Gates(g.queues[scope := queue + [Barrier(request, None, frames)]], g.gated[request := scope])
  }

  /** The first barrier of `request`, or the queue's length. */
  function IndexOf(queue: seq<Barrier>, request: Request): (i: nat)
    ensures i <= |queue|
    ensures i < |queue| ==> queue[i].request == request
    ensures forall j :: 0 <= j < i ==> queue[j].request != request
  {
    if queue == [] || queue[0].request == request then 0 else 1 + IndexOf(queue[1..], request)
  }

  function Settle(queue: seq<Barrier>, request: Request, ok: bool): (r: seq<Barrier>)
    ensures |r| == |queue|
  {
    var i := IndexOf(queue, request);
    if i < |queue| then queue[i := queue[i].(settled := Some(ok))] else queue
  }

  predicate Broken(queue: seq<Barrier>) {
    exists i :: 0 <= i < |queue| && queue[i].settled == Some(false)
  }

  /** How many barriers at the front may flush. */
  function ProvenPrefix(queue: seq<Barrier>): (k: nat)
    ensures k <= |queue|
    ensures forall i :: 0 <= i < k ==> queue[i].settled == Some(true)
    ensures k < |queue| ==> queue[k].settled != Some(true)
  {
    if queue == [] || queue[0].settled != Some(true) then 0 else 1 + ProvenPrefix(queue[1..])
  }

  function FramesOf(queue: seq<Barrier>): (r: seq<Frames>)
    ensures |r| == |queue| && forall i :: 0 <= i < |r| ==> r[i] == queue[i].frames
  {
    seq(|queue|, i requires 0 <= i < |queue| => queue[i].frames)
  }

  function SetQueue(g: Gates, scope: Scope, queue: seq<Barrier>): Gates {
    g.(queues := if queue == [] then g.queues - {scope} else g.queues[scope := queue])
  }

  /** The gate of a cell whose write failed: its queue and its unsettled requests go. */
  function Break(g: Gates, scope: Scope): Gates {
    Gates(g.queues - {scope}, map r | r in g.gated && g.gated[r] != scope :: g.gated[r])
  }

  datatype Released = Released(gates: Gates, emitted: seq<Frames>, broke: bool)

  function Verdict(g: Gates, request: Request, ok: bool): Released {
    if request !in g.gated then Released(g, [], false)
    else
      var scope := g.gated[request];
      var rest := g.(gated := g.gated - {request});
      if scope !in g.queues then Released(rest, [], false)
      else
        var queue := Settle(g.queues[scope], request, ok);
        if Broken(queue) then Released(Break(rest, scope), [], true)
        else
          var k := ProvenPrefix(queue);
          Released(SetQueue(rest, scope, queue[k..]), FramesOf(queue[..k]), false)
  }

  // ---------------------------------------------------------------------
  // The gate as the actor holds it
  // ---------------------------------------------------------------------

  class Actor {
    var queues: map<Scope, seq<Barrier>>
    var gated: map<Request, Scope>
    var emitted: seq<Frames>

    ghost function View(): Gates reads this {
      Gates(queues, gated)
    }

    constructor ()
      ensures View() == Gates(map[], map[]) && emitted == []
    {
      queues, gated, emitted := map[], map[], [];
    }

    /** Both registrations of a `WsOutput` message, before the core sees it. */
    method WsOutput(request: Request, scope: Scope, frames: Frames)
      modifies this
      ensures View() == Arrive(old(View()), request, scope, frames) && emitted == old(emitted)
    {
      if scope !in queues {
        queues := queues[scope := []];
      }
      queues := queues[scope := queues[scope] + [Barrier(request, None, frames)]];
      gated := gated[request := scope];
      assert queues == Arrive(old(View()), request, scope, frames).queues;
    }

    /** Marks the first barrier of `request` in the cell's queue. */
    method Mark(scope: Scope, request: Request, ok: bool)
      requires scope in queues
      modifies this`queues
      ensures queues == old(queues)[scope := Settle(old(queues)[scope], request, ok)]
    {
      var i := 0;
      while i < |queues[scope]| && queues[scope][i].request != request
        invariant 0 <= i <= |queues[scope]|
        invariant queues == old(queues)
        invariant forall j :: 0 <= j < i ==> queues[scope][j].request != request
      {
        i := i + 1;
      }
      assert i == IndexOf(queues[scope], request);
      if i < |queues[scope]| {
        queues := queues[scope := queues[scope][i := queues[scope][i].(settled := Some(ok))]];
      }
    }

    /** Pops the proven barriers off the front of the cell's queue. */
    method Flush(scope: Scope) returns (flush: seq<Frames>)
      requires scope in queues
      modifies this`queues
      ensures var k := ProvenPrefix(old(queues)[scope]);
        && flush == FramesOf(old(queues)[scope][..k])
        && queues == old(queues)[scope := old(queues)[scope][k..]]
    {
      flush := [];
      ghost var queue, k := queues[scope], 0;
      while queues[scope] != [] && queues[scope][0].settled == Some(true)
        invariant 0 <= k <= |queue|
        invariant queues == old(queues)[scope := queue[k..]]
        invariant forall j :: 0 <= j < k ==> queue[j].settled == Some(true)
        invariant flush == FramesOf(queue[..k])
        decreases |queue| - k
      {
        assert queue[..k + 1] == queue[..k] + [queue[k]];
        flush := flush + [queues[scope][0].frames];
        queues := queues[scope := queues[scope][1..]];
        k := k + 1;
      }
      assert k == ProvenPrefix(queue);
    }

    method WsRelease(request: Request, ok: bool)
      modifies this
      ensures var r := Verdict(old(View()), request, ok);
        View() == r.gates && emitted == old(emitted) + r.emitted
    {
      if request !in gated { return; }
      var scope := gated[request];
      gated := gated - {request};
      if scope !in queues { return; }
      Mark(scope, request, ok);
      if exists i :: 0 <= i < |queues[scope]| && queues[scope][i].settled == Some(false) {
        assert queues - {scope} == old(queues) - {scope};
        queues := queues - {scope};
        gated := map r | r in gated && gated[r] != scope :: gated[r];
        return;
      }
      var flush := Flush(scope);
      emitted := emitted + flush;
      if queues[scope] == [] {
        assert queues - {scope} == old(queues) - {scope};
        queues := queues - {scope};
      }
    }
  }
}
