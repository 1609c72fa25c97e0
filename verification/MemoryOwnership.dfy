/**
 * The in-memory ownership adapter of a single development node. Each of its
 * conditional writes is decided at once, exactly as the bucket decides one.
 */
module MemoryOwnership {
  import opened Prelude
  import opened Ownership

  datatype CasOutcome = CasApplied | CasRejected

  class Memory {
    const node: Node
    var owners: map<string, Record>
    var nextEtag: nat

    /** No stored record carries an etag that a later write will use. */
    ghost predicate Valid() reads this {
      forall cell <- owners :: owners[cell].etag < nextEtag
    }

    function Lookup(cell: string): Option<Record> reads this {
      if cell in owners then Some(owners[cell]) else None
    }

    /** The bucket store that holds this cell's record and has just received `op`. */
    ghost function AsStore(cell: string, op: Op, granted: map<nat, Node>): Store reads this {
      Store(Lookup(cell), nextEtag, [op], granted)
    }

    constructor (node: Node)
      ensures Valid() && this.node == node && owners == map[]
    {
      this.node := node;
      owners := map[];
      nextEtag := 0;
    }

    /** Frame: every other cell keeps its record, and every etag written is new. */
    twostate predicate OnlyChanges(cell: string) reads this {
      && (forall c <- old(owners) :: c in owners && (c != cell ==> owners[c] == old(owners[c])))
      && (forall c <- owners :: c in old(owners) || c == cell)
      && (cell in owners && (cell in old(owners) ==> owners[cell] != old(owners[cell])) ==>
            owners[cell].etag == old(nextEtag))
    }

    method CasOwner(cell: string, guard: Guard, epoch: nat) returns (outcome: CasOutcome)
      requires Valid()
      modifies this
      ensures Valid() && OnlyChanges(cell)
      ensures outcome == CasApplied <==> old(GuardHolds(Lookup(cell), guard))
      ensures outcome == CasApplied ==> Lookup(cell) == Some(Record(Some(node), epoch, old(nextEtag)))
      ensures forall takeover, granted ::
        var decided := DecideOp(old(AsStore(cell, Claim(node, guard, epoch, takeover, Pending), granted)), 0);
        && Lookup(cell) == decided.record
        && nextEtag == decided.nextEtag
        && (outcome == CasApplied <==> decided.ops[0].status == Applied)
    {
      var allowed := match guard
        case Absent => cell !in owners
        case Match(expected) => cell in owners && owners[cell].etag == expected;
      if allowed {
        var etag := nextEtag;
        nextEtag := nextEtag + 1;
        owners := owners[cell := Record(Some(node), epoch, etag)];
      }
      outcome := if allowed then CasApplied else CasRejected;
    }

    method ReleaseOwner(cell: string, epoch: nat) returns (outcome: CasOutcome)
      requires Valid()
      modifies this
      ensures Valid() && OnlyChanges(cell)
      ensures outcome == CasApplied <==>
        old(Lookup(cell).Some? && Lookup(cell).value.node == Some(node) && Lookup(cell).value.epoch == epoch)
      ensures outcome == CasApplied ==> Lookup(cell) == Some(Record(None, epoch, old(nextEtag)))
      ensures outcome == CasRejected ==> Lookup(cell) == old(Lookup(cell)) && nextEtag == old(nextEtag)
      ensures outcome == CasApplied ==> forall granted ::
        var guard := Match(old(Lookup(cell).value.etag));
        var decided := DecideOp(old(AsStore(cell, Release(node, guard, epoch, Pending), granted)), 0);
        Lookup(cell) == decided.record && nextEtag == decided.nextEtag
    {
      var releasable := cell in owners && owners[cell].node == Some(node) && owners[cell].epoch == epoch;
      if releasable {
        var etag := nextEtag;
        nextEtag := nextEtag + 1;
        owners := owners[cell := Record(None, epoch, etag)];
      }
      outcome := if releasable then CasApplied else CasRejected;
    }
  }
}
