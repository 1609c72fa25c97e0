/** A node's lease record as the garbage collector reads and rewrites it. */
module NodeRecord {
  import opened Prelude

  const MAX_U64: nat := 0xFFFF_FFFF_FFFF_FFFF

  datatype Json = Null | Text(text: string) | Number(number: int) | Fields(fields: map<string, Json>) | Other(nat)

  type Wire = map<string, Json>

  const NODE := "node"
  const EXPIRES := "expires_ms"
  const GENERATION := "ownership_index_generation"
  const PROBE_KEY := "probe_public_key"
  const LOG := "log"

  /** `rest` holds every field without a name of its own. */
  datatype Record = Record(
    node: string, expires: nat, generation: string, probeKey: string, log: Option<Json>, rest: Wire)

  predicate Named(key: string) {
    key == NODE || key == EXPIRES || key == GENERATION || key == PROBE_KEY || key == LOG
  }

  predicate TextOrAbsent(wire: Wire, key: string) {
    key in wire ==> wire[key].Text?
  }

  function TextAt(wire: Wire, key: string): string
    requires TextOrAbsent(wire, key)
  {
    if key in wire then wire[key].text else ""
  }

  predicate Decodes(wire: Wire) {
    && NODE in wire && wire[NODE].Text?
    && EXPIRES in wire && wire[EXPIRES].Number? && 0 <= wire[EXPIRES].number <= MAX_U64
    && TextOrAbsent(wire, GENERATION) && TextOrAbsent(wire, PROBE_KEY)
  }

  function LogAt(wire: Wire): Option<Json> {
    if LOG in wire && wire[LOG] != Null then Some(wire[LOG]) else None
  }

  function Rest(wire: Wire): Wire {
    map key | key in wire && !Named(key) :: wire[key]
  }

  function Decode(wire: Wire): Option<Record> {
    if Decodes(wire) then
      Some(Record(wire[NODE].text, wire[EXPIRES].number, TextAt(wire, GENERATION), TextAt(wire, PROBE_KEY),
                  LogAt(wire), Rest(wire)))
    else None
  }

  function Encode(record: Record): Wire {
    var base := record.rest[NODE := Text(record.node)][EXPIRES := Number(record.expires)]
                [GENERATION := Text(record.generation)][PROBE_KEY := Text(record.probeKey)];
    if record.log.Some? then base[LOG := record.log.value] else base
  }

  /** What decoding can produce. */
  predicate WellFormed(record: Record) {
    && (forall key <- record.rest :: !Named(key))
    && record.log != Some(Null) && record.expires <= MAX_U64
  }

  /** The folded log of a record no longer takes writes. */
  predicate Sealed(log: Json) {
    log.Fields? && "state" in log.fields && log.fields["state"] == Text("sealed")
  }

  function Tombstone(record: Record): Record {
    record.(expires := 0)
  }

  lemma NamesDiffer()
    ensures NODE != EXPIRES && NODE != GENERATION && NODE != PROBE_KEY && NODE != LOG
    ensures EXPIRES != GENERATION && EXPIRES != PROBE_KEY && EXPIRES != LOG
    ensures GENERATION != PROBE_KEY && GENERATION != LOG && PROBE_KEY != LOG
  {
    assert |NODE| == 4 && |EXPIRES| == 10 && |GENERATION| == 26 && |PROBE_KEY| == 16 && |LOG| == 3;
  }

  lemma DecodeIsWellFormed(wire: Wire)
    requires Decode(wire).Some?
    ensures WellFormed(Decode(wire).value)
  {
  }

  lemma EncodeRest(record: Record)
    requires WellFormed(record)
    ensures Rest(Encode(record)) == record.rest
  {
    NamesDiffer();
  }

  /** Reading back what was written gives the same record. */
  lemma RoundTrip(record: Record)
    requires WellFormed(record)
    ensures Decode(Encode(record)) == Some(record)
  {
    NamesDiffer();
    EncodeRest(record);
  }

  /**
   * The rewritten object keeps every field of the original but the expiry, unnamed ones verbatim; a null
   * log is dropped, and a missing generation or probe key is written as "".
   */
  lemma TombstoneKeepsFields(wire: Wire, key: string)
    requires Decode(wire).Some? && key != EXPIRES
    ensures var out := Encode(Tombstone(Decode(wire).value));
      && (key in wire && !(key == LOG && wire[key] == Null) ==> key in out && out[key] == wire[key])
      && (key in out && key !in wire ==> (key == GENERATION || key == PROBE_KEY) && out[key] == Text(""))
  {
    NamesDiffer();
  }
}
