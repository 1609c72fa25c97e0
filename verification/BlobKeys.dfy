/**
 * How a blob key becomes a bucket location and back. Keys, prefixes and
 * locations are byte strings, one character per byte, and `escapes` is the
 * set of bytes that the store's path encoder percent-encodes (section 2.1 of
 * RFC 3986).
 */
module BlobKeys {
  type Byte = char
  type Bytes = string

  const PERCENT: Byte := '%'
  const DOT: Byte := '.'
  const SLASH: Byte := '/'

  /** A bucket prefix may use only letters, digits and `-_./`. */
  predicate PrefixByte(b: Byte) {
    '0' <= b <= '9' || 'A' <= b <= 'Z' || 'a' <= b <= 'z' || b == '-' || b == '_' || b == DOT
  }

  /** All that is needed of the encoder: it escapes `%` and `/`, only bytes, and nothing a prefix may use. */
  predicate IsEncoder(escapes: set<Byte>) {
    && PERCENT in escapes && SLASH in escapes
    && forall b <- escapes :: b as int < 256 && !PrefixByte(b)
  }

  // ---------------------------------------------------------------------
  // Percent encoding
  // ---------------------------------------------------------------------

  function HexDigit(n: nat): Byte
    requires n < 16
  {
    if n < 10 then '0' + n as char else 'A' + (n - 10) as char
  }

  predicate IsHex(b: Byte) {
    '0' <= b <= '9' || 'A' <= b <= 'F' || 'a' <= b <= 'f'
  }

  function HexValue(b: Byte): (n: nat)
    requires IsHex(b)
    ensures n < 16
  {
    if b <= '9' then b as int - 48 else if b <= 'F' then b as int - 55 else b as int - 87
  }

  function EncodeByte(escapes: set<Byte>, b: Byte): Bytes {
    if b in escapes then [PERCENT, HexDigit(b as int / 16 % 16), HexDigit(b as int % 16)] else [b]
  }

  function EncodeBytes(escapes: set<Byte>, s: Bytes): Bytes {
    if s == [] then [] else EncodeByte(escapes, s[0]) + EncodeBytes(escapes, s[1..])
  }

  /** A path part: `.` and `..` are escaped whole, any other text byte by byte. */
  function EncodePart(escapes: set<Byte>, part: Bytes): Bytes {
    if part == "." then "%2E"
    else if part == ".." then "%2E%2E"
    else EncodeBytes(escapes, part)
  }

  /** A `%` that no two hex digits follow stands for itself. */
  function Decode(s: Bytes): Bytes {
    if s == [] then []
    else if s[0] == PERCENT && |s| >= 3 && IsHex(s[1]) && IsHex(s[2]) then
      [(16 * HexValue(s[1]) + HexValue(s[2])) as char] + Decode(s[3..])
    else [s[0]] + Decode(s[1..])
  }

  // ---------------------------------------------------------------------
  // Segments
  // ---------------------------------------------------------------------

  function Split(s: Bytes): (segments: seq<Bytes>)
    ensures segments != []
  {
    if s == [] then [[]]
    else if s[0] == SLASH then [[]] + Split(s[1..])
    else
      var rest := Split(s[1..]);
      [[s[0]] + rest[0]] + rest[1..]
  }

  function Join(segments: seq<Bytes>): Bytes {
    if segments == [] then []
    else if |segments| == 1 then segments[0]
    else segments[0] + [SLASH] + Join(segments[1..])
  }

  function NonEmpty(segments: seq<Bytes>): seq<Bytes> {
    if segments == [] then []
    else (if segments[0] == [] then [] else [segments[0]]) + NonEmpty(segments[1..])
  }

  function EncodeParts(escapes: set<Byte>, segments: seq<Bytes>): (r: seq<Bytes>)
    ensures |r| == |segments|
  {
    if segments == [] then [] else [EncodePart(escapes, segments[0])] + EncodeParts(escapes, segments[1..])
  }

  /** The stored form of a key's segments: an empty one is a lone `%`. */
  function StoredSegment(escapes: set<Byte>, segment: Bytes): Bytes {
    if segment == [] then [PERCENT] else EncodePart(escapes, segment)
  }

  function StoredSegments(escapes: set<Byte>, segments: seq<Bytes>): (r: seq<Bytes>)
    ensures |r| == |segments|
  {
    if segments == [] then [] else [StoredSegment(escapes, segments[0])] + StoredSegments(escapes, segments[1..])
  }

  function ReadSegment(segment: Bytes): Bytes {
    if segment == [PERCENT] then [] else Decode(segment)
  }

  function ReadSegments(segments: seq<Bytes>): (r: seq<Bytes>)
    ensures |r| == |segments|
  {
    if segments == [] then [] else [ReadSegment(segments[0])] + ReadSegments(segments[1..])
  }

  // ---------------------------------------------------------------------
  // Locations
  // ---------------------------------------------------------------------

  /** The location of a blob below the client's prefix; an empty key is the scope itself. */
  function BlobPath(escapes: set<Byte>, prefix: Bytes, key: Bytes): Bytes {
    Join(NonEmpty(EncodeParts(escapes, NonEmpty(Split(prefix)))
                  + (if key == [] then [] else StoredSegments(escapes, Split(key)))))
  }

  /** Strips the client's prefix off a listed location. */
  function Unkey(prefix: Bytes, location: Bytes): Bytes {
    if prefix <= location then location[|prefix|..] else location
  }

  /** The key a caller wrote, recovered from a listed location. */
  function ListedKey(prefix: Bytes, location: Bytes): Bytes {
    Join(ReadSegments(Split(Unkey(prefix, location))))
  }
}
