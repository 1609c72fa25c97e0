/** Blob keys survive the trip through the bucket. */
module BlobKeysProofs {
  import opened BlobKeys

  // ---------------------------------------------------------------------
  // Splitting and joining
  // ---------------------------------------------------------------------

  lemma {:induction false} JoinSplit(s: Bytes)
    ensures Join(Split(s)) == s
  {
    if s != [] {
      JoinSplit(s[1..]);
      var rest := Split(s[1..]);
      if s[0] == SLASH {
        assert ([[]] + rest)[1..] == rest;
      } else {
        var first := [s[0]] + rest[0];
        assert ([first] + rest[1..])[1..] == rest[1..];
        assert |rest| > 1 ==> first + [SLASH] + Join(rest[1..]) == [s[0]] + (rest[0] + [SLASH] + Join(rest[1..]));
      }
    }
  }

  predicate NoSlash(s: Bytes) {
    SLASH !in s
  }

  predicate NoSlashes(segments: seq<Bytes>) {
    forall i :: 0 <= i < |segments| ==> NoSlash(segments[i])
  }

  lemma {:induction false} SplitNoSlash(s: Bytes)
    ensures NoSlashes(Split(s))
  {
    if s != [] { SplitNoSlash(s[1..]); }
  }

  lemma {:induction false} SplitOne(s: Bytes)
    requires NoSlash(s)
    ensures Split(s) == [s]
  {
    if s != [] {
      SplitOne(s[1..]);
      assert [s[0]] + s[1..] == s;
    }
  }

  lemma {:induction false} SplitFirst(s: Bytes, rest: Bytes)
    requires NoSlash(s)
    ensures Split(s + [SLASH] + rest) == [s] + Split(rest)
  {
    if s == [] {
      assert ([] + [SLASH] + rest)[1..] == rest;
    } else {
      SplitFirst(s[1..], rest);
      var all := s + [SLASH] + rest;
      assert all[1..] == s[1..] + [SLASH] + rest;
      assert [s[0]] + s[1..] == s;
      assert ([s[1..]] + Split(rest))[1..] == Split(rest);
    }
  }

  lemma {:induction false} SplitJoin(segments: seq<Bytes>)
    requires segments != [] && NoSlashes(segments)
    ensures Split(Join(segments)) == segments
    decreases |segments|
  {
    if |segments| == 1 {
      SplitOne(segments[0]);
    } else {
      SplitJoin(segments[1..]);
      SplitFirst(segments[0], Join(segments[1..]));
    }
  }

  // ---------------------------------------------------------------------
  // One segment
  // ---------------------------------------------------------------------

  /** The least and the most that an encoder may escape. */
  lemma EncodersExist()
    ensures IsEncoder({PERCENT, SLASH}) && IsEncoder(set b: Byte | b as int < 256 && !PrefixByte(b))
  {
  }

  function LowerHexDigit(n: nat): Byte
    requires n < 16
  {
    if n < 10 then '0' + n as char else 'a' + (n - 10) as char
  }

  /** Escapes read the same in either case, whoever wrote them. */
  lemma DecodesEitherCase(n: nat)
    requires n < 256
    ensures Decode([PERCENT, LowerHexDigit(n / 16), LowerHexDigit(n % 16)]) == [n as char]
    ensures Decode([PERCENT, HexDigit(n / 16), HexDigit(n % 16)]) == [n as char]
  {
    var lower, upper := [PERCENT, LowerHexDigit(n / 16), LowerHexDigit(n % 16)],
                        [PERCENT, HexDigit(n / 16), HexDigit(n % 16)];
    assert lower[3..] == [] && upper[3..] == [];
  }

  lemma DecodeEncodedByte(escapes: set<Byte>, b: Byte, rest: Bytes)
    requires PERCENT in escapes && forall e <- escapes :: e as int < 256
    ensures Decode(EncodeByte(escapes, b) + rest) == [b] + Decode(rest)
    ensures |EncodeByte(escapes, b)| >= 1
    ensures SLASH in escapes ==> NoSlash(EncodeByte(escapes, b))
  {
    var text := EncodeByte(escapes, b) + rest;
    if b in escapes {
      var code := b as int;
      assert text[1] == HexDigit(code / 16) && text[2] == HexDigit(code % 16) && text[3..] == rest;
      assert HexValue(HexDigit(code / 16)) == code / 16 && HexValue(HexDigit(code % 16)) == code % 16;
    } else {
      assert text[1..] == rest;
    }
  }

  lemma {:induction false} DecodeEncoded(escapes: set<Byte>, s: Bytes)
    requires IsEncoder(escapes)
    ensures Decode(EncodeBytes(escapes, s)) == s
    ensures NoSlash(EncodeBytes(escapes, s))
    ensures EncodeBytes(escapes, s) != [PERCENT]
    ensures s != [] ==> EncodeBytes(escapes, s) != []
  {
    if s != [] {
      DecodeEncodedByte(escapes, s[0], EncodeBytes(escapes, s[1..]));
      DecodeEncoded(escapes, s[1..]);
      assert [s[0]] + s[1..] == s;
    }
  }

  lemma DecodeDots()
    ensures Decode("%2E") == "."
    ensures Decode("%2E%2E") == ".."
  {
    assert "%2E"[3..] == "";
    assert "%2E%2E"[3..] == "%2E";
  }

  lemma PartRoundTrip(escapes: set<Byte>, part: Bytes)
    requires IsEncoder(escapes)
    ensures Decode(EncodePart(escapes, part)) == part
    ensures NoSlash(EncodePart(escapes, part)) && EncodePart(escapes, part) != [PERCENT]
    ensures part != [] ==> EncodePart(escapes, part) != []
  {
    DecodeDots();
    DecodeEncoded(escapes, part);
  }

  /** Every segment of a key, the empty one included, reads back as it was. */
  lemma {:induction false} SegmentsRoundTrip(escapes: set<Byte>, segments: seq<Bytes>)
    requires IsEncoder(escapes)
    ensures ReadSegments(StoredSegments(escapes, segments)) == segments
    ensures NoSlashes(StoredSegments(escapes, segments))
    ensures NonEmpty(StoredSegments(escapes, segments)) == StoredSegments(escapes, segments)
  {
    if segments != [] {
      PartRoundTrip(escapes, segments[0]);
      SegmentsRoundTrip(escapes, segments[1..]);
    }
  }

  // ---------------------------------------------------------------------
  // The prefix
  // ---------------------------------------------------------------------

  /** A normalized prefix: its segments, each followed by a slash. */
  function PrefixText(segments: seq<Bytes>): Bytes {
    if segments == [] then [] else segments[0] + [SLASH] + PrefixText(segments[1..])
  }

  predicate IsDot(segment: Bytes) {
    segment == "." || segment == ".."
  }

  /** What a bucket specification accepts as a prefix; it does not refuse `.` and `..`. */
  predicate LegalPrefix(segments: seq<Bytes>) {
    forall i :: 0 <= i < |segments| ==>
      segments[i] != [] && forall j :: 0 <= j < |segments[i]| ==> PrefixByte(segments[i][j])
  }

  predicate NoDots(segments: seq<Bytes>) {
    forall i :: 0 <= i < |segments| ==> !IsDot(segments[i])
  }

  /** The characters a bucket specification lets through: letters, digits and `-_./`. */
  predicate Accepted(prefix: Bytes) {
    forall i :: 0 <= i < |prefix| ==>
      || 'a' <= prefix[i] <= 'z' || 'A' <= prefix[i] <= 'Z' || '0' <= prefix[i] <= '9'
      || prefix[i] == '-' || prefix[i] == '_' || prefix[i] == '.' || prefix[i] == '/'
  }

  predicate PlainSegments(segments: seq<Bytes>) {
    forall i :: 0 <= i < |segments| ==> forall j :: 0 <= j < |segments[i]| ==> PrefixByte(segments[i][j])
  }

  lemma {:induction false} PlainNonEmpty(segments: seq<Bytes>)
    ensures PlainSegments(segments) <==> LegalPrefix(NonEmpty(segments))
  {
    if segments != [] {
      PlainNonEmpty(segments[1..]);
      PlainFirst(segments);
      var rest := NonEmpty(segments[1..]);
      if segments[0] == [] {
        assert NonEmpty(segments) == rest;
      } else {
        PlainCons(segments[0], rest);
      }
    }
  }

  lemma PlainCons(head: Bytes, rest: seq<Bytes>)
    requires head != []
    ensures LegalPrefix([head] + rest) <==> (forall j :: 0 <= j < |head| ==> PrefixByte(head[j])) && LegalPrefix(rest)
  {
    var all := [head] + rest;
    if LegalPrefix(all) {
      assert all[0] == head;
      forall i | 0 <= i < |rest| ensures rest[i] != [] && forall j :: 0 <= j < |rest[i]| ==> PrefixByte(rest[i][j]) {
        assert all[i + 1] == rest[i];
      }
    }
  }

  lemma PlainFirst(segments: seq<Bytes>)
    requires segments != []
    ensures PlainSegments(segments) <==>
      (forall j :: 0 <= j < |segments[0]| ==> PrefixByte(segments[0][j])) && PlainSegments(segments[1..])
  {
    if PlainSegments(segments) {
      forall i | 0 <= i < |segments[1..]|
        ensures forall j :: 0 <= j < |segments[1..][i]| ==> PrefixByte(segments[1..][i][j])
      {
        assert segments[1..][i] == segments[i + 1];
      }
    }
  }

  lemma {:induction false} PlainSplit(s: Bytes)
    ensures PlainSegments(Split(s)) <==> forall i :: 0 <= i < |s| ==> s[i] == SLASH || PrefixByte(s[i])
  {
    if s != [] {
      PlainSplit(s[1..]);
      assert s == [s[0]] + s[1..];
      var rest := Split(s[1..]);
      PlainFirst(Split(s));
      if s[0] == SLASH {
        assert Split(s)[1..] == rest;
      } else {
        PlainFirst(rest);
        assert Split(s)[1..] == rest[1..];
        var head := [s[0]] + rest[0];
        assert head[0] == s[0] && forall j :: 0 <= j < |rest[0]| ==> head[j + 1] == rest[0][j];
      }
    }
  }

  /** The check on a prefix lets through exactly what normalizes to legal segments. */
  lemma AcceptedExactly(prefix: Bytes)
    ensures Accepted(prefix) <==> LegalPrefix(NonEmpty(Split(prefix)))
  {
    PlainSplit(prefix);
    PlainNonEmpty(Split(prefix));
  }

  lemma {:induction false} PrefixSegments(segments: seq<Bytes>)
    requires LegalPrefix(segments)
    ensures NonEmpty(Split(PrefixText(segments))) == segments
  {
    if segments != [] {
      PrefixSegments(segments[1..]);
      SplitFirst(segments[0], PrefixText(segments[1..]));
      assert ([segments[0]] + Split(PrefixText(segments[1..])))[1..] == Split(PrefixText(segments[1..]));
    }
  }

  lemma {:induction false} PlainPart(escapes: set<Byte>, part: Bytes)
    requires IsEncoder(escapes) && forall j :: 0 <= j < |part| ==> PrefixByte(part[j])
    ensures EncodeBytes(escapes, part) == part
  {
    if part != [] {
      PlainPart(escapes, part[1..]);
      assert [part[0]] + part[1..] == part;
    }
  }

  lemma {:induction false} EncodedPrefix(escapes: set<Byte>, segments: seq<Bytes>)
    requires IsEncoder(escapes) && LegalPrefix(segments)
    ensures NonEmpty(EncodeParts(escapes, segments)) == EncodeParts(escapes, segments)
    ensures NoSlashes(EncodeParts(escapes, segments))
    ensures ReadSegments(EncodeParts(escapes, segments)) == segments
  {
    if segments != [] {
      PartRoundTrip(escapes, segments[0]);
      EncodedPrefix(escapes, segments[1..]);
    }
  }

  lemma {:induction false} PlainPrefix(escapes: set<Byte>, segments: seq<Bytes>)
    requires IsEncoder(escapes) && LegalPrefix(segments) && NoDots(segments)
    ensures EncodeParts(escapes, segments) == segments
  {
    if segments != [] {
      PlainPart(escapes, segments[0]);
      PlainPrefix(escapes, segments[1..]);
    }
  }

  lemma {:induction false} NonEmptyAppend(a: seq<Bytes>, b: seq<Bytes>)
    ensures NonEmpty(a + b) == NonEmpty(a) + NonEmpty(b)
  {
    if a == [] {
      assert a + b == b;
    } else {
      assert (a + b)[1..] == a[1..] + b;
      NonEmptyAppend(a[1..], b);
    }
  }

  lemma {:induction false} ReadAppend(a: seq<Bytes>, b: seq<Bytes>)
    ensures ReadSegments(a + b) == ReadSegments(a) + ReadSegments(b)
  {
    if a == [] {
      assert a + b == b;
    } else {
      assert (a + b)[1..] == a[1..] + b;
      ReadAppend(a[1..], b);
    }
  }

  lemma {:induction false} JoinAppend(a: seq<Bytes>, b: seq<Bytes>)
    requires b != []
    ensures Join(a + b) == PrefixText(a) + Join(b)
  {
    if a == [] {
      assert a + b == b;
    } else {
      assert (a + b)[1..] == a[1..] + b;
      JoinAppend(a[1..], b);
    }
  }

  /** The location of a non-empty key, in one piece. */
  lemma LocationOf(escapes: set<Byte>, segments: seq<Bytes>, key: Bytes)
    requires IsEncoder(escapes) && LegalPrefix(segments) && key != []
    ensures BlobPath(escapes, PrefixText(segments), key) ==
            Join(EncodeParts(escapes, segments) + StoredSegments(escapes, Split(key)))
  {
    PrefixSegments(segments);
    EncodedPrefix(escapes, segments);
    SegmentsRoundTrip(escapes, Split(key));
    NonEmptyAppend(EncodeParts(escapes, segments), StoredSegments(escapes, Split(key)));
  }

  lemma LocationWithPrefix(escapes: set<Byte>, segments: seq<Bytes>, key: Bytes)
    requires IsEncoder(escapes) && LegalPrefix(segments) && key != []
    ensures BlobPath(escapes, PrefixText(segments), key) ==
            PrefixText(EncodeParts(escapes, segments)) + Join(StoredSegments(escapes, Split(key)))
  {
    LocationOf(escapes, segments, key);
    JoinAppend(EncodeParts(escapes, segments), StoredSegments(escapes, Split(key)));
  }

  lemma StripShared(head: Bytes, a: Bytes, b: Bytes)
    ensures head + a <= head + b ==> a <= b
    ensures head + a == head + b ==> a == b
  {
    assert (head + a)[|head|..] == a && (head + b)[|head|..] == b;
  }

  /** A prefix with a dot segment is not a prefix of the locations below it. */
  lemma {:induction false} DotsDoNotStrip(escapes: set<Byte>, segments: seq<Bytes>, tail: Bytes)
    requires IsEncoder(escapes) && LegalPrefix(segments) && !NoDots(segments)
    ensures !(PrefixText(segments) <= PrefixText(EncodeParts(escapes, segments)) + tail)
  {
    var text, rest := PrefixText(segments), PrefixText(segments[1..]);
    var encoded := EncodeParts(escapes, segments[1..]);
    var all := PrefixText(EncodeParts(escapes, segments)) + tail;
    if IsDot(segments[0]) {
      assert text[0] == DOT && all[0] == PERCENT;
    } else {
      PlainPart(escapes, segments[0]);
      var head := segments[0] + [SLASH];
      assert (EncodeParts(escapes, segments))[1..] == encoded;
      assert text == head + rest && all == head + (PrefixText(encoded) + tail);
      StripShared(head, rest, PrefixText(encoded) + tail);
      DotsDoNotStrip(escapes, segments[1..], tail);
    }
  }

  // ---------------------------------------------------------------------
  // Theorems
  // ---------------------------------------------------------------------

  lemma RoundTrip(escapes: set<Byte>, segments: seq<Bytes>, key: Bytes)
    requires IsEncoder(escapes) && LegalPrefix(segments) && NoDots(segments) && key != []
    ensures ListedKey(PrefixText(segments), BlobPath(escapes, PrefixText(segments), key)) == key
  {
    LocationWithPrefix(escapes, segments, key);
    PlainPrefix(escapes, segments);
    SegmentsRoundTrip(escapes, Split(key));
    var stored := StoredSegments(escapes, Split(key));
    assert Unkey(PrefixText(segments), PrefixText(segments) + Join(stored)) == Join(stored);
    SplitJoin(stored);
    JoinSplit(key);
  }

  lemma DotPrefixLeaks(escapes: set<Byte>, segments: seq<Bytes>, key: Bytes)
    requires IsEncoder(escapes) && LegalPrefix(segments) && !NoDots(segments) && key != []
    ensures ListedKey(PrefixText(segments), BlobPath(escapes, PrefixText(segments), key)) == PrefixText(segments) + key
  {
    var encoded, stored := EncodeParts(escapes, segments), StoredSegments(escapes, Split(key));
    LocationOf(escapes, segments, key);
    LocationWithPrefix(escapes, segments, key);
    DotsDoNotStrip(escapes, segments, Join(stored));
    EncodedPrefix(escapes, segments);
    SegmentsRoundTrip(escapes, Split(key));
    SplitJoin(encoded + stored);
    ReadAppend(encoded, stored);
    JoinAppend(segments, Split(key));
    JoinSplit(key);
  }

  /**
   * A key is listed as it was written, for every non-empty key, exactly when
   * the bucket prefix has no `.` or `..` segment. With one, every listed key
   * carries the prefix.
   */
  lemma ListedAsWritten(escapes: set<Byte>, segments: seq<Bytes>, key: Bytes)
    requires IsEncoder(escapes) && LegalPrefix(segments) && key != []
    ensures ListedKey(PrefixText(segments), BlobPath(escapes, PrefixText(segments), key)) == key <==> NoDots(segments)
  {
    if NoDots(segments) {
      RoundTrip(escapes, segments, key);
    } else {
      DotPrefixLeaks(escapes, segments, key);
      assert segments != [];
    }
  }

  /** Two keys never share a location, with any legal prefix. */
  lemma LocationsAreDistinct(escapes: set<Byte>, segments: seq<Bytes>, a: Bytes, b: Bytes)
    requires IsEncoder(escapes) && LegalPrefix(segments) && a != [] && b != [] && a != b
    ensures BlobPath(escapes, PrefixText(segments), a) != BlobPath(escapes, PrefixText(segments), b)
  {
    if NoDots(segments) {
      RoundTrip(escapes, segments, a);
      RoundTrip(escapes, segments, b);
    } else {
      DotPrefixLeaks(escapes, segments, a);
      DotPrefixLeaks(escapes, segments, b);
      StripShared(PrefixText(segments), a, b);
    }
  }
}
