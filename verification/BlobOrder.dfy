/**
 * What the store's own order means for paging. The store lists by location,
 * which is not the order of keys: `.` and `..` segments are escaped, so
 * `a/.` comes before `a/-x` and `a/.b` after it.
 */
module BlobOrder {
  import opened Prelude
  import opened BlobKeys
  import opened BlobKeysProofs
  import opened BlobListing
  import opened BlobListingProofs
  import opened ByteOrder

  /** The part of a key's location below the client's prefix. */
  function Stored(escapes: set<Byte>, key: Bytes): Bytes {
    Join(StoredSegments(escapes, Split(key)))
  }

  /** The store lists `a` before `b`. */
  predicate LocatedBefore(escapes: set<Byte>, segments: seq<Bytes>, a: Key, b: Key) {
    Less(BlobPath(escapes, PrefixText(segments), a), BlobPath(escapes, PrefixText(segments), b))
  }

  /**
   * `keys`, as they were written, in the order in which a store lists their locations. Below a client prefix
   * without dot segments they are also the keys that are read back.
   */
  ghost predicate InLocationOrder(escapes: set<Byte>, segments: seq<Bytes>, keys: seq<Key>) {
    && (forall i :: 0 <= i < |keys| ==> keys[i] != "")
    && (forall i, j :: 0 <= i < j < |keys| ==> LocatedBefore(escapes, segments, keys[i], keys[j]))
  }

  lemma {:induction false} LessShared(head: Bytes, a: Bytes, b: Bytes)
    ensures Less(head + a, head + b) <==> Less(a, b)
  {
    if head == "" {
      assert head + a == a && head + b == b;
    } else {
      assert (head + a)[1..] == head[1..] + a && (head + b)[1..] == head[1..] + b;
      LessShared(head[1..], a, b);
    }
  }

  lemma LocationsCompare(escapes: set<Byte>, segments: seq<Bytes>, a: Bytes, b: Bytes)
    requires IsEncoder(escapes) && LegalPrefix(segments) && a != "" && b != ""
    ensures LocatedBefore(escapes, segments, a, b) <==> Less(Stored(escapes, a), Stored(escapes, b))
  {
    LocationWithPrefix(escapes, segments, a);
    LocationWithPrefix(escapes, segments, b);
    LessShared(PrefixText(EncodeParts(escapes, segments)), Stored(escapes, a), Stored(escapes, b));
  }

  // ---------------------------------------------------------------------
  // Splitting
  // ---------------------------------------------------------------------

  lemma {:induction false} SplitAppend(a: Bytes, b: Bytes)
    ensures Split(a + [SLASH] + b) == Split(a) + Split(b)
  {
    var s := a + [SLASH] + b;
    if a == "" {
      assert s[1..] == b;
    } else {
      assert s[1..] == a[1..] + [SLASH] + b;
      SplitAppend(a[1..], b);
    }
  }

  lemma {:induction false} StoredAppend(escapes: set<Byte>, a: seq<Bytes>, b: seq<Bytes>)
    ensures StoredSegments(escapes, a + b) == StoredSegments(escapes, a) + StoredSegments(escapes, b)
  {
    if a == [] {
      assert a + b == b;
    } else {
      assert (a + b)[1..] == a[1..] + b;
      StoredAppend(escapes, a[1..], b);
    }
  }

  /** The stored form of a directory and what is below it. */
  lemma StoredUnder(escapes: set<Byte>, a: Bytes, b: Bytes)
    ensures Stored(escapes, a + [SLASH] + b) ==
      PrefixText(StoredSegments(escapes, Split(a))) + Stored(escapes, b)
  {
    SplitAppend(a, b);
    StoredAppend(escapes, Split(a), Split(b));
    JoinAppend(StoredSegments(escapes, Split(a)), StoredSegments(escapes, Split(b)));
  }

  function LastSegment(s: Bytes): Bytes {
    Split(s)[|Split(s)| - 1]
  }

  lemma {:induction false} SplitCounts(s: Bytes)
    ensures |Split(s)| == 1 <==> NoSlash(s)
  {
    if s != "" {
      SplitCounts(s[1..]);
      assert s == [s[0]] + s[1..];
    }
  }

  lemma LastSegmentCons(c: Byte, s: Bytes)
    ensures LastSegment([c] + s) == if c == SLASH || |Split(s)| > 1 then LastSegment(s) else [c] + LastSegment(s)
    ensures |Split([c] + s)| == |Split(s)| + if c == SLASH then 1 else 0
  {
    assert ([c] + s)[1..] == s;
  }

  predicate EndsIn(s: Bytes, tail: Bytes) {
    |tail| <= |s| && s[|s| - |tail|..] == tail
  }

  /** The last segment is the text's own from its last slash on, and otherwise ends with the text. */
  lemma {:induction false} LastSegmentOf(x: Bytes, d: Bytes)
    ensures !NoSlash(d) ==> LastSegment(x + d) == LastSegment(d) && |Split(x + d)| > 1
    ensures NoSlash(d) ==> EndsIn(LastSegment(x + d), d)
  {
    if x == "" {
      assert x + d == d;
      SplitCounts(d);
      if NoSlash(d) { SplitOne(d); }
    } else {
      assert x + d == [x[0]] + (x[1..] + d);
      LastSegmentCons(x[0], x[1..] + d);
      LastSegmentOf(x[1..], d);
      EndsInCons(x[0], LastSegment(x[1..] + d), d);
    }
  }

  lemma EndsInCons(c: Byte, s: Bytes, tail: Bytes)
    ensures EndsIn(s, tail) ==> EndsIn([c] + s, tail)
  {
  }

  // ---------------------------------------------------------------------
  // Keys with a common prefix have locations with a common prefix
  // ---------------------------------------------------------------------

  /** `g` starts `k`, segment by segment. */
  predicate SegmentsStart(ks: seq<Bytes>, gs: seq<Bytes>)
    requires ks != [] && gs != []
  {
    if |gs| == 1 then gs[0] <= ks[0]
    else |ks| > 1 && ks[0] == gs[0] && SegmentsStart(ks[1..], gs[1..])
  }

  /** A byte in front of both changes nothing. */
  lemma SegmentsStartCons(c: Byte, ks: seq<Bytes>, gs: seq<Bytes>)
    requires ks != [] && gs != []
    ensures SegmentsStart([[c] + ks[0]] + ks[1..], [[c] + gs[0]] + gs[1..]) <==> SegmentsStart(ks, gs)
  {
    StripShared([c], gs[0], ks[0]);
    assert gs[0] <= ks[0] ==> [c] + gs[0] <= [c] + ks[0];
    assert ([c] + ks[0])[1..] == ks[0] && ([c] + gs[0])[1..] == gs[0];
    assert ([[c] + ks[0]] + ks[1..])[1..] == ks[1..] && ([[c] + gs[0]] + gs[1..])[1..] == gs[1..];
  }

  /** How the first segment shows the first byte. */
  lemma FirstSegment(s: Bytes)
    requires s != ""
    ensures s[0] == SLASH ==> Split(s)[0] == "" && |Split(s)| > 1
    ensures s[0] != SLASH ==> Split(s)[0] != "" && Split(s)[0][0] == s[0]
  {
  }

  lemma {:induction false} StartsAsSegments(k: Bytes, g: Bytes)
    ensures StartsWith(k, g) <==> SegmentsStart(Split(k), Split(g))
  {
    if g != "" && k != "" && k[0] == g[0] {
      var ks, gs := Split(k[1..]), Split(g[1..]);
      StartsAsSegments(k[1..], g[1..]);
      StripHead(k, g);
      if k[0] == SLASH {
        assert ([[]] + ks)[1..] == ks && ([[]] + gs)[1..] == gs;
      } else {
        SegmentsStartCons(k[0], ks, gs);
      }
    } else if g != "" {
      FirstSegment(g);
      if k != "" {
        FirstSegment(k);
        HeadAgrees(k, g);
      }
    }
  }

  lemma HeadAgrees(k: Bytes, g: Bytes)
    requires k != "" && g != ""
    ensures StartsWith(k, g) ==> k[0] == g[0]
  {
    if StartsWith(k, g) { assert k[..|g|][0] == k[0]; }
  }

  lemma StripHead(k: Bytes, g: Bytes)
    requires k != "" && g != "" && k[0] == g[0]
    ensures StartsWith(k, g) <==> StartsWith(k[1..], g[1..])
  {
    if |g| <= |k| {
      assert k[..|g|] == [k[0]] + k[1..][..|g| - 1];
      assert k[1..][..|g| - 1] == k[..|g|][1..];
    }
  }

  lemma HexDigitDiffers(x: nat, y: nat)
    requires x < 16 && y < 16 && HexDigit(x) == HexDigit(y)
    ensures x == y
  {
    assert HexValue(HexDigit(x)) == x && HexValue(HexDigit(y)) == y;
  }

  lemma HexDigitsDiffer(a: nat, b: nat)
    requires a < 256 && b < 256
    requires HexDigit(a / 16 % 16) == HexDigit(b / 16 % 16) && HexDigit(a % 16) == HexDigit(b % 16)
    ensures a == b
  {
    HexDigitDiffers(a / 16 % 16, b / 16 % 16);
    HexDigitDiffers(a % 16, b % 16);
  }

  /** No byte's code starts another byte's code. */
  lemma CodesDiffer(escapes: set<Byte>, a: Byte, b: Byte, x: Bytes, y: Bytes)
    requires IsEncoder(escapes) && a != b
    ensures !(EncodeByte(escapes, a) + x <= EncodeByte(escapes, b) + y)
  {
    var s, t := EncodeByte(escapes, a) + x, EncodeByte(escapes, b) + y;
    if s <= t {
      assert s[0] == t[0];
      assert a in escapes && b in escapes;
      assert s[1] == t[1] && s[2] == t[2];
      HexDigitsDiffer(a as int, b as int);
    }
  }

  lemma {:induction false} EncodedStarts(escapes: set<Byte>, s: Bytes, p: Bytes)
    requires IsEncoder(escapes)
    ensures EncodeBytes(escapes, p) <= EncodeBytes(escapes, s) <==> p <= s
  {
    if p != "" && s != "" {
      var x, y := EncodeBytes(escapes, p[1..]), EncodeBytes(escapes, s[1..]);
      if p[0] == s[0] {
        EncodedStarts(escapes, s[1..], p[1..]);
        StripShared(EncodeByte(escapes, p[0]), x, y);
        StripShared([p[0]], p[1..], s[1..]);
        assert p == [p[0]] + p[1..] && s == [s[0]] + s[1..];
      } else {
        CodesDiffer(escapes, p[0], s[0], x, y);
      }
    }
  }

  /** Text that is no dot segment starts a segment exactly when its code starts the stored segment. */
  lemma CodeStarts(escapes: set<Byte>, s: Bytes, p: Bytes)
    requires IsEncoder(escapes) && !IsDot(p)
    ensures EncodeBytes(escapes, p) <= StoredSegment(escapes, s) <==> p <= s
  {
    if p != "" {
      var code := EncodeBytes(escapes, p);
      assert code == EncodeByte(escapes, p[0]) + EncodeBytes(escapes, p[1..]);
      assert p[0] !in escapes ==> code[0] == p[0] != PERCENT;
      var n := p[0] as int;
      assert p[0] in escapes ==> |code| >= 3 && code[1] == HexDigit(n / 16 % 16) && code[2] == HexDigit(n % 16);
      if IsDot(s) {
        NotTheDot(escapes, p[0]);
      } else {
        EncodedStarts(escapes, s, p);
      }
    }
  }

  /** The code of an escaped byte is never the code of a dot. */
  lemma NotTheDot(escapes: set<Byte>, b: Byte)
    requires IsEncoder(escapes)
    ensures b in escapes ==> HexDigit(b as int / 16 % 16) != '2' || HexDigit(b as int % 16) != 'E'
  {
    if b in escapes {
      assert b as int != 46;
      assert HexDigit(46 / 16 % 16) == '2' && HexDigit(46 % 16) == 'E';
      if HexDigit(b as int / 16 % 16) == '2' && HexDigit(b as int % 16) == 'E' { HexDigitsDiffer(b as int, 46); }
    }
  }

  /** What starts the stored form of every key that starts with the segments `gs`. */
  function PrefixCode(escapes: set<Byte>, gs: seq<Bytes>): Bytes
    requires gs != []
  {
    if |gs| == 1 then EncodeBytes(escapes, gs[0])
    else StoredSegment(escapes, gs[0]) + [SLASH] + PrefixCode(escapes, gs[1..])
  }

  lemma PrefixAgrees(s: Bytes, t: Bytes)
    ensures s <= t ==> forall i :: 0 <= i < |s| ==> s[i] == t[i]
  {
  }

  /** Text without a slash starts a path exactly when it starts the first segment. */
  lemma StartsFirst(c: Bytes, a: Bytes, rest: Bytes)
    requires NoSlash(c)
    ensures c <= a + [SLASH] + rest <==> c <= a
  {
    var t := a + [SLASH] + rest;
    PrefixAgrees(c, t);
    assert t[|a|] == SLASH && a == t[..|a|];
    assert c <= t ==> |c| <= |a|;
    assert c <= t ==> c == t[..|c|] == a[..|c|];
  }

  lemma StartsBoth(a: Bytes, b: Bytes, x: Bytes, y: Bytes)
    requires NoSlash(a) && NoSlash(b)
    ensures a + [SLASH] + x <= b + [SLASH] + y <==> a == b && x <= y
  {
    var s, t := a + [SLASH] + x, b + [SLASH] + y;
    PrefixAgrees(s, t);
    assert s[|a|] == SLASH && t[|b|] == SLASH;
    assert s <= t ==> |a| == |b|;
    assert s <= t ==> a == s[..|a|] == t[..|a|] == b;
    if a == b { StripShared(a + [SLASH], x, y); }
  }

  lemma StoredSegmentIsPlain(escapes: set<Byte>, s: Bytes)
    requires IsEncoder(escapes)
    ensures NoSlash(StoredSegment(escapes, s)) && ReadSegment(StoredSegment(escapes, s)) == s
  {
    PartRoundTrip(escapes, s);
  }

  lemma {:induction false} PrefixCodeStarts(escapes: set<Byte>, ks: seq<Bytes>, gs: seq<Bytes>)
    requires IsEncoder(escapes) && ks != [] && gs != [] && !IsDot(gs[|gs| - 1])
    ensures PrefixCode(escapes, gs) <= Join(StoredSegments(escapes, ks)) <==> SegmentsStart(ks, gs)
    decreases |gs|
  {
    var stored := StoredSegments(escapes, ks);
    var k0, g0 := stored[0], StoredSegment(escapes, gs[0]);
    StoredSegmentIsPlain(escapes, ks[0]);
    StoredSegmentIsPlain(escapes, gs[0]);
    if |gs| == 1 {
      CodeStarts(escapes, ks[0], gs[0]);
      DecodeEncoded(escapes, gs[0]);
      if |ks| > 1 { StartsFirst(EncodeBytes(escapes, gs[0]), k0, Join(stored[1..])); }
    } else if |ks| == 1 {
      assert PrefixCode(escapes, gs)[|g0|] == SLASH;
    } else {
      PrefixCodeStarts(escapes, ks[1..], gs[1..]);
      StartsBoth(g0, k0, PrefixCode(escapes, gs[1..]), Join(stored[1..]));
    }
  }

  /** Keys that start with `g` are exactly those whose stored form starts with one text. */
  lemma StoredStarts(escapes: set<Byte>, key: Bytes, g: Bytes)
    requires IsEncoder(escapes) && !IsDot(LastSegment(g))
    ensures StartsWith(key, g) <==> StartsWith(Stored(escapes, key), PrefixCode(escapes, Split(g)))
  {
    StartsAsSegments(key, g);
    PrefixCodeStarts(escapes, Split(key), Split(g));
  }

  // ---------------------------------------------------------------------
  // Which groups stay together
  // ---------------------------------------------------------------------

  /** The delimiter is, or ends in a slash and then, a dot segment. */
  predicate DotTail(delimiter: Bytes) {
    IsDot(LastSegment(delimiter))
  }

  /** A dot segment that ends with the delimiter makes the delimiter a dot tail. */
  lemma DotTailOf(x: Bytes, d: Bytes)
    requires d != "" && IsDot(LastSegment(x + d))
    ensures DotTail(d)
  {
    LastSegmentOf(x, d);
    if NoSlash(d) { SplitOne(d); }
  }

  lemma OccursEnds(s: Bytes, d: Bytes, at: nat)
    requires OccursAt(s, d, at)
    ensures s[..at + |d|] == s[..at] + d
  {
  }

  lemma GroupTail(q: Query, key: Key, g: string)
    requires InGroup(q, key, g) && !DotTail(q.delimiter)
    ensures !IsDot(LastSegment(g))
  {
    var at := GroupShape(q, key, g);
    var front := key[|q.prefix|..][..at];
    OccursEnds(key[|q.prefix|..], q.delimiter, at);
    Regroup(q.prefix, front, q.delimiter);
    if IsDot(LastSegment(g)) { DotTailOf(q.prefix + front, q.delimiter); }
  }

  /** Between two locations of keys that start with `g` lie only such keys. */
  lemma BetweenStarts(escapes: set<Byte>, segments: seq<Bytes>, a: Key, b: Key, c: Key, g: Bytes)
    requires IsEncoder(escapes) && LegalPrefix(segments) && a != "" && b != "" && c != ""
    requires a == b || LocatedBefore(escapes, segments, a, b)
    requires b == c || LocatedBefore(escapes, segments, b, c)
    requires StartsWith(a, g) && StartsWith(c, g) && !IsDot(LastSegment(g))
    ensures StartsWith(b, g)
  {
    StoredStarts(escapes, a, g);
    StoredStarts(escapes, b, g);
    StoredStarts(escapes, c, g);
    LocationsCompare(escapes, segments, a, b);
    LocationsCompare(escapes, segments, b, c);
    Sandwiched(Stored(escapes, a), Stored(escapes, b), Stored(escapes, c), PrefixCode(escapes, Split(g)));
  }

  /** A matching key listed between two keys of a group is of that group. */
  lemma StaysTogether(escapes: set<Byte>, segments: seq<Bytes>, q: Query, a: Key, b: Key, c: Key, g: Bytes)
    requires IsEncoder(escapes) && LegalPrefix(segments) && a != "" && b != "" && c != ""
    requires a == b || LocatedBefore(escapes, segments, a, b)
    requires b == c || LocatedBefore(escapes, segments, b, c)
    requires InGroup(q, a, g) && InGroup(q, c, g) && !DotTail(q.delimiter)
    ensures InGroup(q, b, g)
  {
    GroupTail(q, a, g);
    GroupIsPrefix(q, a, b, g);
    GroupIsPrefix(q, c, b, g);
    BetweenStarts(escapes, segments, a, b, c, g);
  }

  lemma OrderAt(escapes: set<Byte>, segments: seq<Bytes>, keys: seq<Key>, i: nat, j: nat)
    requires InLocationOrder(escapes, segments, keys) && i <= j < |keys|
    ensures keys[i] != "" && keys[j] != ""
    ensures keys[i] == keys[j] || LocatedBefore(escapes, segments, keys[i], keys[j])
  {
  }

  /** Listed by location, the keys of each group are adjacent, for every delimiter without a dot tail. */
  lemma LocationOrderIsAdjacent(escapes: set<Byte>, segments: seq<Bytes>, q: Query, keys: seq<Key>)
    requires IsEncoder(escapes) && LegalPrefix(segments) && NoDots(segments)
    requires InLocationOrder(escapes, segments, keys)
    requires !DotTail(q.delimiter)
    ensures Adjacent(q, keys)
  {
    forall i, j, k, g | 0 <= i <= j <= k < |keys| && InGroup(q, keys[i], g) && InGroup(q, keys[k], g)
      ensures InGroup(q, keys[j], g)
    {
      OrderAt(escapes, segments, keys, i, j);
      OrderAt(escapes, segments, keys, j, k);
      StaysTogether(escapes, segments, q, keys[i], keys[j], keys[k], g);
    }
  }

  // ---------------------------------------------------------------------
  // A delimiter with a dot tail splits a group
  // ---------------------------------------------------------------------

  /** What precedes the last slash, or nothing. */
  function Directory(s: Bytes): Bytes {
    Join(Split(s)[..|Split(s)| - 1])
  }

  lemma LastSlash(s: Bytes)
    requires !NoSlash(s)
    ensures s == Directory(s) + [SLASH] + LastSegment(s)
  {
    var parts := Split(s);
    var init := parts[..|parts| - 1];
    SplitCounts(s);
    JoinSplit(s);
    JoinAppend(init, [LastSegment(s)]);
    assert init + [LastSegment(s)] == parts;
    PrefixTextIsJoin(init);
  }

  /** Text whose first delimiter ends it is its own group. */
  lemma OwnGroup(q: Query, s: Bytes, at: nat)
    requires q.delimiter != "" && FirstAt(s, q.delimiter) == Some(at) && at + |q.delimiter| == |s|
    ensures InGroup(q, q.prefix + s, q.prefix + s)
  {
    SplitText(q.prefix, s);
    WholeGroup(q, q.prefix + s, at);
  }

  lemma WholeGroup(q: Query, key: Bytes, at: nat)
    requires q.delimiter != "" && StartsWith(key, q.prefix)
    requires FirstAt(key[|q.prefix|..], q.delimiter) == Some(at) && at + |q.delimiter| == |key| - |q.prefix|
    ensures InGroup(q, key, key)
  {
    var rest := key[|q.prefix|..];
    assert rest[..at + |q.delimiter|] == rest;
    assert q.prefix + rest == key;
  }

  lemma SplitText(a: Bytes, b: Bytes)
    ensures StartsWith(a + b, a) && (a + b)[|a|..] == b
  {
  }

  lemma DelimiterFirst(d: Bytes)
    requires d != ""
    ensures FirstAt(d, d) == Some(0)
    ensures d[0] != SLASH ==> FirstAt([SLASH] + d, d) == Some(1)
  {
    assert d[0..|d|] == d;
    var s := [SLASH] + d;
    assert s[1..] == d;
    if d[0] != SLASH { assert s[0..|d|][0] == SLASH; }
  }

  lemma Regroup(a: Bytes, b: Bytes, c: Bytes)
    ensures (a + b) + c == a + (b + c)
  {
  }

  lemma DotRootPlain(q: Query)
    requires IsDot(q.delimiter)
    ensures var g := q.prefix + [SLASH] + q.delimiter; InGroup(q, g, g)
  {
    DelimiterFirst(q.delimiter);
    OwnGroup(q, [SLASH] + q.delimiter, 1);
    Regroup(q.prefix, [SLASH], q.delimiter);
  }

  lemma DotRootBelow(q: Query, head: Bytes, tail: Bytes)
    requires q.delimiter == head + [SLASH] + tail
    ensures var g := (q.prefix + head) + [SLASH] + tail; InGroup(q, g, g)
  {
    DelimiterFirst(q.delimiter);
    OwnGroup(q, q.delimiter, 0);
    Regroup(q.prefix, head, [SLASH]);
    Regroup(q.prefix, head + [SLASH], tail);
  }

  /** A directory where the delimiter's dot tail is a segment, and a group of its own. */
  lemma DotRoot(q: Query) returns (root: Bytes)
    requires DotTail(q.delimiter)
    ensures StartsWith(root, q.prefix)
    ensures var g := root + [SLASH] + LastSegment(q.delimiter); InGroup(q, g, g)
  {
    if NoSlash(q.delimiter) {
      SplitOne(q.delimiter);
      root := q.prefix;
      DotRootPlain(q);
    } else {
      LastSlash(q.delimiter);
      root := q.prefix + Directory(q.delimiter);
      DotRootBelow(q, Directory(q.delimiter), LastSegment(q.delimiter));
    }
  }

  /** How the three segments are stored: the dots escaped, the others as they are. */
  lemma StoredDots(escapes: set<Byte>, tail: Bytes)
    requires IsEncoder(escapes) && IsDot(tail)
    ensures Less(Stored(escapes, tail), Stored(escapes, "-")) && Less(Stored(escapes, "-"), Stored(escapes, tail + "b"))
  {
    SplitOne(tail);
    SplitOne("-");
    SplitOne(tail + "b");
    PlainPart(escapes, "-");
    PlainPart(escapes, tail + "b");
    assert Stored(escapes, "-") == "-" && Stored(escapes, tail + "b") == tail + "b";
    assert Stored(escapes, tail)[0] == '%';
  }

  /** Below one directory, locations compare as the rest is stored. */
  lemma LocatedUnder(escapes: set<Byte>, segments: seq<Bytes>, root: Bytes, x: Bytes, y: Bytes)
    requires IsEncoder(escapes) && LegalPrefix(segments) && Less(Stored(escapes, x), Stored(escapes, y))
    ensures LocatedBefore(escapes, segments, root + [SLASH] + x, root + [SLASH] + y)
  {
    var a, b := root + [SLASH] + x, root + [SLASH] + y;
    StoredUnder(escapes, root, x);
    StoredUnder(escapes, root, y);
    LessShared(PrefixText(StoredSegments(escapes, Split(root))), Stored(escapes, x), Stored(escapes, y));
    LocationsCompare(escapes, segments, a, b);
  }

  lemma DotsInOrder(escapes: set<Byte>, segments: seq<Bytes>, root: Bytes, tail: Bytes)
    requires IsEncoder(escapes) && LegalPrefix(segments) && IsDot(tail)
    ensures InLocationOrder(escapes, segments,
      [root + [SLASH] + tail, root + [SLASH] + "-", root + [SLASH] + (tail + "b")])
  {
    StoredDots(escapes, tail);
    LessTransitive(Stored(escapes, tail), Stored(escapes, "-"), Stored(escapes, tail + "b"));
    LocatedUnder(escapes, segments, root, tail, "-");
    LocatedUnder(escapes, segments, root, "-", tail + "b");
    LocatedUnder(escapes, segments, root, tail, tail + "b");
    ThreeInOrder(escapes, segments, root + [SLASH] + tail, root + [SLASH] + "-", root + [SLASH] + (tail + "b"));
  }

  lemma ThreeInOrder(escapes: set<Byte>, segments: seq<Bytes>, a: Key, b: Key, c: Key)
    requires a != "" && b != "" && c != ""
    requires LocatedBefore(escapes, segments, a, b) && LocatedBefore(escapes, segments, b, c)
    requires LocatedBefore(escapes, segments, a, c)
    ensures InLocationOrder(escapes, segments, [a, b, c])
  {
    var keys := [a, b, c];
    forall i, j | 0 <= i < j < |keys| ensures LocatedBefore(escapes, segments, keys[i], keys[j]) {
      assert (i == 0 && j == 1) || (i == 0 && j == 2) || (i == 1 && j == 2);
    }
  }

  /** Under every query prefix a dot tail gives keys, in location order, whose group is split. */
  lemma DotTailSplits(escapes: set<Byte>, segments: seq<Bytes>, q: Query) returns (keys: seq<Key>)
    requires IsEncoder(escapes) && LegalPrefix(segments) && NoDots(segments) && DotTail(q.delimiter)
    ensures InLocationOrder(escapes, segments, keys) && !Adjacent(q, keys)
  {
    var root := DotRoot(q);
    var tail := LastSegment(q.delimiter);
    var g, other, last := root + [SLASH] + tail, root + [SLASH] + "-", root + [SLASH] + (tail + "b");
    keys := [g, other, last];
    DotsInOrder(escapes, segments, root, tail);
    assert last[..|g|] == g;
    GroupIsPrefix(q, g, last, g);
    assert other[..|q.prefix|] == root[..|q.prefix|];
    NotInSplitGroup(q, root, tail);
    assert InGroup(q, keys[0], g) && InGroup(q, keys[2], g) && EntryOf(q, keys[1]).Some?;
  }

  lemma NotInSplitGroup(q: Query, root: Bytes, tail: Bytes)
    requires IsDot(tail)
    ensures !InGroup(q, root + [SLASH] + "-", root + [SLASH] + tail)
  {
    var g, other := root + [SLASH] + tail, root + [SLASH] + "-";
    assert g[|root| + 1] == DOT && other[|root| + 1] == '-';
    if InGroup(q, other, g) {
      GroupIsPrefix(q, other, other, g);
      PrefixAgrees(g, other);
    }
  }

  // ---------------------------------------------------------------------
  // Pages of keys in location order
  // ---------------------------------------------------------------------

  lemma LocationsAreDistinctKeys(escapes: set<Byte>, segments: seq<Bytes>, keys: seq<Key>)
    requires InLocationOrder(escapes, segments, keys)
    ensures Distinct(keys)
  {
    forall i, j | 0 <= i < j < |keys| ensures keys[i] != keys[j] {
      assert LocatedBefore(escapes, segments, keys[i], keys[j]);
      LessIrreflexive(BlobPath(escapes, PrefixText(segments), keys[i]));
    }
  }

  lemma EntriesCons(q: Query, key: Key, rest: seq<Key>, seen: set<string>)
    ensures Entries(q, [key] + rest, seen) ==
      (if AddsEntry(q, key, seen) then [EntryOf(q, key).value] else []) + Entries(q, rest, Seen(q, key, seen))
  {
    assert ([key] + rest)[1..] == rest;
  }

  lemma LastPage(q: Query, c: Key, g: string)
    requires InGroup(q, c, g)
    ensures AllPrefixes(Pages(q, [c], 1)) == [g]
  {
    EntriesCons(q, c, [], {});
    assert [c] + [] == [c] && Entries(q, [c], {}) == [Group(g)];
    var page := PageOf(q, [c], 1);
    OnePrefix(Group(g), page.prefixes, [Group(g)]);
    assert Pages(q, [c], 1) == [page];
    assert AllPrefixes([page]) == page.prefixes + AllPrefixes([]);
  }

  /** Of two keys with different entries, the first has the first page to itself. */
  lemma PageAlone(q: Query, a: Key, b: Key, rest: seq<Key>)
    requires Distinct([a, b] + rest) && EntryOf(q, a).Some? && EntryOf(q, b).Some? && EntryOf(q, a) != EntryOf(q, b)
    ensures var e := EntryOf(q, a).value;
      AllPrefixes(Pages(q, [a, b] + rest, 1)) ==
        (if e.Group? then [e.name] else []) + AllPrefixes(Pages(q, [b] + rest, 1))
  {
    var keys := [a, b] + rest;
    assert keys == [a] + ([b] + rest);
    EntriesCons(q, a, [b] + rest, {});
    EntriesCons(q, b, rest, Seen(q, a, {}));
    var m := FirstRun(q, keys);
    assert keys[1] == b && m == 1;
    assert keys[1..] == [b] + rest;
  }

  lemma TwoPages(q: Query, b: Key, c: Key, g: string)
    requires b != c && EntryOf(q, b) == Some(Blob(b)) && InGroup(q, c, g)
    ensures AllPrefixes(Pages(q, [b, c], 1)) == [g]
  {
    assert [b, c] + [] == [b, c];
    assert [c] + [] == [c];
    PageAlone(q, b, c, []);
    LastPage(q, c, g);
  }

  lemma ThreePages(q: Query, a: Key, b: Key, c: Key, g: string)
    requires a != b && b != c && a != c && InGroup(q, a, g) && EntryOf(q, b) == Some(Blob(b)) && InGroup(q, c, g)
    ensures AllPrefixes(Pages(q, [a, b, c], 1)) == [g, g]
  {
    assert [a, b] + [c] == [a, b, c];
    assert [b] + [c] == [b, c];
    PageAlone(q, a, b, [c]);
    TwoPages(q, b, c, g);
  }

  /** A byte in front that starts no occurrence moves the first one by one. */
  lemma FirstAtCons(c: Byte, s: Bytes, d: Bytes)
    requires d != "" && d[0] != c
    ensures FirstAt([c] + s, d) ==
      match FirstAt(s, d) { case None => None case Some(i) => Some(i + 1) }
  {
    var t := [c] + s;
    assert t[1..] == s;
    if |d| <= |t| { assert t[0..|d|][0] == c; }
  }

  lemma DotEntries()
    ensures var q := Query("", ".");
      InGroup(q, "a/.", "a/.") && EntryOf(q, "a/-") == Some(Blob("a/-")) && InGroup(q, "a/.b", "a/.")
  {
    assert ['a'] + "/." == "a/." && ['/'] + "." == "/.";
    DelimiterFirst(".");
    FirstAtCons('/', ".", ".");
    FirstAtCons('a', "/.", ".");
    OwnGroup(Query("", "."), "a/.", 2);
    assert "" + "a/." == "a/.";
    assert "a/.b"[..3] == "a/.";
    GroupIsPrefix(Query("", "."), "a/.", "a/.b", "a/.");
    NoDotNoGroup(Query("", "."), "a/-");
  }

  /** The keys `a/.`, `a/-` and `a/.b`, in location order, name the group `a/.` on the first and on the third page. */
  lemma DotGroupPages(escapes: set<Byte>)
    requires IsEncoder(escapes)
    ensures var q, keys := Query("", "."), ["a/.", "a/-", "a/.b"];
      InLocationOrder(escapes, [], keys) && AllPrefixes(Pages(q, keys, 1)) == ["a/.", "a/."]
  {
    var a, b, c := "a/.", "a/-", "a/.b";
    assert a == "a" + [SLASH] + "." && b == "a" + [SLASH] + "-" && c == "a" + [SLASH] + ("." + "b");
    DotsInOrder(escapes, [], "a", ".");
    DotEntries();
    ThreePages(Query("", "."), a, b, c, a);
  }

  lemma NoDotNoGroup(q: Query, key: Key)
    requires q == Query("", ".") && '.' !in key
    ensures EntryOf(q, key) == Some(Blob(key))
  {
    FirstAtIsFirst(key, ".");
    assert key[0..] == key && key[..0] == "";
    if FirstAt(key, ".").Some? { DotAt(key, FirstAt(key, ".").value); }
  }

  lemma DotAt(key: Key, at: nat)
    ensures OccursAt(key, ".", at) ==> '.' in key
  {
    if OccursAt(key, ".", at) { assert key[at..at + 1][0] == key[at]; }
  }

  lemma {:induction false} PrefixTextIsJoin(parts: seq<Bytes>)
    requires parts != []
    ensures PrefixText(parts) == Join(parts) + [SLASH]
    decreases |parts|
  {
    if |parts| > 1 { PrefixTextIsJoin(parts[1..]); }
  }
}
