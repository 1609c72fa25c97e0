/** The conditions of an R2 `onlyIf`: entity-tag lists and upload times. */
module BlobConditions {
  import opened Prelude

  datatype Conditions = Conditions(
    ifMatch: Option<string>, ifNoneMatch: Option<string>,
    uploadedBefore: Option<int>, uploadedAfter: Option<int>)

  /** Unicode White_Space, which trimming removes. */
  predicate IsSpace(c: char) {
    || '\t' <= c <= '\r' || c == ' ' || c == '\U{85}' || c == '\U{A0}' || c == '\U{1680}'
    || '\U{2000}' <= c <= '\U{200A}' || c == '\U{2028}' || c == '\U{2029}' || c == '\U{202F}'
    || c == '\U{205F}' || c == '\U{3000}'
  }

  /** The code points with the Unicode property White_Space, one by one. */
  const WHITE_SPACE: string :=
    "\t\n\U{B}\U{C}\r \U{85}\U{A0}\U{1680}\U{2000}\U{2001}\U{2002}\U{2003}\U{2004}\U{2005}\U{2006}"
    + "\U{2007}\U{2008}\U{2009}\U{200A}\U{2028}\U{2029}\U{202F}\U{205F}\U{3000}"

  lemma SpacesAreUnicode(c: char)
    ensures IsSpace(c) <==> c in WHITE_SPACE
  {
  }

  function TrimSpace(s: string): string {
    if s != "" && IsSpace(s[0]) then TrimSpace(s[1..])
    else if s != "" && IsSpace(s[|s| - 1]) then TrimSpace(s[..|s| - 1])
    else s
  }

  function TrimWeak(s: string): string {
    if |s| >= 2 && s[0] == 'W' && s[1] == '/' then TrimWeak(s[2..]) else s
  }

  function TrimQuotes(s: string): string {
    if s != "" && s[0] == '"' then TrimQuotes(s[1..])
    else if s != "" && s[|s| - 1] == '"' then TrimQuotes(s[..|s| - 1])
    else s
  }

  /** A tag without surrounding space, weak marker or quotes. */
  function Bare(s: string): string {
    TrimQuotes(TrimWeak(TrimSpace(s)))
  }

  function SplitCommas(s: string): (r: seq<string>)
    ensures r != []
  {
    if s == "" then [""]
    else
      var rest := SplitCommas(s[1..]);
      if s[0] == ',' then [""] + rest else [[s[0]] + rest[0]] + rest[1..]
  }

  /** Some part reads as `name`. */
  predicate SomeReads(parts: seq<string>, name: string) {
    exists i :: 0 <= i < |parts| && Bare(parts[i]) == name
  }

  predicate Matches(list: string, etag: Option<string>) {
    if TrimSpace(list) == "*" then etag.Some?
    else SomeReads(SplitCommas(TrimSpace(list)), Bare(if etag.Some? then etag.value else ""))
  }

  predicate EtagMet(c: Conditions, etag: Option<string>) {
    && (c.ifMatch.Some? ==> Matches(c.ifMatch.value, etag))
    && (c.ifNoneMatch.Some? ==> !Matches(c.ifNoneMatch.value, etag))
  }

  predicate TimeMet(c: Conditions, uploaded: int) {
    && (c.uploadedBefore.Some? ==> uploaded < c.uploadedBefore.value)
    && (c.uploadedAfter.Some? ==> uploaded > c.uploadedAfter.value)
  }

  predicate IsEmpty(c: Conditions) {
    c.ifMatch.None? && c.ifNoneMatch.None? && c.uploadedBefore.None? && c.uploadedAfter.None?
  }

  // ---------------------------------------------------------------------
  // Entity-tag lists as section 8.8.3 of RFC 9110 writes them
  // ---------------------------------------------------------------------

  /** Quoted as the grammar asks, or bare, as R2 hands a tag out. */
  datatype Tag = Tag(name: string, weak: bool, quoted: bool)

  function Quoted(t: string): string {
    "\"" + t + "\""
  }

  function Spelled(tag: Tag): string {
    (if tag.weak then "W/" else "") + (if tag.quoted then Quoted(tag.name) else tag.name)
  }

  function Header(tags: seq<Tag>): string
    requires tags != []
  {
    if |tags| == 1 then Spelled(tags[0]) else Spelled(tags[0]) + ", " + Header(tags[1..])
  }

  predicate NoQuote(s: string) {
    forall i :: 0 <= i < |s| ==> s[i] != '"'
  }

  predicate NoComma(s: string) {
    forall i :: 0 <= i < |s| ==> s[i] != ','
  }

  /** Text that can stand without quotes: no space at its ends and no weak marker in front. */
  predicate Token(s: string) {
    && (s != "" ==> !IsSpace(s[0]) && !IsSpace(s[|s| - 1]))
    && !(|s| >= 2 && s[0] == 'W' && s[1] == '/')
  }

  /** The grammar rules a quote out of a tag. */
  predicate Legible(tag: Tag) {
    NoQuote(tag.name) && (!tag.quoted ==> Token(tag.name))
  }

  predicate AllLegible(tags: seq<Tag>) {
    forall i :: 0 <= i < |tags| ==> Legible(tags[i])
  }

  predicate NoCommas(tags: seq<Tag>) {
    forall i :: 0 <= i < |tags| ==> NoComma(tags[i].name)
  }

  predicate Names(tags: seq<Tag>, name: string) {
    exists i :: 0 <= i < |tags| && tags[i].name == name
  }

  lemma TrimQuoted(t: string)
    requires NoQuote(t)
    ensures TrimQuotes(Quoted(t)) == t == TrimQuotes(t)
  {
    assert Quoted(t)[1..] == t + "\"";
    assert TrimQuotes("") == "";
    if t == "" {
      assert (t + "\"")[1..] == "";
      assert TrimQuotes(t + "\"") == TrimQuotes("");
    } else {
      assert (t + "\"")[..|t|] == t;
    }
  }

  lemma TrimSpelled(tag: Tag)
    requires Legible(tag)
    ensures TrimSpace(Spelled(tag)) == Spelled(tag)
    ensures TrimSpace(" " + Spelled(tag)) == Spelled(tag)
  {
    assert (" " + Spelled(tag))[1..] == Spelled(tag);
  }

  lemma WeakSpelled(tag: Tag)
    requires Legible(tag)
    ensures TrimWeak(Spelled(tag)) == if tag.quoted then Quoted(tag.name) else tag.name
  {
    var text := if tag.quoted then Quoted(tag.name) else tag.name;
    assert TrimWeak(text) == text;
    if tag.weak {
      assert Spelled(tag)[2..] == text;
    } else {
      assert Spelled(tag) == text;
    }
  }

  /** Weak or strong, quoted or bare, led by a space or not, a tag reads as its name. */
  lemma BareSpelled(tag: Tag)
    requires Legible(tag)
    ensures Bare(Spelled(tag)) == tag.name == Bare(" " + Spelled(tag))
  {
    TrimSpelled(tag);
    WeakSpelled(tag);
    TrimQuoted(tag.name);
  }

  lemma {:induction false} SplitNoComma(s: string)
    requires NoComma(s)
    ensures SplitCommas(s) == [s]
  {
    if s != "" {
      SplitNoComma(s[1..]);
      assert [s[0]] + s[1..] == s;
    }
  }

  lemma {:induction false} SplitAtComma(s: string, rest: string)
    requires NoComma(s)
    ensures SplitCommas(s + "," + rest) == [s] + SplitCommas(rest)
  {
    var all := s + "," + rest;
    if s == "" {
      assert all[1..] == rest;
    } else {
      assert all[1..] == s[1..] + "," + rest;
      SplitAtComma(s[1..], rest);
      assert [s[0]] + s[1..] == s;
    }
  }

  lemma SpelledHasNoComma(tag: Tag)
    requires NoComma(tag.name)
    ensures NoComma(Spelled(tag)) && NoComma(" " + Spelled(tag))
  {
  }

  predicate Reads(parts: seq<string>, tags: seq<Tag>) {
    |parts| == |tags| && forall i :: 0 <= i < |tags| ==> Bare(parts[i]) == tags[i].name
  }

  lemma ReadsCons(part: string, parts: seq<string>, tags: seq<Tag>)
    requires tags != [] && Bare(part) == tags[0].name && Reads(parts, tags[1..])
    ensures Reads([part] + parts, tags)
  {
    forall i | 0 <= i < |tags| ensures Bare(([part] + parts)[i]) == tags[i].name {
      if i > 0 { assert Bare(parts[i - 1]) == tags[1..][i - 1].name; }
    }
  }

  lemma CommaThenSpace(first: string, rest: string)
    ensures first + ", " + rest == first + "," + (" " + rest)
  {
  }

  lemma SplitAtCommaSpace(first: string, rest: string)
    requires NoComma(first)
    ensures SplitCommas(first + ", " + rest) == [first] + SplitCommas(" " + rest)
  {
    CommaThenSpace(first, rest);
    SplitAtComma(first, " " + rest);
  }

  /** One more spelled tag in front of a list. */
  lemma ConsReads(first: string, rest: string, tags: seq<Tag>)
    requires tags != [] && Bare(first) == tags[0].name && NoComma(first)
    requires Reads(SplitCommas(" " + rest), tags[1..])
    ensures Reads(SplitCommas(first + ", " + rest), tags)
  {
    SplitAtCommaSpace(first, rest);
    ReadsCons(first, SplitCommas(" " + rest), tags);
  }

  lemma SpaceInFront(first: string, rest: string)
    ensures " " + (first + ", " + rest) == (" " + first) + ", " + rest
  {
  }

  /** Each candidate of a header is a spelled tag, possibly behind a space. */
  lemma {:induction false} SplitHeader(tags: seq<Tag>)
    requires tags != [] && AllLegible(tags) && NoCommas(tags)
    ensures Reads(SplitCommas(Header(tags)), tags)
    ensures Reads(SplitCommas(" " + Header(tags)), tags)
    decreases |tags|
  {
    var first := Spelled(tags[0]);
    BareSpelled(tags[0]);
    SpelledHasNoComma(tags[0]);
    if |tags| == 1 {
      SplitNoComma(first);
      SplitNoComma(" " + first);
    } else {
      var rest := Header(tags[1..]);
      SplitHeader(tags[1..]);
      ConsReads(first, rest, tags);
      ConsReads(" " + first, rest, tags);
      SpaceInFront(first, rest);
    }
  }

  /** `*` is no tag: it asks only whether there is a version. */
  predicate IsStar(tags: seq<Tag>) {
    |tags| == 1 && Spelled(tags[0]) == "*"
  }

  /** Trimming keeps every comma. */
  lemma CommaStays(s: string)
    ensures ',' in s ==> ',' in TrimSpace(s)
  {
    var before, after := TrimSplits(s);
    assert ',' !in before && ',' !in after;
  }

  lemma {:induction false} CommaInHeader(tags: seq<Tag>, k: nat)
    requires k < |tags| && (',' in tags[k].name || |tags| > 1)
    ensures ',' in Header(tags)
  {
    var first := Spelled(tags[0]);
    if k == 0 && ',' in tags[0].name { NameInSpelled(tags[0]); }
    if |tags| > 1 { assert Header(tags)[|first|] == ','; }
  }

  lemma NameInSpelled(tag: Tag)
    ensures ',' in tag.name ==> ',' in Spelled(tag)
  {
    if i :| 0 <= i < |tag.name| && tag.name[i] == ',' {
      var at := (if tag.weak then 2 else 0) + (if tag.quoted then 1 else 0) + i;
      assert Spelled(tag)[at] == ',';
    }
  }

  lemma HeaderIsNoStar(tags: seq<Tag>)
    requires tags != [] && AllLegible(tags) && !IsStar(tags)
    ensures TrimSpace(Header(tags)) != "*"
  {
    if |tags| == 1 {
      TrimSpelled(tags[0]);
    } else {
      CommaInHeader(tags, 0);
      CommaStays(Header(tags));
    }
  }

  /** Beside `*`, a list is met exactly when a part of it reads as the tag does. */
  lemma MatchesParts(list: string, etag: Option<string>)
    requires TrimSpace(list) != "*"
    ensures Matches(list, etag) <==> SomeReads(SplitCommas(list), Bare(if etag.Some? then etag.value else ""))
  {
    TrimmedParts(list);
    AlikeReads(SplitCommas(TrimSpace(list)), SplitCommas(list), Bare(if etag.Some? then etag.value else ""));
  }

  lemma AlikeReads(a: seq<string>, b: seq<string>, name: string)
    requires ReadAlike(a, b)
    ensures SomeReads(a, name) <==> SomeReads(b, name)
  {
    if SomeReads(a, name) {
      var i :| 0 <= i < |a| && Bare(a[i]) == name;
      assert Bare(b[i]) == name;
    }
  }

  lemma BareOfStored(etag: Option<string>)
    requires etag.Some? ==> NoQuote(etag.value)
    ensures Bare(if etag.Some? then Quoted(etag.value) else "") == if etag.Some? then etag.value else ""
  {
    if etag.Some? {
      BareSpelled(Tag(etag.value, false, true));
      assert Spelled(Tag(etag.value, false, true)) == Quoted(etag.value);
    } else {
      assert Bare("") == "";
    }
  }

  /**
   * A list of tags without commas matches exactly the versions whose tag it names, by weak comparison; absence
   * counts as the empty tag.
   */
  lemma HeaderMatches(tags: seq<Tag>, etag: Option<string>)
    requires tags != [] && AllLegible(tags) && NoCommas(tags) && !IsStar(tags)
    requires etag.Some? ==> NoQuote(etag.value)
    ensures Matches(Header(tags), if etag.Some? then Some(Quoted(etag.value)) else None) <==>
      Names(tags, if etag.Some? then etag.value else "")
  {
    var own := if etag.Some? then etag.value else "";
    HeaderIsNoStar(tags);
    SplitHeader(tags);
    BareOfStored(etag);
    MatchesParts(Header(tags), if etag.Some? then Some(Quoted(etag.value)) else None);
    ReadsNames(SplitCommas(Header(tags)), tags, own);
  }

  lemma ReadsNames(parts: seq<string>, tags: seq<Tag>, own: string)
    requires Reads(parts, tags)
    ensures Names(tags, own) <==> SomeReads(parts, own)
  {
    if i :| 0 <= i < |tags| && tags[i].name == own { assert Bare(parts[i]) == own; }
    if i :| 0 <= i < |parts| && Bare(parts[i]) == own { assert tags[i].name == own; }
  }

  // ---------------------------------------------------------------------
  // Tags with commas
  // ---------------------------------------------------------------------

  lemma {:induction false} PartsHaveNoComma(s: string, i: nat)
    requires i < |SplitCommas(s)|
    ensures NoComma(SplitCommas(s)[i])
  {
    if s != "" && s[0] == ',' {
      if i > 0 { PartsHaveNoComma(s[1..], i - 1); }
    } else if s != "" {
      PartsHaveNoComma(s[1..], i);
    }
  }

  lemma {:induction false} TrimQuotesKeeps(s: string)
    requires NoComma(s)
    ensures NoComma(TrimQuotes(s))
  {
    if s != "" && s[0] == '"' {
      TrimQuotesKeeps(s[1..]);
    } else if s != "" && s[|s| - 1] == '"' {
      TrimQuotesKeeps(s[..|s| - 1]);
    }
  }

  lemma BareHasNoComma(s: string)
    requires NoComma(s)
    ensures NoComma(Bare(s))
  {
    var before, after := TrimSplits(s);
    var trimmed := TrimSpace(s);
    assert trimmed == s[|before|..|before| + |trimmed|];
    var weak := WeakSplits(trimmed);
    assert TrimWeak(trimmed) == trimmed[|weak|..];
    TrimQuotesKeeps(TrimWeak(trimmed));
  }

  /** A list never matches a tag that holds a comma. */
  lemma CommaNeverMatches(list: string, e: string)
    requires TrimSpace(list) != "*" && NoQuote(e) && !NoComma(e)
    ensures !Matches(list, Some(Quoted(e)))
  {
    BareOfStored(Some(e));
    MatchesParts(list, Some(Quoted(e)));
    forall i | 0 <= i < |SplitCommas(list)| ensures Bare(SplitCommas(list)[i]) != e {
      PartsHaveNoComma(list, i);
      BareHasNoComma(SplitCommas(list)[i]);
    }
  }

  /** A list matches exactly the versions it names, for every version, exactly when no tag in it holds a comma. */
  lemma ListNamesExactly(tags: seq<Tag>)
    requires tags != [] && AllLegible(tags) && !IsStar(tags)
    ensures NoCommas(tags) <==>
      forall e :: NoQuote(e) ==> (Matches(Header(tags), Some(Quoted(e))) <==> Names(tags, e))
  {
    if NoCommas(tags) {
      forall e | NoQuote(e) ensures Matches(Header(tags), Some(Quoted(e))) <==> Names(tags, e) {
        HeaderMatches(tags, Some(e));
      }
    } else {
      var k :| 0 <= k < |tags| && !NoComma(tags[k].name);
      HeaderIsNoStar(tags);
      CommaNeverMatches(Header(tags), tags[k].name);
      assert Legible(tags[k]) && Names(tags, tags[k].name);
    }
  }

  /** A version is not met by the list that names just its tag, `"a,b"`. */
  lemma CommaTagMissesItself()
    ensures !Matches("\"a,b\"", Some("\"a,b\""))
  {
    var list := "\"a,b\"";
    assert list == Quoted("a,b");
    assert TrimSpace(list) == list;
    assert "a,b"[1] == ',';
    CommaNeverMatches(list, "a,b");
  }

  /** One quote behind a tag changes nothing. */
  lemma BareEndQuoted(t: string)
    requires NoQuote(t) && Token(t)
    ensures Bare(t + "\"") == t
  {
    var s := t + "\"";
    assert s[|t|] == '"' && s[..|t|] == t;
    assert TrimSpace(s) == s && TrimWeak(s) == s by { QuoteIsNoSpace(s); }
    TrimQuoted(t);
    if t == "" {
      assert s[1..] == "";
    } else {
      assert s[0] == t[0];
    }
  }

  lemma QuoteIsNoSpace(s: string)
    requires s != "" && s[|s| - 1] == '"' && !IsSpace(s[0]) && !(|s| >= 2 && s[0] == 'W' && s[1] == '/')
    ensures TrimSpace(s) == s && TrimWeak(s) == s
  {
  }

  /** A list that names only the tag `a,b` is met by the version `b`. */
  lemma SecondHalfMatches(a: string, b: string)
    requires NoComma(a) && NoQuote(b) && NoComma(b) && Token(b)
    ensures Matches(Quoted(a + "," + b), Some(Quoted(b)))
  {
    var list := Quoted(a + "," + b);
    assert list == ("\"" + a) + "," + (b + "\"");
    SplitAtComma("\"" + a, b + "\"");
    SplitNoComma(b + "\"");
    BareEndQuoted(b);
    BareOfStored(Some(b));
    assert Bare(SplitCommas(list)[1]) == b;
    assert TrimSpace(list) == list != "*";
    MatchesParts(list, Some(Quoted(b)));
  }

  /** The version `abc` is met by a list that names only the tag `x,abc`. */
  lemma CommaTagMatchesAnother()
    ensures Matches("\"x,abc\"", Some("\"abc\""))
  {
    assert "\"x,abc\"" == Quoted("x" + "," + "abc") by { assert "x" + "," + "abc" == "x,abc"; }
    assert "\"abc\"" == Quoted("abc");
    SecondHalfMatches("x", "abc");
  }

  // ---------------------------------------------------------------------
  // What an absent object matches
  // ---------------------------------------------------------------------

  predicate AllSpace(s: string) {
    forall i :: 0 <= i < |s| ==> IsSpace(s[i])
  }

  predicate AllQuotes(s: string) {
    forall i :: 0 <= i < |s| ==> s[i] == '"'
  }

  /** Any number of weak markers. */
  predicate WeakRun(s: string) {
    s == "" || (|s| >= 2 && s[0] == 'W' && s[1] == '/' && WeakRun(s[2..]))
  }

  /** A candidate that names no tag: weak markers and then quotes, with space around them. */
  ghost predicate Blank(s: string) {
    exists before, weak, quotes, after ::
      AllSpace(before) && WeakRun(weak) && AllQuotes(quotes) && AllSpace(after)
      && s == before + (weak + quotes) + after
  }

  lemma {:induction false} TrimBack(s: string, c: char)
    requires IsSpace(c)
    ensures TrimSpace(s + [c]) == TrimSpace(s)
  {
    if s != "" && IsSpace(s[0]) {
      assert (s + [c])[1..] == s[1..] + [c];
      TrimBack(s[1..], c);
    } else if s != "" {
      assert (s + [c])[..|s|] == s;
    }
  }

  lemma {:induction false} TrimSides(before: string, s: string, after: string)
    requires AllSpace(before) && AllSpace(after)
    ensures TrimSpace(before + s + after) == TrimSpace(s)
    decreases |before|, |after|
  {
    var all := before + s + after;
    if before != "" {
      assert all[1..] == before[1..] + s + after && IsSpace(all[0]);
      TrimSides(before[1..], s, after);
    } else if after != "" {
      var n := |after| - 1;
      assert all == (before + s + after[..n]) + [after[n]];
      TrimBack(before + s + after[..n], after[n]);
      TrimSides(before, s, after[..n]);
    } else {
      assert all == s;
    }
  }

  /** Trimming takes away space on both sides. */
  lemma {:induction false} TrimSplits(s: string) returns (before: string, after: string)
    ensures AllSpace(before) && AllSpace(after) && s == before + TrimSpace(s) + after
  {
    before, after := "", "";
    if s != "" && IsSpace(s[0]) {
      var b, a := TrimSplits(s[1..]);
      before, after := [s[0]] + b, a;
      Regroup([s[0]], b, TrimSpace(s));
      Regroup([s[0]], b + TrimSpace(s), a);
    } else if s != "" && IsSpace(s[|s| - 1]) {
      var b, a := TrimSplits(s[..|s| - 1]);
      before, after := b, a + [s[|s| - 1]];
      Regroup(b + TrimSpace(s), a, [s[|s| - 1]]);
    }
  }

  lemma Regroup(a: string, b: string, c: string)
    ensures (a + b) + c == a + (b + c)
  {
  }

  lemma {:induction false} TrimWeakRun(weak: string, s: string)
    requires WeakRun(weak)
    ensures TrimWeak(weak + s) == TrimWeak(s)
  {
    if weak == "" {
      assert weak + s == s;
    } else {
      assert (weak + s)[2..] == weak[2..] + s;
      TrimWeakRun(weak[2..], s);
    }
  }

  lemma {:induction false} WeakSplits(s: string) returns (weak: string)
    ensures WeakRun(weak) && s == weak + TrimWeak(s)
  {
    weak := "";
    if |s| >= 2 && s[0] == 'W' && s[1] == '/' {
      var rest := WeakSplits(s[2..]);
      weak := s[..2] + rest;
      assert weak[2..] == rest;
      Regroup(s[..2], rest, TrimWeak(s[2..]));
    }
  }

  lemma {:induction false} QuotesVanish(s: string)
    ensures TrimQuotes(s) == "" <==> AllQuotes(s)
  {
    if s != "" && s[0] == '"' {
      QuotesVanish(s[1..]);
      assert s == [s[0]] + s[1..];
    } else if s != "" && s[|s| - 1] == '"' {
      QuotesVanish(s[..|s| - 1]);
    }
  }

  /** Weak markers and quotes have no space to trim. */
  lemma MarksAreTrimmed(weak: string, quotes: string)
    requires WeakRun(weak) && AllQuotes(quotes)
    ensures TrimSpace(weak + quotes) == weak + quotes
  {
    var s := weak + quotes;
    if s != "" {
      assert s[0] == 'W' || s[0] == '"';
      if quotes == "" { WeakEnds(weak); }
    }
  }

  lemma {:induction false} WeakEnds(weak: string)
    requires WeakRun(weak) && weak != ""
    ensures weak[|weak| - 1] == '/'
  {
    if weak[2..] != "" { WeakEnds(weak[2..]); }
  }

  lemma BlankIsBare(s: string)
    ensures Blank(s) <==> Bare(s) == ""
  {
    if Blank(s) {
      var before, weak, quotes, after :|
        AllSpace(before) && WeakRun(weak) && AllQuotes(quotes) && AllSpace(after)
        && s == before + (weak + quotes) + after;
      TrimSides(before, weak + quotes, after);
      MarksAreTrimmed(weak, quotes);
      TrimWeakRun(weak, quotes);
      QuotesVanish(quotes);
    }
    if Bare(s) == "" {
      var before, after := TrimSplits(s);
      var weak := WeakSplits(TrimSpace(s));
      QuotesVanish(TrimWeak(TrimSpace(s)));
      assert s == before + (weak + TrimWeak(TrimSpace(s))) + after;
    }
  }

  /** The same number of parts, each read alike. */
  predicate ReadAlike(a: seq<string>, b: seq<string>) {
    |a| == |b| && forall i :: 0 <= i < |a| ==> Bare(a[i]) == Bare(b[i])
  }

  /** The parts with `c` behind the last one. */
  function Snoc(parts: seq<string>, c: char): (r: seq<string>)
    requires parts != []
    ensures |r| == |parts|
  {
    parts[..|parts| - 1] + [parts[|parts| - 1] + [c]]
  }

  lemma SnocCons(x: char, parts: seq<string>, c: char)
    requires parts != []
    ensures [""] + Snoc(parts, c) == Snoc([""] + parts, c)
    ensures [[x] + Snoc(parts, c)[0]] + Snoc(parts, c)[1..] == Snoc([[x] + parts[0]] + parts[1..], c)
  {
    if |parts| == 1 { assert [x] + (parts[0] + [c]) == ([x] + parts[0]) + [c]; }
  }

  lemma {:induction false} SplitSnoc(s: string, c: char)
    requires c != ','
    ensures SplitCommas(s + [c]) == Snoc(SplitCommas(s), c)
  {
    if s == "" {
      SplitNoComma([c]);
      assert "" + [c] == [c] && SplitCommas("") == [""];
    } else {
      assert (s + [c])[1..] == s[1..] + [c];
      SplitSnoc(s[1..], c);
      SnocCons(s[0], SplitCommas(s[1..]), c);
    }
  }

  lemma SpaceIsIgnored(s: string, c: char)
    requires IsSpace(c)
    ensures Bare([c] + s) == Bare(s) == Bare(s + [c])
  {
    assert ([c] + s)[1..] == s;
    TrimBack(s, c);
  }

  lemma FrontSpace(s: string)
    requires s != "" && IsSpace(s[0])
    ensures ReadAlike(SplitCommas(s[1..]), SplitCommas(s))
  {
    SpaceIsIgnored(SplitCommas(s[1..])[0], s[0]);
  }

  lemma BackSpace(s: string)
    requires s != "" && IsSpace(s[|s| - 1])
    ensures ReadAlike(SplitCommas(s[..|s| - 1]), SplitCommas(s))
  {
    var n := |s| - 1;
    assert s == s[..n] + [s[n]];
    SplitSnoc(s[..n], s[n]);
    SnocReads(SplitCommas(s[..n]), s[n]);
  }

  lemma SnocReads(parts: seq<string>, c: char)
    requires parts != [] && IsSpace(c)
    ensures ReadAlike(parts, Snoc(parts, c))
  {
    SpaceIsIgnored(parts[|parts| - 1], c);
  }

  /** Trimming the list first changes nothing. */
  lemma {:induction false} TrimmedParts(s: string)
    ensures ReadAlike(SplitCommas(TrimSpace(s)), SplitCommas(s))
  {
    if s != "" && IsSpace(s[0]) {
      FrontSpace(s);
      TrimmedParts(s[1..]);
    } else if s != "" && IsSpace(s[|s| - 1]) {
      BackSpace(s);
      TrimmedParts(s[..|s| - 1]);
    }
  }

  /** `*` with space around it asks only whether there is a version. */
  lemma StarMatches(before: string, after: string, etag: Option<string>)
    requires AllSpace(before) && AllSpace(after)
    ensures Matches(before + "*" + after, etag) <==> etag.Some?
  {
    TrimSides(before, "*", after);
    assert TrimSpace("*") == "*";
  }

  /**
   * Sections 13.1.1 and 13.1.2 of RFC 9110 let no list match an absent object. The code agrees exactly for
   * the lists of which no comma-separated part is blank.
   */
  lemma AbsentMatchesExactly(list: string)
    ensures Matches(list, None) <==> exists i :: 0 <= i < |SplitCommas(list)| && Blank(SplitCommas(list)[i])
  {
    var raw := SplitCommas(list);
    forall i | 0 <= i < |raw| ensures Blank(raw[i]) <==> Bare(raw[i]) == "" { BlankIsBare(raw[i]); }
    assert Bare("") == "";
    if TrimSpace(list) == "*" {
      StarHasNoBlank(list);
    } else {
      MatchesParts(list, None);
      assert SomeReads(raw, "") <==> exists i :: 0 <= i < |raw| && Blank(raw[i]);
    }
  }

  lemma StarHasNoBlank(list: string)
    requires TrimSpace(list) == "*"
    ensures forall i :: 0 <= i < |SplitCommas(list)| ==> Bare(SplitCommas(list)[i]) != ""
  {
    TrimmedParts(list);
    SplitNoComma("*");
    assert Bare("*") == "*";
  }

  /** The empty list is met by an absent object. */
  lemma EmptyListMatchesAbsent()
    ensures Matches("", None) && EtagMet(Conditions(Some(""), None, None, None), None)
  {
    assert SplitCommas("") == [""];
    assert Bare(SplitCommas(TrimSpace(""))[0]) == Bare("");
  }
}
