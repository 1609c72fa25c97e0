/**
 * Paging over a store, as `list_page` does it: the store answers locations
 * under a directory and after an offset, each is read back as a key, and the
 * cursor of a page is the last key read, whose location is the next offset.
 */
module BlobPaging {
  import opened Prelude
  import opened BlobKeys
  import opened BlobKeysProofs
  import opened BlobListing
  import opened BlobListingProofs
  import opened BlobOrder
  import opened ByteOrder

  function Location(escapes: set<Byte>, segments: seq<Bytes>, key: Bytes): Bytes {
    BlobPath(escapes, PrefixText(segments), key)
  }

  /** The key under which the blob written as `key` is listed. */
  function ListedAs(escapes: set<Byte>, segments: seq<Bytes>, key: Bytes): Bytes {
    ListedKey(PrefixText(segments), Location(escapes, segments, key))
  }

  /** The store lists a path's whole segments. */
  predicate UnderPath(location: Bytes, path: Bytes) {
    path == "" || path + [SLASH] <= location
  }

  /** A blob the store answers with, when asked for the prefix's directory after `after`. */
  predicate IsAnswered(escapes: set<Byte>, segments: seq<Bytes>, q: Query, key: Key, after: Option<Key>) {
    && UnderPath(Location(escapes, segments, key), Location(escapes, segments, Directory(q.prefix)))
    && (after.Some? ==> Less(Location(escapes, segments, after.value), Location(escapes, segments, key)))
  }

  function Answering(escapes: set<Byte>, segments: seq<Bytes>, q: Query, after: Option<Key>): Key -> bool {
    key => IsAnswered(escapes, segments, q, key, after)
  }

  function Listing(escapes: set<Byte>, segments: seq<Bytes>): Key -> Key {
    key => ListedAs(escapes, segments, key)
  }

  /** What is listed of the keys to keep. */
  function Picked(keep: Key -> bool, listed: Key -> Key, keys: seq<Key>): seq<Key> {
    if keys == [] then []
    else if keep(keys[0]) then [listed(keys[0])] + Picked(keep, listed, keys[1..])
    else Picked(keep, listed, keys[1..])
  }

  /** The keys read back from the answer, after the offset, of a store that holds `keys`. */
  function StoreAnswer(escapes: set<Byte>, segments: seq<Bytes>, q: Query, keys: seq<Key>,
                       after: Option<Key>): seq<Key>
  {
    Picked(Answering(escapes, segments, q, after), Listing(escapes, segments), keys)
  }

  /** The page for each cursor. */
  function Pager(escapes: set<Byte>, segments: seq<Bytes>, q: Query, keys: seq<Key>, limit: nat): Option<Key> -> Page {
    after => PageOf(q, StoreAnswer(escapes, segments, q, keys, after), limit)
  }

  /** `pages` are what a caller gets who follows cursors, from `after` on, to a page without one. */
  ghost predicate Follows(pager: Option<Key> -> Page, after: Option<Key>, pages: seq<Page>)
    decreases |pages|
  {
    && pages != [] && pages[0] == pager(after)
    && if pages[0].cursor.None? then |pages| == 1 else Follows(pager, pages[0].cursor, pages[1..])
  }

  /** `pages` are all the pages over a store, from the first to one without a cursor. */
  ghost predicate StorePages(escapes: set<Byte>, segments: seq<Bytes>, q: Query, keys: seq<Key>, limit: nat,
                             pages: seq<Page>)
  {
    Follows(Pager(escapes, segments, q, keys, limit), None, pages)
  }

  // ---------------------------------------------------------------------
  // A page depends on the matching keys only
  // ---------------------------------------------------------------------

  function Matching(q: Query, keys: seq<Key>): seq<Key> {
    if keys == [] then []
    else if StartsWith(keys[0], q.prefix) then [keys[0]] + Matching(q, keys[1..])
    else Matching(q, keys[1..])
  }

  lemma {:induction false} MatchingAppend(q: Query, a: seq<Key>, b: seq<Key>)
    ensures Matching(q, a + b) == Matching(q, a) + Matching(q, b)
  {
    if a == [] {
      assert a + b == b;
    } else {
      assert (a + b)[1..] == a[1..] + b;
      MatchingAppend(q, a[1..], b);
    }
  }

  lemma {:induction false} AllMatch(q: Query, keys: seq<Key>)
    ensures Matching(q, Matching(q, keys)) == Matching(q, keys)
  {
    if keys != [] {
      var rest := Matching(q, keys[1..]);
      AllMatch(q, keys[1..]);
      assert ([keys[0]] + rest)[1..] == rest;
    }
  }

  lemma {:induction false} EntriesOfMatching(q: Query, keys: seq<Key>, seen: set<string>)
    ensures Entries(q, keys, seen) == Entries(q, Matching(q, keys), seen)
  {
    if keys != [] {
      EntriesOfMatching(q, keys[1..], Seen(q, keys[0], seen));
      assert ([keys[0]] + Matching(q, keys[1..]))[1..] == Matching(q, keys[1..]);
    }
  }

  /** The first key of `keys` is read before `n` of the others. */
  lemma MatchingTake(q: Query, keys: seq<Key>, n: nat)
    requires 0 < n <= |keys|
    ensures Matching(q, keys[..n]) ==
      (if StartsWith(keys[0], q.prefix) then [keys[0]] else []) + Matching(q, keys[1..][..n - 1])
  {
    assert keys[..n][1..] == keys[1..][..n - 1];
  }

  lemma TakeCons(key: Key, rest: seq<Key>, n: nat)
    requires n <= |rest|
    ensures ([key] + rest)[1..] == rest && ([key] + rest)[..n + 1] == [key] + rest[..n]
  {
  }

  /** A page reads the same matching keys of `keys` as of the matching keys alone. */
  lemma {:induction false} ConsumedOfMatching(q: Query, keys: seq<Key>, seen: set<string>, room: nat)
    ensures var matching := Matching(q, keys);
      Matching(q, keys[..Consumed(q, keys, seen, room)]) == matching[..Consumed(q, matching, seen, room)]
  {
    if keys != [] && Consumed(q, keys, seen, room) > 0 {
      var room' := if AddsEntry(q, keys[0], seen) then room - 1 else room;
      var seen' := Seen(q, keys[0], seen);
      var rest := Matching(q, keys[1..]);
      ConsumedOfMatching(q, keys[1..], seen', room');
      MatchingTake(q, keys, Consumed(q, keys, seen, room));
      TakeCons(keys[0], rest, Consumed(q, rest, seen', room'));
    }
  }

  lemma {:induction false} LastOfMatching(q: Query, keys: seq<Key>)
    ensures var m := Matching(q, keys); LastMatch(q, keys) == if m == [] then None else Some(m[|m| - 1])
    decreases |keys|
  {
    if keys != [] {
      var n := |keys| - 1;
      LastOfMatching(q, keys[..n]);
      MatchingAppend(q, keys[..n], [keys[n]]);
      assert keys == keys[..n] + [keys[n]];
    }
  }

  lemma CursorOfMatching(q: Query, keys: seq<Key>, limit: nat)
    ensures var m := Matching(q, keys);
      LastMatch(q, keys[..Consumed(q, keys, {}, limit)]) == LastMatch(q, m[..Consumed(q, m, {}, limit)])
  {
    var m := Matching(q, keys);
    ConsumedOfMatching(q, keys, {}, limit);
    ConsumedOfMatching(q, m, {}, limit);
    AllMatch(q, keys);
    LastOfMatching(q, keys[..Consumed(q, keys, {}, limit)]);
    LastOfMatching(q, m[..Consumed(q, m, {}, limit)]);
  }

  lemma PageOfMatching(q: Query, keys: seq<Key>, limit: nat)
    ensures PageOf(q, keys, limit) == PageOf(q, Matching(q, keys), limit)
  {
    EntriesOfMatching(q, keys, {});
    CursorOfMatching(q, keys, limit);
  }

  // ---------------------------------------------------------------------
  // What the store answers
  // ---------------------------------------------------------------------

  /** The scope itself holds every key. */
  lemma UnderScope(escapes: set<Byte>, segments: seq<Bytes>, key: Key)
    requires IsEncoder(escapes) && LegalPrefix(segments) && key != ""
    ensures UnderPath(Location(escapes, segments, key), Location(escapes, segments, ""))
  {
    var encoded := EncodeParts(escapes, segments);
    PrefixSegments(segments);
    EncodedPrefix(escapes, segments);
    assert encoded + [] == encoded;
    if segments != [] {
      PrefixTextIsJoin(encoded);
      LocationWithPrefix(escapes, segments, key);
    }
  }

  lemma BelowDirectory(escapes: set<Byte>, segments: seq<Bytes>, directory: Bytes, rest: Bytes)
    requires IsEncoder(escapes) && LegalPrefix(segments) && directory != ""
    ensures UnderPath(Location(escapes, segments, directory + [SLASH] + rest), Location(escapes, segments, directory))
  {
    StoredUnder(escapes, directory, rest);
    LocationWithPrefix(escapes, segments, directory + [SLASH] + rest);
    LocationWithPrefix(escapes, segments, directory);
    PrefixTextIsJoin(StoredSegments(escapes, Split(directory)));
    var head := PrefixText(EncodeParts(escapes, segments));
    Regroup(head, Stored(escapes, directory), [SLASH]);
    Regroup(head, PrefixText(StoredSegments(escapes, Split(directory))), Stored(escapes, rest));
  }

  lemma SplitsAt(key: Key, directory: Bytes, tail: Bytes)
    requires StartsWith(key, directory + [SLASH] + tail)
    ensures |directory| < |key| && key == directory + [SLASH] + key[|directory| + 1..]
  {
    var prefix := directory + [SLASH] + tail;
    assert key[..|directory| + 1] == prefix[..|directory| + 1] == directory + [SLASH];
  }

  /** Asking the store only for the directory of the prefix leaves out no key that is listed with the prefix. */
  lemma DirectoryHoldsMatches(escapes: set<Byte>, segments: seq<Bytes>, prefix: Bytes, key: Key)
    requires IsEncoder(escapes) && LegalPrefix(segments) && NoDots(segments) && key != ""
    requires StartsWith(ListedAs(escapes, segments, key), prefix)
    ensures UnderPath(Location(escapes, segments, key), Location(escapes, segments, Directory(prefix)))
  {
    RoundTrip(escapes, segments, key);
    var directory := Directory(prefix);
    if directory == "" {
      UnderScope(escapes, segments, key);
    } else {
      SplitCounts(prefix);
      LastSlash(prefix);
      SplitsAt(key, directory, LastSegment(prefix));
      BelowDirectory(escapes, segments, directory, key[|directory| + 1..]);
    }
  }

  /** The store lists `key` after `after`, if there is one. */
  predicate IsAfter(escapes: set<Byte>, segments: seq<Bytes>, key: Key, after: Option<Key>) {
    after.Some? ==> LocatedBefore(escapes, segments, after.value, key)
  }

  /** Whether a key is answered, and listed as itself, below a prefix without dot segments. */
  lemma AnsweredMatch(escapes: set<Byte>, segments: seq<Bytes>, q: Query, key: Key, after: Option<Key>)
    requires IsEncoder(escapes) && LegalPrefix(segments) && NoDots(segments) && key != ""
    ensures Listing(escapes, segments)(key) == key
    ensures StartsWith(key, q.prefix) ==>
      (Answering(escapes, segments, q, after)(key) <==> IsAfter(escapes, segments, key, after))
    ensures Answering(escapes, segments, q, after)(key) ==> IsAfter(escapes, segments, key, after)
  {
    RoundTrip(escapes, segments, key);
    if StartsWith(key, q.prefix) { DirectoryHoldsMatches(escapes, segments, q.prefix, key); }
  }

  /** What is picked after the first `lo` keys, if every matching key is, and listed as itself. */
  lemma {:induction false} PickedFrom(q: Query, keep: Key -> bool, listed: Key -> Key, keys: seq<Key>, lo: nat)
    requires lo <= |keys| && forall i :: 0 <= i < lo ==> !keep(keys[i])
    requires forall i :: lo <= i < |keys| ==>
      listed(keys[i]) == keys[i] && (StartsWith(keys[i], q.prefix) ==> keep(keys[i]))
    ensures Matching(q, Picked(keep, listed, keys)) == Matching(q, keys[lo..])
  {
    if keys != [] {
      var rest := Picked(keep, listed, keys[1..]);
      assert ([keys[0]] + rest)[1..] == rest;
      if lo > 0 {
        PickedFrom(q, keep, listed, keys[1..], lo - 1);
        assert keys[1..][lo - 1..] == keys[lo..];
      } else {
        PickedFrom(q, keep, listed, keys[1..], 0);
        assert keys[1..][0..] == keys[1..] && keys[0..] == keys;
      }
    }
  }

  // ---------------------------------------------------------------------
  // Following cursors below a prefix without dot segments
  // ---------------------------------------------------------------------

  /** A store whose keys are listed as they were written. */
  ghost predicate PlainStore(escapes: set<Byte>, segments: seq<Bytes>, keys: seq<Key>) {
    IsEncoder(escapes) && LegalPrefix(segments) && NoDots(segments) && InLocationOrder(escapes, segments, keys)
  }

  /** The first `lo` keys have been read. */
  predicate ReadTo(keys: seq<Key>, lo: nat, after: Option<Key>) {
    lo <= |keys| && if after.None? then lo == 0 else lo > 0 && after.value == keys[lo - 1]
  }

  lemma NotBefore(a: string, b: string)
    requires a == b || Less(a, b)
    ensures !Less(b, a)
  {
    LessIrreflexive(a);
    if Less(a, b) && Less(b, a) { LessTransitive(a, b, a); }
  }

  lemma AfterExactly(escapes: set<Byte>, segments: seq<Bytes>, keys: seq<Key>, lo: nat, after: Option<Key>, i: nat)
    requires InLocationOrder(escapes, segments, keys) && ReadTo(keys, lo, after) && i < |keys|
    ensures IsAfter(escapes, segments, keys[i], after) <==> lo <= i
  {
    if i < lo {
      OrderAt(escapes, segments, keys, i, lo - 1);
      NotBefore(Location(escapes, segments, keys[i]), Location(escapes, segments, keys[lo - 1]));
    }
  }

  /** Asked for what follows a key that was read, the store answers with all matching keys after it, and no other. */
  lemma OffsetResumes(escapes: set<Byte>, segments: seq<Bytes>, q: Query, keys: seq<Key>, lo: nat, after: Option<Key>)
    requires PlainStore(escapes, segments, keys) && ReadTo(keys, lo, after)
    ensures Matching(q, StoreAnswer(escapes, segments, q, keys, after)) == Matching(q, keys[lo..])
  {
    var keep, listed := Answering(escapes, segments, q, after), Listing(escapes, segments);
    forall i | 0 <= i < |keys|
      ensures listed(keys[i]) == keys[i] && (keep(keys[i]) ==> lo <= i)
      ensures lo <= i && StartsWith(keys[i], q.prefix) ==> keep(keys[i])
    {
      AnsweredMatch(escapes, segments, q, keys[i], after);
      AfterExactly(escapes, segments, keys, lo, after, i);
    }
    PickedFrom(q, keep, listed, keys, lo);
  }

  /** `pageOf` is the first of `pagesOf`, and the others are those of the keys after its cursor. */
  ghost predicate StepsOn(pageOf: seq<Key> -> Page, pagesOf: seq<Key> -> seq<Page>, keys: seq<Key>) {
    var page := pageOf(keys);
    if page.cursor.None? then pagesOf(keys) == [page]
    else exists m ::
      0 < m <= |keys| && page.cursor.value == keys[m - 1] && pagesOf(keys) == [page] + pagesOf(keys[m..])
  }

  function FirstPage(q: Query, limit: nat): seq<Key> -> Page {
    keys => PageOf(q, keys, limit)
  }

  function AllPages(q: Query, limit: nat): seq<Key> -> seq<Page> {
    keys => Pages(q, keys, limit)
  }

  lemma PagesUnfold(q: Query, keys: seq<Key>, limit: nat)
    requires keys != [] && PageOf(q, keys, limit).cursor.Some?
    ensures var page := PageOf(q, keys, limit);
      Pages(q, keys, limit) == [page] + Pages(q, StoreAfter(keys, page.cursor.value), limit)
  {
  }

  lemma CursorMeansMore(q: Query, keys: seq<Key>, limit: nat)
    requires PageOf(q, keys, limit).cursor.Some?
    ensures keys != [] && |Entries(q, keys, {})| > limit
  {
  }

  /** Where a truncated page ends, and the pages after it. */
  lemma NextCursor(q: Query, keys: seq<Key>, limit: nat) returns (m: nat)
    requires Distinct(keys) && limit > 0 && PageOf(q, keys, limit).cursor.Some?
    ensures 0 < m <= |keys| && PageOf(q, keys, limit).cursor == Some(keys[m - 1])
    ensures Pages(q, keys, limit) == [PageOf(q, keys, limit)] + Pages(q, keys[m..], limit)
  {
    CursorMeansMore(q, keys, limit);
    PagesUnfold(q, keys, limit);
    m := CursorIsLastMatch(q, keys, limit);
    StoreAfterAt(keys, m - 1);
  }

  lemma ConsPages(page: Page, rest: seq<Page>, pages: seq<Page>)
    ensures pages == [page] + rest <==> pages != [] && pages[0] == page && pages[1..] == rest
  {
    if pages != [] { assert pages == [pages[0]] + pages[1..]; }
  }

  lemma LastOfPages(q: Query, keys: seq<Key>, limit: nat)
    requires PageOf(q, keys, limit).cursor.None?
    ensures Pages(q, keys, limit) == [PageOf(q, keys, limit)]
  {
  }

  lemma PagesStepOn(q: Query, limit: nat, keys: seq<Key>)
    requires Distinct(keys) && limit > 0
    ensures StepsOn(FirstPage(q, limit), AllPages(q, limit), keys)
  {
    if PageOf(q, keys, limit).cursor.None? {
      LastOfPages(q, keys, limit);
    } else {
      var m := NextCursor(q, keys, limit);
    }
  }

  /** The page for a key that was read is the page of what follows it, at every key. */
  ghost predicate Resumes(pager: Option<Key> -> Page, pageOf: seq<Key> -> Page, keys: seq<Key>) {
    forall lo: nat, after :: ReadTo(keys, lo, after) ==> pager(after) == pageOf(keys[lo..])
  }

  ghost predicate StepsEverywhere(pageOf: seq<Key> -> Page, pagesOf: seq<Key> -> seq<Page>, keys: seq<Key>) {
    forall lo :: 0 <= lo <= |keys| ==> StepsOn(pageOf, pagesOf, keys[lo..])
  }

  lemma FollowsCons(pager: Option<Key> -> Page, after: Option<Key>, rest: seq<Page>, pages: seq<Page>)
    requires pager(after).cursor.Some?
    requires pages != [] ==> (Follows(pager, pager(after).cursor, pages[1..]) <==> pages[1..] == rest)
    ensures Follows(pager, after, pages) <==> pages == [pager(after)] + rest
  {
    ConsPages(pager(after), rest, pages);
  }

  lemma StepTo(pageOf: seq<Key> -> Page, pagesOf: seq<Key> -> seq<Page>, keys: seq<Key>, lo: nat) returns (hi: nat)
    requires lo <= |keys| && StepsOn(pageOf, pagesOf, keys[lo..]) && pageOf(keys[lo..]).cursor.Some?
    ensures ReadTo(keys, hi, pageOf(keys[lo..]).cursor)
    ensures pagesOf(keys[lo..]) == [pageOf(keys[lo..])] + pagesOf(keys[hi..])
  {
    var rest := keys[lo..];
    var page := pageOf(rest);
    var m :| 0 < m <= |rest| && page.cursor.value == rest[m - 1] && pagesOf(rest) == [page] + pagesOf(rest[m..]);
    hi := lo + m;
    assert rest[m..] == keys[hi..];
  }

  lemma {:induction false} FollowsFrom(pager: Option<Key> -> Page, pageOf: seq<Key> -> Page,
                                       pagesOf: seq<Key> -> seq<Page>, keys: seq<Key>, lo: nat,
                                       after: Option<Key>, pages: seq<Page>)
    requires Resumes(pager, pageOf, keys) && StepsEverywhere(pageOf, pagesOf, keys) && ReadTo(keys, lo, after)
    ensures Follows(pager, after, pages) <==> pages == pagesOf(keys[lo..])
    decreases |pages|
  {
    var cursor := pager(after).cursor;
    if cursor.Some? {
      var hi := StepTo(pageOf, pagesOf, keys, lo);
      if pages != [] { FollowsFrom(pager, pageOf, pagesOf, keys, hi, cursor, pages[1..]); }
      FollowsCons(pager, after, pagesOf(keys[hi..]), pages);
    }
  }

  lemma PagerResumes(escapes: set<Byte>, segments: seq<Bytes>, q: Query, keys: seq<Key>, limit: nat)
    requires PlainStore(escapes, segments, keys)
    ensures Resumes(Pager(escapes, segments, q, keys, limit), FirstPage(q, limit), keys)
  {
    forall lo: nat, after | ReadTo(keys, lo, after)
      ensures Pager(escapes, segments, q, keys, limit)(after) == FirstPage(q, limit)(keys[lo..])
    {
      OffsetResumes(escapes, segments, q, keys, lo, after);
      PageOfMatching(q, keys[lo..], limit);
      PageOfMatching(q, StoreAnswer(escapes, segments, q, keys, after), limit);
    }
  }

  /** Following cursors over the store gives the pages of the keys as they were written, and comes to an end. */
  lemma FollowingIsPaging(escapes: set<Byte>, segments: seq<Bytes>, q: Query, keys: seq<Key>, limit: nat,
                          pages: seq<Page>)
    requires PlainStore(escapes, segments, keys) && limit > 0
    ensures StorePages(escapes, segments, q, keys, limit, pages) <==> pages == Pages(q, keys, limit)
  {
    PagerResumes(escapes, segments, q, keys, limit);
    LocationsAreDistinctKeys(escapes, segments, keys);
    forall lo | 0 <= lo <= |keys| ensures StepsOn(FirstPage(q, limit), AllPages(q, limit), keys[lo..]) {
      PagesStepOn(q, limit, keys[lo..]);
    }
    FollowsFrom(Pager(escapes, segments, q, keys, limit), FirstPage(q, limit), AllPages(q, limit),
                keys, 0, None, pages);
    assert keys[0..] == keys;
  }

  /** Over a store, following cursors lists every object that no group stands for, once and in the store's order. */
  lemma StoreListsEveryObject(escapes: set<Byte>, segments: seq<Bytes>, q: Query, keys: seq<Key>, limit: nat,
                              pages: seq<Page>)
    requires PlainStore(escapes, segments, keys) && limit > 0
    requires StorePages(escapes, segments, q, keys, limit, pages)
    ensures AllObjects(pages) == Ungrouped(q, keys)
  {
    FollowingIsPaging(escapes, segments, q, keys, limit, pages);
    LocationsAreDistinctKeys(escapes, segments, keys);
    PagesListEveryObject(q, keys, limit);
  }

  /** Over a store, following cursors lists each group once, for every delimiter without a dot tail. */
  lemma StoreListsGroupsOnce(escapes: set<Byte>, segments: seq<Bytes>, q: Query, keys: seq<Key>, limit: nat,
                             pages: seq<Page>)
    requires PlainStore(escapes, segments, keys) && limit > 0 && !DotTail(q.delimiter)
    requires StorePages(escapes, segments, q, keys, limit, pages)
    ensures AllPrefixes(pages) == Groups(Entries(q, keys, {})) && NoRepeats(AllPrefixes(pages))
  {
    FollowingIsPaging(escapes, segments, q, keys, limit, pages);
    LocationsAreDistinctKeys(escapes, segments, keys);
    LocationOrderIsAdjacent(escapes, segments, q, keys);
    PagesListEveryGroup(q, keys, limit);
    EachGroupOnce(q, keys, {});
  }

  /** Every store below the prefix lists each group once, for every page size. */
  ghost predicate GroupsOnce(escapes: set<Byte>, segments: seq<Bytes>, q: Query) {
    forall keys, limit, pages ::
      && limit > 0 && InLocationOrder(escapes, segments, keys)
      && StorePages(escapes, segments, q, keys, limit, pages)
      ==> AllPrefixes(pages) == Groups(Entries(q, keys, {}))
  }

  lemma GroupsOnceInEveryStore(escapes: set<Byte>, segments: seq<Bytes>, q: Query)
    requires IsEncoder(escapes) && LegalPrefix(segments) && NoDots(segments)
    ensures GroupsOnce(escapes, segments, q) <==> !DotTail(q.delimiter)
  {
    if DotTail(q.delimiter) {
      var keys := DotTailSplits(escapes, segments, q);
      LocationsAreDistinctKeys(escapes, segments, keys);
      GroupsOnceExactly(q, keys);
      FollowingIsPaging(escapes, segments, q, keys, 1, Pages(q, keys, 1));
    } else {
      forall keys, limit, pages | limit > 0 && InLocationOrder(escapes, segments, keys)
        && StorePages(escapes, segments, q, keys, limit, pages)
        ensures AllPrefixes(pages) == Groups(Entries(q, keys, {}))
      {
        StoreListsGroupsOnce(escapes, segments, q, keys, limit, pages);
      }
    }
  }

  /** A store that holds `a/.`, `a/-` and `a/.b` lists the group `a/.` on the first and on the third page. */
  lemma DotGroupRepeats(escapes: set<Byte>, keys: seq<Key>, pages: seq<Page>)
    requires IsEncoder(escapes) && keys == ["a/.", "a/-", "a/.b"]
    requires StorePages(escapes, [], Query("", "."), keys, 1, pages)
    ensures InLocationOrder(escapes, [], keys) && AllPrefixes(pages) == ["a/.", "a/."]
  {
    DotGroupPages(escapes);
    FollowingIsPaging(escapes, [], Query("", "."), keys, 1, pages);
  }

  // ---------------------------------------------------------------------
  // Following cursors below a prefix with a dot segment
  // ---------------------------------------------------------------------

  /** A cursor resumes at the location it was read from exactly when the prefix has no dot segment. */
  lemma ResumesExactly(escapes: set<Byte>, segments: seq<Bytes>, key: Key)
    requires IsEncoder(escapes) && LegalPrefix(segments) && key != ""
    ensures Location(escapes, segments, ListedAs(escapes, segments, key)) == Location(escapes, segments, key) <==>
      NoDots(segments)
  {
    ListedAsWritten(escapes, segments, key);
    if !NoDots(segments) {
      DotPrefixLeaks(escapes, segments, key);
      LocationsAreDistinct(escapes, segments, PrefixText(segments) + key, key);
    }
  }

  lemma TwoPicked(keep: Key -> bool, listed: Key -> Key, a: Key, b: Key)
    requires keep(a) && keep(b)
    ensures Picked(keep, listed, [a, b]) == [listed(a), listed(b)]
  {
    assert [a, b][1..] == [b];
    assert Picked(keep, listed, [b]) == [listed(b)];
  }

  lemma OnePage(a: Key, b: Key)
    requires a != b
    ensures PageOf(Query("", ""), [a, b], 1).cursor == Some(a)
  {
    var q, keys := Query("", ""), [a, b];
    assert EntryOf(q, a) == Some(Blob(a)) && EntryOf(q, b) == Some(Blob(b));
    EntriesCons(q, a, [b], {});
    EntriesCons(q, b, [], {});
    assert [a] + [b] == keys && [b] + [] == [b];
    var m := CursorIsLastMatch(q, keys, 1);
  }

  /** A page whose cursor asks for it again is read without end. */
  lemma {:induction false} NeverEnds(pager: Option<Key> -> Page, a: Key, after: Option<Key>, pages: seq<Page>)
    requires pager(None).cursor == Some(a) && pager(Some(a)).cursor == Some(a) && (after == None || after == Some(a))
    ensures !Follows(pager, after, pages)
    decreases |pages|
  {
    if pages != [] { NeverEnds(pager, a, Some(a), pages[1..]); }
  }

  // ---------------------------------------------------------------------
  // A store below any dot prefix that pages forever
  // ---------------------------------------------------------------------

  lemma StoredStep(escapes: set<Byte>, head: Bytes, rest: Bytes)
    requires NoSlash(head) && head != ""
    ensures Stored(escapes, head + [SLASH] + rest) == EncodePart(escapes, head) + [SLASH] + Stored(escapes, rest)
  {
    StoredUnder(escapes, head, rest);
    SplitOne(head);
    var part := EncodePart(escapes, head);
    assert StoredSegments(escapes, [head]) == [part];
    assert PrefixText([part]) == part + [SLASH];
  }

  /** The stored form of a key below the written prefix. */
  lemma {:induction false} StoredBelow(escapes: set<Byte>, segments: seq<Bytes>, key: Key)
    requires LegalPrefix(segments)
    ensures Stored(escapes, PrefixText(segments) + key) ==
      PrefixText(EncodeParts(escapes, segments)) + Stored(escapes, key)
  {
    if segments == [] {
      assert PrefixText(segments) + key == key;
    } else {
      var head, below := segments[0], PrefixText(segments[1..]);
      StoredBelow(escapes, segments[1..], key);
      StoredStep(escapes, head, below + key);
      Regroup(head + [SLASH], below, key);
      Regroup(EncodePart(escapes, head) + [SLASH], PrefixText(EncodeParts(escapes, segments[1..])),
              Stored(escapes, key));
      EncodedStep(escapes, segments);
    }
  }

  lemma EncodedStep(escapes: set<Byte>, segments: seq<Bytes>)
    requires segments != []
    ensures PrefixText(EncodeParts(escapes, segments)) ==
      EncodePart(escapes, segments[0]) + [SLASH] + PrefixText(EncodeParts(escapes, segments[1..]))
  {
    assert EncodeParts(escapes, segments)[1..] == EncodeParts(escapes, segments[1..]);
  }

  /** Where the cursor of `key` resumes. */
  lemma ResumePoint(escapes: set<Byte>, segments: seq<Bytes>, key: Key)
    requires IsEncoder(escapes) && LegalPrefix(segments) && !NoDots(segments) && key != ""
    ensures var encoded := PrefixText(EncodeParts(escapes, segments));
      && ListedAs(escapes, segments, key) == PrefixText(segments) + key
      && Location(escapes, segments, key) == encoded + Stored(escapes, key)
      && Location(escapes, segments, PrefixText(segments) + key) == encoded + (encoded + Stored(escapes, key))
  {
    DotPrefixLeaks(escapes, segments, key);
    LocationWithPrefix(escapes, segments, key);
    LocationWithPrefix(escapes, segments, PrefixText(segments) + key);
    StoredBelow(escapes, segments, key);
  }

  /** The encoded prefix sorts before what is stored for the key, so the cursor resumes before the key. */
  predicate ResumesEarlier(escapes: set<Byte>, segments: seq<Bytes>, key: Key) {
    Less(PrefixText(EncodeParts(escapes, segments)) + Stored(escapes, key), Stored(escapes, key))
  }

  lemma ResumesBefore(escapes: set<Byte>, segments: seq<Bytes>, key: Key)
    requires IsEncoder(escapes) && LegalPrefix(segments) && !NoDots(segments) && key != ""
    requires ResumesEarlier(escapes, segments, key)
    ensures LocatedBefore(escapes, segments, ListedAs(escapes, segments, key), key)
  {
    ResumePoint(escapes, segments, key);
    LessShared(PrefixText(EncodeParts(escapes, segments)),
               PrefixText(EncodeParts(escapes, segments)) + Stored(escapes, key), Stored(escapes, key));
  }

  lemma StuckPage(escapes: set<Byte>, segments: seq<Bytes>, a: Key, b: Key, after: Option<Key>)
    requires IsEncoder(escapes) && LegalPrefix(segments) && !NoDots(segments) && a != "" && b != ""
    requires LocatedBefore(escapes, segments, a, b) && ResumesEarlier(escapes, segments, a)
    requires after == None || after == Some(ListedAs(escapes, segments, a))
    ensures Pager(escapes, segments, Query("", ""), [a, b], 1)(after).cursor == Some(ListedAs(escapes, segments, a))
  {
    var q, listed := Query("", ""), Listing(escapes, segments);
    UnderScope(escapes, segments, a);
    UnderScope(escapes, segments, b);
    ResumesBefore(escapes, segments, a);
    if after.Some? {
      LessTransitive(Location(escapes, segments, after.value), Location(escapes, segments, a),
                     Location(escapes, segments, b));
    }
    TwoPicked(Answering(escapes, segments, q, after), listed, a, b);
    LessIrreflexive(Location(escapes, segments, a));
    DotPrefixLeaks(escapes, segments, a);
    DotPrefixLeaks(escapes, segments, b);
    StripShared(PrefixText(segments), a, b);
    OnePage(listed(a), listed(b));
  }

  /** Some pages lead from the first to one without a cursor. */
  ghost predicate PagingEnds(escapes: set<Byte>, segments: seq<Bytes>, q: Query, keys: seq<Key>, limit: nat) {
    exists pages :: StorePages(escapes, segments, q, keys, limit, pages)
  }

  lemma StuckStore(escapes: set<Byte>, segments: seq<Bytes>, a: Key, b: Key)
    requires IsEncoder(escapes) && LegalPrefix(segments) && !NoDots(segments) && a != "" && b != ""
    requires LocatedBefore(escapes, segments, a, b) && ResumesEarlier(escapes, segments, a)
    ensures !PagingEnds(escapes, segments, Query("", ""), [a, b], 1)
  {
    var cursor := ListedAs(escapes, segments, a);
    StuckPage(escapes, segments, a, b, None);
    StuckPage(escapes, segments, a, b, Some(cursor));
    forall pages ensures !StorePages(escapes, segments, Query("", ""), [a, b], 1, pages) {
      NeverEnds(Pager(escapes, segments, Query("", ""), [a, b], 1), cursor, None, pages);
    }
  }

  lemma StoredPlain(escapes: set<Byte>, s: Bytes)
    requires IsEncoder(escapes) && s != "" && !IsDot(s) && forall j :: 0 <= j < |s| ==> PrefixByte(s[j])
    ensures Stored(escapes, s) == s
  {
    SplitOne(s);
    PlainPart(escapes, s);
  }

  /** Plain text sorts before the same text with more after it. */
  lemma LongerIsLater(escapes: set<Byte>, segments: seq<Bytes>, key: Key)
    requires IsEncoder(escapes) && LegalPrefix(segments)
    requires key != "" && !IsDot(key) && forall j :: 0 <= j < |key| ==> PrefixByte(key[j])
    ensures LocatedBefore(escapes, segments, key, key + "0")
  {
    StoredPlain(escapes, key);
    assert (key + "0")[|key|] == '0';
    StoredPlain(escapes, key + "0");
    LocationsCompare(escapes, segments, key, key + "0");
    LessShared(key, "", "0");
    assert key + "" == key;
  }

  lemma EarlyBelowDot(escapes: set<Byte>, segments: seq<Bytes>, key: Key)
    requires IsEncoder(escapes) && segments != [] && IsDot(segments[0])
    requires Stored(escapes, key) != "" && Stored(escapes, key)[0] > PERCENT
    ensures ResumesEarlier(escapes, segments, key)
  {
    EncodedStep(escapes, segments);
  }

  lemma SlashIsEarlier(head: Bytes, below: Bytes)
    ensures Less(head + [SLASH] + below + (head + "0"), head + "0")
  {
    assert head + [SLASH] + below + (head + "0") == head + ([SLASH] + below + (head + "0"));
    LessShared(head, [SLASH] + below + (head + "0"), "0");
  }

  lemma EarlyBelowName(escapes: set<Byte>, segments: seq<Bytes>, key: Key)
    requires IsEncoder(escapes) && segments != [] && LegalPrefix(segments) && !IsDot(segments[0])
    requires key == segments[0] + "0" && Stored(escapes, key) == key
    ensures ResumesEarlier(escapes, segments, key)
  {
    EncodedStep(escapes, segments);
    PlainPart(escapes, segments[0]);
    SlashIsEarlier(segments[0], PrefixText(EncodeParts(escapes, segments[1..])));
  }

  /** Below every prefix with a dot segment, some key's cursor resumes before the key. */
  lemma EarlyKey(escapes: set<Byte>, segments: seq<Bytes>) returns (key: Key)
    requires IsEncoder(escapes) && LegalPrefix(segments) && !NoDots(segments)
    ensures key != "" && ResumesEarlier(escapes, segments, key)
    ensures LocatedBefore(escapes, segments, key, key + "0")
  {
    if IsDot(segments[0]) {
      key := "0";
      StoredPlain(escapes, key);
      EarlyBelowDot(escapes, segments, key);
    } else {
      key := segments[0] + "0";
      assert key[|segments[0]|] == '0';
      StoredPlain(escapes, key);
      EarlyBelowName(escapes, segments, key);
    }
    LongerIsLater(escapes, segments, key);
  }

  lemma TwoInOrder(escapes: set<Byte>, segments: seq<Bytes>, a: Key, b: Key)
    requires a != "" && b != "" && LocatedBefore(escapes, segments, a, b)
    ensures InLocationOrder(escapes, segments, [a, b])
  {
    var keys := [a, b];
    forall i, j | 0 <= i < j < |keys| ensures LocatedBefore(escapes, segments, keys[i], keys[j]) {
      assert i == 0 && j == 1;
    }
  }

  /** Paging over every store below the prefix comes to an end exactly when the prefix has no dot segment. */
  lemma PagingEndsExactly(escapes: set<Byte>, segments: seq<Bytes>)
    requires IsEncoder(escapes) && LegalPrefix(segments)
    ensures NoDots(segments) <==>
      forall q, keys, limit :: limit > 0 && InLocationOrder(escapes, segments, keys) ==>
        PagingEnds(escapes, segments, q, keys, limit)
  {
    if NoDots(segments) {
      forall q, keys, limit | limit > 0 && InLocationOrder(escapes, segments, keys)
        ensures PagingEnds(escapes, segments, q, keys, limit)
      {
        FollowingIsPaging(escapes, segments, q, keys, limit, Pages(q, keys, limit));
      }
    } else {
      var key := EarlyKey(escapes, segments);
      StuckStore(escapes, segments, key, key + "0");
      TwoInOrder(escapes, segments, key, key + "0");
    }
  }

  lemma DotLocations(escapes: set<Byte>, segments: seq<Bytes>, key: Key)
    requires IsEncoder(escapes) && segments == ["."] && key != "" && Stored(escapes, key) == key
    ensures Location(escapes, segments, key) == "%2E/" + key
    ensures ListedAs(escapes, segments, key) == "./" + key
    ensures Location(escapes, segments, ListedAs(escapes, segments, key)) == "%2E/" + ("%2E/" + key)
  {
    assert IsDot(segments[0]);
    ResumePoint(escapes, segments, key);
    EncodedStep(escapes, segments);
    assert PrefixText(EncodeParts(escapes, [])) == "" && PrefixText([]) == "";
    assert PrefixText(segments) == "./";
    assert PrefixText(EncodeParts(escapes, segments)) == "%2E/";
  }

  lemma PlainLetters(escapes: set<Byte>)
    requires IsEncoder(escapes)
    ensures Stored(escapes, "a") == "a" && Stored(escapes, "b") == "b"
  {
    StoredPlain(escapes, "a");
    StoredPlain(escapes, "b");
  }

  lemma DotText()
    ensures "%2E/" + "a" == "%2E/a" && "%2E/" + ("%2E/" + "a") == "%2E/%2E/a" && Less("a", "b")
  {
  }

  lemma DotStuck(escapes: set<Byte>, segments: seq<Bytes>, a: Key, b: Key)
    requires IsEncoder(escapes) && LegalPrefix(segments) && segments != [] && IsDot(segments[0])
    requires a != "" && b != "" && Stored(escapes, a) == a && Stored(escapes, b) == b && a[0] > PERCENT && Less(a, b)
    ensures InLocationOrder(escapes, segments, [a, b])
    ensures !PagingEnds(escapes, segments, Query("", ""), [a, b], 1)
  {
    LocationsCompare(escapes, segments, a, b);
    TwoInOrder(escapes, segments, a, b);
    EarlyBelowDot(escapes, segments, a);
    StuckStore(escapes, segments, a, b);
  }

  /**
   * Below the prefix `./`, a store that holds `a` and `b` never gets past `a`: its cursor `./a` resumes at
   * `%2E/%2E/a`, which the store lists before `%2E/a`.
   */
  lemma DotPrefixNeverEnds(escapes: set<Byte>, segments: seq<Bytes>)
    requires IsEncoder(escapes) && segments == ["."]
    ensures InLocationOrder(escapes, segments, ["a", "b"])
    ensures Location(escapes, segments, "a") == "%2E/a"
    ensures Location(escapes, segments, ListedAs(escapes, segments, "a")) == "%2E/%2E/a"
    ensures !PagingEnds(escapes, segments, Query("", ""), ["a", "b"], 1)
  {
    DotText();
    PlainLetters(escapes);
    DotLocations(escapes, segments, "a");
    DotStuck(escapes, segments, "a", "b");
  }

  lemma {:induction false} NoneMatch(q: Query, keep: Key -> bool, listed: Key -> Key, keys: seq<Key>)
    requires forall i :: 0 <= i < |keys| ==> !StartsWith(listed(keys[i]), q.prefix)
    ensures Matching(q, Picked(keep, listed, keys)) == []
  {
    if keys != [] {
      NoneMatch(q, keep, listed, keys[1..]);
      var rest := Picked(keep, listed, keys[1..]);
      assert ([listed(keys[0])] + rest)[1..] == rest;
    }
  }

  lemma PrefixesMeet(text: Bytes, key: Key, prefix: Bytes)
    ensures StartsWith(text + key, prefix) ==> prefix <= text || text <= prefix
  {
    if StartsWith(text + key, prefix) {
      if |prefix| <= |text| {
        assert (text + key)[..|prefix|] == text[..|prefix|];
      } else {
        assert (text + key)[..|prefix|][..|text|] == text;
      }
    }
  }

  /** Below a prefix with a dot segment, a query prefix that it neither starts nor continues finds nothing. */
  lemma DotPrefixHidesMatches(escapes: set<Byte>, segments: seq<Bytes>, q: Query, keys: seq<Key>, limit: nat)
    requires IsEncoder(escapes) && LegalPrefix(segments) && !NoDots(segments)
    requires InLocationOrder(escapes, segments, keys)
    requires !(q.prefix <= PrefixText(segments)) && !(PrefixText(segments) <= q.prefix)
    ensures Pager(escapes, segments, q, keys, limit)(None) == Page([], [], false, None)
  {
    var keep, listed := Answering(escapes, segments, q, None), Listing(escapes, segments);
    forall i | 0 <= i < |keys| ensures !StartsWith(listed(keys[i]), q.prefix) {
      DotPrefixLeaks(escapes, segments, keys[i]);
      PrefixesMeet(PrefixText(segments), keys[i], q.prefix);
    }
    NoneMatch(q, keep, listed, keys);
    PageOfMatching(q, StoreAnswer(escapes, segments, q, keys, None), limit);
  }
}
