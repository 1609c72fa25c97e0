/** Following cursors over `BlobListing` pages yields the plain full listing. */
module BlobListingProofs {
  import opened Prelude
  import opened BlobListing
  import opened ByteOrder

  predicate Distinct(keys: seq<Key>) {
    forall i, j :: 0 <= i < j < |keys| ==> keys[i] != keys[j]
  }

  /** What the store lists strictly after `cursor`. */
  function StoreAfter(keys: seq<Key>, cursor: Key): (rest: seq<Key>)
    ensures keys != [] ==> |rest| < |keys|
  {
    if keys == [] then []
    else if keys[0] == cursor then keys[1..]
    else StoreAfter(keys[1..], cursor)
  }

  /** Every page that a caller reads by following cursors to the end. */
  function Pages(q: Query, keys: seq<Key>, limit: nat): seq<Page>
    decreases |keys|
  {
    var page := PageOf(q, keys, limit);
    if page.cursor.Some? && keys != [] then [page] + Pages(q, StoreAfter(keys, page.cursor.value), limit)
    else [page]
  }

  function AllObjects(pages: seq<Page>): seq<Key> {
    if pages == [] then [] else pages[0].objects + AllObjects(pages[1..])
  }

  function AllPrefixes(pages: seq<Page>): seq<string> {
    if pages == [] then [] else pages[0].prefixes + AllPrefixes(pages[1..])
  }

  // ---------------------------------------------------------------------
  // Where a page stops
  // ---------------------------------------------------------------------

  function SeenAll(q: Query, keys: seq<Key>, seen: set<string>): set<string> {
    if keys == [] then seen else SeenAll(q, keys[1..], Seen(q, keys[0], seen))
  }

  /** A full page stops at the first key whose entry it has no room for. */
  lemma {:induction false} PageCut(q: Query, keys: seq<Key>, seen: set<string>, room: nat)
    requires |Entries(q, keys, seen)| > room
    ensures var n := Consumed(q, keys, seen, room);
      var after := SeenAll(q, keys[..n], seen);
      && n < |keys| && AddsEntry(q, keys[n], after)
      && Entries(q, keys, seen)[room..] == Entries(q, keys[n..], after)
    decreases |keys|
  {
    var n := Consumed(q, keys, seen, room);
    if n == 0 {
      assert keys[..0] == [] && keys[0..] == keys;
      assert Entries(q, keys, seen)[0..] == Entries(q, keys, seen);
    } else {
      var adds, next := AddsEntry(q, keys[0], seen), Seen(q, keys[0], seen);
      var room' := if adds then room - 1 else room;
      var all, rest := Entries(q, keys, seen), Entries(q, keys[1..], next);
      assert all == (if adds then [EntryOf(q, keys[0]).value] else []) + rest;
      assert all[room..] == rest[room'..];
      PageCut(q, keys[1..], next, room');
      assert keys[1..][..n - 1] == keys[..n][1..] && keys[1..][n - 1..] == keys[n..];
    }
  }

  /** Position just after the last matching key. */
  function MatchEnd(q: Query, keys: seq<Key>): (m: nat)
    ensures m <= |keys|
    ensures m == 0 <==> LastMatch(q, keys).None?
    ensures m > 0 ==> LastMatch(q, keys) == Some(keys[m - 1])
    ensures forall i :: m <= i < |keys| ==> !StartsWith(keys[i], q.prefix)
  {
    if keys == [] then 0
    else if StartsWith(keys[|keys| - 1], q.prefix) then |keys|
    else MatchEnd(q, keys[..|keys| - 1])
  }

  lemma {:induction false} StoreAfterAt(keys: seq<Key>, i: nat)
    requires Distinct(keys) && i < |keys|
    ensures StoreAfter(keys, keys[i]) == keys[i + 1..]
  {
    if i > 0 {
      StoreAfterAt(keys[1..], i - 1);
      assert keys[1..][i..] == keys[i + 1..];
    }
  }

  /** Keys that do not match the prefix change nothing. */
  lemma {:induction false} SkipUnmatched(q: Query, keys: seq<Key>, lo: nat, hi: nat, seen: set<string>)
    requires lo <= hi <= |keys|
    requires forall i :: lo <= i < hi ==> !StartsWith(keys[i], q.prefix)
    ensures Entries(q, keys[lo..], seen) == Entries(q, keys[hi..], seen)
    decreases hi - lo
  {
    if lo < hi {
      assert keys[lo..][1..] == keys[lo + 1..];
      SkipUnmatched(q, keys, lo + 1, hi, seen);
    }
  }

  lemma {:induction false} SomeMatchConsumed(q: Query, keys: seq<Key>, seen: set<string>, room: nat)
    requires room > 0 && |Entries(q, keys, seen)| > room
    ensures LastMatch(q, keys[..Consumed(q, keys, seen, room)]).Some?
  {
    var n := Consumed(q, keys, seen, room);
    if !StartsWith(keys[0], q.prefix) {
      SomeMatchConsumed(q, keys[1..], seen, room);
      assert keys[..n][1..] == keys[1..][..n - 1];
      LastMatchTail(q, keys[..n]);
    } else {
      LastMatchHead(q, keys[..n]);
    }
  }

  lemma {:induction false} LastMatchTail(q: Query, keys: seq<Key>)
    requires keys != [] && LastMatch(q, keys[1..]).Some?
    ensures LastMatch(q, keys).Some?
    decreases |keys|
  {
    var last := |keys| - 1;
    if !StartsWith(keys[last], q.prefix) {
      assert keys[1..][..|keys[1..]| - 1] == keys[..last][1..];
      LastMatchTail(q, keys[..last]);
    }
  }

  lemma {:induction false} LastMatchHead(q: Query, keys: seq<Key>)
    requires keys != [] && StartsWith(keys[0], q.prefix)
    ensures LastMatch(q, keys).Some?
    decreases |keys|
  {
    var last := |keys| - 1;
    if !StartsWith(keys[last], q.prefix) {
      LastMatchHead(q, keys[..last]);
    }
  }

  /** The cursor of a truncated page is its last matching key; up to the entry left out, no other key matches. */
  lemma CursorIsLastMatch(q: Query, keys: seq<Key>, limit: nat) returns (m: nat)
    requires limit > 0 && |Entries(q, keys, {})| > limit
    ensures var n := Consumed(q, keys, {}, limit);
      && 0 < m <= n && PageOf(q, keys, limit).cursor == Some(keys[m - 1])
      && forall i :: m <= i < n ==> !StartsWith(keys[i], q.prefix)
  {
    var n := Consumed(q, keys, {}, limit);
    SomeMatchConsumed(q, keys, {}, limit);
    m := MatchEnd(q, keys[..n]);
    assert keys[..n][m - 1] == keys[m - 1];
    forall i | m <= i < n ensures !StartsWith(keys[i], q.prefix) {
      assert keys[..n][i] == keys[i];
    }
  }

  /** A truncated page resumes exactly at the entry it had no room for. */
  lemma CursorResumes(q: Query, keys: seq<Key>, limit: nat)
    requires Distinct(keys) && limit > 0 && |Entries(q, keys, {})| > limit
    ensures var page := PageOf(q, keys, limit);
      var n := Consumed(q, keys, {}, limit);
      && page.cursor.Some?
      && Distinct(StoreAfter(keys, page.cursor.value))
      && (exists m :: 0 <= m <= n && StoreAfter(keys, page.cursor.value) == keys[m..])
      && forall seen :: Entries(q, StoreAfter(keys, page.cursor.value), seen) == Entries(q, keys[n..], seen)
  {
    var m := CursorIsLastMatch(q, keys, limit);
    StoreAfterAt(keys, m - 1);
    forall seen ensures Entries(q, keys[m..], seen) == Entries(q, keys[Consumed(q, keys, {}, limit)..], seen) {
      SkipUnmatched(q, keys, m, Consumed(q, keys, {}, limit), seen);
    }
  }

  // ---------------------------------------------------------------------
  // Objects: each matching key that is not rolled up, once, in order
  // ---------------------------------------------------------------------

  lemma {:induction false} BlobsAppend(a: seq<Entry>, b: seq<Entry>)
    ensures Blobs(a + b) == Blobs(a) + Blobs(b)
    ensures Groups(a + b) == Groups(a) + Groups(b)
    decreases |b|
  {
    if b == [] {
      assert a + b == a;
    } else {
      var last := |b| - 1;
      assert (a + b)[..|a + b| - 1] == a + b[..last];
      BlobsAppend(a, b[..last]);
    }
  }

  /** The matching keys that no group stands for, in store order. */
  function Ungrouped(q: Query, keys: seq<Key>): seq<Key> {
    if keys == [] then []
    else (if EntryOf(q, keys[0]) == Some(Blob(keys[0])) then [keys[0]] else []) + Ungrouped(q, keys[1..])
  }

  /** Whatever groups are already listed, the listing's objects are the ungrouped keys. */
  lemma {:induction false} ObjectsAreUngrouped(q: Query, keys: seq<Key>, seen: set<string>)
    ensures Blobs(Entries(q, keys, seen)) == Ungrouped(q, keys)
    decreases |keys|
  {
    if keys != [] {
      var head := if AddsEntry(q, keys[0], seen) then [EntryOf(q, keys[0]).value] else [];
      BlobsAppend(head, Entries(q, keys[1..], Seen(q, keys[0], seen)));
      ObjectsAreUngrouped(q, keys[1..], Seen(q, keys[0], seen));
      assert Blobs(head) == if EntryOf(q, keys[0]) == Some(Blob(keys[0])) then [keys[0]] else [];
    }
  }

  /** The full listing is what a truncated page holds, and then the listing of the keys it did not consume. */
  lemma PageSplits(q: Query, keys: seq<Key>, limit: nat)
    requires limit > 0 && |Entries(q, keys, {})| > limit
    ensures var page, n := PageOf(q, keys, limit), Consumed(q, keys, {}, limit);
      var rest := Entries(q, keys[n..], SeenAll(q, keys[..n], {}));
      && Blobs(Entries(q, keys, {})) == page.objects + Blobs(rest)
      && Groups(Entries(q, keys, {})) == page.prefixes + Groups(rest)
  {
    var all := Entries(q, keys, {});
    PageCut(q, keys, {}, limit);
    assert all == all[..limit] + all[limit..];
    BlobsAppend(all[..limit], all[limit..]);
  }

  lemma PageObjects(q: Query, keys: seq<Key>, limit: nat)
    requires Distinct(keys) && limit > 0 && |Entries(q, keys, {})| > limit
    ensures var page := PageOf(q, keys, limit);
      page.cursor.Some? &&
      Blobs(Entries(q, keys, {})) == page.objects + Blobs(Entries(q, StoreAfter(keys, page.cursor.value), {}))
  {
    var n := Consumed(q, keys, {}, limit);
    PageSplits(q, keys, limit);
    CursorResumes(q, keys, limit);
    ObjectsAreUngrouped(q, keys[n..], SeenAll(q, keys[..n], {}));
    ObjectsAreUngrouped(q, keys[n..], {});
  }

  /** No object is lost or repeated, whatever the order of the store. */
  lemma {:induction false} PagesListEveryObject(q: Query, keys: seq<Key>, limit: nat)
    requires Distinct(keys) && limit > 0
    ensures AllObjects(Pages(q, keys, limit)) == Ungrouped(q, keys)
    decreases |keys|
  {
    ObjectsAreUngrouped(q, keys, {});
    var page := PageOf(q, keys, limit);
    if |Entries(q, keys, {})| > limit {
      PageObjects(q, keys, limit);
      CursorResumes(q, keys, limit);
      var rest := StoreAfter(keys, page.cursor.value);
      ObjectsAreUngrouped(q, rest, {});
      PagesListEveryObject(q, rest, limit);
      assert Pages(q, keys, limit)[1..] == Pages(q, rest, limit);
    } else {
      assert Pages(q, keys, limit) == [page];
      assert AllObjects([page]) == page.objects + AllObjects([]);
    }
  }

  // ---------------------------------------------------------------------
  // Groups: each once, when a group's keys are adjacent
  // ---------------------------------------------------------------------

  predicate InGroup(q: Query, key: Key, g: string) {
    EntryOf(q, key) == Some(Group(g))
  }

  /** Between two keys of one group, every matching key is of that group. */
  ghost predicate Adjacent(q: Query, keys: seq<Key>) {
    forall i, j, k, g {:trigger InGroup(q, keys[i], g), keys[j], InGroup(q, keys[k], g)} ::
      0 <= i <= j <= k < |keys| && InGroup(q, keys[i], g) && InGroup(q, keys[k], g) ==>
        EntryOf(q, keys[j]).None? || InGroup(q, keys[j], g)
  }

  /** Groups of which no key follows need not be remembered. */
  lemma {:induction false} ForgetSeen(q: Query, keys: seq<Key>, gone: set<string>, seen: set<string>)
    requires forall i, g :: 0 <= i < |keys| && g in gone ==> !InGroup(q, keys[i], g)
    ensures Entries(q, keys, gone + seen) == Entries(q, keys, seen)
    decreases |keys|
  {
    if keys != [] {
      assert forall g :: g in gone ==> !InGroup(q, keys[0], g);
      assert Seen(q, keys[0], gone + seen) == gone + Seen(q, keys[0], seen);
      forall i, g | 0 <= i < |keys[1..]| && g in gone ensures !InGroup(q, keys[1..][i], g) {
        assert !InGroup(q, keys[i + 1], g);
      }
      ForgetSeen(q, keys[1..], gone, Seen(q, keys[0], seen));
    }
  }

  lemma {:induction false} SeenAllFrom(q: Query, keys: seq<Key>, seen: set<string>, g: string)
    requires g in SeenAll(q, keys, seen)
    ensures g in seen || exists i :: 0 <= i < |keys| && InGroup(q, keys[i], g)
    decreases |keys|
  {
    if keys != [] {
      SeenAllFrom(q, keys[1..], Seen(q, keys[0], seen), g);
      if g !in Seen(q, keys[0], seen) {
        var i :| 0 <= i < |keys[1..]| && InGroup(q, keys[1..][i], g);
        assert InGroup(q, keys[i + 1], g);
      } else if g !in seen {
        assert InGroup(q, keys[0], g);
      }
    }
  }

  /** Where a key adds a new entry, no group seen before it comes again. */
  lemma SeenIsGone(q: Query, keys: seq<Key>, n: nat, k: nat, g: string)
    requires Adjacent(q, keys) && n <= k < |keys|
    requires g in SeenAll(q, keys[..n], {}) && AddsEntry(q, keys[n], SeenAll(q, keys[..n], {}))
    ensures !InGroup(q, keys[k], g)
  {
    SeenAllFrom(q, keys[..n], {}, g);
    var i :| 0 <= i < n && InGroup(q, keys[..n][i], g);
    assert InGroup(q, keys[i], g);
  }

  /** At the cut of a full page, no group already listed comes again. */
  lemma CutSeparatesGroups(q: Query, keys: seq<Key>, limit: nat)
    requires Adjacent(q, keys) && |Entries(q, keys, {})| > limit
    ensures var n := Consumed(q, keys, {}, limit);
      Entries(q, keys[n..], SeenAll(q, keys[..n], {})) == Entries(q, keys[n..], {})
  {
    PageCut(q, keys, {}, limit);
    var n := Consumed(q, keys, {}, limit);
    var gone := SeenAll(q, keys[..n], {});
    assert gone + {} == gone;
    forall k, g | 0 <= k < |keys[n..]| && g in gone ensures !InGroup(q, keys[n..][k], g) {
      SeenIsGone(q, keys, n, n + k, g);
    }
    ForgetSeen(q, keys[n..], gone, {});
  }

  lemma AdjacentSuffix(q: Query, keys: seq<Key>, m: nat)
    requires Adjacent(q, keys) && m <= |keys|
    ensures Adjacent(q, keys[m..])
  {
    forall i, j, k, g | 0 <= i <= j <= k < |keys[m..]| && InGroup(q, keys[m..][i], g) && InGroup(q, keys[m..][k], g)
      ensures EntryOf(q, keys[m..][j]).None? || InGroup(q, keys[m..][j], g)
    {
      assert InGroup(q, keys[m + i], g) && InGroup(q, keys[m + k], g) && keys[m..][j] == keys[m + j];
    }
  }

  lemma PageGroups(q: Query, keys: seq<Key>, limit: nat)
    requires Distinct(keys) && limit > 0 && |Entries(q, keys, {})| > limit
    requires var n := Consumed(q, keys, {}, limit);
      Entries(q, keys[n..], SeenAll(q, keys[..n], {})) == Entries(q, keys[n..], {})
    ensures var page := PageOf(q, keys, limit);
      page.cursor.Some? &&
      Groups(Entries(q, keys, {})) == page.prefixes + Groups(Entries(q, StoreAfter(keys, page.cursor.value), {}))
  {
    PageSplits(q, keys, limit);
    CursorResumes(q, keys, limit);
  }

  /** When a group's keys are adjacent, the pages together list each group exactly as the full listing does. */
  lemma {:induction false} PagesListEveryGroup(q: Query, keys: seq<Key>, limit: nat)
    requires Distinct(keys) && Adjacent(q, keys) && limit > 0
    ensures AllPrefixes(Pages(q, keys, limit)) == Groups(Entries(q, keys, {}))
    decreases |keys|
  {
    var page := PageOf(q, keys, limit);
    if |Entries(q, keys, {})| > limit {
      CutSeparatesGroups(q, keys, limit);
      PageGroups(q, keys, limit);
      CursorResumes(q, keys, limit);
      var rest := StoreAfter(keys, page.cursor.value);
      var m :| 0 <= m <= Consumed(q, keys, {}, limit) && rest == keys[m..];
      AdjacentSuffix(q, keys, m);
      PagesListEveryGroup(q, rest, limit);
      assert Pages(q, keys, limit)[1..] == Pages(q, rest, limit);
    } else {
      assert Pages(q, keys, limit) == [page];
      assert AllPrefixes([page]) == page.prefixes + AllPrefixes([]);
    }
  }

  /** The full listing names exactly the groups that some key belongs to. */
  lemma {:induction false} GroupsAreExact(q: Query, keys: seq<Key>, seen: set<string>, g: string)
    ensures g in Groups(Entries(q, keys, seen)) <==> g !in seen && exists i :: 0 <= i < |keys| && InGroup(q, keys[i], g)
    decreases |keys|
  {
    if keys != [] {
      var head := if AddsEntry(q, keys[0], seen) then [EntryOf(q, keys[0]).value] else [];
      BlobsAppend(head, Entries(q, keys[1..], Seen(q, keys[0], seen)));
      GroupsAreExact(q, keys[1..], Seen(q, keys[0], seen), g);
      assert g in Groups(head) <==> g !in seen && InGroup(q, keys[0], g);
      if i :| 0 <= i < |keys| && InGroup(q, keys[i], g) {
        assert i == 0 || InGroup(q, keys[1..][i - 1], g);
      }
      if i :| 0 <= i < |keys[1..]| && InGroup(q, keys[1..][i], g) {
        assert InGroup(q, keys[i + 1], g);
      }
    }
  }

  /** The full listing names each group once. */
  lemma {:induction false} EachGroupOnce(q: Query, keys: seq<Key>, seen: set<string>)
    ensures forall i :: 0 <= i < |Groups(Entries(q, keys, seen))| ==> Groups(Entries(q, keys, seen))[i] !in seen
    ensures forall i, j :: 0 <= i < j < |Groups(Entries(q, keys, seen))| ==>
      Groups(Entries(q, keys, seen))[i] != Groups(Entries(q, keys, seen))[j]
    decreases |keys|
  {
    if keys != [] {
      var head := if AddsEntry(q, keys[0], seen) then [EntryOf(q, keys[0]).value] else [];
      BlobsAppend(head, Entries(q, keys[1..], Seen(q, keys[0], seen)));
      EachGroupOnce(q, keys[1..], Seen(q, keys[0], seen));
      assert head != [] ==> head[..0] == [];
    }
  }

  // ---------------------------------------------------------------------
  // Without adjacency a group comes again
  // ---------------------------------------------------------------------

  /** Whatever the order, the pages name exactly the groups that some key belongs to. */
  lemma {:induction false} PagesNameEveryGroup(q: Query, keys: seq<Key>, limit: nat, g: string)
    requires Distinct(keys) && limit > 0
    ensures g in AllPrefixes(Pages(q, keys, limit)) <==> exists i :: 0 <= i < |keys| && InGroup(q, keys[i], g)
    decreases |keys|
  {
    var page := PageOf(q, keys, limit);
    GroupsAreExact(q, keys, {}, g);
    if |Entries(q, keys, {})| > limit {
      var n := Consumed(q, keys, {}, limit);
      PageSplits(q, keys, limit);
      CursorResumes(q, keys, limit);
      var rest := StoreAfter(keys, page.cursor.value);
      var m :| 0 <= m <= n && rest == keys[m..];
      PagesNameEveryGroup(q, rest, limit, g);
      assert Pages(q, keys, limit)[1..] == Pages(q, rest, limit);
      GroupsAreExact(q, keys[n..], SeenAll(q, keys[..n], {}), g);
      SuffixGroup(q, keys, m, n, g);
      SuffixGroup(q, keys, 0, m, g);
      assert keys[0..] == keys;
    } else {
      assert Pages(q, keys, limit) == [page];
      assert AllPrefixes([page]) == page.prefixes + AllPrefixes([]);
    }
  }

  /** A group of a later suffix is one of an earlier suffix. */
  lemma SuffixGroup(q: Query, keys: seq<Key>, lo: nat, hi: nat, g: string)
    requires lo <= hi <= |keys|
    ensures (exists i :: 0 <= i < |keys[hi..]| && InGroup(q, keys[hi..][i], g)) ==>
      exists i :: 0 <= i < |keys[lo..]| && InGroup(q, keys[lo..][i], g)
  {
    if i :| 0 <= i < |keys[hi..]| && InGroup(q, keys[hi..][i], g) {
      assert keys[lo..][hi - lo + i] == keys[hi..][i];
      assert InGroup(q, keys[lo..][hi - lo + i], g);
    }
  }

  lemma {:induction false} ConsumedAddsNothing(q: Query, keys: seq<Key>, seen: set<string>, i: nat)
    requires i < Consumed(q, keys, seen, 0)
    ensures !AddsEntry(q, keys[i], seen)
    decreases |keys|
  {
    assert Seen(q, keys[0], seen) == seen;
    if i > 0 { ConsumedAddsNothing(q, keys[1..], seen, i - 1); }
  }

  /** A page of one entry consumes the matching keys of that entry, and no others. */
  lemma {:induction false} OneRun(q: Query, keys: seq<Key>, i: nat)
    requires i < Consumed(q, keys, {}, 1) && EntryOf(q, keys[i]).Some?
    ensures Entries(q, keys, {}) != [] && EntryOf(q, keys[i]) == Some(Entries(q, keys, {})[0])
    decreases |keys|
  {
    if !AddsEntry(q, keys[0], {}) {
      assert Seen(q, keys[0], {}) == {};
      OneRun(q, keys[1..], i - 1);
    } else if i > 0 {
      ConsumedAddsNothing(q, keys[1..], Seen(q, keys[0], {}), i - 1);
    }
  }

  lemma {:induction false} ConsumesAll(q: Query, keys: seq<Key>, seen: set<string>, room: nat)
    requires |Entries(q, keys, seen)| <= room
    ensures Consumed(q, keys, seen, room) == |keys|
    decreases |keys|
  {
    if keys != [] {
      var adds := AddsEntry(q, keys[0], seen);
      ConsumesAll(q, keys[1..], Seen(q, keys[0], seen), if adds then room - 1 else room);
    }
  }

  predicate NoRepeats(s: seq<string>) {
    forall i, j :: 0 <= i < j < |s| ==> s[i] != s[j]
  }

  /** A run of one entry before adjacent keys, none of them of its group, is adjacent. */
  lemma PrependRun(q: Query, keys: seq<Key>, m: nat, e: Entry)
    requires m <= |keys| && Adjacent(q, keys[m..])
    requires forall i :: 0 <= i < m && EntryOf(q, keys[i]).Some? ==> EntryOf(q, keys[i]) == Some(e)
    requires e.Group? ==> forall i :: 0 <= i < |keys[m..]| ==> !InGroup(q, keys[m..][i], e.name)
    ensures Adjacent(q, keys)
  {
    forall k | m <= k < |keys| ensures e.Group? ==> !InGroup(q, keys[k], e.name) {
      assert keys[m..][k - m] == keys[k];
    }
    forall i, j, k, g | 0 <= i <= j <= k < |keys| && InGroup(q, keys[i], g) && InGroup(q, keys[k], g)
      ensures EntryOf(q, keys[j]).None? || InGroup(q, keys[j], g)
    {
      if i < m {
        assert e == Group(g) && k < m;
      } else {
        assert keys[m..][i - m] == keys[i] && keys[m..][j - m] == keys[j] && keys[m..][k - m] == keys[k];
      }
    }
  }

  /** The first page of one entry, and what comes after it. */
  lemma FirstRun(q: Query, keys: seq<Key>) returns (m: nat)
    requires Distinct(keys) && |Entries(q, keys, {})| > 1
    ensures 0 < m <= |keys| && Distinct(keys[m..])
    ensures var e := Entries(q, keys, {})[0];
      && (forall i :: 0 <= i < m && EntryOf(q, keys[i]).Some? ==> EntryOf(q, keys[i]) == Some(e))
      && AllPrefixes(Pages(q, keys, 1)) == (if e.Group? then [e.name] else []) + AllPrefixes(Pages(q, keys[m..], 1))
  {
    var all, page := Entries(q, keys, {}), PageOf(q, keys, 1);
    CursorResumes(q, keys, 1);
    var rest := StoreAfter(keys, page.cursor.value);
    m :| 0 <= m <= Consumed(q, keys, {}, 1) && rest == keys[m..];
    forall i | 0 <= i < m && EntryOf(q, keys[i]).Some? ensures EntryOf(q, keys[i]) == Some(all[0]) {
      OneRun(q, keys, i);
    }
    assert Pages(q, keys, 1)[1..] == Pages(q, rest, 1);
    OnePrefix(all[0], page.prefixes, First(all, 1));
  }

  lemma SingleRun(q: Query, keys: seq<Key>)
    requires |Entries(q, keys, {})| <= 1
    ensures Adjacent(q, keys)
  {
    var all := Entries(q, keys, {});
    ConsumesAll(q, keys, {}, 1);
    forall i | 0 <= i < |keys| && EntryOf(q, keys[i]).Some? ensures all != [] && EntryOf(q, keys[i]) == Some(all[0]) {
      OneRun(q, keys, i);
    }
    PrependRun(q, keys, |keys|, if all == [] then Blob("") else all[0]);
  }

  /** With one entry a page, no group comes again only if the keys of each group are adjacent. */
  lemma {:induction false} NoRepeatsIsAdjacent(q: Query, keys: seq<Key>)
    requires Distinct(keys) && NoRepeats(AllPrefixes(Pages(q, keys, 1)))
    ensures Adjacent(q, keys)
    decreases |keys|
  {
    if |Entries(q, keys, {})| <= 1 {
      SingleRun(q, keys);
    } else {
      var e := Entries(q, keys, {})[0];
      var m := FirstRun(q, keys);
      var own := if e.Group? then [e.name] else [];
      RepeatsSplit(own, AllPrefixes(Pages(q, keys[m..], 1)));
      NoRepeatsIsAdjacent(q, keys[m..]);
      if e.Group? {
        assert own[0] == e.name;
        NotNamedAgain(q, keys[m..], e.name);
      }
      PrependRun(q, keys, m, e);
    }
  }

  lemma NotNamedAgain(q: Query, keys: seq<Key>, g: string)
    requires Distinct(keys) && g !in AllPrefixes(Pages(q, keys, 1))
    ensures forall i :: 0 <= i < |keys| ==> !InGroup(q, keys[i], g)
  {
    PagesNameEveryGroup(q, keys, 1, g);
  }

  lemma OnePrefix(e: Entry, prefixes: seq<string>, listed: seq<Entry>)
    requires listed == [e] && prefixes == Groups(listed)
    ensures prefixes == if e.Group? then [e.name] else []
  {
    assert [e][..0] == [];
  }

  lemma RepeatsSplit(a: seq<string>, b: seq<string>)
    requires NoRepeats(a + b)
    ensures NoRepeats(b) && forall i :: 0 <= i < |a| ==> a[i] !in b
  {
    var s := a + b;
    forall i, j | 0 <= i < j < |b| ensures b[i] != b[j] {
      assert s[|a| + i] == b[i] && s[|a| + j] == b[j];
    }
    forall i, j | 0 <= i < |a| && 0 <= j < |b| ensures a[i] != b[j] {
      assert s[i] == a[i] && s[|a| + j] == b[j];
    }
  }

  /** Pages of one entry list the groups as the full listing does exactly when each group's keys are adjacent. */
  lemma GroupsOnceExactly(q: Query, keys: seq<Key>)
    requires Distinct(keys)
    ensures AllPrefixes(Pages(q, keys, 1)) == Groups(Entries(q, keys, {})) <==> Adjacent(q, keys)
  {
    if Adjacent(q, keys) { PagesListEveryGroup(q, keys, 1); }
    if AllPrefixes(Pages(q, keys, 1)) == Groups(Entries(q, keys, {})) {
      EachGroupOnce(q, keys, {});
      NoRepeatsIsAdjacent(q, keys);
    }
  }

  /** A page never exceeds its limit, and says "truncated" exactly when an entry remains. */
  lemma PageBound(q: Query, keys: seq<Key>, limit: nat)
    ensures var page := PageOf(q, keys, limit);
      && |page.objects| + |page.prefixes| <= limit
      && (page.truncated <==> |page.objects| + |page.prefixes| < |Entries(q, keys, {})|)
  {
    ListedSize(First(Entries(q, keys, {}), limit));
  }

  // ---------------------------------------------------------------------
  // Byte order keeps the keys of a group adjacent
  // ---------------------------------------------------------------------

  ghost predicate InByteOrder(keys: seq<Key>) {
    forall i, j :: 0 <= i < j < |keys| ==> Less(keys[i], keys[j])
  }

  lemma {:induction false} Sandwiched(a: string, b: string, c: string, g: string)
    requires StartsWith(a, g) && StartsWith(c, g)
    requires a == b || Less(a, b)
    requires b == c || Less(b, c)
    ensures StartsWith(b, g)
  {
    if g != [] {
      assert a[0] == g[0] == c[0] == b[0];
      assert a[1..][..|g| - 1] == a[..|g|][1..] && c[1..][..|g| - 1] == c[..|g|][1..];
      Sandwiched(a[1..], b[1..], c[1..], g[1..]);
      assert b[..|g|] == [b[0]] + b[1..][..|g| - 1];
    }
  }

  lemma OccursInShared(a: string, b: string, needle: string, i: nat, n: nat)
    requires n <= |a| && n <= |b| && a[..n] == b[..n] && i + |needle| <= n
    ensures OccursAt(a, needle, i) == OccursAt(b, needle, i)
  {
    assert a[i..i + |needle|] == a[..n][i..i + |needle|];
    assert b[i..i + |needle|] == b[..n][i..i + |needle|];
  }

  /** Strings that agree up to the end of an occurrence agree on the first occurrence. */
  lemma SharedFirst(a: string, b: string, needle: string, at: nat)
    requires FirstAt(a, needle) == Some(at) && OccursAt(a, needle, at)
    requires at + |needle| <= |b| && a[..at + |needle|] == b[..at + |needle|]
    ensures FirstAt(b, needle) == Some(at)
  {
    assert OccursAt(b, needle, at) by { OccursInShared(a, b, needle, at, at + |needle|); }
    var first := FirstAt(b, needle);
    assert first.Some? && first.value <= at && OccursAt(b, needle, first.value) by { FirstAtIsFirst(b, needle); }
    assert OccursAt(a, needle, first.value) by { OccursInShared(a, b, needle, first.value, at + |needle|); }
    assert at <= first.value by { FirstAtIsFirst(a, needle); }
  }

  lemma GroupShape(q: Query, key: Key, g: string) returns (at: nat)
    requires InGroup(q, key, g)
    ensures StartsWith(key, q.prefix) && q.delimiter != ""
    ensures FirstAt(key[|q.prefix|..], q.delimiter) == Some(at) && OccursAt(key[|q.prefix|..], q.delimiter, at)
    ensures g == q.prefix + key[|q.prefix|..][..at + |q.delimiter|]
    ensures StartsWith(key, g)
  {
    var rest := key[|q.prefix|..];
    FirstAtIsFirst(rest, q.delimiter);
    at := FirstAt(rest, q.delimiter).value;
    assert key[..|g|] == key[..|q.prefix|] + rest[..at + |q.delimiter|];
  }

  /** A key that starts with a group starts with the prefix, and its tail with the group's. */
  lemma SharedTail(prefix: string, shared: string, other: Key)
    requires StartsWith(other, prefix + shared)
    ensures StartsWith(other, prefix)
    ensures |shared| <= |other[|prefix|..]| && other[|prefix|..][..|shared|] == shared
  {
    assert other[..|prefix|] == other[..|prefix + shared|][..|prefix|];
    assert other[|prefix|..][..|shared|] == other[..|prefix + shared|][|prefix|..];
  }

  /** A key belongs to a group exactly when the group is a prefix of it. */
  lemma GroupIsPrefix(q: Query, key: Key, other: Key, g: string)
    requires InGroup(q, key, g)
    ensures StartsWith(key, g)
    ensures StartsWith(other, g) ==> InGroup(q, other, g)
  {
    var at := GroupShape(q, key, g);
    if StartsWith(other, g) {
      var shared := key[|q.prefix|..][..at + |q.delimiter|];
      SharedTail(q.prefix, shared, other);
      SharedFirst(key[|q.prefix|..], other[|q.prefix|..], q.delimiter, at);
    }
  }

  lemma ByteOrderIsAdjacent(q: Query, keys: seq<Key>)
    requires InByteOrder(keys)
    ensures Adjacent(q, keys)
  {
    forall i, j, k, g | 0 <= i <= j <= k < |keys| && InGroup(q, keys[i], g) && InGroup(q, keys[k], g)
      ensures EntryOf(q, keys[j]).None? || InGroup(q, keys[j], g)
    {
      GroupIsPrefix(q, keys[i], keys[j], g);
      GroupIsPrefix(q, keys[k], keys[j], g);
      Sandwiched(keys[i], keys[j], keys[k], g);
    }
  }
}
