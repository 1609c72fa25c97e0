/**
 * Cursor paging over a bucket listing, with an optional delimiter that rolls
 * keys up into common prefixes.
 */
module BlobListing {
  import opened Prelude

  type Key = string

  predicate StartsWith(key: string, prefix: string) {
    |prefix| <= |key| && key[..|prefix|] == prefix
  }

  predicate OccursAt(hay: string, needle: string, i: nat) {
    i + |needle| <= |hay| && hay[i..i + |needle|] == needle
  }

  /** The first place where `needle` occurs. */
  function FirstAt(hay: string, needle: string): Option<nat> {
    if OccursAt(hay, needle, 0) then Some(0)
    else if hay == [] then None
    else
      match FirstAt(hay[1..], needle)
      case None => None
      case Some(i) => Some(i + 1)
  }

  lemma OccursAfterFirst(hay: string, needle: string, i: nat)
    requires hay != []
    ensures OccursAt(hay, needle, i + 1) == OccursAt(hay[1..], needle, i)
  {
    if i + 1 + |needle| <= |hay| {
      assert hay[i + 1..i + 1 + |needle|] == hay[1..][i..i + |needle|];
    }
  }

  lemma {:induction false} FirstAtIsFirst(hay: string, needle: string)
    ensures FirstAt(hay, needle).Some? ==> OccursAt(hay, needle, FirstAt(hay, needle).value)
    ensures forall i: nat :: OccursAt(hay, needle, i) ==> FirstAt(hay, needle).Some? && FirstAt(hay, needle).value <= i
  {
    if !OccursAt(hay, needle, 0) && hay != [] {
      FirstAtIsFirst(hay[1..], needle);
      forall i: nat | OccursAt(hay, needle, i)
        ensures FirstAt(hay, needle).Some? && FirstAt(hay, needle).value <= i
      {
        OccursAfterFirst(hay, needle, i - 1);
      }
      if FirstAt(hay[1..], needle).Some? { OccursAfterFirst(hay, needle, FirstAt(hay[1..], needle).value); }
    }
  }

  datatype Query = Query(prefix: string, delimiter: string)

  /** The rolled-up prefix that stands for `key`; an empty delimiter rolls nothing up. */
  function GroupOf(q: Query, key: Key): Option<string>
    requires StartsWith(key, q.prefix)
  {
    if q.delimiter == "" then None
    else
      var remainder := key[|q.prefix|..];
      FirstAtIsFirst(remainder, q.delimiter);
      match FirstAt(remainder, q.delimiter)
      case None => None
      case Some(at) => Some(q.prefix + remainder[..at + |q.delimiter|])
  }

  datatype Entry = Blob(key: Key) | Group(name: string)

  /** What a key contributes to the listing, if the prefix matches. */
  function EntryOf(q: Query, key: Key): Option<Entry> {
    if !StartsWith(key, q.prefix) then None
    else match GroupOf(q, key)
      case None => Some(Blob(key))
      case Some(g) => Some(Group(g))
  }

  /** Whether `key` adds an entry when the groups in `seen` are already listed. */
  predicate AddsEntry(q: Query, key: Key, seen: set<string>) {
    var e := EntryOf(q, key);
    e.Some? && (e.value.Group? ==> e.value.name !in seen)
  }

  function Seen(q: Query, key: Key, seen: set<string>): set<string> {
    var e := EntryOf(q, key);
    if e.Some? && e.value.Group? then seen + {e.value.name} else seen
  }

  /** The plain full listing: every matching key, with each group listed once. */
  function Entries(q: Query, keys: seq<Key>, seen: set<string>): seq<Entry> {
    if keys == [] then []
    else
      (if AddsEntry(q, keys[0], seen) then [EntryOf(q, keys[0]).value] else [])
      + Entries(q, keys[1..], Seen(q, keys[0], seen))
  }

  /** How many keys a page of `room` entries reads before the first entry it has no room for. */
  function Consumed(q: Query, keys: seq<Key>, seen: set<string>, room: nat): (n: nat)
    ensures n <= |keys|
  {
    if keys == [] then 0
    else if !AddsEntry(q, keys[0], seen) then 1 + Consumed(q, keys[1..], Seen(q, keys[0], seen), room)
    else if room == 0 then 0
    else 1 + Consumed(q, keys[1..], Seen(q, keys[0], seen), room - 1)
  }

  function Blobs(entries: seq<Entry>): seq<Key> {
    if entries == [] then []
    else Blobs(entries[..|entries| - 1]) +
         (if entries[|entries| - 1].Blob? then [entries[|entries| - 1].key] else [])
  }

  function Groups(entries: seq<Entry>): seq<string> {
    if entries == [] then []
    else Groups(entries[..|entries| - 1]) +
         (if entries[|entries| - 1].Group? then [entries[|entries| - 1].name] else [])
  }

  /** The last key that matches the prefix. */
  function LastMatch(q: Query, keys: seq<Key>): Option<Key> {
    if keys == [] then None
    else if StartsWith(keys[|keys| - 1], q.prefix) then Some(keys[|keys| - 1])
    else LastMatch(q, keys[..|keys| - 1])
  }

  datatype Page = Page(objects: seq<Key>, prefixes: seq<string>, truncated: bool, cursor: Option<Key>)

  function First(entries: seq<Entry>, limit: nat): seq<Entry> {
    if |entries| <= limit then entries else entries[..limit]
  }

  // ---------------------------------------------------------------------
  // One page
  // ---------------------------------------------------------------------

  /** After `i` keys a page has listed `listed`; the rest of the full listing follows. */
  ghost predicate Scanned(q: Query, keys: seq<Key>, limit: nat, i: nat, seen: set<string>, listed: seq<Entry>) {
    && i <= |keys| && |listed| <= limit
    && Entries(q, keys, {}) == listed + Entries(q, keys[i..], seen)
    && Consumed(q, keys, {}, limit) == i + Consumed(q, keys[i..], seen, limit - |listed|)
  }

  lemma SkipKey(q: Query, keys: seq<Key>, limit: nat, i: nat, seen: set<string>, listed: seq<Entry>)
    requires Scanned(q, keys, limit, i, seen, listed) && i < |keys| && !AddsEntry(q, keys[i], seen)
    ensures Scanned(q, keys, limit, i + 1, seen, listed)
  {
    assert keys[i..][1..] == keys[i + 1..];
    assert Seen(q, keys[i], seen) == seen;
  }

  lemma AddKey(q: Query, keys: seq<Key>, limit: nat, i: nat, seen: set<string>, listed: seq<Entry>)
    requires Scanned(q, keys, limit, i, seen, listed) && i < |keys| && AddsEntry(q, keys[i], seen) && |listed| < limit
    ensures Scanned(q, keys, limit, i + 1, Seen(q, keys[i], seen), listed + [EntryOf(q, keys[i]).value])
  {
    assert keys[i..][1..] == keys[i + 1..];
  }

  lemma PageFull(q: Query, keys: seq<Key>, limit: nat, i: nat, seen: set<string>, listed: seq<Entry>)
    requires Scanned(q, keys, limit, i, seen, listed) && i < |keys| && AddsEntry(q, keys[i], seen) && |listed| == limit
    ensures |Entries(q, keys, {})| > limit && First(Entries(q, keys, {}), limit) == listed
    ensures Consumed(q, keys, {}, limit) == i
  {
    assert keys[i..][1..] == keys[i + 1..];
  }

  lemma PageEnds(q: Query, keys: seq<Key>, limit: nat, seen: set<string>, listed: seq<Entry>)
    requires Scanned(q, keys, limit, |keys|, seen, listed)
    ensures First(Entries(q, keys, {}), limit) == listed == Entries(q, keys, {})
  {
    assert keys[|keys|..] == [];
  }

  lemma ListedAppend(listed: seq<Entry>, e: Entry)
    ensures Blobs(listed + [e]) == Blobs(listed) + (if e.Blob? then [e.key] else [])
    ensures Groups(listed + [e]) == Groups(listed) + (if e.Group? then [e.name] else [])
  {
    assert (listed + [e])[..|listed|] == listed;
  }

  lemma {:induction false} ListedSize(listed: seq<Entry>)
    ensures |Blobs(listed)| + |Groups(listed)| == |listed|
    decreases |listed|
  {
    if listed != [] {
      ListedSize(listed[..|listed| - 1]);
    }
  }

  /** The page that answers `q` over `keys`: the first entries, and where to go on. */
  function PageOf(q: Query, keys: seq<Key>, limit: nat): Page {
    var entries := Entries(q, keys, {});
    var listed := First(entries, limit);
    var truncated := |entries| > limit;
    Page(Blobs(listed), Groups(listed), truncated,
         if truncated then LastMatch(q, keys[..Consumed(q, keys, {}, limit)]) else None)
  }

  /** The page under construction, with its cursor at the last matching key so far. */
  ghost predicate Building(q: Query, keys: seq<Key>, limit: nat, i: nat, seen: set<string>, listed: seq<Entry>,
                           page: Page) {
    && Scanned(q, keys, limit, i, seen, listed)
    && page == Page(Blobs(listed), Groups(listed), false, LastMatch(q, keys[..i]))
  }

  lemma SkipBuilding(q: Query, keys: seq<Key>, limit: nat, i: nat, seen: set<string>, listed: seq<Entry>, page: Page)
    requires Building(q, keys, limit, i, seen, listed, page) && i < |keys| && !AddsEntry(q, keys[i], seen)
    ensures Building(q, keys, limit, i + 1, seen, listed,
                     if StartsWith(keys[i], q.prefix) then page.(cursor := Some(keys[i])) else page)
  {
    SkipKey(q, keys, limit, i, seen, listed);
    assert keys[..i + 1][..i] == keys[..i];
  }

  function Added(page: Page, entry: Entry, key: Key): Page {
    match entry
    case Group(g) => page.(prefixes := page.prefixes + [g], cursor := Some(key))
    case Blob(b) => page.(objects := page.objects + [b], cursor := Some(key))
  }

  lemma AddBuilding(q: Query, keys: seq<Key>, limit: nat, i: nat, seen: set<string>, listed: seq<Entry>, page: Page)
    requires Building(q, keys, limit, i, seen, listed, page)
    requires i < |keys| && AddsEntry(q, keys[i], seen) && |listed| < limit
    ensures Building(q, keys, limit, i + 1, Seen(q, keys[i], seen), listed + [EntryOf(q, keys[i]).value],
                     Added(page, EntryOf(q, keys[i]).value, keys[i]))
  {
    AddKey(q, keys, limit, i, seen, listed);
    ListedAppend(listed, EntryOf(q, keys[i]).value);
    assert keys[..i + 1][..i] == keys[..i];
  }

  /**
   * One page over the keys that the store answers after the cursor: it holds
   * the first `limit` entries of the full listing of those keys.
   */
  method ListPage(q: Query, keys: seq<Key>, limit: nat) returns (page: Page)
    ensures page == PageOf(q, keys, limit)
  {
    page := Page([], [], false, None);
    var rolled: set<string> := {};
    var i := 0;
    ghost var listed: seq<Entry> := [];
    assert keys[0..] == keys;
    while i < |keys|
      invariant i <= |keys| && Building(q, keys, limit, i, rolled, listed, page)
    {
      var key := keys[i];
      if !StartsWith(key, q.prefix) {
        SkipBuilding(q, keys, limit, i, rolled, listed, page);
        i := i + 1;
        continue;
      }
      var group := GroupOf(q, key);
      if group.Some? && group.value in rolled {
        SkipBuilding(q, keys, limit, i, rolled, listed, page);
        page := page.(cursor := Some(key));
        i := i + 1;
        continue;
      }
      ListedSize(listed);
      if |page.objects| + |page.prefixes| == limit {
        PageFull(q, keys, limit, i, rolled, listed);
        page := page.(truncated := true);
        return;
      }
      AddBuilding(q, keys, limit, i, rolled, listed, page);
      listed := listed + [EntryOf(q, key).value];
      match group {
        case Some(g) =>
          rolled := rolled + {g};
          page := page.(prefixes := page.prefixes + [g]);
        case None =>
          page := page.(objects := page.objects + [key]);
      }
      page := page.(cursor := Some(key));
      i := i + 1;
    }
    PageEnds(q, keys, limit, rolled, listed);
    page := page.(cursor := None);
  }
}
