# celld: a Dafny model of its coordination core

celld is a fleet of nodes that host cells (small databases) and coordinate only
through conditional writes to one bucket. This project models the parts of celld
whose correctness depends on the order of those writes, and the transformations
around them, and proves what they promise.

Protocols are state machines. A `State` holds the shared object and what each
participant is doing, an `Action` is one atomic access, `Apply` performs it (an
action that is not enabled changes nothing), and `Run` performs any list of
actions. A theorem about `Run(Init, actions)` therefore holds in every reachable
state of every interleaving. A conditional write is sent in one step and decided
in a later one, or never, and its sender may hear only that the outcome is
unknown. Each protocol also has lemmas that say what its operations come to: left
alone ("Undisturbed"), overtaken by a rival, with an answer lost, or stopped. So no
safety theorem holds for want of behaviour.

Sequential code that updates its state is a class or a method with loops, proved
against a function, and the theorems are about that function.

| files | part of celld |
|---|---|
| `Ownership`, `OwnershipProofs`, `OwnershipOutcomes`, `MemoryOwnership` | owner record, epochs, restore, upload and the acknowledgement gate |
| `DrainToken` | the fleet drain token |
| `WsGate`, `WsGateProofs` | the WebSocket output gate of an actor |
| `BlobListing`, `BlobListingProofs`, `ByteOrder` | delimiter paging with a cursor |
| `BlobOrder` | the order in which a store lists encoded locations, and what it means for groups |
| `BlobPaging` | following cursors over a store: directory, offset and keys read back from locations |
| `CellListing`, `CellListingProofs` | the bounded, resumable cell listing |
| `BlobKeys`, `BlobKeysProofs` | blob key encoding |
| `BlobConditions`, `ConditionalWrites` | conditions on blob writes and the writes they fence |
| `NodeRecord`, `DeadNode` | node records and their retirement |
| `Credentials`, `CredentialsProofs` | managed credential rotation |
| `ShutdownGate` | public admission against shutdown |
| `TimerSlots`, `TimerSlotsProofs` | versioned timers and the deadline queue |
| `Assets`, `AssetsProofs` | static asset routing |
| `NamespaceKeys` | Durable Object namespace keys |
| `HandoffRanking` | ranking of handoff candidates |

## Assumptions

- A version token (etag or generation) is never reused for another version of the same object.
- The wall clock that the drain token and the node leases use is shared and never goes back.
- One process runs under each node name (drain token).
- Atomics in the shutdown gate are sequentially consistent, as their `SeqCst` ordering says, and fewer
  than 2^64 requests are in flight at once.
- The control plane stages one replacement credential at a time under a handoff id it has not used, and
  accepts both tokens until an acknowledgement reaches it (`crates/celld/control_plane.rs:658-661`).
- Nothing outside celld deletes an owner record. `LossDefeatsFirstClaim` shows a run in which such a deletion
  lets an epoch-one claim be applied beside LTX; celld itself never deletes one.
- The path encoder escapes `%` and `/`, only single bytes, and none of the bytes a bucket prefix may use.
- Strings stand for byte strings, one character per byte, except in `BlobConditions`, where trimming is by
  Unicode white space.

## Where a promise does not hold as stated

Each has a lemma with a failing input and a lemma with the exact condition.

- A key under a bucket prefix with a `.` or `..` segment is listed with the prefix in front; the prefix check
  lets such a prefix through (`DotPrefixLeaks`; exactly then, `ListedAsWritten`).
- Paging below such a prefix need not end, because the cursor is the listed key and resumes at the location of
  that key. With the prefix `./`, a store that holds `a` and `b` and pages of one entry, the cursor of `a` resumes
  at `%2E/%2E/a`, before `%2E/a`, and every page is the first (`DotPrefixNeverEnds`). A cursor resumes where it was
  read exactly when the prefix has no dot segment (`ResumesExactly`), and exactly then paging ends over every store
  (`PagingEndsExactly`). A query prefix such as `x/` finds nothing below `./` (`DotPrefixHidesMatches`). The paging
  theorems are therefore about prefixes without dot segments.
- A rolled-up group can be listed on two pages. The comment in `list_page` says that a listing is in key order,
  but the store lists by encoded location, and `.` and `..` segments are escaped: with delimiter "." a store that
  holds `a/.`, `a/-` and `a/.b` lists the group `a/.` on the first and on the third page (`DotGroupRepeats`). Over
  all stores no group repeats exactly when the delimiter's part after its last "/" is not `.` or `..`, so never
  for "/" (`GroupsOnceInEveryStore`). For one listing, pages of one entry repeat no group exactly when the keys
  of each group are adjacent (`GroupsOnceExactly`).
- A resumed listing repeats its boundary row when the store answers the resuming request with an empty page
  (`EmptyPageRepeatsRow`); a run is right exactly when it does not meet one (`RunPrintsFirstRows`), and so is a
  chain (`ChainPrintsEverything`). With a limit of one such a run makes no progress (`ChainShrinks`).
- A redirect can lead to a longer path: from the file `d/.html` through `d` to `d/` (`DetourTaken`; exactly then,
  `ShorterExactlyWithoutDetour`). Chains end all the same (`RedirectChainsEnd`). A redirect leads to its page
  exactly when no other file takes the canonical path (`CanonicalIsServed`).
- A rotation at the largest credential version leaves the version as it was, because the check adds with
  saturation (`LargestVersionRepeats`; exactly then, `RotationRaisesVersion`).
- Timer ordinals saturate: a spent arm then passes for its replacement (`SaturatedArmsCollide`). Without installs
  every arm is given once exactly when no slot is armed twice on the last number (`GivesOnceExactly`). The driver
  and the actor agree over all runs of `n` arms exactly when there are numbers for all of them
  (`SidesAgreeExactly`; `LateArmsAreLost` gives a run that loses a timer). An arm that is installed again fires
  again (`ReinstalledFiresAgain`; an arm given once does not, `FiresOnce`).
- An entity tag may hold a comma (section 8.8.3 of RFC 9110), but the list is split at every comma: `"a,b"` does not
  match the version `"a,b"` (`CommaTagMissesItself`), and `"x,abc"` matches the version `"abc"`
  (`CommaTagMatchesAnother`). A list matches exactly the versions it names, for every version, exactly when no tag
  in it holds a comma (`ListNamesExactly`).
- An entity-tag list matches an absent object, which sections 13.1.1 and 13.1.2 of RFC 9110 rule out, exactly when
  one of its comma-separated parts is only weak markers and quotes, with space around them
  (`EmptyListMatchesAbsent`; `AbsentMatchesExactly`). Upload-time conditions are not asked of an absent object, so
  a call with only those writes (`UndisturbedCall`).
- The ranking depends on the order of the directory exactly when two different eligible peers share a key
  (`OrderIsIgnoredExactly`; `TwoAddressesShow` for one node listed under two addresses). Peers with distinct names
  never do (`RankIgnoresOrder`).

`decode_path` (`crates/celld/assets.rs:1413-1427`) refuses a path such as `/foo/`, although `route` redirects to
such paths; the asset theorems are about `route`.

## Model

| member | source | states |
|---|---|---|
| OwnershipProofs.StepKeepsInv | crates/celld/actor.rs:219-394 | Every read, listing, claim, decision, restore, write, upload, verification, eviction and release keeps the invariant that ties the record, the grants, the epoch prefixes and what each node is doing. |
| OwnershipProofs.EpochNeverDecreases | crates/celld/actor.rs:314-394 | In every run the record's epoch never goes down and no step raises it by more than one, with late and ambiguous claims and releases. |
| OwnershipProofs.EpochGrantedOnce | crates/celld/actor.rs:314-357 | Over a whole run no two applied claims carry the same epoch. |
| OwnershipProofs.OneWriterPerEpoch | docs/guarantees.md:3-6 | At no instant do two nodes serve the same epoch of a cell. |
| OwnershipProofs.OnlyTheOwnerAcknowledges | crates/celld/actor.rs:3924-3989 | A superseded node acknowledges nothing: an acknowledgement comes from the node the record names, at the record's epoch. |
| OwnershipProofs.AcknowledgedWritesSurvive | crates/celld/actor.rs:3924-3989 | A write acknowledged after upload and verification is in the state that every owner of a later granted epoch restores. |
| OwnershipProofs.NewestPrefixHoldsEveryAck | crates/celld/actor.rs:3747-3782 | At every instant the newest epoch prefix, which a restore reads, holds every acknowledged write. |
| OwnershipProofs.NoFalseLoss | crates/celld/actor.rs:219-269 | Unless something deletes the record, the lost-record check never refuses a cell, whatever concurrent first claims do. |
| OwnershipProofs.AbsentClaimSawNoLtx | crates/celld/actor.rs:219-269 | An epoch-one claim is sent only by a listing that found no LTX. |
| OwnershipProofs.FirstClaimMeetsNoLtx | crates/celld/actor.rs:219-269 | When the store can apply an epoch-one claim, no LTX of the cell exists or is in flight, unless the record was deleted. |
| OwnershipProofs.LossDefeatsFirstClaim | crates/celld/actor.rs:219-269 | A concrete run with a deleted record in which an epoch-one claim can be applied beside LTX. |
| OwnershipProofs.UndisturbedClaim | crates/logic/lib.rs:4055-4245 | A node that nothing disturbs takes an existing cell over at the next epoch, restores it and serves it with every acknowledged write. |
| OwnershipProofs.UndisturbedFirstClaim | crates/celld/actor.rs:219-269 | A node that nothing disturbs claims a cell without record and LTX at epoch one and serves it empty. |
| OwnershipProofs.UndisturbedWrite | crates/logic/output_gate.rs:414-450 | A resident owner that nothing disturbs uploads a write, passes the gate and acknowledges it. |
| OwnershipOutcomes.UndisturbedRelease | crates/celld/actor.rs:359-384 | After a release that nothing disturbs the record names nobody, at the same epoch and under a new etag, and no node is still the owner. |
| OwnershipOutcomes.LateRelease | crates/celld/actor.rs:385-393 | A release that another write overtakes leaves the record as it is, and a node the record does not name sends none. |
| OwnershipOutcomes.RivalClaims | crates/celld/actor.rs:314-357 | Of two nodes that read one record, the one whose claim is decided first owns the next epoch and restores; the other starts over. |
| OwnershipOutcomes.LostAnswer | crates/logic/lib.rs:4093-4150 | A claim that was applied but whose answer was lost is found by the reconciling read and is not sent again. |
| OwnershipOutcomes.LostFirstAnswer | crates/logic/lib.rs:4093-4150 | The same for the first claim of a new cell, which still counts as new. |
| OwnershipOutcomes.RetriedClaim | crates/logic/lib.rs:4097-4190 | A claim with a lost answer that was not applied is made again over the record as it is then, as a takeover. |
| OwnershipOutcomes.LostRecordIsRefused | crates/celld/actor.rs:219-269 | A cell with LTX and without a record is refused and nothing is claimed. |
| OwnershipOutcomes.LateRecordIsClaimed | crates/celld/actor.rs:237-247 | A record that appears after the first read is taken over and not reported as lost. |
| OwnershipOutcomes.UsedEpochIsRefused | crates/celld/ltx_repl.rs:2450-2471 | An epoch that already has LTX is given up and nothing is activated. |
| OwnershipOutcomes.LocalWake | crates/celld/ltx_repl.rs:2540-2574 | A cell evicted and woken on its node starts the next epoch from the local copy with every write, and the copy is used up. |
| OwnershipOutcomes.SupersededResets | crates/celld/actor.rs:3924-3989 | After another node took the cell over, the old owner's gate acknowledges nothing and resets the cell. |
| MemoryOwnership.Memory.CasOwner | crates/celld/actor.rs:320-348 | The in-memory claim writes this node, the epoch and a new etag exactly when its guard holds, as the bucket decides one; other cells keep their records. |
| MemoryOwnership.Memory.ReleaseOwner | crates/celld/actor.rs:359-384 | A release applies exactly when this node owns the cell at that epoch; it then names no node, keeps the epoch and takes a new etag, as the bucket decides one. |
| DrainToken.StepKeepsInv | crates/celld/drain_token.rs:99-265 | Every clock tick, read, claim, renewal, read-back, release, crash and late decision keeps the token invariant. |
| DrainToken.Exclusion | crates/celld/drain_token.rs:99-129 | In every run no two nodes hold unexpired claims at the same instant, with failed reads taken as absent and writes decided late. |
| DrainToken.NoClobber | crates/celld/drain_token.rs:188-265 | A write that the store can apply replaces no other donor's live claim, and a renewal or release replaces only its own donor's record. |
| DrainToken.HoldIsVisible | crates/logic/drain.rs:36-46 | While a node holds an unexpired claim, the stored token shows it to every other node. |
| DrainToken.UndisturbedClaim | crates/celld/drain_token.rs:99-129 | Left alone, a donor acquires the token for 120 seconds, whatever is stored, unless the object names another node and is unexpired; then it sends nothing. |
| DrainToken.TokenLapses | crates/celld/drain_token.rs:99-129 | Once the stored time has passed, an undisturbed donor acquires a token that another node still names. |
| DrainToken.BlindClaim | crates/celld/drain_token.rs:105-128 | A claim after a failed read acquires the token exactly when there is none, and otherwise leaves it as it is. |
| DrainToken.UnknownClaimIsRetried | crates/celld/drain_token.rs:95-129 | A claim whose answer is lost holds nothing, and the next attempt claims over the node's own record. |
| DrainToken.UndisturbedRenewal | crates/celld/drain_token.rs:188-202 | A renewal that nothing disturbs moves the hold and the object to 120 seconds from now, under the new etag. |
| DrainToken.LostRenewal | crates/celld/drain_token.rs:203-209 | A renewal that finds another object loses the hold and changes nothing. |
| DrainToken.UnknownRenewal | crates/celld/drain_token.rs:210-236 | A renewal whose answer is lost holds the stored etag and expiry exactly when the object, read back, names this node. |
| DrainToken.LostAnswerIsReadBack | crates/celld/drain_token.rs:210-226 | When the renewal was applied, a lost answer leads to the very state of a heard one. |
| DrainToken.UndisturbedRelease | crates/celld/drain_token.rs:243-265 | An undisturbed release stores an expired record of this node and frees the token for everyone at once. |
| DrainToken.LateRelease | crates/celld/drain_token.rs:239-257 | A release that finds another object leaves it alone. |
| WsGate.Actor.WsOutput | crates/celld/actor.rs:2927-2977 | A held batch joins the back of its cell's queue and its request is gated; nothing else changes. |
| WsGate.Actor.WsRelease | crates/celld/actor.rs:3142-3188 | A verdict settles its barrier and then flushes exactly the proven prefix of that cell, or drops the cell's queue after a failure. |
| WsGate.Actor.Flush | crates/celld/actor.rs:3142-3188 | The loop emits the longest proven prefix of the queue, in order, and leaves the rest. |
| WsGate.Actor.Mark | crates/celld/actor.rs:3142-3188 | The loop settles the first barrier of the request and no other. |
| WsGateProofs.EmittedInOrderAndProven | crates/celld/actor.rs:2927-2977 | In every run a cell's output is the emitted part of its arrivals, in arrival order, and every emitted batch has a proven verdict. |
| WsGateProofs.NothingLostBeforeFailure | crates/celld/actor.rs:3142-3188 | Until a failure, emitted plus held is exactly what arrived, in order. |
| WsGateProofs.AllProvenAllEmitted | crates/celld/actor.rs:3142-3188 | When every verdict is proven, everything that arrived has left, in order. |
| WsGateProofs.FailureDropsHeld | crates/celld/actor.rs:3142-3188 | A failed verdict emits nothing, empties the queue, and no continuation ever emits what was held. |
| WsGateProofs.LateVerdict | crates/celld/actor.rs:3142-3150 | A verdict on a request that no longer waits changes no cell and emits nothing. |
| WsGateProofs.FrontWaitsAndGatedMatches | crates/celld/actor.rs:1890-1910 | In every run the gated requests and the unsettled barriers are in bijection, and the front barrier at rest is unsettled. |
| WsGateProofs.OutputIsEmitted | crates/celld/actor.rs:3142-3188 | The output that the four theorems above speak of grows by exactly what the gate emits at each verdict, and by nothing else. |
| BlobListing.ListPage | crates/celld/bucket.rs:1476-1549 | The paging loop returns the first `limit` entries of the full listing, the truncation flag and the cursor. |
| BlobListingProofs.PagesListEveryObject | crates/celld/bucket.rs:1476-1549 | For any store order, prefix, delimiter and limit, following cursors lists every matching ungrouped key once, in order. |
| BlobListingProofs.PagesListEveryGroup | crates/celld/bucket.rs:1476-1549 | When the keys of each group are adjacent, following cursors with any limit lists the groups of the full listing, each on one page. |
| BlobListingProofs.GroupsOnceExactly | crates/celld/bucket.rs:1476-1549 | Pages of one entry list the groups as the full listing does exactly when the keys of each group are adjacent. |
| BlobListingProofs.PagesNameEveryGroup | crates/celld/bucket.rs:1476-1549 | In any order and with any limit the pages name exactly the groups that some key belongs to. |
| BlobListingProofs.GroupsAreExact | crates/celld/bucket.rs:1476-1549 | The full listing names a group exactly when some key belongs to it. |
| BlobListingProofs.EachGroupOnce | crates/celld/bucket.rs:1476-1549 | The full listing names no group twice. |
| BlobListingProofs.PageBound | crates/celld/bucket.rs:1476-1549 | A page never exceeds its limit and is truncated exactly when an entry remains. |
| BlobListingProofs.CursorResumes | crates/celld/bucket.rs:1476-1549 | Resuming after the cursor of a truncated page continues with exactly the entry that had no room. |
| BlobListingProofs.ByteOrderIsAdjacent | crates/celld/bucket.rs:1498-1503 | In the key order that the comment assumes, the keys of every group are adjacent for every delimiter; the order a store really has is the subject of BlobOrder. |
| BlobOrder.LocationOrderIsAdjacent | crates/celld/bucket.rs:1483-1510 | Listed by encoded location below a prefix without dot segments, the keys of each group are adjacent for every delimiter whose last segment is not a dot segment, "/" among them. |
| BlobOrder.DotTailSplits | crates/celld/bucket.rs:872-889 | Under every query prefix, a delimiter with a dot tail has keys, in location order, whose group is not adjacent. |
| BlobPaging.OffsetResumes | crates/celld/bucket.rs:1483-1490 | Asked for the directory of the prefix and for what follows the location of the last key read, a store below a prefix without dot segments answers with all matching keys after that key, as they were written, and no other. |
| BlobPaging.DirectoryHoldsMatches | crates/celld/bucket.rs:1483-1484 | Below such a prefix, listing only the directory of the query prefix leaves out no blob whose listed key starts with it. |
| BlobPaging.PageOfMatching | crates/celld/bucket.rs:1506-1549 | A page, its cursor included, depends only on the keys that match the query prefix, so what else the directory holds changes nothing. |
| BlobPaging.FollowingIsPaging | crates/celld/bucket.rs:1476-1549 | Below a prefix without dot segments, following cursors over the store, each read back from a location and turned into the next offset, ends and gives exactly the pages of the keys as they were written. |
| BlobPaging.StoreListsEveryObject | crates/celld/bucket.rs:1476-1549 | Over such a store, with any limit, every object that no group stands for is listed once and in the order of the store. |
| BlobPaging.StoreListsGroupsOnce | crates/celld/bucket.rs:1476-1549 | Over such a store, with any limit and a delimiter without a dot tail, each group is listed once, as in the full listing. |
| BlobPaging.GroupsOnceInEveryStore | crates/celld/bucket.rs:1476-1549 | Every such store, with every limit, lists each group once exactly when the delimiter's last segment is not a dot segment. |
| BlobPaging.DotGroupRepeats | crates/celld/bucket.rs:1476-1549 | For every encoder, a store with `a/.`, `a/-` and `a/.b` lists the group `a/.` twice with delimiter ".". |
| BlobPaging.ResumesExactly | crates/celld/bucket.rs:853-919 | The location of a key's cursor is the location the key was read from exactly when the prefix has no dot segment. |
| BlobPaging.DotPrefixNeverEnds | crates/celld/bucket.rs:1483-1549 | Below the prefix `./`, a store with `a` and `b` and pages of one entry has no finite chain of pages: the cursor of `a` resumes at `%2E/%2E/a`, before `%2E/a`. |
| BlobPaging.PagingEndsExactly | crates/celld/bucket.rs:1476-1549 | For a legal prefix, following cursors ends over every store, query and positive limit exactly when the prefix has no dot segment. |
| BlobPaging.DotPrefixHidesMatches | crates/celld/bucket.rs:1506-1515 | Below a prefix with a dot segment, a query prefix that neither starts it nor continues it finds nothing in any store. |
| CellListing.PrintPage | crates/celld/cli_output.rs:414-465 | Printing one page stops at the bound and reports more exactly when a row of the page is left. |
| CellListing.TakePage | crates/celld/cli_output.rs:414-465 | One request either decides the whole outcome or leaves exactly the rows of the pages to come. |
| CellListing.List | crates/celld/cli_output.rs:414-465 | The driver's loop prints the first `limit` rows of all pages, says whether a row is left, and resumes at the last row printed. |
| CellListingProofs.ClassIsFirstPart | crates/celld/cell_cli.rs:172-191 | The class filter keeps exactly the scopes that start with the class and a ':', where the class itself holds none. |
| CellListingProofs.ScopeIsOneSegment | crates/logic/cell.rs:43-51 | A listed cell name is a single path segment and never a dot segment. |
| CellListingProofs.RowsExactly | crates/celld/cell_cli.rs:172-191 | The rows are exactly the children that are cell names, up to 255 letters, digits and `_-.:$` and no dot segment, and of the wanted class if one is given. |
| CellListingProofs.BoundaryRepeats | crates/celld/bucket.rs:1209-1262 | A store that resumes from a name lists exactly the later children and the boundary child again, in the order of names with "/". |
| CellListingProofs.RunRows | crates/celld/cli_output.rs:414-465 | The rows of a run, for any page splits, are the rows after the cursor, with the boundary in front exactly when the resumed page is empty and the boundary is a row. |
| CellListingProofs.RunPrintsFirstRows | crates/celld/cell_cli.rs:223-253 | For any pages, a run prints the first min(limit, n) rows after the cursor and sets `more` exactly when another row exists, exactly when no empty page at the cursor repeats the boundary. |
| CellListingProofs.ResumeLeavesTheRest | crates/celld/cell_cli.rs:172-191 | The rows after a printed row are exactly the rows that follow it in the listing. |
| CellListingProofs.ChainPrintsEverything | crates/celld/cli_output.rs:376-465 | Runs chained by the printed cursor print every cell of the full listing once, in order, exactly when no run repeats its boundary. |
| CellListingProofs.ChainShrinks | crates/celld/cli_output.rs:376-465 | Each run that reports more leaves `limit` rows fewer, and exactly one less than that when it repeats its boundary. |
| CellListingProofs.EmptyPageRepeatsRow | crates/celld/cell_cli.rs:172-191 | Two runs over two cells in which an empty page makes the second print the first row again. |
| BlobKeysProofs.RoundTrip | crates/celld/bucket.rs:863-919 | For every non-empty key and every legal prefix without dot segments, a blob is listed under the key it was written with. |
| BlobKeysProofs.AcceptedExactly | crates/celld/bucket.rs:675-682 | A prefix passes the check exactly when every one of its normalized segments is legal. |
| BlobKeysProofs.DecodesEitherCase | crates/celld/bucket.rs:902-919 | An escaped byte of a location reads the same in upper and lower case. |
| BlobKeysProofs.DotPrefixLeaks | crates/celld/bucket.rs:853-919 | Under a prefix with a dot segment every key is listed with the prefix in front. |
| BlobKeysProofs.ListedAsWritten | crates/celld/bucket.rs:853-919 | A key is listed as written exactly when the prefix has no dot segment. |
| BlobKeysProofs.LocationsAreDistinct | crates/celld/bucket.rs:863-919 | Distinct keys have distinct locations under any legal prefix. |
| BlobConditions.HeaderMatches | crates/celld/bucket.rs:345-389 | A list of tags without commas, each weak or strong and quoted or bare, matches a version exactly when it names its tag; an absent object counts as the empty tag. |
| BlobConditions.BareSpelled | crates/celld/bucket.rs:376-389 | Quotes, a weak marker and a leading space never change which tag is meant, for every tag without a quote and for every bare token. |
| BlobConditions.ListNamesExactly | crates/celld/bucket.rs:349-360 | A list matches exactly the versions it names, for every version, exactly when no tag in it holds a comma. |
| BlobConditions.CommaTagMissesItself | crates/celld/bucket.rs:349-360 | The list `"a,b"` does not match the version `"a,b"`. |
| BlobConditions.CommaTagMatchesAnother | crates/celld/bucket.rs:349-360 | The list `"x,abc"` matches the version `"abc"`. |
| BlobConditions.CommaNeverMatches | crates/celld/bucket.rs:349-389 | No list matches a version whose tag holds a comma, unless the list is `*`. |
| BlobConditions.StarMatches | crates/celld/bucket.rs:349-352 | `*`, with any space around it, matches exactly when there is a version. |
| BlobConditions.AbsentMatchesExactly | crates/celld/bucket.rs:349-360 | A list, as the caller wrote it, matches an absent object exactly when a comma-separated part is only weak markers and quotes with space around them. |
| BlobConditions.EmptyListMatchesAbsent | crates/celld/bucket.rs:349-360 | The empty list is met by an absent object. |
| ConditionalWrites.FencePasses | crates/celld/bucket.rs:109-135 | On every backend the fence built from a token passes exactly the versions that carry that token. |
| ConditionalWrites.StepKeepsInv | crates/celld/bucket.rs:1393-1462 | Every head, decision, answer and foreign write keeps each pending call pinned to the version it judged. |
| ConditionalWrites.AppliedHadItsCondition | crates/celld/bucket.rs:1393-1462 | With any number of racing writers, a conditional write that takes effect replaced a version, or absence, of which all four fields of its condition were true. |
| ConditionalWrites.AnswersAreTrue | crates/celld/bucket.rs:1393-1462 | `Ok(None)` means the call wrote nothing and never will; a metadata answer means it took effect, and no call takes effect twice. |
| ConditionalWrites.UndisturbedCall | crates/celld/bucket.rs:1401-1462 | Left alone, a call with any condition writes exactly when its four fields hold of what is there and the version has the backend's token; it is refused exactly when they do not hold. |
| ConditionalWrites.UndisturbedPlainCall | crates/celld/bucket.rs:1401-1402 | Left alone, a call without conditions writes, whatever is there. |
| ConditionalWrites.PlainNeverRefused | crates/celld/bucket.rs:1401-1456 | In no run is a call without conditions answered `Ok(None)`. |
| ConditionalWrites.OvertakenCall | crates/celld/bucket.rs:1440-1456 | A call that was judged true and is then overtaken by another write is refused, and the other write stays. |
| ConditionalWrites.DeletedUnderCall | crates/celld/bucket.rs:1440-1456 | A call whose judged version is deleted is refused and writes nothing in its place. |
| NodeRecord.RoundTrip | crates/celld/dead_node_gc.rs:20-38 | A record that was written decodes to itself. |
| NodeRecord.TombstoneKeepsFields | crates/celld/dead_node_gc.rs:20-38 | The tombstone object keeps every field but the expiry, unnamed ones verbatim; only an empty generation or probe key may be added and a null log dropped. |
| DeadNode.StepKeepsInv | crates/celld/dead_node_gc.rs:356-411 | Every pass step, late decision, late delete and foreign write keeps each pending tombstone pinned to the version it judged. |
| DeadNode.TombstonesAreSafe | crates/celld/dead_node_gc.rs:356-411 | Each committed tombstone replaced exactly the object judged, whose own fields name this node, had expired at that instant, and hold no log or one whose state is "sealed"; it reads back as that record with only the expiry changed. |
| DeadNode.TombstonesKeepFields | crates/celld/dead_node_gc.rs:356-411 | Of the stored object each committed tombstone keeps every field but the expiry, unnamed ones verbatim. |
| DeadNode.DeletesAreFenced | crates/celld/dead_node_gc.rs:396-411 | A delete is issued only after a tombstone of the same pass committed over a record without a log. |
| DeadNode.FoldedTombstoneIsFinal | crates/celld/dead_node_gc.rs:382-395 | A fenced record with a log is never rewritten by any pass. |
| DeadNode.UndisturbedPass | crates/celld/dead_node_gc.rs:356-411 | From the fields of the stored object: left alone, a pass removes an expired record of this node without a log, sets only the expiry of one whose log is sealed and not yet fenced, and leaves every other object as it is. |
| DeadNode.OvertakenPass | crates/celld/dead_node_gc.rs:396-411 | A pass whose record is rewritten before its tombstone is decided commits nothing, deletes nothing and leaves the new object, whether or not it hears the answer. |
| DeadNode.LaterExpiryWaits | crates/celld/dead_node_gc.rs:356-368 | A pass judges by the instant it started at, so it leaves a record that runs out before its read. |
| CredentialsProofs.StepKeepsInv | crates/celld/control_plane.rs:581-676 | Every step of a refresh, of a background acknowledgement and of the control plane, and a stop after any of them, keeps the rotation invariant. |
| CredentialsProofs.SavedTokenIsAccepted | crates/celld/control_plane.rs:581-676 | In every run with stops and reruns, the control plane accepts the saved token. |
| CredentialsProofs.AckFindsReplacementSaved | crates/celld/control_plane.rs:656-676 | An acknowledgement, however late, settles a replacement only when exactly that token, version and storage are saved. |
| CredentialsProofs.SavesWhatIsStaged | crates/celld/control_plane.rs:635-662 | A rotation saves exactly the staged replacement, offered as pending with complete fields, and remembers token, version and storage of the credential it replaces. |
| CredentialsProofs.SavesExactly | crates/celld/control_plane.rs:678-716 | An undisturbed refresh saves the staged replacement exactly when its status, its version, its three storage fields and its four secrets are as the check demands; otherwise the record stays and the lock is free. |
| CredentialsProofs.PreviousIsKeptUntilAck | crates/celld/control_plane.rs:641-676 | While a rotation is unsettled, a remembered previous credential is the one still settled. |
| CredentialsProofs.VersionCountsRotations | crates/celld/control_plane.rs:678-716 | The version counts the saved replacements up to the largest one; bucket, endpoint and region never change. |
| CredentialsProofs.RotationRaisesVersion | crates/celld/control_plane.rs:678-716 | A saved replacement raises the version by exactly one, exactly when it is below the largest. |
| CredentialsProofs.LargestVersionRepeats | crates/celld/control_plane.rs:689-693 | At the largest version a rotation is accepted with that version again. |
| CredentialsProofs.RerunFinishes | crates/celld/control_plane.rs:599-611 | After any interruption a rerun settles what an earlier run saved and clears the marker. |
| CredentialsProofs.UndisturbedRotation | crates/celld/control_plane.rs:613-676 | A rotation nobody disturbs ends with the replacement saved, settled and unmarked. |
| CredentialsProofs.StagedRotation | crates/celld/control_plane.rs:613-676 | The same from the moment the control plane stages the replacement. |
| CredentialsProofs.UndisturbedTask | crates/celld/control_plane.rs:2547-2588 | A background acknowledgement that nobody disturbs settles the saved token and clears marker and previous credential, and nothing else. |
| CredentialsProofs.ConfirmedClears | crates/celld/control_plane.rs:2563-2588 | An acknowledged task clears the record exactly when the record still carries its marker. |
| ShutdownGate.CounterIsExact | crates/celld/actor.rs:1838-1857 | In every interleaving the counter is the number of threads between increment and decrement, backed-out ones included. |
| ShutdownGate.NoGuardAfterZero | crates/celld/actor.rs:1838-1857 | Once the flag is stored and the counter then reads zero, no request holds a guard and none ever will. |
| ShutdownGate.AdmittedExactly | crates/celld/actor.rs:1841-1854 | A request that has counted itself is admitted exactly when the flag is not stored before its second check. |
| ShutdownGate.RequestIsAdmitted | crates/celld/actor.rs:1838-1857 | Whatever other threads do between its steps, a request holds the guard exactly when the flag stays clear until its second check, and is out again otherwise. |
| ShutdownGate.EveryThreadCanLeave | crates/celld/actor.rs:813-823 | With the flag set, every thread can finish by its own steps. |
| TimerSlots.Slots.Arm | crates/celld/actor.rs:128-140 | An arm takes the next ordinal of all slots, replaces its slot's entry and returns what it displaced. |
| TimerSlots.Slots.Install | crates/celld/actor.rs:143-157 | An arm numbered elsewhere replaces its slot's entry. |
| TimerSlots.Slots.Fire | crates/celld/actor.rs:160-170 | Firing removes and returns an entry exactly when slot and ordinal match. |
| TimerSlots.Slots.ClearSlot | crates/celld/actor.rs:172-174 | Clearing removes whatever the slot holds. |
| TimerSlots.Timers.Install | crates/celld/actor/effects.rs:238-244 | Installing replaces the displaced arm's deadline with the new one. |
| TimerSlots.Timers.NextDeadline | crates/celld/actor/effects.rs:246-251 | The next deadline is that of the earliest arm, and there is none exactly when nothing is armed. |
| TimerSlots.Timers.PopDue | crates/celld/actor/effects.rs:253-260 | The earliest arm, oldest first among equal deadlines, is taken exactly when some arm is due, and fires exactly when it is its slot's current arm; on a paired queue it always is, and the queue stays paired. |
| TimerSlotsProofs.FiresExactlyLive | crates/celld/actor.rs:120-174 | After any arms, installs, fires and clears, `fire` accepts an ordinal exactly when the slot was given it and nothing touched the slot since. |
| TimerSlotsProofs.GivenOnce | crates/celld/actor.rs:121-140 | While there are numbers for all arms, no ordinal is given twice, to any slot. |
| TimerSlotsProofs.GivesOnceExactly | crates/celld/actor.rs:121-140 | Without installs every arm is given once exactly when no slot is armed twice on the last number. |
| TimerSlotsProofs.FiresOnce | crates/celld/actor.rs:160-170 | An arm given once fires at most once. |
| TimerSlotsProofs.ReinstalledFiresAgain | crates/celld/actor.rs:143-145 | An arm that is installed again fires again. |
| TimerSlotsProofs.SaturatedArmsCollide | crates/celld/actor.rs:128-140 | When ordinals have saturated, firing a spent arm takes its replacement. |
| TimerSlotsProofs.MethodsAreSteps | crates/celld/actor.rs:120-174 | The methods of `Slots` perform exactly the operations the theorems are about. |
| TimerSlotsProofs.DrainedSidesAgree | crates/celld/actor.rs:2757-2771 | After a drain the driver holds exactly the actor's arms, and as many deadlines as armed slots. |
| TimerSlotsProofs.EachArmFiresOnce | crates/celld/actor.rs:3295-3298 | Over every run of scheduling, draining and popping, no arm fires twice, and each fires when due, earliest first, as its slot's newest arm. |
| TimerSlotsProofs.DueArmFires | crates/celld/actor.rs:3295-3298 | Between drains, as soon as one installed arm is due, some arm fires. |
| TimerSlotsProofs.SaturatedInstallLosesTimer | crates/celld/actor/effects.rs:238-244 | Two arms on one number for one instant share a deadline key, and the first is lost. |
| TimerSlotsProofs.LateArmsAreLost | crates/celld/actor/effects.rs:238-244 | For every number of arms above what there are ordinals for, some run loses a timer. |
| TimerSlotsProofs.SidesAgreeExactly | crates/celld/actor.rs:2757-2771 | All runs of `n` arms leave the driver with exactly the actor's arms exactly when there are ordinals for all `n`. |
| Assets.HtmlAsset | crates/celld/assets.rs:1086-1107 | The candidate loop finds the first file, best first, that can answer the path. |
| Assets.FindNearest404 | crates/celld/assets.rs:1133-1161 | The loop finds the not-found page that the recursive search finds. |
| AssetsProofs.NearestIsNearest | crates/celld/assets.rs:1133-1161 | The page found is in the deepest directory at or above the path that has one, and there is none exactly when no such directory does. |
| AssetsProofs.UnansweredRoute | crates/celld/assets.rs:1060-1077 | A path that no file answers gets nothing, the root page as found, or the deepest not-found page at or above its directory as not found, by the configured mode, and nothing when misses are not asked for. |
| AssetsProofs.FileIsServed | crates/celld/assets.rs:1033-1050 | A file that is no page, and without HTML handling any file, is served at its own path. |
| AssetsProofs.AnswerNeedsNoFallback | crates/celld/assets.rs:1024-1058 | Where a file answers a path, asking for misses makes no difference. |
| AssetsProofs.SecondRedirect | crates/celld/assets.rs:1024-1058 | In every mode a redirect from a redirect's target is strictly shorter, or is the detour from a directory's name to the directory. |
| AssetsProofs.ShorterExactlyWithoutDetour | crates/celld/assets.rs:1024-1058 | Every further redirect is strictly shorter exactly when the index has no detour. |
| AssetsProofs.ShorterWithoutNameless | crates/celld/assets.rs:1024-1058 | In particular for every index without a file named just ".html". |
| AssetsProofs.DetourTaken | crates/celld/assets.rs:1109-1131 | The detour is real: two redirects, the second longer, and then the page is served. |
| AssetsProofs.CanonicalIsServed | crates/celld/assets.rs:1086-1131 | In every mode the canonical path of a page answers with that very page exactly when no plain file and no better candidate takes that path. |
| AssetsProofs.NamelessIsNotServed | crates/celld/assets.rs:1086-1131 | A file named just ".html" never answers its own canonical path. |
| AssetsProofs.RedirectChainsEnd | crates/celld/assets.rs:1024-1058 | Every redirect chain ends, for every canonical index and mode, within the length of its first target plus three. |
| NamespaceKeys.ParseInverts | crates/celld/engine_api.rs:545-550 | The decimal length prefix recovers script and class, whatever colons and digits they hold. |
| NamespaceKeys.SameKeyExactly | crates/celld/engine_api.rs:504-550 | Two names have one key exactly when they are the same shared class or the same class of the same script; no scoped key is a shared one. |
| NamespaceKeys.SharedAddresses | crates/celld/engine_api.rs:504-543 | The D1, KV and queue classes have their fixed addresses, whatever script names them. |
| NamespaceKeys.ScopedKeyReads | crates/celld/engine_api.rs:545-550 | Every other key starts with the version prefix and reads back as script and class. |
| HandoffRanking.EligibleExactly | crates/celld/actor.rs:2168-2190 | A peer has no exclusion reason exactly when it is live, reachable, sampled, has room, paces handoffs, speaks this protocol and is not the source. |
| HandoffRanking.ReasonsAreTrue | crates/celld/actor.rs:2168-2190 | A reason is reported for a peer exactly when it is true of it. |
| HandoffRanking.RankIsSortedPermutation | crates/celld/actor.rs:2168-2216 | The ranking is sorted and holds each peer as often as the directory does if it has no exclusion reason, and not at all otherwise. |
| HandoffRanking.EarlierIsLessLoaded | crates/celld/actor.rs:2192-2216 | A peer ranked earlier has fewer resident cells, then fewer sockets, then less memory in use, then the smaller tie-break, then the name that sorts first. |
| HandoffRanking.RankIgnoresOrder | crates/celld/actor.rs:2168-2216 | With distinct node names, two orderings of one directory rank identically, whatever the tie-break hash. |
| HandoffRanking.OrderIsIgnoredExactly | crates/celld/actor.rs:2168-2216 | All orderings of a directory rank identically exactly when no two different eligible peers share a key. |
| HandoffRanking.EqualKeysKeepOrder | crates/celld/actor.rs:2168-2216 | In any directory the peers under one key rank in the order in which they came. |
| HandoffRanking.TwoAddressesShow | crates/celld/actor.rs:2168-2216 | One node listed under two addresses ranks in the order of the listing. |

## Left out

- OwnershipProofs.OneWriterPerEpoch: one server per epoch, not per instant, because the leases that stop a superseded node are left out; such a node can run at its old epoch but acknowledges nothing.
- Leases in the ownership protocol: a node may claim whatever record it reads, which allows more runs than celld does.
- The fleet and follower log proofs of a write; only the bucket proof is modelled.
- LTX file formats, epoch garbage collection, paged chains, preview seeds and `resume_local`.
- The lost-record hold timer and the retry loops of `acquire` and of the claim: a retry is another list of actions.
- Update in place of protocol state: the shared objects and participants of the protocols are values, one step at a time.
- `Bounds::want` and request sizing, progress output and closed pipes of the listing driver; the store's pages are an input.
- `Bounds::validate`: a limit of at least one is a precondition.
- Locations that do not decode as UTF-8, and bucket objects whose locations celld did not encode.
- The unconditional delete of a node record that lands late: no claim is made about what it then removes.
- The marker sweep, the `swept` set, the retry schedule of a garbage-collection pass and the flag a retirement returns for them.
- Enrolment, disconnection and revocation in the control plane; an installation starts enrolled.
- Retries of an unconditional blob write inside the store client.
- The debug assertion that an operation deadline displaces nothing.
- Hashes (the handoff tie-break, HMAC, SHA-256): any function.
- The rebalance filter that follows the ranking, and the age of the peer directory.
- V8, SQLite, HTTP, WebSocket and container plumbing, metrics, telemetry and command-line parsing.
