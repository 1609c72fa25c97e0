/**
 * Ranking of the peers that may adopt a released cell. `tie` is the cell's
 * tie-break hash of a node name, of which nothing is assumed.
 */
module HandoffRanking {
  import opened Prelude
  import opened ByteOrder

  const PROTOCOL_VERSION: nat := 5

  datatype Peer = Peer(
    node: string, addr: string, expires: nat, protocol: nat, sampled: nat,
    residentCells: nat, hostWebsockets: nat, rssBytes: nat, inUseBytes: Option<nat>,
    pressured: bool, memoryHeadroom: Option<bool>, pacedHandoff: bool)

  type Tie = string -> nat

  predicate ReportsAdoptionCapacity(p: Peer) {
    !p.pressured && p.memoryHeadroom != Some(false)
  }

  function Reason(excluded: bool, reason: string): seq<string> {
    if excluded then [reason] else []
  }

  /** Every reason why `p` cannot adopt, in the order they are reported. */
  function Exclusions(p: Peer, source: string, now: nat): seq<string> {
    Reason(p.node == source, "source") + Reason(p.expires <= now, "expiry") + Reason(p.addr == "", "addr")
    + Reason(p.protocol != PROTOCOL_VERSION, "protocol") + Reason(p.sampled == 0, "sampled_ms")
    + Reason(!ReportsAdoptionCapacity(p), "reports_adoption_capacity") + Reason(!p.pacedHandoff, "paced_handoff")
  }

  predicate Eligible(p: Peer, source: string, now: nat) {
    Exclusions(p, source, now) == []
  }

  datatype RankKey = RankKey(cells: nat, websockets: nat, bytes: nat, tie: nat, node: string)

  function KeyOf(tie: Tie, p: Peer): RankKey {
    RankKey(p.residentCells, p.hostWebsockets,
            if p.inUseBytes.Some? then p.inUseBytes.value else p.rssBytes, tie(p.node), p.node)
  }

  predicate Before(a: RankKey, b: RankKey) {
    if a.cells != b.cells then a.cells < b.cells
    else if a.websockets != b.websockets then a.websockets < b.websockets
    else if a.bytes != b.bytes then a.bytes < b.bytes
    else if a.tie != b.tie then a.tie < b.tie
    else Less(a.node, b.node)
  }

  function Filter(peers: seq<Peer>, source: string, now: nat): seq<Peer> {
    if peers == [] then []
    else (if Eligible(peers[0], source, now) then [peers[0]] else []) + Filter(peers[1..], source, now)
  }

  /** Places `p` before the first peer it does not follow, so that equal keys keep their order. */
  function Insert(tie: Tie, p: Peer, ranked: seq<Peer>): seq<Peer> {
    if ranked == [] || !Before(KeyOf(tie, ranked[0]), KeyOf(tie, p)) then [p] + ranked
    else [ranked[0]] + Insert(tie, p, ranked[1..])
  }

  function Sort(tie: Tie, peers: seq<Peer>): seq<Peer> {
    if peers == [] then [] else Insert(tie, peers[0], Sort(tie, peers[1..]))
  }

  function Rank(tie: Tie, peers: seq<Peer>, source: string, now: nat): seq<Peer> {
    Sort(tie, Filter(peers, source, now))
  }

  // ---------------------------------------------------------------------
  // The key order
  // ---------------------------------------------------------------------

  lemma BeforeTransitive(a: RankKey, b: RankKey, c: RankKey)
    requires Before(a, b) && Before(b, c)
    ensures Before(a, c)
  {
    if Less(a.node, b.node) && Less(b.node, c.node) { LessTransitive(a.node, b.node, c.node); }
  }

  lemma BeforeAsymmetric(a: RankKey, b: RankKey)
    requires Before(a, b)
    ensures !Before(b, a)
  {
    if Before(b, a) {
      BeforeTransitive(a, b, a);
      LessIrreflexive(a.node);
    }
  }

  lemma BeforeTotal(a: RankKey, b: RankKey)
    ensures a == b || Before(a, b) || Before(b, a)
  {
    LessTotal(a.node, b.node);
  }

  /** Not after: the order is weak in the other direction. */
  lemma NotAfterTransitive(a: RankKey, b: RankKey, c: RankKey)
    requires !Before(b, a) && !Before(c, b)
    ensures !Before(c, a)
  {
    BeforeTotal(a, b);
    BeforeTotal(b, c);
    if Before(c, a) {
      if a == b || b == c {
      } else {
        BeforeTransitive(a, b, c);
        BeforeAsymmetric(a, c);
      }
    }
  }

  // ---------------------------------------------------------------------
  // Sorted permutations
  // ---------------------------------------------------------------------

  predicate Sorted(tie: Tie, s: seq<Peer>) {
    forall i, j :: 0 <= i < j < |s| ==> !Before(KeyOf(tie, s[j]), KeyOf(tie, s[i]))
  }

  lemma {:induction false} InsertIsPermutation(tie: Tie, p: Peer, ranked: seq<Peer>)
    ensures multiset(Insert(tie, p, ranked)) == multiset{p} + multiset(ranked)
  {
    if ranked != [] && Before(KeyOf(tie, ranked[0]), KeyOf(tie, p)) {
      InsertIsPermutation(tie, p, ranked[1..]);
      assert ranked == [ranked[0]] + ranked[1..];
    }
  }

  lemma SortedCons(tie: Tie, p: Peer, s: seq<Peer>)
    requires Sorted(tie, s) && forall q :: q in multiset(s) ==> !Before(KeyOf(tie, q), KeyOf(tie, p))
    ensures Sorted(tie, [p] + s)
  {
    forall i | 0 <= i < |s| ensures !Before(KeyOf(tie, s[i]), KeyOf(tie, p)) {
      assert s[i] in multiset(s);
    }
  }

  lemma HeadIsLeast(tie: Tie, s: seq<Peer>, q: Peer)
    requires s != [] && Sorted(tie, s) && q in multiset(s)
    ensures !Before(KeyOf(tie, q), KeyOf(tie, s[0]))
  {
    var i :| 0 <= i < |s| && s[i] == q;
    if i == 0 && Before(KeyOf(tie, q), KeyOf(tie, q)) { BeforeAsymmetric(KeyOf(tie, q), KeyOf(tie, q)); }
  }

  lemma {:induction false} InsertKeepsSorted(tie: Tie, p: Peer, ranked: seq<Peer>)
    requires Sorted(tie, ranked)
    ensures Sorted(tie, Insert(tie, p, ranked))
  {
    if ranked == [] {
    } else if Before(KeyOf(tie, ranked[0]), KeyOf(tie, p)) {
      var head, rest := ranked[0], Insert(tie, p, ranked[1..]);
      InsertKeepsSorted(tie, p, ranked[1..]);
      InsertIsPermutation(tie, p, ranked[1..]);
      assert ranked == [head] + ranked[1..];
      BeforeAsymmetric(KeyOf(tie, head), KeyOf(tie, p));
      forall q | q in multiset(rest) ensures !Before(KeyOf(tie, q), KeyOf(tie, head)) {
        if q != p { HeadIsLeast(tie, ranked, q); }
      }
      SortedCons(tie, head, rest);
    } else {
      forall q | q in multiset(ranked) ensures !Before(KeyOf(tie, q), KeyOf(tie, p)) {
        HeadIsLeast(tie, ranked, q);
        NotAfterTransitive(KeyOf(tie, p), KeyOf(tie, ranked[0]), KeyOf(tie, q));
      }
      SortedCons(tie, p, ranked);
    }
  }

  lemma {:induction false} SortIsSortedPermutation(tie: Tie, peers: seq<Peer>)
    ensures Sorted(tie, Sort(tie, peers)) && multiset(Sort(tie, peers)) == multiset(peers)
  {
    if peers != [] {
      SortIsSortedPermutation(tie, peers[1..]);
      InsertKeepsSorted(tie, peers[0], Sort(tie, peers[1..]));
      InsertIsPermutation(tie, peers[0], Sort(tie, peers[1..]));
      assert peers == [peers[0]] + peers[1..];
    }
  }

  /** Filtering keeps each eligible peer as often as it came, and nothing else. */
  lemma {:induction false} FilterCounts(peers: seq<Peer>, source: string, now: nat, p: Peer)
    ensures multiset(Filter(peers, source, now))[p] == if Eligible(p, source, now) then multiset(peers)[p] else 0
  {
    if peers != [] {
      FilterCounts(peers[1..], source, now, p);
      assert peers == [peers[0]] + peers[1..];
    }
  }

  /** Equal keys mean equal peers. */
  ghost predicate KeysTell(tie: Tie, peers: multiset<Peer>) {
    forall p, q :: p in peers && q in peers && KeyOf(tie, p) == KeyOf(tie, q) ==> p == q
  }

  lemma HeadsAgree(tie: Tie, a: seq<Peer>, b: seq<Peer>)
    requires a != [] && b != [] && Sorted(tie, a) && Sorted(tie, b)
    requires multiset(a) == multiset(b) && KeysTell(tie, multiset(a))
    ensures a[0] == b[0]
  {
    assert a[0] in multiset(b) && b[0] in multiset(a);
    HeadIsLeast(tie, a, b[0]);
    HeadIsLeast(tie, b, a[0]);
    BeforeTotal(KeyOf(tie, a[0]), KeyOf(tie, b[0]));
  }

  lemma TailCounts(s: seq<Peer>)
    requires s != []
    ensures multiset(s[1..]) == multiset(s) - multiset{s[0]} && s == [s[0]] + s[1..]
  {
    assert s == [s[0]] + s[1..];
  }

  lemma TailIsSorted(tie: Tie, s: seq<Peer>)
    requires s != [] && Sorted(tie, s)
    ensures Sorted(tie, s[1..])
  {
  }

  lemma TailKeysTell(tie: Tie, s: seq<Peer>)
    requires s != [] && KeysTell(tie, multiset(s))
    ensures KeysTell(tie, multiset(s[1..]))
  {
    TailCounts(s);
  }

  lemma SameSize(a: seq<Peer>, b: seq<Peer>)
    requires multiset(a) == multiset(b)
    ensures |a| == |b|
  {
    assert |multiset(a)| == |a| && |multiset(b)| == |b|;
  }

  /** A multiset whose keys tell its peers apart has one sorted sequence. */
  lemma {:induction false} SortedIsUnique(tie: Tie, a: seq<Peer>, b: seq<Peer>)
    requires Sorted(tie, a) && Sorted(tie, b) && multiset(a) == multiset(b) && KeysTell(tie, multiset(a))
    ensures a == b
    decreases |a|
  {
    SameSize(a, b);
    if a != [] {
      HeadsAgree(tie, a, b);
      TailCounts(a);
      TailCounts(b);
      TailIsSorted(tie, a);
      TailIsSorted(tie, b);
      TailKeysTell(tie, a);
      SortedIsUnique(tie, a[1..], b[1..]);
    }
  }

  // ---------------------------------------------------------------------
  // Theorems
  // ---------------------------------------------------------------------

  /** The ranking is a sorted permutation of exactly the peers with no exclusion reason. */
  lemma RankIsSortedPermutation(tie: Tie, peers: seq<Peer>, source: string, now: nat, p: Peer)
    ensures Sorted(tie, Rank(tie, peers, source, now))
    ensures multiset(Rank(tie, peers, source, now))[p] == if Eligible(p, source, now) then multiset(peers)[p] else 0
  {
    SortIsSortedPermutation(tie, Filter(peers, source, now));
    FilterCounts(peers, source, now, p);
  }

  /** Who may adopt: a live, reachable, sampled peer with room that speaks this protocol, other than the source. */
  lemma EligibleExactly(p: Peer, source: string, now: nat)
    ensures Eligible(p, source, now) <==>
      && p.node != source && now < p.expires && p.addr != "" && p.protocol == 5
      && 0 < p.sampled && !p.pressured && p.memoryHeadroom != Some(false) && p.pacedHandoff
  {
    var e := Exclusions(p, source, now);
    assert |e| == |Reason(p.node == source, "source")| + |Reason(p.expires <= now, "expiry")|
      + |Reason(p.addr == "", "addr")| + |Reason(p.protocol != PROTOCOL_VERSION, "protocol")|
      + |Reason(p.sampled == 0, "sampled_ms")|
      + |Reason(!ReportsAdoptionCapacity(p), "reports_adoption_capacity")|
      + |Reason(!p.pacedHandoff, "paced_handoff")|;
  }

  /** The reasons reported are exactly the true ones. */
  lemma ReasonsAreTrue(p: Peer, source: string, now: nat, reason: string)
    ensures reason in Exclusions(p, source, now) <==>
      || (reason == "source" && p.node == source) || (reason == "expiry" && p.expires <= now)
      || (reason == "addr" && p.addr == "") || (reason == "protocol" && p.protocol != 5)
      || (reason == "sampled_ms" && p.sampled == 0)
      || (reason == "reports_adoption_capacity" && (p.pressured || p.memoryHeadroom == Some(false)))
      || (reason == "paced_handoff" && !p.pacedHandoff)
  {
    ReasonIn(p.node == source, "source", reason);
    ReasonIn(p.expires <= now, "expiry", reason);
    ReasonIn(p.addr == "", "addr", reason);
    ReasonIn(p.protocol != PROTOCOL_VERSION, "protocol", reason);
    ReasonIn(p.sampled == 0, "sampled_ms", reason);
    ReasonIn(!ReportsAdoptionCapacity(p), "reports_adoption_capacity", reason);
    ReasonIn(!p.pacedHandoff, "paced_handoff", reason);
    InSeven(Reason(p.node == source, "source"), Reason(p.expires <= now, "expiry"), Reason(p.addr == "", "addr"),
            Reason(p.protocol != PROTOCOL_VERSION, "protocol"), Reason(p.sampled == 0, "sampled_ms"),
            Reason(!ReportsAdoptionCapacity(p), "reports_adoption_capacity"),
            Reason(!p.pacedHandoff, "paced_handoff"), reason);
  }

  /** A peer with everything against it is reported with every reason, in this order. */
  lemma EveryReasonInOrder(p: Peer, source: string, now: nat)
    requires p.node == source && p.expires <= now && p.addr == "" && p.protocol != 5 && p.sampled == 0
    requires (p.pressured || p.memoryHeadroom == Some(false)) && !p.pacedHandoff
    ensures Exclusions(p, source, now) ==
      ["source", "expiry", "addr", "protocol", "sampled_ms", "reports_adoption_capacity", "paced_handoff"]
  {
  }

  lemma ReasonIn(excluded: bool, text: string, reason: string)
    ensures reason in Reason(excluded, text) <==> excluded && reason == text
  {
  }

  lemma InSeven<T>(a: seq<T>, b: seq<T>, c: seq<T>, d: seq<T>, e: seq<T>, f: seq<T>, g: seq<T>, x: T)
    ensures x in a + b + c + d + e + f + g <==>
      x in a || x in b || x in c || x in d || x in e || x in f || x in g
  {
  }

  function BytesOf(p: Peer): nat {
    match p.inUseBytes
    case Some(bytes) => bytes
    case None => p.rssBytes
  }

  predicate SameLoad(a: Peer, b: Peer) {
    a.residentCells == b.residentCells && a.hostWebsockets == b.hostWebsockets && BytesOf(a) == BytesOf(b)
  }

  /**
   * A peer ranked earlier has fewer cells, then fewer sockets, then less memory in use; among peers of one load the
   * smaller tie-break comes first, and under one tie-break the name that sorts first.
   */
  lemma EarlierIsLessLoaded(tie: Tie, peers: seq<Peer>, source: string, now: nat, i: nat, j: nat)
    requires i < j < |Rank(tie, peers, source, now)|
    ensures var a, b := Rank(tie, peers, source, now)[i], Rank(tie, peers, source, now)[j];
      || a.residentCells < b.residentCells
      || (a.residentCells == b.residentCells && a.hostWebsockets < b.hostWebsockets)
      || (a.residentCells == b.residentCells && a.hostWebsockets == b.hostWebsockets && BytesOf(a) < BytesOf(b))
      || (SameLoad(a, b) && tie(a.node) < tie(b.node))
      || (SameLoad(a, b) && tie(a.node) == tie(b.node) && (a.node == b.node || Less(a.node, b.node)))
  {
    SortIsSortedPermutation(tie, Filter(peers, source, now));
    var a, b := Rank(tie, peers, source, now)[i], Rank(tie, peers, source, now)[j];
    LessTotal(a.node, b.node);
  }

  // ---------------------------------------------------------------------
  // When the order of the directory matters
  // ---------------------------------------------------------------------

  /** The peers under one key, in order. */
  function Under(tie: Tie, s: seq<Peer>, key: RankKey): seq<Peer> {
    if s == [] then [] else (if KeyOf(tie, s[0]) == key then [s[0]] else []) + Under(tie, s[1..], key)
  }

  lemma {:induction false} InsertIsStable(tie: Tie, p: Peer, ranked: seq<Peer>, key: RankKey)
    ensures Under(tie, Insert(tie, p, ranked), key) ==
      (if KeyOf(tie, p) == key then [p] else []) + Under(tie, ranked, key)
  {
    if ranked == [] || !Before(KeyOf(tie, ranked[0]), KeyOf(tie, p)) {
      assert ([p] + ranked)[1..] == ranked;
    } else {
      var rest := Insert(tie, p, ranked[1..]);
      assert ([ranked[0]] + rest)[1..] == rest;
      InsertIsStable(tie, p, ranked[1..], key);
      LessIrreflexive(p.node);
    }
  }

  /** Sorting never changes the order of peers under one key. */
  lemma {:induction false} SortIsStable(tie: Tie, peers: seq<Peer>, key: RankKey)
    ensures Under(tie, Sort(tie, peers), key) == Under(tie, peers, key)
  {
    if peers != [] {
      SortIsStable(tie, peers[1..], key);
      InsertIsStable(tie, peers[0], Sort(tie, peers[1..]), key);
    }
  }

  /** Equal keys in the directory mean equal peers, so two orderings rank alike. */
  lemma TellingKeysIgnoreOrder(tie: Tie, a: seq<Peer>, b: seq<Peer>, source: string, now: nat)
    requires multiset(a) == multiset(b) && KeysTell(tie, multiset(Filter(a, source, now)))
    ensures Rank(tie, a, source, now) == Rank(tie, b, source, now)
  {
    var fa, fb := Filter(a, source, now), Filter(b, source, now);
    SortIsSortedPermutation(tie, fa);
    SortIsSortedPermutation(tie, fb);
    forall p ensures multiset(fa)[p] == multiset(fb)[p] {
      FilterCounts(a, source, now, p);
      FilterCounts(b, source, now, p);
    }
    assert multiset(fa) == multiset(fb);
    SortedIsUnique(tie, Sort(tie, fa), Sort(tie, fb));
  }

  function Without(s: seq<Peer>, p: Peer): seq<Peer>
    requires p in s
  {
    if s[0] == p then s[1..] else [s[0]] + Without(s[1..], p)
  }

  lemma {:induction false} WithoutCounts(s: seq<Peer>, p: Peer)
    requires p in s
    ensures multiset(s) == multiset{p} + multiset(Without(s, p))
  {
    assert s == [s[0]] + s[1..];
    if s[0] != p { WithoutCounts(s[1..], p); }
  }

  /** Two peers in front of a directory, in either order. */
  lemma TwoInFront(tie: Tie, p: Peer, q: Peer, rest: seq<Peer>, source: string, now: nat)
    requires p != q && KeyOf(tie, p) == KeyOf(tie, q) && Eligible(p, source, now) && Eligible(q, source, now)
    ensures Rank(tie, [p, q] + rest, source, now) != Rank(tie, [q, p] + rest, source, now)
  {
    var key := KeyOf(tie, p);
    FrontUnder(tie, p, q, rest, source, now);
    FrontUnder(tie, q, p, rest, source, now);
    SortIsStable(tie, Filter([p, q] + rest, source, now), key);
    SortIsStable(tie, Filter([q, p] + rest, source, now), key);
  }

  lemma FrontUnder(tie: Tie, p: Peer, q: Peer, rest: seq<Peer>, source: string, now: nat)
    requires KeyOf(tie, p) == KeyOf(tie, q) && Eligible(p, source, now) && Eligible(q, source, now)
    ensures var under := Under(tie, Filter([p, q] + rest, source, now), KeyOf(tie, p)); under != [] && under[0] == p
  {
    var all := [p, q] + rest;
    assert all[0] == p;
    var kept := Filter(all, source, now);
    assert kept == [p] + Filter(all[1..], source, now);
  }

  /** Any two peers of a directory can be listed first. */
  lemma BringForward(a: seq<Peer>, p: Peer, q: Peer) returns (rest: seq<Peer>)
    requires p != q && p in multiset(a) && q in multiset(a)
    ensures multiset([p, q] + rest) == multiset(a) == multiset([q, p] + rest)
  {
    WithoutCounts(a, p);
    var most := Without(a, p);
    assert q in multiset(most);
    WithoutCounts(most, q);
    rest := Without(most, q);
    assert multiset([p, q] + rest) == multiset{p} + (multiset{q} + multiset(rest));
    assert multiset([q, p] + rest) == multiset{p} + (multiset{q} + multiset(rest));
  }

  /** A reordering that ranks differently, when two eligible peers share a key. */
  lemma SharedKeyShows(tie: Tie, a: seq<Peer>, source: string, now: nat, p: Peer, q: Peer) returns (b: seq<Peer>)
    requires p != q && KeyOf(tie, p) == KeyOf(tie, q)
    requires p in multiset(Filter(a, source, now)) && q in multiset(Filter(a, source, now))
    ensures multiset(b) == multiset(a) && Rank(tie, b, source, now) != Rank(tie, a, source, now)
  {
    FilterCounts(a, source, now, p);
    FilterCounts(a, source, now, q);
    var rest := BringForward(a, p, q);
    TwoInFront(tie, p, q, rest, source, now);
    b := [p, q] + rest;
    if Rank(tie, b, source, now) == Rank(tie, a, source, now) { b := [q, p] + rest; }
  }

  /** One node listed twice, under two addresses: the one listed first ranks first. */
  lemma TwoAddressesShow(tie: Tie, p: Peer, addr: string, source: string, now: nat)
    requires Eligible(p, source, now) && addr != "" && addr != p.addr
    ensures var q := p.(addr := addr); Rank(tie, [p, q], source, now) != Rank(tie, [q, p], source, now)
  {
    var q := p.(addr := addr);
    EligibleExactly(p, source, now);
    EligibleExactly(q, source, now);
    TwoInFront(tie, p, q, [], source, now);
    assert [p, q] + [] == [p, q] && [q, p] + [] == [q, p];
  }

  /** Every ordering of a directory ranks alike exactly when no two different eligible peers share a key. */
  lemma OrderIsIgnoredExactly(tie: Tie, a: seq<Peer>, source: string, now: nat)
    ensures (forall b :: multiset(b) == multiset(a) ==> Rank(tie, b, source, now) == Rank(tie, a, source, now)) <==>
      KeysTell(tie, multiset(Filter(a, source, now)))
  {
    var kept := multiset(Filter(a, source, now));
    if KeysTell(tie, kept) {
      forall b | multiset(b) == multiset(a) ensures Rank(tie, b, source, now) == Rank(tie, a, source, now) {
        TellingKeysIgnoreOrder(tie, a, b, source, now);
      }
    } else {
      var p, q :| p in kept && q in kept && KeyOf(tie, p) == KeyOf(tie, q) && p != q;
      var b := SharedKeyShows(tie, a, source, now, p, q);
    }
  }

  predicate DistinctNodes(peers: seq<Peer>) {
    forall i, j :: 0 <= i < j < |peers| ==> peers[i].node != peers[j].node
  }

  lemma DistinctNodesTell(tie: Tie, peers: seq<Peer>)
    requires DistinctNodes(peers)
    ensures KeysTell(tie, multiset(peers))
  {
    forall p, q | p in multiset(peers) && q in multiset(peers) && KeyOf(tie, p) == KeyOf(tie, q) ensures p == q {
      var i :| 0 <= i < |peers| && peers[i] == p;
      var j :| 0 <= j < |peers| && peers[j] == q;
    }
  }

  /** With distinct node names two listings of one directory rank alike, whatever the tie-break. */
  lemma RankIgnoresOrder(tie: Tie, a: seq<Peer>, b: seq<Peer>, source: string, now: nat)
    requires multiset(a) == multiset(b) && DistinctNodes(a)
    ensures Rank(tie, a, source, now) == Rank(tie, b, source, now)
  {
    DistinctNodesTell(tie, a);
    forall p ensures multiset(Filter(a, source, now))[p] <= multiset(a)[p] {
      FilterCounts(a, source, now, p);
    }
    assert KeysTell(tie, multiset(Filter(a, source, now)));
    TellingKeysIgnoreOrder(tie, a, b, source, now);
  }

  /** Peers under one key rank in the order they came, in any directory. */
  lemma EqualKeysKeepOrder(tie: Tie, peers: seq<Peer>, source: string, now: nat, key: RankKey)
    ensures Under(tie, Rank(tie, peers, source, now), key) == Under(tie, Filter(peers, source, now), key)
  {
    SortIsStable(tie, Filter(peers, source, now), key);
  }
}
