/** The bounded listing agrees with the full one, and resuming it loses and repeats nothing. */
module CellListingProofs {
  import opened Prelude
  import opened ByteOrder
  import opened CellListing

  /** The store's order of children: their keys all start with the name plus "/". */
  predicate Before(a: string, b: string) {
    Less(a + "/", b + "/")
  }

  ghost predicate InStoreOrder(children: seq<string>) {
    forall i, j :: 0 <= i < j < |children| ==> Before(children[i], children[j])
  }

  /** A scope's class is what stands before its first ':', so an instance name may hold more of them. */
  lemma {:induction false} ClassIsFirstPart(scope: string, cls: string)
    ensures ClassOf(scope) == Some(cls) <==> ':' !in cls && cls + ":" <= scope
  {
    if scope != "" && scope[0] != ':' {
      if cls == "" {
        assert cls + ":" == ":";
      } else {
        ClassIsFirstPart(scope[1..], cls[1..]);
        assert cls == [cls[0]] + cls[1..] && cls + ":" == [cls[0]] + (cls[1..] + ":");
        assert scope == [scope[0]] + scope[1..];
      }
    } else if scope != "" {
      assert cls == "" ==> cls + ":" == ":" == scope[..1];
      assert cls != "" ==> (cls + ":")[0] == cls[0];
    }
  }

  /** A cell's name is one path segment, and not a step to a parent. */
  lemma ScopeIsOneSegment(scope: string)
    requires ValidCellScope(scope)
    ensures '/' !in scope && scope != "" && scope != "." && scope != ".."
  {
    assert !ScopeChar('/');
  }

  /** A cell name: up to 255 ASCII letters, digits and marks, and not a dot segment. */
  predicate IsCellName(scope: string) {
    && 1 <= |scope| <= 255 && scope != "." && scope != ".."
    && forall i :: 0 <= i < |scope| ==> IsLetter(scope[i]) || IsDigit(scope[i]) || IsMark(scope[i])
  }

  predicate IsLetter(c: char) {
    'A' <= c <= 'Z' || 'a' <= c <= 'z'
  }

  predicate IsDigit(c: char) {
    '0' <= c <= '9'
  }

  predicate IsMark(c: char) {
    c == '_' || c == '-' || c == '.' || c == ':' || c == '$'
  }

  /** What is listed of the children: the cell names, of the wanted class if one is given, and nothing else. */
  lemma {:induction false} RowsExactly(class_: Option<string>, children: seq<string>, x: string)
    ensures x in Rows(class_, children) <==>
      && x in children && IsCellName(x)
      && (class_.Some? ==> ':' !in class_.value && class_.value + ":" <= x)
  {
    if class_.Some? { ClassIsFirstPart(x, class_.value); }
    if children != [] { RowsExactly(class_, children[1..], x); }
  }

  // ---------------------------------------------------------------------
  // What the store lists when it resumes from a name
  // ---------------------------------------------------------------------

  /**
   * The store compares keys with "after/". A key below a child passes exactly
   * when the child comes later or is `after` itself, so the boundary repeats.
   */
  lemma {:induction false} BoundaryRepeats(after: string, child: string, rest: string)
    requires '/' !in after && '/' !in child && rest != ""
    ensures Less(after + "/", child + "/" + rest) <==> child == after || Before(after, child)
  {
    if after == "" {
      assert after + "/" == "/" && (child == "" ==> child + "/" + rest == "/" + rest && ("/" + rest)[1..] == rest);
    } else if child != "" && after[0] == child[0] {
      BoundaryRepeats(after[1..], child[1..], rest);
      assert (after + "/")[1..] == after[1..] + "/";
      assert (child + "/" + rest)[1..] == child[1..] + "/" + rest;
      assert (child + "/")[1..] == child[1..] + "/";
      assert after == [after[0]] + after[1..] && child == [child[0]] + child[1..];
    }
  }

  function After(children: seq<string>, after: Option<string>): seq<string> {
    if children == [] then []
    else (if after.None? || Before(after.value, children[0]) then [children[0]] else []) + After(children[1..], after)
  }

  /** The children a store lists from `after` on, the boundary included. */
  function StoreFrom(children: seq<string>, after: Option<string>): seq<string> {
    if children == [] then []
    else (if after.None? || children[0] == after.value || Before(after.value, children[0]) then [children[0]] else [])
         + StoreFrom(children[1..], after)
  }

  lemma {:induction false} AfterAll(children: seq<string>, after: Option<string>)
    requires after.Some? ==> forall i :: 0 <= i < |children| ==> Before(after.value, children[i])
    ensures After(children, after) == children
  {
    if children != [] {
      AfterAll(children[1..], after);
    }
  }

  /** In store order, the children after a name are a suffix. */
  lemma {:induction false} AfterIsSuffix(children: seq<string>, after: Option<string>) returns (m: nat)
    requires InStoreOrder(children)
    ensures m <= |children| && After(children, after) == children[m..]
  {
    if children == [] {
      m := 0;
    } else if after.None? || Before(after.value, children[0]) {
      m := 0;
      forall i | 0 <= i < |children| && after.Some? ensures Before(after.value, children[i]) {
        if i > 0 { LessTransitive(after.value + "/", children[0] + "/", children[i] + "/"); }
      }
      AfterAll(children, after);
    } else {
      var n := AfterIsSuffix(children[1..], after);
      m := n + 1;
    }
  }

  lemma {:induction false} AfterAt(children: seq<string>, i: nat)
    requires InStoreOrder(children) && i < |children|
    ensures After(children, Some(children[i])) == children[i + 1..]
  {
    if i == 0 {
      LessIrreflexive(children[0] + "/");
      AfterAll(children[1..], Some(children[0]));
    } else {
      if Before(children[i], children[0]) {
        LessTransitive(children[0] + "/", children[i] + "/", children[0] + "/");
        LessIrreflexive(children[0] + "/");
        assert false;
      }
      AfterAt(children[1..], i - 1);
    }
  }

  /** The store repeats the boundary child, and only that, in front of what comes after. */
  lemma {:induction false} StoreFromSplits(children: seq<string>, after: Option<string>)
    requires InStoreOrder(children)
    ensures StoreFrom(children, after) ==
            (if after.Some? && after.value in children then [after.value] else []) + After(children, after)
  {
    if children != [] {
      StoreFromSplits(children[1..], after);
      if after.Some? && children[0] == after.value {
        AfterAt(children, 0);
        LessIrreflexive(children[0] + "/");
        forall i | 0 <= i < |children[1..]| ensures children[1..][i] != after.value {
          assert Before(children[0], children[i + 1]);
        }
      } else if after.Some? && Before(after.value, children[0]) && after.value in children[1..] {
        var i :| 0 <= i < |children[1..]| && children[1..][i] == after.value;
        assert Before(children[0], children[i + 1]);
        LessTransitive(after.value + "/", children[0] + "/", after.value + "/");
        LessIrreflexive(after.value + "/");
        assert false;
      }
    }
  }

  // ---------------------------------------------------------------------
  // One run, whatever the page splits
  // ---------------------------------------------------------------------

  function Flatten(pages: seq<seq<string>>): seq<string> {
    if pages == [] then [] else pages[0] + Flatten(pages[1..])
  }

  lemma Regroup(a: seq<string>, b: seq<string>, c: seq<string>)
    ensures (a + b) + c == a + (b + c)
  {
  }

  lemma {:induction false} RowsAppend(class_: Option<string>, a: seq<string>, b: seq<string>)
    ensures Rows(class_, a + b) == Rows(class_, a) + Rows(class_, b)
    decreases |a|
  {
    if a == [] {
      assert a + b == b;
    } else {
      assert (a + b)[1..] == a[1..] + b;
      RowsAppend(class_, a[1..], b);
      var head := if IsRow(class_, a[0]) then [a[0]] else [];
      Regroup(head, Rows(class_, a[1..]), Rows(class_, b));
    }
  }

  lemma {:induction false} PageRowsWithout(class_: Option<string>, page: seq<string>, boundary: Option<string>)
    requires boundary.Some? ==> boundary.value !in page
    ensures PageRows(class_, page, boundary) == Rows(class_, page)
    decreases |page|
  {
    if page != [] {
      PageRowsWithout(class_, page[1..], boundary);
    }
  }

  lemma {:induction false} RowsFromToken(class_: Option<string>, pages: seq<seq<string>>, i: nat, after: Option<string>)
    requires 1 <= i <= |pages|
    ensures RowsFrom(class_, pages, i, after) == Rows(class_, Flatten(pages[i..]))
    decreases |pages| - i
  {
    if i < |pages| {
      PageRowsWithout(class_, pages[i], None);
      RowsFromToken(class_, pages, i + 1, after);
      assert pages[i..][1..] == pages[i + 1..];
      RowsAppend(class_, pages[i], Flatten(pages[i + 1..]));
    }
  }

  /**
   * The one way a run can repeat a row: the store answers the resuming
   * request with an empty page, so the boundary child comes back on a page
   * fetched by token, which drops nothing.
   */
  predicate RepeatsBoundary(class_: Option<string>, children: seq<string>, after: Option<string>,
                            pages: seq<seq<string>>)
    requires pages != []
  {
    after.Some? && after.value in children && IsRow(class_, after.value) && pages[0] == []
  }

  lemma FirstSplits(first: seq<string>, rest: seq<string>, boundary: string, tail: seq<string>)
    requires first != [] && first + rest == [boundary] + tail && boundary !in tail
    ensures first[0] == boundary && first[1..] + rest == tail && boundary !in first[1..]
  {
    assert first[0] == (first + rest)[0] == boundary;
    assert first[1..] + rest == (first + rest)[1..] == tail;
    assert forall x :: x in first[1..] ==> x in first[1..] + rest;
  }

  lemma BoundaryDropped(class_: Option<string>, page: seq<string>, boundary: string)
    requires page != [] && page[0] == boundary && boundary !in page[1..]
    ensures PageRows(class_, page, Some(boundary)) == Rows(class_, page[1..])
  {
    PageRowsWithout(class_, page[1..], Some(boundary));
  }

  /** A first page that starts with the boundary child drops it. */
  lemma ResumedRows(class_: Option<string>, first: seq<string>, rest: seq<string>, boundary: string, tail: seq<string>)
    requires first != [] && first + rest == [boundary] + tail && boundary !in tail
    ensures PageRows(class_, first, Some(boundary)) + Rows(class_, rest) == Rows(class_, tail)
  {
    FirstSplits(first, rest, boundary, tail);
    BoundaryDropped(class_, first, boundary);
    RowsAppend(class_, first[1..], rest);
  }

  /** The rows of a run are exactly the rows after the cursor, in store order, unless it repeats the boundary. */
  lemma RunRows(class_: Option<string>, children: seq<string>, after: Option<string>, pages: seq<seq<string>>)
    requires InStoreOrder(children) && pages != [] && Flatten(pages) == StoreFrom(children, after)
    ensures RowsFrom(class_, pages, 0, after) ==
            (if RepeatsBoundary(class_, children, after, pages) then [after.value] else [])
            + Rows(class_, After(children, after))
  {
    var first, rest := pages[0], Flatten(pages[1..]);
    StoreFromSplits(children, after);
    RowsFromToken(class_, pages, 1, after);
    if after.Some? && after.value in children {
      BoundaryIsNotAfter(children, after.value);
      if first == [] {
        assert first + rest == rest;
        RowsAppend(class_, [after.value], After(children, after));
        assert Rows(class_, [after.value]) == if IsRow(class_, after.value) then [after.value] else [];
      } else {
        ResumedRows(class_, first, rest, after.value, After(children, after));
      }
    } else {
      assert first + rest == After(children, after);
      NotAmongAfter(children, after);
      PageRowsWithout(class_, first, after);
      RowsAppend(class_, first, rest);
    }
  }

  lemma BoundaryIsNotAfter(children: seq<string>, after: string)
    requires InStoreOrder(children) && after in children
    ensures after !in After(children, Some(after))
  {
    var i :| 0 <= i < |children| && children[i] == after;
    AfterAt(children, i);
    LessIrreflexive(after + "/");
    var tail := children[i + 1..];
    forall j | 0 <= j < |tail| ensures tail[j] != after {
      assert Before(children[i], children[i + 1 + j]);
    }
  }

  lemma NotAmongAfter(children: seq<string>, after: Option<string>)
    requires InStoreOrder(children) && (after.Some? ==> after.value !in children)
    ensures after.Some? ==> after.value !in After(children, after)
  {
    var m := AfterIsSuffix(children, after);
  }

  // ---------------------------------------------------------------------
  // One run
  // ---------------------------------------------------------------------

  /** Row `j` is some child, and the rows after that child are the rows after row `j`. */
  lemma {:induction false} RowAt(class_: Option<string>, children: seq<string>, j: nat) returns (k: nat)
    requires j < |Rows(class_, children)|
    ensures k < |children| && children[k] == Rows(class_, children)[j]
    ensures Rows(class_, children[k + 1..]) == Rows(class_, children)[j + 1..]
    decreases |children|
  {
    var row := IsRow(class_, children[0]);
    if row && j == 0 {
      k := 0;
    } else {
      var k1 := RowAt(class_, children[1..], if row then j - 1 else j);
      k := k1 + 1;
      assert children[1..][k1 + 1..] == children[k + 1..];
    }
  }

  /** Row `j` of a suffix, among all children. */
  lemma RowInSuffix(class_: Option<string>, children: seq<string>, m: nat, j: nat) returns (i: nat)
    requires m <= |children| && j < |Rows(class_, children[m..])|
    ensures i < |children| && children[i] == Rows(class_, children[m..])[j]
    ensures Rows(class_, children[i + 1..]) == Rows(class_, children[m..])[j + 1..]
  {
    var k := RowAt(class_, children[m..], j);
    i := m + k;
    assert children[m..][k] == children[i];
    assert children[m..][k + 1..] == children[i + 1..];
  }

  /** Resuming after the last printed row leaves exactly the rows that were not printed. */
  lemma ResumeLeavesTheRest(class_: Option<string>, children: seq<string>, after: Option<string>, j: nat)
    requires InStoreOrder(children) && j < |Rows(class_, After(children, after))|
    ensures var rows := Rows(class_, After(children, after));
      Rows(class_, After(children, Some(rows[j]))) == rows[j + 1..]
  {
    var m := AfterIsSuffix(children, after);
    var i := RowInSuffix(class_, children, m, j);
    AfterAt(children, i);
  }

  /** The store's answers to one run: pages of its own choosing, empty ones included. */
  predicate Answers(pages: seq<seq<string>>, children: seq<string>, after: Option<string>) {
    pages != [] && Flatten(pages) == StoreFrom(children, after)
  }

  /** One bounded run over those answers, as `List` computes it. */
  function RunOf(class_: Option<string>, limit: nat, after: Option<string>, pages: seq<seq<string>>): Listed
    requires limit > 0
  {
    Outcome(Bounds(limit, after, false), RowsFrom(class_, pages, 0, after))
  }

  lemma {:induction false} RowsAmong(class_: Option<string>, children: seq<string>, x: string)
    requires x in Rows(class_, children)
    ensures x in children
  {
    if x in Rows(class_, children[1..]) { RowsAmong(class_, children[1..], x); }
  }

  /** The boundary is not among the rows after it. */
  lemma BoundaryIsNoRowAfter(class_: Option<string>, children: seq<string>, after: string)
    requires InStoreOrder(children) && after in children
    ensures after !in Rows(class_, After(children, Some(after)))
  {
    BoundaryIsNotAfter(children, after);
    if after in Rows(class_, After(children, Some(after))) {
      RowsAmong(class_, After(children, Some(after)), after);
    }
  }

  /** A row in front that is not among the others always shows. */
  lemma FirstPrinted(bounds: Bounds, first: string, rows: seq<string>, repeats: bool)
    requires bounds.limit > 0 && (repeats ==> first !in rows)
    ensures Outcome(bounds, (if repeats then [first] else []) + rows) == Outcome(bounds, rows) <==> !repeats
  {
    if repeats {
      assert Outcome(bounds, [first] + rows).printed[0] == first;
      assert rows != [] ==> Outcome(bounds, rows).printed[0] == rows[0];
    } else {
      assert [] + rows == rows;
    }
  }

  /**
   * A run prints the first `limit` rows after the cursor, and says "more" exactly when another row exists,
   * exactly when it does not repeat the boundary.
   */
  lemma RunPrintsFirstRows(class_: Option<string>, children: seq<string>, limit: nat, after: Option<string>,
                           pages: seq<seq<string>>)
    requires InStoreOrder(children) && limit > 0 && Answers(pages, children, after)
    ensures RunOf(class_, limit, after, pages)
        == Outcome(Bounds(limit, after, false), Rows(class_, After(children, after)))
      <==> !RepeatsBoundary(class_, children, after, pages)
  {
    var repeats, rows := RepeatsBoundary(class_, children, after, pages), Rows(class_, After(children, after));
    RunRows(class_, children, after, pages);
    if repeats { BoundaryIsNoRowAfter(class_, children, after.value); }
    FirstPrinted(Bounds(limit, after, false), if repeats then after.value else "", rows, repeats);
  }

  // ---------------------------------------------------------------------
  // Chains of runs
  // ---------------------------------------------------------------------

  /** Runs that each continue with the cursor the previous one printed, until one reports no more. */
  ghost predicate IsChain(class_: Option<string>, children: seq<string>, limit: nat, after: Option<string>,
                          runs: seq<seq<seq<string>>>)
    requires limit > 0
    decreases |runs|
  {
    && runs != [] && Answers(runs[0], children, after)
    && var listed := RunOf(class_, limit, after, runs[0]);
       if listed.more then IsChain(class_, children, limit, listed.resume, runs[1..]) else |runs| == 1
  }

  /** Everything a chain prints. */
  function Printed(class_: Option<string>, limit: nat, after: Option<string>, runs: seq<seq<seq<string>>>): seq<string>
    requires limit > 0
    decreases |runs|
  {
    if runs == [] then []
    else
      var listed := RunOf(class_, limit, after, runs[0]);
      listed.printed + Printed(class_, limit, listed.resume, runs[1..])
  }

  /** No run of the chain meets an empty page where it resumes. */
  predicate NeverRepeats(class_: Option<string>, children: seq<string>, limit: nat, after: Option<string>,
                         runs: seq<seq<seq<string>>>)
    requires limit > 0
    decreases |runs|
  {
    runs != [] && runs[0] != [] ==>
      && !RepeatsBoundary(class_, children, after, runs[0])
      && NeverRepeats(class_, children, limit, RunOf(class_, limit, after, runs[0]).resume, runs[1..])
  }

  /** What a run that reports more, and repeats nothing, has printed, and where it resumes. */
  lemma MoreLeavesTheRest(class_: Option<string>, children: seq<string>, limit: nat, after: Option<string>,
                          pages: seq<seq<string>>)
    requires InStoreOrder(children) && limit > 0 && Answers(pages, children, after)
    requires !RepeatsBoundary(class_, children, after, pages) && RunOf(class_, limit, after, pages).more
    ensures var listed := RunOf(class_, limit, after, pages);
      && listed.resume.Some? && |listed.printed| == limit
      && listed.printed + Rows(class_, After(children, listed.resume)) == Rows(class_, After(children, after))
  {
    RunPrintsFirstRows(class_, children, limit, after, pages);
    ResumeLeavesTheRest(class_, children, after, limit - 1);
  }

  lemma LastPrintsTheRest(class_: Option<string>, children: seq<string>, limit: nat, after: Option<string>,
                          pages: seq<seq<string>>)
    requires InStoreOrder(children) && limit > 0 && Answers(pages, children, after)
    requires !RepeatsBoundary(class_, children, after, pages) && !RunOf(class_, limit, after, pages).more
    ensures RunOf(class_, limit, after, pages).printed == Rows(class_, After(children, after))
  {
    RunPrintsFirstRows(class_, children, limit, after, pages);
  }

  /** A run that repeats the boundary prints it first. */
  lemma RepeatPrintsBoundary(class_: Option<string>, children: seq<string>, limit: nat, after: Option<string>,
                             pages: seq<seq<string>>)
    requires InStoreOrder(children) && limit > 0 && Answers(pages, children, after)
    requires RepeatsBoundary(class_, children, after, pages)
    ensures var printed := RunOf(class_, limit, after, pages).printed;
      printed != [] && printed[0] == after.value && after.value !in Rows(class_, After(children, after))
  {
    RunRows(class_, children, after, pages);
    BoundaryIsNoRowAfter(class_, children, after.value);
  }

  /**
   * A chain of bounded runs prints what one full listing prints, every row once and in order, exactly when no
   * run meets an empty page where it resumes.
   */
  lemma {:induction false} ChainPrintsEverything(class_: Option<string>, children: seq<string>, limit: nat,
                                                 after: Option<string>, runs: seq<seq<seq<string>>>)
    requires InStoreOrder(children) && limit > 0 && IsChain(class_, children, limit, after, runs)
    ensures Printed(class_, limit, after, runs) == Rows(class_, After(children, after)) <==>
      NeverRepeats(class_, children, limit, after, runs)
    decreases |runs|
  {
    var listed := RunOf(class_, limit, after, runs[0]);
    if RepeatsBoundary(class_, children, after, runs[0]) {
      RepeatPrintsBoundary(class_, children, limit, after, runs[0]);
      assert Printed(class_, limit, after, runs)[0] == listed.printed[0];
    } else if listed.more {
      MoreLeavesTheRest(class_, children, limit, after, runs[0]);
      ChainPrintsEverything(class_, children, limit, listed.resume, runs[1..]);
      SameTail(listed.printed, Printed(class_, limit, listed.resume, runs[1..]),
               Rows(class_, After(children, listed.resume)));
    } else {
      LastPrintsTheRest(class_, children, limit, after, runs[0]);
      assert runs[1..] == [];
    }
  }

  lemma SameTail(head: seq<string>, a: seq<string>, b: seq<string>)
    ensures head + a == head + b <==> a == b
  {
    assert (head + a)[|head|..] == a && (head + b)[|head|..] == b;
  }

  /** Each run that reports more leaves `limit` rows fewer, or one less than that when it repeats the boundary. */
  lemma ChainShrinks(class_: Option<string>, children: seq<string>, limit: nat, after: Option<string>,
                     pages: seq<seq<string>>)
    requires InStoreOrder(children) && limit > 0 && Answers(pages, children, after)
    requires RunOf(class_, limit, after, pages).more
    ensures var listed := RunOf(class_, limit, after, pages);
      && listed.resume.Some?
      && |Rows(class_, After(children, listed.resume))| == |Rows(class_, After(children, after))| -
           if RepeatsBoundary(class_, children, after, pages) then limit - 1 else limit
  {
    if RepeatsBoundary(class_, children, after, pages) {
      RunRows(class_, children, after, pages);
      var rows := Rows(class_, After(children, after));
      if limit > 1 {
        assert ([after.value] + rows)[limit - 1] == rows[limit - 2];
        ResumeLeavesTheRest(class_, children, after, limit - 2);
      }
    } else {
      MoreLeavesTheRest(class_, children, limit, after, pages);
    }
  }

  /** Two cells, one row a run: an empty first page makes the second run print the first row again. */
  lemma EmptyPageRepeatsRow()
    ensures var children, first, second := ["a", "b"], [["a", "b"]], [[], ["a", "b"]];
      && InStoreOrder(children) && Answers(first, children, None) && Answers(second, children, Some("a"))
      && RunOf(None, 1, None, first) == Listed(["a"], true, Some("a"))
      && RunOf(None, 1, Some("a"), second) == Listed(["a"], true, Some("a"))
  {
    var children, first, second := ["a", "b"], [["a", "b"]], [[], ["a", "b"]];
    TwoCells();
    assert first[1..] == [] && second[1..] == [["a", "b"]] && [["a", "b"]][1..] == [];
    assert Flatten([["a", "b"]]) == ["a", "b"] + Flatten([]);
    assert Flatten(second) == [] + Flatten([["a", "b"]]);
    RunRows(None, children, None, first);
    RunRows(None, children, Some("a"), second);
    assert RowsFrom(None, second, 0, Some("a")) == ["a"] + ["b"] == ["a", "b"];
  }

  lemma TwoCells()
    ensures var children := ["a", "b"];
      && InStoreOrder(children) && StoreFrom(children, None) == children == StoreFrom(children, Some("a"))
      && Rows(None, After(children, None)) == children && Rows(None, After(children, Some("a"))) == ["b"]
      && IsRow(None, "a")
  {
    var children := ["a", "b"];
    assert Before("a", "b") && !Before("a", "a") by { LessIrreflexive("a/"); }
    assert children[1..] == ["b"] && ["b"][1..] == [];
    assert StoreFrom(["b"], None) == ["b"] == StoreFrom(["b"], Some("a"));
    assert After(["b"], None) == ["b"] == After(["b"], Some("a"));
    assert IsRow(None, "a") && IsRow(None, "b");
    assert Rows(None, ["b"]) == ["b"];
  }
}
