/**
 * `celld cell list`: a bounded listing that an operator resumes by name, over
 * a store that pages as it likes, orders children by name plus "/", and
 * repeats the child it resumed from.
 */
module CellListing {
  import opened Prelude
  import opened ByteOrder

  const MAX_CELL_SCOPE: nat := 255

  predicate ScopeChar(c: char) {
    'a' <= c <= 'z' || 'A' <= c <= 'Z' || '0' <= c <= '9' || c in "_-.:$"
  }

  predicate ValidCellScope(scope: string) {
    && 0 < |scope| <= MAX_CELL_SCOPE && scope != "." && scope != ".."
    && forall i :: 0 <= i < |scope| ==> ScopeChar(scope[i])
  }

  /** The part before the first ':', if there is one. */
  function ClassOf(scope: string): Option<string> {
    if scope == "" then None
    else if scope[0] == ':' then Some("")
    else
      match ClassOf(scope[1..])
      case None => None
      case Some(rest) => Some([scope[0]] + rest)
  }

  /** A listed child that is a cell of the wanted class. */
  predicate IsRow(class_: Option<string>, child: string) {
    ValidCellScope(child) && (class_.Some? ==> ClassOf(child) == class_)
  }

  function Rows(class_: Option<string>, children: seq<string>): seq<string> {
    if children == [] then []
    else (if IsRow(class_, children[0]) then [children[0]] else []) + Rows(class_, children[1..])
  }

  /** The rows of one page; the page that resumed by name drops the boundary child. */
  function PageRows(class_: Option<string>, page: seq<string>, boundary: Option<string>): seq<string> {
    if page == [] then []
    else (if IsRow(class_, page[0]) && Some(page[0]) != boundary then [page[0]] else [])
         + PageRows(class_, page[1..], boundary)
  }

  datatype Bounds = Bounds(limit: nat, after: Option<string>, all: bool)

  datatype Listed = Listed(printed: seq<string>, more: bool, resume: Option<string>)

  /** What the pages from `i` on contribute: only the first page was resumed by name. */
  function RowsFrom(class_: Option<string>, pages: seq<seq<string>>, i: nat, after: Option<string>): seq<string>
    decreases |pages| - i
  {
    if i >= |pages| then []
    else PageRows(class_, pages[i], if i == 0 then after else None) + RowsFrom(class_, pages, i + 1, after)
  }

  /** What a run over `rows` prints and reports. */
  function Outcome(bounds: Bounds, rows: seq<string>): Listed
    requires bounds.limit > 0
  {
    if bounds.all || |rows| <= bounds.limit then Listed(rows, false, None)
    else Listed(rows[..bounds.limit], true, Some(rows[bounds.limit - 1]))
  }

  /** Prints the rows of one page, and stops at the first row past the bound. */
  method PrintPage(bounds: Bounds, before: seq<string>, page: seq<string>) returns (printed: seq<string>, more: bool)
    requires !bounds.all ==> |before| <= bounds.limit
    ensures more <==> !bounds.all && |before| + |page| > bounds.limit
    ensures printed == if more then (before + page)[..bounds.limit] else before + page
  {
    printed, more := before, false;
    var j := 0;
    while j < |page|
      invariant 0 <= j <= |page|
      invariant printed == before + page[..j]
      invariant !bounds.all ==> |printed| <= bounds.limit
    {
      if !bounds.all && |printed| >= bounds.limit {
        more := true;
        return;
      }
      printed := printed + [page[j]];
      j := j + 1;
    }
  }

  /** With `printed` out and the pages from `i` on still to come, the run prints what it should. */
  ghost predicate Pending(bounds: Bounds, class_: Option<string>, pages: seq<seq<string>>, i: nat,
                          printed: seq<string>) {
    RowsFrom(class_, pages, 0, bounds.after) == printed + RowsFrom(class_, pages, i, bounds.after)
  }

  lemma GoesOn(bounds: Bounds, class_: Option<string>, pages: seq<seq<string>>, i: nat, before: seq<string>)
    requires i < |pages| && Pending(bounds, class_, pages, i, before)
    ensures Pending(bounds, class_, pages, i + 1,
                    before + PageRows(class_, pages[i], if i == 0 then bounds.after else None))
  {
  }

  /** The rows so far decide the outcome once they pass the bound. */
  lemma StopsHere(bounds: Bounds, class_: Option<string>, pages: seq<seq<string>>, i: nat, before: seq<string>)
    requires bounds.limit > 0 && !bounds.all && i < |pages| && Pending(bounds, class_, pages, i, before)
    requires |before + PageRows(class_, pages[i], if i == 0 then bounds.after else None)| > bounds.limit
    ensures var sofar := before + PageRows(class_, pages[i], if i == 0 then bounds.after else None);
      Outcome(bounds, RowsFrom(class_, pages, 0, bounds.after))
        == Listed(sofar[..bounds.limit], true, Some(sofar[..bounds.limit][bounds.limit - 1]))
  {
    var sofar := before + PageRows(class_, pages[i], if i == 0 then bounds.after else None);
    GoesOn(bounds, class_, pages, i, before);
    CutRows(bounds, sofar, RowsFrom(class_, pages, i + 1, bounds.after));
  }

  lemma CutRows(bounds: Bounds, printed: seq<string>, rest: seq<string>)
    requires bounds.limit > 0 && !bounds.all && |printed| > bounds.limit
    ensures Outcome(bounds, printed + rest)
      == Listed(printed[..bounds.limit], true, Some(printed[..bounds.limit][bounds.limit - 1]))
  {
    assert (printed + rest)[..bounds.limit] == printed[..bounds.limit];
  }

  /** Otherwise the last page decides it. */
  lemma FullOutcome(bounds: Bounds, class_: Option<string>, pages: seq<seq<string>>, printed: seq<string>)
    requires bounds.limit > 0 && (!bounds.all ==> |printed| <= bounds.limit)
    requires Pending(bounds, class_, pages, |pages|, printed)
    ensures Outcome(bounds, RowsFrom(class_, pages, 0, bounds.after)) == Listed(printed, false, None)
  {
  }

  /** Fetches page `i`, drops the boundary row when resuming, and prints the rest up to the bound. */
  method TakePage(bounds: Bounds, class_: Option<string>, pages: seq<seq<string>>, i: nat, before: seq<string>)
    returns (printed: seq<string>, more: bool)
    requires bounds.limit > 0 && i < |pages| && Pending(bounds, class_, pages, i, before)
    requires !bounds.all ==> |before| <= bounds.limit
    ensures more ==>
      && !bounds.all && printed != []
      && Outcome(bounds, RowsFrom(class_, pages, 0, bounds.after))
           == Listed(printed, true, Some(printed[|printed| - 1]))
    ensures !more ==> Pending(bounds, class_, pages, i + 1, printed) && (!bounds.all ==> |printed| <= bounds.limit)
  {
    var page := PageRows(class_, pages[i], if i == 0 then bounds.after else None);
    printed, more := PrintPage(bounds, before, page);
    if more {
      StopsHere(bounds, class_, pages, i, before);
    } else {
      GoesOn(bounds, class_, pages, i, before);
    }
  }

  /** The listing driver. `pages` are the store's answers, one per request. */
  method List(bounds: Bounds, class_: Option<string>, pages: seq<seq<string>>) returns (listed: Listed, requests: nat)
    requires bounds.limit > 0 && pages != []
    ensures listed == Outcome(bounds, RowsFrom(class_, pages, 0, bounds.after))
    ensures 1 <= requests <= |pages|
    ensures bounds.all ==> requests == |pages|
  {
    var printed: seq<string> := [];
    requests := 0;
    while requests < |pages|
      invariant requests <= |pages|
      invariant Pending(bounds, class_, pages, requests, printed)
      invariant !bounds.all ==> |printed| <= bounds.limit
    {
      var more: bool;
      printed, more := TakePage(bounds, class_, pages, requests, printed);
      requests := requests + 1;
      if more {
        return Listed(printed, true, Some(printed[|printed| - 1])), requests;
      }
    }
    FullOutcome(bounds, class_, pages, printed);
    listed := Listed(printed, false, None);
  }
}
