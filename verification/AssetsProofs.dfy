/** Redirect chains end, and where they end. */
module AssetsProofs {
  import opened Prelude
  import opened Assets

  /**
   * What `is_canonical_asset_path` implies: a leading '/', no empty segment,
   * and no trailing '/' except for "/" itself.
   */
  predicate Canonical(path: Path) {
    && path != "" && path[0] == '/'
    && (path == "/" || !EndsWith(path, "/"))
    && forall i :: 0 <= i < |path| - 1 ==> !(path[i] == '/' && path[i + 1] == '/')
  }

  predicate CanonicalIndex(entries: set<Path>) {
    forall p <- entries :: Canonical(p)
  }

  /** A file whose whole name is ".html". */
  predicate Nameless(asset: Path) {
    EndsWith(asset, "/.html")
  }

  // ---------------------------------------------------------------------
  // Shapes of canonical paths
  // ---------------------------------------------------------------------

  lemma SplitSuffix(s: Path, suffix: Path)
    requires EndsWith(s, suffix)
    ensures s == Without(s, suffix) + suffix
  {
  }

  lemma EndsWithLast(s: Path)
    ensures EndsWith(s, "/") <==> s != "" && s[|s| - 1] == '/'
  {
    if s != "" { assert s[|s| - 1..] == [s[|s| - 1]]; }
  }

  lemma SuffixSuffix(s: Path, long: Path, short: Path)
    requires EndsWith(s, long) && EndsWith(long, short)
    ensures EndsWith(s, short)
  {
    assert s[|s| - |short|..] == s[|s| - |long|..][|long| - |short|..];
  }

  /** The part of a canonical index page before "/index.html" ends in no slash. */
  lemma IndexBase(asset: Path)
    requires Canonical(asset) && EndsWith(asset, INDEX)
    ensures !EndsWith(Without(asset, INDEX), "/")
    ensures EndsWith(asset, HTML)
  {
    var base := Without(asset, INDEX);
    SplitSuffix(asset, INDEX);
    EndsWithLast(base);
    if base != "" {
      assert asset[|base|] == '/';
    }
    assert EndsWith(INDEX, HTML);
    SuffixSuffix(asset, INDEX, HTML);
  }

  lemma NamelessBase(asset: Path)
    requires EndsWith(asset, HTML)
    ensures Nameless(asset) <==> EndsWith(Without(asset, HTML), "/")
  {
    var base := Without(asset, HTML);
    SplitSuffix(asset, HTML);
    EndsWithLast(base);
    if base != "" {
      assert asset[|asset| - 6..] == [base[|base| - 1]] + HTML;
      assert "/.html" == ['/'] + HTML;
      assert ([base[|base| - 1]] + HTML)[0] == base[|base| - 1];
    }
  }

  /** The part before ".html" ends in a slash only for a nameless file, and then in one. */
  lemma PlainBase(asset: Path)
    requires Canonical(asset) && EndsWith(asset, HTML)
    ensures var base := Without(asset, HTML);
      if Nameless(asset) then asset == TrimSlashes(base) + "/.html" && base == TrimSlashes(base) + "/"
      else TrimSlashes(base) == base && base != ""
  {
    var base := Without(asset, HTML);
    SplitSuffix(asset, HTML);
    NamelessBase(asset);
    EndsWithLast(base);
    if EndsWith(base, "/") {
      var d := base[..|base| - 1];
      EndsWithLast(d);
      assert d == "" || d[|d| - 1] != '/' by {
        if d != "" { assert asset[|d| - 1] == d[|d| - 1] && asset[|d|] == '/'; }
      }
      assert TrimSlashes(base) == TrimSlashes(d) == d;
      assert asset == d + "/.html" by { assert base == d + "/" && "/" + HTML == "/.html"; }
    }
  }

  /** A canonical HTML path is always shorter than its file. */
  lemma CanonicalIsShorter(asset: Path, html: HtmlHandling)
    requires EndsWith(asset, HTML)
    ensures |CanonicalHtmlPath(asset, html)| < |asset|
  {
  }

  lemma AppendSuffix(s: Path, suffix: Path)
    ensures EndsWith(s + suffix, suffix) && Without(s + suffix, suffix) == s
  {
  }

  /** `d` plus "/index.html" has the canonical path `d` plus "/", or `d` when slashes are dropped. */
  lemma CanonicalOfIndex(d: Path, html: HtmlHandling)
    requires !EndsWith(d, "/")
    ensures CanonicalHtmlPath(d + INDEX, html) == if html == DropSlash && d != "" then d else d + "/"
  {
    AppendSuffix(d, INDEX);
    if d == "" { assert d + INDEX == INDEX; } else { assert |d + INDEX| > |INDEX|; }
  }

  lemma IndexSuffix(d: Path)
    ensures EndsWith(d + HTML, INDEX) ==> EndsWith(d, "/index")
  {
    if EndsWith(d + HTML, INDEX) {
      assert d[|d| - 6..] == (d + HTML)[|d + HTML| - 11..][..6];
      assert INDEX[..6] == "/index";
    }
  }

  lemma LastOfSuffix(s: Path, suffix: Path)
    requires suffix != "" && EndsWith(s, suffix)
    ensures s[|s| - 1] == suffix[|suffix| - 1]
  {
    assert s[|s| - |suffix|..][|suffix| - 1] == s[|s| - 1];
  }

  /** `d` plus ".html" that is no index page: its canonical path is `d`, with a slash only when forced. */
  lemma CanonicalOfPlain(d: Path, html: HtmlHandling)
    requires d != "" && !EndsWith(d, "/") && !EndsWith(d, "/index")
    ensures CanonicalHtmlPath(d + HTML, html) == if html == ForceSlash then d + "/" else d
  {
    AppendSuffix(d, HTML);
    IndexSuffix(d);
  }

  /** An index page whose path is given without ".html". */
  lemma CanonicalOfIndexFile(d: Path, html: HtmlHandling)
    requires EndsWith(d, "/index")
    ensures |CanonicalHtmlPath(d + HTML, html)| < |d|
  {
    SplitSuffix(d, "/index");
    var p := Without(d, "/index");
    assert d + HTML == p + INDEX;
    AppendSuffix(p, INDEX);
    if p == "" { assert d + HTML == INDEX; } else { assert |d + HTML| > |INDEX|; }
  }

  // ---------------------------------------------------------------------
  // Where a redirect points
  // ---------------------------------------------------------------------

  lemma AppendEnding(s: Path, mid: Path, suffix: Path)
    requires EndsWith(mid, suffix)
    ensures EndsWith(s + mid, suffix)
  {
    assert EndsWith(s + mid, mid);
    SuffixSuffix(s + mid, mid, suffix);
  }

  lemma HtmlEndings()
    ensures EndsWith(HTML, HTML) && EndsWith(INDEX, HTML) && EndsWith("index.html", HTML)
  {
    assert INDEX[6..] == HTML && "index.html"[5..] == HTML;
  }

  lemma CandidatesAreHtml(path: Path, c: Path)
    requires c in Candidates(path)
    ensures EndsWith(c, HTML)
  {
    HtmlEndings();
    if !EndsWith(path, HTML) {
      AppendEnding(path, HTML, HTML);
      AppendEnding(path, INDEX, HTML);
      AppendEnding(path, "index.html", HTML);
      AppendEnding(TrimSlashes(path), HTML, HTML);
    }
  }

  /** A redirect names the canonical path of the HTML file found for `path`. */
  lemma RedirectSource(index: Index, path: Path, n: bool) returns (asset: Path)
    requires CanonicalIndex(index.entries) && RouteTo(index, path, n).Redirect?
    ensures FirstIn(index.entries, Candidates(path)) == Some(asset)
    ensures index.html != NoHtml && asset in index.entries && Canonical(asset) && EndsWith(asset, HTML)
    ensures RouteTo(index, path, n).location == CanonicalHtmlPath(asset, index.html) != path
  {
    asset := FirstIn(index.entries, Candidates(path)).value;
    CandidatesAreHtml(path, asset);
  }

  lemma FirstOfTwo(entries: set<Path>, a: Path, b: Path)
    ensures FirstIn(entries, [a, b]) == if a in entries then Some(a) else if b in entries then Some(b) else None
  {
    assert [a, b][1..] == [b];
  }

  lemma SlashCandidates(d: Path)
    requires d != "" && !EndsWith(d, "/")
    ensures Candidates(d + "/") == [d + INDEX, d + HTML]
    ensures !EndsWith(d + "/", HTML)
  {
    var path := d + "/";
    AppendSuffix(d, "/");
    assert path[|path| - 1] == '/';
    if EndsWith(path, HTML) { LastOfSuffix(path, HTML); }
    if EndsWith(path, "/index") { LastOfSuffix(path, "/index"); }
    assert TrimSlashes(path) == d by { assert path[..|path| - 1] == d; }
    assert path + "index.html" == d + INDEX;
  }

  /** A directory-like target: a redirect from it is strictly shorter. */
  lemma FromSlashTarget(index: Index, d: Path, n: bool)
    requires d != "" && !EndsWith(d, "/") && (index.html == Auto || index.html == ForceSlash)
    requires CanonicalIndex(index.entries) && RouteTo(index, d + "/", n).Redirect?
    ensures |RouteTo(index, d + "/", n).location| < |d + "/"|
  {
    var asset := RedirectSource(index, d + "/", n);
    SlashCandidates(d);
    FirstOfTwo(index.entries, d + INDEX, d + HTML);
    if asset == d + INDEX {
      CanonicalOfIndex(d, index.html);
    } else if EndsWith(d, "/index") {
      CanonicalOfIndexFile(d, index.html);
    } else {
      CanonicalOfPlain(d, index.html);
    }
  }

  /**
   * The one detour: the file `d/.html` redirects to `d`, and there the index
   * page of the directory `d` redirects to `d/`.
   */
  predicate Detour(index: Index, d: Path) {
    && index.html == Auto
    && d + "/.html" in index.entries && d + INDEX in index.entries
    && d !in index.entries && d + HTML !in index.entries
    && !EndsWith(d, HTML) && !EndsWith(d, "/index")
  }

  /** A name that says neither ".html" nor "/index" is answered by its file or by its directory. */
  lemma FromName(index: Index, d: Path, n: bool)
    requires !EndsWith(d, "/") && (index.html == Auto || (index.html == DropSlash && d != ""))
    requires CanonicalIndex(index.entries) && !EndsWith(d, HTML) && !EndsWith(d, "/index")
    requires RouteTo(index, d, n).Redirect?
    ensures && index.html == Auto && RouteTo(index, d, n).location == d + "/" && d + INDEX in index.entries
            && d !in index.entries && d + HTML !in index.entries
  {
    assert Candidates(d) == [d + HTML, d + INDEX];
    FirstOfTwo(index.entries, d + HTML, d + INDEX);
    if d == "" {
      assert (d + HTML)[0] == '.';
    } else {
      CanonicalOfPlain(d, index.html);
    }
    CanonicalOfIndex(d, index.html);
  }

  /** A name that does say so is answered by the one file it names. */
  lemma FromFileName(index: Index, d: Path, n: bool)
    requires CanonicalIndex(index.entries) && RouteTo(index, d, n).Redirect?
    requires EndsWith(d, HTML) || EndsWith(d, "/index")
    ensures |RouteTo(index, d, n).location| < |d|
  {
    var asset := RedirectSource(index, d, n);
    if EndsWith(d, HTML) {
      assert Candidates(d) == [d];
      CanonicalIsShorter(d, index.html);
    } else {
      assert Candidates(d) == [d + HTML];
      CanonicalOfIndexFile(d, index.html);
    }
  }

  /** A file-like target: a redirect from it is strictly shorter, except to the directory of the same name. */
  lemma FromPlainTarget(index: Index, d: Path, n: bool)
    requires !EndsWith(d, "/") && (index.html == Auto || (index.html == DropSlash && d != ""))
    requires CanonicalIndex(index.entries)
    requires RouteTo(index, d, n).Redirect?
    ensures var r := RouteTo(index, d, n).location;
      || |r| < |d|
      || (&& index.html == Auto && r == d + "/" && d + INDEX in index.entries
          && d !in index.entries && d + HTML !in index.entries && !EndsWith(d, HTML) && !EndsWith(d, "/index"))
  {
    if EndsWith(d, HTML) || EndsWith(d, "/index") {
      FromFileName(index, d, n);
    } else {
      FromName(index, d, n);
    }
  }

  // ---------------------------------------------------------------------
  // Theorems
  // ---------------------------------------------------------------------

  /** Every redirect target: "/", or a name with one slash behind it, or a name without. */
  lemma TargetShape(asset: Path, html: HtmlHandling)
    requires html != NoHtml && Canonical(asset) && EndsWith(asset, HTML)
    ensures var q := CanonicalHtmlPath(asset, html);
      || q == "/"
      || (html != DropSlash && |q| > 1 && !EndsWith(q[..|q| - 1], "/") && q == q[..|q| - 1] + "/")
      || (html == DropSlash && q != "" && !EndsWith(q, "/"))
      || (html == Auto && !EndsWith(q, "/") && (asset == q + HTML || asset == q + "/.html"))
  {
    var q := CanonicalHtmlPath(asset, html);
    if EndsWith(asset, INDEX) {
      var d := Without(asset, INDEX);
      IndexBase(asset);
      SplitSuffix(asset, INDEX);
      CanonicalOfIndex(d, html);
      assert q == d + "/" ==> q[..|q| - 1] == d;
    } else {
      PlainBase(asset);
      SplitSuffix(asset, HTML);
      var d := TrimSlashes(Without(asset, HTML));
      assert q == d + "/" ==> q[..|q| - 1] == d;
    }
  }

  /** Every redirect after the first is strictly shorter, unless it is the detour; and nothing follows a detour. */
  lemma SecondRedirect(index: Index, p: Path, q: Path, r: Path, n: bool)
    requires CanonicalIndex(index.entries)
    requires RouteTo(index, p, n) == Redirect(q) && RouteTo(index, q, n) == Redirect(r)
    ensures |r| < |q| || (Detour(index, q) && r == q + "/")
  {
    var asset := RedirectSource(index, p, n);
    TargetShape(asset, index.html);
    if q == "/" {
      RootNeverRedirects(index, n);
    } else if EndsWith(q, "/") {
      FromSlashTarget(index, q[..|q| - 1], n);
    } else {
      FromPlainTarget(index, q, n);
    }
  }

  lemma RootNeverRedirects(index: Index, n: bool)
    ensures !RouteTo(index, "/", n).Redirect?
    ensures index.html != NoHtml && INDEX in index.entries ==> RouteTo(index, "/", n).Asset?
  {
    assert "/"[0..] == "/";
    assert "/" + "index.html" == INDEX;
    assert Candidates("/") == [INDEX];
  }

  lemma NamelessIsNoIndex(d: Path)
    ensures !EndsWith(d + "/.html", INDEX)
  {
    assert (d + "/.html")[|d|] == '/';
    assert forall s: Path :: EndsWith(s, INDEX) ==> s[|s| - 11..][5] == 'x' == s[|s| - 6];
  }

  lemma CanonicalOfNameless(d: Path)
    requires Canonical(d + "/.html")
    ensures CanonicalHtmlPath(d + "/.html", Auto) == d && EndsWith(d + "/.html", HTML) && !EndsWith(d, "/")
  {
    NamelessIsNoIndex(d);
    assert EndsWith("/.html", HTML);
    AppendEnding(d, "/.html", HTML);
    AppendSuffix(d, "/.html");
    PlainBase(d + "/.html");
    var base := Without(d + "/.html", HTML);
    assert |TrimSlashes(base)| == |d|;
    assert TrimSlashes(base) == (d + "/.html")[..|d|] == d;
  }

  /** The file of a detour redirects to its directory's name, without a slash. */
  lemma DetourFile(index: Index, d: Path, n: bool)
    requires CanonicalIndex(index.entries) && Detour(index, d)
    ensures RouteTo(index, d + "/.html", n) == Redirect(d) && !EndsWith(d, "/")
  {
    CanonicalOfNameless(d);
  }

  /** That name redirects on, to the directory's index page. */
  lemma DetourName(index: Index, d: Path, n: bool)
    requires Detour(index, d) && !EndsWith(d, "/")
    ensures RouteTo(index, d, n) == Redirect(d + "/")
  {
    assert Candidates(d) == [d + HTML, d + INDEX];
    FirstOfTwo(index.entries, d + HTML, d + INDEX);
    CanonicalOfIndex(d, index.html);
  }

  /** The detour is real: from its file, two redirects lead to the directory, which is then served. */
  lemma DetourTaken(index: Index, d: Path, n: bool)
    requires CanonicalIndex(index.entries) && Detour(index, d)
    ensures RouteTo(index, d + "/.html", n) == Redirect(d)
    ensures RouteTo(index, d, n) == Redirect(d + "/")
    ensures RouteTo(index, d + "/", n).Asset?
  {
    DetourFile(index, d, n);
    DetourName(index, d, n);
    if d == "" {
      assert d + "/" == "/" && d + INDEX == INDEX;
      RootNeverRedirects(index, n);
    } else {
      SlashCandidates(d);
      FirstOfTwo(index.entries, d + INDEX, d + HTML);
      CanonicalOfIndex(d, index.html);
    }
  }

  /** Every redirect from the target of a redirect is strictly shorter than that target. */
  ghost predicate AlwaysShorter(index: Index, n: bool) {
    forall p :: RouteTo(index, p, n).Redirect? ==>
      var next := RouteTo(index, RouteTo(index, p, n).location, n);
      next.Redirect? ==> |next.location| < |RouteTo(index, p, n).location|
  }

  /** Exactly the indexes without a detour always redirect to something shorter. */
  lemma ShorterExactlyWithoutDetour(index: Index, n: bool)
    requires CanonicalIndex(index.entries)
    ensures AlwaysShorter(index, n) <==> forall d :: !Detour(index, d)
  {
    if d :| Detour(index, d) {
      DetourTaken(index, d, n);
      assert |RouteTo(index, d, n).location| == |RouteTo(index, d + "/.html", n).location| + 1;
    } else {
      forall p | RouteTo(index, p, n).Redirect? && RouteTo(index, RouteTo(index, p, n).location, n).Redirect?
        ensures |RouteTo(index, RouteTo(index, p, n).location, n).location| < |RouteTo(index, p, n).location|
      {
        var q := RouteTo(index, p, n).location;
        SecondRedirect(index, p, q, RouteTo(index, q, n).location, n);
      }
    }
  }

  /** In particular every index without a file named just ".html". */
  lemma ShorterWithoutNameless(index: Index, n: bool)
    requires CanonicalIndex(index.entries) && forall p <- index.entries :: !Nameless(p)
    ensures AlwaysShorter(index, n)
  {
    forall d ensures !Detour(index, d) {
      AppendSuffix(d, "/.html");
      if Detour(index, d) { assert Nameless(d + "/.html"); }
    }
    ShorterExactlyWithoutDetour(index, n);
  }

  /** A longer second redirect is the last one. */
  lemma DetourIsLast(index: Index, p: Path, q: Path, r: Path, t: Path, n: bool)
    requires CanonicalIndex(index.entries)
    requires RouteTo(index, p, n) == Redirect(q) && RouteTo(index, q, n) == Redirect(r)
    requires RouteTo(index, r, n) == Redirect(t)
    ensures |r| < |q|
  {
    SecondRedirect(index, p, q, r, n);
    if Detour(index, q) { DetourTaken(index, q, n); }
  }

  /** `paths` follows the redirects of `route`. */
  predicate Chain(route: Path -> Route, paths: seq<Path>) {
    |paths| > 1 ==> route(paths[0]) == Redirect(paths[1]) && Chain(route, paths[1..])
  }

  /** Of three redirects in a row from `p`, the second leads to a shorter path. */
  predicate Shrinks(route: Path -> Route, p: Path) {
    route(p).Redirect? ==>
      var q := route(p).location;
      route(q).Redirect? && route(route(q).location).Redirect? ==> |route(q).location| < |q|
  }

  lemma {:induction false} ShrinkingChainsEnd(route: Path -> Route, p: Path, paths: seq<Path>)
    requires paths != [] && Chain(route, paths) && route(p) == Redirect(paths[0])
    requires forall p :: Shrinks(route, p)
    ensures |paths| <= |paths[0]| + 2
    decreases |paths|
  {
    if |paths| > 2 {
      assert Chain(route, paths[1..]);
      assert Shrinks(route, p);
      ShrinkingChainsEnd(route, paths[0], paths[1..]);
    }
  }

  /** Every redirect chain ends, whatever the index and the mode. */
  lemma RedirectChainsEnd(index: Index, n: bool, paths: seq<Path>)
    requires CanonicalIndex(index.entries) && |paths| >= 2 && Chain(p => RouteTo(index, p, n), paths)
    ensures |paths| <= |paths[1]| + 3
  {
    var route := p => RouteTo(index, p, n);
    forall p ensures Shrinks(route, p) {
      if route(p).Redirect? {
        var q := route(p).location;
        if route(q).Redirect? && route(route(q).location).Redirect? {
          DetourIsLast(index, p, q, route(q).location, route(route(q).location).location, n);
        }
      }
    }
    ShrinkingChainsEnd(route, paths[0], paths[1..]);
  }

  // ---------------------------------------------------------------------
  // A redirect leads to its page
  // ---------------------------------------------------------------------

  /** Nothing answers the name `d` before its HTML files do. */
  predicate Open(index: Index, d: Path) {
    d !in index.entries && !EndsWith(d, HTML) && !EndsWith(d, "/index")
  }

  /** No other file takes the canonical path of `asset`. */
  predicate Unshadowed(index: Index, asset: Path)
    requires EndsWith(asset, HTML)
  {
    if asset == INDEX then "/" !in index.entries
    else if EndsWith(asset, INDEX) then
      var d := Without(asset, INDEX);
      index.html == DropSlash ==> Open(index, d) && d + HTML !in index.entries
    else
      var d := Without(asset, HTML);
      if index.html == ForceSlash then d + INDEX !in index.entries else Open(index, d)
  }

  /** A page answers its canonical path exactly when it is the first candidate there and no plain file is. */
  lemma AnswersExactly(index: Index, asset: Path, n: bool)
    requires index.html != NoHtml && asset != INDEX
    ensures var q := CanonicalHtmlPath(asset, index.html);
      asset != q ==>
        (RouteTo(index, q, n) == Asset(asset, true) <==>
          (EndsWith(q, HTML) || q !in index.entries) && FirstIn(index.entries, Candidates(q)) == Some(asset))
  {
  }

  /** What answers a name without a slash. */
  lemma FirstForName(entries: set<Path>, d: Path, asset: Path)
    requires d != "" && !EndsWith(d, "/") && !EndsWith(d, HTML) && !EndsWith(d, "/index") && asset in entries
    requires asset == d + HTML || asset == d + INDEX
    ensures FirstIn(entries, Candidates(d)) == Some(asset) <==> asset == d + HTML || d + HTML !in entries
  {
    assert Candidates(d) == [d + HTML, d + INDEX];
    FirstOfTwo(entries, d + HTML, d + INDEX);
  }

  lemma FirstForAnyName(index: Index, d: Path, asset: Path)
    requires d != "" && !EndsWith(d, "/") && asset in index.entries
    requires asset == d + HTML || asset == d + INDEX
    requires CanonicalHtmlPath(asset, index.html) == d
    ensures (EndsWith(d, HTML) || d !in index.entries) && FirstIn(index.entries, Candidates(d)) == Some(asset) <==>
      Open(index, d) && (asset == d + HTML || d + HTML !in index.entries)
  {
    if EndsWith(d, HTML) {
      assert Candidates(d) == [d] && |asset| > |d|;
      FirstOfOne(index.entries, d);
    } else if EndsWith(d, "/index") {
      assert Candidates(d) == [d + HTML];
      FirstOfOne(index.entries, d + HTML);
      IndexFileIsNotName(d, index.html);
    } else {
      FirstForName(index.entries, d, asset);
    }
  }

  lemma NotRoot(d: Path, asset: Path, html: HtmlHandling)
    requires CanonicalHtmlPath(asset, html) == d && !EndsWith(d, "/")
    ensures asset != INDEX
  {
    assert "/"[0..] == "/";
  }

  lemma ServesName(index: Index, d: Path, asset: Path, n: bool)
    requires d != "" && !EndsWith(d, "/") && index.html != NoHtml && asset in index.entries
    requires asset == d + HTML || asset == d + INDEX
    requires CanonicalHtmlPath(asset, index.html) == d
    ensures RouteTo(index, d, n) == Asset(asset, true) <==>
      Open(index, d) && (asset == d + HTML || d + HTML !in index.entries)
  {
    assert |asset| > |d|;
    NotRoot(d, asset, index.html);
    AnswersExactly(index, asset, n);
    FirstForAnyName(index, d, asset);
  }

  lemma FirstOfOne(entries: set<Path>, a: Path)
    ensures FirstIn(entries, [a]) == if a in entries then Some(a) else None
  {
  }

  /** `d` plus ".html" where `d` ends in "/index" has a shorter canonical path, so `d` is not its name. */
  lemma IndexFileIsNotName(d: Path, html: HtmlHandling)
    requires EndsWith(d, "/index")
    ensures CanonicalHtmlPath(d + HTML, html) != d
  {
    CanonicalOfIndexFile(d, html);
  }

  /** What answers a name with a slash. */
  lemma ServesSlash(index: Index, d: Path, asset: Path, n: bool)
    requires d != "" && !EndsWith(d, "/") && index.html != NoHtml && asset in index.entries
    requires CanonicalIndex(index.entries) && (asset == d + HTML || asset == d + INDEX)
    requires CanonicalHtmlPath(asset, index.html) == d + "/"
    ensures RouteTo(index, d + "/", n) == Asset(asset, true) <==> asset == d + INDEX || d + INDEX !in index.entries
  {
    assert |CanonicalHtmlPath(INDEX, index.html)| == 1;
    assert asset != INDEX;
    assert |asset| > |d + "/"|;
    AnswersExactly(index, asset, n);
    SlashCandidates(d);
    FirstOfTwo(index.entries, d + INDEX, d + HTML);
    AppendSuffix(d, "/");
    assert d + "/" !in index.entries;
    assert |d + INDEX| != |d + HTML|;
  }

  lemma ServesRoot(index: Index, n: bool)
    requires index.html != NoHtml && INDEX in index.entries
    ensures RouteTo(index, "/", n) == Asset(INDEX, true) <==> "/" !in index.entries
  {
    assert "/"[0..] == "/";
    assert "/" + "index.html" == INDEX;
    assert Candidates("/") == [INDEX];
    FirstOfOne(index.entries, INDEX);
  }

  /** Candidates for a path have one of three lengths beside its own. */
  lemma CandidateLengths(path: Path, c: Path)
    requires c in Candidates(path)
    ensures || |c| == |path| || |c| == |path| + 5 || |c| == |path| + 11
            || (EndsWith(path, "/") && (|c| == |path| + 10 || |c| == |TrimSlashes(path)| + 5))
  {
  }

  /** A name, or a directory of that name. */
  predicate Names(q: Path, d: Path) {
    (q == d && !EndsWith(q, "/")) || (q == d + "/" && EndsWith(q, "/") && TrimSlashes(q) == d)
  }

  /** No candidate for a name is six characters longer than it. */
  lemma NotACandidate(q: Path, d: Path, asset: Path)
    requires Names(q, d) && |asset| == |d| + 6
    ensures asset != q && asset !in Candidates(q)
  {
    if asset in Candidates(q) { CandidateLengths(q, asset); }
  }

  lemma NotFirst(entries: set<Path>, candidates: seq<Path>, asset: Path)
    requires asset !in candidates
    ensures FirstIn(entries, candidates) != Some(asset)
  {
  }

  lemma NamelessIsNotFirst(entries: set<Path>, asset: Path, html: HtmlHandling)
    requires Canonical(asset) && Nameless(asset) && html != NoHtml
    ensures var q := CanonicalHtmlPath(asset, html);
      asset != INDEX && asset != q && FirstIn(entries, Candidates(q)) != Some(asset)
  {
    var q, d := CanonicalHtmlPath(asset, html), Without(asset, "/.html");
    SplitSuffix(asset, "/.html");
    NamelessTarget(d, html);
    NotACandidate(q, d, asset);
    NotFirst(entries, Candidates(q), asset);
  }

  /** A page named just ".html" never answers its canonical path. */
  lemma NamelessIsNotServed(index: Index, asset: Path, n: bool)
    requires CanonicalIndex(index.entries) && asset in index.entries && Nameless(asset) && index.html != NoHtml
    ensures RouteTo(index, CanonicalHtmlPath(asset, index.html), n) != Asset(asset, true)
  {
    NamelessIsNotFirst(index.entries, asset, index.html);
    AnswersExactly(index, asset, n);
  }

  lemma NamelessTarget(d: Path, html: HtmlHandling)
    requires Canonical(d + "/.html") && html != NoHtml
    ensures d + "/.html" != INDEX && Names(CanonicalHtmlPath(d + "/.html", html), d)
  {
    CanonicalOfNameless(d);
    NamelessIsNoIndex(d);
    assert EndsWith(INDEX, INDEX);
    AppendSuffix(d, "/");
    assert (d + "/")[..|d|] == d;
    PlainBase(d + "/.html");
  }

  /** The canonical path of a page answers with that page exactly when no other file takes it. */
  lemma CanonicalIsServed(index: Index, asset: Path, n: bool)
    requires CanonicalIndex(index.entries) && asset in index.entries && EndsWith(asset, HTML)
    requires index.html != NoHtml && !Nameless(asset)
    ensures RouteTo(index, CanonicalHtmlPath(asset, index.html), n) == Asset(asset, true) <==> Unshadowed(index, asset)
  {
    if asset == INDEX {
      ServesRoot(index, n);
    } else if EndsWith(asset, INDEX) {
      var d := Without(asset, INDEX);
      SplitSuffix(asset, INDEX);
      IndexBase(asset);
      CanonicalOfIndex(d, index.html);
      if index.html == DropSlash { ServesName(index, d, asset, n); } else { ServesSlash(index, d, asset, n); }
    } else {
      var d := Without(asset, HTML);
      SplitSuffix(asset, HTML);
      PlainBase(asset);
      if index.html == ForceSlash { ServesSlash(index, d, asset, n); } else { ServesName(index, d, asset, n); }
    }
  }

  // ---------------------------------------------------------------------
  // The nearest not-found page
  // ---------------------------------------------------------------------

  /** `a` is `d`, a directory above it, or the root. */
  predicate Ancestor(a: Path, d: Path) {
    a == d || a == "" || a + "/" <= d
  }

  lemma {:induction false} ParentAncestors(a: Path, d: Path)
    requires d != "" && a != d
    ensures Ancestor(a, d) <==> Ancestor(a, Parent(d))
  {
    var e := d[..|d| - 1];
    assert d == e + [d[|d| - 1]];
    if d[|d| - 1] == '/' {
      assert a == e ==> a + "/" == d;
    } else if e != "" && a != e {
      ParentAncestors(a, e);
      assert a + "/" <= d <==> a + "/" <= e;
    } else {
      ParentIsAbove(d);
    }
  }

  lemma {:induction false} ParentIsAbove(d: Path)
    requires d != ""
    ensures Parent(d) == "" || Parent(d) + "/" <= d
  {
    var e := d[..|d| - 1];
    assert d == e + [d[|d| - 1]];
    if d[|d| - 1] != '/' && e != "" { ParentIsAbove(e); }
  }

  predicate HasPage(entries: set<Path>, directory: Path) {
    directory + "/404.html" in entries
  }

  /** The page found sits in the deepest directory, at or above `d`, that has one. */
  lemma {:induction false} NearestIsNearest(entries: set<Path>, d: Path) returns (home: Path)
    ensures Nearest404(entries, d).None? <==> forall a :: Ancestor(a, d) ==> !HasPage(entries, a)
    ensures Nearest404(entries, d).Some? ==>
      && Nearest404(entries, d) == Some(home + "/404.html") && Ancestor(home, d) && HasPage(entries, home)
      && forall b :: Ancestor(b, d) && HasPage(entries, b) ==> |b| <= |home|
    decreases |d|
  {
    home := d;
    if !HasPage(entries, d) && d != "" {
      home := NearestIsNearest(entries, Parent(d));
      forall a | a != d ensures Ancestor(a, d) <==> Ancestor(a, Parent(d)) { ParentAncestors(a, d); }
      assert !Ancestor(d, Parent(d));
    } else if HasPage(entries, d) {
      assert Ancestor(d, d);
    }
  }

  // ---------------------------------------------------------------------
  // Paths that a file answers, and paths that none does
  // ---------------------------------------------------------------------

  /** The directory a path is in: before its trailing slashes, or before its last slash. */
  predicate IsDirectoryOf(d: Path, path: Path) {
    || (EndsWith(path, "/") && !EndsWith(d, "/") && d <= path && forall i :: |d| <= i < |path| ==> path[i] == '/')
    || (d + "/" <= path && !EndsWith(path, "/") && '/' !in path[|d| + 1..])
    || (d == "" && '/' !in path)
  }

  lemma {:induction false} TrimmedIs(d: Path, path: Path)
    requires d <= path && !EndsWith(d, "/") && forall i :: |d| <= i < |path| ==> path[i] == '/'
    ensures TrimSlashes(path) == d
    decreases |path|
  {
    if |path| > |d| {
      assert path[|path| - 1..] == "/";
      TrimmedIs(d, path[..|path| - 1]);
    } else {
      assert path == d;
    }
  }

  lemma {:induction false} ParentIs(d: Path, path: Path)
    requires (d + "/" <= path && '/' !in path[|d| + 1..]) || (d == "" && '/' !in path)
    ensures Parent(path) == d
    decreases |path|
  {
    if path != "" {
      var init := path[..|path| - 1];
      assert path == init + [path[|path| - 1]];
      if d + "/" <= path && |path| == |d| + 1 {
        assert path == d + "/";
      } else {
        if d + "/" <= path { assert d + "/" <= init && init[|d| + 1..] == path[|d| + 1..][..|path| - |d| - 2]; }
        assert path[|path| - 1] != '/';
        ParentIs(d, init);
      }
    }
  }

  lemma DirectoryIs(d: Path, path: Path)
    requires IsDirectoryOf(d, path)
    ensures Directory(path) == d
  {
    if EndsWith(path, "/") {
      assert path[|path| - 1] == '/';
      TrimmedIs(d, path);
    } else {
      ParentIs(d, path);
    }
  }

  /** No file is at the path, and with HTML handling none that could answer it. */
  predicate Unanswered(index: Index, path: Path) {
    && path !in index.entries
    && (index.html != NoHtml ==> forall i :: 0 <= i < |Candidates(path)| ==> Candidates(path)[i] !in index.entries)
  }

  lemma MissIs(index: Index, path: Path, n: bool)
    requires Unanswered(index, path)
    ensures RouteTo(index, path, n) == if n then NotFoundRoute(index, path) else Missing
  {
  }

  /**
   * What a path without an answer gets: nothing when not asked for or not configured; the root page as found for a
   * single-page application; the deepest not-found page at or above its directory, as not found, with 404 pages.
   */
  lemma UnansweredRoute(index: Index, path: Path, d: Path) returns (home: Path)
    requires Unanswered(index, path) && IsDirectoryOf(d, path)
    ensures RouteTo(index, path, false) == Missing
    ensures index.notFound == NoFallback ==> RouteTo(index, path, true) == Missing
    ensures index.notFound == SinglePage ==>
      RouteTo(index, path, true) ==
        if "/index.html" in index.entries then Asset("/index.html", true) else Missing
    ensures index.notFound == Page404 ==>
      if forall a :: Ancestor(a, d) ==> !HasPage(index.entries, a) then RouteTo(index, path, true) == Missing
      else
        && RouteTo(index, path, true) == Asset(home + "/404.html", false)
        && Ancestor(home, d) && HasPage(index.entries, home)
        && forall b :: Ancestor(b, d) && HasPage(index.entries, b) ==> |b| <= |home|
  {
    MissIs(index, path, false);
    MissIs(index, path, true);
    DirectoryIs(d, path);
    home := NearestIsNearest(index.entries, d);
  }

  /** A file at a path is served there: always when it is no page, and always without HTML handling. */
  lemma FileIsServed(index: Index, path: Path, n: bool)
    requires path in index.entries && (!EndsWith(path, ".html") || index.html == NoHtml)
    ensures RouteTo(index, path, n) == Asset(path, true)
  {
  }

  /** Where a file answers, whether misses are asked for makes no difference. */
  lemma AnswerNeedsNoFallback(index: Index, path: Path)
    requires !Unanswered(index, path) && (path in index.entries ==> !EndsWith(path, ".html") || index.html == NoHtml)
    ensures RouteTo(index, path, true) == RouteTo(index, path, false) != Missing
  {
    if path !in index.entries {
      var i :| 0 <= i < |Candidates(path)| && Candidates(path)[i] in index.entries;
      assert FirstIn(index.entries, Candidates(path)).Some?;
    }
  }
}
