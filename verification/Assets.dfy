/** Static asset routing: canonical HTML paths, redirects and not-found pages. */
module Assets {
  import opened Prelude

  type Path = string

  const HTML: Path := ".html"
  const INDEX: Path := "/index.html"

  /** `html_handling`; an unknown value behaves like the default `Auto`. */
  datatype HtmlHandling = Auto | ForceSlash | DropSlash | NoHtml

  datatype NotFoundHandling = NoFallback | SinglePage | Page404

  datatype Index = Index(entries: set<Path>, html: HtmlHandling, notFound: NotFoundHandling)

  datatype Route = Asset(path: Path, found: bool) | Redirect(location: Path) | Missing

  predicate EndsWith(s: Path, suffix: Path) {
    |suffix| <= |s| && s[|s| - |suffix|..] == suffix
  }

  function Without(s: Path, suffix: Path): Path
    requires EndsWith(s, suffix)
  {
    s[..|s| - |suffix|]
  }

  function TrimSlashes(s: Path): (r: Path)
    ensures r <= s && !EndsWith(r, "/")
    ensures !EndsWith(s, "/") ==> r == s
  {
    if EndsWith(s, "/") then TrimSlashes(s[..|s| - 1]) else s
  }

  /** The files that can answer a path as HTML, best first. */
  function Candidates(path: Path): seq<Path> {
    if EndsWith(path, HTML) then [path]
    else if EndsWith(path, "/index") then [path + HTML]
    else if EndsWith(path, "/") then
      [path + "index.html"] + (if path != "/" then [TrimSlashes(path) + HTML] else [])
    else [path + HTML, path + INDEX]
  }

  function FirstIn(entries: set<Path>, candidates: seq<Path>): (r: Option<Path>)
    ensures r.Some? ==> r.value in entries && r.value in candidates
    ensures r.None? ==> forall i :: 0 <= i < |candidates| ==> candidates[i] !in entries
  {
    if candidates == [] then None
    else if candidates[0] in entries then Some(candidates[0])
    else FirstIn(entries, candidates[1..])
  }

  method HtmlAsset(entries: set<Path>, path: Path) returns (asset: Option<Path>)
    ensures asset == FirstIn(entries, Candidates(path))
  {
    var candidates: seq<Path> := [];
    if EndsWith(path, HTML) {
      candidates := candidates + [path];
    } else if EndsWith(path, "/index") {
      candidates := candidates + [path + HTML];
    } else if EndsWith(path, "/") {
      candidates := candidates + [path + "index.html"];
      if path != "/" {
        candidates := candidates + [TrimSlashes(path) + HTML];
      }
    } else {
      candidates := candidates + [path + HTML];
      candidates := candidates + [path + INDEX];
    }
    assert candidates == Candidates(path);
    var i := 0;
    while i < |candidates|
      invariant 0 <= i <= |candidates|
      invariant FirstIn(entries, candidates) == FirstIn(entries, candidates[i..])
    {
      if candidates[i] in entries {
        return Some(candidates[i]);
      }
      assert candidates[i..][1..] == candidates[i + 1..];
      i := i + 1;
    }
    asset := None;
  }

  function CanonicalHtmlPath(asset: Path, html: HtmlHandling): Path {
    if asset == INDEX then "/"
    else
      var base :=
        if EndsWith(asset, INDEX) then Without(asset, INDEX)
        else if EndsWith(asset, HTML) then Without(asset, HTML)
        else asset;
      match html
      case ForceSlash => TrimSlashes(base) + "/"
      case DropSlash => if TrimSlashes(base) == "" then "/" else TrimSlashes(base)
      case _ => if EndsWith(asset, INDEX) then TrimSlashes(base) + "/" else TrimSlashes(base)
  }

  /** The parent directory: what precedes the last '/', or "" without one. */
  function Parent(path: Path): (r: Path)
    ensures path != "" ==> |r| < |path|
    ensures path == "" ==> r == ""
  {
    if path == "" then ""
    else if path[|path| - 1] == '/' then path[..|path| - 1]
    else Parent(path[..|path| - 1])
  }

  /** The not-found page of the nearest directory that has one. */
  function Nearest404(entries: set<Path>, directory: Path): Option<Path>
    decreases |directory|
  {
    if directory + "/404.html" in entries then Some(directory + "/404.html")
    else if directory == "" then None
    else Nearest404(entries, Parent(directory))
  }

  function Directory(path: Path): Path {
    if EndsWith(path, "/") then TrimSlashes(path) else Parent(path)
  }

  method FindNearest404(entries: set<Path>, path: Path) returns (page: Option<Path>)
    ensures page == Nearest404(entries, Directory(path))
  {
    var directory := if EndsWith(path, "/") then TrimSlashes(path) else Parent(path);
    while true
      invariant Nearest404(entries, Directory(path)) == Nearest404(entries, directory)
      decreases |directory|
    {
      var candidate := if directory == "" then "/404.html" else directory + "/404.html";
      assert "" + "/404.html" == "/404.html";
      if candidate in entries {
        return Some(candidate);
      }
      if directory == "" {
        return None;
      }
      directory := Parent(directory);
    }
  }

  function NotFoundRoute(index: Index, path: Path): Route {
    match index.notFound
    case SinglePage => if INDEX in index.entries then Asset(INDEX, true) else Missing
    case Page404 =>
      var page := Nearest404(index.entries, Directory(path));
      if page.Some? then Asset(page.value, false) else Missing
    case NoFallback => Missing
  }

  function RouteTo(index: Index, path: Path, includeNotFound: bool): Route {
    var miss := if includeNotFound then NotFoundRoute(index, path) else Missing;
    if !EndsWith(path, HTML) && path in index.entries then Asset(path, true)
    else if index.html != NoHtml then
      match FirstIn(index.entries, Candidates(path))
      case Some(asset) =>
        var canonical := CanonicalHtmlPath(asset, index.html);
        if path != canonical then Redirect(canonical) else Asset(asset, true)
      case None => miss
    else if path in index.entries then Asset(path, true)
    else miss
  }
}
