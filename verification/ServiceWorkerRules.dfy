/** The worker's rules in plain terms: which request is what, what may be stored, and which caches are out of date. */
module ServiceWorkerRules {
  import opened Options
  import opened ServiceWorker

  /** Never cached: the API and profile photos, of any origin. */
  predicate IsPrivate(url: Url) {
    "/api/" <= url.path || "/profile-images/" <= url.path
  }

  /** A module of the development server. */
  predicate IsSource(url: Url) {
    "/src/" <= url.path || "/@vite/" <= url.path || "/@id/" <= url.path || "/node_modules/" <= url.path
  }

  predicate IsOwnGet(site: Site, request: Request) {
    request.url.origin == site.origin && request.verb == "GET" && !IsPrivate(request.url) && !IsSource(request.url)
  }

  predicate IsPage(site: Site, request: Request) {
    IsOwnGet(site, request) && request.mode == "navigate"
  }

  const ENDINGS := {"js", "css", "png", "jpg", "jpeg", "gif", "webp", "svg", "ico", "woff", "woff2", "ttf", "otf"}

  /** The path ends in a dot and one of these. */
  predicate HasAssetExtension(path: string) {
    exists i :: 0 <= i < |path| && path[i] == '.' && path[i + 1..] in ENDINGS
  }

  predicate IsAsset(site: Site, request: Request) {
    && IsOwnGet(site, request) && request.mode != "navigate"
    && (|| "/assets/" <= request.url.path || HasAssetExtension(request.url.path)
        || request.destination in {"script", "style", "image", "font", "manifest"})
  }

  predicate IsGood(r: Response) {
    r.status / 100 == 2
  }

  /** Cache Storage refuses partial content and answers that vary on everything. */
  predicate MayBeStored(r: Response) {
    IsGood(r) && r.status != 206 && !r.variesOnAll
  }

  /** A cache of an earlier version or revision of this worker. */
  predicate IsOutdated(site: Site, name: string) {
    && ("stanza-static-v" <= name || "stanza-runtime-v" <= name)
    && name != "stanza-static-v11-" + site.revision && name != "stanza-runtime-v11-" + site.revision
  }

  // Routing.

  lemma ExtensionAt(e: string)
    requires e in EXTENSIONS
    ensures |e| > 0 && e[0] == '.' && e[1..] in ENDINGS
  {
  }

  lemma ExtensionOf(e: string)
    requires e in ENDINGS
    ensures "." + e in EXTENSIONS
  {
    assert "." + "js" == ".js" && "." + "css" == ".css" && "." + "png" == ".png" && "." + "jpg" == ".jpg";
    assert "." + "jpeg" == ".jpeg" && "." + "gif" == ".gif" && "." + "webp" == ".webp" && "." + "svg" == ".svg";
    assert "." + "ico" == ".ico" && "." + "woff" == ".woff" && "." + "woff2" == ".woff2";
    assert "." + "ttf" == ".ttf" && "." + "otf" == ".otf";
  }

  lemma ExtensionsAreExact(path: string)
    ensures (exists e <- EXTENSIONS :: EndsWith(path, e)) <==> HasAssetExtension(path)
  {
    if e :| e in EXTENSIONS && EndsWith(path, e) {
      ExtensionAt(e);
      var i := |path| - |e|;
      assert path[i..] == e && path[i] == e[0] && path[i + 1..] == e[1..];
    }
    if i :| 0 <= i < |path| && path[i] == '.' && path[i + 1..] in ENDINGS {
      ExtensionOf(path[i + 1..]);
      assert path[i..] == "." + path[i + 1..];
      assert EndsWith(path, path[i..]);
    }
  }

  /** Every request takes the one route that its kind asks for; privacy comes before origin and method. */
  lemma RouteIsExact(site: Site, request: Request)
    ensures RouteOf(site, request) == NetworkOnly <==> IsPrivate(request.url)
    ensures RouteOf(site, request) == Navigation <==> IsPage(site, request)
    ensures RouteOf(site, request) == StaticAsset <==> IsAsset(site, request)
  {
    hide HasAssetExtension;
    ExtensionsAreExact(request.url.path);
  }

  lemma StorableIsExact(r: Response)
    ensures (IsOk(r) <==> IsGood(r)) && (IsStorable(r) <==> MayBeStored(r))
  {
  }

  lemma NamesAreExact(site: Site, name: string)
    ensures IsSuperseded(site, name) <==> IsOutdated(site, name)
    ensures site.StaticCache() == "stanza-static-v11-" + site.revision
    ensures site.RuntimeCache() == "stanza-runtime-v11-" + site.revision
  {
  }

  // What a page gets.

  /** The worker answers private requests, pages and assets and no other, and waits for the network with all of them. */
  lemma InterceptsExactly(site: Site, w: Worker, request: Request)
    ensures var (reply, after) := (FetchReply(site, w, request), AfterFetch(site, w, request));
      && (IsPrivate(request.url) || IsPage(site, request) || IsAsset(site, request) ==>
            reply != NotIntercepted && after.waiting == w.waiting + multiset{request})
      && (!IsPrivate(request.url) && !IsPage(site, request) && !IsAsset(site, request) ==> reply == NotIntercepted && after == w)
      && (IsPrivate(request.url) || IsPage(site, request) ==> reply == Pending)
      && (IsPrivate(request.url) ==> after.caches == w.caches)
      && after.writes == w.writes
  {
    hide RouteOf, IsPage, IsAsset, IsPrivate;
    RouteIsExact(site, request);
  }

  /** The first cache that has the address gives the response. */
  lemma {:induction false} MatchIsFirst(caches: seq<Cache>, key: Url) returns (n: nat)
    ensures n <= |caches| && forall i :: 0 <= i < n ==> key !in caches[i].entries
    ensures if n == |caches| then Match(caches, key) == None
            else key in caches[n].entries && Match(caches, key) == Some(caches[n].entries[key])
  {
    n := 0;
    if caches != [] && key !in caches[0].entries {
      var m := MatchIsFirst(caches[1..], key);
      n := m + 1;
    }
  }

  ghost predicate IsCached(caches: seq<Cache>, key: Url, r: Response) {
    exists i :: 0 <= i < |caches| && key in caches[i].entries && caches[i].entries[key] == r
  }

  /**
    Without the network a private request gets the offline message, a page the cached shell, or else the offline page,
    or else an error, and an asset that is not cached an error.
   */
  lemma FailureIsAnswered(site: Site, w: Worker, request: Request)
    ensures var reply := AnswerReply(site, w, request, None);
      var (shell, offline) := (Url(site.origin, "/index.html", ""), Url(site.origin, "/offline.html", ""));
      && (IsPrivate(request.url) ==> reply == OfflineJson)
      && (IsPage(site, request) ==>
            match reply
            case Reply(r) =>
              IsCached(w.caches, shell, r) || (IsCached(w.caches, offline, r) && forall s :: !IsCached(w.caches, shell, s))
            case NetworkError => forall r :: !IsCached(w.caches, shell, r) && !IsCached(w.caches, offline, r)
            case _ => false)
      && (!IsPrivate(request.url) && !IsPage(site, request) ==> reply == NetworkError)
  {
    hide RouteOf, IsPage, IsAsset, IsPrivate, Match;
    RouteIsExact(site, request);
    var (shell, offline) := (site.Own("/index.html"), site.Own("/offline.html"));
    var m := MatchIsFirst(w.caches, shell);
    var n := MatchIsFirst(w.caches, offline);
  }

  /**
    An answer goes to the page as it is. It starts a put exactly if it is good and answers a page, which becomes the
    shell, or an asset, which is stored under its own address; a private answer is never put anywhere.
   */
  lemma AnswerIsStored(site: Site, w: Worker, request: Request, r: Response)
    ensures AnswerReply(site, w, request, Some(r)) == Reply(r)
    ensures AfterAnswer(site, w, request, Some(r)).writes == w.writes +
      if !IsGood(r) then multiset{}
      else if IsPage(site, request) then
        multiset{Write("stanza-static-v11-" + site.revision, Url(site.origin, "/index.html", ""), r)}
      else if IsAsset(site, request) then multiset{Write("stanza-runtime-v11-" + site.revision, request.url, r)}
      else multiset{}
  {
    hide RouteOf, IsPage, IsAsset, IsGood, IsOk;
    RouteIsExact(site, request);
    StorableIsExact(r);
    NamesAreExact(site, "");
  }
}
