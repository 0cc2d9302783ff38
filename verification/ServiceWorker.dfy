/** The service worker: which requests it answers, what it caches, and what it serves from its caches. */
module ServiceWorker {
  import opened Options

  /** A URL without its fragment; a cache keys a GET request by it. */
  datatype Url = Url(origin: string, path: string, query: string)

  datatype Request = Request(verb: string, url: Url, mode: string, destination: string)

  datatype Response = Response(status: nat, variesOnAll: bool, body: string)

  datatype Cache = Cache(name: string, entries: map<Url, Response>)

  /** What the build fixes: the worker's origin and the revision in its cache names. */
  datatype Site = Site(origin: string, revision: string) {
    function StaticCache(): string { "stanza-static-v11-" + revision }
    function RuntimeCache(): string { "stanza-runtime-v11-" + revision }
    function Own(path: string): Url { Url(origin, path, "") }
  }

  const STATIC_ASSETS := [
    "/index.html", "/stanza-bootstrap.js", "/fonts/fonts.css", "/manifest.webmanifest", "/offline.html",
    "/icons/stanza-favicon.svg", "/icons/stanza-192.png", "/icons/stanza-512.png",
    "/icons/stanza-maskable-192.png", "/icons/stanza-maskable-512.png"
  ]

  // Routing.

  datatype Route = NetworkOnly | Untouched | Navigation | StaticAsset

  predicate IsApi(url: Url) {
    "/api/" <= url.path
  }

  predicate IsProfileImage(url: Url) {
    "/profile-images/" <= url.path
  }

  predicate IsDevelopmentModule(url: Url) {
    "/src/" <= url.path || "/@vite/" <= url.path || "/@id/" <= url.path || "/node_modules/" <= url.path
  }

  const EXTENSIONS := {
    ".js", ".css", ".png", ".jpg", ".jpeg", ".gif", ".webp", ".svg", ".ico", ".woff", ".woff2", ".ttf", ".otf"
  }

  predicate EndsWith(s: string, end: string) {
    |end| <= |s| && s[|s| - |end|..] == end
  }

  predicate IsStaticAsset(site: Site, request: Request) {
    && request.url.origin == site.origin
    && (|| "/assets/" <= request.url.path
        || request.destination in {"script", "style", "image", "font", "manifest"}
        || exists e <- EXTENSIONS :: EndsWith(request.url.path, e))
  }

  function RouteOf(site: Site, request: Request): Route {
    if IsApi(request.url) || IsProfileImage(request.url) then NetworkOnly
    else if request.url.origin != site.origin || request.verb != "GET" then Untouched
    else if IsDevelopmentModule(request.url) then Untouched
    else if request.mode == "navigate" then Navigation
    else if IsStaticAsset(site, request) then StaticAsset
    else Untouched
  }

  // Cache Storage.

  /** What `put` and `addAll` accept among the ok responses, and what the worker tries to put. */
  predicate IsOk(r: Response) {
    200 <= r.status < 300
  }

  predicate IsStorable(r: Response) {
    IsOk(r) && r.status != 206 && !r.variesOnAll
  }

  predicate HasCache(caches: seq<Cache>, name: string) {
    exists i :: 0 <= i < |caches| && caches[i].name == name
  }

  /** `caches.open`: a cache that is new comes last. */
  function Opened(caches: seq<Cache>, name: string): seq<Cache> {
    if HasCache(caches, name) then caches else caches + [Cache(name, map[])]
  }

  function EntriesOf(caches: seq<Cache>, name: string): map<Url, Response> {
    if caches == [] then map[]
    else if caches[0].name == name then caches[0].entries
    else EntriesOf(caches[1..], name)
  }

  function WithEntries(caches: seq<Cache>, name: string, more: map<Url, Response>): seq<Cache> {
    if caches == [] then []
    else if caches[0].name == name then [caches[0].(entries := caches[0].entries + more)] + caches[1..]
    else [caches[0]] + WithEntries(caches[1..], name, more)
  }

  /** `caches.match`: the first cache that has the key. */
  function Match(caches: seq<Cache>, key: Url): Option<Response> {
    if caches == [] then None
    else if key in caches[0].entries then Some(caches[0].entries[key])
    else Match(caches[1..], key)
  }

  predicate IsSuperseded(site: Site, name: string) {
    && ("stanza-static-v" <= name || "stanza-runtime-v" <= name)
    && name != site.StaticCache() && name != site.RuntimeCache()
  }

  function Kept(site: Site, caches: seq<Cache>): seq<Cache> {
    if caches == [] then []
    else if IsSuperseded(site, caches[0].name) then Kept(site, caches[1..])
    else [caches[0]] + Kept(site, caches[1..])
  }

  // The worker.

  datatype Write = Write(cache: string, key: Url, response: Response)

  datatype Answer = Answer(request: Request, response: Response)

  /** `waiting`: fetches under way. `writes`: puts under way. `answers`: every answer of the network so far. */
  datatype Worker = Worker(
    caches: seq<Cache>, waiting: multiset<Request>, writes: multiset<Write>, answers: set<Answer>
  )

  datatype Reply =
    | NotIntercepted
    | Pending
    | Reply(response: Response)
    | OfflineJson
    | NetworkError

  datatype Step =
    | Install(results: seq<Option<Response>>)
    | Activate
    | Fetch(request: Request)
    | Answered(asked: Request, answer: Option<Response>)
    | Land(write: Write, ok: bool)
    | Foreign(name: string, key: Url, response: Response)

  function AssetRequest(site: Site, path: string): Request {
    Request("GET", site.Own(path), "cors", "")
  }

  predicate AllStorable(results: seq<Option<Response>>) {
    forall i :: 0 <= i < |results| ==> results[i].Some? && IsStorable(results[i].value)
  }

  function AssetAnswers(site: Site, results: seq<Option<Response>>): set<Answer>
    requires |results| == |STATIC_ASSETS|
  {
    set i | 0 <= i < |results| && results[i].Some? :: Answer(AssetRequest(site, STATIC_ASSETS[i]), results[i].value)
  }

  function AssetEntries(site: Site, paths: seq<string>, results: seq<Option<Response>>): map<Url, Response>
    requires |results| == |paths| && AllStorable(results)
  {
    if paths == [] then map[]
    else
      var last := |paths| - 1;
      AssetEntries(site, paths[..last], results[..last])[site.Own(paths[last]) := results[last].value]
  }

  /** `addAll` stores all assets or none. */
  function AfterInstall(site: Site, w: Worker, results: seq<Option<Response>>): Worker
    requires |results| == |STATIC_ASSETS|
  {
    var found := Opened(w.caches, site.StaticCache());
    w.(answers := w.answers + AssetAnswers(site, results),
       caches := if AllStorable(results) then WithEntries(found, site.StaticCache(), AssetEntries(site, STATIC_ASSETS, results))
                 else found)
  }

  function AfterActivate(site: Site, w: Worker): Worker {
    w.(caches := Kept(site, w.caches))
  }

  function AfterFetch(site: Site, w: Worker, request: Request): Worker {
    match RouteOf(site, request)
    case Untouched => w
    case NetworkOnly => w.(waiting := w.waiting + multiset{request})
    case Navigation =>
      w.(caches := Opened(w.caches, site.StaticCache()), waiting := w.waiting + multiset{request})
    case StaticAsset =>
      w.(caches := Opened(w.caches, site.RuntimeCache()), waiting := w.waiting + multiset{request})
  }

  /** What the page gets at once: a cached static asset. */
  function FetchReply(site: Site, w: Worker, request: Request): Reply {
    match RouteOf(site, request)
    case Untouched => NotIntercepted
    case StaticAsset =>
      var entries := EntriesOf(w.caches, site.RuntimeCache());
      if request.url in entries then Reply(entries[request.url]) else Pending
    case _ => Pending
  }

  /** The put that an answer starts: a page becomes the shell, an asset is stored under its own address. */
  function WriteOn(site: Site, route: Route, url: Url, response: Response): multiset<Write> {
    if !IsOk(response) then multiset{}
    else
      match route
      case Navigation => multiset{Write(site.StaticCache(), site.Own("/index.html"), response)}
      case StaticAsset => multiset{Write(site.RuntimeCache(), url, response)}
      case _ => multiset{}
  }

  function AfterAnswer(site: Site, w: Worker, request: Request, answer: Option<Response>): Worker {
    var next := w.(waiting := w.waiting - multiset{request});
    if answer.None? then next
    else next.(writes := w.writes + WriteOn(site, RouteOf(site, request), request.url, answer.value),
               answers := w.answers + {Answer(request, answer.value)})
  }

  /** What the page gets without the network. */
  function FailureReply(site: Site, caches: seq<Cache>, route: Route): Reply {
    match route
    case NetworkOnly => OfflineJson
    case Navigation =>
      var (shell, offline) := (Match(caches, site.Own("/index.html")), Match(caches, site.Own("/offline.html")));
      if shell.Some? then Reply(shell.value) else if offline.Some? then Reply(offline.value) else NetworkError
    case _ => NetworkError
  }

  /** What the page gets from the answer, unless it got a cached response before. */
  function AnswerReply(site: Site, w: Worker, request: Request, answer: Option<Response>): Reply {
    if answer.Some? then Reply(answer.value) else FailureReply(site, w.caches, RouteOf(site, request))
  }

  function AfterLand(w: Worker, write: Write, ok: bool): Worker {
    w.(writes := w.writes - multiset{write},
       caches := if ok && IsStorable(write.response) then
                   WithEntries(w.caches, write.cache, map[write.key := write.response])
                 else w.caches)
  }

  predicate Enabled(site: Site, w: Worker, step: Step) {
    match step
    case Install(results) => |results| == |STATIC_ASSETS|
    case Answered(request, _) => request in w.waiting
    case Land(write, _) => write in w.writes
    case Foreign(name, _, _) => name != site.StaticCache() && name != site.RuntimeCache()
    case _ => true
  }

  function Apply(site: Site, w: Worker, step: Step): Worker
    requires Enabled(site, w, step)
  {
    match step
    case Install(results) => AfterInstall(site, w, results)
    case Activate => AfterActivate(site, w)
    case Fetch(request) => AfterFetch(site, w, request)
    case Answered(request, answer) => AfterAnswer(site, w, request, answer)
    case Land(write, ok) => AfterLand(w, write, ok)
    case Foreign(name, key, response) =>
      w.(caches := WithEntries(Opened(w.caches, name), name, map[key := response]))
  }

  ghost predicate Legal(site: Site, w: Worker, steps: seq<Step>)
    decreases |steps|
  {
    steps != [] ==> Enabled(site, w, steps[0]) && Legal(site, Apply(site, w, steps[0]), steps[1..])
  }

  function Run(site: Site, w: Worker, steps: seq<Step>): Worker
    requires Legal(site, w, steps)
    decreases |steps|
  {
    if steps == [] then w else Run(site, Apply(site, w, steps[0]), steps[1..])
  }

  /** The worker itself: each handler runs up to its next wait on the network or on a cache write. */
  class CacheWorker {
    const site: Site
    var caches: seq<Cache>
    var waiting: multiset<Request>
    var writes: multiset<Write>
    ghost var answers: set<Answer>

    constructor (site: Site, caches: seq<Cache>)
      ensures this.site == site && Contents() == Worker(caches, multiset{}, multiset{}, {})
    {
      this.site, this.caches, waiting, writes, answers := site, caches, multiset{}, multiset{}, {};
    }

    ghost function Contents(): Worker
      reads this
    {
      Worker(caches, waiting, writes, answers)
    }

    method Open(name: string)
      modifies `caches
      ensures caches == Opened(old(caches), name)
    {
      if !HasCache(caches, name) {
        caches := caches + [Cache(name, map[])];
      }
    }

    /** What `addAll` stores: nothing unless every asset arrived. */
    method Gather(results: seq<Option<Response>>) returns (entries: Option<map<Url, Response>>)
      requires |results| == |STATIC_ASSETS|
      ensures entries == if AllStorable(results) then Some(AssetEntries(site, STATIC_ASSETS, results)) else None
    {
      hide IsStorable;
      var found: map<Url, Response> := map[];
      for i := 0 to |results|
        invariant AllStorable(results[..i]) && found == AssetEntries(site, STATIC_ASSETS[..i], results[..i])
      {
        if results[i].None? || !IsStorable(results[i].value) {
          return None;
        }
        found := found[site.Own(STATIC_ASSETS[i]) := results[i].value];
        var (paths, next) := (STATIC_ASSETS[..i + 1], results[..i + 1]);
        assert paths[..i] == STATIC_ASSETS[..i] && next[..i] == results[..i] && next[i] == results[i];
        assert forall j :: 0 <= j < i ==> next[j] == results[..i][j];
      }
      assert STATIC_ASSETS[..|STATIC_ASSETS|] == STATIC_ASSETS && results[..|results|] == results;
      return Some(found);
    }

    method OnInstall(results: seq<Option<Response>>) returns (ok: bool)
      requires |results| == |STATIC_ASSETS|
      modifies this
      ensures Contents() == AfterInstall(site, old(Contents()), results)
      ensures ok <==> AllStorable(results)
    {
      hide AllStorable, AssetEntries, AssetAnswers, Opened, WithEntries;
      Open(site.StaticCache());
      answers := answers + AssetAnswers(site, results);
      var entries := Gather(results);
      if entries.Some? {
        caches := WithEntries(caches, site.StaticCache(), entries.value);
      }
      ok := entries.Some?;
    }

    method OnActivate()
      modifies `caches
      ensures Contents() == AfterActivate(site, old(Contents()))
    {
      caches := Kept(site, caches);
    }

    method OnFetch(request: Request) returns (reply: Reply)
      modifies `caches, `waiting
      ensures Contents() == AfterFetch(site, old(Contents()), request)
      ensures reply == FetchReply(site, old(Contents()), request)
    {
      if IsApi(request.url) || IsProfileImage(request.url) {
        waiting := waiting + multiset{request};
        return Pending;
      }
      if request.url.origin != site.origin || request.verb != "GET" || IsDevelopmentModule(request.url) {
        return NotIntercepted;
      }
      if request.mode == "navigate" {
        Open(site.StaticCache());
        waiting := waiting + multiset{request};
        return Pending;
      }
      if IsStaticAsset(site, request) {
        var entries := EntriesOf(caches, site.RuntimeCache());
        Open(site.RuntimeCache());
        waiting := waiting + multiset{request};
        return if request.url in entries then Reply(entries[request.url]) else Pending;
      }
      return NotIntercepted;
    }

    method StartWrite(route: Route, url: Url, response: Response)
      modifies `writes
      ensures writes == old(writes) + WriteOn(site, route, url, response)
    {
      if IsOk(response) {
        if route == Navigation {
          writes := writes + multiset{Write(site.StaticCache(), site.Own("/index.html"), response)};
        } else if route == StaticAsset {
          writes := writes + multiset{Write(site.RuntimeCache(), url, response)};
        }
      }
    }

    method ReplyOffline(route: Route) returns (reply: Reply)
      ensures reply == FailureReply(site, caches, route)
    {
      if route == Navigation {
        var shell := Match(caches, site.Own("/index.html"));
        var offline := Match(caches, site.Own("/offline.html"));
        return if shell.Some? then Reply(shell.value) else if offline.Some? then Reply(offline.value) else NetworkError;
      }
      return if route == NetworkOnly then OfflineJson else NetworkError;
    }

    method OnAnswer(request: Request, answer: Option<Response>) returns (reply: Reply)
      requires request in waiting
      modifies `waiting, `writes, `answers
      ensures Contents() == AfterAnswer(site, old(Contents()), request, answer)
      ensures reply == AnswerReply(site, old(Contents()), request, answer)
    {
      hide RouteOf, FailureReply, WriteOn;
      var route := RouteOf(site, request);
      waiting := waiting - multiset{request};
      if answer.None? {
        reply := ReplyOffline(route);
      } else {
        answers := answers + {Answer(request, answer.value)};
        StartWrite(route, request.url, answer.value);
        reply := Reply(answer.value);
      }
    }

    method OnLand(write: Write, ok: bool)
      requires write in writes
      modifies `caches, `writes
      ensures Contents() == AfterLand(old(Contents()), write, ok)
    {
      writes := writes - multiset{write};
      if ok && IsStorable(write.response) {
        caches := WithEntries(caches, write.cache, map[write.key := write.response]);
      }
    }
  }
}
