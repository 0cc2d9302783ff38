/** What holds of the worker's caches in every run of events, whatever the network answers. */
module ServiceWorkerRuns {
  import opened Options
  import opened ServiceWorker
  import opened ServiceWorkerRules

  // Cache Storage.

  lemma {:induction false} OpenedEntries(caches: seq<Cache>, name: string, n: string)
    ensures EntriesOf(Opened(caches, name), n) == EntriesOf(caches, n)
    ensures HasCache(Opened(caches, name), n) <==> HasCache(caches, n) || n == name
  {
    if !HasCache(caches, name) {
      EntriesBehind(caches, Cache(name, map[]), n);
      var after := caches + [Cache(name, map[])];
      assert after[|caches|].name == name && forall i :: 0 <= i < |caches| ==> after[i] == caches[i];
    }
  }

  lemma {:induction false} EntriesBehind(caches: seq<Cache>, last: Cache, n: string)
    requires last.entries == map[]
    ensures EntriesOf(caches + [last], n) == EntriesOf(caches, n)
  {
    if caches != [] {
      EntriesBehind(caches[1..], last, n);
      assert (caches + [last])[1..] == caches[1..] + [last];
    } else {
      assert EntriesOf(caches + [last], n) == map[];
    }
  }

  lemma FirstCache(caches: seq<Cache>, n: string)
    requires caches != []
    ensures HasCache(caches, n) <==> caches[0].name == n || HasCache(caches[1..], n)
  {
    assert forall i :: 0 < i < |caches| ==> caches[i] == caches[1..][i - 1];
  }

  lemma {:induction false} WrittenEntries(caches: seq<Cache>, name: string, more: map<Url, Response>, n: string)
    ensures EntriesOf(WithEntries(caches, name, more), n) ==
      if n == name && HasCache(caches, n) then EntriesOf(caches, n) + more else EntriesOf(caches, n)
    ensures HasCache(WithEntries(caches, name, more), n) <==> HasCache(caches, n)
  {
    if caches != [] {
      var after := WithEntries(caches, name, more);
      FirstCache(caches, n);
      FirstCache(after, n);
      if caches[0].name == name {
        assert after[1..] == caches[1..];
      } else {
        WrittenEntries(caches[1..], name, more, n);
        assert after[1..] == WithEntries(caches[1..], name, more);
      }
    }
  }

  lemma {:induction false} KeptEntries(site: Site, caches: seq<Cache>, n: string)
    ensures EntriesOf(Kept(site, caches), n) == if IsSuperseded(site, n) then map[] else EntriesOf(caches, n)
    ensures HasCache(Kept(site, caches), n) <==> HasCache(caches, n) && !IsSuperseded(site, n)
  {
    hide IsSuperseded;
    if caches != [] {
      KeptEntries(site, caches[1..], n);
      FirstCache(caches, n);
      if !IsSuperseded(site, caches[0].name) {
        FirstCache(Kept(site, caches), n);
        assert Kept(site, caches)[1..] == Kept(site, caches[1..]);
      }
    }
  }

  /** Activation deletes exactly the caches of earlier versions and revisions and touches no other. */
  lemma ActivationIsExact(site: Site, w: Worker, n: string)
    ensures var after := AfterActivate(site, w);
      && (HasCache(after.caches, n) <==> HasCache(w.caches, n) && !IsOutdated(site, n))
      && (!IsOutdated(site, n) ==> EntriesOf(after.caches, n) == EntriesOf(w.caches, n))
      && !IsOutdated(site, site.StaticCache()) && !IsOutdated(site, site.RuntimeCache())
      && after.waiting == w.waiting && after.writes == w.writes
  {
    hide IsOutdated, IsSuperseded;
    KeptEntries(site, w.caches, n);
    NamesAreExact(site, n);
    NamesAreExact(site, site.StaticCache());
    NamesAreExact(site, site.RuntimeCache());
    OwnNames(site);
  }

  // Installing.

  lemma {:induction false} AssetsHold(site: Site, paths: seq<string>, results: seq<Option<Response>>, i: int)
    requires |results| == |paths| && AllStorable(results) && 0 <= i < |paths|
    requires forall j, k :: 0 <= j < k < |paths| ==> paths[j] != paths[k]
    ensures var entries := AssetEntries(site, paths, results);
      site.Own(paths[i]) in entries && entries[site.Own(paths[i])] == results[i].value
  {
    hide IsStorable;
    var last := |paths| - 1;
    if i < last {
      AssetsHold(site, paths[..last], results[..last], i);
    }
  }

  lemma {:induction false} AssetsHoldNoOther(site: Site, paths: seq<string>, results: seq<Option<Response>>, key: Url)
    requires |results| == |paths| && AllStorable(results) && forall path <- paths :: key != site.Own(path)
    ensures key !in AssetEntries(site, paths, results)
  {
    hide IsStorable;
    if paths != [] {
      var last := |paths| - 1;
      AssetsHoldNoOther(site, paths[..last], results[..last], key);
    }
  }

  lemma AssetsAreDistinct()
    ensures forall j, k :: 0 <= j < k < |STATIC_ASSETS| ==> STATIC_ASSETS[j] != STATIC_ASSETS[k]
  {
    var sizes := [11, 20, 16, 21, 13, 25, 21, 21, 30, 30];
    assert forall i :: 0 <= i < |STATIC_ASSETS| ==> |STATIC_ASSETS[i]| == sizes[i];
  }

  /** An install stores every asset of the list under its address if all may be stored, and otherwise nothing at all. */
  lemma InstallIsExact(site: Site, w: Worker, results: seq<Option<Response>>, cache: string, key: Url)
    requires |results| == |STATIC_ASSETS|
    ensures var (before, after) := (EntriesOf(w.caches, cache), EntriesOf(AfterInstall(site, w, results).caches, cache));
      var complete := cache == site.StaticCache() && forall r <- results :: r.Some? && MayBeStored(r.value);
      && (complete ==> forall i :: 0 <= i < |STATIC_ASSETS| && key == site.Own(STATIC_ASSETS[i]) ==>
            key in after && after[key] == results[i].value)
      && (!complete || (forall path <- STATIC_ASSETS :: key != site.Own(path)) ==>
            (key in after <==> key in before) && (key in before ==> after[key] == before[key]))
  {
    hide EntriesOf, Opened, WithEntries, HasCache, AssetEntries, AllStorable, AssetAnswers, MayBeStored;
    var own := site.StaticCache();
    AllStorableIsExact(results);
    OpenedEntries(w.caches, own, cache);
    if AllStorable(results) {
      var entries := AssetEntries(site, STATIC_ASSETS, results);
      MergedEntry(Opened(w.caches, own), own, entries, cache, key);
      AssetsAreDistinct();
      if forall path <- STATIC_ASSETS :: key != site.Own(path) {
        AssetsHoldNoOther(site, STATIC_ASSETS, results, key);
      }
      forall i | 0 <= i < |STATIC_ASSETS| && key == site.Own(STATIC_ASSETS[i])
        ensures key in entries && entries[key] == results[i].value
      {
        AssetsHold(site, STATIC_ASSETS, results, i);
      }
    }
  }

  lemma AllStorableIsExact(results: seq<Option<Response>>)
    ensures AllStorable(results) <==> forall r <- results :: r.Some? && MayBeStored(r.value)
  {
    hide IsStorable, MayBeStored;
    forall r: Response ensures IsStorable(r) <==> MayBeStored(r) {
      StorableIsExact(r);
    }
    assert forall i :: 0 <= i < |results| ==> results[i] in results;
  }

  // Where cached responses come from.

  /** An installed asset, or a page that was navigated to and is kept as the shell. */
  ghost predicate BacksStatic(site: Site, a: Answer, key: Url, r: Response) {
    && a.response == r
    && (|| (exists path <- STATIC_ASSETS :: key == site.Own(path) && a.request == AssetRequest(site, path))
        || (key == site.Own("/index.html") && RouteOf(site, a.request) == Navigation))
  }

  /** An answer to the very same request, which was one for a static asset. */
  ghost predicate BacksRuntime(site: Site, a: Answer, key: Url, r: Response) {
    a.response == r && a.request.url == key && RouteOf(site, a.request) == StaticAsset
  }

  ghost predicate Backed(site: Site, answers: set<Answer>, cache: string, key: Url, r: Response) {
    && IsOk(r)
    && (cache == site.StaticCache() ==> exists a <- answers :: BacksStatic(site, a, key, r))
    && (cache == site.RuntimeCache() ==> exists a <- answers :: BacksRuntime(site, a, key, r))
  }

  ghost predicate EntriesBacked(site: Site, answers: set<Answer>, cache: string, entries: map<Url, Response>) {
    forall key <- entries :: IsStorable(entries[key]) && Backed(site, answers, cache, key, entries[key])
  }

  /** Every own entry, and every put under way, comes from an ok answer to a request that may back it. */
  ghost predicate Inv(site: Site, w: Worker) {
    && EntriesBacked(site, w.answers, site.StaticCache(), EntriesOf(w.caches, site.StaticCache()))
    && EntriesBacked(site, w.answers, site.RuntimeCache(), EntriesOf(w.caches, site.RuntimeCache()))
    && forall x <- w.writes :: Backed(site, w.answers, x.cache, x.key, x.response)
  }

  lemma OwnNames(site: Site)
    ensures site.StaticCache() != site.RuntimeCache()
    ensures !IsSuperseded(site, site.StaticCache()) && !IsSuperseded(site, site.RuntimeCache())
  {
    assert site.StaticCache()[7] == 's' && site.RuntimeCache()[7] == 'r';
  }

  lemma MoreAnswers(site: Site, before: set<Answer>, after: set<Answer>, cache: string, key: Url, r: Response)
    requires before <= after && Backed(site, before, cache, key, r)
    ensures Backed(site, after, cache, key, r)
  {
  }

  lemma MoreAnswersForAll(site: Site, before: set<Answer>, after: set<Answer>, cache: string, entries: map<Url, Response>)
    requires before <= after && EntriesBacked(site, before, cache, entries)
    ensures EntriesBacked(site, after, cache, entries)
  {
    forall key <- entries ensures Backed(site, after, cache, key, entries[key]) {
      MoreAnswers(site, before, after, cache, key, entries[key]);
    }
  }

  ghost predicate IsAssetEntry(site: Site, paths: seq<string>, results: seq<Option<Response>>, key: Url, i: int)
    requires |results| == |paths| && AllStorable(results) && 0 <= i < |paths|
  {
    && key in AssetEntries(site, paths, results)
    && key == site.Own(paths[i]) && results[i] == Some(AssetEntries(site, paths, results)[key])
  }

  lemma {:induction false} AssetEntryIsAnswered(site: Site, paths: seq<string>, results: seq<Option<Response>>, key: Url)
    requires |results| == |paths| && AllStorable(results) && key in AssetEntries(site, paths, results)
    ensures exists i :: 0 <= i < |paths| && IsAssetEntry(site, paths, results, key, i)
  {
    hide IsStorable;
    var last := |paths| - 1;
    if key == site.Own(paths[last]) {
      assert IsAssetEntry(site, paths, results, key, last);
    } else {
      AssetEntryIsAnswered(site, paths[..last], results[..last], key);
      var i :| 0 <= i < last && IsAssetEntry(site, paths[..last], results[..last], key, i);
      assert IsAssetEntry(site, paths, results, key, i);
    }
  }

  lemma InstalledAreBacked(site: Site, results: seq<Option<Response>>, answers: set<Answer>)
    requires |results| == |STATIC_ASSETS| && AllStorable(results) && AssetAnswers(site, results) <= answers
    ensures EntriesBacked(site, answers, site.StaticCache(), AssetEntries(site, STATIC_ASSETS, results))
  {
    hide AssetEntries, RouteOf;
    OwnNames(site);
    var entries := AssetEntries(site, STATIC_ASSETS, results);
    forall key <- entries
      ensures IsStorable(entries[key]) && Backed(site, answers, site.StaticCache(), key, entries[key])
    {
      AssetEntryIsAnswered(site, STATIC_ASSETS, results, key);
      var i :| 0 <= i < |STATIC_ASSETS| && IsAssetEntry(site, STATIC_ASSETS, results, key, i);
      var a := Answer(AssetRequest(site, STATIC_ASSETS[i]), entries[key]);
      assert a in AssetAnswers(site, results);
      assert STATIC_ASSETS[i] in STATIC_ASSETS;
      assert BacksStatic(site, a, key, entries[key]);
    }
  }

  lemma InstallKeeps(site: Site, w: Worker, results: seq<Option<Response>>)
    requires Inv(site, w) && |results| == |STATIC_ASSETS|
    ensures Inv(site, AfterInstall(site, w, results))
  {
    hide EntriesOf, Opened, WithEntries, HasCache, AssetEntries, AllStorable, AssetAnswers, Backed, EntriesBacked;
    var after := AfterInstall(site, w, results);
    OwnNames(site);
    AnswersGrow(site, w, after.answers);
    var found := Opened(w.caches, site.StaticCache());
    OpenedEntries(w.caches, site.StaticCache(), site.StaticCache());
    OpenedEntries(w.caches, site.StaticCache(), site.RuntimeCache());
    if AllStorable(results) {
      var entries := AssetEntries(site, STATIC_ASSETS, results);
      InstalledAreBacked(site, results, after.answers);
      WrittenEntries(found, site.StaticCache(), entries, site.StaticCache());
      WrittenEntries(found, site.StaticCache(), entries, site.RuntimeCache());
      BothBacked(site, after.answers, site.StaticCache(), EntriesOf(w.caches, site.StaticCache()), entries);
    }
  }

  lemma AnswersGrow(site: Site, w: Worker, answers: set<Answer>)
    requires Inv(site, w) && w.answers <= answers
    ensures Inv(site, w.(answers := answers))
  {
    hide Backed, EntriesBacked;
    MoreAnswersForAll(site, w.answers, answers, site.StaticCache(), EntriesOf(w.caches, site.StaticCache()));
    MoreAnswersForAll(site, w.answers, answers, site.RuntimeCache(), EntriesOf(w.caches, site.RuntimeCache()));
    forall x <- w.writes ensures Backed(site, answers, x.cache, x.key, x.response) {
      MoreAnswers(site, w.answers, answers, x.cache, x.key, x.response);
    }
  }

  lemma BothBacked(site: Site, answers: set<Answer>, cache: string, kept: map<Url, Response>, more: map<Url, Response>)
    requires EntriesBacked(site, answers, cache, kept) && EntriesBacked(site, answers, cache, more)
    ensures EntriesBacked(site, answers, cache, kept + more)
  {
  }

  lemma AnswerKeeps(site: Site, w: Worker, request: Request, answer: Option<Response>)
    requires Inv(site, w)
    ensures Inv(site, AfterAnswer(site, w, request, answer))
  {
    hide EntriesOf, EntriesBacked, RouteOf, Inv;
    if answer.Some? {
      var a := Answer(request, answer.value);
      var answers := w.answers + {a};
      AnswersGrow(site, w, answers);
      WriteIsBacked(site, answers, a);
      SplitInv(site, w.(answers := answers));
      SplitInv(site, AfterAnswer(site, w, request, answer));
    } else {
      SplitInv(site, w);
      SplitInv(site, AfterAnswer(site, w, request, answer));
    }
  }

  lemma SplitInv(site: Site, w: Worker)
    ensures Inv(site, w) <==>
      && EntriesBacked(site, w.answers, site.StaticCache(), EntriesOf(w.caches, site.StaticCache()))
      && EntriesBacked(site, w.answers, site.RuntimeCache(), EntriesOf(w.caches, site.RuntimeCache()))
      && forall x <- w.writes :: Backed(site, w.answers, x.cache, x.key, x.response)
  {
  }

  lemma WriteIsBacked(site: Site, answers: set<Answer>, a: Answer)
    requires a in answers
    ensures forall x <- WriteOn(site, RouteOf(site, a.request), a.request.url, a.response) ::
      Backed(site, answers, x.cache, x.key, x.response)
  {
    hide RouteOf;
    OwnNames(site);
    assert RouteOf(site, a.request) == Navigation ==> BacksStatic(site, a, site.Own("/index.html"), a.response);
    assert RouteOf(site, a.request) == StaticAsset ==> BacksRuntime(site, a, a.request.url, a.response);
  }

  lemma LandKeeps(site: Site, w: Worker, write: Write, ok: bool)
    requires Inv(site, w) && write in w.writes
    ensures Inv(site, AfterLand(w, write, ok))
  {
    hide EntriesOf, HasCache, WithEntries, Backed;
    var more := map[write.key := write.response];
    WrittenEntries(w.caches, write.cache, more, site.StaticCache());
    WrittenEntries(w.caches, write.cache, more, site.RuntimeCache());
  }

  /** Every event keeps the invariant. */
  lemma StepKeeps(site: Site, w: Worker, step: Step)
    requires Inv(site, w) && Enabled(site, w, step)
    ensures Inv(site, Apply(site, w, step))
  {
    hide Inv, RouteOf, Opened, WithEntries, Kept, EntriesOf, EntriesBacked, Backed, IsSuperseded;
    OwnNames(site);
    var after := Apply(site, w, step);
    SplitInv(site, w);
    SplitInv(site, after);
    match step
    case Install(results) => InstallKeeps(site, w, results);
    case Activate =>
      KeptEntries(site, w.caches, site.StaticCache());
      KeptEntries(site, w.caches, site.RuntimeCache());
    case Fetch(request) =>
      forall name ensures EntriesOf(Opened(w.caches, name), site.StaticCache()) == EntriesOf(w.caches, site.StaticCache())
        ensures EntriesOf(Opened(w.caches, name), site.RuntimeCache()) == EntriesOf(w.caches, site.RuntimeCache())
      {
        OpenedEntries(w.caches, name, site.StaticCache());
        OpenedEntries(w.caches, name, site.RuntimeCache());
      }
    case Answered(request, answer) => AnswerKeeps(site, w, request, answer);
    case Land(write, ok) => LandKeeps(site, w, write, ok);
    case Foreign(name, key, response) =>
      OpenedEntries(w.caches, name, site.StaticCache());
      OpenedEntries(w.caches, name, site.RuntimeCache());
      WrittenEntries(Opened(w.caches, name), name, map[key := response], site.StaticCache());
      WrittenEntries(Opened(w.caches, name), name, map[key := response], site.RuntimeCache());
  }

  lemma {:induction false} RunKeeps(site: Site, w: Worker, steps: seq<Step>)
    requires Inv(site, w) && Legal(site, w, steps)
    ensures Inv(site, Run(site, w, steps))
    decreases |steps|
  {
    hide Inv, Enabled, Apply;
    if steps != [] {
      StepKeeps(site, w, steps[0]);
      RunKeeps(site, Apply(site, w, steps[0]), steps[1..]);
    }
  }

  lemma {:induction false} NoCacheNoEntries(caches: seq<Cache>, n: string)
    requires !HasCache(caches, n)
    ensures EntriesOf(caches, n) == map[]
  {
    if caches != [] {
      FirstCache(caches, n);
      NoCacheNoEntries(caches[1..], n);
    }
  }

  /** A worker of a new revision starts with what every run keeps, whatever other caches there are. */
  lemma NewWorkerIsBacked(site: Site, caches: seq<Cache>)
    requires !HasCache(caches, site.StaticCache()) && !HasCache(caches, site.RuntimeCache())
    ensures Inv(site, Worker(caches, multiset{}, multiset{}, {})) && Ready(site, Worker(caches, multiset{}, multiset{}, {}))
  {
    NoCacheNoEntries(caches, site.StaticCache());
    NoCacheNoEntries(caches, site.RuntimeCache());
  }

  // What an own cache holds.

  /** Own caches that writes or answers under way will need are there. */
  ghost predicate Ready(site: Site, w: Worker) {
    && (forall r <- w.waiting :: RouteOf(site, r) == Navigation ==> HasCache(w.caches, site.StaticCache()))
    && (forall r <- w.waiting :: RouteOf(site, r) == StaticAsset ==> HasCache(w.caches, site.RuntimeCache()))
    && forall x <- w.writes :: IsOwn(site, x.cache) && HasCache(w.caches, x.cache)
  }

  function OwnEntry(w: Worker, cache: string, key: Url): Option<Response> {
    if key in EntriesOf(w.caches, cache) then Some(EntriesOf(w.caches, cache)[key]) else None
  }

  /** What the step stores in this cache under this key. */
  function StoredBy(site: Site, cache: string, step: Step, key: Url): Option<Response> {
    match step
    case Land(x, ok) => if ok && MayBeStored(x.response) && x.cache == cache && x.key == key then Some(x.response) else None
    case Install(results) =>
      if cache == site.StaticCache() && |results| == |STATIC_ASSETS| && AllStorable(results)
        && key in AssetEntries(site, STATIC_ASSETS, results)
      then Some(AssetEntries(site, STATIC_ASSETS, results)[key]) else None
    case _ => None
  }

  function LastStored(site: Site, cache: string, steps: seq<Step>, key: Url, before: Option<Response>): Option<Response>
    decreases |steps|
  {
    if steps == [] then before
    else
      var next := StoredBy(site, cache, steps[0], key);
      LastStored(site, cache, steps[1..], key, if next.Some? then next else before)
  }

  predicate IsOwn(site: Site, name: string) {
    name == site.StaticCache() || name == site.RuntimeCache()
  }

  lemma MergedEntry(caches: seq<Cache>, name: string, more: map<Url, Response>, n: string, key: Url)
    ensures var before := EntriesOf(caches, n);
      var after := EntriesOf(WithEntries(caches, name, more), n);
      if n == name && HasCache(caches, n) && key in more then key in after && after[key] == more[key]
      else (key in after <==> key in before) && (key in before ==> after[key] == before[key])
  {
    hide EntriesOf, WithEntries, HasCache;
    WrittenEntries(caches, name, more, n);
  }

  lemma InstallStores(site: Site, w: Worker, results: seq<Option<Response>>, cache: string, key: Url)
    requires |results| == |STATIC_ASSETS|
    ensures var stored := StoredBy(site, cache, Install(results), key);
      OwnEntry(AfterInstall(site, w, results), cache, key) == if stored.Some? then stored else OwnEntry(w, cache, key)
  {
    hide Opened, WithEntries, EntriesOf, HasCache, AssetEntries, AllStorable, AssetAnswers;
    OpenedEntries(w.caches, site.StaticCache(), cache);
    if AllStorable(results) {
      MergedEntry(Opened(w.caches, site.StaticCache()), site.StaticCache(), AssetEntries(site, STATIC_ASSETS, results), cache, key);
    }
  }

  lemma LandStores(site: Site, w: Worker, x: Write, ok: bool, cache: string, key: Url)
    requires HasCache(w.caches, x.cache)
    ensures var stored := StoredBy(site, cache, Land(x, ok), key);
      OwnEntry(AfterLand(w, x, ok), cache, key) == if stored.Some? then stored else OwnEntry(w, cache, key)
  {
    hide WithEntries, EntriesOf, HasCache, IsStorable, MayBeStored;
    StorableIsExact(x.response);
    MergedEntry(w.caches, x.cache, map[x.key := x.response], cache, key);
  }

  lemma StepStores(site: Site, w: Worker, step: Step, cache: string, key: Url)
    requires Ready(site, w) && Enabled(site, w, step) && IsOwn(site, cache)
    ensures var stored := StoredBy(site, cache, step, key);
      OwnEntry(Apply(site, w, step), cache, key) == if stored.Some? then stored else OwnEntry(w, cache, key)
  {
    hide RouteOf, Opened, WithEntries, Kept, EntriesOf, HasCache, IsSuperseded, AfterInstall, AfterLand;
    OwnNames(site);
    match step
    case Install(results) =>
      hide StoredBy, OwnEntry;
      InstallStores(site, w, results, cache, key);
    case Activate => KeptEntries(site, w.caches, cache);
    case Fetch(request) =>
      OpenedEntries(w.caches, site.StaticCache(), cache);
      OpenedEntries(w.caches, site.RuntimeCache(), cache);
    case Answered(_, _) =>
    case Land(x, ok) =>
      hide StoredBy, OwnEntry;
      LandStores(site, w, x, ok, cache, key);
    case Foreign(name, url, response) =>
      OpenedEntries(w.caches, name, cache);
      MergedEntry(Opened(w.caches, name), name, map[url := response], cache, key);
  }

  /** No step removes a cache that is not superseded. */
  lemma StepKeepsCaches(site: Site, w: Worker, step: Step, n: string)
    requires Enabled(site, w, step) && HasCache(w.caches, n) && !IsSuperseded(site, n)
    ensures HasCache(Apply(site, w, step).caches, n)
  {
    hide RouteOf, Opened, WithEntries, Kept, EntriesOf, HasCache, AssetEntries, IsSuperseded, AllStorable, IsStorable, AssetAnswers;
    match step
    case Install(results) =>
      OpenedEntries(w.caches, site.StaticCache(), n);
      if AllStorable(results) {
        WrittenEntries(Opened(w.caches, site.StaticCache()), site.StaticCache(), AssetEntries(site, STATIC_ASSETS, results), n);
      }
    case Activate => KeptEntries(site, w.caches, n);
    case Fetch(request) =>
      OpenedEntries(w.caches, site.StaticCache(), n);
      OpenedEntries(w.caches, site.RuntimeCache(), n);
    case Answered(_, _) =>
    case Land(x, _) => WrittenEntries(w.caches, x.cache, map[x.key := x.response], n);
    case Foreign(name, url, response) =>
      OpenedEntries(w.caches, name, n);
      WrittenEntries(Opened(w.caches, name), name, map[url := response], n);
  }

  lemma StepKeepsReady(site: Site, w: Worker, step: Step)
    requires Ready(site, w) && Enabled(site, w, step)
    ensures Ready(site, Apply(site, w, step))
  {
    hide RouteOf, Opened, WithEntries, Kept, HasCache, AssetEntries, IsSuperseded, AllStorable, IsStorable, AssetAnswers;
    OwnNames(site);
    var w' := Apply(site, w, step);
    forall n | IsOwn(site, n) && HasCache(w.caches, n) ensures HasCache(w'.caches, n) {
      StepKeepsCaches(site, w, step, n);
    }
    if step.Fetch? {
      OpenedEntries(w.caches, site.StaticCache(), site.StaticCache());
      OpenedEntries(w.caches, site.RuntimeCache(), site.RuntimeCache());
    } else if step.Answered? {
      AnswerKeepsReady(site, w, step.asked, step.answer);
    }
  }

  lemma AnswerKeepsReady(site: Site, w: Worker, request: Request, answer: Option<Response>)
    requires Ready(site, w) && request in w.waiting
    ensures Ready(site, AfterAnswer(site, w, request, answer))
  {
    hide RouteOf, HasCache, IsOk;
    var w' := AfterAnswer(site, w, request, answer);
    forall x <- w'.writes ensures IsOwn(site, x.cache) && HasCache(w'.caches, x.cache) {
      if x !in w.writes {
        assert x in WriteOn(site, RouteOf(site, request), request.url, answer.value);
      }
    }
  }

  /** In every run an own entry is the last response stored under its key, or the one from before the run. */
  lemma {:induction false} EntryIsLastStored(site: Site, w: Worker, steps: seq<Step>, cache: string, key: Url)
    requires Ready(site, w) && Legal(site, w, steps) && IsOwn(site, cache)
    ensures OwnEntry(Run(site, w, steps), cache, key) == LastStored(site, cache, steps, key, OwnEntry(w, cache, key))
    decreases |steps|
  {
    hide Ready, Enabled, Apply, OwnEntry, StoredBy;
    if steps != [] {
      StepStores(site, w, steps[0], cache, key);
      StepKeepsReady(site, w, steps[0]);
      EntryIsLastStored(site, Apply(site, w, steps[0]), steps[1..], cache, key);
    }
  }

  lemma AnswerStartsItsPut(site: Site, w: Worker, request: Request, r: Response)
    requires RouteOf(site, request) == StaticAsset && IsOk(r)
    ensures Write(site.RuntimeCache(), request.url, r) in AfterAnswer(site, w, request, Some(r)).writes
  {
    hide RouteOf, IsOk;
  }

  // The main results.

  /** An address that may be cached at all. */
  predicate IsPublic(site: Site, url: Url) {
    url.origin == site.origin && !IsPrivate(url) && !IsSource(url)
  }

  lemma AssetsArePublic(site: Site, path: string)
    requires path in STATIC_ASSETS
    ensures IsPublic(site, site.Own(path))
  {
    assert path[1] in {'i', 's', 'f', 'm', 'o'};
    assert path[1] == 's' ==> path[2] == 't';
    assert "/api/"[1] == 'a' && "/profile-images/"[1] == 'p' && "/src/"[1] == 's' && "/src/"[2] == 'r';
    assert "/@vite/"[1] == '@' && "/@id/"[1] == '@' && "/node_modules/"[1] == 'n';
  }

  /**
    In every run the keys that the worker writes are listed assets or addresses of GET requests for static assets,
    never an API, profile-image or development path; a response in the runtime cache is an ok answer
    of the network to a request for that same address.
   */
  lemma CachesStayClean(site: Site, w: Worker, steps: seq<Step>, key: Url)
    requires Inv(site, w) && Legal(site, w, steps)
    ensures var after := Run(site, w, steps);
      var (fixed, runtime) := (EntriesOf(after.caches, site.StaticCache()), EntriesOf(after.caches, site.RuntimeCache()));
      && (key in fixed ==> IsPublic(site, key) && MayBeStored(fixed[key]) && exists path <- STATIC_ASSETS :: key == site.Own(path))
      && (key in runtime ==> IsPublic(site, key) && MayBeStored(runtime[key]) && exists a <- after.answers ::
            a.response == runtime[key] && a.request.url == key && IsAsset(site, a.request))
  {
    hide Run, EntriesOf, RouteOf, IsStorable, MayBeStored, IsSource, IsPrivate;
    RunKeeps(site, w, steps);
    var after := Run(site, w, steps);
    if key in EntriesOf(after.caches, site.StaticCache()) {
      var r := EntriesOf(after.caches, site.StaticCache())[key];
      StorableIsExact(r);
      var a :| a in after.answers && BacksStatic(site, a, key, r);
      if key == site.Own("/index.html") {
        assert STATIC_ASSETS[0] == "/index.html";
        AssetsArePublic(site, "/index.html");
      } else {
        var path :| path in STATIC_ASSETS && key == site.Own(path);
        AssetsArePublic(site, path);
      }
    }
    if key in EntriesOf(after.caches, site.RuntimeCache()) {
      var r := EntriesOf(after.caches, site.RuntimeCache())[key];
      StorableIsExact(r);
      var a :| a in after.answers && BacksRuntime(site, a, key, r);
      RouteIsExact(site, a.request);
    }
  }

  /** What a page gets from the cache for an asset is an earlier ok answer to a request for the same address. */
  lemma ServedAssetIsItsOwn(site: Site, w: Worker, steps: seq<Step>, request: Request)
    requires Inv(site, w) && Legal(site, w, steps) && FetchReply(site, Run(site, w, steps), request).Reply?
    ensures IsAsset(site, request)
    ensures exists a <- Run(site, w, steps).answers ::
      && a.response == FetchReply(site, Run(site, w, steps), request).response && MayBeStored(a.response)
      && a.request.url == request.url && IsAsset(site, a.request)
  {
    hide Run, RouteOf, EntriesOf, IsStorable, MayBeStored, IsAsset;
    RunKeeps(site, w, steps);
    RouteIsExact(site, request);
    var r := FetchReply(site, Run(site, w, steps), request).response;
    StorableIsExact(r);
    var a :| a in Run(site, w, steps).answers && BacksRuntime(site, a, request.url, r);
    RouteIsExact(site, a.request);
  }

  /**
    Stale while revalidate: whatever came between, the cached reply to an asset's request is the response that
    was stored last under its address; without one the page waits for the network.
   */
  lemma ReplyIsLastStored(site: Site, w: Worker, steps: seq<Step>, request: Request)
    requires Ready(site, w) && Legal(site, w, steps) && IsAsset(site, request)
    ensures var last := LastStored(site, site.RuntimeCache(), steps, request.url,
                                   OwnEntry(w, site.RuntimeCache(), request.url));
      FetchReply(site, Run(site, w, steps), request) == (if last.Some? then Reply(last.value) else Pending)
  {
    hide RouteOf, Run, EntriesOf, LastStored, Ready, IsAsset;
    RouteIsExact(site, request);
    EntryIsLastStored(site, w, steps, site.RuntimeCache(), request.url);
  }

  /** In particular an answer that can be stored is what the next request gets, once its put has landed. */
  lemma NextFetchGetsTheAnswer(site: Site, w: Worker, steps: seq<Step>, r: Response, next: Request)
    requires Ready(site, w) && Legal(site, w, steps) && steps != [] && IsAsset(site, next)
    requires steps[|steps| - 1] == Land(Write(site.RuntimeCache(), next.url, r), true) && MayBeStored(r)
    ensures FetchReply(site, Run(site, w, steps), next) == Reply(r)
  {
    hide RouteOf, Run, Legal, Ready, FetchReply, IsAsset, MayBeStored, LastStored;
    ReplyIsLastStored(site, w, steps, next);
    LastOfSteps(site, site.RuntimeCache(), steps, next.url, OwnEntry(w, site.RuntimeCache(), next.url), r);
  }

  lemma {:induction false} LastOfSteps(site: Site, cache: string, steps: seq<Step>, key: Url, before: Option<Response>, r: Response)
    requires steps != [] && steps[|steps| - 1] == Land(Write(cache, key, r), true) && MayBeStored(r)
    ensures LastStored(site, cache, steps, key, before) == Some(r)
    decreases |steps|
  {
    hide MayBeStored;
    var next := StoredBy(site, cache, steps[0], key);
    if |steps| > 1 {
      LastOfSteps(site, cache, steps[1..], key, if next.Some? then next else before, r);
    } else {
      assert steps[1..] == [];
    }
  }

  lemma {:induction false} RunOfMore(site: Site, w: Worker, steps: seq<Step>, more: seq<Step>)
    requires Legal(site, w, steps) && Legal(site, Run(site, w, steps), more)
    ensures Legal(site, w, steps + more) && Run(site, w, steps + more) == Run(site, Run(site, w, steps), more)
    decreases |steps|
  {
    hide Enabled, Apply;
    if steps == [] {
      assert steps + more == more;
    } else {
      assert (steps + more)[0] == steps[0] && (steps + more)[1..] == steps[1..] + more;
      RunOfMore(site, Apply(site, w, steps[0]), steps[1..], more);
    }
  }

  /** The steps of a revalidation: fetch, ok answer, landing. */
  function Revalidation(site: Site, request: Request, r: Response): seq<Step> {
    [Fetch(request), Answered(request, Some(r)), Land(Write(site.RuntimeCache(), request.url, r), true)]
  }

  lemma RevalidationIsLegal(site: Site, w: Worker, request: Request, r: Response)
    requires RouteOf(site, request) == StaticAsset && IsOk(r)
    ensures Legal(site, w, Revalidation(site, request, r))
  {
    hide RouteOf, Opened, IsOk;
    var steps := Revalidation(site, request, r);
    var fetched := Apply(site, w, steps[0]);
    var answered := AfterAnswer(site, fetched, request, Some(r));
    AnswerStartsItsPut(site, fetched, request, r);
    assert steps[1..][1..] == [steps[2]] && steps[1..][1..][1..] == [];
    assert Legal(site, answered, [steps[2]]);
  }

  /**
    From any point of a run, a fetch of an asset, its ok answer and the landing of the put give the next fetch of
    that address exactly this answer if it can be stored, and what it would have got before if not.
   */
  lemma RevalidationReplaces(site: Site, w: Worker, steps: seq<Step>, request: Request, r: Response, next: Request)
    requires Ready(site, w) && Legal(site, w, steps)
    requires IsAsset(site, request) && IsGood(r) && IsAsset(site, next) && next.url == request.url
    ensures var all := steps + Revalidation(site, request, r);
      && Legal(site, w, all)
      && FetchReply(site, Run(site, w, all), next) ==
           (if MayBeStored(r) then Reply(r) else FetchReply(site, Run(site, w, steps), next))
  {
    hide RouteOf, Run, Legal, Ready, EntriesOf, IsAsset, IsOk, IsGood, MayBeStored, Revalidation, LastStored;
    RouteIsExact(site, request);
    RouteIsExact(site, next);
    StorableIsExact(r);
    var middle := Run(site, w, steps);
    RevalidationIsLegal(site, middle, request, r);
    RunOfMore(site, w, steps, Revalidation(site, request, r));
    RunKeepsReady(site, w, steps);
    ReplyIsLastStored(site, middle, Revalidation(site, request, r), next);
    StoredByRevalidation(site, request, r, OwnEntry(middle, site.RuntimeCache(), request.url));
  }

  lemma StoredByRevalidation(site: Site, request: Request, r: Response, before: Option<Response>)
    ensures LastStored(site, site.RuntimeCache(), Revalidation(site, request, r), request.url, before) ==
      if MayBeStored(r) then Some(r) else before
  {
    hide MayBeStored;
    var steps := Revalidation(site, request, r);
    assert steps[1..][1..] == [steps[2]] && steps[1..][1..][1..] == [];
    assert LastStored(site, site.RuntimeCache(), [steps[2]], request.url, before) == if MayBeStored(r) then Some(r) else before;
  }

  lemma {:induction false} RunKeepsReady(site: Site, w: Worker, steps: seq<Step>)
    requires Ready(site, w) && Legal(site, w, steps)
    ensures Ready(site, Run(site, w, steps))
    decreases |steps|
  {
    hide Ready, Enabled, Apply;
    if steps != [] {
      StepKeepsReady(site, w, steps[0]);
      RunKeepsReady(site, Apply(site, w, steps[0]), steps[1..]);
    }
  }

  /**
    The shell does not have to be the answer to a request for the shell: whatever page is navigated to
    replaces it exactly when the answer is ok and can be stored. An answer that is not ok starts no write.
   */
  lemma AnyPageBecomesTheShell(site: Site, w: Worker, request: Request, r: Response)
    requires IsPage(site, request)
    ensures var write := Write(site.StaticCache(), site.Own("/index.html"), r);
      var answered := AfterAnswer(site, AfterFetch(site, w, request), request, Some(r));
      var before := EntriesOf(w.caches, site.StaticCache());
      && (IsGood(r) ==> write in answered.writes)
      && (!IsGood(r) ==> answered.writes == w.writes && EntriesOf(answered.caches, site.StaticCache()) == before)
      && EntriesOf(AfterLand(answered, write, true).caches, site.StaticCache()) ==
           (if MayBeStored(r) then before[site.Own("/index.html") := r] else before)
      && (MayBeStored(r) ==> IsGood(r))
  {
    hide RouteOf, Opened, WithEntries, EntriesOf, HasCache, IsPage, IsOk, IsStorable;
    RouteIsExact(site, request);
    StorableIsExact(r);
    var more := map[site.Own("/index.html") := r];
    OpenedEntries(w.caches, site.StaticCache(), site.StaticCache());
    WrittenEntries(Opened(w.caches, site.StaticCache()), site.StaticCache(), more, site.StaticCache());
    assert EntriesOf(w.caches, site.StaticCache()) + more == EntriesOf(w.caches, site.StaticCache())[site.Own("/index.html") := r];
  }

  // Offline.

  lemma StepKeepsKeys(site: Site, w: Worker, step: Step, key: Url)
    requires Enabled(site, w, step) && key in EntriesOf(w.caches, site.StaticCache())
    ensures key in EntriesOf(Apply(site, w, step).caches, site.StaticCache())
  {
    hide RouteOf, Opened, WithEntries, Kept, EntriesOf, HasCache, AssetEntries, IsSuperseded, AllStorable, IsStorable, AssetAnswers;
    var own := site.StaticCache();
    OwnNames(site);
    match step
    case Install(results) =>
      OpenedEntries(w.caches, own, own);
      if AllStorable(results) {
        WrittenEntries(Opened(w.caches, own), own, AssetEntries(site, STATIC_ASSETS, results), own);
      }
    case Activate => KeptEntries(site, w.caches, own);
    case Fetch(request) =>
      OpenedEntries(w.caches, own, own);
      OpenedEntries(w.caches, site.RuntimeCache(), own);
    case Answered(_, _) =>
    case Land(write, _) => WrittenEntries(w.caches, write.cache, map[write.key := write.response], own);
    case Foreign(name, url, response) =>
      OpenedEntries(w.caches, name, own);
      WrittenEntries(Opened(w.caches, name), name, map[url := response], own);
  }

  lemma {:induction false} RunKeepsKeys(site: Site, w: Worker, steps: seq<Step>, key: Url)
    requires Legal(site, w, steps) && key in EntriesOf(w.caches, site.StaticCache())
    ensures key in EntriesOf(Run(site, w, steps).caches, site.StaticCache())
    decreases |steps|
  {
    hide Enabled, Apply, EntriesOf;
    if steps != [] {
      StepKeepsKeys(site, w, steps[0], key);
      RunKeepsKeys(site, Apply(site, w, steps[0]), steps[1..], key);
    }
  }

  lemma {:induction false} MatchFinds(caches: seq<Cache>, n: string, key: Url)
    requires key in EntriesOf(caches, n)
    ensures Match(caches, key).Some?
  {
    if caches[0].name != n {
      MatchFinds(caches[1..], n, key);
    }
  }

  lemma {:induction false} LastAssetIsThere(site: Site, paths: seq<string>, results: seq<Option<Response>>, i: int)
    requires |results| == |paths| && AllStorable(results) && 0 <= i < |paths|
    ensures site.Own(paths[i]) in AssetEntries(site, paths, results)
  {
    hide IsStorable;
    var last := |paths| - 1;
    if i < last {
      LastAssetIsThere(site, paths[..last], results[..last], i);
      assert paths[..last][i] == paths[i];
    }
  }

  /** After an install that got every asset, no run of events leaves an offline navigation without a page. */
  lemma OfflineNavigationIsServed(site: Site, w: Worker, results: seq<Option<Response>>, steps: seq<Step>, request: Request)
    requires |results| == |STATIC_ASSETS| && forall r <- results :: r.Some? && MayBeStored(r.value)
    requires Legal(site, AfterInstall(site, w, results), steps) && IsPage(site, request)
    ensures var after := Run(site, AfterInstall(site, w, results), steps);
      && AnswerReply(site, after, request, None).Reply?
      && Match(after.caches, site.Own("/index.html")) == Some(AnswerReply(site, after, request, None).response)
  {
    hide RouteOf, Run, Legal, Opened, WithEntries, EntriesOf, HasCache, AllStorable, AssetEntries, AssetAnswers, Match, IsPage, MayBeStored;
    RouteIsExact(site, request);
    AllStorableIsExact(results);
    var (own, key) := (site.StaticCache(), site.Own("/index.html"));
    var entries := AssetEntries(site, STATIC_ASSETS, results);
    LastAssetIsThere(site, STATIC_ASSETS, results, 0);
    OpenedEntries(w.caches, own, own);
    WrittenEntries(Opened(w.caches, own), own, entries, own);
    RunKeepsKeys(site, AfterInstall(site, w, results), steps, key);
    MatchFinds(Run(site, AfterInstall(site, w, results), steps).caches, own, key);
  }
}
