/**
 * The manifest Fetcher (internal/channel/channel.go): Get, GetURL and Fetch
 * from any number of goroutines, interleaved at the points where the lock is
 * released. The log records network answers, cache writes and returns.
 */
module ManifestCache {
  import opened Common
  import opened ReleaseChannel

  type Url = string

  datatype Binary = Binary(sha256: string, size: int)

  datatype Manifest = Manifest(
    channel: string, version: string, tag: string, downloadBase: string, binaries: map<string, Binary>)

  predicate IsHex(c: char) {
    '0' <= c <= '9' || 'a' <= c <= 'f' || 'A' <= c <= 'F'
  }

  /** Manifest.Validate. */
  predicate Validates(m: Manifest) {
    && IsValidName(m.channel) && m.version != "" && m.tag != "" && m.downloadBase != ""
    && m.binaries != map[]
    && forall b :: b in m.binaries ==>
         && |m.binaries[b].sha256| == 64
         && (forall i :: 0 <= i < 64 ==> IsHex(m.binaries[b].sha256[i]))
         && m.binaries[b].size > 0
  }

  const DEFAULT_MANIFEST_BASE := "https://github.com/paulmooreparks/tela/releases/download/channels/"

  function ManifestURL(base: string, name: string): Url {
    var b := if base == "" then DEFAULT_MANIFEST_BASE else base;
    (if b[|b| - 1] == '/' then b else b + "/") + Normalize(name) + ".json"
  }

  type Thread = nat

  datatype Event =
    | Answered(url: Url, m: Manifest)              // the network returned this manifest for the URL
    | Stored(url: Url, m: Manifest, time: nat)
    | Returned(url: Url, m: Manifest)
    | GetFailed(url: Url)                          // GetURL returned an error
    | FetchFailed(url: Url)                        // Fetch returned an error

  /** serveStale is true for GetURL, false for Fetch. */
  datatype Caller =
    | Fetching(url: Url, serveStale: bool)
    | GotManifest(url: Url, m: Manifest)
    | GotError(url: Url, serveStale: bool)

  datatype Entry = Entry(m: Manifest, at: nat)

  datatype World = World(ttl: nat, now: nat, cache: map<Url, Entry>, callers: map<Thread, Caller>, log: seq<Event>)

  datatype Step =
    | Tick(elapsed: nat)
    | GetURL(t: Thread, url: Url)                  // the first locked lookup
    | Get(t: Thread, base: string, name: string)
    | Fetch(t: Thread, url: Url)
    | Network(t: Thread, body: Option<Manifest>)   // None: transport, status or parse failure
    | Store(t: Thread)                             // the locked cache write, and return
    | Fail(t: Thread)                              // the locked stale lookup, or Fetch's plain error

  predicate Enabled(w: World, s: Step) {
    match s
    case Tick(_) => true
    case GetURL(t, _) => t !in w.callers
    case Get(t, _, _) => t !in w.callers
    case Fetch(t, _) => t !in w.callers
    case Network(t, _) => t in w.callers && w.callers[t].Fetching?
    case Store(t) => t in w.callers && w.callers[t].GotManifest?
    case Fail(t) => t in w.callers && w.callers[t].GotError?
  }

  function Lookup(w: World, t: Thread, url: Url): World {
    if url in w.cache && w.now - w.cache[url].at < w.ttl then w.(log := w.log + [Returned(url, w.cache[url].m)])
    else w.(callers := w.callers[t := Fetching(url, true)])
  }

  function Next(w: World, s: Step): World
    requires Enabled(w, s)
  {
    match s
    case Tick(elapsed) => w.(now := w.now + elapsed)
    case GetURL(t, url) => Lookup(w, t, url)
    case Get(t, base, name) => Lookup(w, t, ManifestURL(base, name))
    case Fetch(t, url) => w.(callers := w.callers[t := Fetching(url, false)])
    case Network(t, body) =>
      var c := w.callers[t];
      if body.Some? && Validates(body.value) then
        w.(callers := w.callers[t := GotManifest(c.url, body.value)], log := w.log + [Answered(c.url, body.value)])
      else w.(callers := w.callers[t := GotError(c.url, c.serveStale)])
    case Store(t) =>
      var c := w.callers[t];
      w.(cache := w.cache[c.url := Entry(c.m, w.now)], callers := w.callers - {t},
         log := w.log + [Stored(c.url, c.m, w.now), Returned(c.url, c.m)])
    case Fail(t) =>
      var c := w.callers[t];
      w.(callers := w.callers - {t},
         log := w.log + [if !c.serveStale then FetchFailed(c.url)
                         else if c.url in w.cache then Returned(c.url, w.cache[c.url].m)
                         else GetFailed(c.url)])
  }

  function Initial(ttl: nat): World {
    World(ttl, 0, map[], map[], [])
  }

  ghost predicate IsRun(w: World, steps: seq<Step>)
    decreases |steps|
  {
    steps == [] || (Enabled(w, steps[0]) && IsRun(Next(w, steps[0]), steps[1..]))
  }

  function Final(w: World, steps: seq<Step>): World
    requires IsRun(w, steps)
    decreases |steps|
  {
    if steps == [] then w else Final(Next(w, steps[0]), steps[1..])
  }

  /** A validated manifest fetched from the URL before position k. */
  ghost predicate Fetched(log: seq<Event>, k: nat, url: Url, m: Manifest)
    requires k <= |log|
  {
    Validates(m) && exists i :: 0 <= i < k && log[i] == Answered(url, m)
  }

  ghost predicate StoredBefore(log: seq<Event>, k: nat, url: Url)
    requires k <= |log|
  {
    exists i :: 0 <= i < k && log[i].Stored? && log[i].url == url
  }

  ghost predicate EventOk(log: seq<Event>, k: nat)
    requires k < |log|
  {
    match log[k]
    case Returned(url, m) => Fetched(log, k, url, m)
    case GetFailed(url) => !StoredBefore(log, k, url)
    case _ => true
  }

  ghost predicate Inv(w: World) {
    && (forall u :: u in w.cache ==> Fetched(w.log, |w.log|, u, w.cache[u].m))
    && (forall u :: StoredBefore(w.log, |w.log|, u) ==> u in w.cache)
    && (forall t :: t in w.callers && w.callers[t].GotManifest? ==>
          Fetched(w.log, |w.log|, w.callers[t].url, w.callers[t].m))
    && (forall k :: 0 <= k < |w.log| ==> EventOk(w.log, k))
  }

  lemma FetchedGrows(log: seq<Event>, more: seq<Event>, k: nat, j: nat, url: Url, m: Manifest)
    requires k <= |log| && k <= j <= |log + more| && Fetched(log, k, url, m)
    ensures Fetched(log + more, j, url, m)
  {
    var i :| 0 <= i < k && log[i] == Answered(url, m);
    assert (log + more)[i] == log[i];
  }

  lemma StoredShrinks(log: seq<Event>, more: seq<Event>, k: nat, url: Url)
    requires k <= |log| && StoredBefore(log + more, k, url)
    ensures StoredBefore(log, k, url)
  {
    var i :| 0 <= i < k && (log + more)[i].Stored? && (log + more)[i].url == url;
    assert log[i] == (log + more)[i];
  }

  /** Old events stay in order when the log grows. */
  lemma EventsStayOk(log: seq<Event>, more: seq<Event>)
    requires forall k :: 0 <= k < |log| ==> EventOk(log, k)
    ensures forall k :: 0 <= k < |log| ==> EventOk(log + more, k)
  {
    forall k | 0 <= k < |log| ensures EventOk(log + more, k) {
      assert (log + more)[k] == log[k] && EventOk(log, k);
      match log[k] {
        case Returned(url, m) => FetchedGrows(log, more, k, k, url, m);
        case GetFailed(url) =>
          if StoredBefore(log + more, k, url) {
            StoredShrinks(log, more, k, url);
          }
        case _ =>
      }
    }
  }

  lemma LookupKeepsInv(w: World, t: Thread, url: Url)
    requires Inv(w) && t !in w.callers
    ensures Inv(Lookup(w, t, url))
  {
    if url in w.cache && w.now - w.cache[url].at < w.ttl {
      AppendKeepsInv(w, Returned(url, w.cache[url].m), w.callers);
    }
  }

  /** Appending an event that is in order, with no new cache entry. */
  lemma AppendKeepsInv(w: World, e: Event, callers: map<Thread, Caller>)
    requires Inv(w) && !e.Stored?
    requires e.Returned? ==> Fetched(w.log, |w.log|, e.url, e.m)
    requires e.GetFailed? ==> e.url !in w.cache
    requires forall t :: t in callers && callers[t].GotManifest? ==>
               || (t in w.callers && callers[t] == w.callers[t])
               || (Validates(callers[t].m) && e == Answered(callers[t].url, callers[t].m))
    ensures Inv(w.(callers := callers, log := w.log + [e]))
  {
    var log' := w.log + [e];
    EventsStayOk(w.log, [e]);
    forall u | u in w.cache ensures Fetched(log', |log'|, u, w.cache[u].m) {
      FetchedGrows(w.log, [e], |w.log|, |log'|, u, w.cache[u].m);
    }
    forall u | StoredBefore(log', |log'|, u) ensures u in w.cache {
      var i :| 0 <= i < |log'| && log'[i].Stored? && log'[i].url == u;
      assert log'[|w.log|] == e;
      assert w.log[i] == log'[i];
      assert StoredBefore(w.log, |w.log|, u);
    }
    forall t | t in callers && callers[t].GotManifest? ensures Fetched(log', |log'|, callers[t].url, callers[t].m) {
      assert log'[|w.log|] == e;
      if t in w.callers && callers[t] == w.callers[t] {
        FetchedGrows(w.log, [e], |w.log|, |log'|, callers[t].url, callers[t].m);
      }
    }
    assert EventOk(log', |w.log|) by {
      assert log'[|w.log|] == e;
      if e.Returned? {
        FetchedGrows(w.log, [e], |w.log|, |w.log|, e.url, e.m);
      } else if e.GetFailed? {
        if StoredBefore(log', |w.log|, e.url) {
          StoredShrinks(w.log, [e], |w.log|, e.url);
        }
      }
    }
  }

  lemma StoreKeepsInv(w: World, t: Thread)
    requires Inv(w) && Enabled(w, Store(t))
    ensures Inv(Next(w, Store(t)))
  {
    var c := w.callers[t];
    var stored, returned := Stored(c.url, c.m, w.now), Returned(c.url, c.m);
    var log1 := w.log + [stored];
    var w1 := w.(cache := w.cache[c.url := Entry(c.m, w.now)], log := log1);
    EventsStayOk(w.log, [stored]);
    forall u | u in w1.cache ensures Fetched(log1, |log1|, u, w1.cache[u].m) {
      FetchedGrows(w.log, [stored], |w.log|, |log1|, u, if u == c.url then c.m else w.cache[u].m);
    }
    forall u | StoredBefore(log1, |log1|, u) ensures u in w1.cache {
      var i :| 0 <= i < |log1| && log1[i].Stored? && log1[i].url == u;
      if i < |w.log| {
        assert w.log[i] == log1[i];
        assert StoredBefore(w.log, |w.log|, u);
      }
    }
    forall k | k in w1.callers && w1.callers[k].GotManifest?
      ensures Fetched(log1, |log1|, w1.callers[k].url, w1.callers[k].m)
    {
      FetchedGrows(w.log, [stored], |w.log|, |log1|, w.callers[k].url, w.callers[k].m);
    }
    assert log1[|w.log|] == stored;
    assert Inv(w1);
    AppendKeepsInv(w1, returned, w.callers - {t});
    assert log1 + [returned] == w.log + [stored, returned];
  }

  lemma StepKeepsInv(w: World, s: Step)
    requires Inv(w) && Enabled(w, s)
    ensures Inv(Next(w, s))
  {
    match s {
      case GetURL(t, url) => LookupKeepsInv(w, t, url);
      case Get(t, base, name) => LookupKeepsInv(w, t, ManifestURL(base, name));
      case Network(t, body) =>
        if body.Some? && Validates(body.value) {
          var url := w.callers[t].url;
          AppendKeepsInv(w, Answered(url, body.value), w.callers[t := GotManifest(url, body.value)]);
        }
      case Store(t) => StoreKeepsInv(w, t);
      case Fail(t) =>
        var c := w.callers[t];
        AppendKeepsInv(w, if !c.serveStale then FetchFailed(c.url)
                          else if c.url in w.cache then Returned(c.url, w.cache[c.url].m)
                          else GetFailed(c.url), w.callers - {t});
      case _ =>
    }
  }

  /** The last manifest stored for a URL, and when. */
  function LastStored(log: seq<Event>, url: Url): Option<Entry> {
    if log == [] then None
    else
      var e := log[|log| - 1];
      if e.Stored? && e.url == url then Some(Entry(e.m, e.time)) else LastStored(log[..|log| - 1], url)
  }

  ghost predicate CacheIsLastStored(w: World) {
    forall u :: LastStored(w.log, u) == if u in w.cache then Some(w.cache[u]) else None
  }

  lemma StoredGrows(log: seq<Event>, e: Event, url: Url)
    ensures LastStored(log + [e], url) ==
            if e.Stored? && e.url == url then Some(Entry(e.m, e.time)) else LastStored(log, url)
  {
    assert (log + [e])[..|log|] == log;
  }

  /** What a step does to the last stored manifest. */
  lemma StoredAfter(w: World, s: Step, url: Url)
    requires Enabled(w, s)
    ensures
      LastStored(Next(w, s).log, url) ==
      if s.Store? && w.callers[s.t].url == url then Some(Entry(w.callers[s.t].m, w.now)) else LastStored(w.log, url)
  {
    var log, log' := w.log, Next(w, s).log;
    if s.Store? {
      var c := w.callers[s.t];
      StoredGrows(log, Stored(c.url, c.m, w.now), url);
      StoredGrows(log + [Stored(c.url, c.m, w.now)], Returned(c.url, c.m), url);
      assert log' == log + [Stored(c.url, c.m, w.now)] + [Returned(c.url, c.m)];
    } else if log' != log {
      StoredGrows(log, log'[|log|], url);
      assert log' == log + [log'[|log|]];
    }
  }

  lemma StepKeepsLastStored(w: World, s: Step)
    requires CacheIsLastStored(w) && Enabled(w, s)
    ensures CacheIsLastStored(Next(w, s))
  {
    var w' := Next(w, s);
    forall u ensures LastStored(w'.log, u) == if u in w'.cache then Some(w'.cache[u]) else None {
      StoredAfter(w, s, u);
    }
  }

  lemma {:induction false} RunKeepsInv(w: World, steps: seq<Step>)
    requires Inv(w) && CacheIsLastStored(w) && IsRun(w, steps)
    ensures Inv(Final(w, steps)) && CacheIsLastStored(Final(w, steps))
    decreases |steps|
  {
    if steps == [] {
    } else {
      StepKeepsInv(w, steps[0]);
      StepKeepsLastStored(w, steps[0]);
      RunKeepsInv(Next(w, steps[0]), steps[1..]);
    }
  }

  /**
   * In every reachable state GetURL answers without the network exactly when
   * the last manifest stored for the URL is younger than the TTL, and then
   * answers with that one.
   */
  lemma CacheHitsExactly(ttl: nat, steps: seq<Step>, t: Thread, url: Url)
    requires IsRun(Initial(ttl), steps) && t !in Final(Initial(ttl), steps).callers
    ensures
      var w := Final(Initial(ttl), steps);
      var last := LastStored(w.log, url);
      var w' := Next(w, GetURL(t, url));
      if last.Some? && w.now - last.value.at < w.ttl then w' == w.(log := w.log + [Returned(url, last.value.m)])
      else t in w'.callers && w'.callers[t] == Fetching(url, true) && w'.log == w.log
  {
    RunKeepsInv(Initial(ttl), steps);
  }

  /** In every interleaving, a manifest returned for a URL was fetched from that URL and passed validation. */
  lemma ReturnsAreFetchedAndValid(ttl: nat, steps: seq<Step>, k: nat)
    requires IsRun(Initial(ttl), steps) && k < |Final(Initial(ttl), steps).log|
    requires Final(Initial(ttl), steps).log[k].Returned?
    ensures
      var log := Final(Initial(ttl), steps).log;
      var m := log[k].m;
      && (exists i :: 0 <= i < k && log[i] == Answered(log[k].url, m))
      && IsValidName(m.channel) && m.version != "" && m.tag != "" && m.downloadBase != "" && |m.binaries| > 0
      && (forall b :: b in m.binaries ==>
            && |m.binaries[b].sha256| == 64 && m.binaries[b].size > 0
            && forall c :: c in m.binaries[b].sha256 ==> '0' <= c <= '9' || 'a' <= c <= 'f' || 'A' <= c <= 'F')
  {
    RunKeepsInv(Initial(ttl), steps);
    assert EventOk(Final(Initial(ttl), steps).log, k);
  }

  /** Once one fetch of a URL has been cached, no later GetURL of it returns an error. */
  lemma StaleBeatsError(ttl: nat, steps: seq<Step>, i: nat, k: nat)
    requires IsRun(Initial(ttl), steps) && i < k < |Final(Initial(ttl), steps).log|
    requires Final(Initial(ttl), steps).log[i].Stored?
    ensures Final(Initial(ttl), steps).log[k] != GetFailed(Final(Initial(ttl), steps).log[i].url)
  {
    RunKeepsInv(Initial(ttl), steps);
    assert EventOk(Final(Initial(ttl), steps).log, k);
  }

  // ---- which answer is cached ----

  /** The last valid manifest the network returned for a URL. */
  function LastAnswered(log: seq<Event>, url: Url): Option<Manifest> {
    if log == [] then None
    else
      var e := log[|log| - 1];
      if e.Answered? && e.url == url then Some(e.m) else LastAnswered(log[..|log| - 1], url)
  }

  lemma AnsweredGrows(log: seq<Event>, e: Event, url: Url)
    ensures LastAnswered(log + [e], url) == if e.Answered? && e.url == url then Some(e.m) else LastAnswered(log, url)
  {
    assert (log + [e])[..|log|] == log;
  }

  /** What a step does to the last answer. */
  lemma AnsweredAfter(w: World, s: Step, url: Url)
    requires Enabled(w, s)
    ensures
      LastAnswered(Next(w, s).log, url) ==
      if s.Network? && s.body.Some? && Validates(s.body.value) && w.callers[s.t].url == url then s.body
      else LastAnswered(w.log, url)
  {
    var log, log' := w.log, Next(w, s).log;
    if s.Store? {
      var c := w.callers[s.t];
      AnsweredGrows(log, Stored(c.url, c.m, w.now), url);
      AnsweredGrows(log + [Stored(c.url, c.m, w.now)], Returned(c.url, c.m), url);
      assert log' == log + [Stored(c.url, c.m, w.now)] + [Returned(c.url, c.m)];
    } else if log' != log {
      AnsweredGrows(log, log'[|log|], url);
      assert log' == log + [log'[|log|]];
    }
  }

  /** An answer is on its way into the cache. */
  predicate Pending(callers: map<Thread, Caller>, t: Thread, url: Url) {
    t in callers && callers[t].GotManifest? && callers[t].url == url
  }

  /** No answer arrives for a URL while another one for it is on its way. */
  ghost predicate Unraced(w: World, steps: seq<Step>)
    requires IsRun(w, steps)
    decreases |steps|
  {
    steps == [] ||
    ((steps[0].Network? ==> forall t :: !Pending(w.callers, t, w.callers[steps[0].t].url))
     && Unraced(Next(w, steps[0]), steps[1..]))
  }

  function Cached(w: World, url: Url): Option<Manifest> {
    if url in w.cache then Some(w.cache[url].m) else None
  }

  /** The last answer is the one on its way if there is one, else the cached one. */
  ghost predicate Tracks(callers: map<Thread, Caller>, url: Url, answered: Option<Manifest>, cached: Option<Manifest>) {
    && (forall t :: Pending(callers, t, url) ==> answered == Some(callers[t].m))
    && (forall t, u :: Pending(callers, t, url) && Pending(callers, u, url) ==> t == u)
    && ((forall t :: !Pending(callers, t, url)) ==> answered == cached)
  }

  ghost predicate KeepsUp(w: World, url: Url) {
    Tracks(w.callers, url, LastAnswered(w.log, url), Cached(w, url))
  }

  lemma SamePending(
      callers: map<Thread, Caller>, callers': map<Thread, Caller>,
      url: Url, answered: Option<Manifest>, cached: Option<Manifest>)
    requires Tracks(callers, url, answered, cached)
    requires forall t :: Pending(callers, t, url) ==> t in callers' && callers'[t] == callers[t]
    requires forall t :: Pending(callers', t, url) ==> Pending(callers, t, url)
    ensures Tracks(callers', url, answered, cached)
  {
    assert forall t :: Pending(callers, t, url) ==> Pending(callers', t, url);
  }

  lemma AnswerStored(
      callers: map<Thread, Caller>, url: Url, answered: Option<Manifest>, cached: Option<Manifest>, t: Thread)
    requires Tracks(callers, url, answered, cached) && Pending(callers, t, url)
    ensures Tracks(callers - {t}, url, answered, Some(callers[t].m))
  {
    assert forall u :: Pending(callers - {t}, u, url) ==> Pending(callers, u, url) && u != t;
  }

  lemma AnswerArrived(callers: map<Thread, Caller>, url: Url, m: Manifest, cached: Option<Manifest>, t: Thread)
    requires forall u :: !Pending(callers, u, url)
    ensures Tracks(callers[t := GotManifest(url, m)], url, Some(m), cached)
  {
    var callers' := callers[t := GotManifest(url, m)];
    assert Pending(callers', t, url);
    assert forall u :: Pending(callers', u, url) ==> u == t || Pending(callers, u, url);
  }

  lemma StepKeepsUp(w: World, s: Step, url: Url)
    requires Enabled(w, s) && KeepsUp(w, url)
    requires s.Network? ==> forall t :: !Pending(w.callers, t, w.callers[s.t].url)
    ensures KeepsUp(Next(w, s), url)
  {
    AnsweredAfter(w, s, url);
    if s.Store? && w.callers[s.t].url == url {
      AnswerStored(w.callers, url, LastAnswered(w.log, url), Cached(w, url), s.t);
    } else if s.Network? && s.body.Some? && Validates(s.body.value) && w.callers[s.t].url == url {
      AnswerArrived(w.callers, url, s.body.value, Cached(w, url), s.t);
    } else {
      SamePending(w.callers, Next(w, s).callers, url, LastAnswered(w.log, url), Cached(w, url));
    }
  }

  lemma {:induction false} RunKeepsUp(w: World, steps: seq<Step>, url: Url)
    requires IsRun(w, steps) && Unraced(w, steps) && KeepsUp(w, url)
    ensures KeepsUp(Final(w, steps), url)
    decreases |steps|
  {
    if steps == [] {
    } else {
      StepKeepsUp(w, steps[0], url);
      RunKeepsUp(Next(w, steps[0]), steps[1..], url);
    }
  }

  /** While answers do not race, a URL's cache entry is the last answer for it as soon as that has been stored. */
  lemma CacheKeepsUp(ttl: nat, steps: seq<Step>, url: Url)
    requires IsRun(Initial(ttl), steps) && Unraced(Initial(ttl), steps)
    requires forall t :: !Pending(Final(Initial(ttl), steps).callers, t, url)
    ensures
      var w := Final(Initial(ttl), steps);
      Cached(w, url) == LastAnswered(w.log, url)
  {
    RunKeepsUp(Initial(ttl), steps, url);
  }

  lemma RunSnoc(w: World, steps: seq<Step>, s: Step)
    requires IsRun(w, steps) && Enabled(Final(w, steps), s)
    ensures IsRun(w, steps + [s]) && Final(w, steps + [s]) == Next(Final(w, steps), s)
    decreases |steps|
  {
    if steps == [] {
      assert [] + [s] == [s] && [s][1..] == [];
      assert IsRun(Next(w, s), [s][1..]);
    } else {
      assert (steps + [s])[1..] == steps[1..] + [s];
      RunSnoc(Next(w, steps[0]), steps[1..], s);
    }
  }

  /** One more step of a run, and what it makes of the last answer. */
  lemma Extend(ttl: nat, steps: seq<Step>, s: Step, url: Url) returns (more: seq<Step>, w: World)
    requires IsRun(Initial(ttl), steps) && Enabled(Final(Initial(ttl), steps), s)
    ensures more == steps + [s] && IsRun(Initial(ttl), more)
    ensures Final(Initial(ttl), more) == w == Next(Final(Initial(ttl), steps), s)
    ensures
      var w0 := Final(Initial(ttl), steps);
      LastAnswered(w.log, url) ==
      if s.Network? && s.body.Some? && Validates(s.body.value) && w0.callers[s.t].url == url then s.body
      else LastAnswered(w0.log, url)
  {
    RunSnoc(Initial(ttl), steps, s);
    AnsweredAfter(Final(Initial(ttl), steps), s, url);
    more, w := steps + [s], Next(Final(Initial(ttl), steps), s);
  }

  /** Two fetches of one URL, both answered and neither stored. */
  lemma TwoAnswers(ttl: nat, url: Url, older: Manifest, newer: Manifest) returns (steps: seq<Step>, w: World)
    requires Validates(older) && Validates(newer)
    ensures IsRun(Initial(ttl), steps) && Final(Initial(ttl), steps) == w
    ensures w.callers == map[1 := GotManifest(url, older), 2 := GotManifest(url, newer)]
    ensures LastAnswered(w.log, url) == Some(newer)
  {
    var r1, w1 := Extend(ttl, [], Fetch(1, url), url);
    var r2, w2 := Extend(ttl, r1, Fetch(2, url), url);
    assert w2.callers == map[1 := Fetching(url, false), 2 := Fetching(url, false)];
    var r3, w3 := Extend(ttl, r2, Network(1, Some(older)), url);
    steps, w := Extend(ttl, r3, Network(2, Some(newer)), url);
  }

  /** When they race, an older answer can replace a newer one, with none on its way any more. */
  lemma OlderAnswerCanWin(ttl: nat, url: Url, older: Manifest, newer: Manifest)
    requires Validates(older) && Validates(newer)
    ensures exists steps ::
              && IsRun(Initial(ttl), steps)
              && var w := Final(Initial(ttl), steps);
                 && (forall t :: !Pending(w.callers, t, url))
                 && LastAnswered(w.log, url) == Some(newer) && Cached(w, url) == Some(older)
  {
    var r4, w4 := TwoAnswers(ttl, url, older, newer);
    var r5, w5 := Extend(ttl, r4, Store(2), url);
    assert w5.callers == map[1 := GotManifest(url, older)];
    var r6, w6 := Extend(ttl, r5, Store(1), url);
    assert w6.callers == map[];
  }

  // ---- where a fetch goes and how it ends ----

  /** A base without its last slash names the same manifest, and so does none for the default. */
  lemma SlashMakesNoDifference(base: string, name: string)
    requires base != "" && base[|base| - 1] != '/'
    ensures ManifestURL(base, name) == ManifestURL(base + "/", name) == base + "/" + Normalize(name) + ".json"
    ensures ManifestURL("", name) == ManifestURL(DEFAULT_MANIFEST_BASE, name)
  {
  }

  /**
   * Get is GetURL of the channel's manifest, and Fetch goes to the network
   * whatever is cached.
   */
  lemma EntryPoints(w: World, t: Thread, base: string, name: string, url: Url)
    requires t !in w.callers
    ensures Next(w, Get(t, base, name)) == Next(w, GetURL(t, ManifestURL(base, name)))
    ensures Next(w, Fetch(t, url)) == w.(callers := w.callers[t := Fetching(url, false)])
  {
  }

  /**
   * How a fetch under way ends, in every reachable state: a valid answer is
   * cached and returned; on any other GetURL returns the last manifest stored for
   * the URL if there is one, and Fetch fails.
   */
  lemma FetchEndsExactly(ttl: nat, steps: seq<Step>, t: Thread, url: Url, serveStale: bool, body: Option<Manifest>)
    requires IsRun(Initial(ttl), steps)
    requires t in Final(Initial(ttl), steps).callers
    requires Final(Initial(ttl), steps).callers[t] == Fetching(url, serveStale)
    ensures
      var w := Final(Initial(ttl), steps);
      var w', last := Next(w, Network(t, body)), LastStored(w.log, url);
      if body.Some? && Validates(body.value) then
        && Enabled(w', Store(t))
        && Next(w', Store(t)) ==
           w.(cache := w.cache[url := Entry(body.value, w.now)], callers := w.callers - {t},
              log := w.log + [Answered(url, body.value)] + [Stored(url, body.value, w.now), Returned(url, body.value)])
      else
        && Enabled(w', Fail(t))
        && Next(w', Fail(t)) ==
           w.(callers := w.callers - {t},
              log := w.log + [if !serveStale then FetchFailed(url)
                              else if last.Some? then Returned(url, last.value.m) else GetFailed(url)])
  {
    RunKeepsInv(Initial(ttl), steps);
    var w := Final(Initial(ttl), steps);
    var w' := Next(w, Network(t, body));
    assert w'.callers - {t} == w.callers - {t};
    assert LastStored(w.log, url) == if url in w.cache then Some(w.cache[url]) else None;
  }
}
