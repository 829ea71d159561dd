/**
 * The telad presence cache of TelaVisor (HasLocalTelad, readTeladPresenceCache
 * and invalidateTeladPresence in cmd/telagui/app.go): a probe mutex, a cache
 * mutex, a wrapping generation counter and a TTL. Each step is one region the
 * cache mutex makes atomic, or a gap between two. The log records what
 * happened; the theorems are about the log of every run.
 */
module PresenceCache {
  import opened Common

  /** teladPresenceTTL, 5 seconds in nanoseconds. */
  const TTL: nat := 5_000_000_000

  type Thread = nat

  /** A probe is named by the log position of its Loaded event. */
  datatype Event =
    | Loaded(time: nat)                               // a probe reads the generation
    | Answered(probe: nat, value: bool)               // checkTeladPresent returns
    | Wrote(probe: nat, value: bool, time: nat)       // the answer is cached
    | Discarded(probe: nat)                           // the generation moved; not cached
    | Served(probe: nat, value: bool, time: nat)      // a caller gets the cached answer
    | Returned(probe: nat, value: bool)               // the caller that probed returns
    | Invalidated

  datatype Caller =
    | Queued                                          // missed once, waiting for the probe mutex
    | Rechecking                                      // holds the probe mutex
    | Missed                                          // missed again, about to read the generation
    | Probing(probe: nat, generation: nat)
    | Holding(probe: nat, generation: nat, value: bool) // has the answer, about to lock the cache
    | Returning(probe: nat, value: bool)              // probed, about to release the probe mutex and return
    | Finishing                                       // served at the recheck, about to release the probe mutex

  datatype Entry = Entry(value: bool, at: nat, probe: nat)

  datatype World = World(
    now: nat,
    generation: nat,                                  // uint64
    cache: Option<Entry>,                             // None: the timestamp is zero
    mutex: Option<Thread>,                            // the holder of the probe mutex
    callers: map<Thread, Caller>,
    log: seq<Event>)

  datatype Step =
    | Tick(elapsed: nat)
    | Invalidate
    | Call(t: Thread)                                 // HasLocalTelad, first cache read
    | Lock(t: Thread)
    | Recheck(t: Thread)
    | Load(t: Thread)
    | Answer(t: Thread, value: bool)
    | Commit(t: Thread)
    | Unlock(t: Thread)

  predicate Hit(w: World) {
    w.cache.Some? && w.now - w.cache.value.at < TTL
  }

  predicate At(w: World, t: Thread, c: Caller) {
    t in w.callers && w.callers[t] == c
  }

  predicate Enabled(w: World, s: Step) {
    match s
    case Tick(_) => true
    case Invalidate => true
    case Call(t) => t !in w.callers
    case Lock(t) => At(w, t, Queued) && w.mutex.None?
    case Recheck(t) => At(w, t, Rechecking)
    case Load(t) => At(w, t, Missed)
    case Answer(t, _) => t in w.callers && w.callers[t].Probing?
    case Commit(t) => t in w.callers && w.callers[t].Holding?
    case Unlock(t) => t in w.callers && (w.callers[t].Finishing? || w.callers[t].Returning?)
  }

  function Next(w: World, s: Step): World
    requires Enabled(w, s)
  {
    match s
    case Tick(elapsed) => w.(now := w.now + elapsed)
    case Invalidate =>
      w.(generation := (w.generation + 1) % TWO_64, cache := None, log := w.log + [Invalidated])
    case Call(t) =>
      if Hit(w) then w.(log := w.log + [Served(w.cache.value.probe, w.cache.value.value, w.now)])
      else w.(callers := w.callers[t := Queued])
    case Lock(t) => w.(mutex := Some(t), callers := w.callers[t := Rechecking])
    case Recheck(t) =>
      if Hit(w) then
        w.(callers := w.callers[t := Finishing],
           log := w.log + [Served(w.cache.value.probe, w.cache.value.value, w.now)])
      else w.(callers := w.callers[t := Missed])
    case Load(t) =>
      w.(callers := w.callers[t := Probing(|w.log|, w.generation)], log := w.log + [Loaded(w.now)])
    case Answer(t, v) =>
      var c := w.callers[t];
      w.(callers := w.callers[t := Holding(c.probe, c.generation, v)], log := w.log + [Answered(c.probe, v)])
    case Commit(t) =>
      var c := w.callers[t];
      var done := w.callers[t := Returning(c.probe, c.value)];
      if w.generation == c.generation then
        w.(callers := done, cache := Some(Entry(c.value, w.now, c.probe)),
           log := w.log + [Wrote(c.probe, c.value, w.now)])
      else w.(callers := done, log := w.log + [Discarded(c.probe)])
    case Unlock(t) =>
      var c := w.callers[t];
      w.(mutex := None, callers := w.callers - {t},
         log := if c.Returning? then w.log + [Returned(c.probe, c.value)] else w.log)
  }

  const INITIAL := World(0, 0, None, None, map[], [])

  ghost predicate IsRun(w: World, steps: seq<Step>)
    decreases |steps|
  {
    steps == [] || (Enabled(w, steps[0]) && IsRun(Next(w, steps[0]), steps[1..]))
  }

  function Final(w: World, steps: seq<Step>): World
    requires IsRun(w, steps)
    decreases |steps|
  {
    if steps == [] then w else Final(Next(w, steps[0]), steps[1..])
  }

  /** Invalidations in a stretch of log. */
  function Invalidations(log: seq<Event>): nat {
    if log == [] then 0
    else Invalidations(log[..|log| - 1]) + (if log[|log| - 1].Invalidated? then 1 else 0)
  }

  lemma {:induction false} InvalidationsSplit(a: seq<Event>, b: seq<Event>)
    ensures Invalidations(a + b) == Invalidations(a) + Invalidations(b)
  {
    if b == [] {
      assert a + b == a;
    } else {
      var n := |b| - 1;
      assert (a + b)[..|a + b| - 1] == a + b[..n];
      InvalidationsSplit(a, b[..n]);
    }
  }

  /** The log grown by one event, seen from an earlier position. */
  lemma Grow(log: seq<Event>, e: Event, i: nat)
    requires i <= |log|
    ensures Invalidations((log + [e])[i..]) == Invalidations(log[i..]) + (if e.Invalidated? then 1 else 0)
  {
    assert (log + [e])[i..] == log[i..] + [e];
    InvalidationsSplit(log[i..], [e]);
    assert Invalidations([e]) == if e.Invalidated? then 1 else 0 by {
      assert [e][..0] == [];
    }
  }

  // ---- what the log of a run looks like ----

  /** The answer of a probe is in the log. */
  ghost predicate AnsweredWith(log: seq<Event>, probe: nat, value: bool) {
    exists j :: probe < j < |log| && log[j] == Answered(probe, value)
  }

  /** A served value came from a probe that read the generation with no invalidation since, modulo the wrap. */
  ghost predicate ServedFresh(log: seq<Event>, k: nat)
    requires k < |log|
  {
    log[k].Served? ==>
      && log[k].probe < k && log[log[k].probe].Loaded?
      && Invalidations(log[log[k].probe..k]) % TWO_64 == 0
      && AnsweredWith(log[..k], log[k].probe, log[k].value)
      && exists at: nat :: WrittenAt(log[..k], log[k].probe, log[k].value, at) && at <= log[k].time < at + TTL
  }

  /** The answer of a probe was cached at the given time. */
  ghost predicate WrittenAt(log: seq<Event>, probe: nat, value: bool, at: nat) {
    exists j :: probe < j < |log| && log[j] == Wrote(probe, value, at)
  }

  /** No probe is under way between Loaded at i and a later Loaded at k. */
  ghost predicate Settled(log: seq<Event>, i: nat, k: nat)
    requires i < k <= |log|
  {
    exists j :: i < j < k && (log[j] == Discarded(i) || (log[j].Wrote? && log[j].probe == i))
  }

  ghost predicate LastLoad(log: seq<Event>, i: nat) {
    i < |log| && log[i].Loaded? && forall j :: i < j < |log| ==> !log[j].Loaded?
  }

  /** Consecutive probes without an invalidation since the first are a TTL apart. */
  ghost predicate Spaced(log: seq<Event>, k: nat)
    requires k < |log|
  {
    forall i :: 0 <= i < k && log[k].Loaded? && LastLoad(log[..k], i) ==>
      && Settled(log, i, k)
      && (Invalidations(log[i..k]) == 0 ==>
            exists j :: i < j < k && log[j].Wrote? && log[j].probe == i && log[k].time >= log[j].time + TTL)
  }

  // ---- the invariant ----

  predicate InProbeMutex(c: Caller) {
    !c.Queued?
  }

  predicate MidProbe(c: Caller) {
    c.Probing? || c.Holding?
  }

  /** The mutex holder is the one caller past the lock; at most one probe runs. */
  ghost predicate SingleFlight(w: World) {
    && (forall t :: t in w.callers && InProbeMutex(w.callers[t]) ==> w.mutex == Some(t))
    && (w.mutex.Some? ==> w.mutex.value in w.callers && InProbeMutex(w.callers[w.mutex.value]))
  }

  /** A probe under way is the last one loaded, and its generation plus the invalidations since is the current one. */
  ghost predicate ProbeOk(c: Caller, log: seq<Event>, generation: nat)
    requires MidProbe(c)
  {
    && LastLoad(log, c.probe)
    && c.generation < TWO_64
    && (c.generation + Invalidations(log[c.probe..])) % TWO_64 == generation
    && (c.Holding? ==> AnsweredWith(log, c.probe, c.value))
  }

  ghost predicate ProbeKnown(w: World) {
    forall t :: t in w.callers && MidProbe(w.callers[t]) ==> ProbeOk(w.callers[t], w.log, w.generation)
  }

  /** The cached answer is that of a logged probe, with no invalidation since, modulo the wrap. */
  ghost predicate EntryOk(e: Entry, log: seq<Event>, now: nat) {
    && e.probe < |log| && log[e.probe].Loaded? && e.at <= now
    && Invalidations(log[e.probe..]) % TWO_64 == 0
    && AnsweredWith(log, e.probe, e.value)
    && WrittenAt(log, e.probe, e.value, e.at)
  }

  ghost predicate CacheKnown(w: World) {
    w.cache.Some? ==> EntryOk(w.cache.value, w.log, w.now)
  }

  ghost predicate Idle(w: World) {
    forall t :: t in w.callers ==> !MidProbe(w.callers[t])
  }

  /** The probe loaded at i is over, and its answer cached if nothing invalidated it. */
  ghost predicate SettledOk(log: seq<Event>, cache: Option<Entry>, i: nat)
    requires i < |log|
  {
    && Settled(log, i, |log|)
    && (Invalidations(log[i..]) == 0 ==>
          && cache.Some? && cache.value.probe == i
          && exists j :: i < j < |log| && log[j].Wrote? && log[j].probe == i && log[j].time == cache.value.at)
  }

  ghost predicate LastSettled(w: World) {
    Idle(w) ==> forall i :: 0 <= i < |w.log| && LastLoad(w.log, i) ==> SettledOk(w.log, w.cache, i)
  }

  /** A caller about to probe missed while holding the mutex, and still misses. */
  ghost predicate StillMissing(w: World) {
    forall t :: t in w.callers && w.callers[t].Missed? ==> !Hit(w)
  }

  ghost predicate LogGood(log: seq<Event>) {
    && (forall k :: 0 <= k < |log| ==> ServedFresh(log, k))
    && (forall k :: 0 <= k < |log| ==> Spaced(log, k))
  }

  ghost predicate Inv(w: World) {
    && w.generation < TWO_64
    && SingleFlight(w) && ProbeKnown(w) && CacheKnown(w) && LastSettled(w) && StillMissing(w) && LogGood(w.log)
  }

  // ---- preservation, one conjunct at a time ----

  lemma LogGrows(w: World, s: Step)
    requires Enabled(w, s)
    ensures Next(w, s).log == w.log || Next(w, s).log == w.log + [Next(w, s).log[|w.log|]]
  {
  }

  lemma AnswersStay(log: seq<Event>, e: Event, probe: nat, value: bool)
    requires AnsweredWith(log, probe, value)
    ensures AnsweredWith(log + [e], probe, value)
  {
    var j :| probe < j < |log| && log[j] == Answered(probe, value);
    assert (log + [e])[j] == log[j];
  }

  lemma SettlesStay(log: seq<Event>, e: Event, i: nat)
    requires i < |log| && Settled(log, i, |log|)
    ensures Settled(log + [e], i, |log|) && Settled(log + [e], i, |log| + 1)
  {
    var j :| i < j < |log| && (log[j] == Discarded(i) || (log[j].Wrote? && log[j].probe == i));
    assert (log + [e])[j] == log[j];
  }

  lemma KeepSingleFlight(w: World, s: Step)
    requires Enabled(w, s) && SingleFlight(w)
    ensures SingleFlight(Next(w, s))
  {
  }

  lemma ProbeStaysOk(c: Caller, log: seq<Event>, generation: nat, e: Event)
    requires MidProbe(c) && ProbeOk(c, log, generation) && !e.Loaded?
    ensures ProbeOk(c, log + [e], if e.Invalidated? then (generation + 1) % TWO_64 else generation)
  {
    Grow(log, e, c.probe);
    GenerationStep(c.generation, Invalidations(log[c.probe..]));
    if c.Holding? {
      AnswersStay(log, e, c.probe, c.value);
    }
  }

  lemma ProbeStarts(log: seq<Event>, generation: nat, time: nat)
    requires generation < TWO_64
    ensures ProbeOk(Probing(|log|, generation), log + [Loaded(time)], generation)
  {
    Grow(log, Loaded(time), |log|);
    assert log[|log|..] == [];
  }

  /** A step leaves another caller's probe alone, or answers it. */
  lemma ProbeEffect(w: World, s: Step, t: Thread)
    requires Enabled(w, s) && SingleFlight(w) && s != Load(t)
    requires t in Next(w, s).callers && MidProbe(Next(w, s).callers[t])
    ensures t in w.callers && MidProbe(w.callers[t])
    ensures
      var w', c := Next(w, s), w.callers[t];
      && w'.generation == (if s.Invalidate? then (w.generation + 1) % TWO_64 else w.generation)
      && (w'.log != w.log ==>
            && |w'.log| == |w.log| + 1 && w'.log == w.log + [w'.log[|w.log|]]
            && !w'.log[|w.log|].Loaded? && (w'.log[|w.log|].Invalidated? <==> s.Invalidate?))
      && (s.Invalidate? ==> w'.log != w.log)
      && (w'.callers[t] != c ==>
            && s.Answer? && c.Probing? && w'.callers[t] == Holding(c.probe, c.generation, s.value)
            && w'.log == w.log + [Answered(c.probe, s.value)])
  {
  }

  lemma ProbeAnswered(c: Caller, log: seq<Event>, generation: nat, value: bool)
    requires c.Probing? && ProbeOk(c, log, generation)
    ensures ProbeOk(Holding(c.probe, c.generation, value), log + [Answered(c.probe, value)], generation)
  {
    ProbeStaysOk(c, log, generation, Answered(c.probe, value));
    assert (log + [Answered(c.probe, value)])[|log|] == Answered(c.probe, value);
  }

  lemma KeepProbe(w: World, s: Step, t: Thread)
    requires Enabled(w, s) && SingleFlight(w) && s != Load(t)
    requires t in Next(w, s).callers && MidProbe(Next(w, s).callers[t])
    requires t in w.callers && MidProbe(w.callers[t]) ==> ProbeOk(w.callers[t], w.log, w.generation)
    ensures ProbeOk(Next(w, s).callers[t], Next(w, s).log, Next(w, s).generation)
  {
    ProbeEffect(w, s, t);
    var w', c := Next(w, s), w.callers[t];
    if w'.callers[t] != c {
      ProbeAnswered(c, w.log, w.generation, s.value);
    } else if w'.log != w.log {
      ProbeStaysOk(c, w.log, w.generation, w'.log[|w.log|]);
    }
  }

  lemma KeepProbeKnown(w: World, s: Step)
    requires Enabled(w, s) && w.generation < TWO_64 && SingleFlight(w) && ProbeKnown(w)
    ensures ProbeKnown(Next(w, s))
  {
    var w' := Next(w, s);
    forall t | t in w'.callers && MidProbe(w'.callers[t])
      ensures ProbeOk(w'.callers[t], w'.log, w'.generation)
    {
      if s == Load(t) {
        ProbeStarts(w.log, w.generation, w.now);
      } else {
        KeepProbe(w, s, t);
      }
    }
  }

  lemma GenerationStep(g: nat, n: nat)
    ensures (g + (n + 1)) % TWO_64 == ((g + n) % TWO_64 + 1) % TWO_64
  {
  }

  /** Equal generations mean a whole number of wraps in between. */
  lemma EqualGenerations(g: nat, n: nat)
    requires g < TWO_64
    ensures (g + n) % TWO_64 == g <==> n % TWO_64 == 0
  {
  }

  lemma EntryStaysOk(e: Entry, log: seq<Event>, now: nat, event: Event)
    requires EntryOk(e, log, now) && !event.Invalidated?
    ensures EntryOk(e, log + [event], now)
  {
    Grow(log, event, e.probe);
    AnswersStay(log, event, e.probe, e.value);
    WritesStay(log, event, e);
  }

  lemma WritesStay(log: seq<Event>, event: Event, e: Entry)
    requires WrittenAt(log, e.probe, e.value, e.at)
    ensures WrittenAt(log + [event], e.probe, e.value, e.at)
  {
    var j :| e.probe < j < |log| && log[j] == Wrote(e.probe, e.value, e.at);
    assert (log + [event])[j] == log[j];
  }

  lemma CommitIsKnown(c: Caller, log: seq<Event>, generation: nat, now: nat)
    requires c.Holding? && ProbeOk(c, log, generation) && generation == c.generation
    ensures EntryOk(Entry(c.value, now, c.probe), log + [Wrote(c.probe, c.value, now)], now)
  {
    var event := Wrote(c.probe, c.value, now);
    EqualGenerations(c.generation, Invalidations(log[c.probe..]));
    Grow(log, event, c.probe);
    AnswersStay(log, event, c.probe, c.value);
    assert (log + [event])[|log|] == event;
  }

  lemma KeepCacheKnown(w: World, s: Step)
    requires Enabled(w, s) && ProbeKnown(w) && CacheKnown(w)
    ensures CacheKnown(Next(w, s))
  {
    var w' := Next(w, s);
    LogGrows(w, s);
    if s.Commit? && w.generation == w.callers[s.t].generation {
      CommitIsKnown(w.callers[s.t], w.log, w.generation, w.now);
    } else if w'.cache.Some? && w'.log != w.log {
      EntryStaysOk(w.cache.value, w.log, w.now, w'.log[|w.log|]);
    }
  }

  lemma KeepStillMissing(w: World, s: Step)
    requires Enabled(w, s) && SingleFlight(w) && StillMissing(w)
    ensures StillMissing(Next(w, s))
  {
    KeepSingleFlight(w, s);
    var w' := Next(w, s);
    forall t | t in w'.callers && w'.callers[t].Missed? ensures !Hit(w') {
      if s != Recheck(t) {
        assert t in w.callers && w.callers[t].Missed?;
      }
    }
  }

  lemma SettledStaysOk(log: seq<Event>, cache: Option<Entry>, cache': Option<Entry>, i: nat, e: Event)
    requires i < |log| && SettledOk(log, cache, i)
    requires e.Invalidated? || cache' == cache
    ensures SettledOk(log + [e], cache', i)
  {
    Grow(log, e, i);
    SettlesStay(log, e, i);
    if Invalidations((log + [e])[i..]) == 0 {
      var j :| i < j < |log| && log[j].Wrote? && log[j].probe == i && log[j].time == cache.value.at;
      assert (log + [e])[j] == log[j];
    }
  }

  lemma LastLoadShrinks(log: seq<Event>, e: Event, i: nat)
    requires LastLoad(log + [e], i) && !e.Loaded?
    ensures LastLoad(log, i)
  {
    assert forall j :: 0 <= j < |log| ==> (log + [e])[j] == log[j];
  }

  lemma CommitSettles(w: World, t: Thread, i: nat)
    requires Enabled(w, Commit(t)) && ProbeKnown(w)
    requires LastLoad(Next(w, Commit(t)).log, i)
    ensures SettledOk(Next(w, Commit(t)).log, Next(w, Commit(t)).cache, i)
  {
    var w' := Next(w, Commit(t));
    var c := w.callers[t];
    var e := w'.log[|w.log|];
    assert w'.log == w.log + [e];
    assert ProbeOk(c, w.log, w.generation);
    LastLoadShrinks(w.log, e, i);
    assert i == c.probe;
    Grow(w.log, e, i);
    EqualGenerations(c.generation, Invalidations(w.log[i..]));
    assert e == Discarded(i) || (e.Wrote? && e.probe == i);
  }

  /** Only loading starts a probe, and only committing ends one. */
  lemma IdleBefore(w: World, s: Step)
    requires Enabled(w, s) && SingleFlight(w) && !s.Commit? && Idle(Next(w, s))
    ensures Idle(w) && !s.Load? && !s.Answer?
  {
    var w' := Next(w, s);
    assert s.Load? || s.Answer? ==> s.t in w'.callers && MidProbe(w'.callers[s.t]);
    forall t | t in w.callers ensures !MidProbe(w.callers[t]) {
      assert t in w'.callers || s == Unlock(t);
    }
  }

  lemma KeepLastSettled(w: World, s: Step)
    requires Enabled(w, s) && SingleFlight(w) && ProbeKnown(w) && LastSettled(w)
    ensures LastSettled(Next(w, s))
  {
    var w' := Next(w, s);
    LogGrows(w, s);
    if Idle(w') {
      forall i | 0 <= i < |w'.log| && LastLoad(w'.log, i)
        ensures SettledOk(w'.log, w'.cache, i)
      {
        if s.Commit? {
          CommitSettles(w, s.t, i);
        } else {
          IdleBefore(w, s);
          if w'.log != w.log {
            var e := w'.log[|w.log|];
            LastLoadShrinks(w.log, e, i);
            SettledStaysOk(w.log, w.cache, w'.cache, i, e);
          }
        }
      }
    }
  }

  lemma LogGoodGrows(log: seq<Event>, e: Event)
    requires LogGood(log)
    requires ServedFresh(log + [e], |log|) && Spaced(log + [e], |log|)
    ensures LogGood(log + [e])
  {
    var log' := log + [e];
    forall k | 0 <= k < |log'| ensures ServedFresh(log', k) && Spaced(log', k) {
      if k < |log| {
        assert log'[..k] == log[..k] && log'[k] == log[k];
        assert ServedFresh(log, k) && Spaced(log, k);
        if log[k].Served? {
          assert log'[log[k].probe..k] == log[log[k].probe..k];
        }
        forall i | 0 <= i < k && log'[k].Loaded? && LastLoad(log'[..k], i)
          ensures Settled(log', i, k)
          ensures Invalidations(log'[i..k]) == 0 ==>
                    exists j :: i < j < k && log'[j].Wrote? && log'[j].probe == i && log'[k].time >= log'[j].time + TTL
        {
          assert log'[i..k] == log[i..k];
          assert forall j :: 0 <= j < |log| ==> log'[j] == log[j];
          var j :| i < j < k && (log[j] == Discarded(i) || (log[j].Wrote? && log[j].probe == i));
          assert log'[j] == log[j];
        }
      }
    }
  }

  /** A served answer is the cached one, less than a TTL old. */
  lemma ServeIsFresh(w: World)
    requires CacheKnown(w) && Hit(w)
    ensures ServedFresh(w.log + [Served(w.cache.value.probe, w.cache.value.value, w.now)], |w.log|)
  {
    var e := w.cache.value;
    var log' := w.log + [Served(e.probe, e.value, w.now)];
    assert log'[..|w.log|] == w.log;
    assert log'[e.probe..|w.log|] == w.log[e.probe..];
    assert WrittenAt(log'[..|w.log|], e.probe, e.value, e.at);
  }

  /** A probe that may start now is spaced from the last one. */
  lemma LoadIsSpaced(w: World, t: Thread)
    requires Enabled(w, Load(t)) && SingleFlight(w) && LastSettled(w) && StillMissing(w)
    ensures Spaced(w.log + [Loaded(w.now)], |w.log|)
  {
    var log' := w.log + [Loaded(w.now)];
    var n := |w.log|;
    assert log'[..n] == w.log;
    assert Idle(w);
    forall i | 0 <= i < n && LastLoad(log'[..n], i)
      ensures Settled(log', i, n)
      ensures Invalidations(log'[i..n]) == 0 ==>
                exists j :: i < j < n && log'[j].Wrote? && log'[j].probe == i && log'[n].time >= log'[j].time + TTL
    {
      assert log'[i..n] == w.log[i..];
      SettlesStay(w.log, Loaded(w.now), i);
      if Invalidations(w.log[i..]) == 0 {
        var j :| i < j < n && w.log[j].Wrote? && w.log[j].probe == i && w.log[j].time == w.cache.value.at;
        assert log'[j] == w.log[j] && !Hit(w);
      }
    }
  }

  lemma KeepLogGood(w: World, s: Step)
    requires Enabled(w, s) && Inv(w)
    ensures LogGood(Next(w, s).log)
  {
    var w' := Next(w, s);
    LogGrows(w, s);
    if w'.log != w.log {
      var e := w'.log[|w.log|];
      if e.Served? {
        ServeIsFresh(w);
      } else if e.Loaded? {
        LoadIsSpaced(w, s.t);
      }
      LogGoodGrows(w.log, e);
    }
  }

  lemma StepKeepsInv(w: World, s: Step)
    requires Enabled(w, s) && Inv(w)
    ensures Inv(Next(w, s))
  {
    KeepSingleFlight(w, s);
    KeepProbeKnown(w, s);
    KeepCacheKnown(w, s);
    KeepLastSettled(w, s);
    KeepStillMissing(w, s);
    KeepLogGood(w, s);
  }

  lemma {:induction false} RunKeepsInv(w: World, steps: seq<Step>)
    requires Inv(w) && IsRun(w, steps)
    ensures Inv(Final(w, steps))
    decreases |steps|
  {
    if steps == [] {
    } else {
      StepKeepsInv(w, steps[0]);
      RunKeepsInv(Next(w, steps[0]), steps[1..]);
    }
  }

  // ---- the theorems, over every interleaving ----

  /**
   * A value served from the cache was written less than a TTL ago, by a probe
   * that answered it and that read the generation after the last invalidation
   * before the serve, unless 2^64 or more invalidations wrapped the generation
   * in between.
   */
  lemma ServedValuesAreFresh(steps: seq<Step>, k: nat)
    requires IsRun(INITIAL, steps) && k < |Final(INITIAL, steps).log| && Final(INITIAL, steps).log[k].Served?
    ensures
      var log := Final(INITIAL, steps).log;
      var p := log[k].probe;
      && p < k && log[p].Loaded?
      && (exists j :: p < j < k && log[j] == Answered(p, log[k].value))
      && (exists j :: p < j < k && log[j].Wrote? && log[j].probe == p && log[j].value == log[k].value
                      && log[j].time <= log[k].time < log[j].time + TTL)
      && (Invalidations(log[p..k]) == 0 || Invalidations(log[p..k]) >= TWO_64)
  {
    RunKeepsInv(INITIAL, steps);
    var log := Final(INITIAL, steps).log;
    assert ServedFresh(log, k);
    var j :| log[k].probe < j < k && log[..k][j] == Answered(log[k].probe, log[k].value);
    assert log[j] == Answered(log[k].probe, log[k].value);
    var at: nat :| WrittenAt(log[..k], log[k].probe, log[k].value, at) && at <= log[k].time < at + TTL;
    var i :| log[k].probe < i < k && log[..k][i] == Wrote(log[k].probe, log[k].value, at);
    assert log[i] == Wrote(log[k].probe, log[k].value, at);
  }

  /** At most one caller probes at a time, in every reachable state. */
  lemma OneProbeAtATime(steps: seq<Step>, t: Thread, u: Thread)
    requires IsRun(INITIAL, steps)
    requires t in Final(INITIAL, steps).callers && MidProbe(Final(INITIAL, steps).callers[t])
    requires u in Final(INITIAL, steps).callers && MidProbe(Final(INITIAL, steps).callers[u])
    ensures t == u
  {
    RunKeepsInv(INITIAL, steps);
  }

  /**
   * Of two consecutive probes, the first is settled before the second starts;
   * and with no invalidation since the first read the generation, the second
   * starts no earlier than the TTL after the first one's cache write.
   */
  lemma ProbesAreSpaced(steps: seq<Step>, i: nat, k: nat)
    requires IsRun(INITIAL, steps) && i < k < |Final(INITIAL, steps).log|
    requires Final(INITIAL, steps).log[k].Loaded? && LastLoad(Final(INITIAL, steps).log[..k], i)
    ensures
      var log := Final(INITIAL, steps).log;
      && Settled(log, i, k)
      && (Invalidations(log[i..k]) == 0 ==>
            exists j :: i < j < k && log[j].Wrote? && log[j].probe == i && log[k].time >= log[j].time + TTL)
  {
    RunKeepsInv(INITIAL, steps);
    assert Spaced(Final(INITIAL, steps).log, k);
  }

  // ---- what the caller that probed returns ----

  ghost predicate ReturnOk(log: seq<Event>, k: nat)
    requires k < |log|
  {
    log[k].Returned? ==>
      log[k].probe < k && log[log[k].probe].Loaded? && AnsweredWith(log[..k], log[k].probe, log[k].value)
  }

  ghost predicate ReturnsOk(w: World) {
    && (forall t :: t in w.callers && w.callers[t].Returning? ==>
          && w.callers[t].probe < |w.log| && w.log[w.callers[t].probe].Loaded?
          && AnsweredWith(w.log, w.callers[t].probe, w.callers[t].value))
    && (forall k :: 0 <= k < |w.log| ==> ReturnOk(w.log, k))
  }

  lemma ReturnsStayOk(log: seq<Event>, e: Event)
    requires forall k :: 0 <= k < |log| ==> ReturnOk(log, k)
    requires e.Returned? ==> e.probe < |log| && log[e.probe].Loaded? && AnsweredWith(log, e.probe, e.value)
    ensures forall k :: 0 <= k < |log + [e]| ==> ReturnOk(log + [e], k)
  {
    var log' := log + [e];
    assert log'[..|log|] == log;
    forall k | 0 <= k < |log'| ensures ReturnOk(log', k) {
      if k < |log| {
        assert ReturnOk(log, k) && log'[..k] == log[..k];
      }
    }
  }

  /** A caller that is returning has just committed, or was returning before. */
  lemma ReturnerKnown(w: World, s: Step, t: Thread)
    requires Enabled(w, s) && ProbeKnown(w) && ReturnsOk(w)
    requires t in Next(w, s).callers && Next(w, s).callers[t].Returning?
    ensures
      var c := Next(w, s).callers[t];
      c.probe < |w.log| && w.log[c.probe].Loaded? && AnsweredWith(w.log, c.probe, c.value)
  {
    if s == Commit(t) {
      assert ProbeOk(w.callers[t], w.log, w.generation);
    }
  }

  lemma StepKeepsReturns(w: World, s: Step)
    requires Enabled(w, s) && ProbeKnown(w) && ReturnsOk(w)
    ensures ReturnsOk(Next(w, s))
  {
    var w' := Next(w, s);
    LogGrows(w, s);
    forall t | t in w'.callers && w'.callers[t].Returning?
      ensures w'.callers[t].probe < |w'.log| && w'.log[w'.callers[t].probe].Loaded?
      ensures AnsweredWith(w'.log, w'.callers[t].probe, w'.callers[t].value)
    {
      ReturnerKnown(w, s, t);
      if w'.log != w.log {
        AnswersStay(w.log, w'.log[|w.log|], w'.callers[t].probe, w'.callers[t].value);
      }
    }
    if w'.log != w.log {
      ReturnsStayOk(w.log, w'.log[|w.log|]);
    }
  }

  lemma {:induction false} RunKeepsReturns(w: World, steps: seq<Step>)
    requires Inv(w) && ReturnsOk(w) && IsRun(w, steps)
    ensures ReturnsOk(Final(w, steps))
    decreases |steps|
  {
    if steps == [] {
    } else {
      StepKeepsInv(w, steps[0]);
      StepKeepsReturns(w, steps[0]);
      RunKeepsReturns(Next(w, steps[0]), steps[1..]);
    }
  }

  /** A caller that probed returns what its probe answered, cached or not. */
  lemma ProbersReturnTheirAnswer(steps: seq<Step>, k: nat)
    requires IsRun(INITIAL, steps) && k < |Final(INITIAL, steps).log| && Final(INITIAL, steps).log[k].Returned?
    ensures
      var log := Final(INITIAL, steps).log;
      var p := log[k].probe;
      p < k && log[p].Loaded? && exists j :: p < j < k && log[j] == Answered(p, log[k].value)
  {
    RunKeepsReturns(INITIAL, steps);
    var log := Final(INITIAL, steps).log;
    assert ReturnOk(log, k);
    var j :| log[k].probe < j < k && log[..k][j] == Answered(log[k].probe, log[k].value);
    assert log[j] == log[..k][j];
  }

  // ---- when a caller is served, and what a probe leaves ----

  /** The last answer cached and not invalidated since. */
  function LastWritten(log: seq<Event>): Option<Entry> {
    if log == [] then None
    else
      match log[|log| - 1]
      case Wrote(probe, value, time) => Some(Entry(value, time, probe))
      case Invalidated => None
      case _ => LastWritten(log[..|log| - 1])
  }

  lemma WrittenGrows(log: seq<Event>, e: Event)
    ensures LastWritten(log + [e]) ==
            if e.Wrote? then Some(Entry(e.value, e.time, e.probe))
            else if e.Invalidated? then None else LastWritten(log)
  {
    assert (log + [e])[..|log|] == log;
  }

  lemma StepKeepsLastWritten(w: World, s: Step)
    requires Enabled(w, s) && w.cache == LastWritten(w.log)
    ensures Next(w, s).cache == LastWritten(Next(w, s).log)
  {
    var log' := Next(w, s).log;
    LogGrows(w, s);
    if log' != w.log {
      WrittenGrows(w.log, log'[|w.log|]);
    }
  }

  lemma {:induction false} RunKeepsLastWritten(w: World, steps: seq<Step>)
    requires w.cache == LastWritten(w.log) && IsRun(w, steps)
    ensures Final(w, steps).cache == LastWritten(Final(w, steps).log)
    decreases |steps|
  {
    if steps == [] {
    } else {
      StepKeepsLastWritten(w, steps[0]);
      RunKeepsLastWritten(Next(w, steps[0]), steps[1..]);
    }
  }

  /**
   * In every reachable state a caller is served at once, and with which answer:
   * exactly when the last one cached was not invalidated since and is less than
   * a TTL old. Otherwise it queues, or probes when it asked under the mutex.
   */
  lemma ServedExactly(steps: seq<Step>, t: Thread)
    requires IsRun(INITIAL, steps)
    ensures
      var w := Final(INITIAL, steps);
      var last := LastWritten(w.log);
      var young := last.Some? && w.now < last.value.at + TTL;
      && (t !in w.callers ==>
            Next(w, Call(t)) ==
            if young then w.(log := w.log + [Served(last.value.probe, last.value.value, w.now)])
            else w.(callers := w.callers[t := Queued]))
      && (At(w, t, Rechecking) ==>
            var w' := Next(w, Recheck(t));
            if young then w'.log == w.log + [Served(last.value.probe, last.value.value, w.now)] && At(w', t, Finishing)
            else w'.log == w.log && At(w', t, Missed))
  {
    RunKeepsLastWritten(INITIAL, steps);
  }

  lemma {:induction false} RunAppend(w: World, a: seq<Step>, b: seq<Step>)
    requires IsRun(w, a) && IsRun(Final(w, a), b)
    ensures IsRun(w, a + b) && Final(w, a + b) == Final(Final(w, a), b)
    decreases |a|
  {
    if a == [] {
      assert a + b == b;
    } else {
      assert (a + b)[1..] == a[1..] + b;
      RunAppend(Next(w, a[0]), a[1..], b);
    }
  }

  lemma OneStep(w: World, s: Step)
    requires Enabled(w, s)
    ensures IsRun(w, [s]) && Final(w, [s]) == Next(w, s)
  {
    assert [s][1..] == [];
    assert IsRun(Next(w, s), [s][1..]);
  }

  lemma TwoSteps(w: World, s: Step, s': Step)
    requires Enabled(w, s) && Enabled(Next(w, s), s')
    ensures IsRun(w, [s, s']) && Final(w, [s, s']) == Next(Next(w, s), s')
  {
    OneStep(w, s);
    OneStep(Next(w, s), s');
    RunAppend(w, [s], [s']);
    assert [s] + [s'] == [s, s'];
  }

  /** The world with one more caller under way, holding the probe mutex. */
  function InMutex(w: World, t: Thread, c: Caller): World {
    w.(mutex := Some(t), callers := w.callers[t := c])
  }

  /** A caller that misses on a free mutex gets to probe. */
  lemma ProbeBegins(w: World, t: Thread)
    requires t !in w.callers && w.mutex.None? && !Hit(w)
    ensures
      var steps := [Call(t), Lock(t)] + [Recheck(t), Load(t)];
      && IsRun(w, steps)
      && Final(w, steps) == InMutex(w, t, Probing(|w.log|, w.generation)).(log := w.log + [Loaded(w.now)])
  {
    var w2 := InMutex(w, t, Rechecking);
    assert Next(Next(w, Call(t)), Lock(t)) == w2;
    TwoSteps(w, Call(t), Lock(t));
    TwoSteps(w2, Recheck(t), Load(t));
    RunAppend(w, [Call(t), Lock(t)], [Recheck(t), Load(t)]);
  }

  /**
   * A caller that is probing returns the answer and frees the mutex. The answer
   * is cached exactly when the generation is still the one it read.
   */
  lemma ProbeEnds(w: World, t: Thread, p: nat, generation: nat, v: bool)
    requires t !in w.callers
    ensures
      var steps, mid := [Answer(t, v)] + [Commit(t), Unlock(t)], InMutex(w, t, Probing(p, generation));
      && IsRun(mid, steps)
      && Final(mid, steps) ==
         if w.generation == generation then
           w.(mutex := None, cache := Some(Entry(v, w.now, p)),
              log := w.log + [Answered(p, v)] + [Wrote(p, v, w.now)] + [Returned(p, v)])
         else w.(mutex := None, log := w.log + [Answered(p, v)] + [Discarded(p)] + [Returned(p, v)])
  {
    var mid := InMutex(w, t, Probing(p, generation));
    var answered := InMutex(w, t, Holding(p, generation, v)).(log := w.log + [Answered(p, v)]);
    assert Next(mid, Answer(t, v)) == answered;
    OneStep(mid, Answer(t, v));
    TwoSteps(answered, Commit(t), Unlock(t));
    RunAppend(mid, [Answer(t, v)], [Commit(t), Unlock(t)]);
    assert w.callers[t := Returning(p, v)] - {t} == w.callers;
  }
}
