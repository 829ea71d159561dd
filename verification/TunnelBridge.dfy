/**
 * The tunnelBridge of the client (internal/client/client.go): a swappable
 * tunnel, and a ready channel that blocked dialers capture and wait on. The
 * class holds the mutex-protected updates; the protocol interleaves them with
 * any number of dialers, one locked region at a time.
 */
module TunnelBridge {
  import opened Common

  type Tunnel = nat
  type Channel = nat

  /** Channels are numbered as they are made; closed holds the closed ones. */
  datatype Bridge = Bridge(tunnel: Option<Tunnel>, agentIP: string, ready: Channel, closed: set<Channel>, made: Channel)

  function NewBridge(): Bridge {
    Bridge(None, "", 0, {}, 1)
  }

  function Installed(b: Bridge, tunnel: Tunnel, agentIP: string): Bridge {
    if b.ready in b.closed then
      b.(tunnel := Some(tunnel), agentIP := agentIP, ready := b.made, closed := b.closed + {b.made}, made := b.made + 1)
    else
      b.(tunnel := Some(tunnel), agentIP := agentIP, closed := b.closed + {b.ready})
  }

  function Cleared(b: Bridge): Bridge {
    b.(tunnel := None, agentIP := "", ready := b.made, made := b.made + 1)
  }

  /** The ready channel is closed exactly when a tunnel is installed. */
  predicate Consistent(b: Bridge) {
    && (b.ready in b.closed <==> b.tunnel.Some?)
    && b.ready < b.made
    && forall c :: c in b.closed ==> c < b.made
  }

  class TunnelBridge {
    var tnet: Option<Tunnel>
    var agentIP: string
    var ready: Channel
    var closed: set<Channel>
    var made: Channel

    function State(): Bridge
      reads this
    {
      Bridge(tnet, agentIP, ready, closed, made)
    }

    constructor ()
      ensures State() == NewBridge() && Consistent(State())
    {
      tnet, agentIP, ready, closed, made := None, "", 0, {}, 1;
    }

    method MakeChannel() returns (c: Channel)
      modifies this`made
      ensures c == old(made) && made == old(made) + 1
    {
      c := made;
      made := made + 1;
    }

    method SetTunnel(tunnel: Tunnel, ip: string)
      requires Consistent(State())
      modifies this
      ensures State() == Installed(old(State()), tunnel, ip) && Consistent(State())
      ensures old(ready) in closed
    {
      tnet := Some(tunnel);
      agentIP := ip;
      if ready in closed {
        var ch := MakeChannel();
        closed := closed + {ch};
        ready := ch;
      } else {
        closed := closed + {ready};
      }
    }

    method ClearTunnel()
      requires Consistent(State())
      modifies this
      ensures State() == Cleared(old(State())) && Consistent(State())
    {
      tnet := None;
      agentIP := "";
      var ch := MakeChannel();
      ready := ch;
    }
  }

  /** Where a DialContext call stands. */
  datatype Dialer =
    | Top                                                            // about to read the bridge
    | Dialing(tunnel: Tunnel, agentIP: string)                       // read a tunnel, dialing it
    | Failed                                                         // the dial failed, about to re-read ready
    | Waiting(channel: Channel)                                      // blocked on a ready channel
    | Connected(tunnel: Tunnel, agentIP: string)
    | Cancelled

  datatype World = World(bridge: Bridge, dialers: map<nat, Dialer>)

  datatype Step =
    | Set(tunnel: Tunnel, agentIP: string)
    | Clear
    | Start(d: nat)
    | Capture(d: nat)      // read tnet, agentIP and ready under one read lock
    | DialOk(d: nat)
    | DialFail(d: nat)
    | Recapture(d: nat)    // re-read ready under a second read lock
    | Wake(d: nat)         // the captured channel is closed
    | Cancel(d: nat)       // the context ends

  predicate Enabled(w: World, s: Step) {
    match s
    case Set(_, _) => true
    case Clear => true
    case Start(d) => d !in w.dialers
    case Capture(d) => d in w.dialers && w.dialers[d].Top?
    case DialOk(d) => d in w.dialers && w.dialers[d].Dialing?
    case DialFail(d) => d in w.dialers && w.dialers[d].Dialing?
    case Recapture(d) => d in w.dialers && w.dialers[d].Failed?
    case Wake(d) => d in w.dialers && w.dialers[d].Waiting? && w.dialers[d].channel in w.bridge.closed
    case Cancel(d) => d in w.dialers && (w.dialers[d].Waiting? || w.dialers[d].Dialing?)
  }

  function Next(w: World, s: Step): World
    requires Enabled(w, s)
  {
    match s
    case Set(tunnel, ip) => w.(bridge := Installed(w.bridge, tunnel, ip))
    case Clear => w.(bridge := Cleared(w.bridge))
    case Start(d) => w.(dialers := w.dialers[d := Top])
    case Capture(d) =>
      var b := w.bridge;
      w.(dialers := w.dialers[d := if b.tunnel.Some? then Dialing(b.tunnel.value, b.agentIP) else Waiting(b.ready)])
    case DialOk(d) => w.(dialers := w.dialers[d := Connected(w.dialers[d].tunnel, w.dialers[d].agentIP)])
    case DialFail(d) => w.(dialers := w.dialers[d := Failed])
    case Recapture(d) => w.(dialers := w.dialers[d := Waiting(w.bridge.ready)])
    case Wake(d) => w.(dialers := w.dialers[d := Top])
    case Cancel(d) => w.(dialers := w.dialers[d := Cancelled])
  }

  const INITIAL := World(NewBridge(), map[])

  ghost predicate IsRun(w: World, steps: seq<Step>)
    decreases |steps|
  {
    steps == [] || (Enabled(w, steps[0]) && IsRun(Next(w, steps[0]), steps[1..]))
  }

  function Final(w: World, steps: seq<Step>): World
    requires IsRun(w, steps)
    decreases |steps|
  {
    if steps == [] then w else Final(Next(w, steps[0]), steps[1..])
  }

  /** As in runSession: a tunnel is cleared only while one is installed. */
  ghost predicate Disciplined(w: World, steps: seq<Step>)
    requires IsRun(w, steps)
    decreases |steps|
  {
    steps == [] ||
    ((steps[0].Clear? ==> w.bridge.tunnel.Some?) && Disciplined(Next(w, steps[0]), steps[1..]))
  }

  /** Every channel a blocked dialer holds is closed or still the one SetTunnel will close. */
  ghost predicate NoLostWakeup(w: World) {
    forall d :: d in w.dialers && w.dialers[d].Waiting? ==>
      w.dialers[d].channel in w.bridge.closed || w.dialers[d].channel == w.bridge.ready
  }

  /** In every run, whatever the order of Set and Clear, closed means installed. */
  lemma {:induction false} ReadyMeansInstalled(w: World, steps: seq<Step>)
    requires Consistent(w.bridge) && IsRun(w, steps)
    ensures Consistent(Final(w, steps).bridge)
    decreases |steps|
  {
    if steps == [] {
    } else {
      ReadyMeansInstalled(Next(w, steps[0]), steps[1..]);
    }
  }

  /** One step keeps every wakeup unless it clears an empty bridge under a waiting dialer. */
  lemma StepKeepsWakeupsExactly(w: World, s: Step)
    requires Consistent(w.bridge) && NoLostWakeup(w) && Enabled(w, s)
    ensures NoLostWakeup(Next(w, s)) <==>
            !(s.Clear? && w.bridge.tunnel.None?
              && exists d :: d in w.dialers && w.dialers[d] == Waiting(w.bridge.ready))
  {
    if s.Clear? {
      var w' := Next(w, s);
      if w.bridge.tunnel.None? {
        if d :| d in w.dialers && w.dialers[d] == Waiting(w.bridge.ready) {
          assert !NoLostWakeup(w');
        } else {
          assert NoLostWakeup(w');
        }
      }
    }
  }

  lemma {:induction false} WakeupsKept(w: World, steps: seq<Step>)
    requires Consistent(w.bridge) && NoLostWakeup(w) && IsRun(w, steps) && Disciplined(w, steps)
    ensures Consistent(Final(w, steps).bridge) && NoLostWakeup(Final(w, steps))
    decreases |steps|
  {
    if steps == [] {
    } else {
      StepKeepsWakeupsExactly(w, steps[0]);
      WakeupsKept(Next(w, steps[0]), steps[1..]);
    }
  }

  /**
   * In every disciplined run from the start no wakeup is lost: a blocked dialer
   * can wake at once while a tunnel is installed, and otherwise as soon as the
   * next one is set.
   */
  lemma BlockedDialersWake(steps: seq<Step>, d: nat, tunnel: Tunnel, ip: string)
    requires IsRun(INITIAL, steps) && Disciplined(INITIAL, steps)
    requires d in Final(INITIAL, steps).dialers && Final(INITIAL, steps).dialers[d].Waiting?
    ensures
      var w := Final(INITIAL, steps);
      && (w.bridge.tunnel.Some? ==> Enabled(w, Wake(d)))
      && Enabled(Next(w, Set(tunnel, ip)), Wake(d))
  {
    WakeupsKept(INITIAL, steps);
  }

  // ---- dials complete ----

  /** A run goes on: one more step. */
  lemma RunSnoc(w: World, steps: seq<Step>, s: Step)
    requires IsRun(w, steps) && Enabled(Final(w, steps), s)
    ensures IsRun(w, steps + [s]) && Final(w, steps + [s]) == Next(Final(w, steps), s)
    decreases |steps|
  {
    if steps == [] {
      assert [] + [s] == [s] && [s][1..] == [];
      assert IsRun(Next(w, s), [s][1..]);
    } else {
      assert (steps + [s])[1..] == steps[1..] + [s];
      RunSnoc(Next(w, steps[0]), steps[1..], s);
    }
  }

  /** The steps lead a run on to a world. */
  ghost predicate LeadsTo(w: World, steps: seq<Step>, more: seq<Step>, w': World) {
    IsRun(w, steps + more) && Final(w, steps + more) == w'
  }

  lemma LeadOn(w: World, steps: seq<Step>, more: seq<Step>, mid: World, s: Step)
    requires LeadsTo(w, steps, more, mid) && Enabled(mid, s)
    ensures LeadsTo(w, steps, more + [s], Next(mid, s))
  {
    RunSnoc(w, steps + more, s);
    assert steps + (more + [s]) == (steps + more) + [s];
  }

  lemma LeadStart(w: World, steps: seq<Step>)
    requires IsRun(w, steps)
    ensures LeadsTo(w, steps, [], Final(w, steps))
  {
    assert steps + [] == steps;
  }

  /** From the top of its loop a dialer reads the installed pair, dials it and connects to it. */
  lemma DialFromTop(w: World, steps: seq<Step>, more: seq<Step>, mid: World, d: nat)
    requires LeadsTo(w, steps, more, mid)
    requires d in mid.dialers && mid.dialers[d].Top? && mid.bridge.tunnel.Some?
    ensures
      var all := more + [Capture(d)] + [DialOk(d)];
      && IsRun(w, steps + all)
      && d in Final(w, steps + all).dialers
      && Final(w, steps + all).dialers[d] == Connected(mid.bridge.tunnel.value, mid.bridge.agentIP)
  {
    LeadOn(w, steps, more, mid, Capture(d));
    LeadOn(w, steps, more + [Capture(d)], Next(mid, Capture(d)), DialOk(d));
  }

  /**
   * A blocked dialer of a disciplined run gets through: a new tunnel closes its
   * channel, it wakes, reads that tunnel and connects to it.
   */
  lemma BlockedDialConnects(steps: seq<Step>, d: nat, tunnel: Tunnel, ip: string)
    requires IsRun(INITIAL, steps) && Disciplined(INITIAL, steps)
    requires d in Final(INITIAL, steps).dialers && Final(INITIAL, steps).dialers[d].Waiting?
    ensures
      var all := steps + ([] + [Set(tunnel, ip)] + [Wake(d)] + [Capture(d)] + [DialOk(d)]);
      IsRun(INITIAL, all) && d in Final(INITIAL, all).dialers
      && Final(INITIAL, all).dialers[d] == Connected(tunnel, ip)
  {
    var w := Final(INITIAL, steps);
    BlockedDialersWake(steps, d, tunnel, ip);
    LeadStart(INITIAL, steps);
    LeadOn(INITIAL, steps, [], w, Set(tunnel, ip));
    LeadOn(INITIAL, steps, [] + [Set(tunnel, ip)], Next(w, Set(tunnel, ip)), Wake(d));
    DialFromTop(INITIAL, steps, [] + [Set(tunnel, ip)] + [Wake(d)], Next(Next(w, Set(tunnel, ip)), Wake(d)), d);
  }

  /**
   * A new dialer on an installed bridge connects to what is installed; on an
   * empty one it blocks on the current channel.
   */
  lemma FreshDial(w: World, steps: seq<Step>, d: nat)
    requires IsRun(w, steps) && d !in Final(w, steps).dialers
    ensures
      var w1 := Final(w, steps);
      if w1.bridge.tunnel.Some? then
        var all := steps + ([] + [Start(d)] + [Capture(d)] + [DialOk(d)]);
        IsRun(w, all) && d in Final(w, all).dialers
        && Final(w, all).dialers[d] == Connected(w1.bridge.tunnel.value, w1.bridge.agentIP)
      else
        var all := steps + ([] + [Start(d)] + [Capture(d)]);
        IsRun(w, all) && d in Final(w, all).dialers && Final(w, all).dialers[d] == Waiting(w1.bridge.ready)
  {
    var w1 := Final(w, steps);
    LeadStart(w, steps);
    LeadOn(w, steps, [], w1, Start(d));
    if w1.bridge.tunnel.Some? {
      DialFromTop(w, steps, [] + [Start(d)], Next(w1, Start(d)), d);
    } else {
      LeadOn(w, steps, [] + [Start(d)], Next(w1, Start(d)), Capture(d));
    }
  }

  /**
   * After a failed dial the next tunnel is the one connected to, whether it is
   * set before or after the dialer reads the ready channel again.
   */
  lemma FailedDialConnects(w: World, steps: seq<Step>, d: nat, tunnel: Tunnel, ip: string, late: bool)
    requires Consistent(w.bridge) && IsRun(w, steps)
    requires d in Final(w, steps).dialers && Final(w, steps).dialers[d].Dialing?
    ensures
      var between := if late then [] + [DialFail(d)] + [Clear] + [Recapture(d)] + [Set(tunnel, ip)]
                     else [] + [DialFail(d)] + [Clear] + [Set(tunnel, ip)] + [Recapture(d)];
      var all := steps + (between + [Wake(d)] + [Capture(d)] + [DialOk(d)]);
      IsRun(w, all) && d in Final(w, all).dialers && Final(w, all).dialers[d] == Connected(tunnel, ip)
  {
    ReadyMeansInstalled(w, steps);
    var w0 := Final(w, steps);
    var w1 := Next(w0, DialFail(d));
    var w2 := Next(w1, Clear);
    LeadStart(w, steps);
    LeadOn(w, steps, [], w0, DialFail(d));
    LeadOn(w, steps, [] + [DialFail(d)], w1, Clear);
    var so := [] + [DialFail(d)] + [Clear];
    var first, second := if late then Recapture(d) else Set(tunnel, ip), if late then Set(tunnel, ip) else Recapture(d);
    LeadOn(w, steps, so, w2, first);
    var w3 := Next(w2, first);
    LeadOn(w, steps, so + [first], w3, second);
    var w4 := Next(w3, second);
    LeadOn(w, steps, so + [first] + [second], w4, Wake(d));
    DialFromTop(w, steps, so + [first] + [second] + [Wake(d)], Next(w4, Wake(d)), d);
  }

  /** A dialer that waits or dials can be cancelled, and a result, once there, stays. */
  lemma {:induction false} ResultsStay(w: World, steps: seq<Step>, d: nat)
    requires IsRun(w, steps) && d in w.dialers
    ensures w.dialers[d].Waiting? || w.dialers[d].Dialing? ==>
              Enabled(w, Cancel(d)) && Next(w, Cancel(d)).dialers[d] == Cancelled
    ensures d in Final(w, steps).dialers
    ensures w.dialers[d].Connected? || w.dialers[d].Cancelled? ==> Final(w, steps).dialers[d] == w.dialers[d]
    decreases |steps|
  {
    if steps == [] {
    } else {
      ResultsStay(Next(w, steps[0]), steps[1..], d);
    }
  }

  /** The dialer waits on a channel that is neither closed nor the one SetTunnel will close. */
  predicate Stranded(w: World, d: nat, channel: Channel) {
    && d in w.dialers && w.dialers[d] == Waiting(channel)
    && channel < w.bridge.made && channel != w.bridge.ready && channel !in w.bridge.closed
  }

  /** Nothing but the end of its context ever frees a stranded dialer. */
  lemma {:induction false} StrandedForever(w: World, steps: seq<Step>, d: nat, channel: Channel)
    requires Consistent(w.bridge) && IsRun(w, steps)
    requires channel < w.bridge.made && channel != w.bridge.ready && channel !in w.bridge.closed
    requires d in w.dialers && w.dialers[d] in {Waiting(channel), Cancelled}
    ensures
      var w' := Final(w, steps);
      && channel < w'.bridge.made && channel != w'.bridge.ready && channel !in w'.bridge.closed
      && d in w'.dialers && w'.dialers[d] in {Waiting(channel), Cancelled}
    decreases |steps|
  {
    if steps == [] {
    } else {
      StrandedForever(Next(w, steps[0]), steps[1..], d, channel);
    }
  }

  /**
   * Clearing an empty bridge strands every dialer that waits on its channel: in
   * no continuation is the channel closed or does the dialer leave it, other
   * than by its context's end.
   */
  lemma ClearingEmptyStrands(w: World, steps: seq<Step>, d: nat)
    requires Consistent(w.bridge) && w.bridge.tunnel.None?
    requires d in w.dialers && w.dialers[d] == Waiting(w.bridge.ready)
    requires IsRun(Next(w, Clear), steps)
    ensures Stranded(Next(w, Clear), d, w.bridge.ready)
    ensures
      var w' := Final(Next(w, Clear), steps);
      && w.bridge.ready !in w'.bridge.closed
      && d in w'.dialers && w'.dialers[d] in {Waiting(w.bridge.ready), Cancelled}
  {
    StrandedForever(Next(w, Clear), steps, d, w.bridge.ready);
  }

  /** A run from the start gets there. */
  lemma DoubleClearStrands()
    ensures exists steps, d, channel :: IsRun(INITIAL, steps) && Stranded(Final(INITIAL, steps), d, channel)
  {
    var w1 := Next(INITIAL, Start(7));
    var w2 := Next(w1, Capture(7));
    var w3 := Next(w2, Clear);
    assert Stranded(w3, 7, 0);
    var s3 := [Clear];
    assert s3[1..] == [];
    assert IsRun(w3, s3[1..]);
    assert IsRun(w2, s3) && Final(w2, s3) == w3;
    var s2 := [Capture(7)] + s3;
    assert s2[1..] == s3 && IsRun(w1, s2) && Final(w1, s2) == w3;
    var s1 := [Start(7)] + s2;
    assert s1[1..] == s2 && IsRun(INITIAL, s1) && Final(INITIAL, s1) == w3;
  }

  /** The (tunnel, agent IP) pairs a run installs, each by one SetTunnel. */
  function Pairs(steps: seq<Step>): set<(Tunnel, string)> {
    if steps == [] then {}
    else (if steps[0].Set? then {(steps[0].tunnel, steps[0].agentIP)} else {}) + Pairs(steps[1..])
  }

  ghost predicate Unmixed(w: World, pairs: set<(Tunnel, string)>) {
    && (w.bridge.tunnel.Some? ==> (w.bridge.tunnel.value, w.bridge.agentIP) in pairs)
    && forall d :: d in w.dialers && (w.dialers[d].Dialing? || w.dialers[d].Connected?) ==>
         (w.dialers[d].tunnel, w.dialers[d].agentIP) in pairs
  }

  lemma {:induction false} UnmixedKept(w: World, steps: seq<Step>, pairs: set<(Tunnel, string)>)
    requires IsRun(w, steps) && Unmixed(w, pairs)
    ensures Unmixed(Final(w, steps), pairs + Pairs(steps))
    decreases |steps|
  {
    if steps == [] {
      assert pairs + {} == pairs;
    } else {
      var more := if steps[0].Set? then {(steps[0].tunnel, steps[0].agentIP)} else {};
      assert Unmixed(Next(w, steps[0]), pairs + more);
      UnmixedKept(Next(w, steps[0]), steps[1..], pairs + more);
      assert pairs + more + Pairs(steps[1..]) == pairs + Pairs(steps);
    }
  }

  /** No dial pairs one tunnel with another's agent IP, in any run. */
  lemma DialsNeverMix(steps: seq<Step>, d: nat)
    requires IsRun(INITIAL, steps)
    requires d in Final(INITIAL, steps).dialers
    ensures
      var p := Final(INITIAL, steps).dialers[d];
      p.Dialing? || p.Connected? ==> exists i :: 0 <= i < |steps| && steps[i] == Set(p.tunnel, p.agentIP)
  {
    UnmixedKept(INITIAL, steps, {});
    var p := Final(INITIAL, steps).dialers[d];
    if p.Dialing? || p.Connected? {
      PairsAreSteps(steps, p.tunnel, p.agentIP);
    }
  }

  lemma {:induction false} PairsAreSteps(steps: seq<Step>, tunnel: Tunnel, ip: string)
    ensures (tunnel, ip) in Pairs(steps) <==> exists i :: 0 <= i < |steps| && steps[i] == Set(tunnel, ip)
  {
    if steps == [] {
    } else {
      PairsAreSteps(steps[1..], tunnel, ip);
      if i :| 0 <= i < |steps[1..]| && steps[1..][i] == Set(tunnel, ip) {
        assert steps[i + 1] == Set(tunnel, ip);
      }
      if i :| 0 <= i < |steps| && steps[i] == Set(tunnel, ip) && i > 0 {
        assert steps[1..][i - 1] == Set(tunnel, ip);
      }
    }
  }
}
