/**
 * Local port allocation in TelaVisor (cmd/telagui/app.go, ResolveAllPorts and
 * AssignLocalPort).
 */
module LocalPorts {
  import opened Common

  const OFFSET: int := 10000
  const CANDIDATES: nat := 100

  datatype Request = Request(key: string, servicePort: int)
  datatype Assignment = Assignment(key: string, localPort: int)

  /** Whether the system lets a port be bound, as asked while serving the i-th request. */
  type Availability = (nat, int) -> bool

  predicate IsCandidate(servicePort: int, p: int) {
    servicePort + OFFSET <= p < servicePort + OFFSET + CANDIDATES
  }

  /** Every port the i-th request may try is taken or unavailable. */
  ghost predicate Exhausted(assignedPorts: set<int>, available: Availability, i: nat, servicePort: int) {
    && (servicePort in assignedPorts || !available(i, servicePort))
    && forall p :: IsCandidate(servicePort, p) ==> p in assignedPorts || !available(i, p)
  }

  /** The first port of the search order that is free, else the service port again. */
  ghost predicate IsChoice(assignedPorts: set<int>, available: Availability, i: nat, servicePort: int, port: int) {
    if servicePort !in assignedPorts && available(i, servicePort) then port == servicePort
    else if Exhausted(assignedPorts, available, i, servicePort) then port == servicePort
    else
      && IsCandidate(servicePort, port) && port !in assignedPorts && available(i, port)
      && forall p :: servicePort + OFFSET <= p < port ==> p in assignedPorts || !available(i, p)
  }

  /** The ports of the first i results. */
  function PortsOf(results: seq<Assignment>): set<int> {
    set r | r in results :: r.localPort
  }

  class PortTable {
    var assignedPorts: set<int>

    constructor ()
      ensures assignedPorts == {}
    {
      assignedPorts := {};
    }

    /** AssignLocalPort: the same search for one service, for the i-th call. */
    method Assign(servicePort: int, available: Availability, i: nat) returns (port: int)
      modifies this
      ensures IsChoice(old(assignedPorts), available, i, servicePort, port)
      ensures assignedPorts == old(assignedPorts) + {port}
    {
      if servicePort !in assignedPorts && available(i, servicePort) {
        assignedPorts := assignedPorts + {servicePort};
        return servicePort;
      }
      var candidate := servicePort + OFFSET;
      for k := 0 to CANDIDATES
        invariant candidate == servicePort + OFFSET + k
        invariant assignedPorts == old(assignedPorts)
        invariant forall p :: servicePort + OFFSET <= p < candidate ==> p in assignedPorts || !available(i, p)
      {
        if candidate !in assignedPorts && available(i, candidate) {
          assignedPorts := assignedPorts + {candidate};
          return candidate;
        }
        candidate := candidate + 1;
      }
      assignedPorts := assignedPorts + {servicePort};
      port := servicePort;
    }

    /** ResolveAllPorts: a fresh table, then one result per request in order. */
    method ResolveAll(requests: seq<Request>, available: Availability) returns (results: seq<Assignment>)
      modifies this
      ensures IsResolution(requests, available, results)
      ensures assignedPorts == PortsOf(results)
    {
      assignedPorts := {};
      results := [];
      for i := 0 to |requests|
        invariant |results| == i && assignedPorts == PortsOf(results)
        invariant Resolves(requests, available, results)
      {
        var port := Assign(requests[i].servicePort, available, i);
        Extends(requests, available, results, port);
        results := results + [Assignment(requests[i].key, port)];
      }
    }
  }

  /** The ports of a longer and a shorter list of results. */
  lemma Extends(requests: seq<Request>, available: Availability, results: seq<Assignment>, port: int)
    requires |results| < |requests| && Resolves(requests, available, results)
    requires IsChoice(PortsOf(results), available, |results|, requests[|results|].servicePort, port)
    ensures
      var more := results + [Assignment(requests[|results|].key, port)];
      Resolves(requests, available, more) && PortsOf(more) == PortsOf(results) + {port}
  {
    var more := results + [Assignment(requests[|results|].key, port)];
    forall i | 0 <= i < |more| ensures ResultOk(requests, available, more, i) {
      if i < |results| {
        assert more[..i] == results[..i];
        assert ResultOk(requests, available, results, i);
      } else {
        assert more[..i] == results;
      }
    }
    assert forall r :: r in more <==> r in results || r == more[|results|];
  }

  /** The i-th result answers the i-th request, by the search order over the earlier results' ports. */
  ghost predicate ResultOk(requests: seq<Request>, available: Availability, results: seq<Assignment>, i: nat)
    requires i < |requests| && i < |results|
  {
    && results[i].key == requests[i].key
    && IsChoice(PortsOf(results[..i]), available, i, requests[i].servicePort, results[i].localPort)
  }

  ghost predicate Resolves(requests: seq<Request>, available: Availability, results: seq<Assignment>) {
    |results| <= |requests| && forall i :: 0 <= i < |results| ==> ResultOk(requests, available, results, i)
  }

  /** One result per request, in order. */
  ghost predicate IsResolution(requests: seq<Request>, available: Availability, results: seq<Assignment>) {
    |results| == |requests| && Resolves(requests, available, results)
  }

  /** The i-th request found no port and got its service port regardless. */
  ghost predicate FellBack(requests: seq<Request>, available: Availability, results: seq<Assignment>, i: nat)
    requires i < |requests| && i <= |results|
  {
    Exhausted(PortsOf(results[..i]), available, i, requests[i].servicePort)
  }

  /** A port that is not a fallback differs from every earlier result, and was free when chosen. */
  lemma ChosenPortsAreNew(requests: seq<Request>, available: Availability, results: seq<Assignment>, i: nat, j: nat)
    requires IsResolution(requests, available, results) && i < j < |requests|
    requires !FellBack(requests, available, results, j)
    ensures results[i].localPort != results[j].localPort && available(j, results[j].localPort)
  {
    assert ResultOk(requests, available, results, j);
    assert results[..j][i] == results[i];
    assert results[i].localPort in PortsOf(results[..j]);
  }

  /** The n ports from the given one on. */
  function Interval(start: int, n: nat): (s: set<int>)
    ensures forall p :: p in s <==> start <= p < start + n
    ensures |s| == n
  {
    if n == 0 then {} else Interval(start, n - 1) + {start + (n - 1)}
  }

  lemma SubsetSize(a: set<int>, b: set<int>)
    requires a <= b
    ensures |a| <= |b|
  {
    assert b == a + (b - a);
  }

  lemma {:induction false} PortsAreFew(results: seq<Assignment>)
    ensures |PortsOf(results)| <= |results|
  {
    if results == [] {
    } else {
      var n := |results| - 1;
      PortsAreFew(results[..n]);
      assert results == results[..n] + [results[n]];
      assert PortsOf(results) == PortsOf(results[..n]) + {results[n].localPort};
    }
  }

  ghost predicate CandidatesAvailable(available: Availability, i: nat, servicePort: int) {
    forall p :: IsCandidate(servicePort, p) ==> available(i, p)
  }

  /** Pigeonhole: while the candidates are bindable, a request falls back only after at least 100 others. */
  lemma FallbackNeedsAHundred(requests: seq<Request>, available: Availability, results: seq<Assignment>, i: nat)
    requires IsResolution(requests, available, results) && i < |requests|
    requires CandidatesAvailable(available, i, requests[i].servicePort)
    requires FellBack(requests, available, results, i)
    ensures i >= CANDIDATES
    ensures available(i, requests[i].servicePort) ==> i >= CANDIDATES + 1
  {
    var port := requests[i].servicePort;
    var earlier := PortsOf(results[..i]);
    PortsAreFew(results[..i]);
    AllTaken(earlier, available, i, port);
    SubsetSize(Interval(port + OFFSET, CANDIDATES), earlier);
    if available(i, port) {
      assert port !in Interval(port + OFFSET, CANDIDATES);
      SubsetSize(Interval(port + OFFSET, CANDIDATES) + {port}, earlier);
    }
  }

  lemma AllTaken(earlier: set<int>, available: Availability, i: nat, port: int)
    requires Exhausted(earlier, available, i, port) && CandidatesAvailable(available, i, port)
    ensures Interval(port + OFFSET, CANDIDATES) <= earlier
    ensures available(i, port) ==> port in earlier
  {
    forall p | p in Interval(port + OFFSET, CANDIDATES) ensures p in earlier {
      assert IsCandidate(port, p);
    }
  }

  /** For up to 100 requests with bindable candidates, all ports are distinct. */
  lemma AHundredRequestsAreDistinct(requests: seq<Request>, available: Availability, results: seq<Assignment>)
    requires IsResolution(requests, available, results) && |requests| <= CANDIDATES
    requires forall i :: 0 <= i < |requests| ==> CandidatesAvailable(available, i, requests[i].servicePort)
    ensures forall i, j :: 0 <= i < j < |requests| ==> results[i].localPort != results[j].localPort
  {
    forall i, j | 0 <= i < j < |requests| ensures results[i].localPort != results[j].localPort {
      if FellBack(requests, available, results, j) {
        FallbackNeedsAHundred(requests, available, results, j);
      }
      ChosenPortsAreNew(requests, available, results, i, j);
    }
  }
}
