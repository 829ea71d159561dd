/**
 * Path routing in the agent's gateway (internal/agent/gateway.go): routes
 * sorted by path length, longest first, and the first matching prefix taken.
 */
module Gateway {
  import opened Common

  datatype Route = Route(path: string, target: nat)

  ghost predicate LongestFirst(s: seq<Route>) {
    forall i, j :: 0 <= i < j < |s| ==> |s[i].path| >= |s[j].path|
  }

  /** Any result sort.Slice may give: a rearrangement, longest paths first. The sort is not stable. */
  ghost predicate IsSortOf(sorted: seq<Route>, routes: seq<Route>) {
    multiset(sorted) == multiset(routes) && LongestFirst(sorted)
  }

  /** The handler's dispatch loop. */
  method Dispatch(compiled: seq<Route>, url: string) returns (hit: Option<Route>)
    ensures hit == FirstMatch(compiled, url)
  {
    var i := 0;
    while i < |compiled|
      invariant 0 <= i <= |compiled|
      invariant FirstMatch(compiled, url) == FirstMatch(compiled[i..], url)
    {
      if HasPrefix(url, compiled[i].path) {
        return Some(compiled[i]);
      }
      assert compiled[i..][1..] == compiled[i + 1..];
      i := i + 1;
    }
    hit := None;
  }

  function FirstMatch(routes: seq<Route>, url: string): Option<Route> {
    if routes == [] then None
    else if HasPrefix(url, routes[0].path) then Some(routes[0])
    else FirstMatch(routes[1..], url)
  }

  /** A longest route whose path is a prefix of the URL. */
  ghost predicate IsLongestMatch(routes: seq<Route>, url: string, r: Route) {
    && r in routes && HasPrefix(url, r.path)
    && forall q :: q in routes && HasPrefix(url, q.path) ==> |q.path| <= |r.path|
  }

  lemma {:induction false} FirstOfSorted(sorted: seq<Route>, url: string)
    requires LongestFirst(sorted)
    ensures
      match FirstMatch(sorted, url)
      case Some(r) => IsLongestMatch(sorted, url, r)
      case None => forall q :: q in sorted ==> !HasPrefix(url, q.path)
  {
    if sorted == [] {
    } else {
      FirstOfSorted(sorted[1..], url);
      assert forall q :: q in sorted <==> q == sorted[0] || q in sorted[1..];
    }
  }

  /** Dispatch picks a longest match, and none exactly when nothing matches. */
  lemma DispatchIsLongestMatch(routes: seq<Route>, sorted: seq<Route>, url: string)
    requires IsSortOf(sorted, routes)
    ensures FirstMatch(sorted, url).Some? ==> IsLongestMatch(routes, url, FirstMatch(sorted, url).value)
    ensures FirstMatch(sorted, url).None? <==> forall q :: q in routes ==> !HasPrefix(url, q.path)
  {
    FirstOfSorted(sorted, url);
    forall q ensures q in sorted <==> q in routes {
      assert q in multiset(sorted) <==> q in multiset(routes);
    }
  }

  ghost predicate DistinctPaths(routes: seq<Route>) {
    forall q, r :: q in routes && r in routes && q.path == r.path ==> q == r
  }

  /** With distinct paths neither the configuration order nor the sort's choices matter. */
  lemma DispatchIsDetermined(
      routes: seq<Route>, routes': seq<Route>, sorted: seq<Route>, sorted': seq<Route>, url: string)
    requires multiset(routes) == multiset(routes') && DistinctPaths(routes)
    requires IsSortOf(sorted, routes) && IsSortOf(sorted', routes')
    ensures FirstMatch(sorted, url) == FirstMatch(sorted', url)
  {
    forall q ensures q in routes <==> q in routes' {
      assert q in multiset(routes) <==> q in multiset(routes');
    }
    DispatchIsLongestMatch(routes, sorted, url);
    DispatchIsLongestMatch(routes', sorted', url);
    if FirstMatch(sorted, url).Some? {
      var r, r' := FirstMatch(sorted, url).value, FirstMatch(sorted', url).value;
      assert |r.path| == |r'.path|;
      assert r.path == url[..|r.path|] && r'.path == url[..|r'.path|];
    }
  }

  // ---- the converse: shared paths leave a choice ----

  /** r put in front of every route that is not longer. */
  function InsertFirst(r: Route, sorted: seq<Route>): seq<Route> {
    if sorted == [] || |sorted[0].path| <= |r.path| then [r] + sorted
    else [sorted[0]] + InsertFirst(r, sorted[1..])
  }

  function SortByLength(routes: seq<Route>): seq<Route> {
    if routes == [] then [] else InsertFirst(routes[0], SortByLength(routes[1..]))
  }

  lemma {:induction false} InsertedIsSorted(r: Route, sorted: seq<Route>)
    requires LongestFirst(sorted)
    ensures multiset(InsertFirst(r, sorted)) == multiset(sorted) + multiset{r}
    ensures LongestFirst(InsertFirst(r, sorted))
  {
    if sorted == [] || |sorted[0].path| <= |r.path| {
    } else {
      var head, tail := sorted[0], sorted[1..];
      var rest := InsertFirst(r, tail);
      InsertedIsSorted(r, tail);
      assert sorted == [head] + tail;
      forall q | q in rest ensures |q.path| <= |head.path| {
        assert q in multiset(rest);
        assert q in tail || q == r;
      }
      LongerInFront(head, rest);
    }
  }

  lemma LongerInFront(head: Route, rest: seq<Route>)
    requires LongestFirst(rest) && forall q :: q in rest ==> |q.path| <= |head.path|
    ensures LongestFirst([head] + rest)
  {
  }

  /** Inserted first among its length, a route is the one its own path dispatches to. */
  lemma {:induction false} InsertedIsChosen(r: Route, sorted: seq<Route>)
    ensures FirstMatch(InsertFirst(r, sorted), r.path) == Some(r)
  {
    if sorted == [] || |sorted[0].path| <= |r.path| {
    } else {
      InsertedIsChosen(r, sorted[1..]);
      assert ([sorted[0]] + InsertFirst(r, sorted[1..]))[1..] == InsertFirst(r, sorted[1..]);
    }
  }

  lemma {:induction false} SortByLengthSorts(routes: seq<Route>)
    ensures IsSortOf(SortByLength(routes), routes)
  {
    if routes == [] {
    } else {
      var rest := SortByLength(routes[1..]);
      SortByLengthSorts(routes[1..]);
      InsertedIsSorted(routes[0], rest);
      assert multiset(routes) == multiset{routes[0]} + multiset(routes[1..]) by {
        assert routes == [routes[0]] + routes[1..];
      }
    }
  }

  /** Every configured route is what its own path dispatches to, under some result of the sort. */
  lemma SomeSortChooses(routes: seq<Route>, r: Route) returns (sorted: seq<Route>)
    requires r in routes
    ensures IsSortOf(sorted, routes) && FirstMatch(sorted, r.path) == Some(r)
  {
    var i :| 0 <= i < |routes| && routes[i] == r;
    var others := routes[..i] + routes[i + 1..];
    assert routes == routes[..i] + [r] + routes[i + 1..];
    SortByLengthSorts(others);
    InsertedIsSorted(r, SortByLength(others));
    InsertedIsChosen(r, SortByLength(others));
    sorted := InsertFirst(r, SortByLength(others));
  }

  /** The sort's choices never matter. */
  ghost predicate IsDetermined(routes: seq<Route>) {
    forall sorted, sorted', url :: IsSortOf(sorted, routes) && IsSortOf(sorted', routes) ==>
      FirstMatch(sorted, url) == FirstMatch(sorted', url)
  }

  /** Whatever the configuration, dispatch is determined exactly when no two different routes share a path. */
  lemma DeterminedExactly(routes: seq<Route>)
    ensures IsDetermined(routes) <==> DistinctPaths(routes)
  {
    if DistinctPaths(routes) {
      forall sorted, sorted', url | IsSortOf(sorted, routes) && IsSortOf(sorted', routes)
        ensures FirstMatch(sorted, url) == FirstMatch(sorted', url)
      {
        DispatchIsDetermined(routes, routes, sorted, sorted', url);
      }
    } else {
      var q, r :| q in routes && r in routes && q.path == r.path && q != r;
      var sorted := SomeSortChooses(routes, q);
      var sorted' := SomeSortChooses(routes, r);
      assert FirstMatch(sorted, q.path) != FirstMatch(sorted', q.path);
    }
  }
}
