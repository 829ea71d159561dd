/**
 * Optimistic concurrency over whole histories: while an identity exists, its
 * version counts the successful mutations addressed to it, and an unchanged
 * version means an unchanged identity.
 */
module AccessHistory {
  import opened Common
  import opened KeyedSeq
  import opened AccessVersion
  import opened AccessModel
  import opened AccessSteps
  import opened AccessGrants
  import opened OwnerSafety

  /** A successful mutation addressed to the identity. */
  predicate Mutates(s: HubState, r: Request, id: string) {
    !r.op.Add? && !r.op.Get? && !r.op.List? && r.op.id == id && Step(s, r.now, r.op).1.Done?
  }

  predicate Exists(s: HubState, id: string) {
    Has(s.cfg.tokens, EntryId, id)
  }

  lemma {:induction false} EnsuredAllIsInvisible(m: Counters, tokens: seq<TokenEntry>, id: string)
    ensures Version(EnsuredAll(m, tokens), id) == Version(m, id)
  {
    if tokens == [] {
    } else {
      EnsuredAllIsInvisible(m, tokens[..|tokens| - 1], id);
    }
  }

  /** A rename away removes the old ID, since IDs are unique. */
  lemma RenamedAway(t: seq<TokenEntry>, i: nat, e: TokenEntry)
    requires Distinct(t, EntryId) && i < |t| && e.id != t[i].id
    ensures !Has(t[i := e], EntryId, t[i].id)
  {
    assert EntryId(t[i]) == t[i].id && EntryId(e) == e.id;
  }

  lemma DeletedAway(t: seq<TokenEntry>, id: string)
    ensures !Has(Without(t, EntryId, id), EntryId, id)
  {
    FirstWithWithout(t, EntryId, id, id);
    FirstWithIsMember(Without(t, EntryId, id), EntryId, id);
  }

  /** What a request does to the counters, once the If-Match check is through. */
  datatype Move = Keep | Bump | RenameTo(newId: string) | Drop

  function Moved(c: Counters, id: string, move: Move): Counters {
    match move
    case Keep => c
    case Bump => Bumped(c, id)
    case RenameTo(newId) => Renamed(c, id, newId)
    case Drop => Deleted(c, id)
  }

  function MoveOf(s: HubState, r: Request): Move
    requires !r.op.List?
  {
    var reply := Step(s, r.now, r.op).1;
    if reply.Removed? then Drop
    else if !Mutates(s, r, r.op.id) then Keep
    else if r.op.Patch? && PatchRenames(r.op) then RenameTo(r.op.newId.value)
    else Bump
  }

  lemma CountersMove(s: HubState, r: Request) returns (c: Counters)
    requires !r.op.List?
    ensures c == s.versions || c == Ensured(s.versions, r.op.id)
    ensures After(s, r).versions == Moved(c, r.op.id, MoveOf(s, r))
  {
    if r.op.Add? || r.op.Get? {
      c := After(s, r).versions;
    } else if r.op.Patch? || r.op.Delete? {
      LifecycleCounters(s, r);
      c := if MoveOf(s, r).Keep? then After(s, r).versions else Checked(s.versions, r.op.id, r.op.ifMatch);
    } else {
      OtherCounters(s, r);
      c := if MoveOf(s, r).Keep? then After(s, r).versions else Checked(s.versions, r.op.id, r.op.ifMatch);
    }
  }

  lemma LifecycleCounters(s: HubState, r: Request)
    requires r.op.Patch? || r.op.Delete?
    ensures
      var c := Checked(s.versions, r.op.id, r.op.ifMatch);
      if MoveOf(s, r).Keep? then After(s, r).versions in {s.versions, c}
      else After(s, r).versions == Moved(c, r.op.id, MoveOf(s, r))
  {
  }

  lemma OtherCounters(s: HubState, r: Request)
    requires r.op.Rotate? || r.op.Revoke? || r.op.SetMachine? || r.op.RevokeMachine?
    ensures
      var c := Checked(s.versions, r.op.id, r.op.ifMatch);
      if MoveOf(s, r).Keep? then After(s, r).versions in {s.versions, c}
      else After(s, r).versions == Moved(c, r.op.id, MoveOf(s, r))
  {
  }

  lemma MovedVersion(c: Counters, target: string, move: Move, id: string)
    requires move.Drop? || move.RenameTo? ==> target != id
    requires move.RenameTo? ==> move.newId != id
    ensures Version(Moved(c, target, move), id) ==
            Advance(Version(c, id), if move.Bump? && target == id then 1 else 0)
  {
    BumpAdvances(c, target, id);
    assert Advance(Version(c, id), 0) == Version(c, id);
  }

  /** A renaming PATCH that succeeds, or a delete, ends the life of the addressed ID. */
  lemma LifeEnds(s: HubState, r: Request)
    requires WellFormed(s.cfg) && !r.op.List?
    requires Step(s, r.now, r.op).1.Removed? || (r.op.Patch? && PatchRenames(r.op) && Step(s, r.now, r.op).1.Done?)
    ensures !Exists(After(s, r), r.op.id)
    ensures r.op.Patch? ==> !Exists(s, r.op.newId.value)
  {
    var t := s.cfg.tokens;
    if r.op.Delete? {
      DeletedAway(t, r.op.id);
    } else {
      RenamedAway(t, IndexWith(t, EntryId, r.op.id), After(s, r).cfg.tokens[IndexWith(t, EntryId, r.op.id)]);
    }
  }

  /** An identity there before and after a step is not the one a rename or a delete moved. */
  lemma SurvivorNotMoved(s: HubState, r: Request, id: string)
    requires WellFormed(s.cfg) && Exists(s, id) && Exists(After(s, r), id) && !r.op.List?
    ensures MoveOf(s, r).Drop? || MoveOf(s, r).RenameTo? ==> r.op.id != id
    ensures MoveOf(s, r).RenameTo? ==> MoveOf(s, r).newId != id
  {
    if MoveOf(s, r).Drop? || MoveOf(s, r).RenameTo? {
      LifeEnds(s, r);
    }
  }

  lemma StepVersion(s: HubState, r: Request, id: string)
    requires WellFormed(s.cfg) && Exists(s, id) && Exists(After(s, r), id)
    ensures Version(After(s, r).versions, id) ==
            Advance(Version(s.versions, id), if Mutates(s, r, id) then 1 else 0)
  {
    if r.op.List? {
      EnsuredAllIsInvisible(s.versions, s.cfg.tokens, id);
    } else {
      SurvivorNotMoved(s, r, id);
      var c := CountersMove(s, r);
      EnsureIsInvisible(s.versions, r.op.id, id);
      MovedVersion(c, r.op.id, MoveOf(s, r), id);
    }
  }

  ghost predicate Lives(s: HubState, rs: seq<Request>, id: string)
    decreases |rs|
  {
    Exists(s, id) && (rs == [] || Lives(After(s, rs[0]), rs[1..], id))
  }

  function Mutations(s: HubState, rs: seq<Request>, id: string): nat
    decreases |rs|
  {
    if rs == [] then 0
    else (if Mutates(s, rs[0], id) then 1 else 0) + Mutations(After(s, rs[0]), rs[1..], id)
  }

  /**
   * In every history in which the identity exists throughout, the version is
   * the starting one advanced by the number of successful mutations addressed
   * to it; nothing else moves it.
   */
  lemma {:induction false} VersionCountsMutations(s: HubState, rs: seq<Request>, id: string)
    requires WellFormed(s.cfg) && Legal(s, rs) && Lives(s, rs, id)
    ensures Version(Run(s, rs).versions, id) == Advance(Version(s.versions, id), Mutations(s, rs, id))
    decreases |rs|
  {
    if rs == [] {
    } else {
      var s1, k := FirstRequest(s, rs, id);
      VersionCountsMutations(s1, rs[1..], id);
      Chain(Version(s.versions, id), Version(s1.versions, id), Version(Run(s, rs).versions, id),
            k, Mutations(s1, rs[1..], id), Mutations(s, rs, id));
    }
  }

  /**
   * Until the counter wraps, the version is the starting one plus the number of
   * those mutations: each strictly increases it, and nothing else changes it.
   */
  lemma VersionIncreasesUntilWrap(s: HubState, rs: seq<Request>, id: string)
    requires WellFormed(s.cfg) && Legal(s, rs) && Lives(s, rs, id)
    requires Version(s.versions, id) + Mutations(s, rs, id) < TWO_64
    ensures Version(Run(s, rs).versions, id) == Version(s.versions, id) + Mutations(s, rs, id)
  {
    VersionCountsMutations(s, rs, id);
    AdvanceUntilWrap(Version(s.versions, id), Mutations(s, rs, id));
  }

  /** One request of a history: where it leads and how it moves the version. */
  lemma FirstRequest(s: HubState, rs: seq<Request>, id: string) returns (s1: HubState, k: nat)
    requires WellFormed(s.cfg) && Legal(s, rs) && Lives(s, rs, id) && rs != []
    ensures WellFormed(s1.cfg) && Legal(s1, rs[1..]) && Lives(s1, rs[1..], id)
    ensures Run(s, rs) == Run(s1, rs[1..]) && Mutations(s, rs, id) == k + Mutations(s1, rs[1..], id)
    ensures Version(s1.versions, id) == Advance(Version(s.versions, id), k)
  {
    s1 := After(s, rs[0]);
    k := if Mutates(s, rs[0], id) then 1 else 0;
    StepKeepsWellFormed(s, rs[0]);
    LivesOn(s, rs, id);
    StepVersion(s, rs[0], id);
  }

  lemma LivesOn(s: HubState, rs: seq<Request>, id: string)
    requires rs != [] && Lives(s, rs, id)
    ensures Exists(s, id) && Exists(After(s, rs[0]), id) && Lives(After(s, rs[0]), rs[1..], id)
  {
  }

  lemma Chain(u: U64, v: U64, w: U64, j: nat, k: nat, n: nat)
    requires 1 <= u && 1 <= v && v == Advance(u, j) && w == Advance(v, k) && n == j + k
    ensures w == Advance(u, n)
  {
    AdvanceAdds(u, j, k);
  }

  /** A mutation carrying an If-Match succeeds only at that version. */
  lemma IfMatchHolds(s: HubState, r: Request, id: string)
    requires Mutates(s, r, id) && r.op.ifMatch.Some?
    ensures r.op.ifMatch.value == Version(s.versions, id)
  {
  }

  /**
   * Of two mutations of one identity carrying the same If-Match, at most one
   * succeeds: both can only after the counter has gone round all 2^64 - 1 versions.
   */
  lemma AtMostOneWins(s: HubState, first: Request, between: seq<Request>, second: Request, id: string)
    requires WellFormed(s.cfg) && Legal(s, [first] + between) && Lives(s, [first] + between, id)
    requires Mutates(s, first, id) && Mutates(Run(s, [first] + between), second, id)
    requires first.op.ifMatch.Some? && second.op.ifMatch == first.op.ifMatch
    ensures 1 + Mutations(After(s, first), between, id) >= CYCLE
  {
    var rs := [first] + between;
    assert rs[1..] == between;
    VersionCountsMutations(s, rs, id);
    IfMatchHolds(s, first, id);
    IfMatchHolds(Run(s, rs), second, id);
    AdvanceFixed(Version(s.versions, id), Mutations(s, rs, id));
  }

  /** Same entry, same connect grants and same manage grants everywhere. */
  ghost predicate SameIdentity(a: Config, b: Config, id: string) {
    && FirstWith(a.tokens, EntryId, id).Some?
    && FirstWith(a.tokens, EntryId, id) == FirstWith(b.tokens, EntryId, id)
    && var t := FirstWith(a.tokens, EntryId, id).value.token;
       && (forall m :: ConnectGrant(a.machines, m, t) == ConnectGrant(b.machines, m, t))
       && (forall m :: ManageGrant(a.machines, m, t) == ManageGrant(b.machines, m, t))
  }

  lemma {:induction false} FirstWithReplaced(t: seq<TokenEntry>, i: nat, e: TokenEntry, id: string)
    requires i < |t| && t[i].id != id && e.id != id
    ensures FirstWith(t[i := e], EntryId, id) == FirstWith(t, EntryId, id)
  {
    if i == 0 {
      assert t[i := e][1..] == t[1..];
    } else {
      assert t[i := e][1..] == t[1..][i - 1 := e];
      FirstWithReplaced(t[1..], i - 1, e, id);
    }
  }

  /** The entry found by ID, and that its token is not another identity's. */
  lemma TheEntry(s: HubState, id: string) returns (e: TokenEntry)
    requires WellFormed(s.cfg) && Exists(s, id)
    ensures FirstWith(s.cfg.tokens, EntryId, id) == Some(e) && e in s.cfg.tokens && e.id == id
    ensures forall f :: f in s.cfg.tokens && f.id != id ==> f.token != e.token
  {
    FirstWithIsMember(s.cfg.tokens, EntryId, id);
    e := FirstWith(s.cfg.tokens, EntryId, id).value;
    var t := s.cfg.tokens;
    assert e.id == id;
    forall f | f in t && f.id != id ensures f.token != e.token {
      var i :| 0 <= i < |t| && t[i] == e;
      var j :| 0 <= j < |t| && t[j] == f;
      assert EntryToken(t[i]) == e.token && EntryToken(t[j]) == f.token;
    }
  }

  /** Another identity's request leaves the entry alone. */
  lemma OthersKeepEntry(s: HubState, r: Request, id: string)
    requires WellFormed(s.cfg) && Exists(s, id) && Exists(After(s, r), id)
    requires !Mutates(s, r, id)
    ensures FirstWith(After(s, r).cfg.tokens, EntryId, id) == FirstWith(s.cfg.tokens, EntryId, id)
  {
    var t, t', op := s.cfg.tokens, After(s, r).cfg.tokens, r.op;
    var i := IndexWith(t, EntryId, Target(op));
    StepShapes(s, r);
    if t' == t {
    } else if op.Add? {
      FirstWithIsMember(t, EntryId, id);
      FirstWithAppend(t, [t'[|t|]], EntryId, id);
      assert t' == t + [t'[|t|]];
    } else if op.Delete? {
      FirstWithWithout(t, EntryId, op.id, id);
      DeletedAway(t, op.id);
    } else if op.id == id {
      // only the rename that precedes a refused role change gets here
      RenamedAway(t, i, t'[i]);
    } else {
      assert t[i].id == op.id;
      FirstWithReplaced(t, i, t'[i], id);
    }
  }

  /** Another identity's request leaves the grants alone. */
  lemma OthersKeepGrants(s: HubState, r: Request, id: string, e: TokenEntry, m: string)
    requires WellFormed(s.cfg) && FreshFor(s, r.op) && !Mutates(s, r, id)
    requires e in s.cfg.tokens && e.id == id && Exists(After(s, r), id)
    requires forall f :: f in s.cfg.tokens && f.id != id ==> f.token != e.token
    ensures ConnectGrant(After(s, r).cfg.machines, m, e.token) == ConnectGrant(s.cfg.machines, m, e.token)
    ensures ManageGrant(After(s, r).cfg.machines, m, e.token) == ManageGrant(s.cfg.machines, m, e.token)
  {
    var op := r.op;
    var machines := s.cfg.machines;
    var i := IndexWith(s.cfg.tokens, EntryId, Target(op));
    if op.Delete? {
      DeletedAway(s.cfg.tokens, op.id);
    }
    if After(s, r).cfg.machines != machines {
      var f := s.cfg.tokens[i];
      assert f in s.cfg.tokens && f.id == op.id;
      assert op.id != id;
      match op {
        case Rotate(_, _, minted) => RetokenMachinesFinds(machines, f.token, minted.value, m, e.token);
        case Delete(_, _) => ScrubMachinesFinds(machines, f.token, m, e.token);
        case SetMachine(_, _, k, permissions, services) =>
          RowReplacedFinds(machines, k, f.token, permissions, services, m, e.token);
        case RevokeMachine(_, _, k) => RowReplacedFinds(machines, k, f.token, [], [], m, e.token);
        case _ =>
      }
    }
  }

  lemma StepKeepsIdentity(s: HubState, r: Request, id: string)
    requires WellFormed(s.cfg) && FreshFor(s, r.op) && !Mutates(s, r, id)
    requires Exists(s, id) && Exists(After(s, r), id)
    ensures SameIdentity(s.cfg, After(s, r).cfg, id)
  {
    var e := TheEntry(s, id);
    OthersKeepEntry(s, r, id);
    forall m
      ensures ConnectGrant(After(s, r).cfg.machines, m, e.token) == ConnectGrant(s.cfg.machines, m, e.token)
      ensures ManageGrant(After(s, r).cfg.machines, m, e.token) == ManageGrant(s.cfg.machines, m, e.token)
    {
      OthersKeepGrants(s, r, id, e, m);
    }
  }

  lemma {:induction false} UnmutatedIsUnchanged(s: HubState, rs: seq<Request>, id: string)
    requires WellFormed(s.cfg) && Legal(s, rs) && Lives(s, rs, id)
    requires Mutations(s, rs, id) == 0
    ensures SameIdentity(s.cfg, Run(s, rs).cfg, id)
    decreases |rs|
  {
    if rs == [] {
      FirstWithIsMember(s.cfg.tokens, EntryId, id);
    } else {
      var s1 := After(s, rs[0]);
      LivesOn(s, rs, id);
      StepKeepsWellFormed(s, rs[0]);
      StepKeepsIdentity(s, rs[0], id);
      UnmutatedIsUnchanged(s1, rs[1..], id);
    }
  }

  /**
   * Equal versions at two moments of an identity's life mean the same token,
   * role, timestamps, connect grants and manage grants, unless the counter
   * has gone all the way round in between.
   */
  lemma EqualVersionsSameIdentity(s: HubState, rs: seq<Request>, id: string)
    requires WellFormed(s.cfg) && Legal(s, rs) && Lives(s, rs, id)
    requires Version(Run(s, rs).versions, id) == Version(s.versions, id)
    ensures SameIdentity(s.cfg, Run(s, rs).cfg, id) || Mutations(s, rs, id) >= CYCLE
  {
    VersionCountsMutations(s, rs, id);
    AdvanceFixed(Version(s.versions, id), Mutations(s, rs, id));
    if Mutations(s, rs, id) < CYCLE {
      UnmutatedIsUnchanged(s, rs, id);
    }
  }

  /** A rename continues the old counter under the new name. */
  lemma RenameContinuesVersion(s: HubState, r: Request)
    requires r.op.Patch? && PatchRenames(r.op) && Step(s, r.now, r.op).1.Done?
    ensures Version(After(s, r).versions, r.op.newId.value) == NextVersion(Version(s.versions, r.op.id))
  {
    var c := CountersMove(s, r);
    assert MoveOf(s, r) == RenameTo(r.op.newId.value);
    EnsureIsInvisible(s.versions, r.op.id, r.op.id);
    RenameCarries(c, r.op.id, r.op.newId.value, "");
  }

  /** Deleting an identity and adding it again restarts its version at 1. */
  lemma RecreationRestarts(s: HubState, del: Request, add: Request, id: string)
    requires del.op.Delete? && add.op.Add? && del.op.id == add.op.id == id
    requires Step(s, del.now, del.op).1.Removed?
    requires Step(After(s, del), add.now, add.op).1.Done?
    ensures Step(After(s, del), add.now, add.op).1 == Done(1)
    ensures Version(After(After(s, del), add).versions, id) == 1
  {
  }
}
