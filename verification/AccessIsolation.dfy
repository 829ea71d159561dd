/**
 * Requests touch only the identity they address: over whole runs no decision
 * about another identity changes, registration aside, and registration on a
 * machine changes exactly with its slot. Also what an added identity starts with
 * and what the replies report.
 */
module AccessIsolation {
  import opened Common
  import opened KeyedSeq
  import opened AccessVersion
  import opened AccessModel
  import opened AccessSteps
  import opened AccessExact
  import opened OwnerSafety
  import opened AccessHistory

  /** Another identity's entry is still there after any request. */
  lemma EntrySurvives(s: HubState, r: Request, f: TokenEntry)
    requires WellFormed(s.cfg) && f in s.cfg.tokens && Target(r.op) != f.id
    ensures f in After(s, r).cfg.tokens
  {
    var t, t' := s.cfg.tokens, After(s, r).cfg.tokens;
    StepShapes(s, r);
    if r.op.Delete? && t' != t {
      WithoutMember(t, EntryId, r.op.id, f);
    } else if t' != t && !r.op.Add? {
      var j :| 0 <= j < |t| && t[j] == f;
      assert t'[j] == f;
    }
  }

  /** Requests that leave the ACLs alone leave every surviving entry's rights alone. */
  lemma SameAclsSameRights(a: Config, b: Config, f: TokenEntry, now: Time, m: string)
    requires WellFormed(a) && WellFormed(b) && f in a.tokens && f in b.tokens && a.machines == b.machines
    ensures Decide(StoreOf(b), now, f.token, m) == Decide(StoreOf(a), now, f.token, m)
    ensures CanRegister(StoreOf(b), now, f.token, m) == CanRegister(StoreOf(a), now, f.token, m)
  {
    DecisionsDetermined(a, b, f, m);
    RegistrationDetermined(a, b, f, now, m);
  }

  /** A request that changed an ACL is a successful rotation, row request or delete. */
  lemma AclChanges(s: HubState, r: Request)
    requires After(s, r).cfg.machines != s.cfg.machines
    ensures r.op.Rotate? || IsRowOp(r.op) || r.op.Delete?
    ensures if r.op.Delete? then Step(s, r.now, r.op).1.Removed? else Step(s, r.now, r.op).1.Done?
  {
  }

  /** No request changes what the hub decides about an identity it does not address, registration aside. */
  lemma StepIsolates(s: HubState, r: Request, f: TokenEntry, now: Time, m: string)
    requires WellFormed(s.cfg) && FreshFor(s, r.op) && f in s.cfg.tokens && Target(r.op) != f.id
    ensures f in After(s, r).cfg.tokens && WellFormed(After(s, r).cfg)
    ensures Decide(StoreOf(After(s, r).cfg), now, f.token, m) == Decide(StoreOf(s.cfg), now, f.token, m)
  {
    EntrySurvives(s, r, f);
    StepKeepsWellFormed(s, r);
    if After(s, r).cfg.machines == s.cfg.machines {
      SameAclsSameRights(s.cfg, After(s, r).cfg, f, now, m);
    } else {
      AclChanges(s, r);
      if r.op.Rotate? {
        RotationKeepsOthers(s, r, f, now, m);
      } else if r.op.Delete? {
        DeleteKeepsOthers(s, r, f, now, m);
      } else {
        RowKeepsOthers(s, r, f, now, m);
      }
    }
  }

  ghost predicate NeverAddressed(rs: seq<Request>, id: string) {
    forall i :: 0 <= i < |rs| ==> Target(rs[i].op) != id
  }

  /**
   * Over every run that never addresses an identity, its entry and every decision
   * about it stay put, registration aside.
   */
  lemma {:induction false} RunIsolates(s: HubState, rs: seq<Request>, f: TokenEntry, now: Time, m: string)
    requires WellFormed(s.cfg) && Legal(s, rs) && f in s.cfg.tokens && NeverAddressed(rs, f.id)
    ensures f in Run(s, rs).cfg.tokens
    ensures Decide(StoreOf(Run(s, rs).cfg), now, f.token, m) == Decide(StoreOf(s.cfg), now, f.token, m)
    decreases |rs|
  {
    if rs == [] {
    } else {
      assert Target(rs[0].op) != f.id;
      StepIsolates(s, rs[0], f, now, m);
      assert NeverAddressed(rs[1..], f.id);
      RunIsolates(After(s, rs[0]), rs[1..], f, now, m);
    }
  }

  /** The request sets the identity's row on the machine, or deletes the holder of the machine's slot. */
  predicate MovesRegistration(s: HubState, r: Request, m: string) {
    || (IsRowOp(r.op) && r.op.machine == m && Step(s, r.now, r.op).1.Done?)
    || (r.op.Delete? && Step(s, r.now, r.op).1.Removed? && Has(s.cfg.tokens, EntryId, r.op.id)
        && m in s.cfg.machines && s.cfg.machines[m].registerToken == Found(s, r.op).token)
  }

  /** No other request changes who else may register. */
  lemma StepKeepsRegistration(s: HubState, r: Request, f: TokenEntry, now: Time, m: string)
    requires WellFormed(s.cfg) && FreshFor(s, r.op) && f in s.cfg.tokens && Target(r.op) != f.id
    requires !MovesRegistration(s, r, m)
    ensures CanRegister(StoreOf(After(s, r).cfg), now, f.token, m) == CanRegister(StoreOf(s.cfg), now, f.token, m)
  {
    EntrySurvives(s, r, f);
    StepKeepsWellFormed(s, r);
    if After(s, r).cfg.machines == s.cfg.machines {
      SameAclsSameRights(s.cfg, After(s, r).cfg, f, now, m);
    } else {
      AclChanges(s, r);
      if r.op.Rotate? {
        RotationKeepsOthers(s, r, f, now, m);
      } else {
        SlotStays(s, r, m);
        RegistrationDetermined(s.cfg, After(s, r).cfg, f, now, m);
      }
    }
  }

  lemma SlotStays(s: HubState, r: Request, m: string)
    requires WellFormed(s.cfg) && !MovesRegistration(s, r, m)
    requires (IsRowOp(r.op) && Step(s, r.now, r.op).1.Done?) || (r.op.Delete? && Step(s, r.now, r.op).1.Removed?)
    ensures
      var ms, ms' := s.cfg.machines, After(s, r).cfg.machines;
      (m in ms <==> m in ms') && (m in ms ==> ms[m].registerToken == ms'[m].registerToken)
  {
    if r.op.Delete? {
      DeleteConfig(s, r);
    } else {
      RowConfig(s, r);
    }
  }

  /**
   * Whether another unprivileged, valid identity may register on the machine
   * after any request: as before, unless the request moves the slot. Then it may
   * exactly when the slot is not claimed, and it could before, the ACL is new, or
   * the slot was the addressed identity's.
   */
  lemma StepMovesRegistrationExactly(s: HubState, r: Request, f: TokenEntry, now: Time, m: string)
    requires WellFormed(s.cfg) && FreshFor(s, r.op) && f in s.cfg.tokens && Target(r.op) != f.id
    requires IsValid(f, now) && !IsPrivileged(f)
    ensures MovesRegistration(s, r, m) ==> Has(s.cfg.tokens, EntryId, r.op.id)
    ensures
      var was := CanRegister(StoreOf(s.cfg), now, f.token, m);
      CanRegister(StoreOf(After(s, r).cfg), now, f.token, m) <==>
      if !MovesRegistration(s, r, m) then was
      else
        && !(IsRowOp(r.op) && "register" in Requested(r.op))
        && (was || m !in s.cfg.machines || s.cfg.machines[m].registerToken == Found(s, r.op).token)
  {
    if !MovesRegistration(s, r, m) {
      StepKeepsRegistration(s, r, f, now, m);
    } else if r.op.Delete? {
      DeleteKeepsOthers(s, r, f, now, m);
    } else {
      RowConfig(s, r);
      RowMovesRegistrationExactly(s, r, f, now, m);
    }
  }

  /** No request of the run moves the machine's slot. */
  ghost predicate SlotUntouched(s: HubState, rs: seq<Request>, m: string)
    decreases |rs|
  {
    rs == [] || (!MovesRegistration(s, rs[0], m) && SlotUntouched(After(s, rs[0]), rs[1..], m))
  }

  /**
   * Over every run that neither addresses an identity nor moves a machine's slot,
   * the identity's registration there stays put.
   */
  lemma {:induction false} RunKeepsRegistration(s: HubState, rs: seq<Request>, f: TokenEntry, now: Time, m: string)
    requires WellFormed(s.cfg) && Legal(s, rs) && f in s.cfg.tokens && NeverAddressed(rs, f.id)
    requires SlotUntouched(s, rs, m)
    ensures CanRegister(StoreOf(Run(s, rs).cfg), now, f.token, m) == CanRegister(StoreOf(s.cfg), now, f.token, m)
    decreases |rs|
  {
    if rs == [] {
    } else {
      assert Target(rs[0].op) != f.id;
      StepKeepsRegistration(s, rs[0], f, now, m);
      StepIsolates(s, rs[0], f, now, m);
      assert NeverAddressed(rs[1..], f.id);
      RunKeepsRegistration(After(s, rs[0]), rs[1..], f, now, m);
    }
  }

  /** The identity an add creates. */
  function Added(r: Request): TokenEntry
    requires r.op.Add? && r.op.minted.Some?
  {
    var expires := if r.op.expiry.At? then Some(r.op.expiry.time) else None;
    TokenEntry(r.op.id, r.op.minted.value, r.op.role, Some(r.now), expires, None)
  }

  /** An add creates exactly that identity, under a free ID, and leaves the ACLs alone. */
  lemma AddIsExact(s: HubState, r: Request)
    requires r.op.Add? && Step(s, r.now, r.op).1.Done?
    ensures r.op.minted.Some? && !Has(s.cfg.tokens, EntryId, r.op.id) && r.op.role in ["", "owner", "admin"]
    ensures After(s, r).cfg == s.cfg.(tokens := s.cfg.tokens + [Added(r)])
  {
  }

  /** Unless privileged, an added identity may do nothing but register where an ACL leaves the slot open. */
  lemma AddedIdentityStartsBare(s: HubState, r: Request, now: Time, m: string)
    requires WellFormed(s.cfg) && FreshFor(s, r.op) && r.op.Add? && Step(s, r.now, r.op).1.Done?
    ensures r.op.minted.Some?
    ensures
      var e, st' := Added(r), StoreOf(After(s, r).cfg);
      !IsPrivileged(e) ==>
        && !CanConnect(st', now, e.token, m) && !CanManage(st', now, e.token, m)
        && (CanRegister(st', now, e.token, m) <==>
              IsValid(e, now) && m in s.cfg.machines && s.cfg.machines[m].registerToken == "")
  {
    AddIsExact(s, r);
    StepKeepsWellFormed(s, r);
    var cfg := After(s, r).cfg;
    assert cfg.tokens[|s.cfg.tokens|] == Added(r);
    UnusedFindsNothing(s.cfg, Added(r).token, m);
    UnusedFindsNothing(s.cfg, Added(r).token, "*");
    if !IsPrivileged(Added(r)) {
      BareEntry(cfg, Added(r), now, m);
    }
  }

  lemma UnusedFindsNothing(cfg: Config, t: string, m: string)
    requires Unused(cfg, t)
    ensures ConnectGrant(cfg.machines, m, t).None? && !ManageGrant(cfg.machines, m, t)
    ensures m in cfg.machines ==> cfg.machines[m].registerToken != t
  {
    FirstWithIsMember(AclAt(cfg.machines, m).connect, GrantToken, t);
    FirstWithIsMember(AclAt(cfg.machines, m).manage, Itself, t);
  }

  lemma BareEntry(cfg: Config, e: TokenEntry, now: Time, m: string)
    requires WellFormed(cfg) && e in cfg.tokens && !IsPrivileged(e)
    requires ConnectGrant(cfg.machines, m, e.token).None? && !ManageGrant(cfg.machines, m, e.token)
    requires ConnectGrant(cfg.machines, "*", e.token).None? && !ManageGrant(cfg.machines, "*", e.token)
    requires m in cfg.machines ==> cfg.machines[m].registerToken != e.token
    ensures !CanConnect(StoreOf(cfg), now, e.token, m) && !CanManage(StoreOf(cfg), now, e.token, m)
    ensures CanRegister(StoreOf(cfg), now, e.token, m) <==>
              IsValid(e, now) && m in cfg.machines && cfg.machines[m].registerToken == ""
  {
    StoreKnows(cfg, e);
  }

  /** A PATCH that succeeds changes the ID and role asked for, and nothing else. */
  lemma PatchIsExact(s: HubState, r: Request)
    requires WellFormed(s.cfg) && r.op.Patch? && Step(s, r.now, r.op).1.Done?
    ensures Has(s.cfg.tokens, EntryId, r.op.id)
    ensures
      var e := Found(s, r.op);
      var e' := e.(id := if r.op.newId.Some? then r.op.newId.value else e.id,
                   role := if r.op.newRole.Some? then r.op.newRole.value else e.role);
      && After(s, r).cfg.machines == s.cfg.machines
      && (forall f :: f in After(s, r).cfg.tokens <==> f == e' || (f in s.cfg.tokens && f.id != r.op.id))
  {
    var t, t' := s.cfg.tokens, After(s, r).cfg.tokens;
    var i := IndexWith(t, EntryId, r.op.id);
    assert t'[i] in t' && |t'| == |t|;
    assert forall j :: 0 <= j < |t| && j != i ==> t'[j] == t[j] && EntryId(t[j]) != EntryId(t[i]);
    forall f | f in t' ensures f == t'[i] || (f in t && f.id != r.op.id) {
      var j :| 0 <= j < |t'| && t'[j] == f;
    }
    forall f | f in t && f.id != r.op.id ensures f in t' {
      var j :| 0 <= j < |t| && t[j] == f;
      assert t'[j] == f;
    }
  }

  /** A stale If-Match is answered with the current version, which it leaves alone with everything else. */
  lemma StaleReportsCurrent(s: HubState, r: Request)
    requires Step(s, r.now, r.op).1.Stale?
    ensures
      var current := Step(s, r.now, r.op).1.current;
      && r.op.ifMatch.Some? && r.op.ifMatch.value != current
      && current == Version(s.versions, r.op.id) == Version(After(s, r).versions, r.op.id)
      && After(s, r).cfg == s.cfg
  {
  }

  /**
   * A success reports the version the next request must carry, or 0, no ETag.
   * It reports 0 exactly when the counter has just wrapped.
   */
  lemma DoneReportsNext(s: HubState, r: Request)
    requires Step(s, r.now, r.op).1.Done?
    ensures
      var version := Step(s, r.now, r.op).1.version;
      && (version == 0 || version == Version(After(s, r).versions, IdAfter(r.op, Done(version))))
      && (version == 0 <==> !r.op.Add? && !r.op.Get? && Version(s.versions, Target(r.op)) == TWO_64 - 1)
  {
    if r.op.Patch? {
      PatchReportsNext(s, r);
    } else if r.op.SetMachine? || r.op.RevokeMachine? {
      RowReportsNext(s, r);
    } else if r.op.Rotate? || r.op.Revoke? {
      TokenReportsNext(s, r);
    }
  }

  /** The ID the addressed identity goes by after the reply. */
  function IdAfter(op: Op, reply: Reply): string {
    if reply.Done? && op.Patch? && PatchRenames(op) then op.newId.value else Target(op)
  }

  lemma PatchReportsNext(s: HubState, r: Request)
    requires r.op.Patch? && Step(s, r.now, r.op).1.Done?
    ensures Step(s, r.now, r.op).1.version == Raw(After(s, r).versions, IdAfter(r.op, Step(s, r.now, r.op).1))
    ensures Step(s, r.now, r.op).1.version == (Version(s.versions, r.op.id) + 1) % TWO_64
  {
  }

  lemma RowReportsNext(s: HubState, r: Request)
    requires IsRowOp(r.op) && Step(s, r.now, r.op).1.Done?
    ensures Step(s, r.now, r.op).1.version == Raw(After(s, r).versions, r.op.id)
    ensures Step(s, r.now, r.op).1.version == (Version(s.versions, r.op.id) + 1) % TWO_64
  {
  }

  lemma TokenReportsNext(s: HubState, r: Request)
    requires (r.op.Rotate? || r.op.Revoke?) && Step(s, r.now, r.op).1.Done?
    ensures Step(s, r.now, r.op).1.version == Raw(After(s, r).versions, r.op.id)
    ensures Step(s, r.now, r.op).1.version == (Version(s.versions, r.op.id) + 1) % TWO_64
  {
  }

  /** The version a reply tells the client, if any. */
  function Told(reply: Reply): U64 {
    match reply
    case Done(version) => version
    case Stale(current) => current
    case _ => 0
  }

  /**
   * The optimistic loop, over any history that follows: a client that sends the
   * version a success or a 412 told it is refused exactly when the number of
   * mutations of the identity since is not a multiple of 2^64 - 1; in particular
   * never when there was none.
   */
  lemma ToldVersionStandsExactly(s: HubState, r: Request, rs: seq<Request>)
    requires WellFormed(s.cfg) && FreshFor(s, r.op) && Legal(After(s, r), rs)
    requires Told(Step(s, r.now, r.op).1) != 0 && Lives(After(s, r), rs, IdAfter(r.op, Step(s, r.now, r.op).1))
    ensures
      var reply := Step(s, r.now, r.op).1;
      var id := IdAfter(r.op, reply);
      StaleMatch(Run(After(s, r), rs).versions, id, Some(Told(reply))) <==> Mutations(After(s, r), rs, id) % CYCLE != 0
  {
    var id := IdAfter(r.op, Step(s, r.now, r.op).1);
    StepKeepsWellFormed(s, r);
    ToldIsCurrent(s, r);
    VersionCountsMutations(After(s, r), rs, id);
    AdvanceFixed(Version(After(s, r).versions, id), Mutations(After(s, r), rs, id));
  }

  lemma ToldIsCurrent(s: HubState, r: Request)
    requires Told(Step(s, r.now, r.op).1) != 0
    ensures
      var reply := Step(s, r.now, r.op).1;
      Told(reply) == Version(After(s, r).versions, IdAfter(r.op, reply))
  {
    if Step(s, r.now, r.op).1.Done? {
      DoneReportsNext(s, r);
    } else {
      StaleReportsCurrent(s, r);
    }
  }
}
