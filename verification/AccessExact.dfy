/**
 * Rotation preserves meaning; set, revoke and delete are exact. Each result
 * joins a request's effect on the configuration with the decisions of the
 * store reloaded from it.
 */
module AccessExact {
  import opened Common
  import opened KeyedSeq
  import opened AccessModel
  import opened AccessSteps
  import opened AccessGrants
  import opened OwnerSafety

  /** The entry a successful request found. */
  function Found(s: HubState, op: Op): TokenEntry
    requires !op.List? && Has(s.cfg.tokens, EntryId, op.id)
  {
    s.cfg.tokens[IndexWith(s.cfg.tokens, EntryId, op.id)]
  }

  lemma FoundIsDistinct(s: HubState, op: Op, f: TokenEntry)
    requires WellFormed(s.cfg) && !op.List? && Has(s.cfg.tokens, EntryId, op.id)
    requires f in s.cfg.tokens && f.id != op.id
    ensures Found(s, op) in s.cfg.tokens && Found(s, op).id == op.id && f.token != Found(s, op).token
  {
    var t := s.cfg.tokens;
    var i := IndexWith(t, EntryId, op.id);
    var j :| 0 <= j < |t| && t[j] == f;
    assert EntryId(t[i]) == op.id && EntryToken(t[i]) == t[i].token && EntryToken(t[j]) == f.token;
  }

  // ---- rotation ----

  lemma RotationConfig(s: HubState, r: Request)
    requires WellFormed(s.cfg) && FreshFor(s, r.op) && r.op.Rotate? && Step(s, r.now, r.op).1.Done?
    ensures Has(s.cfg.tokens, EntryId, r.op.id) && r.op.minted.Some? && Unused(s.cfg, r.op.minted.value)
    ensures
      var e := Found(s, r.op);
      var e' := e.(token := r.op.minted.value, issuedAt := Some(r.now), revokedAt := None);
      && e in s.cfg.tokens && e' in After(s, r).cfg.tokens
      && After(s, r).cfg.machines == RetokenMachines(s.cfg.machines, e.token, r.op.minted.value)
      && (forall f :: f in s.cfg.tokens && f.id != r.op.id ==> f in After(s, r).cfg.tokens)
      && (forall f :: f in After(s, r).cfg.tokens ==> f.token != e.token)
      && WellFormed(After(s, r).cfg)
  {
    StepKeepsWellFormed(s, r);
    var t, t' := s.cfg.tokens, After(s, r).cfg.tokens;
    var i := IndexWith(t, EntryId, r.op.id);
    assert t'[i] in t';
    assert t[i] in t && t[i].token != r.op.minted.value;
    forall f | f in t && f.id != r.op.id ensures f in t' {
      var j :| 0 <= j < |t| && t[j] == f;
      assert t'[j] == f;
    }
    forall f | f in t' ensures f.token != t[i].token {
      var j :| 0 <= j < |t'| && t'[j] == f;
      if j != i {
        assert EntryToken(t[j]) != EntryToken(t[i]);
      }
    }
  }

  /** The grants the new token finds are the old token's; manage lists do not know it. */
  lemma RotationGrants(s: HubState, r: Request, k: string)
    requires WellFormed(s.cfg) && FreshFor(s, r.op) && r.op.Rotate? && Step(s, r.now, r.op).1.Done?
    ensures
      var e, t', ms' := Found(s, r.op), r.op.minted.value, After(s, r).cfg.machines;
      && ConnectGrant(ms', k, t').Some? == ConnectGrant(s.cfg.machines, k, e.token).Some?
      && (ConnectGrant(ms', k, t').Some? ==>
            ConnectGrant(ms', k, t').value.services == ConnectGrant(s.cfg.machines, k, e.token).value.services)
      && !ManageGrant(ms', k, t')
      && (k in ms' <==> k in s.cfg.machines)
      && (k in ms' ==> (ms'[k].registerToken == t' <==> s.cfg.machines[k].registerToken == e.token))
      && (k in ms' ==> (ms'[k].registerToken == "" <==> s.cfg.machines[k].registerToken == ""))
  {
    RotationConfig(s, r);
    var e, t' := Found(s, r.op), r.op.minted.value;
    RetokenMachinesFinds(s.cfg.machines, e.token, t', k, t');
    FirstWithIsMember(AclAt(s.cfg.machines, k).manage, Itself, t');
  }

  /** While the old token was valid, the new one may do what it could, manage grants aside. */
  lemma RotationPreservesMeaning(s: HubState, r: Request, now: Time, m: string)
    requires WellFormed(s.cfg) && FreshFor(s, r.op) && r.op.Rotate? && Step(s, r.now, r.op).1.Done?
    ensures
      var e, t' := Found(s, r.op), r.op.minted.value;
      var st, st' := StoreOf(s.cfg), StoreOf(After(s, r).cfg);
      && (IsValid(e, now) ==>
            && CanConnect(st', now, t', m) == CanConnect(st, now, e.token, m)
            && ConnectFilter(st', now, t', m) == ConnectFilter(st, now, e.token, m)
            && CanRegister(st', now, t', m) == CanRegister(st, now, e.token, m)
            && CanView(st', now, t', m) == CanView(st, now, e.token, m))
      && (CanManage(st', now, t', m) <==> IsPrivileged(e) && IsValid(e.(revokedAt := None), now))
  {
    var e, t' := Found(s, r.op), r.op.minted.value;
    var e' := e.(token := t', issuedAt := Some(r.now), revokedAt := None);
    RotationGrants(s, r, m);
    RotationGrants(s, r, "*");
    RotatedEntries(s, r);
    SameDecisions(s.cfg, After(s, r).cfg, e, e', now, m);
  }

  lemma RotatedEntries(s: HubState, r: Request)
    requires WellFormed(s.cfg) && FreshFor(s, r.op) && r.op.Rotate? && Step(s, r.now, r.op).1.Done?
    ensures
      var e := Found(s, r.op);
      && WellFormed(After(s, r).cfg) && e in s.cfg.tokens
      && e.(token := r.op.minted.value, issuedAt := Some(r.now), revokedAt := None) in After(s, r).cfg.tokens
  {
    RotationConfig(s, r);
  }

  /** Two entries of one role and expiry, the second unrevoked and finding the first's grants. */
  lemma SameDecisions(a: Config, b: Config, e: TokenEntry, f: TokenEntry, now: Time, m: string)
    requires WellFormed(a) && WellFormed(b) && e in a.tokens && f in b.tokens
    requires f.role == e.role && f.expiresAt == e.expiresAt && f.revokedAt.None?
    requires forall k :: k in {m, "*"} ==>
               && ConnectGrant(b.machines, k, f.token).Some? == ConnectGrant(a.machines, k, e.token).Some?
               && (ConnectGrant(b.machines, k, f.token).Some? ==>
                     ConnectGrant(b.machines, k, f.token).value.services
                      == ConnectGrant(a.machines, k, e.token).value.services)
               && !ManageGrant(b.machines, k, f.token)
    requires m in b.machines <==> m in a.machines
    requires m in b.machines ==> (b.machines[m].registerToken == f.token <==> a.machines[m].registerToken == e.token)
    requires m in b.machines ==> (b.machines[m].registerToken == "" <==> a.machines[m].registerToken == "")
    ensures IsValid(e, now) ==>
              && CanConnect(StoreOf(b), now, f.token, m) == CanConnect(StoreOf(a), now, e.token, m)
              && ConnectFilter(StoreOf(b), now, f.token, m) == ConnectFilter(StoreOf(a), now, e.token, m)
              && CanRegister(StoreOf(b), now, f.token, m) == CanRegister(StoreOf(a), now, e.token, m)
              && CanView(StoreOf(b), now, f.token, m) == CanView(StoreOf(a), now, e.token, m)
    ensures CanManage(StoreOf(b), now, f.token, m) <==> IsPrivileged(f) && IsValid(f, now)
  {
    StoreKnows(a, e);
    StoreKnows(b, f);
    assert m in {m, "*"} && "*" in {m, "*"};
  }

  /** The rotated-out token is denied everywhere, by every kind of check. */
  lemma RotatedOutTokenDenied(s: HubState, r: Request, now: Time, m: string)
    requires WellFormed(s.cfg) && FreshFor(s, r.op) && r.op.Rotate? && Step(s, r.now, r.op).1.Done?
    ensures
      var t, st' := Found(s, r.op).token, StoreOf(After(s, r).cfg);
      && !CanConnect(st', now, t, m) && !CanManage(st', now, t, m) && !CanRegister(st', now, t, m)
      && !CanView(st', now, t, m) && !IsOwnerOrAdmin(st', now, t)
  {
    RotationConfig(s, r);
    UnknownTokenDenied(After(s, r).cfg, now, Found(s, r.op).token, m);
  }

  lemma RotationKeepsOthersRegister(s: HubState, r: Request, f: TokenEntry, now: Time, m: string)
    requires WellFormed(s.cfg) && FreshFor(s, r.op) && r.op.Rotate? && Step(s, r.now, r.op).1.Done?
    requires f in s.cfg.tokens && f.id != r.op.id
    ensures CanRegister(StoreOf(After(s, r).cfg), now, f.token, m) == CanRegister(StoreOf(s.cfg), now, f.token, m)
  {
    RotationConfig(s, r);
    FoundIsDistinct(s, r.op, f);
    StoreKnows(s.cfg, f);
    StoreKnows(After(s, r).cfg, f);
  }

  /** Rotation changes no decision about any other identity, registration included. */
  lemma RotationKeepsOthers(s: HubState, r: Request, f: TokenEntry, now: Time, m: string)
    requires WellFormed(s.cfg) && FreshFor(s, r.op) && r.op.Rotate? && Step(s, r.now, r.op).1.Done?
    requires f in s.cfg.tokens && f.id != r.op.id
    ensures Decide(StoreOf(After(s, r).cfg), now, f.token, m) == Decide(StoreOf(s.cfg), now, f.token, m)
    ensures CanRegister(StoreOf(After(s, r).cfg), now, f.token, m) == CanRegister(StoreOf(s.cfg), now, f.token, m)
  {
    RotationConfig(s, r);
    FoundIsDistinct(s, r.op, f);
    forall k
      ensures ConnectGrant(After(s, r).cfg.machines, k, f.token) == ConnectGrant(s.cfg.machines, k, f.token)
      ensures ManageGrant(After(s, r).cfg.machines, k, f.token) == ManageGrant(s.cfg.machines, k, f.token)
    {
      RetokenMachinesFinds(s.cfg.machines, Found(s, r.op).token, r.op.minted.value, k, f.token);
    }
    DecisionsDetermined(s.cfg, After(s, r).cfg, f, m);
    RotationKeepsOthersRegister(s, r, f, now, m);
  }

  // ---- PUT and DELETE of one machine row ----

  predicate IsRowOp(op: Op) {
    op.SetMachine? || op.RevokeMachine?
  }

  /** The permissions a row request leaves the identity with. */
  function Requested(op: Op): seq<string>
    requires IsRowOp(op)
  {
    if op.SetMachine? then op.permissions else []
  }

  function RequestedServices(op: Op): seq<string>
    requires IsRowOp(op)
  {
    if op.SetMachine? then op.services else []
  }

  lemma RowConfig(s: HubState, r: Request)
    requires IsRowOp(r.op) && Step(s, r.now, r.op).1.Done?
    ensures Has(s.cfg.tokens, EntryId, r.op.id)
    ensures
      var t := Found(s, r.op).token;
      After(s, r).cfg == s.cfg.(machines := s.cfg.machines[r.op.machine :=
        GrantAll(ScrubAcl(AclAt(s.cfg.machines, r.op.machine), t), Requested(r.op), t, RequestedServices(r.op))])
  {
  }

  /** Afterwards the identity's row is exactly what was asked for; its other rows are untouched. */
  lemma RowIsExact(s: HubState, r: Request, m: string)
    requires IsRowOp(r.op) && Step(s, r.now, r.op).1.Done?
    ensures
      var t, ms' := Found(s, r.op).token, After(s, r).cfg.machines;
      var k, asked := r.op.machine, Requested(r.op);
      && ConnectGrant(ms', k, t) == (if "connect" in asked then Some(Grant(t, RequestedServices(r.op))) else None)
      && (ManageGrant(ms', k, t) <==> "manage" in asked)
      && (t != "" ==> (k in ms' && ms'[k].registerToken == t <==> "register" in asked))
      && (m != k ==> AclAt(ms', m) == AclAt(s.cfg.machines, m))
  {
    RowConfig(s, r);
    RowReplacedFinds(s.cfg.machines, r.op.machine, Found(s, r.op).token,
                     Requested(r.op), RequestedServices(r.op), m, "");
  }

  /** A row request changes no connect, filter, manage or view decision about another identity. */
  lemma RowKeepsOthers(s: HubState, r: Request, f: TokenEntry, now: Time, m: string)
    requires WellFormed(s.cfg) && IsRowOp(r.op) && Step(s, r.now, r.op).1.Done?
    requires f in s.cfg.tokens && f.id != r.op.id
    ensures Decide(StoreOf(After(s, r).cfg), now, f.token, m) == Decide(StoreOf(s.cfg), now, f.token, m)
  {
    RowConfig(s, r);
    FoundIsDistinct(s, r.op, f);
    forall k
      ensures ConnectGrant(After(s, r).cfg.machines, k, f.token) == ConnectGrant(s.cfg.machines, k, f.token)
      ensures ManageGrant(After(s, r).cfg.machines, k, f.token) == ManageGrant(s.cfg.machines, k, f.token)
    {
      RowReplacedFinds(s.cfg.machines, r.op.machine, Found(s, r.op).token,
                       Requested(r.op), RequestedServices(r.op), k, f.token);
    }
    DecisionsDetermined(s.cfg, After(s, r).cfg, f, m);
  }

  /**
   * Registration is the exception: the single slot can be taken from another
   * identity, and an emptied slot or a newly created ACL lets any valid token
   * register. Exactly this happens to another unprivileged, valid identity.
   */
  lemma RowMovesRegistrationExactly(s: HubState, r: Request, f: TokenEntry, now: Time, m: string)
    requires WellFormed(s.cfg) && IsRowOp(r.op) && Step(s, r.now, r.op).1.Done?
    requires f in s.cfg.tokens && f.id != r.op.id && IsValid(f, now) && !IsPrivileged(f)
    ensures
      var was := CanRegister(StoreOf(s.cfg), now, f.token, m);
      var is' := CanRegister(StoreOf(After(s, r).cfg), now, f.token, m);
      if m != r.op.machine then is' == was
      else is' <==>
        && "register" !in Requested(r.op)
        && (was || m !in s.cfg.machines || s.cfg.machines[m].registerToken == Found(s, r.op).token)
  {
    RowConfig(s, r);
    FoundIsDistinct(s, r.op, f);
    StoreKnows(s.cfg, f);
    StoreKnows(After(s, r).cfg, f);
    assert Found(s, r.op).token != "";
    RowReplacedFinds(s.cfg.machines, r.op.machine, Found(s, r.op).token,
                     Requested(r.op), RequestedServices(r.op), m, f.token);
  }

  // ---- DELETE of an identity ----

  ghost predicate InNoAcl(machines: map<string, ACL>, t: string) {
    forall m :: m in machines ==>
      && machines[m].registerToken != t
      && (forall g :: g in machines[m].connect ==> g.token != t)
      && t !in machines[m].manage
  }

  lemma DeleteConfig(s: HubState, r: Request)
    requires WellFormed(s.cfg) && r.op.Delete? && Step(s, r.now, r.op).1.Removed?
    ensures Has(s.cfg.tokens, EntryId, r.op.id)
    ensures After(s, r).cfg.machines == ScrubMachines(s.cfg.machines, Found(s, r.op).token)
    ensures forall e :: e in After(s, r).cfg.tokens <==> e in s.cfg.tokens && e.id != r.op.id
    ensures WellFormed(After(s, r).cfg)
  {
    StepKeepsWellFormed(s, r);
    forall e ensures e in After(s, r).cfg.tokens <==> e in s.cfg.tokens && e.id != r.op.id {
      WithoutMember(s.cfg.tokens, EntryId, r.op.id, e);
    }
  }

  /** The deleted identity is gone from the token list and its token from every ACL. */
  lemma DeleteLeavesNoTrace(s: HubState, r: Request)
    requires WellFormed(s.cfg) && r.op.Delete? && Step(s, r.now, r.op).1.Removed?
    ensures InNoAcl(After(s, r).cfg.machines, Found(s, r.op).token)
    ensures After(s, r).cfg.machines.Keys == s.cfg.machines.Keys
    ensures forall e :: e in After(s, r).cfg.tokens ==> e.id != r.op.id && e.token != Found(s, r.op).token
  {
    DeleteConfig(s, r);
    var t := Found(s, r.op).token;
    assert Found(s, r.op) in s.cfg.tokens;
    forall e | e in After(s, r).cfg.tokens ensures e.token != t {
      FoundIsDistinct(s, r.op, e);
    }
    forall m | m in s.cfg.machines
      ensures forall g :: g in ScrubAcl(s.cfg.machines[m], t).connect ==> g.token != t
      ensures t !in ScrubAcl(s.cfg.machines[m], t).manage
    {
      forall g | g in ScrubAcl(s.cfg.machines[m], t).connect ensures g.token != t {
        WithoutMember(s.cfg.machines[m].connect, GrantToken, t, g);
      }
      WithoutMember(s.cfg.machines[m].manage, Itself, t, t);
    }
  }

  /** Deleting an identity changes no decision about another; registration opens where its slot was. */
  lemma DeleteKeepsOthers(s: HubState, r: Request, f: TokenEntry, now: Time, m: string)
    requires WellFormed(s.cfg) && r.op.Delete? && Step(s, r.now, r.op).1.Removed?
    requires f in s.cfg.tokens && f.id != r.op.id
    ensures Decide(StoreOf(After(s, r).cfg), now, f.token, m) == Decide(StoreOf(s.cfg), now, f.token, m)
    ensures IsValid(f, now) && !IsPrivileged(f) ==>
              (CanRegister(StoreOf(After(s, r).cfg), now, f.token, m) <==>
               || CanRegister(StoreOf(s.cfg), now, f.token, m)
               || (m in s.cfg.machines && s.cfg.machines[m].registerToken == Found(s, r.op).token))
  {
    DeleteConfig(s, r);
    FoundIsDistinct(s, r.op, f);
    forall k
      ensures ConnectGrant(After(s, r).cfg.machines, k, f.token) == ConnectGrant(s.cfg.machines, k, f.token)
      ensures ManageGrant(After(s, r).cfg.machines, k, f.token) == ManageGrant(s.cfg.machines, k, f.token)
    {
      ScrubMachinesFinds(s.cfg.machines, Found(s, r.op).token, k, f.token);
    }
    DecisionsDetermined(s.cfg, After(s, r).cfg, f, m);
    StoreKnows(s.cfg, f);
    StoreKnows(After(s, r).cfg, f);
  }

  /** A revoked identity keeps its entry and grants but is denied everything. */
  lemma RevocationDenies(s: HubState, r: Request, now: Time, m: string)
    requires WellFormed(s.cfg) && r.op.Revoke? && Step(s, r.now, r.op).1.Done?
    ensures
      var t, st' := Found(s, r.op).token, StoreOf(After(s, r).cfg);
      && After(s, r).cfg.machines == s.cfg.machines
      && !CanConnect(st', now, t, m) && !CanManage(st', now, t, m) && !CanRegister(st', now, t, m)
      && !CanView(st', now, t, m) && !IsOwnerOrAdmin(st', now, t)
  {
    StepKeepsWellFormed(s, r);
    var i := IndexWith(s.cfg.tokens, EntryId, r.op.id);
    var e' := After(s, r).cfg.tokens[i];
    assert e' in After(s, r).cfg.tokens;
    StoreKnows(After(s, r).cfg, e');
  }
}
