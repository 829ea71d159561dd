/**
 * What every access request keeps: unique IDs and tokens, and at least one
 * owner. Also which refusals leave the configuration alone.
 */
module OwnerSafety {
  import opened Common
  import opened KeyedSeq
  import opened AccessVersion
  import opened AccessModel
  import opened AccessSteps

  /** The identity a request addresses, "" for a listing. */
  function Target(op: Op): string {
    if op.List? then "" else op.id
  }

  /** How a PATCH changes the token list: one entry, whose token it keeps, under an ID that is its own or free. */
  lemma PatchShape(s: HubState, r: Request)
    requires r.op.Patch?
    ensures
      var t, t' := s.cfg.tokens, After(s, r).cfg.tokens;
      var i := IndexWith(t, EntryId, r.op.id);
      || t' == t
      || (i >= 0 && t' == t[i := t'[i]] && t'[i].token == t[i].token
          && (t'[i].id == t[i].id || !Has(t, EntryId, t'[i].id)))
  {
    var i := IndexWith(s.cfg.tokens, EntryId, r.op.id);
    if i >= 0 {
      PatchTokensShape(s.cfg.tokens, i, r.op);
    }
  }

  lemma PatchTokensShape(t: seq<TokenEntry>, i: nat, op: Op)
    requires op.Patch? && i < |t|
    ensures
      var t' := PatchTokens(t, i, op).0;
      && |t'| == |t| && t' == t[i := t'[i]] && t'[i].token == t[i].token
      && t'[i].id == if PatchRenames(op) then op.newId.value else t[i].id
  {
  }

  /** How a step changes the token list: nothing, an append, a replacement, or a removal. */
  lemma StepShapes(s: HubState, r: Request)
    ensures
      var t, t', op := s.cfg.tokens, After(s, r).cfg.tokens, r.op;
      var i := IndexWith(t, EntryId, Target(op));
      || t' == t
      || (op.Add? && !Has(t, EntryId, op.id) && op.minted.Some?
          && exists e :: t' == t + [e] && e.id == op.id && e.token == op.minted.value)
      || (op.Rotate? && i >= 0 && op.minted.Some? && t' == t[i := t'[i]]
          && t'[i].id == t[i].id && t'[i].token == op.minted.value)
      || (op.Revoke? && i >= 0 && t' == t[i := t'[i]] && t'[i].id == t[i].id && t'[i].token == t[i].token)
      || (op.Patch? && i >= 0 && t' == t[i := t'[i]] && t'[i].token == t[i].token
          && (t'[i].id == t[i].id || !Has(t, EntryId, t'[i].id)))
      || (op.Delete? && i >= 0 && !LastLiveOwnerGuard(t, t[i]) && t' == Without(t, EntryId, op.id))
  {
    var t, t', op := s.cfg.tokens, After(s, r).cfg.tokens, r.op;
    if op.Patch? {
      PatchShape(s, r);
    } else if op.Add? && t' != t {
      var e := t'[|t|];
      assert t' == t + [e] && e.id == op.id;
    }
  }

  lemma StepKeepsWellFormed(s: HubState, r: Request)
    requires WellFormed(s.cfg) && FreshFor(s, r.op)
    ensures WellFormed(After(s, r).cfg)
  {
    var t, t' := s.cfg.tokens, After(s, r).cfg.tokens;
    var i := IndexWith(t, EntryId, Target(r.op));
    StepShapes(s, r);
    if t' == t {
    } else if r.op.Add? {
      assert t[..] == t;
    } else if r.op.Delete? {
      WithoutDistinct(t, EntryId, r.op.id, EntryId);
      WithoutDistinct(t, EntryId, r.op.id, EntryToken);
      forall e | e in t' ensures e in t {
        WithoutMember(t, EntryId, r.op.id, e);
      }
    } else {
      ReplacementKeepsDistinct(t, i, t'[i], EntryId);
      ReplacementKeepsDistinct(t, i, t'[i], EntryToken);
    }
  }

  lemma ReplacementKeepsDistinct(t: seq<TokenEntry>, i: nat, e: TokenEntry, key: TokenEntry -> string)
    requires i < |t| && Distinct(t, key)
    requires key(e) == key(t[i]) || forall j :: 0 <= j < |t| ==> key(t[j]) != key(e)
    ensures Distinct(t[i := e], key)
  {
  }

  /** Every reachable configuration has unique IDs and unique non-empty tokens. */
  lemma {:induction false} RunKeepsWellFormed(s: HubState, rs: seq<Request>)
    requires WellFormed(s.cfg) && Legal(s, rs)
    ensures WellFormed(Run(s, rs).cfg)
    decreases |rs|
  {
    if rs == [] {
    } else {
      StepKeepsWellFormed(s, rs[0]);
      RunKeepsWellFormed(After(s, rs[0]), rs[1..]);
    }
  }

  /** A PATCH that takes the owner role away. */
  predicate Demotes(s: HubState, op: Op) {
    var i := IndexWith(s.cfg.tokens, EntryId, Target(op));
    op.Patch? && i >= 0 && s.cfg.tokens[i].role == "owner" && op.newRole.Some? && op.newRole.value != "owner"
  }

  lemma LiveOwnersAreOwners(tokens: seq<TokenEntry>)
    ensures Count(tokens, IsLiveOwner) <= Count(tokens, IsOwner)
  {
  }

  /** A PATCH replaces an owner by an owner, or leaves another. */
  lemma PatchedOwner(s: HubState, r: Request)
    requires r.op.Patch?
    ensures
      var t, t' := s.cfg.tokens, After(s, r).cfg.tokens;
      var i := IndexWith(t, EntryId, r.op.id);
      t' != t ==>
        && i >= 0 && t' == t[i := t'[i]]
        && (IsOwner(t[i]) && !IsOwner(t'[i]) ==> Count(t, IsOwner) >= 2)
        && (IsLiveOwner(t[i]) && !IsLiveOwner(t'[i]) ==> Demotes(s, r.op))
  {
    PatchShape(s, r);
    var t := s.cfg.tokens;
    var i := IndexWith(t, EntryId, r.op.id);
    if i >= 0 {
      CountUpdate(t, i, if PatchRenames(r.op) then t[i].(id := r.op.newId.value) else t[i], IsOwner);
    }
  }

  /** A rotation keeps the role, and a revocation leaves another unrevoked owner. */
  lemma ReplacedOwner(s: HubState, r: Request)
    requires r.op.Rotate? || r.op.Revoke?
    ensures
      var t, t' := s.cfg.tokens, After(s, r).cfg.tokens;
      var i := IndexWith(t, EntryId, r.op.id);
      t' != t ==>
        && i >= 0 && t' == t[i := t'[i]] && (IsOwner(t[i]) <==> IsOwner(t'[i]))
        && (IsLiveOwner(t[i]) && !IsLiveOwner(t'[i]) ==> Count(t, IsLiveOwner) >= 2)
  {
  }

  lemma StepKeepsAnOwner(s: HubState, r: Request)
    requires WellFormed(s.cfg) && Count(s.cfg.tokens, IsOwner) >= 1
    ensures Count(After(s, r).cfg.tokens, IsOwner) >= 1
  {
    var t, t' := s.cfg.tokens, After(s, r).cfg.tokens;
    StepShapes(s, r);
    LiveOwnersAreOwners(t);
    if t' == t {
    } else if r.op.Add? {
      CountAppend(t, t'[|t|], IsOwner);
    } else if r.op.Delete? {
      CountWithout(t, EntryId, r.op.id, IsOwner);
    } else {
      if r.op.Patch? {
        PatchedOwner(s, r);
      } else {
        ReplacedOwner(s, r);
      }
      var i := IndexWith(t, EntryId, r.op.id);
      CountUpdate(t, i, t'[i], IsOwner);
    }
  }

  /** While no request demotes an owner, an unrevoked owner remains. */
  lemma StepKeepsALiveOwner(s: HubState, r: Request)
    requires WellFormed(s.cfg) && Count(s.cfg.tokens, IsLiveOwner) >= 1
    requires !Demotes(s, r.op)
    ensures Count(After(s, r).cfg.tokens, IsLiveOwner) >= 1
  {
    var t, t' := s.cfg.tokens, After(s, r).cfg.tokens;
    StepShapes(s, r);
    if t' == t {
    } else if r.op.Add? {
      CountAppend(t, t'[|t|], IsLiveOwner);
    } else if r.op.Delete? {
      CountWithout(t, EntryId, r.op.id, IsLiveOwner);
    } else {
      if r.op.Patch? {
        PatchedOwner(s, r);
      } else {
        ReplacedOwner(s, r);
      }
      var i := IndexWith(t, EntryId, r.op.id);
      CountUpdate(t, i, t'[i], IsLiveOwner);
    }
  }

  /** A demotion leaves an unrevoked owner unless it takes the last one while a revoked owner remains. */
  lemma DemotionExactly(s: HubState, r: Request)
    requires WellFormed(s.cfg) && Count(s.cfg.tokens, IsLiveOwner) >= 1
    requires Demotes(s, r.op) && Step(s, r.now, r.op).1.Done?
    ensures
      var e := s.cfg.tokens[IndexWith(s.cfg.tokens, EntryId, r.op.id)];
      Count(After(s, r).cfg.tokens, IsLiveOwner) >= 1
      <==> e.revokedAt.Some? || Count(s.cfg.tokens, IsLiveOwner) >= 2
  {
    var t, t' := s.cfg.tokens, After(s, r).cfg.tokens;
    var i := IndexWith(t, EntryId, r.op.id);
    CountUpdate(t, i, t'[i], IsLiveOwner);
  }

  ghost predicate NoDemotion(s: HubState, rs: seq<Request>)
    decreases |rs|
  {
    rs == [] || (!Demotes(s, rs[0].op) && NoDemotion(After(s, rs[0]), rs[1..]))
  }

  /** Starting with an owner, no run of requests removes the last one. */
  lemma {:induction false} OwnerSafety(s: HubState, rs: seq<Request>)
    requires WellFormed(s.cfg) && Legal(s, rs)
    requires Count(s.cfg.tokens, IsOwner) >= 1
    ensures WellFormed(Run(s, rs).cfg)
    ensures exists e :: e in Run(s, rs).cfg.tokens && e.role == "owner"
    decreases |rs|
  {
    if rs == [] {
      CountPositive(s.cfg.tokens, IsOwner);
    } else {
      StepKeepsWellFormed(s, rs[0]);
      StepKeepsAnOwner(s, rs[0]);
      OwnerSafety(After(s, rs[0]), rs[1..]);
    }
  }

  /** The token passes requireOwnerOrAdmin at every time. */
  ghost predicate AlwaysAdmitted(cfg: Config, token: string) {
    forall now :: IsOwnerOrAdmin(StoreOf(cfg), now, token)
  }

  /**
   * Without demotions an unrevoked owner remains; when owner tokens carry no
   * expiry the admin API therefore still accepts someone.
   */
  lemma {:induction false} LiveOwnerSafety(s: HubState, rs: seq<Request>)
    requires WellFormed(s.cfg) && Legal(s, rs) && NoDemotion(s, rs)
    requires Count(s.cfg.tokens, IsLiveOwner) >= 1
    ensures exists e :: e in Run(s, rs).cfg.tokens && e.role == "owner" && e.revokedAt.None?
    ensures (forall e :: e in Run(s, rs).cfg.tokens && e.role == "owner" ==> e.expiresAt.None?)
              ==> exists token :: AlwaysAdmitted(Run(s, rs).cfg, token)
    decreases |rs|
  {
    if rs == [] {
      CountPositive(s.cfg.tokens, IsLiveOwner);
      var i :| 0 <= i < |s.cfg.tokens| && IsLiveOwner(s.cfg.tokens[i]);
      var e := s.cfg.tokens[i];
      assert e in s.cfg.tokens && e.role == "owner" && e.revokedAt.None?;
      StoreKnows(s.cfg, e);
      if e.expiresAt.None? {
        assert AlwaysAdmitted(s.cfg, e.token);
      }
    } else {
      StepKeepsWellFormed(s, rs[0]);
      StepKeepsALiveOwner(s, rs[0]);
      LiveOwnerSafety(After(s, rs[0]), rs[1..]);
    }
  }

  /** The exception is reachable: of a live and a revoked owner, the live one can be demoted. */
  lemma LastLiveOwnerCanBeDemoted()
    ensures exists s: HubState, r: Request ::
              && WellFormed(s.cfg) && Count(s.cfg.tokens, IsLiveOwner) == 1
              && Step(s, r.now, r.op).1.Done? && Count(After(s, r).cfg.tokens, IsLiveOwner) == 0
  {
    var live := TokenEntry("a", "ta", "owner", None, None, None);
    var dead := TokenEntry("b", "tb", "owner", None, None, Some(0));
    var s := HubState(Config([live, dead], map[]), map[]);
    var r := Request(0, Patch("a", None, None, Some("admin")));
    assert IndexWith(s.cfg.tokens, EntryId, "a") == 0;
    CountPair(live, dead, IsOwner);
    CountPair(live, dead, IsLiveOwner);
    var demoted := live.(role := "admin");
    CountPair(demoted, dead, IsLiveOwner);
    assert IsOwner(live) && IsOwner(dead) && IsLiveOwner(live) && !IsLiveOwner(dead) && !IsLiveOwner(demoted);
    assert s.cfg.tokens[0 := live] == [live, dead];
    assert After(s, r).cfg.tokens == [demoted, dead];
  }

  predicate Succeeded(reply: Reply) {
    reply.Done? || reply.Removed? || reply.AlreadyRevoked? || reply.Listed?
  }

  /** A PATCH whose rename lands before its role is refused. */
  predicate HalfApplied(s: HubState, op: Op) {
    && op.Patch? && !PatchIsMalformed(op) && PatchRenames(op)
    && Has(s.cfg.tokens, EntryId, op.id) && !Has(s.cfg.tokens, EntryId, op.newId.value)
    && !StaleMatch(s.versions, op.id, op.ifMatch)
    && Demotes(s, op) && Count(s.cfg.tokens, IsOwner) <= 1
  }

  /** A request that is not accepted leaves the configuration alone, except exactly in that case. */
  lemma RefusalsAreAtomicExactly(s: HubState, r: Request)
    requires !Succeeded(Step(s, r.now, r.op).1)
    ensures After(s, r).cfg == s.cfg <==> !HalfApplied(s, r.op)
  {
    var op := r.op;
    if op.Patch? {
      var t := s.cfg.tokens;
      var i := IndexWith(t, EntryId, op.id);
      if i >= 0 {
        assert t[i := t[i]] == t;
        if PatchRenames(op) {
          CountUpdate(t, i, t[i].(id := op.newId.value), IsOwner);
        }
      }
    }
  }

  /** That case is reachable: renaming the sole owner together with its demotion. */
  lemma RefusalCanRename()
    ensures exists s: HubState, r: Request ::
              && WellFormed(s.cfg) && Step(s, r.now, r.op).1 == Refused
              && HalfApplied(s, r.op) && After(s, r).cfg != s.cfg
  {
    var owner := TokenEntry("a", "ta", "owner", None, None, None);
    var s := HubState(Config([owner], map[]), map[]);
    var r := Request(0, Patch("a", None, Some("b"), Some("admin")));
    var renamed := owner.(id := "b");
    assert IsOwner(owner) && IsOwner(renamed);
    CountAppend([], owner, IsOwner);
    CountAppend([], renamed, IsOwner);
    assert [] + [owner] == [owner] && [] + [renamed] == [renamed];
    assert s.cfg.tokens[0 := renamed] == [renamed];
    assert After(s, r).cfg.tokens == [renamed];
    assert HalfApplied(s, r.op);
  }
}
