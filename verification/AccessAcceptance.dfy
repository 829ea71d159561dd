/**
 * Exactly when each access request succeeds, and how it is answered otherwise,
 * in terms of the entries, the counters and the request.
 */
module AccessAcceptance {
  import opened Common
  import opened KeyedSeq
  import opened AccessVersion
  import opened AccessModel
  import opened AccessSteps
  import opened AccessExact
  import opened OwnerSafety
  import AccessHistory

  ghost predicate Known(s: HubState, id: string) {
    exists e :: e in s.cfg.tokens && e.id == id
  }

  /** No If-Match, or one that equals the stored counter, 1 when there is none. */
  predicate Matches(s: HubState, op: Op)
    requires !op.Add? && !op.Get? && !op.List?
  {
    || op.ifMatch.None?
    || op.ifMatch.value == if op.id in s.versions && s.versions[op.id] != 0 then s.versions[op.id] else 1
  }

  /** Two different identities are unrevoked owners. */
  ghost predicate TwoLiveOwners(cfg: Config) {
    exists e, f :: e in cfg.tokens && f in cfg.tokens && e != f
                   && e.role == "owner" && e.revokedAt.None? && f.role == "owner" && f.revokedAt.None?
  }

  /** Two different identities are owners, revoked or not. */
  ghost predicate TwoOwners(cfg: Config) {
    exists e, f :: e in cfg.tokens && f in cfg.tokens && e != f && e.role == "owner" && f.role == "owner"
  }

  lemma KnownMeansFound(s: HubState, id: string)
    requires WellFormed(s.cfg)
    ensures Known(s, id) <==> Has(s.cfg.tokens, EntryId, id)
    ensures Has(s.cfg.tokens, EntryId, id) ==>
              var e := s.cfg.tokens[IndexWith(s.cfg.tokens, EntryId, id)];
              e in s.cfg.tokens && e.id == id && forall f :: f in s.cfg.tokens && f.id == id ==> f == e
  {
    var t := s.cfg.tokens;
    if Has(t, EntryId, id) {
      var i := IndexWith(t, EntryId, id);
      assert t[i] in t && EntryId(t[i]) == id;
      forall f | f in t && f.id == id ensures f == t[i] {
        var j :| 0 <= j < |t| && t[j] == f;
        assert EntryId(t[j]) == EntryId(t[i]);
      }
    }
    if e :| e in t && e.id == id {
      var j :| 0 <= j < |t| && t[j] == e;
      assert EntryId(t[j]) == id;
    }
  }

  /** A count of at least two is two different elements, where no element occurs twice. */
  lemma {:induction false} CountTwo<T>(s: seq<T>, p: T -> bool)
    requires forall i, j :: 0 <= i < j < |s| ==> s[i] != s[j]
    ensures Count(s, p) >= 2 <==> exists x, y :: x in s && y in s && x != y && p(x) && p(y)
  {
    if s == [] {
    } else {
      var tail := s[1..];
      assert forall x :: x in s <==> x == s[0] || x in tail;
      assert s[0] !in tail;
      CountTwo(tail, p);
      CountPositive(tail, p);
      if p(s[0]) && Count(tail, p) > 0 {
        var i :| 0 <= i < |tail| && p(tail[i]);
        assert tail[i] in s && tail[i] != s[0];
      }
      if x, y :| x in s && y in s && x != y && p(x) && p(y) {
        if x != s[0] && y != s[0] {
          assert x in tail && y in tail;
        } else {
          var z := if x == s[0] then y else x;
          var i :| 0 <= i < |tail| && tail[i] == z;
          assert p(tail[i]);
        }
      }
    }
  }

  lemma EntriesDiffer(cfg: Config)
    requires WellFormed(cfg)
    ensures forall i, j :: 0 <= i < j < |cfg.tokens| ==> cfg.tokens[i] != cfg.tokens[j]
  {
    forall i, j | 0 <= i < j < |cfg.tokens| ensures cfg.tokens[i] != cfg.tokens[j] {
      assert EntryId(cfg.tokens[i]) != EntryId(cfg.tokens[j]);
    }
  }

  lemma LiveOwnersCounted(cfg: Config)
    requires WellFormed(cfg)
    ensures Count(cfg.tokens, IsLiveOwner) >= 2 <==> TwoLiveOwners(cfg)
  {
    EntriesDiffer(cfg);
    CountTwo(cfg.tokens, IsLiveOwner);
    if TwoLiveOwners(cfg) {
      var e, f :| e in cfg.tokens && f in cfg.tokens && e != f
                  && e.role == "owner" && e.revokedAt.None? && f.role == "owner" && f.revokedAt.None?;
      assert IsLiveOwner(e) && IsLiveOwner(f);
    }
  }

  lemma OwnersCounted(cfg: Config)
    requires WellFormed(cfg)
    ensures Count(cfg.tokens, IsOwner) >= 2 <==> TwoOwners(cfg)
  {
    EntriesDiffer(cfg);
    CountTwo(cfg.tokens, IsOwner);
    if TwoOwners(cfg) {
      var e, f :| e in cfg.tokens && f in cfg.tokens && e != f && e.role == "owner" && f.role == "owner";
      assert IsOwner(e) && IsOwner(f);
    }
  }

  /** Revoke: done for an unrevoked entry whose version matches and that is not the last unrevoked owner. */
  lemma RevokeAnswersExactly(s: HubState, r: Request)
    requires WellFormed(s.cfg) && r.op.Revoke?
    ensures
      var reply := Step(s, r.now, r.op).1;
      && (reply.Done? <==>
            exists e :: e in s.cfg.tokens && e.id == r.op.id && e.revokedAt.None? && Matches(s, r.op)
                        && (e.role != "owner" || TwoLiveOwners(s.cfg)))
      && (reply.AlreadyRevoked? <==>
            exists e :: e in s.cfg.tokens && e.id == r.op.id && e.revokedAt.Some? && Matches(s, r.op)
                        && (e.role != "owner" || TwoLiveOwners(s.cfg)))
      && (reply.Stale? <==>
            exists e :: e in s.cfg.tokens && e.id == r.op.id && !Matches(s, r.op)
                        && (e.role != "owner" || TwoLiveOwners(s.cfg)))
      && (reply.Refused? <==>
            exists e :: e in s.cfg.tokens && e.id == r.op.id && e.role == "owner" && !TwoLiveOwners(s.cfg))
      && (reply.NotFound? <==> !Known(s, r.op.id))
  {
    KnownMeansFound(s, r.op.id);
    LiveOwnersCounted(s.cfg);
  }

  /** Delete: done for an entry whose version matches, unless it is an owner and at most one owner is unrevoked. */
  lemma DeleteAnswersExactly(s: HubState, r: Request)
    requires WellFormed(s.cfg) && r.op.Delete?
    ensures
      var reply := Step(s, r.now, r.op).1;
      && (reply.Removed? <==>
            exists e :: e in s.cfg.tokens && e.id == r.op.id && Matches(s, r.op)
                        && (e.role != "owner" || TwoLiveOwners(s.cfg)))
      && (reply.Stale? <==>
            exists e :: e in s.cfg.tokens && e.id == r.op.id && !Matches(s, r.op)
                        && (e.role != "owner" || TwoLiveOwners(s.cfg)))
      && (reply.Refused? <==>
            exists e :: e in s.cfg.tokens && e.id == r.op.id && e.role == "owner" && !TwoLiveOwners(s.cfg))
      && (reply.NotFound? <==> !Known(s, r.op.id))
  {
    KnownMeansFound(s, r.op.id);
    LiveOwnersCounted(s.cfg);
  }

  /** Add: done for a free ID, a role that may be given, a readable expiry and a minted token. */
  lemma AddAnswersExactly(s: HubState, r: Request)
    requires WellFormed(s.cfg) && r.op.Add?
    ensures
      var reply, wellPut := Step(s, r.now, r.op).1, r.op.id != "" && r.op.role in ["", "owner", "admin"];
      && (reply.Done? <==> wellPut && !Known(s, r.op.id) && r.op.minted.Some? && !r.op.expiry.BadExpiry?)
      && (reply.Refused? <==> wellPut && Known(s, r.op.id))
      && (reply.ServerError? <==> wellPut && !Known(s, r.op.id) && r.op.minted.None?)
      && (reply.BadRequest? <==>
            !wellPut || (!Known(s, r.op.id) && r.op.minted.Some? && r.op.expiry.BadExpiry?))
  {
    KnownMeansFound(s, r.op.id);
  }

  /** Rotate: done for a known ID whose version matches, when a token could be minted. */
  lemma RotateAnswersExactly(s: HubState, r: Request)
    requires WellFormed(s.cfg) && r.op.Rotate?
    ensures
      var reply := Step(s, r.now, r.op).1;
      && (reply.Done? <==> Known(s, r.op.id) && Matches(s, r.op) && r.op.minted.Some?)
      && (reply.ServerError? <==> Known(s, r.op.id) && Matches(s, r.op) && r.op.minted.None?)
      && (reply.Stale? <==> Known(s, r.op.id) && !Matches(s, r.op))
      && (reply.NotFound? <==> !Known(s, r.op.id))
  {
    KnownMeansFound(s, r.op.id);
  }

  /** What a PATCH asks for is admissible in itself. */
  predicate WellPut(op: Op)
    requires op.Patch?
  {
    && (op.newId.Some? || op.newRole.Some?)
    && (op.newId.Some? ==> op.newId.value != "")
    && (op.newRole.Some? ==> op.newRole.value in ["", "owner", "admin", "viewer"])
  }

  /** The ID it asks for is the identity's own or free. */
  ghost predicate IdFree(s: HubState, op: Op)
    requires op.Patch?
  {
    op.newId.Some? && op.newId.value != op.id ==> !Known(s, op.newId.value)
  }

  /** It takes the role of the only owner away, counting revoked ones. */
  ghost predicate TakesSoleOwner(s: HubState, op: Op)
    requires op.Patch?
  {
    && op.newRole.Some? && op.newRole.value != "owner"
    && (exists e :: e in s.cfg.tokens && e.id == op.id && e.role == "owner")
    && !TwoOwners(s.cfg)
  }

  /** What the sole-owner guard of a PATCH counts is unaffected by the rename before it. */
  lemma GuardMeansSoleOwner(s: HubState, op: Op, i: nat)
    requires WellFormed(s.cfg) && op.Patch? && i < |s.cfg.tokens| && s.cfg.tokens[i].id == op.id
    ensures
      var e1 := if PatchRenames(op) then s.cfg.tokens[i].(id := op.newId.value) else s.cfg.tokens[i];
      SoleOwnerGuard(s.cfg.tokens[i := e1], e1, op.newRole) <==> TakesSoleOwner(s, op)
  {
    var t := s.cfg.tokens;
    var e1 := if PatchRenames(op) then t[i].(id := op.newId.value) else t[i];
    OwnersCounted(s.cfg);
    CountUpdate(t, i, e1, IsOwner);
    assert t[i] in t;
    forall e | e in t && e.id == op.id ensures e == t[i] {
      var j :| 0 <= j < |t| && t[j] == e;
      assert EntryId(t[j]) == EntryId(t[i]);
    }
  }

  /** A PATCH past its checks. */
  lemma FoundAnswersExactly(s: HubState, i: nat, op: Op)
    requires WellFormed(s.cfg) && op.Patch? && i < |s.cfg.tokens| && s.cfg.tokens[i].id == op.id
    ensures
      var reply := PatchFound(s, i, op).1;
      && (reply.Done? <==> IdFree(s, op) && !TakesSoleOwner(s, op))
      && (reply.Refused? <==> !IdFree(s, op) || TakesSoleOwner(s, op))
  {
    GuardMeansSoleOwner(s, op, i);
    if PatchRenames(op) {
      KnownMeansFound(s, op.newId.value);
    }
  }

  /** Patch: done for a known ID whose version matches, unless the new ID is taken or the role is the sole owner's. */
  lemma PatchAnswersExactly(s: HubState, r: Request)
    requires WellFormed(s.cfg) && r.op.Patch?
    ensures
      var reply := Step(s, r.now, r.op).1;
      var checked := WellPut(r.op) && Known(s, r.op.id) && Matches(s, r.op);
      && (reply.Done? <==> checked && IdFree(s, r.op) && !TakesSoleOwner(s, r.op))
      && (reply.Refused? <==> checked && (!IdFree(s, r.op) || TakesSoleOwner(s, r.op)))
      && (reply.Stale? <==> WellPut(r.op) && Known(s, r.op.id) && !Matches(s, r.op))
      && (reply.NotFound? <==> WellPut(r.op) && !Known(s, r.op.id))
      && (reply.BadRequest? <==> !WellPut(r.op))
  {
    KnownMeansFound(s, r.op.id);
    if WellPut(r.op) && Known(s, r.op.id) {
      var i := IndexWith(s.cfg.tokens, EntryId, r.op.id);
      FoundAnswersExactly(s.(versions := Checked(s.versions, r.op.id, r.op.ifMatch)), i, r.op);
    }
  }

  /** A PATCH refused half way leaves the entry renamed, its role and everything else as it was. */
  lemma HalfAppliedIsARename(s: HubState, r: Request)
    requires WellFormed(s.cfg) && r.op.Patch? && HalfApplied(s, r.op)
    ensures Step(s, r.now, r.op).1.Refused?
    ensures
      var e := Found(s, r.op);
      && After(s, r).cfg.machines == s.cfg.machines
      && |After(s, r).cfg.tokens| == |s.cfg.tokens|
      && forall k :: 0 <= k < |s.cfg.tokens| ==>
           After(s, r).cfg.tokens[k] ==
           if s.cfg.tokens[k].id == r.op.id then e.(id := r.op.newId.value) else s.cfg.tokens[k]
    ensures forall id :: Version(After(s, r).versions, id) == Version(s.versions, id)
  {
    var t, i := s.cfg.tokens, IndexWith(s.cfg.tokens, EntryId, r.op.id);
    CountUpdate(t, i, t[i].(id := r.op.newId.value), IsOwner);
    assert forall k :: 0 <= k < |t| && k != i ==> EntryId(t[k]) != EntryId(t[i]);
  }

  /** A row request is done for a known ID whose version matches; revoking a row also needs the machine's ACL. */
  lemma RowAnswersExactly(s: HubState, r: Request)
    requires WellFormed(s.cfg) && IsRowOp(r.op)
    ensures
      var reply, there := Step(s, r.now, r.op).1, r.op.SetMachine? || r.op.machine in s.cfg.machines;
      && (reply.Done? <==> Known(s, r.op.id) && Matches(s, r.op) && there)
      && (reply.Stale? <==> Known(s, r.op.id) && !Matches(s, r.op))
      && (reply.NotFound? <==> !Known(s, r.op.id) || (Matches(s, r.op) && !there))
  {
    KnownMeansFound(s, r.op.id);
  }

  /** An accepted revocation stamps the addressed entry, and changes no other entry and no ACL. */
  lemma RevokeIsExact(s: HubState, r: Request)
    requires WellFormed(s.cfg) && r.op.Revoke? && Step(s, r.now, r.op).1.Done?
    ensures Has(s.cfg.tokens, EntryId, r.op.id)
    ensures After(s, r).cfg.machines == s.cfg.machines && |After(s, r).cfg.tokens| == |s.cfg.tokens|
    ensures forall k :: 0 <= k < |s.cfg.tokens| ==>
              After(s, r).cfg.tokens[k] ==
              if s.cfg.tokens[k].id == r.op.id then s.cfg.tokens[k].(revokedAt := Some(r.now)) else s.cfg.tokens[k]
  {
    var t, i := s.cfg.tokens, IndexWith(s.cfg.tokens, EntryId, r.op.id);
    assert forall k :: 0 <= k < |t| && k != i ==> EntryId(t[k]) != EntryId(t[i]);
  }

  /** Reads are always answered when there is something to read, and change no configuration and no version. */
  lemma ReadsAreReads(s: HubState, r: Request)
    requires WellFormed(s.cfg) && (r.op.Get? || r.op.List?)
    ensures
      var reply := Step(s, r.now, r.op).1;
      && (r.op.List? ==> reply.Listed?)
      && (r.op.Get? ==> if Known(s, r.op.id) then reply == Done(Version(s.versions, r.op.id)) else reply.NotFound?)
      && After(s, r).cfg == s.cfg
      && forall id :: Version(After(s, r).versions, id) == Version(s.versions, id)
  {
    if r.op.Get? {
      KnownMeansFound(s, r.op.id);
    } else {
      forall id ensures Version(EnsuredAll(s.versions, s.cfg.tokens), id) == Version(s.versions, id) {
        AccessHistory.EnsuredAllIsInvisible(s.versions, s.cfg.tokens, id);
      }
    }
  }
}
