/**
 * The hub's mutable access state and its handlers, as they run under
 * globalCfgMu: in-place loops over the token list and the ACL map, each proved
 * equal to the transition of AccessSteps, with the runtime store always equal
 * to the one a reload would build.
 */
module Hub {
  import opened Common
  import opened KeyedSeq
  import opened AccessVersion
  import opened AccessModel
  import opened AccessSteps
  import opened AccessView

  /** replaceConnectGrantToken: rewrites matching grants in the backing array. */
  method ReplaceInPlace(a: array<Grant>, oldToken: string, minted: string) returns (changed: bool)
    modifies a
    ensures a[..] == Retoken(old(a[..]), oldToken, minted)
    ensures changed <==> exists g :: g in old(a[..]) && g.token == oldToken
  {
    changed := false;
    ghost var before := a[..];
    for i := 0 to a.Length
      invariant a[..i] == Retoken(before[..i], oldToken, minted)
      invariant a[i..] == before[i..]
      invariant changed <==> exists g :: g in before[..i] && g.token == oldToken
    {
      assert before[..i + 1] == before[..i] + [before[i]];
      assert a[i] == before[i];
      RetokenSnoc(before[..i], before[i], oldToken, minted);
      if a[i].token == oldToken {
        a[i] := a[i].(token := minted);
        changed := true;
      }
      assert a[i + 1..] == before[i + 1..];
    }
    assert before[..a.Length] == before;
  }

  lemma {:induction false} RetokenSnoc(s: seq<Grant>, g: Grant, oldToken: string, minted: string)
    ensures Retoken(s + [g], oldToken, minted) ==
            Retoken(s, oldToken, minted) + [if g.token == oldToken then g.(token := minted) else g]
  {
    if s == [] {
      assert (s + [g])[1..] == [];
    } else {
      assert (s + [g])[1..] == s[1..] + [g];
      RetokenSnoc(s[1..], g, oldToken, minted);
    }
  }

  lemma {:induction false} RetokenAbsent(s: seq<Grant>, oldToken: string, minted: string)
    requires forall g :: g in s ==> g.token != oldToken
    ensures Retoken(s, oldToken, minted) == s
  {
    if s == [] {
    } else {
      RetokenAbsent(s[1..], oldToken, minted);
    }
  }

  lemma {:induction false} CountSnoc<T>(s: seq<T>, i: nat, p: T -> bool)
    requires i < |s|
    ensures Count(s[..i + 1], p) == Count(s[..i], p) + (if p(s[i]) then 1 else 0)
  {
    assert s[..i + 1] == s[..i] + [s[i]];
    CountAppend(s[..i], s[i], p);
  }

  /** findConnectGrant, and inTokenList with the identity key. */
  method Search<T>(list: seq<T>, key: T -> string, target: string) returns (found: Option<T>)
    ensures found == FirstWith(list, key, target)
  {
    var i := 0;
    while i < |list|
      invariant 0 <= i <= |list|
      invariant FirstWith(list, key, target) == FirstWith(list[i..], key, target)
    {
      if key(list[i]) == target {
        return Some(list[i]);
      }
      assert list[i..][1..] == list[i + 1..];
      i := i + 1;
    }
    found := None;
  }

  /** Removes a token from one ACL, compacting its two lists in place. */
  method Scrub(acl: ACL, token: string) returns (r: ACL)
    ensures r == ScrubAcl(acl, token)
  {
    var grants := new Grant[|acl.connect|](i requires 0 <= i < |acl.connect| => acl.connect[i]);
    var manage := new string[|acl.manage|](i requires 0 <= i < |acl.manage| => acl.manage[i]);
    assert grants[..] == acl.connect && manage[..] == acl.manage;
    assert grants[..grants.Length] == acl.connect && manage[..manage.Length] == acl.manage;
    var g := CompactInPlace(grants, grants.Length, GrantToken, token);
    var m := CompactInPlace(manage, manage.Length, Itself, token);
    r := ACL(if acl.registerToken == token then "" else acl.registerToken, grants[..g], manage[..m]);
  }

  /** The pointers a reload leaves: the last position of each non-empty token. */
  function Pointers(t: seq<TokenEntry>): map<string, nat> {
    if t == [] then map[]
    else
      var n := |t| - 1;
      if t[n].token != "" then Pointers(t[..n])[t[n].token := n] else Pointers(t[..n])
  }

  lemma {:induction false} PointersInRange(t: seq<TokenEntry>)
    ensures forall k :: k in Pointers(t) ==> Pointers(t)[k] < |t|
  {
    if t == [] {
    } else {
      PointersInRange(t[..|t| - 1]);
    }
  }

  lemma {:induction false} PointersLead(t: seq<TokenEntry>)
    requires forall k :: k in Pointers(t) ==> Pointers(t)[k] < |t|
    ensures (map k | k in Pointers(t) :: t[Pointers(t)[k]]) == ByToken(t)
  {
    if t == [] {
    } else {
      PointersInRange(t[..|t| - 1]);
      PointersLead(t[..|t| - 1]);
    }
  }

  lemma {:induction false} PointersStable(t: seq<TokenEntry>, i: nat, e: TokenEntry)
    requires i < |t| && e.token == t[i].token
    ensures Pointers(t[i := e]) == Pointers(t)
  {
    var n := |t| - 1;
    if i == n {
      assert t[i := e][..n] == t[..n];
    } else {
      assert t[i := e][..n] == t[..n][i := e];
      PointersStable(t[..n], i, e);
    }
  }

  // ---- inside a handler ----

  lemma {:induction false} WithoutConcat(s: seq<TokenEntry>, t: seq<TokenEntry>, id: string)
    ensures Without(s + t, EntryId, id) == Without(s, EntryId, id) + Without(t, EntryId, id)
  {
    if s == [] {
      assert s + t == t;
    } else {
      assert (s + t)[1..] == s[1..] + t;
      WithoutConcat(s[1..], t, id);
    }
  }

  lemma RemoveMiddle(left: seq<TokenEntry>, e: TokenEntry, right: seq<TokenEntry>)
    requires !Has(left, EntryId, e.id) && !Has(right, EntryId, e.id)
    ensures Without(left + [e] + right, EntryId, e.id) == left + right
  {
    WithoutConcat(left + [e], right, e.id);
    WithoutSnoc(left, e, EntryId, e.id);
    WithoutAbsent(left, EntryId, e.id);
    WithoutAbsent(right, EntryId, e.id);
  }

  lemma WithoutIsRemoval(t: seq<TokenEntry>, id: string)
    requires Distinct(t, EntryId) && Has(t, EntryId, id)
    ensures
      var i := IndexWith(t, EntryId, id);
      Without(t, EntryId, id) == t[..i] + t[i + 1..]
  {
    var i := IndexWith(t, EntryId, id);
    var left, right := t[..i], t[i + 1..];
    OthersHaveOtherIds(t, i);
    RemoveMiddle(left, t[i], right);
    assert t == left + [t[i]] + right;
  }

  lemma OthersHaveOtherIds(t: seq<TokenEntry>, i: nat)
    requires Distinct(t, EntryId) && i < |t|
    ensures !Has(t[..i], EntryId, t[i].id) && !Has(t[i + 1..], EntryId, t[i].id)
  {
    var right := t[i + 1..];
    assert forall j :: 0 <= j < |right| ==> right[j] == t[i + 1 + j] && EntryId(t[i]) != EntryId(t[i + 1 + j]);
  }

  lemma {:induction false} PointerOf(t: seq<TokenEntry>, j: nat)
    requires Distinct(t, EntryToken) && j < |t| && t[j].token != ""
    ensures t[j].token in Pointers(t) && Pointers(t)[t[j].token] == j
  {
    var n := |t| - 1;
    if j < n {
      PointerOf(t[..n], j);
      assert EntryToken(t[j]) != EntryToken(t[n]);
    }
  }

  /**
   * A reader between the compaction of a delete and the reload follows pointers
   * into the compacted array, whose tail is unchanged: the tokens before the
   * deleted one, and the last one, still lead to their own entries, and each of
   * the others to the entry after its own.
   */
  lemma StaleLookups(t: seq<TokenEntry>, backing: seq<TokenEntry>, kept: nat, id: string, j: nat)
    requires Distinct(t, EntryId) && Distinct(t, EntryToken) && Has(t, EntryId, id)
    requires kept <= |t| == |backing|
    requires backing[..kept] == Without(t, EntryId, id) && backing[kept..] == t[kept..]
    requires j < |t| && t[j].token != ""
    ensures t[j].token in Pointers(t) && Pointers(t)[t[j].token] < |backing|
    ensures backing[Pointers(t)[t[j].token]] ==
            if j < IndexWith(t, EntryId, id) || j == |t| - 1 then t[j] else t[j + 1]
  {
    var i := IndexWith(t, EntryId, id);
    WithoutIsRemoval(t, id);
    PointerOf(t, j);
    assert kept == |t| - 1;
    if j < kept {
      assert backing[j] == backing[..kept][j];
    } else {
      assert backing[j] == backing[kept..][0];
    }
  }

  /**
   * A reader between the edit of a rotation and the reload finds the edited entry
   * under the old token, its revocation cleared: whatever the old entry was, the
   * old token is valid until the expiry. The new token is not known yet, and
   * every other token leads to its own entry.
   */
  lemma StaleLookupsInRotation(t: seq<TokenEntry>, i: nat, minted: string, issued: Time, now: Time, j: nat)
    requires Distinct(t, EntryToken) && i < |t| && t[i].token != "" && j < |t| && t[j].token != ""
    requires forall e :: e in t ==> e.token != minted
    ensures t[j].token in Pointers(t) && Pointers(t)[t[j].token] < |t|
    ensures
      var t' := t[i := t[i].(token := minted, issuedAt := Some(issued), revokedAt := None)];
      var found := t'[Pointers(t)[t[j].token]];
      && (j != i ==> found == t[j])
      && (j == i ==> found == t'[i])
      && (j == i ==> (IsValid(found, now) <==> t[i].expiresAt.None? || now <= t[i].expiresAt.value))
    ensures minted !in Pointers(t)
  {
    PointerOf(t, j);
    PointersInRange(t);
    PointersAreTokens(t, minted);
  }

  lemma {:induction false} PointersAreTokens(t: seq<TokenEntry>, token: string)
    ensures token in Pointers(t) ==> exists e :: e in t && e.token == token
  {
    if t == [] {
    } else {
      PointersAreTokens(t[..|t| - 1], token);
    }
  }

  lemma SliceSnoc<T>(s: seq<T>, i: nat)
    requires i < |s|
    ensures s[..i + 1] == s[..i] + [s[i]]
  {
  }

  lemma EnsuredAllSnoc(m: Counters, t: seq<TokenEntry>, i: nat)
    requires i < |t|
    ensures EnsuredAll(m, t[..i + 1]) == Ensured(EnsuredAll(m, t[..i]), t[i].id)
  {
    assert t[..i + 1][..i] == t[..i];
  }

  /** One view per identity, in order. */
  function ViewsOf(cfg: Config, entries: seq<TokenEntry>): seq<AccessEntry> {
    seq(|entries|, i requires 0 <= i < |entries| => ViewOf(cfg, entries[i]))
  }

  lemma ViewsAt(cfg: Config, entries: seq<TokenEntry>, i: nat)
    requires i < |entries|
    ensures ViewsOf(cfg, entries)[i] == ViewOf(cfg, entries[i])
  {
  }

  class AccessHub {
    // globalCfg.Auth
    var tokens: seq<TokenEntry>
    var machines: map<string, ACL>
    // accessVersions
    const versions: AccessVersions
    // globalAuth; its entries point into the token list
    var enabled: bool
    var byToken: map<string, nat>
    var storeMachines: map<string, ACL>

    function Cfg(): Config
      reads this
    {
      Config(tokens, machines)
    }

    function State(): HubState
      reads this, versions
    {
      HubState(Cfg(), versions.counters)
    }

    /**
     * Between requests the store's pointers are those of a fresh reload. An entry
     * edited in place with its token kept is therefore seen without a reload.
     */
    ghost predicate Valid()
      reads this
    {
      && enabled == (tokens != [])
      && byToken == Pointers(tokens)
      && storeMachines == (if tokens == [] then map[] else machines)
    }

    /** The store as a reader sees it, through its pointers. */
    ghost function StoreView(): Store
      requires Valid()
      reads this
    {
      PointersInRange(tokens);
      Store(enabled, map t | t in byToken :: tokens[byToken[t]], storeMachines)
    }

    /** The store decides as a pure function of the configuration. */
    lemma StoreIsFunctionOfConfig()
      requires Valid()
      ensures StoreView() == StoreOf(Cfg())
    {
      PointersInRange(tokens);
      PointersLead(tokens);
    }

    constructor (tokens: seq<TokenEntry>, machines: map<string, ACL>)
      ensures Valid() && fresh(versions)
      ensures State() == HubState(Config(tokens, machines), map[])
    {
      this.tokens, this.machines := tokens, machines;
      versions := new AccessVersions();
      enabled, byToken, storeMachines := false, map[], map[];
      new;
      Reload();
    }

    /** authStore.reload. */
    method Reload()
      modifies this`enabled, this`byToken, this`storeMachines
      ensures Valid()
    {
      byToken := map[];
      storeMachines := map[];
      if |tokens| == 0 {
        assert tokens == [];
        enabled := false;
        return;
      }
      enabled := true;
      for i := 0 to |tokens|
        invariant enabled
        invariant byToken == Pointers(tokens[..i])
      {
        assert tokens[..i + 1][..i] == tokens[..i];
        if tokens[i].token != "" {
          byToken := byToken[tokens[i].token := i];
        }
      }
      assert tokens[..|tokens|] == tokens;
      storeMachines := machines;
    }

    /** findTokenEntryInCfg. */
    method Find(id: string) returns (i: int)
      ensures i == IndexWith(tokens, EntryId, id)
    {
      i := 0;
      while i < |tokens|
        invariant 0 <= i <= |tokens|
        invariant forall j :: 0 <= j < i ==> EntryId(tokens[j]) != id
      {
        if tokens[i].id == id {
          return;
        }
        i := i + 1;
      }
      i := -1;
    }

    method CountEntries(p: TokenEntry -> bool) returns (n: nat)
      ensures n == Count(tokens, p)
    {
      n := 0;
      for i := 0 to |tokens|
        invariant n == Count(tokens[..i], p)
      {
        CountSnoc(tokens, i, p);
        if p(tokens[i]) {
          n := n + 1;
        }
      }
      assert tokens[..|tokens|] == tokens;
    }

    /** The If-Match check; None means proceed. */
    method CheckIfMatch(id: string, ifMatch: Option<U64>) returns (conflict: Option<Reply>)
      modifies versions
      ensures versions.counters == Checked(old(versions.counters), id, ifMatch)
      ensures conflict == if StaleMatch(old(versions.counters), id, ifMatch)
                          then Some(Stale(Version(versions.counters, id))) else None
    {
      conflict := None;
      if ifMatch.Some? {
        var current := versions.Ensure(id);
        if ifMatch.value != current {
          conflict := Some(Stale(current));
        }
      }
    }

    /** adminAddToken. */
    method AddToken(now: Time, op: Op) returns (reply: Reply)
      requires Valid() && op.Add?
      modifies this, versions
      ensures Valid()
      ensures (State(), reply) == AddStep(old(State()), now, op)
    {
      if op.id == "" || op.role !in ["", "owner", "admin"] {
        return BadRequest;
      }
      var i := Find(op.id);
      if i >= 0 {
        return Refused;
      }
      if op.minted.None? {
        return ServerError;
      }
      if op.expiry.BadExpiry? {
        return BadRequest;
      }
      var expires := if op.expiry.At? then Some(op.expiry.time) else None;
      tokens := tokens + [TokenEntry(op.id, op.minted.value, op.role, Some(now), expires, None)];
      Reload();
      var v := versions.Ensure(op.id);
      reply := Done(v);
    }

    /** The cascade of handleAdminRotate, in whatever order the map yields its keys. */
    method CascadeToken(oldToken: string, minted: string)
      modifies this`machines
      ensures machines == RetokenMachines(old(machines), oldToken, minted)
    {
      ghost var before := machines;
      var todo := machines.Keys;
      while todo != {}
        invariant machines.Keys == before.Keys && todo <= before.Keys
        invariant forall m :: m in before ==>
                    machines[m] == if m in todo then before[m] else RetokenAcl(before[m], oldToken, minted)
        decreases todo
      {
        var name :| name in todo;
        var acl := machines[name];
        var changed := false;
        if acl.registerToken == oldToken {
          acl := acl.(registerToken := minted);
          changed := true;
        }
        var grants := new Grant[|acl.connect|](i requires 0 <= i < |acl.connect| => acl.connect[i]);
        assert grants[..] == acl.connect;
        var any := ReplaceInPlace(grants, oldToken, minted);
        if any {
          changed := true;
        } else {
          RetokenAbsent(acl.connect, oldToken, minted);
        }
        acl := acl.(connect := grants[..]);
        if changed {
          machines := machines[name := acl];
        }
        todo := todo - {name};
      }
    }

    /** handleAdminRotate. */
    method RotateToken(now: Time, op: Op) returns (reply: Reply)
      requires Valid() && op.Rotate?
      modifies this, versions
      ensures Valid()
      ensures (State(), reply) == RotateStep(old(State()), now, op)
    {
      var i := Find(op.id);
      if i < 0 {
        return NotFound;
      }
      var conflict := CheckIfMatch(op.id, op.ifMatch);
      if conflict.Some? {
        return conflict.value;
      }
      if op.minted.None? {
        return ServerError;
      }
      var entry := tokens[i];
      tokens := tokens[i := entry.(token := op.minted.value, issuedAt := Some(now), revokedAt := None)];
      CascadeToken(entry.token, op.minted.value);
      Reload();
      var v := versions.Bump(op.id);
      reply := Done(v);
    }

    /** adminRevokeToken. */
    method RevokeToken(now: Time, op: Op) returns (reply: Reply)
      requires Valid() && op.Revoke?
      modifies this, versions
      ensures Valid()
      ensures (State(), reply) == RevokeStep(old(State()), now, op)
    {
      var i := Find(op.id);
      if i < 0 {
        return NotFound;
      }
      if tokens[i].role == "owner" {
        var owners := CountEntries(IsLiveOwner);
        if owners <= 1 {
          return Refused;
        }
      }
      var conflict := CheckIfMatch(op.id, op.ifMatch);
      if conflict.Some? {
        return conflict.value;
      }
      if tokens[i].revokedAt.Some? {
        return AlreadyRevoked;
      }
      tokens := tokens[i := tokens[i].(revokedAt := Some(now))];
      Reload();
      var v := versions.Bump(op.id);
      reply := Done(v);
    }

    /** adminPatchAccess. The renamed entry stays renamed when the role is refused. */
    method PatchAccess(op: Op) returns (reply: Reply)
      requires Valid() && op.Patch?
      modifies this, versions
      ensures Valid()
      ensures (State(), reply) == PatchStep(old(State()), op)
    {
      if PatchIsMalformed(op) {
        return BadRequest;
      }
      var i := Find(op.id);
      if i < 0 {
        return NotFound;
      }
      var conflict := CheckIfMatch(op.id, op.ifMatch);
      if conflict.Some? {
        return conflict.value;
      }
      reply := PatchEntry(i, op);
    }

    method PatchEntry(i: nat, op: Op) returns (reply: Reply)
      requires Valid() && op.Patch? && i < |tokens|
      modifies this, versions
      ensures Valid()
      ensures (State(), reply) == PatchFound(old(State()), i, op)
    {
      if PatchRenames(op) {
        var j := Find(op.newId.value);
        if j >= 0 {
          return Refused;
        }
      }
      var refused := EditEntry(i, op);
      if refused {
        return Refused;
      }
      Reload();
      var v;
      if PatchRenames(op) {
        versions.Rename(op.id, op.newId.value);
        v := versions.Current(op.newId.value);
      } else {
        v := versions.Bump(op.id);
      }
      reply := Done(v);
    }

    /** The edit itself: the ID first, then the role unless that is refused. */
    method EditEntry(i: nat, op: Op) returns (refused: bool)
      requires op.Patch? && i < |tokens|
      modifies this`tokens
      ensures (tokens, refused) == PatchTokens(old(tokens), i, op)
      ensures Pointers(tokens) == Pointers(old(tokens))
    {
      ghost var before := tokens;
      if PatchRenames(op) {
        tokens := tokens[i := tokens[i].(id := op.newId.value)];
      }
      var e1 := tokens[i];
      assert tokens == before[i := e1];
      refused := ChangeRole(i, op.newRole);
      assert tokens == before[i := tokens[i]];
      PointersStable(before, i, tokens[i]);
    }

    method ChangeRole(i: nat, newRole: Option<string>) returns (refused: bool)
      requires i < |tokens|
      modifies this`tokens
      ensures refused == SoleOwnerGuard(old(tokens), old(tokens)[i], newRole)
      ensures refused ==> tokens == old(tokens)
      ensures !refused ==>
                tokens == old(tokens)[i := if newRole.Some? then old(tokens)[i].(role := newRole.value)
                                           else old(tokens)[i]]
    {
      if newRole.Some? && newRole.value != tokens[i].role {
        if tokens[i].role == "owner" && newRole.value != "owner" {
          var owners := CountEntries(IsOwner);
          if owners <= 1 {
            return true;
          }
        }
        tokens := tokens[i := tokens[i].(role := newRole.value)];
      }
      refused := false;
    }

    /** adminDeleteAccess. */
    method DeleteAccess(op: Op) returns (reply: Reply)
      requires Valid() && op.Delete?
      modifies this, versions
      ensures Valid()
      ensures (State(), reply) == DeleteStep(old(State()), op)
    {
      var i := Find(op.id);
      if i < 0 {
        return NotFound;
      }
      if tokens[i].role == "owner" {
        var owners := CountEntries(IsLiveOwner);
        if owners <= 1 {
          return Refused;
        }
      }
      var conflict := CheckIfMatch(op.id, op.ifMatch);
      if conflict.Some? {
        return conflict.value;
      }
      var token := tokens[i].token;
      RemoveEntry(op.id);
      ScrubEverywhere(token);
      Reload();
      versions.Delete(op.id);
      reply := Removed;
    }

    method RemoveEntry(id: string)
      modifies this`tokens
      ensures tokens == Without(old(tokens), EntryId, id)
    {
      var list := new TokenEntry[|tokens|](k requires 0 <= k < |tokens| reads this => tokens[k]);
      assert list[..list.Length] == tokens;
      var kept := CompactInPlace(list, list.Length, EntryId, id);
      tokens := list[..kept];
    }

    method ScrubEverywhere(token: string)
      modifies this`machines
      ensures machines == ScrubMachines(old(machines), token)
    {
      ghost var before := machines;
      var todo := machines.Keys;
      while todo != {}
        invariant machines.Keys == before.Keys && todo <= before.Keys
        invariant forall m :: m in before ==> machines[m] == if m in todo then before[m] else ScrubAcl(before[m], token)
        decreases todo
      {
        var name :| name in todo;
        var acl := Scrub(machines[name], token);
        machines := machines[name := acl];
        todo := todo - {name};
      }
    }

    /** adminSetMachineAccess. */
    method SetMachineAccess(op: Op) returns (reply: Reply)
      requires Valid() && op.SetMachine?
      modifies this, versions
      ensures Valid()
      ensures (State(), reply) == SetMachineStep(old(State()), op)
    {
      var i := Find(op.id);
      if i < 0 {
        return NotFound;
      }
      var conflict := CheckIfMatch(op.id, op.ifMatch);
      if conflict.Some? {
        return conflict.value;
      }
      var token := tokens[i].token;
      var acl := Scrub(AclAt(machines, op.machine), token);
      ghost var scrubbed := acl;
      for k := 0 to |op.permissions|
        invariant acl == GrantAll(scrubbed, op.permissions[..k], token, op.services)
      {
        assert op.permissions[..k + 1][..k] == op.permissions[..k];
        match op.permissions[k] {
          case "register" => acl := acl.(registerToken := token);
          case "connect" => acl := acl.(connect := acl.connect + [Grant(token, op.services)]);
          case "manage" => acl := acl.(manage := acl.manage + [token]);
          case _ =>
        }
      }
      assert op.permissions[..|op.permissions|] == op.permissions;
      machines := machines[op.machine := acl];
      Reload();
      var v := versions.Bump(op.id);
      reply := Done(v);
    }

    /** adminRevokeMachineAccess. */
    method RevokeMachineAccess(op: Op) returns (reply: Reply)
      requires Valid() && op.RevokeMachine?
      modifies this, versions
      ensures Valid()
      ensures (State(), reply) == RevokeMachineStep(old(State()), op)
    {
      var i := Find(op.id);
      if i < 0 {
        return NotFound;
      }
      var conflict := CheckIfMatch(op.id, op.ifMatch);
      if conflict.Some? {
        return conflict.value;
      }
      if op.machine !in machines {
        return NotFound;
      }
      var acl := Scrub(machines[op.machine], tokens[i].token);
      machines := machines[op.machine := acl];
      Reload();
      var v := versions.Bump(op.id);
      reply := Done(v);
    }

    /** buildAccessEntry: scans every ACL for the token, then the wildcard. */
    method BuildAccessEntry(e: TokenEntry) returns (view: AccessEntry, version: U64)
      modifies versions
      ensures view == ViewOf(old(Cfg()), e)
      ensures version == Version(old(versions.counters), e.id)
      ensures versions.counters == Ensured(old(versions.counters), e.id)
    {
      version := versions.Ensure(e.id);
      var role := if e.role == "" then "user" else e.role;
      if role == "owner" || role == "admin" {
        return AccessEntry(e.id, role, map["*" := Row(["register", "connect", "manage"], [])], [], []), version;
      }
      var rows := ScanRows(e.token);
      var inherited, services := ScanWildcard(e.token);
      view := AccessEntry(e.id, role, rows, inherited, services);
    }

    /** adminGetAccess: the view of one identity, and its version as the ETag. */
    method GetAccess(op: Op) returns (reply: Reply, view: Option<AccessEntry>)
      requires Valid() && op.Get?
      modifies versions
      ensures Valid()
      ensures (State(), reply) == GetStep(old(State()), op)
      ensures view == match FirstWith(tokens, EntryId, op.id)
                      case Some(e) => Some(ViewOf(Cfg(), e))
                      case None => None
    {
      var e := Search(tokens, EntryId, op.id);
      FirstWithIsMember(tokens, EntryId, op.id);
      if e.None? {
        return NotFound, None;
      }
      var entry, version := BuildAccessEntry(e.value);
      reply, view := Done(version), Some(entry);
    }

    /** adminListAccess. */
    method ListAccess() returns (views: seq<AccessEntry>)
      requires Valid()
      modifies versions
      ensures Valid()
      ensures (State(), Listed) == Step(old(State()), 0, List)
      ensures views == ViewsOf(Cfg(), tokens)
    {
      views := BuildAll();
    }

    method BuildAll() returns (views: seq<AccessEntry>)
      modifies versions
      ensures views == ViewsOf(Cfg(), tokens)
      ensures versions.counters == EnsuredAll(old(versions.counters), tokens)
    {
      ghost var all, before := ViewsOf(Cfg(), tokens), versions.counters;
      views := [];
      for i := 0 to |tokens|
        invariant |all| == |tokens| && all == ViewsOf(Cfg(), tokens)
        invariant views == all[..i]
        invariant versions.counters == EnsuredAll(before, tokens[..i])
      {
        ghost var mid := versions.counters;
        var view := ViewNext(i, all);
        views := views + [view];
        EnsuredAllSnoc(before, tokens, i);
        SliceSnoc(all, i);
        assert versions.counters == Ensured(mid, tokens[i].id);
      }
      assert tokens[..|tokens|] == tokens;
      assert all[..|all|] == all;
    }

    method ViewNext(i: nat, ghost all: seq<AccessEntry>) returns (view: AccessEntry)
      requires i < |tokens| && all == ViewsOf(Cfg(), tokens)
      modifies versions
      ensures view == all[i]
      ensures versions.counters == Ensured(old(versions.counters), tokens[i].id)
    {
      ViewsAt(Cfg(), tokens, i);
      ghost var expected := all[i];
      assert expected == ViewOf(Cfg(), tokens[i]);
      var version;
      view, version := BuildAccessEntry(tokens[i]);
    }

    method ScanRows(token: string) returns (rows: map<string, Row>)
      ensures rows == map m | m in machines && RowOf(machines[m], token).permissions != [] :: RowOf(machines[m], token)
    {
      ghost var all := map m | m in machines :: RowOf(machines[m], token);
      rows := map[];
      var todo := machines.Keys;
      while todo != {}
        invariant todo <= machines.Keys
        invariant forall m :: m in rows <==> m in all && m !in todo && all[m].permissions != []
        invariant forall m :: m in rows ==> rows[m] == all[m]
        decreases todo
      {
        var name :| name in todo;
        var row := BuildRow(machines[name], token);
        assert row == all[name];
        if |row.permissions| > 0 {
          rows := rows[name := row];
        }
        todo := todo - {name};
      }
    }

    method ScanWildcard(token: string) returns (inherited: seq<string>, services: seq<string>)
      ensures
        var wild := RowOf(AclAt(machines, "*"), token);
        && inherited == (if "connect" in wild.permissions then ["connect"] else [])
                        + (if "manage" in wild.permissions then ["manage"] else [])
        && services == if "*" in machines then wild.services else []
    {
      inherited, services := [], [];
      RowMentions(AclAt(machines, "*"), token);
      if "*" in machines {
        var grant := Search(machines["*"].connect, GrantToken, token);
        if grant.Some? {
          inherited := inherited + ["connect"];
          services := grant.value.services;
        }
        var manage := Search(machines["*"].manage, Itself, token);
        if manage.Some? {
          inherited := inherited + ["manage"];
        }
      }
    }

    method BuildRow(acl: ACL, token: string) returns (row: Row)
      ensures row == RowOf(acl, token)
    {
      var permissions, services := [], [];
      if acl.registerToken == token {
        permissions := permissions + ["register"];
      }
      var grant := Search(acl.connect, GrantToken, token);
      if grant.Some? {
        permissions := permissions + ["connect"];
        services := grant.value.services;
      }
      var manage := Search(acl.manage, Itself, token);
      if manage.Some? {
        permissions := permissions + ["manage"];
      }
      row := Row(permissions, services);
    }
  }
}
