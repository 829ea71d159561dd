/**
 * What the hub's authorization decisions mean in terms of the configuration,
 * for every token: who holds it, whether it is revoked or expired, and which
 * lists name it.
 */
module AccessDecisions {
  import opened Common
  import opened KeyedSeq
  import opened AccessModel

  /** The entry holds the token and is neither revoked nor expired. */
  ghost predicate Holds(cfg: Config, now: Time, token: string, e: TokenEntry) {
    && e in cfg.tokens && e.token == token
    && e.revokedAt.None?
    && (e.expiresAt.None? || now <= e.expiresAt.value)
  }

  ghost predicate HeldByOwnerOrAdmin(cfg: Config, now: Time, token: string) {
    exists e :: Holds(cfg, now, token, e) && e.role in ["owner", "admin"]
  }

  ghost predicate Held(cfg: Config, now: Time, token: string) {
    exists e :: Holds(cfg, now, token, e)
  }

  ghost predicate MayConnectBy(cfg: Config, machine: string, token: string) {
    machine in cfg.machines && exists g :: g in cfg.machines[machine].connect && g.token == token
  }

  ghost predicate MayManageBy(cfg: Config, machine: string, token: string) {
    machine in cfg.machines && token in cfg.machines[machine].manage
  }

  lemma ValidMeansHeld(cfg: Config, now: Time, token: string)
    requires WellFormed(cfg) && cfg.tokens != []
    ensures ValidEntry(StoreOf(cfg), now, token).Some? <==> Held(cfg, now, token)
    ensures forall e :: Holds(cfg, now, token, e) ==> ValidEntry(StoreOf(cfg), now, token) == Some(e)
    ensures HeldByOwnerOrAdmin(cfg, now, token) <==>
              ValidEntry(StoreOf(cfg), now, token).Some? && IsPrivileged(ValidEntry(StoreOf(cfg), now, token).value)
  {
    ByTokenFinds(cfg.tokens, token);
    var v := ValidEntry(StoreOf(cfg), now, token);
    if v.Some? {
      assert Holds(cfg, now, token, v.value);
    }
    forall e | Holds(cfg, now, token, e) ensures v == Some(e) {
      StoreKnows(cfg, e);
    }
  }

  lemma GrantMeansListed(cfg: Config, machine: string, token: string)
    ensures ConnectGrant(cfg.machines, machine, token).Some? <==> MayConnectBy(cfg, machine, token)
    ensures ManageGrant(cfg.machines, machine, token) <==> MayManageBy(cfg, machine, token)
  {
    var acl := AclAt(cfg.machines, machine);
    FirstWithIsMember(acl.connect, GrantToken, token);
    FirstWithIsMember(acl.manage, Itself, token);
    if machine in cfg.machines {
      if g :| g in acl.connect && g.token == token {
        var i :| 0 <= i < |acl.connect| && acl.connect[i] == g;
        assert GrantToken(acl.connect[i]) == token;
      }
      if token in acl.manage {
        var i :| 0 <= i < |acl.manage| && acl.manage[i] == token;
        assert Itself(acl.manage[i]) == token;
      }
    }
  }

  /** Who may connect, manage, register, view and administer, for every token on a hub with identities. */
  lemma DecisionsExactly(cfg: Config, now: Time, token: string, m: string)
    requires WellFormed(cfg) && cfg.tokens != []
    ensures IsOwnerOrAdmin(StoreOf(cfg), now, token) <==> HeldByOwnerOrAdmin(cfg, now, token)
    ensures CanConnect(StoreOf(cfg), now, token, m) <==>
              || HeldByOwnerOrAdmin(cfg, now, token)
              || (Held(cfg, now, token) && (MayConnectBy(cfg, m, token) || MayConnectBy(cfg, "*", token)))
    ensures CanManage(StoreOf(cfg), now, token, m) <==>
              || HeldByOwnerOrAdmin(cfg, now, token)
              || (Held(cfg, now, token) && (MayManageBy(cfg, m, token) || MayManageBy(cfg, "*", token)))
    ensures CanRegister(StoreOf(cfg), now, token, m) <==>
              || HeldByOwnerOrAdmin(cfg, now, token)
              || (Held(cfg, now, token) && m in cfg.machines && cfg.machines[m].registerToken in ["", token])
    ensures CanView(StoreOf(cfg), now, token, m) <==>
              || HeldByOwnerOrAdmin(cfg, now, token)
              || (exists e :: Holds(cfg, now, token, e) && e.role == "viewer")
              || (Held(cfg, now, token) && (MayConnectBy(cfg, m, token) || MayConnectBy(cfg, "*", token)))
  {
    ValidMeansHeld(cfg, now, token);
    GrantMeansListed(cfg, m, token);
    GrantMeansListed(cfg, "*", token);
    var v := ValidEntry(StoreOf(cfg), now, token);
    if v.Some? {
      assert Holds(cfg, now, token, v.value) by { ByTokenFinds(cfg.tokens, token); }
    }
  }

  /** A revoked or expired identity is denied everything, whatever its role and grants. */
  lemma RevokedOrExpiredDenied(cfg: Config, e: TokenEntry, now: Time, m: string)
    requires WellFormed(cfg) && e in cfg.tokens
    requires e.revokedAt.Some? || (e.expiresAt.Some? && now > e.expiresAt.value)
    ensures !CanConnect(StoreOf(cfg), now, e.token, m) && !CanManage(StoreOf(cfg), now, e.token, m)
    ensures !CanRegister(StoreOf(cfg), now, e.token, m) && !CanView(StoreOf(cfg), now, e.token, m)
    ensures !IsOwnerOrAdmin(StoreOf(cfg), now, e.token)
  {
    forall f | f in cfg.tokens && f.token == e.token ensures f == e {
      StoreKnows(cfg, e);
      StoreKnows(cfg, f);
    }
    DecisionsExactly(cfg, now, e.token, m);
  }

  /** Without identities auth is off: everything is allowed to everyone, and nobody administers. */
  lemma OpenHub(cfg: Config, now: Time, token: string, m: string)
    requires cfg.tokens == []
    ensures CanConnect(StoreOf(cfg), now, token, m) && CanManage(StoreOf(cfg), now, token, m)
    ensures CanRegister(StoreOf(cfg), now, token, m) && CanView(StoreOf(cfg), now, token, m)
    ensures ConnectFilter(StoreOf(cfg), now, token, m) == AllServices
    ensures !IsOwnerOrAdmin(StoreOf(cfg), now, token)
  {
  }

  /**
   * The service filter: none for owners, admins and viewers; for everyone else
   * the services of the first grant on the machine, else of the first on "*".
   */
  lemma FilterExactly(cfg: Config, now: Time, token: string, m: string, i: nat)
    requires WellFormed(cfg) && cfg.tokens != []
    ensures (exists e :: Holds(cfg, now, token, e) && e.role in ["owner", "admin", "viewer"]) ==>
              ConnectFilter(StoreOf(cfg), now, token, m) == AllServices
    ensures
      var own := AclAt(cfg.machines, m).connect;
      && (forall e :: Holds(cfg, now, token, e) ==> e.role !in ["owner", "admin", "viewer"])
      && FirstGrantAt(own, token, i)
      ==> ConnectFilter(StoreOf(cfg), now, token, m) ==
          (if own[i].services == [] then AllServices else Only(own[i].services))
    ensures
      var own, wild := AclAt(cfg.machines, m).connect, AclAt(cfg.machines, "*").connect;
      && (forall e :: Holds(cfg, now, token, e) ==> e.role !in ["owner", "admin", "viewer"])
      && (forall g :: g in own ==> g.token != token)
      && FirstGrantAt(wild, token, i)
      ==> ConnectFilter(StoreOf(cfg), now, token, m) ==
          (if wild[i].services == [] then AllServices else Only(wild[i].services))
    ensures !MayConnectBy(cfg, m, token) && !MayConnectBy(cfg, "*", token) ==>
              ConnectFilter(StoreOf(cfg), now, token, m) == AllServices
  {
    ValidMeansHeld(cfg, now, token);
    var v := ValidEntry(StoreOf(cfg), now, token);
    if v.Some? {
      assert Holds(cfg, now, token, v.value) by { ByTokenFinds(cfg.tokens, token); }
    }
    var own, wild := AclAt(cfg.machines, m).connect, AclAt(cfg.machines, "*").connect;
    FirstWithIsMember(own, GrantToken, token);
    GrantMeansListed(cfg, m, token);
    GrantMeansListed(cfg, "*", token);
    if FirstGrantAt(own, token, i) {
      FirstGrantIsFound(own, token, i);
    }
    if FirstGrantAt(wild, token, i) {
      FirstGrantIsFound(wild, token, i);
    }
  }

  ghost predicate FirstGrantAt(grants: seq<Grant>, token: string, i: nat) {
    i < |grants| && grants[i].token == token && forall j :: 0 <= j < i ==> grants[j].token != token
  }

  lemma {:induction false} FirstGrantIsFound(grants: seq<Grant>, token: string, i: nat)
    requires FirstGrantAt(grants, token, i)
    ensures FirstWith(grants, GrantToken, token) == Some(grants[i])
  {
    if i > 0 {
      FirstGrantIsFound(grants[1..], token, i - 1);
    }
  }
}
