/**
 * Configuration, runtime store and authorization decisions of the hub
 * (internal/hub/auth.go), as values.
 */
module AccessModel {
  import opened Common
  import opened KeyedSeq

  type Time = int

  /** role is "owner", "admin", "viewer", or "" for a user. */
  datatype TokenEntry = TokenEntry(
    id: string, token: string, role: string,
    issuedAt: Option<Time>, expiresAt: Option<Time>, revokedAt: Option<Time>)

  /** An empty service list means every service. */
  datatype Grant = Grant(token: string, services: seq<string>)

  /** registerToken "" means that no register slot is set. */
  datatype ACL = ACL(registerToken: string, connect: seq<Grant>, manage: seq<string>)

  datatype Config = Config(tokens: seq<TokenEntry>, machines: map<string, ACL>)

  const NO_ACL := ACL("", [], [])

  function EntryId(e: TokenEntry): string { e.id }
  function EntryToken(e: TokenEntry): string { e.token }
  function GrantToken(g: Grant): string { g.token }
  function Itself(t: string): string { t }

  predicate IsOwner(e: TokenEntry) {
    e.role == "owner"
  }

  predicate IsLiveOwner(e: TokenEntry) {
    e.role == "owner" && e.revokedAt.None?
  }

  predicate IsValid(e: TokenEntry, now: Time) {
    e.revokedAt.None? && !(e.expiresAt.Some? && now > e.expiresAt.value)
  }

  predicate IsPrivileged(e: TokenEntry) {
    e.role == "owner" || e.role == "admin"
  }

  /** A missing machine reads as the zero ACL. */
  function AclAt(machines: map<string, ACL>, machine: string): ACL {
    if machine in machines then machines[machine] else NO_ACL
  }

  /** The runtime store rebuilt by reload. */
  datatype Store = Store(enabled: bool, byToken: map<string, TokenEntry>, machines: map<string, ACL>)

  function ByToken(tokens: seq<TokenEntry>): map<string, TokenEntry> {
    if tokens == [] then map[]
    else
      var n := |tokens| - 1;
      var m := ByToken(tokens[..n]);
      if tokens[n].token != "" then m[tokens[n].token := tokens[n]] else m
  }

  function StoreOf(cfg: Config): Store {
    if cfg.tokens == [] then Store(false, map[], map[])
    else Store(true, ByToken(cfg.tokens), cfg.machines)
  }

  function ValidEntry(s: Store, now: Time, token: string): Option<TokenEntry> {
    if token == "" || token !in s.byToken || !IsValid(s.byToken[token], now) then None
    else Some(s.byToken[token])
  }

  predicate IsOwnerOrAdmin(s: Store, now: Time, token: string) {
    s.enabled && ValidEntry(s, now, token).Some? && IsPrivileged(ValidEntry(s, now, token).value)
  }

  predicate CanRegister(s: Store, now: Time, token: string, machine: string) {
    var e := ValidEntry(s, now, token);
    if !s.enabled then true
    else if e.Some? && IsPrivileged(e.value) then true
    else if machine !in s.machines then false
    else if s.machines[machine].registerToken != "" then
      s.machines[machine].registerToken == token && e.Some?
    else e.Some?
  }

  function ConnectGrant(machines: map<string, ACL>, machine: string, token: string): Option<Grant> {
    FirstWith(AclAt(machines, machine).connect, GrantToken, token)
  }

  predicate ManageGrant(machines: map<string, ACL>, machine: string, token: string) {
    FirstWith(AclAt(machines, machine).manage, Itself, token).Some?
  }

  predicate CanConnect(s: Store, now: Time, token: string, machine: string) {
    var e := ValidEntry(s, now, token);
    if !s.enabled then true
    else if e.Some? && IsPrivileged(e.value) then true
    else if e.None? then false
    else ConnectGrant(s.machines, machine, token).Some? || ConnectGrant(s.machines, "*", token).Some?
  }

  datatype ServiceFilter = AllServices | Only(names: seq<string>)

  function FilterOf(g: Grant): ServiceFilter {
    if g.services == [] then AllServices else Only(g.services)
  }

  function ConnectFilter(s: Store, now: Time, token: string, machine: string): ServiceFilter {
    var e := ValidEntry(s, now, token);
    if !s.enabled then AllServices
    else if e.Some? && (IsPrivileged(e.value) || e.value.role == "viewer") then AllServices
    else
      match ConnectGrant(s.machines, machine, token)
      case Some(g) => FilterOf(g)
      case None =>
        match ConnectGrant(s.machines, "*", token)
        case Some(g) => FilterOf(g)
        case None => AllServices
  }

  predicate CanManage(s: Store, now: Time, token: string, machine: string) {
    var e := ValidEntry(s, now, token);
    if !s.enabled then true
    else if e.Some? && IsPrivileged(e.value) then true
    else if e.None? then false
    else ManageGrant(s.machines, machine, token) || ManageGrant(s.machines, "*", token)
  }

  predicate CanView(s: Store, now: Time, token: string, machine: string) {
    var e := ValidEntry(s, now, token);
    (s.enabled && e.Some? && e.value.role == "viewer") || CanConnect(s, now, token, machine)
  }

  /** Everything the hub decides about a token on a machine, registration aside. */
  datatype Decision = Decision(connect: bool, filter: ServiceFilter, manage: bool, view: bool, admin: bool)

  function Decide(s: Store, now: Time, token: string, machine: string): Decision {
    Decision(CanConnect(s, now, token, machine), ConnectFilter(s, now, token, machine),
             CanManage(s, now, token, machine), CanView(s, now, token, machine),
             IsOwnerOrAdmin(s, now, token))
  }

  /** Unique IDs, unique non-empty tokens. */
  ghost predicate WellFormed(cfg: Config) {
    && Distinct(cfg.tokens, EntryId)
    && Distinct(cfg.tokens, EntryToken)
    && forall e :: e in cfg.tokens ==> e.token != ""
  }

  lemma {:induction false} ByTokenFinds(tokens: seq<TokenEntry>, token: string)
    requires Distinct(tokens, EntryToken)
    ensures token in ByToken(tokens) <==> token != "" && exists e :: e in tokens && e.token == token
    ensures token in ByToken(tokens) ==> ByToken(tokens)[token] in tokens && ByToken(tokens)[token].token == token
  {
    if tokens == [] {
    } else {
      var n := |tokens| - 1;
      ByTokenFinds(tokens[..n], token);
      assert tokens == tokens[..n] + [tokens[n]];
    }
  }

  /** The reloaded store knows exactly the configured identities. */
  lemma StoreKnows(cfg: Config, e: TokenEntry)
    requires WellFormed(cfg) && e in cfg.tokens
    ensures StoreOf(cfg).enabled
    ensures e.token in StoreOf(cfg).byToken && StoreOf(cfg).byToken[e.token] == e
  {
    ByTokenFinds(cfg.tokens, e.token);
    var f := ByToken(cfg.tokens)[e.token];
    var i :| 0 <= i < |cfg.tokens| && cfg.tokens[i] == e;
    var j :| 0 <= j < |cfg.tokens| && cfg.tokens[j] == f;
    assert EntryToken(cfg.tokens[i]) == EntryToken(cfg.tokens[j]);
  }

  lemma StoreForgets(cfg: Config, token: string)
    requires WellFormed(cfg)
    requires forall e :: e in cfg.tokens ==> e.token != token
    ensures token !in StoreOf(cfg).byToken
  {
    ByTokenFinds(cfg.tokens, token);
  }

  /** A token no identity holds is denied everything on an enabled hub. */
  lemma UnknownTokenDenied(cfg: Config, now: Time, token: string, machine: string)
    requires WellFormed(cfg) && cfg.tokens != []
    requires forall e :: e in cfg.tokens ==> e.token != token
    ensures !CanConnect(StoreOf(cfg), now, token, machine)
    ensures !CanManage(StoreOf(cfg), now, token, machine)
    ensures !CanRegister(StoreOf(cfg), now, token, machine)
    ensures !CanView(StoreOf(cfg), now, token, machine)
    ensures !IsOwnerOrAdmin(StoreOf(cfg), now, token)
  {
    StoreForgets(cfg, token);
  }

  /** Registration depends only on the identity's entry and on the machine's slot. */
  lemma RegistrationDetermined(cfg: Config, cfg': Config, e: TokenEntry, now: Time, machine: string)
    requires WellFormed(cfg) && WellFormed(cfg') && e in cfg.tokens && e in cfg'.tokens
    requires machine in cfg.machines <==> machine in cfg'.machines
    requires machine in cfg.machines ==> cfg.machines[machine].registerToken == cfg'.machines[machine].registerToken
    ensures CanRegister(StoreOf(cfg), now, e.token, machine) == CanRegister(StoreOf(cfg'), now, e.token, machine)
  {
    StoreKnows(cfg, e);
    StoreKnows(cfg', e);
  }

  /** The other decisions depend only on the identity's entry and its grants on the machine and on "*". */
  lemma DecisionsDetermined(cfg: Config, cfg': Config, e: TokenEntry, machine: string)
    requires WellFormed(cfg) && WellFormed(cfg') && e in cfg.tokens && e in cfg'.tokens
    requires forall m :: ConnectGrant(cfg.machines, m, e.token) == ConnectGrant(cfg'.machines, m, e.token)
    requires forall m :: ManageGrant(cfg.machines, m, e.token) == ManageGrant(cfg'.machines, m, e.token)
    ensures forall now :: Decide(StoreOf(cfg), now, e.token, machine) == Decide(StoreOf(cfg'), now, e.token, machine)
  {
    StoreKnows(cfg, e);
    StoreKnows(cfg', e);
    assert ConnectGrant(cfg.machines, "*", e.token) == ConnectGrant(cfg'.machines, "*", e.token);
    assert ManageGrant(cfg.machines, "*", e.token) == ManageGrant(cfg'.machines, "*", e.token);
  }
}
