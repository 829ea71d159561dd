/**
 * The access endpoints of the hub (internal/hub/admin_api.go) as state
 * transitions: what each request does to the configuration and the version
 * counters, and how it answers.
 */
module AccessSteps {
  import opened Common
  import opened KeyedSeq
  import opened AccessVersion
  import opened AccessModel

  datatype HubState = HubState(cfg: Config, versions: Counters)

  /** How the RFC 3339 expiry of an add request parsed. */
  datatype Expiry = NoExpiry | BadExpiry | At(time: Time)

  /**
   * A request after routing, authorization and JSON decoding. minted is what
   * generateToken returns, None when it fails.
   */
  datatype Op =
    | Add(id: string, role: string, expiry: Expiry, minted: Option<string>)
    | Rotate(id: string, ifMatch: Option<U64>, minted: Option<string>)
    | Revoke(id: string, ifMatch: Option<U64>)
    | Patch(id: string, ifMatch: Option<U64>, newId: Option<string>, newRole: Option<string>)
    | Delete(id: string, ifMatch: Option<U64>)
    | SetMachine(id: string, ifMatch: Option<U64>, machine: string, permissions: seq<string>, services: seq<string>)
    | RevokeMachine(id: string, ifMatch: Option<U64>, machine: string)
    | Get(id: string)
    | List

  datatype Reply =
    | Done(version: U64)       // 200 or 201 with an ETag
    | Removed                  // 200, no ETag
    | AlreadyRevoked           // 200, nothing changed
    | Listed                   // 200
    | BadRequest               // 400
    | NotFound                 // 404
    | Refused                  // 409
    | Stale(current: U64)      // 412
    | ServerError              // 500

  predicate StaleMatch(versions: Counters, id: string, ifMatch: Option<U64>) {
    ifMatch.Some? && ifMatch.value != Version(versions, id)
  }

  /** The counters after the If-Match check has read the version. */
  function Checked(versions: Counters, id: string, ifMatch: Option<U64>): Counters {
    if ifMatch.Some? then Ensured(versions, id) else versions
  }

  function Retoken(grants: seq<Grant>, oldToken: string, minted: string): seq<Grant> {
    if grants == [] then []
    else
      [if grants[0].token == oldToken then grants[0].(token := minted) else grants[0]]
      + Retoken(grants[1..], oldToken, minted)
  }

  function RetokenAcl(acl: ACL, oldToken: string, minted: string): ACL {
    acl.(registerToken := if acl.registerToken == oldToken then minted else acl.registerToken,
         connect := Retoken(acl.connect, oldToken, minted))
  }

  function ScrubAcl(acl: ACL, token: string): ACL {
    ACL(if acl.registerToken == token then "" else acl.registerToken,
        Without(acl.connect, GrantToken, token),
        Without(acl.manage, Itself, token))
  }

  function GrantOne(acl: ACL, permission: string, token: string, services: seq<string>): ACL {
    if permission == "register" then acl.(registerToken := token)
    else if permission == "connect" then acl.(connect := acl.connect + [Grant(token, services)])
    else if permission == "manage" then acl.(manage := acl.manage + [token])
    else acl
  }

  function GrantAll(acl: ACL, permissions: seq<string>, token: string, services: seq<string>): ACL {
    if permissions == [] then acl
    else
      var n := |permissions| - 1;
      GrantOne(GrantAll(acl, permissions[..n], token, services), permissions[n], token, services)
  }

  function RetokenMachines(machines: map<string, ACL>, oldToken: string, minted: string): map<string, ACL> {
    map m | m in machines :: RetokenAcl(machines[m], oldToken, minted)
  }

  function ScrubMachines(machines: map<string, ACL>, token: string): map<string, ACL> {
    map m | m in machines :: ScrubAcl(machines[m], token)
  }

  function AddStep(s: HubState, now: Time, op: Op): (HubState, Reply)
    requires op.Add?
  {
    if op.id == "" || op.role !in ["", "owner", "admin"] then (s, BadRequest)
    else if Has(s.cfg.tokens, EntryId, op.id) then (s, Refused)
    else if op.minted.None? then (s, ServerError)
    else if op.expiry.BadExpiry? then (s, BadRequest)
    else
      var expires := if op.expiry.At? then Some(op.expiry.time) else None;
      var e := TokenEntry(op.id, op.minted.value, op.role, Some(now), expires, None);
      var v := Ensured(s.versions, op.id);
      (HubState(s.cfg.(tokens := s.cfg.tokens + [e]), v), Done(Version(v, op.id)))
  }

  function RotateStep(s: HubState, now: Time, op: Op): (HubState, Reply)
    requires op.Rotate?
  {
    var i := IndexWith(s.cfg.tokens, EntryId, op.id);
    var v := Checked(s.versions, op.id, op.ifMatch);
    if i < 0 then (s, NotFound)
    else if StaleMatch(s.versions, op.id, op.ifMatch) then (s.(versions := v), Stale(Version(v, op.id)))
    else if op.minted.None? then (s.(versions := v), ServerError)
    else
      var e := s.cfg.tokens[i];
      var e' := e.(token := op.minted.value, issuedAt := Some(now), revokedAt := None);
      var cfg := Config(s.cfg.tokens[i := e'], RetokenMachines(s.cfg.machines, e.token, op.minted.value));
      var v' := Bumped(v, op.id);
      (HubState(cfg, v'), Done(Raw(v', op.id)))
  }

  /** The last-owner guard of revoke and delete counts unrevoked owners only. */
  predicate LastLiveOwnerGuard(tokens: seq<TokenEntry>, e: TokenEntry) {
    e.role == "owner" && Count(tokens, IsLiveOwner) <= 1
  }

  function RevokeStep(s: HubState, now: Time, op: Op): (HubState, Reply)
    requires op.Revoke?
  {
    var i := IndexWith(s.cfg.tokens, EntryId, op.id);
    var v := Checked(s.versions, op.id, op.ifMatch);
    if i < 0 then (s, NotFound)
    else
      var e := s.cfg.tokens[i];
      if LastLiveOwnerGuard(s.cfg.tokens, e) then (s, Refused)
      else if StaleMatch(s.versions, op.id, op.ifMatch) then (s.(versions := v), Stale(Version(v, op.id)))
      else if e.revokedAt.Some? then (s.(versions := v), AlreadyRevoked)
      else
        var v' := Bumped(v, op.id);
        (HubState(s.cfg.(tokens := s.cfg.tokens[i := e.(revokedAt := Some(now))]), v'), Done(Raw(v', op.id)))
  }

  /** The sole-owner guard of PATCH counts revoked owners too. */
  predicate SoleOwnerGuard(tokens: seq<TokenEntry>, e: TokenEntry, newRole: Option<string>) {
    newRole.Some? && newRole.value != e.role && e.role == "owner" && Count(tokens, IsOwner) <= 1
  }

  predicate PatchIsMalformed(op: Op)
    requires op.Patch?
  {
    || (op.newId.None? && op.newRole.None?)
    || (op.newRole.Some? && op.newRole.value !in ["", "owner", "admin", "viewer"])
    || op.newId == Some("")
  }

  predicate PatchRenames(op: Op)
    requires op.Patch?
  {
    op.newId.Some? && op.newId.value != op.id
  }

  /**
   * The edit of a checked PATCH, and whether its role was refused. The new ID is
   * already in place by then.
   */
  function PatchTokens(tokens: seq<TokenEntry>, i: nat, op: Op): (seq<TokenEntry>, bool)
    requires op.Patch? && i < |tokens|
  {
    var e1 := if PatchRenames(op) then tokens[i].(id := op.newId.value) else tokens[i];
    if SoleOwnerGuard(tokens[i := e1], e1, op.newRole) then (tokens[i := e1], true)
    else (tokens[i := if op.newRole.Some? then e1.(role := op.newRole.value) else e1], false)
  }

  /** A PATCH whose entry was found at i and whose If-Match held. */
  function PatchFound(s: HubState, i: nat, op: Op): (HubState, Reply)
    requires op.Patch? && i < |s.cfg.tokens|
  {
    if PatchRenames(op) && Has(s.cfg.tokens, EntryId, op.newId.value) then (s, Refused)
    else
      var (tokens, refused) := PatchTokens(s.cfg.tokens, i, op);
      var cfg := s.cfg.(tokens := tokens);
      if refused then (s.(cfg := cfg), Refused)
      else if PatchRenames(op) then
        var v := Renamed(s.versions, op.id, op.newId.value);
        (HubState(cfg, v), Done(Raw(v, op.newId.value)))
      else
        var v := Bumped(s.versions, op.id);
        (HubState(cfg, v), Done(Raw(v, op.id)))
  }

  function PatchStep(s: HubState, op: Op): (HubState, Reply)
    requires op.Patch?
  {
    var i := IndexWith(s.cfg.tokens, EntryId, op.id);
    var v := Checked(s.versions, op.id, op.ifMatch);
    if PatchIsMalformed(op) then (s, BadRequest)
    else if i < 0 then (s, NotFound)
    else if StaleMatch(s.versions, op.id, op.ifMatch) then (s.(versions := v), Stale(Version(v, op.id)))
    else PatchFound(s.(versions := v), i, op)
  }

  function DeleteStep(s: HubState, op: Op): (HubState, Reply)
    requires op.Delete?
  {
    var i := IndexWith(s.cfg.tokens, EntryId, op.id);
    var v := Checked(s.versions, op.id, op.ifMatch);
    if i < 0 then (s, NotFound)
    else
      var e := s.cfg.tokens[i];
      if LastLiveOwnerGuard(s.cfg.tokens, e) then (s, Refused)
      else if StaleMatch(s.versions, op.id, op.ifMatch) then (s.(versions := v), Stale(Version(v, op.id)))
      else
        var cfg := Config(Without(s.cfg.tokens, EntryId, op.id), ScrubMachines(s.cfg.machines, e.token));
        (HubState(cfg, Deleted(v, op.id)), Removed)
  }

  function SetMachineStep(s: HubState, op: Op): (HubState, Reply)
    requires op.SetMachine?
  {
    var i := IndexWith(s.cfg.tokens, EntryId, op.id);
    var v := Checked(s.versions, op.id, op.ifMatch);
    if i < 0 then (s, NotFound)
    else if StaleMatch(s.versions, op.id, op.ifMatch) then (s.(versions := v), Stale(Version(v, op.id)))
    else
      var t := s.cfg.tokens[i].token;
      var acl := GrantAll(ScrubAcl(AclAt(s.cfg.machines, op.machine), t), op.permissions, t, op.services);
      var v' := Bumped(v, op.id);
      (HubState(s.cfg.(machines := s.cfg.machines[op.machine := acl]), v'), Done(Raw(v', op.id)))
  }

  function RevokeMachineStep(s: HubState, op: Op): (HubState, Reply)
    requires op.RevokeMachine?
  {
    var i := IndexWith(s.cfg.tokens, EntryId, op.id);
    var v := Checked(s.versions, op.id, op.ifMatch);
    if i < 0 then (s, NotFound)
    else if StaleMatch(s.versions, op.id, op.ifMatch) then (s.(versions := v), Stale(Version(v, op.id)))
    else if op.machine !in s.cfg.machines then (s.(versions := v), NotFound)
    else
      var acl := ScrubAcl(s.cfg.machines[op.machine], s.cfg.tokens[i].token);
      var v' := Bumped(v, op.id);
      (HubState(s.cfg.(machines := s.cfg.machines[op.machine := acl]), v'), Done(Raw(v', op.id)))
  }

  function GetStep(s: HubState, op: Op): (HubState, Reply)
    requires op.Get?
  {
    if Has(s.cfg.tokens, EntryId, op.id) then
      (s.(versions := Ensured(s.versions, op.id)), Done(Version(s.versions, op.id)))
    else (s, NotFound)
  }

  function EnsuredAll(versions: Counters, tokens: seq<TokenEntry>): Counters {
    if tokens == [] then versions
    else
      var n := |tokens| - 1;
      Ensured(EnsuredAll(versions, tokens[..n]), tokens[n].id)
  }

  function Step(s: HubState, now: Time, op: Op): (HubState, Reply) {
    match op
    case Add(_, _, _, _) => AddStep(s, now, op)
    case Rotate(_, _, _) => RotateStep(s, now, op)
    case Revoke(_, _) => RevokeStep(s, now, op)
    case Patch(_, _, _, _) => PatchStep(s, op)
    case Delete(_, _) => DeleteStep(s, op)
    case SetMachine(_, _, _, _, _) => SetMachineStep(s, op)
    case RevokeMachine(_, _, _) => RevokeMachineStep(s, op)
    case Get(_) => GetStep(s, op)
    case List => (s.(versions := EnsuredAll(s.versions, s.cfg.tokens)), Listed)
  }

  /** generateToken returns a value that appears nowhere in the configuration. */
  ghost predicate Unused(cfg: Config, t: string) {
    && t != ""
    && (forall e :: e in cfg.tokens ==> e.token != t)
    && (forall m :: m in cfg.machines ==>
          && cfg.machines[m].registerToken != t
          && (forall g :: g in cfg.machines[m].connect ==> g.token != t)
          && t !in cfg.machines[m].manage)
  }

  ghost predicate FreshFor(s: HubState, op: Op) {
    (op.Add? || op.Rotate?) && op.minted.Some? ==> Unused(s.cfg, op.minted.value)
  }

  // ---- runs ----

  datatype Request = Request(now: Time, op: Op)

  function After(s: HubState, r: Request): HubState {
    Step(s, r.now, r.op).0
  }

  function Run(s: HubState, rs: seq<Request>): HubState
    decreases |rs|
  {
    if rs == [] then s else Run(After(s, rs[0]), rs[1..])
  }

  ghost predicate Legal(s: HubState, rs: seq<Request>)
    decreases |rs|
  {
    rs == [] || (FreshFor(s, rs[0].op) && Legal(After(s, rs[0]), rs[1..]))
  }
}
