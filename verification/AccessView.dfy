/**
 * The access view (buildAccessEntry) and its agreement with the hub's
 * authorization decisions.
 */
module AccessView {
  import opened Common
  import opened KeyedSeq
  import opened AccessModel
  import opened AccessSteps
  import opened AccessExact
  import opened OwnerSafety

  /** One machine row. An empty service list means every service. */
  datatype Row = Row(permissions: seq<string>, services: seq<string>)

  datatype AccessEntry = AccessEntry(
    id: string, role: string, machines: map<string, Row>,
    inherited: seq<string>, inheritedServices: seq<string>)

  function RowOf(acl: ACL, t: string): Row {
    var grant := FirstWith(acl.connect, GrantToken, t);
    Row((if acl.registerToken == t then ["register"] else [])
        + (if grant.Some? then ["connect"] else [])
        + (if FirstWith(acl.manage, Itself, t).Some? then ["manage"] else []),
        if grant.Some? then grant.value.services else [])
  }

  function ViewOf(cfg: Config, e: TokenEntry): AccessEntry {
    var role := if e.role == "" then "user" else e.role;
    if role == "owner" || role == "admin" then
      AccessEntry(e.id, role, map["*" := Row(["register", "connect", "manage"], [])], [], [])
    else
      var wild := RowOf(AclAt(cfg.machines, "*"), e.token);
      AccessEntry(
        e.id, role,
        map m | m in cfg.machines && RowOf(cfg.machines[m], e.token).permissions != []
          :: RowOf(cfg.machines[m], e.token),
        (if "connect" in wild.permissions then ["connect"] else [])
        + (if "manage" in wild.permissions then ["manage"] else []),
        if "*" in cfg.machines then wild.services else [])
  }

  predicate Shows(v: AccessEntry, m: string, permission: string) {
    m in v.machines && permission in v.machines[m].permissions
  }

  function ShownFilter(services: seq<string>): ServiceFilter {
    if services == [] then AllServices else Only(services)
  }

  lemma RowMentions(acl: ACL, t: string)
    ensures "register" in RowOf(acl, t).permissions <==> acl.registerToken == t
    ensures "connect" in RowOf(acl, t).permissions <==> FirstWith(acl.connect, GrantToken, t).Some?
    ensures "manage" in RowOf(acl, t).permissions <==> FirstWith(acl.manage, Itself, t).Some?
    ensures forall p :: p in RowOf(acl, t).permissions ==> p in ["register", "connect", "manage"]
  {
    var a := if acl.registerToken == t then ["register"] else [];
    var b := if FirstWith(acl.connect, GrantToken, t).Some? then ["connect"] else [];
    var c := if FirstWith(acl.manage, Itself, t).Some? then ["manage"] else [];
    assert RowOf(acl, t).permissions == a + b + c;
    assert forall p :: p in a + b + c <==> p in a || p in b || p in c;
  }

  /** What an unprivileged identity's row on a machine shows. */
  lemma ViewShows(cfg: Config, e: TokenEntry, m: string)
    requires !IsPrivileged(e) && e.token != ""
    ensures
      var v := ViewOf(cfg, e);
      && (Shows(v, m, "register") <==> AclAt(cfg.machines, m).registerToken == e.token)
      && (Shows(v, m, "connect") <==> ConnectGrant(cfg.machines, m, e.token).Some?)
      && (Shows(v, m, "manage") <==> ManageGrant(cfg.machines, m, e.token))
      && (Shows(v, m, "connect") ==> v.machines[m].services == ConnectGrant(cfg.machines, m, e.token).value.services)
      && (forall p :: Shows(v, m, p) ==> p in ["register", "connect", "manage"])
  {
    RowMentions(AclAt(cfg.machines, m), e.token);
  }

  lemma ViewInherits(cfg: Config, e: TokenEntry)
    requires !IsPrivileged(e)
    ensures
      var v := ViewOf(cfg, e);
      && ("connect" in v.inherited <==> ConnectGrant(cfg.machines, "*", e.token).Some?)
      && ("manage" in v.inherited <==> ManageGrant(cfg.machines, "*", e.token))
      && ("connect" in v.inherited ==> v.inheritedServices == ConnectGrant(cfg.machines, "*", e.token).value.services)
  {
    RowMentions(AclAt(cfg.machines, "*"), e.token);
    var wild := RowOf(AclAt(cfg.machines, "*"), e.token);
    var a := if "connect" in wild.permissions then ["connect"] else [];
    var b := if "manage" in wild.permissions then ["manage"] else [];
    assert ViewOf(cfg, e).inherited == a + b;
    assert forall p :: p in a + b <==> p in a || p in b;
  }

  /**
   * For an unprivileged identity with a valid token, every decision can be
   * read off the view: connect and manage from the row or the inherited list,
   * the service filter from the row that grants connect, else from the
   * inherited one. Register needs the ACL itself, whose empty slot admits anyone.
   */
  lemma ViewAgreesWithDecisions(cfg: Config, e: TokenEntry, now: Time, m: string)
    requires WellFormed(cfg) && e in cfg.tokens && IsValid(e, now) && !IsPrivileged(e)
    ensures
      var s, v := StoreOf(cfg), ViewOf(cfg, e);
      && (CanConnect(s, now, e.token, m) <==> Shows(v, m, "connect") || "connect" in v.inherited)
      && (CanManage(s, now, e.token, m) <==> Shows(v, m, "manage") || "manage" in v.inherited)
      && ConnectFilter(s, now, e.token, m) ==
         (if e.role == "viewer" then AllServices
            else if Shows(v, m, "connect") then ShownFilter(v.machines[m].services)
            else if "connect" in v.inherited then ShownFilter(v.inheritedServices)
            else AllServices)
      && (CanRegister(s, now, e.token, m) <==>
            m in cfg.machines && (Shows(v, m, "register") || cfg.machines[m].registerToken == ""))
  {
    StoreKnows(cfg, e);
    ViewShows(cfg, e, m);
    ViewInherits(cfg, e);
  }

  /** A privileged identity is shown, and has, every permission everywhere. */
  lemma PrivilegedViewAgrees(cfg: Config, e: TokenEntry, now: Time, m: string)
    requires WellFormed(cfg) && e in cfg.tokens && IsValid(e, now) && IsPrivileged(e)
    ensures
      var s, v := StoreOf(cfg), ViewOf(cfg, e);
      && v.machines.Keys == {"*"}
      && (forall p :: p in ["register", "connect", "manage"] <==> Shows(v, "*", p))
      && CanConnect(s, now, e.token, m) && CanManage(s, now, e.token, m) && CanRegister(s, now, e.token, m)
      && ConnectFilter(s, now, e.token, m) == AllServices
  {
    StoreKnows(cfg, e);
  }

  /** After a row request, the view shows exactly the recognized permissions that were asked for. */
  lemma RowRequestShowsInView(s: HubState, r: Request, p: string)
    requires WellFormed(s.cfg) && IsRowOp(r.op) && Step(s, r.now, r.op).1.Done?
    requires !IsPrivileged(Found(s, r.op))
    ensures
      var v := ViewOf(After(s, r).cfg, Found(s, r.op));
      && (Shows(v, r.op.machine, p) <==> p in ["register", "connect", "manage"] && p in Requested(r.op))
      && (Shows(v, r.op.machine, "connect") ==> v.machines[r.op.machine].services == RequestedServices(r.op))
  {
    var e := Found(s, r.op);
    assert e in s.cfg.tokens && e.token != "";
    RowIsExact(s, r, r.op.machine);
    ViewShows(After(s, r).cfg, e, r.op.machine);
    AppliedRowExists(s, r);
  }

  lemma AppliedRowExists(s: HubState, r: Request)
    requires IsRowOp(r.op) && Step(s, r.now, r.op).1.Done?
    ensures r.op.machine in After(s, r).cfg.machines
  {
  }

  /** A view carries the identity's ID and role, "user" standing for none. */
  lemma ViewNames(cfg: Config, e: TokenEntry)
    ensures ViewOf(cfg, e).id == e.id
    ensures ViewOf(cfg, e).role == if e.role == "" then "user" else e.role
  {
  }

  lemma RowIsMinimal(acl: ACL, t: string)
    ensures
      var row := RowOf(acl, t);
      && (forall i, j :: 0 <= i < j < |row.permissions| ==> row.permissions[i] != row.permissions[j])
      && (row.services != [] ==> "connect" in row.permissions)
  {
    RowMentions(acl, t);
  }

  /**
   * An unprivileged view holds a row exactly for the machines it shows something
   * on, with no permission twice, and services only beside connect.
   */
  lemma RowsAreMinimal(cfg: Config, e: TokenEntry, m: string)
    requires !IsPrivileged(e)
    ensures
      var v := ViewOf(cfg, e);
      && (m in v.machines ==>
            var row := v.machines[m];
            && row.permissions != [] && Shows(v, m, row.permissions[0])
            && (forall i, j :: 0 <= i < j < |row.permissions| ==> row.permissions[i] != row.permissions[j])
            && (row.services != [] ==> Shows(v, m, "connect")))
      && (v.inheritedServices != [] ==> "connect" in v.inherited)
  {
    RowIsMinimal(AclAt(cfg.machines, m), e.token);
    RowIsMinimal(AclAt(cfg.machines, "*"), e.token);
  }
}
