/** How scrubbing, retokening and granting change the grants each token finds. */
module AccessGrants {
  import opened Common
  import opened KeyedSeq
  import opened AccessModel
  import opened AccessSteps

  /** Rewriting a token moves its grants to the new token, services included. */
  lemma {:induction false} RetokenFinds(grants: seq<Grant>, oldToken: string, minted: string, t: string)
    requires oldToken != minted && forall g :: g in grants ==> g.token != minted
    ensures FirstWith(Retoken(grants, oldToken, minted), GrantToken, t) ==
            if t == oldToken then None
            else if t != minted then FirstWith(grants, GrantToken, t)
            else
              match FirstWith(grants, GrantToken, oldToken)
              case None => None
              case Some(g) => Some(Grant(minted, g.services))
  {
    if grants == [] {
    } else {
      RetokenFinds(grants[1..], oldToken, minted, t);
      var r := Retoken(grants, oldToken, minted);
      assert r[1..] == Retoken(grants[1..], oldToken, minted);
      assert GrantToken(r[0]) == r[0].token && GrantToken(grants[0]) == grants[0].token;
    }
  }

  ghost predicate NoGrants(acl: ACL, t: string) {
    FirstWith(acl.connect, GrantToken, t).None? && FirstWith(acl.manage, Itself, t).None?
  }

  lemma ScrubFinds(acl: ACL, gone: string, t: string)
    ensures FirstWith(ScrubAcl(acl, gone).connect, GrantToken, t) ==
            if t == gone then None else FirstWith(acl.connect, GrantToken, t)
    ensures FirstWith(ScrubAcl(acl, gone).manage, Itself, t) ==
            if t == gone then None else FirstWith(acl.manage, Itself, t)
  {
    FirstWithWithout(acl.connect, GrantToken, gone, t);
    FirstWithWithout(acl.manage, Itself, gone, t);
  }

  /** Granting touches no other token's grants. */
  lemma {:induction false} GrantAllOthers(
      acl: ACL, permissions: seq<string>, token: string, services: seq<string>, t: string)
    requires t != token
    ensures FirstWith(GrantAll(acl, permissions, token, services).connect, GrantToken, t) ==
            FirstWith(acl.connect, GrantToken, t)
    ensures FirstWith(GrantAll(acl, permissions, token, services).manage, Itself, t) == FirstWith(acl.manage, Itself, t)
  {
    if permissions == [] {
    } else {
      var n := |permissions| - 1;
      GrantAllOthers(acl, permissions[..n], token, services, t);
      var before := GrantAll(acl, permissions[..n], token, services);
      FirstWithAppend(before.connect, [Grant(token, services)], GrantToken, t);
      FirstWithAppend(before.manage, [token], Itself, t);
    }
  }

  /** On a scrubbed ACL, granting gives exactly the requested permissions. */
  lemma {:induction false} GrantAllOwn(acl: ACL, permissions: seq<string>, token: string, services: seq<string>)
    requires NoGrants(acl, token)
    ensures
      var r := GrantAll(acl, permissions, token, services);
      && r.registerToken == (if "register" in permissions then token else acl.registerToken)
      && FirstWith(r.connect, GrantToken, token) ==
         (if "connect" in permissions then Some(Grant(token, services)) else None)
      && FirstWith(r.manage, Itself, token) == (if "manage" in permissions then Some(token) else None)
  {
    if permissions == [] {
    } else {
      var n := |permissions| - 1;
      GrantAllOwn(acl, permissions[..n], token, services);
      assert permissions == permissions[..n] + [permissions[n]];
      var before := GrantAll(acl, permissions[..n], token, services);
      FirstWithAppend(before.connect, [Grant(token, services)], GrantToken, token);
      FirstWithAppend(before.manage, [token], Itself, token);
    }
  }

  // ---- lifted to the machine map ----

  lemma ScrubMachinesFinds(machines: map<string, ACL>, gone: string, m: string, t: string)
    ensures ConnectGrant(ScrubMachines(machines, gone), m, t) ==
            if t == gone then None else ConnectGrant(machines, m, t)
    ensures ManageGrant(ScrubMachines(machines, gone), m, t) <==> t != gone && ManageGrant(machines, m, t)
  {
    ScrubFinds(AclAt(machines, m), gone, t);
  }

  lemma RetokenMachinesFinds(machines: map<string, ACL>, oldToken: string, minted: string, m: string, t: string)
    requires oldToken != minted
    requires forall k :: k in machines ==> forall g :: g in machines[k].connect ==> g.token != minted
    ensures ConnectGrant(RetokenMachines(machines, oldToken, minted), m, t) ==
            if t == oldToken then None
            else if t != minted then ConnectGrant(machines, m, t)
            else
              match ConnectGrant(machines, m, oldToken)
              case None => None
              case Some(g) => Some(Grant(minted, g.services))
    ensures ManageGrant(RetokenMachines(machines, oldToken, minted), m, t) == ManageGrant(machines, m, t)
  {
    RetokenFinds(AclAt(machines, m).connect, oldToken, minted, t);
  }

  /** Replacing one machine's row by a scrubbed and re-granted one. */
  lemma RowReplacedFinds(machines: map<string, ACL>, machine: string, token: string,
                         permissions: seq<string>, services: seq<string>, m: string, t: string)
    ensures
      var acl := GrantAll(ScrubAcl(AclAt(machines, machine), token), permissions, token, services);
      var machines' := machines[machine := acl];
      && (t != token ==>
            && ConnectGrant(machines', m, t) == ConnectGrant(machines, m, t)
            && ManageGrant(machines', m, t) == ManageGrant(machines, m, t))
      && (m != machine ==>
            && ConnectGrant(machines', m, t) == ConnectGrant(machines, m, t)
            && ManageGrant(machines', m, t) == ManageGrant(machines, m, t))
      && ConnectGrant(machines', machine, token) ==
         (if "connect" in permissions then Some(Grant(token, services)) else None)
      && (ManageGrant(machines', machine, token) <==> "manage" in permissions)
      && machines'[machine].registerToken ==
         (if "register" in permissions then token
          else if AclAt(machines, machine).registerToken == token then ""
          else AclAt(machines, machine).registerToken)
  {
    var scrubbed := ScrubAcl(AclAt(machines, machine), token);
    ScrubFinds(AclAt(machines, machine), token, token);
    ScrubFinds(AclAt(machines, machine), token, t);
    GrantAllOwn(scrubbed, permissions, token, services);
    if t != token {
      GrantAllOthers(scrubbed, permissions, token, services, t);
    }
  }
}
