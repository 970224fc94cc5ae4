/** A user's permissions are the union of the active roles' permissions; startup fills in default roles. */
module Roles {
  import opened Permissions
  import opened Strings

  datatype Grant = Grant(key: string, value: bool)

  datatype Membership = Membership(active: bool, permissions: seq<Grant>)

  function MergeGrant(acc: map<string, bool>, g: Grant): map<string, bool> {
    if g.value || g.key !in acc then acc[g.key := g.value] else acc
  }

  function MergeGrants(grants: seq<Grant>): map<string, bool> {
    if grants == [] then map[] else MergeGrant(MergeGrants(grants[..|grants| - 1]), grants[|grants| - 1])
  }

  /** The permission rows of the active memberships, in the order they are read. */
  function ActiveGrants(memberships: seq<Membership>): seq<Grant> {
    if memberships == [] then []
    else
      var last := memberships[|memberships| - 1];
      ActiveGrants(memberships[..|memberships| - 1]) + if last.active then last.permissions else []
  }

  function UserPermissions(memberships: seq<Membership>): map<string, bool> {
    MergeGrants(ActiveGrants(memberships))
  }

  /** The outer loop of `get_user_permissions`: one role after another. */
  method GetUserPermissions(memberships: seq<Membership>) returns (all: map<string, bool>)
    ensures all == UserPermissions(memberships)
    ensures forall k: string :: k in all <==> exists m | m in memberships :: m.active && Mentions(m, k)
    ensures forall k: string | k in all :: all[k] <==> exists m | m in memberships :: m.active && Grant(k, true) in m.permissions
  {
    all := map[];
    for i := 0 to |memberships|
      invariant all == UserPermissions(memberships[..i])
    {
      assert memberships[..i + 1][..i] == memberships[..i];
      if memberships[i].active {
        all := MergeRole(all, ActiveGrants(memberships[..i]), memberships[i].permissions);
      } else {
        assert ActiveGrants(memberships[..i]) + [] == ActiveGrants(memberships[..i]);
      }
    }
    assert memberships[..|memberships|] == memberships;
    MergedExactly(memberships);
  }

  predicate Mentions(m: Membership, k: string) { Grant(k, true) in m.permissions || Grant(k, false) in m.permissions }

  /** A permission is in the merged map if an active role has a row for it, and true if an active role has a true one. */
  lemma MergedExactly(memberships: seq<Membership>)
    ensures var all := UserPermissions(memberships);
            && (forall k: string :: k in all <==> exists m | m in memberships :: m.active && Mentions(m, k))
            && forall k: string | k in all :: all[k] <==> exists m | m in memberships :: m.active && Grant(k, true) in m.permissions
  {
    var all := UserPermissions(memberships);
    forall k: string
      ensures k in all <==> exists m | m in memberships :: m.active && Mentions(m, k)
      ensures k in all ==> (all[k] <==> exists m | m in memberships :: m.active && Grant(k, true) in m.permissions)
    {
      MergeGrantsMeaning(ActiveGrants(memberships), k);
      ActiveGrantsMeaning(memberships, Grant(k, true));
      ActiveGrantsMeaning(memberships, Grant(k, false));
    }
  }

  /** The inner loop: a true permission is never overridden by a false one. */
  method MergeRole(acc: map<string, bool>, ghost read: seq<Grant>, permissions: seq<Grant>) returns (all: map<string, bool>)
    requires acc == MergeGrants(read)
    ensures all == MergeGrants(read + permissions)
  {
    all := acc;
    assert read + [] == read;
    for j := 0 to |permissions|
      invariant all == MergeGrants(read + permissions[..j])
    {
      var g := permissions[j];
      ghost var next := read + permissions[..j + 1];
      assert next[..|next| - 1] == read + permissions[..j];
      if g.value || g.key !in all {
        all := all[g.key := g.value];
      }
    }
    assert permissions[..|permissions|] == permissions;
  }

  lemma {:induction false} MergeGrantsMeaning(grants: seq<Grant>, k: string)
    ensures k in MergeGrants(grants) <==> Grant(k, true) in grants || Grant(k, false) in grants
    ensures k in MergeGrants(grants) ==> (MergeGrants(grants)[k] <==> Grant(k, true) in grants)
  {
    if grants != [] {
      var last := |grants| - 1;
      assert grants == grants[..last] + [grants[last]];
      MergeGrantsMeaning(grants[..last], k);
    }
  }

  lemma {:induction false} ActiveGrantsMeaning(memberships: seq<Membership>, g: Grant)
    ensures g in ActiveGrants(memberships) <==> exists m | m in memberships :: m.active && g in m.permissions
  {
    if memberships != [] {
      var last := |memberships| - 1;
      assert memberships == memberships[..last] + [memberships[last]];
      ActiveGrantsMeaning(memberships[..last], g);
    }
  }

  /** The order, and any repetition, of the roles is immaterial. */
  lemma MergeOrderIndependent(a: seq<Membership>, b: seq<Membership>)
    requires forall m :: m in a <==> m in b
    ensures UserPermissions(a) == UserPermissions(b)
  {
    forall k: string
      ensures k in UserPermissions(a) <==> k in UserPermissions(b)
      ensures k in UserPermissions(a) ==> UserPermissions(a)[k] == UserPermissions(b)[k]
    {
      MergeGrantsMeaning(ActiveGrants(a), k);
      MergeGrantsMeaning(ActiveGrants(b), k);
      forall v: bool ensures Grant(k, v) in ActiveGrants(a) <==> Grant(k, v) in ActiveGrants(b) {
        ActiveGrantsMeaning(a, Grant(k, v));
        ActiveGrantsMeaning(b, Grant(k, v));
      }
    }
  }

  /** The merged map grants a request exactly when one active role grants it on its own. */
  lemma MergedGrantsExactly(memberships: seq<Membership>, required: string)
    ensures CheckPermission(UserPermissions(memberships), required)
       <==> exists m | m in memberships :: m.active && CheckPermission(MergeGrants(m.permissions), required)
  {
    if CheckPermission(UserPermissions(memberships), required) {
      var key := GrantingKey(UserPermissions(memberships), required);
      MergeGrantsMeaning(ActiveGrants(memberships), key);
      ActiveGrantsMeaning(memberships, Grant(key, true));
      var m :| m in memberships && m.active && Grant(key, true) in m.permissions;
      MergeGrantsMeaning(m.permissions, key);
      assert CheckPermission(MergeGrants(m.permissions), required);
    }
    if m :| m in memberships && m.active && CheckPermission(MergeGrants(m.permissions), required) {
      var key := GrantingKey(MergeGrants(m.permissions), required);
      MergeGrantsMeaning(m.permissions, key);
      ActiveGrantsMeaning(memberships, Grant(key, true));
      MergeGrantsMeaning(ActiveGrants(memberships), key);
    }
  }

  lemma GrantingKey(permissions: map<string, bool>, required: string) returns (key: string)
    requires CheckPermission(permissions, required)
    ensures key in permissions && permissions[key] && (key == required || MatchesPermissionPattern(key, required))
  {
    if required in permissions && permissions[required] {
      key := required;
    } else {
      key :| key in permissions && permissions[key] && MatchesPermissionPattern(key, required);
    }
  }

  // ---- Default roles at startup ----

  const ADMIN_ROLE := "Admins"
  const ADMIN_WILDCARD := "sinas.*:all"

  type RoleTable = map<string, map<string, bool>>

  datatype DefaultRole = DefaultRole(name: string, permissions: seq<Grant>)

  predicate Distinct(grants: seq<Grant>) {
    forall i, j | 0 <= i < j < |grants| :: grants[i].key != grants[j].key
  }

  predicate HasKey(grants: seq<Grant>, k: string) {
    exists i | 0 <= i < |grants| :: grants[i].key == k
  }

  predicate Forced(role: string, k: string) {
    role == ADMIN_ROLE && k == ADMIN_WILDCARD
  }

  /** `after` is `before` with the missing defaults added; a value already there is kept, save the forced one. */
  ghost predicate Filled(before: map<string, bool>, role: string, grants: seq<Grant>, after: map<string, bool>) {
    && (forall k :: k in after <==> k in before || HasKey(grants, k))
    && (forall k | k in before :: after[k] == (before[k] || (Forced(role, k) && HasKey(grants, k))))
    && (forall i | 0 <= i < |grants| && grants[i].key !in before :: after[grants[i].key] == grants[i].value)
  }

  /** What startup does to a role: a customised permission stays, a missing one gets its default, nothing else appears; only the
      administrators' `sinas.*:all` is set whatever it was. */
  lemma FilledExactly(before: map<string, bool>, role: string, grants: seq<Grant>, after: map<string, bool>, k: string)
    requires Distinct(grants) && Filled(before, role, grants, after)
    ensures k in after <==> k in before || Grant(k, true) in grants || Grant(k, false) in grants
    ensures k in before && !(role == "Admins" && k == "sinas.*:all") ==> after[k] == before[k]
    ensures k !in before && k in after ==> (after[k] <==> Grant(k, true) in grants)
    ensures role == "Admins" && k == "sinas.*:all" && k in before && (Grant(k, true) in grants || Grant(k, false) in grants) ==>
              after[k]
  {
    if HasKey(grants, k) {
      var i :| 0 <= i < |grants| && grants[i].key == k;
      assert grants[i] in grants;
    }
  }

  function Existing(roles: RoleTable, name: string): map<string, bool> {
    if name in roles then roles[name] else map[]
  }

  class RoleStore {
    var roles: RoleTable

    constructor (roles: RoleTable)
      ensures this.roles == roles
    {
      this.roles := roles;
    }

    method InitializeDefaultRoles(defaults: seq<DefaultRole>)
      requires forall i | 0 <= i < |defaults| :: Distinct(defaults[i].permissions)
      requires forall i, j | 0 <= i < j < |defaults| :: defaults[i].name != defaults[j].name
      modifies this
      ensures forall n :: n in roles <==> n in old(roles) || exists i | 0 <= i < |defaults| :: defaults[i].name == n
      ensures forall n | n in old(roles) && (forall i | 0 <= i < |defaults| :: defaults[i].name != n) :: roles[n] == old(roles)[n]
      ensures forall i | 0 <= i < |defaults| ::
                Filled(Existing(old(roles), defaults[i].name), defaults[i].name, defaults[i].permissions, roles[defaults[i].name])
    {
      hide Filled;
      for i := 0 to |defaults|
        invariant forall n :: n in roles <==> n in old(roles) || exists h | 0 <= h < i :: defaults[h].name == n
        invariant forall n | n in old(roles) && (forall h | 0 <= h < i :: defaults[h].name != n) :: roles[n] == old(roles)[n]
        invariant forall h | 0 <= h < i ::
                    Filled(Existing(old(roles), defaults[h].name), defaults[h].name, defaults[h].permissions, roles[defaults[h].name])
      {
        InitializeRole(defaults[i]);
      }
    }

    method InitializeRole(role: DefaultRole)
      requires Distinct(role.permissions)
      modifies this
      ensures role.name in roles && roles == old(roles)[role.name := roles[role.name]]
      ensures Filled(Existing(old(roles), role.name), role.name, role.permissions, roles[role.name])
    {
      hide Filled;
      if role.name !in roles {
        roles := roles[role.name := map[]];
      }
      ghost var before := roles[role.name];
      NothingToFill(before, role.name);
      for j := 0 to |role.permissions|
        invariant role.name in roles && roles == old(roles)[role.name := roles[role.name]]
        invariant Filled(before, role.name, role.permissions[..j], roles[role.name])
      {
        var g := role.permissions[j];
        var current := roles[role.name];
        assert role.permissions[..j + 1] == role.permissions[..j] + [g];
        FillExtend(before, role.name, role.permissions[..j], g, current);
        if g.key in current {
          if Forced(role.name, g.key) {
            roles := roles[role.name := current[g.key := true]];
          }
        } else {
          roles := roles[role.name := current[g.key := g.value]];
        }
      }
      assert role.permissions[..|role.permissions|] == role.permissions;
    }
  }

  lemma NothingToFill(before: map<string, bool>, role: string)
    ensures Filled(before, role, [], before)
  {}

  /** One pass of the inner loop, on a value. */
  function FillOne(current: map<string, bool>, role: string, g: Grant): map<string, bool> {
    if g.key !in current then current[g.key := g.value]
    else if Forced(role, g.key) then current[g.key := true]
    else current
  }

  lemma FillExtend(before: map<string, bool>, role: string, grants: seq<Grant>, g: Grant, current: map<string, bool>)
    requires Filled(before, role, grants, current) && Distinct(grants + [g])
    ensures Filled(before, role, grants + [g], FillOne(current, role, g))
  {
    var more := grants + [g];
    assert more[|grants|] == g;
    assert forall i | 0 <= i < |grants| :: more[i] == grants[i] && more[i].key != more[|grants|].key;
    forall k ensures HasKey(more, k) <==> HasKey(grants, k) || k == g.key {
      if i :| 0 <= i < |grants| && grants[i].key == k {
        assert more[i].key == k;
      }
    }
  }

  /** A second startup with the same defaults changes nothing. */
  lemma FilledTwice(before: map<string, bool>, role: string, grants: seq<Grant>, once: map<string, bool>, twice: map<string, bool>)
    requires Filled(before, role, grants, once)
    requires Filled(once, role, grants, twice)
    requires forall i | 0 <= i < |grants| && Forced(role, grants[i].key) :: grants[i].value
    ensures twice == once
  {}

  /** Whatever was customised before, startup leaves administrators every permission under `sinas`. */
  lemma AdminsKeepFullAccess(before: map<string, bool>, grants: seq<Grant>, after: map<string, bool>, c: Permission)
    requires Grant(ADMIN_WILDCARD, true) in grants && Filled(before, ADMIN_ROLE, grants, after)
    requires c.WellFormed() && c.base[0] == "sinas" && c.scope in {"own", "all"}
    ensures CheckPermission(after, c.Render())
  {
    var wildcard := Permission(["sinas"], None, "*", "all");
    assert wildcard.Render() == ADMIN_WILDCARD;
    ParseRender(wildcard);
    ParseRender(c);
    assert HasKey(grants, ADMIN_WILDCARD);
    assert after[ADMIN_WILDCARD] && MatchesPermissionPattern(ADMIN_WILDCARD, c.Render());
  }
}
