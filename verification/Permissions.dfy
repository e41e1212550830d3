/** Permission inheritance: `PermissionManager` of auth/advanced/permissions.py.

    A permission set lists permissions of its own and the names of the sets it inherits from.
    The inheritance graph may contain cycles, diamonds and names nobody registered.  The code
    walks it depth first with one `visited` set shared by every branch and answers the empty
    set on a revisit; the theorems say that this still computes the whole inherited closure. */
module Permissions {

  datatype PermissionSet = PermissionSet(name: string, permissions: seq<string>, inheritFrom: seq<string>)

  type Registry = map<string, PermissionSet>

  // ---------------------------------------------------------------------
  // What a permission set is entitled to
  // ---------------------------------------------------------------------

  ghost predicate Inherits(reg: Registry, child: string, parent: string) {
    child in reg && parent in reg[child].inheritFrom
  }

  /** A path in the inheritance graph, child first. */
  ghost predicate IsChain(reg: Registry, p: seq<string>) {
    |p| > 0 && forall i :: 0 <= i < |p| - 1 ==> Inherits(reg, p[i], p[i + 1])
  }

  ghost predicate Reaches(reg: Registry, s: string, t: string) {
    exists p :: IsChain(reg, p) && p[0] == s && p[|p| - 1] == t
  }

  /** The permissions listed by the registered sets among `names`. */
  ghost function PermissionsOf(reg: Registry, names: set<string>): set<string> {
    set t, perm | t in reg && t in names && perm in reg[t].permissions :: perm
  }

  ghost function Ancestors(reg: Registry, s: string): set<string> {
    set t | t in reg && Reaches(reg, s, t)
  }

  /** Everything `s` holds itself or inherits, along any path of any length. */
  ghost function Closure(reg: Registry, s: string): set<string> {
    PermissionsOf(reg, Ancestors(reg, s))
  }

  /** Some set assigned to the user holds or inherits the permission. */
  ghost predicate Granted(reg: Registry, userSets: seq<string>, permission: string) {
    exists i :: 0 <= i < |userSets| && permission in Closure(reg, userSets[i])
  }

  // ---------------------------------------------------------------------
  // The inheritance graph
  // ---------------------------------------------------------------------

  lemma ReachesSelf(reg: Registry, s: string)
    ensures Reaches(reg, s, s)
  {
    assert IsChain(reg, [s]);
  }

  lemma ReachesThroughParent(reg: Registry, s: string, parent: string, t: string)
    requires Inherits(reg, s, parent) && Reaches(reg, parent, t)
    ensures Reaches(reg, s, t)
  {
    var p :| IsChain(reg, p) && p[0] == parent && p[|p| - 1] == t;
    assert IsChain(reg, [s] + p);
  }

  lemma ReachesFirstStep(reg: Registry, s: string, t: string) returns (parent: string)
    requires Reaches(reg, s, t) && s != t
    ensures Inherits(reg, s, parent) && Reaches(reg, parent, t)
  {
    var p :| IsChain(reg, p) && p[0] == s && p[|p| - 1] == t;
    parent := p[1];
    assert Inherits(reg, p[0], p[1]);
    assert IsChain(reg, p[1..]) by {
      forall i | 0 <= i < |p[1..]| - 1 ensures Inherits(reg, p[1..][i], p[1..][i + 1]) {
        assert Inherits(reg, p[i + 1], p[i + 2]);
      }
    }
  }

  /** A set of names that holds `s` and is closed under inheritance holds all that `s` reaches. */
  lemma {:induction false} ClosedSetHoldsChain(reg: Registry, names: set<string>, p: seq<string>, i: nat)
    requires IsChain(reg, p) && p[0] in names && i < |p|
    requires forall t, u :: t in names && Inherits(reg, t, u) ==> u in names
    ensures p[i] in names
  {
    if i > 0 {
      ClosedSetHoldsChain(reg, names, p, i - 1);
      assert Inherits(reg, p[i - 1], p[i]);
    }
  }

  lemma ClosedSetHoldsReachable(reg: Registry, names: set<string>, s: string, t: string)
    requires s in names && Reaches(reg, s, t)
    requires forall t, u :: t in names && Inherits(reg, t, u) ==> u in names
    ensures t in names
  {
    var p :| IsChain(reg, p) && p[0] == s && p[|p| - 1] == t;
    ClosedSetHoldsChain(reg, names, p, |p| - 1);
  }

  /** The closure solves the recursive equation one would write without thinking of cycles:
      own permissions plus the closures of the parents.  An unregistered name has none. */
  lemma ClosureUnfolds(reg: Registry, s: string)
    ensures s !in reg ==> Closure(reg, s) == {}
    ensures s in reg ==>
      Closure(reg, s) ==
        (set perm | perm in reg[s].permissions)
        + (set parent, perm | parent in reg[s].inheritFrom && perm in Closure(reg, parent) :: perm)
  {
    if s !in reg {
      forall t | t in Ancestors(reg, s) ensures false {
        if t != s { var parent := ReachesFirstStep(reg, s, t); }
      }
    } else {
      ReachesSelf(reg, s);
      var own := set perm | perm in reg[s].permissions;
      var inherited := set parent, perm | parent in reg[s].inheritFrom && perm in Closure(reg, parent) :: perm;
      forall perm | perm in Closure(reg, s) ensures perm in own + inherited {
        var t :| t in reg && Reaches(reg, s, t) && perm in reg[t].permissions;
        if t != s {
          var parent := ReachesFirstStep(reg, s, t);
          assert t in Ancestors(reg, parent);
          assert perm in Closure(reg, parent);
        }
      }
      forall perm | perm in inherited ensures perm in Closure(reg, s) {
        var parent :| parent in reg[s].inheritFrom && perm in Closure(reg, parent);
        var t :| t in reg && Reaches(reg, parent, t) && perm in reg[t].permissions;
        ReachesThroughParent(reg, s, parent, t);
        assert t in Ancestors(reg, s);
      }
      assert s in Ancestors(reg, s);
    }
  }

  /** ... and it is the least solution: any assignment of permissions to names that gives every
      registered set its own permissions and those of its parents gives it at least the closure.
      So a cycle grants nothing that no member of it lists. */
  lemma ClosureIsLeast(reg: Registry, granted: string -> set<string>, s: string)
    requires forall t :: t in reg ==> forall perm :: perm in reg[t].permissions ==> perm in granted(t)
    requires forall t, u :: Inherits(reg, t, u) ==> granted(u) <= granted(t)
    ensures Closure(reg, s) <= granted(s)
  {
    forall perm | perm in Closure(reg, s) ensures perm in granted(s) {
      var t :| t in reg && Reaches(reg, s, t) && perm in reg[t].permissions;
      var p :| IsChain(reg, p) && p[0] == s && p[|p| - 1] == t;
      GrantedGrowsDownChain(reg, granted, p, |p| - 1);
    }
  }

  lemma {:induction false} GrantedGrowsDownChain(reg: Registry, granted: string -> set<string>, p: seq<string>, i: nat)
    requires IsChain(reg, p) && i < |p|
    requires forall t, u :: Inherits(reg, t, u) ==> granted(u) <= granted(t)
    ensures granted(p[i]) <= granted(p[0])
  {
    if i > 0 {
      GrantedGrowsDownChain(reg, granted, p, i - 1);
      assert Inherits(reg, p[i - 1], p[i]);
    }
  }

  // ---------------------------------------------------------------------
  // The manager
  // ---------------------------------------------------------------------

  /** The mutable set of names that one resolution passes to all its recursive calls. */
  class Visited {
    var names: set<string>

    constructor ()
      ensures names == {}
    {
      names := {};
    }
  }

  datatype CheckResult = CheckResult(allowed: bool, permission: string, checkedSets: seq<string>)

  /** The name under which a refusal or a blanket approval is reported. */
  function Joined(permissions: seq<string>): (r: string)
    ensures |permissions| == 1 ==> r == permissions[0]
  {
    if permissions == [] then ""
    else if |permissions| == 1 then permissions[0]
    else permissions[0] + "," + Joined(permissions[1..])
  }

  /** The registry a list of definitions amounts to. */
  function Indexed(defs: seq<PermissionSet>): Registry {
    if defs == [] then map[]
    else
      var last := defs[|defs| - 1];
      Indexed(defs[..|defs| - 1])[last.name := last]
  }

  /** Each defined name stands for its last definition. */
  lemma {:induction false} LastDefinitionWins(defs: seq<PermissionSet>, name: string)
    ensures name in Indexed(defs) <==> exists i :: 0 <= i < |defs| && defs[i].name == name
    ensures name in Indexed(defs) ==>
      exists i :: 0 <= i < |defs| && defs[i].name == name && Indexed(defs)[name] == defs[i]
        && forall j :: i < j < |defs| ==> defs[j].name != name
  {
    if defs != [] {
      var n := |defs| - 1;
      LastDefinitionWins(defs[..n], name);
      if defs[n].name != name && name in Indexed(defs[..n]) {
        var i :| 0 <= i < n && defs[..n][i].name == name && Indexed(defs[..n])[name] == defs[..n][i]
          && forall j :: i < j < n ==> defs[..n][j].name != name;
        assert defs[i].name == name && forall j :: i < j < n ==> defs[..n][j] == defs[j];
      }
    }
  }

  /** `perm` is the first of `permissions` whose being granted to the user is `wanted`. */
  ghost predicate FirstDecided(
    reg: Registry, userSets: seq<string>, permissions: seq<string>, perm: string, wanted: bool)
  {
    exists k :: 0 <= k < |permissions| && permissions[k] == perm && Granted(reg, userSets, perm) == wanted
      && forall j :: 0 <= j < k ==> Granted(reg, userSets, permissions[j]) != wanted
  }

  class PermissionManager {
    var sets: Registry

    constructor (permissionSets: seq<PermissionSet>)
      ensures sets == Indexed(permissionSets)
    {
      sets := map[];
      new;
      for k := 0 to |permissionSets|
        invariant sets == Indexed(permissionSets[..k])
      {
        assert permissionSets[..k + 1][..k] == permissionSets[..k];
        sets := sets[permissionSets[k].name := permissionSets[k]];
      }
      assert permissionSets[..|permissionSets|] == permissionSets;
    }

    method Register(permissionSet: PermissionSet)
      modifies this
      ensures sets == old(sets)[permissionSet.name := permissionSet]
    {
      sets := sets[permissionSet.name := permissionSet];
    }

    method Remove(name: string)
      modifies this
      ensures sets == old(sets) - {name}
    {
      sets := sets - {name};
    }

    /** `resolve_permissions` with a `visited` set handed in.  A call answers for exactly the names
        it is the first to visit; those are reachable from `setName`, and every parent of theirs
        has been visited by the time the call returns. */
    method ResolveInto(setName: string, visited: Visited) returns (permissions: set<string>)
      modifies visited
      ensures old(visited.names) + {setName} <= visited.names
      ensures forall t :: t in visited.names - old(visited.names) ==> Reaches(sets, setName, t)
      ensures forall t, u :: t in visited.names - old(visited.names) && Inherits(sets, t, u) ==> u in visited.names
      ensures permissions == PermissionsOf(sets, visited.names - old(visited.names))
      decreases sets.Keys - visited.names
    {
      if setName in visited.names {
        return {};
      }
      ghost var before := visited.names;
      visited.names := visited.names + {setName};
      ReachesSelf(sets, setName);
      if setName !in sets {
        return {};
      }
      var ps := sets[setName];
      permissions := set perm | perm in ps.permissions;
      for i := 0 to |ps.inheritFrom|
        invariant before + {setName} <= visited.names
        invariant forall j :: 0 <= j < i ==> ps.inheritFrom[j] in visited.names
        invariant forall t :: t in visited.names - before ==> Reaches(sets, setName, t)
        invariant forall t, u :: t in visited.names - before - {setName} && Inherits(sets, t, u) ==> u in visited.names
        invariant permissions == PermissionsOf(sets, visited.names - before)
      {
        ghost var sofar := visited.names;
        var parent := ps.inheritFrom[i];
        var inherited := ResolveInto(parent, visited);
        permissions := permissions + inherited;
        forall t | t in visited.names - sofar ensures Reaches(sets, setName, t) {
          ReachesThroughParent(sets, setName, parent, t);
        }
        assert visited.names - before == (sofar - before) + (visited.names - sofar);
      }
    }

    /** `resolve_permissions` as its callers use it: exactly the inherited closure. */
    method ResolvePermissions(setName: string) returns (permissions: set<string>)
      ensures permissions == Closure(sets, setName)
    {
      var visited := new Visited();
      permissions := ResolveInto(setName, visited);
      forall t | t in Ancestors(sets, setName) ensures t in visited.names {
        ClosedSetHoldsReachable(sets, visited.names, setName, t);
      }
      assert forall t :: t in sets ==> (t in visited.names <==> t in Ancestors(sets, setName));
    }

    /** Grants exactly when some assigned set holds or inherits the permission; reports the sets
        looked at, which end with the first one that grants it. */
    method CheckPermission(permission: string, userSets: seq<string>) returns (r: CheckResult)
      ensures r.permission == permission
      ensures r.allowed <==> Granted(sets, userSets, permission)
      ensures r.checkedSets <= userSets
      ensures !r.allowed ==> r.checkedSets == userSets
      ensures r.allowed ==> 0 < |r.checkedSets|
      ensures r.allowed ==> forall i :: 0 <= i < |r.checkedSets| ==>
        (permission in Closure(sets, r.checkedSets[i]) <==> i == |r.checkedSets| - 1)
    {
      var checked: seq<string> := [];
      for i := 0 to |userSets|
        invariant checked == userSets[..i]
        invariant forall j :: 0 <= j < i ==> permission !in Closure(sets, userSets[j])
      {
        checked := checked + [userSets[i]];
        var resolved := ResolvePermissions(userSets[i]);
        if permission in resolved {
          return CheckResult(true, permission, checked);
        }
      }
      return CheckResult(false, permission, checked);
    }

    /** Grants exactly when one of the permissions is granted by one of the sets, and then names
        the first such permission. */
    method CheckAnyPermission(permissions: seq<string>, userSets: seq<string>) returns (r: CheckResult)
      ensures r.allowed <==> exists perm :: perm in permissions && Granted(sets, userSets, perm)
      ensures r.allowed ==> FirstDecided(sets, userSets, permissions, r.permission, true)
      ensures !r.allowed ==> r.permission == Joined(permissions) && r.checkedSets == userSets
    {
      for k := 0 to |permissions|
        invariant forall j :: 0 <= j < k ==> !Granted(sets, userSets, permissions[j])
      {
        r := CheckPermission(permissions[k], userSets);
        if r.allowed {
          return;
        }
      }
      return CheckResult(false, Joined(permissions), userSets);
    }

    /** Grants exactly when every permission lies in the closure of some assigned set; a refusal
        names the first permission that lies in none. */
    method CheckAllPermissions(permissions: seq<string>, userSets: seq<string>) returns (r: CheckResult)
      ensures r.allowed <==> forall perm :: perm in permissions ==> Granted(sets, userSets, perm)
      ensures !r.allowed ==> FirstDecided(sets, userSets, permissions, r.permission, false)
      ensures r.allowed ==> r.permission == Joined(permissions)
      ensures r.checkedSets == userSets
    {
      for k := 0 to |permissions|
        invariant forall j :: 0 <= j < k ==> Granted(sets, userSets, permissions[j])
      {
        r := CheckPermission(permissions[k], userSets);
        if !r.allowed {
          return;
        }
      }
      return CheckResult(true, Joined(permissions), userSets);
    }
  }
}
