/**
 * Role assignment from directory mappings (includes/models/AuthModel.php):
 * which auth_mappings rows match a user's groups and DN, the login-time
 * assignment of the matched roles, and the synchronisation of user_roles
 * that adds matched roles and removes mapping-derived roles that no longer
 * match while keeping roles assigned by hand.
 *
 * users and auth_mappings are values passed in; user_roles, which the code
 * writes, is the state of a class.  Its (user_id, role_id) pairs are unique,
 * as the INSERT IGNORE of applyAuthMappingsAtLogin relies on, so it is a set.
 */
module AuthModel {
  import opened Wrappers
  import opened Text
  import opened Collections
  import opened Permissions

  /** A row of auth_mappings. */
  datatype Mapping = Mapping(id: int, source: string, dnOrGroup: string, roleId: int)

  /** A row of user_roles. */
  datatype UserRole = UserRole(userId: int, roleId: int)

  /** getUserIdByUsername: the normalised name, null when it is empty, else the lookup. */
  function UserIdOf(users: seq<UserRow>, username: Option<string>): Option<int> {
    var name := NormalizeUsername(username);
    if PhpEmpty(name) then None else UserIdByUsername(users, name)
  }

  /** Looking a user up by an already normalised name finds the same user. */
  lemma UserIdOfNormalized(users: seq<UserRow>, username: Option<string>)
    ensures UserIdOf(users, Some(NormalizeUsername(username))) == UserIdOf(users, username)
  {
    NormalizeIdempotent(username);
  }

  // ---------------------------------------------------------------------------
  // getRoleIdsFromMappings
  // ---------------------------------------------------------------------------

  function FromSource(authMethod: string): Mapping -> bool {
    (m: Mapping) => m.source == authMethod
  }

  /** SELECT ... FROM auth_mappings WHERE source = ? */
  function SourceMappings(mappings: seq<Mapping>, authMethod: string): seq<Mapping> {
    Filter(mappings, FromSource(authMethod))
  }

  /** Some comparable value equals the mapping's DN or group, ignoring case. */
  predicate ValueMatches(m: Mapping, values: seq<string>) {
    exists i :: 0 <= i < |values| && Lower(values[i]) == Lower(m.dnOrGroup)
  }

  /** For LDAP with a non-empty user DN, the DN may instead contain the mapped DN, ignoring case. */
  predicate DnMatches(m: Mapping, authMethod: string, userDn: string) {
    authMethod == "ldap" && !PhpEmpty(userDn) && ContainsIgnoreCase(userDn, m.dnOrGroup)
  }

  predicate MappingMatches(m: Mapping, authMethod: string, values: seq<string>, userDn: string) {
    ValueMatches(m, values) || DnMatches(m, authMethod, userDn)
  }

  /**
   * The matched role ids: the role of each matching mapping, in mapping
   * order, each id kept only the first time.
   */
  function RoleIdsFrom(ms: seq<Mapping>, authMethod: string, values: seq<string>, userDn: string): (r: seq<int>)
    ensures NoDuplicates(r)
    ensures forall x :: x in r ==> exists i :: 0 <= i < |ms| && MappingMatches(ms[i], authMethod, values, userDn) && ms[i].roleId == x
    ensures forall i :: 0 <= i < |ms| && MappingMatches(ms[i], authMethod, values, userDn) ==> ms[i].roleId in r
    decreases |ms|
  {
    if |ms| == 0 then []
    else
      var front := ms[..|ms| - 1];
      var m := ms[|ms| - 1];
      var prev := RoleIdsFrom(front, authMethod, values, userDn);
      assert forall i :: 0 <= i < |front| ==> front[i] == ms[i];
      if MappingMatches(m, authMethod, values, userDn) && m.roleId !in prev then prev + [m.roleId] else prev
  }

  function MatchedRoleIds(mappings: seq<Mapping>, authMethod: string, values: seq<string>, userDn: string): seq<int> {
    RoleIdsFrom(SourceMappings(mappings, authMethod), authMethod, values, userDn)
  }

  /**
   * First-match order: the ids matched by the first k mappings come first,
   * in the same order, whatever the later mappings add.
   */
  lemma {:induction false} RoleIdsPrefixStable(ms: seq<Mapping>, k: nat, authMethod: string, values: seq<string>, userDn: string)
    requires k <= |ms|
    ensures var whole := RoleIdsFrom(ms, authMethod, values, userDn);
      var part := RoleIdsFrom(ms[..k], authMethod, values, userDn);
      |part| <= |whole| && whole[..|part|] == part
    decreases |ms|
  {
    if k < |ms| {
      var front := ms[..|ms| - 1];
      RoleIdsPrefixStable(front, k, authMethod, values, userDn);
      assert front[..k] == ms[..k];
    } else {
      assert ms[..k] == ms;
    }
  }

  /** Without LDAP and a non-empty DN, only the comparable values can match. */
  lemma DnFallbackOnlyForLdap(m: Mapping, authMethod: string, values: seq<string>, userDn: string)
    requires authMethod != "ldap" || PhpEmpty(userDn)
    ensures MappingMatches(m, authMethod, values, userDn) <==> ValueMatches(m, values)
  {
  }

  /** The inner foreach over the comparable values, breaking at the first equal one. */
  method MatchValues(values: seq<string>, m: Mapping) returns (matches: bool)
    ensures matches == ValueMatches(m, values)
  {
    var mappingLower := Lower(m.dnOrGroup);
    matches := false;
    var k := 0;
    while k < |values|
      invariant 0 <= k <= |values|
      invariant !matches
      invariant forall i :: 0 <= i < k ==> Lower(values[i]) != mappingLower
    {
      if Lower(values[k]) == mappingLower {
        matches := true;
        return;
      }
      k := k + 1;
    }
  }

  /** The outer foreach over the source's mappings, appending each new matched role id. */
  method GetRoleIdsFromMappings(mappings: seq<Mapping>, authMethod: string, values: seq<string>, userDn: string)
    returns (matched: seq<int>)
    ensures matched == MatchedRoleIds(mappings, authMethod, values, userDn)
  {
    var ms := SourceMappings(mappings, authMethod);
    matched := [];
    var i := 0;
    while i < |ms|
      invariant 0 <= i <= |ms|
      invariant matched == RoleIdsFrom(ms[..i], authMethod, values, userDn)
    {
      var m := ms[i];
      var matches := MatchValues(values, m);
      if !matches && authMethod == "ldap" && !PhpEmpty(userDn) {
        if Contains(Lower(userDn), Lower(m.dnOrGroup)) {
          matches := true;
        }
      }
      assert ms[..i + 1][..i] == ms[..i];
      if matches && m.roleId !in matched {
        matched := matched + [m.roleId];
      }
      i := i + 1;
    }
    assert ms[..|ms|] == ms;
  }

  // ---------------------------------------------------------------------------
  // applyAuthMappingsAtLogin and syncUserRolesWithMappings
  // ---------------------------------------------------------------------------

  /** The user_roles rows pairing one user with each of the given roles. */
  function PairsOf(userId: int, roleIds: seq<int>): (p: set<UserRole>)
    ensures forall a :: a in p <==> a.userId == userId && a.roleId in roleIds
    decreases |roleIds|
  {
    if |roleIds| == 0 then {}
    else
      var front := roleIds[..|roleIds| - 1];
      assert forall x :: x in roleIds <==> x in front || x == roleIds[|roleIds| - 1];
      PairsOf(userId, front) + {UserRole(userId, roleIds[|roleIds| - 1])}
  }

  /** The login result: the applied role ids and the new user_roles. */
  datatype Login = Login(applied: seq<int>, assignments: set<UserRole>)

  /** applyAuthMappingsAtLogin as a function of the tables and the arguments. */
  function LoginResult(assignments: set<UserRole>, users: seq<UserRow>, mappings: seq<Mapping>, username: Option<string>,
                       authMethod: string, groups: seq<string>, userDn: string): Login
  {
    var name := NormalizeUsername(username);
    var userId := UserIdOf(users, Some(name));
    if PhpEmpty(name) || !IsSetId(userId) then Login([], assignments)
    else
      var matched := MatchedRoleIds(mappings, authMethod, groups, userDn);
      Login(matched, assignments + PairsOf(userId.value, matched))
  }

  /**
   * An empty name or an unknown user applies nothing; otherwise every matched
   * role is assigned, each reported once, and no other assignment changes.
   */
  lemma LoginAssignsMatched(assignments: set<UserRole>, users: seq<UserRow>, mappings: seq<Mapping>, username: Option<string>,
                            authMethod: string, groups: seq<string>, userDn: string)
    ensures var r := LoginResult(assignments, users, mappings, username, authMethod, groups, userDn);
      var userId := UserIdOf(users, username);
      (PhpEmpty(NormalizeUsername(username)) || !IsSetId(userId) ==> r.applied == [] && r.assignments == assignments)
      && NoDuplicates(r.applied)
      && assignments <= r.assignments
      && (IsSetId(userId) ==> forall x :: x in r.applied ==> UserRole(userId.value, x) in r.assignments)
      && (forall a :: a in r.assignments && a !in assignments ==> userId.Some? && a.userId == userId.value && a.roleId in r.applied)
  {
    UserIdOfNormalized(users, username);
  }

  /** The sync result: success, and the new user_roles. */
  datatype Sync = Sync(ok: bool, assignments: set<UserRole>)

  /** The roles some mapping of this source hands out. */
  function MappingRoleIds(mappings: seq<Mapping>, authMethod: string): set<int> {
    set m | m in mappings && m.source == authMethod :: m.roleId
  }

  /** SELECT role_id FROM user_roles WHERE user_id = ? */
  function CurrentRoleIds(assignments: set<UserRole>, userId: int): (r: set<int>)
    ensures forall x :: x in r <==> UserRole(userId, x) in assignments
  {
    set a | a in assignments && a.userId == userId :: a.roleId
  }

  /** An assignment sync takes away: the user's, handed out by a mapping of the source, and not matched. */
  predicate Stale(a: UserRole, userId: int, mappingRoles: set<int>, matched: seq<int>) {
    a.userId == userId && a.roleId in mappingRoles && a.roleId !in matched
  }

  /** syncUserRolesWithMappings as a function of the tables and the arguments. */
  function SyncResult(assignments: set<UserRole>, users: seq<UserRow>, mappings: seq<Mapping>, username: Option<string>,
                      authMethod: string, matched: seq<int>): Sync
  {
    var userId := UserIdOf(users, Some(NormalizeUsername(username)));
    if !IsSetId(userId) then Sync(false, assignments)
    else
      var u := userId.value;
      var mappingRoles := MappingRoleIds(mappings, authMethod);
      Sync(true, set a | a in assignments + PairsOf(u, matched) && !Stale(a, u, mappingRoles, matched))
  }

  /**
   * After a successful sync every matched role is assigned; an assignment
   * disappears only if it is the user's, handed out by a mapping of this
   * source, and not matched; and only the user's matched roles are added.
   */
  lemma SyncEffect(assignments: set<UserRole>, users: seq<UserRow>, mappings: seq<Mapping>, username: Option<string>,
                   authMethod: string, matched: seq<int>)
    ensures var r := SyncResult(assignments, users, mappings, username, authMethod, matched);
      var userId := UserIdOf(users, username);
      (r.ok <==> IsSetId(userId))
      && (!r.ok ==> r.assignments == assignments)
      && (r.ok ==> forall x :: x in matched ==> UserRole(userId.value, x) in r.assignments)
      && (forall a :: a in assignments && a !in r.assignments ==>
            a.userId == userId.value && a.roleId in MappingRoleIds(mappings, authMethod) && a.roleId !in matched)
      && (forall a :: a in r.assignments && a !in assignments ==> a.userId == userId.value && a.roleId in matched)
  {
    UserIdOfNormalized(users, username);
  }

  /** Roles no mapping of the source hands out, such as roles assigned by hand, survive every sync. */
  lemma SyncKeepsManualRoles(assignments: set<UserRole>, users: seq<UserRow>, mappings: seq<Mapping>, username: Option<string>,
                             authMethod: string, matched: seq<int>, a: UserRole)
    requires a in assignments && a.roleId !in MappingRoleIds(mappings, authMethod)
    ensures a in SyncResult(assignments, users, mappings, username, authMethod, matched).assignments
  {
    SyncEffect(assignments, users, mappings, username, authMethod, matched);
  }

  class UserRoleStore {
    var assignments: set<UserRole>

    constructor(assignments: set<UserRole>)
      ensures this.assignments == assignments
    {
      this.assignments := assignments;
    }

    /** Look the user up, match the mappings, then INSERT IGNORE each matched role. */
    method ApplyAuthMappingsAtLogin(users: seq<UserRow>, mappings: seq<Mapping>, username: Option<string>,
                                    authMethod: string, groups: seq<string>, userDn: string)
      returns (applied: seq<int>)
      modifies this
      ensures Login(applied, assignments)
        == LoginResult(old(assignments), users, mappings, username, authMethod, groups, userDn)
    {
      var name := NormalizeUsername(username);
      if PhpEmpty(name) {
        return [];
      }
      var userId := UserIdOf(users, Some(name));
      if !IsSetId(userId) {
        return [];
      }
      var matched := GetRoleIdsFromMappings(mappings, authMethod, groups, userDn);
      if |matched| == 0 {
        return [];
      }
      applied := AssignRoles(userId.value, matched);
    }

    /** The foreach of applyAuthMappingsAtLogin: INSERT IGNORE of each role, collecting the applied ids. */
    method AssignRoles(userId: int, roleIds: seq<int>) returns (applied: seq<int>)
      modifies this
      ensures applied == roleIds
      ensures assignments == old(assignments) + PairsOf(userId, roleIds)
    {
      applied := [];
      var i := 0;
      while i < |roleIds|
        invariant 0 <= i <= |roleIds|
        invariant applied == roleIds[..i]
        invariant assignments == old(assignments) + PairsOf(userId, roleIds[..i])
      {
        assignments := assignments + {UserRole(userId, roleIds[i])};
        applied := applied + [roleIds[i]];
        assert roleIds[..i + 1][..i] == roleIds[..i];
        i := i + 1;
      }
      assert roleIds[..|roleIds|] == roleIds;
    }

    /** Add the matched roles the user lacks, then drop the stale mapping-derived ones. */
    method SyncUserRolesWithMappings(users: seq<UserRow>, mappings: seq<Mapping>, username: Option<string>,
                                     authMethod: string, matched: seq<int>)
      returns (ok: bool)
      modifies this
      ensures Sync(ok, assignments) == SyncResult(old(assignments), users, mappings, username, authMethod, matched)
    {
      var userId := UserIdOf(users, Some(NormalizeUsername(username)));
      if !IsSetId(userId) {
        return false;
      }
      var u := userId.value;
      var mappingRoles := MappingRoleIds(mappings, authMethod);
      var current := CurrentRoleIds(assignments, u);
      var currentRows := set a | a in assignments && a.userId == u;
      AddMissingRoles(u, matched, current);
      RemoveStaleRoles(u, currentRows, mappingRoles, matched);
      assert assignments == set a | a in old(assignments) + PairsOf(u, matched) && !Stale(a, u, mappingRoles, matched);
      return true;
    }

    /** The first foreach of the sync: insert each matched role not among the user's current ones. */
    method AddMissingRoles(userId: int, matched: seq<int>, current: set<int>)
      requires forall x :: x in current ==> UserRole(userId, x) in assignments
      modifies this
      ensures assignments == old(assignments) + PairsOf(userId, matched)
    {
      var i := 0;
      while i < |matched|
        invariant 0 <= i <= |matched|
        invariant assignments == old(assignments) + PairsOf(userId, matched[..i])
      {
        if matched[i] !in current {
          assignments := assignments + {UserRole(userId, matched[i])};
        }
        assert matched[..i + 1][..i] == matched[..i];
        i := i + 1;
      }
      assert matched[..|matched|] == matched;
    }

    /**
     * The second foreach of the sync, over the user's rows read before the
     * first: delete each one a mapping hands out but the login did not match.
     */
    method RemoveStaleRoles(userId: int, current: set<UserRole>, mappingRoles: set<int>, matched: seq<int>)
      requires forall a :: a in current ==> a.userId == userId
      requires forall a :: a in assignments && Stale(a, userId, mappingRoles, matched) ==> a in current
      modifies this
      ensures forall a :: a in assignments <==> a in old(assignments) && !Stale(a, userId, mappingRoles, matched)
    {
      var todo := current;
      while todo != {}
        invariant todo <= current
        invariant forall a :: a in assignments <==> a in old(assignments) && !(Stale(a, userId, mappingRoles, matched) && a !in todo)
        decreases |todo|
      {
        var row :| row in todo;
        if row.roleId in mappingRoles && row.roleId !in matched {
          assignments := assignments - {UserRole(userId, row.roleId)};
        }
        todo := todo - {row};
      }
    }
  }
}
