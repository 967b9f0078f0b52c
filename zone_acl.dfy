/**
 * Zone access control over the zone_acl_entries table
 * (includes/models/ZoneAcl.php): isAllowed, getPermission and the upsert of
 * addEntry.  Unlike Acl.php, a 'user' entry holds a user id and matches by
 * integer equality.
 *
 * The users and roles tables are values passed in; zone_acl_entries is the
 * state of a class.  Timestamps are not modelled.
 */
module ZoneAcl {
  import opened Wrappers
  import opened Text
  import opened Collections
  import opened Permissions

  datatype ZoneAclRow = ZoneAclRow(
    id: int,
    zoneFileId: int,
    subjectType: string,
    subjectIdentifier: string,
    permission: string,
    createdBy: int)

  /** $userCtx: ['id' => ..., 'roles' => role names], with ?? null and ?? [] already applied. */
  datatype UserCtx = UserCtx(id: Option<int>, roles: seq<string>)

  // ---------------------------------------------------------------------------
  // isAllowed and getPermission
  // ---------------------------------------------------------------------------

  function InZone(zoneId: int): ZoneAclRow -> bool {
    (e: ZoneAclRow) => e.zoneFileId == zoneId
  }

  /** SELECT ... FROM zone_acl_entries WHERE zone_file_id = ? */
  function ZoneEntries(rows: seq<ZoneAclRow>, zoneId: int): seq<ZoneAclRow> {
    Filter(rows, InZone(zoneId))
  }

  /** The switch on subject_type: user id by (int) cast, role by name, AD group by the group test. */
  predicate EntryMatches(e: ZoneAclRow, ctx: UserCtx, groups: seq<string>) {
    match e.subjectType
    case "user" => PhpIntval(e.subjectIdentifier) == ctx.id.GetOr(0)
    case "role" => e.subjectIdentifier in ctx.roles
    case "ad_group" => GroupMatches(groups, e.subjectIdentifier)
    case _ => false
  }

  function Grant(e: ZoneAclRow, ctx: UserCtx, groups: seq<string>): nat {
    if EntryMatches(e, ctx, groups) then Level(e.permission) else 0
  }

  function GrantTo(ctx: UserCtx, groups: seq<string>): ZoneAclRow -> nat {
    (e: ZoneAclRow) => Grant(e, ctx, groups)
  }

  /** Both checks start by requiring a truthy user id and zone id. */
  predicate Guards(ctx: UserCtx, zoneId: int) {
    IsSetId(ctx.id) && zoneId != 0
  }

  /** isAllowed as a function of the table and the arguments. */
  predicate Allowed(rows: seq<ZoneAclRow>, ctx: UserCtx, zoneId: int, required: string, groups: seq<string>) {
    Guards(ctx, zoneId) && MaxGrant(ZoneEntries(rows, zoneId), GrantTo(ctx, groups)) >= RequiredLevel(required)
  }

  /** getPermission as a function of the table and the arguments. */
  function PermissionOf(rows: seq<ZoneAclRow>, ctx: UserCtx, zoneId: int, groups: seq<string>): Option<string> {
    if !Guards(ctx, zoneId) then None
    else
      var entries := ZoneEntries(rows, zoneId);
      match BestIndex(entries, GrantTo(ctx, groups))
      case Some(k) => Some(entries[k].permission)
      case None => None
  }

  /**
   * isAllowed(u, z, r) holds iff getPermission(u, z) is a permission whose
   * level reaches the level r requires: both compute the same maximum.
   */
  lemma AllowedIffPermission(rows: seq<ZoneAclRow>, ctx: UserCtx, zoneId: int, required: string, groups: seq<string>)
    ensures Allowed(rows, ctx, zoneId, required, groups) <==>
      var p := PermissionOf(rows, ctx, zoneId, groups);
      p.Some? && Level(p.value) >= RequiredLevel(required)
  {
  }

  /**
   * getPermission is null exactly when a guard fails or no entry of the zone
   * matches with a known permission; otherwise it is the permission of the
   * first matching entry of highest level.
   */
  lemma PermissionIsFirstHighest(rows: seq<ZoneAclRow>, ctx: UserCtx, zoneId: int, groups: seq<string>)
    ensures var entries := ZoneEntries(rows, zoneId);
      var p := PermissionOf(rows, ctx, zoneId, groups);
      (p.None? <==> !Guards(ctx, zoneId)
                    || forall i :: 0 <= i < |entries| && EntryMatches(entries[i], ctx, groups) ==> Level(entries[i].permission) == 0)
      && (p.Some? ==> exists k :: (0 <= k < |entries| && EntryMatches(entries[k], ctx, groups) && entries[k].permission == p.value
            && (forall i :: 0 <= i < |entries| && EntryMatches(entries[i], ctx, groups) ==> Level(entries[i].permission) <= Level(p.value))
            && (forall j :: 0 <= j < k && EntryMatches(entries[j], ctx, groups) ==> Level(entries[j].permission) < Level(p.value))))
  {
    var entries := ZoneEntries(rows, zoneId);
    var g := GrantTo(ctx, groups);
    var p := PermissionOf(rows, ctx, zoneId, groups);
    if Guards(ctx, zoneId) {
      var m := MaxGrant(entries, g);
      if m == 0 {
        forall i | 0 <= i < |entries| && EntryMatches(entries[i], ctx, groups)
          ensures Level(entries[i].permission) == 0
        {
          assert g(entries[i]) <= m;
        }
      } else {
        var k := BestIndex(entries, g).value;
        assert g(entries[k]) == m;
        forall i | 0 <= i < |entries| && EntryMatches(entries[i], ctx, groups)
          ensures Level(entries[i].permission) <= Level(p.value)
        {
          assert g(entries[i]) <= m;
        }
        forall j | 0 <= j < k && EntryMatches(entries[j], ctx, groups)
          ensures Level(entries[j].permission) < Level(p.value)
        {
          assert g(entries[j]) < m;
        }
        assert !(forall i :: 0 <= i < |entries| && EntryMatches(entries[i], ctx, groups) ==> Level(entries[i].permission) == 0);
      }
    }
  }

  /** A 'user' entry holding the decimal form of the user's id matches that user. */
  lemma UserEntryMatchesById(e: ZoneAclRow, ctx: UserCtx, groups: seq<string>, n: nat)
    requires e.subjectType == "user" && e.subjectIdentifier == DecimalString(n) && ctx.id == Some(n)
    ensures EntryMatches(e, ctx, groups)
  {
    IntvalOfDecimal(n);
  }

  /**
   * A 'user' entry whose identifier casts to 0, such as a user name, matches
   * no user the checks let through.
   */
  lemma UserNameEntryNeverMatches(e: ZoneAclRow, ctx: UserCtx, groups: seq<string>)
    requires e.subjectType == "user" && PhpIntval(e.subjectIdentifier) == 0 && IsSetId(ctx.id)
    ensures !EntryMatches(e, ctx, groups)
  {
  }

  /** The switch of one loop pass; the AD-group branch is the foreach over the user's groups. */
  method MatchEntry(entry: ZoneAclRow, ctx: UserCtx, groups: seq<string>) returns (matches: bool)
    requires IsSetId(ctx.id)
    ensures matches == EntryMatches(entry, ctx, groups)
  {
    matches := false;
    if entry.subjectType == "user" {
      if PhpIntval(entry.subjectIdentifier) == ctx.id.value {
        matches := true;
      }
    } else if entry.subjectType == "role" {
      if entry.subjectIdentifier in ctx.roles {
        matches := true;
      }
    } else if entry.subjectType == "ad_group" {
      matches := MatchGroups(groups, entry.subjectIdentifier);
    }
  }

  // ---------------------------------------------------------------------------
  // addEntry
  // ---------------------------------------------------------------------------

  /** A 'user' must name an existing user id, a 'role' an existing role name; AD groups are free text. */
  predicate SubjectExists(users: seq<UserRow>, roles: seq<RoleRow>, subjectType: string, identifier: string) {
    (subjectType == "user" ==> UserById(users, PhpIntval(identifier)).Some?)
    && (subjectType == "role" ==> RoleByName(roles, identifier).Some?)
  }

  /** The upsert key, compared exactly. */
  predicate SameKey(row: ZoneAclRow, zoneId: int, subjectType: string, identifier: string) {
    row.zoneFileId == zoneId && row.subjectType == subjectType && row.subjectIdentifier == identifier
  }

  function FindKey(rows: seq<ZoneAclRow>, zoneId: int, subjectType: string, identifier: string): (k: Option<nat>)
    ensures k.Some? ==> k.value < |rows| && SameKey(rows[k.value], zoneId, subjectType, identifier)
    ensures k.None? ==> forall i :: 0 <= i < |rows| ==> !SameKey(rows[i], zoneId, subjectType, identifier)
  {
    if |rows| == 0 then None
    else if SameKey(rows[0], zoneId, subjectType, identifier) then Some(0)
    else
      match FindKey(rows[1..], zoneId, subjectType, identifier)
      case None => None
      case Some(k) => Some(k + 1)
  }

  /** The returned id, the new table and the next auto-increment id. */
  datatype AddResult = AddResult(id: Option<int>, rows: seq<ZoneAclRow>, nextId: int)

  /** addEntry as a function of the tables, the next id and the arguments. */
  function AddEntryResult(rows: seq<ZoneAclRow>, nextId: int, users: seq<UserRow>, roles: seq<RoleRow>, zoneId: int,
                          subjectType: string, identifier: string, permission: string, createdBy: int): AddResult
  {
    if !IsSubjectType(subjectType) || !IsPermission(permission) || !SubjectExists(users, roles, subjectType, identifier) then
      AddResult(None, rows, nextId)
    else
      match FindKey(rows, zoneId, subjectType, identifier)
      case Some(k) =>
        AddResult(Some(rows[k].id), rows[k := rows[k].(permission := permission, createdBy := createdBy)], nextId)
      case None =>
        AddResult(Some(nextId), rows + [ZoneAclRow(nextId, zoneId, subjectType, identifier, permission, createdBy)], nextId + 1)
  }

  /**
   * addEntry fails, leaving the table as it was, exactly for an invalid
   * subject type or permission, a 'user' id with no user, or a 'role' name
   * with no role.
   */
  lemma AddEntryRejects(rows: seq<ZoneAclRow>, nextId: int, users: seq<UserRow>, roles: seq<RoleRow>, zoneId: int,
                        subjectType: string, identifier: string, permission: string, createdBy: int)
    ensures var r := AddEntryResult(rows, nextId, users, roles, zoneId, subjectType, identifier, permission, createdBy);
      (r.id.None? <==> !IsSubjectType(subjectType) || !IsPermission(permission)
                        || (subjectType == "user" && forall u :: u in users ==> u.id != PhpIntval(identifier))
                        || (subjectType == "role" && forall x :: x in roles ==> x.name != identifier))
      && (r.id.None? ==> r.rows == rows && r.nextId == nextId)
  {
    if subjectType == "user" && UserById(users, PhpIntval(identifier)).Some? {
      var u := UserById(users, PhpIntval(identifier)).value;
      assert u in users && u.id == PhpIntval(identifier);
    }
    if subjectType == "role" && RoleByName(roles, identifier).Some? {
      var x := RoleByName(roles, identifier).value;
      assert x in roles && x.name == identifier;
    }
  }

  /**
   * An accepted entry updates the row with the same zone, type and
   * identifier, returning its id and leaving every other row alone, or else
   * appends a new row under the next id.  Either way the zone now grants the
   * subject exactly the new permission through that row.
   */
  lemma AddEntryUpserts(rows: seq<ZoneAclRow>, nextId: int, users: seq<UserRow>, roles: seq<RoleRow>, zoneId: int,
                        subjectType: string, identifier: string, permission: string, createdBy: int)
    requires IsSubjectType(subjectType) && IsPermission(permission) && SubjectExists(users, roles, subjectType, identifier)
    ensures var r := AddEntryResult(rows, nextId, users, roles, zoneId, subjectType, identifier, permission, createdBy);
      match FindKey(rows, zoneId, subjectType, identifier)
      case Some(k) =>
        r.id == Some(rows[k].id) && |r.rows| == |rows| && r.nextId == nextId
        && r.rows[k].permission == permission && SameKey(r.rows[k], zoneId, subjectType, identifier)
        && forall i :: 0 <= i < |rows| && i != k ==> r.rows[i] == rows[i]
      case None =>
        r.id == Some(nextId) && r.rows[..|rows|] == rows && |r.rows| == |rows| + 1 && r.nextId == nextId + 1
        && r.rows[|rows|].permission == permission && SameKey(r.rows[|rows|], zoneId, subjectType, identifier)
  {
    var r := AddEntryResult(rows, nextId, users, roles, zoneId, subjectType, identifier, permission, createdBy);
    if FindKey(rows, zoneId, subjectType, identifier).None? {
      assert r.rows == rows + [r.rows[|rows|]];
    }
  }

  /** No two rows share a (zone, type, identifier) key. */
  predicate UniqueKeys(rows: seq<ZoneAclRow>) {
    forall i, j :: 0 <= i < j < |rows| ==> !SameKey(rows[j], rows[i].zoneFileId, rows[i].subjectType, rows[i].subjectIdentifier)
  }

  /** addEntry keeps the keys unique. */
  lemma AddEntryKeepsKeysUnique(rows: seq<ZoneAclRow>, nextId: int, users: seq<UserRow>, roles: seq<RoleRow>, zoneId: int,
                                subjectType: string, identifier: string, permission: string, createdBy: int)
    requires UniqueKeys(rows)
    ensures UniqueKeys(AddEntryResult(rows, nextId, users, roles, zoneId, subjectType, identifier, permission, createdBy).rows)
  {
    var r := AddEntryResult(rows, nextId, users, roles, zoneId, subjectType, identifier, permission, createdBy);
    if r.id.Some? {
      match FindKey(rows, zoneId, subjectType, identifier)
      case Some(k) =>
        forall i, j | 0 <= i < j < |r.rows|
          ensures !SameKey(r.rows[j], r.rows[i].zoneFileId, r.rows[i].subjectType, r.rows[i].subjectIdentifier)
        {
          assert SameKey(r.rows[j], r.rows[i].zoneFileId, r.rows[i].subjectType, r.rows[i].subjectIdentifier)
            == SameKey(rows[j], rows[i].zoneFileId, rows[i].subjectType, rows[i].subjectIdentifier);
        }
      case None =>
        forall i, j | 0 <= i < j < |r.rows|
          ensures !SameKey(r.rows[j], r.rows[i].zoneFileId, r.rows[i].subjectType, r.rows[i].subjectIdentifier)
        {
          if j == |rows| {
            assert !SameKey(rows[i], zoneId, subjectType, identifier);
            assert r.rows[i] == rows[i];
          } else {
            assert r.rows[i] == rows[i] && r.rows[j] == rows[j];
          }
        }
    }
  }

  // ---------------------------------------------------------------------------
  // The zone_acl_entries table
  // ---------------------------------------------------------------------------

  class ZoneAclStore {
    var rows: seq<ZoneAclRow>
    /** The id the next insert receives (lastInsertId). */
    var nextId: int

    constructor(rows: seq<ZoneAclRow>, nextId: int)
      ensures this.rows == rows && this.nextId == nextId
    {
      this.rows := rows;
      this.nextId := nextId;
    }

    /** The foreach over the zone's entries keeping the highest matching level. */
    method IsAllowed(ctx: UserCtx, zoneId: int, required: string, groups: seq<string>) returns (allowed: bool)
      ensures allowed == Allowed(rows, ctx, zoneId, required, groups)
    {
      var requiredLevel := RequiredLevel(required);
      if !IsSetId(ctx.id) || zoneId == 0 {
        return false;
      }
      var entries := ZoneEntries(rows, zoneId);
      var maxLevel := 0;
      var i := 0;
      while i < |entries|
        invariant 0 <= i <= |entries|
        invariant maxLevel == MaxGrant(entries[..i], GrantTo(ctx, groups))
      {
        var entry := entries[i];
        var level := Level(entry.permission);
        var matches := MatchEntry(entry, ctx, groups);
        if matches && level > maxLevel {
          maxLevel := level;
        }
        assert entries[..i + 1][..i] == entries[..i];
        i := i + 1;
      }
      assert entries[..|entries|] == entries;
      return maxLevel >= requiredLevel;
    }

    /** The same loop, also remembering the permission that set the maximum. */
    method GetPermission(ctx: UserCtx, zoneId: int, groups: seq<string>) returns (permission: Option<string>)
      ensures permission == PermissionOf(rows, ctx, zoneId, groups)
    {
      if !IsSetId(ctx.id) || zoneId == 0 {
        return None;
      }
      var entries := ZoneEntries(rows, zoneId);
      var g := GrantTo(ctx, groups);
      var maxLevel := 0;
      permission := None;
      var i := 0;
      while i < |entries|
        invariant 0 <= i <= |entries|
        invariant maxLevel == MaxGrant(entries[..i], g)
        invariant permission == match BestIndex(entries[..i], g) case Some(k) => Some(entries[k].permission) case None => None
      {
        var entry := entries[i];
        var level := Level(entry.permission);
        var matches := MatchEntry(entry, ctx, groups);
        MaxGrantStep(entries, i, g);
        assert g(entry) > maxLevel <==> matches && level > maxLevel;
        if matches && level > maxLevel {
          maxLevel := level;
          permission := Some(entry.permission);
        }
        i := i + 1;
      }
      assert entries[..|entries|] == entries;
    }

    /** Validate, check the subject exists, then update the keyed row or insert a new one. */
    method AddEntry(users: seq<UserRow>, roles: seq<RoleRow>, zoneId: int, subjectType: string, identifier: string,
                    permission: string, createdBy: int)
      returns (id: Option<int>)
      modifies this
      ensures AddResult(id, rows, nextId)
        == AddEntryResult(old(rows), old(nextId), users, roles, zoneId, subjectType, identifier, permission, createdBy)
    {
      if !IsSubjectType(subjectType) || !IsPermission(permission) {
        return None;
      }
      if subjectType == "user" && UserById(users, PhpIntval(identifier)).None? {
        return None;
      }
      if subjectType == "role" && RoleByName(roles, identifier).None? {
        return None;
      }
      var existing := FindKey(rows, zoneId, subjectType, identifier);
      if existing.Some? {
        var k := existing.value;
        id := Some(rows[k].id);
        rows := rows[k := rows[k].(permission := permission, createdBy := createdBy)];
        return;
      }
      id := Some(nextId);
      rows := rows + [ZoneAclRow(nextId, zoneId, subjectType, identifier, permission, createdBy)];
      nextId := nextId + 1;
    }
  }
}
