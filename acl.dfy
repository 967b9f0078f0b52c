/**
 * Zone access control over the acl_entries table (includes/models/Acl.php):
 * the permission check of isAllowedForZone and the upsert of addEntry.
 *
 * The tables the model reads are values passed in (users, the user's roles
 * as user_roles joined with roles, and roles); acl_entries, which addEntry
 * writes, is the state of a class.  Timestamps (created_at = NOW()) are not
 * modelled.
 */
module Acl {
  import opened Wrappers
  import opened Text
  import opened Collections
  import opened Permissions

  /** A row of acl_entries: new-schema subject, legacy columns and bookkeeping. */
  datatype AclRow = AclRow(
    id: int,
    zoneFileId: Option<int>,
    resourceType: Option<string>,
    resourceId: Option<int>,
    subjectType: Option<string>,
    subjectIdentifier: Option<string>,
    permission: string,
    userId: Option<int>,
    roleId: Option<int>,
    createdBy: int,
    status: string)

  /** A row of user_roles joined with its role. */
  datatype UserRoleRow = UserRoleRow(userId: int, roleId: int, roleName: string)

  /** The read-only tables: users, user_roles joined with roles, and roles. */
  datatype Directory = Directory(users: seq<UserRow>, userRoles: seq<UserRoleRow>, roles: seq<RoleRow>)

  /** PHP truthiness of a column holding a string: present, and neither '' nor '0'. */
  predicate Truthy(s: Option<string>) {
    s.Some? && !PhpEmpty(s.value)
  }

  // ---------------------------------------------------------------------------
  // isAllowedForZone
  // ---------------------------------------------------------------------------

  /** What the check knows about the user once the lookups are done. */
  datatype Subject = Subject(
    username: string,
    userId: Option<int>,
    roleNames: seq<string>,
    roleIds: seq<int>,
    groups: seq<string>)

  function BelongsTo(userId: int): UserRoleRow -> bool {
    (r: UserRoleRow) => r.userId == userId
  }

  /** The lookups: the user id by name and, when there is one, the user's role names and ids. */
  function SubjectFor(dir: Directory, username: string, groups: seq<string>): Subject {
    var userId := UserIdByUsername(dir.users, username);
    var roles := if IsSetId(userId) then Filter(dir.userRoles, BelongsTo(userId.value)) else [];
    Subject(username, userId,
      seq(|roles|, i requires 0 <= i < |roles| => roles[i].roleName),
      seq(|roles|, i requires 0 <= i < |roles| => roles[i].roleId),
      groups)
  }

  /** WHERE zone_file_id = ? OR (resource_type = 'zone' AND resource_id = ?) */
  function ForZone(zoneId: int): AclRow -> bool {
    (e: AclRow) => e.zoneFileId == Some(zoneId) || (e.resourceType == Some("zone") && e.resourceId == Some(zoneId))
  }

  function ZoneEntries(rows: seq<AclRow>, zoneId: int): seq<AclRow> {
    Filter(rows, ForZone(zoneId))
  }

  /** The new-schema match, tried only when both subject columns are truthy. */
  predicate SubjectMatches(e: AclRow, s: Subject) {
    Truthy(e.subjectType) && Truthy(e.subjectIdentifier) &&
    var identifier := e.subjectIdentifier.value;
    match e.subjectType.value
    case "user" => NormalizeUsername(Some(identifier)) == s.username
    case "role" => identifier in s.roleNames
    case "ad_group" => GroupMatches(s.groups, identifier)
    case _ => false
  }

  /** The legacy columns: the user's own id, or one of the user's role ids. */
  predicate LegacyMatches(e: AclRow, s: Subject) {
    (IsSetId(e.userId) && IsSetId(s.userId) && e.userId.value == s.userId.value)
    || (IsSetId(e.roleId) && e.roleId.value in s.roleIds)
  }

  predicate EntryMatches(e: AclRow, s: Subject) {
    SubjectMatches(e, s) || LegacyMatches(e, s)
  }

  /** The level an entry grants the subject: its permission's level when it matches, else 0. */
  function Grant(e: AclRow, s: Subject): nat {
    if EntryMatches(e, s) then Level(e.permission) else 0
  }

  function GrantTo(s: Subject): AclRow -> nat {
    (e: AclRow) => Grant(e, s)
  }

  /** isAllowedForZone as a function of the tables and the arguments. */
  predicate AllowedForZone(dir: Directory, rows: seq<AclRow>, username: Option<string>, zoneId: int,
                           required: string, groups: seq<string>)
  {
    var name := NormalizeUsername(username);
    !PhpEmpty(name) && zoneId != 0
    && MaxGrant(ZoneEntries(rows, zoneId), GrantTo(SubjectFor(dir, name, groups))) >= RequiredLevel(required)
  }

  /**
   * Access is granted iff the name is not empty, the zone id is set, and some
   * entry of the zone matches the user with a level at least the required one.
   */
  lemma AllowedIff(dir: Directory, rows: seq<AclRow>, username: Option<string>, zoneId: int,
                   required: string, groups: seq<string>)
    ensures AllowedForZone(dir, rows, username, zoneId, required, groups) <==>
      var name := NormalizeUsername(username);
      !PhpEmpty(name) && zoneId != 0 &&
      exists i :: 0 <= i < |rows| && ForZone(zoneId)(rows[i]) && EntryMatches(rows[i], SubjectFor(dir, name, groups))
        && Level(rows[i].permission) >= RequiredLevel(required)
  {
    var name := NormalizeUsername(username);
    var s := SubjectFor(dir, name, groups);
    var n := RequiredLevel(required);
    MaxOverFilterReaches(rows, ForZone(zoneId), GrantTo(s), n);
    assert forall e :: GrantTo(s)(e) >= n <==> EntryMatches(e, s) && Level(e.permission) >= n;
  }

  /** The best grant among the kept items reaches a positive level iff some kept item reaches it. */
  lemma MaxOverFilterReaches<E>(items: seq<E>, keep: E -> bool, grant: E -> nat, n: nat)
    requires n > 0
    ensures MaxGrant(Filter(items, keep), grant) >= n <==>
      exists i :: 0 <= i < |items| && keep(items[i]) && grant(items[i]) >= n
  {
    var kept := Filter(items, keep);
    var m := MaxGrant(kept, grant);
    if m >= n {
      var k :| 0 <= k < |kept| && grant(kept[k]) == m;
      assert kept[k] in items;
      var i :| 0 <= i < |items| && items[i] == kept[k];
    }
    if exists i :: 0 <= i < |items| && keep(items[i]) && grant(items[i]) >= n {
      var i :| 0 <= i < |items| && keep(items[i]) && grant(items[i]) >= n;
      assert items[i] in kept;
      var k :| 0 <= k < |kept| && kept[k] == items[i];
    }
  }

  /** More entries never revoke access: the check is monotone in the table. */
  lemma MoreEntriesNeverRevoke(dir: Directory, rows: seq<AclRow>, more: seq<AclRow>, username: Option<string>,
                               zoneId: int, required: string, groups: seq<string>)
    requires forall i :: 0 <= i < |rows| ==> rows[i] in more
    requires AllowedForZone(dir, rows, username, zoneId, required, groups)
    ensures AllowedForZone(dir, more, username, zoneId, required, groups)
  {
    var s := SubjectFor(dir, NormalizeUsername(username), groups);
    var entries := ZoneEntries(rows, zoneId);
    var wider := ZoneEntries(more, zoneId);
    forall i | 0 <= i < |entries| ensures entries[i] in wider {
      var e := entries[i];
      assert e in rows && ForZone(zoneId)(e);
      var j :| 0 <= j < |rows| && rows[j] == e;
      assert e in more;
      var k :| 0 <= k < |more| && more[k] == e;
      assert ForZone(zoneId)(more[k]);
    }
    MaxGrantSuperset(entries, wider, GrantTo(s));
  }

  /** Once the new-schema subject matches, the legacy columns make no difference. */
  lemma LegacyOnlyWithoutSubjectMatch(e: AclRow, s: Subject, userId: Option<int>, roleId: Option<int>)
    ensures SubjectMatches(e, s) ==> EntryMatches(e.(userId := userId, roleId := roleId), s)
    ensures !SubjectMatches(e, s) ==> (EntryMatches(e, s) <==> LegacyMatches(e, s))
  {
  }

  /**
   * A 'user' entry matches every spelling of the name that agrees after
   * trimming and lower-casing, on either side.
   */
  lemma UserEntryMatchesNormalized(dir: Directory, e: AclRow, username: string, groups: seq<string>)
    requires e.subjectType == Some("user") && Truthy(e.subjectIdentifier)
    requires Lower(Trim(e.subjectIdentifier.value)) == Lower(Trim(username))
    ensures EntryMatches(e, SubjectFor(dir, NormalizeUsername(Some(username)), groups))
  {
    NormalizeIgnoresCaseAndSpace(e.subjectIdentifier.value, username);
  }

  // ---------------------------------------------------------------------------
  // addEntry
  // ---------------------------------------------------------------------------

  /** The identifier to store and the legacy ids resolved for it. */
  datatype Resolved = Resolved(identifier: string, userId: Option<int>, roleId: Option<int>)

  /**
   * A 'user' is stored by normalised name (a numeric identifier naming an
   * existing user id is replaced by that user's name); a 'role' must exist;
   * an 'ad_group' is stored as given.
   */
  function Resolve(dir: Directory, subjectType: string, identifier: string): Option<Resolved> {
    if subjectType == "user" then
      if IsPhpNumeric(identifier) then
        match UserById(dir.users, PhpIntval(identifier))
        case Some(u) => Some(Resolved(NormalizeUsername(Some(u.username)), Some(u.id), None))
        case None => Some(Resolved(NormalizeUsername(Some(identifier)), None, None))
      else
        var name := NormalizeUsername(Some(identifier));
        Some(Resolved(name, UserIdByUsername(dir.users, name), None))
    else if subjectType == "role" then
      match RoleByName(dir.roles, identifier)
      case None => None
      case Some(r) => Some(Resolved(identifier, None, Some(r.id)))
    else Some(Resolved(identifier, None, None))
  }

  /**
   * A numeric 'user' identifier naming an existing user id, in whatever form
   * ("1", "1.0", "1e0"), is stored as that user's normalised name with the id.
   */
  lemma ResolveNumericUser(dir: Directory, identifier: string, u: UserRow)
    requires IsPhpNumeric(identifier) && UserById(dir.users, PhpIntval(identifier)) == Some(u)
    ensures Resolve(dir, "user", identifier) == Some(Resolved(NormalizeUsername(Some(u.username)), Some(u.id), None))
    ensures u.id == PhpIntval(identifier)
  {
  }

  /** "1", "1.0" and "1e0" all resolve to user 1 when that user exists. */
  lemma ResolveFormsOfOne(dir: Directory, u: UserRow)
    requires UserById(dir.users, 1) == Some(u)
    ensures Resolve(dir, "user", "1.0") == Resolve(dir, "user", "1e0") == Resolve(dir, "user", "1")
              == Some(Resolved(NormalizeUsername(Some(u.username)), Some(1), None))
  {
    OnePointZeroForm();
    OneExponentZeroForm();
    IntvalOfDecimal(1);
    assert DecimalString(1) == "1";
  }

  /** The upsert key: same zone, same type, identifiers equal ignoring case. */
  predicate SameKey(row: AclRow, zoneId: int, subjectType: string, identifier: string) {
    row.zoneFileId == Some(zoneId) && row.subjectType == Some(subjectType)
    && row.subjectIdentifier.Some? && Lower(row.subjectIdentifier.value) == Lower(identifier)
  }

  /** The first row with the key, if any. */
  function FindKey(rows: seq<AclRow>, zoneId: int, subjectType: string, identifier: string): (k: Option<nat>)
    ensures k.Some? ==> k.value < |rows| && SameKey(rows[k.value], zoneId, subjectType, identifier)
    ensures k.None? ==> forall i :: 0 <= i < |rows| ==> !SameKey(rows[i], zoneId, subjectType, identifier)
  {
    if |rows| == 0 then None
    else if SameKey(rows[0], zoneId, subjectType, identifier) then Some(0)
    else
      match FindKey(rows[1..], zoneId, subjectType, identifier)
      case None => None
      case Some(k) => Some(k + 1)
  }

  /** COALESCE(new, old) */
  function Coalesce(given: Option<int>, current: Option<int>): Option<int> {
    if given.Some? then given else current
  }

  /** The returned id, the new table and the next auto-increment id. */
  datatype AddResult = AddResult(id: Option<int>, rows: seq<AclRow>, nextId: int)

  /** addEntry as a function of the table, the next id and the arguments. */
  function AddEntryResult(rows: seq<AclRow>, nextId: int, dir: Directory, zoneId: int, subjectType: string,
                          identifier: string, permission: string, createdBy: int): AddResult
  {
    if !IsSubjectType(subjectType) || !IsPermission(permission) then AddResult(None, rows, nextId)
    else
      match Resolve(dir, subjectType, identifier)
      case None => AddResult(None, rows, nextId)
      case Some(res) =>
        match FindKey(rows, zoneId, subjectType, res.identifier)
        case Some(k) =>
          var row := rows[k].(permission := permission, createdBy := createdBy,
                              userId := Coalesce(res.userId, rows[k].userId),
                              roleId := Coalesce(res.roleId, rows[k].roleId));
          AddResult(Some(rows[k].id), rows[k := row], nextId)
        case None =>
          var row := AclRow(nextId, Some(zoneId), Some("zone"), Some(zoneId), Some(subjectType), Some(res.identifier),
                            permission, res.userId, res.roleId, createdBy, "enabled");
          AddResult(Some(nextId), rows + [row], nextId + 1)
  }

  /**
   * addEntry fails, leaving the table as it was, exactly for a subject type
   * outside {user, role, ad_group}, a permission outside {read, write, admin},
   * or a role name that does not exist.
   */
  lemma AddEntryRejects(rows: seq<AclRow>, nextId: int, dir: Directory, zoneId: int, subjectType: string,
                        identifier: string, permission: string, createdBy: int)
    ensures var r := AddEntryResult(rows, nextId, dir, zoneId, subjectType, identifier, permission, createdBy);
      (r.id.None? <==> !IsSubjectType(subjectType) || !IsPermission(permission)
                        || (subjectType == "role" && forall x :: x in dir.roles ==> x.name != identifier))
      && (r.id.None? ==> r.rows == rows && r.nextId == nextId)
  {
    if subjectType == "role" && IsPermission(permission) && RoleByName(dir.roles, identifier).Some? {
      var x := RoleByName(dir.roles, identifier).value;
      assert x in dir.roles && x.name == identifier;
    }
  }

  /**
   * On success the zone holds exactly one row more, or the same number when a
   * row with the key existed: that row, and no other, now carries the new
   * permission and its id is returned.
   */
  lemma AddEntryUpserts(rows: seq<AclRow>, nextId: int, dir: Directory, zoneId: int, subjectType: string,
                        identifier: string, permission: string, createdBy: int)
    requires IsSubjectType(subjectType) && IsPermission(permission)
    requires Resolve(dir, subjectType, identifier).Some?
    ensures var res := Resolve(dir, subjectType, identifier).value;
      var r := AddEntryResult(rows, nextId, dir, zoneId, subjectType, identifier, permission, createdBy);
      match FindKey(rows, zoneId, subjectType, res.identifier)
      case Some(k) =>
        r.id == Some(rows[k].id) && |r.rows| == |rows| && r.nextId == nextId
        && r.rows[k].permission == permission && SameKey(r.rows[k], zoneId, subjectType, res.identifier)
        && forall i :: 0 <= i < |rows| && i != k ==> r.rows[i] == rows[i]
      case None =>
        r.id == Some(nextId) && r.rows[..|rows|] == rows && |r.rows| == |rows| + 1 && r.nextId == nextId + 1
        && r.rows[|rows|].permission == permission && SameKey(r.rows[|rows|], zoneId, subjectType, res.identifier)
        && ForZone(zoneId)(r.rows[|rows|])
  {
    var res := Resolve(dir, subjectType, identifier).value;
    var r := AddEntryResult(rows, nextId, dir, zoneId, subjectType, identifier, permission, createdBy);
    match FindKey(rows, zoneId, subjectType, res.identifier)
    case Some(k) =>
      var row := rows[k].(permission := permission, createdBy := createdBy,
                          userId := Coalesce(res.userId, rows[k].userId),
                          roleId := Coalesce(res.roleId, rows[k].roleId));
      assert r == AddResult(Some(rows[k].id), rows[k := row], nextId);
    case None =>
      var row := AclRow(nextId, Some(zoneId), Some("zone"), Some(zoneId), Some(subjectType), Some(res.identifier),
                        permission, res.userId, res.roleId, createdBy, "enabled");
      assert r == AddResult(Some(nextId), rows + [row], nextId + 1);
      assert (rows + [row])[..|rows|] == rows;
  }

  /** No two rows of the table share an upsert key. */
  predicate UniqueKeys(rows: seq<AclRow>) {
    forall i, j :: (0 <= i < j < |rows| && rows[i].zoneFileId.Some? && rows[i].subjectType.Some?
      && rows[i].subjectIdentifier.Some?) ==>
      !SameKey(rows[j], rows[i].zoneFileId.value, rows[i].subjectType.value, rows[i].subjectIdentifier.value)
  }

  lemma SameKeyOfRow(row: AclRow, other: AclRow)
    requires row.zoneFileId.Some? && row.subjectType.Some? && row.subjectIdentifier.Some?
    requires other.subjectIdentifier.Some?
    ensures SameKey(other, row.zoneFileId.value, row.subjectType.value, row.subjectIdentifier.value)
        <==> SameKey(row, other.zoneFileId.GetOr(0), other.subjectType.GetOr(""), other.subjectIdentifier.value)
              && other.zoneFileId.Some? && other.subjectType.Some?
  {
  }

  /** addEntry keeps the keys unique: it updates the keyed row or inserts a row whose key is new. */
  lemma AddEntryKeepsKeysUnique(rows: seq<AclRow>, nextId: int, dir: Directory, zoneId: int, subjectType: string,
                                identifier: string, permission: string, createdBy: int)
    requires UniqueKeys(rows)
    ensures UniqueKeys(AddEntryResult(rows, nextId, dir, zoneId, subjectType, identifier, permission, createdBy).rows)
  {
    var r := AddEntryResult(rows, nextId, dir, zoneId, subjectType, identifier, permission, createdBy);
    if r.id.Some? {
      var res := Resolve(dir, subjectType, identifier).value;
      match FindKey(rows, zoneId, subjectType, res.identifier)
      case Some(k) =>
        forall i, j | 0 <= i < j < |r.rows| && r.rows[i].zoneFileId.Some? && r.rows[i].subjectType.Some?
          && r.rows[i].subjectIdentifier.Some?
          ensures !SameKey(r.rows[j], r.rows[i].zoneFileId.value, r.rows[i].subjectType.value, r.rows[i].subjectIdentifier.value)
        {
          assert r.rows[i].zoneFileId == rows[i].zoneFileId && r.rows[i].subjectType == rows[i].subjectType
            && r.rows[i].subjectIdentifier == rows[i].subjectIdentifier;
          assert r.rows[j].zoneFileId == rows[j].zoneFileId && r.rows[j].subjectType == rows[j].subjectType
            && r.rows[j].subjectIdentifier == rows[j].subjectIdentifier;
        }
      case None =>
        var row := r.rows[|rows|];
        forall i, j | 0 <= i < j < |r.rows| && r.rows[i].zoneFileId.Some? && r.rows[i].subjectType.Some?
          && r.rows[i].subjectIdentifier.Some?
          ensures !SameKey(r.rows[j], r.rows[i].zoneFileId.value, r.rows[i].subjectType.value, r.rows[i].subjectIdentifier.value)
        {
          if j == |rows| {
            assert !SameKey(rows[i], zoneId, subjectType, res.identifier);
            assert r.rows[i] == rows[i];
          } else {
            assert r.rows[i] == rows[i] && r.rows[j] == rows[j];
          }
        }
    }
  }

  // ---------------------------------------------------------------------------
  // The acl_entries table
  // ---------------------------------------------------------------------------

  class AclStore {
    var rows: seq<AclRow>
    /** The id the next insert receives (lastInsertId). */
    var nextId: int

    constructor(rows: seq<AclRow>, nextId: int)
      ensures this.rows == rows && this.nextId == nextId
    {
      this.rows := rows;
      this.nextId := nextId;
    }

    /** The foreach over the zone's entries keeping the highest matching level. */
    method IsAllowedForZone(dir: Directory, username: Option<string>, zoneId: int, required: string, groups: seq<string>)
      returns (allowed: bool)
      ensures allowed == AllowedForZone(dir, rows, username, zoneId, required, groups)
    {
      var normalized := NormalizeUsername(username);
      var requiredLevel := RequiredLevel(required);
      if PhpEmpty(normalized) || zoneId == 0 {
        return false;
      }
      var subject := SubjectFor(dir, normalized, groups);
      var entries := ZoneEntries(rows, zoneId);
      var maxLevel := 0;
      var i := 0;
      while i < |entries|
        invariant 0 <= i <= |entries|
        invariant maxLevel == MaxGrant(entries[..i], GrantTo(subject))
      {
        var entry := entries[i];
        var level := Level(entry.permission);
        var matches := MatchEntry(entry, subject);
        MaxGrantStep(entries, i, GrantTo(subject));
        assert GrantTo(subject)(entry) > maxLevel <==> matches && level > maxLevel;
        if matches && level > maxLevel {
          maxLevel := level;
        }
        i := i + 1;
      }
      assert entries[..|entries|] == entries;
      return maxLevel >= requiredLevel;
    }

    /** One pass of the foreach: the new-schema subject first, then the legacy columns. */
    static method MatchEntry(entry: AclRow, subject: Subject) returns (matches: bool)
      ensures matches == EntryMatches(entry, subject)
    {
      matches := false;
      if Truthy(entry.subjectType) && Truthy(entry.subjectIdentifier) {
        var identifier := entry.subjectIdentifier.value;
        if entry.subjectType.value == "user" {
          if NormalizeUsername(Some(identifier)) == subject.username {
            matches := true;
          }
        } else if entry.subjectType.value == "role" {
          if identifier in subject.roleNames {
            matches := true;
          }
        } else if entry.subjectType.value == "ad_group" {
          matches := MatchGroups(subject.groups, identifier);
        }
      }
      assert matches == SubjectMatches(entry, subject);
      if !matches && IsSetId(entry.userId) && IsSetId(subject.userId) && entry.userId.value == subject.userId.value {
        matches := true;
      }
      if !matches && IsSetId(entry.roleId) && entry.roleId.value in subject.roleIds {
        matches := true;
      }
    }

    /** Validate, resolve the subject, then update the keyed row or insert a new one. */
    method AddEntry(dir: Directory, zoneId: int, subjectType: string, identifier: string, permission: string,
                    createdBy: int)
      returns (id: Option<int>)
      modifies this
      ensures AddResult(id, rows, nextId)
        == AddEntryResult(old(rows), old(nextId), dir, zoneId, subjectType, identifier, permission, createdBy)
    {
      if !IsSubjectType(subjectType) || !IsPermission(permission) {
        return None;
      }
      var resolved := Resolve(dir, subjectType, identifier);
      if resolved.None? {
        return None;
      }
      var res := resolved.value;
      var existing := FindKey(rows, zoneId, subjectType, res.identifier);
      if existing.Some? {
        var k := existing.value;
        var row := rows[k].(permission := permission, createdBy := createdBy,
                            userId := Coalesce(res.userId, rows[k].userId),
                            roleId := Coalesce(res.roleId, rows[k].roleId));
        id := Some(rows[k].id);
        rows := rows[k := row];
        return;
      }
      var row := AclRow(nextId, Some(zoneId), Some("zone"), Some(zoneId), Some(subjectType), Some(res.identifier),
                        permission, res.userId, res.roleId, createdBy, "enabled");
      id := Some(nextId);
      rows := rows + [row];
      nextId := nextId + 1;
    }
  }
}
