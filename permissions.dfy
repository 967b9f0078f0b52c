/**
 * What the two ACL models (includes/models/Acl.php and ZoneAcl.php) and the
 * auth model share: the permission hierarchy, username normalisation, the
 * user lookup by name, the AD-group test, and the running maximum their
 * permission loops compute.
 *
 * mb_strtolower and SQL LOWER() are ASCII lower-casing here.
 */
module Permissions {
  import opened Wrappers
  import opened Text

  // ---------------------------------------------------------------------------
  // PERMISSION_HIERARCHY
  // ---------------------------------------------------------------------------

  /** The three permissions addEntry accepts. */
  predicate IsPermission(p: string) {
    p == "read" || p == "write" || p == "admin"
  }

  /** The subject types addEntry accepts. */
  predicate IsSubjectType(t: string) {
    t == "user" || t == "role" || t == "ad_group"
  }

  /** PERMISSION_HIERARCHY[p] ?? 0: the level an entry grants. */
  function Level(p: string): (l: nat)
    ensures l <= 3
    ensures l > 0 <==> IsPermission(p)
  {
    if p == "admin" then 3 else if p == "write" then 2 else if p == "read" then 1 else 0
  }

  /** PERMISSION_HIERARCHY[p] ?? 1: the level a request needs; an unknown name asks for read. */
  function RequiredLevel(p: string): (l: nat)
    ensures 1 <= l <= 3
    ensures !IsPermission(p) ==> l == Level("read")
  {
    if IsPermission(p) then Level(p) else 1
  }

  /** admin > write > read, and a required permission asks for exactly the level it grants. */
  lemma HierarchyOrdered()
    ensures 0 < Level("read") < Level("write") < Level("admin")
    ensures forall p :: IsPermission(p) ==> RequiredLevel(p) == Level(p)
  {
  }

  // ---------------------------------------------------------------------------
  // normalizeUsername
  // ---------------------------------------------------------------------------

  /** null and '' give ''; anything else is trimmed and lower-cased. */
  function NormalizeUsername(username: Option<string>): (r: string)
    ensures r == [] || (!IsTrimChar(r[0]) && !IsTrimChar(r[|r| - 1]))
    ensures forall i :: 0 <= i < |r| ==> !('A' <= r[i] <= 'Z')
  {
    if username.None? || username.value == "" then ""
    else
      var t := Trim(username.value);
      LowerPreservesTrimChars(t);
      Lower(t)
  }

  lemma LowerPreservesTrimChars(s: string)
    ensures |s| > 0 ==> (IsTrimChar(Lower(s)[0]) <==> IsTrimChar(s[0]))
    ensures |s| > 0 ==> (IsTrimChar(Lower(s)[|s| - 1]) <==> IsTrimChar(s[|s| - 1]))
  {
  }

  lemma {:induction false} TrimLeftLower(s: string)
    ensures TrimLeft(Lower(s)) == Lower(TrimLeft(s))
    decreases |s|
  {
    LowerPreservesTrimChars(s);
    if |s| > 0 && IsTrimChar(s[0]) {
      assert Lower(s)[1..] == Lower(s[1..]);
      TrimLeftLower(s[1..]);
    }
  }

  lemma {:induction false} TrimRightLower(s: string)
    ensures TrimRight(Lower(s)) == Lower(TrimRight(s))
    decreases |s|
  {
    LowerPreservesTrimChars(s);
    if |s| > 0 && IsTrimChar(s[|s| - 1]) {
      assert Lower(s)[..|s| - 1] == Lower(s[..|s| - 1]);
      TrimRightLower(s[..|s| - 1]);
    }
  }

  lemma TrimClean(s: string)
    requires s == [] || (!IsTrimChar(s[0]) && !IsTrimChar(s[|s| - 1]))
    ensures Trim(s) == s
  {
  }

  lemma LowerLower(s: string)
    ensures Lower(Lower(s)) == Lower(s)
  {
  }

  /** Normalising a normalised name changes nothing. */
  lemma NormalizeIdempotent(username: Option<string>)
    ensures NormalizeUsername(Some(NormalizeUsername(username))) == NormalizeUsername(username)
  {
    var n := NormalizeUsername(username);
    if n != "" {
      TrimClean(n);
      var t := Trim(username.value);
      LowerLower(t);
    }
  }

  /** For any string, present and non-null, normalising is trimming and lower-casing. */
  lemma NormalizeSome(s: string)
    ensures NormalizeUsername(Some(s)) == Lower(Trim(s))
  {
    if s == "" {
      assert TrimLeft(s) == s;
      assert TrimRight(s) == s;
    }
  }

  /** Names that differ only in letter case or surrounding white space normalise alike. */
  lemma NormalizeIgnoresCaseAndSpace(a: string, b: string)
    requires Lower(Trim(a)) == Lower(Trim(b))
    ensures NormalizeUsername(Some(a)) == NormalizeUsername(Some(b))
  {
    NormalizeSome(a);
    NormalizeSome(b);
  }

  /** In particular a name and its lower-cased form normalise alike. */
  lemma NormalizeLower(s: string)
    ensures NormalizeUsername(Some(Lower(s))) == NormalizeUsername(Some(s))
  {
    TrimLeftLower(s);
    TrimRightLower(TrimLeft(s));
    LowerLower(Trim(s));
    assert Lower(Trim(Lower(s))) == Lower(Trim(s));
    NormalizeIgnoresCaseAndSpace(Lower(s), s);
  }

  // ---------------------------------------------------------------------------
  // The users and roles tables
  // ---------------------------------------------------------------------------

  datatype UserRow = UserRow(id: int, username: string)

  /** SELECT id FROM users WHERE LOWER(username) = ?: the first such row, cast to int. */
  function UserIdByUsername(users: seq<UserRow>, normalized: string): (r: Option<int>)
    ensures r.Some? ==> exists u :: u in users && Lower(u.username) == normalized && u.id == r.value
    ensures r.None? ==> forall u :: u in users ==> Lower(u.username) != normalized
  {
    if |users| == 0 then None
    else if Lower(users[0].username) == normalized then Some(users[0].id)
    else UserIdByUsername(users[1..], normalized)
  }

  datatype RoleRow = RoleRow(id: int, name: string)

  /** SELECT ... FROM users WHERE id = ?: the first such user. */
  function UserById(users: seq<UserRow>, id: int): (r: Option<UserRow>)
    ensures r.Some? ==> r.value in users && r.value.id == id
    ensures r.None? ==> forall u :: u in users ==> u.id != id
  {
    if |users| == 0 then None
    else if users[0].id == id then Some(users[0])
    else UserById(users[1..], id)
  }

  /** SELECT id FROM roles WHERE name = ?: the first such role. */
  function RoleByName(roles: seq<RoleRow>, name: string): (r: Option<RoleRow>)
    ensures r.Some? ==> r.value in roles && r.value.name == name
    ensures r.None? ==> forall x :: x in roles ==> x.name != name
  {
    if |roles| == 0 then None
    else if roles[0].name == name then Some(roles[0])
    else RoleByName(roles[1..], name)
  }

  /** PHP truthiness of an id: present and non-zero. */
  predicate IsSetId(id: Option<int>) {
    id.Some? && id.value != 0
  }

  // ---------------------------------------------------------------------------
  // AD group matching
  // ---------------------------------------------------------------------------

  /**
   * An 'ad_group' entry matches when some group of the user equals the
   * identifier ignoring case (strcasecmp) or contains it ignoring case (stripos).
   */
  predicate GroupMatches(groups: seq<string>, identifier: string) {
    exists i :: 0 <= i < |groups| && (EqualsIgnoreCase(groups[i], identifier) || ContainsIgnoreCase(groups[i], identifier))
  }

  /** The equality test is subsumed: the match is the case-insensitive substring test alone. */
  lemma GroupMatchesIsSubstring(groups: seq<string>, identifier: string)
    ensures GroupMatches(groups, identifier) <==> exists i :: 0 <= i < |groups| && ContainsIgnoreCase(groups[i], identifier)
  {
    if GroupMatches(groups, identifier) {
      var i :| 0 <= i < |groups| && (EqualsIgnoreCase(groups[i], identifier) || ContainsIgnoreCase(groups[i], identifier));
      if EqualsIgnoreCase(groups[i], identifier) {
        EqualsIgnoreCaseContains(groups[i], identifier);
      }
    }
  }

  /** The foreach over the user's groups that breaks at the first match. */
  method MatchGroups(groups: seq<string>, identifier: string) returns (matches: bool)
    ensures matches == GroupMatches(groups, identifier)
  {
    matches := false;
    var k := 0;
    while k < |groups|
      invariant 0 <= k <= |groups|
      invariant !matches
      invariant forall i :: 0 <= i < k ==> !(EqualsIgnoreCase(groups[i], identifier) || ContainsIgnoreCase(groups[i], identifier))
    {
      var group := groups[k];
      if Lower(group) == Lower(identifier) {
        matches := true;
        return;
      }
      if Contains(Lower(group), Lower(identifier)) {
        matches := true;
        return;
      }
      k := k + 1;
    }
  }

  // ---------------------------------------------------------------------------
  // The running maximum of the permission loops
  // ---------------------------------------------------------------------------

  /**
   * The level the loop ends with: each entry grants its level when it
   * matches and 0 otherwise, and the loop keeps the largest, starting at 0.
   */
  function MaxGrant<E>(entries: seq<E>, grant: E -> nat): (m: nat)
    ensures forall i :: 0 <= i < |entries| ==> grant(entries[i]) <= m
    ensures m == 0 || exists i :: 0 <= i < |entries| && grant(entries[i]) == m
    decreases |entries|
  {
    if |entries| == 0 then 0
    else
      var m := MaxGrant(entries[..|entries| - 1], grant);
      var g := grant(entries[|entries| - 1]);
      if g > m then g else m
  }

  /**
   * The entry whose permission the loop keeps: it is updated only on a
   * strictly larger level, so the first entry reaching the maximum wins.
   */
  function BestIndex<E>(entries: seq<E>, grant: E -> nat): (k: Option<nat>)
    ensures k.None? <==> MaxGrant(entries, grant) == 0
    ensures k.Some? ==> k.value < |entries| && grant(entries[k.value]) == MaxGrant(entries, grant)
    ensures k.Some? ==> forall j :: 0 <= j < k.value ==> grant(entries[j]) < MaxGrant(entries, grant)
    decreases |entries|
  {
    if |entries| == 0 then None
    else
      var front := entries[..|entries| - 1];
      if grant(entries[|entries| - 1]) > MaxGrant(front, grant) then Some(|entries| - 1)
      else
        var k := BestIndex(front, grant);
        if k.Some? then Some(k.value) else None
  }

  /** One more iteration of the loop: the maximum and its index move only on a strictly larger grant. */
  lemma MaxGrantStep<E>(entries: seq<E>, i: nat, grant: E -> nat)
    requires i < |entries|
    ensures var m := MaxGrant(entries[..i], grant);
      MaxGrant(entries[..i + 1], grant) == (if grant(entries[i]) > m then grant(entries[i]) else m)
      && BestIndex(entries[..i + 1], grant) == (if grant(entries[i]) > m then Some(i) else BestIndex(entries[..i], grant))
  {
    assert entries[..i + 1][..i] == entries[..i];
  }

  /** Entries that grant at least as much as before can only raise the maximum. */
  lemma MaxGrantSuperset<E>(entries: seq<E>, more: seq<E>, grant: E -> nat)
    requires forall i :: 0 <= i < |entries| ==> entries[i] in more
    ensures MaxGrant(entries, grant) <= MaxGrant(more, grant)
  {
    var m := MaxGrant(entries, grant);
    if m > 0 {
      var i :| 0 <= i < |entries| && grant(entries[i]) == m;
      var j :| 0 <= j < |more| && more[j] == entries[i];
    }
  }
}
