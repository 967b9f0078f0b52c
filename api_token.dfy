/**
 * API tokens for Bearer authentication (includes/models/ApiToken.php): the
 * api_tokens table and its life cycle of generate, validate, revoke, list
 * and delete.
 *
 * random_bytes, sha256 and the clock are outside the model: the random bytes
 * and the current time are arguments, and the hash is a function argument.
 * Times are seconds on one clock; a day is 86400 of them.
 */
module ApiToken {
  import opened Wrappers
  import opened Text
  import opened Collections

  type Byte = b: int | 0 <= b < 256

  // ---------------------------------------------------------------------------
  // bin2hex
  // ---------------------------------------------------------------------------

  predicate IsLowerHex(c: char) { '0' <= c <= '9' || 'a' <= c <= 'f' }

  function HexDigit(n: nat): (c: char)
    requires n < 16
    ensures IsLowerHex(c)
  {
    "0123456789abcdef"[n]
  }

  function HexValue(c: char): (n: nat)
    requires IsLowerHex(c)
    ensures n < 16
  {
    if c <= '9' then c as int - '0' as int else c as int - 'a' as int + 10
  }

  lemma HexValueOfDigit(n: nat)
    requires n < 16
    ensures HexValue(HexDigit(n)) == n
  {
  }

  /** bin2hex: two lower-case hex digits per byte, high nibble first. */
  function Bin2Hex(bytes: seq<Byte>): (r: string)
    ensures |r| == 2 * |bytes|
    ensures forall i :: 0 <= i < |r| ==> IsLowerHex(r[i])
  {
    if |bytes| == 0 then []
    else [HexDigit(bytes[0] / 16), HexDigit(bytes[0] % 16)] + Bin2Hex(bytes[1..])
  }

  /** hex2bin on lower-case hex text of even length. */
  function Hex2Bin(s: string): seq<Byte>
    requires |s| % 2 == 0 && forall i :: 0 <= i < |s| ==> IsLowerHex(s[i])
  {
    if |s| == 0 then []
    else [HexValue(s[0]) * 16 + HexValue(s[1])] + Hex2Bin(s[2..])
  }

  /** bin2hex loses nothing: the bytes come back from the text. */
  lemma {:induction false} Hex2BinOfBin2Hex(bytes: seq<Byte>)
    ensures Hex2Bin(Bin2Hex(bytes)) == bytes
    decreases |bytes|
  {
    if |bytes| > 0 {
      var r := Bin2Hex(bytes);
      HexValueOfDigit(bytes[0] / 16);
      HexValueOfDigit(bytes[0] % 16);
      assert r[2..] == Bin2Hex(bytes[1..]);
      Hex2BinOfBin2Hex(bytes[1..]);
    }
  }

  // ---------------------------------------------------------------------------
  // The api_tokens table
  // ---------------------------------------------------------------------------

  /** A row of api_tokens; the token itself is never stored, only its hash and prefix. */
  datatype TokenRow = TokenRow(
    id: int,
    userId: int,
    name: string,
    hash: string,
    prefix: string,
    expiresAt: Option<int>,
    createdBy: int,
    createdAt: int,
    lastUsedAt: Option<int>,
    revokedAt: Option<int>)

  /** The columns of users that validate reads. */
  datatype TokenUser = TokenUser(id: int, username: string, isActive: bool)

  const TokenBytes := 32
  const PrefixLength := 8
  const SecondsPerDay := 86400

  /**
   * expires_at: set only when the days argument is a numeric string with a
   * positive value; it then lies a whole number of days after now, that number
   * being the value with its fraction dropped (so it can be now itself).
   */
  function ExpiresAt(expiresInDays: Option<string>, now: int): (r: Option<int>)
    ensures r.Some? <==> expiresInDays.Some? && PhpNumericValue(expiresInDays.value).Some?
                         && PhpNumericValue(expiresInDays.value).value > 0.0
    ensures r.Some? ==> r.value >= now && (r.value - now) % SecondsPerDay == 0
    ensures r.Some? ==> var days := (r.value - now) / SecondsPerDay;
      days as real <= PhpNumericValue(expiresInDays.value).value < days as real + 1.0
  {
    if expiresInDays.Some? && IsPhpNumeric(expiresInDays.value) && PhpNumericValue(expiresInDays.value).value > 0.0 then
      var days := PhpIntval(expiresInDays.value);
      assert (days * SecondsPerDay) / SecondsPerDay == days;
      Some(now + days * SecondsPerDay)
    else None
  }

  /**
   * Fractions and exponents: "0.5" days expires now, "1.5" days after one day,
   * "1e1" days after ten days.
   */
  lemma ExpiresAtForms(now: int)
    ensures ExpiresAt(Some("0.5"), now) == Some(now)
    ensures ExpiresAt(Some("1.5"), now) == Some(now + SecondsPerDay)
    ensures ExpiresAt(Some("1e1"), now) == Some(now + 10 * SecondsPerDay)
  {
    HalfForm();
    OneAndHalfForm();
    TenForm();
  }

  /** What generate hands back: the plain token (its only appearance), the row id and the prefix. */
  datatype Generated = Generated(token: string, id: int, prefix: string)

  // ---------------------------------------------------------------------------
  // validate
  // ---------------------------------------------------------------------------

  /** The user info validate returns. */
  datatype TokenInfo = TokenInfo(userId: int, username: string, tokenId: int, tokenName: string)

  function UserOf(users: seq<TokenUser>, id: int): (r: Option<TokenUser>)
    ensures r.Some? ==> r.value in users && r.value.id == id
    ensures r.None? ==> forall u :: u in users ==> u.id != id
  {
    if |users| == 0 then None
    else if users[0].id == id then Some(users[0])
    else UserOf(users[1..], id)
  }

  /** A row the join finds: the hash matches and the owner exists. */
  predicate Found(rows: seq<TokenRow>, users: seq<TokenUser>, tokenHash: string, i: int) {
    0 <= i < |rows| && rows[i].hash == tokenHash && UserOf(users, rows[i].userId).Some?
  }

  /** SELECT ... FROM api_tokens t INNER JOIN users u ... WHERE t.token_hash = ?: the first row. */
  function FindToken(rows: seq<TokenRow>, users: seq<TokenUser>, tokenHash: string): (k: Option<nat>)
    ensures k.Some? ==> Found(rows, users, tokenHash, k.value)
    ensures k.Some? ==> forall j :: 0 <= j < k.value ==> !Found(rows, users, tokenHash, j)
    ensures k.None? ==> forall j :: 0 <= j < |rows| ==> !Found(rows, users, tokenHash, j)
  {
    if |rows| == 0 then None
    else if rows[0].hash == tokenHash && UserOf(users, rows[0].userId).Some? then Some(0)
    else
      assert forall j :: 1 <= j < |rows| ==> (Found(rows, users, tokenHash, j) <==> Found(rows[1..], users, tokenHash, j - 1));
      match FindToken(rows[1..], users, tokenHash)
      case None => None
      case Some(k) => Some(k + 1)
  }

  /** Why validate refuses a token, in the order it checks. */
  datatype Refusal = Unknown | Revoked | Expired | Inactive

  /** The decision: the first failing check, or the row and its owner. */
  function Decide(rows: seq<TokenRow>, users: seq<TokenUser>, tokenHash: string, now: int): Result<nat, Refusal> {
    match FindToken(rows, users, tokenHash)
    case None => Failure(Unknown)
    case Some(k) =>
      var row := rows[k];
      if row.revokedAt.Some? then Failure(Revoked)
      else if row.expiresAt.Some? && row.expiresAt.value < now then Failure(Expired)
      else if !UserOf(users, row.userId).value.isActive then Failure(Inactive)
      else Success(k)
  }

  /** UPDATE api_tokens SET last_used_at = NOW() WHERE id = ? */
  function Touch(rows: seq<TokenRow>, id: int, now: int): (r: seq<TokenRow>)
    ensures |r| == |rows|
    ensures forall i :: 0 <= i < |rows| ==> r[i] == if rows[i].id == id then rows[i].(lastUsedAt := Some(now)) else rows[i]
  {
    seq(|rows|, i requires 0 <= i < |rows| => if rows[i].id == id then rows[i].(lastUsedAt := Some(now)) else rows[i])
  }

  /** validate's answer and the table it leaves behind. */
  datatype Validation = Validation(info: Option<TokenInfo>, rows: seq<TokenRow>)

  function ValidateResult(rows: seq<TokenRow>, users: seq<TokenUser>, tokenHash: string, now: int): Validation {
    match Decide(rows, users, tokenHash, now)
    case Failure(_) => Validation(None, rows)
    case Success(k) =>
      var row := rows[k];
      var user := UserOf(users, row.userId).value;
      Validation(Some(TokenInfo(row.userId, user.username, row.id, row.name)), Touch(rows, row.id, now))
  }

  /**
   * A token passes iff its hash is on a row whose owner exists, the row is
   * not revoked, not expired strictly before now, and the owner is active;
   * it then answers for that row's owner.  Only a pass touches last_used_at.
   */
  lemma ValidateIff(rows: seq<TokenRow>, users: seq<TokenUser>, tokenHash: string, now: int)
    ensures var v := ValidateResult(rows, users, tokenHash, now);
      (v.info.Some? <==> exists k :: Found(rows, users, tokenHash, k) && rows[k].revokedAt.None?
                          && (rows[k].expiresAt.None? || rows[k].expiresAt.value >= now)
                          && (forall j :: 0 <= j < k ==> !Found(rows, users, tokenHash, j))
                          && UserOf(users, rows[k].userId).value.isActive)
      && (v.info.None? ==> v.rows == rows)
      && (v.info.Some? ==> exists k :: Found(rows, users, tokenHash, k) && v.info.value.tokenId == rows[k].id
                            && v.info.value.userId == rows[k].userId && v.info.value.tokenName == rows[k].name)
  {
    var v := ValidateResult(rows, users, tokenHash, now);
    match FindToken(rows, users, tokenHash)
    case None =>
    case Some(k) =>
      if exists k' :: Found(rows, users, tokenHash, k') && rows[k'].revokedAt.None?
                      && (rows[k'].expiresAt.None? || rows[k'].expiresAt.value >= now)
                      && (forall j :: 0 <= j < k' ==> !Found(rows, users, tokenHash, j))
                      && UserOf(users, rows[k'].userId).value.isActive
      {
        var k' :| Found(rows, users, tokenHash, k') && rows[k'].revokedAt.None?
                  && (rows[k'].expiresAt.None? || rows[k'].expiresAt.value >= now)
                  && (forall j :: 0 <= j < k' ==> !Found(rows, users, tokenHash, j))
                  && UserOf(users, rows[k'].userId).value.isActive;
        assert !(k < k') && !(k' < k);
      }
  }

  /** A token is refused for the first failing check, in order: unknown, revoked, expired, inactive owner. */
  lemma RefusalOrder(rows: seq<TokenRow>, users: seq<TokenUser>, tokenHash: string, now: int)
    ensures var d := Decide(rows, users, tokenHash, now);
      var k := FindToken(rows, users, tokenHash);
      (d == Failure(Unknown) <==> k.None?)
      && (d == Failure(Revoked) <==> k.Some? && rows[k.value].revokedAt.Some?)
      && (d == Failure(Expired) <==> (k.Some? && rows[k.value].revokedAt.None?
                                      && rows[k.value].expiresAt.Some? && rows[k.value].expiresAt.value < now))
  {
  }

  // ---------------------------------------------------------------------------
  // revoke, delete and listByUser
  // ---------------------------------------------------------------------------

  /** UPDATE api_tokens SET revoked_at = NOW() WHERE id = ? */
  function RevokeRows(rows: seq<TokenRow>, id: int, now: int): (r: seq<TokenRow>)
    ensures |r| == |rows|
    ensures forall i :: 0 <= i < |rows| ==> r[i] == if rows[i].id == id then rows[i].(revokedAt := Some(now)) else rows[i]
  {
    seq(|rows|, i requires 0 <= i < |rows| => if rows[i].id == id then rows[i].(revokedAt := Some(now)) else rows[i])
  }

  /** After revoke(id), a token whose row has that id no longer validates, and the table is left as it is. */
  lemma RevokedTokenFails(rows: seq<TokenRow>, users: seq<TokenUser>, tokenHash: string, id: int, revokedAt: int, now: int)
    requires FindToken(rows, users, tokenHash).Some? && rows[FindToken(rows, users, tokenHash).value].id == id
    ensures var after := RevokeRows(rows, id, revokedAt);
      ValidateResult(after, users, tokenHash, now) == Validation(None, after)
  {
    var after := RevokeRows(rows, id, revokedAt);
    var k := FindToken(rows, users, tokenHash).value;
    forall j | 0 <= j < |rows| ensures Found(after, users, tokenHash, j) == Found(rows, users, tokenHash, j) {
    }
    assert Found(after, users, tokenHash, k);
    var k2 := FindToken(after, users, tokenHash).value;
    assert !(k2 < k) && !(k < k2);
  }

  function Keep(id: int): TokenRow -> bool {
    (t: TokenRow) => t.id != id
  }

  /** DELETE FROM api_tokens WHERE id = ? */
  function DeleteRows(rows: seq<TokenRow>, id: int): seq<TokenRow> {
    Filter(rows, Keep(id))
  }

  /** After delete(id), no token validates as that row. */
  lemma DeletedTokenFails(rows: seq<TokenRow>, users: seq<TokenUser>, tokenHash: string, id: int, now: int)
    ensures var v := ValidateResult(DeleteRows(rows, id), users, tokenHash, now);
      v.info.None? || v.info.value.tokenId != id
  {
    var after := DeleteRows(rows, id);
    match Decide(after, users, tokenHash, now)
    case Failure(_) =>
    case Success(k) =>
      assert after[k] in after;
  }

  /** A row as listByUser shows it: everything but the hash, the owner and the creator. */
  datatype Listing = Listing(
    id: int,
    name: string,
    prefix: string,
    lastUsedAt: Option<int>,
    expiresAt: Option<int>,
    createdAt: int,
    revokedAt: Option<int>)

  function Listed(userId: int, includeRevoked: bool): TokenRow -> bool {
    (t: TokenRow) => t.userId == userId && (includeRevoked || t.revokedAt.None?)
  }

  function Show(t: TokenRow): Listing {
    Listing(t.id, t.name, t.prefix, t.lastUsedAt, t.expiresAt, t.createdAt, t.revokedAt)
  }

  /** listByUser: the user's tokens, without the revoked ones unless asked for, each shown without its hash. */
  function ListByUser(rows: seq<TokenRow>, userId: int, includeRevoked: bool): seq<Listing> {
    var mine := Filter(rows, Listed(userId, includeRevoked));
    seq(|mine|, i requires 0 <= i < |mine| => Show(mine[i]))
  }

  /**
   * Every listed token is one of the user's rows, not revoked unless revoked
   * ones were asked for, and every such row is listed.
   */
  lemma ListByUserExact(rows: seq<TokenRow>, userId: int, includeRevoked: bool)
    ensures var r := ListByUser(rows, userId, includeRevoked);
      (forall x :: x in r ==> exists t :: t in rows && t.userId == userId && Show(t) == x
                                          && (includeRevoked || x.revokedAt.None?))
      && (forall t :: t in rows && t.userId == userId && (includeRevoked || t.revokedAt.None?) ==> Show(t) in r)
  {
    var mine := Filter(rows, Listed(userId, includeRevoked));
    var r := ListByUser(rows, userId, includeRevoked);
    forall x | x in r
      ensures exists t :: t in rows && t.userId == userId && Show(t) == x && (includeRevoked || x.revokedAt.None?)
    {
      var i :| 0 <= i < |r| && r[i] == x;
      assert mine[i] in mine;
    }
    forall t | t in rows && t.userId == userId && (includeRevoked || t.revokedAt.None?)
      ensures Show(t) in r
    {
      var i :| 0 <= i < |rows| && rows[i] == t;
      assert t in mine;
      var j :| 0 <= j < |mine| && mine[j] == t;
      assert r[j] == Show(t);
    }
  }

  class TokenStore {
    var rows: seq<TokenRow>
    /** The id the next insert receives (lastInsertId). */
    var nextId: int

    constructor(rows: seq<TokenRow>, nextId: int)
      ensures this.rows == rows && this.nextId == nextId
    {
      this.rows := rows;
      this.nextId := nextId;
    }

    /**
     * generate: the token is the hex text of 32 random bytes, its prefix the
     * first 8 characters, and only its hash and prefix are stored.
     */
    method Generate(userId: int, tokenName: string, createdBy: int, expiresInDays: Option<string>,
                    randomBytes: seq<Byte>, now: int, hash: string -> string)
      returns (g: Generated)
      requires |randomBytes| == TokenBytes
      modifies this
      ensures |g.token| == 64 && (forall i :: 0 <= i < |g.token| ==> IsLowerHex(g.token[i]))
      ensures Hex2Bin(g.token) == randomBytes
      ensures |g.prefix| == PrefixLength && g.prefix == g.token[..PrefixLength]
      ensures g.id == old(nextId) && nextId == old(nextId) + 1
      ensures rows == old(rows) + [TokenRow(g.id, userId, tokenName, hash(g.token), g.prefix,
                                            ExpiresAt(expiresInDays, now), createdBy, now, None, None)]
    {
      var token := Bin2Hex(randomBytes);
      Hex2BinOfBin2Hex(randomBytes);
      var tokenHash := hash(token);
      var tokenPrefix := token[..PrefixLength];
      var expiresAt := ExpiresAt(expiresInDays, now);
      rows := rows + [TokenRow(nextId, userId, tokenName, tokenHash, tokenPrefix, expiresAt, createdBy, now, None, None)];
      g := Generated(token, nextId, tokenPrefix);
      nextId := nextId + 1;
    }

    /** validate: hash, look up, then the checks in order; a pass records the use. */
    method Validate(token: string, users: seq<TokenUser>, now: int, hash: string -> string) returns (info: Option<TokenInfo>)
      modifies this
      ensures Validation(info, rows) == ValidateResult(old(rows), users, hash(token), now)
      ensures nextId == old(nextId)
    {
      var tokenHash := hash(token);
      var found := FindToken(rows, users, tokenHash);
      if found.None? {
        return None;
      }
      var row := rows[found.value];
      if row.revokedAt.Some? {
        return None;
      }
      if row.expiresAt.Some? && row.expiresAt.value < now {
        return None;
      }
      var user := UserOf(users, row.userId).value;
      if !user.isActive {
        return None;
      }
      rows := Touch(rows, row.id, now);
      return Some(TokenInfo(row.userId, user.username, row.id, row.name));
    }

    method Revoke(tokenId: int, now: int) returns (ok: bool)
      modifies this
      ensures ok && rows == RevokeRows(old(rows), tokenId, now) && nextId == old(nextId)
    {
      rows := RevokeRows(rows, tokenId, now);
      return true;
    }

    method Delete(tokenId: int) returns (ok: bool)
      modifies this
      ensures ok && rows == DeleteRows(old(rows), tokenId) && nextId == old(nextId)
    {
      rows := DeleteRows(rows, tokenId);
      return true;
    }
  }

  /**
   * The round the test walks through: a freshly generated token validates as
   * its own row when no older row carries its hash, and fails once that row
   * is revoked.
   */
  lemma GeneratedThenRevoked(rows: seq<TokenRow>, users: seq<TokenUser>, row: TokenRow, now: int, revokedAt: int)
    requires UserOf(users, row.userId).Some?
    requires forall i :: 0 <= i < |rows| ==> rows[i].hash != row.hash
    ensures FindToken(rows + [row], users, row.hash) == Some(|rows|)
    ensures var after := RevokeRows(rows + [row], row.id, revokedAt);
      ValidateResult(after, users, row.hash, now).info.None?
  {
    var all := rows + [row];
    assert Found(all, users, row.hash, |rows|);
    var k := FindToken(all, users, row.hash).value;
    assert !(k < |rows|);
    RevokedTokenFails(all, users, row.hash, row.id, revokedAt, now);
  }
}
