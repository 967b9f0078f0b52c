/**
 * Record validation of the DNS records endpoint: validateRecordByType and the
 * field checks the create and update actions run before storing a record.
 * A request body is a map from field name to its (string) value; a missing
 * or null field is absent from the map.
 */
module RecordApi {
  import opened Text
  import opened Wrappers
  import DnsValidator

  type Fields = map<string, string>

  const ValidTypes: set<string> := {"A", "AAAA", "CNAME", "PTR", "TXT"}

  /** The dedicated field that carries the value of a record type. */
  function DedicatedField(recordType: string): Option<string> {
    match recordType
    case "A" => Some("address_ipv4")
    case "AAAA" => Some("address_ipv6")
    case "CNAME" => Some("cname_target")
    case "PTR" => Some("ptrdname")
    case "TXT" => Some("txt")
    case _ => None
  }

  /** isset($data[$f]) && trim($data[$f]) !== '' */
  predicate Present(data: Fields, f: string) {
    f in data && Trim(data[f]) != ""
  }

  /** $data[$dedicated] ?? $data['value'] ?? '': the first of the two that is set, even when blank. */
  function Coalesce(data: Fields, dedicated: string): string {
    if dedicated in data then data[dedicated]
    else if "value" in data then data["value"]
    else ""
  }

  /**
   * /^[a-zA-Z0-9]([a-zA-Z0-9\-\.]*[a-zA-Z0-9])?(\.[a-zA-Z]{2,})?$/ read as intended
   * (no trailing newline): one alphanumeric character, optionally followed by
   * letters, digits, hyphens and dots ending in an alphanumeric character,
   * optionally followed by a dot and at least two letters.
   */
  predicate HostnameMiddle(m: string) {
    m == [] || (IsAlnum(m[|m| - 1]) && forall i :: 0 <= i < |m| ==> IsAlnum(m[i]) || m[i] == '-' || m[i] == '.')
  }

  predicate TopLevelSuffix(t: string) {
    t == [] || (|t| >= 3 && t[0] == '.' && forall i :: 1 <= i < |t| ==> IsLetter(t[i]))
  }

  ghost predicate HostnamePattern(s: string) {
    |s| >= 1 && IsAlnum(s[0]) &&
    exists j :: 1 <= j <= |s| && HostnameMiddle(s[1..j]) && TopLevelSuffix(s[j..])
  }

  /** The language of the pattern, in plain terms: alphanumeric at both ends, only alphanumerics, hyphens and dots. */
  predicate LooksLikeHostname(s: string) {
    |s| >= 1 && IsAlnum(s[0]) && IsAlnum(s[|s| - 1]) &&
    forall i :: 0 <= i < |s| ==> IsAlnum(s[i]) || s[i] == '-' || s[i] == '.'
  }

  /** The optional top-level suffix adds nothing: the pattern accepts exactly LooksLikeHostname. */
  lemma HostnamePatternLanguage(s: string)
    ensures HostnamePattern(s) <==> LooksLikeHostname(s)
  {
    if LooksLikeHostname(s) {
      assert s[|s|..] == [];
      assert HostnameMiddle(s[1..|s|]);
    }
    if HostnamePattern(s) {
      var j :| 1 <= j <= |s| && HostnameMiddle(s[1..j]) && TopLevelSuffix(s[j..]);
      forall i | 0 <= i < |s| ensures IsAlnum(s[i]) || s[i] == '-' || s[i] == '.' {
        if 1 <= i < j { assert s[i] == s[1..j][i - 1]; }
        else if j <= i { assert s[i] == s[j..][i - j]; }
      }
      if j < |s| { assert s[|s| - 1] == s[j..][|s| - 1 - j]; }
      else if j > 1 { assert s[|s| - 1] == s[1..j][j - 2]; }
    }
  }

  /** As PCRE evaluates the pattern without the D modifier: `$` also matches before a final "\n". */
  predicate HostnamePatternAsWritten(s: string) {
    LooksLikeHostname(s) || (|s| >= 2 && s[|s| - 1] == '\n' && LooksLikeHostname(s[..|s| - 1]))
  }

  lemma TrailingNewlineTargetAccepted()
    ensures HostnamePatternAsWritten("www\n")
    ensures !LooksLikeHostname("www\n")
  {
    assert "www\n"[..3] == "www";
  }

  datatype Check = Ok | Rejected(error: string)

  function MissingField(field: string, recordType: string): string {
    "Missing required field: " + field + " for type " + recordType
  }

  function MissingValue(field: string, recordType: string): string {
    "Missing required field: " + field + " (or value) for type " + recordType
  }

  const ErrIpv4 := "Address must be a valid IPv4 address for type A"
  const ErrIpv6 := "Address must be a valid IPv6 address for type AAAA"
  const ErrCnameIp := "CNAME target cannot be an IP address (must be a hostname)"
  const ErrCnameHost := "CNAME target must be a valid hostname"
  const ErrPtrHost := "PTR target must be a valid hostname (reverse DNS name required)"
  const ErrTxtEmpty := "TXT record content cannot be empty"

  /** The type-specific semantic check (api/dns_api.php:105-148). */
  function SemanticCheck(recordType: string, data: Fields, ip: DnsValidator.IpOracle): Check {
    match recordType
    case "A" => if ip.isIpv4(Coalesce(data, "address_ipv4")) then Ok else Rejected(ErrIpv4)
    case "AAAA" => if ip.isIpv6(Coalesce(data, "address_ipv6")) then Ok else Rejected(ErrIpv6)
    case "CNAME" =>
      var target := Coalesce(data, "cname_target");
      if ip.IsIp(target) then Rejected(ErrCnameIp)
      else if |target| > 0 && !LooksLikeHostname(target) then Rejected(ErrCnameHost)
      else Ok
    case "PTR" =>
      var target := Coalesce(data, "ptrdname");
      if |target| > 0 && !LooksLikeHostname(target) then Rejected(ErrPtrHost) else Ok
    case "TXT" => if |Coalesce(data, "txt")| == 0 then Rejected(ErrTxtEmpty) else Ok
    case _ => Ok
  }

  /** validateRecordByType: required fields first ('name', then the dedicated field or 'value'), then the semantic check. */
  function ValidateRecordByType(recordType: string, data: Fields, ip: DnsValidator.IpOracle): (r: Check)
    ensures !Present(data, "name") ==> r == Rejected(MissingField("name", recordType))
    ensures Present(data, "name") && DedicatedField(recordType).Some? &&
            !Present(data, DedicatedField(recordType).value) && !Present(data, "value") ==>
              r == Rejected(MissingValue(DedicatedField(recordType).value, recordType))
    ensures r == Ok <==>
              Present(data, "name") &&
              (DedicatedField(recordType).Some? ==>
                 Present(data, DedicatedField(recordType).value) || Present(data, "value")) &&
              SemanticCheck(recordType, data, ip) == Ok
  {
    if !Present(data, "name") then Rejected(MissingField("name", recordType))
    else match DedicatedField(recordType)
      case Some(f) =>
        if !Present(data, f) && !Present(data, "value") then Rejected(MissingValue(f, recordType))
        else SemanticCheck(recordType, data, ip)
      case None => SemanticCheck(recordType, data, ip)
  }

  /** Every type, listed or not, needs a non-blank name; a type without a dedicated field needs nothing else. */
  lemma UnknownTypeNeedsOnlyName(recordType: string, data: Fields, ip: DnsValidator.IpOracle)
    requires recordType !in ValidTypes
    ensures ValidateRecordByType(recordType, data, ip) == Ok <==> Present(data, "name")
  {
  }

  /** The dedicated field wins over 'value' even when it is blank: a blank address_ipv4 hides a good 'value'. */
  lemma DedicatedFieldTakesPrecedence(data: Fields, ip: DnsValidator.IpOracle)
    requires Present(data, "name") && "address_ipv4" in data && Present(data, "value")
    ensures ValidateRecordByType("A", data, ip) == Ok <==> ip.isIpv4(data["address_ipv4"])
  {
  }

  /** A CNAME or PTR target ending in '.' is rejected (the pattern needs an alphanumeric last character). */
  lemma FullyQualifiedTargetRejected(recordType: string, data: Fields, ip: DnsValidator.IpOracle)
    requires recordType in {"CNAME", "PTR"}
    requires var t := Coalesce(data, DedicatedField(recordType).value); |t| > 0 && t[|t| - 1] == '.'
    ensures ValidateRecordByType(recordType, data, ip) != Ok
  {
    var t := Coalesce(data, DedicatedField(recordType).value);
    assert !LooksLikeHostname(t) by { assert !IsAlnum(t[|t| - 1]); }
  }

  // ---------------------------------------------------------------------------
  // Create / update request checks (api/dns_api.php:301-372, 394-470)
  // ---------------------------------------------------------------------------

  /** The ttl member of a request body, as PHP sees it. */
  datatype TtlInput = TtlAbsent | TtlNull | TtlEmpty | TtlNumeric(value: real) | TtlNonNumeric

  /** The ttl after normalisation: '' becomes null. */
  function NormalizeTtl(ttl: TtlInput): TtlInput {
    if ttl == TtlEmpty then TtlNull else ttl
  }

  predicate TtlAcceptable(ttl: TtlInput) {
    match NormalizeTtl(ttl)
    case TtlNumeric(v) => Truncate(v) > 0
    case TtlNonNumeric => false
    case _ => true
  }

  lemma TtlAcceptableMeaning(ttl: TtlInput)
    ensures ttl.TtlEmpty? || ttl.TtlNull? || ttl.TtlAbsent? ==> TtlAcceptable(ttl)
    ensures ttl.TtlNumeric? ==> (TtlAcceptable(ttl) <==> ttl.value >= 1.0)
    ensures ttl.TtlNonNumeric? ==> !TtlAcceptable(ttl)
  {
  }

  /** DateTime::createFromFormat is outside the model: whether each accepted format parses, and the conversion. */
  datatype DateOracle = DateOracle(roundTripsSql: string -> bool, parsesLocal: string -> bool, localToSql: string -> string)

  datatype Request = Request(fields: Fields, ttl: TtlInput)

  const ErrZoneMissing := "Missing required field: zone_file_id"
  const ErrTypeMissing := "Missing required field: record_type"
  const ErrTypeInvalid := "Invalid record type. Only A, AAAA, CNAME, PTR, and TXT are supported"
  const ErrTtl := "TTL must be a positive integer or null"
  const ErrRequester := "Requester field too long (max 255 characters)"
  const ErrTicket := "Ticket reference too long (max 255 characters)"
  const ErrDate := "Invalid expires_at date format. Use YYYY-MM-DD HH:MM:SS or YYYY-MM-DDTHH:MM"
  const ErrRecordId := "Invalid record ID"

  /** The checks shared by create and update after the type checks: ttl, field lengths, expires_at. */
  function CommonChecks(req: Request, dates: DateOracle): (r: Result<Request, string>)
    ensures r.Success? ==> r.value.ttl == NormalizeTtl(req.ttl) && r.value.ttl != TtlEmpty
    ensures r.Success? ==> r.value.fields.Keys == req.fields.Keys
    ensures r.Success? <==>
              (TtlAcceptable(req.ttl) &&
               ("requester" in req.fields ==> |req.fields["requester"]| <= 255) &&
               ("ticket_ref" in req.fields ==> |req.fields["ticket_ref"]| <= 255) &&
               ("expires_at" in req.fields && req.fields["expires_at"] != "" ==>
                  dates.roundTripsSql(req.fields["expires_at"]) || dates.parsesLocal(req.fields["expires_at"])))
  {
    var ttl := NormalizeTtl(req.ttl);
    var f := req.fields;
    if !TtlAcceptable(req.ttl) then Failure(ErrTtl)
    else if "requester" in f && |f["requester"]| > 255 then Failure(ErrRequester)
    else if "ticket_ref" in f && |f["ticket_ref"]| > 255 then Failure(ErrTicket)
    else if "expires_at" in f && f["expires_at"] != "" && !dates.roundTripsSql(f["expires_at"]) then
      if dates.parsesLocal(f["expires_at"]) then
        Success(Request(f["expires_at" := dates.localToSql(f["expires_at"])], ttl))
      else Failure(ErrDate)
    else Success(Request(f, ttl))
  }

  /** unset($input['last_seen']): the client may not set last_seen. */
  function WithoutLastSeen(f: Fields): (g: Fields)
    ensures "last_seen" !in g
    ensures forall k :: k in g <==> k in f && k != "last_seen"
    ensures forall k :: k in g ==> g[k] == f[k]
  {
    f - {"last_seen"}
  }

  /** The create action's validation: the request that would be stored, or the 400 error message. */
  function CreateChecks(req: Request, ip: DnsValidator.IpOracle, dates: DateOracle): (r: Result<Request, string>)
    ensures var f := WithoutLastSeen(req.fields);
            r.Success? ==> "record_type" in f && f["record_type"] in ValidTypes &&
                           ValidateRecordByType(f["record_type"], f, ip) == Ok
    ensures r.Success? ==> r.value.ttl == NormalizeTtl(req.ttl) && TtlAcceptable(req.ttl)
    ensures ("zone_file_id" !in req.fields || PhpEmpty(req.fields["zone_file_id"])) ==> r == Failure(ErrZoneMissing)
    ensures r.Success? ==> "last_seen" !in r.value.fields
  {
    var f := WithoutLastSeen(req.fields);
    if "zone_file_id" !in f || PhpEmpty(f["zone_file_id"]) then Failure(ErrZoneMissing)
    else if "record_type" !in f || Trim(f["record_type"]) == "" then Failure(ErrTypeMissing)
    else if f["record_type"] !in ValidTypes then Failure(ErrTypeInvalid)
    else match ValidateRecordByType(f["record_type"], f, ip)
      case Rejected(e) => Failure(e)
      case Ok => CommonChecks(Request(f, req.ttl), dates)
  }

  /** The update action's validation: the type checks run only when record_type is supplied. */
  function UpdateChecks(id: int, req: Request, ip: DnsValidator.IpOracle, dates: DateOracle): (r: Result<Request, string>)
    ensures id <= 0 ==> r == Failure(ErrRecordId)
    ensures var f := WithoutLastSeen(req.fields);
            r.Success? && "record_type" in f ==>
              f["record_type"] in ValidTypes && ValidateRecordByType(f["record_type"], f, ip) == Ok
    ensures r.Success? ==> r.value.ttl == NormalizeTtl(req.ttl) && TtlAcceptable(req.ttl)
    ensures r.Success? ==> "last_seen" !in r.value.fields
  {
    var f := WithoutLastSeen(req.fields);
    if id <= 0 then Failure(ErrRecordId)
    else if "record_type" in f && f["record_type"] !in ValidTypes then Failure(ErrTypeInvalid)
    else if "record_type" in f && ValidateRecordByType(f["record_type"], f, ip).Rejected? then
      Failure(ValidateRecordByType(f["record_type"], f, ip).error)
    else CommonChecks(Request(f, req.ttl), dates)
  }
}
