/**
 * DnsValidator: strict-ASCII validation of DNS labels, names, record owners and
 * record data. Every check is an early return; the first failing check decides
 * the error message. Host label and host name syntax follow section 2.3.1 of
 * RFC 1035 as relaxed by section 2.1 of RFC 1123 (a label may start with a digit).
 */
module DnsValidator {
  import opened Text
  import opened Wrappers

  /** ['valid' => bool, 'error' => string|null] */
  datatype Validation = Valid | Invalid(error: string)

  /** The IP-address classifier filter_var(..., FILTER_VALIDATE_IP, ...) is outside the model. */
  datatype IpOracle = IpOracle(isIpv4: string -> bool, isIpv6: string -> bool) {
    predicate IsIp(s: string) { isIpv4(s) || isIpv6(s) }
  }

  /** A non-null MX priority: either a numeric value (numeric strings given by their value) or something is_numeric rejects. */
  datatype Priority = NumericPriority(value: real) | NonNumericPriority

  const MaxLabelLength := 63
  const MaxNameLength := 253
  const MaxTxtLength := 65535

  const ErrLabelEmpty := "Label cannot be empty"
  const ErrLabelTooLong := "Label exceeds maximum length of 63 characters"
  const ErrLabelNonAscii := "Label contains non-ASCII characters (IDN not supported)"
  const ErrLabelSpace := "Label cannot contain spaces"
  const ErrLabelChars := "Label contains invalid characters (only a-z, A-Z, 0-9, and hyphen allowed)"
  const ErrLabelLeadingHyphen := "Label cannot start with a hyphen"
  const ErrLabelTrailingHyphen := "Label cannot end with a hyphen"
  const ErrNameEmpty := "Name cannot be empty"
  const ErrNameDot := "Name cannot be just a dot"
  const ErrNameTooLong := "Name exceeds maximum length of 253 characters"
  const ErrNameTrailingDot := "Trailing dot not allowed in this context"
  const ErrOwnerEmpty := "Owner cannot be empty"
  const ErrOwnerNonAscii := "Owner contains non-ASCII characters (IDN not supported)"
  const ErrOwnerSpace := "Owner cannot contain spaces"
  const ErrAEmpty := "A record value cannot be empty"
  const ErrAInvalid := "A record must contain a valid IPv4 address"
  const ErrAaaaEmpty := "AAAA record value cannot be empty"
  const ErrAaaaInvalid := "AAAA record must contain a valid IPv6 address"
  const ErrMxEmpty := "MX record target cannot be empty"
  const ErrMxPriority := "MX priority must be between 0 and 65535"
  const ErrMxIp := "MX target cannot be an IP address, must be a hostname"
  const ErrCnameEmpty := "CNAME record target cannot be empty"
  const ErrCnameIp := "CNAME target cannot be an IP address, must be a hostname"
  const ErrTxtEmpty := "TXT record value cannot be empty"
  const ErrTxtNonAscii := "TXT record contains non-ASCII characters (IDN not supported)"
  const ErrTxtTooLong := "TXT record value exceeds maximum length"

  // ---------------------------------------------------------------------------
  // Reference definitions (RFC 1035 section 2.3.1, RFC 1123 section 2.1)
  // ---------------------------------------------------------------------------

  /** A host label: 1 to 63 letters, digits and hyphens, neither starting nor ending with a hyphen. */
  predicate IsHostLabel(lbl: string) {
    0 < |lbl| <= MaxLabelLength &&
    (forall i :: 0 <= i < |lbl| ==> IsLdh(lbl[i])) &&
    lbl[0] != '-' && lbl[|lbl| - 1] != '-'
  }

  /** The name with at most one trailing dot removed. */
  function StripTrailingDot(name: string): (r: string)
    ensures |r| <= |name| && r == name[..|r|]
    ensures |name| - 1 <= |r|
  {
    if EndsWith(name, ".") then name[..|name| - 1] else name
  }

  /** A host name: after removing one trailing dot, 1 to 253 characters of dot-separated host labels. */
  predicate IsHostName(name: string, allowTrailingDot: bool) {
    var stripped := StripTrailingDot(name);
    0 < |stripped| <= MaxNameLength &&
    (forall lbl :: lbl in Split(stripped, '.') ==> IsHostLabel(lbl)) &&
    (allowTrailingDot || !EndsWith(name, "."))
  }

  // ---------------------------------------------------------------------------
  // validateLabel
  // ---------------------------------------------------------------------------

  predicate HasNonAscii(s: string) { exists i :: 0 <= i < |s| && !IsAscii(s[i]) }

  /** The regular expression /^[a-zA-Z0-9\-]+$/ read as intended: the whole string is letters, digits and hyphens. */
  predicate AllLdh(s: string) { forall i :: 0 <= i < |s| ==> IsLdh(s[i]) }

  /** validateLabel with the character-class check read as intended (see the finding on ValidateLabelAsWritten). */
  function ValidateLabel(lbl: string): (r: Validation)
    ensures r.Valid? <==> IsHostLabel(lbl)
    ensures lbl == [] ==> r == Invalid(ErrLabelEmpty)
    ensures r.Invalid? ==> r.error in {ErrLabelEmpty, ErrLabelTooLong, ErrLabelNonAscii, ErrLabelSpace,
                                       ErrLabelChars, ErrLabelLeadingHyphen, ErrLabelTrailingHyphen}
  {
    if lbl == "" then Invalid(ErrLabelEmpty)
    else if |lbl| > MaxLabelLength then Invalid(ErrLabelTooLong)
    else if HasNonAscii(lbl) then Invalid(ErrLabelNonAscii)
    else if ' ' in lbl then Invalid(ErrLabelSpace)
    else if !AllLdh(lbl) then Invalid(ErrLabelChars)
    else if lbl[0] == '-' then Invalid(ErrLabelLeadingHyphen)
    else if lbl[|lbl| - 1] == '-' then Invalid(ErrLabelTrailingHyphen)
    else Valid
  }

  /** The checks run in source order: a label failing several checks reports the earliest one. */
  lemma LabelErrorOrder(lbl: string)
    ensures 0 < |lbl| <= MaxLabelLength && HasNonAscii(lbl) ==> ValidateLabel(lbl) == Invalid(ErrLabelNonAscii)
    ensures |lbl| > MaxLabelLength ==> ValidateLabel(lbl) == Invalid(ErrLabelTooLong)
    ensures 0 < |lbl| <= MaxLabelLength && !HasNonAscii(lbl) && ' ' in lbl ==>
              ValidateLabel(lbl) == Invalid(ErrLabelSpace)
    ensures 0 < |lbl| <= MaxLabelLength && !HasNonAscii(lbl) && ' ' !in lbl && !AllLdh(lbl) ==>
              ValidateLabel(lbl) == Invalid(ErrLabelChars)
    ensures AllLdh(lbl) && 0 < |lbl| <= MaxLabelLength && lbl[0] == '-' ==>
              ValidateLabel(lbl) == Invalid(ErrLabelLeadingHyphen)
    ensures AllLdh(lbl) && 0 < |lbl| <= MaxLabelLength && lbl[0] != '-' && lbl[|lbl| - 1] == '-' ==>
              ValidateLabel(lbl) == Invalid(ErrLabelTrailingHyphen)
  {
    if AllLdh(lbl) && 0 < |lbl| {
      assert !HasNonAscii(lbl);
    }
  }


  /**
   * /^[a-zA-Z0-9\-]+$/ as PCRE evaluates it without the D modifier: `$` also matches
   * just before a final "\n", so one trailing newline after the letters, digits and
   * hyphens is accepted.
   */
  predicate PcreLdhMatch(s: string) {
    (|s| > 0 && AllLdh(s)) ||
    (|s| > 1 && s[|s| - 1] == '\n' && AllLdh(s[..|s| - 1]))
  }

  /** validateLabel exactly as written (includes/lib/DnsValidator.php:27-69). */
  function ValidateLabelAsWritten(lbl: string): Validation {
    if lbl == "" then Invalid(ErrLabelEmpty)
    else if |lbl| > MaxLabelLength then Invalid(ErrLabelTooLong)
    else if HasNonAscii(lbl) then Invalid(ErrLabelNonAscii)
    else if ' ' in lbl then Invalid(ErrLabelSpace)
    else if !PcreLdhMatch(lbl) then Invalid(ErrLabelChars)
    else if lbl[0] == '-' then Invalid(ErrLabelLeadingHyphen)
    else if lbl[|lbl| - 1] == '-' then Invalid(ErrLabelTrailingHyphen)
    else Valid
  }

  /** The label "abc\n" passes the code as written, although it is not a host label. */
  lemma TrailingNewlineLabelAccepted()
    ensures ValidateLabelAsWritten("abc\n") == Valid
    ensures ValidateLabel("abc\n") == Invalid(ErrLabelChars)
    ensures !IsHostLabel("abc\n")
  {
    assert "abc\n"[..3] == "abc";
    assert !IsLdh("abc\n"[3]);
  }

  /** The two readings differ only on labels that end in a newline. */
  lemma {:induction false} AsWrittenAgreesWithoutTrailingNewline(lbl: string)
    requires lbl == [] || lbl[|lbl| - 1] != '\n'
    ensures ValidateLabelAsWritten(lbl) == ValidateLabel(lbl)
  {
  }

  // ---------------------------------------------------------------------------
  // validateName
  // ---------------------------------------------------------------------------

  /** The foreach over labels: the result of the first label that fails, else Valid. */
  function FirstLabelFailure(lbls: seq<string>): (r: Validation)
    ensures r.Valid? <==> forall lbl :: lbl in lbls ==> IsHostLabel(lbl)
    ensures r.Invalid? ==> exists k :: 0 <= k < |lbls| && r == ValidateLabel(lbls[k]) &&
                                       forall j :: 0 <= j < k ==> IsHostLabel(lbls[j])
  {
    if lbls == [] then Valid
    else
      var head := ValidateLabel(lbls[0]);
      if head.Invalid? then head
      else
        var rest := FirstLabelFailure(lbls[1..]);
        assert forall lbl :: lbl in lbls ==> lbl == lbls[0] || lbl in lbls[1..];
        if rest.Invalid? then
          var k :| 0 <= k < |lbls[1..]| && rest == ValidateLabel(lbls[1..][k]) &&
                   forall j :: 0 <= j < k ==> IsHostLabel(lbls[1..][j]);
          assert forall j :: 0 <= j < k + 1 ==> IsHostLabel(lbls[j]) by {
            forall j | 0 <= j < k + 1 ensures IsHostLabel(lbls[j]) {
              if j > 0 { assert lbls[j] == lbls[1..][j - 1]; }
            }
          }
          rest
        else rest
  }

  function ValidateName(name: string, allowTrailingDot: bool): (r: Validation)
    ensures r.Valid? <==> IsHostName(name, allowTrailingDot)
    ensures name == "" ==> r == Invalid(ErrNameEmpty)
    ensures name == "." ==> r == Invalid(ErrNameDot)
    ensures 0 < |StripTrailingDot(name)| && |StripTrailingDot(name)| > MaxNameLength ==> r == Invalid(ErrNameTooLong)
  {
    if name == "" then Invalid(ErrNameEmpty)
    else
      var hasTrailingDot := EndsWith(name, ".");
      var stripped := StripTrailingDot(name);
      if stripped == "" then Invalid(ErrNameDot)
      else if |stripped| > MaxNameLength then Invalid(ErrNameTooLong)
      else
        var lbls := FirstLabelFailure(Split(stripped, '.'));
        if lbls.Invalid? then lbls
        else if hasTrailingDot && !allowTrailingDot then Invalid(ErrNameTrailingDot)
        else Valid
  }

  /** A trailing dot with allowTrailingDot = false is reported only once every label has passed. */
  lemma TrailingDotCheckedLast(name: string)
    requires EndsWith(name, ".") && IsHostName(name, true)
    ensures ValidateName(name, false) == Invalid(ErrNameTrailingDot)
  {
  }

  /** An empty label anywhere, as in "example..com", ".example.com" or "example.com..", rejects the name. */
  lemma {:induction false} EmptyLabelRejected(name: string, allowTrailingDot: bool)
    requires (exists i :: 0 <= i < |name| - 1 && name[i] == '.' && name[i + 1] == '.') ||
             (|name| > 1 && name[0] == '.')
    ensures ValidateName(name, allowTrailingDot).Invalid?
  {
    var stripped := StripTrailingDot(name);
    if 0 < |stripped| {
      if |name| > 1 && name[0] == '.' {
        SplitLeadingSeparator(stripped, '.');
        assert Split(stripped, '.')[0] in Split(stripped, '.');
      } else {
        var i :| 0 <= i < |name| - 1 && name[i] == '.' && name[i + 1] == '.';
        if i + 1 < |stripped| {
          SplitAdjacentSeparators(stripped, '.', i);
        } else {
          assert stripped[|stripped| - 1] == '.';
          SplitTrailingSeparator(stripped, '.');
        }
      }
      assert !IsHostLabel("");
    }
  }

  /** Every character of a host name is ASCII and none is a space. */
  lemma HostNameIsAsciiWithoutSpaces(name: string, allowTrailingDot: bool)
    ensures IsHostName(name, allowTrailingDot) ==> !HasNonAscii(name) && ' ' !in name
  {
    if !IsHostName(name, allowTrailingDot) { return; }
    var stripped := StripTrailingDot(name);
    forall k | 0 <= k < |name|
      ensures IsAscii(name[k]) && name[k] != ' '
    {
      if k < |stripped| && name[k] != '.' {
        assert stripped[k] == name[k];
        SplitCovers(stripped, '.', k);
        var p :| p in Split(stripped, '.') && stripped[k] in p;
        assert IsHostLabel(p);
        var j :| 0 <= j < |p| && p[j] == stripped[k];
        assert IsLdh(p[j]);
      }
    }
  }

  // ---------------------------------------------------------------------------
  // validateOwner and per-type validators
  // ---------------------------------------------------------------------------

  function ValidateOwner(owner: string): (r: Validation)
    ensures r.Valid? <==> owner == "@" || IsHostName(owner, true)
    ensures owner == "" ==> r == Invalid(ErrOwnerEmpty)
  {
    if owner == "" then Invalid(ErrOwnerEmpty)
    else if owner == "@" then Valid
    else if HasNonAscii(owner) then
      HostNameIsAsciiWithoutSpaces(owner, true); Invalid(ErrOwnerNonAscii)
    else if ' ' in owner then
      HostNameIsAsciiWithoutSpaces(owner, true); Invalid(ErrOwnerSpace)
    else ValidateName(owner, true)
  }

  function ValidateA(value: string, ip: IpOracle): (r: Validation)
    ensures r.Valid? <==> value != "" && ip.isIpv4(value)
  {
    if value == "" then Invalid(ErrAEmpty)
    else if !ip.isIpv4(value) then Invalid(ErrAInvalid)
    else Valid
  }

  function ValidateAaaa(value: string, ip: IpOracle): (r: Validation)
    ensures r.Valid? <==> value != "" && ip.isIpv6(value)
  {
    if value == "" then Invalid(ErrAaaaEmpty)
    else if !ip.isIpv6(value) then Invalid(ErrAaaaInvalid)
    else Valid
  }

  predicate PriorityInRange(priority: Option<Priority>) {
    match priority
    case None => true
    case Some(NonNumericPriority) => false
    case Some(NumericPriority(v)) => 0.0 <= v <= 65535.0
  }

  function ValidateMx(value: string, priority: Option<Priority>, ip: IpOracle): (r: Validation)
    ensures r.Valid? <==> value != "" && PriorityInRange(priority) && !ip.IsIp(value) && IsHostName(value, true)
    ensures value == "" ==> r == Invalid(ErrMxEmpty)
    ensures value != "" && !PriorityInRange(priority) ==> r == Invalid(ErrMxPriority)
    ensures value != "" && PriorityInRange(priority) && ip.IsIp(value) ==> r == Invalid(ErrMxIp)
  {
    if value == "" then Invalid(ErrMxEmpty)
    else if !PriorityInRange(priority) then Invalid(ErrMxPriority)
    else if ip.IsIp(value) then Invalid(ErrMxIp)
    else ValidateName(value, true)
  }

  function ValidateCname(value: string, ip: IpOracle): (r: Validation)
    ensures r.Valid? <==> value != "" && !ip.IsIp(value) && IsHostName(value, true)
    ensures value == "" ==> r == Invalid(ErrCnameEmpty)
    ensures value != "" && ip.IsIp(value) ==> r == Invalid(ErrCnameIp)
  {
    if value == "" then Invalid(ErrCnameEmpty)
    else if ip.IsIp(value) then Invalid(ErrCnameIp)
    else ValidateName(value, true)
  }

  function ValidateTxt(value: string): (r: Validation)
    ensures r.Valid? <==> value != "" && AllAscii(value) && |value| <= MaxTxtLength
  {
    if value == "" then Invalid(ErrTxtEmpty)
    else if HasNonAscii(value) then Invalid(ErrTxtNonAscii)
    else if |value| > MaxTxtLength then Invalid(ErrTxtTooLong)
    else Valid
  }

  // ---------------------------------------------------------------------------
  // validateRecord
  // ---------------------------------------------------------------------------

  const SupportedTypes: set<string> := {"A", "AAAA", "MX", "CNAME", "TXT"}

  function UnsupportedType(recordType: string): string {
    "Unsupported record type: " + recordType
  }

  /** The value check selected by the upper-cased type, for a supported type. */
  ghost predicate ValueValidFor(upperType: string, value: string, priority: Option<Priority>, ip: IpOracle)
    requires upperType in SupportedTypes
  {
    match upperType
    case "A" => value != "" && ip.isIpv4(value)
    case "AAAA" => value != "" && ip.isIpv6(value)
    case "MX" => value != "" && PriorityInRange(priority) && !ip.IsIp(value) && IsHostName(value, true)
    case "CNAME" => value != "" && !ip.IsIp(value) && IsHostName(value, true)
    case _ => value != "" && AllAscii(value) && |value| <= MaxTxtLength
  }

  function ValidateRecord(recordType: string, owner: string, value: string,
                          priority: Option<Priority>, ip: IpOracle): (r: Validation)
    ensures ValidateOwner(owner).Invalid? ==> r == ValidateOwner(owner)
    ensures ValidateOwner(owner).Valid? && Upper(recordType) !in SupportedTypes ==>
              r == Invalid(UnsupportedType(recordType))
    ensures r.Valid? <==> (owner == "@" || IsHostName(owner, true)) && Upper(recordType) in SupportedTypes &&
                          ValueValidFor(Upper(recordType), value, priority, ip)
  {
    var ownerResult := ValidateOwner(owner);
    if ownerResult.Invalid? then ownerResult
    else
      match Upper(recordType)
      case "A" => ValidateA(value, ip)
      case "AAAA" => ValidateAaaa(value, ip)
      case "MX" => ValidateMx(value, priority, ip)
      case "CNAME" => ValidateCname(value, ip)
      case "TXT" => ValidateTxt(value)
      case _ => Invalid(UnsupportedType(recordType))
  }
}
