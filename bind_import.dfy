/**
 * The BIND zone importer (scripts/import_bind_zones.py): origin derivation,
 * SOA defaults, the conversion of parsed resource records into dns_records
 * rows, the column selection of the database inserts, and the statistics a
 * ZoneImporter keeps while it imports a directory of zone files.
 *
 * Parsing a master file is done by dnspython and is not modelled: a parsed
 * zone arrives as its nodes (with absolute owner names), the first SOA of
 * the apex if any, and its default TTL if the parser exposes one.
 */
module BindImport {
  import opened Wrappers
  import opened Text

  /** A Python value stored in a record or zone dict. */
  datatype Value = Str(s: string) | Int(n: int) | Null

  /** The dict keys and table columns the importer knows, one per snake_case name. */
  datatype Column =
    | ZoneFileId | RecordType | Name | Value | Ttl | Status | CreatedBy
    | AddressIpv4 | AddressIpv6 | CnameTarget | MxTarget | Priority | NsTarget | Ptrdname | Txt
    | SrvTarget | Weight | Port | CaaFlag | CaaTag | CaaValue
    | SshfpAlgo | SshfpType | SshfpFingerprint | TlsaUsage | TlsaSelector | TlsaMatching | TlsaData
    | NaptrOrder | NaptrPref | NaptrFlags | NaptrService | NaptrRegexp | NaptrReplacement
    | Filename | FileType | Domain | Content | DefaultTtl
    | SoaRefresh | SoaRetry | SoaExpire | SoaMinimum | SoaRname | Mname | CreatedAt

  type Row = map<Column, Value>

  // ---------------------------------------------------------------------------
  // Origin (_parse_zone_file)
  // ---------------------------------------------------------------------------

  /** Python's \s on str patterns: the characters for which str.isspace() holds. */
  predicate IsPySpace(c: char) {
    c in {' ', '\t', '\n', '\r', '\U{0B}', '\U{0C}', '\U{1C}', '\U{1D}', '\U{1E}', '\U{1F}', '\U{85}', '\U{A0}',
          '\U{1680}', '\U{2028}', '\U{2029}', '\U{202F}', '\U{205F}', '\U{3000}'}
    || ('\U{2000}' <= c <= '\U{200A}')
  }

  /** The first index at or after i whose character is (space) or not (!space) whitespace, or |s|. */
  function SpanEnd(s: string, i: nat, space: bool): (j: nat)
    requires i <= |s|
    ensures i <= j <= |s|
    ensures forall k :: i <= k < j ==> IsPySpace(s[k]) == space
    ensures j == |s| || IsPySpace(s[j]) != space
    decreases |s| - i
  {
    if i == |s| || IsPySpace(s[i]) != space then i else SpanEnd(s, i + 1, space)
  }

  const OriginKeyword := "$ORIGIN"

  /** ^\$ORIGIN\s+(\S+) tried at position p in MULTILINE mode: the captured argument, if it matches there. */
  function OriginDirectiveAt(content: string, p: nat): (r: Option<string>)
    requires p <= |content|
    ensures r.Some? ==> |r.value| >= 1 && forall k :: 0 <= k < |r.value| ==> !IsPySpace(r.value[k])
    ensures r.Some? ==> (p == 0 || content[p - 1] == '\n') && StartsWith(content[p..], OriginKeyword)
  {
    if (p == 0 || content[p - 1] == '\n') && StartsWith(content[p..], OriginKeyword) then
      var q := p + |OriginKeyword|;
      var w := SpanEnd(content, q, true);
      if q < w < |content| then
        var e := SpanEnd(content, w, false);
        Some(content[w..e])
      else None
    else None
  }

  /** re.search: the leftmost position at or after p where the directive matches. */
  function FirstOriginFrom(content: string, p: nat): (r: Option<string>)
    requires p <= |content|
    ensures r.Some? ==> exists q :: p <= q <= |content| && OriginDirectiveAt(content, q) == r
    ensures r.None? ==> forall q :: p <= q <= |content| ==> OriginDirectiveAt(content, q).None?
    decreases |content| - p
  {
    match OriginDirectiveAt(content, p)
    case Some(o) => Some(o)
    case None => if p == |content| then None else FirstOriginFrom(content, p + 1)
  }

  /** The origin used for a zone file: the first $ORIGIN argument, else the file stem, with '.' appended if missing. */
  function DeriveOrigin(content: string, stem: string): (origin: string)
    ensures |origin| >= 1 && origin[|origin| - 1] == '.'
    ensures var source := FirstOriginFrom(content, 0).GetOr(stem);
            origin == source || (origin == source + "." && !EndsWith(source, "."))
  {
    var source := FirstOriginFrom(content, 0).GetOr(stem);
    if EndsWith(source, ".") then source else source + "."
  }

  /** origin.rstrip('.') */
  function ZoneName(origin: string): (name: string)
    ensures |name| <= |origin| && name == origin[..|name|]
    ensures forall k :: |name| <= k < |origin| ==> origin[k] == '.'
    ensures name == [] || name[|name| - 1] != '.'
  {
    if origin != [] && origin[|origin| - 1] == '.' then ZoneName(origin[..|origin| - 1]) else origin
  }

  /** Without a directive, a stem such as "example.com" names the zone "example.com". */
  lemma StemNamesZone(content: string, stem: string)
    requires FirstOriginFrom(content, 0).None?
    requires stem != [] && stem[|stem| - 1] != '.'
    ensures ZoneName(DeriveOrigin(content, stem)) == stem
  {
    assert DeriveOrigin(content, stem) == stem + ".";
    assert (stem + ".")[..|stem|] == stem;
  }

  /** A directive on the first line wins over the stem. */
  lemma DirectiveOnFirstLine()
    ensures DeriveOrigin("$ORIGIN example.com\n", "db.other") == "example.com."
  {
    ExampleDirectiveMatches();
    assert !EndsWith("example.com", ".");
  }

  lemma ExampleDirectiveMatches()
    ensures OriginDirectiveAt("$ORIGIN example.com\n", 0) == Some("example.com")
  {
    var c := "$ORIGIN example.com\n";
    assert StartsWith(c[0..], OriginKeyword);
    GraphicNotSpace(c[8]);
    SpanEndIs(c, 7, true, 8);
    forall k | 8 <= k < 19 ensures !IsPySpace(c[k]) {
      GraphicNotSpace(c[k]);
    }
    SpanEndIs(c, 8, false, 19);
    assert c[8..19] == "example.com";
  }

  /** A span ends at the first index that breaks it. */
  lemma SpanEndIs(s: string, i: nat, space: bool, j: nat)
    requires i <= j <= |s|
    requires forall k :: i <= k < j ==> IsPySpace(s[k]) == space
    requires j == |s| || IsPySpace(s[j]) != space
    ensures SpanEnd(s, i, space) == j
  {
  }

  /** A printable ASCII character other than the space is not Python white space. */
  lemma GraphicNotSpace(ch: char)
    requires '!' <= ch <= '~'
    ensures !IsPySpace(ch)
  {
  }

  // ---------------------------------------------------------------------------
  // SOA data (_extract_soa_data)
  // ---------------------------------------------------------------------------

  datatype Soa = Soa(mname: string, rname: string, refresh: int, retry: int, expire: int, minimum: int)

  const DefaultRefresh := 10800
  const DefaultRetry := 900
  const DefaultExpire := 604800
  const DefaultMinimum := 3600

  const SoaKeys: set<Column> := {Mname, SoaRname, SoaRefresh, SoaRetry, SoaExpire, SoaMinimum}

  /** The SOA columns of a zone, from the first SOA at the apex when there is one. */
  function ExtractSoaData(apexSoa: Option<Soa>): (d: Row)
    ensures d.Keys == SoaKeys
    ensures apexSoa.None? ==>
              d[Mname] == Null && d[SoaRname] == Null &&
              d[SoaRefresh] == Int(DefaultRefresh) && d[SoaRetry] == Int(DefaultRetry) &&
              d[SoaExpire] == Int(DefaultExpire) && d[SoaMinimum] == Int(DefaultMinimum)
    ensures apexSoa.Some? ==>
              d[Mname] == Str(apexSoa.value.mname) && d[SoaRname] == Str(apexSoa.value.rname) &&
              d[SoaRefresh] == Int(apexSoa.value.refresh) && d[SoaRetry] == Int(apexSoa.value.retry) &&
              d[SoaExpire] == Int(apexSoa.value.expire) && d[SoaMinimum] == Int(apexSoa.value.minimum)
  {
    match apexSoa
    case None =>
      map[Mname := Null, SoaRname := Null, SoaRefresh := Int(DefaultRefresh),
          SoaRetry := Int(DefaultRetry), SoaExpire := Int(DefaultExpire), SoaMinimum := Int(DefaultMinimum)]
    case Some(s) =>
      map[Mname := Str(s.mname), SoaRname := Str(s.rname), SoaRefresh := Int(s.refresh),
          SoaRetry := Int(s.retry), SoaExpire := Int(s.expire), SoaMinimum := Int(s.minimum)]
  }

  // ---------------------------------------------------------------------------
  // Records (_extract_records, _convert_rdata_to_record)
  // ---------------------------------------------------------------------------

  /**
   * The attributes of a parsed rdata that the conversion reads. Strings that
   * dnspython holds as bytes are given decoded, or None when they are not
   * valid UTF-8 (the decode raises).
   */
  datatype RdataFields =
    | AddressData(address: string)
    | TargetData(target: string)
    | MxData(exchange: string, preference: int)
    | TxtData(strings: seq<Option<string>>)
    | SrvData(srvTarget: string, priority: int, weight: int, port: int)
    | CaaData(flags: int, tag: Option<string>, value: Option<string>)
    | OtherData

  /** A parsed rdata: its presentation text (str(rdata)) and its attributes. */
  datatype Rdata = Rdata(text: string, fields: RdataFields)

  datatype Rdataset = Rdataset(rtype: string, ttl: int, rdatas: seq<Rdata>)

  /** A node of the parsed zone; `name` is already the absolute owner name. */
  datatype Node = Node(name: string, rdatasets: seq<Rdataset>)

  const BaseRecordKeys: set<Column> := {ZoneFileId, RecordType, Name, Ttl, Status, CreatedBy, Value}

  /** ' '.join(parts) */
  function JoinWithSpaces(parts: seq<string>): string {
    if parts == [] then "" else Join(parts, ' ')
  }

  function AllDecoded(xs: seq<Option<string>>): Option<seq<string>> {
    if xs == [] then Some([])
    else match (xs[0], AllDecoded(xs[1..]))
      case (Some(x), Some(rest)) => Some([x] + rest)
      case _ => None
  }

  /** The type-specific keys; None when reading an attribute or decoding raises. */
  function TypeSpecificKeys(rtype: string, f: RdataFields): (r: Option<Row>)
    ensures r.Some? ==> r.value.Keys !! BaseRecordKeys
  {
    match rtype
    case "A" => if f.AddressData? then Some(map[AddressIpv4 := Str(f.address)]) else None
    case "AAAA" => if f.AddressData? then Some(map[AddressIpv6 := Str(f.address)]) else None
    case "CNAME" => if f.TargetData? then Some(map[CnameTarget := Str(f.target)]) else None
    case "MX" =>
      if f.MxData? then Some(map[MxTarget := Str(f.exchange), Priority := Int(f.preference)]) else None
    case "NS" => if f.TargetData? then Some(map[NsTarget := Str(f.target)]) else None
    case "PTR" => if f.TargetData? then Some(map[Ptrdname := Str(f.target)]) else None
    case "TXT" =>
      if f.TxtData? && AllDecoded(f.strings).Some? then Some(map[Txt := Str(JoinWithSpaces(AllDecoded(f.strings).value))])
      else None
    case "SRV" =>
      if f.SrvData? then
        Some(map[SrvTarget := Str(f.srvTarget), Priority := Int(f.priority), Weight := Int(f.weight), Port := Int(f.port)])
      else None
    case "CAA" =>
      if f.CaaData? && f.tag.Some? && f.value.Some? then
        Some(map[CaaFlag := Int(f.flags), CaaTag := Str(f.tag.value), CaaValue := Str(f.value.value)])
      else None
    case _ => Some(map[])
  }

  /** The dns_records row for one rdata, or None when the conversion raised. */
  function ConvertRdata(name: string, rtype: string, rdata: Rdata, ttl: int, zoneId: int, userId: int): (r: Option<Row>)
    ensures r.Some? <==> TypeSpecificKeys(rtype, rdata.fields).Some?
    ensures r.Some? ==>
              BaseRecordKeys <= r.value.Keys &&
              r.value[ZoneFileId] == Int(zoneId) && r.value[RecordType] == Str(rtype) &&
              r.value[Name] == Str(name) && r.value[Ttl] == Int(ttl) &&
              r.value[Status] == Str("active") && r.value[CreatedBy] == Int(userId) &&
              r.value[Value] == Str(rdata.text)
    ensures r.Some? ==> r.value.Keys == BaseRecordKeys + TypeSpecificKeys(rtype, rdata.fields).value.Keys
  {
    var base := map[ZoneFileId := Int(zoneId), RecordType := Str(rtype), Name := Str(name),
                    Ttl := Int(ttl), Status := Str("active"), CreatedBy := Int(userId),
                    Value := Str(rdata.text)];
    assert base.Keys == BaseRecordKeys;
    match TypeSpecificKeys(rtype, rdata.fields)
    case None => None
    case Some(extra) =>
      MergeKeepsBase(base, extra);
      Some(base + extra)
  }

  /** Keys the added map does not hold keep their base value. */
  lemma MergeKeepsBase<K, V>(base: map<K, V>, extra: map<K, V>)
    requires base.Keys !! extra.Keys
    ensures (base + extra).Keys == base.Keys + extra.Keys
    ensures forall k :: k in base ==> (base + extra)[k] == base[k]
  {
  }

  /** A TXT record carries its strings joined by single spaces. */
  lemma TxtStringsJoined(name: string, rdata: Rdata, ttl: int, zoneId: int, userId: int, parts: seq<string>)
    requires rdata.fields.TxtData? && AllDecoded(rdata.fields.strings) == Some(parts)
    ensures ConvertRdata(name, "TXT", rdata, ttl, zoneId, userId).Some?
    ensures ConvertRdata(name, "TXT", rdata, ttl, zoneId, userId).value[Txt] == Str(JoinWithSpaces(parts))
  {
  }

  function OptionToSeq<T>(o: Option<T>): (s: seq<T>)
    ensures |s| <= 1
  {
    if o.Some? then [o.value] else []
  }

  /** The successful results of `f` over `xs`, in order: a for loop that skips the items that raise. */
  function Converted<A, B>(xs: seq<A>, f: A -> Option<B>): (r: seq<B>)
    ensures |r| <= |xs|
    decreases |xs|
  {
    if xs == [] then [] else Converted(xs[..|xs| - 1], f) + OptionToSeq(f(xs[|xs| - 1]))
  }

  /** Every result comes from some item. */
  lemma {:induction false} ConvertedFrom<A, B>(xs: seq<A>, f: A -> Option<B>, y: B)
    requires y in Converted(xs, f)
    ensures exists k :: 0 <= k < |xs| && f(xs[k]) == Some(y)
    decreases |xs|
  {
    var n := |xs| - 1;
    if y in Converted(xs[..n], f) {
      ConvertedFrom(xs[..n], f, y);
      var k :| 0 <= k < n && f(xs[..n][k]) == Some(y);
      assert xs[..n][k] == xs[k];
    } else {
      assert f(xs[n]) == Some(y);
    }
  }

  lemma ConvertedStep<A, B>(xs: seq<A>, k: nat, f: A -> Option<B>)
    requires k < |xs|
    ensures Converted(xs[..k + 1], f) == Converted(xs[..k], f) + OptionToSeq(f(xs[k]))
  {
    assert xs[..k + 1][..k] == xs[..k];
  }

  /** Nothing is dropped exactly when no item fails. */
  lemma {:induction false} ConvertedKeepsAllIff<A, B>(xs: seq<A>, f: A -> Option<B>)
    ensures |Converted(xs, f)| == |xs| <==> forall k :: 0 <= k < |xs| ==> f(xs[k]).Some?
    decreases |xs|
  {
    if xs != [] {
      var n := |xs| - 1;
      var front := xs[..n];
      ConvertedKeepsAllIff(front, f);
      assert |Converted(xs, f)| == |Converted(front, f)| + |OptionToSeq(f(xs[n]))|;
      assert (forall k :: 0 <= k < |xs| ==> f(xs[k]).Some?) <==>
             (forall k :: 0 <= k < n ==> f(front[k]).Some?) && f(xs[n]).Some? by {
        assert forall k :: 0 <= k < n ==> front[k] == xs[k];
      }
    }
  }

  function Converter(name: string, rs: Rdataset, zoneId: int, userId: int): Rdata -> Option<Row> {
    (d: Rdata) => ConvertRdata(name, rs.rtype, d, rs.ttl, zoneId, userId)
  }

  /** The rows for the rdatas of one rdataset, dropping those whose conversion failed. */
  function RdataRecords(name: string, rs: Rdataset, rdatas: seq<Rdata>, zoneId: int, userId: int): (rows: seq<Row>)
    ensures |rows| <= |rdatas|
    ensures forall r :: r in rows ==> RecordType in r && r[RecordType] == Str(rs.rtype)
  {
    var f := Converter(name, rs, zoneId, userId);
    forall r | r in Converted(rdatas, f)
      ensures RecordType in r && r[RecordType] == Str(rs.rtype)
    {
      ConvertedFrom(rdatas, f, r);
    }
    Converted(rdatas, f)
  }

  /** Only the rdatas whose conversion raised are dropped. */
  lemma RdataRecordsDropOnlyFailures(name: string, rs: Rdataset, rdatas: seq<Rdata>, zoneId: int, userId: int)
    ensures |RdataRecords(name, rs, rdatas, zoneId, userId)| == |rdatas| <==>
              forall k :: 0 <= k < |rdatas| ==> ConvertRdata(name, rs.rtype, rdatas[k], rs.ttl, zoneId, userId).Some?
  {
    ConvertedKeepsAllIff(rdatas, Converter(name, rs, zoneId, userId));
  }

  /** The rows of one node: every rdataset but SOA. */
  function NodeRecords(name: string, sets: seq<Rdataset>, zoneId: int, userId: int): (rows: seq<Row>)
    ensures forall r :: r in rows ==> RecordType in r && r[RecordType] != Str("SOA")
    decreases |sets|
  {
    if sets == [] then []
    else
      var last := sets[|sets| - 1];
      NodeRecords(name, sets[..|sets| - 1], zoneId, userId) +
      (if last.rtype == "SOA" then [] else RdataRecords(name, last, last.rdatas, zoneId, userId))
  }

  /** The rows of the whole zone, node by node. */
  function ZoneRecords(nodes: seq<Node>, zoneId: int, userId: int): (rows: seq<Row>)
    ensures forall r :: r in rows ==> RecordType in r && r[RecordType] != Str("SOA")
    decreases |nodes|
  {
    if nodes == [] then []
    else
      var last := nodes[|nodes| - 1];
      ZoneRecords(nodes[..|nodes| - 1], zoneId, userId) + NodeRecords(last.name, last.rdatasets, zoneId, userId)
  }

  lemma RdataRecordsStep(name: string, rs: Rdataset, rdatas: seq<Rdata>, k: nat, zoneId: int, userId: int)
    requires k < |rdatas|
    ensures RdataRecords(name, rs, rdatas[..k + 1], zoneId, userId)
      == RdataRecords(name, rs, rdatas[..k], zoneId, userId) + OptionToSeq(ConvertRdata(name, rs.rtype, rdatas[k], rs.ttl, zoneId, userId))
  {
    ConvertedStep(rdatas, k, Converter(name, rs, zoneId, userId));
  }

  lemma NodeRecordsStep(name: string, sets: seq<Rdataset>, j: nat, zoneId: int, userId: int)
    requires j < |sets|
    ensures NodeRecords(name, sets[..j + 1], zoneId, userId) == NodeRecords(name, sets[..j], zoneId, userId)
      + (if sets[j].rtype == "SOA" then [] else RdataRecords(name, sets[j], sets[j].rdatas, zoneId, userId))
  {
    assert sets[..j + 1][..j] == sets[..j];
  }

  lemma ZoneRecordsStep(nodes: seq<Node>, i: nat, zoneId: int, userId: int)
    requires i < |nodes|
    ensures ZoneRecords(nodes[..i + 1], zoneId, userId)
      == ZoneRecords(nodes[..i], zoneId, userId) + NodeRecords(nodes[i].name, nodes[i].rdatasets, zoneId, userId)
  {
    assert nodes[..i + 1][..i] == nodes[..i];
  }

  /** The innermost loop of _extract_records: the rows of one rdataset. */
  method ConvertRdataset(name: string, rs: Rdataset, zoneId: int, userId: int) returns (rows: seq<Row>)
    ensures rows == RdataRecords(name, rs, rs.rdatas, zoneId, userId)
  {
    rows := [];
    var k := 0;
    while k < |rs.rdatas|
      invariant 0 <= k <= |rs.rdatas|
      invariant rows == RdataRecords(name, rs, rs.rdatas[..k], zoneId, userId)
    {
      var converted := ConvertRdata(name, rs.rtype, rs.rdatas[k], rs.ttl, zoneId, userId);
      RdataRecordsStep(name, rs, rs.rdatas, k, zoneId, userId);
      if converted.Some? {
        rows := rows + [converted.value];
      }
      k := k + 1;
    }
    assert rs.rdatas[..k] == rs.rdatas;
  }

  /** The middle loop of _extract_records: the rows of one node, SOA skipped. */
  method ConvertNode(node: Node, zoneId: int, userId: int) returns (rows: seq<Row>)
    ensures rows == NodeRecords(node.name, node.rdatasets, zoneId, userId)
  {
    rows := [];
    var j := 0;
    while j < |node.rdatasets|
      invariant 0 <= j <= |node.rdatasets|
      invariant rows == NodeRecords(node.name, node.rdatasets[..j], zoneId, userId)
    {
      var rs := node.rdatasets[j];
      NodeRecordsStep(node.name, node.rdatasets, j, zoneId, userId);
      if rs.rtype != "SOA" {
        var more := ConvertRdataset(node.name, rs, zoneId, userId);
        rows := rows + more;
      }
      j := j + 1;
    }
    assert node.rdatasets[..j] == node.rdatasets;
  }

  /** _extract_records, proved to build ZoneRecords. */
  method ExtractRecords(nodes: seq<Node>, zoneId: int, userId: int) returns (records: seq<Row>)
    ensures records == ZoneRecords(nodes, zoneId, userId)
  {
    records := [];
    var i := 0;
    while i < |nodes|
      invariant 0 <= i <= |nodes|
      invariant records == ZoneRecords(nodes[..i], zoneId, userId)
    {
      var more := ConvertNode(nodes[i], zoneId, userId);
      ZoneRecordsStep(nodes, i, zoneId, userId);
      records := records + more;
      i := i + 1;
    }
    assert nodes[..i] == nodes;
  }

  // ---------------------------------------------------------------------------
  // Insert statements (_create_zone_db, _create_record_db)
  // ---------------------------------------------------------------------------

  /** A value in an INSERT: a bound parameter or the SQL expression NOW(). */
  datatype SqlValue = Param(v: Value) | Now

  datatype Insert = Insert(table: string, columns: seq<Column>, placeholders: seq<string>, params: seq<Value>)

  const ZoneBaseColumns := [Name, Filename, FileType, Status, CreatedBy, Domain]
  const ZoneOptionalColumns := [Content, DefaultTtl, SoaRefresh, SoaRetry, SoaExpire, SoaMinimum, SoaRname, Mname]
  const RecordBaseColumns := [ZoneFileId, RecordType, Name, Value, Ttl, Status, CreatedBy]

  /** The type_columns table. */
  function TypeColumns(rtype: string): seq<Column> {
    match rtype
    case "A" => [AddressIpv4]
    case "AAAA" => [AddressIpv6]
    case "CNAME" => [CnameTarget]
    case "MX" => [MxTarget, Priority]
    case "NS" => [NsTarget]
    case "PTR" => [Ptrdname]
    case "TXT" => [Txt]
    case "SRV" => [SrvTarget, Priority, Weight, Port]
    case "CAA" => [CaaFlag, CaaTag, CaaValue]
    case "SSHFP" => [SshfpAlgo, SshfpType, SshfpFingerprint]
    case "TLSA" => [TlsaUsage, TlsaSelector, TlsaMatching, TlsaData]
    case "NAPTR" => [NaptrOrder, NaptrPref, NaptrFlags, NaptrService, NaptrRegexp, NaptrReplacement]
    case _ => []
  }

  /** dict.get(col): None when the key is missing. */
  function Lookup<K>(data: map<K, Value>, col: K): Value {
    if col in data then data[col] else Null
  }

  /** The columns of `cols` the schema has and, when `needData`, the dict has too, in order. */
  function Keep<K>(cols: seq<K>, schema: set<K>, data: map<K, Value>, needData: bool): (kept: seq<K>)
    ensures |kept| <= |cols|
    decreases |cols|
  {
    if cols == [] then []
    else
      var c := cols[|cols| - 1];
      Keep(cols[..|cols| - 1], schema, data, needData) +
      (if c in schema && (!needData || c in data) then [c] else [])
  }

  /** A column is kept exactly when the schema has it and, if asked, the dict has it too. */
  lemma {:induction false} KeepMembers<K>(cols: seq<K>, schema: set<K>, data: map<K, Value>, needData: bool, c: K)
    ensures c in Keep(cols, schema, data, needData) <==> c in cols && c in schema && (needData ==> c in data)
    decreases |cols|
  {
    if cols != [] {
      var n := |cols| - 1;
      KeepMembers(cols[..n], schema, data, needData, c);
      assert c in cols <==> c in cols[..n] || c == cols[n] by {
        assert cols == cols[..n] + [cols[n]];
      }
    }
  }

  lemma {:induction false} KeepNone<K>(cols: seq<K>, schema: set<K>, data: map<K, Value>, needData: bool)
    requires forall c :: c in cols ==> c !in schema
    ensures Keep(cols, schema, data, needData) == []
    decreases |cols|
  {
    if cols != [] {
      KeepNone(cols[..|cols| - 1], schema, data, needData);
    }
  }

  /** The columns the insert names: base columns in the schema, optional ones in schema and dict, created_at. */
  function SelectedColumns(base: seq<Column>, optional: seq<Column>, schema: set<Column>, data: Row): seq<Column> {
    Keep(base, schema, data, false) + Keep(optional, schema, data, true) +
    (if CreatedAt in schema then [CreatedAt] else [])
  }

  /** The dict's value of each column, as bound parameters. */
  function Params<K>(cols: seq<K>, data: map<K, Value>): (ps: seq<SqlValue>)
    ensures |ps| == |cols|
    ensures forall i :: 0 <= i < |cols| ==> ps[i] == Param(Lookup(data, cols[i]))
    decreases |cols|
  {
    if cols == [] then [] else Params(cols[..|cols| - 1], data) + [Param(Lookup(data, cols[|cols| - 1]))]
  }

  /** The value of each selected column: the dict's value, and NOW() for created_at. */
  function SelectedValues(base: seq<Column>, optional: seq<Column>, schema: set<Column>, data: Row): seq<SqlValue> {
    Params(Keep(base, schema, data, false) + Keep(optional, schema, data, true), data) +
    (if CreatedAt in schema then [Now] else [])
  }

  lemma SelectedColumnsInSchema(base: seq<Column>, optional: seq<Column>, schema: set<Column>, data: Row)
    ensures forall c :: c in SelectedColumns(base, optional, schema, data) ==> c in schema
    ensures forall c :: c in SelectedColumns(base, optional, schema, data) && c !in base && c != CreatedAt ==>
              c in optional && c in data
    ensures |SelectedValues(base, optional, schema, data)| == |SelectedColumns(base, optional, schema, data)|
  {
    forall c | c in SelectedColumns(base, optional, schema, data)
      ensures c in schema
      ensures c !in base && c != CreatedAt ==> c in optional && c in data
    {
      KeepMembers(base, schema, data, false, c);
      KeepMembers(optional, schema, data, true, c);
    }
  }

  /** One append loop of the column selection: the columns kept and their values. */
  method KeepColumns<K>(cols: seq<K>, schema: set<K>, data: map<K, Value>, needData: bool)
    returns (columns: seq<K>, values: seq<SqlValue>)
    ensures columns == Keep(cols, schema, data, needData)
    ensures values == Params(columns, data)
  {
    columns, values := [], [];
    var i := 0;
    while i < |cols|
      invariant 0 <= i <= |cols|
      invariant columns == Keep(cols[..i], schema, data, needData)
      invariant values == Params(columns, data)
    {
      var c := cols[i];
      KeepStep(cols, i, schema, data, needData);
      if c in schema && (!needData || c in data) {
        ParamsAppend(columns, [c], data);
        assert Params([c], data) == [Param(Lookup(data, c))];
        columns := columns + [c];
        values := values + [Param(Lookup(data, c))];
      }
      i := i + 1;
    }
    assert cols[..i] == cols;
  }

  lemma KeepStep<K>(cols: seq<K>, i: nat, schema: set<K>, data: map<K, Value>, needData: bool)
    requires i < |cols|
    ensures Keep(cols[..i + 1], schema, data, needData) == Keep(cols[..i], schema, data, needData)
      + (if cols[i] in schema && (!needData || cols[i] in data) then [cols[i]] else [])
  {
    assert cols[..i + 1][..i] == cols[..i];
  }

  lemma {:induction false} ParamsAppend<K>(a: seq<K>, b: seq<K>, data: map<K, Value>)
    ensures Params(a + b, data) == Params(a, data) + Params(b, data)
  {
  }

  /** The column selection of both inserts, proved to build SelectedColumns/SelectedValues. */
  method SelectColumns(data: Row, base: seq<Column>, optional: seq<Column>, schema: set<Column>)
    returns (columns: seq<Column>, values: seq<SqlValue>)
    ensures columns == SelectedColumns(base, optional, schema, data)
    ensures values == SelectedValues(base, optional, schema, data)
  {
    var baseColumns, baseValues := KeepColumns(base, schema, data, false);
    var optColumns, optValues := KeepColumns(optional, schema, data, true);
    ParamsAppend(baseColumns, optColumns, data);
    columns := baseColumns + optColumns;
    values := baseValues + optValues;
    if CreatedAt in schema {
      columns := columns + [CreatedAt];
      values := values + [Now];
    }
  }

  /** The placeholder of each value: NOW() for the timestamp, %s for a bound parameter. */
  function Placeholders(values: seq<SqlValue>): (ps: seq<string>)
    ensures |ps| == |values|
    ensures forall i :: 0 <= i < |values| ==> (ps[i] == "%s" <==> values[i].Param?)
  {
    seq(|values|, i requires 0 <= i < |values| => if values[i].Now? then "NOW()" else "%s")
  }

  /** The parameters bound to the %s placeholders, in order. */
  function BoundValues(values: seq<SqlValue>): (bound: seq<Value>)
    ensures |bound| <= |values|
    decreases |values|
  {
    if values == [] then []
    else BoundValues(values[..|values| - 1]) +
         (match values[|values| - 1] case Param(v) => [v] case Now => [])
  }

  function CountOf(ps: seq<string>, p: string): nat
    decreases |ps|
  {
    if ps == [] then 0 else CountOf(ps[..|ps| - 1], p) + (if ps[|ps| - 1] == p then 1 else 0)
  }

  /** As many %s placeholders as bound parameters. */
  lemma {:induction false} PlaceholderCount(values: seq<SqlValue>)
    ensures CountOf(Placeholders(values), "%s") == |BoundValues(values)|
    decreases |values|
  {
    if values != [] {
      var init := values[..|values| - 1];
      PlaceholderCount(init);
      assert Placeholders(values)[..|values| - 1] == Placeholders(init);
    }
  }

  /** The record's type as a string, or "" when it has none: what selects the type columns. */
  function RecordTypeOf(record: Row): string {
    if RecordType in record && record[RecordType].Str? then record[RecordType].s else ""
  }

  /** The INSERT for a dns_records row. */
  method RecordInsert(record: Row, schema: set<Column>) returns (stmt: Insert)
    ensures stmt.table == "dns_records"
    ensures stmt.columns == SelectedColumns(RecordBaseColumns, TypeColumns(RecordTypeOf(record)), schema, record)
    ensures stmt.placeholders == Placeholders(SelectedValues(RecordBaseColumns, TypeColumns(RecordTypeOf(record)), schema, record))
    ensures stmt.params == BoundValues(SelectedValues(RecordBaseColumns, TypeColumns(RecordTypeOf(record)), schema, record))
    ensures forall c :: c in stmt.columns ==> c in schema
    ensures forall c :: c in stmt.columns && c !in RecordBaseColumns && c != CreatedAt ==> c in record
    ensures |stmt.placeholders| == |stmt.columns|
    ensures CountOf(stmt.placeholders, "%s") == |stmt.params|
  {
    var rtype := RecordTypeOf(record);
    var columns, values := SelectColumns(record, RecordBaseColumns, TypeColumns(rtype), schema);
    SelectedColumnsInSchema(RecordBaseColumns, TypeColumns(rtype), schema, record);
    PlaceholderCount(values);
    stmt := Insert("dns_records", columns, Placeholders(values), BoundValues(values));
  }

  /** The INSERT for a zone_files row. */
  method ZoneInsert(zoneData: Row, schema: set<Column>) returns (stmt: Insert)
    ensures stmt.table == "zone_files"
    ensures stmt.columns == SelectedColumns(ZoneBaseColumns, ZoneOptionalColumns, schema, zoneData)
    ensures stmt.placeholders == Placeholders(SelectedValues(ZoneBaseColumns, ZoneOptionalColumns, schema, zoneData))
    ensures stmt.params == BoundValues(SelectedValues(ZoneBaseColumns, ZoneOptionalColumns, schema, zoneData))
    ensures forall c :: c in stmt.columns ==> c in schema
    ensures forall c :: c in stmt.columns && c !in ZoneBaseColumns && c != CreatedAt ==> c in zoneData
    ensures |stmt.placeholders| == |stmt.columns|
    ensures CountOf(stmt.placeholders, "%s") == |stmt.params|
  {
    var columns, values := SelectColumns(zoneData, ZoneBaseColumns, ZoneOptionalColumns, schema);
    SelectedColumnsInSchema(ZoneBaseColumns, ZoneOptionalColumns, schema, zoneData);
    PlaceholderCount(values);
    stmt := Insert("zone_files", columns, Placeholders(values), BoundValues(values));
  }

  // The code as written keeps the timestamp as the string 'NOW()' in the value
  // list and then decides placeholder and binding by comparing every value with
  // that string, so a record value that happens to be the text NOW() is also
  // turned into the SQL expression.

  function AsWrittenValue(v: SqlValue): Value {
    match v case Param(x) => x case Now => Str("NOW()")
  }

  function PlaceholdersAsWritten(values: seq<Value>): (ps: seq<string>)
    ensures |ps| == |values|
  {
    seq(|values|, i requires 0 <= i < |values| => if values[i] == Str("NOW()") then "NOW()" else "%s")
  }

  function BoundValuesAsWritten(values: seq<Value>): seq<Value>
    decreases |values|
  {
    if values == [] then []
    else BoundValuesAsWritten(values[..|values| - 1]) +
         (if values[|values| - 1] == Str("NOW()") then [] else [values[|values| - 1]])
  }

  function EraseTags(values: seq<SqlValue>): (erased: seq<Value>)
    ensures |erased| == |values|
  {
    seq(|values|, i requires 0 <= i < |values| => AsWrittenValue(values[i]))
  }

  /** When no column value is the text NOW(), the code as written builds the intended statement. */
  lemma {:induction false} AsWrittenAgreesWithoutNowText(values: seq<SqlValue>)
    requires Param(Str("NOW()")) !in values
    ensures PlaceholdersAsWritten(EraseTags(values)) == Placeholders(values)
    ensures BoundValuesAsWritten(EraseTags(values)) == BoundValues(values)
    decreases |values|
  {
    if values != [] {
      var init := values[..|values| - 1];
      AsWrittenAgreesWithoutNowText(init);
      assert EraseTags(values)[..|values| - 1] == EraseTags(init);
    }
  }

  /** A TXT record whose only string is NOW() is converted with txt = NOW(). */
  lemma TxtNowRow(rdata: Rdata)
    requires rdata.fields == TxtData([Some("NOW()")])
    ensures var r := ConvertRdata("a.example.com.", "TXT", rdata, 3600, 1, 1);
            r.Some? && Txt in r.value && r.value[Txt] == Str("NOW()")
  {
    var xs := [Some("NOW()")];
    assert xs[1..] == [] && AllDecoded(xs[1..]) == Some([]);
    assert AllDecoded(xs) == Some(["NOW()"] + []);
    assert ["NOW()"] + [] == ["NOW()"];
  }

  /** When the schema has a single optional column and the row has it, the insert binds exactly that value. */
  lemma SingleColumnValues(base: seq<Column>, col: Column, row: Row)
    requires col !in base && col in row && col != CreatedAt
    ensures SelectedValues(base, [col], {col}, row) == [Param(row[col])]
  {
    KeepNone(base, {col}, row, false);
    var cols := [col];
    assert cols[..0] == [];
    var kept := Keep(cols, {col}, row, true);
    assert kept == Keep([], {col}, row, true) + [col];
    assert Keep(base, {col}, row, false) + kept == [col];
    assert Params([col], row) == Params([], row) + [Param(row[col])];
  }

  /** The text NOW() as a column value: as written it becomes SQL NOW() and is not bound; intended, it is bound. */
  lemma NowTextAsWritten()
    ensures PlaceholdersAsWritten(EraseTags([Param(Str("NOW()"))])) == ["NOW()"]
    ensures BoundValuesAsWritten(EraseTags([Param(Str("NOW()"))])) == []
    ensures Placeholders([Param(Str("NOW()"))]) == ["%s"]
    ensures BoundValues([Param(Str("NOW()"))]) == [Str("NOW()")]
  {
    assert EraseTags([Param(Str("NOW()"))]) == [Str("NOW()")];
    assert BoundValues([Param(Str("NOW()"))]) == BoundValues([]) + [Str("NOW()")];
    assert BoundValuesAsWritten([Str("NOW()")]) == BoundValuesAsWritten([]);
  }

  /** A TXT record whose text is NOW(): as written, its txt column receives the SQL expression, not the text. */
  lemma TxtNowBecomesTimestamp(rdata: Rdata)
    requires rdata.fields == TxtData([Some("NOW()")])
    ensures var row := ConvertRdata("a.example.com.", "TXT", rdata, 3600, 1, 1).value;
            var values := SelectedValues(RecordBaseColumns, TypeColumns("TXT"), {Txt}, row);
            PlaceholdersAsWritten(EraseTags(values)) == ["NOW()"] && BoundValuesAsWritten(EraseTags(values)) == [] &&
            Placeholders(values) == ["%s"] && BoundValues(values) == [Str("NOW()")]
  {
    TxtNowRow(rdata);
    assert TypeColumns("TXT") == [Txt];
    SingleColumnValues(RecordBaseColumns, Txt, ConvertRdata("a.example.com.", "TXT", rdata, 3600, 1, 1).value);
    NowTextAsWritten();
  }

  // ---------------------------------------------------------------------------
  // The importer and its statistics (import_zone_file, run)
  // ---------------------------------------------------------------------------

  /** What dnspython yields for a file it could parse. */
  datatype ParsedZone = ParsedZone(nodes: seq<Node>, apexSoa: Option<Soa>, defaultTtl: Option<int>)

  /** A zone file found in the directory: its name, stem and text, and the parse (None when it raised). */
  datatype ZoneFileInput = ZoneFileInput(filename: string, stem: string, content: string, parsed: Option<ParsedZone>)

  const FallbackDefaultTtl := 86400

  /** zone_data of import_zone_file, for the zone named zoneName. */
  function ZoneData(file: ZoneFileInput, zone: ParsedZone, zoneName: string, userId: int): (d: Row)
    ensures FileType in d && d[FileType] == Str("master") && Status in d && d[Status] == Str("active")
    ensures Name in d && Domain in d && d[Name] == d[Domain] == Str(zoneName)
    ensures Filename in d && d[Filename] == Str(file.filename)
    ensures CreatedBy in d && d[CreatedBy] == Int(userId)
    ensures DefaultTtl in d && d[DefaultTtl] == Int(if zone.defaultTtl.Some? then zone.defaultTtl.value else FallbackDefaultTtl)
    ensures forall k :: k in SoaKeys ==> k in d && d[k] == ExtractSoaData(zone.apexSoa)[k]
  {
    var soa := ExtractSoaData(zone.apexSoa);
    map[Name := Str(zoneName), Filename := Str(file.filename), FileType := Str("master"),
        Status := Str("active"), CreatedBy := Int(userId), Domain := Str(zoneName),
        DefaultTtl := Int(zone.defaultTtl.GetOr(FallbackDefaultTtl)),
        Mname := soa[Mname], SoaRname := soa[SoaRname], SoaRefresh := soa[SoaRefresh],
        SoaRetry := soa[SoaRetry], SoaExpire := soa[SoaExpire], SoaMinimum := soa[SoaMinimum]]
  }

  /** How many rows the sink accepted. */
  function Accepted(rows: seq<Row>, createRecord: Row -> bool): (n: nat)
    ensures n <= |rows|
    decreases |rows|
  {
    if rows == [] then 0
    else Accepted(rows[..|rows| - 1], createRecord) + (if createRecord(rows[|rows| - 1]) then 1 else 0)
  }

  /** A zone id the script treats as a success: present and non-zero. */
  predicate Truthy(id: Option<int>) { id.Some? && id.value != 0 }

  class ZoneImporter {
    const dryRun: bool
    const skipExisting: bool
    const userId: int

    var zonesCreated: nat
    var recordsCreated: nat
    var includesCreated: nat
    var errors: nat
    var skipped: nat

    constructor(dryRun: bool, skipExisting: bool, userId: int)
      ensures this.dryRun == dryRun && this.skipExisting == skipExisting && this.userId == userId
      ensures zonesCreated == recordsCreated == includesCreated == errors == skipped == 0
    {
      this.dryRun := dryRun;
      this.skipExisting := skipExisting;
      this.userId := userId;
      zonesCreated, recordsCreated, includesCreated, errors, skipped := 0, 0, 0, 0, 0;
    }

    /**
     * import_zone_file. The database or API is represented by `zoneExists`,
     * `createZone` (the new zone's id, if any) and `createRecord` (whether the
     * row was stored).
     */
    method ImportZoneFile(file: ZoneFileInput, zoneExists: string -> bool,
                          createZone: Row -> Option<int>, createRecord: Row -> bool) returns (ok: bool)
      modifies this
      ensures includesCreated == old(includesCreated)
      ensures file.parsed.None? ==>
                !ok && errors == old(errors) + 1 &&
                zonesCreated == old(zonesCreated) && recordsCreated == old(recordsCreated) && skipped == old(skipped)
      ensures file.parsed.Some? && skipExisting && zoneExists(ZoneName(DeriveOrigin(file.content, file.stem))) ==>
                ok && skipped == old(skipped) + 1 &&
                zonesCreated == old(zonesCreated) && recordsCreated == old(recordsCreated) && errors == old(errors)
      ensures file.parsed.Some? && !(skipExisting && zoneExists(ZoneName(DeriveOrigin(file.content, file.stem)))) && dryRun ==>
                ok && zonesCreated == old(zonesCreated) + 1 &&
                recordsCreated == old(recordsCreated) + |ZoneRecords(file.parsed.value.nodes, 0, userId)| &&
                errors == old(errors) && skipped == old(skipped)
      ensures file.parsed.Some? && !(skipExisting && zoneExists(ZoneName(DeriveOrigin(file.content, file.stem)))) && !dryRun ==>
                var zoneId := createZone(ZoneData(file, file.parsed.value, ZoneName(DeriveOrigin(file.content, file.stem)), userId));
                skipped == old(skipped) &&
                if !Truthy(zoneId) then
                  !ok && errors == old(errors) + 1 && zonesCreated == old(zonesCreated) && recordsCreated == old(recordsCreated)
                else
                  var rows := ZoneRecords(file.parsed.value.nodes, zoneId.value, userId);
                  ok && zonesCreated == old(zonesCreated) + 1 &&
                  recordsCreated == old(recordsCreated) + Accepted(rows, createRecord) &&
                  errors == old(errors) + |rows| - Accepted(rows, createRecord)
    {
      if file.parsed.None? {
        errors := errors + 1;
        return false;
      }
      var zone := file.parsed.value;
      var origin := DeriveOrigin(file.content, file.stem);
      var zoneName := ZoneName(origin);
      if skipExisting && zoneExists(zoneName) {
        skipped := skipped + 1;
        return true;
      }
      ok := ImportParsed(file, zone, zoneName, createZone, createRecord);
    }

    /** The part of import_zone_file after the skip check: a dry run only counts, otherwise the zone is stored. */
    method ImportParsed(file: ZoneFileInput, zone: ParsedZone, zoneName: string,
                        createZone: Row -> Option<int>, createRecord: Row -> bool) returns (ok: bool)
      modifies this
      ensures includesCreated == old(includesCreated) && skipped == old(skipped)
      ensures dryRun ==>
                ok && zonesCreated == old(zonesCreated) + 1 &&
                recordsCreated == old(recordsCreated) + |ZoneRecords(zone.nodes, 0, userId)| &&
                errors == old(errors)
      ensures !dryRun ==>
                var zoneId := createZone(ZoneData(file, zone, zoneName, userId));
                if !Truthy(zoneId) then
                  !ok && errors == old(errors) + 1 && zonesCreated == old(zonesCreated) && recordsCreated == old(recordsCreated)
                else
                  var rows := ZoneRecords(zone.nodes, zoneId.value, userId);
                  ok && zonesCreated == old(zonesCreated) + 1 &&
                  recordsCreated == old(recordsCreated) + Accepted(rows, createRecord) &&
                  errors == old(errors) + |rows| - Accepted(rows, createRecord)
    {
      var zoneData := ZoneData(file, zone, zoneName, userId);
      if dryRun {
        var records := ExtractRecords(zone.nodes, 0, userId);
        zonesCreated := zonesCreated + 1;
        recordsCreated := recordsCreated + |records|;
        return true;
      }
      ok := StoreZone(zoneData, zone.nodes, createZone, createRecord);
    }

    /** The non-dry-run half of import_zone_file: create the zone, then its records. */
    method StoreZone(zoneData: Row, nodes: seq<Node>, createZone: Row -> Option<int>, createRecord: Row -> bool)
      returns (ok: bool)
      modifies this
      ensures includesCreated == old(includesCreated) && skipped == old(skipped)
      ensures var zoneId := createZone(zoneData);
        if !Truthy(zoneId) then
          !ok && errors == old(errors) + 1 && zonesCreated == old(zonesCreated) && recordsCreated == old(recordsCreated)
        else
          var rows := ZoneRecords(nodes, zoneId.value, userId);
          ok && zonesCreated == old(zonesCreated) + 1 &&
          recordsCreated == old(recordsCreated) + Accepted(rows, createRecord) &&
          errors == old(errors) + |rows| - Accepted(rows, createRecord)
    {
      var zoneId := createZone(zoneData);
      if !Truthy(zoneId) {
        errors := errors + 1;
        return false;
      }
      zonesCreated := zonesCreated + 1;
      var records := ExtractRecords(nodes, zoneId.value, userId);
      CreateRecords(records, createRecord);
      return true;
    }

    /** The loop of import_zone_file over the extracted records. */
    method CreateRecords(records: seq<Row>, createRecord: Row -> bool)
      modifies this
      ensures recordsCreated == old(recordsCreated) + Accepted(records, createRecord)
      ensures errors == old(errors) + |records| - Accepted(records, createRecord)
      ensures zonesCreated == old(zonesCreated) && skipped == old(skipped) && includesCreated == old(includesCreated)
    {
      var i := 0;
      while i < |records|
        invariant 0 <= i <= |records|
        invariant recordsCreated == old(recordsCreated) + Accepted(records[..i], createRecord)
        invariant errors == old(errors) + i - Accepted(records[..i], createRecord)
        invariant zonesCreated == old(zonesCreated) && skipped == old(skipped)
        invariant includesCreated == old(includesCreated)
      {
        assert records[..i + 1][..i] == records[..i];
        if createRecord(records[i]) {
          recordsCreated := recordsCreated + 1;
        } else {
          errors := errors + 1;
        }
        i := i + 1;
      }
      assert records[..i] == records;
    }

    /** The errors importing one zone file counts (see ImportZoneFile). */
    function FileErrors(file: ZoneFileInput, zoneExists: string -> bool,
                        createZone: Row -> Option<int>, createRecord: Row -> bool): nat
    {
      if file.parsed.None? then 1
      else
        var zoneName := ZoneName(DeriveOrigin(file.content, file.stem));
        if (skipExisting && zoneExists(zoneName)) || dryRun then 0
        else
          var zoneId := createZone(ZoneData(file, file.parsed.value, zoneName, userId));
          if !Truthy(zoneId) then 1
          else
            var rows := ZoneRecords(file.parsed.value.nodes, zoneId.value, userId);
            |rows| - Accepted(rows, createRecord)
    }

    /** The errors importing every file counts. */
    function TotalErrors(files: seq<ZoneFileInput>, zoneExists: string -> bool,
                         createZone: Row -> Option<int>, createRecord: Row -> bool): nat
      decreases |files|
    {
      if files == [] then 0
      else TotalErrors(files[..|files| - 1], zoneExists, createZone, createRecord)
           + FileErrors(files[|files| - 1], zoneExists, createZone, createRecord)
    }

    /**
     * run() for a directory import: the argument checks, every zone file in
     * turn, and success exactly when no error was counted.
     */
    method Run(hasDir: bool, dbMode: bool, hasApiUrl: bool, files: seq<ZoneFileInput>, zoneExists: string -> bool,
               createZone: Row -> Option<int>, createRecord: Row -> bool) returns (ok: bool)
      modifies this
      ensures ok <==> hasDir && (dbMode || hasApiUrl) && errors == 0
      ensures errors >= old(errors)
      ensures hasDir && (dbMode || hasApiUrl) ==>
                errors == old(errors) + TotalErrors(files, zoneExists, createZone, createRecord)
      ensures includesCreated == old(includesCreated)
      ensures !hasDir || !(dbMode || hasApiUrl) ==> errors == old(errors) && zonesCreated == old(zonesCreated)
    {
      if !hasDir {
        return false;
      }
      if !dbMode && !hasApiUrl {
        return false;
      }
      var i := 0;
      while i < |files|
        invariant 0 <= i <= |files|
        invariant errors == old(errors) + TotalErrors(files[..i], zoneExists, createZone, createRecord)
        invariant includesCreated == old(includesCreated)
      {
        assert files[..i + 1][..i] == files[..i];
        var _ := ImportZoneFile(files[i], zoneExists, createZone, createRecord);
        i := i + 1;
      }
      assert files[..i] == files;
      return errors == 0;
    }
  }
}
