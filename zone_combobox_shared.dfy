/**
 * The shared zone-picker helpers (assets/js/zone-combobox-shared.js): the
 * outcome of an API call once the response is in, the client-side filter of
 * the cached zone list, and the bounded walk up a zone's parent chain.
 *
 * The fetch itself, the DOM and the window globals are outside the model; the
 * globals the filter reads are parameters.
 */
module ZoneComboboxShared {
  import opened Wrappers
  import opened Text
  import opened Collections
  import opened ZoneCombobox

  // ---------------------------------------------------------------------------
  // zoneApiCallShared: from response to result
  // ---------------------------------------------------------------------------

  /** The fields of a parsed JSON body that the error path reads. */
  datatype Body = Body(error: Option<string>, message: Option<string>)

  /** A response: its status, status text, and its body when it parses as JSON. */
  datatype Response = Response(status: nat, statusText: string, json: Option<Body>)

  const ConnectionMessage := "Erreur de connexion (499): Veuillez réessayer"
  const InvalidMessage := "Réponse invalide du serveur"
  const ServerPrefix := "Erreur serveur ("
  const ClientPrefix := "Erreur client ("

  /** The error thrown when the body is not JSON, chosen by the status code. */
  function UnparsableMessage(status: nat, statusText: string): string {
    if status == 499 then ConnectionMessage
    else if status >= 500 then ServerPrefix + DecimalString(status) + "): " + statusText
    else if status >= 400 then ClientPrefix + DecimalString(status) + "): " + statusText
    else InvalidMessage
  }

  /** Which of the four messages a status selects. */
  datatype StatusClass = Connection | Server | Client | Invalid

  function ClassOf(status: nat): StatusClass {
    if status == 499 then Connection
    else if status >= 500 then Server
    else if status >= 400 then Client
    else Invalid
  }

  /** The kind of message that was thrown, read back from the message text alone. */
  function ClassOfMessage(message: string): StatusClass {
    if message == ConnectionMessage then Connection
    else if StartsWith(message, ServerPrefix) then Server
    else if StartsWith(message, ClientPrefix) then Client
    else Invalid
  }

  /**
   * The message tells the statuses apart: 499 gives the connection message,
   * 500 and above the server message, other 4xx the client message and
   * anything below 400 the invalid-response message.
   */
  lemma UnparsableMessageClass(status: nat, statusText: string)
    ensures ClassOfMessage(UnparsableMessage(status, statusText)) == ClassOf(status)
  {
    var r := UnparsableMessage(status, statusText);
    var tail := DecimalString(status) + "): " + statusText;
    if status == 499 {
    } else if status >= 500 {
      assert r == ServerPrefix + tail;
      assert r[..|ServerPrefix|] == ServerPrefix;
      assert r[7] != ConnectionMessage[7];
    } else if status >= 400 {
      assert r == ClientPrefix + tail;
      assert r[..|ClientPrefix|] == ClientPrefix;
      assert r[7] != ConnectionMessage[7];
      assert r[7] != ServerPrefix[7];
    } else {
      assert r[1] != ServerPrefix[1];
      assert r[1] != ClientPrefix[1];
    }
  }

  predicate IsOk(status: nat) {
    200 <= status <= 299
  }

  /** data.error || data.message || `HTTP ${status}: ${statusText}` */
  function ApiErrorMessage(r: Response, body: Body): string {
    if body.error.Some? && body.error.value != "" then body.error.value
    else if body.message.Some? && body.message.value != "" then body.message.value
    else "HTTP " + DecimalString(r.status) + ": " + r.statusText
  }

  /**
   * The promise's outcome: a network failure, an unparsable body, a parsed body
   * with a non-2xx status, or the parsed body.
   */
  function ApiCallOutcome(fetched: Result<Response, string>): (r: Result<Body, string>)
    ensures r.Success? <==> fetched.Success? && fetched.value.json.Some? && IsOk(fetched.value.status)
    ensures r.Success? ==> r.value == fetched.value.json.value
  {
    match fetched
    case Failure(networkMessage) => Failure("Erreur réseau: " + networkMessage)
    case Success(response) =>
      match response.json
      case None => Failure(UnparsableMessage(response.status, response.statusText))
      case Some(body) =>
        if !IsOk(response.status) then Failure(ApiErrorMessage(response, body)) else Success(body)
  }

  // ---------------------------------------------------------------------------
  // getClientZones
  // ---------------------------------------------------------------------------

  /** The file-type filter: (z.file_type || '').toLowerCase() === fileType.toLowerCase() */
  predicate TypeMatches(z: Zone, fileType: string) {
    Lower(z.fileType.GetOr("")) == Lower(fileType)
  }

  /** The query filter on the lowercased name or filename. */
  predicate QueryMatches(z: Zone, q: string) {
    Contains(Lower(z.name.GetOr("")), q) || Contains(Lower(z.filename.GetOr("")), q)
  }

  /** The filter a zone must pass: a file type when one is set, the query when it is non-empty. */
  predicate Wanted(z: Zone, fileType: string, q: string) {
    (fileType == "" || TypeMatches(z, fileType)) && (q == "" || QueryMatches(z, q))
  }

  /** CURRENT_ZONE_LIST || ZONES_ALL || []: an empty list is truthy and is kept. */
  function CachedZones(currentList: Option<seq<Zone>>, allZones: Option<seq<Zone>>): seq<Zone> {
    if currentList.Some? then currentList.value else allZones.GetOr([])
  }

  /** The file-type filter, then the query filter, each applied only when set. */
  function FilteredZones(zones: seq<Zone>, fileType: string, q: string): seq<Zone> {
    var byType := if fileType != "" then Filter(zones, z => TypeMatches(z, fileType)) else zones;
    if q != "" then Filter(byType, z => QueryMatches(z, q)) else byType
  }

  /**
   * getClientZones: the cached list filtered by file type and query, then
   * ordered by makeOrderedZoneList when that helper is loaded.
   */
  function ClientZones(query: string, fileType: string, currentList: Option<seq<Zone>>, allZones: Option<seq<Zone>>,
                       selectedMaster: Option<int>, orderingLoaded: bool): seq<Zone>
  {
    var byQuery := FilteredZones(CachedZones(currentList, allZones), fileType, Lower(query));
    if orderingLoaded then OrderedZoneList(byQuery, selectedMaster) else byQuery
  }

  /**
   * The two filters keep exactly the wanted zones: nothing unwanted, every
   * wanted zone, and no zone more often than the list holds it.
   */
  lemma FilteredZonesWanted(zones: seq<Zone>, fileType: string, q: string)
    ensures multiset(FilteredZones(zones, fileType, q)) <= multiset(zones)
    ensures forall z :: z in FilteredZones(zones, fileType, q) ==> Wanted(z, fileType, q)
    ensures forall z :: z in zones && Wanted(z, fileType, q) ==> z in FilteredZones(zones, fileType, q)
  {
    var byType := if fileType != "" then Filter(zones, z => TypeMatches(z, fileType)) else zones;
    FilterSubMultiset(zones, z => TypeMatches(z, fileType));
    FilterSubMultiset(byType, z => QueryMatches(z, q));
    forall z | z in zones && Wanted(z, fileType, q) ensures z in FilteredZones(zones, fileType, q) {
      var i :| 0 <= i < |zones| && zones[i] == z;
      assert z in byType;
      var k :| 0 <= k < |byType| && byType[k] == z;
    }
  }

  /** A wanted zone that is the first with its id in the list is the first with its id after filtering. */
  lemma FilteredKeepsFirst(zones: seq<Zone>, fileType: string, q: string, z: Zone)
    requires FirstWithId(zones, z) && Wanted(z, fileType, q)
    ensures FirstWithId(FilteredZones(zones, fileType, q), z)
  {
    var byType := if fileType != "" then Filter(zones, z => TypeMatches(z, fileType)) else zones;
    if fileType != "" {
      FilterKeepsFirst(zones, z => TypeMatches(z, fileType), z);
    }
    if q != "" {
      FilterKeepsFirst(byType, z => QueryMatches(z, q), z);
    }
  }

  /**
   * Every zone offered comes from the cached list (the current list when there
   * is one) and passes the file-type and query filters; nothing is offered
   * more often than the cache holds it. Conversely, without the ordering helper
   * every wanted cached zone is offered, and with it and no master selected
   * every wanted master or include zone that is the first in the cache with
   * its (present) id is offered.
   */
  lemma ClientZonesFiltered(query: string, fileType: string, currentList: Option<seq<Zone>>, allZones: Option<seq<Zone>>,
                            selectedMaster: Option<int>, orderingLoaded: bool)
    ensures var r := ClientZones(query, fileType, currentList, allZones, selectedMaster, orderingLoaded);
      multiset(r) <= multiset(CachedZones(currentList, allZones))
      && forall z :: z in r ==> Wanted(z, fileType, Lower(query))
    ensures !orderingLoaded ==> forall z ::
      z in CachedZones(currentList, allZones) && Wanted(z, fileType, Lower(query))
      ==> z in ClientZones(query, fileType, currentList, allZones, selectedMaster, orderingLoaded)
    ensures orderingLoaded && NoMaster(selectedMaster) ==> forall z ::
      FirstWithId(CachedZones(currentList, allZones), z) && z.id.Some? && Wanted(z, fileType, Lower(query))
      && (NormType(z) == "master" || NormType(z) == "include")
      ==> z in ClientZones(query, fileType, currentList, allZones, selectedMaster, orderingLoaded)
  {
    var q := Lower(query);
    var cache := CachedZones(currentList, allZones);
    var byQuery := FilteredZones(cache, fileType, q);
    FilteredZonesWanted(cache, fileType, q);
    if orderingLoaded {
      var r := OrderedZoneList(byQuery, selectedMaster);
      OrderedFromUnique(byQuery, selectedMaster);
      DedupedSubMultiset(byQuery);
      forall z | z in r ensures Wanted(z, fileType, q) {
        assert z in multiset(byQuery);
      }
      if NoMaster(selectedMaster) {
        NoMasterOrdering(byQuery, selectedMaster);
        forall z | FirstWithId(cache, z) && z.id.Some? && Wanted(z, fileType, q)
          && (NormType(z) == "master" || NormType(z) == "include")
          ensures z in r
        {
          FilteredKeepsFirst(cache, fileType, q, z);
          FirstInDeduped(byQuery, z);
        }
      }
    }
  }

  // ---------------------------------------------------------------------------
  // isZoneInMasterTree
  // ---------------------------------------------------------------------------

  /** The default of MAX_PARENT_CHAIN_DEPTH. */
  const DefaultMaxDepth := 20

  /** window.MAX_PARENT_CHAIN_DEPTH || 20 */
  function MaxDepth(setting: Option<int>): int {
    if setting.Some? && setting.value != 0 then setting.value else DefaultMaxDepth
  }

  /** parent_id ? parseInt(parent_id, 10) : null, with null and 0 meaning none. */
  function ParentOf(z: Zone): Option<int> {
    if z.parentId.Some? && z.parentId.value != 0 then z.parentId else None
  }

  /** Whether `masterId` is among the first `fuel` parent ids on the chain of `z`. */
  predicate ParentWithin(zoneList: Option<seq<Zone>>, z: Zone, masterId: int, fuel: nat)
    decreases fuel
  {
    if fuel == 0 then false
    else
      match ParentOf(z)
      case None => false
      case Some(p) =>
        if p == masterId then true
        else if zoneList.None? then false
        else
          match FindById(zoneList.value, p)
          case None => false
          case Some(parent) => ParentWithin(zoneList, parent, masterId, fuel - 1)
  }

  /** isZoneInMasterTree as a function of its inputs. */
  predicate InMasterTree(zone: Option<Zone>, masterId: Option<int>, zoneList: Option<seq<Zone>>, depthSetting: Option<int>) {
    if zone.None? || masterId.None? || masterId.value == 0 then false
    else if zone.value.id == masterId then true
    else
      var depth := MaxDepth(depthSetting);
      depth > 0 && ParentWithin(zoneList, zone.value, masterId.value, depth)
  }

  /** The walk: a while loop over `currentZone` and `iterations`. */
  method IsZoneInMasterTree(zone: Option<Zone>, masterId: Option<int>, zoneList: Option<seq<Zone>>, depthSetting: Option<int>)
    returns (inTree: bool)
    ensures inTree == InMasterTree(zone, masterId, zoneList, depthSetting)
  {
    if zone.None? || masterId.None? || masterId.value == 0 {
      return false;
    }
    var depth := MaxDepth(depthSetting);
    var m := masterId.value;
    if zone.value.id == Some(m) {
      return true;
    }
    if depth <= 0 {
      return false;
    }
    var current := zone;
    var iterations := 0;
    while current.Some? && iterations < depth
      invariant 0 <= iterations <= depth
      invariant current.Some? ==>
        ParentWithin(zoneList, zone.value, m, depth) == ParentWithin(zoneList, current.value, m, depth - iterations)
      invariant current.None? ==> !ParentWithin(zoneList, zone.value, m, depth)
      decreases depth - iterations
    {
      iterations := iterations + 1;
      var parentId := ParentOf(current.value);
      if parentId.None? {
        current := None;
      } else if parentId.value == m {
        return true;
      } else if zoneList.None? {
        current := None;
      } else {
        current := FindById(zoneList.value, parentId.value);
      }
    }
    return false;
  }

  /** A longer walk finds everything a shorter one finds. */
  lemma {:induction false} ParentWithinMonotone(zoneList: Option<seq<Zone>>, z: Zone, masterId: int, fuel: nat, more: nat)
    requires fuel <= more && ParentWithin(zoneList, z, masterId, fuel)
    ensures ParentWithin(zoneList, z, masterId, more)
    decreases fuel
  {
    var p := ParentOf(z).value;
    if p != masterId {
      var parent := FindById(zoneList.value, p).value;
      ParentWithinMonotone(zoneList, parent, masterId, fuel - 1, more - 1);
    }
  }

  /**
   * For a non-zero master id over the same list, this walk and the one of
   * makeOrderedZoneList agree step for step.
   */
  lemma {:induction false} WalksAgree(zones: seq<Zone>, z: Zone, masterId: int, fuel: nat)
    requires masterId != 0
    ensures ParentWithin(Some(zones), z, masterId, fuel) == ReachesWithin(zones, z, masterId, fuel)
    decreases fuel
  {
    if fuel > 0 && ParentNum(z) != masterId && ParentNum(z) != 0 {
      match FindById(zones, ParentNum(z))
      case None =>
      case Some(parent) => WalksAgree(zones, parent, masterId, fuel - 1);
    }
  }
}
