/**
 * Ordering of the zone pickers (assets/js/zone-combobox.js): the alphabetical
 * sort on a copy of the list and makeOrderedZoneList, which deduplicates by id
 * and puts masters first, or one master followed by the includes under it.
 *
 * Zone ids and parent ids are integers or absent; a JavaScript value that is
 * neither (a string that does not parse) is outside the model.  localeCompare
 * is the code-point order on ASCII-lowercased keys.
 */
module ZoneCombobox {
  import opened Wrappers
  import opened Text
  import opened Collections

  datatype Zone = Zone(
    id: Option<int>,
    name: Option<string>,
    filename: Option<string>,
    fileType: Option<string>,
    parentId: Option<int>)

  /** A string property that is neither missing nor "". */
  predicate Truthy(s: Option<string>) {
    s.Some? && s.value != ""
  }

  /** (name || filename || '').toLowerCase() */
  function SortKey(z: Zone): string {
    Lower(if Truthy(z.name) then z.name.value else if Truthy(z.filename) then z.filename.value else "")
  }

  // ---------------------------------------------------------------------------
  // The key order
  // ---------------------------------------------------------------------------

  /** Lexicographic order on keys: `a` does not sort after `b`. */
  predicate KeyLe(a: string, b: string)
    decreases |a|
  {
    a == [] || (b != [] && (a[0] < b[0] || (a[0] == b[0] && KeyLe(a[1..], b[1..]))))
  }

  lemma {:induction false} KeyLeTotal(a: string, b: string)
    ensures KeyLe(a, b) || KeyLe(b, a)
    decreases |a|
  {
    if a != [] && b != [] && a[0] == b[0] {
      KeyLeTotal(a[1..], b[1..]);
    }
  }

  lemma {:induction false} KeyLeTransitive(a: string, b: string, c: string)
    requires KeyLe(a, b) && KeyLe(b, c)
    ensures KeyLe(a, c)
    decreases |a|
  {
    if a != [] && a[0] == b[0] && b[0] == c[0] {
      KeyLeTransitive(a[1..], b[1..], c[1..]);
    }
  }

  predicate SortedBy<T>(s: seq<T>, key: T -> string) {
    forall i, j :: 0 <= i < j < |s| ==> KeyLe(key(s[i]), key(s[j]))
  }

  // ---------------------------------------------------------------------------
  // sortZonesAlphabetically
  // ---------------------------------------------------------------------------

  /** Where `x` goes in `s`: after the last element whose key is not greater. */
  function InsertPos<T>(x: T, s: seq<T>, key: T -> string): (k: nat)
    ensures k <= |s|
    ensures k > 0 ==> KeyLe(key(s[k - 1]), key(x))
    ensures forall i :: k <= i < |s| ==> !KeyLe(key(s[i]), key(x))
  {
    if |s| == 0 then 0
    else if KeyLe(key(s[|s| - 1]), key(x)) then |s|
    else InsertPos(x, s[..|s| - 1], key)
  }

  function Insert<T>(x: T, s: seq<T>, key: T -> string): seq<T> {
    var k := InsertPos(x, s, key);
    s[..k] + [x] + s[k..]
  }

  lemma InsertSorted<T>(x: T, s: seq<T>, key: T -> string)
    requires SortedBy(s, key)
    ensures SortedBy(Insert(x, s, key), key)
  {
    var k := InsertPos(x, s, key);
    var r := Insert(x, s, key);
    forall i | 0 <= i < k ensures KeyLe(key(s[i]), key(x)) {
      if i < k - 1 {
        KeyLeTransitive(key(s[i]), key(s[k - 1]), key(x));
      }
    }
    forall i | k <= i < |s| ensures KeyLe(key(x), key(s[i])) {
      KeyLeTotal(key(x), key(s[i]));
    }
    forall i, j | 0 <= i < j < |r| ensures KeyLe(key(r[i]), key(r[j])) {
      if j < k {
        assert r[i] == s[i] && r[j] == s[j];
      } else if j == k {
        assert r[i] == s[i] && r[j] == x;
      } else if i < k {
        assert r[i] == s[i] && r[j] == s[j - 1];
      } else if i == k {
        assert r[i] == x && r[j] == s[j - 1];
      } else {
        assert r[i] == s[i - 1] && r[j] == s[j - 1];
      }
    }
  }

  /** Insertion of each element, in input order, into the sorted prefix. */
  function SortBy<T>(s: seq<T>, key: T -> string): seq<T> {
    if |s| == 0 then [] else Insert(s[|s| - 1], SortBy(s[..|s| - 1], key), key)
  }

  /** The sort returns a sorted permutation of its input. */
  lemma {:induction false} SortByCorrect<T>(s: seq<T>, key: T -> string)
    ensures SortedBy(SortBy(s, key), key)
    ensures multiset(SortBy(s, key)) == multiset(s)
    decreases |s|
  {
    if |s| > 0 {
      var front := s[..|s| - 1];
      var sorted := SortBy(front, key);
      SortByCorrect(front, key);
      InsertSorted(s[|s| - 1], sorted, key);
      InsertPermutes(s[|s| - 1], sorted, key);
      assert s == front + [s[|s| - 1]];
    }
  }

  lemma InsertPermutes<T>(x: T, s: seq<T>, key: T -> string)
    ensures multiset(Insert(x, s, key)) == multiset(s) + multiset{x}
  {
    var k := InsertPos(x, s, key);
    assert s == s[..k] + s[k..];
  }

  /** sortZonesAlphabetically, on a copy: the input sequence is a value and is not changed. */
  function SortZones(zones: seq<Zone>): seq<Zone> {
    SortBy(zones, SortKey)
  }

  predicate Sorted(zones: seq<Zone>) {
    SortedBy(zones, SortKey)
  }

  /** The sorted zones are a permutation of the input ordered by their lowercased names. */
  lemma SortZonesCorrect(zones: seq<Zone>)
    ensures Sorted(SortZones(zones))
    ensures multiset(SortZones(zones)) == multiset(zones)
  {
    SortByCorrect(zones, SortKey);
  }

  // ---------------------------------------------------------------------------
  // Deduplication by id
  // ---------------------------------------------------------------------------

  function IdsOf(s: seq<Zone>): (ids: seq<Option<int>>)
    ensures |ids| == |s| && forall k :: 0 <= k < |s| ==> ids[k] == s[k].id
  {
    seq(|s|, k requires 0 <= k < |s| => s[k].id)
  }

  lemma IdsOfAppend(s: seq<Zone>, z: Zone)
    ensures IdsOf(s + [z]) == IdsOf(s) + [z.id]
  {
  }

  /** The filter with a `seen` set: the first zone of each present id, in input order. */
  function Deduped(zones: seq<Zone>): seq<Zone> {
    if |zones| == 0 then []
    else
      var kept := Deduped(zones[..|zones| - 1]);
      var z := zones[|zones| - 1];
      if z.id.Some? && z.id !in IdsOf(kept) then kept + [z] else kept
  }

  /** Every id is present and appears once. */
  predicate UniqueIds(s: seq<Zone>) {
    None !in IdsOf(s) && NoDuplicates(IdsOf(s))
  }

  /** `z` is the first zone of `zones` that carries its id. */
  predicate FirstWithId(zones: seq<Zone>, z: Zone) {
    exists i :: 0 <= i < |zones| && zones[i] == z && forall j :: 0 <= j < i ==> zones[j].id != z.id
  }

  /**
   * The deduplicated list has unique, present ids; each kept zone is the first
   * with its id, and every id of the input is kept.
   */
  lemma {:induction false} DedupedCorrect(zones: seq<Zone>)
    ensures UniqueIds(Deduped(zones))
    ensures forall z :: z in Deduped(zones) ==> FirstWithId(zones, z)
    ensures forall i :: 0 <= i < |zones| && zones[i].id.Some? ==> zones[i].id in IdsOf(Deduped(zones))
    decreases |zones|
  {
    if |zones| > 0 {
      var front := zones[..|zones| - 1];
      var kept := Deduped(front);
      var z := zones[|zones| - 1];
      DedupedCorrect(front);
      IdsOfAppend(kept, z);
      forall y | y in Deduped(zones) ensures FirstWithId(zones, y) {
        if y in kept {
          var i :| 0 <= i < |front| && front[i] == y && forall j :: 0 <= j < i ==> front[j].id != y.id;
          assert zones[i] == y;
        } else {
          assert y == z && z.id !in IdsOf(kept);
          forall j | 0 <= j < |zones| - 1 ensures zones[j].id != z.id {
            assert front[j] == zones[j];
          }
        }
      }
      forall i | 0 <= i < |zones| && zones[i].id.Some? ensures zones[i].id in IdsOf(Deduped(zones)) {
        if i < |zones| - 1 {
          assert front[i] == zones[i];
        }
      }
    }
  }

  /** The first zone with its id, when it is kept by a filter, is the first with its id there too. */
  lemma {:induction false} FilterKeepsFirst(s: seq<Zone>, keep: Zone -> bool, z: Zone)
    requires FirstWithId(s, z) && keep(z)
    ensures FirstWithId(Filter(s, keep), z)
    decreases |s|
  {
    var i :| 0 <= i < |s| && s[i] == z && forall j :: 0 <= j < i ==> s[j].id != z.id;
    var front := s[..|s| - 1];
    var f := Filter(front, keep);
    var r := Filter(s, keep);
    if i < |s| - 1 {
      assert front[i] == z;
      FilterKeepsFirst(front, keep, z);
      var k :| 0 <= k < |f| && f[k] == z && forall j :: 0 <= j < k ==> f[j].id != z.id;
      assert r[..|f|] == f;
      assert r[k] == z;
      forall j | 0 <= j < k ensures r[j].id != z.id {
        assert r[j] == f[j];
      }
    } else {
      assert r == f + [z];
      forall j | 0 <= j < |f| ensures r[j].id != z.id {
        assert r[j] == f[j] && f[j] in front;
        var q :| 0 <= q < |front| && front[q] == f[j];
        assert s[q] == f[j];
      }
      assert r[|f|] == z;
    }
  }

  /** The first zone of the list with a given present id is the one deduplication keeps. */
  lemma FirstInDeduped(s: seq<Zone>, z: Zone)
    requires FirstWithId(s, z) && z.id.Some?
    ensures z in Deduped(s)
  {
    DedupedCorrect(s);
    var d := Deduped(s);
    var i :| 0 <= i < |s| && s[i] == z && forall j :: 0 <= j < i ==> s[j].id != z.id;
    assert s[i].id in IdsOf(d);
    var k :| 0 <= k < |d| && IdsOf(d)[k] == z.id;
    var w := d[k];
    assert FirstWithId(s, w);
    var i' :| 0 <= i' < |s| && s[i'] == w && forall j :: 0 <= j < i' ==> s[j].id != w.id;
    assert i == i';
  }

  lemma {:induction false} DedupedSubMultiset(zones: seq<Zone>)
    ensures multiset(Deduped(zones)) <= multiset(zones)
    decreases |zones|
  {
    if |zones| > 0 {
      DedupedSubMultiset(zones[..|zones| - 1]);
      assert zones == zones[..|zones| - 1] + [zones[|zones| - 1]];
    }
  }

  /** The dedupe loop of makeOrderedZoneList, with its mutable `seen` set. */
  method DedupeById(zones: seq<Zone>) returns (kept: seq<Zone>)
    ensures kept == Deduped(zones)
  {
    var seen: set<int> := {};
    kept := [];
    for n := 0 to |zones|
      invariant kept == Deduped(zones[..n])
      invariant forall v :: v in seen <==> Some(v) in IdsOf(kept)
    {
      assert zones[..n + 1][..n] == zones[..n];
      var z := zones[n];
      IdsOfAppend(kept, z);
      assert Deduped(zones[..n + 1]) == if z.id.Some? && z.id !in IdsOf(kept) then kept + [z] else kept;
      if z.id.Some? {
        var v := z.id.value;
        assert Some(v) == z.id;
        assert v in seen <==> Some(v) in IdsOf(kept);
      }
      if z.id.Some? && z.id.value !in seen {
        seen := seen + {z.id.value};
        kept := kept + [z];
      }
    }
    assert zones[..|zones|] == zones;
  }

  // ---------------------------------------------------------------------------
  // Filtering by type and by ancestor chain
  // ---------------------------------------------------------------------------

  /** (file_type || '').toLowerCase().trim() */
  function NormType(z: Zone): string {
    JsTrim(Lower(z.fileType.GetOr("")))
  }

  function OfType(s: seq<Zone>, t: string): (r: seq<Zone>)
    ensures forall z :: z in r ==> z in s && NormType(z) == t
  {
    Filter(s, z => NormType(z) == t)
  }

  /** The first zone with the given id: the parent lookup of the ancestor walk. */
  function FindById(zones: seq<Zone>, id: int): (r: Option<Zone>)
    ensures r.Some? ==> r.value in zones && r.value.id == Some(id)
    ensures r.None? ==> forall z :: z in zones ==> z.id != Some(id)
  {
    if |zones| == 0 then None
    else if zones[0].id == Some(id) then Some(zones[0])
    else FindById(zones[1..], id)
  }

  /** The ancestor walk's step limit. */
  const MaxIterations := 50

  /** parseInt(zone.parent_id || 0, 10) */
  function ParentNum(z: Zone): int {
    z.parentId.GetOr(0)
  }

  /**
   * Whether `masterId` is the parent id of `z` or of one of the ancestors found
   * through `zones`, looking at no more than `fuel` parent ids.
   */
  predicate ReachesWithin(zones: seq<Zone>, z: Zone, masterId: int, fuel: nat)
    decreases fuel
  {
    if fuel == 0 then false
    else if ParentNum(z) == masterId then true
    else if ParentNum(z) == 0 then false
    else
      match FindById(zones, ParentNum(z))
      case None => false
      case Some(parent) => ReachesWithin(zones, parent, masterId, fuel - 1)
  }

  /** The while loop over `currentZone` and `iterations`. */
  method ChainReachesMaster(zones: seq<Zone>, z: Zone, masterId: int) returns (found: bool)
    ensures found == ReachesWithin(zones, z, masterId, MaxIterations)
  {
    var current := Some(z);
    var iterations := 0;
    while current.Some? && iterations < MaxIterations
      invariant 0 <= iterations <= MaxIterations
      invariant current.Some? ==>
        ReachesWithin(zones, z, masterId, MaxIterations) == ReachesWithin(zones, current.value, masterId, MaxIterations - iterations)
      invariant current.None? ==> !ReachesWithin(zones, z, masterId, MaxIterations)
      decreases MaxIterations - iterations
    {
      iterations := iterations + 1;
      var parentId := ParentNum(current.value);
      if parentId == masterId {
        return true;
      }
      if parentId == 0 {
        current := None;
      } else {
        current := FindById(zones, parentId);
      }
    }
    return false;
  }

  /** The filter callback of the selected-master case. */
  predicate IncludeUnder(zones: seq<Zone>, masterId: int, z: Zone) {
    NormType(z) == "include" && ReachesWithin(zones, z, masterId, MaxIterations)
  }

  /** The includes under a master: include-typed zones whose chain reaches it. */
  function IncludesUnder(zones: seq<Zone>, masterId: int): (r: seq<Zone>)
    ensures forall z :: z in r ==> z in zones && IncludeUnder(zones, masterId, z)
  {
    Filter(zones, z => IncludeUnder(zones, masterId, z))
  }

  /** The master a masterId selects: the first zone with that id whose type is master. */
  function FindMaster(zones: seq<Zone>, masterId: int): (r: Option<Zone>)
    ensures r.Some? ==> r.value in zones && r.value.id == Some(masterId) && NormType(r.value) == "master"
  {
    if |zones| == 0 then None
    else if zones[0].id == Some(masterId) && NormType(zones[0]) == "master" then Some(zones[0])
    else FindMaster(zones[1..], masterId)
  }

  /** A masterId that is null, missing or 0 selects no master. */
  predicate NoMaster(masterId: Option<int>) {
    masterId.None? || masterId.value == 0
  }

  /** makeOrderedZoneList as a function of its inputs. */
  function OrderedZoneList(zones: seq<Zone>, masterId: Option<int>): seq<Zone> {
    var unique := Deduped(zones);
    if NoMaster(masterId) then
      SortZones(OfType(unique, "master")) + SortZones(OfType(unique, "include"))
    else
      var includes := SortZones(IncludesUnder(unique, masterId.value));
      match FindMaster(unique, masterId.value)
      case Some(master) => [master] + includes
      case None => includes
  }

  /** makeOrderedZoneList: the deduplication and the ancestor walks run as loops. */
  method MakeOrderedZoneList(zones: seq<Zone>, masterId: Option<int>) returns (ordered: seq<Zone>)
    ensures ordered == OrderedZoneList(zones, masterId)
  {
    var unique := DedupeById(zones);
    if NoMaster(masterId) {
      return SortZones(OfType(unique, "master")) + SortZones(OfType(unique, "include"));
    }
    var m := masterId.value;
    var includes: seq<Zone> := [];
    for n := 0 to |unique|
      invariant includes == Filter(unique[..n], z => IncludeUnder(unique, m, z))
    {
      assert unique[..n + 1][..n] == unique[..n];
      var z := unique[n];
      var under := false;
      if NormType(z) == "include" {
        under := ChainReachesMaster(unique, z, m);
      }
      if under {
        includes := includes + [z];
      }
    }
    assert unique[..|unique|] == unique;
    var sorted := SortZones(includes);
    var master := FindMaster(unique, m);
    ordered := if master.Some? then [master.value] + sorted else sorted;
  }

  // ---------------------------------------------------------------------------
  // Properties of the ordered list
  // ---------------------------------------------------------------------------

  /** A sub-multiset of a list with unique ids has unique ids. */
  lemma UniqueIdsOfSubMultiset(t: seq<Zone>, s: seq<Zone>)
    requires multiset(t) <= multiset(s) && UniqueIds(s)
    ensures UniqueIds(t)
  {
    forall z | z in t ensures z.id.Some? {
      assert z in multiset(s);
      var k :| 0 <= k < |s| && s[k] == z;
      assert IdsOf(s)[k] == z.id;
    }
    forall i, j | 0 <= i < j < |t| ensures t[i].id != t[j].id {
      var a, b := t[i], t[j];
      assert a in multiset(s) && b in multiset(s);
      var p :| 0 <= p < |s| && s[p] == a;
      var q :| 0 <= q < |s| && s[q] == b;
      assert p != q ==> IdsOf(s)[p] != IdsOf(s)[q];
      TwiceInMultiset(t, i, j);
      OnceInMultiset(s, p);
    }
    assert None !in IdsOf(t);
  }

  lemma TwiceInMultiset<T>(t: seq<T>, i: nat, j: nat)
    requires i < j < |t|
    ensures t[i] == t[j] ==> multiset(t)[t[i]] >= 2
  {
    assert t == t[..j] + t[j..];
    assert t[i] in t[..j] && t[j] in t[j..];
    assert multiset(t) == multiset(t[..j]) + multiset(t[j..]);
  }

  lemma OnceInMultiset(s: seq<Zone>, p: nat)
    requires p < |s| && UniqueIds(s)
    ensures multiset(s)[s[p]] == 1
  {
    var rest := s[..p] + s[p + 1..];
    assert s == s[..p] + [s[p]] + s[p + 1..];
    forall k | 0 <= k < |rest| ensures rest[k] != s[p] {
      var q := if k < p then k else k + 1;
      assert rest[k] == s[q];
      assert IdsOf(s)[q] != IdsOf(s)[p];
    }
    assert s[p] !in rest;
    assert multiset(s) == multiset(rest) + multiset{s[p]};
  }

  /** makeOrderedZoneList takes each zone of the deduplicated list at most once. */
  lemma OrderedFromUnique(zones: seq<Zone>, masterId: Option<int>)
    ensures multiset(OrderedZoneList(zones, masterId)) <= multiset(Deduped(zones))
  {
    var unique := Deduped(zones);
    if NoMaster(masterId) {
      var masters := OfType(unique, "master");
      var includes := OfType(unique, "include");
      SortZonesCorrect(masters);
      SortZonesCorrect(includes);
      ExclusiveFilters(unique, z => NormType(z) == "master", z => NormType(z) == "include");
      assert multiset(OrderedZoneList(zones, masterId)) == multiset(masters) + multiset(includes);
    } else {
      var m := masterId.value;
      var includes := IncludesUnder(unique, m);
      SortZonesCorrect(includes);
      FilterSubMultiset(unique, z => IncludeUnder(unique, m, z));
      match FindMaster(unique, m)
      case Some(master) =>
        MasterBesideIncludes(unique, m, master);
        assert multiset(OrderedZoneList(zones, masterId)) == multiset{master} + multiset(includes);
      case None =>
        assert multiset(OrderedZoneList(zones, masterId)) == multiset(includes);
    }
  }

  /**
   * makeOrderedZoneList never lists a zone twice nor a zone without id, and
   * every zone it lists is the first zone of the input with its id.
   */
  lemma OrderedZoneListUnique(zones: seq<Zone>, masterId: Option<int>)
    ensures UniqueIds(OrderedZoneList(zones, masterId))
    ensures forall z :: z in OrderedZoneList(zones, masterId) ==> FirstWithId(zones, z)
  {
    var unique := Deduped(zones);
    var r := OrderedZoneList(zones, masterId);
    DedupedCorrect(zones);
    OrderedFromUnique(zones, masterId);
    UniqueIdsOfSubMultiset(r, unique);
    forall z | z in r ensures FirstWithId(zones, z) {
      assert z in multiset(r);
      assert z in unique;
    }
  }

  /** A master zone is never among the includes, so the selected list counts it once. */
  lemma MasterBesideIncludes(unique: seq<Zone>, m: int, master: Zone)
    requires master in unique && NormType(master) == "master"
    ensures multiset{master} + multiset(IncludesUnder(unique, m)) <= multiset(unique)
  {
    var keep := z => IncludeUnder(unique, m, z);
    var p :| 0 <= p < |unique| && unique[p] == master;
    var before, after := unique[..p], unique[p + 1..];
    assert unique == before + [master] + after;
    FilterAppend(before + [master], after, keep);
    FilterAppend(before, [master], keep);
    assert Filter([master], keep) == [] by {
      assert [master][..0] == [];
    }
    FilterSubMultiset(before, keep);
    FilterSubMultiset(after, keep);
    assert multiset(unique) == multiset(before) + multiset{master} + multiset(after);
  }

  /**
   * With no master selected, every master precedes every include, each part is
   * sorted, only master and include zones are listed, and every master and
   * include zone of the deduplicated list is listed.
   */
  lemma NoMasterOrdering(zones: seq<Zone>, masterId: Option<int>)
    requires NoMaster(masterId)
    ensures var r := OrderedZoneList(zones, masterId);
      exists k :: 0 <= k <= |r|
        && Sorted(r[..k]) && Sorted(r[k..])
        && (forall i :: 0 <= i < k ==> NormType(r[i]) == "master")
        && (forall i :: k <= i < |r| ==> NormType(r[i]) == "include")
    ensures forall z ::
      z in Deduped(zones) && (NormType(z) == "master" || NormType(z) == "include") ==> z in OrderedZoneList(zones, masterId)
  {
    var unique := Deduped(zones);
    var masters := OfType(unique, "master");
    var includes := OfType(unique, "include");
    SortZonesCorrect(masters);
    SortZonesCorrect(includes);
    var r := SortZones(masters) + SortZones(includes);
    assert r == OrderedZoneList(zones, masterId);
    var k := |SortZones(masters)|;
    assert r[..k] == SortZones(masters) && r[k..] == SortZones(includes);
    forall i | 0 <= i < k ensures NormType(r[i]) == "master" {
      assert r[i] in multiset(masters);
    }
    forall i | k <= i < |r| ensures NormType(r[i]) == "include" {
      assert r[i] in multiset(includes);
    }
    forall z | z in unique && (NormType(z) == "master" || NormType(z) == "include") ensures z in r {
      if NormType(z) == "master" {
        SortedOfTypeHolds(unique, "master", z);
      } else {
        SortedOfTypeHolds(unique, "include", z);
      }
    }
  }

  /** A zone of the given type survives the type filter and the sort. */
  lemma SortedOfTypeHolds(s: seq<Zone>, t: string, z: Zone)
    requires z in s && NormType(z) == t
    ensures z in SortZones(OfType(s, t))
  {
    var p :| 0 <= p < |s| && s[p] == z;
    SortZonesCorrect(OfType(s, t));
    assert z in multiset(SortZones(OfType(s, t)));
  }

  /**
   * With a master selected, the list is that master (when the list holds it)
   * followed by the sorted includes whose ancestor chain reaches it, and every
   * such include of the deduplicated list is listed.
   */
  lemma MasterSelectedOrdering(zones: seq<Zone>, masterId: Option<int>)
    requires !NoMaster(masterId)
    ensures var r := OrderedZoneList(zones, masterId);
      var k := if FindMaster(Deduped(zones), masterId.value).Some? then 1 else 0;
      k <= |r|
      && (k == 1 ==> r[0].id == masterId && NormType(r[0]) == "master")
      && Sorted(r[k..])
      && forall i :: k <= i < |r| ==> IncludeUnder(Deduped(zones), masterId.value, r[i])
    ensures forall z ::
      z in Deduped(zones) && IncludeUnder(Deduped(zones), masterId.value, z) ==> z in OrderedZoneList(zones, masterId)
  {
    var unique := Deduped(zones);
    var m := masterId.value;
    var includes := IncludesUnder(unique, m);
    SortZonesCorrect(includes);
    var sorted := SortZones(includes);
    forall i | 0 <= i < |sorted| ensures IncludeUnder(unique, m, sorted[i]) {
      assert sorted[i] in multiset(includes);
    }
    forall z | z in unique && IncludeUnder(unique, m, z) ensures z in sorted {
      var p :| 0 <= p < |unique| && unique[p] == z;
      assert z in includes;
      assert z in multiset(sorted);
    }
    match FindMaster(unique, m)
    case Some(master) =>
      var r := [master] + sorted;
      assert r == OrderedZoneList(zones, masterId);
      assert r[1..] == sorted;
    case None =>
      assert sorted == OrderedZoneList(zones, masterId);
  }
}
