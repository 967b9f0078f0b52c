/**
 * Walks over the include graph stored in zone_file_includes: a row
 * (parent_id, include_id) says that zone file `parent` includes zone file
 * `child`. The table is passed in as the sequence of its rows, in the order
 * the database returns them.
 */
module ZoneGraph {
  import opened Wrappers
  import opened Collections

  /** MAX_ZONE_TRAVERSAL_DEPTH */
  const MaxTraversalDepth: nat := 100

  datatype Include = Include(parent: int, child: int)

  // ---------------------------------------------------------------------------
  // Downward: the zone and all its descendants (list_zones_by_domain)
  // ---------------------------------------------------------------------------

  /** p is a chain of zones, each including the next. */
  ghost predicate IsChain(edges: seq<Include>, p: seq<int>) {
    |p| >= 1 && forall i :: 0 <= i < |p| - 1 ==> Include(p[i], p[i + 1]) in edges
  }

  ghost predicate Reachable(edges: seq<Include>, from: int, to: int) {
    exists p :: IsChain(edges, p) && p[0] == from && p[|p| - 1] == to
  }

  /** Every id after the first is included by some id listed before it. */
  ghost predicate DiscoveredInOrder(edges: seq<Include>, ids: seq<int>) {
    forall j :: 0 < j < |ids| ==> HasEarlierParent(edges, ids, j)
  }

  ghost predicate HasEarlierParent(edges: seq<Include>, ids: seq<int>, j: int)
    requires 0 <= j < |ids|
  {
    exists i :: 0 <= i < j && Include(ids[i], ids[j]) in edges
  }

  ghost predicate ClosedUnder(edges: seq<Include>, s: set<int>) {
    forall e :: e in edges && e.parent in s ==> e.child in s
  }

  lemma {:induction false} DiscoveredAreReachable(edges: seq<Include>, ids: seq<int>, j: int)
    requires DiscoveredInOrder(edges, ids) && 0 <= j < |ids|
    ensures Reachable(edges, ids[0], ids[j])
    decreases j
  {
    if j == 0 {
      assert IsChain(edges, [ids[0]]);
    } else {
      assert HasEarlierParent(edges, ids, j);
      var i :| 0 <= i < j && Include(ids[i], ids[j]) in edges;
      DiscoveredAreReachable(edges, ids, i);
      var p :| IsChain(edges, p) && p[0] == ids[0] && p[|p| - 1] == ids[i];
      var q := p + [ids[j]];
      assert IsChain(edges, q);
      assert q[0] == ids[0] && q[|q| - 1] == ids[j];
    }
  }

  lemma {:induction false} ChainStaysInside(edges: seq<Include>, s: set<int>, p: seq<int>, k: int)
    requires ClosedUnder(edges, s) && IsChain(edges, p) && p[0] in s && 0 <= k < |p|
    ensures p[k] in s
    decreases k
  {
    if k > 0 {
      ChainStaysInside(edges, s, p, k - 1);
      assert Include(p[k - 1], p[k]) in edges;
    }
  }

  lemma ClosedContainsReachable(edges: seq<Include>, s: set<int>, from: int, to: int)
    requires ClosedUnder(edges, s) && from in s && Reachable(edges, from, to)
    ensures to in s
  {
    var p :| IsChain(edges, p) && p[0] == from && p[|p| - 1] == to;
    ChainStaysInside(edges, s, p, |p| - 1);
  }

  /** Every include of the first `done` ids is already visited. */
  ghost predicate ExpandedBelow(edges: seq<Include>, ids: seq<int>, done: int, visited: set<int>)
    requires 0 <= done <= |ids|
  {
    forall e :: e in edges && e.parent in ids[..done] ==> e.child in visited
  }

  /** The ids a search from start can ever visit. */
  ghost function Universe(edges: seq<Include>, start: int): set<int> {
    {start} + set e | e in edges :: e.child
  }

  lemma ChildrenInUniverse(edges: seq<Include>, start: int, current: int, added: seq<int>)
    requires forall x :: x in added ==> Include(current, x) in edges
    ensures forall x :: x in added ==> x in Universe(edges, start)
  {
    forall x | x in added ensures x in set e | e in edges :: e.child {
      assert Include(current, x) in edges;
    }
  }

  lemma DiscoveredExtends(edges: seq<Include>, before: seq<int>, added: seq<int>, done: int)
    requires DiscoveredInOrder(edges, before) && 0 <= done < |before|
    requires forall x :: x in added ==> Include(before[done], x) in edges
    ensures DiscoveredInOrder(edges, before + added)
  {
    var ids := before + added;
    forall j | 0 < j < |ids| ensures HasEarlierParent(edges, ids, j) {
      if j >= |before| {
        assert ids[j] == added[j - |before|];
        assert ids[done] == before[done];
        assert 0 <= done < j && Include(ids[done], ids[j]) in edges;
      } else {
        assert HasEarlierParent(edges, before, j);
        var i :| 0 <= i < j && Include(before[i], before[j]) in edges;
        assert ids[i] == before[i] && ids[j] == before[j];
      }
    }
    assert DiscoveredInOrder(edges, ids);
  }

  lemma ClosedExtends(edges: seq<Include>, before: seq<int>, added: seq<int>, visited0: set<int>, visited: set<int>, done: int)
    requires 0 <= done < |before|
    requires ExpandedBelow(edges, before, done, visited0) && visited0 <= visited
    requires forall e :: e in edges && e.parent == before[done] ==> e.child in visited
    ensures ExpandedBelow(edges, before + added, done + 1, visited)
  {
    var ids := before + added;
    assert ids[..done + 1] == before[..done] + [before[done]];
  }

  /**
   * The foreach over the includes of `current`: each child not yet visited is
   * marked visited and appended to both the result list and the queue.
   */
  method EnqueueChildren(edges: seq<Include>, current: int, ids: seq<int>, visited: set<int>, queue: seq<int>)
    returns (ids': seq<int>, visited': set<int>, queue': seq<int>, ghost added: seq<int>)
    requires NoDuplicates(ids) && (forall x :: x in visited <==> x in ids) && |visited| == |ids|
    ensures ids' == ids + added && queue' == queue + added
    ensures NoDuplicates(ids') && (forall x :: x in visited' <==> x in ids') && |visited'| == |ids'|
    ensures visited <= visited' && forall x :: x in visited' ==> x in visited || x in added
    ensures forall x :: x in added ==> Include(current, x) in edges
    ensures forall e :: e in edges && e.parent == current ==> e.child in visited'
  {
    ids', visited', queue', added := ids, visited, queue, [];
    var i := 0;
    while i < |edges|
      invariant 0 <= i <= |edges|
      invariant ids' == ids + added && queue' == queue + added
      invariant NoDuplicates(ids') && (forall x :: x in visited' <==> x in ids') && |visited'| == |ids'|
      invariant visited <= visited' && forall x :: x in visited' ==> x in visited || x in added
      invariant forall x :: x in added ==> Include(current, x) in edges
      invariant forall k :: 0 <= k < i && edges[k].parent == current ==> edges[k].child in visited'
    {
      var child := edges[i].child;
      if edges[i].parent == current && child !in visited' {
        assert edges[i] == Include(current, child);
        AppendFresh(ids', child);
        visited' := visited' + {child};
        ids' := ids' + [child];
        queue' := queue' + [child];
        added := added + [child];
      }
      i := i + 1;
    }
  }

  /**
   * The breadth-first search of list_zones_by_domain: the start zone followed
   * by every zone reachable from it, each once, in discovery order. Cycles in
   * the table do not prevent termination.
   */
  method CollectZoneTree(edges: seq<Include>, start: int) returns (ids: seq<int>)
    ensures |ids| >= 1 && ids[0] == start
    ensures NoDuplicates(ids)
    ensures forall z :: z in ids <==> Reachable(edges, start, z)
  {
    ghost var universe := Universe(edges, start);
    var visited: set<int> := {start};
    ids := [start];
    var queue := [start];
    ghost var done := 0;
    while queue != []
      invariant 0 <= done <= |ids| && queue == ids[done..]
      invariant ids[0] == start && NoDuplicates(ids)
      invariant forall x :: x in visited <==> x in ids
      invariant |visited| == |ids| <= |universe|
      invariant visited <= universe
      invariant DiscoveredInOrder(edges, ids)
      invariant ExpandedBelow(edges, ids, done, visited)
      decreases |universe| - |ids|, |queue|
    {
      var current := queue[0];
      queue := queue[1..];
      ghost var before := ids;
      ghost var visitedBefore := visited;
      ghost var added;
      ids, visited, queue, added := EnqueueChildren(edges, current, ids, visited, queue);
      ChildrenInUniverse(edges, start, current, added);
      forall x | x in visited ensures x in universe {
        if x !in visitedBefore {
          assert x in added;
        }
      }
      SubsetCardinality(visited, universe);
      DiscoveredExtends(edges, before, added, done);
      ClosedExtends(edges, before, added, visitedBefore, visited, done);
      done := done + 1;
    }
    assert ids[..done] == ids;
    assert ClosedUnder(edges, visited);
    forall z | Reachable(edges, start, z) ensures z in ids {
      ClosedContainsReachable(edges, visited, start, z);
    }
    forall z | z in ids ensures Reachable(edges, start, z) {
      var j :| 0 <= j < |ids| && ids[j] == z;
      DiscoveredAreReachable(edges, ids, j);
    }
  }

  // ---------------------------------------------------------------------------
  // Upward: the top master of a zone (get_domain_for_zone)
  // ---------------------------------------------------------------------------

  /** SELECT parent_id ... WHERE include_id = ? LIMIT 1: the first row naming z as its child. */
  function ParentOf(edges: seq<Include>, z: int): (r: Option<int>)
    ensures r.Some? ==> Include(r.value, z) in edges
    ensures r.None? ==> forall e :: e in edges ==> e.child != z
  {
    if edges == [] then None
    else if edges[0].child == z then Some(edges[0].parent)
    else ParentOf(edges[1..], z)
  }

  /** The n-th zone on z's parent chain, if the chain is that long. */
  function Ancestor(edges: seq<Include>, z: int, n: nat): Option<int> {
    if n == 0 then Some(z)
    else match Ancestor(edges, z, n - 1)
      case None => None
      case Some(a) => ParentOf(edges, a)
  }

  /**
   * get_domain_for_zone's walk: it climbs the parent chain and stops at the
   * first zone without a parent, at the first parent already visited, or
   * after MaxTraversalDepth steps. `steps` is the number of steps climbed.
   */
  method FindTopMaster(edges: seq<Include>, zoneId: int) returns (top: int, steps: nat)
    ensures steps <= MaxTraversalDepth
    ensures Ancestor(edges, zoneId, steps) == Some(top)
    ensures forall i, j :: 0 <= i < j <= steps ==> Ancestor(edges, zoneId, i) != Ancestor(edges, zoneId, j)
    ensures steps == MaxTraversalDepth || ParentOf(edges, top).None? ||
            exists j :: 0 <= j <= steps && Ancestor(edges, zoneId, j) == ParentOf(edges, top)
  {
    top := zoneId;
    var visited: set<int> := {zoneId};
    ghost var chain := [zoneId];
    steps := 0;
    while steps < MaxTraversalDepth
      invariant steps <= MaxTraversalDepth
      invariant |chain| == steps + 1 && chain[steps] == top
      invariant forall j :: 0 <= j < |chain| ==> Ancestor(edges, zoneId, j) == Some(chain[j])
      invariant NoDuplicates(chain)
      invariant forall x :: x in visited <==> x in chain
    {
      var parent := ParentOf(edges, top);
      if parent.None? {
        return;
      }
      var p := parent.value;
      if p in visited {
        ghost var j :| 0 <= j < |chain| && chain[j] == p;
        assert Ancestor(edges, zoneId, j) == ParentOf(edges, top);
        return;
      }
      AppendFresh(chain, p);
      visited := visited + {p};
      chain := chain + [p];
      top := p;
      steps := steps + 1;
    }
  }

  // ---------------------------------------------------------------------------
  // list_domains: the masters above the include zones a user may see
  // ---------------------------------------------------------------------------

  datatype ZoneFile = ZoneFile(fileType: string, active: bool)

  predicate IsActiveMaster(zones: map<int, ZoneFile>, z: int) {
    z in zones && zones[z].active && zones[z].fileType == "master"
  }

  /** The parent query of list_domains: the first row naming z whose parent is an active zone file. */
  function ActiveParent(edges: seq<Include>, zones: map<int, ZoneFile>, z: int): (r: Option<int>)
    ensures r.Some? ==> Include(r.value, z) in edges && r.value in zones && zones[r.value].active
  {
    if edges == [] then None
    else if edges[0].child == z && edges[0].parent in zones && zones[edges[0].parent].active then Some(edges[0].parent)
    else ActiveParent(edges[1..], zones, z)
  }

  /**
   * The climb of list_domains from `current`, with the ids already visited and
   * the iterations left: the master it settles on, if any.
   */
  function Climb(edges: seq<Include>, zones: map<int, ZoneFile>, current: int, visited: set<int>, fuel: nat): (r: Option<int>)
    ensures r.Some? ==> IsActiveMaster(zones, r.value)
    ensures r.Some? ==> r.value == current || Reachable(edges, r.value, current)
    decreases fuel
  {
    if fuel == 0 || current in visited then None
    else match ActiveParent(edges, zones, current)
      case None => if IsActiveMaster(zones, current) then Some(current) else None
      case Some(p) =>
        assert IsChain(edges, [p, current]);
        if zones[p].fileType == "master" then Some(p)
        else
          var r := Climb(edges, zones, p, visited + {current}, fuel - 1);
          ClimbedAbove(edges, r, p, current);
          r
  }

  /** A zone at or above b is above c when b includes c. */
  lemma ClimbedAbove(edges: seq<Include>, r: Option<int>, b: int, c: int)
    requires Include(b, c) in edges
    requires r.Some? ==> r.value == b || Reachable(edges, r.value, b)
    ensures r.Some? ==> Reachable(edges, r.value, c)
  {
    if r.Some? {
      var p: seq<int>;
      if r.value == b {
        p := [b];
      } else {
        p :| IsChain(edges, p) && p[0] == r.value && p[|p| - 1] == b;
      }
      assert IsChain(edges, p) && p[0] == r.value && p[|p| - 1] == b;
      var q := p + [c];
      assert IsChain(edges, q) && q[0] == r.value && q[|q| - 1] == c;
    }
  }

  /** The per-include loop of list_domains, proved against Climb. */
  method ClimbToMaster(edges: seq<Include>, zones: map<int, ZoneFile>, includeId: int) returns (master: Option<int>)
    ensures master == Climb(edges, zones, includeId, {}, MaxTraversalDepth)
  {
    var current := includeId;
    var visited: seq<int> := [];
    ghost var seen: set<int> := {};
    var iterations := 0;
    while iterations < MaxTraversalDepth
      invariant 0 <= iterations <= MaxTraversalDepth
      invariant forall x :: x in visited <==> x in seen
      invariant Climb(edges, zones, includeId, {}, MaxTraversalDepth)
             == Climb(edges, zones, current, seen, MaxTraversalDepth - iterations)
    {
      iterations := iterations + 1;
      if current in visited {
        return None;
      }
      var parent := ActiveParent(edges, zones, current);
      if parent.None? {
        if IsActiveMaster(zones, current) {
          return Some(current);
        }
        return None;
      }
      if zones[parent.value].fileType == "master" {
        return Some(parent.value);
      }
      visited := visited + [current];
      seen := seen + {current};
      current := parent.value;
    }
    return None;
  }

  /**
   * allowedMasterIds of list_domains: the direct masters, then, for each
   * include in turn, the master its climb settles on unless already listed.
   */
  method ExpandAllowedMasters(edges: seq<Include>, zones: map<int, ZoneFile>, directMasters: seq<int>, includeIds: seq<int>)
    returns (allowed: seq<int>)
    ensures |directMasters| <= |allowed| <= |directMasters| + |includeIds|
    ensures allowed[..|directMasters|] == directMasters
    ensures NoDuplicates(directMasters) ==> NoDuplicates(allowed)
    ensures forall k :: |directMasters| <= k < |allowed| ==>
              allowed[k] !in directMasters && IsActiveMaster(zones, allowed[k])
    ensures forall x :: x in allowed <==>
              x in directMasters ||
              exists i :: 0 <= i < |includeIds| && Climb(edges, zones, includeIds[i], {}, MaxTraversalDepth) == Some(x)
  {
    allowed := directMasters;
    var n := 0;
    while n < |includeIds|
      invariant 0 <= n <= |includeIds|
      invariant |directMasters| <= |allowed| <= |directMasters| + n
      invariant allowed[..|directMasters|] == directMasters
      invariant NoDuplicates(directMasters) ==> NoDuplicates(allowed)
      invariant forall k :: |directMasters| <= k < |allowed| ==>
                  allowed[k] !in directMasters && IsActiveMaster(zones, allowed[k])
      invariant forall x :: x in allowed <==>
                  x in directMasters ||
                  exists i :: 0 <= i < n && Climb(edges, zones, includeIds[i], {}, MaxTraversalDepth) == Some(x)
    {
      var master := ClimbToMaster(edges, zones, includeIds[n]);
      if master.Some? && master.value !in allowed {
        if NoDuplicates(directMasters) {
          AppendFresh(allowed, master.value);
        }
        allowed := allowed + [master.value];
      }
      n := n + 1;
    }
  }
}
