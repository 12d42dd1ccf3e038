/**
 Bounded neighbourhoods: the frontier walk of the targeted database-graph build (_discover_object_ids in
 mcp/db_tools/build_db_graph.py) and the level walk of graph_get_subgraph (mcp/shared_graph_tools.py). One only
 expands ids it has not seen, the other whole levels; both compute the ball of the given radius.
 */
module Neighborhood {
  import opened Basics

  /** A row or edge joining two objects; both walks follow it in either direction. */
  datatype Link<T> = Link(a: T, b: T)

  /** Everything one hop away from `from`. */
  function Adjacent<T>(links: seq<Link<T>>, from: set<T>): set<T> {
    (set i | 0 <= i < |links| && links[i].a in from :: links[i].b)
    + (set i | 0 <= i < |links| && links[i].b in from :: links[i].a)
  }

  function Ball<T>(links: seq<Link<T>>, seeds: set<T>, radius: nat): set<T> {
    if radius == 0 then seeds
    else var inner := Ball(links, seeds, radius - 1); inner + Adjacent(links, inner)
  }

  ghost predicate IsHop<T(!new)>(links: seq<Link<T>>, x: T, y: T) {
    Link(x, y) in links || Link(y, x) in links
  }

  /** A walk from a seed, each step along a link in either direction. */
  ghost predicate IsWalk<T(!new)>(links: seq<Link<T>>, seeds: set<T>, walk: seq<T>) {
    && walk != [] && walk[0] in seeds
    && forall i :: 0 <= i < |walk| - 1 ==> IsHop(links, walk[i], walk[i + 1])
  }

  /** The ball is what walks of at most `radius` hops reach. */
  lemma {:induction false} BallIsReach<T(!new)>(links: seq<Link<T>>, seeds: set<T>, radius: nat, x: T)
    ensures x in Ball(links, seeds, radius) <==>
            exists walk :: IsWalk(links, seeds, walk) && walk[|walk| - 1] == x && |walk| - 1 <= radius
  {
    if x in Ball(links, seeds, radius) {
      var walk := WalkInto(links, seeds, radius, x);
    }
    if exists walk :: IsWalk(links, seeds, walk) && walk[|walk| - 1] == x && |walk| - 1 <= radius {
      var walk :| IsWalk(links, seeds, walk) && walk[|walk| - 1] == x && |walk| - 1 <= radius;
      WalkStaysIn(links, seeds, walk);
      BallGrows(links, seeds, |walk| - 1, radius);
    }
  }

  lemma AdjacentIsHop<T(!new)>(links: seq<Link<T>>, from: set<T>, y: T)
    ensures y in Adjacent(links, from) <==> exists x :: x in from && IsHop(links, x, y)
  {
    if x :| x in from && IsHop(links, x, y) {
      if Link(x, y) in links {
        var i :| 0 <= i < |links| && links[i] == Link(x, y);
        assert links[i].a in from && links[i].b == y;
      } else {
        var i :| 0 <= i < |links| && links[i] == Link(y, x);
        assert links[i].b in from && links[i].a == y;
      }
    }
    if y in Adjacent(links, from) {
      var i :| 0 <= i < |links| && ((links[i].a in from && links[i].b == y) || (links[i].b in from && links[i].a == y));
      assert links[i] == Link(links[i].a, links[i].b);
      if links[i].a in from && links[i].b == y {
        assert IsHop(links, links[i].a, y);
      } else {
        assert IsHop(links, links[i].b, y);
      }
    }
  }

  lemma {:induction false} WalkInto<T(!new)>(links: seq<Link<T>>, seeds: set<T>, radius: nat, x: T) returns (walk: seq<T>)
    requires x in Ball(links, seeds, radius)
    ensures IsWalk(links, seeds, walk) && walk[|walk| - 1] == x && |walk| - 1 <= radius
  {
    if radius == 0 {
      walk := [x];
    } else {
      var inner := Ball(links, seeds, radius - 1);
      if x in inner {
        walk := WalkInto(links, seeds, radius - 1, x);
      } else {
        AdjacentIsHop(links, inner, x);
        var y :| y in inner && IsHop(links, y, x);
        var to := WalkInto(links, seeds, radius - 1, y);
        walk := to + [x];
      }
    }
  }

  lemma {:induction false} WalkStaysIn<T(!new)>(links: seq<Link<T>>, seeds: set<T>, walk: seq<T>)
    requires IsWalk(links, seeds, walk)
    ensures walk[|walk| - 1] in Ball(links, seeds, |walk| - 1)
    decreases |walk|
  {
    if |walk| > 1 {
      var init := walk[..|walk| - 1];
      forall i | 0 <= i < |init| - 1 ensures IsHop(links, init[i], init[i + 1]) {
        assert IsHop(links, walk[i], walk[i + 1]);
      }
      WalkStaysIn(links, seeds, init);
      assert IsHop(links, walk[|walk| - 2], walk[|walk| - 1]);
      AdjacentIsHop(links, Ball(links, seeds, |walk| - 2), walk[|walk| - 1]);
    }
  }

  lemma {:induction false} BallGrows<T>(links: seq<Link<T>>, seeds: set<T>, r: nat, radius: nat)
    requires r <= radius
    ensures Ball(links, seeds, r) <= Ball(links, seeds, radius)
    decreases radius
  {
    if r < radius {
      BallGrows(links, seeds, r, radius - 1);
    }
  }

  lemma {:induction false} BallSettles<T>(links: seq<Link<T>>, seeds: set<T>, r: nat, radius: nat)
    requires r <= radius && Adjacent(links, Ball(links, seeds, r)) <= Ball(links, seeds, r)
    ensures Ball(links, seeds, radius) == Ball(links, seeds, r)
    decreases radius
  {
    hide Adjacent;
    if r < radius {
      BallSettles(links, seeds, r, radius - 1);
    }
  }

  lemma AdjacentOfUnion<T>(links: seq<Link<T>>, s: set<T>, t: set<T>)
    ensures Adjacent(links, s + t) == Adjacent(links, s) + Adjacent(links, t)
  {
  }

  // ---- the frontier walk ----

  /** The rows a frontier query returns: those touching the frontier on either side. */
  function Touching(rows: seq<Link<int>>, frontier: set<int>): seq<Link<int>> {
    if rows == [] then []
    else
      var row, sofar := rows[|rows| - 1], Touching(rows[..|rows| - 1], frontier);
      if row.a in frontier || row.b in frontier then sofar + [row] else sofar
  }

  function Ends(rows: seq<Link<int>>): set<int> {
    (set i | 0 <= i < |rows| :: rows[i].a) + (set i | 0 <= i < |rows| :: rows[i].b)
  }

  lemma {:induction false} TouchingExact(rows: seq<Link<int>>, frontier: set<int>, row: Link<int>)
    ensures row in Touching(rows, frontier) <==> row in rows && (row.a in frontier || row.b in frontier)
  {
    if rows != [] {
      assert rows == rows[..|rows| - 1] + [rows[|rows| - 1]];
      TouchingExact(rows[..|rows| - 1], frontier, row);
    }
  }

  lemma TouchingEnds(rows: seq<Link<int>>, frontier: set<int>)
    ensures Adjacent(rows, frontier) <= Ends(Touching(rows, frontier)) <= Adjacent(rows, frontier) + frontier
  {
    var touching := Touching(rows, frontier);
    forall x | x in Adjacent(rows, frontier) ensures x in Ends(touching) {
      var i :| 0 <= i < |rows| && ((rows[i].a in frontier && rows[i].b == x) || (rows[i].b in frontier && rows[i].a == x));
      TouchingExact(rows, frontier, rows[i]);
      var k :| 0 <= k < |touching| && touching[k] == rows[i];
      assert touching[k].a in Ends(touching) && touching[k].b in Ends(touching);
    }
    forall x | x in Ends(touching) ensures x in Adjacent(rows, frontier) + frontier {
      var k :| 0 <= k < |touching| && (touching[k].a == x || touching[k].b == x);
      TouchingExact(rows, frontier, touching[k]);
      var i :| 0 <= i < |rows| && rows[i] == touching[k];
    }
  }

  method CollectEnds(rows: seq<Link<int>>, into: set<int>) returns (out: set<int>)
    ensures out == into + Ends(rows)
  {
    out := into;
    for i := 0 to |rows|
      invariant out == into + Ends(rows[..i])
    {
      assert Ends(rows[..i + 1]) == Ends(rows[..i]) + {rows[i].a, rows[i].b} by {
        assert rows[..i + 1] == rows[..i] + [rows[i]];
        EndsOfSnoc(rows[..i], rows[i]);
      }
      out := out + {rows[i].a} + {rows[i].b};
    }
    assert rows[..|rows|] == rows;
  }

  lemma EndsOfSnoc(rows: seq<Link<int>>, row: Link<int>)
    ensures Ends(rows + [row]) == Ends(rows) + {row.a, row.b}
  {
    var more := rows + [row];
    assert more[|rows|] == row;
    assert forall i :: 0 <= i < |rows| ==> more[i] == rows[i];
    assert Ends(rows) <= Ends(more) by {
      forall x | x in Ends(rows) ensures x in Ends(more) {
        var i :| 0 <= i < |rows| && (rows[i].a == x || rows[i].b == x);
        assert more[i] == rows[i];
      }
    }
  }

  /** `fks` join parent and referenced tables, `deps` referencing routines and referenced tables. */
  method DiscoverObjectIds(fks: seq<Link<int>>, deps: seq<Link<int>>, seed: int, maxDepth: int) returns (discovered: set<int>)
    ensures discovered == Ball(fks + deps, {seed}, if maxDepth < 0 then 0 else maxDepth)
  {
    discovered := {seed};
    var frontier := {seed};
    var depth := if maxDepth < 0 then 0 else maxDepth;
    for hop := 0 to depth
      invariant discovered == Ball(fks + deps, {seed}, hop)
      invariant frontier <= discovered && Adjacent(fks + deps, discovered - frontier) <= discovered
    {
      if frontier == {} {
        assert discovered - frontier == discovered;
        BallSettles(fks + deps, {seed}, hop, depth);
        return;
      }
      var neighbors := CollectEnds(Touching(fks, frontier), {});
      neighbors := CollectEnds(Touching(deps, frontier), neighbors);
      FrontierStep(fks, deps, discovered, frontier, neighbors);
      var newIds := neighbors - discovered;
      discovered := discovered + newIds;
      frontier := newIds;
    }
  }

  /** Expanding the frontier alone is expanding everything discovered. */
  lemma FrontierStep(fks: seq<Link<int>>, deps: seq<Link<int>>, discovered: set<int>, frontier: set<int>, neighbors: set<int>)
    requires frontier <= discovered && Adjacent(fks + deps, discovered - frontier) <= discovered
    requires neighbors == Ends(Touching(fks, frontier)) + Ends(Touching(deps, frontier))
    ensures discovered + neighbors == discovered + Adjacent(fks + deps, discovered)
    ensures var newIds := neighbors - discovered; Adjacent(fks + deps, (discovered + newIds) - newIds) <= discovered + newIds
  {
    var links, newIds := fks + deps, neighbors - discovered;
    TouchingEnds(fks, frontier);
    TouchingEnds(deps, frontier);
    AdjacentOfConcat(fks, deps, frontier);
    AdjacentOfUnion(links, discovered - frontier, frontier);
    assert (discovered - frontier) + frontier == discovered;
    assert (discovered + newIds) - newIds == discovered;
  }

  lemma AdjacentOfConcat<T>(l: seq<Link<T>>, m: seq<Link<T>>, from: set<T>)
    ensures Adjacent(l + m, from) == Adjacent(l, from) + Adjacent(m, from)
  {
    var lm := l + m;
    forall x | x in Adjacent(l, from) ensures x in Adjacent(lm, from) {
      var i :| 0 <= i < |l| && ((l[i].a in from && l[i].b == x) || (l[i].b in from && l[i].a == x));
      assert lm[i] == l[i];
    }
    forall x | x in Adjacent(m, from) ensures x in Adjacent(lm, from) {
      var i :| 0 <= i < |m| && ((m[i].a in from && m[i].b == x) || (m[i].b in from && m[i].a == x));
      assert lm[|l| + i] == m[i];
    }
  }

  // ---- the level walk ----

  /** The nodes the inner loop adds for one node of the level; a self-loop adds the node itself. */
  method NeighborsOf<T(==)>(edges: seq<Link<T>>, node: T, into: set<T>) returns (out: set<T>)
    ensures out == into + Adjacent(edges, {node})
  {
    out := into;
    for i := 0 to |edges|
      invariant out == into + Adjacent(edges[..i], {node})
    {
      assert edges[..i + 1] == edges[..i] + [edges[i]];
      AdjacentOfConcat(edges[..i], [edges[i]], {node});
      AdjacentOfOne(edges[i], node);
      if edges[i].a == node {
        out := out + {edges[i].b};
      } else if edges[i].b == node {
        out := out + {edges[i].a};
      }
    }
    assert edges[..|edges|] == edges;
  }

  lemma AdjacentOfOne<T>(link: Link<T>, node: T)
    ensures Adjacent([link], {node}) ==
            if link.a == node then {link.b} else if link.b == node then {link.a} else {}
  {
    var one := [link];
    assert one[0] == link;
    if link.a == node { assert one[0].a in {node}; }
    if link.b == node { assert one[0].b in {node}; }
  }

  method NextLevel<T(==)>(edges: seq<Link<T>>, level: set<T>) returns (next: set<T>)
    ensures next == Adjacent(edges, level)
  {
    next := {};
    var rest := level;
    assert level - rest == {};
    while rest != {}
      invariant rest <= level && next == Adjacent(edges, level - rest)
    {
      var node :| node in rest;
      AdjacentOfUnion(edges, level - rest, {node});
      assert level - (rest - {node}) == (level - rest) + {node};
      next := NeighborsOf(edges, node, next);
      rest := rest - {node};
    }
    assert level - rest == level;
  }

  function FilterLinks<T>(edges: seq<Link<T>>, within: set<T>): seq<Link<T>> {
    if edges == [] then []
    else
      var edge, sofar := edges[|edges| - 1], FilterLinks(edges[..|edges| - 1], within);
      if edge.a in within && edge.b in within then sofar + [edge] else sofar
  }

  /** The kept edges: each edge with both ends in the set once, in graph order, however often it is parallel to others. */
  lemma {:induction false} FilterKeeps<T>(edges: seq<Link<T>>, within: set<T>) returns (at: seq<nat>)
    ensures Picked(edges, FilterLinks(edges, within), at)
    ensures forall k: nat :: k < |edges| ==> (k in at <==> edges[k].a in within && edges[k].b in within)
  {
    if edges == [] {
      at := [];
    } else {
      hide Picked;
      var earlier, last := edges[..|edges| - 1], edges[|edges| - 1];
      at := FilterKeeps(earlier, within);
      PickedMore(earlier, FilterLinks(earlier, within), at, last);
      assert edges == earlier + [last];
      if last.a in within && last.b in within {
        at := at + [|earlier|];
      }
    }
  }

  datatype Record<T> = Record(id: T, body: string)

  /** The record kept under each id: the last one that has it. */
  function ById<T>(records: seq<Record<T>>): map<T, Record<T>> {
    if records == [] then map[]
    else ById(records[..|records| - 1])[records[|records| - 1].id := records[|records| - 1]]
  }

  /** A record kept under its id is one of the list, and no later one has that id. */
  lemma {:induction false} ByIdIsLast<T>(records: seq<Record<T>>, r: Record<T>)
    ensures r.id in ById(records) && ById(records)[r.id] == r <==>
            exists k :: 0 <= k < |records| && records[k] == r && forall j :: k < j < |records| ==> records[j].id != r.id
  {
    if records != [] {
      var earlier, last := records[..|records| - 1], records[|records| - 1];
      ByIdIsLast(earlier, r);
      if k :| 0 <= k < |earlier| && earlier[k] == r && forall j :: k < j < |earlier| ==> earlier[j].id != r.id {
        assert records[k] == r;
      }
      if k :| 0 <= k < |records| && records[k] == r && forall j :: k < j < |records| ==> records[j].id != r.id {
        assert k < |earlier| ==> earlier[k] == r && last.id != r.id;
      }
      if last == r {
        assert records[|records| - 1] == r;
      }
    }
  }

  /** One record for each of the given ids that has any, in no particular order. */
  ghost predicate RecordsOf<T(!new)>(found: seq<Record<T>>, records: seq<Record<T>>, ids: set<T>) {
    && (forall r :: r in found <==> r.id in ids && r.id in ById(records) && ById(records)[r.id] == r)
    && forall i, j :: 0 <= i < j < |found| ==> found[i].id != found[j].id
  }

  method SelectRecords<T(==, !new)>(records: seq<Record<T>>, ids: set<T>) returns (found: seq<Record<T>>)
    ensures RecordsOf(found, records, ids)
  {
    var byId: map<T, Record<T>> := map[];
    for k := 0 to |records|
      invariant byId == ById(records[..k])
    {
      assert records[..k + 1][..k] == records[..k];
      byId := byId[records[k].id := records[k]];
    }
    assert records[..|records|] == records;
    found := [];
    var rest := ids;
    KeptUnderOwnId(records);
    while rest != {}
      invariant rest <= ids && byId == ById(records)
      invariant RecordsOf(found, records, ids - rest)
      decreases |rest|
    {
      var id :| id in rest;
      rest := rest - {id};
      if id in byId {
        found := found + [byId[id]];
      }
    }
    assert ids - rest == ids;
  }

  lemma {:induction false} KeptUnderOwnId<T>(records: seq<Record<T>>)
    ensures forall id :: id in ById(records) ==> ById(records)[id].id == id
  {
    if records != [] {
      KeptUnderOwnId(records[..|records| - 1]);
    }
  }

  /** The nodes within `depth` hops of the seeds with their records, and the edges between them in graph order. */
  method GetSubgraph<T(==, !new)>(records: seq<Record<T>>, edges: seq<Link<T>>, seeds: seq<T>, depth: int)
      returns (subNodes: seq<Record<T>>, subEdges: seq<Link<T>>)
    ensures var found := Ball(edges, set x | x in seeds, if depth < 0 then 0 else depth);
            RecordsOf(subNodes, records, found) && subEdges == FilterLinks(edges, found)
  {
    ghost var start := set x | x in seeds;
    var visited := set x | x in seeds;
    var currentLevel := visited;
    for hop := 0 to if depth < 0 then 0 else depth
      invariant visited == Ball(edges, start, hop)
      invariant currentLevel <= visited && Adjacent(edges, visited - currentLevel) <= visited
    {
      var nextLevel := NextLevel(edges, currentLevel);
      LevelStep(edges, visited, currentLevel);
      visited := visited + nextLevel;
      currentLevel := nextLevel;
    }
    subNodes := SelectRecords(records, visited);
    subEdges := [];
    for i := 0 to |edges|
      invariant subEdges == FilterLinks(edges[..i], visited)
    {
      assert edges[..i + 1][..i] == edges[..i];
      if edges[i].a in visited && edges[i].b in visited {
        subEdges := subEdges + [edges[i]];
      }
    }
    assert edges[..|edges|] == edges;
  }

  lemma LevelStep<T>(edges: seq<Link<T>>, visited: set<T>, level: set<T>)
    requires level <= visited && Adjacent(edges, visited - level) <= visited
    ensures visited + Adjacent(edges, level) == visited + Adjacent(edges, visited)
    ensures var next := Adjacent(edges, level); Adjacent(edges, (visited + next) - next) <= visited + next
  {
    var next := Adjacent(edges, level);
    AdjacentOfUnion(edges, visited - level, level);
    assert (visited - level) + level == visited;
    var kept := (visited + next) - next;
    assert visited == kept + (visited - kept);
    AdjacentOfUnion(edges, kept, visited - kept);
  }
}
