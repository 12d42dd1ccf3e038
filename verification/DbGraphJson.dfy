/**
 The order in which the graph is written out (graph_to_json in mcp/db_tools/build_db_graph.py). The multigraph
 lists edges by source node, then by target in the order first linked, then by a key counting parallel edges;
 restricting the graph to an induced subgraph restricts that list and changes neither order nor keys.
 */
module DbGraphJson {
  import opened Basics
  import opened DbGraph
  import opened DbTargeted

  datatype JsonEdge = JsonEdge(source: string, target: string, key: nat, attrs: EdgeAttrs)

  /** The targets linked from `u`, in the order they were first linked. */
  function Successors(edges: seq<GraphEdge>, u: string): seq<string> {
    if edges == [] then []
    else
      var e, sofar := Last(edges), Successors(Init(edges), u);
      if e.source == u && e.target !in sofar then sofar + [e.target] else sofar
  }

  function Parallel(edges: seq<GraphEdge>, u: string, v: string): seq<EdgeAttrs> {
    if edges == [] then []
    else
      var e, sofar := Last(edges), Parallel(Init(edges), u, v);
      if e.source == u && e.target == v then sofar + [e.attrs] else sofar
  }

  function Keyed(u: string, v: string, attrs: seq<EdgeAttrs>): seq<JsonEdge> {
    if attrs == [] then [] else Keyed(u, v, Init(attrs)) + [JsonEdge(u, v, |attrs| - 1, Last(attrs))]
  }

  function EdgesFrom(edges: seq<GraphEdge>, u: string, targets: seq<string>): seq<JsonEdge> {
    if targets == [] then []
    else EdgesFrom(edges, u, Init(targets)) + Keyed(u, Last(targets), Parallel(edges, u, Last(targets)))
  }

  function JsonEdges(nodes: seq<GraphNode>, edges: seq<GraphEdge>): seq<JsonEdge> {
    if nodes == [] then []
    else JsonEdges(Init(nodes), edges) + EdgesFrom(edges, Last(nodes).id, Successors(edges, Last(nodes).id))
  }

  datatype Json = Json(nodes: seq<GraphNode>, edges: seq<JsonEdge>)

  function GraphToJson(g: Graph): Json {
    Json(g.nodes, JsonEdges(g.nodes, g.edges))
  }

  /** The part of a written-out graph that concerns the kept nodes. */
  function Restrict(json: Json, ids: set<int>): Json {
    var nodes := OwnedNodes(json.nodes, ids);
    Json(nodes, RestrictEdges(json.edges, nodes))
  }

  function RestrictEdges(edges: seq<JsonEdge>, kept: seq<GraphNode>): seq<JsonEdge> {
    if edges == [] then []
    else
      var e, sofar := Last(edges), RestrictEdges(Init(edges), kept);
      if HasNode(kept, e.source) && HasNode(kept, e.target) then sofar + [e] else sofar
  }

  lemma {:induction false} RestrictConcat(a: seq<JsonEdge>, b: seq<JsonEdge>, kept: seq<GraphNode>)
    ensures RestrictEdges(a + b, kept) == RestrictEdges(a, kept) + RestrictEdges(b, kept)
  {
    if b == [] {
      assert a + b == a && RestrictEdges(a, kept) + [] == RestrictEdges(a, kept);
    } else {
      assert Init(a + b) == a + Init(b) && Last(a + b) == Last(b);
      RestrictConcat(a, Init(b), kept);
      if HasNode(kept, Last(b).source) && HasNode(kept, Last(b).target) {
        ConcatSnoc(RestrictEdges(a, kept), RestrictEdges(Init(b), kept), Last(b));
      }
    }
  }

  function KeptIds(ids: seq<string>, kept: seq<GraphNode>): seq<string> {
    if ids == [] then []
    else if HasNode(kept, Last(ids)) then KeptIds(Init(ids), kept) + [Last(ids)]
    else KeptIds(Init(ids), kept)
  }

  lemma {:induction false} KeptIdsExact(ids: seq<string>, kept: seq<GraphNode>, id: string)
    ensures id in KeptIds(ids, kept) <==> id in ids && HasNode(kept, id)
  {
    if ids != [] {
      assert ids == Init(ids) + [Last(ids)];
      KeptIdsExact(Init(ids), kept, id);
    }
  }

  lemma {:induction false} SuccessorsWithin(edges: seq<GraphEdge>, kept: seq<GraphNode>, u: string)
    requires HasNode(kept, u)
    ensures Successors(EdgesWithin(edges, kept), u) == KeptIds(Successors(edges, u), kept)
  {
    if edges != [] {
      SuccessorsWithin(Init(edges), kept, u);
      KeptIdsExact(Successors(Init(edges), u), kept, Last(edges).target);
    }
  }

  lemma {:induction false} ParallelWithin(edges: seq<GraphEdge>, kept: seq<GraphNode>, u: string, v: string)
    requires HasNode(kept, u) && HasNode(kept, v)
    ensures Parallel(EdgesWithin(edges, kept), u, v) == Parallel(edges, u, v)
  {
    if edges != [] {
      ParallelWithin(Init(edges), kept, u, v);
    }
  }

  lemma {:induction false} KeyedRestricted(u: string, v: string, attrs: seq<EdgeAttrs>, kept: seq<GraphNode>)
    ensures RestrictEdges(Keyed(u, v, attrs), kept) == if HasNode(kept, u) && HasNode(kept, v) then Keyed(u, v, attrs) else []
  {
    if attrs != [] {
      KeyedRestricted(u, v, Init(attrs), kept);
    }
  }

  lemma {:induction false} EdgesFromRestricted(edges: seq<GraphEdge>, kept: seq<GraphNode>, u: string, targets: seq<string>)
    ensures RestrictEdges(EdgesFrom(edges, u, targets), kept)
            == if HasNode(kept, u) then EdgesFrom(EdgesWithin(edges, kept), u, KeptIds(targets, kept)) else []
  {
    if targets != [] {
      var v := Last(targets);
      EdgesFromRestricted(edges, kept, u, Init(targets));
      RestrictConcat(EdgesFrom(edges, u, Init(targets)), Keyed(u, v, Parallel(edges, u, v)), kept);
      KeyedRestricted(u, v, Parallel(edges, u, v), kept);
      if HasNode(kept, u) && HasNode(kept, v) {
        ParallelWithin(edges, kept, u, v);
      }
    }
  }

  lemma {:induction false} JsonEdgesRestricted(all: seq<GraphNode>, nodes: seq<GraphNode>, edges: seq<GraphEdge>, ids: set<int>)
    requires DistinctIds(all) && nodes <= all
    ensures JsonEdges(OwnedNodes(nodes, ids), EdgesWithin(edges, OwnedNodes(all, ids)))
            == RestrictEdges(JsonEdges(nodes, edges), OwnedNodes(all, ids))
  {
    hide EdgesFrom, Successors, EdgesWithin, KeptIds;
    if nodes != [] {
      var u, kept := Last(nodes).id, OwnedNodes(all, ids);
      JsonEdgesRestricted(all, Init(nodes), edges, ids);
      KeptById(all, ids, |nodes| - 1);
      EdgesFromRestricted(edges, kept, u, Successors(edges, u));
      RestrictConcat(JsonEdges(Init(nodes), edges), EdgesFrom(edges, u, Successors(edges, u)), kept);
      if HasNode(kept, u) {
        SuccessorsWithin(edges, kept, u);
      }
    }
  }

  /** Written out, the targeted graph is the full graph's output restricted to the discovered objects. */
  lemma TargetedOutputIsRestriction(c: Rows, ids: set<int>, defs: bool)
    requires Consistent(c)
    ensures GraphToJson(Build(Filtered(c, ids), defs)) == Restrict(GraphToJson(Build(c, defs)), ids)
  {
    BuildIsDeclared(c, defs);
    FilteredBuildIsInduced(c, ids, defs);
    JsonEdgesRestricted(Nodes(c, defs), Nodes(c, defs), Edges(c, defs), ids);
  }

  // ---- what is written out, and in which order ----

  predicate IsLink(e: GraphEdge, u: string, v: string) {
    e.source == u && e.target == v
  }

  /** How many edges lead from `u` to `v`. */
  function LinkCount(edges: seq<GraphEdge>, u: string, v: string): nat {
    if edges == [] then 0 else LinkCount(Init(edges), u, v) + if IsLink(Last(edges), u, v) then 1 else 0
  }

  /** Edge `i` of the graph, written with its attributes and the number of parallel edges before it. */
  predicate Writes(edges: seq<GraphEdge>, i: nat, e: JsonEdge)
    requires i < |edges|
  {
    edges[i] == GraphEdge(e.source, e.target, e.attrs) && LinkCount(edges[..i], e.source, e.target) == e.key
  }

  ghost predicate IsWritten(edges: seq<GraphEdge>, e: JsonEdge) {
    exists i: nat :: i < |edges| && Writes(edges, i, e)
  }

  lemma {:induction false} ParallelMeans(edges: seq<GraphEdge>, e: JsonEdge)
    ensures var attrs := Parallel(edges, e.source, e.target);
            |attrs| == LinkCount(edges, e.source, e.target) && (IsWritten(edges, e) <==> e.key < |attrs| && attrs[e.key] == e.attrs)
  {
    if edges != [] {
      var init, n := Init(edges), |edges| - 1;
      ParallelMeans(init, e);
      hide IsWritten;
      OneMoreWritten(edges, e);
    }
  }

  lemma OneMoreWritten(edges: seq<GraphEdge>, e: JsonEdge)
    requires edges != []
    ensures IsWritten(edges, e) <==> IsWritten(Init(edges), e) || Writes(edges, |edges| - 1, e)
  {
    hide LinkCount;
    var init := Init(edges);
    forall i: nat | i < |init| ensures Writes(init, i, e) <==> Writes(edges, i, e) {
      assert init[..i] == edges[..i];
    }
  }

  ghost predicate HasLink(edges: seq<GraphEdge>, u: string, v: string) {
    exists i: nat :: i < |edges| && IsLink(edges[i], u, v)
  }

  lemma {:induction false} SuccessorsAre(edges: seq<GraphEdge>, u: string, v: string)
    ensures v in Successors(edges, u) <==> HasLink(edges, u, v)
  {
    if edges != [] {
      SuccessorsAre(Init(edges), u, v);
      OneMoreLink(edges, u, v);
      hide HasLink;
      OneMoreSuccessor(edges, u, v);
    }
  }

  lemma OneMoreLink(edges: seq<GraphEdge>, u: string, v: string)
    requires edges != []
    ensures HasLink(edges, u, v) <==> HasLink(Init(edges), u, v) || IsLink(Last(edges), u, v)
  {
    assert forall i: nat :: i < |Init(edges)| ==> Init(edges)[i] == edges[i];
  }

  lemma OneMoreSuccessor(edges: seq<GraphEdge>, u: string, v: string)
    requires edges != []
    ensures v in Successors(edges, u) <==> v in Successors(Init(edges), u) || IsLink(Last(edges), u, v)
  {
  }

  lemma {:induction false} KeyedAre(u: string, v: string, attrs: seq<EdgeAttrs>, e: JsonEdge)
    ensures e in Keyed(u, v, attrs) <==> e.source == u && e.target == v && e.key < |attrs| && attrs[e.key] == e.attrs
  {
    if attrs != [] {
      KeyedAre(u, v, Init(attrs), e);
    }
  }

  lemma {:induction false} EdgesFromAre(edges: seq<GraphEdge>, u: string, targets: seq<string>, e: JsonEdge)
    ensures e in EdgesFrom(edges, u, targets) <==> e.source == u && e.target in targets && IsWritten(edges, e)
  {
    if targets != [] {
      EdgesFromAre(edges, u, Init(targets), e);
      hide Keyed, Parallel, IsWritten;
      KeyedMeans(edges, u, Last(targets), e);
      assert targets == Init(targets) + [Last(targets)];
    }
  }

  lemma KeyedMeans(edges: seq<GraphEdge>, u: string, v: string, e: JsonEdge)
    ensures e in Keyed(u, v, Parallel(edges, u, v)) <==> e.source == u && e.target == v && IsWritten(edges, e)
  {
    hide Keyed, Parallel, IsWritten;
    KeyedAre(u, v, Parallel(edges, u, v), e);
    ParallelMeans(edges, e);
  }

  /** What is written: every edge out of a listed node, with its attributes and key, and nothing else. */
  lemma {:induction false} WrittenEdges(nodes: seq<GraphNode>, edges: seq<GraphEdge>, e: JsonEdge)
    ensures e in JsonEdges(nodes, edges) <==> HasNode(nodes, e.source) && IsWritten(edges, e)
  {
    if nodes != [] {
      var u := Last(nodes).id;
      WrittenEdges(Init(nodes), edges, e);
      hide EdgesFrom, Successors, IsWritten, HasLink, HasNode;
      EdgesFromAre(edges, u, Successors(edges, u), e);
      SuccessorsAre(edges, u, e.target);
      WrittenIsLink(edges, e);
      OneMoreNode(nodes, e.source);
    }
  }

  lemma OneMoreNode(nodes: seq<GraphNode>, id: string)
    requires nodes != []
    ensures HasNode(nodes, id) <==> HasNode(Init(nodes), id) || Last(nodes).id == id
  {
    assert forall i :: 0 <= i < |Init(nodes)| ==> Init(nodes)[i] == nodes[i];
    assert nodes[|nodes| - 1] == Last(nodes);
  }

  lemma WrittenIsLink(edges: seq<GraphEdge>, e: JsonEdge)
    ensures IsWritten(edges, e) ==> HasLink(edges, e.source, e.target)
  {
    if i: nat :| i < |edges| && Writes(edges, i, e) {
      assert IsLink(edges[i], e.source, e.target);
    }
  }

  lemma LinkOfPart(edges: seq<GraphEdge>, n: nat, u: string, v: string)
    requires n <= |edges|
    ensures HasLink(edges[..n], u, v) ==> HasLink(edges, u, v)
  {
    if i: nat :| i < |edges[..n]| && IsLink(edges[..n][i], u, v) {
      assert edges[i] == edges[..n][i];
    }
  }

  lemma LinkIsHere(edges: seq<GraphEdge>, i: nat, u: string, v: string)
    requires i < |edges| && IsLink(edges[i], u, v)
    ensures HasLink(edges[..i + 1], u, v)
  {
    assert edges[..i + 1][i] == edges[i];
  }

  ghost predicate NodeBefore(nodes: seq<GraphNode>, u: string, v: string) {
    exists i, j :: 0 <= i < j < |nodes| && nodes[i].id == u && nodes[j].id == v
  }

  /** `u` was linked to `v` before it was linked to `w`. */
  ghost predicate LinkedBefore(edges: seq<GraphEdge>, u: string, v: string, w: string) {
    exists i: nat :: i < |edges| && IsLink(edges[i], u, v) && !HasLink(edges[..i + 1], u, w)
  }

  /** By source in node order, then by target in the order first linked, then by key. */
  ghost predicate Before(nodes: seq<GraphNode>, edges: seq<GraphEdge>, x: JsonEdge, y: JsonEdge) {
    || NodeBefore(nodes, x.source, y.source)
    || (x.source == y.source && LinkedBefore(edges, x.source, x.target, y.target))
    || (x.source == y.source && x.target == y.target && x.key < y.key)
  }

  ghost predicate InOrder(nodes: seq<GraphNode>, edges: seq<GraphEdge>, out: seq<JsonEdge>) {
    forall k, l :: 0 <= k < l < |out| ==> Before(nodes, edges, out[k], out[l])
  }

  lemma OrderConcat(nodes: seq<GraphNode>, edges: seq<GraphEdge>, a: seq<JsonEdge>, b: seq<JsonEdge>)
    requires InOrder(nodes, edges, a) && InOrder(nodes, edges, b)
    requires forall x, y :: x in a && y in b ==> Before(nodes, edges, x, y)
    ensures InOrder(nodes, edges, a + b)
  {
    hide Before;
    forall k, l | 0 <= k < l < |a + b| ensures Before(nodes, edges, (a + b)[k], (a + b)[l]) {
      if k < |a| <= l {
        assert a[k] in a && b[l - |a|] in b;
      }
    }
  }

  lemma {:induction false} KeyedOrder(nodes: seq<GraphNode>, edges: seq<GraphEdge>, u: string, v: string, attrs: seq<EdgeAttrs>)
    ensures InOrder(nodes, edges, Keyed(u, v, attrs))
  {
    if attrs != [] {
      var init, last := Keyed(u, v, Init(attrs)), JsonEdge(u, v, |attrs| - 1, Last(attrs));
      KeyedOrder(nodes, edges, u, v, Init(attrs));
      forall x | x in init ensures Before(nodes, edges, x, last) {
        KeyedAre(u, v, Init(attrs), x);
      }
      hide Before;
      OrderConcat(nodes, edges, init, [last]);
    }
  }

  ghost predicate Linked(edges: seq<GraphEdge>, u: string, targets: seq<string>) {
    forall p, q :: 0 <= p < q < |targets| ==> LinkedBefore(edges, u, targets[p], targets[q])
  }

  lemma {:induction false} SuccessorsOrder(edges: seq<GraphEdge>, u: string)
    ensures Linked(edges, u, Successors(edges, u))
  {
    if edges != [] {
      var init, targets := Init(edges), Successors(Init(edges), u);
      SuccessorsOrder(init, u);
      LinkedStays(edges, u, targets);
      var w := Last(edges).target;
      if Last(edges).source == u && w !in targets {
        SuccessorsAre(init, u, w);
        forall p | 0 <= p < |targets| ensures LinkedBefore(edges, u, targets[p], w) {
          SuccessorsAre(init, u, targets[p]);
          LinkedFirst(edges, u, targets[p], w);
        }
        hide LinkedBefore;
      }
    }
  }

  lemma LinkedStays(edges: seq<GraphEdge>, u: string, targets: seq<string>)
    requires edges != [] && Linked(Init(edges), u, targets)
    ensures Linked(edges, u, targets)
  {
    hide HasLink;
    forall p, q | 0 <= p < q < |targets| ensures LinkedBefore(edges, u, targets[p], targets[q]) {
      assert LinkedBefore(Init(edges), u, targets[p], targets[q]);
      var i: nat :| i < |Init(edges)| && IsLink(Init(edges)[i], u, targets[p]) && !HasLink(Init(edges)[..i + 1], u, targets[q]);
      assert Init(edges)[..i + 1] == edges[..i + 1] && edges[i] == Init(edges)[i];
    }
  }

  lemma LinkedFirst(edges: seq<GraphEdge>, u: string, v: string, w: string)
    requires edges != [] && HasLink(Init(edges), u, v) && !HasLink(Init(edges), u, w)
    ensures LinkedBefore(edges, u, v, w)
  {
    var i: nat :| i < |Init(edges)| && IsLink(Init(edges)[i], u, v);
    assert edges[i] == Init(edges)[i];
    LinkOfPart(Init(edges), i + 1, u, w);
    assert edges[..i + 1] == Init(edges)[..i + 1];
  }

  lemma {:induction false} EdgesFromOrder(nodes: seq<GraphNode>, edges: seq<GraphEdge>, u: string, targets: seq<string>)
    requires Linked(edges, u, targets)
    ensures InOrder(nodes, edges, EdgesFrom(edges, u, targets))
  {
    if targets != [] {
      var init, v := Init(targets), Last(targets);
      EdgesFromOrder(nodes, edges, u, init);
      KeyedOrder(nodes, edges, u, v, Parallel(edges, u, v));
      forall x, y | x in EdgesFrom(edges, u, init) && y in Keyed(u, v, Parallel(edges, u, v)) ensures Before(nodes, edges, x, y) {
        EdgesFromAre(edges, u, init, x);
        KeyedAre(u, v, Parallel(edges, u, v), y);
        var p :| 0 <= p < |init| && init[p] == x.target;
        assert LinkedBefore(edges, u, targets[p], targets[|targets| - 1]);
      }
      hide Before, Keyed, Parallel;
      OrderConcat(nodes, edges, EdgesFrom(edges, u, init), Keyed(u, v, Parallel(edges, u, v)));
    }
  }

  /** The order in which the edges are written. */
  lemma {:induction false} WrittenOrder(nodes: seq<GraphNode>, edges: seq<GraphEdge>)
    ensures InOrder(nodes, edges, JsonEdges(nodes, edges))
  {
    if nodes != [] {
      var init, u := Init(nodes), Last(nodes).id;
      var earlier, last := JsonEdges(init, edges), EdgesFrom(edges, u, Successors(edges, u));
      WrittenOrder(init, edges);
      OrderStays(nodes, edges, earlier);
      SuccessorsOrder(edges, u);
      EdgesFromOrder(nodes, edges, u, Successors(edges, u));
      forall x, y | x in earlier && y in last ensures Before(nodes, edges, x, y) {
        WrittenEdges(init, edges, x);
        EdgesFromAre(edges, u, Successors(edges, u), y);
        var i :| 0 <= i < |init| && init[i].id == x.source;
        assert nodes[i].id == x.source && nodes[|nodes| - 1].id == y.source;
      }
      hide Before, EdgesFrom, Successors;
      OrderConcat(nodes, edges, earlier, last);
    }
  }

  lemma OrderStays(nodes: seq<GraphNode>, edges: seq<GraphEdge>, out: seq<JsonEdge>)
    requires nodes != [] && InOrder(Init(nodes), edges, out)
    ensures InOrder(nodes, edges, out)
  {
    hide LinkedBefore;
    forall k, l | 0 <= k < l < |out| ensures Before(nodes, edges, out[k], out[l]) {
      assert Before(Init(nodes), edges, out[k], out[l]);
      if NodeBefore(Init(nodes), out[k].source, out[l].source) {
        var i, j :| 0 <= i < j < |Init(nodes)| && Init(nodes)[i].id == out[k].source && Init(nodes)[j].id == out[l].source;
        assert nodes[i].id == out[k].source && nodes[j].id == out[l].source;
      }
    }
  }

  /** With distinct node ids no edge is written twice. */
  lemma WrittenOnce(nodes: seq<GraphNode>, edges: seq<GraphEdge>)
    requires DistinctIds(nodes)
    ensures var out := JsonEdges(nodes, edges); forall k, l :: 0 <= k < l < |out| ==> out[k] != out[l]
  {
    WrittenOrder(nodes, edges);
    var out := JsonEdges(nodes, edges);
    forall k, l | 0 <= k < l < |out| ensures out[k] != out[l] {
      assert Before(nodes, edges, out[k], out[l]);
      NotBeforeItself(nodes, edges, out[k]);
    }
  }

  lemma NotBeforeItself(nodes: seq<GraphNode>, edges: seq<GraphEdge>, e: JsonEdge)
    requires DistinctIds(nodes)
    ensures !Before(nodes, edges, e, e)
  {
    hide HasLink, IsLink;
    forall i: nat | i < |edges| && IsLink(edges[i], e.source, e.target) ensures HasLink(edges[..i + 1], e.source, e.target) {
      LinkIsHere(edges, i, e.source, e.target);
    }
  }

  // ---- when node ids are unambiguous ----

  predicate DotFree(s: string) { '.' !in s }

  /** A dot-free first part makes `x.y` readable one way only. */
  lemma SplitAtDot(x: string, y: string, x': string, y': string)
    requires x + "." + y == x' + "." + y' && DotFree(x) && DotFree(x')
    ensures x == x' && y == y'
  {
    var s := x + "." + y;
    assert s[|x|] == '.' && s[|x'|] == '.';
    assert forall i :: 0 <= i < |x| ==> s[i] == x[i];
    assert forall i :: 0 <= i < |x'| ==> s[i] == x'[i];
    if |x| != |x'| {
      assert false;
    }
    assert x == s[..|x|] && x' == s[..|x'|] && y == s[|x| + 1..] && y' == s[|x'| + 1..];
  }

  lemma TableIdsDiffer(s: string, t: string, s': string, t': string)
    requires DotFree(s) && DotFree(s') && TableId(s, t) == TableId(s', t')
    ensures s == s' && t == t'
  {
    assert TableId(s, t)[6..] == s + "." + t && TableId(s', t')[6..] == s' + "." + t';
    SplitAtDot(s, t, s', t');
  }

  lemma ColumnIdsDiffer(s: string, t: string, k: string, s': string, t': string, k': string)
    requires DotFree(s) && DotFree(s') && DotFree(t) && DotFree(t') && ColumnId(s, t, k) == ColumnId(s', t', k')
    ensures s == s' && t == t' && k == k'
  {
    assert ColumnId(s, t, k)[7..] == s + "." + (t + "." + k) && ColumnId(s', t', k')[7..] == s' + "." + (t' + "." + k');
    SplitAtDot(s, t + "." + k, s', t' + "." + k');
    SplitAtDot(t, k, t', k');
  }

  lemma RoutineIdsDiffer(kind: RoutineKind, s: string, n: string, kind': RoutineKind, s': string, n': string)
    requires DotFree(s) && DotFree(s') && RoutineId(kind, s, n) == RoutineId(kind', s', n')
    ensures kind == kind' && s == s' && n == n'
  {
    assert RoutineId(kind, s, n)[0] == if kind == Procedure then 'p' else 'f';
    assert RoutineId(kind', s', n')[0] == if kind' == Procedure then 'p' else 'f';
    var k := if kind == Procedure then 10 else 9;
    assert RoutineId(kind, s, n)[k..] == s + "." + n && RoutineId(kind', s', n')[k..] == s' + "." + n';
    SplitAtDot(s, n, s', n');
  }

  /** Names a caller can check: no dots before the last part, and no two rows of a kind under one name. */
  ghost predicate PlainNames(c: Rows) {
    && (forall t :: t in c.tables ==> DotFree(t.schema))
    && (forall i, j :: 0 <= i < j < |c.tables| ==>
          c.tables[i].schema != c.tables[j].schema || c.tables[i].name != c.tables[j].name)
    && (forall k :: k in c.columns ==> DotFree(k.schema) && DotFree(k.table))
    && (forall i, j :: 0 <= i < j < |c.columns| ==> KeyOf(c.columns[i]) != KeyOf(c.columns[j]))
    && (forall r :: r in c.routines ==> DotFree(r.schema))
    && (forall i, j :: 0 <= i < j < |c.routines| ==> !SameRoutine(c.routines[i], c.routines[j]))
  }

  predicate SameRoutine(r: RoutineRow, q: RoutineRow) {
    KindOf(r.code).Some? && KindOf(r.code) == KindOf(q.code) && r.schema == q.schema && r.name == q.name
  }

  lemma RoutineNodeRow(routines: seq<RoutineRow>, k: nat) returns (i: nat)
    requires k < |RoutineNodes(routines, false)|
    ensures i < |routines| && KindOf(routines[i].code).Some?
    ensures RoutineNodes(routines, false)[k] == RoutineNode(routines[i], KindOf(routines[i].code).value, false)
  {
    if k < |RoutineNodes(Init(routines), false)| {
      i := RoutineNodeRow(Init(routines), k);
    } else {
      i := |routines| - 1;
    }
  }

  lemma {:induction false} RoutinesDistinct(routines: seq<RoutineRow>)
    requires forall r :: r in routines ==> DotFree(r.schema)
    requires forall i, j :: 0 <= i < j < |routines| ==> !SameRoutine(routines[i], routines[j])
    ensures DistinctIds(RoutineNodes(routines, false))
  {
    if routines != [] {
      var init, last, nodes := Init(routines), Last(routines), RoutineNodes(Init(routines), false);
      forall r | r in init ensures DotFree(r.schema) { assert r in routines; }
      RoutinesDistinct(init);
      if KindOf(last.code).Some? {
        var kind := KindOf(last.code).value;
        forall k | 0 <= k < |nodes| ensures nodes[k].id != RoutineId(kind, last.schema, last.name) {
          var i := RoutineNodeRow(init, k);
          var r := init[i];
          assert r == routines[i] && last == routines[|routines| - 1] && r in routines && last in routines;
          if nodes[k].id == RoutineId(kind, last.schema, last.name) {
            RoutineIdsDiffer(KindOf(r.code).value, r.schema, r.name, kind, last.schema, last.name);
            assert SameRoutine(routines[i], routines[|routines| - 1]);
            assert false;
          }
        }
      }
    }
  }

  lemma {:induction false} TableNodeCount(tables: seq<TableRow>)
    ensures |TableNodes(tables)| == |tables|
  {
    if tables != [] {
      TableNodeCount(Init(tables));
    }
  }

  lemma SchemaDistinct(c: Rows)
    requires PlainNames(c)
    ensures DistinctIds(SchemaNodes(c))
  {
    var nodes, m := SchemaNodes(c), |TableNodes(c.tables)|;
    TableNodeCount(c.tables);
    if c.columns != [] {
      ColumnNodeAt(c.columns, c.primaryKeys, c.foreignKeys, 0);
    }
    forall i, j | 0 <= i < j < |nodes| ensures nodes[i].id != nodes[j].id {
      if j < m {
        TableNodeAt(c.tables, i);
        TableNodeAt(c.tables, j);
        var t, t' := c.tables[i], c.tables[j];
        assert t in c.tables && t' in c.tables;
        if nodes[i].id == nodes[j].id { TableIdsDiffer(t.schema, t.name, t'.schema, t'.name); }
      } else {
        ColumnNodeAt(c.columns, c.primaryKeys, c.foreignKeys, j - m);
        var k' := c.columns[j - m];
        if i < m {
          TableNodeAt(c.tables, i);
          assert nodes[i].id[0] == 't' && nodes[j].id[0] == 'c';
        } else {
          ColumnNodeAt(c.columns, c.primaryKeys, c.foreignKeys, i - m);
          var k := c.columns[i - m];
          assert k in c.columns && k' in c.columns;
          if nodes[i].id == nodes[j].id { ColumnIdsDiffer(k.schema, k.table, k.column, k'.schema, k'.table, k'.column); }
        }
      }
    }
  }

  /** Plain names make every node id name one object. */
  lemma PlainNamesAreDistinct(c: Rows)
    requires PlainNames(c)
    ensures DistinctIds(Nodes(c, false))
  {
    var schema, routines, nodes := SchemaNodes(c), RoutineNodes(c.routines, false), Nodes(c, false);
    SchemaDistinct(c);
    RoutinesDistinct(c.routines);
    RoutineNodeIds(c.routines, false);
    forall i, j | 0 <= i < j < |nodes| ensures nodes[i].id != nodes[j].id {
      if j < |schema| {
        assert nodes[i] == schema[i] && nodes[j] == schema[j];
      } else if i < |schema| {
        SchemaIdHead(c, i);
        assert nodes[j] == routines[j - |schema|] && nodes[j] in routines;
      } else {
        assert nodes[i] == routines[i - |schema|] && nodes[j] == routines[j - |schema|];
      }
    }
  }

  lemma SchemaIdHead(c: Rows, i: nat)
    requires i < |SchemaNodes(c)|
    ensures |SchemaNodes(c)[i].id| > 0 && SchemaNodes(c)[i].id[0] in {'t', 'c'}
  {
    var m := |TableNodes(c.tables)|;
    if i < m {
      TableNodeAt(c.tables, i);
    } else {
      if c.columns != [] { ColumnNodeAt(c.columns, c.primaryKeys, c.foreignKeys, 0); }
      ColumnNodeAt(c.columns, c.primaryKeys, c.foreignKeys, i - m);
    }
  }
}
