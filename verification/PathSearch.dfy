/**
 Bounded path search (graph_find_path in mcp/shared_graph_tools.py): a queue of partial simple paths, popped in
 order, until the queue is empty or ten paths are found.
 */
module PathSearch {
  import opened Basics

  type Node = string

  datatype Edge = Edge(source: Node, target: Node, relationship: string)

  /** A queue entry: the node reached, the nodes of the path to it and the relationships of its edges. */
  datatype Entry = Entry(node: Node, path: seq<Node>, rels: seq<string>)

  datatype Hop = Hop(neighbor: Node, rel: string)

  const MAX_PATHS: nat := 10

  /** The adjacency list of `node`: its hops in edge order; undirected search also hops each edge backwards. */
  function Adjacent(edges: seq<Edge>, directed: bool, node: Node): seq<Hop> {
    if edges == [] then []
    else
      var edge, sofar := edges[|edges| - 1], Adjacent(edges[..|edges| - 1], directed, node);
      var forth := if edge.source == node then sofar + [Hop(edge.target, edge.relationship)] else sofar;
      if !directed && edge.target == node then forth + [Hop(edge.source, edge.relationship)] else forth
  }

  /** The adjacency table as the program builds it, edge by edge. */
  method BuildAdjacency(edges: seq<Edge>, directed: bool) returns (adj: map<Node, seq<Hop>>)
    ensures forall node :: (if node in adj then adj[node] else []) == Adjacent(edges, directed, node)
  {
    adj := map[];
    for i := 0 to |edges|
      invariant forall node :: (if node in adj then adj[node] else []) == Adjacent(edges[..i], directed, node)
    {
      assert edges[..i + 1][..i] == edges[..i];
      var src, tgt, rel := edges[i].source, edges[i].target, edges[i].relationship;
      adj := adj[src := (if src in adj then adj[src] else []) + [Hop(tgt, rel)]];
      if !directed {
        adj := adj[tgt := (if tgt in adj then adj[tgt] else []) + [Hop(src, rel)]];
      }
    }
    assert edges[..|edges|] == edges;
  }

  datatype Query = Query(edges: seq<Edge>, source: Node, target: Node, maxDepth: int, directed: bool)

  function Start(q: Query): Entry {
    Entry(q.source, [q.source], [])
  }

  function Extend(e: Entry, hop: Hop): Entry {
    Entry(hop.neighbor, e.path + [hop.neighbor], e.rels + [hop.rel])
  }

  /** The extensions of `e` by hops that do not revisit its path. */
  function Pushed(e: Entry, hops: seq<Hop>): seq<Entry> {
    if hops == [] then []
    else
      var hop, sofar := hops[|hops| - 1], Pushed(e, hops[..|hops| - 1]);
      if hop.neighbor in e.path then sofar else sofar + [Extend(e, hop)]
  }

  /** What popping `e` pushes: nothing past the depth bound or at the target. */
  function Children(q: Query, e: Entry): seq<Entry> {
    if |e.path| - 1 > q.maxDepth || e.node == q.target then []
    else Pushed(e, Adjacent(q.edges, q.directed, e.node))
  }

  predicate Found(q: Query, e: Entry) {
    |e.path| - 1 <= q.maxDepth && e.node == q.target
  }

  // ---- the level-by-level reference ----

  function ChildrenOf(q: Query, entries: seq<Entry>): seq<Entry> {
    if entries == [] then []
    else ChildrenOf(q, entries[..|entries| - 1]) + Children(q, entries[|entries| - 1])
  }

  function FoundIn(q: Query, entries: seq<Entry>): seq<Entry> {
    if entries == [] then []
    else
      var e, sofar := entries[|entries| - 1], FoundIn(q, entries[..|entries| - 1]);
      if Found(q, e) then sofar + [e] else sofar
  }

  /** The entries with k edges, in the order they are queued. */
  function Level(q: Query, k: nat): seq<Entry> {
    if k == 0 then [Start(q)] else ChildrenOf(q, Level(q, k - 1))
  }

  /** The answers with fewer than k edges, in the order they are popped. */
  function FoundBelow(q: Query, k: nat): seq<Entry> {
    if k == 0 then [] else FoundBelow(q, k - 1) + FoundIn(q, Level(q, k - 1))
  }

  function Depth(q: Query): nat {
    Max(q.maxDepth + 1, 0)
  }

  function AllFound(q: Query): seq<Entry> {
    FoundBelow(q, Depth(q))
  }

  function Take<T>(s: seq<T>, n: nat): seq<T> {
    if |s| <= n then s else s[..n]
  }

  /** A chain of edges from the source that repeats no node. */
  ghost predicate IsSimplePath(q: Query, e: Entry) {
    && |e.path| == |e.rels| + 1
    && e.path[0] == q.source && e.path[|e.rels|] == e.node
    && (forall i, j :: 0 <= i < j < |e.path| ==> e.path[i] != e.path[j])
    && forall i :: 0 <= i < |e.rels| ==> IsHop(q, e.path[i], e.path[i + 1], e.rels[i])
  }

  ghost predicate IsHop(q: Query, from: Node, to: Node, rel: string) {
    || Edge(from, to, rel) in q.edges
    || (!q.directed && Edge(to, from, rel) in q.edges)
  }

  /** What the search is for. */
  ghost predicate IsAnswer(q: Query, e: Entry) {
    IsSimplePath(q, e) && e.node == q.target && |e.rels| <= q.maxDepth
  }

  // ---- the search ----

  method Push(queue: seq<Entry>, e: Entry, hops: seq<Hop>) returns (longer: seq<Entry>)
    ensures longer == queue + Pushed(e, hops)
  {
    longer := queue;
    for j := 0 to |hops|
      invariant longer == queue + Pushed(e, hops[..j])
    {
      assert hops[..j + 1][..j] == hops[..j];
      if hops[j].neighbor !in e.path {
        longer := longer + [Extend(e, hops[j])];
      }
    }
    assert hops[..|hops|] == hops;
  }

  /** The search returns the first ten answers of the level-by-level order. */
  method FindPaths(q: Query) returns (paths: seq<Entry>)
    ensures paths == Take(AllFound(q), MAX_PATHS)
  {
    var adj := BuildAdjacency(q.edges, q.directed);
    var queue := [Start(q)];
    paths := [];
    ghost var k, i := 0, 0;
    SearchStarts(q);
    hide Adjacent, Pushed, ChildrenOf, FoundIn, Level, FoundBelow, AllFound;
    while queue != [] && |paths| < MAX_PATHS
      invariant 0 <= i <= |Level(q, k)|
      invariant queue == Level(q, k)[i..] + ChildrenOf(q, Level(q, k)[..i])
      invariant paths == FoundBelow(q, k) + FoundIn(q, Level(q, k)[..i]) && |paths| <= MAX_PATHS
      decreases Max(q.maxDepth + 2 - k, 0), |Level(q, k)| - i
    {
      if i == |Level(q, k)| {
        NextLevel(q, k, queue);
        k, i := k + 1, 0;
      }
      var e := queue[0];
      NextEntry(q, k, i, queue);
      queue := queue[1..];
      i := i + 1;
      if |e.path| - 1 > q.maxDepth {
        continue;
      }
      if e.node == q.target {
        paths := paths + [e];
        continue;
      }
      queue := Push(queue, e, if e.node in adj then adj[e.node] else []);
    }
    SearchEnds(q, k, i, queue, paths);
  }

  lemma SearchStarts(q: Query)
    ensures [Start(q)] == Level(q, 0)[0..] + ChildrenOf(q, Level(q, 0)[..0])
    ensures FoundBelow(q, 0) + FoundIn(q, Level(q, 0)[..0]) == []
  {
  }

  /** With the whole level popped, the queue is the next level. */
  lemma NextLevel(q: Query, k: nat, queue: seq<Entry>)
    requires queue != [] && queue == Level(q, k)[|Level(q, k)|..] + ChildrenOf(q, Level(q, k)[..|Level(q, k)|])
    ensures queue == Level(q, k + 1) && k < Max(q.maxDepth + 2, 0)
    ensures queue == Level(q, k + 1)[0..] + ChildrenOf(q, Level(q, k + 1)[..0])
    ensures FoundBelow(q, k + 1) + FoundIn(q, Level(q, k + 1)[..0]) == FoundBelow(q, k) + FoundIn(q, Level(q, k)[..|Level(q, k)|])
  {
    WholeLevel(Level(q, k), ChildrenOf(q, Level(q, k)));
    LevelIs(q, k);
    LevelFollows(q, k);
    FoundFollows(q, k);
    hide Level, ChildrenOf, FoundIn, FoundBelow;
    LevelsEnd(q, k + 1);
  }

  lemma WholeLevel(level: seq<Entry>, rest: seq<Entry>)
    ensures level[..|level|] == level && level[|level|..] + rest == rest
  {
  }

  lemma FoundFollows(q: Query, k: nat)
    ensures FoundBelow(q, k + 1) == FoundBelow(q, k) + FoundIn(q, Level(q, k))
  {
  }

  lemma LevelIs(q: Query, k: nat)
    ensures Level(q, k + 1) == ChildrenOf(q, Level(q, k))
  {
  }

  lemma LevelFollows(q: Query, k: nat)
    ensures Level(q, k + 1)[0..] + ChildrenOf(q, Level(q, k + 1)[..0]) == Level(q, k + 1)
    ensures FoundBelow(q, k + 1) + FoundIn(q, Level(q, k + 1)[..0]) == FoundBelow(q, k + 1)
  {
    hide Children;
  }

  /** Popping one entry of the level. */
  lemma NextEntry(q: Query, k: nat, i: nat, queue: seq<Entry>)
    requires i < |Level(q, k)| && queue == Level(q, k)[i..] + ChildrenOf(q, Level(q, k)[..i])
    ensures queue[0] == Level(q, k)[i]
    ensures queue[1..] + Children(q, queue[0]) == Level(q, k)[i + 1..] + ChildrenOf(q, Level(q, k)[..i + 1])
    ensures FoundIn(q, Level(q, k)[..i + 1]) == FoundIn(q, Level(q, k)[..i]) + if Found(q, queue[0]) then [queue[0]] else []
  {
    hide *;
    OneMoreOf(q, Level(q, k), i);
    Popped(Level(q, k), i, ChildrenOf(q, Level(q, k)[..i]), Children(q, queue[0]));
  }

  lemma OneMoreOf(q: Query, entries: seq<Entry>, i: nat)
    requires i < |entries|
    ensures ChildrenOf(q, entries[..i + 1]) == ChildrenOf(q, entries[..i]) + Children(q, entries[i])
    ensures FoundIn(q, entries[..i + 1]) == FoundIn(q, entries[..i]) + if Found(q, entries[i]) then [entries[i]] else []
  {
    hide Children, Found;
    assert entries[..i + 1][..i] == entries[..i];
    NothingAdded(FoundIn(q, entries[..i]));
  }

  lemma Popped(level: seq<Entry>, i: nat, queued: seq<Entry>, more: seq<Entry>)
    requires i < |level|
    ensures (level[i..] + queued)[0] == level[i]
    ensures (level[i..] + queued)[1..] + more == level[i + 1..] + (queued + more)
  {
  }

  // ---- the search ends, and where ----

  lemma {:induction false} PushedSizes(e: Entry, hops: seq<Hop>)
    ensures forall c :: c in Pushed(e, hops) ==> |c.path| == |e.path| + 1
  {
    if hops != [] {
      PushedSizes(e, hops[..|hops| - 1]);
    }
  }

  lemma {:induction false} ChildrenSizes(q: Query, entries: seq<Entry>, size: nat)
    requires forall e :: e in entries ==> |e.path| == size
    ensures forall c :: c in ChildrenOf(q, entries) ==> |c.path| == size + 1
    ensures size - 1 > q.maxDepth ==> ChildrenOf(q, entries) == []
  {
    if entries != [] {
      var e := entries[|entries| - 1];
      ChildrenSizes(q, entries[..|entries| - 1], size);
      PushedSizes(e, Adjacent(q.edges, q.directed, e.node));
    }
  }

  lemma {:induction false} LevelSizes(q: Query, k: nat)
    ensures forall e :: e in Level(q, k) ==> |e.path| == k + 1
  {
    if k > 0 {
      LevelSizes(q, k - 1);
      ChildrenSizes(q, Level(q, k - 1), k);
    }
  }

  /** Levels stop one past the depth bound. */
  lemma LevelsEnd(q: Query, k: nat)
    requires Level(q, k) != []
    ensures k <= Max(q.maxDepth + 1, 0)
  {
    if k > 0 {
      LevelSizes(q, k - 1);
      ChildrenSizes(q, Level(q, k - 1), k);
    }
  }

  lemma {:induction false} NothingFoundDeep(q: Query, entries: seq<Entry>)
    requires forall e :: e in entries ==> |e.path| - 1 > q.maxDepth
    ensures FoundIn(q, entries) == []
  {
    if entries != [] {
      NothingFoundDeep(q, entries[..|entries| - 1]);
    }
  }

  lemma {:induction false} FoundInPrefix(q: Query, entries: seq<Entry>, i: nat) returns (rest: seq<Entry>)
    requires i <= |entries|
    ensures FoundIn(q, entries) == FoundIn(q, entries[..i]) + rest
  {
    if i < |entries| {
      var init := entries[..|entries| - 1];
      var more := FoundInPrefix(q, init, i);
      assert init[..i] == entries[..i];
      rest := FoundIn(q, entries)[|FoundIn(q, entries[..i])|..];
    } else {
      assert entries[..i] == entries;
      rest := [];
    }
  }

  /** From `j` on nothing more is found: the level is empty, or past the depth bound. */
  ghost predicate Settled(q: Query, j: nat) {
    j >= Max(q.maxDepth + 1, 0) || Level(q, j) == []
  }

  lemma {:induction false} FoundBelowSettles(q: Query, j: nat, k: nat)
    requires j <= k && Settled(q, j)
    ensures FoundBelow(q, k) == FoundBelow(q, j) && Settled(q, k)
    decreases k
  {
    if j < k {
      FoundBelowSettles(q, j, k - 1);
      SettledLevel(q, k - 1);
      hide FoundBelow, FoundIn, Level;
    }
  }

  lemma SettledLevel(q: Query, k: nat)
    requires Settled(q, k)
    ensures FoundBelow(q, k + 1) == FoundBelow(q, k) && Settled(q, k + 1)
  {
    LevelSizes(q, k);
    if k >= Max(q.maxDepth + 1, 0) {
      NothingFoundDeep(q, Level(q, k));
    }
    assert FoundIn(q, Level(q, k)) == [];
    hide FoundIn;
  }

  lemma {:induction false} FoundBelowPrefix(q: Query, j: nat, k: nat)
    requires j < k
    ensures Extends(FoundBelow(q, k), FoundBelow(q, j))
    decreases k
  {
    hide FoundBelow, Extends;
    ExtendsByLevel(q, k - 1);
    if j < k - 1 {
      FoundBelowPrefix(q, j, k - 1);
      ExtendsTransitive(FoundBelow(q, k), FoundBelow(q, k - 1), FoundBelow(q, j));
    }
  }

  ghost predicate Extends(longer: seq<Entry>, shorter: seq<Entry>) {
    |shorter| <= |longer| && forall i :: 0 <= i < |shorter| ==> longer[i] == shorter[i]
  }

  lemma ExtendsByLevel(q: Query, k: nat)
    ensures Extends(FoundBelow(q, k + 1), FoundBelow(q, k))
  {
  }

  lemma ExtendsTransitive(a: seq<Entry>, b: seq<Entry>, c: seq<Entry>)
    requires Extends(a, b) && Extends(b, c)
    ensures Extends(a, c)
  {
  }

  lemma SearchEnds(q: Query, k: nat, i: nat, queue: seq<Entry>, paths: seq<Entry>)
    requires i <= |Level(q, k)| && |paths| <= MAX_PATHS
    requires queue == Level(q, k)[i..] + ChildrenOf(q, Level(q, k)[..i])
    requires paths == FoundBelow(q, k) + FoundIn(q, Level(q, k)[..i])
    requires queue == [] || |paths| == MAX_PATHS
    ensures paths == Take(AllFound(q), MAX_PATHS)
  {
    hide ChildrenOf, FoundIn;
    var end := Max(q.maxDepth + 1, 0);
    var level := Level(q, k);
    var rest := FoundInPrefix(q, level, i);
    assert FoundBelow(q, k + 1) == FoundBelow(q, k) + FoundIn(q, level);
    hide FoundBelow;
    assert FoundBelow(q, k + 1) == paths + rest;
    if queue == [] {
      assert level[..i] == level && Level(q, k + 1) == [];
      hide Level;
      FoundBelowSettles(q, k + 1, Max(end, k + 1));
      FoundBelowSettles(q, end, Max(end, k + 1));
      assert AllFound(q) == paths;
    } else if k + 1 < end {
      FoundBelowPrefix(q, k + 1, end);
      assert Extends(AllFound(q), paths);
    } else {
      FoundBelowSettles(q, end, k + 1);
      assert AllFound(q) == paths + rest;
    }
  }

  // ---- the reference order holds exactly the answers, shortest first ----

  lemma {:induction false} AdjacentExact(edges: seq<Edge>, directed: bool, node: Node, hop: Hop)
    ensures hop in Adjacent(edges, directed, node) <==>
            || Edge(node, hop.neighbor, hop.rel) in edges
            || (!directed && Edge(hop.neighbor, node, hop.rel) in edges)
  {
    if edges != [] {
      var init, last := edges[..|edges| - 1], edges[|edges| - 1];
      assert edges == init + [last];
      AdjacentExact(init, directed, node, hop);
    }
  }

  lemma {:induction false} PushedExact(e: Entry, hops: seq<Hop>, c: Entry)
    ensures c in Pushed(e, hops) <==> exists hop :: hop in hops && hop.neighbor !in e.path && c == Extend(e, hop)
  {
    if hops != [] {
      var init, last := hops[..|hops| - 1], hops[|hops| - 1];
      assert hops == init + [last];
      PushedExact(e, init, c);
    }
  }

  lemma {:induction false} ChildrenExact(q: Query, entries: seq<Entry>, c: Entry)
    ensures c in ChildrenOf(q, entries) <==> exists e :: e in entries && c in Children(q, e)
  {
    if entries != [] {
      var init, last := entries[..|entries| - 1], entries[|entries| - 1];
      assert entries == init + [last];
      ChildrenExact(q, init, c);
    }
  }

  /** The entry one edge shorter. */
  function Parent(e: Entry): Entry
    requires |e.path| >= 2 && |e.rels| >= 1
  {
    Entry(e.path[|e.path| - 2], e.path[..|e.path| - 1], e.rels[..|e.rels| - 1])
  }

  /** What level k holds: the simple paths with k edges that were not stopped by the target or the bound on the way. */
  ghost predicate Queued(q: Query, e: Entry, k: nat) {
    && IsSimplePath(q, e) && |e.rels| == k
    && (forall i :: 0 <= i < k ==> e.path[i] != q.target)
    && (k > 0 ==> k - 1 <= q.maxDepth)
  }

  lemma {:induction false} LevelExact(q: Query, k: nat, e: Entry)
    ensures e in Level(q, k) <==> Queued(q, e, k)
  {
    hide *;
    if k == 0 {
      StartIsQueued(q, e);
    } else {
      ChildrenExact(q, Level(q, k - 1), e);
      LevelIs(q, k - 1);
      if e in Level(q, k) {
        var p :| p in Level(q, k - 1) && e in Children(q, p);
        LevelExact(q, k - 1, p);
        ChildIsQueued(q, p, e, k);
      }
      if Queued(q, e, k) {
        QueuedSizes(q, e, k);
        LevelExact(q, k - 1, Parent(e));
        QueuedIsChild(q, e, k);
      }
    }
  }

  lemma StartIsQueued(q: Query, e: Entry)
    ensures e in Level(q, 0) <==> Queued(q, e, 0)
  {
    if Queued(q, e, 0) {
      assert e.path == [q.source] && e.rels == [];
    }
  }

  lemma QueuedSizes(q: Query, e: Entry, k: nat)
    requires Queued(q, e, k)
    ensures |e.rels| == k && |e.path| == k + 1
  {
  }

  lemma ChildIsQueued(q: Query, p: Entry, e: Entry, k: nat)
    requires k > 0 && Queued(q, p, k - 1) && e in Children(q, p)
    ensures Queued(q, e, k)
  {
    var hops := Adjacent(q.edges, q.directed, p.node);
    PushedExact(p, hops, e);
    var hop :| hop in hops && hop.neighbor !in p.path && e == Extend(p, hop);
    AdjacentExact(q.edges, q.directed, p.node, hop);
    forall i | 0 <= i < |e.rels| ensures IsHop(q, e.path[i], e.path[i + 1], e.rels[i]) {
      if i < |p.rels| { assert IsHop(q, p.path[i], p.path[i + 1], p.rels[i]); }
    }
  }

  lemma QueuedIsChild(q: Query, e: Entry, k: nat)
    requires k > 0 && Queued(q, e, k)
    ensures Queued(q, Parent(e), k - 1) && e in Children(q, Parent(e))
  {
    hide Adjacent, Pushed;
    var p, hop := Parent(e), Hop(e.node, e.rels[k - 1]);
    forall i | 0 <= i < |p.rels| ensures IsHop(q, p.path[i], p.path[i + 1], p.rels[i]) {
      assert IsHop(q, e.path[i], e.path[i + 1], e.rels[i]);
    }
    assert IsHop(q, e.path[k - 1], e.path[k], e.rels[k - 1]);
    AdjacentExact(q.edges, q.directed, p.node, hop);
    PushedExact(p, Adjacent(q.edges, q.directed, p.node), e);
    assert e.path == p.path + [e.node] && e.rels == p.rels + [hop.rel];
    assert e == Extend(p, hop);
  }

  lemma {:induction false} FoundInExact(q: Query, entries: seq<Entry>, e: Entry)
    ensures e in FoundIn(q, entries) <==> e in entries && Found(q, e)
  {
    if entries != [] {
      var init, last := entries[..|entries| - 1], entries[|entries| - 1];
      assert entries == init + [last];
      FoundInExact(q, init, e);
    }
  }

  lemma {:induction false} FoundBelowExact(q: Query, k: nat, e: Entry)
    ensures e in FoundBelow(q, k) <==> IsAnswer(q, e) && |e.rels| < k
  {
    hide *;
    if k == 0 {
      NoneBelow(q);
    } else {
      FoundBelowExact(q, k - 1, e);
      FoundAt(q, k - 1, e);
      FoundFollows(q, k - 1);
      InBoth(FoundBelow(q, k - 1), FoundIn(q, Level(q, k - 1)), e);
    }
  }

  lemma NoneBelow(q: Query)
    ensures FoundBelow(q, 0) == []
  {
  }

  /** The answers of one level. */
  lemma FoundAt(q: Query, k: nat, e: Entry)
    ensures e in FoundIn(q, Level(q, k)) <==> IsAnswer(q, e) && |e.rels| == k
  {
    hide Level, FoundIn, IsHop;
    FoundInExact(q, Level(q, k), e);
    LevelExact(q, k, e);
  }

  lemma InBoth(a: seq<Entry>, b: seq<Entry>, e: Entry)
    ensures e in a + b <==> e in a || e in b
  {
  }

  lemma {:induction false} FoundBelowSorted(q: Query, k: nat)
    ensures forall i, j :: 0 <= i < j < |FoundBelow(q, k)| ==> |FoundBelow(q, k)[i].rels| <= |FoundBelow(q, k)[j].rels|
  {
    hide *;
    if k == 0 {
      NoneBelow(q);
    } else {
      FoundBelowSorted(q, k - 1);
      var a, b := FoundBelow(q, k - 1), FoundIn(q, Level(q, k - 1));
      forall i | 0 <= i < |a| ensures |a[i].rels| < k {
        FoundBelowExact(q, k - 1, a[i]);
      }
      forall i | 0 <= i < |b| ensures |b[i].rels| == k - 1 {
        FoundAt(q, k - 1, b[i]);
      }
      FoundFollows(q, k - 1);
    }
  }

  /** Sound, complete and shortest first, about whatever the search returns. */
  lemma SearchIsExact(q: Query, paths: seq<Entry>)
    requires paths == Take(AllFound(q), MAX_PATHS)
    ensures forall e :: e in paths ==> IsAnswer(q, e)
    ensures forall i, j :: 0 <= i < j < |paths| ==> |paths[i].rels| <= |paths[j].rels|
    ensures forall e, p :: IsAnswer(q, e) && e !in paths && p in paths ==> |p.rels| <= |e.rels|
    ensures |paths| < MAX_PATHS ==> forall e :: IsAnswer(q, e) ==> e in paths
  {
    hide *;
    var all := AllFound(q);
    FoundBelowSorted(q, Depth(q));
    AllIsBelow(q);
    TakeIs(all, MAX_PATHS);
    forall e ensures e in all <==> IsAnswer(q, e) {
      AllFoundExact(q, e);
    }
    forall e, p | IsAnswer(q, e) && e !in paths && p in paths ensures |p.rels| <= |e.rels| {
      var i :| 0 <= i < |all| && all[i] == e;
      var j :| 0 <= j < |paths| && paths[j] == p;
    }
  }

  lemma AllFoundExact(q: Query, e: Entry)
    ensures e in AllFound(q) <==> IsAnswer(q, e)
  {
    hide FoundBelow, IsSimplePath;
    FoundBelowExact(q, Depth(q), e);
  }

  lemma AllIsBelow(q: Query)
    ensures AllFound(q) == FoundBelow(q, Depth(q))
  {
  }

  lemma TakeIs<T>(s: seq<T>, n: nat)
    ensures |Take(s, n)| <= |s| && forall i :: 0 <= i < |Take(s, n)| ==> Take(s, n)[i] == s[i]
    ensures if |s| <= n then Take(s, n) == s else |Take(s, n)| == n
  {
  }
}
