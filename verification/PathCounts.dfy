/**
 How often and in what order the path search returns an answer: once for every way of choosing one of several parallel
 edges at each hop, and among answers of one length in the order of the edge list.
 */
module PathCounts {
  import opened Basics
  import opened PathSearch

  /** The edges a hop can be made over. */
  function HopCount(q: Query, from: Node, to: Node, rel: string): nat {
    Count(q.edges, Edge(from, to, rel)) + if q.directed then 0 else Count(q.edges, Edge(to, from, rel))
  }

  /** The product, over the hops of a path, of the edges each can be made over. */
  function Ways(q: Query, e: Entry): nat
    requires |e.path| == |e.rels| + 1
    decreases |e.rels|
  {
    if e.rels == [] then 1
    else Ways(q, Parent(e)) * HopCount(q, e.path[|e.rels| - 1], e.path[|e.rels|], e.rels[|e.rels| - 1])
  }

  lemma {:induction false} AdjacentCounts(edges: seq<Edge>, directed: bool, node: Node, hop: Hop)
    ensures Count(Adjacent(edges, directed, node), hop)
            == Count(edges, Edge(node, hop.neighbor, hop.rel)) + if directed then 0 else Count(edges, Edge(hop.neighbor, node, hop.rel))
  {
    if edges != [] {
      var edge, before := Last(edges), Adjacent(Init(edges), directed, node);
      AdjacentCounts(Init(edges), directed, node, hop);
      CountSnoc(before, Hop(edge.target, edge.relationship), hop);
      CountSnoc(before + [Hop(edge.target, edge.relationship)], Hop(edge.source, edge.relationship), hop);
      CountSnoc(before, Hop(edge.source, edge.relationship), hop);
    }
  }

  lemma CountSnoc<T>(s: seq<T>, y: T, x: T)
    ensures Count(s + [y], x) == Count(s, x) + if y == x then 1 else 0
  {
    assert Init(s + [y]) == s;
  }

  lemma {:induction false} PushedCounts(e: Entry, hops: seq<Hop>, hop: Hop)
    ensures Count(Pushed(e, hops), Extend(e, hop)) == if hop.neighbor in e.path then 0 else Count(hops, hop)
  {
    if hops != [] {
      var last := Last(hops);
      PushedCounts(e, Init(hops), hop);
      CountSnoc(Pushed(e, Init(hops)), Extend(e, last), Extend(e, hop));
      ExtendIsOne(e, last, hop);
      hide Extend;
    }
  }

  lemma ExtendIsOne(e: Entry, a: Hop, b: Hop)
    ensures Extend(e, a) == Extend(e, b) <==> a == b
  {
    if Extend(e, a) == Extend(e, b) {
      assert (e.rels + [a.rel])[|e.rels|] == (e.rels + [b.rel])[|e.rels|];
    }
  }

  predicate WellFormed(e: Entry) {
    e.path != [] && Last(e.path) == e.node
  }

  lemma OneParent(q: Query, e: Entry, c: Entry)
    requires WellFormed(e) && c in Children(q, e)
    ensures |c.path| >= 2 && |c.rels| >= 1 && Parent(c) == e
  {
    var hops := Adjacent(q.edges, q.directed, e.node);
    PushedExact(e, hops, c);
    var hop :| hop in hops && hop.neighbor !in e.path && c == Extend(e, hop);
    assert c.path[..|c.path| - 1] == e.path && c.rels[..|c.rels| - 1] == e.rels;
  }

  lemma {:induction false} ChildrenCounts(q: Query, entries: seq<Entry>, c: Entry)
    requires |c.path| >= 2 && |c.rels| >= 1 && forall e :: e in entries ==> WellFormed(e)
    ensures Count(ChildrenOf(q, entries), c) == Count(entries, Parent(c)) * Count(Children(q, Parent(c)), c)
  {
    hide Children, Parent, WellFormed;
    if entries != [] {
      var init, last := Init(entries), Last(entries);
      assert entries == init + [last] && last in entries;
      ChildrenCounts(q, init, c);
      CountConcat(ChildrenOf(q, init), Children(q, last), c);
      if last != Parent(c) {
        CountIsIn(Children(q, last), c);
        if c in Children(q, last) {
          OneParent(q, last, c);
          assert false;
        }
      }
      hide Count;
      var n, k := Count(init, Parent(c)), Count(Children(q, Parent(c)), c);
      assert (n + 1) * k == n * k + k;
      CountLast(entries, Parent(c));
    }
  }

  lemma CountLast<T>(s: seq<T>, x: T)
    requires s != []
    ensures Count(s, x) == Count(Init(s), x) + if Last(s) == x then 1 else 0
  {
  }

  lemma QueuedIsWellFormed(q: Query, e: Entry, k: nat)
    requires Queued(q, e, k)
    ensures WellFormed(e) && |e.path| == |e.rels| + 1 == k + 1
  {
  }

  /** A queued entry is extended by as many hops as there are edges for. */
  lemma ChildCounts(q: Query, c: Entry, k: nat)
    requires k > 0 && Queued(q, c, k)
    ensures Count(Children(q, Parent(c)), c) == HopCount(q, c.path[k - 1], c.path[k], c.rels[k - 1])
  {
    hide Adjacent, Pushed, Count, IsHop;
    QueuedIsChild(q, c, k);
    var p := Parent(c);
    var hop := Hop(c.node, c.rels[k - 1]);
    assert c.path == p.path + [c.node] && c.rels == p.rels + [hop.rel];
    PushedCounts(p, Adjacent(q.edges, q.directed, p.node), hop);
    AdjacentCounts(q.edges, q.directed, p.node, hop);
    assert p.path[..] == c.path[..k];
  }

  lemma {:induction false} LevelCounts(q: Query, k: nat, e: Entry)
    ensures Queued(q, e, k) ==> |e.path| == |e.rels| + 1 && Count(Level(q, k), e) == Ways(q, e)
    ensures !Queued(q, e, k) ==> Count(Level(q, k), e) == 0
  {
    hide *;
    LevelExact(q, k, e);
    CountIsIn(Level(q, k), e);
    if Queued(q, e, k) {
      QueuedSizes(q, e, k);
      if k == 0 {
        StartCounts(q, e);
      } else {
        QueuedIsChild(q, e, k);
        LevelCounts(q, k - 1, Parent(e));
        LevelIs(q, k - 1);
        forall p | p in Level(q, k - 1) ensures WellFormed(p) {
          LevelExact(q, k - 1, p);
          QueuedIsWellFormed(q, p, k - 1);
        }
        ChildrenCounts(q, Level(q, k - 1), e);
        ChildCounts(q, e, k);
        WaysIs(q, e);
      }
    }
  }

  lemma StartCounts(q: Query, e: Entry)
    requires Queued(q, e, 0)
    ensures |e.path| == |e.rels| + 1 && Count(Level(q, 0), e) == 1 == Ways(q, e)
  {
    hide Count;
    StartIsQueued(q, e);
    CountOne(Start(q), e);
  }

  lemma CountOne<T>(x: T, y: T)
    ensures Count([x], y) == if x == y then 1 else 0
  {
    assert Init([x]) == [];
  }

  lemma WaysIs(q: Query, e: Entry)
    requires |e.path| == |e.rels| + 1 && e.rels != []
    ensures |Parent(e).path| == |Parent(e).rels| + 1
    ensures Ways(q, e) == Ways(q, Parent(e)) * HopCount(q, e.path[|e.rels| - 1], e.path[|e.rels|], e.rels[|e.rels| - 1])
  {
  }

  lemma {:induction false} FoundInCounts(q: Query, entries: seq<Entry>, e: Entry)
    ensures Count(FoundIn(q, entries), e) == if Found(q, e) then Count(entries, e) else 0
    decreases |entries|
  {
    hide *;
    if entries == [] {
      NothingCounts(q, e);
    } else {
      FoundInCounts(q, Init(entries), e);
      FoundInLast(q, entries);
      CountSnoc(FoundIn(q, Init(entries)), Last(entries), e);
      CountLast(entries, e);
    }
  }

  lemma NothingCounts(q: Query, e: Entry)
    ensures Count(FoundIn(q, []), e) == 0 && Count([], e) == 0
  {
  }

  lemma FoundInLast(q: Query, entries: seq<Entry>)
    requires entries != []
    ensures var sofar := FoundIn(q, Init(entries));
            FoundIn(q, entries) == if Found(q, Last(entries)) then sofar + [Last(entries)] else sofar
  {
    hide Found;
  }

  lemma {:induction false} FoundBelowCounts(q: Query, k: nat, e: Entry)
    ensures IsAnswer(q, e) && |e.rels| < k ==> |e.path| == |e.rels| + 1 && Count(FoundBelow(q, k), e) == Ways(q, e)
    ensures !(IsAnswer(q, e) && |e.rels| < k) ==> Count(FoundBelow(q, k), e) == 0
  {
    hide *;
    FoundBelowExact(q, k, e);
    CountIsIn(FoundBelow(q, k), e);
    if IsAnswer(q, e) && |e.rels| < k {
      FoundFollows(q, k - 1);
      CountConcat(FoundBelow(q, k - 1), FoundIn(q, Level(q, k - 1)), e);
      FoundBelowCounts(q, k - 1, e);
      FoundAt(q, k - 1, e);
      CountIsIn(FoundIn(q, Level(q, k - 1)), e);
      if |e.rels| == k - 1 {
        FoundInCounts(q, Level(q, k - 1), e);
        LevelCounts(q, k - 1, e);
        AnswerIsQueued(q, e);
      }
    }
  }

  lemma AnswerIsQueued(q: Query, e: Entry)
    requires IsAnswer(q, e)
    ensures Queued(q, e, |e.rels|) && Found(q, e) && |e.path| == |e.rels| + 1
  {
    hide IsHop;
    assert e.path[|e.rels|] == q.target;
  }

  lemma {:induction false} CountPrefix<T>(s: seq<T>, n: nat, x: T)
    requires n <= |s|
    ensures Count(s[..n], x) <= Count(s, x)
  {
    assert s == s[..n] + s[n..];
    CountConcat(s[..n], s[n..], x);
  }

  /**
   How often an answer is returned: never more often than there are ways to choose an edge for each of its hops, and
   exactly so often when fewer than ten results come back.
   */
  lemma AnswerCounts(q: Query, paths: seq<Entry>, e: Entry)
    requires paths == Take(AllFound(q), MAX_PATHS)
    ensures IsAnswer(q, e) ==> |e.path| == |e.rels| + 1 && Count(paths, e) <= Ways(q, e)
    ensures IsAnswer(q, e) && |paths| < MAX_PATHS ==> Count(paths, e) == Ways(q, e)
    ensures !IsAnswer(q, e) ==> Count(paths, e) == 0
  {
    hide FoundBelow, IsSimplePath, Count, Ways;
    FoundBelowCounts(q, Depth(q), e);
    CountPrefix(AllFound(q), |paths|, e);
    assert AllFound(q)[..|paths|] == paths;
    assert IsAnswer(q, e) ==> |e.rels| < Depth(q);
  }

  // ---- without parallel edges ----

  function Reversed(edge: Edge): Edge { Edge(edge.target, edge.source, edge.relationship) }

  /** No edge is repeated, and undirected none is the reverse of another. */
  predicate SingleEdges(q: Query) {
    forall i, j :: 0 <= i < j < |q.edges| ==>
      q.edges[i] != q.edges[j] && (q.directed || q.edges[i] != Reversed(q.edges[j]))
  }

  lemma {:induction false} CountAtMostOne<T>(s: seq<T>, x: T)
    requires forall i, j :: 0 <= i < j < |s| ==> s[i] != s[j]
    ensures Count(s, x) <= 1
  {
    if s != [] {
      CountAtMostOne(Init(s), x);
      if Last(s) == x {
        CountIsIn(Init(s), x);
      }
    }
  }

  lemma SingleHop(q: Query, from: Node, to: Node, rel: string)
    requires SingleEdges(q) && from != to
    ensures HopCount(q, from, to, rel) <= 1
  {
    var forth, back := Edge(from, to, rel), Edge(to, from, rel);
    CountAtMostOne(q.edges, forth);
    CountAtMostOne(q.edges, back);
    CountIsIn(q.edges, forth);
    CountIsIn(q.edges, back);
    hide Count;
  }

  lemma {:induction false} OneWay(q: Query, e: Entry)
    requires SingleEdges(q) && |e.path| == |e.rels| + 1
    requires forall i, j :: 0 <= i < j < |e.path| ==> e.path[i] != e.path[j]
    ensures Ways(q, e) <= 1
    decreases |e.rels|
  {
    if e.rels != [] {
      hide SingleEdges, HopCount;
      OneWay(q, Parent(e));
      var n := |e.rels|;
      SingleHop(q, e.path[n - 1], e.path[n], e.rels[n - 1]);
      AtMostOne(Ways(q, Parent(e)), HopCount(q, e.path[n - 1], e.path[n], e.rels[n - 1]));
    }
  }

  lemma AtMostOne(a: nat, b: nat)
    requires a <= 1 && b <= 1
    ensures a * b <= 1
  {
  }

  /** Without parallel edges no answer is returned twice, so ten results are ten different paths. */
  lemma AnswersAreDistinct(q: Query, paths: seq<Entry>)
    requires paths == Take(AllFound(q), MAX_PATHS) && SingleEdges(q)
    ensures forall i, j :: 0 <= i < j < |paths| ==> paths[i] != paths[j]
  {
    forall i, j | 0 <= i < j < |paths| ensures paths[i] != paths[j] {
      hide AllFound, SingleEdges, Ways, IsHop;
      if paths[i] == paths[j] {
        CountTwice(paths, i, j);
        AnswerCounts(q, paths, paths[i]);
        OneWay(q, paths[i]);
        assert false;
      }
    }
  }

  // ---- the order of answers ----

  datatype Place = Place(major: nat, minor: nat)

  predicate Before(a: Place, b: Place) {
    a.major < b.major || (a.major == b.major && a.minor < b.minor)
  }

  ghost predicate PlacesRise(at: seq<Place>) {
    forall i, j :: 0 <= i < j < |at| ==> Before(at[i], at[j])
  }

  lemma PlacesMore(at: seq<Place>, x: Place)
    requires PlacesRise(at) && forall p :: p in at ==> Before(p, x)
    ensures PlacesRise(at + [x]) && forall p :: p in at + [x] <==> p in at || p == x
  {
    forall i | 0 <= i < |at| ensures Before(at[i], x) {
      assert at[i] in at;
    }
  }

  /** Edge `p.major` usable from `node`: forwards, or with `p.minor == 1` backwards. */
  predicate Usable(edges: seq<Edge>, directed: bool, node: Node, p: Place) {
    && p.major < |edges| && p.minor <= 1
    && if p.minor == 0 then edges[p.major].source == node else !directed && edges[p.major].target == node
  }

  function HopOver(edge: Edge, minor: nat): Hop {
    Hop(if minor == 0 then edge.target else edge.source, edge.relationship)
  }

  ghost predicate HopsFrom(edges: seq<Edge>, directed: bool, node: Node, hops: seq<Hop>, at: seq<Place>) {
    && |at| == |hops| && PlacesRise(at)
    && (forall p :: p in at <==> Usable(edges, directed, node, p))
    && forall i :: 0 <= i < |at| ==> at[i].major < |edges| && hops[i] == HopOver(edges[at[i].major], at[i].minor)
  }

  lemma HopsMore(edges: seq<Edge>, directed: bool, node: Node, hops: seq<Hop>, at: seq<Place>, edge: Edge)
      returns (more: seq<Hop>, at': seq<Place>)
    requires HopsFrom(edges, directed, node, hops, at)
    ensures HopsFrom(edges + [edge], directed, node, more, at')
    ensures var forth := if edge.source == node then hops + [Hop(edge.target, edge.relationship)] else hops;
            more == if !directed && edge.target == node then forth + [Hop(edge.source, edge.relationship)] else forth
  {
    var n, longer := |edges|, edges + [edge];
    more, at' := hops, at;
    forall p | p in at ensures p.major < n {
      assert Usable(edges, directed, node, p);
    }
    if edge.source == node {
      PlacesMore(at', Place(n, 0));
      more, at' := more + [Hop(edge.target, edge.relationship)], at' + [Place(n, 0)];
    }
    if !directed && edge.target == node {
      PlacesMore(at', Place(n, 1));
      more, at' := more + [Hop(edge.source, edge.relationship)], at' + [Place(n, 1)];
    }
    hide PlacesRise;
    forall p: Place ensures p in at' <==> Usable(longer, directed, node, p) {
      UsableMore(edges, edge, directed, node, p);
    }
  }

  lemma UsableMore(edges: seq<Edge>, edge: Edge, directed: bool, node: Node, p: Place)
    ensures Usable(edges + [edge], directed, node, p) <==>
            || Usable(edges, directed, node, p)
            || (p == Place(|edges|, 0) && edge.source == node)
            || (p == Place(|edges|, 1) && !directed && edge.target == node)
  {
  }

  /** The adjacency list is in edge order, an edge forwards before the same edge backwards, each usable edge once. */
  lemma {:induction false} AdjacentOrder(edges: seq<Edge>, directed: bool, node: Node) returns (at: seq<Place>)
    ensures HopsFrom(edges, directed, node, Adjacent(edges, directed, node), at)
  {
    if edges == [] {
      at := [];
    } else {
      hide HopsFrom;
      var init := edges[..|edges| - 1];
      at := AdjacentOrder(init, directed, node);
      assert edges == init + [edges[|edges| - 1]];
      var more;
      more, at := HopsMore(init, directed, node, Adjacent(init, directed, node), at, edges[|edges| - 1]);
    }
  }

  /** Hop `p.minor` of entry `p.major` leads on: the entry is neither too deep nor at the target, nor the hop back into its path. */
  predicate LeadsOn(q: Query, entries: seq<Entry>, p: Place) {
    && p.major < |entries|
    && var e := entries[p.major];
       var hops := Adjacent(q.edges, q.directed, e.node);
       |e.path| - 1 <= q.maxDepth && e.node != q.target && p.minor < |hops| && hops[p.minor].neighbor !in e.path
  }

  /** The entry one hop further. */
  predicate IsStep(q: Query, e: Entry, minor: nat, next: Entry) {
    var hops := Adjacent(q.edges, q.directed, e.node);
    && minor < |hops|
    && next == Entry(hops[minor].neighbor, e.path + [hops[minor].neighbor], e.rels + [hops[minor].rel])
  }

  ghost predicate StepsFrom(q: Query, entries: seq<Entry>, next: seq<Entry>, at: seq<Place>) {
    && |at| == |next| && PlacesRise(at)
    && (forall p :: p in at <==> LeadsOn(q, entries, p))
    && forall i :: 0 <= i < |at| ==> at[i].major < |entries| && IsStep(q, entries[at[i].major], at[i].minor, next[i])
  }

  /** The first `n` hops of entry number `k`. */
  ghost predicate PushedFrom(e: Entry, hops: seq<Hop>, k: nat, next: seq<Entry>, at: seq<Place>) {
    && |at| == |next| && PlacesRise(at)
    && (forall p :: p in at <==> p.major == k && p.minor < |hops| && hops[p.minor].neighbor !in e.path)
    && forall i :: 0 <= i < |at| ==> at[i].minor < |hops| && next[i] == Extend(e, hops[at[i].minor])
  }

  lemma PushedMore(e: Entry, hops: seq<Hop>, hop: Hop, k: nat, next: seq<Entry>, at: seq<Place>)
    requires PushedFrom(e, hops, k, next, at)
    ensures hop.neighbor in e.path ==> PushedFrom(e, hops + [hop], k, next, at)
    ensures hop.neighbor !in e.path ==> PushedFrom(e, hops + [hop], k, next + [Extend(e, hop)], at + [Place(k, |hops|)])
  {
    hide Extend;
    PlacesMore(at, Place(k, |hops|));
    hide PlacesRise;
  }

  lemma {:induction false} PushedOrder(e: Entry, hops: seq<Hop>, k: nat) returns (at: seq<Place>)
    ensures PushedFrom(e, hops, k, Pushed(e, hops), at)
  {
    if hops == [] {
      at := [];
    } else {
      hide PushedFrom;
      var init, hop := hops[..|hops| - 1], hops[|hops| - 1];
      at := PushedOrder(e, init, k);
      PushedMore(e, init, hop, k, Pushed(e, init), at);
      assert hops == init + [hop];
      at := if hop.neighbor in e.path then at else at + [Place(k, |init|)];
    }
  }

  lemma {:induction false} ChildrenOrder(q: Query, entries: seq<Entry>) returns (at: seq<Place>)
    ensures StepsFrom(q, entries, ChildrenOf(q, entries), at)
  {
    if entries == [] {
      at := [];
    } else {
      hide StepsFrom, PushedFrom, Children;
      var init, last := entries[..|entries| - 1], entries[|entries| - 1];
      at := ChildrenOrder(q, init);
      var more := OneOrder(q, last, |init|);
      assert entries == init + [last];
      StepsMore(q, init, last, ChildrenOf(q, init), at, Children(q, last), more);
      at := at + more;
    }
  }

  /** What entry number `k` leads on to. */
  ghost predicate OneFrom(q: Query, e: Entry, k: nat, next: seq<Entry>, at: seq<Place>) {
    && |at| == |next| && PlacesRise(at)
    && (forall p :: p in at <==> p.major == k && LeadsOn(q, [e], Place(0, p.minor)))
    && forall i :: 0 <= i < |at| ==> IsStep(q, e, at[i].minor, next[i])
  }

  lemma OneOrder(q: Query, e: Entry, k: nat) returns (at: seq<Place>)
    ensures OneFrom(q, e, k, Children(q, e), at)
  {
    if |e.path| - 1 > q.maxDepth || e.node == q.target {
      at := [];
    } else {
      hide Adjacent, Pushed;
      at := PushedOrder(e, Adjacent(q.edges, q.directed, e.node), k);
    }
  }

  lemma StepsMore(q: Query, entries: seq<Entry>, e: Entry, next: seq<Entry>, at: seq<Place>, next': seq<Entry>, at': seq<Place>)
    requires StepsFrom(q, entries, next, at) && OneFrom(q, e, |entries|, next', at')
    ensures StepsFrom(q, entries + [e], next + next', at + at')
  {
    hide Adjacent, IsStep;
    var n, longer := |entries|, entries + [e];
    forall p | p in at ensures p.major < n {
      assert LeadsOn(q, entries, p);
    }
    forall i, j | 0 <= i < j < |at + at'| ensures Before((at + at')[i], (at + at')[j]) {
      if i < |at| {
        assert at[i] in at;
        assert j >= |at| ==> at'[j - |at|] in at';
      }
    }
    hide PlacesRise;
    forall p: Place ensures p in at + at' <==> LeadsOn(q, longer, p) {
      assert p.major < n ==> longer[p.major] == entries[p.major];
    }
    forall i | 0 <= i < |at + at'|
      ensures (at + at')[i].major < n + 1 && IsStep(q, longer[(at + at')[i].major], (at + at')[i].minor, (next + next')[i])
    {
      if i < |at| {
        assert longer[at[i].major] == entries[at[i].major];
      } else {
        assert at'[i - |at|] in at';
      }
    }
  }

  /**
   The queue is in order: each entry with one edge more is a hop further from one before it, sorted by the place of that
   one and by the hop's place in its adjacency list, and every hop that leads on is there once.
   */
  lemma LevelOrder(q: Query, k: nat) returns (at: seq<Place>)
    ensures Level(q, 0) == [Entry(q.source, [q.source], [])]
    ensures StepsFrom(q, Level(q, k), Level(q, k + 1), at)
  {
    hide StepsFrom, ChildrenOf;
    LevelIs(q, k);
    at := ChildrenOrder(q, Level(q, k));
  }

  /** The answers of a level keep their order in the queue. */
  lemma {:induction false} FoundOrder(q: Query, entries: seq<Entry>) returns (at: seq<nat>)
    ensures Picked(entries, FoundIn(q, entries), at)
    ensures forall k: nat :: k < |entries| ==>
      (k in at <==> |entries[k].path| - 1 <= q.maxDepth && entries[k].node == q.target)
  {
    if entries == [] {
      at := [];
    } else {
      hide Picked;
      var init, e := entries[..|entries| - 1], entries[|entries| - 1];
      at := FoundOrder(q, init);
      PickedMore(init, FoundIn(q, init), at, e);
      assert entries == init + [e];
      if Found(q, e) {
        at := at + [|init|];
      }
    }
  }
}
