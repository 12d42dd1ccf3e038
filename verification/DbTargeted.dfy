/**
 The targeted build preserves meaning: over the rows the filtered queries return for a set of object ids, the
 build gives exactly the subgraph of the full graph induced on those objects: same nodes and attributes, same
 edges, same order.
 */
module DbTargeted {
  import opened Basics
  import opened Options
  import opened DbGraph
  import Neighborhood

  // ---- the full graph, said outright ----

  function TableNode(t: TableRow): GraphNode { GraphNode(TableId(t.schema, t.name), TableAttrs(t)) }

  function ColumnNode(k: ColumnRow, pks: seq<PkRow>, fks: seq<FkRow>): GraphNode {
    GraphNode(IdOfColumn(k), AttrsOf(k, pks, fks))
  }

  function RoutineNode(r: RoutineRow, kind: RoutineKind, defs: bool): GraphNode {
    GraphNode(RoutineId(kind, r.schema, r.name), AttrsOfRoutine(r, kind, defs))
  }

  function TableNodes(tables: seq<TableRow>): seq<GraphNode> {
    if tables == [] then [] else TableNodes(Init(tables)) + [TableNode(Last(tables))]
  }

  function ColumnNodes(columns: seq<ColumnRow>, pks: seq<PkRow>, fks: seq<FkRow>): seq<GraphNode> {
    if columns == [] then [] else ColumnNodes(Init(columns), pks, fks) + [ColumnNode(Last(columns), pks, fks)]
  }

  function RoutineNodes(routines: seq<RoutineRow>, defs: bool): seq<GraphNode> {
    if routines == [] then []
    else
      var r, sofar := Last(routines), RoutineNodes(Init(routines), defs);
      match KindOf(r.code)
      case None => sofar
      case Some(kind) => sofar + [RoutineNode(r, kind, defs)]
  }

  /** The nodes of tables and columns, which are there before any relation is looked at. */
  function SchemaNodes(c: Rows): seq<GraphNode> {
    TableNodes(c.tables) + ColumnNodes(c.columns, c.primaryKeys, c.foreignKeys)
  }

  function Nodes(c: Rows, defs: bool): seq<GraphNode> {
    SchemaNodes(c) + RoutineNodes(c.routines, defs)
  }

  function StoresEdge(k: ColumnRow): GraphEdge {
    GraphEdge(TableId(k.schema, k.table), IdOfColumn(k), Stores(k.columnId))
  }

  function StoresEdges(columns: seq<ColumnRow>): seq<GraphEdge> {
    if columns == [] then [] else StoresEdges(Init(columns)) + [StoresEdge(Last(columns))]
  }

  function LinkEdges(nodes: seq<GraphNode>, fks: seq<FkRow>): seq<GraphEdge> {
    if fks == [] then []
    else
      var fk, sofar := Last(fks), LinkEdges(nodes, Init(fks));
      if HasNode(nodes, FkSource(fk)) && HasNode(nodes, FkTarget(fk))
      then sofar + [GraphEdge(FkSource(fk), FkTarget(fk), Links(fk.info))] else sofar
  }

  function CreateEdges(nodes: seq<GraphNode>, routines: seq<RoutineRow>, deps: seq<DependencyRow>): seq<GraphEdge> {
    if deps == [] then []
    else
      var d, sofar := Last(deps), CreateEdges(nodes, routines, Init(deps));
      if MakesEdge(nodes, routines, d)
      then sofar + [GraphEdge(RoutineFor(routines, d.referencingId).value, DepTarget(d), Creates(d.referencedColumn != "", d.info))]
      else sofar
  }

  function Edges(c: Rows, defs: bool): seq<GraphEdge> {
    StoresEdges(c.columns) + LinkEdges(SchemaNodes(c), c.foreignKeys) + CreateEdges(Nodes(c, defs), c.routines, c.dependencies)
  }

  // ---- consistent catalogs ----

  ghost predicate DistinctIds(nodes: seq<GraphNode>) {
    forall i, j :: 0 <= i < j < |nodes| ==> nodes[i].id != nodes[j].id
  }

  /**
   What a catalog guarantees: node ids name one object each, a column's table is there, and key rows that name
   a column carry the object id of its table.
   */
  ghost predicate Consistent(c: Rows) {
    && DistinctIds(Nodes(c, false))
    && ColumnsHaveTables(c.tables, c.columns)
    && KeysNameTables(c)
  }

  ghost predicate ColumnsHaveTables(tables: seq<TableRow>, columns: seq<ColumnRow>) {
    forall k :: k in columns ==> HasTable(tables, k)
  }

  ghost predicate HasTable(tables: seq<TableRow>, k: ColumnRow) {
    exists t :: t in tables && IsTableOf(t, k)
  }

  predicate IsTableOf(t: TableRow, k: ColumnRow) {
    t.objectId == k.tableObjectId && t.schema == k.schema && t.name == k.table
  }

  ghost predicate KeysNameTables(c: Rows) {
    && (forall p, k :: p in c.primaryKeys && k in c.columns && (p.schema, p.table, p.column) == KeyOf(k) ==>
          p.objectId == k.tableObjectId)
    && (forall f, k :: f in c.foreignKeys && k in c.columns && FkSource(f) == IdOfColumn(k) ==> f.parentId == k.tableObjectId)
    && (forall f, k :: f in c.foreignKeys && k in c.columns && FkTarget(f) == IdOfColumn(k) ==> f.referencedId == k.tableObjectId)
  }

  // ---- the build gives that graph ----

  lemma {:induction false} HasNodeConcat(a: seq<GraphNode>, b: seq<GraphNode>, id: string)
    ensures HasNode(a + b, id) <==> HasNode(a, id) || HasNode(b, id)
  {
    if HasNode(a, id) {
      var i :| 0 <= i < |a| && a[i].id == id;
      assert (a + b)[i].id == id;
    }
    if HasNode(b, id) {
      var i :| 0 <= i < |b| && b[i].id == id;
      assert (a + b)[|a| + i].id == id;
    }
  }

  lemma FreshLast(nodes: seq<GraphNode>, node: GraphNode)
    requires DistinctIds(nodes + [node])
    ensures !HasNode(nodes, node.id) && DistinctIds(nodes) && HasNode(nodes + [node], node.id)
  {
    var all := nodes + [node];
    assert all[|nodes|] == node;
    forall i | 0 <= i < |nodes| ensures nodes[i].id != node.id { assert all[i] == nodes[i]; }
    forall i, j | 0 <= i < j < |nodes| ensures nodes[i].id != nodes[j].id { assert all[i] == nodes[i] && all[j] == nodes[j]; }
  }

  lemma DistinctPrefix(a: seq<GraphNode>, b: seq<GraphNode>)
    requires DistinctIds(a + b)
    ensures DistinctIds(a)
  {
    forall i, j | 0 <= i < j < |a| ensures a[i].id != a[j].id { assert (a + b)[i] == a[i] && (a + b)[j] == a[j]; }
  }

  lemma {:induction false} BuildsTables(tables: seq<TableRow>)
    requires DistinctIds(TableNodes(tables))
    ensures AddTables(Graph([], []), tables) == Graph(TableNodes(tables), [])
  {
    if tables != [] {
      FreshLast(TableNodes(Init(tables)), TableNode(Last(tables)));
      BuildsTables(Init(tables));
    }
  }

  lemma {:induction false} TableIsNode(tables: seq<TableRow>, t: TableRow)
    requires t in tables
    ensures HasNode(TableNodes(tables), TableId(t.schema, t.name))
  {
    HasNodeConcat(TableNodes(Init(tables)), [TableNode(Last(tables))], TableId(t.schema, t.name));
    if t == Last(tables) {
      assert [TableNode(t)][0].id == TableId(t.schema, t.name);
    } else {
      TableIsNode(Init(tables), t);
    }
  }

  lemma {:induction false} BuildsColumns(tables: seq<TableRow>, columns: seq<ColumnRow>, pks: seq<PkRow>, fks: seq<FkRow>)
    requires DistinctIds(TableNodes(tables) + ColumnNodes(columns, pks, fks)) && ColumnsHaveTables(tables, columns)
    ensures AddColumns(Graph(TableNodes(tables), []), columns, pks, fks)
            == Graph(TableNodes(tables) + ColumnNodes(columns, pks, fks), StoresEdges(columns))
  {
    var base := TableNodes(tables);
    if columns == [] {
      assert base + [] == base;
    } else {
      var k, before := Last(columns), ColumnNodes(Init(columns), pks, fks);
      var node := ColumnNode(k, pks, fks);
      assert base + ColumnNodes(columns, pks, fks) == (base + before) + [node];
      FreshLast(base + before, node);
      forall x | x in Init(columns) ensures HasTable(tables, x) { assert x in columns; }
      BuildsColumns(tables, Init(columns), pks, fks);
      assert k in columns && HasTable(tables, k);
      var t :| t in tables && IsTableOf(t, k);
      TableIsNode(tables, t);
      HasNodeConcat(base, before, TableId(k.schema, k.table));
      HasNodeConcat(base + before, [node], TableId(k.schema, k.table));
    }
  }

  lemma {:induction false} BuildsLinks(nodes: seq<GraphNode>, edges: seq<GraphEdge>, fks: seq<FkRow>)
    ensures AddLinks(Graph(nodes, edges), fks) == Graph(nodes, edges + LinkEdges(nodes, fks))
  {
    if fks == [] {
      assert edges + [] == edges;
    } else {
      BuildsLinks(nodes, edges, Init(fks));
      ConcatSnoc(edges, LinkEdges(nodes, Init(fks)), GraphEdge(FkSource(Last(fks)), FkTarget(Last(fks)), Links(Last(fks).info)));
    }
  }

  lemma ConcatSnoc<T>(a: seq<T>, b: seq<T>, x: T)
    ensures (a + b) + [x] == a + (b + [x])
  {
  }

  lemma {:induction false} BuildsRoutines(nodes: seq<GraphNode>, edges: seq<GraphEdge>, routines: seq<RoutineRow>, defs: bool)
    requires DistinctIds(nodes + RoutineNodes(routines, defs))
    ensures AddRoutines(Graph(nodes, edges), routines, defs) == Graph(nodes + RoutineNodes(routines, defs), edges)
  {
    if routines == [] {
      assert nodes + [] == nodes;
    } else {
      var r, before := Last(routines), RoutineNodes(Init(routines), defs);
      match KindOf(r.code)
      case None => BuildsRoutines(nodes, edges, Init(routines), defs);
      case Some(kind) =>
        ConcatSnoc(nodes, before, RoutineNode(r, kind, defs));
        FreshLast(nodes + before, RoutineNode(r, kind, defs));
        BuildsRoutines(nodes, edges, Init(routines), defs);
    }
  }

  /** The routine a dependency resolves to, with its row. */
  lemma {:induction false} RoutineForExact(routines: seq<RoutineRow>, id: int, defs: bool) returns (i: nat)
    requires RoutineFor(routines, id).Some?
    ensures i < |RoutineNodes(routines, defs)|
    ensures var n := RoutineNodes(routines, defs)[i];
            n.id == RoutineFor(routines, id).value && n.attrs.RoutineAttrs? && n.attrs.routine.objectId == id
  {
    var r := Last(routines);
    if r.objectId == id && KindOf(r.code).Some? {
      i := |RoutineNodes(routines, defs)| - 1;
    } else {
      i := RoutineForExact(Init(routines), id, defs);
    }
  }

  lemma {:induction false} BuildsCreates(
      nodes: seq<GraphNode>, edges: seq<GraphEdge>, routines: seq<RoutineRow>, deps: seq<DependencyRow>)
    requires forall id :: RoutineFor(routines, id).Some? ==> HasNode(nodes, RoutineFor(routines, id).value)
    ensures AddCreates(Graph(nodes, edges), routines, deps) == Graph(nodes, edges + CreateEdges(nodes, routines, deps))
  {
    if deps == [] {
      assert edges + [] == edges;
    } else {
      var d := Last(deps);
      BuildsCreates(nodes, edges, routines, Init(deps));
      if MakesEdge(nodes, routines, d) {
        ConcatSnoc(edges, CreateEdges(nodes, routines, Init(deps)),
                   GraphEdge(RoutineFor(routines, d.referencingId).value, DepTarget(d), Creates(d.referencedColumn != "", d.info)));
      }
    }
  }

  lemma RoutinesAreNodes(nodes: seq<GraphNode>, routines: seq<RoutineRow>, defs: bool, id: int)
    requires RoutineFor(routines, id).Some?
    ensures HasNode(nodes + RoutineNodes(routines, defs), RoutineFor(routines, id).value)
  {
    var i := RoutineForExact(routines, id, defs);
    HasNodeConcat(nodes, RoutineNodes(routines, defs), RoutineFor(routines, id).value);
  }

  /** The build of a consistent catalog: one node per object, one edge per relation whose ends are there. */
  lemma BuildIsDeclared(c: Rows, defs: bool)
    requires Consistent(c)
    ensures DistinctIds(Nodes(c, defs)) && Build(c, defs) == Graph(Nodes(c, defs), Edges(c, defs))
  {
    SameIds(c, defs);
    var schema := SchemaNodes(c);
    DistinctPrefix(schema, RoutineNodes(c.routines, defs));
    DistinctPrefix(TableNodes(c.tables), ColumnNodes(c.columns, c.primaryKeys, c.foreignKeys));
    BuildsTables(c.tables);
    BuildsColumns(c.tables, c.columns, c.primaryKeys, c.foreignKeys);
    BuildsLinks(schema, StoresEdges(c.columns), c.foreignKeys);
    var before := StoresEdges(c.columns) + LinkEdges(schema, c.foreignKeys);
    BuildsRoutines(schema, before, c.routines, defs);
    forall id | RoutineFor(c.routines, id).Some? ensures HasNode(Nodes(c, defs), RoutineFor(c.routines, id).value) {
      RoutinesAreNodes(schema, c.routines, defs, id);
    }
    BuildsCreates(Nodes(c, defs), before, c.routines, c.dependencies);
  }

  lemma SameIds(c: Rows, defs: bool)
    requires DistinctIds(Nodes(c, false))
    ensures DistinctIds(Nodes(c, defs))
  {
    RoutineIdsSame(c.routines, defs);
    var a, b := Nodes(c, false), Nodes(c, defs);
    assert |a| == |b|;
    forall i | 0 <= i < |a| ensures a[i].id == b[i].id {
      if i < |SchemaNodes(c)| {
        assert a[i] == SchemaNodes(c)[i] && b[i] == SchemaNodes(c)[i];
      } else {
        var k := i - |SchemaNodes(c)|;
        assert a[i] == RoutineNodes(c.routines, false)[k] && b[i] == RoutineNodes(c.routines, defs)[k];
      }
    }
  }

  lemma {:induction false} RoutineIdsSame(routines: seq<RoutineRow>, defs: bool)
    ensures |RoutineNodes(routines, false)| == |RoutineNodes(routines, defs)|
    ensures forall i :: 0 <= i < |RoutineNodes(routines, false)| ==> RoutineNodes(routines, false)[i].id == RoutineNodes(routines, defs)[i].id
  {
    if routines != [] {
      RoutineIdsSame(Init(routines), defs);
    }
  }

  // ---- the induced subgraph ----

  /** Is the node's object (for a column, its table) among the ids? */
  predicate Owned(n: GraphNode, ids: set<int>) {
    match n.attrs
    case Bare => false
    case TableAttrs(t) => t.objectId in ids
    case ColumnAttrs(k, _, _, _) => k.tableObjectId in ids
    case RoutineAttrs(r, _, _) => r.objectId in ids
  }

  function OwnedNodes(nodes: seq<GraphNode>, ids: set<int>): seq<GraphNode> {
    if nodes == [] then []
    else if Owned(Last(nodes), ids) then OwnedNodes(Init(nodes), ids) + [Last(nodes)]
    else OwnedNodes(Init(nodes), ids)
  }

  /** The edges with both ends among `nodes`. */
  function EdgesWithin(edges: seq<GraphEdge>, nodes: seq<GraphNode>): seq<GraphEdge> {
    if edges == [] then []
    else
      var e, sofar := Last(edges), EdgesWithin(Init(edges), nodes);
      if HasNode(nodes, e.source) && HasNode(nodes, e.target) then sofar + [e] else sofar
  }

  function Induced(g: Graph, ids: set<int>): Graph {
    var nodes := OwnedNodes(g.nodes, ids);
    Graph(nodes, EdgesWithin(g.edges, nodes))
  }

  lemma {:induction false} OwnedConcat(a: seq<GraphNode>, b: seq<GraphNode>, ids: set<int>)
    ensures OwnedNodes(a + b, ids) == OwnedNodes(a, ids) + OwnedNodes(b, ids)
  {
    if b == [] {
      assert a + b == a && OwnedNodes(a, ids) + [] == OwnedNodes(a, ids);
    } else {
      assert Init(a + b) == a + Init(b) && Last(a + b) == Last(b);
      OwnedConcat(a, Init(b), ids);
      if Owned(Last(b), ids) {
        ConcatSnoc(OwnedNodes(a, ids), OwnedNodes(Init(b), ids), Last(b));
      }
    }
  }

  lemma {:induction false} WithinConcat(a: seq<GraphEdge>, b: seq<GraphEdge>, nodes: seq<GraphNode>)
    ensures EdgesWithin(a + b, nodes) == EdgesWithin(a, nodes) + EdgesWithin(b, nodes)
  {
    if b == [] {
      assert a + b == a && EdgesWithin(a, nodes) + [] == EdgesWithin(a, nodes);
    } else {
      assert Init(a + b) == a + Init(b) && Last(a + b) == Last(b);
      WithinConcat(a, Init(b), nodes);
      if HasNode(nodes, Last(b).source) && HasNode(nodes, Last(b).target) {
        ConcatSnoc(EdgesWithin(a, nodes), EdgesWithin(Init(b), nodes), Last(b));
      }
    }
  }

  /** The owned nodes keep distinct ids, and hold an id exactly when its node is owned. */
  lemma {:induction false} OwnedExact(nodes: seq<GraphNode>, ids: set<int>, id: string)
    ensures HasNode(OwnedNodes(nodes, ids), id) <==> exists i :: 0 <= i < |nodes| && nodes[i].id == id && Owned(nodes[i], ids)
  {
    if nodes != [] {
      var init, last := Init(nodes), Last(nodes);
      OwnedExact(init, ids, id);
      HasNodeConcat(OwnedNodes(init, ids), [last], id);
      assert [last][0] == last;
      if i :| 0 <= i < |nodes| && nodes[i].id == id && Owned(nodes[i], ids) {
        if i < |init| { assert init[i] == nodes[i]; }
      }
      if i :| 0 <= i < |init| && init[i].id == id && Owned(init[i], ids) {
        assert nodes[i] == init[i];
      }
      if last.id == id && Owned(last, ids) { assert nodes[|nodes| - 1] == last; }
    }
  }

  lemma {:induction false} OwnedDistinct(nodes: seq<GraphNode>, ids: set<int>)
    requires DistinctIds(nodes)
    ensures DistinctIds(OwnedNodes(nodes, ids))
  {
    if nodes != [] {
      var init, last := Init(nodes), Last(nodes);
      assert nodes == init + [last];
      FreshLast(init, last);
      OwnedDistinct(init, ids);
      OwnedExact(init, ids, last.id);
      var kept := OwnedNodes(init, ids);
      forall i | 0 <= i < |kept| ensures kept[i].id != last.id {
      }
    }
  }

  // ---- nodes: filtering rows is filtering nodes ----

  lemma {:induction false} TablesFiltered(tables: seq<TableRow>, ids: set<int>)
    ensures TableNodes(Keep(tables, (t: TableRow) => t.objectId in ids)) == OwnedNodes(TableNodes(tables), ids)
  {
    if tables != [] {
      TablesFiltered(Init(tables), ids);
    }
  }

  lemma {:induction false} RoutinesFiltered(routines: seq<RoutineRow>, ids: set<int>, defs: bool)
    ensures RoutineNodes(Keep(routines, (r: RoutineRow) => r.objectId in ids), defs) == OwnedNodes(RoutineNodes(routines, defs), ids)
  {
    if routines != [] {
      RoutinesFiltered(Init(routines), ids, defs);
    }
  }

  lemma {:induction false} PkFiltered(pks: seq<PkRow>, ids: set<int>, key: Key)
    requires forall p :: p in pks && (p.schema, p.table, p.column) == key ==> p.objectId in ids
    ensures PkFor(Keep(pks, (p: PkRow) => p.objectId in ids), key) == PkFor(pks, key)
  {
    if pks != [] {
      assert Last(pks) in pks;
      forall p | p in Init(pks) ensures p in pks { }
      PkFiltered(Init(pks), ids, key);
    }
  }

  /** A column of a kept table keeps its PK, FK and referenced flags. */
  lemma AttrsFiltered(c: Rows, ids: set<int>, k: ColumnRow)
    requires KeysNameTables(c) && k in c.columns && k.tableObjectId in ids
    ensures AttrsOf(k, Filtered(c, ids).primaryKeys, Filtered(c, ids).foreignKeys) == AttrsOf(k, c.primaryKeys, c.foreignKeys)
  {
    PkFiltered(c.primaryKeys, ids, KeyOf(k));
    var kept := Filtered(c, ids).foreignKeys;
    assert KeyOf(k) in SourceColumns(c.foreignKeys) <==> KeyOf(k) in SourceColumns(kept) by {
      if KeyOf(k) in SourceColumns(c.foreignKeys) {
        var f :| f in c.foreignKeys && (f.parentSchema, f.parentTable, f.parentColumn) == KeyOf(k);
        assert FkSource(f) == IdOfColumn(k) && f in kept;
      }
    }
    assert KeyOf(k) in TargetColumns(c.foreignKeys) <==> KeyOf(k) in TargetColumns(kept) by {
      if KeyOf(k) in TargetColumns(c.foreignKeys) {
        var f :| f in c.foreignKeys && (f.referencedSchema, f.referencedTable, f.referencedColumn) == KeyOf(k);
        assert FkTarget(f) == IdOfColumn(k) && f in kept;
      }
    }
  }

  lemma {:induction false} ColumnsFiltered(c: Rows, ids: set<int>, columns: seq<ColumnRow>)
    requires KeysNameTables(c) && forall k :: k in columns ==> k in c.columns
    ensures ColumnNodes(Keep(columns, (k: ColumnRow) => k.tableObjectId in ids), Filtered(c, ids).primaryKeys, Filtered(c, ids).foreignKeys)
            == OwnedNodes(ColumnNodes(columns, c.primaryKeys, c.foreignKeys), ids)
  {
    hide Filtered, KeysNameTables, SourceColumns, TargetColumns;
    if columns != [] {
      forall k | k in Init(columns) ensures k in c.columns { assert k in columns; }
      ColumnsFiltered(c, ids, Init(columns));
      assert Last(columns) in columns;
      if Last(columns).tableObjectId in ids {
        AttrsFiltered(c, ids, Last(columns));
      }
    }
  }

  lemma NodesFiltered(c: Rows, ids: set<int>, defs: bool)
    requires KeysNameTables(c)
    ensures SchemaNodes(Filtered(c, ids)) == OwnedNodes(SchemaNodes(c), ids)
    ensures Nodes(Filtered(c, ids), defs) == OwnedNodes(Nodes(c, defs), ids)
  {
    TablesFiltered(c.tables, ids);
    ColumnsFiltered(c, ids, c.columns);
    RoutinesFiltered(c.routines, ids, defs);
    OwnedConcat(TableNodes(c.tables), ColumnNodes(c.columns, c.primaryKeys, c.foreignKeys), ids);
    OwnedConcat(SchemaNodes(c), RoutineNodes(c.routines, defs), ids);
  }

  lemma FilteredConsistent(c: Rows, ids: set<int>)
    requires Consistent(c)
    ensures Consistent(Filtered(c, ids))
  {
    var d := Filtered(c, ids);
    NodesFiltered(c, ids, false);
    OwnedDistinct(Nodes(c, false), ids);
    forall k | k in d.columns ensures HasTable(d.tables, k) {
      assert HasTable(c.tables, k);
      var t :| t in c.tables && IsTableOf(t, k);
      assert t in d.tables;
    }
  }

  // ---- edges: filtering rows is keeping the edges between kept nodes ----

  lemma {:induction false} TableNodeAt(tables: seq<TableRow>, i: nat)
    requires i < |TableNodes(tables)|
    ensures |TableNodes(tables)| == |tables| && TableNodes(tables)[i] == TableNode(tables[i])
  {
    if tables != [] && i < |TableNodes(Init(tables))| {
      TableNodeAt(Init(tables), i);
    } else if |tables| > 1 {
      TableNodeAt(Init(tables), 0);
    }
  }

  lemma {:induction false} ColumnNodeAt(columns: seq<ColumnRow>, pks: seq<PkRow>, fks: seq<FkRow>, i: nat)
    requires i < |columns|
    ensures |ColumnNodes(columns, pks, fks)| == |columns| && ColumnNodes(columns, pks, fks)[i] == ColumnNode(columns[i], pks, fks)
  {
    if |columns| > 1 {
      ColumnNodeAt(Init(columns), pks, fks, if i < |columns| - 1 then i else 0);
    }
  }

  lemma {:induction false} RoutineNodeIds(routines: seq<RoutineRow>, defs: bool)
    ensures forall n :: n in RoutineNodes(routines, defs) ==> |n.id| > 0 && n.id[0] in {'p', 'f'}
  {
    if routines != [] {
      RoutineNodeIds(Init(routines), defs);
    }
  }

  /** A column id among the nodes is the id of a column row. */
  lemma ColumnOfId(c: Rows, defs: bool, id: string) returns (k: ColumnRow)
    requires HasNode(Nodes(c, defs), id) && |id| > 0 && id[0] == 'c'
    ensures k in c.columns && IdOfColumn(k) == id && HasNode(SchemaNodes(c), id)
  {
    var columns := ColumnNodes(c.columns, c.primaryKeys, c.foreignKeys);
    HasNodeConcat(SchemaNodes(c), RoutineNodes(c.routines, defs), id);
    HasNodeConcat(TableNodes(c.tables), columns, id);
    RoutineNodeIds(c.routines, defs);
    if HasNode(TableNodes(c.tables), id) {
      var i :| 0 <= i < |TableNodes(c.tables)| && TableNodes(c.tables)[i].id == id;
      TableNodeAt(c.tables, i);
      assert false;
    }
    if c.columns != [] {
      ColumnNodeAt(c.columns, c.primaryKeys, c.foreignKeys, 0);
    }
    var i :| 0 <= i < |columns| && columns[i].id == id;
    ColumnNodeAt(c.columns, c.primaryKeys, c.foreignKeys, i);
    k := c.columns[i];
  }

  lemma ColumnIsNode(c: Rows, defs: bool, k: ColumnRow) returns (j: nat)
    requires k in c.columns
    ensures j < |Nodes(c, defs)| && Nodes(c, defs)[j] == ColumnNode(k, c.primaryKeys, c.foreignKeys)
  {
    var i :| 0 <= i < |c.columns| && c.columns[i] == k;
    ColumnNodeAt(c.columns, c.primaryKeys, c.foreignKeys, i);
    j := |TableNodes(c.tables)| + i;
    assert SchemaNodes(c)[j] == ColumnNode(k, c.primaryKeys, c.foreignKeys);
  }

  /** A node known by its id is kept exactly when its object is. */
  lemma KeptById(nodes: seq<GraphNode>, ids: set<int>, j: nat)
    requires DistinctIds(nodes) && j < |nodes|
    ensures HasNode(OwnedNodes(nodes, ids), nodes[j].id) <==> Owned(nodes[j], ids)
  {
    OwnedExact(nodes, ids, nodes[j].id);
    if i :| 0 <= i < |nodes| && nodes[i].id == nodes[j].id && Owned(nodes[i], ids) {
      assert i == j by { assert !(i < j) && !(j < i); }
    }
  }

  lemma StoresKept(c: Rows, ids: set<int>, defs: bool, k: ColumnRow)
    requires Consistent(c) && k in c.columns
    ensures var kept := OwnedNodes(Nodes(c, defs), ids);
            k.tableObjectId in ids <==> HasNode(kept, StoresEdge(k).source) && HasNode(kept, StoresEdge(k).target)
  {
    SameIds(c, defs);
    NodesFiltered(c, ids, defs);
    var j := ColumnIsNode(c, defs, k);
    KeptById(Nodes(c, defs), ids, j);
    if k.tableObjectId in ids {
      var d := Filtered(c, ids);
      assert HasTable(c.tables, k);
      var t :| t in c.tables && IsTableOf(t, k);
      assert t in d.tables;
      TableIsNode(d.tables, t);
      HasNodeConcat(TableNodes(d.tables), ColumnNodes(d.columns, d.primaryKeys, d.foreignKeys), TableId(k.schema, k.table));
      HasNodeConcat(SchemaNodes(d), RoutineNodes(d.routines, defs), TableId(k.schema, k.table));
    }
  }

  lemma {:induction false} StoresFiltered(c: Rows, ids: set<int>, defs: bool, columns: seq<ColumnRow>)
    requires Consistent(c) && forall k :: k in columns ==> k in c.columns
    ensures StoresEdges(Keep(columns, (k: ColumnRow) => k.tableObjectId in ids))
            == EdgesWithin(StoresEdges(columns), OwnedNodes(Nodes(c, defs), ids))
  {
    if columns != [] {
      forall k | k in Init(columns) ensures k in c.columns { assert k in columns; }
      StoresFiltered(c, ids, defs, Init(columns));
      assert Last(columns) in columns;
      StoresKept(c, ids, defs, Last(columns));
    }
  }

  /** A foreign key joins kept columns only if its row was fetched. */
  lemma LinkKept(c: Rows, ids: set<int>, defs: bool, fk: FkRow, id: string)
    requires Consistent(c) && fk in c.foreignKeys && (id == FkSource(fk) || id == FkTarget(fk))
    ensures var kept := OwnedNodes(Nodes(c, defs), ids);
      && (HasNode(kept, id) <==> HasNode(SchemaNodes(Filtered(c, ids)), id))
      && (HasNode(kept, id) ==> HasNode(SchemaNodes(c), id) && (fk.parentId in ids || fk.referencedId in ids))
  {
    var d := Filtered(c, ids);
    NodesFiltered(c, ids, defs);
    HasNodeConcat(SchemaNodes(d), RoutineNodes(d.routines, defs), id);
    if HasNode(Nodes(d, defs), id) {
      var k := ColumnOfId(d, defs, id);
      assert k in c.columns && k.tableObjectId in ids;
      OwnedExact(SchemaNodes(c), ids, id);
    }
  }

  lemma {:induction false} LinksFiltered(c: Rows, ids: set<int>, defs: bool, fks: seq<FkRow>)
    requires Consistent(c) && forall f :: f in fks ==> f in c.foreignKeys
    ensures LinkEdges(SchemaNodes(Filtered(c, ids)), Keep(fks, (f: FkRow) => f.parentId in ids || f.referencedId in ids))
            == EdgesWithin(LinkEdges(SchemaNodes(c), fks), OwnedNodes(Nodes(c, defs), ids))
  {
    if fks != [] {
      var fk := Last(fks);
      forall f | f in Init(fks) ensures f in c.foreignKeys { assert f in fks; }
      LinksFiltered(c, ids, defs, Init(fks));
      assert fk in fks;
      LinkKept(c, ids, defs, fk, FkSource(fk));
      LinkKept(c, ids, defs, fk, FkTarget(fk));
    }
  }

  lemma {:induction false} RoutineForFiltered(routines: seq<RoutineRow>, ids: set<int>, id: int)
    ensures RoutineFor(Keep(routines, (r: RoutineRow) => r.objectId in ids), id) == if id in ids then RoutineFor(routines, id) else None
  {
    if routines != [] {
      RoutineForFiltered(Init(routines), ids, id);
    }
  }

  /** A dependency is an edge of the filtered graph exactly when it is an edge between kept nodes. */
  lemma CreateKept(c: Rows, ids: set<int>, defs: bool, d: DependencyRow)
    requires Consistent(c) && d in c.dependencies
    ensures var kept := OwnedNodes(Nodes(c, defs), ids);
            MakesEdge(kept, Filtered(c, ids).routines, d) <==>
              && MakesEdge(Nodes(c, defs), c.routines, d)
              && HasNode(kept, RoutineFor(c.routines, d.referencingId).value) && HasNode(kept, DepTarget(d))
    ensures MakesEdge(OwnedNodes(Nodes(c, defs), ids), Filtered(c, ids).routines, d) ==> d.referencingId in ids
  {
    SameIds(c, defs);
    RoutineForFiltered(c.routines, ids, d.referencingId);
    OwnedExact(Nodes(c, defs), ids, DepTarget(d));
    if RoutineFor(c.routines, d.referencingId).Some? {
      var i := RoutineForExact(c.routines, d.referencingId, defs);
      assert Nodes(c, defs)[|SchemaNodes(c)| + i] == RoutineNodes(c.routines, defs)[i];
      KeptById(Nodes(c, defs), ids, |SchemaNodes(c)| + i);
    }
  }

  lemma {:induction false} CreatesFiltered(c: Rows, ids: set<int>, defs: bool, deps: seq<DependencyRow>)
    requires Consistent(c) && forall d :: d in deps ==> d in c.dependencies
    ensures var kept := OwnedNodes(Nodes(c, defs), ids);
            CreateEdges(kept, Filtered(c, ids).routines, Keep(deps, (d: DependencyRow) => d.referencingId in ids || d.referencedId in ids))
            == EdgesWithin(CreateEdges(Nodes(c, defs), c.routines, deps), kept)
  {
    if deps != [] {
      var d := Last(deps);
      forall x | x in Init(deps) ensures x in c.dependencies { assert x in deps; }
      CreatesFiltered(c, ids, defs, Init(deps));
      assert d in deps;
      CreateKept(c, ids, defs, d);
      RoutineForFiltered(c.routines, ids, d.referencingId);
    }
  }

  /** The targeted build is the induced subgraph of the full build, for any set of objects. */
  lemma FilteredBuildIsInduced(c: Rows, ids: set<int>, defs: bool)
    requires Consistent(c)
    ensures Build(Filtered(c, ids), defs) == Induced(Build(c, defs), ids)
  {
    var d, kept := Filtered(c, ids), OwnedNodes(Nodes(c, defs), ids);
    BuildIsDeclared(c, defs);
    FilteredConsistent(c, ids);
    BuildIsDeclared(d, defs);
    NodesFiltered(c, ids, defs);
    StoresFiltered(c, ids, defs, c.columns);
    LinksFiltered(c, ids, defs, c.foreignKeys);
    CreatesFiltered(c, ids, defs, c.dependencies);
    var stores, links := StoresEdges(c.columns), LinkEdges(SchemaNodes(c), c.foreignKeys);
    WithinConcat(stores, links, kept);
    WithinConcat(stores + links, CreateEdges(Nodes(c, defs), c.routines, c.dependencies), kept);
  }

  // ---- the targeted build itself ----

  datatype EntryType = Table | Column | Routine

  function FkLinks(fks: seq<FkRow>): seq<Neighborhood.Link<int>> {
    seq(|fks|, i requires 0 <= i < |fks| => Neighborhood.Link(fks[i].parentId, fks[i].referencedId))
  }

  function DepLinks(deps: seq<DependencyRow>): seq<Neighborhood.Link<int>> {
    seq(|deps|, i requires 0 <= i < |deps| => Neighborhood.Link(deps[i].referencingId, deps[i].referencedId))
  }

  /** `id` is the object id of a catalog object the entry names; a column entry names its table. */
  ghost predicate IsEntry(c: Rows, entry: EntryType, schema: string, name: string, id: int) {
    if entry == Routine then
      exists r :: r in c.routines && r.schema == schema && r.name == name && KindOf(r.code).Some? && r.objectId == id
    else exists t :: t in c.tables && t.schema == schema && t.name == name && t.objectId == id
  }

  predicate IsNamed(r: RoutineRow, schema: string, name: string) {
    r.schema == schema && r.name == name && KindOf(r.code).Some?
  }

  method ResolveEntry(c: Rows, entry: EntryType, schema: string, name: string) returns (id: Option<int>)
    ensures id.Some? ==> IsEntry(c, entry, schema, name, id.value)
    ensures id.None? ==> forall x :: !IsEntry(c, entry, schema, name, x)
  {
    if entry == Routine {
      for i := 0 to |c.routines|
        invariant forall k :: 0 <= k < i ==> !IsNamed(c.routines[k], schema, name)
      {
        if IsNamed(c.routines[i], schema, name) {
          return Some(c.routines[i].objectId);
        }
      }
    } else {
      for i := 0 to |c.tables|
        invariant forall k :: 0 <= k < i ==> !(c.tables[k].schema == schema && c.tables[k].name == name)
      {
        if c.tables[i].schema == schema && c.tables[i].name == name {
          return Some(c.tables[i].objectId);
        }
      }
    }
    return None;
  }

  /** The objects within `maxDepth` hops of the seed over foreign keys and dependencies. */
  function Neighbourhood(c: Rows, seed: int, maxDepth: int): set<int> {
    Neighborhood.Ball(FkLinks(c.foreignKeys) + DepLinks(c.dependencies), {seed}, if maxDepth < 0 then 0 else maxDepth)
  }

  /** Some foreign-key or dependency row names both objects, on whichever side. */
  ghost predicate Related(c: Rows, x: int, y: int) {
    || (exists f :: f in c.foreignKeys && {f.parentId, f.referencedId} == {x, y})
    || exists d :: d in c.dependencies && {d.referencingId, d.referencedId} == {x, y}
  }

  ghost predicate IsTrail(c: Rows, seed: int, trail: seq<int>) {
    trail != [] && trail[0] == seed && forall i :: 0 <= i < |trail| - 1 ==> Related(c, trail[i], trail[i + 1])
  }

  /** An object is in the neighbourhood exactly when no more than `maxDepth` rows, or none at all, lead to it. */
  lemma NeighbourhoodIs(c: Rows, seed: int, maxDepth: int, x: int)
    ensures x in Neighbourhood(c, seed, maxDepth) <==>
            x == seed || exists trail :: IsTrail(c, seed, trail) && trail[|trail| - 1] == x && |trail| - 1 <= maxDepth
  {
    var links := FkLinks(c.foreignKeys) + DepLinks(c.dependencies);
    Neighborhood.BallIsReach(links, {seed}, if maxDepth < 0 then 0 else maxDepth, x);
    hide FkLinks, DepLinks, Related;
    forall a, b ensures Neighborhood.IsHop(links, a, b) <==> Related(c, a, b) {
      HopIsRelated(c, a, b);
    }
    forall walk ensures Neighborhood.IsWalk(links, {seed}, walk) <==> IsTrail(c, seed, walk) {
      WalkIsTrail(c, seed, walk);
    }
    if x == seed {
      assert IsTrail(c, seed, [seed]);
    }
  }

  lemma WalkIsTrail(c: Rows, seed: int, walk: seq<int>)
    requires forall a, b :: Neighborhood.IsHop(FkLinks(c.foreignKeys) + DepLinks(c.dependencies), a, b) <==> Related(c, a, b)
    ensures Neighborhood.IsWalk(FkLinks(c.foreignKeys) + DepLinks(c.dependencies), {seed}, walk) <==> IsTrail(c, seed, walk)
  {
    hide FkLinks, DepLinks, Related;
  }

  lemma HopIsRelated(c: Rows, x: int, y: int)
    ensures Neighborhood.IsHop(FkLinks(c.foreignKeys) + DepLinks(c.dependencies), x, y) <==> Related(c, x, y)
  {
    FkLinkIn(c.foreignKeys, x, y);
    FkLinkIn(c.foreignKeys, y, x);
    DepLinkIn(c.dependencies, x, y);
    DepLinkIn(c.dependencies, y, x);
    hide FkLinks, DepLinks;
    SamePair(x, y);
  }

  lemma SamePair(x: int, y: int)
    ensures forall a: int, b: int :: {a, b} == {x, y} <==> (a == x && b == y) || (a == y && b == x)
  {
    forall a: int, b: int | {a, b} == {x, y} ensures (a == x && b == y) || (a == y && b == x) {
      assert a in {x, y} && b in {x, y} && x in {a, b} && y in {a, b};
    }
  }

  lemma FkLinkIn(fks: seq<FkRow>, x: int, y: int)
    ensures Neighborhood.Link(x, y) in FkLinks(fks) <==> exists f :: f in fks && f.parentId == x && f.referencedId == y
  {
    if f :| f in fks && f.parentId == x && f.referencedId == y {
      var i :| 0 <= i < |fks| && fks[i] == f;
      assert FkLinks(fks)[i] == Neighborhood.Link(x, y);
    }
  }

  lemma DepLinkIn(deps: seq<DependencyRow>, x: int, y: int)
    ensures Neighborhood.Link(x, y) in DepLinks(deps) <==> exists d :: d in deps && d.referencingId == x && d.referencedId == y
  {
    if d :| d in deps && d.referencingId == x && d.referencedId == y {
      var i :| 0 <= i < |deps| && deps[i] == d;
      assert DepLinks(deps)[i] == Neighborhood.Link(x, y);
    }
  }

  /** The neighbourhood graph of an entry object: discovery, then the build over the filtered rows. */
  method BuildTargeted(c: Rows, entry: EntryType, schema: string, name: string, maxDepth: int, defs: bool)
      returns (graph: MultiDiGraph, seed: Option<int>)
    ensures if seed.None? then forall x :: !IsEntry(c, entry, schema, name, x) else IsEntry(c, entry, schema, name, seed.value)
    ensures seed.None? ==> graph.Value() == Graph([], [])
    ensures seed.Some? ==> graph.Value() == Build(Filtered(c, Neighbourhood(c, seed.value, maxDepth)), defs)
    ensures seed.Some? && Consistent(c) ==> graph.Value() == Induced(Build(c, defs), Neighbourhood(c, seed.value, maxDepth))
  {
    seed := ResolveEntry(c, entry, schema, name);
    if seed.None? {
      graph := BuildGraph(Rows([], [], [], [], [], []), defs);
      return;
    }
    var ids := Neighborhood.DiscoverObjectIds(FkLinks(c.foreignKeys), DepLinks(c.dependencies), seed.value, maxDepth);
    graph := BuildGraph(Filtered(c, ids), defs);
    if Consistent(c) {
      FilteredBuildIsInduced(c, ids, defs);
    }
  }
}
