/**
 The database schema graph (mcp/db_tools/build_db_graph.py): catalog rows, the WHERE filters of the targeted
 queries, and the build that turns six row lists into a directed multigraph.

 Row fields the build only copies into attributes are the one field `info`; absent text is "".
 */
module DbGraph {
  import opened Basics
  import opened Options

  datatype TableRow = TableRow(objectId: int, schema: string, name: string, info: string)
  datatype ColumnRow = ColumnRow(tableObjectId: int, schema: string, table: string, column: string, columnId: int, info: string)
  datatype PkRow = PkRow(objectId: int, schema: string, table: string, column: string, constraint: string, ordinal: int)
  datatype FkRow = FkRow(
    parentId: int, parentSchema: string, parentTable: string, parentColumn: string,
    referencedId: int, referencedSchema: string, referencedTable: string, referencedColumn: string, info: string)
  datatype RoutineRow = RoutineRow(objectId: int, schema: string, name: string, code: string, definition: string, info: string)
  datatype DependencyRow = DependencyRow(
    referencingId: int, referencedId: int, referencedSchema: string, referencedTable: string, referencedColumn: string, info: string)

  datatype Rows = Rows(
    tables: seq<TableRow>, columns: seq<ColumnRow>, primaryKeys: seq<PkRow>,
    foreignKeys: seq<FkRow>, routines: seq<RoutineRow>, dependencies: seq<DependencyRow>)

  // ---- the filtered queries ----

  function Keep<R(!new)>(rows: seq<R>, test: R -> bool): (kept: seq<R>)
    ensures forall r :: r in kept <==> r in rows && test(r)
  {
    if rows == [] then []
    else
      assert rows == Init(rows) + [Last(rows)];
      if test(Last(rows)) then Keep(Init(rows), test) + [Last(rows)] else Keep(Init(rows), test)
  }

  /** The six filtered queries over one set of object ids; relations match on either side. */
  function Filtered(c: Rows, ids: set<int>): Rows {
    Rows(
      Keep(c.tables, (t: TableRow) => t.objectId in ids),
      Keep(c.columns, (k: ColumnRow) => k.tableObjectId in ids),
      Keep(c.primaryKeys, (p: PkRow) => p.objectId in ids),
      Keep(c.foreignKeys, (f: FkRow) => f.parentId in ids || f.referencedId in ids),
      Keep(c.routines, (r: RoutineRow) => r.objectId in ids),
      Keep(c.dependencies, (d: DependencyRow) => d.referencingId in ids || d.referencedId in ids))
  }

  // ---- node ids ----

  function TableId(schema: string, table: string): string { "table:" + schema + "." + table }

  function ColumnId(schema: string, table: string, column: string): string {
    "column:" + schema + "." + table + "." + column
  }

  datatype RoutineKind = Procedure | Function

  function RoutineId(kind: RoutineKind, schema: string, name: string): string {
    (if kind == Procedure then "procedure:" else "function:") + schema + "." + name
  }

  function KindOf(code: string): Option<RoutineKind> {
    if code in {"P", "PC"} then Some(Procedure)
    else if code in {"FN", "IF", "TF", "FS", "FT"} then Some(Function)
    else None
  }

  // ---- the multigraph ----

  type Key = (string, string, string)

  datatype Attrs =
    | Bare
    | TableAttrs(table: TableRow)
    | ColumnAttrs(column: ColumnRow, pk: Option<PkRow>, isForeignKey: bool, isReferencedKey: bool)
    | RoutineAttrs(routine: RoutineRow, kind: RoutineKind, definition: Option<string>)

  datatype EdgeAttrs =
    | Stores(ordinal: int)
    | Links(fkInfo: string)
    | Creates(targetIsColumn: bool, depInfo: string)

  datatype GraphNode = GraphNode(id: string, attrs: Attrs)
  datatype GraphEdge = GraphEdge(source: string, target: string, attrs: EdgeAttrs)

  /** Nodes in insertion order, ids distinct; edges in insertion order. */
  datatype Graph = Graph(nodes: seq<GraphNode>, edges: seq<GraphEdge>)

  predicate HasNode(nodes: seq<GraphNode>, id: string) {
    exists i :: 0 <= i < |nodes| && nodes[i].id == id
  }

  function PutNode(nodes: seq<GraphNode>, id: string, attrs: Attrs): seq<GraphNode> {
    if !HasNode(nodes, id) then nodes + [GraphNode(id, attrs)]
    else if Last(nodes).id == id then Init(nodes) + [GraphNode(id, attrs)]
    else PutNode(Init(nodes), id, attrs) + [Last(nodes)]
  }

  /** A node put under a new id goes behind the others; under a known one it takes that node's place. */
  lemma {:induction false} PutNodeMeans(nodes: seq<GraphNode>, id: string, attrs: Attrs) returns (i: nat)
    ensures i <= |nodes| && (i == |nodes| <==> !HasNode(nodes, id)) && (i < |nodes| ==> nodes[i].id == id)
    ensures PutNode(nodes, id, attrs) == if i < |nodes| then nodes[i := GraphNode(id, attrs)] else nodes + [GraphNode(id, attrs)]
    ensures forall j :: i < j < |nodes| ==> nodes[j].id != id
  {
    if !HasNode(nodes, id) {
      i := |nodes|;
    } else if Last(nodes).id == id {
      i := |nodes| - 1;
    } else {
      i := PutNodeMeans(Init(nodes), id, attrs);
    }
  }

  /** An edge to an unknown node adds the node, without attributes. */
  function PutEdge(g: Graph, source: string, target: string, attrs: EdgeAttrs): Graph {
    var n1 := if HasNode(g.nodes, source) then g.nodes else PutNode(g.nodes, source, Bare);
    var n2 := if HasNode(n1, target) then n1 else PutNode(n1, target, Bare);
    Graph(n2, g.edges + [GraphEdge(source, target, attrs)])
  }

  class MultiDiGraph {
    var nodes: seq<GraphNode>
    var edges: seq<GraphEdge>

    ghost function Value(): Graph
      reads this
    {
      Graph(nodes, edges)
    }

    constructor ()
      ensures Value() == Graph([], [])
    {
      nodes, edges := [], [];
    }

    predicate Contains(id: string)
      reads this
    {
      HasNode(nodes, id)
    }

    method AddNode(id: string, attrs: Attrs)
      modifies this
      ensures Value() == Graph(PutNode(old(nodes), id, attrs), old(edges))
    {
      nodes := PutNode(nodes, id, attrs);
    }

    method AddEdge(source: string, target: string, attrs: EdgeAttrs)
      modifies this
      ensures Value() == PutEdge(old(Value()), source, target, attrs)
    {
      if !Contains(source) {
        AddNode(source, Bare);
      }
      if !Contains(target) {
        AddNode(target, Bare);
      }
      edges := edges + [GraphEdge(source, target, attrs)];
    }
  }

  // ---- what each loop of the build does ----

  function KeyOf(k: ColumnRow): Key { (k.schema, k.table, k.column) }

  /** The primary-key row of a column; a later row of the same column wins. */
  function PkFor(pks: seq<PkRow>, key: Key): Option<PkRow> {
    if pks == [] then None
    else if (Last(pks).schema, Last(pks).table, Last(pks).column) == key then Some(Last(pks))
    else PkFor(Init(pks), key)
  }

  function SourceColumns(fks: seq<FkRow>): set<Key> {
    set fk | fk in fks :: (fk.parentSchema, fk.parentTable, fk.parentColumn)
  }

  function TargetColumns(fks: seq<FkRow>): set<Key> {
    set fk | fk in fks :: (fk.referencedSchema, fk.referencedTable, fk.referencedColumn)
  }

  function AttrsOf(k: ColumnRow, pks: seq<PkRow>, fks: seq<FkRow>): Attrs {
    ColumnAttrs(k, PkFor(pks, KeyOf(k)), KeyOf(k) in SourceColumns(fks), KeyOf(k) in TargetColumns(fks))
  }

  function IdOfColumn(k: ColumnRow): string { ColumnId(k.schema, k.table, k.column) }

  function AddTables(g: Graph, tables: seq<TableRow>): Graph {
    if tables == [] then g
    else
      var t, sofar := Last(tables), AddTables(g, Init(tables));
      sofar.(nodes := PutNode(sofar.nodes, TableId(t.schema, t.name), TableAttrs(t)))
  }

  function AddColumns(g: Graph, columns: seq<ColumnRow>, pks: seq<PkRow>, fks: seq<FkRow>): Graph {
    if columns == [] then g
    else
      var k, sofar := Last(columns), AddColumns(g, Init(columns), pks, fks);
      var withNode := sofar.(nodes := PutNode(sofar.nodes, IdOfColumn(k), AttrsOf(k, pks, fks)));
      PutEdge(withNode, TableId(k.schema, k.table), IdOfColumn(k), Stores(k.columnId))
  }

  function FkSource(fk: FkRow): string { ColumnId(fk.parentSchema, fk.parentTable, fk.parentColumn) }

  function FkTarget(fk: FkRow): string { ColumnId(fk.referencedSchema, fk.referencedTable, fk.referencedColumn) }

  function AddLinks(g: Graph, fks: seq<FkRow>): Graph {
    if fks == [] then g
    else
      var fk, sofar := Last(fks), AddLinks(g, Init(fks));
      if !HasNode(sofar.nodes, FkSource(fk)) || !HasNode(sofar.nodes, FkTarget(fk)) then sofar
      else PutEdge(sofar, FkSource(fk), FkTarget(fk), Links(fk.info))
  }

  function AttrsOfRoutine(r: RoutineRow, kind: RoutineKind, defs: bool): Attrs {
    RoutineAttrs(r, kind, if defs then Some(r.definition) else None)
  }

  function AddRoutines(g: Graph, routines: seq<RoutineRow>, defs: bool): Graph {
    if routines == [] then g
    else
      var r, sofar := Last(routines), AddRoutines(g, Init(routines), defs);
      match KindOf(r.code)
      case None => sofar
      case Some(kind) =>
        sofar.(nodes := PutNode(sofar.nodes, RoutineId(kind, r.schema, r.name), AttrsOfRoutine(r, kind, defs)))
  }

  /** The routine node registered for an object id; a later row of the same id wins. */
  function RoutineFor(routines: seq<RoutineRow>, objectId: int): Option<string> {
    if routines == [] then None
    else
      var r := Last(routines);
      if r.objectId == objectId && KindOf(r.code).Some? then Some(RoutineId(KindOf(r.code).value, r.schema, r.name))
      else RoutineFor(Init(routines), objectId)
  }

  function DepTarget(d: DependencyRow): string {
    if d.referencedColumn != "" then ColumnId(d.referencedSchema, d.referencedTable, d.referencedColumn)
    else TableId(d.referencedSchema, d.referencedTable)
  }

  /** A dependency becomes an edge when its routine and its target are in the graph. */
  predicate MakesEdge(nodes: seq<GraphNode>, routines: seq<RoutineRow>, d: DependencyRow) {
    && RoutineFor(routines, d.referencingId).Some?
    && d.referencedSchema != "" && d.referencedTable != ""
    && HasNode(nodes, DepTarget(d))
  }

  function AddCreates(g: Graph, routines: seq<RoutineRow>, deps: seq<DependencyRow>): Graph {
    if deps == [] then g
    else
      var d, sofar := Last(deps), AddCreates(g, routines, Init(deps));
      if !MakesEdge(sofar.nodes, routines, d) then sofar
      else PutEdge(sofar, RoutineFor(routines, d.referencingId).value, DepTarget(d), Creates(d.referencedColumn != "", d.info))
  }

  function Build(c: Rows, defs: bool): Graph {
    var withTables := AddTables(Graph([], []), c.tables);
    var withColumns := AddColumns(withTables, c.columns, c.primaryKeys, c.foreignKeys);
    var withLinks := AddLinks(withColumns, c.foreignKeys);
    var withRoutines := AddRoutines(withLinks, c.routines, defs);
    AddCreates(withRoutines, c.routines, c.dependencies)
  }

  /** The build, loop by loop, over the row lists of a query run. */
  method BuildGraph(c: Rows, includeDefs: bool) returns (graph: MultiDiGraph)
    ensures fresh(graph) && graph.Value() == Build(c, includeDefs)
  {
    graph := new MultiDiGraph();
    var pkLookup := map[];
    for i := 0 to |c.primaryKeys|
      invariant forall key :: PkFor(c.primaryKeys[..i], key) == if key in pkLookup then Some(pkLookup[key]) else None
    {
      assert Init(c.primaryKeys[..i + 1]) == c.primaryKeys[..i];
      var pk := c.primaryKeys[i];
      pkLookup := pkLookup[(pk.schema, pk.table, pk.column) := pk];
    }
    assert c.primaryKeys[..|c.primaryKeys|] == c.primaryKeys;
    var fkSources, fkTargets := SourceColumns(c.foreignKeys), TargetColumns(c.foreignKeys);

    for i := 0 to |c.tables|
      invariant fresh(graph) && graph.Value() == AddTables(Graph([], []), c.tables[..i])
    {
      assert Init(c.tables[..i + 1]) == c.tables[..i];
      var table := c.tables[i];
      graph.AddNode(TableId(table.schema, table.name), TableAttrs(table));
    }
    assert c.tables[..|c.tables|] == c.tables;

    ghost var g := graph.Value();
    for i := 0 to |c.columns|
      invariant fresh(graph) && graph.Value() == AddColumns(g, c.columns[..i], c.primaryKeys, c.foreignKeys)
    {
      assert Init(c.columns[..i + 1]) == c.columns[..i];
      var column := c.columns[i];
      var key := KeyOf(column);
      var pk := if key in pkLookup then Some(pkLookup[key]) else None;
      graph.AddNode(IdOfColumn(column), ColumnAttrs(column, pk, key in fkSources, key in fkTargets));
      graph.AddEdge(TableId(column.schema, column.table), IdOfColumn(column), Stores(column.columnId));
    }
    assert c.columns[..|c.columns|] == c.columns;

    AddLinkEdges(graph, c.foreignKeys);
    var routineNodes := AddRoutineNodes(graph, c.routines, includeDefs);
    AddDependencyEdges(graph, c.routines, c.dependencies, routineNodes);
  }

  method AddLinkEdges(graph: MultiDiGraph, fks: seq<FkRow>)
    modifies graph
    ensures graph.Value() == AddLinks(old(graph.Value()), fks)
  {
    for i := 0 to |fks|
      invariant graph.Value() == AddLinks(old(graph.Value()), fks[..i])
    {
      assert Init(fks[..i + 1]) == fks[..i];
      if !graph.Contains(FkSource(fks[i])) || !graph.Contains(FkTarget(fks[i])) {
        continue;
      }
      graph.AddEdge(FkSource(fks[i]), FkTarget(fks[i]), Links(fks[i].info));
    }
    assert fks[..|fks|] == fks;
  }

  method AddRoutineNodes(graph: MultiDiGraph, routines: seq<RoutineRow>, defs: bool) returns (byObjectId: map<int, string>)
    modifies graph
    ensures graph.Value() == AddRoutines(old(graph.Value()), routines, defs)
    ensures forall id :: RoutineFor(routines, id) == if id in byObjectId then Some(byObjectId[id]) else None
  {
    byObjectId := map[];
    for i := 0 to |routines|
      invariant graph.Value() == AddRoutines(old(graph.Value()), routines[..i], defs)
      invariant forall id :: RoutineFor(routines[..i], id) == if id in byObjectId then Some(byObjectId[id]) else None
    {
      assert Init(routines[..i + 1]) == routines[..i];
      var r := routines[i];
      if KindOf(r.code).None? {
        continue;
      }
      var nodeId := RoutineId(KindOf(r.code).value, r.schema, r.name);
      byObjectId := byObjectId[r.objectId := nodeId];
      graph.AddNode(nodeId, AttrsOfRoutine(r, KindOf(r.code).value, defs));
    }
    assert routines[..|routines|] == routines;
  }

  method AddDependencyEdges(graph: MultiDiGraph, ghost routines: seq<RoutineRow>, deps: seq<DependencyRow>, byObjectId: map<int, string>)
    requires forall id :: RoutineFor(routines, id) == if id in byObjectId then Some(byObjectId[id]) else None
    modifies graph
    ensures graph.Value() == AddCreates(old(graph.Value()), routines, deps)
  {
    for i := 0 to |deps|
      invariant graph.Value() == AddCreates(old(graph.Value()), routines, deps[..i])
    {
      assert Init(deps[..i + 1]) == deps[..i];
      var d := deps[i];
      if d.referencingId !in byObjectId {
        continue;
      }
      if d.referencedSchema == "" || d.referencedTable == "" {
        continue;
      }
      if !graph.Contains(DepTarget(d)) {
        continue;
      }
      graph.AddEdge(byObjectId[d.referencingId], DepTarget(d), Creates(d.referencedColumn != "", d.info));
    }
    assert deps[..|deps|] == deps;
  }
}
