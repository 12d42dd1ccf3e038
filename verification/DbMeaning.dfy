/**
 What the built graph says about the catalog, row by row: which nodes there are and what their attributes mean, and
 which rows become edges.
 */
module DbMeaning {
  import opened Basics
  import opened Options
  import opened DbGraph
  import opened DbTargeted

  // ---- columns ----

  predicate KeyRowOf(p: PkRow, k: ColumnRow) {
    p.schema == k.schema && p.table == k.table && p.column == k.column
  }

  predicate RefersFrom(f: FkRow, k: ColumnRow) {
    f.parentSchema == k.schema && f.parentTable == k.table && f.parentColumn == k.column
  }

  predicate RefersTo(f: FkRow, k: ColumnRow) {
    f.referencedSchema == k.schema && f.referencedTable == k.table && f.referencedColumn == k.column
  }

  /** Row `i` is the last primary-key row of the column. */
  predicate LastKeyRow(pks: seq<PkRow>, k: ColumnRow, i: nat) {
    i < |pks| && KeyRowOf(pks[i], k) && forall j :: i < j < |pks| ==> !KeyRowOf(pks[j], k)
  }

  lemma {:induction false} PkForAt(pks: seq<PkRow>, k: ColumnRow) returns (i: nat)
    ensures PkFor(pks, KeyOf(k)).None? ==> forall p :: p in pks ==> !KeyRowOf(p, k)
    ensures PkFor(pks, KeyOf(k)).Some? ==> LastKeyRow(pks, k, i) && pks[i] == PkFor(pks, KeyOf(k)).value
  {
    i := 0;
    if pks != [] {
      var init, last := Init(pks), Last(pks);
      assert pks == init + [last];
      if KeyRowOf(last, k) {
        i := |init|;
      } else {
        i := PkForAt(init, k);
      }
    }
  }

  lemma PkForIs(pks: seq<PkRow>, k: ColumnRow)
    ensures PkFor(pks, KeyOf(k)).None? <==> forall p :: p in pks ==> !KeyRowOf(p, k)
    ensures forall p :: PkFor(pks, KeyOf(k)) == Some(p) <==> exists i: nat :: LastKeyRow(pks, k, i) && pks[i] == p
  {
    var at := PkForAt(pks, k);
    hide PkFor;
    if PkFor(pks, KeyOf(k)).Some? {
      assert pks[at] in pks;
      forall i: nat | LastKeyRow(pks, k, i) ensures i == at {
      }
    } else {
      forall i: nat ensures !LastKeyRow(pks, k, i) {
        assert i < |pks| ==> pks[i] in pks;
      }
    }
  }

  /** The attributes of a column, from the key rows. */
  ghost predicate ColumnMeans(c: Rows, k: ColumnRow, attrs: Attrs) {
    && attrs.ColumnAttrs? && attrs.column == k
    && (attrs.isForeignKey <==> exists f :: f in c.foreignKeys && RefersFrom(f, k))
    && (attrs.isReferencedKey <==> exists f :: f in c.foreignKeys && RefersTo(f, k))
    && (attrs.pk.None? <==> forall p :: p in c.primaryKeys ==> !KeyRowOf(p, k))
    && forall p :: attrs.pk == Some(p) <==> exists i: nat :: LastKeyRow(c.primaryKeys, k, i) && c.primaryKeys[i] == p
  }

  lemma AttrsMean(c: Rows, k: ColumnRow)
    ensures ColumnMeans(c, k, AttrsOf(k, c.primaryKeys, c.foreignKeys))
  {
    hide PkFor, LastKeyRow;
    PkForIs(c.primaryKeys, k);
    FlagsMean(c.foreignKeys, k);
  }

  lemma FlagsMean(fks: seq<FkRow>, k: ColumnRow)
    ensures KeyOf(k) in SourceColumns(fks) <==> exists f :: f in fks && RefersFrom(f, k)
    ensures KeyOf(k) in TargetColumns(fks) <==> exists f :: f in fks && RefersTo(f, k)
  {
  }

  lemma {:induction false} ColumnIsNode(columns: seq<ColumnRow>, pks: seq<PkRow>, fks: seq<FkRow>, n: GraphNode)
    ensures n in ColumnNodes(columns, pks, fks) <==> exists k :: k in columns && n == ColumnNode(k, pks, fks)
  {
    hide ColumnNode;
    if columns != [] {
      var init, last := Init(columns), Last(columns);
      assert columns == init + [last];
      ColumnIsNode(init, pks, fks, n);
    }
  }

  lemma {:induction false} TableNodesAre(tables: seq<TableRow>, n: GraphNode)
    ensures n in TableNodes(tables) <==> exists t :: t in tables && n == TableNode(t)
  {
    hide TableNode;
    if tables != [] {
      var init, last := Init(tables), Last(tables);
      assert tables == init + [last];
      TableNodesAre(init, n);
    }
  }

  /** A routine row that becomes a node, by its type code. */
  predicate IsProcedure(r: RoutineRow) { r.code == "P" || r.code == "PC" }

  predicate IsFunction(r: RoutineRow) {
    r.code == "FN" || r.code == "IF" || r.code == "TF" || r.code == "FS" || r.code == "FT"
  }

  predicate RoutineIs(r: RoutineRow, defs: bool, n: GraphNode) {
    || (IsProcedure(r) && n == GraphNode("procedure:" + r.schema + "." + r.name,
                                         RoutineAttrs(r, Procedure, if defs then Some(r.definition) else None)))
    || (IsFunction(r) && n == GraphNode("function:" + r.schema + "." + r.name,
                                        RoutineAttrs(r, Function, if defs then Some(r.definition) else None)))
  }

  lemma {:induction false} RoutineNodesAre(routines: seq<RoutineRow>, defs: bool, n: GraphNode)
    ensures n in RoutineNodes(routines, defs) <==> exists r :: r in routines && RoutineIs(r, defs, n)
  {
    if routines != [] {
      var init, last := Init(routines), Last(routines);
      assert routines == init + [last];
      RoutineNodesAre(init, defs, n);
      OneRoutine(last, defs, n);
      hide RoutineIs, KindOf, RoutineNode;
    }
  }

  lemma OneRoutine(r: RoutineRow, defs: bool, n: GraphNode)
    ensures RoutineIs(r, defs, n) <==> KindOf(r.code).Some? && n == RoutineNode(r, KindOf(r.code).value, defs)
  {
  }

  /** What a node of the graph is: a table, a column with its key flags, or a routine of a known type. */
  ghost predicate NodeMeans(c: Rows, defs: bool, n: GraphNode) {
    || (exists t :: t in c.tables && n == GraphNode("table:" + t.schema + "." + t.name, TableAttrs(t)))
    || (exists k :: k in c.columns && n.id == "column:" + k.schema + "." + k.table + "." + k.column && ColumnMeans(c, k, n.attrs))
    || (exists r :: r in c.routines && RoutineIs(r, defs, n))
  }

  /** The nodes of the build of a consistent catalog, each once. */
  lemma NodesMean(c: Rows, defs: bool, n: GraphNode)
    requires Consistent(c)
    ensures n in Build(c, defs).nodes <==> NodeMeans(c, defs, n)
    ensures forall i, j :: 0 <= i < j < |Build(c, defs).nodes| ==> Build(c, defs).nodes[i].id != Build(c, defs).nodes[j].id
  {
    BuildIsDeclared(c, defs);
    hide Build, Consistent, ColumnMeans, TableNodes, ColumnNodes, RoutineNodes, RoutineIs;
    TableNodesAre(c.tables, n);
    ColumnIsNode(c.columns, c.primaryKeys, c.foreignKeys, n);
    RoutineNodesAre(c.routines, defs, n);
    forall k | k in c.columns
      ensures n == ColumnNode(k, c.primaryKeys, c.foreignKeys)
              <==> n.id == "column:" + k.schema + "." + k.table + "." + k.column && ColumnMeans(c, k, n.attrs)
    {
      AttrsMean(c, k);
      if ColumnMeans(c, k, n.attrs) {
        MeaningIsOne(c, k, n.attrs, AttrsOf(k, c.primaryKeys, c.foreignKeys));
      }
    }
  }

  lemma MeaningIsOne(c: Rows, k: ColumnRow, a: Attrs, b: Attrs)
    requires ColumnMeans(c, k, a) && ColumnMeans(c, k, b)
    ensures a == b
  {
    hide LastKeyRow;
  }

  /** The node of a column, and what its three key flags say. */
  lemma ColumnFlags(c: Rows, defs: bool, k: ColumnRow) returns (n: GraphNode)
    requires Consistent(c) && k in c.columns
    ensures n in Build(c, defs).nodes && n.id == "column:" + k.schema + "." + k.table + "." + k.column
    ensures n.attrs.ColumnAttrs? && n.attrs.column == k
    ensures n.attrs.isForeignKey <==> exists f :: f in c.foreignKeys && RefersFrom(f, k)
    ensures n.attrs.isReferencedKey <==> exists f :: f in c.foreignKeys && RefersTo(f, k)
    ensures forall p :: n.attrs.pk == Some(p) <==> exists i: nat :: LastKeyRow(c.primaryKeys, k, i) && c.primaryKeys[i] == p
    ensures forall m :: m in Build(c, defs).nodes && m.id == n.id ==> m == n
  {
    hide Build, Consistent, LastKeyRow;
    AttrsMean(c, k);
    n := GraphNode("column:" + k.schema + "." + k.table + "." + k.column, AttrsOf(k, c.primaryKeys, c.foreignKeys));
    hide AttrsOf;
    NodesMean(c, defs, n);
  }

  // ---- edges ----

  predicate StoreIs(k: ColumnRow, e: GraphEdge) {
    e == GraphEdge("table:" + k.schema + "." + k.table, "column:" + k.schema + "." + k.table + "." + k.column, Stores(k.columnId))
  }

  lemma {:induction false} StoresAre(columns: seq<ColumnRow>)
    ensures |StoresEdges(columns)| == |columns|
    ensures forall i :: 0 <= i < |columns| ==> StoreIs(columns[i], StoresEdges(columns)[i])
  {
    if columns != [] {
      StoresAre(Init(columns));
      assert forall i :: 0 <= i < |columns| - 1 ==> Init(columns)[i] == columns[i];
    }
  }

  predicate LinkIs(f: FkRow, e: GraphEdge) {
    e == GraphEdge("column:" + f.parentSchema + "." + f.parentTable + "." + f.parentColumn,
                   "column:" + f.referencedSchema + "." + f.referencedTable + "." + f.referencedColumn, Links(f.info))
  }

  predicate LinkEndsThere(nodes: seq<GraphNode>, f: FkRow) {
    && HasNode(nodes, "column:" + f.parentSchema + "." + f.parentTable + "." + f.parentColumn)
    && HasNode(nodes, "column:" + f.referencedSchema + "." + f.referencedTable + "." + f.referencedColumn)
  }

  ghost predicate LinksFrom(nodes: seq<GraphNode>, fks: seq<FkRow>, edges: seq<GraphEdge>, at: seq<nat>) {
    && |at| == |edges| && Rising(at, |fks|)
    && (forall i :: 0 <= i < |at| ==> LinkIs(fks[at[i]], edges[i]))
    && forall k: nat :: k < |fks| ==> (k in at <==> LinkEndsThere(nodes, fks[k]))
  }

  lemma LinksMore(nodes: seq<GraphNode>, fks: seq<FkRow>, f: FkRow, edges: seq<GraphEdge>, at: seq<nat>, e: GraphEdge)
    requires LinksFrom(nodes, fks, edges, at)
    ensures !LinkEndsThere(nodes, f) ==> LinksFrom(nodes, fks + [f], edges, at)
    ensures LinkEndsThere(nodes, f) && LinkIs(f, e) ==> LinksFrom(nodes, fks + [f], edges + [e], at + [|fks|])
  {
    hide LinkIs, LinkEndsThere;
    RisingMore(at, |fks|);
    assert Rising(at, |fks|);
    hide Rising;
  }

  /** Each foreign-key row whose two columns are there gives one edge, in row order. */
  lemma {:induction false} LinksAre(nodes: seq<GraphNode>, fks: seq<FkRow>) returns (at: seq<nat>)
    ensures LinksFrom(nodes, fks, LinkEdges(nodes, fks), at)
  {
    if fks == [] {
      at := [];
    } else {
      hide LinksFrom, LinkIs, LinkEndsThere, FkSource, FkTarget, HasNode;
      var init, last := Init(fks), Last(fks);
      at := LinksAre(nodes, init);
      OneLink(nodes, last);
      assert fks == init + [last];
      LinksMore(nodes, init, last, LinkEdges(nodes, init), at, GraphEdge(FkSource(last), FkTarget(last), Links(last.info)));
      if LinkEndsThere(nodes, last) {
        at := at + [|init|];
      }
    }
  }

  lemma OneLink(nodes: seq<GraphNode>, f: FkRow)
    ensures LinkEndsThere(nodes, f) <==> HasNode(nodes, FkSource(f)) && HasNode(nodes, FkTarget(f))
    ensures LinkIs(f, GraphEdge(FkSource(f), FkTarget(f), Links(f.info)))
  {
  }

  /** The routine of a dependency: the last row of that object that becomes a node. */
  predicate LastRoutine(routines: seq<RoutineRow>, id: int, i: nat) {
    && i < |routines| && routines[i].objectId == id && (IsProcedure(routines[i]) || IsFunction(routines[i]))
    && forall j :: i < j < |routines| && routines[j].objectId == id ==> !IsProcedure(routines[j]) && !IsFunction(routines[j])
  }

  function RoutineName(r: RoutineRow): string {
    (if IsProcedure(r) then "procedure:" else "function:") + r.schema + "." + r.name
  }

  lemma {:induction false} RoutineForIs(routines: seq<RoutineRow>, id: int)
    ensures RoutineFor(routines, id).Some? <==> exists i: nat :: LastRoutine(routines, id, i)
    ensures forall i: nat :: LastRoutine(routines, id, i) ==> RoutineFor(routines, id) == Some(RoutineName(routines[i]))
  {
    if routines != [] {
      var init, last := Init(routines), Last(routines);
      RoutineForIs(init, id);
      KindIs(last);
      if last.objectId == id && KindOf(last.code).Some? {
        assert LastRoutine(routines, id, |init|);
      } else {
        hide KindOf, RoutineName, IsProcedure, IsFunction;
        forall i: nat ensures LastRoutine(init, id, i) <==> LastRoutine(routines, id, i) {
          SameLastRoutine(routines, id, i);
        }
      }
    }
  }

  lemma SameLastRoutine(routines: seq<RoutineRow>, id: int, i: nat)
    requires routines != []
    requires !(Last(routines).objectId == id && (IsProcedure(Last(routines)) || IsFunction(Last(routines))))
    ensures LastRoutine(Init(routines), id, i) <==> LastRoutine(routines, id, i)
  {
    hide IsProcedure, IsFunction;
    assert forall j :: 0 <= j < |routines| - 1 ==> Init(routines)[j] == routines[j];
  }

  lemma KindIs(r: RoutineRow)
    ensures KindOf(r.code).Some? <==> IsProcedure(r) || IsFunction(r)
    ensures KindOf(r.code).Some? ==> RoutineId(KindOf(r.code).value, r.schema, r.name) == RoutineName(r)
  {
  }

  /** The object a dependency row names: a column when it names one, else a table. */
  function DependsOn(d: DependencyRow): string {
    if d.referencedColumn == "" then "table:" + d.referencedSchema + "." + d.referencedTable
    else "column:" + d.referencedSchema + "." + d.referencedTable + "." + d.referencedColumn
  }

  ghost predicate Resolves(nodes: seq<GraphNode>, routines: seq<RoutineRow>, d: DependencyRow) {
    && d.referencedSchema != "" && d.referencedTable != "" && HasNode(nodes, DependsOn(d))
    && exists i: nat :: LastRoutine(routines, d.referencingId, i)
  }

  ghost predicate CreateIs(routines: seq<RoutineRow>, d: DependencyRow, e: GraphEdge) {
    && e.target == DependsOn(d) && e.attrs == Creates(d.referencedColumn != "", d.info)
    && forall i: nat :: LastRoutine(routines, d.referencingId, i) ==> e.source == RoutineName(routines[i])
  }

  /** The edges are those of the rows at these positions, in order, and the rows left out do not resolve. */
  ghost predicate CreatesFrom(nodes: seq<GraphNode>, routines: seq<RoutineRow>, deps: seq<DependencyRow>,
                              edges: seq<GraphEdge>, at: seq<nat>) {
    && |at| == |edges| && Rising(at, |deps|)
    && (forall i :: 0 <= i < |at| ==> CreateIs(routines, deps[at[i]], edges[i]))
    && forall k: nat :: k < |deps| ==> (k in at <==> Resolves(nodes, routines, deps[k]))
  }

  lemma CreatesMore(nodes: seq<GraphNode>, routines: seq<RoutineRow>, deps: seq<DependencyRow>, d: DependencyRow,
                    edges: seq<GraphEdge>, at: seq<nat>, e: GraphEdge)
    requires CreatesFrom(nodes, routines, deps, edges, at)
    ensures !Resolves(nodes, routines, d) ==> CreatesFrom(nodes, routines, deps + [d], edges, at)
    ensures Resolves(nodes, routines, d) && CreateIs(routines, d, e) ==>
      CreatesFrom(nodes, routines, deps + [d], edges + [e], at + [|deps|])
  {
    hide CreateIs, Resolves;
    RisingMore(at, |deps|);
    assert Rising(at, |deps|);
    hide Rising;
  }

  /** Each dependency row whose routine and object are there gives one edge, in row order. */
  lemma {:induction false} CreatesAre(nodes: seq<GraphNode>, routines: seq<RoutineRow>, deps: seq<DependencyRow>) returns (at: seq<nat>)
    ensures CreatesFrom(nodes, routines, deps, CreateEdges(nodes, routines, deps), at)
  {
    if deps == [] {
      at := [];
    } else {
      hide CreatesFrom, CreateIs, Resolves, MakesEdge, DepTarget, RoutineFor;
      var init, last := Init(deps), Last(deps);
      at := CreatesAre(nodes, routines, init);
      OneCreate(nodes, routines, last);
      assert deps == init + [last];
      var e := GraphEdge(if RoutineFor(routines, last.referencingId).Some? then RoutineFor(routines, last.referencingId).value else "",
                         DepTarget(last), Creates(last.referencedColumn != "", last.info));
      CreatesMore(nodes, routines, init, last, CreateEdges(nodes, routines, init), at, e);
      if Resolves(nodes, routines, last) {
        at := at + [|init|];
      }
    }
  }

  lemma OneCreate(nodes: seq<GraphNode>, routines: seq<RoutineRow>, d: DependencyRow)
    ensures Resolves(nodes, routines, d) <==> MakesEdge(nodes, routines, d)
    ensures MakesEdge(nodes, routines, d) ==>
      CreateIs(routines, d, GraphEdge(RoutineFor(routines, d.referencingId).value, DepTarget(d), Creates(d.referencedColumn != "", d.info)))
  {
    hide LastRoutine, RoutineFor, HasNode;
    RoutineForIs(routines, d.referencingId);
  }

  lemma ColumnsAreEarly(c: Rows, defs: bool, f: FkRow)
    ensures LinkEndsThere(Nodes(c, defs), f) <==> LinkEndsThere(SchemaNodes(c), f)
  {
    var from := "column:" + f.parentSchema + "." + f.parentTable + "." + f.parentColumn;
    var to := "column:" + f.referencedSchema + "." + f.referencedTable + "." + f.referencedColumn;
    HasNodeConcat(SchemaNodes(c), RoutineNodes(c.routines, defs), from);
    HasNodeConcat(SchemaNodes(c), RoutineNodes(c.routines, defs), to);
    NotARoutine(c.routines, defs, from);
    NotARoutine(c.routines, defs, to);
  }

  lemma NotARoutine(routines: seq<RoutineRow>, defs: bool, id: string)
    requires id != "" && id[0] == 'c'
    ensures !HasNode(RoutineNodes(routines, defs), id)
  {
    var nodes := RoutineNodes(routines, defs);
    hide RoutineNodes, RoutineIs;
    forall i | 0 <= i < |nodes| ensures nodes[i].id != id {
      RoutineNodesAre(routines, defs, nodes[i]);
      var r :| r in routines && RoutineIs(r, defs, nodes[i]);
      RoutineInitial(r, defs, nodes[i]);
    }
  }

  lemma RoutineInitial(r: RoutineRow, defs: bool, n: GraphNode)
    requires RoutineIs(r, defs, n)
    ensures n.id != "" && n.id[0] != 'c'
  {
  }

  /**
   The edges of the build of a consistent catalog: one from its table for each column row, then one for each foreign-key
   row whose columns are there, then one for each dependency row whose routine and object are there; each in row order.
   */
  lemma EdgesMean(c: Rows, defs: bool)
      returns (stores: seq<GraphEdge>, links: seq<GraphEdge>, creates: seq<GraphEdge>, linkRows: seq<nat>, createRows: seq<nat>)
    requires Consistent(c)
    ensures Build(c, defs).edges == stores + links + creates
    ensures |stores| == |c.columns| && forall i :: 0 <= i < |stores| ==> StoreIs(c.columns[i], stores[i])
    ensures LinksFrom(Build(c, defs).nodes, c.foreignKeys, links, linkRows)
    ensures CreatesFrom(Build(c, defs).nodes, c.routines, c.dependencies, creates, createRows)
  {
    BuildIsDeclared(c, defs);
    hide Build, Consistent, StoresEdges, LinkEdges, CreateEdges, StoreIs, LinkIs, CreateIs, LinkEndsThere, Resolves, SchemaNodes, Nodes;
    stores, links := StoresEdges(c.columns), LinkEdges(SchemaNodes(c), c.foreignKeys);
    creates := CreateEdges(Nodes(c, defs), c.routines, c.dependencies);
    StoresAre(c.columns);
    linkRows := LinksAre(SchemaNodes(c), c.foreignKeys);
    createRows := CreatesAre(Nodes(c, defs), c.routines, c.dependencies);
    forall k: nat | k < |c.foreignKeys|
      ensures LinkEndsThere(Nodes(c, defs), c.foreignKeys[k]) <==> LinkEndsThere(SchemaNodes(c), c.foreignKeys[k])
    {
      ColumnsAreEarly(c, defs, c.foreignKeys[k]);
    }
  }
}
