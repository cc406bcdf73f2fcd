/** Planner and mapper agree on where cells lie: the cells of a planned shard's window are mapped into the shard's own box,
    side by side, and together they are the planned extent. */
module CellsInShards {
  import opened Prelude
  import opened Sequences
  import opened GridFrames
  import opened GridMapping
  import opened MappedCells
  import Planning = ShardPlanning
  import Validation = ShardValidation
  import Assembly = ShardAssembly
  import Loading = ShardLoading
  import Snapping = WindowSnapping

  /** What a request plans with: the mapping's geometry. */
  function GeometryIn(m: Mapping): Planning.Geometry
    requires Indexed(m)
  {
    Planning.Geometry(m.originLat.value, m.originLon.value, m.unitsPerDegree.value, m.baseResolution.value)
  }

  /** The side of a cell in degrees: as many base cells as the resolution says. */
  predicate CellSide(m: Mapping, resolution: real, side: real)
    requires Indexed(m)
  {
    side * m.unitsPerDegree.value * m.baseResolution.value == resolution
  }

  /** So many cells along an axis. */
  function Along(slots: int, side: real): real { slots as real * side }

  /** The box of slot (row, column) of a coverage, counted from its north-west corner. */
  predicate BoxOfSlot(coverage: Planning.Bounds, row: int, column: int, side: real, box: Box) {
    && box.north == coverage.north - Along(row, side) && box.south == coverage.north - Along(row + 1, side)
    && box.west == coverage.west + Along(column, side) && box.east == coverage.west + Along(column + 1, side)
  }

  lemma SideUnique(units: real, base: real, a: real, b: real)
    requires units > 0.0 && base > 0.0 && a * units * base == b * units * base
    ensures a == b
  {
    var x, y := a * units, b * units;
    assert (x - y) * base == 0.0;
    assert (a - b) * units == 0.0;
  }

  lemma EqualWhenScaled(a: real, b: real, units: real)
    requires units > 0.0 && a * units == b * units
    ensures a == b
  {
    assert (a - b) * units == 0.0;
  }

  /** The mapper puts the source cell that the planner numbers for a slot into the box of that slot. */
  lemma SlotIsPlaced(m: Mapping, coverage: Planning.Bounds, resolution: real, grid: Planning.Grid, row: int, column: int, side: real, box: Box)
    requires Indexed(m) && CellSide(m, resolution, side)
    requires grid.rowIndexStart == (m.originLat.value - coverage.north) * m.unitsPerDegree.value
    requires grid.columnIndexStart == (coverage.west - m.originLon.value) * m.unitsPerDegree.value
    requires grid.indexStep * m.baseResolution.value == resolution
    requires BoxOfIndex(m, Planning.RowIndex(grid, row), Planning.ColumnIndex(grid, column), resolution, box)
    ensures BoxOfSlot(coverage, row, column, side, box)
  {
    var units, base := m.unitsPerDegree.value, m.baseResolution.value;
    var high, wide := box.north - box.south, box.east - box.west;
    SideUnique(units, base, high, side);
    SideUnique(units, base, wide, side);
    EqualWhenScaled(side * units, grid.indexStep, base);
    hide BoxOfIndex, Along;
    OnAxis(m.originLat.value - box.north, m.originLat.value - coverage.north, units, row, grid.indexStep, side);
    OnAxis(box.west - m.originLon.value, coverage.west - m.originLon.value, units, column, grid.indexStep, side);
    OneFurther(row, side);
    OneFurther(column, side);
  }

  /** A point as many steps past the start of an axis as the slot has cells before it. */
  lemma OnAxis(x: real, start: real, units: real, slot: int, step: real, side: real)
    requires units > 0.0 && side * units == step && x * units == start * units + slot as real * step
    ensures x == start + Along(slot, side)
  {
    var d := Along(slot, side);
    assert d * units == slot as real * step;
    Distribute(start, d, units);
    EqualWhenScaled(x, start + d, units);
  }

  lemma Distribute(a: real, b: real, units: real)
    ensures (a + b) * units == a * units + b * units
  {
  }

  lemma OneFurther(slot: int, side: real)
    ensures Along(slot + 1, side) == Along(slot, side) + side
  {
  }

  /** The window of a plan covers exactly its slots: its corners are those of its first and last ones. */
  ghost predicate ExtentOfSlots(coverage: Planning.Bounds, grid: Planning.Grid, side: real) {
    && grid.snapped.north == coverage.north - Along(grid.rowStart, side)
    && grid.snapped.south == coverage.north - Along(grid.rowStop, side)
    && grid.snapped.west == coverage.west + Along(grid.columnStart, side)
    && grid.snapped.east == coverage.west + Along(grid.columnStop, side)
  }

  lemma PlannedAxes(m: Mapping, viewport: Option<Planning.Bounds>, coverage: Planning.Bounds, resolution: real, grid: Planning.Grid, side: real)
    requires Indexed(m) && CellSide(m, resolution, side)
    requires Planning.SnapGrid(viewport, coverage, resolution, GeometryIn(m)) == Ok(grid)
    ensures resolution > 0.0 && side > 0.0
    ensures grid.rowIndexStart == (m.originLat.value - coverage.north) * m.unitsPerDegree.value
    ensures grid.columnIndexStart == (coverage.west - m.originLon.value) * m.unitsPerDegree.value
    ensures grid.indexStep * m.baseResolution.value == resolution
    ensures ExtentOfSlots(coverage, grid, side)
  {
    hide Planning.SnapGrid, Planning.CellSpan, GeometryIn, CellSide, ExtentOfSlots;
    PlannedIndexes(m, viewport, coverage, resolution, grid);
    DivideBack(resolution, m.baseResolution.value);
    Snapping.SnapParts(viewport, coverage, resolution, GeometryIn(m));
    PlannedSide(m, resolution, side);
    PlannedExtent(viewport, coverage, resolution, GeometryIn(m), grid);
  }

  lemma PlannedIndexes(m: Mapping, viewport: Option<Planning.Bounds>, coverage: Planning.Bounds, resolution: real, grid: Planning.Grid)
    requires Indexed(m) && Planning.SnapGrid(viewport, coverage, resolution, GeometryIn(m)) == Ok(grid)
    ensures grid.rowIndexStart == (m.originLat.value - coverage.north) * m.unitsPerDegree.value
    ensures grid.columnIndexStart == (coverage.west - m.originLon.value) * m.unitsPerDegree.value
    ensures grid.indexStep == resolution / m.baseResolution.value
  {
    hide Planning.SnapGrid;
    IndexesOf(viewport, coverage, resolution, m.originLat.value, m.originLon.value, m.unitsPerDegree.value, m.baseResolution.value, grid);
  }

  lemma IndexesOf(viewport: Option<Planning.Bounds>, coverage: Planning.Bounds, resolution: real,
      lat: real, lon: real, units: real, base: real, grid: Planning.Grid)
    requires base > 0.0 && Planning.SnapGrid(viewport, coverage, resolution, Planning.Geometry(lat, lon, units, base)) == Ok(grid)
    ensures grid.rowIndexStart == (lat - coverage.north) * units
    ensures grid.columnIndexStart == (coverage.west - lon) * units
    ensures grid.indexStep == resolution / base
  {
    hide *;
    Planning.SnapGridAxes(viewport, coverage, resolution, Planning.Geometry(lat, lon, units, base), grid);
  }

  lemma PlannedSide(m: Mapping, resolution: real, side: real)
    requires Indexed(m) && CellSide(m, resolution, side) && Snapping.Complete(GeometryIn(m), resolution)
    ensures resolution > 0.0 && Planning.CellSpan(GeometryIn(m), resolution) == side > 0.0
  {
    hide Planning.CellSpan;
    Snapping.SideOf(GeometryIn(m), resolution, side);
  }

  lemma PlannedExtent(viewport: Option<Planning.Bounds>, coverage: Planning.Bounds, resolution: real, g: Planning.Geometry, grid: Planning.Grid)
    requires Snapping.Complete(g, resolution) && Planning.SnapGrid(viewport, coverage, resolution, g) == Ok(grid)
    ensures resolution > 0.0 && Planning.CellSpan(g, resolution) > 0.0 && ExtentOfSlots(coverage, grid, Planning.CellSpan(g, resolution))
  {
    hide Planning.EffectiveBox, Planning.AlignedCount, Planning.SnapAxis, Planning.CellSpan;
  }

  predicate Inside(box: Box, outer: Planning.Bounds) {
    outer.west <= box.west && box.east <= outer.east && outer.south <= box.south && box.north <= outer.north
  }

  lemma Further(a: int, b: int, side: real)
    requires a <= b && side > 0.0
    ensures Along(a, side) <= Along(b, side)
  {
  }

  lemma SlotInside(coverage: Planning.Bounds, grid: Planning.Grid, row: int, column: int, side: real, box: Box)
    requires side > 0.0 && ExtentOfSlots(coverage, grid, side) && BoxOfSlot(coverage, row, column, side, box)
    requires grid.rowStart <= row < grid.rowStop && grid.columnStart <= column < grid.columnStop
    ensures Inside(box, grid.snapped)
  {
    hide Along;
    Further(grid.rowStart, row, side);
    Further(row + 1, grid.rowStop, side);
    Further(grid.columnStart, column, side);
    Further(column + 1, grid.columnStop, side);
  }

  /** A planned cell, mapped: the row that carries the source indexes of a slot of the planned window, at the plan's resolution,
      lies in the box of that slot, inside the planned extent, and so beside the cells of the slots next to it. */
  lemma PlannedCellIsPlaced(m: Mapping, context: Context, row: Row, viewport: Option<Planning.Bounds>, coverage: Planning.Bounds,
      resolution: real, grid: Planning.Grid, r: int, s: int, side: real, i: Value, j: Value)
    requires Compiled(m) && Indexed(m) && CellSide(m, resolution, side) && forall box :: !States(m, row, box)
    requires Planning.SnapGrid(viewport, coverage, resolution, GeometryIn(m)) == Ok(grid)
    requires grid.rowStart <= r < grid.rowStop && grid.columnStart <= s < grid.columnStop
    requires Reads(m, context, row, "row", "", i) && Reads(m, context, row, "column", "", j)
    requires Denotes(i, Some(Planning.RowIndex(grid, r))) && Denotes(j, Some(Planning.ColumnIndex(grid, s)))
    requires MapRow(m, context, row).resolution == Some(resolution)
    ensures exists box :: BoxOfSlot(coverage, r, s, side, box) && Inside(box, grid.snapped) && Covers(MapRow(m, context, row), box)
  {
    hide *;
    PlannedAxes(m, viewport, coverage, resolution, grid, side);
    IndexedRowPlaced(m, context, row, i, j, Some(Planning.RowIndex(grid, r)), Some(Planning.ColumnIndex(grid, s)));
    var box :| BoxOfIndex(m, Planning.RowIndex(grid, r), Planning.ColumnIndex(grid, s), resolution, box) && Covers(MapRow(m, context, row), box);
    SlotIsPlaced(m, coverage, resolution, grid, r, s, side, box);
    SlotInside(coverage, grid, r, s, side, box);
  }

  /** Neighbouring slots share a side. */
  lemma NeighboursAbut(coverage: Planning.Bounds, row: int, column: int, side: real, box: Box, below: Box, right: Box)
    requires BoxOfSlot(coverage, row, column, side, box)
    requires BoxOfSlot(coverage, row + 1, column, side, below) && BoxOfSlot(coverage, row, column + 1, side, right)
    ensures below.north == box.south && below.west == box.west && below.east == box.east
    ensures right.west == box.east && right.north == box.north && right.south == box.south
  {
  }

  // ----- a sharded read -------------------------------------------------------------------------------------------------------

  /** What a request says of itself: a mapping may take a date or a resolution from it. */
  lemma RequestSays(q: Loading.Request, resolution: real)
    ensures PathValue(Loading.ContextOf(q, resolution), "date") == q.date
    ensures PathValue(Loading.ContextOf(q, resolution), "resolution") == Num(resolution)
  {
    var context := Loading.ContextOf(q, resolution);
    assert Get(context, "date") == q.date && Get(context, "resolution") == Num(resolution);
    NoDots();
    hide PathValue, Loading.ContextOf, Get;
    DirectPath(context, "date");
    DirectPath(context, "resolution");
  }

  lemma NoDots()
    ensures '.' !in "date" && '.' !in "resolution"
  {
  }

  /** A request is planned in the mapping's geometry over the coverage's bounds, if the page size is positive and the geometry is
      indexed and complete. */
  lemma PlannedInGeometry(src: Loading.ShardSource, q: Loading.Request, viewport: Option<Planning.Bounds>, resolution: real)
    ensures var r := Loading.PlanFor(src, q, viewport, resolution);
            if src.pageSize < 1 then r == Err(Planning.BAD_PAGE_SIZE)
            else if src.mapping.encoding != "global_index" then r == Err(Loading.NOT_INDEXED)
            else if !Indexed(src.mapping) then r == Err(Planning.INCOMPLETE_GEOMETRY)
            else
              var grid := Planning.SnapGrid(viewport, src.bounds(q.coverage), resolution, GeometryIn(src.mapping));
              if grid.Err? then r == Err(grid.error) else r == Planning.PlanOf(grid.value, src.pageSize)
  {
    hide Planning.EffectiveBox, Planning.AlignedCount, Planning.SnapAxis, Planning.CellSpan, Planning.PlanOf;
  }

  /** Planning takes the geometry from the mapping, the coverage from the source. */
  lemma PlanIsSnapped(src: Loading.ShardSource, q: Loading.Request, viewport: Option<Planning.Bounds>, resolution: real, plan: Planning.QueryPlan)
    requires Loading.PlanFor(src, q, viewport, resolution) == Ok(plan)
    ensures Indexed(src.mapping)
    ensures Planning.SnapGrid(viewport, src.bounds(q.coverage), resolution, GeometryIn(src.mapping)) == Ok(plan.grid)
    ensures Planning.Width(plan.grid) > 0
  {
    Loading.PlanForIsPlan(src, q, viewport, resolution, plan);
    var g := Loading.GeometryOf(src.mapping).value;
    Planning.PlanIsBestTiling(viewport, src.bounds(q.coverage), resolution, g, src.pageSize, plan, []);
    Planning.SnapGridIsWindow(viewport, src.bounds(q.coverage), resolution, g, plan.grid);
    SnappedGeometry(viewport, src.bounds(q.coverage), resolution, g, plan.grid);
    hide Planning.SnapGrid, Planning.Plan, Planning.TilesWindow, Planning.DistinctShardIds, Planning.TotalLimit, Planning.Width;
    assert g == GeometryIn(src.mapping);
  }

  lemma SnappedGeometry(viewport: Option<Planning.Bounds>, coverage: Planning.Bounds, resolution: real, g: Planning.Geometry, grid: Planning.Grid)
    requires Planning.SnapGrid(viewport, coverage, resolution, g) == Ok(grid)
    ensures g.unitsPerDegree > 0.0 && g.baseResolution > 0.0
  {
    hide Planning.EffectiveBox, Planning.AlignedCount, Planning.SnapAxis, Planning.CellSpan;
  }

  /** An index column that is mapped directly is what both the validator and the mapper read. */
  lemma IndexIsRead(m: Mapping, context: Context, row: Row, role: string, index: real)
    requires role in m.sourceFields && m.sourceFields[role] != "" && Direct(m.sourceFields[role])
    requires Number(PathValue(row, m.sourceFields[role])) == Some(index)
    ensures m.sourceFields[role] in row
    ensures Reads(m, context, row, role, "", row[m.sourceFields[role]]) && Denotes(row[m.sourceFields[role]], Some(index))
  {
    DirectPath(row, m.sourceFields[role]);
    hide PathValue;
  }

  /** Position p of the row-major listing of a planned window: the row listed there is mapped into the box of its slot, counted
      through the window row by row, inside the planned extent. With `ShardedReadRefinesPlainRead` this is where every cell of a
      sharded read lies. */
  lemma ReadCellIsPlaced(src: Loading.ShardSource, q: Loading.Request, viewport: Option<Planning.Bounds>, resolution: real,
      plan: Planning.QueryPlan, rows: seq<Row>, p: int, side: real)
    requires Loading.PlanFor(src, q, viewport, resolution) == Ok(plan) && Compiled(src.mapping)
    requires "row" in src.mapping.sourceFields && Direct(src.mapping.sourceFields["row"])
    requires "column" in src.mapping.sourceFields && Direct(src.mapping.sourceFields["column"])
    requires Planning.Width(plan.grid) > 0 && 0 <= p < |rows|
    requires Validation.RowMajor(plan.grid, Assembly.WholeWindow(plan.grid), Assembly.Identities(src.mapping, rows))
    requires (forall box :: !States(src.mapping, rows[p], box))
    requires MapRow(src.mapping, Loading.ContextOf(q, resolution), rows[p]).resolution == Some(resolution)
    requires Indexed(src.mapping) && CellSide(src.mapping, resolution, side)
    ensures var width := plan.grid.columnStop - plan.grid.columnStart;
            exists box ::
              && BoxOfSlot(src.bounds(q.coverage), plan.grid.rowStart + p / width, plan.grid.columnStart + p % width, side, box)
              && Inside(box, plan.grid.snapped) && Covers(MapRow(src.mapping, Loading.ContextOf(q, resolution), rows[p]), box)
  {
    hide *;
    var m, grid := src.mapping, plan.grid;
    PlanIsSnapped(src, q, viewport, resolution, plan);
    ListedIndexes(m, grid, rows, p);
    var width := grid.columnStop - grid.columnStart;
    var r, s := grid.rowStart + p / width, grid.columnStart + p % width;
    NamedRoles(m, "row");
    NamedRoles(m, "column");
    IndexIsRead(m, Loading.ContextOf(q, resolution), rows[p], "row", Planning.RowIndex(grid, r));
    IndexIsRead(m, Loading.ContextOf(q, resolution), rows[p], "column", Planning.ColumnIndex(grid, s));
    PlannedCellIsPlaced(m, Loading.ContextOf(q, resolution), rows[p], viewport, src.bounds(q.coverage), resolution, grid, r, s, side,
                        rows[p][m.sourceFields["row"]], rows[p][m.sourceFields["column"]]);
  }

  lemma NamedRoles(m: Mapping, role: string)
    requires Compiled(m) && role in m.sourceFields
    ensures m.sourceFields[role] != ""
  {
    hide NoDup, Fields;
  }

  lemma ListedIndexes(m: Mapping, grid: Planning.Grid, rows: seq<Row>, p: int)
    requires Planning.Width(grid) > 0 && 0 <= p < |rows| && "row" in m.sourceFields && "column" in m.sourceFields
    requires Validation.RowMajor(grid, Assembly.WholeWindow(grid), Assembly.Identities(m, rows))
    ensures var width := grid.columnStop - grid.columnStart;
            && width > 0
            && grid.rowStart <= grid.rowStart + p / width < grid.rowStop && grid.columnStart <= grid.columnStart + p % width < grid.columnStop
            && Number(PathValue(rows[p], m.sourceFields["row"])) == Some(Planning.RowIndex(grid, grid.rowStart + p / width))
            && Number(PathValue(rows[p], m.sourceFields["column"])) == Some(Planning.ColumnIndex(grid, grid.columnStart + p % width))
  {
    hide Number, PathValue, Planning.RowIndex, Planning.ColumnIndex;
    var width := grid.columnStop - grid.columnStart;
    assert p < (grid.rowStop - grid.rowStart) * width;
    Validation.PositionInWindow(p, grid.rowStop - grid.rowStart, width);
    assert Assembly.Identities(m, rows)[p] ==
           Validation.Cell(Number(PathValue(rows[p], m.sourceFields["row"])), Number(PathValue(rows[p], m.sourceFields["column"])));
  }
}
