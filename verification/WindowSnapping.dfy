/** What a snapped window is, said of slots and sides alone: which cells of the coverage it holds, and which requests have none. */
module WindowSnapping {
  import opened Prelude
  import opened ShardPlanning

  /** A slot reaches into the stretch from a to b of its axis: by more than 1e-9 of a cell past a and before b. */
  predicate Reaches(slot: int, side: real, a: real, b: real) {
    && slot as real * side + side > a + 0.000000001 * side
    && slot as real * side < b - 0.000000001 * side
  }

  /** A whole number of cells fills the span. */
  predicate Filled(span: real, side: real, count: int) {
    count >= 1 && count as real * side == span
  }

  predicate ColumnIn(viewport: Option<Bounds>, coverage: Bounds, side: real, count: int, slot: int) {
    0 <= slot < count && (viewport.Some? ==> Reaches(slot, side, viewport.value.west - coverage.west, viewport.value.east - coverage.west))
  }

  predicate RowIn(viewport: Option<Bounds>, coverage: Bounds, side: real, count: int, slot: int) {
    0 <= slot < count && (viewport.Some? ==> Reaches(slot, side, coverage.north - viewport.value.north, coverage.north - viewport.value.south))
  }

  // ----- one axis ------------------------------------------------------------------------------------------------------

  lemma Quotient(span: real, side: real, q: real)
    requires side > 0.0
    ensures span / side == q <==> q * side == span
  {
  }

  lemma QuotientLess(a: real, side: real, q: real)
    requires side > 0.0
    ensures a / side < q <==> a < q * side
    ensures a / side > q <==> a > q * side
  {
    Quotient(a, side, a / side);
    ScaleLess(a / side, q, side);
    ScaleLess(q, a / side, side);
  }

  lemma CountIsFilled(span: real, side: real)
    requires side > 0.0
    ensures AlignedCount(span, side).Ok? ==> Filled(span, side, AlignedCount(span, side).value)
    ensures AlignedCount(span, side).Err? ==> AlignedCount(span, side) == Err(UNALIGNED)
    ensures forall n :: Filled(span, side, n) ==> AlignedCount(span, side) == Ok(n)
  {
    if AlignedCount(span, side).Ok? {
      Quotient(span, side, AlignedCount(span, side).value as real);
    }
    forall n | Filled(span, side, n) ensures AlignedCount(span, side) == Ok(n) {
      Quotient(span, side, n as real);
      ScaleLess(0.0, n as real, side);
      assert (n as real).Floor == n;
    }
  }

  lemma AxisReaches(a: real, b: real, side: real, count: int, slot: int)
    requires side > 0.0
    ensures var (low, high) := SnapAxis(a, b, side, count);
            low <= slot < high <==> 0 <= slot < count && Reaches(slot, side, a, b)
  {
    QuotientLess(a, side, slot as real + 1.0 - SLOT_EPSILON);
    QuotientLess(b, side, slot as real + SLOT_EPSILON);
    Spread(slot as real + 1.0, -SLOT_EPSILON, side);
    Spread(slot as real, 1.0, side);
    Spread(slot as real, SLOT_EPSILON, side);
    assert Times(-SLOT_EPSILON, side) == -Times(SLOT_EPSILON, side);
  }

  /** Clipping a stretch to the coverage keeps the slots that it reaches. */
  lemma ClippedReaches(a: real, b: real, span: real, side: real, count: int, slot: int)
    requires side > 0.0 && Filled(span, side, count) && 0 <= slot < count
    ensures Reaches(slot, side, if a >= 0.0 then a else 0.0, if b <= span then b else span) <==> Reaches(slot, side, a, b)
    ensures Reaches(slot, side, 0.0, span)
  {
    ScaleLess(0.0, slot as real, side);
    ScaleLess((slot + 1) as real, count as real, side);
    Spread(slot as real, 1.0, side);
  }

  // ----- the window ----------------------------------------------------------------------------------------------------

  predicate Complete(geometry: Geometry, resolution: real) {
    geometry.unitsPerDegree > 0.0 && geometry.baseResolution > 0.0 && resolution > 0.0
  }

  predicate Area(b: Bounds) {
    b.west < b.east && b.south < b.north
  }

  predicate Overlap(v: Bounds, c: Bounds) {
    v.west < c.east && c.west < v.east && v.south < c.north && c.south < v.north
  }

  ghost predicate Aligned(coverage: Bounds, side: real, columns: int, rows: int) {
    Filled(coverage.east - coverage.west, side, columns) && Filled(coverage.north - coverage.south, side, rows)
  }

  ghost predicate HasCells(viewport: Option<Bounds>, coverage: Bounds, side: real, columns: int, rows: int) {
    && (exists slot :: ColumnIn(viewport, coverage, side, columns, slot))
    && (exists slot :: RowIn(viewport, coverage, side, rows, slot))
  }

  lemma SideOf(geometry: Geometry, resolution: real, side: real)
    requires Complete(geometry, resolution) && side * geometry.unitsPerDegree * geometry.baseResolution == resolution
    ensures CellSpan(geometry, resolution) == side > 0.0
  {
    Quotient(resolution, geometry.baseResolution, side * geometry.unitsPerDegree);
    Quotient(side * geometry.unitsPerDegree, geometry.unitsPerDegree, side);
    if side <= 0.0 {
      NotPositive(side, geometry.unitsPerDegree);
      NotPositive(side * geometry.unitsPerDegree, geometry.baseResolution);
    }
  }

  lemma NotPositive(x: real, y: real)
    requires x <= 0.0 && y > 0.0
    ensures x * y <= 0.0
  {
  }

  lemma ClippedSides(viewport: Option<Bounds>, coverage: Bounds)
    ensures var r := EffectiveBox(viewport, coverage);
            if !Area(coverage) || (viewport.Some? && !Area(viewport.value)) then r == Err(INVALID_BOUNDS)
            else if viewport.Some? && !Overlap(viewport.value, coverage) then r == Ok(None)
            else r == Ok(Some(
                if viewport.None? then coverage
                else var v, c := viewport.value, coverage;
                     Bounds(if v.west >= c.west then v.west else c.west, if v.south >= c.south then v.south else c.south,
                            if v.east <= c.east then v.east else c.east, if v.north <= c.north then v.north else c.north)))
  {
  }

  lemma ColumnsReached(viewport: Option<Bounds>, coverage: Bounds, side: real, count: int, box: Bounds, slot: int)
    requires side > 0.0 && EffectiveBox(viewport, coverage) == Ok(Some(box)) && Filled(coverage.east - coverage.west, side, count)
    ensures var (low, high) := SnapAxis(box.west - coverage.west, box.east - coverage.west, side, count);
            low <= slot < high <==> ColumnIn(viewport, coverage, side, count, slot)
  {
    hide EffectiveBox, SnapAxis, Reaches, Filled;
    ClippedSides(viewport, coverage);
    AxisReaches(box.west - coverage.west, box.east - coverage.west, side, count, slot);
    if 0 <= slot < count {
      var v := if viewport.Some? then viewport.value else coverage;
      ClippedReaches(v.west - coverage.west, v.east - coverage.west, coverage.east - coverage.west, side, count, slot);
    }
  }

  lemma RowsReached(viewport: Option<Bounds>, coverage: Bounds, side: real, count: int, box: Bounds, slot: int)
    requires side > 0.0 && EffectiveBox(viewport, coverage) == Ok(Some(box)) && Filled(coverage.north - coverage.south, side, count)
    ensures var (low, high) := SnapAxis(coverage.north - box.north, coverage.north - box.south, side, count);
            low <= slot < high <==> RowIn(viewport, coverage, side, count, slot)
  {
    hide EffectiveBox, SnapAxis, Reaches, Filled;
    ClippedSides(viewport, coverage);
    AxisReaches(coverage.north - box.north, coverage.north - box.south, side, count, slot);
    if 0 <= slot < count {
      var v := if viewport.Some? then viewport.value else coverage;
      ClippedReaches(coverage.north - v.north, coverage.north - v.south, coverage.north - coverage.south, side, count, slot);
    }
  }

  lemma SnapParts(viewport: Option<Bounds>, coverage: Bounds, resolution: real, geometry: Geometry)
    requires SnapGrid(viewport, coverage, resolution, geometry).Ok?
    ensures Complete(geometry, resolution)
    ensures EffectiveBox(viewport, coverage).Ok? && EffectiveBox(viewport, coverage).value.Some?
  {
    hide EffectiveBox, AlignedCount, SnapAxis, CellSpan;
  }

  /** The window of a plan holds exactly the cells of the coverage that reach into the viewport by more than 1e-9 of a cell; all
      of them when there is no viewport. The coverage is a whole number of cells wide and high. */
  lemma WindowIsReached(viewport: Option<Bounds>, coverage: Bounds, resolution: real, geometry: Geometry, side: real, grid: Grid, slot: int)
    requires SnapGrid(viewport, coverage, resolution, geometry) == Ok(grid)
    requires side * geometry.unitsPerDegree * geometry.baseResolution == resolution
    ensures Aligned(coverage, side, grid.sourceColumns, grid.sourceRows)
    ensures grid.columnStart <= slot < grid.columnStop <==> ColumnIn(viewport, coverage, side, grid.sourceColumns, slot)
    ensures grid.rowStart <= slot < grid.rowStop <==> RowIn(viewport, coverage, side, grid.sourceRows, slot)
  {
    SnapParts(viewport, coverage, resolution, geometry);
    var box := EffectiveBox(viewport, coverage).value.value;
    hide SnapGrid, EffectiveBox, AlignedCount, SnapAxis, CellSpan, Filled, ColumnIn, RowIn;
    SideOf(geometry, resolution, side);
    GridParts(viewport, coverage, resolution, geometry, grid, box);
    CountIsFilled(coverage.east - coverage.west, side);
    CountIsFilled(coverage.north - coverage.south, side);
    ColumnsReached(viewport, coverage, side, grid.sourceColumns, box, slot);
    RowsReached(viewport, coverage, side, grid.sourceRows, box, slot);
  }

  /** What becomes of a complete request whose viewport meets the coverage. */
  lemma Counted(viewport: Option<Bounds>, coverage: Bounds, resolution: real, geometry: Geometry, side: real, box: Bounds)
    requires Complete(geometry, resolution) && CellSpan(geometry, resolution) == side > 0.0
    requires EffectiveBox(viewport, coverage) == Ok(Some(box))
    ensures var r := SnapGrid(viewport, coverage, resolution, geometry);
            var columns, rows := AlignedCount(coverage.east - coverage.west, side), AlignedCount(coverage.north - coverage.south, side);
            if columns.Err? then r == Err(columns.error)
            else if rows.Err? then r == Err(rows.error)
            else
              var (left, right) := SnapAxis(box.west - coverage.west, box.east - coverage.west, side, columns.value);
              var (top, bottom) := SnapAxis(coverage.north - box.north, coverage.north - box.south, side, rows.value);
              if left < right && top < bottom then r.Ok? else r == Err(NO_CELLS)
  {
    hide EffectiveBox, AlignedCount, SnapAxis, CellSpan;
  }

  /** Which requests have a window, and what the others are told: the geometry is incomplete, a box has no area, the boxes do not
      meet, the coverage is not a whole number of cells wide and high, or the viewport reaches into no cell. */
  lemma SnapOutcome(viewport: Option<Bounds>, coverage: Bounds, resolution: real, geometry: Geometry, side: real)
    requires Complete(geometry, resolution) ==> side * geometry.unitsPerDegree * geometry.baseResolution == resolution
    ensures var r := SnapGrid(viewport, coverage, resolution, geometry);
            if !Complete(geometry, resolution) then r == Err(INCOMPLETE_GEOMETRY)
            else if !Area(coverage) || (viewport.Some? && !Area(viewport.value)) then r == Err(INVALID_BOUNDS)
            else if viewport.Some? && !Overlap(viewport.value, coverage) then r == Err(OUTSIDE)
            else if !(exists m, n :: Aligned(coverage, side, m, n)) then r == Err(UNALIGNED)
            else if !(exists m, n :: Aligned(coverage, side, m, n) && HasCells(viewport, coverage, side, m, n)) then r == Err(NO_CELLS)
            else r.Ok?
  {
    ClippedSides(viewport, coverage);
    if !Complete(geometry, resolution) || EffectiveBox(viewport, coverage).Err? || EffectiveBox(viewport, coverage).value.None? {
      hide EffectiveBox;
    } else {
      var box := EffectiveBox(viewport, coverage).value.value;
      hide *;
      SideOf(geometry, resolution, side);
      Counted(viewport, coverage, resolution, geometry, side, box);
      CountsAreCells(viewport, coverage, side, box);
    }
  }

  lemma CountsAreCells(viewport: Option<Bounds>, coverage: Bounds, side: real, box: Bounds)
    requires side > 0.0 && EffectiveBox(viewport, coverage) == Ok(Some(box))
    ensures var columns, rows := AlignedCount(coverage.east - coverage.west, side), AlignedCount(coverage.north - coverage.south, side);
            && (columns.Ok? || columns == Err(UNALIGNED)) && (rows.Ok? || rows == Err(UNALIGNED))
            && (forall m, n :: Aligned(coverage, side, m, n) <==> columns == Ok(m) && rows == Ok(n))
            && (columns.Ok? && rows.Ok? ==>
                  var (left, right) := SnapAxis(box.west - coverage.west, box.east - coverage.west, side, columns.value);
                  var (top, bottom) := SnapAxis(coverage.north - box.north, coverage.north - box.south, side, rows.value);
                  HasCells(viewport, coverage, side, columns.value, rows.value) <==> left < right && top < bottom)
  {
    hide EffectiveBox, AlignedCount, SnapAxis, Filled, ColumnIn, RowIn;
    var columns, rows := AlignedCount(coverage.east - coverage.west, side), AlignedCount(coverage.north - coverage.south, side);
    CountIsFilled(coverage.east - coverage.west, side);
    CountIsFilled(coverage.north - coverage.south, side);
    if columns.Ok? && rows.Ok? {
      var (left, right) := SnapAxis(box.west - coverage.west, box.east - coverage.west, side, columns.value);
      var (top, bottom) := SnapAxis(coverage.north - box.north, coverage.north - box.south, side, rows.value);
      forall slot ensures left <= slot < right <==> ColumnIn(viewport, coverage, side, columns.value, slot) {
        ColumnsReached(viewport, coverage, side, columns.value, box, slot);
      }
      forall slot ensures top <= slot < bottom <==> RowIn(viewport, coverage, side, rows.value, slot) {
        RowsReached(viewport, coverage, side, rows.value, box, slot);
      }
      if left < right && top < bottom {
        assert ColumnIn(viewport, coverage, side, columns.value, left) && RowIn(viewport, coverage, side, rows.value, top);
      }
    }
  }
}
