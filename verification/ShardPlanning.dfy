/** Planning the shards of one sampled-grid read: the viewport is clipped to the coverage, snapped outward to cells, and
    the snapped rows are cut into bands that fit one source page. */
module ShardPlanning {
  import opened Prelude
  import opened ShardIdentity

  datatype Bounds = Bounds(west: real, south: real, east: real, north: real)

  datatype Geometry = Geometry(originLat: real, originLon: real, unitsPerDegree: real, baseResolution: real)

  datatype Shard = Shard(
    index: nat, shardId: string, limit: int,
    rowStart: int, rowStop: int, columnStart: int, columnStop: int,
    sourceRowStart: int, sourceRowStop: int, sourceColumnStart: int, sourceColumnStop: int)

  /** The snapped extent in cells, counted from the north-west corner of the coverage, and where its indexes start. */
  datatype Grid = Grid(
    sourceColumns: int, sourceRows: int,
    columnStart: int, columnStop: int, rowStart: int, rowStop: int,
    columnIndexStart: real, rowIndexStart: real, indexStep: real,
    snapped: Bounds)

  datatype QueryPlan = QueryPlan(grid: Grid, shards: seq<Shard>, topologyShardCount: int)

  const SLOT_EPSILON := 0.000000001

  const INVALID_BOUNDS := "sampled-grid bounds are invalid"
  const OUTSIDE := "sampled-grid viewport is outside source coverage"
  const INCOMPLETE_GEOMETRY := "sampled-grid pagination requires complete Scout geometry"
  const UNALIGNED := "sampled-grid coverage is not aligned"
  const NO_CELLS := "sampled-grid snapped viewport has no cells"
  const PAGE_TOO_SMALL := "source page limit cannot hold one requested sampled-grid row"
  const NOT_INTEGRAL := "sampled-grid window does not resolve to an integral source index"
  const BAD_PAGE_SIZE := "pagination.max_page_size must be a positive integer"

  // ----- clipping and snapping --------------------------------------------------------------------------------

  predicate ValidBounds(b: Bounds) {
    b.west < b.east && b.south < b.north
  }

  function Max(a: real, b: real): real { if a >= b then a else b }
  function Min(a: real, b: real): real { if a <= b then a else b }

  /** `effective_query_bbox`: the coverage without a viewport, else their overlap, None when it has no area. */
  function EffectiveBox(viewport: Option<Bounds>, coverage: Bounds): Result<Option<Bounds>, string> {
    if !ValidBounds(coverage) then Err(INVALID_BOUNDS)
    else if viewport.None? then Ok(Some(coverage))
    else if !ValidBounds(viewport.value) then Err(INVALID_BOUNDS)
    else
      var v := viewport.value;
      var box := Bounds(Max(v.west, coverage.west), Max(v.south, coverage.south), Min(v.east, coverage.east), Min(v.north, coverage.north));
      if ValidBounds(box) then Ok(Some(box)) else Ok(None)
  }

  /** The clipped box is exactly the points of the coverage that are in the viewport, if there is one; None means that the two
      share no area. Boxes without area are refused. */
  lemma ClippingIsIntersection(viewport: Option<Bounds>, c: Bounds, lon: real, lat: real)
    ensures var r := EffectiveBox(viewport, c);
            && (r.Ok? <==> c.west < c.east && c.south < c.north
                           && (viewport.Some? ==> viewport.value.west < viewport.value.east && viewport.value.south < viewport.value.north))
            && (r.Ok? && r.value.Some? ==>
                  && r.value.value.west < r.value.value.east && r.value.value.south < r.value.value.north
                  && (r.value.value.west <= lon <= r.value.value.east && r.value.value.south <= lat <= r.value.value.north <==>
                      && c.west <= lon <= c.east && c.south <= lat <= c.north
                      && (viewport.Some? ==>
                            viewport.value.west <= lon <= viewport.value.east && viewport.value.south <= lat <= viewport.value.north)))
            && (r.Ok? && r.value.None? ==>
                  && viewport.Some?
                  && var v := viewport.value;
                     !(v.west < lon < v.east && v.south < lat < v.north && c.west < lon < c.east && c.south < lat < c.north))
  {
  }

  predicate Integral(x: real) {
    x.Floor as real == x
  }

  /** `_aligned_count` for exactly aligned spans. */
  function AlignedCount(span: real, cell: real): (r: Result<int, string>)
    ensures r.Ok? ==> r.value >= 1
  {
    if span <= 0.0 || cell <= 0.0 then Err(UNALIGNED)
    else if Integral(span / cell) && (span / cell).Floor >= 1 then Ok((span / cell).Floor)
    else Err(UNALIGNED)
  }

  function FloorSlot(x: real): int {
    (x + SLOT_EPSILON).Floor
  }

  function CeilSlot(x: real): int {
    -((SLOT_EPSILON - x).Floor)
  }

  function CellSpan(geometry: Geometry, resolution: real): real
    requires geometry.unitsPerDegree > 0.0 && geometry.baseResolution > 0.0
  {
    (resolution / geometry.baseResolution) / geometry.unitsPerDegree
  }

  function AtLeast(low: int, x: int): int { if x < low then low else x }
  function AtMost(high: int, x: int): int { if x > high then high else x }

  /** The distance of a slot's edge from the start of its axis, and the epsilon's share of a cell. */
  function Times(x: real, y: real): real { x * y }
  function Edge(slot: int, cell: real): real { Times(slot as real, cell) }
  function Slack(cell: real): real { Times(SLOT_EPSILON, cell) }

  /** The slots around the interval [a, b] of an extent of `count` cells. */
  function SnapAxis(a: real, b: real, cell: real, count: int): (int, int)
    requires cell > 0.0
  {
    (AtLeast(0, FloorSlot(a / cell)), AtMost(count, CeilSlot(b / cell)))
  }

  /** The planner up to the snapped extent. */
  function SnapGrid(viewport: Option<Bounds>, coverage: Bounds, resolution: real, geometry: Geometry): Result<Grid, string> {
    if geometry.unitsPerDegree <= 0.0 || geometry.baseResolution <= 0.0 || resolution <= 0.0 then Err(INCOMPLETE_GEOMETRY)
    else
      var box := EffectiveBox(viewport, coverage);
      if box.Err? then Err(box.error)
      else if box.value.None? then Err(OUTSIDE)
      else
        var effective := box.value.value;
        var step := resolution / geometry.baseResolution;
        var cell := CellSpan(geometry, resolution);
        var columns := AlignedCount(coverage.east - coverage.west, cell);
        var rows := AlignedCount(coverage.north - coverage.south, cell);
        if columns.Err? then Err(columns.error)
        else if rows.Err? then Err(rows.error)
        else if cell <= 0.0 then Err(UNALIGNED)
        else
          var (columnStart, columnStop) :=
            SnapAxis(effective.west - coverage.west, effective.east - coverage.west, cell, columns.value);
          var (rowStart, rowStop) :=
            SnapAxis(coverage.north - effective.north, coverage.north - effective.south, cell, rows.value);
          if columnStart >= columnStop || rowStart >= rowStop then Err(NO_CELLS)
          else Ok(Grid(
            columns.value, rows.value, columnStart, columnStop, rowStart, rowStop,
            (coverage.west - geometry.originLon) * geometry.unitsPerDegree,
            (geometry.originLat - coverage.north) * geometry.unitsPerDegree,
            step,
            Bounds(coverage.west + Edge(columnStart, cell), coverage.north - Edge(rowStop, cell),
                   coverage.west + Edge(columnStop, cell), coverage.north - Edge(rowStart, cell))))
  }

  lemma Scale(d: real, cell: real)
    requires cell > 0.0
    ensures Times(d / cell, cell) == d
    ensures d >= 0.0 ==> d / cell >= 0.0
  {
  }

  lemma ScaleLess(a: real, b: real, cell: real)
    requires cell > 0.0
    ensures a < b ==> Times(a, cell) < Times(b, cell)
    ensures a <= b ==> Times(a, cell) <= Times(b, cell)
  {
  }

  lemma EdgeOrder(i: int, j: int, cell: real)
    requires cell > 0.0 && i <= j
    ensures Edge(i, cell) <= Edge(j, cell)
    ensures Edge(0, cell) == 0.0
  {
    ScaleLess(i as real, j as real, cell);
  }

  lemma Spread(x: real, y: real, cell: real)
    ensures Times(x + y, cell) == Times(x, cell) + Times(y, cell)
    ensures Times(1.0, cell) == cell
  {
  }

  /** The low side: the slot is never negative, its edge lies less than one cell before the point it snaps and at most
      the epsilon's share of a cell after it. */
  lemma LowSlot(d: real, cell: real)
    requires cell > 0.0 && d >= 0.0
    ensures var slot := FloorSlot(d / cell);
            slot >= 0 && d - cell < Edge(slot, cell) <= d + Slack(cell)
  {
    hide Times;
    var x := d / cell;
    var slot := FloorSlot(x) as real;
    Scale(d, cell);
    ScaleLess(slot, x + SLOT_EPSILON, cell);
    Spread(x, SLOT_EPSILON, cell);
    ScaleLess(x, slot + 1.0, cell);
    Spread(slot, 1.0, cell);
  }

  /** The high side, below an aligned extent of `count` cells. */
  lemma HighSlot(d: real, cell: real, count: int)
    requires cell > 0.0 && d <= Edge(count, cell)
    ensures var slot := CeilSlot(d / cell);
            slot <= count && d - Slack(cell) <= Edge(slot, cell) < d + cell
  {
    hide Times, CeilSlot;
    var x := d / cell;
    var slot := CeilSlot(x) as real;
    CeilSlotBounds(x);
    Scale(d, cell);
    ScaleLess(x, slot + SLOT_EPSILON, cell);
    Spread(slot, SLOT_EPSILON, cell);
    ScaleLess(slot, x + 1.0, cell);
    Spread(x, 1.0, cell);
    ScaleLess(count as real, x, cell);
    assert x <= count as real;
  }

  lemma CeilSlotBounds(x: real)
    ensures x - SLOT_EPSILON <= CeilSlot(x) as real
    ensures CeilSlot(x) as real - 1.0 < x - SLOT_EPSILON < x
  {
  }

  /** One axis: the window [low, high) of slots around the interval [a, b] of an aligned extent of `count` cells. */
  lemma SnappedAxis(a: real, b: real, cell: real, count: int)
    requires cell > 0.0 && 0.0 <= a && b <= Edge(count, cell)
    ensures var (low, high) := SnapAxis(a, b, cell, count);
            && 0 <= low && high <= count
            && 0.0 <= Edge(low, cell) && Edge(high, cell) <= Edge(count, cell)
            && a - cell < Edge(low, cell) <= a + Slack(cell)
            && b - Slack(cell) <= Edge(high, cell) < b + cell
  {
    hide FloorSlot, CeilSlot, Edge, Slack;
    LowSlot(a, cell);
    HighSlot(b, cell, count);
    EdgeOrder(0, FloorSlot(a / cell), cell);
    EdgeOrder(CeilSlot(b / cell), count, cell);
  }

  lemma AlignedExtent(span: real, cell: real)
    requires AlignedCount(span, cell).Ok?
    ensures cell > 0.0 && Edge(AlignedCount(span, cell).value, cell) == span
  {
    Scale(span, cell);
  }

  /** Snapping: the snapped box stays inside the coverage, no side falls short of the clipped viewport by more than
      1e-9 of a cell, and none overshoots it by a whole cell. */
  lemma SnappingBound(viewport: Option<Bounds>, coverage: Bounds, resolution: real, geometry: Geometry, grid: Grid, box: Bounds)
    requires geometry.unitsPerDegree > 0.0 && geometry.baseResolution > 0.0
    requires SnapGrid(viewport, coverage, resolution, geometry) == Ok(grid)
    requires EffectiveBox(viewport, coverage) == Ok(Some(box))
    ensures Snapped(grid, box, coverage, CellSpan(geometry, resolution))
  {
    hide *;
    var cell := CellSpan(geometry, resolution);
    GridParts(viewport, coverage, resolution, geometry, grid, box);
    BoxInside(viewport, coverage, box);
    AxisParts(box.west - coverage.west, box.east - coverage.west, cell, coverage.east - coverage.west,
              grid.sourceColumns, grid.columnStart, grid.columnStop);
    AxisParts(coverage.north - box.north, coverage.north - box.south, cell, coverage.north - coverage.south,
              grid.sourceRows, grid.rowStart, grid.rowStop);
    AxesSnap(grid, box, coverage, cell,
             Edge(grid.columnStart, cell), Edge(grid.columnStop, cell),
             Edge(grid.rowStart, cell), Edge(grid.rowStop, cell));
  }

  lemma AxisParts(a: real, b: real, cell: real, span: real, count: int, low: int, high: int)
    requires cell > 0.0 && 0.0 <= a && b <= span && AlignedCount(span, cell) == Ok(count)
    requires (low, high) == SnapAxis(a, b, cell, count)
    ensures 0 <= low && high <= count
    ensures 0.0 <= Edge(low, cell) && Edge(high, cell) <= span
    ensures a - cell < Edge(low, cell) <= a + Slack(cell)
    ensures b - Slack(cell) <= Edge(high, cell) < b + cell
  {
    hide *;
    AlignedExtent(span, cell);
    SnappedAxis(a, b, cell, count);
  }

  lemma AxesSnap(grid: Grid, box: Bounds, coverage: Bounds, cell: real, west: real, east: real, north: real, south: real)
    requires cell > 0.0
    requires 0 <= grid.columnStart < grid.columnStop <= grid.sourceColumns && 0 <= grid.rowStart < grid.rowStop <= grid.sourceRows
    requires grid.snapped == Bounds(coverage.west + west, coverage.north - south, coverage.west + east, coverage.north - north)
    requires 0.0 <= west && east <= coverage.east - coverage.west && 0.0 <= north && south <= coverage.north - coverage.south
    requires box.west - coverage.west - cell < west <= box.west - coverage.west + Slack(cell)
    requires box.east - coverage.west - Slack(cell) <= east < box.east - coverage.west + cell
    requires coverage.north - box.north - cell < north <= coverage.north - box.north + Slack(cell)
    requires coverage.north - box.south - Slack(cell) <= south < coverage.north - box.south + cell
    ensures Snapped(grid, box, coverage, cell)
  {
  }

  lemma GridParts(viewport: Option<Bounds>, coverage: Bounds, resolution: real, geometry: Geometry, grid: Grid, box: Bounds)
    requires geometry.unitsPerDegree > 0.0 && geometry.baseResolution > 0.0
    requires SnapGrid(viewport, coverage, resolution, geometry) == Ok(grid)
    requires EffectiveBox(viewport, coverage) == Ok(Some(box))
    ensures var cell := CellSpan(geometry, resolution);
            && AlignedCount(coverage.east - coverage.west, cell) == Ok(grid.sourceColumns)
            && AlignedCount(coverage.north - coverage.south, cell) == Ok(grid.sourceRows)
            && cell > 0.0
            && (grid.columnStart, grid.columnStop) ==
               SnapAxis(box.west - coverage.west, box.east - coverage.west, cell, grid.sourceColumns)
            && (grid.rowStart, grid.rowStop) ==
               SnapAxis(coverage.north - box.north, coverage.north - box.south, cell, grid.sourceRows)
            && grid.columnStart < grid.columnStop && grid.rowStart < grid.rowStop
            && grid.snapped == Bounds(coverage.west + Edge(grid.columnStart, cell), coverage.north - Edge(grid.rowStop, cell),
                                      coverage.west + Edge(grid.columnStop, cell), coverage.north - Edge(grid.rowStart, cell))
  {
    hide EffectiveBox, AlignedCount, SnapAxis, CellSpan;
  }

  ghost predicate Snapped(grid: Grid, box: Bounds, coverage: Bounds, cell: real) {
    var slack := Slack(cell);
    && cell > 0.0
    && 0 <= grid.columnStart < grid.columnStop <= grid.sourceColumns
    && 0 <= grid.rowStart < grid.rowStop <= grid.sourceRows
    && coverage.west <= grid.snapped.west && grid.snapped.east <= coverage.east
    && coverage.south <= grid.snapped.south && grid.snapped.north <= coverage.north
    && box.west - cell < grid.snapped.west <= box.west + slack
    && box.east - slack <= grid.snapped.east < box.east + cell
    && box.north - slack <= grid.snapped.north < box.north + cell
    && box.south - cell < grid.snapped.south <= box.south + slack
  }

  lemma BoxInside(viewport: Option<Bounds>, coverage: Bounds, box: Bounds)
    requires EffectiveBox(viewport, coverage) == Ok(Some(box))
    ensures coverage.west <= box.west < box.east <= coverage.east && coverage.south <= box.south < box.north <= coverage.north
  {
  }

  // ----- cutting rows into bands ---------------------------------------------------------------------------------

  function CeilDiv(n: int, d: int): int
    requires d > 0
  {
    (n + d - 1) / d
  }

  lemma CeilDivBounds(n: int, d: int)
    requires n > 0 && d > 0
    ensures CeilDiv(n, d) >= 1
    ensures (CeilDiv(n, d) - 1) * d < n <= CeilDiv(n, d) * d
  {
  }

  lemma CeilDivUnique(n: int, d: int, q: int)
    requires n > 0 && d > 0 && (q - 1) * d < n <= q * d
    ensures CeilDiv(n, d) == q
  {
    var p := CeilDiv(n, d);
    CeilDivBounds(n, d);
    if p < q {
      Monotone(p, q - 1, d);
    } else if q < p {
      Monotone(q, p - 1, d);
    }
  }

  lemma Monotone(a: int, b: int, c: int)
    requires a <= b && c >= 0
    ensures a * c <= b * c
  {
  }

  /** Cutting n rows into ceil(n/m) bands of equal height yields exactly that many bands, each at most m high: the loop
      over the bands produces the advertised shard count. */
  lemma BandCountIsTopology(n: int, m: int)
    requires n > 0 && m > 0
    ensures var t := CeilDiv(n, m);
            && 1 <= CeilDiv(n, t) <= m
            && CeilDiv(n, CeilDiv(n, t)) == t
  {
    var t := CeilDiv(n, m);
    CeilDivBounds(n, m);
    var r := CeilDiv(n, t);
    CeilDivBounds(n, t);
    assert n <= t * m;
    if r > m {
      Monotone(m, r - 1, t);
      assert false;
    }
    Monotone(r, m, t - 1);
    CeilDivUnique(n, r, t);
  }

  datatype Band = Band(start: int, stop: int)

  /** The loop's bands: from `start` in steps, the last one cut short. */
  function Bands(start: int, stop: int, step: int): seq<Band>
    requires step > 0
    decreases stop - start
  {
    if start >= stop then [] else [Band(start, AtMost(stop, start + step))] + Bands(start + step, stop, step)
  }

  /** Bands that follow one another from `start` to `stop`. */
  ghost predicate Contiguous(bands: seq<Band>, start: int, stop: int) {
    && (forall i, j :: 0 <= i < j < |bands| && j == i + 1 ==> bands[i].stop == bands[j].start)
    && if bands == [] then start == stop else bands[0].start == start && bands[|bands| - 1].stop == stop
  }

  ghost predicate Tiles(bands: seq<Band>, start: int, stop: int, height: int) {
    && Contiguous(bands, start, stop)
    && (forall k :: 0 <= k < |bands| ==> bands[k].start < bands[k].stop <= bands[k].start + height)
  }

  function Cells(bands: seq<Band>, width: int): int {
    if bands == [] then 0 else (bands[0].stop - bands[0].start) * width + Cells(bands[1..], width)
  }

  lemma BandsStep(start: int, stop: int, step: int)
    requires step > 0 && start < stop
    ensures Bands(start, stop, step) == [Band(start, AtMost(stop, start + step))] + Bands(AtMost(stop, start + step), stop, step)
  {
    if start + step > stop {
      assert Bands(start + step, stop, step) == [] == Bands(stop, stop, step);
    }
  }

  lemma {:induction false} BandsCells(start: int, stop: int, step: int, width: int)
    requires step > 0 && start <= stop
    ensures |Bands(start, stop, step)| == (if start == stop then 0 else CeilDiv(stop - start, step))
    ensures Cells(Bands(start, stop, step), width) == (stop - start) * width
    decreases stop - start
  {
    if start < stop {
      var next := AtMost(stop, start + step);
      BandsStep(start, stop, step);
      BandsCells(next, stop, step, width);
      BandsCount(start, stop, step);
      hide CeilDiv, Bands;
      assert ([Band(start, next)] + Bands(next, stop, step))[1..] == Bands(next, stop, step);
      Distribute(next - start, stop - next, width);
    }
  }

  /** The bands are contiguous, disjoint and cover the rows; there are exactly ceil(rows/step) of them, and their cells
      add up to the whole window. */
  lemma {:induction false} BandsTile(start: int, stop: int, step: int, width: int)
    requires step > 0 && start <= stop
    ensures var bands := Bands(start, stop, step);
            && Tiles(bands, start, stop, step)
            && |bands| == (if start == stop then 0 else CeilDiv(stop - start, step))
            && Cells(bands, width) == (stop - start) * width
    decreases stop - start
  {
    BandsCells(start, stop, step, width);
    hide CeilDiv, Cells;
    if start < stop {
      var next := AtMost(stop, start + step);
      BandsStep(start, stop, step);
      BandsTile(next, stop, step, width);
    }
  }

  lemma Distribute(a: int, b: int, c: int)
    ensures a * c + b * c == (a + b) * c
  {
  }

  lemma BandsCount(start: int, stop: int, step: int)
    requires step > 0 && start < stop
    ensures CeilDiv(stop - start, step) ==
            1 + if AtMost(stop, start + step) == stop then 0 else CeilDiv(stop - AtMost(stop, start + step), step)
  {
    var next := AtMost(stop, start + step);
    if next == stop {
      CeilDivUnique(stop - start, step, 1);
    } else {
      var q := CeilDiv(stop - next, step);
      CeilDivBounds(stop - next, step);
      assert q * step == (q - 1) * step + step && (q + 1) * step == q * step + step;
      CeilDivUnique(stop - start, step, q + 1);
    }
  }

  /** No way of cutting the rows into full-width bands that fit the page uses fewer bands than planned. */
  lemma {:induction false} FewestBands(bands: seq<Band>, start: int, stop: int, width: int, page: int)
    requires width > 0 && page / width >= 1 && start < stop
    requires Contiguous(bands, start, stop)
    requires forall k :: 0 <= k < |bands| ==> (bands[k].stop - bands[k].start) * width <= page
    ensures |bands| >= CeilDiv(stop - start, page / width)
  {
    var m := page / width;
    forall k | 0 <= k < |bands| ensures bands[k].stop - bands[k].start <= m {
      HeightFits(bands[k].stop - bands[k].start, width, page);
    }
    SpanWithin(bands, start, stop, m);
    CeilDivBounds(stop - start, m);
    if |bands| < CeilDiv(stop - start, m) {
      Monotone(|bands|, CeilDiv(stop - start, m) - 1, m);
    }
  }

  lemma HeightFits(h: int, width: int, page: int)
    requires width > 0
    ensures h * width <= page <==> h <= page / width
  {
    var m := page / width;
    assert m * width <= page < (m + 1) * width;
    if h <= m {
      Monotone(h, m, width);
    } else {
      Monotone(m + 1, h, width);
    }
  }

  lemma {:induction false} SpanWithin(bands: seq<Band>, start: int, stop: int, m: int)
    requires Contiguous(bands, start, stop)
    requires forall k :: 0 <= k < |bands| ==> bands[k].stop - bands[k].start <= m
    ensures stop - start <= |bands| * m
  {
    if bands != [] {
      SpanWithin(bands[1..], bands[0].stop, stop, m);
      Distribute(|bands| - 1, 1, m);
    }
  }

  // ----- the plan ----------------------------------------------------------------------------------------------

  /** `_integral_index` for exact indexes. */
  function IntegralIndex(x: real): (r: Result<int, string>)
    ensures r.Ok? ==> r.value as real == x
  {
    if Integral(x) then Ok(x.Floor) else Err(NOT_INTEGRAL)
  }

  function RowIndex(grid: Grid, row: int): real {
    grid.rowIndexStart + Edge(row, grid.indexStep)
  }

  function ColumnIndex(grid: Grid, column: int): real {
    grid.columnIndexStart + Edge(column, grid.indexStep)
  }

  function Width(grid: Grid): int { grid.columnStop - grid.columnStart }
  function Height(grid: Grid): int { grid.rowStop - grid.rowStart }

  /** One pass of the loop: the shard of one band, or the first source index that is not integral. */
  function ShardOf(grid: Grid, index: nat, band: Band): Result<Shard, string> {
    var top := IntegralIndex(RowIndex(grid, band.start));
    var bottom := IntegralIndex(RowIndex(grid, band.stop));
    var left := IntegralIndex(ColumnIndex(grid, grid.columnStart));
    var right := IntegralIndex(ColumnIndex(grid, grid.columnStop));
    if top.Err? || bottom.Err? || left.Err? || right.Err? then Err(NOT_INTEGRAL)
    else
      Ok(Shard(index, ShardId(Window(top.value, bottom.value, left.value, right.value)), (band.stop - band.start) * Width(grid),
               band.start, band.stop, grid.columnStart, grid.columnStop, top.value, bottom.value, left.value, right.value))
  }

  function ShardsOf(grid: Grid, bands: seq<Band>, first: nat): Result<seq<Shard>, string> {
    if bands == [] then Ok([])
    else
      var head := ShardOf(grid, first, bands[0]);
      if head.Err? then Err(head.error) else Prepended([head.value], ShardsOf(grid, bands[1..], first + 1))
  }

  function Prepended(shards: seq<Shard>, rest: Result<seq<Shard>, string>): Result<seq<Shard>, string> {
    if rest.Err? then rest else Ok(shards + rest.value)
  }

  /** The height of the planned bands, for a page that holds at least one row of the window. */
  function BandHeight(rows: int, width: int, page: int): int
    requires rows > 0 && width > 0 && page / width >= 1
  {
    CeilDivBounds(rows, page / width);
    CeilDiv(rows, CeilDiv(rows, page / width))
  }

  lemma HeightPositive(rows: int, width: int, page: int)
    requires rows > 0 && width > 0 && page / width >= 1
    ensures 1 <= BandHeight(rows, width, page) <= page / width
    ensures CeilDiv(rows, BandHeight(rows, width, page)) == CeilDiv(rows, page / width)
  {
    CeilDivBounds(rows, page / width);
    BandCountIsTopology(rows, page / width);
  }

  /** What `plan_sampled_grid_shards` computes. */
  function Plan(viewport: Option<Bounds>, coverage: Bounds, resolution: real, geometry: Geometry, page: int): Result<QueryPlan, string> {
    if page < 1 then Err(BAD_PAGE_SIZE)
    else
      var grid := SnapGrid(viewport, coverage, resolution, geometry);
      if grid.Err? then Err(grid.error) else PlanOf(grid.value, page)
  }

  function PlanOf(grid: Grid, page: int): Result<QueryPlan, string> {
    if Width(grid) <= 0 || Height(grid) <= 0 || page / Width(grid) < 1 then Err(PAGE_TOO_SMALL)
    else
      HeightPositive(Height(grid), Width(grid), page);
      var step := BandHeight(Height(grid), Width(grid), page);
      var shards := ShardsOf(grid, Bands(grid.rowStart, grid.rowStop, step), 0);
      if shards.Err? then Err(shards.error)
      else Ok(QueryPlan(grid, shards.value, CeilDiv(Height(grid), page / Width(grid))))
  }

  method PlanShards(viewport: Option<Bounds>, coverage: Bounds, resolution: real, geometry: Geometry, maxPageSize: int)
    returns (r: Result<QueryPlan, string>)
    ensures r == Plan(viewport, coverage, resolution, geometry, maxPageSize)
  {
    hide CeilDiv, ShardOf, SnapGrid, CellSpan;
    if maxPageSize < 1 {
      return Err(BAD_PAGE_SIZE);
    }
    var snapped := SnapGrid(viewport, coverage, resolution, geometry);
    if snapped.Err? {
      return Err(snapped.error);
    }
    var grid := snapped.value;
    SnapGridIsWindow(viewport, coverage, resolution, geometry, grid);
    var columns := grid.columnStop - grid.columnStart;
    var rows := grid.rowStop - grid.rowStart;
    var maxRows := maxPageSize / columns;
    if maxRows < 1 {
      return Err(PAGE_TOO_SMALL);
    }
    CeilDivBounds(rows, maxRows);
    HeightPositive(rows, columns, maxPageSize);
    var topology := CeilDiv(rows, maxRows);
    var rowsPerShard := CeilDiv(rows, topology);
    var shards: seq<Shard> := [];
    var rowStart := grid.rowStart;
    PrependNothing(ShardsOf(grid, Bands(rowStart, grid.rowStop, rowsPerShard), 0));
    while rowStart < grid.rowStop
      invariant ShardsOf(grid, Bands(grid.rowStart, grid.rowStop, rowsPerShard), 0)
             == Prepended(shards, ShardsOf(grid, Bands(rowStart, grid.rowStop, rowsPerShard), |shards|))
      decreases grid.rowStop - rowStart
    {
      var band := Band(rowStart, AtMost(grid.rowStop, rowStart + rowsPerShard));
      var shard := ShardOf(grid, |shards|, band);
      assert Bands(rowStart, grid.rowStop, rowsPerShard)[1..] == Bands(rowStart + rowsPerShard, grid.rowStop, rowsPerShard);
      if shard.Err? {
        return Err(shard.error);
      }
      AppendShard(shards, shard.value, ShardsOf(grid, Bands(rowStart + rowsPerShard, grid.rowStop, rowsPerShard), |shards| + 1));
      shards := shards + [shard.value];
      rowStart := rowStart + rowsPerShard;
    }
    assert shards + [] == shards;
    return Ok(QueryPlan(grid, shards, topology));
  }

  lemma PrependNothing(rest: Result<seq<Shard>, string>)
    ensures Prepended([], rest) == rest
  {
    if rest.Ok? {
      assert [] + rest.value == rest.value;
    }
  }

  lemma AppendShard(shards: seq<Shard>, shard: Shard, rest: Result<seq<Shard>, string>)
    ensures Prepended(shards, Prepended([shard], rest)) == Prepended(shards + [shard], rest)
  {
    if rest.Ok? {
      assert shards + ([shard] + rest.value) == (shards + [shard]) + rest.value;
    }
  }

  lemma SnapGridIsWindow(viewport: Option<Bounds>, coverage: Bounds, resolution: real, geometry: Geometry, grid: Grid)
    requires SnapGrid(viewport, coverage, resolution, geometry) == Ok(grid)
    ensures Width(grid) > 0 && Height(grid) > 0 && grid.indexStep > 0.0
  {
    hide EffectiveBox, AlignedCount, SnapAxis, CellSpan;
  }

  lemma SnapGridAxes(viewport: Option<Bounds>, coverage: Bounds, resolution: real, geometry: Geometry, grid: Grid)
    requires SnapGrid(viewport, coverage, resolution, geometry) == Ok(grid)
    ensures geometry.baseResolution > 0.0
    ensures grid.columnIndexStart == (coverage.west - geometry.originLon) * geometry.unitsPerDegree
    ensures grid.rowIndexStart == (geometry.originLat - coverage.north) * geometry.unitsPerDegree
    ensures grid.indexStep == resolution / geometry.baseResolution
  {
    hide EffectiveBox, AlignedCount, SnapAxis, CellSpan;
  }

  // ----- what the plan promises ------------------------------------------------------------------------------------

  function TotalLimit(shards: seq<Shard>): int {
    if shards == [] then 0 else shards[0].limit + TotalLimit(shards[1..])
  }

  /** A shard reads the whole width of the window for its rows, within one page, at the source's own indexes. */
  ghost predicate FitsPage(shard: Shard, index: int, grid: Grid, page: int) {
    && shard.index == index
    && shard.columnStart == grid.columnStart && shard.columnStop == grid.columnStop
    && shard.rowStart < shard.rowStop
    && shard.limit == (shard.rowStop - shard.rowStart) * Width(grid)
    && 1 <= shard.limit <= page
    && shard.sourceRowStart as real == RowIndex(grid, shard.rowStart)
    && shard.sourceRowStop as real == RowIndex(grid, shard.rowStop)
    && shard.sourceColumnStart as real == ColumnIndex(grid, grid.columnStart)
    && shard.sourceColumnStop as real == ColumnIndex(grid, grid.columnStop)
    && shard.shardId == ShardId(Window(shard.sourceRowStart, shard.sourceRowStop, shard.sourceColumnStart, shard.sourceColumnStop))
  }

  ghost predicate TilesWindow(plan: QueryPlan, page: int) {
    var shards, grid := plan.shards, plan.grid;
    && |shards| == plan.topologyShardCount >= 1
    && (forall k :: 0 <= k < |shards| ==> FitsPage(shards[k], k, grid, page))
    && shards[0].rowStart == grid.rowStart && shards[|shards| - 1].rowStop == grid.rowStop
    && (forall i, j :: 0 <= i < j < |shards| && j == i + 1 ==>
          shards[i].rowStop == shards[j].rowStart && shards[i].sourceRowStop == shards[j].sourceRowStart)
  }

  ghost predicate DistinctShardIds(shards: seq<Shard>) {
    forall i, j :: 0 <= i < j < |shards| ==> shards[i].shardId != shards[j].shardId
  }

  lemma {:induction false} ShardsFollowBands(grid: Grid, bands: seq<Band>, first: nat, shards: seq<Shard>)
    requires ShardsOf(grid, bands, first) == Ok(shards)
    ensures |shards| == |bands|
    ensures forall k :: 0 <= k < |shards| ==> ShardOf(grid, first + k, bands[k]) == Ok(shards[k])
    ensures TotalLimit(shards) == Cells(bands, Width(grid))
  {
    hide ShardId, IntegralIndex, RowIndex, ColumnIndex;
    if bands != [] {
      ShardsFollowBands(grid, bands[1..], first + 1, shards[1..]);
    }
  }

  lemma ShardFits(grid: Grid, index: nat, band: Band, shard: Shard, page: int)
    requires ShardOf(grid, index, band) == Ok(shard)
    requires Width(grid) > 0 && band.start < band.stop <= band.start + page / Width(grid)
    ensures FitsPage(shard, index, grid, page)
    ensures shard.rowStart == band.start && shard.rowStop == band.stop
  {
    hide ShardId, RowIndex, ColumnIndex, Integral;
    HeightFits(band.stop - band.start, Width(grid), page);
    Monotone(1, band.stop - band.start, Width(grid));
  }

  /** Every plan tiles its window: the shards fit the page, follow one another in window rows and in source rows, and
      their limits add up to the window; the loop makes as many of them as advertised. */
  lemma PlanTiles(grid: Grid, page: int, plan: QueryPlan)
    requires PlanOf(grid, page) == Ok(plan)
    ensures plan.grid == grid && TilesWindow(plan, page)
    ensures TotalLimit(plan.shards) == Height(grid) * Width(grid)
  {
    hide ShardOf, CeilDiv, FitsPage, ShardsOf, BandHeight, Bands, TotalLimit, Cells;
    var rows, width := Height(grid), Width(grid);
    HeightPositive(rows, width, page);
    CeilDivBounds(rows, page / width);
    var step := BandHeight(rows, width, page);
    var bands := Bands(grid.rowStart, grid.rowStop, step);
    BandsTile(grid.rowStart, grid.rowStop, step, width);
    ShardsFollowBands(grid, bands, 0, plan.shards);
    forall k | 0 <= k < |bands|
      ensures FitsPage(plan.shards[k], k, grid, page)
      ensures plan.shards[k].rowStart == bands[k].start && plan.shards[k].rowStop == bands[k].stop
    {
      ShardFits(grid, k, bands[k], plan.shards[k], page);
    }
    forall i, j | 0 <= i < j < |bands| && j == i + 1 ensures plan.shards[i].sourceRowStop == plan.shards[j].sourceRowStart {
      SourceRangesAbut(plan.shards[i], plan.shards[j], i, j, grid, page);
    }
  }

  lemma SourceRangesAbut(a: Shard, b: Shard, i: int, j: int, grid: Grid, page: int)
    requires FitsPage(a, i, grid, page) && FitsPage(b, j, grid, page) && a.rowStop == b.rowStart
    ensures a.sourceRowStop == b.sourceRowStart
  {
    hide ShardId, RowIndex, ColumnIndex, Width;
  }

  lemma {:induction false} RowsIncrease(plan: QueryPlan, page: int, i: int, j: int)
    requires TilesWindow(plan, page) && 0 <= i < j < |plan.shards|
    ensures plan.shards[i].rowStop <= plan.shards[j].rowStart
    decreases j
  {
    hide ShardId, RowIndex, ColumnIndex, Width, TotalLimit;
    assert FitsPage(plan.shards[j - 1], j - 1, plan.grid, page);
    if i < j - 1 {
      RowsIncrease(plan, page, i, j - 1);
    }
  }

  /** No two shards of a plan share an identity, so none takes another's place in the cache or in the assembly. */
  lemma ShardIdsDiffer(plan: QueryPlan, page: int)
    requires TilesWindow(plan, page) && plan.grid.indexStep > 0.0
    ensures DistinctShardIds(plan.shards)
  {
    hide ShardId, RowIndex, ColumnIndex, Width, TotalLimit;
    forall i, j | 0 <= i < j < |plan.shards| ensures plan.shards[i].shardId != plan.shards[j].shardId {
      RowsIncrease(plan, page, i, j);
      assert FitsPage(plan.shards[i], i, plan.grid, page) && FitsPage(plan.shards[j], j, plan.grid, page);
      IndexIncreases(plan.grid, plan.shards[i].rowStart, plan.shards[j].rowStart);
      ShardIdInjective(WindowOf(plan.shards[i]), WindowOf(plan.shards[j]));
    }
  }

  function WindowOf(shard: Shard): Window {
    Window(shard.sourceRowStart, shard.sourceRowStop, shard.sourceColumnStart, shard.sourceColumnStop)
  }

  lemma IndexIncreases(grid: Grid, a: int, b: int)
    requires grid.indexStep > 0.0 && a < b
    ensures RowIndex(grid, a) < RowIndex(grid, b) && ColumnIndex(grid, a) < ColumnIndex(grid, b)
  {
    ScaleLess(a as real, b as real, grid.indexStep);
  }

  /** The main result on plans: what is returned tiles the snapped window with distinct shards, and no other way of cutting
      its rows into full-width bands that fit a page needs fewer. */
  lemma PlanIsBestTiling(viewport: Option<Bounds>, coverage: Bounds, resolution: real, geometry: Geometry, page: int,
      plan: QueryPlan, other: seq<Band>)
    requires Plan(viewport, coverage, resolution, geometry, page) == Ok(plan)
    ensures SnapGrid(viewport, coverage, resolution, geometry) == Ok(plan.grid)
    ensures TilesWindow(plan, page) && DistinctShardIds(plan.shards)
    ensures TotalLimit(plan.shards) == Height(plan.grid) * Width(plan.grid)
    ensures Contiguous(other, plan.grid.rowStart, plan.grid.rowStop)
            && (forall k :: 0 <= k < |other| ==> (other[k].stop - other[k].start) * Width(plan.grid) <= page)
            ==> |plan.shards| <= |other|
  {
    hide SnapGrid, TilesWindow, DistinctShardIds, Contiguous, ShardsOf, BandHeight, CeilDiv;
    PlanTiles(plan.grid, page, plan);
    SnapGridIsWindow(viewport, coverage, resolution, geometry, plan.grid);
    ShardIdsDiffer(plan, page);
    ShardCount(plan, page);
    if Contiguous(other, plan.grid.rowStart, plan.grid.rowStop)
       && (forall k :: 0 <= k < |other| ==> (other[k].stop - other[k].start) * Width(plan.grid) <= page) {
      FewestBands(other, plan.grid.rowStart, plan.grid.rowStop, Width(plan.grid), page);
    }
  }

  lemma ShardCount(plan: QueryPlan, page: int)
    requires TilesWindow(plan, page)
    ensures |plan.shards| == plan.topologyShardCount
  {
  }

  predicate IntegralEdges(grid: Grid, band: Band) {
    && Integral(RowIndex(grid, band.start)) && Integral(RowIndex(grid, band.stop))
    && Integral(ColumnIndex(grid, grid.columnStart)) && Integral(ColumnIndex(grid, grid.columnStop))
  }

  ghost predicate AllIntegral(grid: Grid, bands: seq<Band>) {
    forall k :: 0 <= k < |bands| ==> IntegralEdges(grid, bands[k])
  }

  lemma NoBands(grid: Grid)
    ensures AllIntegral(grid, [])
  {
  }

  lemma AllIntegralCons(grid: Grid, band: Band, rest: seq<Band>)
    ensures AllIntegral(grid, [band] + rest) <==> IntegralEdges(grid, band) && AllIntegral(grid, rest)
  {
    hide IntegralEdges;
    var bands := [band] + rest;
    assert bands[0] == band;
    assert forall k :: 0 < k < |bands| ==> bands[k] == rest[k - 1];
    assert forall k :: 0 <= k < |rest| ==> rest[k] == bands[k + 1];
  }

  lemma ShardExistsIff(grid: Grid, index: nat, band: Band)
    ensures ShardOf(grid, index, band) == Err(NOT_INTEGRAL) || (ShardOf(grid, index, band).Ok? && IntegralEdges(grid, band))
    ensures IntegralEdges(grid, band) ==> ShardOf(grid, index, band).Ok?
  {
    hide ShardId, RowIndex, ColumnIndex, Integral, Width;
  }

  lemma {:induction false} ShardsExistIff(grid: Grid, bands: seq<Band>, first: nat)
    ensures ShardsOf(grid, bands, first).Ok? <==> AllIntegral(grid, bands)
    ensures ShardsOf(grid, bands, first).Err? ==> ShardsOf(grid, bands, first).error == NOT_INTEGRAL
  {
    hide ShardOf, IntegralEdges, AllIntegral;
    if bands == [] {
      NoBands(grid);
    } else {
      ShardsExistIff(grid, bands[1..], first + 1);
      ShardExistsIff(grid, first, bands[0]);
      AllIntegralCons(grid, bands[0], bands[1..]);
      assert bands == [bands[0]] + bands[1..];
    }
  }

  lemma PlanExistsByBands(grid: Grid, page: int)
    requires Width(grid) > 0 && Height(grid) > 0
    ensures PlanOf(grid, page).Ok? <==>
            Width(grid) <= page && AllIntegral(grid, Bands(grid.rowStart, grid.rowStop, BandHeight(Height(grid), Width(grid), page)))
    ensures PlanOf(grid, page).Err? ==> PlanOf(grid, page).error == if Width(grid) <= page then NOT_INTEGRAL else PAGE_TOO_SMALL
  {
    hide AllIntegral, ShardsOf, BandHeight, CeilDiv, Bands;
    HeightFits(1, Width(grid), page);
    if page / Width(grid) >= 1 {
      HeightPositive(Height(grid), Width(grid), page);
      ShardsExistIff(grid, Bands(grid.rowStart, grid.rowStop, BandHeight(Height(grid), Width(grid), page)), 0);
    }
  }

  lemma IntegralStep(x: real, d: real)
    requires Integral(x)
    ensures Integral(x + d) <==> Integral(d)
  {
    if Integral(d) {
      assert x + d == (x.Floor + d.Floor) as real;
    }
    if Integral(x + d) {
      assert d == ((x + d).Floor - x.Floor) as real;
    }
  }

  lemma RowIndexStep(grid: Grid, row: int, step: int)
    ensures RowIndex(grid, row + step) == RowIndex(grid, row) + Edge(step, grid.indexStep)
  {
    assert ((row + step) as real) * grid.indexStep == row as real * grid.indexStep + step as real * grid.indexStep;
  }

  /** The edges of equal bands are integral when the two ends and, if there is an edge between them, the height are. */
  lemma {:induction false} BandEdgesIff(grid: Grid, start: int, stop: int, step: int)
    requires step > 0 && start < stop
    ensures AllIntegral(grid, Bands(start, stop, step)) <==>
            && Integral(RowIndex(grid, start)) && Integral(RowIndex(grid, stop))
            && Integral(ColumnIndex(grid, grid.columnStart)) && Integral(ColumnIndex(grid, grid.columnStop))
            && (start + step < stop ==> Integral(Edge(step, grid.indexStep)))
    decreases stop - start
  {
    hide Integral, RowIndex, ColumnIndex, Edge, AllIntegral;
    AllIntegralCons(grid, Band(start, AtMost(stop, start + step)), Bands(start + step, stop, step));
    NoBands(grid);
    if start + step < stop {
      BandEdgesIff(grid, start + step, stop, step);
      RowIndexStep(grid, start, step);
      if Integral(RowIndex(grid, start)) {
        IntegralStep(RowIndex(grid, start), Edge(step, grid.indexStep));
      }
    }
  }

  /** A window is cut exactly when it does not fit on one page. */
  lemma BandsNeeded(rows: int, width: int, page: int)
    requires rows > 0 && width > 0 && page / width >= 1
    ensures BandHeight(rows, width, page) < rows <==> rows * width > page
  {
    HeightFits(rows, width, page);
    HeightPositive(rows, width, page);
    hide CeilDiv;
    if rows <= page / width {
      CeilDivUnique(rows, page / width, 1);
      CeilDivUnique(rows, 1, rows);
    }
  }

  /** A snapped window can be planned exactly when a page holds one of its rows, the source numbers its four edges with
      integers and, unless one page holds all of it, the height of a band is a whole number of source rows. The error tells a
      page that is too small from indexes that are not integers. */
  lemma PlanExistsIff(grid: Grid, page: int)
    requires Width(grid) > 0 && Height(grid) > 0
    ensures PlanOf(grid, page).Ok? <==>
            && Width(grid) <= page
            && Integral(RowIndex(grid, grid.rowStart)) && Integral(RowIndex(grid, grid.rowStop))
            && Integral(ColumnIndex(grid, grid.columnStart)) && Integral(ColumnIndex(grid, grid.columnStop))
            && (Height(grid) * Width(grid) > page ==>
                  Integral(Edge(BandHeight(Height(grid), Width(grid), page), grid.indexStep)))
    ensures PlanOf(grid, page).Err? ==> PlanOf(grid, page).error == if Width(grid) <= page then NOT_INTEGRAL else PAGE_TOO_SMALL
  {
    PlanExistsByBands(grid, page);
    HeightFits(1, Width(grid), page);
    hide PlanOf, AllIntegral, BandHeight, CeilDiv, Bands, Integral, RowIndex, ColumnIndex, Edge;
    if Width(grid) <= page {
      HeightPositive(Height(grid), Width(grid), page);
      BandsNeeded(Height(grid), Width(grid), page);
      BandEdgesIff(grid, grid.rowStart, grid.rowStop, BandHeight(Height(grid), Width(grid), page));
    }
  }

  /** At the base resolution of a source that numbers its origin with an integer, a window can be planned exactly when a
      page holds one of its rows. */
  lemma UnitGridsArePlanned(grid: Grid, page: int)
    requires Width(grid) > 0 && Height(grid) > 0
    requires grid.indexStep == 1.0 && Integral(grid.rowIndexStart) && Integral(grid.columnIndexStart)
    ensures PlanOf(grid, page).Ok? <==> Width(grid) <= page
  {
    UnitStepsAreIntegral(grid);
    hide *;
    PlanExistsByBands(grid, page);
  }

  lemma UnitStepsAreIntegral(grid: Grid)
    requires grid.indexStep == 1.0 && Integral(grid.rowIndexStart) && Integral(grid.columnIndexStart)
    ensures forall bands: seq<Band> :: AllIntegral(grid, bands)
  {
    forall band: Band ensures IntegralEdges(grid, band) {
      UnitIndex(grid.rowIndexStart, band.start);
      UnitIndex(grid.rowIndexStart, band.stop);
      UnitIndex(grid.columnIndexStart, grid.columnStart);
      UnitIndex(grid.columnIndexStart, grid.columnStop);
    }
  }

  lemma UnitIndex(start: real, slot: int)
    requires Integral(start)
    ensures Integral(start + Edge(slot, 1.0))
  {
    var n := start.Floor + slot;
    assert start + Edge(slot, 1.0) == n as real;
    assert (n as real).Floor == n;
  }
}
