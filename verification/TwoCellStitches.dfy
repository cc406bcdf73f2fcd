/** The smallest window with something to stitch: two cells on two pages, and when they make one frame. */
module TwoCellStitches {
  import opened Prelude
  import opened Sequences
  import opened GridFrames
  import opened FrameMerging
  import opened GridMapping
  import opened ShardIdentity
  import opened ShardPlanning
  import opened ShardValidation
  import opened ShardAssembly

  /** Two cells, one below the other, at the base resolution. */
  const TWO_CELLS := Grid(1, 2, 0, 1, 0, 2, 0.0, 0.0, 1.0, Bounds(0.0, -2.0, 1.0, 0.0))

  /** A mapping that names the index columns only. */
  function IndexMapping(status: Value -> Value): Mapping {
    UnitGrid(map["row" := "i", "column" := "j"], status)
  }

  /** A cell of the first column, with whatever else its row says. */
  function CellRow(i: real, extra: Row): Row {
    extra["i" := Num(i)]["j" := Num(0.0)]
  }

  function TwoPages(above: Row, below: Row): seq<seq<Row>> {
    [[CellRow(0.0, above)], [CellRow(1.0, below)]]
  }

  // ----- the plan -------------------------------------------------------------------------------------------------------

  ghost predicate OneCell(shard: Shard, k: int) {
    shard.rowStart == k && shard.rowStop == k + 1 && shard.columnStart == 0 && shard.columnStop == 1 && shard.limit == 1
  }

  ghost predicate TwoShards(plan: QueryPlan) {
    plan.grid == TWO_CELLS && |plan.shards| == 2 && OneCell(plan.shards[0], 0) && OneCell(plan.shards[1], 1)
  }

  lemma FitsParts(shard: Shard, index: int, grid: Grid, page: int)
    requires FitsPage(shard, index, grid, page)
    ensures shard.columnStart == grid.columnStart && shard.columnStop == grid.columnStop
    ensures shard.limit == (shard.rowStop - shard.rowStart) * Width(grid) && 1 <= shard.limit <= page
  {
    hide ShardId, RowIndex, ColumnIndex, Width;
  }

  lemma FitsOneCell(shard: Shard, index: int)
    requires FitsPage(shard, index, TWO_CELLS, 1)
    ensures OneCell(shard, shard.rowStart)
  {
    OneWide();
    hide *;
    FitsParts(shard, index, TWO_CELLS, 1);
    CellOfWidth(shard, Width(TWO_CELLS));
  }

  lemma OneWide()
    ensures Width(TWO_CELLS) == 1 && TWO_CELLS.columnStart == 0 && TWO_CELLS.columnStop == 1
  {
  }

  lemma CellOfWidth(shard: Shard, width: int)
    requires width == 1 && shard.columnStart == 0 && shard.columnStop == 1
    requires shard.limit == (shard.rowStop - shard.rowStart) * width && 1 <= shard.limit <= 1
    ensures OneCell(shard, shard.rowStart)
  {
  }

  lemma TopologyIs(grid: Grid, page: int, plan: QueryPlan)
    requires PlanOf(grid, page) == Ok(plan)
    ensures Width(grid) > 0 && page / Width(grid) >= 1 && plan.topologyShardCount == CeilDiv(Height(grid), page / Width(grid))
  {
    hide ShardsOf, Bands, BandHeight, CeilDiv;
  }

  lemma TwoBands(plan: QueryPlan)
    requires PlanOf(TWO_CELLS, 1) == Ok(plan)
    ensures plan.topologyShardCount == 2
  {
    hide PlanOf;
    TopologyIs(TWO_CELLS, 1, plan);
  }

  /** A page of one row cuts them into two shards. */
  lemma TwoCellPlan() returns (plan: QueryPlan)
    ensures PlanOf(TWO_CELLS, 1) == Ok(plan) && TilesWindow(plan, 1) && TwoShards(plan)
  {
    TwoCellsArePlanned();
    plan := PlanOf(TWO_CELLS, 1).value;
    hide *;
    PlanTiles(TWO_CELLS, 1, plan);
    TwoBands(plan);
    TilesIntoTwo(plan);
  }

  lemma TwoCellsArePlanned()
    ensures PlanOf(TWO_CELLS, 1).Ok?
  {
    hide PlanOf;
    assert Integral(0.0);
    UnitGridsArePlanned(TWO_CELLS, 1);
  }

  lemma TilesIntoTwo(plan: QueryPlan)
    requires plan.grid == TWO_CELLS && TilesWindow(plan, 1) && plan.topologyShardCount == 2
    ensures TwoShards(plan)
  {
    hide FitsPage, OneCell;
    FitsOneCell(plan.shards[0], 0);
    FitsOneCell(plan.shards[1], 1);
    assert plan.shards[0].rowStart == 0 && plan.shards[0].rowStop == plan.shards[1].rowStart;
    CellEnds(plan.shards[0], 0);
  }

  lemma CellEnds(shard: Shard, k: int)
    requires OneCell(shard, k)
    ensures shard.rowStop == k + 1
  {
  }

  // ----- the pages -----------------------------------------------------------------------------------------------------

  lemma CellRowPlaced(status: Value -> Value, shard: Shard, k: int, extra: Row)
    requires OneCell(shard, k)
    ensures RowMajor(TWO_CELLS, shard, Identities(IndexMapping(status), [CellRow(k as real, extra)]))
  {
    var m, row := IndexMapping(status), CellRow(k as real, extra);
    assert Primary(m, "row") == "i" && Primary(m, "column") == "j";
    DirectPath(row, "i");
    DirectPath(row, "j");
    hide PathValue;
    assert Identities(m, [row]) == [Cell(Some(k as real), Some(0.0))];
    assert Expected(TWO_CELLS, shard, 0) == (k as real, 0.0);
  }

  lemma TwoPagesAccepted(status: Value -> Value, plan: QueryPlan, above: Row, below: Row)
    requires TwoShards(plan)
    ensures Accepted(IndexMapping(status), plan, TwoPages(above, below))
  {
    CellRowPlaced(status, plan.shards[0], 0, above);
    CellRowPlaced(status, plan.shards[1], 1, below);
    hide RowMajor, Identities, CellRow, IndexMapping;
  }

  lemma IndexFieldsDiffer(status: Value -> Value)
    ensures NoDup(Fields(IndexMapping(status))) && Primary(IndexMapping(status), "id") == ""
  {
    StandardFieldsDiffer();
    assert ExtensionNames(IndexMapping(status)) == [];
    hide NoDup;
  }

  lemma TwoRows(above: Row, below: Row)
    ensures Flatten(TwoPages(above, below)) == [CellRow(0.0, above), CellRow(1.0, below)]
  {
    hide CellRow;
    var pages := TwoPages(above, below);
    assert pages[..1] == [pages[0]] && pages[..1][..0] == [];
    assert Flatten(pages[..1]) == [CellRow(0.0, above)];
  }

  // ----- what they hoist -------------------------------------------------------------------------------------------------

  lemma FrameCells(r: Canonical)
    ensures CellsOf(r)[10 + |r.extensions|] == r.date && CellsOf(r)[11 + |r.extensions|] == NumberValue(r.resolution)
  {
    hide NumberValue;
  }

  lemma FrameValues(m: Mapping, context: Context, rows: seq<Row>, k: int)
    requires NoDup(Fields(m)) && 0 <= k < |rows|
    ensures Get(CanonicalRows(m, context, rows)[k], "date") == MapRow(m, context, rows[k]).date
    ensures Get(CanonicalRows(m, context, rows)[k], "resolution_km") == NumberValue(MapRow(m, context, rows[k]).resolution)
  {
    FrameCells(MapRow(m, context, rows[k]));
    var fields := Fields(m);
    var n := |fields| - 2;
    assert fields[n] == "date" && fields[n + 1] == "resolution_km";
    assert |MapRow(m, context, rows[k]).extensions| == |m.extensions|;
    hide MapRow, CellsOf, Fields;
    assert IndexOf(fields, fields[n]) == n && IndexOf(fields, fields[n + 1]) == n + 1;
  }

  lemma SameNumber(a: Option<real>, b: Option<real>)
    ensures NumberValue(a) == NumberValue(b) <==> a == b
  {
  }

  lemma OneRowConstant(rows: seq<Row>, name: string)
    requires |rows| == 1
    ensures Constant(rows, name)
  {
  }

  lemma TwoRowsConstant(rows: seq<Row>, name: string)
    requires |rows| == 2
    ensures Constant(rows, name) <==> Get(rows[1], name) == Get(rows[0], name)
  {
    hide Get;
  }

  lemma TwoPagesParts(m: Mapping, context: Context, above: Row, below: Row)
    ensures var pieces := CanonicalPieces(m, context, TwoPages(above, below));
            && |pieces| == 2 && |pieces[0]| == |pieces[1]| == 1
            && Flatten(pieces) == CanonicalRows(m, context, [CellRow(0.0, above), CellRow(1.0, below)])
  {
    hide CanonicalRows, CellRow, Flatten;
    TwoRows(above, below);
    CanonicalFlatten(m, context, TwoPages(above, below));
  }

  /** Pages of one row each hoist alike exactly when date and resolution are the same on both. */
  lemma TwoPagesHoistIff(m: Mapping, context: Context, above: Row, below: Row)
    requires NoDup(Fields(m))
    ensures var a, b := MapRow(m, context, CellRow(0.0, above)), MapRow(m, context, CellRow(1.0, below));
            ShardsHoistAlike(m, context, TwoPages(above, below)) <==> a.date == b.date && a.resolution == b.resolution
  {
    var rows, pieces := [CellRow(0.0, above), CellRow(1.0, below)], CanonicalPieces(m, context, TwoPages(above, below));
    TwoPagesParts(m, context, above, below);
    FrameValues(m, context, rows, 0);
    FrameValues(m, context, rows, 1);
    SameNumber(MapRow(m, context, rows[0]).resolution, MapRow(m, context, rows[1]).resolution);
    TwoRowsConstant(Flatten(pieces), "date");
    TwoRowsConstant(Flatten(pieces), "resolution_km");
    HoistTwo(pieces);
    hide *;
    assert ShardsHoistAlike(m, context, TwoPages(above, below)) <==> HoistingAgrees({"date", "resolution_km"}, pieces) by {
      HoistingIs(m, context, TwoPages(above, below));
    }
  }

  lemma HoistingIs(m: Mapping, context: Context, pages: seq<seq<Row>>)
    ensures ShardsHoistAlike(m, context, pages) <==> HoistingAgrees({"date", "resolution_km"}, CanonicalPieces(m, context, pages))
  {
    hide HoistingAgrees, CanonicalPieces;
  }

  lemma HoistTwo(pieces: seq<seq<Row>>)
    requires |pieces| == 2 && |pieces[0]| == |pieces[1]| == 1
    ensures HoistingAgrees({"date", "resolution_km"}, pieces) <==>
            Constant(Flatten(pieces), "date") && Constant(Flatten(pieces), "resolution_km")
  {
    OneRowConstant(pieces[0], "date");
    OneRowConstant(pieces[0], "resolution_km");
    hide Constant, Flatten;
  }

  // ----- stitching -----------------------------------------------------------------------------------------------------

  lemma TwoIdentities(status: Value -> Value, above: Row, below: Row)
    ensures var m := IndexMapping(status);
            DistinctUnmapped(m, map[], Flatten(TwoPages(above, below))) <==>
            MapRow(m, map[], CellRow(0.0, above)).cellId != MapRow(m, map[], CellRow(1.0, below)).cellId
  {
    IndexFieldsDiffer(status);
    hide *;
    UnmappedLookup(IndexMapping(status), map[], CellRow(0.0, above));
    UnmappedLookup(IndexMapping(status), map[], CellRow(1.0, below));
    TwoRows(above, below);
    TwoDistinct(IndexMapping(status), map[], CellRow(0.0, above), CellRow(1.0, below));
  }

  lemma TwoDistinct(m: Mapping, context: Context, a: Row, b: Row)
    ensures DistinctUnmapped(m, context, [a, b]) <==> UnmappedIdentity(m, context, a) != UnmappedIdentity(m, context, b)
  {
    hide UnmappedIdentity;
    assert [a, b][0] == a && [a, b][1] == b;
  }

  /** Both cells have the same date and resolution, and different identities. */
  predicate OneFrame(a: Canonical, b: Canonical) {
    a.date == b.date && a.resolution == b.resolution && a.cellId != b.cellId
  }

  /** Two cells whose identity is not mapped are stitched exactly when date and resolution agree and their rows tell them
      apart. */
  lemma TwoCellsStitchIff(status: Value -> Value, plan: QueryPlan, above: Row, below: Row)
    requires TilesWindow(plan, 1) && TwoShards(plan)
    ensures Accepted(IndexMapping(status), plan, TwoPages(above, below))
    ensures WellFormedParts(MappedShards(IndexMapping(status), map[], TwoPages(above, below)))
    ensures Stitched(plan, MappedShards(IndexMapping(status), map[], TwoPages(above, below))).Ok? <==>
            OneFrame(MapRow(IndexMapping(status), map[], CellRow(0.0, above)), MapRow(IndexMapping(status), map[], CellRow(1.0, below)))
  {
    IndexFieldsDiffer(status);
    hide *;
    PlanWidth(plan);
    TwoPagesAccepted(status, plan, above, below);
    TwoPagesHoistIff(IndexMapping(status), map[], above, below);
    TwoIdentities(status, above, below);
    UnmappedIdentityIff(IndexMapping(status), map[], plan, 1, TwoPages(above, below));
    OneFrameIs(MapRow(IndexMapping(status), map[], CellRow(0.0, above)), MapRow(IndexMapping(status), map[], CellRow(1.0, below)));
  }

  lemma OneFrameIs(a: Canonical, b: Canonical)
    ensures OneFrame(a, b) <==> a.date == b.date && a.resolution == b.resolution && a.cellId != b.cellId
  {
  }

  lemma PlanWidth(plan: QueryPlan)
    requires TwoShards(plan)
    ensures Width(plan.grid) > 0
  {
  }

  // ----- three windows ----------------------------------------------------------------------------------------------------

  /** Rows that leave the resolution to the grid. */
  predicate Plainly(extra: Row) {
    "resolution_km" !in extra && "resolution" !in extra && "time" !in extra
  }

  function DateIn(extra: Row): Value {
    if "date" in extra then extra["date"] else Null
  }

  function IdIn(extra: Row): Value {
    if "cell_id" in extra then extra["cell_id"] else if "id" in extra then extra["id"] else Null
  }

  /** What the row mapper makes of a cell's date, resolution and identity. */
  lemma CellValues(status: Value -> Value, i: real, extra: Row)
    requires Plainly(extra)
    ensures var c := MapRow(IndexMapping(status), map[], CellRow(i, extra));
            c.date == DateIn(extra) && c.resolution == Some(1.0) && c.cellId == IdIn(extra)
  {
    hide PathValue, StatedBox, IndexBox, CenterBox, RowValue, Candidates;
    var m, row := IndexMapping(status), CellRow(i, extra);
    assert Primary(m, "time") == Primary(m, "resolution") == Primary(m, "id") == "";
    UnmappedRole(m, map[], row, "time");
    UnmappedRole(m, map[], row, "resolution");
    UnmappedRole(m, map[], row, "id");
  }

  /** The same condition on the columns of the rows. */
  lemma PlainCellsStitchIff(status: Value -> Value, plan: QueryPlan, above: Row, below: Row)
    requires TilesWindow(plan, 1) && TwoShards(plan) && Plainly(above) && Plainly(below)
    ensures Accepted(IndexMapping(status), plan, TwoPages(above, below))
    ensures WellFormedParts(MappedShards(IndexMapping(status), map[], TwoPages(above, below)))
    ensures Stitched(plan, MappedShards(IndexMapping(status), map[], TwoPages(above, below))).Ok? <==>
            DateIn(above) == DateIn(below) && IdIn(above) != IdIn(below)
  {
    hide *;
    PlanWidth(plan);
    CellValues(status, 0.0, above);
    CellValues(status, 1.0, below);
    OneFrameIs(MapRow(IndexMapping(status), map[], CellRow(0.0, above)), MapRow(IndexMapping(status), map[], CellRow(1.0, below)));
    TwoCellsStitchIff(status, plan, above, below);
  }

  const UNNAMED: Row := map[]
  const FIRST: Row := map["cell_id" := Num(1.0)]
  const SECOND: Row := map["cell_id" := Num(2.0)]
  const FIRST_DATED: Row := map["cell_id" := Num(1.0), "date" := Num(1.0)]
  const SECOND_DATED: Row := map["cell_id" := Num(2.0), "date" := Num(2.0)]

  ghost predicate Stitches(status: Value -> Value, plan: QueryPlan, above: Row, below: Row) {
    && WellFormedParts(MappedShards(IndexMapping(status), map[], TwoPages(above, below)))
    && Stitched(plan, MappedShards(IndexMapping(status), map[], TwoPages(above, below))).Ok?
  }

  /** On the planner's own plan, with pages it accepts: rows that name their cells in no way fail, rows with a column
      "cell_id" that no mapping mentions are stitched, and rows that also have a date each fail again, because every page
      hoists its own. */
  lemma ThreeWindows(status: Value -> Value) returns (plan: QueryPlan)
    ensures PlanOf(TWO_CELLS, 1) == Ok(plan) && Width(plan.grid) > 0
    ensures Accepted(IndexMapping(status), plan, TwoPages(UNNAMED, UNNAMED)) && !Stitches(status, plan, UNNAMED, UNNAMED)
    ensures Accepted(IndexMapping(status), plan, TwoPages(FIRST, SECOND)) && Stitches(status, plan, FIRST, SECOND)
    ensures Accepted(IndexMapping(status), plan, TwoPages(FIRST_DATED, SECOND_DATED)) && !Stitches(status, plan, FIRST_DATED, SECOND_DATED)
  {
    plan := TwoCellPlan();
    hide IndexMapping, Stitched, MappedShards, TwoPages, Accepted, TilesWindow, TwoShards, PlanOf, WellFormedParts, Width;
    PlanWidth(plan);
    PlainCellsStitchIff(status, plan, UNNAMED, UNNAMED);
    PlainCellsStitchIff(status, plan, FIRST, SECOND);
    PlainCellsStitchIff(status, plan, FIRST_DATED, SECOND_DATED);
  }
}
