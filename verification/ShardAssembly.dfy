/** Stitching mapped shards in plan order, and why the stitched frame is the frame of one plain read of the window. */
module ShardAssembly {
  import opened Prelude
  import opened Sequences
  import opened GridFrames
  import opened FrameMerging
  import opened GridMapping
  import opened ShardPlanning
  import opened ShardValidation

  datatype CanonicalShard = CanonicalShard(frame: Frame, sourceRows: int, duplicates: int)

  datatype Assembled = Assembled(frame: Frame, sourceRows: int, duplicates: int, shardCount: int)

  const ADDED_TWICE := "sampled-grid shard was added twice"
  const WRONG_ROW_COUNT := "sampled-grid shard has the wrong row count"
  const MISSING_SHARDS := "sampled-grid frame is missing shards"
  const INCOMPLETE_FRAME := "sampled-grid frame is incomplete after stitching"
  const DUPLICATE_IDS := "sampled-grid frame contains duplicate canonical cell identities"

  // ----- stitching -----------------------------------------------------------------------------------------------

  function ExpectedRows(plan: QueryPlan): int {
    Width(plan.grid) * Height(plan.grid)
  }

  ghost predicate WellFormedParts(parts: seq<CanonicalShard>) {
    forall k :: 0 <= k < |parts| ==> WellFormed(parts[k].frame)
  }

  function Views(parts: seq<CanonicalShard>): (views: seq<View>)
    ensures |views| == |parts| && forall k :: 0 <= k < |parts| ==> views[k] == View(parts[k].frame, None)
  {
    seq(|parts|, k requires 0 <= k < |parts| => View(parts[k].frame, None))
  }

  function TotalSourceRows(parts: seq<CanonicalShard>): int {
    if parts == [] then 0 else TotalSourceRows(parts[..|parts| - 1]) + parts[|parts| - 1].sourceRows
  }

  function TotalDuplicates(parts: seq<CanonicalShard>): int {
    if parts == [] then 0 else TotalDuplicates(parts[..|parts| - 1]) + parts[|parts| - 1].duplicates
  }

  /** The checks on a stitched frame: its size, and that no two cells share an identity. */
  function FrameError(plan: QueryPlan, frame: Frame): Option<string> {
    if frame.rowCount != ExpectedRows(plan) then Some(INCOMPLETE_FRAME)
    else if "cell_id" in frame.rowFields && |frame.rowFields| == |frame.columns|
            && |Distinct(frame.columns[IndexOf(frame.rowFields, "cell_id")])| != frame.rowCount then Some(DUPLICATE_IDS)
    else None
  }

  function Distinct(values: seq<Value>): set<Value> {
    set v | v in values
  }

  /** What stitching the parts, already in plan order, gives. */
  ghost function Stitched(plan: QueryPlan, parts: seq<CanonicalShard>): Result<Assembled, string>
    requires WellFormedParts(parts)
  {
    var merged := if |parts| == 1 then Ok(parts[0].frame) else Merged(Views(parts));
    if merged.Err? then Err(merged.error)
    else
      var wrong := FrameError(plan, merged.value);
      if wrong.Some? then Err(wrong.value)
      else Ok(Assembled(merged.value, TotalSourceRows(parts), TotalDuplicates(parts), |parts|))
  }

  /** The added shards in plan order. */
  function InPlanOrder(plan: QueryPlan, shards: map<string, CanonicalShard>): (parts: seq<CanonicalShard>)
    requires forall k :: 0 <= k < |plan.shards| ==> plan.shards[k].shardId in shards
    ensures |parts| == |plan.shards| && forall k :: 0 <= k < |parts| ==> parts[k] == shards[plan.shards[k].shardId]
  {
    seq(|plan.shards|, k requires 0 <= k < |plan.shards| => shards[plan.shards[k].shardId])
  }

  class SampledGridFrameAssembler {
    const plan: QueryPlan
    var shards: map<string, CanonicalShard>

    ghost predicate Valid()
      reads this
    {
      forall id :: id in shards ==> WellFormed(shards[id].frame)
    }

    constructor (plan: QueryPlan)
      ensures this.plan == plan && shards == map[] && Valid()
    {
      this.plan := plan;
      shards := map[];
    }

    /** A shard is added once, and only with as many rows as planned. */
    method AddShard(shardPlan: Shard, shard: CanonicalShard) returns (r: Result<(), string>)
      requires Valid() && WellFormed(shard.frame)
      modifies this
      ensures Valid()
      ensures r == if shardPlan.shardId in old(shards) then Err(ADDED_TWICE)
                   else if shard.frame.rowCount != shardPlan.limit then Err(WRONG_ROW_COUNT) else Ok(())
      ensures shards == if r.Ok? then old(shards)[shardPlan.shardId := shard] else old(shards)
    {
      if shardPlan.shardId in shards {
        return Err(ADDED_TWICE);
      }
      if shard.frame.rowCount != shardPlan.limit {
        return Err(WRONG_ROW_COUNT);
      }
      shards := shards[shardPlan.shardId := shard];
      return Ok(());
    }

    /** Whatever the order in which shards were added, they are stitched in plan order. */
    method Finish() returns (r: Result<Assembled, string>)
      requires Valid()
      ensures (exists k :: 0 <= k < |plan.shards| && plan.shards[k].shardId !in shards) ==> r == Err(MISSING_SHARDS)
      ensures (forall k :: 0 <= k < |plan.shards| ==> plan.shards[k].shardId in shards) ==>
                WellFormedParts(InPlanOrder(plan, shards)) && r == Stitched(plan, InPlanOrder(plan, shards))
    {
      hide Merged, FrameError, WellFormed;
      var parts: seq<CanonicalShard> := [];
      var k, sourceRows, duplicates := 0, 0, 0;
      while k < |plan.shards|
        invariant 0 <= k <= |plan.shards| && |parts| == k
        invariant forall j :: 0 <= j < k ==> plan.shards[j].shardId in shards && parts[j] == shards[plan.shards[j].shardId]
        invariant sourceRows == TotalSourceRows(parts) && duplicates == TotalDuplicates(parts)
      {
        if plan.shards[k].shardId !in shards {
          return Err(MISSING_SHARDS);
        }
        var part := shards[plan.shards[k].shardId];
        assert (parts + [part])[..k] == parts;
        parts := parts + [part];
        sourceRows, duplicates := sourceRows + part.sourceRows, duplicates + part.duplicates;
        k := k + 1;
      }
      assert parts == InPlanOrder(plan, shards);
      var merged: Result<Frame, string>;
      if |parts| == 1 {
        merged := Ok(parts[0].frame);
      } else {
        merged := MergeViews(Views(parts));
      }
      if merged.Err? {
        return Err(merged.error);
      }
      var wrong := FrameError(plan, merged.value);
      if wrong.Some? {
        return Err(wrong.value);
      }
      return Ok(Assembled(merged.value, sourceRows, duplicates, |parts|));
    }
  }

  // ----- when stitching succeeds -----------------------------------------------------------------------------------------

  /** No two cells of a frame share an identity, if the identities are a column of its own. */
  ghost predicate OwnIdentities(f: Frame)
    requires WellFormed(f)
  {
    forall c, i, j :: 0 <= c < |f.rowFields| && f.rowFields[c] == "cell_id" && 0 <= i < j < f.rowCount ==> f.columns[c][i] != f.columns[c][j]
  }

  lemma IdentitiesDiffer(f: Frame)
    requires WellFormed(f) && "cell_id" in f.rowFields
    ensures |Distinct(f.columns[IndexOf(f.rowFields, "cell_id")])| == f.rowCount <==> OwnIdentities(f)
  {
    var at := IndexOf(f.rowFields, "cell_id");
    DistinctIff(f.columns[at]);
    assert f.rowFields[at] == "cell_id" && |f.columns[at]| == f.rowCount;
    if OwnIdentities(f) {
      assert NoDup(f.columns[at]);
    } else {
      var c, i, j :| 0 <= c < |f.rowFields| && f.rowFields[c] == "cell_id" && 0 <= i < j < f.rowCount && f.columns[c][i] == f.columns[c][j];
      assert f.rowFields[at] == f.rowFields[c];
    }
  }

  lemma MergedIsWellFormed(views: seq<View>)
    requires AllValid(views)
    ensures Merged(views).Ok? ==> WellFormed(Merged(views).value)
  {
    hide MergedFrame, Conflict, NonEmpty;
  }

  /** Parts are stitched exactly when their frames merge, a single one standing for itself, into as many cells as the plan's window
      has, no two with one identity; the sums and the number of parts are those of the parts. */
  lemma StitchedIff(plan: QueryPlan, parts: seq<CanonicalShard>, merged: Result<Frame, string>)
    requires WellFormedParts(parts) && merged == (if |parts| == 1 then Ok(parts[0].frame) else Merged(Views(parts)))
    ensures merged.Ok? ==> WellFormed(merged.value)
    ensures var r := Stitched(plan, parts);
            var cells := (plan.grid.columnStop - plan.grid.columnStart) * (plan.grid.rowStop - plan.grid.rowStart);
            if merged.Err? then r == Err(merged.error)
            else if merged.value.rowCount != cells then r == Err(INCOMPLETE_FRAME)
            else if !OwnIdentities(merged.value) then r == Err(DUPLICATE_IDS)
            else r.Ok? && r.value.frame == merged.value && r.value.shardCount == |parts|
  {
    MergedIsWellFormed(Views(parts));
    if merged.Ok? && "cell_id" in merged.value.rowFields {
      IdentitiesDiffer(merged.value);
    }
    hide Merged, Distinct, WellFormed, Views;
  }

  // ----- the listing of the whole window -------------------------------------------------------------------------------

  /** The row and column index of each row, as the validator reads them. */
  function Identities(m: Mapping, rows: seq<Row>): (cells: seq<Cell>)
    ensures |cells| == |rows|
    ensures forall k :: 0 <= k < |rows| ==>
              cells[k] == Cell(Number(PathValue(rows[k], Primary(m, "row"))), Number(PathValue(rows[k], Primary(m, "column"))))
  {
    seq(|rows|, k requires 0 <= k < |rows| =>
      Cell(Number(PathValue(rows[k], Primary(m, "row"))), Number(PathValue(rows[k], Primary(m, "column")))))
  }

  /** The rows [rowStart, stop) of the window as one shard; up to its last row it is the window itself. */
  function TopOf(grid: Grid, stop: int): Shard {
    Shard(0, "", (stop - grid.rowStart) * Width(grid), grid.rowStart, stop, grid.columnStart, grid.columnStop, 0, 0, 0, 0)
  }

  function WholeWindow(grid: Grid): Shard {
    TopOf(grid, grid.rowStop)
  }

  ghost predicate Accepted(m: Mapping, plan: QueryPlan, pages: seq<seq<Row>>)
    requires Width(plan.grid) > 0
  {
    && |pages| == |plan.shards|
    && forall k :: 0 <= k < |pages| ==>
         ColumnCount(plan.shards[k]) > 0 && RowMajor(plan.grid, plan.shards[k], Identities(m, pages[k]))
  }

  lemma SplitPosition(before: int, local: int, width: int)
    requires width > 0
    ensures (before * width + local) / width == before + local / width
    ensures (before * width + local) % width == local % width
  {
    DivideUnique(before * width + local, width, before + local / width, local % width);
    assert (before + local / width) * width == before * width + (local / width) * width;
  }

  /** Appending the page of the next band to the rows above it. */
  lemma AppendBand(grid: Grid, top: int, shard: Shard, above: seq<Cell>, page: seq<Cell>)
    requires Width(grid) > 0 && top >= grid.rowStart && RowMajor(grid, TopOf(grid, top), above)
    requires shard.rowStart == top < shard.rowStop && shard.columnStart == grid.columnStart && shard.columnStop == grid.columnStop
    requires shard.limit == (shard.rowStop - shard.rowStart) * Width(grid)
    requires RowMajor(grid, shard, page)
    ensures RowMajor(grid, TopOf(grid, shard.rowStop), above + page)
  {
    hide RowIndex, ColumnIndex;
    var whole := TopOf(grid, shard.rowStop);
    Distribute(top - grid.rowStart, shard.rowStop - top, Width(grid));
    forall p | 0 <= p < |above + page|
      ensures (above + page)[p] == Cell(Some(Expected(grid, whole, p).0), Some(Expected(grid, whole, p).1))
    {
      if p >= |above| {
        SplitPosition(top - grid.rowStart, p - |above|, Width(grid));
      }
    }
  }

  lemma BandAt(plan: QueryPlan, page: int, k: int)
    requires TilesWindow(plan, page) && 0 <= k < |plan.shards|
    ensures var shard, grid := plan.shards[k], plan.grid;
            && shard.rowStart == (if k == 0 then grid.rowStart else plan.shards[k - 1].rowStop)
            && shard.rowStart < shard.rowStop && shard.columnStart == grid.columnStart && shard.columnStop == grid.columnStop
            && shard.limit == (shard.rowStop - shard.rowStart) * Width(grid)
  {
    hide RowIndex, ColumnIndex, Width, Height;
    assert FitsPage(plan.shards[k], k, plan.grid, page);
  }

  lemma IdentitiesAppend(m: Mapping, a: seq<Row>, b: seq<Row>)
    ensures Identities(m, a + b) == Identities(m, a) + Identities(m, b)
  {
  }

  lemma FlattenStep(pages: seq<seq<Row>>, n: int)
    requires 0 < n <= |pages|
    ensures Flatten(pages[..n]) == Flatten(pages[..n - 1]) + pages[n - 1]
  {
    assert pages[..n][..n - 1] == pages[..n - 1];
  }

  lemma AcceptedAt(m: Mapping, plan: QueryPlan, pages: seq<seq<Row>>, k: int)
    requires Width(plan.grid) > 0 && Accepted(m, plan, pages) && 0 <= k < |pages|
    ensures |pages| == |plan.shards| && ColumnCount(plan.shards[k]) > 0
    ensures RowMajor(plan.grid, plan.shards[k], Identities(m, pages[k]))
  {
  }

  lemma {:induction false} PagesListTop(m: Mapping, plan: QueryPlan, page: int, pages: seq<seq<Row>>, n: int)
    requires Width(plan.grid) > 0 && TilesWindow(plan, page) && Accepted(m, plan, pages) && 0 < n <= |pages| == |plan.shards|
    ensures RowMajor(plan.grid, TopOf(plan.grid, plan.shards[n - 1].rowStop), Identities(m, Flatten(pages[..n])))
    ensures plan.shards[n - 1].rowStop >= plan.grid.rowStart
    decreases n
  {
    hide RowMajor, Expected, TilesWindow, Accepted, Flatten, Identities, PathValue, Number;
    var grid := plan.grid;
    BandAt(plan, page, n - 1);
    AcceptedAt(m, plan, pages, n - 1);
    FlattenStep(pages, n);
    IdentitiesAppend(m, Flatten(pages[..n - 1]), pages[n - 1]);
    if n == 1 {
      NothingListed(grid);
      assert Identities(m, Flatten(pages[..0])) == [] by { NothingFlattened(m, pages); }
      AppendBand(grid, grid.rowStart, plan.shards[0], [], Identities(m, pages[0]));
    } else {
      PagesListTop(m, plan, page, pages, n - 1);
      AppendBand(grid, plan.shards[n - 2].rowStop, plan.shards[n - 1], Identities(m, Flatten(pages[..n - 1])), Identities(m, pages[n - 1]));
    }
  }

  lemma NothingFlattened(m: Mapping, pages: seq<seq<Row>>)
    ensures Identities(m, Flatten(pages[..0])) == []
  {
    assert Flatten(pages[..0]) == [];
  }

  lemma NothingListed(grid: Grid)
    requires Width(grid) > 0
    ensures RowMajor(grid, TopOf(grid, grid.rowStart), [])
  {
  }

  lemma LastBand(plan: QueryPlan, page: int)
    requires TilesWindow(plan, page)
    ensures |plan.shards| >= 1 && TopOf(plan.grid, plan.shards[|plan.shards| - 1].rowStop) == WholeWindow(plan.grid)
  {
  }

  /** The accepted pages of a plan, one after the other, are the row-major listing of the whole window: every cell is
      there, each once, in order. */
  lemma PagesListWindow(m: Mapping, plan: QueryPlan, page: int, pages: seq<seq<Row>>)
    requires Width(plan.grid) > 0 && TilesWindow(plan, page) && Accepted(m, plan, pages)
    ensures RowMajor(plan.grid, WholeWindow(plan.grid), Identities(m, Flatten(pages)))
  {
    LastBand(plan, page);
    assert |pages| == |plan.shards|;
    hide *;
    PagesListTop(m, plan, page, pages, |pages|);
    assert pages[..|pages|] == pages;
  }

  /** In a row-major listing every cell of the window stands at exactly one position. */
  lemma EveryCellOnce(grid: Grid, shard: Shard, page: seq<Cell>, row: int, column: int)
    requires grid.indexStep > 0.0 && Planned(shard) && RowMajor(grid, shard, page)
    requires shard.rowStart <= row < shard.rowStop && shard.columnStart <= column < shard.columnStop
    ensures var p := Linear(shard, row, column);
            && 0 <= p < |page| && page[p] == Cell(Some(RowIndex(grid, row)), Some(ColumnIndex(grid, column)))
            && forall q :: 0 <= q < |page| && page[q] == page[p] ==> q == p
  {
    var width := ColumnCount(shard);
    var p := Linear(shard, row, column);
    Monotone(0, row - shard.rowStart, width);
    Monotone(row - shard.rowStart + 1, shard.rowStop - shard.rowStart, width);
    assert (row - shard.rowStart + 1) * width == (row - shard.rowStart) * width + width;
    DivideUnique(p, width, row - shard.rowStart, column - shard.columnStart);
    hide RowIndex, ColumnIndex;
    forall q | 0 <= q < |page| && page[q] == page[p] ensures q == p {
      ExpectedInjective(grid, shard, q, p);
    }
  }

  // ----- stitching refines a plain read -----------------------------------------------------------------------------------

  function MappedShard(m: Mapping, context: Context, rows: seq<Row>): CanonicalShard {
    CanonicalShard(RowFrame(m, context, rows), |rows|, 0)
  }

  function MappedShards(m: Mapping, context: Context, pages: seq<seq<Row>>): (parts: seq<CanonicalShard>)
    ensures |parts| == |pages| && forall k :: 0 <= k < |pages| ==> parts[k] == MappedShard(m, context, pages[k])
  {
    seq(|pages|, k requires 0 <= k < |pages| => MappedShard(m, context, pages[k]))
  }

  function CanonicalPieces(m: Mapping, context: Context, pages: seq<seq<Row>>): (pieces: seq<seq<Row>>)
    ensures |pieces| == |pages| && forall k :: 0 <= k < |pages| ==> pieces[k] == CanonicalRows(m, context, pages[k])
  {
    seq(|pages|, k requires 0 <= k < |pages| => CanonicalRows(m, context, pages[k]))
  }

  function CellIds(m: Mapping, context: Context, rows: seq<Row>): (ids: seq<Value>)
    ensures |ids| == |rows| && forall k :: 0 <= k < |rows| ==> ids[k] == MapRow(m, context, rows[k]).cellId
  {
    seq(|rows|, k requires 0 <= k < |rows| => MapRow(m, context, rows[k]).cellId)
  }

  /** Date and resolution each stay the same over the whole window, or vary within every shard of it. */
  ghost predicate ShardsHoistAlike(m: Mapping, context: Context, pages: seq<seq<Row>>) {
    HoistingAgrees({"date", "resolution_km"}, CanonicalPieces(m, context, pages))
  }

  lemma CanonicalAppend(m: Mapping, context: Context, a: seq<Row>, b: seq<Row>)
    ensures CanonicalRows(m, context, a + b) == CanonicalRows(m, context, a) + CanonicalRows(m, context, b)
  {
    hide MapRow, CellsOf, Fields;
  }

  lemma {:induction false} CanonicalFlatten(m: Mapping, context: Context, pages: seq<seq<Row>>)
    ensures Flatten(CanonicalPieces(m, context, pages)) == CanonicalRows(m, context, Flatten(pages))
  {
    hide CanonicalRows;
    if pages == [] {
      NoCanonicalRows(m, context);
    } else {
      var before, last := pages[..|pages| - 1], pages[|pages| - 1];
      CanonicalFlatten(m, context, before);
      assert CanonicalPieces(m, context, pages)[..|pages| - 1] == CanonicalPieces(m, context, before);
      CanonicalAppend(m, context, Flatten(before), last);
    }
  }

  lemma NoCanonicalRows(m: Mapping, context: Context)
    ensures CanonicalRows(m, context, []) == []
  {
  }

  lemma RowFrameWellFormed(m: Mapping, context: Context, rows: seq<Row>)
    requires NoDup(Fields(m))
    ensures WellFormed(RowFrame(m, context, rows))
  {
    hide *;
    RowFrameIsHoisted(m, context, rows);
    HoistedWellFormed(Fields(m), {"date", "resolution_km"}, CanonicalRows(m, context, rows));
  }

  lemma PartsWellFormed(m: Mapping, context: Context, pages: seq<seq<Row>>)
    requires NoDup(Fields(m))
    ensures WellFormedParts(MappedShards(m, context, pages))
  {
    hide RowFrame, WellFormed;
    forall k | 0 <= k < |pages| ensures WellFormed(RowFrame(m, context, pages[k])) {
      RowFrameWellFormed(m, context, pages[k]);
    }
  }

  lemma ViewsArePieces(m: Mapping, context: Context, pages: seq<seq<Row>>)
    requires NoDup(Fields(m))
    ensures Views(MappedShards(m, context, pages)) ==
            PieceViews(Fields(m), {"date", "resolution_km"}, CanonicalPieces(m, context, pages))
  {
    hide RowFrame, Hoisted, CanonicalRows, Fields;
    forall k | 0 <= k < |pages|
      ensures RowFrame(m, context, pages[k]) == Hoisted(Fields(m), {"date", "resolution_km"}, CanonicalRows(m, context, pages[k]))
    {
      RowFrameIsHoisted(m, context, pages[k]);
    }
  }

  lemma FrameNamesAreFields(m: Mapping)
    ensures Fields(m) != [] && Fields(m)[0] == "cell_id" && forall n :: n in {"date", "resolution_km"} ==> n in Fields(m)
  {
    var fields := Fields(m);
    assert fields[|fields| - 2] == "date" && fields[|fields| - 1] == "resolution_km";
  }

  lemma PiecesAreProper(m: Mapping, context: Context, pages: seq<seq<Row>>)
    requires NoDup(Fields(m)) && pages != [] && forall k :: 0 <= k < |pages| ==> pages[k] != []
    ensures Pieces(Fields(m), {"date", "resolution_km"}, CanonicalPieces(m, context, pages))
  {
    FrameNamesAreFields(m);
    hide Fields, NoDup;
  }

  /** Merging the mapped pages gives the mapping of all their rows, or fails. */
  lemma MergedPagesIff(m: Mapping, context: Context, pages: seq<seq<Row>>)
    requires NoDup(Fields(m)) && pages != [] && forall k :: 0 <= k < |pages| ==> pages[k] != []
    ensures AllValid(Views(MappedShards(m, context, pages)))
    ensures ShardsHoistAlike(m, context, pages) ==>
              Merged(Views(MappedShards(m, context, pages))) == Ok(RowFrame(m, context, Flatten(pages)))
    ensures !ShardsHoistAlike(m, context, pages) ==> Merged(Views(MappedShards(m, context, pages))).Err?
  {
    hide Fields, NoDup, Pieces, Flatten, RowFrame, Hoisted, CanonicalRows, PieceViews, Merged, AllValid, HoistingAgrees, Views, MappedShards,
         CanonicalPieces;
    PiecesAreProper(m, context, pages);
    PiecesMergeIff(Fields(m), {"date", "resolution_km"}, CanonicalPieces(m, context, pages));
    ViewsArePieces(m, context, pages);
    CanonicalFlatten(m, context, pages);
    RowFrameIsHoisted(m, context, Flatten(pages));
  }

  /** The identity column of a mapped frame. */
  lemma IdColumn(m: Mapping, context: Context, rows: seq<Row>)
    requires NoDup(Fields(m))
    ensures var frame := RowFrame(m, context, rows);
            && |frame.rowFields| == |frame.columns| && "cell_id" in frame.rowFields && frame.rowCount == |rows|
            && frame.columns[IndexOf(frame.rowFields, "cell_id")] == CellIds(m, context, rows)
  {
    FrameNamesAreFields(m);
    var frame := RowFrame(m, context, rows);
    assert frame.rowFields[0] == "cell_id";
    assert IndexOf(frame.rowFields, "cell_id") == 0;
    hide MapRow, Fields, NoDup;
    var columns := Transposed(12 + |m.extensions|, MappedRows(m, context, rows));
    assert frame.columns[0] == columns[0];
    forall k | 0 <= k < |rows| ensures columns[0][k] == CellIds(m, context, rows)[k] {
    }
  }

  lemma FrameErrorIff(m: Mapping, context: Context, plan: QueryPlan, rows: seq<Row>)
    requires NoDup(Fields(m)) && |rows| == ExpectedRows(plan)
    ensures FrameError(plan, RowFrame(m, context, rows)) ==
            if NoDup(CellIds(m, context, rows)) then None else Some(DUPLICATE_IDS)
  {
    hide RowFrame, CellIds, NoDup, Fields;
    IdColumn(m, context, rows);
    DistinctIff(CellIds(m, context, rows));
  }

  lemma {:induction false} PartTotals(m: Mapping, context: Context, pages: seq<seq<Row>>)
    ensures TotalSourceRows(MappedShards(m, context, pages)) == |Flatten(pages)|
    ensures TotalDuplicates(MappedShards(m, context, pages)) == 0
  {
    hide RowFrame;
    if pages != [] {
      var before := pages[..|pages| - 1];
      PartTotals(m, context, before);
      assert MappedShards(m, context, pages)[..|pages| - 1] == MappedShards(m, context, before);
    }
  }

  lemma PagesNonEmpty(m: Mapping, plan: QueryPlan, page: int, pages: seq<seq<Row>>)
    requires Width(plan.grid) > 0 && TilesWindow(plan, page) && Accepted(m, plan, pages)
    ensures pages != [] && forall k :: 0 <= k < |pages| ==> pages[k] != []
  {
    hide Expected, RowIndex, ColumnIndex;
    forall k | 0 <= k < |pages| ensures pages[k] != [] {
      assert FitsPage(plan.shards[k], k, plan.grid, page);
      assert |Identities(m, pages[k])| == plan.shards[k].limit;
    }
  }

  lemma OnePage(m: Mapping, context: Context, page: seq<Row>)
    ensures Flatten([page]) == page
    ensures ShardsHoistAlike(m, context, [page])
  {
    assert [page][..0] == [];
    assert Flatten([page][..0]) == [];
    var piece := CanonicalRows(m, context, page);
    assert CanonicalPieces(m, context, [page]) == [piece];
    assert [piece][..0] == [] && Flatten([piece]) == piece;
    hide CanonicalRows, Constant;
  }

  /** The result of stitching mapped pages whose rows together are the listing of the window. */
  ghost function PlainRead(m: Mapping, context: Context, plan: QueryPlan, rows: seq<Row>): Result<Assembled, string> {
    if NoDup(CellIds(m, context, rows)) then Ok(Assembled(RowFrame(m, context, rows), |rows|, 0, |plan.shards|)) else Err(DUPLICATE_IDS)
  }

  /** Stitching accepted pages refines one plain read: their rows are the row-major listing of the whole window, and the
      stitched frame is the mapping of that listing. It fails only if date or resolution vary between shards but not
      within each, or if two cells map to one identity. */
  lemma StitchRefinesPlainRead(m: Mapping, context: Context, plan: QueryPlan, page: int, pages: seq<seq<Row>>)
    requires NoDup(Fields(m)) && Width(plan.grid) > 0 && TilesWindow(plan, page) && Accepted(m, plan, pages)
    ensures RowMajor(plan.grid, WholeWindow(plan.grid), Identities(m, Flatten(pages)))
    ensures WellFormedParts(MappedShards(m, context, pages))
    ensures ShardsHoistAlike(m, context, pages) ==>
              Stitched(plan, MappedShards(m, context, pages)) == PlainRead(m, context, plan, Flatten(pages))
    ensures !ShardsHoistAlike(m, context, pages) ==> Stitched(plan, MappedShards(m, context, pages)).Err?
  {
    AcceptedLength(m, plan, pages);
    PagesNonEmpty(m, plan, page, pages);
    hide *;
    PagesListWindow(m, plan, page, pages);
    WindowRows(m, plan, Flatten(pages));
    PartsWellFormed(m, context, pages);
    StitchedPages(m, context, plan, pages);
  }

  lemma AcceptedLength(m: Mapping, plan: QueryPlan, pages: seq<seq<Row>>)
    requires Width(plan.grid) > 0 && Accepted(m, plan, pages)
    ensures |pages| == |plan.shards|
  {
  }

  lemma StitchedPages(m: Mapping, context: Context, plan: QueryPlan, pages: seq<seq<Row>>)
    requires NoDup(Fields(m)) && pages != [] && forall k :: 0 <= k < |pages| ==> pages[k] != []
    requires |pages| == |plan.shards| && |Flatten(pages)| == ExpectedRows(plan)
    requires WellFormedParts(MappedShards(m, context, pages))
    ensures ShardsHoistAlike(m, context, pages) ==>
              Stitched(plan, MappedShards(m, context, pages)) == PlainRead(m, context, plan, Flatten(pages))
    ensures !ShardsHoistAlike(m, context, pages) ==> Stitched(plan, MappedShards(m, context, pages)).Err?
  {
    hide NoDup, Fields, RowFrame, Flatten, ShardsHoistAlike, Merged, FrameError, ExpectedRows, CellIds, MappedShards,
         TotalSourceRows, TotalDuplicates, WellFormedParts, AllValid, Views;
    PartTotals(m, context, pages);
    FrameErrorIff(m, context, plan, Flatten(pages));
    MergedPagesIff(m, context, pages);
    if |pages| == 1 {
      OnePage(m, context, pages[0]);
      assert pages == [pages[0]];
    }
  }

  lemma WindowRows(m: Mapping, plan: QueryPlan, rows: seq<Row>)
    requires Width(plan.grid) > 0 && RowMajor(plan.grid, WholeWindow(plan.grid), Identities(m, rows))
    ensures |rows| == ExpectedRows(plan)
  {
    hide Expected;
    assert |Identities(m, rows)| == WholeWindow(plan.grid).limit;
  }

  // ----- cell identities nobody mapped --------------------------------------------------------------------------------

  /** The identity of a row when none is mapped: a column with the canonical name, a column with the role's name, or what the
      request says, which is the same for all rows. */
  function UnmappedIdentity(m: Mapping, context: Context, row: Row): Value {
    if "cell_id" in row then row["cell_id"] else if "id" in row then row["id"] else ContextValue(m, context, "id")
  }

  lemma UnmappedLookup(m: Mapping, context: Context, row: Row)
    requires Primary(m, "id") == ""
    ensures MapRow(m, context, row).cellId == UnmappedIdentity(m, context, row)
  {
    hide PathValue, StatedBox, IndexBox, CenterBox, Number, RowValue;
    UnmappedRole(m, context, row, "id");
  }

  ghost predicate DistinctUnmapped(m: Mapping, context: Context, rows: seq<Row>) {
    forall i, j :: 0 <= i < j < |rows| ==> UnmappedIdentity(m, context, rows[i]) != UnmappedIdentity(m, context, rows[j])
  }

  lemma UnmappedIds(m: Mapping, context: Context, rows: seq<Row>)
    requires Primary(m, "id") == ""
    ensures NoDup(CellIds(m, context, rows)) <==> DistinctUnmapped(m, context, rows)
  {
    hide MapRow, UnmappedIdentity;
    var ids := CellIds(m, context, rows);
    forall k | 0 <= k < |rows| ensures ids[k] == UnmappedIdentity(m, context, rows[k]) {
      UnmappedLookup(m, context, rows[k]);
    }
  }

  /** Without a mapped identity, accepted pages are stitched exactly when they hoist alike and their rows tell their cells
      apart by a column named "cell_id" or "id". */
  lemma UnmappedIdentityIff(m: Mapping, context: Context, plan: QueryPlan, page: int, pages: seq<seq<Row>>)
    requires NoDup(Fields(m)) && Width(plan.grid) > 0 && TilesWindow(plan, page) && Accepted(m, plan, pages)
    requires Primary(m, "id") == ""
    ensures WellFormedParts(MappedShards(m, context, pages))
    ensures Stitched(plan, MappedShards(m, context, pages)).Ok? <==>
            ShardsHoistAlike(m, context, pages) && DistinctUnmapped(m, context, Flatten(pages))
  {
    StitchRefinesPlainRead(m, context, plan, page, pages);
    UnmappedIds(m, context, Flatten(pages));
    hide NoDup, CellIds, Stitched, MappedShards, ShardsHoistAlike, Flatten, DistinctUnmapped, Accepted, RowMajor, TilesWindow, RowFrame,
         WellFormedParts;
  }

  predicate NamesNoCell(row: Row) {
    "cell_id" !in row && "id" !in row
  }

  /** Two rows with neither column share one identity, and no window with such rows can be stitched. */
  lemma UnmappedIdentityFails(m: Mapping, context: Context, plan: QueryPlan, page: int, pages: seq<seq<Row>>, i: int, j: int)
    requires NoDup(Fields(m)) && Width(plan.grid) > 0 && TilesWindow(plan, page) && Accepted(m, plan, pages)
    requires Primary(m, "id") == ""
    requires 0 <= i < j < |Flatten(pages)| && NamesNoCell(Flatten(pages)[i]) && NamesNoCell(Flatten(pages)[j])
    ensures WellFormedParts(MappedShards(m, context, pages))
    ensures Stitched(plan, MappedShards(m, context, pages)).Err?
    ensures ShardsHoistAlike(m, context, pages) ==> Stitched(plan, MappedShards(m, context, pages)) == Err(DUPLICATE_IDS)
  {
    UnmappedIdentityIff(m, context, plan, page, pages);
    StitchRefinesPlainRead(m, context, plan, page, pages);
    UnmappedIds(m, context, Flatten(pages));
    assert !DistinctUnmapped(m, context, Flatten(pages));
    hide NoDup, CellIds, Stitched, MappedShards, ShardsHoistAlike, Flatten, DistinctUnmapped, Accepted, RowMajor, TilesWindow, RowFrame,
         WellFormedParts;
  }
}
