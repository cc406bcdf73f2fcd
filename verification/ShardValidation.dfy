/** The two validators of a returned shard: one walks rows, the other walks identity columns. */
module ShardValidation {
  import opened Prelude
  import opened ShardIdentity
  import opened ShardPlanning

  /** The page description sent with a shard; a missing number reads as -1. */
  datatype PageMetadata = PageMetadata(
    mode: string, offset: int, limit: int, returned: int, hasMore: bool, window: Option<Window>)

  /** The row and column index of one returned cell, as `_number` reads them. */
  datatype Cell = Cell(row: Option<real>, column: Option<real>)

  const WRONG_MODE := "sampled-grid source returned an incompatible page mode"
  const WRONG_OFFSET := "sampled-grid source returned the wrong page offset"
  const WRONG_LIMIT := "sampled-grid source returned the wrong page limit"
  const WRONG_RETURNED := "sampled-grid source page metadata does not match its data"
  const INCOMPLETE := "sampled-grid shard is incomplete"
  const WRONG_CONTINUATION := "sampled-grid source continuation does not match the Scout topology"
  const WRONG_WINDOW := "sampled-grid source returned the wrong spatial window"
  const NO_IDENTITY := "sampled-grid source row has no mapped row/column identity"
  const UNALIGNED_ROW := "sampled-grid source row is not aligned to the Scout grid"
  const OUTSIDE_WINDOW := "sampled-grid source row is outside its requested window"
  const DRIFTED := "sampled-grid source window order or completeness drifted"
  const DUPLICATES := "sampled-grid source shard contains duplicate or missing cells"
  const WRONG_LENGTH := "sampled-grid source identity columns have the wrong length"

  function ColumnCount(shard: Shard): int { shard.columnStop - shard.columnStart }

  /** What the planner guarantees of every shard (`ShardPlanning.FitsPage`). */
  predicate Planned(shard: Shard) {
    && shard.rowStart < shard.rowStop && shard.columnStart < shard.columnStop
    && shard.limit == (shard.rowStop - shard.rowStart) * ColumnCount(shard)
  }

  /** `_validate_shard_metadata`. */
  function MetadataError(returnedCount: int, metadata: PageMetadata, shard: Shard): Option<string> {
    if metadata.mode != "offset_limit" then Some(WRONG_MODE)
    else if metadata.offset != 0 then Some(WRONG_OFFSET)
    else if metadata.limit != shard.limit then Some(WRONG_LIMIT)
    else if metadata.returned != returnedCount then Some(WRONG_RETURNED)
    else if returnedCount != shard.limit then Some(INCOMPLETE)
    else if metadata.hasMore then Some(WRONG_CONTINUATION)
    else if metadata.window != Some(WindowOf(shard)) then Some(WRONG_WINDOW)
    else None
  }

  /** The metadata describe exactly this shard: one page from the start, as many cells as planned, nothing after them, and the
      shard's own source window. */
  predicate MatchesShard(returnedCount: int, metadata: PageMetadata, shard: Shard) {
    && metadata.mode == "offset_limit" && metadata.offset == 0 && !metadata.hasMore
    && metadata.limit == metadata.returned == returnedCount == shard.limit
    && metadata.window == Some(Window(shard.sourceRowStart, shard.sourceRowStop, shard.sourceColumnStart, shard.sourceColumnStop))
  }

  /** Metadata are accepted exactly when they describe the shard; otherwise the first thing wrong is reported. */
  lemma MetadataIff(returnedCount: int, metadata: PageMetadata, shard: Shard)
    ensures MetadataError(returnedCount, metadata, shard).None? <==> MatchesShard(returnedCount, metadata, shard)
    ensures var bad, paged, described := MetadataError(returnedCount, metadata, shard),
                                         metadata.mode == "offset_limit" && metadata.offset == 0,
                                         metadata.limit == shard.limit && metadata.returned == returnedCount;
            && (metadata.mode != "offset_limit" ==> bad == Some("sampled-grid source returned an incompatible page mode"))
            && (metadata.mode == "offset_limit" && metadata.offset != 0 ==>
                  bad == Some("sampled-grid source returned the wrong page offset"))
            && (paged && metadata.limit != shard.limit ==> bad == Some("sampled-grid source returned the wrong page limit"))
            && (paged && metadata.limit == shard.limit && metadata.returned != returnedCount ==>
                  bad == Some("sampled-grid source page metadata does not match its data"))
            && (paged && described && returnedCount != shard.limit ==> bad == Some("sampled-grid shard is incomplete"))
            && (paged && described && returnedCount == shard.limit && metadata.hasMore ==>
                  bad == Some("sampled-grid source continuation does not match the Scout topology"))
  {
  }

  // ----- the row-major listing ---------------------------------------------------------------------------------

  /** The cell that belongs at a position of the shard's window, listed row by row. */
  function Expected(grid: Grid, shard: Shard, position: int): (real, real)
    requires ColumnCount(shard) > 0
  {
    (RowIndex(grid, shard.rowStart + position / ColumnCount(shard)), ColumnIndex(grid, shard.columnStart + position % ColumnCount(shard)))
  }

  ghost predicate RowMajor(grid: Grid, shard: Shard, page: seq<Cell>)
    requires ColumnCount(shard) > 0
  {
    && |page| == shard.limit
    && forall p :: 0 <= p < |page| ==>
         page[p] == Cell(Some(Expected(grid, shard, p).0), Some(Expected(grid, shard, p).1))
  }

  function SlotOf(index: real, start: real, step: real): real
    requires step > 0.0
  {
    (index - start) / step
  }

  /** What one pass of the row loop rejects. */
  function RowError(grid: Grid, shard: Shard, position: int, cell: Cell): Option<string>
    requires grid.indexStep > 0.0
  {
    if cell.row.None? || cell.column.None? then Some(NO_IDENTITY)
    else
      var row := SlotOf(cell.row.value, grid.rowIndexStart, grid.indexStep);
      var column := SlotOf(cell.column.value, grid.columnIndexStart, grid.indexStep);
      if !Integral(row) || !Integral(column) then Some(UNALIGNED_ROW)
      else if !(shard.rowStart <= row.Floor < shard.rowStop && shard.columnStart <= column.Floor < shard.columnStop) then Some(OUTSIDE_WINDOW)
      else if Linear(shard, row.Floor, column.Floor) != position then Some(DRIFTED)
      else None
  }

  function Linear(shard: Shard, row: int, column: int): int {
    (row - shard.rowStart) * ColumnCount(shard) + column - shard.columnStart
  }

  lemma SlotOfIndex(index: real, start: real, step: real, number: int)
    requires step > 0.0
    ensures SlotOf(index, start, step) == number as real <==> index == start + Edge(number, step)
  {
    hide Times;
    var slot := SlotOf(index, start, step);
    Scale(index - start, step);
    ScaleLess(slot, number as real, step);
    ScaleLess(number as real, slot, step);
  }

  lemma DivideUnique(p: int, width: int, quotient: int, remainder: int)
    requires width > 0 && 0 <= remainder < width
    ensures quotient * width + remainder == p <==> quotient == p / width && remainder == p % width
  {
    assert p == (p / width) * width + p % width;
    if quotient * width + remainder == p {
      if quotient < p / width {
        assert (quotient + 1) * width == quotient * width + width;
        Monotone(quotient + 1, p / width, width);
      } else if quotient > p / width {
        assert (p / width + 1) * width == (p / width) * width + width;
        Monotone(p / width + 1, quotient, width);
      }
    }
  }

  lemma PositionInWindow(p: int, height: int, width: int)
    requires width > 0 && 0 <= p < height * width
    ensures 0 <= p / width < height && 0 <= p % width < width
  {
    if p / width >= height {
      Monotone(height, p / width, width);
    }
  }

  lemma PositionCell(shard: Shard, position: int, row: int, column: int)
    requires Planned(shard) && 0 <= position < shard.limit
    ensures shard.rowStart <= row < shard.rowStop && shard.columnStart <= column < shard.columnStop && Linear(shard, row, column) == position
            <==> row == shard.rowStart + position / ColumnCount(shard) && column == shard.columnStart + position % ColumnCount(shard)
  {
    PositionInWindow(position, shard.rowStop - shard.rowStart, ColumnCount(shard));
    if 0 <= column - shard.columnStart < ColumnCount(shard) {
      DivideUnique(position, ColumnCount(shard), row - shard.rowStart, column - shard.columnStart);
    }
  }

  lemma IntegralIs(x: real, n: int)
    ensures Integral(x) && x.Floor == n <==> x == n as real
  {
  }

  /** The row loop lets a cell pass at a position exactly when it is the one the row-major listing has there. */
  lemma RowPassesIff(grid: Grid, shard: Shard, position: int, cell: Cell)
    requires grid.indexStep > 0.0 && Planned(shard) && 0 <= position < shard.limit
    ensures RowError(grid, shard, position, cell).None? <==>
            cell == Cell(Some(Expected(grid, shard, position).0), Some(Expected(grid, shard, position).1))
  {
    hide SlotOf, Linear, Integral, Edge;
    if cell.row.Some? && cell.column.Some? {
      var row := SlotOf(cell.row.value, grid.rowIndexStart, grid.indexStep);
      var column := SlotOf(cell.column.value, grid.columnIndexStart, grid.indexStep);
      var r, c := shard.rowStart + position / ColumnCount(shard), shard.columnStart + position % ColumnCount(shard);
      SlotOfIndex(cell.row.value, grid.rowIndexStart, grid.indexStep, r);
      SlotOfIndex(cell.column.value, grid.columnIndexStart, grid.indexStep, c);
      IntegralIs(row, r);
      IntegralIs(column, c);
      PositionCell(shard, position, row.Floor, column.Floor);
    }
  }

  lemma SameIndex(grid: Grid, a: int, b: int)
    requires grid.indexStep > 0.0
    ensures RowIndex(grid, a) == RowIndex(grid, b) <==> a == b
    ensures ColumnIndex(grid, a) == ColumnIndex(grid, b) <==> a == b
  {
    hide RowIndex, ColumnIndex;
    if a < b {
      IndexIncreases(grid, a, b);
    } else if b < a {
      IndexIncreases(grid, b, a);
    }
  }

  /** Different positions of a window are different cells. */
  lemma ExpectedInjective(grid: Grid, shard: Shard, p: int, q: int)
    requires grid.indexStep > 0.0 && ColumnCount(shard) > 0
    ensures Expected(grid, shard, p) == Expected(grid, shard, q) <==> p == q
  {
    hide RowIndex, ColumnIndex, ColumnCount;
    var width := ColumnCount(shard);
    SameIndex(grid, shard.rowStart + p / width, shard.rowStart + q / width);
    SameIndex(grid, shard.columnStart + p % width, shard.columnStart + q % width);
    DivideUnique(p, width, q / width, q % width);
    DivideUnique(q, width, q / width, q % width);
  }

  // ----- the validators --------------------------------------------------------------------------------------------

  /** The first row, from a position on, that the row loop rejects. */
  function FirstRowError(grid: Grid, shard: Shard, page: seq<Cell>, from: nat): Option<string>
    requires grid.indexStep > 0.0 && from <= |page|
    decreases |page| - from
  {
    if from == |page| then None
    else
      var wrong := RowError(grid, shard, from, page[from]);
      if wrong.Some? then wrong else FirstRowError(grid, shard, page, from + 1)
  }

  /** What the row form reports: bad metadata, else the first row that is out of place. */
  function RowsVerdict(page: seq<Cell>, metadata: PageMetadata, grid: Grid, shard: Shard): Result<int, string>
    requires grid.indexStep > 0.0
  {
    var bad := MetadataError(|page|, metadata, shard);
    if bad.Some? then Err(bad.value)
    else
      var wrong := FirstRowError(grid, shard, page, 0);
      if wrong.Some? then Err(wrong.value) else Ok(0)
  }

  lemma {:induction false} NoRowErrorIff(grid: Grid, shard: Shard, page: seq<Cell>, from: nat)
    requires grid.indexStep > 0.0 && from <= |page|
    ensures FirstRowError(grid, shard, page, from).None? <==> forall p :: from <= p < |page| ==> RowError(grid, shard, p, page[p]).None?
    decreases |page| - from
  {
    hide RowError;
    if from < |page| {
      NoRowErrorIff(grid, shard, page, from + 1);
    }
  }

  /** The row form accepts exactly the row-major listing of the window. */
  lemma AcceptedIffRowMajor(page: seq<Cell>, metadata: PageMetadata, grid: Grid, shard: Shard)
    requires grid.indexStep > 0.0 && Planned(shard)
    ensures RowsVerdict(page, metadata, grid, shard).Ok? <==>
            MatchesShard(|page|, metadata, shard) && RowMajor(grid, shard, page)
  {
    MetadataIff(|page|, metadata, shard);
    hide RowError, Expected, MatchesShard;
    if MetadataError(|page|, metadata, shard).None? {
      NoRowErrorIff(grid, shard, page, 0);
      forall p | 0 <= p < |page|
        ensures RowError(grid, shard, p, page[p]).None? <==>
                page[p] == Cell(Some(Expected(grid, shard, p).0), Some(Expected(grid, shard, p).1))
      {
        RowPassesIff(grid, shard, p, page[p]);
      }
    }
  }

  /** The row form: accepts exactly the row-major listing of the window, reports the first row that is out of place, and
      never gets to its own check for duplicates or missing cells. */
  method ValidateRows(page: seq<Cell>, metadata: PageMetadata, grid: Grid, shard: Shard) returns (r: Result<int, string>)
    requires grid.indexStep > 0.0 && Planned(shard)
    ensures r == RowsVerdict(page, metadata, grid, shard)
    ensures r.Ok? <==> MatchesShard(|page|, metadata, shard) && RowMajor(grid, shard, page)
    ensures r.Ok? ==> r.value == 0
    ensures r != Err(DUPLICATES)
  {
    hide RowError, Expected;
    AcceptedIffRowMajor(page, metadata, grid, shard);
    var bad := MetadataError(|page|, metadata, shard);
    if bad.Some? {
      MetadataErrorIsNotDuplicates(|page|, metadata, shard);
      return Err(bad.value);
    }
    var seen: set<(real, real)> := {};
    var duplicates := 0;
    var position := 0;
    while position < |page|
      invariant 0 <= position <= |page|
      invariant FirstRowError(grid, shard, page, 0) == FirstRowError(grid, shard, page, position)
      invariant forall x :: x in seen ==> exists p :: 0 <= p < position && x == Expected(grid, shard, p)
      invariant duplicates == 0 && |seen| == position
    {
      var cell := page[position];
      var wrong := RowError(grid, shard, position, cell);
      RowPassesIff(grid, shard, position, cell);
      if wrong.Some? {
        RowErrorIsNotDuplicates(grid, shard, position, cell);
        return Err(wrong.value);
      }
      var identity := (cell.row.value, cell.column.value);
      assert identity == Expected(grid, shard, position);
      if identity in seen {
        var q :| 0 <= q < position && identity == Expected(grid, shard, q);
        ExpectedInjective(grid, shard, q, position);
        duplicates := duplicates + 1;
      }
      seen := seen + {identity};
      position := position + 1;
    }
    if duplicates != 0 || |seen| != shard.limit || |page| != shard.limit {
      return Err(DUPLICATES);
    }
    return Ok(duplicates);
  }

  lemma MetadataErrorIsNotDuplicates(returned: int, metadata: PageMetadata, shard: Shard)
    ensures MetadataError(returned, metadata, shard) != Some(DUPLICATES)
  {
    assert DUPLICATES[20] == 's';
    assert WRONG_MODE[20] == WRONG_OFFSET[20] == WRONG_LIMIT[20] == WRONG_WINDOW[20] == 'r';
    assert WRONG_RETURNED[20] == 'p';
    assert |WRONG_CONTINUATION| != |DUPLICATES|;
    assert |INCOMPLETE| != |DUPLICATES|;
  }

  lemma RowErrorIsNotDuplicates(grid: Grid, shard: Shard, position: int, cell: Cell)
    requires grid.indexStep > 0.0
    ensures RowError(grid, shard, position, cell) != Some(DUPLICATES)
  {
    assert NO_IDENTITY[20] != DUPLICATES[20] && UNALIGNED_ROW[20] != DUPLICATES[20];
    assert OUTSIDE_WINDOW[20] != DUPLICATES[20] && DRIFTED[20] != DUPLICATES[20];
  }

  /** The column form: accepts exactly the same listing. */
  method ValidateColumns(rowIndexes: seq<Option<real>>, columnIndexes: seq<Option<real>>, rowCount: int, metadata: PageMetadata,
      grid: Grid, shard: Shard) returns (r: Result<int, string>)
    requires ColumnCount(shard) > 0
    ensures r.Ok? <==> MatchesShard(rowCount, metadata, shard) && |rowIndexes| == |columnIndexes| == rowCount
                       && RowMajor(grid, shard, Zipped(rowIndexes, columnIndexes))
    ensures r.Ok? ==> r.value == 0
    ensures MetadataError(rowCount, metadata, shard).Some? ==> r == Err(MetadataError(rowCount, metadata, shard).value)
    ensures MetadataError(rowCount, metadata, shard).None? && r.Err? ==>
              r.error == if |rowIndexes| == |columnIndexes| == rowCount then DRIFTED else WRONG_LENGTH
  {
    MetadataIff(rowCount, metadata, shard);
    hide Expected, MatchesShard;
    var bad := MetadataError(rowCount, metadata, shard);
    if bad.Some? {
      return Err(bad.value);
    }
    if |rowIndexes| != rowCount || |columnIndexes| != rowCount {
      return Err(WRONG_LENGTH);
    }
    var position := 0;
    while position < rowCount
      invariant 0 <= position <= rowCount
      invariant forall p :: 0 <= p < position ==>
                  Zipped(rowIndexes, columnIndexes)[p] == Cell(Some(Expected(grid, shard, p).0), Some(Expected(grid, shard, p).1))
    {
      var expected := Expected(grid, shard, position);
      if rowIndexes[position] != Some(expected.0) || columnIndexes[position] != Some(expected.1) {
        assert Zipped(rowIndexes, columnIndexes)[position] != Cell(Some(expected.0), Some(expected.1));
        return Err(DRIFTED);
      }
      position := position + 1;
    }
    return Ok(0);
  }

  function Zipped(rows: seq<Option<real>>, columns: seq<Option<real>>): (page: seq<Cell>)
    ensures |page| == AtMost(|rows|, |columns|)
  {
    seq(AtMost(|rows|, |columns|), i requires 0 <= i < AtMost(|rows|, |columns|) => Cell(rows[i], columns[i]))
  }
}
