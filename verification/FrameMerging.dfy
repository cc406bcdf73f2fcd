/** Merging frame views: concatenation of rows, and when pieces of one listing can be merged back. */
module FrameMerging {
  import opened Prelude
  import opened Sequences
  import opened GridFrames

  ghost predicate AllValid(views: seq<View>) {
    forall k :: 0 <= k < |views| ==> ValidView(views[k])
  }

  /** `tuple(view for view in views if view.row_count)`. */
  function NonEmpty(views: seq<View>): (r: seq<View>)
    ensures forall v :: v in r ==> v in views && RowCount(v) != 0
  {
    if views == [] then []
    else (if RowCount(views[0]) != 0 then [views[0]] else []) + NonEmpty(views[1..])
  }

  function Conflict(first: Frame, views: seq<View>): Option<string> {
    if views == [] then None
    else if views[0].frame.rowFields != first.rowFields then Some(FIELD_MISMATCH)
    else if views[0].frame.frameFields != first.frameFields then Some(METADATA_MISMATCH)
    else Conflict(first, views[1..])
  }

  ghost predicate Compatible(views: seq<View>) {
    forall k :: 0 <= k < |views| ==>
      views[k].frame.rowFields == views[0].frame.rowFields && views[k].frame.frameFields == views[0].frame.frameFields
  }

  lemma {:induction false} NoConflictIff(first: Frame, views: seq<View>)
    ensures Conflict(first, views).None? <==>
            forall k :: 0 <= k < |views| ==>
              views[k].frame.rowFields == first.rowFields && views[k].frame.frameFields == first.frameFields
  {
    if views != [] {
      NoConflictIff(first, views[1..]);
      assert forall k :: 0 < k < |views| ==> views[k] == views[1..][k - 1];
    }
  }

  ghost function ViewColumn(v: View, c: int): (column: seq<Value>)
    requires ValidView(v) && 0 <= c < |v.frame.columns|
    ensures |column| == RowCount(v) && forall i :: 0 <= i < |column| ==> column[i] == Cells(v)[i][c]
  {
    if v.indices.None? then v.frame.columns[c] else Pick(v.frame.columns[c], v.indices.value)
  }

  function TotalRows(views: seq<View>): int {
    if views == [] then 0 else TotalRows(views[..|views| - 1]) + RowCount(views[|views| - 1])
  }

  ghost predicate Wide(views: seq<View>, width: int) {
    AllValid(views) && forall k :: 0 <= k < |views| ==> |views[k].frame.columns| == width
  }

  ghost function Gather(views: seq<View>, width: int, c: int): (column: seq<Value>)
    requires Wide(views, width) && 0 <= c < width
    ensures |column| == TotalRows(views)
  {
    if views == [] then [] else Gather(views[..|views| - 1], width, c) + ViewColumn(views[|views| - 1], c)
  }

  lemma NonEmptyValid(views: seq<View>)
    requires AllValid(views)
    ensures AllValid(NonEmpty(views))
  {
    forall k | 0 <= k < |NonEmpty(views)| ensures ValidView(NonEmpty(views)[k]) {
      assert NonEmpty(views)[k] in views;
    }
  }

  lemma CompatibleWide(views: seq<View>)
    requires AllValid(views) && views != [] && Compatible(views)
    ensures Wide(views, |views[0].frame.columns|)
  {
  }

  lemma PartsAreWide(parts: seq<View>)
    requires AllValid(parts) && parts != [] && Conflict(parts[0].frame, parts[1..]).None?
    ensures Compatible(parts) && Wide(parts, |parts[0].frame.columns|)
  {
    NoConflictIff(parts[0].frame, parts[1..]);
    assert forall k :: 0 < k < |parts| ==> parts[k] == parts[1..][k - 1];
  }

  ghost function MergedFrame(parts: seq<View>): Frame
    requires parts != [] && Wide(parts, |parts[0].frame.columns|)
  {
    var first := parts[0].frame;
    Frame(first.rowFields,
          seq(|first.columns|, c requires 0 <= c < |first.columns| => Gather(parts, |first.columns|, c)),
          first.frameFields, TotalRows(parts))
  }

  /** What merging computes. */
  ghost function Merged(views: seq<View>): Result<Frame, string>
    requires AllValid(views)
  {
    NonEmptyValid(views);
    var parts := NonEmpty(views);
    if parts == [] then Err(EMPTY_MERGE)
    else
      var conflict := Conflict(parts[0].frame, parts[1..]);
      if conflict.Some? then Err(conflict.value) else PartsAreWide(parts); Create(MergedFrame(parts))
  }

  lemma MergeSucceeds(views: seq<View>)
    requires AllValid(views)
    ensures AllValid(NonEmpty(views))
    ensures Merged(views).Ok? <==> NonEmpty(views) != [] && Compatible(NonEmpty(views))
    ensures Merged(views).Ok? ==>
              && Wide(NonEmpty(views), |NonEmpty(views)[0].frame.columns|)
              && Merged(views).value == MergedFrame(NonEmpty(views)) && WellFormed(Merged(views).value)
  {
    hide MergedFrame, Wide, ValidView, WellFormed;
    NonEmptyValid(views);
    var parts := NonEmpty(views);
    if parts != [] {
      NoConflictIff(parts[0].frame, parts[1..]);
      assert forall k :: 0 < k < |parts| ==> parts[k] == parts[1..][k - 1];
      if Compatible(parts) {
        PartsAreWide(parts);
        MergedFrameIsWellFormed(parts);
      }
    }
  }

  /** `merge_canonical_grid_frame_views`. */
  method MergeViews(views: seq<View>) returns (r: Result<Frame, string>)
    requires AllValid(views)
    ensures r == Merged(views)
  {
    hide ViewColumn, WellFormed, ValidView, Create;
    NonEmptyValid(views);
    var parts := NonEmpty(views);
    if parts == [] {
      return Err(EMPTY_MERGE);
    }
    var first := parts[0].frame;
    var conflict := Conflict(first, parts[1..]);
    if conflict.Some? {
      return Err(conflict.value);
    }
    PartsAreWide(parts);
    var width := |first.columns|;
    var merged: seq<seq<Value>> := [];
    var rowCount := 0;
    while |merged| < width
      invariant |merged| <= width
      invariant forall c :: 0 <= c < |merged| ==> merged[c] == Gather(parts, width, c)
    {
      var values := GatherColumn(parts, width, |merged|);
      merged := merged + [values];
    }
    var k := 0;
    while k < |parts|
      invariant 0 <= k <= |parts| && rowCount == TotalRows(parts[..k])
    {
      assert parts[..k + 1][..k] == parts[..k];
      rowCount := rowCount + RowCount(parts[k]);
      k := k + 1;
    }
    assert parts[..|parts|] == parts;
    hide Gather;
    assert merged == MergedFrame(parts).columns;
    MergedFrameIsWellFormed(parts);
    return Ok(Frame(first.rowFields, merged, first.frameFields, rowCount));
  }

  method GatherColumn(parts: seq<View>, ghost width: int, c: int) returns (values: seq<Value>)
    requires Wide(parts, width) && 0 <= c < width
    ensures values == Gather(parts, width, c)
  {
    values := [];
    var k := 0;
    while k < |parts|
      invariant 0 <= k <= |parts| && values == Gather(parts[..k], width, c)
    {
      assert parts[..k + 1][..k] == parts[..k];
      var part := parts[k];
      assert ValidView(part);
      values := values + if part.indices.None? then part.frame.columns[c] else Pick(part.frame.columns[c], part.indices.value);
      k := k + 1;
    }
    assert parts[..|parts|] == parts;
  }

  lemma {:induction false} TotalRowsNonNegative(parts: seq<View>)
    requires AllValid(parts)
    ensures TotalRows(parts) >= 0
  {
    if parts != [] {
      TotalRowsNonNegative(parts[..|parts| - 1]);
    }
  }

  /** The constructor's checks always pass on a merge. */
  lemma MergedFrameIsWellFormed(parts: seq<View>)
    requires parts != [] && Wide(parts, |parts[0].frame.columns|)
    ensures WellFormed(MergedFrame(parts))
  {
    hide Gather, ViewColumn;
    TotalRowsNonNegative(parts);
    assert ValidView(parts[0]);
  }

  // ----- merging is concatenation ---------------------------------------------------------------------------------

  ghost function AllRows(views: seq<View>): seq<Row>
    requires AllValid(views)
  {
    if views == [] then [] else AllRows(views[..|views| - 1]) + ViewRows(views[|views| - 1])
  }

  lemma {:induction false} GatheredRows(parts: seq<View>, width: int, k: int, rowFields: seq<string>, frameFields: map<string, Value>)
    requires Wide(parts, width) && 0 <= k < TotalRows(parts)
    requires |rowFields| == width >= 0
    requires forall i :: 0 <= i < |parts| ==> parts[i].frame.rowFields == rowFields && parts[i].frame.frameFields == frameFields
    ensures |AllRows(parts)| == TotalRows(parts)
    ensures AllRows(parts)[k] == RowOf(rowFields, GatheredRow(parts, width, k), frameFields)
  {
    hide RowOf, ViewColumn, Gather;
    var before, last := parts[..|parts| - 1], parts[|parts| - 1];
    AllRowsLength(parts);
    AllRowsLength(before);
    GatheredCells(parts, width, k);
    if k < TotalRows(before) {
      GatheredRows(before, width, k, rowFields, frameFields);
    }
  }

  ghost function GatheredRow(parts: seq<View>, width: int, k: int): (row: seq<Value>)
    requires Wide(parts, width) && 0 <= k < TotalRows(parts) && width >= 0
    ensures |row| == width
  {
    seq(width, c requires 0 <= c < width => Gather(parts, width, c)[k])
  }

  lemma GatheredCells(parts: seq<View>, width: int, k: int)
    requires Wide(parts, width) && 0 <= k < TotalRows(parts) && width >= 0
    ensures var before, last := parts[..|parts| - 1], parts[|parts| - 1];
            GatheredRow(parts, width, k) ==
            if k < TotalRows(before) then GatheredRow(before, width, k) else Cells(last)[k - TotalRows(before)]
  {
    hide ViewColumn, CellsAt, WellFormed, Positions;
    var before, last := parts[..|parts| - 1], parts[|parts| - 1];
    forall c | 0 <= c < width
      ensures Gather(parts, width, c)[k] ==
              if k < TotalRows(before) then Gather(before, width, c)[k] else Cells(last)[k - TotalRows(before)][c]
    {
      assert Gather(parts, width, c) == Gather(before, width, c) + ViewColumn(last, c);
    }
    assert |Cells(last)| == RowCount(last);
  }

  lemma {:induction false} AllRowsLength(parts: seq<View>)
    requires AllValid(parts)
    ensures |AllRows(parts)| == TotalRows(parts)
  {
    if parts != [] {
      AllRowsLength(parts[..|parts| - 1]);
    }
  }

  lemma {:induction false} EmptiesAddNothing(views: seq<View>)
    requires AllValid(views)
    ensures AllValid(NonEmpty(views)) && AllRows(NonEmpty(views)) == AllRows(views)
  {
    NonEmptyValid(views);
    hide ViewRows;
    if views != [] {
      var before, last := views[..|views| - 1], views[|views| - 1];
      EmptiesAddNothing(before);
      NonEmptyLast(views);
      assert RowCount(last) == 0 ==> ViewRows(last) == [];
      if RowCount(last) != 0 {
        assert (NonEmpty(before) + [last])[..|NonEmpty(before)|] == NonEmpty(before);
      } else {
        assert NonEmpty(before) + [] == NonEmpty(before);
      }
    }
  }

  lemma NonEmptyStep(views: seq<View>)
    requires views != []
    ensures NonEmpty(views) == (if RowCount(views[0]) != 0 then [views[0]] else []) + NonEmpty(views[1..])
  {
  }

  lemma {:induction false} NonEmptyLast(views: seq<View>)
    requires views != []
    ensures NonEmpty(views) ==
            NonEmpty(views[..|views| - 1]) + if RowCount(views[|views| - 1]) != 0 then [views[|views| - 1]] else []
  {
    if |views| > 1 {
      NonEmptyLast(views[1..]);
      NonEmptyStep(views);
      NonEmptyStep(views[..|views| - 1]);
      hide *;
      assert views[1..][..|views| - 2] == views[..|views| - 1][1..];
      assert views[1..][|views| - 2] == views[|views| - 1] && views[..|views| - 1][0] == views[0];
      Regroup(if RowCount(views[0]) != 0 then [views[0]] else [], NonEmpty(views[1..][..|views| - 2]),
              if RowCount(views[|views| - 1]) != 0 then [views[|views| - 1]] else []);
    } else {
      assert views[..0] == [] && views[1..] == [];
    }
  }

  lemma MergedCells(parts: seq<View>, k: int)
    requires parts != [] && Wide(parts, |parts[0].frame.columns|) && WellFormed(MergedFrame(parts)) && 0 <= k < TotalRows(parts)
    ensures var width := |parts[0].frame.columns|;
            Cells(View(MergedFrame(parts), None))[k] == GatheredRow(parts, width, k)
  {
    hide Gather, Wide;
  }

  /** A merge that succeeds lists every row of every view, in the order of the views. */
  lemma MergeIsConcatenation(views: seq<View>, merged: Frame)
    requires AllValid(views) && Merged(views) == Ok(merged)
    ensures WellFormed(merged)
    ensures ViewRows(View(merged, None)) == AllRows(views)
  {
    MergeSucceeds(views);
    hide *;
    EmptiesAddNothing(views);
    MergedRows(NonEmpty(views));
  }

  lemma MergedRows(parts: seq<View>)
    requires parts != [] && Compatible(parts) && Wide(parts, |parts[0].frame.columns|) && WellFormed(MergedFrame(parts))
    ensures ViewRows(View(MergedFrame(parts), None)) == AllRows(parts)
  {
    hide RowOf, ViewColumn, Gather, AllRows;
    AllRowsLength(parts);
    var merged := MergedFrame(parts);
    assert ValidView(parts[0]);
    forall k | 0 <= k < TotalRows(parts) ensures ViewRows(View(merged, None))[k] == AllRows(parts)[k] {
      GatheredRows(parts, |parts[0].frame.columns|, k, merged.rowFields, merged.frameFields);
      MergedCells(parts, k);
    }
  }

  // ----- merging the pieces of one listing ----------------------------------------------------------------------------

  function Flatten(pieces: seq<seq<Row>>): seq<Row> {
    if pieces == [] then [] else Flatten(pieces[..|pieces| - 1]) + pieces[|pieces| - 1]
  }

  ghost function PieceView(fields: seq<string>, frameNames: set<string>, piece: seq<Row>): View {
    View(Hoisted(fields, frameNames, piece), None)
  }

  ghost function PieceViews(fields: seq<string>, frameNames: set<string>, pieces: seq<seq<Row>>): (views: seq<View>)
    ensures |views| == |pieces| && forall k :: 0 <= k < |views| ==> views[k] == PieceView(fields, frameNames, pieces[k])
  {
    seq(|pieces|, k requires 0 <= k < |pieces| => PieceView(fields, frameNames, pieces[k]))
  }

  /** A frame field is either constant over the whole listing, or it varies inside every single piece. */
  ghost predicate HoistingAgrees(frameNames: set<string>, pieces: seq<seq<Row>>) {
    forall name :: name in frameNames ==>
      Constant(Flatten(pieces), name) || forall k :: 0 <= k < |pieces| ==> !Constant(pieces[k], name)
  }

  ghost predicate Pieces(fields: seq<string>, frameNames: set<string>, pieces: seq<seq<Row>>) {
    && NoDup(fields) && fields != [] && (forall n :: n in frameNames ==> n in fields)
    && pieces != [] && forall k :: 0 <= k < |pieces| ==> pieces[k] != []
  }

  lemma {:induction false} FlattenConstant(pieces: seq<seq<Row>>, name: string)
    requires pieces != [] && forall k :: 0 <= k < |pieces| ==> pieces[k] != []
    ensures Flatten(pieces) != [] && Flatten(pieces)[0] == pieces[0][0]
    ensures Constant(Flatten(pieces), name) <==>
            forall k :: 0 <= k < |pieces| ==> Constant(pieces[k], name) && Get(pieces[k][0], name) == Get(pieces[0][0], name)
  {
    hide Get, Constant;
    var before, last := pieces[..|pieces| - 1], pieces[|pieces| - 1];
    if before == [] {
      assert Flatten(pieces) == last;
    } else {
      FlattenConstant(before, name);
      ConstantConcat(Flatten(before), last, name);
      assert forall k :: 0 <= k < |before| ==> pieces[k] == before[k];
    }
  }

  lemma ConstantConcat(a: seq<Row>, b: seq<Row>, name: string)
    requires a != [] && b != []
    ensures Constant(a + b, name) <==> Constant(a, name) && Constant(b, name) && Get(a[0], name) == Get(b[0], name)
  {
    assert forall k :: 0 <= k < |a| ==> (a + b)[k] == a[k];
    assert forall k :: 0 <= k < |b| ==> (a + b)[|a| + k] == b[k];
    hide Get;
  }

  /** Two pieces store the same fields outside and inside their columns exactly when they hoist the same names with the
      same values. */
  lemma SameShapeIff(fields: seq<string>, frameNames: set<string>, a: seq<Row>, b: seq<Row>)
    requires forall n :: n in frameNames ==> n in fields
    requires a != [] && b != []
    ensures var x, y := Hoisted(fields, frameNames, a), Hoisted(fields, frameNames, b);
            x.rowFields == y.rowFields && x.frameFields == y.frameFields <==>
            forall n :: n in frameNames ==>
              (Constant(a, n) <==> Constant(b, n)) && (Constant(a, n) ==> Get(a[0], n) == Get(b[0], n))
  {
    hide Constant, Get;
    var x, y := Hoisted(fields, frameNames, a), Hoisted(fields, frameNames, b);
    var hx, hy := HoistedNames(frameNames, a), HoistedNames(frameNames, b);
    assert x.frameFields.Keys == hx && y.frameFields.Keys == hy;
    ExceptMembers(fields, hx);
    ExceptMembers(fields, hy);
    if x.frameFields == y.frameFields {
      forall n | n in frameNames && Constant(a, n) ensures Get(a[0], n) == Get(b[0], n) {
        assert n in hx && x.frameFields[n] == y.frameFields[n];
      }
      assert hx == hy;
      assert forall n :: n in frameNames ==> (n in hx <==> n in hy);
    }
    if forall n :: n in frameNames ==> (Constant(a, n) <==> Constant(b, n)) && (Constant(a, n) ==> Get(a[0], n) == Get(b[0], n)) {
      assert hx == hy;
    }
    assert hx == hy ==> x.rowFields == y.rowFields;
  }

  lemma PieceViewsValid(fields: seq<string>, frameNames: set<string>, pieces: seq<seq<Row>>)
    requires Pieces(fields, frameNames, pieces)
    ensures AllValid(PieceViews(fields, frameNames, pieces))
    ensures NonEmpty(PieceViews(fields, frameNames, pieces)) == PieceViews(fields, frameNames, pieces)
  {
    forall k | 0 <= k < |pieces| ensures ValidView(PieceView(fields, frameNames, pieces[k])) {
      HoistedWellFormed(fields, frameNames, pieces[k]);
    }
    AllNonEmpty(PieceViews(fields, frameNames, pieces));
  }

  lemma {:induction false} AllNonEmpty(views: seq<View>)
    requires forall k :: 0 <= k < |views| ==> RowCount(views[k]) != 0
    ensures NonEmpty(views) == views
  {
    if views != [] {
      AllNonEmpty(views[1..]);
    }
  }

  lemma PiecesCompatibleIff(fields: seq<string>, frameNames: set<string>, pieces: seq<seq<Row>>)
    requires Pieces(fields, frameNames, pieces)
    ensures Compatible(PieceViews(fields, frameNames, pieces)) <==> HoistingAgrees(frameNames, pieces)
  {
    hide Constant, Get, Hoisted;
    var views := PieceViews(fields, frameNames, pieces);
    forall k | 0 <= k < |pieces|
      ensures views[k].frame.rowFields == views[0].frame.rowFields && views[k].frame.frameFields == views[0].frame.frameFields <==>
              forall n :: n in frameNames ==>
                (Constant(pieces[k], n) <==> Constant(pieces[0], n))
                && (Constant(pieces[k], n) ==> Get(pieces[k][0], n) == Get(pieces[0][0], n))
    {
      SameShapeIff(fields, frameNames, pieces[k], pieces[0]);
    }
    forall n | n in frameNames
      ensures Constant(Flatten(pieces), n) <==>
              forall k :: 0 <= k < |pieces| ==> Constant(pieces[k], n) && Get(pieces[k][0], n) == Get(pieces[0][0], n)
    {
      FlattenConstant(pieces, n);
    }
    if Compatible(views) {
      forall n | n in frameNames && Constant(pieces[0], n) ensures Constant(Flatten(pieces), n) {
      }
    }
  }

  lemma ColumnAppend(a: seq<Row>, b: seq<Row>, name: string)
    ensures Column(a + b, name) == Column(a, name) + Column(b, name)
  {
  }

  lemma {:induction false} PieceColumn(fields: seq<string>, frameNames: set<string>, pieces: seq<seq<Row>>, width: int, c: int, name: string)
    requires Wide(PieceViews(fields, frameNames, pieces), width) && 0 <= c < width
    requires forall k :: 0 <= k < |pieces| ==> PieceView(fields, frameNames, pieces[k]).frame.columns[c] == Column(pieces[k], name)
    ensures Gather(PieceViews(fields, frameNames, pieces), width, c) == Column(Flatten(pieces), name)
  {
    hide Hoisted, Get, WellFormed;
    var views := PieceViews(fields, frameNames, pieces);
    if pieces != [] {
      var before, last := pieces[..|pieces| - 1], pieces[|pieces| - 1];
      assert views[..|views| - 1] == PieceViews(fields, frameNames, before);
      PieceColumn(fields, frameNames, before, width, c, name);
      assert ViewColumn(views[|views| - 1], c) == Column(last, name);
      ColumnAppend(Flatten(before), last, name);
    }
  }

  /** Pieces of one listing merge exactly when their hoisting agrees, and then the merge is the frame of the whole
      listing: cutting it into shards and stitching it back cannot be seen. */
  lemma PiecesMergeIff(fields: seq<string>, frameNames: set<string>, pieces: seq<seq<Row>>)
    requires Pieces(fields, frameNames, pieces)
    ensures AllValid(PieceViews(fields, frameNames, pieces))
    ensures HoistingAgrees(frameNames, pieces) ==>
              Merged(PieceViews(fields, frameNames, pieces)) == Ok(Hoisted(fields, frameNames, Flatten(pieces)))
    ensures !HoistingAgrees(frameNames, pieces) ==> Merged(PieceViews(fields, frameNames, pieces)).Err?
  {
    hide *;
    PieceViewsValid(fields, frameNames, pieces);
    PiecesCompatibleIff(fields, frameNames, pieces);
    PieceViewsNonEmpty(fields, frameNames, pieces);
    MergeSucceeds(PieceViews(fields, frameNames, pieces));
    if HoistingAgrees(frameNames, pieces) {
      MergedPieces(fields, frameNames, pieces);
    }
  }

  lemma PieceViewsNonEmpty(fields: seq<string>, frameNames: set<string>, pieces: seq<seq<Row>>)
    requires Pieces(fields, frameNames, pieces)
    ensures PieceViews(fields, frameNames, pieces) != []
  {
  }

  lemma MergedPieces(fields: seq<string>, frameNames: set<string>, pieces: seq<seq<Row>>)
    requires Pieces(fields, frameNames, pieces) && HoistingAgrees(frameNames, pieces)
    requires AllValid(PieceViews(fields, frameNames, pieces)) && PieceViews(fields, frameNames, pieces) != []
    requires Compatible(PieceViews(fields, frameNames, pieces))
    requires Wide(PieceViews(fields, frameNames, pieces), |PieceViews(fields, frameNames, pieces)[0].frame.columns|)
    ensures MergedFrame(PieceViews(fields, frameNames, pieces)) == Hoisted(fields, frameNames, Flatten(pieces))
  {
    var views := PieceViews(fields, frameNames, pieces);
    var flat := Flatten(pieces);
    var hoisted := HoistedNames(frameNames, pieces[0]);
    WholeHoistsSame(fields, frameNames, pieces);
    var kept := Except(fields, hoisted);
    PiecesTotal(fields, frameNames, pieces);
    hide Gather, Constant, Get, Flatten;
    assert hoisted == HoistedNames(frameNames, flat);
    forall c | 0 <= c < |kept| ensures Gather(views, |kept|, c) == Column(flat, kept[c]) {
      forall k | 0 <= k < |pieces| ensures PieceView(fields, frameNames, pieces[k]).frame.columns[c] == Column(pieces[k], kept[c]) {
        assert views[k].frame.rowFields == kept;
      }
      PieceColumn(fields, frameNames, pieces, |kept|, c, kept[c]);
    }
    assert MergedFrame(views).columns == Columns(flat, kept);
  }

  lemma WholeHoistsSame(fields: seq<string>, frameNames: set<string>, pieces: seq<seq<Row>>)
    requires Pieces(fields, frameNames, pieces) && HoistingAgrees(frameNames, pieces)
    ensures HoistedNames(frameNames, Flatten(pieces)) == HoistedNames(frameNames, pieces[0])
    ensures Flatten(pieces) != [] && Flatten(pieces)[0] == pieces[0][0]
  {
    hide Constant, Get, Flatten;
    FlattenConstant(pieces, "");
    forall n | n in frameNames ensures Constant(Flatten(pieces), n) <==> Constant(pieces[0], n) {
      FlattenConstant(pieces, n);
    }
  }

  lemma {:induction false} PiecesTotal(fields: seq<string>, frameNames: set<string>, pieces: seq<seq<Row>>)
    requires fields != []
    ensures TotalRows(PieceViews(fields, frameNames, pieces)) == |Flatten(pieces)|
  {
    var views := PieceViews(fields, frameNames, pieces);
    if pieces != [] {
      assert views[..|views| - 1] == PieceViews(fields, frameNames, pieces[..|pieces| - 1]);
      PiecesTotal(fields, frameNames, pieces[..|pieces| - 1]);
    }
  }
}
