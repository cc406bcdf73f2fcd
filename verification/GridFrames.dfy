/** Columnar frames of canonical cells: hoisting constant fields, views that select rows, transport, and merging. */
module GridFrames {
  import opened Prelude
  import opened Sequences

  /** The values of one row by field name; a missing field reads as null. */
  type Row = map<string, Value>

  datatype Frame = Frame(rowFields: seq<string>, columns: seq<seq<Value>>, frameFields: map<string, Value>, rowCount: int)

  const COUNT_MISMATCH := "canonical grid frame field/column count mismatch"
  const NOT_UNIQUE := "canonical grid frame fields must be unique"
  const NEGATIVE := "canonical grid frame row_count cannot be negative"
  const LENGTH_MISMATCH := "canonical grid frame column length mismatch"
  const EMPTY_MERGE := "canonical grid frame merge requires at least one non-empty view"
  const FIELD_MISMATCH := "canonical grid frame merge field mismatch"
  const METADATA_MISMATCH := "canonical grid frame merge metadata mismatch"
  const WIDTH_MISMATCH := "canonical grid builder row width mismatch"
  const BAD_SCHEMA := "unsupported canonical grid frame schema"
  const FRAME_VERSION := "rrkal.canonical_grid_frame.v1"

  function Get(row: Row, name: string): Value {
    if name in row then row[name] else Null
  }

  // ----- frames ----------------------------------------------------------------------------------------------

  ghost predicate WellFormed(f: Frame) {
    && |f.rowFields| == |f.columns| && NoDup(f.rowFields) && f.rowCount >= 0
    && forall c :: 0 <= c < |f.columns| ==> |f.columns[c]| == f.rowCount
  }

  /** `CanonicalGridFrame.__post_init__`: a frame exists exactly when it is well formed. */
  ghost function Create(f: Frame): (r: Result<Frame, string>)
    ensures r == Ok(f) <==> WellFormed(f)
    ensures r.Ok? ==> r.value == f
  {
    if |f.rowFields| != |f.columns| then Err(COUNT_MISMATCH)
    else if !NoDup(f.rowFields) then Err(NOT_UNIQUE)
    else if f.rowCount < 0 then Err(NEGATIVE)
    else if exists c :: 0 <= c < |f.columns| && |f.columns[c]| != f.rowCount then Err(LENGTH_MISMATCH)
    else Ok(f)
  }

  function IndexOf(names: seq<string>, name: string): (i: nat)
    requires name in names
    ensures i < |names| && names[i] == name
    ensures forall j :: 0 <= j < i ==> names[j] != name
  {
    if names[0] == name then 0 else 1 + IndexOf(names[1..], name)
  }

  ghost function ValueAt(f: Frame, name: string, index: int): Value
    requires WellFormed(f) && 0 <= index < f.rowCount
  {
    if name in f.frameFields then f.frameFields[name]
    else if name in f.rowFields then f.columns[IndexOf(f.rowFields, name)][index]
    else Null
  }

  /** One row as columns list it. */
  ghost function CellsAt(f: Frame, index: int): (cells: seq<Value>)
    requires WellFormed(f) && 0 <= index < f.rowCount
    ensures |cells| == |f.columns| && forall c :: 0 <= c < |cells| ==> cells[c] == f.columns[c][index]
  {
    seq(|f.columns|, c requires 0 <= c < |f.columns| => f.columns[c][index])
  }

  predicate IsBounds(name: string) {
    "bounds." <= name
  }

  function Direction(name: string): (direction: string)
    requires IsBounds(name)
    ensures "bounds." + direction == name
  {
    name[7..]
  }

  function PlainCells(rowFields: seq<string>, cells: seq<Value>): Row
    requires |rowFields| == |cells|
  {
    map name | name in rowFields && !IsBounds(name) :: cells[IndexOf(rowFields, name)]
  }

  /** The cells of the bounds columns, by direction. */
  function BoundsCells(rowFields: seq<string>, cells: seq<Value>): map<string, Value>
    requires |rowFields| == |cells|
  {
    var directions := set name | name in rowFields && IsBounds(name) :: Direction(name);
    map d | d in directions :: cells[IndexOf(rowFields, "bounds." + d)]
  }

  /** `_row_from_values`: the fields, overridden by the frame's, and the four bounds nested unless they are all null. */
  function RowOf(rowFields: seq<string>, cells: seq<Value>, frameFields: map<string, Value>): Row
    requires |rowFields| == |cells|
  {
    var flat, bounds := PlainCells(rowFields, cells), BoundsCells(rowFields, cells);
    if exists d :: d in bounds && bounds[d] != Null
    then map["bounds" := Record(bounds)] + (flat + frameFields)
    else flat + frameFields
  }

  // ----- hoisting ----------------------------------------------------------------------------------------------

  ghost predicate Constant(rows: seq<Row>, name: string) {
    forall k :: 0 <= k < |rows| ==> Get(rows[k], name) == Get(rows[0], name)
  }

  function FirstValue(rows: seq<Row>, name: string): Value {
    if rows == [] then Null else Get(rows[0], name)
  }

  function Column(rows: seq<Row>, name: string): (column: seq<Value>)
    ensures |column| == |rows| && forall k :: 0 <= k < |rows| ==> column[k] == Get(rows[k], name)
  {
    seq(|rows|, k requires 0 <= k < |rows| => Get(rows[k], name))
  }

  function Columns(rows: seq<Row>, names: seq<string>): (columns: seq<seq<Value>>)
    ensures |columns| == |names| && forall c :: 0 <= c < |names| ==> columns[c] == Column(rows, names[c])
  {
    seq(|names|, c requires 0 <= c < |names| => Column(rows, names[c]))
  }

  function Except(names: seq<string>, dropped: set<string>): seq<string> {
    if names == [] then [] else (if names[0] in dropped then [] else [names[0]]) + Except(names[1..], dropped)
  }

  lemma {:induction false} ExceptMembers(names: seq<string>, dropped: set<string>)
    ensures forall n :: n in Except(names, dropped) <==> n in names && n !in dropped
  {
    if names != [] {
      ExceptMembers(names[1..], dropped);
    }
  }

  lemma {:induction false} ExceptNoDup(names: seq<string>, dropped: set<string>)
    requires NoDup(names)
    ensures NoDup(Except(names, dropped))
  {
    if names != [] {
      ExceptNoDup(names[1..], dropped);
      ExceptMembers(names[1..], dropped);
    }
  }

  ghost function HoistedNames(frameNames: set<string>, rows: seq<Row>): set<string> {
    set name | name in frameNames && Constant(rows, name)
  }

  /** The frame of some rows: a frame name that is constant over the rows is stored once, the rest as columns. */
  ghost function Hoisted(fields: seq<string>, frameNames: set<string>, rows: seq<Row>): Frame {
    var hoisted := HoistedNames(frameNames, rows);
    Frame(Except(fields, hoisted), Columns(rows, Except(fields, hoisted)), map name | name in hoisted :: FirstValue(rows, name),
          if fields == [] then 0 else |rows|)
  }

  lemma HoistedWellFormed(fields: seq<string>, frameNames: set<string>, rows: seq<Row>)
    requires NoDup(fields)
    ensures WellFormed(Hoisted(fields, frameNames, rows))
  {
    ExceptNoDup(fields, HoistedNames(frameNames, rows));
  }

  /** Hoisting loses nothing: every field of every row reads back as it was put in. */
  lemma HoistingKeepsEveryValue(fields: seq<string>, frameNames: set<string>, rows: seq<Row>, name: string, k: int)
    requires NoDup(fields) && name in fields && 0 <= k < |rows|
    ensures WellFormed(Hoisted(fields, frameNames, rows))
    ensures ValueAt(Hoisted(fields, frameNames, rows), name, k) == Get(rows[k], name)
  {
    HoistedWellFormed(fields, frameNames, rows);
    var kept := Except(fields, HoistedNames(frameNames, rows));
    ExceptMembers(fields, HoistedNames(frameNames, rows));
    if name in kept {
      assert Columns(rows, kept)[IndexOf(kept, name)] == Column(rows, name);
    }
  }

  // ----- views -----------------------------------------------------------------------------------------------------

  datatype View = View(frame: Frame, indices: Option<seq<int>>)

  ghost predicate ValidView(v: View) {
    && WellFormed(v.frame)
    && (v.indices.Some? ==> forall i :: 0 <= i < |v.indices.value| ==> 0 <= v.indices.value[i] < v.frame.rowCount)
  }

  function RowCount(v: View): int {
    if v.indices.None? then v.frame.rowCount else |v.indices.value|
  }

  /** The frame rows a view shows, in order. */
  function Positions(v: View): (p: seq<int>)
    requires v.frame.rowCount >= 0
    ensures |p| == RowCount(v)
  {
    if v.indices.None? then seq(v.frame.rowCount, i => i) else v.indices.value
  }

  function Pick<T>(s: seq<T>, at: seq<int>): (picked: seq<T>)
    requires forall i :: 0 <= i < |at| ==> 0 <= at[i] < |s|
    ensures |picked| == |at| && forall i :: 0 <= i < |at| ==> picked[i] == s[at[i]]
  {
    seq(|at|, i requires 0 <= i < |at| => s[at[i]])
  }

  /** The cells of a view, row by row. */
  ghost function Cells(v: View): (cells: seq<seq<Value>>)
    requires ValidView(v)
    ensures |cells| == RowCount(v)
    ensures forall i :: 0 <= i < |cells| ==> 0 <= Positions(v)[i] < v.frame.rowCount && cells[i] == CellsAt(v.frame, Positions(v)[i])
  {
    seq(RowCount(v), i requires 0 <= i < RowCount(v) => CellsAt(v.frame, Positions(v)[i]))
  }

  /** `iter_rows`. */
  ghost function ViewRows(v: View): (rows: seq<Row>)
    requires ValidView(v)
    ensures |rows| == RowCount(v)
    ensures forall i :: 0 <= i < |rows| ==> rows[i] == RowOf(v.frame.rowFields, Cells(v)[i], v.frame.frameFields)
  {
    seq(RowCount(v), i requires 0 <= i < RowCount(v) => RowOf(v.frame.rowFields, Cells(v)[i], v.frame.frameFields))
  }

  /** Two views of one frame show the same rows where their positions agree. */
  lemma RowsFollowPositions(a: View, b: View, at: seq<int>)
    requires ValidView(a) && ValidView(b) && a.frame == b.frame
    requires forall i :: 0 <= i < |at| ==> 0 <= at[i] < RowCount(b)
    requires Positions(a) == Pick(Positions(b), at)
    ensures ViewRows(a) == Pick(ViewRows(b), at)
  {
    hide RowOf, CellsAt;
    forall i | 0 <= i < |at| ensures ViewRows(a)[i] == ViewRows(b)[at[i]] {
      assert Cells(a)[i] == Cells(b)[at[i]];
    }
  }

  // ----- what a row holds -------------------------------------------------------------------------------------------------

  /** The row of the frame that a view shows at a position. */
  function Shown(v: View, i: int): int
    requires v.indices.Some? ==> 0 <= i < |v.indices.value|
  {
    if v.indices.None? then i else v.indices.value[i]
  }

  /** Some column of bounds has a value in this row. */
  ghost predicate HasBounds(f: Frame, p: int)
    requires WellFormed(f) && 0 <= p < f.rowCount
  {
    exists c :: 0 <= c < |f.rowFields| && "bounds." <= f.rowFields[c] && f.columns[c][p] != Null
  }

  /** What a row of a frame holds: the frame's own fields, as they are; the plain columns, unless a frame field overrides them,
      each with its value in that row; and "bounds", nested from the bounds columns, if one of them has a value there and no
      field of that name comes before. Nothing else. */
  ghost predicate HoldsRow(row: Row, f: Frame, p: int)
    requires WellFormed(f) && 0 <= p < f.rowCount
  {
    && HoldsNames(row, f, p)
    && (forall name :: name in f.frameFields ==> name in row && row[name] == f.frameFields[name])
    && HoldsColumns(row, f, p)
    && (HasBounds(f, p) && "bounds" !in f.frameFields && "bounds" !in f.rowFields ==> "bounds" in row && HoldsBounds(row["bounds"], f, p))
  }

  ghost predicate HoldsNames(row: Row, f: Frame, p: int)
    requires WellFormed(f) && 0 <= p < f.rowCount
  {
    forall name :: name in row <==>
      name in f.frameFields || (name in f.rowFields && !("bounds." <= name)) || (name == "bounds" && HasBounds(f, p))
  }

  ghost predicate HoldsColumns(row: Row, f: Frame, p: int)
    requires WellFormed(f) && 0 <= p < f.rowCount
  {
    forall c :: 0 <= c < |f.rowFields| && !("bounds." <= f.rowFields[c]) && f.rowFields[c] !in f.frameFields ==>
      f.rowFields[c] in row && row[f.rowFields[c]] == f.columns[c][p]
  }

  /** The nested bounds have each direction of a bounds column, with that column's value. */
  ghost predicate HoldsBounds(bounds: Value, f: Frame, p: int)
    requires WellFormed(f) && 0 <= p < f.rowCount
  {
    && bounds.Record?
    && (forall d :: d in bounds.fields <==> "bounds." + d in f.rowFields)
    && forall c :: 0 <= c < |f.rowFields| && "bounds." <= f.rowFields[c] ==>
         f.rowFields[c][7..] in bounds.fields && bounds.fields[f.rowFields[c][7..]] == f.columns[c][p]
  }

  /** Every row of every view holds the values of the frame's row it shows. */
  lemma RowHolds(v: View, i: int)
    requires ValidView(v) && 0 <= i < RowCount(v)
    ensures 0 <= Shown(v, i) < v.frame.rowCount && HoldsRow(ViewRows(v)[i], v.frame, Shown(v, i))
  {
    var f, p := v.frame, Shown(v, i);
    assert Positions(v)[i] == p && Cells(v)[i] == CellsAt(f, p);
    hide RowOf, HoldsRow;
    RowOfHolds(f, p);
  }

  lemma IndexIs(names: seq<string>, c: int)
    requires NoDup(names) && 0 <= c < |names|
    ensures IndexOf(names, names[c]) == c
  {
  }

  lemma BoundsCellsHold(f: Frame, p: int)
    requires WellFormed(f) && 0 <= p < f.rowCount
    ensures HoldsBounds(Record(BoundsCells(f.rowFields, CellsAt(f, p))), f, p)
  {
    var bounds := BoundsCells(f.rowFields, CellsAt(f, p));
    forall d ensures d in bounds <==> "bounds." + d in f.rowFields {
      if "bounds." + d in f.rowFields {
        assert Direction("bounds." + d) == d;
      }
    }
    forall c | 0 <= c < |f.rowFields| && "bounds." <= f.rowFields[c]
      ensures f.rowFields[c][7..] in bounds && bounds[f.rowFields[c][7..]] == f.columns[c][p]
    {
      assert Direction(f.rowFields[c]) == f.rowFields[c][7..];
      IndexIs(f.rowFields, c);
    }
  }

  lemma BoundsPresent(f: Frame, p: int, c: int)
    requires WellFormed(f) && 0 <= p < f.rowCount
    requires 0 <= c < |f.rowFields| && "bounds." <= f.rowFields[c] && f.columns[c][p] != Null
    ensures var bounds := BoundsCells(f.rowFields, CellsAt(f, p)); exists d :: d in bounds && bounds[d] != Null
  {
    BoundsCellsHold(f, p);
    hide BoundsCells, CellsAt;
    var d := f.rowFields[c][7..];
    assert d in BoundsCells(f.rowFields, CellsAt(f, p));
  }

  lemma BoundsAbsent(f: Frame, p: int, d: string)
    requires WellFormed(f) && 0 <= p < f.rowCount
    requires d in BoundsCells(f.rowFields, CellsAt(f, p)) && BoundsCells(f.rowFields, CellsAt(f, p))[d] != Null
    ensures HasBounds(f, p)
  {
    var name := "bounds." + d;
    var c := IndexOf(f.rowFields, name);
    assert f.rowFields[c] == name && "bounds." <= name;
    assert f.columns[c][p] == BoundsCells(f.rowFields, CellsAt(f, p))[d];
  }

  lemma BoundsPresentIff(f: Frame, p: int)
    requires WellFormed(f) && 0 <= p < f.rowCount
    ensures var bounds := BoundsCells(f.rowFields, CellsAt(f, p));
            HasBounds(f, p) <==> exists d :: d in bounds && bounds[d] != Null
  {
    var bounds := BoundsCells(f.rowFields, CellsAt(f, p));
    if HasBounds(f, p) {
      var c :| 0 <= c < |f.rowFields| && "bounds." <= f.rowFields[c] && f.columns[c][p] != Null;
      BoundsPresent(f, p, c);
    }
    hide BoundsCells, HasBounds;
    if exists d :: d in bounds && bounds[d] != Null {
      var d :| d in bounds && bounds[d] != Null;
      BoundsAbsent(f, p, d);
    }
  }

  lemma PlainCellsHold(f: Frame, p: int)
    requires WellFormed(f) && 0 <= p < f.rowCount
    ensures var flat := PlainCells(f.rowFields, CellsAt(f, p));
            && (forall name :: name in flat <==> name in f.rowFields && !("bounds." <= name))
            && (forall c :: 0 <= c < |f.rowFields| && !("bounds." <= f.rowFields[c]) ==> flat[f.rowFields[c]] == f.columns[c][p])
  {
    forall c | 0 <= c < |f.rowFields| ensures IndexOf(f.rowFields, f.rowFields[c]) == c {
      IndexIs(f.rowFields, c);
    }
  }

  lemma Layered(bounds: map<string, Value>, flat: Row, frameFields: map<string, Value>, name: string)
    ensures var row := map["bounds" := Record(bounds)] + (flat + frameFields);
            && (name in row <==> name == "bounds" || name in flat || name in frameFields)
            && (name in frameFields ==> row[name] == frameFields[name])
            && (name in flat && name !in frameFields ==> row[name] == flat[name])
            && (name == "bounds" && name !in flat && name !in frameFields ==> row[name] == Record(bounds))
    ensures var row := flat + frameFields;
            && (name in row <==> name in flat || name in frameFields)
            && (name in frameFields ==> row[name] == frameFields[name])
            && (name in flat && name !in frameFields ==> row[name] == flat[name])
  {
  }

  lemma RowOfIs(f: Frame, p: int)
    requires WellFormed(f) && 0 <= p < f.rowCount
    ensures var flat, bounds := PlainCells(f.rowFields, CellsAt(f, p)), BoundsCells(f.rowFields, CellsAt(f, p));
            RowOf(f.rowFields, CellsAt(f, p), f.frameFields) ==
            if HasBounds(f, p) then map["bounds" := Record(bounds)] + (flat + f.frameFields) else flat + f.frameFields
  {
    BoundsPresentIff(f, p);
    hide PlainCells, BoundsCells, HasBounds, CellsAt, WellFormed;
  }

  lemma RowOfLayers(f: Frame, p: int, name: string)
    requires WellFormed(f) && 0 <= p < f.rowCount
    ensures var row, flat := RowOf(f.rowFields, CellsAt(f, p), f.frameFields), PlainCells(f.rowFields, CellsAt(f, p));
            && (name in row <==> (name == "bounds" && HasBounds(f, p)) || name in flat || name in f.frameFields)
            && (name in f.frameFields ==> row[name] == f.frameFields[name])
            && (name in flat && name !in f.frameFields ==> row[name] == flat[name])
            && (HasBounds(f, p) && "bounds" !in flat && "bounds" !in f.frameFields ==>
                  "bounds" in row && row["bounds"] == Record(BoundsCells(f.rowFields, CellsAt(f, p))))
  {
    RowOfIs(f, p);
    Layered(BoundsCells(f.rowFields, CellsAt(f, p)), PlainCells(f.rowFields, CellsAt(f, p)), f.frameFields, name);
    Layered(BoundsCells(f.rowFields, CellsAt(f, p)), PlainCells(f.rowFields, CellsAt(f, p)), f.frameFields, "bounds");
    hide RowOf, PlainCells, BoundsCells, HasBounds, CellsAt, WellFormed;
  }

  lemma RowOfNames(f: Frame, p: int)
    requires WellFormed(f) && 0 <= p < f.rowCount
    ensures HoldsNames(RowOf(f.rowFields, CellsAt(f, p), f.frameFields), f, p)
  {
    PlainCellsHold(f, p);
    hide PlainCells, BoundsCells, HasBounds, RowOf, CellsAt, WellFormed;
    forall name
      ensures name in RowOf(f.rowFields, CellsAt(f, p), f.frameFields) <==>
                name in f.frameFields || (name in f.rowFields && !("bounds." <= name)) || (name == "bounds" && HasBounds(f, p))
    {
      RowOfLayers(f, p, name);
    }
  }

  lemma RowOfColumns(f: Frame, p: int)
    requires WellFormed(f) && 0 <= p < f.rowCount
    ensures HoldsColumns(RowOf(f.rowFields, CellsAt(f, p), f.frameFields), f, p)
  {
    PlainCellsHold(f, p);
    hide PlainCells, BoundsCells, HasBounds, RowOf, CellsAt;
    forall c | 0 <= c < |f.rowFields| && !("bounds." <= f.rowFields[c]) && f.rowFields[c] !in f.frameFields
      ensures var row := RowOf(f.rowFields, CellsAt(f, p), f.frameFields);
              f.rowFields[c] in row && row[f.rowFields[c]] == f.columns[c][p]
    {
      RowOfLayers(f, p, f.rowFields[c]);
    }
  }

  lemma RowOfBounds(f: Frame, p: int)
    requires WellFormed(f) && 0 <= p < f.rowCount && HasBounds(f, p) && "bounds" !in f.frameFields && "bounds" !in f.rowFields
    ensures var row := RowOf(f.rowFields, CellsAt(f, p), f.frameFields); "bounds" in row && HoldsBounds(row["bounds"], f, p)
  {
    PlainCellsHold(f, p);
    BoundsCellsHold(f, p);
    hide PlainCells, BoundsCells, HasBounds, HoldsBounds, RowOf, CellsAt, WellFormed;
    RowOfLayers(f, p, "bounds");
  }

  lemma RowOfHolds(f: Frame, p: int)
    requires WellFormed(f) && 0 <= p < f.rowCount
    ensures HoldsRow(RowOf(f.rowFields, CellsAt(f, p), f.frameFields), f, p)
  {
    hide RowOf, PlainCells, BoundsCells, HasBounds, HoldsBounds, HoldsNames, HoldsColumns, CellsAt, NoDup;
    RowOfNames(f, p);
    RowOfColumns(f, p);
    if HasBounds(f, p) && "bounds" !in f.frameFields && "bounds" !in f.rowFields {
      RowOfBounds(f, p);
    }
    forall name | name in f.frameFields
      ensures var row := RowOf(f.rowFields, CellsAt(f, p), f.frameFields); name in row && row[name] == f.frameFields[name]
    {
      RowOfLayers(f, p, name);
    }
  }

  ghost predicate Counts(p: seq<int>) {
    forall i :: 0 <= i < |p| ==> p[i] == i
  }

  /** The positions below n that satisfy `keep`, in order. */
  function Picked(n: nat, keep: int -> bool): (p: seq<int>)
    ensures |p| <= n
    ensures forall a :: 0 <= a < |p| ==> 0 <= p[a] < n && keep(p[a])
    ensures forall a, b :: 0 <= a < b < |p| ==> p[a] < p[b]
    ensures forall i :: 0 <= i < n && keep(i) ==> i in p
    ensures |p| == n ==> Counts(p)
  {
    if n == 0 then []
    else
      var before := Picked(n - 1, keep);
      if keep(n - 1) then before + [n - 1] else before
  }

  ghost function Select(v: View, keep: int -> bool): (r: View)
    requires ValidView(v)
    ensures ValidView(r) && r.frame == v.frame
  {
    var selected := Picked(RowCount(v), keep);
    if |selected| == RowCount(v) then v else View(v.frame, Some(Pick(Positions(v), selected)))
  }

  /** Selecting keeps exactly the rows whose position satisfies the predicate, in their order. */
  lemma SelectIsFilter(v: View, keep: int -> bool)
    requires ValidView(v)
    ensures ViewRows(Select(v, keep)) == Pick(ViewRows(v), Picked(RowCount(v), keep))
  {
    assert Positions(Select(v, keep)) == Pick(Positions(v), Picked(RowCount(v), keep));
    RowsFollowPositions(Select(v, keep), v, Picked(RowCount(v), keep));
  }

  /** `intersecting`, and any selection that tests the frame's own row: the rows whose frame position passes. */
  ghost function Matching(v: View, test: int -> bool): (r: View)
    requires ValidView(v)
    ensures ValidView(r) && r.frame == v.frame
  {
    Select(v, i => 0 <= i < |Positions(v)| && test(Positions(v)[i]))
  }

  function Filtered(s: seq<int>, test: int -> bool): seq<int> {
    if s == [] then []
    else Filtered(s[..|s| - 1], test) + if test(s[|s| - 1]) then [s[|s| - 1]] else []
  }

  lemma {:induction false} PickedIsFiltered(s: seq<int>, n: nat, keep: int -> bool, test: int -> bool)
    requires n <= |s| && forall i :: 0 <= i < |s| ==> keep(i) == test(s[i])
    ensures Pick(s, Picked(n, keep)) == Filtered(s[..n], test)
  {
    hide Filtered, Pick;
    if n == 0 {
      NothingFiltered(s, test);
    } else {
      PickedIsFiltered(s, n - 1, keep, test);
      FilteredStep(s, n, test);
      if keep(n - 1) {
        PickAppend(s, Picked(n - 1, keep), n - 1);
      }
    }
  }

  lemma NothingFiltered(s: seq<int>, test: int -> bool)
    ensures Pick(s, []) == Filtered(s[..0], test) == []
  {
  }

  lemma PickAppend(s: seq<int>, at: seq<int>, x: int)
    requires (forall i :: 0 <= i < |at| ==> 0 <= at[i] < |s|) && 0 <= x < |s|
    ensures Pick(s, at + [x]) == Pick(s, at) + [s[x]]
  {
  }

  lemma FilteredStep(s: seq<int>, n: nat, test: int -> bool)
    requires 0 < n <= |s|
    ensures Filtered(s[..n], test) == if test(s[n - 1]) then Filtered(s[..n - 1], test) + [s[n - 1]] else Filtered(s[..n - 1], test)
  {
    assert s[..n][..n - 1] == s[..n - 1];
  }

  lemma MatchingFilters(v: View, test: int -> bool)
    requires ValidView(v)
    ensures Positions(Matching(v, test)) == Filtered(Positions(v), test)
  {
    var keep := i => 0 <= i < |Positions(v)| && test(Positions(v)[i]);
    PickedIsFiltered(Positions(v), |Positions(v)|, keep, test);
    assert Positions(v)[..|Positions(v)|] == Positions(v);
    assert Positions(Select(v, keep)) == Pick(Positions(v), Picked(RowCount(v), keep));
  }

  lemma {:induction false} FilteredTwice(s: seq<int>, a: int -> bool, b: int -> bool)
    ensures Filtered(Filtered(s, a), b) == Filtered(s, x => a(x) && b(x))
  {
    if s != [] {
      var before, last := s[..|s| - 1], s[|s| - 1];
      FilteredTwice(before, a, b);
      if a(last) {
        assert (Filtered(before, a) + [last])[..|Filtered(before, a)|] == Filtered(before, a);
      } else {
        assert Filtered(before, a) + [] == Filtered(before, a);
      }
    }
  }

  lemma {:induction false} FilteredAgrees(s: seq<int>, a: int -> bool, b: int -> bool)
    requires forall x :: a(x) == b(x)
    ensures Filtered(s, a) == Filtered(s, b)
  {
    if s != [] {
      FilteredAgrees(s[..|s| - 1], a, b);
    }
  }

  /** Narrowing a view twice shows what narrowing it by both tests at once shows, in either order. */
  lemma MatchingComposes(v: View, a: int -> bool, b: int -> bool)
    requires ValidView(v)
    ensures ViewRows(Matching(Matching(v, a), b)) == ViewRows(Matching(v, x => a(x) && b(x))) == ViewRows(Matching(Matching(v, b), a))
  {
    hide Matching, ViewRows;
    MatchingFilters(v, a);
    MatchingFilters(v, b);
    MatchingFilters(Matching(v, a), b);
    MatchingFilters(Matching(v, b), a);
    MatchingFilters(v, x => a(x) && b(x));
    FilteredTwice(Positions(v), a, b);
    FilteredTwice(Positions(v), b, a);
    FilteredAgrees(Positions(v), x => a(x) && b(x), x => b(x) && a(x));
    SamePositions(Matching(Matching(v, a), b), Matching(v, x => a(x) && b(x)));
    SamePositions(Matching(Matching(v, b), a), Matching(v, x => a(x) && b(x)));
  }

  lemma SamePositions(a: View, b: View)
    requires ValidView(a) && ValidView(b) && a.frame == b.frame && Positions(a) == Positions(b)
    ensures ViewRows(a) == ViewRows(b)
  {
    var at := seq(RowCount(b), i => i);
    RowsFollowPositions(a, b, at);
    assert Pick(ViewRows(b), at) == ViewRows(b);
  }

  function AtLeastZero(n: int): int { if n > 0 then n else 0 }

  /** The positions [start, stop) of a request for `limit` rows from `offset`, out of `count`. */
  function Window(count: int, offset: int, limit: Option<int>): (int, int) {
    var start := AtLeastZero(offset);
    (start, if limit.None? || start + AtLeastZero(limit.value) >= count then count else start + AtLeastZero(limit.value))
  }

  function Stretch<T>(s: seq<T>, window: (int, int)): seq<T>
    requires 0 <= window.0 && window.1 <= |s|
  {
    if window.0 < window.1 then s[window.0..window.1] else []
  }

  ghost function Sliced(v: View, offset: int, limit: Option<int>): (r: View)
    requires ValidView(v)
    ensures ValidView(r) && r.frame == v.frame
  {
    var window := Window(RowCount(v), offset, limit);
    if window == (0, RowCount(v)) then v else View(v.frame, Some(Stretch(Positions(v), window)))
  }

  /** A slice is that stretch of the view's rows, and nothing when it starts past the end. */
  lemma SlicedIsSlice(v: View, offset: int, limit: Option<int>)
    requires ValidView(v)
    ensures ViewRows(Sliced(v, offset, limit)) == Stretch(ViewRows(v), Window(RowCount(v), offset, limit))
  {
    hide ViewRows;
    var (start, stop) := Window(RowCount(v), offset, limit);
    if start < stop {
      var at := seq(stop - start, i => start + i);
      assert Positions(Sliced(v, offset, limit)) == Pick(Positions(v), at);
      RowsFollowPositions(Sliced(v, offset, limit), v, at);
      assert Pick(ViewRows(v), at) == ViewRows(v)[start..stop];
    }
  }

  lemma StretchHolds<T>(s: seq<T>, offset: int, limit: Option<int>, k: nat)
    ensures var part := Stretch(s, Window(|s|, offset, limit));
            var first := if offset < 0 then 0 else offset;
            && (k < |part| <==> first + k < |s| && (limit.Some? ==> k < limit.value))
            && (k < |part| ==> part[k] == s[first + k])
  {
  }

  /** The rows of a slice, counted from the offset; a negative offset is none, and a negative limit is no row. */
  lemma SliceHolds(v: View, offset: int, limit: Option<int>, k: nat)
    requires ValidView(v)
    ensures var all, some := ViewRows(v), ViewRows(Sliced(v, offset, limit));
            var first := if offset < 0 then 0 else offset;
            && (k < |some| <==> first + k < |all| && (limit.Some? ==> k < limit.value))
            && (k < |some| ==> some[k] == all[first + k])
  {
    assert |ViewRows(v)| == RowCount(v);
    hide Sliced, ViewRows, Window, Stretch;
    SlicedIsSlice(v, offset, limit);
    StretchHolds(ViewRows(v), offset, limit, k);
  }

  lemma Rejoin<T>(s: seq<T>, cut: int)
    ensures Stretch(s, Window(|s|, 0, Some(cut))) + Stretch(s, Window(|s|, cut, None)) == s
  {
    if 0 < cut < |s| {
      assert s[0..cut] + s[cut..|s|] == s;
    } else {
      assert s[0..|s|] == s;
    }
  }

  /** Cutting a view anywhere and reading both parts gives the view back. */
  lemma PagesPartition(v: View, cut: int)
    requires ValidView(v)
    ensures ViewRows(Sliced(v, 0, Some(cut))) + ViewRows(Sliced(v, cut, None)) == ViewRows(v)
  {
    hide *;
    SlicedIsSlice(v, 0, Some(cut));
    SlicedIsSlice(v, cut, None);
    Rejoin(ViewRows(v), cut);
  }

  // ----- from rows to rows ------------------------------------------------------------------------------------------------

  /** The rows of a built frame give back what was appended: as many rows, in order, with every plain field as it was and the
      bounds fields nested, if the row has any of them. */
  lemma BuiltRowsComeBack(fields: seq<string>, frameNames: set<string>, rows: seq<Row>, k: int)
    requires NoDup(fields) && (forall n :: n in frameNames ==> n in fields && !("bounds." <= n)) && "bounds" !in fields
    requires 0 <= k < |rows| && fields != []
    ensures ValidView(View(Hoisted(fields, frameNames, rows), None))
    ensures var back := ViewRows(View(Hoisted(fields, frameNames, rows), None));
            && |back| == |rows|
            && (forall n :: n in fields && !("bounds." <= n) ==> n in back[k] && back[k][n] == Get(rows[k], n))
            && ("bounds" in back[k] <==> exists n :: n in fields && "bounds." <= n && Get(rows[k], n) != Null)
            && ("bounds" in back[k] ==>
                  && back[k]["bounds"].Record?
                  && forall n :: n in fields && "bounds." <= n ==>
                       n[7..] in back[k]["bounds"].fields && back[k]["bounds"].fields[n[7..]] == Get(rows[k], n))
            && (forall n :: n in back[k] ==> n == "bounds" || (n in fields && !("bounds." <= n)))
  {
    HoistedWellFormed(fields, frameNames, rows);
    var f := Hoisted(fields, frameNames, rows);
    RowHolds(View(f, None), k);
    var row := ViewRows(View(f, None))[k];
    hide ViewRows, HoldsRow, HoldsNames, HoldsColumns, HoldsBounds, HasBounds, Hoisted, Get, WellFormed;
    BuiltNames(fields, frameNames, rows, k, row);
    forall n | n in fields && !("bounds." <= n) ensures n in row && row[n] == Get(rows[k], n) {
      BuiltField(fields, frameNames, rows, k, row, n);
    }
    BuiltBounds(fields, frameNames, rows, k);
    if "bounds" in row {
      BoundsHeld(f, k, row);
      forall n | n in fields && "bounds." <= n ensures n[7..] in row["bounds"].fields && row["bounds"].fields[n[7..]] == Get(rows[k], n) {
        BuiltDirection(fields, frameNames, rows, k, row, n);
      }
    }
  }

  lemma BoundsHeld(f: Frame, k: int, row: Row)
    requires WellFormed(f) && 0 <= k < f.rowCount && HoldsRow(row, f, k) && "bounds" in row && "bounds" !in f.frameFields && "bounds" !in f.rowFields
    ensures HasBounds(f, k) && HoldsBounds(row["bounds"], f, k)
  {
    hide HoldsColumns, HoldsBounds, HasBounds, WellFormed;
  }

  lemma HoistedFields(fields: seq<string>, frameNames: set<string>, rows: seq<Row>, n: string)
    ensures var f := Hoisted(fields, frameNames, rows);
            && (n in f.frameFields <==> n in frameNames && Constant(rows, n))
            && (n in f.rowFields <==> n in fields && !(n in frameNames && Constant(rows, n)))
  {
    hide Constant;
    ExceptMembers(fields, HoistedNames(frameNames, rows));
  }

  lemma HoistedColumn(fields: seq<string>, frameNames: set<string>, rows: seq<Row>, k: int, n: string)
    requires NoDup(fields) && 0 <= k < |rows| && n in Hoisted(fields, frameNames, rows).rowFields
    ensures var f := Hoisted(fields, frameNames, rows);
            var c := IndexOf(f.rowFields, n);
            c < |f.columns| && |f.columns[c]| == |rows| && f.columns[c][k] == Get(rows[k], n)
  {
    hide Constant, Get;
  }

  lemma BuiltNames(fields: seq<string>, frameNames: set<string>, rows: seq<Row>, k: int, row: Row)
    requires WellFormed(Hoisted(fields, frameNames, rows)) && 0 <= k < Hoisted(fields, frameNames, rows).rowCount
    requires (forall n :: n in frameNames ==> n in fields && !("bounds." <= n)) && "bounds" !in fields
    requires HoldsRow(row, Hoisted(fields, frameNames, rows), k)
    ensures var f := Hoisted(fields, frameNames, rows);
            && "bounds" !in f.frameFields && "bounds" !in f.rowFields
            && ("bounds" in row <==> HasBounds(f, k))
            && (forall n :: n in row ==> n == "bounds" || (n in fields && !("bounds." <= n)))
  {
    hide Hoisted, WellFormed, HoldsColumns, HoldsBounds, HasBounds, Constant;
    HoistedFields(fields, frameNames, rows, "bounds");
    forall n | n in row ensures n == "bounds" || (n in fields && !("bounds." <= n)) {
      HoistedFields(fields, frameNames, rows, n);
    }
  }

  lemma BuiltField(fields: seq<string>, frameNames: set<string>, rows: seq<Row>, k: int, row: Row, n: string)
    requires NoDup(fields) && 0 <= k < |rows| && n in fields && !("bounds." <= n)
    requires WellFormed(Hoisted(fields, frameNames, rows)) && k < Hoisted(fields, frameNames, rows).rowCount
    requires HoldsRow(row, Hoisted(fields, frameNames, rows), k)
    ensures n in row && row[n] == Get(rows[k], n)
  {
    HoistedFields(fields, frameNames, rows, n);
    var f := Hoisted(fields, frameNames, rows);
    if n in f.rowFields {
      HoistedColumn(fields, frameNames, rows, k, n);
      assert f.rowFields[IndexOf(f.rowFields, n)] == n;
    } else {
      assert f.frameFields[n] == FirstValue(rows, n);
    }
    hide Hoisted, HoldsNames, HoldsBounds, HasBounds, Get, WellFormed;
  }

  lemma BuiltBounds(fields: seq<string>, frameNames: set<string>, rows: seq<Row>, k: int)
    requires NoDup(fields) && 0 <= k < |rows| && (forall n :: n in frameNames ==> n in fields && !("bounds." <= n))
    requires WellFormed(Hoisted(fields, frameNames, rows)) && k < Hoisted(fields, frameNames, rows).rowCount
    ensures HasBounds(Hoisted(fields, frameNames, rows), k) <==> exists n :: n in fields && "bounds." <= n && Get(rows[k], n) != Null
  {
    var f := Hoisted(fields, frameNames, rows);
    hide Hoisted, Get, Constant;
    forall c | 0 <= c < |f.rowFields| ensures f.rowFields[c] in fields && f.columns[c][k] == Get(rows[k], f.rowFields[c]) {
      HoistedFields(fields, frameNames, rows, f.rowFields[c]);
      HoistedColumn(fields, frameNames, rows, k, f.rowFields[c]);
      IndexIs(f.rowFields, c);
    }
    forall n | n in fields && "bounds." <= n ensures n in f.rowFields {
      HoistedFields(fields, frameNames, rows, n);
    }
  }

  lemma BuiltDirection(fields: seq<string>, frameNames: set<string>, rows: seq<Row>, k: int, row: Row, n: string)
    requires NoDup(fields) && 0 <= k < |rows| && n in fields && "bounds." <= n && n !in frameNames
    requires WellFormed(Hoisted(fields, frameNames, rows)) && k < Hoisted(fields, frameNames, rows).rowCount
    requires "bounds" in row && HoldsBounds(row["bounds"], Hoisted(fields, frameNames, rows), k)
    ensures n[7..] in row["bounds"].fields && row["bounds"].fields[n[7..]] == Get(rows[k], n)
  {
    HoistedFields(fields, frameNames, rows, n);
    HoistedColumn(fields, frameNames, rows, k, n);
    var f := Hoisted(fields, frameNames, rows);
    var c := IndexOf(f.rowFields, n);
    hide Hoisted, Get, WellFormed;
    assert f.rowFields[c] == n;
  }

  // ----- transport -----------------------------------------------------------------------------------------------

  datatype Transport = Transport(schema: string, frame: Frame)

  ghost function ToTransport(v: View): Transport
    requires ValidView(v)
  {
    Transport(FRAME_VERSION, Frame(
      v.frame.rowFields,
      if v.indices.None? then v.frame.columns
      else seq(|v.frame.columns|, c requires 0 <= c < |v.frame.columns| => Pick(v.frame.columns[c], v.indices.value)),
      v.frame.frameFields, RowCount(v)))
  }

  ghost function FromTransport(t: Transport): Result<Frame, string> {
    if t.schema != FRAME_VERSION then Err(BAD_SCHEMA) else Create(t.frame)
  }

  /** A frame is rebuilt exactly from what has this version and is well formed; another version is refused before anything else. */
  lemma TransportAccepts(t: Transport)
    ensures FromTransport(t) == Ok(t.frame) <==> t.schema == FRAME_VERSION && WellFormed(t.frame)
    ensures FromTransport(t).Ok? ==> FromTransport(t) == Ok(t.frame)
    ensures t.schema != FRAME_VERSION ==> FromTransport(t) == Err(BAD_SCHEMA)
  {
    hide WellFormed;
  }

  /** A view that is transported and rebuilt has the same rows. */
  lemma TransportRoundTrip(v: View)
    requires ValidView(v)
    ensures var r := FromTransport(ToTransport(v));
            && r.Ok?
            && WellFormed(r.value)
            && ViewRows(View(r.value, None)) == ViewRows(v)
  {
    var t := ToTransport(v).frame;
    assert WellFormed(t);
    var whole := View(t, None);
    assert ValidView(whole);
    forall i | 0 <= i < RowCount(v) ensures Cells(whole)[i] == Cells(v)[i] {
      assert CellsAt(t, i) == CellsAt(v.frame, Positions(v)[i]);
    }
    assert ViewRows(whole) == ViewRows(v);
  }

  // ----- building ------------------------------------------------------------------------------------------------

  /** `dict.fromkeys`: the first of each name, in order. */
  function Deduped(names: seq<string>): (r: seq<string>)
    ensures NoDup(r)
    ensures forall n :: n in r <==> n in names
  {
    if names == [] then []
    else
      var before := Deduped(names[..|names| - 1]);
      var last := names[|names| - 1];
      if last in before then before else before + [last]
  }

  function Zipped(names: seq<string>, values: seq<Value>): (row: Row)
    requires |names| == |values|
    ensures row.Keys == set n | n in names
  {
    map n | n in names :: values[IndexOf(names, n)]
  }

  /** What a builder remembers of one field after the given rows: its column and, for a frame name, the first value and
      whether it has been the only one. */
  ghost predicate Tracks(b: Building, name: string, rows: seq<Row>) {
    && name in b.columns && b.columns[name] == Column(rows, name)
    && (name in b.constants || name in b.constant ==>
          && name in b.constants && name in b.constant
          && b.constants[name] == (if rows == [] then None else Some(Get(rows[0], name)))
          && (b.constant[name] <==> Constant(rows, name)))
  }

  datatype Building = Building(columns: map<string, seq<Value>>, constants: map<string, Option<Value>>, constant: map<string, bool>)

  /** One field of one appended row. */
  function Appended(b: Building, name: string, value: Value): Building
    requires name in b.columns && (name in b.constants ==> name in b.constant)
  {
    Building(
      b.columns[name := b.columns[name] + [value]],
      if name in b.constants && b.constants[name].None? then b.constants[name := Some(value)] else b.constants,
      if name in b.constants && b.constants[name].Some? && b.constants[name].value != value then b.constant[name := false] else b.constant)
  }

  lemma AppendedTracks(b: Building, name: string, value: Value, rows: seq<Row>, row: Row)
    requires Tracks(b, name, rows) && value == Get(row, name)
    ensures Tracks(Appended(b, name, value), name, rows + [row])
  {
    assert Column(rows + [row], name) == Column(rows, name) + [value];
    GrownConstant(rows, row, name);
    assert (rows + [row])[0] == if rows == [] then row else rows[0];
    hide Constant, Column, Get;
  }

  lemma AppendedKeepsOthers(b: Building, name: string, value: Value, other: string, rows: seq<Row>)
    requires name in b.columns && (name in b.constants ==> name in b.constant)
    requires Tracks(b, other, rows) && other != name
    ensures Tracks(Appended(b, name, value), other, rows)
  {
    hide Constant, Column, Get;
  }

  class CanonicalGridFrameBuilder {
    const fields: seq<string>
    const frameNames: set<string>
    var columns: map<string, seq<Value>>
    var constants: map<string, Option<Value>>
    var constant: map<string, bool>
    /** The rows appended so far. */
    ghost var rows: seq<Row>

    ghost predicate Valid()
      reads this
    {
      && NoDup(fields) && (forall n :: n in frameNames ==> n in fields)
      && constants.Keys == frameNames && constant.Keys == frameNames
      && (forall n :: n in fields ==> Tracks(Building(columns, constants, constant), n, rows))
    }

    constructor (rowFields: seq<string>, frameFieldNames: seq<string>)
      ensures Valid() && rows == []
      ensures fields == Deduped(rowFields + frameFieldNames) && frameNames == set n | n in frameFieldNames
    {
      fields := Deduped(rowFields + frameFieldNames);
      frameNames := set n | n in frameFieldNames;
      columns := map n | n in rowFields + frameFieldNames :: [];
      constants := map n | n in frameFieldNames :: None;
      constant := map n | n in frameFieldNames :: true;
      rows := [];
    }

    method AppendMapping(row: Row)
      requires Valid()
      modifies this
      ensures Valid()
      ensures |rows| == |old(rows)| + 1 && rows[..|old(rows)|] == old(rows)
      ensures forall n :: n in fields ==> Get(rows[|old(rows)|], n) == Get(row, n)
    {
      var values := seq(|fields|, i requires 0 <= i < |fields| => Get(row, fields[i]));
      var r := AppendValues(values);
      forall n | n in fields ensures Get(rows[|old(rows)|], n) == Get(row, n) {
        assert values[IndexOf(fields, n)] == Get(row, n);
      }
    }

    method AppendValues(values: seq<Value>) returns (r: Result<(), string>)
      requires Valid()
      modifies this
      ensures Valid()
      ensures r == if |values| == |fields| then Ok(()) else Err(WIDTH_MISMATCH)
      ensures rows == if |values| == |fields| then old(rows) + [Zipped(fields, values)] else old(rows)
    {
      hide Tracks, Appended, Zipped, IndexOf;
      if |values| != |fields| {
        return Err(WIDTH_MISMATCH);
      }
      ghost var grown := rows + [Zipped(fields, values)];
      var i := 0;
      while i < |fields|
        invariant 0 <= i <= |fields| && rows == old(rows)
        invariant constants.Keys == frameNames && constant.Keys == frameNames
        invariant forall j :: 0 <= j < i ==> Tracks(Building(columns, constants, constant), fields[j], grown)
        invariant forall j :: i <= j < |fields| ==> Tracks(Building(columns, constants, constant), fields[j], rows)
      {
        TracksHasColumn(Building(columns, constants, constant), fields[i], rows);
        ghost var before := Building(columns, constants, constant);
        AppendOne(fields[i], values[i]);
        StepTracks(before, fields, i, values, rows);
        i := i + 1;
      }
      rows := grown;
      TracksAll(Building(columns, constants, constant), fields, rows);
      return Ok(());
    }

    method AppendOne(name: string, value: Value)
      requires name in columns && constants.Keys == constant.Keys == frameNames
      modifies this`columns, this`constants, this`constant
      ensures Building(columns, constants, constant) == Appended(old(Building(columns, constants, constant)), name, value)
      ensures constants.Keys == constant.Keys == frameNames
    {
      columns := columns[name := columns[name] + [value]];
      if name in frameNames {
        if constants[name].None? {
          constants := constants[name := Some(value)];
        } else if constants[name].value != value {
          constant := constant[name := false];
        }
      }
    }

    method Build() returns (frame: Frame)
      requires Valid()
      ensures frame == Hoisted(fields, frameNames, rows)
    {
      hide Constant, Get, NoDup, Except;
      var rowCount := 0;
      if fields != [] {
        assert fields[0] in fields;
        rowCount := |columns[fields[0]]|;
      }
      var frameFields := map n | n in frameNames && constant[n] :: if constants[n].None? then Null else constants[n].value;
      var rowFields := Except(fields, frameFields.Keys);
      var columns := columns;
      ExceptMembers(fields, frameFields.Keys);
      assert forall i :: 0 <= i < |rowFields| ==> rowFields[i] in rowFields;
      var kept := seq(|rowFields|, i requires 0 <= i < |rowFields| && rowFields[i] in columns => columns[rowFields[i]]);
      frame := Frame(rowFields, kept, frameFields, rowCount);
      BuiltFieldsAreHoisted(Building(columns, constants, constant), frameNames, fields, rows, frameFields);
      assert kept == Columns(rows, rowFields);
    }
  }

  lemma TracksHasColumn(b: Building, name: string, rows: seq<Row>)
    requires Tracks(b, name, rows)
    ensures name in b.columns
  {
  }

  lemma TracksAll(b: Building, fields: seq<string>, rows: seq<Row>)
    requires forall j :: 0 <= j < |fields| ==> Tracks(b, fields[j], rows)
    ensures forall n :: n in fields ==> Tracks(b, n, rows)
  {
  }

  lemma StepTracks(before: Building, fields: seq<string>, i: int, values: seq<Value>, rows: seq<Row>)
    requires NoDup(fields) && |values| == |fields| && 0 <= i < |fields|
    requires fields[i] in before.columns && (fields[i] in before.constants ==> fields[i] in before.constant)
    requires forall j :: 0 <= j < i ==> Tracks(before, fields[j], rows + [Zipped(fields, values)])
    requires forall j :: i <= j < |fields| ==> Tracks(before, fields[j], rows)
    ensures forall j :: 0 <= j <= i ==> Tracks(Appended(before, fields[i], values[i]), fields[j], rows + [Zipped(fields, values)])
    ensures forall j :: i < j < |fields| ==> Tracks(Appended(before, fields[i], values[i]), fields[j], rows)
  {
    assert IndexOf(fields, fields[i]) == i && values[i] == Get(Zipped(fields, values), fields[i]);
    hide Tracks, Appended, Zipped, Get;
    var row := Zipped(fields, values);
    AppendedTracks(before, fields[i], values[i], rows, row);
    forall j | 0 <= j < i ensures Tracks(Appended(before, fields[i], values[i]), fields[j], rows + [row]) {
      AppendedKeepsOthers(before, fields[i], values[i], fields[j], rows + [row]);
    }
    forall j | i < j < |fields| ensures Tracks(Appended(before, fields[i], values[i]), fields[j], rows) {
      AppendedKeepsOthers(before, fields[i], values[i], fields[j], rows);
    }
  }

  lemma BuiltFieldsAreHoisted(b: Building, frameNames: set<string>, fields: seq<string>, rows: seq<Row>, frameFields: map<string, Value>)
    requires b.constants.Keys == frameNames && b.constant.Keys == frameNames && (forall n :: n in frameNames ==> n in fields)
    requires forall n :: n in fields ==> Tracks(b, n, rows)
    requires frameFields == map n | n in frameNames && b.constant[n] :: if b.constants[n].None? then Null else b.constants[n].value
    ensures frameFields == map n | n in HoistedNames(frameNames, rows) :: FirstValue(rows, n)
    ensures frameFields.Keys == HoistedNames(frameNames, rows)
  {
    hide Constant, Column, Get;
  }

  lemma GrownConstant(rows: seq<Row>, row: Row, name: string)
    ensures Constant(rows + [row], name) <==> Constant(rows, name) && (rows == [] || Get(row, name) == Get(rows[0], name))
  {
    var grown := rows + [row];
    assert forall k :: 0 <= k < |rows| ==> grown[k] == rows[k];
    assert grown[|rows|] == row;
  }
}
