/** Mapping a sampled-grid source to a canonical frame, row by row or column by column, and when both agree. */
module GridMapping {
  import opened Prelude
  import opened Sequences
  import opened GridFrames

  /** A compiled mapping. Roles name source columns and request paths; no name or path in it is blank. */
  datatype Mapping = Mapping(
    sourceFields: map<string, string>, requestPaths: map<string, string>, extensions: seq<(string, string)>,
    encoding: string, originLat: Option<real>, originLon: Option<real>, unitsPerDegree: Option<real>,
    baseResolution: Option<real>, cellWidth: Option<real>, cellHeight: Option<real>,
    available: seq<real>, status: Value -> Value)

  type Context = map<string, Value>

  const WRONG_LENGTHS := "sampled-grid source column lengths do not match row_count"

  const ROW_FIELDS := ["cell_id", "lat", "lon", "value", "coverage_ratio", "data_status",
                       "bounds.west", "bounds.south", "bounds.east", "bounds.north"]
  const FRAME_FIELDS := ["date", "resolution_km"]

  function ExtensionNames(m: Mapping): (names: seq<string>)
    ensures |names| == |m.extensions|
  {
    seq(|m.extensions|, i requires 0 <= i < |m.extensions| => m.extensions[i].0)
  }

  function Fields(m: Mapping): (fields: seq<string>)
    ensures |fields| == 12 + |m.extensions|
  {
    ROW_FIELDS + ExtensionNames(m) + FRAME_FIELDS
  }

  /** What compilation guarantees of extension fields: their names are unreserved and their paths are not empty. */
  ghost predicate Compiled(m: Mapping) {
    && NoDup(Fields(m))
    && (forall i :: 0 <= i < |m.extensions| ==> m.extensions[i].1 != "")
    && (forall role :: role in m.sourceFields ==> m.sourceFields[role] != "")
    && (forall role :: role in m.requestPaths ==> m.requestPaths[role] != "")
  }

  // ----- looking values up ------------------------------------------------------------------------------------

  function FirstDot(s: string): (n: nat)
    ensures n <= |s| && (forall i :: 0 <= i < n ==> s[i] != '.') && (n < |s| ==> s[n] == '.')
  {
    if s == "" || s[0] == '.' then 0 else 1 + FirstDot(s[1..])
  }

  function Split(s: string): seq<string> {
    var n := FirstDot(s);
    if n == |s| then [s] else [s[..n]] + Split(s[n + 1..])
  }

  function Walk(current: Value, parts: seq<string>): Value
    decreases |parts|
  {
    if parts == [] then current
    else if parts[0] == "" then Walk(current, parts[1..])
    else if current.Record? && parts[0] in current.fields then Walk(current.fields[parts[0]], parts[1..])
    else Null
  }

  /** `_context_value`. */
  function PathValue(fields: map<string, Value>, path: string): Value {
    if path == "" then Null else Walk(Record(fields), Split(path))
  }

  lemma DirectPath(fields: map<string, Value>, path: string)
    requires path != "" && '.' !in path
    ensures PathValue(fields, path) == Get(fields, path)
  {
    var n := FirstDot(path);
    assert forall i :: 0 <= i < |path| ==> path[i] in path;
    assert Split(path) == [path];
    assert Walk(Record(fields), [path]) == Get(fields, path) by {
      assert [path][1..] == [];
    }
  }

  function Primary(m: Mapping, role: string): string {
    if role in m.sourceFields then m.sourceFields[role] else ""
  }

  function CanonicalColumn(role: string): string {
    match role
    case "time" => "date"
    case "id" => "cell_id"
    case "lat" => "lat"
    case "lon" => "lon"
    case "value" => "value"
    case "resolution" => "resolution_km"
    case "coverage" => "coverage_ratio"
    case "status" => "data_status"
    case _ => ""
  }

  /** `_role_candidates`: the mapped column, the canonical column, the role itself. */
  function Candidates(m: Mapping, role: string): (candidates: seq<string>)
    requires role != ""
    ensures "" !in candidates
    ensures Primary(m, role) != "" ==> |candidates| > 0 && candidates[0] == Primary(m, role)
  {
    NonBlank([Primary(m, role), CanonicalColumn(role), role])
  }

  function NonBlank(names: seq<string>): (kept: seq<string>)
    ensures "" !in kept
    ensures |names| > 0 && names[0] != "" ==> |kept| > 0 && kept[0] == names[0]
  {
    if names == [] then [] else (if names[0] != "" then [names[0]] else []) + NonBlank(names[1..])
  }

  function ContextValue(m: Mapping, context: Context, role: string): Value {
    if role in m.requestPaths then PathValue(context, m.requestPaths[role]) else Null
  }

  /** `_compiled_value`. */
  function FirstPresent(row: Row, candidates: seq<string>, otherwise: Value): Value {
    if candidates == [] then otherwise
    else if candidates[0] in row then row[candidates[0]]
    else FirstPresent(row, candidates[1..], otherwise)
  }

  function RowValue(m: Mapping, context: Context, row: Row, role: string): Value
    requires role != ""
  {
    var primary := Primary(m, role);
    if primary != "" && primary in row then row[primary]
    else FirstPresent(row, Candidates(m, role), ContextValue(m, context, role))
  }

  /** A role that is not mapped is looked up under its canonical column, then under its own name. */
  lemma UnmappedRole(m: Mapping, context: Context, row: Row, role: string)
    requires Primary(m, role) == "" && CanonicalColumn(role) != "" && role != ""
    ensures RowValue(m, context, row, role) ==
            if CanonicalColumn(role) in row then row[CanonicalColumn(role)] else if role in row then row[role]
            else ContextValue(m, context, role)
  {
    hide CanonicalColumn, ContextValue;
    UnmappedCandidates(m, role);
    FirstOfTwo(row, CanonicalColumn(role), role, ContextValue(m, context, role));
  }

  lemma UnmappedCandidates(m: Mapping, role: string)
    requires Primary(m, role) == "" && CanonicalColumn(role) != "" && role != ""
    ensures Candidates(m, role) == [CanonicalColumn(role), role]
  {
    hide CanonicalColumn;
    var c := CanonicalColumn(role);
    var names := ["", c, role];
    assert names[1..] == [c, role] && [c, role][1..] == [role] && [role][1..] == [];
    assert NonBlank([role]) == [role] && NonBlank([c, role]) == [c, role];
  }

  lemma FirstOfTwo(row: Row, first: string, second: string, otherwise: Value)
    ensures FirstPresent(row, [first, second], otherwise) ==
            if first in row then row[first] else if second in row then row[second] else otherwise
  {
    assert [second][1..] == [] && [first, second][1..] == [second];
    assert FirstPresent(row, [second], otherwise) == if second in row then row[second] else otherwise;
  }

  // ----- one row -------------------------------------------------------------------------------------------------

  datatype Box = Box(west: real, south: real, east: real, north: real)

  datatype Canonical = Canonical(
    cellId: Value, lat: Option<real>, lon: Option<real>, value: Value, coverage: Option<real>, status: Value,
    west: Option<real>, south: Option<real>, east: Option<real>, north: Option<real>,
    extensions: seq<Value>, date: Value, resolution: Option<real>)

  /** The canonical values of a row in the order of `Fields`. */
  function CellsOf(c: Canonical): (cells: seq<Value>)
    ensures |cells| == 12 + |c.extensions|
  {
    [c.cellId, NumberValue(c.lat), NumberValue(c.lon), c.value, NumberValue(c.coverage), c.status,
     NumberValue(c.west), NumberValue(c.south), NumberValue(c.east), NumberValue(c.north)]
    + c.extensions + [c.date, NumberValue(c.resolution)]
  }

  function CompleteBox(west: Option<real>, south: Option<real>, east: Option<real>, north: Option<real>): Option<Box> {
    if west.Some? && south.Some? && east.Some? && north.Some?
    then Some(Box(west.value, south.value, east.value, north.value)) else None
  }

  function NestedBox(row: Row): Option<Box> {
    var nested := Get(row, "bounds");
    if !nested.Record? then None
    else CompleteBox(Number(Get(nested.fields, "west")), Number(Get(nested.fields, "south")),
                     Number(Get(nested.fields, "east")), Number(Get(nested.fields, "north")))
  }

  predicate MapsBounds(m: Mapping) {
    Primary(m, "west") != "" && Primary(m, "south") != "" && Primary(m, "east") != "" && Primary(m, "north") != ""
  }

  /** Bounds a row states itself: nested, or in the four mapped columns. */
  function StatedBox(m: Mapping, row: Row): Option<Box> {
    if NestedBox(row).Some? then NestedBox(row)
    else if MapsBounds(m) then
      CompleteBox(Number(Get(row, Primary(m, "west"))), Number(Get(row, Primary(m, "south"))),
                  Number(Get(row, Primary(m, "east"))), Number(Get(row, Primary(m, "north"))))
    else None
  }

  predicate Positive(x: Option<real>) {
    x.Some? && x.value > 0.0
  }

  predicate IndexGeometry(m: Mapping) {
    Positive(m.unitsPerDegree) && Positive(m.baseResolution) && m.originLat.Some? && m.originLon.Some?
  }

  function Span(m: Mapping, resolution: real): real
    requires IndexGeometry(m)
  {
    (resolution / m.baseResolution.value) / m.unitsPerDegree.value
  }

  function North(m: Mapping, row: real): real
    requires IndexGeometry(m)
  {
    m.originLat.value - (row / m.unitsPerDegree.value)
  }

  function West(m: Mapping, column: real): real
    requires IndexGeometry(m)
  {
    m.originLon.value + (column / m.unitsPerDegree.value)
  }

  function IndexBox(m: Mapping, row: Option<real>, column: Option<real>, resolution: Option<real>): Option<Box> {
    if row.Some? && column.Some? && Positive(resolution) && IndexGeometry(m) then
      var north, west, span := North(m, row.value), West(m, column.value), Span(m, resolution.value);
      Some(Box(west, north - span, west + span, north))
    else None
  }

  function CenterBox(m: Mapping, lat: Option<real>, lon: Option<real>): Option<Box> {
    if lat.Some? && lon.Some? && m.cellWidth.Some? && m.cellHeight.Some? then
      Some(Box(lon.value - m.cellWidth.value / 2.0, lat.value - m.cellHeight.value / 2.0,
               lon.value + m.cellWidth.value / 2.0, lat.value + m.cellHeight.value / 2.0))
    else None
  }

  function SingleResolution(m: Mapping): Option<real> {
    if |m.available| == 1 then Some(m.available[0]) else None
  }

  function OrElse(a: Option<real>, b: Option<real>): Option<real> {
    if a.Some? then a else b
  }

  /** The body of the row mapper's loop. */
  function MapRow(m: Mapping, context: Context, row: Row): Canonical {
    var resolution := OrElse(Number(RowValue(m, context, row, "resolution")), SingleResolution(m));
    var lat := Number(RowValue(m, context, row, "lat"));
    var lon := Number(RowValue(m, context, row, "lon"));
    var stated := StatedBox(m, row);
    var box :=
      if stated.Some? then stated
      else if m.encoding == "global_index" then
        IndexBox(m, Number(RowValue(m, context, row, "row")), Number(RowValue(m, context, row, "column")), resolution)
      else if m.encoding == "center" then CenterBox(m, lat, lon)
      else None;
    Canonical(
      RowValue(m, context, row, "id"),
      if box.Some? then Some((box.value.south + box.value.north) / 2.0) else lat,
      if box.Some? then Some((box.value.west + box.value.east) / 2.0) else lon,
      RowValue(m, context, row, "value"),
      Number(RowValue(m, context, row, "coverage")),
      m.status(RowValue(m, context, row, "status")),
      if box.Some? then Some(box.value.west) else None,
      if box.Some? then Some(box.value.south) else None,
      if box.Some? then Some(box.value.east) else None,
      if box.Some? then Some(box.value.north) else None,
      seq(|m.extensions|, i requires 0 <= i < |m.extensions| => PathValue(row, m.extensions[i].1)),
      RowValue(m, context, row, "time"),
      resolution)
  }

  // ----- from cells to a frame -------------------------------------------------------------------------------------

  predicate Uniform(column: seq<Value>) {
    forall k :: 0 <= k < |column| ==> column[k] == column[0]
  }

  function First(column: seq<Value>): Value {
    if column == [] then Null else column[0]
  }

  /** The end of both mappers: the last two fields go to the frame if they are uniform, else to the columns. */
  function FrameOf(fields: seq<string>, columns: seq<seq<Value>>, count: nat): Frame
    requires |fields| == |columns| >= 2
  {
    var n := |fields| - 2;
    var u, v := Uniform(columns[n]), Uniform(columns[n + 1]);
    Frame(
      fields[..n] + (if u then [] else [fields[n]]) + (if v then [] else [fields[n + 1]]),
      columns[..n] + (if u then [] else [columns[n]]) + (if v then [] else [columns[n + 1]]),
      (if u then map[fields[n] := First(columns[n])] else map[]) + (if v then map[fields[n + 1] := First(columns[n + 1])] else map[]),
      count)
  }

  ghost predicate Rectangular(columns: seq<seq<Value>>, width: int, count: int) {
    |columns| == width && forall c :: 0 <= c < width ==> |columns[c]| == count
  }

  /** Every value of the columns can be read back from the frame. */
  lemma FrameOfKeepsEveryValue(fields: seq<string>, columns: seq<seq<Value>>, count: nat, c: int, k: int)
    requires NoDup(fields) && |fields| >= 2 && Rectangular(columns, |fields|, count)
    requires 0 <= c < |fields| && 0 <= k < count
    ensures WellFormed(FrameOf(fields, columns, count))
    ensures ValueAt(FrameOf(fields, columns, count), fields[c], k) == columns[c][k]
  {
    var frame := FrameOf(fields, columns, count);
    var n := |fields| - 2;
    forall i, j | 0 <= i < j < |frame.rowFields| ensures frame.rowFields[i] != frame.rowFields[j] {
    }
    if fields[c] in frame.frameFields {
      assert fields[c] == fields[n] || fields[c] == fields[n + 1];
    } else {
      var at := if c <= n then c else |frame.rowFields| - 1;
      assert frame.rowFields[at] == fields[c] && frame.columns[at] == columns[c];
      assert IndexOf(frame.rowFields, fields[c]) == at;
    }
  }

  /** Frames of equally many rows are equal exactly when all their columns are. */
  lemma FramesEqualIff(fields: seq<string>, a: seq<seq<Value>>, b: seq<seq<Value>>, count: nat)
    requires NoDup(fields) && |fields| >= 2 && Rectangular(a, |fields|, count) && Rectangular(b, |fields|, count)
    ensures FrameOf(fields, a, count) == FrameOf(fields, b, count) <==> a == b
  {
    hide FrameOf, ValueAt, WellFormed, NoDup;
    if FrameOf(fields, a, count) == FrameOf(fields, b, count) {
      forall c | 0 <= c < |fields| ensures a[c] == b[c] {
        forall k | 0 <= k < count ensures a[c][k] == b[c][k] {
          FrameOfKeepsEveryValue(fields, a, count, c, k);
          FrameOfKeepsEveryValue(fields, b, count, c, k);
        }
      }
    }
  }

  /** The columns that list the cells of some rows. */
  function Transposed(width: nat, rows: seq<seq<Value>>): (columns: seq<seq<Value>>)
    requires forall k :: 0 <= k < |rows| ==> |rows[k]| == width
    ensures Rectangular(columns, width, |rows|)
    ensures forall c, k :: 0 <= c < width && 0 <= k < |rows| ==> columns[c][k] == rows[k][c]
  {
    seq(width, c requires 0 <= c < width => seq(|rows|, k requires 0 <= k < |rows| => rows[k][c]))
  }

  function MappedRows(m: Mapping, context: Context, rows: seq<Row>): (cells: seq<seq<Value>>)
    ensures |cells| == |rows| && forall k :: 0 <= k < |rows| ==> |cells[k]| == 12 + |m.extensions|
    ensures forall k :: 0 <= k < |rows| ==> cells[k] == CellsOf(MapRow(m, context, rows[k]))
  {
    seq(|rows|, k requires 0 <= k < |rows| => CellsOf(MapRow(m, context, rows[k])))
  }

  function RowFrame(m: Mapping, context: Context, rows: seq<Row>): Frame {
    FrameOf(Fields(m), Transposed(12 + |m.extensions|, MappedRows(m, context, rows)), |rows|)
  }

  lemma {:induction false} ExceptAppend(a: seq<string>, b: seq<string>, dropped: set<string>)
    ensures Except(a + b, dropped) == Except(a, dropped) + Except(b, dropped)
  {
    if a == [] {
      assert a + b == b;
    } else {
      ExceptAppend(a[1..], b, dropped);
      ExceptStep(a, dropped);
      ExceptStep(a + b, dropped);
      hide Except;
      assert (a + b)[1..] == a[1..] + b;
      Regroup(if a[0] in dropped then [] else [a[0]], Except(a[1..], dropped), Except(b, dropped));
    }
  }

  lemma ExceptStep(names: seq<string>, dropped: set<string>)
    requires names != []
    ensures Except(names, dropped) == (if names[0] in dropped then [] else [names[0]]) + Except(names[1..], dropped)
  {
  }

  lemma {:induction false} ExceptNone(names: seq<string>, dropped: set<string>)
    requires forall n :: n in names ==> n !in dropped
    ensures Except(names, dropped) == names
  {
    if names != [] {
      ExceptNone(names[1..], dropped);
    }
  }

  lemma ExceptOne(name: string, dropped: set<string>)
    ensures Except([name], dropped) == if name in dropped then [] else [name]
  {
    assert [name][1..] == [];
  }

  lemma ExceptTail(fields: seq<string>, dropped: set<string>)
    requires NoDup(fields) && |fields| >= 2 && dropped <= {fields[|fields| - 2], fields[|fields| - 1]}
    ensures Except(fields, dropped) ==
            fields[..|fields| - 2] + (if fields[|fields| - 2] in dropped then [] else [fields[|fields| - 2]])
            + (if fields[|fields| - 1] in dropped then [] else [fields[|fields| - 1]])
  {
    var n := |fields| - 2;
    assert fields == fields[..n] + [fields[n]] + [fields[n + 1]];
    ExceptAppend(fields[..n] + [fields[n]], [fields[n + 1]], dropped);
    ExceptAppend(fields[..n], [fields[n]], dropped);
    ExceptNone(fields[..n], dropped);
    ExceptOne(fields[n], dropped);
    ExceptOne(fields[n + 1], dropped);
  }

  lemma ColumnMatches(rows: seq<Row>, name: string, column: seq<Value>)
    requires |column| == |rows| && forall k :: 0 <= k < |rows| ==> Get(rows[k], name) == column[k]
    ensures column == Column(rows, name)
    ensures Constant(rows, name) <==> Uniform(column)
    ensures First(column) == FirstValue(rows, name)
  {
    hide Get;
  }

  /** The frame of the mapped rows is the one a builder would hoist from them. */
  lemma FrameOfIsHoisted(fields: seq<string>, columns: seq<seq<Value>>, rows: seq<Row>)
    requires NoDup(fields) && |fields| >= 2 && Rectangular(columns, |fields|, |rows|)
    requires forall c, k :: 0 <= c < |fields| && 0 <= k < |rows| ==> Get(rows[k], fields[c]) == columns[c][k]
    ensures FrameOf(fields, columns, |rows|) == Hoisted(fields, {fields[|fields| - 2], fields[|fields| - 1]}, rows)
  {
    hide Get, Constant, Uniform, Except, First, FirstValue, NoDup, Column;
    var n := |fields| - 2;
    var names := {fields[n], fields[n + 1]};
    forall c | 0 <= c < |fields|
      ensures columns[c] == Column(rows, fields[c]) && (Constant(rows, fields[c]) <==> Uniform(columns[c]))
              && First(columns[c]) == FirstValue(rows, fields[c])
    {
      ColumnMatches(rows, fields[c], columns[c]);
    }
    LastTwoDiffer(fields);
    var hoisted := HoistedNames(names, rows);
    var frame := FrameOf(fields, columns, |rows|);
    ExceptTail(fields, hoisted);
    assert frame.rowFields == Except(fields, hoisted);
    assert frame.columns == Columns(rows, frame.rowFields);
  }

  lemma LastTwoDiffer(fields: seq<string>)
    requires NoDup(fields) && |fields| >= 2
    ensures fields[|fields| - 2] != fields[|fields| - 1]
  {
  }

  // ----- the row mapper -----------------------------------------------------------------------------------------------

  lemma TransposedAppend(width: nat, rows: seq<seq<Value>>, row: seq<Value>)
    requires |row| == width && forall k :: 0 <= k < |rows| ==> |rows[k]| == width
    ensures Transposed(width, rows + [row]) ==
            seq(width, c requires 0 <= c < width => Transposed(width, rows)[c] + [row[c]])
  {
    var left := Transposed(width, rows + [row]);
    forall c | 0 <= c < width ensures left[c] == Transposed(width, rows)[c] + [row[c]] {
    }
  }

  /** `canonicalize_sampled_grid_rows`: one pass appends the canonical values of each row to the columns. */
  method MapRows(m: Mapping, context: Context, rows: seq<Row>) returns (frame: Frame)
    ensures frame == RowFrame(m, context, rows)
  {
    hide Transposed, MappedRows, CellsOf, MapRow, Fields, FrameOf;
    var width := 12 + |m.extensions|;
    var columns: seq<seq<Value>> := seq(width, c => []);
    assert columns == Transposed(width, MappedRows(m, context, []));
    var k := 0;
    while k < |rows|
      invariant 0 <= k <= |rows| && |columns| == width
      invariant columns == Transposed(width, MappedRows(m, context, rows[..k]))
    {
      var cells := CellsOf(MapRow(m, context, rows[k]));
      assert MappedRows(m, context, rows[..k + 1]) == MappedRows(m, context, rows[..k]) + [cells];
      TransposedAppend(width, MappedRows(m, context, rows[..k]), cells);
      var before := columns;
      columns := seq(width, c requires 0 <= c < width => before[c] + [cells[c]]);
      k := k + 1;
    }
    assert rows[..|rows|] == rows;
    frame := FrameOf(Fields(m), columns, |rows|);
  }

  // ----- the column mapper ---------------------------------------------------------------------------------------------

  type Packet = map<string, seq<Value>>

  predicate Even(columns: Packet, count: int) {
    count >= 0 && forall name :: name in columns ==> |columns[name]| == count
  }

  function RowAt(columns: Packet, count: int, k: int): (row: Row)
    requires Even(columns, count) && 0 <= k < count
  {
    map name | name in columns :: columns[name][k]
  }

  function RowsOf(columns: Packet, count: int): (rows: seq<Row>)
    requires Even(columns, count)
    ensures |rows| == count && forall k :: 0 <= k < count ==> rows[k] == RowAt(columns, count, k)
  {
    seq(count, k requires 0 <= k < count => RowAt(columns, count, k))
  }

  predicate Direct(path: string) {
    '.' !in path
  }

  /** When columns are mapped without building rows. */
  predicate FastPath(m: Mapping, columns: Packet) {
    && m.encoding == "global_index" && IndexGeometry(m)
    && (forall role :: role in m.sourceFields ==> Direct(m.sourceFields[role]))
    && (forall i :: 0 <= i < |m.extensions| ==> Direct(m.extensions[i].1))
    && Primary(m, "row") in columns && Primary(m, "column") in columns
  }

  function FirstColumn(columns: Packet, candidates: seq<string>): (r: Option<seq<Value>>)
    ensures r.Some? ==> exists name :: name in columns && r.value == columns[name]
  {
    if candidates == [] then None
    else if candidates[0] in columns then Some(columns[candidates[0]])
    else FirstColumn(columns, candidates[1..])
  }

  function RoleColumn(m: Mapping, columns: Packet, role: string): (r: Option<seq<Value>>)
    requires role != ""
    ensures r.Some? ==> exists name :: name in columns && r.value == columns[name]
  {
    if Primary(m, role) in columns then Some(columns[Primary(m, role)])
    else FirstColumn(columns, Candidates(m, role))
  }

  function DirectOrConstant(m: Mapping, context: Context, columns: Packet, count: int, role: string): (values: seq<Value>)
    requires role != "" && Even(columns, count)
    ensures |values| == count
  {
    var found := RoleColumn(m, columns, role);
    if found.Some? then found.value else seq(count, k => ContextValue(m, context, role))
  }

  function Resolutions(m: Mapping, context: Context, columns: Packet, count: int): (values: seq<Option<real>>)
    requires Even(columns, count)
    ensures |values| == count
  {
    var found := RoleColumn(m, columns, "resolution");
    if found.Some? then Numbers(found.value)
    else
      var constant := ContextValue(m, context, "resolution");
      seq(count, k => if constant == Null && |m.available| == 1 then Some(m.available[0]) else Number(constant))
  }

  function Numbers(values: seq<Value>): (numbers: seq<Option<real>>)
    ensures |numbers| == |values| && forall k :: 0 <= k < |values| ==> numbers[k] == Number(values[k])
  {
    seq(|values|, k requires 0 <= k < |values| => Number(values[k]))
  }

  function Minus(a: Option<real>, b: Option<real>): Option<real> {
    if a.None? || b.None? then None else Some(a.value - b.value)
  }

  function Plus(a: Option<real>, b: Option<real>): Option<real> {
    if a.None? || b.None? then None else Some(a.value + b.value)
  }

  function Middle(a: Option<real>, b: Option<real>): Option<real> {
    if a.None? || b.None? then None else Some((a.value + b.value) / 2.0)
  }

  function Zip(f: (Option<real>, Option<real>) -> Option<real>, a: seq<Option<real>>, b: seq<Option<real>>): (c: seq<Option<real>>)
    requires |a| == |b|
    ensures |c| == |a| && forall k :: 0 <= k < |a| ==> c[k] == f(a[k], b[k])
  {
    seq(|a|, k requires 0 <= k < |a| => f(a[k], b[k]))
  }

  function Each(f: Option<real> -> Option<real>, a: seq<Option<real>>): (c: seq<Option<real>>)
    ensures |c| == |a| && forall k :: 0 <= k < |a| ==> c[k] == f(a[k])
  {
    seq(|a|, k requires 0 <= k < |a| => f(a[k]))
  }

  function SpanOf(m: Mapping, resolution: Option<real>): Option<real> {
    if Positive(resolution) && IndexGeometry(m) then Some(Span(m, resolution.value)) else None
  }

  function NorthOf(m: Mapping, row: Option<real>): Option<real> {
    if row.Some? && IndexGeometry(m) then Some(North(m, row.value)) else None
  }

  function WestOf(m: Mapping, column: Option<real>): Option<real> {
    if column.Some? && IndexGeometry(m) then Some(West(m, column.value)) else None
  }

  datatype Placement = Placement(
    latitudes: seq<Option<real>>, longitudes: seq<Option<real>>,
    west: seq<Option<real>>, south: seq<Option<real>>, east: seq<Option<real>>, north: seq<Option<real>>)

  /** The placement columns, each derived from whole columns. */
  function Place(m: Mapping, rows: seq<Option<real>>, columns: seq<Option<real>>, resolutions: seq<Option<real>>): (p: Placement)
    requires |rows| == |columns| == |resolutions|
    ensures |p.latitudes| == |p.longitudes| == |p.west| == |p.south| == |p.east| == |p.north| == |rows|
  {
    var spans := Each(r => SpanOf(m, r), resolutions);
    var north, west := Each(r => NorthOf(m, r), rows), Each(c => WestOf(m, c), columns);
    var south, east := Zip(Minus, north, spans), Zip(Plus, west, spans);
    Placement(Zip(Middle, north, south), Zip(Middle, west, east), west, south, east, north)
  }

  lemma PlacedAt(m: Mapping, rows: seq<Option<real>>, columns: seq<Option<real>>, resolutions: seq<Option<real>>, k: int)
    requires |rows| == |columns| == |resolutions| && 0 <= k < |rows|
    ensures var p := Place(m, rows, columns, resolutions);
            var span, north, west := SpanOf(m, resolutions[k]), NorthOf(m, rows[k]), WestOf(m, columns[k]);
            && p.north[k] == north && p.west[k] == west && p.south[k] == Minus(north, span) && p.east[k] == Plus(west, span)
            && p.latitudes[k] == Middle(north, Minus(north, span)) && p.longitudes[k] == Middle(west, Plus(west, span))
  {
    hide SpanOf, NorthOf, WestOf;
  }

  function Placed(m: Mapping, context: Context, columns: Packet, count: int): (p: Placement)
    requires Even(columns, count) && FastPath(m, columns)
    ensures |p.latitudes| == |p.longitudes| == |p.west| == |p.south| == |p.east| == |p.north| == count
  {
    Place(m, Numbers(columns[Primary(m, "row")]), Numbers(columns[Primary(m, "column")]), Resolutions(m, context, columns, count))
  }

  function ExtensionAt(m: Mapping, columns: Packet, count: int, i: int, k: int): Value
    requires Even(columns, count) && 0 <= i < |m.extensions| && 0 <= k < count
  {
    if m.extensions[i].1 in columns then columns[m.extensions[i].1][k] else Null
  }

  /** Position k of every column the fast path computes. */
  function FastRow(m: Mapping, context: Context, columns: Packet, count: int, k: int): Canonical
    requires Even(columns, count) && FastPath(m, columns) && 0 <= k < count
  {
    var p := Placed(m, context, columns, count);
    Canonical(
      DirectOrConstant(m, context, columns, count, "id")[k],
      p.latitudes[k], p.longitudes[k],
      DirectOrConstant(m, context, columns, count, "value")[k],
      Number(DirectOrConstant(m, context, columns, count, "coverage")[k]),
      m.status(DirectOrConstant(m, context, columns, count, "status")[k]),
      p.west[k], p.south[k], p.east[k], p.north[k],
      seq(|m.extensions|, i requires 0 <= i < |m.extensions| => ExtensionAt(m, columns, count, i, k)),
      DirectOrConstant(m, context, columns, count, "time")[k],
      Resolutions(m, context, columns, count)[k])
  }

  function FastRows(m: Mapping, context: Context, columns: Packet, count: int): (cells: seq<seq<Value>>)
    requires Even(columns, count) && FastPath(m, columns)
    ensures |cells| == count && forall k :: 0 <= k < count ==> |cells[k]| == 12 + |m.extensions|
    ensures forall k :: 0 <= k < count ==> cells[k] == CellsOf(FastRow(m, context, columns, count, k))
  {
    seq(count, k requires 0 <= k < count => CellsOf(FastRow(m, context, columns, count, k)))
  }

  function ColumnFrame(m: Mapping, context: Context, columns: Packet, count: int): Result<Frame, string> {
    if !Even(columns, count) then Err(WRONG_LENGTHS)
    else if !FastPath(m, columns) then Ok(RowFrame(m, context, RowsOf(columns, count)))
    else Ok(FrameOf(Fields(m), Transposed(12 + |m.extensions|, FastRows(m, context, columns, count)), count))
  }

  function Values(numbers: seq<Option<real>>): (values: seq<Value>)
    ensures |values| == |numbers| && forall k :: 0 <= k < |values| ==> values[k] == NumberValue(numbers[k])
  {
    seq(|numbers|, k requires 0 <= k < |numbers| => NumberValue(numbers[k]))
  }

  function Statuses(m: Mapping, values: seq<Value>): (statuses: seq<Value>)
    ensures |statuses| == |values| && forall k :: 0 <= k < |values| ==> statuses[k] == m.status(values[k])
  {
    seq(|values|, k requires 0 <= k < |values| => m.status(values[k]))
  }

  function ExtensionColumns(m: Mapping, columns: Packet, count: int): (r: seq<seq<Value>>)
    requires Even(columns, count)
    ensures |r| == |m.extensions| && (forall i :: 0 <= i < |r| ==> |r[i]| == count)
    ensures forall i, k :: 0 <= i < |r| && 0 <= k < count ==> r[i][k] == ExtensionAt(m, columns, count, i, k)
  {
    seq(|m.extensions|, i requires 0 <= i < |m.extensions| =>
      if m.extensions[i].1 in columns then columns[m.extensions[i].1] else seq(count, k => Null))
  }

  /** `canonicalize_sampled_grid_columns`: whole columns are derived from whole columns. */
  method MapColumns(m: Mapping, context: Context, columns: Packet, rowCount: int) returns (r: Result<Frame, string>)
    ensures r == ColumnFrame(m, context, columns, rowCount)
  {
    hide Fields, FrameOf, Transposed, DirectOrConstant, Resolutions, Place, ExtensionAt, Values, Statuses, ExtensionColumns, Number, NumberValue,
         CellsOf, FastRow;
    if !Even(columns, rowCount) {
      return Err(WRONG_LENGTHS);
    }
    if !FastPath(m, columns) {
      var frame := MapRows(m, context, RowsOf(columns, rowCount));
      return Ok(frame);
    }
    var rowIndexes, columnIndexes := Numbers(columns[Primary(m, "row")]), Numbers(columns[Primary(m, "column")]);
    var resolutions := Resolutions(m, context, columns, rowCount);
    var p := Place(m, rowIndexes, columnIndexes, resolutions);
    var ids := DirectOrConstant(m, context, columns, rowCount, "id");
    var values := DirectOrConstant(m, context, columns, rowCount, "value");
    var coverages := Values(Numbers(DirectOrConstant(m, context, columns, rowCount, "coverage")));
    var statuses := Statuses(m, DirectOrConstant(m, context, columns, rowCount, "status"));
    var extensions := ExtensionColumns(m, columns, rowCount);
    var dates := DirectOrConstant(m, context, columns, rowCount, "time");
    var canonical :=
      [ids, Values(p.latitudes), Values(p.longitudes), values, coverages, statuses,
       Values(p.west), Values(p.south), Values(p.east), Values(p.north)]
      + extensions + [dates, Values(resolutions)];
    assert forall i :: 0 <= i < |extensions| ==> canonical[10 + i] == extensions[i];
    ColumnsAreTransposed(m, context, columns, rowCount, canonical);
    return Ok(FrameOf(Fields(m), canonical, rowCount));
  }

  lemma ColumnsAreTransposed(m: Mapping, context: Context, columns: Packet, count: int, canonical: seq<seq<Value>>)
    requires Even(columns, count) && FastPath(m, columns)
    requires Rectangular(canonical, 12 + |m.extensions|, count)
    requires canonical[0] == DirectOrConstant(m, context, columns, count, "id")
    requires canonical[1] == Values(Placed(m, context, columns, count).latitudes)
    requires canonical[2] == Values(Placed(m, context, columns, count).longitudes)
    requires canonical[3] == DirectOrConstant(m, context, columns, count, "value")
    requires canonical[4] == Values(Numbers(DirectOrConstant(m, context, columns, count, "coverage")))
    requires canonical[5] == Statuses(m, DirectOrConstant(m, context, columns, count, "status"))
    requires canonical[6] == Values(Placed(m, context, columns, count).west)
    requires canonical[7] == Values(Placed(m, context, columns, count).south)
    requires canonical[8] == Values(Placed(m, context, columns, count).east)
    requires canonical[9] == Values(Placed(m, context, columns, count).north)
    requires forall i :: 0 <= i < |m.extensions| ==> canonical[10 + i] == ExtensionColumns(m, columns, count)[i]
    requires canonical[10 + |m.extensions|] == DirectOrConstant(m, context, columns, count, "time")
    requires canonical[11 + |m.extensions|] == Values(Resolutions(m, context, columns, count))
    ensures canonical == Transposed(12 + |m.extensions|, FastRows(m, context, columns, count))
  {
    hide Placed, ExtensionAt, Resolutions, DirectOrConstant, Number, NumberValue, Transposed, Primary, CellsOf;
    var fast := FastRows(m, context, columns, count);
    var target := Transposed(12 + |m.extensions|, fast);
    forall c | 0 <= c < 12 + |m.extensions| ensures canonical[c] == target[c] {
      forall k | 0 <= k < count ensures canonical[c][k] == target[c][k] {
        CellAt(FastRow(m, context, columns, count, k), c);
        if 10 <= c < 10 + |m.extensions| {
          assert canonical[10 + (c - 10)] == ExtensionColumns(m, columns, count)[c - 10];
        }
      }
    }
  }

  /** Which value of a row is listed in which column. */
  function CellOf(r: Canonical, c: int): Value
    requires 0 <= c < 12 + |r.extensions|
  {
    if c == 0 then r.cellId else if c == 1 then NumberValue(r.lat) else if c == 2 then NumberValue(r.lon)
    else if c == 3 then r.value else if c == 4 then NumberValue(r.coverage) else if c == 5 then r.status
    else if c == 6 then NumberValue(r.west) else if c == 7 then NumberValue(r.south)
    else if c == 8 then NumberValue(r.east) else if c == 9 then NumberValue(r.north)
    else if c < 10 + |r.extensions| then r.extensions[c - 10]
    else if c == 10 + |r.extensions| then r.date else NumberValue(r.resolution)
  }

  lemma CellAt(r: Canonical, c: int)
    requires 0 <= c < 12 + |r.extensions|
    ensures CellsOf(r)[c] == CellOf(r, c)
  {
    hide NumberValue;
  }

  // ----- when both agree --------------------------------------------------------------------------------------------------

  /** A column with an empty name is read by the column mapper as every role that is not mapped, and by the row mapper never. */
  predicate ReadsEmptyName(m: Mapping, columns: Packet, role: string) {
    Primary(m, role) == "" && "" in columns
  }

  /** What the column mapper reads for a role at a position. */
  function ColumnValue(m: Mapping, context: Context, columns: Packet, count: int, k: int, role: string): Value
    requires Even(columns, count) && 0 <= k < count && role != ""
  {
    if ReadsEmptyName(m, columns, role) then columns[""][k] else RowValue(m, context, RowAt(columns, count, k), role)
  }

  /** The value an empty name gives for a role is the one the row mapper looks up, as far as the frame shows it. */
  predicate ValuesAgree(m: Mapping, context: Context, columns: Packet, count: int, k: int)
    requires Even(columns, count) && 0 <= k < count
  {
    var row := RowAt(columns, count, k);
    && (ReadsEmptyName(m, columns, "id") ==> columns[""][k] == RowValue(m, context, row, "id"))
    && (ReadsEmptyName(m, columns, "value") ==> columns[""][k] == RowValue(m, context, row, "value"))
    && (ReadsEmptyName(m, columns, "time") ==> columns[""][k] == RowValue(m, context, row, "time"))
    && (ReadsEmptyName(m, columns, "coverage") ==> Number(columns[""][k]) == Number(RowValue(m, context, row, "coverage")))
    && (ReadsEmptyName(m, columns, "status") ==> m.status(columns[""][k]) == m.status(RowValue(m, context, row, "status")))
  }

  function MappedResolution(m: Mapping, context: Context, row: Row): Option<real> {
    OrElse(Number(RowValue(m, context, row, "resolution")), SingleResolution(m))
  }

  /** A resolution that is missing or no number is replaced by a single advertised resolution in the row mapper; the column
      mapper does that only when neither a column nor the request gives one. */
  predicate ResolutionAgrees(m: Mapping, context: Context, columns: Packet, count: int, k: int)
    requires Even(columns, count) && 0 <= k < count
  {
    var row := RowAt(columns, count, k);
    var raw := RowValue(m, context, row, "resolution");
    if ReadsEmptyName(m, columns, "resolution") then Number(columns[""][k]) == MappedResolution(m, context, row)
    else Number(raw).Some? || |m.available| != 1 || (RoleColumn(m, columns, "resolution").None? && raw == Null)
  }

  /** The box the row mapper gives a cell: the row's own, else the one of its indexes. */
  function RowBox(m: Mapping, context: Context, row: Row): Option<Box> {
    if StatedBox(m, row).Some? then StatedBox(m, row)
    else IndexBox(m, Number(RowValue(m, context, row, "row")), Number(RowValue(m, context, row, "column")), MappedResolution(m, context, row))
  }

  /** Either the column mapper places the cell completely, in the row mapper's box, or there is nothing at all to place it by
      and the row mapper has nothing either. */
  predicate PlacementAgrees(m: Mapping, context: Context, columns: Packet, count: int, k: int)
    requires Even(columns, count) && 0 <= k < count
  {
    var row := RowAt(columns, count, k);
    var i, j := Number(ColumnValue(m, context, columns, count, k, "row")), Number(ColumnValue(m, context, columns, count, k, "column"));
    var computed := IndexBox(m, i, j, MappedResolution(m, context, row));
    if computed.Some? then RowBox(m, context, row) == computed
    else
      && RowBox(m, context, row).None? && i.None? && j.None?
      && Number(RowValue(m, context, row, "lat")).None? && Number(RowValue(m, context, row, "lon")).None?
  }

  predicate RowAgrees(m: Mapping, context: Context, columns: Packet, count: int, k: int)
    requires Even(columns, count) && 0 <= k < count
  {
    && ValuesAgree(m, context, columns, count, k)
    && ResolutionAgrees(m, context, columns, count, k)
    && PlacementAgrees(m, context, columns, count, k)
  }

  /** What the comparison assumes: the packet is even and takes the fast path. */
  ghost predicate Comparable(m: Mapping, columns: Packet, count: int) {
    Compiled(m) && Even(columns, count) && FastPath(m, columns)
  }

  lemma {:induction false} FirstColumnAt(columns: Packet, count: int, k: int, candidates: seq<string>, otherwise: Value)
    requires Even(columns, count) && 0 <= k < count
    ensures FirstPresent(RowAt(columns, count, k), candidates, otherwise) ==
            match FirstColumn(columns, candidates) { case Some(values) => values[k] case None => otherwise }
  {
    if candidates != [] && candidates[0] !in columns {
      FirstColumnAt(columns, count, k, candidates[1..], otherwise);
    }
  }

  /** Looking a role up by column gives what looking it up in each row gives, or the column without a name. */
  lemma ColumnLookup(m: Mapping, context: Context, columns: Packet, count: int, k: int, role: string)
    requires Even(columns, count) && 0 <= k < count && role != ""
    ensures DirectOrConstant(m, context, columns, count, role)[k] == ColumnValue(m, context, columns, count, k, role)
  {
    FirstColumnAt(columns, count, k, Candidates(m, role), ContextValue(m, context, role));
    hide Candidates, ContextValue, FirstColumn, FirstPresent;
  }

  lemma ResolutionLookup(m: Mapping, context: Context, columns: Packet, count: int, k: int)
    requires Even(columns, count) && 0 <= k < count
    ensures Resolutions(m, context, columns, count)[k] == MappedResolution(m, context, RowAt(columns, count, k)) <==>
            ResolutionAgrees(m, context, columns, count, k)
  {
    ColumnLookup(m, context, columns, count, k, "resolution");
    if ReadsEmptyName(m, columns, "resolution") {
      EmptyNameIsColumn(m, columns, "resolution");
    }
    hide RoleColumn, ContextValue, RowValue, RowAt;
  }

  lemma EmptyNameIsColumn(m: Mapping, columns: Packet, role: string)
    requires role != "" && ReadsEmptyName(m, columns, role)
    ensures RoleColumn(m, columns, role) == Some(columns[""])
  {
  }

  lemma ExtensionLookup(m: Mapping, context: Context, columns: Packet, count: int, k: int)
    requires Compiled(m) && Even(columns, count) && FastPath(m, columns) && 0 <= k < count
    ensures FastRow(m, context, columns, count, k).extensions == MapRow(m, context, RowAt(columns, count, k)).extensions
  {
    hide Resolutions, DirectOrConstant, RowValue, Number, StatedBox, PathValue, IndexBox, CenterBox, Placed;
    var row := RowAt(columns, count, k);
    forall i | 0 <= i < |m.extensions| ensures PathValue(row, m.extensions[i].1) == ExtensionAt(m, columns, count, i, k) {
      assert Direct(m.extensions[i].1);
      DirectPath(row, m.extensions[i].1);
    }
  }

  /** A cell placed by a box, or by a latitude and a longitude only. */
  ghost predicate PlacedBy(c: Canonical, box: Option<Box>, lat: Option<real>, lon: Option<real>) {
    && c.lat == (if box.Some? then Some((box.value.south + box.value.north) / 2.0) else lat)
    && c.lon == (if box.Some? then Some((box.value.west + box.value.east) / 2.0) else lon)
    && c.west == (if box.Some? then Some(box.value.west) else None)
    && c.south == (if box.Some? then Some(box.value.south) else None)
    && c.east == (if box.Some? then Some(box.value.east) else None)
    && c.north == (if box.Some? then Some(box.value.north) else None)
  }

  /** A cell placed by what is known of its indexes and resolution. */
  ghost predicate PlacedFrom(c: Canonical, m: Mapping, i: Option<real>, j: Option<real>, resolution: Option<real>) {
    var span := SpanOf(m, resolution);
    && c.north == NorthOf(m, i) && c.west == WestOf(m, j) && c.south == Minus(c.north, span) && c.east == Plus(c.west, span)
    && c.lat == Middle(c.north, c.south) && c.lon == Middle(c.west, c.east)
  }

  ghost predicate SamePlaces(a: Canonical, b: Canonical) {
    a.lat == b.lat && a.lon == b.lon && a.west == b.west && a.south == b.south && a.east == b.east && a.north == b.north
  }

  /** The two ways of placing a cell agree exactly when the indexes give the complete box, or there is nothing to place it by. */
  lemma PlacementEqualIff(m: Mapping, fast: Canonical, mapped: Canonical, i: Option<real>, j: Option<real>, resolution: Option<real>,
      box: Option<Box>, lat: Option<real>, lon: Option<real>)
    requires IndexGeometry(m) && PlacedFrom(fast, m, i, j, resolution) && PlacedBy(mapped, box, lat, lon)
    ensures SamePlaces(fast, mapped) <==>
            if IndexBox(m, i, j, resolution).Some? then box == IndexBox(m, i, j, resolution)
            else box.None? && i.None? && j.None? && lat.None? && lon.None?
  {
    hide Span, North, West;
  }

  /** Apart from resolution and placement the two mappers agree exactly where an empty name does no harm. */
  lemma OtherFieldsAgreeIff(m: Mapping, context: Context, columns: Packet, count: int, k: int)
    requires Comparable(m, columns, count) && 0 <= k < count
    ensures var fast, mapped := FastRow(m, context, columns, count, k), MapRow(m, context, RowAt(columns, count, k));
            && fast.extensions == mapped.extensions
            && (ValuesAgree(m, context, columns, count, k) <==>
                  && fast.cellId == mapped.cellId && fast.value == mapped.value && fast.coverage == mapped.coverage
                  && fast.status == mapped.status && fast.date == mapped.date)
  {
    hide Resolutions, DirectOrConstant, RowValue, Number, StatedBox, PathValue, IndexBox, CenterBox, Placed, FastPath, ReadsEmptyName, RowAt;
    ColumnLookup(m, context, columns, count, k, "id");
    ColumnLookup(m, context, columns, count, k, "value");
    ColumnLookup(m, context, columns, count, k, "coverage");
    ColumnLookup(m, context, columns, count, k, "status");
    ColumnLookup(m, context, columns, count, k, "time");
    ExtensionLookup(m, context, columns, count, k);
    hide Compiled, Even;
  }

  lemma FastPlacement(m: Mapping, context: Context, columns: Packet, count: int, k: int)
    requires Comparable(m, columns, count) && 0 <= k < count
    ensures var fast := FastRow(m, context, columns, count, k);
            && fast.resolution == Resolutions(m, context, columns, count)[k]
            && PlacedFrom(fast, m, Number(ColumnValue(m, context, columns, count, k, "row")),
                          Number(ColumnValue(m, context, columns, count, k, "column")), fast.resolution)
  {
    hide Resolutions, DirectOrConstant, RowValue, Place, SpanOf, NorthOf, WestOf, Minus, Plus, Middle, Number, ColumnValue;
    IndexLookup(m, context, columns, count, k);
    PlacedAt(m, Numbers(columns[Primary(m, "row")]), Numbers(columns[Primary(m, "column")]), Resolutions(m, context, columns, count), k);
  }

  lemma MappedPlacement(m: Mapping, context: Context, row: Row)
    requires m.encoding == "global_index"
    ensures var mapped := MapRow(m, context, row);
            && mapped.resolution == MappedResolution(m, context, row)
            && PlacedBy(mapped, RowBox(m, context, row), Number(RowValue(m, context, row, "lat")), Number(RowValue(m, context, row, "lon")))
  {
    hide RowValue, Number, StatedBox, PathValue, IndexBox, CenterBox;
  }

  lemma PlacesAgreeIff(m: Mapping, context: Context, columns: Packet, count: int, k: int)
    requires Comparable(m, columns, count) && 0 <= k < count
    ensures var fast, mapped := FastRow(m, context, columns, count, k), MapRow(m, context, RowAt(columns, count, k));
            fast.resolution == mapped.resolution ==> (SamePlaces(fast, mapped) <==> PlacementAgrees(m, context, columns, count, k))
  {
    var row := RowAt(columns, count, k);
    FastPlacement(m, context, columns, count, k);
    MappedPlacement(m, context, row);
    var fast, mapped := FastRow(m, context, columns, count, k), MapRow(m, context, row);
    hide FastRow, MapRow, RowValue, Number, IndexBox, PlacedFrom, PlacedBy, SamePlaces, RowAt, Resolutions, RowBox, MappedResolution, ColumnValue;
    if fast.resolution == mapped.resolution {
      PlacementEqualIff(m, fast, mapped, Number(ColumnValue(m, context, columns, count, k, "row")),
                        Number(ColumnValue(m, context, columns, count, k, "column")), fast.resolution,
                        RowBox(m, context, row), Number(RowValue(m, context, row, "lat")), Number(RowValue(m, context, row, "lon")));
    }
  }

  lemma MappedRowsAgreeIff(m: Mapping, context: Context, columns: Packet, count: int, k: int)
    requires Comparable(m, columns, count) && 0 <= k < count
    ensures FastRow(m, context, columns, count, k) == MapRow(m, context, RowAt(columns, count, k)) <==>
            RowAgrees(m, context, columns, count, k)
  {
    OtherFieldsAgreeIff(m, context, columns, count, k);
    PlacesAgreeIff(m, context, columns, count, k);
    ResolutionLookup(m, context, columns, count, k);
    FastPlacement(m, context, columns, count, k);
    MappedPlacement(m, context, RowAt(columns, count, k));
    hide FastRow, MapRow, ResolutionAgrees, PlacementAgrees, ValuesAgree, RowAt, Resolutions, Even, FastPath, PlacedFrom, PlacedBy,
         RowBox, MappedResolution, Compiled, ColumnValue;
  }

  lemma IndexLookup(m: Mapping, context: Context, columns: Packet, count: int, k: int)
    requires Even(columns, count) && FastPath(m, columns) && 0 <= k < count
    ensures ColumnValue(m, context, columns, count, k, "row") == columns[Primary(m, "row")][k]
    ensures ColumnValue(m, context, columns, count, k, "column") == columns[Primary(m, "column")][k]
  {
    hide Primary, Candidates, FirstPresent, ContextValue;
  }

  lemma CellsInjective(a: Canonical, b: Canonical)
    requires |a.extensions| == |b.extensions|
    ensures CellsOf(a) == CellsOf(b) <==> a == b
  {
    hide CellsOf;
    var n := |a.extensions|;
    if CellsOf(a) == CellsOf(b) {
      forall c | 0 <= c < 12 + n ensures CellOf(a, c) == CellOf(b, c) {
        CellAt(a, c);
        CellAt(b, c);
      }
      SameCells(a, b);
    }
  }

  lemma SameCells(a: Canonical, b: Canonical)
    requires |a.extensions| == |b.extensions| && forall c :: 0 <= c < 12 + |a.extensions| ==> CellOf(a, c) == CellOf(b, c)
    ensures a == b
  {
    var n := |a.extensions|;
    assert CellOf(a, 0) == CellOf(b, 0) && CellOf(a, 1) == CellOf(b, 1) && CellOf(a, 2) == CellOf(b, 2) && CellOf(a, 3) == CellOf(b, 3);
    assert CellOf(a, 4) == CellOf(b, 4) && CellOf(a, 5) == CellOf(b, 5) && CellOf(a, 6) == CellOf(b, 6) && CellOf(a, 7) == CellOf(b, 7);
    assert CellOf(a, 8) == CellOf(b, 8) && CellOf(a, 9) == CellOf(b, 9);
    assert CellOf(a, 10 + n) == CellOf(b, 10 + n) && CellOf(a, 11 + n) == CellOf(b, 11 + n);
    forall i | 0 <= i < n ensures a.extensions[i] == b.extensions[i] {
      assert CellOf(a, 10 + i) == CellOf(b, 10 + i);
    }
  }

  lemma TransposedInjective(width: nat, a: seq<seq<Value>>, b: seq<seq<Value>>)
    requires |a| == |b| && forall k :: 0 <= k < |a| ==> |a[k]| == |b[k]| == width
    ensures Transposed(width, a) == Transposed(width, b) <==> a == b
  {
    var x, y := Transposed(width, a), Transposed(width, b);
    if x == y {
      forall k | 0 <= k < |a| ensures a[k] == b[k] {
        forall c | 0 <= c < width ensures a[k][c] == b[k][c] {
          assert x[c][k] == y[c][k];
        }
      }
    }
  }

  lemma FramesAgreeIff(m: Mapping, context: Context, columns: Packet, count: int)
    requires Compiled(m) && Even(columns, count) && FastPath(m, columns)
    ensures ColumnFrame(m, context, columns, count) == Ok(RowFrame(m, context, RowsOf(columns, count))) <==>
            forall k :: 0 <= k < count ==> FastRow(m, context, columns, count, k) == MapRow(m, context, RowAt(columns, count, k))
  {
    hide FrameOf, Fields, Transposed, CellsOf, FastRow, MapRow, RowAt;
    var width := 12 + |m.extensions|;
    var rows := RowsOf(columns, count);
    var fast, mapped := FastRows(m, context, columns, count), MappedRows(m, context, rows);
    FramesEqualIff(Fields(m), Transposed(width, fast), Transposed(width, mapped), count);
    TransposedInjective(width, fast, mapped);
    forall k | 0 <= k < count
      ensures fast[k] == mapped[k] <==> FastRow(m, context, columns, count, k) == MapRow(m, context, RowAt(columns, count, k))
    {
      ExtensionLookup(m, context, columns, count, k);
      CellsInjective(FastRow(m, context, columns, count, k), MapRow(m, context, RowAt(columns, count, k)));
    }
  }

  /** The column mapper gives the row mapper's frame of the transposed rows exactly when every row agrees, whatever bounds rows
      state and whatever columns are called. */
  lemma ColumnsEqualRowsIff(m: Mapping, context: Context, columns: Packet, count: int)
    requires Comparable(m, columns, count)
    ensures ColumnFrame(m, context, columns, count) == Ok(RowFrame(m, context, RowsOf(columns, count))) <==>
            forall k :: 0 <= k < count ==> RowAgrees(m, context, columns, count, k)
  {
    hide ColumnFrame, RowFrame, FastRow, MapRow, RowAgrees, RowAt, Compiled, FastPath;
    FramesAgreeIff(m, context, columns, count);
    forall k | 0 <= k < count
      ensures FastRow(m, context, columns, count, k) == MapRow(m, context, RowAt(columns, count, k)) <==>
              RowAgrees(m, context, columns, count, k)
    {
      MappedRowsAgreeIff(m, context, columns, count, k);
    }
  }

  /** A packet whose columns are enough: an indexed grid with complete geometry, no dotted path anywhere in the mapping, and a column
      for either index. */
  predicate ColumnsSuffice(m: Mapping, columns: Packet) {
    && m.encoding == "global_index" && m.originLat.Some? && m.originLon.Some?
    && m.unitsPerDegree.Some? && m.unitsPerDegree.value > 0.0 && m.baseResolution.Some? && m.baseResolution.value > 0.0
    && (forall role :: role in m.sourceFields ==> '.' !in m.sourceFields[role])
    && (forall i :: 0 <= i < |m.extensions| ==> '.' !in m.extensions[i].1)
    && (if "row" in m.sourceFields then m.sourceFields["row"] else "") in columns
    && (if "column" in m.sourceFields then m.sourceFields["column"] else "") in columns
  }

  lemma FastPathIff(m: Mapping, columns: Packet)
    ensures FastPath(m, columns) <==> ColumnsSuffice(m, columns)
  {
  }

  /** A packet is refused exactly when the count is negative or a column has another length; one that is not, but whose columns are
      not enough, is mapped row by row. */
  lemma OtherPackets(m: Mapping, context: Context, columns: Packet, count: int)
    ensures (count < 0 || exists name :: name in columns && |columns[name]| != count) <==>
            ColumnFrame(m, context, columns, count) == Err("sampled-grid source column lengths do not match row_count")
    ensures FastPath(m, columns) <==> ColumnsSuffice(m, columns)
    ensures count >= 0 && (forall name :: name in columns ==> |columns[name]| == count) && !ColumnsSuffice(m, columns) ==>
              exists rows: seq<Row> ::
                && |rows| == count
                && (forall k :: 0 <= k < count ==>
                      rows[k].Keys == columns.Keys && forall name :: name in columns ==> rows[k][name] == columns[name][k])
                && ColumnFrame(m, context, columns, count) == Ok(RowFrame(m, context, rows))
  {
    FastPathIff(m, columns);
    hide RowFrame, FrameOf, Transposed, FastRows, FastPath, ColumnsSuffice, Fields;
    if Even(columns, count) {
      var rows := RowsOf(columns, count);
      assert forall k :: 0 <= k < count ==> rows[k].Keys == columns.Keys;
    }
  }

  /** The usual row, without bounds of its own and without an empty name in sight: its resolution must be a number unless it
      is left to the single advertised one, and its cell placed completely or not at all. */
  lemma UsualRowAgreesIff(m: Mapping, context: Context, columns: Packet, count: int, k: int)
    requires Comparable(m, columns, count) && 0 <= k < count
    requires "" !in columns && StatedBox(m, RowAt(columns, count, k)).None?
    ensures var row := RowAt(columns, count, k);
            var raw := RowValue(m, context, row, "resolution");
            var i, j := Number(RowValue(m, context, row, "row")), Number(RowValue(m, context, row, "column"));
            RowAgrees(m, context, columns, count, k) <==>
            && (Number(raw).Some? || |m.available| != 1 || (RoleColumn(m, columns, "resolution").None? && raw == Null))
            && ((i.Some? && j.Some? && Positive(MappedResolution(m, context, row)))
                || (i.None? && j.None? && Number(RowValue(m, context, row, "lat")).None? && Number(RowValue(m, context, row, "lon")).None?))
  {
    hide RowValue, Number, StatedBox, RowAt, MappedResolution, RoleColumn, Span, North, West, Compiled;
  }

  /** The mapped rows by field name. */
  function CanonicalRows(m: Mapping, context: Context, rows: seq<Row>): (canonical: seq<Row>)
    ensures |canonical| == |rows|
  {
    seq(|rows|, k requires 0 <= k < |rows| => Zipped(Fields(m), CellsOf(MapRow(m, context, rows[k]))))
  }

  /** The row mapper's frame is what hoisting makes of its mapped rows. */
  lemma RowFrameIsHoisted(m: Mapping, context: Context, rows: seq<Row>)
    requires NoDup(Fields(m))
    ensures RowFrame(m, context, rows) == Hoisted(Fields(m), {"date", "resolution_km"}, CanonicalRows(m, context, rows))
  {
    hide FrameOf, Hoisted, CellsOf, MapRow;
    var fields := Fields(m);
    var canonical := CanonicalRows(m, context, rows);
    var columns := Transposed(|fields|, MappedRows(m, context, rows));
    forall c, k | 0 <= c < |fields| && 0 <= k < |rows| ensures Get(canonical[k], fields[c]) == columns[c][k] {
      assert IndexOf(fields, fields[c]) == c;
    }
    FrameOfIsHoisted(fields, columns, canonical);
    assert fields[|fields| - 2] == "date" && fields[|fields| - 1] == "resolution_km";
  }

  // ----- where they differ ---------------------------------------------------------------------------------------------

  /** A grid of unit cells counted from the origin, with one advertised resolution. */
  function UnitGrid(fields: map<string, string>, status: Value -> Value): Mapping {
    Mapping(fields, map[], [], "global_index", Some(0.0), Some(0.0), Some(1.0), Some(1.0), None, None, [1.0], status)
  }

  lemma StandardFieldsDiffer()
    ensures NoDup(ROW_FIELDS + [] + FRAME_FIELDS)
  {
    var fields := ROW_FIELDS + [] + FRAME_FIELDS;
    forall i, j | 0 <= i < j < |fields| ensures fields[i] != fields[j] {
      assert |fields[i]| != |fields[j]| || fields[i][0] != fields[j][0] || fields[i][2] != fields[j][2]
             || fields[i][7] != fields[j][7];
    }
  }

  /** A mapping that names the index columns and the resolution. */
  function CellMapping(status: Value -> Value): Mapping {
    UnitGrid(map["row" := "i", "column" := "j", "resolution" := "r"], status)
  }

  /** A packet of one row: its indexes, its resolution, and whatever other columns it has. */
  function OneCell(i: Value, j: Value, r: Value, others: Packet): Packet {
    others["i" := [i]]["j" := [j]]["r" := [r]]
  }

  lemma OneCellComparable(status: Value -> Value, i: Value, j: Value, r: Value, others: Packet)
    requires forall name :: name in others ==> |others[name]| == 1
    ensures Comparable(CellMapping(status), OneCell(i, j, r, others), 1)
    ensures var row := RowAt(OneCell(i, j, r, others), 1, 0);
            && row.Keys == others.Keys + {"i", "j", "r"} && row["i"] == i && row["j"] == j && row["r"] == r
            && forall name :: name in others && name !in {"i", "j", "r"} ==> row[name] == others[name][0]
  {
    StandardFieldsDiffer();
    assert ExtensionNames(CellMapping(status)) == [];
    hide NoDup;
  }

  ghost predicate Differs(m: Mapping, columns: Packet) {
    Comparable(m, columns, 1) && ColumnFrame(m, map[], columns, 1) != Ok(RowFrame(m, map[], RowsOf(columns, 1)))
  }

  lemma DiffersAtRow(m: Mapping, columns: Packet)
    requires Comparable(m, columns, 1) && !RowAgrees(m, map[], columns, 1, 0)
    ensures Differs(m, columns)
  {
    hide Comparable, RowAgrees, ColumnFrame, RowFrame;
    ColumnsEqualRowsIff(m, map[], columns, 1);
  }

  /** A null in a resolution column, next to a single advertised resolution, maps differently by rows and by columns. */
  lemma NullResolutionDiffers(status: Value -> Value)
    ensures Differs(CellMapping(status), OneCell(Num(0.0), Num(0.0), Null, map[]))
  {
    var m, columns := CellMapping(status), OneCell(Num(0.0), Num(0.0), Null, map[]);
    OneCellComparable(status, Num(0.0), Num(0.0), Null, map[]);
    assert Primary(m, "resolution") == "r";
    hide Comparable, ValuesAgree, PlacementAgrees, Compiled, FastPath, Candidates;
    assert !ResolutionAgrees(m, map[], columns, 1, 0);
    DiffersAtRow(m, columns);
  }

  /** So does a cell with a row index and no column index: the column mapper gives its northern edge. */
  lemma PartlyPlacedDiffers(status: Value -> Value)
    ensures Differs(CellMapping(status), OneCell(Num(0.0), Null, Num(1.0), map[]))
  {
    var m, columns := CellMapping(status), OneCell(Num(0.0), Null, Num(1.0), map[]);
    OneCellComparable(status, Num(0.0), Null, Num(1.0), map[]);
    IndexLookup(m, map[], columns, 1, 0);
    assert Primary(m, "row") == "i" && Primary(m, "column") == "j";
    hide Comparable, ValuesAgree, ResolutionAgrees, Compiled, FastPath, Candidates, StatedBox, RowValue, ColumnValue, MappedResolution;
    assert !PlacementAgrees(m, map[], columns, 1, 0);
    DiffersAtRow(m, columns);
  }

  /** A cell that states bounds other than its indexes give: only the row mapper reads them. */
  const FAR_BOX := Record(map["west" := Num(5.0), "south" := Num(5.0), "east" := Num(6.0), "north" := Num(6.0)])

  lemma StatedBoundsDiffer(status: Value -> Value)
    ensures Differs(CellMapping(status), OneCell(Num(0.0), Num(0.0), Num(1.0), map["bounds" := [FAR_BOX]]))
  {
    var m, columns := CellMapping(status), OneCell(Num(0.0), Num(0.0), Num(1.0), map["bounds" := [FAR_BOX]]);
    OneCellComparable(status, Num(0.0), Num(0.0), Num(1.0), map["bounds" := [FAR_BOX]]);
    IndexLookup(m, map[], columns, 1, 0);
    assert Primary(m, "row") == "i" && Primary(m, "column") == "j";
    var row := RowAt(columns, 1, 0);
    assert row["bounds"] == FAR_BOX;
    assert StatedBox(m, row) == Some(Box(5.0, 5.0, 6.0, 6.0));
    hide Comparable, ValuesAgree, ResolutionAgrees, Compiled, FastPath, Candidates, StatedBox, RowValue, ColumnValue, MappedResolution, Span;
    assert !PlacementAgrees(m, map[], columns, 1, 0);
    DiffersAtRow(m, columns);
  }

  /** A column without a name: the column mapper takes it for the identity nobody mapped. */
  lemma EmptyColumnNameDiffers(status: Value -> Value)
    ensures Differs(CellMapping(status), OneCell(Num(0.0), Num(0.0), Num(1.0), map["" := [Num(7.0)]]))
  {
    var m, columns := CellMapping(status), OneCell(Num(0.0), Num(0.0), Num(1.0), map["" := [Num(7.0)]]);
    OneCellComparable(status, Num(0.0), Num(0.0), Num(1.0), map["" := [Num(7.0)]]);
    assert Primary(m, "id") == "";
    UnmappedRole(m, map[], RowAt(columns, 1, 0), "id");
    hide Comparable, ResolutionAgrees, PlacementAgrees, Compiled, FastPath, Candidates, RowValue;
    assert !ValuesAgree(m, map[], columns, 1, 0);
    DiffersAtRow(m, columns);
  }

  /** Bounds that a row states itself count in the row mapper and are ignored by the column mapper: such a row's placement
      agrees exactly when the indexes give the very box it states, and if they do not the frames differ. */
  lemma StatedBoundsIff(m: Mapping, context: Context, columns: Packet, count: int, k: int)
    requires Comparable(m, columns, count) && 0 <= k < count && StatedBox(m, RowAt(columns, count, k)).Some?
    ensures var row := RowAt(columns, count, k);
            var i, j := Number(columns[Primary(m, "row")][k]), Number(columns[Primary(m, "column")][k]);
            && (PlacementAgrees(m, context, columns, count, k) <==>
                IndexBox(m, i, j, MappedResolution(m, context, row)) == StatedBox(m, row))
            && (IndexBox(m, i, j, MappedResolution(m, context, row)) != StatedBox(m, row) ==>
                ColumnFrame(m, context, columns, count) != Ok(RowFrame(m, context, RowsOf(columns, count))))
  {
    IndexLookup(m, context, columns, count, k);
    ColumnsEqualRowsIff(m, context, columns, count);
    hide ColumnFrame, RowFrame, RowValue, StatedBox, RowAt, Compiled, IndexBox, Number, ResolutionAgrees, ValuesAgree, MappedResolution,
         ColumnValue;
    assert PlacementAgrees(m, context, columns, count, k) <==>
           IndexBox(m, Number(columns[Primary(m, "row")][k]), Number(columns[Primary(m, "column")][k]),
                    MappedResolution(m, context, RowAt(columns, count, k))) == StatedBox(m, RowAt(columns, count, k));
    assert !PlacementAgrees(m, context, columns, count, k) ==> !RowAgrees(m, context, columns, count, k);
  }

  /** A source column whose name is empty is read by the column mapper as every role that is not mapped: for each of them
      the mapped rows have the same value exactly when that column holds what the row mapper looks up, and if one differs
      the frames do. */
  lemma EmptyColumnNameIff(m: Mapping, context: Context, columns: Packet, count: int, k: int)
    requires Comparable(m, columns, count) && 0 <= k < count && "" in columns
    ensures var row, read := RowAt(columns, count, k), columns[""][k];
            var fast, mapped := FastRow(m, context, columns, count, k), MapRow(m, context, row);
            && (fast.cellId == mapped.cellId <==> (Primary(m, "id") == "" ==> read == RowValue(m, context, row, "id")))
            && (fast.value == mapped.value <==> (Primary(m, "value") == "" ==> read == RowValue(m, context, row, "value")))
            && (fast.date == mapped.date <==> (Primary(m, "time") == "" ==> read == RowValue(m, context, row, "time")))
            && (fast.coverage == mapped.coverage <==>
                (Primary(m, "coverage") == "" ==> Number(read) == Number(RowValue(m, context, row, "coverage"))))
            && (fast.status == mapped.status <==>
                (Primary(m, "status") == "" ==> m.status(read) == m.status(RowValue(m, context, row, "status"))))
            && (Primary(m, "resolution") == "" ==> (fast.resolution == mapped.resolution <==> Number(read) == MappedResolution(m, context, row)))
            && (fast != mapped ==> ColumnFrame(m, context, columns, count) != Ok(RowFrame(m, context, RowsOf(columns, count))))
  {
    FramesAgreeIff(m, context, columns, count);
    ColumnLookup(m, context, columns, count, k, "id");
    ColumnLookup(m, context, columns, count, k, "value");
    ColumnLookup(m, context, columns, count, k, "coverage");
    ColumnLookup(m, context, columns, count, k, "status");
    ColumnLookup(m, context, columns, count, k, "time");
    ResolutionLookup(m, context, columns, count, k);
    FastPlacement(m, context, columns, count, k);
    MappedPlacement(m, context, RowAt(columns, count, k));
    hide ColumnFrame, RowFrame, Resolutions, DirectOrConstant, RowValue, Number, StatedBox, PathValue, IndexBox, CenterBox, Placed, FastPath,
         RowAt, MappedResolution, PlacedFrom, PlacedBy, RowBox, Compiled;
  }
}
