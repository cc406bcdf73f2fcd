/** What the mappers put into a canonical frame, field by field, and where an indexed cell lies. */
module MappedCells {
  import opened Prelude
  import opened Sequences
  import opened GridFrames
  import opened GridMapping

  // ----- values -----------------------------------------------------------------------------------------------------------

  /** The number a JSON value stands for, if it stands for one. */
  predicate Denotes(v: Value, n: Option<real>) {
    match v
    case Num(r) => n == Some(r)
    case Text(_, parsed) => n == parsed
    case Null => n.None?
    case List(_) => n.None?
    case Record(_) => n.None?
  }

  /** A role's value in a row: the mapped column, else the column with the canonical name, else the one with the role's own
      name, else what the request gives, else null. */
  ghost predicate Reads(m: Mapping, context: Context, row: Row, role: string, canonical: string, v: Value) {
    if role in m.sourceFields && m.sourceFields[role] in row then v == row[m.sourceFields[role]]
    else if canonical != "" && canonical in row then v == row[canonical]
    else if role in row then v == row[role]
    else if role in m.requestPaths then v == PathValue(context, m.requestPaths[role])
    else v == Null
  }

  lemma RoleReads(m: Mapping, context: Context, row: Row, role: string, canonical: string)
    requires Compiled(m) && role != "" && canonical == CanonicalColumn(role)
    ensures forall v :: Reads(m, context, row, role, canonical, v) <==> v == RowValue(m, context, row, role)
  {
    var primary := Primary(m, role);
    hide PathValue, CanonicalColumn;
    CandidatesAre(primary, canonical, role);
    if primary != "" && primary in row {
    } else {
      var names := Candidates(m, role);
      assert names == (if primary != "" then [primary] else []) + (if canonical != "" then [canonical] else []) + [role];
      FirstOf(row, primary, canonical, role, ContextValue(m, context, role));
    }
  }

  lemma CandidatesAre(primary: string, canonical: string, role: string)
    requires role != ""
    ensures NonBlank([primary, canonical, role]) ==
            (if primary != "" then [primary] else []) + (if canonical != "" then [canonical] else []) + [role]
  {
    assert [primary, canonical, role][1..] == [canonical, role] && [canonical, role][1..] == [role] && [role][1..] == [];
    assert NonBlank([role]) == [role];
    assert NonBlank([canonical, role]) == (if canonical != "" then [canonical] else []) + [role];
  }

  lemma FirstOf(row: Row, primary: string, canonical: string, role: string, otherwise: Value)
    requires primary !in row || primary == ""
    ensures FirstPresent(row, (if primary != "" then [primary] else []) + (if canonical != "" then [canonical] else []) + [role], otherwise) ==
            if canonical != "" && canonical in row then row[canonical] else if role in row then row[role] else otherwise
  {
    var last := [role];
    assert last[1..] == [];
    assert FirstPresent(row, last, otherwise) == if role in row then row[role] else otherwise;
    var tail := (if canonical != "" then [canonical] else []) + last;
    assert canonical != "" ==> tail[0] == canonical && tail[1..] == last;
    assert canonical == "" ==> tail == last;
    assert FirstPresent(row, tail, otherwise) ==
           if canonical != "" && canonical in row then row[canonical] else if role in row then row[role] else otherwise;
    var all := (if primary != "" then [primary] else []) + tail;
    assert primary != "" ==> all[0] == primary && all[1..] == tail;
    assert primary == "" ==> all == tail;
    assert all == (if primary != "" then [primary] else []) + (if canonical != "" then [canonical] else []) + [role];
  }

  /** An empty step of a path stays where it is: at the start, in the middle or at the end; an empty path leads nowhere. */
  lemma EmptySteps(fields: map<string, Value>, head: string, rest: string)
    requires head != "" && '.' !in head
    ensures PathValue(fields, "") == Null
    ensures PathValue(fields, "." + rest) == if rest != "" then PathValue(fields, rest) else Record(fields)
    ensures PathValue(fields, head + ".") == PathValue(fields, head)
    ensures rest != "" && head in fields && fields[head].Record? ==>
              PathValue(fields, head + "." + rest) == PathValue(fields[head].fields, rest)
  {
    assert "" + "." + rest == "." + rest;
    SplitAt("", rest);
    EmptyFirst(Record(fields), Split(rest));
    assert head + "." + "" == head + ".";
    SplitAt(head, "");
    SplitAt(head, rest);
    DirectPath(fields, head);
    NothingToSplit();
    FirstStep(Record(fields), head, [""]);
    FirstStep(Record(fields), head, Split(rest));
    if head in fields {
      EmptyFirst(fields[head], []);
    }
    EmptyFirst(Record(fields), []);
    hide Split, Walk;
    assert [""] + [] == [""];
    assert Walk(Record(fields), []) == Record(fields) && (head in fields ==> Walk(fields[head], []) == fields[head]) by {
      NoSteps(Record(fields));
      if head in fields {
        NoSteps(fields[head]);
      }
    }
  }

  lemma NoSteps(v: Value)
    ensures Walk(v, []) == v
  {
  }

  lemma NothingToSplit()
    ensures Split("") == [""]
  {
  }

  lemma SplitAt(head: string, rest: string)
    requires '.' !in head
    ensures Split(head + "." + rest) == [head] + Split(rest)
  {
    var path := head + "." + rest;
    FirstDotAt(head, rest);
    assert path[..|head|] == head && path[|head| + 1..] == rest;
  }

  lemma EmptyFirst(v: Value, parts: seq<string>)
    ensures Walk(v, [""] + parts) == Walk(v, parts)
  {
    assert ([""] + parts)[1..] == parts;
  }

  /** The value under a path: step by step through nested objects, null where a step is missing. */
  lemma PathSteps(fields: map<string, Value>, head: string, rest: string)
    requires head != "" && rest != "" && '.' !in head && rest[0] != '.'
    ensures PathValue(fields, head) == Get(fields, head)
    ensures PathValue(fields, head + "." + rest) ==
            if head in fields && fields[head].Record? then PathValue(fields[head].fields, rest) else Null
  {
    DirectPath(fields, head);
    SplitAt(head, rest);
    FirstStep(Record(fields), head, Split(rest));
    if head in fields {
      FirstPart(rest);
      WalkBelow(fields[head], Split(rest));
    }
  }

  lemma FirstPart(path: string)
    requires path != "" && path[0] != '.'
    ensures Split(path) != [] && Split(path)[0] != ""
  {
  }

  lemma FirstStep(v: Value, head: string, parts: seq<string>)
    requires head != ""
    ensures Walk(v, [head] + parts) == if v.Record? && head in v.fields then Walk(v.fields[head], parts) else Null
  {
    assert ([head] + parts)[1..] == parts;
  }

  lemma WalkBelow(v: Value, parts: seq<string>)
    requires parts != [] && parts[0] != ""
    ensures Walk(v, parts) == if v.Record? then Walk(Record(v.fields), parts) else Null
  {
  }

  lemma {:induction false} FirstDotAt(head: string, rest: string)
    requires '.' !in head
    ensures FirstDot(head + "." + rest) == |head|
  {
    var n := FirstDot(head + "." + rest);
    assert (head + "." + rest)[|head|] == '.';
    assert forall i :: 0 <= i < |head| ==> (head + "." + rest)[i] == head[i] && head[i] in head;
  }

  // ----- the frame by field name ------------------------------------------------------------------------------------------

  /** A mapped row, field by field, as the frame gives it back. */
  ghost predicate Shows(f: Frame, k: int, m: Mapping, c: Canonical)
    requires WellFormed(f) && 0 <= k < f.rowCount && |c.extensions| == |m.extensions|
  {
    && ValueAt(f, "cell_id", k) == c.cellId && ValueAt(f, "value", k) == c.value
    && Denotes(ValueAt(f, "lat", k), c.lat) && Denotes(ValueAt(f, "lon", k), c.lon)
    && Denotes(ValueAt(f, "coverage_ratio", k), c.coverage) && ValueAt(f, "data_status", k) == c.status
    && Denotes(ValueAt(f, "bounds.west", k), c.west) && Denotes(ValueAt(f, "bounds.south", k), c.south)
    && Denotes(ValueAt(f, "bounds.east", k), c.east) && Denotes(ValueAt(f, "bounds.north", k), c.north)
    && ValueAt(f, "date", k) == c.date && Denotes(ValueAt(f, "resolution_km", k), c.resolution)
    && forall i :: 0 <= i < |m.extensions| ==> ValueAt(f, m.extensions[i].0, k) == c.extensions[i]
  }

  lemma FieldNames(m: Mapping)
    ensures var fields := Fields(m);
            && fields[0] == "cell_id" && fields[1] == "lat" && fields[2] == "lon" && fields[3] == "value"
            && fields[4] == "coverage_ratio" && fields[5] == "data_status"
            && fields[6] == "bounds.west" && fields[7] == "bounds.south" && fields[8] == "bounds.east" && fields[9] == "bounds.north"
            && fields[10 + |m.extensions|] == "date" && fields[11 + |m.extensions|] == "resolution_km"
            && forall i :: 0 <= i < |m.extensions| ==> fields[10 + i] == m.extensions[i].0
  {
  }

  /** A frame whose columns list the cells of some mapped rows shows those rows. */
  lemma CellsAreShown(m: Mapping, cells: seq<seq<Value>>, k: int, c: Canonical)
    requires NoDup(Fields(m)) && 0 <= k < |cells| && |c.extensions| == |m.extensions| && cells[k] == CellsOf(c)
    requires forall j :: 0 <= j < |cells| ==> |cells[j]| == 12 + |m.extensions|
    ensures var f := FrameOf(Fields(m), Transposed(12 + |m.extensions|, cells), |cells|);
            WellFormed(f) && k < f.rowCount && Shows(f, k, m, c)
  {
    hide Fields, NoDup, FrameOf, ValueAt, WellFormed, Transposed, CellsOf, CellOf, Shows;
    var fields, columns := Fields(m), Transposed(12 + |m.extensions|, cells);
    var f := FrameOf(fields, columns, |cells|);
    FrameCount(fields, columns, |cells|);
    forall i | 0 <= i < |fields| ensures WellFormed(f) && ValueAt(f, fields[i], k) == CellOf(c, i) {
      FrameOfKeepsEveryValue(fields, columns, |cells|, i, k);
      CellAt(c, i);
    }
    assert WellFormed(f) by { assert fields[0] == fields[0]; }
    ShowsFields(f, k, m, c);
  }

  lemma NumberDenotes(n: Option<real>)
    ensures Denotes(NumberValue(n), n)
  {
  }

  lemma ShowsFields(f: Frame, k: int, m: Mapping, c: Canonical)
    requires WellFormed(f) && 0 <= k < f.rowCount && |c.extensions| == |m.extensions|
    requires forall i :: 0 <= i < |Fields(m)| ==> ValueAt(f, Fields(m)[i], k) == CellOf(c, i)
    ensures Shows(f, k, m, c)
  {
    FieldNames(m);
    var fields, n := Fields(m), |m.extensions|;
    hide Fields, ValueAt, WellFormed, NumberValue, Denotes;
    NumberDenotes(c.lat);
    NumberDenotes(c.lon);
    NumberDenotes(c.coverage);
    NumberDenotes(c.west);
    NumberDenotes(c.south);
    NumberDenotes(c.east);
    NumberDenotes(c.north);
    NumberDenotes(c.resolution);
    assert ValueAt(f, fields[0], k) == CellOf(c, 0) && ValueAt(f, fields[1], k) == CellOf(c, 1) && ValueAt(f, fields[2], k) == CellOf(c, 2);
    assert ValueAt(f, fields[3], k) == CellOf(c, 3) && ValueAt(f, fields[4], k) == CellOf(c, 4) && ValueAt(f, fields[5], k) == CellOf(c, 5);
    assert ValueAt(f, fields[6], k) == CellOf(c, 6) && ValueAt(f, fields[7], k) == CellOf(c, 7) && ValueAt(f, fields[8], k) == CellOf(c, 8);
    assert ValueAt(f, fields[9], k) == CellOf(c, 9);
    assert ValueAt(f, fields[10 + n], k) == CellOf(c, 10 + n) && ValueAt(f, fields[11 + n], k) == CellOf(c, 11 + n);
    forall i | 0 <= i < n ensures ValueAt(f, m.extensions[i].0, k) == c.extensions[i] {
      assert ValueAt(f, fields[10 + i], k) == CellOf(c, 10 + i);
    }
  }

  lemma FrameCount(fields: seq<string>, columns: seq<seq<Value>>, count: nat)
    requires |fields| == |columns| >= 2
    ensures FrameOf(fields, columns, count).rowCount == count
  {
  }

  /** The row mapper's frame shows every mapped row, and so does the column mapper's. */
  lemma MappedFramesShow(m: Mapping, context: Context, rows: seq<Row>, k: int)
    requires NoDup(Fields(m)) && 0 <= k < |rows|
    ensures var f := RowFrame(m, context, rows);
            WellFormed(f) && f.rowCount == |rows| && Shows(f, k, m, MapRow(m, context, rows[k]))
  {
    hide Shows, FrameOf, Fields, NoDup, Transposed, CellsOf;
    ExtensionCount(m, context, rows[k]);
    hide MapRow;
    CellsAreShown(m, MappedRows(m, context, rows), k, MapRow(m, context, rows[k]));
    FrameCount(Fields(m), Transposed(12 + |m.extensions|, MappedRows(m, context, rows)), |rows|);
  }

  lemma ExtensionCount(m: Mapping, context: Context, row: Row)
    ensures |MapRow(m, context, row).extensions| == |m.extensions|
    ensures forall i :: 0 <= i < |m.extensions| ==> MapRow(m, context, row).extensions[i] == PathValue(row, m.extensions[i].1)
  {
    hide PathValue, RowValue, StatedBox, IndexBox, CenterBox;
  }

  lemma FastFramesShow(m: Mapping, context: Context, columns: Packet, count: int, k: int)
    requires NoDup(Fields(m)) && Even(columns, count) && FastPath(m, columns) && 0 <= k < count
    ensures ColumnFrame(m, context, columns, count).Ok?
    ensures var f := ColumnFrame(m, context, columns, count).value;
            WellFormed(f) && f.rowCount == count && Shows(f, k, m, FastRow(m, context, columns, count, k))
  {
    hide Shows, FrameOf, Fields, NoDup, Transposed, CellsOf, FastPath, FastRow;
    CellsAreShown(m, FastRows(m, context, columns, count), k, FastRow(m, context, columns, count, k));
    FrameCount(Fields(m), Transposed(12 + |m.extensions|, FastRows(m, context, columns, count)), count);
  }

  // ----- a mapped row -------------------------------------------------------------------------------------------------------

  lemma DenotesNumber(v: Value)
    ensures forall n :: Denotes(v, n) <==> n == Number(v)
  {
  }

  /** Every role of a row ends up under its own canonical field. */
  lemma MappedRowReads(m: Mapping, context: Context, row: Row)
    requires Compiled(m)
    ensures var c := MapRow(m, context, row);
            && Reads(m, context, row, "id", "cell_id", c.cellId)
            && Reads(m, context, row, "value", "value", c.value)
            && Reads(m, context, row, "time", "date", c.date)
            && (forall raw :: Reads(m, context, row, "coverage", "coverage_ratio", raw) ==> Denotes(raw, c.coverage))
            && (forall raw :: Reads(m, context, row, "status", "data_status", raw) ==> c.status == m.status(raw))
            && (forall raw :: Reads(m, context, row, "resolution", "resolution_km", raw) ==>
                  if !Denotes(raw, None) then Denotes(raw, c.resolution)
                  else c.resolution == if |m.available| == 1 then Some(m.available[0]) else None)
  {
    hide Reads, Denotes, RowValue, Number, StatedBox, IndexBox, CenterBox, PathValue, Compiled;
    RoleReads(m, context, row, "id", "cell_id");
    RoleReads(m, context, row, "value", "value");
    RoleReads(m, context, row, "time", "date");
    RoleReads(m, context, row, "coverage", "coverage_ratio");
    RoleReads(m, context, row, "status", "data_status");
    RoleReads(m, context, row, "resolution", "resolution_km");
    DenotesNumber(RowValue(m, context, row, "coverage"));
    DenotesNumber(RowValue(m, context, row, "resolution"));
  }

  /** Four values that denote the sides of a box. */
  predicate Sides(west: Value, south: Value, east: Value, north: Value, box: Box) {
    Denotes(west, Some(box.west)) && Denotes(south, Some(box.south)) && Denotes(east, Some(box.east)) && Denotes(north, Some(box.north))
  }

  /** Bounds nested in the row. */
  ghost predicate NestedStates(row: Row, box: Box) {
    && "bounds" in row && row["bounds"].Record?
    && var b := row["bounds"].fields;
       Sides(Get(b, "west"), Get(b, "south"), Get(b, "east"), Get(b, "north"), box)
  }

  /** Bounds a row states itself: nested, or in the four mapped columns, if all four are mapped. */
  ghost predicate States(m: Mapping, row: Row, box: Box) {
    || NestedStates(row, box)
    || ((forall other :: !NestedStates(row, other))
        && "west" in m.sourceFields && "south" in m.sourceFields && "east" in m.sourceFields && "north" in m.sourceFields
        && Sides(Get(row, m.sourceFields["west"]), Get(row, m.sourceFields["south"]),
                 Get(row, m.sourceFields["east"]), Get(row, m.sourceFields["north"]), box))
  }

  lemma SidesAre(west: Value, south: Value, east: Value, north: Value, box: Box)
    ensures Sides(west, south, east, north, box) <==>
            CompleteBox(Number(west), Number(south), Number(east), Number(north)) == Some(box)
  {
    DenotesNumber(west);
    DenotesNumber(south);
    DenotesNumber(east);
    DenotesNumber(north);
    hide Denotes, Number;
  }

  lemma NestedIs(row: Row, box: Box)
    ensures NestedStates(row, box) <==> NestedBox(row) == Some(box)
  {
    hide Sides, Number, CompleteBox;
    if "bounds" in row && row["bounds"].Record? {
      var b := row["bounds"].fields;
      SidesAre(Get(b, "west"), Get(b, "south"), Get(b, "east"), Get(b, "north"), box);
    }
  }

  lemma StatedIs(m: Mapping, row: Row, box: Box)
    requires Compiled(m)
    ensures States(m, row, box) <==> StatedBox(m, row) == Some(box)
  {
    hide NestedStates, NestedBox, Sides, Number, CompleteBox;
    forall other ensures NestedStates(row, other) <==> NestedBox(row) == Some(other) {
      NestedIs(row, other);
    }
    if NestedBox(row).Some? {
      assert NestedStates(row, NestedBox(row).value);
    }
    if MapsBounds(m) {
      SidesAre(Get(row, m.sourceFields["west"]), Get(row, m.sourceFields["south"]),
               Get(row, m.sourceFields["east"]), Get(row, m.sourceFields["north"]), box);
    }
    hide Get;
  }

  /** The cell covers this box, and lies at its middle. */
  predicate Covers(c: Canonical, box: Box) {
    && c.west == Some(box.west) && c.south == Some(box.south) && c.east == Some(box.east) && c.north == Some(box.north)
    && c.lat.Some? && 2.0 * c.lat.value == box.south + box.north && c.lon.Some? && 2.0 * c.lon.value == box.west + box.east
  }

  predicate Unbounded(c: Canonical) {
    c.west.None? && c.south.None? && c.east.None? && c.north.None?
  }

  /** The index geometry of a mapping is complete. */
  predicate Indexed(m: Mapping) {
    && m.encoding == "global_index" && m.originLat.Some? && m.originLon.Some?
    && m.unitsPerDegree.Some? && m.unitsPerDegree.value > 0.0 && m.baseResolution.Some? && m.baseResolution.value > 0.0
  }

  /** The box of an index pair: rows count southward and columns eastward from the origin, so many to a degree, and a cell is
      as many base cells wide and high as its resolution says. */
  predicate BoxOfIndex(m: Mapping, row: real, column: real, resolution: real, box: Box)
    requires Indexed(m)
  {
    var units, base := m.unitsPerDegree.value, m.baseResolution.value;
    && (m.originLat.value - box.north) * units == row
    && (box.west - m.originLon.value) * units == column
    && (box.north - box.south) * units * base == resolution
    && (box.east - box.west) * units * base == resolution
  }

  lemma DivideBack(x: real, y: real)
    requires y > 0.0
    ensures (x / y) * y == x
  {
  }

  lemma IndexBoxIs(m: Mapping, row: real, column: real, resolution: real)
    requires Indexed(m) && resolution > 0.0
    ensures var box := IndexBox(m, Some(row), Some(column), Some(resolution)); box.Some? && BoxOfIndex(m, row, column, resolution, box.value)
  {
    var units, base := m.unitsPerDegree.value, m.baseResolution.value;
    DivideBack(row, units);
    DivideBack(column, units);
    DivideBack(resolution / base, units);
    DivideBack(resolution, base);
    var box := IndexBox(m, Some(row), Some(column), Some(resolution)).value;
    assert m.originLat.value - box.north == row / units && box.west - m.originLon.value == column / units;
    assert box.north - box.south == (resolution / base) / units && box.east - box.west == (resolution / base) / units;
  }

  ghost function BoxFor(m: Mapping, context: Context, row: Row): Option<Box> {
    if StatedBox(m, row).Some? then StatedBox(m, row)
    else if m.encoding == "global_index" then
      IndexBox(m, Number(RowValue(m, context, row, "row")), Number(RowValue(m, context, row, "column")), MappedResolution(m, context, row))
    else if m.encoding == "center" then
      CenterBox(m, Number(RowValue(m, context, row, "lat")), Number(RowValue(m, context, row, "lon")))
    else None
  }

  lemma RowIsPlaced(m: Mapping, context: Context, row: Row)
    ensures var c := MapRow(m, context, row);
            && c.resolution == MappedResolution(m, context, row)
            && PlacedBy(c, BoxFor(m, context, row), Number(RowValue(m, context, row, "lat")), Number(RowValue(m, context, row, "lon")))
  {
    hide RowValue, Number, StatedBox, PathValue, IndexBox, CenterBox;
  }

  lemma PlacedCovers(c: Canonical, box: Option<Box>, lat: Option<real>, lon: Option<real>)
    requires PlacedBy(c, box, lat, lon)
    ensures box.Some? ==> Covers(c, box.value)
    ensures box.None? ==> Unbounded(c) && c.lat == lat && c.lon == lon
  {
  }

  /** A row that states its bounds lies in them. */
  lemma StatedRowPlaced(m: Mapping, context: Context, row: Row, box: Box)
    requires Compiled(m) && States(m, row, box)
    ensures Covers(MapRow(m, context, row), box)
  {
    StatedIs(m, row, box);
    RowIsPlaced(m, context, row);
    hide States, StatedBox, MapRow, IndexBox, CenterBox, RowValue, Number, PlacedBy, Covers;
    PlacedCovers(MapRow(m, context, row), BoxFor(m, context, row), Number(RowValue(m, context, row, "lat")),
                 Number(RowValue(m, context, row, "lon")));
  }

  lemma NothingStated(m: Mapping, row: Row)
    requires Compiled(m) && forall box :: !States(m, row, box)
    ensures StatedBox(m, row).None?
  {
    hide States, StatedBox;
    if StatedBox(m, row).Some? {
      StatedIs(m, row, StatedBox(m, row).value);
    }
  }

  /** A row of an indexed grid that states no bounds, with both indexes and a positive resolution, lies in the box of its
      indexes; without them it has no bounds, and its own point. */
  lemma IndexedRowPlaced(m: Mapping, context: Context, row: Row, i: Value, j: Value, r: Option<real>, s: Option<real>)
    requires Compiled(m) && Indexed(m) && forall box :: !States(m, row, box)
    requires Reads(m, context, row, "row", "", i) && Reads(m, context, row, "column", "", j) && Denotes(i, r) && Denotes(j, s)
    ensures var c := MapRow(m, context, row);
            if r.Some? && s.Some? && c.resolution.Some? && c.resolution.value > 0.0 then
              exists box :: BoxOfIndex(m, r.value, s.value, c.resolution.value, box) && Covers(c, box)
            else
              && Unbounded(c)
              && (forall lat :: Reads(m, context, row, "lat", "lat", lat) ==> Denotes(lat, c.lat))
              && (forall lon :: Reads(m, context, row, "lon", "lon", lon) ==> Denotes(lon, c.lon))
  {
    RoleReads(m, context, row, "row", "");
    RoleReads(m, context, row, "column", "");
    RoleReads(m, context, row, "lat", "lat");
    RoleReads(m, context, row, "lon", "lon");
    DenotesNumber(i);
    DenotesNumber(j);
    DenotesNumber(RowValue(m, context, row, "lat"));
    DenotesNumber(RowValue(m, context, row, "lon"));
    NothingStated(m, row);
    RowIsPlaced(m, context, row);
    hide States, Reads, Denotes, StatedBox, MapRow, CenterBox, RowValue, Number, PlacedBy, Covers, BoxOfIndex, MappedResolution, Unbounded,
         Span, North, West, Compiled;
    var c := MapRow(m, context, row);
    if r.Some? && s.Some? && c.resolution.Some? && c.resolution.value > 0.0 {
      IndexBoxIs(m, r.value, s.value, c.resolution.value);
    }
    PlacedCovers(c, BoxFor(m, context, row), Number(RowValue(m, context, row, "lat")), Number(RowValue(m, context, row, "lon")));
  }

  lemma CentredPoint(m: Mapping, c: Canonical, y: Option<real>, x: Option<real>)
    requires m.encoding == "center" && PlacedBy(c, CenterBox(m, y, x), y, x)
    ensures c.lat == y && c.lon == x
    ensures if y.Some? && x.Some? && m.cellWidth.Some? && m.cellHeight.Some? then
              exists box :: Covers(c, box) && box.east - box.west == m.cellWidth.value && box.north - box.south == m.cellHeight.value
            else Unbounded(c)
  {
    PlacedCovers(c, CenterBox(m, y, x), y, x);
  }

  /** A row of a centred grid that states no bounds lies around its own point, as wide and high as the grid says. */
  lemma CentredRowPlaced(m: Mapping, context: Context, row: Row, lat: Value, lon: Value, y: Option<real>, x: Option<real>)
    requires Compiled(m) && m.encoding == "center" && forall box :: !States(m, row, box)
    requires Reads(m, context, row, "lat", "lat", lat) && Reads(m, context, row, "lon", "lon", lon) && Denotes(lat, y) && Denotes(lon, x)
    ensures var c := MapRow(m, context, row);
            && c.lat == y && c.lon == x
            && if y.Some? && x.Some? && m.cellWidth.Some? && m.cellHeight.Some? then
                 exists box :: Covers(c, box) && box.east - box.west == m.cellWidth.value && box.north - box.south == m.cellHeight.value
               else Unbounded(c)
  {
    RoleReads(m, context, row, "lat", "lat");
    RoleReads(m, context, row, "lon", "lon");
    DenotesNumber(lat);
    DenotesNumber(lon);
    NothingStated(m, row);
    RowIsPlaced(m, context, row);
    hide States, Reads, Denotes, StatedBox, MapRow, IndexBox, CenterBox, RowValue, Number, PlacedBy, Covers, Unbounded, MappedResolution, Compiled;
    CentredPoint(m, MapRow(m, context, row), y, x);
  }

  // ----- a mapped column position -----------------------------------------------------------------------------------------

  /** Each side of a cell is there as far as what it needs is, and lies where the indexes say. */
  predicate Sided(m: Mapping, c: Canonical, i: Option<real>, j: Option<real>)
    requires Indexed(m)
  {
    SidedDown(m, c, i) && SidedAcross(m, c, j)
  }

  predicate SidedDown(m: Mapping, c: Canonical, i: Option<real>)
    requires Indexed(m)
  {
    var units, base := m.unitsPerDegree.value, m.baseResolution.value;
    && (if i.Some? then c.north.Some? && (m.originLat.value - c.north.value) * units == i.value else c.north.None?)
    && (c.south.Some? <==> c.north.Some? && c.resolution.Some? && c.resolution.value > 0.0)
    && (c.south.Some? ==> (c.north.value - c.south.value) * units * base == c.resolution.value)
    && (c.lat.Some? <==> c.south.Some?) && (c.lat.Some? ==> 2.0 * c.lat.value == c.south.value + c.north.value)
  }

  predicate SidedAcross(m: Mapping, c: Canonical, j: Option<real>)
    requires Indexed(m)
  {
    var units, base := m.unitsPerDegree.value, m.baseResolution.value;
    && (if j.Some? then c.west.Some? && (c.west.value - m.originLon.value) * units == j.value else c.west.None?)
    && (c.east.Some? <==> c.west.Some? && c.resolution.Some? && c.resolution.value > 0.0)
    && (c.east.Some? ==> (c.east.value - c.west.value) * units * base == c.resolution.value)
    && (c.lon.Some? <==> c.east.Some?) && (c.lon.Some? ==> 2.0 * c.lon.value == c.west.value + c.east.value)
  }

  /** Where the column mapper puts a position. */
  lemma FastRowPlaced(m: Mapping, context: Context, columns: Packet, count: int, k: int, i: Option<real>, j: Option<real>)
    requires Comparable(m, columns, count) && 0 <= k < count
    requires Denotes(columns[Primary(m, "row")][k], i) && Denotes(columns[Primary(m, "column")][k], j)
    ensures Indexed(m) && Sided(m, FastRow(m, context, columns, count, k), i, j)
  {
    FastPlacement(m, context, columns, count, k);
    IndexLookup(m, context, columns, count, k);
    DenotesNumber(columns[Primary(m, "row")][k]);
    DenotesNumber(columns[Primary(m, "column")][k]);
    FastPathIsIndexed(m, columns);
    hide FastRow, Denotes, Number, ColumnValue, Resolutions, FastPath, PlacedFrom, Compiled, SidedDown, SidedAcross;
    PlacedDown(m, FastRow(m, context, columns, count, k), i, j);
    PlacedAcross(m, FastRow(m, context, columns, count, k), i, j);
  }

  lemma FastPathIsIndexed(m: Mapping, columns: Packet)
    requires FastPath(m, columns)
    ensures Indexed(m)
  {
  }

  lemma PlacedStarts(m: Mapping, c: Canonical, i: Option<real>, j: Option<real>)
    requires IndexGeometry(m) && PlacedFrom(c, m, i, j, c.resolution)
    ensures c.north == (if i.Some? then Some(North(m, i.value)) else None)
    ensures c.west == (if j.Some? then Some(West(m, j.value)) else None)
  {
    hide North, West, Span;
  }

  lemma PlacedEnds(m: Mapping, c: Canonical, i: Option<real>, j: Option<real>)
    requires IndexGeometry(m) && PlacedFrom(c, m, i, j, c.resolution)
    ensures (c.south.Some? <==> c.north.Some? && c.resolution.Some? && c.resolution.value > 0.0)
    ensures (c.east.Some? <==> c.west.Some? && c.resolution.Some? && c.resolution.value > 0.0)
    ensures c.south.Some? ==> c.north.value - c.south.value == Span(m, c.resolution.value)
    ensures c.east.Some? ==> c.east.value - c.west.value == Span(m, c.resolution.value)
    ensures (c.lat.Some? <==> c.south.Some?) && (c.lat.Some? ==> 2.0 * c.lat.value == c.south.value + c.north.value)
    ensures (c.lon.Some? <==> c.east.Some?) && (c.lon.Some? ==> 2.0 * c.lon.value == c.west.value + c.east.value)
  {
    hide North, West, Span;
  }

  lemma Apart(m: Mapping, high: real, low: real, resolution: real)
    requires Indexed(m) && IndexGeometry(m) && high - low == Span(m, resolution)
    ensures (high - low) * m.unitsPerDegree.value * m.baseResolution.value == resolution
  {
    SpanIs(m, resolution);
  }

  lemma PlacedDown(m: Mapping, c: Canonical, i: Option<real>, j: Option<real>)
    requires Indexed(m) && IndexGeometry(m) && PlacedFrom(c, m, i, j, c.resolution)
    ensures SidedDown(m, c, i)
  {
    hide PlacedFrom, North, West, Span;
    PlacedStarts(m, c, i, j);
    PlacedEnds(m, c, i, j);
    if i.Some? {
      NorthIs(m, i.value);
    }
    if c.south.Some? {
      Apart(m, c.north.value, c.south.value, c.resolution.value);
    }
  }

  lemma PlacedAcross(m: Mapping, c: Canonical, i: Option<real>, j: Option<real>)
    requires Indexed(m) && IndexGeometry(m) && PlacedFrom(c, m, i, j, c.resolution)
    ensures SidedAcross(m, c, j)
  {
    hide PlacedFrom, North, West, Span;
    PlacedStarts(m, c, i, j);
    PlacedEnds(m, c, i, j);
    if j.Some? {
      WestIs(m, j.value);
    }
    if c.east.Some? {
      Apart(m, c.east.value, c.west.value, c.resolution.value);
    }
  }

  lemma NorthIs(m: Mapping, row: real)
    requires Indexed(m) && IndexGeometry(m)
    ensures (m.originLat.value - North(m, row)) * m.unitsPerDegree.value == row
  {
    DivideBack(row, m.unitsPerDegree.value);
    assert m.originLat.value - North(m, row) == row / m.unitsPerDegree.value;
  }

  lemma WestIs(m: Mapping, column: real)
    requires Indexed(m) && IndexGeometry(m)
    ensures (West(m, column) - m.originLon.value) * m.unitsPerDegree.value == column
  {
    DivideBack(column, m.unitsPerDegree.value);
    assert West(m, column) - m.originLon.value == column / m.unitsPerDegree.value;
  }

  lemma SpanIs(m: Mapping, resolution: real)
    requires Indexed(m) && IndexGeometry(m)
    ensures Span(m, resolution) * m.unitsPerDegree.value * m.baseResolution.value == resolution
  {
    DivideBack(resolution / m.baseResolution.value, m.unitsPerDegree.value);
    DivideBack(resolution, m.baseResolution.value);
  }
}
