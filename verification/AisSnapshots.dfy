/** Periodic snapshots of vessels: each (snapshot time, vessel) keeps the row nearest before the snapshot. */
module AisSnapshots {
  import opened Prelude
  import AisMerge

  /** Times are in microseconds. */
  const SECOND := 1_000_000
  const DAY := 86_400 * 1_000_000

  // ----- the snapshot time of an event -----------------------------------------------------------------------------

  function IntervalSeconds(hours: int): (s: int)
    ensures s >= 3600
  {
    (if hours > 1 then hours else 1) * 3600
  }

  function DayStart(time: int): (start: int)
    ensures start <= time < start + DAY
  {
    time - time % DAY
  }

  /** The seconds from midnight to the snapshot of an event so many microseconds after midnight. */
  function Offset(since: int, interval: int): int
    requires interval > 0
  {
    var elapsed := since / SECOND;
    if elapsed % interval == 0 && since % SECOND == 0 then elapsed else (elapsed / interval + 1) * interval
  }

  /** `_ceil_snapshot_at`. */
  function CeilSnapshotAt(time: int, hours: int): Option<(int, int)> {
    var interval := IntervalSeconds(hours);
    var start := DayStart(time);
    var at := start + Offset(time - start, interval) * SECOND;
    var before := Truncated(at - time);
    if before < 0 then None else Some((at, before))
  }

  /** `int(total_seconds())`: truncation towards zero. */
  function Truncated(microseconds: int): int {
    if microseconds >= 0 then microseconds / SECOND else -((-microseconds) / SECOND)
  }

  /** A point of the grid that starts at the event's midnight. */
  ghost predicate GridPoint(start: int, hours: int, at: int) {
    exists k: nat :: at == GridAt(start, hours, k)
  }

  function GridAt(start: int, hours: int, k: nat): int {
    start + k * IntervalSeconds(hours) * SECOND
  }

  lemma GridGrows(start: int, hours: int, j: nat, k: nat)
    requires j < k
    ensures GridAt(start, hours, j) + IntervalSeconds(hours) * SECOND <= GridAt(start, hours, k)
  {
    var interval := IntervalSeconds(hours);
    assert (j + 1) * interval <= k * interval;
    assert (j + 1) * interval == j * interval + interval;
  }

  /** Where the ceiling lands: the least multiple of the interval that is not before the event. */
  lemma CeilOffset(since: int, interval: int)
    requires since >= 0 && interval > 0
    ensures var offset := Offset(since, interval);
            && since <= offset * SECOND < since + interval * SECOND
            && exists k: nat :: offset == Multiple(k, interval)
  {
    var elapsed := since / SECOND;
    assert elapsed == (elapsed / interval) * interval + elapsed % interval;
    if elapsed % interval == 0 && since % SECOND == 0 {
      assert elapsed == Multiple(elapsed / interval, interval);
    } else {
      assert (elapsed / interval + 1) * interval == (elapsed / interval) * interval + interval;
      assert (elapsed / interval + 1) * interval == Multiple(elapsed / interval + 1, interval);
    }
  }

  function Multiple(k: nat, interval: int): int {
    k * interval
  }

  /** The snapshot time is the least grid point of the day at or after the event, less than one interval away: there always
      is one. */
  lemma SnapshotTimeIsCeiling(time: int, hours: int)
    ensures var r := CeilSnapshotAt(time, hours);
            && r.Some?
            && GridPoint(DayStart(time), hours, r.value.0)
            && time <= r.value.0
            && (forall k: nat :: time <= GridAt(DayStart(time), hours, k) ==> r.value.0 <= GridAt(DayStart(time), hours, k))
            && 0 <= r.value.1 < (if hours < 1 then 3600 else hours * 3600)
            && r.value.1 * SECOND <= r.value.0 - time < (r.value.1 + 1) * SECOND
            && DayStart(time) % DAY == 0 && DayStart(time) <= time < DayStart(time) + DAY
            && (forall k: nat :: GridAt(DayStart(time), hours, k) == DayStart(time) + k * (if hours < 1 then 3600 else hours * 3600) * SECOND)
  {
    hide *;
    var start := DayStart(time);
    CeilOffset(time - start, IntervalSeconds(hours));
    var offset := Offset(time - start, IntervalSeconds(hours));
    var j: nat :| offset == Multiple(j, IntervalSeconds(hours));
    OnGrid(start, hours, j);
    SecondsBefore(start + offset * SECOND - time, IntervalSeconds(hours));
    CeilIs(time, hours);
    LeastOnGrid(time, start, hours, j);
    MidnightDivides(time);
    forall k: nat
      ensures GridAt(start, hours, k) == start + k * (if hours < 1 then 3600 else hours * 3600) * SECOND
    {
      GridIs(start, hours, k);
    }
    GridIs(start, hours, j);
  }

  lemma GridIs(start: int, hours: int, k: nat)
    ensures IntervalSeconds(hours) == if hours < 1 then 3600 else hours * 3600
    ensures GridAt(start, hours, k) == start + k * (if hours < 1 then 3600 else hours * 3600) * SECOND
  {
  }

  /** Midnights are on one grid with each other if the interval divides the day. */
  lemma MidnightsAlign(a: int, b: int, hours: int)
    requires 86_400 % IntervalSeconds(hours) == 0 && a % DAY == 0 && b % DAY == 0
    ensures (a - b) % (IntervalSeconds(hours) * SECOND) == 0
  {
    var interval := IntervalSeconds(hours);
    var q, n := 86_400 / interval, a / DAY - b / DAY;
    assert 86_400 == q * interval;
    assert DAY == q * (interval * SECOND);
    assert a - b == n * DAY;
    assert n * (q * (interval * SECOND)) == (n * q) * (interval * SECOND);
    MultipleDivides(n * q, interval * SECOND);
  }

  lemma MultipleDivides(n: int, d: int)
    requires d > 0
    ensures (n * d) % d == 0
  {
    var p := n * d;
    DivisionIs(p, d);
    assert (n - p / d) * d == p % d;
    OnlyZeroFits(n - p / d, d);
  }

  lemma DivisionIs(p: int, d: int)
    requires d > 0
    ensures p == (p / d) * d + p % d && 0 <= p % d < d
  {
  }

  lemma OnlyZeroFits(n: int, d: int)
    requires d > 0 && 0 <= n * d < d
    ensures n == 0
  {
  }

  /** Points of a grid are a multiple of its interval apart, so two within one interval are equal. */
  lemma GridApart(x: int, y: int, d: int)
    requires d > 0 && (x - y) % d == 0 && -d < x - y < d
    ensures x == y
  {
  }

  lemma OnOneGrid(a: int, b: int, x: int, y: int, d: int)
    requires d > 0 && (a - b) % d == 0 && (x - a) % d == 0 && (y - b) % d == 0
    ensures (x - y) % d == 0
  {
    var i, j, k := (a - b) / d, (x - a) / d, (y - b) / d;
    assert a - b == i * d && x - a == j * d && y - b == k * d;
    assert x - y == (j + i - k) * d;
    MultipleDivides(j + i - k, d);
  }

  lemma GridPointDivides(start: int, hours: int, at: int)
    requires GridPoint(start, hours, at)
    ensures (at - start) % (IntervalSeconds(hours) * SECOND) == 0
  {
    var k: nat :| at == GridAt(start, hours, k);
    assert k * IntervalSeconds(hours) * SECOND == k * (IntervalSeconds(hours) * SECOND);
    MultipleDivides(k, IntervalSeconds(hours) * SECOND);
  }

  lemma CeilOnGrid(time: int, hours: int)
    ensures var r, d := CeilSnapshotAt(time, hours), IntervalSeconds(hours) * SECOND;
            r.Some? && (r.value.0 - DayStart(time)) % d == 0 && time <= r.value.0 < time + d
  {
    SnapshotTimeIsCeiling(time, hours);
    hide *;
    GridPointDivides(DayStart(time), hours, CeilSnapshotAt(time, hours).value.0);
    CeilOffset(time - DayStart(time), IntervalSeconds(hours));
    CeilIs(time, hours);
  }

  lemma MidnightDivides(time: int)
    ensures DayStart(time) % DAY == 0
  {
  }

  /** If the interval divides the day, a later event has the same snapshot exactly when it is not after that snapshot. */
  lemma SameSnapshotIff(earlier: int, later: int, hours: int)
    requires 86_400 % IntervalSeconds(hours) == 0 && earlier <= later
    ensures CeilSnapshotAt(earlier, hours).Some? && CeilSnapshotAt(later, hours).Some?
    ensures CeilSnapshotAt(later, hours).value.0 == CeilSnapshotAt(earlier, hours).value.0 <==>
            later <= CeilSnapshotAt(earlier, hours).value.0
  {
    hide *;
    var d := IntervalSeconds(hours) * SECOND;
    CeilOnGrid(earlier, hours);
    CeilOnGrid(later, hours);
    MidnightDivides(earlier);
    MidnightDivides(later);
    MidnightsAlign(DayStart(earlier), DayStart(later), hours);
    var x, y := CeilSnapshotAt(earlier, hours).value.0, CeilSnapshotAt(later, hours).value.0;
    OnOneGrid(DayStart(earlier), DayStart(later), x, y, d);
    if later <= x {
      GridApart(x, y, d);
    }
  }

  /** If it does not, the grid starts anew at midnight: an event at eleven in the evening has its snapshot an hour after
      midnight, and one at midnight has its own. */
  lemma SnapshotsGoBack(midnight: int)
    requires midnight % DAY == 0
    ensures var hour := 3600 * SECOND;
            && CeilSnapshotAt(midnight + 23 * hour, 5) == Some((midnight + 25 * hour, 7200))
            && CeilSnapshotAt(midnight + 24 * hour, 5) == Some((midnight + 24 * hour, 0))
  {
    DayOf(midnight, 23 * 3600 * SECOND);
    DayOf(midnight + DAY, 0);
    assert IntervalSeconds(5) == 18_000;
    assert Offset(23 * 3600 * SECOND, 18_000) == 25 * 3600 && Offset(0, 18_000) == 0;
    hide Offset, DayStart, IntervalSeconds;
  }

  lemma DayOf(midnight: int, since: int)
    requires midnight % DAY == 0 && 0 <= since < DAY
    ensures DayStart(midnight + since) == midnight
  {
  }

  lemma LeastOnGrid(time: int, start: int, hours: int, j: nat)
    requires GridAt(start, hours, j) < time + IntervalSeconds(hours) * SECOND
    ensures forall k: nat :: time <= GridAt(start, hours, k) ==> GridAt(start, hours, j) <= GridAt(start, hours, k)
  {
    hide GridAt;
    forall k: nat | time <= GridAt(start, hours, k) ensures GridAt(start, hours, j) <= GridAt(start, hours, k) {
      if k < j {
        GridGrows(start, hours, k, j);
      } else if j < k {
        GridGrows(start, hours, j, k);
      }
    }
  }

  lemma OnGrid(start: int, hours: int, k: nat)
    ensures start + Multiple(k, IntervalSeconds(hours)) * SECOND == GridAt(start, hours, k)
    ensures GridPoint(start, hours, GridAt(start, hours, k))
  {
    hide IntervalSeconds;
  }

  lemma CeilIs(time: int, hours: int)
    ensures var at := DayStart(time) + Offset(time - DayStart(time), IntervalSeconds(hours)) * SECOND;
            CeilSnapshotAt(time, hours) == if Truncated(at - time) < 0 then None else Some((at, Truncated(at - time)))
  {
    hide Offset, Truncated, DayStart, IntervalSeconds;
  }

  lemma SecondsBefore(distance: int, interval: int)
    requires 0 <= distance < interval * SECOND
    ensures 0 <= Truncated(distance) < interval
    ensures Truncated(distance) * SECOND <= distance < (Truncated(distance) + 1) * SECOND
  {
  }

  // ----- the table ----------------------------------------------------------------------------------------------------

  type Key = (int, string)

  datatype Snapshot = Snapshot(
    time: int, secondsBefore: int, lat: real, lon: real,
    speed: Option<real>, course: Option<real>, heading: Option<real>, name: Option<string>, source: string)

  /** `_snapshot_values`: the row a message offers, unless it has no position or is too far before the snapshot. */
  function Offer(u: AisMerge.Update, hours: int, windowHours: int): Option<(Key, Snapshot)> {
    if u.position.None? then None
    else
      var p := u.position.value;
      var target := CeilSnapshotAt(p.time, hours);
      if target.None? || target.value.1 > windowHours * 3600 then None
      else Some(((target.value.0, u.mmsi),
                 Snapshot(p.time, target.value.1, p.lat, p.lon, p.speed, p.course, p.heading,
                          if u.static_.Some? then Some(u.static_.value.name) else None, u.receipt.source)))
  }

  /** The update of an existing row sets what the new one has. */
  function Overwrite(stored: Snapshot, offered: Snapshot): Snapshot {
    Snapshot(offered.time, offered.secondsBefore, offered.lat, offered.lon,
             AisMerge.Keep(offered.speed, stored.speed), AisMerge.Keep(offered.course, stored.course),
             AisMerge.Keep(offered.heading, stored.heading),
             if offered.name.Some? then offered.name else stored.name, offered.source)
  }

  function Stored(table: map<Key, Snapshot>, offer: Option<(Key, Snapshot)>): map<Key, Snapshot> {
    if offer.None? then table
    else
      var (key, row) := offer.value;
      if key !in table then table[key := row]
      else if table[key].secondsBefore > row.secondsBefore then table[key := Overwrite(table[key], row)]
      else table
  }

  function StoredAll(table: map<Key, Snapshot>, rows: seq<AisMerge.Update>, hours: int, windowHours: int): map<Key, Snapshot> {
    if rows == [] then table
    else Stored(StoredAll(table, rows[..|rows| - 1], hours, windowHours), Offer(rows[|rows| - 1], hours, windowHours))
  }

  /** A row is skipped if it offers nothing, or nothing nearer than what is stored for its key when its turn comes. */
  function Skipped(table: map<Key, Snapshot>, rows: seq<AisMerge.Update>, hours: int, windowHours: int): (n: nat)
    ensures n <= |rows|
  {
    if rows == [] then 0
    else
      var before := StoredAll(table, rows[..|rows| - 1], hours, windowHours);
      var offer := Offer(rows[|rows| - 1], hours, windowHours);
      var kept := offer.Some? && (offer.value.0 in before ==> before[offer.value.0].secondsBefore > offer.value.1.secondsBefore);
      Skipped(table, rows[..|rows| - 1], hours, windowHours) + if kept then 0 else 1
  }

  class AisSnapshotTable {
    const hours: int
    const windowHours: int
    const enabled: bool
    var table: map<Key, Snapshot>
    var writtenRows: nat
    var skippedRows: nat

    constructor (enabled: bool, hours: int, windowHours: int)
      ensures this.enabled == enabled && this.hours == hours && this.windowHours == windowHours && table == map[]
    {
      this.enabled, this.hours, this.windowHours := enabled, hours, windowHours;
      table, writtenRows, skippedRows := map[], 0, 0;
    }

    method UpsertSnapshotRows(rows: seq<AisMerge.Update>)
      modifies this
      ensures table == if enabled then StoredAll(old(table), rows, hours, windowHours) else old(table)
      ensures skippedRows == old(skippedRows) + if enabled then Skipped(old(table), rows, hours, windowHours) else 0
      ensures writtenRows == old(writtenRows) + if enabled then |rows| - Skipped(old(table), rows, hours, windowHours) else 0
    {
      if rows == [] || !enabled {
        return;
      }
      hide Offer;
      var k := 0;
      while k < |rows|
        invariant 0 <= k <= |rows|
        invariant table == StoredAll(old(table), rows[..k], hours, windowHours)
        invariant skippedRows == old(skippedRows) + Skipped(old(table), rows[..k], hours, windowHours)
        invariant writtenRows == old(writtenRows) + k - Skipped(old(table), rows[..k], hours, windowHours)
      {
        assert rows[..k + 1][..k] == rows[..k];
        var offer := Offer(rows[k], hours, windowHours);
        if offer.None? {
          skippedRows := skippedRows + 1;
        } else {
          var (key, row) := offer.value;
          if key in table && table[key].secondsBefore > row.secondsBefore {
            table := table[key := Overwrite(table[key], row)];
            writtenRows := writtenRows + 1;
          } else if key in table {
            skippedRows := skippedRows + 1;
          } else {
            table := table[key := row];
            writtenRows := writtenRows + 1;
          }
        }
        k := k + 1;
      }
      assert rows[..|rows|] == rows;
    }
  }

  /** A message is offered to the snapshot its position belongs to, if it lies within the window before it. */
  ghost predicate OfferedTo(u: AisMerge.Update, hours: int, windowHours: int, key: Key, before: int) {
    && u.position.Some? && key.1 == u.mmsi && before <= windowHours * 3600
    && CeilSnapshotAt(u.position.value.time, hours) == Some((key.0, before))
  }

  /** What one offered message does to a snapshot's row: with no row yet, or one that is further away, time, place, distance and
      source become the message's, and so does each optional field that it carries; those it does not carry stay as they were.
      A row that is as near already stays as it is, and so does every row the message is not offered to. */
  lemma OneOffer(table: map<Key, Snapshot>, u: AisMerge.Update, hours: int, windowHours: int, key: Key)
    ensures var after := Stored(table, Offer(u, hours, windowHours));
            && (forall before :: OfferedTo(u, hours, windowHours, key, before) && (key in table ==> table[key].secondsBefore > before) ==>
                  && key in after
                  && var row, p := after[key], u.position.value;
                     && row.time == p.time && row.lat == p.lat && row.lon == p.lon && row.secondsBefore == before
                     && row.source == u.receipt.source
                     && row.speed == (if p.speed.None? && key in table then table[key].speed else p.speed)
                     && row.course == (if p.course.None? && key in table then table[key].course else p.course)
                     && row.heading == (if p.heading.None? && key in table then table[key].heading else p.heading)
                     && (u.static_.Some? ==> row.name == Some(u.static_.value.name))
                     && (u.static_.None? ==> row.name == if key in table then table[key].name else None))
            && ((forall before :: OfferedTo(u, hours, windowHours, key, before) ==> key in table && table[key].secondsBefore <= before) ==>
                  && (key in after <==> key in table) && (key in table ==> after[key] == table[key]))
  {
    hide CeilSnapshotAt;
    var offer := Offer(u, hours, windowHours);
    if offer.Some? && offer.value.0 == key {
      assert OfferedTo(u, hours, windowHours, key, offer.value.1.secondsBefore);
    }
  }

  // ----- what is kept ------------------------------------------------------------------------------------------------------

  /** What was known for one key: the stored row, then the offers in order of arrival. */
  function Known(table: map<Key, Snapshot>, rows: seq<AisMerge.Update>, hours: int, windowHours: int, key: Key): seq<Snapshot> {
    if rows == [] then (if key in table then [table[key]] else [])
    else
      var offer := Offer(rows[|rows| - 1], hours, windowHours);
      Known(table, rows[..|rows| - 1], hours, windowHours, key)
      + if offer.Some? && offer.value.0 == key then [offer.value.1] else []
  }

  /** Row i is the first of the nearest ones. */
  ghost predicate FirstNearest(known: seq<Snapshot>, i: int) {
    && 0 <= i < |known|
    && (forall j :: 0 <= j < |known| ==> known[i].secondsBefore <= known[j].secondsBefore)
    && (forall j :: 0 <= j < i ==> known[i].secondsBefore < known[j].secondsBefore)
  }

  /** After any upserts each key stores the least distance ever offered for it, with the time and place of the first row
      that attained it. */
  lemma {:induction false} NearestRowIsKept(table: map<Key, Snapshot>, rows: seq<AisMerge.Update>, hours: int, windowHours: int, key: Key)
    returns (i: int)
    ensures var known := Known(table, rows, hours, windowHours, key);
            var after := StoredAll(table, rows, hours, windowHours);
            && (key in after <==> known != [])
            && (key in after ==>
                  && FirstNearest(known, i)
                  && after[key].secondsBefore == known[i].secondsBefore && after[key].time == known[i].time
                  && after[key].lat == known[i].lat && after[key].lon == known[i].lon)
  {
    hide Offer;
    i := 0;
    if rows != [] {
      var before := rows[..|rows| - 1];
      i := NearestRowIsKept(table, before, hours, windowHours, key);
      var offer := Offer(rows[|rows| - 1], hours, windowHours);
      if offer.Some? && offer.value.0 == key {
        var known := Known(table, before, hours, windowHours, key);
        if known == [] || known[i].secondsBefore > offer.value.1.secondsBefore {
          i := |known|;
        }
      }
    }
  }

  /** Every stored row lies before its snapshot by less than one interval, within the window. */
  ghost predicate Near(table: map<Key, Snapshot>, hours: int, windowHours: int) {
    forall key :: key in table ==>
      && CeilSnapshotAt(table[key].time, hours) == Some((key.0, table[key].secondsBefore))
      && table[key].secondsBefore <= windowHours * 3600
  }

  /** Upserts keep every row under the snapshot time of its own event. */
  lemma {:induction false} UpsertsStayNear(table: map<Key, Snapshot>, rows: seq<AisMerge.Update>, hours: int, windowHours: int)
    requires Near(table, hours, windowHours)
    ensures Near(StoredAll(table, rows, hours, windowHours), hours, windowHours)
  {
    hide CeilSnapshotAt;
    if rows != [] {
      UpsertsStayNear(table, rows[..|rows| - 1], hours, windowHours);
    }
  }
}
