/** Snapshots and the placement of flushes: a worker offers the merged row of each flush, so which positions are ever offered
    depends on the schedule. When does that show? */
module AisSnapshotSchedules {
  import opened Prelude
  import opened Sequences
  import opened AisMerge
  import opened AisSchedules
  import Snapshots = AisSnapshots

  type Key = Snapshots.Key
  type Snapshot = Snapshots.Snapshot
  type Table = map<Key, Snapshot>

  /** `snapshot_interval_hours` and `snapshot_window_hours`. */
  datatype Settings = Settings(hours: int, windowHours: int)

  function Offer(u: Update, c: Settings): Option<(Key, Snapshot)> {
    Snapshots.Offer(u, c.hours, c.windowHours)
  }

  function StoredAll(table: Table, rows: seq<Update>, c: Settings): Table {
    Snapshots.StoredAll(table, rows, c.hours, c.windowHours)
  }

  function At(table: Table, key: Key): Option<Snapshot> {
    if key in table then Some(table[key]) else None
  }

  /** What an offer makes of the row under one key. */
  function StoredAt(row: Option<Snapshot>, offer: Option<(Key, Snapshot)>, key: Key): Option<Snapshot> {
    if offer.None? || offer.value.0 != key then row
    else if row.None? then Some(offer.value.1)
    else if row.value.secondsBefore > offer.value.1.secondsBefore then Some(Snapshots.Overwrite(row.value, offer.value.1))
    else row
  }

  lemma StoredIsAt(table: Table, offer: Option<(Key, Snapshot)>, key: Key)
    ensures At(Snapshots.Stored(table, offer), key) == StoredAt(At(table, key), offer, key)
  {
  }

  lemma StoredAllStep(table: Table, rows: seq<Update>, last: Update, c: Settings, key: Key)
    ensures At(StoredAll(table, rows + [last], c), key) == StoredAt(At(StoredAll(table, rows, c), key), Offer(last, c), key)
    ensures StoredAll(table, [], c) == table
  {
    hide StoredAt, Snapshots.Offer, Snapshots.Stored;
    assert (rows + [last])[..|rows|] == rows;
    StoredIsAt(StoredAll(table, rows, c), Offer(last, c), key);
  }

  // ----- the worker's snapshots -------------------------------------------------------------------------------------------

  function OfferedKeys(buffer: map<string, Update>, c: Settings): set<Key> {
    set m | m in buffer && Offer(buffer[m], c).Some? && buffer[m].mmsi == m :: Offer(buffer[m], c).value.0
  }

  /** The table after every buffered row is offered: the rows are of different vessels, so their order does not matter. */
  function StoredBuffer(table: Table, buffer: map<string, Update>, c: Settings): Table {
    map key | key in table.Keys + OfferedKeys(buffer, c) && StoredAt(At(table, key), BufferOffer(buffer, key.1, c), key).Some? ::
      StoredAt(At(table, key), BufferOffer(buffer, key.1, c), key).value
  }

  function BufferOffer(buffer: map<string, Update>, m: string, c: Settings): Option<(Key, Snapshot)> {
    if m in buffer then Offer(buffer[m], c) else None
  }

  /** The table of a worker that started with this one, after some ticks. */
  function SnapshotRun(s: Schedule, st: State, ticks: seq<Tick>, table: Table, c: Settings): Table {
    if ticks == [] then table
    else
      var before, last := ticks[..|ticks| - 1], ticks[|ticks| - 1];
      var stored, now := SnapshotRun(s, st, before, table, c), Run(s, st, before);
      if Flushes(s, now, last) then StoredBuffer(stored, Buffered(now.buffer, last), c) else stored
  }

  lemma OfferKey(u: Update, c: Settings)
    ensures Offer(u, c).Some? ==> Offer(u, c).value.0.1 == u.mmsi
  {
    hide Snapshots.CeilSnapshotAt;
  }

  lemma StoredBufferAt(table: Table, buffer: map<string, Update>, c: Settings, key: Key)
    requires key.1 in buffer ==> buffer[key.1].mmsi == key.1
    ensures At(StoredBuffer(table, buffer, c), key) == StoredAt(At(table, key), BufferOffer(buffer, key.1, c), key)
  {
    hide Snapshots.Offer, Snapshots.Overwrite;
  }

  lemma {:induction false} StoredRowsAt(table: Table, rows: seq<Update>, c: Settings, key: Key, k: int)
    requires forall i, j :: 0 <= i < j < |rows| ==> rows[i].mmsi != rows[j].mmsi
    requires 0 <= k < |rows| ==> rows[k].mmsi == key.1
    requires !(0 <= k < |rows|) ==> forall i :: 0 <= i < |rows| ==> rows[i].mmsi != key.1
    ensures At(StoredAll(table, rows, c), key) ==
            if 0 <= k < |rows| then StoredAt(At(table, key), Offer(rows[k], c), key) else At(table, key)
  {
    hide Snapshots.Offer, Offer, Snapshots.Overwrite, StoredAll;
    if rows == [] {
      NothingOffered(table, c);
    } else {
      var before, last := rows[..|rows| - 1], rows[|rows| - 1];
      assert rows == before + [last];
      StoredAllStep(table, before, last, c, key);
      OfferKey(last, c);
      StoredRowsAt(table, before, c, key, if k == |rows| - 1 then -1 else k);
    }
  }

  lemma NothingOffered(table: Table, c: Settings)
    ensures StoredAll(table, [], c) == table
  {
  }

  /** Offering the rows of a buffer one after the other, in any order, gives that table. */
  lemma FlushIsStored(table: Table, rows: seq<Update>, buffer: map<string, Update>, c: Settings)
    requires Lists(rows, buffer)
    ensures StoredAll(table, rows, c) == StoredBuffer(table, buffer, c)
  {
    forall key ensures At(StoredAll(table, rows, c), key) == At(StoredBuffer(table, buffer, c), key) {
      hide StoredAll, StoredAt, Offer, StoredBuffer;
      if key.1 in buffer {
        var k :| 0 <= k < |rows| && rows[k].mmsi == key.1;
        StoredRowsAt(table, rows, c, key, k);
      } else {
        StoredRowsAt(table, rows, c, key, -1);
      }
      StoredBufferAt(table, buffer, c, key);
    }
    SameTables(StoredAll(table, rows, c), StoredBuffer(table, buffer, c));
  }

  lemma SameTables(a: Table, b: Table)
    requires forall key :: At(a, key) == At(b, key)
    ensures a == b
  {
    forall key ensures key in a <==> key in b {
      assert At(a, key) == At(b, key);
    }
    forall key | key in a ensures a[key] == b[key] {
      assert At(a, key) == At(b, key);
    }
  }

  // ----- by batches -------------------------------------------------------------------------------------------------------

  /** What the flushes offer of one vessel. */
  function MergedRows(batches: seq<seq<Update>>): seq<Update> {
    if batches == [] then []
    else
      var merged := MergeAll(batches[|batches| - 1]);
      MergedRows(batches[..|batches| - 1]) + if merged.Some? then [merged.value] else []
  }

  /** The same messages one by one. */
  function SingleRows(batches: seq<seq<Update>>): seq<Update> {
    if batches == [] then [] else SingleRows(batches[..|batches| - 1]) + batches[|batches| - 1]
  }

  lemma MergedRowsAppend(batches: seq<seq<Update>>, last: seq<Update>)
    ensures MergedRows(batches + [last]) == MergedRows(batches) + (if MergeAll(last).Some? then [MergeAll(last).value] else [])
    ensures SingleRows(batches + [last]) == SingleRows(batches) + last
  {
    hide MergeAll;
    assert (batches + [last])[..|batches|] == batches;
  }

  /** The snapshots of a vessel are those of its flushed batches. */
  lemma {:induction false} SnapshotsAreBatches(s: Schedule, store: map<string, Vessel>, start: real, ticks: seq<Tick>, table: Table, c: Settings, key: Key)
    ensures At(SnapshotRun(s, State(store, map[], start), ticks, table, c), key) ==
            At(StoredAll(table, MergedRows(CutsOf(s, State(store, map[], start), ticks, key.1).written), c), key)
  {
    hide Offer, StoredAll, StoredAt, StoredBuffer, MergeAll, Buffered, FlushDue, Flushed, Step, MergedRows;
    var st0, m := State(store, map[], start), key.1;
    if ticks == [] {
      NothingOffered(table, c);
      NothingMerged();
    } else {
      var before, last := ticks[..|ticks| - 1], ticks[|ticks| - 1];
      SnapshotsAreBatches(s, store, start, before, table, c, key);
      var cuts, st := CutsOf(s, st0, before, m), Run(s, st0, before);
      if Flushes(s, st, last) {
        var open, buffer := cuts.open + OfTick(last, m), Buffered(st.buffer, last);
        RunIsBatches(s, store, start, before, m);
        ArrivalMatches(cuts, st, Get(store, m), Messages(before), m, last);
        MergeAllSome(open, m);
        StoredBufferAt(SnapshotRun(s, st0, before, table, c), buffer, c, key);
        MergedRowsAppend(cuts.written, open);
        BatchStored(table, MergedRows(cuts.written), MergeAll(open), c, key);
        assert Get(buffer, m) == MergeAll(open);
        assert BufferOffer(buffer, m, c) == if MergeAll(open).Some? then Offer(MergeAll(open).value, c) else None;
        assert MergedRows(cuts.written) + [] == MergedRows(cuts.written);
      }
    }
  }

  lemma NothingMerged()
    ensures MergedRows([]) == [] && SingleRows([]) == []
  {
  }

  lemma BatchStored(table: Table, rows: seq<Update>, merged: Option<Update>, c: Settings, key: Key)
    ensures At(StoredAll(table, rows + (if merged.Some? then [merged.value] else []), c), key) ==
            StoredAt(At(StoredAll(table, rows, c), key), if merged.Some? then Offer(merged.value, c) else None, key)
  {
    hide Offer, StoredAll;
    if merged.Some? {
      StoredAllStep(table, rows, merged.value, c, key);
    } else {
      assert rows + [] == rows;
    }
  }

  lemma {:induction false} InMergedRows(batches: seq<seq<Update>>, u: Update)
    ensures u in MergedRows(batches) <==> exists j :: 0 <= j < |batches| && MergeAll(batches[j]) == Some(u)
  {
    hide MergeAll;
    if batches != [] {
      var before := batches[..|batches| - 1];
      InMergedRows(before, u);
      assert forall j :: 0 <= j < |before| ==> before[j] == batches[j];
    }
  }

  lemma {:induction false} InSingleRows(batches: seq<seq<Update>>, u: Update)
    ensures u in SingleRows(batches) <==> exists j :: 0 <= j < |batches| && u in batches[j]
  {
    if batches != [] {
      var before := batches[..|batches| - 1];
      InSingleRows(before, u);
      assert forall j :: 0 <= j < |before| ==> before[j] == batches[j];
    }
  }

  /** The messages of one vessel. */
  function MessagesOf(messages: seq<Update>, m: string): seq<Update> {
    if messages == [] then []
    else MessagesOf(messages[..|messages| - 1], m) + if messages[|messages| - 1].mmsi == m then [messages[|messages| - 1]] else []
  }

  /** The flushed messages and those still buffered are all the vessel's messages, in order. */
  lemma {:induction false} SinglesAreMessages(s: Schedule, st: State, ticks: seq<Tick>, m: string)
    ensures var cuts := CutsOf(s, st, ticks, m); SingleRows(cuts.written) + cuts.open == MessagesOf(Messages(ticks), m)
  {
    if ticks == [] {
      NothingMerged();
    } else {
      var before, last := ticks[..|ticks| - 1], ticks[|ticks| - 1];
      SinglesAreMessages(s, st, before, m);
      TickMessages(ticks, m);
      var cuts := CutsOf(s, st, before, m);
      hide Flushes, Run, MessagesOf, Messages, SingleRows, OfTick;
      CutsKeepMessages(cuts, OfTick(last, m), Flushes(s, Run(s, st, before), last));
    }
  }

  lemma TickMessages(ticks: seq<Tick>, m: string)
    requires ticks != []
    ensures MessagesOf(Messages(ticks), m) == MessagesOf(Messages(ticks[..|ticks| - 1]), m) + OfTick(ticks[|ticks| - 1], m)
  {
    var before, last := ticks[..|ticks| - 1], ticks[|ticks| - 1];
    if last.Message? {
      assert Messages(ticks) == Messages(before) + [last.update];
      assert (Messages(before) + [last.update])[..|Messages(before)|] == Messages(before);
    }
  }

  lemma CutsKeepMessages(cuts: Cuts, arrived: seq<Update>, flushes: bool)
    ensures var next := NextCuts(cuts, arrived, flushes);
            SingleRows(next.written) + next.open == SingleRows(cuts.written) + cuts.open + arrived
  {
    MergedRowsAppend(cuts.written, cuts.open + arrived);
    hide SingleRows, MergedRows;
    assert SingleRows(cuts.written) + (cuts.open + arrived) == SingleRows(cuts.written) + cuts.open + arrived;
    if flushes {
      var next := NextCuts(cuts, arrived, true);
      assert SingleRows(next.written) + [] == SingleRows(next.written);
    }
  }

  // ----- distances --------------------------------------------------------------------------------------------------------

  /** How far before the snapshot the stored row lies, and how far a message would put it. */
  function Distance(table: Table, key: Key): Option<int> {
    if key in table then Some(table[key].secondsBefore) else None
  }

  function Offered(u: Update, c: Settings, key: Key): Option<int> {
    var offer := Offer(u, c);
    if offer.Some? && offer.value.0 == key then Some(offer.value.1.secondsBefore) else None
  }

  /** The snapshot a message's position belongs to. */
  function SnapshotOf(u: Update, c: Settings): Option<int> {
    if u.position.None? then None
    else
      var at := Snapshots.CeilSnapshotAt(u.position.value.time, c.hours);
      if at.None? then None else Some(at.value.0)
  }

  /** The least of what is stored and what is offered. */
  ghost predicate Least(d: Option<int>, stored: Option<int>, rows: seq<Update>, c: Settings, key: Key) {
    && (stored.Some? ==> d.Some? && d.value <= stored.value)
    && (forall u :: u in rows && Offered(u, c, key).Some? ==> d.Some? && d.value <= Offered(u, c, key).value)
    && (d.Some? ==> stored == d || exists u :: u in rows && Offered(u, c, key) == d)
  }

  lemma {:induction false} DistanceIsLeast(table: Table, rows: seq<Update>, c: Settings, key: Key)
    ensures Least(Distance(StoredAll(table, rows, c), key), Distance(table, key), rows, c, key)
  {
    hide Offer, StoredAll;
    if rows == [] {
      NothingOffered(table, c);
    } else {
      var before, last := rows[..|rows| - 1], rows[|rows| - 1];
      assert rows == before + [last];
      DistanceIsLeast(table, before, c, key);
      DistanceStep(table, before, last, c, key);
      hide Distance, Offered;
    }
  }

  lemma DistanceStep(table: Table, rows: seq<Update>, last: Update, c: Settings, key: Key)
    ensures var was, offered := Distance(StoredAll(table, rows, c), key), Offered(last, c, key);
            Distance(StoredAll(table, rows + [last], c), key) ==
            if offered.None? || (was.Some? && was.value <= offered.value) then was else offered
  {
    hide Offer, StoredAll;
    StoredAllStep(table, rows, last, c, key);
    assert forall t: Table :: Distance(t, key) == (if At(t, key).Some? then Some(At(t, key).value.secondsBefore) else None);
  }

  lemma OfferedIs(u: Update, c: Settings, key: Key)
    ensures Offered(u, c, key).Some? <==>
            && u.position.Some? && u.mmsi == key.1 && SnapshotOf(u, c) == Some(key.0)
            && Snapshots.Truncated(key.0 - u.position.value.time) <= c.windowHours * 3600
    ensures Offered(u, c, key).Some? ==> Offered(u, c, key).value == Snapshots.Truncated(key.0 - u.position.value.time)
  {
    hide Snapshots.Truncated, Snapshots.Offset, Snapshots.DayStart, Snapshots.IntervalSeconds;
  }

  /** The merged position of a batch is its latest one. */
  lemma {:induction false} BatchIsLatest(us: seq<Update>, m: string) returns (i: int)
    requires us != [] && OfVessel(us, m)
    ensures MergeAll(us).Some? && MergeAll(us).value.mmsi == m
    ensures var merged := MergeAll(us).value.position;
            && (merged.None? ==> forall j :: 0 <= j < |us| ==> us[j].position.None?)
            && (merged.Some? ==>
                  && 0 <= i < |us| && PlaceOf(us[i].position) == PlaceOf(merged)
                  && forall j :: 0 <= j < |us| && us[j].position.Some? ==> us[j].position.value.time <= merged.value.time)
  {
    var n := |us| - 1;
    MergeAllSome(us, m);
    hide MergeAll, MergeStatic;
    if n == 0 {
      NothingMergedYet();
      assert us[..0] == [];
      i := 0;
    } else {
      i := BatchIsLatest(us[..n], m);
      if us[n].position.Some? && (MergeAll(us[..n]).value.position.None? || us[n].position.value.time >= MergeAll(us[..n]).value.position.value.time) {
        i := n;
      }
    }
  }

  lemma NothingMergedYet()
    ensures MergeAll([]) == None
  {
  }

  lemma NearerIsLater(key: int, earlier: int, later: int)
    requires earlier <= later
    ensures Snapshots.Truncated(key - later) <= Snapshots.Truncated(key - earlier)
  {
  }

  /** A batch offers its latest position: for the snapshot that position belongs to it offers at least as near a row as any of
      its messages, for every other one none. */
  lemma BatchOffersLatest(us: seq<Update>, c: Settings, key: Key)
    requires us != [] && OfVessel(us, key.1)
    ensures MergeAll(us).Some?
    ensures var merged := MergeAll(us).value;
            && (Offered(merged, c, key).Some? ==>
                  SnapshotOf(merged, c) == Some(key.0) && exists u :: u in us && Offered(u, c, key) == Offered(merged, c, key))
            && (forall u :: u in us && Offered(u, c, key).Some? && SnapshotOf(merged, c) == Some(key.0) ==>
                  Offered(merged, c, key).Some? && Offered(merged, c, key).value <= Offered(u, c, key).value)
  {
    hide MergeAll, Offered, SnapshotOf, Snapshots.Truncated;
    var i := BatchIsLatest(us, key.1);
    var merged := MergeAll(us).value;
    OfferedIs(merged, c, key);
    if merged.position.Some? {
      SamePlaceOffers(us[i], merged, c, key);
      assert us[i] in us;
    }
    forall u | u in us && Offered(u, c, key).Some? && SnapshotOf(merged, c) == Some(key.0)
      ensures Offered(merged, c, key).Some? && Offered(merged, c, key).value <= Offered(u, c, key).value
    {
      OfferedIs(u, c, key);
      NearerIsLater(key.0, u.position.value.time, merged.position.value.time);
    }
  }

  lemma SamePlaceOffers(u: Update, v: Update, c: Settings, key: Key)
    requires u.mmsi == v.mmsi && PlaceOf(u.position) == PlaceOf(v.position)
    ensures Offered(u, c, key) == Offered(v, c, key)
  {
    hide Snapshots.CeilSnapshotAt;
  }

  // ----- when the schedule shows ------------------------------------------------------------------------------------------

  /** A message at this distance was flushed together with no later position of another snapshot. */
  ghost predicate Survives(batch: seq<Update>, c: Settings, key: Key, d: Option<int>) {
    && MergeAll(batch).Some? && SnapshotOf(MergeAll(batch).value, c) == Some(key.0)
    && exists u :: u in batch && Offered(u, c, key) == d
  }

  lemma BatchesIff(table: Table, batches: seq<seq<Update>>, c: Settings, key: Key)
    requires Proper(batches, key.1)
    ensures var flushed := Distance(StoredAll(table, MergedRows(batches), c), key);
            var single := Distance(StoredAll(table, SingleRows(batches), c), key);
            && (flushed.Some? ==> single.Some? && single.value <= flushed.value)
            && (flushed == single <==>
                single.None? || Distance(table, key) == single || exists j :: 0 <= j < |batches| && Survives(batches[j], c, key, single))
  {
    var flushed := Distance(StoredAll(table, MergedRows(batches), c), key);
    var single := Distance(StoredAll(table, SingleRows(batches), c), key);
    DistanceIsLeast(table, MergedRows(batches), c, key);
    DistanceIsLeast(table, SingleRows(batches), c, key);
    hide Distance, StoredAll, MergedRows, SingleRows, MergeAll, Offered, SnapshotOf;
    forall j | 0 <= j < |batches| ensures MergeAll(batches[j]).Some? && MergeAll(batches[j]).value in MergedRows(batches) {
      BatchOffersLatest(batches[j], c, key);
      InMergedRows(batches, MergeAll(batches[j]).value);
    }
    if flushed.Some? && Distance(table, key) != flushed {
      var merged :| merged in MergedRows(batches) && Offered(merged, c, key) == flushed;
      InMergedRows(batches, merged);
      var j :| 0 <= j < |batches| && MergeAll(batches[j]) == Some(merged);
      BatchOffersLatest(batches[j], c, key);
      var u :| u in batches[j] && Offered(u, c, key) == flushed;
      InSingleRows(batches, u);
      assert Survives(batches[j], c, key, flushed);
    }
    if single.Some? && exists j :: 0 <= j < |batches| && Survives(batches[j], c, key, single) {
      var j :| 0 <= j < |batches| && Survives(batches[j], c, key, single);
      BatchOffersLatest(batches[j], c, key);
    }
  }

  /** How near a vessel's snapshot gets does not depend on the flush schedule exactly when nothing was offered, the stored row
      was as near already, or a nearest message was flushed in a batch whose latest position belongs to the same snapshot.
      Flushing never gets nearer than offering each message by itself. */
  lemma SnapshotScheduleIff(s: Schedule, store: map<string, Vessel>, start: real, ticks: seq<Tick>, table: Table, c: Settings, key: Key)
    ensures var batches := CutsOf(s, State(store, map[], start), ticks, key.1).written;
            var flushed := Distance(SnapshotRun(s, State(store, map[], start), ticks, table, c), key);
            var single := Distance(StoredAll(table, SingleRows(batches), c), key);
            && (flushed.Some? ==> single.Some? && single.value <= flushed.value)
            && (flushed == single <==>
                single.None? || Distance(table, key) == single || exists j :: 0 <= j < |batches| && Survives(batches[j], c, key, single))
  {
    hide CutsOf, Run, SnapshotRun, StoredAll, MergedRows, SingleRows, Survives;
    SnapshotsAreBatches(s, store, start, ticks, table, c, key);
    RunIsBatches(s, store, start, ticks, key.1);
    BatchesIff(table, CutsOf(s, State(store, map[], start), ticks, key.1).written, c, key);
  }

  /** If the interval divides the day, a message survives its flush exactly when nothing flushed with it is later than the
      snapshot. */
  lemma SurvivesIff(batch: seq<Update>, c: Settings, key: Key, d: Option<int>)
    requires OfVessel(batch, key.1) && d.Some? && 86_400 % Snapshots.IntervalSeconds(c.hours) == 0
    ensures Survives(batch, c, key, d) <==>
            && (exists u :: u in batch && Offered(u, c, key) == d)
            && forall u :: u in batch && u.position.Some? ==> u.position.value.time <= key.0
  {
    if exists u :: u in batch && Offered(u, c, key) == d {
      var u :| u in batch && Offered(u, c, key) == d;
      hide MergeAll, Offered, Snapshots.CeilSnapshotAt, Snapshots.Truncated, Snapshots.IntervalSeconds;
      OfferedIs(u, c, key);
      var i := BatchIsLatest(batch, key.1);
      var merged := MergeAll(batch).value;
      assert batch[i] in batch;
      Snapshots.SameSnapshotIff(u.position.value.time, merged.position.value.time, c.hours);
      assert SnapshotOf(merged, c) == Some(key.0) <==> merged.position.value.time <= key.0;
    }
  }

  // ----- places -----------------------------------------------------------------------------------------------------------

  function PlaceAt(table: Table, key: Key): Option<(int, real, real)> {
    if key in table then Some((table[key].time, table[key].lat, table[key].lon)) else None
  }

  /** A row is in the place of what made it as near as it is. */
  lemma {:induction false} RowHasAPlace(table: Table, rows: seq<Update>, c: Settings, key: Key)
    ensures var after := StoredAll(table, rows, c);
            key in after ==>
              || (Distance(table, key) == Distance(after, key) && PlaceAt(table, key) == PlaceAt(after, key))
              || exists u :: u in rows && Offered(u, c, key) == Distance(after, key) && PlaceOf(u.position) == PlaceAt(after, key)
  {
    hide StoredAll, Snapshots.CeilSnapshotAt;
    if rows == [] {
      NothingOffered(table, c);
    } else {
      var before, last := rows[..|rows| - 1], rows[|rows| - 1];
      assert rows == before + [last];
      RowHasAPlace(table, before, c, key);
      StoredAllStep(table, before, last, c, key);
      PlaceStep(At(StoredAll(table, before, c), key), last, c, key);
      TableAt(StoredAll(table, before, c), key);
      TableAt(StoredAll(table, rows, c), key);
      hide StoredAt, Offered, Offer, PlaceOf, Distance, PlaceAt, At;
    }
  }

  lemma TableAt(table: Table, key: Key)
    ensures Distance(table, key) == (if At(table, key).Some? then Some(At(table, key).value.secondsBefore) else None)
    ensures PlaceAt(table, key) ==
            if At(table, key).Some? then Some((At(table, key).value.time, At(table, key).value.lat, At(table, key).value.lon)) else None
    ensures key in table <==> At(table, key).Some?
  {
  }

  lemma PlaceStep(row: Option<Snapshot>, u: Update, c: Settings, key: Key)
    ensures var after := StoredAt(row, Offer(u, c), key);
            || after == row
            || (after.Some? && Offered(u, c, key) == Some(after.value.secondsBefore)
                && PlaceOf(u.position) == Some((after.value.time, after.value.lat, after.value.lon)))
  {
    hide Snapshots.CeilSnapshotAt;
  }

  /** Everything as near as this is in one place: the stored row and the messages. */
  ghost predicate InOnePlace(table: Table, rows: seq<Update>, c: Settings, key: Key, d: Option<int>, place: Option<(int, real, real)>) {
    && (Distance(table, key) == d ==> PlaceAt(table, key) == place)
    && forall u :: u in rows && Offered(u, c, key) == d ==> PlaceOf(u.position) == place
  }

  /** If a snapshot gets as near and its nearest messages agree on time and place, the flushed row has them too. */
  lemma SnapshotPlaceIndependence(s: Schedule, store: map<string, Vessel>, start: real, ticks: seq<Tick>, table: Table, c: Settings, key: Key,
      place: Option<(int, real, real)>)
    requires var batches := CutsOf(s, State(store, map[], start), ticks, key.1).written;
             var flushed := Distance(SnapshotRun(s, State(store, map[], start), ticks, table, c), key);
             && flushed.Some? && flushed == Distance(StoredAll(table, SingleRows(batches), c), key)
             && InOnePlace(table, SingleRows(batches), c, key, flushed, place)
    ensures var batches := CutsOf(s, State(store, map[], start), ticks, key.1).written;
            PlaceAt(SnapshotRun(s, State(store, map[], start), ticks, table, c), key) == place
            == PlaceAt(StoredAll(table, SingleRows(batches), c), key)
  {
    var batches := CutsOf(s, State(store, map[], start), ticks, key.1).written;
    SnapshotsAreBatches(s, store, start, ticks, table, c, key);
    RunIsBatches(s, store, start, ticks, key.1);
    hide CutsOf, Run, SnapshotRun, StoredAll, MergedRows, SingleRows, Offered, PlaceOf;
    TableAt(SnapshotRun(s, State(store, map[], start), ticks, table, c), key);
    TableAt(StoredAll(table, MergedRows(batches), c), key);
    TableAt(StoredAll(table, SingleRows(batches), c), key);
    hide At, Distance, PlaceAt;
    RowHasAPlace(table, SingleRows(batches), c, key);
    RowHasAPlace(table, MergedRows(batches), c, key);
    MergedInOnePlace(table, batches, c, key, Distance(StoredAll(table, SingleRows(batches), c), key), place);
  }

  lemma MergedInOnePlace(table: Table, batches: seq<seq<Update>>, c: Settings, key: Key, d: Option<int>, place: Option<(int, real, real)>)
    requires Proper(batches, key.1) && InOnePlace(table, SingleRows(batches), c, key, d, place) && d.Some?
    ensures InOnePlace(table, MergedRows(batches), c, key, d, place)
  {
    hide MergedRows, SingleRows, MergeAll, Offered, PlaceOf, Distance, PlaceAt;
    forall merged | merged in MergedRows(batches) && Offered(merged, c, key) == d ensures PlaceOf(merged.position) == place {
      InMergedRows(batches, merged);
      var j :| 0 <= j < |batches| && MergeAll(batches[j]) == Some(merged);
      var i := BatchIsLatest(batches[j], key.1);
      OfferedIs(merged, c, key);
      SamePlaceOffers(batches[j][i], merged, c, key);
      InSingleRows(batches, batches[j][i]);
      assert batches[j][i] in batches[j];
    }
  }

  // ----- two schedules ----------------------------------------------------------------------------------------------------

  lemma TwoMessageCuts(s: Schedule, store: map<string, Vessel>, a: Update, b: Update, m: string)
    requires a.mmsi == m && b.mmsi == m && (s == EAGER || s == PATIENT)
    ensures CutsOf(s, State(store, map[], 0.0), [Message(a, 0.5), Message(b, 1.0)], m).written == if s == EAGER then [[a], [b]] else [[a, b]]
  {
    var st0, first, second := State(store, map[], 0.0), Message(a, 0.5), Message(b, 1.0);
    var ticks := [first, second];
    assert ticks[..1] == [first] && [first][..0] == [];
    assert Run(s, st0, []) == st0 && CutsOf(s, st0, [], m) == Cuts([], []);
    assert Run(s, st0, [first]) == Step(s, st0, first);
    hide Flushed, MergePosition, MergeStatic;
    assert |map[m := a]| == |map[m := b]| == 1;
    assert Buffered(map[], first) == map[m := a] && Buffered(map[], second) == map[m := b];
    assert CutsOf(s, st0, [first], m) == NextCuts(Cuts([], []), [a], s == EAGER);
    assert Flushes(s, Run(s, st0, [first]), second);
    assert [] + [a] == [a] && [a] + [b] == [a, b] && [] + [b] == [b] && [[a]] + [[b]] == [[a], [b]];
  }

  /** Two messages on either side of a snapshot: a worker that flushes each keeps the snapshot, one that merges them has no row
      for it. */
  lemma SnapshotDependsOnFlush(store: map<string, Vessel>, a: Update, b: Update, table: Table, c: Settings, key: Key)
    requires a.mmsi == key.1 && b.mmsi == key.1 && a.position.Some? && b.position.Some?
    requires a.position.value.time <= b.position.value.time && SnapshotOf(b, c) != Some(key.0)
    requires Offered(a, c, key).Some? && key !in table
    ensures var st0, ticks := State(store, map[], 0.0), [Message(a, 0.5), Message(b, 1.0)];
            key in SnapshotRun(EAGER, st0, ticks, table, c) && key !in SnapshotRun(PATIENT, st0, ticks, table, c)
  {
    hide *;
    hide EAGER, PATIENT;
    TwoTables(store, a, b, table, c, key);
    OneBatch(a, b, c);
    BothOffered(a, b, table, c, key);
  }

  lemma TwoTables(store: map<string, Vessel>, a: Update, b: Update, table: Table, c: Settings, key: Key)
    requires a.mmsi == key.1 && b.mmsi == key.1
    ensures var st0, ticks := State(store, map[], 0.0), [Message(a, 0.5), Message(b, 1.0)];
            && (key in SnapshotRun(EAGER, st0, ticks, table, c) <==> key in StoredAll(table, [a, b], c))
            && (MergeAll([a, b]).Some? ==>
                  (key in SnapshotRun(PATIENT, st0, ticks, table, c) <==> key in StoredAll(table, [MergeAll([a, b]).value], c)))
  {
    var st0, ticks, m := State(store, map[], 0.0), [Message(a, 0.5), Message(b, 1.0)], key.1;
    assert EAGER != PATIENT;
    hide *;
    hide EAGER, PATIENT;
    TwoMessageCuts(EAGER, store, a, b, m);
    TwoMessageCuts(PATIENT, store, a, b, m);
    TwoBatches(a, b);
    SnapshotsAreBatches(EAGER, store, 0.0, ticks, table, c, key);
    SnapshotsAreBatches(PATIENT, store, 0.0, ticks, table, c, key);
    TableAt(SnapshotRun(EAGER, st0, ticks, table, c), key);
    TableAt(SnapshotRun(PATIENT, st0, ticks, table, c), key);
    TableAt(StoredAll(table, [a, b], c), key);
    if MergeAll([a, b]).Some? {
      TableAt(StoredAll(table, [MergeAll([a, b]).value], c), key);
    }
  }

  lemma BothOffered(a: Update, b: Update, table: Table, c: Settings, key: Key)
    requires MergeAll([a, b]).Some? && SnapshotOf(MergeAll([a, b]).value, c) != Some(key.0)
    requires Offered(a, c, key).Some? && key !in table
    ensures key in StoredAll(table, [a, b], c) && key !in StoredAll(table, [MergeAll([a, b]).value], c)
  {
    hide MergeAll, StoredAll, Offered, SnapshotOf;
    OfferedIs(MergeAll([a, b]).value, c, key);
    DistanceIsLeast(table, [a, b], c, key);
    DistanceIsLeast(table, [MergeAll([a, b]).value], c, key);
    assert a in [a, b];
  }

  lemma TwoBatches(a: Update, b: Update)
    ensures MergedRows([[a], [b]]) == [a, b]
    ensures MergeAll([a, b]).Some? ==> MergedRows([[a, b]]) == [MergeAll([a, b]).value]
  {
    hide MergeUpdates;
    MergeFirst(a);
    MergeFirst(b);
    MergedRowsAppend([], [a]);
    MergedRowsAppend([[a]], [b]);
    MergedRowsAppend([], [a, b]);
    NothingMerged();
    One(a);
    One(b);
    hide MergeAll, MergedRows;
    assert [] + [[a]] == [[a]] && [[a]] + [[b]] == [[a], [b]] && [] + [[a, b]] == [[a, b]] && [a] + [b] == [a, b];
  }

  lemma One(u: Update)
    ensures MergeAll([u]) == Some(u)
  {
    assert [u][..0] == [];
  }

  lemma OneBatch(a: Update, b: Update, c: Settings)
    requires a.mmsi == b.mmsi && a.position.Some? && b.position.Some? && a.position.value.time <= b.position.value.time
    ensures MergeAll([a, b]).Some? && SnapshotOf(MergeAll([a, b]).value, c) == SnapshotOf(b, c)
  {
    hide Snapshots.CeilSnapshotAt;
    One(a);
    assert [a, b][..1] == [a];
  }

  /** Such messages: half past midnight and half past one, with a snapshot every hour. */
  lemma AroundOneOClock(m: string, lat: real, lon: real, receipt: Receipt, store: map<string, Vessel>)
    ensures var hour := 3600 * Snapshots.SECOND;
            var a := Update(m, Some(Position(hour / 2, lat, lon, None, None, None)), None, receipt);
            var b := Update(m, Some(Position(hour + hour / 2, lat, lon, None, None, None)), None, receipt);
            var st0, ticks := State(store, map[], 0.0), [Message(a, 0.5), Message(b, 1.0)];
            && Normalized(a) && Normalized(b)
            && (hour, m) in SnapshotRun(EAGER, st0, ticks, map[], Settings(1, 1))
            && (hour, m) !in SnapshotRun(PATIENT, st0, ticks, map[], Settings(1, 1))
  {
    var hour := 3600 * Snapshots.SECOND;
    var a := Update(m, Some(Position(hour / 2, lat, lon, None, None, None)), None, receipt);
    var b := Update(m, Some(Position(hour + hour / 2, lat, lon, None, None, None)), None, receipt);
    HourlySnapshots();
    hide SnapshotRun, Snapshots.CeilSnapshotAt, Run;
    assert Offered(a, Settings(1, 1), (hour, m)).Some?;
    assert SnapshotOf(b, Settings(1, 1)) == Some(2 * hour);
    hide Offered, SnapshotOf;
    SnapshotDependsOnFlush(store, a, b, map[], Settings(1, 1), (hour, m));
  }

  lemma HourlySnapshots()
    ensures var hour := 3600 * Snapshots.SECOND;
            && Snapshots.CeilSnapshotAt(hour / 2, 1) == Some((hour, 1800))
            && Snapshots.CeilSnapshotAt(hour + hour / 2, 1) == Some((2 * hour, 1800))
  {
  }
}
