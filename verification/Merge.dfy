/** MERGE-style synchronisation (examples/lib/sync.sql): a source of rows keyed by event id is merged
    into a calendar through the three sinks, over an unreliable network. */
module Merge {
  import opened Wrappers
  import opened EventModel
  import opened EventMapping
  import opened SetListLaws
  import opened EncodingLaws
  import opened RemoteCalendar
  import opened Mutations
  import opened Sinks
  import opened EventSchema
  import opened Returning

  // ---------- what a change means for the stored events ----------

  function Target(change: Change): Option<string> {
    match change
    case InsertRow(row) =>
      var id := Find(row, EventId);
      if id.Some? && id.value.Varchar? then Some(id.value.s) else None
    case UpdateRow(rowId, _) => rowId
    case DeleteRow(rowId) => rowId
  }

  /** What a carried-out change leaves under its target, given what was there. */
  function Left(p: Platform, before: Option<Event>, change: Change): Option<Event> {
    match change
    case InsertRow(row) => Some(EventOfRow(p, row))
    case UpdateRow(_, sets) => if before.Some? then Some(Updated(p, before.value, sets)) else None
    case DeleteRow(_) => None
  }

  function At(live: map<string, Event>, id: string): Option<Event> {
    if id in live then Some(live[id]) else None
  }

  function ChangeFor(changes: seq<Change>, id: string): Option<Change> {
    if changes == [] then None
    else if Target(changes[0]) == Some(id) then Some(changes[0])
    else ChangeFor(changes[1..], id)
  }

  ghost predicate DistinctTargets(changes: seq<Change>) {
    && (forall i :: 0 <= i < |changes| ==> Target(changes[i]).Some?)
    && (forall i, j :: 0 <= i < j < |changes| ==> Target(changes[i]) != Target(changes[j]))
  }

  ghost predicate WellTargeted(change: Change) {
    Target(change).Some? && (change.InsertRow? ==> DistinctColumns(change.row))
  }

  lemma InsertedId(p: Platform, row: seq<Cell>, id: string)
    requires DistinctColumns(row) && Find(row, EventId) == Some(Varchar(id))
    ensures IdOf(EventOfRow(p, row)) == Some(id)
  {
    ListMeaning(p, map[], row, RowAllDay(row), false, IdKey);
    var event := EventOfRow(p, row);
    assert IdKey in event <==> Lookup(event, IdKey).Some?;
  }

  /** One change of a merge, succeeding, does to its target what it means and nothing elsewhere;
      failing, it has done that or nothing. The server stays consistent. */
  lemma ChangeEffect(p: Platform, link: Link, world: World, change: Change, returning: bool)
    requires Usable(link) && Consistent(world.server) && WellTargeted(change)
    ensures var id := Target(change).value;
            var (after, result) := Changed(p, link, world, change, returning);
            && Consistent(after.server)
            && (forall other :: other != id ==> At(after.server.live, other) == At(world.server.live, other))
            && (result.Success? ==> At(after.server.live, id) == Left(p, At(world.server.live, id), change))
            && (result.Failure? ==> At(after.server.live, id) == At(world.server.live, id)
                                    || At(after.server.live, id) == Left(p, At(world.server.live, id), change))
  {
    var id := Target(change).value;
    match change
    case InsertRow(row) =>
      InsertedId(p, row, id);
      InsertExactlyOnce(link, world, EventOfRow(p, row), id);
      assert Stored(id, EventOfRow(p, row)) == EventOfRow(p, row);
    case UpdateRow(rowId, sets) =>
      UpdateReadModifyWrite(p, link, world, id, sets, returning);
      if id in world.server.live {
        PutRevises(p, world.server, id, sets);
      }
    case DeleteRow(rowId) =>
      DeleteRemoves(link, world, id, returning);
  }

  lemma {:induction false} NoChangeFor(changes: seq<Change>, id: string)
    requires forall i :: 0 <= i < |changes| ==> Target(changes[i]) != Some(id)
    ensures ChangeFor(changes, id).None?
  {
    if changes == [] {
    } else {
      NoChangeFor(changes[1..], id);
    }
  }

  /** A run of changes to distinct targets that does not fail leaves each target as its change means
      it, whatever the order; and any run, failed or not, leaves all other events alone. */
  lemma {:induction false} RunEffect(p: Platform, link: Link, world: World, changes: seq<Change>, returning: bool,
                                     done: seq<Event>, id: string)
    requires Usable(link) && Consistent(world.server)
    requires DistinctTargets(changes) && forall i :: 0 <= i < |changes| ==> WellTargeted(changes[i])
    ensures var outcome := ChangedAll(p, link, world, changes, returning, done);
            var before, after := At(world.server.live, id), At(outcome.world.server.live, id);
            && Consistent(outcome.world.server)
            && (ChangeFor(changes, id).None? ==> after == before)
            && (ChangeFor(changes, id).Some? ==>
                  after == Left(p, before, ChangeFor(changes, id).value) || (outcome.failure.Some? && after == before))
    decreases changes
  {
    if changes == [] {
    } else {
      assert WellTargeted(changes[0]);
      ChangeEffect(p, link, world, changes[0], returning);
      var (next, result) := Changed(p, link, world, changes[0], returning);
      if Target(changes[0]) == Some(id) {
        NoChangeFor(changes[1..], id);
      }
      if result.Success? {
        forall i | 0 <= i < |changes[1..]| ensures WellTargeted(changes[1..][i]) {
          assert changes[1..][i] == changes[i + 1];
        }
        RunEffect(p, link, next, changes[1..], returning, done + [result.value], id);
      }
    }
  }

  // ---------- the plan of a merge ----------

  /** What the source has for an id: the row to insert, and the list a matched event is updated by. */
  datatype Row = Row(inserted: seq<Cell>, sets: seq<Cell>)

  /** One MERGE statement: its source by event id, the events its scan of the calendar found, which of
      these count as replicas, the table, and whether the statement has RETURNING. */
  datatype Merging = Merging(
    source: map<string, Row>,
    scan: map<string, Event>,
    isReplica: string -> bool,
    table: Table,
    returning: bool)

  /** The list the sink is handed for a matched event: with RETURNING, expanded from the scanned row. */
  function ListFor(p: Platform, m: Merging, id: string): seq<Cell>
    requires id in m.source && id in m.scan
  {
    if m.returning then Expanded(p, m.scan[id], m.table, m.source[id].sets) else m.source[id].sets
  }

  /** The change MERGE routes an id to: update a matched event, insert an unmatched row, delete a
      scanned replica the source no longer has. */
  function Routed(p: Platform, m: Merging, id: string): Option<Change> {
    if id in m.source then
      Some(if id in m.scan then UpdateRow(Some(id), ListFor(p, m, id)) else InsertRow(m.source[id].inserted))
    else if id in m.scan && m.isReplica(id) then Some(DeleteRow(Some(id)))
    else None
  }

  /** The changes of the plan are the routed ones, one for each id, in any order. */
  ghost predicate Plans(p: Platform, plan: seq<Change>, m: Merging) {
    && DistinctTargets(plan)
    && forall id :: ChangeFor(plan, id) == Routed(p, m, id)
  }

  /** Every row to insert names each column once and carries its own id. */
  ghost predicate Keyed(source: map<string, Row>) {
    forall id :: id in source ==>
                   DistinctColumns(source[id].inserted) && Find(source[id].inserted, EventId) == Some(Varchar(id))
  }

  /** The scan saw the calendar as it is when the merge starts to write. */
  ghost predicate SeesLive(m: Merging, live: map<string, Event>) {
    forall id :: id in m.scan ==> id in live && live[id] == m.scan[id]
  }

  /** What a merge leaves under an id, given what was there. */
  function Merged(p: Platform, before: Option<Event>, m: Merging, id: string): Option<Event> {
    var change := Routed(p, m, id);
    if change.None? then before else Left(p, before, change.value)
  }

  lemma {:induction false} ChangeForAt(changes: seq<Change>, i: nat)
    requires DistinctTargets(changes) && i < |changes|
    ensures ChangeFor(changes, Target(changes[i]).value) == Some(changes[i])
  {
    if i == 0 {
    } else {
      assert Target(changes[0]) != Target(changes[i]);
      assert changes[1..][i - 1] == changes[i];
      ChangeForAt(changes[1..], i - 1);
    }
  }

  lemma PlanIsWellTargeted(p: Platform, plan: seq<Change>, m: Merging)
    requires Plans(p, plan, m) && Keyed(m.source)
    ensures forall i :: 0 <= i < |plan| ==> WellTargeted(plan[i])
  {
    forall i | 0 <= i < |plan| ensures WellTargeted(plan[i]) {
      ChangeForAt(plan, i);
    }
  }

  /** A run of the plan ends in this world, failed or not. */
  ghost predicate Ends(p: Platform, link: Link, world: World, plan: seq<Change>, returning: bool, after: World) {
    Usable(link) && ChangedAll(p, link, world, plan, returning, []).world == after
  }

  /** A run of the plan returns normally and ends in this world. */
  ghost predicate Completes(p: Platform, link: Link, world: World, plan: seq<Change>, returning: bool, after: World) {
    Ends(p, link, world, plan, returning, after) && ChangedAll(p, link, world, plan, returning, []).failure.None?
  }

  /** A merge that does not fail leaves exactly the merged events; one that fails halfway leaves each
      id merged or as it was. */
  lemma MergeRun(p: Platform, link: Link, world: World, plan: seq<Change>, m: Merging, after: World, id: string)
    requires Consistent(world.server) && Keyed(m.source) && Plans(p, plan, m)
    requires Ends(p, link, world, plan, m.returning, after)
    ensures var before, now := At(world.server.live, id), At(after.server.live, id);
            && Consistent(after.server)
            && (now == before || now == Merged(p, before, m, id))
            && (Completes(p, link, world, plan, m.returning, after) ==> now == Merged(p, before, m, id))
  {
    PlanIsWellTargeted(p, plan, m);
    RunEffect(p, link, world, plan, m.returning, [], id);
  }

  // ---------- completion ----------

  /** The change finds what it needs: an update its event and a list it may write, a delete its event. */
  ghost predicate Doable(live: map<string, Event>, change: Change, returning: bool) {
    match change
    case InsertRow(_) => true
    case UpdateRow(rowId, sets) => rowId.Some? && rowId.value in live && (returning || AllWritable(sets))
    case DeleteRow(rowId) => rowId.Some? && rowId.value in live
  }

  lemma TruthfulChange(p: Platform, link: Link, world: World, change: Change, returning: bool)
    requires Usable(link) && Truthful(link.net, link.attempts) && WellTargeted(change)
    ensures Changed(p, link, world, change, returning).1.Success? <==> Doable(world.server.live, change, returning)
  {
    match change
    case InsertRow(row) =>
      var id := Target(change).value;
      InsertedId(p, row, id);
      ReliableInsert(link, world, EventOfRow(p, row), id);
    case UpdateRow(rowId, sets) =>
      UpdateOutcome(p, link, world, rowId.value, sets, returning);
      var first := Fetched(link, world, Get(rowId.value)).0;
      assert SettlesHonestly(link.net, world.clock, link.attempts);
      assert SettlesHonestly(link.net, first.clock, link.attempts);
    case DeleteRow(rowId) =>
      TruthfulDelete(link, world, rowId.value, returning);
  }

  lemma DoableElsewhere(p: Platform, link: Link, world: World, change: Change, returning: bool, other: Change)
    requires Usable(link) && Consistent(world.server) && WellTargeted(change) && WellTargeted(other)
    requires Target(change) != Target(other)
    ensures Doable(Changed(p, link, world, change, returning).0.server.live, other, returning)
       <==> Doable(world.server.live, other, returning)
  {
    ChangeEffect(p, link, world, change, returning);
    var after := Changed(p, link, world, change, returning).0.server.live;
    var id := Target(other).value;
    assert At(after, id) == At(world.server.live, id);
    assert id in after <==> At(after, id).Some?;
    assert id in world.server.live <==> At(world.server.live, id).Some?;
  }

  /** Over a truthful network a run of changes to distinct targets completes if and only if each of them
      finds what it needs when the run begins. */
  lemma {:induction false} RunCompletes(p: Platform, link: Link, world: World, changes: seq<Change>, returning: bool,
                                        done: seq<Event>)
    requires Usable(link) && Truthful(link.net, link.attempts) && Consistent(world.server)
    requires DistinctTargets(changes) && forall i :: 0 <= i < |changes| ==> WellTargeted(changes[i])
    ensures ChangedAll(p, link, world, changes, returning, done).failure.None?
       <==> forall i :: 0 <= i < |changes| ==> Doable(world.server.live, changes[i], returning)
    decreases changes
  {
    if changes == [] {
    } else {
      TruthfulChange(p, link, world, changes[0], returning);
      ChangeEffect(p, link, world, changes[0], returning);
      var (next, result) := Changed(p, link, world, changes[0], returning);
      if result.Success? {
        var rest := changes[1..];
        assert forall i :: 0 <= i < |rest| ==> rest[i] == changes[i + 1];
        RunCompletes(p, link, next, rest, returning, done + [result.value]);
        forall i | 0 <= i < |rest|
          ensures Doable(next.server.live, rest[i], returning) <==> Doable(world.server.live, changes[i + 1], returning)
        {
          DoableElsewhere(p, link, world, changes[0], returning, changes[i + 1]);
        }
        assert forall i :: 1 <= i < |changes| ==> changes[i] == rest[i - 1];
      }
    }
  }

  lemma {:induction false} ChangeForFound(changes: seq<Change>, id: string)
    requires ChangeFor(changes, id).Some?
    ensures exists i :: 0 <= i < |changes| && Target(changes[i]) == Some(id)
  {
    if Target(changes[0]) == Some(id) {
    } else {
      ChangeForFound(changes[1..], id);
      var i :| 0 <= i < |changes[1..]| && Target(changes[1..][i]) == Some(id);
      assert changes[i + 1] == changes[1..][i];
    }
  }

  /** Over a truthful network, overloaded or not, a merge completes if and only if it has RETURNING or no
      matched row sets a read-only column. */
  lemma MergeCompletes(p: Platform, link: Link, world: World, plan: seq<Change>, m: Merging, after: World)
    requires Consistent(world.server) && Keyed(m.source) && Plans(p, plan, m)
    requires SeesLive(m, world.server.live)
    requires Truthful(link.net, link.attempts) && Ends(p, link, world, plan, m.returning, after)
    ensures Completes(p, link, world, plan, m.returning, after)
       <==> m.returning || forall id :: id in m.source && id in m.scan ==> AllWritable(m.source[id].sets)
  {
    PlanIsWellTargeted(p, plan, m);
    RunCompletes(p, link, world, plan, m.returning, []);
    forall i | 0 <= i < |plan|
      ensures var id := Target(plan[i]).value;
              && Routed(p, m, id) == Some(plan[i])
              && (Doable(world.server.live, plan[i], m.returning) <==>
                  m.returning || (id in m.source && id in m.scan ==> AllWritable(m.source[id].sets)))
    {
      ChangeForAt(plan, i);
    }
    forall id | id in m.source && id in m.scan ensures exists i :: 0 <= i < |plan| && Target(plan[i]) == Some(id) {
      assert ChangeFor(plan, id) == Routed(p, m, id);
      ChangeForFound(plan, id);
    }
  }

  // ---------- convergence ----------

  /** What a converged merge leaves under an id, given what was there: a source id is present, under its
      own id; a scanned replica the source lacks is gone; any other event is as it was. */
  ghost predicate Converged(before: Option<Event>, after: Option<Event>, m: Merging, id: string) {
    if id in m.source then after.Some? && IdOf(after.value) == Some(id)
    else if id in m.scan && m.isReplica(id) then after.None?
    else after == before
  }

  /** MERGE converges: however the network behaved and in whatever order the rows were carried out, a
      merge that returns normally leaves every id as Converged says. */
  lemma MergeConverges(p: Platform, link: Link, world: World, plan: seq<Change>, m: Merging, after: World, id: string)
    requires Consistent(world.server) && Keyed(m.source) && Plans(p, plan, m)
    requires SeesLive(m, world.server.live)
    requires Completes(p, link, world, plan, m.returning, after)
    ensures Converged(At(world.server.live, id), At(after.server.live, id), m, id)
  {
    MergeRun(p, link, world, plan, m, after, id);
    if id in m.source {
      if id in m.scan {
        var event, sets := world.server.live[id], ListFor(p, m, id);
        KeepsId(p, event, sets, EffectiveAllDay(ExistingAllDay(event), sets));
        assert IdKey in Updated(p, event, sets) <==> Lookup(Updated(p, event, sets), IdKey).Some?;
      } else {
        InsertedId(p, m.source[id].inserted, id);
      }
    }
  }

  /** The cells a merge has for an id: those of the update if it is matched, else of the insert. */
  function CellsFor(m: Merging, id: string): seq<Cell>
    requires id in m.source
  {
    if id in m.scan then m.source[id].sets else m.source[id].inserted
  }

  /** What a merged column reads as: its value in normal form, under the flag of the event or the row;
      passthrough text that does not parse leaves what a matched event had. */
  function MergedValue(p: Platform, m: Merging, id: string, column: Column): Value
    requires id in m.source && Find(CellsFor(m, id), column).Some?
  {
    if id !in m.scan then NormalForm(p, m.source[id].inserted, column)
    else if column.Raw? && !ParsesOrNull(p, Find(m.source[id].sets, column)) then ExtractField(p, m.scan[id], column)
    else NormalSet(p, m.source[id].sets, column, UpdateAllDay(m.scan[id], m.source[id].sets))
  }

  lemma ListForFinds(p: Platform, m: Merging, id: string, column: Column)
    requires id in m.source && id in m.scan && DistinctColumns(m.source[id].sets)
    requires m.returning ==> IsTable(m.table)
    ensures DistinctColumns(ListFor(p, m, id))
    ensures Find(m.source[id].sets, column).Some? ==> Find(ListFor(p, m, id), column) == Find(m.source[id].sets, column)
    ensures UpdateAllDay(m.scan[id], ListFor(p, m, id)) == UpdateAllDay(m.scan[id], m.source[id].sets)
  {
    var event, sets := m.scan[id], m.source[id].sets;
    if m.returning {
      ExpandedDistinct(p, event, m.table, sets);
      ExpandedFlag(p, event, m.table, sets);
      FindAppend(sets, ExistingCells(p, event, m.table.names, m.table.calendarId, sets), column);
    }
  }

  /** A merged column whose value can be compared: a time that prints and reads back; for all_day, the
      event must have a start. */
  ghost predicate Comparable(p: Platform, m: Merging, id: string, column: Column) {
    && id in m.source && DistinctColumns(m.source[id].sets) && (m.returning ==> IsTable(m.table))
    && Writable(column, true) && Find(CellsFor(m, id), column).Some?
    && CellReadsBack(p, Find(CellsFor(m, id), column)) && LongStamp(p, Find(CellsFor(m, id), column))
    && (column == AllDay && id in m.scan ==> HasStart(m.scan[id], ListFor(p, m, id)))
  }

  /** And every source id agrees with its row on every merged column. */
  lemma MergeAgrees(p: Platform, link: Link, world: World, plan: seq<Change>, m: Merging, after: World, id: string,
                    column: Column)
    requires Consistent(world.server) && Keyed(m.source) && Plans(p, plan, m)
    requires SeesLive(m, world.server.live)
    requires Completes(p, link, world, plan, m.returning, after)
    requires Comparable(p, m, id, column)
    ensures id in after.server.live
    ensures ExtractField(p, after.server.live[id], column) == MergedValue(p, m, id, column)
  {
    MergeRun(p, link, world, plan, m, after, id);
    if id in m.scan {
      ListForFinds(p, m, id, column);
      UpdateReadsBack(p, m.scan[id], ListFor(p, m, id), column);
    } else {
      RowRoundTrip(p, m.source[id].inserted, column);
    }
  }

  // ---------- recovery ----------

  /** The rows a scan reports: the events that lie in its window. */
  function Scanned(live: map<string, Event>, inWindow: Event -> bool): map<string, Event> {
    map id | id in live && inWindow(live[id]) :: live[id]
  }

  /** The same statement run again: it scans what the last run has left. */
  function Rerun(m: Merging, live: map<string, Event>, inWindow: Event -> bool): Merging {
    m.(scan := Scanned(live, inWindow))
  }

  /** A merge that fails at any point, with its last request carried out or not, does no harm that the
      next merge to return normally does not mend: that one leaves every id converged from where the
      failed merge began, and every source id in agreement with its row. */
  lemma MergeRecovers(p: Platform, link: Link, world: World, plan: seq<Change>, m: Merging, middle: World,
                      retryLink: Link, retryPlan: seq<Change>, after: World, inWindow: Event -> bool, id: string,
                      column: Column)
    requires Consistent(world.server) && Keyed(m.source)
    requires m == Rerun(m, world.server.live, inWindow) && Plans(p, plan, m)
    requires Ends(p, link, world, plan, m.returning, middle)
    requires Plans(p, retryPlan, Rerun(m, middle.server.live, inWindow))
    requires Completes(p, retryLink, middle, retryPlan, m.returning, after)
    ensures Converged(At(world.server.live, id), At(after.server.live, id), m, id)
    ensures var retry := Rerun(m, middle.server.live, inWindow);
            Comparable(p, retry, id, column) ==>
              && id in after.server.live
              && ExtractField(p, after.server.live[id], column) == MergedValue(p, retry, id, column)
  {
    var retry := Rerun(m, middle.server.live, inWindow);
    MergeRun(p, link, world, plan, m, middle, id);
    MergeConverges(p, retryLink, middle, retryPlan, retry, after, id);
    if id !in m.source {
      assert id in world.server.live <==> At(world.server.live, id).Some?;
      assert id in middle.server.live <==> At(middle.server.live, id).Some?;
    }
    if Comparable(p, retry, id, column) {
      MergeAgrees(p, retryLink, middle, retryPlan, retry, after, id, column);
    }
  }

  // ---------- merging again ----------

  /** What DuckDB and the platform are taken to provide for a source row: its lists name each column
      once, it has a start, no stamp prints as nine characters, and the update writes nothing that the
      insert would not. */
  ghost predicate SourceRow(p: Platform, id: string, row: Row) {
    && DistinctColumns(row.inserted) && DistinctColumns(row.sets)
    && Find(row.inserted, EventId) == Some(Varchar(id))
    && SetsStamp(row.inserted, Start)
    && LongStamp(p, Find(row.inserted, Start)) && LongStamp(p, Find(row.inserted, End))
    && (forall column :: Writable(column, true) && Find(row.sets, column).Some? ==>
                           Find(row.sets, column) == Find(row.inserted, column))
  }

  ghost predicate SourceRows(p: Platform, source: map<string, Row>) {
    forall id :: id in source ==> SourceRow(p, id, source[id])
  }

  lemma InsertedTime(p: Platform, id: string, row: Row, key: Key, column: Column)
    requires SourceRow(p, id, row) && IsTimeKey(key, column)
    ensures Lookup(EventOfRow(p, row.inserted), key)
         == if SetsStamp(row.inserted, column)
            then Some(TimeNode(p, Find(row.inserted, column).value.micros, RowAllDay(row.inserted))) else None
    ensures UpdateAllDay(EventOfRow(p, row.inserted), row.sets) == RowAllDay(row.inserted)
  {
    var event := EventOfRow(p, row.inserted);
    ExactMeaning(p, map[], row.inserted, RowAllDay(row.inserted), false, key);
    ExactMeaning(p, map[], row.inserted, RowAllDay(row.inserted), false, StartKey);
    assert StartKey in event <==> Lookup(event, StartKey).Some?;
    EffectiveFlag(ExistingAllDay(event), row.sets);
  }

  lemma SetTime(p: Platform, id: string, row: Row, key: Key, column: Column)
    requires SourceRow(p, id, row) && IsTimeKey(key, column)
    ensures ExactSlot(p, EventOfRow(p, row.inserted), key, row.sets, RowAllDay(row.inserted), true)
         == Lookup(EventOfRow(p, row.inserted), key)
  {
    InsertedTime(p, id, row, key, column);
    if SetsStamp(row.inserted, column) {
      ReencodingFixesFreshNode(p, Find(row.inserted, column).value.micros, RowAllDay(row.inserted));
    }
  }

  /** Updating a just inserted event from its own row by the plain list changes nothing. */
  lemma InsertThenUpdate(p: Platform, id: string, row: Row)
    requires SourceRow(p, id, row)
    ensures Updated(p, EventOfRow(p, row.inserted), row.sets) == EventOfRow(p, row.inserted)
  {
    var event, flag := EventOfRow(p, row.inserted), RowAllDay(row.inserted);
    InsertedTime(p, id, row, StartKey, Start);
    forall key ensures Lookup(Updated(p, event, row.sets), key) == Lookup(event, key) {
      ExactMeaning(p, event, row.sets, flag, true, key);
      ExactMeaning(p, map[], row.inserted, flag, false, key);
      if key == StartKey {
        SetTime(p, id, row, key, Start);
      } else if key == EndKey {
        SetTime(p, id, row, key, End);
      }
    }
    EqualByLookup(Updated(p, event, row.sets), event);
  }

  /** The insert stores a JSON null for a document that the update does not set. */
  predicate LeavesNull(p: Platform, row: Row, raw: RawField) {
    && Find(row.sets, Raw(raw)).None?
    && Lookup(EventOfRow(p, row.inserted), RawKey(raw)) == Some(Json.Null)
  }

  ghost predicate LeavesSomeNull(p: Platform, row: Row) {
    exists raw: RawField :: LeavesNull(p, row, raw)
  }

  predicate StampPrints(p: Platform, cells: seq<Cell>, column: Column) {
    SetsStamp(cells, column) ==> TimePrints(p, Find(cells, column).value.micros)
  }

  /** What the row inserts can be read and printed: its stamps by the platform, its documents as
      themselves. */
  ghost predicate PrintsBack(p: Platform, row: Row) {
    && StampPrints(p, row.inserted, Start) && StampPrints(p, row.inserted, End)
    && forall raw: RawField ::
         var stored := Lookup(EventOfRow(p, row.inserted), RawKey(raw));
         stored.Some? && !stored.value.Null? ==> Reprinted(p, stored.value)
  }

  lemma InsertedTimeSurvives(p: Platform, id: string, row: Row, table: Table, key: Key, column: Column)
    requires SourceRow(p, id, row) && IsTable(table) && IsTimeKey(key, column)
    requires StampPrints(p, row.inserted, column)
    ensures TimeSurvives(p, EventOfRow(p, row.inserted), table, row.sets, key, column)
  {
    var event, flag := EventOfRow(p, row.inserted), RowAllDay(row.inserted);
    InsertedTime(p, id, row, key, column);
    FindExpanded(p, event, table, row.sets, column);
    assert key in event <==> Lookup(event, key).Some?;
    if SetsStamp(row.inserted, column) {
      var micros := Find(row.inserted, column).value.micros;
      var behind := FlagBehind(Expanded(p, event, table, row.sets), column);
      FreshNodeReadsBack(p, micros, flag);
      UnspoiledNode(p, micros, flag, behind);
      ReencodingFixesFreshNode(p, micros, flag);
      if flag {
        ReencodingFixesFreshNode(p, FloorDay(micros), flag);
      }
    }
  }

  /** By the expanded list it changes nothing if and only if no JSON null is read as NULL and erased. */
  lemma InsertThenReturning(p: Platform, id: string, row: Row, table: Table)
    requires SourceRow(p, id, row) && IsTable(table) && PrintsBack(p, row)
    ensures var event := EventOfRow(p, row.inserted);
            Updated(p, event, Expanded(p, event, table, row.sets)) == event <==> !LeavesSomeNull(p, row)
  {
    var event := EventOfRow(p, row.inserted);
    InsertThenUpdate(p, id, row);
    ReturningKeepsMeaning(p, event, table, row.sets);
    forall key ensures KeySurvives(p, event, table, row.sets, key) <==> !(key.RawKey? && LeavesNull(p, row, key.raw)) {
      ExactMeaning(p, map[], row.inserted, RowAllDay(row.inserted), false, key);
      assert key in event <==> Lookup(event, key).Some?;
      if key == StartKey {
        InsertedTimeSurvives(p, id, row, table, key, Start);
      } else if key == EndKey {
        InsertedTimeSurvives(p, id, row, table, key, End);
      }
    }
    if LeavesSomeNull(p, row) {
      var raw: RawField :| LeavesNull(p, row, raw);
      assert !KeySurvives(p, event, table, row.sets, RawKey(raw));
    }
  }

  /** What the row to insert stores under a key, whatever the order of its cells. */
  function RowHas(p: Platform, row: Row, key: Key): Option<Json> {
    Slot(p, map[], key, row.inserted, RowAllDay(row.inserted), false)
  }

  function RowValue(row: Row, column: Column): Value {
    if Find(row.inserted, column).Some? then Find(row.inserted, column).value else NullValue
  }

  /** A document that the update sets, to NULL or to text that parses. */
  predicate SetsDocument(p: Platform, row: Row, raw: RawField) {
    Find(row.sets, Raw(raw)).Some? && ParsesOrNull(p, Find(row.sets, Raw(raw)))
  }

  /** A time after the plain list: SET to NULL or under the row's own flag; or not SET, and already the
      row's node, re-encoded first if all_day is SET. */
  predicate TimeCovered(p: Platform, event: Event, row: Row, key: Key, column: Column) {
    var flag := UpdateAllDay(event, row.sets);
    if Find(row.sets, column).Some? then SetsNull(row.sets, column) || flag == RowAllDay(row.inserted)
    else if Find(row.sets, AllDay).Some? && key in event then RowHas(p, row, key) == Some(Reencoded(event[key], flag))
    else Lookup(event, key) == RowHas(p, row, key)
  }

  /** The row covers a key of the event: the update by the plain list leaves there what the insert would.
      It sets the key, or the event has there what the row has; the event has no key beyond the row's. */
  predicate RowCovers(p: Platform, id: string, event: Event, row: Row, key: Key) {
    match key
    case IdKey => Lookup(event, IdKey) == Some(Str(id))
    case TextKey(t) => Find(row.sets, Text(t)).Some? || Lookup(event, key) == RowHas(p, row, key)
    case FlagKey(f) => Find(row.sets, Flag(f)).Some? || Lookup(event, key) == RowHas(p, row, key)
    case RawKey(r) => SetsDocument(p, row, r) || Lookup(event, key) == RowHas(p, row, key)
    case StartKey => TimeCovered(p, event, row, key, Start)
    case EndKey => TimeCovered(p, event, row, key, End)
    case OtherKey(_) => key !in event
  }

  /** A time after the expanded list: carried as NULL where the row has none; or carried and the row's, and
      written alike under the event's flag and the row's. */
  predicate CarriedTimeCovered(p: Platform, event: Event, row: Row, column: Column) {
    var carried, value := Carried(p, event, row.sets, column), RowValue(row, column);
    if carried.Timestamp? && value.Timestamp?
    then TimeNode(p, carried.micros, UpdateAllDay(event, row.sets))
      == TimeNode(p, value.micros, RowAllDay(row.inserted))
    else carried == value
  }

  /** The same under RETURNING, where the list carries what the event reads as: a JSON null counts as
      absent. */
  predicate RowCoversReturning(p: Platform, id: string, event: Event, row: Row, key: Key) {
    match key
    case IdKey => Lookup(event, IdKey) == Some(Str(id))
    case TextKey(t) => Carried(p, event, row.sets, Text(t)) == RowValue(row, Text(t))
    case FlagKey(f) => Carried(p, event, row.sets, Flag(f)) == RowValue(row, Flag(f))
    case RawKey(r) =>
      || SetsDocument(p, row, r)
      || (if Find(row.sets, Raw(r)).None? && Lookup(event, key) == Some(Json.Null) then RowHas(p, row, key).None?
          else Lookup(event, key) == RowHas(p, row, key))
    case StartKey => CarriedTimeCovered(p, event, row, Start)
    case EndKey => CarriedTimeCovered(p, event, row, End)
    case OtherKey(_) => key !in event
  }

  lemma RowStores(p: Platform, row: Row, key: Key)
    requires DistinctColumns(row.inserted)
    ensures Lookup(EventOfRow(p, row.inserted), key) == RowHas(p, row, key)
  {
    ExactMeaning(p, map[], row.inserted, RowAllDay(row.inserted), false, key);
  }

  lemma TimeCoveredExactly(p: Platform, id: string, event: Event, row: Row, key: Key, column: Column)
    requires SourceRow(p, id, row) && IsTimeKey(key, column)
    ensures ExactSlot(p, event, key, row.sets, UpdateAllDay(event, row.sets), true) == RowHas(p, row, key)
       <==> TimeCovered(p, event, row, key, column)
  {
    var flag := UpdateAllDay(event, row.sets);
    assert key in event <==> Lookup(event, key).Some?;
    if SetsStamp(row.sets, column) {
      var micros := Find(row.sets, column).value.micros;
      ReencodingFixesFreshNode(p, micros, flag);
      if flag != RowAllDay(row.inserted) {
        EncodingsDiffer(p, micros, micros, false, false);
      }
    }
  }

  lemma KeyCoveredExactly(p: Platform, id: string, event: Event, row: Row, key: Key)
    requires SourceRow(p, id, row)
    ensures ExactSlot(p, event, key, row.sets, UpdateAllDay(event, row.sets), true) == RowHas(p, row, key)
       <==> RowCovers(p, id, event, row, key)
  {
    assert key in event <==> Lookup(event, key).Some?;
    if key == StartKey {
      TimeCoveredExactly(p, id, event, row, key, Start);
    } else if key == EndKey {
      TimeCoveredExactly(p, id, event, row, key, End);
    }
  }

  /** An update by the plain list leaves what the insert would, if and only if the row covers every key. */
  lemma CoveredExactly(p: Platform, id: string, event: Event, row: Row)
    requires SourceRow(p, id, row)
    ensures Updated(p, event, row.sets) == EventOfRow(p, row.inserted)
       <==> forall key :: RowCovers(p, id, event, row, key)
  {
    var a, b := Updated(p, event, row.sets), EventOfRow(p, row.inserted);
    forall key ensures Lookup(a, key) == Lookup(b, key) <==> RowCovers(p, id, event, row, key) {
      ExactMeaning(p, event, row.sets, UpdateAllDay(event, row.sets), true, key);
      RowStores(p, row, key);
      KeyCoveredExactly(p, id, event, row, key);
    }
    if forall key :: RowCovers(p, id, event, row, key) {
      EqualByLookup(a, b);
    } else {
      var key :| !RowCovers(p, id, event, row, key);
      assert Lookup(a, key) != Lookup(b, key);
    }
  }

  lemma CarriedTimeCoveredExactly(p: Platform, id: string, event: Event, row: Row, table: Table, key: Key,
                                  column: Column)
    requires SourceRow(p, id, row) && IsTable(table) && IsTimeKey(key, column)
    requires Find(row.sets, column).None? ==> TimeCellPrints(p, ExtractField(p, event, column))
    ensures Lookup(Updated(p, event, Expanded(p, event, table, row.sets)), key) == RowHas(p, row, key)
       <==> CarriedTimeCovered(p, event, row, column)
  {
    var carried := Carried(p, event, row.sets, column);
    CarriedTime(p, event, table, row.sets, key, column);
    if carried.Timestamp? {
      UnspoiledNode(p, carried.micros, UpdateAllDay(event, row.sets),
                    FlagBehind(Expanded(p, event, table, row.sets), column));
    }
  }

  lemma CarriedKeyCoveredExactly(p: Platform, id: string, event: Event, row: Row, table: Table, key: Key)
    requires SourceRow(p, id, row) && IsTable(table) && Printable(p, event, row.sets)
    ensures Lookup(Updated(p, event, Expanded(p, event, table, row.sets)), key) == RowHas(p, row, key)
       <==> RowCoversReturning(p, id, event, row, key)
  {
    assert key in event <==> Lookup(event, key).Some?;
    if key == StartKey {
      CarriedTimeCoveredExactly(p, id, event, row, table, key, Start);
    } else if key == EndKey {
      CarriedTimeCoveredExactly(p, id, event, row, table, key, End);
    } else {
      ExpandedMeaning(p, event, table, row.sets, key);
      if key.TextKey? || key.FlagKey? || key.RawKey? {
        FindExpanded(p, event, table, row.sets, ColumnOf(key));
      }
    }
  }

  /** And under RETURNING. */
  lemma CoveredReturningExactly(p: Platform, id: string, event: Event, row: Row, table: Table)
    requires SourceRow(p, id, row) && IsTable(table) && Printable(p, event, row.sets)
    ensures Updated(p, event, Expanded(p, event, table, row.sets)) == EventOfRow(p, row.inserted)
       <==> forall key :: RowCoversReturning(p, id, event, row, key)
  {
    var a, b := Updated(p, event, Expanded(p, event, table, row.sets)), EventOfRow(p, row.inserted);
    forall key ensures Lookup(a, key) == Lookup(b, key) <==> RowCoversReturning(p, id, event, row, key) {
      RowStores(p, row, key);
      CarriedKeyCoveredExactly(p, id, event, row, table, key);
    }
    if forall key :: RowCoversReturning(p, id, event, row, key) {
      EqualByLookup(a, b);
    } else {
      var key :| !RowCoversReturning(p, id, event, row, key);
      assert Lookup(a, key) != Lookup(b, key);
    }
  }

  /** The row covers the whole event that the scan found. */
  ghost predicate Covered(p: Platform, m: Merging, id: string)
    requires id in m.source && id in m.scan
  {
    if m.returning then forall key :: RowCoversReturning(p, id, m.scan[id], m.source[id], key)
    else forall key :: RowCovers(p, id, m.scan[id], m.source[id], key)
  }

  /** An id whose event the first merge moves out of the window, and whose event has more than its row
      covers: the second merge does not see it, and overwrites it with the row alone. */
  ghost predicate LostSight(p: Platform, m: Merging, inWindow: Event -> bool, id: string) {
    && id in m.source && id in m.scan
    && !inWindow(Updated(p, m.scan[id], ListFor(p, m, id))) && !Covered(p, m, id)
  }

  /** An id that the second merge sees and, because of RETURNING, still changes: an all-day event whose
      unreadable start was dropped, or a row just inserted with a JSON null. */
  ghost predicate Unsettled(p: Platform, m: Merging, inWindow: Event -> bool, id: string) {
    && m.returning && id in m.source
    && if id in m.scan
       then inWindow(Updated(p, m.scan[id], ListFor(p, m, id)))
            && ForgetsWhenExpanded(p, m.scan[id], m.source[id].sets)
       else inWindow(EventOfRow(p, m.source[id].inserted)) && LeavesSomeNull(p, m.source[id])
  }

  /** With RETURNING, whatever the row does not set can be read and printed. */
  ghost predicate Rewritable(p: Platform, m: Merging, id: string) {
    m.returning && id in m.source ==>
      && IsTable(m.table)
      && if id in m.scan then Printable(p, m.scan[id], m.source[id].sets)
         else PrintsBack(p, m.source[id])
  }

  /** A matched event that stays in sight is settled by one update of a source row. */
  lemma SettlesWhenSeen(p: Platform, id: string, row: Row, table: Table, event: Event, returning: bool)
    requires SourceRow(p, id, row)
    requires returning ==> IsTable(table) && Printable(p, event, row.sets)
    ensures returning ==>
              var once := Updated(p, event, Expanded(p, event, table, row.sets));
              (Updated(p, once, Expanded(p, once, table, row.sets)) == once
               <==> !ForgetsWhenExpanded(p, event, row.sets))
    ensures !returning ==> Updated(p, Updated(p, event, row.sets), row.sets) == Updated(p, event, row.sets)
  {
    if returning {
      ReturningIdempotence(p, event, table, row.sets);
    } else {
      UpdateIdempotence(p, event, row.sets);
    }
  }

  /** Merging a second time by the same statement, with the same window, changes an id exactly when the
      first merge lost sight of it or left it unsettled. */
  lemma MergeAgain(p: Platform, live: map<string, Event>, merged: map<string, Event>, m: Merging,
                   inWindow: Event -> bool, id: string)
    requires SourceRows(p, m.source) && Rewritable(p, m, id)
    requires m == Rerun(m, live, inWindow) && At(merged, id) == Merged(p, At(live, id), m, id)
    ensures Merged(p, At(merged, id), Rerun(m, merged, inWindow), id) == At(merged, id)
       <==> !LostSight(p, m, inWindow, id) && !Unsettled(p, m, inWindow, id)
  {
    assert id in live <==> At(live, id).Some?;
    assert id in merged <==> At(merged, id).Some?;
    if id in m.source {
      var row := m.source[id];
      assert SourceRow(p, id, row);
      if id in m.scan {
        SettlesWhenSeen(p, id, row, m.table, m.scan[id], m.returning);
        if m.returning {
          CoveredReturningExactly(p, id, m.scan[id], row, m.table);
        } else {
          CoveredExactly(p, id, m.scan[id], row);
        }
      } else {
        InsertThenUpdate(p, id, row);
        if m.returning {
          InsertThenReturning(p, id, row, m.table);
        }
      }
    }
  }

  lemma KeyedRows(p: Platform, source: map<string, Row>)
    requires SourceRows(p, source)
    ensures Keyed(source)
  {
    forall id | id in source
      ensures DistinctColumns(source[id].inserted) && Find(source[id].inserted, EventId) == Some(Varchar(id))
    {
      assert SourceRow(p, id, source[id]);
    }
  }

  lemma SameLive(a: map<string, Event>, b: map<string, Event>)
    ensures a == b <==> forall id :: At(b, id) == At(a, id)
  {
    if forall id :: At(b, id) == At(a, id) {
      assert forall id :: id in a <==> At(a, id).Some?;
      assert forall id :: id in b <==> At(b, id).Some?;
      forall id | id in a ensures id in b && b[id] == a[id] {
        assert At(b, id) == At(a, id);
      }
      forall id | id in b ensures id in a {
        assert At(b, id) == At(a, id);
      }
    }
  }

  /** Two merges in a row by the same statement, both returning normally: the second changes nothing at
      all exactly when the first lost sight of no id and left none unsettled. */
  lemma MergeIdempotence(p: Platform, link: Link, world: World, plan: seq<Change>, m: Merging, once: World,
                         againLink: Link, againPlan: seq<Change>, twice: World, inWindow: Event -> bool)
    requires Consistent(world.server) && SourceRows(p, m.source) && forall id :: Rewritable(p, m, id)
    requires m == Rerun(m, world.server.live, inWindow) && Plans(p, plan, m)
    requires Completes(p, link, world, plan, m.returning, once)
    requires Plans(p, againPlan, Rerun(m, once.server.live, inWindow))
    requires Completes(p, againLink, once, againPlan, m.returning, twice)
    ensures twice.server.live == once.server.live
       <==> forall id :: !LostSight(p, m, inWindow, id) && !Unsettled(p, m, inWindow, id)
  {
    KeyedRows(p, m.source);
    forall id
      ensures At(twice.server.live, id) == At(once.server.live, id)
         <==> !LostSight(p, m, inWindow, id) && !Unsettled(p, m, inWindow, id)
    {
      MergeRun(p, link, world, plan, m, once, id);
      MergeRun(p, againLink, once, againPlan, Rerun(m, once.server.live, inWindow), twice, id);
      MergeAgain(p, world.server.live, once.server.live, m, inWindow, id);
    }
    SameLive(once.server.live, twice.server.live);
  }

  // ---------- neither condition is empty ----------

  function EtaggedEvent(p: Platform, start: int): Event {
    map[IdKey := Str("e"), StartKey := TimeNode(p, start, false), OtherKey("etag") := Str("1")]
  }

  function StartRow(start: int): Row {
    Row([UntypedCell.Cell(EventId, Varchar("e")), UntypedCell.Cell(Start, Timestamp(start))],
        [UntypedCell.Cell(Start, Timestamp(start))])
  }

  lemma StartRowFinds(start: int, column: Column)
    ensures var row := StartRow(start);
            && Find(row.sets, column) == (if column == Start then Some(Timestamp(start)) else None)
            && Find(row.inserted, column) == if column == EventId then Some(Varchar("e")) else Find(row.sets, column)
  {
    var row := StartRow(start);
    assert row.inserted[1..] == row.sets && row.sets[1..] == [];
  }

  lemma StartRowIsSource(p: Platform, start: int)
    requires |p.stampText(start)| != 9
    ensures SourceRow(p, "e", StartRow(start))
  {
    forall column
      ensures Find(StartRow(start).sets, column) == (if column == Start then Some(Timestamp(start)) else None)
      ensures Find(StartRow(start).inserted, column)
           == if column == EventId then Some(Varchar("e")) else Find(StartRow(start).sets, column)
    {
      StartRowFinds(start, column);
    }
  }

  /** The scan's window holds the events that start at this instant. */
  function WindowAt(p: Platform, start: int): Event -> bool {
    event => Lookup(event, StartKey) == Some(TimeNode(p, start, false))
  }

  function MovingMerge(p: Platform, from: int, to: int, table: Table, returning: bool): Merging {
    Merging(map["e" := StartRow(to)], map["e" := EtaggedEvent(p, from)], id => false, table, returning)
  }

  /** Whatever list moves its start, the event gets the new start. */
  lemma StartMoved(p: Platform, from: int, to: int, cells: seq<Cell>)
    requires |p.stampText(to)| != 9 && DistinctColumns(cells)
    requires Find(cells, Start) == Some(Timestamp(to)) && !UpdateAllDay(EtaggedEvent(p, from), cells)
    ensures var updated := Updated(p, EtaggedEvent(p, from), cells);
            Lookup(updated, StartKey) == Some(TimeNode(p, to, false))
  {
    ExactMeaning(p, EtaggedEvent(p, from), cells, false, true, StartKey);
    ReencodingFixesFreshNode(p, to, false);
  }

  lemma MovingIsRewritable(p: Platform, from: int, to: int, table: Table, returning: bool)
    requires IsTable(table)
    ensures Rewritable(p, MovingMerge(p, from, to, table, returning), "e")
  {
    StartRowFinds(to, Start);
    StartRowFinds(to, End);
  }

  /** A row that moves the start of an event with an etag, out of a window that holds the old start, is
      lost sight of, with RETURNING or without. */
  lemma LostSightHappens(p: Platform, from: int, to: int, table: Table, returning: bool)
    requires |p.stampText(to)| != 9 && TimeNode(p, to, false) != TimeNode(p, from, false) && IsTable(table)
    ensures var m := MovingMerge(p, from, to, table, returning);
            && SourceRows(p, m.source) && Rewritable(p, m, "e")
            && m == Rerun(m, map["e" := EtaggedEvent(p, from)], WindowAt(p, from))
            && LostSight(p, m, WindowAt(p, from), "e")
  {
    var m, sets := MovingMerge(p, from, to, table, returning), StartRow(to).sets;
    StartRowIsSource(p, to);
    MovingIsRewritable(p, from, to, table, returning);
    StartRowFinds(to, Start);
    StartRowFinds(to, AllDay);
    ListForFinds(p, m, "e", Start);
    EffectiveFlag(false, sets);
    StartMoved(p, from, to, ListFor(p, m, "e"));
    assert OtherKey("etag") in m.scan["e"];
    assert !RowCovers(p, "e", m.scan["e"], StartRow(to), OtherKey("etag"));
    assert !RowCoversReturning(p, "e", m.scan["e"], StartRow(to), OtherKey("etag"));
    assert m.scan == Scanned(map["e" := EtaggedEvent(p, from)], WindowAt(p, from));
  }

  function NullRow(start: int): Row {
    StartRow(start).(inserted := StartRow(start).inserted + [UntypedCell.Cell(Raw(Attendees), Varchar("null"))])
  }

  lemma NullRowIsSource(p: Platform, start: int)
    requires TimePrints(p, start) && p.parse("null") == Some(Json.Null)
    ensures SourceRow(p, "e", NullRow(start))
    ensures LeavesSomeNull(p, NullRow(start)) && PrintsBack(p, NullRow(start))
  {
    var row, last := NullRow(start), [UntypedCell.Cell(Raw(Attendees), Varchar("null"))];
    assert last[1..] == [];
    forall column
      ensures Find(row.sets, column) == (if column == Start then Some(Timestamp(start)) else None)
      ensures Find(row.inserted, column)
           == if column == EventId then Some(Varchar("e"))
              else if column == Raw(Attendees) then Some(Varchar("null")) else Find(row.sets, column)
    {
      StartRowFinds(start, column);
      FindAppend(StartRow(start).inserted, last, column);
    }
    var event := EventOfRow(p, row.inserted);
    forall raw: RawField
      ensures Lookup(event, RawKey(raw)) == if raw == Attendees then Some(Json.Null) else None
    {
      ExactMeaning(p, map[], row.inserted, RowAllDay(row.inserted), false, RawKey(raw));
    }
    assert LeavesNull(p, row, Attendees);
  }

  /** A row inserted with the JSON text `null` for a document that the update does not set is left
      unsettled: the second merge erases the null. */
  lemma UnsettledHappens(p: Platform, start: int, table: Table)
    requires TimePrints(p, start) && p.parse("null") == Some(Json.Null) && IsTable(table)
    ensures var m := Merging(map["e" := NullRow(start)], map[], id => false, table, true);
            && SourceRows(p, m.source) && Rewritable(p, m, "e")
            && m == Rerun(m, map[], event => true) && Unsettled(p, m, event => true, "e")
  {
    NullRowIsSource(p, start);
    var none: map<string, Event> := map[];
    assert Scanned(none, event => true) == none;
  }
}
