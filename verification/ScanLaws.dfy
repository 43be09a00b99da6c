/** What the rows of a scan hold, and what UPDATE and DELETE do with them: the row id of a scanned row
    leads the sinks back to the event it was read from. */
module ScanLaws {
  import opened Wrappers
  import opened EventModel
  import opened EventMapping
  import opened EncodingLaws
  import opened RemoteCalendar
  import opened Mutations
  import opened Sinks
  import opened ScanCursor
  import opened Merge

  lemma {:induction false} OutputRowsAt(p: Platform, events: seq<Event>, outputs: seq<OutputColumn>, calendarId: string,
                                        i: nat)
    requires i < |events|
    ensures |OutputRows(p, events, outputs, calendarId)| == |events|
    ensures OutputRows(p, events, outputs, calendarId)[i] == OutputRow(p, events[i], outputs, calendarId)
    decreases events
  {
    OutputRowsCount(p, events, outputs, calendarId);
    if i == 0 {
    } else {
      OutputRowsAt(p, events[1..], outputs, calendarId, i - 1);
    }
  }

  /** The row of an event with an id holds that id as its row id, the calendar's id, and in every other
      column what the event reads as: for an inserted event, the inserted value in normal form. */
  lemma ScannedRow(p: Platform, events: seq<Event>, outputs: seq<OutputColumn>, calendarId: string, i: nat, id: string,
                   inserted: seq<Cell>)
    requires i < |events|
    ensures |OutputRows(p, events, outputs, calendarId)| == |events|
    ensures var row := OutputRows(p, events, outputs, calendarId)[i];
            && |row| == |outputs|
            && forall k :: 0 <= k < |outputs| ==>
                             && (outputs[k] == RowId && IdOf(events[i]) == Some(id) ==> row[k] == Varchar(id))
                             && (outputs[k] == Named(CalendarId) ==> row[k] == Varchar(calendarId))
                             && (outputs[k].Named? && outputs[k].column != CalendarId ==>
                                   row[k] == ExtractField(p, events[i], outputs[k].column))
    ensures DistinctColumns(inserted) && events[i] == EventOfRow(p, inserted) ==>
              forall k :: 0 <= k < |outputs| && outputs[k].Named? && Writable(outputs[k].column, false)
                          && CellReadsBack(p, Find(inserted, outputs[k].column)) ==>
                            OutputRows(p, events, outputs, calendarId)[i][k]
                            == NormalForm(p, inserted, outputs[k].column)
  {
    OutputRowsAt(p, events, outputs, calendarId, i);
    if DistinctColumns(inserted) && events[i] == EventOfRow(p, inserted) {
      forall k | 0 <= k < |outputs| && outputs[k].Named? && Writable(outputs[k].column, false)
                 && CellReadsBack(p, Find(inserted, outputs[k].column))
        ensures OutputRows(p, events, outputs, calendarId)[i][k] == NormalForm(p, inserted, outputs[k].column)
      {
        RowRoundTrip(p, inserted, outputs[k].column);
      }
    }
  }

  /** A DELETE, or an UPDATE with the list for each scanned row. */
  datatype Statement = Deleting | Updating(lists: seq<seq<Cell>>)

  function ChangeOf(statement: Statement, rowId: Value, i: nat): Change
    requires (rowId.NullValue? || rowId.Varchar?) && (statement.Updating? ==> i < |statement.lists|)
  {
    if statement.Deleting? then DeleteRow(RowIdOf(rowId)) else UpdateRow(RowIdOf(rowId), statement.lists[i])
  }

  lemma RowIdIsText(p: Platform, event: Event, outputs: seq<OutputColumn>, calendarId: string, k: nat)
    requires k < |outputs| && outputs[k] == RowId
    ensures var value := OutputRow(p, event, outputs, calendarId)[k]; value.NullValue? || value.Varchar?
  {
  }

  /** The changes the sink is handed for the scanned rows: the k-th output of the scan is the row id. */
  function ChangesOver(p: Platform, statement: Statement, events: seq<Event>, outputs: seq<OutputColumn>,
                       calendarId: string, k: nat): seq<Change>
    requires k < |outputs| && outputs[k] == RowId
    requires statement.Updating? ==> |statement.lists| == |events|
  {
    seq(|events|, i requires 0 <= i < |events| =>
      RowIdIsText(p, events[i], outputs, calendarId, k);
      ChangeOf(statement, OutputRow(p, events[i], outputs, calendarId)[k], i))
  }

  /** The scanned events are these of the server. */
  ghost predicate ScannedFrom(server: Server, events: seq<Event>, ids: seq<string>) {
    && |ids| == |events|
    && (forall i :: 0 <= i < |ids| ==> ids[i] in server.live && server.live[ids[i]] == events[i])
    && forall i, j :: 0 <= i < j < |ids| ==> ids[i] != ids[j]
  }

  /** What the statement makes of the event scanned under an id. */
  function LeftBy(p: Platform, statement: Statement, event: Event, i: nat): Option<Event>
    requires statement.Updating? ==> i < |statement.lists|
  {
    if statement.Deleting? then None else Some(Updated(p, event, statement.lists[i]))
  }

  lemma ChangesOverTargets(p: Platform, server: Server, statement: Statement, events: seq<Event>, ids: seq<string>,
                           outputs: seq<OutputColumn>, calendarId: string, k: nat)
    requires WellKept(server) && ScannedFrom(server, events, ids)
    requires k < |outputs| && outputs[k] == RowId
    requires statement.Updating? ==> |statement.lists| == |events|
    ensures var changes := ChangesOver(p, statement, events, outputs, calendarId, k);
            && |changes| == |ids|
            && (forall i :: 0 <= i < |ids| ==>
                              changes[i] == if statement.Deleting? then DeleteRow(Some(ids[i]))
                              else UpdateRow(Some(ids[i]), statement.lists[i]))
            && DistinctTargets(changes) && forall i :: 0 <= i < |changes| ==> WellTargeted(changes[i])
  {
    var changes := ChangesOver(p, statement, events, outputs, calendarId, k);
    forall i | 0 <= i < |ids|
      ensures changes[i] == if statement.Deleting? then DeleteRow(Some(ids[i]))
                            else UpdateRow(Some(ids[i]), statement.lists[i])
    {
      assert IdOf(server.live[ids[i]]) == Some(ids[i]);
    }
  }

  /** Scan, then UPDATE or DELETE: over a truthful network a statement on the rows of a scan completes, if
      it sets no read-only column or has RETURNING, and leaves of each scanned event what it says and every
      other event as it was. */
  lemma StatementOverScan(p: Platform, link: Link, world: World, statement: Statement, events: seq<Event>,
                          ids: seq<string>, outputs: seq<OutputColumn>, calendarId: string, k: nat, returning: bool,
                          id: string)
    requires Usable(link) && Truthful(link.net, link.attempts) && Consistent(world.server)
    requires ScannedFrom(world.server, events, ids) && k < |outputs| && outputs[k] == RowId
    requires statement.Updating? ==> |statement.lists| == |events|
    requires statement.Updating? && !returning ==> forall i :: 0 <= i < |events| ==> AllWritable(statement.lists[i])
    ensures var changes := ChangesOver(p, statement, events, outputs, calendarId, k);
            var outcome := ChangedAll(p, link, world, changes, returning, []);
            && outcome.failure.None?
            && (id !in ids ==> At(outcome.world.server.live, id) == At(world.server.live, id))
            && forall i :: 0 <= i < |ids| && ids[i] == id ==>
                             At(outcome.world.server.live, id) == LeftBy(p, statement, events[i], i)
  {
    var changes := ChangesOver(p, statement, events, outputs, calendarId, k);
    ChangesOverTargets(p, world.server, statement, events, ids, outputs, calendarId, k);
    RunCompletes(p, link, world, changes, returning, []);
    RunEffect(p, link, world, changes, returning, [], id);
    if id in ids {
      var i :| 0 <= i < |ids| && ids[i] == id;
      ChangeForAt(changes, i);
    } else {
      NoChangeFor(changes, id);
    }
  }
}
