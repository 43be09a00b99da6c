/** The sinks of INSERT, UPDATE and DELETE as the code runs them: one row after another, counting rows
    and collecting what RETURNING reports. */
module Sinks {
  import opened Wrappers
  import opened EventModel
  import opened EventMapping
  import opened RemoteCalendar
  import opened Mutations

  /** One row handed to a sink. Rows for UPDATE and DELETE carry a row id, which may be NULL. */
  datatype Change =
    | InsertRow(row: seq<Cell>)
    | UpdateRow(rowId: Option<string>, sets: seq<Cell>)
    | DeleteRow(rowId: Option<string>)

  /** The row id as a sink takes it from its chunk. */
  function RowIdOf(value: Value): Option<string>
    requires value.NullValue? || value.Varchar?
  {
    if value.NullValue? then None else Some(value.s)
  }

  predicate Skipped(change: Change) {
    !change.InsertRow? && change.rowId.None?
  }

  function Changed(p: Platform, link: Link, world: World, change: Change, returning: bool)
    : (World, Result<Event, Failure>)
    requires Usable(link) && !Skipped(change)
  {
    match change
    case InsertRow(row) => InsertedRow(link, world, EventOfRow(p, row))
    case UpdateRow(rowId, sets) => UpdatedRow(p, link, world, rowId.value, sets, returning)
    case DeleteRow(rowId) => DeletedRow(link, world, rowId.value, returning)
  }

  /** Where a run of changes ends: the world, the events of the rows completed, the failure if any. */
  datatype Outcome = Outcome(world: World, done: seq<Event>, failure: Option<Failure>)

  /** The changes carried out in order, up to the first failure; `done` collects. */
  function ChangedAll(p: Platform, link: Link, world: World, changes: seq<Change>, returning: bool, done: seq<Event>)
    : Outcome
    requires Usable(link)
    decreases changes
  {
    if changes == [] then Outcome(world, done, None)
    else if Skipped(changes[0]) then ChangedAll(p, link, world, changes[1..], returning, done)
    else
      var (next, result) := Changed(p, link, world, changes[0], returning);
      if result.Failure? then Outcome(next, done, Some(result.error))
      else ChangedAll(p, link, next, changes[1..], returning, done + [result.value])
  }

  function Rows(changes: seq<Change>): nat {
    if changes == [] then 0 else (if Skipped(changes[0]) then 0 else 1) + Rows(changes[1..])
  }

  /** A run that does not fail completes every row that has a row id; one that fails stops short. */
  lemma {:induction false} CompletedRows(p: Platform, link: Link, world: World, changes: seq<Change>, returning: bool,
                                         done: seq<Event>)
    requires Usable(link)
    ensures var outcome := ChangedAll(p, link, world, changes, returning, done);
            && done <= outcome.done
            && (outcome.failure.None? ==> |outcome.done| == |done| + Rows(changes))
            && (outcome.failure.Some? ==> |outcome.done| < |done| + Rows(changes))
    decreases changes
  {
    if changes == [] {
    } else {
      if Skipped(changes[0]) {
        CompletedRows(p, link, world, changes[1..], returning, done);
      } else {
        var (next, result) := Changed(p, link, world, changes[0], returning);
        if result.Success? {
          CompletedRows(p, link, next, changes[1..], returning, done + [result.value]);
        }
      }
    }
  }

  /** A run in two parts: the second is carried out where the first ends, and not at all if that failed. */
  lemma {:induction false} StopsAtFailure(p: Platform, link: Link, world: World, first: seq<Change>, rest: seq<Change>,
                                          returning: bool, done: seq<Event>)
    requires Usable(link)
    ensures var outcome := ChangedAll(p, link, world, first, returning, done);
            ChangedAll(p, link, world, first + rest, returning, done)
            == if outcome.failure.Some? then outcome
            else ChangedAll(p, link, outcome.world, rest, returning, outcome.done)
    decreases first
  {
    if first == [] {
      assert first + rest == rest;
    } else {
      assert (first + rest)[1..] == first[1..] + rest;
      if Skipped(first[0]) {
        StopsAtFailure(p, link, world, first[1..], rest, returning, done);
      } else {
        var (next, result) := Changed(p, link, world, first[0], returning);
        if result.Success? {
          StopsAtFailure(p, link, next, first[1..], rest, returning, done + [result.value]);
        }
      }
    }
  }

  function ReadRow(p: Platform, event: Event, names: seq<Column>, calendarId: string): seq<Value> {
    seq(|names|, i requires 0 <= i < |names| => ReadColumn(p, event, names[i], calendarId))
  }

  function ReadRows(p: Platform, events: seq<Event>, names: seq<Column>, calendarId: string): seq<seq<Value>> {
    seq(|events|, i requires 0 <= i < |events| => ReadRow(p, events[i], names, calendarId))
  }

  class Sink {
    const p: Platform
    const client: RetryingClient
    const jitter: nat -> nat
    const calendarId: string
    const names: seq<Column>
    const returnChunk: bool
    var count: nat
    var returned: seq<seq<Value>>

    function MyLink(): Link {
      Link(client.net, client.maxAttempts)
    }

    constructor (p: Platform, client: RetryingClient, jitter: nat -> nat, calendarId: string, names: seq<Column>,
                 returnChunk: bool)
      ensures this.p == p && this.client == client && this.calendarId == calendarId && this.names == names
      ensures this.returnChunk == returnChunk
      ensures count == 0 && returned == []
    {
      this.p, this.client, this.jitter, this.calendarId := p, client, jitter, calendarId;
      this.names, this.returnChunk := names, returnChunk;
      count, returned := 0, [];
    }

    /** The sink after completing rows that left these events. */
    ghost predicate Advanced(count0: nat, returned0: seq<seq<Value>>, done: seq<Event>)
      reads this
    {
      && count == count0 + |done|
      && returned == if returnChunk then returned0 + ReadRows(p, done, names, calendarId) else returned0
    }

    method Fetch(request: Request) returns (result: Result<Event, Failure>)
      requires Usable(MyLink())
      modifies client
      ensures (client.world, result) == Fetched(MyLink(), old(client.world), request)
    {
      var reply := client.Execute(request, jitter);
      if reply.Answered? && reply.response.status == 200 {
        return Success(reply.response.event);
      }
      return Failure(RequestFailed(StatusOf(reply)));
    }

    method Complete(event: Event)
      modifies this
      ensures count == old(count) + 1
      ensures returned == if returnChunk then old(returned) + [ReadRow(p, event, names, calendarId)] else old(returned)
    {
      count := count + 1;
      if returnChunk {
        var row := EventToRow(p, event, names, calendarId);
        assert row == ReadRow(p, event, names, calendarId);
        returned := returned + [row];
      }
    }

    method InsertOne(row: seq<Cell>) returns (result: Result<Event, Failure>)
      requires Usable(MyLink())
      modifies client
      ensures (client.world, result) == InsertedRow(MyLink(), old(client.world), EventOfRow(p, row))
    {
      var event := RowToEvent(p, row);
      result := Fetch(Insert(event.body));
      if result.Failure? {
        var id := IdOf(event.body);
        if result.error.status == Some(409) && id.Some? {
          result := Fetch(Update(id.value, event.body));
        } else {
          result := Failure(InsertFailed(id));
        }
      }
    }

    method UpdateOne(id: string, sets: seq<Cell>) returns (result: Result<Event, Failure>)
      requires Usable(MyLink())
      modifies client
      ensures (client.world, result) == UpdatedRow(p, MyLink(), old(client.world), id, sets, returnChunk)
    {
      var got := Fetch(Get(id));
      if got.Failure? {
        return got;
      }
      var event := new Document(got.value);
      var allDay := ExistingAllDay(event.body);
      for c := 0 to |sets|
        invariant EffectiveAllDay(allDay, sets[c..]) == EffectiveAllDay(ExistingAllDay(got.value), sets)
      {
        assert sets[c..][1..] == sets[c + 1..];
        if sets[c].column == AllDay {
          allDay := sets[c].value == Boolean(true);
        }
      }
      for c := 0 to |sets|
        invariant fresh(event)
        invariant AppliedAll(p, event.body, sets[c..], allDay, true) == Updated(p, got.value, sets)
        invariant !returnChunk ==> FirstReadOnly(sets[c..]) == FirstReadOnly(sets)
        invariant client.world == Fetched(MyLink(), old(client.world), Get(id)).0
      {
        assert sets[c..][1..] == sets[c + 1..];
        var writable := event.ApplyColumn(p, sets[c], allDay, true);
        if !writable && !returnChunk {
          return Failure(ReadOnlyColumn(sets[c].column));
        }
      }
      result := Fetch(Update(id, event.body));
    }

    method DeleteOne(id: string) returns (result: Result<Event, Failure>)
      requires Usable(MyLink())
      modifies client
      ensures (client.world, result) == DeletedRow(MyLink(), old(client.world), id, returnChunk)
    {
      result := Success(map[]);
      if returnChunk {
        result := Fetch(Get(id));
        if result.Failure? {
          return;
        }
      }
      var reply := client.Execute(Delete(id), jitter);
      if !(reply.Answered? && (reply.response.status == 200 || reply.response.status == 204)) {
        result := Failure(RequestFailed(StatusOf(reply)));
      }
    }

    /** Carries out one row. */
    method Perform(change: Change) returns (result: Result<Event, Failure>)
      requires Usable(MyLink()) && !Skipped(change)
      modifies client
      ensures (client.world, result) == Changed(p, MyLink(), old(client.world), change, returnChunk)
    {
      match change {
        case InsertRow(row) => result := InsertOne(row);
        case UpdateRow(rowId, sets) => result := UpdateOne(rowId.value, sets);
        case DeleteRow(rowId) => result := DeleteOne(rowId.value);
      }
    }

    /** Consumes a chunk: the rows are carried out in order up to the first failure, each completed
        row is counted once, and with RETURNING each is reported as it was left (or, deleted, as it was). */
    method Consume(changes: seq<Change>) returns (failure: Option<Failure>)
      requires Usable(MyLink())
      modifies this, client
      ensures var outcome := ChangedAll(p, MyLink(), old(client.world), changes, returnChunk, []);
              && client.world == outcome.world
              && failure == outcome.failure
              && Advanced(old(count), old(returned), outcome.done)
      ensures failure.None? ==> count == old(count) + Rows(changes)
      ensures failure.None? ==> |returned| == |old(returned)| + if returnChunk then Rows(changes) else 0
    {
      ghost var done: seq<Event> := [];
      for i := 0 to |changes|
        invariant count + Rows(changes[i..]) == old(count) + Rows(changes)
        invariant |returned| == |old(returned)| + if returnChunk then count - old(count) else 0
        invariant Advanced(old(count), old(returned), done)
        invariant ChangedAll(p, MyLink(), client.world, changes[i..], returnChunk, done)
               == ChangedAll(p, MyLink(), old(client.world), changes, returnChunk, [])
      {
        assert changes[i..][1..] == changes[i + 1..];
        if Skipped(changes[i]) {
          continue;
        }
        var result := Perform(changes[i]);
        if result.Failure? {
          return Some(result.error);
        }
        Complete(result.value);
        assert ReadRows(p, done + [result.value], names, calendarId)
            == ReadRows(p, done, names, calendarId) + [ReadRow(p, result.value, names, calendarId)];
        done := done + [result.value];
      }
      return None;
    }
  }

  /** What a sink has to report, handed out vector by vector. */
  class Source {
    const returnChunk: bool
    const returned: seq<seq<Value>>
    const count: nat
    var finished: bool
    var offset: nat

    /** The rows still to be handed out: the collected ones, or one row holding the count. */
    function Pending(): seq<seq<Value>>
      reads this
      requires offset <= |returned|
    {
      if returnChunk then returned[offset..] else if finished then [] else [[Bigint(count)]]
    }

    constructor (returnChunk: bool, returned: seq<seq<Value>>, count: nat)
      ensures this.returnChunk == returnChunk && this.returned == returned && this.count == count
      ensures offset == 0 && !finished
    {
      this.returnChunk, this.returned, this.count := returnChunk, returned, count;
      finished, offset := false, 0;
    }

    /** The next vector of at most 2048 rows, and whether it is the last. */
    method GetData() returns (chunk: seq<seq<Value>>, last: bool)
      requires offset <= |returned|
      modifies this
      ensures offset <= |returned|
      ensures |chunk| <= STANDARD_VECTOR_SIZE
      ensures old(Pending()) == chunk + Pending()
      ensures last <==> Pending() == []
      ensures !last ==> |chunk| == STANDARD_VECTOR_SIZE
    {
      if returnChunk {
        var n := if |returned| - offset < STANDARD_VECTOR_SIZE then |returned| - offset else STANDARD_VECTOR_SIZE;
        chunk := returned[offset..offset + n];
        offset := offset + n;
        return chunk, offset >= |returned|;
      }
      if finished {
        return [], true;
      }
      chunk := [[Bigint(count)]];
      finished := true;
      last := true;
    }
  }

  lemma HandedOut(rows: seq<seq<Value>>, chunk: seq<seq<Value>>, pending: seq<seq<Value>>)
    ensures rows + (chunk + pending) == rows + chunk + pending
  {
  }

  /** Draining what a sink has to report gives the collected rows, in order and each once, or one row with
      the number of rows completed. */
  method Report(sink: Sink) returns (rows: seq<seq<Value>>)
    ensures rows == if sink.returnChunk then sink.returned else [[Bigint(sink.count)]]
  {
    var source := new Source(sink.returnChunk, sink.returned, sink.count);
    ghost var all := source.Pending();
    ghost var pending := all;
    rows := [];
    var last := false;
    while !last
      invariant fresh(source) && source.offset <= |source.returned| && pending == source.Pending()
      invariant all == rows + pending
      invariant last ==> pending == []
      decreases !last, |pending|
    {
      var chunk;
      chunk, last := source.GetData();
      HandedOut(rows, chunk, source.Pending());
      rows, pending := rows + chunk, source.Pending();
    }
  }
}
