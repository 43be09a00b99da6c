/** The scan's cursor (src/storage/calendar_scan.cpp): pages of any size fetched one after another and
    re-cut into vectors of fixed size. */
module ScanCursor {
  import opened EventModel
  import opened EventMapping
  import opened Paging

  datatype OutputColumn = RowId | Named(column: Column)

  function OutputValue(p: Platform, event: Event, output: OutputColumn, calendarId: string): Value {
    match output
    case RowId => JsonString(p, event, IdKey)
    case Named(column) => ReadColumn(p, event, column, calendarId)
  }

  function OutputRow(p: Platform, event: Event, outputs: seq<OutputColumn>, calendarId: string): seq<Value> {
    seq(|outputs|, i requires 0 <= i < |outputs| => OutputValue(p, event, outputs[i], calendarId))
  }

  function OutputRows(p: Platform, events: seq<Event>, outputs: seq<OutputColumn>, calendarId: string): seq<seq<Value>>
    decreases events
  {
    if events == [] then []
    else [OutputRow(p, events[0], outputs, calendarId)] + OutputRows(p, events[1..], outputs, calendarId)
  }

  function Concat<T>(vectors: seq<seq<T>>): seq<T> {
    if vectors == [] then [] else vectors[0] + Concat(vectors[1..])
  }

  lemma {:induction false} ConcatLast<T>(vectors: seq<seq<T>>, last: seq<T>)
    ensures Concat(vectors + [last]) == Concat(vectors) + last
  {
    if vectors == [] {
      assert [last][1..] == [];
    } else {
      assert (vectors + [last])[1..] == vectors[1..] + [last];
      ConcatLast(vectors[1..], last);
    }
  }

  class Cursor {
    const p: Platform
    const listing: Listing<Event>
    const outputs: seq<OutputColumn>
    const calendarId: string
    var items: seq<Event>
    var itemIndex: nat
    var nextPageToken: string
    var finished: bool
    ghost var pagesLeft: nat

    ghost predicate Valid()
      reads this
    {
      && itemIndex <= |items|
      && (nextPageToken != "" ==> pagesLeft > 0 && Chained(listing, nextPageToken, pagesLeft - 1))
      && (finished ==> itemIndex == |items| && nextPageToken == "")
    }

    /** The events still to be emitted: the rest of this page, then all later pages. */
    ghost function Pending(): seq<Event>
      reads this
      requires Valid()
    {
      items[itemIndex..] + if nextPageToken == "" then [] else ItemsFrom(listing, nextPageToken, pagesLeft - 1)
    }

    /** Starting a scan fetches the first page. */
    constructor (p: Platform, listing: Listing<Event>, outputs: seq<OutputColumn>, calendarId: string, ghost more: nat)
      requires Chained(listing, "", more)
      ensures Valid() && !finished
      ensures Pending() == ItemsFrom(listing, "", more)
      ensures this.p == p && this.listing == listing && this.outputs == outputs && this.calendarId == calendarId
    {
      this.p, this.listing, this.outputs, this.calendarId := p, listing, outputs, calendarId;
      items, itemIndex, nextPageToken, finished := [], 0, "", false;
      pagesLeft := more;
      new;
      FetchPage(more);
    }

    method FetchPage(ghost more: nat)
      requires Chained(listing, nextPageToken, more)
      modifies this
      ensures !old(finished) ==> Valid() && !finished
      ensures pagesLeft == more
      ensures !old(finished) ==> Pending() == ItemsFrom(listing, old(nextPageToken), more)
      ensures itemIndex == 0
      ensures finished == old(finished)
    {
      var response := listing[nextPageToken];
      pagesLeft := more;
      nextPageToken := response.nextToken;
      if response.items.Some? {
        items := response.items.value;
      } else {
        items := [];
      }
      itemIndex := 0;
    }

    /** The row of one event, column by column. */
    method EmitRow(event: Event) returns (row: seq<Value>)
      ensures row == OutputRow(p, event, outputs, calendarId)
    {
      row := [];
      for col := 0 to |outputs|
        invariant |row| == col
        invariant forall i :: 0 <= i < col ==> row[i] == OutputValue(p, event, outputs[i], calendarId)
      {
        match outputs[col] {
          case RowId => row := row + [JsonString(p, event, IdKey)];
          case Named(CalendarId) => row := row + [Varchar(calendarId)];
          case Named(column) => row := row + [ExtractField(p, event, column)];
        }
      }
    }

    /** Takes the next item of this page. */
    method TakeItem() returns (event: Event)
      requires Valid() && itemIndex < |items|
      modifies this`itemIndex
      ensures Valid() && itemIndex == old(itemIndex) + 1
      ensures old(Pending()) == [event] + Pending()
    {
      event := items[itemIndex];
      ghost var rest := items[itemIndex + 1..];
      assert items[itemIndex..] == [event] + rest;
      itemIndex := itemIndex + 1;
    }

    /** The number of pages that may still be fetched. */
    ghost function PagesAhead(): nat
      reads this
    {
      if nextPageToken == "" then 0 else pagesLeft
    }

    /** At the end of a page: on to the next one, or finished. */
    method NextPage()
      requires Valid() && !finished && itemIndex >= |items|
      modifies this
      ensures Valid() && Pending() == old(Pending())
      ensures finished ==> Pending() == []
      ensures !finished ==> PagesAhead() < old(PagesAhead())
    {
      if nextPageToken == "" {
        finished := true;
      } else {
        FetchPage(pagesLeft - 1);
      }
    }

    /** One output vector: the next 2048 pending events, or all of them if fewer are left, in which
        case the scan is finished. */
    method Scan() returns (rows: seq<seq<Value>>)
      requires Valid()
      modifies this
      ensures Valid()
      ensures var n := if |old(Pending())| < STANDARD_VECTOR_SIZE then |old(Pending())| else STANDARD_VECTOR_SIZE;
              && rows == OutputRows(p, old(Pending())[..n], outputs, calendarId)
              && Pending() == old(Pending())[n..]
              && (n < STANDARD_VECTOR_SIZE ==> finished)
    {
      ghost var start := Pending();
      ghost var taken: seq<Event> := [];
      rows := [];
      while |rows| < STANDARD_VECTOR_SIZE && !finished
        invariant Valid()
        invariant |rows| == |taken| <= STANDARD_VECTOR_SIZE
        invariant rows == OutputRows(p, taken, outputs, calendarId)
        invariant start == taken + Pending()
        invariant finished ==> Pending() == []
        decreases !finished, PagesAhead(), |items| - itemIndex
      {
        if itemIndex >= |items| {
          NextPage();
          continue;
        }
        var event := TakeItem();
        var row := EmitRow(event);
        OutputRowsLast(p, taken, event, outputs, calendarId);
        Shift(taken, event, Pending());
        rows, taken := rows + [row], taken + [event];
      }
      VectorCut(start, taken, Pending());
    }
  }

  lemma {:induction false} OutputRowsSplit(p: Platform, a: seq<Event>, b: seq<Event>, outputs: seq<OutputColumn>,
                                           calendarId: string)
    ensures OutputRows(p, a + b, outputs, calendarId)
         == OutputRows(p, a, outputs, calendarId) + OutputRows(p, b, outputs, calendarId)
    decreases a
  {
    if a == [] {
      assert a + b == b;
    } else {
      assert (a + b)[1..] == a[1..] + b;
      OutputRowsSplit(p, a[1..], b, outputs, calendarId);
    }
  }

  lemma Shift(taken: seq<Event>, event: Event, rest: seq<Event>)
    ensures taken + ([event] + rest) == (taken + [event]) + rest
  {
  }

  lemma VectorCut(start: seq<Event>, taken: seq<Event>, rest: seq<Event>)
    requires start == taken + rest && |taken| <= STANDARD_VECTOR_SIZE
    requires |taken| < STANDARD_VECTOR_SIZE ==> rest == []
    ensures |taken| == if |start| < STANDARD_VECTOR_SIZE then |start| else STANDARD_VECTOR_SIZE
    ensures start[..|taken|] == taken && start[|taken|..] == rest
  {
  }

  lemma {:induction false} OutputRowsCount(p: Platform, events: seq<Event>, outputs: seq<OutputColumn>,
                                           calendarId: string)
    ensures |OutputRows(p, events, outputs, calendarId)| == |events|
    decreases events
  {
    if events == [] {
    } else {
      OutputRowsCount(p, events[1..], outputs, calendarId);
    }
  }

  lemma OutputRowsLast(p: Platform, a: seq<Event>, last: Event, outputs: seq<OutputColumn>, calendarId: string)
    ensures OutputRows(p, a + [last], outputs, calendarId)
         == OutputRows(p, a, outputs, calendarId) + [OutputRow(p, last, outputs, calendarId)]
  {
    OutputRowsSplit(p, a, [last], outputs, calendarId);
    assert [last][1..] == [];
  }

  /** Vectors that all hold rows; all are full but perhaps the last, and that only at the end. */
  ghost predicate WellCut(vectors: seq<seq<seq<Value>>>, atEnd: bool) {
    && (forall i :: 0 <= i < |vectors| ==> 0 < |vectors[i]| <= 2048)
    && (forall i :: 0 <= i < |vectors| && (i < |vectors| - 1 || !atEnd) ==> |vectors[i]| == STANDARD_VECTOR_SIZE)
  }

  /** The next vector of a scan with these events pending. */
  ghost predicate NextVector(p: Platform, pending: seq<Event>, vector: seq<seq<Value>>, outputs: seq<OutputColumn>,
                             calendarId: string) {
    && |vector| == (if |pending| < STANDARD_VECTOR_SIZE then |pending| else STANDARD_VECTOR_SIZE)
    && vector == OutputRows(p, pending[..|vector|], outputs, calendarId)
  }

  lemma VectorLength(p: Platform, pending: seq<Event>, vector: seq<seq<Value>>, outputs: seq<OutputColumn>,
                     calendarId: string)
    requires var n := if |pending| < STANDARD_VECTOR_SIZE then |pending| else STANDARD_VECTOR_SIZE;
             vector == OutputRows(p, pending[..n], outputs, calendarId)
    ensures NextVector(p, pending, vector, outputs, calendarId)
  {
    var n := if |pending| < STANDARD_VECTOR_SIZE then |pending| else STANDARD_VECTOR_SIZE;
    OutputRowsCount(p, pending[..n], outputs, calendarId);
  }

  lemma VectorAppended(p: Platform, emitted: seq<Event>, pending: seq<Event>, vectors: seq<seq<seq<Value>>>,
                       vector: seq<seq<Value>>, outputs: seq<OutputColumn>, calendarId: string)
    requires NextVector(p, pending, vector, outputs, calendarId) && vector != []
    requires Concat(vectors) == OutputRows(p, emitted, outputs, calendarId) && WellCut(vectors, pending == [])
    ensures Concat(vectors + [vector]) == OutputRows(p, emitted + pending[..|vector|], outputs, calendarId)
    ensures WellCut(vectors + [vector], pending[|vector|..] == [])
    ensures emitted + pending == emitted + pending[..|vector|] + pending[|vector|..]
  {
    OutputRowsSplit(p, emitted, pending[..|vector|], outputs, calendarId);
    ConcatLast(vectors, vector);
  }

  /** Draining a scan as an executor does, until a vector comes back empty: the vectors before it hold
      the items of all pages, in order and each once, and are all full but perhaps the last. */
  method Drain(p: Platform, listing: Listing<Event>, outputs: seq<OutputColumn>, calendarId: string, ghost more: nat)
    returns (vectors: seq<seq<seq<Value>>>)
    requires Chained(listing, "", more)
    ensures Concat(vectors) == OutputRows(p, ItemsFrom(listing, "", more), outputs, calendarId)
    ensures WellCut(vectors, true)
  {
    var cursor := new Cursor(p, listing, outputs, calendarId, more);
    ghost var all := cursor.Pending();
    ghost var emitted: seq<Event> := [];
    ghost var pending := all;
    vectors := [];
    var vector := cursor.Scan();
    VectorLength(p, pending, vector, outputs, calendarId);
    while vector != []
      invariant fresh(cursor) && cursor.Valid()
      invariant cursor.p == p && cursor.outputs == outputs && cursor.calendarId == calendarId
      invariant NextVector(p, pending, vector, outputs, calendarId)
      invariant cursor.Pending() == pending[|vector|..]
      invariant all == emitted + pending
      invariant Concat(vectors) == OutputRows(p, emitted, outputs, calendarId)
      invariant WellCut(vectors, pending == [])
      decreases |pending|
    {
      VectorAppended(p, emitted, pending, vectors, vector, outputs, calendarId);
      emitted, pending := emitted + pending[..|vector|], pending[|vector|..];
      vectors := vectors + [vector];
      vector := cursor.Scan();
      VectorLength(p, pending, vector, outputs, calendarId);
    }
    assert emitted == all;
  }
}
