/** Which columns UPDATE and INSERT write, and what each column of the read mapping reads
    (src/include/storage/event_mapping.hpp), column by column. */
module ColumnLaws {
  import opened Wrappers
  import opened EventModel
  import opened EventMapping
  import opened SetListLaws
  import opened EncodingLaws

  // ---------- what can be written ----------

  /** An event and a value on which writing the column shows. */
  function Shown(column: Column): (Event, Value)
    requires Writable(column, true)
  {
    if column.AllDay? then (map[StartKey := DateNode("2026-06-01")], Boolean(false))
    else (map[HomeKey(column) := Json.Null], NullValue)
  }

  /** UPDATE writes the text, flag and document columns, the times and all_day, and nothing else; and it can
      write a column exactly if setting it can change an event. */
  lemma WritableExactly(p: Platform, column: Column)
    ensures Writable(column, true)
       <==> column.Text? || column.Flag? || column.Raw? || column == Start || column == End || column == AllDay
    ensures Writable(column, false) <==> Writable(column, true) || column == EventId
    ensures Writable(column, true)
       <==> exists event: Event, value: Value ::
              HasType(column, value) && Applied(p, event, UntypedCell.Cell(column, value), false, true) != event
  {
    if Writable(column, true) {
      var (event, value) := Shown(column);
      var after := Applied(p, event, UntypedCell.Cell(column, value), false, true);
      if column == AllDay {
        assert NodeText(event[StartKey]) == Some("2026-06-01");
        assert after[StartKey] == DateTimeNode("2026-06-01" + "T00:00:00Z");
        assert "date" in event[StartKey].members && "date" !in after[StartKey].members;
      } else {
        assert HomeKey(column) in event && HomeKey(column) !in after;
      }
      assert after != event;
    }
  }

  // ---------- what is read ----------

  /** A document column reads as text that parses to the stored document, if that prints to text which
      does; NULL if there is none, or a JSON null. */
  lemma DocumentReads(p: Platform, event: Event, raw: RawField)
    ensures var stored, value := Lookup(event, RawKey(raw)), ExtractField(p, event, Raw(raw));
            && (stored.None? || stored.value.Null? ==> value == NullValue)
            && (stored.Some? && !stored.value.Null? && p.parse(p.dump(stored.value)) == stored ==>
                  value.Varchar? && p.parse(value.s) == stored)
  {
  }

  /** A text column reads as the stored string; as with a document if what is stored is no string. */
  lemma TextReads(p: Platform, event: Event, text: TextField)
    ensures var stored, value := Lookup(event, TextKey(text)), ExtractField(p, event, Text(text));
            && (stored.None? || stored.value.Null? ==> value == NullValue)
            && (forall s :: stored == Some(Str(s)) ==> value == Varchar(s))
            && (stored.Some? && !stored.value.Null? && !stored.value.Str? && p.parse(p.dump(stored.value)) == stored ==>
                  value.Varchar? && p.parse(value.s) == stored)
  {
  }

  /** A flag column reads as a stored boolean, and as NULL otherwise. */
  lemma FlagReads(p: Platform, event: Event, flag: FlagField)
    ensures var stored, value := Lookup(event, FlagKey(flag)), ExtractField(p, event, Flag(flag));
            && (forall b :: stored == Some(Bool(b)) ==> value == Boolean(b))
            && (stored.None? || !stored.value.Bool? ==> value == NullValue)
  {
  }

  /** all_day is true exactly if the start is an object with a date and without a dateTime. */
  lemma AllDayReads(p: Platform, event: Event, members: map<string, Json>)
    ensures ExtractField(p, event[StartKey := Obj(members)], AllDay)
         == Boolean("date" in members && "dateTime" !in members)
    ensures ExtractField(p, event - {StartKey}, AllDay) == Boolean(false)
  {
  }

  /** What a server-managed column reads of the member it is named by. */
  lemma ServerColumnsRead(p: Platform, event: Event, name: string, json: Json)
    ensures var after := event[OtherKey(name) := json];
            && (json.Str? ==> ExtractField(p, after, ServerText(name)) == Varchar(json.s))
            && (json.Null? ==>
                  ExtractField(p, after, ServerText(name)) == ExtractField(p, after, ServerRaw(name)) == NullValue)
            && (!json.Null? && p.parse(p.dump(json)) == Some(json) ==>
                  var text := ExtractField(p, after, ServerRaw(name));
                  text.Varchar? && p.parse(text.s) == Some(json))
            && ExtractField(p, after, ServerFlag(name)) == (if json.Bool? then Boolean(json.b) else NullValue)
    ensures ExtractField(p, event[OtherKey("sequence") := json], Sequence)
         == if json.Int? then Bigint(json.n) else NullValue
    ensures forall text ::
              ExtractField(p, event[OtherKey("originalStartTime") := DateTimeNode(text)], OriginalStartTime)
              == StampOf(p, text)
    ensures forall text ::
              ExtractField(p, event[OtherKey("originalStartTime") := DateNode(text)], OriginalStartTime)
              == StampOf(p, text)
  {
    forall text
      ensures NodeText(DateTimeNode(text)) == Some(text) && NodeText(DateNode(text)) == Some(text)
    {
    }
  }

  /** The event_id column is the id of the body, and calendar_id the calendar the event was read from. */
  lemma IdsRead(p: Platform, event: Event, id: string, calendarId: string)
    ensures ReadColumn(p, event[IdKey := Str(id)], EventId, calendarId) == Varchar(id)
    ensures ReadColumn(p, event, CalendarId, calendarId) == Varchar(calendarId)
  {
  }

  /** Every column but calendar_id is read from its own key alone. */
  lemma ReadAlone(p: Platform, event: Event, key: Key, json: Json, column: Column)
    requires column != CalendarId && key != ReadKey(column)
    ensures ExtractField(p, event[key := json], column) == ExtractField(p, event, column)
  {
    ReadFromItsKey(p, event[key := json], event, column);
  }
}
