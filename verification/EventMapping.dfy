/** The mapping between rows and event bodies (src/include/storage/event_mapping.hpp): how one SQL
    column is written into an event, how a row or a SET list is folded into one, and how an event is
    read back as a row. */
module EventMapping {
  import opened Wrappers
  import opened EventModel

  // ---------- time nodes ----------

  function Prefix10(s: string): string {
    if |s| <= 10 then s else s[..10]
  }

  function SpacesToT(s: string): string {
    seq(|s|, i requires 0 <= i < |s| => if s[i] == ' ' then 'T' else s[i])
  }

  function FormatRfc3339(p: Platform, micros: int): string {
    SpacesToT(p.stampText(micros)) + "Z"
  }

  function FormatDate(p: Platform, micros: int): string {
    Prefix10(p.stampText(micros))
  }

  function DateNode(text: string): Json {
    Obj(map["date" := Str(text)])
  }

  function DateTimeNode(text: string): Json {
    Obj(map["dateTime" := Str(text)])
  }

  function TimeNode(p: Platform, micros: int, allDay: bool): Json {
    if allDay then DateNode(FormatDate(p, micros)) else DateTimeNode(FormatRfc3339(p, micros))
  }

  function StringMember(node: Json, name: string): Option<string> {
    if node.Obj? && name in node.members && node.members[name].Str? then Some(node.members[name].s) else None
  }

  /** The text of a time node: its dateTime if that is a string, else its date if that is one. */
  function NodeText(node: Json): Option<string> {
    var dateTime := StringMember(node, "dateTime");
    if dateTime.Some? then dateTime else StringMember(node, "date")
  }

  function ReencodedText(raw: string, allDay: bool): Json {
    if allDay then DateNode(Prefix10(raw))
    else DateTimeNode(if |raw| == 10 then raw + "T00:00:00Z" else raw)
  }

  function Reencoded(node: Json, allDay: bool): Json {
    match NodeText(node)
    case Some(raw) => ReencodedText(raw, allDay)
    case None => node
  }

  function ReencodeKey(event: Event, key: Key, allDay: bool): Event {
    if key in event then event[key := Reencoded(event[key], allDay)] else event
  }

  predicate ExistingAllDay(event: Event) {
    && StartKey in event && event[StartKey].Obj?
    && "date" in event[StartKey].members && "dateTime" !in event[StartKey].members
  }

  // ---------- write mapping ----------

  function WithPassthrough(p: Platform, event: Event, key: Key, text: string): Event {
    if text == "" then event
    else match p.parse(text)
         case Some(json) => event[key := json]
         case None => event
  }

  function WithNull(event: Event, key: Key, update: bool): Event {
    if update then event - {key} else event
  }

  predicate Writable(column: Column, update: bool) {
    match column
    case EventId => !update
    case Text(_) => true
    case Flag(_) => true
    case Raw(_) => true
    case Start => true
    case End => true
    case AllDay => true
    case _ => false
  }

  /** The event after one column is applied to it, by the column's kind; a column that is not writable
      in this mode leaves it alone. */
  function Applied(p: Platform, event: Event, cell: Cell, allDay: bool, update: bool): Event {
    match cell.column
    case EventId =>
      if update || cell.value.NullValue? then event else event[IdKey := Str(cell.value.s)]
    case Text(t) =>
      if cell.value.NullValue? then WithNull(event, TextKey(t), update)
      else event[TextKey(t) := Str(cell.value.s)]
    case Flag(f) =>
      if cell.value.NullValue? then WithNull(event, FlagKey(f), update)
      else event[FlagKey(f) := Bool(cell.value.b)]
    case Raw(r) =>
      if cell.value.NullValue? then WithNull(event, RawKey(r), update)
      else WithPassthrough(p, event, RawKey(r), cell.value.s)
    case Start =>
      if cell.value.NullValue? then WithNull(event, StartKey, update)
      else event[StartKey := TimeNode(p, cell.value.micros, allDay)]
    case End =>
      if cell.value.NullValue? then WithNull(event, EndKey, update)
      else event[EndKey := TimeNode(p, cell.value.micros, allDay)]
    case AllDay =>
      if update then ReencodeKey(ReencodeKey(event, StartKey, allDay), EndKey, allDay) else event
    case _ => event
  }

  /** Columns applied in list order. */
  function AppliedAll(p: Platform, event: Event, cells: seq<Cell>, allDay: bool, update: bool): Event
    decreases cells
  {
    if cells == [] then event
    else AppliedAll(p, Applied(p, event, cells[0], allDay, update), cells[1..], allDay, update)
  }

  predicate IsTrue(value: Option<Value>) {
    value.Some? && value.value == Boolean(true)
  }

  /** Does an INSERT row carry all_day = true? */
  predicate RowAllDay(row: seq<Cell>) {
    IsTrue(Find(row, AllDay))
  }

  function EventOfRow(p: Platform, row: seq<Cell>): Event {
    AppliedAll(p, map[], row, RowAllDay(row), false)
  }

  /** The flag an UPDATE encodes times by: the last all_day of the SET list, else the event's own. */
  predicate EffectiveAllDay(existing: bool, sets: seq<Cell>)
    decreases sets
  {
    if sets == [] then existing
    else EffectiveAllDay(
           if sets[0].column == AllDay then sets[0].value == Boolean(true) else existing, sets[1..])
  }

  function Updated(p: Platform, event: Event, sets: seq<Cell>): Event {
    AppliedAll(p, event, sets, EffectiveAllDay(ExistingAllDay(event), sets), true)
  }

  // ---------- read mapping ----------

  function JsonString(p: Platform, event: Event, key: Key): Value {
    match Lookup(event, key)
    case None => NullValue
    case Some(Null) => NullValue
    case Some(Str(s)) => Varchar(s)
    case Some(json) => Varchar(p.dump(json))
  }

  function JsonRaw(p: Platform, event: Event, key: Key): Value {
    match Lookup(event, key)
    case None => NullValue
    case Some(Null) => NullValue
    case Some(json) => Varchar(p.dump(json))
  }

  function JsonBool(event: Event, key: Key): Value {
    match Lookup(event, key)
    case Some(Bool(b)) => Boolean(b)
    case _ => NullValue
  }

  function JsonBigint(event: Event, key: Key): Value {
    match Lookup(event, key)
    case Some(Int(n)) => Bigint(n)
    case _ => NullValue
  }

  function ParseNode(p: Platform, node: Json): Value {
    match NodeText(node)
    case None => NullValue
    case Some(raw) =>
      match p.castStamp(raw)
      case Some(micros) => Timestamp(micros)
      case None => NullValue
  }

  function ParseEventTime(p: Platform, event: Event, key: Key): Value {
    if key in event then ParseNode(p, event[key]) else NullValue
  }

  /** One column of the row an event reads as; calendar_id is not on the event body. */
  function ExtractField(p: Platform, event: Event, column: Column): (r: Value)
    ensures HasType(column, r)
  {
    match column
    case CalendarId => NullValue
    case EventId => JsonString(p, event, IdKey)
    case Text(t) => JsonString(p, event, TextKey(t))
    case Flag(f) => JsonBool(event, FlagKey(f))
    case Raw(r) => JsonRaw(p, event, RawKey(r))
    case Start => ParseEventTime(p, event, StartKey)
    case End => ParseEventTime(p, event, EndKey)
    case AllDay => Boolean(ExistingAllDay(event))
    case ServerText(name) => JsonString(p, event, OtherKey(name))
    case ServerRaw(name) => JsonRaw(p, event, OtherKey(name))
    case ServerFlag(name) => JsonBool(event, OtherKey(name))
    case OriginalStartTime => ParseEventTime(p, event, OtherKey("originalStartTime"))
    case Sequence => JsonBigint(event, OtherKey("sequence"))
  }

  function ReadColumn(p: Platform, event: Event, column: Column, calendarId: string): (r: Value)
    ensures HasType(column, r)
  {
    if column == CalendarId then Varchar(calendarId) else ExtractField(p, event, column)
  }

  // ---------- the same, as the code runs it ----------

  /** A JSON event held by reference and changed in place. */
  class Document {
    var body: Event

    constructor (body: Event)
      ensures this.body == body
    {
      this.body := body;
    }

    method SetJsonPassthrough(p: Platform, key: Key, value: Value)
      requires value.NullValue? || value.Varchar?
      modifies this
      ensures body == if value.NullValue? then old(body) else WithPassthrough(p, old(body), key, value.s)
    {
      if value.NullValue? || value.s == "" {
        return;
      }
      var parsed := p.parse(value.s);
      if parsed.Some? {
        body := body[key := parsed.value];
      }
    }

    method ReencodeTimeNode(key: Key, allDay: bool)
      modifies this
      ensures body == ReencodeKey(old(body), key, allDay)
    {
      if key !in body || !body[key].Obj? {
        return;
      }
      var members := body[key].members;
      var raw;
      if "dateTime" in members && members["dateTime"].Str? {
        raw := members["dateTime"].s;
      } else if "date" in members && members["date"].Str? {
        raw := members["date"].s;
      } else {
        return;
      }
      if allDay {
        body := body[key := DateNode(Prefix10(raw))];
      } else {
        body := body[key := DateTimeNode(if |raw| == 10 then raw + "T00:00:00Z" else raw)];
      }
    }

    /** Writes one cell into the document; says whether its column is writable in this mode. */
    method ApplyColumn(p: Platform, cell: Cell, allDay: bool, update: bool) returns (writable: bool)
      modifies this
      ensures body == Applied(p, old(body), cell, allDay, update)
      ensures writable == Writable(cell.column, update)
      ensures !writable ==> body == old(body)
    {
      var value := cell.value;
      match cell.column {
        case EventId =>
          if update {
            return false;
          }
          if !value.NullValue? {
            body := body[IdKey := Str(value.s)];
          }
        case Text(t) =>
          if !value.NullValue? {
            body := body[TextKey(t) := Str(value.s)];
          } else if update {
            body := body - {TextKey(t)};
          }
        case Flag(f) =>
          if !value.NullValue? {
            body := body[FlagKey(f) := Bool(value.b)];
          } else if update {
            body := body - {FlagKey(f)};
          }
        case Raw(r) =>
          if !value.NullValue? {
            SetJsonPassthrough(p, RawKey(r), value);
          } else if update {
            body := body - {RawKey(r)};
          }
        case Start =>
          if !value.NullValue? {
            body := body[StartKey := TimeNode(p, value.micros, allDay)];
          } else if update {
            body := body - {StartKey};
          }
        case End =>
          if !value.NullValue? {
            body := body[EndKey := TimeNode(p, value.micros, allDay)];
          } else if update {
            body := body - {EndKey};
          }
        case AllDay =>
          if update {
            ReencodeTimeNode(StartKey, allDay);
            ReencodeTimeNode(EndKey, allDay);
          }
        case _ =>
          return false;
      }
      return true;
    }
  }

  method ComputeRowAllDay(row: seq<Cell>) returns (allDay: bool)
    ensures allDay == RowAllDay(row)
  {
    for c := 0 to |row|
      invariant Find(row, AllDay) == Find(row[c..], AllDay)
    {
      if row[c].column == AllDay {
        return row[c].value == Boolean(true);
      }
    }
    return false;
  }

  /** Builds a full event body from an INSERT row. */
  method RowToEvent(p: Platform, row: seq<Cell>) returns (event: Document)
    ensures fresh(event) && event.body == EventOfRow(p, row)
  {
    event := new Document(map[]);
    var allDay := ComputeRowAllDay(row);
    for c := 0 to |row|
      invariant fresh(event)
      invariant AppliedAll(p, event.body, row[c..], allDay, false) == EventOfRow(p, row)
    {
      assert row[c..][1..] == row[c + 1..];
      var _ := event.ApplyColumn(p, row[c], allDay, false);
    }
  }

  /** The row an event reads as, one value for each requested column. */
  method EventToRow(p: Platform, event: Event, names: seq<Column>, calendarId: string)
    returns (row: seq<Value>)
    ensures |row| == |names|
    ensures forall i :: 0 <= i < |names| ==> row[i] == ReadColumn(p, event, names[i], calendarId)
  {
    row := [];
    for c := 0 to |names|
      invariant |row| == c
      invariant forall i :: 0 <= i < c ==> row[i] == ReadColumn(p, event, names[i], calendarId)
    {
      row := row + [if names[c] == CalendarId then Varchar(calendarId) else ExtractField(p, event, names[c])];
    }
  }
}
