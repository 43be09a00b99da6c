/** The columns of an events table (src/storage/event_schema.cpp). */
module EventSchema {
  import opened EventModel
  import opened EventMapping

  /** The columns of a table, in the order in which they are listed, and the id of its calendar. */
  datatype Table = Table(names: seq<Column>, calendarId: string)

  /** Each column once, and every column that UPDATE can write among them. */
  ghost predicate IsTable(table: Table) {
    && (forall i, j :: 0 <= i < j < |table.names| ==> table.names[i] != table.names[j])
    && forall column :: Writable(column, true) ==> column in table.names
  }

  const CORE_COLUMNS: seq<Column> := [
    CalendarId, EventId, Text(Summary), Text(Description), Text(Location), Text(Status), ServerText("htmlLink"),
    ServerText("created"), ServerText("updated"), Start, End, AllDay]

  const IDENTITY_COLUMNS: seq<Column> := [
    Text(ColorId), Text(Transparency), Text(Visibility), Text(EventType), ServerText("recurringEventId"),
    OriginalStartTime, ServerText("iCalUID"), Sequence, ServerText("etag"), ServerText("kind")]

  const PEOPLE_COLUMNS: seq<Column> := [
    ServerText("hangoutLink"), ServerRaw("creator"), ServerRaw("organizer"), ServerFlag("endTimeUnspecified"),
    ServerFlag("attendeesOmitted"), Flag(AnyoneCanAddSelf), Flag(GuestsCanInviteOthers), Flag(GuestsCanModify),
    Flag(GuestsCanSeeOtherGuests), ServerFlag("privateCopy"), ServerFlag("locked")]

  const DOCUMENT_COLUMNS: seq<Column> := [
    Raw(Attendees), Raw(Recurrence), Raw(Reminders), Raw(ConferenceData), Raw(ExtendedProperties), Raw(RawField.Source),
    Raw(Attachments), Raw(WorkingLocationProperties), ServerRaw("outOfOfficeProperties"),
    ServerRaw("focusTimeProperties")]

  const EVENTS_COLUMNS: seq<Column> := CORE_COLUMNS + IDENTITY_COLUMNS + PEOPLE_COLUMNS + DOCUMENT_COLUMNS

  /** The place of a column in the schema; a server column is told by its name's length and first letter. */
  function Place(column: Column): int {
    match column
    case CalendarId => 0
    case EventId => 1
    case Text(t) => TextPlace(t)
    case Start => 9
    case End => 10
    case AllDay => 11
    case OriginalStartTime => 17
    case Sequence => 19
    case Flag(f) => FlagPlace(f)
    case Raw(r) => RawPlace(r)
    case ServerText(name) => ServerTextPlace(name)
    case ServerRaw(name) =>
      if |name| == 7 then 23 else if |name| == 9 then 24 else if |name| == 21 then 41 else 42
    case ServerFlag(name) =>
      if |name| == 18 then 25 else if |name| == 16 then 26 else if |name| == 11 then 31 else 32
  }

  function TextPlace(text: TextField): int {
    match text
    case Summary => 2
    case Description => 3
    case Location => 4
    case Status => 5
    case ColorId => 12
    case Transparency => 13
    case Visibility => 14
    case EventType => 15
  }

  function FlagPlace(flag: FlagField): int {
    match flag
    case AnyoneCanAddSelf => 27
    case GuestsCanInviteOthers => 28
    case GuestsCanModify => 29
    case GuestsCanSeeOtherGuests => 30
  }

  function RawPlace(raw: RawField): int {
    match raw
    case Attendees => 33
    case Recurrence => 34
    case Reminders => 35
    case ConferenceData => 36
    case ExtendedProperties => 37
    case Source => 38
    case Attachments => 39
    case WorkingLocationProperties => 40
  }

  function ServerTextPlace(name: string): int {
    if |name| == 8 then 6
    else if |name| == 16 then 16
    else if |name| == 11 then 22
    else if |name| == 7 then if name[0] == 'c' then 7 else if name[0] == 'u' then 8 else 18
    else if name != [] && name[0] == 'e' then 20
    else 21
  }

  lemma Places()
    ensures forall i :: 0 <= i < |CORE_COLUMNS| ==> Place(CORE_COLUMNS[i]) == i
    ensures forall i :: 0 <= i < |IDENTITY_COLUMNS| ==> Place(IDENTITY_COLUMNS[i]) == 12 + i
    ensures forall i :: 0 <= i < |PEOPLE_COLUMNS| ==> Place(PEOPLE_COLUMNS[i]) == 22 + i
    ensures forall i :: 0 <= i < |DOCUMENT_COLUMNS| ==> Place(DOCUMENT_COLUMNS[i]) == 33 + i
  {
  }

  lemma SchemaPlaces(i: nat)
    requires i < |EVENTS_COLUMNS|
    ensures Place(EVENTS_COLUMNS[i]) == i
  {
    Places();
    assert |CORE_COLUMNS| == 12 && |IDENTITY_COLUMNS| == 10 && |PEOPLE_COLUMNS| == 11;
  }

  lemma SchemaHas(column: Column)
    requires Writable(column, true)
    ensures 0 <= Place(column) < |EVENTS_COLUMNS| && EVENTS_COLUMNS[Place(column)] == column
  {
    assert |CORE_COLUMNS| == 12 && |IDENTITY_COLUMNS| == 10 && |PEOPLE_COLUMNS| == 11 && |DOCUMENT_COLUMNS| == 10;
  }

  /** The events schema names 43 columns, each once and all writable ones among them. */
  lemma SchemaIsTable(calendarId: string)
    ensures IsTable(Table(EVENTS_COLUMNS, calendarId)) && |EVENTS_COLUMNS| == 43
  {
    assert |EVENTS_COLUMNS| == 43;
    forall i, j | 0 <= i < j < |EVENTS_COLUMNS| ensures EVENTS_COLUMNS[i] != EVENTS_COLUMNS[j] {
      SchemaPlaces(i);
      SchemaPlaces(j);
    }
    forall column | Writable(column, true) ensures column in EVENTS_COLUMNS {
      SchemaHas(column);
    }
  }
}
