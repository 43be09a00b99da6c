/** The values that cross the boundary between SQL and the calendar API: JSON documents, event
    bodies, SQL values, and the columns of an events table. */
module EventModel {
  import opened Wrappers

  const DAY_MICROS: int := 86400000000

  const STANDARD_VECTOR_SIZE: nat := 2048

  datatype Json =
    | Null
    | Bool(b: bool)
    | Int(n: int)
    | Real(r: real)
    | Str(s: string)
    | Arr(elements: seq<Json>)
    | Obj(members: map<string, Json>)

  /** The writable columns, grouped by encoding as the write mapping groups them. */
  datatype TextField =
    | Summary | Description | Location | Status | ColorId | Transparency | Visibility | EventType

  datatype FlagField =
    | AnyoneCanAddSelf | GuestsCanInviteOthers | GuestsCanModify | GuestsCanSeeOtherGuests

  datatype RawField =
    | Attendees | Recurrence | Reminders | ConferenceData | ExtendedProperties | Source
    | Attachments | WorkingLocationProperties

  /** Top-level keys of an event body. Every key no writable column maps to is an OtherKey. */
  datatype Key =
    | IdKey
    | TextKey(text: TextField)
    | FlagKey(flag: FlagField)
    | RawKey(raw: RawField)
    | StartKey
    | EndKey
    | OtherKey(name: string)

  /** An event body. The JSON null that a body starts as, before its first key, is the empty map. */
  type Event = map<Key, Json>

  function Lookup(event: Event, key: Key): Option<Json> {
    if key in event then Some(event[key]) else None
  }

  /** SQL values, as far as the events schema uses them. Timestamps are microseconds since 1970 UTC. */
  datatype Value =
    | NullValue
    | Varchar(s: string)
    | Boolean(b: bool)
    | Timestamp(micros: int)
    | Bigint(n: int)

  /** Columns of an events table; the Server columns are the read-only ones, named by their JSON key. */
  datatype Column =
    | CalendarId
    | EventId
    | Text(text: TextField)
    | Flag(flag: FlagField)
    | Raw(raw: RawField)
    | Start
    | End
    | AllDay
    | ServerText(name: string)
    | ServerRaw(name: string)
    | ServerFlag(name: string)
    | OriginalStartTime
    | Sequence

  predicate HasType(column: Column, value: Value) {
    match column
    case Flag(_) => value.NullValue? || value.Boolean?
    case ServerFlag(_) => value.NullValue? || value.Boolean?
    case AllDay => value.NullValue? || value.Boolean?
    case Start => value.NullValue? || value.Timestamp?
    case End => value.NullValue? || value.Timestamp?
    case OriginalStartTime => value.NullValue? || value.Timestamp?
    case Sequence => value.NullValue? || value.Bigint?
    case _ => value.NullValue? || value.Varchar?
  }

  /** One column of a row, or one assignment of a SET list; the binder has cast it to its type. */
  datatype UntypedCell = Cell(column: Column, value: Value)
  type Cell = c: UntypedCell | HasType(c.column, c.value) witness UntypedCell.Cell(CalendarId, NullValue)

  /** The value a list of cells gives a column: that of the first cell naming it. */
  function Find(cells: seq<Cell>, column: Column): (r: Option<Value>)
    ensures r.Some? ==> HasType(column, r.value)
  {
    if cells == [] then None
    else if cells[0].column == column then Some(cells[0].value)
    else Find(cells[1..], column)
  }

  ghost predicate DistinctColumns(cells: seq<Cell>) {
    forall i, j :: 0 <= i < j < |cells| ==> cells[i].column != cells[j].column
  }

  /** The last midnight UTC at or before an instant. */
  function FloorDay(micros: int): (midnight: int)
    ensures midnight <= micros < midnight + 24 * 60 * 60 * 1000000 && midnight % (24 * 60 * 60 * 1000000) == 0
  {
    micros - micros % DAY_MICROS
  }

  /** What the extension takes from DuckDB and from its JSON library: how a timestamp prints, how
      text casts to TIMESTAMP WITH TIME ZONE, and how JSON text is parsed and printed. */
  datatype Platform = Platform(
    stampText: int -> string,
    castStamp: string -> Option<int>,
    parse: string -> Option<Json>,
    dump: Json -> string)
}
