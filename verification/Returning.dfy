/** UPDATE with RETURNING (src/storage/calendar_update.cpp:61-70): the SET list is expanded to the whole
    row, so every column it does not set is written too, with the value the event reads as. What that
    does to the event, compared with the plain list. */
module Returning {
  import opened Wrappers
  import opened EventModel
  import opened EventMapping
  import opened SetListLaws
  import opened EncodingLaws
  import opened EventSchema

  /** The cells of the scanned row for the columns that a list does not set. */
  function ExistingCells(p: Platform, event: Event, names: seq<Column>, calendarId: string, sets: seq<Cell>)
    : seq<Cell>
  {
    if names == [] then []
    else
      var rest := ExistingCells(p, event, names[1..], calendarId, sets);
      if Find(sets, names[0]).Some? then rest
      else [UntypedCell.Cell(names[0], ReadColumn(p, event, names[0], calendarId))] + rest
  }

  /** The list that the sink is handed under RETURNING. */
  function Expanded(p: Platform, event: Event, table: Table, sets: seq<Cell>): seq<Cell> {
    sets + ExistingCells(p, event, table.names, table.calendarId, sets)
  }

  // ---------- what the expanded list holds ----------

  lemma {:induction false} FindAppend(xs: seq<Cell>, ys: seq<Cell>, column: Column)
    ensures Find(xs + ys, column) == if Find(xs, column).Some? then Find(xs, column) else Find(ys, column)
  {
    if xs == [] {
      assert xs + ys == ys;
    } else {
      assert (xs + ys)[1..] == xs[1..] + ys;
      FindAppend(xs[1..], ys, column);
    }
  }

  lemma {:induction false} FindExisting(p: Platform, event: Event, names: seq<Column>, calendarId: string,
                                        sets: seq<Cell>, column: Column)
    ensures Find(ExistingCells(p, event, names, calendarId, sets), column)
         == if column in names && Find(sets, column).None? then Some(ReadColumn(p, event, column, calendarId)) else None
    decreases names
  {
    if names == [] {
    } else {
      var rest := ExistingCells(p, event, names[1..], calendarId, sets);
      FindExisting(p, event, names[1..], calendarId, sets, column);
      assert column in names <==> column == names[0] || column in names[1..];
      if Find(sets, names[0]).None? {
        var first := UntypedCell.Cell(names[0], ReadColumn(p, event, names[0], calendarId));
        assert ([first] + rest)[1..] == rest;
      }
    }
  }

  lemma {:induction false} ExistingDistinct(p: Platform, event: Event, names: seq<Column>, calendarId: string,
                                            sets: seq<Cell>)
    requires forall i, j :: 0 <= i < j < |names| ==> names[i] != names[j]
    ensures DistinctColumns(ExistingCells(p, event, names, calendarId, sets))
    decreases names
  {
    if names == [] {
    } else {
      var rest := ExistingCells(p, event, names[1..], calendarId, sets);
      ExistingDistinct(p, event, names[1..], calendarId, sets);
      FindExisting(p, event, names[1..], calendarId, sets, names[0]);
      FindAbsent(rest, names[0]);
    }
  }

  lemma ExpandedDistinct(p: Platform, event: Event, table: Table, sets: seq<Cell>)
    requires DistinctColumns(sets) && IsTable(table)
    ensures DistinctColumns(Expanded(p, event, table, sets))
  {
    var more := ExistingCells(p, event, table.names, table.calendarId, sets);
    ExistingDistinct(p, event, table.names, table.calendarId, sets);
    forall i, j | 0 <= i < |sets| && 0 <= j < |more| ensures sets[i].column != more[j].column {
      FindPresent(sets, i);
      FindExisting(p, event, table.names, table.calendarId, sets, sets[i].column);
      FindAbsent(more, sets[i].column);
    }
  }

  /** A writable column of the expanded list is set to its SET value, or to what it reads as. */
  lemma FindExpanded(p: Platform, event: Event, table: Table, sets: seq<Cell>, column: Column)
    requires IsTable(table) && Writable(column, true)
    ensures Find(Expanded(p, event, table, sets), column)
         == if Find(sets, column).Some? then Find(sets, column) else Some(ExtractField(p, event, column))
  {
    FindAppend(sets, ExistingCells(p, event, table.names, table.calendarId, sets), column);
    FindExisting(p, event, table.names, table.calendarId, sets, column);
  }

  predicate UpdateAllDay(event: Event, sets: seq<Cell>) {
    EffectiveAllDay(ExistingAllDay(event), sets)
  }

  /** Expansion does not change the flag that times are encoded by. */
  lemma ExpandedFlag(p: Platform, event: Event, table: Table, sets: seq<Cell>)
    requires DistinctColumns(sets) && IsTable(table)
    ensures UpdateAllDay(event, Expanded(p, event, table, sets)) == UpdateAllDay(event, sets)
  {
    ExpandedDistinct(p, event, table, sets);
    FindExpanded(p, event, table, sets, AllDay);
    EffectiveFlag(ExistingAllDay(event), sets);
    EffectiveFlag(ExistingAllDay(event), Expanded(p, event, table, sets));
  }

  lemma {:induction false} FlagBehindAppend(xs: seq<Cell>, ys: seq<Cell>, column: Column)
    ensures FlagBehind(xs + ys, column)
         == if Find(xs, column).Some? then FlagBehind(xs, column) || Find(ys, AllDay).Some? else FlagBehind(ys, column)
  {
    if xs == [] {
      assert xs + ys == ys;
    } else {
      assert (xs + ys)[1..] == xs[1..] + ys;
      if xs[0].column == column {
        FindAppend(xs[1..], ys, AllDay);
      } else {
        FlagBehindAppend(xs[1..], ys, column);
      }
    }
  }

  /** Behind a time that is set, the expanded list has all_day if the plain one has, or sets none. */
  lemma FlagBehindExpanded(p: Platform, event: Event, table: Table, sets: seq<Cell>, column: Column)
    requires IsTable(table)
    ensures var behind := FlagBehind(Expanded(p, event, table, sets), column);
            if Find(sets, column).Some? then behind == (FlagBehind(sets, column) || Find(sets, AllDay).None?)
            else behind ==> Find(sets, AllDay).None?
  {
    var more := ExistingCells(p, event, table.names, table.calendarId, sets);
    FlagBehindAppend(sets, more, column);
    FindExisting(p, event, table.names, table.calendarId, sets, AllDay);
    if FlagBehind(more, column) {
      FlagBehindIsSet(more, column);
    }
  }

  // ---------- the expanded list against the plain one ----------

  /** Text that a JSON value reads as and that is written back gives the value again, or is not written. */
  predicate Reprinted(p: Platform, json: Json) {
    && !json.Null?
    && (p.dump(json) == "" || p.parse(p.dump(json)).None? || p.parse(p.dump(json)) == Some(json))
  }

  /** The node a time cell leaves, with all_day behind it or not. */
  function WrittenNode(p: Platform, micros: int, allDay: bool, behind: bool): Json {
    var node := TimeNode(p, micros, allDay);
    if behind then Reencoded(node, allDay) else node
  }

  /** Does a time fare the same under both lists? One that is set must not be taken for a
      date by the all_day = false that expansion adds; one that is not set must be, to the letter, the node
      its own instant is written as. */
  predicate TimeSurvives(p: Platform, event: Event, table: Table, sets: seq<Cell>, key: Key, column: Column) {
    var flag, full := UpdateAllDay(event, sets), Expanded(p, event, table, sets);
    if Find(sets, column).Some? then Find(sets, AllDay).Some? || flag || LongStamp(p, Find(sets, column))
    else key !in event
         || var read := ParseNode(p, event[key]);
            && read.Timestamp?
            && WrittenNode(p, read.micros, flag, FlagBehind(full, column))
               == if Find(sets, AllDay).Some? then Reencoded(event[key], flag) else event[key]
  }

  /** The keys at which writing back what was read does no harm: a text that is a string, a flag that is
      a boolean, a document that reprints, a time in the extension's own spelling. */
  predicate KeySurvives(p: Platform, event: Event, table: Table, sets: seq<Cell>, key: Key) {
    match key
    case TextKey(t) => Find(sets, Text(t)).Some? || key !in event || event[key].Str?
    case FlagKey(f) => Find(sets, Flag(f)).Some? || key !in event || event[key].Bool?
    case RawKey(r) => Find(sets, Raw(r)).Some? || key !in event || Reprinted(p, event[key])
    case StartKey => TimeSurvives(p, event, table, sets, key, Start)
    case EndKey => TimeSurvives(p, event, table, sets, key, End)
    case _ => true
  }

  lemma ValueSurvives(p: Platform, event: Event, table: Table, sets: seq<Cell>, key: Key, allDay: bool)
    requires DistinctColumns(sets) && IsTable(table)
    requires key != StartKey && key != EndKey
    ensures ExactSlot(p, event, key, Expanded(p, event, table, sets), allDay, true)
         == ExactSlot(p, event, key, sets, allDay, true)
       <==> KeySurvives(p, event, table, sets, key)
  {
    assert key in event <==> Lookup(event, key).Some?;
    match key
    case TextKey(t) => FindExpanded(p, event, table, sets, Text(t));
    case FlagKey(f) => FindExpanded(p, event, table, sets, Flag(f));
    case RawKey(r) => FindExpanded(p, event, table, sets, Raw(r));
    case IdKey =>
    case OtherKey(_) =>
  }

  lemma TimeKeySurvives(p: Platform, event: Event, table: Table, sets: seq<Cell>, key: Key, column: Column)
    requires DistinctColumns(sets) && IsTable(table)
    requires IsTimeKey(key, column)
    ensures ExactSlot(p, event, key, Expanded(p, event, table, sets), UpdateAllDay(event, sets), true)
         == ExactSlot(p, event, key, sets, UpdateAllDay(event, sets), true)
       <==> TimeSurvives(p, event, table, sets, key, column)
  {
    var flag := UpdateAllDay(event, sets);
    FindExpanded(p, event, table, sets, column);
    FindExpanded(p, event, table, sets, AllDay);
    FlagBehindExpanded(p, event, table, sets, column);
    assert key in event <==> Lookup(event, key).Some?;
    if FlagBehind(sets, column) {
      FlagBehindIsSet(sets, column);
    }
    if SetsStamp(sets, column) {
      ReencodingFixesFreshNode(p, Find(sets, column).value.micros, flag);
    }
  }

  /** RETURNING leaves the same event as the plain list if and only if every key survives being read and
      written back. */
  lemma ReturningKeepsMeaning(p: Platform, event: Event, table: Table, sets: seq<Cell>)
    requires DistinctColumns(sets) && IsTable(table)
    ensures Updated(p, event, Expanded(p, event, table, sets)) == Updated(p, event, sets)
       <==> forall key :: KeySurvives(p, event, table, sets, key)
  {
    var full, flag := Expanded(p, event, table, sets), UpdateAllDay(event, sets);
    var a, b := Updated(p, event, full), Updated(p, event, sets);
    ExpandedDistinct(p, event, table, sets);
    ExpandedFlag(p, event, table, sets);
    forall key ensures Lookup(a, key) == Lookup(b, key) <==> KeySurvives(p, event, table, sets, key) {
      ExactMeaning(p, event, full, flag, true, key);
      ExactMeaning(p, event, sets, flag, true, key);
      if key == StartKey {
        TimeKeySurvives(p, event, table, sets, key, Start);
      } else if key == EndKey {
        TimeKeySurvives(p, event, table, sets, key, End);
      } else {
        ValueSurvives(p, event, table, sets, key, flag);
      }
    }
    if forall key :: KeySurvives(p, event, table, sets, key) {
      EqualByLookup(a, b);
    } else {
      var key :| !KeySurvives(p, event, table, sets, key);
      assert Lookup(a, key) != Lookup(b, key);
    }
  }

  /** What either list leaves under a key, with the expanded list's own flag worked out. */
  lemma ExpandedMeaning(p: Platform, event: Event, table: Table, sets: seq<Cell>, key: Key)
    requires DistinctColumns(sets) && IsTable(table)
    ensures var full := Expanded(p, event, table, sets);
            Lookup(Updated(p, event, full), key) == ExactSlot(p, event, key, full, UpdateAllDay(event, sets), true)
  {
    ExpandedDistinct(p, event, table, sets);
    ExpandedFlag(p, event, table, sets);
    ExactMeaning(p, event, Expanded(p, event, table, sets), UpdateAllDay(event, sets), true, key);
  }

  /** A dateTime that is not set keeps its text under the plain list; under RETURNING it gets the
      extension's own spelling of the instant, so an offset in the text is lost. */
  lemma ReturningRespellsTimes(p: Platform, event: Event, table: Table, sets: seq<Cell>, key: Key, column: Column,
                               text: string, micros: int)
    requires DistinctColumns(sets) && IsTable(table) && IsTimeKey(key, column)
    requires Find(sets, column).None? && Find(sets, AllDay).None? && !ExistingAllDay(event)
    requires key in event && event[key] == DateTimeNode(text)
    requires p.castStamp(text) == Some(micros) && |p.stampText(micros)| != 9
    ensures Lookup(Updated(p, event, sets), key) == Some(DateTimeNode(text))
    ensures Lookup(Updated(p, event, Expanded(p, event, table, sets)), key)
         == Some(DateTimeNode(FormatRfc3339(p, micros)))
  {
    EffectiveFlag(false, sets);
    ExactMeaning(p, event, sets, false, true, key);
    if FlagBehind(sets, column) {
      FlagBehindIsSet(sets, column);
    }
    assert NodeText(event[key]) == Some(text);
    FindExpanded(p, event, table, sets, column);
    ExpandedMeaning(p, event, table, sets, key);
    ReencodingFixesFreshNode(p, micros, false);
  }

  // ---------- what the list carries ----------

  /** The value the expanded list carries for a column. */
  function Carried(p: Platform, event: Event, sets: seq<Cell>, column: Column): (r: Value)
    ensures HasType(column, r)
  {
    if Find(sets, column).Some? then Find(sets, column).value else ExtractField(p, event, column)
  }

  lemma FlagAfterReturning(p: Platform, event: Event, table: Table, sets: seq<Cell>)
    requires DistinctColumns(sets) && IsTable(table)
    ensures UpdateAllDay(Updated(p, event, Expanded(p, event, table, sets)), sets)
         == if Find(sets, AllDay).Some? then UpdateAllDay(event, sets)
            else UpdateAllDay(event, sets) && !Carried(p, event, sets, Start).NullValue?
  {
    var flag, once := UpdateAllDay(event, sets), Updated(p, event, Expanded(p, event, table, sets));
    EffectiveFlag(ExistingAllDay(event), sets);
    EffectiveFlag(ExistingAllDay(once), sets);
    FindExpanded(p, event, table, sets, Start);
    ExpandedMeaning(p, event, table, sets, StartKey);
    assert StartKey in once <==> Lookup(once, StartKey).Some?;
    var start := Carried(p, event, sets, Start);
    if start.Timestamp? {
      FreshNodeEncoding(p, start.micros, flag);
      ReencodedEncoding(TimeNode(p, start.micros, flag), flag);
    }
  }

  // ---------- what the unset columns read as afterwards ----------

  /** A time that is not set, as an instant the platform reads back: a whole day if it is written as one. */
  predicate SteadyTime(p: Platform, value: Value, allDay: bool) {
    value.Timestamp? ==>
      && ReadsBack(p, value.micros) && |p.stampText(value.micros)| != 9
      && (allDay ==> FloorDay(value.micros) == value.micros)
  }

  lemma TimeReadsSame(p: Platform, event: Event, table: Table, sets: seq<Cell>, key: Key, column: Column)
    requires DistinctColumns(sets) && IsTable(table) && IsTimeKey(key, column)
    requires Find(sets, column).None? && Find(sets, AllDay).None?
    requires SteadyTime(p, ParseEventTime(p, event, key), ExistingAllDay(event))
    ensures var after := Updated(p, event, Expanded(p, event, table, sets));
            ParseEventTime(p, after, key) == ParseEventTime(p, event, key)
  {
    var flag, after := UpdateAllDay(event, sets), Updated(p, event, Expanded(p, event, table, sets));
    EffectiveFlag(ExistingAllDay(event), sets);
    FindExpanded(p, event, table, sets, column);
    ExpandedMeaning(p, event, table, sets, key);
    assert key in after <==> Lookup(after, key).Some?;
    var read := ParseEventTime(p, event, key);
    if read.Timestamp? {
      ReencodingFixesFreshNode(p, read.micros, flag);
      FreshNodeReadsBack(p, read.micros, flag);
    }
  }

  /** all_day that is not set reads as before, except exactly when the list carries no start for an
      all-day event. */
  lemma FlagReadsSame(p: Platform, event: Event, table: Table, sets: seq<Cell>)
    requires DistinctColumns(sets) && IsTable(table) && Find(sets, AllDay).None?
    ensures ExistingAllDay(Updated(p, event, Expanded(p, event, table, sets))) == ExistingAllDay(event)
       <==> !(Carried(p, event, sets, Start).NullValue? && ExistingAllDay(event))
  {
    EffectiveFlag(ExistingAllDay(event), sets);
    EffectiveFlag(ExistingAllDay(Updated(p, event, Expanded(p, event, table, sets))), sets);
    FlagAfterReturning(p, event, table, sets);
  }

  /** RETURNING may respell what it does not set, but it reads as before: any text and flag; a document
      that reprints; a time that reads back, if all_day is not set; and all_day, unless the list carries no
      start for an all-day event. */
  lemma ReturningUnsetColumnsStay(p: Platform, event: Event, table: Table, sets: seq<Cell>, column: Column)
    requires DistinctColumns(sets) && IsTable(table)
    requires Find(sets, column).None? && Writable(column, true)
    requires column.Raw? && RawKey(column.raw) in event && !event[RawKey(column.raw)].Null? ==>
               Reprinted(p, event[RawKey(column.raw)])
    requires column in {Start, End} ==>
               Find(sets, AllDay).None? && SteadyTime(p, ExtractField(p, event, column), ExistingAllDay(event))
    requires column == AllDay ==>
               !(Carried(p, event, sets, Start).NullValue? && ExistingAllDay(event))
    ensures ExtractField(p, Updated(p, event, Expanded(p, event, table, sets)), column)
         == ExtractField(p, event, column)
  {
    var after, key := Updated(p, event, Expanded(p, event, table, sets)), HomeKey(column);
    if column == Start || column == End {
      TimeReadsSame(p, event, table, sets, key, column);
    } else if column == AllDay {
      FlagReadsSame(p, event, table, sets);
    } else {
      FindExpanded(p, event, table, sets, column);
      ExpandedMeaning(p, event, table, sets, key);
      assert key in after <==> Lookup(after, key).Some?;
      assert key in event <==> Lookup(event, key).Some?;
    }
  }

  // ---------- repeating ----------

  /** The instant prints as more or less than nine characters, reads back as printed, and its UTC day
      prints as its own date. */
  predicate TimePrints(p: Platform, micros: int) {
    && ReadsBack(p, micros)
    && FormatDate(p, FloorDay(micros)) == FormatDate(p, micros)
    && |p.stampText(micros)| != 9
  }

  predicate TimeCellPrints(p: Platform, value: Value) {
    value.Timestamp? ==> TimePrints(p, value.micros)
  }

  /** What is not set can be read and printed: the times by the platform, the documents as themselves. */
  ghost predicate Printable(p: Platform, event: Event, sets: seq<Cell>) {
    && (Find(sets, Start).None? ==> TimeCellPrints(p, ExtractField(p, event, Start)))
    && (Find(sets, End).None? ==> TimeCellPrints(p, ExtractField(p, event, End)))
    && forall raw: RawField :: Find(sets, Raw(raw)).None? && RawKey(raw) in event && !event[RawKey(raw)].Null? ==>
                                 Reprinted(p, event[RawKey(raw)])
  }

  /** The expanded list drops the start of an all-day event, keeps an end, and does not set all_day. */
  predicate ForgetsWhenExpanded(p: Platform, event: Event, sets: seq<Cell>) {
    && Find(sets, AllDay).None? && ExistingAllDay(event)
    && Carried(p, event, sets, Start).NullValue? && !Carried(p, event, sets, End).NullValue?
  }

  function ColumnOf(key: Key): Column
    requires key.TextKey? || key.FlagKey? || key.RawKey?
  {
    if key.TextKey? then Text(key.text) else if key.FlagKey? then Flag(key.flag) else Raw(key.raw)
  }

  lemma ValueSettles(p: Platform, event: Event, table: Table, sets: seq<Cell>, key: Key)
    requires DistinctColumns(sets) && IsTable(table) && Printable(p, event, sets)
    requires key != StartKey && key != EndKey
    ensures var once := Updated(p, event, Expanded(p, event, table, sets));
            Lookup(Updated(p, once, Expanded(p, once, table, sets)), key) == Lookup(once, key)
  {
    var once := Updated(p, event, Expanded(p, event, table, sets));
    ExpandedMeaning(p, event, table, sets, key);
    ExpandedMeaning(p, once, table, sets, key);
    assert key in event <==> Lookup(event, key).Some?;
    assert key in once <==> Lookup(once, key).Some?;
    if key.TextKey? || key.FlagKey? || key.RawKey? {
      FindExpanded(p, event, table, sets, ColumnOf(key));
      FindExpanded(p, once, table, sets, ColumnOf(key));
    }
  }

  /** The node a carried time leaves. */
  lemma CarriedTime(p: Platform, event: Event, table: Table, sets: seq<Cell>, key: Key, column: Column)
    requires DistinctColumns(sets) && IsTable(table) && IsTimeKey(key, column)
    ensures Lookup(Updated(p, event, Expanded(p, event, table, sets)), key)
         == var value := Carried(p, event, sets, column);
            if value.NullValue? then None
            else Some(WrittenNode(p, value.micros, UpdateAllDay(event, sets),
                                  FlagBehind(Expanded(p, event, table, sets), column)))
  {
    ExpandedMeaning(p, event, table, sets, key);
    FindExpanded(p, event, table, sets, column);
  }

  lemma UnspoiledNode(p: Platform, micros: int, allDay: bool, behind: bool)
    requires |p.stampText(micros)| != 9
    ensures WrittenNode(p, micros, allDay, behind) == TimeNode(p, micros, allDay)
  {
    ReencodingFixesFreshNode(p, micros, allDay);
  }

  /** A node written as a date differs from one written as a dateTime. */
  lemma EncodingsDiffer(p: Platform, a: int, b: int, behind: bool, again: bool)
    ensures WrittenNode(p, a, true, behind) != WrittenNode(p, b, false, again)
  {
    ReencodingFixesFreshNode(p, a, true);
    FreshNodeEncoding(p, a, true);
    FreshNodeEncoding(p, b, false);
    ReencodedEncoding(TimeNode(p, b, false), false);
  }

  lemma TimeSettles(p: Platform, event: Event, table: Table, sets: seq<Cell>, key: Key, column: Column)
    requires DistinctColumns(sets) && IsTable(table) && IsTimeKey(key, column)
    requires Find(sets, column).None? ==> TimeCellPrints(p, ExtractField(p, event, column))
    ensures var once := Updated(p, event, Expanded(p, event, table, sets));
            var twice := Updated(p, once, Expanded(p, once, table, sets));
            var flag, again := UpdateAllDay(event, sets), UpdateAllDay(once, sets);
            && (flag == again || Carried(p, event, sets, column).NullValue? ==> Lookup(twice, key) == Lookup(once, key))
            && (flag && !again && !Carried(p, event, sets, column).NullValue? ==>
                  Lookup(twice, key) != Lookup(once, key))
  {
    var once := Updated(p, event, Expanded(p, event, table, sets));
    var flag, again := UpdateAllDay(event, sets), UpdateAllDay(once, sets);
    var behind := FlagBehind(Expanded(p, event, table, sets), column);
    var behind' := FlagBehind(Expanded(p, once, table, sets), column);
    CarriedTime(p, event, table, sets, key, column);
    CarriedTime(p, once, table, sets, key, column);
    FlagBehindExpanded(p, event, table, sets, column);
    FlagBehindExpanded(p, once, table, sets, column);
    assert key in once <==> Lookup(once, key).Some?;
    var value := Carried(p, event, sets, column);
    if Find(sets, column).None? && value.Timestamp? {
      UnspoiledNode(p, value.micros, flag, behind);
      FreshNodeReadsBack(p, value.micros, flag);
      if flag == again && !flag {
        UnspoiledNode(p, value.micros, flag, behind');
      } else if flag == again {
        ReencodingFixesFreshNode(p, FloorDay(value.micros), true);
      }
    }
    if flag && !again && value.Timestamp? {
      var value' := Carried(p, once, sets, column);
      EncodingsDiffer(p, value.micros, value'.micros, behind, behind');
    }
  }

  /** Repeating an UPDATE with RETURNING changes nothing, except in the family of ForgetsWhenExpanded. */
  lemma ReturningIdempotence(p: Platform, event: Event, table: Table, sets: seq<Cell>)
    requires DistinctColumns(sets) && IsTable(table) && Printable(p, event, sets)
    ensures var once := Updated(p, event, Expanded(p, event, table, sets));
            Updated(p, once, Expanded(p, once, table, sets)) == once <==> !ForgetsWhenExpanded(p, event, sets)
  {
    var once := Updated(p, event, Expanded(p, event, table, sets));
    var twice := Updated(p, once, Expanded(p, once, table, sets));
    EffectiveFlag(ExistingAllDay(event), sets);
    FlagAfterReturning(p, event, table, sets);
    TimeSettles(p, event, table, sets, StartKey, Start);
    TimeSettles(p, event, table, sets, EndKey, End);
    if !ForgetsWhenExpanded(p, event, sets) {
      forall key ensures Lookup(twice, key) == Lookup(once, key) {
        if key != StartKey && key != EndKey {
          ValueSettles(p, event, table, sets, key);
        }
      }
      EqualByLookup(twice, once);
    }
  }
}
