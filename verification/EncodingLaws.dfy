/** How an event's times are encoded over a life of updates, and what a row reads back as after it
    has been written. */
module EncodingLaws {
  import opened Wrappers
  import opened EventModel
  import opened EventMapping
  import opened SetListLaws

  // ---------- one encoding for start and end ----------

  predicate EncodedAs(node: Json, allDay: bool) {
    if allDay then StringMember(node, "date").Some? && "dateTime" !in node.members
    else StringMember(node, "dateTime").Some?
  }

  /** Whichever of start and end is present is a date if allDay, a dateTime if not. */
  predicate Uniform(event: Event, allDay: bool) {
    && (StartKey in event ==> EncodedAs(event[StartKey], allDay))
    && (EndKey in event ==> EncodedAs(event[EndKey], allDay))
  }

  /** Whichever of start and end is present uses the encoding that all_day reads back. */
  predicate WellEncoded(event: Event) {
    Uniform(event, ExistingAllDay(event))
  }

  /** Whichever of start and end is present carries some text to re-encode. */
  predicate Readable(event: Event) {
    && (StartKey in event ==> NodeText(event[StartKey]).Some?)
    && (EndKey in event ==> NodeText(event[EndKey]).Some?)
  }

  predicate Mentions(cells: seq<Cell>, column: Column) {
    Find(cells, column).Some?
  }

  lemma FreshNodeEncoding(p: Platform, micros: int, allDay: bool)
    ensures EncodedAs(TimeNode(p, micros, allDay), allDay)
  {
    assert StringMember(DateNode(FormatDate(p, micros)), "date").Some?;
    assert StringMember(DateTimeNode(FormatRfc3339(p, micros)), "dateTime").Some?;
  }

  lemma ReencodedEncoding(node: Json, allDay: bool)
    requires NodeText(node).Some?
    ensures EncodedAs(Reencoded(node, allDay), allDay)
    ensures NodeText(Reencoded(node, allDay)).Some?
  {
    var raw := NodeText(node).value;
    assert StringMember(DateNode(Prefix10(raw)), "date").Some?;
    assert StringMember(ReencodedText(raw, false), "dateTime").Some?;
  }

  lemma EncodingStep(p: Platform, event: Event, cell: Cell, allDay: bool, key: Key)
    requires key == StartKey || key == EndKey
    requires key in event ==> NodeText(event[key]).Some?
    ensures var after := Applied(p, event, cell, allDay, true);
            && (key in after ==> NodeText(after[key]).Some?)
            && ((key in event ==> EncodedAs(event[key], allDay)) || cell.column == AllDay ==>
                  key in after ==> EncodedAs(after[key], allDay))
  {
    var after := Applied(p, event, cell, allDay, true);
    if !Touches(cell.column, key) {
      UntouchedKey(p, event, cell, allDay, true, key);
      assert key in event <==> Lookup(event, key).Some?;
      assert key in after <==> Lookup(after, key).Some?;
    } else if cell.column == AllDay {
      if key in event { ReencodedEncoding(event[key], allDay); }
    } else if cell.value.Timestamp? {
      FreshNodeEncoding(p, cell.value.micros, allDay);
    }
  }

  /** Once the list has passed its all_day, or if the event already had the flag's encoding, every
      prefix of it leaves the times in that encoding. */
  lemma {:induction false} FoldEncoding(p: Platform, event: Event, cells: seq<Cell>, allDay: bool)
    requires Readable(event)
    requires Uniform(event, allDay) || Mentions(cells, AllDay)
    ensures Uniform(AppliedAll(p, event, cells, allDay, true), allDay)
    decreases cells
  {
    if cells == [] {
    } else {
      var after := Applied(p, event, cells[0], allDay, true);
      EncodingStep(p, event, cells[0], allDay, StartKey);
      EncodingStep(p, event, cells[0], allDay, EndKey);
      FoldEncoding(p, after, cells[1..], allDay);
    }
  }

  lemma {:induction false} FlagUnmentioned(existing: bool, sets: seq<Cell>)
    requires !Mentions(sets, AllDay)
    ensures EffectiveAllDay(existing, sets) == existing
    decreases sets
  {
    if sets == [] {
    } else {
      FlagUnmentioned(existing, sets[1..]);
    }
  }

  /** The list leaves no start: it sets the start to NULL, or sets none on an event without one. */
  predicate LacksStart(event: Event, sets: seq<Cell>) {
    SetsNull(sets, Start) || (Find(sets, Start).None? && StartKey !in event)
  }

  predicate LeavesEnd(event: Event, sets: seq<Cell>) {
    SetsStamp(sets, End) || (Find(sets, End).None? && EndKey in event)
  }

  /** The list leaves an all-day end without a start. */
  predicate StrandsEnd(event: Event, sets: seq<Cell>) {
    EffectiveAllDay(ExistingAllDay(event), sets) && LacksStart(event, sets) && LeavesEnd(event, sets)
  }

  /** Which time keys a list leaves, seen before it is applied. */
  lemma TimesLeft(p: Platform, event: Event, sets: seq<Cell>, allDay: bool)
    requires DistinctColumns(sets)
    ensures var after := AppliedAll(p, event, sets, allDay, true);
            && (StartKey in after <==> !LacksStart(event, sets))
            && (EndKey in after <==> LeavesEnd(event, sets))
  {
    var after := AppliedAll(p, event, sets, allDay, true);
    ExactMeaning(p, event, sets, allDay, true, StartKey);
    ExactMeaning(p, event, sets, allDay, true, EndKey);
    assert StartKey in after <==> Lookup(after, StartKey).Some?;
    assert EndKey in after <==> Lookup(after, EndKey).Some?;
  }

  /** After any UPDATE of a well-encoded event, and after one that sets all_day on an event of mixed
      encodings, the times use the effective flag's encoding and all_day reads back as that flag while
      there is a start. With no start, a list of distinct columns leaves the event ill encoded exactly if
      it strands an all-day end. */
  lemma UpdateEncoding(p: Platform, event: Event, sets: seq<Cell>)
    requires WellEncoded(event) || (Readable(event) && Mentions(sets, AllDay))
    ensures var flag := EffectiveAllDay(ExistingAllDay(event), sets);
            var after := Updated(p, event, sets);
            && Uniform(after, flag)
            && (StartKey in after ==> ExistingAllDay(after) == flag)
            && (WellEncoded(after) <==> !(flag && StartKey !in after && EndKey in after))
    ensures DistinctColumns(sets) ==> (WellEncoded(Updated(p, event, sets)) <==> !StrandsEnd(event, sets))
  {
    var flag := EffectiveAllDay(ExistingAllDay(event), sets);
    if !Mentions(sets, AllDay) {
      FlagUnmentioned(ExistingAllDay(event), sets);
    }
    FoldEncoding(p, event, sets, flag);
    if DistinctColumns(sets) {
      TimesLeft(p, event, sets, flag);
    }
  }

  /** Stranding happens to every all-day event that has an end: its start is set to NULL. */
  lemma StrandingHappens(p: Platform, start: string, end: string)
    ensures var event: Event := map[StartKey := DateNode(start), EndKey := DateNode(end)];
            var sets := [UntypedCell.Cell(Start, NullValue)];
            WellEncoded(event) && DistinctColumns(sets) && !WellEncoded(Updated(p, event, sets))
  {
    var event: Event := map[StartKey := DateNode(start), EndKey := DateNode(end)];
    var sets: seq<Cell> := [UntypedCell.Cell(Start, NullValue)];
    assert StringMember(DateNode(start), "date").Some? && StringMember(DateNode(end), "date").Some?;
    assert sets[1..] == [];
    UpdateEncoding(p, event, sets);
  }

  /** A life of updates, each a read-modify-write of the event the last one left. */
  function UpdatedRun(p: Platform, event: Event, run: seq<seq<Cell>>): Event
    decreases run
  {
    if run == [] then event else UpdatedRun(p, Updated(p, event, run[0]), run[1..])
  }

  predicate NullsStart(sets: seq<Cell>) {
    sets != [] && ((sets[0].column == Start && sets[0].value == NullValue) || NullsStart(sets[1..]))
  }

  lemma {:induction false} StartKept(p: Platform, event: Event, cells: seq<Cell>, allDay: bool)
    requires StartKey in event && !NullsStart(cells)
    ensures StartKey in AppliedAll(p, event, cells, allDay, true)
    decreases cells
  {
    if cells == [] {
    } else {
      StartKept(p, Applied(p, event, cells[0], allDay, true), cells[1..], allDay);
    }
  }

  /** However often an event that has a start is updated, as long as no UPDATE nulls the start, its
      times agree with each other and with the all_day it reads as. */
  lemma {:induction false} UpdateRunEncoding(p: Platform, event: Event, run: seq<seq<Cell>>)
    requires StartKey in event && WellEncoded(event)
    requires forall i :: 0 <= i < |run| ==> !NullsStart(run[i])
    ensures StartKey in UpdatedRun(p, event, run) && WellEncoded(UpdatedRun(p, event, run))
    decreases run
  {
    if run == [] {
    } else {
      UpdateEncoding(p, event, run[0]);
      StartKept(p, event, run[0], EffectiveAllDay(ExistingAllDay(event), run[0]));
      UpdateRunEncoding(p, Updated(p, event, run[0]), run[1..]);
    }
  }

  // ---------- reading back what was written ----------

  /** DuckDB reads back the texts it printed: a dateTime as the same instant, a date as its UTC day. */
  predicate ReadsBack(p: Platform, micros: int) {
    && p.castStamp(FormatRfc3339(p, micros)) == Some(micros)
    && p.castStamp(FormatDate(p, micros)) == Some(FloorDay(micros))
  }

  predicate CellReadsBack(p: Platform, value: Option<Value>) {
    value.Some? && value.value.Timestamp? ==> ReadsBack(p, value.value.micros)
  }

  function NormalTime(value: Value, allDay: bool): Value
    requires value.NullValue? || value.Timestamp?
  {
    if value.NullValue? then NullValue else Timestamp(if allDay then FloorDay(value.micros) else value.micros)
  }

  /** JSON text as its reprinted parse; empty, malformed and `null` text are NULL. */
  function NormalJson(p: Platform, value: Value): Value
    requires value.NullValue? || value.Varchar?
  {
    if value.NullValue? || value.s == "" then NullValue
    else match p.parse(value.s)
         case None => NullValue
         case Some(json) => if json == Null then NullValue else Varchar(p.dump(json))
  }

  /** What a writable column of an inserted row reads back as. */
  function NormalForm(p: Platform, row: seq<Cell>, column: Column): Value {
    var found := Find(row, column);
    match column
    case AllDay => Boolean(RowAllDay(row) && SetsStamp(row, Start))
    case Start => if found.None? then NullValue else NormalTime(found.value, RowAllDay(row))
    case End => if found.None? then NullValue else NormalTime(found.value, RowAllDay(row))
    case Raw(_) => if found.None? then NullValue else NormalJson(p, found.value)
    case _ => if found.None? then NullValue else found.value
  }

  lemma FreshNodeReadsBack(p: Platform, micros: int, allDay: bool)
    requires ReadsBack(p, micros)
    ensures ParseNode(p, TimeNode(p, micros, allDay)) == NormalTime(Timestamp(micros), allDay)
  {
    assert NodeText(DateNode(FormatDate(p, micros))) == Some(FormatDate(p, micros));
    assert NodeText(DateTimeNode(FormatRfc3339(p, micros))) == Some(FormatRfc3339(p, micros));
  }

  function HomeKey(column: Column): Key
    requires Writable(column, false)
  {
    match column
    case EventId => IdKey
    case Text(t) => TextKey(t)
    case Flag(f) => FlagKey(f)
    case Raw(r) => RawKey(r)
    case Start => StartKey
    case End => EndKey
    case AllDay => StartKey
  }

  /** Reading an inserted event gives every writable column back in its normal form. */
  lemma RowRoundTrip(p: Platform, row: seq<Cell>, column: Column)
    requires DistinctColumns(row) && CellReadsBack(p, Find(row, column))
    requires Writable(column, false)
    ensures ExtractField(p, EventOfRow(p, row), column) == NormalForm(p, row, column)
  {
    var event, key := EventOfRow(p, row), HomeKey(column);
    ListMeaning(p, map[], row, RowAllDay(row), false, key);
    assert key in event <==> Lookup(event, key).Some?;
    if SetsStamp(row, column) {
      FreshNodeReadsBack(p, Find(row, column).value.micros, RowAllDay(row));
    }
  }

  /** Passthrough text that is written: it parses, or is NULL. Other text leaves the old document. */
  predicate ParsesOrNull(p: Platform, value: Option<Value>) {
    value.Some? && value.value.Varchar? ==> value.value.s != "" && p.parse(value.value.s).Some?
  }

  /** What a SET column reads back as after an UPDATE made under a flag. */
  function NormalSet(p: Platform, sets: seq<Cell>, column: Column, flag: bool): Value
    requires Find(sets, column).Some?
  {
    var value := Find(sets, column).value;
    match column
    case AllDay => Boolean(flag)
    case Start => NormalTime(value, flag)
    case End => NormalTime(value, flag)
    case Raw(_) => NormalJson(p, value)
    case _ => value
  }

  /** The event will have a start with text: one that the list sets, or else the old one. */
  predicate HasStart(event: Event, sets: seq<Cell>) {
    || SetsStamp(sets, Start)
    || (Find(sets, Start).None? && StartKey in event && NodeText(event[StartKey]).Some?)
  }

  /** A list that sets all_day leaves such a start in the flag's encoding. */
  lemma FlaggedStart(p: Platform, event: Event, sets: seq<Cell>, allDay: bool)
    requires DistinctColumns(sets) && Mentions(sets, AllDay) && HasStart(event, sets)
    ensures var after := AppliedAll(p, event, sets, allDay, true);
            StartKey in after && EncodedAs(after[StartKey], allDay) && ExistingAllDay(after) == allDay
  {
    var after := AppliedAll(p, event, sets, allDay, true);
    ExactMeaning(p, event, sets, allDay, true, StartKey);
    assert StartKey in after <==> Lookup(after, StartKey).Some?;
    if SetsStamp(sets, Start) {
      var written := TimeNode(p, Find(sets, Start).value.micros, allDay);
      FreshNodeEncoding(p, Find(sets, Start).value.micros, allDay);
      ReencodedEncoding(written, allDay);
    } else {
      ReencodedEncoding(event[StartKey], allDay);
    }
  }

  /** Reading an updated event gives every SET column back in its normal form, save that passthrough
      text which does not parse leaves what was there. For all_day the event must still have a start. */
  lemma UpdateReadsBack(p: Platform, event: Event, sets: seq<Cell>, column: Column)
    requires DistinctColumns(sets) && Writable(column, true) && Find(sets, column).Some?
    requires CellReadsBack(p, Find(sets, column))
    requires !Spoiled(p, sets, column, EffectiveAllDay(ExistingAllDay(event), sets))
    requires column == AllDay ==> HasStart(event, sets)
    ensures ExtractField(p, Updated(p, event, sets), column)
         == if column.Raw? && !ParsesOrNull(p, Find(sets, column)) then ExtractField(p, event, column)
            else NormalSet(p, sets, column, EffectiveAllDay(ExistingAllDay(event), sets))
  {
    var flag := EffectiveAllDay(ExistingAllDay(event), sets);
    var after, key := Updated(p, event, sets), HomeKey(column);
    ExactMeaning(p, event, sets, flag, true, key);
    assert key in after <==> Lookup(after, key).Some?;
    assert key in event <==> Lookup(event, key).Some?;
    if column == AllDay {
      FlaggedStart(p, event, sets, flag);
    } else if SetsStamp(sets, column) {
      SpoiledSlot(p, event, key, column, sets, flag);
      FreshNodeReadsBack(p, Find(sets, column).value.micros, flag);
    }
  }

  /** The keys a column is read from. */
  function ReadKey(column: Column): Key
    requires column != CalendarId
  {
    if Writable(column, false) then HomeKey(column)
    else if column.OriginalStartTime? then OtherKey("originalStartTime")
    else if column.Sequence? then OtherKey("sequence")
    else OtherKey(column.name)
  }

  lemma ReadFromItsKey(p: Platform, a: Event, b: Event, column: Column)
    requires column != CalendarId && Lookup(a, ReadKey(column)) == Lookup(b, ReadKey(column))
    ensures ExtractField(p, a, column) == ExtractField(p, b, column)
  {
    var key := ReadKey(column);
    assert (key in a <==> Lookup(a, key).Some?) && (key in b <==> Lookup(b, key).Some?);
  }

  /** An UPDATE never writes the id, even when event_id is in its list. */
  lemma {:induction false} KeepsId(p: Platform, event: Event, cells: seq<Cell>, allDay: bool)
    ensures Lookup(AppliedAll(p, event, cells, allDay, true), IdKey) == Lookup(event, IdKey)
    decreases cells
  {
    if cells == [] {
    } else {
      KeepsId(p, Applied(p, event, cells[0], allDay, true), cells[1..], allDay);
    }
  }

  lemma {:induction false} FlagStays(p: Platform, event: Event, cells: seq<Cell>, allDay: bool)
    requires !Mentions(cells, AllDay) && ExistingAllDay(event) == allDay
    requires !(NullsStart(cells) && allDay)
    ensures ExistingAllDay(AppliedAll(p, event, cells, allDay, true)) == allDay
    decreases cells
  {
    if cells == [] {
    } else {
      FlagStays(p, Applied(p, event, cells[0], allDay, true), cells[1..], allDay);
    }
  }

  /** all_day reads as before if it is not set, except exactly when the start of an all-day event is set
      to NULL. */
  lemma AllDayStays(p: Platform, event: Event, sets: seq<Cell>)
    requires DistinctColumns(sets) && Find(sets, AllDay).None?
    ensures ExistingAllDay(Updated(p, event, sets)) == ExistingAllDay(event)
       <==> !(SetsNull(sets, Start) && ExistingAllDay(event))
  {
    EffectiveFlag(ExistingAllDay(event), sets);
    FlagAfterUpdate(p, event, sets, ExistingAllDay(event));
  }

  /** A column an UPDATE does not set reads as before, be it read-only or writable; start and end stay if
      all_day is not set either, and all_day unless the start of an all-day event is set to NULL. The row
      id stays even if event_id is in the list. */
  lemma UnsetColumnsStay(p: Platform, event: Event, sets: seq<Cell>, column: Column)
    requires Find(sets, column).None? || !Writable(column, true)
    requires column in {Start, End} ==> Find(sets, AllDay).None?
    requires column == AllDay ==> !(NullsStart(sets) && ExistingAllDay(event))
    requires column != CalendarId
    ensures ExtractField(p, Updated(p, event, sets), column) == ExtractField(p, event, column)
  {
    var flag := EffectiveAllDay(ExistingAllDay(event), sets);
    if column == EventId {
      KeepsId(p, event, sets, flag);
    } else if column == AllDay {
      FlagUnmentioned(ExistingAllDay(event), sets);
      FlagStays(p, event, sets, flag);
      return;
    } else {
      forall i | 0 <= i < |sets| ensures !Touches(sets[i].column, ReadKey(column)) {
        FindAbsent(sets, column);
        FindAbsent(sets, Start);
        FindAbsent(sets, End);
        FindAbsent(sets, AllDay);
      }
      SetListFraming(p, event, sets, flag, true, ReadKey(column));
    }
    ReadFromItsKey(p, event, Updated(p, event, sets), column);
  }

  // ---------- what times read as when all_day is flipped ----------

  /** A dateTime wins over a date; a time that is no object, or has neither as a string, is NULL. */
  lemma TimeReads(p: Platform, event: Event, key: Key, members: map<string, Json>)
    requires key in event && event[key] == Obj(members)
    ensures forall text :: "dateTime" in members && members["dateTime"] == Str(text) ==>
                             ParseEventTime(p, event, key) == StampOf(p, text)
    ensures forall text :: ("dateTime" in members ==> !members["dateTime"].Str?)
                           && "date" in members && members["date"] == Str(text) ==>
                             ParseEventTime(p, event, key) == StampOf(p, text)
    ensures ("dateTime" in members ==> !members["dateTime"].Str?) && ("date" in members ==> !members["date"].Str?) ==>
              ParseEventTime(p, event, key) == NullValue
    ensures forall json: Json :: !json.Obj? ==> ParseEventTime(p, event[key := json], key) == NullValue
    ensures ParseEventTime(p, event - {key}, key) == NullValue
  {
  }

  function StampOf(p: Platform, text: string): Value {
    if p.castStamp(text).Some? then Timestamp(p.castStamp(text).value) else NullValue
  }

  lemma FlippedNode(p: Platform, event: Event, sets: seq<Cell>, key: Key, column: Column)
    requires DistinctColumns(sets) && IsTimeKey(key, column)
    requires Find(sets, column).None? && Find(sets, AllDay).Some? && key in event
    ensures var after := Updated(p, event, sets);
            key in after && after[key] == Reencoded(event[key], IsTrue(Find(sets, AllDay)))
  {
    EffectiveFlag(ExistingAllDay(event), sets);
    ExactMeaning(p, event, sets, EffectiveAllDay(ExistingAllDay(event), sets), true, key);
    assert Lookup(Updated(p, event, sets), key).Some?;
  }

  /** Setting all_day to false moves no time that is not set: a date becomes its midnight, and reads as the
      same instant if the platform casts a date and its midnight UTC alike. Any other text is kept. */
  lemma TurnedOffStays(p: Platform, event: Event, sets: seq<Cell>, key: Key, column: Column, text: string)
    requires DistinctColumns(sets) && IsTimeKey(key, column)
    requires Find(sets, column).None? && Find(sets, AllDay).Some? && !IsTrue(Find(sets, AllDay))
    requires key in event && NodeText(event[key]) == Some(text)
    ensures var after := Updated(p, event, sets);
            key in after && after[key] == DateTimeNode(if |text| == 10 then text + "T00:00:00Z" else text)
    ensures (|text| == 10 ==> p.castStamp(text) == p.castStamp(text + "T00:00:00Z")) ==>
              ParseEventTime(p, Updated(p, event, sets), key) == ParseEventTime(p, event, key)
  {
    FlippedNode(p, event, sets, key, column);
  }

  /** A timestamp as DuckDB prints it: ten characters of date, a space, and the time of day. */
  predicate DuckStamp(text: string) {
    |text| > 10 && text[10] == ' ' && forall i :: 0 <= i < |text| && i != 10 ==> text[i] != ' '
  }

  /** Such a timestamp goes out as RFC 3339 text in UTC, or as its first ten characters. */
  lemma PrintedTexts(p: Platform, micros: int)
    requires DuckStamp(p.stampText(micros))
    ensures var text := p.stampText(micros);
            && FormatRfc3339(p, micros) == text[..10] + "T" + text[11..] + "Z"
            && FormatDate(p, micros) == text[..10]
  {
    var text := p.stampText(micros);
    var spelt := text[..10] + "T" + text[11..];
    assert SpacesToT(text) == spelt;
  }

  /** Setting all_day to true takes a time that is not set to the UTC day of the instant it was printed
      from. */
  lemma TurnedOnFloors(p: Platform, event: Event, sets: seq<Cell>, key: Key, column: Column, micros: int)
    requires DistinctColumns(sets) && IsTimeKey(key, column)
    requires Find(sets, column).None? && IsTrue(Find(sets, AllDay))
    requires key in event && event[key] == TimeNode(p, micros, false)
    requires DuckStamp(p.stampText(micros)) && ReadsBack(p, micros)
    ensures var after := Updated(p, event, sets);
            && key in after && after[key] == DateNode(p.stampText(micros)[..10])
            && ParseEventTime(p, after, key) == Timestamp(FloorDay(micros))
  {
    var spelt := FormatRfc3339(p, micros);
    FlippedNode(p, event, sets, key, column);
    PrintedTexts(p, micros);
    assert NodeText(event[key]) == Some(spelt);
    assert Prefix10(spelt) == spelt[..10] == p.stampText(micros)[..10];
    FreshNodeReadsBack(p, micros, true);
  }

  function FlipList(allDay: bool): (sets: seq<Cell>)
    ensures DistinctColumns(sets)
  {
    [UntypedCell.Cell(AllDay, Boolean(allDay))]
  }

  /** A time that is left alone by turning all_day off and on again: absent, without text, or a date node
      of at most ten characters. */
  predicate Flippable(event: Event, key: Key) {
    key !in event || NodeText(event[key]).None?
    || (event[key] == DateNode(NodeText(event[key]).value) && |NodeText(event[key]).value| <= 10)
  }

  lemma FlippedKey(p: Platform, event: Event, allDay: bool, key: Key)
    ensures Lookup(Updated(p, event, FlipList(allDay)), key)
         == if key in event && (key == StartKey || key == EndKey) then Some(Reencoded(event[key], allDay))
            else Lookup(event, key)
  {
    var sets := FlipList(allDay);
    assert sets[1..] == [];
    EffectiveFlag(ExistingAllDay(event), sets);
    ExactMeaning(p, event, sets, allDay, true, key);
    assert Find(sets, AllDay) == Some(Boolean(allDay));
    assert forall column :: column != AllDay ==> Find(sets, column).None?;
  }

  lemma FlippedTwice(node: Json)
    ensures Reencoded(Reencoded(node, false), true) == node
       <==> NodeText(node).None? || (node == DateNode(NodeText(node).value) && |NodeText(node).value| <= 10)
  {
    if NodeText(node).Some? {
      var text := NodeText(node).value;
      var midnight := if |text| == 10 then text + "T00:00:00Z" else text;
      assert NodeText(DateTimeNode(midnight)) == Some(midnight);
      assert Prefix10(midnight) == Prefix10(text) by {
        if |text| == 10 {
          assert midnight[..10] == text;
        }
      }
      assert NodeText(DateNode(Prefix10(text))) == Some(Prefix10(text));
    }
  }

  /** Turning all_day off and on again restores an event if and only if both its times are flippable. */
  lemma OffAndOnAgain(p: Platform, event: Event)
    ensures Updated(p, Updated(p, event, FlipList(false)), FlipList(true)) == event
       <==> Flippable(event, StartKey) && Flippable(event, EndKey)
  {
    var off := Updated(p, event, FlipList(false));
    var on := Updated(p, off, FlipList(true));
    forall key
      ensures Lookup(on, key) == Lookup(event, key)
         <==> (key == StartKey || key == EndKey ==> Flippable(event, key))
    {
      FlippedKey(p, event, false, key);
      FlippedKey(p, off, true, key);
      assert key in off <==> Lookup(off, key).Some?;
      assert key in event <==> Lookup(event, key).Some?;
      if key in event {
        FlippedTwice(event[key]);
      }
    }
    if Flippable(event, StartKey) && Flippable(event, EndKey) {
      EqualByLookup(on, event);
    } else {
      assert Lookup(on, StartKey) != Lookup(event, StartKey) || Lookup(on, EndKey) != Lookup(event, EndKey);
    }
  }
}
