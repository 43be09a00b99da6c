/** What a list of column writes means, key by key and without an order; and the laws of UPDATE and
    INSERT that follow: order independence, framing, idempotence, agreement of the two. */
module SetListLaws {
  import opened Wrappers
  import opened EventModel
  import opened EventMapping

  // ---------- an order-free meaning ----------

  function TimeSlot(p: Platform, before: Option<Json>, found: Option<Value>, reencode: bool, allDay: bool,
                    update: bool): Option<Json>
    requires found.Some? ==> found.value.NullValue? || found.value.Timestamp?
  {
    if found.None? then
      if reencode && before.Some? then Some(Reencoded(before.value, allDay)) else before
    else if found.value.NullValue? then
      if update then None else before
    else Some(TimeNode(p, found.value.micros, allDay))
  }

  function TextSlot(before: Option<Json>, found: Option<Value>, update: bool): Option<Json>
    requires found.Some? ==> found.value.NullValue? || found.value.Varchar?
  {
    if found.None? then before
    else if found.value.NullValue? then if update then None else before
    else Some(Str(found.value.s))
  }

  function FlagSlot(before: Option<Json>, found: Option<Value>, update: bool): Option<Json>
    requires found.Some? ==> found.value.NullValue? || found.value.Boolean?
  {
    if found.None? then before
    else if found.value.NullValue? then if update then None else before
    else Some(Bool(found.value.b))
  }

  /** Text that is empty or does not parse leaves the slot as it was. */
  function RawSlot(p: Platform, before: Option<Json>, found: Option<Value>, update: bool): Option<Json>
    requires found.Some? ==> found.value.NullValue? || found.value.Varchar?
  {
    if found.None? then before
    else if found.value.NullValue? then if update then None else before
    else if found.value.s == "" || p.parse(found.value.s).None? then before
    else p.parse(found.value.s)
  }

  /** What `key` holds after the cells are written over an event. */
  function Slot(p: Platform, event: Event, key: Key, cells: seq<Cell>, allDay: bool, update: bool): Option<Json> {
    var before := Lookup(event, key);
    match key
    case IdKey =>
      var id := Find(cells, EventId);
      if update || id.None? || id.value.NullValue? then before else Some(Str(id.value.s))
    case TextKey(t) => TextSlot(before, Find(cells, Text(t)), update)
    case FlagKey(f) => FlagSlot(before, Find(cells, Flag(f)), update)
    case RawKey(r) => RawSlot(p, before, Find(cells, Raw(r)), update)
    case StartKey => TimeSlot(p, before, Find(cells, Start), update && Find(cells, AllDay).Some?, allDay, update)
    case EndKey => TimeSlot(p, before, Find(cells, End), update && Find(cells, AllDay).Some?, allDay, update)
    case OtherKey(_) => before
  }

  predicate SetsStamp(cells: seq<Cell>, column: Column) {
    Find(cells, column).Some? && Find(cells, column).value.Timestamp?
  }

  predicate SetsNull(cells: seq<Cell>, column: Column) {
    Find(cells, column) == Some(NullValue)
  }

  // ---------- the same with the one trace that order leaves ----------

  /** Does all_day stand behind the column's cell? Then UPDATE re-encodes what that cell has written. */
  predicate FlagBehind(cells: seq<Cell>, column: Column) {
    && cells != []
    && if cells[0].column == column then Find(cells[1..], AllDay).Some? else FlagBehind(cells[1..], column)
  }

  predicate IsTimeKey(key: Key, column: Column) {
    (key == StartKey && column == Start) || (key == EndKey && column == End)
  }

  predicate WrittenThenReencoded(cells: seq<Cell>, key: Key, update: bool) {
    && update
    && ((key == StartKey && SetsStamp(cells, Start) && FlagBehind(cells, Start))
        || (key == EndKey && SetsStamp(cells, End) && FlagBehind(cells, End)))
  }

  function ExactSlot(p: Platform, event: Event, key: Key, cells: seq<Cell>, allDay: bool, update: bool): Option<Json> {
    var slot := Slot(p, event, key, cells, allDay, update);
    if WrittenThenReencoded(cells, key, update) then Some(Reencoded(slot.value, allDay)) else slot
  }

  // ---------- re-encoding ----------

  /** Re-encoding leaves a freshly written time node alone, except a dateTime of exactly ten
      characters, which it takes for a date. */
  lemma ReencodingFixesFreshNode(p: Platform, micros: int, allDay: bool)
    ensures Reencoded(TimeNode(p, micros, allDay), allDay) == TimeNode(p, micros, allDay)
       <==> (allDay || |p.stampText(micros)| != 9)
  {
    var node := TimeNode(p, micros, allDay);
    if allDay {
      assert StringMember(node, "date") == Some(FormatDate(p, micros));
    } else {
      var text := FormatRfc3339(p, micros);
      assert StringMember(node, "dateTime") == Some(text) && |text| == |p.stampText(micros)| + 1;
      if |text| == 10 {
        assert Reencoded(node, false).members["dateTime"].s == text + "T00:00:00Z" != text;
      }
    }
  }

  lemma ReencodingTwice(node: Json, allDay: bool)
    ensures Reencoded(Reencoded(node, allDay), allDay) == Reencoded(node, allDay)
  {
    match NodeText(node)
    case None =>
    case Some(raw) =>
      var once := ReencodedText(raw, allDay);
      if allDay {
        assert StringMember(once, "date") == Some(Prefix10(raw));
      } else {
        assert StringMember(once, "dateTime").Some?;
      }
  }

  predicate LongStamp(p: Platform, value: Option<Value>) {
    value.Some? && value.value.Timestamp? ==> |p.stampText(value.value.micros)| != 9
  }

  /** The one hazard of a SET list is re-encoding a dateTime that this list has just written. */
  predicate NoReencodingHazard(p: Platform, cells: seq<Cell>, allDay: bool, update: bool) {
    update && !allDay && Find(cells, AllDay).Some? ==>
      LongStamp(p, Find(cells, Start)) && LongStamp(p, Find(cells, End))
  }

  // ---------- writing in list order meets the order-free meaning ----------

  lemma {:induction false} FindAbsent(cells: seq<Cell>, column: Column)
    ensures Find(cells, column).None? <==> forall i :: 0 <= i < |cells| ==> cells[i].column != column
  {
    if cells == [] {
    } else {
      FindAbsent(cells[1..], column);
      assert forall i :: 1 <= i < |cells| ==> cells[i] == cells[1..][i - 1];
      if Find(cells, column).None? {
        forall i | 0 <= i < |cells| ensures cells[i].column != column {
          if i > 0 { assert cells[1..][i - 1].column != column; }
        }
      }
    }
  }

  lemma {:induction false} FindPresent(cells: seq<Cell>, i: nat)
    requires DistinctColumns(cells) && i < |cells|
    ensures Find(cells, cells[i].column) == Some(cells[i].value)
  {
    if i == 0 {
    } else {
      assert cells[0].column != cells[i].column;
      assert cells[1..][i - 1] == cells[i];
      FindPresent(cells[1..], i - 1);
    }
  }

  /** The keys a column may write: its own, or both time keys for all_day. */
  predicate Touches(column: Column, key: Key) {
    match column
    case EventId => key == IdKey
    case Text(t) => key == TextKey(t)
    case Flag(f) => key == FlagKey(f)
    case Raw(r) => key == RawKey(r)
    case Start => key == StartKey
    case End => key == EndKey
    case AllDay => key == StartKey || key == EndKey
    case _ => false
  }

  lemma UntouchedKey(p: Platform, event: Event, cell: Cell, allDay: bool, update: bool, key: Key)
    requires !Touches(cell.column, key)
    ensures Lookup(Applied(p, event, cell, allDay, update), key) == Lookup(event, key)
  {
  }

  lemma TimeKeyStep(p: Platform, event: Event, key: Key, column: Column, cells: seq<Cell>, allDay: bool, update: bool)
    requires IsTimeKey(key, column)
    requires cells != [] && cells[0].column in {column, AllDay}
    requires Find(cells[1..], cells[0].column).None?
    ensures ExactSlot(p, Applied(p, event, cells[0], allDay, update), key, cells[1..], allDay, update)
         == ExactSlot(p, event, key, cells, allDay, update)
  {
    var cell := cells[0];
    var after := Applied(p, event, cell, allDay, update);
    if cell.column == AllDay {
      assert Lookup(after, key) ==
             if update && key in event then Some(Reencoded(event[key], allDay)) else Lookup(event, key);
    } else if cell.value.Timestamp? {
      assert Lookup(after, key) == Some(TimeNode(p, cell.value.micros, allDay));
    }
  }

  /** Writing the first cell and then the rest means what the whole list means. */
  lemma SlotStep(p: Platform, event: Event, key: Key, cells: seq<Cell>, allDay: bool, update: bool)
    requires cells != [] && DistinctColumns(cells)
    ensures ExactSlot(p, Applied(p, event, cells[0], allDay, update), key, cells[1..], allDay, update)
         == ExactSlot(p, event, key, cells, allDay, update)
  {
    FindAbsent(cells[1..], cells[0].column);
    if !Touches(cells[0].column, key) {
      UntouchedKey(p, event, cells[0], allDay, update, key);
    } else if key == StartKey {
      TimeKeyStep(p, event, key, Start, cells, allDay, update);
    } else if key == EndKey {
      TimeKeyStep(p, event, key, End, cells, allDay, update);
    }
  }

  /** Folding the columns in list order leaves under every key what the list means there, re-encoded
      once more where all_day comes after the cell that wrote it. */
  lemma {:induction false} ExactMeaning(p: Platform, event: Event, cells: seq<Cell>, allDay: bool, update: bool,
                                        key: Key)
    requires DistinctColumns(cells)
    ensures Lookup(AppliedAll(p, event, cells, allDay, update), key) == ExactSlot(p, event, key, cells, allDay, update)
    decreases cells
  {
    if cells == [] {
    } else {
      ExactMeaning(p, Applied(p, event, cells[0], allDay, update), cells[1..], allDay, update, key);
      SlotStep(p, event, key, cells, allDay, update);
    }
  }

  lemma {:induction false} FlagBehindIsSet(cells: seq<Cell>, column: Column)
    requires FlagBehind(cells, column)
    ensures Find(cells, AllDay).Some?
  {
    if cells[0].column == column {
    } else {
      FlagBehindIsSet(cells[1..], column);
    }
  }

  /** The cell writes a dateTime of ten characters and an all_day = false behind it takes that for a date. */
  predicate Spoiled(p: Platform, cells: seq<Cell>, column: Column, allDay: bool) {
    !allDay && FlagBehind(cells, column) && !LongStamp(p, Find(cells, column))
  }

  /** One key deviates from the order-free meaning exactly if its own cell is spoiled. */
  lemma SpoiledSlot(p: Platform, event: Event, key: Key, column: Column, cells: seq<Cell>, allDay: bool)
    requires IsTimeKey(key, column)
    ensures ExactSlot(p, event, key, cells, allDay, true) == Slot(p, event, key, cells, allDay, true)
       <==> !Spoiled(p, cells, column, allDay)
  {
    if SetsStamp(cells, column) {
      ReencodingFixesFreshNode(p, Find(cells, column).value.micros, allDay);
    }
  }

  /** A list without the hazard leaves under every key exactly what its order-free meaning says. */
  lemma ListMeaning(p: Platform, event: Event, cells: seq<Cell>, allDay: bool, update: bool, key: Key)
    requires DistinctColumns(cells) && NoReencodingHazard(p, cells, allDay, update)
    ensures Lookup(AppliedAll(p, event, cells, allDay, update), key) == Slot(p, event, key, cells, allDay, update)
  {
    ExactMeaning(p, event, cells, allDay, update, key);
    if WrittenThenReencoded(cells, key, update) {
      var column := if key == StartKey then Start else End;
      FlagBehindIsSet(cells, column);
      SpoiledSlot(p, event, key, column, cells, allDay);
    }
  }

  lemma EqualByLookup(a: Event, b: Event)
    requires forall key :: Lookup(a, key) == Lookup(b, key)
    ensures a == b
  {
    assert forall key :: key in a <==> Lookup(a, key).Some?;
    assert forall key :: key in b <==> Lookup(b, key).Some?;
    forall key | key in a ensures a[key] == b[key] {
      assert Lookup(a, key) == Lookup(b, key);
    }
  }

  // ---------- order independence ----------

  ghost predicate Reordering(xs: seq<Cell>, ys: seq<Cell>) {
    DistinctColumns(ys) && multiset(xs) == multiset(ys)
  }

  lemma {:induction false} FindReordered(xs: seq<Cell>, ys: seq<Cell>, column: Column)
    requires DistinctColumns(xs) && Reordering(xs, ys)
    ensures Find(xs, column) == Find(ys, column)
  {
    FindAbsent(xs, column);
    FindAbsent(ys, column);
    forall j | 0 <= j < |ys| ensures ys[j] in xs {
      assert ys[j] in multiset(ys);
    }
    if Find(xs, column).Some? {
      var i :| 0 <= i < |xs| && xs[i].column == column;
      assert xs[i] in multiset(xs);
      assert xs[i] in multiset(ys);
      var j :| 0 <= j < |ys| && ys[j] == xs[i];
      FindPresent(xs, i);
      FindPresent(ys, j);
    }
  }

  lemma SlotReordered(p: Platform, event: Event, key: Key, xs: seq<Cell>, ys: seq<Cell>, allDay: bool, update: bool)
    requires DistinctColumns(xs) && Reordering(xs, ys)
    ensures Slot(p, event, key, xs, allDay, update) == Slot(p, event, key, ys, allDay, update)
  {
    forall column ensures Find(xs, column) == Find(ys, column) {
      FindReordered(xs, ys, column);
    }
  }

  ghost predicate OrderIndependent(p: Platform, event: Event, sets: seq<Cell>, allDay: bool) {
    forall ys :: Reordering(sets, ys) ==>
                   AppliedAll(p, event, ys, allDay, true) == AppliedAll(p, event, sets, allDay, true)
  }

  lemma HazardFreeReordering(p: Platform, event: Event, xs: seq<Cell>, ys: seq<Cell>, allDay: bool, update: bool)
    requires DistinctColumns(xs) && Reordering(xs, ys)
    requires NoReencodingHazard(p, xs, allDay, update)
    ensures AppliedAll(p, event, xs, allDay, update) == AppliedAll(p, event, ys, allDay, update)
  {
    FindReordered(xs, ys, AllDay);
    FindReordered(xs, ys, Start);
    FindReordered(xs, ys, End);
    var a, b := AppliedAll(p, event, xs, allDay, update), AppliedAll(p, event, ys, allDay, update);
    forall key ensures Lookup(a, key) == Lookup(b, key) {
      ListMeaning(p, event, xs, allDay, update, key);
      ListMeaning(p, event, ys, allDay, update, key);
      SlotReordered(p, event, key, xs, ys, allDay, update);
    }
    EqualByLookup(a, b);
  }

  lemma {:induction false} AppliedLast(p: Platform, event: Event, cells: seq<Cell>, last: Cell, allDay: bool,
                                       update: bool)
    ensures AppliedAll(p, event, cells + [last], allDay, update)
         == Applied(p, AppliedAll(p, event, cells, allDay, update), last, allDay, update)
    decreases cells
  {
    if cells == [] {
      assert [last][1..] == [];
    } else {
      assert (cells + [last])[1..] == cells[1..] + [last];
      AppliedLast(p, Applied(p, event, cells[0], allDay, update), cells[1..], last, allDay, update);
    }
  }

  lemma RemovedReorders(cells: seq<Cell>, k: nat)
    requires DistinctColumns(cells) && k < |cells|
    ensures var rest := cells[..k] + cells[k + 1..];
            && DistinctColumns(rest) && (forall i :: 0 <= i < |rest| ==> rest[i].column != cells[k].column)
            && multiset(cells) == multiset([cells[k]] + rest) == multiset(rest + [cells[k]])
  {
    assert cells == cells[..k] + [cells[k]] + cells[k + 1..];
  }

  lemma RemovedReordering(cells: seq<Cell>, k: nat)
    requires DistinctColumns(cells) && k < |cells|
    ensures var rest := cells[..k] + cells[k + 1..];
            && DistinctColumns(rest)
            && Find(rest, cells[k].column).None?
            && Reordering(cells, [cells[k]] + rest) && Reordering(cells, rest + [cells[k]])
  {
    var rest := cells[..k] + cells[k + 1..];
    RemovedReorders(cells, k);
    FindAbsent(rest, cells[k].column);
  }

  lemma RemovedCell(cells: seq<Cell>, k: nat, column: Column)
    requires DistinctColumns(cells) && k < |cells| && column != cells[k].column
    ensures Find(cells[..k] + cells[k + 1..], column) == Find(cells, column)
  {
    var rest := cells[..k] + cells[k + 1..];
    var front := [cells[k]] + rest;
    RemovedReordering(cells, k);
    assert front[1..] == rest;
    FindReordered(cells, front, column);
  }

  /** Applying all_day first and applying it last differ at a key whose fresh dateTime is ten long. */
  lemma HazardOrdersDiffer(p: Platform, event: Event, rest: seq<Cell>, flag: Cell, column: Column, key: Key)
    requires DistinctColumns(rest) && flag.column == AllDay && Find(rest, AllDay).None?
    requires IsTimeKey(key, column)
    requires !LongStamp(p, Find(rest, column))
    ensures AppliedAll(p, event, [flag] + rest, false, true) != AppliedAll(p, event, rest + [flag], false, true)
  {
    var micros := Find(rest, column).value.micros;
    var flagged := Applied(p, event, flag, false, true);
    assert ([flag] + rest)[1..] == rest;
    ListMeaning(p, flagged, rest, false, true, key);
    ListMeaning(p, event, rest, false, true, key);
    AppliedLast(p, event, rest, flag, false, true);
    ReencodingFixesFreshNode(p, micros, false);
    var plain := AppliedAll(p, event, rest, false, true);
    assert Lookup(plain, key) == Some(TimeNode(p, micros, false));
    assert Lookup(Applied(p, plain, flag, false, true), key) == Some(Reencoded(plain[key], false));
  }

  lemma HazardBreaksOrder(p: Platform, event: Event, sets: seq<Cell>) returns (front: seq<Cell>, back: seq<Cell>)
    requires DistinctColumns(sets) && !NoReencodingHazard(p, sets, false, true)
    ensures Reordering(sets, front) && Reordering(sets, back)
    ensures AppliedAll(p, event, front, false, true) != AppliedAll(p, event, back, false, true)
  {
    FindAbsent(sets, AllDay);
    var k :| 0 <= k < |sets| && sets[k].column == AllDay;
    RemovedReordering(sets, k);
    RemovedCell(sets, k, Start);
    RemovedCell(sets, k, End);
    var rest := sets[..k] + sets[k + 1..];
    front, back := [sets[k]] + rest, rest + [sets[k]];
    if LongStamp(p, Find(sets, Start)) {
      HazardOrdersDiffer(p, event, rest, sets[k], End, EndKey);
    } else {
      HazardOrdersDiffer(p, event, rest, sets[k], Start, StartKey);
    }
  }

  /** For distinct columns and a fixed flag, every order of a SET list gives the same event exactly
      when the list does not re-encode a ten-character dateTime that it has itself written. */
  lemma SetListOrderIndependence(p: Platform, event: Event, sets: seq<Cell>, allDay: bool)
    requires DistinctColumns(sets)
    ensures OrderIndependent(p, event, sets, allDay) <==> NoReencodingHazard(p, sets, allDay, true)
  {
    if NoReencodingHazard(p, sets, allDay, true) {
      forall ys | Reordering(sets, ys)
        ensures AppliedAll(p, event, ys, allDay, true) == AppliedAll(p, event, sets, allDay, true)
      {
        HazardFreeReordering(p, event, sets, ys, allDay, true);
      }
    } else {
      var front, back := HazardBreaksOrder(p, event, sets);
    }
  }

  /** The flag pre-pass of UPDATE, for distinct columns: the SET value if there is one. */
  lemma {:induction false} EffectiveFlag(existing: bool, sets: seq<Cell>)
    requires DistinctColumns(sets)
    ensures EffectiveAllDay(existing, sets)
         == if Find(sets, AllDay).Some? then IsTrue(Find(sets, AllDay)) else existing
    decreases sets
  {
    if sets == [] {
    } else {
      FindAbsent(sets[1..], sets[0].column);
      EffectiveFlag(if sets[0].column == AllDay then sets[0].value == Boolean(true) else existing, sets[1..]);
    }
  }

  // ---------- framing ----------

  /** A key that no SET column touches survives the whole list, whatever it holds. */
  lemma {:induction false} SetListFraming(p: Platform, event: Event, cells: seq<Cell>, allDay: bool, update: bool,
                                          key: Key)
    requires forall i :: 0 <= i < |cells| ==> !Touches(cells[i].column, key)
    ensures Lookup(AppliedAll(p, event, cells, allDay, update), key) == Lookup(event, key)
    decreases cells
  {
    if cells == [] {
    } else {
      UntouchedKey(p, event, cells[0], allDay, update, key);
      SetListFraming(p, Applied(p, event, cells[0], allDay, update), cells[1..], allDay, update, key);
    }
  }

  // ---------- idempotence ----------

  /** The one UPDATE that changes its mind when repeated: it nulls the start of an all-day event,
      which turns the event's own flag off, and sets an end without setting all_day. */
  predicate ForgetsAllDay(event: Event, sets: seq<Cell>) {
    && Find(sets, AllDay).None? && ExistingAllDay(event)
    && SetsNull(sets, Start) && SetsStamp(sets, End)
  }

  lemma FlagAfterUpdate(p: Platform, event: Event, sets: seq<Cell>, allDay: bool)
    requires DistinctColumns(sets)
    requires Find(sets, AllDay).None? ==> allDay == ExistingAllDay(event)
    ensures Find(sets, AllDay).None? && !SetsNull(sets, Start) ==>
              ExistingAllDay(AppliedAll(p, event, sets, allDay, true)) == allDay
    ensures SetsNull(sets, Start) ==> !ExistingAllDay(AppliedAll(p, event, sets, allDay, true))
  {
    ExactMeaning(p, event, sets, allDay, true, StartKey);
    if FlagBehind(sets, Start) {
      FlagBehindIsSet(sets, Start);
    }
    var after := AppliedAll(p, event, sets, allDay, true);
    assert StartKey in after <==> Lookup(after, StartKey).Some?;
  }

  lemma SlotTwice(p: Platform, event: Event, sets: seq<Cell>, allDay: bool, again: bool, key: Key)
    requires DistinctColumns(sets)
    requires again == allDay || (Find(sets, AllDay).None? && !SetsStamp(sets, Start) && !SetsStamp(sets, End))
    ensures var once := AppliedAll(p, event, sets, allDay, true);
            ExactSlot(p, once, key, sets, again, true) == Lookup(once, key)
  {
    ExactMeaning(p, event, sets, allDay, true, key);
    if key in event {
      ReencodingTwice(event[key], allDay);
    }
  }

  /** Repeating an UPDATE changes nothing, except in the one family described by ForgetsAllDay. */
  lemma UpdateIdempotence(p: Platform, event: Event, sets: seq<Cell>)
    requires DistinctColumns(sets)
    ensures Updated(p, Updated(p, event, sets), sets) == Updated(p, event, sets) <==> !ForgetsAllDay(event, sets)
  {
    var flag := EffectiveAllDay(ExistingAllDay(event), sets);
    var once := Updated(p, event, sets);
    var again := EffectiveAllDay(ExistingAllDay(once), sets);
    var twice := Updated(p, once, sets);
    EffectiveFlag(ExistingAllDay(event), sets);
    EffectiveFlag(ExistingAllDay(once), sets);
    FlagAfterUpdate(p, event, sets, flag);
    if ForgetsAllDay(event, sets) {
      ListMeaning(p, event, sets, flag, true, EndKey);
      ListMeaning(p, once, sets, again, true, EndKey);
      var micros := Find(sets, End).value.micros;
      assert "date" in TimeNode(p, micros, true).members && "date" !in TimeNode(p, micros, false).members;
    } else {
      forall key ensures Lookup(twice, key) == Lookup(once, key) {
        SlotTwice(p, event, sets, flag, again, key);
        ExactMeaning(p, once, sets, again, true, key);
      }
      EqualByLookup(twice, once);
    }
  }

  function NullStartSetEnd(end: int): (sets: seq<Cell>)
    ensures DistinctColumns(sets)
  {
    [UntypedCell.Cell(Start, NullValue), UntypedCell.Cell(End, Timestamp(end))]
  }

  /** That family is met by every all-day event, and there are all-day events: repeating SET start =
      NULL with any end writes a different end. */
  lemma RepeatingCanDiffer(p: Platform, event: Event, end: int)
    ensures var sets := NullStartSetEnd(end);
            ExistingAllDay(event) ==> Updated(p, Updated(p, event, sets), sets) != Updated(p, event, sets)
    ensures ExistingAllDay(map[StartKey := DateNode("2026-06-01")])
  {
    var sets := NullStartSetEnd(end);
    var rest := sets[1..];
    assert rest == [sets[1]] && rest[1..] == [];
    assert Find(sets, AllDay) == Find(rest, AllDay) == Find(rest[1..], AllDay);
    assert Find(sets, End) == Find(rest, End);
    UpdateIdempotence(p, event, sets);
  }

  // ---------- INSERT and UPDATE ----------

  lemma InsertSlot(p: Platform, row: seq<Cell>, allDay: bool, key: Key)
    ensures ExactSlot(p, map[], key, row, allDay, false) == Slot(p, map[], key, row, allDay, false)
    ensures key != IdKey ==> Slot(p, map[], key, row, allDay, false) == Slot(p, map[], key, row, allDay, true)
    ensures Slot(p, map[], IdKey, row, allDay, true) == None
  {
  }

  /** An inserted body is, but for its id, what UPDATE makes of the empty event from the same cells,
      except exactly where UPDATE spoils a time that stands before an all_day = false. */
  lemma InsertAgreesWithUpdate(p: Platform, row: seq<Cell>)
    requires DistinctColumns(row)
    ensures EventOfRow(p, row) - {IdKey} == Updated(p, map[], row)
       <==> !Spoiled(p, row, Start, RowAllDay(row)) && !Spoiled(p, row, End, RowAllDay(row))
  {
    var inserted, updated := EventOfRow(p, row) - {IdKey}, Updated(p, map[], row);
    var flag := RowAllDay(row);
    EffectiveFlag(false, row);
    forall key ensures Lookup(inserted, key) == Lookup(updated, key)
                  <==> ExactSlot(p, map[], key, row, flag, true) == Slot(p, map[], key, row, flag, true)
    {
      ExactMeaning(p, map[], row, flag, false, key);
      ExactMeaning(p, map[], row, flag, true, key);
      InsertSlot(p, row, flag, key);
      assert Lookup(inserted, key) == if key == IdKey then None else Lookup(EventOfRow(p, row), key);
    }
    SpoiledSlot(p, map[], StartKey, Start, row, flag);
    SpoiledSlot(p, map[], EndKey, End, row, flag);
    if forall key :: Lookup(inserted, key) == Lookup(updated, key) {
      EqualByLookup(inserted, updated);
    }
  }

  /** INSERT and UPDATE do differ: on a start of nine characters in front of all_day = false. */
  lemma InsertCanDiffer(p: Platform, start: int)
    requires |p.stampText(start)| == 9
    ensures var row := [UntypedCell.Cell(Start, Timestamp(start)), UntypedCell.Cell(AllDay, Boolean(false))];
            DistinctColumns(row) && EventOfRow(p, row) - {IdKey} != Updated(p, map[], row)
  {
    var row: seq<Cell> := [UntypedCell.Cell(Start, Timestamp(start)), UntypedCell.Cell(AllDay, Boolean(false))];
    var rest := row[1..];
    assert rest == [row[1]] && Find(rest, AllDay) == Some(Boolean(false));
    assert Find(row, AllDay) == Find(rest, AllDay) && FlagBehind(row, Start);
    InsertAgreesWithUpdate(p, row);
  }

  lemma PaddedSlot(p: Platform, row: seq<Cell>, full: seq<Cell>, allDay: bool, key: Key)
    requires forall column :: Find(full, column) == Find(row, column)
                              || (Find(row, column).None? && Find(full, column) == Some(NullValue))
    ensures Slot(p, map[], key, full, allDay, false) == Slot(p, map[], key, row, allDay, false)
  {
  }

  /** A row of the whole schema, with NULL for what an INSERT does not name, inserts the same body. */
  lemma PaddedRow(p: Platform, row: seq<Cell>, full: seq<Cell>)
    requires DistinctColumns(row) && DistinctColumns(full)
    requires forall column :: Find(full, column) == Find(row, column)
                              || (Find(row, column).None? && Find(full, column) == Some(NullValue))
    ensures EventOfRow(p, full) == EventOfRow(p, row)
  {
    var allDay := RowAllDay(row);
    assert RowAllDay(full) == allDay;
    var a, b := EventOfRow(p, full), EventOfRow(p, row);
    forall key ensures Lookup(a, key) == Lookup(b, key) {
      ListMeaning(p, map[], full, allDay, false, key);
      ListMeaning(p, map[], row, allDay, false, key);
      PaddedSlot(p, row, full, allDay, key);
    }
    EqualByLookup(a, b);
  }
}
