/** How a scan turns predicates on `start` into a server-side time window
    (src/storage/calendar_scan.cpp), and why narrowing the listing loses no row. */
module FilterPushdown {
  import opened Wrappers
  import opened EventModel
  import opened EventMapping

  // ---------- filters ----------

  datatype Comparison =
    | Equal | NotEqual | Less | LessEqual | Greater | GreaterEqual | DistinctFrom | NotDistinctFrom

  /** A side of a comparison: the start column of this scan, an expression that folds to a constant
      (None if that constant is NULL, fails to evaluate or is no timestamp), or any other expression. */
  datatype Operand =
    | StartColumn
    | Constant(folded: Option<int>)
    | Computed(eval: Event -> Option<int>)

  datatype Filter =
    | And(children: seq<Filter>)
    | Between(input: Operand, lower: Operand, upper: Operand, lowerInclusive: bool, upperInclusive: bool)
    | Compare(op: Comparison, left: Operand, right: Operand)
    | Other(meaning: Event -> bool)

  function Evaluate(p: Platform, operand: Operand, event: Event): Option<int> {
    match operand
    case StartColumn =>
      var start := ExtractField(p, event, Start);
      if start.Timestamp? then Some(start.micros) else None
    case Constant(folded) => folded
    case Computed(eval) => eval(event)
  }

  predicate ComparesValues(op: Comparison, a: int, b: int) {
    match op
    case Equal => a == b
    case NotEqual => a != b
    case Less => a < b
    case LessEqual => a <= b
    case Greater => a > b
    case GreaterEqual => a >= b
    case DistinctFrom => a != b
    case NotDistinctFrom => a == b
  }

  /** A comparison is TRUE; with NULL on a side only the DISTINCT FROM forms can be. */
  predicate Compares(op: Comparison, a: Option<int>, b: Option<int>) {
    if a.Some? && b.Some? then ComparesValues(op, a.value, b.value)
    else if op.DistinctFrom? then a != b
    else op.NotDistinctFrom? && a == b
  }

  /** The filter is TRUE of the row the event reads as. */
  ghost predicate Holds(p: Platform, filter: Filter, event: Event) {
    match filter
    case And(children) => forall child <- children :: Holds(p, child, event)
    case Between(input, lower, upper, lowerInclusive, upperInclusive) =>
      var value := Evaluate(p, input, event);
      && Compares(if lowerInclusive then GreaterEqual else Greater, value, Evaluate(p, lower, event))
      && Compares(if upperInclusive then LessEqual else Less, value, Evaluate(p, upper, event))
    case Compare(op, left, right) => Compares(op, Evaluate(p, left, event), Evaluate(p, right, event))
    case Other(meaning) => meaning(event)
  }

  ghost predicate AllHold(p: Platform, filters: seq<Filter>, event: Event) {
    forall filter <- filters :: Holds(p, filter, event)
  }

  // ---------- the window ----------

  /** Bounds as instants; the request prints each as RFC 3339 text. */
  datatype Window = Window(timeMin: Option<int>, timeMax: Option<int>)

  const UNBOUNDED := Window(None, None)

  function FlipComparison(op: Comparison): Comparison {
    match op
    case Greater => Less
    case GreaterEqual => LessEqual
    case Less => Greater
    case LessEqual => GreaterEqual
    case _ => op
  }

  function TryFold(operand: Operand): Option<int> {
    if operand.Constant? then operand.folded else None
  }

  function WithLower(window: Window, bound: Option<int>): Window {
    if bound.Some? then window.(timeMin := Some(bound.value - DAY_MICROS)) else window
  }

  function WithUpper(window: Window, bound: Option<int>): Window {
    if bound.Some? then window.(timeMax := Some(bound.value + DAY_MICROS)) else window
  }

  /** The window a comparison of the start column with a constant leaves. */
  function Narrowed(window: Window, op: Comparison, bound: Option<int>): Window {
    var lowered := if op in {Greater, GreaterEqual, Equal} then WithLower(window, bound) else window;
    if op in {Less, LessEqual, Equal} then WithUpper(lowered, bound) else lowered
  }

  predicate Pushable(op: Comparison) {
    op in {Greater, GreaterEqual, Less, LessEqual, Equal}
  }

  /** The window after one filter; a later bound replaces an earlier one. */
  function Extracted(window: Window, filter: Filter): Window
    decreases filter, 0
  {
    match filter
    case And(children) => ExtractedAll(window, children)
    case Between(input, lower, upper, _, _) =>
      if input.StartColumn? then WithUpper(WithLower(window, TryFold(lower)), TryFold(upper)) else window
    case Compare(op, left, right) =>
      if !Pushable(op) then window
      else if left.StartColumn? then Narrowed(window, op, TryFold(right))
      else if right.StartColumn? then Narrowed(window, FlipComparison(op), TryFold(left))
      else window
    case Other(_) => window
  }

  function ExtractedAll(window: Window, filters: seq<Filter>): Window
    decreases filters, 1
  {
    if filters == [] then window
    else
      assert filters == [filters[0]] + filters[1..];
      ExtractedAll(Extracted(window, filters[0]), filters[1..])
  }

  // ---------- the listing ----------

  /** An event with the instants the server orders and bounds it by, in the calendar's own zone. */
  datatype Entry = Entry(event: Event, starts: int, ends: int)

  /** What events.list promises: timeMin bounds the end and timeMax the start, both exclusively. */
  predicate Admits(window: Window, entry: Entry) {
    && (window.timeMin.Some? ==> entry.ends > window.timeMin.value)
    && (window.timeMax.Some? ==> entry.starts < window.timeMax.value)
  }

  /** An event ends no earlier than it starts, and the start column (which takes an all-day date as
      midnight UTC) is within a day of the instant the server uses. */
  predicate Timely(p: Platform, entry: Entry) {
    && entry.starts <= entry.ends
    && var start := Evaluate(p, StartColumn, entry.event);
    start.Some? ==> -DAY_MICROS < start.value - entry.starts < DAY_MICROS
  }

  function Listed(window: Window, entries: seq<Entry>): seq<Entry> {
    if entries == [] then []
    else (if Admits(window, entries[0]) then [entries[0]] else []) + Listed(window, entries[1..])
  }

  /** The residual filter DuckDB re-applies to the rows of the scan. */
  ghost function Selected(p: Platform, filters: seq<Filter>, entries: seq<Entry>): seq<Entry> {
    if entries == [] then []
    else (if AllHold(p, filters, entries[0].event) then [entries[0]] else [])
         + Selected(p, filters, entries[1..])
  }

  // ---------- nothing is lost ----------

  /** Turning a comparison around is what FlipComparison does, for every operator. */
  lemma FlippedComparison(op: Comparison, a: Option<int>, b: Option<int>)
    ensures Compares(FlipComparison(op), b, a) <==> Compares(op, a, b)
  {
  }

  lemma NarrowedAdmits(p: Platform, window: Window, op: Comparison, bound: Option<int>, entry: Entry)
    requires Timely(p, entry) && Admits(window, entry)
    requires bound.Some? ==> Compares(op, Evaluate(p, StartColumn, entry.event), bound)
    requires Pushable(op)
    ensures Admits(Narrowed(window, op, bound), entry)
  {
  }

  /** A filter's bounds admit every event the filter holds of, whatever bounds they replace. */
  lemma {:induction false} ExtractedAdmits(p: Platform, window: Window, filter: Filter, entry: Entry)
    requires Timely(p, entry) && Admits(window, entry) && Holds(p, filter, entry.event)
    ensures Admits(Extracted(window, filter), entry)
    decreases filter, 0
  {
    match filter
    case And(children) => ExtractedAllAdmits(p, window, children, entry);
    case Between(input, lower, upper, lowerInclusive, upperInclusive) =>
      if input.StartColumn? {
        var lowered := WithLower(window, TryFold(lower));
        assert Admits(lowered, entry);
        assert Admits(WithUpper(lowered, TryFold(upper)), entry);
      }
    case Compare(op, left, right) =>
      if Pushable(op) {
        if left.StartColumn? {
          NarrowedAdmits(p, window, op, TryFold(right), entry);
        } else if right.StartColumn? {
          FlippedComparison(op, Evaluate(p, left, entry.event), Evaluate(p, right, entry.event));
          NarrowedAdmits(p, window, FlipComparison(op), TryFold(left), entry);
        }
      }
    case Other(_) =>
  }

  lemma {:induction false} ExtractedAllAdmits(p: Platform, window: Window, filters: seq<Filter>, entry: Entry)
    requires Timely(p, entry) && Admits(window, entry) && AllHold(p, filters, entry.event)
    ensures Admits(ExtractedAll(window, filters), entry)
    decreases filters, 1
  {
    if filters == [] {
    } else {
      assert filters == [filters[0]] + filters[1..];
      ExtractedAdmits(p, window, filters[0], entry);
      ExtractedAllAdmits(p, Extracted(window, filters[0]), filters[1..], entry);
    }
  }

  /** Filtering the events listed under the extracted window gives the same sequence as filtering all
      of them. */
  lemma {:induction false} PushdownPreservesMeaning(p: Platform, filters: seq<Filter>, entries: seq<Entry>)
    requires forall i :: 0 <= i < |entries| ==> Timely(p, entries[i])
    ensures Selected(p, filters, Listed(ExtractedAll(UNBOUNDED, filters), entries)) == Selected(p, filters, entries)
    decreases entries
  {
    if entries == [] {
    } else {
      var window := ExtractedAll(UNBOUNDED, filters);
      var kept := Listed(window, entries[1..]);
      PushdownPreservesMeaning(p, filters, entries[1..]);
      if AllHold(p, filters, entries[0].event) {
        ExtractedAllAdmits(p, UNBOUNDED, filters, entries[0]);
      }
      assert ([entries[0]] + kept)[1..] == kept && [] + kept == kept;
    }
  }

  /** What each comparison of start with a constant pushes down, to the microsecond: >= and > a lower bound a
      day before it, <= and < an upper bound a day behind it, = both, on either side of the constant; other
      operators nothing. BETWEEN pushes both ends. A new bound replaces the old one on its side. */
  lemma PushedBounds(window: Window, bound: int, upper: int, lowerInclusive: bool, upperInclusive: bool)
    ensures var below, above := Some(bound - 24 * 60 * 60 * 1000000), Some(bound + 24 * 60 * 60 * 1000000);
            var start, constant := StartColumn, Constant(Some(bound));
            && (forall op :: op == Greater || op == GreaterEqual ==>
                               && Extracted(window, Compare(op, start, constant)) == Window(below, window.timeMax)
                               && Extracted(window, Compare(op, constant, start)) == Window(window.timeMin, above))
            && (forall op :: op == Less || op == LessEqual ==>
                               && Extracted(window, Compare(op, start, constant)) == Window(window.timeMin, above)
                               && Extracted(window, Compare(op, constant, start)) == Window(below, window.timeMax))
            && Extracted(window, Compare(Equal, start, constant)) == Window(below, above)
            && Extracted(window, Compare(Equal, constant, start)) == Window(below, above)
            && (forall op :: op == NotEqual || op == DistinctFrom || op == NotDistinctFrom ==>
                               Extracted(window, Compare(op, start, constant)) == window)
    ensures Extracted(window, Between(StartColumn, Constant(Some(bound)), Constant(Some(upper)), lowerInclusive,
                                      upperInclusive))
         == Window(Some(bound - 24 * 60 * 60 * 1000000), Some(upper + 24 * 60 * 60 * 1000000))
  {
  }

  /** A conjunction pushes down what its children do, one after another, like a list of filters. */
  lemma {:induction false} PushedInTurn(window: Window, filters: seq<Filter>, last: Filter)
    ensures ExtractedAll(window, filters + [last]) == Extracted(ExtractedAll(window, filters), last)
    ensures Extracted(window, And(filters + [last])) == Extracted(Extracted(window, And(filters)), last)
    decreases filters
  {
    if filters == [] {
      assert [last][1..] == [];
    } else {
      assert (filters + [last])[1..] == filters[1..] + [last];
      PushedInTurn(Extracted(window, filters[0]), filters[1..], last);
    }
  }

  predicate PadSuffices(start: int, starts: int, ends: int, bound: int) {
    && (start >= bound ==> ends > bound - DAY_MICROS)
    && (start <= bound ==> starts < bound + DAY_MICROS)
  }

  /** The pad of one day serves every skew below one day, and no other. */
  lemma PadCoversSkewBelowADay(skew: int)
    requires skew >= 0
    ensures (forall start, starts, ends, bound {:trigger PadSuffices(start, starts, ends, bound)} ::
               starts <= ends && -skew <= start - starts <= skew ==> PadSuffices(start, starts, ends, bound))
       <==> skew < 24 * 60 * 60 * 1000000
  {
    if skew >= DAY_MICROS {
      assert !PadSuffices(skew, 0, 0, skew);
    }
  }

  // ---------- choosing the window of a scan ----------

  /** Does the filter put a bound on start that can be pushed down? */
  ghost predicate BoundsStart(filter: Filter) {
    match filter
    case And(children) => exists child <- children :: BoundsStart(child)
    case Between(input, lower, upper, _, _) =>
      input.StartColumn? && (TryFold(lower).Some? || TryFold(upper).Some?)
    case Compare(op, left, right) =>
      Pushable(op) &&
      if left.StartColumn? then TryFold(right).Some? else right.StartColumn? && TryFold(left).Some?
    case Other(_) => false
  }

  lemma {:induction false} ExtractedBounds(window: Window, filter: Filter)
    ensures Extracted(window, filter) != UNBOUNDED <==> (window != UNBOUNDED || BoundsStart(filter))
    decreases filter, 0
  {
    match filter
    case And(children) => ExtractedAllBounds(window, children);
    case _ =>
  }

  lemma {:induction false} ExtractedAllBounds(window: Window, filters: seq<Filter>)
    ensures ExtractedAll(window, filters) != UNBOUNDED
       <==> (window != UNBOUNDED || exists filter <- filters :: BoundsStart(filter))
    decreases filters, 1
  {
    if filters == [] {
    } else {
      assert filters == [filters[0]] + filters[1..];
      ExtractedBounds(window, filters[0]);
      ExtractedAllBounds(Extracted(window, filters[0]), filters[1..]);
    }
  }

  datatype DefaultWindow = NoDefault | Dynamic(lengthMicros: int) | Static(lo: int, hi: int)

  datatype ScanError = RequiresTimeBound

  /** Halving as C++ divides: towards zero. */
  function Half(micros: int): int {
    if micros >= 0 then micros / 2 else -(-micros / 2)
  }

  function DefaultLow(default: DefaultWindow, now: int): int
    requires !default.NoDefault?
  {
    if default.Dynamic? then now - Half(default.lengthMicros) else default.lo
  }

  function DefaultHigh(default: DefaultWindow, now: int): int
    requires !default.NoDefault?
  {
    if default.Dynamic? then now + Half(default.lengthMicros) else default.hi
  }

  function ChosenWindow(extracted: Window, default: DefaultWindow, now: int): Result<Window, ScanError> {
    if extracted != UNBOUNDED then Success(extracted)
    else if default.NoDefault? then Failure(RequiresTimeBound)
    else Success(Window(Some(DefaultLow(default, now) - DAY_MICROS), Some(DefaultHigh(default, now) + DAY_MICROS)))
  }

  /** Which rows a scan gives up: none if a filter bounds start; with the default window only rows
      whose start is null or lies outside it; and it is refused exactly when there is neither. */
  lemma ScanReach(p: Platform, filters: seq<Filter>, default: DefaultWindow, now: int, entry: Entry)
    requires Timely(p, entry) && AllHold(p, filters, entry.event)
    ensures var chosen := ChosenWindow(ExtractedAll(UNBOUNDED, filters), default, now);
            var bounded := exists filter <- filters :: BoundsStart(filter);
            && (chosen.Failure? <==> !bounded && default.NoDefault?)
            && (chosen.Success? && !Admits(chosen.value, entry) ==>
                  && !bounded
                  && var start := Evaluate(p, StartColumn, entry.event);
                  start.Some? ==> !(DefaultLow(default, now) <= start.value <= DefaultHigh(default, now)))
  {
    ExtractedAllBounds(UNBOUNDED, filters);
    ExtractedAllAdmits(p, UNBOUNDED, filters, entry);
  }

  /** The default window, measured. A dynamic one of this length around now admits an event exactly if it
      ends less than half the length and a day before now, and starts less than that after now: every
      start within half the length of now is inside, and nothing further out by a day. A static one does
      the same for its two ends. */
  lemma DefaultWindowAdmits(p: Platform, now: int, length: nat, lo: int, hi: int, entry: Entry)
    requires Timely(p, entry)
    ensures var dynamic := ChosenWindow(UNBOUNDED, Dynamic(length), now);
            && dynamic.Success?
            && (Admits(dynamic.value, entry) <==>
                && 2 * (now - entry.ends - 24 * 60 * 60 * 1000000 + 1) <= length
                && 2 * (entry.starts - now - 24 * 60 * 60 * 1000000 + 1) <= length)
            && var start := ExtractField(p, entry.event, Start);
            (start.Timestamp? && 2 * (start.micros - now) <= length && 2 * (now - start.micros) <= length ==>
               Admits(dynamic.value, entry))
    ensures var fixed := ChosenWindow(UNBOUNDED, Static(lo, hi), now);
            && fixed.Success?
            && (Admits(fixed.value, entry) <==>
                entry.ends > lo - 24 * 60 * 60 * 1000000 && entry.starts < hi + 24 * 60 * 60 * 1000000)
            && var start := ExtractField(p, entry.event, Start);
            (start.Timestamp? && lo <= start.micros <= hi ==> Admits(fixed.value, entry))
    ensures ChosenWindow(UNBOUNDED, NoDefault, now) == Failure(RequiresTimeBound)
  {
  }

  /** A negative length is halved towards zero, as C++ divides, and leaves a window of less than two days. */
  lemma NegativeLengthAdmits(now: int, length: int, entry: Entry)
    requires length < 0
    ensures var dynamic := ChosenWindow(UNBOUNDED, Dynamic(length), now);
            && dynamic.Success?
            && (Admits(dynamic.value, entry) <==>
                && 2 * (now - entry.ends - 24 * 60 * 60 * 1000000) < length
                && 2 * (entry.starts - now - 24 * 60 * 60 * 1000000) < length)
  {
  }

  // ---------- the extraction, as the code runs it ----------

  class BindData {
    var timeMin: int
    var timeMax: int
    var hasLower: bool
    var hasUpper: bool

    function Bounds(): Window
      reads this
    {
      Window(if hasLower then Some(timeMin) else None, if hasUpper then Some(timeMax) else None)
    }

    constructor ()
      ensures Bounds() == UNBOUNDED
    {
      timeMin, timeMax, hasLower, hasUpper := 0, 0, false, false;
    }

    method ApplyLowerBound(micros: int)
      modifies this
      ensures Bounds() == WithLower(old(Bounds()), Some(micros))
    {
      timeMin := micros - DAY_MICROS;
      hasLower := true;
    }

    method ApplyUpperBound(micros: int)
      modifies this
      ensures Bounds() == WithUpper(old(Bounds()), Some(micros))
    {
      timeMax := micros + DAY_MICROS;
      hasUpper := true;
    }

    method ExtractTimeBound(filter: Filter)
      modifies this
      ensures Bounds() == Extracted(old(Bounds()), filter)
      decreases filter, 0
    {
      if filter.And? {
        for i := 0 to |filter.children|
          invariant ExtractedAll(Bounds(), filter.children[i..]) == ExtractedAll(old(Bounds()), filter.children)
        {
          assert filter.children[i..][1..] == filter.children[i + 1..];
          ExtractTimeBound(filter.children[i]);
        }
        return;
      }
      if filter.Between? {
        if !filter.input.StartColumn? {
          return;
        }
        var lower := TryFold(filter.lower);
        if lower.Some? {
          ApplyLowerBound(lower.value);
        }
        var upper := TryFold(filter.upper);
        if upper.Some? {
          ApplyUpperBound(upper.value);
        }
        return;
      }
      if !filter.Compare? || !Pushable(filter.op) {
        return;
      }
      var operand, inverted;
      if filter.left.StartColumn? {
        operand, inverted := filter.right, false;
      } else if filter.right.StartColumn? {
        operand, inverted := filter.left, true;
      } else {
        return;
      }
      var bound := TryFold(operand);
      if bound.None? {
        return;
      }
      var op := if inverted then FlipComparison(filter.op) else filter.op;
      if op == Greater || op == GreaterEqual || op == Equal {
        ApplyLowerBound(bound.value);
      }
      if op == Less || op == LessEqual || op == Equal {
        ApplyUpperBound(bound.value);
      }
    }

    method ComplexFilter(filters: seq<Filter>)
      modifies this
      ensures Bounds() == ExtractedAll(old(Bounds()), filters)
    {
      for i := 0 to |filters|
        invariant ExtractedAll(Bounds(), filters[i..]) == ExtractedAll(old(Bounds()), filters)
      {
        assert filters[i..][1..] == filters[i + 1..];
        ExtractTimeBound(filters[i]);
      }
    }
  }
}
