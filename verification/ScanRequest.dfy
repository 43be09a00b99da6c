/** The query a scan sends for each page (src/storage/calendar_scan.cpp), and what the server makes of
    it: the window chosen from the filters arrives intact, so the scan means what its filters say. */
module ScanRequest {
  import opened Wrappers
  import opened EventModel
  import opened EventMapping
  import opened FilterPushdown
  import opened Paging
  import opened Query
  import opened ScanCursor

  const CONSTANT_PAIRS: seq<Pair> := [("singleEvents", "true"), ("orderBy", "startTime"), ("maxResults", "2500")]

  /** The parameters of the first page: three constants, then the window printed as RFC 3339. */
  function ScanPairs(p: Platform, window: Window): seq<Pair> {
    CONSTANT_PAIRS + BoundPair(p, "timeMin", window.timeMin) + BoundPair(p, "timeMax", window.timeMax)
  }

  /** The base query of a scan, parameter by parameter. */
  method BaseQuery(p: Platform, window: Window) returns (base: string)
    requires WindowPrints(p, window)
    ensures PairsAreBytes(ScanPairs(p, window)) && base == Built(ScanPairs(p, window))
  {
    ScanPairsAreBytes(p, window, "");
    var builder := new QueryBuilder();
    builder.Add("singleEvents", "true");
    builder.Add("orderBy", "startTime");
    builder.Add("maxResults", "2500");
    if window.timeMin.Some? {
      builder.Add("timeMin", FormatRfc3339(p, window.timeMin.value));
    }
    if window.timeMax.Some? {
      builder.Add("timeMax", FormatRfc3339(p, window.timeMax.value));
    }
    assert builder.params == ScanPairs(p, window);
    base := builder.Build();
  }

  function PagePairs(pairs: seq<Pair>, token: string): seq<Pair> {
    if token == "" then pairs else pairs + [("pageToken", token)]
  }

  lemma PageTokenKey()
    ensures IsBytes("pageToken") && Encoded("pageToken") == "pageToken"
  {
    UnreservedUnchanged("pageToken");
  }

  lemma PageTokenText(value: string)
    ensures "&" + ("pageToken" + "=" + value) == "&pageToken=" + value
  {
    assert "&" + "pageToken" + "=" == "&pageToken=";
    assert "&" + ("pageToken" + "=" + value) == "&" + "pageToken" + "=" + value;
    assert "&" + ("pageToken" + "=" + value) == "&pageToken=" + value;
  }

  lemma QueryExtended(base: string, text: string)
    ensures "?" + (base + "&" + text) == ("?" + base) + ("&" + text)
  {
  }

  lemma TokenText(base: string, value: string, text: string)
    requires text == "pageToken" + "=" + value
    ensures ("?" + base) + ("&pageToken=" + value) == "?" + (base + "&" + text)
  {
    PageTokenText(value);
    QueryExtended(base, text);
  }

  lemma TokenPair(token: string)
    requires IsBytes(token)
    ensures IsBytes("pageToken") && PairText(("pageToken", token)) == "pageToken" + "=" + Encoded(token)
  {
    PageTokenKey();
  }

  lemma TokenBehind(pairs: seq<Pair>, token: string)
    requires pairs != [] && PairsAreBytes(pairs) && IsBytes(token)
    ensures PairsAreBytes(pairs + [("pageToken", token)])
    ensures Built(pairs) + ("&pageToken=" + Encoded(token)) == Built(pairs + [("pageToken", token)])
  {
    var last := ("pageToken", token);
    TokenPair(token);
    JoinedLast(pairs, last);
    TokenText(Joined(pairs), Encoded(token), PairText(last));
    assert Built(pairs) == "?" + Joined(pairs);
  }

  /** The query of one page: the base query, with the token glued on behind when there is one. */
  method PageQuery(base: string, token: string, ghost pairs: seq<Pair>) returns (query: string)
    requires pairs != [] && PairsAreBytes(pairs) && base == Built(pairs)
    requires IsBytes(token) && PairsAreBytes(PagePairs(pairs, token))
    ensures query == Built(PagePairs(pairs, token))
    ensures ParsedQuery(query) == Some(PagePairs(pairs, token))
  {
    query := base;
    BuildRoundTrip(PagePairs(pairs, token));
    if token != "" {
      var value := UrlEncode(token);
      query := query + ("&pageToken=" + value);
      TokenBehind(pairs, token);
    }
  }

  function Param(pairs: seq<Pair>, key: string): Option<string> {
    if pairs == [] then None
    else if pairs[0].0 == key then Some(pairs[0].1)
    else Param(pairs[1..], key)
  }

  /** The bound a server takes from the text of a parameter. */
  function BoundSeen(p: Platform, text: Option<string>): Option<int> {
    if text.Some? then p.castStamp(text.value) else None
  }

  function WindowSeen(p: Platform, pairs: seq<Pair>): Window {
    Window(BoundSeen(p, Param(pairs, "timeMin")), BoundSeen(p, Param(pairs, "timeMax")))
  }

  /** A bound is printed in bytes that read back as the same instant. */
  predicate BoundPrints(p: Platform, bound: Option<int>) {
    bound.Some? ==>
      IsBytes(FormatRfc3339(p, bound.value)) && p.castStamp(FormatRfc3339(p, bound.value)) == bound
  }

  predicate WindowPrints(p: Platform, window: Window) {
    BoundPrints(p, window.timeMin) && BoundPrints(p, window.timeMax)
  }

  lemma ParameterNames()
    ensures "timeMin" != "timeMax" && "timeMin" != "pageToken" && "timeMax" != "pageToken"
    ensures forall key :: key in ["singleEvents", "orderBy", "maxResults"] ==>
                            IsBytes(key) && key != "timeMin" && key != "timeMax" && key != "pageToken"
    ensures IsBytes("true") && IsBytes("startTime") && IsBytes("2500")
    ensures IsBytes("timeMin") && IsBytes("timeMax") && IsBytes("pageToken")
  {
    assert "timeMin"[5] != "timeMax"[5];
    assert "orderBy"[0] != "timeMin"[0] && "orderBy"[0] != "timeMax"[0];
  }

  lemma ParamFirst(pair: Pair, rest: seq<Pair>, key: string)
    ensures Param([pair] + rest, key) == if pair.0 == key then Some(pair.1) else Param(rest, key)
  {
    assert ([pair] + rest)[1..] == rest;
  }

  lemma ParamOne(pair: Pair, key: string)
    ensures Param([pair], key) == if pair.0 == key then Some(pair.1) else None
  {
    ParamFirst(pair, [], key);
    assert [pair] + [] == [pair];
  }

  lemma {:induction false} ParamAppended(pairs: seq<Pair>, rest: seq<Pair>, key: string)
    ensures Param(pairs + rest, key) == if Param(pairs, key).Some? then Param(pairs, key) else Param(rest, key)
  {
    if pairs == [] {
      assert pairs + rest == rest;
    } else {
      assert (pairs + rest)[1..] == pairs[1..] + rest;
      ParamAppended(pairs[1..], rest, key);
    }
  }

  function BoundPair(p: Platform, key: string, bound: Option<int>): seq<Pair> {
    if bound.Some? then [(key, FormatRfc3339(p, bound.value))] else []
  }

  lemma BoundParam(p: Platform, name: string, bound: Option<int>, key: string)
    ensures Param(BoundPair(p, name, bound), key)
         == if bound.Some? && name == key then Some(FormatRfc3339(p, bound.value)) else None
  {
    if bound.Some? {
      ParamOne((name, FormatRfc3339(p, bound.value)), key);
    }
  }

  lemma ConstantsParam(key: string)
    requires key == "timeMin" || key == "timeMax" || key == "pageToken"
    ensures Param(CONSTANT_PAIRS, key).None?
  {
    ParameterNames();
    ParamFirst(CONSTANT_PAIRS[0], CONSTANT_PAIRS[1..], key);
    ParamFirst(CONSTANT_PAIRS[1], CONSTANT_PAIRS[2..], key);
    ParamOne(CONSTANT_PAIRS[2], key);
  }

  function BoundText(p: Platform, bound: Option<int>): Option<string> {
    if bound.Some? then Some(FormatRfc3339(p, bound.value)) else None
  }

  lemma ScanParams(p: Platform, window: Window, token: string)
    ensures var pairs := PagePairs(ScanPairs(p, window), token);
            && Param(pairs, "timeMin") == BoundText(p, window.timeMin)
            && Param(pairs, "timeMax") == BoundText(p, window.timeMax)
            && Param(pairs, "pageToken") == (if token == "" then None else Some(token))
  {
    ParameterNames();
    var lower, upper := BoundPair(p, "timeMin", window.timeMin), BoundPair(p, "timeMax", window.timeMax);
    forall key | key in ["timeMin", "timeMax", "pageToken"]
      ensures Param(PagePairs(ScanPairs(p, window), token), key)
           == if key == "timeMin" then Param(lower, key)
              else if key == "timeMax" then Param(upper, key)
              else if token == "" then None else Some(token)
    {
      ConstantsParam(key);
      ParamAppended(CONSTANT_PAIRS, lower, key);
      ParamAppended(CONSTANT_PAIRS + lower, upper, key);
      BoundParam(p, "timeMin", window.timeMin, key);
      BoundParam(p, "timeMax", window.timeMax, key);
      if token != "" {
        ParamAppended(ScanPairs(p, window), [("pageToken", token)], key);
        ParamOne(("pageToken", token), key);
      }
    }
    BoundParam(p, "timeMin", window.timeMin, "timeMin");
    BoundParam(p, "timeMax", window.timeMax, "timeMax");
  }

  /** The three constants come first, so no bound or token hides them. */
  lemma ConstantsSeen(p: Platform, window: Window, token: string)
    ensures var pairs := PagePairs(ScanPairs(p, window), token);
            && Param(pairs, "singleEvents") == Some("true")
            && Param(pairs, "orderBy") == Some("startTime")
            && Param(pairs, "maxResults") == Some("2500")
  {
    var bounds := BoundPair(p, "timeMin", window.timeMin) + BoundPair(p, "timeMax", window.timeMax);
    var behind := if token == "" then bounds else bounds + [("pageToken", token)];
    assert PagePairs(ScanPairs(p, window), token) == CONSTANT_PAIRS + behind;
    assert "singleEvents"[0] != "orderBy"[0] && "singleEvents"[0] != "maxResults"[0] && "orderBy"[0] != "maxResults"[0];
    forall key | key in ["singleEvents", "orderBy", "maxResults"]
      ensures Param(PagePairs(ScanPairs(p, window), token), key) == Param(CONSTANT_PAIRS, key)
    {
      ConstantParam(key);
      ParamAppended(CONSTANT_PAIRS, behind, key);
    }
    ConstantParam("singleEvents");
    ConstantParam("orderBy");
    ConstantParam("maxResults");
  }

  lemma ConstantParam(key: string)
    requires key in ["singleEvents", "orderBy", "maxResults"]
    ensures Param(CONSTANT_PAIRS, key)
         == Some(if key == "singleEvents" then "true" else if key == "orderBy" then "startTime" else "2500")
  {
    assert "singleEvents"[0] != "orderBy"[0] && "singleEvents"[0] != "maxResults"[0] && "orderBy"[0] != "maxResults"[0];
    ParamFirst(CONSTANT_PAIRS[0], CONSTANT_PAIRS[1..], key);
    ParamFirst(CONSTANT_PAIRS[1], CONSTANT_PAIRS[2..], key);
    ParamOne(CONSTANT_PAIRS[2], key);
  }

  lemma ScanPairsAreBytes(p: Platform, window: Window, token: string)
    requires WindowPrints(p, window) && IsBytes(token)
    ensures PairsAreBytes(PagePairs(ScanPairs(p, window), token))
  {
    ParameterNames();
  }

  /** A server reads this window and this page token off a query; and that it is asked for single events,
      in the order of their start, 2500 to a page. */
  ghost predicate ReadsAs(p: Platform, query: string, window: Window, token: string) {
    var seen := ParsedQuery(query);
    && seen.Some?
    && WindowSeen(p, seen.value) == window
    && Param(seen.value, "singleEvents") == Some("true")
    && Param(seen.value, "orderBy") == Some("startTime")
    && Param(seen.value, "maxResults") == Some("2500")
    && Param(seen.value, "pageToken") == if token == "" then None else Some(token)
  }

  /** The query is the one a scan of this window sends for the page of this token. */
  ghost predicate IsPageQuery(p: Platform, query: string, window: Window, token: string) {
    var pairs := PagePairs(ScanPairs(p, window), token);
    PairsAreBytes(pairs) && query == Built(pairs)
  }

  lemma BoundsSeen(p: Platform, window: Window, token: string)
    requires WindowPrints(p, window)
    ensures WindowSeen(p, PagePairs(ScanPairs(p, window), token)) == window
  {
    ScanParams(p, window, token);
  }

  /** The query of any page of a scan, read by a server, is the chosen window and the page's token. */
  lemma WindowOnTheWire(p: Platform, window: Window, token: string, query: string)
    requires WindowPrints(p, window) && IsPageQuery(p, query, window, token)
    ensures ReadsAs(p, query, window, token)
  {
    BuildRoundTrip(PagePairs(ScanPairs(p, window), token));
    BoundsSeen(p, window, token);
    ConstantsSeen(p, window, token);
    ScanParams(p, window, token);
  }

  /** From filters to rows: when some filter bounds start, filtering what the server lists for the window
      it parses out of any page's query gives the same sequence as filtering every event. */
  lemma ScanMeansItsFilters(p: Platform, filters: seq<Filter>, default: DefaultWindow, now: int, entries: seq<Entry>,
                            chosen: Window, token: string, query: string)
    requires exists filter <- filters :: BoundsStart(filter)
    requires ChosenWindow(ExtractedAll(UNBOUNDED, filters), default, now) == Success(chosen)
    requires forall i :: 0 <= i < |entries| ==> Timely(p, entries[i])
    requires WindowPrints(p, chosen) && IsPageQuery(p, query, chosen, token)
    ensures var pairs := ParsedQuery(query);
            && pairs.Some?
            && Selected(p, filters, Listed(WindowSeen(p, pairs.value), entries)) == Selected(p, filters, entries)
  {
    ExtractedAllBounds(UNBOUNDED, filters);
    WindowOnTheWire(p, chosen, token, query);
    PushdownPreservesMeaning(p, filters, entries);
  }

  // ---------- down to the rows ----------

  function EventsOf(entries: seq<Entry>): (events: seq<Event>)
    ensures |events| == |entries|
  {
    if entries == [] then [] else [entries[0].event] + EventsOf(entries[1..])
  }

  /** The rows left by the residual filter: those of the events that all filters hold of. */
  ghost function Residual(p: Platform, filters: seq<Filter>, events: seq<Event>, rows: seq<seq<Value>>): seq<seq<Value>>
    requires |events| == |rows|
  {
    if events == [] then []
    else (if AllHold(p, filters, events[0]) then [rows[0]] else []) + Residual(p, filters, events[1..], rows[1..])
  }

  lemma {:induction false} ResidualRows(p: Platform, filters: seq<Filter>, entries: seq<Entry>,
                                        outputs: seq<OutputColumn>, calendarId: string)
    ensures var rows := OutputRows(p, EventsOf(entries), outputs, calendarId);
            && |rows| == |entries|
            && Residual(p, filters, EventsOf(entries), rows)
               == OutputRows(p, EventsOf(Selected(p, filters, entries)), outputs, calendarId)
    decreases entries
  {
    OutputRowsCount(p, EventsOf(entries), outputs, calendarId);
    if entries == [] {
    } else {
      var rest := EventsOf(entries[1..]);
      var kept := Selected(p, filters, entries[1..]);
      ResidualRows(p, filters, entries[1..], outputs, calendarId);
      assert EventsOf(entries)[1..] == rest;
      assert OutputRows(p, EventsOf(entries), outputs, calendarId)[1..] == OutputRows(p, rest, outputs, calendarId);
      if AllHold(p, filters, entries[0].event) {
        assert ([entries[0]] + kept)[1..] == kept;
        assert EventsOf([entries[0]] + kept)[1..] == EventsOf(kept);
      } else {
        assert [] + kept == kept;
      }
    }
  }

  /** From a query to its answer: if the pages hold the events that the server lists for the window it
      parses, then filtering the rows that draining them has put out gives the rows of all events, filtered. */
  lemma ScanAnswersQuery(p: Platform, filters: seq<Filter>, default: DefaultWindow, now: int, entries: seq<Entry>,
                         chosen: Window, token: string, query: string, listing: Listing<Event>, more: nat,
                         outputs: seq<OutputColumn>, calendarId: string, vectors: seq<seq<seq<Value>>>)
    requires exists filter <- filters :: BoundsStart(filter)
    requires ChosenWindow(ExtractedAll(UNBOUNDED, filters), default, now) == Success(chosen)
    requires forall i :: 0 <= i < |entries| ==> Timely(p, entries[i])
    requires WindowPrints(p, chosen) && IsPageQuery(p, query, chosen, token)
    requires Chained(listing, "", more) && ParsedQuery(query).Some?
    requires ItemsFrom(listing, "", more) == EventsOf(Listed(WindowSeen(p, ParsedQuery(query).value), entries))
    requires Concat(vectors) == OutputRows(p, ItemsFrom(listing, "", more), outputs, calendarId)
    ensures |Concat(vectors)| == |ItemsFrom(listing, "", more)|
    ensures |OutputRows(p, EventsOf(entries), outputs, calendarId)| == |entries|
    ensures Residual(p, filters, ItemsFrom(listing, "", more), Concat(vectors))
         == Residual(p, filters, EventsOf(entries), OutputRows(p, EventsOf(entries), outputs, calendarId))
  {
    ScanMeansItsFilters(p, filters, default, now, entries, chosen, token, query);
    ResidualRows(p, filters, Listed(WindowSeen(p, ParsedQuery(query).value), entries), outputs, calendarId);
    ResidualRows(p, filters, entries, outputs, calendarId);
  }
}
