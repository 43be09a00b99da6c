# A Dafny model of duckdb-google-calendar

The extension exposes a remote Google calendar as a SQL table. This project models the parts in which
the SQL view and the remote store have to agree, and proves that they do:

- **Event mapping** (`EventModel`, `EventSchema`, `EventMapping`, `SetListLaws`, `EncodingLaws`,
  `ColumnLaws`, `Returning`): how one SQL column is written into an event body, how a row or a SET list is folded into
  one, how `all_day` drives and flips the encoding of `start` and `end`, and what a row reads back as. The
  centre is an order-free meaning of a list of column writes, key by key (`Slot`), and the one trace that
  order leaves (`ExactSlot`); order independence, framing, idempotence and the agreement of INSERT with
  UPDATE follow from it. `Returning` compares the list an UPDATE names with the whole row that it is
  handed under RETURNING.
- **Scan** (`FilterPushdown`, `Paging`, `ScanCursor`, `ScanRequest`, `ScanLaws`): predicates on `start`
  become a server-side window, the window travels in a query string, the paged reply is re-cut into vectors,
  and the row ids of their rows lead UPDATE and DELETE back to the events.
- **Writes over an unreliable network** (`RemoteCalendar`, `Mutations`, `Sinks`, `Merge`): every attempt
  of a request may be carried out or not, and answered honestly, with a retryable error, or not at all.
  The safety theorems hold for every choice of these fates. When a row succeeds is said exactly, by the
  fates: a request settles honestly if the first of its attempts that is not garbled is honest
  (`SettlesHonestly`). A network is `Reliable` if every request would, and `Truthful` if besides no attempt
  answered as an overload has been carried out.
- **Encoders** (`Query`, `Base64Url`, `Pem`), each against a decoder or inverse written here.
- **Catalog** (`Catalog`): mounting calendars under aliases, and creating and dropping them in a session.
- **Lazy client construction** (`ClientLock`): the interleavings of `GetClient`, with and without its lock.

Code that changes things in place is a class or a method with a loop (`Document`, `BindData`, `Cursor`,
`QueryBuilder`, `RetryingClient`, `Sink`, `Source`, `CalendarCatalog`, `CalendarTransaction`), proved equal
to a function; the laws are lemmas about the functions.

## Representation

- Columns and JSON keys are enumerated (`Column`, `Key`) where the code looks names up in tables; a key
  no writable column maps to is an `OtherKey`. A body is a map of keys; the JSON null that an event starts
  as, before its first key, is the empty map.
- `Platform` holds what comes from DuckDB and the JSON library as function parameters: how a timestamp
  prints, how text casts to a timestamp, JSON parsing and printing. Nothing is assumed of them globally.
  A lemma that needs a fact states it for the values concerned: `ReadsBack` (a printed dateTime casts back
  to the same instant, and its first ten characters to its UTC day), `BoundPrints` (the same for a window
  bound), `LongStamp` (a timestamp does not print as exactly nine characters; no finite one does).
- The network answers by status: what a server may answer instead of serving a request (`IsOverload`,
  `IsRefusal`) is written apart from what the client retries (`IsRetryable`); that the two agree is a lemma.
- Window bounds are instants; the code prints each when it extracts it, the model when it builds the query.
- `Entry` gives an event the instants the server orders it by. `Timely` says that it does not end before
  it starts and that the `start` column is less than a day away from the server's instant, all-day dates
  being read as midnight UTC.
- Under RETURNING the sink is handed the SET list followed by a cell for every other column, with the
  value the scanned event reads as (`Expanded`). `IsTable` allows these cells in any order; the events
  schema is one such table (`SchemaIsTable`). What it takes for them to be written back unharmed is said of
  the values concerned: `Reprinted` (a JSON value is what its own text parses to, or its text is not
  written), `TimePrints` (`ReadsBack`, and the UTC day prints as the same date), `Printable` (both, for
  all that a list does not set).
- A `Merging` is one MERGE statement. Its rows hold two lists, the cells to insert and the cells to update
  a matched event by; the first carries the id and, for repeating, a start, and the second is free to leave
  out `event_id`, as a MERGE without RETURNING has to, or to include it, as `update by name` does. A merged
  column is compared after a merge (`Comparable`) if its time prints and reads back and, for `all_day`, if
  the event has a start.
- Characters of encoded text stand for bytes. The base64url encoder takes 8-bit words; its specification
  speaks of their values.
- Names and ids compared without regard to case are kept in lower case (ASCII).

## Where the code does less than one would expect

- `ReencodeTimeNode` takes any ten-character `dateTime` for a date. A SET list that sets `all_day` to false
  and a time that prints as nine characters (DuckDB's `-infinity` is one) depends on its order;
  `SetListOrderIndependence` says exactly when a list does not. The comment in event_mapping.hpp:181
  speaks of nodes "not also SET here"; the code re-encodes those too.
- For the same reason INSERT and UPDATE of the empty event can differ: exactly if the flag is false and a
  time of nine characters stands before the `all_day` cell (`InsertAgreesWithUpdate`, `InsertCanDiffer`).
- Repeating an UPDATE can change the event: nulling the start of an all-day event and setting its end
  turns the event's own flag off, so that the second run writes a dateTime (`UpdateIdempotence`,
  `RepeatingCanDiffer`).
- UPDATE with RETURNING writes columns that the statement does not name. It leaves the same event as
  without RETURNING exactly if every key survives being read and written back (`ReturningKeepsMeaning`): a
  time in another spelling, say with an offset, is respelt in UTC (`ReturningRespellsTimes`), a JSON null
  or an ill-typed value is erased or turned into text. What SQL reads is the same for
  values that the platform prints and reads back (`ReturningUnsetColumnsStay`).
- An update can leave an all-day end without a start, which then no longer matches `all_day`: exactly if the
  effective flag is true, the list sets the start to NULL or finds none, and it sets an end or finds one
  (`UpdateEncoding`, `StrandingHappens`).
- calendar_scan.cpp:140-141 credits the residual filter alone with exactness. It takes the one-day pad
  too: the bounds must admit every row the filter keeps (`PadCoversSkewBelowADay`).
- A second MERGE can overwrite an event that the first one moved out of the scan's window: exactly if the
  event holds something that its row does not cover, key by key (`RowCovers`, `RowCoversReturning`,
  `LostSightHappens`). With RETURNING it can also erase a JSON null that the first one inserted
  (`UnsettledHappens`).
- A DELETE can fail although it removed the event (`DeleteCanFailThoughDone`): exactly if the decisive
  attempt is carried out without an honest answer (`DeleteOutcome`).
- A DROP that removes the calendar without being told so leaves a table with no calendar behind it
  (`DropOutcome`, `LostDropHappens`).
- Of calendars claiming one table name the last mounted wins (`LastClaimStands`), and the others cannot be
  reached under it (`MountsStand`, `CollisionHappens`).

## Model

| member | source | states |
|---|---|---|
| EventMapping.Document.ApplyColumn | src/include/storage/event_mapping.hpp:125-189 | writing one cell changes the document as the column's kind and the mode say, and a column not writable in this mode changes nothing |
| EventMapping.Document.SetJsonPassthrough | src/include/storage/event_mapping.hpp:46-59 | NULL, empty and malformed text leave the document unchanged, other text is stored parsed |
| EventMapping.Document.ReencodeTimeNode | src/include/storage/event_mapping.hpp:67-87 | an existing time node with text is rebuilt in the flag's encoding, anything else stays |
| EventMapping.ComputeRowAllDay | src/include/storage/event_mapping.hpp:192-200 | the loop finds the flag of the first all_day cell, false if none or NULL |
| EventMapping.RowToEvent | src/include/storage/event_mapping.hpp:203-210 | the built body is the fold of the row from the empty event under the row's own flag |
| EventMapping.EventToRow | src/include/storage/event_mapping.hpp:355-362 | one value per requested column, calendar_id from the context and the rest from the event |
| SetListLaws.ReencodingFixesFreshNode | src/include/storage/event_mapping.hpp:36-87 | re-encoding a freshly written node under its own flag is the identity if and only if it is not a ten-character dateTime |
| SetListLaws.ReencodingTwice | src/include/storage/event_mapping.hpp:67-87 | re-encoding any node twice equals re-encoding it once |
| SetListLaws.ExactMeaning | src/include/storage/event_mapping.hpp:125-189 | folding any distinct columns in list order leaves under every key the order-free meaning of the list, re-encoded once more where all_day stands behind the time cell that wrote it |
| SetListLaws.ListMeaning | src/include/storage/event_mapping.hpp:125-189 | without a nine-character time to re-encode, every key holds exactly the order-free meaning of the list, for INSERT and UPDATE |
| SetListLaws.SetListOrderIndependence | src/storage/calendar_update.cpp:61-72 | all orders of a SET list give the same event if and only if the list does not re-encode a ten-character dateTime it has itself written |
| SetListLaws.EffectiveFlag | src/storage/calendar_update.cpp:54-60 | the pre-pass yields the SET value of all_day if there is one, else the event's own flag |
| SetListLaws.SetListFraming | src/include/storage/event_mapping.hpp:89-189 | a key no SET column touches keeps whatever it held, so server-managed and unknown keys survive |
| SetListLaws.UpdateIdempotence | src/storage/calendar_update.cpp:52-73 | for every SET list of distinct columns, repeating the UPDATE changes nothing if and only if it does not null the start of an all-day event while setting an end but not all_day |
| SetListLaws.RepeatingCanDiffer | src/storage/calendar_update.cpp:52-73 | on every all-day event a list of that kind makes the second run differ from the first |
| SetListLaws.InsertAgreesWithUpdate | src/include/storage/event_mapping.hpp:125-210 | an inserted body without its id equals the UPDATE of the empty event by the same cells if and only if no time of nine characters stands before an all_day that is not true |
| SetListLaws.InsertCanDiffer | src/include/storage/event_mapping.hpp:125-210 | on a start of nine characters in front of all_day = false INSERT and UPDATE do differ |
| SetListLaws.PaddedRow | src/storage/calendar_merge.cpp:44-56 | NULL for every column an INSERT does not name adds nothing to the body |
| EncodingLaws.UpdateEncoding | src/storage/calendar_update.cpp:54-72 | after any UPDATE start and end share the effective flag's encoding and all_day reads it back; the event stays well encoded if and only if event and list do not strand an all-day end |
| EncodingLaws.StrandingHappens | src/storage/calendar_update.cpp:54-72 | setting the start of an all-day event with an end to NULL strands the end |
| EncodingLaws.UpdateRunEncoding | src/storage/calendar_update.cpp:46-74 | the same over every run of UPDATEs that null no start |
| EncodingLaws.RowRoundTrip | src/include/storage/event_mapping.hpp:203-362 | every writable column of an inserted row reads back in its normal form |
| EncodingLaws.UpdateReadsBack | src/include/storage/event_mapping.hpp:125-351 | every SET column reads back in its normal form after an UPDATE, or as before if it is a document whose text does not parse |
| EncodingLaws.AllDayStays | src/include/storage/event_mapping.hpp:89-351 | an all_day that is not SET reads as before if and only if the start of an all-day event is not set to NULL |
| EncodingLaws.UnsetColumnsStay | src/include/storage/event_mapping.hpp:89-351 | a column that is read-only or not SET reads as before, start and end unless all_day is SET, all_day unless the start of an all-day event is set to NULL |
| EncodingLaws.TimeReads | src/include/storage/event_mapping.hpp:254-273 | a time reads as its dateTime, without one as its date, and else as NULL |
| EncodingLaws.TurnedOffStays | src/include/storage/event_mapping.hpp:67-87 | SET all_day = false keeps an unset time's text, a date becoming its midnight UTC, and what it reads as if the platform casts the two alike |
| EncodingLaws.PrintedTexts | src/include/storage/event_mapping.hpp:21-34 | a timestamp as DuckDB prints it goes out with a T for its space and a Z behind, or as its first ten characters |
| EncodingLaws.TurnedOnFloors | src/include/storage/event_mapping.hpp:67-87 | SET all_day = true makes an unset dateTime its UTC day, and reads as that midnight |
| EncodingLaws.OffAndOnAgain | src/include/storage/event_mapping.hpp:67-87 | turning all_day off and on again restores an event if and only if its times are absent, without text or dates of at most ten characters |
| ColumnLaws.WritableExactly | src/include/storage/event_mapping.hpp:125-189 | UPDATE writes exactly the text, flag and document columns, start, end and all_day, which are the columns that can change an event; INSERT also event_id |
| ColumnLaws.DocumentReads | src/include/storage/event_mapping.hpp:233-238 | a document column reads as text that parses to what is stored, or as NULL |
| ColumnLaws.TextReads | src/include/storage/event_mapping.hpp:223-231 | a text column reads as the stored string; as text that parses to it if it is something else |
| ColumnLaws.FlagReads | src/include/storage/event_mapping.hpp:240-245 | a flag column reads as a stored boolean, anything else as NULL |
| ColumnLaws.AllDayReads | src/include/storage/event_mapping.hpp:61-64 | all_day is true if and only if the start has a date and no dateTime |
| ColumnLaws.ServerColumnsRead | src/include/storage/event_mapping.hpp:275-351 | each kind of server-managed column reads the member it is named by |
| ColumnLaws.IdsRead | src/include/storage/event_mapping.hpp:275-362 | event_id reads as the id of the body, calendar_id as the calendar it was read from |
| ColumnLaws.ReadAlone | src/include/storage/event_mapping.hpp:275-351 | a column is read from its own key alone |
| EventSchema.SchemaIsTable | src/storage/event_schema.cpp:10-67 | the 43 columns are distinct and every writable column is among them |
| Returning.ExpandedFlag | src/storage/calendar_update.cpp:54-66 | the unchanged columns that RETURNING adds leave the flag that times are encoded by as it was |
| Returning.ReturningKeepsMeaning | src/storage/calendar_update.cpp:61-72 | the expanded list leaves the same event as the plain list if and only if every key survives being read and written back |
| Returning.ReturningRespellsTimes | src/storage/calendar_update.cpp:61-72 | a dateTime that is not SET keeps its text under the plain list and gets the UTC spelling of its instant under RETURNING |
| Returning.FlagReadsSame | src/storage/calendar_update.cpp:54-72 | under RETURNING an all_day that is not SET reads as before if and only if the list does not carry a missing start for an all-day event |
| Returning.ReturningUnsetColumnsStay | src/storage/calendar_update.cpp:61-72 | under RETURNING a column that is not SET still reads as before |
| Returning.ReturningIdempotence | src/storage/calendar_update.cpp:52-73 | repeating an UPDATE with RETURNING changes nothing if and only if it does not drop the start of an all-day event and keep an end without all_day |
| FilterPushdown.FlippedComparison | src/storage/calendar_scan.cpp:70-83 | the flipped operator with swapped sides is TRUE in the same cases, NULLs included |
| FilterPushdown.PushedBounds | src/storage/calendar_scan.cpp:128-203 | each comparison of start with a constant, on either side, pushes down its bounds exactly one day out and no others, and replaces the old ones |
| FilterPushdown.PushedInTurn | src/storage/calendar_scan.cpp:142-212 | a list and a conjunction push down what their parts do, one after another |
| FilterPushdown.BindData.ApplyLowerBound | src/storage/calendar_scan.cpp:128-131 | the lower bound becomes the value less one day, replacing any other |
| FilterPushdown.BindData.ApplyUpperBound | src/storage/calendar_scan.cpp:133-136 | the upper bound becomes the value plus one day, replacing any other |
| FilterPushdown.BindData.ExtractTimeBound | src/storage/calendar_scan.cpp:142-203 | the recursive walk leaves the window its functional specification gives |
| FilterPushdown.BindData.ComplexFilter | src/storage/calendar_scan.cpp:205-212 | the same for a whole filter list |
| FilterPushdown.ExtractedAdmits | src/storage/calendar_scan.cpp:142-203 | the bounds of one filter admit every event it holds of, whatever bounds they replace |
| FilterPushdown.ExtractedAllAdmits | src/storage/calendar_scan.cpp:205-212 | the bounds of a filter list admit every event of which all filters hold |
| FilterPushdown.PushdownPreservesMeaning | src/storage/calendar_scan.cpp:138-212 | filtering the events listed under the extracted window gives the same sequence as filtering all events |
| FilterPushdown.PadCoversSkewBelowADay | src/storage/calendar_scan.cpp:85-136 | the one-day pad suffices for a skew between column and server time if and only if the skew is below twenty-four hours |
| FilterPushdown.ExtractedAllBounds | src/storage/calendar_scan.cpp:142-212 | a window is extracted if and only if some filter puts a foldable bound on start |
| FilterPushdown.ScanReach | src/storage/calendar_scan.cpp:235-266 | a scan is refused exactly without bound and default window; a matching row is given up only under the default window and only if its start is null or outside it |
| FilterPushdown.DefaultWindowAdmits | src/storage/calendar_scan.cpp:240-266 | a dynamic default window admits an event if and only if it lies within half the length and a day of now, a static one if and only if within a day of its ends; no start inside is missed |
| FilterPushdown.NegativeLengthAdmits | src/storage/calendar_scan.cpp:255-258 | the same for a negative length, halved towards zero |
| ScanCursor.Cursor.FetchPage | src/storage/calendar_scan.cpp:216-229 | after a fetch the pending events are those of the page and of all later ones |
| ScanCursor.Cursor.NextPage | src/storage/calendar_scan.cpp:293-300 | passing the end of a page loses no event and ends the scan only when none is pending |
| ScanCursor.Cursor.EmitRow | src/storage/calendar_scan.cpp:302-311 | a row holds the row id, the calendar id or the event's column, as projected |
| ScanCursor.Cursor.Scan | src/storage/calendar_scan.cpp:287-315 | a vector holds the next 2048 pending events, or all of them and then the scan is finished |
| ScanCursor.Drain | src/storage/calendar_scan.cpp:231-315 | over any finite chain of pages the vectors concatenate to all items in order, each once, all full but perhaps the last, and an empty one comes only at the end |
| ScanLaws.ScannedRow | src/storage/calendar_scan.cpp:301-312 | the row of an event holds its id as row id, the calendar's id, and in every column what the event reads as, for an inserted event the inserted value in normal form |
| ScanLaws.StatementOverScan | src/storage/calendar_update.cpp:44-79 | over a truthful network UPDATE or DELETE of the rows of a scan completes and does to exactly the scanned events what it says |
| ScanRequest.BaseQuery | src/storage/calendar_scan.cpp:270-278 | the base query is that of the three constants and the window's bounds |
| ScanRequest.PageQuery | src/storage/calendar_scan.cpp:216-220 | a server reading the query of a page recovers the base pairs followed by the page token if there is one |
| ScanRequest.WindowOnTheWire | src/storage/calendar_scan.cpp:216-278 | read off any page's query, the window is the chosen one and the token the page's, and single events are asked for by start, 2500 a page |
| ScanRequest.ScanMeansItsFilters | src/storage/calendar_scan.cpp:205-285 | from filters over the wire to rows: filtering what the server lists equals filtering everything |
| ScanRequest.ScanAnswersQuery | src/storage/calendar_scan.cpp:205-315 | if the pages hold what the server lists for the window it parses, filtering the rows that draining them puts out gives the filtered rows of all events |
| Query.UrlEncode | src/calendar/util/query.cpp:8-22 | the loop computes the percent-encoding of every byte string |
| Query.EncodingRoundTrip | src/calendar/util/query.cpp:8-22 | percent-decoding gives back every byte string |
| Query.EncodingInjective | src/calendar/util/query.cpp:8-22 | different byte strings have different encodings |
| Query.EncodingEscapes | src/calendar/util/query.cpp:8-22 | only unreserved characters and percent triplets are emitted |
| Query.EncodedCharacters | src/calendar/util/query.cpp:8-22 | letters, digits, hyphen, underscore, full stop and tilde stay and every other byte becomes a triplet; # is %23 |
| Query.QueryBuilder.Add | src/calendar/util/query.cpp:24-27 | a pair is appended behind the others |
| Query.QueryBuilder.Build | src/calendar/util/query.cpp:29-43 | the built string reads back as exactly the added pairs in order |
| Query.BuildRoundTrip | src/calendar/util/query.cpp:29-43 | splitting and decoding a built query recovers any list of byte-string pairs |
| Query.EventPathRoundTrip | src/calendar/resources/events.cpp:18-21 | the path of an event reads back as its calendar and event id, whatever bytes they hold |
| Base64Url.AlphabetRoundTrip | src/calendar/util/encoding.cpp:6-10 | each of the 64 values maps to its own character, which needs no percent-encoding |
| Base64Url.AlphabetIsTheTable | src/calendar/util/encoding.cpp:6-10 | the alphabet by value is the table the code indexes |
| Base64Url.TwoAndFour | src/calendar/util/encoding.cpp:22-22 | masking, shifting and joining two bytes cuts them as division and remainder do |
| Base64Url.FourAndTwo | src/calendar/util/encoding.cpp:25-25 | the same for the third character |
| Base64Url.Base64UrlEncode | src/calendar/util/encoding.cpp:12-33 | the loop computes the encoding of every byte array |
| Base64Url.RoundTrip | src/calendar/util/encoding.cpp:12-33 | strict decoding, unused bits zero, gives back every byte array |
| Base64Url.Canonical | src/calendar/util/encoding.cpp:12-33 | whatever the strict decoder accepts is the encoding of what it returns |
| Base64Url.Shape | src/calendar/util/encoding.cpp:12-33 | the length is ceil(4n/3) and every character is in the URL-safe alphabet |
| Base64Url.KnownVectors | src/calendar/util/encoding.cpp:12-33 | the test vectors of RFC 4648 come out |
| Base64Url.UrlEncodingUnchanged | src/calendar/util/encoding.cpp:12-33 | percent-encoding leaves the output unchanged |
| Pem.NormalizePemKey | src/calendar/util/encoding.cpp:39-47 | the in-place loop ends with each pair replaced from left to right |
| Pem.NoPairLeft | src/calendar/util/encoding.cpp:39-47 | no backslash-n pair remains |
| Pem.Idempotent | src/calendar/util/encoding.cpp:39-47 | normalising twice equals normalising once |
| Pem.ShorterByPairs | src/calendar/util/encoding.cpp:39-47 | the text shortens by exactly the number of pairs in it |
| Pem.ExpandedBack | src/calendar/util/encoding.cpp:39-47 | writing line feeds as pairs undoes it for a key without line feeds |
| RemoteCalendar.ContainsExactly | src/calendar/transport/retrying_http_client.cpp:23-27 | a text contains a word if and only if it is that word with something before and behind it |
| RemoteCalendar.RetryStatuses | src/calendar/transport/retrying_http_client.cpp:14-54 | 429, 500 to 599 and 403 naming a rate limit are followed by another attempt, every other answer and none end the request |
| RemoteCalendar.RetryContract | src/calendar/transport/retrying_http_client.cpp:44-54 | the outcome is that of the first attempt not answered retryably, or of the last allowed; none is made after it |
| RemoteCalendar.DelayIsJitter | src/calendar/transport/retrying_http_client.cpp:32-42 | a delay is at most base * 2^attempt, and any draw up to that is the delay |
| RemoteCalendar.RetryingClient.SleepBackoff | src/calendar/transport/retrying_http_client.cpp:32-42 | one backoff sleeps the delay of its attempt, or nothing in tests |
| RemoteCalendar.RetryingClient.Execute | src/calendar/transport/retrying_http_client.cpp:44-54 | the loop has the outcome of the retry contract and sleeps the delays before every attempt but the first, at most base * (2^(max-1) - 1) in all |
| RemoteCalendar.BackoffFitsInt64 | src/calendar/transport/retrying_http_client.cpp:37-37 | no shift or product of a retry loop leaves 64 bits if and only if the longest one does not |
| Mutations.GetChangesNothing | src/calendar/resources/events.cpp:18-21 | a GET however retried changes nothing and, answered 200, reports the stored event |
| RemoteCalendar.HonestIsTruthful | src/calendar/transport/retrying_http_client.cpp:44-54 | a network that serves every attempt is truthful |
| RemoteCalendar.RetriesOverloads | src/calendar/transport/retrying_http_client.cpp:14-30 | the client retries exactly the answers of an overloaded server |
| Mutations.GetSucceeds | src/calendar/resources/events.cpp:18-21 | a GET succeeds if and only if the event is there and the request settles honestly |
| Mutations.PutSucceeds | src/calendar/resources/events.cpp:28-31 | a PUT succeeds if and only if the id is live or reserved and the request settles honestly |
| Mutations.PostSettles | src/calendar/resources/events.cpp:23-26 | a POST under a client's id that settles honestly is answered 200 if the id was free and no garbled attempt took it, else 409 |
| Mutations.PostOnce | src/calendar/resources/events.cpp:23-26 | a retried POST under a client's id takes effect at most once, and exactly once if answered 200 |
| Mutations.PutOnce | src/calendar/resources/events.cpp:28-31 | a retried PUT takes effect at most once, and exactly once if answered 200 |
| Mutations.InsertExactlyOnce | src/storage/calendar_insert.cpp:40-57 | an insert with a client id that returns normally leaves its body under that id and nothing else changed; failing, that or nothing |
| Mutations.InsertOutcome | src/storage/calendar_insert.cpp:40-57 | an insert succeeds if and only if its POST settles honestly and, where the id is taken, the PUT after the 409 does too; the error names the id |
| Mutations.ReliableInsert | src/storage/calendar_insert.cpp:45-51 | over a reliable network an insert succeeds whether its id is new, live or reserved |
| Mutations.InsertWithoutId | src/storage/calendar_insert.cpp:40-57 | an insert without id leaves between one copy and one per attempt under new ids, and no other change |
| Mutations.InsertWithoutIdOutcome | src/storage/calendar_insert.cpp:40-57 | an insert without id succeeds if and only if its POST settles honestly, on a server that gives new ids |
| Mutations.UpdateReadModifyWrite | src/storage/calendar_update.cpp:46-74 | an update returning normally replaces exactly the stored event by its SET result; failing, that or nothing; a read-only column outside RETURNING changes nothing |
| Mutations.UpdateOutcome | src/storage/calendar_update.cpp:46-74 | an update succeeds if and only if the event is there, GET and PUT settle honestly and no read-only column is set outside RETURNING; the first such column is the error |
| Mutations.DeleteRemoves | src/storage/calendar_delete.cpp:41-55 | a delete returning normally removes exactly that event and reports it as it was; failing, that or nothing |
| Mutations.DeleteOutcome | src/storage/calendar_delete.cpp:41-55 | a delete succeeds if and only if the event is there and the decisive attempt is honest; the event is gone afterwards if and only if it was not there or that attempt took effect |
| Mutations.TruthfulDelete | src/storage/calendar_delete.cpp:41-55 | over a truthful network a delete succeeds if and only if the event is there |
| Mutations.DeleteCanFailThoughDone | src/calendar/resources/events.cpp:33-40 | for any number of attempts some network makes a delete fail although the event is gone |
| Sinks.Sink.InsertOne | src/storage/calendar_insert.cpp:41-65 | the row's insert, its 409 upsert and its error path |
| Sinks.Sink.UpdateOne | src/storage/calendar_update.cpp:51-73 | the fetch, flag pre-pass, SET loop and put of a row, with the read-only error |
| Sinks.Sink.DeleteOne | src/storage/calendar_delete.cpp:46-53 | the optional fetch and the delete of a row |
| Sinks.Sink.Consume | src/storage/calendar_insert.cpp:37-72 | rows are carried out in order up to the first failure, each completed one counted once and, with RETURNING, reported as it was left |
| Sinks.CompletedRows | src/storage/calendar_update.cpp:44-79 | a run that does not fail completes exactly the rows that have a row id, one that fails fewer |
| Sinks.StopsAtFailure | src/storage/calendar_insert.cpp:37-72 | a run in two parts carries out the second where the first ends, and not at all if that failed |
| Sinks.Source.GetData | src/storage/calendar_insert.cpp:84-100 | the vectors hand out what is pending, in order, and the last one is announced exactly when nothing is left |
| Sinks.Report | src/storage/calendar_insert.cpp:84-100 | draining a sink reports its collected rows in order, or one row with its count |
| Merge.ChangeEffect | src/storage/calendar_merge.cpp:28-58 | one merge action does to its id what it means, or on failure that or nothing, and nothing to other ids |
| Merge.RunEffect | src/storage/calendar_merge.cpp:15-69 | actions on distinct ids in any order leave each id as its action means it, and all others alone even when the run fails |
| Merge.RunCompletes | src/storage/calendar_merge.cpp:15-69 | over a truthful network a run on distinct ids completes if and only if each update and delete finds its event and a list it may write |
| Merge.MergeRun | examples/lib/sync.sql:5-16 | a merge that returns normally leaves exactly the merged events, matched ones updated by the whole row under RETURNING and by the SET list without; a failing one leaves each id merged or as it was |
| Merge.MergeCompletes | examples/lib/sync.sql:5-16 | over a truthful network, overloaded or not, a merge returns normally if and only if it has RETURNING or no matched row sets a read-only column |
| Merge.MergeConverges | examples/lib/sync.sql:5-16 | a merge that returns normally leaves every source id present under its own id, every scanned stale replica gone, every other event untouched |
| Merge.MergeAgrees | examples/lib/sync.sql:5-16 | after it every source id reads on every merged column as its row says, in normal form |
| Merge.MergeRecovers | examples/lib/sync.sql:5-16 | after a merge that failed anywhere the next one to return normally leaves every id converged from where the failed one began, and every source id in agreement with its row |
| Merge.InsertThenUpdate | src/storage/calendar_insert.cpp:41-51 | updating a just inserted event from its own row by the plain list changes nothing |
| Merge.InsertThenReturning | src/storage/calendar_update.cpp:61-72 | by the expanded list it changes nothing if and only if the insert stored no JSON null that the update does not set |
| Merge.CoveredExactly | src/storage/calendar_insert.cpp:41-51 | a plain update leaves what the insert would if and only if the row covers every key of the event |
| Merge.CoveredReturningExactly | src/storage/calendar_update.cpp:61-72 | an update by the expanded list leaves what the insert would if and only if the row covers every key of what the list carries |
| Merge.MergeAgain | examples/lib/sync.sql:5-16 | a second merge changes an id if and only if the first lost sight of it, its event out of the window and more than its row covers, or left it unsettled |
| Merge.MergeIdempotence | examples/lib/sync.sql:5-16 | two merges in a row over the network: the second changes nothing if and only if the first lost sight of no id and left none unsettled |
| Merge.LostSightHappens | examples/lib/sync.sql:5-16 | moving the start of an event with an etag out of the window loses sight of it, with RETURNING or without |
| Merge.UnsettledHappens | examples/lib/sync.sql:5-16 | inserting a JSON null for a document that the update does not set leaves the id unsettled under RETURNING |
| Catalog.LowerIgnoresCase | src/include/storage/calendar_schema_entry.hpp:38-38 | two names share a key if and only if they are equal letter by letter up to case |
| Catalog.CalendarCatalog.AddTable | src/storage/calendar_schema_entry.cpp:18-20 | the table stands under its name, replacing any other |
| Catalog.CalendarCatalog.LookupEntry | src/storage/calendar_schema_entry.cpp:41-51 | a lookup finds the table registered under the name up to case, or nothing |
| Catalog.CalendarCatalog.MarkCreatedThisSession | src/include/storage/calendar_catalog.hpp:30-32 | exactly that id is added to the created ones |
| Catalog.CalendarCatalog.ForgetCreatedThisSession | src/include/storage/calendar_catalog.hpp:36-38 | exactly that id is taken from the created ones |
| Catalog.CalendarCatalog.InvertAliases | src/storage/calendar_catalog.cpp:58-63 | the inverted map gives each calendar id all its aliases |
| Catalog.CalendarCatalog.MountPage | src/storage/calendar_catalog.cpp:69-82 | each calendar of a page is registered under all of its names |
| Catalog.CalendarCatalog.LoadCatalog | src/storage/calendar_catalog.cpp:58-92 | all pages are mounted, and it fails if and only if some alias names an unlisted calendar |
| Catalog.AliasesListedExactly | src/storage/calendar_catalog.cpp:86-91 | the aliases are in order if and only if the calendar of each is listed, ids compared up to case |
| Catalog.MountingInvertsAliases | src/storage/calendar_catalog.cpp:58-84 | a name stands for a calendar if and only if that calendar is listed and the name is its alias or, without alias, its id |
| Catalog.MountsStand | src/storage/calendar_catalog.cpp:69-82 | every mount stands if and only if no two calendars claim one name |
| Catalog.LastClaimStands | src/storage/calendar_catalog.cpp:69-82 | of the tables claiming one name up to case the last mounted stands |
| Catalog.CollisionHappens | src/storage/calendar_catalog.cpp:69-82 | with the id of one calendar as the alias of another listed before it, the other cannot be reached |
| Catalog.CalendarCatalog.CreateTableAs | src/storage/calendar_catalog.cpp:122-132 | the tables and created ids become those of the session after the CREATE: the reported calendar registered and marked, nothing on a failure |
| Catalog.CalendarCatalog.DropEntry | src/storage/calendar_schema_entry.cpp:92-121 | the verdict and new state of a DROP, and that the server is asked to delete only a created id |
| Catalog.DropOutcome | src/storage/calendar_schema_entry.cpp:92-121 | which verdict a DROP gets, IF EXISTS included; it removes and unregisters one created calendar, or leaves tables and created ids as they were; it leaves a table without its calendar if and only if the server removes it but the answer is lost |
| Catalog.LostDropHappens | src/storage/calendar_schema_entry.cpp:92-121 | in any session a CREATE and a DROP carried out but not answered leave a table without its calendar |
| Catalog.TablesStayBacked | src/storage/calendar_schema_entry.cpp:92-121 | over every run without such a DROP every table stands for a calendar on the server |
| Catalog.DropSafety | src/storage/calendar_schema_entry.cpp:105-120 | over every run, a calendar that is gone is one a CREATE TABLE AS of this run reported |
| Catalog.PreexistingCalendarsSurvive | src/storage/calendar_schema_entry.cpp:107-114 | a session never removes a calendar it found |
| Catalog.AttachedIsSound | src/storage/calendar_catalog.cpp:58-92 | what ATTACH mounts is a session that has created nothing, every table of it a listed calendar |
| Catalog.AttachedCalendarsSurvive | src/storage/calendar_catalog.cpp:58-132 | from ATTACH through any run of statements no calendar found on the server is removed |
| Catalog.CalendarCatalog.Perform | src/storage/calendar_schema_entry.cpp:92-121 | the statements of a session, carried out on the catalog, end in the state of the run and keep every calendar found |
| ClientLock.NoThreadLosesItsClient | src/storage/calendar_transaction.cpp:21-38 | in every interleaving a returned client stays published, is the one every later return gives, and its objects are never replaced |
| ClientLock.LockIsNeverStuck | src/storage/calendar_transaction.cpp:26-36 | after any run, thrown constructions included, the lock is free or its holder can go on |
| ClientLock.RaceWithoutTheLock | src/storage/calendar_transaction.cpp:22-25 | without the lock some interleaving replaces the http object of a client already returned |
| ClientLock.CalendarTransaction.GetClient | src/storage/calendar_transaction.cpp:21-38 | one call returns the published client or builds it, throws exactly when a construction does, and frees the lock |

## Left out

- Catalog.CalendarCatalog.LoadCatalog: covers listings whose every page can be fetched; a failing fetch throws.
- ScanCursor.Cursor.FetchPage: covers finite chains of pages that can be fetched; a failing fetch ends the query.
- Merge.MergeConverges: takes DuckDB's routing of rows to actions, distinct source ids and no other writer as given.
- Merge.MergeAgain: takes it besides that every row has a start and that its update sets nothing that its insert does not.
- Returning.ReturningKeepsMeaning: takes the expansion of the SET list from the scanned row as DuckDB makes it; the order of the added cells is left open.
- RemoteCalendar.RetryingClient.Execute: asks for at least one attempt; with none the code returns an unset response.
- Sinks.Sink.Consume: reports a deleted row once it is deleted; the code collects it just before, which shows only if the delete throws.
- Server-managed fields (etag, updated, sequence) that the server itself changes on a write; a stored body is the body sent, under its id.
- The status `cancelled` with which the API still answers a GET of a deleted event; here it answers 404.
- Concurrent writers between the fetch and the put of an UPDATE.
- 64-bit overflow of a timestamp at the pad, and infinite timestamps as bounds.
- Text of error messages and request bodies as JSON text.
- OAuth, service-account signing, secrets, proxies and the HTTP transport.
- The option table of ATTACH that sets the default window, the check of the events schema, and rejected DDL.
- MERGE plan construction and DuckDB's own operators, filters other than those on `start`, and expression folding.
