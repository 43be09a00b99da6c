/** INSERT, UPDATE and DELETE of events over an unreliable network (src/storage/calendar_insert.cpp,
    calendar_update.cpp, calendar_delete.cpp): what each row leaves on the server. */
module Mutations {
  import opened Wrappers
  import opened EventModel
  import opened EventMapping
  import opened EncodingLaws
  import opened RemoteCalendar

  datatype Failure =
    | InsertFailed(id: Option<string>)
    | RequestFailed(status: Option<int>)
    | ReadOnlyColumn(column: Column)

  /** How the client reaches the server: the network's behaviour and the number of attempts allowed. */
  datatype Link = Link(net: Network, attempts: nat)

  predicate Usable(link: Link) {
    link.attempts >= 1
  }

  // ---------- requests as the resource methods report them ----------

  function StatusOf(reply: Reply): Option<int> {
    if reply.Answered? then Some(reply.response.status) else None
  }

  /** A request that must be answered 200 with an event. */
  function Fetched(link: Link, world: World, request: Request): (World, Result<Event, Failure>)
    requires Usable(link)
  {
    var (after, reply) := Executed(link.net, world, request, link.attempts);
    (after, if StatusOf(reply) == Some(200) then Success(reply.response.event)
     else Failure(RequestFailed(StatusOf(reply))))
  }

  /** One INSERT row: an insert, turned into an update of the same id if the id is taken. */
  function InsertedRow(link: Link, world: World, body: Event): (World, Result<Event, Failure>)
    requires Usable(link)
  {
    var (first, created) := Fetched(link, world, Insert(body));
    if created.Success? then (first, created)
    else if created.error.status == Some(409) && IdOf(body).Some? then
      Fetched(link, first, Update(IdOf(body).value, body))
    else (first, Failure(InsertFailed(IdOf(body))))
  }

  function FirstReadOnly(sets: seq<Cell>): Option<Column> {
    if sets == [] then None
    else if !Writable(sets[0].column, true) then Some(sets[0].column)
    else FirstReadOnly(sets[1..])
  }

  /** One UPDATE row: fetch, write the SET list into the body, put it back. Without RETURNING a
      read-only column in the list is an error before anything is put. */
  function UpdatedRow(p: Platform, link: Link, world: World, id: string, sets: seq<Cell>, returning: bool)
    : (World, Result<Event, Failure>)
    requires Usable(link)
  {
    var (first, got) := Fetched(link, world, Get(id));
    if got.Failure? then (first, got)
    else if !returning && FirstReadOnly(sets).Some? then (first, Failure(ReadOnlyColumn(FirstReadOnly(sets).value)))
    else Fetched(link, first, Update(id, Updated(p, got.value, sets)))
  }

  /** One DELETE row; with RETURNING the event is fetched first and is the result. */
  function DeletedRow(link: Link, world: World, id: string, returning: bool): (World, Result<Event, Failure>)
    requires Usable(link)
  {
    var (first, got) := if returning then Fetched(link, world, Get(id)) else (world, Success(map[]));
    if got.Failure? then (first, got)
    else
      var (after, reply) := Executed(link.net, first, Delete(id), link.attempts);
      (after, if StatusOf(reply) == Some(200) || StatusOf(reply) == Some(204) then got
       else Failure(RequestFailed(StatusOf(reply))))
  }

  // ---------- a request repeated while it may already have been carried out ----------

  function Stored(id: string, body: Event): Event {
    body[IdKey := Str(id)]
  }

  function Put(server: Server, id: string, body: Event): Server {
    Server(server.live[id := Stored(id, body)], server.reserved - {id})
  }

  function Removed(server: Server, id: string): Server {
    Server(server.live - {id}, server.reserved + {id})
  }

  predicate Known(server: Server, id: string) {
    id in server.live || id in server.reserved
  }

  lemma {:induction false} GetChangesNothing(net: Network, world: World, id: string, attempts: nat)
    requires attempts >= 1
    ensures var (after, reply) := Executed(net, world, Get(id), attempts);
            && after.server == world.server
            && (StatusOf(reply) == Some(200) ==>
                  id in world.server.live && reply.response.event == world.server.live[id])
    decreases attempts
  {
    var (next, reply) := Attempt(net, world, Get(id));
    if Retries(reply) && attempts > 1 {
      GetChangesNothing(net, next, id, attempts - 1);
    }
  }

  /** A PUT leaves the server as it was or with the body under that id, however often it is retried;
      answered 200, it is the latter. */
  lemma {:induction false} PutOnce(net: Network, world: World, origin: Server, id: string, body: Event, attempts: nat)
    requires attempts >= 1
    requires world.server == origin || (Known(origin, id) && world.server == Put(origin, id, body))
    ensures var (after, reply) := Executed(net, world, Update(id, body), attempts);
            && (after.server == origin || (Known(origin, id) && after.server == Put(origin, id, body)))
            && (StatusOf(reply) == Some(200) ==>
                  Known(origin, id) && after.server == Put(origin, id, body)
                  && reply.response.event == Stored(id, body))
    decreases attempts
  {
    var (next, reply) := Attempt(net, world, Update(id, body));
    assert Put(Put(origin, id, body), id, body) == Put(origin, id, body);
    if Retries(reply) && attempts > 1 {
      PutOnce(net, next, origin, id, body, attempts - 1);
    }
  }

  /** An insert under a client's id leaves the server as it was or with the body under that id; 200
      means the latter, and 409 that the id was known already or an earlier attempt was carried out. */
  lemma {:induction false} PostOnce(net: Network, world: World, origin: Server, id: string, body: Event, attempts: nat)
    requires attempts >= 1 && IdOf(body) == Some(id)
    requires world.server == origin || (!Known(origin, id) && world.server == Put(origin, id, body))
    ensures var (after, reply) := Executed(net, world, Insert(body), attempts);
            && (after.server == origin || (!Known(origin, id) && after.server == Put(origin, id, body)))
            && (StatusOf(reply) == Some(200) ==>
                  after.server == Put(origin, id, body) && reply.response.event == Stored(id, body))
    decreases attempts
  {
    var (next, reply) := Attempt(net, world, Insert(body));
    assert !Known(origin, id) ==> origin.reserved - {id} == origin.reserved;
    if Retries(reply) && attempts > 1 {
      PostOnce(net, next, origin, id, body, attempts - 1);
    }
  }

  lemma {:induction false} DeleteOnce(net: Network, world: World, origin: Server, id: string, attempts: nat)
    requires attempts >= 1
    requires world.server == origin || (id in origin.live && world.server == Removed(origin, id))
    ensures var (after, reply) := Executed(net, world, Delete(id), attempts);
            && (after.server == origin || (id in origin.live && after.server == Removed(origin, id)))
            && (StatusOf(reply) == Some(200) || StatusOf(reply) == Some(204) ==>
                  id in origin.live && after.server == Removed(origin, id))
    decreases attempts
  {
    var (next, reply) := Attempt(net, world, Delete(id));
    if Retries(reply) && attempts > 1 {
      DeleteOnce(net, next, origin, id, attempts - 1);
    }
  }

  // ---------- when a request succeeds ----------

  /** A GET succeeds if and only if the event is there and the request settles honestly. */
  lemma {:induction false} GetSucceeds(net: Network, world: World, id: string, attempts: nat)
    requires attempts >= 1
    ensures var (after, reply) := Executed(net, world, Get(id), attempts);
            StatusOf(reply) == Some(200) <==> id in world.server.live && SettlesHonestly(net, world.clock, attempts)
    decreases attempts
  {
    var (next, reply) := Attempt(net, world, Get(id));
    RetriesOverloads(net, world, Get(id));
    if Retries(reply) && attempts > 1 {
      GetSucceeds(net, next, id, attempts - 1);
    } else {
      assert attempts == 1 ==> !SettlesHonestly(net, world.clock + 1, attempts - 1);
    }
  }

  /** A PUT succeeds if and only if the id is live or reserved and the request settles honestly. */
  lemma {:induction false} PutSucceeds(net: Network, world: World, id: string, body: Event, attempts: nat)
    requires attempts >= 1
    ensures var (after, reply) := Executed(net, world, Update(id, body), attempts);
            StatusOf(reply) == Some(200) <==> Known(world.server, id) && SettlesHonestly(net, world.clock, attempts)
    decreases attempts
  {
    var (next, reply) := Attempt(net, world, Update(id, body));
    RetriesOverloads(net, world, Update(id, body));
    if Retries(reply) && attempts > 1 {
      PutSucceeds(net, next, id, body, attempts - 1);
    } else {
      assert attempts == 1 ==> !SettlesHonestly(net, world.clock + 1, attempts - 1);
    }
  }

  /** A POST under a client's id that settles honestly is answered 200 if the id was unknown and no
      garbled attempt has created it, and 409 otherwise; one that does not is answered neither. */
  lemma {:induction false} PostSettles(net: Network, world: World, id: string, body: Event, attempts: nat)
    requires attempts >= 1 && IdOf(body) == Some(id)
    ensures var (after, reply) := Executed(net, world, Insert(body), attempts);
            var settled := SettlesHonestly(net, world.clock, attempts);
            var taken := Known(world.server, id) || CarriedOutBefore(net, world.clock, attempts);
            && (StatusOf(reply) == Some(200) <==> settled && !taken)
            && (StatusOf(reply) == Some(409) <==> settled && taken)
            && (StatusOf(reply) == Some(409) ==> Known(after.server, id))
    decreases attempts
  {
    var (next, reply) := Attempt(net, world, Insert(body));
    RetriesOverloads(net, world, Insert(body));
    if Retries(reply) && attempts > 1 {
      PostSettles(net, next, id, body, attempts - 1);
    } else {
      assert attempts == 1 ==> !SettlesHonestly(net, world.clock + 1, attempts - 1);
    }
  }

  // ---------- one row ----------

  /** Insert under a client's id: returning normally, the body is on the server under that id exactly
      once and nothing else has changed; failing, it is there once or nothing has changed at all. */
  lemma InsertExactlyOnce(link: Link, world: World, body: Event, id: string)
    requires Usable(link) && IdOf(body) == Some(id)
    ensures var (after, result) := InsertedRow(link, world, body);
            && (result.Success? ==> after.server == Put(world.server, id, body) && result.value == body)
            && (result.Failure? ==> after.server == world.server || after.server == Put(world.server, id, body))
  {
    PostOnce(link.net, world, world.server, id, body, link.attempts);
    var (first, _) := Fetched(link, world, Insert(body));
    PutOnce(link.net, first, first.server, id, body, link.attempts);
    assert Put(Put(world.server, id, body), id, body) == Put(world.server, id, body);
    assert Stored(id, body) == body;
  }

  /** An INSERT row succeeds if and only if its POST settles honestly and, where the id is taken, live or
      reserved or by a garbled attempt, the PUT that follows a 409 settles honestly too. Else the error
      names the id or the status of the PUT. */
  lemma InsertOutcome(link: Link, world: World, body: Event, id: string)
    requires Usable(link) && IdOf(body) == Some(id)
    ensures var (after, result) := InsertedRow(link, world, body);
            var first := Fetched(link, world, Insert(body)).0;
            var posted := SettlesHonestly(link.net, world.clock, link.attempts);
            var taken := Known(world.server, id) || CarriedOutBefore(link.net, world.clock, link.attempts);
            && (result.Success? <==> posted && (taken ==> SettlesHonestly(link.net, first.clock, link.attempts)))
            && (!posted ==> result == Failure(InsertFailed(Some(id))))
            && (posted && result.Failure? ==> result.error.RequestFailed?)
  {
    PostSettles(link.net, world, id, body, link.attempts);
    var first := Fetched(link, world, Insert(body)).0;
    PutSucceeds(link.net, first, id, body, link.attempts);
  }

  /** Over a reliable network an INSERT row always succeeds and leaves its body under its id, whether the
      id is new, live or reserved. */
  lemma ReliableInsert(link: Link, world: World, body: Event, id: string)
    requires Usable(link) && IdOf(body) == Some(id) && Reliable(link.net, link.attempts)
    ensures var (after, result) := InsertedRow(link, world, body);
            result == Success(body) && after.server == Put(world.server, id, body)
  {
    InsertOutcome(link, world, body, id);
    InsertExactlyOnce(link, world, body, id);
    var first := Fetched(link, world, Insert(body)).0;
    assert SettlesHonestly(link.net, world.clock, link.attempts);
    assert SettlesHonestly(link.net, first.clock, link.attempts);
  }

  /** The server is the origin with copies of the body under these new ids. */
  ghost predicate CopiesAdded(origin: Server, server: Server, body: Event, ids: set<string>) {
    && server.reserved == origin.reserved
    && (forall id :: id in server.live ==> id in origin.live || id in ids)
    && (forall id :: id in origin.live ==> id in server.live && server.live[id] == origin.live[id])
    && (forall id :: id in ids ==> !Known(origin, id))
    && (forall id :: id in ids ==> id in server.live && server.live[id] == Stored(id, body))
  }

  lemma CopyAdded(origin: Server, server: Server, body: Event, ids: set<string>, id: string)
    requires CopiesAdded(origin, server, body, ids) && !Known(server, id)
    ensures CopiesAdded(origin, server.(live := server.live[id := Stored(id, body)]), body, ids + {id})
    ensures id !in ids
  {
    assert !Known(origin, id);
  }

  lemma AttemptCopies(net: Network, world: World, body: Event, origin: Server, ids: set<string>)
    returns (more: set<string>)
    requires IdOf(body).None? && CopiesAdded(origin, world.server, body, ids)
    ensures var (after, reply) := Attempt(net, world, Insert(body));
            && CopiesAdded(origin, after.server, body, more)
            && |ids| <= |more| <= |ids| + 1
            && (StatusOf(reply) == Some(200) ==> |more| == |ids| + 1)
            && StatusOf(reply) != Some(409)
  {
    more := ids;
    var fate := net(world.clock);
    var (after, reply) := Attempt(net, world, Insert(body));
    if !fate.TurnedDown? && !Known(world.server, fate.newId) && (fate.Honest? || fate.carriedOut) {
      CopyAdded(origin, world.server, body, ids, fate.newId);
      more := ids + {fate.newId};
    }
  }

  lemma {:induction false} RunCopies(net: Network, world: World, body: Event, origin: Server, ids: set<string>,
                                     attempts: nat)
    returns (more: set<string>)
    requires attempts >= 1 && IdOf(body).None? && CopiesAdded(origin, world.server, body, ids)
    ensures var (after, reply) := Executed(net, world, Insert(body), attempts);
            && CopiesAdded(origin, after.server, body, more)
            && |ids| <= |more| <= |ids| + attempts
            && (StatusOf(reply) == Some(200) ==> |more| > |ids|)
            && StatusOf(reply) != Some(409)
    decreases attempts
  {
    var (next, reply) := Attempt(net, world, Insert(body));
    more := AttemptCopies(net, world, body, origin, ids);
    if Retries(reply) && attempts > 1 {
      more := RunCopies(net, next, body, origin, more, attempts - 1);
    }
  }

  /** Insert without an id: between one copy and one per attempt, each under an id not in use before;
      none possibly, if the row fails. */
  lemma InsertWithoutId(link: Link, world: World, body: Event)
    requires Usable(link) && IdOf(body).None?
    ensures var (after, result) := InsertedRow(link, world, body);
            exists ids: set<string> ::
              && CopiesAdded(world.server, after.server, body, ids)
              && (if result.Success? then 1 else 0) <= |ids| <= link.attempts
  {
    var ids := RunCopies(link.net, world, body, world.server, {}, link.attempts);
  }

  /** From this time on the server would give ids that are new, and each once. */
  ghost predicate IssuesNewIds(net: Network, clock: nat, server: Server) {
    && (forall time :: clock <= time && !net(time).TurnedDown? ==> !Known(server, net(time).newId))
    && (forall a, b :: clock <= a < b && !net(a).TurnedDown? && !net(b).TurnedDown? ==> net(a).newId != net(b).newId)
  }

  lemma {:induction false} PostWithoutIdSettles(net: Network, world: World, body: Event, attempts: nat)
    requires attempts >= 1 && IdOf(body).None? && IssuesNewIds(net, world.clock, world.server)
    ensures var (after, reply) := Executed(net, world, Insert(body), attempts);
            StatusOf(reply) == Some(200) <==> SettlesHonestly(net, world.clock, attempts)
    decreases attempts
  {
    var (next, reply) := Attempt(net, world, Insert(body));
    RetriesOverloads(net, world, Insert(body));
    if Retries(reply) && attempts > 1 {
      PostWithoutIdSettles(net, next, body, attempts - 1);
    } else {
      assert attempts == 1 ==> !SettlesHonestly(net, world.clock + 1, attempts - 1);
    }
  }

  /** An INSERT row without an id succeeds if and only if its POST settles honestly, on a server that gives
      new ids. */
  lemma InsertWithoutIdOutcome(link: Link, world: World, body: Event)
    requires Usable(link) && IdOf(body).None? && IssuesNewIds(link.net, world.clock, world.server)
    ensures InsertedRow(link, world, body).1.Success? <==> SettlesHonestly(link.net, world.clock, link.attempts)
  {
    PostWithoutIdSettles(link.net, world, body, link.attempts);
  }

  /** The server with one event replaced by what the SET list makes of it. */
  function Revised(p: Platform, server: Server, id: string, sets: seq<Cell>): Server
    requires id in server.live
  {
    server.(live := server.live[id := Updated(p, server.live[id], sets)])
  }

  lemma PutRevises(p: Platform, server: Server, id: string, sets: seq<Cell>)
    requires WellKept(server) && id in server.live && id !in server.reserved
    ensures Put(server, id, Updated(p, server.live[id], sets)) == Revised(p, server, id, sets)
    ensures Stored(id, Updated(p, server.live[id], sets)) == Updated(p, server.live[id], sets)
  {
    var event := server.live[id];
    var updated := Updated(p, event, sets);
    KeepsId(p, event, sets, EffectiveAllDay(ExistingAllDay(event), sets));
    assert Lookup(updated, IdKey) == Some(Str(id));
    assert Stored(id, updated) == updated;
    assert server.reserved - {id} == server.reserved;
  }

  /** Ids are stored consistently, and none is both live and deleted. */
  ghost predicate Consistent(server: Server) {
    WellKept(server) && server.live.Keys !! server.reserved
  }

  /** UPDATE of a row: returning normally, exactly that event has become what the SET list makes of
      the stored one; failing, that or nothing; and nothing at all if it set a read-only column. */
  lemma UpdateReadModifyWrite(p: Platform, link: Link, world: World, id: string, sets: seq<Cell>, returning: bool)
    requires Usable(link) && Consistent(world.server)
    ensures var (after, result) := UpdatedRow(p, link, world, id, sets, returning);
            && (result.Success? ==> id in world.server.live && after.server == Revised(p, world.server, id, sets)
                                    && result.value == Updated(p, world.server.live[id], sets))
            && (result.Failure? ==> after.server == world.server
                                    || (id in world.server.live && after.server == Revised(p, world.server, id, sets)))
            && (!returning && FirstReadOnly(sets).Some? ==> result.Failure? && after.server == world.server)
  {
    GetChangesNothing(link.net, world, id, link.attempts);
    var (first, got) := Fetched(link, world, Get(id));
    if got.Success? {
      PutRevises(p, world.server, id, sets);
      PutOnce(link.net, first, world.server, id, Updated(p, got.value, sets), link.attempts);
    }
  }

  predicate AllWritable(sets: seq<Cell>) {
    forall i :: 0 <= i < |sets| ==> Writable(sets[i].column, true)
  }

  /** The cell at this place is the first of the list that UPDATE cannot write. */
  ghost predicate ReadOnlyAt(sets: seq<Cell>, i: int) {
    0 <= i < |sets| && !Writable(sets[i].column, true) && forall j :: 0 <= j < i ==> Writable(sets[j].column, true)
  }

  lemma {:induction false} FirstReadOnlyExactly(sets: seq<Cell>)
    ensures FirstReadOnly(sets).None? <==> AllWritable(sets)
    ensures forall i :: ReadOnlyAt(sets, i) ==> FirstReadOnly(sets) == Some(sets[i].column)
  {
    if sets == [] {
    } else {
      FirstReadOnlyExactly(sets[1..]);
      assert forall i :: 1 <= i < |sets| ==> sets[i] == sets[1..][i - 1];
      assert AllWritable(sets) <==> Writable(sets[0].column, true) && AllWritable(sets[1..]);
      forall i | ReadOnlyAt(sets, i) ensures FirstReadOnly(sets) == Some(sets[i].column) {
        if i > 0 {
          assert ReadOnlyAt(sets[1..], i - 1);
        }
      }
    }
  }

  /** An UPDATE row succeeds if and only if the event is there, the list holds no read-only column or is
      RETURNING's, and both the GET and the PUT settle honestly. Otherwise a first read-only column, once
      the event is fetched, is the error. */
  lemma UpdateOutcome(p: Platform, link: Link, world: World, id: string, sets: seq<Cell>, returning: bool)
    requires Usable(link)
    ensures var (after, result) := UpdatedRow(p, link, world, id, sets, returning);
            var first := Fetched(link, world, Get(id)).0;
            var fetched := id in world.server.live && SettlesHonestly(link.net, world.clock, link.attempts);
            && (result.Success? <==>
                fetched && (returning || AllWritable(sets)) && SettlesHonestly(link.net, first.clock, link.attempts))
            && (fetched && !returning ==>
                  forall i :: ReadOnlyAt(sets, i) ==> result == Failure(ReadOnlyColumn(sets[i].column)))
  {
    GetChangesNothing(link.net, world, id, link.attempts);
    GetSucceeds(link.net, world, id, link.attempts);
    FirstReadOnlyExactly(sets);
    var (first, got) := Fetched(link, world, Get(id));
    if got.Success? {
      PutSucceeds(link.net, first, id, Updated(p, got.value, sets), link.attempts);
    }
  }

  /** DELETE of a row: returning normally, exactly that event is gone (and was what RETURNING reports);
      failing, that or nothing. */
  lemma DeleteRemoves(link: Link, world: World, id: string, returning: bool)
    requires Usable(link)
    ensures var (after, result) := DeletedRow(link, world, id, returning);
            && (result.Success? ==> id in world.server.live && after.server == Removed(world.server, id)
                                    && (returning ==> result.value == world.server.live[id]))
            && (result.Failure? ==> after.server == world.server
                                    || (id in world.server.live && after.server == Removed(world.server, id)))
  {
    GetChangesNothing(link.net, world, id, link.attempts);
    DeleteOnce(link.net, if returning then Fetched(link, world, Get(id)).0 else world, world.server, id, link.attempts);
  }

  /** The first of the attempts allowed that does not merely come back retryable with nothing done. */
  function Decisive(net: Network, clock: nat, attempts: nat): Option<Fate>
    decreases attempts
  {
    if attempts == 0 then None
    else if net(clock).Garbled? && !net(clock).carriedOut then Decisive(net, clock + 1, attempts - 1)
    else Some(net(clock))
  }

  /** Does an attempt of this fate reach the server? */
  predicate TakesEffect(fate: Fate) {
    fate.Honest? || ((fate.Garbled? || fate.Lost?) && fate.carriedOut)
  }

  predicate Deleted(reply: Reply) {
    StatusOf(reply) == Some(200) || StatusOf(reply) == Some(204)
  }

  lemma {:induction false} DeleteGone(net: Network, world: World, id: string, attempts: nat)
    requires attempts >= 1 && id !in world.server.live
    ensures var (after, reply) := Executed(net, world, Delete(id), attempts);
            after.server == world.server && !Deleted(reply)
    decreases attempts
  {
    var (next, reply) := Attempt(net, world, Delete(id));
    if Retries(reply) && attempts > 1 {
      DeleteGone(net, next, id, attempts - 1);
    }
  }

  /** The decisive attempt settles a delete: it is answered as done exactly if that attempt is honest,
      and the event is gone exactly if that attempt takes effect. */
  lemma {:induction false} DeleteDecided(net: Network, world: World, id: string, attempts: nat)
    requires attempts >= 1 && id in world.server.live
    ensures var (after, reply) := Executed(net, world, Delete(id), attempts);
            var fate := Decisive(net, world.clock, attempts);
            && (Deleted(reply) <==> fate.Some? && fate.value.Honest?)
            && (id !in after.server.live <==> fate.Some? && TakesEffect(fate.value))
    decreases attempts
  {
    var (next, reply) := Attempt(net, world, Delete(id));
    if Retries(reply) && attempts > 1 {
      if id in next.server.live {
        DeleteDecided(net, next, id, attempts - 1);
      } else {
        DeleteGone(net, next, id, attempts - 1);
      }
    } else {
      assert attempts == 1 ==> Decisive(net, world.clock + 1, attempts - 1) == None;
    }
  }

  /** What decides a DELETE row: nothing, if RETURNING cannot fetch the event first. */
  function DeleteFate(link: Link, world: World, id: string, returning: bool): Option<Fate>
    requires Usable(link)
  {
    var (first, got) := if returning then Fetched(link, world, Get(id)) else (world, Success(map[]));
    if got.Failure? then None else Decisive(link.net, first.clock, link.attempts)
  }

  /** DELETE of a row, exactly: it succeeds if and only if the event is there and the decisive attempt is
      honest; the event is gone if and only if it was not there or that attempt took effect. */
  lemma DeleteOutcome(link: Link, world: World, id: string, returning: bool)
    requires Usable(link)
    ensures var (after, result) := DeletedRow(link, world, id, returning);
            var fate := DeleteFate(link, world, id, returning);
            && (result.Success? <==> id in world.server.live && fate.Some? && fate.value.Honest?)
            && (id !in after.server.live <==> id !in world.server.live || (fate.Some? && TakesEffect(fate.value)))
  {
    GetChangesNothing(link.net, world, id, link.attempts);
    var (first, got) := if returning then Fetched(link, world, Get(id)) else (world, Success(map[]));
    if id in world.server.live {
      DeleteDecided(link.net, first, id, link.attempts);
    } else {
      DeleteGone(link.net, first, id, link.attempts);
    }
  }

  /** So a DELETE can fail although it has removed the event, even with a single attempt: it is carried
      out and its answer is lost. */
  lemma DeleteCanFailThoughDone(world: World, id: string, attempts: nat)
    requires id in world.server.live && attempts >= 1
    ensures exists net: Network ::
              var (after, result) := DeletedRow(Link(net, attempts), world, id, false);
              result.Failure? && id !in after.server.live
  {
    var net: Network := clock => Lost(true, "");
    DeleteOutcome(Link(net, attempts), world, id, false);
    assert Decisive(net, world.clock, attempts) == Some(Lost(true, ""));
    var (after, result) := DeletedRow(Link(net, attempts), world, id, false);
    assert result.Failure? && id !in after.server.live;
  }

  lemma {:induction false} TruthfulDecides(net: Network, clock: nat, attempts: nat)
    requires SettlesHonestly(net, clock, attempts) && forall time :: net(time).Garbled? ==> !net(time).carriedOut
    ensures Decisive(net, clock, attempts).Some? && Decisive(net, clock, attempts).value.Honest?
    decreases attempts
  {
    if net(clock).Garbled? {
      TruthfulDecides(net, clock + 1, attempts - 1);
    }
  }

  /** Over a truthful network a DELETE row succeeds exactly if the event is there. */
  lemma TruthfulDelete(link: Link, world: World, id: string, returning: bool)
    requires Usable(link) && Truthful(link.net, link.attempts)
    ensures DeletedRow(link, world, id, returning).1.Success? <==> id in world.server.live
  {
    DeleteOutcome(link, world, id, returning);
    GetSucceeds(link.net, world, id, link.attempts);
    var first := if returning then Fetched(link, world, Get(id)).0 else world;
    assert SettlesHonestly(link.net, world.clock, link.attempts);
    assert SettlesHonestly(link.net, first.clock, link.attempts);
    TruthfulDecides(link.net, first.clock, link.attempts);
  }
}
