/** The one-time construction of a statement's API client under a lock (GetClient in
    src/storage/calendar_transaction.cpp), as threads interleave its steps; and the same steps without
    the lock. */
module ClientLock {
  import opened Wrappers

  type Thread = nat

  /** A client refers to the http and auth objects it was built from; objects are numbered. */
  datatype Client = Client(id: nat, http: nat, auth: nat)

  /** Where a thread is in GetClient. Every place but the first and the last is inside the guard. */
  datatype Place =
    | Outside
    | Entered
    | SawNoClient
    | HasHttp
    | HasAuth
    | Returned(client: Client)

  datatype State = State(
    lock: Option<Thread>,
    http: Option<nat>,
    auth: Option<nat>,
    client: Option<Client>,
    places: map<Thread, Place>,
    nextObject: nat)

  const INITIAL := State(None, None, None, None, map[], 0)

  function PlaceOf(s: State, t: Thread): Place {
    if t in s.places then s.places[t] else Outside
  }

  predicate Inside(place: Place) {
    !place.Outside? && !place.Returned?
  }

  datatype AuthOutcome = AuthMade | NoSecret | AuthThrew

  /** One step of one thread; construction steps may throw, which leaves the guarded block. */
  datatype Action =
    | Enter
    | Check
    | MakeHttp(ok: bool)
    | MakeAuth(outcome: AuthOutcome)
    | MakeClient(ok: bool)
    | CallAgain

  function Moved(s: State, t: Thread, place: Place): State {
    s.(places := s.places[t := place])
  }

  /** Leaving the guarded block releases the lock. */
  function Left(s: State, t: Thread, place: Place): State {
    Moved(s, t, place).(lock := if s.lock == Some(t) then None else s.lock)
  }

  /** The state after a step, None if the thread cannot take it. Without the lock, Enter never waits. */
  function Stepped(locked: bool, s: State, t: Thread, action: Action): Option<State> {
    match (PlaceOf(s, t), action)
    case (Outside, Enter) =>
      if !locked then Some(Moved(s, t, Entered))
      else if s.lock.None? then Some(Moved(s, t, Entered).(lock := Some(t)))
      else None
    case (Entered, Check) =>
      if s.client.Some? then Some(Left(s, t, Returned(s.client.value))) else Some(Moved(s, t, SawNoClient))
    case (SawNoClient, MakeHttp(ok)) =>
      if ok then Some(Moved(s, t, HasHttp).(http := Some(s.nextObject), nextObject := s.nextObject + 1))
      else Some(Left(s, t, Outside))
    case (HasHttp, MakeAuth(outcome)) =>
      if outcome.AuthMade? then
        Some(Moved(s, t, HasAuth).(auth := Some(s.nextObject), nextObject := s.nextObject + 1))
      else if outcome.NoSecret? then Some(Left(s, t, Outside).(auth := None))
      else Some(Left(s, t, Outside))
    case (HasAuth, MakeClient(ok)) =>
      if s.http.None? || s.auth.None? then None
      else if ok then
        var client := Client(s.nextObject, s.http.value, s.auth.value);
        Some(Left(s, t, Returned(client)).(client := Some(client), nextObject := s.nextObject + 1))
      else Some(Left(s, t, Outside))
    case (Returned(_), CallAgain) => Some(Moved(s, t, Outside))
    case _ => None
  }

  type Schedule = seq<(Thread, Action)>

  /** The state after a schedule of steps, None if some step of it cannot be taken. */
  function Ran(locked: bool, s: State, schedule: Schedule): Option<State>
    decreases schedule
  {
    if schedule == [] then Some(s)
    else
      var next := Stepped(locked, s, schedule[0].0, schedule[0].1);
      if next.None? then None else Ran(locked, next.value, schedule[1..])
  }

  // ---------- with the lock ----------

  ghost predicate Guarded(s: State) {
    && (forall t: Thread :: Inside(PlaceOf(s, t)) <==> s.lock == Some(t))
    && (forall t: Thread :: PlaceOf(s, t) in {SawNoClient, HasHttp, HasAuth} ==> s.client.None?)
    && (forall t: Thread :: PlaceOf(s, t) in {HasHttp, HasAuth} ==> s.http.Some?)
    && (forall t: Thread :: PlaceOf(s, t) == HasAuth ==> s.auth.Some?)
    && (s.client.Some? ==> s.http == Some(s.client.value.http) && s.auth == Some(s.client.value.auth))
    && (forall t: Thread :: PlaceOf(s, t).Returned? ==> s.client == Some(PlaceOf(s, t).client))
  }

  /** Once published, the client and the objects it refers to stay. */
  predicate Keeps(before: State, after: State) {
    before.client.Some? ==> after.client == before.client && after.http == before.http && after.auth == before.auth
  }

  lemma StepKeepsGuarded(s: State, t: Thread, action: Action)
    requires Guarded(s) && Stepped(true, s, t, action).Some?
    ensures Guarded(Stepped(true, s, t, action).value)
    ensures Keeps(s, Stepped(true, s, t, action).value)
  {
    var after := Stepped(true, s, t, action).value;
    forall other | other != t ensures PlaceOf(after, other) == PlaceOf(s, other) {
    }
  }

  lemma {:induction false} RunKeepsGuarded(s: State, schedule: Schedule)
    requires Guarded(s) && Ran(true, s, schedule).Some?
    ensures Guarded(Ran(true, s, schedule).value) && Keeps(s, Ran(true, s, schedule).value)
    decreases schedule
  {
    if schedule == [] {
    } else {
      StepKeepsGuarded(s, schedule[0].0, schedule[0].1);
      RunKeepsGuarded(Stepped(true, s, schedule[0].0, schedule[0].1).value, schedule[1..]);
    }
  }

  /** No thread loses its client: in every interleaving of any number of threads, with any constructions
      failing and being retried, a client one thread has been given stays the published one from then
      on, is the one every later return gives, and the objects it refers to are never replaced. */
  lemma NoThreadLosesItsClient(earlier: Schedule, later: Schedule, t: Thread, u: Thread)
    requires Ran(true, INITIAL, earlier).Some?
    requires Ran(true, Ran(true, INITIAL, earlier).value, later).Some?
    requires PlaceOf(Ran(true, INITIAL, earlier).value, t).Returned?
    ensures var client := PlaceOf(Ran(true, INITIAL, earlier).value, t).client;
            var after := Ran(true, Ran(true, INITIAL, earlier).value, later).value;
            && after.client == Some(client) && after.http == Some(client.http) && after.auth == Some(client.auth)
            && (PlaceOf(after, u).Returned? ==> PlaceOf(after, u).client == client)
  {
    RunKeepsGuarded(INITIAL, earlier);
    RunKeepsGuarded(Ran(true, INITIAL, earlier).value, later);
  }

  /** The action the holder of the lock can take next, and succeed with. */
  function NextAction(place: Place): Action {
    match place
    case Outside => Enter
    case Entered => Check
    case SawNoClient => MakeHttp(true)
    case HasHttp => MakeAuth(AuthMade)
    case HasAuth => MakeClient(true)
    case Returned(_) => CallAgain
  }

  /** The lock is never leaked: after any run, failures included, either it is free and every thread
      outside may enter, or the thread that holds it can take its next step. */
  lemma LockIsNeverStuck(schedule: Schedule, t: Thread)
    requires Ran(true, INITIAL, schedule).Some?
    ensures var s := Ran(true, INITIAL, schedule).value;
            var mover := if s.lock.Some? then s.lock.value else t;
            Stepped(true, s, mover, NextAction(PlaceOf(s, mover))).Some?
  {
    RunKeepsGuarded(INITIAL, schedule);
    var s := Ran(true, INITIAL, schedule).value;
    if s.lock.Some? {
      assert Inside(PlaceOf(s, s.lock.value));
    } else {
      assert !Inside(PlaceOf(s, t));
    }
  }

  // ---------- without the lock ----------

  lemma RanFirst(locked: bool, s: State, t: Thread, action: Action, rest: Schedule)
    requires Stepped(locked, s, t, action).Some?
    ensures Ran(locked, s, [(t, action)] + rest) == Ran(locked, Stepped(locked, s, t, action).value, rest)
  {
    assert ([(t, action)] + rest)[1..] == rest;
  }

  /** Both threads have found no client. */
  const BOTH_SAW_NONE := State(None, None, None, None, map[0 := SawNoClient, 1 := SawNoClient], 0)

  lemma RaceBegins(rest: Schedule)
    ensures Ran(false, INITIAL, [(0, Enter)] + ([(1, Enter)] + ([(0, Check)] + ([(1, Check)] + rest))))
         == Ran(false, BOTH_SAW_NONE, rest)
  {
    var s1 := Moved(INITIAL, 0, Entered);
    var s2 := Moved(s1, 1, Entered);
    var s3 := Moved(s2, 0, SawNoClient);
    RanFirst(false, INITIAL, 0, Enter, [(1, Enter)] + ([(0, Check)] + ([(1, Check)] + rest)));
    RanFirst(false, s1, 1, Enter, [(0, Check)] + ([(1, Check)] + rest));
    RanFirst(false, s2, 0, Check, [(1, Check)] + rest);
    RanFirst(false, s3, 1, Check, rest);
    assert Moved(s3, 1, SawNoClient) == BOTH_SAW_NONE;
  }

  lemma RaceEnds() returns (rest: Schedule)
    ensures var after := Ran(false, BOTH_SAW_NONE, rest);
            && after.Some?
            && PlaceOf(after.value, 0).Returned? && after.value.http != Some(PlaceOf(after.value, 0).client.http)
  {
    var s1 := Stepped(false, BOTH_SAW_NONE, 0, MakeHttp(true)).value;
    var s2 := Stepped(false, s1, 0, MakeAuth(AuthMade)).value;
    var s3 := Stepped(false, s2, 0, MakeClient(true)).value;
    var s4 := Stepped(false, s3, 1, MakeHttp(true)).value;
    var r4: Schedule := [(1, MakeHttp(true))] + [];
    var r3: Schedule := [(0, MakeClient(true))] + r4;
    var r2: Schedule := [(0, MakeAuth(AuthMade))] + r3;
    rest := [(0, MakeHttp(true))] + r2;
    RanFirst(false, BOTH_SAW_NONE, 0, MakeHttp(true), r2);
    RanFirst(false, s1, 0, MakeAuth(AuthMade), r3);
    RanFirst(false, s2, 0, MakeClient(true), r4);
    RanFirst(false, s3, 1, MakeHttp(true), []);
    assert Ran(false, s4, []) == Some(s4);
  }

  /** Without the lock this goes wrong: in some interleaving a thread is given a client, and then another
      replaces the http object that client refers to. */
  lemma RaceWithoutTheLock()
    ensures exists schedule: Schedule, t: Thread ::
              && Ran(false, INITIAL, schedule).Some?
              && var s := Ran(false, INITIAL, schedule).value;
              PlaceOf(s, t).Returned? && s.http != Some(PlaceOf(s, t).client.http)
  {
    var rest := RaceEnds();
    RaceBegins(rest);
    var schedule: Schedule := [(0, Enter)] + ([(1, Enter)] + ([(0, Check)] + ([(1, Check)] + rest)));
    assert Ran(false, INITIAL, schedule) == Ran(false, BOTH_SAW_NONE, rest);
  }

  // ---------- the call, as one thread runs it ----------

  class CalendarTransaction {
    var clientLock: Option<Thread>
    var http: Option<nat>
    var auth: Option<nat>
    var client: Option<Client>
    var nextObject: nat
    ghost var places: map<Thread, Place>

    ghost function Snapshot(): State
      reads this
    {
      State(clientLock, http, auth, client, places, nextObject)
    }

    constructor ()
      ensures Snapshot() == INITIAL
    {
      clientLock, http, auth, client, nextObject, places := None, None, None, None, 0, map[];
    }

    method Acquire(t: Thread)
      requires clientLock.None? && PlaceOf(Snapshot(), t) == Outside
      modifies this`clientLock, this`places
      ensures Stepped(true, old(Snapshot()), t, Enter) == Some(Snapshot())
      ensures PlaceOf(Snapshot(), t) == Entered && clientLock == Some(t)
    {
      clientLock, places := Some(t), places[t := Entered];
    }

    method CheckClient(t: Thread) returns (found: bool)
      requires clientLock == Some(t) && PlaceOf(Snapshot(), t) == Entered
      modifies this`clientLock, this`places
      ensures Stepped(true, old(Snapshot()), t, Check) == Some(Snapshot())
      ensures found == client.Some?
      ensures if found then clientLock.None? && PlaceOf(Snapshot(), t) == Returned(client.value)
              else clientLock == Some(t) && PlaceOf(Snapshot(), t) == SawNoClient
    {
      found := client.Some?;
      if found {
        clientLock, places := None, places[t := Returned(client.value)];
      } else {
        places := places[t := SawNoClient];
      }
    }

    method CreateHttpClient(t: Thread, ok: bool)
      requires clientLock == Some(t) && PlaceOf(Snapshot(), t) == SawNoClient
      modifies this`clientLock, this`places, this`http, this`nextObject
      ensures Stepped(true, old(Snapshot()), t, MakeHttp(ok)) == Some(Snapshot())
      ensures if ok then clientLock == Some(t) && PlaceOf(Snapshot(), t) == HasHttp && http == Some(old(nextObject))
              else clientLock.None?
    {
      if ok {
        http, nextObject, places := Some(nextObject), nextObject + 1, places[t := HasHttp];
      } else {
        clientLock, places := None, places[t := Outside];
      }
    }

    method CreateAuth(t: Thread, outcome: AuthOutcome)
      requires clientLock == Some(t) && PlaceOf(Snapshot(), t) == HasHttp
      modifies this`clientLock, this`places, this`auth, this`nextObject
      ensures Stepped(true, old(Snapshot()), t, MakeAuth(outcome)) == Some(Snapshot())
      ensures if outcome.AuthMade? then clientLock == Some(t) && PlaceOf(Snapshot(), t) == HasAuth && auth.Some?
              else clientLock.None?
      ensures outcome.NoSecret? ==> auth.None?
    {
      if outcome.AuthMade? {
        auth, nextObject, places := Some(nextObject), nextObject + 1, places[t := HasAuth];
      } else {
        if outcome.NoSecret? {
          auth := None;
        }
        clientLock, places := None, places[t := Outside];
      }
    }

    method BuildClient(t: Thread, ok: bool)
      requires clientLock == Some(t) && PlaceOf(Snapshot(), t) == HasAuth && http.Some? && auth.Some?
      modifies this`clientLock, this`places, this`client, this`nextObject
      ensures Stepped(true, old(Snapshot()), t, MakeClient(ok)) == Some(Snapshot())
      ensures clientLock.None?
      ensures if ok then client.Some? && client.value.http == http.value && client.value.auth == auth.value
                         && PlaceOf(Snapshot(), t) == Returned(client.value)
              else client == old(client)
    {
      if ok {
        client, nextObject := Some(Client(nextObject, http.value, auth.value)), nextObject + 1;
        clientLock, places := None, places[t := Returned(client.value)];
      } else {
        clientLock, places := None, places[t := Outside];
      }
    }

    /** One call that finds the lock free. It returns the published client, building it if there is
        none, or throws (None) without publishing one; it takes exactly the steps listed in `taken`,
        and in either case the lock is free again. */
    method GetClient(t: Thread, httpOk: bool, outcome: AuthOutcome, clientOk: bool)
      returns (result: Option<Client>, ghost taken: Schedule)
      requires clientLock.None? && PlaceOf(Snapshot(), t) == Outside
      modifies this
      ensures Ran(true, old(Snapshot()), taken) == Some(Snapshot())
      ensures clientLock.None? && client == result
      ensures old(client).Some? ==> result == old(client) && http == old(http) && auth == old(auth)
      ensures result.None? <==> old(client).None? && !(httpOk && outcome.AuthMade? && clientOk)
      ensures result.Some? ==> PlaceOf(Snapshot(), t) == Returned(result.value)
      ensures old(client).None? && httpOk && outcome.NoSecret? ==> auth.None?
      ensures old(client).None? && httpOk ==> http == Some(old(nextObject))
      ensures old(client).None? && result.Some? ==> http == Some(result.value.http) && auth == Some(result.value.auth)
    {
      ghost var start := Snapshot();
      taken := [];
      RanLast(true, start, taken, t, Enter);
      Acquire(t);
      taken := taken + [(t, Enter)];
      RanLast(true, start, taken, t, Check);
      var found := CheckClient(t);
      taken := taken + [(t, Check)];
      if found {
        return client, taken;
      }
      RanLast(true, start, taken, t, MakeHttp(httpOk));
      CreateHttpClient(t, httpOk);
      taken := taken + [(t, MakeHttp(httpOk))];
      if !httpOk {
        return None, taken;
      }
      RanLast(true, start, taken, t, MakeAuth(outcome));
      CreateAuth(t, outcome);
      taken := taken + [(t, MakeAuth(outcome))];
      if !outcome.AuthMade? {
        return None, taken;
      }
      RanLast(true, start, taken, t, MakeClient(clientOk));
      BuildClient(t, clientOk);
      taken := taken + [(t, MakeClient(clientOk))];
      result := client;
    }
  }

  lemma {:induction false} RanLast(locked: bool, s: State, schedule: Schedule, t: Thread, action: Action)
    requires Ran(locked, s, schedule).Some?
    ensures Ran(locked, s, schedule + [(t, action)]) == Stepped(locked, Ran(locked, s, schedule).value, t, action)
    decreases schedule
  {
    var all := schedule + [(t, action)];
    if schedule == [] {
      assert all[1..] == [];
    } else {
      assert all[1..] == schedule[1..] + [(t, action)];
      RanLast(locked, Stepped(locked, s, schedule[0].0, schedule[0].1).value, schedule[1..], t, action);
    }
  }
}
