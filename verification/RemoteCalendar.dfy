/** A calendar server reached over an unreliable network, and the client that retries against it
    (src/calendar/transport/retrying_http_client.cpp, src/calendar/resources/events.cpp). */
module RemoteCalendar {
  import opened Wrappers
  import opened EventModel

  // ---------- the server ----------

  /** The events of one calendar by id, and the ids of deleted events, which stay reserved. */
  datatype Server = Server(live: map<string, Event>, reserved: set<string>)

  datatype Request =
    | Insert(body: Event)
    | Get(id: string)
    | Update(id: string, body: Event)
    | Delete(id: string)

  /** A status, the event of a 200 reply, and the text of any other. */
  datatype Response = Response(status: int, event: Event, message: string)

  function IdOf(body: Event): Option<string> {
    if IdKey in body && body[IdKey].Str? then Some(body[IdKey].s) else None
  }

  /** Every stored event carries the id it is stored under. */
  ghost predicate WellKept(server: Server) {
    forall id :: id in server.live ==> IdOf(server.live[id]) == Some(id)
  }

  function Ok(event: Event): Response {
    Response(200, event, "")
  }

  function Problem(status: int): Response {
    Response(status, map[], "")
  }

  /** What an honest server does with a request: an insert whose id is taken or reserved is a
      conflict, an insert without an id gets a new one, an update overwrites or resurrects. */
  function Handled(server: Server, request: Request, newId: string): (Server, Response) {
    match request
    case Insert(body) =>
      var id := if IdOf(body).Some? then IdOf(body).value else newId;
      var stored := body[IdKey := Str(id)];
      if id in server.live || id in server.reserved then
        (server, Problem(if IdOf(body).Some? then 409 else 400))
      else (server.(live := server.live[id := stored]), Ok(stored))
    case Get(id) =>
      (server, if id in server.live then Ok(server.live[id]) else Problem(404))
    case Update(id, body) =>
      var stored := body[IdKey := Str(id)];
      if id in server.live || id in server.reserved then
        (Server(server.live[id := stored], server.reserved - {id}), Ok(stored))
      else (server, Problem(404))
    case Delete(id) =>
      if id in server.live then (Server(server.live - {id}, server.reserved + {id}), Problem(204))
      else (server, Problem(410))
  }

  // ---------- the network ----------

  /** What becomes of one attempt: served honestly; turned down without effect; carried out or not but
      answered with a retryable error; carried out or not with no answer at all. */
  datatype Fate =
    | Honest(newId: string)
    | TurnedDown(reply: Response)
    | Garbled(carriedOut: bool, newId: string, reply: Response)
    | Lost(carriedOut: bool, newId: string)

  datatype Reply = Answered(response: Response) | NoAnswer

  /** The fate of every attempt there will ever be; each theorem holds for every such choice. */
  type Network = nat -> Fate

  datatype World = World(server: Server, clock: nat)

  /** Does the word stand somewhere in the text? */
  predicate Contains(text: string, word: string) {
    word <= text || (text != [] && Contains(text[1..], word))
  }

  lemma {:induction false} ContainedBehind(before: string, word: string, after: string)
    ensures Contains(before + word + after, word)
  {
    var text := before + word + after;
    if before == [] {
      assert text == word + after;
    } else {
      assert text[1..] == before[1..] + word + after;
      ContainedBehind(before[1..], word, after);
    }
  }

  lemma {:induction false} ContainedSplit(text: string, word: string) returns (before: string, after: string)
    requires Contains(text, word)
    ensures text == before + word + after
  {
    if word <= text {
      before, after := [], text[|word|..];
    } else {
      before, after := ContainedSplit(text[1..], word);
      before := [text[0]] + before;
      assert text == [text[0]] + text[1..];
    }
  }

  /** A text contains a word exactly if it is that word with something before and behind it. */
  lemma ContainsExactly(text: string, word: string)
    ensures Contains(text, word) <==> exists before: string, after: string :: text == before + word + after
  {
    if Contains(text, word) {
      var before, after := ContainedSplit(text, word);
    }
    if before: string, after: string :| text == before + word + after {
      ContainedBehind(before, word, after);
    }
  }

  /** What a server or the way to it answers when it is overloaded or fails: too many requests, an error
      of its own, or a forbidden request whose text names a rate limit. */
  predicate IsOverload(response: Response) {
    if response.status == 403
    then Contains(response.message, "rateLimitExceeded") || Contains(response.message, "userRateLimitExceeded")
    else response.status == 429 || 500 <= response.status < 600
  }

  predicate IsRefusal(response: Response) {
    !IsOverload(response) && response.status != 200 && response.status != 204 && response.status != 409
  }

  function Attempt(net: Network, world: World, request: Request): (World, Reply) {
    var server, clock := world.server, world.clock + 1;
    match net(world.clock)
    case Honest(newId) =>
      var (after, response) := Handled(server, request, newId);
      (World(after, clock), Answered(response))
    case TurnedDown(reply) =>
      (World(server, clock), Answered(if IsRefusal(reply) then reply else Problem(400)))
    case Garbled(carriedOut, newId, reply) =>
      (World(if carriedOut then Handled(server, request, newId).0 else server, clock),
       Answered(if IsOverload(reply) then reply else Problem(503)))
    case Lost(carriedOut, newId) =>
      (World(if carriedOut then Handled(server, request, newId).0 else server, clock), NoAnswer)
  }

  // ---------- what the client retries ----------

  predicate IsRetryable(response: Response) {
    || response.status == 429
    || 500 <= response.status <= 599
    || (response.status == 403
        && (Contains(response.message, "rateLimitExceeded") || Contains(response.message, "userRateLimitExceeded")))
  }

  predicate Retries(reply: Reply) {
    reply.Answered? && IsRetryable(reply.response)
  }

  /** A request with up to `attempts` attempts: retried while the answer is retryable. */
  function Executed(net: Network, world: World, request: Request, attempts: nat): (World, Reply)
    requires attempts >= 1
    decreases attempts
  {
    var (after, reply) := Attempt(net, world, request);
    if Retries(reply) && attempts > 1 then Executed(net, after, request, attempts - 1) else (after, reply)
  }

  /** Which answers are retried, status by status: 429, 500 to 599, and 403 with a rate limit in its text
      are followed by another attempt; any other answer, and none, ends the request. */
  lemma RetryStatuses(net: Network, world: World, request: Request, attempts: nat)
    requires attempts > 1
    ensures var (next, reply) := Attempt(net, world, request);
            var all, again := Executed(net, world, request, attempts), Executed(net, next, request, attempts - 1);
            && (reply.NoAnswer? ==> all == (next, reply))
            && (reply.Answered? ==>
                  var status, text := reply.response.status, reply.response.message;
                  && (status == 429 || 500 <= status <= 599 ==> all == again)
                  && (status == 403 && Contains(text, "rateLimitExceeded") ==> all == again)
                  && (status == 403 && Contains(text, "userRateLimitExceeded") ==> all == again)
                  && (status < 429 && status != 403 ==> all == (next, reply))
                  && (429 < status < 500 || status > 599 ==> all == (next, reply))
                  && (status == 403 && !Contains(text, "rateLimitExceeded")
                      && !Contains(text, "userRateLimitExceeded") ==>
                        all == (next, reply)))
  {
  }

  /** The client retries exactly what may pass: the answers of an overloaded server, and no others. */
  lemma RetriesOverloads(net: Network, world: World, request: Request)
    ensures Retries(Attempt(net, world, request).1) <==> net(world.clock).Garbled?
  {
  }

  // ---------- when a request is answered in earnest ----------

  /** Of the attempts allowed, the first that is not garbled is honest. */
  predicate SettlesHonestly(net: Network, clock: nat, attempts: nat)
    decreases attempts
  {
    && attempts > 0
    && if net(clock).Garbled? then SettlesHonestly(net, clock + 1, attempts - 1) else net(clock).Honest?
  }

  /** Of the garbled attempts before that, one was carried out. */
  predicate CarriedOutBefore(net: Network, clock: nat, attempts: nat)
    decreases attempts
  {
    attempts > 0 && net(clock).Garbled? && (net(clock).carriedOut || CarriedOutBefore(net, clock + 1, attempts - 1))
  }

  /** However often a server is overloaded, it answers in earnest before the attempts run out. */
  ghost predicate Reliable(net: Network, attempts: nat) {
    forall clock :: SettlesHonestly(net, clock, attempts)
  }

  /** And what is answered as an overload has not been carried out. */
  ghost predicate Truthful(net: Network, attempts: nat) {
    Reliable(net, attempts) && forall clock :: net(clock).Garbled? ==> !net(clock).carriedOut
  }

  lemma HonestIsTruthful(net: Network, attempts: nat)
    requires attempts >= 1 && forall clock :: net(clock).Honest?
    ensures Truthful(net, attempts)
  {
    forall clock ensures SettlesHonestly(net, clock, attempts) {
      assert net(clock).Honest?;
    }
  }

  // ---------- the retry contract ----------

  function AfterAttempts(net: Network, world: World, request: Request, n: nat): World
    decreases n
  {
    if n == 0 then world else AfterAttempts(net, Attempt(net, world, request).0, request, n - 1)
  }

  function NthReply(net: Network, world: World, request: Request, n: nat): Reply {
    Attempt(net, AfterAttempts(net, world, request, n), request).1
  }

  lemma NthReplyStep(net: Network, world: World, request: Request, n: nat)
    ensures NthReply(net, world, request, n + 1) == NthReply(net, Attempt(net, world, request).0, request, n)
    ensures AfterAttempts(net, world, request, n + 1) == AfterAttempts(net, Attempt(net, world, request).0, request, n)
  {
  }

  /** The request was attempted this often, all but the last answered retryably, and ended so. */
  ghost predicate RanFor(net: Network, world: World, request: Request, calls: nat, after: World, reply: Reply) {
    && calls >= 1
    && (forall i :: 0 <= i < calls - 1 ==> Retries(NthReply(net, world, request, i)))
    && reply == NthReply(net, world, request, calls - 1)
    && after == AfterAttempts(net, world, request, calls)
  }

  lemma RanOneMore(net: Network, world: World, request: Request, calls: nat, after: World, reply: Reply)
    requires Retries(Attempt(net, world, request).1)
    requires RanFor(net, Attempt(net, world, request).0, request, calls, after, reply)
    ensures RanFor(net, world, request, calls + 1, after, reply)
  {
    forall i | 0 <= i < calls ensures Retries(NthReply(net, world, request, i)) {
      if i > 0 {
        NthReplyStep(net, world, request, i - 1);
      } else {
        assert AfterAttempts(net, world, request, 0) == world;
      }
    }
    NthReplyStep(net, world, request, calls - 1);
    NthReplyStep(net, world, request, calls);
  }

  /** The outcome is that of the first attempt not answered retryably, or of the last one allowed;
      every attempt before it was answered retryably, and none is made after it. */
  lemma {:induction false} RetryContract(net: Network, world: World, request: Request, attempts: nat)
    requires attempts >= 1
    ensures var (after, reply) := Executed(net, world, request, attempts);
            var calls := after.clock - world.clock;
            && 1 <= calls <= attempts
            && RanFor(net, world, request, calls, after, reply)
            && (Retries(reply) ==> calls == attempts)
    decreases attempts
  {
    var (next, first) := Attempt(net, world, request);
    var (after, reply) := Executed(net, world, request, attempts);
    if Retries(first) && attempts > 1 {
      RetryContract(net, next, request, attempts - 1);
      RanOneMore(net, world, request, after.clock - next.clock, after, reply);
    } else {
      assert AfterAttempts(net, world, request, 0) == world;
      assert AfterAttempts(net, world, request, 1) == AfterAttempts(net, next, request, 0);
    }
  }

  // ---------- backoff ----------

  function Pow2(n: nat): nat {
    if n == 0 then 1 else 2 * Pow2(n - 1)
  }

  const INT64_MAX: int := 0x7FFF_FFFF_FFFF_FFFF

  lemma {:induction false} Pow2Monotone(m: nat, n: nat)
    requires m <= n
    ensures 1 <= Pow2(m) <= Pow2(n)
    decreases n
  {
    if m < n {
      Pow2Monotone(m, n - 1);
    } else if n > 0 {
      Pow2Monotone(m - 1, n - 1);
    }
  }

  /** Neither the shifted one nor its product with the base delay leaves 64 signed bits. */
  predicate DelayFits(baseDelayMs: nat, attempt: nat) {
    Pow2(attempt) <= INT64_MAX && baseDelayMs * Pow2(attempt) <= INT64_MAX
  }

  lemma TimesMonotone(base: nat, a: nat, b: nat)
    requires a <= b
    ensures base * a <= base * b
  {
  }

  lemma SleepAdds(base: nat, attempt: nat)
    ensures base * (Pow2(attempt) - 1) + base * Pow2(attempt) == base * (Pow2(attempt + 1) - 1)
  {
    assert Pow2(attempt + 1) == 2 * Pow2(attempt);
  }

  lemma SleepBounded(base: nat, attempt: nat, last: nat)
    requires attempt <= last
    ensures base * (Pow2(attempt) - 1) <= base * (Pow2(last) - 1)
  {
    Pow2Monotone(attempt, last);
    TimesMonotone(base, Pow2(attempt) - 1, Pow2(last) - 1);
  }

  /** No delay a retry loop can compute overflows 64 bits exactly when the longest one does not. */
  lemma BackoffFitsInt64(maxAttempts: nat, baseDelayMs: nat)
    requires maxAttempts >= 2
    ensures (forall attempt: nat :: attempt + 1 < maxAttempts ==> DelayFits(baseDelayMs, attempt))
       <==> DelayFits(baseDelayMs, maxAttempts - 2)
  {
    if DelayFits(baseDelayMs, maxAttempts - 2) {
      forall attempt: nat | attempt + 1 < maxAttempts ensures DelayFits(baseDelayMs, attempt) {
        Pow2Monotone(attempt, maxAttempts - 2);
        TimesMonotone(baseDelayMs, Pow2(attempt), Pow2(maxAttempts - 2));
      }
    }
  }

  /** The delay before the attempt after this one, given a random number: full jitter, so anything up to
      base * 2^attempt can be drawn, and nothing more. */
  function Delay(baseDelayMs: nat, zeroSleep: bool, attempt: nat, random: nat): nat {
    if zeroSleep then 0 else random % (baseDelayMs * Pow2(attempt) + 1)
  }

  lemma SmallRemainder(random: nat, base: nat)
    ensures random % (base + 1) <= base && (random <= base ==> random % (base + 1) == random)
  {
  }

  lemma DelayIsJitter(baseDelayMs: nat, zeroSleep: bool, attempt: nat, random: nat)
    ensures Delay(baseDelayMs, zeroSleep, attempt, random) <= baseDelayMs * Pow2(attempt)
    ensures random <= baseDelayMs * Pow2(attempt) ==>
              Delay(baseDelayMs, zeroSleep, attempt, random) == if zeroSleep then 0 else random
  {
    SmallRemainder(random, baseDelayMs * Pow2(attempt));
  }

  /** The sum of the first n delays. */
  function Delays(baseDelayMs: nat, zeroSleep: bool, jitter: nat -> nat, n: nat): nat {
    if n == 0 then 0
    else Delays(baseDelayMs, zeroSleep, jitter, n - 1) + Delay(baseDelayMs, zeroSleep, n - 1, jitter(n - 1))
  }

  /** All delays of a retry loop add up to at most base * (2^n - 1). */
  lemma {:induction false} DelaysBounded(baseDelayMs: nat, zeroSleep: bool, jitter: nat -> nat, n: nat, last: nat)
    requires n <= last
    ensures Delays(baseDelayMs, zeroSleep, jitter, n) <= baseDelayMs * (Pow2(last) - 1)
    ensures zeroSleep ==> Delays(baseDelayMs, zeroSleep, jitter, n) == 0
    decreases last
  {
    if last == 0 {
      assert Pow2(0) == 1;
    } else if n < last {
      DelaysBounded(baseDelayMs, zeroSleep, jitter, n, last - 1);
      SleepBounded(baseDelayMs, last - 1, last);
    } else {
      DelaysBounded(baseDelayMs, zeroSleep, jitter, n - 1, last - 1);
      DelayIsJitter(baseDelayMs, zeroSleep, n - 1, jitter(n - 1));
      SleepAdds(baseDelayMs, n - 1);
    }
  }

  // ---------- the client, as the code runs it ----------

  class RetryingClient {
    const net: Network
    const maxAttempts: nat
    const baseDelayMs: nat
    const zeroSleep: bool
    var world: World
    var sleptMs: nat

    constructor (net: Network, server: Server, maxAttempts: nat, baseDelayMs: nat, zeroSleep: bool)
      ensures this.net == net && this.maxAttempts == maxAttempts
      ensures this.baseDelayMs == baseDelayMs && this.zeroSleep == zeroSleep
      ensures world == World(server, 0) && sleptMs == 0
    {
      this.net, this.maxAttempts, this.baseDelayMs, this.zeroSleep := net, maxAttempts, baseDelayMs, zeroSleep;
      world, sleptMs := World(server, 0), 0;
    }

    method Send(request: Request) returns (reply: Reply)
      modifies this`world
      ensures (world, reply) == Attempt(net, old(world), request)
      ensures world.clock == old(world).clock + 1
    {
      var (after, answer) := Attempt(net, world, request);
      world, reply := after, answer;
    }

    method SleepBackoff(attempt: nat, random: nat)
      modifies this`sleptMs
      ensures sleptMs == old(sleptMs) + Delay(baseDelayMs, zeroSleep, attempt, random)
    {
      DelayIsJitter(baseDelayMs, zeroSleep, attempt, random);
      if zeroSleep {
        return;
      }
      var base := baseDelayMs * Pow2(attempt);
      sleptMs := sleptMs + random % (base + 1);
    }

    /** Sends until an answer is not retried or no attempt is left, backing off before every other attempt. */
    method Execute(request: Request, jitter: nat -> nat) returns (reply: Reply)
      requires maxAttempts >= 1
      modifies this
      ensures (world, reply) == Executed(net, old(world), request, maxAttempts)
      ensures world.clock > old(world).clock
      ensures sleptMs == old(sleptMs) + Delays(baseDelayMs, zeroSleep, jitter, world.clock - old(world).clock - 1)
      ensures sleptMs <= old(sleptMs) + baseDelayMs * (Pow2(maxAttempts - 1) - 1)
      ensures zeroSleep ==> sleptMs == old(sleptMs)
    {
      hide Delay, IsOverload, IsRetryable, Handled;
      var attempt := 0;
      while attempt < maxAttempts
        invariant 0 <= attempt < maxAttempts
        invariant Executed(net, world, request, maxAttempts - attempt)
               == Executed(net, old(world), request, maxAttempts)
        invariant world.clock == old(world).clock + attempt
        invariant sleptMs == old(sleptMs) + Delays(baseDelayMs, zeroSleep, jitter, attempt)
      {
        reply := Send(request);
        if !Retries(reply) || attempt + 1 == maxAttempts {
          DelaysBounded(baseDelayMs, zeroSleep, jitter, attempt, maxAttempts - 1);
          return;
        }
        SleepBackoff(attempt, jitter(attempt));
        attempt := attempt + 1;
      }
      assert false;
    }
  }
}
