/** Requests that are sent again when their answer is lost (postWithRetry), and a server that applies
    a request once by its identity. */
module Retry {

  type Key = nat
  type Payload = seq<char>

  /** What the server holds by identity, and the identities in the order in which it applied them. */
  datatype Server = Server(stored: map<Key, Payload>, applied: seq<Key>)

  /** How the server takes a request: as its state decides, with a refusal (HTTP 4xx), or with a
      failure of another status, before or after it applied the request. */
  datatype Verdict = Accept | Refuse(status: nat) | Break(status: nat, applies: bool)

  /** What becomes of the answer: it arrives whole, not at all, or without a valid JSON object. */
  datatype Heard = Whole | Lost | Garbled

  datatype Trip = Trip(arrives: bool, verdict: Verdict, heard: Heard)

  datatype Code = ConnectionFailed | InvalidResponse | ServerCode

  datatype Reply = Accepted | Problem(code: Code, status: nat)

  const CONFLICT := 409

  predicate Proper(trip: Trip) {
    match trip.verdict
    case Accept => true
    case Refuse(status) => 400 <= status < 500
    case Break(status, _) => !(400 <= status < 500)
  }

  function Applied(server: Server, key: Key, payload: Payload): Server {
    if key in server.stored then server else Server(server.stored[key := payload], server.applied + [key])
  }

  function Received(server: Server, key: Key, payload: Payload, verdict: Verdict): (Server, Reply) {
    match verdict
    case Refuse(status) => (server, Problem(ServerCode, status))
    case Break(status, applies) =>
      (if applies then Applied(server, key, payload) else server, Problem(ServerCode, status))
    case Accept =>
      if key in server.stored && server.stored[key] != payload then (server, Problem(ServerCode, CONFLICT))
      else (Applied(server, key, payload), Accepted)
  }

  /** One request: a request that the server never sees changes nothing. */
  function Exchanged(server: Server, key: Key, payload: Payload, trip: Trip): (Server, Reply) {
    var (after, reply) :=
      if trip.arrives then Received(server, key, payload, trip.verdict)
      else (server, Problem(ConnectionFailed, 0));
    match trip.heard
    case Whole => (after, reply)
    case Lost => (after, Problem(ConnectionFailed, 0))
    case Garbled => (after, Problem(InvalidResponse, 0))
  }

  predicate Retryable(reply: Reply) {
    reply.Problem? && !reply.code.ServerCode?
  }

  predicate DefiniteRefusal(reply: Reply) {
    reply.Problem? && 400 <= reply.status < 500
  }

  datatype Sent = Sent(server: Server, reply: Reply, requests: nat)

  /** postWithRetry from its request number attempt on; stopped tells at which of its waits the context is over. */
  function Posted(server: Server, key: Key, payload: Payload, trips: seq<Trip>, stopped: seq<bool>,
                  attempt: nat): (r: Sent)
    requires |trips| == |stopped| == 3 && attempt < 3
    ensures 1 <= r.requests <= 3 - attempt
    decreases 3 - attempt
  {
    var (next, reply) := Exchanged(server, key, payload, trips[attempt]);
    if !Retryable(reply) || attempt == 2 || stopped[attempt + 1] then Sent(next, reply, 1)
    else
      var rest := Posted(next, key, payload, trips, stopped, attempt + 1);
      rest.(requests := rest.requests + 1)
  }

  method PostWithRetry(server: Server, key: Key, payload: Payload, trips: seq<Trip>, stopped: seq<bool>)
    returns (after: Server, reply: Reply, requests: nat)
    requires |trips| == |stopped| == 3
    ensures Sent(after, reply, requests) == Posted(server, key, payload, trips, stopped, 0)
  {
    after, reply, requests := server, Problem(ConnectionFailed, 0), 0;
    var attempt := 0;
    while attempt < 3
      invariant 0 <= attempt <= 3 && requests == attempt
      invariant attempt > 0 ==> Retryable(reply)
      invariant attempt < 3 && (attempt == 0 || !stopped[attempt]) ==>
        var rest := Posted(after, key, payload, trips, stopped, attempt);
        rest.(requests := rest.requests + requests) == Posted(server, key, payload, trips, stopped, 0)
      invariant attempt > 0 && (attempt == 3 || stopped[attempt]) ==>
        Sent(after, reply, requests) == Posted(server, key, payload, trips, stopped, 0)
    {
      if attempt > 0 && stopped[attempt] {
        return;
      }
      var (next, heard) := Exchanged(after, key, payload, trips[attempt]);
      after, reply, requests := next, heard, requests + 1;
      if !Retryable(reply) {
        return;
      }
      attempt := attempt + 1;
    }
  }

  // ---------------------------------------------------------------- once

  /** What a call can do to the server: nothing, or one application of a request that it did not hold. */
  ghost predicate OnceAtMost(before: Server, after: Server, key: Key, payload: Payload) {
    after == before || (key !in before.stored && after == Applied(before, key, payload))
  }

  /** In every pattern of lost requests and answers the operation is applied at most once, and exactly
      once by a call that reports success for a new identity. */
  lemma {:induction false} AppliesAtMostOnce(server: Server, key: Key, payload: Payload, trips: seq<Trip>,
                                             stopped: seq<bool>, attempt: nat)
    requires |trips| == |stopped| == 3 && attempt < 3
    ensures var sent := Posted(server, key, payload, trips, stopped, attempt);
      && OnceAtMost(server, sent.server, key, payload)
      && (sent.reply.Accepted? ==> key in sent.server.stored && sent.server.stored[key] == payload)
      && (sent.reply.Accepted? && key !in server.stored ==> sent.server.applied == server.applied + [key])
    decreases 3 - attempt
  {
    var (next, reply) := Exchanged(server, key, payload, trips[attempt]);
    if Retryable(reply) && attempt < 2 && !stopped[attempt + 1] {
      AppliesAtMostOnce(next, key, payload, trips, stopped, attempt + 1);
    }
  }

  /** A wait that the context ends is the last: no request follows it. */
  lemma {:induction false} StopsWhenCancelled(server: Server, key: Key, payload: Payload, trips: seq<Trip>,
                                              stopped: seq<bool>, attempt: nat, wait: nat)
    requires |trips| == |stopped| == 3 && attempt < wait < 3 && stopped[wait]
    ensures Posted(server, key, payload, trips, stopped, attempt).requests <= wait - attempt
    decreases 3 - attempt
  {
    var (next, reply) := Exchanged(server, key, payload, trips[attempt]);
    if Retryable(reply) && attempt < 2 && !stopped[attempt + 1] {
      StopsWhenCancelled(next, key, payload, trips, stopped, attempt + 1, wait);
    }
  }

  /** Only a request without a usable answer is sent again, and the call gives up on one only after
      the third request or when the context ends. */
  lemma {:induction false} RetriesLostAnswers(server: Server, key: Key, payload: Payload, trips: seq<Trip>,
                                              stopped: seq<bool>, attempt: nat)
    requires |trips| == |stopped| == 3 && attempt < 3
    ensures var sent := Posted(server, key, payload, trips, stopped, attempt); var last := attempt + sent.requests - 1;
      && (forall i :: attempt <= i < last ==> !trips[i].arrives || !trips[i].heard.Whole?)
      && (Retryable(sent.reply) ==> last == 2 || stopped[last + 1])
      && (Retryable(sent.reply) <==> !trips[last].arrives || !trips[last].heard.Whole?)
    decreases 3 - attempt
  {
    var (next, reply) := Exchanged(server, key, payload, trips[attempt]);
    if Retryable(reply) && attempt < 2 && !stopped[attempt + 1] {
      RetriesLostAnswers(next, key, payload, trips, stopped, attempt + 1);
    }
  }

  /** Request i is sent: every earlier one of the call stays without a usable answer, and no wait ends early. */
  ghost predicate IsSent(trips: seq<Trip>, stopped: seq<bool>, attempt: nat, i: int)
    requires |trips| == |stopped| == 3
  {
    attempt <= i < 3 &&
    forall j :: attempt <= j < i ==> (!trips[j].arrives || !trips[j].heard.Whole?) && !stopped[j + 1]
  }

  /** A call succeeds if and only if one of the requests that it sends arrives, is accepted and gets its
      whole answer back. */
  lemma {:induction false} SucceedsExactly(server: Server, key: Key, payload: Payload, trips: seq<Trip>,
                                           stopped: seq<bool>, attempt: nat)
    requires |trips| == |stopped| == 3 && attempt < 3
    requires key in server.stored ==> server.stored[key] == payload
    ensures Posted(server, key, payload, trips, stopped, attempt).reply.Accepted? <==>
      exists i :: IsSent(trips, stopped, attempt, i) && trips[i] == Trip(true, Accept, Whole)
    decreases 3 - attempt
  {
    var (next, reply) := Exchanged(server, key, payload, trips[attempt]);
    assert IsSent(trips, stopped, attempt, attempt);
    if Retryable(reply) && attempt < 2 && !stopped[attempt + 1] {
      SucceedsExactly(next, key, payload, trips, stopped, attempt + 1);
      forall i ensures IsSent(trips, stopped, attempt + 1, i) <==> IsSent(trips, stopped, attempt, i) && i > attempt {
      }
    }
  }

  // ---------------------------------------------------------------- refusals

  /** The server applies a request that it does not hold. */
  predicate Applies(trip: Trip) {
    trip.arrives && (trip.verdict.Accept? || (trip.verdict.Break? && trip.verdict.applies))
  }

  /** A definite refusal of a new identity is wrong, and the server holds what it refused, exactly when
      it applied an earlier request of the same call whose answer was lost. */
  lemma {:induction false} RefusalIsWrongAfterLostSuccess(server: Server, key: Key, payload: Payload, trips: seq<Trip>,
                                                          stopped: seq<bool>, attempt: nat)
    requires |trips| == |stopped| == 3 && attempt < 3 && (forall trip :: trip in trips ==> Proper(trip))
    requires key in server.stored ==> server.stored[key] == payload
    requires DefiniteRefusal(Posted(server, key, payload, trips, stopped, attempt).reply)
    ensures var sent := Posted(server, key, payload, trips, stopped, attempt);
      key in sent.server.stored <==>
        key in server.stored || exists i :: attempt <= i < attempt + sent.requests - 1 && Applies(trips[i])
    decreases 3 - attempt
  {
    assert Proper(trips[attempt]);
    var (next, reply) := Exchanged(server, key, payload, trips[attempt]);
    if Retryable(reply) && attempt < 2 && !stopped[attempt + 1] {
      RefusalIsWrongAfterLostSuccess(next, key, payload, trips, stopped, attempt + 1);
      assert key in next.stored <==> key in server.stored || Applies(trips[attempt]);
    }
  }

  /** The server refuses no request that it holds. */
  ghost predicate Steady(server: Server, key: Key, payload: Payload, trips: seq<Trip>, attempt: nat)
    requires |trips| == 3 && attempt <= 3
    decreases 3 - attempt
  {
    attempt < 3 ==>
      && (key in server.stored ==> !trips[attempt].verdict.Refuse?)
      && Steady(Exchanged(server, key, payload, trips[attempt]).0, key, payload, trips, attempt + 1)
  }

  /** With such a server a definite refusal means that nothing was applied. */
  lemma {:induction false} SteadyRefusalMeansNothing(server: Server, key: Key, payload: Payload, trips: seq<Trip>,
                                                     stopped: seq<bool>, attempt: nat)
    requires |trips| == |stopped| == 3 && attempt < 3 && (forall trip :: trip in trips ==> Proper(trip))
    requires Steady(server, key, payload, trips, attempt)
    requires key in server.stored ==> server.stored[key] == payload
    ensures var sent := Posted(server, key, payload, trips, stopped, attempt);
      DefiniteRefusal(sent.reply) ==> sent.server == server && key !in server.stored
    decreases 3 - attempt
  {
    assert Proper(trips[attempt]);
    var (next, reply) := Exchanged(server, key, payload, trips[attempt]);
    if Retryable(reply) && attempt < 2 && !stopped[attempt + 1] {
      SteadyRefusalMeansNothing(next, key, payload, trips, stopped, attempt + 1);
    }
  }

  /** Without it, a lost success followed by a refusal is reported as a refusal. */
  lemma RefusalAfterLostSuccess(key: Key, payload: Payload) returns (trips: seq<Trip>)
    ensures |trips| == 3 && forall trip :: trip in trips ==> Proper(trip)
    ensures var sent := Posted(Server(map[], []), key, payload, trips, [false, false, false], 0);
      DefiniteRefusal(sent.reply) && key in sent.server.stored
  {
    var server := Server(map[], []);
    trips := [Trip(true, Accept, Lost), Trip(true, Refuse(401), Whole), Trip(true, Accept, Whole)];
    var stopped := [false, false, false];
    var next := Exchanged(server, key, payload, trips[0]).0;
    assert key in next.stored;
    assert Posted(next, key, payload, trips, stopped, 1) == Sent(next, Problem(ServerCode, 401), 1);
  }
}
