/**
 The fixed-window limiter: a counter per key with an expiry set by its first
 increment, and the two dependencies that admit or refuse a request on it.
 */
module RateLimit {
  import opened Common

  /** Seconds, in as fine a division as the clock has. */
  type Time = real
  type Key = string

  datatype Counter = Counter(count: nat, expiresAt: Time)

  type Store = map<Key, Counter>

  datatype Limits = Limits(requests: nat, windowSeconds: nat)

  predicate ValidLimits(limits: Limits) {
    1 <= limits.requests <= 1000 && 1 <= limits.windowSeconds <= 3600
  }

  datatype Decision = Admitted | TooManyRequests(retryAfter: int) | ServiceUnavailable

  /** The store may answer, or fail after or before the script ran. */
  datatype Reply = Answers | FailsAfterIncrement | FailsBefore

  /** The live counter of a key; Redis drops a key once its expiry has come. */
  function Current(store: Store, key: Key, now: Time): Option<Counter> {
    if key in store && now < store[key].expiresAt then Some(store[key]) else None
  }

  /** INCR, then EXPIRE when the key is new. */
  function Incremented(store: Store, key: Key, now: Time, window: nat): Counter {
    match Current(store, key, now)
    case Some(counter) => counter.(count := counter.count + 1)
    case None => Counter(1, now + window as real)
  }

  /** What `TTL` reports: the remaining life rounded to whole seconds. */
  function Ttl(counter: Counter, now: Time): int {
    (counter.expiresAt - now + 0.5).Floor
  }

  function RetryAfter(ttl: int, window: nat): int {
    var bounded := if ttl < window then ttl else window;
    var capped := if bounded < 3600 then bounded else 3600;
    if capped < 1 then 1 else capped
  }

  function Judge(counter: Counter, now: Time, limits: Limits): Decision {
    if counter.count <= limits.requests then Admitted
    else TooManyRequests(RetryAfter(Ttl(counter, now), limits.windowSeconds))
  }

  /** What the mutation limiter decides; it fails closed. */
  function MutationDecision(store: Store, key: Key, now: Time, limits: Limits, reply: Reply): Decision {
    if reply.Answers? then Judge(Incremented(store, key, now, limits.windowSeconds), now, limits)
    else ServiceUnavailable
  }

  /** What the authentication limiter decides; it fails open. */
  function AuthDecision(store: Store, key: Key, now: Time, limits: Limits, reply: Reply): Decision {
    if reply.Answers? then Judge(Incremented(store, key, now, limits.windowSeconds), now, limits)
    else Admitted
  }

  function StoreAfter(store: Store, key: Key, now: Time, limits: Limits, reply: Reply): Store {
    if reply.FailsBefore? then store
    else store[key := Incremented(store, key, now, limits.windowSeconds)]
  }

  class RateLimiter {
    var counters: Store

    constructor ()
      ensures counters == map[]
    {
      counters := map[];
    }

    /** The Redis script: one atomic step. */
    method Increment(key: Key, windowSeconds: nat, now: Time) returns (count: nat, ttl: int)
      modifies this
      ensures counters == old(counters)[key := Incremented(old(counters), key, now, windowSeconds)]
      ensures if key in old(counters) && now < old(counters)[key].expiresAt
              then counters[key] == Counter(old(counters)[key].count + 1, old(counters)[key].expiresAt)
              else counters[key] == Counter(1, now + windowSeconds as real)
      ensures count == counters[key].count && ttl == Ttl(counters[key], now)
    {
      if key in counters && counters[key].expiresAt <= now {
        counters := map k | k in counters && k != key :: counters[k];
      }
      if key in counters {
        counters := counters[key := Counter(counters[key].count + 1, counters[key].expiresAt)];
      } else {
        counters := counters[key := Counter(1, now + windowSeconds as real)];
      }
      count := counters[key].count;
      ttl := Ttl(counters[key], now);
    }

    method EnforceMutationRateLimit(key: Key, now: Time, limits: Limits, reply: Reply) returns (decision: Decision)
      modifies this
      ensures decision == MutationDecision(old(counters), key, now, limits, reply)
      ensures counters == StoreAfter(old(counters), key, now, limits, reply)
    {
      if reply.FailsBefore? { return ServiceUnavailable; }
      var count, ttl := Increment(key, limits.windowSeconds, now);
      if reply.FailsAfterIncrement? { return ServiceUnavailable; }
      if count <= limits.requests { return Admitted; }
      return TooManyRequests(RetryAfter(ttl, limits.windowSeconds));
    }

    method EnforceAuthRateLimit(key: Key, now: Time, limits: Limits, reply: Reply) returns (decision: Decision)
      modifies this
      ensures decision == AuthDecision(old(counters), key, now, limits, reply)
      ensures counters == StoreAfter(old(counters), key, now, limits, reply)
    {
      if reply.FailsBefore? { return Admitted; }
      var count, ttl := Increment(key, limits.windowSeconds, now);
      if reply.FailsAfterIncrement? { return Admitted; }
      if count <= limits.requests { return Admitted; }
      return TooManyRequests(RetryAfter(ttl, limits.windowSeconds));
    }
  }

  // ----------------------------------------------------------------- runs

  datatype Request = Request(key: Key, at: Time, reply: Reply)

  predicate InOrder(requests: seq<Request>) {
    forall i, j | 0 <= i < j < |requests| :: requests[i].at <= requests[j].at
  }

  function StoreAfterAll(store: Store, requests: seq<Request>, limits: Limits): Store
    decreases |requests|
  {
    if requests == [] then store
    else
      var last := requests[|requests| - 1];
      StoreAfter(StoreAfterAll(store, requests[..|requests| - 1], limits), last.key, last.at, limits, last.reply)
  }

  /** Whether an answered request for the key at a time in `from .. to` is admitted. */
  predicate CountsHere(store: Store, request: Request, limits: Limits, key: Key, from: Time, to: Time) {
    && request.key == key && from <= request.at < to
    && MutationDecision(store, key, request.at, limits, request.reply).Admitted?
  }

  /** How many requests for the key the mutation limiter admits in `from .. to`;
      for the authentication limiter, how many of those its store answers. */
  function AdmittedIn(store: Store, requests: seq<Request>, limits: Limits, key: Key, from: Time, to: Time): nat
    decreases |requests|
  {
    if requests == [] then 0
    else
      var before := requests[..|requests| - 1];
      AdmittedIn(store, before, limits, key, from, to)
      + if CountsHere(StoreAfterAll(store, before, limits), requests[|requests| - 1], limits, key, from, to) then 1 else 0
  }

  /** Which requests are admitted: those the store answers while the key's count,
      this request included, is within the limit. */
  lemma DecisionMeaning(store: Store, key: Key, now: Time, limits: Limits, reply: Reply)
    ensures
      var seen := if key in store && now < store[key].expiresAt then store[key].count else 0;
      var mutation, auth := MutationDecision(store, key, now, limits, reply), AuthDecision(store, key, now, limits, reply);
      && (mutation.ServiceUnavailable? <==> !reply.Answers?)
      && (mutation.Admitted? <==> reply.Answers? && seen + 1 <= limits.requests)
      && (auth.TooManyRequests? <==> reply.Answers? && seen + 1 > limits.requests)
      && (auth.Admitted? <==> reply.Answers? ==> seen + 1 <= limits.requests)
  {
  }

  /** On answered requests both limiters decide alike. */
  lemma AuthAgreesWhenAnswered(store: Store, key: Key, now: Time, limits: Limits, reply: Reply)
    ensures reply.Answers? ==>
              AuthDecision(store, key, now, limits, reply) == MutationDecision(store, key, now, limits, reply)
    ensures !reply.Answers? ==>
              AuthDecision(store, key, now, limits, reply) == Admitted
              && MutationDecision(store, key, now, limits, reply) == ServiceUnavailable
  {
  }

  // -------------------------------------------------- one window, two lifetimes

  function Min(a: nat, b: nat): nat {
    if a < b then a else b
  }

  /**
   How the admissions in a window of one window length that begins at `from`
   compare with the key's counter.  A key lifetime that began before the window
   spent its first admission outside it; at most one later lifetime can begin
   inside.
   */
  ghost predicate WindowState(store: Store, limits: Limits, key: Key, from: Time, admitted: nat, last: Time) {
    && (admitted > 0 ==> from <= last)
    && if key !in store then admitted == 0
       else
         var counter := store[key];
         var born := counter.expiresAt - limits.windowSeconds as real;
         && counter.count >= 1 && born <= last
         && if born < from then admitted + 1 <= Min(counter.count, limits.requests)
            else if born < from + limits.windowSeconds as real then
              admitted + 1 <= limits.requests + Min(counter.count, limits.requests)
            else admitted + 1 <= 2 * limits.requests
  }

  lemma StepKeepsWindowState(store: Store, limits: Limits, key: Key, from: Time, admitted: nat, last: Time,
                             request: Request)
    requires ValidLimits(limits) && WindowState(store, limits, key, from, admitted, last) && last <= request.at
    ensures
      var admitted' :=
        admitted + if CountsHere(store, request, limits, key, from, from + limits.windowSeconds as real) then 1 else 0;
      WindowState(StoreAfter(store, request.key, request.at, limits, request.reply),
                  limits, key, from, admitted', request.at)
  {
  }

  lemma {:induction false} RunKeepsWindowState(requests: seq<Request>, limits: Limits, key: Key, from: Time)
    requires ValidLimits(limits) && InOrder(requests) && requests != []
    ensures WindowState(StoreAfterAll(map[], requests, limits), limits, key, from,
                        AdmittedIn(map[], requests, limits, key, from, from + limits.windowSeconds as real),
                        requests[|requests| - 1].at)
    decreases |requests|
  {
    var before, request := requests[..|requests| - 1], requests[|requests| - 1];
    var last := if before == [] then request.at else before[|before| - 1].at;
    if before != [] {
      RunKeepsWindowState(before, limits, key, from);
    }
    StepKeepsWindowState(StoreAfterAll(map[], before, limits), limits, key, from,
                         AdmittedIn(map[], before, limits, key, from, from + limits.windowSeconds as real), last, request);
  }

  /** In any half-open interval of one window length, whatever the other keys do
      and however often the store fails, fewer than twice the configured limit
      are admitted for a key. */
  lemma SlidingWindowBound(requests: seq<Request>, limits: Limits, key: Key, from: Time)
    requires ValidLimits(limits) && InOrder(requests)
    ensures AdmittedIn(map[], requests, limits, key, from, from + limits.windowSeconds as real) <= 2 * limits.requests - 1
  {
    if requests != [] {
      RunKeepsWindowState(requests, limits, key, from);
    }
  }

  /** A key's lifetime, from its first increment until its expiry. */
  ghost predicate BornAt(store: Store, key: Key, born: Time) {
    Current(store, key, born).None?
  }

  /** Within one lifetime of a key at most the limit is admitted. */
  lemma LifetimeBound(store: Store, requests: seq<Request>, limits: Limits, key: Key, born: Time)
    requires ValidLimits(limits) && InOrder(requests) && BornAt(store, key, born)
    requires forall i | 0 <= i < |requests| :: born <= requests[i].at < born + limits.windowSeconds as real
    requires requests != [] && requests[0].key == key && requests[0].at == born && !requests[0].reply.FailsBefore?
    ensures AdmittedIn(store, requests, limits, key, born, born + limits.windowSeconds as real) <= limits.requests
  {
    LifetimeCounts(store, requests, limits, key, born);
  }

  /** Increments of the key among the requests. */
  function Increments(requests: seq<Request>, key: Key): nat
    decreases |requests|
  {
    if requests == [] then 0
    else
      var last := requests[|requests| - 1];
      Increments(requests[..|requests| - 1], key) + if last.key == key && !last.reply.FailsBefore? then 1 else 0
  }

  /** The counter counts the lifetime's increments and never more are admitted. */
  lemma {:induction false} LifetimeCounts(store: Store, requests: seq<Request>, limits: Limits, key: Key, born: Time)
    requires ValidLimits(limits) && InOrder(requests) && BornAt(store, key, born)
    requires forall i | 0 <= i < |requests| :: born <= requests[i].at < born + limits.windowSeconds as real
    requires requests != [] && requests[0].key == key && requests[0].at == born && !requests[0].reply.FailsBefore?
    ensures
      var after := StoreAfterAll(store, requests, limits);
      && key in after && after[key] == Counter(Increments(requests, key), born + limits.windowSeconds as real)
      && AdmittedIn(store, requests, limits, key, born, born + limits.windowSeconds as real)
         <= Min(Increments(requests, key), limits.requests)
    decreases |requests|
  {
    var before := requests[..|requests| - 1];
    if before == [] {
      assert requests[0] == requests[|requests| - 1];
    } else {
      LifetimeCounts(store, before, limits, key, born);
    }
  }

  /** Where no answer is lost, a lifetime admits exactly its first `limit`
      increments of the key, whatever happens to other keys. */
  lemma {:induction false} LifetimeExact(store: Store, requests: seq<Request>, limits: Limits, key: Key, born: Time)
    requires ValidLimits(limits) && InOrder(requests) && BornAt(store, key, born)
    requires forall i | 0 <= i < |requests| :: born <= requests[i].at < born + limits.windowSeconds as real
    requires forall i | 0 <= i < |requests| :: requests[i].key == key ==> !requests[i].reply.FailsAfterIncrement?
    requires requests != [] && requests[0].key == key && requests[0].at == born && requests[0].reply.Answers?
    ensures AdmittedIn(store, requests, limits, key, born, born + limits.windowSeconds as real)
            == Min(Increments(requests, key), limits.requests)
    decreases |requests|
  {
    LifetimeCounts(store, requests, limits, key, born);
    var before := requests[..|requests| - 1];
    if before == [] {
      assert requests[0] == requests[|requests| - 1];
    } else {
      LifetimeExact(store, before, limits, key, born);
      LifetimeCounts(store, before, limits, key, born);
    }
  }

  // ------------------------------------------------------- the bound is met

  /** The requests followed by `n` more for the key, all at once. */
  function Burst(before: seq<Request>, key: Key, at: Time, n: nat): seq<Request> {
    if n == 0 then before else Burst(before, key, at, n - 1) + [Request(key, at, Answers)]
  }

  /** The count a request would find. */
  function Found(store: Store, key: Key, at: Time): nat {
    match Current(store, key, at)
    case Some(counter) => counter.count
    case None => 0
  }

  /** The key has counted `n` more requests in the lifetime it is in at `at`. */
  ghost predicate Grown(store: Store, after: Store, key: Key, at: Time, n: nat) {
    && Found(after, key, at) == Found(store, key, at) + n
    && (Current(store, key, at).Some? ==> key in after && after[key].expiresAt == store[key].expiresAt)
  }

  /** One request of a burst that the limit still has room for. */
  lemma BurstStep(store: Store, mid: Store, limits: Limits, key: Key, at: Time, n: nat, from: Time)
    requires ValidLimits(limits) && Grown(store, mid, key, at, n) && Found(mid, key, at) < limits.requests
    requires from <= at < from + limits.windowSeconds as real
    ensures Grown(store, StoreAfter(mid, key, at, limits, Answers), key, at, n + 1)
    ensures CountsHere(mid, Request(key, at, Answers), limits, key, from, from + limits.windowSeconds as real)
  {
  }

  lemma OneMoreRequest(before: seq<Request>, limits: Limits, request: Request, key: Key, from: Time, to: Time)
    ensures
      var store, requests := StoreAfterAll(map[], before, limits), before + [request];
      && StoreAfterAll(map[], requests, limits) == StoreAfter(store, request.key, request.at, limits, request.reply)
      && AdmittedIn(map[], requests, limits, key, from, to)
         == AdmittedIn(map[], before, limits, key, from, to) + if CountsHere(store, request, limits, key, from, to) then 1 else 0
  {
    assert (before + [request])[..|before|] == before;
  }

  /** A burst within the limit is admitted in full. */
  lemma {:induction false} BurstAdmitted(before: seq<Request>, limits: Limits, key: Key, at: Time, n: nat, from: Time)
    requires ValidLimits(limits) && from <= at < from + limits.windowSeconds as real
    requires Found(StoreAfterAll(map[], before, limits), key, at) + n <= limits.requests
    ensures
      var requests, to := Burst(before, key, at, n), from + limits.windowSeconds as real;
      && AdmittedIn(map[], requests, limits, key, from, to) == AdmittedIn(map[], before, limits, key, from, to) + n
      && Grown(StoreAfterAll(map[], before, limits), StoreAfterAll(map[], requests, limits), key, at, n)
    decreases n
  {
    if n > 0 {
      var shorter := Burst(before, key, at, n - 1);
      BurstAdmitted(before, limits, key, at, n - 1, from);
      OneMoreRequest(shorter, limits, Request(key, at, Answers), key, from, from + limits.windowSeconds as real);
      BurstStep(StoreAfterAll(map[], before, limits), StoreAfterAll(map[], shorter, limits), limits, key, at, n - 1, from);
    }
  }

  lemma {:induction false} BurstInOrder(before: seq<Request>, key: Key, at: Time, n: nat)
    requires InOrder(before) && forall i | 0 <= i < |before| :: before[i].at <= at
    ensures
      var requests := Burst(before, key, at, n);
      InOrder(requests) && forall i | 0 <= i < |requests| :: requests[i].at <= at
    decreases n
  {
    if n > 0 {
      BurstInOrder(before, key, at, n - 1);
    }
  }

  lemma FirstRequest(limits: Limits, key: Key, from: Time)
    requires ValidLimits(limits) && from > 0.0
    ensures
      var first := [Request(key, 0.0, Answers)];
      && StoreAfterAll(map[], first, limits) == map[key := Counter(1, limits.windowSeconds as real)]
      && AdmittedIn(map[], first, limits, key, from, from + limits.windowSeconds as real) == 0
  {
    var first := [Request(key, 0.0, Answers)];
    assert first[..0] == [];
  }

  /** A key born at 0 fills up just before it expires. */
  lemma FilledLifetime(limits: Limits, key: Key, from: Time)
    requires ValidLimits(limits) && 0.0 < from < limits.windowSeconds as real
    ensures
      var w, filled := limits.windowSeconds as real, Burst([Request(key, 0.0, Answers)], key, from, limits.requests - 1);
      && AdmittedIn(map[], filled, limits, key, from, from + w) == limits.requests - 1
      && Found(StoreAfterAll(map[], filled, limits), key, w) == 0
  {
    FirstRequest(limits, key, from);
    BurstAdmitted([Request(key, 0.0, Answers)], limits, key, from, limits.requests - 1, from);
  }

  lemma BurstsInOrder(key: Key, t1: Time, n1: nat, t2: Time, n2: nat)
    requires 0.0 <= t1 <= t2
    ensures InOrder(Burst(Burst([Request(key, 0.0, Answers)], key, t1, n1), key, t2, n2))
  {
    var first := [Request(key, 0.0, Answers)];
    BurstInOrder(first, key, t1, n1);
    BurstInOrder(Burst(first, key, t1, n1), key, t2, n2);
  }

  /** ... and is filled again as soon as it has expired. */
  lemma FilledTwice(filled: seq<Request>, limits: Limits, key: Key, from: Time)
    requires ValidLimits(limits) && 0.0 < from < limits.windowSeconds as real
    requires filled == Burst([Request(key, 0.0, Answers)], key, from, limits.requests - 1)
    ensures
      var w := limits.windowSeconds as real;
      AdmittedIn(map[], Burst(filled, key, w, limits.requests), limits, key, from, from + w) == 2 * limits.requests - 1
  {
    FilledLifetime(limits, key, from);
    BurstAdmitted(filled, limits, key, limits.windowSeconds as real, limits.requests, from);
  }

  /** The bound is met for every configuration. */
  lemma SlidingWindowBoundTight(limits: Limits, key: Key) returns (requests: seq<Request>, from: Time)
    requires ValidLimits(limits)
    ensures InOrder(requests)
    ensures AdmittedIn(map[], requests, limits, key, from, from + limits.windowSeconds as real) == 2 * limits.requests - 1
  {
    var w := limits.windowSeconds as real;
    from := w - 0.5;
    var filled := Burst([Request(key, 0.0, Answers)], key, from, limits.requests - 1);
    requests := Burst(filled, key, w, limits.requests);
    FilledTwice(filled, limits, key, from);
    BurstsInOrder(key, from, limits.requests - 1, w, limits.requests);
  }

  // ------------------------------------------------------------ the refusal

  lemma Wait(remaining: real, window: nat)
    requires 0.0 < remaining <= window as real && 1 <= window <= 3600
    ensures
      var wait := RetryAfter((remaining + 0.5).Floor, window);
      && 1 <= wait <= window && remaining <= wait as real + 0.5
      && (remaining > wait as real <==> remaining > 1.0 && 0.0 < remaining - remaining.Floor as real < 0.5)
  {
    var whole, part := remaining.Floor, remaining - remaining.Floor as real;
    assert (remaining + 0.5).Floor == if part < 0.5 then whole else whole + 1;
  }

  /** A refusal names a wait between one second and the window.  Half a second
      later at the latest the key has expired; after the wait itself it is still
      alive exactly if its remaining life, over one second, was rounded down. */
  lemma RetryAfterMeaning(store: Store, key: Key, now: Time, limits: Limits)
    requires ValidLimits(limits)
    requires key in store ==> store[key].expiresAt <= now + limits.windowSeconds as real
    ensures
      var decision := MutationDecision(store, key, now, limits, Answers);
      var after := StoreAfter(store, key, now, limits, Answers);
      decision.TooManyRequests? ==>
        var remaining := after[key].expiresAt - now;
        && 1 <= decision.retryAfter <= limits.windowSeconds
        && Current(after, key, now + decision.retryAfter as real + 0.5).None?
        && (Current(after, key, now + decision.retryAfter as real).Some? <==>
              remaining > 1.0 && 0.0 < remaining - remaining.Floor as real < 0.5)
  {
    var counter := Incremented(store, key, now, limits.windowSeconds);
    Wait(counter.expiresAt - now, limits.windowSeconds);
  }
}
