/** The retrying proxy (internal/modelproxy/handler.go).  A retry runs inside the error handler
    of the attempt before it, so leases nest.

    Choosing an address, the backend and the request context are the environment: for each
    attempt it says what the attempt met and whether the context was done by the time the error
    handler looked. */
module Proxy {
  import opened Wrappers

  datatype AddressError = Canceled | DeadlineExceeded | Other

  datatype Reply =
    | NoAddress(why: AddressError)
    | Response(code: nat)
    | ConnectionError

  datatype Attempt = Attempt(reply: Reply, contextDone: bool)

  type Environment = nat -> Attempt

  datatype Event = Acquired(attempt: nat) | Released(attempt: nat) | Wrote(code: nat)

  datatype Handler = Handler(maxRetries: int, retryCodes: Option<set<nat>>)

  predicate IsRetryCode(h: Handler, code: nat) {
    code in if h.retryCodes.Some? then h.retryCodes.value else {500, 502, 503, 504}
  }

  class ProxyRequest {
    var status: nat
    var attempt: nat
    /** What has been done for the request, in order. */
    var log: seq<Event>

    constructor ()
      ensures status == 200 && attempt == 0 && log == []
    {
      status, attempt, log := 200, 0, [];
    }

    method SendErrorResponse(code: nat)
      modifies this
      ensures status == code && attempt == old(attempt) && log == old(log) + [Wrote(code)]
    {
      status := code;
      log := log + [Wrote(code)];
    }

    method ProxyHTTP(h: Handler, env: Environment)
      modifies this
      ensures log == old(log) + Events(h, env, old(attempt))
      ensures status == FinalStatus(h, env, old(attempt))
      ensures attempt >= old(attempt)
      decreases h.maxRetries - attempt, 1
    {
      var n := attempt;
      var reply := env(n).reply;
      match reply
      case NoAddress(Canceled) => SendErrorResponse(500);
      case NoAddress(DeadlineExceeded) => SendErrorResponse(504);
      case NoAddress(Other) => SendErrorResponse(504);
      case Response(code) => {
        log := log + [Acquired(n)];
        status := code;
        if IsRetryCode(h, code) && n < h.maxRetries {
          HandleError(h, env, true);
        } else {
          log := log + [Wrote(code)];
        }
        log := log + [Released(n)];
      }
      case ConnectionError => {
        log := log + [Acquired(n)];
        HandleError(h, env, false);
        log := log + [Released(n)];
      }
    }

    /** The error handler; `retry` tells the retry marker from a connection error. */
    method HandleError(h: Handler, env: Environment, retry: bool)
      modifies this
      ensures log == old(log) + Handled(h, env, old(attempt), retry)
      ensures status == if Retries(h, env, old(attempt)) then FinalStatus(h, env, old(attempt) + 1)
                        else if retry then old(status) else 502
      ensures attempt >= old(attempt)
      decreases h.maxRetries - attempt, 0
    {
      if !env(attempt).contextDone && attempt < h.maxRetries {
        attempt := attempt + 1;
        ProxyHTTP(h, env);
        return;
      }
      if !retry { SendErrorResponse(502); }
    }
  }

  // ----- what one request does, as a function of the environment

  /** The error handler of attempt `n` starts another attempt. */
  predicate Retries(h: Handler, env: Environment, n: nat) { !env(n).contextDone && n < h.maxRetries }

  function AddressErrorCode(why: AddressError): nat { if why.Canceled? then 500 else 504 }

  function Handled(h: Handler, env: Environment, n: nat, retry: bool): seq<Event>
    decreases h.maxRetries - n, 0
  {
    if Retries(h, env, n) then Events(h, env, n + 1) else if retry then [] else [Wrote(502)]
  }

  function Events(h: Handler, env: Environment, n: nat): seq<Event>
    decreases h.maxRetries - n, 1
  {
    match env(n).reply
    case NoAddress(why) => [Wrote(AddressErrorCode(why))]
    case Response(code) =>
      [Acquired(n)] + (if IsRetryCode(h, code) && n < h.maxRetries then Handled(h, env, n, true) else [Wrote(code)]) + [Released(n)]
    case ConnectionError => [Acquired(n)] + Handled(h, env, n, false) + [Released(n)]
  }

  function FinalStatus(h: Handler, env: Environment, n: nat): nat
    decreases h.maxRetries - n
  {
    match env(n).reply
    case NoAddress(why) => AddressErrorCode(why)
    case Response(code) => if IsRetryCode(h, code) && Retries(h, env, n) then FinalStatus(h, env, n + 1) else code
    case ConnectionError => if Retries(h, env, n) then FinalStatus(h, env, n + 1) else 502
  }

  // ----- the shape of every exchange

  /** The attempt met a failure that may be retried, the context was alive, and retries were left. */
  predicate RetriedAfter(h: Handler, env: Environment, n: nat) {
    && Retries(h, env, n)
    && (env(n).reply.ConnectionError? || (env(n).reply.Response? && IsRetryCode(h, env(n).reply.code)))
  }

  /** A retryable response was taken off the wire but the context was done: nothing is written. */
  predicate Swallowed(h: Handler, env: Environment, n: nat) {
    env(n).reply.Response? && IsRetryCode(h, env(n).reply.code) && n < h.maxRetries && env(n).contextDone
  }

  function Acquires(from: nat, to: nat): seq<Event>
    requires from <= to
    decreases Max(to - from, 0)
  {
    if from == to then [] else [Acquired(from)] + Acquires(from + 1, to)
  }

  function Releases(from: nat, to: nat): seq<Event>
    requires from <= to
    decreases Max(to - from, 0)
  {
    if from == to then [] else Releases(from + 1, to) + [Released(from)]
  }

  /** Every exchange has one shape: leases acquired one after another, at most one response,
      leases released in the opposite order, each once.  `last` is the first attempt that is
      not retried; it holds no lease when no address was found.  Only a swallowed response
      leaves the exchange without one, and otherwise the response carries the final status. */
  lemma {:induction false} ExchangeShape(h: Handler, env: Environment, n: nat) returns (last: nat)
    ensures n <= last && (n <= h.maxRetries ==> last <= h.maxRetries) && (n > h.maxRetries ==> last == n)
    ensures (forall k: nat :: n <= k < last ==> RetriedAfter(h, env, k)) && !RetriedAfter(h, env, last)
    ensures var held := if env(last).reply.NoAddress? then last else last + 1;
            Events(h, env, n) ==
            Acquires(n, held) + (if Swallowed(h, env, last) then [] else [Wrote(FinalStatus(h, env, n))]) + Releases(n, held)
    ensures FinalStatus(h, env, n) == FinalStatus(h, env, last)
    decreases h.maxRetries - n
  {
    if RetriedAfter(h, env, n) {
      last := ExchangeShape(h, env, n + 1);
      var held := if env(last).reply.NoAddress? then last else last + 1;
      var middle := if Swallowed(h, env, last) then [] else [Wrote(FinalStatus(h, env, n + 1))];
      assert Events(h, env, n) == [Acquired(n)] + Events(h, env, n + 1) + [Released(n)];
      assert [Acquired(n)] + (Acquires(n + 1, held) + middle + Releases(n + 1, held)) + [Released(n)]
        == ([Acquired(n)] + Acquires(n + 1, held)) + middle + (Releases(n + 1, held) + [Released(n)]);
    } else {
      last := n;
      assert Acquires(n + 1, n + 1) == [] && Releases(n + 1, n + 1) == [];
    }
  }

  // ----- the codes, written out

  /** With no configured set exactly 500, 502, 503 and 504 are retried, else exactly the codes of
      the set; and a connection error is.  Each needs a live context and a retry left. */
  lemma RetriedInOwnTerms(h: Handler, env: Environment, n: nat)
    ensures RetriedAfter(h, env, n) <==>
            && !env(n).contextDone && n < h.maxRetries
            && match env(n).reply
               case NoAddress(_) => false
               case ConnectionError => true
               case Response(code) =>
                 if h.retryCodes.Some? then code in h.retryCodes.value
                 else code == 500 || code == 502 || code == 503 || code == 504
  {
  }

  /** A response with a code that is not retried, or with no retry left, is written unchanged by
      its own attempt, whatever the context. */
  lemma OtherResponsesAreWritten(h: Handler, env: Environment, n: nat, code: nat)
    requires env(n).reply == Response(code)
    requires n >= h.maxRetries
             || (if h.retryCodes.Some? then code !in h.retryCodes.value
                 else code != 500 && code != 502 && code != 503 && code != 504)
    ensures Events(h, env, n) == [Acquired(n), Wrote(code), Released(n)] && FinalStatus(h, env, n) == code
  {
  }

  /** A response with a code that is retried, met by a finished context, is not written. */
  lemma SwallowedInOwnTerms(h: Handler, env: Environment, n: nat, code: nat)
    requires env(n).reply == Response(code) && n < h.maxRetries && env(n).contextDone
    requires if h.retryCodes.Some? then code in h.retryCodes.value
             else code == 500 || code == 502 || code == 503 || code == 504
    ensures Events(h, env, n) == [Acquired(n), Released(n)]
  {
  }

  /** The final status comes from the reply of the last attempt alone: the code of a response, 502
      for a connection error, 500 for a cancelled wait, 504 for any other failure to find an
      address. */
  lemma StatusFromLastReply(h: Handler, env: Environment) returns (last: nat)
    ensures (forall k: nat :: k < last ==> RetriedAfter(h, env, k)) && !RetriedAfter(h, env, last)
    ensures FinalStatus(h, env, 0) ==
            match env(last).reply
            case Response(code) => code
            case ConnectionError => 502
            case NoAddress(why) => if why == Canceled then 500 else 504
  {
    last := ExchangeShape(h, env, 0);
  }

  /** How many events satisfy one of the tests below. */
  datatype Test = IsResponse | Is(event: Event)

  predicate Passes(e: Event, t: Test) { if t.IsResponse? then e.Wrote? else e == t.event }

  function Count(events: seq<Event>, t: Test): nat {
    if events == [] then 0 else Count(events[..|events| - 1], t) + if Passes(events[|events| - 1], t) then 1 else 0
  }

  lemma {:induction false} CountConcat(a: seq<Event>, b: seq<Event>, t: Test)
    ensures Count(a + b, t) == Count(a, t) + Count(b, t)
  {
    if b == [] {
      assert a + b == a;
    } else {
      CountConcat(a, b[..|b| - 1], t);
      assert (a + b)[..|a + b| - 1] == a + b[..|b| - 1];
    }
  }

  lemma CountOne(e: Event, t: Test)
    ensures Count([e], t) == if Passes(e, t) then 1 else 0
  {
    assert [e][..0] == [];
  }

  /** The test holds of attempt `k`'s acquisition within the range. */
  predicate HitsAcquire(from: nat, to: nat, t: Test) { t.Is? && t.event.Acquired? && from <= t.event.attempt < to }

  predicate HitsRelease(from: nat, to: nat, t: Test) { t.Is? && t.event.Released? && from <= t.event.attempt < to }

  lemma {:induction false} CountAcquires(from: nat, to: nat, t: Test)
    requires from <= to
    ensures Count(Acquires(from, to), t) == if HitsAcquire(from, to, t) then 1 else 0
    decreases Max(to - from, 0)
  {
    if from < to {
      CountAcquires(from + 1, to, t);
      CountConcat([Acquired(from)], Acquires(from + 1, to), t);
      CountOne(Acquired(from), t);
    }
  }

  lemma {:induction false} CountReleases(from: nat, to: nat, t: Test)
    requires from <= to
    ensures Count(Releases(from, to), t) == if HitsRelease(from, to, t) then 1 else 0
    decreases Max(to - from, 0)
  {
    if from < to {
      CountReleases(from + 1, to, t);
      CountConcat(Releases(from + 1, to), [Released(from)], t);
      CountOne(Released(from), t);
    }
  }

  /** Counting over an exchange, part by part. */
  lemma CountExchange(held: nat, middle: seq<Event>, t: Test)
    ensures Count(Acquires(0, held) + middle + Releases(0, held), t) ==
            (if HitsAcquire(0, held, t) then 1 else 0) + Count(middle, t) + (if HitsRelease(0, held, t) then 1 else 0)
  {
    CountAcquires(0, held, t);
    CountReleases(0, held, t);
    CountConcat(Acquires(0, held), middle, t);
    CountConcat(Acquires(0, held) + middle, Releases(0, held), t);
  }

  /** In numbers: at most maxRetries + 1 attempts (one when maxRetries is negative), at most one
      response, and every lease is released exactly once. */
  lemma ExchangeCounts(h: Handler, env: Environment, k: nat)
    ensures var e := Events(h, env, 0);
            && Count(e, Is(Acquired(k))) == Count(e, Is(Released(k))) <= 1
            && (k > Max(h.maxRetries, 0) ==> Count(e, Is(Acquired(k))) == 0)
            && Count(e, IsResponse) <= 1
  {
    hide Events;
    var last := ExchangeShape(h, env, 0);
    var held := if env(last).reply.NoAddress? then last else last + 1;
    var status := Wrote(FinalStatus(h, env, 0));
    var middle := if Swallowed(h, env, last) then [] else [status];
    CountExchange(held, middle, Is(Acquired(k)));
    CountExchange(held, middle, Is(Released(k)));
    CountExchange(held, middle, IsResponse);
    CountOne(status, Is(Acquired(k)));
    CountOne(status, Is(Released(k)));
    CountOne(status, IsResponse);
  }

  /** A request goes unanswered exactly when the first attempt that is not retried had its
      response swallowed; so a context that is never done always leaves one response. */
  lemma AnsweredIff(h: Handler, env: Environment) returns (last: nat)
    ensures (forall k: nat :: k < last ==> RetriedAfter(h, env, k)) && !RetriedAfter(h, env, last)
    ensures Count(Events(h, env, 0), IsResponse) == if Swallowed(h, env, last) then 0 else 1
    ensures (forall k :: !env(k).contextDone) ==> Count(Events(h, env, 0), IsResponse) == 1
  {
    hide Events;
    last := ExchangeShape(h, env, 0);
    var held := if env(last).reply.NoAddress? then last else last + 1;
    var status := Wrote(FinalStatus(h, env, 0));
    CountExchange(held, if Swallowed(h, env, last) then [] else [status], IsResponse);
    CountOne(status, IsResponse);
  }

  /** A retryable response met by a context that is done by then is never written. */
  lemma UnansweredExample() returns (h: Handler, env: Environment)
    ensures Swallowed(h, env, 0) && Count(Events(h, env, 0), IsResponse) == 0
  {
    h, env := Handler(1, None), _ => Attempt(Response(503), true);
    var last := AnsweredIff(h, env);
    assert !RetriedAfter(h, env, 0);
  }

  /** Attempt `n` reaches a backend exactly when all attempts before it were retried and it found
      an address. */
  lemma AttemptMadeIff(h: Handler, env: Environment, n: nat)
    ensures Count(Events(h, env, 0), Is(Acquired(n))) ==
            if (forall k: nat :: k < n ==> RetriedAfter(h, env, k)) && !env(n).reply.NoAddress? then 1 else 0
  {
    hide Events;
    var last := ExchangeShape(h, env, 0);
    var held := if env(last).reply.NoAddress? then last else last + 1;
    var status := Wrote(FinalStatus(h, env, 0));
    CountExchange(held, if Swallowed(h, env, last) then [] else [status], Is(Acquired(n)));
    CountOne(status, Is(Acquired(n)));
    var middle := if Swallowed(h, env, last) then [] else [status];
    assert Count(middle, Is(Acquired(n))) == 0;
    assert !HitsRelease(0, held, Is(Acquired(n)));
    if n < last { assert RetriedAfter(h, env, n); }
    if n > last { assert !(forall k: nat :: k < n ==> RetriedAfter(h, env, k)); }
  }
}
