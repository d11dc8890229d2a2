/** The per-user token bucket that one Lua script keeps in Redis.

    Time is in integer milliseconds, token counts are reals. Every call carries two clocks: `now`, read by the
    calling instance and handed to the script, and `server`, the clock by which Redis expires the key. */
module TokenBucket {
  import opened Wrappers

  // ----- Arithmetic -----

  function Min(x: real, y: real): real {
    if x <= y then x else y
  }

  function Ceil(x: real): (n: int)
    ensures x <= n as real < x + 1.0
  {
    -((-x).Floor)
  }

  lemma CeilIsLeast(x: real, k: int)
    ensures k >= Ceil(x) <==> k as real >= x
  {
    if k < Ceil(x) {
      assert k as real <= Ceil(x) as real - 1.0;
    }
  }

  /** Tokens earned in `ms` milliseconds. */
  function Credit(rate: real, ms: int): real {
    ms as real / 1000.0 * rate
  }

  lemma CreditAdds(rate: real, a: int, b: int)
    ensures Credit(rate, a + b) == Credit(rate, a) + Credit(rate, b)
  {
    assert (a + b) as real / 1000.0 == a as real / 1000.0 + b as real / 1000.0;
  }

  lemma CreditNonNegative(rate: real, ms: int)
    requires rate > 0.0 && ms >= 0
    ensures Credit(rate, ms) >= 0.0
  {
  }

  /** Earning `x` tokens takes `x / rate` seconds: the inverse of Credit. */
  lemma CreditReaches(rate: real, ms: int, x: real)
    requires rate > 0.0
    ensures Credit(rate, ms) >= x <==> ms as real >= x / rate * 1000.0
  {
    var need := x / rate;
    assert need * rate == x;
    var seconds := ms as real / 1000.0;
    if seconds >= need {
      assert rate * (seconds - need) >= 0.0;
      assert rate * (seconds - need) == rate * seconds - rate * need;
    } else {
      assert rate * (need - seconds) > 0.0;
      assert rate * (need - seconds) == rate * need - rate * seconds;
    }
  }

  // ----- One call of the script -----

  const EXPIRY_SLACK_MS := 60000

  datatype Params = Params(capacity: nat, refillPerSec: real) {
    ghost predicate Valid() {
      refillPerSec > 0.0
    }

    /** Time to live given to the key: the time to fill an empty bucket, and some slack. */
    function Ttl(): int
      requires refillPerSec > 0.0
    {
      Ceil(capacity as real / refillPerSec * 1000.0) + EXPIRY_SLACK_MS
    }
  }

  datatype Entry = Entry(tokens: real, updatedAt: int)

  datatype Stored = Stored(entry: Entry, expireAt: int)

  datatype Reply = Reply(allowed: bool, remaining: int, retryAfterMs: int)

  datatype Key = Key(scope: string, userId: int)

  /** What Redis shows of a key at server time `server`. */
  function Visible(stored: Option<Stored>, server: int): Option<Entry> {
    if stored.Some? && server <= stored.value.expireAt then Some(stored.value.entry) else None
  }

  function Elapsed(now: int, since: int): nat {
    if now >= since then now - since else 0
  }

  /** Tokens the script finds in the bucket after its refill. */
  function Refill(p: Params, seen: Option<Entry>, now: int): real {
    match seen
    case None => p.capacity as real
    case Some(e) => Min(p.capacity as real, e.tokens + Credit(p.refillPerSec, Elapsed(now, e.updatedAt)))
  }

  function Allows(p: Params, seen: Option<Entry>, now: int, cost: nat): bool {
    Refill(p, seen, now) >= cost as real
  }

  /** The hash written back by the script. */
  function NextEntry(p: Params, seen: Option<Entry>, now: int, cost: nat): Entry {
    var tokens := Refill(p, seen, now);
    Entry(if tokens >= cost as real then tokens - cost as real else tokens, now)
  }

  /** The retry hint of a denied call. */
  function RetryAfter(p: Params, tokens: real, cost: nat): int
    requires p.refillPerSec > 0.0
  {
    Ceil((cost as real - tokens) / p.refillPerSec * 1000.0)
  }

  /** Redis turns a Lua number in a reply into an integer by dropping the fraction. */
  function Truncate(x: real): int {
    if x >= 0.0 then x.Floor else -((-x).Floor)
  }

  // ----- Traces of calls on one bucket -----

  datatype Call = Call(now: int, server: int, cost: nat)

  /** The bucket after the first `n` calls, when keys never expire. */
  ghost function After(p: Params, calls: seq<Call>, n: nat): Option<Entry>
    requires n <= |calls|
  {
    if n == 0 then None
    else Some(NextEntry(p, After(p, calls, n - 1), calls[n - 1].now, calls[n - 1].cost))
  }

  /** Tokens found by call `n`, after its refill. */
  ghost function Found(p: Params, calls: seq<Call>, n: nat): real
    requires n < |calls|
  {
    Refill(p, After(p, calls, n), calls[n].now)
  }

  ghost predicate Granted(p: Params, calls: seq<Call>, n: nat)
    requires n < |calls|
  {
    Found(p, calls, n) >= calls[n].cost as real
  }

  /** Total cost granted to calls i, ..., j - 1. */
  ghost function Spent(p: Params, calls: seq<Call>, i: nat, j: nat): nat
    requires i <= j <= |calls|
    decreases j
  {
    if i == j then 0
    else Spent(p, calls, i, j - 1) + if Granted(p, calls, j - 1) then calls[j - 1].cost else 0
  }

  /** Forward clock movement between calls i and j: steps back count as zero. */
  ghost function Uptime(calls: seq<Call>, i: nat, j: nat): nat
    requires i <= j < |calls|
    decreases j
  {
    if i == j then 0 else Uptime(calls, i, j - 1) + Elapsed(calls[j].now, calls[j - 1].now)
  }

  /** What a window of calls i, ..., n leaves of one full bucket and the refill earned in it. */
  ghost function WindowLeft(p: Params, calls: seq<Call>, i: nat, n: nat): real
    requires i <= n < |calls|
  {
    p.capacity as real + Credit(p.refillPerSec, Uptime(calls, i, n)) - Spent(p, calls, i, n) as real
  }

  lemma {:induction false} TokensInRange(p: Params, calls: seq<Call>, n: nat)
    requires p.Valid() && n <= |calls|
    ensures n > 0 ==> 0.0 <= After(p, calls, n).value.tokens <= p.capacity as real
    ensures n < |calls| ==> 0.0 <= Found(p, calls, n) <= p.capacity as real
  {
    if n > 0 {
      TokensInRange(p, calls, n - 1);
    }
    if 0 < n < |calls| {
      CreditNonNegative(p.refillPerSec, Elapsed(calls[n].now, calls[n - 1].now));
    }
  }

  lemma FoundStep(p: Params, calls: seq<Call>, n: nat)
    requires p.Valid() && 0 < n < |calls|
    ensures Found(p, calls, n) ==
            Min(p.capacity as real,
                Found(p, calls, n - 1) - Spent(p, calls, n - 1, n) as real
                + Credit(p.refillPerSec, Elapsed(calls[n].now, calls[n - 1].now)))
  {
    assert Spent(p, calls, n - 1, n - 1) == 0;
  }

  lemma WindowLeftStep(p: Params, calls: seq<Call>, i: nat, n: nat)
    requires p.Valid() && i < n < |calls|
    ensures WindowLeft(p, calls, i, n) ==
            WindowLeft(p, calls, i, n - 1) - Spent(p, calls, n - 1, n) as real
            + Credit(p.refillPerSec, Elapsed(calls[n].now, calls[n - 1].now))
  {
    CreditAdds(p.refillPerSec, Uptime(calls, i, n - 1), Elapsed(calls[n].now, calls[n - 1].now));
    assert Spent(p, calls, n - 1, n - 1) == 0;
  }

  /** The bucket never holds more than any window leaves. */
  lemma {:induction false} FoundBelowWindows(p: Params, calls: seq<Call>, i: nat, n: nat)
    requires p.Valid() && i <= n < |calls|
    ensures Found(p, calls, n) <= WindowLeft(p, calls, i, n)
    decreases n
  {
    if i == n {
      TokensInRange(p, calls, n);
      assert Credit(p.refillPerSec, 0) == 0.0;
    } else {
      FoundBelowWindows(p, calls, i, n - 1);
      FoundStep(p, calls, n);
      WindowLeftStep(p, calls, i, n);
    }
  }

  /** ... and some window leaves exactly what it holds. */
  lemma {:induction false} FoundIsSomeWindow(p: Params, calls: seq<Call>, n: nat) returns (i: nat)
    requires p.Valid() && n < |calls|
    ensures i <= n && Found(p, calls, n) == WindowLeft(p, calls, i, n)
  {
    i := n;
    assert Credit(p.refillPerSec, 0) == 0.0;
    if n > 0 && Found(p, calls, n) != p.capacity as real {
      i := FoundIsSomeWindow(p, calls, n - 1);
      FoundStep(p, calls, n);
      WindowLeftStep(p, calls, i, n);
    }
  }

  /** Closed form over whole traces, whatever the clock does: the tokens found are the minimum over all windows
      ending in this call; so a call is denied exactly when some window cannot pay for it. */
  lemma ClosedForm(p: Params, calls: seq<Call>, n: nat)
    requires p.Valid() && n < |calls|
    ensures forall i :: 0 <= i <= n ==> Found(p, calls, n) <= WindowLeft(p, calls, i, n)
    ensures exists i :: 0 <= i <= n && Found(p, calls, n) == WindowLeft(p, calls, i, n)
    ensures !Granted(p, calls, n) <==> exists i :: 0 <= i <= n && WindowLeft(p, calls, i, n) < calls[n].cost as real
  {
    forall i | 0 <= i <= n
      ensures Found(p, calls, n) <= WindowLeft(p, calls, i, n)
    {
      FoundBelowWindows(p, calls, i, n);
    }
    var i := FoundIsSomeWindow(p, calls, n);
  }

  /** Grants in a window never exceed one bucket and the refill earned in it. */
  lemma {:induction false} WindowBound(p: Params, calls: seq<Call>, i: nat, j: nat)
    requires p.Valid() && i <= j < |calls|
    ensures Spent(p, calls, i, j + 1) as real <= p.capacity as real + Credit(p.refillPerSec, Uptime(calls, i, j))
    decreases j
  {
    CreditNonNegative(p.refillPerSec, Uptime(calls, i, j));
    if Granted(p, calls, j) {
      FoundBelowWindows(p, calls, i, j);
    } else if i < j {
      WindowBound(p, calls, i, j - 1);
      CreditAdds(p.refillPerSec, Uptime(calls, i, j - 1), Elapsed(calls[j].now, calls[j - 1].now));
      CreditNonNegative(p.refillPerSec, Elapsed(calls[j].now, calls[j - 1].now));
    } else {
      assert Spent(p, calls, i, i) == 0;
    }
  }

  // ----- Wall-clock reading of the window bound -----

  ghost predicate ClockNeverStepsBack(calls: seq<Call>, i: nat, j: nat)
    requires i <= j < |calls|
  {
    forall k :: i < k <= j ==> calls[k - 1].now <= calls[k].now
  }

  /** The refill credited over a window is its wall-clock length exactly when the clock never steps back in it. */
  lemma {:induction false} UptimeIsWallClock(calls: seq<Call>, i: nat, j: nat)
    requires i <= j < |calls|
    ensures Uptime(calls, i, j) >= calls[j].now - calls[i].now
    ensures Uptime(calls, i, j) == calls[j].now - calls[i].now <==> ClockNeverStepsBack(calls, i, j)
    decreases j
  {
    if i < j {
      UptimeIsWallClock(calls, i, j - 1);
    }
  }

  /** The promise made to several instances: with clocks that never step back, any wall-clock window is bounded. */
  lemma WallClockBound(p: Params, calls: seq<Call>, i: nat, j: nat)
    requires p.Valid() && i <= j < |calls| && ClockNeverStepsBack(calls, i, j)
    ensures Spent(p, calls, i, j + 1) as real <=
            p.capacity as real + Credit(p.refillPerSec, calls[j].now - calls[i].now)
  {
    WindowBound(p, calls, i, j);
    UptimeIsWallClock(calls, i, j);
    SameLength(Spent(p, calls, i, j + 1) as real, p.capacity as real, p.refillPerSec,
               Uptime(calls, i, j), calls[j].now - calls[i].now);
  }

  lemma SameLength(spent: real, capacity: real, rate: real, uptime: int, wall: int)
    requires uptime == wall && spent <= capacity + Credit(rate, uptime)
    ensures spent <= capacity + Credit(rate, wall)
  {
  }

  /** One instance whose clock is a second late breaks it: two grants at the same instant from a bucket of one. */
  lemma SteppingBackBreaksWallClockBound()
    ensures var p := Params(1, 1.0);
            var calls := [Call(1000, 0, 1), Call(0, 1, 1), Call(1000, 2, 1)];
            && Spent(p, calls, 0, 3) == 2
            && p.capacity as real + Credit(p.refillPerSec, calls[2].now - calls[0].now) == 1.0
  {
    var p := Params(1, 1.0);
    var calls := [Call(1000, 0, 1), Call(0, 1, 1), Call(1000, 2, 1)];
    assert After(p, calls, 1) == Some(Entry(0.0, 1000));
    assert After(p, calls, 2) == Some(Entry(0.0, 0));
    assert Granted(p, calls, 0) && !Granted(p, calls, 1) && Granted(p, calls, 2);
    assert Spent(p, calls, 0, 1) == 1;
    assert Spent(p, calls, 0, 2) == 1;
  }

  // ----- Key expiry -----

  /** The stored key after `n` calls, when Redis drops it at its time to live. */
  ghost function StoredAfter(p: Params, calls: seq<Call>, n: nat): Option<Stored>
    requires p.Valid() && n <= |calls|
  {
    if n == 0 then None
    else
      var c := calls[n - 1];
      Some(Stored(NextEntry(p, Visible(StoredAfter(p, calls, n - 1), c.server), c.now, c.cost), c.server + p.Ttl()))
  }

  /** Between two calls the server clock runs ahead of the callers' clocks by at most the slack and a millisecond. */
  ghost predicate ClocksAgree(calls: seq<Call>) {
    forall k :: 0 < k < |calls| ==>
      calls[k].server - calls[k - 1].server <= Elapsed(calls[k].now, calls[k - 1].now) + EXPIRY_SLACK_MS + 1
  }

  /** Expiry is invisible: the same tokens are found, and the same hash is written, as if keys lived forever. */
  lemma {:induction false} ExpiryInvisible(p: Params, calls: seq<Call>, n: nat)
    requires p.Valid() && n <= |calls| && ClocksAgree(calls)
    ensures n > 0 ==> StoredAfter(p, calls, n).value.entry == After(p, calls, n).value
    ensures n < |calls| ==>
              Refill(p, Visible(StoredAfter(p, calls, n), calls[n].server), calls[n].now) == Found(p, calls, n)
  {
    if n > 0 {
      ExpiryInvisible(p, calls, n - 1);
      if n < |calls| && calls[n].server > StoredAfter(p, calls, n).value.expireAt {
        var elapsed := Elapsed(calls[n].now, calls[n - 1].now);
        assert elapsed >= p.Ttl() - EXPIRY_SLACK_MS;
        CeilIsLeast(p.capacity as real / p.refillPerSec * 1000.0, elapsed);
        CreditReaches(p.refillPerSec, elapsed, p.capacity as real);
        TokensInRange(p, calls, n);
      }
    }
  }

  // ----- Retry hints -----

  /** No call in i, ..., j - 1 takes anything out of the bucket. */
  ghost predicate Quiet(p: Params, calls: seq<Call>, i: nat, j: nat)
    requires i <= j <= |calls|
  {
    forall k :: i <= k < j ==> !Granted(p, calls, k) || calls[k].cost == 0
  }

  lemma {:induction false} QuietRefill(p: Params, calls: seq<Call>, n: nat, m: nat)
    requires p.Valid() && n <= m < |calls| && Quiet(p, calls, n, m) && ClockNeverStepsBack(calls, n, m)
    ensures Found(p, calls, m) ==
            Min(p.capacity as real, Found(p, calls, n) + Credit(p.refillPerSec, calls[m].now - calls[n].now))
    decreases m
  {
    TokensInRange(p, calls, n);
    if n < m {
      QuietRefill(p, calls, n, m - 1);
      FoundStep(p, calls, m);
      assert Spent(p, calls, m - 1, m - 1) == 0;
      CreditAdds(p.refillPerSec, calls[m - 1].now - calls[n].now, calls[m].now - calls[m - 1].now);
      CreditNonNegative(p.refillPerSec, calls[m].now - calls[m - 1].now);
    } else {
      assert Credit(p.refillPerSec, 0) == 0.0;
    }
  }

  ghost function Hint(p: Params, calls: seq<Call>, n: nat): int
    requires p.Valid() && n < |calls|
  {
    RetryAfter(p, Found(p, calls, n), calls[n].cost)
  }

  /** The hint of a denied call is exact to the millisecond: as long as nothing else is granted, the same request is
      allowed from `retry_after_ms` on and not a millisecond before, however many probes are denied in between. */
  lemma RetryAfterIsExact(p: Params, calls: seq<Call>, n: nat, m: nat)
    requires p.Valid() && n < m < |calls| && ClockNeverStepsBack(calls, n, m)
    requires !Granted(p, calls, n) && Quiet(p, calls, n, m)
    requires calls[m].cost == calls[n].cost <= p.capacity
    ensures Hint(p, calls, n) >= 1
    ensures Granted(p, calls, m) <==> calls[m].now >= calls[n].now + Hint(p, calls, n)
  {
    QuietRefill(p, calls, n, m);
    var missing := calls[n].cost as real - Found(p, calls, n);
    CreditReaches(p.refillPerSec, calls[m].now - calls[n].now, missing);
    CreditReaches(p.refillPerSec, 0, missing);
    var wait := missing / p.refillPerSec * 1000.0;
    CeilIsLeast(wait, calls[m].now - calls[n].now);
    CeilIsLeast(wait, 0);
  }

  /** A request above the capacity is never granted, so its hint is worthless. */
  lemma OversizedNeverGranted(p: Params, calls: seq<Call>, n: nat)
    requires p.Valid() && n < |calls| && calls[n].cost > p.capacity
    ensures !Granted(p, calls, n)
  {
    TokensInRange(p, calls, n);
  }

  /** The Retry-After header, in seconds. */
  function HeaderSeconds(retryAfterMs: int): (seconds: int)
    ensures seconds >= 1
  {
    var seconds := (retryAfterMs + 999) / 1000;
    if seconds > 1 then seconds else 1
  }

  /** The header is the least whole number of seconds after which the request is allowed. */
  lemma HeaderIsLeast(p: Params, calls: seq<Call>, n: nat, m: nat, seconds: nat)
    requires p.Valid() && n < m < |calls| && ClockNeverStepsBack(calls, n, m)
    requires !Granted(p, calls, n) && Quiet(p, calls, n, m)
    requires calls[m].cost == calls[n].cost <= p.capacity
    requires calls[m].now == calls[n].now + 1000 * seconds
    ensures Granted(p, calls, m) <==> seconds >= HeaderSeconds(Hint(p, calls, n))
  {
    RetryAfterIsExact(p, calls, n, m);
  }

  // ----- The reported remainder -----

  /** How many of `k` calls of cost one at the same instant are granted. */
  ghost function Burst(p: Params, e: Entry, k: nat): nat
    decreases k
  {
    if k == 0 then 0
    else
      (if Allows(p, Some(e), e.updatedAt, 1) then 1 else 0)
      + Burst(p, NextEntry(p, Some(e), e.updatedAt, 1), k - 1)
  }

  /** `remaining` is the number of further unit requests that would be granted at this instant. */
  lemma {:induction false} RemainingIsBurst(p: Params, e: Entry, k: nat)
    requires p.Valid() && 0.0 <= e.tokens <= p.capacity as real
    ensures Burst(p, e, k) == if k <= Truncate(e.tokens) then k else Truncate(e.tokens)
    decreases k
  {
    if k > 0 {
      assert Credit(p.refillPerSec, 0) == 0.0;
      assert Refill(p, Some(e), e.updatedAt) == e.tokens;
      RemainingIsBurst(p, NextEntry(p, Some(e), e.updatedAt, 1), k - 1);
    }
  }

  // ----- The limiter -----

  datatype Logged = Logged(p: Params, call: Call)

  ghost function CallsOf(made: seq<Logged>): (calls: seq<Call>)
    ensures |calls| == |made|
    ensures forall k :: 0 <= k < |made| ==> calls[k] == made[k].call
  {
    if made == [] then [] else CallsOf(made[..|made| - 1]) + [made[|made| - 1].call]
  }

  ghost predicate Uniform(p: Params, made: seq<Logged>) {
    forall k :: 0 <= k < |made| ==> made[k].p == p
  }

  /** The key holds what the trace of the calls made on it says. */
  ghost predicate Traced(stored: Option<Stored>, made: seq<Logged>) {
    && (stored.Some? <==> made != [])
    && forall p: Params :: p.Valid() && Uniform(p, made) ==> stored == StoredAfter(p, CallsOf(made), |made|)
  }

  lemma {:induction false} StoredPrefix(p: Params, calls: seq<Call>, more: seq<Call>, n: nat)
    requires p.Valid() && n <= |calls| <= |more| && forall k :: 0 <= k < |calls| ==> more[k] == calls[k]
    ensures StoredAfter(p, more, n) == StoredAfter(p, calls, n)
  {
    if n > 0 {
      StoredPrefix(p, calls, more, n - 1);
    }
  }

  lemma TracedBefore(q: Params, stored: Option<Stored>, made: seq<Logged>, call: Logged)
    requires q.Valid() && Traced(stored, made) && Uniform(q, made + [call])
    ensures call.p == q && Uniform(q, made)
    ensures StoredAfter(q, CallsOf(made + [call]), |made|) == stored
    ensures CallsOf(made + [call])[|made|] == call.call
  {
    var all := made + [call];
    assert all[|made|] == call;
    assert forall k :: 0 <= k < |made| ==> made[k] == all[k];
    StoredPrefix(q, CallsOf(made), CallsOf(all), |made|);
  }

  lemma TracedCall(p: Params, stored: Option<Stored>, made: seq<Logged>, c: Call)
    requires p.Valid() && Traced(stored, made)
    ensures Traced(Some(Stored(NextEntry(p, Visible(stored, c.server), c.now, c.cost), c.server + p.Ttl())),
                   made + [Logged(p, c)])
  {
    forall q: Params | q.Valid() && Uniform(q, made + [Logged(p, c)])
      ensures q == p && StoredAfter(q, CallsOf(made + [Logged(p, c)]), |made|) == stored
      ensures CallsOf(made + [Logged(p, c)])[|made|] == c
    {
      TracedBefore(q, stored, made, Logged(p, c));
    }
  }

  /** The reply of a call is the one that the trace of all calls made calls for. */
  ghost predicate Answers(p: Params, made: seq<Logged>, allowed: bool, retryAfterMs: int)
    requires p.Valid() && made != []
  {
    && (allowed <==> Granted(p, CallsOf(made), |made| - 1))
    && (!allowed ==> retryAfterMs == Hint(p, CallsOf(made), |made| - 1))
  }

  lemma TracedReply(p: Params, stored: Option<Stored>, made: seq<Logged>, c: Call, allowed: bool, retryAfterMs: int)
    requires p.Valid() && Traced(stored, made)
    requires var found := Refill(p, Visible(stored, c.server), c.now);
             && allowed == (found >= c.cost as real)
             && retryAfterMs == if allowed then 0 else RetryAfter(p, found, c.cost)
    ensures var all := made + [Logged(p, c)];
            Uniform(p, all) && ClocksAgree(CallsOf(all)) ==> Answers(p, all, allowed, retryAfterMs)
  {
    var all := made + [Logged(p, c)];
    if Uniform(p, all) && ClocksAgree(CallsOf(all)) {
      TracedBefore(p, stored, made, Logged(p, c));
      ExpiryInvisible(p, CallsOf(all), |made|);
      assert Found(p, CallsOf(all), |made|) == Refill(p, Visible(stored, c.server), c.now);
    }
  }

  ghost predicate AllTraced(store: map<Key, Stored>, log: map<Key, seq<Logged>>) {
    && store.Keys == log.Keys
    && forall key :: key in log ==> Traced(Some(store[key]), log[key])
  }

  lemma AllTracedUpdate(store: map<Key, Stored>, log: map<Key, seq<Logged>>, key: Key, next: Stored, made: seq<Logged>)
    requires AllTraced(store, log) && Traced(Some(next), made)
    ensures AllTraced(store[key := next], log[key := made])
  {
  }

  class RateLimiter {
    var store: map<Key, Stored>
    /** All calls made so far on each key. */
    ghost var log: map<Key, seq<Logged>>

    ghost predicate Valid()
      reads this
    {
      AllTraced(store, log)
    }

    ghost function Made(key: Key): seq<Logged>
      reads this
    {
      if key in log then log[key] else []
    }

    constructor ()
      ensures Valid() && store == map[] && log == map[]
    {
      store := map[];
      log := map[];
    }

    /** The script between its read and its write. */
    static method Evaluate(p: Params, data: Option<Entry>, now: int, cost: nat)
      returns (tokens: real, allowed: bool, retryAfterMs: int)
      requires p.Valid()
      ensures Entry(tokens, now) == NextEntry(p, data, now, cost)
      ensures allowed == (Refill(p, data, now) >= cost as real)
      ensures retryAfterMs == if allowed then 0 else RetryAfter(p, Refill(p, data, now), cost)
      ensures var size := p.capacity as real;
              var found :=
                if data.Some? then
                  var elapsed := if now >= data.value.updatedAt then now - data.value.updatedAt else 0;
                  Min(size, data.value.tokens + elapsed as real / 1000.0 * p.refillPerSec)
                else size;
              && (allowed <==> found >= cost as real)
              && tokens == (if allowed then found - cost as real else found)
              && retryAfterMs == (if allowed then 0 else Ceil((cost as real - found) / p.refillPerSec * 1000.0))
    {
      tokens := p.capacity as real;
      var updatedAt := now;
      if data.Some? {
        tokens, updatedAt := data.value.tokens, data.value.updatedAt;
      }
      var elapsedMs := if now - updatedAt > 0 then now - updatedAt else 0;
      tokens := Min(p.capacity as real, tokens + Credit(p.refillPerSec, elapsedMs));
      allowed, retryAfterMs := false, 0;
      if tokens >= cost as real {
        tokens := tokens - cost as real;
        allowed := true;
      } else {
        retryAfterMs := RetryAfter(p, tokens, cost);
      }
    }

    /** One atomic evaluation of the script. Only the caller's own bucket is touched. When all calls on it carry the same
        parameters and the clocks agree, the reply is the one its whole trace of calls calls for. */
    method Consume(key: Key, p: Params, now: int, server: int, cost: nat) returns (r: Reply)
      requires Valid() && p.Valid()
      modifies this
      ensures Valid() && log == old(log)[key := old(Made(key)) + [Logged(p, Call(now, server, cost))]]
      ensures key in store && store == old(store)[key := store[key]]
      ensures store[key].entry.updatedAt == now
      ensures store[key].expireAt == server + Ceil(p.capacity as real / p.refillPerSec * 1000.0) + 60000
      ensures var seen :=
                if key in old(store) && server <= old(store)[key].expireAt then Some(old(store)[key].entry) else None;
              var found := Refill(p, seen, now);
              var left := store[key].entry.tokens;
              && (r.allowed <==> found >= cost as real)
              && left == (if r.allowed then found - cost as real else found)
              && r.retryAfterMs == (if r.allowed then 0 else RetryAfter(p, found, cost))
              && (left >= 0.0 ==> r.remaining as real <= left < r.remaining as real + 1.0)
      ensures Uniform(p, log[key]) && ClocksAgree(CallsOf(log[key])) ==> Answers(p, log[key], r.allowed, r.retryAfterMs)
    {
      ghost var stored := if key in store then Some(store[key]) else None;
      ghost var made, call := Made(key), Call(now, server, cost);
      var data := if key in store && server <= store[key].expireAt then Some(store[key].entry) else None;
      assert data == Visible(stored, server);
      var tokens, allowed, retryAfterMs := Evaluate(p, data, now, cost);
      TracedReply(p, stored, made, call, allowed, retryAfterMs);
      TracedCall(p, stored, made, call);
      AllTracedUpdate(store, log, key, Stored(Entry(tokens, now), server + p.Ttl()), made + [Logged(p, call)]);
      store := store[key := Stored(Entry(tokens, now), server + p.Ttl())];
      log := log[key := made + [Logged(p, call)]];
      r := Reply(allowed, Truncate(tokens), retryAfterMs);
    }
  }
}
