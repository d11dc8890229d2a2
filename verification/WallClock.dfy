/** The token bucket when clocks disagree: exactly which clock readings its bound over wall-clock windows, and the
    invisibility of its key expiry, survive. */
module WallClock {
  import opened Wrappers
  import opened TokenBucket

  predicate SameClocks(calls: seq<Call>, other: seq<Call>) {
    && |calls| == |other|
    && forall k :: 0 <= k < |calls| ==> other[k].now == calls[k].now && other[k].server == calls[k].server
  }

  ghost predicate WithinWallClock(p: Params, calls: seq<Call>, i: nat, j: nat)
    requires p.Valid() && i <= j < |calls|
  {
    Spent(p, calls, i, j + 1) as real <= p.capacity as real + Credit(p.refillPerSec, calls[j].now - calls[i].now)
  }

  /** The same clock readings, with one token asked for by calls i and j and none by the others. */
  function Probes(calls: seq<Call>, i: nat, j: nat): (other: seq<Call>)
    ensures SameClocks(calls, other)
    ensures forall k :: 0 <= k < |calls| ==> other[k].cost == if k == i || k == j then 1 else 0
  {
    seq(|calls|, k requires 0 <= k < |calls| => calls[k].(cost := if k == i || k == j then 1 else 0))
  }

  lemma {:induction false} SameUptime(calls: seq<Call>, other: seq<Call>, i: nat, j: nat)
    requires i <= j < |calls| && SameClocks(calls, other)
    ensures Uptime(other, i, j) == Uptime(calls, i, j)
    decreases j
  {
    if i < j {
      SameUptime(calls, other, i, j - 1);
    }
  }

  lemma {:induction false} FullBefore(p: Params, calls: seq<Call>, i: nat, j: nat, n: nat)
    requires p.Valid() && p.capacity == 1 && n <= i < j < |calls|
    ensures Found(p, Probes(calls, i, j), n) == 1.0
  {
    var probes := Probes(calls, i, j);
    if n > 0 {
      FullBefore(p, calls, i, j, n - 1);
      FoundStep(p, probes, n);
      assert Spent(p, probes, n - 1, n - 1) == 0;
      CreditNonNegative(p.refillPerSec, Elapsed(probes[n].now, probes[n - 1].now));
    }
  }

  /** After the first probe the bucket holds what has been credited since. */
  lemma {:induction false} RefilledSince(p: Params, calls: seq<Call>, i: nat, j: nat, n: nat)
    requires p.Valid() && p.capacity == 1 && i < n <= j < |calls|
    ensures Found(p, Probes(calls, i, j), n) == Min(1.0, Credit(p.refillPerSec, Uptime(Probes(calls, i, j), i, n)))
    ensures Spent(p, Probes(calls, i, j), i, n) == 1
    decreases n
  {
    var probes := Probes(calls, i, j);
    var elapsed := Elapsed(probes[n].now, probes[n - 1].now);
    FullBefore(p, calls, i, j, i);
    FoundStep(p, probes, n);
    CreditNonNegative(p.refillPerSec, elapsed);
    assert Spent(p, probes, n - 1, n - 1) == 0;
    if n - 1 == i {
      assert Uptime(probes, i, i) == 0;
    } else {
      RefilledSince(p, calls, i, j, n - 1);
      CreditAdds(p.refillPerSec, Uptime(probes, i, n - 1), elapsed);
    }
  }

  lemma QuotientBelowOne(a: int, b: int)
    requires a < b && b > 0
    ensures Credit(1000.0 / b as real, b) == 1.0
    ensures Credit(1000.0 / b as real, a) < 1.0
  {
    var rate := 1000.0 / b as real;
    assert rate * b as real == 1000.0;
    assert rate > 0.0;
    assert rate * (b - a) as real > 0.0;
    assert rate * (b - a) as real == rate * b as real - rate * a as real;
  }

  /** A step back in the window: these two probes are too many for it. */
  lemma StepBackBreaksBound(calls: seq<Call>, i: nat, j: nat) returns (p: Params)
    requires i <= j < |calls| && !ClockNeverStepsBack(calls, i, j)
    ensures p.Valid() && !WithinWallClock(p, Probes(calls, i, j), i, j)
  {
    var probes := Probes(calls, i, j);
    var wall, up := calls[j].now - calls[i].now, Uptime(calls, i, j);
    UptimeIsWallClock(calls, i, j);
    SameUptime(calls, probes, i, j);
    p := Params(1, if up > 0 then 1000.0 / up as real else 1.0);
    RefilledSince(p, calls, i, j, j);
    if up > 0 {
      QuotientBelowOne(wall, up);
      assert Granted(p, probes, j);
    }
  }

  /** The wall-clock bound holds for all parameters and all costs of the calls if and only if the clock never steps back
      in the window. */
  lemma WallClockBoundIff(calls: seq<Call>, i: nat, j: nat)
    requires i <= j < |calls|
    ensures
      (forall p: Params, other: seq<Call> :: p.Valid() && SameClocks(calls, other) ==> WithinWallClock(p, other, i, j))
      <==> ClockNeverStepsBack(calls, i, j)
  {
    if ClockNeverStepsBack(calls, i, j) {
      forall p: Params, other: seq<Call> | p.Valid() && SameClocks(calls, other)
        ensures WithinWallClock(p, other, i, j)
      {
        WallClockBound(p, other, i, j);
      }
    } else {
      var p := StepBackBreaksBound(calls, i, j);
      assert SameClocks(calls, Probes(calls, i, j));
    }
  }

  // ----- Expiry -----

  ghost predicate ExpiryHidden(p: Params, calls: seq<Call>)
    requires p.Valid()
  {
    forall n :: 0 <= n < |calls| ==>
      Refill(p, Visible(StoredAfter(p, calls, n), calls[n].server), calls[n].now) == Found(p, calls, n)
  }

  lemma JustNotFull(elapsed: nat) returns (p: Params)
    ensures p.Valid() && p.capacity == 1 && p.Ttl() == elapsed + 1 + EXPIRY_SLACK_MS
    ensures Credit(p.refillPerSec, elapsed) < 1.0
  {
    var ms := elapsed as real + 0.5;
    p := Params(1, 1000.0 / ms);
    assert 1000.0 / ms > 0.0;
    assert p.refillPerSec * ms == 1000.0;
    assert 1.0 / p.refillPerSec * 1000.0 == ms;
    CeilIsLeast(ms, elapsed + 1);
    CeilIsLeast(ms, elapsed);
    assert p.refillPerSec * 0.5 > 0.0;
    assert p.refillPerSec * (ms - 0.5) == p.refillPerSec * ms - p.refillPerSec * 0.5;
  }

  /** A server clock that runs further ahead drops a key whose bucket is not full yet. */
  lemma DisagreementShows(calls: seq<Call>, k: nat) returns (p: Params)
    requires 0 < k < |calls|
    requires calls[k].server - calls[k - 1].server > Elapsed(calls[k].now, calls[k - 1].now) + EXPIRY_SLACK_MS + 1
    ensures p.Valid() && !ExpiryHidden(p, Probes(calls, k - 1, k))
  {
    var probes := Probes(calls, k - 1, k);
    var elapsed := Elapsed(probes[k].now, probes[k - 1].now);
    p := JustNotFull(elapsed);
    RefilledSince(p, calls, k - 1, k, k);
    assert Uptime(probes, k - 1, k - 1) == 0;
    assert Found(p, probes, k) < 1.0;
    assert StoredAfter(p, probes, k).value.expireAt == probes[k - 1].server + p.Ttl();
    assert Visible(StoredAfter(p, probes, k), probes[k].server) == None;
  }

  /** Key expiry is invisible for all parameters and all costs of the calls if and only if the clocks agree that far. */
  lemma ExpiryInvisibleIff(calls: seq<Call>)
    ensures (forall p: Params, other: seq<Call> :: p.Valid() && SameClocks(calls, other) ==> ExpiryHidden(p, other))
            <==> ClocksAgree(calls)
  {
    if ClocksAgree(calls) {
      forall p: Params, other: seq<Call> | p.Valid() && SameClocks(calls, other)
        ensures ExpiryHidden(p, other)
      {
        forall n | 0 <= n < |other|
          ensures Refill(p, Visible(StoredAfter(p, other, n), other[n].server), other[n].now) == Found(p, other, n)
        {
          ExpiryInvisible(p, other, n);
        }
      }
    } else {
      var k :| 0 < k < |calls|
        && calls[k].server - calls[k - 1].server > Elapsed(calls[k].now, calls[k - 1].now) + EXPIRY_SLACK_MS + 1;
      var p := DisagreementShows(calls, k);
      assert SameClocks(calls, Probes(calls, k - 1, k));
    }
  }
}
