/** Which pending entries of the stream one XAUTOCLAIM hands over: it starts at the oldest, looks at no more than ten
    entries for each one asked for, and takes those that have been idle long enough. */
module PendingClaims {

  const SCAN_FACTOR := 10

  /** The delivered, unsettled entries below n, in stream order. */
  function Pending(settled: set<nat>, n: nat): (ids: seq<nat>)
    ensures forall k :: 0 <= k < |ids| ==> ids[k] < n && ids[k] !in settled
  {
    if n == 0 then []
    else Pending(settled, n - 1) + if n - 1 in settled then [] else [n - 1]
  }

  function Idle(ids: seq<nat>, idle: set<nat>): (r: seq<nat>)
    ensures |r| <= |ids| && forall k :: 0 <= k < |r| ==> r[k] in ids && r[k] in idle
  {
    if ids == [] then []
    else (if ids[0] in idle then [ids[0]] else []) + Idle(ids[1..], idle)
  }

  function FirstOf(ids: seq<nat>, count: nat): (r: seq<nat>)
    ensures forall id :: id in r ==> id in ids
  {
    if |ids| <= count then ids else ids[..count]
  }

  function Claimable(settled: set<nat>, delivered: nat, idle: set<nat>, count: nat): seq<nat> {
    FirstOf(Idle(FirstOf(Pending(settled, delivered), SCAN_FACTOR * count), idle), count)
  }

  lemma {:induction false} PendingFrom(settled: set<nat>, m: nat, n: nat) returns (rest: seq<nat>)
    requires m <= n
    ensures Pending(settled, n) == Pending(settled, m) + rest
    ensures forall k :: 0 <= k < |rest| ==> rest[k] >= m
  {
    rest := [];
    if m < n {
      rest := PendingFrom(settled, m, n - 1);
      rest := rest + if n - 1 in settled then [] else [n - 1];
    }
  }

  lemma {:induction false} IdleConcat(a: seq<nat>, b: seq<nat>, idle: set<nat>)
    ensures Idle(a + b, idle) == Idle(a, idle) + Idle(b, idle)
  {
    if a == [] {
      assert a + b == b;
    } else {
      var first := if a[0] in idle then [a[0]] else [];
      assert (a + b)[1..] == a[1..] + b;
      IdleConcat(a[1..], b, idle);
      assert first + (Idle(a[1..], idle) + Idle(b, idle)) == first + Idle(a[1..], idle) + Idle(b, idle);
    }
  }

  lemma ScanNext(settled: set<nat>, id: nat, idle: set<nat>)
    ensures |Pending(settled, id + 1)| == |Pending(settled, id)| + if id in settled then 0 else 1
    ensures Idle(Pending(settled, id + 1), idle) ==
            Idle(Pending(settled, id), idle) + if id !in settled && id in idle then [id] else []
  {
    IdleConcat(Pending(settled, id), [id], idle);
    assert Idle([id], idle) == if id in idle then [id] else [];
    assert Pending(settled, id) + [] == Pending(settled, id);
  }

  lemma FirstOfConcat(a: seq<nat>, b: seq<nat>, count: nat) returns (rest: seq<nat>)
    requires |a| <= count
    ensures FirstOf(a + b, count) == a + rest && (|a| == count || b == [] ==> rest == [])
    ensures forall id :: id in rest ==> id in b
  {
    rest := FirstOf(b, count - |a|);
    if |a + b| > count {
      assert (a + b)[..count] == a + b[..count - |a|];
    }
  }

  /** A scan from the oldest entry may stop when it has seen all entries, looked at enough, or claimed enough. */
  lemma ScanDone(settled: set<nat>, n: nat, delivered: nat, idle: set<nat>, count: nat)
    requires n <= delivered
    requires |Pending(settled, n)| <= SCAN_FACTOR * count && |Idle(Pending(settled, n), idle)| <= count
    requires
      || n == delivered
      || |Pending(settled, n)| == SCAN_FACTOR * count
      || |Idle(Pending(settled, n), idle)| == count
    ensures Claimable(settled, delivered, idle, count) == Idle(Pending(settled, n), idle)
  {
    var seen := Pending(settled, n);
    var rest := PendingFrom(settled, n, delivered);
    assert n == delivered ==> rest == [];
    var more := FirstOfConcat(seen, rest, SCAN_FACTOR * count);
    IdleConcat(seen, more, idle);
    var late := FirstOfConcat(Idle(seen, idle), Idle(more, idle), count);
  }

  /** An entry is claimed if and only if it is pending and idle, fewer than ten times the batch are pending before it,
      and fewer than the batch of these are idle. So idle entries behind many fresh ones are out of reach: the next
      call starts at the oldest again. */
  lemma ClaimedIff(settled: set<nat>, delivered: nat, idle: set<nat>, count: nat, id: nat)
    ensures id in Claimable(settled, delivered, idle, count) <==>
            && id < delivered && id !in settled && id in idle
            && |Pending(settled, id)| < 10 * count && |Idle(Pending(settled, id), idle)| < count
  {
    if id < delivered && id !in settled && id in idle {
      var before := Pending(settled, id);
      var rest := PendingFrom(settled, id + 1, delivered);
      var all := Pending(settled, delivered);
      assert all == before + [id] + rest == before + ([id] + rest);
      if |before| >= SCAN_FACTOR * count {
        assert forall k :: k in FirstOf(all, SCAN_FACTOR * count) ==> k in before;
      } else {
        var more := FirstOfConcat(before + [id], rest, SCAN_FACTOR * count);
        IdleConcat(before + [id], more, idle);
        IdleConcat(before, [id], idle);
        assert Idle([id], idle) == [id];
        TakenIff(Idle(before, idle), id, Idle(more, idle), count);
      }
    }
  }

  lemma TakenIff(before: seq<nat>, id: nat, after: seq<nat>, count: nat)
    requires id !in before
    ensures id in FirstOf(before + [id] + after, count) <==> |before| < count
  {
    var all := before + [id] + after;
    assert all[|before|] == id;
    if |before| < count {
      assert FirstOf(all, count)[|before|] == id;
    } else {
      assert all[..count] == before[..count];
    }
  }

  ghost predicate Ascending(ids: seq<nat>) {
    forall i, j :: 0 <= i < j < |ids| ==> ids[i] < ids[j]
  }

  lemma {:induction false} PendingAscending(settled: set<nat>, n: nat)
    ensures Ascending(Pending(settled, n))
  {
    if n > 0 {
      PendingAscending(settled, n - 1);
    }
  }

  lemma AscendingCons(first: nat, rest: seq<nat>)
    requires Ascending(rest) && forall k :: 0 <= k < |rest| ==> first < rest[k]
    ensures Ascending([first] + rest)
  {
  }

  lemma {:induction false} IdleAscending(ids: seq<nat>, idle: set<nat>)
    requires Ascending(ids)
    ensures Ascending(Idle(ids, idle))
  {
    if ids != [] {
      var rest := Idle(ids[1..], idle);
      IdleAscending(ids[1..], idle);
      forall k | 0 <= k < |rest|
        ensures ids[0] < rest[k]
      {
        var i :| 0 <= i < |ids[1..]| && ids[1..][i] == rest[k];
        assert ids[i + 1] == rest[k];
      }
      AscendingCons(ids[0], rest);
    }
  }

  /** What is claimed is at most a batch, from the oldest entry on. */
  lemma ClaimedInOrder(settled: set<nat>, delivered: nat, idle: set<nat>, count: nat)
    ensures |Claimable(settled, delivered, idle, count)| <= count
    ensures Ascending(Claimable(settled, delivered, idle, count))
  {
    PendingAscending(settled, delivered);
    IdleAscending(FirstOf(Pending(settled, delivered), SCAN_FACTOR * count), idle);
  }

  lemma {:induction false} AllPending(n: nat)
    ensures |Pending({}, n)| == n
  {
    if n > 0 {
      AllPending(n - 1);
    }
  }

  /** Behind ten fresh entries for each one asked for, an idle entry is out of reach, though it is the only idle one and
      nothing at all is claimed. */
  lemma IdleBehindFresh(count: nat)
    ensures var id := 10 * count;
            && id in Pending({}, id + 1) && Idle(Pending({}, id + 1), {id}) == [id]
            && Claimable({}, id + 1, {id}, count) == []
  {
    var id := SCAN_FACTOR * count;
    AllPending(id);
    assert Pending({}, id + 1) == Pending({}, id) + [id];
    NoneIdle(Pending({}, id), {id});
    IdleConcat(Pending({}, id), [id], {id});
    assert Pending({}, id + 1)[..id] == Pending({}, id);
  }

  lemma {:induction false} NoneIdle(ids: seq<nat>, idle: set<nat>)
    requires forall id :: id in ids ==> id !in idle
    ensures Idle(ids, idle) == []
  {
    if ids != [] {
      NoneIdle(ids[1..], idle);
    }
  }
}
