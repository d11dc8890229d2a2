/** The two workers as they run, command by command, while other processes run between their commands: the ingest
    worker's loop over the stream, and the handlers of both. Their runs are runs of the retry machine. */
module Workers {
  import opened PendingClaims
  import opened RetryQueue

  /** A run of the machine from its initial state, event by event. */
  ghost predicate IsRun(w: Worker, states: seq<State>, log: seq<Event>) {
    && |states| == |log| + 1
    && states[0] == INIT
    && forall i :: 0 <= i < |log| ==> states[i + 1] == Next(w, states[i], log[i])
  }

  lemma {:induction false} IsRunExec(w: Worker, states: seq<State>, log: seq<Event>, n: nat)
    requires IsRun(w, states, log) && n <= |log|
    ensures states[n] == Exec(w, log[..n])
  {
    if n > 0 {
      IsRunExec(w, states, log, n - 1);
      assert log[..n][..n - 1] == log[..n - 1];
    }
  }

  function Between(lo: nat, hi: nat): (ks: set<nat>)
    ensures forall k :: k in ks <==> lo <= k < hi
    decreases hi - lo
  {
    if lo >= hi then {} else {lo} + Between(lo + 1, hi)
  }

  /** Is this a step of one of the runs `mine`? */
  predicate Own(e: Event, mine: set<nat>) {
    (e.Do? || e.Lose? || e.Refuse? || e.Crash?) && e.k in mine
  }

  /** What the steps of others leave alone: messages do not change, and each run is stepped by its own process. */
  ghost predicate Keeps(s: State, s': State, mine: set<nat>) {
    && |s.entries| <= |s'.entries| && (forall i :: 0 <= i < |s.entries| ==> s'.entries[i] == s.entries[i])
    && |s.runs| <= |s'.runs| && (forall k :: 0 <= k < |s.runs| && k in mine ==> s'.runs[k] == s.runs[k])
  }

  lemma OthersKeep(w: Worker, s: State, e: Event, mine: set<nat>)
    requires !Own(e, mine)
    ensures Keeps(s, Next(w, s, e), mine)
  {
  }

  datatype Reply = Success | Exception | Killed

  class Broker {
    const worker: Worker
    const batchSize: nat
    var st: State
    ghost var log: seq<Event>
    ghost var states: seq<State>
    ghost var handed: set<nat>     // the runs that reads and claims have handed to this worker
    ghost var turns: nat           // how often its loop has turned

    constructor (worker: Worker, batchSize: nat)
      ensures Valid() && this.worker == worker && this.batchSize == batchSize && st == INIT && handed == {} && turns == 0
    {
      this.worker, this.batchSize, st, log, states := worker, batchSize, INIT, [], [INIT];
      handed, turns := {}, 0;
    }

    ghost predicate Valid()
      reads this
    {
      IsRun(worker, states, log) && st == states[|log|] && Safe(st) && Closed(st)
    }

    method Apply(e: Event)
      requires Valid()
      modifies this`st, this`log, this`states
      ensures Valid() && log == old(log) + [e] && st == Next(worker, old(st), e)
    {
      SafeStep(worker, st, e);
      ClosedStep(worker, st, e);
      st := Next(worker, st, e);
      log, states := log + [e], states + [st];
    }

    /** Other processes take any number of steps. */
    method Others(mine: set<nat>)
      requires Valid()
      modifies this`st, this`log, this`states
      ensures Valid() && Keeps(old(st), st, mine)
    {
      var n: nat := *;
      while n > 0
        invariant Valid() && Keeps(old(st), st, mine)
      {
        var e: Event := *;
        if !Own(e, mine) {
          OthersKeep(worker, st, e, mine);
          Apply(e);
        }
        n := n - 1;
      }
    }

    /** Run k issues its next command: it succeeds, raises with or without effect, or the process dies. */
    method Issue(k: nat, command: Command, resolved: bool, mine: set<nat>) returns (reply: Reply)
      requires Valid() && k in mine && Active(st, k) && st.runs[k].pc == command
      modifies this`st, this`log, this`states
      ensures Valid() && Keeps(old(st), st, mine - {k}) && st.runs[k].id == old(st.runs[k].id)
      ensures var entry := old(st.entries[st.runs[k].id]);
              st.runs[k].pc == match reply
                case Success => Advance(worker, entry, command, resolved)
                case Exception => Throw(worker, entry, command)
                case Killed => Died
    {
      Others(mine);
      reply := *;
      match reply
      case Success => Apply(Do(k, resolved));
      case Killed => Apply(Crash(k));
      case Exception =>
        var effective: bool := *;
        if effective {
          Apply(Lose(k, resolved));
        } else {
          Apply(Refuse(k));
        }
    }

    /** XREADGROUP: the next messages of the stream, at most a batch, each given to a new run. */
    method Read(mine: set<nat>) returns (lo: nat, hi: nat)
      requires Valid() && forall k :: k in mine ==> k < |st.runs|
      modifies this`st, this`log, this`states, this`handed
      ensures Valid() && Keeps(old(st), st, mine)
      ensures |old(st.runs)| <= lo <= hi == |st.runs| && hi - lo <= batchSize
      ensures forall k :: lo <= k < hi ==> st.runs[k].pc == Parse && st.runs[k].id < |st.entries|
      ensures forall k :: lo <= k < hi ==> st.runs[k].id + (hi - k) == st.delivered
      ensures hi - lo < batchSize ==> st.delivered >= |st.entries|
      ensures handed == old(handed) + Between(lo, hi)
    {
      Others(mine);
      lo := |st.runs|;
      hi := lo;
      ghost var before := st;
      while hi - lo < batchSize && st.delivered < |st.entries|
        invariant Valid() && Keeps(old(st), st, mine)
        invariant handed == old(handed) && st.entries == before.entries && hi == |st.runs| && lo <= hi <= lo + batchSize
        invariant forall k :: lo <= k < hi ==> st.runs[k].pc == Parse && st.runs[k].id < |st.entries|
        invariant forall k :: lo <= k < hi ==> st.runs[k].id + (hi - k) == st.delivered
        decreases batchSize - (hi - lo)
      {
        var id := st.delivered;
        Apply(Deliver);
        Apply(Start(id));
        hi := hi + 1;
      }
      handed := handed + Between(lo, hi);
    }

    /** XAUTOCLAIM: of the oldest pending messages, those that have been idle too long, at most a batch. */
    method ClaimPending(idle: set<nat>, mine: set<nat>) returns (lo: nat, hi: nat, ghost claimed: seq<nat>)
      requires Valid() && forall k :: k in mine ==> k < |st.runs|
      modifies this`st, this`log, this`states, this`handed
      ensures Valid() && Keeps(old(st), st, mine)
      ensures |old(st.runs)| <= lo <= hi == |st.runs|
      ensures claimed == Claimable(st.settled, st.delivered, idle, batchSize) && hi - lo == |claimed|
      ensures forall k :: lo <= k < hi ==> st.runs[k] == Run(claimed[k - lo], Parse)
      ensures handed == old(handed) + Between(lo, hi)
    {
      Others(mine);
      lo := |st.runs|;
      hi := lo;
      claimed := [];
      var id, attempts := 0, SCAN_FACTOR * batchSize;
      ghost var before := st;
      while attempts > 0 && hi - lo < batchSize && id < st.delivered
        invariant Valid() && Keeps(old(st), st, mine)
        invariant handed == old(handed) && st == before.(runs := st.runs) && id <= st.delivered
        invariant |before.runs| == lo <= hi == |st.runs| && hi - lo == |claimed| <= batchSize
        invariant attempts >= 0 && |Pending(before.settled, id)| + attempts == SCAN_FACTOR * batchSize
        invariant claimed == Idle(Pending(before.settled, id), idle)
        invariant forall k :: lo <= k < hi ==> st.runs[k] == Run(claimed[k - lo], Parse)
        decreases st.delivered - id
      {
        ScanNext(before.settled, id, idle);
        if id !in st.settled {
          attempts := attempts - 1;
          if id in idle {
            Apply(Start(id));
            hi := hi + 1;
            claimed := claimed + [id];
          }
        }
        id := id + 1;
      }
      ScanDone(before.settled, id, st.delivered, idle, batchSize);
      handed := handed + Between(lo, hi);
    }

    /** The work itself, then the acknowledgement. */
    method CommitAndAck(k: nat, message: Entry, mine: set<nat>) returns (reply: Reply)
      requires Valid() && k in mine && Active(st, k) && st.runs[k].pc == Commit
      requires st.entries[st.runs[k].id] == message
      modifies this`st, this`log, this`states
      ensures Valid() && Keeps(old(st), st, mine - {k}) && st.runs[k].id == old(st.runs[k].id)
      ensures st.runs[k].pc == match reply
                case Success => After
                case Exception => Fail(worker, message)
                case Killed => Died
    {
      reply := Issue(k, Commit, true, mine);
      if reply.Success? {
        reply := Issue(k, AckDone, true, mine);
      }
    }

    /** Where a handling that failed ends: with a retry, unless the count in the message, or none, is used up. */
    function GivenUp(message: Entry): Command {
      if (if message.retry.Number? then message.retry.n else 0) < worker.maxRetries then Superseded else Buried
    }

    /** The ingest worker handles one message. */
    method HandleIngest(k: nat, mine: set<nat>) returns (died: bool)
      requires Valid() && worker.kind.Stream? && k in mine && Active(st, k) && st.runs[k].pc == Parse
      modifies this`st, this`log, this`states
      ensures Valid() && Keeps(old(st), st, mine - {k}) && st.runs[k].id == old(st.runs[k].id)
      ensures Ended(st.runs[k].pc) && (st.runs[k].pc == Died <==> died)
      ensures var message := old(st.entries[st.runs[k].id]);
              if message.poison then died
              else if !message.valid then !died ==> st.runs[k].pc == Buried
              else !died ==> st.runs[k].pc == Done || st.runs[k].pc == GivenUp(message)
    {
      var message := st.entries[st.runs[k].id];
      var reply := Issue(k, Parse, true, mine);
      if !reply.Success? || message.poison {
        return true;
      }
      if !message.valid {
        died := SendToDlq(k, mine);
        return;
      }
      reply := CommitAndAck(k, message, mine);
      if reply.Success? {
        reply := Issue(k, After, true, mine);
      }
      if reply.Exception? {
        died := HandleFailure(k, message, mine);
      } else {
        died := reply.Killed?;
      }
    }

    /** The analysis worker handles one delivery. */
    method HandleAnalysis(k: nat, mine: set<nat>) returns (died: bool, resolved: bool)
      requires Valid() && worker.kind.Rabbit? && k in mine && Active(st, k) && st.runs[k].pc == Parse
      modifies this`st, this`log, this`states
      ensures Valid() && Keeps(old(st), st, mine - {k}) && st.runs[k].id == old(st.runs[k].id)
      ensures Ended(st.runs[k].pc) && (st.runs[k].pc == Died <==> died)
      ensures var message := old(st.entries[st.runs[k].id]);
              if !message.valid then !died ==> st.runs[k].pc == Buried
              else if !resolved then !died ==> st.runs[k].pc == GivenUp(message)
              else !died ==> st.runs[k].pc == Done || st.runs[k].pc == GivenUp(message)
    {
      var message := st.entries[st.runs[k].id];
      died := true;
      resolved := *;
      var reply := Issue(k, Parse, resolved, mine);
      if !reply.Success? {
        return;
      }
      if !message.valid {
        died := SendToDlq(k, mine);
        return;
      }
      if !resolved {
        died := HandleFailure(k, message, mine);
        return;
      }
      reply := CommitAndAck(k, message, mine);
      if reply.Success? {
        reply := Issue(k, After, true, mine);
        if reply.Exception? {
          died := false;
          return;
        }
      }
      if reply.Exception? {
        died := HandleFailure(k, message, mine);
      } else {
        died := reply.Killed?;
      }
    }

    /** Publish the retry, then settle the message; or give it up. An exception here escapes the handler. */
    method HandleFailure(k: nat, message: Entry, mine: set<nat>) returns (died: bool)
      requires Valid() && k in mine && Active(st, k) && st.entries[st.runs[k].id] == message
      requires st.runs[k].pc == Fail(worker, message)
      modifies this`st, this`log, this`states
      ensures Valid() && Keeps(old(st), st, mine - {k}) && st.runs[k].id == old(st.runs[k].id)
      ensures st.runs[k].pc == if died then Died else GivenUp(message)
    {
      var retryCount := ReadRetryCount(message.retry);
      if retryCount < worker.maxRetries {
        var reply := Issue(k, Requeue, true, mine);
        if reply.Success? {
          reply := Issue(k, AckRequeue, true, mine);
        }
        died := !reply.Success?;
      } else {
        died := SendToDlq(k, mine);
      }
    }

    /** Copy the message to the dead-letter stream and acknowledge it, or have the broker dead-letter it. */
    method SendToDlq(k: nat, mine: set<nat>) returns (died: bool)
      requires Valid() && k in mine && Active(st, k) && st.runs[k].pc == Bury
      modifies this`st, this`log, this`states
      ensures Valid() && Keeps(old(st), st, mine - {k}) && st.runs[k].id == old(st.runs[k].id)
      ensures st.runs[k].pc == if died then Died else Buried
    {
      var reply := Issue(k, Bury, true, mine);
      if reply.Success? && worker.kind.Stream? {
        reply := Issue(k, AckBuried, true, mine);
      }
      died := !reply.Success?;
    }

    /** Handle the messages of one batch in turn; when one of them kills the process, the rest die with it. */
    method HandleAll(lo: nat, hi: nat, mine: set<nat>) returns (died: bool)
      requires Valid() && worker.kind.Stream? && lo <= hi <= |st.runs|
      requires forall k :: lo <= k < hi ==> k in mine && Active(st, k) && st.runs[k].pc == Parse
      modifies this`st, this`log, this`states
      ensures Valid() && Keeps(old(st), st, mine - Between(lo, hi))
      ensures hi <= |st.runs| && forall k :: lo <= k < hi ==> Ended(st.runs[k].pc)
      ensures !died ==> forall k :: lo <= k < hi ==> !st.runs[k].pc.Died?
      ensures died ==> exists k :: lo <= k < hi && st.runs[k].pc.Died?
      ensures lo == hi ==> st == old(st)
    {
      died := false;
      ghost var batch, victim := Between(lo, hi), lo;
      var k := lo;
      while k < hi
        invariant Valid() && lo <= k <= hi <= |st.runs| && Keeps(old(st), st, mine - batch)
        invariant k == lo ==> st == old(st)
        invariant forall m :: k <= m < hi ==> Active(st, m) && st.runs[m].pc == Parse
        invariant forall m :: lo <= m < k ==> Ended(st.runs[m].pc)
        invariant !died ==> forall m :: lo <= m < k ==> !st.runs[m].pc.Died?
        invariant died ==> lo <= victim < k && st.runs[victim].pc.Died?
      {
        if died {
          Apply(Crash(k));
        } else {
          died := HandleIngest(k, mine);
          victim := k;
        }
        k := k + 1;
      }
    }

    /** Pending messages of stalled consumers first, else new ones. */
    method Receive(mine: set<nat>) returns (lo: nat, hi: nat)
      requires Valid() && forall k :: k in mine ==> k < |st.runs|
      modifies this`st, this`log, this`states, this`handed
      ensures Valid() && Keeps(old(st), st, mine) && |old(st.runs)| <= lo <= hi == |st.runs|
      ensures handed == old(handed) + Between(lo, hi)
      ensures forall k :: lo <= k < hi ==> Active(st, k) && st.runs[k].pc == Parse
      ensures lo == hi ==> batchSize == 0 || st.delivered >= |st.entries|
    {
      var idle: set<nat> := *;
      ghost var claimed;
      lo, hi, claimed := ClaimPending(idle, mine);
      if lo == hi {
        lo, hi := Read(mine);
      }
    }

    /** One turn of the loop: pending messages of stalled consumers first, else new ones, one after the other. It gets
        none only when all messages have been delivered. */
    method Turn(before: set<nat>) returns (died: bool, mine: set<nat>)
      requires Valid() && worker.kind.Stream? && forall k :: k in before ==> k < |st.runs|
      modifies this`st, this`log, this`states, this`handed, this`turns
      ensures Valid() && Keeps(old(st), st, before) && before <= mine
      ensures turns == old(turns) + 1
      ensures handed == old(handed) + (mine - before)
      ensures mine == before ==> batchSize == 0 || st.delivered >= |st.entries|
      ensures forall k :: k in mine - before ==> |old(st.runs)| <= k < |st.runs| && Ended(st.runs[k].pc)
      ensures !died ==> forall k :: k in mine - before ==> !st.runs[k].pc.Died?
      ensures died ==> exists k :: k in mine - before && st.runs[k].pc.Died?
    {
      turns := turns + 1;
      var lo, hi := Receive(before);
      mine := before + Between(lo, hi);
      assert mine - before == Between(lo, hi);
      died := HandleAll(lo, hi, mine);
    }

    /** The ingest worker's loop. Every message it was handed by the time it stops is settled and accounted for, unless
        the process died. */
    method RunIngest(rounds: nat) returns (died: bool, mine: set<nat>)
      requires Valid() && worker.kind.Stream?
      modifies this`st, this`log, this`states, this`handed, this`turns
      ensures Valid() && handed == old(handed) + mine
      ensures if died then turns <= old(turns) + rounds else turns == old(turns) + rounds
      ensures forall k :: k in mine ==> |old(st.runs)| <= k < |st.runs| && Ended(st.runs[k].pc)
      ensures !died ==> forall k :: k in mine ==> st.runs[k].id in st.settled && Covered(st, st.runs[k].id)
      ensures died ==> exists k :: k in mine && st.runs[k].pc.Died?
    {
      mine, died := {}, false;
      var round := 0;
      while round < rounds && !died
        invariant Valid() && |old(st.runs)| <= |st.runs| && handed == old(handed) + mine
        invariant round <= rounds && turns == old(turns) + round
        invariant forall k :: k in mine ==> |old(st.runs)| <= k < |st.runs| && Ended(st.runs[k].pc)
        invariant !died ==> forall k :: k in mine ==> !st.runs[k].pc.Died?
        invariant died ==> exists k :: k in mine && st.runs[k].pc.Died?
      {
        ghost var before := mine;
        died, mine := Turn(mine);
        assert forall k :: k in mine ==> k in before || k in mine - before;
        round := round + 1;
      }
    }
  }
}
