/** What comes after a message is acknowledged, and which messages can still be settled or followed up at all.

    The ingest worker acknowledges its entry before it tracks the batch and requests the analysis, so a settled entry
    may still have its follow-up to come. */
module FollowUps {
  import opened Wrappers
  import opened RetryQueue
  import opened RetryBounds

  /** The follow-up was carried out, or is in the hands of a retry or of the dead-letter queue. */
  ghost predicate Attended(s: State, id: nat) {
    id in s.followed || HasSuccessor(s.entries, id) || id in s.dead
  }

  ghost predicate Pursued(s: State, id: nat) {
    exists k :: 0 <= k < |s.runs| && s.runs[k].id == id && FollowUpDue(s.runs[k].pc)
  }

  ghost predicate Explained(s: State, id: nat) {
    id in s.settled ==> Attended(s, id) || id in s.cut || Pursued(s, id)
  }

  lemma AttendedStays(w: Worker, s: State, e: Event, id: nat)
    requires Attended(s, id)
    ensures Attended(Next(w, s, e), id)
  {
    forall entry: Entry
      ensures HasSuccessor(s.entries, id) ==> HasSuccessor(s.entries + [entry], id)
    {
      SuccessorAdded(s.entries, entry, id);
    }
  }

  /** The run whose step touches the message leaves it explained. */
  lemma ExplainedStep(w: Worker, s: State, e: Event, id: nat)
    requires w.kind.Stream? && Safe(s) && Explained(s, id)
    ensures Explained(Next(w, s, e), id)
  {
    var s' := Next(w, s, e);
    if Attended(s, id) {
      AttendedStays(w, s, e, id);
    } else if (e.Do? || e.Lose? || e.Refuse? || e.Crash?) && Active(s, e.k) && s.runs[e.k].id == id {
      assert RunCovered(s, s.runs[e.k]);
      OwnStep(w, s, e, id);
    } else if Pursued(s, id) {
      var m :| 0 <= m < |s.runs| && s.runs[m].id == id && FollowUpDue(s.runs[m].pc);
      assert m < |s'.runs| && s'.runs[m] == s.runs[m];
    }
  }

  lemma OwnStep(w: Worker, s: State, e: Event, id: nat)
    requires w.kind.Stream? && (e.Do? || e.Lose? || e.Refuse? || e.Crash?) && Active(s, e.k)
    requires RunCovered(s, s.runs[e.k]) && s.runs[e.k].id == id && !Attended(s, id) && Explained(s, id)
    ensures Explained(Next(w, s, e), id)
  {
    var s', k := Next(w, s, e), e.k;
    var pc, pc' := s.runs[k].pc, s'.runs[k].pc;
    if pc == Requeue && (e.Do? || e.Lose?) {
      SuccessorAdded(s.entries, Successor(s.entries[id], id), id);
    }
    assert FollowUpDue(pc') ==> Pursued(s', id) by {
      assert s'.runs[k].id == id;
    }
    if Pursued(s, id) && !FollowUpDue(pc) {
      var m :| 0 <= m < |s.runs| && s.runs[m].id == id && FollowUpDue(s.runs[m].pc);
      assert s'.runs[m] == s.runs[m];
    }
  }

  /** In every run of the ingest worker, a settled message was followed up, or has a successor, or is dead-lettered,
      or a run of it is between its acknowledgement and its follow-up or retry, or died there. */
  lemma {:induction false} FollowedUpOrCut(w: Worker, events: seq<Event>, id: nat)
    requires w.kind.Stream?
    ensures Explained(Exec(w, events), id)
    decreases |events|
  {
    if events != [] {
      FollowedUpOrCut(w, events[..|events| - 1], id);
      SafeRun(w, events[..|events| - 1]);
      ExplainedStep(w, Exec(w, events[..|events| - 1]), events[|events| - 1], id);
    }
  }

  // ----- Continuations -----

  lemma ExecAppend(w: Worker, events: seq<Event>, e: Event)
    ensures Exec(w, events + [e]) == Next(w, Exec(w, events), e)
  {
    assert (events + [e])[..|events|] == events;
  }

  lemma EntriesKept(w: Worker, s: State, e: Event, id: nat)
    requires id < |s.entries|
    ensures id < |Next(w, s, e).entries| && Next(w, s, e).entries[id] == s.entries[id]
  {
  }

  lemma {:induction false} EntriesStay(w: Worker, events: seq<Event>, more: seq<Event>, id: nat)
    requires id < |Exec(w, events).entries|
    ensures id < |Exec(w, events + more).entries| && Exec(w, events + more).entries[id] == Exec(w, events).entries[id]
    decreases |more|
  {
    if more == [] {
      assert events + more == events;
    } else {
      var init := more[..|more| - 1];
      EntriesStay(w, events, init, id);
      assert events + more == events + init + [more[|more| - 1]];
      ExecAppend(w, events + init, more[|more| - 1]);
      EntriesKept(w, Exec(w, events + init), more[|more| - 1], id);
    }
  }

  predicate Poison(w: Worker, entry: Entry) {
    w.kind.Stream? && entry.poison
  }

  function Rank(pc: Command): nat {
    match pc
    case Parse => 6
    case Commit => 5
    case AckDone => 4
    case After => 3
    case Requeue => 2
    case Bury => 2
    case AckRequeue => 1
    case AckBuried => 1
    case _ => 0
  }

  lemma DoStep(w: Worker, s: State, k: nat)
    requires Active(s, k) && !Poison(w, s.entries[s.runs[k].id])
    ensures var s', id := Next(w, s, Do(k, true)), s.runs[k].id;
            && |s'.runs| == |s.runs| && s'.runs[k].id == id && id < |s'.entries| && s'.entries[id] == s.entries[id]
            && Rank(s'.runs[k].pc) < Rank(s.runs[k].pc) && !s'.runs[k].pc.Died?
            && (s'.runs[k].pc.Done? ==> id in s'.followed)
  {
  }

  /** An active run of a message that is no poison can come to its end, and leaves its message settled and attended. */
  lemma {:induction false} RunToEnd(w: Worker, events: seq<Event>, k: nat) returns (more: seq<Event>)
    requires Active(Exec(w, events), k)
    requires !Poison(w, Exec(w, events).entries[Exec(w, events).runs[k].id])
    ensures var id := Exec(w, events).runs[k].id;
            id in Exec(w, events + more).settled && Attended(Exec(w, events + more), id)
    decreases Rank(Exec(w, events).runs[k].pc)
  {
    var s, e := Exec(w, events), Do(k, true);
    DoStep(w, s, k);
    ExecAppend(w, events, e);
    var s' := Exec(w, events + [e]);
    if Ended(s'.runs[k].pc) {
      more := [e];
      SafeRun(w, events + [e]);
      ClosedRun(w, events + [e]);
      assert RunCovered(s', s'.runs[k]);
    } else {
      var rest := RunToEnd(w, events + [e], k);
      more := [e] + rest;
      assert events + more == events + [e] + rest;
    }
  }

  // ----- Which messages can still be settled -----

  lemma {:induction false} DeliverUpTo(w: Worker, events: seq<Event>, id: nat) returns (more: seq<Event>)
    requires id < |Exec(w, events).entries|
    ensures var s, s' := Exec(w, events), Exec(w, events + more);
            id < s'.delivered && s' == s.(delivered := s'.delivered)
    decreases |Exec(w, events).entries| - Exec(w, events).delivered, id + 1 - Exec(w, events).delivered
  {
    if id < Exec(w, events).delivered {
      more := [];
      assert events + more == events;
    } else {
      ExecAppend(w, events, Deliver);
      var rest := DeliverUpTo(w, events + [Deliver], id);
      more := [Deliver] + rest;
      assert events + more == events + [Deliver] + rest;
    }
  }

  /** After any events, an unsettled message can still be settled if and only if it is not one whose expected count is
      not a number, read by the ingest worker. */
  lemma CanSettleIffNotPoison(w: Worker, events: seq<Event>, id: nat)
    requires id < |Exec(w, events).entries| && id !in Exec(w, events).settled
    ensures (exists more :: id in Exec(w, events + more).settled) <==> !Poison(w, Exec(w, events).entries[id])
  {
    if Poison(w, Exec(w, events).entries[id]) {
      forall more
        ensures id !in Exec(w, events + more).settled
      {
        EntriesStay(w, events, more, id);
        PoisonIsForever(w, events + more);
      }
    } else {
      var more := ReachSettled(w, events, id);
    }
  }

  lemma Regroup(a: seq<Event>, b: seq<Event>, c: seq<Event>, d: seq<Event>)
    ensures a + (b + c + d) == a + b + c + d
  {
  }

  lemma Starts(w: Worker, s: State, id: nat)
    requires id < s.delivered && id < |s.entries| && id !in s.settled
    ensures var s' := Next(w, s, Start(id));
            Active(s', |s.runs|) && s'.runs[|s.runs|].id == id && s'.entries == s.entries
  {
  }

  lemma ReachSettled(w: Worker, events: seq<Event>, id: nat) returns (more: seq<Event>)
    requires id < |Exec(w, events).entries| && id !in Exec(w, events).settled && !Poison(w, Exec(w, events).entries[id])
    ensures id in Exec(w, events + more).settled
  {
    var deliver := DeliverUpTo(w, events, id);
    var delivered := events + deliver;
    var s := Exec(w, delivered);
    Starts(w, s, id);
    ExecAppend(w, delivered, Start(id));
    var rest := RunToEnd(w, delivered + [Start(id)], |s.runs|);
    more := deliver + [Start(id)] + rest;
    Regroup(events, deliver, [Start(id)], rest);
  }

  // ----- What is committed -----

  /** Event n of the run is a run of message `id` that reads it as valid, with its document known. */
  ghost predicate AcceptedAt(w: Worker, events: seq<Event>, n: nat, k: nat, id: nat) {
    && n < |events| && (events[n] == Do(k, true) || (w.kind.Stream? && events[n] == Do(k, false)))
    && var s := Exec(w, events[..n]);
       && Active(s, k) && s.runs[k].id == id && s.runs[k].pc == Parse
       && s.entries[id].valid && !Poison(w, s.entries[id])
  }

  lemma AcceptedStill(w: Worker, events: seq<Event>, n: nat, k: nat, id: nat)
    requires events != [] && AcceptedAt(w, events[..|events| - 1], n, k, id)
    ensures AcceptedAt(w, events, n, k, id)
  {
    assert events[..|events| - 1][..n] == events[..n];
  }

  lemma CommitStep(w: Worker, s: State, e: Event, k: nat)
    requires k < |Next(w, s, e).runs| && Next(w, s, e).runs[k].pc == Commit
    ensures k < |s.runs| && Next(w, s, e).runs[k].id == s.runs[k].id
    ensures s.runs[k].pc == Commit ||
            (&& e.Do? && e.k == k && Active(s, k) && s.runs[k].pc == Parse && (w.kind.Rabbit? ==> e.resolved)
             && s.entries[s.runs[k].id].valid && !Poison(w, s.entries[s.runs[k].id]))
  {
  }

  lemma {:induction false} CommittingWasAccepted(w: Worker, events: seq<Event>, k: nat) returns (n: nat)
    requires k < |Exec(w, events).runs| && Exec(w, events).runs[k].pc == Commit
    ensures AcceptedAt(w, events, n, k, Exec(w, events).runs[k].id)
    decreases |events|
  {
    n := |events| - 1;
    var init, e := events[..n], events[n];
    CommitStep(w, Exec(w, init), e, k);
    if Exec(w, init).runs[k].pc == Commit {
      n := CommittingWasAccepted(w, init, k);
      AcceptedStill(w, events, n, k, Exec(w, init).runs[k].id);
    }
  }

  lemma CommittedStep(w: Worker, s: State, e: Event, id: nat)
    requires id in Next(w, s, e).committed
    ensures id in s.committed ||
            ((e.Do? || e.Lose?) && Active(s, e.k) && s.runs[e.k].pc == Commit && s.runs[e.k].id == id)
  {
  }

  /** In every run of either worker, what is committed was read as valid by some handler, and by the analysis worker
      with its document known. */
  lemma {:induction false} CommittedWasAccepted(w: Worker, events: seq<Event>, id: nat) returns (n: nat, k: nat)
    requires id in Exec(w, events).committed
    ensures AcceptedAt(w, events, n, k, id)
    decreases |events|
  {
    var init, e := events[..|events| - 1], events[|events| - 1];
    CommittedStep(w, Exec(w, init), e, id);
    if id in Exec(w, init).committed {
      n, k := CommittedWasAccepted(w, init, id);
    } else {
      k := e.k;
      n := CommittingWasAccepted(w, init, k);
    }
    AcceptedStill(w, events, n, k, id);
  }

  /** Event n of the run kills run k of message `id`, which has acknowledged it or is about to give it up. */
  ghost predicate DiesAt(w: Worker, events: seq<Event>, n: nat, k: nat, id: nat) {
    && n < |events| && (events[n].Lose? || events[n].Refuse? || events[n].Crash?) && events[n].k == k
    && var s, s' := Exec(w, events[..n]), Exec(w, events[..n + 1]);
       && Active(s, k) && s.runs[k].id == id && k < |s'.runs| && s'.runs[k].pc == Died
       && (s.runs[k].pc == After || s.runs[k].pc == Requeue || s.runs[k].pc == Bury)
  }

  lemma CutStep(w: Worker, s: State, e: Event, id: nat)
    requires id in Next(w, s, e).cut && id !in s.cut
    ensures (e.Lose? || e.Refuse? || e.Crash?) && Active(s, e.k) && s.runs[e.k].id == id
    ensures Next(w, s, e).runs[e.k].pc == Died
    ensures s.runs[e.k].pc == After || s.runs[e.k].pc == Requeue || s.runs[e.k].pc == Bury
  {
  }

  /** A follow-up counts as cut only when a handler died over the message. */
  lemma {:induction false} CutByDeath(w: Worker, events: seq<Event>, id: nat) returns (n: nat, k: nat)
    requires id in Exec(w, events).cut
    ensures DiesAt(w, events, n, k, id)
    decreases |events|
  {
    n := |events| - 1;
    var init, e := events[..n], events[n];
    assert events[..n + 1] == events;
    if id in Exec(w, init).cut {
      n, k := CutByDeath(w, init, id);
      assert init[..n] == events[..n] && init[..n + 1] == events[..n + 1];
    } else {
      CutStep(w, Exec(w, init), e, id);
      k := e.k;
    }
  }

  // ----- Which follow-ups are lost for good -----

  ghost predicate InHand(s: State, id: nat) {
    exists k: nat :: Active(s, k) && s.runs[k].id == id
  }

  lemma NotInHandStep(w: Worker, s: State, e: Event, id: nat)
    requires id in s.settled && id < |s.entries| && !InHand(s, id)
    ensures !InHand(Next(w, s, e), id)
  {
    var s' := Next(w, s, e);
    if k: nat :| Active(s', k) && s'.runs[k].id == id {
      assert !Active(s, k) || s.runs[k].id != id;
    }
  }

  lemma NotAttendedStep(w: Worker, s: State, e: Event, id: nat)
    requires !Attended(s, id) && !InHand(s, id)
    ensures !Attended(Next(w, s, e), id)
  {
    var s' := Next(w, s, e);
    if (e.Do? || e.Lose?) && Active(s, e.k) {
      assert s.runs[e.k].id != id;
    }
    if |s'.entries| > |s.entries| {
      NewEntry(s.entries, s'.entries[|s.entries|], id);
    }
  }

  lemma {:induction false} UnattendedForever(w: Worker, events: seq<Event>, more: seq<Event>, id: nat)
    requires var s := Exec(w, events); id in s.settled && id < |s.entries| && !Attended(s, id) && !InHand(s, id)
    ensures var s := Exec(w, events + more); id in s.settled && id < |s.entries| && !Attended(s, id) && !InHand(s, id)
    decreases |more|
  {
    if more == [] {
      assert events + more == events;
    } else {
      var init, e := more[..|more| - 1], more[|more| - 1];
      var s := Exec(w, events + init);
      UnattendedForever(w, events, init, id);
      assert events + more == events + init + [e];
      ExecAppend(w, events + init, e);
      EntriesKept(w, s, e, id);
      NotInHandStep(w, s, e, id);
      NotAttendedStep(w, s, e, id);
    }
  }

  /** A settled message can still be attended to if and only if it is, or a handler has it in hand. */
  lemma CanFollowUpIffInHand(w: Worker, events: seq<Event>, id: nat)
    requires id in Exec(w, events).settled
    ensures (exists more :: Attended(Exec(w, events + more), id)) <==>
            Attended(Exec(w, events), id) || InHand(Exec(w, events), id)
  {
    var s := Exec(w, events);
    if Attended(s, id) {
      assert events + [] == events;
    } else if k: nat :| Active(s, k) && s.runs[k].id == id {
      if w.kind.Stream? {
        PoisonIsForever(w, events);
      }
      var more := RunToEnd(w, events, k);
    } else {
      ClosedRun(w, events);
      forall more
        ensures !Attended(Exec(w, events + more), id)
      {
        UnattendedForever(w, events, more, id);
      }
    }
  }

  /** A valid message is produced, handed out and read. */
  lemma UpToParse(w: Worker) returns (events: seq<Event>)
    ensures Exec(w, events) ==
            State([Entry(7, true, false, Absent, 0, None, 0)], 1, {}, {}, {}, {}, [], [Run(0, Commit)])
  {
    events := [Produce(7, true, false, Absent)];
    assert events[..0] == [];
    ExecAppend(w, events, Deliver);
    events := events + [Deliver];
    ExecAppend(w, events, Start(0));
    events := events + [Start(0)];
    ExecAppend(w, events, Do(0, true));
    events := events + [Do(0, true)];
  }

  lemma UpToCommit(w: Worker) returns (events: seq<Event>)
    ensures Exec(w, events) ==
            State([Entry(7, true, false, Absent, 0, None, 0)], 1, {}, {0}, {}, {}, [], [Run(0, AckDone)])
  {
    var before := UpToParse(w);
    ExecAppend(w, before, Do(0, true));
    events := before + [Do(0, true)];
  }

  lemma UpToAck(w: Worker) returns (events: seq<Event>)
    ensures Exec(w, events) ==
            State([Entry(7, true, false, Absent, 0, None, 0)], 1, {0}, {0}, {}, {}, [], [Run(0, After)])
  {
    var before := UpToCommit(w);
    ExecAppend(w, before, Do(0, true));
    events := before + [Do(0, true)];
  }

  /** A crash right after the acknowledgement: the document is committed, the message settled, and its follow-up will
      never be carried out. */
  lemma CrashLosesFollowUp(w: Worker) returns (events: seq<Event>)
    requires w.kind.Stream?
    ensures var s := Exec(w, events);
            0 in s.settled && 0 in s.committed && 0 in s.cut && !Attended(s, 0) && !InHand(s, 0)
    ensures forall more :: !Attended(Exec(w, events + more), 0)
  {
    var before := UpToAck(w);
    events := before + [Crash(0)];
    ExecAppend(w, before, Crash(0));
    assert Exec(w, events).runs == [Run(0, Died)];
    forall more
      ensures !Attended(Exec(w, events + more), 0)
    {
      UnattendedForever(w, events, more, 0);
    }
  }

  /** A commit that raises without effect: nothing is committed, the message is settled, and its retry waits. */
  lemma RefusedCommitIsRetried(w: Worker) returns (events: seq<Event>)
    requires w.maxRetries > 0
    ensures var s := Exec(w, events);
            && s.committed == {} && s.settled == {0}
            && |s.entries| == 2 && s.entries[1].pred == Some(0) && s.entries[1].RetryCount() == 1
  {
    var before := UpToParse(w);
    ExecAppend(w, before, Refuse(0));
    events := before + [Refuse(0)];
    assert Exec(w, events) ==
           State([Entry(7, true, false, Absent, 0, None, 0)], 1, {}, {}, {}, {}, [], [Run(0, Requeue)]);
    ExecAppend(w, events, Do(0, true));
    events := events + [Do(0, true)];
    ExecAppend(w, events, Do(0, true));
    events := events + [Do(0, true)];
  }

  /** A lost reply to the acknowledgement: the message is committed and settled, and is retried all the same. */
  lemma LostAckRetriesCommitted(w: Worker) returns (events: seq<Event>)
    requires w.maxRetries > 0
    ensures var s := Exec(w, events);
            && s.committed == {0} && s.settled == {0}
            && |s.entries| == 2 && s.entries[1].pred == Some(0) && s.entries[1].RetryCount() == 1
  {
    var before := UpToCommit(w);
    ExecAppend(w, before, Lose(0, true));
    events := before + [Lose(0, true)];
    assert Exec(w, events) ==
           State([Entry(7, true, false, Absent, 0, None, 0)], 1, {0}, {0}, {}, {}, [], [Run(0, Requeue)]);
    ExecAppend(w, events, Do(0, true));
    events := events + [Do(0, true)];
  }

  /** After its acknowledgement the analysis worker never retries or dead-letters what the run has committed, whatever
      becomes of the completion event. */
  lemma {:induction false} CompletionIsBestEffort(w: Worker, events: seq<Event>, more: seq<Event>, k: nat)
    requires w.kind.Rabbit? && k < |Exec(w, events).runs|
    requires Exec(w, events).runs[k].pc in {After, Done, Died}
    ensures k < |Exec(w, events + more).runs| && Exec(w, events + more).runs[k].pc in {After, Done, Died}
    decreases |more|
  {
    if more == [] {
      assert events + more == events;
    } else {
      var init, e := more[..|more| - 1], more[|more| - 1];
      CompletionIsBestEffort(w, events, init, k);
      assert events + more == events + init + [e];
      ExecAppend(w, events + init, e);
      AfterStep(w, Exec(w, events + init), e, k);
    }
  }

  lemma AfterStep(w: Worker, s: State, e: Event, k: nat)
    requires w.kind.Rabbit? && k < |s.runs| && s.runs[k].pc in {After, Done, Died}
    ensures k < |Next(w, s, e).runs| && Next(w, s, e).runs[k].pc in {After, Done, Died}
  {
  }

  /** Rejecting a message is the last command of a run of the analysis worker: there is nothing to acknowledge. */
  lemma {:induction false} RejectIsFinal(w: Worker, events: seq<Event>, k: nat)
    requires w.kind.Rabbit? && k < |Exec(w, events).runs|
    ensures Exec(w, events).runs[k].pc != AckBuried
    ensures Exec(w, events).runs[k].pc == Buried ==> Exec(w, events).runs[k].id in Exec(w, events).settled
    decreases |events|
  {
    if events != [] {
      var init := events[..|events| - 1];
      if k < |Exec(w, init).runs| {
        RejectIsFinal(w, init, k);
      }
    }
  }
}
