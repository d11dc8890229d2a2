/** How often a message is handled, and what becomes of it in the end, as long as no handler is cut short. */
module RetryBounds {
  import opened Wrappers
  import opened RetryQueue

  // ----- A poison message -----

  ghost predicate Untouched(s: State, id: nat) {
    && id !in s.settled && id !in s.dead && !HasSuccessor(s.entries, id)
    && forall k :: 0 <= k < |s.runs| && s.runs[k].id == id ==> s.runs[k].pc.Parse? || s.runs[k].pc.Died?
  }

  ghost predicate PoisonStays(s: State) {
    && (forall k :: 0 <= k < |s.runs| ==> s.runs[k].id < |s.entries|)
    && (forall id :: 0 <= id < |s.entries| && s.entries[id].poison ==> Untouched(s, id))
    && (forall j :: 0 <= j < |s.entries| && s.entries[j].pred.Some? ==> s.entries[j].pred.value < j)
    && (forall id :: id in s.settled ==> id < |s.entries|)
    && (forall k :: 0 <= k < |s.dead| ==> s.dead[k] < |s.entries|)
  }

  /** A step of one run leaves the poison messages alone. */
  lemma PoisonRunStep(w: Worker, s: State, s': State, k: nat, run: Run, entry: Entry)
    requires PoisonStays(s) && Active(s, k) && run == s.runs[k] && entry == s.entries[run.id]
    requires |s'.runs| == |s.runs| && s'.runs == s.runs[k := s'.runs[k]] && s'.runs[k].id == run.id
    requires entry.poison ==> s'.entries == s.entries && s'.dead == s.dead && s'.settled == s.settled
    requires entry.poison ==> s'.runs[k].pc.Parse? || s'.runs[k].pc.Died?
    requires s'.entries == s.entries || s'.entries == s.entries + [Successor(entry, run.id)]
    requires s'.dead == s.dead || s'.dead == s.dead + [run.id]
    requires s'.settled == s.settled || s'.settled == s.settled + {run.id}
    ensures PoisonStays(s')
  {
    forall id | 0 <= id < |s'.entries| && s'.entries[id].poison
      ensures Untouched(s', id)
    {
      if id < |s.entries| {
        assert Untouched(s, id);
      }
    }
  }

  lemma PoisonStep(w: Worker, s: State, e: Event)
    requires w.kind.Stream? && PoisonStays(s)
    ensures PoisonStays(Next(w, s, e))
  {
    var s' := Next(w, s, e);
    if e.Produce? || e.Deliver? || e.Start? {
      forall id | 0 <= id < |s'.entries| && s'.entries[id].poison
        ensures Untouched(s', id)
      {
        if id < |s.entries| {
          assert Untouched(s, id);
        }
      }
    } else if Active(s, e.k) {
      assert s.entries[s.runs[e.k].id].poison ==> Untouched(s, s.runs[e.k].id);
      PoisonRunStep(w, s, s', e.k, s.runs[e.k], s.entries[s.runs[e.k].id]);
    }
  }

  /** A message whose expected_count is not a number kills every handler it is given to: it is never settled, retried
      or dead-lettered. */
  lemma {:induction false} PoisonIsForever(w: Worker, events: seq<Event>)
    requires w.kind.Stream?
    ensures PoisonStays(Exec(w, events))
    decreases |events|
  {
    if events != [] {
      PoisonIsForever(w, events[..|events| - 1]);
      PoisonStep(w, Exec(w, events[..|events| - 1]), events[|events| - 1]);
    }
  }

  // ----- Undisturbed runs -----

  ghost predicate Started(s: State, id: nat) {
    exists k :: 0 <= k < |s.runs| && s.runs[k].id == id
  }

  /** No crash, no second handing out, no poison; only the work itself may fail. */
  ghost predicate Undisturbed(s: State, e: Event) {
    match e
    case Produce(_, _, poison, _) => !poison
    case Deliver => true
    case Start(id) => !Started(s, id)
    case Do(_, _) => true
    case Lose(k, _) => k < |s.runs| ==> s.runs[k].pc.Commit? || s.runs[k].pc.AckDone? || s.runs[k].pc.After?
    case Refuse(k) => k < |s.runs| ==> s.runs[k].pc.Commit? || s.runs[k].pc.AckDone? || s.runs[k].pc.After?
    case Crash(_) => false
  }

  ghost predicate AllUndisturbed(w: Worker, events: seq<Event>)
    decreases |events|
  {
    events == [] ||
    (AllUndisturbed(w, events[..|events| - 1]) && Undisturbed(Exec(w, events[..|events| - 1]), events[|events| - 1]))
  }

  /** Runs a message with this retry count can still cost. */
  function Budget(w: Worker, retryCount: int): nat {
    (if retryCount < w.maxRetries then w.maxRetries - retryCount else 0) + 1
  }

  /** A retry continues the chain of the message it retries: same root, one deeper, and one less to spend. */
  predicate Linked(w: Worker, entries: seq<Entry>, j: nat)
    requires j < |entries|
  {
    match entries[j].pred
    case None => entries[j].root == j && entries[j].depth == 0
    case Some(p) =>
      && p < j && entries[p].root == entries[j].root && entries[j].depth == entries[p].depth + 1
      && entries[p].payload == entries[j].payload && entries[p].valid == entries[j].valid
      && Budget(w, entries[j].RetryCount()) + 1 == Budget(w, entries[p].RetryCount())
  }

  ghost predicate Chained(w: Worker, entries: seq<Entry>) {
    forall j :: 0 <= j < |entries| ==> Linked(w, entries, j)
  }

  ghost predicate OneSuccessor(entries: seq<Entry>) {
    forall i, j :: 0 <= i < j < |entries| && entries[i].pred.Some? ==> entries[i].pred != entries[j].pred
  }

  /** At most one run per message. */
  ghost predicate RunsApart(s: State) {
    && (forall k :: 0 <= k < |s.runs| ==> s.runs[k].id < |s.entries| && !s.runs[k].pc.Died?)
    && (forall k, m :: 0 <= k < m < |s.runs| ==> s.runs[k].id != s.runs[m].id)
  }

  ghost predicate Retried(s: State, id: nat) {
    exists k :: 0 <= k < |s.runs| && s.runs[k].id == id && (s.runs[k].pc.AckRequeue? || s.runs[k].pc.Superseded?)
  }

  ghost predicate Dropped(s: State, id: nat) {
    exists k :: 0 <= k < |s.runs| && s.runs[k].id == id && (s.runs[k].pc.AckBuried? || s.runs[k].pc.Buried?)
  }

  /** The messages with a successor are those whose run has published one; the buried ones those whose run buried
      them. */
  ghost predicate Traced(s: State) {
    && (forall id: nat :: HasSuccessor(s.entries, id) <==> Retried(s, id))
    && (forall id: nat :: id in s.dead <==> Dropped(s, id))
  }

  ghost predicate DeadOnce(s: State) {
    forall i, j :: 0 <= i < j < |s.dead| ==> s.dead[i] != s.dead[j]
  }

  ghost predicate Retryable(w: Worker, s: State) {
    && (forall k :: 0 <= k < |s.runs| && s.runs[k].id < |s.entries| && s.runs[k].pc.Requeue? ==>
          s.entries[s.runs[k].id].RetryCount() < w.maxRetries)
    && (forall id :: 0 <= id < |s.entries| ==> !s.entries[id].poison)
  }

  ghost predicate Orderly(w: Worker, s: State) {
    Chained(w, s.entries) && OneSuccessor(s.entries) && RunsApart(s) && Traced(s) && DeadOnce(s) && Retryable(w, s)
  }

  /** A new message without a predecessor adds no successor to any other. */
  lemma NewEntry(entries: seq<Entry>, entry: Entry, id: nat)
    ensures HasSuccessor(entries + [entry], id) <==> HasSuccessor(entries, id) || entry.pred == Some(id)
  {
    SuccessorAdded(entries, entry, id);
    if HasSuccessor(entries + [entry], id) && entry.pred != Some(id) {
      var j :| 0 <= j < |entries + [entry]| && (entries + [entry])[j].pred == Some(id);
      assert j < |entries| && entries[j].pred == Some(id);
    }
  }

  lemma ProduceOrderly(w: Worker, s: State, payload: int, valid: bool, retry: Retry)
    requires Orderly(w, s)
    ensures Orderly(w, Next(w, s, Produce(payload, valid, false, retry)))
  {
    var s' := Next(w, s, Produce(payload, valid, false, retry));
    EntryChained(w, s.entries, s'.entries[|s.entries|]);
    OnlySuccessor(s.entries, s'.entries[|s.entries|]);
    forall id: nat
      ensures HasSuccessor(s'.entries, id) <==> Retried(s', id)
      ensures id in s'.dead <==> Dropped(s', id)
    {
      NewEntry(s.entries, s'.entries[|s.entries|], id);
      SameRuns(s, s', id);
    }
  }

  lemma SameRuns(s: State, s': State, id: nat)
    requires s'.runs == s.runs
    ensures Retried(s', id) == Retried(s, id) && Dropped(s', id) == Dropped(s, id)
  {
  }

  /** A new run has published no successor and buried nothing. */
  lemma StartTraces(s: State, s': State, id: nat, d: nat)
    requires s'.runs == s.runs + [Run(id, Parse)]
    ensures Retried(s', d) == Retried(s, d) && Dropped(s', d) == Dropped(s, d)
  {
    assert forall k :: 0 <= k < |s.runs| ==> s'.runs[k] == s.runs[k];
  }

  lemma StartOrderly(w: Worker, s: State, id: nat)
    requires Orderly(w, s) && !Started(s, id)
    ensures Orderly(w, Next(w, s, Start(id)))
  {
    var s' := Next(w, s, Start(id));
    if s' != s {
      forall d: nat
        ensures HasSuccessor(s'.entries, d) <==> Retried(s', d)
        ensures d in s'.dead <==> Dropped(s', d)
      {
        StartTraces(s, s', id, d);
      }
    }
  }

  /** What a step of run k changes in the traces. */
  lemma StepTraces(s: State, s': State, k: nat, pc: Command, d: nat)
    requires RunsApart(s) && k < |s.runs| && s'.runs == s.runs[k := s.runs[k].(pc := pc)]
    ensures Retried(s', d) == if d == s.runs[k].id then pc.AckRequeue? || pc.Superseded? else Retried(s, d)
    ensures Dropped(s', d) == if d == s.runs[k].id then pc.AckBuried? || pc.Buried? else Dropped(s, d)
  {
    assert forall m :: 0 <= m < |s.runs| && m != k ==> s'.runs[m] == s.runs[m];
    assert s'.runs[k].id == s.runs[k].id;
  }

  lemma StepApart(w: Worker, s: State, s': State, k: nat, pc: Command)
    requires RunsApart(s) && Retryable(w, s) && k < |s.runs| && s'.runs == s.runs[k := s.runs[k].(pc := pc)]
    requires |s'.entries| >= |s.entries| && s'.entries[..|s.entries|] == s.entries
    requires forall id :: |s.entries| <= id < |s'.entries| ==> !s'.entries[id].poison
    requires !pc.Died?
    requires pc.Requeue? ==> s.entries[s.runs[k].id].RetryCount() < w.maxRetries
    ensures RunsApart(s') && Retryable(w, s')
  {
    assert forall id :: 0 <= id < |s.entries| ==> s'.entries[id] == s'.entries[..|s.entries|][id];
  }

  /** Where run k stands fits what has become of its message. */
  lemma RunTraces(s: State, k: nat)
    requires RunsApart(s) && k < |s.runs|
    ensures Retried(s, s.runs[k].id) == (s.runs[k].pc.AckRequeue? || s.runs[k].pc.Superseded?)
    ensures Dropped(s, s.runs[k].id) == (s.runs[k].pc.AckBuried? || s.runs[k].pc.Buried?)
  {
  }

  /** A step that publishes no successor and buries nothing. */
  lemma MoveOrderly(w: Worker, s: State, s': State, k: nat, pc: Command)
    requires Orderly(w, s) && k < |s.runs|
    requires s'.entries == s.entries && s'.dead == s.dead && s'.runs == s.runs[k := s.runs[k].(pc := pc)]
    requires (pc.AckRequeue? || pc.Superseded?) == (s.runs[k].pc.AckRequeue? || s.runs[k].pc.Superseded?)
    requires (pc.AckBuried? || pc.Buried?) == (s.runs[k].pc.AckBuried? || s.runs[k].pc.Buried?)
    requires !pc.Died?
    requires pc.Requeue? ==> s.entries[s.runs[k].id].RetryCount() < w.maxRetries
    ensures Orderly(w, s')
  {
    StepApart(w, s, s', k, pc);
    RunTraces(s, k);
    forall d: nat
      ensures HasSuccessor(s'.entries, d) <==> Retried(s', d)
      ensures d in s'.dead <==> Dropped(s', d)
    {
      StepTraces(s, s', k, pc, d);
    }
  }

  lemma BuryOrderly(w: Worker, s: State, s': State, k: nat, pc: Command)
    requires Orderly(w, s) && k < |s.runs| && s.runs[k].pc.Bury? && (pc.AckBuried? || pc.Buried?)
    requires s'.entries == s.entries && s'.dead == s.dead + [s.runs[k].id]
    requires s'.runs == s.runs[k := s.runs[k].(pc := pc)]
    ensures Orderly(w, s')
  {
    StepApart(w, s, s', k, pc);
    RunTraces(s, k);
    assert s.runs[k].id !in s.dead;
    forall d: nat
      ensures HasSuccessor(s'.entries, d) <==> Retried(s', d)
      ensures d in s'.dead <==> Dropped(s', d)
    {
      StepTraces(s, s', k, pc, d);
      assert d in s'.dead <==> d in s.dead || d == s.runs[k].id;
    }
  }

  lemma LinkedLater(w: Worker, entries: seq<Entry>, entry: Entry, j: nat)
    requires j < |entries| && Linked(w, entries, j)
    ensures Linked(w, entries + [entry], j)
  {
  }

  lemma EntryChained(w: Worker, entries: seq<Entry>, entry: Entry)
    requires Chained(w, entries) && Linked(w, entries + [entry], |entries|)
    ensures Chained(w, entries + [entry])
  {
    forall j | 0 <= j < |entries|
      ensures Linked(w, entries + [entry], j)
    {
      LinkedLater(w, entries, entry, j);
    }
  }

  lemma OnlySuccessor(entries: seq<Entry>, entry: Entry)
    requires OneSuccessor(entries)
    requires entry.pred.Some? ==> !HasSuccessor(entries, entry.pred.value)
    ensures OneSuccessor(entries + [entry])
  {
    var entries' := entries + [entry];
    forall i, j | 0 <= i < j < |entries'| && entries'[i].pred.Some?
      ensures entries'[i].pred != entries'[j].pred
    {
      if j == |entries| && entry.pred.Some? {
        assert entries[i].pred != Some(entry.pred.value);
      }
    }
  }

  lemma RequeueOrderly(w: Worker, s: State, s': State, k: nat)
    requires Orderly(w, s) && k < |s.runs| && s.runs[k].pc.Requeue?
    requires s'.entries == s.entries + [Successor(s.entries[s.runs[k].id], s.runs[k].id)] && s'.dead == s.dead
    requires s'.runs == s.runs[k := s.runs[k].(pc := AckRequeue)]
    ensures Orderly(w, s')
  {
    var id := s.runs[k].id;
    StepApart(w, s, s', k, AckRequeue);
    RunTraces(s, k);
    EntryChained(w, s.entries, Successor(s.entries[id], id));
    OnlySuccessor(s.entries, Successor(s.entries[id], id));
    forall d: nat
      ensures HasSuccessor(s'.entries, d) <==> Retried(s', d)
      ensures d in s'.dead <==> Dropped(s', d)
    {
      StepTraces(s, s', k, AckRequeue, d);
      NewEntry(s.entries, Successor(s.entries[id], id), d);
    }
  }

  /** What an undisturbed step of a run does. */
  lemma StepShape(w: Worker, s: State, e: Event)
    requires Undisturbed(s, e) && (e.Do? || e.Lose? || e.Refuse?) && Active(s, e.k)
    requires !s.entries[s.runs[e.k].id].poison
    ensures var s', run := Next(w, s, e), s.runs[e.k];
            && |s'.runs| == |s.runs|
            && s'.runs == s.runs[e.k := run.(pc := s'.runs[e.k].pc)]
            && var pc := s'.runs[e.k].pc;
            && !pc.Died?
            && (pc.Requeue? ==> s.entries[run.id].RetryCount() < w.maxRetries)
            && (run.pc.Requeue? ==> pc.AckRequeue? && s'.dead == s.dead)
            && (run.pc.Requeue? ==> s'.entries == s.entries + [Successor(s.entries[run.id], run.id)])
            && (run.pc.Bury? ==> pc.AckBuried? || pc.Buried?)
            && (run.pc.Bury? ==> s'.dead == s.dead + [run.id] && s'.entries == s.entries)
            && (!run.pc.Requeue? && !run.pc.Bury? ==> s'.dead == s.dead && s'.entries == s.entries)
            && (!run.pc.Requeue? && !run.pc.Bury? ==>
                  && (pc.AckRequeue? || pc.Superseded?) == (run.pc.AckRequeue? || run.pc.Superseded?)
                  && (pc.AckBuried? || pc.Buried?) == (run.pc.AckBuried? || run.pc.Buried?))
  {
  }

  lemma OrderlyStep(w: Worker, s: State, e: Event)
    requires Orderly(w, s) && Undisturbed(s, e)
    ensures Orderly(w, Next(w, s, e))
  {
    if e.Do? || e.Lose? || e.Refuse? {
      if Active(s, e.k) {
        StepShape(w, s, e);
        RunOrderly(w, s, Next(w, s, e), e.k);
      }
    } else {
      match e
      case Produce(payload, valid, _, retry) => ProduceOrderly(w, s, payload, valid, retry);
      case Deliver => DeliverOrderly(w, s);
      case Start(id) => StartOrderly(w, s, id);
    }
  }

  lemma DeliverOrderly(w: Worker, s: State)
    requires Orderly(w, s)
    ensures Orderly(w, Next(w, s, Deliver))
  {
    var s' := Next(w, s, Deliver);
    forall id: nat
      ensures HasSuccessor(s'.entries, id) <==> Retried(s', id)
      ensures id in s'.dead <==> Dropped(s', id)
    {
      SameRuns(s, s', id);
    }
  }

  lemma RunOrderly(w: Worker, s: State, s': State, k: nat)
    requires Orderly(w, s) && k < |s.runs| && |s'.runs| == |s.runs|
    requires s'.runs == s.runs[k := s.runs[k].(pc := s'.runs[k].pc)]
    requires
      var run, pc := s.runs[k], s'.runs[k].pc;
      && !pc.Died?
      && (pc.Requeue? ==> s.entries[run.id].RetryCount() < w.maxRetries)
      && (run.pc.Requeue? ==> pc.AckRequeue? && s'.dead == s.dead)
      && (run.pc.Requeue? ==> s'.entries == s.entries + [Successor(s.entries[run.id], run.id)])
      && (run.pc.Bury? ==> (pc.AckBuried? || pc.Buried?) && s'.dead == s.dead + [run.id] && s'.entries == s.entries)
      && (!run.pc.Requeue? && !run.pc.Bury? ==>
            && s'.dead == s.dead && s'.entries == s.entries
            && (pc.AckRequeue? || pc.Superseded?) == (run.pc.AckRequeue? || run.pc.Superseded?)
            && (pc.AckBuried? || pc.Buried?) == (run.pc.AckBuried? || run.pc.Buried?))
    ensures Orderly(w, s')
  {
    if s.runs[k].pc.Requeue? {
      RequeueOrderly(w, s, s', k);
    } else if s.runs[k].pc.Bury? {
      BuryOrderly(w, s, s', k, s'.runs[k].pc);
    } else {
      MoveOrderly(w, s, s', k, s'.runs[k].pc);
    }
  }

  lemma {:induction false} OrderlyRun(w: Worker, events: seq<Event>)
    requires AllUndisturbed(w, events)
    ensures Orderly(w, Exec(w, events))
    decreases |events|
  {
    if events != [] {
      OrderlyRun(w, events[..|events| - 1]);
      OrderlyStep(w, Exec(w, events[..|events| - 1]), events[|events| - 1]);
    }
  }

  // ----- Chains -----

  lemma {:induction false} RootBudget(w: Worker, entries: seq<Entry>, j: nat)
    requires Chained(w, entries) && j < |entries|
    ensures entries[j].root <= j && entries[entries[j].root].pred.None?
    ensures entries[entries[j].root].root == entries[j].root
    ensures entries[j].payload == entries[entries[j].root].payload && entries[j].valid == entries[entries[j].root].valid
    ensures entries[j].depth + Budget(w, entries[j].RetryCount()) == Budget(w, entries[entries[j].root].RetryCount())
    decreases j
  {
    assert Linked(w, entries, j);
    if entries[j].pred.Some? {
      RootBudget(w, entries, entries[j].pred.value);
    }
  }

  /** A chain does not fork. */
  lemma {:induction false} OneSpot(w: Worker, entries: seq<Entry>, i: nat, j: nat)
    requires Chained(w, entries) && OneSuccessor(entries) && i < |entries| && j < |entries|
    requires entries[i].root == entries[j].root && entries[i].depth == entries[j].depth
    ensures i == j
    decreases entries[i].depth
  {
    assert Linked(w, entries, i) && Linked(w, entries, j);
    if entries[i].pred.Some? {
      OneSpot(w, entries, entries[i].pred.value, entries[j].pred.value);
    }
  }

  /** The message of the same chain at a smaller depth has been retried. */
  lemma {:induction false} AncestorRetried(w: Worker, entries: seq<Entry>, i: nat, j: nat)
    requires Chained(w, entries) && OneSuccessor(entries) && i < |entries| && j < |entries|
    requires entries[i].root == entries[j].root && entries[i].depth < entries[j].depth
    ensures HasSuccessor(entries, i)
    decreases entries[j].depth
  {
    assert Linked(w, entries, j);
    var p := entries[j].pred.value;
    if entries[p].depth == entries[i].depth {
      OneSpot(w, entries, i, p);
    } else {
      AncestorRetried(w, entries, i, p);
    }
  }

  lemma {:induction false} LastOfChain(w: Worker, entries: seq<Entry>, i: nat) returns (tip: nat)
    requires Chained(w, entries) && i < |entries|
    ensures i <= tip < |entries| && entries[tip].root == entries[i].root && !HasSuccessor(entries, tip)
    decreases |entries| - i
  {
    if HasSuccessor(entries, i) {
      var j :| 0 <= j < |entries| && entries[j].pred == Some(i);
      assert Linked(w, entries, j);
      tip := LastOfChain(w, entries, j);
    } else {
      tip := i;
    }
  }

  /** What an undisturbed handler has made of a message. */
  datatype Fate = Waiting | Running | Completed | Retrying | DeadLettered

  ghost predicate HasFate(s: State, id: nat, fate: Fate) {
    match fate
    case Waiting => !Started(s, id)
    case Running =>
      exists k :: 0 <= k < |s.runs| && s.runs[k].id == id && !Ended(s.runs[k].pc)
                  && !s.runs[k].pc.AckRequeue? && !s.runs[k].pc.AckBuried?
    case Completed => exists k :: 0 <= k < |s.runs| && s.runs[k].id == id && s.runs[k].pc.Done?
    case Retrying => Retried(s, id)
    case DeadLettered => Dropped(s, id)
  }

  lemma OneFate(s: State, id: nat) returns (fate: Fate)
    requires RunsApart(s)
    ensures forall f :: HasFate(s, id, f) <==> f == fate
  {
    if Started(s, id) {
      var k :| 0 <= k < |s.runs| && s.runs[k].id == id;
      RunTraces(s, k);
      var pc := s.runs[k].pc;
      fate := if pc.Done? then Completed
              else if pc.AckRequeue? || pc.Superseded? then Retrying
              else if pc.AckBuried? || pc.Buried? then DeadLettered
              else Running;
    } else {
      fate := Waiting;
    }
  }

  ghost predicate Tip(s: State, r: nat, tip: nat) {
    && tip < |s.entries| && s.entries[tip].root == r
    && !HasFate(s, tip, Retrying)
    && forall id :: 0 <= id < |s.entries| && s.entries[id].root == r && id != tip ==> HasFate(s, id, Retrying)
  }

  lemma TipFound(w: Worker, s: State, r: nat) returns (tip: nat)
    requires Orderly(w, s) && r < |s.entries| && s.entries[r].pred.None?
    ensures Tip(s, r, tip) && forall t :: Tip(s, r, t) ==> t == tip
  {
    assert Linked(w, s.entries, r);
    tip := LastOfChain(w, s.entries, r);
    forall id | 0 <= id < |s.entries| && s.entries[id].root == r && id != tip
      ensures HasFate(s, id, Retrying)
    {
      if s.entries[id].depth == s.entries[tip].depth {
        OneSpot(w, s.entries, id, tip);
      } else if s.entries[id].depth < s.entries[tip].depth {
        AncestorRetried(w, s.entries, id, tip);
      } else {
        AncestorRetried(w, s.entries, tip, id);
      }
    }
  }

  /** In an undisturbed run every produced message has exactly one descendant that has not been handed on: it waits,
      is being handled, was completed, or lies in the dead-letter queue, exactly once and exactly in that case. */
  lemma OneDescendant(w: Worker, events: seq<Event>, r: nat) returns (tip: nat, fate: Fate)
    requires AllUndisturbed(w, events)
    requires r < |Exec(w, events).entries| && Exec(w, events).entries[r].pred.None?
    ensures var s := Exec(w, events);
            && Tip(s, r, tip) && (forall t :: Tip(s, r, t) ==> t == tip)
            && s.entries[tip].payload == s.entries[r].payload
            && fate != Retrying && (forall f :: HasFate(s, tip, f) <==> f == fate)
            && (fate.Completed? ==> tip in s.committed)
            && (forall id :: 0 <= id < |s.entries| && s.entries[id].root == r ==>
                  (id in s.dead <==> id == tip && fate.DeadLettered?))
            && DeadOnce(s)
  {
    var s := Exec(w, events);
    OrderlyRun(w, events);
    SafeRun(w, events);
    tip := TipFound(w, s, r);
    RootBudget(w, s.entries, tip);
    fate := OneFate(s, tip);
    if fate.Completed? {
      assert HasFate(s, tip, Completed);
      var k :| 0 <= k < |s.runs| && s.runs[k].id == tip && s.runs[k].pc.Done?;
      assert RunCovered(s, s.runs[k]);
    }
    forall id | 0 <= id < |s.entries| && s.entries[id].root == r
      ensures id in s.dead <==> id == tip && fate.DeadLettered?
    {
      var f := OneFate(s, id);
      assert id in s.dead <==> HasFate(s, id, DeadLettered);
      assert id != tip ==> HasFate(s, id, Retrying);
    }
  }

  // ----- How often a message is handled -----

  /** The runs spent on a produced message and its retries. */
  ghost function RunsOf(s: State, r: nat): set<nat>
    requires RunsApart(s)
  {
    set k: nat | k < |s.runs| && s.entries[s.runs[k].id].root == r
  }

  lemma {:induction false} Pigeonhole(ks: set<nat>, f: map<nat, nat>, n: nat)
    requires forall k :: k in ks ==> k in f && f[k] < n
    requires forall k, m :: k in ks && m in ks && k != m ==> f[k] != f[m]
    ensures |ks| <= n
  {
    if n == 0 {
      assert ks == {};
    } else if k :| k in ks && f[k] == n - 1 {
      Pigeonhole(ks - {k}, f, n - 1);
    } else {
      Pigeonhole(ks, f, n - 1);
    }
  }

  lemma RunsWithinBudget(w: Worker, s: State, r: nat)
    requires Orderly(w, s) && r < |s.entries|
    ensures |RunsOf(s, r)| <= Budget(w, s.entries[r].RetryCount())
    ensures s.entries[r].pred.Some? ==> RunsOf(s, r) == {}
  {
    var depths := map k: nat | k < |s.runs| :: s.entries[s.runs[k].id].depth;
    forall k | k in RunsOf(s, r)
      ensures depths[k] < Budget(w, s.entries[r].RetryCount()) && s.entries[r].pred.None?
    {
      RootBudget(w, s.entries, s.runs[k].id);
    }
    forall k, m | k in RunsOf(s, r) && m in RunsOf(s, r) && k != m
      ensures depths[k] != depths[m]
    {
      if depths[k] == depths[m] {
        OneSpot(w, s.entries, s.runs[k].id, s.runs[m].id);
      }
    }
    Pigeonhole(RunsOf(s, r), depths, Budget(w, s.entries[r].RetryCount()));
  }

  /** A produced message is handled at most max(0, maxRetries - retryCount) + 1 times, retries included. */
  lemma RunBound(w: Worker, events: seq<Event>, r: nat)
    requires AllUndisturbed(w, events)
    requires r < |Exec(w, events).entries|
    ensures RunsApart(Exec(w, events))
    ensures |RunsOf(Exec(w, events), r)| <= Budget(w, Exec(w, events).entries[r].RetryCount())
  {
    OrderlyRun(w, events);
    RunsWithinBudget(w, Exec(w, events), r);
  }

  /** The budgets of the produced messages among the first n entries. */
  function TotalBudget(w: Worker, entries: seq<Entry>, n: nat): nat
    requires n <= |entries|
  {
    if n == 0 then 0
    else
      TotalBudget(w, entries, n - 1)
      + if entries[n - 1].pred.None? then Budget(w, entries[n - 1].RetryCount()) else 0
  }

  /** The runs spent on the messages produced among the first n entries. */
  ghost function RunsBelow(s: State, n: nat): set<nat>
    requires RunsApart(s)
  {
    set k: nat | k < |s.runs| && s.entries[s.runs[k].id].root < n
  }

  lemma RunsAtMost(s: State, n: nat)
    requires RunsApart(s)
    ensures |RunsBelow(s, n + 1)| <= |RunsBelow(s, n)| + |RunsOf(s, n)|
  {
    assert RunsBelow(s, n + 1) == RunsBelow(s, n) + RunsOf(s, n);
  }

  lemma {:induction false} RunsBelowBound(w: Worker, s: State, n: nat)
    requires Orderly(w, s) && n <= |s.entries|
    ensures |RunsBelow(s, n)| <= TotalBudget(w, s.entries, n)
    decreases n
  {
    if n == 0 {
      assert RunsBelow(s, n) == {};
    } else {
      RunsBelowBound(w, s, n - 1);
      RunsWithinBudget(w, s, n - 1);
      RunsAtMost(s, n - 1);
    }
  }

  lemma {:induction false} CountBelow(n: nat, ks: set<nat>)
    requires forall k: nat :: k in ks <==> k < n
    ensures |ks| == n
  {
    if n > 0 {
      CountBelow(n - 1, ks - {n - 1});
    } else {
      assert ks == {};
    }
  }

  /** All handler runs together stay within the budgets of the produced messages. */
  lemma TotalRunBound(w: Worker, events: seq<Event>)
    requires AllUndisturbed(w, events)
    ensures |Exec(w, events).runs| <= TotalBudget(w, Exec(w, events).entries, |Exec(w, events).entries|)
  {
    var s := Exec(w, events);
    OrderlyRun(w, events);
    forall k: nat | k < |s.runs|
      ensures k in RunsBelow(s, |s.entries|)
    {
      RootBudget(w, s.entries, s.runs[k].id);
    }
    RunsBelowBound(w, s, |s.entries|);
    CountBelow(|s.runs|, RunsBelow(s, |s.entries|));
  }
}
