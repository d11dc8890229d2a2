/** The two at-least-once workers: the ingest worker on a Redis stream and the analysis worker on a RabbitMQ queue.

    Both handle a delivered message, settle it (XACK, or ack/reject), and on failure publish a successor with a higher
    retry count, until the count is used up and the message goes to the dead-letter queue. A run of a handler is a
    sequence of atomic commands; each may fail without effect, lose its reply, or be cut short by a crash, and an
    unsettled message may be handed out again at any time. */
module RetryQueue {
  import opened Wrappers

  datatype Kind = Stream | Rabbit

  datatype Worker = Worker(kind: Kind, maxRetries: int)

  /** The retry count field as it arrives. */
  datatype Retry = Absent | Number(n: int) | Garbage

  function ReadRetryCount(r: Retry): int {
    if r.Number? then r.n else 0
  }

  /** A message. `poison`: its expected_count is not numeric. `root`, `pred` and `depth` are history: the produced
      message it descends from, the message it retries, and how many retries lie between. */
  datatype Entry = Entry(
    payload: int, valid: bool, poison: bool, retry: Retry,
    root: nat, pred: Option<nat>, depth: nat)
  {
    function RetryCount(): int {
      ReadRetryCount(retry)
    }
  }

  datatype Command =
    | Parse | Commit | AckDone | After
    | Requeue | AckRequeue
    | Bury | AckBuried
    | Done | Superseded | Buried | Died

  /** One handling of one message. */
  datatype Run = Run(id: nat, pc: Command)

  /** `dead` lists the messages copied to the dead-letter queue. `followed` and `cut` are history: the messages whose
      follow-up was carried out, and those of which a run died between its acknowledgement and its follow-up or
      retry. */
  datatype State = State(
    entries: seq<Entry>, delivered: nat, settled: set<nat>, committed: set<nat>,
    followed: set<nat>, cut: set<nat>, dead: seq<nat>, runs: seq<Run>)

  datatype Event =
    | Produce(payload: int, valid: bool, poison: bool, retry: Retry)
    | Deliver
    | Start(id: nat)                  // a delivered message that is not settled is handed to a handler
    | Do(k: nat, resolved: bool)      // `resolved`: the document id of an analysis request is known
    | Lose(k: nat, resolved: bool)    // the command takes effect and raises
    | Refuse(k: nat)                  // it raises without effect
    | Crash(k: nat)

  const INIT := State([], 0, {}, {}, {}, {}, [], [])

  predicate Ended(pc: Command) {
    pc.Done? || pc.Superseded? || pc.Buried? || pc.Died?
  }

  /** The failure handler: retry while the count allows it. */
  function Fail(w: Worker, entry: Entry): Command {
    if entry.RetryCount() < w.maxRetries then Requeue else Bury
  }

  /** The retry of message `id`: the same fields, the count raised by one. */
  function Successor(entry: Entry, id: nat): Entry {
    entry.(retry := Number(entry.RetryCount() + 1), pred := Some(id), depth := entry.depth + 1)
  }

  /** The effect of the next command of a run. A rejected RabbitMQ message is dead-lettered by the broker; the stream
      worker copies the message and then acknowledges it. */
  function Effect(w: Worker, s: State, run: Run): State
    requires run.id < |s.entries|
  {
    match run.pc
    case Commit => s.(committed := s.committed + {run.id})
    case AckDone => s.(settled := s.settled + {run.id})
    case After => s.(followed := s.followed + {run.id})
    case Requeue => s.(entries := s.entries + [Successor(s.entries[run.id], run.id)])
    case AckRequeue => s.(settled := s.settled + {run.id})
    case Bury => s.(dead := s.dead + [run.id], settled := if w.kind.Rabbit? then s.settled + {run.id} else s.settled)
    case AckBuried => s.(settled := s.settled + {run.id})
    case _ => s
  }

  function Advance(w: Worker, entry: Entry, pc: Command, resolved: bool): Command {
    match pc
    case Parse =>
      if w.kind.Stream? && entry.poison then Died
      else if !entry.valid then Bury
      else if w.kind.Rabbit? && !resolved then Fail(w, entry)
      else Commit
    case Commit => AckDone
    case AckDone => After
    case After => Done
    case Requeue => AckRequeue
    case AckRequeue => Superseded
    case Bury => if w.kind.Rabbit? then Buried else AckBuried
    case AckBuried => Buried
    case _ => pc
  }

  /** Failures of the work itself are retried; failures of the failure handler escape and end the process. The
      completion event of the analysis worker is best effort. */
  function Throw(w: Worker, entry: Entry, pc: Command): Command {
    match pc
    case Commit => Fail(w, entry)
    case AckDone => Fail(w, entry)
    case After => if w.kind.Rabbit? then Done else Fail(w, entry)
    case _ => Died
  }

  /** The commands of a run that may come after its acknowledgement, before the follow-up or the retry is out. */
  predicate FollowUpDue(pc: Command) {
    pc.After? || pc.Requeue? || pc.Bury?
  }

  predicate Active(s: State, k: nat) {
    k < |s.runs| && !Ended(s.runs[k].pc) && s.runs[k].id < |s.entries|
  }

  function Step(w: Worker, s: State, k: nat, effective: bool, pc: Command): State
    requires Active(s, k)
  {
    var s' := if effective then Effect(w, s, s.runs[k]) else s;
    s'.(runs := s.runs[k := s.runs[k].(pc := pc)],
        cut := if pc.Died? && FollowUpDue(s.runs[k].pc) then s.cut + {s.runs[k].id} else s.cut)
  }

  function Next(w: Worker, s: State, e: Event): State {
    match e
    case Produce(payload, valid, poison, retry) =>
      s.(entries := s.entries + [Entry(payload, valid, poison, retry, |s.entries|, None, 0)])
    case Deliver => if s.delivered < |s.entries| then s.(delivered := s.delivered + 1) else s
    case Start(id) =>
      if id < s.delivered && id < |s.entries| && id !in s.settled then s.(runs := s.runs + [Run(id, Parse)]) else s
    case Do(k, resolved) =>
      if Active(s, k) then Step(w, s, k, true, Advance(w, s.entries[s.runs[k].id], s.runs[k].pc, resolved)) else s
    case Lose(k, resolved) =>
      if Active(s, k) then Step(w, s, k, true, Throw(w, s.entries[s.runs[k].id], s.runs[k].pc)) else s
    case Refuse(k) =>
      if Active(s, k) then Step(w, s, k, false, Throw(w, s.entries[s.runs[k].id], s.runs[k].pc)) else s
    case Crash(k) => if Active(s, k) then Step(w, s, k, false, Died) else s
  }

  function Exec(w: Worker, events: seq<Event>): State
    decreases |events|
  {
    if events == [] then INIT else Next(w, Exec(w, events[..|events| - 1]), events[|events| - 1])
  }

  // ----- Nothing is lost -----

  ghost predicate HasSuccessor(entries: seq<Entry>, id: nat) {
    exists j :: 0 <= j < |entries| && entries[j].pred == Some(id)
  }

  /** The message had its effect, or lives on in a retry, or lies in the dead-letter queue. */
  ghost predicate Covered(s: State, id: nat) {
    id in s.committed || HasSuccessor(s.entries, id) || id in s.dead
  }

  ghost predicate RunCovered(s: State, run: Run) {
    && run.id < |s.entries|
    && (run.pc.AckDone? || run.pc.After? || run.pc.Done? ==> run.id in s.committed)
    && (run.pc.AckRequeue? || run.pc.Superseded? ==> HasSuccessor(s.entries, run.id))
    && (run.pc.AckBuried? || run.pc.Buried? ==> run.id in s.dead)
  }

  ghost predicate Safe(s: State) {
    && (forall id :: id in s.settled ==> Covered(s, id))
    && (forall k :: 0 <= k < |s.runs| ==> RunCovered(s, s.runs[k]))
  }

  lemma SuccessorAdded(entries: seq<Entry>, entry: Entry, id: nat)
    ensures HasSuccessor(entries, id) ==> HasSuccessor(entries + [entry], id)
    ensures entry.pred == Some(id) ==> HasSuccessor(entries + [entry], id)
  {
    if HasSuccessor(entries, id) {
      var j :| 0 <= j < |entries| && entries[j].pred == Some(id);
      assert (entries + [entry])[j].pred == Some(id);
    }
    assert (entries + [entry])[|entries|] == entry;
  }

  lemma CoveredStays(w: Worker, s: State, e: Event, id: nat)
    ensures HasSuccessor(s.entries, id) ==> HasSuccessor(Next(w, s, e).entries, id)
    ensures Covered(s, id) ==> Covered(Next(w, s, e), id)
  {
    var entries' := Next(w, s, e).entries;
    if |entries'| > |s.entries| {
      SuccessorAdded(s.entries, entries'[|s.entries|], id);
    }
  }

  /** The run that takes the step has what its next command relies on. */
  lemma RunStepCovered(w: Worker, s: State, e: Event, k: nat)
    requires (e.Do? || e.Lose? || e.Refuse? || e.Crash?) && e.k == k && Active(s, k) && RunCovered(s, s.runs[k])
    ensures RunCovered(Next(w, s, e), Next(w, s, e).runs[k])
    ensures forall id :: id in Next(w, s, e).settled && id !in s.settled ==> Covered(Next(w, s, e), id)
  {
    var id := s.runs[k].id;
    SuccessorAdded(s.entries, Successor(s.entries[id], id), id);
  }

  lemma SafeStep(w: Worker, s: State, e: Event)
    requires Safe(s)
    ensures Safe(Next(w, s, e))
  {
    var s' := Next(w, s, e);
    forall id: nat
      ensures HasSuccessor(s.entries, id) ==> HasSuccessor(s'.entries, id)
      ensures Covered(s, id) ==> Covered(s', id)
    {
      CoveredStays(w, s, e, id);
    }
    if (e.Do? || e.Lose? || e.Refuse? || e.Crash?) && Active(s, e.k) {
      RunStepCovered(w, s, e, e.k);
    }
  }

  lemma {:induction false} SafeRun(w: Worker, events: seq<Event>)
    ensures Safe(Exec(w, events))
    decreases |events|
  {
    if events != [] {
      SafeRun(w, events[..|events| - 1]);
      SafeStep(w, Exec(w, events[..|events| - 1]), events[|events| - 1]);
    }
  }

  /** With a crash possible between any two commands, and messages handed out again at any time: a settled message
      has its document or job committed, or a successor in the queue, or a copy in the dead-letter queue. */
  lemma NothingLost(w: Worker, events: seq<Event>, id: nat)
    requires id in Exec(w, events).settled
    ensures Covered(Exec(w, events), id)
  {
    SafeRun(w, events);
  }

  ghost predicate Copies(entries: seq<Entry>) {
    forall j :: 0 <= j < |entries| && entries[j].pred.Some? ==>
      entries[j].pred.value < j && IsCopy(entries, j, entries[j].pred.value)
  }

  predicate IsCopy(entries: seq<Entry>, j: nat, p: nat)
    requires j < |entries|
  {
    p < |entries| && entries[j] == Successor(entries[p], p)
  }

  lemma CopiesStep(w: Worker, s: State, e: Event)
    requires Copies(s.entries)
    ensures Copies(Next(w, s, e).entries)
  {
    var entries' := Next(w, s, e).entries;
    forall j | 0 <= j < |entries'| && entries'[j].pred.Some?
      ensures entries'[j].pred.value < j && IsCopy(entries', j, entries'[j].pred.value)
    {
      assert j < |s.entries| ==> IsCopy(s.entries, j, s.entries[j].pred.value);
    }
  }

  /** A retry carries the fields of the message it retries, with the count raised by one. */
  lemma {:induction false} RetriesAreCopies(w: Worker, events: seq<Event>)
    ensures Copies(Exec(w, events).entries)
    decreases |events|
  {
    if events != [] {
      RetriesAreCopies(w, events[..|events| - 1]);
      CopiesStep(w, Exec(w, events[..|events| - 1]), events[|events| - 1]);
    }
  }

  // ----- Ended handlers have settled their messages -----

  /** Only delivered messages are handled and settled, and a handler that came to its end without dying has settled
      its message. */
  ghost predicate Closed(s: State) {
    && s.delivered <= |s.entries|
    && (forall k :: 0 <= k < |s.runs| ==> s.runs[k].id < s.delivered)
    && (forall id :: id in s.settled ==> id < s.delivered)
    && forall k :: 0 <= k < |s.runs| && (s.runs[k].pc.After? || (Ended(s.runs[k].pc) && !s.runs[k].pc.Died?)) ==>
      s.runs[k].id in s.settled
  }

  lemma ClosedStep(w: Worker, s: State, e: Event)
    requires Closed(s)
    ensures Closed(Next(w, s, e))
  {
  }

  lemma {:induction false} ClosedRun(w: Worker, events: seq<Event>)
    ensures Closed(Exec(w, events))
    decreases |events|
  {
    if events != [] {
      ClosedRun(w, events[..|events| - 1]);
      ClosedStep(w, Exec(w, events[..|events| - 1]), events[|events| - 1]);
    }
  }
}
