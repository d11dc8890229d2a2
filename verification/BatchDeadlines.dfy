/** How late "late" is: half an hour after the first message of the batch. */
module BatchDeadlines {
  import opened BatchProtocol
  import opened BatchGuarantees
  import opened BatchProgress

  /** Event n of the run sets the deadline. */
  ghost predicate SetsDeadlineAt(b: Batch, s0: State, events: seq<Event>, n: nat) {
    && n < |events|
    && Exec(b, s0, events[..n]).shared.deadline.None? && Exec(b, s0, events[..n + 1]).shared.deadline.Some?
  }

  /** At event m of the run handler h successfully looks at the deadline. */
  ghost predicate LooksAt(b: Batch, s0: State, events: seq<Event>, m: nat, h: nat) {
    && m < |events| && events[m].Do? && events[m].h == h
    && h in Exec(b, s0, events[..m]).handlers && Exec(b, s0, events[..m]).handlers[h].pc == GetDeadline
  }

  function ClockAt(b: Batch, s0: State, events: seq<Event>, n: nat): int
    requires n <= |events|
  {
    Exec(b, s0, events[..n]).shared.clock
  }

  lemma DeadlineValue(b: Batch, s: State, e: Event)
    requires s.shared.deadline.None? && Next(b, s, e).shared.deadline.Some?
    ensures Next(b, s, e).shared.deadline.value == s.shared.clock + 1800
  {
  }

  /** A deadline is 1800 seconds after the moment it was set. */
  lemma {:induction false} DeadlineWasSet(b: Batch, s0: State, events: seq<Event>) returns (n: nat)
    requires Init(s0) && Exec(b, s0, events).shared.deadline.Some?
    ensures SetsDeadlineAt(b, s0, events, n)
    ensures Exec(b, s0, events).shared.deadline.value == ClockAt(b, s0, events, n) + 1800
    decreases |events|
  {
    n := |events| - 1;
    var init := events[..n];
    assert events[..n + 1] == events;
    if Exec(b, s0, init).shared.deadline.None? {
      DeadlineValue(b, Exec(b, s0, init), events[n]);
    } else {
      DeadlineStep(b, Exec(b, s0, init), events[n]);
      n := DeadlineWasSet(b, s0, init);
      assert init[..n] == events[..n] && init[..n + 1] == events[..n + 1];
    }
  }

  /** Handler h looked at the deadline more than 1800 seconds after it was set. */
  ghost predicate Overdue(b: Batch, s0: State, events: seq<Event>, n: nat, m: nat, h: nat) {
    && SetsDeadlineAt(b, s0, events, n) && n < m && LooksAt(b, s0, events, m, h)
    && ClockAt(b, s0, events, m) > ClockAt(b, s0, events, n) + 1800
  }

  lemma OverdueStill(b: Batch, s0: State, events: seq<Event>, n: nat, m: nat, h: nat)
    requires events != [] && Overdue(b, s0, events[..|events| - 1], n, m, h)
    ensures Overdue(b, s0, events, n, m, h)
  {
    var init := events[..|events| - 1];
    assert init[..n] == events[..n] && init[..n + 1] == events[..n + 1] && init[..m] == events[..m];
  }

  lemma LateStep(b: Batch, s: State, e: Event, h: nat)
    requires h in Next(b, s, e).handlers && Next(b, s, e).handlers[h].late
    ensures h in s.handlers
    ensures s.handlers[h].late || (e.Do? && e.h == h && s.handlers[h].pc == GetDeadline && s.shared.deadline.Some?
                                   && s.shared.deadline.value < s.shared.clock)
  {
    if Actor(s, e).Some? {
      ActorStep(b, s, e);
      LateCommand(b, s.shared, s.handlers[e.h], e);
    }
  }

  lemma LateCommand(b: Batch, w: Shared, p: Handler, e: Event)
    requires e.Do? || e.Lose? || e.Refuse? || e.Crash?
    ensures ActorAfter(b, w, p, e).late ==>
              p.late || (e.Do? && p.pc == GetDeadline && w.deadline.Some? && w.deadline.value < w.clock)
  {
    match p.pc
    case GetDeadline =>
    case Find =>
    case _ =>
  }

  /** A handler that counts as late has looked at the deadline more than 1800 seconds after the first message of the
      batch set it. */
  lemma {:induction false} LateIsOverdue(b: Batch, s0: State, events: seq<Event>, h: nat) returns (n: nat, m: nat)
    requires Init(s0)
    requires h in Exec(b, s0, events).handlers && Exec(b, s0, events).handlers[h].late
    ensures Overdue(b, s0, events, n, m, h)
    decreases |events|
  {
    m := |events| - 1;
    var init := events[..m];
    LateStep(b, Exec(b, s0, init), events[m], h);
    if Exec(b, s0, init).handlers[h].late {
      n, m := LateIsOverdue(b, s0, init, h);
      OverdueStill(b, s0, events, n, m, h);
    } else {
      n := DeadlineWasSet(b, s0, init);
      assert init[..n] == events[..n] && init[..n + 1] == events[..n + 1];
    }
  }

  lemma RowLate(b: Batch, s: State, e: Event)
    requires Inv(b, s) && s.shared.snapshots == [] && Next(b, s, e).shared.snapshots != []
    ensures (e.Do? || e.Lose?) && e.h in s.handlers
    ensures Next(b, s, e).shared.snapshots[0].late == s.handlers[e.h].late
    ensures Next(b, s, e).shared.snapshots[0].trigger == s.handlers[e.h].count
  {
    RowFromIds(b, s, e);
  }

  /** So has the worker that wrote a snapshot that counts as late. */
  lemma {:induction false} LateRowIsOverdue(b: Batch, s0: State, events: seq<Event>)
    returns (n: nat, m: nat, c: nat, h: nat)
    requires Init(s0) && Exec(b, s0, events).shared.snapshots != [] && Exec(b, s0, events).shared.snapshots[0].late
    ensures Overdue(b, s0, events, n, m, h) && m < c && WritesAt(b, s0, events, c, h)
    decreases |events|
  {
    c := |events| - 1;
    var init, e := events[..c], events[c];
    var s := Exec(b, s0, init);
    InvRun(b, s0, init);
    if s.shared.snapshots == [] {
      RowFromIds(b, s, e);
      RowLate(b, s, e);
      h := e.h;
      n, m := LateIsOverdue(b, s0, init, h);
    } else {
      SnapshotsStep(b, s, e);
      n, m, c, h := LateRowIsOverdue(b, s0, init);
      assert init[..c] == events[..c];
    }
    OverdueStill(b, s0, events, n, m, h);
  }

  /** A snapshot with fewer than the expected posts counted was written by a worker that had looked at the deadline more
      than 1800 seconds after it was set. */
  lemma PartialIsOverdue(b: Batch, s0: State, events: seq<Event>) returns (n: nat, m: nat, c: nat, h: nat)
    requires Init(s0) && Exec(b, s0, events).shared.snapshots != []
    requires Exec(b, s0, events).shared.snapshots[0].trigger < b.expected
    ensures Overdue(b, s0, events, n, m, h) && m < c && WritesAt(b, s0, events, c, h)
  {
    SnapshotCoversTrigger(b, s0, events);
    n, m, c, h := LateRowIsOverdue(b, s0, events);
  }

  lemma DeadlineSince(b: Batch, s0: State, events: seq<Event>, n: nat, m: nat)
    requires SetsDeadlineAt(b, s0, events, n) && n < m <= |events|
    ensures var w := Exec(b, s0, events[..m]).shared;
            w.deadline.Some? && w.deadline.value == ClockAt(b, s0, events, n) + 1800
  {
    var due, rest := events[..n + 1], events[n + 1..m];
    assert due == events[..n] + [events[n]] && events[..m] == due + rest;
    ExecAppend(b, s0, events[..n], events[n]);
    DeadlineValue(b, Exec(b, s0, events[..n]), events[n]);
    ExecConcat(b, s0, due, rest);
    DeadlineIsFixed(b, Exec(b, s0, due), rest);
  }

  lemma NotTriggered(b: Batch, s: State, e: Event)
    requires e.Do? && e.h in s.handlers && s.handlers[e.h].pc == GetDeadline && s.handlers[e.h].count < b.expected
    requires s.shared.deadline.Some? && s.shared.clock <= s.shared.deadline.value
    ensures var s' := Next(b, s, e);
            e.h in s'.handlers && s'.handlers[e.h].pc == Finished && s'.shared == s.shared
  {
  }

  /** A handler that looks at the deadline at most 1800 seconds after it was set, with fewer than the expected posts
      counted, ends there. */
  lemma OnTimeWaits(b: Batch, s0: State, events: seq<Event>, n: nat, m: nat, h: nat)
    requires SetsDeadlineAt(b, s0, events, n) && n < m && LooksAt(b, s0, events, m, h)
    requires ClockAt(b, s0, events, m) <= ClockAt(b, s0, events, n) + 1800
    requires Exec(b, s0, events[..m]).handlers[h].count < b.expected
    ensures var s, s' := Exec(b, s0, events[..m]), Exec(b, s0, events[..m + 1]);
            h in s'.handlers && s'.handlers[h].pc == Finished && s'.shared == s.shared
  {
    DeadlineSince(b, s0, events, n, m);
    NotTriggered(b, Exec(b, s0, events[..m]), events[m]);
    assert events[..m + 1] == events[..m] + [events[m]];
    ExecAppend(b, s0, events[..m], events[m]);
  }
}
