/** A batch whose failures are retried gets its message out: progress over whole runs with faults and crashes. */
module BatchRetries {
  import opened BatchProtocol
  import opened BatchGuarantees
  import opened BatchProgress
  import opened BatchDeliveries

  /** A handler raises or crashes. */
  predicate Fails(b: Batch, s: State, e: Event) {
    Actor(s, e).Some? &&
    var pc := ActorAfter(b, s.shared, s.handlers[Actor(s, e).value], e).pc;
    pc.Raised? || pc.Crashed?
  }

  /** A handler's increment takes effect. */
  predicate Counts(s: State, e: Event) {
    Actor(s, e).Some? && s.handlers[Actor(s, e).value].pc.Count? && Effective(e)
  }

  predicate FailsAt(b: Batch, s0: State, events: seq<Event>, i: nat)
    requires i < |events|
  {
    Fails(b, Exec(b, s0, events[..i]), events[i])
  }

  predicate CountsAt(b: Batch, s0: State, events: seq<Event>, i: nat)
    requires i < |events|
  {
    Counts(Exec(b, s0, events[..i]), events[i])
  }

  // ----- Somebody is on duty -----

  /** A handler that will take the lock or look at its status, or holds it; `late` tells whether it is the passed
      deadline that counts. */
  predicate Responsible(b: Batch, w: Shared, p: Handler, late: bool) {
    || Inside(p.pc) || p.pc.Acquire? || p.pc.GetStatus? || p.pc.Transition?
    || (p.pc.GetDeadline? && p.count > 0 && (p.count >= b.expected || (late && PastDeadline(w))))
  }

  ghost predicate OnDuty(b: Batch, s: State, late: bool) {
    s.shared.published != [] || exists h :: h in s.handlers && Responsible(b, s.shared, s.handlers[h], late)
  }

  /** Where a step that does not fail leaves the duty: with the handler, with whoever has set the status, or nowhere,
      after the completing write. */
  predicate PassedOn(b: Batch, w: Shared, p: Handler, w': Shared, p': Handler, late: bool) {
    || Responsible(b, w', p', late)
    || (w' == w && (w.status == Creating || w.status == Completed))
    || p.pc == MarkCompleted
  }

  lemma OutsideDuty(b: Batch, w: Shared, h: nat, p: Handler, e: Event, late: bool)
    requires Responsible(b, w, p, late) && HandlerTimed(w, p) && !Inside(p.pc)
    requires e.Do? || e.Lose? || e.Refuse? || e.Crash?
    requires !ActorAfter(b, w, p, e).pc.Raised? && !ActorAfter(b, w, p, e).pc.Crashed?
    ensures PassedOn(b, w, p, if Effective(e) then Effect(b, w, h, p, RowId(e)) else w, ActorAfter(b, w, p, e), late)
  {
    match p.pc
    case GetDeadline =>
    case Acquire =>
    case GetStatus =>
    case Transition =>
  }

  lemma InsideDuty(b: Batch, w: Shared, h: nat, p: Handler, e: Event, late: bool)
    requires Inside(p.pc) && (e.Do? || e.Lose? || e.Refuse? || e.Crash?)
    requires !ActorAfter(b, w, p, e).pc.Raised? && !ActorAfter(b, w, p, e).pc.Crashed?
    ensures PassedOn(b, w, p, if Effective(e) then Effect(b, w, h, p, RowId(e)) else w, ActorAfter(b, w, p, e), late)
  {
    match p.pc
    case Find =>
    case MarkFailed =>
    case _ =>
  }

  lemma ActorDuty(b: Batch, w: Shared, h: nat, p: Handler, e: Event, late: bool)
    requires Responsible(b, w, p, late) && HandlerTimed(w, p) && (e.Do? || e.Lose? || e.Refuse? || e.Crash?)
    requires !ActorAfter(b, w, p, e).pc.Raised? && !ActorAfter(b, w, p, e).pc.Crashed?
    ensures PassedOn(b, w, p, if Effective(e) then Effect(b, w, h, p, RowId(e)) else w, ActorAfter(b, w, p, e), late)
  {
    if Inside(p.pc) {
      InsideDuty(b, w, h, p, e, late);
    } else {
      OutsideDuty(b, w, h, p, e, late);
    }
  }

  /** The duty of a handler that does not move stays with it, unless the clock is set back. */
  lemma DutyStays(b: Batch, s: State, e: Event, h: nat, late: bool)
    requires h in s.handlers && Responsible(b, s.shared, s.handlers[h], late)
    requires !(Actor(s, e).Some? && Actor(s, e).value == h)
    requires late && e.Tick? ==> s.shared.clock <= e.now
    ensures var s' := Next(b, s, e); h in s'.handlers && Responsible(b, s'.shared, s'.handlers[h], late)
  {
    if Actor(s, e).Some? {
      ActorStep(b, s, e);
    }
  }

  lemma PublishedStays(b: Batch, s: State, e: Event)
    requires s.shared.published != []
    ensures Next(b, s, e).shared.published != []
  {
    if Actor(s, e).Some? {
      ActorStep(b, s, e);
    }
  }

  lemma DutyStep(b: Batch, s: State, e: Event, late: bool)
    requires Announced(s) && Timed(s) && OnDuty(b, s, late)
    requires !Fails(b, s, e) && !Abandoned(Next(b, s, e)) && (late && e.Tick? ==> s.shared.clock <= e.now)
    ensures OnDuty(b, Next(b, s, e), late)
  {
    var s' := Next(b, s, e);
    if s.shared.published != [] {
      PublishedStays(b, s, e);
    } else {
      var h :| h in s.handlers && Responsible(b, s.shared, s.handlers[h], late);
      if Actor(s, e).Some? && Actor(s, e).value == h {
        ActorStep(b, s, e);
        assert HandlerTimed(s.shared, s.handlers[h]);
        ActorDuty(b, s.shared, h, s.handlers[h], e, late);
        assert h in s'.handlers;
        if s'.shared.status == Creating && s'.shared == s.shared {
          var k :| k in s'.handlers && Inside(s'.handlers[k].pc);
          assert Responsible(b, s'.shared, s'.handlers[k], late);
        }
      } else {
        DutyStays(b, s, e, h, late);
      }
    }
  }

  /** From event t on the clock is not set back. */
  predicate ClockForward(b: Batch, s0: State, events: seq<Event>, t: nat) {
    forall i :: t <= i < |events| && events[i].Tick? ==> Exec(b, s0, events[..i]).shared.clock <= events[i].now
  }

  /** After an increment that reached the expected count, or came after the deadline, no handler failed. */
  ghost predicate Decided(b: Batch, s0: State, events: seq<Event>, t: nat, late: bool) {
    && t < |events| && CountsAt(b, s0, events, t)
    && (forall i :: t <= i < |events| ==> !FailsAt(b, s0, events, i))
    && var w := Exec(b, s0, events[..t + 1]).shared;
       if late then PastDeadline(w) && ClockForward(b, s0, events, t + 1) else |w.counted| >= b.expected
  }

  lemma PrefixStep(b: Batch, s0: State, events: seq<Event>, n: nat)
    requires n < |events|
    ensures Exec(b, s0, events[..n + 1]) == Next(b, Exec(b, s0, events[..n]), events[n])
  {
    assert events[..n + 1] == events[..n] + [events[n]];
    ExecAppend(b, s0, events[..n], events[n]);
  }

  lemma PrefixNotAbandoned(b: Batch, s0: State, events: seq<Event>, n: nat)
    requires n <= |events| && !Abandoned(Exec(b, s0, events))
    ensures !Abandoned(Exec(b, s0, events[..n]))
  {
    assert events[..n] + events[n..] == events;
    ExecConcat(b, s0, events[..n], events[n..]);
    if Abandoned(Exec(b, s0, events[..n])) {
      AbandonedForever(b, Exec(b, s0, events[..n]), events[n..]);
    }
  }

  /** The handler that counted is on duty. */
  lemma CounterOnDuty(b: Batch, s: State, e: Event, late: bool)
    requires Counting(b, s) && Counts(s, e) && !Fails(b, s, e)
    requires var w := Next(b, s, e).shared; if late then PastDeadline(w) else |w.counted| >= b.expected
    ensures OnDuty(b, Next(b, s, e), late)
  {
    ActorStep(b, s, e);
    var h, s' := Actor(s, e).value, Next(b, s, e);
    assert h in s'.handlers && Responsible(b, s'.shared, s'.handlers[h], late);
  }

  lemma DutyAt(b: Batch, s0: State, events: seq<Event>, t: nat, n: nat, late: bool)
    requires Init(s0) && Decided(b, s0, events, t, late) && !Abandoned(Exec(b, s0, events))
    requires t <= n < |events| && (n > t ==> OnDuty(b, Exec(b, s0, events[..n]), late))
    ensures OnDuty(b, Exec(b, s0, events[..n + 1]), late)
  {
    PrefixStep(b, s0, events, n);
    SoundRun(b, s0, events[..n]);
    assert !FailsAt(b, s0, events, n);
    if n == t {
      CounterOnDuty(b, Exec(b, s0, events[..n]), events[n], late);
    } else {
      PrefixNotAbandoned(b, s0, events, n + 1);
      DutyStep(b, Exec(b, s0, events[..n]), events[n], late);
    }
  }

  lemma {:induction false} DutyRun(b: Batch, s0: State, events: seq<Event>, t: nat, n: nat, late: bool)
    requires Init(s0) && Decided(b, s0, events, t, late) && !Abandoned(Exec(b, s0, events))
    requires t < n <= |events|
    ensures OnDuty(b, Exec(b, s0, events[..n]), late)
    decreases n
  {
    if n > t + 1 {
      DutyRun(b, s0, events, t, n - 1, late);
    }
    DutyAt(b, s0, events, t, n - 1, late);
  }

  /** When no handler fails any more after an increment that reached the expected count, or that came after the deadline
      with a clock that is not set back, and all handlers have ended, then a message is out, unless the lock was
      abandoned. Faults before, and lost replies inside snapshot creation, do not matter. */
  lemma DecidedBatchPublishes(b: Batch, s0: State, events: seq<Event>, t: nat, late: bool)
    requires Init(s0) && Decided(b, s0, events, t, late)
    requires var s := Exec(b, s0, events);
             !Abandoned(s) && forall h :: h in s.handlers ==> !Live(s.handlers[h].pc)
    ensures Exec(b, s0, events).shared.published != []
  {
    DutyRun(b, s0, events, t, |events|, late);
    assert events[..|events|] == events;
  }

  // ----- Retried failures -----

  lemma CountedStays(b: Batch, s: State, e: Event)
    ensures !Counts(s, e) ==> Next(b, s, e).shared.counted == s.shared.counted
  {
    if Actor(s, e).Some? {
      ActorStep(b, s, e);
    }
  }

  /** The last increment of a run. */
  lemma {:induction false} LastCount(b: Batch, s0: State, events: seq<Event>) returns (t: nat)
    requires Init(s0) && Exec(b, s0, events).shared.counted != []
    ensures t < |events| && CountsAt(b, s0, events, t)
    ensures forall j :: t < j < |events| ==> !CountsAt(b, s0, events, j)
    ensures Exec(b, s0, events[..t + 1]).shared.counted == Exec(b, s0, events).shared.counted
    decreases |events|
  {
    t := |events| - 1;
    var init := events[..t];
    CountedStays(b, Exec(b, s0, init), events[t]);
    if CountsAt(b, s0, events, t) {
      assert events[..t + 1] == events;
    } else {
      t := LastCount(b, s0, init);
      assert init[..t] == events[..t] && init[..t + 1] == events[..t + 1];
      forall j | t < j < |events|
        ensures !CountsAt(b, s0, events, j)
      {
        if j < |init| {
          assert !CountsAt(b, s0, init, j) && init[..j] == events[..j];
        }
      }
    }
  }

  /** A batch whose handlers have all ended, with at least the expected number of increments, and in which every handler
      that raised or crashed was followed by another increment, has its message out, unless its lock was abandoned. */
  lemma RetriedBatchPublishes(b: Batch, s0: State, events: seq<Event>)
    requires Init(s0)
    requires forall i :: 0 <= i < |events| && FailsAt(b, s0, events, i) ==>
               exists j :: i < j < |events| && CountsAt(b, s0, events, j)
    requires var s := Exec(b, s0, events);
             && !Abandoned(s) && (forall h :: h in s.handlers ==> !Live(s.handlers[h].pc))
             && |s.shared.counted| >= 1 && |s.shared.counted| >= b.expected
    ensures Exec(b, s0, events).shared.published != []
  {
    var t := LastCount(b, s0, events);
    DecidedBatchPublishes(b, s0, events, t, false);
  }
}
