/** What becomes of a batch once its messages have all been delivered: the deadline is only looked at by a handler, so
    somebody has to be there to find it passed. */
module BatchDeliveries {
  import opened BatchProtocol
  import opened BatchGuarantees
  import opened BatchProgress

  // ----- Without further deliveries -----

  /** A handler that is past its second command has a deadline to look at, and one that was refused the lock finds a
      status. */
  ghost predicate HandlerTimed(w: Shared, p: Handler) {
    && (Live(p.pc) && !p.pc.SetUser? && !p.pc.SetDeadline? ==> w.deadline.Some?)
    && (p.pc.GetStatus? || p.pc.Transition? ==> w.status != Missing)
  }

  ghost predicate Timed(s: State) {
    forall h :: h in s.handlers ==> HandlerTimed(s.shared, s.handlers[h])
  }

  lemma ActorTimed(b: Batch, w: Shared, h: nat, p: Handler, e: Event)
    requires HandlerTimed(w, p) && Live(p.pc) && (e.Do? || e.Lose? || e.Refuse? || e.Crash?)
    ensures var w' := if Effective(e) then Effect(b, w, h, p, RowId(e)) else w;
            && HandlerTimed(w', ActorAfter(b, w, p, e))
            && (w.deadline.Some? ==> w'.deadline.Some?) && (w.status != Missing ==> w'.status != Missing)
  {
    match p.pc
    case SetDeadline =>
    case GetDeadline =>
    case Acquire =>
    case GetStatus =>
    case Transition =>
    case Find =>
    case _ =>
  }

  lemma TimedStep(b: Batch, s: State, e: Event)
    requires Timed(s)
    ensures Timed(Next(b, s, e))
  {
    if Actor(s, e).Some? {
      ActorStep(b, s, e);
      var h := Actor(s, e).value;
      ActorTimed(b, s.shared, h, s.handlers[h], e);
    }
  }

  lemma {:induction false} TimedRun(b: Batch, s: State, events: seq<Event>)
    requires Init(s) || Timed(s)
    ensures Timed(Exec(b, s, events))
    decreases |events|
  {
    if events != [] {
      TimedRun(b, s, events[..|events| - 1]);
      TimedStep(b, Exec(b, s, events[..|events| - 1]), events[|events| - 1]);
    }
  }

  /** A handler that may still bring the message out. */
  ghost predicate Hopeful(s: State, h: nat) {
    h in s.handlers && Live(s.handlers[h].pc) && s.handlers[h].pc != MarkFailed
  }

  lemma HopelessStep(b: Batch, s: State, e: Event)
    requires !e.Start? && forall h :: !Hopeful(s, h)
    ensures forall h :: !Hopeful(Next(b, s, e), h)
    ensures Next(b, s, e).shared.published == s.shared.published
  {
    if Actor(s, e).Some? {
      ActorStep(b, s, e);
      assert !Hopeful(s, e.h);
    }
    forall h
      ensures !Hopeful(Next(b, s, e), h)
    {
      assert !Hopeful(s, h);
    }
  }

  lemma {:induction false} HopelessRun(b: Batch, s: State, more: seq<Event>)
    requires NoDelivery(more) && forall h :: !Hopeful(s, h)
    ensures forall h :: !Hopeful(Exec(b, s, more), h)
    ensures Exec(b, s, more).shared.published == s.shared.published
    decreases |more|
  {
    if more != [] {
      var init, e := more[..|more| - 1], more[|more| - 1];
      assert e in more && forall d :: d in init ==> d in more;
      HopelessRun(b, s, init);
      HopelessStep(b, Exec(b, s, init), e);
    }
  }

  /** What the proof below needs of a state. */
  ghost predicate Sound(b: Batch, s: State) {
    Inv(b, s) && Announced(s) && Timed(s)
  }

  lemma SoundRun(b: Batch, s: State, events: seq<Event>)
    requires Init(s) || Sound(b, s)
    ensures Sound(b, Exec(b, s, events))
  {
    InvRun(b, s, events);
    AnnouncedRun(b, s, events);
    TimedRun(b, s, events);
  }

  lemma ExecOne(b: Batch, s: State, e: Event)
    ensures Exec(b, s, [e]) == Next(b, s, e)
  {
    assert [e][..0] == [];
  }

  /** With the lock to be had, a handler outside brings the message out when the deadline has passed. */
  lemma OutsidePublishes(b: Batch, s: State, h: nat) returns (more: seq<Event>)
    requires Sound(b, s) && Hopeful(s, h) && !Inside(s.handlers[h].pc)
    requires s.shared.status == Missing || s.shared.status == Failed
    ensures NoDelivery(more) && Exec(b, s, more).shared.published != []
    decreases Rank(s.handlers[h].pc)
  {
    assert HandlerTimed(s.shared, s.handlers[h]);
    if s.handlers[h].pc == SetUser || s.handlers[h].pc == SetDeadline {
      Commands(b, s, h);
      SoundRun(b, s, [Do(h, 0)]);
      ExecOne(b, s, Do(h, 0));
      var rest := OutsidePublishes(b, Next(b, s, Do(h, 0)), h);
      more := [Do(h, 0)] + rest;
      ExecConcat(b, s, [Do(h, 0)], rest);
    } else {
      var wait := Tick(s.shared.deadline.value + 1);
      SoundRun(b, s, [wait]);
      ExecOne(b, s, wait);
      TimePasses(b, s, h);
      var rest := Onward(b, Next(b, s, wait), h);
      more := [wait] + rest;
      ExecConcat(b, s, [wait], rest);
    }
  }

  /** A failure mark in progress is written first. */
  lemma AfterFailurePublishes(b: Batch, s: State, h: nat, k: nat) returns (more: seq<Event>)
    requires Sound(b, s) && Hopeful(s, h) && k in s.handlers && s.handlers[k].pc == MarkFailed
    ensures NoDelivery(more) && Exec(b, s, more).shared.published != []
  {
    OneInside(s, k);
    Commands(b, s, k);
    SoundRun(b, s, [Do(k, 0)]);
    ExecOne(b, s, Do(k, 0));
    assert Next(b, s, Do(k, 0)).handlers[h] == s.handlers[h];
    var rest := OutsidePublishes(b, Next(b, s, Do(k, 0)), h);
    more := [Do(k, 0)] + rest;
    ExecConcat(b, s, [Do(k, 0)], rest);
  }

  lemma HopefulPublishes(b: Batch, s: State, h: nat) returns (more: seq<Event>)
    requires Sound(b, s) && Hopeful(s, h) && s.shared.published == [] && !Abandoned(s)
    ensures NoDelivery(more) && Exec(b, s, more).shared.published != []
  {
    if s.shared.status == Missing || s.shared.status == Failed {
      OneInside(s, h);
      more := OutsidePublishes(b, s, h);
    } else {
      var k :| k in s.handlers && Inside(s.handlers[k].pc);
      if s.handlers[k].pc == MarkFailed {
        more := AfterFailurePublishes(b, s, h, k);
      } else {
        more := Onward(b, s, k);
      }
    }
  }

  /** As long as nothing has been published, a batch whose messages are not delivered again can still be published if and
      only if its lock is not abandoned and some handler is running that does not just mark a failure. */
  lemma CanPublishUndeliveredIff(b: Batch, s0: State, events: seq<Event>)
    requires Init(s0) && Exec(b, s0, events).shared.published == []
    ensures var s := Exec(b, s0, events);
            (exists more :: NoDelivery(more) && Exec(b, s, more).shared.published != []) <==>
              !Abandoned(s) && exists h :: Hopeful(s, h)
  {
    var s := Exec(b, s0, events);
    SoundRun(b, s0, events);
    if Abandoned(s) {
      forall more
        ensures Exec(b, s, more).shared.published == []
      {
        AbandonedForever(b, s, more);
      }
    } else if h :| Hopeful(s, h) {
      var more := HopefulPublishes(b, s, h);
    } else {
      forall more | NoDelivery(more)
        ensures Exec(b, s, more).shared.published == []
      {
        HopelessRun(b, s, more);
      }
    }
  }
}
