/** Which states of a batch can still lead to a message, and how the others come about. */
module BatchProgress {
  import opened BatchProtocol
  import opened BatchGuarantees

  // ----- An abandoned lock -----

  ghost predicate Abandoned(s: State) {
    && s.shared.status == Creating
    && forall h :: h in s.handlers ==> !Inside(s.handlers[h].pc)
  }

  /** A lock without an owner is never released: nothing is published any more, whatever happens. */
  lemma {:induction false} AbandonedForever(b: Batch, s: State, events: seq<Event>)
    requires Abandoned(s)
    ensures Abandoned(Exec(b, s, events))
    ensures Exec(b, s, events).shared.published == s.shared.published
    decreases |events|
  {
    if events != [] {
      var init := events[..|events| - 1];
      AbandonedForever(b, s, init);
      AbandonedStep(b, Exec(b, s, init), events[|events| - 1]);
    }
  }

  lemma AbandonedStep(b: Batch, s: State, e: Event)
    requires Abandoned(s)
    ensures Abandoned(Next(b, s, e))
    ensures Next(b, s, e).shared.published == s.shared.published
  {
    if Actor(s, e).Some? {
      ActorStep(b, s, e);
      var p := s.handlers[e.h];
      match p.pc
      case GetDeadline =>
      case Acquire =>
      case GetStatus =>
      case Transition =>
      case _ =>
    }
  }

  /** The three faults that leave the lock without an owner: a crash inside snapshot creation, a lost reply of the
      command that has just won the lock, and a failure mark that did not reach Redis. */
  predicate Orphans(w: Shared, p: Handler, e: Event) {
    || (e.Crash? && Inside(p.pc) && w.status == Creating)
    || (e.Lose? && p.pc == Acquire && w.status == Missing)
    || (e.Lose? && p.pc == Transition && w.status == Failed)
    || (e.Refuse? && p.pc == MarkFailed && w.status == Creating)
  }

  ghost predicate OthersOutside(s: State, h: nat) {
    forall k :: k in s.handlers && k != h ==> !Inside(s.handlers[k].pc)
  }

  lemma AbandonedAfter(s: State, s': State, h: nat, q: Handler)
    requires s'.handlers == s.handlers[h := q]
    ensures Abandoned(s') <==> s'.shared.status == Creating && !Inside(q.pc) && OthersOutside(s, h)
  {
    if Abandoned(s') {
      forall k | k in s.handlers && k != h
        ensures !Inside(s.handlers[k].pc)
      {
        assert k in s'.handlers && s'.handlers[k] == s.handlers[k];
      }
      assert h in s'.handlers;
    }
  }

  /** A step abandons the lock if and only if it is one of these faults. */
  lemma EnteringAbandoned(b: Batch, s: State, e: Event)
    requires Inv(b, s) && !Abandoned(s)
    ensures Abandoned(Next(b, s, e)) <==> Actor(s, e).Some? && Orphans(s.shared, s.handlers[Actor(s, e).value], e)
  {
    var s' := Next(b, s, e);
    if Actor(s, e).Some? {
      ActorStep(b, s, e);
      var h := Actor(s, e).value;
      OrphanedStep(b, s.shared, h, s.handlers[h], e);
      OneInside(s, h);
      AbandonedAfter(s, s', h, ActorAfter(b, s.shared, s.handlers[h], e));
    } else if s.shared.status == Creating {
      var h :| h in s.handlers && Inside(s.handlers[h].pc);
      assert h in s'.handlers && s'.handlers[h] == s.handlers[h];
    }
  }

  /** The status and the place of the acting handler after its step. */
  lemma OrphanedStep(b: Batch, w: Shared, h: nat, p: Handler, e: Event)
    requires HandlerHolds(w.status, p) && Live(p.pc)
    requires e.Do? || e.Lose? || e.Refuse? || e.Crash?
    ensures var status' := if Effective(e) then Effect(b, w, h, p, RowId(e)).status else w.status;
            (status' == Creating && !Inside(ActorAfter(b, w, p, e).pc)) <==>
              Orphans(w, p, e) || (w.status == Creating && !Inside(p.pc))
  {
    match p.pc
    case Acquire =>
    case GetStatus =>
    case Transition =>
    case Find =>
    case MarkCompleted =>
    case MarkFailed =>
    case _ =>
  }

  /** An inside handler is the only one, and holds the status. */
  lemma OneInside(s: State, h: nat)
    requires Mutex(s) && h in s.handlers
    ensures HandlerHolds(s.shared.status, s.handlers[h])
    ensures Inside(s.handlers[h].pc) ==> OthersOutside(s, h)
    ensures s.shared.status == Missing || s.shared.status == Failed ==> OthersOutside(s, h) && !Inside(s.handlers[h].pc)
  {
    forall k | k in s.handlers
      ensures HandlerHolds(s.shared.status, s.handlers[k])
    {
    }
  }

  // ----- Every other state can still lead to a message -----

  /** A handler that has only the completing write ahead, and a completed status, come after a message. */
  ghost predicate Announced(s: State) {
    && (s.shared.status == Completed ==> s.shared.published != [])
    && (forall h :: h in s.handlers && s.handlers[h].pc == MarkCompleted ==> s.shared.published != [])
  }

  lemma ActorAnnounces(b: Batch, w: Shared, h: nat, p: Handler, e: Event)
    requires e.Do? || e.Lose? || e.Refuse? || e.Crash?
    requires (w.status == Completed || p.pc == MarkCompleted) ==> w.published != []
    ensures var w' := if Effective(e) then Effect(b, w, h, p, RowId(e)) else w;
            && (w'.status == Completed || ActorAfter(b, w, p, e).pc == MarkCompleted ==> w'.published != [])
            && (w.published != [] ==> w'.published != [])
  {
    match p.pc
    case Find =>
    case Publish =>
    case MarkCompleted =>
    case _ =>
  }

  lemma AnnouncedStep(b: Batch, s: State, e: Event)
    requires Announced(s)
    ensures Announced(Next(b, s, e))
  {
    if Actor(s, e).Some? {
      ActorStep(b, s, e);
      var h := Actor(s, e).value;
      ActorAnnounces(b, s.shared, h, s.handlers[h], e);
    }
  }

  lemma {:induction false} AnnouncedRun(b: Batch, s: State, events: seq<Event>)
    requires Init(s) || Announced(s)
    ensures Announced(Exec(b, s, events))
    decreases |events|
  {
    if events != [] {
      AnnouncedRun(b, s, events[..|events| - 1]);
      AnnouncedStep(b, Exec(b, s, events[..|events| - 1]), events[|events| - 1]);
    }
  }

  lemma {:induction false} ExecConcat(b: Batch, s: State, events: seq<Event>, more: seq<Event>)
    ensures Exec(b, s, events + more) == Exec(b, Exec(b, s, events), more)
    decreases |more|
  {
    if more == [] {
      assert events + more == events;
    } else {
      var init := more[..|more| - 1];
      ExecConcat(b, s, events, init);
      assert (events + more)[..|events + more| - 1] == events + init;
    }
  }

  /** The commands left until the message is out. */
  function Rank(pc: Command): nat {
    match pc
    case SetUser => 12
    case SetDeadline => 11
    case AddDocument => 10
    case Count => 9
    case GetDeadline => 8
    case Acquire => 7
    case GetStatus => 6
    case Transition => 5
    case ReadDocuments => 4
    case ReadUser => 3
    case Find => 2
    case Commit => 1
    case _ => 0
  }

  /** On the way to the message: inside before the publish, or outside with the lock to be had and the deadline
      passed. */
  ghost predicate OnTheWay(b: Batch, s: State, h: nat) {
    && Inv(b, s) && h in s.handlers
    && Live(s.handlers[h].pc) && s.handlers[h].pc != MarkCompleted && s.handlers[h].pc != MarkFailed
    && (!Inside(s.handlers[h].pc) ==> s.shared.status == Missing || s.shared.status == Failed)
    && (BeforeCount(s.handlers[h].pc) || s.handlers[h].pc == GetDeadline ==> PastDeadline(s.shared))
    && (s.handlers[h].pc == GetStatus || s.handlers[h].pc == Transition ==> s.shared.status == Failed)
  }

  /** What a command on the way may change. */
  ghost predicate Onwards(w: Shared, p: Handler, w': Shared, p': Handler) {
    && Live(p'.pc) && p'.pc != MarkCompleted && p'.pc != MarkFailed && Rank(p'.pc) < Rank(p.pc)
    && (!Inside(p'.pc) ==> w'.status == w.status)
    && (p'.pc == GetStatus || p'.pc == Transition ==> w'.status == Failed)
    && w'.deadline == w.deadline && w'.clock == w.clock && w'.published == w.published
  }

  lemma OnwardOutside(b: Batch, w: Shared, h: nat, p: Handler)
    requires HandlerCounts(b, w, p) && Live(p.pc) && !Inside(p.pc)
    requires w.status == Missing || w.status == Failed
    requires BeforeCount(p.pc) || p.pc == GetDeadline ==> PastDeadline(w)
    requires p.pc == GetStatus || p.pc == Transition ==> w.status == Failed
    ensures Onwards(w, p, Effect(b, w, h, p, 0), Advance(b, w, p, 0))
    ensures BeforeCount(Advance(b, w, p, 0).pc) || Advance(b, w, p, 0).pc == GetDeadline ==> BeforeCount(p.pc)
  {
    match p.pc
    case GetDeadline =>
    case Acquire =>
    case GetStatus =>
    case Transition =>
    case _ =>
  }

  lemma OnwardInside(b: Batch, w: Shared, h: nat, p: Handler)
    requires Inside(p.pc) && p.pc != MarkCompleted && p.pc != MarkFailed && p.pc != Publish
    requires p.pc == Find ==> Existing(w, p.ids) != map[]
    ensures Onwards(w, p, Effect(b, w, h, p, 0), Advance(b, w, p, 0)) && Inside(Advance(b, w, p, 0).pc)
  {
    match p.pc
    case ReadDocuments =>
    case ReadUser =>
    case Find =>
    case Commit =>
  }

  lemma StillOnTheWay(b: Batch, s: State, s': State, h: nat)
    requires OnTheWay(b, s, h) && Inv(b, s') && h in s'.handlers
    requires Onwards(s.shared, s.handlers[h], s'.shared, s'.handlers[h])
    requires Inside(s.handlers[h].pc) ==> Inside(s'.handlers[h].pc)
    requires BeforeCount(s'.handlers[h].pc) || s'.handlers[h].pc == GetDeadline ==> BeforeCount(s.handlers[h].pc)
    ensures OnTheWay(b, s', h)
  {
  }

  lemma OnwardCommand(b: Batch, s: State, h: nat)
    requires OnTheWay(b, s, h) && s.handlers[h].pc != Publish
    ensures var s' := Next(b, s, Do(h, 0));
            && h in s'.handlers && s'.lateFaults == s.lateFaults
            && Onwards(s.shared, s.handlers[h], s'.shared, s'.handlers[h])
            && (Inside(s.handlers[h].pc) ==> Inside(s'.handlers[h].pc))
            && (BeforeCount(s'.handlers[h].pc) || s'.handlers[h].pc == GetDeadline ==> BeforeCount(s.handlers[h].pc))
  {
    ActorStep(b, s, Do(h, 0));
    if Inside(s.handlers[h].pc) {
      if s.handlers[h].pc == Find {
        PostsFound(b, s, h);
      }
      OnwardInside(b, s.shared, h, s.handlers[h]);
    } else {
      OnwardOutside(b, s.shared, h, s.handlers[h]);
    }
  }

  lemma OnwardStep(b: Batch, s: State, h: nat)
    requires OnTheWay(b, s, h) && s.handlers[h].pc != Publish
    ensures var s' := Next(b, s, Do(h, 0));
            && OnTheWay(b, s', h) && Rank(s'.handlers[h].pc) < Rank(s.handlers[h].pc)
            && s'.shared.published == s.shared.published && s'.lateFaults == s.lateFaults
  {
    InvStep(b, s, Do(h, 0));
    OnwardCommand(b, s, h);
    StillOnTheWay(b, s, Next(b, s, Do(h, 0)), h);
  }

  /** No message of the batch is delivered any more. */
  ghost predicate NoDelivery(events: seq<Event>) {
    forall e :: e in events ==> !e.Start?
  }

  /** It goes on to publish one more message, without a fault or another delivery. */
  lemma {:induction false} Onward(b: Batch, s: State, h: nat) returns (more: seq<Event>)
    requires OnTheWay(b, s, h)
    ensures NoDelivery(more)
    ensures var s' := Exec(b, s, more);
            && |s'.shared.published| == |s.shared.published| + 1 && s'.lateFaults == s.lateFaults
            && h in s'.handlers && s'.handlers[h].pc == MarkCompleted
    decreases Rank(s.handlers[h].pc)
  {
    var e := Do(h, 0);
    if s.handlers[h].pc == Publish {
      more := [e];
    } else {
      OnwardStep(b, s, h);
      var rest := Onward(b, Next(b, s, e), h);
      more := [e] + rest;
      ExecConcat(b, s, [e], rest);
    }
    assert Exec(b, s, [e]) == Next(b, s, e) by {
      assert [e][..0] == [];
    }
  }

  lemma {:induction false} FreshHandler(handlers: set<nat>) returns (h: nat)
    ensures forall k :: k in handlers ==> k < h
  {
    h := 0;
    if handlers != {} {
      var k :| k in handlers;
      var rest := FreshHandler(handlers - {k});
      assert forall j :: j in handlers ==> j == k || j in handlers - {k};
      h := if k < rest then rest else k + 1;
    }
  }

  /** One more event of a run. */
  lemma Then(b: Batch, s0: State, events: seq<Event>, s: State, e: Event) returns (s': State, events': seq<Event>)
    requires s == Exec(b, s0, events) && Inv(b, s)
    ensures s' == Next(b, s, e) && Inv(b, s')
    ensures events' == events + [e] && s' == Exec(b, s0, events')
  {
    s', events' := Next(b, s, e), events + [e];
    ExecAppend(b, s0, events, e);
    InvStep(b, s, e);
  }

  lemma Redelivered(b: Batch, s: State, h: nat, doc: int, text: string)
    requires h !in s.handlers
    ensures var s' := Next(b, Next(b, s, Upsert(doc, text)), Start(h, doc));
            && h in s'.handlers && s'.handlers[h].pc == SetUser
            && s'.lateFaults == s.lateFaults && s'.shared.published == s.shared.published
            && s'.shared.status == s.shared.status
  {
  }

  /** A message of the batch is delivered once more: its post is ingested and a new handler starts. */
  lemma Redeliver(b: Batch, s: State) returns (s': State, more: seq<Event>, h: nat)
    requires Inv(b, s)
    ensures s' == Exec(b, s, more) && Inv(b, s')
    ensures h in s'.handlers && s'.handlers[h].pc == SetUser
    ensures s'.lateFaults == s.lateFaults && s'.shared.published == s.shared.published
    ensures s'.shared.status == s.shared.status
  {
    h := FreshHandler(s.handlers.Keys);
    var doc, text := 0, "";
    if d :| d in s.shared.docs {
      doc, text := d, s.shared.docs[d];
    }
    more := [Upsert(doc, text)] + [Start(h, doc)];
    s' := Exec(b, s, more);
    ExecAppend(b, s, [], Upsert(doc, text));
    assert [] + [Upsert(doc, text)] == [Upsert(doc, text)];
    ExecAppend(b, s, [Upsert(doc, text)], Start(h, doc));
    InvRun(b, s, more);
    Redelivered(b, s, h, doc, text);
  }

  /** The first commands of a handler, and a failure mark, as far as they matter here. */
  lemma Commands(b: Batch, s: State, h: nat)
    requires h in s.handlers
    requires s.handlers[h].pc == SetUser || s.handlers[h].pc == SetDeadline || s.handlers[h].pc == MarkFailed
    ensures var s', pc := Next(b, s, Do(h, 0)), s.handlers[h].pc;
            && h in s'.handlers && s'.lateFaults == s.lateFaults && s'.shared.published == s.shared.published
            && (pc == SetUser ==> s'.handlers[h].pc == SetDeadline && s'.shared.status == s.shared.status)
            && (pc == SetDeadline ==> s'.handlers[h].pc == AddDocument && s'.shared.deadline.Some?
                                      && s'.shared.status == s.shared.status)
            && (pc == MarkFailed ==> s'.shared.status == Failed)
  {
  }

  /** Past the deadline every handler that may still take the lock is on the way. */
  lemma TimePasses(b: Batch, s: State, h: nat)
    requires h in s.handlers && Live(s.handlers[h].pc) && !Inside(s.handlers[h].pc) && s.shared.deadline.Some?
    requires s.shared.status == Missing || s.shared.status == Failed
    requires s.handlers[h].pc == GetStatus || s.handlers[h].pc == Transition ==> s.shared.status == Failed
    requires Inv(b, Next(b, s, Tick(s.shared.deadline.value + 1)))
    ensures OnTheWay(b, Next(b, s, Tick(s.shared.deadline.value + 1)), h)
  {
  }

  /** Its handler finds a deadline, or sets one, and time passes. */
  lemma WaitForDeadline(b: Batch, s: State, h: nat) returns (s': State, more: seq<Event>)
    requires Inv(b, s) && h in s.handlers && s.handlers[h].pc == SetUser
    requires s.shared.status == Missing || s.shared.status == Failed
    ensures s' == Exec(b, s, more) && OnTheWay(b, s', h) && NoDelivery(more)
    ensures s'.lateFaults == s.lateFaults && s'.shared.published == s.shared.published
  {
    var s1 := Next(b, s, Do(h, 0));
    Commands(b, s, h);
    var s2 := Next(b, s1, Do(h, 0));
    Commands(b, s1, h);
    var wait := Tick(s2.shared.deadline.value + 1);
    more := [Do(h, 0)] + [Do(h, 0)] + [wait];
    s' := Next(b, s2, wait);
    ExecAppend(b, s, [], Do(h, 0));
    assert [] + [Do(h, 0)] == [Do(h, 0)];
    ExecAppend(b, s, [Do(h, 0)], Do(h, 0));
    ExecAppend(b, s, [Do(h, 0)] + [Do(h, 0)], wait);
    InvRun(b, s, more);
    TimePasses(b, s2, h);
  }

  /** With the lock free, or failed, a message of the batch that is delivered once more brings the analysis out after
      the deadline, however many posts are missing. */
  lemma StartOver(b: Batch, s: State) returns (more: seq<Event>, h: nat)
    requires Inv(b, s) && (s.shared.status == Missing || s.shared.status == Failed)
    ensures var s' := Exec(b, s, more);
            && |s'.shared.published| == |s.shared.published| + 1 && s'.lateFaults == s.lateFaults
            && h in s'.handlers && s'.handlers[h].pc == MarkCompleted
  {
    var s1, first, s2, second;
    s1, first, h := Redeliver(b, s);
    s2, second := WaitForDeadline(b, s1, h);
    var third := Onward(b, s2, h);
    ExecConcat(b, s, first, second);
    ExecConcat(b, s, first + second, third);
    more := first + second + third;
  }

  /** As long as nothing has been published, a batch can still be published if and only if its lock is not abandoned,
      provided that its messages may be delivered further times. */
  lemma CanPublishIffNotAbandoned(b: Batch, s0: State, events: seq<Event>)
    requires Init(s0) && Exec(b, s0, events).shared.published == []
    ensures var s := Exec(b, s0, events);
            (exists more :: Exec(b, s, more).shared.published != []) <==> !Abandoned(s)
  {
    var s := Exec(b, s0, events);
    InvRun(b, s0, events);
    AnnouncedRun(b, s0, events);
    if Abandoned(s) {
      forall more
        ensures Exec(b, s, more).shared.published == []
      {
        AbandonedForever(b, s, more);
      }
    } else {
      var more := ReachMessage(b, s);
      assert Exec(b, s, more).shared.published != [];
    }
  }

  lemma ReachMessage(b: Batch, s: State) returns (more: seq<Event>)
    requires Inv(b, s) && Announced(s) && s.shared.published == [] && !Abandoned(s)
    ensures Exec(b, s, more).shared.published != []
  {
    if s.shared.status == Missing || s.shared.status == Failed {
      var h;
      more, h := StartOver(b, s);
    } else {
      var h :| h in s.handlers && Inside(s.handlers[h].pc);
      if s.handlers[h].pc == MarkFailed {
        more := FailAndStartOver(b, s, h);
      } else {
        more := Onward(b, s, h);
      }
    }
  }

  lemma FailAndStartOver(b: Batch, s: State, h: nat) returns (more: seq<Event>)
    requires Inv(b, s) && h in s.handlers && s.handlers[h].pc == MarkFailed
    ensures Exec(b, s, more).shared.published != []
  {
    var s1, first := Then(b, s, [], s, Do(h, 0));
    Commands(b, s, h);
    var rest, _ := StartOver(b, s1);
    ExecConcat(b, s, first, rest);
    more := first + rest;
  }

  /** Step n of the run is one of the faults that leave the lock without an owner. */
  predicate OrphansAt(b: Batch, s0: State, events: seq<Event>, n: nat)
    requires n < |events|
  {
    var s := Exec(b, s0, events[..n]);
    Actor(s, events[n]).Some? && Orphans(s.shared, s.handlers[Actor(s, events[n]).value], events[n])
  }

  lemma OrphansOwned(s: State, h: nat, e: Event)
    requires h in s.handlers && Orphans(s.shared, s.handlers[h], e)
    ensures !Abandoned(s)
  {
    assert s.shared.status == Creating ==> Inside(s.handlers[h].pc);
  }

  lemma ExecFrom(b: Batch, s0: State, events: seq<Event>, n: nat)
    requires n < |events|
    ensures Exec(b, s0, events) == Exec(b, Next(b, Exec(b, s0, events[..n]), events[n]), events[n + 1..])
  {
    ExecAppend(b, s0, events[..n], events[n]);
    assert events[..n] + [events[n]] + events[n + 1..] == events;
    ExecConcat(b, s0, events[..n] + [events[n]], events[n + 1..]);
  }

  lemma OrphansAbandon(b: Batch, s0: State, events: seq<Event>, n: nat)
    requires Init(s0) && n < |events| && OrphansAt(b, s0, events, n)
    ensures Abandoned(Exec(b, s0, events))
  {
    var s, e := Exec(b, s0, events[..n]), events[n];
    InvRun(b, s0, events[..n]);
    OrphansOwned(s, e.h, e);
    EnteringAbandoned(b, s, e);
    AbandonedForever(b, Next(b, s, e), events[n + 1..]);
    ExecFrom(b, s0, events, n);
  }

  lemma {:induction false} AbandonedWasOrphaned(b: Batch, s0: State, events: seq<Event>) returns (n: nat)
    requires Init(s0) && Abandoned(Exec(b, s0, events))
    ensures n < |events| && OrphansAt(b, s0, events, n)
    decreases |events|
  {
    n := |events| - 1;
    var init := events[..n];
    InvRun(b, s0, init);
    if Abandoned(Exec(b, s0, init)) {
      n := AbandonedWasOrphaned(b, s0, init);
      assert init[..n] == events[..n];
    } else {
      EnteringAbandoned(b, Exec(b, s0, init), events[n]);
    }
  }

  /** A run has abandoned its lock if and only if one of its steps was such a fault. */
  lemma AbandonedIffOrphaned(b: Batch, s0: State, events: seq<Event>)
    requires Init(s0)
    ensures Abandoned(Exec(b, s0, events)) <==> exists n :: 0 <= n < |events| && OrphansAt(b, s0, events, n)
  {
    if n: nat :| n < |events| && OrphansAt(b, s0, events, n) {
      OrphansAbandon(b, s0, events, n);
    }
    if Abandoned(Exec(b, s0, events)) {
      var n := AbandonedWasOrphaned(b, s0, events);
    }
  }

  // ----- The publish bound is the least one -----

  /** After the message, the completing write is refused and the batch marked failed. */
  lemma FailCompletion(b: Batch, s: State, h: nat)
    requires h in s.handlers && s.handlers[h].pc == MarkCompleted
    ensures var s' := Next(b, s, Refuse(h));
            && h in s'.handlers && s'.handlers[h].pc == MarkFailed
            && s'.lateFaults == s.lateFaults + 1 && s'.shared.published == s.shared.published
  {
  }

  /** For every batch and every number of late faults there is a run with one message more than late faults. */
  lemma {:induction false} PublishBoundIsMet(b: Batch, s0: State, n: nat) returns (events: seq<Event>, h: nat)
    requires Init(s0)
    ensures var s := Exec(b, s0, events);
            && s.lateFaults == n && |s.shared.published| == n + 1
            && h in s.handlers && s.handlers[h].pc == MarkCompleted
  {
    InvRun(b, s0, []);
    if n == 0 {
      events, h := StartOver(b, s0);
    } else {
      events, h := PublishBoundIsMet(b, s0, n - 1);
      InvRun(b, s0, events);
      var s := Exec(b, s0, events);
      var s1, more := Then(b, s0, events, s, Refuse(h));
      FailCompletion(b, s, h);
      var s2, more2 := Then(b, s0, more, s1, Do(h, 0));
      Commands(b, s1, h);
      var rest;
      rest, h := StartOver(b, s2);
      ExecConcat(b, s0, more2, rest);
      events := more2 + rest;
    }
  }
}
