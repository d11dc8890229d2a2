/** Concrete runs in which the batch protocol falls short of what its comments promise. */
module BatchShortfalls {
  import opened Wrappers
  import opened BatchProtocol
  import opened BatchDeliveries
  import opened BatchGuarantees
  import opened BatchProgress

  const TWO_POSTS := Batch(7, 2)

  const EMPTY := Shared(None, {}, 0, None, Missing, map[], [], [], 0, [])

  const START := State(EMPTY, map[], 0)

  lemma Push(s: State, events: seq<Event>, e: Event) returns (s': State, events': seq<Event>)
    requires s == Exec(TWO_POSTS, START, events)
    ensures s' == Next(TWO_POSTS, s, e)
    ensures events' == events + [e] && s' == Exec(TWO_POSTS, START, events')
  {
    s', events' := Next(TWO_POSTS, s, e), events + [e];
    ExecAppend(TWO_POSTS, START, events, e);
  }

  /** One more successful command of handler `h`, whose outcome is `w` and `q`; `base` holds the other handlers. */
  lemma Command(s: State, events: seq<Event>, base: map<nat, Handler>, h: nat, id: int, w: Shared, q: Handler)
    returns (s': State, events': seq<Event>)
    requires s == Exec(TWO_POSTS, START, events) && h in s.handlers && Live(s.handlers[h].pc)
    requires s.handlers == base[h := s.handlers[h]]
    requires w == Effect(TWO_POSTS, s.shared, h, s.handlers[h], id)
    requires q == Advance(TWO_POSTS, s.shared, s.handlers[h], id)
    ensures s' == Exec(TWO_POSTS, START, events')
    ensures s' == State(w, base[h := q], s.lateFaults)
  {
    s', events' := Push(s, events, Do(h, id));
    assert s.handlers[h := q] == base[h := q];
  }

  /** A new handler tracks its batch. */
  lemma Track(s: State, events: seq<Event>, h: nat, doc: int) returns (s': State, events': seq<Event>)
    requires s == Exec(TWO_POSTS, START, events) && doc in s.shared.docs && h !in s.handlers
    ensures s' == Exec(TWO_POSTS, START, events')
    ensures var w := s.shared;
            s' == State(w.(userId := Some(7),
                           deadline := if w.deadline.None? then Some(w.clock + DEADLINE_SEC) else w.deadline),
                        s.handlers[h := NewHandler(doc).(pc := AddDocument)], s.lateFaults)
  {
    var p := NewHandler(doc);
    s', events' := Push(s, events, Start(h, doc));
    var w := s.shared.(userId := Some(7));
    s', events' := Command(s', events', s.handlers, h, 0, w, p.(pc := SetDeadline));
    w := w.(deadline := if w.deadline.None? then Some(w.clock + DEADLINE_SEC) else w.deadline);
    s', events' := Command(s', events', s.handlers, h, 0, w, p.(pc := AddDocument));
  }

  /** ... and counts its document. */
  lemma CountIn(s: State, events: seq<Event>, h: nat, doc: int) returns (s': State, events': seq<Event>)
    requires s == Exec(TWO_POSTS, START, events) && doc in s.shared.docs && h !in s.handlers
    ensures s' == Exec(TWO_POSTS, START, events')
    ensures var w := s.shared;
            s'.shared == w.(userId := Some(7), docIds := w.docIds + {doc}, completed := w.completed + 1,
                            deadline := if w.deadline.None? then Some(w.clock + DEADLINE_SEC) else w.deadline,
                            counted := w.counted + [Tally(h, doc)])
    ensures s'.handlers == s.handlers[h := NewHandler(doc).(pc := GetDeadline, count := s.shared.completed + 1)]
    ensures s'.lateFaults == s.lateFaults
  {
    var p := NewHandler(doc);
    s', events' := Track(s, events, h, doc);
    var w := s'.shared.(docIds := s.shared.docIds + {doc});
    s', events' := Command(s', events', s.handlers, h, 0, w, p.(pc := Count));
    w := w.(completed := w.completed + 1, counted := w.counted + [Tally(h, doc)]);
    s', events' := Command(s', events', s.handlers, h, 0, w, p.(pc := GetDeadline, count := w.completed));
  }

  /** The owner of the lock collects the documents and looks for an existing snapshot. */
  lemma Collect(s: State, events: seq<Event>, h: nat, q: Handler) returns (s': State, events': seq<Event>)
    requires s == Exec(TWO_POSTS, START, events) && h in s.handlers && s.handlers[h].pc == ReadDocuments
    requires s.shared.userId == Some(7)
    requires var p := s.handlers[h].(pc := Find, ids := s.shared.docIds, user := 7);
             q == Advance(TWO_POSTS, s.shared, p, 0)
    ensures s' == Exec(TWO_POSTS, START, events')
    ensures s' == State(s.shared, s.handlers[h := q], s.lateFaults)
  {
    var w, p, base := s.shared, s.handlers[h], s.handlers;
    s', events' := Command(s, events, base, h, 0, w, p.(pc := ReadUser, ids := w.docIds));
    s', events' := Command(s', events', base, h, 0, w, p.(pc := Find, ids := w.docIds, user := 7));
    s', events' := Command(s', events', base, h, 0, w, q);
  }

  /** ... and commits and publishes. */
  lemma Deliver(s: State, events: seq<Event>, h: nat, rows: seq<Snapshot>, snapshotId: int)
    returns (s': State, events': seq<Event>)
    requires s == Exec(TWO_POSTS, START, events) && h in s.handlers && s.handlers[h].pc == Commit
    requires rows == Effect(TWO_POSTS, s.shared, h, s.handlers[h], 9).snapshots
    requires snapshotId == Advance(TWO_POSTS, s.shared, s.handlers[h], 9).snapshotId
    ensures s' == Exec(TWO_POSTS, START, events')
    ensures var w, p := s.shared, s.handlers[h];
            s' == State(w.(snapshots := rows, published := w.published + [Message(snapshotId, p.ids)]),
                        s.handlers[h := p.(pc := MarkCompleted, snapshotId := snapshotId)], s.lateFaults)
  {
    var p := s.handlers[h].(pc := Publish, snapshotId := snapshotId);
    var w := s.shared.(snapshots := rows);
    s', events' := Command(s, events, s.handlers, h, 9, w, p);
    s', events' := Command(s', events', s.handlers, h, 9, w.(published := w.published + [Message(snapshotId, p.ids)]),
                           p.(pc := MarkCompleted));
  }

  /** A handler outside snapshot creation fails. */
  lemma Fail(s: State, events: seq<Event>, h: nat) returns (s': State, events': seq<Event>)
    requires s == Exec(TWO_POSTS, START, events) && h in s.handlers && s.handlers[h].pc == GetDeadline
    ensures s' == Exec(TWO_POSTS, START, events')
    ensures s' == State(s.shared, s.handlers[h := s.handlers[h].(pc := Raised)], s.lateFaults)
  {
    s', events' := Push(s, events, Refuse(h));
  }

  lemma OnePost() returns (s: State, events: seq<Event>)
    ensures s == Exec(TWO_POSTS, START, events)
    ensures s == State(EMPTY.(docs := map[1 := "post"]), map[], 0)
  {
    s, events := Push(START, [], Upsert(1, "post"));
  }

  /** The first handler of post 1 counts it and fails. */
  lemma CountAndFail() returns (s: State, events: seq<Event>)
    ensures s == Exec(TWO_POSTS, START, events)
    ensures s.shared == EMPTY.(userId := Some(7), docIds := {1}, completed := 1, deadline := Some(DEADLINE_SEC),
                               docs := map[1 := "post"], counted := [Tally(0, 1)])
    ensures s.handlers == map[0 := NewHandler(1).(pc := Raised, count := 1)] && s.lateFaults == 0
  {
    s, events := OnePost();
    s, events := CountIn(s, events, 0, 1);
    s, events := Fail(s, events, 0);
  }

  /** Its retry counts it again and takes the lock. */
  lemma RetryTakesLock() returns (s: State, events: seq<Event>)
    ensures s == Exec(TWO_POSTS, START, events)
    ensures s.shared == EMPTY.(userId := Some(7), docIds := {1}, completed := 2, deadline := Some(DEADLINE_SEC),
                               status := Creating, docs := map[1 := "post"], counted := [Tally(0, 1), Tally(1, 1)])
    ensures s.handlers == map[0 := NewHandler(1).(pc := Raised, count := 1),
                              1 := NewHandler(1).(pc := ReadDocuments, count := 2)]
    ensures s.lateFaults == 0
  {
    s, events := CountAndFail();
    var base := s.handlers;
    s, events := CountIn(s, events, 1, 1);
    var w, p := s.shared, s.handlers[1];
    s, events := Command(s, events, base, 1, 0, w, p.(pc := Acquire));
    s, events := Command(s, events, base, 1, 0, w.(status := Creating), p.(pc := ReadDocuments));
  }

  /** Exactness needs every post counted once: here a retry makes two counts of one post, and the snapshot of the
      batch of two is built without the other post although no deadline has passed. */
  lemma RetryShortensSnapshot() returns (s: State, events: seq<Event>)
    ensures Init(START) && s == Exec(TWO_POSTS, START, events)
    ensures s.shared.snapshots == [Snapshot(9, 7, map[1 := "post"], 2, false)]
    ensures s.shared.published == [Message(9, {1})]
    ensures 1 in s.handlers && s.handlers[1].pc == MarkCompleted && !s.handlers[1].wrote
    ensures forall h :: h in s.handlers ==> h < 2
    ensures s.shared.userId == Some(7) && 1 in s.shared.docs
    ensures s.shared.status == Creating && s.lateFaults == 0 && s.shared.completed == 2
  {
    s, events := RetryTakesLock();
    var q := s.handlers[1].(pc := Commit, ids := {1}, user := 7, content := map[1 := "post"]);
    assert Existing(s.shared, {1}) == map[1 := "post"] && 1 in Existing(s.shared, {1});
    assert FindSnapshot(s.shared.snapshots, 7) == None;
    s, events := Collect(s, events, 1, q);
    s, events := Deliver(s, events, 1, [Snapshot(9, 7, map[1 := "post"], 2, false)], 9);
  }

  /** `completed` can be left: the completing write takes effect, its reply is lost, the handler marks the batch
      failed. */
  lemma LostReplyLeavesCompleted() returns (s: State, events: seq<Event>, s': State, events': seq<Event>)
    ensures Init(START) && s == Exec(TWO_POSTS, START, events) && s' == Exec(TWO_POSTS, START, events')
    ensures events <= events' && |events'| == |events| + 1
    ensures s.shared.status == Completed && s'.shared.status == Failed
    ensures s'.lateFaults == 1 && |s'.shared.published| == 1 && s'.shared.userId == Some(7) && 1 in s'.shared.docs
    ensures s'.shared.snapshots == [Snapshot(9, 7, map[1 := "post"], 2, false)] && s'.shared.completed == 2
    ensures forall h :: h in s'.handlers ==> h < 2
  {
    s, events := RetryShortensSnapshot();
    s, events := Push(s, events, Lose(1, 0));
    s', events' := Push(s, events, Do(1, 0));
  }

  lemma LoseLock(s: State, events: seq<Event>, base: map<nat, Handler>, h: nat) returns (s': State, events': seq<Event>)
    requires s == Exec(TWO_POSTS, START, events) && h in s.handlers && s.handlers[h].pc == Acquire
    requires s.handlers == base[h := s.handlers[h]] && s.shared.status == Missing
    ensures s' == Exec(TWO_POSTS, START, events')
    ensures s'.shared == s.shared.(status := Creating)
    ensures exists p: Handler :: s'.handlers == base[h := p] && p.pc == Raised
  {
    s', events' := Push(s, events, Lose(h, 0));
    assert s'.handlers == base[h := s'.handlers[h]];
  }

  /** The retry counts the post again and is triggered. */
  lemma RetryTriggered() returns (s: State, events: seq<Event>)
    ensures s == Exec(TWO_POSTS, START, events)
    ensures s.shared.completed == 2 && s.shared.published == [] && s.shared.status == Missing
    ensures s.handlers.Keys == {0, 1} && s.handlers[0].pc == Raised && s.handlers[1].pc == Acquire
  {
    s, events := CountAndFail();
    var base := s.handlers;
    s, events := CountIn(s, events, 1, 1);
    s, events := Command(s, events, base, 1, 0, s.shared, s.handlers[1].(pc := Acquire));
  }

  /** It wins the lock and does not hear of it: no process crashes, and the batch is abandoned. */
  lemma LostReplyAbandonsBatch() returns (s: State, events: seq<Event>)
    ensures Init(START) && s == Exec(TWO_POSTS, START, events)
    ensures s.shared.completed >= TWO_POSTS.expected && s.shared.published == []
    ensures Abandoned(s) && forall h :: h in s.handlers ==> !s.handlers[h].pc.Crashed?
    ensures forall more :: Exec(TWO_POSTS, s, more).shared.published == []
  {
    s, events := RetryTriggered();
    s, events := LoseLock(s, events, s.handlers, 1);
    forall more
      ensures Exec(TWO_POSTS, s, more).shared.published == []
    {
      AbandonedForever(TWO_POSTS, s, more);
    }
  }

  /** The only post that arrives is counted in time, and its handler finishes: it was not triggered. */
  lemma CountAndFinish() returns (s: State, events: seq<Event>)
    ensures s == Exec(TWO_POSTS, START, events)
    ensures s.shared.completed == 1 && s.shared.published == [] && s.shared.status == Missing
    ensures s.shared.deadline.Some? && s.handlers.Keys == {0} && s.handlers[0].pc == Finished
  {
    s, events := OnePost();
    s, events := CountIn(s, events, 0, 1);
    s, events := Command(s, events, map[], 0, 0, s.shared, s.handlers[0].(pc := Finished));
  }

  /** The other post of the batch never gets that far, and no message is delivered any more. The lock is free, the
      deadline passes, and nobody looks at it: no partial snapshot is ever published. */
  lemma NobodySeesDeadline() returns (s: State, events: seq<Event>)
    ensures Init(START) && s == Exec(TWO_POSTS, START, events)
    ensures s.shared.completed == 1 && s.shared.deadline.Some? && s.shared.status == Missing && !Abandoned(s)
    ensures forall more :: NoDelivery(more) ==> Exec(TWO_POSTS, s, more).shared.published == []
  {
    s, events := CountAndFinish();
    forall more | NoDelivery(more)
      ensures Exec(TWO_POSTS, s, more).shared.published == []
    {
      HopelessRun(TWO_POSTS, s, more);
    }
  }

  /** A crash of the lock's owner abandons the batch: nothing will ever be published. */
  lemma CrashAbandonsBatch() returns (s: State, events: seq<Event>)
    ensures Init(START) && s == Exec(TWO_POSTS, START, events)
    ensures s.shared.completed >= TWO_POSTS.expected && s.shared.published == []
    ensures Abandoned(s)
    ensures forall more :: Exec(TWO_POSTS, s, more).shared.published == []
  {
    s, events := RetryTakesLock();
    s, events := Push(s, events, Crash(1));
    assert Abandoned(s);
    forall more
      ensures Exec(TWO_POSTS, s, more).shared.published == []
    {
      AbandonedForever(TWO_POSTS, s, more);
    }
  }
}
