/** What the batch protocol guarantees over every run, and the runs in which it falls short. */
module BatchGuarantees {
  import opened BatchProtocol

  // ----- Safety over all runs -----

  /** At most one worker is inside snapshot creation. While it is inside, the status is `creating`, unless its own
      completing write took effect and only the reply was lost. */
  lemma MutualExclusion(b: Batch, s0: State, events: seq<Event>, h: nat, k: nat)
    requires Init(s0)
    requires var s := Exec(b, s0, events);
             && h in s.handlers && Inside(s.handlers[h].pc)
             && k in s.handlers && Inside(s.handlers[k].pc)
    ensures h == k
    ensures var s := Exec(b, s0, events);
            s.shared.status == if s.handlers[h].wrote then Completed else Creating
  {
    InvRun(b, s0, events);
  }

  /** The faults counted: the publish or the completing write takes effect without a reply, or the completing write
      raises without effect. */
  lemma LateFaultStep(b: Batch, s: State, e: Event)
    ensures Next(b, s, e).lateFaults == s.lateFaults +
            if || (e.Lose? && e.h in s.handlers && s.handlers[e.h].pc in {Publish, MarkCompleted})
               || (e.Refuse? && e.h in s.handlers && s.handlers[e.h].pc == MarkCompleted)
            then 1 else 0
  {
  }

  /** One message, and one more at most for each fault that hit after a message had been taken. */
  lemma PublishBound(b: Batch, s0: State, events: seq<Event>)
    requires Init(s0)
    ensures var s := Exec(b, s0, events); |s.shared.published| <= 1 + s.lateFaults
  {
    InvRun(b, s0, events);
  }

  /** All messages of the batch name one snapshot document, which exists, and list every post in its content. */
  lemma OneSnapshot(b: Batch, s0: State, events: seq<Event>)
    requires Init(s0)
    ensures var w := Exec(b, s0, events).shared;
            && |w.snapshots| <= 1
            && forall m :: m in w.published ==>
                 && |w.snapshots| == 1
                 && m.documentId == w.snapshots[0].id
                 && w.snapshots[0].owner == b.user
                 && w.snapshots[0].content.Keys <= m.sourceIds
  {
    InvRun(b, s0, events);
    var w := Exec(b, s0, events).shared;
    if w.snapshots != [] {
      assert w.snapshots[0] in w.snapshots;
    }
  }

  lemma ExecAppend(b: Batch, s: State, events: seq<Event>, e: Event)
    ensures Exec(b, s, events + [e]) == Next(b, Exec(b, s, events), e)
  {
    assert (events + [e])[..|events|] == events;
  }

  /** A snapshot, once committed, is never rewritten, even when its posts are ingested again. */
  lemma {:induction false} SnapshotNeverChanges(b: Batch, s: State, events: seq<Event>)
    requires Inv(b, s) && s.shared.snapshots != []
    ensures Exec(b, s, events).shared.snapshots == s.shared.snapshots
    decreases |events|
  {
    if events != [] {
      var init := events[..|events| - 1];
      SnapshotNeverChanges(b, s, init);
      InvRun(b, s, init);
      SnapshotsStep(b, Exec(b, s, init), events[|events| - 1]);
    }
  }

  /** A snapshot has every document counted up to the count that triggered it, and only documents of its batch;
      fewer than expected only if its writer found the deadline passed. */
  lemma SnapshotCoversTrigger(b: Batch, s0: State, events: seq<Event>)
    requires Init(s0)
    ensures var s := Exec(b, s0, events);
            s.shared.snapshots != [] ==>
              var row := s.shared.snapshots[0];
              && Covers(s.shared.counted, row.trigger, row.content.Keys)
              && (forall d :: d in row.content ==> exists h :: h in s.handlers && s.handlers[h].doc == d)
              && (row.trigger >= b.expected || row.late)
  {
    InvRun(b, s0, events);
    var w := Exec(b, s0, events).shared;
    if w.snapshots != [] {
      assert w.snapshots[0] in w.snapshots;
    }
  }

  /** The documents of the first `n` counts. */
  ghost function FirstDocs(counted: seq<Tally>, n: nat): set<int>
    requires n <= |counted|
  {
    if n == 0 then {} else FirstDocs(counted, n - 1) + {counted[n - 1].doc}
  }

  lemma {:induction false} FirstDocsIn(counted: seq<Tally>, n: nat, ids: set<int>)
    requires n <= |counted| && forall i :: 0 <= i < n ==> counted[i].doc in ids
    ensures FirstDocs(counted, n) <= ids
  {
    if n > 0 {
      FirstDocsIn(counted, n - 1, ids);
    }
  }

  /** No post is counted twice among the first `n` counts. */
  ghost predicate NoRerun(counted: seq<Tally>, n: nat) {
    n <= |counted| && forall i, j :: 0 <= i < j < n ==> counted[i].doc != counted[j].doc
  }

  lemma {:induction false} FirstDocsHas(counted: seq<Tally>, n: nat)
    requires n <= |counted|
    ensures forall i :: 0 <= i < n ==> counted[i].doc in FirstDocs(counted, n)
  {
    if n > 0 {
      FirstDocsHas(counted, n - 1);
    }
  }

  lemma {:induction false} DistinctDocs(counted: seq<Tally>, n: nat)
    requires NoRerun(counted, n)
    ensures |FirstDocs(counted, n)| == n
  {
    if n > 0 {
      DistinctDocs(counted, n - 1);
      FirstDocsIn(counted, n - 1, FirstDocs(counted, n) - {counted[n - 1].doc}) by {
        FirstDocsHas(counted, n);
      }
    }
  }

  lemma SubsetSize(a: set<int>, c: set<int>)
    requires a <= c
    ensures |a| <= |c|
    ensures |a| == |c| ==> a == c
  {
    var rest := c - a;
    assert c == a + rest;
    assert |c| == |a| + |rest|;
  }

  /** When a worker reads the documents, the posts it will find are exactly the expected ones if and only if the set
      has as many members as are expected. */
  lemma ExactAtRead(b: Batch, s: State, posts: set<int>)
    requires Inv(b, s) && |posts| == b.expected
    requires forall h :: h in s.handlers ==> s.handlers[h].doc in posts
    ensures Existing(s.shared, s.shared.docIds).Keys == s.shared.docIds
    ensures s.shared.docIds == posts <==> |s.shared.docIds| == b.expected
  {
    forall d | d in s.shared.docIds
      ensures d in posts
    {
      var h :| h in s.handlers && s.handlers[h].doc == d;
    }
    SubsetSize(s.shared.docIds, posts);
  }

  /** Event n of the run is worker h's successful reading of the documents. */
  ghost predicate ReadsAt(b: Batch, s0: State, events: seq<Event>, n: nat, h: nat, ids: set<int>) {
    && n < |events| && events[n].Do? && events[n].h == h
    && var s := Exec(b, s0, events[..n]);
       h in s.handlers && s.handlers[h].pc == ReadDocuments && s.shared.docIds == ids
  }

  /** Event m of the run is the commit of worker h that adds the snapshot row. */
  ghost predicate WritesAt(b: Batch, s0: State, events: seq<Event>, m: nat, h: nat) {
    && m < |events| && (events[m].Do? || events[m].Lose?) && events[m].h == h
    && var s := Exec(b, s0, events[..m]);
       && h in s.handlers && s.handlers[h].pc == Commit
       && s.shared.snapshots == [] && Next(b, s, events[m]).shared.snapshots != []
  }

  lemma ReadsStill(b: Batch, s0: State, events: seq<Event>, n: nat, h: nat, ids: set<int>)
    requires events != [] && ReadsAt(b, s0, events[..|events| - 1], n, h, ids)
    ensures ReadsAt(b, s0, events, n, h, ids)
  {
    assert events[..|events| - 1][..n] == events[..n];
  }

  predicate HasRead(pc: Command) {
    pc.ReadUser? || pc.Find? || pc.Commit? || pc.Publish? || pc.MarkCompleted?
  }

  lemma ActorReads(b: Batch, w: Shared, p: Handler, e: Event)
    requires e.Do? || e.Lose? || e.Refuse? || e.Crash?
    ensures var q := ActorAfter(b, w, p, e);
            HasRead(q.pc) ==>
              if HasRead(p.pc) then q.ids == p.ids else e.Do? && p.pc == ReadDocuments && q.ids == w.docIds
  {
    match p.pc
    case Find =>
    case _ =>
  }

  lemma ReadStep(b: Batch, s: State, e: Event, h: nat)
    requires h in Next(b, s, e).handlers && HasRead(Next(b, s, e).handlers[h].pc)
    ensures h in s.handlers
    ensures var p, q := s.handlers[h], Next(b, s, e).handlers[h];
            if HasRead(p.pc) then q.ids == p.ids
            else e.Do? && e.h == h && p.pc == ReadDocuments && q.ids == s.shared.docIds
  {
    if Actor(s, e).Some? {
      ActorStep(b, s, e);
      ActorReads(b, s.shared, s.handlers[e.h], e);
    }
  }

  /** The ids a worker holds are those of the set when it read it. */
  lemma {:induction false} IdsWereRead(b: Batch, s0: State, events: seq<Event>, h: nat) returns (n: nat)
    requires Init(s0)
    requires var s := Exec(b, s0, events); h in s.handlers && HasRead(s.handlers[h].pc)
    ensures ReadsAt(b, s0, events, n, h, Exec(b, s0, events).handlers[h].ids)
    decreases |events|
  {
    n := |events| - 1;
    var init := events[..n];
    var s := Exec(b, s0, init);
    ReadStep(b, s, events[n], h);
    if HasRead(s.handlers[h].pc) {
      n := IdsWereRead(b, s0, init, h);
      ReadsStill(b, s0, events, n, h, s.handlers[h].ids);
    }
  }

  /** A new snapshot row holds the posts whose ids its writer held. */
  lemma RowFromIds(b: Batch, s: State, e: Event)
    requires Inv(b, s) && s.shared.snapshots == [] && Next(b, s, e).shared.snapshots != []
    ensures (e.Do? || e.Lose?) && e.h in s.handlers && s.handlers[e.h].pc == Commit
    ensures Next(b, s, e).shared.snapshots[0].content.Keys == s.handlers[e.h].ids
  {
    if Actor(s, e).Some? {
      ActorStep(b, s, e);
      assert HandlerSnapshots(b, s.shared, s.handlers[e.h]);
    }
  }

  /** A committed snapshot has the posts of the set as the worker that wrote it had read it before. */
  lemma {:induction false} SnapshotWasRead(b: Batch, s0: State, events: seq<Event>) returns (n: nat, m: nat, h: nat)
    requires Init(s0) && Exec(b, s0, events).shared.snapshots != []
    ensures n < m && WritesAt(b, s0, events, m, h)
    ensures ReadsAt(b, s0, events, n, h, Exec(b, s0, events).shared.snapshots[0].content.Keys)
    decreases |events|
  {
    m := |events| - 1;
    var init, e := events[..m], events[m];
    var s := Exec(b, s0, init);
    InvRun(b, s0, init);
    if s.shared.snapshots == [] {
      RowFromIds(b, s, e);
      h := e.h;
      n := IdsWereRead(b, s0, init, h);
      ReadsStill(b, s0, events, n, h, s.handlers[h].ids);
    } else {
      SnapshotsStep(b, s, e);
      n, m, h := SnapshotWasRead(b, s0, init);
      assert init[..m] == events[..m];
      ReadsStill(b, s0, events, n, h, s.shared.snapshots[0].content.Keys);
    }
  }

  /** A committed snapshot has exactly the expected posts if and only if the set its writer read had as many members as
      are expected. The worker tests the counter instead. */
  lemma SnapshotExactIff(b: Batch, s0: State, events: seq<Event>, posts: set<int>)
    returns (n: nat, m: nat, h: nat, ids: set<int>)
    requires Init(s0) && |posts| == b.expected
    requires var s := Exec(b, s0, events);
             s.shared.snapshots != [] && forall h :: h in s.handlers ==> s.handlers[h].doc in posts
    ensures n < m && ReadsAt(b, s0, events, n, h, ids) && WritesAt(b, s0, events, m, h)
    ensures Exec(b, s0, events).shared.snapshots[0].content.Keys == ids
    ensures Exec(b, s0, events).shared.snapshots[0].content.Keys == posts <==> |ids| == b.expected
  {
    SnapshotCoversTrigger(b, s0, events);
    var s := Exec(b, s0, events);
    n, m, h := SnapshotWasRead(b, s0, events);
    ids := s.shared.snapshots[0].content.Keys;
    forall d | d in ids
      ensures d in posts
    {
      var k :| k in s.handlers && s.handlers[k].doc == d;
    }
    SubsetSize(ids, posts);
  }

  /** That is so, unless the deadline forced the snapshot, when no post was counted twice before the trigger. */
  lemma SnapshotIsExact(b: Batch, s0: State, events: seq<Event>, posts: set<int>)
    requires Init(s0) && |posts| == b.expected
    requires var s := Exec(b, s0, events);
             && s.shared.snapshots != []
             && !s.shared.snapshots[0].late
             && (forall h :: h in s.handlers ==> s.handlers[h].doc in posts)
             && NoRerun(s.shared.counted, s.shared.snapshots[0].trigger)
    ensures Exec(b, s0, events).shared.snapshots[0].content.Keys == posts
  {
    var n, m, writer, ids := SnapshotExactIff(b, s0, events, posts);
    SnapshotCoversTrigger(b, s0, events);
    var s := Exec(b, s0, events);
    var row := s.shared.snapshots[0];
    DistinctDocs(s.shared.counted, row.trigger);
    FirstDocsIn(s.shared.counted, row.trigger, ids);
    SubsetSize(FirstDocs(s.shared.counted, row.trigger), ids);
    forall d | d in ids
      ensures d in posts
    {
      var h :| h in s.handlers && s.handlers[h].doc == d;
    }
    SubsetSize(ids, posts);
  }

  // ----- Leaving `completed` -----

  /** The status leaves `completed` in exactly one way: a worker whose completing write took effect but whose reply
      was lost goes on to mark the batch failed. */
  lemma LeavingCompleted(b: Batch, s: State, e: Event)
    requires Inv(b, s) && s.shared.status == Completed
    ensures Next(b, s, e).shared.status != Completed <==>
            (e.Do? || e.Lose?) && e.h in s.handlers && s.handlers[e.h].pc == MarkFailed
    ensures Next(b, s, e).shared.status != Completed ==> s.handlers[e.h].wrote
  {
    if Actor(s, e).Some? {
      ActorStep(b, s, e);
      var p := s.handlers[e.h];
      match p.pc
      case Acquire =>
      case Transition =>
      case MarkCompleted =>
      case MarkFailed =>
      case _ =>
    }
  }

  /** Completed, and nobody is there to overwrite it. */
  ghost predicate CompletedForGood(s: State) {
    s.shared.status == Completed && forall h :: h in s.handlers ==> !Inside(s.handlers[h].pc)
  }

  lemma CompletedForGoodStep(b: Batch, s: State, e: Event)
    requires CompletedForGood(s)
    ensures CompletedForGood(Next(b, s, e))
  {
    if Actor(s, e).Some? {
      ActorStep(b, s, e);
      var p := s.handlers[e.h];
      match p.pc
      case GetDeadline =>
      case Acquire =>
      case GetStatus =>
      case Transition =>
      case _ =>
    }
  }

  lemma {:induction false} CompletedForever(b: Batch, s: State, more: seq<Event>)
    requires CompletedForGood(s)
    ensures CompletedForGood(Exec(b, s, more))
    decreases |more|
  {
    if more != [] {
      CompletedForever(b, s, more[..|more| - 1]);
      CompletedForGoodStep(b, Exec(b, s, more[..|more| - 1]), more[|more| - 1]);
    }
  }

  lemma FailureMark(b: Batch, s: State, h: nat)
    requires h in s.handlers && s.handlers[h].pc == MarkFailed
    ensures Exec(b, s, [Do(h, 0)]).shared.status == Failed
  {
    assert [Do(h, 0)][..0] == [];
  }

  lemma CompletedAlone(s: State)
    requires Mutex(s) && s.shared.status == Completed
    requires forall h :: h in s.handlers ==> s.handlers[h].pc != MarkFailed
    ensures CompletedForGood(s)
  {
    forall h | h in s.handlers
      ensures !Inside(s.handlers[h].pc)
    {
      assert HandlerHolds(s.shared.status, s.handlers[h]);
    }
  }

  /** A completed status can still be left if and only if some worker is about to mark the batch failed. */
  lemma CanLeaveCompletedIff(b: Batch, s: State)
    requires Mutex(s) && s.shared.status == Completed
    ensures (exists more :: Exec(b, s, more).shared.status != Completed) <==>
            exists h :: h in s.handlers && s.handlers[h].pc == MarkFailed
  {
    if h :| h in s.handlers && s.handlers[h].pc == MarkFailed {
      FailureMark(b, s, h);
    } else {
      CompletedAlone(s);
      forall more
        ensures Exec(b, s, more).shared.status == Completed
      {
        CompletedForever(b, s, more);
      }
    }
  }

  /** No completing write of the run took effect and lost its reply. */
  ghost predicate CompletionsAcknowledged(b: Batch, s0: State, events: seq<Event>)
    decreases |events|
  {
    events == [] ||
    var before, e := Exec(b, s0, events[..|events| - 1]), events[|events| - 1];
    && CompletionsAcknowledged(b, s0, events[..|events| - 1])
    && !(e.Lose? && e.h in before.handlers && before.handlers[e.h].pc == MarkCompleted)
  }

  lemma {:induction false} NoneWrote(b: Batch, s0: State, events: seq<Event>)
    requires Init(s0) && CompletionsAcknowledged(b, s0, events)
    ensures forall h :: h in Exec(b, s0, events).handlers ==> !Exec(b, s0, events).handlers[h].wrote
    decreases |events|
  {
    if events != [] {
      NoneWrote(b, s0, events[..|events| - 1]);
      var before, e := Exec(b, s0, events[..|events| - 1]), events[|events| - 1];
      if Actor(before, e).Some? {
        ActorStep(b, before, e);
      }
    }
  }

  /** A run that acknowledges its completing writes never leaves `completed`. */
  lemma {:induction false} CompletedStays(b: Batch, s0: State, events: seq<Event>, n: nat)
    requires Init(s0) && CompletionsAcknowledged(b, s0, events)
    requires n <= |events| && Exec(b, s0, events[..n]).shared.status == Completed
    ensures Exec(b, s0, events).shared.status == Completed
    decreases |events|
  {
    if n < |events| {
      var init, e := events[..|events| - 1], events[|events| - 1];
      assert init[..n] == events[..n];
      CompletedStays(b, s0, init, n);
      InvRun(b, s0, init);
      NoneWrote(b, s0, init);
      LeavingCompleted(b, Exec(b, s0, init), e);
    } else {
      assert events[..n] == events;
    }
  }

  // ----- The deadline -----

  /** The deadline is set once: later messages of the batch do not move it. */
  lemma {:induction false} DeadlineIsFixed(b: Batch, s: State, more: seq<Event>)
    requires s.shared.deadline.Some?
    ensures Exec(b, s, more).shared.deadline == s.shared.deadline
    decreases |more|
  {
    if more != [] {
      DeadlineIsFixed(b, s, more[..|more| - 1]);
      DeadlineStep(b, Exec(b, s, more[..|more| - 1]), more[|more| - 1]);
    }
  }

  lemma DeadlineStep(b: Batch, s: State, e: Event)
    requires s.shared.deadline.Some?
    ensures Next(b, s, e).shared.deadline == s.shared.deadline
  {
    if Actor(s, e).Some? {
      ActorStep(b, s, e);
    }
  }

  // ----- Runs without faults -----

  ghost predicate FaultFree(events: seq<Event>) {
    forall e :: e in events ==> e.Upsert? || e.Start? || e.Tick? || e.Do?
  }

  /** A handler of a run without faults has not failed, and finds its own count at its place. */
  ghost predicate Finishing(b: Batch, w: Shared, h: nat, p: Handler) {
    && !p.pc.MarkFailed? && !p.pc.Raised? && !p.pc.Crashed?
    && (!BeforeCount(p.pc) ==> 1 <= p.count <= |w.counted| && w.counted[p.count - 1].handler == h)
    && (p.pc.GetStatus? || p.pc.Transition? || Inside(p.pc) ==> w.status != Missing)
    && (p.pc.Finished? && p.count >= b.expected ==> w.status != Missing)
    && (Inside(p.pc) ==> |w.published| == if p.pc.MarkCompleted? then 1 else 0)
  }

  /** Nothing failed: the lock is free and nothing published, or held, or the message is out. */
  ghost predicate Smooth(b: Batch, s: State) {
    var w := s.shared;
    && (forall h :: h in s.handlers ==> Finishing(b, w, h, s.handlers[h]))
    && (w.status == Missing ==> w.published == [])
    && (w.status == Creating ==> exists h :: h in s.handlers && Inside(s.handlers[h].pc))
    && (w.status == Completed ==> |w.published| == 1)
    && w.status != Failed
  }

  /** Posts are never missing when the snapshot is built, so `no source documents` is never raised. */
  lemma PostsFound(b: Batch, s: State, h: nat)
    requires Inv(b, s) && h in s.handlers && s.handlers[h].pc == Find
    ensures Existing(s.shared, s.handlers[h].ids) != map[]
  {
    assert s.handlers[h].doc in Existing(s.shared, s.handlers[h].ids);
  }

  lemma ActorFinishing(b: Batch, w: Shared, h: nat, p: Handler, id: int)
    requires Finishing(b, w, h, p) && Live(p.pc) && w.completed == |w.counted|
    requires w.status != Failed && (w.status == Missing ==> w.published == [])
    requires p.pc == Find ==> Existing(w, p.ids) != map[]
    ensures Finishing(b, Effect(b, w, h, p, id), h, Advance(b, w, p, id))
  {
    match p.pc
    case Count =>
    case Acquire =>
    case Publish =>
    case _ =>
  }

  lemma OthersFinishing(b: Batch, w: Shared, w': Shared, k: nat, q: Handler)
    requires Finishing(b, w, k, q) && Grows(b, w, w')
    requires w.status != Missing ==> w'.status != Missing
    requires Inside(q.pc) ==> w'.published == w.published
    ensures Finishing(b, w', k, q)
  {
  }

  /** The lock is held on until the completing write, and that comes after the message. */
  lemma StatusSmooth(b: Batch, w: Shared, h: nat, p: Handler, id: int)
    requires Finishing(b, w, h, p) && Live(p.pc) && w.status != Failed && HandlerHolds(w.status, p) && !p.wrote
    requires p.pc == Find ==> Existing(w, p.ids) != map[]
    ensures var w', p' := Effect(b, w, h, p, id), Advance(b, w, p, id);
            && (w'.status == w.status || (w.status == Missing && w'.status == Creating && Inside(p'.pc))
                || (w'.status == Completed && p.pc.MarkCompleted?))
            && (Inside(p.pc) && !p.pc.MarkCompleted? ==> Inside(p'.pc))
            && (p.pc.MarkCompleted? ==> w'.status == Completed)
            && (w'.published != w.published ==> p.pc.Publish?)
  {
    match p.pc
    case Acquire =>
    case Transition =>
    case MarkCompleted =>
    case _ =>
  }

  lemma SmoothAfter(b: Batch, s: State, s': State, h: nat)
    requires Smooth(b, s) && Mutex(s) && h in s.handlers && h in s'.handlers
    requires s'.handlers == s.handlers[h := s'.handlers[h]] && Grows(b, s.shared, s'.shared)
    requires Finishing(b, s'.shared, h, s'.handlers[h])
    requires var w, w', p, p' := s.shared, s'.shared, s.handlers[h], s'.handlers[h];
             && (w'.status == w.status || (w.status == Missing && w'.status == Creating && Inside(p'.pc))
                 || (w'.status == Completed && p.pc.MarkCompleted?))
             && (Inside(p.pc) && !p.pc.MarkCompleted? ==> Inside(p'.pc))
             && (p.pc.MarkCompleted? ==> w'.status == Completed)
             && (w'.published != w.published ==> p.pc.Publish?)
             && !p.wrote
    ensures Smooth(b, s')
  {
    var w, w' := s.shared, s'.shared;
    assert HandlerHolds(w.status, s.handlers[h]);
    forall k | k in s.handlers && k != h
      ensures Finishing(b, w', k, s.handlers[k])
    {
      OthersFinishing(b, w, w', k, s.handlers[k]);
    }
    if w'.status == Creating && !Inside(s'.handlers[h].pc) {
      var k :| k in s.handlers && Inside(s.handlers[k].pc);
      assert k != h && k in s'.handlers && Inside(s'.handlers[k].pc);
    }
  }

  lemma SmoothDo(b: Batch, s: State, h: nat, id: int)
    requires Inv(b, s) && Smooth(b, s) && h in s.handlers && Live(s.handlers[h].pc)
    ensures Smooth(b, Next(b, s, Do(h, id)))
  {
    var w, p := s.shared, s.handlers[h];
    if p.pc == Find {
      PostsFound(b, s, h);
    }
    StatusSmooth(b, w, h, p, id);
    ActorFinishing(b, w, h, p, id);
    EffectGrows(b, w, h, p, id);
    SmoothAfter(b, s, Next(b, s, Do(h, id)), h);
  }

  lemma SmoothStep(b: Batch, s: State, e: Event)
    requires Inv(b, s) && Smooth(b, s)
    requires e.Upsert? || e.Start? || e.Tick? || e.Do?
    ensures Smooth(b, Next(b, s, e))
  {
    if Actor(s, e).Some? {
      SmoothDo(b, s, e.h, e.id);
    } else {
      SmoothRest(b, s, e);
    }
  }

  lemma SmoothRest(b: Batch, s: State, e: Event)
    requires Smooth(b, s) && Actor(s, e).None?
    ensures Smooth(b, Next(b, s, e))
  {
    var s' := Next(b, s, e);
    forall h | h in s'.handlers
      ensures Finishing(b, s'.shared, h, s'.handlers[h])
    {
      if h in s.handlers {
        OthersFinishing(b, s.shared, s'.shared, h, s.handlers[h]);
      }
    }
    if s.shared.status == Creating {
      var k :| k in s.handlers && Inside(s.handlers[k].pc);
      assert k in s'.handlers && s'.handlers[k] == s.handlers[k];
    }
  }

  lemma {:induction false} SmoothRun(b: Batch, s0: State, events: seq<Event>)
    requires Init(s0) && FaultFree(events)
    ensures Smooth(b, Exec(b, s0, events))
    decreases |events|
  {
    if events != [] {
      var init := events[..|events| - 1];
      SmoothRun(b, s0, init);
      InvRun(b, s0, init);
      assert events[|events| - 1] in events;
      SmoothStep(b, Exec(b, s0, init), events[|events| - 1]);
    }
  }

  ghost function CountedHandlers(counted: seq<Tally>): (r: set<nat>)
    ensures |r| <= |counted|
    ensures forall i :: 0 <= i < |counted| ==> counted[i].handler in r
  {
    if counted == [] then {} else CountedHandlers(counted[..|counted| - 1]) + {counted[|counted| - 1].handler}
  }

  lemma AllCounted(b: Batch, s: State)
    requires Smooth(b, s) && forall h :: h in s.handlers ==> !Live(s.handlers[h].pc)
    ensures |s.handlers| <= |s.shared.counted|
  {
    var all := CountedHandlers(s.shared.counted);
    forall h | h in s.handlers.Keys
      ensures h in all
    {
      assert Finishing(b, s.shared, h, s.handlers[h]);
    }
    SubsetSize(s.handlers.Keys, all);
  }

  /** The last handler to count was triggered, and did not find the lock missing in the end. */
  lemma LastTriggered(b: Batch, s: State)
    requires Smooth(b, s) && Counted(s.shared, s.handlers) && forall h :: h in s.handlers ==> !Live(s.handlers[h].pc)
    requires |s.shared.counted| >= 1 && |s.shared.counted| >= b.expected
    ensures s.shared.status == Completed
  {
    var n := |s.shared.counted|;
    var last := s.shared.counted[n - 1].handler;
    assert Finishing(b, s.shared, last, s.handlers[last]);
    assert s.handlers[last].count == n by {
      var count := s.handlers[last].count;
      assert s.shared.counted[count - 1].handler == last;
    }
  }

  /** Without faults, once at least `expected` handlers have run and all have finished, exactly one message is out. */
  lemma FaultFreePublishesOnce(b: Batch, s0: State, events: seq<Event>)
    requires Init(s0) && FaultFree(events)
    requires var s := Exec(b, s0, events);
             && |s.handlers| >= 1 && |s.handlers| >= b.expected
             && forall h :: h in s.handlers ==> !Live(s.handlers[h].pc)
    ensures |Exec(b, s0, events).shared.published| == 1
    ensures Exec(b, s0, events).shared.status == Completed
  {
    SmoothRun(b, s0, events);
    InvRun(b, s0, events);
    AllCounted(b, Exec(b, s0, events));
    LastTriggered(b, Exec(b, s0, events));
  }
}
