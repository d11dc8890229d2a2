/** The batch handler as the worker runs it, command by command, while other processes run between its commands.
    Its runs are runs of the batch protocol. */
module BatchWorker {
  import opened Wrappers
  import opened BatchProtocol
  import opened BatchGuarantees

  /** A run of the protocol from its initial state, event by event. */
  ghost predicate IsRun(b: Batch, states: seq<State>, log: seq<Event>) {
    && |states| == |log| + 1
    && Init(states[0])
    && forall i :: 0 <= i < |log| ==> states[i + 1] == Next(b, states[i], log[i])
  }

  lemma {:induction false} IsRunExec(b: Batch, states: seq<State>, log: seq<Event>, n: nat)
    requires IsRun(b, states, log) && n <= |log|
    ensures states[n] == Exec(b, states[0], log[..n])
  {
    if n > 0 {
      IsRunExec(b, states, log, n - 1);
      assert log[..n][..n - 1] == log[..n - 1];
    }
  }

  /** Is this a step of handler `h`? */
  predicate Own(e: Event, h: nat) {
    (e.Do? || e.Lose? || e.Refuse? || e.Crash?) && e.h == h
  }

  predicate IsFault(e: Event, h: nat) {
    (e.Lose? || e.Refuse?) && e.h == h
  }

  predicate FoundIn(s: State, h: nat, p: Handler, w: Shared) {
    h in s.handlers && s.handlers[h] == p && s.shared == w
  }

  lemma OthersKeep(b: Batch, s: State, e: Event, h: nat)
    requires h in s.handlers && !Own(e, h)
    ensures var s' := Next(b, s, e); h in s'.handlers && s'.handlers[h] == s.handlers[h]
  {
    if Actor(s, e).Some? {
      ActorStep(b, s, e);
    }
  }

  /** The command after one that does not branch. */
  function Following(c: Command): Command {
    match c
    case SetUser => SetDeadline
    case SetDeadline => AddDocument
    case AddDocument => Count
    case Count => GetDeadline
    case ReadDocuments => ReadUser
    case ReadUser => Find
    case Commit => Publish
    case Publish => MarkCompleted
    case MarkCompleted => Finished
    case MarkFailed => Raised
    case _ => c
  }

  class Cluster {
    const batch: Batch
    var st: State
    ghost var log: seq<Event>      // all events so far
    ghost var states: seq<State>   // the states before, between and after them
    ghost var rowId: int  // row id offered to the last command

    constructor (batch: Batch, docs: map<int, string>, clock: int)
      ensures Valid() && this.batch == batch && st.handlers == map[] && st.shared.docs == docs
    {
      var empty := State(Shared(None, {}, 0, None, Missing, docs, [], [], clock, []), map[], 0);
      this.batch, st, log, states := batch, empty, [], [empty];
    }

    /** Everything so far is one run of the protocol from its initial state. */
    ghost predicate Valid()
      reads this
    {
      IsRun(batch, states, log) && st == states[|log|]
    }

    method Apply(e: Event)
      requires Valid()
      modifies this`st, this`log, this`states
      ensures Valid() && log == old(log) + [e] && states == old(states) + [st] && st == Next(batch, old(st), e)
    {
      st := Next(batch, st, e);
      log, states := log + [e], states + [st];
    }

    /** Other processes take any number of steps. */
    method Others(h: nat)
      requires Valid() && h in st.handlers
      modifies this
      ensures Valid()
      ensures h in st.handlers && st.handlers[h] == old(st.handlers[h])
    {
      var n: nat := *;
      while n > 0
        invariant Valid()
        invariant h in st.handlers && st.handlers[h] == old(st.handlers[h])
      {
        var e: Event := *;
        if !Own(e, h) {
          OthersKeep(batch, st, e, h);
          Apply(e);
        }
        n := n - 1;
      }
    }

    /** The handler issues its next command. `w` is the shared state in which the command runs: its reply is read
        off from it. If the command raises, it may have taken effect or not. */
    method Issue(h: nat, command: Command) returns (ok: bool, w: Shared)
      requires Valid() && h in st.handlers && st.handlers[h].pc == command && Live(command)
      modifies this
      ensures Valid() && h in st.handlers
      ensures log != [] && FoundIn(states[|log| - 1], h, old(st.handlers[h]), w)
      ensures if ok then log[|log| - 1] == Do(h, rowId) else IsFault(log[|log| - 1], h)
      ensures ok ==> st.handlers[h] == Advance(batch, w, old(st.handlers[h]), rowId)
      ensures !ok ==> st.handlers[h].pc == Throw(old(st.handlers[h])).pc
    {
      Others(h);
      w := st.shared;
      var id: int := *;
      rowId := id;
      ok := *;
      if ok {
        Apply(Do(h, id));
      } else {
        var effective: bool := *;
        if effective {
          Apply(Lose(h, id));
        } else {
          Apply(Refuse(h));
        }
      }
    }

    /** A command after which the handler always goes on to the same next one. */
    method Continue(h: nat, command: Command) returns (ok: bool, w: Shared)
      requires Valid() && h in st.handlers && st.handlers[h].pc == command
      requires Live(command) && Following(command) != command
      modifies this
      ensures Valid() && h in st.handlers
      ensures st.handlers[h].pc == if ok then Following(command) else Throw(old(st.handlers[h])).pc
      ensures !ok ==> log != [] && IsFault(log[|log| - 1], h)
      ensures ok && command == Count ==> st.handlers[h].count == w.completed + 1
    {
      ok, w := Issue(h, command);
    }

    method HandleFullBlogBatch(h: nat) returns (raised: bool)
      requires Valid() && h in st.handlers && st.handlers[h].pc == SetUser
      modifies this
      ensures Valid()
      ensures h in st.handlers && st.handlers[h].pc == if raised then Raised else Finished
    {
      var ok, completed := CountPost(h);
      if !ok {
        return true;
      }
      var w;
      ok, w := Issue(h, GetDeadline);
      if !ok {
        return true;
      }
      var pastDeadline := w.deadline.Some? && w.deadline.value < w.clock;
      if completed >= batch.expected || (pastDeadline && completed > 0) {
        var entered;
        ok, entered := EnterSnapshot(h);
        if !ok || !entered {
          return !ok;
        }
        raised := CreateSnapshotAndPublish(h);
      } else {
        raised := false;
      }
    }

    /** Batch metadata and the deadline. */
    method TrackBatch(h: nat) returns (ok: bool)
      requires Valid() && h in st.handlers && st.handlers[h].pc == SetUser
      modifies this
      ensures Valid()
      ensures h in st.handlers && st.handlers[h].pc == if ok then AddDocument else Raised
    {
      var w;
      ok, w := Continue(h, SetUser);
      if ok {
        ok, w := Continue(h, SetDeadline);
      }
    }

    /** ... and the document id, then the counter. */
    method CountPost(h: nat) returns (ok: bool, completed: nat)
      requires Valid() && h in st.handlers && st.handlers[h].pc == SetUser
      modifies this
      ensures Valid()
      ensures h in st.handlers && st.handlers[h].pc == if ok then GetDeadline else Raised
      ensures ok ==> st.handlers[h].count == completed
    {
      completed := 0;
      ok := TrackBatch(h);
      var w;
      if ok {
        ok, w := Continue(h, AddDocument);
      }
      if ok {
        ok, w := Continue(h, Count);
        completed := w.completed + 1;
      }
    }

    /** Only the worker that sets the missing status, or turns `failed` back into `creating`, goes on. */
    method EnterSnapshot(h: nat) returns (ok: bool, entered: bool)
      requires Valid() && h in st.handlers && st.handlers[h].pc == Acquire
      modifies this
      ensures Valid()
      ensures h in st.handlers
      ensures st.handlers[h].pc == if !ok then Raised else if entered then ReadDocuments else Finished
    {
      entered := false;
      var w;
      ok, w := Issue(h, Acquire);
      if !ok {
        return;
      }
      var locked := w.status == Missing;
      if locked {
        return true, true;
      }
      ok, entered := RetryFailed(h);
    }

    /** The status was already set: a batch that failed before may be taken over, by one worker. */
    method RetryFailed(h: nat) returns (ok: bool, entered: bool)
      requires Valid() && h in st.handlers && st.handlers[h].pc == GetStatus
      modifies this
      ensures Valid()
      ensures h in st.handlers
      ensures st.handlers[h].pc == if !ok then Raised else if entered then ReadDocuments else Finished
    {
      entered := false;
      var w;
      ok, w := Issue(h, GetStatus);
      if !ok {
        return;
      }
      var existing := w.status;
      if existing == Completed || existing == Creating {
        return;
      }
      ok, entered := TakeOver(h);
    }

    /** The script that turns `failed` into `creating`; its reply tells whether it did. */
    method TakeOver(h: nat) returns (ok: bool, retried: bool)
      requires Valid() && h in st.handlers && st.handlers[h].pc == Transition
      modifies this
      ensures Valid()
      ensures h in st.handlers
      ensures st.handlers[h].pc == if !ok then Raised else if retried then ReadDocuments else Finished
    {
      var w;
      ok, w := Issue(h, Transition);
      retried := w.status == Failed;
    }

    method CreateSnapshotAndPublish(h: nat) returns (raised: bool)
      requires Valid() && h in st.handlers && st.handlers[h].pc == ReadDocuments
      modifies this
      ensures Valid()
      ensures h in st.handlers && st.handlers[h].pc == if raised then Raised else Finished
    {
      var ok := BuildSnapshot(h);
      var w;
      if ok {
        ok, w := Continue(h, Publish);
        if ok {
          ok, w := Continue(h, MarkCompleted);
        }
      }
      if !ok {
        var _, _ := Continue(h, MarkFailed);
      }
      raised := !ok;
    }

    /** The documents collected so far, the user, and the snapshot transaction; false when one of them raised. */
    method BuildSnapshot(h: nat) returns (ok: bool)
      requires Valid() && h in st.handlers && st.handlers[h].pc == ReadDocuments
      modifies this
      ensures Valid()
      ensures h in st.handlers && st.handlers[h].pc == if ok then Publish else MarkFailed
    {
      var w;
      ok, w := Continue(h, ReadDocuments);
      if ok {
        ok, w := Continue(h, ReadUser);
      }
      if ok {
        ok := CommitSnapshot(h);
      }
    }

    /** The snapshot service in its transaction. It raises when no post is found, which does not happen: only a fault
        makes it fail. */
    method CommitSnapshot(h: nat) returns (ok: bool)
      requires Valid() && h in st.handlers && st.handlers[h].pc == Find
      modifies this
      ensures Valid()
      ensures h in st.handlers && st.handlers[h].pc == if ok then Publish else MarkFailed
      ensures !ok ==> log != [] && IsFault(log[|log| - 1], h)
    {
      ok := LookUp(h);
      if ok {
        var w;
        ok, w := Continue(h, Commit);
      }
    }

    /** Looks for an existing snapshot, else collects the posts. */
    method LookUp(h: nat) returns (ok: bool)
      requires Valid() && h in st.handlers && st.handlers[h].pc == Find
      modifies this
      ensures Valid()
      ensures h in st.handlers && st.handlers[h].pc == if ok then Commit else MarkFailed
      ensures !ok ==> log != [] && IsFault(log[|log| - 1], h)
    {
      var user, ids := st.handlers[h].user, st.handlers[h].ids;
      var w;
      ok, w := Issue(h, Find);
      if ok {
        var reused := FindSnapshot(w.snapshots, user).Some?;
        if !reused && Existing(w, ids) == map[] {
          HandlerFindsPosts(h, |log| - 1);
          ok := false;
        }
      }
    }

    lemma HandlerFindsPosts(h: nat, n: nat)
      requires Valid() && n <= |log| && h in states[n].handlers && states[n].handlers[h].pc == Find
      ensures Existing(states[n].shared, states[n].handlers[h].ids) != map[]
    {
      IsRunExec(batch, states, log, n);
      InvRun(batch, states[0], log[..n]);
      PostsFound(batch, states[n], h);
    }
  }
}
