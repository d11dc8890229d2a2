/** The FULL_BLOG batch protocol: any number of worker processes track one batch in shared Redis keys, and the one
    that finds the batch complete (or late) builds the snapshot document and publishes the analysis message.

    Every Redis command, database transaction and broker publish is one atomic step. A command may also fail
    without effect, take effect and lose its reply, or be cut short by a crash of its process. A run is any
    sequence of events, so handlers interleave freely and any post may be handled any number of times. */
module BatchProtocol {
  import opened Wrappers

  const DEADLINE_SEC := 1800

  /** What every message of the batch carries. */
  datatype Batch = Batch(user: int, expected: int)

  /** The snapshot_status key: missing, or one of its three values. */
  datatype Status = Missing | Creating | Completed | Failed

  /** A snapshot row: its posts with the text they had, and (history) the count that triggered its writer and
      whether that writer found the deadline passed. */
  datatype Snapshot = Snapshot(id: int, owner: int, content: map<int, string>, trigger: nat, late: bool)

  datatype Message = Message(documentId: int, sourceIds: set<int>)

  datatype Tally = Tally(handler: nat, doc: int)

  /** Redis keys of the batch, the database, the broker and the clock; `counted` is history: one tally for
      each INCR, in their order. */
  datatype Shared = Shared(
    userId: Option<int>, docIds: set<int>, completed: nat, deadline: Option<int>, status: Status,
    docs: map<int, string>, snapshots: seq<Snapshot>,
    published: seq<Message>,
    clock: int,
    counted: seq<Tally>)

  /** The command a handler executes next. */
  datatype Command =
    | SetUser | SetDeadline | AddDocument | Count | GetDeadline
    | Acquire | GetStatus | Transition
    | ReadDocuments | ReadUser | Find | Commit | Publish | MarkCompleted | MarkFailed
    | Finished | Raised | Crashed

  /** One run of the batch handler, with its local variables. `wrote` is history: the completing write took effect
      although its reply was lost. */
  datatype Handler = Handler(
    doc: int, pc: Command,
    count: nat, late: bool, ids: set<int>, user: int,
    found: Option<int>, content: map<int, string>, snapshotId: int,
    wrote: bool)

  /** `lateFaults` is history: the faults that hit a handler after the broker took its message. */
  datatype State = State(shared: Shared, handlers: map<nat, Handler>, lateFaults: nat)

  datatype Event =
    | Upsert(doc: int, text: string)  // a post document is committed or updated
    | Start(h: nat, doc: int)         // a handler starts for a committed post
    | Tick(now: int)
    | Do(h: nat, id: int)             // the next command succeeds; `id` is the row id of an insert
    | Lose(h: nat, id: int)           // it takes effect, but its reply is lost and the client raises
    | Refuse(h: nat)                  // it raises without effect
    | Crash(h: nat)

  function NewHandler(doc: int): Handler {
    Handler(doc, SetUser, 0, false, {}, 0, None, map[], 0, false)
  }

  /** Inside snapshot creation, from winning the lock to the last status write. */
  predicate Inside(pc: Command) {
    || pc.ReadDocuments? || pc.ReadUser? || pc.Find? || pc.Commit? || pc.Publish? || pc.MarkCompleted?
    || pc.MarkFailed?
  }

  predicate Live(pc: Command) {
    !(pc.Finished? || pc.Raised? || pc.Crashed?)
  }

  function FindSnapshot(rows: seq<Snapshot>, owner: int): (r: Option<nat>)
    ensures r.Some? ==> r.value < |rows| && rows[r.value].owner == owner
    ensures r.None? ==> forall i :: 0 <= i < |rows| ==> rows[i].owner != owner
  {
    if rows == [] then None
    else if rows[0].owner == owner then Some(0)
    else
      var rest := FindSnapshot(rows[1..], owner);
      if rest.Some? then Some(rest.value + 1) else None
  }

  /** The document service's upsert: an existing row keeps its id and has its content replaced. */
  function UpsertSnapshot(rows: seq<Snapshot>, row: Snapshot): seq<Snapshot> {
    var at := FindSnapshot(rows, row.owner);
    if at.Some? then rows[at.value := row.(id := rows[at.value].id)] else rows + [row]
  }

  function UpsertedId(rows: seq<Snapshot>, owner: int, id: int): int {
    var at := FindSnapshot(rows, owner);
    if at.Some? then rows[at.value].id else id
  }

  /** What the next command of handler `h` does to the shared state when it takes effect. */
  function Effect(b: Batch, w: Shared, h: nat, p: Handler, id: int): Shared {
    match p.pc
    case SetUser => w.(userId := Some(b.user))
    case SetDeadline => if w.deadline.None? then w.(deadline := Some(w.clock + DEADLINE_SEC)) else w
    case AddDocument => w.(docIds := w.docIds + {p.doc})
    case Count => w.(completed := w.completed + 1, counted := w.counted + [Tally(h, p.doc)])
    case Acquire => if w.status.Missing? then w.(status := Creating) else w
    case Transition => if w.status == Failed then w.(status := Creating) else w
    case Commit =>
      if p.found.Some? then w
      else w.(snapshots := UpsertSnapshot(w.snapshots, Snapshot(id, p.user, p.content, p.count, p.late)))
    case Publish => w.(published := w.published + [Message(p.snapshotId, p.ids)])
    case MarkCompleted => w.(status := Completed)
    case MarkFailed => w.(status := Failed)
    case _ => w
  }

  predicate PastDeadline(w: Shared) {
    w.deadline.Some? && w.deadline.value < w.clock
  }

  predicate Triggers(b: Batch, count: nat, late: bool) {
    count >= b.expected || (late && count > 0)
  }

  function Existing(w: Shared, ids: set<int>): map<int, string> {
    map d | d in ids && d in w.docs :: w.docs[d]
  }

  /** How a handler goes on after the reply to its command. */
  function Advance(b: Batch, w: Shared, p: Handler, id: int): Handler {
    match p.pc
    case SetUser => p.(pc := SetDeadline)
    case SetDeadline => p.(pc := AddDocument)
    case AddDocument => p.(pc := Count)
    case Count => p.(pc := GetDeadline, count := w.completed + 1)
    case GetDeadline =>
      p.(pc := if Triggers(b, p.count, PastDeadline(w)) then Acquire else Finished, late := PastDeadline(w))
    case Acquire => p.(pc := if w.status.Missing? then ReadDocuments else GetStatus)
    case GetStatus => p.(pc := if w.status == Completed || w.status == Creating then Finished else Transition)
    case Transition => p.(pc := if w.status == Failed then ReadDocuments else Finished)
    case ReadDocuments => p.(pc := ReadUser, ids := w.docIds)
    case ReadUser => p.(pc := Find, user := if w.userId.Some? then w.userId.value else 0)
    case Find =>
      var at := FindSnapshot(w.snapshots, p.user);
      if at.Some? then p.(pc := Commit, found := Some(w.snapshots[at.value].id))
      else if Existing(w, p.ids) == map[] then p.(pc := MarkFailed)
      else p.(pc := Commit, found := None, content := Existing(w, p.ids))
    case Commit =>
      p.(pc := Publish, snapshotId := if p.found.Some? then p.found.value else UpsertedId(w.snapshots, p.user, id))
    case Publish => p.(pc := MarkCompleted)
    case MarkCompleted => p.(pc := Finished)
    case MarkFailed => p.(pc := Raised)
    case _ => p
  }

  /** An exception inside snapshot creation is caught once, to mark the batch failed; elsewhere it ends the handler. */
  function Throw(p: Handler): Handler {
    if Inside(p.pc) && p.pc != MarkFailed then p.(pc := MarkFailed) else p.(pc := Raised)
  }

  /** A fault after the broker took the message of this handler. */
  predicate LateFault(p: Handler, effective: bool) {
    p.pc == MarkCompleted || (p.pc == Publish && effective)
  }

  function Bump(n: nat, b: bool): nat {
    if b then n + 1 else n
  }

  function Next(b: Batch, s: State, e: Event): State {
    match e
    case Upsert(doc, text) => s.(shared := s.shared.(docs := s.shared.docs[doc := text]))
    case Start(h, doc) =>
      if h in s.handlers || doc !in s.shared.docs then s else s.(handlers := s.handlers[h := NewHandler(doc)])
    case Tick(now) => s.(shared := s.shared.(clock := now))
    case Do(h, id) =>
      if h !in s.handlers || !Live(s.handlers[h].pc) then s
      else
        var p := s.handlers[h];
        State(Effect(b, s.shared, h, p, id), s.handlers[h := Advance(b, s.shared, p, id)], s.lateFaults)
    case Lose(h, id) =>
      if h !in s.handlers || !Live(s.handlers[h].pc) then s
      else
        var p := s.handlers[h];
        State(Effect(b, s.shared, h, p, id),
              s.handlers[h := Throw(p).(wrote := p.wrote || p.pc == MarkCompleted)],
              Bump(s.lateFaults, LateFault(p, true)))
    case Refuse(h) =>
      if h !in s.handlers || !Live(s.handlers[h].pc) then s
      else
        var p := s.handlers[h];
        State(s.shared, s.handlers[h := Throw(p)], Bump(s.lateFaults, LateFault(p, false)))
    case Crash(h) =>
      if h !in s.handlers || !Live(s.handlers[h].pc) then s
      else s.(handlers := s.handlers[h := s.handlers[h].(pc := Crashed)])
  }

  /** Before the first message of the batch. Posts of other origins may already be in the database. */
  predicate Init(s: State) {
    && s.handlers == map[]
    && s.lateFaults == 0
    && s.shared.userId == None && s.shared.docIds == {} && s.shared.completed == 0
    && s.shared.deadline == None && s.shared.status == Missing
    && s.shared.snapshots == [] && s.shared.published == [] && s.shared.counted == []
  }

  function Exec(b: Batch, s: State, events: seq<Event>): State
    decreases |events|
  {
    if events == [] then s
    else Next(b, Exec(b, s, events[..|events| - 1]), events[|events| - 1])
  }

  // ----- Shape of a step -----

  /** What never shrinks in the shared state. */
  ghost predicate Grows(b: Batch, w: Shared, w': Shared) {
    && w.docs.Keys <= w'.docs.Keys
    && w.docIds <= w'.docIds
    && w.completed <= w'.completed
    && |w.counted| <= |w'.counted| && (forall i :: 0 <= i < |w.counted| ==> w'.counted[i] == w.counted[i])
    && (w.userId == Some(b.user) ==> w'.userId == Some(b.user))
  }

  lemma EffectGrows(b: Batch, w: Shared, h: nat, p: Handler, id: int)
    ensures Grows(b, w, Effect(b, w, h, p, id))
  {
  }

  /** The handler an event belongs to, if it is a step of one. */
  function Actor(s: State, e: Event): Option<nat> {
    if (e.Do? || e.Lose? || e.Refuse? || e.Crash?) && e.h in s.handlers && Live(s.handlers[e.h].pc)
    then Some(e.h)
    else None
  }

  /** Does the command of the acting handler take effect? */
  predicate Effective(e: Event) {
    e.Do? || e.Lose?
  }

  function ActorAfter(b: Batch, w: Shared, p: Handler, e: Event): Handler {
    match e
    case Do(_, id) => Advance(b, w, p, id)
    case Lose(_, _) => Throw(p).(wrote := p.wrote || p.pc == MarkCompleted)
    case Refuse(_) => Throw(p)
    case _ => p.(pc := Crashed)
  }

  function RowId(e: Event): int {
    if e.Do? || e.Lose? then e.id else 0
  }

  /** A step of a handler changes that handler, and the shared state as its command says. */
  lemma ActorStep(b: Batch, s: State, e: Event)
    requires Actor(s, e).Some?
    ensures var h := Actor(s, e).value;
            var s' := Next(b, s, e);
            && s'.handlers == s.handlers[h := ActorAfter(b, s.shared, s.handlers[h], e)]
            && s'.shared == (if Effective(e) then Effect(b, s.shared, h, s.handlers[h], RowId(e)) else s.shared)
  {
  }

  // ----- Mutual exclusion -----

  /** A handler inside holds the status at `creating`, or overwrites its own unacknowledged `completed`. */
  ghost predicate HandlerHolds(status: Status, p: Handler) {
    if p.wrote && Live(p.pc) then p.pc == MarkFailed && status == Completed
    else Inside(p.pc) ==> status == Creating
  }

  ghost predicate Mutex(s: State) {
    && (forall h, k ::
          h in s.handlers && k in s.handlers && Inside(s.handlers[h].pc) && Inside(s.handlers[k].pc) ==> h == k)
    && (forall h :: h in s.handlers ==> HandlerHolds(s.shared.status, s.handlers[h]))
  }

  /** One step of a handler: the status is only entered from outside, and only changed from inside. */
  lemma ActorHolds(b: Batch, w: Shared, h: nat, p: Handler, e: Event)
    requires HandlerHolds(w.status, p) && Live(p.pc)
    requires e.Do? || e.Lose? || e.Refuse? || e.Crash?
    ensures var status' := if Effective(e) then Effect(b, w, h, p, RowId(e)).status else w.status;
            var p' := ActorAfter(b, w, p, e);
            && HandlerHolds(status', p')
            && (Inside(p'.pc) && !Inside(p.pc) ==> w.status == Missing || w.status == Failed)
            && (status' != w.status ==> Inside(p.pc) || w.status == Missing || w.status == Failed)
  {
    match p.pc
    case Acquire =>
    case Transition =>
    case MarkCompleted =>
    case MarkFailed =>
    case _ =>
  }

  lemma MutexStep(b: Batch, s: State, e: Event)
    requires Mutex(s)
    ensures Mutex(Next(b, s, e))
  {
    if Actor(s, e).Some? {
      ActorStep(b, s, e);
      var h := Actor(s, e).value;
      ActorHolds(b, s.shared, h, s.handlers[h], e);
    }
  }

  // ----- Counting -----

  /** A handler that has added its document and not ended yet. */
  predicate Added(pc: Command) {
    (pc.Count? || pc.GetDeadline? || pc.Acquire? || pc.GetStatus? || pc.Transition?) || Inside(pc)
  }

  /** A handler that was triggered and not ended yet. */
  predicate Triggered(pc: Command) {
    (pc.Acquire? || pc.GetStatus? || pc.Transition?) || Inside(pc)
  }

  predicate BeforeCount(pc: Command) {
    (pc.SetUser? || pc.SetDeadline? || pc.AddDocument? || pc.Count?)
  }

  ghost predicate HandlerCounts(b: Batch, w: Shared, p: Handler) {
    && p.doc in w.docs
    && p.count <= w.completed
    && (Live(p.pc) && p.pc != SetUser ==> w.userId == Some(b.user))
    && (Added(p.pc) ==> p.doc in w.docIds)
    && (Triggered(p.pc) ==> p.count > 0 && Triggers(b, p.count, p.late))
    && (p.pc == GetDeadline ==> p.count > 0)
  }

  /** The counted handlers are distinct, and each had added its document first. */
  ghost predicate Counted(w: Shared, handlers: map<nat, Handler>) {
    && (forall i :: 0 <= i < |w.counted| ==>
          var t := w.counted[i];
          && t.handler in handlers
          && handlers[t.handler].doc == t.doc
          && !BeforeCount(handlers[t.handler].pc)
          && t.doc in w.docIds)
    && (forall i, j :: 0 <= i < j < |w.counted| ==> w.counted[i].handler != w.counted[j].handler)
  }

  ghost predicate Counting(b: Batch, s: State) {
    && s.shared.completed == |s.shared.counted|
    && s.shared.docIds <= s.shared.docs.Keys
    && Counted(s.shared, s.handlers)
    && (forall h :: h in s.handlers ==> HandlerCounts(b, s.shared, s.handlers[h]))
  }

  lemma AdvanceOutside(b: Batch, w: Shared, h: nat, p: Handler, id: int)
    requires HandlerCounts(b, w, p) && Live(p.pc) && !Inside(p.pc)
    ensures HandlerCounts(b, Effect(b, w, h, p, id), Advance(b, w, p, id))
    ensures BeforeCount(Advance(b, w, p, id).pc) ==> BeforeCount(p.pc) && !p.pc.Count?
    ensures Advance(b, w, p, id).doc == p.doc
  {
    match p.pc
    case SetUser =>
    case AddDocument =>
    case Count =>
    case GetDeadline =>
    case _ =>
  }

  /** Inside snapshot creation the counts of a handler no longer change. */
  lemma AdvanceInside(b: Batch, w: Shared, h: nat, p: Handler, id: int)
    requires HandlerCounts(b, w, p) && Inside(p.pc)
    ensures HandlerCounts(b, Effect(b, w, h, p, id), Advance(b, w, p, id))
    ensures !BeforeCount(Advance(b, w, p, id).pc)
    ensures Advance(b, w, p, id).doc == p.doc
  {
    var w', p' := Effect(b, w, h, p, id), Advance(b, w, p, id);
    assert w'.docs == w.docs && w'.docIds == w.docIds && w'.completed == w.completed && w'.userId == w.userId;
    assert p'.doc == p.doc && p'.count == p.count && p'.late == p.late;
  }

  lemma ActorCounts(b: Batch, w: Shared, h: nat, p: Handler, e: Event)
    requires HandlerCounts(b, w, p) && Live(p.pc)
    requires e.Do? || e.Lose? || e.Refuse? || e.Crash?
    ensures HandlerCounts(b, if Effective(e) then Effect(b, w, h, p, RowId(e)) else w, ActorAfter(b, w, p, e))
    ensures BeforeCount(ActorAfter(b, w, p, e).pc) ==> BeforeCount(p.pc) && !p.pc.Count?
    ensures ActorAfter(b, w, p, e).doc == p.doc
  {
    EffectGrows(b, w, h, p, RowId(e));
    if e.Do? {
      if Inside(p.pc) {
        AdvanceInside(b, w, h, p, RowId(e));
      } else {
        AdvanceOutside(b, w, h, p, RowId(e));
      }
    }
  }

  /** A new tally is that of the acting handler, which had not counted before. */
  lemma CountedStep(b: Batch, w: Shared, w': Shared, handlers: map<nat, Handler>, h: nat, p': Handler)
    requires Counted(w, handlers) && h in handlers && Grows(b, w, w') && p'.doc == handlers[h].doc
    requires BeforeCount(p'.pc) ==> BeforeCount(handlers[h].pc)
    requires w'.counted == w.counted ||
             (&& w'.counted == w.counted + [Tally(h, p'.doc)]
              && handlers[h].pc.Count? && !BeforeCount(p'.pc) && p'.doc in w'.docIds)
    ensures Counted(w', handlers[h := p'])
  {
  }

  lemma CountingStep(b: Batch, s: State, e: Event)
    requires Counting(b, s)
    ensures Counting(b, Next(b, s, e))
  {
    if Actor(s, e).Some? {
      ActorStep(b, s, e);
      var h := Actor(s, e).value;
      var p, p' := s.handlers[h], ActorAfter(b, s.shared, s.handlers[h], e);
      var w, w' := s.shared, Next(b, s, e).shared;
      EffectGrows(b, w, h, p, RowId(e));
      ActorCounts(b, w, h, p, e);
      assert w'.completed == |w'.counted| && w'.docIds <= w'.docs.Keys;
      CountedStep(b, w, w', s.handlers, h, p');
    }
  }

  // ----- Snapshots -----

  /** `ids` holds the documents of the first `n` counts. */
  ghost predicate Covers(counted: seq<Tally>, n: nat, ids: set<int>) {
    n <= |counted| && forall i :: 0 <= i < n ==> counted[i].doc in ids
  }

  /** A snapshot row belongs to the batch's user and covers every document counted up to its trigger. */
  ghost predicate RowHolds(b: Batch, row: Snapshot, docIds: set<int>, counted: seq<Tally>) {
    && row.owner == b.user
    && row.content.Keys <= docIds
    && row.trigger > 0 && Triggers(b, row.trigger, row.late)
    && Covers(counted, row.trigger, row.content.Keys)
  }

  /** Every message names the one snapshot and lists all its posts. */
  ghost predicate Sources(rows: seq<Snapshot>, published: seq<Message>) {
    forall m :: m in published ==> |rows| == 1 && m.documentId == rows[0].id && rows[0].content.Keys <= m.sourceIds
  }

  ghost predicate Rows(b: Batch, w: Shared) {
    && |w.snapshots| <= 1
    && (forall row :: row in w.snapshots ==> RowHolds(b, row, w.docIds, w.counted))
    && Sources(w.snapshots, w.published)
  }

  ghost predicate HandlerSnapshots(b: Batch, w: Shared, p: Handler) {
    && (p.pc.ReadUser? || p.pc.Find? || p.pc.Commit? || p.pc.Publish? || p.pc.MarkCompleted? ==>
          && p.doc in p.ids && p.ids <= w.docIds
          && Covers(w.counted, p.count, p.ids)
          && (w.snapshots != [] ==> w.snapshots[0].content.Keys <= p.ids))
    && (p.pc.Find? || p.pc.Commit? || p.pc.Publish? || p.pc.MarkCompleted? ==> p.user == b.user)
    && (p.pc == Commit ==>
          if p.found.Some? then w.snapshots != [] && w.snapshots[0].id == p.found.value
          else w.snapshots == [] && p.content.Keys == p.ids)
    && (p.pc.Publish? || p.pc.MarkCompleted? ==> w.snapshots != [] && w.snapshots[0].id == p.snapshotId)
  }

  ghost predicate Snapshots(b: Batch, s: State) {
    && Rows(b, s.shared)
    && (forall h :: h in s.handlers ==> HandlerSnapshots(b, s.shared, s.handlers[h]))
  }

  ghost predicate Consistent(b: Batch, w: Shared, p: Handler) {
    && Rows(b, w) && HandlerSnapshots(b, w, p) && HandlerCounts(b, w, p)
    && w.docIds <= w.docs.Keys && w.completed == |w.counted|
    && (forall i :: 0 <= i < |w.counted| ==> w.counted[i].doc in w.docIds)
  }

  lemma EffectRows(b: Batch, w: Shared, h: nat, p: Handler, id: int)
    requires Consistent(b, w, p)
    ensures var w' := Effect(b, w, h, p, id);
            && Rows(b, w')
            && (w'.snapshots != w.snapshots ==> Inside(p.pc) && w.snapshots == [])
  {
    if w.snapshots != [] {
      assert w.snapshots[0] in w.snapshots;
    }
    match p.pc
    case Count =>
    case Commit =>
    case Publish =>
    case _ =>
  }

  lemma AdvanceSnapshots(b: Batch, w: Shared, h: nat, p: Handler, id: int)
    requires Consistent(b, w, p)
    ensures HandlerSnapshots(b, Effect(b, w, h, p, id), Advance(b, w, p, id))
  {
    if w.snapshots != [] {
      assert w.snapshots[0] in w.snapshots;
    }
    match p.pc
    case ReadDocuments =>
    case ReadUser =>
    case Find =>
    case Commit =>
    case Publish =>
    case _ =>
  }

  /** The other handlers are not disturbed: only a handler inside writes the row, and there is no other one. */
  lemma OthersKeepSnapshots(b: Batch, w: Shared, w': Shared, handlers: map<nat, Handler>, h: nat)
    requires h in handlers && Grows(b, w, w')
    requires forall k :: k in handlers ==> HandlerSnapshots(b, w, handlers[k])
    requires w'.snapshots != w.snapshots ==> forall k :: k in handlers && k != h ==> !Inside(handlers[k].pc)
    ensures forall k :: k in handlers && k != h ==> HandlerSnapshots(b, w', handlers[k])
  {
  }

  lemma ActorSnapshots(b: Batch, w: Shared, h: nat, p: Handler, e: Event)
    requires Consistent(b, w, p) && Live(p.pc)
    requires e.Do? || e.Lose? || e.Refuse? || e.Crash?
    ensures var w' := if Effective(e) then Effect(b, w, h, p, RowId(e)) else w;
            && Grows(b, w, w') && Rows(b, w') && HandlerSnapshots(b, w', ActorAfter(b, w, p, e))
            && (w'.snapshots != w.snapshots ==> Inside(p.pc) && w.snapshots == [])
  {
    EffectGrows(b, w, h, p, RowId(e));
    EffectRows(b, w, h, p, RowId(e));
    AdvanceSnapshots(b, w, h, p, RowId(e));
  }

  lemma SnapshotsStep(b: Batch, s: State, e: Event)
    requires Mutex(s) && Counting(b, s) && Snapshots(b, s)
    ensures Snapshots(b, Next(b, s, e))
    ensures s.shared.snapshots != [] ==> Next(b, s, e).shared.snapshots == s.shared.snapshots
  {
    if Actor(s, e).Some? {
      ActorStep(b, s, e);
      var h := Actor(s, e).value;
      ActorSnapshots(b, s.shared, h, s.handlers[h], e);
      OthersKeepSnapshots(b, s.shared, Next(b, s, e).shared, s.handlers, h);
    }
  }

  // ----- Origins -----

  /** Only documents of this batch's handlers are collected. */
  ghost predicate Origins(s: State) {
    forall d :: d in s.shared.docIds ==> exists h :: h in s.handlers && s.handlers[h].doc == d
  }

  lemma HandlersKeepDocuments(b: Batch, s: State, e: Event, h: nat)
    requires Counting(b, s) && h in s.handlers
    ensures h in Next(b, s, e).handlers && Next(b, s, e).handlers[h].doc == s.handlers[h].doc
  {
    if Actor(s, e).Some? {
      ActorStep(b, s, e);
      var a := Actor(s, e).value;
      ActorCounts(b, s.shared, a, s.handlers[a], e);
    }
  }

  lemma OriginsStep(b: Batch, s: State, e: Event)
    requires Origins(s) && Counting(b, s)
    ensures Origins(Next(b, s, e))
  {
    var s' := Next(b, s, e);
    forall d | d in s'.shared.docIds
      ensures exists h :: h in s'.handlers && s'.handlers[h].doc == d
    {
      var h :| h in s.handlers && s.handlers[h].doc == d;
      HandlersKeepDocuments(b, s, e, h);
    }
  }

  // ----- Publishing -----

  /** Each message but one is paid for by a late fault; a handler inside that can still publish has paid in full. */
  ghost predicate Paid(w: Shared, lateFaults: nat, p: Handler) {
    Inside(p.pc) && p.pc != MarkCompleted ==> |w.published| <= lateFaults
  }

  ghost predicate Publishing(s: State) {
    && |s.shared.published| <= s.lateFaults + 1
    && (s.shared.status.Missing? || s.shared.status.Failed? ==> |s.shared.published| <= s.lateFaults)
    && (forall h :: h in s.handlers ==> Paid(s.shared, s.lateFaults, s.handlers[h]))
  }

  lemma PublishingStep(b: Batch, s: State, e: Event)
    requires Mutex(s) && Publishing(s)
    ensures Publishing(Next(b, s, e))
  {
    if Actor(s, e).Some? {
      ActorStep(b, s, e);
    }
  }

  // ----- Invariant of every run -----

  ghost predicate Inv(b: Batch, s: State) {
    Mutex(s) && Counting(b, s) && Origins(s) && Snapshots(b, s) && Publishing(s)
  }

  lemma InvStep(b: Batch, s: State, e: Event)
    requires Inv(b, s)
    ensures Inv(b, Next(b, s, e))
  {
    MutexStep(b, s, e);
    CountingStep(b, s, e);
    OriginsStep(b, s, e);
    SnapshotsStep(b, s, e);
    PublishingStep(b, s, e);
  }

  lemma {:induction false} InvRun(b: Batch, s: State, events: seq<Event>)
    requires Init(s) || Inv(b, s)
    ensures Inv(b, Exec(b, s, events))
    decreases |events|
  {
    if events != [] {
      InvRun(b, s, events[..|events| - 1]);
      InvStep(b, Exec(b, s, events[..|events| - 1]), events[|events| - 1]);
    }
  }
}
