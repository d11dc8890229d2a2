/** What a snapshot says of its posts: their texts as they were at one moment, when its writer looked them up. */
module BatchTexts {
  import opened BatchProtocol
  import opened BatchGuarantees

  /** At event f of the run worker h successfully looks up the snapshot and the posts. */
  ghost predicate LooksUpAt(b: Batch, s0: State, events: seq<Event>, f: nat, h: nat) {
    && f < |events| && events[f].Do? && events[f].h == h
    && h in Exec(b, s0, events[..f]).handlers && Exec(b, s0, events[..f]).handlers[h].pc == Find
  }

  /** These are texts of posts as they were before event f. */
  ghost predicate TextsAt(b: Batch, s0: State, events: seq<Event>, f: nat, content: map<int, string>)
    requires f <= |events|
  {
    var docs := Exec(b, s0, events[..f]).shared.docs;
    forall d :: d in content ==> d in docs && docs[d] == content[d]
  }

  lemma LookUpCommand(b: Batch, w: Shared, p: Handler, e: Event)
    requires e.Do? || e.Lose? || e.Refuse? || e.Crash?
    ensures var q := ActorAfter(b, w, p, e);
            q.pc == Commit && q.found.None? ==>
              e.Do? && p.pc == Find && forall d :: d in q.content ==> d in w.docs && w.docs[d] == q.content[d]
  {
    match p.pc
    case Find =>
    case _ =>
  }

  lemma LookUpStep(b: Batch, s: State, e: Event, h: nat)
    requires var s' := Next(b, s, e);
             h in s'.handlers && s'.handlers[h].pc == Commit && s'.handlers[h].found.None?
    ensures h in s.handlers
    ensures var content := Next(b, s, e).handlers[h].content;
            || s.handlers[h] == Next(b, s, e).handlers[h]
            || (&& e.Do? && e.h == h && s.handlers[h].pc == Find
                && forall d :: d in content ==> d in s.shared.docs && s.shared.docs[d] == content[d])
  {
    if Actor(s, e).Some? {
      ActorStep(b, s, e);
      LookUpCommand(b, s.shared, s.handlers[e.h], e);
    }
  }

  lemma {:induction false} ContentWasLookedUp(b: Batch, s0: State, events: seq<Event>, h: nat) returns (f: nat)
    requires Init(s0)
    requires var s := Exec(b, s0, events);
             h in s.handlers && s.handlers[h].pc == Commit && s.handlers[h].found.None?
    ensures LooksUpAt(b, s0, events, f, h) && TextsAt(b, s0, events, f, Exec(b, s0, events).handlers[h].content)
    decreases |events|
  {
    f := |events| - 1;
    var init := events[..f];
    LookUpStep(b, Exec(b, s0, init), events[f], h);
    if Exec(b, s0, init).handlers[h] == Exec(b, s0, events).handlers[h] {
      f := ContentWasLookedUp(b, s0, init, h);
      assert init[..f] == events[..f];
    }
  }

  lemma RowContent(b: Batch, s: State, e: Event)
    requires Inv(b, s) && s.shared.snapshots == [] && Next(b, s, e).shared.snapshots != []
    ensures (e.Do? || e.Lose?) && e.h in s.handlers && s.handlers[e.h].pc == Commit && s.handlers[e.h].found.None?
    ensures Next(b, s, e).shared.snapshots[0].content == s.handlers[e.h].content
  {
    RowFromIds(b, s, e);
  }

  lemma TextsStill(b: Batch, s0: State, events: seq<Event>, f: nat, m: nat, h: nat, content: map<int, string>)
    requires events != [] && f < m && WritesAt(b, s0, events[..|events| - 1], m, h)
    requires LooksUpAt(b, s0, events[..|events| - 1], f, h) && TextsAt(b, s0, events[..|events| - 1], f, content)
    ensures WritesAt(b, s0, events, m, h) && LooksUpAt(b, s0, events, f, h) && TextsAt(b, s0, events, f, content)
  {
    var init := events[..|events| - 1];
    assert init[..f] == events[..f] && init[..m] == events[..m];
  }

  lemma NewRowTexts(b: Batch, s0: State, events: seq<Event>, m: nat) returns (f: nat, h: nat)
    requires Init(s0) && m + 1 == |events|
    requires Exec(b, s0, events[..m]).shared.snapshots == [] && Exec(b, s0, events).shared.snapshots != []
    ensures f < m && WritesAt(b, s0, events, m, h) && LooksUpAt(b, s0, events, f, h)
    ensures TextsAt(b, s0, events, f, Exec(b, s0, events).shared.snapshots[0].content)
  {
    var init, e := events[..m], events[m];
    InvRun(b, s0, init);
    RowContent(b, Exec(b, s0, init), e);
    h := e.h;
    f := ContentWasLookedUp(b, s0, init, h);
    assert init[..f] == events[..f];
  }

  /** In every run the committed snapshot holds the texts that its posts had at one moment, when the worker that wrote it
      looked them up; updates before that are in, later ones are not. */
  lemma {:induction false} SnapshotTexts(b: Batch, s0: State, events: seq<Event>) returns (f: nat, m: nat, h: nat)
    requires Init(s0) && Exec(b, s0, events).shared.snapshots != []
    ensures f < m && WritesAt(b, s0, events, m, h) && LooksUpAt(b, s0, events, f, h)
    ensures TextsAt(b, s0, events, f, Exec(b, s0, events).shared.snapshots[0].content)
    decreases |events|
  {
    m := |events| - 1;
    var init := events[..m];
    if Exec(b, s0, init).shared.snapshots == [] {
      f, h := NewRowTexts(b, s0, events, m);
    } else {
      InvRun(b, s0, init);
      SnapshotsStep(b, Exec(b, s0, init), events[m]);
      f, m, h := SnapshotTexts(b, s0, init);
      TextsStill(b, s0, events, f, m, h, Exec(b, s0, init).shared.snapshots[0].content);
    }
  }
}
