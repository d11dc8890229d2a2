/** One chat session under concurrent calls: its message list, its token counter, and the two limits.

    At most k calls are in flight; each issues its Redis commands one at a time, so calls interleave freely. The
    session may be reset at any time, and its two keys expire independently. */
module Conversation {
  datatype Limits = Limits(maxTokens: int, maxTurns: int)

  datatype Role = User | Assistant

  /** A stored message; `call` is history: the call that appended it. */
  datatype Message = Message(role: Role, text: int, call: nat)

  datatype Command = GetUsage | GetMessages | Ask | PushUser | PushReply | AddUsage

  /** A place for one call in flight, with the call's local variables. */
  datatype Slot =
    | Idle
    | Busy(pc: Command, call: nat, text: int, requestTokens: nat, reply: int, consumed: nat)

  datatype State = State(history: seq<Message>, usage: nat, slots: seq<Slot>, started: nat)

  datatype Event =
    | Start(i: nat, text: int, requestTokens: nat)
    | Do(i: nat, reply: int, extraTokens: nat)  // the model's reply, with its tokens and those of the retrieved context
    | Lose(i: nat)                              // the command takes effect and raises
    | Refuse(i: nat)                            // it raises without effect
    | Crash(i: nat)
    | Reset | ExpireHistory | ExpireUsage

  function IdleSlots(k: nat): (slots: seq<Slot>)
    ensures |slots| == k && forall i :: 0 <= i < k ==> slots[i] == Idle
  {
    if k == 0 then [] else IdleSlots(k - 1) + [Idle]
  }

  /** What the next command of a call does to the two keys. */
  function Effect(s: State, slot: Slot): State {
    if slot.Idle? then s
    else match slot.pc
      case PushUser => s.(history := s.history + [Message(User, slot.text, slot.call)])
      case PushReply => s.(history := s.history + [Message(Assistant, slot.reply, slot.call)])
      case AddUsage => s.(usage := s.usage + slot.consumed)
      case _ => s
  }

  /** How the call goes on after the reply; a call over a limit ends. */
  function Advance(l: Limits, s: State, slot: Slot, reply: int, extraTokens: nat): Slot {
    if slot.Idle? then Idle
    else match slot.pc
      case GetUsage => if s.usage + slot.requestTokens >= l.maxTokens then Idle else slot.(pc := GetMessages)
      case GetMessages => if |s.history| >= l.maxTurns * 2 then Idle else slot.(pc := Ask)
      case Ask => slot.(pc := PushUser, reply := reply, consumed := slot.requestTokens + extraTokens)
      case PushUser => slot.(pc := PushReply)
      case PushReply => slot.(pc := AddUsage)
      case AddUsage => Idle
  }

  predicate InFlight(s: State, i: nat) {
    i < |s.slots| && s.slots[i].Busy?
  }

  function Next(l: Limits, s: State, e: Event): State {
    match e
    case Start(i, text, requestTokens) =>
      if i < |s.slots| && s.slots[i].Idle?
        then s.(slots := s.slots[i := Busy(GetUsage, s.started, text, requestTokens, 0, 0)], started := s.started + 1)
      else s
    case Do(i, reply, extraTokens) =>
      if InFlight(s, i)
        then Effect(s, s.slots[i]).(slots := s.slots[i := Advance(l, s, s.slots[i], reply, extraTokens)])
      else s
    case Lose(i) => if InFlight(s, i) then Effect(s, s.slots[i]).(slots := s.slots[i := Idle]) else s
    case Refuse(i) => if InFlight(s, i) then s.(slots := s.slots[i := Idle]) else s
    case Crash(i) => if InFlight(s, i) then s.(slots := s.slots[i := Idle]) else s
    case Reset => s.(history := [], usage := 0)
    case ExpireHistory => s.(history := [])
    case ExpireUsage => s.(usage := 0)
  }

  /** A run of a session that never has more than k calls in flight. */
  function Exec(l: Limits, k: nat, events: seq<Event>): State
    decreases |events|
  {
    if events == [] then State([], 0, IdleSlots(k), 0)
    else Next(l, Exec(l, k, events[..|events| - 1]), events[|events| - 1])
  }

  // ----- The limits -----

  datatype Measure = Passed | Pushes

  /** Has the call passed the token check and not yet added its tokens? How many messages may it still append? */
  function Weight(m: Measure, slot: Slot): nat {
    if slot.Idle? then 0
    else match m
      case Passed => if slot.pc.GetUsage? then 0 else 1
      case Pushes => if slot.pc.Ask? || slot.pc.PushUser? then 2 else if slot.pc.PushReply? then 1 else 0
  }

  function Most(m: Measure): nat {
    if m.Passed? then 1 else 2
  }

  function Total(m: Measure, slots: seq<Slot>): (n: nat)
    ensures n <= Most(m) * |slots|
  {
    if slots == [] then 0 else Weight(m, slots[0]) + Total(m, slots[1..])
  }

  lemma {:induction false} TotalUpdate(m: Measure, slots: seq<Slot>, i: nat, slot: Slot)
    requires i < |slots|
    ensures Total(m, slots[i := slot]) == Total(m, slots) - Weight(m, slots[i]) + Weight(m, slot)
  {
    if i > 0 {
      assert slots[i := slot][1..] == slots[1..][i - 1 := slot];
      TotalUpdate(m, slots[1..], i - 1, slot);
    } else {
      assert slots[i := slot][1..] == slots[1..];
    }
  }

  lemma {:induction false} TotalIdle(m: Measure, k: nat)
    ensures Total(m, IdleSlots(k)) == 0
  {
    if k > 0 {
      assert IdleSlots(k)[1..] == IdleSlots(k - 1);
      TotalIdle(m, k - 1);
    }
  }

  /** The calls still to be charged fit under the limit, each with its largest charge. */
  predicate UsageFits(l: Limits, c: nat, s: State) {
    Fits(l.maxTokens, |s.slots|, c, s.usage, Total(Passed, s.slots))
  }

  predicate Fits(maxTokens: int, k: nat, c: nat, usage: nat, owed: nat) {
    (owed == 0 && usage == 0) || usage + owed * c <= maxTokens - 1 + k * c
  }

  predicate HistoryFits(l: Limits, s: State) {
    var owed := Total(Pushes, s.slots);
    (owed == 0 && |s.history| == 0) || |s.history| + owed <= 2 * l.maxTurns - 1 + 2 * |s.slots|
  }

  predicate Charged(slot: Slot, c: nat) {
    slot.Busy? ==> slot.consumed <= c
  }

  predicate Frugal(s: State, e: Event, c: nat) {
    e.Do? && InFlight(s, e.i) && s.slots[e.i].pc.Ask? ==> s.slots[e.i].requestTokens + e.extraTokens <= c
  }

  /** No call of the run consumes more than c tokens. */
  predicate AllFrugal(l: Limits, k: nat, events: seq<Event>, c: nat)
    decreases |events|
  {
    events == [] ||
    (AllFrugal(l, k, events[..|events| - 1], c) && Frugal(Exec(l, k, events[..|events| - 1]), events[|events| - 1], c))
  }

  lemma ChargedStep(l: Limits, c: nat, s: State, e: Event)
    requires Frugal(s, e, c) && forall i :: 0 <= i < |s.slots| ==> Charged(s.slots[i], c)
    ensures var s' := Next(l, s, e);
            |s'.slots| == |s.slots| && forall i :: 0 <= i < |s'.slots| ==> Charged(s'.slots[i], c)
  {
  }

  /** A call passes the check below the limit; a call that leaves adds at most c. */
  lemma FitsStep(maxTokens: int, k: nat, c: nat, usage: nat, owed: nat, usage': nat, owed': nat)
    requires Fits(maxTokens, k, c, usage, owed) && owed' <= k
    requires
      || (owed' == owed + 1 && usage' == usage < maxTokens)
      || (owed' == owed && usage' <= usage)
      || (owed' == owed - 1 && usage' <= usage + c)
    ensures Fits(maxTokens, k, c, usage', owed')
  {
    if owed' == owed + 1 {
      assert owed' * c <= k * c;
    } else if owed' == owed - 1 {
      assert owed * c == owed' * c + c;
    }
  }

  lemma UsageStep(l: Limits, c: nat, s: State, e: Event)
    requires UsageFits(l, c, s) && Frugal(s, e, c) && forall i :: 0 <= i < |s.slots| ==> Charged(s.slots[i], c)
    ensures UsageFits(l, c, Next(l, s, e))
  {
    var s' := Next(l, s, e);
    if (e.Start? || e.Do? || e.Lose? || e.Refuse? || e.Crash?) && e.i < |s.slots| {
      TotalUpdate(Passed, s.slots, e.i, s'.slots[e.i]);
      assert s'.slots == s.slots[e.i := s'.slots[e.i]];
      assert Charged(s.slots[e.i], c);
    }
    FitsStep(l.maxTokens, |s.slots|, c, s.usage, Total(Passed, s.slots), s'.usage, Total(Passed, s'.slots));
  }

  /** What one step does to the history and to one slot. */
  lemma PushStep(l: Limits, s: State, e: Event)
    requires (e.Start? || e.Do? || e.Lose? || e.Refuse? || e.Crash?) && e.i < |s.slots|
    ensures var s', slot := Next(l, s, e), s.slots[e.i];
            && |s'.slots| == |s.slots| && s'.slots == s.slots[e.i := s'.slots[e.i]]
            && (|s'.history| + Weight(Pushes, s'.slots[e.i]) <= |s.history| + Weight(Pushes, slot)
                || (s'.history == s.history && |s.history| < 2 * l.maxTurns))
  {
  }

  lemma HistoryStep(l: Limits, s: State, e: Event)
    requires HistoryFits(l, s)
    ensures HistoryFits(l, Next(l, s, e))
  {
    var s' := Next(l, s, e);
    if (e.Start? || e.Do? || e.Lose? || e.Refuse? || e.Crash?) && e.i < |s.slots| {
      PushStep(l, s, e);
      TotalUpdate(Pushes, s.slots, e.i, s'.slots[e.i]);
    }
  }

  lemma {:induction false} FitsRun(l: Limits, k: nat, events: seq<Event>, c: nat)
    ensures |Exec(l, k, events).slots| == k && HistoryFits(l, Exec(l, k, events))
    ensures AllFrugal(l, k, events, c) ==>
      && UsageFits(l, c, Exec(l, k, events))
      && forall i :: 0 <= i < k ==> Charged(Exec(l, k, events).slots[i], c)
    decreases |events|
  {
    if events == [] {
      TotalIdle(Passed, k);
      TotalIdle(Pushes, k);
    } else {
      var before := Exec(l, k, events[..|events| - 1]);
      FitsRun(l, k, events[..|events| - 1], c);
      HistoryStep(l, before, events[|events| - 1]);
      if AllFrugal(l, k, events, c) {
        ChargedStep(l, c, before, events[|events| - 1]);
        UsageStep(l, c, before, events[|events| - 1]);
      }
    }
  }

  /** With at most k calls in flight, each consuming at most c tokens, the usage stays below the limit plus k calls,
      under any interleaving, fault, crash, reset or expiry. */
  lemma UsageBound(l: Limits, k: nat, events: seq<Event>, c: nat)
    requires AllFrugal(l, k, events, c)
    ensures Exec(l, k, events).usage == 0 || Exec(l, k, events).usage <= l.maxTokens - 1 + k * c
  {
    FitsRun(l, k, events, c);
    var s := Exec(l, k, events);
    FitsUsage(l.maxTokens, k, c, s.usage, Total(Passed, s.slots));
  }

  lemma FitsUsage(maxTokens: int, k: nat, c: nat, usage: nat, owed: nat)
    requires Fits(maxTokens, k, c, usage, owed)
    ensures usage == 0 || usage <= maxTokens - 1 + k * c
  {
    assert owed * c >= 0;
  }

  /** The history stays below the limit plus one turn per call in flight. */
  lemma HistoryBound(l: Limits, k: nat, events: seq<Event>)
    ensures |Exec(l, k, events).history| == 0 || |Exec(l, k, events).history| <= 2 * l.maxTurns - 1 + 2 * k
  {
    FitsRun(l, k, events, 0);
  }

  // ----- The bounds are the least ones -----

  lemma Extend(l: Limits, k: nat, events: seq<Event>, c: nat, e: Event) returns (events': seq<Event>)
    requires AllFrugal(l, k, events, c) && Frugal(Exec(l, k, events), e, c)
    ensures events' == events + [e] && AllFrugal(l, k, events', c)
    ensures Exec(l, k, events') == Next(l, Exec(l, k, events), e)
  {
    events' := events + [e];
    assert events'[..|events'| - 1] == events;
  }

  /** A call passes both checks. */
  lemma Enter(l: Limits, k: nat, events: seq<Event>, c: nat, i: nat) returns (events': seq<Event>)
    requires AllFrugal(l, k, events, c)
    requires var s := Exec(l, k, events);
             && i < |s.slots| && s.slots[i] == Idle && s.usage < l.maxTokens && |s.history| < l.maxTurns * 2
    ensures AllFrugal(l, k, events', c)
    ensures var s := Exec(l, k, events);
            Exec(l, k, events') == s.(slots := s.slots[i := Busy(Ask, s.started, 0, 0, 0, 0)], started := s.started + 1)
  {
    events' := Extend(l, k, events, c, Start(i, 0, 0));
    events' := Extend(l, k, events', c, Do(i, 0, 0));
    events' := Extend(l, k, events', c, Do(i, 0, 0));
  }

  /** ... and goes on to its end, consuming n tokens. */
  lemma Leave(l: Limits, k: nat, events: seq<Event>, c: nat, i: nat, n: nat) returns (events': seq<Event>)
    requires AllFrugal(l, k, events, c) && n <= c
    requires var s := Exec(l, k, events);
             && i < |s.slots| && s.slots[i].Busy? && s.slots[i].pc == Ask && s.slots[i].requestTokens == 0
    ensures AllFrugal(l, k, events', c)
    ensures var s, s' := Exec(l, k, events), Exec(l, k, events');
            && s'.slots == s.slots[i := Idle] && s'.usage == s.usage + n && |s'.history| == |s.history| + 2
  {
    events' := Extend(l, k, events, c, Do(i, 0, n));
    events' := Extend(l, k, events', c, Do(i, 0, 0));
    events' := Extend(l, k, events', c, Do(i, 0, 0));
    events' := Extend(l, k, events', c, Do(i, 0, 0));
  }

  ghost predicate AllIdle(s: State, k: nat) {
    |s.slots| == k && forall j :: 0 <= j < k ==> s.slots[j] == Idle
  }

  predicate Asking(slot: Slot) {
    slot.Busy? && slot.pc == Ask && slot.requestTokens == 0
  }

  /** One call after the other uses up all but one of the tokens, while the history expires in between. */
  lemma {:induction false} UseUp(l: Limits, k: nat, events: seq<Event>, c: nat) returns (events': seq<Event>)
    requires 1 <= l.maxTokens && 1 <= l.maxTurns && 1 <= k && (1 <= c || l.maxTokens == 1)
    requires AllFrugal(l, k, events, c)
    requires var s := Exec(l, k, events); AllIdle(s, k) && s.history == [] && s.usage <= l.maxTokens - 1
    ensures AllFrugal(l, k, events', c)
    ensures var s := Exec(l, k, events'); AllIdle(s, k) && s.history == [] && s.usage == l.maxTokens - 1
    decreases l.maxTokens - Exec(l, k, events).usage
  {
    events' := events;
    var left: nat := l.maxTokens - 1 - Exec(l, k, events).usage;
    if left > 0 {
      events' := Enter(l, k, events', c, 0);
      events' := Leave(l, k, events', c, 0, if left < c then left else c);
      events' := Extend(l, k, events', c, ExpireHistory);
      events' := UseUp(l, k, events', c);
    }
  }

  /** All k calls pass both checks before any of them goes on. */
  lemma EnterAll(l: Limits, k: nat, events: seq<Event>, c: nat) returns (events': seq<Event>)
    requires AllFrugal(l, k, events, c)
    requires var s := Exec(l, k, events);
             AllIdle(s, k) && s.usage < l.maxTokens && |s.history| < l.maxTurns * 2
    ensures AllFrugal(l, k, events', c)
    ensures var s, s' := Exec(l, k, events), Exec(l, k, events');
            && |s'.slots| == k && s'.usage == s.usage && s'.history == s.history
            && forall j :: 0 <= j < k ==> Asking(s'.slots[j])
  {
    events' := events;
    ghost var s := Exec(l, k, events);
    for i := 0 to k
      invariant AllFrugal(l, k, events', c)
      invariant var s' := Exec(l, k, events');
                && |s'.slots| == k && s'.usage == s.usage && s'.history == s.history
                && (forall j :: 0 <= j < i ==> Asking(s'.slots[j]))
                && (forall j :: i <= j < k ==> s'.slots[j] == Idle)
    {
      events' := Enter(l, k, events', c, i);
    }
  }

  /** ... and then all go on to their ends, consuming c tokens each. */
  lemma LeaveAll(l: Limits, k: nat, events: seq<Event>, c: nat) returns (events': seq<Event>)
    requires AllFrugal(l, k, events, c)
    requires var s := Exec(l, k, events); |s.slots| == k && forall j :: 0 <= j < k ==> Asking(s.slots[j])
    ensures AllFrugal(l, k, events', c)
    ensures var s, s' := Exec(l, k, events), Exec(l, k, events');
            s'.usage == s.usage + k * c && |s'.history| == |s.history| + 2 * k
  {
    events' := events;
    ghost var s := Exec(l, k, events);
    for i := 0 to k
      invariant AllFrugal(l, k, events', c)
      invariant var s' := Exec(l, k, events');
                && |s'.slots| == k && s'.usage == s.usage + i * c && |s'.history| == |s.history| + 2 * i
                && (forall j :: i <= j < k ==> Asking(s'.slots[j]))
    {
      events' := Leave(l, k, events', c, i, c);
      assert (i + 1) * c == i * c + c;
    }
  }

  /** For all limits, and calls of any size, k calls that pass the check together reach the bound. */
  lemma UsageBoundIsMet(l: Limits, k: nat, c: nat) returns (events: seq<Event>)
    requires 1 <= l.maxTokens && 1 <= l.maxTurns && 1 <= k && (1 <= c || l.maxTokens == 1)
    ensures AllFrugal(l, k, events, c) && Exec(l, k, events).usage == l.maxTokens - 1 + k * c
  {
    events := UseUp(l, k, [], c);
    events := EnterAll(l, k, events, c);
    events := LeaveAll(l, k, events, c);
  }

  /** A call is cut off after its first append. */
  lemma HalfTurn(l: Limits, k: nat) returns (events: seq<Event>)
    requires 1 <= l.maxTokens && 1 <= l.maxTurns && 1 <= k
    ensures AllFrugal(l, k, events, 0)
    ensures var s := Exec(l, k, events); AllIdle(s, k) && s.usage == 0 && |s.history| == 1
  {
    events := Enter(l, k, [], 0, 0);
    events := Extend(l, k, events, 0, Do(0, 0, 0));
    events := Extend(l, k, events, 0, Do(0, 0, 0));
    events := Extend(l, k, events, 0, Crash(0));
  }

  /** For all limits, k calls that pass the check together reach the bound on the history. */
  lemma HistoryBoundIsMet(l: Limits, k: nat) returns (events: seq<Event>)
    requires 1 <= l.maxTokens && 1 <= l.maxTurns && 1 <= k
    ensures |Exec(l, k, events).history| == 2 * l.maxTurns - 1 + 2 * k
  {
    events := HalfTurn(l, k);
    for i := 1 to l.maxTurns
      invariant AllFrugal(l, k, events, 0)
      invariant var s := Exec(l, k, events); AllIdle(s, k) && s.usage == 0 && |s.history| == 2 * i - 1
    {
      events := Enter(l, k, events, 0, 0);
      events := Leave(l, k, events, 0, 0, 0);
    }
    events := EnterAll(l, k, events, 0);
    events := LeaveAll(l, k, events, 0);
  }

  // ----- Alternation -----

  /** Whole turns: a user message and the reply of the same call, over and over. */
  predicate Turns(history: seq<Message>) {
    && |history| % 2 == 0
    && (forall i :: 0 <= i < |history| ==> history[i].role == if i % 2 == 0 then User else Assistant)
    && (forall i :: 0 < i < |history| && i % 2 == 1 ==> history[i].call == history[i - 1].call)
  }

  /** Is the one call between its two appends? */
  predicate BetweenAppends(s: State) {
    |s.slots| == 1 && s.slots[0].Busy? && s.slots[0].pc == PushReply
  }

  /** Nothing cuts the two appends of a call apart: neither a fault or crash of the call, nor the history vanishing. */
  predicate Quiet(s: State, e: Event) {
    && (BetweenAppends(s) ==> !(e.Refuse? && e.i == 0) && !(e.Crash? && e.i == 0) && !e.Reset? && !e.ExpireHistory?)
    && (|s.slots| == 1 && s.slots[0].Busy? && s.slots[0].pc == PushUser ==> !(e.Lose? && e.i == 0))
  }

  predicate AllQuiet(l: Limits, events: seq<Event>)
    decreases |events|
  {
    events == [] ||
    (AllQuiet(l, events[..|events| - 1]) && Quiet(Exec(l, 1, events[..|events| - 1]), events[|events| - 1]))
  }

  predicate Alternating(s: State) {
    if BetweenAppends(s) then
      && s.history != [] && Turns(s.history[..|s.history| - 1])
      && s.history[|s.history| - 1] == Message(User, s.slots[0].text, s.slots[0].call)
    else Turns(s.history) && (JustAppended(s) && s.history != [] ==> EndsInTurn(s.history, s.slots[0]))
  }

  /** Has the one call just made both its appends? */
  predicate JustAppended(s: State) {
    |s.slots| == 1 && s.slots[0].Busy? && s.slots[0].pc == AddUsage
  }

  predicate EndsInTurn(history: seq<Message>, slot: Slot)
    requires slot.Busy?
  {
    && |history| >= 2
    && history[|history| - 2] == Message(User, slot.text, slot.call)
    && history[|history| - 1] == Message(Assistant, slot.reply, slot.call)
  }

  lemma TurnAdded(turns: seq<Message>, user: Message, reply: Message)
    requires Turns(turns) && user.role == User && reply.role == Assistant && user.call == reply.call
    ensures Turns(turns + [user] + [reply])
  {
  }

  lemma AlternatingStep(l: Limits, s: State, e: Event)
    requires |s.slots| == 1 && Alternating(s) && Quiet(s, e)
    ensures Alternating(Next(l, s, e)) && |Next(l, s, e).slots| == 1
  {
    var s' := Next(l, s, e);
    if BetweenAppends(s) && s'.history != s.history {
      var turns, user := s.history[..|s.history| - 1], s.history[|s.history| - 1];
      assert s.history == turns + [user];
      TurnAdded(turns, user, Message(Assistant, s.slots[0].reply, s.slots[0].call));
    } else if BetweenAppends(s') && s'.history != s.history {
      assert s'.history[..|s'.history| - 1] == s.history;
    }
  }

  /** With one call at a time the history holds whole turns between calls, as long as nothing cuts the two appends
      of a call apart. */
  lemma {:induction false} HistoryAlternates(l: Limits, events: seq<Event>)
    requires AllQuiet(l, events)
    ensures |Exec(l, 1, events).slots| == 1 && Alternating(Exec(l, 1, events))
    ensures var history := Exec(l, 1, events).history;
            && (forall i :: 0 <= i < |history| ==> history[i].role == if i % 2 == 0 then User else Assistant)
            && (forall i :: 0 < i < |history| && i % 2 == 1 ==> history[i].call == history[i - 1].call)
    ensures var s := Exec(l, 1, events);
            var n := |s.history|;
            s.slots[0].Busy? && s.slots[0].pc == AddUsage && n > 0 ==>
              && n >= 2
              && s.history[n - 2] == Message(User, s.slots[0].text, s.slots[0].call)
              && s.history[n - 1] == Message(Assistant, s.slots[0].reply, s.slots[0].call)
    decreases |events|
  {
    if events != [] {
      HistoryAlternates(l, events[..|events| - 1]);
      AlternatingStep(l, Exec(l, 1, events[..|events| - 1]), events[|events| - 1]);
    }
    AlternatingRoles(Exec(l, 1, events));
  }

  lemma AlternatingRoles(s: State)
    requires Alternating(s)
    ensures forall i :: 0 <= i < |s.history| ==> s.history[i].role == if i % 2 == 0 then User else Assistant
    ensures forall i :: 0 < i < |s.history| && i % 2 == 1 ==> s.history[i].call == s.history[i - 1].call
  {
    if BetweenAppends(s) {
      var turns := s.history[..|s.history| - 1];
      assert forall i :: 0 <= i < |turns| ==> turns[i] == s.history[i];
    }
  }

  predicate Broken(history: seq<Message>) {
    |history| % 2 == 1 && (history[0].role == Assistant || history[|history| - 1].role == User)
  }

  /** The first cut breaks it: the history ends in an unanswered message, or starts with a reply. */
  lemma FirstCutBreaksAlternation(l: Limits, events: seq<Event>, e: Event, reply: int, extraTokens: nat)
    requires AllQuiet(l, events) && !Quiet(Exec(l, 1, events), e)
    ensures var s := Next(l, Exec(l, 1, events), e);
            && |s.slots| == 1
            && Broken(if s.slots[0].Idle? then s.history else Next(l, s, Do(0, reply, extraTokens)).history)
  {
    HistoryAlternates(l, events);
    CutBreaks(l, Exec(l, 1, events), e, reply, extraTokens);
  }

  lemma CutBreaks(l: Limits, s: State, e: Event, reply: int, extraTokens: nat)
    requires |s.slots| == 1 && Alternating(s) && !Quiet(s, e)
    ensures var s' := Next(l, s, e);
            && |s'.slots| == 1
            && Broken(if s'.slots[0].Idle? then s'.history else Next(l, s', Do(0, reply, extraTokens)).history)
  {
    var s' := Next(l, s, e);
    if s'.slots[0].Busy? {
      assert Next(l, s', Do(0, reply, extraTokens)).history ==
             [Message(Assistant, s'.slots[0].reply, s'.slots[0].call)];
    }
  }

  /** Does a call that runs undisturbed get to the model? */
  predicate Admitted(l: Limits, s: State, i: nat, text: int, requestTokens: nat) {
    var checked := Next(l, Next(l, Next(l, s, Start(i, text, requestTokens)), Do(i, 0, 0)), Do(i, 0, 0));
    InFlight(checked, i) && checked.slots[i].pc == Ask
  }

  /** However much a session has used, a call passes both checks again once its two keys have expired, and so it does
      after a reset. */
  lemma ExpiryReopens(l: Limits, s: State, i: nat, text: int, requestTokens: nat)
    requires i < |s.slots| && s.slots[i].Idle? && requestTokens < l.maxTokens && l.maxTurns >= 1
    ensures Admitted(l, Next(l, Next(l, s, ExpireUsage), ExpireHistory), i, text, requestTokens)
    ensures Admitted(l, Next(l, s, Reset), i, text, requestTokens)
  {
  }
}
