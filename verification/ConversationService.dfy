/** The chat call as the service runs it, command by command, while other calls, resets and expiries come between.
    Its runs are runs of the session machine. */
module ConversationService {
  import opened Conversation

  /** A run of the session from its initial state, event by event. */
  ghost predicate IsRun(l: Limits, k: nat, states: seq<State>, log: seq<Event>) {
    && |states| == |log| + 1
    && states[0] == Exec(l, k, [])
    && forall i :: 0 <= i < |log| ==> states[i + 1] == Next(l, states[i], log[i])
  }

  lemma {:induction false} IsRunExec(l: Limits, k: nat, states: seq<State>, log: seq<Event>, n: nat)
    requires IsRun(l, k, states, log) && n <= |log|
    ensures states[n] == Exec(l, k, log[..n])
  {
    if n > 0 {
      IsRunExec(l, k, states, log, n - 1);
      assert log[..n][..n - 1] == log[..n - 1];
    }
  }

  /** Is this a step of the call in slot i, or one that would take its slot? */
  predicate Own(e: Event, i: nat) {
    (e.Start? || e.Do? || e.Lose? || e.Refuse? || e.Crash?) && e.i == i
  }

  lemma OthersKeep(l: Limits, s: State, e: Event, i: nat)
    requires i < |s.slots| && !Own(e, i)
    ensures var s' := Next(l, s, e); |s'.slots| == |s.slots| && s'.slots[i] == s.slots[i]
  {
  }

  datatype Outcome =
    | Replied(tokensUsed: nat, tokensRemaining: int)
    | TokenLimitReached
    | TurnLimitReached
    | Raised

  /** The states so far stay on record. */
  ghost predicate Extends(states: seq<State>, before: seq<State>) {
    |states| >= |before| && forall n :: 0 <= n < |before| ==> states[n] == before[n]
  }

  /** From state `start` on, the counter was low enough for the request, and the history short enough after that. */
  ghost predicate WithinLimits(l: Limits, states: seq<State>, start: nat, requestTokens: nat) {
    exists n, m ::
      && start <= n < m < |states|
      && states[n].usage + requestTokens < l.maxTokens
      && |states[m].history| < l.maxTurns * 2
  }

  lemma StillWithinLimits(l: Limits, before: seq<State>, states: seq<State>, start: nat, since: nat,
                          requestTokens: nat)
    requires WithinLimits(l, before, since, requestTokens) && start <= since && Extends(states, before)
    ensures WithinLimits(l, states, start, requestTokens)
  {
    var n, m :| && since <= n < m < |before|
                && before[n].usage + requestTokens < l.maxTokens
                && |before[m].history| < l.maxTurns * 2;
    assert states[n] == before[n] && states[m] == before[m];
  }

  class Session {
    const limits: Limits
    const places: nat
    var st: State
    ghost var log: seq<Event>
    ghost var states: seq<State>

    constructor (limits: Limits, places: nat)
      ensures Valid() && this.limits == limits && this.places == places && st == Exec(limits, places, [])
    {
      var empty := State([], 0, IdleSlots(places), 0);
      this.limits, this.places, st, log, states := limits, places, empty, [], [empty];
    }

    ghost predicate Valid()
      reads this
    {
      IsRun(limits, places, states, log) && st == states[|log|]
    }

    method Apply(e: Event)
      requires Valid()
      modifies this`st, this`log, this`states
      ensures Valid() && log == old(log) + [e] && st == Next(limits, old(st), e)
      ensures states == old(states) + [st]
    {
      st := Next(limits, st, e);
      log, states := log + [e], states + [st];
    }

    /** Other calls take any number of steps; the session may be reset or expire. */
    method Others(i: nat)
      requires Valid() && i < |st.slots|
      modifies this
      ensures Valid() && i < |st.slots| && st.slots[i] == old(st.slots[i]) && |log| >= |old(log)|
      ensures Extends(states, old(states))
    {
      var n: nat := *;
      while n > 0
        invariant Valid() && i < |st.slots| && st.slots[i] == old(st.slots[i]) && |log| >= |old(log)|
        invariant Extends(states, old(states))
      {
        var e: Event := *;
        if !Own(e, i) {
          OthersKeep(limits, st, e, i);
          Apply(e);
        }
        n := n - 1;
      }
    }

    /** The last event is a command of the call that raised. */
    ghost predicate Failed(i: nat)
      reads this
    {
      log != [] && (log[|log| - 1] == Lose(i) || log[|log| - 1] == Refuse(i))
    }

    /** The call issues its next command; `seen` is the state in which it runs. If it raises, it may have taken effect
        or not. */
    method Issue(i: nat, command: Command, reply: int, extraTokens: nat) returns (ok: bool, seen: State)
      requires Valid() && InFlight(st, i) && st.slots[i].pc == command
      modifies this
      ensures Valid() && i < |st.slots| && |log| > |old(log)| && seen == states[|log| - 1]
      ensures i < |seen.slots| && seen.slots[i] == old(st.slots[i]) && Extends(states, old(states))
      ensures st.slots[i] == if ok then Advance(limits, seen, old(st.slots[i]), reply, extraTokens) else Idle
      ensures ok ==> st == Next(limits, seen, Do(i, reply, extraTokens))
      ensures !ok ==> Failed(i)
    {
      Others(i);
      seen := st;
      ok := *;
      if ok {
        Apply(Do(i, reply, extraTokens));
      } else {
        var effective: bool := *;
        if effective {
          Apply(Lose(i));
        } else {
          Apply(Refuse(i));
        }
      }
    }

    /** The two limits, each checked against the session as it is when its command runs. An admitted call has seen both
        of them kept. */
    method Admit(i: nat, requestTokens: nat) returns (refusal: Outcome, admitted: bool, seen: State)
      requires Valid() && InFlight(st, i) && st.slots[i].pc == GetUsage && st.slots[i].requestTokens == requestTokens
      modifies this
      ensures Valid() && i < |st.slots| && |log| > |old(log)| && seen == states[|log| - 1]
      ensures Extends(states, old(states))
      ensures admitted ==> WithinLimits(limits, states, |old(log)|, requestTokens)
      ensures st.slots[i] == if admitted then old(st.slots[i]).(pc := Ask) else Idle
      ensures !admitted ==> match refusal
        case TokenLimitReached => seen.usage + requestTokens >= limits.maxTokens
        case TurnLimitReached => |seen.history| >= limits.maxTurns * 2
        case Raised => Failed(i)
        case Replied(_, _) => false
    {
      refusal, admitted := Raised, false;
      var ok;
      ok, seen := Issue(i, GetUsage, 0, 0);
      if !ok {
        return;
      }
      ghost var n := |log| - 1;
      if seen.usage + requestTokens >= limits.maxTokens {
        refusal := TokenLimitReached;
        return;
      }
      ok, seen := Issue(i, GetMessages, 0, 0);
      if !ok {
        return;
      }
      if |seen.history| >= limits.maxTurns * 2 {
        refusal := TurnLimitReached;
        return;
      }
      admitted := true;
      assert states[n].usage + requestTokens < limits.maxTokens && |states[|log| - 1].history| < limits.maxTurns * 2;
    }

    /** Ask the model and append both messages. */
    method Exchange(i: nat, reply: int, extraTokens: nat) returns (ok: bool, seen: State)
      requires Valid() && InFlight(st, i) && st.slots[i].pc == Ask
      modifies this
      ensures Valid() && i < |st.slots| && |log| > |old(log)| && seen == states[|log| - 1]
      ensures Extends(states, old(states))
      ensures st.slots[i] ==
        if ok
        then old(st.slots[i]).(pc := AddUsage, reply := reply, consumed := old(st.slots[i].requestTokens) + extraTokens)
        else Idle
      ensures !ok ==> Failed(i)
    {
      ok, seen := Issue(i, Ask, reply, extraTokens);
      if ok {
        ok, seen := Append(i);
      }
    }

    /** The message and the reply, in this order. */
    method Append(i: nat) returns (ok: bool, seen: State)
      requires Valid() && InFlight(st, i) && st.slots[i].pc == PushUser
      modifies this
      ensures Valid() && i < |st.slots| && |log| > |old(log)| && seen == states[|log| - 1]
      ensures Extends(states, old(states))
      ensures st.slots[i] == if ok then old(st.slots[i]).(pc := AddUsage) else Idle
      ensures !ok ==> Failed(i)
    {
      ok, seen := Issue(i, PushUser, 0, 0);
      if ok {
        ok, seen := Issue(i, PushReply, 0, 0);
      }
    }

    /** The call found the session in state `seen` when it charged its tokens, and reports the raised counter. */
    ghost predicate Reported(i: nat, text: int, seen: State, used: nat, remaining: int)
      reads this
    {
      && InFlight(seen, i) && seen.slots[i].pc == AddUsage && seen.slots[i].text == text
      && st.usage == used == seen.usage + seen.slots[i].consumed
      && remaining == if used <= limits.maxTokens then limits.maxTokens - used else 0
    }

    /** An admitted call: the exchange, then its tokens are charged. */
    method Answer(i: nat, requestTokens: nat) returns (outcome: Outcome, seen: State)
      requires Valid() && InFlight(st, i) && st.slots[i].pc == Ask && st.slots[i].requestTokens == requestTokens
      modifies this
      ensures Valid() && i < |st.slots| && st.slots[i] == Idle && Extends(states, old(states))
      ensures |log| > |old(log)| && seen == states[|log| - 1]
      ensures outcome.Raised? || outcome.Replied?
      ensures outcome.Raised? ==> Failed(i)
      ensures outcome.Replied? ==> Reported(i, old(st.slots[i].text), seen, outcome.tokensUsed, outcome.tokensRemaining)
    {
      var reply: int := *;
      var extraTokens: nat := *;
      var ok;
      ok, seen := Exchange(i, reply, extraTokens);
      if ok {
        ok, seen := Issue(i, AddUsage, 0, 0);
      }
      if !ok {
        return Raised, seen;
      }
      var newTotal := seen.usage + requestTokens + extraTokens;
      outcome := Replied(newTotal, if limits.maxTokens - newTotal > 0 then limits.maxTokens - newTotal else 0);
    }

    method Enter(i: nat, text: int, requestTokens: nat)
      requires Valid() && i < |st.slots| && st.slots[i] == Idle
      modifies this
      ensures Valid() && InFlight(st, i) && |log| == |old(log)| + 1
      ensures st.slots[i] == Busy(GetUsage, old(st.started), text, requestTokens, 0, 0)
    {
      Apply(Start(i, text, requestTokens));
    }

    /** One chat call: it is refused at a limit it has seen reached, and else reports the counter it has raised. */
    method Chat(i: nat, text: int, requestTokens: nat) returns (outcome: Outcome, seen: State)
      requires Valid() && i < |st.slots| && st.slots[i] == Idle
      modifies this
      ensures Valid() && i < |st.slots| && st.slots[i] == Idle
      ensures |log| > |old(log)| && seen == states[|log| - 1]
      ensures outcome.Replied? ==> WithinLimits(limits, states, |old(log)|, requestTokens)
      ensures outcome.TokenLimitReached? ==> seen.usage + requestTokens >= limits.maxTokens
      ensures outcome.TurnLimitReached? ==> |seen.history| >= limits.maxTurns * 2
      ensures outcome.Raised? ==> Failed(i)
      ensures outcome.Replied? ==> Reported(i, text, seen, outcome.tokensUsed, outcome.tokensRemaining)
    {
      Enter(i, text, requestTokens);
      var admitted;
      outcome, admitted, seen := Admit(i, requestTokens);
      if !admitted {
        return;
      }
      ghost var before := states;
      outcome, seen := Answer(i, requestTokens);
      StillWithinLimits(limits, before, states, |old(log)|, |old(log)| + 1, requestTokens);
    }

    method ResetSession()
      requires Valid()
      modifies this
      ensures Valid() && st == old(st).(history := [], usage := 0)
    {
      Apply(Reset);
    }
  }
}
