/**
 Closing the async facade, src/async.rs, over all interleavings: an atomic state, close futures that
 may be dropped at any await point, a FIFO command queue and one write worker whose storage close
 may fail.
 */
module AsyncClose {
  import opened Common

  datatype Phase = Open | Closing | Closed

  datatype Command = Write(id: nat) | Close

  /**
   `sending` counts close futures that hold an armed guard while they wait for room in the queue;
   `checked` are the writes that passed the open check and are not queued yet. `sent` is the history
   of the queue and `ran` that of the worker. A worker that dies leaves its queue and the command in
   its hands as they are.
   */
  datatype State = State(
    phase: Phase, sending: nat, checked: multiset<nat>, queue: seq<Command>, executing: Option<Command>,
    alive: bool, handles: bool, sent: seq<Command>, ran: seq<Command>)

  datatype Event =
    | BeginClose            // `close`: compare-exchange from OPEN to CLOSING
    | CancelSend            // the close future is dropped while it waits: the guard resets the state
    | SendClose             // the Close command enters the queue and the guard is disarmed
    | SendFails             // the worker is gone: the state becomes CLOSED
    | CheckWrite(id: nat)   // a write passes `ensure_open`
    | SendWrite(id: nat)    // and enters the queue
    | LeaveWrite(id: nat)   // or its future is dropped before that, or finds the worker gone
    | Take                  // the worker receives the next command
    | FinishWrite
    | FinishClose(ok: bool) // `storage.close()` returned
    | WorkerDies            // the worker thread panics
    | DropHandles           // the last handle goes: the queue is closed
    | WorkerStops           // the drained worker leaves its loop

  function Initial(): State {
    State(Open, 0, multiset{}, [], None, true, true, [], [])
  }

  ghost predicate Enabled(s: State, e: Event) {
    match e
    case BeginClose => s.handles
    case CancelSend => s.sending > 0
    case SendClose => s.sending > 0 && s.alive
    case SendFails => s.sending > 0 && !s.alive
    case CheckWrite(_) => s.handles && s.phase.Open?
    case SendWrite(id) => id in s.checked && s.alive
    case LeaveWrite(id) => id in s.checked
    case Take => s.alive && s.executing.None? && s.queue != []
    case FinishWrite => s.alive && s.executing.Some? && s.executing.value.Write?
    case FinishClose(_) => s.alive && s.executing == Some(Close)
    case WorkerDies => s.alive
    case DropHandles => s.handles && s.sending == 0 && s.checked == multiset{}
    case WorkerStops => s.alive && !s.handles && s.queue == [] && s.executing.None?
  }

  ghost function Next(s: State, e: Event): State
    requires Enabled(s, e)
  {
    match e
    case BeginClose => if s.phase.Open? then s.(phase := Closing, sending := s.sending + 1) else s
    case CancelSend => s.(sending := s.sending - 1, phase := if s.phase.Closing? then Open else s.phase)
    case SendClose => s.(sending := s.sending - 1, queue := s.queue + [Close], sent := s.sent + [Close])
    case SendFails => s.(sending := s.sending - 1, phase := Closed)
    case CheckWrite(id) => s.(checked := s.checked + multiset{id})
    case SendWrite(id) =>
      s.(checked := s.checked - multiset{id}, queue := s.queue + [Write(id)], sent := s.sent + [Write(id)])
    case LeaveWrite(id) => s.(checked := s.checked - multiset{id})
    case Take => s.(executing := Some(s.queue[0]), queue := s.queue[1..])
    case FinishWrite => s.(executing := None, ran := s.ran + [s.executing.value])
    case FinishClose(ok) => s.(executing := None, ran := s.ran + [Close], phase := if ok then Closed else Open)
    case WorkerDies => s.(alive := false)
    case DropHandles => s.(handles := false)
    case WorkerStops => s.(alive := false, phase := Closed)
  }

  // ----- What every run keeps -----

  function CloseCount(commands: seq<Command>): nat {
    if commands == [] then 0
    else CloseCount(commands[..|commands| - 1]) + (if commands[|commands| - 1].Close? then 1 else 0)
  }

  /** Closes that wait to be sent, are queued, or are in the worker's hands. */
  function InFlight(s: State): nat {
    s.sending + CloseCount(s.queue) + (if s.executing == Some(Close) then 1 else 0)
  }

  /** The worker died before it decided a close it was given. */
  predicate Abandoned(s: State) {
    !s.alive && (Close in s.queue || s.executing == Some(Close))
  }

  function InHand(s: State): seq<Command> {
    if s.executing.Some? then [s.executing.value] else []
  }

  ghost predicate Invariant(s: State) {
    && InFlight(s) == (if s.phase.Closing? then 1 else 0)
    && s.sent == s.ran + InHand(s) + s.queue
    && (!s.handles ==> s.sending == 0)
  }

  lemma CloseCountAppend(commands: seq<Command>, c: Command)
    ensures CloseCount(commands + [c]) == CloseCount(commands) + (if c.Close? then 1 else 0)
  {
    assert (commands + [c])[..|commands|] == commands;
  }

  lemma {:induction false} CloseCountFirst(commands: seq<Command>)
    requires commands != []
    ensures CloseCount(commands) == CloseCount(commands[1..]) + (if commands[0].Close? then 1 else 0)
    decreases |commands|
  {
    if |commands| > 1 {
      var front := commands[..|commands| - 1];
      CloseCountFirst(front);
      assert front[1..] == commands[1..][..|commands| - 2];
    } else {
      assert commands[..0] == [] == commands[1..];
    }
  }

  lemma {:induction false} CloseCountMembership(commands: seq<Command>)
    ensures CloseCount(commands) > 0 <==> Close in commands
    decreases |commands|
  {
    if commands != [] {
      CloseCountMembership(commands[..|commands| - 1]);
      assert commands == commands[..|commands| - 1] + [commands[|commands| - 1]];
    }
  }

  lemma SendInvariant(s: State, e: Event)
    requires Invariant(s) && Enabled(s, e) && (e.SendClose? || e.SendWrite?)
    ensures Invariant(Next(s, e))
  {
    var c := if e.SendClose? then Close else Write(e.id);
    CloseCountAppend(s.queue, c);
    assert s.sent + [c] == s.ran + InHand(s) + (s.queue + [c]);
  }

  lemma TakeInvariant(s: State)
    requires Invariant(s) && Enabled(s, Take)
    ensures Invariant(Next(s, Take))
  {
    CloseCountFirst(s.queue);
    assert s.ran + [] + s.queue == s.ran + [s.queue[0]] + s.queue[1..];
  }

  lemma FinishInvariant(s: State, e: Event)
    requires Invariant(s) && Enabled(s, e) && (e.FinishWrite? || e.FinishClose?)
    ensures Invariant(Next(s, e))
  {
    var c := s.executing.value;
    assert s.ran + [c] + s.queue == (s.ran + [c]) + [] + s.queue;
  }

  lemma NextInvariant(s: State, e: Event)
    requires Invariant(s) && Enabled(s, e)
    ensures Invariant(Next(s, e))
  {
    if e.SendClose? || e.SendWrite? {
      SendInvariant(s, e);
    } else if e.Take? {
      TakeInvariant(s);
    } else if e.FinishWrite? || e.FinishClose? {
      FinishInvariant(s, e);
    }
  }

  /** CLOSED is final. */
  lemma ClosedIsFinal(s: State, e: Event)
    requires Invariant(s) && Enabled(s, e) && s.phase.Closed?
    ensures Next(s, e).phase.Closed?
  {
  }

  // ----- Whole runs -----

  ghost predicate IsRun(states: seq<State>, events: seq<Event>) {
    && |states| == |events| + 1 && states[0] == Initial()
    && forall k :: 0 <= k < |events| ==> Enabled(states[k], events[k]) && states[k + 1] == Next(states[k], events[k])
  }

  /**
   In every state of every run at most one close is in flight, and CLOSING holds exactly while one
   is; the worker has run what was sent in the order it was sent; and CLOSED once reached stays.
   */
  lemma {:induction false} EveryRun(states: seq<State>, events: seq<Event>, i: nat, j: nat)
    requires IsRun(states, events) && i <= j <= |events|
    ensures Invariant(states[j])
    ensures states[i].phase.Closed? ==> states[j].phase.Closed?
    decreases j
  {
    if j > 0 {
      EveryRun(states, events, Min(i, j - 1), j - 1);
      assert states[j] == Next(states[j - 1], events[j - 1]);
      NextInvariant(states[j - 1], events[j - 1]);
      if i < j && states[i].phase.Closed? {
        ClosedIsFinal(states[j - 1], events[j - 1]);
      }
    }
  }

  /** When the worker executes a close, everything queued before that close has run. */
  lemma QueuedBeforeCloseRan(s: State)
    requires Invariant(s) && s.executing == Some(Close)
    ensures |s.ran| < |s.sent| && s.sent[|s.ran|] == Close && s.ran == s.sent[..|s.ran|]
    ensures forall k :: |s.ran| < k < |s.sent| ==> s.sent[k] != Close
  {
    CloseCountMembership(s.queue);
    forall k | |s.ran| < k < |s.sent| ensures s.sent[k] != Close {
      assert s.sent[k] == s.queue[k - |s.ran| - 1];
    }
  }

  // ----- When a close is never decided -----

  /** The events are enabled one after the other and lead from `s` to `t`. */
  ghost predicate Leads(s: State, events: seq<Event>, t: State)
    decreases |events|
  {
    if events == [] then t == s else Enabled(s, events[0]) && Leads(Next(s, events[0]), events[1..], t)
  }

  lemma {:induction false} LeadsThrough(s: State, first: Event, events: seq<Event>, t: State)
    requires Enabled(s, first) && Leads(Next(s, first), events, t)
    ensures Leads(s, [first] + events, t)
  {
    assert ([first] + events)[1..] == events;
  }

  lemma {:induction false} AbandonedStays(s: State, events: seq<Event>, t: State)
    requires Invariant(s) && Abandoned(s) && Leads(s, events, t)
    ensures Abandoned(t) && t.phase.Closing?
    decreases |events|
  {
    CloseCountMembership(s.queue);
    if events != [] {
      NextInvariant(s, events[0]);
      AbandonedStays(Next(s, events[0]), events[1..], t);
    }
  }

  /** The worker reaches the close it was given and decides it either way. */
  lemma {:induction false} WorkerDecides(s: State, ok: bool) returns (events: seq<Event>, t: State)
    requires s.alive && (Close in s.queue || s.executing == Some(Close))
    ensures Leads(s, events, t) && t.handles == s.handles && t.phase == if ok then Closed else Open
    decreases |s.queue|, s.executing.Some?
  {
    if s.executing == Some(Close) {
      events, t := [FinishClose(ok)], Next(s, FinishClose(ok));
      assert Leads(t, [], t);
      LeadsThrough(s, FinishClose(ok), [], t);
      assert [FinishClose(ok)] + [] == events;
    } else {
      var first := if s.executing.Some? then FinishWrite else Take;
      var rest;
      rest, t := WorkerDecides(Next(s, first), ok);
      LeadsThrough(s, first, rest, t);
      events := [first] + rest;
    }
  }

  lemma CloseDecided(s: State, ok: bool) returns (events: seq<Event>, t: State)
    requires Invariant(s) && s.phase.Closing? && !Abandoned(s)
    ensures Leads(s, events, t) && t.handles == s.handles && t.phase == if ok then Closed else Open
  {
    CloseCountMembership(s.queue);
    if s.sending == 0 {
      events, t := WorkerDecides(s, ok);
    } else if ok && s.alive {
      assert Next(s, SendClose).queue[|s.queue|] == Close;
      events, t := WorkerDecides(Next(s, SendClose), ok);
      LeadsThrough(s, SendClose, events, t);
      events := [SendClose] + events;
    } else {
      var only := if ok then SendFails else CancelSend;
      t := Next(s, only);
      assert Leads(t, [], t);
      LeadsThrough(s, only, [], t);
      events := [only] + [];
    }
  }

  ghost predicate ClosingForever(s: State) {
    forall events, t :: Leads(s, events, t) ==> t.phase.Closing?
  }

  lemma LeavesClosing(s: State, events: seq<Event>, t: State)
    requires Leads(s, events, t) && !t.phase.Closing?
    ensures !ClosingForever(s)
  {
  }

  ghost predicate CanReach(s: State, phase: Phase) {
    exists events, t :: Leads(s, events, t) && t.phase == phase && t.handles == s.handles
  }

  /**
   A close in flight can still be refused, so that closing can be tried again, and can still succeed,
   exactly unless the worker died with it. Then the state is CLOSING for good.
   */
  lemma StuckExactlyWhenAbandoned(s: State)
    requires Invariant(s) && s.phase.Closing?
    ensures Abandoned(s) <==> ClosingForever(s)
    ensures !Abandoned(s) <==> CanReach(s, Open)
    ensures !Abandoned(s) <==> CanReach(s, Closed)
  {
    if Abandoned(s) {
      forall events, t | Leads(s, events, t) ensures t.phase.Closing? {
        AbandonedStays(s, events, t);
      }
    } else {
      var refused, open := CloseDecided(s, false);
      assert CanReach(s, Open);
      LeavesClosing(s, refused, open);
      var done, closed := CloseDecided(s, true);
      assert CanReach(s, Closed);
    }
  }

  /** A run that ends stuck: the worker dies with the queued close. */
  lemma AbandonedRun() returns (states: seq<State>, events: seq<Event>)
    ensures IsRun(states, events) && Abandoned(states[|events|]) && states[|events|].phase.Closing?
  {
    var s0 := Initial();
    var s1 := Next(s0, BeginClose);
    var s2 := Next(s1, SendClose);
    var s3 := Next(s2, WorkerDies);
    states, events := [s0, s1, s2, s3], [BeginClose, SendClose, WorkerDies];
    assert s2.queue[0] == Close;
  }
}
