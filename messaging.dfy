/** The free functions of the Linux message loop that reach the two
    singletons: posting a message, registering and unregistering a descriptor
    callback, creating and destroying the message queue, and the driver loop
    `dispatchNextMessageOnSystemQueue`. A singleton that may not exist is a
    nullable reference. */
module Messaging {
  import opened RunLoop
  import opened MessageQueue

  /** `postMessageToSystemQueue`: posts to the queue if there is one, and
      reports whether there was. */
  method PostMessageToSystemQueue(q: InternalMessageQueue?, m: MessageId) returns (posted: bool)
    modifies if q != null then {q} else {}
    ensures posted <==> q != null
    ensures q != null ==> q.State() == Post(old(q.State()), m)
  {
    if q != null {
      q.PostMessage(m);
      return true;
    }
    return false;
  }

  /** `LinuxEventLoop::registerFdCallback`: forwarded to the run loop if there
      is one, and dropped otherwise. */
  method RegisterFdCallback(loop: InternalRunLoop?, fd: int, callback: CallbackId, eventMask: int)
    modifies if loop != null then {loop} else {}
    ensures loop != null ==> loop.State() == Submit(old(loop.State()), [Register(fd, callback, eventMask)])
  {
    if loop != null {
      loop.RegisterFdCallback(fd, callback, eventMask);
      assert [Register(fd, callback, eventMask)][..0] == [];
    }
  }

  /** `LinuxEventLoop::unregisterFdCallback`: forwarded to the run loop if
      there is one, and dropped otherwise. */
  method UnregisterFdCallback(loop: InternalRunLoop?, fd: int)
    modifies if loop != null then {loop} else {}
    ensures loop != null ==> loop.State() == Submit(old(loop.State()), [Unregister(fd)])
  {
    if loop != null {
      loop.UnregisterFdCallback(fd);
      assert [Unregister(fd)][..0] == [];
    }
  }

  /** The message queue's constructor: an empty queue, whose drain callback
      `drain` is registered for the socket's read handle. */
  method CreateMessageQueue(loop: InternalRunLoop?, readHandle: int, drain: CallbackId, eventMask: int)
    returns (q: InternalMessageQueue)
    modifies if loop != null then {loop} else {}
    ensures fresh(q) && q.State() == Empty
    ensures loop != null ==> loop.State() == Submit(old(loop.State()), [Register(readHandle, drain, eventMask)])
  {
    q := new InternalMessageQueue();
    RegisterFdCallback(loop, readHandle, drain, eventMask);
  }

  /** The message queue's destructor: the read handle's callback is
      unregistered. */
  method DestroyMessageQueue(loop: InternalRunLoop?, readHandle: int)
    modifies if loop != null then {loop} else {}
    ensures loop != null ==> loop.State() == Submit(old(loop.State()), [Unregister(readHandle)])
  {
    UnregisterFdCallback(loop, readHandle);
  }

  // ---------------------------------------------------------------------------
  // The driver loop

  /** How `dispatchNextMessageOnSystemQueue` ends: it returns a value, or it is
      still looping when the modelled turns run out. */
  datatype DriverOutcome = Returned(result: bool) | StillWaiting

  /** The outcome, the number of turns of the `for (;;)` loop taken, the run
      loop's state afterwards, and the callback runs of all its turns. */
  datatype DriverRun = DriverRun(outcome: DriverOutcome, turns: nat, state: LoopState, runs: seq<Invocation>)

  /** The driver over an existing run loop, turn by turn: `polls[t]` is what
      `poll` reports in turn `t`. A dispatch that sent something ends the loop
      with true; otherwise the call returns false if asked to, or sleeps and
      goes round again. */
  function Drive(s: LoopState, polls: seq<set<int>>, effect: Effect, returnIfIdle: bool): DriverRun
    decreases |polls|
  {
    if polls == [] then DriverRun(StillWaiting, 0, s, [])
    else
      var d := Dispatch(s, polls[0], effect);
      if d.sent then DriverRun(Returned(true), 1, d.state, DispatchRuns(s, polls[0], effect))
      else if returnIfIdle then DriverRun(Returned(false), 1, d.state, [])
      else
        var r := Drive(d.state, polls[1..], effect, returnIfIdle);
        r.(turns := r.turns + 1)
  }

  /** Asked to return when idle, the driver makes exactly one dispatch and
      returns its result. */
  lemma {:induction false} DriveReturnsIfIdle(s: LoopState, polls: seq<set<int>>, effect: Effect)
    requires polls != []
    ensures var r := Drive(s, polls, effect, true);
            r.outcome == Returned(Dispatch(s, polls[0], effect).sent) && r.turns == 1 &&
            r.state == Dispatch(s, polls[0], effect).state && r.runs == DispatchRuns(s, polls[0], effect)
  {
  }

  /** Whether the dispatch of turn `t` sends something, when every earlier
      turn's dispatch sent nothing. */
  predicate SentAt(s: LoopState, polls: seq<set<int>>, effect: Effect, t: nat)
    requires t < |polls|
  {
    Dispatch(DriveFrom(s, polls, effect, t), polls[t], effect).sent
  }

  /** The driver takes at most one turn per poll result, and leaves the run
      loop as its dispatches, one per turn, left it. */
  lemma {:induction false} DriveState(s: LoopState, polls: seq<set<int>>, effect: Effect, returnIfIdle: bool)
    ensures var r := Drive(s, polls, effect, returnIfIdle);
            r.turns <= |polls| && r.state == DriveFrom(s, polls, effect, r.turns)
    decreases |polls|
  {
    if polls != [] {
      var d := Dispatch(s, polls[0], effect);
      assert DriveFrom(s, polls, effect, 1) == d.state;
      if !d.sent && !returnIfIdle {
        DriveState(d.state, polls[1..], effect, returnIfIdle);
        var r := Drive(d.state, polls[1..], effect, returnIfIdle);
        DriveFromShift(s, polls, effect, r.turns + 1);
      }
    }
  }

  /** The turn after turn 0 behaves as turn 0 of the driver started one turn
      later. */
  lemma {:induction false} SentAtShift(s: LoopState, polls: seq<set<int>>, effect: Effect, t: nat)
    requires 1 <= t < |polls|
    ensures SentAt(s, polls, effect, t) == SentAt(Dispatch(s, polls[0], effect).state, polls[1..], effect, t - 1)
  {
    DriveFromShift(s, polls, effect, t);
    assert polls[1..][t - 1] == polls[t];
  }

  /** The driver goes round only while dispatches send nothing: every turn
      before its last was idle. */
  lemma {:induction false} DriveIdleBefore(s: LoopState, polls: seq<set<int>>, effect: Effect, returnIfIdle: bool)
    ensures var r := Drive(s, polls, effect, returnIfIdle);
            forall t :: 0 <= t < |polls| && t + 1 < r.turns ==> !SentAt(s, polls, effect, t)
    decreases |polls|
  {
    if polls != [] {
      var d := Dispatch(s, polls[0], effect);
      if !d.sent && !returnIfIdle {
        var s' := d.state;
        DriveIdleBefore(s', polls[1..], effect, returnIfIdle);
        assert DriveFrom(s, polls, effect, 0) == s;
        forall t | 1 <= t < |polls|
          ensures SentAt(s, polls, effect, t) == SentAt(s', polls[1..], effect, t - 1)
        {
          SentAtShift(s, polls, effect, t);
        }
      }
    }
  }

  /** The driver is still waiting only when it was given no turn, or when it
      was not asked to return when idle and every turn, the last one too, was
      idle. */
  lemma {:induction false} DriveWaits(s: LoopState, polls: seq<set<int>>, effect: Effect, returnIfIdle: bool)
    requires Drive(s, polls, effect, returnIfIdle).outcome == StillWaiting
    ensures Drive(s, polls, effect, returnIfIdle).turns == |polls|
    ensures polls != [] ==> !returnIfIdle && !SentAt(s, polls, effect, |polls| - 1)
    decreases |polls|
  {
    if polls != [] {
      var d := Dispatch(s, polls[0], effect);
      DriveWaits(d.state, polls[1..], effect, returnIfIdle);
      if |polls| > 1 {
        SentAtShift(s, polls, effect, |polls| - 1);
      } else {
        assert DriveFrom(s, polls, effect, 0) == s;
      }
    }
  }

  /** The driver returns false only when asked to return when idle and its
      last dispatch sent nothing, and true only when its last dispatch sent
      something. */
  lemma {:induction false} DriveReturns(s: LoopState, polls: seq<set<int>>, effect: Effect, returnIfIdle: bool)
    requires Drive(s, polls, effect, returnIfIdle).outcome.Returned?
    ensures var r := Drive(s, polls, effect, returnIfIdle);
            0 < r.turns <= |polls| && r.outcome.result == SentAt(s, polls, effect, r.turns - 1) &&
            (r.outcome.result || returnIfIdle)
    decreases |polls|
  {
    var d := Dispatch(s, polls[0], effect);
    assert DriveFrom(s, polls, effect, 0) == s;
    if !d.sent && !returnIfIdle {
      DriveReturns(d.state, polls[1..], effect, returnIfIdle);
      SentAtShift(s, polls, effect, Drive(d.state, polls[1..], effect, returnIfIdle).turns);
    }
  }

  /** The run loop's state at the start of turn `t` when every earlier turn's
      dispatch sent nothing. */
  function DriveFrom(s: LoopState, polls: seq<set<int>>, effect: Effect, t: nat): LoopState
    requires t <= |polls|
  {
    if t == 0 then s
    else Dispatch(DriveFrom(s, polls, effect, t - 1), polls[t - 1], effect).state
  }

  /** The callback runs of the dispatches of turns `0` to `t - 1`, in order,
      when every earlier turn's dispatch sent nothing. */
  function RunsThrough(s: LoopState, polls: seq<set<int>>, effect: Effect, t: nat): seq<Invocation>
    requires t <= |polls|
  {
    if t == 0 then []
    else RunsThrough(s, polls, effect, t - 1) + DispatchRuns(DriveFrom(s, polls, effect, t - 1), polls[t - 1], effect)
  }

  lemma {:induction false} RunsThroughShift(s: LoopState, polls: seq<set<int>>, effect: Effect, t: nat)
    requires 1 <= t <= |polls|
    ensures RunsThrough(s, polls, effect, t) ==
            DispatchRuns(s, polls[0], effect) + RunsThrough(Dispatch(s, polls[0], effect).state, polls[1..], effect, t - 1)
  {
    if t > 1 {
      RunsThroughShift(s, polls, effect, t - 1);
      DriveFromShift(s, polls, effect, t - 1);
      assert polls[1..][t - 2] == polls[t - 1];
      ConcatAssoc(DispatchRuns(s, polls[0], effect),
                  RunsThrough(Dispatch(s, polls[0], effect).state, polls[1..], effect, t - 2),
                  DispatchRuns(DriveFrom(s, polls, effect, t - 1), polls[t - 1], effect));
    } else {
      assert DriveFrom(s, polls, effect, 0) == s;
    }
  }

  lemma {:induction false} DriveFromShift(s: LoopState, polls: seq<set<int>>, effect: Effect, t: nat)
    requires 1 <= t <= |polls|
    ensures DriveFrom(s, polls, effect, t) == DriveFrom(Dispatch(s, polls[0], effect).state, polls[1..], effect, t - 1)
  {
    if t > 1 {
      DriveFromShift(s, polls, effect, t - 1);
      assert polls[1..][t - 2] == polls[t - 1];
    }
  }

  /** The callbacks the driver ran are those of every turn's dispatch, in
      turn order; as a turn that runs one ends the loop, they are the runs of
      its last turn, and there are some exactly when it returns true. */
  lemma {:induction false} DriveRuns(s: LoopState, polls: seq<set<int>>, effect: Effect, returnIfIdle: bool)
    ensures var r := Drive(s, polls, effect, returnIfIdle);
            r.turns <= |polls| && (r.runs != [] <==> r.outcome == Returned(true)) &&
            r.runs == RunsThrough(s, polls, effect, r.turns)
    ensures var r := Drive(s, polls, effect, returnIfIdle);
            r.turns > 0 ==> r.runs == DispatchRuns(DriveFrom(s, polls, effect, r.turns - 1), polls[r.turns - 1], effect)
    decreases |polls|
  {
    if polls != [] {
      var d := Dispatch(s, polls[0], effect);
      DispatchSentIffRan(s, polls[0], effect);
      assert DriveFrom(s, polls, effect, 0) == s;
      if !d.sent && !returnIfIdle {
        DriveRuns(d.state, polls[1..], effect, returnIfIdle);
        var r := Drive(d.state, polls[1..], effect, returnIfIdle);
        RunsThroughShift(s, polls, effect, r.turns + 1);
        if r.turns > 0 {
          DriveFromShift(s, polls, effect, r.turns);
          assert polls[1..][r.turns - 1] == polls[r.turns];
        }
      }
    }
  }

  /** Every turn keeps the run loop's invariant and leaves nothing pending. */
  lemma {:induction false} DriveConsistent(s: LoopState, polls: seq<set<int>>, effect: Effect, returnIfIdle: bool)
    requires Consistent(s)
    ensures Consistent(Drive(s, polls, effect, returnIfIdle).state)
    ensures polls != [] ==> NothingPending(Drive(s, polls, effect, returnIfIdle).state)
    decreases |polls|
  {
    if polls != [] {
      DispatchConsistent(s, polls[0], effect);
      var d := Dispatch(s, polls[0], effect);
      if !d.sent && !returnIfIdle {
        DriveConsistent(d.state, polls[1..], effect, returnIfIdle);
        if polls[1..] == [] {
          assert Drive(s, polls, effect, returnIfIdle).state == d.state;
        }
      }
    }
  }

  /** `dispatchNextMessageOnSystemQueue`, over at most `|polls|` turns. Each
      turn first asks the application to quit if SIGINT was seen; without a
      run loop the turn does nothing else. */
  method DispatchNextMessageOnSystemQueue(loop: InternalRunLoop?, returnIfNoPendingMessages: bool,
                                          polls: seq<set<int>>, effect: Effect, keyboardBreakOccurred: bool)
    returns (outcome: DriverOutcome, quitRequested: bool)
    modifies if loop != null then {loop} else {}
    ensures loop == null ==> outcome == StillWaiting && quitRequested == (keyboardBreakOccurred && polls != [])
    ensures loop != null ==>
      var r := Drive(old(loop.State()), polls, effect, returnIfNoPendingMessages);
      outcome == r.outcome && loop.State() == r.state && quitRequested == (keyboardBreakOccurred && r.turns > 0) &&
      loop.runs == old(loop.runs) + r.runs
  {
    ghost var s := if loop != null then loop.State() else LoopState([], [], [], []);
    quitRequested := false;
    var t := 0;
    while t < |polls|
      invariant 0 <= t <= |polls|
      invariant quitRequested == (keyboardBreakOccurred && t > 0)
      invariant loop != null ==>
        var r := Drive(loop.State(), polls[t..], effect, returnIfNoPendingMessages);
        Drive(s, polls, effect, returnIfNoPendingMessages) == r.(turns := r.turns + t) &&
        loop.runs == old(loop.runs)
    {
      if keyboardBreakOccurred {
        quitRequested := true;
      }
      if loop != null {
        assert polls[t..][0] == polls[t] && polls[t..][1..] == polls[t + 1..];
        ghost var before := loop.State();
        var sent := loop.DispatchPendingEvents(polls[t], effect);
        DispatchSentIffRan(before, polls[t], effect);
        if sent {
          return Returned(true), quitRequested;
        }
        if returnIfNoPendingMessages {
          return Returned(false), quitRequested;
        }
      }
      t := t + 1;
    }
    return StillWaiting, quitRequested;
  }
}
