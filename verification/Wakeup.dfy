/** The blocking query and who wakes it up.

    Three threads share two flags and one monitor: the caller of `QueryMC`, the thread that
    drains the queue, and a thread that disconnects.  Every read or write of a flag that
    decides what a thread does next is a step of its own, inside the monitor as well as
    outside.  A wait may also end by itself, the drain thread may set `bContinue` to what
    the socket client says at any time, and it may end with an exception.
  */
module Wakeup {

  datatype Owner = Free | ByCaller | ByDrain | ByDisconnect

  /** In `QueryMC`: idle, about to enter the monitor, about to read `isQueryMode` and then
      `bContinue` in it, waiting, or notified and about to enter again. */
  datatype CallerAt = CallerIdle | CallerSent | CallerTest | CallerTestFlag | CallerAsleep | CallerWoken

  /** In the callback: idle, having seen a query in progress, about to notify, notifying in
      the monitor, or finished for good. */
  datatype DrainAt = DrainIdle | DrainClear | DrainNotify | DrainNotifying | DrainEnded

  /** In `Disconnect`: before it, about to enter the monitor, testing the loop condition,
      waiting, notified, the three assignments after the wait, about to drop the flag, or
      done. */
  datatype DisconnectAt =
    | DisconnectIdle | DisconnectEnter | DisconnectTest | DisconnectAsleep | DisconnectWoken
    | DisconnectClear | DisconnectDrop | DisconnectNotify | DisconnectLast | DisconnectDone

  datatype State = State(
    isQueryMode: bool, bContinue: bool, lock: Owner,
    caller: CallerAt, drain: DrainAt, disconnect: DisconnectAt)

  datatype Action =
    | Ask | CallerLocks | CallerTests | CallerTestsFlag | CallerStirs
    | PromptSeen | FrameWhileStopped | ClearsQuery | DrainLocks | DrainNotifies
    | Reload(flag: bool) | DrainReturns | DrainFails
    | StartDisconnect | DisconnectLocks | DisconnectTests | DisconnectStirs
    | ClearsByDisconnect | DropsInside | NotifiesByDisconnect | DropsOutside

  predicate Init(s: State) {
    s.lock == Free && s.caller == CallerIdle && s.drain == DrainIdle && s.disconnect == DisconnectIdle
  }

  function NotifyAll(s: State): State {
    s.(caller := if s.caller == CallerAsleep then CallerWoken else s.caller,
       disconnect := if s.disconnect == DisconnectAsleep then DisconnectWoken else s.disconnect)
  }

  predicate Enabled(s: State, a: Action) {
    match a
    case Ask => s.caller == CallerIdle
    case CallerLocks => s.lock == Free && s.caller in {CallerSent, CallerWoken}
    case CallerTests => s.caller == CallerTest
    case CallerTestsFlag => s.caller == CallerTestFlag
    case CallerStirs => s.caller == CallerAsleep
    case PromptSeen => s.drain == DrainIdle && s.isQueryMode
    case FrameWhileStopped => s.drain == DrainIdle && !s.bContinue
    case ClearsQuery => s.drain == DrainClear
    case DrainLocks => s.lock == Free && s.drain == DrainNotify
    case DrainNotifies => s.drain == DrainNotifying
    case Reload(_) => s.drain == DrainIdle
    case DrainReturns => s.drain == DrainIdle && !s.bContinue
    case DrainFails => s.drain == DrainIdle
    case StartDisconnect => s.disconnect == DisconnectIdle
    case DisconnectLocks => s.lock == Free && s.disconnect in {DisconnectEnter, DisconnectWoken}
    case DisconnectTests => s.disconnect == DisconnectTest
    case DisconnectStirs => s.disconnect == DisconnectAsleep
    case ClearsByDisconnect => s.disconnect == DisconnectClear
    case DropsInside => s.disconnect == DisconnectDrop
    case NotifiesByDisconnect => s.disconnect == DisconnectNotify
    case DropsOutside => s.disconnect == DisconnectLast
  }

  function Next(s: State, a: Action): State
    requires Enabled(s, a)
  {
    match a
    case Ask => s.(isQueryMode := true, caller := CallerSent)
    case CallerLocks => s.(lock := ByCaller, caller := CallerTest)
    case CallerTests =>
      if s.isQueryMode then s.(caller := CallerTestFlag) else s.(lock := Free, caller := CallerIdle)
    case CallerTestsFlag => s.(lock := Free, caller := if s.bContinue then CallerAsleep else CallerIdle)
    case CallerStirs => s.(caller := CallerWoken)
    case PromptSeen => s.(drain := DrainClear)
    case FrameWhileStopped => s.(drain := DrainNotify)
    case ClearsQuery => s.(isQueryMode := false, drain := DrainNotify)
    case DrainLocks => s.(lock := ByDrain, drain := DrainNotifying)
    case DrainNotifies => NotifyAll(s).(lock := Free, drain := DrainIdle)
    case Reload(flag) => s.(bContinue := flag)
    case DrainReturns => s.(drain := DrainEnded)
    case DrainFails => s.(drain := DrainEnded)
    case StartDisconnect => s.(disconnect := DisconnectEnter)
    case DisconnectLocks =>
      s.(lock := ByDisconnect, disconnect := if s.disconnect == DisconnectWoken then DisconnectClear else DisconnectTest)
    case DisconnectTests =>
      if s.isQueryMode then s.(lock := Free, disconnect := DisconnectAsleep)
      else s.(lock := Free, disconnect := DisconnectLast)
    case DisconnectStirs => s.(disconnect := DisconnectWoken)
    case ClearsByDisconnect => s.(isQueryMode := false, disconnect := DisconnectDrop)
    case DropsInside => s.(bContinue := false, disconnect := DisconnectNotify)
    case NotifiesByDisconnect => NotifyAll(s).(disconnect := DisconnectTest)
    case DropsOutside => s.(bContinue := false, disconnect := DisconnectDone)
  }

  /** States joined by steps. */
  ghost predicate IsRun(states: seq<State>, actions: seq<Action>) {
    && |states| == |actions| + 1
    && Init(states[0])
    && forall i :: 0 <= i < |actions| ==> Enabled(states[i], actions[i]) && states[i + 1] == Next(states[i], actions[i])
  }

  /** Somebody is on the way to `notifyAll`. */
  predicate NotifyPending(s: State) {
    s.drain in {DrainNotify, DrainNotifying} || s.disconnect in {DisconnectDrop, DisconnectNotify}
  }

  predicate Invariant(s: State) {
    && (s.caller in {CallerTestFlag, CallerAsleep} && !s.isQueryMode ==> NotifyPending(s))
    && (s.lock == ByCaller <==> s.caller in {CallerTest, CallerTestFlag})
    && (s.lock == ByDrain <==> s.drain == DrainNotifying)
    && (s.lock == ByDisconnect <==> s.disconnect in {DisconnectTest, DisconnectClear, DisconnectDrop, DisconnectNotify})
  }

  lemma StepKeepsInvariant(s: State, a: Action)
    requires Invariant(s) && Enabled(s, a)
    ensures Invariant(Next(s, a))
  {}

  lemma {:induction false} RunKeepsInvariant(states: seq<State>, actions: seq<Action>, i: nat)
    requires IsRun(states, actions) && i < |states|
    ensures Invariant(states[i])
  {
    if i > 0 {
      RunKeepsInvariant(states, actions, i - 1);
      assert states[i - 1 + 1] == Next(states[i - 1], actions[i - 1]);
      StepKeepsInvariant(states[i - 1], actions[i - 1]);
    }
  }

  /** No lost wakeup: in no run is the caller asleep after its query was answered or
      cancelled with nobody about to notify it. */
  lemma NoLostWakeup(states: seq<State>, actions: seq<Action>, i: nat)
    requires IsRun(states, actions) && i < |states|
    ensures states[i].caller == CallerAsleep && !states[i].isQueryMode ==> NotifyPending(states[i])
  {
    RunKeepsInvariant(states, actions, i);
  }

  /** How many steps of lock holders and of the notifier are left until the notification. */
  function Distance(s: State): nat {
    if s.disconnect == DisconnectDrop then 2
    else if s.disconnect == DisconnectNotify || s.drain == DrainNotifying then 1
    else if s.lock == Free then 2
    else 3
  }

  /** The step that brings a pending notification nearer: the lock holder's, or, when the
      monitor is free, the notifier's. */
  function Towards(s: State): Action {
    if s.disconnect == DisconnectDrop then DropsInside
    else if s.disconnect == DisconnectNotify then NotifiesByDisconnect
    else if s.drain == DrainNotifying then DrainNotifies
    else if s.lock == Free then DrainLocks
    else if s.disconnect == DisconnectClear then ClearsByDisconnect
    else DisconnectTests
  }

  /** A pending notification cannot be blocked: at most three steps, each possible, wake the
      caller. */
  lemma PendingNotifyArrives(s: State)
    requires Invariant(s) && s.caller == CallerAsleep && NotifyPending(s)
    ensures Enabled(s, Towards(s)) && Distance(s) <= 3
    ensures var t := Next(s, Towards(s));
      t.caller == CallerWoken || (t.caller == CallerAsleep && NotifyPending(t) && Distance(t) < Distance(s))
  {}

  // ---------- sleeping for ever ----------

  /** The caller sleeps, the drain thread has ended, and nobody is disconnecting: either
      nobody has begun to, or the only notification of a `Disconnect` has been passed. */
  predicate Stuck(s: State) {
    && s.caller == CallerAsleep && s.drain == DrainEnded
    && s.disconnect in {DisconnectIdle, DisconnectLast, DisconnectDone}
  }

  /** Steps that the threads under way take: nobody begins to disconnect, and the caller's
      wait, which has no time limit, does not end by itself. */
  predicate Ordinary(a: Action) {
    a != StartDisconnect && a != CallerStirs
  }

  /** The state after a sequence of steps, if all of them are possible one after the other. */
  predicate Possible(s: State, actions: seq<Action>)
    decreases |actions|
  {
    actions == [] || (Enabled(s, actions[0]) && Possible(Next(s, actions[0]), actions[1..]))
  }

  function Reached(s: State, actions: seq<Action>): State
    requires Possible(s, actions)
    decreases |actions|
  {
    if actions == [] then s else Reached(Next(s, actions[0]), actions[1..])
  }

  predicate AllOrdinary(actions: seq<Action>) {
    forall i :: 0 <= i < |actions| ==> Ordinary(actions[i])
  }

  /** Some ordinary continuation wakes the caller. */
  ghost predicate CanBeWoken(s: State) {
    exists actions :: AllOrdinary(actions) && Possible(s, actions) && Reached(s, actions).caller == CallerWoken
  }

  /** For ever: whatever ordinary steps follow, the caller stays asleep. */
  lemma {:induction false} StuckStaysStuck(s: State, actions: seq<Action>)
    requires Stuck(s) && AllOrdinary(actions) && Possible(s, actions)
    ensures Stuck(Reached(s, actions))
    decreases |actions|
  {
    if actions != [] {
      assert Ordinary(actions[0]);
      StuckStaysStuck(Next(s, actions[0]), actions[1..]);
    }
  }

  /** The next step towards waking the caller: of a pending notification, of the drain
      thread, which meets a prompt, or, when that has ended, of the thread that
      disconnects. */
  function Rescue(s: State): Action {
    if NotifyPending(s) then Towards(s)
    else if s.drain == DrainClear then ClearsQuery
    else if s.drain == DrainIdle then PromptSeen
    else if s.disconnect in {DisconnectEnter, DisconnectWoken} then DisconnectLocks
    else if s.disconnect == DisconnectTest then DisconnectTests
    else if s.disconnect == DisconnectAsleep then DisconnectStirs
    else ClearsByDisconnect
  }

  function RescueDistance(s: State): nat {
    if NotifyPending(s) then Distance(s)
    else if s.drain == DrainClear then 4
    else if s.drain == DrainIdle then 5
    else if s.disconnect == DisconnectClear then 4
    else if s.disconnect == DisconnectWoken then 5
    else if s.disconnect == DisconnectAsleep then 6
    else if s.disconnect == DisconnectTest then 7
    else 8
  }

  lemma RescueStep(s: State)
    requires Invariant(s) && s.caller == CallerAsleep && !Stuck(s)
    ensures Ordinary(Rescue(s)) && Enabled(s, Rescue(s))
    ensures var t := Next(s, Rescue(s));
      t.caller == CallerWoken || (t.caller == CallerAsleep && !Stuck(t) && RescueDistance(t) < RescueDistance(s))
  {
    if NotifyPending(s) {
      PendingNotifyArrives(s);
    }
  }

  lemma {:induction false} RescueArrives(s: State) returns (actions: seq<Action>)
    requires Invariant(s) && s.caller == CallerAsleep && !Stuck(s)
    ensures AllOrdinary(actions) && Possible(s, actions) && Reached(s, actions).caller == CallerWoken
    decreases RescueDistance(s)
  {
    RescueStep(s);
    var a := Rescue(s);
    var t := Next(s, a);
    StepKeepsInvariant(s, a);
    hide Enabled, Next, Rescue, RescueDistance, Invariant, Stuck;
    if t.caller == CallerWoken {
      actions := [a];
      assert actions[1..] == [] && Reached(t, []) == t;
    } else {
      var rest := RescueArrives(t);
      actions := [a] + rest;
      assert actions[1..] == rest;
    }
  }

  /** In every run, at every moment, a caller that sleeps can be woken by what is under way
      unless the drain thread has ended and nobody is disconnecting; and then it cannot. */
  lemma WokenUnlessStuck(states: seq<State>, actions: seq<Action>, i: nat)
    requires IsRun(states, actions) && i < |states| && states[i].caller == CallerAsleep
    ensures CanBeWoken(states[i]) <==> !Stuck(states[i])
  {
    RunKeepsInvariant(states, actions, i);
    var s := states[i];
    if Stuck(s) {
      forall more | AllOrdinary(more) && Possible(s, more) ensures Reached(s, more).caller != CallerWoken {
        StuckStaysStuck(s, more);
      }
    } else {
      var more := RescueArrives(s);
    }
  }

  /** A caller that is stuck waits for an answer: its query is still marked as running. */
  lemma StuckWaitsForAnswer(states: seq<State>, actions: seq<Action>, i: nat)
    requires IsRun(states, actions) && i < |states| && Stuck(states[i])
    ensures states[i].isQueryMode
  {
    RunKeepsInvariant(states, actions, i);
  }

  /** The socket closes while a query waits: the drain thread takes the flag over from the
      socket client and returns without a notification. */
  lemma StuckByStop()
    ensures exists states: seq<State>, actions :: IsRun(states, actions) && Stuck(states[|actions|]) && !states[|actions|].bContinue
  {
    var s0 := State(false, true, Free, CallerIdle, DrainIdle, DisconnectIdle);
    var s1 := Next(s0, Ask);
    var s2 := Next(s1, CallerLocks);
    var s3 := Next(s2, CallerTests);
    var s4 := Next(s3, CallerTestsFlag);
    var s5 := Next(s4, Reload(false));
    var s6 := Next(s5, DrainReturns);
    var states := [s0, s1, s2, s3, s4, s5, s6];
    var actions := [Ask, CallerLocks, CallerTests, CallerTestsFlag, Reload(false), DrainReturns];
    assert IsRun(states, actions);
    assert Stuck(states[|actions|]);
  }

  /** A frame that the decoder cannot set up ends the drain thread with an exception; then
      the caller sleeps with both flags as they were. */
  lemma StuckByException()
    ensures exists states: seq<State>, actions :: IsRun(states, actions) && Stuck(states[|actions|]) && states[|actions|].bContinue
  {
    var s0 := State(false, true, Free, CallerIdle, DrainIdle, DisconnectIdle);
    var s1 := Next(s0, Ask);
    var s2 := Next(s1, CallerLocks);
    var s3 := Next(s2, CallerTests);
    var s4 := Next(s3, CallerTestsFlag);
    var s5 := Next(s4, DrainFails);
    var states := [s0, s1, s2, s3, s4, s5];
    var actions := [Ask, CallerLocks, CallerTests, CallerTestsFlag, DrainFails];
    assert IsRun(states, actions);
    assert Stuck(states[|actions|]);
  }
}
