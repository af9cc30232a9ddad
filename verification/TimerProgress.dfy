/** The service always delivers: left alone with a clock that stands still, it runs out of steps whatever
    the interleaving, and by then every timer that is due has called back. */
module TimerProgress {
  import opened Wrappers
  import opened HeapTree
  import opened TimerClock
  import opened TimerService
  import opened TimerWakeup
  import opened TimerLifetime
  import opened TimerTheorems
  import opened TimerContents

  /** The steps of the message thread and of the poll thread, and the end of a start() that holds a
      lock: everything that needs neither a new client call nor the clock. */
  predicate SystemStep(step: Step) {
    || step.MsgTake? || step.MsgAddPoll? || step.MsgSetTime? || step.MsgDelete? || step.MsgPop?
    || step.MsgExpireDelegate? || step.MsgStop? || step.MsgCall?
    || step.PollWake? || step.PollDisarm? || step.PollRemove? || step.PollSend? || step.StartAssign?
  }

  predicate AllSystem(steps: seq<Step>) {
    forall i | 0 <= i < |steps| :: SystemStep(steps[i])
  }

  /** Nothing more happens until a client calls or time passes. */
  ghost predicate Settled(s: State) {
    forall step | SystemStep(step) :: !Enabled(s, step)
  }

  // ---------- how much work is left ----------

  // Each weight exceeds what the step it stands for leaves behind; a timer in a heap pays for its own
  // expiry and for arming the kernel afterwards.
  const NODE := 30
  const ARMED := 11

  function MsgWeight(m: Msg): nat {
    match m case MsgPush(_) => NODE + ARMED + 4 case MsgRemove(_) => ARMED + 4 case MsgExpire(_) => 5
  }

  function QueueWeight(log: seq<Msg>, done: nat): nat
    requires done <= |log|
    decreases |log| - done
  {
    if done == |log| then 0 else MsgWeight(log[done]) + QueueWeight(log, done + 1)
  }

  function MsgThreadWeight(m: MsgThread): nat {
    match m
    case Resting => 0
    case Deleting(_) => 1
    case SettingTime(_, _, _) => ARMED + 2
    case AddingPoll(_, _, _) => ARMED + 3
    case Popping(_, _, first) => if first then 4 else ARMED + 4
    case Calling(_, _, _) => ARMED + 5
    case Stopping(_, _, _) => 2 * ARMED + 10
    case Expiring(_, _, _) => 2 * ARMED + 11
  }

  function PollWeight(p: PollThread): nat {
    match p
    case Blocked => 0
    case Handling(events, Fired) => 8 * |events| + 2
    case Handling(events, Disarmed) => 8 * |events| + 1
    case Handling(events, Unpolled) => 8 * |events|
  }

  /** The events whose fd the poll thread has yet to disarm. */
  function ToDisarm(p: PollThread): seq<Which> {
    if p.Blocked? || p.events == [] then [] else if p.stage.Fired? then p.events else p.events[1..]
  }

  /** An armed time that has come may still wake the poll thread. */
  function ArmedWeight(k: Container, now: Deadline, toDisarm: bool): nat {
    if k.armed.Some? && Instant(k.armed.value) <= Instant(now) && !toDisarm then ARMED else 0
  }

  function KernelWeight(s: State): nat {
    ArmedWeight(s.soft, s.now, Soft in ToDisarm(s.poll)) + ArmedWeight(s.hard, s.now, Hard in ToDisarm(s.poll))
  }

  function Starting(timers: map<nat, LocTimer>): set<nat> {
    set l | l in timers && timers[l].pending.Some?
  }

  function Work(s: State): nat
    requires s.done <= |s.log|
  {
    QueueWeight(s.log, s.done) + MsgThreadWeight(s.msg) + PollWeight(s.poll) + KernelWeight(s)
    + NODE * (NodeCount(s.soft.tree) + NodeCount(s.hard.tree)) + |Starting(s.timers)|
  }

  ghost predicate LessWork(s: State, s': State)
    requires s.done <= |s.log|
  {
    s'.done <= |s'.log| && Work(s') < Work(s)
  }

  lemma {:induction false} QueueAppend(log: seq<Msg>, done: nat, m: Msg)
    requires done <= |log|
    ensures QueueWeight(log + [m], done) == QueueWeight(log, done) + MsgWeight(m)
    decreases |log| - done
  {
    if done < |log| {
      assert (log + [m])[done] == log[done];
      QueueAppend(log, done + 1, m);
    } else {
      assert (log + [m])[done] == m;
    }
  }

  lemma {:induction false} PushGrowsByOne(t: Tree<Timer>, x: Timer)
    ensures NodeCount(Push(t, x, Sooner)) == NodeCount(t) + 1
  {
    if t.Node? {
      var down := if Sooner(x, t.data) then t.data else x;
      PushGrowsByOne(t.left, down);
      PushGrowsByOne(t.right, down);
    }
  }

  lemma {:induction false} RemoveNeverGrows(t: Tree<Timer>, x: Timer)
    ensures NodeCount(Remove(t, x, Sooner).0) <= NodeCount(t)
  {
    if t.Node? {
      if x == t.data {
        PopShrinks(t, Sooner);
      } else if !Sooner(x, t.data) {
        RemoveNeverGrows(t.left, x);
        RemoveNeverGrows(t.right, x);
      }
    }
  }

  // ---------- every system step is progress ----------

  lemma TakeIsProgress(s: State)
    requires LifeInv(s) && Enabled(s, MsgTake)
    ensures LessWork(s, Apply(s, MsgTake))
  {
    var s' := Apply(s, MsgTake);
    match s.log[s.done] {
      case MsgPush(d) =>
        var c := s.delegates[d].c;
        PushGrowsByOne(At(s, c).tree, TimerOf(s, d));
        PushTimerEffect(s, c, TimerOf(s, d));
        TookOne(s, s', c);
      case MsgRemove(d) =>
        var c := s.delegates[d].c;
        RemoveNeverGrows(At(s, c).tree, TimerOf(s, d));
        RemoveTimerEffect(s, c, TimerOf(s, d));
        TookOne(s, s', c);
      case MsgExpire(_) =>
    }
  }

  /** Work after taking a message that changed one heap. */
  lemma TookOne(s: State, s': State, c: Which)
    requires s.done <= |s.log| && Enabled(s, MsgTake) && OnlyHeapChanged(s, s', c, At(s', c).tree)
    requires KernelWeight(s') == KernelWeight(s) && s'.poll == s.poll
    requires NODE * (NodeCount(At(s', c).tree) - NodeCount(At(s, c).tree)) + ARMED + 3 < MsgWeight(s.log[s.done])
    ensures LessWork(s, s')
  {
  }

  lemma PopIsProgress(s: State)
    requires s.done <= |s.log| && Enabled(s, MsgPop)
    ensures LessWork(s, Apply(s, MsgPop))
  {
    var c := s.msg.c;
    var s' := PopNext(s, c, s.msg.at, s.msg.first);
    if At(s, c).tree.Node? {
      PopShrinks(At(s, c).tree, Sooner);
    }
    assert s'.timers == s.timers && s'.log == s.log && s'.poll == s.poll && KernelWeight(s') == KernelWeight(s);
  }

  lemma StopIsProgress(s: State)
    requires LifeInv(s) && Enabled(s, MsgStop)
    ensures LessWork(s, Apply(s, MsgStop))
  {
    var s', l := Apply(s, MsgStop), s.msg.client;
    if s.timers[l].timer.Some? {
      assert TimerOk(l, s.timers[l], s.delegates);
      QueueAppend(s.log, s.done, MsgRemove(s.timers[l].timer.value));
    }
    assert Starting(s'.timers) == Starting(s.timers) && KernelWeight(s') == KernelWeight(s);
  }

  lemma ArmingIsProgress(s: State, step: Step)
    requires s.done <= |s.log| && Enabled(s, step)
    requires step.MsgAddPoll? || step.MsgSetTime?
    ensures LessWork(s, Apply(s, step))
  {
    var s' := Apply(s, step);
    assert s'.timers == s.timers && s'.soft.tree == s.soft.tree && s'.hard.tree == s.hard.tree;
  }

  lemma MsgStepIsProgress(s: State, step: Step)
    requires s.done <= |s.log| && Enabled(s, step)
    requires step.MsgDelete? || step.MsgExpireDelegate? || step.MsgCall?
    ensures LessWork(s, Apply(s, step))
  {
    var s' := Apply(s, step);
    assert Starting(s'.timers) == Starting(s.timers) && KernelWeight(s') == KernelWeight(s);
  }

  lemma AssignIsProgress(s: State, l: nat)
    requires s.done <= |s.log| && Enabled(s, StartAssign(l))
    ensures LessWork(s, Apply(s, StartAssign(l)))
  {
    assert Starting(Apply(s, StartAssign(l)).timers) == Starting(s.timers) - {l};
  }

  lemma PollStepIsProgress(s: State, step: Step)
    requires s.done <= |s.log| && PollOk(s.poll) && Enabled(s, step)
    requires step.PollDisarm? || step.PollRemove? || step.PollSend?
    ensures LessWork(s, Apply(s, step))
  {
    if step.PollSend? {
      QueueAppend(s.log, s.done, MsgExpire(s.poll.events[0]));
    }
  }

  /** Waking up for a timer uses up its armed time. */
  lemma WakeIsProgress(s: State, events: seq<Which>)
    requires s.done <= |s.log| && Enabled(s, PollWake(events))
    ensures LessWork(s, Apply(s, PollWake(events)))
  {
    assert forall c | c in events :: Readable(s, c);
    assert events[0] in events;
    if |events| == 2 {
      assert events[1] in events;
    }
  }

  /** Every step of the system, from whatever good state, leaves less to do. */
  lemma SystemStepIsProgress(s: State, step: Step)
    requires LifeInv(s) && PollOk(s.poll) && Enabled(s, step) && SystemStep(step)
    ensures LessWork(s, Apply(s, step))
  {
    if step.MsgTake? {
      TakeIsProgress(s);
    } else if step.MsgPop? {
      PopIsProgress(s);
    } else if step.MsgStop? {
      StopIsProgress(s);
    } else if step.StartAssign? {
      AssignIsProgress(s, step.l);
    } else if step.PollWake? {
      WakeIsProgress(s, step.events);
    } else if step.PollDisarm? || step.PollRemove? || step.PollSend? {
      PollStepIsProgress(s, step);
    } else if step.MsgAddPoll? || step.MsgSetTime? {
      ArmingIsProgress(s, step);
    } else {
      MsgStepIsProgress(s, step);
    }
  }

  /** No livelock: no run of system steps is longer than the work it starts with. */
  lemma {:induction false} SystemStepsEnd(s: State, steps: seq<Step>, s': State)
    requires LifeInv(s) && WakeInv(s) && AllSystem(steps) && Run(s, steps, s')
    ensures s'.done <= |s'.log| && |steps| <= Work(s) - Work(s')
    decreases |steps|
  {
    if steps != [] {
      SystemStepIsProgress(s, steps[0]);
      StepKeepsLife(s, steps[0]);
      StepKeepsWake(s, steps[0]);
      SystemStepsEnd(Apply(s, steps[0]), steps[1..], s');
    }
  }

  // ---------- and it ends where it should ----------

  /** No deadlock: the threads never wait for each other. */
  lemma SomethingMoves(s: State) returns (step: Step)
    requires LifeInv(s) && WakeInv(s) && !Quiet(s)
    ensures Enabled(s, step) && SystemStep(step)
  {
    step := match s.msg
      case Resting =>
        (match s.poll
         case Blocked => MsgTake
         case Handling(_, Fired) => PollDisarm
         case Handling(_, Disarmed) => PollRemove
         case Handling(_, Unpolled) => PollSend)
      case AddingPoll(_, _, _) => MsgAddPoll
      case SettingTime(_, _, _) => MsgSetTime
      case Deleting(_) => MsgDelete
      case Popping(_, _, _) => MsgPop
      case Expiring(_, _, _) => MsgExpireDelegate
      case Stopping(_, _, l) => if Unlocked(s, l) then MsgStop else StartAssign(l)
      case Calling(_, _, _) => MsgCall;
  }

  lemma SettledIsQuiet(s: State)
    requires LifeInv(s) && WakeInv(s) && Settled(s)
    ensures Quiet(s)
  {
    if !Quiet(s) {
      var step := SomethingMoves(s);
      assert false;
    }
  }

  /** Every good state can settle, and by SystemStepsEnd it must. */
  lemma {:induction false} GoodStateSettles(s: State) returns (steps: seq<Step>, s': State)
    requires LifeInv(s) && WakeInv(s)
    ensures Run(s, steps, s') && AllSystem(steps) && Settled(s')
    decreases Work(s)
  {
    if Settled(s) {
      return [], s;
    }
    var step :| SystemStep(step) && Enabled(s, step);
    SystemStepIsProgress(s, step);
    StepKeepsLife(s, step);
    StepKeepsWake(s, step);
    var rest;
    rest, s' := GoodStateSettles(Apply(s, step));
    RunOne(s, step, rest, s');
    steps := [step] + rest;
  }

  /** A settled service has nothing due: every timer that runs is due later, and its container is polled
      and armed for no later than that. */
  lemma SettledWatchesAll(now: Deadline, steps: seq<Step>, s: State, l: nat)
    requires Run(Init(now), steps, s) && Settled(s) && l in s.timers && s.timers[l].timer.Some?
    ensures s.timers[l].timer.value in s.delegates
    ensures var g := s.delegates[s.timers[l].timer.value];
      && At(s, g.c).polled && At(s, g.c).armed.Some?
      && Instant(s.now) < Instant(At(s, g.c).armed.value) <= Instant(g.due)
  {
    var c, x := RunningIsInHeap(now, steps, s, l);
    SettledHeadIsLater(now, steps, s, c);
    HeadIsSoonest(At(s, c).tree, x);
  }

  lemma RunningIsInHeap(now: Deadline, steps: seq<Step>, s: State, l: nat) returns (c: Which, x: Timer)
    requires Run(Init(now), steps, s) && Settled(s) && l in s.timers && s.timers[l].timer.Some?
    ensures HeapsOk(s) && s.timers[l].timer.value in s.delegates
    ensures c == s.delegates[s.timers[l].timer.value].c && x == TimerOf(s, s.timers[l].timer.value)
    ensures x in Elements(At(s, c).tree)
  {
    ReachableIsGood(now, steps, s);
    SettledIsQuiet(s);
    assert TimerOk(l, s.timers[l], s.delegates);
    var d := s.timers[l].timer.value;
    c, x := s.delegates[d].c, TimerOf(s, d);
    HeapHoldsRunningTimers(now, steps, s, c, x);
  }

  lemma SettledHeadIsLater(now: Deadline, steps: seq<Step>, s: State, c: Which)
    requires Run(Init(now), steps, s) && Settled(s) && At(s, c).tree.Node?
    ensures ArmedAtHead(s, c) && Instant(s.now) < Instant(At(s, c).tree.data.due)
  {
    ReachableIsGood(now, steps, s);
    SettledIsQuiet(s);
    NoLostWakeup(now, steps, s, c);
    assert !Enabled(s, PollWake([c]));
    assert !Readable(s, c);
  }

  lemma HeadIsSoonest(t: Tree<Timer>, x: Timer)
    requires Heap(t, Sooner) && x in Elements(t)
    ensures t.Node? && Instant(t.data.due) <= Instant(x.due)
  {
    SoonerIsWeakOrder();
    TopOutrankedByNone(t, x, Sooner);
  }

  // ---------- due timers ----------

  /** What system steps can do to a LocTimer that no start() is working on: stop it, and count. */
  predicate AtMostStopped(t: LocTimer, t': LocTimer) {
    t.pending.None? ==>
      && t'.pending.None? && t'.starts == t.starts && t'.clientStops == t.clientStops
      && (t'.timer == t.timer || t'.timer.None?)
  }

  lemma SystemStepOnTimer(s: State, step: Step, l: nat)
    requires Enabled(s, step) && SystemStep(step) && l in s.timers
    ensures var s' := Apply(s, step);
      s'.now == s.now && l in s'.timers && AtMostStopped(s.timers[l], s'.timers[l])
  {
  }

  lemma {:induction false} SystemRunOnTimer(s: State, steps: seq<Step>, s': State, l: nat, d: nat)
    requires AllSystem(steps) && Run(s, steps, s') && l in s.timers && d in s.delegates
    ensures s'.now == s.now && l in s'.timers && AtMostStopped(s.timers[l], s'.timers[l])
    ensures d in s'.delegates && s'.delegates[d].due == s.delegates[d].due
    decreases |steps|
  {
    if steps != [] {
      SystemStepOnTimer(s, steps[0], l);
      DueIsFixed(s, steps[0], d);
      SystemRunOnTimer(Apply(s, steps[0]), steps[1..], s', l, d);
    }
  }

  /** Every due timer calls back. However the threads interleave from a reachable state in which the timer
      of l runs and is due: unless a client stops it first, when the service settles that timer has been
      stopped by its expiry exactly once, and every such stop has been followed by its callback. */
  lemma {:induction false} EveryDueTimerCallsBack(now: Deadline, steps: seq<Step>, s: State,
                                                        more: seq<Step>, s': State, l: nat)
    requires Run(Init(now), steps, s) && Run(s, more, s') && AllSystem(more) && Settled(s')
    requires l in s.timers && s.timers[l].timer.Some? && s.timers[l].timer.value in s.delegates
    requires Instant(s.delegates[s.timers[l].timer.value].due) <= Instant(s.now)
    ensures l in s'.timers && s'.timers[l].timer.None?
    ensures s'.timers[l].expiryStops == s.timers[l].expiryStops + 1 == s'.timers[l].callbacks
  {
    var d := s.timers[l].timer.value;
    ReachableIsGood(now, steps, s);
    assert TimerOk(l, s.timers[l], s.delegates);
    SystemRunOnTimer(s, more, s', l, d);
    RunConcat(Init(now), steps, s, more, s');
    if s'.timers[l].timer.Some? {
      SettledWatchesAll(now, steps + more, s', l);
      assert false;
    }
    ReachableIsGood(now, steps + more, s');
    SettledIsQuiet(s');
    AtMostOneOutcomePerStart(now, steps, s, l);
    AtMostOneOutcomePerStart(now, steps + more, s', l);
  }
}
