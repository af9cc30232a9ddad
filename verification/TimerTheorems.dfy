/** What every run of the timer service guarantees about its delegates, locks, outcomes and batches. */
module TimerTheorems {
  import opened Wrappers
  import opened HeapTree
  import opened TimerClock
  import opened TimerService
  import opened TimerWakeup
  import opened TimerLifetime

  // ---------- messages ----------

  /** Every delegate sends one push, at most one remove, and the remove after the push. */
  lemma OnePushThenAtMostOneRemove(now: Deadline, steps: seq<Step>, s: State, d: nat)
    requires Run(Init(now), steps, s) && d in s.delegates
    ensures exists p | 0 <= p < |s.log| ::
      && s.log[p] == MsgPush(d)
      && (forall i | 0 <= i < |s.log| && s.log[i] == MsgPush(d) :: i == p)
      && (forall i | 0 <= i < |s.log| && s.log[i] == MsgRemove(d) :: p < i)
    ensures forall i, j | 0 <= i < |s.log| && 0 <= j < |s.log| :: s.log[i] == s.log[j] == MsgRemove(d) ==> i == j
  {
    ReachableIsGood(now, steps, s);
    var g := s.delegates[d];
    assert SentOk(d, g, s.log);
    assert s.log[g.pushAt] == MsgPush(d);
  }

  // ---------- deletion ----------

  /** The delegates whose memory a step reads or writes. */
  ghost function Touched(s: State, step: Step): set<nat>
    requires Enabled(s, step)
  {
    match step
    case Stop(l) => OptionSet(s.timers[l].timer)
    case Destroy(l) => OptionSet(s.timers[l].timer)
    case MsgTake =>
      (match s.log[s.done]
       case MsgPush(d) => {d} + InHeaps(s)
       case MsgRemove(d) => {d} + InHeaps(s)
       case MsgExpire(_) => {})
    case MsgAddPoll => InHeaps(s)
    case MsgDelete => {s.msg.d}
    case MsgPop => InHeaps(s)
    case MsgExpireDelegate => {s.msg.d}
    case MsgStop => if s.msg.client in s.timers then OptionSet(s.timers[s.msg.client].timer) else {}
    case _ => {}
  }

  function OptionSet(o: Option<nat>): set<nat> {
    if o.Some? then {o.value} else {}
  }

  ghost function InHeaps(s: State): set<nat> {
    (set x | x in Elements(s.soft.tree) :: x.id) + (set x | x in Elements(s.hard.tree) :: x.id)
  }

  /** No step ever touches a deleted delegate, and every LocTimer it reaches is still alive. */
  lemma NoUseAfterDelete(now: Deadline, steps: seq<Step>, s: State, step: Step)
    requires Run(Init(now), steps, s) && Enabled(s, step)
    ensures forall d | d in Touched(s, step) :: d in s.delegates && !s.delegates[d].deleted
    ensures step.MsgStop? || step.MsgCall? ==> LiveTimer(s, s.msg.client)
  {
    ReachableIsGood(now, steps, s);
    forall d | d in Touched(s, step) ensures d in s.delegates && !s.delegates[d].deleted {
      if d in InHeaps(s) {
        HeapsHoldLive(s, d);
      } else if step.Stop? || step.Destroy? {
        assert TimerOk(step.l, s.timers[step.l], s.delegates);
        assert DeletedOk(d, s.delegates[d], s.done, s.msg);
      } else if step.MsgStop? {
        assert TimerOk(s.msg.client, s.timers[s.msg.client], s.delegates);
        assert DeletedOk(d, s.delegates[d], s.done, s.msg);
      } else if step.MsgTake? {
        assert DeletedOk(d, s.delegates[d], s.done, s.msg) && SentOk(d, s.delegates[d], s.log);
      } else {
        assert DeletedOk(d, s.delegates[d], s.done, s.msg);
      }
    }
  }

  lemma HeapsHoldLive(s: State, d: nat)
    requires LifeInv(s) && d in InHeaps(s)
    ensures d in s.delegates && !s.delegates[d].deleted
  {
    var x :| (x in Elements(s.soft.tree) || x in Elements(s.hard.tree)) && x.id == d;
    var c := if x in Elements(s.soft.tree) then Soft else Hard;
    assert MayBeInHeap(x, c, s.done, s.delegates);
    assert DeletedOk(d, s.delegates[d], s.done, s.msg);
  }

  /** The message has been sent and taken from the queue. */
  predicate Taken(s: State, m: Msg) {
    exists i | 0 <= i < |s.log| && i < s.done :: s.log[i] == m
  }

  /** A delegate is deleted by the message thread finishing that delegate's own remove message, by
      nothing else, and never twice. */
  lemma DeletedOnceByItsRemove(now: Deadline, steps: seq<Step>, s: State, step: Step, d: nat)
    requires Run(Init(now), steps, s) && Enabled(s, step) && d in s.delegates
    ensures d in Apply(s, step).delegates
    ensures Apply(s, step).delegates[d].deleted <==>
      s.delegates[d].deleted || (step == MsgDelete && s.msg == Deleting(d))
    ensures s.msg == Deleting(d) ==> !s.delegates[d].deleted && Taken(s, MsgRemove(d))
  {
    ReachableIsGood(now, steps, s);
    var g := s.delegates[d];
    assert SentOk(d, g, s.log) && HeldOk(d, g, s.timers) && DeletedOk(d, g, s.done, s.msg);
    OnlyDeleteDeletes(s, step, d);
  }

  lemma OnlyDeleteDeletes(s: State, step: Step, d: nat)
    requires Enabled(s, step) && d in s.delegates && s.delegates[d].owner in s.timers
    ensures d in Apply(s, step).delegates
    ensures Apply(s, step).delegates[d].deleted <==>
      s.delegates[d].deleted || (step == MsgDelete && s.msg == Deleting(d))
  {
  }

  /** When the message thread is at rest, the deleted delegates are exactly those whose remove has been taken. */
  lemma DeletedExactlyWhenRemoved(now: Deadline, steps: seq<Step>, s: State, d: nat)
    requires Run(Init(now), steps, s) && d in s.delegates && s.msg.Resting?
    ensures s.delegates[d].deleted <==> Taken(s, MsgRemove(d))
  {
    ReachableIsGood(now, steps, s);
    assert SentOk(d, s.delegates[d], s.log) && DeletedOk(d, s.delegates[d], s.done, s.msg);
  }

  // ---------- the shared lock ----------

  ghost function LiveOf(delegates: map<nat, Delegate>, l: nat): set<nat> {
    set d | d in delegates && delegates[d].owner == l && !delegates[d].deleted
  }

  /** One reference for the LocTimer while it lives, one for each of its live delegates. */
  ghost predicate LockOk(t: LocTimer, live: set<nat>) {
    t.refs == |live| + (if t.alive then 1 else 0) && (t.lockFreed <==> t.refs == 0)
  }

  ghost predicate LocksOk(s: State) {
    forall l | l in s.timers :: LockOk(s.timers[l], LiveOf(s.delegates, l))
  }

  lemma CreateKeepsLocks(s: State, l: nat, d: nat, due: Deadline, c: Which)
    requires LifeInv(s) && LocksOk(s) && LiveTimer(s, l) && d !in s.delegates
    ensures LocksOk(CreateDelegate(s, l, d, due, c))
  {
    var s' := CreateDelegate(s, l, d, due, c);
    forall l' | l' in s'.timers ensures LockOk(s'.timers[l'], LiveOf(s'.delegates, l')) {
      assert LockOk(s.timers[l'], LiveOf(s.delegates, l'));
      LiveAdded(s.delegates, d, s'.delegates[d], l');
    }
  }

  lemma LiveAdded(delegates: map<nat, Delegate>, d: nat, g: Delegate, l: nat)
    requires d !in delegates && !g.deleted
    ensures LiveOf(delegates[d := g], l) == LiveOf(delegates, l) + if l == g.owner then {d} else {}
    ensures d !in LiveOf(delegates, l)
  {
  }

  lemma LiveRemoved(delegates: map<nat, Delegate>, d: nat, g: Delegate, l: nat)
    requires d in delegates && g == delegates[d].(deleted := true) && !delegates[d].deleted
    ensures LiveOf(delegates[d := g], l) == LiveOf(delegates, l) - {d}
    ensures d in LiveOf(delegates, l) <==> l == g.owner
  {
  }

  lemma StopKeepsLocks(s: State, l: nat, byExpiry: bool)
    requires LifeInv(s) && LocksOk(s) && LiveTimer(s, l) && s.timers[l].timer.Some?
    ensures LocksOk(StopTimer(s, l, byExpiry))
  {
    var s' := StopTimer(s, l, byExpiry);
    assert TimerOk(l, s.timers[l], s.delegates);
    forall l' | l' in s'.timers ensures LockOk(s'.timers[l'], LiveOf(s'.delegates, l')) {
      assert LockOk(s.timers[l'], LiveOf(s.delegates, l'));
      assert LiveOf(s'.delegates, l') == LiveOf(s.delegates, l');
    }
  }

  lemma DeleteKeepsLocks(s: State)
    requires LifeInv(s) && LocksOk(s) && Enabled(s, MsgDelete)
    ensures LocksOk(Apply(s, MsgDelete))
  {
    var s', d := Apply(s, MsgDelete), s.msg.d;
    var g := s.delegates[d];
    assert HeldOk(d, g, s.timers) && DeletedOk(d, g, s.done, s.msg);
    forall l | l in s'.timers ensures LockOk(s'.timers[l], LiveOf(s'.delegates, l)) {
      assert LockOk(s.timers[l], LiveOf(s.delegates, l));
      LiveRemoved(s.delegates, d, s'.delegates[d], l);
    }
  }

  lemma NewTimerKeepsLocks(s: State, l: nat)
    requires LifeInv(s) && LocksOk(s) && Enabled(s, NewTimer(l))
    ensures LocksOk(Apply(s, NewTimer(l)))
  {
    var s' := Apply(s, NewTimer(l));
    assert LiveOf(s.delegates, l) == {} by {
      forall d | d in s.delegates ensures s.delegates[d].owner != l {
        assert HeldOk(d, s.delegates[d], s.timers);
      }
    }
    forall l' | l' in s'.timers ensures LockOk(s'.timers[l'], LiveOf(s'.delegates, l')) {
      assert l' != l ==> LockOk(s.timers[l'], LiveOf(s.delegates, l'));
    }
  }

  lemma DropKeepsLocks(s: State, l: nat)
    requires LocksOk(s) && LiveTimer(s, l)
    ensures LocksOk(DropTimer(s, l))
  {
    forall l' | l' in s.timers ensures LockOk(DropTimer(s, l).timers[l'], LiveOf(s.delegates, l')) {
      assert LockOk(s.timers[l'], LiveOf(s.delegates, l'));
    }
  }

  lemma StepKeepsLocks(s: State, step: Step)
    requires LifeInv(s) && LocksOk(s) && Enabled(s, step)
    ensures LocksOk(Apply(s, step))
  {
    match step {
      case NewTimer(l) => NewTimerKeepsLocks(s, l);
      case StartCreate(l, d, ms, c) => CreateKeepsLocks(s, l, d, FutureTime(s.now, ms), c);
      case Stop(l) => if s.timers[l].timer.Some? { StopKeepsLocks(s, l, false); }
      case Destroy(l) =>
        if s.timers[l].timer.Some? {
          StopKeepsLocks(s, l, false);
          DropKeepsLocks(StopTimer(s, l, false), l);
        } else {
          DropKeepsLocks(s, l);
        }
      case MsgDelete => DeleteKeepsLocks(s);
      case MsgStop =>
        if s.timers[s.msg.client].timer.Some? { StopKeepsLocks(s, s.msg.client, true); }
      case _ => OtherStepKeepsLocks(s, step);
    }
  }

  lemma OtherStepKeepsLocks(s: State, step: Step)
    requires LocksOk(s) && Enabled(s, step)
    requires !step.NewTimer? && !step.StartCreate? && !step.Stop? && !step.Destroy?
    requires !step.MsgDelete? && !step.MsgStop?
    ensures LocksOk(Apply(s, step))
  {
    var s' := Apply(s, step);
    assert s'.delegates == s.delegates;
    forall l | l in s'.timers ensures LockOk(s'.timers[l], LiveOf(s.delegates, l)) {
      assert LockOk(s.timers[l], LiveOf(s.delegates, l));
    }
  }

  /** In every run the lock's count is exact, so it is freed exactly when its last user is gone. */
  lemma LockCountExact(now: Deadline, steps: seq<Step>, s: State, l: nat)
    requires Run(Init(now), steps, s) && l in s.timers
    ensures s.timers[l].refs == |LiveOf(s.delegates, l)| + (if s.timers[l].alive then 1 else 0)
    ensures s.timers[l].lockFreed <==> !s.timers[l].alive && LiveOf(s.delegates, l) == {}
  {
    RunKeepsLocks(Init(now), steps, s);
    assert LockOk(s.timers[l], LiveOf(s.delegates, l));
  }

  lemma {:induction false} RunKeepsLocks(s: State, steps: seq<Step>, s': State)
    requires LifeInv(s) && WakeInv(s) && LocksOk(s) && Run(s, steps, s')
    ensures LocksOk(s')
    decreases |steps|
  {
    if steps != [] {
      StepKeepsLife(s, steps[0]);
      StepKeepsWake(s, steps[0]);
      StepKeepsLocks(s, steps[0]);
      RunKeepsLocks(Apply(s, steps[0]), steps[1..], s');
    }
  }

  // ---------- outcomes ----------

  /** Starts and stops balance, and every stop made by an expiry makes one callback. */
  predicate OutcomeOk(l: nat, t: LocTimer, m: MsgThread) {
    && t.starts - t.clientStops - t.expiryStops == (if t.timer.Some? then 1 else 0)
    && t.expiryStops - t.callbacks == (if m.Calling? && m.client == l then 1 else 0)
  }

  ghost predicate OutcomesOk(s: State) {
    forall l | l in s.timers :: OutcomeOk(l, s.timers[l], s.msg)
  }

  lemma StepKeepsOutcomes(s: State, step: Step)
    requires LifeInv(s) && OutcomesOk(s) && Enabled(s, step)
    ensures OutcomesOk(Apply(s, step))
  {
    if step.StartAssign? || step.Stop? || step.Destroy? || step.MsgStop? || step.MsgCall? {
      CountingStepKeepsOutcomes(s, step);
    } else if step.NewTimer? || step.StartCreate? {
      var s' := Apply(s, step);
      forall l | l in s'.timers ensures OutcomeOk(l, s'.timers[l], s'.msg) {
        assert l in s.timers ==> OutcomeOk(l, s.timers[l], s.msg);
      }
    } else {
      OtherStepKeepsOutcomes(s, step);
    }
  }

  lemma OtherStepKeepsOutcomes(s: State, step: Step)
    requires OutcomesOk(s) && Enabled(s, step)
    requires !step.StartAssign? && !step.Stop? && !step.Destroy? && !step.MsgStop? && !step.MsgCall?
    requires !step.NewTimer? && !step.StartCreate?
    ensures OutcomesOk(Apply(s, step))
  {
    var s' := Apply(s, step);
    assert s.msg.Calling? || s'.msg.Calling? ==> s'.msg == s.msg;
    assert !step.MsgDelete? ==> s'.timers == s.timers;
    forall l | l in s'.timers ensures OutcomeOk(l, s'.timers[l], s'.msg) {
      assert OutcomeOk(l, s.timers[l], s.msg);
    }
  }

  lemma CountingStepKeepsOutcomes(s: State, step: Step)
    requires LifeInv(s) && OutcomesOk(s) && Enabled(s, step)
    requires step.StartAssign? || step.Stop? || step.Destroy? || step.MsgStop? || step.MsgCall?
    ensures OutcomesOk(Apply(s, step))
  {
    var s' := Apply(s, step);
    forall l | l in s'.timers ensures OutcomeOk(l, s'.timers[l], s'.msg) {
      assert OutcomeOk(l, s.timers[l], s.msg) && TimerOk(l, s.timers[l], s.delegates);
    }
  }

  lemma {:induction false} RunKeepsOutcomes(s: State, steps: seq<Step>, s': State)
    requires LifeInv(s) && WakeInv(s) && OutcomesOk(s) && Run(s, steps, s')
    ensures OutcomesOk(s')
    decreases |steps|
  {
    if steps != [] {
      StepKeepsLife(s, steps[0]);
      StepKeepsWake(s, steps[0]);
      StepKeepsOutcomes(s, steps[0]);
      RunKeepsOutcomes(Apply(s, steps[0]), steps[1..], s');
    }
  }

  /** At most one outcome per start: starts exceed successful stops (by clients or by expiry) by one
      exactly while the timer runs, so callbacks and client stops together never exceed starts. */
  lemma AtMostOneOutcomePerStart(now: Deadline, steps: seq<Step>, s: State, l: nat)
    requires Run(Init(now), steps, s) && l in s.timers
    ensures var t := s.timers[l];
      && t.starts - (t.clientStops + t.expiryStops) == (if t.timer.Some? then 1 else 0)
      && t.callbacks + t.clientStops <= t.starts
      && (!s.msg.Calling? ==> t.callbacks == t.expiryStops)
  {
    RunKeepsOutcomes(Init(now), steps, s);
    assert OutcomeOk(l, s.timers[l], s.msg);
  }

  // ---------- one expiry message ----------

  /** The message thread is inside the loop of one MsgTimerExpire for c. */
  predicate InLoop(m: MsgThread, c: Which, at: Deadline) {
    (m.Popping? || m.Expiring? || m.Stopping? || m.Calling?) && m.c == c && m.at == at
  }

  /** The steps run inside that loop, and the last of them leaves it. */
  ghost predicate LoopRun(s: State, steps: seq<Step>, s': State, c: Which, at: Deadline)
    decreases |steps|
  {
    if InLoop(s.msg, c, at)
    then steps != [] && Enabled(s, steps[0]) && LoopRun(Apply(s, steps[0]), steps[1..], s', c, at)
    else steps == [] && s' == s
  }

  /** The timers the loop pops. */
  ghost function PoppedBy(s: State, steps: seq<Step>, c: Which): seq<Timer>
    decreases |steps|
  {
    if steps == [] || !Enabled(s, steps[0]) then []
    else
      var s1 := Apply(s, steps[0]);
      var here := if steps[0] == MsgPop && s1.msg.Expiring? && At(s, c).tree.Node? then [At(s, c).tree.data] else [];
      here + PoppedBy(s1, steps[1..], c)
  }

  /** Inside the loop only a pop step moves the heap of c, and only an ending pop leaves the loop. */
  lemma LoopStep(s: State, step: Step, c: Which, at: Deadline)
    requires InLoop(s.msg, c, at) && Enabled(s, step)
    ensures var s1, t := Apply(s, step), At(s, c).tree;
      if step != MsgPop then
        && InLoop(s1.msg, c, at) && At(s1, c).tree == t
        && ((s1.msg.Popping? && s1.msg.first) <==> (s.msg.Popping? && s.msg.first))
      else if t.Leaf? || (!s.msg.first && OutRanks(at, t.data.due)) then
        !InLoop(s1.msg, c, at) && !s1.msg.Expiring? && At(s1, c).tree == t
      else
        s1.msg == Expiring(c, at, t.data.id) && At(s1, c).tree == Pop(t, Sooner)
  {
  }

  /** Whatever clients and the poll thread do meanwhile, one expiry message pops exactly the batch:
      the head, then every timer due at or before the time it read, soonest first. */
  lemma {:induction false} OneMessagePopsTheBatch(s: State, steps: seq<Step>, s': State, c: Which, at: Deadline)
    requires LoopRun(s, steps, s', c, at) && InLoop(s.msg, c, at)
    ensures
      var (batch, rest) :=
        if s.msg.Popping? && s.msg.first then ExpireBatch(At(s, c).tree, at) else DueBatch(At(s, c).tree, at);
      PoppedBy(s, steps, c) == batch && At(s', c).tree == rest
    decreases |steps|
  {
    var s1 := Apply(s, steps[0]);
    LoopStep(s, steps[0], c, at);
    if InLoop(s1.msg, c, at) {
      OneMessagePopsTheBatch(s1, steps[1..], s', c, at);
    } else {
      assert steps[1..] == [] && PoppedBy(s1, steps[1..], c) == [];
    }
  }
}
