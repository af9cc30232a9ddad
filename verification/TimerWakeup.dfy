/** No lost wakeup: in every interleaving, a timer waiting in a heap is either what the kernel is
    armed for, or an expiry of its heap is already on its way. */
module TimerWakeup {
  import opened Wrappers
  import opened HeapTree
  import opened TimerClock
  import opened TimerService

  /** The message thread is in the middle of something that ends by arming c again. */
  predicate Busy(m: MsgThread, c: Which) {
    !m.Resting? && !m.Deleting? && m.c == c
  }

  ghost predicate HeapsOk(s: State) {
    Heap(s.soft.tree, Sooner) && Heap(s.hard.tree, Sooner)
  }

  predicate PollOk(p: PollThread) {
    p.Handling? ==> p.events != []
  }

  ghost predicate WakeOk(s: State, c: Which) {
    var k := At(s, c);
    && ((s.msg.AddingPoll? || s.msg.SettingTime?) && s.msg.c == c ==> k.tree.Node? && k.tree.data.due == s.msg.due)
    && (s.msg.SettingTime? && s.msg.c == c ==> k.polled || ExpiryInFlight(s, c))
    && (k.tree.Node? && !Busy(s.msg, c) ==> ArmedAtHead(s, c) || ExpiryInFlight(s, c))
  }

  ghost predicate WakeInv(s: State) {
    HeapsOk(s) && PollOk(s.poll) && s.done <= |s.log| && WakeOk(s, Soft) && WakeOk(s, Hard)
  }

  // ---------- the invariant is kept ----------

  lemma QueuedMonotone(s: State, s': State, m: Msg)
    requires s.done == s'.done && s.log <= s'.log
    ensures Queued(s, m) ==> Queued(s', m)
  {
    if Queued(s, m) {
      var i :| s.done <= i < |s.log| && s.log[i] == m;
      assert s'.log[i] == m;
    }
  }

  lemma QueuedTail(s: State, m: Msg)
    requires s.done < |s.log|
    ensures Queued(s, m) ==> s.log[s.done] == m || Queued(s.(done := s.done + 1), m)
  {
  }

  /** A step that leaves container c and the message thread alone, and only adds messages, keeps c's part. */
  lemma WakeFrame(s: State, s': State, c: Which)
    requires WakeOk(s, c) && At(s', c) == At(s, c)
    requires s'.msg == s.msg && s'.poll == s.poll && s'.done == s.done && s.log <= s'.log
    ensures WakeOk(s', c)
  {
    QueuedMonotone(s, s', MsgExpire(c));
  }

  lemma ClientStepKeepsWake(s: State, step: Step)
    requires WakeInv(s) && Enabled(s, step)
    requires step.Tick? || step.NewTimer? || step.StartCreate? || step.StartAssign? || step.Stop? || step.Destroy?
    ensures WakeInv(Apply(s, step))
  {
    WakeFrame(s, Apply(s, step), Soft);
    WakeFrame(s, Apply(s, step), Hard);
  }

  lemma PollStepKeepsWake(s: State, step: Step)
    requires WakeInv(s) && Enabled(s, step)
    requires step.PollWake? || step.PollDisarm? || step.PollRemove? || step.PollSend?
    ensures WakeInv(Apply(s, step))
  {
    var s' := Apply(s, step);
    QueuedMonotone(s, s', MsgExpire(Soft));
    QueuedMonotone(s, s', MsgExpire(Hard));
    if step.PollSend? {
      assert s'.log[|s.log|] == MsgExpire(s.poll.events[0]);
      assert Queued(s', MsgExpire(s.poll.events[0]));
      assert s.poll.events == [s.poll.events[0]] + s.poll.events[1..];
    }
  }

  lemma ArmingStepKeepsWake(s: State, step: Step)
    requires WakeInv(s) && Enabled(s, step)
    requires step.MsgAddPoll? || step.MsgSetTime? || step.MsgDelete?
      || step.MsgExpireDelegate? || step.MsgStop? || step.MsgCall?
    ensures WakeInv(Apply(s, step))
  {
    var s' := Apply(s, step);
    QueuedMonotone(s, s', MsgExpire(Soft));
    QueuedMonotone(s, s', MsgExpire(Hard));
  }

  lemma PopKeepsHeap(t: Tree<Timer>)
    requires Heap(t, Sooner) && t.Node?
    ensures Heap(Pop(t, Sooner), Sooner)
  {
    SoonerIsWeakOrder();
    PopSizes(t, Sooner);
    PopOrdered(t, Sooner);
  }

  lemma PopStepKeepsWake(s: State)
    requires WakeInv(s) && Enabled(s, MsgPop)
    ensures WakeInv(Apply(s, MsgPop))
  {
    var c, k := s.msg.c, At(s, s.msg.c);
    var s' := PopNext(s, c, s.msg.at, s.msg.first);
    assert s' == Apply(s, MsgPop);
    QueuedMonotone(s, s', MsgExpire(Soft));
    QueuedMonotone(s, s', MsgExpire(Hard));
    if k.tree.Leaf? || (!s.msg.first && OutRanks(s.msg.at, k.tree.data.due)) {
      assert s'.msg == if k.tree.Leaf? then Resting else AddingPoll(c, k.tree.data.due, None);
    } else {
      PopKeepsHeap(k.tree);
      assert Busy(s'.msg, c) && !s'.msg.AddingPoll? && !s'.msg.SettingTime?;
    }
  }

  /** A push arms the kernel exactly when it changes the head. */
  lemma {:induction false} PushArmsNewHead(t: Tree<Timer>, x: Timer)
    requires Heap(t, Sooner)
    ensures var t' := Push(t, x, Sooner);
      && Heap(t', Sooner) && t'.Node?
      && match UpdateSoonest(Top(t), Top(t')) {
           case Keep => Top(t') == Top(t)
           case Arm(due) => due == t'.data.due
           case Disarm => false
         }
  {
    SoonerIsWeakOrder();
    PushCorrect(t, x, Sooner);
  }

  /** A remove of the head arms the kernel for the next one; any other remove leaves the head. */
  lemma RemoveArmsNextHead(t: Tree<Timer>, x: Timer)
    requires Heap(t, Sooner)
    ensures var (t', found) := Remove(t, x, Sooner);
      && Heap(t', Sooner)
      && if Top(t) == (if found then Some(x) else None)
         then UpdateSoonest(None, Top(t')) == if t'.Leaf? then Keep else Arm(t'.data.due)
         else Top(t') == Top(t)
  {
    SoonerIsWeakOrder();
    RemoveCorrect(t, x, Sooner);
    if t.Node? && x == t.data {
      assert Remove(t, x, Sooner).1;
    }
  }

  lemma TakeKeepsWake(s: State)
    requires WakeInv(s) && Enabled(s, MsgTake)
    ensures WakeInv(Apply(s, MsgTake))
  {
    var s1 := s.(done := s.done + 1);
    QueuedTail(s, MsgExpire(Soft));
    QueuedTail(s, MsgExpire(Hard));
    match s.log[s.done] {
      case MsgPush(d) => if d in s.delegates { TakePushKeepsWake(s, d); }
      case MsgRemove(d) => if d in s.delegates { TakeRemoveKeepsWake(s, d); }
      case MsgExpire(c) =>
    }
  }

  lemma TakePushKeepsWake(s: State, d: nat)
    requires WakeInv(s) && Enabled(s, MsgTake) && s.log[s.done] == MsgPush(d) && d in s.delegates
    ensures WakeInv(Apply(s, MsgTake))
  {
    var x, c := TimerOf(s, d), s.delegates[d].c;
    QueuedTail(s, MsgExpire(Soft));
    QueuedTail(s, MsgExpire(Hard));
    PushArmsNewHead(At(s, c).tree, x);
    var s1 := s.(done := s.done + 1);
    assert Apply(s, MsgTake) == PushTimer(s1, c, x);
    QueuedMonotone(s1, PushTimer(s1, c, x), MsgExpire(Soft));
    QueuedMonotone(s1, PushTimer(s1, c, x), MsgExpire(Hard));
  }

  lemma TakeRemoveKeepsWake(s: State, d: nat)
    requires WakeInv(s) && Enabled(s, MsgTake) && s.log[s.done] == MsgRemove(d) && d in s.delegates
    ensures WakeInv(Apply(s, MsgTake))
  {
    var x, c := TimerOf(s, d), s.delegates[d].c;
    QueuedTail(s, MsgExpire(Soft));
    QueuedTail(s, MsgExpire(Hard));
    RemoveArmsNextHead(At(s, c).tree, x);
    var s1 := s.(done := s.done + 1);
    assert Apply(s, MsgTake) == RemoveTimer(s1, c, x);
    QueuedMonotone(s1, RemoveTimer(s1, c, x), MsgExpire(Soft));
    QueuedMonotone(s1, RemoveTimer(s1, c, x), MsgExpire(Hard));
  }

  lemma StepKeepsWake(s: State, step: Step)
    requires WakeInv(s) && Enabled(s, step)
    ensures WakeInv(Apply(s, step))
  {
    match step {
      case MsgTake => TakeKeepsWake(s);
      case MsgPop => PopStepKeepsWake(s);
      case PollWake(_) => PollStepKeepsWake(s, step);
      case PollDisarm => PollStepKeepsWake(s, step);
      case PollRemove => PollStepKeepsWake(s, step);
      case PollSend => PollStepKeepsWake(s, step);
      case MsgAddPoll => ArmingStepKeepsWake(s, step);
      case MsgSetTime => ArmingStepKeepsWake(s, step);
      case MsgDelete => ArmingStepKeepsWake(s, step);
      case MsgExpireDelegate => ArmingStepKeepsWake(s, step);
      case MsgStop => ArmingStepKeepsWake(s, step);
      case MsgCall => ArmingStepKeepsWake(s, step);
      case _ => ClientStepKeepsWake(s, step);
    }
  }

  lemma {:induction false} RunKeepsWake(s: State, steps: seq<Step>, s': State)
    requires WakeInv(s) && Run(s, steps, s')
    ensures WakeInv(s')
    decreases |steps|
  {
    if steps != [] {
      StepKeepsWake(s, steps[0]);
      RunKeepsWake(Apply(s, steps[0]), steps[1..], s');
    }
  }

  /** Whatever the three parties did and in whatever order: when the message thread is at rest, a
      heap that holds a timer is armed at exactly its head, or an expiry of it is in flight. */
  lemma NoLostWakeup(now: Deadline, steps: seq<Step>, s: State, c: Which)
    requires Run(Init(now), steps, s)
    ensures s.msg.Resting? && At(s, c).tree.Node? ==> ArmedAtHead(s, c) || ExpiryInFlight(s, c)
  {
    RunKeepsWake(Init(now), steps, s);
  }

  /** Nothing is happening outside the clients: both threads wait and no message is queued. */
  predicate Quiet(s: State) {
    s.msg.Resting? && s.poll.Blocked? && s.done == |s.log|
  }

  /** The wakeup is not only armed but delivered: once the head of c is due, a quiet service takes
      exactly these steps to pop it, and until it is due the poll thread cannot fire for c. */
  lemma DueHeadIsPopped(now: Deadline, steps: seq<Step>, s: State, c: Which)
    requires Run(Init(now), steps, s) && Quiet(s) && At(s, c).tree.Node?
    ensures Readable(s, c) <==> Instant(At(s, c).tree.data.due) <= Instant(s.now)
    ensures Readable(s, c) ==>
      exists s' ::
        && Run(s, [PollWake([c]), PollDisarm, PollRemove, PollSend] + [MsgTake, MsgPop], s')
        && s'.msg == Expiring(c, s.now, At(s, c).tree.data.id)
        && At(s', c).tree == Pop(At(s, c).tree, Sooner)
  {
    NoLostWakeup(now, steps, s, c);
    if Readable(s, c) {
      var s2 := ReadableIsPopped(s, c);
    }
  }

  lemma ReadableIsPopped(s: State, c: Which) returns (s': State)
    requires Quiet(s) && Readable(s, c) && At(s, c).tree.Node?
    ensures Run(s, [PollWake([c]), PollDisarm, PollRemove, PollSend] + [MsgTake, MsgPop], s')
    ensures s'.msg == Expiring(c, s.now, At(s, c).tree.data.id)
    ensures At(s', c).tree == Pop(At(s, c).tree, Sooner)
    ensures s'.delegates == s.delegates && s'.timers == s.timers
  {
    var s1 := PollDelivers(s, c);
    s' := MessageThreadPops(s1, c);
    RunConcat(s, [PollWake([c]), PollDisarm, PollRemove, PollSend], s1, [MsgTake, MsgPop], s');
  }

  lemma PollDelivers(s: State, c: Which) returns (s': State)
    requires Quiet(s) && Readable(s, c)
    ensures Run(s, [PollWake([c]), PollDisarm, PollRemove, PollSend], s')
    ensures s'.log == s.log + [MsgExpire(c)] && s'.done == s.done && s'.now == s.now
    ensures s'.msg.Resting? && At(s', c) == Container(At(s, c).tree, false, None)
    ensures s'.delegates == s.delegates && s'.timers == s.timers
  {
    s' := PollHandles(s.(poll := Handling([c], Fired)), c);
    RunOne(s, PollWake([c]), [PollDisarm, PollRemove, PollSend], s');
  }

  /** Past epoll_wait the poll thread disarms, unregisters and sends, whatever else is going on. */
  lemma PollHandles(s: State, c: Which) returns (s': State)
    requires s.poll == Handling([c], Fired)
    ensures Run(s, [PollDisarm, PollRemove, PollSend], s')
    ensures s'.log == s.log + [MsgExpire(c)] && s'.done == s.done && s'.now == s.now && s'.msg == s.msg
    ensures At(s', c) == Container(At(s, c).tree, false, None)
    ensures s'.delegates == s.delegates && s'.timers == s.timers
  {
    var s2 := Put(s, c, At(s, c).(armed := None)).(poll := Handling([c], Disarmed));
    var s3 := Put(s2, c, At(s2, c).(polled := false)).(poll := Handling([c], Unpolled));
    s' := s3.(log := s.log + [MsgExpire(c)], poll := Blocked);
    RunOne(s3, PollSend, [], s');
    RunOne(s2, PollRemove, [PollSend], s');
    RunOne(s, PollDisarm, [PollRemove, PollSend], s');
  }

  lemma MessageThreadPops(s: State, c: Which) returns (s': State)
    requires s.msg.Resting? && s.done == |s.log| - 1 && s.log[s.done] == MsgExpire(c) && At(s, c).tree.Node?
    ensures Run(s, [MsgTake, MsgPop], s')
    ensures s'.msg == Expiring(c, s.now, At(s, c).tree.data.id)
    ensures At(s', c).tree == Pop(At(s, c).tree, Sooner)
    ensures s'.delegates == s.delegates && s'.timers == s.timers
  {
    var s1 := Apply(s, MsgTake);
    s' := Apply(s1, MsgPop);
    RunOne(s1, MsgPop, [], s');
    RunOne(s, MsgTake, [MsgPop], s');
  }

  lemma RunOne(s: State, step: Step, rest: seq<Step>, s': State)
    requires Enabled(s, step) && Run(Apply(s, step), rest, s')
    ensures Run(s, [step] + rest, s')
  {
    assert ([step] + rest)[1..] == rest;
  }

  lemma {:induction false} RunConcat(s: State, a: seq<Step>, m: State, b: seq<Step>, s': State)
    requires Run(s, a, m) && Run(m, b, s')
    ensures Run(s, a + b, s')
    decreases |a|
  {
    if a == [] {
      assert a + b == b;
    } else {
      RunConcat(Apply(s, a[0]), a[1..], m, b, s');
      assert (a + b)[1..] == a[1..] + b;
    }
  }
}
