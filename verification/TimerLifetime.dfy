/** Who owns a delegate when: over every run, each delegate is pushed once, removed at most once
    and after its push, deleted exactly by its remove message, and never touched afterwards. */
module TimerLifetime {
  import opened Wrappers
  import opened HeapTree
  import opened TimerClock
  import opened TimerService
  import opened TimerWakeup

  /** The delegate whose remove message the message thread is working on. */
  function Removing(m: MsgThread): Option<nat> {
    match m
    case AddingPoll(_, _, after) => after
    case SettingTime(_, _, after) => after
    case Deleting(d) => Some(d)
    case _ => None
  }

  /** The remove message of this delegate has been taken from the queue. */
  predicate RemoveTaken(g: Delegate, done: nat) {
    g.removeAt.Some? && g.removeAt.value < done
  }

  /** Every message in the log is the one its delegate remembers sending. */
  ghost predicate LogOk(log: seq<Msg>, delegates: map<nat, Delegate>) {
    forall i {:trigger log[i]} | 0 <= i < |log| ::
      match log[i]
      case MsgPush(d) => d in delegates && delegates[d].pushAt == i
      case MsgRemove(d) => d in delegates && delegates[d].removeAt == Some(i)
      case MsgExpire(_) => true
  }

  predicate SentOk(d: nat, g: Delegate, log: seq<Msg>) {
    && g.pushAt < |log| && log[g.pushAt] == MsgPush(d)
    && (g.removeAt.Some? ==> g.pushAt < g.removeAt.value < |log| && log[g.removeAt.value] == MsgRemove(d))
    && g.client == (if g.removeAt.Some? then None else Some(g.owner))
  }

  predicate Holds(t: LocTimer, d: nat) {
    t.timer == Some(d) || t.pending == Some(d)
  }

  /** As long as its remove is not posted, a delegate is held by the LocTimer that started it. */
  predicate HeldOk(d: nat, g: Delegate, timers: map<nat, LocTimer>) {
    g.owner in timers && (g.removeAt.None? ==> Holds(timers[g.owner], d))
  }

  predicate DeletedOk(d: nat, g: Delegate, done: nat, m: MsgThread) {
    g.deleted <==> RemoveTaken(g, done) && Removing(m) != Some(d)
  }

  ghost predicate DelegatesOk(s: State) {
    forall d | d in s.delegates ::
      && SentOk(d, s.delegates[d], s.log)
      && HeldOk(d, s.delegates[d], s.timers)
      && DeletedOk(d, s.delegates[d], s.done, s.msg)
  }

  /** A LocTimer holds only a delegate of its own whose remove is not posted, and only while it lives. */
  predicate PointerOk(l: nat, t: LocTimer, pointer: Option<nat>, delegates: map<nat, Delegate>) {
    pointer.Some? ==>
      && t.alive && pointer.value in delegates
      && delegates[pointer.value].owner == l && delegates[pointer.value].removeAt.None?
  }

  predicate TimerOk(l: nat, t: LocTimer, delegates: map<nat, Delegate>) {
    && (t.timer.Some? ==> t.pending.None?)
    && PointerOk(l, t, t.timer, delegates)
    && PointerOk(l, t, t.pending, delegates)
  }

  ghost predicate TimersOk(timers: map<nat, LocTimer>, delegates: map<nat, Delegate>) {
    forall l | l in timers :: TimerOk(l, timers[l], delegates)
  }

  /** A delegate may be in the heap of its container between its push and its remove. */
  predicate MayBeInHeap(x: Timer, c: Which, done: nat, delegates: map<nat, Delegate>) {
    && x.id in delegates
    && x.due == delegates[x.id].due && c == delegates[x.id].c
    && delegates[x.id].pushAt < done && !RemoveTaken(delegates[x.id], done)
  }

  ghost predicate HeapOk(tree: Tree<Timer>, c: Which, done: nat, delegates: map<nat, Delegate>) {
    forall x | x in Elements(tree) :: Elements(tree)[x] == 1 && MayBeInHeap(x, c, done, delegates)
  }

  predicate MsgOk(m: MsgThread, done: nat, timers: map<nat, LocTimer>, delegates: map<nat, Delegate>) {
    match m
    case AddingPoll(_, _, Some(d)) => d in delegates && RemoveTaken(delegates[d], done)
    case SettingTime(_, _, Some(d)) => d in delegates && RemoveTaken(delegates[d], done)
    case Deleting(d) => d in delegates && RemoveTaken(delegates[d], done)
    case Expiring(_, _, d) => d in delegates && delegates[d].pushAt < done && !RemoveTaken(delegates[d], done)
    case Stopping(_, _, l) => l in timers && timers[l].alive
    case Calling(_, _, l) => l in timers && timers[l].alive
    case _ => true
  }

  ghost predicate LifeInv(s: State) {
    && s.done <= |s.log|
    && LogOk(s.log, s.delegates)
    && DelegatesOk(s)
    && TimersOk(s.timers, s.delegates)
    && HeapOk(s.soft.tree, Soft, s.done, s.delegates)
    && HeapOk(s.hard.tree, Hard, s.done, s.delegates)
    && MsgOk(s.msg, s.done, s.timers, s.delegates)
  }

  // ---------- the invariant is kept ----------

  lemma KernelStepKeepsLife(s: State, step: Step)
    requires LifeInv(s) && Enabled(s, step)
    requires step.Tick? || step.PollWake? || step.PollDisarm? || step.PollRemove?
    ensures LifeInv(Apply(s, step))
  {
    var s' := Apply(s, step);
    assert s'.soft.tree == s.soft.tree && s'.hard.tree == s.hard.tree;
  }

  lemma ArmStepKeepsLife(s: State, step: Step)
    requires LifeInv(s) && Enabled(s, step)
    requires step.MsgAddPoll? || step.MsgSetTime?
    ensures LifeInv(Apply(s, step))
  {
    var s' := Apply(s, step);
    assert s'.soft.tree == s.soft.tree && s'.hard.tree == s.hard.tree;
    assert Removing(s'.msg) == Removing(s.msg);
  }

  lemma ReadStepKeepsLife(s: State)
    requires LifeInv(s) && Enabled(s, MsgExpireDelegate)
    ensures LifeInv(Apply(s, MsgExpireDelegate))
  {
    var g := s.delegates[s.msg.d];
    assert SentOk(s.msg.d, g, s.log) && HeldOk(s.msg.d, g, s.timers);
    assert g.client.Some? ==> TimerOk(g.owner, s.timers[g.owner], s.delegates);
  }

  /** Steps that touch one LocTimer without changing what it holds. */
  lemma TimerStepKeepsLife(s: State, step: Step)
    requires LifeInv(s) && Enabled(s, step)
    requires step.NewTimer? || step.StartAssign? || step.MsgCall?
    ensures LifeInv(Apply(s, step))
  {
    var s' := Apply(s, step);
    assert s'.delegates == s.delegates && s'.log == s.log && s'.done == s.done;
    forall d | d in s.delegates
      ensures HeldOk(d, s.delegates[d], s'.timers) && DeletedOk(d, s.delegates[d], s'.done, s'.msg)
    {
      assert HeldOk(d, s.delegates[d], s.timers) && DeletedOk(d, s.delegates[d], s.done, s.msg);
    }
  }

  lemma PollSendKeepsLife(s: State)
    requires LifeInv(s) && Enabled(s, PollSend)
    ensures LifeInv(Apply(s, PollSend))
  {
  }

  /** Posting d's message and recording where keeps the log right. */
  lemma PostedLogOk(log: seq<Msg>, delegates: map<nat, Delegate>, m: Msg, d: nat, g: Delegate)
    requires LogOk(log, delegates)
    requires (m == MsgPush(d) && d !in delegates && g.pushAt == |log|)
          || (m == MsgRemove(d) && d in delegates && g.pushAt == delegates[d].pushAt
              && delegates[d].removeAt.None? && g.removeAt == Some(|log|))
    ensures LogOk(log + [m], delegates[d := g])
  {
    var log', delegates' := log + [m], delegates[d := g];
    forall i | 0 <= i < |log'|
      ensures match log'[i]
              case MsgPush(e) => e in delegates' && delegates'[e].pushAt == i
              case MsgRemove(e) => e in delegates' && delegates'[e].removeAt == Some(i)
              case MsgExpire(_) => true
    {
      assert i < |log| ==> log'[i] == log[i];
    }
  }

  /** A heap does not notice a delegate that it does not hold, nor a remove that is still queued. */
  lemma HeapOkExtends(t: Tree<Timer>, c: Which, done: nat, delegates: map<nat, Delegate>, d: nat, g: Delegate)
    requires HeapOk(t, c, done, delegates)
    requires d in delegates ==>
      g.due == delegates[d].due && g.c == delegates[d].c && g.pushAt == delegates[d].pushAt
      && (RemoveTaken(g, done) ==> RemoveTaken(delegates[d], done))
    ensures HeapOk(t, c, done, delegates[d := g])
  {
    forall x | x in Elements(t) ensures MayBeInHeap(x, c, done, delegates[d := g]) {
      assert MayBeInHeap(x, c, done, delegates);
    }
  }

  lemma CreateKeepsLife(s: State, l: nat, d: nat, due: Deadline, c: Which)
    requires LifeInv(s) && LiveTimer(s, l) && Unlocked(s, l) && s.timers[l].timer.None? && d !in s.delegates
    ensures LifeInv(CreateDelegate(s, l, d, due, c))
  {
    var s' := CreateDelegate(s, l, d, due, c);
    var g := s'.delegates[d];
    PostedLogOk(s.log, s.delegates, MsgPush(d), d, g);
    HeapOkExtends(s.soft.tree, Soft, s.done, s.delegates, d, g);
    HeapOkExtends(s.hard.tree, Hard, s.done, s.delegates, d, g);
    forall l' | l' in s'.timers ensures TimerOk(l', s'.timers[l'], s'.delegates) {
      assert TimerOk(l', s.timers[l'], s.delegates);
    }
    forall d' | d' in s'.delegates
      ensures SentOk(d', s'.delegates[d'], s'.log) && HeldOk(d', s'.delegates[d'], s'.timers)
      ensures DeletedOk(d', s'.delegates[d'], s'.done, s'.msg)
    {
      assert d' in s.delegates ==>
        && SentOk(d', s.delegates[d'], s.log) && HeldOk(d', s.delegates[d'], s.timers)
        && DeletedOk(d', s.delegates[d'], s.done, s.msg);
    }
  }

  lemma StopKeepsLife(s: State, l: nat, byExpiry: bool)
    requires LifeInv(s) && LiveTimer(s, l) && s.timers[l].timer.Some?
    ensures LifeInv(StopTimer(s, l, byExpiry))
  {
    var s' := StopTimer(s, l, byExpiry);
    var d := s.timers[l].timer.value;
    assert TimerOk(l, s.timers[l], s.delegates) && SentOk(d, s.delegates[d], s.log);
    var g := s'.delegates[d];
    PostedLogOk(s.log, s.delegates, MsgRemove(d), d, g);
    HeapOkExtends(s.soft.tree, Soft, s.done, s.delegates, d, g);
    HeapOkExtends(s.hard.tree, Hard, s.done, s.delegates, d, g);
    StopKeepsTimers(s, l, byExpiry);
    StopKeepsDelegates(s, l, byExpiry);
  }

  lemma StopKeepsTimers(s: State, l: nat, byExpiry: bool)
    requires LifeInv(s) && LiveTimer(s, l) && s.timers[l].timer.Some?
    ensures var s' := StopTimer(s, l, byExpiry); TimersOk(s'.timers, s'.delegates)
  {
    var s' := StopTimer(s, l, byExpiry);
    assert TimerOk(l, s.timers[l], s.delegates);
    forall l' | l' in s'.timers ensures TimerOk(l', s'.timers[l'], s'.delegates) {
      assert TimerOk(l', s.timers[l'], s.delegates);
    }
  }

  lemma StopKeepsDelegates(s: State, l: nat, byExpiry: bool)
    requires LifeInv(s) && LiveTimer(s, l) && s.timers[l].timer.Some?
    ensures DelegatesOk(StopTimer(s, l, byExpiry))
  {
    var s' := StopTimer(s, l, byExpiry);
    assert TimerOk(l, s.timers[l], s.delegates);
    forall d | d in s'.delegates
      ensures SentOk(d, s'.delegates[d], s'.log) && HeldOk(d, s'.delegates[d], s'.timers)
      ensures DeletedOk(d, s'.delegates[d], s'.done, s'.msg)
    {
      assert SentOk(d, s.delegates[d], s.log) && HeldOk(d, s.delegates[d], s.timers);
      assert DeletedOk(d, s.delegates[d], s.done, s.msg);
    }
  }

  lemma DropKeepsLife(s: State, l: nat)
    requires LifeInv(s) && LiveTimer(s, l) && s.timers[l].timer.None? && s.timers[l].pending.None?
    requires !((s.msg.Stopping? || s.msg.Calling?) && s.msg.client == l)
    ensures LifeInv(DropTimer(s, l))
  {
  }

  lemma DeleteKeepsLife(s: State)
    requires LifeInv(s) && Enabled(s, MsgDelete)
    ensures LifeInv(Apply(s, MsgDelete))
  {
    var s' := Apply(s, MsgDelete);
    var d := s.msg.d;
    assert HeldOk(d, s.delegates[d], s.timers);
    HeapOkExtends(s.soft.tree, Soft, s.done, s.delegates, d, s'.delegates[d]);
    HeapOkExtends(s.hard.tree, Hard, s.done, s.delegates, d, s'.delegates[d]);
    forall d' | d' in s.delegates
      ensures SentOk(d', s'.delegates[d'], s'.log) && HeldOk(d', s'.delegates[d'], s'.timers)
      ensures DeletedOk(d', s'.delegates[d'], s'.done, s'.msg)
    {
      assert SentOk(d', s.delegates[d'], s.log) && HeldOk(d', s.delegates[d'], s.timers);
      assert DeletedOk(d', s.delegates[d'], s.done, s.msg);
    }
    forall l | l in s'.timers ensures TimerOk(l, s'.timers[l], s'.delegates) {
      assert TimerOk(l, s.timers[l], s.delegates);
    }
  }

  // ---------- heaps ----------

  lemma HeapOkShrinks(t: Tree<Timer>, t': Tree<Timer>, c: Which, done: nat, delegates: map<nat, Delegate>)
    requires HeapOk(t, c, done, delegates) && Elements(t') <= Elements(t)
    ensures HeapOk(t', c, done, delegates)
  {
    forall x | x in Elements(t')
      ensures Elements(t')[x] == 1 && MayBeInHeap(x, c, done, delegates)
    {
      assert x in Elements(t);
    }
  }

  lemma PushHeapOk(t: Tree<Timer>, x: Timer, c: Which, done: nat, delegates: map<nat, Delegate>)
    requires HeapOk(t, c, done, delegates) && MayBeInHeap(x, c, done, delegates) && x !in Elements(t)
    ensures HeapOk(Push(t, x, Sooner), c, done, delegates)
  {
    PushElements(t, x, Sooner);
  }

  lemma RemoveHeapOk(t: Tree<Timer>, x: Timer, c: Which, done: nat, delegates: map<nat, Delegate>)
    requires Heap(t, Sooner) && HeapOk(t, c, done, delegates)
    ensures HeapOk(Remove(t, x, Sooner).0, c, done, delegates) && x !in Elements(Remove(t, x, Sooner).0)
  {
    SoonerIsWeakOrder();
    RemoveElements(t, x, Sooner);
    HeapOkShrinks(t, Remove(t, x, Sooner).0, c, done, delegates);
  }

  lemma PopHeapOk(t: Tree<Timer>, c: Which, done: nat, delegates: map<nat, Delegate>)
    requires t.Node? && HeapOk(t, c, done, delegates)
    ensures HeapOk(Pop(t, Sooner), c, done, delegates) && MayBeInHeap(t.data, c, done, delegates)
  {
    PopElements(t, Sooner);
    assert t.data in Elements(t);
    HeapOkShrinks(t, Pop(t, Sooner), c, done, delegates);
  }

  /** Taking one more message harms a heap only if it still holds the delegate to be removed. */
  lemma AdvanceHeap(tree: Tree<Timer>, c: Which, done: nat, log: seq<Msg>, delegates: map<nat, Delegate>)
    requires done < |log| && HeapOk(tree, c, done, delegates)
    requires forall d | d in delegates :: SentOk(d, delegates[d], log)
    requires log[done].MsgRemove? ==> forall x | x in Elements(tree) :: x.id != log[done].d
    ensures HeapOk(tree, c, done + 1, delegates)
  {
    forall x | x in Elements(tree) ensures MayBeInHeap(x, c, done + 1, delegates) {
      assert MayBeInHeap(x, c, done, delegates) && SentOk(x.id, delegates[x.id], log);
    }
  }

  lemma PopKeepsLife(s: State)
    requires LifeInv(s) && Enabled(s, MsgPop)
    ensures LifeInv(Apply(s, MsgPop))
  {
    var c, t := s.msg.c, At(s, s.msg.c).tree;
    var s' := PopNext(s, c, s.msg.at, s.msg.first);
    assert Removing(s'.msg) == Removing(s.msg);
    assert DelegatesOk(s');
    if t.Leaf? || (!s.msg.first && OutRanks(s.msg.at, t.data.due)) {
      assert s'.soft == s.soft && s'.hard == s.hard;
    } else {
      PopHeapOk(t, c, s.done, s.delegates);
      assert At(s', c).tree == Pop(t, Sooner);
    }
  }

  // ---------- taking a message ----------

  lemma AdvanceDelegates(s: State, s': State)
    requires LifeInv(s) && s.msg.Resting? && s.done < |s.log|
    requires s'.log == s.log && s'.done == s.done + 1 && s'.delegates == s.delegates && s'.timers == s.timers
    requires Removing(s'.msg) == if s.log[s.done].MsgRemove? then Some(s.log[s.done].d) else None
    ensures DelegatesOk(s')
  {
    forall d | d in s.delegates
      ensures SentOk(d, s.delegates[d], s'.log) && HeldOk(d, s.delegates[d], s'.timers)
      ensures DeletedOk(d, s.delegates[d], s'.done, s'.msg)
    {
      assert SentOk(d, s.delegates[d], s.log) && HeldOk(d, s.delegates[d], s.timers);
      assert DeletedOk(d, s.delegates[d], s.done, s.msg);
    }
  }

  function Other(c: Which): Which {
    if c.Soft? then Hard else Soft
  }

  /** What taking a push or remove message changes: one heap, the position in the log, and where
      the message thread is. */
  predicate OnlyHeapChanged(s: State, s': State, c: Which, t: Tree<Timer>) {
    && s'.log == s.log && s'.delegates == s.delegates && s'.timers == s.timers && s'.done == s.done + 1
    && At(s', c).tree == t && At(s', Other(c)).tree == At(s, Other(c)).tree
    && (s'.msg.Resting? || s'.msg.AddingPoll? || s'.msg.Deleting?)
  }

  lemma HeapChangeKeepsLife(s: State, s': State, c: Which, t: Tree<Timer>)
    requires LifeInv(s) && Enabled(s, MsgTake) && OnlyHeapChanged(s, s', c, t)
    requires HeapOk(t, c, s'.done, s.delegates) && HeapOk(At(s, Other(c)).tree, Other(c), s'.done, s.delegates)
    requires Removing(s'.msg) == if s.log[s.done].MsgRemove? then Some(s.log[s.done].d) else None
    ensures LifeInv(s')
  {
    AdvanceDelegates(s, s');
  }

  /** After d's push is taken both heaps are fine. */
  lemma PushedHeapsOk(s: State, d: nat)
    requires LifeInv(s) && Enabled(s, MsgTake) && s.log[s.done] == MsgPush(d)
    ensures d in s.delegates
    ensures var c := s.delegates[d].c;
      && HeapOk(Push(At(s, c).tree, TimerOf(s, d), Sooner), c, s.done + 1, s.delegates)
      && HeapOk(At(s, Other(c)).tree, Other(c), s.done + 1, s.delegates)
  {
    var g, x := s.delegates[d], TimerOf(s, d);
    var t := At(s, g.c).tree;
    NotYetInHeap(t, x, g.c, s.done, s.delegates);
    AdvanceHeap(t, g.c, s.done, s.log, s.delegates);
    AdvanceHeap(At(s, Other(g.c)).tree, Other(g.c), s.done, s.log, s.delegates);
    assert SentOk(d, g, s.log);
    PushHeapOk(t, x, g.c, s.done + 1, s.delegates);
  }

  lemma NotYetInHeap(t: Tree<Timer>, x: Timer, c: Which, done: nat, delegates: map<nat, Delegate>)
    requires HeapOk(t, c, done, delegates) && x.id in delegates && delegates[x.id].pushAt >= done
    ensures x !in Elements(t)
  {
    assert x in Elements(t) ==> MayBeInHeap(x, c, done, delegates);
  }

  lemma PushTimerEffect(s: State, c: Which, x: Timer)
    ensures var s' := PushTimer(s.(done := s.done + 1), c, x);
      && OnlyHeapChanged(s, s', c, Push(At(s, c).tree, x, Sooner))
      && Removing(s'.msg) == None
  {
  }

  lemma RemoveTimerEffect(s: State, c: Which, x: Timer)
    ensures var s' := RemoveTimer(s.(done := s.done + 1), c, x);
      && OnlyHeapChanged(s, s', c, Remove(At(s, c).tree, x, Sooner).0)
      && Removing(s'.msg) == Some(x.id)
  {
  }

  /** After d's remove is taken both heaps are fine, and neither holds d. */
  lemma RemovedHeapsOk(s: State, d: nat)
    requires LifeInv(s) && HeapsOk(s) && Enabled(s, MsgTake) && s.log[s.done] == MsgRemove(d)
    ensures d in s.delegates
    ensures var c := s.delegates[d].c;
      && HeapOk(Remove(At(s, c).tree, TimerOf(s, d), Sooner).0, c, s.done + 1, s.delegates)
      && HeapOk(At(s, Other(c)).tree, Other(c), s.done + 1, s.delegates)
  {
    var c := s.delegates[d].c;
    RemoveHeapOk(At(s, c).tree, TimerOf(s, d), c, s.done, s.delegates);
    AdvancePastRemove(Remove(At(s, c).tree, TimerOf(s, d), Sooner).0, d, c, s);
    AdvancePastRemove(At(s, Other(c)).tree, d, Other(c), s);
  }

  /** A heap that holds no timer for d in d's own container is fine after d's remove is taken. */
  lemma AdvancePastRemove(t: Tree<Timer>, d: nat, c: Which, s: State)
    requires LifeInv(s) && s.done < |s.log| && s.log[s.done] == MsgRemove(d) && d in s.delegates
    requires HeapOk(t, c, s.done, s.delegates)
    requires c == s.delegates[d].c ==> TimerOf(s, d) !in Elements(t)
    ensures HeapOk(t, c, s.done + 1, s.delegates)
  {
    forall y | y in Elements(t) ensures y.id != d {
      assert MayBeInHeap(y, c, s.done, s.delegates);
    }
    AdvanceHeap(t, c, s.done, s.log, s.delegates);
  }

  lemma TakePushKeepsLife(s: State, d: nat, s': State)
    requires LifeInv(s) && Enabled(s, MsgTake) && s.log[s.done] == MsgPush(d) && d in s.delegates
    requires s' == PushTimer(s.(done := s.done + 1), s.delegates[d].c, TimerOf(s, d))
    ensures LifeInv(s')
  {
    var c, x := s.delegates[d].c, TimerOf(s, d);
    PushedHeapsOk(s, d);
    PushTimerEffect(s, c, x);
    HeapChangeKeepsLife(s, s', c, Push(At(s, c).tree, x, Sooner));
  }

  lemma TakeRemoveKeepsLife(s: State, d: nat, s': State)
    requires LifeInv(s) && HeapsOk(s) && Enabled(s, MsgTake) && s.log[s.done] == MsgRemove(d) && d in s.delegates
    requires s' == RemoveTimer(s.(done := s.done + 1), s.delegates[d].c, TimerOf(s, d))
    ensures LifeInv(s')
  {
    var c, x := s.delegates[d].c, TimerOf(s, d);
    RemovedHeapsOk(s, d);
    RemoveTimerEffect(s, c, x);
    HeapChangeKeepsLife(s, s', c, Remove(At(s, c).tree, x, Sooner).0);
  }

  lemma TakeExpireKeepsLife(s: State)
    requires LifeInv(s) && Enabled(s, MsgTake) && s.log[s.done].MsgExpire?
    ensures LifeInv(Apply(s, MsgTake))
  {
    AdvanceHeap(s.soft.tree, Soft, s.done, s.log, s.delegates);
    AdvanceHeap(s.hard.tree, Hard, s.done, s.log, s.delegates);
    AdvanceDelegates(s, Apply(s, MsgTake));
  }

  lemma TakeKeepsLife(s: State)
    requires LifeInv(s) && HeapsOk(s) && Enabled(s, MsgTake)
    ensures LifeInv(Apply(s, MsgTake))
  {
    var s' := Apply(s, MsgTake);
    assert s' == TakeMessage(s.(done := s.done + 1), s.log[s.done]);
    match s.log[s.done] {
      case MsgPush(d) => TakePushKeepsLife(s, d, s');
      case MsgRemove(d) => TakeRemoveKeepsLife(s, d, s');
      case MsgExpire(_) => TakeExpireKeepsLife(s);
    }
  }

  // ---------- every step, every run ----------

  lemma StepKeepsLife(s: State, step: Step)
    requires LifeInv(s) && HeapsOk(s) && Enabled(s, step)
    ensures LifeInv(Apply(s, step))
  {
    match step {
      case Tick(_) => KernelStepKeepsLife(s, step);
      case NewTimer(_) => TimerStepKeepsLife(s, step);
      case StartCreate(l, d, ms, c) => CreateKeepsLife(s, l, d, FutureTime(s.now, ms), c);
      case StartAssign(_) => TimerStepKeepsLife(s, step);
      case Stop(l) => if s.timers[l].timer.Some? { StopKeepsLife(s, l, false); }
      case Destroy(l) => DestroyKeepsLife(s, l);
      case MsgTake => TakeKeepsLife(s);
      case MsgAddPoll => ArmStepKeepsLife(s, step);
      case MsgSetTime => ArmStepKeepsLife(s, step);
      case MsgDelete => DeleteKeepsLife(s);
      case MsgPop => PopKeepsLife(s);
      case MsgExpireDelegate => ReadStepKeepsLife(s);
      case MsgStop => MsgStopKeepsLife(s);
      case MsgCall => TimerStepKeepsLife(s, step);
      case PollWake(_) => KernelStepKeepsLife(s, step);
      case PollDisarm => KernelStepKeepsLife(s, step);
      case PollRemove => KernelStepKeepsLife(s, step);
      case PollSend => PollSendKeepsLife(s);
    }
  }

  lemma DestroyKeepsLife(s: State, l: nat)
    requires LifeInv(s) && Enabled(s, Destroy(l))
    ensures LifeInv(Apply(s, Destroy(l)))
  {
    if s.timers[l].timer.Some? {
      StopKeepsLife(s, l, false);
      DropKeepsLife(StopTimer(s, l, false), l);
    } else {
      DropKeepsLife(s, l);
    }
  }

  lemma MsgStopKeepsLife(s: State)
    requires LifeInv(s) && Enabled(s, MsgStop)
    ensures LifeInv(Apply(s, MsgStop))
  {
    var l := s.msg.client;
    if s.timers[l].timer.Some? {
      StopKeepsLife(s, l, true);
      MoveOn(StopTimer(s, l, true), Calling(s.msg.c, s.msg.at, l));
    } else {
      MoveOn(s, Popping(s.msg.c, s.msg.at, false));
    }
  }

  lemma MoveOn(s: State, m: MsgThread)
    requires LifeInv(s) && s.msg.Stopping? && (m.Popping? || m == Calling(s.msg.c, s.msg.at, s.msg.client))
    ensures LifeInv(s.(msg := m))
  {
    assert Removing(m) == Removing(s.msg);
    assert DelegatesOk(s.(msg := m));
  }

  lemma {:induction false} RunKeepsLife(s: State, steps: seq<Step>, s': State)
    requires LifeInv(s) && WakeInv(s) && Run(s, steps, s')
    ensures LifeInv(s') && WakeInv(s')
    decreases |steps|
  {
    if steps != [] {
      StepKeepsLife(s, steps[0]);
      StepKeepsWake(s, steps[0]);
      RunKeepsLife(Apply(s, steps[0]), steps[1..], s');
    }
  }

  lemma ReachableIsGood(now: Deadline, steps: seq<Step>, s: State)
    requires Run(Init(now), steps, s)
    ensures LifeInv(s) && WakeInv(s)
  {
    RunKeepsLife(Init(now), steps, s);
  }
}
