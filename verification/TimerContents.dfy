/** What the heaps hold: no running timer is ever lost, and a timer that comes due calls back. */
module TimerContents {
  import opened Wrappers
  import opened HeapTree
  import opened TimerClock
  import opened TimerService
  import opened TimerWakeup
  import opened TimerLifetime
  import opened TimerTheorems

  /** Where a delegate whose push was taken and whose remove is not posted can be: in its heap, or in the
      hands of the message thread on its way to being stopped. */
  ghost predicate Placed(d: nat, g: Delegate, s: State) {
    g.removeAt.None? && g.pushAt < s.done ==>
      || Timer(d, g.due) in Elements(At(s, g.c).tree)
      || (s.msg.Expiring? && s.msg.d == d)
      || (s.msg.Stopping? && s.msg.client == g.owner)
  }

  ghost predicate AllPlaced(s: State) {
    forall d | d in s.delegates :: Placed(d, s.delegates[d], s)
  }

  /** Steps that leave delegates, heaps and position in the log alone. */
  lemma StillPlaced(s: State, s': State)
    requires AllPlaced(s)
    requires s'.delegates == s.delegates && s'.done == s.done
    requires s'.soft.tree == s.soft.tree && s'.hard.tree == s.hard.tree
    requires s.msg.Expiring? || s.msg.Stopping? ==> s'.msg == s.msg
    ensures AllPlaced(s')
  {
    forall d | d in s'.delegates ensures Placed(d, s'.delegates[d], s') {
      assert Placed(d, s.delegates[d], s);
    }
  }

  lemma CreatePlaces(s: State, l: nat, d: nat, due: Deadline, c: Which)
    requires LifeInv(s) && AllPlaced(s) && l in s.timers && d !in s.delegates
    ensures AllPlaced(CreateDelegate(s, l, d, due, c))
  {
    var s' := CreateDelegate(s, l, d, due, c);
    forall d' | d' in s'.delegates ensures Placed(d', s'.delegates[d'], s') {
      assert d' in s.delegates ==> Placed(d', s.delegates[d'], s);
    }
  }

  lemma StopPlaces(s: State, l: nat, byExpiry: bool)
    requires AllPlaced(s) && l in s.timers && s.timers[l].timer.Some?
    ensures AllPlaced(StopTimer(s, l, byExpiry))
  {
    var s' := StopTimer(s, l, byExpiry);
    forall d | d in s'.delegates ensures Placed(d, s'.delegates[d], s') {
      assert Placed(d, s.delegates[d], s);
    }
  }

  lemma DeletePlaces(s: State)
    requires AllPlaced(s) && Enabled(s, MsgDelete)
    ensures AllPlaced(Apply(s, MsgDelete))
  {
    var s' := Apply(s, MsgDelete);
    forall d | d in s'.delegates ensures Placed(d, s'.delegates[d], s') {
      assert Placed(d, s.delegates[d], s);
    }
  }

  /** Popping a timer hands its delegate to the message thread and leaves every other one where it was. */
  lemma PoppedPlaces(s: State, s': State, x: Timer)
    requires AllPlaced(s) && s.msg.Popping? && s'.msg.Expiring? && s'.msg.d == x.id
    requires s'.delegates == s.delegates && s'.done == s.done
    requires forall c', y | y != x && y in Elements(At(s, c').tree) :: y in Elements(At(s', c').tree)
    ensures AllPlaced(s')
  {
    forall d | d in s'.delegates ensures Placed(d, s'.delegates[d], s') {
      assert Placed(d, s.delegates[d], s);
    }
  }

  lemma PopKeepsOthers(t: Tree<Timer>, y: Timer)
    requires t.Node? && y != t.data && y in Elements(t)
    ensures y in Elements(Pop(t, Sooner))
  {
    PopElements(t, Sooner);
  }

  lemma PopPlaces(s: State)
    requires AllPlaced(s) && Enabled(s, MsgPop)
    ensures AllPlaced(Apply(s, MsgPop))
  {
    var c, t := s.msg.c, At(s, s.msg.c).tree;
    var s' := PopNext(s, c, s.msg.at, s.msg.first);
    if t.Leaf? || (!s.msg.first && OutRanks(s.msg.at, t.data.due)) {
      StillPlaced(s, s');
    } else {
      forall c', y | y != t.data && y in Elements(At(s, c').tree) ensures y in Elements(At(s', c').tree) {
        if c' == c {
          PopKeepsOthers(t, y);
        }
      }
      PoppedPlaces(s, s', t.data);
    }
  }

  /** The delegate read by expire() moves on to its client's stop, unless it is stopped already. */
  lemma ReadPlaces(s: State)
    requires LifeInv(s) && AllPlaced(s) && Enabled(s, MsgExpireDelegate)
    ensures AllPlaced(Apply(s, MsgExpireDelegate))
  {
    var s' := Apply(s, MsgExpireDelegate);
    forall d | d in s'.delegates ensures Placed(d, s'.delegates[d], s') {
      assert Placed(d, s.delegates[d], s) && SentOk(d, s.delegates[d], s.log);
    }
  }

  /** stop() called by an expiry stops whatever delegate of that client was still to be placed. */
  lemma MsgStopPlaces(s: State)
    requires LifeInv(s) && AllPlaced(s) && Enabled(s, MsgStop)
    ensures AllPlaced(Apply(s, MsgStop))
  {
    var s', l := Apply(s, MsgStop), s.msg.client;
    assert s'.soft.tree == s.soft.tree && s'.hard.tree == s.hard.tree && s'.done == s.done;
    forall d | d in s'.delegates ensures Placed(d, s'.delegates[d], s') {
      HeldByItsClient(s, d);
      assert s.timers[l].timer != Some(d) ==> s'.delegates[d] == s.delegates[d];
    }
  }

  /** While the message thread is about to stop l, only what l holds can still be on its way. */
  lemma HeldByItsClient(s: State, d: nat)
    requires LifeInv(s) && AllPlaced(s) && Enabled(s, MsgStop) && d in s.delegates
    ensures var g := s.delegates[d];
      g.removeAt.None? && g.pushAt < s.done && s.timers[s.msg.client].timer != Some(d) ==>
        Timer(d, g.due) in Elements(At(s, g.c).tree)
  {
    assert Placed(d, s.delegates[d], s) && HeldOk(d, s.delegates[d], s.timers);
  }

  lemma TakePlaces(s: State)
    requires LifeInv(s) && HeapsOk(s) && AllPlaced(s) && Enabled(s, MsgTake)
    ensures AllPlaced(Apply(s, MsgTake))
  {
    var s' := Apply(s, MsgTake);
    assert s' == TakeMessage(s.(done := s.done + 1), s.log[s.done]);
    match s.log[s.done] {
      case MsgPush(d) => TakePushPlaces(s, d, s');
      case MsgRemove(d) => TakeRemovePlaces(s, d, s');
      case MsgExpire(_) =>
        forall d | d in s'.delegates ensures Placed(d, s'.delegates[d], s') {
          assert Placed(d, s.delegates[d], s) && SentOk(d, s.delegates[d], s.log);
        }
    }
  }

  /** The changed heap of c still holds what it should, and what was just pushed. */
  ghost predicate Kept(d: nat, g: Delegate, s: State, c: Which, t: Tree<Timer>) {
    g.removeAt.None? && g.c == c && (g.pushAt == s.done || Timer(d, g.due) in Elements(At(s, c).tree)) ==>
      Timer(d, g.due) in Elements(t)
  }

  lemma TakenHeapPlaces(s: State, s': State, c: Which, t: Tree<Timer>)
    requires LifeInv(s) && AllPlaced(s) && Enabled(s, MsgTake) && OnlyHeapChanged(s, s', c, t)
    requires forall d | d in s.delegates :: Kept(d, s.delegates[d], s, c, t)
    requires forall d | d in s.delegates && s.delegates[d].pushAt == s.done :: s.delegates[d].c == c
    ensures AllPlaced(s')
  {
    forall d | d in s'.delegates ensures Placed(d, s'.delegates[d], s') {
      assert Placed(d, s.delegates[d], s) && Kept(d, s.delegates[d], s, c, t);
    }
  }

  lemma TakePushPlaces(s: State, d: nat, s': State)
    requires LifeInv(s) && AllPlaced(s) && Enabled(s, MsgTake) && s.log[s.done] == MsgPush(d) && d in s.delegates
    requires s' == PushTimer(s.(done := s.done + 1), s.delegates[d].c, TimerOf(s, d))
    ensures AllPlaced(s')
  {
    var c, x := s.delegates[d].c, TimerOf(s, d);
    var t := Push(At(s, c).tree, x, Sooner);
    assert forall d' | d' in s.delegates :: Kept(d', s.delegates[d'], s, c, t) by { PushKeeps(s, d); }
    PushTimerEffect(s, c, x);
    OnlyOnePushedAt(s, d);
    TakenHeapPlaces(s, s', c, t);
  }

  lemma OnlyOnePushedAt(s: State, d: nat)
    requires LifeInv(s) && Enabled(s, MsgTake) && s.log[s.done] == MsgPush(d)
    ensures forall d' | d' in s.delegates && s.delegates[d'].pushAt == s.done :: d' == d
  {
    forall d' | d' in s.delegates && s.delegates[d'].pushAt == s.done ensures d' == d {
      assert SentOk(d', s.delegates[d'], s.log);
    }
  }

  lemma PushKeeps(s: State, d: nat)
    requires LifeInv(s) && Enabled(s, MsgTake) && s.log[s.done] == MsgPush(d) && d in s.delegates
    ensures var c := s.delegates[d].c;
      forall d' | d' in s.delegates ::
        Kept(d', s.delegates[d'], s, c, Push(At(s, c).tree, TimerOf(s, d), Sooner))
  {
    PushElements(At(s, s.delegates[d].c).tree, TimerOf(s, d), Sooner);
    OnlyOnePushedAt(s, d);
  }

  lemma TakeRemovePlaces(s: State, d: nat, s': State)
    requires LifeInv(s) && HeapsOk(s) && AllPlaced(s) && Enabled(s, MsgTake)
    requires s.log[s.done] == MsgRemove(d) && d in s.delegates
    requires s' == RemoveTimer(s.(done := s.done + 1), s.delegates[d].c, TimerOf(s, d))
    ensures AllPlaced(s')
  {
    var c, x := s.delegates[d].c, TimerOf(s, d);
    var t := Remove(At(s, c).tree, x, Sooner).0;
    assert forall d' | d' in s.delegates :: Kept(d', s.delegates[d'], s, c, t) by { RemoveKeeps(s, d); }
    RemoveTimerEffect(s, c, x);
    forall d' | d' in s.delegates ensures s.delegates[d'].pushAt != s.done {
      assert SentOk(d', s.delegates[d'], s.log);
    }
    TakenHeapPlaces(s, s', c, t);
  }

  lemma RemoveKeeps(s: State, d: nat)
    requires LifeInv(s) && HeapsOk(s) && Enabled(s, MsgTake) && s.log[s.done] == MsgRemove(d) && d in s.delegates
    ensures var c := s.delegates[d].c;
      forall d' | d' in s.delegates ::
        Kept(d', s.delegates[d'], s, c, Remove(At(s, c).tree, TimerOf(s, d), Sooner).0)
  {
    SoonerIsWeakOrder();
    RemoveElements(At(s, s.delegates[d].c).tree, TimerOf(s, d), Sooner);
    forall d' | d' in s.delegates ensures s.delegates[d'].pushAt != s.done {
      assert SentOk(d', s.delegates[d'], s.log);
    }
  }

  lemma StepPlaces(s: State, step: Step)
    requires LifeInv(s) && HeapsOk(s) && AllPlaced(s) && Enabled(s, step)
    ensures AllPlaced(Apply(s, step))
  {
    match step {
      case StartCreate(l, d, ms, c) => CreatePlaces(s, l, d, FutureTime(s.now, ms), c);
      case Stop(l) => if s.timers[l].timer.Some? { StopPlaces(s, l, false); }
      case Destroy(l) =>
        var s1 := if s.timers[l].timer.Some? then StopTimer(s, l, false) else s;
        if s.timers[l].timer.Some? { StopPlaces(s, l, false); }
        StillPlaced(s1, DropTimer(s1, l));
      case MsgTake => TakePlaces(s);
      case MsgDelete => DeletePlaces(s);
      case MsgPop => PopPlaces(s);
      case MsgExpireDelegate => ReadPlaces(s);
      case MsgStop => MsgStopPlaces(s);
      case _ => StillPlaced(s, Apply(s, step));
    }
  }

  lemma {:induction false} RunPlaces(s: State, steps: seq<Step>, s': State)
    requires LifeInv(s) && WakeInv(s) && AllPlaced(s) && Run(s, steps, s')
    ensures LifeInv(s') && WakeInv(s') && AllPlaced(s')
    decreases |steps|
  {
    if steps != [] {
      StepPlaces(s, steps[0]);
      StepKeepsLife(s, steps[0]);
      StepKeepsWake(s, steps[0]);
      RunPlaces(Apply(s, steps[0]), steps[1..], s');
    }
  }

  /** No timer is lost and none is left over: whenever the message thread has caught up, the heap of c
      holds, once each, exactly the delegates for c whose LocTimer holds them. */
  lemma HeapHoldsRunningTimers(now: Deadline, steps: seq<Step>, s: State, c: Which, x: Timer)
    requires Run(Init(now), steps, s) && s.msg.Resting? && s.done == |s.log|
    ensures x in Elements(At(s, c).tree) <==>
      && x.id in s.delegates && x.due == s.delegates[x.id].due && s.delegates[x.id].c == c
      && s.delegates[x.id].owner in s.timers && Holds(s.timers[s.delegates[x.id].owner], x.id)
    ensures x in Elements(At(s, c).tree) ==> Elements(At(s, c).tree)[x] == 1
  {
    RunPlaces(Init(now), steps, s);
    if x in Elements(At(s, c).tree) {
      assert MayBeInHeap(x, c, s.done, s.delegates);
    }
    if x.id in s.delegates {
      var g := s.delegates[x.id];
      assert SentOk(x.id, g, s.log) && HeldOk(x.id, g, s.timers) && Placed(x.id, g, s);
      assert TimerOk(g.owner, s.timers[g.owner], s.delegates);
    }
  }

  /** A delegate keeps what its start gave it: the LocTimer it belongs to, the container asked for, and its
      expiry, which is the start time plus the delay. */
  lemma DueIsFixed(s: State, step: Step, d: nat)
    requires Enabled(s, step)
    ensures d in s.delegates ==>
      && d in Apply(s, step).delegates
      && Apply(s, step).delegates[d].owner == s.delegates[d].owner
      && Apply(s, step).delegates[d].c == s.delegates[d].c
      && Apply(s, step).delegates[d].due == s.delegates[d].due
    ensures step.StartCreate? && step.d == d ==>
      && d in Apply(s, step).delegates
      && Apply(s, step).delegates[d].owner == step.l
      && Apply(s, step).delegates[d].c == step.c
      && Instant(Apply(s, step).delegates[d].due) == Instant(s.now) + step.timeOutInMs * 1_000_000
  {
  }

  /** Only the clock changes the time. */
  lemma TimeIsTheClocks(s: State, step: Step)
    requires Enabled(s, step)
    ensures Apply(s, step).now == if step.Tick? then step.now else s.now
  {
  }

  lemma {:induction false} StartIsKept(s: State, steps: seq<Step>, s': State, d: nat)
    requires Run(s, steps, s') && d in s.delegates
    ensures d in s'.delegates && s'.delegates[d].owner == s.delegates[d].owner
    ensures s'.delegates[d].c == s.delegates[d].c && s'.delegates[d].due == s.delegates[d].due
    decreases |steps|
  {
    if steps != [] {
      DueIsFixed(s, steps[0], d);
      StartIsKept(Apply(s, steps[0]), steps[1..], s', d);
    }
  }

  /** A started timer lands where its start asked: whatever happens after start(ms, c), once the message thread
      has caught up the timer is in the heap of c, with the expiry of its start, exactly while its LocTimer
      holds it; and it is not in the other heap. */
  lemma StartedTimerIsWhereAsked(now: Deadline, before: seq<Step>, s0: State, l: nat, d: nat, ms: nat, c: Which,
                                 after: seq<Step>, s: State)
    requires Run(Init(now), before, s0) && Enabled(s0, StartCreate(l, d, ms, c))
    requires Run(Apply(s0, StartCreate(l, d, ms, c)), after, s) && s.msg.Resting? && s.done == |s.log|
    ensures d in s.delegates && l in s.timers
    ensures var x := Timer(d, s.delegates[d].due);
      && Instant(x.due) == Instant(s0.now) + ms * 1_000_000
      && (x in Elements(At(s, c).tree) <==> Holds(s.timers[l], d))
      && forall y: Timer, c': Which | y.id == d && y in Elements(At(s, c').tree) :: y == x && c' == c
  {
    var start := StartCreate(l, d, ms, c);
    DueIsFixed(s0, start, d);
    StartIsKept(Apply(s0, start), after, s, d);
    RunOne(s0, start, after, s);
    RunConcat(Init(now), before, s0, [start] + after, s);
    HeapHoldsRunningTimers(now, before + ([start] + after), s, c, Timer(d, s.delegates[d].due));
    ReachableIsGood(now, before + ([start] + after), s);
    assert HeldOk(d, s.delegates[d], s.timers);
    forall y: Timer, c': Which | y.id == d && y in Elements(At(s, c').tree)
      ensures y == Timer(d, s.delegates[d].due) && c' == c
    {
      HeapHoldsRunningTimers(now, before + ([start] + after), s, c', y);
    }
  }

  // ---------- a stopped timer ----------

  /** stop() on a running timer, by itself or when its LocTimer is destroyed, lets go of the delegate and posts
      its remove; on any other it does nothing. */
  lemma StopTakesEffect(now: Deadline, steps: seq<Step>, s: State, step: Step, l: nat)
    requires Run(Init(now), steps, s) && Enabled(s, step) && (step == Stop(l) || step == Destroy(l))
    ensures var s' := Apply(s, step);
      && l in s'.timers && s'.timers[l].timer.None? && s'.timers[l].pending.None?
      && s'.timers[l].alive == step.Stop?
      && match s.timers[l].timer
         case None => s'.log == s.log && s'.timers[l].clientStops == s.timers[l].clientStops
         case Some(d) =>
           && s'.log == s.log + [MsgRemove(d)] && s'.timers[l].clientStops == s.timers[l].clientStops + 1
           && d in s'.delegates && s'.delegates[d].client == None
  {
    ReachableIsGood(now, steps, s);
    assert TimerOk(l, s.timers[l], s.delegates);
  }

  /** No start is under way for l, and no callback to it is about to be made. */
  predicate Silent(s: State, l: nat) {
    l in s.timers && s.timers[l].timer.None? && s.timers[l].pending.None? && !(s.msg.Calling? && s.msg.client == l)
  }

  lemma StepStaysSilent(s: State, step: Step, l: nat)
    requires Silent(s, l) && Enabled(s, step) && !(step.StartCreate? && step.l == l)
    ensures Silent(Apply(s, step), l) && Apply(s, step).timers[l].callbacks == s.timers[l].callbacks
  {
  }

  /** Once stopped, a timer never calls back until it is started again, even if its expiry is being handled. */
  lemma {:induction false} StoppedNeverCallsBack(s: State, steps: seq<Step>, s': State, l: nat)
    requires Run(s, steps, s') && Silent(s, l)
    requires forall i | 0 <= i < |steps| :: !(steps[i].StartCreate? && steps[i].l == l)
    ensures Silent(s', l) && s'.timers[l].callbacks == s.timers[l].callbacks
    decreases |steps|
  {
    if steps != [] {
      StepStaysSilent(s, steps[0], l);
      assert forall i | 0 <= i < |steps[1..]| :: steps[1..][i] == steps[i + 1];
      StoppedNeverCallsBack(Apply(s, steps[0]), steps[1..], s', l);
    }
  }

  /** A due timer calls back: from a quiet service whose head is due, the system's own steps lead to the
      callback of the head's owner, its timer stopped and its remove posted. */
  lemma DueTimerCallsBack(now: Deadline, steps: seq<Step>, s: State, c: Which)
    requires Run(Init(now), steps, s) && Quiet(s) && At(s, c).tree.Node?
    requires Instant(At(s, c).tree.data.due) <= Instant(s.now)
    requires var d := At(s, c).tree.data.id; d in s.delegates ==>
      s.delegates[d].owner in s.timers ==> Unlocked(s, s.delegates[d].owner)
    ensures var d := At(s, c).tree.data.id;
      && d in s.delegates && s.delegates[d].owner in s.timers
      && exists s' ::
        && Run(s, [PollWake([c]), PollDisarm, PollRemove, PollSend] + [MsgTake, MsgPop]
                  + [MsgExpireDelegate, MsgStop, MsgCall], s')
        && CalledBack(s, s', d)
  {
    HeadIsRunning(now, steps, s, c);
    NoLostWakeup(now, steps, s, c);
    var s2 := ReadableIsPopped(s, c);
    var s3 := PoppedCallsBack(s2, At(s, c).tree.data.id);
    RunConcat(s, [PollWake([c]), PollDisarm, PollRemove, PollSend] + [MsgTake, MsgPop], s2,
              [MsgExpireDelegate, MsgStop, MsgCall], s3);
  }

  lemma HeadIsRunning(now: Deadline, steps: seq<Step>, s: State, c: Which)
    requires Run(Init(now), steps, s) && Quiet(s) && At(s, c).tree.Node?
    ensures var d := At(s, c).tree.data.id;
      && d in s.delegates && s.delegates[d].client == Some(s.delegates[d].owner)
      && s.delegates[d].owner in s.timers && Holds(s.timers[s.delegates[d].owner], d)
  {
    var x := At(s, c).tree.data;
    assert x in Elements(At(s, c).tree);
    HeapHoldsRunningTimers(now, steps, s, c, x);
    ReachableIsGood(now, steps, s);
    var g := s.delegates[x.id];
    assert SentOk(x.id, g, s.log) && TimerOk(g.owner, s.timers[g.owner], s.delegates);
  }

  /** The owner of d was called back once, and d was stopped. */
  ghost predicate CalledBack(s: State, s': State, d: nat)
    requires d in s.delegates && s.delegates[d].owner in s.timers
  {
    var l := s.delegates[d].owner;
    && l in s'.timers && s'.timers[l].callbacks == s.timers[l].callbacks + 1
    && s'.timers[l].timer.None? && s'.timers[l].expiryStops == s.timers[l].expiryStops + 1
    && d in s'.delegates && s'.delegates[d].removeAt.Some?
  }

  lemma PoppedCallsBack(s: State, d: nat) returns (s': State)
    requires s.msg.Expiring? && s.msg.d == d && d in s.delegates
    requires s.delegates[d].client == Some(s.delegates[d].owner) && s.delegates[d].owner in s.timers
    requires s.timers[s.delegates[d].owner].timer == Some(d) && Unlocked(s, s.delegates[d].owner)
    ensures Run(s, [MsgExpireDelegate, MsgStop, MsgCall], s') && CalledBack(s, s', d)
  {
    var s1 := Apply(s, MsgExpireDelegate);
    var s2 := Apply(s1, MsgStop);
    s' := Apply(s2, MsgCall);
    RunOne(s2, MsgCall, [], s');
    RunOne(s1, MsgStop, [MsgCall], s');
    RunOne(s, MsgExpireDelegate, [MsgStop, MsgCall], s');
  }
}
