/** The message bodies of LocTimerContainer as they run in the message thread, on the pointer heap
    itself, together with the lock that LocTimers and their delegates share. What one body does
    when nobody interferes is what TimerService splits into steps. */
module LocTimerContainers {
  import opened Wrappers
  import opened HeapTree
  import opened TimerClock
  import opened LocHeap

  class LocTimerContainer {
    const heap: LocHeap<Timer>
    var polled: bool               // is the timer fd registered with epoll
    var armed: Option<Timespec>    // what timerfd_settime was last told

    ghost predicate Valid()
      reads this, heap, heap.Repr
    {
      heap.Valid() && heap.outRanks == Sooner
    }

    constructor ()
      ensures Valid() && fresh(heap) && heap.Repr == {} && heap.Model == Leaf && !polled && armed == None
    {
      SoonerIsWeakOrder();
      heap := new LocHeap<Timer>(Sooner);
      polled, armed := false, None;
    }

    /** Reprograms the kernel only when the head changed for the sooner (or NULL forces it). */
    method UpdateSoonestTime(priorTop: Option<Timer>)
      requires Valid()
      modifies this
      ensures Valid() && heap.Repr == old(heap.Repr) && heap.Model == old(heap.Model)
      ensures (polled, armed) == match UpdateSoonest(priorTop, Top(heap.Model))
                                 case Keep => old((polled, armed))
                                 case Disarm => (false, None)
                                 case Arm(due) => (true, Some(due))
    {
      var curTop := heap.Peek();
      if curTop != priorTop {
        var delay, toSetTime := Timespec(0, 0), false;
        if curTop.None? {
          polled := false;
          toSetTime := true;
        } else if priorTop.None? || Sooner(curTop.value, priorTop.value) {
          polled := true;
          delay := curTop.value.due;
          toSetTime := true;
        }
        if toSetTime {
          armed := SetTime(delay);
        }
      }
    }

    /** MsgTimerPush. */
    method ProcPush(timer: Timer)
      requires Valid()
      modifies this, heap, heap.Repr
      ensures Valid() && fresh(heap.Repr - old(heap.Repr))
      ensures heap.Model == Push(old(heap.Model), timer, Sooner)
      ensures Elements(heap.Model) == Elements(old(heap.Model)) + multiset{timer}
      ensures heap.Model.data == timer && Top(old(heap.Model)) != Some(timer) ==> polled && armed == Some(timer.due)
      ensures Top(heap.Model) == Top(old(heap.Model)) ==> polled == old(polled) && armed == old(armed)
    {
      SoonerIsWeakOrder();
      PushCorrect(heap.Model, timer, Sooner);
      var priorTop := heap.Peek();
      heap.Push(timer);
      UpdateSoonestTime(priorTop);
    }

    /** MsgTimerRemove: afterwards the timer is not in the heap (so its delegate may be deleted), and
        if it was the head the kernel is set for the next one. */
    method ProcRemove(timer: Timer)
      requires Valid()
      modifies this, heap, heap.Repr
      ensures Valid() && heap.Repr <= old(heap.Repr)
      ensures heap.Model == Remove(old(heap.Model), timer, Sooner).0
      ensures Elements(heap.Model) == Elements(old(heap.Model)) - multiset{timer}
      ensures (polled, armed) ==
        if Top(old(heap.Model)) == Some(timer) && heap.Model.Node? then (true, Some(heap.Model.data.due))
        else old((polled, armed))
    {
      HeadRemoved(heap.Model, timer);
      var priorTop := heap.Peek();
      var removed := heap.Remove(timer);
      if priorTop == removed {
        UpdateSoonestTime(None);
        assert old(heap.Model).Leaf? || Top(old(heap.Model)) == Some(timer);
      } else {
        assert Top(old(heap.Model)) != Some(timer);
      }
    }

    lemma HeadRemoved(t: Tree<Timer>, x: Timer)
      ensures Top(t) == (if x in Elements(t) then Some(x) else None) <==> t.Leaf? || t.data == x
      ensures t.Leaf? ==> Remove(t, x, Sooner).0 == t
    {
    }

    method PopIfOutRanks(now: Deadline) returns (popped: Option<Timer>)
      requires Valid()
      modifies heap, heap.Repr
      ensures Valid() && heap.Repr <= old(heap.Repr)
      ensures popped.Some? <==> old(heap.Model).Node? && Instant(old(heap.Model).data.due) <= Instant(now)
      ensures popped.Some? ==> popped.value == old(heap.Model).data && heap.Model == Pop(old(heap.Model), Sooner)
      ensures popped.None? ==> heap.Model == old(heap.Model)
    {
      popped := None;
      var top := heap.Peek();
      if top.Some? {
        RanksIsTimeOrder(now, top.value.due);
        if !OutRanks(now, top.value.due) {
          popped := heap.Pop();
        }
      }
    }

    /** MsgTimerExpire: hands out the head and then every due timer, and arms what is left. */
    method ProcExpire(now: Deadline) returns (expired: seq<Timer>)
      requires Valid()
      modifies this, heap, heap.Repr
      ensures Valid() && heap.Repr <= old(heap.Repr)
      ensures (expired, heap.Model) == ExpireBatch(old(heap.Model), now)
      ensures Elements(old(heap.Model)) == multiset(expired) + Elements(heap.Model)
      ensures forall x | x in Elements(heap.Model) :: Instant(x.due) > Instant(now)
      ensures heap.Model.Node? ==> polled && armed == Some(heap.Model.data.due)
      ensures heap.Model.Leaf? ==> polled == old(polled) && armed == old(armed)
    {
      expired := PopBatch(now);
      ExpireBatchExact(old(heap.Model), now);
      UpdateSoonestTime(None);
    }

    method PopBatch(now: Deadline) returns (expired: seq<Timer>)
      requires Valid()
      modifies heap, heap.Repr
      ensures Valid() && heap.Repr <= old(heap.Repr)
      ensures (expired, heap.Model) == ExpireBatch(old(heap.Model), now)
    {
      ghost var goal := ExpireBatch(heap.Model, now);
      expired := [];
      var timer := heap.Pop();
      assert goal == FromHere(timer, heap.Model, now);
      while timer.Some?
        invariant Valid() && heap.Repr <= old(heap.Repr)
        invariant goal.0 == expired + FromHere(timer, heap.Model, now).0
        invariant goal.1 == FromHere(timer, heap.Model, now).1
        decreases NodeCount(heap.Model), timer.Some?
      {
        NextRound(heap.Model, now);
        Regroup(expired, timer.value, DueBatch(heap.Model, now).0);
        expired := expired + [timer.value];
        timer := PopIfOutRanks(now);
      }
      assert goal.0 == expired + [] == expired;
    }

    lemma Regroup(done: seq<Timer>, x: Timer, rest: seq<Timer>)
      ensures done + ([x] + rest) == (done + [x]) + rest
    {
    }

    /** What the loop still hands out when it holds `timer`, and what it leaves. */
    static function FromHere(timer: Option<Timer>, t: Tree<Timer>, now: Deadline): (seq<Timer>, Tree<Timer>) {
      if timer.None? then ([], t) else ([timer.value] + DueBatch(t, now).0, DueBatch(t, now).1)
    }

    lemma NextRound(t: Tree<Timer>, now: Deadline)
      ensures DueBatch(t, now) ==
        if t.Node? && Instant(t.data.due) <= Instant(now) then FromHere(Some(t.data), Pop(t, Sooner), now)
        else FromHere(None, t, now)
      ensures t.Node? ==> NodeCount(Pop(t, Sooner)) < NodeCount(t)
    {
      if t.Node? {
        RanksIsTimeOrder(now, t.data.due);
        PopShrinks(t, Sooner);
      }
    }
  }

  /** LocSharedLock: created with one user, deletes itself when the last one drops it. */
  class LocSharedLock {
    var mRef: int
    var deleted: bool

    ghost predicate Valid()
      reads this
    {
      mRef >= 0 && (deleted <==> mRef == 0)
    }

    constructor ()
      ensures Valid() && mRef == 1 && !deleted
    {
      mRef, deleted := 1, false;
    }

    method Share()
      requires Valid() && !deleted
      modifies this
      ensures Valid() && !deleted && mRef == old(mRef) + 1
    {
      mRef := mRef + 1;
    }

    method Drop()
      requires Valid() && !deleted
      modifies this
      ensures Valid() && mRef == old(mRef) - 1 && (deleted <==> old(mRef) == 1)
    {
      var before := mRef;
      mRef := mRef - 1;
      if before == 1 {
        deleted := true;
      }
    }
  }
}
