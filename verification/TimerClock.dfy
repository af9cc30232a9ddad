/** Time as the timer service sees it: struct timespec, the ranking of delegates by their
    expiry, the expiry computed by LocTimer::start, and the batch one expiry message pops. */
module TimerClock {
  import opened Wrappers
  import opened HeapTree

  datatype Timespec = Timespec(sec: int, nsec: int)

  const BILLION := 1_000_000_000
  const TWO_31 := 0x8000_0000

  /** Conversion to the 32-bit int that ranks() returns. */
  function WrapInt32(n: int): int {
    (n + TWO_31) % (2 * TWO_31) - TWO_31
  }

  predicate Normal(t: Timespec) {
    0 <= t.nsec < BILLION
  }

  function Instant(t: Timespec): int {
    t.sec * BILLION + t.nsec
  }

  /** LocTimerDelegate::ranks called on a delegate due at `a`, for one due at `b`. */
  function Ranks(a: Timespec, b: Timespec): int {
    var rank := WrapInt32(b.sec - a.sec);
    if rank == 0 then WrapInt32(b.nsec - a.nsec) else rank
  }

  predicate OutRanks(a: Timespec, b: Timespec) {
    Ranks(a, b) > 0
  }

  /** As long as the seconds differ by an int, a delegate outranks another just when it is due earlier. */
  lemma RanksIsTimeOrder(a: Timespec, b: Timespec)
    requires Normal(a) && Normal(b) && -TWO_31 <= b.sec - a.sec < TWO_31
    ensures OutRanks(a, b) <==> Instant(a) < Instant(b)
    ensures Ranks(a, b) == 0 <==> a == b
  {
    assert WrapInt32(b.sec - a.sec) == b.sec - a.sec;
    assert WrapInt32(b.nsec - a.nsec) == b.nsec - a.nsec;
  }

  /** ... and `int` is exactly wide enough for that: one more second and an earlier delegate loses. */
  lemma RanksIsTimeOrderUpTo(span: int)
    requires span >= 0
    ensures (forall a, b :: InSpan(a, b, span) ==> RankedRight(a, b)) <==> span < 0x8000_0000
  {
    if span < TWO_31 {
      forall a, b | InSpan(a, b, span) ensures RankedRight(a, b) {
        RanksIsTimeOrder(a, b);
      }
    } else {
      var a, b := Timespec(0, 0), Timespec(TWO_31, 0);
      assert WrapInt32(TWO_31) == -TWO_31;
      assert InSpan(a, b, span) && !RankedRight(a, b);
    }
  }

  predicate InSpan(a: Timespec, b: Timespec, span: int) {
    Normal(a) && Normal(b) && -span <= b.sec - a.sec <= span
  }

  predicate RankedRight(a: Timespec, b: Timespec) {
    OutRanks(a, b) <==> Instant(a) < Instant(b)
  }

  /** LocTimer::start: the expiry of a timer started at `now` for `timeOutInMs`. */
  function FutureTime(now: Timespec, timeOutInMs: nat): (due: Timespec)
    requires Normal(now)
    ensures Normal(due) && Instant(due) == Instant(now) + timeOutInMs * 1_000_000
    ensures now.sec <= due.sec <= now.sec + timeOutInMs / 1000 + 1
  {
    var sec := now.sec + timeOutInMs / 1000;
    var nsec := now.nsec + timeOutInMs % 1000 * 1_000_000;
    if nsec >= BILLION then Timespec(sec + nsec / BILLION, nsec % BILLION) else Timespec(sec, nsec)
  }

  // ---------- delegates in a heap ----------

  /** A time the service can meet: after boot, and early enough that seconds fit an int. */
  type Deadline = t: Timespec | Normal(t) && 0 <= t.sec < TWO_31 && Instant(t) > 0 witness Timespec(1, 0)

  /** A LocTimerDelegate as the heap sees it: which one it is and when it is due. */
  datatype Timer = Timer(id: nat, due: Deadline)

  predicate Sooner(a: Timer, b: Timer)
    ensures Sooner(a, b) <==> Instant(a.due) < Instant(b.due)
  {
    RanksIsTimeOrder(a.due, b.due);
    OutRanks(a.due, b.due)
  }

  lemma SoonerIsWeakOrder()
    ensures WeakOrder(Sooner)
  {
  }

  /** What popIfOutRanks keeps popping: every head that `now` does not outrank. */
  function DueBatch(t: Tree<Timer>, now: Deadline): (seq<Timer>, Tree<Timer>)
    decreases NodeCount(t)
  {
    if t.Leaf? || OutRanks(now, t.data.due) then ([], t)
    else
      PopShrinks(t, Sooner);
      var (batch, rest) := DueBatch(Pop(t, Sooner), now);
      ([t.data] + batch, rest)
  }

  /** What one MsgTimerExpire pops: the head unconditionally, then every due head. */
  function ExpireBatch(t: Tree<Timer>, now: Deadline): (seq<Timer>, Tree<Timer>) {
    if t.Leaf? then ([], t)
    else
      var (batch, rest) := DueBatch(Pop(t, Sooner), now);
      ([t.data] + batch, rest)
  }

  /** Handing out the head before a sorted batch of what it leaves. */
  lemma HeadFirst(t: Tree<Timer>, batch: seq<Timer>, rest: Tree<Timer>)
    requires Heap(t, Sooner) && t.Node? && SortedByRank(batch, Sooner)
    requires Elements(Pop(t, Sooner)) == multiset(batch) + Elements(rest)
    ensures Elements(t) == multiset([t.data] + batch) + Elements(rest)
    ensures SortedByRank([t.data] + batch, Sooner)
  {
    SoonerIsWeakOrder();
    PopElements(t, Sooner);
    assert multiset([t.data] + batch) == multiset{t.data} + multiset(batch);
    assert multiset(batch) <= Elements(t);
    PrependSorted(t, batch, Sooner);
  }

  lemma PoppedHeap(t: Tree<Timer>)
    requires Heap(t, Sooner) && t.Node?
    ensures Heap(Pop(t, Sooner), Sooner) && NodeCount(Pop(t, Sooner)) < NodeCount(t)
  {
    SoonerIsWeakOrder();
    PopSizes(t, Sooner);
    PopOrdered(t, Sooner);
    PopShrinks(t, Sooner);
  }

  lemma AllLater(t: Tree<Timer>, now: Deadline)
    requires Heap(t, Sooner) && t.Node? && OutRanks(now, t.data.due)
    ensures forall x | x in Elements(t) :: Instant(x.due) > Instant(now)
  {
    SoonerIsWeakOrder();
    RanksIsTimeOrder(now, t.data.due);
    forall x | x in Elements(t) ensures Instant(x.due) > Instant(now) {
      TopOutrankedByNone(t, x, Sooner);
    }
  }

  ghost predicate DueExactly(t: Tree<Timer>, batch: seq<Timer>, rest: Tree<Timer>, now: Deadline) {
    && Heap(rest, Sooner)
    && Elements(t) == multiset(batch) + Elements(rest)
    && SortedByRank(batch, Sooner)
    && (forall x | x in batch :: Instant(x.due) <= Instant(now))
    && (forall x | x in Elements(rest) :: Instant(x.due) > Instant(now))
  }

  lemma {:induction false} DueBatchExact(t: Tree<Timer>, now: Deadline)
    requires Heap(t, Sooner)
    ensures DueExactly(t, DueBatch(t, now).0, DueBatch(t, now).1, now)
    decreases NodeCount(t)
  {
    if t.Leaf? {
    } else if OutRanks(now, t.data.due) {
      AllLater(t, now);
    } else {
      PoppedHeap(t);
      DueBatchExact(Pop(t, Sooner), now);
      RanksIsTimeOrder(now, t.data.due);
      var (batch, rest) := DueBatch(Pop(t, Sooner), now);
      HeadFirst(t, batch, rest);
    }
  }

  /** One expiry message takes exactly the head and every timer due at or before `now`, soonest
      first, and leaves only later ones. */
  lemma {:induction false} ExpireBatchExact(t: Tree<Timer>, now: Deadline)
    requires Heap(t, Sooner)
    ensures var (batch, rest) := ExpireBatch(t, now);
      && Heap(rest, Sooner)
      && Elements(t) == multiset(batch) + Elements(rest)
      && SortedByRank(batch, Sooner)
      && (forall x | x in Elements(t) && Instant(x.due) <= Instant(now) :: x in batch)
      && (t.Node? ==> batch != [] && batch[0] == t.data)
      && (forall i | 1 <= i < |batch| :: Instant(batch[i].due) <= Instant(now))
      && (forall x | x in Elements(rest) :: Instant(x.due) > Instant(now))
  {
    if t.Node? {
      PoppedHeap(t);
      DueBatchExact(Pop(t, Sooner), now);
      var (batch, rest) := DueBatch(Pop(t, Sooner), now);
      HeadFirst(t, batch, rest);
      DueOnesAreOut(t, [t.data] + batch, rest, now);
    }
  }

  lemma DueOnesAreOut(t: Tree<Timer>, batch: seq<Timer>, rest: Tree<Timer>, now: Deadline)
    requires Elements(t) == multiset(batch) + Elements(rest)
    requires forall x | x in Elements(rest) :: Instant(x.due) > Instant(now)
    ensures forall x | x in Elements(t) && Instant(x.due) <= Instant(now) :: x in batch
  {
    forall x | x in Elements(t) && Instant(x.due) <= Instant(now) ensures x in batch {
      assert x in multiset(batch);
    }
  }

  // ---------- arming the kernel timer ----------

  /** timerfd_settime: a zero time disarms. */
  function SetTime(t: Timespec): Option<Timespec> {
    if t == Timespec(0, 0) then None else Some(t)
  }

  datatype Arming = Keep | Disarm | Arm(due: Deadline)

  /** LocTimerContainer::updateSoonestTime: what to do about the kernel timer, given the head before
      (None also stands for the NULL that forces an update) and the head now. */
  function UpdateSoonest(priorTop: Option<Timer>, curTop: Option<Timer>): Arming {
    if curTop == priorTop then Keep
    else if curTop.None? then Disarm
    else if priorTop.None? || Sooner(curTop.value, priorTop.value) then Arm(curTop.value.due)
    else Keep
  }
}
