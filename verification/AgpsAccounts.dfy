/** Every subscriber of the base AGPS machine is accounted for: it stays in the list until the moment
    it is told that its connection is closed or refused. */
module AgpsAccounts {
  import opened Wrappers
  import opened AgpsModel
  import opened AgpsRuns

  /** The calls tell h that its connection is closed, or was refused. */
  predicate ToldGone(marks: seq<Mark>, h: int) {
    CloseStatus(h, true) in marks || OpenStatus(h, false) in marks
  }

  /** Between m and m' exactly `marks` were called. */
  predicate Called(m: Machine, m': Machine, marks: seq<Mark>) {
    m'.trace == m.trace + marks
  }

  /** Who is in the list afterwards: whoever asked just now, and whoever was there and was not told to
      be gone; and only members are told so. */
  ghost predicate Accounted(m: Machine, m': Machine, marks: seq<Mark>, asks: Option<int>) {
    && Called(m, m', marks)
    && (forall h :: Present(m'.subs, h) <==> asks == Some(h) || (Present(m.subs, h) && !ToldGone(marks, h)))
    && (forall h :: ToldGone(marks, h) ==> Present(m.subs, h))
  }

  lemma {:induction false} MarksTell(e: Event, subs: seq<Subscriber>, a: Audience, h: int)
    ensures ToldGone(Marks(e, subs, a), h) <==>
      (e.ReleasedEvent? || e.Denied? || e.Unsubscribe?) && exists s | s in subs :: s.handle == h && Selected(a, s)
  {
    if subs != [] {
      assert subs == [subs[0]] + subs[1..];
      MarksTell(e, subs[1..], a, h);
      var here := if Selected(a, subs[0]) then Notify(Initial(false), e, subs[0].handle).trace else [];
      assert ToldGone(Marks(e, subs, a), h) <==> ToldGone(here, h) || ToldGone(Marks(e, subs[1..], a), h);
    }
  }

  lemma SubscribeAccounts(m: Machine, s: Subscriber, env: Env) returns (marks: seq<Mark>)
    requires Inv(m)
    ensures Accounted(m, OnSubscribe(m, s, env), marks, Some(s.handle))
  {
    var m' := OnSubscribe(m, s, env);
    var joined := if Present(m.subs, s.handle) then [] else [Joined(s.handle)];
    marks := joined + match m.state
      case Released => [RequestConn]
      case Acquired => [OpenStatus(s.handle, true)]
      case _ => [];
    assert m.trace + marks == m'.trace;
    assert forall x :: x in m.subs + [s] <==> x in m.subs || x == s;
    assert s in m.subs + [s];
  }

  /** What unsubscribing does besides leaving: a release request at most. */
  lemma UnsubscribeCalls(m: Machine, s: Subscriber, env: Env) returns (told: seq<Mark>, conn: seq<Mark>)
    requires !m.ds && !m.state.Released?
    ensures told == (if s.waits then [] else [CloseStatus(s.handle, true)])
    ensures conn == [] || conn == [ReleaseConn]
    ensures Called(m, OnUnsubscribe(m, s, env), told + conn)
    ensures OnUnsubscribe(m, s, env).subs == Leave(m, s).subs
  {
    var m1, m' := Leave(m, s), OnUnsubscribe(m, s, env);
    told := if s.waits then [] else [CloseStatus(s.handle, true)];
    conn := if !m.state.Releasing? && !AnyActive(m1.subs) then [ReleaseConn] else [];
    assert m1.trace == m.trace + told && m'.trace == m1.trace + conn;
    assert m'.trace == m.trace + (told + conn);
  }

  lemma UnsubscribeAccounts(m: Machine, s: Subscriber, env: Env) returns (marks: seq<Mark>)
    requires Inv(m) && s in m.subs
    ensures Accounted(m, OnUnsubscribe(m, s, env), marks, None)
  {
    var told, conn := UnsubscribeCalls(m, s, env);
    marks := told + conn;
    assert forall h :: ToldGone(marks, h) <==> !s.waits && h == s.handle;
    if s.waits {
      DeactivateMembers(m.subs, s);
    } else {
      WithoutMembers(m.subs, s.handle);
    }
  }

  lemma NotifyAccounts(m: Machine, m': Machine, e: Event, a: Audience)
    requires Inv(m) && (e.ReleasedEvent? || e.Denied?)
    requires m'.subs == NotSelected(m.subs, a) && Called(m, m', Marks(e, m.subs, a))
    ensures Accounted(m, m', Marks(e, m.subs, a), None)
  {
    NotSelectedMembers(m.subs, a);
    forall h
      ensures ToldGone(Marks(e, m.subs, a), h) <==> exists s | s in m.subs :: s.handle == h && Selected(a, s)
    {
      MarksTell(e, m.subs, a, h);
    }
    forall x, y | x in m.subs && y in m.subs && x.handle == y.handle ensures x == y {
      SameHandleSame(m.subs, x, y);
    }
  }

  lemma ReopenCalls(m: Machine, env: Env) returns (conn: seq<Mark>)
    requires !m.ds
    ensures conn == [] || conn == [RequestConn]
    ensures var m1 := NotifyAll(m, ReleasedEvent, true, Inactive);
      Called(m1, Reopen(m, env), conn) && Reopen(m, env).subs == m1.subs
  {
    NotifyEachAddsMarks(m, ReleasedEvent, m.subs, Inactive);
    conn := if AnyActive(NotifyAll(m, ReleasedEvent, true, Inactive).subs) then [RequestConn] else [];
  }

  lemma ReopenAccounts(m: Machine, env: Env) returns (marks: seq<Mark>)
    requires Inv(m) && m.state.Releasing?
    ensures Accounted(m, Reopen(m, env), marks, None)
  {
    NotifyEachAddsMarks(m, ReleasedEvent, m.subs, Inactive);
    var m1 := NotifyAll(m, ReleasedEvent, true, Inactive);
    NotifyAccounts(m, m1, ReleasedEvent, Inactive);
    var conn := ReopenCalls(m, env);
    marks := Marks(ReleasedEvent, m.subs, Inactive) + conn;
    assert m1.trace + conn == m.trace + marks;
  }

  lemma EmptiedAccounts(m: Machine, e: Event) returns (marks: seq<Mark>)
    requires Inv(m) && (e.ReleasedEvent? || e.Denied?)
    ensures Accounted(m, NotifyAll(m.(state := AgpsState.Released), e, true, All), marks, None)
  {
    marks := Marks(e, m.subs, All);
    NotifyEachAddsMarks(m.(state := AgpsState.Released), e, m.subs, All);
    NotifyAccounts(m, NotifyAll(m.(state := AgpsState.Released), e, true, All), e, All);
  }

  lemma GrantedAccounts(m: Machine) returns (marks: seq<Mark>)
    requires Inv(m)
    ensures Accounted(m, OnGranted(m), marks, None)
  {
    marks := [];
    if m.state.Pending? {
      marks := Marks(Granted, m.subs, Active);
      NotifyEachAddsMarks(m.(state := Acquired), Granted, m.subs, Active);
      forall h ensures !ToldGone(marks, h) {
        MarksTell(Granted, m.subs, Active, h);
      }
    } else {
      assert m.trace + [] == m.trace;
    }
  }

  function Asking(op: Op): Option<int> {
    if op.Request? then Some(op.handle) else None
  }

  lemma NothingAccounts(m: Machine) returns (marks: seq<Mark>)
    ensures Accounted(m, m, marks, None)
  {
    marks := [];
    assert m.trace + [] == m.trace;
  }

  lemma StepAccounts(m: Machine, op: Op, env: Env) returns (marks: seq<Mark>)
    requires Inv(m) && !op.Drop?
    ensures Accounted(m, Do(m, op, env), marks, Asking(op))
  {
    match op {
      case Request(h, waits) => marks := SubscribeAccounts(m, Subscriber(h, waits, false), env);
      case Release(h) =>
        if Find(m.subs, h).Some? { marks := UnsubscribeAccounts(m, Find(m.subs, h).value, env); }
        else { marks := NothingAccounts(m); }
      case Opened => marks := GrantedAccounts(m);
      case _ =>
        var e := if op.Closed? then ReleasedEvent else Denied;
        if m.state.Releasing? { marks := ReopenAccounts(m, env); }
        else if m.state == (if op.Closed? then Acquired else Pending) { marks := EmptiedAccounts(m, e); }
        else { marks := NothingAccounts(m); }
    }
  }

  /** In every run, for every operation but a modem-restart drop: requestATL puts its handle in the list;
      anyone else is in the list afterwards if and only if it was there before and the operation did not
      tell it that its connection is closed or refused; and nobody outside the list is told that. */
  lemma NobodyLeavesUntold(ops: seq<(Op, Env)>, op: Op, env: Env)
    requires !op.Drop?
    ensures exists marks ::
      Accounted(DoAll(Initial(false), ops), Do(DoAll(Initial(false), ops), op, env), marks, Asking(op))
  {
    RunKeepsInv(ops);
    var m := DoAll(Initial(false), ops);
    var marks := StepAccounts(m, op, env);
    assert Accounted(m, Do(m, op, env), marks, Asking(op));
  }

  /** A pending request is always resolved by the framework's answer: success reaches every active
      subscriber, refusal empties the list. */
  lemma PendingIsResolved(ops: seq<(Op, Env)>, env: Env)
    requires DoAll(Initial(false), ops).state.Pending?
    ensures var m := DoAll(Initial(false), ops);
      var granted, refused := Do(m, Opened, env), Do(m, Refused, env);
      && granted.state.Acquired? && granted.subs == m.subs
      && (forall s | s in m.subs && !s.inactive :: GrantedTo(granted.trace, s.handle))
      && refused.state.Released? && refused.subs == []
  {
    RunKeepsInv(ops);
    var m := DoAll(Initial(false), ops);
    StepKeepsInv(m, Opened, env);
    StepKeepsInv(m, Refused, env);
    NotifyEachAddsMarks(m.(state := Acquired), Granted, m.subs, Active);
    NotifyEachAddsMarks(m.(state := AgpsState.Released), Denied, m.subs, All);
  }
}
