/** What every run of the base AGPS machine keeps. */
module AgpsRuns {
  import opened AgpsModel

  // ---------- the subscriber list ----------

  ghost predicate Distinct(subs: seq<Subscriber>) {
    subs != [] ==> !Present(subs[1..], subs[0].handle) && Distinct(subs[1..])
  }

  lemma {:induction false} WithoutMembers(subs: seq<Subscriber>, h: int)
    ensures forall s :: s in Without(subs, h) <==> s in subs && s.handle != h
    ensures Distinct(subs) ==> Distinct(Without(subs, h))
  {
    if subs != [] {
      WithoutMembers(subs[1..], h);
      assert subs == [subs[0]] + subs[1..];
      if subs[0].handle != h {
        assert Without(subs, h)[1..] == Without(subs[1..], h);
      } else {
        assert Without(subs, h) == Without(subs[1..], h);
      }
    }
  }

  lemma {:induction false} NotSelectedMembers(subs: seq<Subscriber>, a: Audience)
    ensures forall s :: s in NotSelected(subs, a) <==> s in subs && !Selected(a, s)
    ensures Distinct(subs) ==> Distinct(NotSelected(subs, a))
    ensures a.All? ==> NotSelected(subs, a) == []
  {
    if subs != [] {
      NotSelectedMembers(subs[1..], a);
      assert subs == [subs[0]] + subs[1..];
      if !Selected(a, subs[0]) {
        assert NotSelected(subs, a)[1..] == NotSelected(subs[1..], a);
      } else {
        assert NotSelected(subs, a) == NotSelected(subs[1..], a);
      }
    }
  }

  lemma {:induction false} DeactivateMembers(subs: seq<Subscriber>, s: Subscriber)
    requires Distinct(subs) && s in subs
    ensures var subs' := Deactivate(subs, s.handle);
      && (forall x :: x in subs' <==> x == s.(inactive := true) || (x in subs && x.handle != s.handle))
      && (forall h :: Present(subs', h) <==> Present(subs, h))
      && Distinct(subs') && subs' != []
  {
    var subs' := Deactivate(subs, s.handle);
    assert subs == [subs[0]] + subs[1..];
    if subs[0].handle == s.handle {
      assert subs' == [subs[0].(inactive := true)] + subs[1..];
      assert s == subs[0];
      assert subs'[0].handle == subs[0].handle;
    } else {
      DeactivateMembers(subs[1..], s);
      assert subs'[1..] == Deactivate(subs[1..], s.handle);
    }
    forall h ensures Present(subs', h) <==> Present(subs, h) {
      if Present(subs, h) {
        var x :| x in subs && x.handle == h;
        assert x.handle == s.handle ==> s.(inactive := true) in subs';
      }
    }
  }

  lemma {:induction false} AppendDistinct(subs: seq<Subscriber>, s: Subscriber)
    requires Distinct(subs) && !Present(subs, s.handle)
    ensures Distinct(subs + [s])
  {
    if subs != [] {
      assert subs[0] in subs;
      assert forall x :: x in subs[1..] ==> x in subs;
      AppendDistinct(subs[1..], s);
      assert (subs + [s])[1..] == subs[1..] + [s];
    }
  }

  // ---------- what the calls say ----------

  /** The calls of one round of notifications by the base machine. */
  function Marks(e: Event, subs: seq<Subscriber>, a: Audience): seq<Mark> {
    if subs == [] then []
    else (if Selected(a, subs[0]) then Notify(Initial(false), e, subs[0].handle).trace else [])
         + Marks(e, subs[1..], a)
  }

  lemma {:induction false} NotifyEachAddsMarks(m: Machine, e: Event, subs: seq<Subscriber>, a: Audience)
    requires !m.ds
    ensures NotifyEach(m, e, subs, a) == m.(trace := m.trace + Marks(e, subs, a))
    decreases |subs|
  {
    if subs == [] {
      assert m.trace + [] == m.trace;
    } else {
      var m1 := if Selected(a, subs[0]) then Notify(m, e, subs[0].handle) else m;
      var here := if Selected(a, subs[0]) then Notify(Initial(false), e, subs[0].handle).trace else [];
      assert m1 == m.(trace := m.trace + here);
      NotifyEachAddsMarks(m1, e, subs[1..], a);
      assert m.trace + (here + Marks(e, subs[1..], a)) == m1.trace + Marks(e, subs[1..], a);
    }
  }

  /** Since the last time h asked to join, it has been told that the open succeeded. */
  predicate GrantedTo(trace: seq<Mark>, h: int) {
    trace != [] &&
      var last := trace[|trace| - 1];
      last == OpenStatus(h, true) || (last != Joined(h) && GrantedTo(trace[..|trace| - 1], h))
  }

  /** The last thing the framework was told about the data connection is to open it. */
  predicate Outstanding(trace: seq<Mark>) {
    trace != [] &&
      var last := trace[|trace| - 1];
      last == RequestConn || (last != ReleaseConn && Outstanding(trace[..|trace| - 1]))
  }

  /** Every release was sent while a request was outstanding. */
  predicate NoBareRelease(trace: seq<Mark>) {
    trace != [] ==>
      var last, before := trace[|trace| - 1], trace[..|trace| - 1];
      NoBareRelease(before) && (last == ReleaseConn ==> Outstanding(before))
  }

  function Requests(trace: seq<Mark>): nat {
    if trace == [] then 0
    else Requests(trace[..|trace| - 1]) + if trace[|trace| - 1] == RequestConn then 1 else 0
  }

  lemma AfterOne(trace: seq<Mark>, x: Mark)
    ensures forall h ::
      GrantedTo(trace + [x], h) <==> x == OpenStatus(h, true) || (x != Joined(h) && GrantedTo(trace, h))
    ensures Outstanding(trace + [x]) <==> x == RequestConn || (x != ReleaseConn && Outstanding(trace))
    ensures NoBareRelease(trace + [x]) <==> NoBareRelease(trace) && (x == ReleaseConn ==> Outstanding(trace))
    ensures Requests(trace + [x]) == Requests(trace) + if x == RequestConn then 1 else 0
  {
    assert (trace + [x])[..|trace + [x]| - 1] == trace;
  }

  /** A round of notifications leaves the connection record alone ... */
  lemma {:induction false} ConnAfterMarks(trace: seq<Mark>, e: Event, subs: seq<Subscriber>, a: Audience)
    ensures var t := trace + Marks(e, subs, a);
      && (Outstanding(t) <==> Outstanding(trace))
      && (NoBareRelease(t) <==> NoBareRelease(trace))
      && Requests(t) == Requests(trace)
    decreases |subs|
  {
    if subs == [] {
      assert trace + [] == trace;
    } else {
      var here := FirstMark(trace, e, subs, a);
      ConnAfterMarks(trace + here, e, subs[1..], a);
    }
  }

  /** ... makes exactly the selected subscribers granted when it announces success, and changes nothing
      about grants otherwise. */
  lemma {:induction false} GrantsAfterMarks(trace: seq<Mark>, e: Event, subs: seq<Subscriber>, a: Audience, h: int)
    ensures GrantedTo(trace + Marks(e, subs, a), h) <==>
      GrantedTo(trace, h) || (e.Granted? && exists s | s in subs :: s.handle == h && Selected(a, s))
    decreases |subs|
  {
    if subs == [] {
      assert trace + [] == trace;
    } else {
      var here := FirstMark(trace, e, subs, a);
      assert subs == [subs[0]] + subs[1..];
      GrantsAfterMarks(trace + here, e, subs[1..], a, h);
    }
  }

  /** The calls for the first subscriber, and what they change. */
  lemma FirstMark(trace: seq<Mark>, e: Event, subs: seq<Subscriber>, a: Audience) returns (here: seq<Mark>)
    requires subs != []
    ensures trace + Marks(e, subs, a) == (trace + here) + Marks(e, subs[1..], a)
    ensures forall h :: GrantedTo(trace + here, h) <==>
      GrantedTo(trace, h) || (e.Granted? && subs[0].handle == h && Selected(a, subs[0]))
    ensures Outstanding(trace + here) <==> Outstanding(trace)
    ensures NoBareRelease(trace + here) <==> NoBareRelease(trace)
    ensures Requests(trace + here) == Requests(trace)
  {
    here := if Selected(a, subs[0]) then Notify(Initial(false), e, subs[0].handle).trace else [];
    assert trace + (here + Marks(e, subs[1..], a)) == (trace + here) + Marks(e, subs[1..], a);
    if !Selected(a, subs[0]) || e.Subscribe? {
      assert trace + here == trace;
    } else {
      var x := TheMark(e, subs[0].handle);
      assert here == [x];
      AfterOne(trace, x);
    }
  }

  /** The one call by which the base machine announces e. */
  function TheMark(e: Event, h: int): Mark {
    match e
    case Granted => OpenStatus(h, true)
    case Denied => OpenStatus(h, false)
    case _ => CloseStatus(h, true)
  }

  lemma AfterMarks(trace: seq<Mark>, e: Event, subs: seq<Subscriber>, a: Audience)
    ensures var t := trace + Marks(e, subs, a);
      && (forall h :: GrantedTo(t, h) <==>
            GrantedTo(trace, h) || (e.Granted? && exists s | s in subs :: s.handle == h && Selected(a, s)))
      && (Outstanding(t) <==> Outstanding(trace))
      && (NoBareRelease(t) <==> NoBareRelease(trace))
      && Requests(t) == Requests(trace)
  {
    ConnAfterMarks(trace, e, subs, a);
    forall h {
      GrantsAfterMarks(trace, e, subs, a, h);
    }
  }

  // ---------- the invariant ----------

  ghost predicate Grants(m: Machine) {
    && (m.state.Acquired? ==> forall s | s in m.subs && !s.inactive :: GrantedTo(m.trace, s.handle))
    && (m.state.Pending? || m.state.Releasing? ==>
          forall s | s in m.subs && !s.inactive :: !GrantedTo(m.trace, s.handle))
  }

  ghost predicate ListOk(m: Machine) {
    && Distinct(m.subs)
    && (forall s | s in m.subs && s.inactive :: s.waits)
    && (m.state.Released? ==> m.subs == [])
  }

  ghost predicate ConnOk(m: Machine) {
    && NoBareRelease(m.trace)
    && (m.state.Pending? || m.state.Acquired? ==> Outstanding(m.trace))
  }

  ghost predicate Inv(m: Machine) {
    !m.ds && ListOk(m) && Grants(m) && ConnOk(m)
  }

  /** Who keeps the connection wanted, and who waits for it to close. */
  ghost predicate Occupied(m: Machine) {
    && (m.state.Pending? || m.state.Acquired? ==> AnyActive(m.subs))
    && (m.state.Releasing? ==> exists s | s in m.subs :: s.inactive)
  }

  /** What one operation keeps, and the requests it sends. */
  ghost predicate StepOk(m: Machine, m': Machine) {
    && Inv(m')
    && (Occupied(m) ==> Occupied(m'))
    && Requests(m'.trace) == Requests(m.trace) + if m'.state.Pending? && !m.state.Pending? then 1 else 0
  }

  lemma JoinStep(m0: Machine, s: Subscriber)
    requires Inv(m0) && !s.inactive
    ensures var m := if Present(m0.subs, s.handle) then m0 else Call(m0, [Joined(s.handle)]);
      && Inv(m) && Requests(m.trace) == Requests(m0.trace)
      && Distinct(Add(m, s).subs)
      && (!Present(m0.subs, s.handle) ==> !GrantedTo(m.trace, s.handle))
      && (forall x :: x in Add(m, s).subs <==> x in m0.subs || (x == s && !Present(m0.subs, s.handle)))
  {
    if !Present(m0.subs, s.handle) {
      AfterOne(m0.trace, Joined(s.handle));
      AppendDistinct(m0.subs, s);
    }
  }

  lemma {:induction false} SubscribeStep(m0: Machine, s: Subscriber, env: Env)
    requires Inv(m0) && !s.inactive
    ensures StepOk(m0, OnSubscribe(m0, s, env))
  {
    JoinStep(m0, s);
    var m := if Present(m0.subs, s.handle) then m0 else Call(m0, [Joined(s.handle)]);
    match m.state {
      case Released =>
        assert s in Add(m, s).subs;
        AfterOne(m.trace, RequestConn);
      case Acquired => AcquiredSubscribe(m, s);
      case _ =>
    }
  }

  lemma AcquiredSubscribe(m: Machine, s: Subscriber)
    requires Inv(m) && m.state.Acquired? && !s.inactive && Distinct(Add(m, s).subs)
    requires forall x :: x in Add(m, s).subs <==> x in m.subs || (x == s && !Present(m.subs, s.handle))
    ensures StepOk(m, Add(Notify(m, Granted, s.handle), s))
  {
    AfterOne(m.trace, OpenStatus(s.handle, true));
  }

  lemma LeaveStep(m: Machine, s: Subscriber)
    requires Inv(m) && s in m.subs
    ensures var m1 := Leave(m, s);
      && m1.state == m.state && m1.ds == m.ds
      && Distinct(m1.subs) && (forall x | x in m1.subs && x.inactive :: x.waits)
      && Grants(m1) && ConnOk(m1) && Requests(m1.trace) == Requests(m.trace)
      && (forall x | x in m1.subs && !x.inactive :: x in m.subs)
      && (forall x | x in m.subs && x.inactive :: x in m1.subs || s.waits)
      && (s.waits ==> exists x | x in m1.subs :: x.inactive)
  {
    if s.waits {
      DeactivateMembers(m.subs, s);
    } else {
      WithoutMembers(m.subs, s.handle);
      AfterOne(m.trace, CloseStatus(s.handle, true));
      forall x | x in m.subs && x.inactive ensures x.handle != s.handle {
        if x.handle == s.handle { SameHandleSame(m.subs, x, s); }
      }
    }
  }

  lemma {:induction false} SameHandleSame(subs: seq<Subscriber>, x: Subscriber, y: Subscriber)
    requires Distinct(subs) && x in subs && y in subs && x.handle == y.handle
    ensures x == y
  {
    assert subs == [subs[0]] + subs[1..];
    if x in subs[1..] && y in subs[1..] {
      SameHandleSame(subs[1..], x, y);
    }
  }

  lemma UnsubscribeStep(m: Machine, s: Subscriber, env: Env)
    requires Inv(m) && s in m.subs
    ensures StepOk(m, OnUnsubscribe(m, s, env))
  {
    LeaveStep(m, s);
    var m1 := Leave(m, s);
    AfterOne(m1.trace, ReleaseConn);
    assert m1.subs != [] ==> m1.subs[0] in m1.subs;
  }

  lemma GrantedStep(m: Machine)
    requires Inv(m)
    ensures StepOk(m, OnGranted(m))
  {
    NotifyEachAddsMarks(m.(state := Acquired), Granted, m.subs, Active);
    AfterMarks(m.trace, Granted, m.subs, Active);
  }

  lemma ReopenStep(m: Machine, env: Env)
    requires Inv(m) && m.state.Releasing?
    ensures StepOk(m, Reopen(m, env))
  {
    NotifyEachAddsMarks(m, ReleasedEvent, m.subs, Inactive);
    AfterMarks(m.trace, ReleasedEvent, m.subs, Inactive);
    NotSelectedMembers(m.subs, Inactive);
    var m1 := NotifyAll(m, ReleasedEvent, true, Inactive);
    AfterOne(m1.trace, RequestConn);
    assert m1.subs != [] ==> m1.subs[0] in m1.subs;
  }

  lemma EmptiedStep(m: Machine, e: Event)
    requires Inv(m) && (e.ReleasedEvent? || e.Denied?)
    ensures StepOk(m, NotifyAll(m.(state := Released), e, true, All))
  {
    NotifyEachAddsMarks(m.(state := Released), e, m.subs, All);
    AfterMarks(m.trace, e, m.subs, All);
    NotSelectedMembers(m.subs, All);
  }

  lemma StepKeepsInv(m: Machine, op: Op, env: Env)
    requires Inv(m)
    ensures Inv(Do(m, op, env))
    ensures !op.Drop? ==> StepOk(m, Do(m, op, env))
  {
    match op {
      case Request(h, waits) => SubscribeStep(m, Subscriber(h, waits, false), env);
      case Release(h) => if Find(m.subs, h).Some? { UnsubscribeStep(m, Find(m.subs, h).value, env); }
      case Opened => GrantedStep(m);
      case Closed =>
        if m.state.Acquired? { EmptiedStep(m, ReleasedEvent); }
        else if m.state.Releasing? { ReopenStep(m, env); }
      case Refused =>
        if m.state.Pending? { EmptiedStep(m, Denied); }
        else if m.state.Releasing? { ReopenStep(m, env); }
      case Drop =>
    }
  }

  lemma {:induction false} RunKeepsInv(ops: seq<(Op, Env)>)
    ensures Inv(DoAll(Initial(false), ops))
    ensures (forall i | 0 <= i < |ops| :: !ops[i].0.Drop?) ==> Occupied(DoAll(Initial(false), ops))
  {
    if ops != [] {
      var before := ops[..|ops| - 1];
      RunKeepsInv(before);
      StepKeepsInv(DoAll(Initial(false), before), ops[|ops| - 1].0, ops[|ops| - 1].1);
      assert forall i | 0 <= i < |before| :: before[i] == ops[i];
    }
  }

  // ---------- the theorems ----------

  /** State and list agree: handles are distinct, whoever is inactive waits for the close, RELEASED
      means nobody is left; and unless a modem restart dropped everybody, PENDING and ACQUIRED have an
      active subscriber and RELEASING an inactive one. */
  lemma {:induction false} StateAndListAgree(ops: seq<(Op, Env)>)
    ensures var m := DoAll(Initial(false), ops);
      && Distinct(m.subs)
      && (forall s | s in m.subs && s.inactive :: s.waits)
      && (m.state.Released? ==> m.subs == [])
      && ((forall i | 0 <= i < |ops| :: !ops[i].0.Drop?) ==>
            && (m.state.Pending? || m.state.Acquired? ==> exists s | s in m.subs :: !s.inactive)
            && (m.state.Releasing? ==> exists s | s in m.subs :: s.inactive))
  {
    RunKeepsInv(ops);
  }

  /** Grants: in ACQUIRED every active subscriber has been told of success since it asked to join, in
      PENDING and RELEASING none has. */
  lemma GrantDiscipline(ops: seq<(Op, Env)>, s: Subscriber)
    requires s in DoAll(Initial(false), ops).subs && !s.inactive
    ensures var m := DoAll(Initial(false), ops);
      m.state.Acquired? <==> GrantedTo(m.trace, s.handle)
  {
    RunKeepsInv(ops);
  }

  /** The framework is asked for a connection exactly when the machine enters PENDING, and told to
      release one only while a request is outstanding. */
  lemma {:induction false} ConnectionDiscipline(ops: seq<(Op, Env)>, op: Op, env: Env)
    ensures var m := DoAll(Initial(false), ops);
      var m' := Do(m, op, env);
      && Requests(m'.trace) - Requests(m.trace) == (if m'.state.Pending? && !m.state.Pending? then 1 else 0)
      && NoBareRelease(m'.trace)
      && (m'.state.Pending? || m'.state.Acquired? ==> Outstanding(m'.trace))
  {
    RunKeepsInv(ops);
    StepKeepsInv(DoAll(Initial(false), ops), op, env);
  }
}
