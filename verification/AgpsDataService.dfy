/** The data-service machine: bounded retries, and the fallback to an ordinary SUPL request. */
module AgpsDataService {
  import opened Wrappers
  import opened AgpsModel
  import opened AgpsRuns

  predicate RetriesOk(m: Machine) {
    m.ds && 0 <= m.retries <= MAX_RETRIES
  }

  lemma {:induction false} NotifyEachKeepsRetries(m: Machine, e: Event, subs: seq<Subscriber>, a: Audience)
    requires RetriesOk(m)
    ensures RetriesOk(NotifyEach(m, e, subs, a))
    decreases |subs|
  {
    if subs != [] {
      NotifyEachKeepsRetries(if Selected(a, subs[0]) then Notify(m, e, subs[0].handle) else m, e, subs[1..], a);
    }
  }

  lemma ReopenKeepsRetries(m: Machine, env: Env)
    requires RetriesOk(m)
    ensures RetriesOk(Reopen(m, env))
  {
    NotifyEachKeepsRetries(m, ReleasedEvent, m.subs, Inactive);
  }

  lemma UnsubscribeKeepsRetries(m: Machine, s: Subscriber, env: Env)
    requires RetriesOk(m)
    ensures RetriesOk(OnUnsubscribe(m, s, env))
  {
    assert RetriesOk(Leave(m, s));
  }

  lemma StepKeepsRetries(m: Machine, op: Op, env: Env)
    requires RetriesOk(m)
    ensures RetriesOk(Do(m, op, env))
  {
    match op {
      case Request(_, _) =>
      case Release(h) => if Find(m.subs, h).Some? { UnsubscribeKeepsRetries(m, Find(m.subs, h).value, env); }
      case Drop =>
      case _ =>
        ReopenKeepsRetries(m, env);
        NotifyEachKeepsRetries(m.(state := Acquired), Granted, m.subs, Active);
        NotifyEachKeepsRetries(m.(state := Released), ReleasedEvent, m.subs, All);
        NotifyEachKeepsRetries(m.(state := Released), Denied, m.subs, All);
    }
  }

  /** Over every run the retry count stays between 0 and 4. */
  lemma {:induction false} RetriesAreBounded(ops: seq<(Op, Env)>)
    ensures RetriesOk(DoAll(Initial(true), ops))
  {
    if ops != [] {
      RetriesAreBounded(ops[..|ops| - 1]);
      StepKeepsRetries(DoAll(Initial(true), ops[..|ops| - 1]), ops[|ops| - 1].0, ops[|ops| - 1].1);
    }
  }

  // ---------- a chain of busy answers ----------

  /** retryCallback: whose request the retry timer posts again. */
  function RetryHandle(m: Machine): Option<int> {
    match FirstActive(m.subs)
    case None => None
    case Some(s) => Some(s.handle)
  }

  /** One attempt for the first active subscriber, answered busy. */
  function BusyAttempt(m: Machine, hasStop: bool): Machine
    requires AnyActive(m.subs)
  {
    Do(m, Request(RetryHandle(m).value, true), Env(Busy, true, hasStop))
  }

  /** Attempts answered busy, one after another as long as each starts the retry timer. */
  function BusyChain(m: Machine, hasStop: bool, fuel: nat): Machine
    requires AnyActive(m.subs)
    decreases fuel
  {
    var m1 := BusyAttempt(m, hasStop);
    if fuel > 0 && AnyActive(m1.subs) && m1.trace != [] && m1.trace[|m1.trace| - 1] == StartTimer
    then BusyChain(m1, hasStop, fuel - 1) else m1
  }

  function Attempts(n: nat): seq<Mark> {
    if n == 0 then [] else [DsOpen(Busy), StartTimer] + Attempts(n - 1)
  }

  lemma BusyAttemptEffect(m: Machine, hasStop: bool)
    requires RetriesOk(m) && m.state.Released? && AnyActive(m.subs)
    ensures BusyAttempt(m, hasStop) ==
      if m.retries < MAX_RETRIES then m.(retries := m.retries + 1, trace := m.trace + [DsOpen(Busy), StartTimer])
      else m.(retries := 0, trace := m.trace + [DsOpen(Busy), PostSuplRequest(RetryHandle(m).value)])
  {
  }

  /** With nothing else happening, busy answers make exactly five attempts in all (those already
      counted included), then post one SUPL request and stop: no timer is left running. */
  lemma {:induction false} BusyChainEndsInOneFallback(m: Machine, hasStop: bool, fuel: nat)
    requires RetriesOk(m) && m.state.Released? && AnyActive(m.subs)
    requires fuel >= MAX_RETRIES - m.retries
    ensures BusyChain(m, hasStop, fuel) ==
      m.(retries := 0,
         trace := m.trace + Attempts(MAX_RETRIES - m.retries) + [DsOpen(Busy), PostSuplRequest(RetryHandle(m).value)])
    decreases MAX_RETRIES - m.retries
  {
    BusyAttemptEffect(m, hasStop);
    var m1 := BusyAttempt(m, hasStop);
    if m.retries < MAX_RETRIES {
      BusyChainEndsInOneFallback(m1, hasStop, fuel - 1);
      assert m.trace + ([DsOpen(Busy), StartTimer] + Attempts(MAX_RETRIES - m1.retries))
          == m1.trace + Attempts(MAX_RETRIES - m1.retries);
    } else {
      assert m.trace + Attempts(0) == m.trace;
    }
  }

  // ---------- what a busy answer leads to ----------

  /** Between m and m' the mark was made. */
  predicate Made(m: Machine, m': Machine, x: Mark) {
    m.trace <= m'.trace && x in m'.trace[|m.trace|..]
  }

  /** The retry timer of m' expires: its first active subscriber asks again. */
  function Retry(m: Machine, env: Env): Machine
    requires AnyActive(m.subs)
  {
    Do(m, Request(RetryHandle(m).value, true), env)
  }

  /** Whatever happens to a machine, if it starts the retry timer the answer was busy, and the machine was
      RELEASED and stays so, or was RELEASING and is PENDING; and it has an active subscriber to retry for. */
  lemma TimerStartedBy(m: Machine, op: Op, env: Env)
    requires m.ds && Made(m, Do(m, op, env), StartTimer)
    ensures env.open.Busy? && AnyActive(Do(m, op, env).subs)
    ensures
      || (op.Request? && m.state.Released? && Do(m, op, env).state.Released?)
      || ((op.Closed? || op.Refused?) && m.state.Releasing? && Do(m, op, env).state.Pending?)
  {
    match op {
      case Request(h, waits) => RequestTimer(m, Subscriber(h, waits, false), env);
      case Release(h) => if Find(m.subs, h).Some? { ReleaseStartsNoTimer(m, Find(m.subs, h).value, env); }
      case Opened => RoundStartsNoTimer(m, m.(state := Acquired), Granted, m.subs, Active);
      case Drop =>
      case _ =>
        if m.state.Releasing? {
          ReopenTimer(m, env);
        } else {
          RoundStartsNoTimer(m, m.(state := Released), ReleasedEvent, m.subs, All);
          RoundStartsNoTimer(m, m.(state := Released), Denied, m.subs, All);
        }
    }
  }

  lemma RequestTimer(m: Machine, s: Subscriber, env: Env)
    requires m.ds && !s.inactive && Made(m, OnSubscribe(m, s, env), StartTimer)
    ensures env.open.Busy? && m.state.Released?
    ensures OnSubscribe(m, s, env).state.Released? && AnyActive(OnSubscribe(m, s, env).subs)
  {
  }

  lemma ReleaseStartsNoTimer(m: Machine, s: Subscriber, env: Env)
    requires m.ds
    ensures !Made(m, OnUnsubscribe(m, s, env), StartTimer)
  {
  }

  /** A round of notifications is about the subscribers and never starts the timer. */
  lemma {:induction false} RoundStartsNoTimer(m0: Machine, m: Machine, e: Event, subs: seq<Subscriber>, a: Audience)
    requires m0.trace <= m.trace && StartTimer !in m.trace[|m0.trace|..]
    ensures m0.trace <= NotifyEach(m, e, subs, a).trace && !Made(m0, NotifyEach(m, e, subs, a), StartTimer)
    decreases |subs|
  {
    if subs != [] {
      RoundStartsNoTimer(m0, if Selected(a, subs[0]) then Notify(m, e, subs[0].handle) else m, e, subs[1..], a);
    }
  }

  lemma ReopenTimer(m: Machine, env: Env)
    requires m.ds && Made(m, Reopen(m, env), StartTimer)
    ensures env.open.Busy? && Reopen(m, env).state.Pending? && AnyActive(Reopen(m, env).subs)
  {
    RoundStartsNoTimer(m, m, ReleasedEvent, m.subs, Inactive);
  }

  /** A busy answer is followed by another attempt, when the retry timer expires, if and only if the machine
      was RELEASED when it got the answer. Otherwise it was reopening, and the retry changes nothing. */
  lemma {:induction false} BusyIsRetriedIffReleased(m: Machine, op: Op, env: Env, later: Env)
    requires m.ds && Made(m, Do(m, op, env), StartTimer) && later.hasStart
    ensures var m' := Do(m, op, env);
      && AnyActive(m'.subs)
      && (Made(m', Retry(m', later), DsOpen(later.open)) <==> m.state.Released?)
      && (!m.state.Released? ==> m.state.Releasing? && m'.state.Pending? && Retry(m', later) == m')
  {
    TimerStartedBy(m, op, env);
    var m' := Do(m, op, env);
    assert Present(m'.subs, RetryHandle(m').value);
    if m'.state.Released? {
      RetryOpens(m', later);
    }
  }

  lemma RetryOpens(m: Machine, env: Env)
    requires m.ds && m.state.Released? && AnyActive(m.subs) && env.hasStart
    ensures Made(m, Retry(m, env), DsOpen(env.open))
  {
    assert Present(m.subs, RetryHandle(m).value);
    assert m.trace + [DsOpen(env.open)] <= Retry(m, env).trace;
    assert Retry(m, env).trace[|m.trace|] == DsOpen(env.open);
  }

  const FINE := Env(Success, true, true)

  /** The second case happens: while a call is released a new subscriber arrives, and when the release
      completes the framework answers busy. */
  const REOPENING: seq<(Op, Env)> := [(Request(1, true), FINE), (Release(1), FINE), (Request(2, true), FINE)]

  lemma ReopeningState()
    ensures DoAll(Initial(true), REOPENING) ==
      Machine(true, Releasing, [Subscriber(1, true, true), Subscriber(2, true, false)], 0,
              [Joined(1), DsOpen(Success), DsStop, Joined(2)])
  {
    var a, b := Subscriber(1, true, false), Subscriber(2, true, false);
    var m1 := Do(Initial(true), Request(1, true), FINE);
    assert a in [a];
    assert m1 == Machine(true, Pending, [a], 0, [Joined(1), DsOpen(Success)]);
    var m2 := Do(m1, Release(1), FINE);
    assert Find([a], 1) == Some(a);
    assert Deactivate([a], 1) == [a.(inactive := true)];
    assert m2 == Machine(true, Releasing, [a.(inactive := true)], 0, [Joined(1), DsOpen(Success), DsStop]);
    var m3 := Do(m2, Request(2, true), FINE);
    assert m3.subs == [a.(inactive := true), b];
    DoAllOneMore(Initial(true), [], REOPENING[0]);
    DoAllOneMore(Initial(true), REOPENING[..1], REOPENING[1]);
    DoAllOneMore(Initial(true), REOPENING[..2], REOPENING[2]);
    assert [] + [REOPENING[0]] == REOPENING[..1] && REOPENING[..1] + [REOPENING[1]] == REOPENING[..2];
    assert REOPENING[..2] + [REOPENING[2]] == REOPENING;
  }

  lemma DoAllOneMore(m: Machine, ops: seq<(Op, Env)>, op: (Op, Env))
    ensures DoAll(m, ops + [op]) == Do(DoAll(m, ops), op.0, op.1)
  {
    assert (ops + [op])[..|ops|] == ops;
  }

  lemma BusyReopeningStalls()
    ensures
      var m := DoAll(Initial(true), REOPENING);
      var m1 := Do(m, Closed, Env(Busy, true, true));
      && m.state == Releasing && m.subs == [Subscriber(1, true, true), Subscriber(2, true, false)]
      && m1.state == Pending && m1.subs == [Subscriber(2, true, false)]
      && Made(m, m1, StartTimer) && Retry(m1, FINE) == m1
  {
    ReopeningState();
    var m := DoAll(Initial(true), REOPENING);
    var m1 := ReopenedBusy(m);
    assert m1.trace[|m.trace| + 3] == StartTimer;
    assert m1.subs[0] in m1.subs && Present(m1.subs, 2);
  }

  lemma ReopenedBusy(m: Machine) returns (m1: Machine)
    requires m.ds && m.state.Releasing? && m.retries == 0
    requires m.subs == [Subscriber(1, true, true), Subscriber(2, true, false)]
    ensures m1 == Do(m, Closed, Env(Busy, true, true))
    ensures m1 == Machine(true, Pending, [Subscriber(2, true, false)], 1,
                          m.trace + [DsClose, CloseStatus(1, true), DsOpen(Busy), StartTimer])
  {
    var a, b := m.subs[0], m.subs[1];
    m1 := Do(m, Closed, Env(Busy, true, true));
    assert [a, b][1..] == [b];
    assert NotSelected([b], Inactive) == [b];
    assert b in [b] && FirstActive([b]) == Some(b);
    var m0 := NotifyAll(m, ReleasedEvent, true, Inactive);
    assert NotifyEach(m, ReleasedEvent, [a, b], Inactive)
        == NotifyEach(Notify(m, ReleasedEvent, 1), ReleasedEvent, [b], Inactive)
        == NotifyEach(Notify(m, ReleasedEvent, 1), ReleasedEvent, [b][1..], Inactive);
    assert m0.subs == [b] && m0.trace == m.trace + [DsClose, CloseStatus(1, true)];
    assert m1.trace == (m0.trace + [DsOpen(Busy)]) + [StartTimer];
  }

  // ---------- is there a data call ----------

  /** The last thing that took effect on the data call was to open it: the driver accepted an open, and was not
      told to stop, close or release since. */
  predicate Stands(trace: seq<Mark>) {
    trace != [] &&
      var last := trace[|trace| - 1];
      last == DsOpen(Success) || (!EndsCall(last) && Stands(trace[..|trace| - 1]))
  }

  predicate EndsCall(x: Mark) {
    x.DsStop? || x.DsClose? || x.DsRelease?
  }

  lemma StandsAfter(trace: seq<Mark>, x: Mark)
    ensures Stands(trace + [x]) <==> x == DsOpen(Success) || (!EndsCall(x) && Stands(trace))
  {
    assert (trace + [x])[..|trace|] == trace;
  }

  /** A round of notifications closes the call exactly when it tells somebody of the release. */
  lemma {:induction false} RoundStands(m: Machine, e: Event, subs: seq<Subscriber>, a: Audience)
    requires m.ds
    ensures var m' := NotifyEach(m, e, subs, a);
      && m'.ds && m'.state == m.state && m'.subs == m.subs
      && (Stands(m'.trace) <==> Stands(m.trace) && !(e.ReleasedEvent? && exists s | s in subs :: Selected(a, s)))
    decreases |subs|
  {
    if subs != [] {
      NotifyStands(m, e, subs[0].handle);
      assert subs == [subs[0]] + subs[1..];
      RoundStands(if Selected(a, subs[0]) then Notify(m, e, subs[0].handle) else m, e, subs[1..], a);
    }
  }

  lemma NotifyStands(m: Machine, e: Event, h: int)
    requires m.ds
    ensures Stands(Notify(m, e, h).trace) <==> Stands(m.trace) && !e.ReleasedEvent?
  {
    match e {
      case Granted => StandsAfter(m.trace, OpenStatus(h, true));
      case Denied => StandsAfter(m.trace, PostSuplRequest(h));
      case ReleasedEvent =>
        StandsAfter(m.trace, DsClose);
        StandsAfter(m.trace + [DsClose], CloseStatus(h, true));
        assert Notify(m, e, h).trace == (m.trace + [DsClose]) + [CloseStatus(h, true)];
      case Unsubscribe => StandsAfter(m.trace, CloseStatus(h, true));
      case Subscribe =>
    }
  }

  /** A connection is being set up, or is there. */
  predicate Up(m: Machine) {
    m.state.Pending? || m.state.Acquired?
  }

  /** Who waits for the release to complete; nobody does only if the call is gone already. */
  ghost predicate DsInv(m: Machine) {
    && m.ds && Distinct(m.subs)
    && (forall s | s in m.subs && s.inactive :: s.waits)
    && (m.state.Releasing? ==> (exists s | s in m.subs :: s.inactive) || !Stands(m.trace))
  }

  /** What one operation does to the call: while the machine stays up only a modem restart ends it; and it
      comes up with a call if and only if the open was accepted. */
  ghost predicate CallStep(m: Machine, op: Op, env: Env, m': Machine) {
    && DsInv(m')
    && (Up(m) && Up(m') ==> (Stands(m'.trace) <==> Stands(m.trace) && !op.Drop?))
    && (!Up(m) && Up(m') ==> m'.state.Pending? && (Stands(m'.trace) <==> env.hasStart && env.open.Success?))
    && (m.state.Released? && Up(m') ==> env.hasStart && env.open.Success?)
  }

  /** Making or releasing the connection: at most the last call made concerns it. */
  lemma RequestStands(m: Machine, request: bool, env: Env)
    requires m.ds
    ensures var m' := RequestOrRelease(m, request, env).0;
      && m'.ds && m'.state == m.state && m'.subs == m.subs
      && (!request && !AnyActive(m.subs) ==> (Stands(m'.trace) <==> Stands(m.trace) && !env.hasStop))
      && (request && AnyActive(m.subs) ==>
            (Stands(m'.trace) <==> Stands(m.trace) || (env.hasStart && env.open.Success?)))
      && (RequestOrRelease(m, request, env).1 && request ==> env.hasStart && env.open.Success?)
  {
    StandsAfter(m.trace, DsStop);
    match FirstActive(m.subs) {
      case None =>
      case Some(s) =>
        StandsAfter(m.trace, PostSuplRequest(s.handle));
        StandsAfter(m.trace, DsOpen(env.open));
        StandsAfter(m.trace + [DsOpen(env.open)], PostSuplRequest(s.handle));
        StandsAfter(m.trace + [DsOpen(env.open)], StartTimer);
    }
  }

  lemma RequestCall(m0: Machine, h: int, waits: bool, env: Env)
    requires DsInv(m0)
    ensures CallStep(m0, Request(h, waits), env, OnSubscribe(m0, Subscriber(h, waits, false), env))
  {
    var s := Subscriber(h, waits, false);
    var m := if Present(m0.subs, h) then m0 else Call(m0, [Joined(h)]);
    StandsAfter(m0.trace, Joined(h));
    StandsAfter(m.trace, OpenStatus(h, true));
    if !Present(m0.subs, h) {
      AppendDistinct(m0.subs, s);
    }
    assert forall x :: x in m0.subs + [s] <==> x in m0.subs || x == s;
    if m.state.Released? {
      RequestStands(Add(m, s), true, env);
    }
  }

  lemma ReleaseCall(m: Machine, s: Subscriber, env: Env)
    requires DsInv(m) && s in m.subs
    ensures CallStep(m, Release(s.handle), env, OnUnsubscribe(m, s, env))
  {
    NotifyStands(m, Unsubscribe, s.handle);
    if !m.state.Released? {
      LeftDistinct(m, s);
      LeftCall(m, Leave(m, s), s, env);
    }
  }

  lemma LeftCall(m: Machine, m1: Machine, s: Subscriber, env: Env)
    requires m.ds && m1 == Leave(m, s) && !m.state.Released?
    requires Stands(m1.trace) <==> Stands(m.trace)
    ensures var m' := OnUnsubscribe(m, s, env);
      && m'.ds && m'.subs == m1.subs
      && (Up(m') ==> m'.state == m.state && (Stands(m'.trace) <==> Stands(m.trace)))
      && (m'.state.Releasing? && m.state.Releasing? ==> (Stands(m'.trace) <==> Stands(m.trace)))
      && (m'.state.Releasing? && !m.state.Releasing? ==> m1.subs != [] && forall x | x in m1.subs :: x.inactive)
  {
    RequestStands(m1.(state := Released), false, env);
    RequestStands(m1.(state := Releasing), false, env);
  }

  lemma LeftDistinct(m: Machine, s: Subscriber)
    requires DsInv(m) && s in m.subs
    ensures var m1 := Leave(m, s);
      && Distinct(m1.subs) && (forall x | x in m1.subs && x.inactive :: x.waits)
      && ((exists x | x in m.subs :: x.inactive) ==> exists x | x in m1.subs :: x.inactive)
  {
    if s.waits {
      DeactivateMembers(m.subs, s);
    } else {
      WithoutMembers(m.subs, s.handle);
      forall x | x in m.subs && x.inactive ensures x.handle != s.handle {
        if x.handle == s.handle { SameHandleSame(m.subs, x, s); }
      }
    }
  }

  lemma ReopenCall(m: Machine, op: Op, env: Env)
    requires DsInv(m) && m.state.Releasing?
    ensures CallStep(m, op, env, Reopen(m, env))
  {
    RoundStands(m, ReleasedEvent, m.subs, Inactive);
    NotSelectedMembers(m.subs, Inactive);
    var m1 := NotifyAll(m, ReleasedEvent, true, Inactive);
    RequestStands(m1.(state := Pending), true, env);
  }

  lemma EmptiedCall(m: Machine, op: Op, env: Env, e: Event)
    requires DsInv(m)
    ensures CallStep(m, op, env, NotifyAll(m.(state := Released), e, true, All))
  {
    RoundStands(m.(state := Released), e, m.subs, All);
    NotSelectedMembers(m.subs, All);
  }

  lemma OpenedCall(m: Machine, env: Env)
    requires DsInv(m)
    ensures CallStep(m, Opened, env, OnGranted(m))
  {
    RoundStands(m.(state := Acquired), Granted, m.subs, Active);
  }

  lemma DropCall(m: Machine, env: Env)
    requires DsInv(m)
    ensures CallStep(m, Drop, env, Do(m, Drop, env)) && !Stands(Do(m, Drop, env).trace)
  {
    var t := m.trace + [DsStop, DsClose];
    StandsAfter(t, DsRelease);
    StandsAfter(t + [DsRelease], DsInit(true));
    assert m.trace + DRIVER_RESTART == (t + [DsRelease]) + [DsInit(true)];
  }

  lemma OpCall(m: Machine, op: Op, env: Env)
    requires DsInv(m)
    ensures CallStep(m, op, env, Do(m, op, env))
  {
    match op {
      case Request(h, waits) => RequestCall(m, h, waits, env);
      case Release(h) => if Find(m.subs, h).Some? { ReleaseCall(m, Find(m.subs, h).value, env); }
      case Opened => OpenedCall(m, env);
      case Drop => DropCall(m, env);
      case _ =>
        if m.state.Releasing? {
          ReopenCall(m, op, env);
        } else {
          EmptiedCall(m, op, env, ReleasedEvent);
          EmptiedCall(m, op, env, Denied);
        }
    }
  }

  function Reached(ops: seq<(Op, Env)>): Machine {
    DoAll(Initial(true), ops)
  }

  lemma {:induction false} RunKeepsDsInv(ops: seq<(Op, Env)>)
    ensures DsInv(Reached(ops))
  {
    if ops != [] {
      RunKeepsDsInv(ops[..|ops| - 1]);
      OpCall(Reached(ops[..|ops| - 1]), ops[|ops| - 1].0, ops[|ops| - 1].1);
    }
  }

  /** The operation by which the machine last came up: it entered the PENDING it is in, or was in before
      ACQUIRED. */
  function Entry(ops: seq<(Op, Env)>): (i: nat)
    requires Up(Reached(ops))
    ensures i < |ops|
  {
    if Up(Reached(ops[..|ops| - 1])) then Entry(ops[..|ops| - 1]) else |ops| - 1
  }

  predicate DroppedAfter(ops: seq<(Op, Env)>, i: nat) {
    exists k | i < k < |ops| :: ops[k].0.Drop?
  }

  lemma DroppedLastOrBefore(ops: seq<(Op, Env)>, i: nat)
    requires i < |ops| - 1
    ensures DroppedAfter(ops, i) <==> ops[|ops| - 1].0.Drop? || DroppedAfter(ops[..|ops| - 1], i)
  {
    var before := ops[..|ops| - 1];
    assert forall k | 0 <= k < |before| :: before[k] == ops[k];
  }

  /** In every run, in PENDING and in ACQUIRED, there is a data call if and only if the machine came up with
      an accepted open and the modem has not restarted since. */
  lemma {:induction false} CallStandsIff(ops: seq<(Op, Env)>)
    requires Up(Reached(ops))
    ensures var i := Entry(ops);
      Stands(Reached(ops).trace) <==> ops[i].1.hasStart && ops[i].1.open.Success? && !DroppedAfter(ops, i)
  {
    var before, last := ops[..|ops| - 1], ops[|ops| - 1];
    RunKeepsDsInv(before);
    OpCall(Reached(before), last.0, last.1);
    if Up(Reached(before)) {
      CallStandsIff(before);
      assert before[Entry(before)] == ops[Entry(ops)];
      DroppedLastOrBefore(ops, Entry(ops));
    }
  }

  /** Coming from RELEASED the open is always accepted; otherwise the machine was reopening, and comes up
      whatever the answer. */
  lemma {:induction false} CameUpFrom(ops: seq<(Op, Env)>)
    requires Up(Reached(ops))
    ensures var m, env := Reached(ops[..Entry(ops)]), ops[Entry(ops)].1;
      && (m.state.Released? || m.state.Releasing?)
      && (m.state.Released? ==> env.hasStart && env.open.Success?)
  {
    var before, last := ops[..|ops| - 1], ops[|ops| - 1];
    if Up(Reached(before)) {
      CameUpFrom(before);
      assert before[..Entry(before)] == ops[..Entry(ops)];
      assert before[Entry(before)] == ops[Entry(ops)];
    } else {
      RunKeepsDsInv(before);
      OpCall(Reached(before), last.0, last.1);
    }
  }

  /** A modem restart leaves the machine up with no call. A subscriber that comes later waits in PENDING for a
      call nobody opens, or is told in ACQUIRED that it has one. */
  lemma RestartLeavesNoCall(acquired: bool)
    ensures var early := [(Request(1, true), FINE)] + if acquired then [(Opened, FINE)] else [];
      var m := Reached(early + [(Drop, FINE)] + [(Request(2, true), FINE)]);
      && !Stands(m.trace) && m.subs == [Subscriber(2, true, false)]
      && m.state == (if acquired then Acquired else Pending)
      && (acquired ==> m.trace[|m.trace| - 1] == OpenStatus(2, true))
  {
    var m := EarlyState(acquired);
    var early := [(Request(1, true), FINE)] + if acquired then [(Opened, FINE)] else [];
    RunKeepsDsInv(early);
    OpCall(m, Drop, FINE);
    DropCall(m, FINE);
    OpCall(Do(m, Drop, FINE), Request(2, true), FINE);
    DoAllOneMore(Initial(true), early, (Drop, FINE));
    DoAllOneMore(Initial(true), early + [(Drop, FINE)], (Request(2, true), FINE));
  }

  lemma EarlyState(acquired: bool) returns (m: Machine)
    ensures m == Reached([(Request(1, true), FINE)] + if acquired then [(Opened, FINE)] else [])
    ensures m.ds && m.state == if acquired then Acquired else Pending
  {
    m := Do(Initial(true), Request(1, true), FINE);
    assert Subscriber(1, true, false) in [Subscriber(1, true, false)];
    DoAllOneMore(Initial(true), [], (Request(1, true), FINE));
    assert [] + [(Request(1, true), FINE)] == [(Request(1, true), FINE)] == [(Request(1, true), FINE)] + [];
    if acquired {
      RoundStands(m.(state := Acquired), Granted, m.subs, Active);
      DoAllOneMore(Initial(true), [(Request(1, true), FINE)], (Opened, FINE));
      m := Do(m, Opened, FINE);
    }
  }

  // ---------- told that it is gone, and yet there ----------

  /** A handle that its own release tells of the close is still in the list afterwards if and only if the
      machine was RELEASED, waiting for a retry. */
  lemma ToldClosedStaysIff(m: Machine, h: int, env: Env)
    requires m.ds && Present(m.subs, h) && Made(m, Do(m, Release(h), env), CloseStatus(h, true))
    ensures Present(Do(m, Release(h), env).subs, h) <==> m.state.Released?
  {
    WithoutMembers(m.subs, h);
    WaitingIsNotTold(m, Find(m.subs, h).value, env);
    if !m.state.Released? {
      LeftSubs(m, Find(m.subs, h).value, env);
    }
  }

  lemma WaitingIsNotTold(m: Machine, s: Subscriber, env: Env)
    requires m.ds
    ensures s.waits && !m.state.Released? ==> !Made(m, OnUnsubscribe(m, s, env), CloseStatus(s.handle, true))
  {
  }

  lemma LeftSubs(m: Machine, s: Subscriber, env: Env)
    requires m.ds && !m.state.Released?
    ensures OnUnsubscribe(m, s, env).subs == Leave(m, s).subs
  {
  }

  /** Then the retry opens a call for it, and it is told of success after having been told of the close. */
  const TOLD_TWICE: seq<(Op, Env)> :=
    [(Request(1, true), Env(Busy, true, true)), (Release(1), FINE), (Request(1, true), FINE), (Opened, FINE)]

  lemma ToldClosedThenOpened()
    ensures Reached(TOLD_TWICE) ==
      Machine(true, Acquired, [Subscriber(1, true, false)], 1,
              [Joined(1), DsOpen(Busy), StartTimer, CloseStatus(1, true), DsOpen(Success), OpenStatus(1, true)])
  {
    var a := Subscriber(1, true, false);
    assert a in [a] && Find([a], 1) == Some(a);
    var m1 := Do(Initial(true), Request(1, true), Env(Busy, true, true));
    assert m1 == Machine(true, Released, [a], 1, [Joined(1), DsOpen(Busy), StartTimer]);
    var m2 := Do(m1, Release(1), FINE);
    assert m2 == m1.(trace := m1.trace + [CloseStatus(1, true)]);
    var m3 := Do(m2, Request(1, true), FINE);
    assert m3 == m2.(state := Pending, trace := m2.trace + [DsOpen(Success)]);
    var m4 := Do(m3, Opened, FINE);
    assert m4 == m3.(state := Acquired, trace := m3.trace + [OpenStatus(1, true)]);
    DoAllOneMore(Initial(true), [], TOLD_TWICE[0]);
    DoAllOneMore(Initial(true), TOLD_TWICE[..1], TOLD_TWICE[1]);
    DoAllOneMore(Initial(true), TOLD_TWICE[..2], TOLD_TWICE[2]);
    DoAllOneMore(Initial(true), TOLD_TWICE[..3], TOLD_TWICE[3]);
    assert [] + [TOLD_TWICE[0]] == TOLD_TWICE[..1] && TOLD_TWICE[..1] + [TOLD_TWICE[1]] == TOLD_TWICE[..2];
    assert TOLD_TWICE[..2] + [TOLD_TWICE[2]] == TOLD_TWICE[..3];
    assert TOLD_TWICE[..3] + [TOLD_TWICE[3]] == TOLD_TWICE;
  }

  // ---------- a call that fails ----------

  function Fallbacks(subs: seq<Subscriber>): seq<Mark> {
    if subs == [] then [] else [PostSuplRequest(subs[0].handle)] + Fallbacks(subs[1..])
  }

  lemma {:induction false} DeniedPostsFallbacks(m: Machine, subs: seq<Subscriber>)
    requires m.ds
    ensures NotifyEach(m, Denied, subs, All) ==
      m.(trace := m.trace + Fallbacks(subs), retries := if subs == [] then m.retries else 0)
    decreases |subs|
  {
    if subs == [] {
      assert m.trace + [] == m.trace;
    } else {
      var h, rest := subs[0].handle, subs[1..];
      var m1 := Notify(m, Denied, h);
      assert m1 == m.(trace := m.trace + [PostSuplRequest(h)], retries := 0);
      DeniedPostsFallbacks(m1, rest);
      assert (m.trace + [PostSuplRequest(h)]) + Fallbacks(rest) == m.trace + ([PostSuplRequest(h)] + Fallbacks(rest));
    }
  }

  lemma {:induction false} NobodyUnselected(subs: seq<Subscriber>)
    ensures NotSelected(subs, All) == []
  {
    if subs != [] {
      NobodyUnselected(subs[1..]);
    }
  }

  /** A call that closes while it is being set up: every subscriber, in order, is handed to SUPL once
      and the list is empty. */
  lemma FailedCallFallsBack(m: Machine, env: Env)
    requires m.ds && m.state.Pending?
    ensures var m' := Do(m, Closed, env);
      && m'.state == Released && m'.subs == []
      && m'.trace == m.trace + Fallbacks(m.subs)
      && (m.subs != [] ==> m'.retries == 0)
  {
    DeniedPostsFallbacks(m.(state := Released), m.subs);
    NobodyUnselected(m.subs);
  }
}
