/** What each operation on an AGPS machine does, written out: the state and the list it leaves, and the
    calls it makes, in order. Nothing here is said through the machine's own notification functions. */
module AgpsCalls {
  import opened Wrappers
  import opened AgpsModel
  import opened AgpsRuns
  import opened AgpsDataService

  // ---------- lists and calls written out ----------

  /** The active, or the inactive, subscribers, in list order. */
  function Those(subs: seq<Subscriber>, inactive: bool): seq<Subscriber> {
    if subs == [] then []
    else (if subs[0].inactive == inactive then [subs[0]] else []) + Those(subs[1..], inactive)
  }

  function Opens(subs: seq<Subscriber>, ok: bool): seq<Mark> {
    if subs == [] then [] else [OpenStatus(subs[0].handle, ok)] + Opens(subs[1..], ok)
  }

  function Closes(subs: seq<Subscriber>): seq<Mark> {
    if subs == [] then [] else [CloseStatus(subs[0].handle, true)] + Closes(subs[1..])
  }

  function DsCloses(subs: seq<Subscriber>): seq<Mark> {
    if subs == [] then [] else [DsClose, CloseStatus(subs[0].handle, true)] + DsCloses(subs[1..])
  }

  /** The subscribers a round of notifications is for. */
  function Chosen(subs: seq<Subscriber>, a: Audience): seq<Subscriber> {
    match a
    case All => subs
    case Active => Those(subs, false)
    case Inactive => Those(subs, true)
  }

  /** The calls that tell subs of e. */
  function Telling(ds: bool, e: Event, subs: seq<Subscriber>): seq<Mark> {
    match e
    case Granted => Opens(subs, true)
    case Denied => if ds then Fallbacks(subs) else Opens(subs, false)
    case ReleasedEvent => if ds then DsCloses(subs) else Closes(subs)
    case Unsubscribe => Closes(subs)
    case Subscribe => []
  }

  lemma {:induction false} RoundTells(m: Machine, e: Event, subs: seq<Subscriber>, a: Audience)
    ensures NotifyEach(m, e, subs, a) ==
      m.(trace := m.trace + Telling(m.ds, e, Chosen(subs, a)),
         retries := if m.ds && e.Denied? && Chosen(subs, a) != [] then 0 else m.retries)
    decreases |subs|
  {
    if subs == [] {
      assert m.trace + [] == m.trace;
    } else {
      var m1 := if Selected(a, subs[0]) then Notify(m, e, subs[0].handle) else m;
      var here, rest := if Selected(a, subs[0]) then Telling(m.ds, e, [subs[0]]) else [], Chosen(subs[1..], a);
      OneTold(m, e, subs[0]);
      RoundTells(m1, e, subs[1..], a);
      TellingFirst(m.ds, e, subs, a);
      Regroup(m.trace, here, Telling(m.ds, e, rest));
    }
  }

  lemma Regroup(a: seq<Mark>, b: seq<Mark>, c: seq<Mark>)
    ensures (a + b) + c == a + (b + c)
  {
  }

  lemma OneTold(m: Machine, e: Event, s: Subscriber)
    ensures Notify(m, e, s.handle) ==
      m.(trace := m.trace + Telling(m.ds, e, [s]), retries := if m.ds && e.Denied? then 0 else m.retries)
    ensures m.trace + [] == m.trace
  {
    OneWrittenOut(s);
    assert m.trace + [] == m.trace;
  }

  lemma OneWrittenOut(s: Subscriber)
    ensures Opens([s], true) == [OpenStatus(s.handle, true)] && Opens([s], false) == [OpenStatus(s.handle, false)]
    ensures Closes([s]) == [CloseStatus(s.handle, true)] && Fallbacks([s]) == [PostSuplRequest(s.handle)]
    ensures DsCloses([s]) == [DsClose, CloseStatus(s.handle, true)]
  {
    assert [s][1..] == [];
  }

  lemma TellingFirst(ds: bool, e: Event, subs: seq<Subscriber>, a: Audience)
    requires subs != []
    ensures Chosen(subs, a) == (if Selected(a, subs[0]) then [subs[0]] else []) + Chosen(subs[1..], a)
    ensures Telling(ds, e, Chosen(subs, a)) ==
      (if Selected(a, subs[0]) then Telling(ds, e, [subs[0]]) else []) + Telling(ds, e, Chosen(subs[1..], a))
  {
    var s, rest := subs[0], Chosen(subs[1..], a);
    if Selected(a, s) {
      assert Chosen(subs, a) == [s] + rest;
      TellingOneMore(ds, e, s, rest);
    } else {
      assert Chosen(subs, a) == [] + rest == rest;
      assert [] + Telling(ds, e, rest) == Telling(ds, e, rest);
    }
  }

  lemma TellingOneMore(ds: bool, e: Event, s: Subscriber, rest: seq<Subscriber>)
    ensures Telling(ds, e, [s] + rest) == Telling(ds, e, [s]) + Telling(ds, e, rest)
  {
    OneWrittenOut(s);
    var all := [s] + rest;
    assert all[0] == s && all[1..] == rest;
  }

  lemma {:induction false} NotSelectedAre(subs: seq<Subscriber>, a: Audience)
    ensures NotSelected(subs, a) ==
      match a
      case All => []
      case Active => Those(subs, true)
      case Inactive => Those(subs, false)
  {
    if subs != [] {
      NotSelectedAre(subs[1..], a);
    }
  }

  lemma {:induction false} ThoseActive(subs: seq<Subscriber>)
    ensures Those(subs, false) != [] <==> AnyActive(subs)
  {
    if subs != [] {
      assert subs == [subs[0]] + subs[1..];
      ThoseActive(subs[1..]);
    }
  }

  /** getFirstSubscriber finds the first active one in list order. */
  lemma {:induction false} FirstActiveIsFirst(subs: seq<Subscriber>)
    ensures FirstActive(subs) == if Those(subs, false) == [] then None else Some(Those(subs, false)[0])
  {
    if subs != [] {
      FirstActiveIsFirst(subs[1..]);
    }
  }

  // ---------- the base machine ----------

  lemma RequestWrittenOut(ops: seq<(Op, Env)>, h: int, waits: bool, env: Env)
    ensures var m := DoAll(Initial(false), ops);
      var m' := Do(m, Request(h, waits), env);
      && m'.state == (if m.state.Released? then Pending else m.state)
      && m'.subs == (if Present(m.subs, h) then m.subs else m.subs + [Subscriber(h, waits, false)])
      && m'.trace == m.trace + (if Present(m.subs, h) then [] else [Joined(h)])
           + match m.state
             case Released => [RequestConn]
             case Acquired => [OpenStatus(h, true)]
             case _ => []
  {
    RunKeepsInv(ops);
    var m := DoAll(Initial(false), ops);
    assert m.trace + [] + [] == m.trace;
  }

  /** s leaves, or waits for the close. When that leaves nobody active, a connection that is up or coming up
      is released. */
  lemma ReleaseWrittenOut(ops: seq<(Op, Env)>, s: Subscriber, env: Env)
    requires s in DoAll(Initial(false), ops).subs
    ensures var m := DoAll(Initial(false), ops);
      var m' := Do(m, Release(s.handle), env);
      var over := (m.state.Pending? || m.state.Acquired?) && forall x | x in m'.subs :: x.inactive;
      && (forall x :: x in m'.subs <==>
            (x in m.subs && x.handle != s.handle) || (s.waits && x == Subscriber(s.handle, true, true)))
      && m'.trace == m.trace + (if s.waits then [] else [CloseStatus(s.handle, true)])
                       + (if over then [ReleaseConn] else [])
      && m'.state == (if !over && !m.state.Releasing? then m.state
                      else if m'.subs == [] then Released else Releasing)
  {
    RunKeepsInv(ops);
    var m := DoAll(Initial(false), ops);
    FoundIs(m.subs, s);
    ReleaseConnIs(m, s, env);
    if s.waits {
      DeactivateMembers(m.subs, s);
    } else {
      WithoutMembers(m.subs, s.handle);
    }
  }

  lemma ReleaseConnIs(m: Machine, s: Subscriber, env: Env)
    requires !m.ds && !m.state.Released?
    ensures var m1, m' := Leave(m, s), OnUnsubscribe(m, s, env);
      && m'.subs == m1.subs
      && m1.trace == m.trace + (if s.waits then [] else [CloseStatus(s.handle, true)])
      && m'.trace == m1.trace + (if Up(m) && !AnyActive(m1.subs) then [ReleaseConn] else [])
      && m'.state == (if AnyActive(m1.subs) && !m.state.Releasing? then m.state
                      else if m1.subs == [] then Released else Releasing)
  {
    var m1 := Leave(m, s);
    assert m.trace + [] == m.trace && m1.trace + [] == m1.trace;
    assert m1.subs == [] ==> !AnyActive(m1.subs);
  }

  lemma {:induction false} FoundIs(subs: seq<Subscriber>, s: Subscriber)
    requires Distinct(subs) && s in subs
    ensures Find(subs, s.handle) == Some(s)
  {
    SameHandleSame(subs, Find(subs, s.handle).value, s);
  }

  /** Releasing a handle that is not in the list, and events that do not concern the state, do nothing. */
  lemma NothingToDo(m: Machine, h: int, env: Env)
    requires !m.ds
    ensures !Present(m.subs, h) ==> Do(m, Release(h), env) == m
    ensures !m.state.Pending? ==> Do(m, Opened, env) == m
    ensures m.state.Released? || m.state.Pending? ==> Do(m, Closed, env) == m
    ensures m.state.Released? || m.state.Acquired? ==> Do(m, Refused, env) == m
  {
  }

  /** Success in PENDING is told to the active subscribers, each once and in list order, and to nobody else. */
  lemma OpenedWrittenOut(m: Machine, env: Env)
    requires m.state.Pending?
    ensures Do(m, Opened, env) == m.(state := Acquired, trace := m.trace + Opens(Those(m.subs, false), true))
  {
    RoundTells(m.(state := Acquired), Granted, m.subs, Active);
  }

  /** A refusal in PENDING is told to everybody as a failed open; a close in ACQUIRED as a close. */
  lemma EndWrittenOut(m: Machine, env: Env)
    requires !m.ds
    ensures m.state.Pending? ==>
      Do(m, Refused, env) == m.(state := Released, subs := [], trace := m.trace + Opens(m.subs, false))
    ensures m.state.Acquired? ==>
      Do(m, Closed, env) == m.(state := Released, subs := [], trace := m.trace + Closes(m.subs))
  {
    RoundTells(m.(state := Released), Denied, m.subs, All);
    RoundTells(m.(state := Released), ReleasedEvent, m.subs, All);
    NotSelectedAre(m.subs, All);
  }

  /** When the release completes, or is refused, those who waited for it are told of the close; the others
      stay, and have the connection requested again. */
  lemma ReopenWrittenOut(m: Machine, op: Op, env: Env)
    requires !m.ds && m.state.Releasing? && (op.Closed? || op.Refused?)
    ensures Do(m, op, env) ==
      var active := Those(m.subs, false);
      m.(state := if active == [] then Released else Pending, subs := active,
         trace := m.trace + Closes(Those(m.subs, true)) + (if active == [] then [] else [RequestConn]))
  {
    WaitersTold(m);
    var active, told := Those(m.subs, false), m.trace + Closes(Those(m.subs, true));
    assert told + [] == told;
  }

  lemma ReopenIs(m: Machine, env: Env)
    ensures var active := Those(m.subs, false);
      var told := m.(subs := active, trace := m.trace + Telling(m.ds, ReleasedEvent, Those(m.subs, true)));
      Reopen(m, env) == if active == [] then told.(state := Released)
                        else RequestOrRelease(told.(state := Pending), true, env).0
  {
    WaitersTold(m);
  }

  /** The first half of a reopening: those who waited for the close are told and leave. */
  lemma WaitersTold(m: Machine)
    ensures NotifyAll(m, ReleasedEvent, true, Inactive) ==
      m.(subs := Those(m.subs, false), trace := m.trace + Telling(m.ds, ReleasedEvent, Those(m.subs, true)))
    ensures AnyActive(Those(m.subs, false)) <==> Those(m.subs, false) != []
    ensures Those(Those(m.subs, false), false) == Those(m.subs, false)
  {
    RoundTells(m, ReleasedEvent, m.subs, Inactive);
    NotSelectedAre(m.subs, Inactive);
    ThoseStay(m.subs);
  }

  lemma {:induction false} ThoseStay(subs: seq<Subscriber>)
    ensures AnyActive(Those(subs, false)) <==> Those(subs, false) != []
    ensures Those(Those(subs, false), false) == Those(subs, false)
  {
    if subs != [] {
      ThoseStay(subs[1..]);
      var rest := Those(subs[1..], false);
      if subs[0].inactive {
        assert Those(subs, false) == [] + rest == rest;
      } else {
        assert ([subs[0]] + rest)[1..] == rest;
        assert subs[0] in [subs[0]] + rest;
      }
    }
  }

  /** A modem restart empties the list; the data-service driver is stopped, closed, released and started. */
  lemma DropWrittenOut(m: Machine, env: Env)
    ensures Do(m, Drop, env) ==
      m.(subs := [], trace := m.trace + if m.ds then [DsStop, DsClose, DsRelease, DsInit(true)] else [])
  {
    assert m.trace + [] == m.trace;
  }

  // ---------- releases mirror requests ----------

  function Releases(trace: seq<Mark>): nat {
    if trace == [] then 0
    else Releases(trace[..|trace| - 1]) + if trace[|trace| - 1] == ReleaseConn then 1 else 0
  }

  lemma ReleasesAfter(trace: seq<Mark>, x: Mark)
    ensures Releases(trace + [x]) == Releases(trace) + if x == ReleaseConn then 1 else 0
    ensures Outstanding(trace + [x]) <==> x == RequestConn || (x != ReleaseConn && Outstanding(trace))
  {
    assert (trace + [x])[..|trace|] == trace;
  }

  /** Calls that only speak to subscribers. */
  predicate Statuses(marks: seq<Mark>) {
    forall x | x in marks :: x.OpenStatus? || x.CloseStatus?
  }

  lemma {:induction false} StatusesRelease(trace: seq<Mark>, marks: seq<Mark>)
    requires Statuses(marks)
    ensures Releases(trace + marks) == Releases(trace)
    decreases |marks|
  {
    if marks == [] {
      assert trace + [] == trace;
    } else {
      assert marks[0] in marks && forall x | x in marks[1..] :: x in marks;
      ReleasesAfter(trace, marks[0]);
      StatusesRelease(trace + [marks[0]], marks[1..]);
      assert (trace + [marks[0]]) + marks[1..] == trace + marks;
    }
  }

  lemma {:induction false} TellingIsStatuses(e: Event, subs: seq<Subscriber>)
    ensures Statuses(Telling(false, e, subs))
  {
    if subs != [] {
      TellingIsStatuses(e, subs[1..]);
    }
  }

  /** In every run a release is sent exactly when a subscriber's release takes the connection down, from
      coming up or up to RELEASED or RELEASING; afterwards no request is outstanding. */
  lemma {:induction false} ReleaseDiscipline(ops: seq<(Op, Env)>, op: Op, env: Env)
    ensures var m := DoAll(Initial(false), ops);
      var m' := Do(m, op, env);
      var down := op.Release? && Up(m) && !Up(m');
      && Releases(m'.trace) == Releases(m.trace) + (if down then 1 else 0)
      && (down ==> !Outstanding(m'.trace))
  {
    RunKeepsInv(ops);
    var m := DoAll(Initial(false), ops);
    NothingToDo(m, 0, env);
    match op {
      case Request(h, waits) => RequestReleases(ops, h, waits, env);
      case Release(h) =>
        NothingToDo(m, h, env);
        if Find(m.subs, h).Some? { ReleaseReleases(ops, Find(m.subs, h).value, env); }
      case Opened =>
        if m.state.Pending? {
          OpenedWrittenOut(m, env);
          TellingIsStatuses(Granted, Those(m.subs, false));
          StatusesRelease(m.trace, Opens(Those(m.subs, false), true));
        }
      case Drop =>
      case _ =>
        TellingIsStatuses(Denied, m.subs);
        TellingIsStatuses(ReleasedEvent, m.subs);
        StatusesRelease(m.trace, Opens(m.subs, false));
        StatusesRelease(m.trace, Closes(m.subs));
        EndWrittenOut(m, env);
        if m.state.Releasing? {
          ReopenReleases(m, op, env);
        }
    }
  }

  lemma RequestReleases(ops: seq<(Op, Env)>, h: int, waits: bool, env: Env)
    ensures var m := DoAll(Initial(false), ops);
      Releases(Do(m, Request(h, waits), env).trace) == Releases(m.trace)
  {
    RequestWrittenOut(ops, h, waits, env);
    var m := DoAll(Initial(false), ops);
    JoinReleases(m.trace, h, !Present(m.subs, h), m.state);
  }

  lemma JoinReleases(trace: seq<Mark>, h: int, joins: bool, state: AgpsState)
    ensures Releases(trace + (if joins then [Joined(h)] else [])
                     + match state case Released => [RequestConn] case Acquired => [OpenStatus(h, true)] case _ => [])
      == Releases(trace)
  {
    var joined := trace + if joins then [Joined(h)] else [];
    ReleasesAfter(trace, Joined(h));
    ReleasesAfter(joined, RequestConn);
    ReleasesAfter(joined, OpenStatus(h, true));
    assert trace + [] == trace && joined + [] == joined;
  }

  lemma ReleaseReleases(ops: seq<(Op, Env)>, s: Subscriber, env: Env)
    requires s in DoAll(Initial(false), ops).subs
    ensures var m := DoAll(Initial(false), ops);
      var m' := Do(m, Release(s.handle), env);
      && Releases(m'.trace) == Releases(m.trace) + (if Up(m) && !Up(m') then 1 else 0)
      && (Up(m) && !Up(m') ==> !Outstanding(m'.trace))
  {
    RunKeepsInv(ops);
    var m := DoAll(Initial(false), ops);
    FoundIs(m.subs, s);
    ReleaseConnIs(m, s, env);
    TakenDown(m.trace, if s.waits then [] else [CloseStatus(s.handle, true)], Up(m) && !AnyActive(Leave(m, s).subs));
  }

  lemma TakenDown(trace: seq<Mark>, told: seq<Mark>, down: bool)
    requires Statuses(told)
    ensures var trace' := trace + told + if down then [ReleaseConn] else [];
      && Releases(trace') == Releases(trace) + (if down then 1 else 0)
      && (down ==> !Outstanding(trace'))
  {
    StatusesRelease(trace, told);
    ReleasesAfter(trace + told, ReleaseConn);
    assert (trace + told) + [] == trace + told;
  }

  lemma ReopenReleases(m: Machine, op: Op, env: Env)
    requires !m.ds && m.state.Releasing? && (op.Closed? || op.Refused?)
    ensures Releases(Do(m, op, env).trace) == Releases(m.trace)
  {
    ReopenWrittenOut(m, op, env);
    var told := m.trace + Closes(Those(m.subs, true));
    TellingIsStatuses(ReleasedEvent, Those(m.subs, true));
    StatusesRelease(m.trace, Closes(Those(m.subs, true)));
    ReleasesAfter(told, RequestConn);
    assert told + [] == told;
  }

  // ---------- the data-service machine ----------

  /** The answer to opening a call for the subscriber h: the calls made, the retries counted, and whether the
      call is under way. */
  function Attempt(h: int, retries: int, env: Env): (seq<Mark>, int, bool) {
    if !env.hasStart then ([PostSuplRequest(h)], 0, false)
    else match env.open
      case Success => ([DsOpen(Success)], retries, true)
      case Busy =>
        if retries < 4 then ([DsOpen(Busy), StartTimer], retries + 1, false)
        else ([DsOpen(Busy), PostSuplRequest(h)], 0, false)
      case Unsupported => ([DsOpen(Unsupported), PostSuplRequest(h)], 0, false)
      case OtherError => ([DsOpen(OtherError)], retries, false)
  }

  lemma AttemptIs(m: Machine, env: Env)
    requires m.ds && AnyActive(m.subs)
    ensures Those(m.subs, false) != []
    ensures var (calls, retries, underWay) := Attempt(Those(m.subs, false)[0].handle, m.retries, env);
      RequestOrRelease(m, true, env) == (m.(trace := m.trace + calls, retries := retries), underWay)
  {
    ThoseActive(m.subs);
    FirstActiveIsFirst(m.subs);
    var h := Those(m.subs, false)[0].handle;
    assert (m.trace + [DsOpen(env.open)]) + [StartTimer] == m.trace + [DsOpen(env.open), StartTimer];
    assert (m.trace + [DsOpen(env.open)]) + [PostSuplRequest(h)] == m.trace + [DsOpen(env.open), PostSuplRequest(h)];
  }

  /** m' is what a RELEASED machine with these subscribers and calls becomes by an attempt for h. */
  predicate AttemptedBy(m': Machine, h: int, retries: int, env: Env, subs: seq<Subscriber>, before: seq<Mark>) {
    var (calls, retries', underWay) := Attempt(h, retries, env);
    m' == Machine(true, if underWay then Pending else Released, subs, retries', before + calls)
  }

  /** A request joins the list; in RELEASED a call is opened for the first active subscriber, who falls back to
      SUPL when there is no driver, no emergency profile, or no retry left; in ACQUIRED it is told of success. */
  lemma DsRequestWrittenOut(m: Machine, h: int, waits: bool, env: Env)
    requires m.ds
    ensures var m' := Do(m, Request(h, waits), env);
      var subs := if Present(m.subs, h) then m.subs else m.subs + [Subscriber(h, waits, false)];
      var joined := m.trace + if Present(m.subs, h) then [] else [Joined(h)];
      && (m.state.Released? ==>
            if Those(subs, false) == [] then m' == m.(subs := subs, trace := joined)
            else AttemptedBy(m', Those(subs, false)[0].handle, m.retries, env, subs, joined))
      && (m.state.Acquired? ==> m' == m.(subs := subs, trace := joined + [OpenStatus(h, true)]))
      && (m.state.Pending? || m.state.Releasing? ==> m' == m.(subs := subs, trace := joined))
  {
    var s := Subscriber(h, waits, false);
    var m1 := if Present(m.subs, h) then m else Call(m, [Joined(h)]);
    assert m.trace + [] == m.trace;
    assert s in m.subs + [s];
    ThoseActive(Add(m1, s).subs);
    if m.state.Released? && AnyActive(Add(m1, s).subs) {
      AttemptIs(Add(m1, s), env);
    }
  }

  /** Releasing: in RELEASED the subscriber is only told; otherwise it leaves or waits, and when that leaves
      nobody active the driver is told to stop, if it can be. */
  lemma DsReleaseWrittenOut(m: Machine, s: Subscriber, env: Env)
    requires m.ds && Distinct(m.subs) && s in m.subs
    ensures var m' := Do(m, Release(s.handle), env);
      var told := m.trace + if s.waits then [] else [CloseStatus(s.handle, true)];
      var over := Up(m) && forall x | x in m'.subs :: x.inactive;
      if m.state.Released? then m' == m.(trace := m.trace + [CloseStatus(s.handle, true)])
      else
        && (forall x :: x in m'.subs <==>
              (x in m.subs && x.handle != s.handle) || (s.waits && x == Subscriber(s.handle, true, true)))
        && m'.trace == told + (if over && env.hasStop then [DsStop] else [])
        && m'.state == (if !over && !m.state.Releasing? then m.state
                        else if m'.subs == [] then Released else Releasing)
  {
    FoundIs(m.subs, s);
    if !m.state.Released? {
      LeftSubs(m, s, env);
      if s.waits {
        DeactivateMembers(m.subs, s);
      } else {
        WithoutMembers(m.subs, s.handle);
      }
      DsStopIs(m, s, env);
    }
  }

  lemma DsStopIs(m: Machine, s: Subscriber, env: Env)
    requires m.ds && !m.state.Released?
    ensures var m1, m' := Leave(m, s), OnUnsubscribe(m, s, env);
      && m1.trace == m.trace + (if s.waits then [] else [CloseStatus(s.handle, true)])
      && m'.trace == m1.trace + (if Up(m) && !AnyActive(m1.subs) && env.hasStop then [DsStop] else [])
      && m'.state == (if AnyActive(m1.subs) && !m.state.Releasing? then m.state
                      else if m1.subs == [] then Released else Releasing)
  {
    var m1 := Leave(m, s);
    assert m.trace + [] == m.trace && m1.trace + [] == m1.trace;
    assert m1.subs == [] ==> !AnyActive(m1.subs);
  }

  /** A call that closes in ACQUIRED, or fails in PENDING. */
  lemma DsEndWrittenOut(m: Machine, op: Op, env: Env)
    requires m.ds && (op.Closed? || op.Refused?)
    ensures m.state.Acquired? && op.Closed? ==>
      Do(m, op, env) == m.(state := Released, subs := [], trace := m.trace + DsCloses(m.subs))
    ensures m.state.Pending? ==>
      Do(m, op, env) == m.(state := Released, subs := [], trace := m.trace + Fallbacks(m.subs),
                           retries := if m.subs == [] then m.retries else 0)
    ensures m.state.Released? || (m.state.Acquired? && op.Refused?) ==> Do(m, op, env) == m
  {
    RoundTells(m.(state := Released), Denied, m.subs, All);
    RoundTells(m.(state := Released), ReleasedEvent, m.subs, All);
    NotSelectedAre(m.subs, All);
  }

  /** When the release completes: those who waited are told, and for the others a call is opened again. */
  lemma DsReopenWrittenOut(m: Machine, op: Op, env: Env)
    requires m.ds && m.state.Releasing? && (op.Closed? || op.Refused?)
    ensures var m', active := Do(m, op, env), Those(m.subs, false);
      var told := m.trace + DsCloses(Those(m.subs, true));
      if active == [] then m' == m.(state := Released, subs := [], trace := told)
      else
        var (calls, retries, _) := Attempt(active[0].handle, m.retries, env);
        m' == Machine(true, Pending, active, retries, told + calls)
  {
    ReopenIs(m, env);
    var active, told := Those(m.subs, false), m.trace + DsCloses(Those(m.subs, true));
    ThoseStay(m.subs);
    if active != [] {
      AttemptIs(Machine(true, Pending, active, m.retries, told), env);
    }
  }
}
