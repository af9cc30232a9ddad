/** The AGPS connection state machine as a function on values: the base machine and the
    data-service machine that overrides three of its methods. The classes in Agps are proved equal
    to these functions. */
module AgpsModel {
  import opened Wrappers

  datatype AgpsState = Released | Pending | Acquired | Releasing

  datatype Event = Subscribe | Unsubscribe | Granted | ReleasedEvent | Denied

  datatype Subscriber = Subscriber(handle: int, waits: bool, inactive: bool)

  /** The calls the machine makes, in order. Joined is no call: it marks where a handle that was not in
      the list asks to be added. */
  datatype Mark =
    | OpenStatus(handle: int, ok: bool)
    | CloseStatus(handle: int, ok: bool)
    | RequestConn
    | ReleaseConn
    | DsOpen(answer: OpenResult)
    | DsStop
    | DsClose
    | StartTimer
    | PostSuplRequest(handle: int)
    | PostEsRequest(handle: int)
    | Joined(handle: int)
    | DsInit(afterModemRestart: bool)
    | DsRelease

  datatype OpenResult = Success | Busy | Unsupported | OtherError

  /** What the surroundings answer during one event. */
  datatype Env = Env(open: OpenResult, hasStart: bool, hasStop: bool)

  const MAX_RETRIES := 4

  datatype Machine = Machine(ds: bool, state: AgpsState, subs: seq<Subscriber>, retries: int, trace: seq<Mark>)

  datatype Audience = All | Inactive | Active

  function Initial(ds: bool): Machine {
    Machine(ds, Released, [], 0, [])
  }

  predicate Present(subs: seq<Subscriber>, h: int) {
    exists s | s in subs :: s.handle == h
  }

  predicate AnyActive(subs: seq<Subscriber>) {
    exists s | s in subs :: !s.inactive
  }

  /** getSubscriber. */
  function Find(subs: seq<Subscriber>, h: int): (r: Option<Subscriber>)
    ensures r.Some? <==> Present(subs, h)
    ensures r.Some? ==> r.value in subs && r.value.handle == h
  {
    if subs == [] then None
    else if subs[0].handle == h then Some(subs[0])
    else
      assert forall s :: s in subs <==> s == subs[0] || s in subs[1..];
      Find(subs[1..], h)
  }

  /** getFirstSubscriber(false). */
  function FirstActive(subs: seq<Subscriber>): (r: Option<Subscriber>)
    ensures r.Some? <==> AnyActive(subs)
    ensures r.Some? ==> r.value in subs && !r.value.inactive
  {
    if subs == [] then None
    else if !subs[0].inactive then Some(subs[0])
    else
      assert forall s :: s in subs <==> s == subs[0] || s in subs[1..];
      FirstActive(subs[1..])
  }

  function Without(subs: seq<Subscriber>, h: int): seq<Subscriber> {
    if subs == [] then []
    else (if subs[0].handle == h then [] else [subs[0]]) + Without(subs[1..], h)
  }

  function Deactivate(subs: seq<Subscriber>, h: int): seq<Subscriber> {
    if subs == [] then []
    else if subs[0].handle == h then [subs[0].(inactive := true)] + subs[1..]
    else [subs[0]] + Deactivate(subs[1..], h)
  }

  predicate Selected(a: Audience, s: Subscriber) {
    a.All? || (a.Inactive? && s.inactive) || (a.Active? && !s.inactive)
  }

  function NotSelected(subs: seq<Subscriber>, a: Audience): seq<Subscriber> {
    if subs == [] then []
    else (if Selected(a, subs[0]) then [] else [subs[0]]) + NotSelected(subs[1..], a)
  }

  // ---------- the methods ----------

  function Call(m: Machine, marks: seq<Mark>): Machine {
    m.(trace := m.trace + marks)
  }

  /** notifyEventToSubscriber, without the deletion that may follow. */
  function Notify(m: Machine, e: Event, h: int): Machine {
    match e
    case Granted => Call(m, [OpenStatus(h, true)])
    case Denied => if m.ds then Call(m.(retries := 0), [PostSuplRequest(h)]) else Call(m, [OpenStatus(h, false)])
    case ReleasedEvent => if m.ds then Call(m, [DsClose, CloseStatus(h, true)]) else Call(m, [CloseStatus(h, true)])
    case Unsubscribe => Call(m, [CloseStatus(h, true)])
    case Subscribe => m
  }

  function NotifyEach(m: Machine, e: Event, subs: seq<Subscriber>, a: Audience): Machine
    decreases |subs|
  {
    if subs == [] then m
    else NotifyEach(if Selected(a, subs[0]) then Notify(m, e, subs[0].handle) else m, e, subs[1..], a)
  }

  /** notifyAllSubscribers. */
  function NotifyAll(m: Machine, e: Event, delete: bool, a: Audience): Machine {
    NotifyEach(m, e, m.subs, a).(subs := if delete then NotSelected(m.subs, a) else m.subs)
  }

  /** addSubscriber: a handle already in the list is not added again. */
  function Add(m: Machine, s: Subscriber): Machine {
    if Present(m.subs, s.handle) then m else m.(subs := m.subs + [s])
  }

  /** requestOrReleaseDataConn, and whether it returned zero. */
  function RequestOrRelease(m: Machine, request: bool, env: Env): (Machine, bool) {
    if !m.ds then (Call(m, [if request then RequestConn else ReleaseConn]), true)
    else if !request && env.hasStop then (Call(m, [DsStop]), true)
    else match FirstActive(m.subs)
      case None => (m, false)
      case Some(s) =>
        if !env.hasStart then (Notify(m, Denied, s.handle), false)
        else StartCall(Call(m, [DsOpen(env.open)]), s.handle, env.open)
  }

  function StartCall(m: Machine, h: int, open: OpenResult): (Machine, bool) {
    match open
    case Busy =>
      var m1 := m.(retries := m.retries + 1);
      if m1.retries > MAX_RETRIES then (Notify(m1, Denied, h), false) else (Call(m1, [StartTimer]), false)
    case Unsupported => (Notify(m, Denied, h), false)
    case Success => (m, true)
    case OtherError => (m, false)
  }

  function OnSubscribe(m0: Machine, s: Subscriber, env: Env): Machine {
    var m := if Present(m0.subs, s.handle) then m0 else Call(m0, [Joined(s.handle)]);
    match m.state
    case Released =>
      var (m1, ok) := RequestOrRelease(Add(m, s), true, env);
      if ok then m1.(state := Pending) else m1
    case Pending => Add(m, s)
    case Acquired => Add(Notify(m, Granted, s.handle), s)
    case Releasing => Add(m, s)
  }

  /** The common start of unsubscribing while a connection is up, coming up or going down. */
  function Leave(m: Machine, s: Subscriber): Machine {
    if s.waits then m.(subs := Deactivate(m.subs, s.handle))
    else
      var m1 := Notify(m, Unsubscribe, s.handle);
      m1.(subs := Without(m1.subs, s.handle))
  }

  function OnUnsubscribe(m: Machine, s: Subscriber, env: Env): Machine {
    match m.state
    case Released => Notify(m, Unsubscribe, s.handle)
    case Releasing =>
      var m1 := Leave(m, s);
      if m1.subs == [] then m1.(state := Released) else m1
    case _ =>
      var m1 := Leave(m, s);
      if m1.subs == [] then RequestOrRelease(m1.(state := Released), false, env).0
      else if !AnyActive(m1.subs) then RequestOrRelease(m1.(state := Releasing), false, env).0
      else m1
  }

  function OnGranted(m: Machine): Machine {
    if m.state.Pending? then NotifyAll(m.(state := Acquired), Granted, false, Active) else m
  }

  /** The connection is gone while releasing: inactive subscribers leave, waiting ones ask again. */
  function Reopen(m: Machine, env: Env): Machine {
    var m1 := NotifyAll(m, ReleasedEvent, true, Inactive);
    if AnyActive(m1.subs) then RequestOrRelease(m1.(state := Pending), true, env).0
    else m1.(state := Released)
  }

  function OnReleased(m: Machine, env: Env): Machine {
    match m.state
    case Acquired => NotifyAll(m.(state := Released), ReleasedEvent, true, All)
    case Releasing => Reopen(m, env)
    case _ => m
  }

  function OnDenied(m: Machine, env: Env): Machine {
    match m.state
    case Releasing => Reopen(m, env)
    case Pending => NotifyAll(m.(state := Released), Denied, true, All)
    case _ => m
  }

  /** processAgpsEvent; the data-service machine takes RELEASED in PENDING for DENIED. */
  function Process(m: Machine, e: Event, s: Subscriber, env: Env): Machine {
    match e
    case Subscribe => OnSubscribe(m, s, env)
    case Unsubscribe => OnUnsubscribe(m, s, env)
    case Granted => OnGranted(m)
    case ReleasedEvent => if m.ds && m.state.Pending? then OnDenied(m, env) else OnReleased(m, env)
    case Denied => OnDenied(m, env)
  }

  // ---------- runs ----------

  /** What the manager does to one machine. */
  datatype Op =
    | Request(handle: int, waits: bool)  // requestATL
    | Release(handle: int)               // releaseATL, once the handle is found here
    | Opened
    | Closed
    | Refused
    | Drop                               // handleModemSSR

  /** What handleModemSSR does to the data-service driver after the lists are dropped. */
  const DRIVER_RESTART := [DsStop, DsClose, DsRelease, DsInit(true)]

  const NOBODY := Subscriber(0, false, false)

  function Do(m: Machine, op: Op, env: Env): Machine {
    match op
    case Request(h, waits) => Process(m, Subscribe, Subscriber(h, waits, false), env)
    case Release(h) =>
      (match Find(m.subs, h)
       case None => m
       case Some(s) => Process(m, Unsubscribe, s, env))
    case Opened => Process(m, Granted, NOBODY, env)
    case Closed => Process(m, ReleasedEvent, NOBODY, env)
    case Refused => Process(m, Denied, NOBODY, env)
    case Drop => if m.ds then Call(m.(subs := []), DRIVER_RESTART) else m.(subs := [])
  }

  function DoAll(m: Machine, ops: seq<(Op, Env)>): Machine {
    if ops == [] then m
    else Do(DoAll(m, ops[..|ops| - 1]), ops[|ops| - 1].0, ops[|ops| - 1].1)
  }
}
