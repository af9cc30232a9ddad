/** The timer service as a step relation between three parties: client threads that start, stop
    and destroy LocTimers; the one message thread that owns both heaps; and the one poll thread
    that owns epoll. The kernel is part of the state: which timer fds are polled and armed. */
module TimerService {
  import opened Wrappers
  import opened HeapTree
  import opened TimerClock

  /** mSwTimers and mHwTimers. */
  datatype Which = Soft | Hard

  datatype Container = Container(tree: Tree<Timer>, polled: bool, armed: Option<Timespec>)

  datatype Msg = MsgPush(d: nat) | MsgRemove(d: nat) | MsgExpire(c: Which)

  /** Where the message thread is. `after` is the delegate to delete once the kernel timer is set. */
  datatype MsgThread =
    | Resting
    | AddingPoll(c: Which, due: Deadline, after: Option<nat>)
    | SettingTime(c: Which, due: Deadline, after: Option<nat>)
    | Deleting(d: nat)
    | Popping(c: Which, at: Deadline, first: bool)
    | Expiring(c: Which, at: Deadline, d: nat)
    | Stopping(c: Which, at: Deadline, client: nat)
    | Calling(c: Which, at: Deadline, client: nat)

  datatype Stage = Fired | Disarmed | Unpolled

  /** Where the poll thread is: in epoll_wait, or working through the events it returned. */
  datatype PollThread = Blocked | Handling(events: seq<Which>, stage: Stage)

  /** A LocTimerDelegate, with the positions of its messages in the log of all messages sent. */
  datatype Delegate = Delegate(owner: nat, client: Option<nat>, due: Deadline, c: Which,
                               pushAt: nat, removeAt: Option<nat>, deleted: bool)

  /** A LocTimer, its LocSharedLock's count, and how often things happened to it. `pending` is the
      delegate under construction while start() holds the lock. */
  datatype LocTimer = LocTimer(alive: bool, timer: Option<nat>, pending: Option<nat>,
                               refs: int, lockFreed: bool,
                               starts: nat, clientStops: nat, expiryStops: nat, callbacks: nat)

  /** The message queue is log[done..]: messages are appended, and taken in order. */
  datatype State = State(now: Deadline, log: seq<Msg>, done: nat, soft: Container, hard: Container,
                         msg: MsgThread, poll: PollThread,
                         timers: map<nat, LocTimer>, delegates: map<nat, Delegate>)

  datatype Step =
    | Tick(now: Deadline)
    | NewTimer(l: nat)
    | StartCreate(l: nat, d: nat, timeOutInMs: nat, c: Which)
    | StartAssign(l: nat)
    | Stop(l: nat)
    | Destroy(l: nat)
    | MsgTake
    | MsgAddPoll
    | MsgSetTime
    | MsgDelete
    | MsgPop
    | MsgExpireDelegate
    | MsgStop
    | MsgCall
    | PollWake(events: seq<Which>)
    | PollDisarm
    | PollRemove
    | PollSend

  const EMPTY_CONTAINER := Container(Leaf, false, None)

  function Init(now: Deadline): State {
    State(now, [], 0, EMPTY_CONTAINER, EMPTY_CONTAINER, Resting, Blocked, map[], map[])
  }

  function At(s: State, c: Which): Container {
    if c.Soft? then s.soft else s.hard
  }

  function Put(s: State, c: Which, k: Container): State {
    if c.Soft? then s.(soft := k) else s.(hard := k)
  }

  function TimerOf(s: State, d: nat): Timer
    requires d in s.delegates
  {
    Timer(d, s.delegates[d].due)
  }

  /** The kernel reports an fd that is polled, armed and due. */
  predicate Readable(s: State, c: Which) {
    At(s, c).polled && At(s, c).armed.Some? && Instant(At(s, c).armed.value) <= Instant(s.now)
  }

  predicate LiveTimer(s: State, l: nat) {
    l in s.timers && s.timers[l].alive
  }

  /** Can the lock of l be taken: start() is not holding it. */
  predicate Unlocked(s: State, l: nat) {
    l in s.timers && s.timers[l].pending.None?
  }

  /** When a party may take its step. Nothing here says that a pointer is still good: that is proved. */
  predicate Enabled(s: State, step: Step) {
    match step
    case Tick(now) => Instant(s.now) <= Instant(now)
    case NewTimer(l) => l !in s.timers
    case StartCreate(l, d, ms, c) =>
      && LiveTimer(s, l) && Unlocked(s, l) && s.timers[l].timer.None? && d !in s.delegates
      && ms < 2 * TWO_31 && FutureTime(s.now, ms).sec < TWO_31
    case StartAssign(l) => LiveTimer(s, l) && s.timers[l].pending.Some?
    case Stop(l) => LiveTimer(s, l) && Unlocked(s, l)
    case Destroy(l) =>
      && LiveTimer(s, l) && Unlocked(s, l)
      && !((s.msg.Stopping? || s.msg.Calling?) && s.msg.client == l)
    case MsgTake => s.msg.Resting? && s.done < |s.log|
    case MsgAddPoll => s.msg.AddingPoll?
    case MsgSetTime => s.msg.SettingTime?
    case MsgDelete => s.msg.Deleting?
    case MsgPop => s.msg.Popping?
    case MsgExpireDelegate => s.msg.Expiring?
    case MsgStop => s.msg.Stopping? && (s.msg.client in s.timers ==> Unlocked(s, s.msg.client))
    case MsgCall => s.msg.Calling?
    case PollWake(events) =>
      && s.poll.Blocked? && 1 <= |events| <= 2
      && (|events| == 2 ==> events[0] != events[1])
      && (forall c | c in events :: Readable(s, c))
    case PollDisarm => s.poll.Handling? && s.poll.stage.Fired?
    case PollRemove => s.poll.Handling? && s.poll.stage.Disarmed?
    case PollSend => s.poll.Handling? && s.poll.stage.Unpolled? && s.poll.events != []
  }

  function Apply(s: State, step: Step): State
    requires Enabled(s, step)
  {
    match step
    case Tick(now) => s.(now := now)
    case NewTimer(l) => s.(timers := s.timers[l := LocTimer(true, None, None, 1, false, 0, 0, 0, 0)])
    case StartCreate(l, d, ms, c) => CreateDelegate(s, l, d, FutureTime(s.now, ms), c)
    case StartAssign(l) =>
      var t := s.timers[l];
      s.(timers := s.timers[l := t.(timer := t.pending, pending := None, starts := t.starts + 1)])
    case Stop(l) => if s.timers[l].timer.Some? then StopTimer(s, l, false) else s
    case Destroy(l) => DropTimer(if s.timers[l].timer.Some? then StopTimer(s, l, false) else s, l)
    case MsgTake => TakeMessage(s.(done := s.done + 1), s.log[s.done])
    case MsgAddPoll =>
      Put(s, s.msg.c, At(s, s.msg.c).(polled := true)).(msg := SettingTime(s.msg.c, s.msg.due, s.msg.after))
    case MsgSetTime =>
      Put(s, s.msg.c, At(s, s.msg.c).(armed := SetTime(s.msg.due))).(msg := Afterwards(s.msg.after))
    case MsgDelete => DeleteDelegate(s, s.msg.d).(msg := Resting)
    case MsgPop => PopNext(s, s.msg.c, s.msg.at, s.msg.first)
    case MsgExpireDelegate => ReadClient(s, s.msg.c, s.msg.at, s.msg.d)
    case MsgStop =>
      if s.msg.client in s.timers && s.timers[s.msg.client].timer.Some?
      then StopTimer(s, s.msg.client, true).(msg := Calling(s.msg.c, s.msg.at, s.msg.client))
      else s.(msg := Popping(s.msg.c, s.msg.at, false))
    case MsgCall => CountCallback(s, s.msg.client).(msg := Popping(s.msg.c, s.msg.at, false))
    case PollWake(events) => s.(poll := Handling(events, Fired))
    case PollDisarm =>
      var c := Head(s.poll.events);
      Put(s, c, At(s, c).(armed := None)).(poll := s.poll.(stage := Disarmed))
    case PollRemove =>
      var c := Head(s.poll.events);
      Put(s, c, At(s, c).(polled := false)).(poll := s.poll.(stage := Unpolled))
    case PollSend =>
      s.(log := s.log + [MsgExpire(s.poll.events[0])],
         poll := if |s.poll.events| == 1 then Blocked else Handling(s.poll.events[1..], Fired))
  }

  function Head(events: seq<Which>): Which {
    if events == [] then Soft else events[0]
  }

  /** The LocTimerDelegate constructor: share the lock, post the push. mTimer is not set yet. */
  function CreateDelegate(s: State, l: nat, d: nat, due: Deadline, c: Which): State
    requires l in s.timers
  {
    var t := s.timers[l];
    s.(timers := s.timers[l := t.(pending := Some(d), refs := t.refs + 1)],
       delegates := s.delegates[d := Delegate(l, Some(l), due, c, |s.log|, None, false)],
       log := s.log + [MsgPush(d)])
  }

  /** LocTimer::stop on a running timer, with destroyLocked: clear both pointers, post the remove. */
  function StopTimer(s: State, l: nat, byExpiry: bool): State
    requires l in s.timers && s.timers[l].timer.Some?
  {
    var t := s.timers[l];
    var t' := t.(timer := None,
                 clientStops := if byExpiry then t.clientStops else t.clientStops + 1,
                 expiryStops := if byExpiry then t.expiryStops + 1 else t.expiryStops);
    var s' := s.(timers := s.timers[l := t']);
    if t.timer.value in s.delegates then
      var d := s.delegates[t.timer.value];
      s'.(delegates := s.delegates[t.timer.value := d.(client := None, removeAt := Some(|s.log|))],
          log := s.log + [MsgRemove(t.timer.value)])
    else s'
  }

  /** LocSharedLock::drop on the lock shared by l and its delegates. */
  function DropLock(t: LocTimer): LocTimer {
    t.(refs := t.refs - 1, lockFreed := t.lockFreed || t.refs == 1)
  }

  function DropTimer(s: State, l: nat): State
    requires l in s.timers
  {
    s.(timers := s.timers[l := DropLock(s.timers[l]).(alive := false)])
  }

  function DeleteDelegate(s: State, d: nat): State {
    if d in s.delegates && s.delegates[d].owner in s.timers then
      var l := s.delegates[d].owner;
      s.(delegates := s.delegates[d := s.delegates[d].(deleted := true)],
         timers := s.timers[l := DropLock(s.timers[l])])
    else s
  }

  function Afterwards(after: Option<nat>): MsgThread {
    if after.Some? then Deleting(after.value) else Resting
  }

  /** The message thread goes on to set the kernel timer, if it has to. removePoll never happens here:
      the heap is not empty after a push, and the other callers pass NULL as the prior top. */
  function ThenArm(c: Which, arming: Arming, after: Option<nat>): MsgThread {
    match arming
    case Arm(due) => AddingPoll(c, due, after)
    case _ => Afterwards(after)
  }

  function TakeMessage(s: State, m: Msg): State {
    match m
    case MsgPush(d) => if d in s.delegates then PushTimer(s, s.delegates[d].c, TimerOf(s, d)) else s
    case MsgRemove(d) => if d in s.delegates then RemoveTimer(s, s.delegates[d].c, TimerOf(s, d)) else s
    case MsgExpire(c) => s.(msg := Popping(c, s.now, true))
  }

  function PushTimer(s: State, c: Which, x: Timer): State {
    var k := At(s, c);
    var tree := Push(k.tree, x, Sooner);
    Put(s, c, k.(tree := tree)).(msg := ThenArm(c, UpdateSoonest(Top(k.tree), Top(tree)), None))
  }

  function RemoveTimer(s: State, c: Which, x: Timer): State {
    var k := At(s, c);
    var (tree, found) := Remove(k.tree, x, Sooner);
    var removed := if found then Some(x) else None;
    var arming := if Top(k.tree) == removed then UpdateSoonest(None, Top(tree)) else Keep;
    Put(s, c, k.(tree := tree)).(msg := ThenArm(c, arming, Some(x.id)))
  }

  /** One round of the loop in MsgTimerExpire: pop the next timer, or finish by arming the new head. */
  function PopNext(s: State, c: Which, at: Deadline, first: bool): State {
    var k := At(s, c);
    if k.tree.Leaf? || (!first && OutRanks(at, k.tree.data.due)) then
      s.(msg := ThenArm(c, UpdateSoonest(None, Top(k.tree)), None))
    else
      Put(s, c, k.(tree := Pop(k.tree, Sooner))).(msg := Expiring(c, at, k.tree.data.id))
  }

  /** LocTimerDelegate::expire reads the client pointer without the lock. */
  function ReadClient(s: State, c: Which, at: Deadline, d: nat): State {
    if d in s.delegates && s.delegates[d].client.Some?
    then s.(msg := Stopping(c, at, s.delegates[d].client.value))
    else s.(msg := Popping(c, at, false))
  }

  function CountCallback(s: State, l: nat): State {
    if l in s.timers
    then s.(timers := s.timers[l := s.timers[l].(callbacks := s.timers[l].callbacks + 1)])
    else s
  }

  // ---------- runs ----------

  /** s' is reached from s by taking the steps in order. */
  ghost predicate Run(s: State, steps: seq<Step>, s': State)
    decreases |steps|
  {
    if steps == [] then s' == s
    else Enabled(s, steps[0]) && Run(Apply(s, steps[0]), steps[1..], s')
  }

  predicate Queued(s: State, m: Msg) {
    exists i | s.done <= i < |s.log| :: s.log[i] == m
  }

  /** An expiry of c is on its way: the poll thread is past epoll_wait with it, or its message waits. */
  predicate ExpiryInFlight(s: State, c: Which) {
    (s.poll.Handling? && c in s.poll.events) || Queued(s, MsgExpire(c))
  }

  /** The kernel will report c at exactly the time its soonest timer is due. */
  predicate ArmedAtHead(s: State, c: Which) {
    At(s, c).tree.Node? && At(s, c).polled && At(s, c).armed == Some(At(s, c).tree.data.due)
  }
}
