/** AgpsStateMachine and DSStateMachine as one class whose overridden methods look at isDs, and
    AgpsManager on top of it. Every method is proved equal to its function in AgpsModel. */
module Agps {
  import opened Wrappers
  import opened AgpsModel

  datatype AgpsType = Supl | SuplEs | Wwan

  class AgpsStateMachine {
    const mAgpsType: AgpsType  // SuplEs for the data-service machine, and for no other
    const isDs: bool
    var mState: AgpsState
    var mSubscriberList: seq<Subscriber>
    var mRetries: int
    var sent: seq<Mark>  // the calls made so far, those about its data call by the manager included

    ghost function View(): Machine
      reads this
    {
      Machine(isDs, mState, mSubscriberList, mRetries, sent)
    }

    constructor (agpsType: AgpsType)
      ensures View() == Initial(agpsType == SuplEs) && mAgpsType == agpsType
    {
      mAgpsType, isDs := agpsType, agpsType == SuplEs;
      mState, mSubscriberList, mRetries, sent := Released, [], 0, [];
    }

    // ---------- the list ----------

    method AddSubscriber(subscriberToAdd: Subscriber)
      modifies this
      ensures View() == Add(old(View()), subscriberToAdd)
    {
      var i := 0;
      while i < |mSubscriberList|
        invariant i <= |mSubscriberList|
        invariant View() == old(View())
        invariant forall k | 0 <= k < i :: mSubscriberList[k].handle != subscriberToAdd.handle
      {
        if mSubscriberList[i].handle == subscriberToAdd.handle { return; }
        i := i + 1;
      }
      mSubscriberList := mSubscriberList + [subscriberToAdd];
    }

    method DeleteSubscriber(handle: int)
      modifies this
      ensures View() == old(View()).(subs := Without(old(mSubscriberList), handle))
    {
      mSubscriberList := Erase(mSubscriberList, handle);
    }

    /** The erasing loop of deleteSubscriber. */
    static method Erase(list0: seq<Subscriber>, handle: int) returns (list: seq<Subscriber>)
      ensures list == Without(list0, handle)
    {
      list := list0;
      var i := 0;
      ghost var done, todo := [], list;
      while i < |list|
        invariant list == done + todo && i == |done|
        invariant done + Without(todo, handle) == Without(list0, handle)
        decreases |todo|
      {
        DropOne(done, todo);
        if list[i].handle == handle {
          list := list[..i] + list[i + 1..];
        } else {
          SkipOne(done, todo[0], Without(todo[1..], handle));
          done := done + [todo[0]];
          i := i + 1;
        }
        todo := todo[1..];
      }
      assert todo == [] && done == list;
    }

    static lemma SkipOne(done: seq<Subscriber>, s: Subscriber, rest: seq<Subscriber>)
      ensures done + ([s] + rest) == (done + [s]) + rest
    {
    }

    static lemma DropOne(done: seq<Subscriber>, todo: seq<Subscriber>)
      requires todo != []
      ensures var list, i := done + todo, |done|;
        list[i] == todo[0] && list[..i] + list[i + 1..] == done + todo[1..] && list == (done + [todo[0]]) + todo[1..]
    {
    }

    method AnyActiveSubscribers() returns (any: bool)
      ensures any == AnyActive(mSubscriberList)
    {
      var i := 0;
      while i < |mSubscriberList|
        invariant i <= |mSubscriberList|
        invariant forall k | 0 <= k < i :: mSubscriberList[k].inactive
      {
        if !mSubscriberList[i].inactive { return true; }
        i := i + 1;
      }
      return false;
    }

    method GetSubscriber(connHandle: int) returns (found: Option<Subscriber>)
      ensures found == Find(mSubscriberList, connHandle)
    {
      var i := 0;
      while i < |mSubscriberList|
        invariant i <= |mSubscriberList|
        invariant Find(mSubscriberList, connHandle) == Find(mSubscriberList[i..], connHandle)
      {
        if mSubscriberList[i].handle == connHandle { return Some(mSubscriberList[i]); }
        assert mSubscriberList[i..][1..] == mSubscriberList[i + 1..];
        i := i + 1;
      }
      return None;
    }

    method GetFirstActiveSubscriber() returns (found: Option<Subscriber>)
      ensures found == FirstActive(mSubscriberList)
    {
      var i := 0;
      while i < |mSubscriberList|
        invariant i <= |mSubscriberList|
        invariant FirstActive(mSubscriberList) == FirstActive(mSubscriberList[i..])
      {
        if !mSubscriberList[i].inactive { return Some(mSubscriberList[i]); }
        assert mSubscriberList[i..][1..] == mSubscriberList[i + 1..];
        i := i + 1;
      }
      return None;
    }

    method DropAllSubscribers()
      modifies this
      ensures View() == old(View()).(subs := [])
    {
      while mSubscriberList != []
        invariant View() == old(View()).(subs := mSubscriberList)
        decreases |mSubscriberList|
      {
        mSubscriberList := mSubscriberList[1..];
      }
    }

    /** The mIsInactive flag of the subscriber with this handle. */
    method SetInactive(connHandle: int)
      modifies this
      ensures View() == old(View()).(subs := Deactivate(old(mSubscriberList), connHandle))
    {
      mSubscriberList := Flagged(mSubscriberList, connHandle);
    }

    static method Flagged(list0: seq<Subscriber>, connHandle: int) returns (list: seq<Subscriber>)
      ensures list == Deactivate(list0, connHandle)
    {
      list := list0;
      var i := 0;
      ghost var done, todo := [], list;
      while i < |list| && list[i].handle != connHandle
        invariant list == list0 == done + todo && i == |done|
        invariant done + Deactivate(todo, connHandle) == Deactivate(list0, connHandle)
        decreases |todo|
      {
        DropOne(done, todo);
        SkipOne(done, todo[0], Deactivate(todo[1..], connHandle));
        done, todo := done + [todo[0]], todo[1..];
        i := i + 1;
      }
      if i < |list| {
        FlagOne(done, todo);
        list := list[i := list[i].(inactive := true)];
      } else {
        assert todo == [] && done == list;
      }
    }

    static lemma FlagOne(done: seq<Subscriber>, todo: seq<Subscriber>)
      requires todo != []
      ensures var list, i := done + todo, |done|;
        && list[i] == todo[0]
        && list[i := list[i].(inactive := true)] == done + ([todo[0].(inactive := true)] + todo[1..])
    {
    }

    // ---------- notifications ----------

    method NotifyEventToSubscriber(event: Event, handle: int, deleteSubscriberPostNotify: bool)
      modifies this
      ensures View() ==
        var m := Notify(old(View()), event, handle);
        if deleteSubscriberPostNotify then m.(subs := Without(m.subs, handle)) else m
    {
      match event {
        case Granted => sent := sent + [OpenStatus(handle, true)];
        case Denied =>
          if isDs {
            mRetries := 0;
            sent := sent + [PostSuplRequest(handle)];
          } else {
            sent := sent + [OpenStatus(handle, false)];
          }
        case Unsubscribe => sent := sent + [CloseStatus(handle, true)];
        case ReleasedEvent =>
          if isDs {
            sent := sent + [DsClose, CloseStatus(handle, true)];
          } else {
            sent := sent + [CloseStatus(handle, true)];
          }
        case Subscribe =>
      }
      if deleteSubscriberPostNotify {
        DeleteSubscriber(handle);
      }
    }

    method NotifyAllSubscribers(event: Event, deleteSubscriberPostNotify: bool, audience: Audience)
      modifies this
      ensures View() == NotifyAll(old(View()), event, deleteSubscriberPostNotify, audience)
    {
      ghost var m, target := View(), NotifyEach(View(), event, mSubscriberList, audience);
      ghost var stays := Staying(mSubscriberList, deleteSubscriberPostNotify, audience);
      ghost var done, todo := [], mSubscriberList;
      var i := 0;
      while i < |mSubscriberList|
        invariant mSubscriberList == done + todo && i == |done|
        invariant View() == m.(subs := mSubscriberList)
        invariant NotifyEach(m, event, todo, audience) == target
        invariant done + Staying(todo, deleteSubscriberPostNotify, audience) == stays
        decreases |todo|
      {
        NextNotified(m, event, todo, audience);
        NextStays(done, todo, deleteSubscriberPostNotify, audience);
        i := NotifyOne(event, deleteSubscriberPostNotify, audience, i, m, done, todo);
        m := NotifiedOne(m, event, todo[0], audience);
        done := KeptOne(done, todo[0], deleteSubscriberPostNotify, audience);
        todo := todo[1..];
      }
      assert todo == [] && done == mSubscriberList;
      assert done + Staying([], deleteSubscriberPostNotify, audience) == done;
      assert target == m && stays == mSubscriberList;
    }

    static ghost function Staying(todo: seq<Subscriber>, delete: bool, a: Audience): seq<Subscriber> {
      if delete then NotSelected(todo, a) else todo
    }

    /** What one round does to the calls, and to the part of the list already passed. */
    static ghost function NotifiedOne(m: Machine, e: Event, s: Subscriber, a: Audience): Machine {
      if Selected(a, s) then Notify(m, e, s.handle) else m
    }

    static ghost function KeptOne(done: seq<Subscriber>, s: Subscriber, delete: bool, a: Audience): seq<Subscriber> {
      if Selected(a, s) && delete then done else done + [s]
    }

    static lemma NextNotified(m: Machine, e: Event, todo: seq<Subscriber>, a: Audience)
      requires todo != []
      ensures NotifyEach(NotifiedOne(m, e, todo[0], a), e, todo[1..], a) == NotifyEach(m, e, todo, a)
    {
    }

    static lemma NextStays(done: seq<Subscriber>, todo: seq<Subscriber>, delete: bool, a: Audience)
      requires todo != []
      ensures KeptOne(done, todo[0], delete, a) + Staying(todo[1..], delete, a) == done + Staying(todo, delete, a)
    {
      assert todo == [todo[0]] + todo[1..];
      SkipOne(done, todo[0], Staying(todo[1..], delete, a));
    }

    /** The body of the loop: the subscriber at i, and where the loop goes on. */
    method NotifyOne(event: Event, delete: bool, audience: Audience, i: nat,
                     ghost m: Machine, ghost done: seq<Subscriber>, ghost todo: seq<Subscriber>)
      returns (next: nat)
      requires todo != [] && mSubscriberList == done + todo && i == |done|
      requires View() == m.(subs := mSubscriberList)
      modifies this
      ensures View() == NotifiedOne(m, event, todo[0], audience).(subs := mSubscriberList)
      ensures mSubscriberList == KeptOne(done, todo[0], delete, audience) + todo[1..]
      ensures next == |KeptOne(done, todo[0], delete, audience)|
    {
      DropOne(done, todo);
      next := i + 1;
      if Selected(audience, mSubscriberList[i]) {
        NotifyEventToSubscriber(event, mSubscriberList[i].handle, false);
        if delete {
          mSubscriberList := mSubscriberList[..i] + mSubscriberList[i + 1..];
          next := i;
        }
      }
    }

    // ---------- the data connection ----------

    method RequestOrReleaseDataConn(request: bool, env: Env) returns (isZero: bool)
      modifies this
      ensures (View(), isZero) == RequestOrRelease(old(View()), request, env)
    {
      if !isDs {
        sent := sent + [if request then RequestConn else ReleaseConn];
        return true;
      }
      if !request && env.hasStop {
        sent := sent + [DsStop];
        return true;
      }
      var subscriber := GetFirstActiveSubscriber();
      if subscriber.None? { return false; }
      if !env.hasStart {
        NotifyEventToSubscriber(Denied, subscriber.value.handle, false);
        return false;
      }
      sent := sent + [DsOpen(env.open)];
      match env.open {
        case Busy =>
          mRetries := mRetries + 1;
          if mRetries > MAX_RETRIES {
            NotifyEventToSubscriber(Denied, subscriber.value.handle, false);
          } else {
            sent := sent + [StartTimer];
          }
          return false;
        case Unsupported =>
          NotifyEventToSubscriber(Denied, subscriber.value.handle, false);
          return false;
        case Success => return true;
        case OtherError => return false;
      }
    }

    // ---------- the events ----------

    method ProcessAgpsEvent(event: Event, current: Subscriber, env: Env)
      modifies this
      ensures View() == Process(old(View()), event, current, env)
    {
      match event {
        case Subscribe => ProcessSubscribe(current, env);
        case Unsubscribe => ProcessUnsubscribe(current, env);
        case Granted => ProcessGranted();
        case ReleasedEvent =>
          if isDs && mState.Pending? { ProcessDenied(env); } else { ProcessReleased(env); }
        case Denied => ProcessDenied(env);
      }
    }

    method ProcessSubscribe(current: Subscriber, env: Env)
      modifies this
      ensures View() == OnSubscribe(old(View()), current, env)
    {
      var known := GetSubscriber(current.handle);
      if known.None? { sent := sent + [Joined(current.handle)]; }
      match mState {
        case Released =>
          AddSubscriber(current);
          var isZero := RequestOrReleaseDataConn(true, env);
          if isZero { mState := Pending; }
        case Acquired =>
          NotifyEventToSubscriber(Granted, current.handle, false);
          AddSubscriber(current);
        case _ => AddSubscriber(current);
      }
    }

    method LeaveList(current: Subscriber)
      modifies this
      ensures View() == Leave(old(View()), current)
    {
      if current.waits {
        SetInactive(current.handle);
      } else {
        NotifyEventToSubscriber(Unsubscribe, current.handle, true);
      }
    }

    method ProcessUnsubscribe(current: Subscriber, env: Env)
      modifies this
      ensures View() == OnUnsubscribe(old(View()), current, env)
    {
      match mState {
        case Released => NotifyEventToSubscriber(Unsubscribe, current.handle, false);
        case Releasing =>
          LeaveList(current);
          if mSubscriberList == [] { mState := Released; }
        case _ =>
          LeaveList(current);
          var anyActive := AnyActiveSubscribers();
          if mSubscriberList == [] {
            mState := Released;
            var _ := RequestOrReleaseDataConn(false, env);
          } else if !anyActive {
            mState := Releasing;
            var _ := RequestOrReleaseDataConn(false, env);
          }
      }
    }

    method ProcessGranted()
      modifies this
      ensures View() == OnGranted(old(View()))
    {
      if mState.Pending? {
        mState := Acquired;
        NotifyAllSubscribers(Granted, false, Active);
      }
    }

    method ReopenOrFinish(env: Env)
      modifies this
      ensures View() == Reopen(old(View()), env)
    {
      NotifyAllSubscribers(ReleasedEvent, true, Inactive);
      var anyActive := AnyActiveSubscribers();
      if anyActive {
        mState := Pending;
        var _ := RequestOrReleaseDataConn(true, env);
      } else {
        mState := Released;
      }
    }

    method ProcessReleased(env: Env)
      modifies this
      ensures View() == OnReleased(old(View()), env)
    {
      match mState {
        case Acquired =>
          mState := Released;
          NotifyAllSubscribers(ReleasedEvent, true, All);
        case Releasing => ReopenOrFinish(env);
        case _ =>
      }
    }

    method ProcessDenied(env: Env)
      modifies this
      ensures View() == OnDenied(old(View()), env)
    {
      match mState {
        case Releasing => ReopenOrFinish(env);
        case Pending =>
          mState := Released;
          NotifyAllSubscribers(Denied, true, All);
        case _ =>
      }
    }

    /** The manager made these calls to the driver of this machine's data call. */
    method RecordCalls(marks: seq<Mark>)
      modifies this`sent
      ensures View() == Call(old(View()), marks)
    {
      sent := sent + marks;
    }

    /** DSStateMachine::retryCallback: posts the request of the first active subscriber again. */
    method RetryCallback() returns (post: Option<Mark>)
      ensures post == if AnyActive(mSubscriberList)
                      then Some(PostEsRequest(FirstActive(mSubscriberList).value.handle))
                      else None
    {
      var subscriber := GetFirstActiveSubscriber();
      post := if subscriber.Some? then Some(PostEsRequest(subscriber.value.handle)) else None;
    }
  }

  /** What creating the machines depends on: the configured capability, whether the data-service driver's
      init function is registered, and whether it answers zero. */
  datatype Setup = Setup(agpsCapable: bool, hasInit: bool, initSucceeds: bool)

  class AgpsManager {
    var mAgnssNif: AgpsStateMachine?
    var mInternetNif: AgpsStateMachine?
    var mDsNif: AgpsStateMachine?
    const useEmergencyPdn: bool
    var made: seq<Mark>  // the calls the manager makes itself

    ghost predicate Valid()
      reads this
    {
      && (mAgnssNif != null ==> mAgnssNif.mAgpsType == Supl && !mAgnssNif.isDs)
      && (mInternetNif != null ==> mInternetNif.mAgpsType == Wwan && !mInternetNif.isDs)
      && (mDsNif != null ==> mDsNif.mAgpsType == SuplEs && mDsNif.isDs && useEmergencyPdn)
    }

    ghost function Machines(): set<AgpsStateMachine>
      reads this
    {
      (if mAgnssNif == null then {} else {mAgnssNif})
      + (if mInternetNif == null then {} else {mInternetNif})
      + (if mDsNif == null then {} else {mDsNif})
    }

    constructor (useEmergencyPdn: bool)
      ensures Valid() && Machines() == {} && made == [] && this.useEmergencyPdn == useEmergencyPdn
    {
      mAgnssNif, mInternetNif, mDsNif := null, null, null;
      this.useEmergencyPdn := useEmergencyPdn;
      made := [];
    }

    /** A machine that is there stays; one that is not is created, new and RELEASED, if it is due. */
    twostate predicate KeptOrCreated(nif: AgpsStateMachine?, new nif': AgpsStateMachine?, due: bool, ds: bool)
      reads nif'
    {
      if nif != null then nif' == nif
      else if due then nif' != null && fresh(nif') && nif'.View() == Initial(ds)
      else nif' == null
    }

    /** createAgpsStateMachines. The data-service machine waits for its driver to start. */
    method CreateAgpsStateMachines(setup: Setup)
      requires Valid()
      modifies this
      ensures Valid()
      ensures KeptOrCreated(old(mInternetNif), mInternetNif, true, false)
      ensures KeptOrCreated(old(mAgnssNif), mAgnssNif, setup.agpsCapable, false)
      ensures var wanted := setup.agpsCapable && useEmergencyPdn && setup.hasInit;
        && KeptOrCreated(old(mDsNif), mDsNif, wanted && setup.initSucceeds, true)
        && made == old(made) + if wanted && old(mDsNif) == null then [DsInit(false)] else []
    {
      if mInternetNif == null {
        mInternetNif := new AgpsStateMachine(Wwan);
      }
      if setup.agpsCapable {
        if mAgnssNif == null {
          mAgnssNif := new AgpsStateMachine(Supl);
        }
        if mDsNif == null && useEmergencyPdn {
          if !setup.hasInit { return; }
          made := made + [DsInit(false)];
          if !setup.initSucceeds { return; }
          mDsNif := new AgpsStateMachine(SuplEs);
        }
      }
    }

    /** The machine a type stands for, once created. */
    function MachineFor(agpsType: AgpsType): AgpsStateMachine?
      reads this
    {
      match agpsType
      case Supl => mAgnssNif
      case SuplEs => if useEmergencyPdn then mDsNif else mAgnssNif
      case Wwan => mInternetNif
    }

    /** Asking for the emergency machine when it is missing tries to create all that are. The machine found has
        the type asked for; without an emergency connection the SUPL machine stands in. */
    method GetAgpsStateMachine(agpsType: AgpsType, setup: Setup) returns (sm: AgpsStateMachine?)
      requires Valid()
      modifies this
      ensures Valid() && sm == MachineFor(agpsType)
      ensures sm != null ==>
        sm.mAgpsType == if agpsType == SuplEs && !useEmergencyPdn then Supl else agpsType
      ensures var creates := agpsType == SuplEs && useEmergencyPdn && old(mDsNif) == null;
        && KeptOrCreated(old(mInternetNif), mInternetNif, creates, false)
        && KeptOrCreated(old(mAgnssNif), mAgnssNif, creates && setup.agpsCapable, false)
        && KeptOrCreated(old(mDsNif), mDsNif,
                         creates && setup.agpsCapable && setup.hasInit && setup.initSucceeds, true)
        && made == old(made) + if creates && setup.agpsCapable && setup.hasInit then [DsInit(false)] else []
    {
      if agpsType == SuplEs && useEmergencyPdn && mDsNif == null {
        CreateAgpsStateMachines(setup);
      }
      sm := MachineFor(agpsType);
    }

    /** Exactly one machine sees the request, the one of the type asked for, created for it if need be; or,
        when there is none, the caller is told of the failure. */
    method RequestATL(connHandle: int, agpsType: AgpsType, env: Env, setup: Setup) returns (ghost sm: AgpsStateMachine?)
      requires Valid()
      modifies this, Machines()
      ensures Valid() && old(Machines()) <= Machines() && (sm != null ==> sm in Machines())
      ensures sm != null ==>
        sm.mAgpsType == if agpsType == SuplEs && !useEmergencyPdn then Supl else agpsType
      ensures sm != null <==>
        || old(MachineFor(agpsType)) != null
        || (agpsType == SuplEs && useEmergencyPdn && setup == Setup(true, true, true))
      ensures sm != null ==>
        && (old(MachineFor(agpsType)) != null ==> sm == old(MachineFor(agpsType)))
        && sm.View() == Do(if sm in old(Machines()) then old(SavedView(MachineFor(agpsType))) else Initial(true),
                           Request(connHandle, agpsType == SuplEs), env)
      ensures made == old(made)
        + (if agpsType == SuplEs && useEmergencyPdn && old(mDsNif) == null && setup.agpsCapable && setup.hasInit
           then [DsInit(false)] else [])
        + (if sm == null then [OpenStatus(connHandle, false)] else [])
      ensures forall other | other in old(Machines()) && other != sm :: other.View() == old(other.View())
      ensures forall other | other in Machines() - old(Machines()) && other != sm :: other.View() == Initial(false)
    {
      var machine := GetAgpsStateMachine(agpsType, setup);
      sm := machine;
      if machine == null {
        made := made + [OpenStatus(connHandle, false)];
      } else {
        machine.ProcessAgpsEvent(Subscribe, Subscriber(connHandle, agpsType == SuplEs, false), env);
      }
    }

    ghost function SavedView(sm: AgpsStateMachine?): Machine
      reads sm
    {
      if sm == null then Initial(false) else sm.View()
    }

    /** The first machine holding the handle, in the order SUPL, internet, emergency, sees the release; when
        none does, the caller is told. */
    method ReleaseATL(connHandle: int, env: Env) returns (ghost holder: AgpsStateMachine?)
      requires Valid()
      modifies this`made, Machines()
      ensures holder == old(
        if mAgnssNif != null && Present(mAgnssNif.mSubscriberList, connHandle) then mAgnssNif
        else if mInternetNif != null && Present(mInternetNif.mSubscriberList, connHandle) then mInternetNif
        else if mDsNif != null && Present(mDsNif.mSubscriberList, connHandle) then mDsNif
        else null)
      ensures holder == null ==> made == old(made) + [CloseStatus(connHandle, false)]
      ensures holder != null ==> made == old(made)
      ensures forall sm | sm in Machines() ::
        sm.View() == if sm == holder then Do(old(sm.View()), Release(connHandle), env) else old(sm.View())
    {
      var sm: AgpsStateMachine?, subscriber := null, None;
      if mAgnssNif != null {
        subscriber := mAgnssNif.GetSubscriber(connHandle);
        if subscriber.Some? { sm := mAgnssNif; }
      }
      if sm == null && mInternetNif != null {
        subscriber := mInternetNif.GetSubscriber(connHandle);
        if subscriber.Some? { sm := mInternetNif; }
      }
      if sm == null && mDsNif != null {
        subscriber := mDsNif.GetSubscriber(connHandle);
        if subscriber.Some? { sm := mDsNif; }
      }
      holder := sm;
      if sm == null {
        made := made + [CloseStatus(connHandle, false)];
        return;
      }
      sm.ProcessAgpsEvent(Unsubscribe, subscriber.value, env);
    }

    /** handleModemSSR: every machine forgets its subscribers and nothing else, and the data-service driver
        is stopped, closed, released and started again. */
    method HandleModemSSR(env: Env)
      requires Valid()
      modifies this`made, Machines()
      ensures forall sm | sm in Machines() :: sm.View() == Do(old(sm.View()), Drop, env)
      ensures made == old(made) + if useEmergencyPdn then DRIVER_RESTART else []
    {
      if mAgnssNif != null { mAgnssNif.DropAllSubscribers(); }
      if mInternetNif != null { mInternetNif.DropAllSubscribers(); }
      if mDsNif != null { mDsNif.DropAllSubscribers(); }
      if useEmergencyPdn {
        made := made + DRIVER_RESTART;
        if mDsNif != null { mDsNif.RecordCalls(DRIVER_RESTART); }
      }
    }
  }
}
