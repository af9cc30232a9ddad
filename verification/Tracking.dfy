/** GnssAdapter's tracking multiplexer: the message bodies and the loops that look for the smallest
    interval, each proved to take its step of TrackingModel. */
module Tracking {
  import opened TrackingModel

  datatype Error = Success | GeneralFailure | CallbackMissing | InvalidParameter

  datatype Response = Response(client: nat, err: Error, id: nat)

  // ---------- messages ----------

  datatype Message =
    | MsgAddClient(client: nat, callbacks: Callbacks)
    | MsgStart(client: nat, id: nat, options: Options)
    | MsgUpdate(client: nat, id: nat, options: Options)
    | MsgStop(client: nat, id: nat)
    | MsgRemoveClient(client: nat)
    | MsgRestart
    | ModemRestart  // no message: the engine loses what it was doing

  /** One stop of every session of the client, in some order, and nothing else. */
  ghost predicate StopsOf(sessions: map<Key, Options>, client: nat, steps: seq<Step>) {
    && (forall i | 0 <= i < |steps| :: steps[i].Stopped? && steps[i].key in sessions && steps[i].key.client == client)
    && (forall i, j | 0 <= i < j < |steps| :: steps[i] != steps[j])
    && (forall k | k in sessions && k.client == client :: Stopped(k) in steps)
  }

  /** The sessions of everybody else, and those in keys. */
  function Kept(sessions: map<Key, Options>, client: nat, keys: set<Key>): map<Key, Options> {
    map k | k in sessions && (k.client != client || k in keys) :: sessions[k]
  }

  lemma OneMoreStop(all: map<Key, Options>, todo: set<Key>, client: nat, steps: seq<Step>, key: Key)
    requires StopsOf(all - todo, client, steps) && key in all && key in todo
    ensures StopsOf(all - (todo - {key}), client, if key.client == client then steps + [Stopped(key)] else steps)
  {
    assert forall k :: k in all - (todo - {key}) <==> k in all - todo || k == key;
    assert Stopped(key) !in steps;
    if key.client == client {
      assert (steps + [Stopped(key)])[|steps|] == Stopped(key);
    }
  }

  /** The steps that one message takes, given the sessions it finds. */
  ghost predicate Expands(message: Message, sessions: map<Key, Options>, steps: seq<Step>) {
    match message
    case MsgAddClient(client, callbacks) => steps == [ClientAdded(client, callbacks)]
    case MsgStart(client, id, options) => steps == [Started(Key(client, id), options)]
    case MsgUpdate(client, id, options) => steps == [Updated(Key(client, id), options)]
    case MsgStop(client, id) => steps == [Stopped(Key(client, id))]
    case MsgRemoveClient(client) =>
      && steps != [] && steps[|steps| - 1] == ClientErased(client)
      && StopsOf(sessions, client, steps[..|steps| - 1])
    case MsgRestart => steps == [Restarted(true)] || steps == [Restarted(false)]
    case ModemRestart => steps == [EngineReset]
  }

  /** The steps are those of the messages, in order. */
  ghost predicate Carries(messages: seq<Message>, states: seq<Snapshot>, steps: seq<Step>)
    requires |states| == |steps| + 1
    decreases |messages|
  {
    if messages == [] then steps == []
    else exists cut | 0 <= cut <= |steps| ::
      && Carries(messages[..|messages| - 1], states[..cut + 1], steps[..cut])
      && Expands(messages[|messages| - 1], states[cut].sessions, steps[cut..])
  }

  // ---------- the engine ----------

  /** The location engine behind LocApiBase; a call that fails changes nothing. */
  class LocApi {
    var engine: Engine

    constructor ()
      ensures !engine.on
    {
      engine := Engine(false, 0, 0);
    }

    method StartFix(options: Options) returns (ok: bool)
      modifies this
      ensures engine == if ok then After(old(engine), Fix(options)) else old(engine)
    {
      ok := *;
      if ok { engine := Engine(true, options.minInterval, options.mode); }
    }

    method StopFix() returns (ok: bool)
      modifies this
      ensures engine == if ok then After(old(engine), Halt) else old(engine)
    {
      ok := *;
      if ok { engine := engine.(on := false); }
    }

    /** The modem restarts: whatever was running is gone. */
    method Reset()
      modifies this
      ensures !engine.on
    {
      engine := Engine(false, 0, 0);
    }
  }

  // ---------- the adapter ----------

  class GnssAdapter {
    const mLocApi: LocApi
    var mTrackingSessions: map<Key, Options>
    var mClientData: map<nat, Callbacks>
    var responses: seq<Response>

    predicate Valid()
      reads this
    {
      AllSet(mTrackingSessions)
    }

    ghost function Snap(): Snapshot
      reads this, mLocApi
    {
      Snapshot(mTrackingSessions, mClientData, mLocApi.engine)
    }

    /** What the adapter would be with these sessions. */
    ghost function With(sessions: map<Key, Options>): Snapshot
      reads this, mLocApi
    {
      Snap().(sessions := sessions)
    }

    constructor (locApi: LocApi)
      requires !locApi.engine.on
      ensures Valid() && InStep(Snap()) && mLocApi == locApi && mTrackingSessions == map[] && mClientData == map[]
    {
      mLocApi := locApi;
      mTrackingSessions, mClientData, responses := map[], map[], [];
    }

    /** The loop that looks for the smallest interval among all sessions but the excluded one. */
    method SmallestIntervalOptions(except: set<Key>) returns (smallest: Options)
      requires Valid()
      ensures var others := mTrackingSessions - except;
        if others == map[] then smallest == UNSET else smallest.size != 0 && IsSmallest(others, smallest)
    {
      smallest := UNSET;
      var todo := mTrackingSessions.Keys;
      ghost var seen: set<Key> := {};
      while todo != {}
        invariant todo + seen == mTrackingSessions.Keys && todo !! seen
        invariant if seen <= except then smallest == UNSET
                  else
                    && smallest.size != 0
                    && IsSmallest(map k | k in seen && k !in except :: mTrackingSessions[k], smallest)
        decreases todo
      {
        var key :| key in todo;
        var options := mTrackingSessions[key];
        if key !in except && (smallest.size == 0 || options.minInterval < smallest.minInterval) {
          smallest := options;
        }
        ghost var before := map k | k in seen && k !in except :: mTrackingSessions[k];
        todo, seen := todo - {key}, seen + {key};
        ghost var now := map k | k in seen && k !in except :: mTrackingSessions[k];
        assert forall k | k in before :: k in now && now[k] == before[k];
        assert key !in except ==> key in now && now[key] == options;
      }
      assert mTrackingSessions - except == map k | k in seen && k !in except :: mTrackingSessions[k];
      assert forall k | k in mTrackingSessions && k !in except :: k in mTrackingSessions - except;
    }

    method StartTracking(options: Options) returns (err: Error)
      modifies mLocApi
      ensures err.Success? || err.GeneralFailure?
      ensures mLocApi.engine ==
        if err.Success? then After(old(mLocApi.engine), Fix(options)) else old(mLocApi.engine)
    {
      var ok := mLocApi.StartFix(options);
      err := if ok then Success else GeneralFailure;
    }

    method StopTracking() returns (err: Error)
      modifies mLocApi
      ensures err.Success? || err.GeneralFailure?
      ensures mLocApi.engine == if err.Success? then After(old(mLocApi.engine), Halt) else old(mLocApi.engine)
    {
      var ok := mLocApi.StopFix();
      err := if ok then Success else GeneralFailure;
    }

    /** On success the engine is in step with the sessions, the new one among them, and runs in an asked
        mode, exactly under the conditions of a start. */
    method StartTrackingMultiplex(options: Options, ghost key: Key) returns (err: Error)
      requires Valid()
      modifies mLocApi
      ensures err.Success? || err.GeneralFailure?
      ensures !err.Success? ==> mLocApi.engine == old(mLocApi.engine)
      ensures Carried(old(Snap()), CallForStart(mTrackingSessions, options), mTrackingSessions[key := options],
                      if err.Success? then With(mTrackingSessions[key := options]) else Snap())
      ensures err.Success? && old(InStep(Snap())) ==>
        && (InStep(With(mTrackingSessions[key := options])) <==>
              StartKeepsInterval(mTrackingSessions, old(mLocApi.engine), key, options))
        && (Exact(With(mTrackingSessions[key := options])) <==>
              StartKeepsMode(mTrackingSessions, old(mLocApi.engine), key, options))
    {
      err := Success;
      if EngineOk(mTrackingSessions, mLocApi.engine) {
        StartEffect(mTrackingSessions, mLocApi.engine, key, options);
      }
      if mTrackingSessions == map[] {
        err := StartTracking(options);
      } else {
        var smallest := SmallestIntervalOptions({});
        assert mTrackingSessions - {} == mTrackingSessions;
        if options.minInterval < smallest.minInterval {
          err := StartTracking(options);
        }
      }
    }

    method ReportResponse(client: nat, err: Error, id: nat)
      modifies this`responses
      ensures client in mClientData && mClientData[client].response ==>
        responses == old(responses) + [Response(client, err, id)]
      ensures !(client in mClientData && mClientData[client].response) ==> responses == old(responses)
    {
      if client in mClientData && mClientData[client].response {
        responses := responses + [Response(client, err, id)];
      }
    }

    /** MsgStartTracking. */
    method ProcStart(client: nat, id: nat, options: Options) returns (err: Error)
      requires Valid()
      modifies this, mLocApi
      ensures Valid() && Took(old(Snap()), Started(Key(client, id), options), Snap())
      ensures old(InStep(Snap())) ==>
        (InStep(Snap()) <==> old(KeepsInterval(Snap(), Started(Key(client, id), options))))
      ensures old(Exact(Snap())) ==> (Exact(Snap()) <==> old(KeepsMode(Snap(), Started(Key(client, id), options))))
      ensures mTrackingSessions ==
        if err.Success? then old(mTrackingSessions)[Key(client, id) := options] else old(mTrackingSessions)
      ensures !err.Success? ==> mLocApi.engine == old(mLocApi.engine)
      ensures err.CallbackMissing? <==>
        client !in mClientData || (!mClientData[client].tracking && !mClientData[client].measurements)
      ensures err.InvalidParameter? <==> !err.CallbackMissing? && options.size == 0
      ensures mClientData == old(mClientData)
      ensures responses == old(responses) +
        if client in mClientData && mClientData[client].response then [Response(client, err, id)] else []
      ensures Response(client, Success, id) in responses[|old(responses)|..] <==>
        && client in mClientData && mClientData[client].response
        && mTrackingSessions == old(mTrackingSessions)[Key(client, id) := options] && err.Success?
    {
      ghost var s, step := Snap(), Started(Key(client, id), options);
      err := Success;
      if !(client in mClientData && (mClientData[client].tracking || mClientData[client].measurements)) {
        err := CallbackMissing;
      } else if options.size == 0 {
        err := InvalidParameter;
      } else {
        err := StartTrackingMultiplex(options, Key(client, id));
        if err.Success? {
          mTrackingSessions := mTrackingSessions[Key(client, id) := options];
        }
      }
      ReportResponse(client, err, id);
      StepIffs(s, step, Snap());
    }

    static lemma StepIffs(s: Snapshot, step: Step, s': Snapshot)
      requires Took(s, step, s')
      ensures InStep(s) ==> (InStep(s') <==> KeepsInterval(s, step))
      ensures Exact(s) ==> (Exact(s') <==> KeepsMode(s, step))
    {
      if InStep(s) {
        StepKeepsIntervalIff(s, step, s');
      }
      if Exact(s) {
        StepKeepsModeIff(s, step, s');
      }
    }

    /** On success the engine is in step with the updated sessions, and runs in an asked mode exactly under
        the condition of an update. */
    method UpdateTrackingMultiplex(key: Key, options: Options) returns (err: Error)
      requires Valid() && key in mTrackingSessions
      modifies mLocApi
      ensures err.Success? || err.GeneralFailure?
      ensures !err.Success? ==> mLocApi.engine == old(mLocApi.engine)
      ensures exists call ::
        && IsCallForUpdate(mTrackingSessions, key, options, call)
        && Carried(old(Snap()), call, mTrackingSessions[key := options],
                   if err.Success? then With(mTrackingSessions[key := options]) else Snap())
      ensures err.Success? && old(InStep(Snap())) ==>
        && InStep(With(mTrackingSessions[key := options]))
        && (Exact(With(mTrackingSessions[key := options])) <==>
              UpdateKeepsMode(mTrackingSessions, old(mLocApi.engine), key, options))
    {
      err := Success;
      ghost var call := NoCall;
      if |mTrackingSessions| == 1 {
        OnlySession(mTrackingSessions, key);
        call := Fix(options);
        err := StartTracking(options);
      } else {
        OtherSessions(mTrackingSessions, key);
        var smallest := SmallestIntervalOptions({key});
        if options.minInterval < smallest.minInterval {
          call := Fix(options);
          err := StartTracking(options);
        } else if mTrackingSessions[key].minInterval < smallest.minInterval {
          call := Fix(smallest);
          err := StartTracking(smallest);
        }
      }
      assert IsCallForUpdate(mTrackingSessions, key, options, call);
      if EngineOk(mTrackingSessions, old(mLocApi.engine)) {
        UpdateEffect(mTrackingSessions, old(mLocApi.engine), key, options, call);
      }
    }

    static lemma OnlySession(sessions: map<Key, Options>, key: Key)
      requires key in sessions && |sessions| == 1
      ensures sessions.Keys == {key} && sessions - {key} == map[]
    {
      assert |sessions.Keys - {key}| == 0;
    }

    static lemma OtherSessions(sessions: map<Key, Options>, key: Key)
      requires key in sessions && |sessions| != 1
      ensures sessions - {key} != map[]
    {
      assert |sessions.Keys - {key}| == |sessions| - 1;
      assert (sessions - {key}).Keys == sessions.Keys - {key};
    }

    /** MsgUpdateTracking; a session that is not there is left to the other adapter. */
    method ProcUpdate(client: nat, id: nat, options: Options) returns (err: Error)
      requires Valid()
      modifies this, mLocApi
      ensures Valid() && Took(old(Snap()), Updated(Key(client, id), options), Snap())
      ensures old(InStep(Snap())) ==> InStep(Snap())
      ensures old(Exact(Snap())) ==> (Exact(Snap()) <==> old(KeepsMode(Snap(), Updated(Key(client, id), options))))
      ensures mTrackingSessions ==
        if err.Success? && Key(client, id) in old(mTrackingSessions)
        then old(mTrackingSessions)[Key(client, id) := options]
        else old(mTrackingSessions)
      ensures err.InvalidParameter? <==> Key(client, id) in old(mTrackingSessions) && options.size == 0
      ensures !err.Success? ==> mLocApi.engine == old(mLocApi.engine)
      ensures responses == old(responses) +
        if Key(client, id) in old(mTrackingSessions) && client in mClientData && mClientData[client].response
        then [Response(client, err, id)] else []
    {
      ghost var s := Snap();
      err := Success;
      var key := Key(client, id);
      if key in mTrackingSessions {
        if options.size == 0 {
          err := InvalidParameter;
        } else {
          err := UpdateTrackingMultiplex(key, options);
          if err.Success? {
            mTrackingSessions := mTrackingSessions[key := options];
          }
        }
        ReportResponse(client, err, id);
      }
      StepIffs(s, Updated(key, options), Snap());
    }

    /** On success the engine is in step with the remaining sessions, and runs in an asked mode exactly
        under the condition of a stop. */
    method StopTrackingMultiplex(key: Key) returns (err: Error)
      requires Valid() && key in mTrackingSessions
      modifies mLocApi
      ensures err.Success? || err.GeneralFailure?
      ensures !err.Success? ==> mLocApi.engine == old(mLocApi.engine)
      ensures exists call ::
        && IsCallForStop(mTrackingSessions, key, call)
        && Carried(old(Snap()), call, mTrackingSessions - {key},
                   if err.Success? then With(mTrackingSessions - {key}) else Snap())
      ensures err.Success? && old(InStep(Snap())) ==>
        && InStep(With(mTrackingSessions - {key}))
        && (Exact(With(mTrackingSessions - {key})) <==>
              StopKeepsMode(mTrackingSessions, old(mLocApi.engine), key))
    {
      err := Success;
      ghost var call := NoCall;
      if |mTrackingSessions| == 1 {
        OnlySession(mTrackingSessions, key);
        call := Halt;
        err := StopTracking();
      } else {
        OtherSessions(mTrackingSessions, key);
        var smallest := SmallestIntervalOptions({key});
        if mTrackingSessions[key].minInterval < smallest.minInterval {
          call := Fix(smallest);
          err := StartTracking(smallest);
        }
      }
      assert IsCallForStop(mTrackingSessions, key, call);
      if EngineOk(mTrackingSessions, old(mLocApi.engine)) {
        StopEffect(mTrackingSessions, old(mLocApi.engine), key, call);
      }
    }

    /** MsgStopTracking. */
    method ProcStop(client: nat, id: nat) returns (err: Error)
      requires Valid()
      modifies this, mLocApi
      ensures Valid() && Took(old(Snap()), Stopped(Key(client, id)), Snap())
      ensures old(InStep(Snap())) ==> InStep(Snap())
      ensures old(Exact(Snap())) ==> (Exact(Snap()) <==> old(KeepsMode(Snap(), Stopped(Key(client, id)))))
      ensures mTrackingSessions ==
        if err.Success? then old(mTrackingSessions) - {Key(client, id)} else old(mTrackingSessions)
      ensures !err.Success? ==> mLocApi.engine == old(mLocApi.engine)
      ensures responses == old(responses) +
        if Key(client, id) in old(mTrackingSessions) && client in mClientData && mClientData[client].response
        then [Response(client, err, id)] else []
    {
      ghost var s := Snap();
      err := Success;
      var key := Key(client, id);
      if key in mTrackingSessions {
        err := StopAndErase(key);
        ReportResponse(client, err, id);
      }
      StepIffs(s, Stopped(key), Snap());
    }

    /** Stops a session, and erases it if the engine accepts. */
    method StopAndErase(key: Key) returns (err: Error)
      requires Valid() && key in mTrackingSessions
      modifies this`mTrackingSessions, mLocApi
      ensures Valid() && Took(old(Snap()), Stopped(key), Snap())
      ensures old(InStep(Snap())) ==> InStep(Snap())
      ensures mTrackingSessions ==
        if err.Success? then old(mTrackingSessions) - {key} else old(mTrackingSessions)
      ensures err.Success? || (err.GeneralFailure? && mLocApi.engine == old(mLocApi.engine))
    {
      ghost var s := Snap();
      err := StopTrackingMultiplex(key);
      if err.Success? {
        mTrackingSessions := mTrackingSessions - {key};
      }
      StepIffs(s, Stopped(key), Snap());
    }

    /** stopClientSessions: every session of the client whose stop the engine accepts goes; all others stay.
        Each of its sessions takes one stop step. */
    method StopClientSessions(client: nat)
      returns (ghost refused: set<Key>, ghost states: seq<Snapshot>, ghost steps: seq<Step>)
      requires Valid()
      modifies this`mTrackingSessions, mLocApi
      ensures Valid()
      ensures old(InStep(Snap())) ==> InStep(Snap())
      ensures mTrackingSessions == Kept(old(mTrackingSessions), client, refused)
      ensures Run(states, steps) && states[0] == old(Snap()) && states[|steps|] == Snap()
      ensures StopsOf(old(mTrackingSessions), client, steps)
    {
      refused, states, steps := {}, [Snap()], [];
      var todo := mTrackingSessions.Keys;
      ghost var all := mTrackingSessions;
      while todo != {}
        invariant todo <= all.Keys && Valid()
        invariant refused !! todo
        invariant mTrackingSessions == Kept(all, client, todo + refused)
        invariant Run(states, steps) && states[0] == old(Snap()) && states[|steps|] == Snap()
        invariant StopsOf(all - todo, client, steps)
        decreases todo
      {
        var key :| key in todo;
        OneMoreStop(all, todo, client, steps, key);
        if key.client == client {
          var err := StopAndErase(key);
          if !err.Success? {
            refused := refused + {key};
          }
          RunThenStep(states, steps, Stopped(key), Snap());
          states, steps := states + [Snap()], steps + [Stopped(key)];
        }
        todo := todo - {key};
      }
      assert all - {} == all;
      if InStep(states[0]) {
        RunStaysInStepIff(states, steps, 0);
      }
    }

    /** MsgRemoveClient. */
    method ProcRemoveClient(client: nat) returns (ghost states: seq<Snapshot>, ghost steps: seq<Step>)
      requires Valid()
      modifies this, mLocApi
      ensures Valid()
      ensures old(InStep(Snap())) ==> InStep(Snap())
      ensures mClientData == old(mClientData) - {client}
      ensures mTrackingSessions.Keys <= old(mTrackingSessions).Keys
      ensures forall k | k in old(mTrackingSessions) && k.client != client ::
        k in mTrackingSessions && mTrackingSessions[k] == old(mTrackingSessions)[k]
      ensures Run(states, steps) && states[0] == old(Snap()) && states[|steps|] == Snap()
      ensures Expands(MsgRemoveClient(client), old(mTrackingSessions), steps)
    {
      ghost var refused, before, stops := StopClientSessions(client);
      mClientData := mClientData - {client};
      RunThenStep(before, stops, ClientErased(client), Snap());
      states, steps := before + [Snap()], stops + [ClientErased(client)];
      assert steps[..|steps| - 1] == stops;
    }

    /** MsgRestartSessions, after the engine came back: whatever it was doing, once the call is accepted
        it does what the sessions ask for. A refusal is not noticed and changes nothing. */
    method RestartSessions() returns (ghost accepted: bool)
      requires Valid()
      modifies mLocApi
      ensures Took(old(Snap()), Restarted(accepted), Snap())
      ensures accepted && mTrackingSessions != map[] ==> Exact(Snap())
      ensures !accepted || mTrackingSessions == map[] ==> mLocApi.engine == old(mLocApi.engine)
      ensures old(InStep(Snap())) ==> InStep(Snap())
    {
      accepted := true;
      if mTrackingSessions == map[] { return; }
      var smallest := SmallestIntervalOptions({});
      assert mTrackingSessions - {} == mTrackingSessions;
      var ok := mLocApi.StartFix(smallest);
      accepted := ok;
    }
  }

  // ---------- any sequence of messages ----------

  /** The message thread working through its queue, whatever the engine answers: its steps are a run, and
      from any moment at which the engine is in step (an accepted restart is one) it is in step at the end
      if every step since then met its condition. */
  method Process(adapter: GnssAdapter, messages: seq<Message>)
    returns (ghost states: seq<Snapshot>, ghost steps: seq<Step>)
    requires adapter.Valid()
    modifies adapter, adapter.mLocApi
    ensures adapter.Valid()
    ensures Run(states, steps) && states[0] == old(adapter.Snap()) && states[|steps|] == adapter.Snap()
    ensures Carries(messages, states, steps)
    ensures forall i | 0 <= i <= |steps| && InStep(states[i]) ::
      (forall j | i <= j < |steps| :: KeepsInterval(states[j], steps[j])) ==> InStep(states[|steps|])
    ensures forall i | 0 <= i <= |steps| && Exact(states[i]) ::
      (forall j | i <= j < |steps| :: KeepsMode(states[j], steps[j])) ==> Exact(states[|steps|])
    ensures forall i | 0 <= i < |steps| && steps[i] == Restarted(true) && states[i].sessions != map[] ::
      Exact(states[i + 1])
  {
    states, steps := ProcessEach(adapter, messages);
    RunConsequences(states, steps);
  }

  method ProcessEach(adapter: GnssAdapter, messages: seq<Message>)
    returns (ghost states: seq<Snapshot>, ghost steps: seq<Step>)
    requires adapter.Valid()
    modifies adapter, adapter.mLocApi
    ensures adapter.Valid()
    ensures Run(states, steps) && states[0] == old(adapter.Snap()) && states[|steps|] == adapter.Snap()
    ensures Carries(messages, states, steps)
    decreases |messages|
  {
    if messages == [] {
      return [adapter.Snap()], [];
    }
    var before, last := messages[..|messages| - 1], messages[|messages| - 1];
    states, steps := ProcessEach(adapter, before);
    ghost var more, now := ProcessOne(adapter, last);
    CarriesOneMore(before, states, steps, last, now, more);
    assert before + [last] == messages;
    states, steps := states + now[1..], steps + more;
  }

  method ProcessOne(adapter: GnssAdapter, message: Message)
    returns (ghost steps: seq<Step>, ghost states: seq<Snapshot>)
    requires adapter.Valid()
    modifies adapter, adapter.mLocApi
    ensures adapter.Valid()
    ensures Run(states, steps) && states[0] == old(adapter.Snap()) && states[|steps|] == adapter.Snap()
    ensures Expands(message, old(adapter.mTrackingSessions), steps)
    ensures match message
            case MsgAddClient(client, callbacks) => steps == [ClientAdded(client, callbacks)]
            case MsgStart(client, id, options) => steps == [Started(Key(client, id), options)]
            case MsgUpdate(client, id, options) => steps == [Updated(Key(client, id), options)]
            case MsgStop(client, id) => steps == [Stopped(Key(client, id))]
            case MsgRemoveClient(client) =>
              steps != [] && steps[|steps| - 1] == ClientErased(client)
              && forall step | step in steps[..|steps| - 1] :: step.Stopped? && step.key.client == client
            case MsgRestart => |steps| == 1 && steps[0].Restarted?
            case ModemRestart => steps == [EngineReset]
  {
    ghost var s := adapter.Snap();
    match message {
      case MsgAddClient(client, callbacks) =>
        adapter.mClientData := adapter.mClientData[client := callbacks];
        steps := [ClientAdded(client, callbacks)];
      case MsgStart(client, id, options) =>
        var _ := adapter.ProcStart(client, id, options);
        steps := [Started(Key(client, id), options)];
      case MsgUpdate(client, id, options) =>
        var _ := adapter.ProcUpdate(client, id, options);
        steps := [Updated(Key(client, id), options)];
      case MsgStop(client, id) =>
        var _ := adapter.ProcStop(client, id);
        steps := [Stopped(Key(client, id))];
      case MsgRemoveClient(client) =>
        states, steps := adapter.ProcRemoveClient(client);
        return;
      case MsgRestart =>
        ghost var accepted := adapter.RestartSessions();
        steps := [Restarted(accepted)];
      case ModemRestart =>
        adapter.mLocApi.Reset();
        steps := [EngineReset];
    }
    states := [s, adapter.Snap()];
  }

  lemma CarriesOneMore(messages: seq<Message>, states: seq<Snapshot>, steps: seq<Step>,
                       message: Message, now: seq<Snapshot>, more: seq<Step>)
    requires Run(states, steps) && Carries(messages, states, steps)
    requires Run(now, more) && now[0] == states[|steps|] && Expands(message, now[0].sessions, more)
    ensures Run(states + now[1..], steps + more)
    ensures Carries(messages + [message], states + now[1..], steps + more)
  {
    RunThenRun(states, steps, now, more);
    var all, cut := messages + [message], |steps|;
    assert all[..|all| - 1] == messages;
    assert (states + now[1..])[..cut + 1] == states;
    assert (steps + more)[..cut] == steps && (steps + more)[cut..] == more;
  }

  lemma RunConsequences(states: seq<Snapshot>, steps: seq<Step>)
    requires Run(states, steps)
    ensures forall i | 0 <= i <= |steps| && InStep(states[i]) ::
      (forall j | i <= j < |steps| :: KeepsInterval(states[j], steps[j])) ==> InStep(states[|steps|])
    ensures forall i | 0 <= i <= |steps| && Exact(states[i]) ::
      (forall j | i <= j < |steps| :: KeepsMode(states[j], steps[j])) ==> Exact(states[|steps|])
    ensures forall i | 0 <= i < |steps| && steps[i] == Restarted(true) && states[i].sessions != map[] ::
      Exact(states[i + 1])
  {
    forall i | 0 <= i <= |steps| && InStep(states[i]) {
      RunStaysInStepIff(states, steps, i);
    }
    forall i | 0 <= i <= |steps| && Exact(states[i]) {
      RunStaysExactIff(states, steps, i);
    }
    forall i | 0 <= i < |steps| && steps[i] == Restarted(true) && states[i].sessions != map[] {
      RestartIsExact(states[i], states[i + 1]);
    }
  }
}
