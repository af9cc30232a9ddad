/** The tracking multiplexer as a step relation: many sessions share one engine, which must run exactly
    while there are sessions, at the smallest interval any of them asked for, and in a mode asked for
    together with it. Which steps keep that is said exactly. */
module TrackingModel {

  datatype Key = Key(client: nat, id: nat)

  /** `size` is the structure's own size field; zero means "not set". */
  datatype Options = Options(size: nat, minInterval: nat, mode: int)

  const UNSET := Options(0, 0, 0)

  datatype Callbacks = Callbacks(tracking: bool, measurements: bool, response: bool)

  datatype Engine = Engine(on: bool, interval: nat, mode: int)

  datatype Snapshot = Snapshot(sessions: map<Key, Options>, clients: map<nat, Callbacks>, engine: Engine)

  /** What one message, or one round of stopClientSessions, does. */
  datatype Step =
    | ClientAdded(client: nat, callbacks: Callbacks)
    | Started(key: Key, options: Options)
    | Updated(key: Key, options: Options)
    | Stopped(key: Key)
    | ClientErased(client: nat)
    | Restarted(accepted: bool)
    | EngineReset

  // ---------- what the engine should do ----------

  /** n is the smallest interval of all sessions. */
  ghost predicate IsMin(sessions: map<Key, Options>, n: nat) {
    && (exists k | k in sessions :: sessions[k].minInterval == n)
    && (forall k | k in sessions :: n <= sessions[k].minInterval)
  }

  /** The engine is on exactly while there are sessions, and then at their smallest interval. */
  ghost predicate EngineOk(sessions: map<Key, Options>, engine: Engine) {
    && (engine.on <==> sessions != map[])
    && (engine.on ==> IsMin(sessions, engine.interval))
  }

  predicate Asks(o: Options, engine: Engine) {
    o.minInterval == engine.interval && o.mode == engine.mode
  }

  predicate AskedFor(sessions: map<Key, Options>, engine: Engine) {
    exists k | k in sessions :: Asks(sessions[k], engine)
  }

  /** ... and in the mode of a session with that interval: the engine runs some session's options. */
  ghost predicate EngineExact(sessions: map<Key, Options>, engine: Engine) {
    EngineOk(sessions, engine) && (engine.on ==> AskedFor(sessions, engine))
  }

  /** Every saved session has its size set: the loops that look for the smallest rely on it. */
  predicate AllSet(sessions: map<Key, Options>) {
    forall k | k in sessions :: sessions[k].size != 0
  }

  ghost predicate IsSmallest(sessions: map<Key, Options>, o: Options) {
    && (exists k | k in sessions :: sessions[k] == o)
    && (forall k | k in sessions :: o.minInterval <= sessions[k].minInterval)
  }

  /** An interval smaller than that of every session. */
  predicate Beats(n: nat, sessions: map<Key, Options>) {
    forall k | k in sessions :: n < sessions[k].minInterval
  }

  // ---------- the calls the multiplexer makes ----------

  datatype EngineCall = NoCall | Fix(options: Options) | Halt

  function CallForStart(sessions: map<Key, Options>, o: Options): EngineCall {
    if Beats(o.minInterval, sessions) then Fix(o) else NoCall
  }

  ghost predicate IsCallForUpdate(sessions: map<Key, Options>, key: Key, o: Options, call: EngineCall)
    requires key in sessions
  {
    var others := sessions - {key};
    if Beats(o.minInterval, others) then call == Fix(o)
    else if Beats(sessions[key].minInterval, others) then call.Fix? && IsSmallest(others, call.options)
    else call == NoCall
  }

  ghost predicate IsCallForStop(sessions: map<Key, Options>, key: Key, call: EngineCall)
    requires key in sessions
  {
    var others := sessions - {key};
    if others == map[] then call == Halt
    else if Beats(sessions[key].minInterval, others) then call.Fix? && IsSmallest(others, call.options)
    else call == NoCall
  }

  function After(engine: Engine, call: EngineCall): Engine {
    match call
    case NoCall => engine
    case Fix(o) => Engine(true, o.minInterval, o.mode)
    case Halt => engine.(on := false)
  }

  /** Accepted, the call is carried out and the sessions are saved; refused, nothing changes. */
  predicate Carried(s: Snapshot, call: EngineCall, sessions': map<Key, Options>, s': Snapshot) {
    || s' == s.(sessions := sessions', engine := After(s.engine, call))
    || (!call.NoCall? && s' == s)
  }

  /** May this client start a session with these options at all? */
  predicate Admitted(clients: map<nat, Callbacks>, client: nat, o: Options) {
    client in clients && (clients[client].tracking || clients[client].measurements) && o.size != 0
  }

  ghost predicate Took(s: Snapshot, step: Step, s': Snapshot) {
    match step
    case ClientAdded(client, callbacks) => s' == s.(clients := s.clients[client := callbacks])
    case Started(key, o) =>
      if Admitted(s.clients, key.client, o)
      then Carried(s, CallForStart(s.sessions, o), s.sessions[key := o], s')
      else s' == s
    case Updated(key, o) =>
      if key in s.sessions && o.size != 0
      then exists call :: IsCallForUpdate(s.sessions, key, o, call) && Carried(s, call, s.sessions[key := o], s')
      else s' == s
    case Stopped(key) =>
      if key in s.sessions
      then exists call :: IsCallForStop(s.sessions, key, call) && Carried(s, call, s.sessions - {key}, s')
      else s' == s
    case ClientErased(client) => s' == s.(clients := s.clients - {client})
    case Restarted(accepted) =>
      if accepted && s.sessions != map[]
      then exists o :: IsSmallest(s.sessions, o) && s' == s.(engine := After(s.engine, Fix(o)))
      else s' == s
    case EngineReset => s' == s.(engine := s'.engine) && !s'.engine.on
  }

  // ---------- when a step keeps the interval, and when the mode too ----------

  /** Some session other than key asks for this interval. */
  predicate OthersAt(sessions: map<Key, Options>, key: Key, n: nat) {
    exists k | k in sessions && k != key :: sessions[k].minInterval == n
  }

  /** ... for what the engine runs. */
  predicate OthersAsk(sessions: map<Key, Options>, key: Key, engine: Engine) {
    exists k | k in sessions && k != key :: Asks(sessions[k], engine)
  }

  /** A start keeps the minimum unless it takes over the key of the only session that had it, for more. */
  predicate StartKeepsInterval(sessions: map<Key, Options>, engine: Engine, key: Key, o: Options) {
    key !in sessions || o.minInterval <= engine.interval || OthersAt(sessions, key, engine.interval)
  }

  predicate StartKeepsMode(sessions: map<Key, Options>, engine: Engine, key: Key, o: Options) {
    Beats(o.minInterval, sessions) || Asks(o, engine) || OthersAsk(sessions, key, engine)
  }

  predicate UpdateKeepsMode(sessions: map<Key, Options>, engine: Engine, key: Key, o: Options)
    requires key in sessions
  {
    || Beats(o.minInterval, sessions - {key}) || Beats(sessions[key].minInterval, sessions - {key})
    || Asks(o, engine) || OthersAsk(sessions, key, engine)
  }

  predicate StopKeepsMode(sessions: map<Key, Options>, engine: Engine, key: Key)
    requires key in sessions
  {
    Beats(sessions[key].minInterval, sessions - {key}) || OthersAsk(sessions, key, engine)
  }

  /** Starting keeps the engine at the minimum exactly under its condition; likewise for the mode. */
  lemma StartEffect(sessions: map<Key, Options>, engine: Engine, key: Key, o: Options)
    requires EngineOk(sessions, engine)
    ensures var sessions', engine' := sessions[key := o], After(engine, CallForStart(sessions, o));
      && (EngineOk(sessions', engine') <==> StartKeepsInterval(sessions, engine, key, o))
      && (EngineExact(sessions', engine') <==> StartKeepsMode(sessions, engine, key, o))
  {
    var sessions' := sessions[key := o];
    assert sessions'[key] == o;
    assert forall k | k in sessions && k != key :: k in sessions' && sessions'[k] == sessions[k];
  }

  /** Updating always keeps the minimum, and the mode exactly under its condition. */
  lemma UpdateEffect(sessions: map<Key, Options>, engine: Engine, key: Key, o: Options, call: EngineCall)
    requires EngineOk(sessions, engine) && key in sessions && IsCallForUpdate(sessions, key, o, call)
    ensures EngineOk(sessions[key := o], After(engine, call))
    ensures EngineExact(sessions[key := o], After(engine, call)) <==> UpdateKeepsMode(sessions, engine, key, o)
  {
    var others, sessions' := sessions - {key}, sessions[key := o];
    assert sessions'[key] == o;
    assert forall k | k in others :: k in sessions' && sessions'[k] == others[k] == sessions[k];
    assert forall k | k in sessions && k != key :: k in others;
  }

  /** Stopping always keeps the minimum, and the mode exactly under its condition. */
  lemma StopEffect(sessions: map<Key, Options>, engine: Engine, key: Key, call: EngineCall)
    requires EngineOk(sessions, engine) && key in sessions && IsCallForStop(sessions, key, call)
    ensures EngineOk(sessions - {key}, After(engine, call))
    ensures EngineExact(sessions - {key}, After(engine, call)) <==> StopKeepsMode(sessions, engine, key)
  {
    var others := sessions - {key};
    assert forall k | k in sessions && k != key :: k in others && others[k] == sessions[k];
  }

  /** The condition under which a step keeps the interval: only a start or a reset can fail it. */
  predicate KeepsInterval(s: Snapshot, step: Step) {
    match step
    case Started(key, o) =>
      Admitted(s.clients, key.client, o) ==> StartKeepsInterval(s.sessions, s.engine, key, o)
    case EngineReset => s.sessions == map[]
    case _ => true
  }

  predicate KeepsMode(s: Snapshot, step: Step) {
    match step
    case Started(key, o) => Admitted(s.clients, key.client, o) ==> StartKeepsMode(s.sessions, s.engine, key, o)
    case Updated(key, o) =>
      key in s.sessions && o.size != 0 ==> UpdateKeepsMode(s.sessions, s.engine, key, o)
    case Stopped(key) => key in s.sessions ==> StopKeepsMode(s.sessions, s.engine, key)
    case EngineReset => s.sessions == map[]
    case _ => true
  }

  ghost predicate InStep(s: Snapshot) {
    EngineOk(s.sessions, s.engine)
  }

  ghost predicate Exact(s: Snapshot) {
    EngineExact(s.sessions, s.engine)
  }

  /** Whatever the engine answers, a step from a state in step leads to one exactly under its condition. */
  lemma StepKeepsIntervalIff(s: Snapshot, step: Step, s': Snapshot)
    requires InStep(s) && Took(s, step, s')
    ensures InStep(s') <==> KeepsInterval(s, step)
  {
    match step {
      case Started(key, o) => StartEffect(s.sessions, s.engine, key, o);
      case Updated(key, o) =>
        if key in s.sessions && o.size != 0 {
          var call :| IsCallForUpdate(s.sessions, key, o, call) && Carried(s, call, s.sessions[key := o], s');
          UpdateEffect(s.sessions, s.engine, key, o, call);
        }
      case Stopped(key) =>
        if key in s.sessions {
          var call :| IsCallForStop(s.sessions, key, call) && Carried(s, call, s.sessions - {key}, s');
          StopEffect(s.sessions, s.engine, key, call);
        }
      case _ =>
    }
  }

  lemma StepKeepsModeIff(s: Snapshot, step: Step, s': Snapshot)
    requires Exact(s) && Took(s, step, s')
    ensures Exact(s') <==> KeepsMode(s, step)
  {
    match step {
      case Started(key, o) => StartEffect(s.sessions, s.engine, key, o);
      case Updated(key, o) =>
        if key in s.sessions && o.size != 0 {
          var call :| IsCallForUpdate(s.sessions, key, o, call) && Carried(s, call, s.sessions[key := o], s');
          UpdateEffect(s.sessions, s.engine, key, o, call);
        }
      case Stopped(key) =>
        if key in s.sessions {
          var call :| IsCallForStop(s.sessions, key, call) && Carried(s, call, s.sessions - {key}, s');
          StopEffect(s.sessions, s.engine, key, call);
        }
      case _ =>
    }
  }

  /** An accepted restart puts any engine right, whatever it did before. */
  lemma RestartIsExact(s: Snapshot, s': Snapshot)
    requires Took(s, Restarted(true), s') && s.sessions != map[]
    ensures Exact(s')
  {
  }

  // ---------- whole runs ----------

  ghost predicate Run(states: seq<Snapshot>, steps: seq<Step>) {
    |states| == |steps| + 1 && forall i | 0 <= i < |steps| :: Took(states[i], steps[i], states[i + 1])
  }

  /** From any moment of a run at which the engine is in step, it stays so exactly as long as every step
      meets its condition. */
  lemma RunStaysInStepIff(states: seq<Snapshot>, steps: seq<Step>, from: nat)
    requires Run(states, steps) && from <= |steps| && InStep(states[from])
    ensures (forall i | from <= i < |states| :: InStep(states[i]))
       <==> (forall i | from <= i < |steps| :: KeepsInterval(states[i], steps[i]))
  {
    if forall i | from <= i < |states| :: InStep(states[i]) {
      forall i | from <= i < |steps| ensures KeepsInterval(states[i], steps[i]) {
        assert InStep(states[i]) && InStep(states[i + 1]);
        StepKeepsIntervalIff(states[i], steps[i], states[i + 1]);
      }
    }
    if forall i | from <= i < |steps| :: KeepsInterval(states[i], steps[i]) {
      InStepUpTo(states, steps, from, |steps|);
    }
  }

  lemma {:induction false} InStepUpTo(states: seq<Snapshot>, steps: seq<Step>, from: nat, to: nat)
    requires Run(states, steps) && from <= to <= |steps| && InStep(states[from])
    requires forall i | from <= i < |steps| :: KeepsInterval(states[i], steps[i])
    ensures forall i | from <= i <= to :: InStep(states[i])
  {
    if from < to {
      InStepUpTo(states, steps, from, to - 1);
      StepKeepsIntervalIff(states[to - 1], steps[to - 1], states[to]);
    }
  }

  /** The same for interval and mode together. */
  lemma RunStaysExactIff(states: seq<Snapshot>, steps: seq<Step>, from: nat)
    requires Run(states, steps) && from <= |steps| && Exact(states[from])
    ensures (forall i | from <= i < |states| :: Exact(states[i]))
       <==> (forall i | from <= i < |steps| :: KeepsMode(states[i], steps[i]))
  {
    if forall i | from <= i < |states| :: Exact(states[i]) {
      forall i | from <= i < |steps| ensures KeepsMode(states[i], steps[i]) {
        assert Exact(states[i]) && Exact(states[i + 1]);
        StepKeepsModeIff(states[i], steps[i], states[i + 1]);
      }
    }
    if forall i | from <= i < |steps| :: KeepsMode(states[i], steps[i]) {
      ExactUpTo(states, steps, from, |steps|);
    }
  }

  lemma {:induction false} ExactUpTo(states: seq<Snapshot>, steps: seq<Step>, from: nat, to: nat)
    requires Run(states, steps) && from <= to <= |steps| && Exact(states[from])
    requires forall i | from <= i < |steps| :: KeepsMode(states[i], steps[i])
    ensures forall i | from <= i <= to :: Exact(states[i])
  {
    if from < to {
      ExactUpTo(states, steps, from, to - 1);
      StepKeepsModeIff(states[to - 1], steps[to - 1], states[to]);
    }
  }

  /** Where all sessions, old and new, share one mode, the mode needs no condition of its own. */
  lemma OneModeKeepsMode(s: Snapshot, step: Step)
    requires InStep(s) && forall k | k in s.sessions :: s.sessions[k].mode == s.engine.mode
    requires step.Started? || step.Updated? ==> step.options.mode == s.engine.mode
    ensures KeepsMode(s, step) <==> KeepsInterval(s, step)
  {
  }

  lemma RunThenStep(states: seq<Snapshot>, steps: seq<Step>, step: Step, s': Snapshot)
    requires Run(states, steps) && Took(states[|steps|], step, s')
    ensures Run(states + [s'], steps + [step])
  {
  }

  lemma RunThenRun(states: seq<Snapshot>, steps: seq<Step>, states2: seq<Snapshot>, steps2: seq<Step>)
    requires Run(states, steps) && Run(states2, steps2) && states2[0] == states[|steps|]
    ensures Run(states + states2[1..], steps + steps2)
  {
  }

  // ---------- runs in which it goes wrong ----------

  const NOTHING := Snapshot(map[], map[], Engine(false, 0, 0))

  const LISTENER := Callbacks(true, false, true)

  /** Two sessions of one client at the same interval in different modes, everything accepted. */
  lemma TwoSessions() returns (states: seq<Snapshot>, steps: seq<Step>)
    ensures Run(states, steps) && states[0] == NOTHING && forall s | s in states :: Exact(s)
    ensures states[|steps|] == Snapshot(map[Key(1, 1) := Options(1, 5, 0), Key(1, 2) := Options(1, 5, 1)],
                                        map[1 := LISTENER], Engine(true, 5, 0))
  {
    var a, b := Options(1, 5, 0), Options(1, 5, 1);
    var s1 := NOTHING.(clients := map[1 := LISTENER]);
    var s2 := s1.(sessions := map[Key(1, 1) := a], engine := Engine(true, 5, 0));
    var s3 := s2.(sessions := s2.sessions[Key(1, 2) := b]);
    states := [NOTHING, s1, s2, s3];
    steps := [ClientAdded(1, LISTENER), Started(Key(1, 1), a), Started(Key(1, 2), b)];
    assert s2.sessions[Key(1, 1)] == s3.sessions[Key(1, 1)] == a;
    assert !Beats(5, s2.sessions);
    RunStaysExactIff(states, steps, 0);
  }

  /** Updating the one whose mode the engine runs in, or stopping it, leaves the engine in a mode that
      nobody asks for. */
  lemma ModeCanGoStale(stop: bool) returns (states: seq<Snapshot>, steps: seq<Step>)
    ensures Run(states, steps) && states[0] == NOTHING && steps != []
    ensures if stop then steps[|steps| - 1] == Stopped(Key(1, 1))
            else steps[|steps| - 1] == Updated(Key(1, 1), Options(1, 5, 1))
    ensures forall i | 0 <= i < |steps| :: Exact(states[i])
    ensures var last := states[|steps|];
      InStep(last) && last.engine.on && forall k | k in last.sessions :: last.sessions[k].mode != last.engine.mode
  {
    states, steps := TwoSessions();
    var s := states[|steps|];
    var step := if stop then Stopped(Key(1, 1)) else Updated(Key(1, 1), Options(1, 5, 1));
    var s' := s.(sessions := if stop then s.sessions - {Key(1, 1)} else s.sessions[Key(1, 1) := Options(1, 5, 1)]);
    var others := s.sessions - {Key(1, 1)};
    assert others[Key(1, 2)] == Options(1, 5, 1);
    assert if stop then IsCallForStop(s.sessions, Key(1, 1), NoCall)
           else IsCallForUpdate(s.sessions, Key(1, 1), Options(1, 5, 1), NoCall);
    assert Took(s, step, s');
    StepKeepsIntervalIff(s, step, s');
    RunThenStep(states, steps, step, s');
    states, steps := states + [s'], steps + [step];
  }

  /** A session at 5 whose key is started again at 10 (ids wrap around) leaves the engine at 5. */
  lemma ReusedKeyCanGoStale() returns (states: seq<Snapshot>, steps: seq<Step>)
    ensures Run(states, steps) && states[0] == NOTHING
    ensures steps == [ClientAdded(1, LISTENER), Started(Key(1, 1), Options(1, 5, 0)),
                      Started(Key(1, 1), Options(1, 10, 0))]
    ensures InStep(states[2]) && !InStep(states[3])
    ensures states[3].engine.interval == 5 && states[3].sessions == map[Key(1, 1) := Options(1, 10, 0)]
  {
    var a, b := Options(1, 5, 0), Options(1, 10, 0);
    var s1 := NOTHING.(clients := map[1 := LISTENER]);
    var s2 := s1.(sessions := map[Key(1, 1) := a], engine := Engine(true, 5, 0));
    var s3 := s2.(sessions := map[Key(1, 1) := b]);
    states := [NOTHING, s1, s2, s3];
    steps := [ClientAdded(1, LISTENER), Started(Key(1, 1), a), Started(Key(1, 1), b)];
    assert s2.sessions[Key(1, 1)] == a && s2.sessions[Key(1, 1) := b] == s3.sessions;
    assert !Beats(10, s2.sessions);
  }
}
