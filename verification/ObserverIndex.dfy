/** The subscription index of SystemStatusOsObserver as a value: which client wants which items,
    which item has which clients, and what the framework was told. */
module ObserverIndex {
  import opened Wrappers
  import opened SetMap

  type Client = nat
  type Item = nat
  type FrameworkObj = nat

  datatype CallKind = SubscribeCall | RequestCall | UnsubscribeCall

  /** One call to a framework subscription object. */
  datatype Call = Call(obj: FrameworkObj, kind: CallKind, items: set<Item>)

  datatype Index = Index(clientToItems: map<Client, set<Item>>, itemToClients: map<Item, set<Client>>,
                         obj: Option<FrameworkObj>, calls: seq<Call>)

  /** The messages that change the index; empty requests never become messages. */
  datatype Op =
    | SetObj(obj: FrameworkObj)
    | Subscribe(items: set<Item>, client: Client, toRequestData: bool)
    | Unsubscribe(items: set<Item>, client: Client)
    | UnsubscribeAll(client: Client)

  const EMPTY_INDEX := Index(map[], map[], None, [])

  /** A call is made only to a present object and only about some items. */
  function Tell(calls: seq<Call>, obj: Option<FrameworkObj>, kind: CallKind, items: set<Item>): seq<Call> {
    if obj.Some? && items != {} then calls + [Call(obj.value, kind, items)] else calls
  }

  function OnSetObj(s: Index, o: FrameworkObj): Index {
    var keys := s.itemToClients.Keys;
    s.(obj := Some(o),
       calls := Tell(Tell(s.calls, Some(o), SubscribeCall, keys), Some(o), RequestCall, keys))
  }

  function OnSubscribe(s: Index, items: set<Item>, client: Client, toRequestData: bool): Index {
    s.(itemToClients := Added(s.itemToClients, items, {client}),
       clientToItems := Added(s.clientToItems, {client}, items),
       calls := Tell(s.calls, s.obj, if toRequestData then RequestCall else SubscribeCall,
                       items - s.itemToClients.Keys))
  }

  /** Takes `unused` away from the client in the item map, and tells the framework of items nobody wants. */
  function Release(s: Index, client: Client, unused: set<Item>): Index {
    s.(itemToClients := Trimmed(s.itemToClients, unused, {client}),
       calls := Tell(s.calls, s.obj, UnsubscribeCall, GoneKeys(s.itemToClients, unused, {client})))
  }

  function OnUnsubscribe(s: Index, items: set<Item>, client: Client): Index {
    Release(s.(clientToItems := Trimmed(s.clientToItems, {client}, items)),
            client, Values(s.clientToItems, client) * items)
  }

  function OnUnsubscribeAll(s: Index, client: Client): Index {
    var items := Values(s.clientToItems, client);
    if items == {} then s
    else Release(s.(clientToItems := s.clientToItems - {client}), client, items)
  }

  function Do(s: Index, op: Op): Index {
    match op
    case SetObj(o) => OnSetObj(s, o)
    case Subscribe(items, client, toRequestData) =>
      if items == {} then s else OnSubscribe(s, items, client, toRequestData)
    case Unsubscribe(items, client) => if items == {} then s else OnUnsubscribe(s, items, client)
    case UnsubscribeAll(client) => OnUnsubscribeAll(s, client)
  }

  function DoAll(ops: seq<Op>): Index {
    if ops == [] then EMPTY_INDEX else Do(DoAll(ops[..|ops| - 1]), ops[|ops| - 1])
  }

  // ---------- the two maps are inverse ----------

  ghost predicate Inverse(s: Index) {
    && NoEmpty(s.clientToItems) && NoEmpty(s.itemToClients)
    && forall c: Client, d: Item :: d in Values(s.clientToItems, c) <==> c in Values(s.itemToClients, d)
  }

  lemma StepKeepsInverse(s: Index, op: Op)
    requires Inverse(s)
    ensures Inverse(Do(s, op))
  {
    match op {
      case SetObj(_) =>
      case Subscribe(items, client, _) =>
        AddedValues(s.itemToClients, items, {client});
        AddedValues(s.clientToItems, {client}, items);
      case Unsubscribe(items, client) =>
        TrimmedValues(s.clientToItems, {client}, items);
        TrimmedValues(s.itemToClients, Values(s.clientToItems, client) * items, {client});
      case UnsubscribeAll(client) =>
        TrimmedValues(s.itemToClients, Values(s.clientToItems, client), {client});
        assert forall c ::
          Values(s.clientToItems - {client}, c) == if c == client then {} else Values(s.clientToItems, c);
    }
  }

  /** Over every run an item is in a client's set exactly when the client is in the item's set, and
      neither map holds an empty entry. */
  lemma {:induction false} MapsStayInverse(ops: seq<Op>)
    ensures Inverse(DoAll(ops))
  {
    if ops != [] {
      MapsStayInverse(ops[..|ops| - 1]);
      StepKeepsInverse(DoAll(ops[..|ops| - 1]), ops[|ops| - 1]);
    }
  }

  // ---------- the maps say what was asked for ----------

  /** What the history of messages means: c wants d if its last message about d was a subscription. */
  predicate Wanted(ops: seq<Op>, c: Client, d: Item) {
    ops != [] &&
      match ops[|ops| - 1]
      case Subscribe(items, client, _) => (client == c && d in items) || Wanted(ops[..|ops| - 1], c, d)
      case Unsubscribe(items, client) => !(client == c && d in items) && Wanted(ops[..|ops| - 1], c, d)
      case UnsubscribeAll(client) => client != c && Wanted(ops[..|ops| - 1], c, d)
      case SetObj(_) => Wanted(ops[..|ops| - 1], c, d)
  }

  lemma StepRecords(s: Index, op: Op, c: Client, d: Item)
    ensures var before, after := d in Values(s.clientToItems, c), d in Values(Do(s, op).clientToItems, c);
      match op
      case Subscribe(items, client, _) => after <==> (client == c && d in items) || before
      case Unsubscribe(items, client) => after <==> !(client == c && d in items) && before
      case UnsubscribeAll(client) => after <==> client != c && before
      case SetObj(_) => after <==> before
  {
    match op {
      case Subscribe(items, client, _) => AddedValues(s.clientToItems, {client}, items);
      case Unsubscribe(items, client) => TrimmedValues(s.clientToItems, {client}, items);
      case _ =>
    }
  }

  /** Over every run both maps record exactly the history. */
  lemma {:induction false} MapsRecordHistory(ops: seq<Op>, c: Client, d: Item)
    ensures d in Values(DoAll(ops).clientToItems, c) <==> Wanted(ops, c, d)
    ensures c in Values(DoAll(ops).itemToClients, d) <==> Wanted(ops, c, d)
  {
    MapsStayInverse(ops);
    if ops != [] {
      MapsRecordHistory(ops[..|ops| - 1], c, d);
      StepRecords(DoAll(ops[..|ops| - 1]), ops[|ops| - 1], c, d);
    }
  }

  // ---------- what the framework believes ----------

  /** The items announced to o, by subscribe or requestData, and not withdrawn since. */
  function Announced(calls: seq<Call>, o: FrameworkObj): set<Item> {
    if calls == [] then {}
    else
      var before, last := Announced(calls[..|calls| - 1], o), calls[|calls| - 1];
      if last.obj != o then before
      else if last.kind.UnsubscribeCall? then before - last.items
      else before + last.items
  }

  lemma AnnouncedAfterTell(calls: seq<Call>, obj: Option<FrameworkObj>, kind: CallKind, items: set<Item>,
                           o: FrameworkObj)
    ensures Announced(Tell(calls, obj, kind, items), o) ==
      if obj != Some(o) then Announced(calls, o)
      else if kind.UnsubscribeCall? then Announced(calls, o) - items
      else Announced(calls, o) + items
  {
    if obj.Some? && items != {} {
      assert Tell(calls, obj, kind, items)[..|calls|] == calls;
    }
  }

  /** Exactly the items that somebody wants are announced to the framework object in use. */
  predicate InStep(s: Index) {
    s.obj.Some? ==> Announced(s.calls, s.obj.value) == s.itemToClients.Keys
  }

  /** Any other message keeps the framework in step ... */
  lemma StepKeepsInStep(s: Index, op: Op)
    requires InStep(s) && !op.SetObj?
    ensures InStep(Do(s, op))
  {
    if s.obj.Some? {
      var o := s.obj.value;
      match op {
        case Subscribe(items, client, toRequestData) =>
          AnnouncedAfterTell(s.calls, s.obj, if toRequestData then RequestCall else SubscribeCall,
                             items - s.itemToClients.Keys, o);
          AddedValues(s.itemToClients, items, {client});
        case Unsubscribe(items, client) =>
          var unused := Values(s.clientToItems, client) * items;
          ReleaseKeepsInStep(s.(clientToItems := Trimmed(s.clientToItems, {client}, items)), client, unused);
        case UnsubscribeAll(client) =>
          ReleaseKeepsInStep(s.(clientToItems := s.clientToItems - {client}), client, Values(s.clientToItems, client));
      }
    }
  }

  lemma ReleaseKeepsInStep(s: Index, client: Client, unused: set<Item>)
    requires InStep(s) && s.obj.Some?
    ensures InStep(Release(s, client, unused))
  {
    AnnouncedAfterTell(s.calls, s.obj, UnsubscribeCall, GoneKeys(s.itemToClients, unused, {client}), s.obj.value);
    TrimmedValues(s.itemToClients, unused, {client});
  }

  /** ... and installing an object brings it in step if and only if it was not told, at an earlier
      time, of an item that nobody wants any more. */
  lemma InstallingIsInStepIff(s: Index, o: FrameworkObj)
    ensures InStep(OnSetObj(s, o)) <==> Announced(s.calls, o) <= s.itemToClients.Keys
  {
    var keys := s.itemToClients.Keys;
    AnnouncedAfterTell(s.calls, Some(o), SubscribeCall, keys, o);
    AnnouncedAfterTell(Tell(s.calls, Some(o), SubscribeCall, keys), Some(o), RequestCall, keys, o);
  }

  /** A newly installed object is asked to subscribe to every wanted item, and then for the data of every
      wanted item. */
  lemma InstallingAsksForAll(s: Index, o: FrameworkObj)
    ensures var s' := Do(s, SetObj(o));
      && s'.obj == Some(o) && s'.itemToClients == s.itemToClients && s'.clientToItems == s.clientToItems
      && s'.calls == s.calls +
           if s.itemToClients == map[] then []
           else [Call(o, SubscribeCall, s.itemToClients.Keys), Call(o, RequestCall, s.itemToClients.Keys)]
  {
    var keys := s.itemToClients.Keys;
    assert keys == {} <==> s.itemToClients == map[] by {
      if keys == {} {
        assert forall d :: d !in s.itemToClients;
      }
    }
    assert (s.calls + [Call(o, SubscribeCall, keys)]) + [Call(o, RequestCall, keys)]
        == s.calls + [Call(o, SubscribeCall, keys), Call(o, RequestCall, keys)];
  }

  /** A message of a client tells the object in use about exactly the items that become, or cease to be, wanted:
      to subscribe to them or for their data, as asked, or to unsubscribe from them. */
  lemma ClientMessageCalls(s: Index, op: Op)
    requires !op.SetObj?
    ensures var s' := Do(s, op);
      var come, gone := s'.itemToClients.Keys - s.itemToClients.Keys, s.itemToClients.Keys - s'.itemToClients.Keys;
      s'.calls == s.calls +
        if s.obj.None? || come + gone == {} then []
        else if op.Subscribe? then [Call(s.obj.value, if op.toRequestData then RequestCall else SubscribeCall, come)]
        else [Call(s.obj.value, UnsubscribeCall, gone)]
    ensures op.Subscribe? ==> s.itemToClients.Keys <= Do(s, op).itemToClients.Keys
    ensures !op.Subscribe? ==> Do(s, op).itemToClients.Keys <= s.itemToClients.Keys
  {
    assert s.calls + [] == s.calls;
    match op {
      case Subscribe(items, client, _) =>
        AddedValues(s.itemToClients, items, {client});
        assert (s.itemToClients.Keys + items) - s.itemToClients.Keys == items - s.itemToClients.Keys;
      case Unsubscribe(items, client) =>
        ReleaseCalls(s.(clientToItems := Trimmed(s.clientToItems, {client}, items)), client,
                     Values(s.clientToItems, client) * items);
      case UnsubscribeAll(client) =>
        ReleaseCalls(s.(clientToItems := s.clientToItems - {client}), client, Values(s.clientToItems, client));
    }
  }

  lemma ReleaseCalls(s: Index, client: Client, unused: set<Item>)
    ensures var s' := Release(s, client, unused);
      var gone := s.itemToClients.Keys - s'.itemToClients.Keys;
      && s'.itemToClients.Keys <= s.itemToClients.Keys
      && s'.calls == s.calls + if s.obj.None? || gone == {} then [] else [Call(s.obj.value, UnsubscribeCall, gone)]
  {
    TrimmedValues(s.itemToClients, unused, {client});
    assert s.itemToClients.Keys - Trimmed(s.itemToClients, unused, {client}).Keys
        == GoneKeys(s.itemToClients, unused, {client});
    assert s.calls + [] == s.calls;
  }

  /** Every object installed in the run was clean when it was installed. */
  ghost predicate CleanInstalls(ops: seq<Op>) {
    ops != [] ==>
      var before, last := ops[..|ops| - 1], ops[|ops| - 1];
      && CleanInstalls(before)
      && (last.SetObj? ==> Announced(DoAll(before).calls, last.obj) <= DoAll(before).itemToClients.Keys)
  }

  /** In every such run the framework is told exactly the wanted items, at all times. */
  lemma {:induction false} FrameworkStaysInStep(ops: seq<Op>)
    requires CleanInstalls(ops)
    ensures InStep(DoAll(ops))
  {
    if ops != [] {
      var before, last := ops[..|ops| - 1], ops[|ops| - 1];
      FrameworkStaysInStep(before);
      if last.SetObj? {
        InstallingIsInStepIff(DoAll(before), last.obj);
      } else {
        StepKeepsInStep(DoAll(before), last);
      }
    }
  }

  /** Objects that are installed once each are always clean. */
  ghost predicate InstalledOnce(ops: seq<Op>) {
    forall i, j | 0 <= i < j < |ops| && ops[i].SetObj? && ops[j].SetObj? :: ops[i].obj != ops[j].obj
  }

  lemma {:induction false} OnlyInstalledObjectsAreTold(ops: seq<Op>, o: FrameworkObj)
    requires forall i | 0 <= i < |ops| && ops[i].SetObj? :: ops[i].obj != o
    ensures Announced(DoAll(ops).calls, o) == {} && DoAll(ops).obj != Some(o)
  {
    if ops != [] {
      var before, last := ops[..|ops| - 1], ops[|ops| - 1];
      forall i | 0 <= i < |before| && before[i].SetObj? ensures before[i].obj != o {
        assert before[i] == ops[i];
      }
      OnlyInstalledObjectsAreTold(before, o);
      OthersAreNotTold(DoAll(before), last, o);
    }
  }

  lemma OthersAreNotTold(s: Index, op: Op, o: FrameworkObj)
    requires s.obj != Some(o) && (op.SetObj? ==> op.obj != o)
    ensures Announced(Do(s, op).calls, o) == Announced(s.calls, o) && Do(s, op).obj != Some(o)
  {
    match op {
      case SetObj(o') =>
        var keys := s.itemToClients.Keys;
        AnnouncedAfterTell(s.calls, Some(o'), SubscribeCall, keys, o);
        AnnouncedAfterTell(Tell(s.calls, Some(o'), SubscribeCall, keys), Some(o'), RequestCall, keys, o);
      case Subscribe(items, client, toRequestData) =>
        AnnouncedAfterTell(s.calls, s.obj, if toRequestData then RequestCall else SubscribeCall,
                           items - s.itemToClients.Keys, o);
      case Unsubscribe(items, client) =>
        var unused := Values(s.clientToItems, client) * items;
        AnnouncedAfterTell(s.calls, s.obj, UnsubscribeCall, GoneKeys(s.itemToClients, unused, {client}), o);
      case UnsubscribeAll(client) =>
        var unused := Values(s.clientToItems, client);
        AnnouncedAfterTell(s.calls, s.obj, UnsubscribeCall, GoneKeys(s.itemToClients, unused, {client}), o);
    }
  }

  lemma {:induction false} InstalledOnceIsClean(ops: seq<Op>)
    requires InstalledOnce(ops)
    ensures CleanInstalls(ops)
  {
    if ops != [] {
      var before, last := ops[..|ops| - 1], ops[|ops| - 1];
      assert forall i | 0 <= i < |before| :: before[i] == ops[i];
      InstalledOnceIsClean(before);
      if last.SetObj? {
        OnlyInstalledObjectsAreTold(before, last.obj);
      }
    }
  }

  /** Object 1 is told of an item and replaced, and the item is given up. */
  const REPLACING := [SetObj(1), Subscribe({7}, 1, false), SetObj(2), Unsubscribe({7}, 1)]

  /** Then object 1 comes back still subscribed to it; up to then everything is in step. */
  lemma ReinstalledObjectIsStale()
    ensures forall n | 0 <= n <= |REPLACING| :: InStep(DoAll(REPLACING[..n]))
    ensures var s := DoAll(REPLACING + [SetObj(1)]);
      !InStep(s) && s.obj == Some(1) && s.itemToClients == map[] && Announced(s.calls, 1) == {7}
  {
    forall n | 0 <= n <= |REPLACING| ensures InStep(DoAll(REPLACING[..n])) {
      InstalledOnceIsClean(REPLACING[..n]);
      FrameworkStaysInStep(REPLACING[..n]);
    }
    var s := AfterReplacing();
    DoAllOneMore(REPLACING, SetObj(1));
    InstallingIsInStepIff(s, 1);
  }

  lemma AfterReplacing() returns (s: Index)
    ensures s == DoAll(REPLACING) && s.itemToClients == map[] && Announced(s.calls, 1) == {7}
  {
    var s3 := AfterSwapping();
    s := Do(s3, Unsubscribe({7}, 1));
    assert Values(s3.clientToItems, 1) * {7} == {7};
    assert Trimmed(s3.itemToClients, {7}, {1}) == map[];
    OthersAreNotTold(s3, Unsubscribe({7}, 1), 1);
    DoAllOneMore(REPLACING[..3], Unsubscribe({7}, 1));
    assert REPLACING[..3] + [Unsubscribe({7}, 1)] == REPLACING;
  }

  lemma AfterSwapping() returns (s: Index)
    ensures s == DoAll(REPLACING[..3])
    ensures s.obj == Some(2) && s.clientToItems == map[1 := {7}] && s.itemToClients == map[7 := {1}]
    ensures Announced(s.calls, 1) == {7}
  {
    var s2 := AfterSubscribing();
    s := Do(s2, SetObj(2));
    AnnouncedAfterTell(s2.calls, Some(2), SubscribeCall, {7}, 1);
    AnnouncedAfterTell(Tell(s2.calls, Some(2), SubscribeCall, {7}), Some(2), RequestCall, {7}, 1);
    DoAllOneMore(REPLACING[..2], SetObj(2));
    assert REPLACING[..2] + [SetObj(2)] == REPLACING[..3];
  }

  lemma AfterSubscribing() returns (s: Index)
    ensures s == DoAll(REPLACING[..2])
    ensures s.obj == Some(1) && s.clientToItems == map[1 := {7}] && s.itemToClients == map[7 := {1}]
    ensures Announced(s.calls, 1) == {7}
  {
    var s1 := Do(EMPTY_INDEX, SetObj(1));
    assert s1 == EMPTY_INDEX.(obj := Some(1));
    s := Do(s1, Subscribe({7}, 1, false));
    AddedToEmpty<Item, Client>(7, 1);
    AddedToEmpty<Client, Item>(1, 7);
    AnnouncedAfterTell(s1.calls, Some(1), SubscribeCall, {7}, 1);
    DoAllOneMore([], SetObj(1));
    DoAllOneMore([SetObj(1)], Subscribe({7}, 1, false));
    assert [] + [SetObj(1)] + [Subscribe({7}, 1, false)] == REPLACING[..2];
  }

  lemma AddedToEmpty<K, V>(k: K, v: V)
    ensures Added(map[], {k}, {v}) == map[k := {v}]
  {
    assert {} + {v} == {v};
  }

  lemma DoAllOneMore(ops: seq<Op>, op: Op)
    ensures DoAll(ops + [op]) == Do(DoAll(ops), op)
  {
    assert (ops + [op])[..|ops|] == ops;
  }

  // ---------- what the framework was asked to subscribe ----------

  // requestData announces items too, but only subscribe puts them on the object's subscription list.

  /** The items on the subscription list of o. */
  function SubscribedTo(calls: seq<Call>, o: FrameworkObj): set<Item> {
    if calls == [] then {}
    else
      var before, last := SubscribedTo(calls[..|calls| - 1], o), calls[|calls| - 1];
      if last.obj != o then before
      else match last.kind
        case SubscribeCall => before + last.items
        case UnsubscribeCall => before - last.items
        case RequestCall => before
  }

  lemma SubscribedAfterTell(calls: seq<Call>, obj: Option<FrameworkObj>, kind: CallKind, items: set<Item>,
                            o: FrameworkObj)
    ensures SubscribedTo(Tell(calls, obj, kind, items), o) ==
      if obj != Some(o) || kind.RequestCall? then SubscribedTo(calls, o)
      else if kind.SubscribeCall? then SubscribedTo(calls, o) + items
      else SubscribedTo(calls, o) - items
  {
    if obj.Some? && items != {} {
      assert Tell(calls, obj, kind, items)[..|calls|] == calls;
    }
  }

  lemma {:induction false} SubscribedIsAnnounced(calls: seq<Call>, o: FrameworkObj)
    ensures SubscribedTo(calls, o) <= Announced(calls, o)
  {
    if calls != [] {
      SubscribedIsAnnounced(calls[..|calls| - 1], o);
    }
  }

  /** The message that made the present entry of an item that is wanted. */
  function EntryOf(ops: seq<Op>, d: Item): (i: nat)
    requires d in DoAll(ops).itemToClients
    ensures i < |ops|
  {
    if d in DoAll(ops[..|ops| - 1]).itemToClients then EntryOf(ops[..|ops| - 1], d) else |ops| - 1
  }

  predicate InstalledAfter(ops: seq<Op>, i: nat) {
    exists k | i < k < |ops| :: ops[k].SetObj?
  }

  /** How a message changes the subscription list of the object in use, for an item wanted afterwards. */
  lemma StepSubscribes(s: Index, op: Op, d: Item)
    requires d in Do(s, op).itemToClients && Do(s, op).obj.Some?
    ensures var o := Do(s, op).obj.value;
      d in SubscribedTo(Do(s, op).calls, o) <==>
        op.SetObj? || d in SubscribedTo(s.calls, o) || (d !in s.itemToClients && !op.toRequestData)
    ensures d !in s.itemToClients ==> op.Subscribe?
  {
    var o := Do(s, op).obj.value;
    match op {
      case SetObj(_) =>
        SubscribedAfterTell(s.calls, Some(o), SubscribeCall, s.itemToClients.Keys, o);
        SubscribedAfterTell(Tell(s.calls, Some(o), SubscribeCall, s.itemToClients.Keys), Some(o), RequestCall,
                            s.itemToClients.Keys, o);
      case Subscribe(items, client, toRequestData) =>
        SubscribedAfterTell(s.calls, s.obj, if toRequestData then RequestCall else SubscribeCall,
                            items - s.itemToClients.Keys, o);
      case Unsubscribe(items, client) =>
        var unused := Values(s.clientToItems, client) * items;
        SubscribedAfterTell(s.calls, s.obj, UnsubscribeCall, GoneKeys(s.itemToClients, unused, {client}), o);
      case UnsubscribeAll(client) =>
        var unused := Values(s.clientToItems, client);
        SubscribedAfterTell(s.calls, s.obj, UnsubscribeCall, GoneKeys(s.itemToClients, unused, {client}), o);
    }
  }

  lemma InstalledLastOrBefore(ops: seq<Op>, i: nat)
    requires i < |ops| - 1
    ensures InstalledAfter(ops, i) <==> ops[|ops| - 1].SetObj? || InstalledAfter(ops[..|ops| - 1], i)
  {
    var before := ops[..|ops| - 1];
    assert forall k | 0 <= k < |before| :: before[k] == ops[k];
  }

  /** In every run with clean installs, a wanted item is on the subscription list of the object in use if and
      only if its entry was made by a subscribe, or an object was installed since. An entry made by
      requestData alone leaves it off, however many clients subscribe to it later. */
  lemma {:induction false} WantedIsSubscribedIff(ops: seq<Op>, d: Item)
    requires CleanInstalls(ops) && DoAll(ops).obj.Some? && d in DoAll(ops).itemToClients
    ensures var i := EntryOf(ops, d);
      && ops[i].Subscribe?
      && (d in SubscribedTo(DoAll(ops).calls, DoAll(ops).obj.value) <==>
            !ops[i].toRequestData || InstalledAfter(ops, i))
  {
    var before, last := ops[..|ops| - 1], ops[|ops| - 1];
    StepSubscribes(DoAll(before), last, d);
    if d in DoAll(before).itemToClients {
      assert before[EntryOf(before, d)] == ops[EntryOf(ops, d)];
      InstalledLastOrBefore(ops, EntryOf(ops, d));
      if last.SetObj? || DoAll(before).obj.None? {
        EntryIsSubscribe(before, d);
      } else {
        WantedIsSubscribedIff(before, d);
      }
    } else if DoAll(before).obj.Some? {
      FrameworkStaysInStep(before);
      SubscribedIsAnnounced(DoAll(before).calls, DoAll(before).obj.value);
    }
  }

  lemma {:induction false} EntryIsSubscribe(ops: seq<Op>, d: Item)
    requires d in DoAll(ops).itemToClients
    ensures ops[EntryOf(ops, d)].Subscribe?
  {
    var before := ops[..|ops| - 1];
    if d in DoAll(before).itemToClients {
      EntryIsSubscribe(before, d);
    }
  }

  /** So a client that subscribes to an item somebody else requested is left without a subscription. */
  const REQUESTED_FIRST := [SetObj(1), Subscribe({7}, 1, true), Subscribe({7}, 2, false)]

  lemma SubscribedButNotOnTheList()
    ensures var s := DoAll(REQUESTED_FIRST);
      InStep(s) && 7 in Values(s.clientToItems, 2) && s.obj == Some(1) && SubscribedTo(s.calls, 1) == {}
  {
    InstalledOnceIsClean(REQUESTED_FIRST);
    FrameworkStaysInStep(REQUESTED_FIRST);
    var s2 := AfterRequesting();
    AddedValues(s2.clientToItems, {2}, {7});
    assert {7} - s2.itemToClients.Keys == {};
    DoAllOneMore(REQUESTED_FIRST[..2], Subscribe({7}, 2, false));
    assert REQUESTED_FIRST[..2] + [Subscribe({7}, 2, false)] == REQUESTED_FIRST;
  }

  lemma AfterRequesting() returns (s: Index)
    ensures s == DoAll(REQUESTED_FIRST[..2])
    ensures s.obj == Some(1) && s.itemToClients == map[7 := {1}] && SubscribedTo(s.calls, 1) == {}
  {
    var s1 := Do(EMPTY_INDEX, SetObj(1));
    assert s1 == EMPTY_INDEX.(obj := Some(1));
    s := Do(s1, Subscribe({7}, 1, true));
    AddedToEmpty<Item, Client>(7, 1);
    SubscribedAfterTell(s1.calls, Some(1), RequestCall, {7} - s1.itemToClients.Keys, 1);
    DoAllOneMore([], SetObj(1));
    DoAllOneMore([SetObj(1)], Subscribe({7}, 1, true));
    assert [] + [SetObj(1)] + [Subscribe({7}, 1, true)] == REQUESTED_FIRST[..2];
  }

  // ---------- updating a subscription ----------

  /** updateSubscription. LocUnorderedSetMap::update hands back the items that the client had and keeps, not
      those that it drops, and takes the same items out of the new ones. */
  function OnUpdateSubscription(s: Index, items: set<Item>, client: Client): Index {
    var common := Values(s.clientToItems, client) * items;
    var fresh' := items - common;
    s.(clientToItems := s.clientToItems[client := items],
       itemToClients := Added(Trimmed(s.itemToClients, common, {client}), fresh', {client}),
       calls := Tell(Tell(s.calls, s.obj, SubscribeCall, fresh' - Trimmed(s.itemToClients, common, {client}).Keys),
                     s.obj, UnsubscribeCall, GoneKeys(s.itemToClients, common, {client})))
  }

  /** Afterwards the item map has the client for the items it had or has, but not for those of both. */
  lemma UpdateRecords(s: Index, items: set<Item>, client: Client, d: Item)
    requires Inverse(s)
    ensures var s', had := OnUpdateSubscription(s, items, client), Values(s.clientToItems, client);
      && Values(s'.clientToItems, client) == items
      && (client in Values(s'.itemToClients, d) <==> d in had + items && d !in had * items)
  {
    var common := Values(s.clientToItems, client) * items;
    TrimmedValues(s.itemToClients, common, {client});
    AddedValues(Trimmed(s.itemToClients, common, {client}), items - common, {client});
  }

  /** So the maps stay inverse through it if and only if the client had no items: then it is a subscription. */
  lemma UpdateKeepsInverseIff(s: Index, items: set<Item>, client: Client)
    requires Inverse(s) && items != {}
    ensures Inverse(OnUpdateSubscription(s, items, client)) <==> client !in s.clientToItems
    ensures client !in s.clientToItems ==>
      OnUpdateSubscription(s, items, client) == Do(s, Subscribe(items, client, false))
  {
    if client in s.clientToItems {
      var d :| d in s.clientToItems[client];
      UpdateRecords(s, items, client, d);
    } else {
      UpdateOfNewClient(s, items, client);
      StepKeepsInverse(s, Subscribe(items, client, false));
    }
  }

  lemma UpdateOfNewClient(s: Index, items: set<Item>, client: Client)
    requires items != {} && client !in s.clientToItems
    ensures OnUpdateSubscription(s, items, client) == Do(s, Subscribe(items, client, false))
  {
    assert {} * items == {} && items - {} == items && {} + items == items;
    assert Trimmed(s.itemToClients, {}, {client}) == s.itemToClients;
    assert GoneKeys(s.itemToClients, {}, {client}) == {};
    assert s.clientToItems[client := items] == Added(s.clientToItems, {client}, items);
  }

  /** What the framework is told still matches the item map. */
  lemma UpdateKeepsInStep(s: Index, items: set<Item>, client: Client)
    requires InStep(s)
    ensures InStep(OnUpdateSubscription(s, items, client))
  {
    if s.obj.Some? {
      var o, common := s.obj.value, Values(s.clientToItems, client) * items;
      var trimmed := Trimmed(s.itemToClients, common, {client});
      var come, gone := (items - common) - trimmed.Keys, GoneKeys(s.itemToClients, common, {client});
      AnnouncedAfterTell(s.calls, s.obj, SubscribeCall, come, o);
      AnnouncedAfterTell(Tell(s.calls, s.obj, SubscribeCall, come), s.obj, UnsubscribeCall, gone, o);
      TrimmedValues(s.itemToClients, common, {client});
      AddedValues(trimmed, items - common, {client});
      assert trimmed.Keys == s.itemToClients.Keys - gone;
    }
  }

  // ---------- who is notified ----------

  /** notify collects the clients of the changed items from one map ... */
  ghost function ClientsOf(itemToClients: map<Item, set<Client>>, changed: set<Item>): set<Client> {
    set d, c | d in changed && c in Values(itemToClients, d) :: c
  }

  /** ... and their items from the other: because the maps are inverse, a client is collected exactly
      when one of its items changed. */
  lemma NotifiedExactly(s: Index, changed: set<Item>, c: Client)
    requires Inverse(s)
    ensures c in ClientsOf(s.itemToClients, changed) <==> Values(s.clientToItems, c) * changed != {}
  {
    if c in ClientsOf(s.itemToClients, changed) {
      var d :| d in changed && c in Values(s.itemToClients, d);
      assert d in Values(s.clientToItems, c) * changed;
    }
    if Values(s.clientToItems, c) * changed != {} {
      var d :| d in Values(s.clientToItems, c) * changed;
      assert c in Values(s.itemToClients, d);
    }
  }
}
