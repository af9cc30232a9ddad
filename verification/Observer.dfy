/** SystemStatusOsObserver: the message bodies, on the two maps, the cache and the framework object. */
module Observer {
  import opened Wrappers
  import opened SetMap
  import opened ObserverIndex

  type Value = int

  /** A data item as it arrives: whether SystemStatus accepts it, whether an object for it can be
      created, and whether copying it over a cached one changes that one. */
  datatype Update = Update(item: Item, value: Value, accepted: bool, creatable: bool, copied: bool)

  /** One call of a client's notify. */
  datatype Delivery = Delivery(client: Client, items: map<Item, Value>)

  /** Everything the observer sends, to clients and to the framework, in one order. */
  datatype Outgoing = ToClient(delivery: Delivery) | ToFramework(call: Call)

  function ToClients(out: seq<Delivery>): (r: seq<Outgoing>)
    ensures |r| == |out| && forall i | 0 <= i < |r| :: r[i] == ToClient(out[i])
  {
    seq(|out|, i requires 0 <= i < |out| => ToClient(out[i]))
  }

  function ToFrameworks(calls: seq<Call>): (r: seq<Outgoing>)
    ensures |r| == |calls| && forall i | 0 <= i < |r| :: r[i] == ToFramework(calls[i])
  {
    seq(|calls|, i requires 0 <= i < |calls| => ToFramework(calls[i]))
  }

  /** updateCache, and whether the item counts as updated. */
  function CacheAfter(cache: map<Item, Value>, u: Update): (map<Item, Value>, bool) {
    if !u.accepted then (cache, false)
    else if u.item !in cache then (if u.creatable then (cache[u.item := u.value], true) else (cache, false))
    else if u.copied then (cache[u.item := u.value], true)
    else (cache, false)
  }

  function CacheAfterAll(cache: map<Item, Value>, us: seq<Update>): (map<Item, Value>, set<Item>) {
    if us == [] then (cache, {})
    else
      var (c, changed) := CacheAfterAll(cache, us[..|us| - 1]);
      var (c', updated) := CacheAfter(c, us[|us| - 1]);
      (c', changed + if updated then {us[|us| - 1].item} else {})
  }

  /** Does the update at i change what is cached, when the items of `known` were cached at first? */
  predicate TakesEffect(known: set<Item>, us: seq<Update>, i: nat)
    requires i < |us|
    decreases i
  {
    && us[i].accepted
    && if us[i].item in known || exists j: nat | j < i :: us[j].item == us[i].item && TakesEffect(known, us, j)
       then us[i].copied else us[i].creatable
  }

  /** Some update of the item takes effect. */
  predicate IsUpdated(known: set<Item>, us: seq<Update>, d: Item) {
    exists i: nat | i < |us| :: us[i].item == d && TakesEffect(known, us, i)
  }

  /** The items changed are those of the updates that took effect; each has the value of the last such update,
      and every other item is as it was. */
  ghost predicate Follows(cache: map<Item, Value>, us: seq<Update>, cache': map<Item, Value>, changed: set<Item>) {
    && (forall d :: d in changed <==> IsUpdated(cache.Keys, us, d))
    && (forall d :: d in cache' <==> d in cache || d in changed)
    && (forall d | d in cache && d !in changed :: cache'[d] == cache[d])
    && (forall i: nat | i < |us| && TakesEffect(cache.Keys, us, i) && !OvertakenIn(cache.Keys, us, i) ::
          us[i].item in cache' && cache'[us[i].item] == us[i].value)
  }

  /** A later update of the same item took effect too. */
  predicate OvertakenIn(known: set<Item>, us: seq<Update>, i: nat)
    requires i < |us|
  {
    exists j: nat | i < j < |us| :: us[j].item == us[i].item && TakesEffect(known, us, j)
  }

  lemma {:induction false} EffectInPrefix(known: set<Item>, us: seq<Update>, n: nat, i: nat)
    requires i < n <= |us|
    ensures TakesEffect(known, us[..n], i) <==> TakesEffect(known, us, i)
    decreases i
  {
    forall j: nat | j < i ensures TakesEffect(known, us[..n], j) <==> TakesEffect(known, us, j) {
      EffectInPrefix(known, us, n, j);
    }
  }

  /** updateCache, one item after the other, does that. */
  lemma {:induction false} CacheFollows(cache: map<Item, Value>, us: seq<Update>)
    ensures var (cache', changed) := CacheAfterAll(cache, us); Follows(cache, us, cache', changed)
  {
    if us != [] {
      var n, before := |us| - 1, us[..|us| - 1];
      CacheFollows(cache, before);
      forall i: nat | i < n {
        EffectInPrefix(cache.Keys, us, n, i);
      }
      var (c, changed) := CacheAfterAll(cache, before);
      OneMoreUpdate(cache, us, c, changed);
    }
  }

  /** Whether the update after those of `before`, whose outcome is c and changed, takes effect. */
  lemma LastTakesEffect(cache: map<Item, Value>, us: seq<Update>, c: map<Item, Value>, changed: set<Item>)
    requires us != [] && Follows(cache, us[..|us| - 1], c, changed)
    requires SameEffects(cache.Keys, us)
    ensures TakesEffect(cache.Keys, us, |us| - 1) <==> CacheAfter(c, us[|us| - 1]).1
  {
    var n, before, last := |us| - 1, us[..|us| - 1], us[|us| - 1];
    assert last.item in changed <==>
      exists j: nat | j < n :: us[j].item == last.item && TakesEffect(cache.Keys, us, j)
    by {
      forall j: nat | j < n ensures before[j].item == us[j].item {
      }
    }
  }

  ghost predicate SameEffects(known: set<Item>, us: seq<Update>)
    requires us != []
  {
    forall i: nat | i < |us| - 1 :: TakesEffect(known, us[..|us| - 1], i) <==> TakesEffect(known, us, i)
  }

  lemma OneMoreChanged(known: set<Item>, us: seq<Update>, changed: set<Item>, d: Item)
    requires us != [] && SameEffects(known, us)
    requires d in changed <==> IsUpdated(known, us[..|us| - 1], d)
    ensures IsUpdated(known, us, d) <==>
      d in changed || (us[|us| - 1].item == d && TakesEffect(known, us, |us| - 1))
  {
    var before := us[..|us| - 1];
    if d in changed {
      var i: nat :| i < |us| - 1 && before[i].item == d && TakesEffect(known, before, i);
      assert us[i].item == d && TakesEffect(known, us, i);
    }
    if i: nat :| i < |us| && us[i].item == d && TakesEffect(known, us, i) {
      if i < |us| - 1 {
        assert before[i].item == d && TakesEffect(known, before, i);
      }
    }
  }

  lemma OneMoreUpdate(cache: map<Item, Value>, us: seq<Update>, c: map<Item, Value>, changed: set<Item>)
    requires us != [] && Follows(cache, us[..|us| - 1], c, changed) && SameEffects(cache.Keys, us)
    ensures var (c', updated) := CacheAfter(c, us[|us| - 1]);
      Follows(cache, us, c', changed + if updated then {us[|us| - 1].item} else {})
  {
    var known, last := cache.Keys, us[|us| - 1];
    var (c', updated) := CacheAfter(c, last);
    LastTakesEffect(cache, us, c, changed);
    var changed' := changed + if updated then {last.item} else {};
    forall d ensures d in changed' <==> IsUpdated(known, us, d) {
      OneMoreChanged(known, us, changed, d);
    }
    forall i: nat | i < |us| && TakesEffect(known, us, i) && !OvertakenIn(known, us, i)
      ensures us[i].item in c' && c'[us[i].item] == us[i].value
    {
      if i < |us| - 1 {
        OvertakenStays(known, us, i);
        assert updated ==> last.item != us[i].item;
      }
    }
  }

  lemma OvertakenStays(known: set<Item>, us: seq<Update>, i: nat)
    requires us != [] && SameEffects(known, us) && i < |us| - 1
    ensures OvertakenIn(known, us[..|us| - 1], i) ==> OvertakenIn(known, us, i)
  {
    var before := us[..|us| - 1];
    if OvertakenIn(known, before, i) {
      var j: nat :| i < j < |before| && before[j].item == before[i].item && TakesEffect(known, before, j);
      assert us[j].item == us[i].item && TakesEffect(known, us, j);
    }
  }

  /** The cached ones among items: what sendCachedDataItems sends. */
  function Cached(cache: map<Item, Value>, items: set<Item>): (r: map<Item, Value>)
    ensures r.Keys == items * cache.Keys && forall d | d in r :: r[d] == cache[d]
  {
    map d | d in items && d in cache :: cache[d]
  }

  ghost function Told(out: seq<Delivery>): set<Client> {
    set i | 0 <= i < |out| :: out[i].client
  }

  lemma ToldAppend(out: seq<Delivery>, d: Delivery)
    ensures Told(out + [d]) == Told(out) + {d.client}
  {
    forall c | c in Told(out) + {d.client} ensures c in Told(out + [d]) {
      if c == d.client {
        assert (out + [d])[|out|].client == c;
      } else {
        var i :| 0 <= i < |out| && out[i].client == c;
        assert (out + [d])[i].client == c;
      }
    }
  }

  /** Each client is in the list once, and exactly the wanted ones are, with exactly their items. */
  ghost predicate DeliversExactly(out: seq<Delivery>, clientToItems: map<Client, set<Item>>,
                                  changed: set<Item>, cache: map<Item, Value>)
  {
    && (forall i, j | 0 <= i < j < |out| :: out[i].client != out[j].client)
    && (forall i | 0 <= i < |out| ::
          && out[i].items.Keys == Values(clientToItems, out[i].client) * changed
          && out[i].items != map[]
          && forall d | d in out[i].items :: d in cache && out[i].items[d] == cache[d])
    && (forall c: Client :: c in Told(out) <==> Values(clientToItems, c) * changed != {})
  }

  class SystemStatusOsObserver {
    const mClientToDataItems: LocUnorderedSetMap<Client, Item>
    const mDataItemToClients: LocUnorderedSetMap<Item, Client>
    var mDataItemCache: map<Item, Value>
    var mSubscriptionObj: Option<FrameworkObj>
    var calls: seq<Call>           // made to framework objects
    var delivered: seq<Delivery>   // made to clients
    var log: seq<Outgoing>         // both, in order

    ghost predicate Valid()
      reads this, mClientToDataItems, mDataItemToClients
    {
      mClientToDataItems != mDataItemToClients && Inverse(Index())
    }

    ghost function Index(): Index
      reads this, mClientToDataItems, mDataItemToClients
    {
      ObserverIndex.Index(mClientToDataItems.mMap, mDataItemToClients.mMap, mSubscriptionObj, calls)
    }

    constructor ()
      ensures Valid() && Index() == EMPTY_INDEX && mDataItemCache == map[] && delivered == [] && log == []
      ensures fresh(mClientToDataItems) && fresh(mDataItemToClients)
    {
      mClientToDataItems := new LocUnorderedSetMap<Client, Item>();
      mDataItemToClients := new LocUnorderedSetMap<Item, Client>();
      mDataItemCache, mSubscriptionObj, calls, delivered, log := map[], None, [], [], [];
    }

    method TellFramework(kind: CallKind, items: set<Item>)
      modifies this`calls, this`log
      ensures calls == Tell(old(calls), mSubscriptionObj, kind, items)
      ensures log == old(log) + ToFrameworks(Tell([], mSubscriptionObj, kind, items))
    {
      if mSubscriptionObj.Some? && items != {} {
        calls := calls + [Call(mSubscriptionObj.value, kind, items)];
        log := log + [ToFramework(Call(mSubscriptionObj.value, kind, items))];
      }
    }

    method SetSubscriptionObj(subscriptionObj: Option<FrameworkObj>)
      requires Valid()
      modifies this`mSubscriptionObj, this`calls, this`log
      ensures Valid()
      ensures Index() == if subscriptionObj.None? then old(Index()) else Do(old(Index()), SetObj(subscriptionObj.value))
      ensures log == old(log) + ToFrameworks(calls[|old(calls)|..])
    {
      if subscriptionObj.None? { return; }
      StepKeepsInverse(Index(), SetObj(subscriptionObj.value));
      mSubscriptionObj := subscriptionObj;
      var dis := mDataItemToClients.GetKeys();
      TellFramework(SubscribeCall, dis);
      TellFramework(RequestCall, dis);
    }

    method SendCachedDataItems(s: set<Item>, to: Client)
      modifies this`delivered, this`log
      ensures var cached := Cached(mDataItemCache, s);
        var sent := if cached == map[] then [] else [Delivery(to, cached)];
        delivered == old(delivered) + sent && log == old(log) + ToClients(sent)
    {
      var dataItems: map<Item, Value> := map[];
      var todo := s;
      while todo != {}
        invariant todo <= s
        invariant dataItems == Cached(mDataItemCache, s - todo)
        decreases todo
      {
        var each :| each in todo;
        if each in mDataItemCache {
          dataItems := dataItems[each := mDataItemCache[each]];
        }
        todo := todo - {each};
      }
      assert s - {} == s;
      if dataItems != map[] {
        delivered := delivered + [Delivery(to, dataItems)];
        log := log + [ToClient(Delivery(to, dataItems))];
      }
    }

    /** Both subscribe and requestData; the client first gets what is cached. */
    method Subscribe(items: set<Item>, client: Option<Client>, toRequestData: bool)
      requires Valid()
      modifies this`calls, this`delivered, this`log, mClientToDataItems, mDataItemToClients
      ensures Valid()
      ensures Index() == if client.None? then old(Index())
                         else Do(old(Index()), Op.Subscribe(items, client.value, toRequestData))
      ensures var cached := Cached(mDataItemCache, items);
        var sent := if client.None? || cached == map[] then [] else [Delivery(client.value, cached)];
        && delivered == old(delivered) + sent
        && log == old(log) + ToClients(sent) + ToFrameworks(calls[|old(calls)|..])
    {
      if items == {} || client.None? { return; }
      StepKeepsInverse(Index(), Op.Subscribe(items, client.value, toRequestData));
      var dataItemsToSubscribe := mDataItemToClients.AddAll(items, {client.value});
      var _ := mClientToDataItems.Add(client.value, items);
      SendCachedDataItems(items, client.value);
      TellFramework(if toRequestData then RequestCall else SubscribeCall, dataItemsToSubscribe);
    }

    method Unsubscribe(items: set<Item>, client: Option<Client>)
      requires Valid()
      modifies this`calls, this`log, mClientToDataItems, mDataItemToClients
      ensures Valid()
      ensures Index() == if client.None? then old(Index()) else Do(old(Index()), Op.Unsubscribe(items, client.value))
      ensures log == old(log) + ToFrameworks(calls[|old(calls)|..])
    {
      if items == {} || client.None? { return; }
      StepKeepsInverse(Index(), Op.Unsubscribe(items, client.value));
      ghost var before := mClientToDataItems.mMap;
      var _, dataItemsUnusedByClient := mClientToDataItems.TrimOrRemove({client.value}, items);
      assert dataItemsUnusedByClient == Values(before, client.value) * items;
      var dataItemsToUnsubscribe, _ := mDataItemToClients.TrimOrRemove(dataItemsUnusedByClient, {client.value});
      TellFramework(UnsubscribeCall, dataItemsToUnsubscribe);
    }

    method UnsubscribeAll(client: Option<Client>)
      requires Valid()
      modifies this`calls, this`log, mClientToDataItems, mDataItemToClients
      ensures Valid()
      ensures Index() == if client.None? then old(Index()) else Do(old(Index()), Op.UnsubscribeAll(client.value))
      ensures log == old(log) + ToFrameworks(calls[|old(calls)|..])
    {
      if client.None? { return; }
      StepKeepsInverse(Index(), Op.UnsubscribeAll(client.value));
      var diByClient := mClientToDataItems.GetValSet(client.value);
      if diByClient != {} {
        var _ := mClientToDataItems.Remove(client.value);
        var dataItemsToUnsubscribe, _ := mDataItemToClients.TrimOrRemove(diByClient, {client.value});
        TellFramework(UnsubscribeCall, dataItemsToUnsubscribe);
      }
    }

    method UpdateCache(u: Update) returns (dataItemUpdated: bool)
      modifies this`mDataItemCache
      ensures (mDataItemCache, dataItemUpdated) == CacheAfter(old(mDataItemCache), u)
      ensures dataItemUpdated <==> u.accepted && if u.item in old(mDataItemCache) then u.copied else u.creatable
      ensures mDataItemCache == if dataItemUpdated then old(mDataItemCache)[u.item := u.value] else old(mDataItemCache)
    {
      dataItemUpdated := false;
      if u.accepted {
        if u.item !in mDataItemCache {
          if u.creatable {
            mDataItemCache := mDataItemCache[u.item := u.value];
            dataItemUpdated := true;
          }
        } else if u.copied {
          mDataItemCache := mDataItemCache[u.item := u.value];
          dataItemUpdated := true;
        }
      }
    }

    method UpdateAll(us: seq<Update>) returns (changed: set<Item>)
      modifies this`mDataItemCache
      ensures (mDataItemCache, changed) == CacheAfterAll(old(mDataItemCache), us)
    {
      changed := {};
      var i := 0;
      while i < |us|
        invariant i <= |us|
        invariant (mDataItemCache, changed) == CacheAfterAll(old(mDataItemCache), us[..i])
      {
        assert us[..i + 1][..i] == us[..i];
        var updated := UpdateCache(us[i]);
        changed := changed + if updated then {us[i].item} else {};
        i := i + 1;
      }
      assert us[..|us|] == us;
    }

    /** An item is changed exactly when an update of it took effect, and then has the value of the last such
        update. Every client with a changed item is called once, with exactly its changed items and those
        values; nobody else is called. */
    method Notify(us: seq<Update>) returns (ghost changed: set<Item>, ghost out: seq<Delivery>)
      requires Valid()
      modifies this`mDataItemCache, this`delivered, this`log
      ensures Valid() && Index() == old(Index())
      ensures Follows(old(mDataItemCache), us, mDataItemCache, changed)
      ensures delivered == old(delivered) + out && log == old(log) + ToClients(out)
      ensures DeliversExactly(out, mClientToDataItems.mMap, changed, mDataItemCache)
    {
      var ids := UpdateAll(us);
      CacheFollows(old(mDataItemCache), us);
      changed := ids;
      var clientSet := CollectClients(ids);
      forall c ensures c in clientSet <==> Values(mClientToDataItems.mMap, c) * changed != {} {
        NotifiedExactly(Index(), changed, c);
      }
      out := DeliverTo(clientSet, ids);
    }

    method CollectClients(ids: set<Item>) returns (clientSet: set<Client>)
      ensures clientSet == ClientsOf(mDataItemToClients.mMap, ids)
    {
      clientSet := {};
      var todo := ids;
      while todo != {}
        invariant todo <= ids
        invariant clientSet == ClientsOf(mDataItemToClients.mMap, ids - todo)
        decreases todo
      {
        var each :| each in todo;
        clientSet := clientSet + mDataItemToClients.GetValSet(each);
        todo := todo - {each};
      }
      assert ids - {} == ids;
    }

    method DeliverTo(clientSet: set<Client>, ids: set<Item>) returns (ghost out: seq<Delivery>)
      requires ids <= mDataItemCache.Keys
      requires forall c :: c in clientSet <==> Values(mClientToDataItems.mMap, c) * ids != {}
      modifies this`delivered, this`log
      ensures delivered == old(delivered) + out && log == old(log) + ToClients(out)
      ensures DeliversExactly(out, mClientToDataItems.mMap, ids, mDataItemCache)
    {
      out := [];
      var todo := clientSet;
      while todo != {}
        invariant todo <= clientSet
        invariant delivered == old(delivered) + out && log == old(log) + ToClients(out)
        invariant Told(out) == clientSet - todo
        invariant forall i, j | 0 <= i < j < |out| :: out[i].client != out[j].client
        invariant forall i | 0 <= i < |out| ::
          && out[i].items.Keys == Values(mClientToDataItems.mMap, out[i].client) * ids
          && out[i].items != map[]
          && forall d | d in out[i].items :: d in mDataItemCache && out[i].items[d] == mDataItemCache[d]
        decreases todo
      {
        var client :| client in todo;
        var forThisClient := mClientToDataItems.GetValSet(client) * ids;
        var d :| d in forThisClient;
        ghost var items := Cached(mDataItemCache, forThisClient);
        assert d in items;
        SendCachedDataItems(forThisClient, client);
        ToldAppend(out, Delivery(client, items));
        out := out + [Delivery(client, items)];
        todo := todo - {client};
      }
    }
  }
}
