/** LocUnorderedSetMap: a map whose values are non-empty sets, changed in place. The functions give
    the new map; the class loops over keys and values in no particular order. */
module SetMap {

  /** getValSet: a missing key has the empty set. */
  function Values<K, V>(m: map<K, set<V>>, k: K): set<V> {
    if k in m then m[k] else {}
  }

  predicate NoEmpty<K, V>(m: map<K, set<V>>) {
    forall k | k in m :: m[k] != {}
  }

  /** Adding newVals under each of keys. */
  function Added<K, V>(m: map<K, set<V>>, keys: set<K>, newVals: set<V>): map<K, set<V>> {
    if newVals == {} then m
    else map k | k in m.Keys + keys :: if k in keys then Values(m, k) + newVals else m[k]
  }

  /** Removing rVals from the entries of keys; an entry of keys left empty goes. */
  function Trimmed<K, V>(m: map<K, set<V>>, keys: set<K>, rVals: set<V>): map<K, set<V>> {
    map k | k in m && !(k in keys && m[k] <= rVals) :: if k in keys then m[k] - rVals else m[k]
  }

  /** The keys whose entries a trim removes. */
  function GoneKeys<K, V>(m: map<K, set<V>>, keys: set<K>, rVals: set<V>): set<K> {
    set k | k in keys && k in m && m[k] <= rVals
  }

  lemma AddedValues<K, V>(m: map<K, set<V>>, keys: set<K>, newVals: set<V>)
    ensures forall k :: Values(Added(m, keys, newVals), k) == Values(m, k) + if k in keys then newVals else {}
    ensures NoEmpty(m) ==> NoEmpty(Added(m, keys, newVals))
    ensures Added(m, keys, newVals).Keys == m.Keys + if newVals == {} then {} else keys
  {
  }

  lemma TrimmedValues<K, V>(m: map<K, set<V>>, keys: set<K>, rVals: set<V>)
    ensures forall k :: Values(Trimmed(m, keys, rVals), k) == Values(m, k) - if k in keys then rVals else {}
    ensures NoEmpty(m) ==> NoEmpty(Trimmed(m, keys, rVals))
    ensures Trimmed(m, keys, rVals).Keys == m.Keys - GoneKeys(m, keys, rVals)
  {
    forall k | k in m && m[k] - rVals == {} ensures m[k] <= rVals {
      assert forall v | v in m[k] :: v in m[k] - rVals || v in rVals;
    }
  }

  class LocUnorderedSetMap<K(==), V(==)> {
    var mMap: map<K, set<V>>

    constructor ()
      ensures mMap == map[]
    {
      mMap := map[];
    }

    /** trimSet, with the removed elements collected in goneVals. */
    static method TrimSet(fromSet: set<V>, rVals: set<V>, goneVals: set<V>) returns (left: set<V>, gone: set<V>)
      ensures left == fromSet - rVals && gone == goneVals + fromSet * rVals
    {
      left, gone := fromSet, goneVals;
      var todo := rVals;
      while todo != {}
        invariant todo <= rVals
        invariant left == fromSet - (rVals - todo) && gone == goneVals + fromSet * (rVals - todo)
        decreases todo
      {
        var val :| val in todo;
        if val in left {
          left := left - {val};
          gone := gone + {val};
        }
        todo := todo - {val};
      }
    }

    method TrimOrRemoveOne(key: K, rVals: set<V>, goneVals: set<V>) returns (removed: bool, gone: set<V>)
      requires key in mMap
      modifies this
      ensures mMap == Trimmed(old(mMap), {key}, rVals)
      ensures removed <==> old(mMap)[key] <= rVals
      ensures gone == goneVals + old(mMap)[key] * rVals
    {
      var left;
      left, gone := TrimSet(mMap[key], rVals, goneVals);
      assert left == {} <==> mMap[key] <= rVals by {
        assert forall v | v in mMap[key] :: v in left || v in rVals;
      }
      removed := left == {};
      if removed {
        mMap := mMap - {key};
      } else {
        mMap := mMap[key := left];
      }
      assert mMap.Keys == Trimmed(old(mMap), {key}, rVals).Keys;
    }

    /** What is removed from the entries of keys. */
    static ghost function GoneValues(m: map<K, set<V>>, keys: set<K>, rVals: set<V>): set<V> {
      set k, v | k in keys && k in m && v in m[k] && v in rVals :: v
    }

    method TrimOrRemove(keys: set<K>, rVals: set<V>) returns (goneKeys: set<K>, goneVals: set<V>)
      modifies this
      ensures mMap == Trimmed(old(mMap), keys, rVals)
      ensures goneKeys == GoneKeys(old(mMap), keys, rVals)
      ensures goneVals == GoneValues(old(mMap), keys, rVals)
    {
      goneKeys, goneVals := {}, {};
      var todo := keys;
      while todo != {}
        invariant todo <= keys
        invariant mMap == Trimmed(old(mMap), keys - todo, rVals)
        invariant goneKeys == GoneKeys(old(mMap), keys - todo, rVals)
        invariant goneVals == GoneValues(old(mMap), keys - todo, rVals)
        decreases todo
      {
        var key :| key in todo;
        assert (keys - todo) + {key} == keys - (todo - {key});
        TrimOneMore(old(mMap), keys - todo, key, rVals);
        if key in mMap {
          var removed;
          removed, goneVals := TrimOrRemoveOne(key, rVals, goneVals);
          if removed {
            goneKeys := goneKeys + {key};
          }
        }
        todo := todo - {key};
      }
      assert keys - {} == keys;
    }

    static lemma TrimOneMore(m: map<K, set<V>>, done: set<K>, key: K, rVals: set<V>)
      requires key !in done
      ensures key in Trimmed(m, done, rVals) <==> key in m
      ensures key in m ==>
        && Trimmed(m, done, rVals)[key] == m[key]
        && Trimmed(m, done + {key}, rVals) == Trimmed(Trimmed(m, done, rVals), {key}, rVals)
        && GoneKeys(m, done + {key}, rVals) == GoneKeys(m, done, rVals) + (if m[key] <= rVals then {key} else {})
        && GoneValues(m, done + {key}, rVals) == GoneValues(m, done, rVals) + m[key] * rVals
      ensures key !in m ==>
        && Trimmed(m, done + {key}, rVals) == Trimmed(m, done, rVals)
        && GoneKeys(m, done + {key}, rVals) == GoneKeys(m, done, rVals)
        && GoneValues(m, done + {key}, rVals) == GoneValues(m, done, rVals)
    {
    }

    method Add(key: K, newVals: set<V>) returns (newEntryAdded: bool)
      modifies this
      ensures mMap == Added(old(mMap), {key}, newVals)
      ensures newEntryAdded <==> newVals != {} && key !in old(mMap)
    {
      newEntryAdded := false;
      if newVals != {} {
        if key in mMap {
          mMap := mMap[key := mMap[key] + newVals];
        } else {
          assert {} + newVals == newVals;
          mMap := mMap[key := newVals];
          newEntryAdded := true;
        }
      }
    }

    method AddAll(keys: set<K>, newVals: set<V>) returns (newKeys: set<K>)
      modifies this
      ensures mMap == Added(old(mMap), keys, newVals)
      ensures newKeys == if newVals == {} then {} else keys - old(mMap).Keys
    {
      newKeys := {};
      var todo := keys;
      while todo != {}
        invariant todo <= keys
        invariant mMap == Added(old(mMap), keys - todo, newVals)
        invariant newKeys == if newVals == {} then {} else (keys - todo) - old(mMap).Keys
        decreases todo
      {
        var key :| key in todo;
        assert (keys - todo) + {key} == keys - (todo - {key});
        var added := Add(key, newVals);
        if added {
          newKeys := newKeys + {key};
        }
        todo := todo - {key};
      }
      assert keys - {} == keys;
    }

    method Remove(key: K) returns (removed: bool)
      modifies this
      ensures mMap == old(mMap) - {key} && (removed <==> key in old(mMap))
    {
      removed := key in mMap;
      mMap := mMap - {key};
    }

    function GetValSet(key: K): set<V>
      reads this
    {
      Values(mMap, key)
    }

    method GetKeys() returns (keys: set<K>)
      ensures keys == mMap.Keys
    {
      keys := {};
      var todo := mMap.Keys;
      while todo != {}
        invariant keys + todo == mMap.Keys
        decreases todo
      {
        var key :| key in todo;
        keys := keys + {key};
        todo := todo - {key};
      }
    }
  }
}
