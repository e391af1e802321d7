/** A dictionary from a key to a set of values, where adding unions into the key's set. */
module MultiValue {

  import opened Wrappers

  class MultiValueDictionary<K(==), V(==)> {
    var dictionary: map<K, set<V>>

    constructor ()
      ensures dictionary == map[]
    {
      dictionary := map[];
    }

    /** Indexer getter: the .NET dictionary throws on a missing key. */
    method Get(key: K) returns (values: set<V>)
      requires key in dictionary
      ensures values == dictionary[key]
    {
      values := dictionary[key];
    }

    /** Indexer setter: replaces the key's set wholesale. */
    method Set(key: K, values: set<V>)
      modifies this
      ensures dictionary == old(dictionary)[key := values]
    {
      dictionary := dictionary[key := values];
    }

    /** The key's set becomes its old set (empty when absent) plus the value; other keys keep their sets. */
    method Add(key: K, value: V)
      modifies this
      ensures key in dictionary
      ensures dictionary[key] == (if key in old(dictionary) then old(dictionary)[key] else {}) + {value}
      ensures forall k :: k != key ==> (k in dictionary <==> k in old(dictionary))
      ensures forall k :: k != key && k in dictionary ==> dictionary[k] == old(dictionary)[k]
    {
      var values: set<V> := {};
      if key in dictionary {
        values := values + dictionary[key];
        dictionary := dictionary - {key};
      }
      values := values + {value};
      dictionary := dictionary[key := values];
    }

    method Remove(key: K) returns (removed: bool)
      modifies this
      ensures removed <==> key in old(dictionary)
      ensures dictionary == old(dictionary) - {key}
    {
      removed := key in dictionary;
      dictionary := dictionary - {key};
    }

    /** The boolean result and the out-set of TryGetValue, as one optional value. */
    method TryGetValue(key: K) returns (values: Option<set<V>>)
      ensures values.Some? <==> key in dictionary
      ensures values.Some? ==> values.value == dictionary[key]
    {
      if key in dictionary {
        values := Some(dictionary[key]);
      } else {
        values := None;
      }
    }

    method ContainsKey(key: K) returns (r: bool)
      ensures r <==> key in dictionary
    {
      r := key in dictionary;
    }
  }

  /** After any Add of a key, ContainsKey of that key answers true and its set holds the added value. */
  method AddThenContains<K(==), V(==)>(d: MultiValueDictionary<K, V>, key: K, value: V) returns (present: bool)
    modifies d
    ensures present && key in d.dictionary && value in d.dictionary[key]
  {
    d.Add(key, value);
    present := d.ContainsKey(key);
  }
}
