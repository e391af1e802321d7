/**
 * A dictionary that keeps a forward map and its inverse side by side.
 * Both maps are updated together, so under Valid() each is the inverse
 * of the other and the pair describes a bijection between keys and values.
 */
module TwoWay {

  import opened Wrappers

  /** `b` undoes `f` and `f` undoes `b`: the two maps form one bijection. */
  ghost predicate Inverse<T, U>(f: map<T, U>, b: map<U, T>) {
    && (forall k :: k in f ==> f[k] in b && b[f[k]] == k)
    && (forall v :: v in b ==> b[v] in f && f[b[v]] == v)
  }

  class TwoWayDictionary<T(==), U(==)> {
    var forward: map<T, U>
    var backward: map<U, T>

    ghost predicate Valid()
      reads this
    {
      Inverse(forward, backward)
    }

    constructor ()
      ensures Valid()
      ensures forward == map[] && backward == map[]
    {
      forward := map[];
      backward := map[];
    }

    /** Registers the pair one <-> two; the .NET dictionaries throw on a duplicate key, so both must be new. */
    method Add(one: T, two: U)
      requires one !in forward && two !in backward
      modifies this
      ensures forward == old(forward)[one := two]
      ensures backward == old(backward)[two := one]
      ensures old(Valid()) ==> Valid()
    {
      forward := forward[one := two];
      backward := backward[two := one];
    }

    /**
     * Removes key2 from the backward map and, only when that succeeded,
     * key1 from the forward map.
     */
    method Remove(key1: T, key2: U) returns (success: bool)
      modifies this
      ensures success <==> key2 in old(backward) && key1 in old(forward)
      ensures backward == old(backward) - {key2}
      ensures forward == if key2 in old(backward) then old(forward) - {key1} else old(forward)
      ensures old(Valid()) && key2 in old(backward) && old(backward)[key2] == key1 ==> Valid()
      ensures old(Valid()) && key2 !in old(backward) ==> Valid()
    {
      success := key2 in backward;
      backward := backward - {key2};
      if success {
        success := key1 in forward;
        forward := forward - {key1};
      }
    }

    /** The boolean result and the out-value of the .NET TryGetValue pattern, as one optional value. */
    method ForwardSearch(key: T) returns (value: Option<U>)
      ensures value.Some? <==> key in forward
      ensures value.Some? ==> value.value == forward[key]
      ensures value.Some? && Valid() ==> value.value in backward && backward[value.value] == key
    {
      if key in forward {
        value := Some(forward[key]);
      } else {
        value := None;
      }
    }

    method BackwardSearch(key: U) returns (value: Option<T>)
      ensures value.Some? <==> key in backward
      ensures value.Some? ==> value.value == backward[key]
      ensures value.Some? && Valid() ==> value.value in forward && forward[value.value] == key
    {
      if key in backward {
        value := Some(backward[key]);
      } else {
        value := None;
      }
    }

    method ContainsForwardKey(key: T) returns (r: bool)
      ensures r <==> key in forward
      ensures r && Valid() ==> forward[key] in backward
    {
      r := key in forward;
    }

    method ContainsBackwardKey(key: U) returns (r: bool)
      ensures r <==> key in backward
      ensures r && Valid() ==> backward[key] in forward
    {
      r := key in backward;
    }

    /** Under the invariant, the forward keys are exactly the backward values. */
    method GetForwardKeys() returns (keys: set<T>)
      ensures keys == forward.Keys
      ensures Valid() ==> keys == backward.Values
    {
      keys := forward.Keys;
      if Valid() {
        assert forall k :: k in keys ==> backward[forward[k]] == k;
      }
    }

    method GetForwardValues() returns (values: set<U>)
      ensures values == forward.Values
      ensures Valid() ==> values == backward.Keys
    {
      values := forward.Values;
      if Valid() {
        assert forall v :: v in backward ==> forward[backward[v]] == v;
      }
    }

    method GetBackwardKeys() returns (keys: set<U>)
      ensures keys == backward.Keys
      ensures Valid() ==> keys == forward.Values
    {
      keys := backward.Keys;
      if Valid() {
        assert forall v :: v in keys ==> forward[backward[v]] == v;
      }
    }

    method GetBackwardValues() returns (values: set<T>)
      ensures values == backward.Values
      ensures Valid() ==> values == forward.Keys
    {
      values := backward.Values;
      if Valid() {
        assert forall k :: k in forward ==> backward[forward[k]] == k;
      }
    }
  }
}
