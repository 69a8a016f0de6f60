/** What several components share. */
module Common {

  datatype Option<+T> = None | Some(value: T)

  /** TR69HOSTIFMGR_MAX_PARAM_LEN: the size of the name and value buffers of a message. */
  const MAX_PARAM_LEN: nat := 4096

  /** An order in which an iterator can visit the keys of a string map: each key once. */
  ghost predicate Enumerates<V>(order: seq<string>, m: map<string, V>) {
    && (forall k :: k in order <==> k in m)
    && (forall i, j :: 0 <= i < j < |order| ==> order[i] != order[j])
  }

  /** So it is as long as the map. */
  lemma EnumerationLength<V>(order: seq<string>, m: map<string, V>)
    requires Enumerates(order, m)
    ensures |order| == |m|
  {
    DistinctLength(order, m.Keys);
  }

  lemma {:induction false} DistinctLength(order: seq<string>, keys: set<string>)
    requires forall k :: k in order <==> k in keys
    requires forall i, j :: 0 <= i < j < |order| ==> order[i] != order[j]
    ensures |order| == |keys|
  {
    if order != [] {
      var rest := order[1..];
      assert order == [order[0]] + rest;
      DistinctLength(rest, keys - {order[0]});
    } else {
      assert keys == {};
    }
  }

  lemma Associative<T>(a: seq<T>, b: seq<T>, c: seq<T>)
    ensures a + b + c == a + (b + c)
  {
  }
}
