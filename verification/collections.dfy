/** Helpers over Python's built-in collections. */
module Collections {

  /** An arbitrary element of a non-empty set: the next one a `for x in s` loop visits. */
  method Pick<T>(s: set<T>) returns (x: T)
    requires s != {}
    ensures x in s
  {
    x :| x in s;
  }

  /**
   * A Python dict comprehension `{key(x): x for x in xs}`: each item is stored
   * under its key and, when two items share a key, the later one wins.
   * The relation fields index the task's lists this way, and the cache indexes
   * its seed rows this way.
   */
  function IndexBy<K, V>(items: seq<V>, key: V -> K): (m: map<K, V>)
    ensures forall k :: k in m ==> key(m[k]) == k
    ensures forall k :: k in m ==> m[k] in items
    decreases |items|
  {
    if items == [] then map[]
    else
      var last := items[|items| - 1];
      var m0 := IndexBy(items[..|items| - 1], key);
      assert forall k :: k in m0 ==> m0[k] in items by {
        forall k | k in m0 ensures m0[k] in items {
          var i :| 0 <= i < |items| - 1 && items[..|items| - 1][i] == m0[k];
          assert items[i] == m0[k];
        }
      }
      m0[key(last) := last]
  }

  /** The keys are exactly the keys of the items. */
  lemma {:induction false} IndexByKeys<K, V>(items: seq<V>, key: V -> K)
    ensures IndexBy(items, key).Keys == set i | 0 <= i < |items| :: key(items[i])
  {
    if items != [] {
      var front := items[..|items| - 1];
      IndexByKeys(front, key);
      forall k ensures k in IndexBy(items, key) <==> exists i :: 0 <= i < |items| && key(items[i]) == k {
        if k in IndexBy(front, key) && k != key(items[|items| - 1]) {
          var i :| 0 <= i < |front| && key(front[i]) == k;
          assert items[i] == front[i];
        }
        if i :| 0 <= i < |items| - 1 && key(items[i]) == k {
          assert front[i] == items[i];
        }
      }
    }
  }

  /** An item that no later item shadows is the one stored under its key. */
  lemma {:induction false} IndexByLastWins<K, V>(items: seq<V>, key: V -> K, j: nat)
    requires j < |items|
    requires forall j' :: j < j' < |items| ==> key(items[j']) != key(items[j])
    ensures key(items[j]) in IndexBy(items, key)
    ensures IndexBy(items, key)[key(items[j])] == items[j]
  {
    if j < |items| - 1 {
      var front := items[..|items| - 1];
      forall j' | j < j' < |front| ensures key(front[j']) != key(front[j]) {
        assert front[j'] == items[j'];
      }
      IndexByLastWins(front, key, j);
    }
  }

  /** Every stored item is the last one carrying its key. */
  lemma {:induction false} IndexByStoresLast<K, V>(items: seq<V>, key: V -> K, k: K)
    requires k in IndexBy(items, key)
    ensures exists j :: 0 <= j < |items| && key(items[j]) == k && IndexBy(items, key)[k] == items[j]
                        && forall j' :: j < j' < |items| ==> key(items[j']) != k
  {
    var front := items[..|items| - 1];
    if key(items[|items| - 1]) != k {
      IndexByStoresLast(front, key, k);
      var j :| 0 <= j < |front| && key(front[j]) == k && IndexBy(front, key)[k] == front[j]
               && forall j' :: j < j' < |front| ==> key(front[j']) != k;
      assert items[j] == front[j];
      assert forall j' :: j < j' < |items| ==> key(items[j']) != k by {
        forall j' | j < j' < |items| ensures key(items[j']) != k {
          if j' < |front| { assert items[j'] == front[j']; }
        }
      }
    }
  }
}
