/** The multiset of values a finite map produces when every entry is turned
    into one output item. The Go read operations range over a Go map or a
    set and send one relation per entry down a channel, in an unspecified
    order: the multiset of what was sent is `Bag(m, maker)`. */
module Bags {

  ghost function Bag<K, V, R>(m: map<K, V>, maker: (K, V) -> R): multiset<R>
    decreases m.Keys
  {
    if m == map[] then multiset{}
    else
      var k :| k in m;
      multiset{maker(k, m[k])} + Bag(m - {k}, maker)
  }

  /** `Bag` does not depend on the entry it happens to pick first: any entry
      can be taken out. */
  lemma {:induction false} BagRemove<K, V, R>(m: map<K, V>, maker: (K, V) -> R, k: K)
    requires k in m
    ensures Bag(m, maker) == multiset{maker(k, m[k])} + Bag(m - {k}, maker)
    decreases m.Keys
  {
    var j :| j in m && Bag(m, maker) == multiset{maker(j, m[j])} + Bag(m - {j}, maker);
    if j != k {
      assert m - {j} - {k} == m - {k} - {j};
      BagRemove(m - {j}, maker, k);
      BagRemove(m - {k}, maker, j);
    }
  }

  /** One item per entry. */
  lemma {:induction false} BagSize<K, V, R>(m: map<K, V>, maker: (K, V) -> R)
    ensures |Bag(m, maker)| == |m|
    decreases m.Keys
  {
    if m != map[] {
      var k :| k in m;
      BagRemove(m, maker, k);
      BagSize(m - {k}, maker);
      assert (m - {k}).Keys == m.Keys - {k};
    }
  }

  /** Every entry produces an item, and every item comes from an entry. */
  lemma {:induction false} BagMembers<K, V, R>(m: map<K, V>, maker: (K, V) -> R, r: R)
    ensures r in Bag(m, maker) <==> exists k :: k in m && maker(k, m[k]) == r
    decreases m.Keys
  {
    if m != map[] {
      var k :| k in m;
      BagRemove(m, maker, k);
      BagMembers(m - {k}, maker, r);
      if j :| j in m && maker(j, m[j]) == r {
        if j != k {
          assert j in m - {k} && (m - {k})[j] == m[j];
        }
      }
    }
  }

  /** An item only one entry produces occurs exactly once. */
  lemma BagUnique<K, V, R>(m: map<K, V>, maker: (K, V) -> R, k: K)
    requires k in m
    requires forall j :: j in m && maker(j, m[j]) == maker(k, m[k]) ==> j == k
    ensures Bag(m, maker)[maker(k, m[k])] == 1
  {
    BagRemove(m, maker, k);
    BagMembers(m - {k}, maker, maker(k, m[k]));
  }

  lemma BagOfSingleton<K, V, R>(k: K, v: V, maker: (K, V) -> R)
    ensures Bag(map[k := v], maker) == multiset{maker(k, v)}
  {
    BagRemove(map[k := v], maker, k);
    assert map[k := v] - {k} == map[];
  }

  lemma PairBag<T>(x: T, y: T)
    ensures multiset{x} + multiset{y} == multiset{x, y}
  {
  }

  /** Two entries that produce the same item produce it twice. */
  lemma BagOfTwin<K, V, R>(a: K, b: K, v: V, maker: (K, V) -> R)
    requires a != b && maker(a, v) == maker(b, v)
    ensures Bag(map[a := v, b := v], maker)[maker(b, v)] == 2
  {
    var m := map[a := v, b := v];
    BagRemove(m, maker, b);
    assert m - {b} == map[a := v];
    BagOfSingleton(a, v, maker);
  }

  /** Taking one more key out of the pending set of a loop over a map. */
  lemma MinusStep<K, V>(m: map<K, V>, pending: set<K>, k: K)
    requires k in pending && k in m
    ensures (m - pending)[k := m[k]] == m - (pending - {k})
  {
  }

  lemma MinusAll<K, V>(m: map<K, V>)
    ensures m - m.Keys == map[] && m - {} == m
  {
  }
}
