/** What `StoreNode`, `RetrieveNode` and `DeleteNode` promise, proved of
    their specifications in `Backend`. */
module NodeProperties {
  import opened Wrappers
  import opened Strings
  import opened Models
  import opened Keys
  import opened Backend
  import opened Invariants

  /** A node key is never the key of a hash or a set. */
  lemma NodeKeyOnlyInValues(s: Store, key: string)
    requires WellFormed(s) && HasPrefix(key, NodePrefix)
    ensures key !in s.hashes && key !in s.sets
    ensures KeyExists(s, key) <==> key in s.values
  {
    PrefixesDisjoint(key);
  }

  /** `StoreNode` reports the node key and whether it held a node before the
      call; on success the key holds the node afterwards and nothing else in
      the database changes. A failing EXISTS returns `""` and writes nothing;
      a failing SET writes nothing but still reports the key. */
  lemma {:induction false} StoreNodeContract(s: Store, node: Node, faults: set<Call>)
    requires WellFormed(s)
    ensures var key, w := NodeIdToNodeKey(node.id), PutNode(s, node, faults);
      && (Exists(key) in faults ==> w == Written(s, "", false, Some(CallFailed(Exists(key)))))
      && (Exists(key) !in faults ==> w.key == key && (w.existed <==> key in s.values))
      && (Exists(key) !in faults && Set(key) in faults ==> w.store == s && w.err == Some(CallFailed(Set(key))))
      && (Exists(key) !in faults && Set(key) !in faults ==>
            w.err == None && w.store == Store(s.values[key := node], s.hashes, s.sets))
  {
    var key := NodeIdToNodeKey(node.id);
    NodeKeyOnlyInValues(s, key);
    assert s.hashes - {key} == s.hashes;
    assert s.sets - {key} == s.sets;
  }

  /** Storing a node under an id that is not yet stored reports `false`;
      storing again under the same id reports `true` and overwrites the
      payload. */
  lemma StoreNodeTwice(s: Store, first: Node, second: Node)
    requires WellFormed(s) && first.id == second.id
    requires NodeIdToNodeKey(first.id) !in s.values
    ensures !PutNode(s, first, {}).existed
    ensures PutNode(PutNode(s, first, {}).store, second, {}).existed
    ensures PutNode(PutNode(s, first, {}).store, second, {}).store.values[NodeIdToNodeKey(first.id)] == second
  {
    StoreNodeContract(s, first, {});
    PutNodeWellFormed(s, first, {});
    StoreNodeContract(PutNode(s, first, {}).store, second, {});
  }

  /** The first store of node `node-1` into an empty database returns the
      key `node:node-1` and reports that the node is new. */
  lemma StoreNodeFirstTime(data: NodeData)
    ensures PutNode(EmptyStore, Node("node-1", data), {}) ==
      Written(Store(map["node:node-1" := Node("node-1", data)], map[], map[]), "node:node-1", false, None)
  {
    assert !HasPrefix("node-1", NodePrefix) by { assert "node-1"[4] != NodePrefix[4]; }
    assert NodeIdToNodeKey("node-1") == "node:node-1";
    assert !KeyExists(EmptyStore, "node:node-1");
    assert EmptyStore.hashes - {"node:node-1"} == map[];
    assert EmptyStore.sets - {"node:node-1"} == map[];
  }

  /** `RetrieveNode` succeeds exactly when the node key holds a node and
      neither EXISTS nor GET fails, and then returns that node; a key that
      does not exist gives "invalid node ID". */
  lemma RetrieveNodeContract(s: Store, id: string, faults: set<Call>)
    requires WellFormed(s)
    ensures var key := NodeIdToNodeKey(id);
      && (GetNode(s, id, faults).Success? <==> key in s.values && Exists(key) !in faults && Get(key) !in faults)
      && (GetNode(s, id, faults).Success? ==> GetNode(s, id, faults).value == s.values[key])
      && (key !in s.values ==> GetNode(s, id, faults) == Failure(InvalidNodeId))
  {
    NodeKeyOnlyInValues(s, NodeIdToNodeKey(id));
  }

  /** What `StoreNode` stored, `RetrieveNode` returns unchanged. */
  lemma StoreThenRetrieve(s: Store, node: Node)
    requires WellFormed(s)
    ensures GetNode(PutNode(s, node, {}).store, node.id, {}) == Success(node)
  {
    StoreNodeContract(s, node, {});
  }

  /** `DeleteNode` removes the node key and nothing else: every relation
      hash and parent set is left as it was. A failing DEL changes nothing.
      Deleting a node that is not stored is not an error. */
  lemma {:induction false} DeleteNodeContract(s: Store, id: string, faults: set<Call>)
    requires WellFormed(s)
    ensures var key, d := NodeIdToNodeKey(id), RemoveNode(s, id, faults);
      && (Del(key) in faults ==> d == Removed(s, Some(CallFailed(Del(key)))))
      && (Del(key) !in faults ==> d == Removed(Store(s.values - {key}, s.hashes, s.sets), None))
  {
    var key := NodeIdToNodeKey(id);
    NodeKeyOnlyInValues(s, key);
    assert s.hashes - {key} == s.hashes;
    assert s.sets - {key} == s.sets;
  }

  /** A deleted node cannot be retrieved, and deleting it again changes
      nothing and succeeds. */
  lemma DeleteThenRetrieve(s: Store, id: string, faults: set<Call>)
    requires WellFormed(s)
    ensures GetNode(RemoveNode(s, id, {}).store, id, faults) == Failure(InvalidNodeId)
    ensures RemoveNode(RemoveNode(s, id, {}).store, id, {}) == RemoveNode(s, id, {})
  {
    var key := NodeIdToNodeKey(id);
    DeleteNodeContract(s, id, {});
    var s1 := RemoveNode(s, id, {}).store;
    assert WellFormed(s1);
    DeleteNodeContract(s1, id, {});
    NodeKeyOnlyInValues(s1, key);
    assert s1.values - {key} == s1.values;
  }
}
