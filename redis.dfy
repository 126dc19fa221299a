/** `RedisNodeStore` (`redis/redis.go`): the graph backend over a Redis
    database. The database is the object's state; each method changes or
    reads it as the matching function of `Backend` says. */
module Redis {
  import opened Wrappers
  import opened Strings
  import opened Models
  import opened Keys
  import opened Layout
  import opened Bags
  import opened Backend
  import opened Invariants

  /** Fills `relationData` for `StoreRelation`: the target field first, then
      one `meta:` field per metadata entry, in map order. */
  method CollectRelationFields(relation: Relation) returns (relationData: map<string, string>)
    ensures relationData == RelationFields(relation.target, relation.metadata)
  {
    var t, m := relation.target, relation.metadata;
    relationData := map[TargetField(t) := t];
    RelationFieldsOfNone(t);
    MinusAll(m);
    var pending := m.Keys;
    while pending != {}
      invariant pending <= m.Keys
      invariant relationData == RelationFields(t, m - pending)
      decreases pending
    {
      var k :| k in pending;
      RelationFieldsAdd(t, m - pending, k, m[k]);
      MinusStep(m, pending, k);
      relationData := relationData[MetaField(t, k) := m[k]];
      pending := pending - {k};
    }
  }

  /** The grouping loop of `ChildNodes`: visits the hash's fields in any
      order and builds `targets`, target -> metadata. */
  method GroupFieldsByTarget(relation: map<string, string>) returns (targets: map<string, map<string, string>>)
    requires WellFormedHash(relation)
    ensures Decodes(relation, targets)
  {
    targets := map[];
    var pending := relation.Keys;
    MinusAll(relation);
    while pending != {}
      invariant pending <= relation.Keys
      invariant Decodes(relation - pending, targets)
      decreases pending
    {
      var k :| k in pending;
      var v := relation[k];
      ghost var before := targets;
      if HasPrefix(k, TargetPrefix) {
        if v !in targets {
          targets := targets[v := map[]];
        }
      } else if HasPrefix(k, MetaPrefix) {
        var target, metaKey := MetaTarget(k), MetaKey(k);
        if target in targets {
          targets := targets[target := targets[target][metaKey := v]];
        } else {
          targets := targets[target := map[]];
          targets := targets[target := targets[target][metaKey := v]];
          assert targets == before[target := map[metaKey := v]];
        }
        assert targets == GroupStep(before, k, v);
      } else {
        assert targets == GroupStep(before, k, v);
      }
      GroupStepDecodes(relation - pending, before, k, v);
      MinusStep(relation, pending, k);
      pending := pending - {k};
    }
  }

  /** The sending loop of `ChildNodes`: one relation per grouped target. */
  method EmitChildRelations(id: string, targets: map<string, map<string, string>>) returns (rels: multiset<Relation>)
    ensures rels == Bag(targets, ChildMaker(id))
  {
    rels := multiset{};
    var pending := targets;
    while pending != map[]
      invariant rels + Bag(pending, ChildMaker(id)) == Bag(targets, ChildMaker(id))
      decreases pending.Keys
    {
      var target :| target in pending;
      BagRemove(pending, ChildMaker(id), target);
      rels := rels + multiset{NewRelationWithMetadata(id, target, pending[target])};
      pending := pending - {target};
    }
  }

  /** The metadata loop of `ParentNodes`: keeps the fields of a host's hash
      that start with `prefix`, without the prefix. */
  method CollectParentMetadata(relationData: map<string, string>, prefix: string) returns (metadata: map<string, string>)
    ensures metadata == ParentMetadata(relationData, prefix)
  {
    metadata := map[];
    var pending := relationData.Keys;
    MinusAll(relationData);
    while pending != {}
      invariant pending <= relationData.Keys
      invariant metadata == ParentMetadata(relationData - pending, prefix)
      decreases pending
    {
      var k :| k in pending;
      ParentMetadataAdd(relationData - pending, k, relationData[k], prefix);
      MinusStep(relationData, pending, k);
      if HasPrefix(k, prefix) {
        metadata := metadata[TrimPrefix(k, prefix) := relationData[k]];
      }
      pending := pending - {k};
    }
  }

  /** The relation `ParentNodes` sends for host `parentId`, whose hash
      `relationData` it has just read. */
  method BuildParentRelation(nodeId: string, parentId: string, relationData: map<string, string>) returns (relation: Relation)
    ensures relation == ParentMaker(nodeId)(parentId, relationData)
  {
    var id := NodeKeyToNodeId(nodeId);
    var metadata := CollectParentMetadata(relationData, MetaPrefix + id + ":");
    relation := Relation(NodeKeyToNodeId(parentId), id, metadata);
  }

  class RedisNodeStore {
    var values: map<string, Node>
    var hashes: map<string, map<string, string>>
    var sets: map<string, set<string>>

    function State(): Store
      reads this
    {
      Store(values, hashes, sets)
    }

    ghost predicate Valid()
      reads this
    {
      WellFormed(State())
    }

    /** `NewRedisGraph` on an empty database. */
    constructor ()
      ensures Valid() && State() == EmptyStore
    {
      values, hashes, sets := map[], map[], map[];
    }

    method StoreNode(node: Node, faults: set<Call>) returns (identifier: string, result: bool, err: Option<Error>)
      requires Valid()
      modifies this
      ensures Valid()
      ensures Written(State(), identifier, result, err) == PutNode(old(State()), node, faults)
    {
      PutNodeWellFormed(State(), node, faults);
      var key := NodeIdToNodeKey(node.id);
      if Exists(key) in faults {
        return "", false, Some(CallFailed(Exists(key)));
      }
      result := key in values || key in hashes || key in sets;
      if Set(key) in faults {
        return key, result, Some(CallFailed(Set(key)));
      }
      values, hashes, sets := values[key := node], hashes - {key}, sets - {key};
      return key, result, None;
    }

    method StoreRelation(relation: Relation, faults: set<Call>) returns (identifier: string, result: bool, err: Option<Error>)
      requires Valid()
      modifies this
      ensures Valid()
      ensures Written(State(), identifier, result, err) == PutRelation(old(State()), relation, faults)
    {
      var parentKey := NodeIdToParentRelationKey(relation.host);
      var childKey := NodeIdToChildRelationKey(relation.target);
      if Exists(parentKey) in faults {
        return "", false, Some(CallFailed(Exists(parentKey)));
      }
      ghost var before := State();
      PutRelationOutcome(before, relation, faults);
      result := parentKey in values || parentKey in hashes || parentKey in sets;
      var relationData := CollectRelationFields(relation);
      if HSet(parentKey) in faults {
        return "", false, Some(CallFailed(HSet(parentKey)));
      }
      hashes := hashes[parentKey := HashAt(State(), parentKey) + relationData];
      if SAdd(childKey) in faults {
        PutRelationKeepsWellFormed(before, relation, faults, State());
        return parentKey, result, Some(CallFailed(SAdd(childKey)));
      }
      sets := sets[childKey := MembersAt(State(), childKey) + {relation.host}];
      PutRelationKeepsWellFormed(before, relation, faults, State());
      return parentKey, result, None;
    }

    method RetrieveNode(id: string, faults: set<Call>) returns (node: Result<Node, Error>)
      ensures node == GetNode(State(), id, faults)
    {
      var key := NodeIdToNodeKey(id);
      var count := if Exists(key) !in faults && (key in values || key in hashes || key in sets) then 1 else 0;
      if count != 1 {
        return Failure(InvalidNodeId);
      }
      if Get(key) in faults || key !in values {
        return Failure(CallFailed(Get(key)));
      }
      return Success(values[key]);
    }

    method DeleteNode(id: string, faults: set<Call>) returns (err: Option<Error>)
      requires Valid()
      modifies this
      ensures Valid()
      ensures Removed(State(), err) == RemoveNode(old(State()), id, faults)
    {
      RemoveNodeWellFormed(State(), id, faults);
      var key := NodeIdToNodeKey(id);
      if Del(key) in faults {
        return Some(CallFailed(Del(key)));
      }
      values, hashes, sets := values - {key}, hashes - {key}, sets - {key};
      return None;
    }

    method ChildNodes(nodeId: string, faults: set<Call>) returns (rels: multiset<Relation>)
      requires Valid()
      ensures ChildRelations(State(), nodeId, faults, rels)
    {
      var id := nodeId;
      if HasPrefix(id, NodePrefix) {
        id := TrimPrefix(id, NodePrefix);
      }
      var key := NodeIdToParentRelationKey(id);
      if HGetAll(key) in faults {
        return multiset{};
      }
      var relationData := HashAt(State(), key);
      var targets := GroupFieldsByTarget(relationData);
      rels := EmitChildRelations(id, targets);
    }

    method ParentNodes(nodeId: string, faults: set<Call>) returns (rels: multiset<Relation>)
      ensures rels == ParentRelations(State(), nodeId, faults)
    {
      ghost var st := State();
      ghost var maker := ParentMaker(nodeId);
      var setKey := NodeIdToChildRelationKey(nodeId);
      var ids := if SMembers(setKey) in faults then {} else MembersAt(State(), setKey);
      assert ids == ParentIds(st, nodeId, faults);
      rels := multiset{};
      var pending := ids;
      while pending != {}
        invariant pending <= ids
        invariant rels + Bag(ReadableHosts(st, faults, pending), maker) == Bag(ReadableHosts(st, faults, ids), maker)
        decreases pending
      {
        var parentId :| parentId in pending;
        var hostKey := NodeIdToParentRelationKey(parentId);
        ParentStep(st, faults, pending, parentId, maker, rels, Bag(ReadableHosts(st, faults, ids), maker));
        if HGetAll(hostKey) !in faults {
          var relationData := HashAt(State(), hostKey);
          var relation := BuildParentRelation(nodeId, parentId, relationData);
          rels := rels + multiset{relation};
        }
        pending := pending - {parentId};
      }
      assert ReadableHosts(st, faults, {}) == map[];
    }

    method RelatedNodes(nodeId: string, faults: set<Call>) returns (rels: multiset<Relation>)
      requires Valid()
      ensures RelatedRelations(State(), nodeId, faults, rels)
    {
      var children := ChildNodes(nodeId, faults);
      var parents := ParentNodes(nodeId, faults);
      rels := children + parents;
    }
  }
}
