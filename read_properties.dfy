/** What `ChildNodes`, `ParentNodes` and `RelatedNodes` send, proved of
    their specifications in `Backend`. */
module ReadProperties {
  import opened Models
  import opened Keys
  import opened Layout
  import opened Bags
  import opened Backend

  /** `ChildNodes` sends one relation per target found in the host's hash
      (a metadata field whose target has no target field still counts); each
      relation has the node as host (one `node:` removed), the target, and
      exactly the metadata keys found for that target, each with the value
      of a field that decodes to it. A failing HGETALL sends nothing. */
  lemma {:induction false} ChildNodesShape(s: Store, nodeId: string, faults: set<Call>, rels: multiset<Relation>)
    requires ChildRelations(s, nodeId, faults, rels)
    ensures var id := NodeKeyToNodeId(nodeId);
      var key := NodeIdToParentRelationKey(id);
      var h := HashAt(s, key);
      && (HGetAll(key) in faults ==> rels == multiset{})
      && (HGetAll(key) !in faults ==> GroupedShape(h, id, rels))
  {
    var id := NodeKeyToNodeId(nodeId);
    var key := NodeIdToParentRelationKey(id);
    if HGetAll(key) !in faults {
      var targets :| Decodes(HashAt(s, key), targets) && rels == Bag(targets, ChildMaker(id));
      GroupedBagShape(HashAt(s, key), targets, id);
    }
  }

  /** What `ChildNodes` sends depends only on the node's hash. */
  lemma ChildRelationsSameHash(s: Store, s': Store, nodeId: string, faults: set<Call>, rels: multiset<Relation>)
    requires HashAt(s, NodeIdToParentRelationKey(NodeKeyToNodeId(nodeId))) == HashAt(s', NodeIdToParentRelationKey(NodeKeyToNodeId(nodeId)))
    requires ChildRelations(s', nodeId, faults, rels)
    ensures ChildRelations(s, nodeId, faults, rels)
  {
  }

  /** The relations built for host `id` from a hash `h`: one per target found
      in `h`, each with exactly the metadata keys found for its target and
      values from fields that decode to them. */
  ghost predicate GroupedShape(h: map<string, string>, id: string, rels: multiset<Relation>)
  {
    && |rels| == |TargetsOf(h)|
    && EveryTargetIn(h, id, rels)
    && OnlyTargetsIn(h, id, rels)
  }

  ghost predicate EveryTargetIn(h: map<string, string>, id: string, rels: multiset<Relation>)
  {
    forall t :: t in TargetsOf(h) ==>
      exists md: map<string, string> :: md.Keys == MetaKeysOf(h, t) && NewRelationWithMetadata(id, t, md) in rels
  }

  ghost predicate OnlyTargetsIn(h: map<string, string>, id: string, rels: multiset<Relation>)
  {
    forall r :: r in rels ==>
      exists t, md: map<string, string> :: t in TargetsOf(h) && md.Keys == MetaKeysOf(h, t) && r == NewRelationWithMetadata(id, t, md)
        && forall k :: k in md ==> md[k] in Candidates(h, t, k)
  }

  lemma GroupedBagShape(h: map<string, string>, targets: map<string, map<string, string>>, id: string)
    requires Decodes(h, targets)
    ensures GroupedShape(h, id, Bag(targets, ChildMaker(id)))
  {
    BagSize(targets, ChildMaker(id));
    assert |targets| == |targets.Keys|;
    GroupedBagEvery(h, targets, id);
    GroupedBagOnly(h, targets, id);
  }

  lemma GroupedBagEvery(h: map<string, string>, targets: map<string, map<string, string>>, id: string)
    requires Decodes(h, targets)
    ensures EveryTargetIn(h, id, Bag(targets, ChildMaker(id)))
  {
    forall t | t in TargetsOf(h)
      ensures exists md: map<string, string> :: md.Keys == MetaKeysOf(h, t) && NewRelationWithMetadata(id, t, md) in Bag(targets, ChildMaker(id))
    {
      EveryTargetSent(h, targets, id, t);
    }
  }

  lemma GroupedBagOnly(h: map<string, string>, targets: map<string, map<string, string>>, id: string)
    requires Decodes(h, targets)
    ensures OnlyTargetsIn(h, id, Bag(targets, ChildMaker(id)))
  {
    forall r | r in Bag(targets, ChildMaker(id))
      ensures exists t, md: map<string, string> :: t in TargetsOf(h) && md.Keys == MetaKeysOf(h, t) && r == NewRelationWithMetadata(id, t, md)
                && forall k :: k in md ==> md[k] in Candidates(h, t, k)
    {
      OnlyTargetsSent(h, targets, id, r);
    }
  }

  lemma EveryTargetSent(h: map<string, string>, targets: map<string, map<string, string>>, id: string, t: string)
    requires Decodes(h, targets) && t in TargetsOf(h)
    ensures targets[t].Keys == MetaKeysOf(h, t) && NewRelationWithMetadata(id, t, targets[t]) in Bag(targets, ChildMaker(id))
  {
    BagMembers(targets, ChildMaker(id), ChildMaker(id)(t, targets[t]));
  }

  lemma OnlyTargetsSent(h: map<string, string>, targets: map<string, map<string, string>>, id: string, r: Relation)
    requires Decodes(h, targets) && r in Bag(targets, ChildMaker(id))
    ensures exists t :: t in TargetsOf(h) && targets[t].Keys == MetaKeysOf(h, t) && r == NewRelationWithMetadata(id, t, targets[t])
                && forall k :: k in targets[t] ==> targets[t][k] in Candidates(h, t, k)
  {
    BagMembers(targets, ChildMaker(id), r);
  }

  /** `ParentNodes` sends, when no call fails, one relation per member of
      the node's parent set: host the member and target the node (one
      `node:` removed from each), with the metadata the member's hash holds
      for the node, possibly none. A failing SMEMBERS sends nothing. */
  lemma {:induction false} ParentNodesShape(s: Store, nodeId: string, faults: set<Call>)
    ensures var setKey := NodeIdToChildRelationKey(nodeId);
      && (SMembers(setKey) in faults ==> ParentRelations(s, nodeId, faults) == multiset{})
      && (faults == {} ==>
            var members, rels := MembersAt(s, setKey), ParentRelations(s, nodeId, faults);
            && |rels| == |members|
            && (forall p :: p in members ==> ParentRelation(nodeId, p, HashAt(s, NodeIdToParentRelationKey(p))) in rels)
            && (forall r :: r in rels ==> exists p :: p in members && r == ParentRelation(nodeId, p, HashAt(s, NodeIdToParentRelationKey(p)))))
  {
    var setKey := NodeIdToChildRelationKey(nodeId);
    if SMembers(setKey) in faults {
      assert ReadableHosts(s, faults, {}) == map[];
    }
    if faults == {} {
      var members := MembersAt(s, setKey);
      var readable := ReadableHosts(s, faults, members);
      assert readable.Keys == members;
      assert |readable| == |readable.Keys|;
      BagSize(readable, ParentMaker(nodeId));
      forall p | p in members
        ensures ParentRelation(nodeId, p, HashAt(s, NodeIdToParentRelationKey(p))) in ParentRelations(s, nodeId, faults)
      {
        BagMembers(readable, ParentMaker(nodeId), ParentMaker(nodeId)(p, readable[p]));
      }
      forall r | r in ParentRelations(s, nodeId, faults)
        ensures exists p :: p in members && r == ParentRelation(nodeId, p, HashAt(s, NodeIdToParentRelationKey(p)))
      {
        BagMembers(readable, ParentMaker(nodeId), r);
      }
    }
  }

  /** `RelatedNodes` sends what `ChildNodes` and `ParentNodes` send: when no
      call fails, one relation per target of the node's hash plus one per
      member of its parent set. */
  lemma {:induction false} RelatedNodesSize(s: Store, nodeId: string, rels: multiset<Relation>)
    requires RelatedRelations(s, nodeId, {}, rels)
    ensures |rels| == |TargetsOf(HashAt(s, NodeIdToParentRelationKey(NodeKeyToNodeId(nodeId))))|
                      + |MembersAt(s, NodeIdToChildRelationKey(nodeId))|
    ensures ParentRelations(s, nodeId, {}) <= rels
  {
    var children :| ChildRelations(s, nodeId, {}, children) && rels == children + ParentRelations(s, nodeId, {});
    ChildNodesShape(s, nodeId, {}, children);
    ParentNodesShape(s, nodeId, {});
  }
}
