/** What `StoreRelation` promises, proved of its specification in `Backend`. */
module RelationProperties {
  import opened Wrappers
  import opened Strings
  import opened Models
  import opened Keys
  import opened Layout
  import opened Backend
  import opened Invariants

  /** A hash key is only ever the key of a hash; a set key only of a set. */
  lemma FamilyKeys(s: Store, parentKey: string, childKey: string)
    requires WellFormed(s)
    requires HasPrefix(parentKey, ChildrenOfPrefix) && HasPrefix(childKey, ParentOfPrefix)
    ensures parentKey !in s.values && parentKey !in s.sets
    ensures childKey !in s.values && childKey !in s.hashes
    ensures KeyExists(s, parentKey) <==> parentKey in s.hashes
  {
    PrefixesDisjoint(parentKey);
    PrefixesDisjoint(childKey);
  }

  /** `StoreRelation` reports the host's hash key and whether that hash
      existed before the call (so it reports `true` for any second edge of
      the same host, whatever its target). On success the host's hash gains
      the edge's fields, the target's set gains the host, and nothing else
      changes. A failing EXISTS or HSET returns `""` and writes nothing; a
      failing SADD keeps the fields already written and reports the key with
      the error. */
  lemma {:induction false} StoreRelationContract(s: Store, rel: Relation, faults: set<Call>)
    requires WellFormed(s)
    ensures var parentKey, childKey := NodeIdToParentRelationKey(rel.host), NodeIdToChildRelationKey(rel.target);
      var w := PutRelation(s, rel, faults);
      var merged := s.hashes[parentKey := HashAt(s, parentKey) + RelationFields(rel.target, rel.metadata)];
      && (Exists(parentKey) in faults ==> w == Written(s, "", false, Some(CallFailed(Exists(parentKey)))))
      && (Exists(parentKey) !in faults && HSet(parentKey) in faults ==> w == Written(s, "", false, Some(CallFailed(HSet(parentKey)))))
      && (Exists(parentKey) !in faults && HSet(parentKey) !in faults ==>
            && w.key == parentKey
            && (w.existed <==> parentKey in s.hashes)
            && (SAdd(childKey) in faults ==>
                  w.store == Store(s.values, merged, s.sets) && w.err == Some(CallFailed(SAdd(childKey))))
            && (SAdd(childKey) !in faults ==>
                  w.store == Store(s.values, merged, s.sets[childKey := MembersAt(s, childKey) + {rel.host}]) && w.err == None))
  {
    var parentKey, childKey := NodeIdToParentRelationKey(rel.host), NodeIdToChildRelationKey(rel.target);
    FamilyKeys(s, parentKey, childKey);
  }

  /** The host's hash after a successful `StoreRelation`: the target field
      holds the target, every metadata field holds its value, the other
      fields (those of other targets among them) keep theirs, and no other
      field appears. Every other hash is unchanged. */
  lemma {:induction false} StoreRelationFields(s: Store, rel: Relation, faults: set<Call>)
    requires Exists(NodeIdToParentRelationKey(rel.host)) !in faults && HSet(NodeIdToParentRelationKey(rel.host)) !in faults
    ensures var parentKey := NodeIdToParentRelationKey(rel.host);
      var before, after := HashAt(s, parentKey), HashAt(PutRelation(s, rel, faults).store, parentKey);
      && TargetField(rel.target) in after && after[TargetField(rel.target)] == rel.target
      && (forall k :: k in rel.metadata ==> MetaField(rel.target, k) in after && after[MetaField(rel.target, k)] == rel.metadata[k])
      && (forall f :: f in after ==> f in before || f == TargetField(rel.target) || exists k :: k in rel.metadata && f == MetaField(rel.target, k))
      && (forall f :: f in before ==> f in after)
      && (forall f :: f in before && f != TargetField(rel.target) && (forall k :: k in rel.metadata ==> f != MetaField(rel.target, k)) ==> after[f] == before[f])
      && (forall key :: key != parentKey ==> HashAt(PutRelation(s, rel, faults).store, key) == HashAt(s, key))
  {
    var parentKey := NodeIdToParentRelationKey(rel.host);
    var s' := PutRelation(s, rel, faults).store;
    PutRelationMerges(s, rel, faults);
    HashesUpdated(s, s', parentKey, HashAt(s, parentKey) + RelationFields(rel.target, rel.metadata));
    MergeShape(HashAt(s, parentKey), rel.target, rel.metadata);
  }

  /** Replacing one hash leaves every other key's hash as it was. */
  lemma HashesUpdated(s: Store, s': Store, key: string, h: map<string, string>)
    requires s'.hashes == s.hashes[key := h]
    ensures HashAt(s', key) == h
    ensures forall other :: other != key ==> HashAt(s', other) == HashAt(s, other)
  {
  }

  /** Merging the fields of an edge into a hash. */
  lemma MergeShape(before: map<string, string>, t: string, m: map<string, string>)
    ensures var after := before + RelationFields(t, m);
      && TargetField(t) in after && after[TargetField(t)] == t
      && (forall k :: k in m ==> MetaField(t, k) in after && after[MetaField(t, k)] == m[k])
      && (forall f :: f in after ==> f in before || f == TargetField(t) || exists k :: k in m && f == MetaField(t, k))
      && (forall f :: f in before ==> f in after)
      && (forall f :: f in before && f != TargetField(t) && (forall k :: k in m ==> f != MetaField(t, k)) ==> after[f] == before[f])
  {
    RelationFieldsShape(t, m);
  }

  /** Two edges of one host: the first store into a host without edges
      reports `false`, the second reports `true` even for another target. */
  lemma StoreRelationFlagPerHost(s: Store, first: Relation, second: Relation)
    requires WellFormed(s) && first.host == second.host
    requires NodeIdToParentRelationKey(first.host) !in s.hashes
    ensures !PutRelation(s, first, {}).existed
    ensures PutRelation(PutRelation(s, first, {}).store, second, {}).existed
  {
    StoreRelationContract(s, first, {});
    PutRelationWellFormed(s, first, {});
    StoreRelationContract(PutRelation(s, first, {}).store, second, {});
  }
}
