/** Every write keeps the backend `WellFormed`. */
module Invariants {
  import opened Strings
  import opened Models
  import opened Keys
  import opened Layout
  import opened Backend

  lemma PutNodeWellFormed(s: Store, node: Node, faults: set<Call>)
    requires WellFormed(s)
    ensures WellFormed(PutNode(s, node, faults).store)
  {
  }

  /** Merging an edge's fields into a hash keeps it well formed and makes
      it non-empty. */
  lemma MergedHashWellFormed(h: map<string, string>, t: string, m: map<string, string>)
    requires WellFormedHash(h)
    ensures WellFormedHash(h + RelationFields(t, m))
    ensures h + RelationFields(t, m) != map[]
  {
    var fields := RelationFields(t, m);
    RelationFieldsShape(t, m);
    TargetFieldIsNotMeta(t);
    forall f | f in fields && IsMetaEntry(f)
      ensures Decodable(f)
    {
      var k :| k in m && f == MetaField(t, k);
      MetaFieldIsDecodable(t, k);
    }
    assert TargetField(t) in h + fields;
  }

  lemma SetHashWellFormed(s: Store, key: string, h: map<string, string>)
    requires WellFormed(s)
    requires HasPrefix(key, ChildrenOfPrefix) && h != map[] && WellFormedHash(h)
    ensures WellFormed(s.(hashes := s.hashes[key := h]))
  {
  }

  lemma AddMemberWellFormed(s: Store, key: string, member: string)
    requires WellFormed(s)
    requires HasPrefix(key, ParentOfPrefix)
    ensures WellFormed(s.(sets := s.sets[key := MembersAt(s, key) + {member}]))
  {
  }

  lemma PutRelationWellFormed(s: Store, rel: Relation, faults: set<Call>)
    requires WellFormed(s)
    ensures WellFormed(PutRelation(s, rel, faults).store)
  {
    var parentKey := NodeIdToParentRelationKey(rel.host);
    var childKey := NodeIdToChildRelationKey(rel.target);
    var merged := HashAt(s, parentKey) + RelationFields(rel.target, rel.metadata);
    MergedHashWellFormed(HashAt(s, parentKey), rel.target, rel.metadata);
    var s1 := s.(hashes := s.hashes[parentKey := merged]);
    SetHashWellFormed(s, parentKey, merged);
    var s2 := s1.(sets := s1.sets[childKey := MembersAt(s1, childKey) + {rel.host}]);
    AddMemberWellFormed(s1, childKey, rel.host);
    if Exists(parentKey) !in faults && HSet(parentKey) !in faults {
      if SAdd(childKey) in faults {
        assert PutRelation(s, rel, faults).store == s1;
      } else {
        assert PutRelation(s, rel, faults).store == s2;
      }
    }
  }

  /** `PutRelationWellFormed` stated for a store already known to be the
      result, so a caller gets `WellFormed` of that very store. */
  lemma PutRelationKeepsWellFormed(s: Store, rel: Relation, faults: set<Call>, s': Store)
    requires WellFormed(s)
    requires s' == PutRelation(s, rel, faults).store
    ensures WellFormed(s')
  {
    PutRelationWellFormed(s, rel, faults);
  }

  lemma RemoveNodeWellFormed(s: Store, id: string, faults: set<Call>)
    requires WellFormed(s)
    ensures WellFormed(RemoveNode(s, id, faults).store)
  {
  }
}
