/** The graph of the repository's `Test_RelatedNodes`, over any ids: nodes
    `a`, `b`, `c` are stored (which creates no edge), then the edge `a -> b`
    and the edge `c -> a`, one call after the other with no failing call. */
module Scenario {
  import opened Wrappers
  import opened Strings
  import opened Models
  import opened Keys
  import opened Layout
  import opened Bags
  import opened Backend
  import opened ReadProperties
  import opened RoundTrips
  import opened RelationProperties
  import opened Invariants

  /** An id without ':' carries none of the key prefixes. */
  lemma ColonFreeUndecorated(id: string)
    requires ':' !in id
    ensures !HasPrefix(id, NodePrefix) && !HasPrefix(id, ChildrenOfPrefix) && !HasPrefix(id, ParentOfPrefix)
  {
    if |id| >= |NodePrefix| { assert id[4] in id; }
    if |id| >= |ParentOfPrefix| { assert id[8] in id; }
    if |id| >= |ChildrenOfPrefix| { assert id[10] in id; }
  }

  /** Distinct ':'-free ids have distinct hash keys and distinct set keys. */
  lemma DistinctKeys(x: string, y: string)
    requires ':' !in x && ':' !in y && x != y
    ensures NodeIdToParentRelationKey(x) != NodeIdToParentRelationKey(y)
    ensures NodeIdToChildRelationKey(x) != NodeIdToChildRelationKey(y)
  {
    ColonFreeUndecorated(x);
    ColonFreeUndecorated(y);
  }

  /** The store after both edges, with `s` the store before them. */
  function TwoEdges(s: Store, a: string, b: string, c: string, mb: map<string, string>, mc: map<string, string>): Store
  {
    PutRelation(PutRelation(s, Relation(a, b, mb), {}).store, Relation(c, a, mc), {}).store
  }

  /** Both edges are stored as new, under their host's hash key. */
  lemma {:induction false} TwoEdgesStoredAsNew(s: Store, a: string, b: string, c: string, mb: map<string, string>, mc: map<string, string>)
    requires WellFormed(s) && s.hashes == map[]
    requires ':' !in a && ':' !in c && a != c
    ensures PutRelation(s, Relation(a, b, mb), {}) ==
      Written(PutRelation(s, Relation(a, b, mb), {}).store, NodeIdToParentRelationKey(a), false, None)
    ensures var s1 := PutRelation(s, Relation(a, b, mb), {}).store;
      PutRelation(s1, Relation(c, a, mc), {}) == Written(TwoEdges(s, a, b, c, mb, mc), NodeIdToParentRelationKey(c), false, None)
  {
    FirstStoredAsNew(s, a, b, mb);
    SecondStoredAsNew(s, a, b, c, mb, mc);
  }

  lemma FirstStoredAsNew(s: Store, a: string, b: string, mb: map<string, string>)
    requires WellFormed(s) && s.hashes == map[]
    ensures PutRelation(s, Relation(a, b, mb), {}).key == NodeIdToParentRelationKey(a)
    ensures !PutRelation(s, Relation(a, b, mb), {}).existed && PutRelation(s, Relation(a, b, mb), {}).err == None
  {
    StoreRelationContract(s, Relation(a, b, mb), {});
  }

  lemma SecondStoredAsNew(s: Store, a: string, b: string, c: string, mb: map<string, string>, mc: map<string, string>)
    requires WellFormed(s) && s.hashes == map[] && ':' !in a && ':' !in c && a != c
    ensures var s1 := PutRelation(s, Relation(a, b, mb), {}).store;
      && PutRelation(s1, Relation(c, a, mc), {}).key == NodeIdToParentRelationKey(c)
      && !PutRelation(s1, Relation(c, a, mc), {}).existed && PutRelation(s1, Relation(c, a, mc), {}).err == None
  {
    var s1 := PutRelation(s, Relation(a, b, mb), {}).store;
    assert NodeIdToParentRelationKey(c) !in s1.hashes by {
      DistinctKeys(a, c);
      PutRelationSucceeds(s, Relation(a, b, mb));
    }
    PutRelationWellFormed(s, Relation(a, b, mb), {});
    StoreRelationContract(s1, Relation(c, a, mc), {});
  }

  /** `RelatedNodes(a)` then sends exactly two relations: the edge `a -> b`
      with its metadata and the edge `c -> a` with its metadata. */
  lemma {:induction false} TwoEdgesRelated(s: Store, a: string, b: string, c: string, mb: map<string, string>, mc: map<string, string>, rels: multiset<Relation>)
    requires s.hashes == map[] && s.sets == map[]
    requires ':' !in a && ':' !in b && ':' !in c && a != b && a != c
    requires forall k :: k in mb ==> ':' !in k
    requires RelatedRelations(TwoEdges(s, a, b, c, mb, mc), a, {}, rels)
    ensures rels == multiset{Relation(a, b, mb), Relation(c, a, mc)}
    ensures |rels| == 2
    ensures Carries(rels, Relation(a, b, mb)) && Carries(rels, Relation(c, a, mc))
  {
    HostHashAfterBoth(s, a, b, c, mb, mc);
    ParentSetAfterBoth(s, a, b, c, mb, mc);
    GuestHashAfterBoth(s, a, b, c, mb, mc);
    RelatedOfTwo(TwoEdges(s, a, b, c, mb, mc), a, b, c, mb, mc, rels);
    CarriesWitness(rels, Relation(a, b, mb), Relation(a, b, mb));
    CarriesWitness(rels, Relation(c, a, mc), Relation(c, a, mc));
  }

  /** A store where `a`'s hash holds the edge `a -> b` alone, `a`'s parent
      set holds `c` alone and `c`'s hash the edge `c -> a` alone:
      `RelatedNodes(a)` sends those two edges and nothing else. */
  lemma RelatedOfTwo(s: Store, a: string, b: string, c: string, mb: map<string, string>, mc: map<string, string>, rels: multiset<Relation>)
    requires ':' !in a && ':' !in b && ':' !in c
    requires forall k :: k in mb ==> ':' !in k
    requires HashAt(s, NodeIdToParentRelationKey(a)) == RelationFields(b, mb)
    requires MembersAt(s, NodeIdToChildRelationKey(a)) == {c}
    requires HashAt(s, NodeIdToParentRelationKey(c)) == RelationFields(a, mc)
    requires RelatedRelations(s, a, {}, rels)
    ensures rels == multiset{Relation(a, b, mb), Relation(c, a, mc)}
  {
    var children := RelatedSplit(s, a, rels);
    var child, parent := Relation(a, b, mb), Relation(c, a, mc);
    assert children == multiset{child} by { OneChild(s, a, b, mb, children); }
    assert ParentRelations(s, a, {}) == multiset{parent} by { OneParent(s, a, c, mc); }
    PairBag(child, parent);
  }

  /** What `RelatedNodes` sent, as the part its child producer sent plus
      what `ParentNodes` sends. */
  lemma RelatedSplit(s: Store, a: string, rels: multiset<Relation>) returns (children: multiset<Relation>)
    requires RelatedRelations(s, a, {}, rels)
    ensures ChildRelations(s, a, {}, children) && rels == children + ParentRelations(s, a, {})
  {
    children :| ChildRelations(s, a, {}, children) && rels == children + ParentRelations(s, a, {});
  }

  /** A host whose hash holds the fields of one edge `a -> b` alone:
      `ChildNodes(a)` sends that edge alone, with its metadata. */
  lemma OneChild(s: Store, a: string, b: string, mb: map<string, string>, children: multiset<Relation>)
    requires ':' !in a && ':' !in b && forall k :: k in mb ==> ':' !in k
    requires HashAt(s, NodeIdToParentRelationKey(a)) == RelationFields(b, mb)
    requires ChildRelations(s, a, {}, children)
    ensures children == multiset{Relation(a, b, mb)}
  {
    var targets := ChildGrouping(s, a, children);
    GroupedExactly(b, mb, targets);
    OneChildBag(a, b, mb);
  }

  /** The grouping behind what `ChildNodes` sent for a ':'-free id. */
  lemma ChildGrouping(s: Store, a: string, children: multiset<Relation>) returns (targets: map<string, map<string, string>>)
    requires ':' !in a
    requires ChildRelations(s, a, {}, children)
    ensures Decodes(HashAt(s, NodeIdToParentRelationKey(a)), targets) && children == Bag(targets, ChildMaker(a))
  {
    ColonFreeUndecorated(a);
    targets :| Decodes(HashAt(s, NodeIdToParentRelationKey(a)), targets) && children == Bag(targets, ChildMaker(a));
  }

  lemma OneChildBag(a: string, b: string, mb: map<string, string>)
    requires ':' !in a && ':' !in b
    ensures Bag(map[b := mb], ChildMaker(a)) == multiset{Relation(a, b, mb)}
  {
    BagOfSingleton(b, mb, ChildMaker(a));
    ColonFreeUndecorated(a);
    ColonFreeUndecorated(b);
  }

  /** A node whose parent set holds `c` alone, and `c`'s hash the fields of
      one edge `c -> a`: `ParentNodes(a)` sends that edge alone, with its
      metadata. */
  lemma OneParent(s: Store, a: string, c: string, mc: map<string, string>)
    requires ':' !in a && ':' !in c
    requires MembersAt(s, NodeIdToChildRelationKey(a)) == {c}
    requires HashAt(s, NodeIdToParentRelationKey(c)) == RelationFields(a, mc)
    ensures ParentRelations(s, a, {}) == multiset{Relation(c, a, mc)}
  {
    OneHostRead(s, a, c, RelationFields(a, mc));
    ParentMetadataOfEdge(a, mc);
    OneParentBag(a, c, RelationFields(a, mc), mc);
  }

  lemma OneHostRead(s: Store, a: string, c: string, fields: map<string, string>)
    requires MembersAt(s, NodeIdToChildRelationKey(a)) == {c}
    requires HashAt(s, NodeIdToParentRelationKey(c)) == fields
    ensures ReadableHosts(s, {}, ParentIds(s, a, {})) == map[c := fields]
  {
  }

  lemma OneParentBag(a: string, c: string, h: map<string, string>, mc: map<string, string>)
    requires ':' !in a && ':' !in c
    requires ParentMetadata(h, MetaPrefix + a + ":") == mc
    ensures Bag(map[c := h], ParentMaker(a)) == multiset{Relation(c, a, mc)}
  {
    BagOfSingleton(c, h, ParentMaker(a));
    assert ParentMaker(a)(c, h) == Relation(c, a, mc) by {
      ColonFreeUndecorated(a);
      ColonFreeUndecorated(c);
    }
  }

  /** With ':'-free target and keys, the grouping of an edge's own fields
      is that edge's target with exactly its metadata. */
  lemma GroupedExactly(t: string, m: map<string, string>, targets: map<string, map<string, string>>)
    requires ':' !in t && forall k :: k in m ==> ':' !in k
    requires Decodes(RelationFields(t, m), targets)
    ensures targets == map[t := m]
  {
    MergeIntoEmpty(RelationFields(t, m));
    GroupedEdge(map[], t, m, targets);
    EdgeFieldsTarget(t, m);
    EdgeMetaKeys(t, m);
    SingleGrouping(targets, t, m);
  }

  lemma SingleGrouping(targets: map<string, map<string, string>>, t: string, m: map<string, string>)
    requires targets.Keys == {t} && targets[t].Keys == m.Keys
    requires forall k :: k in m ==> targets[t][k] == m[k]
    ensures targets == map[t := m]
  {
    assert targets[t] == m;
  }

  /** The metadata keys `ChildNodes` finds for `t` among the fields of the
      edge to `t` are exactly the edge's keys. */
  lemma EdgeMetaKeys(t: string, m: map<string, string>)
    requires ':' !in t && forall k :: k in m ==> ':' !in k
    ensures MetaKeysOf(RelationFields(t, m), t) == m.Keys
  {
    forall k | k in m
      ensures k in MetaKeysOf(RelationFields(t, m), t)
    {
      EdgeMetaKeyFound(t, m, k);
    }
    forall k | k in MetaKeysOf(RelationFields(t, m), t)
      ensures k in m
    {
      EdgeMetaKeyOnly(t, m, k);
    }
  }

  lemma EdgeMetaKeyFound(t: string, m: map<string, string>, k: string)
    requires ':' !in t && ':' !in k && k in m
    ensures k in MetaKeysOf(RelationFields(t, m), t)
  {
    RelationFieldsShape(t, m);
    MetaFieldDecodes(t, k);
    assert MetaField(t, k) in RelationFields(t, m);
  }

  lemma EdgeMetaKeyOnly(t: string, m: map<string, string>, k: string)
    requires ':' !in t && forall k :: k in m ==> ':' !in k
    requires k in MetaKeysOf(RelationFields(t, m), t)
    ensures k in m
  {
    var h := RelationFields(t, m);
    var f :| f in h && Decodable(f) && MetaTarget(f) == t && MetaKey(f) == k;
    RelationFieldsShape(t, m);
    TargetFieldIsNotMeta(t);
    var j :| j in m && f == MetaField(t, j);
    MetaFieldDecodes(t, j);
  }

  /** `ParentNodes` reads back from the fields of an edge to `t` exactly
      the edge's metadata, whatever its keys. */
  lemma ParentMetadataOfEdge(t: string, m: map<string, string>)
    ensures ParentMetadata(RelationFields(t, m), MetaPrefix + t + ":") == m
  {
    var r := ParentMetadata(RelationFields(t, m), MetaPrefix + t + ":");
    forall k | k in r
      ensures k in m && r[k] == m[k]
    {
      ParentFieldOfEdge(t, m, k);
    }
    forall k | k in m
      ensures k in r
    {
      RelationFieldsShape(t, m);
      assert MetaPrefix + t + ":" + k == MetaField(t, k);
    }
  }

  lemma ParentFieldOfEdge(t: string, m: map<string, string>, k: string)
    requires MetaPrefix + t + ":" + k in RelationFields(t, m)
    ensures k in m && RelationFields(t, m)[MetaPrefix + t + ":" + k] == m[k]
  {
    var f := MetaPrefix + t + ":" + k;
    assert f == MetaField(t, k);
    RelationFieldsShape(t, m);
    TargetNotMeta(t, k);
    MetaFieldInjective(t);
  }

  /** The hash of `c` after both edges holds the fields of `c -> a` alone. */
  lemma GuestHashAfterBoth(s: Store, a: string, b: string, c: string, mb: map<string, string>, mc: map<string, string>)
    requires s.hashes == map[] && ':' !in a && ':' !in c && a != c
    ensures HashAt(TwoEdges(s, a, b, c, mb, mc), NodeIdToParentRelationKey(c)) == RelationFields(a, mc)
  {
    DistinctKeys(a, c);
    PutRelationSucceeds(s, Relation(a, b, mb));
    var s1 := PutRelation(s, Relation(a, b, mb), {}).store;
    assert HashAt(s1, NodeIdToParentRelationKey(c)) == map[];
    PutRelationSucceeds(s1, Relation(c, a, mc));
    MergeIntoEmpty(RelationFields(a, mc));
  }

  /** The hash of `a` after the first edge, and after both. */
  lemma HostHashAfterFirst(s: Store, a: string, b: string, mb: map<string, string>)
    requires s.hashes == map[]
    ensures HashAt(PutRelation(s, Relation(a, b, mb), {}).store, NodeIdToParentRelationKey(a)) == RelationFields(b, mb)
  {
    PutRelationSucceeds(s, Relation(a, b, mb));
    assert map[] + RelationFields(b, mb) == RelationFields(b, mb);
  }

  lemma HostHashAfterBoth(s: Store, a: string, b: string, c: string, mb: map<string, string>, mc: map<string, string>)
    requires s.hashes == map[] && ':' !in a && ':' !in c && a != c
    ensures HashAt(TwoEdges(s, a, b, c, mb, mc), NodeIdToParentRelationKey(a)) == RelationFields(b, mb)
  {
    DistinctKeys(a, c);
    HostHashAfterFirst(s, a, b, mb);
    var s1 := PutRelation(s, Relation(a, b, mb), {}).store;
    PutRelationSucceeds(s1, Relation(c, a, mc));
  }

  /** The parent set of `a` after both edges holds `c` alone. */
  lemma ParentSetAfterBoth(s: Store, a: string, b: string, c: string, mb: map<string, string>, mc: map<string, string>)
    requires s.sets == map[] && ':' !in a && ':' !in b && a != b
    ensures MembersAt(TwoEdges(s, a, b, c, mb, mc), NodeIdToChildRelationKey(a)) == {c}
  {
    DistinctKeys(a, b);
    PutRelationSucceeds(s, Relation(a, b, mb));
    var s1 := PutRelation(s, Relation(a, b, mb), {}).store;
    assert MembersAt(s1, NodeIdToChildRelationKey(a)) == {};
    PutRelationSucceeds(s1, Relation(c, a, mc));
  }
}
