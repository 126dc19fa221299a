/** Storing an edge and reading it back with `ChildNodes` or `ParentNodes`. */
module RoundTrips {
  import opened Strings
  import opened Models
  import opened Keys
  import opened Layout
  import opened Bags
  import opened Backend
  import opened ReadProperties

  /** An id without ':' cannot carry the `node:` prefix. */
  lemma ColonFreeIsBare(t: string)
    requires ':' !in t
    ensures !HasPrefix(t, NodePrefix)
  {
    if |t| >= |NodePrefix| {
      assert t[4] in t;
    }
  }

  /** Fields written from ':'-free ids and keys keep a hash clean. */
  lemma MergedClean(h: map<string, string>, t: string, m: map<string, string>)
    requires CleanHash(h) && ':' !in t && forall k :: k in m ==> ':' !in k
    ensures CleanHash(h + RelationFields(t, m))
  {
    var h' := h + RelationFields(t, m);
    RelationFieldsShape(t, m);
    forall f | f in h'
      ensures CleanField(f, h'[f])
    {
      if f !in RelationFields(t, m) {
        assert h'[f] == h[f];
      } else if f == TargetField(t) {
        assert h'[f] == t;
      } else {
        var k :| k in m && f == MetaField(t, k);
        MetaFieldDecodes(t, k);
      }
    }
  }

  /** The fields of one edge name exactly one target, the edge's own, as
      long as it has no ':'. */
  lemma EdgeFieldsTarget(t: string, m: map<string, string>)
    requires ':' !in t
    ensures TargetsOf(RelationFields(t, m)) == {t}
  {
    var h := RelationFields(t, m);
    forall x | x in TargetsOf(h)
      ensures x == t
    {
      if f :| f in h && HasPrefix(f, TargetPrefix) && h[f] == x {
        EdgeTargetValue(t, m, f);
      } else {
        var f :| f in h && IsMetaEntry(f) && MetaTarget(f) == x;
        EdgeMetaTarget(t, m, f);
      }
    }
    TargetFieldIsNotMeta(t);
    RelationFieldsShape(t, m);
    assert TargetField(t) in h && HasPrefix(TargetField(t), TargetPrefix) && h[TargetField(t)] == t;
  }

  lemma EdgeTargetValue(t: string, m: map<string, string>, f: string)
    requires f in RelationFields(t, m) && HasPrefix(f, TargetPrefix)
    ensures RelationFields(t, m)[f] == t
  {
    RelationFieldsShape(t, m);
    if f != TargetField(t) {
      var k :| k in m && f == MetaField(t, k);
      MetaFieldIsDecodable(t, k);
    }
  }

  lemma EdgeMetaTarget(t: string, m: map<string, string>, f: string)
    requires ':' !in t
    requires f in RelationFields(t, m) && IsMetaEntry(f)
    ensures MetaTarget(f) == t
  {
    RelationFieldsShape(t, m);
    TargetFieldIsNotMeta(t);
    var k :| k in m && f == MetaField(t, k);
    assert f[|MetaPrefix|..] == t + ":" + k;
    FirstSegmentStopsAtColon(t, k);
  }

  /** In a clean hash every target found is ':'-free. */
  lemma CleanTargets(h: map<string, string>, t: string)
    requires CleanHash(h) && t in TargetsOf(h)
    ensures ':' !in t
  {
    if f :| f in h && HasPrefix(f, TargetPrefix) && h[f] == t {
      assert !Decodable(f);
      assert CleanField(f, h[f]);
    }
  }

  /** In a clean hash the only field that decodes to (t, k) is `meta:<t>:<k>`. */
  lemma CleanCandidates(h: map<string, string>, t: string, k: string, c: string)
    requires CleanHash(h) && c in Candidates(h, t, k)
    ensures MetaField(t, k) in h && c == h[MetaField(t, k)]
  {
    var f :| f in h && Decodable(f) && MetaTarget(f) == t && MetaKey(f) == k && h[f] == c;
    assert CleanField(f, h[f]);
    if f == TargetField(h[f]) {
      TargetFieldIsNotMeta(h[f]);
      assert false;
    }
  }

  /** The grouping `ChildNodes` builds from the host's hash after the edge
      was stored holds the edge's target with all its metadata. */
  lemma GroupedEdge(h: map<string, string>, t: string, m: map<string, string>, targets: map<string, map<string, string>>)
    requires CleanHash(h) && ':' !in t && forall k :: k in m ==> ':' !in k
    requires Decodes(h + RelationFields(t, m), targets)
    ensures t in targets
    ensures forall k :: k in m ==> k in targets[t] && targets[t][k] == m[k]
    ensures forall u :: u in targets ==> ':' !in u
  {
    var h' := h + RelationFields(t, m);
    MergedClean(h, t, m);
    MergeFacts(h, t, m);
    TargetFieldIsNotMeta(t);
    assert t in TargetsOf(h') by {
      assert TargetField(t) in h' && HasPrefix(TargetField(t), TargetPrefix) && h'[TargetField(t)] == t;
    }
    forall k | k in m
      ensures k in targets[t] && targets[t][k] == m[k]
    {
      MetaFieldDecodes(t, k);
      assert k in MetaKeysOf(h', t) by {
        assert MetaField(t, k) in h';
      }
      CleanCandidates(h', t, k, targets[t][k]);
    }
    forall u | u in targets
      ensures ':' !in u
    {
      CleanTargets(h', u);
    }
  }

  lemma MergeFacts(h: map<string, string>, t: string, m: map<string, string>)
    ensures var h' := h + RelationFields(t, m);
      && TargetField(t) in h' && h'[TargetField(t)] == t
      && forall k :: k in m ==> MetaField(t, k) in h' && h'[MetaField(t, k)] == m[k]
  {
    RelationFieldsShape(t, m);
  }

  /** A successful `StoreRelation`, written out. */
  lemma PutRelationSucceeds(s: Store, rel: Relation)
    ensures var parentKey, childKey := NodeIdToParentRelationKey(rel.host), NodeIdToChildRelationKey(rel.target);
      PutRelation(s, rel, {}).store ==
        Store(s.values,
              s.hashes[parentKey := HashAt(s, parentKey) + RelationFields(rel.target, rel.metadata)],
              s.sets[childKey := MembersAt(s, childKey) + {rel.host}])
  {
  }

  /** The relations `ChildNodes` builds from a grouping that holds target `t`
      with metadata `m`, when no target found carries ':': the one relation
      to `t` occurs once and carries `m`. */
  lemma EdgeSentOnce(targets: map<string, map<string, string>>, host: string, t: string, m: map<string, string>)
    requires !HasPrefix(host, NodePrefix) && ':' !in t
    requires t in targets && forall k :: k in m ==> k in targets[t] && targets[t][k] == m[k]
    requires forall u :: u in targets ==> ':' !in u
    ensures Carries(Bag(targets, ChildMaker(host)), Relation(host, t, m))
    ensures forall r :: r in Bag(targets, ChildMaker(host)) && r.target == t ==>
      && Bag(targets, ChildMaker(host))[r] == 1 && r.host == host
      && forall k :: k in m ==> k in r.metadata && r.metadata[k] == m[k]
    ensures forall r1, r2 ::
      r1 in Bag(targets, ChildMaker(host)) && r2 in Bag(targets, ChildMaker(host)) && r1.target == t && r2.target == t ==> r1 == r2
  {
    var maker := ChildMaker(host);
    var r0 := maker(t, targets[t]);
    ColonFreeIsBare(t);
    assert r0.host == host && r0.target == t;
    BagMembers(targets, maker, r0);
    forall u | u in targets && maker(u, targets[u]) == r0
      ensures u == t
    {
      ColonFreeIsBare(u);
    }
    CarriesWitness(Bag(targets, maker), Relation(host, t, m), r0);
    BagUnique(targets, maker, t);
    forall r: Relation | r in Bag(targets, maker) && r.target == t
      ensures r == r0
    {
      BagMembers(targets, maker, r);
      var u :| u in targets && maker(u, targets[u]) == r;
      ColonFreeIsBare(u);
    }
  }

  /** Store then `ChildNodes`: when the host's hash was written only from
      ':'-free ids and keys, and neither id carries the `node:` decoration,
      the host's children contain the stored edge exactly once, with host,
      target and every metadata entry as stored. Earlier stores of the same
      edge are already merged into the host's hash, so the metadata read back
      can hold more keys. */
  lemma {:induction false} StoreThenChildNodes(s: Store, rel: Relation, rels: multiset<Relation>)
    requires !HasPrefix(rel.host, NodePrefix) && ':' !in rel.target
    requires forall k :: k in rel.metadata ==> ':' !in k
    requires CleanHash(HashAt(s, NodeIdToParentRelationKey(rel.host)))
    requires ChildRelations(PutRelation(s, rel, {}).store, rel.host, {}, rels)
    ensures Carries(rels, rel)
    ensures forall r :: r in rels && r.target == rel.target ==>
      && rels[r] == 1 && r.host == rel.host
      && forall k :: k in rel.metadata ==> k in r.metadata && r.metadata[k] == rel.metadata[k]
    ensures forall r1, r2 :: r1 in rels && r2 in rels && r1.target == rel.target && r2.target == rel.target ==> r1 == r2
  {
    var targets := StoredGrouping(s, rel, rels);
    EdgeSentOnce(targets, rel.host, rel.target, rel.metadata);
  }

  /** The grouping behind what `ChildNodes` sends after the store: it holds
      the edge's target with all its metadata, and no target with ':'. */
  lemma StoredGrouping(s: Store, rel: Relation, rels: multiset<Relation>) returns (targets: map<string, map<string, string>>)
    requires !HasPrefix(rel.host, NodePrefix) && ':' !in rel.target
    requires forall k :: k in rel.metadata ==> ':' !in k
    requires CleanHash(HashAt(s, NodeIdToParentRelationKey(rel.host)))
    requires ChildRelations(PutRelation(s, rel, {}).store, rel.host, {}, rels)
    ensures rels == Bag(targets, ChildMaker(rel.host))
    ensures rel.target in targets
    ensures forall k :: k in rel.metadata ==> k in targets[rel.target] && targets[rel.target][k] == rel.metadata[k]
    ensures forall u :: u in targets ==> ':' !in u
  {
    var key := NodeIdToParentRelationKey(rel.host);
    var h := HashAt(s, key);
    var s' := PutRelation(s, rel, {}).store;
    PutRelationHashes(s, s', rel);
    assert HashAt(s', key) == h + RelationFields(rel.target, rel.metadata);
    assert NodeKeyToNodeId(rel.host) == rel.host;
    targets :| Decodes(HashAt(s', key), targets) && rels == Bag(targets, ChildMaker(rel.host));
    GroupedEdge(h, rel.target, rel.metadata, targets);
  }

  /** Store then `ParentNodes`: when neither id carries the `node:`
      decoration, the target's parents contain the stored edge with host,
      target and every metadata entry as stored. */
  lemma {:induction false} StoreThenParentNodes(s: Store, rel: Relation)
    requires !HasPrefix(rel.host, NodePrefix) && !HasPrefix(rel.target, NodePrefix)
    ensures Carries(ParentRelations(PutRelation(s, rel, {}).store, rel.target, {}), rel)
  {
    var parentKey := NodeIdToParentRelationKey(rel.host);
    PutRelationSucceeds(s, rel);
    var s' := PutRelation(s, rel, {}).store;
    assert rel.host in MembersAt(s', NodeIdToChildRelationKey(rel.target));
    assert HashAt(s', parentKey) == HashAt(s, parentKey) + RelationFields(rel.target, rel.metadata);
    ParentEdgeFrom(s', rel, HashAt(s, parentKey));
  }

  /** Store then `ParentNodes`, exactly once: when no host recorded for the
      target carries the `node:` decoration, the stored host is sent once,
      as one relation. */
  lemma {:induction false} StoreThenParentNodesOnce(s: Store, rel: Relation)
    requires !HasPrefix(rel.host, NodePrefix)
    requires forall p :: p in MembersAt(s, NodeIdToChildRelationKey(rel.target)) ==> !HasPrefix(p, NodePrefix)
    ensures var rels := ParentRelations(PutRelation(s, rel, {}).store, rel.target, {});
      && (forall r :: r in rels && r.host == rel.host ==> rels[r] == 1)
      && (forall r1, r2 :: r1 in rels && r2 in rels && r1.host == rel.host && r2.host == rel.host ==> r1 == r2)
  {
    var setKey := NodeIdToChildRelationKey(rel.target);
    PutRelationSucceeds(s, rel);
    var s' := PutRelation(s, rel, {}).store;
    assert MembersAt(s', setKey) == MembersAt(s, setKey) + {rel.host};
    ParentSentOnce(s', rel.target, rel.host);
  }

  /** With undecorated members only, each member is the host of exactly one
      relation `ParentNodes` sends. */
  lemma ParentSentOnce(s: Store, nodeId: string, host: string)
    requires forall p :: p in MembersAt(s, NodeIdToChildRelationKey(nodeId)) ==> !HasPrefix(p, NodePrefix)
    ensures var rels := ParentRelations(s, nodeId, {});
      && (forall r :: r in rels && r.host == host ==> rels[r] == 1)
      && (forall r1, r2 :: r1 in rels && r2 in rels && r1.host == host && r2.host == host ==> r1 == r2)
  {
    var readable := ReadableHosts(s, {}, MembersAt(s, NodeIdToChildRelationKey(nodeId)));
    var maker := ParentMaker(nodeId);
    assert ParentRelations(s, nodeId, {}) == Bag(readable, maker);
    forall r: Relation | r in Bag(readable, maker) && r.host == host
      ensures host in readable && r == maker(host, readable[host])
    {
      ParentHostIsMember(readable, maker, nodeId, r);
    }
    if host in readable {
      ParentHostUnique(readable, maker, nodeId, host);
    }
  }

  lemma ParentHostIsMember(readable: map<string, map<string, string>>, maker: (string, map<string, string>) -> Relation,
                           nodeId: string, r: Relation)
    requires maker == ParentMaker(nodeId)
    requires forall p :: p in readable ==> !HasPrefix(p, NodePrefix)
    requires r in Bag(readable, maker)
    ensures r.host in readable && r == maker(r.host, readable[r.host])
  {
    BagMembers(readable, maker, r);
    var p :| p in readable && maker(p, readable[p]) == r;
    assert NodeKeyToNodeId(p) == p;
  }

  lemma ParentHostUnique(readable: map<string, map<string, string>>, maker: (string, map<string, string>) -> Relation,
                         nodeId: string, host: string)
    requires maker == ParentMaker(nodeId)
    requires forall p :: p in readable ==> !HasPrefix(p, NodePrefix)
    requires host in readable
    ensures Bag(readable, maker)[maker(host, readable[host])] == 1
  {
    forall j | j in readable && maker(j, readable[j]) == maker(host, readable[host])
      ensures j == host
    {
      assert NodeKeyToNodeId(j) == j && NodeKeyToNodeId(host) == host;
    }
    BagUnique(readable, maker, host);
  }

  /** As written, a host stored once with and once without the `node:`
      decoration is sent twice by `ParentNodes`: the target's set keeps both
      spellings, each has a hash of its own, and both are stripped to the
      same host. */
  lemma ParentNodesRepeatsHost(s: Store, h: string, t: string, m: map<string, string>)
    requires s.hashes == map[] && s.sets == map[]
    requires !HasPrefix(h, NodePrefix)
    ensures var s2 := PutRelation(PutRelation(s, Relation(NodePrefix + h, t, m), {}).store, Relation(h, t, m), {}).store;
      var r := ParentRelation(t, h, RelationFields(t, m));
      && r.host == h
      && ParentRelations(s2, t, {})[r] == 2
  {
    var s1 := PutRelation(s, Relation(NodePrefix + h, t, m), {}).store;
    var s2 := PutRelation(s1, Relation(h, t, m), {}).store;
    PutRelationHashes(s, s1, Relation(NodePrefix + h, t, m));
    PutRelationSets(s, s1, Relation(NodePrefix + h, t, m));
    PutRelationHashes(s1, s2, Relation(h, t, m));
    PutRelationSets(s1, s2, Relation(h, t, m));
    BothSpellingsLaidOut(s, s1, s2, h, t, RelationFields(t, m));
    BothSpellingsSent(s2, h, t);
  }

  /** The two stores of `ParentNodesRepeatsHost`, written out as updates:
      the target's set holds both spellings, and the hash of each holds the
      edge's fields. */
  lemma BothSpellingsLaidOut(s: Store, s1: Store, s2: Store, h: string, t: string, fields: map<string, string>)
    requires s.hashes == map[] && s.sets == map[]
    requires var key := NodeIdToParentRelationKey(NodePrefix + h);
      s1.hashes == s.hashes[key := HashAt(s, key) + fields]
    requires var setKey := NodeIdToChildRelationKey(t);
      s1.sets == s.sets[setKey := MembersAt(s, setKey) + {NodePrefix + h}]
    requires var key := NodeIdToParentRelationKey(h);
      s2.hashes == s1.hashes[key := HashAt(s1, key) + fields]
    requires var setKey := NodeIdToChildRelationKey(t);
      s2.sets == s1.sets[setKey := MembersAt(s1, setKey) + {h}]
    ensures MembersAt(s2, NodeIdToChildRelationKey(t)) == {NodePrefix + h, h}
    ensures HashAt(s2, NodeIdToParentRelationKey(NodePrefix + h)) == fields
    ensures HashAt(s2, NodeIdToParentRelationKey(h)) == fields
  {
    var k1, k2 := NodeIdToParentRelationKey(NodePrefix + h), NodeIdToParentRelationKey(h);
    var setKey := NodeIdToChildRelationKey(t);
    assert |k1| != |k2|;
    UpdatedReads(s, s1, k1, HashAt(s, k1) + fields, setKey, NodePrefix + h, k2);
    UpdatedReads(s1, s2, k2, HashAt(s1, k2) + fields, setKey, h, k1);
    MergeIntoEmpty(fields);
  }

  lemma MergeIntoEmpty(fields: map<string, string>)
    ensures map[] + fields == fields
  {
  }

  /** Reading a store whose hash at `key` and set at `setKey` were
      replaced: those two change, every other hash stays. */
  lemma UpdatedReads(s: Store, s': Store, key: string, merged: map<string, string>, setKey: string, host: string, other: string)
    requires s'.hashes == s.hashes[key := merged]
    requires s'.sets == s.sets[setKey := MembersAt(s, setKey) + {host}]
    ensures HashAt(s', key) == merged
    ensures other != key ==> HashAt(s', other) == HashAt(s, other)
    ensures MembersAt(s', setKey) == MembersAt(s, setKey) + {host}
  {
  }

  lemma PutRelationHashes(s: Store, s': Store, rel: Relation)
    requires s' == PutRelation(s, rel, {}).store
    ensures var parentKey := NodeIdToParentRelationKey(rel.host);
      s'.hashes == s.hashes[parentKey := HashAt(s, parentKey) + RelationFields(rel.target, rel.metadata)]
  {
    PutRelationMerges(s, rel, {});
  }

  lemma PutRelationSets(s: Store, s': Store, rel: Relation)
    requires s' == PutRelation(s, rel, {}).store
    ensures var childKey := NodeIdToChildRelationKey(rel.target);
      s'.sets == s.sets[childKey := MembersAt(s, childKey) + {rel.host}]
  {
  }

  /** A target whose set holds a host in both spellings, with the same
      hash behind each, receives that host's relation twice. */
  lemma BothSpellingsSent(s: Store, h: string, t: string)
    requires !HasPrefix(h, NodePrefix)
    requires MembersAt(s, NodeIdToChildRelationKey(t)) == {NodePrefix + h, h}
    requires HashAt(s, NodeIdToParentRelationKey(NodePrefix + h)) == HashAt(s, NodeIdToParentRelationKey(h))
    ensures ParentRelation(t, h, HashAt(s, NodeIdToParentRelationKey(h))).host == h
    ensures ParentRelations(s, t, {})[ParentRelation(t, h, HashAt(s, NodeIdToParentRelationKey(h)))] == 2
  {
    var decorated := NodePrefix + h;
    var fields := HashAt(s, NodeIdToParentRelationKey(h));
    BothSpellingsReadable(s, decorated, h, fields);
    PrefixOfConcat(NodePrefix, h);
    BagOfTwin(decorated, h, fields, ParentMaker(t));
  }

  lemma BothSpellingsReadable(s: Store, a: string, b: string, fields: map<string, string>)
    requires HashAt(s, NodeIdToParentRelationKey(a)) == fields && HashAt(s, NodeIdToParentRelationKey(b)) == fields
    ensures ReadableHosts(s, {}, {a, b}) == map[a := fields, b := fields]
  {
  }

  lemma ParentEdgeFrom(s: Store, rel: Relation, h: map<string, string>)
    requires !HasPrefix(rel.host, NodePrefix) && !HasPrefix(rel.target, NodePrefix)
    requires rel.host in MembersAt(s, NodeIdToChildRelationKey(rel.target))
    requires HashAt(s, NodeIdToParentRelationKey(rel.host)) == h + RelationFields(rel.target, rel.metadata)
    ensures Carries(ParentRelations(s, rel.target, {}), rel)
  {
    ParentNodesShape(s, rel.target, {});
    ParentEdgeMetadata(h, rel.target, rel.metadata);
    var r := ParentRelation(rel.target, rel.host, HashAt(s, NodeIdToParentRelationKey(rel.host)));
    CarriesWitness(ParentRelations(s, rel.target, {}), rel, r);
  }

  /** `rels` holds a relation with the host and target of `rel` and every
      metadata entry of `rel`. */
  ghost predicate Carries(rels: multiset<Relation>, rel: Relation)
  {
    exists r :: r in rels && r.host == rel.host && r.target == rel.target
      && forall k :: k in rel.metadata ==> k in r.metadata && r.metadata[k] == rel.metadata[k]
  }

  lemma CarriesWitness(rels: multiset<Relation>, rel: Relation, r: Relation)
    requires r in rels && r.host == rel.host && r.target == rel.target
    requires forall k :: k in rel.metadata ==> k in r.metadata && r.metadata[k] == rel.metadata[k]
    ensures Carries(rels, rel)
  {
  }

  lemma CarriesMore(rels: multiset<Relation>, more: multiset<Relation>, rel: Relation)
    requires Carries(rels, rel) && rels <= more
    ensures Carries(more, rel)
  {
  }

  /** The metadata `ParentNodes` reads for target `t` from a hash the edge's
      fields were merged into holds every stored entry. */
  lemma ParentEdgeMetadata(h: map<string, string>, t: string, m: map<string, string>)
    requires !HasPrefix(t, NodePrefix)
    ensures var md := ParentMetadata(h + RelationFields(t, m), MetaPrefix + NodeKeyToNodeId(t) + ":");
      forall k :: k in m ==> k in md && md[k] == m[k]
  {
    MergeFacts(h, t, m);
    forall k | k in m
      ensures MetaPrefix + t + ":" + k == MetaField(t, k)
    {
    }
  }
}
