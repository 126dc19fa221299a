/** The Redis state the graph lives in, and what each operation of
    `RedisNodeStore` (`redis/redis.go`) does to it and reads from it, as
    functions of that state. Redis is three maps: string values (the
    serialised nodes), hashes and sets. A backend call can fail: the calls
    named in `faults` fail on this invocation, all others succeed. */
module Backend {
  import opened Wrappers
  import opened Strings
  import opened Models
  import opened Keys
  import opened Layout
  import opened Bags

  /** A Redis command issued by the backend, with the key it is issued on. */
  datatype Call =
    | Exists(key: string)
    | Get(key: string)
    | Set(key: string)
    | Del(key: string)
    | HSet(key: string)
    | HGetAll(key: string)
    | SAdd(key: string)
    | SMembers(key: string)

  datatype Error =
    | CallFailed(call: Call)  // the error Redis returned for that call
    | InvalidNodeId           // "invalid node ID" from RetrieveNode

  datatype Store = Store(
    values: map<string, Node>,
    hashes: map<string, map<string, string>>,
    sets: map<string, set<string>>)

  const EmptyStore := Store(map[], map[], map[])

  /** `EXISTS key` answering 1. */
  predicate KeyExists(s: Store, key: string)
  {
    key in s.values || key in s.hashes || key in s.sets
  }

  /** `HGETALL key`: a missing key reads as the empty hash. */
  function HashAt(s: Store, key: string): map<string, string>
  {
    if key in s.hashes then s.hashes[key] else map[]
  }

  /** `SMEMBERS key`: a missing key reads as the empty set. */
  function MembersAt(s: Store, key: string): set<string>
  {
    if key in s.sets then s.sets[key] else {}
  }

  /** What every reachable state satisfies: each key family lives in its own
      kind of Redis value, Redis keeps no empty hash or set, and every
      metadata field can be split by `ChildNodes`. */
  ghost predicate WellFormed(s: Store)
  {
    && (forall k :: k in s.values ==> HasPrefix(k, NodePrefix))
    && (forall k :: k in s.hashes ==> HasPrefix(k, ChildrenOfPrefix))
    && (forall k :: k in s.hashes ==> s.hashes[k] != map[] && WellFormedHash(s.hashes[k]))
    && (forall k :: k in s.sets ==> HasPrefix(k, ParentOfPrefix) && s.sets[k] != {})
  }

  /** The outcome of `StoreNode` and `StoreRelation`: the new state and the
      three results `(identifier, result, err)`. */
  datatype Written = Written(store: Store, key: string, existed: bool, err: Option<Error>)

  /** `StoreNode`: EXISTS on the node key, then SET of the node under it.
      SET replaces whatever the key held. */
  function PutNode(s: Store, node: Node, faults: set<Call>): Written
  {
    var key := NodeIdToNodeKey(node.id);
    if Exists(key) in faults then Written(s, "", false, Some(CallFailed(Exists(key))))
    else
      var existed := KeyExists(s, key);
      if Set(key) in faults then Written(s, key, existed, Some(CallFailed(Set(key))))
      else Written(Store(s.values[key := node], s.hashes - {key}, s.sets - {key}), key, existed, None)
  }

  /** `StoreRelation`: EXISTS on the host's hash, HSET of the edge's fields
      into it, then SADD of the host into the target's set. A failing SADD
      leaves the HSET in place. */
  function PutRelation(s: Store, rel: Relation, faults: set<Call>): Written
  {
    var parentKey := NodeIdToParentRelationKey(rel.host);
    var childKey := NodeIdToChildRelationKey(rel.target);
    if Exists(parentKey) in faults then Written(s, "", false, Some(CallFailed(Exists(parentKey))))
    else
      var existed := KeyExists(s, parentKey);
      if HSet(parentKey) in faults then Written(s, "", false, Some(CallFailed(HSet(parentKey))))
      else
        var merged := HashAt(s, parentKey) + RelationFields(rel.target, rel.metadata);
        var s1 := s.(hashes := s.hashes[parentKey := merged]);
        if SAdd(childKey) in faults then Written(s1, parentKey, existed, Some(CallFailed(SAdd(childKey))))
        else
          var s2 := s1.(sets := s1.sets[childKey := MembersAt(s1, childKey) + {rel.host}]);
          Written(s2, parentKey, existed, None)
  }

  /** The outcome of `StoreRelation` once EXISTS has succeeded, case by case. */
  lemma PutRelationOutcome(s: Store, rel: Relation, faults: set<Call>)
    requires Exists(NodeIdToParentRelationKey(rel.host)) !in faults
    ensures var parentKey, childKey := NodeIdToParentRelationKey(rel.host), NodeIdToChildRelationKey(rel.target);
      var merged := s.hashes[parentKey := HashAt(s, parentKey) + RelationFields(rel.target, rel.metadata)];
      var existed := KeyExists(s, parentKey);
      && (HSet(parentKey) in faults ==> PutRelation(s, rel, faults) == Written(s, "", false, Some(CallFailed(HSet(parentKey)))))
      && (HSet(parentKey) !in faults && SAdd(childKey) in faults ==>
            PutRelation(s, rel, faults) == Written(Store(s.values, merged, s.sets), parentKey, existed, Some(CallFailed(SAdd(childKey)))))
      && (HSet(parentKey) !in faults && SAdd(childKey) !in faults ==>
            PutRelation(s, rel, faults) ==
              Written(Store(s.values, merged, s.sets[childKey := MembersAt(s, childKey) + {rel.host}]), parentKey, existed, None))
  {
  }

  /** The state after an HSET that succeeded: only the host's hash changes,
      by merging the edge's fields into it. */
  lemma PutRelationMerges(s: Store, rel: Relation, faults: set<Call>)
    requires Exists(NodeIdToParentRelationKey(rel.host)) !in faults && HSet(NodeIdToParentRelationKey(rel.host)) !in faults
    ensures var parentKey := NodeIdToParentRelationKey(rel.host);
      var s' := PutRelation(s, rel, faults).store;
      && s'.values == s.values
      && s'.hashes == s.hashes[parentKey := HashAt(s, parentKey) + RelationFields(rel.target, rel.metadata)]
  {
    PutRelationOutcome(s, rel, faults);
  }

  /** `RetrieveNode`: EXISTS, then GET. The error of EXISTS is dropped by the
      source, so a failing EXISTS reads as a missing node. The stored record
      carries the node's id and data, so decoding it yields the stored node.
      GET on a key that is not a string value fails in Redis. */
  function GetNode(s: Store, id: string, faults: set<Call>): Result<Node, Error>
  {
    var key := NodeIdToNodeKey(id);
    if Exists(key) in faults || !KeyExists(s, key) then Failure(InvalidNodeId)
    else if Get(key) in faults || key !in s.values then Failure(CallFailed(Get(key)))
    else Success(s.values[key])
  }

  datatype Removed = Removed(store: Store, err: Option<Error>)

  /** `DeleteNode`: DEL of the node key, nothing else. */
  function RemoveNode(s: Store, id: string, faults: set<Call>): Removed
  {
    var key := NodeIdToNodeKey(id);
    if Del(key) in faults then Removed(s, Some(CallFailed(Del(key))))
    else Removed(Store(s.values - {key}, s.hashes - {key}, s.sets - {key}), None)
  }

  /** How `ChildNodes` turns a grouped target into a relation. */
  function ChildMaker(id: string): (string, map<string, string>) -> Relation
  {
    (t, metadata) => NewRelationWithMetadata(id, t, metadata)
  }

  /** `ChildNodes(nodeId)`: the relations it sends. The id loses one `node:`,
      the host's hash is read in full and grouped by target; a failing
      HGETALL yields nothing. */
  ghost predicate ChildRelations(s: Store, nodeId: string, faults: set<Call>, rels: multiset<Relation>)
  {
    var id := NodeKeyToNodeId(nodeId);
    var key := NodeIdToParentRelationKey(id);
    if HGetAll(key) in faults then rels == multiset{}
    else exists targets :: Decodes(HashAt(s, key), targets) && rels == Bag(targets, ChildMaker(id))
  }

  lemma PrefixTrimInjective(h: map<string, string>, prefix: string)
    ensures forall f1, f2 :: f1 in h && HasPrefix(f1, prefix) && f2 in h && HasPrefix(f2, prefix) && f1[|prefix|..] == f2[|prefix|..] ==> f1 == f2
  {
    forall f1, f2 | f1 in h && HasPrefix(f1, prefix) && f2 in h && HasPrefix(f2, prefix) && f1[|prefix|..] == f2[|prefix|..]
      ensures f1 == f2
    {
      assert f1 == prefix + f1[|prefix|..];
      assert f2 == prefix + f2[|prefix|..];
    }
  }

  /** The metadata `ParentNodes` extracts from a host's hash: the fields
      starting with `prefix`, with the prefix removed. */
  function ParentMetadata(h: map<string, string>, prefix: string): (r: map<string, string>)
    ensures forall k :: k in r <==> prefix + k in h
    ensures forall k :: k in r ==> r[k] == h[prefix + k]
  {
    PrefixTrimInjective(h, prefix);
    var r := map f | f in h && HasPrefix(f, prefix) :: f[|prefix|..] := h[f];
    TrimmedFields(h, prefix, r);
    r
  }

  lemma TrimmedFields(h: map<string, string>, prefix: string, r: map<string, string>)
    requires forall f :: f in h && HasPrefix(f, prefix) ==> f[|prefix|..] in r && r[f[|prefix|..]] == h[f]
    requires forall k :: k in r ==> exists f :: f in h && HasPrefix(f, prefix) && f[|prefix|..] == k
    ensures forall k :: k in r <==> prefix + k in h
    ensures forall k :: k in r ==> r[k] == h[prefix + k]
  {
    forall k | k in r
      ensures prefix + k in h && r[k] == h[prefix + k]
    {
      var f :| f in h && HasPrefix(f, prefix) && f[|prefix|..] == k;
      assert f == prefix + k;
    }
    forall k | prefix + k in h
      ensures k in r
    {
      PrefixOfConcat(prefix, k);
    }
  }

  /** One more field read into `ParentMetadata`. */
  lemma ParentMetadataAdd(h: map<string, string>, f: string, v: string, prefix: string)
    requires f !in h
    ensures ParentMetadata(h[f := v], prefix) ==
      if HasPrefix(f, prefix) then ParentMetadata(h, prefix)[f[|prefix|..] := v] else ParentMetadata(h, prefix)
  {
    var a, b := ParentMetadata(h[f := v], prefix), ParentMetadata(h, prefix);
    if HasPrefix(f, prefix) {
      assert f == prefix + f[|prefix|..];
      assert a == b[f[|prefix|..] := v];
    } else {
      forall k | prefix + k in h[f := v]
        ensures prefix + k in h
      {
        PrefixOfConcat(prefix, k);
      }
      assert a == b;
    }
  }

  /** The relation `ParentNodes(nodeId)` sends for a host `p` whose hash is `h`. */
  function ParentRelation(nodeId: string, p: string, h: map<string, string>): Relation
  {
    var id := NodeKeyToNodeId(nodeId);
    Relation(NodeKeyToNodeId(p), id, ParentMetadata(h, MetaPrefix + id + ":"))
  }

  function ParentMaker(nodeId: string): (string, map<string, string>) -> Relation
  {
    (p, h) => ParentRelation(nodeId, p, h)
  }

  /** The hosts among `ps` whose hash can be read, with that hash. */
  function ReadableHosts(s: Store, faults: set<Call>, ps: set<string>): map<string, map<string, string>>
  {
    map p | p in ps && HGetAll(NodeIdToParentRelationKey(p)) !in faults :: HashAt(s, NodeIdToParentRelationKey(p))
  }

  lemma ReadableHostsMinus(s: Store, faults: set<Call>, ps: set<string>, p: string)
    ensures ReadableHosts(s, faults, ps - {p}) == ReadableHosts(s, faults, ps) - {p}
    ensures p in ReadableHosts(s, faults, ps) <==> p in ps && HGetAll(NodeIdToParentRelationKey(p)) !in faults
  {
  }

  /** One iteration of the loop over the members in `ParentNodes`: host `p`
      is sent if its hash can be read, and leaves the pending hosts. */
  lemma ParentStep(s: Store, faults: set<Call>, pending: set<string>, p: string,
                   maker: (string, map<string, string>) -> Relation, sent: multiset<Relation>, total: multiset<Relation>)
    requires p in pending
    requires sent + Bag(ReadableHosts(s, faults, pending), maker) == total
    ensures HGetAll(NodeIdToParentRelationKey(p)) !in faults ==>
      sent + multiset{maker(p, HashAt(s, NodeIdToParentRelationKey(p)))} + Bag(ReadableHosts(s, faults, pending - {p}), maker) == total
    ensures HGetAll(NodeIdToParentRelationKey(p)) in faults ==>
      sent + Bag(ReadableHosts(s, faults, pending - {p}), maker) == total
  {
    var readable := ReadableHosts(s, faults, pending);
    ReadableHostsMinus(s, faults, pending, p);
    if p in readable {
      BagRemove(readable, maker, p);
    } else {
      assert readable - {p} == readable;
    }
  }

  /** The members `ParentNodes(nodeId)` reads: the set key is built from the
      id as given, without removing `node:`. A failing SMEMBERS is logged
      and reads as no members. */
  function ParentIds(s: Store, nodeId: string, faults: set<Call>): set<string>
  {
    var setKey := NodeIdToChildRelationKey(nodeId);
    if SMembers(setKey) in faults then {} else MembersAt(s, setKey)
  }

  /** `ParentNodes(nodeId)`: one relation per member whose hash could be read. */
  ghost function ParentRelations(s: Store, nodeId: string, faults: set<Call>): multiset<Relation>
  {
    Bag(ReadableHosts(s, faults, ParentIds(s, nodeId, faults)), ParentMaker(nodeId))
  }

  /** `RelatedNodes(nodeId)`: everything either producer sends. */
  ghost predicate RelatedRelations(s: Store, nodeId: string, faults: set<Call>, rels: multiset<Relation>)
  {
    exists children :: ChildRelations(s, nodeId, faults, children) && rels == children + ParentRelations(s, nodeId, faults)
  }
}
