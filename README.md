# gographer on Redis: the graph encoding, modelled in Dafny

gographer stores a directed graph in a Redis database that has only
strings, hashes and sets. This project models the Redis backend
(`redis/redis.go`) and the value constructors it uses (`models.go`):

- **Node values.** A node is a JSON string value under `node:<id>`.
- **Outgoing edges.** The edges out of a host are kept in one hash, `childrenOf:<host>`. It has a field `target:<t>` (value `t`) per target and a field `meta:<t>:<k>` per metadata entry.
- **Incoming edges.** The hosts of the edges into a target are kept in a set, `parentOf:<target>`.

The database is a value of type `Backend.Store`, with three maps:

- `values`: node key to node;
- `hashes`: hash key to field map;
- `sets`: set key to members.

Each Go operation has two counterparts:

- A **specification function** over `Store`: `PutNode`, `PutRelation`, `GetNode`, `RemoveNode`, `ParentRelations`, and the predicates `ChildRelations` and `RelatedRelations`.
- An **imperative method** of the class `Redis.RedisNodeStore`. The class holds the three maps as fields. Each method's `ensures` ties its new state and results to its specification function.

The Go code's loops become `while` loops with invariants:

- collecting the fields of an edge;
- grouping a hash by target;
- sending one relation per target;
- trimming the metadata prefix;
- scanning the parent set.

Failures of Redis calls are an explicit parameter `faults: set<Call>`. Every call named in it fails. This exposes each error path: the early returns, the SADD failure that leaves the HSET in place, and the errors that ChildNodes and ParentNodes swallow.

The channels that ChildNodes, ParentNodes and RelatedNodes write to are modelled as the multiset of relations sent. `Bags.Bag` turns a Go map into that multiset, with one item per entry, whatever the iteration order.

Throughout, the model follows the code as written:

- **`node:` stripping.** `StoreRelation` does not strip `node:` from the host or the target. `ChildNodes` strips one `node:` before building the hash key. `ParentNodes` builds the set key from the id as given but strips `node:` for the metadata prefix. The round-trip lemmas therefore require ids without the `node:` decoration.
- **':' in ids or keys.** `ChildNodes` splits a metadata field at its first ':' after `meta:`. When a target id or metadata key contains ':', the field is read back under another target or key. The model keeps this: `Layout.Decodes` admits every value a field decoding to the same pair could supply. The ChildNodes round trip requires ':'-free target ids and keys.
- **Per-host flag.** The "already existed" flag of `StoreRelation` is per host: it reports whether the host's hash existed, not whether this edge did.
- **No cascade, no metadata search.** `graph.go` declares `DeleteRelation` and `NodesMatchingMetadata`, and `DeleteNode` only carries a note to clean up the relations later (redis/redis.go:126). This code has no cascading delete and no metadata search: `DeleteNode` deletes only the node value, and `DeleteRelation` and `NodesMatchingMetadata` only panic (redis/redis.go:130-132, 233-235).

The state invariant `Backend.WellFormed` has three parts:

- each key family has its own kind of value;
- no hash or set is empty, since Redis drops empty ones;
- every `meta:` field has the second ':' that `ChildNodes` needs to avoid an index-out-of-range panic.

Every operation preserves it (module `Invariants`).

## Model

| member | source | states |
|---|---|---|
| Models.NewNode | models.go:15-20 | the node carries the given payload and the generated id |
| Models.NewRelationWithMetadata | models.go:32-45 | host and target each lose exactly one leading `node:` (unchanged when absent); the metadata is kept as given |
| Models.NewRelation | models.go:28-30 | a relation with empty metadata, built as NewRelationWithMetadata with an empty map |
| Keys.NodeIdToNodeKey | redis/redis.go:238-245 | the key starts with `node:`; an id that already does is returned unchanged, any other id follows the prefix verbatim |
| Keys.NodeKeyToNodeId | redis/redis.go:247-254 | one leading `node:` is removed; a string without it is returned unchanged |
| Keys.NodeIdToParentRelationKey | redis/redis.go:256-263 | the key starts with `childrenOf:`; already-prefixed ids are unchanged, others follow the prefix verbatim |
| Keys.NodeIdToChildRelationKey | redis/redis.go:265-272 | the key starts with `parentOf:`; already-prefixed ids are unchanged, others follow the prefix verbatim |
| Keys.EncodersIdempotent | redis/redis.go:238-272 | encoding an encoded key again changes nothing, for all three encoders |
| Keys.NodeKeyRoundTrip | redis/redis.go:238-254 | decoding the node key of an undecorated id gives the id back |
| Keys.PrefixesDisjoint | redis/redis.go:238-272 | no key carries two of the three family prefixes, so node values, edge hashes and parent sets never share a key |
| Strings.FirstSegment | redis/redis.go:180-181 | element 0 of splitting at ':' is a ':'-free prefix of the string, followed by ':' exactly when the string has one |
| Strings.SegmentsOfJoin | redis/redis.go:180-182 | splitting `a:b` with ':'-free `a` and `b` gives back `a` and `b` |
| Layout.MetaFieldDecodes | redis/redis.go:180-182 | a field `meta:<t>:<k>` written from ':'-free `t` and `k` is read back as target `t` and key `k` |
| Layout.RelationFieldsShape | redis/redis.go:64-75 | the fields of an edge: `target:<t>` holding `t`, `meta:<t>:<k>` holding each metadata value, and nothing else |
| Layout.GroupStepDecodes | redis/redis.go:174-189 | handling one more field keeps the grouping consistent with the fields seen so far: the targets found, the keys per target, and each value from a field that decodes to it |
| Backend.ParentMetadata | redis/redis.go:218-223 | key `k` is in the metadata exactly when field `prefix+k` is in the hash, and then holds that field's value |
| Invariants.PutNodeWellFormed | redis/redis.go:28-53 | StoreNode preserves the store invariant |
| Invariants.PutRelationWellFormed | redis/redis.go:55-93 | StoreRelation preserves the store invariant on every failure path |
| Invariants.RemoveNodeWellFormed | redis/redis.go:124-128 | DeleteNode preserves the store invariant |
| Redis.CollectRelationFields | redis/redis.go:64-75 | the loop builds exactly the edge's field map |
| Redis.GroupFieldsByTarget | redis/redis.go:172-190 | the loop over the hash yields a grouping that decodes the hash: every target found, exactly its metadata keys, values from matching fields |
| Redis.EmitChildRelations | redis/redis.go:192-194 | one relation per grouped target, host the node, built by NewRelationWithMetadata |
| Redis.CollectParentMetadata | redis/redis.go:218-223 | the loop keeps exactly the fields under the prefix, with the prefix removed |
| Redis.BuildParentRelation | redis/redis.go:213-224 | the relation has the member as host and the node as target, each with one `node:` removed, plus the trimmed metadata |
| Redis.RedisNodeStore.constructor | redis/redis.go:16-21 | a new store is empty and satisfies the invariant |
| Redis.RedisNodeStore.StoreNode | redis/redis.go:28-53 | new state and results are those of PutNode on the old state; the invariant is kept |
| Redis.RedisNodeStore.StoreRelation | redis/redis.go:55-93 | new state and results are those of PutRelation on the old state; the invariant is kept |
| Redis.RedisNodeStore.RetrieveNode | redis/redis.go:95-122 | the result is GetNode of the current state |
| Redis.RedisNodeStore.DeleteNode | redis/redis.go:124-128 | new state and error are those of RemoveNode on the old state; the invariant is kept |
| Redis.RedisNodeStore.ChildNodes | redis/redis.go:160-199 | the relations sent satisfy ChildRelations: nothing if HGETALL fails, else one per target of a grouping that decodes the hash |
| Redis.RedisNodeStore.ParentNodes | redis/redis.go:201-231 | the relations sent are ParentRelations: one per member of the parent set whose hash could be read; nothing if SMEMBERS fails |
| Redis.RedisNodeStore.RelatedNodes | redis/redis.go:135-158 | what is sent is what ChildNodes sends plus what ParentNodes sends |
| NodeProperties.StoreNodeContract | redis/redis.go:28-53 | returns the node key, with the flag true exactly when a node was stored under it; on success, the key holds the node and nothing else changes; a failing EXISTS returns `""` and changes nothing; a failing SET changes nothing |
| NodeProperties.StoreNodeTwice | redis/redis.go:28-53 | the first store of an id reports new, a second store of the same id reports existing and overwrites the payload |
| NodeProperties.StoreNodeFirstTime | redis/redis_test.go:37-48 | storing `node-1` into an empty database returns `node:node-1` and reports a new node |
| NodeProperties.RetrieveNodeContract | redis/redis.go:95-108 | success exactly when the key holds a node and neither EXISTS nor GET fails, returning that node; a missing key gives "invalid node ID" |
| NodeProperties.StoreThenRetrieve | redis/redis.go:95-122 | what StoreNode stored, RetrieveNode returns unchanged |
| NodeProperties.DeleteNodeContract | redis/redis.go:124-128 | only the node key is removed, leaving every edge hash and parent set in place; a failing DEL changes nothing |
| NodeProperties.DeleteThenRetrieve | redis/redis.go:124-128 | after a delete the node reads as "invalid node ID", and deleting again is a no-op |
| RelationProperties.StoreRelationContract | redis/redis.go:55-93 | returns the host's hash key, with the flag true exactly when that hash existed; on success, the hash gains the edge fields, the target's set gains the host, and nothing else changes; EXISTS or HSET failures return `""` and change nothing; an SADD failure keeps the HSET and returns the key with the error |
| RelationProperties.StoreRelationFields | redis/redis.go:64-77 | after HSET, the host's hash holds the target field and every metadata field with their values, keeps every other field (those of other targets too), gains no other field, and every other hash is unchanged |
| RelationProperties.StoreRelationFlagPerHost | redis/redis.go:56-69 | the first edge of a host without a hash reports new; a second edge from the same host reports "existed", even for another target |
| ReadProperties.ChildNodesShape | redis/redis.go:160-199 | nothing when HGETALL fails; otherwise one relation per target found, including targets named only by a metadata field, each with exactly that target's metadata keys and values from matching fields |
| ReadProperties.ParentNodesShape | redis/redis.go:201-231 | nothing when SMEMBERS fails; with no failure, one relation per set member, host the member, target the node, with the metadata that the member's hash holds for the node, possibly none |
| ReadProperties.RelatedNodesSize | redis/redis.go:135-158 | with no failure, the count is the number of targets in the node's hash plus the number of members of its parent set, and every parent relation is included |
| RoundTrips.EdgeFieldsTarget | redis/redis.go:175-182 | the fields of one edge name exactly one target, the edge's own |
| RoundTrips.StoreThenChildNodes | redis/redis.go:160-199 | after StoreRelation, the host's children contain the edge exactly once, with its host, target and every metadata entry, provided the hash and edge are ':'-free and ids undecorated |
| RoundTrips.StoreThenParentNodes | redis/redis.go:201-231 | after StoreRelation, the target's parents contain the edge with its host, target and every metadata entry, for undecorated ids |
| RoundTrips.StoreThenParentNodesOnce | redis/redis.go:209-224 | after StoreRelation (whose SADD adds the host as given, redis/redis.go:88), when no host recorded for the target carries `node:`, the target's parents hold exactly one relation from the stored host, and it occurs once |
| RoundTrips.ParentNodesRepeatsHost | redis/redis.go:204-214 | as written, storing `node:h -> t` and then `h -> t` into a database without edges makes ParentNodes(t) send the same relation, host `h`, twice |
| Scenario.TwoEdgesStoredAsNew | redis/redis_test.go:132-145 | in a database without edges, both edges of the test are stored as new under their host's hash key |
| Scenario.TwoEdgesRelated | redis/redis_test.go:68-173 | after edges `a -> b` and `c -> a` in a database without edges, RelatedNodes(a) sends exactly the multiset {`a -> b` with its metadata, `c -> a` with its metadata}: two relations, nothing else |
| Scenario.RelatedOfTwo | redis/redis.go:135-158 | when `a`'s hash holds the fields of `a -> b` alone, its parent set holds `c` alone and `c`'s hash the fields of `c -> a` alone, RelatedNodes(a) sends exactly those two edges with their metadata |
| Scenario.OneChild | redis/redis.go:160-199 | when a host's hash holds the fields of one edge with ':'-free ids and keys, ChildNodes sends exactly that edge with exactly its metadata |
| Scenario.OneParent | redis/redis.go:201-231 | when a node's parent set holds one host whose hash holds the fields of one edge to the node, ParentNodes sends exactly that edge with exactly its metadata |
| Scenario.GroupedExactly | redis/redis.go:173-190 | grouping the fields of one edge with ':'-free target and keys yields that target with exactly the edge's metadata |
| Scenario.ParentMetadataOfEdge | redis/redis.go:212-224 | the metadata ParentNodes reads back from the fields of an edge to a node is exactly the edge's metadata, whatever its keys |

## Left out

- Goroutines and channels: a read operation is modelled as the multiset of relations it sends. Blocking, ordering and an abandoned consumer are not modelled.
- JSON encoding: the node payload is an opaque type that the store keeps as is. Marshal errors in StoreNode and Unmarshal errors in RetrieveNode are not modelled.
- Redis.RedisNodeStore.RetrieveNode: returns the stored payload itself. It does not model the reflection on the `typeOf` argument, or that decoding yields generic JSON maps rather than the caller's type.
- Logging calls have no effect on results and are left out.
- The Redis client and context created by `NewRedisGraph` are left out; the constructor starts from an empty database.
- `DeleteRelation` and `NodesMatchingMetadata` only panic in this code, so they are not modelled.
- UUID generation in `NewNode` is a parameter.
- Redis type errors (WRONGTYPE) and keys written by other clients are excluded by the invariant `WellFormed`. So is the index panic of `ChildNodes` on a metadata field without a second ':', which `StoreRelation` never writes.
- RoundTrips.StoreThenParentNodesOnce: "exactly once" is promised only when no host in the target's set carries `node:`. StoreRelation adds the host to the set as given, and ParentNodes strips one `node:` from each member, so both spellings of one host are each sent; RoundTrips.ParentNodesRepeatsHost exhibits the duplicate.
- Redis.RedisNodeStore.RelatedNodes: a fault names a call by command and key, so two calls on one key in one operation fail or succeed together. When the node has an edge to itself, ChildNodes and ParentNodes both issue HGETALL on its `childrenOf:` hash; a transient failure of only one of them is not modelled.
- Redis.RedisNodeStore.ParentNodes: for the same reason, two members of one parent set that read the same hash (`h` and `childrenOf:h`) are both read or both skipped; a transient failure of only one of their HGETALL calls is not modelled.
- Concurrent writers are not modelled. Each Redis call is atomic, and one operation's calls do not interleave with another's.
- `graph.go` only declares the interfaces and is not part of this model.
- Benchmarks and data generation are not part of this model.
