/** The key codec of the Redis backend: how node ids become the names of the
    three kinds of Redis key (`redis/redis.go`, the four functions at the end
    of the file). Every encoder adds its prefix only when it is missing. */
module Keys {
  import opened Strings
  import opened Models

  /** Prefix of the hash holding a host's outgoing edges. */
  const ChildrenOfPrefix := "childrenOf:"
  /** Prefix of the set holding a target's hosts. */
  const ParentOfPrefix := "parentOf:"

  /** `nodeIdToNodeKey`: the key of the string value holding the node. */
  function NodeIdToNodeKey(id: string): (key: string)
    ensures HasPrefix(key, NodePrefix)
    ensures HasPrefix(id, NodePrefix) ==> key == id
    ensures !HasPrefix(id, NodePrefix) ==> key[|NodePrefix|..] == id
  {
    if HasPrefix(id, NodePrefix) then id else NodePrefix + id
  }

  /** `nodeKeyToNodeId`: removes one leading `node:`. */
  function NodeKeyToNodeId(key: string): (id: string)
    ensures HasPrefix(key, NodePrefix) ==> NodePrefix + id == key
    ensures !HasPrefix(key, NodePrefix) ==> id == key
  {
    if HasPrefix(key, NodePrefix) then TrimPrefix(key, NodePrefix) else key
  }

  /** `nodeIdToParentRelationKey`: the key of the hash `childrenOf:<id>`
      that holds the outgoing edges of `id`. */
  function NodeIdToParentRelationKey(id: string): (key: string)
    ensures HasPrefix(key, ChildrenOfPrefix)
    ensures HasPrefix(id, ChildrenOfPrefix) ==> key == id
    ensures !HasPrefix(id, ChildrenOfPrefix) ==> key[|ChildrenOfPrefix|..] == id
  {
    if HasPrefix(id, ChildrenOfPrefix) then id else ChildrenOfPrefix + id
  }

  /** `nodeIdToChildRelationKey`: the key of the set `parentOf:<id>` that
      holds the hosts of the edges into `id`. */
  function NodeIdToChildRelationKey(id: string): (key: string)
    ensures HasPrefix(key, ParentOfPrefix)
    ensures HasPrefix(id, ParentOfPrefix) ==> key == id
    ensures !HasPrefix(id, ParentOfPrefix) ==> key[|ParentOfPrefix|..] == id
  {
    if HasPrefix(id, ParentOfPrefix) then id else ParentOfPrefix + id
  }

  /** Encoding an already encoded key changes nothing. */
  lemma EncodersIdempotent(id: string)
    ensures NodeIdToNodeKey(NodeIdToNodeKey(id)) == NodeIdToNodeKey(id)
    ensures NodeIdToParentRelationKey(NodeIdToParentRelationKey(id)) == NodeIdToParentRelationKey(id)
    ensures NodeIdToChildRelationKey(NodeIdToChildRelationKey(id)) == NodeIdToChildRelationKey(id)
  {
  }

  /** Decoding inverts encoding on undecorated ids. (On a decorated id the
      round trip drops the decoration: `node:node:x` goes to `node:x`.) */
  lemma NodeKeyRoundTrip(id: string)
    requires !HasPrefix(id, NodePrefix)
    ensures NodeKeyToNodeId(NodeIdToNodeKey(id)) == id
  {
    PrefixOfConcat(NodePrefix, id);
  }

  /** A key carries at most one of the three prefixes: the three key
      families never share a key. */
  lemma PrefixesDisjoint(key: string)
    ensures !(HasPrefix(key, NodePrefix) && HasPrefix(key, ChildrenOfPrefix))
    ensures !(HasPrefix(key, NodePrefix) && HasPrefix(key, ParentOfPrefix))
    ensures !(HasPrefix(key, ChildrenOfPrefix) && HasPrefix(key, ParentOfPrefix))
  {
    if HasPrefix(key, NodePrefix) { assert key[0] == 'n'; }
    if HasPrefix(key, ChildrenOfPrefix) { assert key[0] == 'c'; }
  }
}
