/** The graph's value types and their constructors (`models.go`). */
module Models {
  import opened Strings

  /** The decoration callers may put in front of a node id. */
  const NodePrefix := "node:"

  /** The node payload. The store never looks inside it: it is serialised on
      the way in and handed back on the way out. */
  type NodeData(==)

  datatype Node = Node(id: string, data: NodeData)

  /** A directed edge host -> target carrying string metadata. */
  datatype Relation = Relation(host: string, target: string, metadata: map<string, string>)

  /** `NewNode`: the id is the freshly generated UUID, passed in here. */
  function NewNode(uuid: string, data: NodeData): (n: Node)
    ensures n.data == data
    ensures n.id == uuid
  {
    Node(uuid, data)
  }

  /** `NewRelationWithMetadata`: host and target lose one leading `node:`,
      the metadata is kept as given. */
  function NewRelationWithMetadata(host: string, target: string, metadata: map<string, string>): (r: Relation)
    ensures HasPrefix(host, NodePrefix) ==> NodePrefix + r.host == host
    ensures !HasPrefix(host, NodePrefix) ==> r.host == host
    ensures HasPrefix(target, NodePrefix) ==> NodePrefix + r.target == target
    ensures !HasPrefix(target, NodePrefix) ==> r.target == target
    ensures r.metadata == metadata
  {
    var h := if HasPrefix(host, NodePrefix) then TrimPrefix(host, NodePrefix) else host;
    var t := if HasPrefix(target, NodePrefix) then TrimPrefix(target, NodePrefix) else target;
    Relation(h, t, metadata)
  }

  /** `NewRelation`: a relation without metadata. */
  function NewRelation(host: string, target: string): (r: Relation)
    ensures r == NewRelationWithMetadata(host, target, map[])
    ensures r.metadata == map[]
  {
    NewRelationWithMetadata(host, target, map[])
  }
}
