/** What the graph reader answers about one node. */
module GraphReader {

  datatype NodeCard = NodeCard(nodeId: string, repoId: string, kind: string, signature: string)

  /** GetNode: a row, ErrNotFound, an outage of the graph store, or another error. */
  datatype Lookup = Found(card: NodeCard) | NotFound | Outage | OtherError

  predicate Fails(found: Lookup) { found.Outage? || found.OtherError? }

  /** Why a read failed. */
  datatype Failure = StoreOutage | ReadError

  datatype Reply<+T> = Got(value: T) | Lost(failure: Failure)
}
