/**
 * The records the RAG pipeline reads and writes: the part of a Discord
 * message that ingestion looks at, the payload stored with every chunk, and
 * the point (id, vector, payload) the vector store keeps.
 */
module Records {

  /** The fields of a Discord message that `ingest_messages` reads. `createdAt`
      is the UTC ISO-8601 rendering of the creation instant and `createdAtTs`
      its whole seconds since the epoch. */
  datatype Message = Message(
    authorIsBot: bool,
    authorId: int,
    authorName: string,
    guildId: int,
    channelId: int,
    id: int,
    createdAt: string,
    createdAtTs: int,
    content: string)

  /** The payload stored with a chunk. `sources` is the list of origins, kept as
      a set because the merge rebuilds it through `set(...)`. */
  datatype Payload = Payload(
    guildId: int,
    channelId: int,
    author: string,
    authorId: int,
    messageId: int,
    createdAt: string,
    createdAtTs: int,
    source: string,
    text: string,
    contentHash: string,
    firstSeen: string,
    lastSeen: string,
    sources: set<string>)

  /** An embedding; the model never looks inside one. */
  type Vector = seq<real>

  /** A stored point: its id is the content hash of its payload. */
  datatype Point = Point(id: string, vector: Vector, payload: Payload)
}
