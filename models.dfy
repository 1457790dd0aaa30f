/** The two records the store hands back to its callers. */
module Models {

  /** A stored memory as callers see it. */
  datatype Memory = Memory(
    id: string,
    content: string,
    project: string,
    tags: seq<string>,
    source: string,
    importance: int,
    timestamp: string)

  /** The key a memory is known by. */
  function MemoryId(m: Memory): string
  {
    m.id
  }

  /** One answer of `recall`: the memory, its relevance and the raw distance. */
  datatype RecallResult = RecallResult(memory: Memory, relevanceScore: real, distance: real)
}
