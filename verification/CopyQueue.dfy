/** What both COPY pipelines pass through their queues. */
module CopyQueue {
  type Chunk = seq<seq<string>>

  const QUEUE_DEPTH := 3
}
