/**
 * The shared vocabulary of the restore-quiesce protocol: chunk and region
 * positions, and a ghost trace that every `RestoreAware` node appends to, so that
 * the order in which the tree is visited can be stated.
 */
module Trace {
  /** A chunk position. */
  datatype ChunkPos = ChunkPos(x: int, z: int)

  /** A region file's key: the chunk position shifted right by 5 (`x >> 5`, `z >> 5`). */
  datatype RegionKey = RegionKey(x: int, z: int)

  /** The region file that holds a chunk; `/` on a positive divisor floors, as `>> 5` does. */
  function RegionOf(pos: ChunkPos): (k: RegionKey)
    ensures 32 * k.x <= pos.x < 32 * k.x + 32 && 32 * k.z <= pos.z < 32 * k.z + 32
  {
    RegionKey(pos.x / 32, pos.z / 32)
  }

  /** Chunk data as stored: an opaque byte string. */
  type Nbt = seq<int>

  /**
   * A task on a storage worker's executor: a caller's job, a chunk read, or the
   * `writeResult` task that `writeRemainingResults` schedules.
   */
  datatype Task = Job(id: int) | ReadChunk(pos: ChunkPos) | WriteResults

  /** What the protocol does that the trace records. */
  datatype Event =
    | Pre(node: object)                      // a node's `preRestore` is entered
    | Post(node: object)                     // a node's `postRestore` is entered
    | CloseRegion(storage: object, key: RegionKey)
    | RanTask(worker: object, task: Task)    // the executor ran a queued task
    | Unload(manager: object, chunk: int)    // `ServerEntityManager.unload`
    | MarkPendingDisposal(loader: int)
    | RunLoader(loader: int)
    | RemovePersistentTickets(world: object)
    | TickChunkManager(world: object)
    | Disconnect(player: int, message: string)
    | RunPendingTasks                        // `while (server.runTask()) {}`
    | StopServer                             // `server.stop(true)`
    | RunServer                              // `server.runServer()` re-entered
    | SaveAll                                // `server.saveAll(false, false, true)`
    | CreateBackup(comment: string)          // the backup service's `createBackup`
    | CopyDatabase                           // `VACUUM INTO` the local database copy
    | RestoreFiles(id: int)                  // the backup service's `restore`
    | SendError(message: string)             // an error message to the command's source
    | RequestStop                            // `server.stop(false)`

  /** The trace itself. */
  class Log {
    ghost var events: seq<Event>

    constructor()
      ensures events == []
    {
      events := [];
    }
  }

  /** The close events of `storage` for `keys`, in order. */
  function Closes(storage: object, keys: seq<RegionKey>): (r: seq<Event>)
    ensures |r| == |keys| && forall i :: 0 <= i < |keys| ==> r[i] == CloseRegion(storage, keys[i])
  {
    seq(|keys|, i requires 0 <= i < |keys| => CloseRegion(storage, keys[i]))
  }

  /** Closing one more file extends the close events by one. */
  lemma ClosesSnoc(storage: object, keys: seq<RegionKey>, k: RegionKey)
    ensures Closes(storage, keys + [k]) == Closes(storage, keys) + [CloseRegion(storage, k)]
  {
  }
}
