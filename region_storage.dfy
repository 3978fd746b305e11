/**
 * `RegionBasedStorage` as the restore protocol sees it: a cache of open region
 * files, the committed chunk data, and (in 1.21.2) a `restoring` flag that cancels
 * chunk writes. The 1.20.1 variant has no flag.
 */
module RegionStorage {
  import opened Trace

  class Storage {
    /** Whether this variant carries the `restoring` flag (1.21.2) or not (1.20.1). */
    const hasFlag: bool
    const log: Log

    /** The keys of the open, cached region files. */
    var cached: set<RegionKey>
    /** The chunk data committed to the region files. */
    var chunks: map<ChunkPos, Nbt>
    var restoring: bool

    /** A variant without the flag is never restoring. */
    predicate Valid()
      reads this
    {
      hasFlag || !restoring
    }

    constructor(hasFlag: bool, log: Log)
      ensures Valid()
      ensures this.hasFlag == hasFlag && this.log == log
      ensures cached == {} && chunks == map[] && !restoring
    {
      this.hasFlag := hasFlag;
      this.log := log;
      cached := {};
      chunks := map[];
      restoring := false;
    }

    /**
     * `write`: the chunk's region file is opened and cached, and the data is
     * committed unless the write is cancelled because a restore is in progress.
     */
    method Write(pos: ChunkPos, nbt: Nbt)
      requires Valid()
      modifies this
      ensures Valid()
      ensures cached == old(cached) + {RegionOf(pos)}
      ensures chunks == if restoring then old(chunks) else old(chunks)[pos := nbt]
      ensures restoring == old(restoring)
    {
      cached := cached + {RegionOf(pos)};
      if !restoring {
        chunks := chunks[pos := nbt];
      }
    }

    /**
     * Closes every cached region file, in whatever order the cache yields them; a
     * failing close is ignored or logged and the loop goes on. Returns the keys
     * closed, each once.
     */
    method CloseAll() returns (ghost closed: seq<RegionKey>)
      modifies log
      ensures forall k :: k in closed <==> k in cached
      ensures |closed| == |cached|
      ensures log.events == old(log.events) + Closes(this, closed)
    {
      var todo := cached;
      closed := [];
      while todo != {}
        invariant todo <= cached
        invariant forall k :: k in closed <==> k in cached && k !in todo
        invariant |closed| + |todo| == |cached|
        invariant log.events == old(log.events) + Closes(this, closed)
        decreases |todo|
      {
        var k :| k in todo;
        ClosesSnoc(this, closed, k);
        log.events := log.events + [CloseRegion(this, k)];
        closed := closed + [k];
        todo := todo - {k};
      }
    }

    /**
     * `preRestore`: close every cached region file, empty the cache, then set the
     * flag (1.21.2 only). The committed data is left alone.
     */
    method PreRestore() returns (ghost appended: seq<Event>, ghost closed: seq<RegionKey>)
      requires Valid()
      modifies this, log
      ensures Valid()
      ensures cached == {} && restoring == hasFlag && chunks == old(chunks)
      ensures forall k :: k in closed <==> k in old(cached)
      ensures |closed| == |old(cached)|
      ensures appended == [Pre(this)] + Closes(this, closed)
      ensures log.events == old(log.events) + appended
    {
      log.events := log.events + [Pre(this)];
      closed := CloseAll();
      cached := {};
      if hasFlag {
        restoring := true;
      }
      appended := [Pre(this)] + Closes(this, closed);
    }

    /**
     * `postRestore`: close the region files cached since (a cancelled write still
     * opens its file), empty the cache, and clear the flag.
     */
    method PostRestore() returns (ghost appended: seq<Event>, ghost closed: seq<RegionKey>)
      requires Valid()
      modifies this, log
      ensures Valid()
      ensures cached == {} && !restoring && chunks == old(chunks)
      ensures forall k :: k in closed <==> k in old(cached)
      ensures |closed| == |old(cached)|
      ensures appended == [Post(this)] + Closes(this, closed)
      ensures log.events == old(log.events) + appended
    {
      log.events := log.events + [Post(this)];
      closed := CloseAll();
      cached := {};
      restoring := false;
      appended := [Post(this)] + Closes(this, closed);
    }
  }

  /**
   * While a 1.21.2 storage is restoring, writes reach no region file's data: the
   * chunks committed before the restore are exactly those after any write.
   */
  method WritesDuringRestoreAreLost(s: Storage, pos: ChunkPos, nbt: Nbt)
    requires s.Valid() && s.hasFlag
    modifies s, s.log
    ensures s.chunks == old(s.chunks) && s.cached == {} && !s.restoring
  {
    var a, c := s.PreRestore();
    s.Write(pos, nbt);
    a, c := s.PostRestore();
  }
}
