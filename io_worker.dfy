/**
 * `StorageIoWorker` under the restore protocol, one class for the four game
 * versions: a `restoring` flag that turns reads and new tasks away, a drain of the
 * executor queue (discarding tasks in 1.21.2 and 1.20, running them in 1.20.1),
 * the insertion-ordered `results` map, and the region storage it forwards to.
 * The 1.21 variant has neither flag nor guards: it only clears `results` and
 * forwards.
 */
module IoWorker {
  import opened Wrappers
  import opened Trace
  import opened RegionStorage

  /** The game versions whose worker mixins differ. */
  datatype Variant = V1_21_2 | V1_20 | V1_20_1 | V1_21
  {
    /** The mixin adds the `restoring` flag, the read/run guards and the null-storage check. */
    predicate HasFlag() { this != V1_21 }
    /** The queue is drained by running its tasks rather than discarding them. */
    predicate DrainsByRun() { this == V1_20_1 }
    /** `writeResult` returns at once while saving is disabled (1.21.2 itself, 1.20.1 through its `disable` mixin). */
    predicate GuardsSaving() { this == V1_21_2 || this == V1_20_1 }
    /** A failing write is filtered (the overwritten `writeResult`, or the 1.20.1 task). */
    predicate FiltersFailures() { this != V1_21 }
  }

  /** The exceptions the filter tells apart. */
  datatype Kind = ClosedChannel | ConcurrentModification | NoSuchElement | OtherKind

  /** A thrown exception: its own kind and the kind of its cause, if it has one. */
  datatype Failure = Failure(kind: Kind, cause: Option<Kind>)

  /**
   * The filter of `writeResult`: a failure is swallowed only while restoring, and
   * only when it or its cause is a closed channel, or it is a concurrent
   * modification or a missing element.
   */
  predicate Swallowed(restoring: bool, f: Failure)
  {
    restoring &&
    (f.kind == ClosedChannel || f.cause == Some(ClosedChannel) ||
     f.kind == ConcurrentModification || f.kind == NoSuchElement)
  }

  /** What a guarded call hands back: a future that never completes, or the call going ahead. */
  datatype Future = Never | Submitted

  /** The keys of an insertion-ordered map held as a sequence of pairs. */
  function Keys(results: seq<(ChunkPos, Nbt)>): set<ChunkPos>
  {
    set i | 0 <= i < |results| :: results[i].0
  }

  class Worker {
    const variant: Variant
    const storage: Storage?
    const log: Log

    var restoring: bool
    /** The executor's queue, head first. */
    var queue: seq<Task>
    /** The pending writes, oldest first. */
    var results: seq<(ChunkPos, Nbt)>

    /** The objects a call may change. */
    function Footprint(): set<object>
    {
      if storage == null then {this} else {this, storage}
    }

    /** The worker and its storage share the trace; the 1.21 worker always has a storage. */
    predicate Wired()
    {
      (storage != null ==> storage.log == log) && (variant == V1_21 ==> storage != null)
    }

    /** Only a variant with the flag is ever restoring; the storage keeps its own invariant. */
    predicate Valid()
      reads Footprint()
    {
      Wired() && (variant.HasFlag() || !restoring) && (storage != null ==> storage.Valid())
    }

    constructor(variant: Variant, storage: Storage?, log: Log)
      requires storage != null ==> storage.log == log && storage.Valid()
      requires variant == V1_21 ==> storage != null
      ensures Valid()
      ensures this.variant == variant && this.storage == storage && this.log == log
      ensures !restoring && queue == [] && results == []
    {
      this.variant := variant;
      this.storage := storage;
      this.log := log;
      restoring := false;
      queue := [];
      results := [];
    }

    /** `readChunkData`: while restoring, a future that never completes and nothing read. */
    method ReadChunkData(pos: ChunkPos) returns (f: Future)
      requires Valid()
      modifies this
      ensures Valid()
      ensures restoring ==> f == Never && queue == old(queue)
      ensures !restoring ==> f == Submitted && queue == old(queue) + [ReadChunk(pos)]
      ensures restoring == old(restoring) && results == old(results)
    {
      if restoring {
        return Never;
      }
      queue := queue + [ReadChunk(pos)];
      f := Submitted;
    }

    /** `run`: while restoring, a future that never completes and nothing queued. */
    method Run(job: int) returns (f: Future)
      requires Valid()
      modifies this
      ensures Valid()
      ensures restoring ==> f == Never && queue == old(queue)
      ensures !restoring ==> f == Submitted && queue == old(queue) + [Job(job)]
      ensures restoring == old(restoring) && results == old(results)
    {
      if restoring {
        return Never;
      }
      queue := queue + [Job(job)];
      f := Submitted;
    }

    /**
     * `writeResult`: unless saving is disabled (1.21.2), take the oldest pending
     * write off `results`, write it and schedule the rest. `failure` is what the
     * write throws, if anything; the filter decides whether it escapes. A failed
     * write does not schedule the rest.
     */
    method WriteResult(disableSaving: bool, failure: Option<Failure>) returns (thrown: Option<Failure>)
      requires Valid() && storage != null
      modifies Footprint()
      ensures Valid()
      ensures variant.GuardsSaving() && disableSaving ==>
        thrown.None? && results == old(results) && queue == old(queue) && storage.chunks == old(storage.chunks)
      ensures !(variant.GuardsSaving() && disableSaving) && old(results) == [] ==>
        thrown.None? && results == [] && queue == old(queue) && storage.chunks == old(storage.chunks)
      ensures !(variant.GuardsSaving() && disableSaving) && old(results) != [] ==>
        results == old(results)[1..] &&
        (failure.None? ==> (thrown.None? && queue == old(queue) + [WriteResults] &&
          storage.chunks == (if storage.restoring then old(storage.chunks)
                             else old(storage.chunks)[old(results)[0].0 := old(results)[0].1]))) &&
        (failure.Some? ==> (queue == old(queue) && storage.chunks == old(storage.chunks) &&
          thrown == if variant.FiltersFailures() && Swallowed(restoring, failure.value) then None else failure))
      ensures restoring == old(restoring) && storage.restoring == old(storage.restoring)
    {
      if variant.GuardsSaving() && disableSaving {
        return None;
      }
      if results == [] {
        return None;
      }
      var (pos, nbt) := results[0];
      results := results[1..];
      if failure.Some? {
        if variant.FiltersFailures() && Swallowed(restoring, failure.value) {
          return None;
        }
        return failure;
      }
      storage.Write(pos, nbt);
      queue := queue + [WriteResults];
      thrown := None;
    }

    /** Polls every queued task off the executor without running it. */
    method DrainByDiscard()
      modifies this
      ensures queue == [] && results == old(results) && restoring == old(restoring)
    {
      while |queue| > 0
        invariant results == old(results) && restoring == old(restoring)
      {
        queue := queue[1..];
      }
    }

    /**
     * Runs queued tasks until the queue is empty (1.20.1). A write task runs
     * `writeResult`, which writes the oldest pending result and schedules another;
     * other tasks leave the worker as it is. When a write task is queued and saving
     * is not disabled, every pending result is committed, oldest first. Returns the
     * tasks run, in order.
     */
    method DrainByRun(disableSaving: bool) returns (ghost ran: seq<Task>)
      requires Valid() && storage != null
      modifies Footprint(), log
      ensures Valid()
      ensures queue == [] && restoring == old(restoring)
      ensures results == if WriteResults in old(queue) && !(variant.GuardsSaving() && disableSaving) then [] else old(results)
      ensures storage.chunks ==
        if storage.restoring then old(storage.chunks)
        else Committed(old(storage.chunks), old(results)[..|old(results)| - |results|])
      ensures log.events == old(log.events) + Ran(this, ran)
      ensures storage.restoring == old(storage.restoring)
    {
      ran := [];
      ghost var writes := WriteResults in queue && !(variant.GuardsSaving() && disableSaving);
      while |queue| > 0
        invariant Valid()
        invariant restoring == old(restoring) && storage.restoring == old(storage.restoring)
        invariant |results| <= |old(results)| && results == old(results)[|old(results)| - |results|..]
        invariant storage.chunks ==
          if storage.restoring then old(storage.chunks)
          else Committed(old(storage.chunks), old(results)[..|old(results)| - |results|])
        invariant !writes ==> results == old(results) && ((variant.GuardsSaving() && disableSaving) || WriteResults !in queue)
        invariant writes ==> results == [] || WriteResults in queue
        invariant log.events == old(log.events) + Ran(this, ran)
        decreases |results|, |queue|
      {
        ghost var k := |old(results)| - |results|;
        ghost var before := results;
        var t, _ := RunHead(disableSaving, None);
        if results != before {
          assert old(results)[..k + 1] == old(results)[..k] + [before[0]];
          CommittedSnoc(old(storage.chunks), old(results)[..k], before[0]);
        }
        RanSnoc(this, ran, t);
        ran := ran + [t];
      }
    }

    /**
     * Runs the head of the queue. A write task is the filtered `writeResult` of the
     * 1.20.1 mixin: `disableSaving` and `failure` are what `writeResult` sees.
     */
    method RunHead(disableSaving: bool, failure: Option<Failure>) returns (t: Task, thrown: Option<Failure>)
      requires Valid() && storage != null && queue != []
      modifies Footprint(), log
      ensures Valid() && t == old(queue[0])
      ensures restoring == old(restoring) && storage.restoring == old(storage.restoring)
      ensures log.events == old(log.events) + [RanTask(this, t)]
      ensures !(t == WriteResults && !(variant.GuardsSaving() && disableSaving) && old(results) != []) ==>
        thrown.None? && results == old(results) && queue == old(queue)[1..] && storage.chunks == old(storage.chunks)
      ensures t == WriteResults && !(variant.GuardsSaving() && disableSaving) && old(results) != [] ==>
        results == old(results)[1..] &&
        (failure.None? ==> (thrown.None? && queue == old(queue)[1..] + [WriteResults] &&
          storage.chunks == (if storage.restoring then old(storage.chunks)
                             else old(storage.chunks)[old(results)[0].0 := old(results)[0].1]))) &&
        (failure.Some? ==> (queue == old(queue)[1..] && storage.chunks == old(storage.chunks) &&
          thrown == if variant.FiltersFailures() && Swallowed(restoring, failure.value) then None else failure))
    {
      t := queue[0];
      queue := queue[1..];
      log.events := log.events + [RanTask(this, t)];
      thrown := None;
      if t == WriteResults {
        thrown := WriteResult(disableSaving, failure);
      }
    }

    /**
     * `preRestore`: with no storage nothing happens (1.21 has no such check);
     * otherwise set the flag, drain the queue, drop every pending write, and
     * forward to the storage. Returns what the call appended to the trace: its own
     * entry, the tasks run by the drain, and the storage's part.
     */
    method PreRestore() returns (ghost appended: seq<Event>, ghost drained: seq<Task>, ghost fromStorage: seq<Event>)
      requires Valid()
      modifies Footprint(), log
      ensures Valid()
      ensures log.events == old(log.events) + appended && |appended| > 0 && appended[0] == Pre(this)
      ensures storage == null ==> (appended == [Pre(this)] && restoring == old(restoring) &&
        queue == old(queue) && results == old(results))
      ensures storage != null ==>
        appended == [Pre(this)] + Ran(this, drained) + fromStorage &&
        |fromStorage| > 0 && fromStorage[0] == Pre(storage) &&
        restoring == variant.HasFlag() && results == [] &&
        (variant.HasFlag() ==> queue == []) && (variant == V1_21 ==> queue == old(queue)) &&
        (!variant.DrainsByRun() ==> drained == [] && storage.chunks == old(storage.chunks)) &&
        (variant.DrainsByRun() ==>
          storage.chunks == if old(storage.restoring) then old(storage.chunks)
            else Committed(old(storage.chunks), if WriteResults in old(queue) then old(results) else [])) &&
        storage.cached == {} && storage.restoring == storage.hasFlag
    {
      log.events := log.events + [Pre(this)];
      drained, fromStorage := [], [];
      if storage == null {
        appended := [Pre(this)];
        return;
      }
      if variant.HasFlag() {
        restoring := true;
        if variant.DrainsByRun() {
          drained := DrainByRun(false);
          assert old(results)[..|old(results)| - |results|] == if WriteResults in old(queue) then old(results) else [];
        } else {
          DrainByDiscard();
        }
      }
      results := [];
      ghost var closed;
      fromStorage, closed := storage.PreRestore();
      appended := [Pre(this)] + Ran(this, drained) + fromStorage;
    }

    /**
     * `postRestore`: with no storage nothing happens; otherwise drain the queue,
     * forward to the storage, and only then clear the flag (1.21 only forwards).
     */
    method PostRestore() returns (ghost appended: seq<Event>, ghost drained: seq<Task>, ghost fromStorage: seq<Event>)
      requires Valid()
      modifies Footprint(), log
      ensures Valid()
      ensures log.events == old(log.events) + appended && |appended| > 0 && appended[0] == Post(this)
      ensures storage == null ==> (appended == [Post(this)] && restoring == old(restoring) &&
        queue == old(queue) && results == old(results))
      ensures storage != null ==>
        appended == [Post(this)] + Ran(this, drained) + fromStorage &&
        |fromStorage| > 0 && fromStorage[0] == Post(storage) &&
        !restoring && (variant.HasFlag() ==> queue == []) &&
        (variant == V1_21 ==> queue == old(queue) && results == old(results)) &&
        (!variant.DrainsByRun() ==> drained == [] && results == old(results) && storage.chunks == old(storage.chunks)) &&
        (variant.DrainsByRun() ==>
          results == (if WriteResults in old(queue) then [] else old(results)) &&
          storage.chunks == if old(storage.restoring) then old(storage.chunks)
            else Committed(old(storage.chunks), if WriteResults in old(queue) then old(results) else [])) &&
        storage.cached == {} && !storage.restoring
    {
      log.events := log.events + [Post(this)];
      drained, fromStorage := [], [];
      if storage == null {
        appended := [Post(this)];
        return;
      }
      if variant.HasFlag() {
        if variant.DrainsByRun() {
          drained := DrainByRun(false);
          assert old(results)[..|old(results)| - |results|] == if WriteResults in old(queue) then old(results) else [];
        } else {
          DrainByDiscard();
        }
      }
      ghost var closed;
      fromStorage, closed := storage.PostRestore();
      restoring := false;
      appended := [Post(this)] + Ran(this, drained) + fromStorage;
    }
  }

  /** The committed chunks after the pending writes `written` are committed over `chunks`, oldest first. */
  function Committed(chunks: map<ChunkPos, Nbt>, written: seq<(ChunkPos, Nbt)>): map<ChunkPos, Nbt>
  {
    if written == [] then chunks
    else Committed(chunks, written[..|written| - 1])[written[|written| - 1].0 := written[|written| - 1].1]
  }

  /** Committing one more write is one more update. */
  lemma CommittedSnoc(chunks: map<ChunkPos, Nbt>, written: seq<(ChunkPos, Nbt)>, w: (ChunkPos, Nbt))
    ensures Committed(chunks, written + [w]) == Committed(chunks, written)[w.0 := w.1]
  {
    assert (written + [w])[..|written|] == written;
  }

  /**
   * Committing pending writes adds exactly their positions, leaves every other
   * position as it was, and the newest write of a position is the one that stays.
   */
  lemma {:induction false} CommittedLastWins(chunks: map<ChunkPos, Nbt>, written: seq<(ChunkPos, Nbt)>)
    ensures Committed(chunks, written).Keys == chunks.Keys + Keys(written)
    ensures forall p :: p in chunks && p !in Keys(written) ==> Committed(chunks, written)[p] == chunks[p]
    ensures forall i :: 0 <= i < |written| && (forall j :: i < j < |written| ==> written[j].0 != written[i].0) ==>
      Committed(chunks, written)[written[i].0] == written[i].1
  {
    if written != [] {
      var init := written[..|written| - 1];
      var last := written[|written| - 1];
      CommittedLastWins(chunks, init);
      assert forall i :: 0 <= i < |init| ==> init[i] == written[i];
      assert Keys(written) == Keys(init) + {last.0} by {
        assert written == init + [last];
      }
    }
  }

  /** The trace of `worker` running `tasks`, in order. */
  function Ran(worker: object, tasks: seq<Task>): (r: seq<Event>)
    ensures |r| == |tasks| && forall i :: 0 <= i < |tasks| ==> r[i] == RanTask(worker, tasks[i])
  {
    seq(|tasks|, i requires 0 <= i < |tasks| => RanTask(worker, tasks[i]))
  }

  /** Running one more task extends the trace by one. */
  lemma RanSnoc(worker: object, tasks: seq<Task>, t: Task)
    ensures Ran(worker, tasks + [t]) == Ran(worker, tasks) + [RanTask(worker, t)]
  {
    assert Ran(worker, tasks + [t]) == Ran(worker, tasks) + [RanTask(worker, t)];
  }
}
