/**
 * The top of the restore tree: the chunk loading managers of 1.21.2, 1.21 and 1.20
 * and the server worlds of 1.21.2 and 1.20. Each forwards `preRestore` and
 * `postRestore` to its children in a fixed order, which the ghost trace records.
 */
module Loading {
  import opened Trace
  import opened IoWorker
  import opened Nodes

  /** `markPendingDisposal` then `run` for every chunk loader, in list order. */
  function Disposals(loaders: seq<int>): (r: seq<Event>)
    ensures |r| == 2 * |loaders|
    ensures forall i :: 0 <= i < |loaders| ==>
      r[2 * i] == MarkPendingDisposal(loaders[i]) && r[2 * i + 1] == RunLoader(loaders[i])
  {
    if loaders == [] then []
    else
      var last := loaders[|loaders| - 1];
      Disposals(loaders[..|loaders| - 1]) + [MarkPendingDisposal(last), RunLoader(last)]
  }

  lemma DisposalsSnoc(loaders: seq<int>, i: nat)
    requires i < |loaders|
    ensures Disposals(loaders[..i + 1]) == Disposals(loaders[..i]) + [MarkPendingDisposal(loaders[i]), RunLoader(loaders[i])]
  {
    assert loaders[..i + 1][..i] == loaders[..i];
  }

  /**
   * `ServerChunkLoadingManager` (1.21.2): forwards to the ticket manager and the
   * chunk worker, then disposes of every chunk loader; `postRestore` forwards only.
   */
  class LoadingManager1212 {
    const ticketManager: TicketManager
    const worker: Worker
    /** `loaders`, in list order. */
    const loaders: seq<int>
    const log: Log

    function Footprint(): set<object>
    {
      {ticketManager} + worker.Footprint()
    }

    predicate Valid()
      reads Footprint()
    {
      ticketManager.log == log && worker.log == log && worker.Valid()
    }

    constructor(ticketManager: TicketManager, worker: Worker, loaders: seq<int>, log: Log)
      requires ticketManager.log == log && worker.log == log && worker.Valid()
      ensures Valid() && this.ticketManager == ticketManager && this.worker == worker
      ensures this.loaders == loaders && this.log == log
    {
      this.ticketManager := ticketManager;
      this.worker := worker;
      this.loaders := loaders;
      this.log := log;
    }

    method PreRestore() returns (ghost appended: seq<Event>, ghost fromWorker: seq<Event>)
      requires Valid()
      modifies Footprint(), log
      ensures Valid()
      ensures log.events == old(log.events) + appended
      ensures appended == [Pre(this), Pre(ticketManager)] + fromWorker + Disposals(loaders)
      ensures |fromWorker| > 0 && fromWorker[0] == Pre(worker)
      ensures worker.storage != null ==> worker.restoring == worker.variant.HasFlag() && worker.results == []
    {
      log.events := log.events + [Pre(this)];
      ghost var visited, drained, fromStorage;
      ghost var fromTickets;
      fromTickets, visited := ticketManager.PreRestore();
      fromWorker, drained, fromStorage := worker.PreRestore();
      DisposeLoaders();
      appended := [Pre(this), Pre(ticketManager)] + fromWorker + Disposals(loaders);
      assert [Pre(this)] + [Pre(ticketManager)] == [Pre(this), Pre(ticketManager)];
    }

    /** The loop over `loaders`. */
    method DisposeLoaders()
      modifies log
      ensures log.events == old(log.events) + Disposals(loaders)
    {
      for i := 0 to |loaders|
        invariant log.events == old(log.events) + Disposals(loaders[..i])
      {
        var step := [MarkPendingDisposal(loaders[i]), RunLoader(loaders[i])];
        DisposalsSnoc(loaders, i);
        assert old(log.events) + Disposals(loaders[..i + 1]) == (old(log.events) + Disposals(loaders[..i])) + step;
        log.events := log.events + step;
      }
      assert loaders[..|loaders|] == loaders;
    }

    method PostRestore() returns (ghost appended: seq<Event>, ghost fromWorker: seq<Event>)
      requires Valid()
      modifies Footprint(), log
      ensures Valid()
      ensures log.events == old(log.events) + appended
      ensures appended == [Post(this), Post(ticketManager)] + fromWorker
      ensures |fromWorker| > 0 && fromWorker[0] == Post(worker)
      ensures worker.storage != null ==> !worker.restoring
    {
      log.events := log.events + [Post(this)];
      ghost var drained, fromStorage;
      ghost var fromTickets := ticketManager.PostRestore();
      fromWorker, drained, fromStorage := worker.PostRestore();
      appended := [Post(this), Post(ticketManager)] + fromWorker;
      assert [Post(this)] + [Post(ticketManager)] == [Post(this), Post(ticketManager)];
    }
  }

  /**
   * `ServerChunkLoadingManager` (1.21): forwards to the ticket manager, the
   * task-priority system and the chunk worker, in that order, both ways.
   */
  class LoadingManager121 {
    const ticketManager: TicketManager
    const prioritySystem: TaskPrioritySystem
    const worker: Worker
    const log: Log

    function Footprint(): set<object>
    {
      {ticketManager} + prioritySystem.Footprint() + worker.Footprint()
    }

    predicate Valid()
      reads Footprint()
    {
      ticketManager.log == log && prioritySystem.log == log && prioritySystem.Valid() &&
      worker.log == log && worker.Valid()
    }

    constructor(ticketManager: TicketManager, prioritySystem: TaskPrioritySystem, worker: Worker, log: Log)
      requires ticketManager.log == log && prioritySystem.log == log && prioritySystem.Valid()
      requires worker.log == log && worker.Valid()
      ensures Valid() && this.ticketManager == ticketManager && this.prioritySystem == prioritySystem
      ensures this.worker == worker && this.log == log
    {
      this.ticketManager := ticketManager;
      this.prioritySystem := prioritySystem;
      this.worker := worker;
      this.log := log;
    }

    method PreRestore() returns (ghost appended: seq<Event>, ghost fromWorker: seq<Event>)
      requires Valid()
      modifies Footprint(), log
      ensures Valid()
      ensures log.events == old(log.events) + appended
      ensures appended == [Pre(this), Pre(ticketManager), Pre(prioritySystem)] + fromWorker
      ensures |fromWorker| > 0 && fromWorker[0] == Pre(worker)
      ensures prioritySystem.control == old(prioritySystem.control) + [PreRestoreQueues(0)]
      ensures worker.storage != null ==> worker.restoring == worker.variant.HasFlag() && worker.results == []
    {
      log.events := log.events + [Pre(this)];
      ghost var visited, drained, fromStorage;
      ghost var fromTickets;
      fromTickets, visited := ticketManager.PreRestore();
      ghost var fromPriority := prioritySystem.PreRestore();
      fromWorker, drained, fromStorage := worker.PreRestore();
      appended := [Pre(this), Pre(ticketManager), Pre(prioritySystem)] + fromWorker;
      assert [Pre(this)] + [Pre(ticketManager)] + [Pre(prioritySystem)] == [Pre(this), Pre(ticketManager), Pre(prioritySystem)];
    }

    method PostRestore() returns (ghost appended: seq<Event>, ghost fromWorker: seq<Event>)
      requires Valid()
      modifies Footprint(), log
      ensures Valid()
      ensures log.events == old(log.events) + appended
      ensures appended == [Post(this), Post(ticketManager), Post(prioritySystem)] + fromWorker
      ensures |fromWorker| > 0 && fromWorker[0] == Post(worker)
      ensures prioritySystem.control == old(prioritySystem.control) + [PreRestoreQueues(0)]
      ensures worker.storage != null ==> !worker.restoring
    {
      log.events := log.events + [Post(this)];
      ghost var drained, fromStorage;
      ghost var fromTickets := ticketManager.PostRestore();
      ghost var fromPriority := prioritySystem.PostRestore();
      fromWorker, drained, fromStorage := worker.PostRestore();
      appended := [Post(this), Post(ticketManager), Post(prioritySystem)] + fromWorker;
      assert [Post(this)] + [Post(ticketManager)] + [Post(prioritySystem)] == [Post(this), Post(ticketManager), Post(prioritySystem)];
    }
  }

  /** `ThreadedAnvilChunkStorage` (1.20): forwards to the chunk worker only. */
  class LoadingManager120 {
    const worker: Worker
    const log: Log

    function Footprint(): set<object>
    {
      worker.Footprint()
    }

    predicate Valid()
      reads Footprint()
    {
      worker.log == log && worker.Valid()
    }

    constructor(worker: Worker, log: Log)
      requires worker.log == log && worker.Valid()
      ensures Valid() && this.worker == worker && this.log == log
    {
      this.worker := worker;
      this.log := log;
    }

    method PreRestore() returns (ghost appended: seq<Event>, ghost fromWorker: seq<Event>)
      requires Valid()
      modifies Footprint(), log
      ensures Valid()
      ensures log.events == old(log.events) + appended && appended == [Pre(this)] + fromWorker
      ensures |fromWorker| > 0 && fromWorker[0] == Pre(worker)
      ensures worker.storage != null ==> worker.restoring == worker.variant.HasFlag() && worker.results == []
    {
      log.events := log.events + [Pre(this)];
      ghost var drained, fromStorage;
      fromWorker, drained, fromStorage := worker.PreRestore();
      appended := [Pre(this)] + fromWorker;
    }

    method PostRestore() returns (ghost appended: seq<Event>, ghost fromWorker: seq<Event>)
      requires Valid()
      modifies Footprint(), log
      ensures Valid()
      ensures log.events == old(log.events) + appended && appended == [Post(this)] + fromWorker
      ensures |fromWorker| > 0 && fromWorker[0] == Post(worker)
      ensures worker.storage != null ==> !worker.restoring
    {
      log.events := log.events + [Post(this)];
      ghost var drained, fromStorage;
      fromWorker, drained, fromStorage := worker.PostRestore();
      appended := [Post(this)] + fromWorker;
    }
  }

  /**
   * `ServerWorld` (1.21.2): re-enables saving, drops persistent tickets, ticks the
   * chunk manager once, then quiesces the entity manager and the loading manager;
   * `postRestore` resumes them in the same order.
   */
  class World1212 {
    const entityManager: EntityManager
    const loading: LoadingManager1212
    const log: Log

    var savingDisabled: bool

    function Footprint(): set<object>
    {
      {this} + entityManager.Footprint() + loading.Footprint()
    }

    /** The entity side and the chunk side of a world share no object. */
    predicate Valid()
      reads Footprint()
    {
      entityManager.log == log && entityManager.Valid() &&
      loading.log == log && loading.Valid() &&
      entityManager.Footprint() !! loading.Footprint()
    }

    constructor(entityManager: EntityManager, loading: LoadingManager1212, log: Log, savingDisabled: bool)
      requires entityManager.log == log && entityManager.Valid() && loading.log == log && loading.Valid()
      requires entityManager.Footprint() !! loading.Footprint()
      ensures Valid() && this.entityManager == entityManager && this.loading == loading && this.log == log
      ensures this.savingDisabled == savingDisabled
    {
      this.entityManager := entityManager;
      this.loading := loading;
      this.log := log;
      this.savingDisabled := savingDisabled;
    }

    method PreRestore() returns (ghost appended: seq<Event>, ghost fromEntities: seq<Event>, ghost fromLoading: seq<Event>)
      requires Valid()
      modifies Footprint(), log
      ensures Valid()
      ensures log.events == old(log.events) + appended
      ensures appended == [Pre(this), RemovePersistentTickets(this), TickChunkManager(this)] + fromEntities + fromLoading
      ensures |fromEntities| > 0 && fromEntities[0] == Pre(entityManager)
      ensures |fromLoading| > 0 && fromLoading[0] == Pre(loading)
      ensures !savingDisabled
    {
      savingDisabled := false;
      log.events := log.events + [Pre(this), RemovePersistentTickets(this), TickChunkManager(this)];
      fromEntities, fromLoading := ChildrenPreRestore();
      appended := [Pre(this), RemovePersistentTickets(this), TickChunkManager(this)] + fromEntities + fromLoading;
    }

    /** The entity manager, then the loading manager. */
    method ChildrenPreRestore() returns (ghost fromEntities: seq<Event>, ghost fromLoading: seq<Event>)
      requires Valid()
      modifies entityManager.Footprint(), loading.Footprint(), log
      ensures Valid()
      ensures log.events == old(log.events) + fromEntities + fromLoading
      ensures |fromEntities| > 0 && fromEntities[0] == Pre(entityManager)
      ensures |fromLoading| > 0 && fromLoading[0] == Pre(loading)
    {
      ghost var unloaded, fromData, fromWorker;
      fromEntities, unloaded, fromData := entityManager.PreRestore();
      fromLoading, fromWorker := loading.PreRestore();
    }

    method PostRestore() returns (ghost appended: seq<Event>, ghost fromEntities: seq<Event>, ghost fromLoading: seq<Event>)
      requires Valid()
      modifies Footprint(), log
      ensures Valid()
      ensures log.events == old(log.events) + appended
      ensures appended == [Post(this)] + fromEntities + fromLoading
      ensures |fromEntities| > 0 && fromEntities[0] == Post(entityManager)
      ensures |fromLoading| > 0 && fromLoading[0] == Post(loading)
      ensures savingDisabled == old(savingDisabled)
    {
      log.events := log.events + [Post(this)];
      ghost var fromData, fromWorker;
      fromEntities, fromData := entityManager.PostRestore();
      fromLoading, fromWorker := loading.PostRestore();
      appended := [Post(this)] + fromEntities + fromLoading;
    }
  }

  /** `ServerWorld` (1.20): the entity manager, then the chunk storage, both ways. */
  class World120 {
    const entityManager: EntityManager
    const loading: LoadingManager120
    const log: Log

    function Footprint(): set<object>
    {
      entityManager.Footprint() + loading.Footprint()
    }

    predicate Valid()
      reads Footprint()
    {
      entityManager.log == log && entityManager.Valid() &&
      loading.log == log && loading.Valid() &&
      entityManager.Footprint() !! loading.Footprint()
    }

    constructor(entityManager: EntityManager, loading: LoadingManager120, log: Log)
      requires entityManager.log == log && entityManager.Valid() && loading.log == log && loading.Valid()
      requires entityManager.Footprint() !! loading.Footprint()
      ensures Valid() && this.entityManager == entityManager && this.loading == loading && this.log == log
    {
      this.entityManager := entityManager;
      this.loading := loading;
      this.log := log;
    }

    method PreRestore() returns (ghost appended: seq<Event>, ghost fromEntities: seq<Event>, ghost fromLoading: seq<Event>)
      requires Valid()
      modifies Footprint(), log
      ensures Valid()
      ensures log.events == old(log.events) + appended && appended == [Pre(this)] + fromEntities + fromLoading
      ensures |fromEntities| > 0 && fromEntities[0] == Pre(entityManager)
      ensures |fromLoading| > 0 && fromLoading[0] == Pre(loading)
    {
      log.events := log.events + [Pre(this)];
      ghost var unloaded, fromData, fromWorker;
      fromEntities, unloaded, fromData := entityManager.PreRestore();
      fromLoading, fromWorker := loading.PreRestore();
      appended := [Pre(this)] + fromEntities + fromLoading;
    }

    method PostRestore() returns (ghost appended: seq<Event>, ghost fromEntities: seq<Event>, ghost fromLoading: seq<Event>)
      requires Valid()
      modifies Footprint(), log
      ensures Valid()
      ensures log.events == old(log.events) + appended && appended == [Post(this)] + fromEntities + fromLoading
      ensures |fromEntities| > 0 && fromEntities[0] == Post(entityManager)
      ensures |fromLoading| > 0 && fromLoading[0] == Post(loading)
    {
      log.events := log.events + [Post(this)];
      ghost var fromData, fromWorker;
      fromEntities, fromData := entityManager.PostRestore();
      fromLoading, fromWorker := loading.PostRestore();
      appended := [Post(this)] + fromEntities + fromLoading;
    }
  }
}
