/**
 * The mod object `XBackup` of both builds: the `isBusy` lock taken by
 * `ensureNotBusy`, the scheduled-backup rule run every ten seconds, the mirror-mode
 * check at start-up, the `restoring` reset when the server starts, and the
 * server-stop hook that `doRestore` installs. The restore flags themselves
 * (`reason`, `blockPlayerJoin`, `disableSaving`, `disableWatchdog`, `restoring`)
 * are fields of the coordinator's `Server`.
 */
module XBackup {
  import opened Wrappers
  import opened Paths
  import opened Store
  import opened Trace
  import opened Coordinator

  /** `serverStopHook`: nothing (`{}`), or the restore that `doRestore` leaves for shutdown. */
  datatype StopHook = NoHook | RestoreHook(id: int, forceStop: bool, singleplayer: bool)

  /** Why `ensureNotBusy` throws: `require(server.isOnThread)`, or "Backup is already running". */
  datatype BusyError = NotOnServerThread | AlreadyRunning

  /** Kotlin's `Long` division by a positive divisor: truncates toward zero. */
  function TruncDiv(a: int, b: int): (q: int)
    requires b > 0
    ensures a >= 0 ==> q == a / b
    ensures a < 0 ==> q == -((-a) / b)
  {
    if a >= 0 then a / b else -((-a) / b)
  }

  /**
   * A scheduled backup is due when there is no backup yet, or when more whole
   * seconds than `interval` have passed since the latest one was created.
   */
  predicate Due(latestCreated: Option<int>, now: int, interval: int)
  {
    latestCreated.None? || TruncDiv(now - latestCreated.value, 1000) > interval
  }

  /** With the clock ahead of the latest backup, it is due exactly from `interval + 1` seconds on. */
  lemma DueAfterInterval(created: int, now: int, interval: int)
    requires created <= now && interval >= 0
    ensures Due(Some(created), now, interval) <==> now - created >= 1000 * (interval + 1)
  {
    var e := now - created;
    assert TruncDiv(e, 1000) == e / 1000;
    if e >= 1000 * (interval + 1) {
      assert e / 1000 >= interval + 1;
    } else {
      assert e < 1000 * (interval + 1);
      assert e / 1000 <= interval;
    }
  }

  /** Truncation: a latest backup less than a second in the future counts as zero seconds old. */
  lemma DueWithinASecondAhead(created: int, now: int, interval: int)
    requires created - 1000 < now < created
    ensures TruncDiv(now - created, 1000) == 0
    ensures Due(Some(created), now, interval) <==> interval < 0
  {
  }

  /** What the start-up check reports: the three `error(...)` calls of mirror mode. */
  datatype MirrorError = MirrorFromNotSet | MirrorFromNotADirectory | MirrorFromNotAServer

  /**
   * Mirror mode needs `mirrorFrom` set, naming a directory that holds both
   * "server.properties" and "world"; the checks run in that order.
   */
  function MirrorCheck(mirrorMode: bool, mirrorFrom: Option<Path>, fs: Tree): (r: Option<MirrorError>)
    ensures r.None? <==> (!mirrorMode || (mirrorFrom.Some? && mirrorFrom.value in fs && fs[mirrorFrom.value].Dir? &&
      mirrorFrom.value + ["server.properties"] in fs && mirrorFrom.value + ["world"] in fs))
    ensures r == Some(MirrorFromNotSet) <==> mirrorMode && mirrorFrom.None?
  {
    if !mirrorMode then None
    else if mirrorFrom.None? then Some(MirrorFromNotSet)
    else
      var dir := mirrorFrom.value;
      if dir !in fs || !fs[dir].Dir? then Some(MirrorFromNotADirectory)
      else if Resolve(dir, "server.properties") !in fs || Resolve(dir, "world") !in fs then Some(MirrorFromNotAServer)
      else None
  }

  /** What a scheduled backup records: the backup, then the database copy when the backup succeeded. */
  function ScheduledEvents(backupFails: bool): seq<Event>
  {
    [CreateBackup("Scheduled backup")] + (if backupFails then [] else [CopyDatabase])
  }

  /** The mod object: the busy lock and the server-stop hook, beside the server it serves. */
  class Mod {
    const server: Server
    const log: Log
    var isBusy: bool
    var serverStopHook: StopHook

    predicate Valid()
      reads this, server
    {
      server.Valid() && server.log == log
    }

    constructor(server: Server)
      requires server.Valid()
      ensures Valid() && this.server == server && log == server.log
      ensures !isBusy && serverStopHook == NoHook
    {
      this.server := server;
      log := server.log;
      isBusy := false;
      serverStopHook := NoHook;
    }

    /**
     * `ensureNotBusy`, up to launching the block: off the server thread it fails its
     * requirement; when busy it throws; otherwise it takes the lock. The block's
     * `finally` is `Release`.
     */
    method EnsureNotBusy(onServerThread: bool) returns (err: Option<BusyError>)
      modifies this
      ensures !onServerThread ==> err == Some(NotOnServerThread) && isBusy == old(isBusy)
      ensures onServerThread && old(isBusy) ==> err == Some(AlreadyRunning) && isBusy
      ensures onServerThread && !old(isBusy) ==> err.None? && isBusy
      ensures serverStopHook == old(serverStopHook)
    {
      if !onServerThread {
        return Some(NotOnServerThread);
      }
      if isBusy {
        return Some(AlreadyRunning);
      }
      isBusy := true;
      err := None;
    }

    /** The `finally` of the launched block: the lock is released. */
    method Release()
      modifies this
      ensures !isBusy && serverStopHook == old(serverStopHook)
    {
      isBusy := false;
    }

    /** The SERVER_STARTING listener: `restoring` goes back to false. */
    method ServerStarting()
      requires Valid()
      modifies server
      ensures Valid() && !server.restoring
      ensures server.savingDisabled == old(server.savingDisabled)
      ensures server.reason == old(server.reason) && server.players == old(server.players)
      ensures server.blockPlayerJoin == old(server.blockPlayerJoin) && server.disableSaving == old(server.disableSaving)
      ensures server.disableWatchdog == old(server.disableWatchdog)
      ensures server.running == old(server.running) && server.stopped == old(server.stopped)
    {
      server.restoring := false;
    }

    /**
     * One round of the single-version scheduler: skip when the interval is 0 or the
     * lock is held; otherwise, when a backup is due, hold the lock while backing up
     * (a failure is logged) and release it in `finally`.
     */
    method ScheduledTick(interval: int, latestCreated: Option<int>, now: int, backupFails: bool) returns (ran: bool)
      modifies this, log
      ensures ran <==> interval != 0 && !old(isBusy) && Due(latestCreated, now, interval)
      ensures log.events == old(log.events) + (if ran then ScheduledEvents(backupFails) else [])
      ensures isBusy == old(isBusy) && serverStopHook == old(serverStopHook)
    {
      ran := false;
      if interval == 0 || isBusy || !Due(latestCreated, now, interval) {
        return;
      }
      isBusy := true;
      log.events := log.events + [CreateBackup("Scheduled backup")];
      if !backupFails {
        log.events := log.events + [CopyDatabase];
      }
      isBusy := false;
      ran := true;
    }

    /** One round of the multi-version scheduler: the same, with no zero-interval guard. */
    method CoreScheduledTick(interval: int, latestCreated: Option<int>, now: int, backupFails: bool) returns (ran: bool)
      modifies this, log
      ensures ran <==> !old(isBusy) && Due(latestCreated, now, interval)
      ensures log.events == old(log.events) + (if ran then ScheduledEvents(backupFails) else [])
      ensures isBusy == old(isBusy) && serverStopHook == old(serverStopHook)
    {
      ran := false;
      if isBusy || !Due(latestCreated, now, interval) {
        return;
      }
      isBusy := true;
      log.events := log.events + [CreateBackup("Scheduled backup")];
      if !backupFails {
        log.events := log.events + [CopyDatabase];
      }
      isBusy := false;
      ran := true;
    }
  }
}
