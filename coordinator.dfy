/**
 * The per-version restore coordinator (`Impl` of 1.21.2, 1.21 and 1.20) and the
 * `Utils` helpers around it: the delay-reason message, the quiesce loop of
 * `prepareRestore`, `finishRestore`, `setAutoSaving`, `isFileInWorld` and the
 * single-implementation service lookup. The coordinator sees each world as a
 * handle; what a world's `preRestore` and `postRestore` do is modelled in the
 * Loading module.
 */
module Coordinator {
  import opened Wrappers
  import opened Paths
  import opened Trace

  /** Which `Impl` runs. */
  datatype ImplVersion = Impl1_21_2 | Impl1_21 | Impl1_20

  /**
   * What `reasonOfDelayShutdown` reads from one world, as "is non-empty" or "should
   * delay" answers. 1.21 and 1.20 read `chunksToUnload` from `unloadedChunks`, so
   * their record has no separate field for it.
   */
  datatype WorldDelays =
    | Delays1212(chunksToUnload: bool, currentChunkHolders: bool, poiUnsaved: bool,
                 unloadedChunks: bool, unloadTaskQueue: bool, worldGenScheduler: bool,
                 lightScheduler: bool, ticketManager: bool)
    | Delays121(currentChunkHolders: bool, poiUnsaved: bool, unloadedChunks: bool,
                unloadTaskQueue: bool, prioritySystem: bool, ticketManager: bool)

  /** The conditions `reasonOfDelayShutdown` can name. */
  datatype DelayName =
    | ChunksToUnload | CurrentChunkHolders | PoiUnsaved | UnloadedChunks | UnloadTaskQueue
    | WorldGenScheduler | LightScheduler | PrioritySystem | TicketManagerDelays

  /** The object each condition asks about. */
  function Subject(n: DelayName): string
  {
    match n
    case ChunksToUnload => "chunksToUnload"
    case CurrentChunkHolders => "currentChunkHolders"
    case PoiUnsaved => "pointOfInterestStorage"
    case UnloadedChunks => "unloadedChunks"
    case UnloadTaskQueue => "unloadTaskQueue"
    case WorldGenScheduler => "worldGenScheduler"
    case LightScheduler => "lightScheduler"
    case PrioritySystem => "chunkTaskPrioritySystem"
    case TicketManagerDelays => "ticketManager"
  }

  /** The question each condition asks. */
  function Query(n: DelayName): string
  {
    match n
    case PoiUnsaved => "hasUnsavedElements()"
    case WorldGenScheduler | LightScheduler | PrioritySystem | TicketManagerDelays => "shouldDelayShutdown()"
    case _ => "isNotEmpty()"
  }

  /** The text appended for each condition, such as "unloadedChunks.isNotEmpty()". */
  function Text(n: DelayName): string
  {
    Subject(n) + "." + Query(n)
  }

  function When(b: bool, n: DelayName): seq<DelayName>
  {
    if b then [n] else []
  }

  /** The conditions `reasonOfDelayShutdown` names, in its fixed order. */
  function Words(w: WorldDelays): seq<DelayName>
  {
    match w
    case Delays1212(c, h, p, u, q, g, l, t) =>
      When(c, ChunksToUnload) + When(h, CurrentChunkHolders) + When(p, PoiUnsaved) + When(u, UnloadedChunks) +
      When(q, UnloadTaskQueue) + When(g, WorldGenScheduler) + When(l, LightScheduler) + When(t, TicketManagerDelays)
    case Delays121(h, p, u, q, s, t) =>
      When(u, ChunksToUnload) + When(h, CurrentChunkHolders) + When(p, PoiUnsaved) + When(u, UnloadedChunks) +
      When(q, UnloadTaskQueue) + When(s, PrioritySystem) + When(t, TicketManagerDelays)
  }

  /** The texts of a list of conditions. */
  function Texts(ns: seq<DelayName>): (r: seq<string>)
    ensures |r| == |ns| && forall i :: 0 <= i < |ns| ==> r[i] == Text(ns[i])
  {
    seq(|ns|, i requires 0 <= i < |ns| => Text(ns[i]))
  }

  /** Whether any of the world's conditions holds. */
  predicate Delayed(w: WorldDelays)
  {
    match w
    case Delays1212(c, h, p, u, q, g, l, t) => c || h || p || u || q || g || l || t
    case Delays121(h, p, u, q, s, t) => h || p || u || q || s || t
  }

  /** `buildString`: each word followed by one space. */
  function Appended(words: seq<string>): (r: string)
    ensures r == "" <==> words == []
    decreases |words|
  {
    if words == [] then "" else words[0] + " " + Appended(words[1..])
  }

  /** `reasonOfDelayShutdown`: empty exactly when nothing delays the world. */
  function Reason(w: WorldDelays): (r: string)
    ensures r == "" <==> !Delayed(w)
  {
    Appended(Texts(Words(w)))
  }

  /** The message is the words joined by spaces, with a trailing space. */
  lemma {:induction false} AppendedIsJoin(words: seq<string>)
    ensures Appended(words) == Join(words + [""], ' ')
    decreases |words|
  {
    if words != [] {
      AppendedIsJoin(words[1..]);
      assert (words + [""])[1..] == words[1..] + [""];
      assert (words + [""])[0] == words[0];
    }
  }

  /** No condition's text contains a space. */
  lemma TextHasNoSpace(n: DelayName)
    ensures ' ' !in Text(n)
  {
    SubjectHasNoSpace(n);
    assert ' ' !in Query(n);
    assert Text(n) == Subject(n) + "." + Query(n);
  }

  lemma SubjectHasNoSpace(n: DelayName)
    ensures ' ' !in Subject(n)
  {
    match n
    case ChunksToUnload => assert ' ' !in "chunksToUnload";
    case CurrentChunkHolders => assert ' ' !in "currentChunkHolders";
    case PoiUnsaved => assert ' ' !in "pointOfInterestStorage";
    case UnloadedChunks => assert ' ' !in "unloadedChunks";
    case UnloadTaskQueue => assert ' ' !in "unloadTaskQueue";
    case WorldGenScheduler => assert ' ' !in "worldGenScheduler";
    case LightScheduler => assert ' ' !in "lightScheduler";
    case PrioritySystem => assert ' ' !in "chunkTaskPrioritySystem";
    case TicketManagerDelays => assert ' ' !in "ticketManager";
  }

  /** The message lists exactly the delaying conditions, in order: splitting it on spaces recovers their texts. */
  lemma ReasonLists(w: WorldDelays)
    ensures Split(Reason(w), ' ') == Texts(Words(w)) + [""]
  {
    var ts := Texts(Words(w));
    AppendedIsJoin(ts);
    forall i | 0 <= i < |ts + [""]| ensures ' ' !in (ts + [""])[i] {
      if i < |ts| {
        TextHasNoSpace(Words(w)[i]);
      }
    }
    JoinSplit(ts + [""], ' ');
  }

  /** In 1.21 and 1.20 the "chunksToUnload" and "unloadedChunks" reasons come and go together. */
  lemma UnloadReasonsTogether(w: WorldDelays)
    requires w.Delays121?
    ensures ChunksToUnload in Words(w) <==> UnloadedChunks in Words(w)
    ensures ChunksToUnload in Words(w) <==> w.unloadedChunks
  {
  }

  /** `server.worlds.any { reasonOfDelayShutdown(it).isNotEmpty() }`. */
  predicate AnyDelayed(worlds: seq<WorldDelays>)
  {
    exists i :: 0 <= i < |worlds| && Delayed(worlds[i])
  }

  /** The loop test as the source writes it: some world's reason message is not empty. */
  lemma AnyDelayedIffSomeReason(worlds: seq<WorldDelays>)
    ensures AnyDelayed(worlds) <==> exists i :: 0 <= i < |worlds| && Reason(worlds[i]) != ""
  {
    if AnyDelayed(worlds) {
      var i :| 0 <= i < |worlds| && Delayed(worlds[i]);
      assert Reason(worlds[i]) != "";
    }
  }

  /** A connected player and its network latency. */
  datatype Player = Player(id: int, latency: int)

  /** The disconnect messages `prepareRestore` sends, in player order. */
  function Disconnects(version: ImplVersion, players: seq<Player>, message: string): seq<Event>
  {
    if players == [] then []
    else
      var p := players[|players| - 1];
      Disconnects(version, players[..|players| - 1], message) +
      (if version == Impl1_21_2 && p.latency == 0
       then [Disconnect(p.id, "multiplayer.disconnect.duplicate_login")] else []) +
      [Disconnect(p.id, message)]
  }

  /** Every player gets the reason. */
  lemma {:induction false} DisconnectsReachEveryone(version: ImplVersion, players: seq<Player>, message: string)
    ensures forall i :: 0 <= i < |players| ==> Disconnect(players[i].id, message) in Disconnects(version, players, message)
    decreases |players|
  {
    if players != [] {
      var init := players[..|players| - 1];
      var p := players[|players| - 1];
      DisconnectsReachEveryone(version, init, message);
      var before := Disconnects(version, init, message);
      var all := Disconnects(version, players, message);
      assert all[|all| - 1] == Disconnect(p.id, message);
      assert all[..|before|] == before;
      forall i | 0 <= i < |init|
        ensures Disconnect(players[i].id, message) in all
      {
        assert players[i] == init[i];
        var k :| 0 <= k < |before| && before[k] == Disconnect(init[i].id, message);
        assert all[k] == before[k];
      }
    }
  }

  /** The zero-latency players of a list. */
  function ZeroLatency(players: seq<Player>): set<int>
  {
    set i | 0 <= i < |players| && players[i].latency == 0
  }

  /** One message per player; on 1.21.2 one more, telling of a duplicate login, per zero-latency player. */
  lemma {:induction false} DisconnectsCount(version: ImplVersion, players: seq<Player>, message: string)
    ensures |Disconnects(version, players, message)| ==
      |players| + (if version == Impl1_21_2 then |ZeroLatency(players)| else 0)
    decreases |players|
  {
    if players != [] {
      var init := players[..|players| - 1];
      var p := players[|players| - 1];
      DisconnectsCount(version, init, message);
      var zs, zs' := ZeroLatency(init), ZeroLatency(players);
      assert |init| !in zs;
      assert zs' == zs + (if p.latency == 0 then {|init|} else {});
    }
  }

  /** What one pass of the quiesce loop does to every world, then the drain of queued work. */
  function PassEvents(version: ImplVersion, worlds: seq<object>): seq<Event>
  {
    WorldSteps(version, worlds) + [RunPendingTasks]
  }

  function WorldSteps(version: ImplVersion, worlds: seq<object>): (r: seq<Event>)
  {
    if worlds == [] then []
    else
      var w := worlds[|worlds| - 1];
      WorldSteps(version, worlds[..|worlds| - 1]) +
      (if version == Impl1_21_2 then [Pre(w)] else [Pre(w), RemovePersistentTickets(w), TickChunkManager(w)])
  }

  /** `n` passes of the loop. */
  function Passes(version: ImplVersion, worlds: seq<object>, n: nat): seq<Event>
  {
    if n == 0 then [] else Passes(version, worlds, n - 1) + PassEvents(version, worlds)
  }

  /** The `Post` events of `finishRestore`, in world order. */
  function PostEach(worlds: seq<object>): (r: seq<Event>)
    ensures |r| == |worlds| && forall i :: 0 <= i < |worlds| ==> r[i] == Post(worlds[i])
  {
    seq(|worlds|, i requires 0 <= i < |worlds| => Post(worlds[i]))
  }

  /** Every world is entered once per pass, in world order. */
  lemma {:induction false} WorldStepsVisitAll(version: ImplVersion, worlds: seq<object>)
    ensures |WorldSteps(version, worlds)| == |worlds| * (if version == Impl1_21_2 then 1 else 3)
    ensures forall i :: 0 <= i < |worlds| ==> Pre(worlds[i]) in WorldSteps(version, worlds)
    decreases |worlds|
  {
    if worlds != [] {
      var init := worlds[..|worlds| - 1];
      WorldStepsVisitAll(version, init);
      forall i | 0 <= i < |worlds| ensures Pre(worlds[i]) in WorldSteps(version, worlds) {
        if i < |init| {
          assert worlds[i] == init[i];
        }
      }
    }
  }

  /** How the quiesce of `prepareRestore` ended. */
  datatype Outcome =
    | ServerStopped            // single player, or not on the server thread: the server is stopped instead
    | Quiesced(passes: nat)    // the loop ended after this many passes
    | StillDelayed(passes: nat) // every observation still showed a delay

  /** What `prepareRestore` records, by how it ended. */
  function PrepareTrace(version: ImplVersion, worlds: seq<object>, players: seq<Player>, message: string,
                        outcome: Outcome): seq<Event>
  {
    if outcome.ServerStopped? then [StopServer]
    else Disconnects(version, players, message) + Passes(version, worlds, outcome.passes)
  }

  /** What `finishRestore` records: re-entering the server loop, or every world's `postRestore`. */
  function FinishTrace(version: ImplVersion, worlds: seq<object>): seq<Event>
  {
    if version == Impl1_21_2 then [RunServer] else PostEach(worlds)
  }

  /**
   * The server and the `XBackup` flags as the coordinator sees them. The worlds'
   * delay conditions come from the host: `observed[k]` is what the loop test sees
   * before pass `k`.
   */
  class Server {
    const version: ImplVersion
    const worlds: seq<object>
    const log: Log

    var reason: string
    var blockPlayerJoin: bool
    var disableWatchdog: bool
    var disableSaving: bool
    var restoring: bool
    var running: bool
    var stopped: bool
    var players: seq<Player>
    /** Each world's `savingDisabled`, in world order. */
    var savingDisabled: seq<bool>

    predicate Valid()
      reads this
    {
      |savingDisabled| == |worlds|
    }

    /** Everything but the worlds' saving flags. */
    function Flags(): (string, seq<Player>, bool, bool, bool, bool, bool, bool)
      reads this
    {
      (reason, players, blockPlayerJoin, disableWatchdog, disableSaving, restoring, running, stopped)
    }

    constructor(version: ImplVersion, worlds: seq<object>, log: Log, players: seq<Player>)
      ensures Valid() && this.version == version && this.worlds == worlds && this.log == log
      ensures this.players == players && reason == "" && running && !stopped
      ensures !blockPlayerJoin && !disableWatchdog && !disableSaving && !restoring
      ensures forall i :: 0 <= i < |worlds| ==> !savingDisabled[i]
    {
      this.version := version;
      this.worlds := worlds;
      this.log := log;
      this.players := players;
      reason := "";
      blockPlayerJoin, disableWatchdog, disableSaving, restoring := false, false, false, false;
      running, stopped := true, false;
      savingDisabled := seq(|worlds|, i => false);
    }

    /** `setAutoSaving(v)`: every world's `savingDisabled` becomes `!v`. */
    method SetAutoSaving(autoSaving: bool)
      requires Valid()
      modifies this
      ensures Valid()
      ensures forall i :: 0 <= i < |worlds| ==> savingDisabled[i] == !autoSaving
      ensures reason == old(reason) && players == old(players) && restoring == old(restoring)
      ensures blockPlayerJoin == old(blockPlayerJoin) && disableWatchdog == old(disableWatchdog)
      ensures disableSaving == old(disableSaving) && running == old(running) && stopped == old(stopped)
    {
      for i := 0 to |worlds|
        invariant |savingDisabled| == |worlds|
        invariant forall j :: 0 <= j < i ==> savingDisabled[j] == !autoSaving
        invariant reason == old(reason) && players == old(players) && restoring == old(restoring)
        invariant blockPlayerJoin == old(blockPlayerJoin) && disableWatchdog == old(disableWatchdog)
        invariant disableSaving == old(disableSaving) && running == old(running) && stopped == old(stopped)
      {
        savingDisabled := savingDisabled[i := !autoSaving];
      }
    }

    /** Disconnect every player of a copy of the list. */
    method DisconnectAll(message: string)
      modifies log
      ensures log.events == old(log.events) + Disconnects(version, players, message)
    {
      var list := players;
      for i := 0 to |list|
        invariant log.events == old(log.events) + Disconnects(version, list[..i], message)
      {
        assert list[..i + 1][..i] == list[..i];
        if version == Impl1_21_2 && list[i].latency == 0 {
          log.events := log.events + [Disconnect(list[i].id, "multiplayer.disconnect.duplicate_login")];
        }
        log.events := log.events + [Disconnect(list[i].id, message)];
      }
      assert list[..|list|] == list;
    }

    /**
     * `prepareRestore`: record the reason, block joins and the watchdog, then either
     * stop the server or disconnect everyone and run quiesce passes until no world
     * reports a delay.
     */
    method PrepareRestore(message: string, singleplayerOrOffThread: bool, observed: seq<seq<WorldDelays>>)
      returns (outcome: Outcome)
      requires Valid()
      modifies this, log
      ensures Valid()
      ensures reason == message && blockPlayerJoin && disableWatchdog
      ensures log.events == old(log.events) + PrepareTrace(version, worlds, old(players), message, outcome)
      ensures singleplayerOrOffThread ==>
        outcome == ServerStopped && log.events == old(log.events) + [StopServer] &&
        players == old(players) && savingDisabled == old(savingDisabled)
      ensures !singleplayerOrOffThread ==>
        !outcome.ServerStopped? && players == [] &&
        log.events == old(log.events) + Disconnects(version, old(players), message) + Passes(version, worlds, outcome.passes)
      ensures outcome.Quiesced? ==> outcome.passes < |observed| && !AnyDelayed(observed[outcome.passes])
      ensures outcome.StillDelayed? ==> outcome.passes == |observed|
      ensures !outcome.ServerStopped? ==> forall k :: 0 <= k < outcome.passes ==> AnyDelayed(observed[k])
      ensures !outcome.ServerStopped? && version != Impl1_21_2 && outcome.passes > 0 ==>
        forall i :: 0 <= i < |worlds| ==> !savingDisabled[i]
      ensures (outcome.ServerStopped? || version == Impl1_21_2 || outcome.passes == 0) ==>
        savingDisabled == old(savingDisabled)
      ensures disableSaving == old(disableSaving) && restoring == old(restoring)
      ensures running == old(running) && stopped == old(stopped)
    {
      reason := message;
      blockPlayerJoin := true;
      disableWatchdog := true;
      if singleplayerOrOffThread {
        log.events := log.events + [StopServer];
        return ServerStopped;
      }
      DisconnectAll(message);
      // the network is ticked and tasks run until the player list is empty
      players := [];
      var passes := Quiesce(observed);
      outcome := if passes < |observed| then Quiesced(passes) else StillDelayed(passes);
    }

    /**
     * The quiesce loop: while some world reports a delay, enter every world's
     * `preRestore` (1.21 and 1.20 then re-enable saving, drop persistent tickets and
     * tick), then drain the server's task queue.
     */
    method Quiesce(observed: seq<seq<WorldDelays>>) returns (passes: nat)
      requires Valid()
      modifies this, log
      ensures Valid()
      ensures passes <= |observed|
      ensures passes < |observed| ==> !AnyDelayed(observed[passes])
      ensures forall k :: 0 <= k < passes ==> AnyDelayed(observed[k])
      ensures log.events == old(log.events) + Passes(version, worlds, passes)
      ensures version != Impl1_21_2 && passes > 0 ==> forall i :: 0 <= i < |worlds| ==> !savingDisabled[i]
      ensures version == Impl1_21_2 || passes == 0 ==> savingDisabled == old(savingDisabled)
      ensures Flags() == old(Flags())
    {
      passes := 0;
      while passes < |observed| && AnyDelayed(observed[passes])
        invariant Valid() && passes <= |observed|
        invariant forall k :: 0 <= k < passes ==> AnyDelayed(observed[k])
        invariant log.events == old(log.events) + Passes(version, worlds, passes)
        invariant version != Impl1_21_2 && passes > 0 ==> forall i :: 0 <= i < |worlds| ==> !savingDisabled[i]
        invariant version == Impl1_21_2 || passes == 0 ==> savingDisabled == old(savingDisabled)
        invariant Flags() == old(Flags())
        decreases |observed| - passes
      {
        QuiescePass();
        log.events := log.events + [RunPendingTasks];
        passes := passes + 1;
      }
    }

    /** One pass over the worlds. */
    method QuiescePass()
      requires Valid()
      modifies this, log
      ensures Valid()
      ensures log.events == old(log.events) + WorldSteps(version, worlds)
      ensures version != Impl1_21_2 ==> forall i :: 0 <= i < |worlds| ==> !savingDisabled[i]
      ensures version == Impl1_21_2 ==> savingDisabled == old(savingDisabled)
      ensures Flags() == old(Flags())
    {
      for i := 0 to |worlds|
        invariant Valid()
        invariant log.events == old(log.events) + WorldSteps(version, worlds[..i])
        invariant version != Impl1_21_2 ==> forall j :: 0 <= j < i ==> !savingDisabled[j]
        invariant version == Impl1_21_2 ==> savingDisabled == old(savingDisabled)
        invariant Flags() == old(Flags())
      {
        assert worlds[..i + 1][..i] == worlds[..i];
        var w := worlds[i];
        log.events := log.events + [Pre(w)];
        if version != Impl1_21_2 {
          savingDisabled := savingDisabled[i := false];
          log.events := log.events + [RemovePersistentTickets(w), TickChunkManager(w)];
        }
      }
      assert worlds[..|worlds|] == worlds;
    }

    /**
     * `finishRestore`: 1.21.2 marks the server running and re-enters its loop and
     * calls no `postRestore`; 1.21 and 1.20 clear the three flags and call
     * `postRestore` on every world in order.
     */
    method FinishRestore()
      requires Valid()
      modifies this, log
      ensures Valid()
      ensures version == Impl1_21_2 ==>
        running && !stopped && log.events == old(log.events) + [RunServer] &&
        blockPlayerJoin == old(blockPlayerJoin) && disableWatchdog == old(disableWatchdog) &&
        disableSaving == old(disableSaving)
      ensures version != Impl1_21_2 ==>
        !blockPlayerJoin && !disableWatchdog && !disableSaving &&
        log.events == old(log.events) + PostEach(worlds) &&
        running == old(running) && stopped == old(stopped)
      ensures restoring == old(restoring) && reason == old(reason) && players == old(players)
      ensures savingDisabled == old(savingDisabled)
    {
      if version == Impl1_21_2 {
        running := true;
        stopped := false;
        log.events := log.events + [RunServer];
      } else {
        blockPlayerJoin := false;
        disableWatchdog := false;
        disableSaving := false;
        log.events := log.events + PostEach(worlds);
      }
    }

    /** `Utils.finishRestore` of the multi-version build: clear the four flags, then the version's `finishRestore`. */
    method FinishRestoreCore()
      requires Valid()
      modifies this, log
      ensures Valid()
      ensures !blockPlayerJoin && !disableWatchdog && !disableSaving && !restoring
      ensures log.events == old(log.events) + FinishTrace(version, worlds)
      ensures version == Impl1_21_2 ==> running && !stopped
      ensures reason == old(reason) && players == old(players) && savingDisabled == old(savingDisabled)
    {
      blockPlayerJoin := false;
      disableWatchdog := false;
      disableSaving := false;
      restoring := false;
      FinishRestore();
    }

    /** `Utils.finishRestore` of the single-version build: clear the four flags and re-enter the server loop. */
    method FinishRestoreSingle()
      modifies this, log
      ensures !blockPlayerJoin && !disableWatchdog && !disableSaving && !restoring
      ensures running && !stopped && log.events == old(log.events) + [RunServer]
      ensures savingDisabled == old(savingDisabled) && reason == old(reason) && players == old(players)
    {
      blockPlayerJoin := false;
      disableWatchdog := false;
      disableSaving := false;
      restoring := false;
      running := true;
      stopped := false;
      log.events := log.events + [RunServer];
    }
  }

  /** `isFileInWorld`: the normalised path lies under the world's normalised save directory. */
  predicate IsFileInWorld(saveDir: Path, p: Path)
  {
    IsPrefix(Normalize(saveDir), Normalize(p))
  }

  /** Plain names: none is ".", ".." or empty. */
  predicate Plain(names: Path)
  {
    forall i :: 0 <= i < |names| ==> names[i] != "." && names[i] != ".." && names[i] != ""
  }

  /** Normalising from an accumulated prefix, in two pieces. */
  lemma {:induction false} NormalizeFromAppend(acc: Path, p: Path, q: Path)
    ensures NormalizeFrom(acc, p + q) == NormalizeFrom(NormalizeFrom(acc, p), q)
    decreases |p|
  {
    if p != [] {
      assert (p + q)[0] == p[0] && (p + q)[1..] == p[1..] + q;
      NormalizeFromAppend(NormalizeStep(acc, p[0]), p[1..], q);
    } else {
      assert p + q == q;
    }
  }

  /** Plain names are appended by normalisation unchanged. */
  lemma {:induction false} NormalizeFromPlain(acc: Path, names: Path)
    requires Plain(names)
    ensures NormalizeFrom(acc, names) == acc + names
    decreases |names|
  {
    if names != [] {
      NormalizeFromPlain(acc + [names[0]], names[1..]);
      assert acc + [names[0]] + names[1..] == acc + names;
    }
  }

  /** Every file reached from the save directory by plain names is in the world. */
  lemma FileUnderSaveDirIsInWorld(saveDir: Path, names: Path)
    requires Plain(names)
    ensures IsFileInWorld(saveDir, saveDir + names)
  {
    NormalizeFromAppend([], saveDir, names);
    NormalizeFromPlain(Normalize(saveDir), names);
  }

  /** A path that climbs out with ".." is not in the world, though it starts with the save directory. */
  lemma ClimbingOutIsNotInWorld()
    ensures IsPrefix(["world"], ["world", "..", "other"])
    ensures !IsFileInWorld(["world"], ["world", "..", "other"])
  {
    assert Normalize(["world"]) == ["world"];
    assert NormalizeStep([], "world") == ["world"];
    assert NormalizeStep(["world"], "..") == [];
    assert NormalizeFrom([], ["world", "..", "other"]) == NormalizeFrom(["world"], ["..", "other"]);
    assert NormalizeFrom(["world"], ["..", "other"]) == NormalizeFrom([], ["other"]);
    assert Normalize(["world", "..", "other"]) == ["other"];
  }

  /** `ServiceLoader.load(...).single()`: exactly one implementation, or an error. */
  function SingleService<T>(implementations: seq<T>): (r: Result<T, string>)
    ensures r.Success? <==> |implementations| == 1
    ensures r.Success? ==> r.value in implementations
  {
    if |implementations| == 1 then Success(implementations[0])
    else Failure(if implementations == [] then "Collection is empty." else "Collection has more than one element.")
  }
}
