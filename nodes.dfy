/**
 * The cache and queue nodes of the restore tree: the chunk ticket manager (LIGHT
 * ticket removal), the level-prioritized queues, the task-priority system's control
 * actor, the entity chunk data access and the server entity manager.
 */
module Nodes {
  import opened Trace
  import opened RegionStorage
  import opened IoWorker

  /** The ticket types the purge tells apart. */
  datatype TicketType = Light | OtherTicket(name: string)

  datatype Ticket = Ticket(ticketType: TicketType, level: int)

  /** The tickets of one position that are not LIGHT, in their order. */
  function NonLight(ts: seq<Ticket>): (r: seq<Ticket>)
    ensures |r| <= |ts|
  {
    if ts == [] then []
    else (if ts[0].ticketType == Light then [] else [ts[0]]) + NonLight(ts[1..])
  }

  /** Whether a position holds a LIGHT ticket. */
  predicate HasLight(ts: seq<Ticket>)
    decreases |ts|
  {
    ts != [] && (ts[0].ticketType == Light || HasLight(ts[1..]))
  }

  /** A position has a LIGHT ticket exactly when the purge changes its tickets. */
  lemma {:induction false} HasLightIffChanged(ts: seq<Ticket>)
    ensures HasLight(ts) <==> NonLight(ts) != ts
    decreases |ts|
  {
    if ts != [] {
      HasLightIffChanged(ts[1..]);
      if ts[0].ticketType == Light {
        assert |NonLight(ts)| <= |ts[1..]| < |ts|;
      } else {
        assert NonLight(ts) == [ts[0]] + NonLight(ts[1..]);
        if NonLight(ts[1..]) != ts[1..] {
          assert NonLight(ts)[1..] == NonLight(ts[1..]);
        } else {
          assert ts == [ts[0]] + ts[1..];
        }
      }
    }
  }

  /** The `simulationDistanceTracker.remove` calls the purge of one position makes, in order. */
  function LightRemovals(pos: int, ts: seq<Ticket>): (r: seq<(int, Ticket)>)
    ensures |r| <= |ts|
    decreases |ts|
  {
    if ts == [] then []
    else (if ts[0].ticketType == Light then [(pos, ts[0])] else []) + LightRemovals(pos, ts[1..])
  }

  /** The purge keeps exactly the tickets that are not LIGHT. */
  lemma {:induction false} NonLightMembers(ts: seq<Ticket>)
    ensures forall t :: t in NonLight(ts) <==> t in ts && t.ticketType != Light
    decreases |ts|
  {
    if ts != [] {
      NonLightMembers(ts[1..]);
      assert ts == [ts[0]] + ts[1..];
    }
  }

  /** The purge of one position removes exactly its LIGHT tickets, and something iff it has one. */
  lemma {:induction false} LightRemovalsMembers(pos: int, ts: seq<Ticket>)
    ensures forall x :: x in LightRemovals(pos, ts) <==> x.0 == pos && x.1 in ts && x.1.ticketType == Light
    ensures LightRemovals(pos, ts) == [] <==> !HasLight(ts)
    decreases |ts|
  {
    if ts != [] {
      LightRemovalsMembers(pos, ts[1..]);
      assert ts == [ts[0]] + ts[1..];
    }
  }

  /** `ticketsByPosition` after the purge: LIGHT tickets gone, emptied positions removed. */
  function Purged(tickets: map<int, seq<Ticket>>): (r: map<int, seq<Ticket>>)
    ensures forall p :: p in r <==> p in tickets && NonLight(tickets[p]) != []
    ensures forall p :: p in r ==> r[p] == NonLight(tickets[p])
  {
    map p | p in tickets && NonLight(tickets[p]) != [] :: NonLight(tickets[p])
  }

  /** No position is visited twice. */
  predicate Distinct(visited: seq<int>)
  {
    forall i, j :: 0 <= i < j < |visited| ==> visited[i] != visited[j]
  }

  /** The tickets after purging the positions of `visited`, in that order. */
  function PurgedAlong(tickets: map<int, seq<Ticket>>, visited: seq<int>): map<int, seq<Ticket>>
    requires forall p :: p in visited ==> p in tickets
  {
    if visited == [] then tickets
    else
      var rest := PurgedAlong(tickets, visited[..|visited| - 1]);
      var p := visited[|visited| - 1];
      if NonLight(tickets[p]) == [] then rest - {p} else rest[p := NonLight(tickets[p])]
  }

  lemma PurgedAlongSnoc(tickets: map<int, seq<Ticket>>, visited: seq<int>, p: int)
    requires forall q :: q in visited ==> q in tickets
    requires p in tickets
    ensures PurgedAlong(tickets, visited + [p]) ==
      if NonLight(tickets[p]) == [] then PurgedAlong(tickets, visited) - {p}
      else PurgedAlong(tickets, visited)[p := NonLight(tickets[p])]
  {
    assert (visited + [p])[..|visited|] == visited;
  }

  /** Purging positions one at a time leaves the visited ones purged and the rest as they were. */
  lemma {:induction false} PurgedAlongPartly(tickets: map<int, seq<Ticket>>, visited: seq<int>)
    requires forall p :: p in visited ==> p in tickets
    requires Distinct(visited)
    ensures forall p :: p in PurgedAlong(tickets, visited) <==>
      (p in tickets && (p !in visited || NonLight(tickets[p]) != []))
    ensures forall p :: p in PurgedAlong(tickets, visited) ==>
      PurgedAlong(tickets, visited)[p] == if p in visited then NonLight(tickets[p]) else tickets[p]
    decreases |visited|
  {
    if visited != [] {
      var init := visited[..|visited| - 1];
      var last := visited[|visited| - 1];
      assert visited == init + [last];
      assert Distinct(init) && last !in init;
      PurgedAlongPartly(tickets, init);
    }
  }

  /** Purging every position in any order is the purge. */
  lemma PurgedAlongAll(tickets: map<int, seq<Ticket>>, visited: seq<int>)
    requires forall p :: p in visited <==> p in tickets
    requires Distinct(visited)
    ensures PurgedAlong(tickets, visited) == Purged(tickets)
  {
    PurgedAlongPartly(tickets, visited);
    var a, b := PurgedAlong(tickets, visited), Purged(tickets);
    assert forall p :: p in a <==> p in b;
    assert forall p :: p in a ==> a[p] == b[p];
  }

  /** The purge of a position's tickets, one ticket more at the end. */
  lemma {:induction false} NonLightSnoc(ts: seq<Ticket>, t: Ticket)
    ensures NonLight(ts + [t]) == NonLight(ts) + (if t.ticketType == Light then [] else [t])
    decreases |ts|
  {
    var last: seq<Ticket> := if t.ticketType == Light then [] else [t];
    if ts == [] {
      assert [t][1..] == [];
      assert NonLight([t]) == last + NonLight([]);
    } else {
      var head: seq<Ticket> := if ts[0].ticketType == Light then [] else [ts[0]];
      NonLightSnoc(ts[1..], t);
      assert (ts + [t])[0] == ts[0] && (ts + [t])[1..] == ts[1..] + [t];
      calc {
        NonLight(ts + [t]);
        head + NonLight(ts[1..] + [t]);
        head + (NonLight(ts[1..]) + last);
        (head + NonLight(ts[1..])) + last;
        NonLight(ts) + last;
      }
    }
  }

  lemma {:induction false} LightRemovalsSnoc(pos: int, ts: seq<Ticket>, t: Ticket)
    ensures LightRemovals(pos, ts + [t]) == LightRemovals(pos, ts) + (if t.ticketType == Light then [(pos, t)] else [])
    decreases |ts|
  {
    var last: seq<(int, Ticket)> := if t.ticketType == Light then [(pos, t)] else [];
    if ts == [] {
      assert [t][1..] == [];
      assert LightRemovals(pos, [t]) == last + LightRemovals(pos, []);
    } else {
      var head: seq<(int, Ticket)> := if ts[0].ticketType == Light then [(pos, ts[0])] else [];
      LightRemovalsSnoc(pos, ts[1..], t);
      assert (ts + [t])[0] == ts[0] && (ts + [t])[1..] == ts[1..] + [t];
      calc {
        LightRemovals(pos, ts + [t]);
        head + LightRemovals(pos, ts[1..] + [t]);
        head + (LightRemovals(pos, ts[1..]) + last);
        (head + LightRemovals(pos, ts[1..])) + last;
        LightRemovals(pos, ts) + last;
      }
    }
  }

  lemma {:induction false} HasLightSnoc(ts: seq<Ticket>, t: Ticket)
    ensures HasLight(ts + [t]) <==> HasLight(ts) || t.ticketType == Light
    decreases |ts|
  {
    if ts == [] {
      assert [t][1..] == [];
    } else {
      HasLightSnoc(ts[1..], t);
      assert (ts + [t])[1..] == ts[1..] + [t];
    }
  }

  /** Purging twice is purging once. */
  lemma {:induction false} NonLightIdempotent(ts: seq<Ticket>)
    ensures NonLight(NonLight(ts)) == NonLight(ts)
    decreases |ts|
  {
    if ts != [] {
      NonLightIdempotent(ts[1..]);
      if ts[0].ticketType != Light {
        var r := NonLight(ts);
        assert r == [ts[0]] + NonLight(ts[1..]);
        assert r[0] == ts[0] && r[1..] == NonLight(ts[1..]);
        assert NonLight(r) == [r[0]] + NonLight(r[1..]);
      } else {
        assert NonLight(ts) == NonLight(ts[1..]);
      }
    }
  }

  /** The purge leaves no LIGHT ticket and is idempotent. */
  lemma PurgedIdempotent(tickets: map<int, seq<Ticket>>)
    ensures forall p :: p in Purged(tickets) ==> !HasLight(Purged(tickets)[p])
    ensures Purged(Purged(tickets)) == Purged(tickets)
  {
    forall p | p in Purged(tickets)
      ensures NonLight(Purged(tickets)[p]) == Purged(tickets)[p] && !HasLight(Purged(tickets)[p])
    {
      NonLightIdempotent(tickets[p]);
      HasLightIffChanged(Purged(tickets)[p]);
    }
  }

  /** The remove calls of a whole purge, positions taken in `visited` order. */
  function Removals(visited: seq<int>, tickets: map<int, seq<Ticket>>): seq<(int, Ticket)>
    requires forall p :: p in visited ==> p in tickets
  {
    if visited == [] then []
    else
      var last := visited[|visited| - 1];
      Removals(visited[..|visited| - 1], tickets) + LightRemovals(last, tickets[last])
  }

  /** The `updateLevel` calls of a whole purge, positions taken in `visited` order. */
  function Updates(visited: seq<int>, tickets: map<int, seq<Ticket>>, level: int): seq<(int, int)>
    requires forall p :: p in visited ==> p in tickets
  {
    if visited == [] then []
    else
      var last := visited[|visited| - 1];
      Updates(visited[..|visited| - 1], tickets, level) + (if HasLight(tickets[last]) then [(last, level)] else [])
  }

  lemma RemovalsSnoc(visited: seq<int>, p: int, tickets: map<int, seq<Ticket>>)
    requires forall q :: q in visited ==> q in tickets
    requires p in tickets
    ensures Removals(visited + [p], tickets) == Removals(visited, tickets) + LightRemovals(p, tickets[p])
    ensures Updates(visited + [p], tickets, 0) == Updates(visited, tickets, 0) + (if HasLight(tickets[p]) then [(p, 0)] else [])
  {
    assert (visited + [p])[..|visited|] == visited;
  }

  lemma UpdatesSnoc(visited: seq<int>, p: int, tickets: map<int, seq<Ticket>>, level: int)
    requires forall q :: q in visited ==> q in tickets
    requires p in tickets
    ensures Updates(visited + [p], tickets, level) == Updates(visited, tickets, level) + (if HasLight(tickets[p]) then [(p, level)] else [])
  {
    assert (visited + [p])[..|visited|] == visited;
  }

  /** A purge updates the level of exactly the positions that held a LIGHT ticket, once each. */
  lemma {:induction false} UpdatesExactlyLight(visited: seq<int>, tickets: map<int, seq<Ticket>>, level: int)
    requires forall p :: p in visited ==> p in tickets
    requires forall i, j :: 0 <= i < j < |visited| ==> visited[i] != visited[j]
    ensures forall x :: x in Updates(visited, tickets, level) <==> x.0 in visited && HasLight(tickets[x.0]) && x.1 == level
    ensures |Updates(visited, tickets, level)| <= |visited|
    decreases |visited|
  {
    if visited != [] {
      UpdatesExactlyLight(visited[..|visited| - 1], tickets, level);
      assert visited == visited[..|visited| - 1] + [visited[|visited| - 1]];
    }
  }

  /** A purge removes from the simulation tracker exactly the LIGHT tickets of the visited positions. */
  lemma {:induction false} RemovalsExactlyLight(visited: seq<int>, tickets: map<int, seq<Ticket>>)
    requires forall p :: p in visited ==> p in tickets
    ensures forall x :: x in Removals(visited, tickets) <==>
      (x.0 in visited && x.1 in tickets[x.0] && x.1.ticketType == Light)
    decreases |visited|
  {
    if visited != [] {
      var last := visited[|visited| - 1];
      RemovalsExactlyLight(visited[..|visited| - 1], tickets);
      LightRemovalsMembers(last, tickets[last]);
      assert visited == visited[..|visited| - 1] + [last];
    }
  }

  /**
   * The inner loop of the purge for one position: drop its LIGHT tickets in order,
   * handing each to the simulation tracker. Returns what is kept, whether anything
   * was removed, and the tracker calls made.
   */
  method PurgePosition(pos: int, ts: seq<Ticket>) returns (kept: seq<Ticket>, removedAny: bool, ghost removed: seq<(int, Ticket)>)
    ensures kept == NonLight(ts) && (removedAny <==> HasLight(ts))
    ensures removed == LightRemovals(pos, ts)
  {
    kept := [];
    removedAny := false;
    removed := [];
    for i := 0 to |ts|
      invariant kept == NonLight(ts[..i])
      invariant removedAny <==> HasLight(ts[..i])
      invariant removed == LightRemovals(pos, ts[..i])
    {
      NonLightSnoc(ts[..i], ts[i]);
      LightRemovalsSnoc(pos, ts[..i], ts[i]);
      HasLightSnoc(ts[..i], ts[i]);
      assert ts[..i + 1] == ts[..i] + [ts[i]];
      if ts[i].ticketType == Light {
        removedAny := true;
        removed := removed + [(pos, ts[i])];
      } else {
        kept := kept + [ts[i]];
      }
    }
    assert ts[..|ts|] == ts;
  }

  /** A position held as a hash-map key. */
  datatype Key = Key(position: int)

  /** The positions of `keys` in an order the model does not fix (the hash map's iteration order). */
  method SomeOrder(keys: set<int>) returns (order: seq<int>)
    ensures forall p :: p in order <==> p in keys
    ensures Distinct(order)
  {
    order := [];
    var todo := set p | p in keys :: Key(p);
    while todo != {}
      invariant forall p :: p in order <==> p in keys && Key(p) !in todo
      invariant forall k :: k in todo ==> k.position in keys
      invariant Distinct(order)
      decreases |todo|
    {
      var k :| k in todo;
      order := order + [k.position];
      todo := todo - {k};
    }
  }

  /**
   * The purge loop over every position, in an order the model does not fix: the
   * purged tickets, the level updates and the simulation-tracker removals it makes.
   */
  method Purge(before: map<int, seq<Ticket>>, level: int)
    returns (tickets: map<int, seq<Ticket>>, updates: seq<(int, int)>, ghost removals: seq<(int, Ticket)>, order: seq<int>)
    ensures Distinct(order) && forall p :: p in order <==> p in before
    ensures tickets == Purged(before)
    ensures updates == Updates(order, before, level)
    ensures removals == Removals(order, before)
  {
    order := SomeOrder(before.Keys);
    tickets := before;
    updates := [];
    removals := [];
    for i := 0 to |order|
      invariant tickets == PurgedAlong(before, order[..i])
      invariant removals == Removals(order[..i], before)
      invariant updates == Updates(order[..i], before, level)
    {
      var pos := order[i];
      var kept, removedAny, removed := PurgePosition(pos, before[pos]);
      assert order[..i + 1] == order[..i] + [pos];
      RemovalsSnoc(order[..i], pos, before);
      UpdatesSnoc(order[..i], pos, before, level);
      PurgedAlongSnoc(before, order[..i], pos);
      removals := removals + removed;
      if removedAny {
        updates := updates + [(pos, level)];
      }
      if kept == [] {
        tickets := tickets - {pos};
      } else {
        tickets := tickets[pos := kept];
      }
    }
    assert order[..|order|] == order;
    PurgedAlongAll(before, order);
  }

  /**
   * `ChunkTicketManager`. In 1.20.1 `preRestore` removes every LIGHT ticket; in
   * 1.21 both methods are empty. The calls the purge makes into the two level
   * trackers are recorded in ghost fields.
   */
  /**
   * The 1.20.1 purge, visiting the positions of `before` in the order `visited`:
   * each position once, the LIGHT tickets gone, one removal per LIGHT ticket and one
   * level update per position that lost any, appended to the earlier calls.
   */
  ghost predicate PurgedInOrder(before: map<int, seq<Ticket>>, visited: seq<int>, after: map<int, seq<Ticket>>,
                                removals: seq<(int, Ticket)>, removals0: seq<(int, Ticket)>,
                                updates: seq<(int, int)>, updates0: seq<(int, int)>, level: int)
  {
    Distinct(visited) && (forall p :: p in visited <==> p in before) &&
    after == Purged(before) &&
    removals == removals0 + Removals(visited, before) &&
    updates == updates0 + Updates(visited, before, level)
  }

  class TicketManager {
    const purgesLight: bool
    /** `ChunkLevels.INACCESSIBLE`, a constant of the host. */
    const inaccessible: int
    const log: Log

    var ticketsByPosition: map<int, seq<Ticket>>
    /** `simulationDistanceTracker.remove` calls: position and ticket. */
    ghost var simulationRemovals: seq<(int, Ticket)>
    /** `distanceFromTicketTracker.updateLevel` calls: position and level. */
    ghost var levelUpdates: seq<(int, int)>

    constructor(purgesLight: bool, inaccessible: int, log: Log, tickets: map<int, seq<Ticket>>)
      ensures this.purgesLight == purgesLight && this.inaccessible == inaccessible && this.log == log
      ensures ticketsByPosition == tickets && simulationRemovals == [] && levelUpdates == []
    {
      this.purgesLight := purgesLight;
      this.inaccessible := inaccessible;
      this.log := log;
      ticketsByPosition := tickets;
      simulationRemovals := [];
      levelUpdates := [];
    }

    /**
     * `preRestore` (1.20.1): every position in turn loses its LIGHT tickets; a
     * position that lost any gets one level update to `inaccessible + 1`; a position
     * left with no ticket is removed. Other tickets stay as they were.
     */
    method PreRestore() returns (ghost appended: seq<Event>, ghost visited: seq<int>)
      modifies this, log
      ensures log.events == old(log.events) + appended && appended == [Pre(this)]
      ensures !purgesLight ==>
        (ticketsByPosition == old(ticketsByPosition) && visited == [] &&
         simulationRemovals == old(simulationRemovals) && levelUpdates == old(levelUpdates))
      ensures purgesLight ==>
        PurgedInOrder(old(ticketsByPosition), visited, ticketsByPosition,
          simulationRemovals, old(simulationRemovals), levelUpdates, old(levelUpdates), inaccessible + 1)
    {
      log.events := log.events + [Pre(this)];
      appended := [Pre(this)];
      visited := [];
      if !purgesLight {
        return;
      }
      var tickets, updates, removals, order := Purge(ticketsByPosition, inaccessible + 1);
      visited := order;
      ticketsByPosition := tickets;
      levelUpdates := levelUpdates + updates;
      simulationRemovals := simulationRemovals + removals;
    }

    /** `postRestore`: nothing. */
    method PostRestore() returns (ghost appended: seq<Event>)
      modifies log
      ensures log.events == old(log.events) + appended && appended == [Post(this)]
    {
      log.events := log.events + [Post(this)];
      appended := [Post(this)];
    }
  }

  /** Which `LevelPrioritizedQueue` mixin a queue carries. */
  datatype QueueVersion =
    | LightOnly1_21_2   // clears only the queue named "light_queue", and resets `topPriority`
    | Levels1_21        // clears every level and resets `firstNonEmptyLevel`
    | Blocking1_20      // clears `blockingChunks`

  /** Every level of the queue is empty. */
  predicate AllEmpty(levels: seq<map<int, seq<int>>>)
  {
    forall i :: 0 <= i < |levels| ==> levels[i] == map[]
  }

  /**
   * `LevelPrioritizedQueue`: one map from chunk position to waiting tasks per level
   * (the list holds `LEVEL_COUNT` levels), the lowest non-empty level, and in 1.20
   * the set of blocking chunks.
   */
  class LevelQueue {
    const version: QueueVersion
    const name: string
    const log: Log

    var levels: seq<map<int, seq<int>>>
    /** `topPriority` (1.21.2) or `firstNonEmptyLevel` (1.21). */
    var topPriority: int
    var blockingChunks: set<int>

    constructor(version: QueueVersion, name: string, log: Log, levels: seq<map<int, seq<int>>>, topPriority: int, blockingChunks: set<int>)
      ensures this.version == version && this.name == name && this.log == log
      ensures this.levels == levels && this.topPriority == topPriority && this.blockingChunks == blockingChunks
    {
      this.version := version;
      this.name := name;
      this.log := log;
      this.levels := levels;
      this.topPriority := topPriority;
      this.blockingChunks := blockingChunks;
    }

    /** Whether `preRestore` empties the levels of this queue. */
    predicate ClearsLevels()
    {
      version == Levels1_21 || (version == LightOnly1_21_2 && name == "light_queue")
    }

    /** The state `preRestore` leaves: nothing waiting that the restore could race with. */
    predicate Quiesced()
      reads this
    {
      (ClearsLevels() ==> AllEmpty(levels) && topPriority == |levels|) &&
      (version == Blocking1_20 ==> blockingChunks == {})
    }

    /** `preRestore`: clear every level (when this version does) and reset the top level, or clear the blocking set. */
    method PreRestore() returns (ghost appended: seq<Event>)
      modifies this, log
      ensures log.events == old(log.events) + appended && appended == [Pre(this)]
      ensures Quiesced()
      ensures |levels| == old(|levels|)
      ensures !ClearsLevels() ==> levels == old(levels) && topPriority == old(topPriority)
      ensures version != Blocking1_20 ==> blockingChunks == old(blockingChunks)
    {
      log.events := log.events + [Pre(this)];
      appended := [Pre(this)];
      if ClearsLevels() {
        levels := Cleared(levels);
        topPriority := |levels|;
      }
      if version == Blocking1_20 {
        blockingChunks := {};
      }
    }

    /** `postRestore`: nothing. */
    method PostRestore() returns (ghost appended: seq<Event>)
      modifies log
      ensures log.events == old(log.events) + appended && appended == [Post(this)]
    {
      log.events := log.events + [Post(this)];
      appended := [Post(this)];
    }
  }

  /** `values.forEach(clear)`: every level emptied in turn, the list keeping its length. */
  method Cleared(levels: seq<map<int, seq<int>>>) returns (r: seq<map<int, seq<int>>>)
    ensures |r| == |levels| && AllEmpty(r)
  {
    r := levels;
    for i := 0 to |r|
      invariant |r| == |levels|
      invariant forall j :: 0 <= j < i ==> r[j] == map[]
    {
      r := r[i := map[]];
    }
  }

  /** The `Pre` events of the queues, in order. */
  function PreEach(queues: seq<LevelQueue>): (r: seq<Event>)
    ensures |r| == |queues| && forall i :: 0 <= i < |queues| ==> r[i] == Pre(queues[i])
  {
    seq(|queues|, i requires 0 <= i < |queues| => Pre(queues[i]))
  }

  lemma PreEachSnoc(queues: seq<LevelQueue>, i: nat)
    requires i < |queues|
    ensures PreEach(queues[..i + 1]) == PreEach(queues[..i]) + [Pre(queues[i])]
  {
  }

  /** A task sent to the 1.21 task-priority system's control actor. */
  datatype ControlTask = PreRestoreQueues(priority: int)

  /**
   * `ChunkTaskPrioritySystem` (1.21): both `preRestore` and `postRestore` send the
   * control actor a priority-0 task that calls `preRestore` on every queue.
   */
  class TaskPrioritySystem {
    /** `queues.values()`, in the map's order. */
    const queues: seq<LevelQueue>
    const log: Log

    var control: seq<ControlTask>

    function Footprint(): set<object>
    {
      {this} + set i | 0 <= i < |queues| :: queues[i]
    }

    predicate Valid()
      reads Footprint()
    {
      (forall i, j :: 0 <= i < j < |queues| ==> queues[i] != queues[j]) &&
      (forall i :: 0 <= i < |queues| ==> queues[i].log == log)
    }

    constructor(queues: seq<LevelQueue>, log: Log)
      requires forall i, j :: 0 <= i < j < |queues| ==> queues[i] != queues[j]
      requires forall i :: 0 <= i < |queues| ==> queues[i].log == log
      ensures Valid() && this.queues == queues && this.log == log && control == []
    {
      this.queues := queues;
      this.log := log;
      control := [];
    }

    /** `preRestore`: the control job is sent, not run. */
    method PreRestore() returns (ghost appended: seq<Event>)
      modifies this, log
      ensures log.events == old(log.events) + appended && appended == [Pre(this)]
      ensures control == old(control) + [PreRestoreQueues(0)]
    {
      log.events := log.events + [Pre(this)];
      appended := [Pre(this)];
      control := control + [PreRestoreQueues(0)];
    }

    /** `postRestore`: sends the same task again, which quiesces the queues once more. */
    method PostRestore() returns (ghost appended: seq<Event>)
      modifies this, log
      ensures log.events == old(log.events) + appended && appended == [Post(this)]
      ensures control == old(control) + [PreRestoreQueues(0)]
    {
      log.events := log.events + [Post(this)];
      appended := [Post(this)];
      control := control + [PreRestoreQueues(0)];
    }

    /** The control actor runs its next task: every queue's `preRestore`, in order. */
    method RunControl() returns (ghost appended: seq<Event>)
      requires Valid() && control != []
      modifies Footprint(), log
      ensures Valid()
      ensures control == old(control)[1..]
      ensures log.events == old(log.events) + appended && appended == PreEach(queues)
      ensures forall i :: 0 <= i < |queues| ==> queues[i].Quiesced()
    {
      control := control[1..];
      for i := 0 to |queues|
        invariant control == old(control)[1..]
        invariant log.events == old(log.events) + PreEach(queues[..i])
        invariant forall j :: 0 <= j < i ==> queues[j].Quiesced()
      {
        var _ := queues[i].PreRestore();
        PreEachSnoc(queues, i);
      }
      assert queues[..|queues|] == queues;
      appended := PreEach(queues);
    }
  }

  /**
   * `EntityChunkDataAccess`: both methods clear the set of chunks known to hold no
   * entities and forward to the entity storage's I/O worker.
   */
  class DataAccess {
    const worker: Worker
    const log: Log

    var emptyChunks: set<int>

    function Footprint(): set<object>
    {
      {this} + worker.Footprint()
    }

    predicate Valid()
      reads Footprint()
    {
      worker.log == log && worker.Valid()
    }

    constructor(worker: Worker, log: Log, emptyChunks: set<int>)
      requires worker.log == log && worker.Valid()
      ensures Valid() && this.worker == worker && this.log == log && this.emptyChunks == emptyChunks
    {
      this.worker := worker;
      this.log := log;
      this.emptyChunks := emptyChunks;
    }

    method PreRestore() returns (ghost appended: seq<Event>, ghost fromWorker: seq<Event>)
      requires Valid()
      modifies Footprint(), log
      ensures Valid()
      ensures log.events == old(log.events) + appended && appended == [Pre(this)] + fromWorker
      ensures |fromWorker| > 0 && fromWorker[0] == Pre(worker)
      ensures emptyChunks == {}
      ensures worker.storage != null ==> worker.restoring == worker.variant.HasFlag() && worker.results == []
    {
      log.events := log.events + [Pre(this)];
      emptyChunks := {};
      ghost var drained, fromStorage;
      fromWorker, drained, fromStorage := worker.PreRestore();
      appended := [Pre(this)] + fromWorker;
    }

    method PostRestore() returns (ghost appended: seq<Event>, ghost fromWorker: seq<Event>)
      requires Valid()
      modifies Footprint(), log
      ensures Valid()
      ensures log.events == old(log.events) + appended && appended == [Post(this)] + fromWorker
      ensures |fromWorker| > 0 && fromWorker[0] == Post(worker)
      ensures emptyChunks == {}
      ensures worker.storage != null ==> !worker.restoring
    {
      log.events := log.events + [Post(this)];
      emptyChunks := {};
      ghost var drained, fromStorage;
      fromWorker, drained, fromStorage := worker.PostRestore();
      appended := [Post(this)] + fromWorker;
    }
  }

  /** `EntityTrackingStatus`, and the load status the manager keeps per chunk. */
  datatype Tracking = Hidden | Tracked | Ticking
  datatype LoadStatus = FreshStatus | PendingStatus | LoadedStatus

  /** The chunks `getLoadedChunks` reports: those whose status is LOADED. */
  function LoadedChunks(statuses: map<int, LoadStatus>): (r: set<int>)
    ensures forall p :: p in r <==> p in statuses && statuses[p] == LoadedStatus
  {
    set p | p in statuses && statuses[p] == LoadedStatus
  }

  /** The `unload` calls for `chunks`, in order. */
  function Unloads(manager: object, chunks: seq<int>): (r: seq<Event>)
    ensures |r| == |chunks| && forall i :: 0 <= i < |chunks| ==> r[i] == Unload(manager, chunks[i])
  {
    seq(|chunks|, i requires 0 <= i < |chunks| => Unload(manager, chunks[i]))
  }

  /** `SectionedEntityCache`, `EntityIndex` and `SimpleEntityLookup`, as identities. */
  class EntityCache {
    constructor() {}
  }

  class EntityIndex {
    constructor() {}
  }

  class EntityLookup {
    const index: EntityIndex
    const cache: EntityCache

    constructor(index: EntityIndex, cache: EntityCache)
      ensures this.index == index && this.cache == cache
    {
      this.index := index;
      this.cache := cache;
    }
  }

  /**
   * `ServerEntityManager` (1.21): `preRestore` unloads every loaded chunk, empties
   * the status maps and queues and forwards to its data access; `postRestore`
   * empties them again, forgets every entity UUID, replaces the cache, index and
   * lookup by new ones and forwards.
   */
  class EntityManager {
    const dataAccess: DataAccess
    const log: Log

    var managedStatuses: map<int, LoadStatus>
    var trackingStatuses: map<int, Tracking>
    var pendingUnloads: set<int>
    var loadingQueue: seq<int>
    var entityUuids: set<int>
    var cache: EntityCache
    var index: EntityIndex
    var lookup: EntityLookup

    function Footprint(): set<object>
    {
      {this} + dataAccess.Footprint()
    }

    predicate Valid()
      reads Footprint()
    {
      dataAccess.log == log && dataAccess.Valid()
    }

    constructor(dataAccess: DataAccess, log: Log, managedStatuses: map<int, LoadStatus>, entityUuids: set<int>)
      requires dataAccess.log == log && dataAccess.Valid()
      ensures Valid() && this.dataAccess == dataAccess && this.log == log
      ensures this.managedStatuses == managedStatuses && this.entityUuids == entityUuids
    {
      this.dataAccess := dataAccess;
      this.log := log;
      this.managedStatuses := managedStatuses;
      this.entityUuids := entityUuids;
      trackingStatuses := map[];
      pendingUnloads := {};
      loadingQueue := [];
      var c := new EntityCache();
      var x := new EntityIndex();
      cache, index := c, x;
      lookup := new EntityLookup(x, c);
    }

    /** `getLoadedChunks().forEach(this::unload)`, in the set's order. */
    method UnloadLoaded() returns (ghost unloaded: seq<int>)
      modifies log
      ensures log.events == old(log.events) + Unloads(this, unloaded)
      ensures Distinct(unloaded) && forall p :: p in unloaded <==> p in LoadedChunks(managedStatuses)
    {
      var loaded := SomeOrder(LoadedChunks(managedStatuses));
      for i := 0 to |loaded|
        invariant log.events == old(log.events) + Unloads(this, loaded[..i])
      {
        log.events := log.events + [Unload(this, loaded[i])];
        assert Unloads(this, loaded[..i + 1]) == Unloads(this, loaded[..i]) + [Unload(this, loaded[i])];
      }
      assert loaded[..|loaded|] == loaded;
      unloaded := loaded;
    }

    method PreRestore() returns (ghost appended: seq<Event>, ghost unloaded: seq<int>, ghost fromData: seq<Event>)
      requires Valid()
      modifies Footprint(), log
      ensures Valid()
      ensures log.events == old(log.events) + appended
      ensures appended == [Pre(this)] + Unloads(this, unloaded) + fromData
      ensures Distinct(unloaded) && forall p :: p in unloaded <==> p in LoadedChunks(old(managedStatuses))
      ensures |fromData| > 0 && fromData[0] == Pre(dataAccess)
      ensures managedStatuses == map[] && trackingStatuses == map[] && pendingUnloads == {} && loadingQueue == []
      ensures entityUuids == old(entityUuids) && cache == old(cache) && index == old(index) && lookup == old(lookup)
      ensures dataAccess.emptyChunks == {}
    {
      log.events := log.events + [Pre(this)];
      unloaded := UnloadLoaded();
      trackingStatuses := map[];
      managedStatuses := map[];
      pendingUnloads := {};
      loadingQueue := [];
      ghost var fromWorker;
      fromData, fromWorker := dataAccess.PreRestore();
      appended := [Pre(this)] + Unloads(this, unloaded) + fromData;
    }

    /** A new cache and index, and a lookup over them. */
    method Renew()
      modifies this
      ensures fresh(cache) && fresh(index) && fresh(lookup) && lookup.index == index && lookup.cache == cache
      ensures managedStatuses == old(managedStatuses) && trackingStatuses == old(trackingStatuses)
      ensures pendingUnloads == old(pendingUnloads) && loadingQueue == old(loadingQueue) && entityUuids == old(entityUuids)
    {
      var c := new EntityCache();
      var x := new EntityIndex();
      cache, index := c, x;
      lookup := new EntityLookup(x, c);
    }

    method PostRestore() returns (ghost appended: seq<Event>, ghost fromData: seq<Event>)
      requires Valid()
      modifies Footprint(), log
      ensures Valid()
      ensures log.events == old(log.events) + appended && appended == [Post(this)] + fromData
      ensures |fromData| > 0 && fromData[0] == Post(dataAccess)
      ensures entityUuids == {} && pendingUnloads == {} && loadingQueue == []
      ensures managedStatuses == map[] && trackingStatuses == map[]
      ensures fresh(cache) && fresh(index) && fresh(lookup) && lookup.index == index && lookup.cache == cache
      ensures dataAccess.emptyChunks == {}
    {
      log.events := log.events + [Post(this)];
      entityUuids := {};
      pendingUnloads := {};
      loadingQueue := [];
      managedStatuses := map[];
      trackingStatuses := map[];
      Renew();
      ghost var fromWorker;
      fromData, fromWorker := dataAccess.PostRestore();
      appended := [Post(this)] + fromData;
    }
  }
}
