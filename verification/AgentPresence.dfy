/** Agent presence, derived for a whole workspace at once and for one agent by search
    (packages/core/agents/derive-presence.ts, packages/core/agents/use-agent-presence.ts,
    packages/core/runtimes/derive-health.ts). */
module AgentPresence {
  import opened Text

  datatype Runtime = Runtime(id: string, online: bool, lastSeenAt: Option<int>)

  datatype Agent = Agent(id: string, runtimeId: string, archived: bool, capacity: int)

  datatype TaskStatus = Queued | Dispatched | WaitingLocalDirectory | Running | Completed | Failed | Canceled

  datatype Task = Task(agentId: string, status: TaskStatus)

  datatype Health = Online | RecentlyLost | LongOffline | AboutToGc

  datatype Availability = Reachable | Unstable | Unreachable | Archived

  datatype Workload = Working | Waiting | Idle

  datatype Detail = Detail(availability: Availability, workload: Workload, running: nat, queued: nat, capacity: int)

  const FIVE_MINUTES_MS := 5 * 60 * 1000
  const ABOUT_TO_GC_THRESHOLD_MS := 6 * 24 * 3600 * 1000

  function DeriveHealth(r: Runtime, now: int): Health {
    var offlineFor := now - if r.lastSeenAt.Some? then r.lastSeenAt.value else 0;
    if r.online then Online
    else if offlineFor < FIVE_MINUTES_MS then RecentlyLost
    else if offlineFor > ABOUT_TO_GC_THRESHOLD_MS then AboutToGc
    else LongOffline
  }

  function DeriveAvailability(r: Option<Runtime>, now: int): Availability {
    if r.None? then Unreachable
    else match DeriveHealth(r.value, now)
      case Online => Reachable
      case RecentlyLost => Unstable
      case _ => Unreachable
  }

  predicate IsQueued(t: Task) {
    t.status == Queued || t.status == Dispatched || t.status == WaitingLocalDirectory
  }

  function CountRunning(tasks: seq<Task>): nat {
    if tasks == [] then 0
    else CountRunning(tasks[..|tasks| - 1]) + if tasks[|tasks| - 1].status == Running then 1 else 0
  }

  function CountQueued(tasks: seq<Task>): nat {
    if tasks == [] then 0 else CountQueued(tasks[..|tasks| - 1]) + if IsQueued(tasks[|tasks| - 1]) then 1 else 0
  }

  function DeriveWorkload(running: nat, queued: nat): Workload {
    if running > 0 then Working else if queued > 0 then Waiting else Idle
  }

  function DeriveDetail(a: Agent, r: Option<Runtime>, tasks: seq<Task>, now: int): Detail {
    if a.archived then Detail(Archived, Idle, 0, 0, a.capacity)
    else
      var running, queued := CountRunning(tasks), CountQueued(tasks);
      Detail(DeriveAvailability(r, now), DeriveWorkload(running, queued), running, queued, a.capacity)
  }

  /** One pass over the tasks. */
  method CountTasks(tasks: seq<Task>) returns (running: nat, queued: nat)
    ensures running == CountRunning(tasks) && queued == CountQueued(tasks)
  {
    running, queued := 0, 0;
    for i := 0 to |tasks|
      invariant running == CountRunning(tasks[..i]) && queued == CountQueued(tasks[..i])
    {
      assert tasks[..i + 1][..i] == tasks[..i];
      if tasks[i].status == Running {
        running := running + 1;
      } else if tasks[i].status == Queued || tasks[i].status == Dispatched || tasks[i].status == WaitingLocalDirectory {
        queued := queued + 1;
      }
    }
    assert tasks[..|tasks|] == tasks;
  }

  method DeriveAgentPresenceDetail(a: Agent, r: Option<Runtime>, tasks: seq<Task>, now: int) returns (d: Detail)
    ensures d == DeriveDetail(a, r, tasks, now)
  {
    if a.archived {
      return Detail(Archived, Idle, 0, 0, a.capacity);
    }
    var running, queued := CountTasks(tasks);
    d := Detail(DeriveAvailability(r, now), DeriveWorkload(running, queued), running, queued, a.capacity);
  }

  lemma {:induction false} NoneRunning(tasks: seq<Task>)
    ensures CountRunning(tasks) == 0 <==> forall t :: t in tasks ==> t.status != Running
  {
    if tasks != [] {
      NoneRunning(tasks[..|tasks| - 1]);
      assert tasks == tasks[..|tasks| - 1] + [tasks[|tasks| - 1]];
    }
  }

  lemma {:induction false} NoneQueued(tasks: seq<Task>)
    ensures CountQueued(tasks) == 0 <==> forall t :: t in tasks ==> !IsQueued(t)
  {
    hide IsQueued;
    if tasks != [] {
      NoneQueued(tasks[..|tasks| - 1]);
      assert tasks == tasks[..|tasks| - 1] + [tasks[|tasks| - 1]];
    }
  }

  /** An agent that is not archived reads as working, waiting or idle by the tasks on its plate; finished tasks
      never show. An archived one always reads as idle. */
  lemma WorkloadMeans(a: Agent, r: Option<Runtime>, tasks: seq<Task>, now: int)
    ensures DeriveDetail(a, r, tasks, now).workload == Working <==>
        !a.archived && exists t :: t in tasks && t.status == Running
    ensures DeriveDetail(a, r, tasks, now).workload == Idle <==>
            a.archived || forall t :: t in tasks ==> t.status == Completed || t.status == Failed || t.status == Canceled
    ensures DeriveDetail(a, r, tasks, now).availability == Reachable <==> !a.archived && r.Some? && r.value.online
  {
    NoneRunning(tasks);
    NoneQueued(tasks);
    hide CountRunning, CountQueued;
  }

  // ---------------------------------------------------------------------------
  // By search, as a single surface does it
  // ---------------------------------------------------------------------------

  function FindAgent(agents: seq<Agent>, id: string): Option<Agent> {
    if agents == [] then None
    else if FindAgent(agents[..|agents| - 1], id).Some? then FindAgent(agents[..|agents| - 1], id)
    else if agents[|agents| - 1].id == id then Some(agents[|agents| - 1]) else None
  }

  function FindRuntime(runtimes: seq<Runtime>, id: string): Option<Runtime> {
    if runtimes == [] then None
    else if FindRuntime(runtimes[..|runtimes| - 1], id).Some? then FindRuntime(runtimes[..|runtimes| - 1], id)
    else if runtimes[|runtimes| - 1].id == id then Some(runtimes[|runtimes| - 1]) else None
  }

  function TasksOf(snapshot: seq<Task>, id: string): seq<Task> {
    if snapshot == [] then []
    else
      var last := snapshot[|snapshot| - 1];
      TasksOf(snapshot[..|snapshot| - 1], id) + if last.agentId == id then [last] else []
  }

  const MISSING := Detail(Unreachable, Idle, 0, 0, 0)

  function PresenceBySearch(
    agents: seq<Agent>, runtimes: seq<Runtime>, snapshot: seq<Task>, id: string, now: int): Detail
  {
    var a := FindAgent(agents, id);
    if a.None? then MISSING
    else DeriveDetail(a.value, FindRuntime(runtimes, a.value.runtimeId), TasksOf(snapshot, id), now)
  }

  // ---------------------------------------------------------------------------
  // All at once
  // ---------------------------------------------------------------------------

  /** The last runtime with the id: later entries overwrite earlier ones. */
  function LastRuntime(runtimes: seq<Runtime>, id: string): Option<Runtime> {
    if runtimes == [] then None
    else if runtimes[|runtimes| - 1].id == id then Some(runtimes[|runtimes| - 1])
    else LastRuntime(runtimes[..|runtimes| - 1], id)
  }

  function LastAgent(agents: seq<Agent>, id: string): Option<Agent> {
    if agents == [] then None
    else if agents[|agents| - 1].id == id then Some(agents[|agents| - 1])
    else LastAgent(agents[..|agents| - 1], id)
  }

  method IndexRuntimes(runtimes: seq<Runtime>) returns (byId: map<string, Runtime>)
    ensures forall id :: LastRuntime(runtimes, id) == if id in byId then Some(byId[id]) else None
  {
    byId := map[];
    for i := 0 to |runtimes|
      invariant forall id :: LastRuntime(runtimes[..i], id) == if id in byId then Some(byId[id]) else None
    {
      assert runtimes[..i + 1][..i] == runtimes[..i];
      byId := byId[runtimes[i].id := runtimes[i]];
    }
    assert runtimes[..|runtimes|] == runtimes;
  }

  method GroupTasks(snapshot: seq<Task>) returns (byAgent: map<string, seq<Task>>)
    ensures forall id :: TasksOf(snapshot, id) == if id in byAgent then byAgent[id] else []
  {
    byAgent := map[];
    for i := 0 to |snapshot|
      invariant forall id :: TasksOf(snapshot[..i], id) == if id in byAgent then byAgent[id] else []
    {
      assert snapshot[..i + 1][..i] == snapshot[..i];
      var t := snapshot[i];
      byAgent := byAgent[t.agentId := (if t.agentId in byAgent then byAgent[t.agentId] else []) + [t]];
    }
    assert snapshot[..|snapshot|] == snapshot;
  }

  /** Keyed by agent; a repeated id keeps its last agent. */
  ghost predicate IsPresenceMap(
    out: map<string, Detail>, agents: seq<Agent>, runtimes: seq<Runtime>, snapshot: seq<Task>, now: int)
  {
    && (forall id :: id in out <==> LastAgent(agents, id).Some?)
    && (forall id :: id in out ==>
         var a := LastAgent(agents, id).value;
         out[id] == DeriveDetail(a, LastRuntime(runtimes, a.runtimeId), TasksOf(snapshot, id), now))
  }

  method BuildPresenceMap(agents: seq<Agent>, runtimes: seq<Runtime>, snapshot: seq<Task>, now: int)
    returns (out: map<string, Detail>)
    ensures IsPresenceMap(out, agents, runtimes, snapshot, now)
  {
    out := map[];
    var runtimesById := IndexRuntimes(runtimes);
    var tasksByAgent := GroupTasks(snapshot);
    hide LastRuntime, TasksOf, DeriveDetail;
    for i := 0 to |agents|
      invariant IsPresenceMap(out, agents[..i], runtimes, snapshot, now)
    {
      assert agents[..i + 1][..i] == agents[..i];
      var a := agents[i];
      var runtime := if a.runtimeId in runtimesById then Some(runtimesById[a.runtimeId]) else None;
      var tasks := if a.id in tasksByAgent then tasksByAgent[a.id] else [];
      var d := DeriveAgentPresenceDetail(a, runtime, tasks, now);
      out := out[a.id := d];
    }
    assert agents[..|agents|] == agents;
  }

  ghost predicate UniqueAgents(agents: seq<Agent>) {
    forall i, j :: 0 <= i < j < |agents| ==> agents[i].id != agents[j].id
  }

  ghost predicate UniqueRuntimes(runtimes: seq<Runtime>) {
    forall i, j :: 0 <= i < j < |runtimes| ==> runtimes[i].id != runtimes[j].id
  }

  lemma {:induction false} FoundAgent(agents: seq<Agent>, id: string)
    ensures FindAgent(agents, id).Some? ==>
        FindAgent(agents, id).value in agents && FindAgent(agents, id).value.id == id
    ensures FindAgent(agents, id).None? <==> LastAgent(agents, id).None?
    ensures UniqueAgents(agents) ==> FindAgent(agents, id) == LastAgent(agents, id)
  {
    if agents != [] {
      var n := |agents| - 1;
      FoundAgent(agents[..n], id);
      if FindAgent(agents[..n], id).Some? && agents[n].id == id {
        var k :| 0 <= k < n && agents[..n][k] == FindAgent(agents[..n], id).value;
        assert agents[k].id == agents[n].id;
      }
    }
  }

  lemma {:induction false} FoundRuntime(runtimes: seq<Runtime>, id: string)
    ensures FindRuntime(runtimes, id).Some? ==>
        FindRuntime(runtimes, id).value in runtimes && FindRuntime(runtimes, id).value.id == id
    ensures FindRuntime(runtimes, id).None? <==> LastRuntime(runtimes, id).None?
    ensures UniqueRuntimes(runtimes) ==> FindRuntime(runtimes, id) == LastRuntime(runtimes, id)
  {
    if runtimes != [] {
      var n := |runtimes| - 1;
      FoundRuntime(runtimes[..n], id);
      if FindRuntime(runtimes[..n], id).Some? && runtimes[n].id == id {
        var k :| 0 <= k < n && runtimes[..n][k] == FindRuntime(runtimes[..n], id).value;
        assert runtimes[k].id == runtimes[n].id;
      }
    }
  }

  /** For every id, with repeated ids as they come: the map that one pass builds gives what a search gives if and
      only if the first and the last agent of the id agree on being archived and on capacity and, unless they
      are archived, the first's first runtime and the last's last runtime are equally available. */
  lemma MapAgreesIff(
    out: map<string, Detail>, agents: seq<Agent>, runtimes: seq<Runtime>, snapshot: seq<Task>, now: int, id: string)
    requires IsPresenceMap(out, agents, runtimes, snapshot, now)
    ensures id in out <==> FindAgent(agents, id).Some?
    ensures id in out ==>
              var first, last := FindAgent(agents, id).value, LastAgent(agents, id).value;
              out[id] == PresenceBySearch(agents, runtimes, snapshot, id, now) <==>
                && first.archived == last.archived && first.capacity == last.capacity
                && (first.archived ||
                    DeriveAvailability(FindRuntime(runtimes, first.runtimeId), now)
                    == DeriveAvailability(LastRuntime(runtimes, last.runtimeId), now))
    ensures id !in out ==> PresenceBySearch(agents, runtimes, snapshot, id, now) == MISSING
  {
    hide LastAgent, LastRuntime, FindAgent, FindRuntime, TasksOf, CountRunning, CountQueued;
    FoundAgent(agents, id);
  }

  /** In particular they agree everywhere when no id is repeated. */
  lemma PresenceMapAgreesWithSearch(
    out: map<string, Detail>, agents: seq<Agent>, runtimes: seq<Runtime>, snapshot: seq<Task>, now: int)
    requires IsPresenceMap(out, agents, runtimes, snapshot, now)
    requires UniqueAgents(agents) && UniqueRuntimes(runtimes)
    ensures forall id ::
              (if id in out then out[id] else MISSING) == PresenceBySearch(agents, runtimes, snapshot, id, now)
  {
    hide LastAgent, LastRuntime, FindAgent, FindRuntime, TasksOf, DeriveDetail;
    forall id
      ensures (if id in out then out[id] else MISSING) == PresenceBySearch(agents, runtimes, snapshot, id, now)
    {
      MapAgreesIff(out, agents, runtimes, snapshot, now, id);
      FoundAgent(agents, id);
      if id in out {
        FoundRuntime(runtimes, LastAgent(agents, id).value.runtimeId);
      }
    }
  }

  /** Two agents of one id and different capacities: the map shows the last, the search the first. */
  lemma RepeatedAgentDisagrees(
    out: map<string, Detail>, first: Agent, last: Agent, runtimes: seq<Runtime>, snapshot: seq<Task>, now: int)
    requires first.id == last.id && first.capacity != last.capacity
    requires IsPresenceMap(out, [first, last], runtimes, snapshot, now)
    ensures first.id in out
    ensures out[first.id] != PresenceBySearch([first, last], runtimes, snapshot, first.id, now)
  {
    assert [first, last][..1] == [first] && [first][..0] == [];
    assert FindAgent([first], first.id) == Some(first);
    assert FindAgent([first, last], first.id) == Some(first) && LastAgent([first, last], first.id) == Some(last);
    MapAgreesIff(out, [first, last], runtimes, snapshot, now, first.id);
  }

  // ---------------------------------------------------------------------------
  // What presence says, in terms of the server's rows
  // ---------------------------------------------------------------------------

  /** An online runtime is online; otherwise the time since it was last seen decides, from the epoch if it never was:
      under five minutes lost just now, over six days about to be collected. */
  lemma HealthIff(r: Runtime, now: int)
    ensures var silent := if r.lastSeenAt.Some? then now - r.lastSeenAt.value else now;
            && (DeriveHealth(r, now) == Online <==> r.online)
            && (DeriveHealth(r, now) == RecentlyLost <==> !r.online && silent < 300000)
            && (DeriveHealth(r, now) == LongOffline <==> !r.online && 300000 <= silent <= 518400000)
            && (DeriveHealth(r, now) == AboutToGc <==> !r.online && silent > 518400000)
  {
  }

  /** Archived agents are archived; any other is reachable, unstable or unreachable by its runtime alone. */
  lemma AvailabilityIff(a: Agent, r: Option<Runtime>, tasks: seq<Task>, now: int)
    ensures var d := DeriveDetail(a, r, tasks, now);
            var seen := if r.Some? && r.value.lastSeenAt.Some? then r.value.lastSeenAt.value else 0;
            && (d.availability == Archived <==> a.archived)
            && (d.availability == Reachable <==> !a.archived && r.Some? && r.value.online)
            && (d.availability == Unstable <==> !a.archived && r.Some? && !r.value.online && now - seen < 300000)
            && d.capacity == a.capacity
  {
  }

  /** The positions of an agent's tasks in one of the given states. */
  function Positions(tasks: seq<Task>, id: string, states: set<TaskStatus>): set<nat> {
    set i: nat | i < |tasks| && tasks[i].agentId == id && tasks[i].status in states
  }

  lemma PositionsSnoc(tasks: seq<Task>, id: string, states: set<TaskStatus>)
    requires tasks != []
    ensures var n, last := |tasks| - 1, tasks[|tasks| - 1];
            |Positions(tasks, id, states)|
            == |Positions(tasks[..n], id, states)| + if last.agentId == id && last.status in states then 1 else 0
  {
    var n, last := |tasks| - 1, tasks[|tasks| - 1];
    var before, after := Positions(tasks[..n], id, states), Positions(tasks, id, states);
    forall i: nat
      ensures i in after <==> i in before || (i == n && last.agentId == id && last.status in states)
    {
      assert i < n ==> tasks[..n][i] == tasks[i];
    }
    assert n !in before;
    hide Positions;
    assert after == before + if last.agentId == id && last.status in states then {n} else {};
  }

  lemma {:induction false} CountsArePositions(snapshot: seq<Task>, id: string)
    ensures CountRunning(TasksOf(snapshot, id)) == |Positions(snapshot, id, {Running})|
    ensures CountQueued(TasksOf(snapshot, id))
         == |Positions(snapshot, id, {Queued, Dispatched, WaitingLocalDirectory})|
  {
    if snapshot != [] {
      var front, last := snapshot[..|snapshot| - 1], snapshot[|snapshot| - 1];
      CountsArePositions(front, id);
      PositionsSnoc(snapshot, id, {Running});
      PositionsSnoc(snapshot, id, {Queued, Dispatched, WaitingLocalDirectory});
      hide Positions;
      if last.agentId == id {
        assert TasksOf(snapshot, id) == TasksOf(front, id) + [last];
        assert (TasksOf(front, id) + [last])[..|TasksOf(front, id)|] == TasksOf(front, id);
      } else {
        assert TasksOf(snapshot, id) == TasksOf(front, id);
      }
    }
  }

  /** The last row with the id. */
  predicate LastAt(agents: seq<Agent>, id: string, k: nat) {
    k < |agents| && agents[k].id == id && forall j :: k < j < |agents| ==> agents[j].id != id
  }

  lemma {:induction false} LastAgentIs(agents: seq<Agent>, id: string, k: nat)
    ensures LastAt(agents, id, k) ==> LastAgent(agents, id) == Some(agents[k])
    ensures (forall j :: 0 <= j < |agents| ==> agents[j].id != id) ==> LastAgent(agents, id) == None
  {
    if agents != [] && agents[|agents| - 1].id != id {
      LastAgentIs(agents[..|agents| - 1], id, k);
    }
  }

  /** The presence map of a workspace in terms of its rows: an id is in it exactly if an agent has it; the agent's
      last row decides on archiving and capacity, and the counts are the numbers of its own running tasks, and of
      its queued, dispatched and parked ones. */
  lemma PresenceMapShows(
    out: map<string, Detail>, agents: seq<Agent>, runtimes: seq<Runtime>, snapshot: seq<Task>, now: int,
    id: string, k: nat)
    requires IsPresenceMap(out, agents, runtimes, snapshot, now)
    ensures LastAt(agents, id, k) ==>
              && id in out
              && out[id].running == (if agents[k].archived then 0 else |Positions(snapshot, id, {Running})|)
              && out[id].queued == (if agents[k].archived then 0
                                    else |Positions(snapshot, id, {Queued, Dispatched, WaitingLocalDirectory})|)
              && out[id].capacity == agents[k].capacity
              && (out[id].availability == Archived <==> agents[k].archived)
              && (out[id].workload == Working <==> out[id].running > 0)
              && (out[id].workload == Waiting <==> out[id].running == 0 && out[id].queued > 0)
    ensures (forall j :: 0 <= j < |agents| ==> agents[j].id != id) ==>
              id !in out && PresenceBySearch(agents, runtimes, snapshot, id, now) == Detail(Unreachable, Idle, 0, 0, 0)
  {
    LastAgentIs(agents, id, k);
    CountsArePositions(snapshot, id);
    FoundAgent(agents, id);
    hide CountRunning, CountQueued, TasksOf, Positions, FindAgent, LastAgent;
    if LastAt(agents, id, k) {
      AvailabilityIff(agents[k], LastRuntime(runtimes, agents[k].runtimeId), TasksOf(snapshot, id), now);
    }
  }
}
