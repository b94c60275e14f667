/** The final-audit freeze as a protocol over every interleaving of locked registry operations,
    process deaths and clock ticks (supervisor/audit_session.py, supervisor/agents_hardening.py). */
module Quiescence {
  import opened Sequences
  import opened Agents
  import opened Registry

  /** An intact registry's records, the freeze file, the clock and the living processes. */
  datatype World = World(records: seq<Record>, freeze: Option<Freeze>, now: int, alive: set<int>)

  datatype Event =
    | Mutate(op: Op)
    | ReleaseStale(ids: seq<string>)
    | Begin(pid: int, token: int)
    | CrashInBegin(pid: int)
    | End(pid: int, token: int)
    | Tick(until: int)
    | Die(pid: int)
    | Spawn(pid: int)

  function RosterOf(w: World): Roster {
    ApplyAll(map[], w.records)
  }

  ghost predicate CanBegin(w: World, timeout: int) {
    !FreezeActive(w.freeze, w.alive) && Quiet(RosterOf(w), w.now, timeout)
  }

  ghost predicate Possible(w: World, e: Event, timeout: int) {
    match e
    case ReleaseStale(ids) => ReleaseListing(RosterOf(w), ids, w.now, timeout)
    case Begin(pid, _) => pid in w.alive
    case CrashInBegin(pid) => pid in w.alive && CanBegin(w, timeout)
    case Tick(until) => w.now <= until
    case _ => true
  }

  /** A guarded step first drops a freeze whose process is dead. */
  function Swept(w: World): World {
    if FreezeActive(w.freeze, w.alive) then w else w.(freeze := None)
  }

  ghost function Next(w: World, e: Event, timeout: int): World
    requires Possible(w, e, timeout)
  {
    match e
    case Mutate(op) =>
      var effect := Effect(RosterOf(w), op, w.now, timeout);
      if FreezeActive(w.freeze, w.alive) || effect.None? then Swept(w)
      else Swept(w).(records := w.records + effect.value)
    case ReleaseStale(ids) => w.(records := w.records + Releases(RosterOf(w), ids))
    case Begin(pid, token) => if CanBegin(w, timeout) then w.(freeze := Some(Freeze(pid, token))) else Swept(w)
    case CrashInBegin(pid) => w.(freeze := Some(Malformed), alive := w.alive - {pid})
    case End(pid, token) => if w.freeze == Some(Freeze(pid, token)) then w.(freeze := None) else w
    case Tick(until) => w.(now := until)
    case Die(pid) => w.(alive := w.alive - {pid})
    case Spawn(pid) => w.(alive := w.alive + {pid})
  }

  ghost predicate Steps(w: World, e: Event, after: World, timeout: int) {
    Possible(w, e, timeout) && after == Next(w, e, timeout)
  }

  ghost predicate IsRun(worlds: seq<World>, events: seq<Event>, timeout: int) {
    && |worlds| == |events| + 1
    && forall i :: 0 <= i < |events| ==> Steps(worlds[i], events[i], worlds[i + 1], timeout)
  }

  /** The session that begins here is the one admitted. */
  ghost predicate Begins(w: World, e: Event, timeout: int) {
    e.Begin? && CanBegin(w, timeout)
  }

  predicate ReleasedBy(f: Freeze, e: Event) {
    e.End? && f == Freeze(e.pid, e.token)
  }

  /** More records, all of them `stale` ones. */
  predicate OnlyExpiredAfter(before: seq<Record>, after: seq<Record>) {
    before <= after && forall k :: |before| <= k < |after| ==> after[k].event == Expired && after[k].agent.state == Stale
  }

  ghost predicate Frozen(start: World, f: Freeze, w: World, timeout: int) {
    && w.freeze == Some(f) && start.now <= w.now
    && OnlyExpiredAfter(start.records, w.records)
    && Quiet(RosterOf(w), w.now, timeout)
  }

  lemma ReleasingRevivesNobody(w: World, ids: seq<string>, timeout: int)
    requires ReleaseListing(RosterOf(w), ids, w.now, timeout)
    requires Quiet(RosterOf(w), w.now, timeout)
    ensures Quiet(ApplyAll(map[], w.records + Releases(RosterOf(w), ids)), w.now, timeout)
  {
    ReplayIsKeyed(w.records);
    ApplyConcat(map[], w.records, Releases(RosterOf(w), ids));
    ReleasesInAnyOrder(RosterOf(w), ids);
  }

  lemma TimeRevivesNobody(roster: Roster, now: int, later: int, timeout: int)
    requires now <= later && Quiet(roster, now, timeout)
    ensures Quiet(roster, later, timeout)
  {
  }

  lemma FrozenStep(start: World, f: Freeze, w: World, e: Event, timeout: int)
    requires Possible(w, e, timeout) && Frozen(start, f, w, timeout)
    requires Holds(f, w.alive) && !ReleasedBy(f, e)
    ensures Frozen(start, f, Next(w, e, timeout), timeout) && !Begins(w, e, timeout)
  {
    hide ApplyAll, Quiet;
    match e
    case ReleaseStale(ids) => ReleasingRevivesNobody(w, ids, timeout);
    case Tick(until) => TimeRevivesNobody(RosterOf(w), w.now, until, timeout);
    case _ =>
  }

  /** While the freeze holds and its own session has not ended, only `stale` records appear, no agent is live,
      and no second session begins. */
  lemma {:induction false} FrozenUntilReleased(worlds: seq<World>, events: seq<Event>, timeout: int, f: Freeze, i: nat, j: nat)
    requires IsRun(worlds, events, timeout) && i <= j < |worlds|
    requires worlds[i].freeze == Some(f) && Quiet(RosterOf(worlds[i]), worlds[i].now, timeout)
    requires forall k :: i <= k < j ==> Holds(f, worlds[k].alive) && !ReleasedBy(f, events[k])
    ensures Frozen(worlds[i], f, worlds[j], timeout)
    ensures forall k :: i <= k < j ==> !Begins(worlds[k], events[k], timeout)
  {
    if i < j {
      FrozenUntilReleased(worlds, events, timeout, f, i, j - 1);
      assert Steps(worlds[j - 1], events[j - 1], worlds[j - 1 + 1], timeout);
      FrozenStep(worlds[i], f, worlds[j - 1], events[j - 1], timeout);
    }
  }

  /** From the creation of the freeze until its living auditor ends the session, the workspace is quiescent. */
  lemma FinalAuditIsQuiescent(worlds: seq<World>, events: seq<Event>, timeout: int, i: nat, j: nat)
    requires IsRun(worlds, events, timeout) && i < j < |worlds|
    requires Begins(worlds[i], events[i], timeout)
    requires forall k :: i < k < j ==> events[i].pid in worlds[k].alive && events[k] != End(events[i].pid, events[i].token)
    ensures Frozen(worlds[i], Freeze(events[i].pid, events[i].token), worlds[j], timeout)
    ensures forall k :: i < k < j ==> !Begins(worlds[k], events[k], timeout)
  {
    assert Steps(worlds[i], events[i], worlds[i + 1], timeout);
    FrozenUntilReleased(worlds, events, timeout, Freeze(events[i].pid, events[i].token), i + 1, j);
  }

  /** A freeze file cut short by a crash is never removed: every later mutation and session is refused. */
  lemma CrashInBeginBlocksForever(worlds: seq<World>, events: seq<Event>, timeout: int, i: nat, j: nat)
    requires IsRun(worlds, events, timeout) && i < j < |worlds|
    requires events[i].CrashInBegin?
    ensures worlds[j].freeze == Some(Malformed) && OnlyExpiredAfter(worlds[i].records, worlds[j].records)
    ensures forall k :: i < k < j ==> !Begins(worlds[k], events[k], timeout)
  {
    assert Steps(worlds[i], events[i], worlds[i + 1], timeout);
    FrozenUntilReleased(worlds, events, timeout, Malformed, i + 1, j);
  }

  // -------------------------------------------------- a registered agent keeps sessions out

  /** The agent is active and was heard of at `since` or later. */
  ghost predicate HeardSince(w: World, id: string, since: int) {
    var roster := RosterOf(w);
    id in roster && roster[id].state == Active && roster[id].heartbeat >= since && w.now >= since
  }

  /** An operation by which an agent is heard of. */
  predicate HeardBy(op: Op, id: string) {
    match op
    case Register(agent) => agent.id == id && id != ""
    case Beat(x, _) => x == id
    case Update(x, _) => x == id
    case Claim(x, _, strict) => x == id && !strict
    case Unregister(_) => false
  }

  lemma OperationHeard(w: World, op: Op, timeout: int, id: string)
    requires !FreezeActive(w.freeze, w.alive) && Effect(RosterOf(w), op, w.now, timeout).Some? && HeardBy(op, id)
    ensures HeardSince(Next(w, Mutate(op), timeout), id, w.now)
  {
    hide Conflicts, ApplyAll;
    var recs := Effect(RosterOf(w), op, w.now, timeout).value;
    ReplayIsKeyed(w.records);
    ApplyConcat(map[], w.records, recs);
    ApplyOne(RosterOf(w), recs[0]);
    assert recs == [recs[0]];
  }

  lemma StillHeard(w: World, e: Event, timeout: int, id: string, since: int)
    requires Possible(w, e, timeout) && HeardSince(w, id, since) && w.now < since + timeout && e != Mutate(Unregister(id))
    ensures HeardSince(Next(w, e, timeout), id, since)
  {
    hide Conflicts, ApplyAll;
    ReplayIsKeyed(w.records);
    var roster := RosterOf(w);
    match e
    case Mutate(op) =>
      var effect := Effect(roster, op, w.now, timeout);
      if effect.Some? {
        ApplyConcat(map[], w.records, effect.value);
        if effect.value != [] {
          ApplyOne(roster, effect.value[0]);
          assert effect.value == [effect.value[0]];
        } else {
          assert w.records + effect.value == w.records;
        }
      }
    case ReleaseStale(ids) =>
      ApplyConcat(map[], w.records, Releases(roster, ids));
      ReleasesInAnyOrder(roster, ids);
    case _ =>
  }

  /** After an admitted registration or heartbeat, whatever happens in between, no final audit begins before the agent's
      timeout unless the agent unregisters. */
  lemma {:induction false} HeardAgentBlocksAudit(worlds: seq<World>, events: seq<Event>, timeout: int, i: nat, j: nat, op: Op, id: string)
    requires IsRun(worlds, events, timeout) && i < j < |worlds| && events[i] == Mutate(op) && HeardBy(op, id)
    requires !FreezeActive(worlds[i].freeze, worlds[i].alive) && Effect(RosterOf(worlds[i]), op, worlds[i].now, timeout).Some?
    requires forall k :: i < k < j ==> events[k] != Mutate(Unregister(id)) && worlds[k].now < worlds[i].now + timeout
    ensures HeardSince(worlds[j], id, worlds[i].now)
    ensures worlds[j].now < worlds[i].now + timeout ==> !CanBegin(worlds[j], timeout)
  {
    hide Next, Possible, FreezeActive, Effect;
    if j == i + 1 {
      assert Steps(worlds[i], events[i], worlds[i + 1], timeout);
      OperationHeard(worlds[i], op, timeout, id);
    } else {
      HeardAgentBlocksAudit(worlds, events, timeout, i, j - 1, op, id);
      assert Steps(worlds[j - 1], events[j - 1], worlds[j - 1 + 1], timeout);
      StillHeard(worlds[j - 1], events[j - 1], timeout, id, worlds[i].now);
    }
  }

  /** Once the auditor is dead, the freeze stops nothing: the next operation runs as if there were none. */
  lemma DeadAuditorReleases(w: World, f: Freeze, op: Op, timeout: int)
    requires w.freeze == Some(f) && f.Freeze? && f.pid > 0 && f.pid !in w.alive
    ensures Next(w, Mutate(op), timeout) == Next(w.(freeze := None), Mutate(op), timeout)
    ensures forall pid, token :: pid in w.alive ==>
      (Begins(w, Begin(pid, token), timeout) <==> Begins(w.(freeze := None), Begin(pid, token), timeout))
  {
  }

  // -------------------------------------------------- what the protocol does to the agents

  /** The event as a move of the agents: an operation only when it is admitted and appends, releases and time always. */
  ghost function MovesOf(w: World, e: Event, timeout: int): seq<Move> {
    match e
    case Mutate(op) =>
      if FreezeActive(w.freeze, w.alive) || Effect(RosterOf(w), op, w.now, timeout).None? then [] else [Do(op)]
    case ReleaseStale(ids) => [Release(ids)]
    case Tick(until) => [Move.Wait(until)]
    case _ => []
  }

  ghost function AgentsOf(w: World): Agents.World {
    Agents.World(RosterOf(w), w.now)
  }

  /** Every event leaves the agents alone, or is one move of theirs. */
  lemma StepMovesAgents(w: World, e: Event, after: World, timeout: int)
    requires Steps(w, e, after, timeout)
    ensures var moves := MovesOf(w, e, timeout);
      if moves == [] then AgentsOf(after) == AgentsOf(w)
      else |moves| == 1 && Agents.Steps(AgentsOf(w), moves[0], AgentsOf(after), timeout)
  {
    hide ApplyAll, Effect;
    match e
    case Mutate(op) =>
      var effect := Effect(RosterOf(w), op, w.now, timeout);
      if effect.Some? { ApplyConcat(map[], w.records, effect.value); }
    case ReleaseStale(ids) => ApplyConcat(map[], w.records, Releases(RosterOf(w), ids));
    case _ =>
  }

  /** Every operation in the run is a careful one, or was not admitted. */
  ghost predicate CarefulRun(worlds: seq<World>, events: seq<Event>, timeout: int)
    requires |worlds| == |events| + 1
  {
    forall i :: 0 <= i < |events| ==> CarefulEvent(worlds[i], events[i], timeout)
  }

  ghost predicate CarefulEvent(w: World, e: Event, timeout: int) {
    e.Mutate? && !FreezeActive(w.freeze, w.alive) ==> Careful(RosterOf(w), e.op, w.now, timeout)
  }

  /** Seen from the agents, a run of the protocol from an empty log is a run of their moves, a careful one if it was. */
  lemma {:induction false} RunMovesAgents(worlds: seq<World>, events: seq<Event>, timeout: int, k: nat)
    returns (rosters: seq<Agents.World>, moves: seq<Move>)
    requires IsRun(worlds, events, timeout) && worlds[0].records == [] && k <= |events|
    ensures Agents.IsRun(rosters, moves, timeout) && rosters[|moves|] == AgentsOf(worlds[k])
    ensures CarefulRun(worlds, events, timeout) ==> forall i :: 0 <= i < |moves| ==> CarefulMove(rosters[i], moves[i], timeout)
  {
    hide Steps, Agents.Steps, CarefulMove, CarefulEvent, MovesOf, AgentsOf;
    if k == 0 {
      rosters, moves := [AgentsOf(worlds[0])], [];
      NoAgentsYet(worlds[0]);
    } else {
      rosters, moves := RunMovesAgents(worlds, events, timeout, k - 1);
      var w, e := worlds[k - 1], events[k - 1];
      assert Steps(worlds[k - 1], events[k - 1], worlds[k - 1 + 1], timeout);
      StepMovesAgents(w, e, worlds[k], timeout);
      CarefulEventMoves(w, e, timeout);
      var more := MovesOf(w, e, timeout);
      if more != [] {
        assert more == [more[0]];
        AgentsRunExtend(rosters, moves, more[0], AgentsOf(worlds[k]), timeout);
        rosters, moves := rosters + [AgentsOf(worlds[k])], moves + more;
      }
    }
  }

  lemma NoAgentsYet(w: World)
    requires w.records == []
    ensures AgentsOf(w).roster == map[]
  {
  }

  lemma CarefulEventMoves(w: World, e: Event, timeout: int)
    ensures CarefulEvent(w, e, timeout) ==> forall m :: m in MovesOf(w, e, timeout) ==> CarefulMove(AgentsOf(w), m, timeout)
  {
  }

  lemma AgentsRunExtend(rosters: seq<Agents.World>, moves: seq<Move>, m: Move, after: Agents.World, timeout: int)
    requires Agents.IsRun(rosters, moves, timeout) && Agents.Steps(rosters[|moves|], m, after, timeout)
    ensures Agents.IsRun(rosters + [after], moves + [m], timeout)
  {
    hide Agents.Steps;
    var more, all := rosters + [after], moves + [m];
    forall i | 0 <= i < |all| ensures Agents.Steps(more[i], all[i], more[i + 1], timeout) {
      if i < |moves| { assert Agents.Steps(rosters[i], moves[i], rosters[i + 1], timeout); }
    }
  }

  /** Whatever else interleaves, sessions, freezes, deaths and stale releases included: as long as the admitted operations
      are careful, no two live agents own a common file. */
  lemma RunStaysExclusive(worlds: seq<World>, events: seq<Event>, timeout: int, k: nat)
    requires timeout > 0 && IsRun(worlds, events, timeout) && worlds[0].records == [] && k <= |events|
    requires CarefulRun(worlds, events, timeout)
    ensures Tidy(RosterOf(worlds[k]), worlds[k].now, timeout)
  {
    hide Tidy, CarefulRun, CarefulMove;
    var rosters, moves := RunMovesAgents(worlds, events, timeout, k);
    OwnershipStaysExclusive(rosters, moves, timeout, |moves|);
  }

  // -------------------------------------------------- the registry object runs this protocol

  /** What happens next: a call of a registry operation, a session that begins, dies while it writes its freeze, or
      ends, and what the environment does. */
  datatype Action =
    | Call(op: Op)
    | ReleaseExpired
    | BeginSession(pid: int, token: int)
    | BeginAndDie(pid: int, token: int)
    | EndSession(pid: int, token: int)
    | Wait(until: int)
    | Kill(pid: int)
    | Start(pid: int)

  /** Only a living process acts, and the clock does not run backwards. */
  predicate Enabled(a: Action, now: int, alive: set<int>) {
    match a
    case BeginSession(pid, _) => pid in alive
    case BeginAndDie(pid, _) => pid in alive
    case Wait(until) => now <= until
    case _ => true
  }

  function ClockAfter(a: Action, now: int): int {
    if a.Wait? then a.until else now
  }

  function AliveAfter(a: Action, died: bool, alive: set<int>): set<int> {
    match a
    case Kill(pid) => alive - {pid}
    case Start(pid) => alive + {pid}
    case BeginAndDie(pid, _) => if died then alive - {pid} else alive
    case _ => alive
  }

  /** The event an action is, when the registry's files are as in `w`. */
  ghost predicate Stands(a: Action, w: World, e: Event, timeout: int) {
    match a
    case Call(op) => e == Mutate(op)
    case ReleaseExpired => e.ReleaseStale?
    case BeginSession(pid, token) => e == Begin(pid, token)
    case BeginAndDie(pid, token) => e == if CanBegin(w, timeout) then CrashInBegin(pid) else Begin(pid, token)
    case EndSession(pid, token) => e == End(pid, token)
    case Wait(until) => e == Tick(until)
    case Kill(pid) => e == Die(pid)
    case Start(pid) => e == Spawn(pid)
  }

  /** The events of a run are those of the script's enabled actions, one each and in order. */
  ghost predicate Plays(script: seq<Action>, worlds: seq<World>, events: seq<Event>, timeout: int)
    requires |worlds| == |events| + 1
  {
    var n := |events|;
    if script == [] then n == 0
    else
      var before, a := script[..|script| - 1], script[|script| - 1];
      || (Plays(before, worlds, events, timeout) && !Enabled(a, worlds[n].now, worlds[n].alive))
      || (n > 0 && Plays(before, worlds[..n], events[..n - 1], timeout)
          && Enabled(a, worlds[n - 1].now, worlds[n - 1].alive) && Stands(a, worlds[n - 1], events[n - 1], timeout))
  }

  lemma PlaysOneMore(script: seq<Action>, a: Action, worlds: seq<World>, events: seq<Event>, e: Event, after: World, timeout: int)
    requires |worlds| == |events| + 1 && Plays(script, worlds, events, timeout)
    requires Enabled(a, worlds[|events|].now, worlds[|events|].alive)
    requires Stands(a, worlds[|events|], e, timeout)
    ensures Plays(script + [a], worlds + [after], events + [e], timeout)
  {
    hide Stands, Enabled;
    assert (script + [a])[..|script|] == script;
    assert (worlds + [after])[..|worlds|] == worlds && (events + [e])[..|events|] == events;
  }

  lemma PlaysNoMore(script: seq<Action>, a: Action, worlds: seq<World>, events: seq<Event>, timeout: int)
    requires |worlds| == |events| + 1 && Plays(script, worlds, events, timeout)
    requires !Enabled(a, worlds[|events|].now, worlds[|events|].alive)
    ensures Plays(script + [a], worlds, events, timeout)
  {
    hide Stands, Enabled;
    assert (script + [a])[..|script|] == script;
  }

  /** The registry's files at a moment. */
  ghost function Shown(r: MultiAgentRegistry, now: int, alive: set<int>): World
    reads r
  {
    World.World(r.History(), r.freeze, now, alive)
  }

  method CallOperation(r: MultiAgentRegistry, op: Op, now: int, alive: set<int>)
    requires r.Synced()
    modifies r
    ensures r.Synced()
    ensures Steps(old(Shown(r, now, alive)), Mutate(op), Shown(r, now, alive), r.ownerTimeout)
  {
    hide ApplyAll, Conflicts, Joined, Gone, Beaten, Owning, Quiet;
    var ok, granted, conflicts;
    match op {
      case Register(agent) => ok := r.Register(agent, now, alive);
      case Unregister(id) => ok := r.Unregister(id, now, alive);
      case Beat(id, action) => ok := r.Heartbeat(id, action, now, alive);
      case Update(id, files) => ok := r.UpdateOwnership(id, files, now, alive);
      case Claim(id, files, strict) => ok, granted, conflicts := r.ClaimFiles(id, files, strict, now, alive);
    }
  }

  /** Every action of the registry object is a step of the protocol, and memory, log and checkpoint agree after it. */
  method Act(r: MultiAgentRegistry, a: Action, now: int, alive: set<int>) returns (ghost e: Event, died: bool)
    requires r.Synced() && Enabled(a, now, alive)
    modifies r
    ensures r.Synced()
    ensures Steps(old(Shown(r, now, alive)), e,
                  Shown(r, ClockAfter(a, now), AliveAfter(a, died, alive)), r.ownerTimeout)
    ensures Stands(a, old(Shown(r, now, alive)), e, r.ownerTimeout)
  {
    hide ApplyAll, Quiet, Effect;
    died := false;
    match a {
      case Call(op) =>
        e := Mutate(op);
        CallOperation(r, op, now, alive);
      case ReleaseExpired =>
        var released;
        ghost var ids;
        released, ids := r.ReleaseStaleOwnership(now);
        e := ReleaseStale(ids);
      case BeginSession(pid, token) =>
        e := Begin(pid, token);
        var ok := r.BeginAudit(pid, token, now, alive);
      case BeginAndDie(pid, token) =>
        died := r.BeginAudit(pid, token, now, alive);
        e := if died then CrashInBegin(pid) else Begin(pid, token);
        if died {
          r.freeze := Some(Malformed);
        }
      case EndSession(pid, token) =>
        e := End(pid, token);
        var ok := r.EndAudit(pid, token);
      case Wait(until) => e := Tick(until);
      case Kill(pid) => e := Die(pid);
      case Start(pid) => e := Spawn(pid);
    }
  }

  /** Any sequence of actions on one registry, those that cannot happen left out, is a run of the protocol, and after it
      the log replays to the agents in memory, with sequence number, tail and checkpoint matching. */
  method RunAll(r: MultiAgentRegistry, script: seq<Action>, start: int, alive: set<int>)
    returns (ghost worlds: seq<World>, ghost events: seq<Event>)
    requires r.Synced()
    modifies r
    ensures r.Synced()
    ensures IsRun(worlds, events, r.ownerTimeout) && Plays(script, worlds, events, r.ownerTimeout)
    ensures worlds[0] == old(Shown(r, start, alive))
    ensures worlds[|events|].records == r.History() && worlds[|events|].freeze == r.freeze
    ensures r.ownerTimeout > 0 && old(r.History()) == [] && CarefulRun(worlds, events, r.ownerTimeout) ==>
      Tidy(r.agents, worlds[|events|].now, r.ownerTimeout)
  {
    hide Steps, Stands, MultiAgentRegistry.Synced, CarefulRun, Tidy;
    var now, living := start, alive;
    worlds, events := [Shown(r, start, alive)], [];
    for k := 0 to |script|
      invariant r.Synced()
      invariant IsRun(worlds, events, r.ownerTimeout) && Plays(script[..k], worlds, events, r.ownerTimeout)
      invariant worlds[0] == old(Shown(r, start, alive))
      invariant worlds[|events|] == Shown(r, now, living)
    {
      var a := script[k];
      assert script[..k + 1] == script[..k] + [a];
      if Enabled(a, now, living) {
        ghost var e;
        var died;
        e, died := Act(r, a, now, living);
        now, living := ClockAfter(a, now), AliveAfter(a, died, living);
        RunExtend(worlds, events, e, Shown(r, now, living), r.ownerTimeout);
        PlaysOneMore(script[..k], a, worlds, events, e, Shown(r, now, living), r.ownerTimeout);
        worlds, events := worlds + [Shown(r, now, living)], events + [e];
      } else {
        PlaysNoMore(script[..k], a, worlds, events, r.ownerTimeout);
      }
    }
    assert script[..|script|] == script;
    MemoryIsReplay(r);
    if r.ownerTimeout > 0 && old(r.History()) == [] && CarefulRun(worlds, events, r.ownerTimeout) {
      RunStaysExclusive(worlds, events, r.ownerTimeout, |events|);
    }
  }

  lemma MemoryIsReplay(r: MultiAgentRegistry)
    requires r.Synced()
    ensures r.agents == ApplyAll(map[], r.History())
  {
  }

  lemma RunExtend(worlds: seq<World>, events: seq<Event>, e: Event, after: World, timeout: int)
    requires IsRun(worlds, events, timeout) && Steps(worlds[|events|], e, after, timeout)
    ensures IsRun(worlds + [after], events + [e], timeout)
  {
    var more, all := worlds + [after], events + [e];
    forall i | 0 <= i < |all| ensures Steps(more[i], all[i], more[i + 1], timeout) {
      if i < |events| { assert Steps(worlds[i], events[i], worlds[i + 1], timeout); }
    }
  }
}
