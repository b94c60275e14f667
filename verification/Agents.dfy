/** Agents, the records that change them, and exclusive file ownership
    (supervisor/agents.py, supervisor/agents_hardening.py). */
module Agents {
  import opened Sequences

  datatype State = Active | Stale | Left

  datatype Agent = Agent(id: string, files: set<string>, action: string, state: State, heartbeat: int)

  datatype Event = Join | Leave | Heartbeat | Ownership | Expired

  datatype Record = Record(event: Event, agent: Agent)

  type Roster = map<string, Agent>

  // -------------------------------------------------- replay

  /** `_apply_record`. */
  function Apply(roster: Roster, rec: Record): Roster {
    if rec.agent.id == "" then roster
    else if rec.event == Leave then map id | id in roster && id != rec.agent.id :: roster[id]
    else roster[rec.agent.id := rec.agent]
  }

  function ApplyAll(roster: Roster, recs: seq<Record>): Roster {
    if recs == [] then roster else Apply(ApplyAll(roster, recs[..|recs| - 1]), recs[|recs| - 1])
  }

  lemma {:induction false} ApplyConcat(roster: Roster, a: seq<Record>, b: seq<Record>)
    ensures ApplyAll(roster, a + b) == ApplyAll(ApplyAll(roster, a), b)
  {
    if b == [] {
      assert a + b == a;
    } else {
      var n := |b| - 1;
      assert (a + b)[..|a + b| - 1] == a + b[..n];
      ApplyConcat(roster, a, b[..n]);
    }
  }

  lemma ApplyOne(roster: Roster, rec: Record)
    ensures ApplyAll(roster, [rec]) == Apply(roster, rec)
  {
    assert [rec][..0] == [];
  }

  predicate Keyed(roster: Roster) {
    forall id :: id in roster ==> roster[id].id == id && id != ""
  }

  lemma {:induction false} ReplayIsKeyed(recs: seq<Record>)
    ensures Keyed(ApplyAll(map[], recs))
  {
    if recs != [] {
      ReplayIsKeyed(recs[..|recs| - 1]);
    }
  }

  // -------------------------------------------------- operations

  predicate IsLive(a: Agent, now: int, timeout: int) {
    a.state == Active && now - a.heartbeat < timeout
  }

  predicate IsExpired(a: Agent, now: int, timeout: int) {
    a.state == Active && now - a.heartbeat >= timeout
  }

  /** `_current_conflicts_locked`: requested files held by other live agents, with their owners. */
  function Conflicts(roster: Roster, id: string, files: set<string>, now: int, timeout: int): set<(string, string)> {
    set o, f | o in roster && roster[o].id != id && IsLive(roster[o], now, timeout) && f in files * roster[o].files :: (f, o)
  }

  function Joined(a: Agent, now: int): Record {
    Record(Join, a.(heartbeat := now, state := Active))
  }

  function Gone(a: Agent, now: int): Record {
    Record(Leave, a.(state := Left, files := {}, heartbeat := now))
  }

  function Beaten(a: Agent, action: string, now: int): Record {
    Record(Heartbeat, a.(heartbeat := now, state := Active, action := if action == "" then a.action else action))
  }

  function Owning(a: Agent, files: set<string>, now: int): Record {
    Record(Ownership, a.(files := files, heartbeat := now, state := Active))
  }

  function Released(a: Agent): Record {
    Record(Expired, a.(files := {}, state := Stale))
  }

  datatype Op =
    | Register(agent: Agent)
    | Unregister(id: string)
    | Beat(id: string, action: string)
    | Update(id: string, files: set<string>)
    | Claim(id: string, files: set<string>, strict: bool)

  /** The records an operation appends; None when it raises because the agent is unknown. */
  function Effect(roster: Roster, op: Op, now: int, timeout: int): Option<seq<Record>> {
    match op
    case Register(agent) => Some([Joined(agent, now)])
    case Unregister(id) => Some(if id in roster then [Gone(roster[id], now)] else [])
    case Beat(id, action) => if id in roster then Some([Beaten(roster[id], action, now)]) else None
    case Update(id, files) => if id in roster then Some([Owning(roster[id], files, now)]) else None
    case Claim(id, files, strict) =>
      if id !in roster then None
      else if strict && Conflicts(roster, id, files, now, timeout) != {} then Some([])
      else Some([Owning(roster[id], files, now)])
  }

  /** What an operation makes of the agents: who joins is active and heard of now, who leaves is gone, and the others change
      what they ask for; nobody else is touched. */
  ghost function RosterAfter(roster: Roster, op: Op, now: int, timeout: int): Roster {
    match op
    case Register(a) => if a.id == "" then roster else roster[a.id := Agent(a.id, a.files, a.action, Active, now)]
    case Unregister(id) => roster - {id}
    case Beat(id, action) =>
      if id !in roster then roster
      else roster[id := Agent(id, roster[id].files, if |action| > 0 then action else roster[id].action, Active, now)]
    case Update(id, files) => if id !in roster then roster else roster[id := Agent(id, files, roster[id].action, Active, now)]
    case Claim(id, files, strict) =>
      if id !in roster || (strict && TakenByOther(roster, id, files, now, timeout)) then roster
      else roster[id := Agent(id, files, roster[id].action, Active, now)]
  }

  /** An operation fails exactly when it is not a registration or a departure and its agent is unknown; otherwise it does
      to the agents what it says. */
  lemma OperationsExactly(roster: Roster, op: Op, now: int, timeout: int)
    requires Keyed(roster)
    ensures Effect(roster, op, now, timeout).None? <==> !op.Register? && !op.Unregister? && op.id !in roster
    ensures Effect(roster, op, now, timeout).Some? ==>
      ApplyAll(roster, Effect(roster, op, now, timeout).value) == RosterAfter(roster, op, now, timeout)
  {
    hide Conflicts, TakenByOther;
    if Effect(roster, op, now, timeout).Some? {
      var recs := Effect(roster, op, now, timeout).value;
      if recs != [] {
        ApplyOne(roster, recs[0]);
        assert recs == [recs[0]];
      }
      if op.Claim? { ConflictsExactly(roster, op.id, op.files, now, timeout); }
    }
  }

  /** Another agent that was heard of within its timeout owns one of the files. */
  ghost predicate TakenByOther(roster: Roster, id: string, files: set<string>, now: int, timeout: int) {
    exists o, f :: o in roster && o != id && roster[o].state == Active && now < roster[o].heartbeat + timeout && f in files && f in roster[o].files
  }

  lemma ConflictsExactly(roster: Roster, id: string, files: set<string>, now: int, timeout: int)
    requires Keyed(roster)
    ensures Conflicts(roster, id, files, now, timeout) != {} <==> TakenByOther(roster, id, files, now, timeout)
  {
    var found := Conflicts(roster, id, files, now, timeout);
    if found != {} {
      var pair := Member(found);
      assert pair.1 in roster && pair.0 in files;
    }
    if TakenByOther(roster, id, files, now, timeout) {
      var o, f :| o in roster && o != id && roster[o].state == Active && now < roster[o].heartbeat + timeout && f in files && f in roster[o].files;
      assert (f, o) in found;
    }
  }

  function ExpiredIds(roster: Roster, now: int, timeout: int): set<string> {
    set id | id in roster && IsExpired(roster[id], now, timeout)
  }

  function Releases(roster: Roster, ids: seq<string>): (r: seq<Record>)
    requires Elems(ids) <= roster.Keys
    ensures |r| == |ids| && forall i :: 0 <= i < |r| ==> r[i].event == Expired && r[i].agent.state == Stale
  {
    seq(|ids|, i requires 0 <= i < |ids| => assert ids[i] in Elems(ids); Released(roster[ids[i]]))
  }

  /** The records of one `release_stale_ownership`: each expired agent, in some order. */
  ghost predicate ReleaseListing(roster: Roster, ids: seq<string>, now: int, timeout: int) {
    Distinct(ids) && Elems(ids) == ExpiredIds(roster, now, timeout)
  }

  lemma ReleasesAppend(roster: Roster, ids: seq<string>, id: string)
    requires Elems(ids) <= roster.Keys && id in roster
    ensures Elems(ids + [id]) <= roster.Keys
    ensures Releases(roster, ids + [id]) == Releases(roster, ids) + [Released(roster[id])]
  {
    ElemsAppend(ids, id);
  }

  function ReleasedAmong(roster: Roster, ids: set<string>): Roster {
    map id | id in roster :: if id in ids then roster[id].(files := {}, state := Stale) else roster[id]
  }

  lemma {:induction false} ReleasesInAnyOrder(roster: Roster, ids: seq<string>)
    requires Keyed(roster) && Elems(ids) <= roster.Keys
    ensures ApplyAll(roster, Releases(roster, ids)) == ReleasedAmong(roster, Elems(ids))
  {
    if ids == [] {
      assert Elems(ids) == {};
    } else {
      var n := |ids| - 1;
      assert ids == ids[..n] + [ids[n]];
      ElemsAppend(ids[..n], ids[n]);
      assert ids[n] in Elems(ids);
      ReleasesAppend(roster, ids[..n], ids[n]);
      ReleasesInAnyOrder(roster, ids[..n]);
    }
  }

  /** Whatever the order, afterwards no agent is expired, released agents own nothing, the rest are as before. */
  lemma StaleOwnershipCleared(roster: Roster, ids: seq<string>, now: int, timeout: int)
    requires Keyed(roster) && ReleaseListing(roster, ids, now, timeout)
    ensures var after := ApplyAll(roster, Releases(roster, ids));
      && after.Keys == roster.Keys
      && ExpiredIds(after, now, timeout) == {}
      && (forall id :: id in roster && IsExpired(roster[id], now, timeout) ==> after[id].files == {} && !IsLive(after[id], now, timeout))
      && (forall id :: id in roster && !IsExpired(roster[id], now, timeout) ==> after[id] == roster[id])
  {
    ReleasesInAnyOrder(roster, ids);
  }

  // -------------------------------------------------- exclusive ownership

  ghost predicate Exclusive(roster: Roster, now: int, timeout: int) {
    forall a, b :: a in roster && b in roster && a != b && IsLive(roster[a], now, timeout) && IsLive(roster[b], now, timeout)
      ==> roster[a].files !! roster[b].files
  }

  /** Setting one agent keeps ownership exclusive exactly when the conflict check would find nothing. */
  lemma OverlapExactly(roster: Roster, rec: Record, now: int, timeout: int)
    requires Keyed(roster) && Exclusive(roster, now, timeout)
    requires rec.event != Leave && rec.agent.id != "" && IsLive(rec.agent, now, timeout)
    ensures Exclusive(Apply(roster, rec), now, timeout) <==> Conflicts(roster, rec.agent.id, rec.agent.files, now, timeout) == {}
  {
    var me, after := rec.agent.id, Apply(roster, rec);
    var found := Conflicts(roster, me, rec.agent.files, now, timeout);
    if found != {} {
      var pair := Member(found);
      var f, o := pair.0, pair.1;
      assert o in after && o != me && after[o] == roster[o] && f in after[me].files && f in after[o].files;
    } else {
      forall a, b, f | a in after && b in after && a != b && IsLive(after[a], now, timeout) && IsLive(after[b], now, timeout)
                       && f in after[a].files
        ensures f !in after[b].files
      {
        var other := if a == me then b else a;
        assert (a == me || b == me) && f in after[b].files ==> (f, other) in found;
      }
    }
  }

  /** An operation that gains files only by a strict claim, from an agent that has not passed its timeout. */
  predicate Careful(roster: Roster, op: Op, now: int, timeout: int) {
    match op
    case Register(agent) => agent.files == {} && agent.id != ""
    case Unregister(_) => true
    case Beat(id, _) => id in roster ==> !IsExpired(roster[id], now, timeout)
    case Update(_, files) => files == {}
    case Claim(_, _, strict) => strict
  }

  predicate IdleOwnNothing(roster: Roster) {
    forall id :: id in roster && roster[id].state != Active ==> roster[id].files == {}
  }

  ghost predicate Tidy(roster: Roster, now: int, timeout: int) {
    Keyed(roster) && IdleOwnNothing(roster) && Exclusive(roster, now, timeout)
  }

  lemma CarefulKeepsTidy(roster: Roster, op: Op, now: int, timeout: int)
    requires timeout > 0 && Tidy(roster, now, timeout) && Careful(roster, op, now, timeout)
    requires Effect(roster, op, now, timeout).Some?
    ensures Tidy(ApplyAll(roster, Effect(roster, op, now, timeout).value), now, timeout)
  {
    var recs := Effect(roster, op, now, timeout).value;
    if recs != [] {
      var rec := recs[0];
      ApplyOne(roster, rec);
      assert recs == [rec];
      if !op.Unregister? {
        assert Conflicts(roster, rec.agent.id, rec.agent.files, now, timeout) == {} by {
          NoConflicts(roster, op, now, timeout);
        }
        OverlapExactly(roster, rec, now, timeout);
      }
    }
  }

  lemma NoConflicts(roster: Roster, op: Op, now: int, timeout: int)
    requires Tidy(roster, now, timeout) && Careful(roster, op, now, timeout) && !op.Unregister?
    requires Effect(roster, op, now, timeout).Some? && Effect(roster, op, now, timeout).value != []
    ensures var a := Effect(roster, op, now, timeout).value[0].agent;
      Conflicts(roster, a.id, a.files, now, timeout) == {}
  {
    var a := Effect(roster, op, now, timeout).value[0].agent;
    forall o, f | o in roster && roster[o].id != a.id && IsLive(roster[o], now, timeout)
      ensures f !in a.files * roster[o].files || op.Claim?
    {
      if op.Beat? && roster[op.id].state == Active {
        assert IsLive(roster[op.id], now, timeout);
      }
    }
  }

  datatype Move = Do(op: Op) | Release(ids: seq<string>) | Wait(until: int)

  datatype World = World(roster: Roster, now: int)

  ghost predicate Possible(w: World, m: Move, timeout: int) {
    match m
    case Do(op) => Effect(w.roster, op, w.now, timeout).Some?
    case Release(ids) => ReleaseListing(w.roster, ids, w.now, timeout)
    case Wait(until) => w.now <= until
  }

  ghost function Next(w: World, m: Move, timeout: int): World
    requires Possible(w, m, timeout)
  {
    match m
    case Do(op) => w.(roster := ApplyAll(w.roster, Effect(w.roster, op, w.now, timeout).value))
    case Release(ids) => w.(roster := ApplyAll(w.roster, Releases(w.roster, ids)))
    case Wait(until) => w.(now := until)
  }

  ghost predicate Steps(w: World, m: Move, after: World, timeout: int) {
    Possible(w, m, timeout) && after == Next(w, m, timeout)
  }

  ghost predicate CarefulMove(w: World, m: Move, timeout: int) {
    m.Do? ==> Careful(w.roster, m.op, w.now, timeout)
  }

  /** A run of locked operations from an empty registry. */
  ghost predicate IsRun(worlds: seq<World>, moves: seq<Move>, timeout: int) {
    && |worlds| == |moves| + 1 && worlds[0].roster == map[]
    && forall i :: 0 <= i < |moves| ==> Steps(worlds[i], moves[i], worlds[i + 1], timeout)
  }

  /** Along every careful run, no two live agents own a common file. */
  lemma {:induction false} OwnershipStaysExclusive(worlds: seq<World>, moves: seq<Move>, timeout: int, k: nat)
    requires timeout > 0 && IsRun(worlds, moves, timeout)
    requires forall i :: 0 <= i < |moves| ==> CarefulMove(worlds[i], moves[i], timeout)
    requires k < |worlds|
    ensures Tidy(worlds[k].roster, worlds[k].now, timeout)
  {
    if k > 0 {
      OwnershipStaysExclusive(worlds, moves, timeout, k - 1);
      var w, m := worlds[k - 1], moves[k - 1];
      assert Steps(w, m, worlds[k - 1 + 1], timeout) && CarefulMove(w, m, timeout);
      match m
      case Do(op) => CarefulKeepsTidy(w.roster, op, w.now, timeout);
      case Release(ids) => ReleasesInAnyOrder(w.roster, ids);
      case Wait(until) =>
        forall a | a in w.roster && IsLive(w.roster[a], until, timeout) ensures IsLive(w.roster[a], w.now, timeout) {}
    }
  }

  /** Why the timeout matters: an agent that outlived its timeout and beats again shares files with the next claimant. */
  lemma LateHeartbeatOverlaps(a: Agent, b: Agent, f: string, timeout: int) returns (worlds: seq<World>, moves: seq<Move>)
    requires timeout > 0 && a.id != b.id && a.id != "" && b.id != ""
    ensures IsRun(worlds, moves, timeout) && |moves| == 6
    ensures forall i :: 0 <= i < |moves| - 1 ==> CarefulMove(worlds[i], moves[i], timeout)
    ensures moves[|moves| - 1] == Do(Beat(a.id, ""))
    ensures !Exclusive(worlds[|moves|].roster, worlds[|moves|].now, timeout)
  {
    moves := [Do(Register(a.(files := {}))), Do(Claim(a.id, {f}, true)), Wait(timeout),
              Do(Register(b.(files := {}))), Do(Claim(b.id, {f}, true)), Do(Beat(a.id, ""))];
    var a0 := a.(files := {}, heartbeat := 0, state := Active);
    var b1 := b.(files := {}, heartbeat := timeout, state := Active);
    var w0 := World(map[], 0);
    var w1 := World(map[a.id := a0], 0);
    var w2 := World(map[a.id := a0.(files := {f})], 0);
    var w3 := World(w2.roster, timeout);
    var w4 := World(w3.roster[b.id := b1], timeout);
    var w5 := World(w3.roster[b.id := b1.(files := {f})], timeout);
    var w6 := World(w5.roster[a.id := a0.(files := {f}, heartbeat := timeout)], timeout);
    ApplyOne(w0.roster, Joined(a.(files := {}), 0));
    ApplyOne(w1.roster, Owning(a0, {f}, 0));
    ApplyOne(w3.roster, Joined(b.(files := {}), timeout));
    ApplyOne(w4.roster, Owning(b1, {f}, timeout));
    ApplyOne(w5.roster, Beaten(w5.roster[a.id], "", timeout));
    assert Conflicts(w1.roster, a.id, {f}, 0, timeout) == {};
    assert Conflicts(w4.roster, b.id, {f}, timeout, timeout) == {};
    worlds := [w0, w1, w2, w3, w4, w5, w6];
    assert Steps(w0, moves[0], w1, timeout) && Steps(w1, moves[1], w2, timeout) && Steps(w2, moves[2], w3, timeout);
    assert Steps(w3, moves[3], w4, timeout) && Steps(w4, moves[4], w5, timeout) && Steps(w5, moves[5], w6, timeout);
    assert f in w6.roster[a.id].files && f in w6.roster[b.id].files;
  }
}
