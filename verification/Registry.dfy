/** The multi-agent registry: a chained log, its in-memory replay, migration of old logs, and
    the operations that append to it (supervisor/agents.py, supervisor/agents_hardening.py,
    supervisor/audit_session.py). */
module Registry {
  import opened Sequences
  import opened Text
  import opened Agents

  /** SHA-256 of sequence number, predecessor and record: injective, never GENESIS. */
  datatype Hash = Genesis | Digest(seqNo: int, prev: Hash, rec: Record)

  /** A v2 envelope, or an old one whose digest covers only its record. */
  datatype Envelope =
    | V2(seqNo: int, prev: Hash, hash: Hash, rec: Record)
    | Legacy(digest: Record, rec: Record)

  datatype Head = Head(seqNo: int, hash: Hash)

  function Records(log: seq<Envelope>): (r: seq<Record>)
    ensures |r| == |log| && forall i :: 0 <= i < |r| ==> r[i] == log[i].rec
  {
    seq(|log|, i requires 0 <= i < |log| => log[i].rec)
  }

  /** The agent map that a log stands for. */
  function Replayed(log: seq<Envelope>): Roster {
    ApplyAll(map[], Records(log))
  }

  // -------------------------------------------------- validity of the files

  function TailOf(log: seq<Envelope>): Hash {
    if log == [] || !log[|log| - 1].V2? then Genesis else log[|log| - 1].hash
  }

  predicate LinkedAt(log: seq<Envelope>, i: nat)
    requires i < |log|
  {
    && log[i].V2? && log[i].seqNo == i + 1 && log[i].prev == TailOf(log[..i])
    && log[i].hash == Digest(log[i].seqNo, log[i].prev, log[i].rec)
  }

  predicate Chained(log: seq<Envelope>) {
    forall i :: 0 <= i < |log| ==> LinkedAt(log, i)
  }

  predicate AllLegacy(log: seq<Envelope>) {
    forall i :: 0 <= i < |log| ==> log[i].Legacy? && log[i].digest == log[i].rec
  }

  predicate ValidV2(log: seq<Envelope>, head: Option<Head>) {
    Chained(log) && head == if log == [] then None else Some(Head(|log|, TailOf(log)))
  }

  predicate ValidLegacy(log: seq<Envelope>, head: Option<Head>) {
    log != [] && AllLegacy(log) && head == None
  }

  // -------------------------------------------------- _refresh_from_disk

  datatype Reading = Reading(agents: Roster, seqNo: int, tail: Hash, sawV2: bool, sawLegacy: bool, tampered: bool)

  const NOTHING_READ := Reading(map[], 0, Genesis, false, false, false)

  function ReadLine(r: Reading, e: Envelope): Reading {
    match e
    case V2(seqNo, prev, hash, rec) =>
      Reading(Apply(r.agents, rec), seqNo, hash, true, r.sawLegacy,
              r.tampered || r.sawLegacy || seqNo != r.seqNo + 1 || prev != r.tail || hash != Digest(seqNo, prev, rec))
    case Legacy(digest, rec) =>
      r.(agents := Apply(r.agents, rec), sawLegacy := true, tampered := r.tampered || r.sawV2 || digest != rec)
  }

  function ReadLog(log: seq<Envelope>): Reading {
    if log == [] then NOTHING_READ else ReadLine(ReadLog(log[..|log| - 1]), log[|log| - 1])
  }

  predicate TamperedWith(r: Reading, head: Option<Head>) {
    r.tampered || (if r.sawV2 then head != Some(Head(r.seqNo, r.tail)) else head.Some?)
  }

  lemma ChainedPrefix(log: seq<Envelope>, k: nat)
    requires Chained(log) && k <= |log|
    ensures Chained(log[..k])
  {
    forall i | 0 <= i < k ensures LinkedAt(log[..k], i) {
      assert LinkedAt(log, i);
      assert log[..k][..i] == log[..i];
    }
  }

  lemma ChainedAppend(log: seq<Envelope>, e: Envelope)
    requires Chained(log)
    requires e.V2? && e.seqNo == |log| + 1 && e.prev == TailOf(log) && e.hash == Digest(e.seqNo, e.prev, e.rec)
    ensures Chained(log + [e])
  {
    var more := log + [e];
    forall i | 0 <= i < |more| ensures LinkedAt(more, i) {
      assert more[..i] == log[..i];
      if i < |log| { assert LinkedAt(log, i); } else { assert log[..i] == log; }
    }
  }

  lemma {:induction false} ReadingReplays(log: seq<Envelope>)
    ensures ReadLog(log).agents == Replayed(log)
  {
    if log != [] {
      ReadingReplays(log[..|log| - 1]);
      assert Records(log)[..|log| - 1] == Records(log[..|log| - 1]);
    }
  }

  lemma {:induction false} ReadingFlags(log: seq<Envelope>)
    ensures var r := ReadLog(log);
      && (r.sawV2 <==> exists i :: 0 <= i < |log| && log[i].V2?)
      && (r.sawLegacy <==> exists i :: 0 <= i < |log| && log[i].Legacy?)
  {
    if log != [] {
      var n := |log| - 1;
      ReadingFlags(log[..n]);
      assert forall i :: 0 <= i < n ==> log[..n][i] == log[i];
    }
  }

  /** A log of one kind: the kind of its first envelope decides which format it can be. */
  lemma KindOf(log: seq<Envelope>)
    requires log != []
    ensures Chained(log) ==> log[0].V2? && forall i :: 0 <= i < |log| ==> log[i].V2?
    ensures AllLegacy(log) ==> log[0].Legacy? && forall i :: 0 <= i < |log| ==> log[i].Legacy?
  {
    if Chained(log) {
      forall i | 0 <= i < |log| ensures log[i].V2? { assert LinkedAt(log, i); }
    }
  }

  lemma LastLink(log: seq<Envelope>)
    requires log != []
    ensures var n := |log| - 1; Chained(log) <==> Chained(log[..n]) && LinkedAt(log, n)
    ensures var n := |log| - 1; AllLegacy(log) <==> AllLegacy(log[..n]) && log[n].Legacy? && log[n].digest == log[n].rec
  {
    var n := |log| - 1;
    assert log == log[..n] + [log[n]];
    if Chained(log) {
      ChainedPrefix(log, n);
      assert LinkedAt(log, n);
    }
    if Chained(log[..n]) && LinkedAt(log, n) {
      ChainedAppend(log[..n], log[n]);
    }
    assert forall i :: 0 <= i < n ==> log[..n][i] == log[i];
  }

  lemma {:induction false} ReadingValid(log: seq<Envelope>)
    ensures !ReadLog(log).tampered <==> Chained(log) || AllLegacy(log)
    ensures Chained(log) ==> ReadLog(log).seqNo == |log| && ReadLog(log).tail == TailOf(log)
  {
    hide Apply, Chained, AllLegacy;
    if log == [] {
      EmptyLog();
    } else {
      var n := |log| - 1;
      ReadingValid(log[..n]);
      ReadingFlags(log[..n]);
      LastLink(log);
      if n == 0 {
        EmptyLog();
        assert log[..n] == [];
      } else {
        KindOf(log[..n]);
      }
    }
  }

  lemma EmptyLog()
    ensures Chained([]) && AllLegacy([])
  {
  }

  /** The line-by-line reader accepts exactly the valid v2 logs and the valid old logs. */
  lemma AcceptedExactly(log: seq<Envelope>, head: Option<Head>)
    ensures !TamperedWith(ReadLog(log), head) <==> ValidV2(log, head) || ValidLegacy(log, head)
    ensures !TamperedWith(ReadLog(log), head) ==> (ReadLog(log).sawLegacy <==> ValidLegacy(log, head))
  {
    hide ReadLog, Chained, AllLegacy;
    ReadingValid(log);
    ReadingFlags(log);
    if log == [] {
      EmptyLog();
    } else {
      KindOf(log);
    }
  }

  /** An append stopped before its checkpoint, and a log shorter than its checkpoint, are both refused for good. */
  lemma CheckpointMismatchRefused(log: seq<Envelope>, head: Option<Head>, rec: Record, k: nat)
    requires ValidV2(log, head) && k < |log|
    ensures TamperedWith(ReadLog(log + [Sealed(log, rec)]), head)
    ensures TamperedWith(ReadLog(log[..k]), head)
  {
    hide ReadLog, Chained;
    AcceptedExactly(log + [Sealed(log, rec)], head);
    AcceptedExactly(log[..k], head);
    assert (log + [Sealed(log, rec)])[|log|] == Sealed(log, rec);
  }

  // -------------------------------------------------- appending and migrating

  function Sealed(log: seq<Envelope>, rec: Record): Envelope {
    V2(|log| + 1, TailOf(log), Digest(|log| + 1, TailOf(log), rec), rec)
  }

  function Migrated(recs: seq<Record>): seq<Envelope> {
    if recs == [] then []
    else
      var before := Migrated(recs[..|recs| - 1]);
      before + [Sealed(before, recs[|recs| - 1])]
  }

  lemma AppendReplays(log: seq<Envelope>, e: Envelope)
    ensures Replayed(log + [e]) == Apply(Replayed(log), e.rec)
  {
    assert Records(log + [e])[..|log|] == Records(log);
  }

  /** Migration re-chains the same records: a valid v2 log that replays to the same agents. */
  lemma {:induction false} MigrationPreserves(recs: seq<Record>)
    ensures Chained(Migrated(recs)) && Records(Migrated(recs)) == recs
  {
    if recs != [] {
      var n := |recs| - 1;
      MigrationPreserves(recs[..n]);
      ChainedAppend(Migrated(recs[..n]), Sealed(Migrated(recs[..n]), recs[n]));
    }
  }

  // -------------------------------------------------- the final-audit freeze

  /** The freeze file: the process and token of a session, or text that does not parse. */
  datatype Freeze = Freeze(pid: int, token: int) | Malformed

  /** Held by a living process, or not provably stale. */
  predicate Holds(freeze: Freeze, alive: set<int>) {
    freeze.Malformed? || freeze.pid <= 0 || freeze.pid in alive
  }

  predicate FreezeActive(freeze: Option<Freeze>, alive: set<int>) {
    freeze.Some? && Holds(freeze.value, alive)
  }

  /** `_active_agents_locked` finds somebody. */
  predicate AnyLive(roster: Roster, now: int, timeout: int) {
    exists id :: id in roster && IsLive(roster[id], now, timeout)
  }

  /** Every agent has left, was released, or has not been heard of for the whole timeout. */
  ghost predicate Quiet(roster: Roster, now: int, timeout: int) {
    forall id :: id in roster ==> roster[id].state != Active || now >= roster[id].heartbeat + timeout
  }

  lemma QuietExactly(roster: Roster, now: int, timeout: int)
    ensures AnyLive(roster, now, timeout) <==> !Quiet(roster, now, timeout)
  {
  }

  // -------------------------------------------------- the registry object

  class MultiAgentRegistry {
    const ownerTimeout: int
    // files
    var log: seq<Envelope>
    var head: Option<Head>
    var freeze: Option<Freeze>
    // memory
    var agents: Roster
    var seqNo: int
    var tail: Hash
    var tampered: bool
    var legacy: bool

    /** The log replays to memory; sequence number, tail and checkpoint agree. */
    ghost predicate Synced()
      reads this
    {
      && !tampered && !legacy && ValidV2(log, head)
      && agents == Replayed(log) && seqNo == |log| && tail == TailOf(log)
    }

    /** The files are an acceptable registry of either format. */
    ghost predicate Intact()
      reads this
    {
      ValidV2(log, head) || ValidLegacy(log, head)
    }

    /** The records on disk. */
    ghost function History(): seq<Record>
      reads this
    {
      Records(log)
    }

    constructor (timeout: int)
      ensures ownerTimeout == timeout && log == [] && freeze == None && Synced()
    {
      ownerTimeout := timeout;
      log, head, freeze := [], None, None;
      agents, seqNo, tail, tampered, legacy := map[], 0, Genesis, false, false;
    }

    /** `_refresh_from_disk`. */
    method Refresh()
      modifies this`agents, this`seqNo, this`tail, this`tampered, this`legacy
      ensures !tampered <==> Intact()
      ensures agents == Replayed(log)
      ensures !tampered ==> (legacy <==> ValidLegacy(log, head))
      ensures ValidV2(log, head) ==> Synced()
    {
      hide Chained, AllLegacy, Apply;
      var r := NOTHING_READ;
      for k := 0 to |log|
        invariant r == ReadLog(log[..k])
      {
        assert log[..k + 1][..k] == log[..k];
        r := ReadLine(r, log[k]);
      }
      assert log[..|log|] == log;
      AcceptedExactly(log, head);
      ReadingReplays(log);
      ReadingValid(log);
      OneFormat(log, head);
      agents, seqNo, tail, legacy := r.agents, r.seqNo, r.tail, r.sawLegacy;
      tampered := TamperedWith(r, head);
    }

    /** `_migrate_legacy_locked`. */
    method Migrate()
      requires ValidLegacy(log, head)
      modifies this`log, this`head
      ensures ValidV2(log, head) && History() == old(History())
    {
      hide Chained, AllLegacy;
      var recs := Records(log);
      var rewritten: seq<Envelope> := [];
      var n, prev := 0, Genesis;
      for k := 0 to |recs|
        invariant rewritten == Migrated(recs[..k]) && n == |rewritten| == k && prev == TailOf(rewritten)
      {
        assert recs[..k + 1][..k] == recs[..k];
        n := n + 1;
        var hash := Digest(n, prev, recs[k]);
        rewritten := rewritten + [V2(n, prev, hash, recs[k])];
        prev := hash;
      }
      assert recs[..|recs|] == recs;
      MigrationPreserves(recs);
      log := rewritten;
      head := Some(Head(n, prev));
    }

    /** `_verify_locked`: re-read, and migrate an old log. */
    method VerifyLocked() returns (ok: bool)
      modifies this
      ensures ok <==> old(Intact())
      ensures ok ==> Synced() && History() == old(History())
      ensures old(ValidV2(log, head)) ==> log == old(log) && head == old(head)
      ensures !ok ==> log == old(log) && head == old(head) && tampered && agents == Replayed(log)
      ensures freeze == old(freeze)
    {
      Refresh();
      OneFormat(log, head);
      if tampered {
        return false;
      }
      if legacy {
        Migrate();
        Refresh();
      }
      ok := !tampered;
    }

    /** `_append_locked`. */
    method AppendLocked(rec: Record)
      requires Synced()
      modifies this
      ensures Synced() && freeze == old(freeze)
      ensures log == old(log) + [Sealed(old(log), rec)]
      ensures History() == old(History()) + [rec]
      ensures agents == Apply(old(agents), rec)
    {
      var n := seqNo + 1;
      var hash := Digest(n, tail, rec);
      var envelope := V2(n, tail, hash, rec);
      ChainedAppend(log, envelope);
      AppendReplays(log, envelope);
      log := log + [envelope];
      head := Some(Head(n, hash));
      Refresh();
    }

    /** What a refused operation leaves: under an active freeze nothing at all has changed; otherwise a stale freeze is
        gone, and either the registry was read (and migrated) without a new record, or it is marked as tampered with. */
    twostate predicate Refused(alive: set<int>)
      reads this
    {
      if FreezeActive(old(freeze), alive) then unchanged(this)
      else
        && freeze == None
        && if old(Intact()) then Synced() && History() == old(History())
           else log == old(log) && head == old(head) && tampered && agents == Replayed(log)
    }

    /** `_require_mutation_allowed`, then `_require_integrity_locked`. A provably stale freeze is removed. */
    method Admit(alive: set<int>) returns (ok: bool)
      modifies this
      ensures freeze == if FreezeActive(old(freeze), alive) then old(freeze) else None
      ensures ok <==> !FreezeActive(old(freeze), alive) && old(Intact())
      ensures ok <==> old(Intact()) && (old(freeze) == None || (old(freeze).value.Freeze? && old(freeze).value.pid > 0 && old(freeze).value.pid !in alive))
      ensures Refused(alive) && (ok ==> Synced())
      ensures !ok ==> log == old(log) && head == old(head)
    {
      if FreezeActive(freeze, alive) {
        return false;
      }
      freeze := None;
      ok := VerifyLocked();
    }

    /** What an admitted operation does: append exactly the records of its effect. */
    twostate predicate Performed(op: Op, now: int)
      reads this
    {
      var effect := Effect(ApplyAll(map[], old(History())), op, now, ownerTimeout);
      effect.Some? && Synced() && freeze == None && History() == old(History()) + effect.value
    }

    method Register(agent: Agent, now: int, alive: set<int>) returns (ok: bool)
      modifies this
      ensures ok <==> !FreezeActive(old(freeze), alive) && old(Intact())
      ensures if ok then Performed(Op.Register(agent), now) else Refused(alive)
    {
      ok := Admit(alive);
      if ok {
        AppendLocked(Joined(agent, now));
      }
    }

    method Unregister(id: string, now: int, alive: set<int>) returns (ok: bool)
      modifies this
      ensures ok <==> !FreezeActive(old(freeze), alive) && old(Intact())
      ensures if ok then Performed(Op.Unregister(id), now) else Refused(alive)
    {
      ok := Admit(alive);
      if ok && id in agents {
        AppendLocked(Gone(agents[id], now));
      }
    }

    /** Fails, appending nothing, when the agent is unknown. */
    method Heartbeat(id: string, action: string, now: int, alive: set<int>) returns (ok: bool)
      modifies this
      ensures ok <==> !FreezeActive(old(freeze), alive) && old(Intact()) && id in ApplyAll(map[], old(History()))
      ensures if ok then Performed(Beat(id, action), now) else Refused(alive)
    {
      ok := Admit(alive);
      if ok {
        if id !in agents {
          return false;
        }
        AppendLocked(Beaten(agents[id], action, now));
      }
    }

    method UpdateOwnership(id: string, files: set<string>, now: int, alive: set<int>) returns (ok: bool)
      modifies this
      ensures ok <==> !FreezeActive(old(freeze), alive) && old(Intact()) && id in ApplyAll(map[], old(History()))
      ensures if ok then Performed(Update(id, files), now) else Refused(alive)
    {
      ok := Admit(alive);
      if ok {
        if id !in agents {
          return false;
        }
        AppendLocked(Owning(agents[id], files, now));
      }
    }

    /** `claim_files`; `strict` is the parallel-strict mode. */
    method ClaimFiles(id: string, files: set<string>, strict: bool, now: int, alive: set<int>)
      returns (ok: bool, granted: bool, conflicts: set<(string, string)>)
      modifies this
      ensures ok <==> !FreezeActive(old(freeze), alive) && old(Intact()) && id in ApplyAll(map[], old(History()))
      ensures if ok then Performed(Claim(id, files, strict), now) else Refused(alive)
      ensures ok ==> conflicts == Conflicts(ApplyAll(map[], old(History())), id, files, now, ownerTimeout)
      ensures ok ==> (granted <==> conflicts == {} || !strict)
      ensures ok ==> (granted <==> !strict || !TakenByOther(ApplyAll(map[], old(History())), id, files, now, ownerTimeout))
      ensures ok ==> (granted <==> History() != old(History()))
    {
      granted, conflicts := false, {};
      ok := Admit(alive);
      if ok {
        if id !in agents {
          return false, false, {};
        }
        conflicts := Conflicts(agents, id, files, now, ownerTimeout);
        ReplayIsKeyed(History());
        ConflictsExactly(agents, id, files, now, ownerTimeout);
        if conflicts != {} && strict {
          return true, false, conflicts;
        }
        granted := true;
        AppendLocked(Owning(agents[id], files, now));
      }
    }

    /** `release_stale_ownership`: not stopped by a freeze. Returns the agents that lost files. */
    method ReleaseStaleOwnership(now: int) returns (released: set<string>, ghost ids: seq<string>)
      modifies this
      ensures freeze == old(freeze)
      ensures !old(Intact()) ==> log == old(log) && head == old(head) && tampered && released == {}
      ensures old(Intact()) ==> ReleaseListing(ApplyAll(map[], old(History())), ids, now, ownerTimeout)
      ensures old(Intact()) ==> Synced() && History() == old(History()) + Releases(ApplyAll(map[], old(History())), ids)
      ensures old(Intact()) ==> released == LosingFiles(ApplyAll(map[], old(History())), now, ownerTimeout)
      ensures old(Intact()) ==> forall id :: id in ids <==> Overdue(ApplyAll(map[], old(History())), id, now, ownerTimeout)
      ensures old(Intact()) ==> forall id :: id in released <==>
        Overdue(ApplyAll(map[], old(History())), id, now, ownerTimeout) && ApplyAll(map[], old(History()))[id].files != {}
    {
      hide Apply, ApplyAll, Replayed, Chained, AllLegacy, SortStrings, Keyed, IsExpired, ValidV2, ValidLegacy, TailOf;
      released, ids := {}, [];
      var ok := VerifyLocked();
      if !ok {
        return;
      }
      var start := agents;
      assert start == ApplyAll(map[], History()) by { ReplayedIs(log); }
      ReplayIsKeyed(History());
      ghost var before := History();
      var listing := SortStrings(start.Keys);
      SortedDistinct(listing);
      assert Releases(start, ids) == [];
      for k := 0 to |listing|
        invariant Synced() && freeze == old(freeze)
        invariant Elems(ids) <= start.Keys
        invariant History() == before + Releases(start, ids)
        invariant Distinct(ids) && forall id :: id in ids <==> id in listing[..k] && IsExpired(start[id], now, ownerTimeout)
        invariant forall id :: id in released <==> id in listing[..k] && IsExpired(start[id], now, ownerTimeout) && start[id].files != {}
      {
        var id := listing[k];
        assert id in Elems(listing);
        assert listing[..k + 1] == listing[..k] + [id] && id !in listing[..k];
        if IsExpired(start[id], now, ownerTimeout) {
          ReleasesAppend(start, ids, id);
          if start[id].files != {} {
            released := released + {id};
          }
          ids := ids + [id];
          AppendLocked(Released(start[id]));
        }
      }
      assert listing[..|listing|] == listing;
      assert Elems(listing) == start.Keys;
      forall id ensures Overdue(start, id, now, ownerTimeout) <==> id in start && IsExpired(start[id], now, ownerTimeout) {
        OverdueExactly(start, id, now, ownerTimeout);
      }
    }

    /** The opening of `final_audit_session`, up to the creation of the freeze file. */
    method BeginAudit(pid: int, token: int, now: int, alive: set<int>) returns (ok: bool)
      modifies this
      ensures ok <==> !FreezeActive(old(freeze), alive) && old(Intact()) && Quiet(ApplyAll(map[], old(History())), now, ownerTimeout)
      ensures ok ==> freeze == Some(Freeze(pid, token)) && Synced() && History() == old(History())
      ensures !ok ==> Refused(alive)
    {
      ok := Admit(alive);
      if ok {
        QuietExactly(agents, now, ownerTimeout);
        if AnyLive(agents, now, ownerTimeout) {
          return false;
        }
        freeze := Some(Freeze(pid, token));
      }
    }

    /** The closing of `final_audit_session`: only this session's own freeze is removed. */
    method EndAudit(pid: int, token: int) returns (ok: bool)
      modifies this`freeze
      ensures ok <==> old(freeze) == Some(Freeze(pid, token))
      ensures freeze == if ok then None else old(freeze)
      ensures old(Synced()) ==> Synced()
    {
      ok := freeze == Some(Freeze(pid, token));
      if ok {
        freeze := None;
      }
    }
  }

  /** Still active, and not heard of for the whole timeout. */
  ghost predicate Overdue(roster: Roster, id: string, now: int, timeout: int) {
    id in roster && roster[id].state == Active && now >= roster[id].heartbeat + timeout
  }

  lemma OverdueExactly(roster: Roster, id: string, now: int, timeout: int)
    ensures Overdue(roster, id, now, timeout) <==> id in roster && IsExpired(roster[id], now, timeout)
  {
  }

  function LosingFiles(roster: Roster, now: int, timeout: int): set<string> {
    set id | id in roster && IsExpired(roster[id], now, timeout) && roster[id].files != {}
  }

  lemma ReplayedIs(log: seq<Envelope>)
    ensures Replayed(log) == ApplyAll(map[], Records(log))
  {
  }

  lemma OneFormat(log: seq<Envelope>, head: Option<Head>)
    ensures !(ValidV2(log, head) && ValidLegacy(log, head))
  {
    if log != [] {
      KindOf(log);
    }
  }
}
