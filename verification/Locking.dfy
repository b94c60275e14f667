/** The registry write lock as interleaved steps of any number of processes
    (supervisor/lock_hardening.py). */
module Locking {
  import opened Sequences

  /** What a reader learns from a completely written lock file. */
  datatype Observation = Observation(pid: nat, token: nat, inode: nat)

  datatype Payload = Payload(pid: nat, token: nat)

  /** `file` is the open file itself; `inode` is its reusable number; the payload is written late. */
  datatype LockFile = LockFile(file: nat, inode: nat, payload: Option<Payload>)

  /** Where a process is in `_write_lock`. */
  datatype Phase =
    | Idle
    | Trying(token: nat)
    | Created(token: nat, file: nat)
    | Holding(token: nat, file: nat)
    | Releasing(token: nat, file: nat, owned: bool)
    | Suspecting(token: nat, seen: Observation)
    | Confirmed(token: nat, seen: Observation)

  datatype System = System(lock: Option<LockFile>, phases: map<nat, Phase>, alive: set<nat>, nextToken: nat, nextFile: nat)

  predicate Holds(ph: Phase) {
    ph.Created? || ph.Holding? || ph.Releasing?
  }

  predicate Holder(s: System, p: nat) {
    p in s.phases && p in s.alive && Holds(s.phases[p])
  }

  predicate Runs(s: System, p: nat) {
    p in s.phases && p in s.alive
  }

  // -------------------------------------------------- steps

  function Move(s: System, p: nat, ph: Phase): System {
    s.(phases := s.phases[p := ph])
  }

  /** A new process, possibly under the number of a dead one. */
  predicate Spawn(s: System, s': System, p: nat) {
    p !in s.alive && s' == Move(s, p, Idle).(alive := s.alive + {p})
  }

  predicate Die(s: System, s': System, p: nat) {
    Runs(s, p) && s' == s.(alive := s.alive - {p})
  }

  /** Draw a fresh token. */
  predicate Start(s: System, s': System, p: nat) {
    && Runs(s, p) && s.phases[p].Idle?
    && s' == Move(s, p, Trying(s.nextToken)).(nextToken := s.nextToken + 1)
  }

  predicate GiveUp(s: System, s': System, p: nat) {
    Runs(s, p) && s.phases[p].Trying? && s' == Move(s, p, Idle)
  }

  /** `os.open` with `O_CREAT | O_EXCL` succeeds; any free inode number may be given out. */
  predicate Create(s: System, s': System, p: nat) {
    && Runs(s, p) && s.phases[p].Trying? && s.lock.None?
    && s'.lock.Some? && s'.lock.value.file == s.nextFile && s'.lock.value.payload.None?
    && s' == Move(s, p, Created(s.phases[p].token, s.nextFile)).(lock := s'.lock, nextFile := s.nextFile + 1)
  }

  /** The payload goes to the file that was opened, whether or not it is still the lock. */
  predicate WritePayload(s: System, s': System, p: nat) {
    && Runs(s, p) && s.phases[p].Created?
    && var ph := s.phases[p];
       s' == Move(s, p, Holding(ph.token, ph.file)).(lock :=
         if s.lock.Some? && s.lock.value.file == ph.file
         then Some(s.lock.value.(payload := Some(Payload(p, ph.token)))) else s.lock)
  }

  /** The file exists: read it. An unwritten payload is malformed and is only waited for. */
  predicate Observe(s: System, s': System, p: nat) {
    && Runs(s, p) && s.phases[p].Trying? && s.lock.Some?
    && s' == match s.lock.value.payload
             case None => s
             case Some(payload) =>
               Move(s, p, Suspecting(s.phases[p].token, Observation(payload.pid, payload.token, s.lock.value.inode)))
  }

  /** `_safe_pid_alive` of the observed owner. */
  predicate ProbeOwner(s: System, s': System, p: nat) {
    && Runs(s, p) && s.phases[p].Suspecting?
    && var ph := s.phases[p];
       s' == Move(s, p, if ph.seen.pid in s.alive then Trying(ph.token) else Confirmed(ph.token, ph.seen))
  }

  predicate Unchanged(s: System, seen: Observation) {
    s.lock.Some? && s.lock.value.payload == Some(Payload(seen.pid, seen.token)) && s.lock.value.inode == seen.inode
  }

  /** The re-read and unlink of `_remove_dead_owner_lock`, as one step. */
  predicate Evict(s: System, s': System, p: nat) {
    && Runs(s, p) && s.phases[p].Confirmed?
    && var ph := s.phases[p];
       s' == Move(s, p, Trying(ph.token)).(lock := if Unchanged(s, ph.seen) then None else s.lock)
  }

  /** The body is over: look whose lock it is. */
  predicate CheckRelease(s: System, s': System, p: nat) {
    && Runs(s, p) && s.phases[p].Holding?
    && var ph := s.phases[p];
       s' == Move(s, p, Releasing(ph.token, ph.file,
                                  s.lock.Some? && s.lock.value.payload == Some(Payload(p, ph.token))))
  }

  predicate Unlink(s: System, s': System, p: nat) {
    && Runs(s, p) && s.phases[p].Releasing?
    && s' == Move(s, p, Idle).(lock := if s.phases[p].owned then None else s.lock)
  }

  ghost predicate Step(s: System, s': System, p: nat) {
    || Spawn(s, s', p) || Die(s, s', p) || Start(s, s', p) || GiveUp(s, s', p)
    || Create(s, s', p) || WritePayload(s, s', p)
    || Observe(s, s', p) || ProbeOwner(s, s', p) || Evict(s, s', p)
    || CheckRelease(s, s', p) || Unlink(s, s', p)
  }

  ghost predicate Next(s: System, s': System) {
    exists p :: Step(s, s', p)
  }

  predicate Initial(s: System) {
    s.lock.None? && s.alive == {} && s.phases == map[]
  }

  /** A finite run of the system, in any interleaving. */
  ghost predicate Run(trace: seq<System>) {
    && |trace| > 0 && Initial(trace[0])
    && forall i :: 0 <= i < |trace| - 1 ==> NextAt(trace, i)
  }

  ghost predicate NextAt(trace: seq<System>, i: nat)
    requires i + 1 < |trace|
  {
    Next(trace[i], trace[i + 1])
  }

  // -------------------------------------------------- the invariant

  /** A live holder's file is the lock, and carries its own payload once written. */
  predicate OwnsLock(s: System, p: nat)
    requires p in s.phases && Holds(s.phases[p])
  {
    var ph := s.phases[p];
    && s.lock.Some? && s.lock.value.file == ph.file
    && s.lock.value.payload == if ph.Created? then None else Some(Payload(p, ph.token))
  }

  predicate TokenOf(ph: Phase, token: nat) {
    !ph.Idle? && ph.token == token
  }

  /** The observed owner is gone: no live process of that number uses the observed token. */
  predicate OwnerGone(s: System, seen: Observation) {
    && seen.token < s.nextToken
    && (seen.pid in s.alive && seen.pid in s.phases ==> !TokenOf(s.phases[seen.pid], seen.token))
  }

  predicate ProcessOk(s: System, p: nat)
    requires p in s.phases
  {
    var ph := s.phases[p];
    && (!ph.Idle? ==> ph.token < s.nextToken)
    && (Holds(ph) ==> ph.file < s.nextFile)
    && (p in s.alive && Holds(ph) ==> OwnsLock(s, p))
    && (p in s.alive && ph.Releasing? ==> ph.owned)
    && (ph.Suspecting? ==> ph.seen.token < s.nextToken)
    && (ph.Confirmed? ==> OwnerGone(s, ph.seen))
  }

  predicate LockOk(s: System) {
    s.lock.Some? ==>
      && s.lock.value.file < s.nextFile
      && (s.lock.value.payload.Some? ==> s.lock.value.payload.value.token < s.nextToken)
  }

  ghost predicate Invariant(s: System) {
    && s.alive <= s.phases.Keys
    && LockOk(s)
    && (forall p :: p in s.phases ==> ProcessOk(s, p))
    && forall p, q :: p in s.phases && q in s.phases && p != q && Holds(s.phases[p]) && Holds(s.phases[q])
         ==> s.phases[p].file != s.phases[q].file
  }

  lemma AtMostOneHolder(s: System, p: nat, q: nat)
    requires Invariant(s) && Holder(s, p) && Holder(s, q)
    ensures p == q
  {
    assert ProcessOk(s, p) && ProcessOk(s, q);
  }

  /** An eviction cannot hit the lock of a live holder. */
  lemma EvictionSpares(s: System, p: nat, q: nat)
    requires Invariant(s) && Runs(s, p) && s.phases[p].Confirmed? && Holder(s, q)
    ensures !Unchanged(s, s.phases[p].seen)
  {
    assert ProcessOk(s, p) && ProcessOk(s, q);
  }

  lemma StepKeepsFrame(s: System, s': System, p: nat)
    requires Invariant(s) && Step(s, s', p)
    ensures s'.alive <= s'.phases.Keys && s.nextToken <= s'.nextToken && s.nextFile <= s'.nextFile
    ensures LockOk(s')
    ensures forall q :: q in s.phases && q != p ==> q in s'.phases && s'.phases[q] == s.phases[q] && (q in s'.alive <==> q in s.alive)
    ensures forall q :: q in s'.phases ==> q == p || q in s.phases
  {
    hide OwnerGone;
    if p in s.phases { assert ProcessOk(s, p); }
  }

  /** No step of another process touches a live holder's lock. */
  lemma HolderUndisturbed(s: System, s': System, p: nat, q: nat)
    requires Invariant(s) && Step(s, s', p) && Holder(s, q) && p != q
    ensures s'.lock == s.lock
  {
    assert ProcessOk(s, q);
    if Runs(s, p) {
      assert ProcessOk(s, p);
      if Holds(s.phases[p]) { AtMostOneHolder(s, p, q); }
      if s.phases[p].Confirmed? { EvictionSpares(s, p, q); }
    }
  }

  lemma OthersStayOk(s: System, s': System, p: nat, q: nat)
    requires Invariant(s) && Step(s, s', p) && q in s.phases && q != p
    ensures q in s'.phases && ProcessOk(s', q)
  {
    StepKeepsFrame(s, s', p);
    assert ProcessOk(s, q);
    var ph := s.phases[q];
    if q in s.alive && Holds(ph) {
      HolderUndisturbed(s, s', p, q);
    }
    if ph.Confirmed? {
      GoneStaysGone(s, s', p, ph.seen);
    }
  }

  lemma GoneStaysGone(s: System, s': System, p: nat, seen: Observation)
    requires Invariant(s) && Step(s, s', p) && OwnerGone(s, seen)
    ensures OwnerGone(s', seen)
  {
    StepKeepsFrame(s, s', p);
    if p in s.phases { assert ProcessOk(s, p); }
  }

  lemma ActorStaysOk(s: System, s': System, p: nat)
    requires Invariant(s) && Step(s, s', p)
    ensures p in s'.phases && ProcessOk(s', p)
  {
    hide Step, Invariant, OwnsLock, OwnerGone, LockOk;
    StepKeepsFrame(s, s', p);
    ActorsFile(s, s', p);
    ActorOwns(s, s', p);
    ActorSuspects(s, s', p);
  }

  lemma ActorOwns(s: System, s': System, p: nat)
    requires Invariant(s) && Step(s, s', p) && p in s'.phases
    ensures p in s'.alive && Holds(s'.phases[p]) ==> OwnsLock(s', p)
    ensures p in s'.alive && s'.phases[p].Releasing? ==> s'.phases[p].owned
    ensures Holds(s'.phases[p]) ==> s'.phases[p].file < s'.nextFile
    ensures !s'.phases[p].Idle? ==> s'.phases[p].token < s'.nextToken
  {
    hide OwnerGone, LockOk;
    if p in s.phases { assert ProcessOk(s, p); }
  }

  lemma ActorSuspects(s: System, s': System, p: nat)
    requires Invariant(s) && Step(s, s', p) && p in s'.phases
    ensures s'.phases[p].Suspecting? ==> s'.phases[p].seen.token < s'.nextToken
    ensures s'.phases[p].Confirmed? ==> OwnerGone(s', s'.phases[p].seen)
  {
    hide OwnsLock;
    if p in s.phases {
      assert ProcessOk(s, p);
      if s.phases[p].Confirmed? || s.phases[p].Suspecting? { GoneStaysGoneIf(s, s', p, s.phases[p].seen); }
    }
  }

  lemma GoneStaysGoneIf(s: System, s': System, p: nat, seen: Observation)
    requires Invariant(s) && Step(s, s', p)
    ensures OwnerGone(s, seen) ==> OwnerGone(s', seen)
  {
    if OwnerGone(s, seen) { GoneStaysGone(s, s', p, seen); }
  }

  lemma StepKeepsInvariant(s: System, s': System, p: nat)
    requires Invariant(s) && Step(s, s', p)
    ensures Invariant(s')
  {
    StepKeepsFrame(s, s', p);
    ActorStaysOk(s, s', p);
    forall q | q in s'.phases ensures ProcessOk(s', q) {
      if q != p { OthersStayOk(s, s', p, q); }
    }
    forall a, b | a in s'.phases && b in s'.phases && a != b && Holds(s'.phases[a]) && Holds(s'.phases[b])
      ensures s'.phases[a].file != s'.phases[b].file
    {
      FilesDiffer(s, s', p, a, b);
    }
  }

  lemma FilesDiffer(s: System, s': System, p: nat, a: nat, b: nat)
    requires Invariant(s) && Step(s, s', p)
    requires a in s'.phases && b in s'.phases && a != b && Holds(s'.phases[a]) && Holds(s'.phases[b])
    ensures s'.phases[a].file != s'.phases[b].file
  {
    hide Step, OwnsLock, OwnerGone, LockOk;
    StepKeepsFrame(s, s', p);
    ActorsFile(s, s', p);
    assert a in s.phases ==> ProcessOk(s, a);
    assert b in s.phases ==> ProcessOk(s, b);
  }

  /** The acting process holds its old file, or the one it has just created. */
  lemma ActorsFile(s: System, s': System, p: nat)
    requires Step(s, s', p)
    ensures p in s'.phases
    ensures Holds(s'.phases[p]) ==>
      s'.phases[p].file == s.nextFile || (p in s.phases && Holds(s.phases[p]) && s.phases[p].file == s'.phases[p].file)
  {
  }

  // -------------------------------------------------- all interleavings

  lemma {:induction false} RunInvariant(trace: seq<System>, i: nat)
    requires Run(trace) && i < |trace|
    ensures Invariant(trace[i])
  {
    if i > 0 {
      RunInvariant(trace, i - 1);
      assert NextAt(trace, i - 1);
      var p :| Step(trace[i - 1], trace[i], p);
      StepKeepsInvariant(trace[i - 1], trace[i], p);
    }
  }

  /** Mutual exclusion: in every state of every run at most one live process holds the lock,
      even though process numbers and inode numbers may be reused. */
  lemma MutualExclusion(trace: seq<System>, i: nat, p: nat, q: nat)
    requires Run(trace) && i < |trace| && Holder(trace[i], p) && Holder(trace[i], q)
    ensures p == q
  {
    RunInvariant(trace, i);
    AtMostOneHolder(trace[i], p, q);
  }

  /** A live owner is never evicted, not even before its payload is written: while it holds the
      lock, no step of another process changes the lock file at all. */
  lemma LiveOwnerNeverEvicted(trace: seq<System>, i: nat, p: nat, q: nat)
    requires Run(trace) && i + 1 < |trace|
    requires Holder(trace[i], q) && Step(trace[i], trace[i + 1], p) && p != q
    ensures trace[i + 1].lock == trace[i].lock && trace[i].lock.Some?
    ensures Holder(trace[i + 1], q) && trace[i + 1].phases[q] == trace[i].phases[q]
  {
    RunInvariant(trace, i);
    HolderUndisturbed(trace[i], trace[i + 1], p, q);
    StepKeepsFrame(trace[i], trace[i + 1], p);
    assert ProcessOk(trace[i], q);
  }

  /** The release check of a holder always finds its own token, so the release error for a
      changed lock identity is never raised. */
  lemma ReleaseFindsOwnToken(trace: seq<System>, i: nat, p: nat)
    requires Run(trace) && i + 1 < |trace| && CheckRelease(trace[i], trace[i + 1], p)
    ensures trace[i + 1].phases[p].Releasing? && trace[i + 1].phases[p].owned
  {
    RunInvariant(trace, i);
    assert ProcessOk(trace[i], p);
  }

  /** A dead owner's written lock can always be cleared: three steps of any waiting process. */
  lemma DeadOwnerLockIsCleared(s: System, p: nat)
    requires Invariant(s) && Runs(s, p) && s.phases[p].Trying?
    requires s.lock.Some? && s.lock.value.payload.Some? && s.lock.value.payload.value.pid !in s.alive
    ensures exists s1, s2, s3 :: Observe(s, s1, p) && ProbeOwner(s1, s2, p) && Evict(s2, s3, p) && s3.lock.None?
  {
    var payload := s.lock.value.payload.value;
    var seen := Observation(payload.pid, payload.token, s.lock.value.inode);
    var s1 := Move(s, p, Suspecting(s.phases[p].token, seen));
    var s2 := Move(s1, p, Confirmed(s.phases[p].token, seen));
    var s3 := Move(s2, p, Trying(s.phases[p].token)).(lock := None);
    assert Observe(s, s1, p) && ProbeOwner(s1, s2, p) && Evict(s2, s3, p);
  }

  /** A release frees the lock: once a process has unlinked, there is no lock file. */
  lemma ReleaseFreesLock(trace: seq<System>, i: nat, p: nat)
    requires Run(trace) && i + 1 < |trace| && Unlink(trace[i], trace[i + 1], p)
    ensures trace[i].lock.Some? && trace[i + 1].lock.None? && trace[i + 1].phases[p] == Idle
    ensures NobodyHolds(trace[i + 1])
  {
    RunInvariant(trace, i);
    RunInvariant(trace, i + 1);
    assert ProcessOk(trace[i], p);
    FreeMeansNobody(trace[i + 1]);
  }

  ghost predicate NobodyHolds(s: System) {
    forall q :: !Holder(s, q)
  }

  lemma FreeMeansNobody(s: System)
    requires Invariant(s) && s.lock.None?
    ensures NobodyHolds(s)
  {
    forall q | q in s.phases ensures !Holder(s, q) {
      assert ProcessOk(s, q);
    }
  }

  predicate LockedBy(s: System, p: nat, token: nat) {
    s.lock.Some? && s.lock.value.payload == Some(Payload(p, token))
  }

  /** A free lock can be taken, and taking it puts the process's own payload there. */
  lemma FreeLockIsTaken(s: System, p: nat)
    requires Invariant(s) && Runs(s, p) && s.phases[p].Trying? && s.lock.None?
    ensures exists s1, s2 :: Create(s, s1, p) && WritePayload(s1, s2, p) && s2.phases[p].Holding? && LockedBy(s2, p, s.phases[p].token)
  {
    var token := s.phases[p].token;
    var empty := LockFile(s.nextFile, 0, None);
    var s1 := Move(s, p, Created(token, s.nextFile)).(lock := Some(empty), nextFile := s.nextFile + 1);
    var s2 := Move(s1, p, Holding(token, s.nextFile)).(lock := Some(empty.(payload := Some(Payload(p, token)))));
    assert Create(s, s1, p) && WritePayload(s1, s2, p);
  }

  /** A holder that is done releases in two steps of its own, whatever the others are doing. */
  lemma HolderCanRelease(s: System, p: nat)
    requires Invariant(s) && Runs(s, p) && s.phases[p].Holding?
    ensures exists s1, s2 :: CheckRelease(s, s1, p) && Unlink(s1, s2, p) && s2.lock.None? && s2.phases[p].Idle?
  {
    assert ProcessOk(s, p);
    var ph := s.phases[p];
    var s1 := Move(s, p, Releasing(ph.token, ph.file, true));
    var s2 := Move(s1, p, Idle).(lock := None);
    assert CheckRelease(s, s1, p) && Unlink(s1, s2, p);
  }

  // -------------------------------------------------- the order of a process's own steps

  /** Where a process can go from where it is. */
  ghost predicate Follows(a: Phase, b: Phase) {
    match a
    case Idle => b.Trying?
    case Trying(token) => b == Idle || ((b.Created? || b.Suspecting?) && b.token == token)
    case Created(token, file) => b == Holding(token, file)
    case Holding(token, file) => b.Releasing? && b.token == token && b.file == file
    case Releasing(_, _, _) => b == Idle
    case Suspecting(token, seen) => b == Trying(token) || b == Confirmed(token, seen)
    case Confirmed(token, _) => b == Trying(token)
  }

  /** A living process moves along the protocol and only by its own steps; a dead one does not move; the lock file changes
      only when it is created, written, evicted or released. */
  lemma StepFollowsProtocol(s: System, s': System, p: nat)
    requires Step(s, s', p)
    ensures Runs(s, p) && Runs(s', p) ==> s'.phases[p] == s.phases[p] || Follows(s.phases[p], s'.phases[p])
    ensures p in s.phases && p !in s.alive && p in s'.phases && p !in s'.alive ==> s'.phases[p] == s.phases[p]
    ensures p !in s.alive && p in s'.alive ==> p in s'.phases && s'.phases[p] == Idle
    ensures forall q :: q in s.phases && q != p ==> q in s'.phases && s'.phases[q] == s.phases[q]
    ensures s'.lock != s.lock ==> Runs(s, p) && (s.phases[p].Trying? || s.phases[p].Created? || s.phases[p].Confirmed? || s.phases[p].Releasing?)
  {
  }

  /** From a free lock, a process that is not running can start, take the lock, and give it back. */
  lemma FullCycle(s: System, p: nat)
    requires Invariant(s) && p !in s.alive && s.lock.None?
    ensures exists s1, s2 :: Spawn(s, s1, p) && Start(s1, s2, p) && TakesAndReturns(s2, p)
  {
    var s1 := Move(s, p, Idle).(alive := s.alive + {p});
    var s2 := Move(s1, p, Trying(s1.nextToken)).(nextToken := s1.nextToken + 1);
    assert Spawn(s, s1, p) && Start(s1, s2, p);
    StepKeepsInvariant(s, s1, p);
    StepKeepsInvariant(s1, s2, p);
    FreeLockIsTaken(s2, p);
    var s3, s4 :| Create(s2, s3, p) && WritePayload(s3, s4, p) && s4.phases[p].Holding? && LockedBy(s4, p, s2.phases[p].token);
    StepKeepsInvariant(s2, s3, p);
    StepKeepsInvariant(s3, s4, p);
    HolderCanRelease(s4, p);
    assert TakesAndReturns(s2, p);
  }

  ghost predicate TakesAndReturns(s: System, p: nat) {
    exists s1, s2 :: Create(s, s1, p) && WritePayload(s1, s2, p) && Holder(s2, p) && Returns(s2, p)
  }

  ghost predicate Returns(s: System, p: nat) {
    exists s1, s2 :: CheckRelease(s, s1, p) && Unlink(s1, s2, p) && s2.lock.None? && s2.phases[p].Idle?
  }
}
