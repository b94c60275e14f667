/** The evidence log: a hash chain that rotates into archives, with an incremental head
    checkpoint (scripts/audit_check.py, supervisor/evidence.py). */
module Evidence {
  import opened Sequences

  /** SHA-256 is injective and never yields GENESIS: a digest is what was hashed. */
  datatype Hash = Genesis | Digest(prev: Hash, body: Body)

  datatype Body = Entry(content: string) | ArchiveAnchor(previousArchive: Option<Hash>)

  /** `mac` names the key that authenticated the record, if any. */
  datatype Record = Record(prev: Hash, body: Body, hash: Hash, mac: Option<nat>)

  datatype Archive = Archive(number: nat, lines: seq<Record>)

  datatype Head = Head(key: nat, count: nat, tail: Hash, archiveTail: Option<Hash>)

  /** The durable files; archives are listed by file name. An absent active log is an empty one. */
  datatype Store = Store(active: seq<Record>, archives: seq<Archive>, head: Option<Head>)

  // -------------------------------------------------- reading

  function LastHash(lines: seq<Record>): Hash {
    if lines == [] then Genesis else lines[|lines| - 1].hash
  }

  function LatestArchiveTail(s: Store): Option<Hash> {
    if s.archives == [] then None else Some(LastHash(s.archives[|s.archives| - 1].lines))
  }

  function OrGenesis(h: Option<Hash>): Hash {
    match h case None => Genesis case Some(x) => x
  }

  function CurrentArchiveTail(s: Store): Option<Hash> {
    match s.head case Some(head) => head.archiveTail case None => LatestArchiveTail(s)
  }

  /** `_expected_evidence_head`: the checkpoint a full scan computes. */
  function FullScanHead(key: nat, s: Store): Head {
    Head(key, |s.active|, LastHash(s.active), LatestArchiveTail(s))
  }

  // -------------------------------------------------- writing one record

  datatype Link = Link(previous: Hash, count: Option<nat>, repair: bool)

  /** The `previous`/`count`/`repair` decision at the top of `_write_evidence_record`. */
  function ChainLink(s: Store): Link {
    if s.head.Some? && s.head.value.count > 0 then
      var head := s.head.value;
      var tail := LastHash(s.active);
      if tail == head.tail then Link(tail, Some(head.count), false)
      else if tail != Genesis && |s.active| == head.count + 1 then Link(tail, None, true)
      else Link(head.tail, None, true)
    else if s.active != [] then Link(LastHash(s.active), None, false)
    else Link(OrGenesis(LatestArchiveTail(s)), None, false)
  }

  function NewRecord(key: Option<nat>, s: Store, body: Body): Record {
    var prev := ChainLink(s).previous;
    Record(prev, body, Digest(prev, body), key)
  }

  function WithRecord(key: Option<nat>, s: Store, body: Body): Store {
    s.(active := s.active + [NewRecord(key, s, body)])
  }

  /** The head that is written after the record, from the values known before it. */
  function NextHead(key: nat, s: Store, body: Body): Head {
    var link := ChainLink(s);
    var after := WithRecord(Some(key), s, body);
    if link.repair then FullScanHead(key, after)
    else
      var count :=
        if link.count.Some? then link.count.value + 1
        else if s.head.Some? then s.head.value.count + 1
        else |after.active|;
      Head(key, count, LastHash(after.active), CurrentArchiveTail(s))
  }

  function AfterRecord(key: Option<nat>, s: Store, body: Body): Store {
    match key
    case None => WithRecord(key, s, body)
    case Some(k) => WithRecord(key, s, body).(head := Some(NextHead(k, s, body)))
  }

  // -------------------------------------------------- rotation and append, as durable steps

  function NextRotation(archives: seq<Archive>): nat {
    if archives == [] then 1
    else
      var n, last := NextRotation(archives[..|archives| - 1]), archives[|archives| - 1].number;
      if last + 1 > n then last + 1 else n
  }

  function Moved(s: Store): Store {
    s.(active := [], archives := s.archives + [Archive(NextRotation(s.archives), s.active)])
  }

  function WithFullHead(key: Option<nat>, s: Store): Store {
    match key case None => s case Some(k) => s.(head := Some(FullScanHead(k, s)))
  }

  function AnchorBody(s: Store): Body {
    ArchiveAnchor(LatestArchiveTail(s))
  }

  function AfterRotation(key: Option<nat>, s: Store): Store {
    WithFullHead(key, Moved(AfterRecord(key, s, AnchorBody(s))))
  }

  /** Every state that is durable at some instant of a rotation, the first and last included. */
  function RotationSteps(key: Option<nat>, s: Store): seq<Store> {
    var anchored := AfterRecord(key, s, AnchorBody(s));
    [s, WithRecord(key, s, AnchorBody(s)), anchored, Moved(anchored), AfterRotation(key, s)]
  }

  function Rotates(s: Store, full: bool): bool {
    full && s.active != []
  }

  function BeforeEntry(key: Option<nat>, s: Store, full: bool): Store {
    if Rotates(s, full) then AfterRotation(key, s) else s
  }

  function AfterAppend(key: Option<nat>, s: Store, full: bool, content: string): Store {
    AfterRecord(key, BeforeEntry(key, s, full), Entry(content))
  }

  /** Every durable state of `append_evidence`. */
  function AppendSteps(key: Option<nat>, s: Store, full: bool, content: string): seq<Store> {
    (if Rotates(s, full) then RotationSteps(key, s) else [s])
    + [WithRecord(key, BeforeEntry(key, s, full), Entry(content)), AfterAppend(key, s, full, content)]
  }

  // -------------------------------------------------- verification

  predicate RecordOk(key: Option<nat>, r: Record, prev: Hash) {
    r.prev == prev && r.hash == Digest(prev, r.body) && r.mac == key
  }

  predicate LineOk(key: Option<nat>, lines: seq<Record>, prev: Hash, i: nat)
    requires i < |lines|
  {
    RecordOk(key, lines[i], if i == 0 then prev else lines[i - 1].hash)
  }

  predicate ChainOk(key: Option<nat>, lines: seq<Record>, prev: Hash) {
    forall i :: 0 <= i < |lines| ==> LineOk(key, lines, prev, i)
  }

  function TailBefore(archives: seq<Archive>, i: nat): Hash
    requires i <= |archives|
  {
    if i == 0 then Genesis else LastHash(archives[i - 1].lines)
  }

  function StoredLink(lines: seq<Record>): Option<Hash> {
    if lines == [] then None
    else match lines[|lines| - 1].body case Entry(_) => None case ArchiveAnchor(p) => p
  }

  predicate ArchiveOk(key: Option<nat>, archives: seq<Archive>, i: nat)
    requires i < |archives|
  {
    && archives[i].lines != []
    && ChainOk(key, archives[i].lines, TailBefore(archives, i))
    && (i > 0 ==> StoredLink(archives[i].lines) == Some(TailBefore(archives, i)))
  }

  /** `ArchiveManifest.anchored` over the manifest of all archives. */
  predicate Anchored(key: Option<nat>, archives: seq<Archive>) {
    forall i :: 0 <= i < |archives| ==> ArchiveOk(key, archives, i)
  }

  predicate HeadOk(key: Option<nat>, s: Store) {
    match key case None => s.head == None case Some(k) => s.head == Some(FullScanHead(k, s))
  }

  /** `verify_chain`. */
  predicate ActiveOk(key: Option<nat>, s: Store) {
    ChainOk(key, s.active, OrGenesis(LatestArchiveTail(s))) && HeadOk(key, s)
  }

  predicate WholeOk(key: Option<nat>, s: Store) {
    ActiveOk(key, s) && Anchored(key, s.archives)
  }

  /** Archives and active log form one unbroken chain, whatever the checkpoint says. */
  predicate Unbroken(key: Option<nat>, s: Store) {
    ChainOk(key, s.active, OrGenesis(LatestArchiveTail(s))) && Anchored(key, s.archives)
  }

  predicate Numbered(archives: seq<Archive>) {
    forall i :: 0 <= i < |archives| ==> archives[i].number == i + 1
  }

  /** What every uninterrupted run keeps. A keyed store starts without a checkpoint. */
  predicate Healthy(key: Option<nat>, s: Store) {
    && Unbroken(key, s) && Numbered(s.archives)
    && (HeadOk(key, s) || s == Store([], [], None))
  }

  function Bodies(lines: seq<Record>): (r: seq<Body>)
    ensures |r| == |lines| && forall i :: 0 <= i < |r| ==> r[i] == lines[i].body
  {
    seq(|lines|, i requires 0 <= i < |lines| => lines[i].body)
  }

  function ArchivedHistory(archives: seq<Archive>): seq<Body> {
    if archives == [] then [] else ArchivedHistory(archives[..|archives| - 1]) + Bodies(archives[|archives| - 1].lines)
  }

  /** Archives followed by the active log. */
  function History(s: Store): seq<Body> {
    ArchivedHistory(s.archives) + Bodies(s.active)
  }

  // -------------------------------------------------- chains

  lemma ChainExtend(key: Option<nat>, lines: seq<Record>, prev: Hash, r: Record)
    requires ChainOk(key, lines, prev)
    requires RecordOk(key, r, if lines == [] then prev else LastHash(lines))
    ensures ChainOk(key, lines + [r], prev)
  {
    var more := lines + [r];
    forall i | 0 <= i < |more| ensures LineOk(key, more, prev, i) {
      if i < |lines| { assert LineOk(key, lines, prev, i); }
    }
  }

  lemma ChainPrefix(key: Option<nat>, lines: seq<Record>, prev: Hash, k: nat)
    requires ChainOk(key, lines, prev) && k <= |lines|
    ensures ChainOk(key, lines[..k], prev)
  {
    forall i | 0 <= i < k ensures LineOk(key, lines[..k], prev, i) {
      assert LineOk(key, lines, prev, i);
    }
  }

  function Depth(h: Hash): nat {
    match h case Genesis => 0 case Digest(prev, _) => 1 + Depth(prev)
  }

  lemma {:induction false} ChainDepth(key: Option<nat>, lines: seq<Record>, prev: Hash, i: nat)
    requires ChainOk(key, lines, prev) && i < |lines|
    ensures Depth(lines[i].hash) == Depth(prev) + i + 1
  {
    assert LineOk(key, lines, prev, i);
    if i > 0 { ChainDepth(key, lines, prev, i - 1); }
  }

  lemma AnchoredExtend(key: Option<nat>, archives: seq<Archive>, a: Archive)
    requires Anchored(key, archives)
    requires ArchiveOk(key, archives + [a], |archives|)
    ensures Anchored(key, archives + [a])
  {
    var more := archives + [a];
    forall i | 0 <= i < |more| ensures ArchiveOk(key, more, i) {
      if i < |archives| { assert ArchiveOk(key, archives, i); }
    }
  }

  lemma AnchoredPrefix(key: Option<nat>, archives: seq<Archive>, a: Archive)
    requires Anchored(key, archives + [a])
    ensures Anchored(key, archives)
    ensures ArchiveOk(key, archives + [a], |archives|)
  {
    forall i | 0 <= i < |archives| ensures ArchiveOk(key, archives, i) {
      assert ArchiveOk(key, archives + [a], i);
    }
  }

  lemma LastArchiveTail(s: Store)
    ensures OrGenesis(LatestArchiveTail(s)) == TailBefore(s.archives, |s.archives|)
  {
  }

  /** A new archive gets a number above all there are, so its file name is free. */
  lemma {:induction false} NextIsNew(archives: seq<Archive>)
    ensures NextRotation(archives) >= 1 && forall i :: 0 <= i < |archives| ==> archives[i].number < NextRotation(archives)
  {
    if archives != [] { NextIsNew(archives[..|archives| - 1]); }
  }

  lemma {:induction false} NumberedNext(archives: seq<Archive>)
    requires Numbered(archives)
    ensures NextRotation(archives) == |archives| + 1
  {
    if archives != [] { NumberedNext(archives[..|archives| - 1]); }
  }

  /** The tail of a non-empty chain differs from where it started. */
  lemma TailMovesOn(key: Option<nat>, lines: seq<Record>, prev: Hash)
    requires ChainOk(key, lines, prev) && lines != []
    ensures LastHash(lines) != prev && LastHash(lines) != Genesis
  {
    ChainDepth(key, lines, prev, |lines| - 1);
  }

  // -------------------------------------------------- uninterrupted appends

  /** On a healthy store the checkpoint shortcut links to the real tail. */
  lemma HealthyLink(key: Option<nat>, s: Store)
    requires Healthy(key, s)
    ensures var link := ChainLink(s);
      !link.repair && link.previous == if s.active == [] then OrGenesis(LatestArchiveTail(s)) else LastHash(s.active)
    ensures forall k :: key == Some(k) ==> forall body :: NextHead(k, s, body) == FullScanHead(k, WithRecord(key, s, body))
  {
  }

  lemma RecordKeepsHealth(key: Option<nat>, s: Store, body: Body)
    requires Healthy(key, s)
    ensures Healthy(key, AfterRecord(key, s, body)) && WholeOk(key, AfterRecord(key, s, body))
    ensures AfterRecord(key, s, body).archives == s.archives
    ensures Bodies(AfterRecord(key, s, body).active) == Bodies(s.active) + [body]
  {
    HealthyLink(key, s);
    ChainExtend(key, s.active, OrGenesis(LatestArchiveTail(s)), NewRecord(key, s, body));
    assert LatestArchiveTail(AfterRecord(key, s, body)) == LatestArchiveTail(s);
  }

  lemma RotationKeepsHealth(key: Option<nat>, s: Store)
    requires Healthy(key, s) && s.active != []
    ensures Healthy(key, AfterRotation(key, s)) && WholeOk(key, AfterRotation(key, s))
    ensures AfterRotation(key, s).active == []
    ensures ArchivedHistory(AfterRotation(key, s).archives) == History(s) + [AnchorBody(s)]
  {
    hide Healthy, WholeOk, Unbroken, HeadOk, ActiveOk, Numbered, AfterRecord, Moved, WithFullHead, ArchivedHistory, Bodies, LatestArchiveTail;
    var anchored := AfterRecord(key, s, AnchorBody(s));
    RecordKeepsHealth(key, s, AnchorBody(s));
    AnchorIsLast(key, s);
    MoveKeepsChain(key, anchored, LatestArchiveTail(s));
    MovedHistory(anchored);
    FullHeadHealthy(key, Moved(anchored));
  }

  lemma AnchorIsLast(key: Option<nat>, s: Store)
    requires Healthy(key, s)
    ensures var anchored := AfterRecord(key, s, AnchorBody(s));
      && anchored.active != [] && anchored.active[|anchored.active| - 1].body == AnchorBody(s)
      && anchored.archives == s.archives && LatestArchiveTail(anchored) == LatestArchiveTail(s)
      && Unbroken(key, anchored) && Numbered(anchored.archives) && (key == None ==> anchored.head == None)
  {
    hide ChainOk, Anchored, ChainLink;
    RecordKeepsHealth(key, s, AnchorBody(s));
  }

  lemma FullHeadHealthy(key: Option<nat>, s: Store)
    requires Unbroken(key, s) && Numbered(s.archives) && (key == None ==> s.head == None)
    ensures Healthy(key, WithFullHead(key, s)) && WholeOk(key, WithFullHead(key, s))
    ensures WithFullHead(key, s).active == s.active && WithFullHead(key, s).archives == s.archives
  {
    hide ChainOk, Anchored, Numbered;
  }

  lemma MovedHistory(s: Store)
    ensures Moved(s).active == [] && Moved(s).head == s.head
    ensures ArchivedHistory(Moved(s).archives) == History(s)
  {
    var moved := Moved(s);
    assert moved.archives[..|moved.archives| - 1] == s.archives;
  }

  lemma MoveKeepsChain(key: Option<nat>, s: Store, link: Option<Hash>)
    requires Unbroken(key, s) && Numbered(s.archives) && s.active != []
    requires s.active[|s.active| - 1].body == ArchiveAnchor(link) && link == LatestArchiveTail(s)
    ensures Unbroken(key, Moved(s)) && Numbered(Moved(s).archives)
    ensures LatestArchiveTail(Moved(s)) == Some(LastHash(s.active))
  {
    NumberedNext(s.archives);
    LastArchiveTail(s);
    var a := Archive(NextRotation(s.archives), s.active);
    assert TailBefore(s.archives + [a], |s.archives|) == TailBefore(s.archives, |s.archives|);
    AnchoredExtend(key, s.archives, a);
  }

  /** One append keeps the whole log verified and adds exactly the entry (after the anchor,
      when the log rotated). */
  lemma AppendKeepsHealth(key: Option<nat>, s: Store, full: bool, content: string)
    requires Healthy(key, s)
    ensures Healthy(key, AfterAppend(key, s, full, content)) && WholeOk(key, AfterAppend(key, s, full, content))
    ensures History(AfterAppend(key, s, full, content)) ==
      History(s) + (if Rotates(s, full) then [AnchorBody(s)] else []) + [Entry(content)]
  {
    hide Healthy, WholeOk, AfterRotation, AfterRecord;
    var before := BeforeEntry(key, s, full);
    if Rotates(s, full) {
      RotationKeepsHealth(key, s);
      assert History(before) == History(s) + [AnchorBody(s)];
    } else {
      assert History(s) + [] == History(s);
    }
    RecordKeepsHealth(key, before, Entry(content));
  }

  datatype Request = Request(full: bool, content: string)

  function AfterRun(key: Option<nat>, s: Store, run: seq<Request>): Store {
    if run == [] then s
    else
      var r := run[|run| - 1];
      AfterAppend(key, AfterRun(key, s, run[..|run| - 1]), r.full, r.content)
  }

  function EntryOf(b: Body): seq<string> {
    match b case Entry(c) => [c] case ArchiveAnchor(_) => []
  }

  function Entries(history: seq<Body>): seq<string> {
    if history == [] then []
    else Entries(history[..|history| - 1]) + EntryOf(history[|history| - 1])
  }

  function Contents(run: seq<Request>): (r: seq<string>)
    ensures |r| == |run| && forall i :: 0 <= i < |r| ==> r[i] == run[i].content
  {
    seq(|run|, i requires 0 <= i < |run| => run[i].content)
  }

  lemma EntriesAppend(history: seq<Body>, anchors: seq<Body>, content: string)
    requires anchors == [] || (|anchors| == 1 && anchors[0].ArchiveAnchor?)
    ensures Entries(history + anchors + [Entry(content)]) == Entries(history) + [content]
  {
    var h := history + anchors;
    assert (h + [Entry(content)])[..|h|] == h;
    if anchors == [] {
      assert h == history;
    } else {
      assert h[..|history|] == history;
    }
  }

  lemma EmptyHealthy(key: Option<nat>)
    ensures Healthy(key, Store([], [], None)) && Entries(History(Store([], [], None))) == []
  {
  }

  /** Every uninterrupted run from the empty store: everything verifies, the incremental head is
      the full-scan head, and no entry is lost, repeated or reordered. */
  lemma {:induction false} EveryRunVerifies(key: Option<nat>, run: seq<Request>)
    ensures var s := AfterRun(key, Store([], [], None), run);
      && Healthy(key, s) && (run != [] ==> WholeOk(key, s))
      && Entries(History(s)) == Contents(run)
  {
    hide Healthy, WholeOk, AfterAppend, History, Entries, Rotates;
    var empty := Store([], [], None);
    if run == [] {
      EmptyHealthy(key);
    } else {
      var n := |run| - 1;
      EveryRunVerifies(key, run[..n]);
      var before := AfterRun(key, empty, run[..n]);
      AppendKeepsHealth(key, before, run[n].full, run[n].content);
      EntriesAppend(History(before), if Rotates(before, run[n].full) then [AnchorBody(before)] else [], run[n].content);
    }
  }

  // -------------------------------------------------- interrupted appends

  /** The record is durable and the checkpoint is one record behind it. */
  predicate OneBehind(key: nat, s: Store) {
    && Unbroken(Some(key), s) && Numbered(s.archives) && s.active != []
    && var before := s.(active := s.active[..|s.active| - 1]);
       s.head == Some(FullScanHead(key, before)) || before == Store([], [], None)
  }

  /** The log has become an archive and the checkpoint still describes it. */
  predicate JustMoved(key: nat, s: Store) {
    && Unbroken(Some(key), s) && Numbered(s.archives) && s.active == []
    && s.head.Some? && UsableCheckpoint(s) && LatestArchiveTail(s) == Some(s.head.value.tail)
  }

  /** The stored checkpoint counts at least one record, or there is none yet. */
  predicate UsableCheckpoint(s: Store) {
    s.head.Some? ==> s.head.value.count > 0
  }

  /** Each state an append can be interrupted in is healthy, one record behind, or just moved. */
  lemma CrashStates(key: nat, s: Store, full: bool, content: string, crash: Store)
    requires Healthy(Some(key), s)
    requires crash in AppendSteps(Some(key), s, full, content)
    ensures Healthy(Some(key), crash) || OneBehind(key, crash) || JustMoved(key, crash)
  {
    hide Healthy, OneBehind, JustMoved, AfterRecord, Moved, AfterRotation, WithRecord, AfterAppend;
    var k := Some(key);
    AppendKeepsHealth(k, s, full, content);
    if Rotates(s, full) {
      RecordKeepsHealth(k, s, AnchorBody(s));
      RotationKeepsHealth(k, s);
      MovedState(key, s);
      RecordOnly(key, s, AnchorBody(s));
      RecordOnly(key, AfterRotation(k, s), Entry(content));
    } else {
      RecordOnly(key, s, Entry(content));
    }
  }

  lemma MovedState(key: nat, s: Store)
    requires Healthy(Some(key), s)
    ensures JustMoved(key, Moved(AfterRecord(Some(key), s, AnchorBody(s))))
  {
    hide ChainOk, Anchored, Numbered, ChainLink, AfterRecord;
    var anchored := AfterRecord(Some(key), s, AnchorBody(s));
    RecordKeepsHealth(Some(key), s, AnchorBody(s));
    AnchorIsLast(Some(key), s);
    MoveKeepsChain(Some(key), anchored, LatestArchiveTail(s));
    assert anchored.head == Some(FullScanHead(key, anchored));
  }

  lemma RecordOnly(key: nat, s: Store, body: Body)
    requires Healthy(Some(key), s)
    ensures OneBehind(key, WithRecord(Some(key), s, body))
  {
    var after := WithRecord(Some(key), s, body);
    RecordKeepsHealth(Some(key), s, body);
    assert after.active == AfterRecord(Some(key), s, body).active;
    assert after.active[..|after.active| - 1] == s.active;
    assert LatestArchiveTail(after) == LatestArchiveTail(s);
  }

  /** A lag of one record is repaired by the next record, unless the checkpoint counts zero. */
  lemma RepairOneBehind(key: nat, s: Store, body: Body)
    requires OneBehind(key, s) && UsableCheckpoint(s)
    ensures Healthy(Some(key), AfterRecord(Some(key), s, body)) && HeadOk(Some(key), AfterRecord(Some(key), s, body))
    ensures AfterRecord(Some(key), s, body).archives == s.archives
    ensures Bodies(AfterRecord(Some(key), s, body).active) == Bodies(s.active) + [body]
  {
    var k := Some(key);
    var prev := OrGenesis(LatestArchiveTail(s));
    TailMovesOn(k, s.active, prev);
    if |s.active| > 1 {
      ChainDepth(k, s.active, prev, |s.active| - 1);
      ChainDepth(k, s.active, prev, |s.active| - 2);
    }
    assert ChainLink(s).previous == LastHash(s.active);
    ChainExtend(k, s.active, prev, NewRecord(k, s, body));
    assert LatestArchiveTail(AfterRecord(k, s, body)) == LatestArchiveTail(s);
  }

  lemma RepairJustMoved(key: nat, s: Store, body: Body)
    requires JustMoved(key, s)
    ensures Healthy(Some(key), AfterRecord(Some(key), s, body)) && HeadOk(Some(key), AfterRecord(Some(key), s, body))
    ensures AfterRecord(Some(key), s, body).archives == s.archives
    ensures Bodies(AfterRecord(Some(key), s, body).active) == [body]
  {
    var k := Some(key);
    var last := s.archives[|s.archives| - 1];
    assert ArchiveOk(k, s.archives, |s.archives| - 1);
    TailMovesOn(k, last.lines, TailBefore(s.archives, |s.archives| - 1));
    assert ChainLink(s) == Link(s.head.value.tail, None, true);
    ChainExtend(k, [], OrGenesis(LatestArchiveTail(s)), NewRecord(k, s, body));
    assert s.active + [NewRecord(k, s, body)] == [NewRecord(k, s, body)];
    assert LatestArchiveTail(AfterRecord(k, s, body)) == LatestArchiveTail(s);
  }

  /** Interrupt an append or rotation between any two durable writes, while the stored checkpoint
      counts at least one record: the next completed append makes the whole log verify again,
      with every durable record still in place. */
  lemma NextAppendRepairs(key: nat, s: Store, full: bool, content: string, crash: Store, full': bool, content': string)
    requires Healthy(Some(key), s)
    requires crash in AppendSteps(Some(key), s, full, content) && UsableCheckpoint(crash)
    ensures var after := AfterAppend(Some(key), crash, full', content');
      && WholeOk(Some(key), after) && Healthy(Some(key), after)
      && History(after) == History(crash) + (if Rotates(crash, full') then [AnchorBody(crash)] else []) + [Entry(content')]
  {
    var k := Some(key);
    CrashStates(key, s, full, content, crash);
    if Healthy(k, crash) {
      AppendKeepsHealth(k, crash, full', content');
    } else if OneBehind(key, crash) {
      RepairByAppend(key, crash, full', content');
    } else {
      RepairJustMoved(key, crash, Entry(content'));
      assert History(crash) == ArchivedHistory(crash.archives);
    }
  }

  lemma RepairByAppend(key: nat, crash: Store, full: bool, content: string)
    requires OneBehind(key, crash) && UsableCheckpoint(crash)
    ensures var after := AfterAppend(Some(key), crash, full, content);
      && WholeOk(Some(key), after) && Healthy(Some(key), after)
      && History(after) == History(crash) + (if Rotates(crash, full) then [AnchorBody(crash)] else []) + [Entry(content)]
  {
    hide Healthy, WholeOk, Unbroken, Numbered, AfterRecord, AfterRotation, ChainOk;
    var k := Some(key);
    if full {
      RepairOneBehind(key, crash, AnchorBody(crash));
      HealthyParts(k, AfterRecord(k, crash, AnchorBody(crash)));
      RotationHeals(key, crash);
      RotationHistory(k, crash);
      RecordKeepsHealth(k, AfterRotation(k, crash), Entry(content));
    } else {
      RepairOneBehind(key, crash, Entry(content));
      HealthyParts(k, AfterRecord(k, crash, Entry(content)));
    }
  }

  lemma HealthyParts(key: Option<nat>, s: Store)
    requires Healthy(key, s)
    ensures Unbroken(key, s) && (HeadOk(key, s) ==> WholeOk(key, s))
  {
  }

  lemma RotationHistory(key: Option<nat>, s: Store)
    requires AfterRecord(key, s, AnchorBody(s)).archives == s.archives
    requires Bodies(AfterRecord(key, s, AnchorBody(s)).active) == Bodies(s.active) + [AnchorBody(s)]
    ensures AfterRotation(key, s).active == [] && ArchivedHistory(AfterRotation(key, s).archives) == History(s) + [AnchorBody(s)]
  {
    hide AfterRecord, ArchivedHistory, Bodies, Moved;
    MovedHistory(AfterRecord(key, s, AnchorBody(s)));
  }

  // -------------------------------------------------- where the repair does not reach

  /** The guard skips a checkpoint that counts zero: the count then stays short by the records it missed. */
  predicate CountShort(key: nat, s: Store, lag: nat) {
    && Unbroken(Some(key), s) && Numbered(s.archives) && lag > 0 && |s.active| > lag
    && s.head == Some(FullScanHead(key, s).(count := |s.active| - lag))
  }

  lemma MiscountStays(key: nat, s: Store, lag: nat, body: Body)
    requires CountShort(key, s, lag)
    ensures CountShort(key, AfterRecord(Some(key), s, body), lag)
  {
    var k := Some(key);
    ChainExtend(k, s.active, OrGenesis(LatestArchiveTail(s)), NewRecord(k, s, body));
    assert LatestArchiveTail(AfterRecord(k, s, body)) == LatestArchiveTail(s);
  }

  // -------------------------------------------------- a break never heals

  lemma BreakSurvivesRecord(key: Option<nat>, s: Store, body: Body)
    requires !Unbroken(key, s)
    ensures !Unbroken(key, AfterRecord(key, s, body))
  {
    var after := AfterRecord(key, s, body);
    assert LatestArchiveTail(after) == LatestArchiveTail(s);
    assert after.active[..|s.active|] == s.active;
    if Unbroken(key, after) {
      ChainPrefix(key, after.active, OrGenesis(LatestArchiveTail(s)), |s.active|);
    }
  }

  lemma BreakSurvivesMove(key: Option<nat>, s: Store)
    requires !Unbroken(key, s)
    ensures !Unbroken(key, WithFullHead(key, Moved(s)))
  {
    var a := Archive(NextRotation(s.archives), s.active);
    LastArchiveTail(s);
    assert TailBefore(s.archives + [a], |s.archives|) == TailBefore(s.archives, |s.archives|);
    if Anchored(key, s.archives + [a]) {
      AnchoredPrefix(key, s.archives, a);
    }
  }

  lemma BreakSurvivesAppend(key: Option<nat>, s: Store, full: bool, content: string)
    requires !Unbroken(key, s)
    ensures !Unbroken(key, AfterAppend(key, s, full, content))
  {
    if Rotates(s, full) {
      BreakSurvivesRecord(key, s, AnchorBody(s));
      BreakSurvivesMove(key, AfterRecord(key, s, AnchorBody(s)));
    }
    BreakSurvivesRecord(key, BeforeEntry(key, s, full), Entry(content));
  }

  lemma {:induction false} BreakSurvivesRun(key: Option<nat>, s: Store, run: seq<Request>)
    requires !Unbroken(key, s)
    ensures !WholeOk(key, AfterRun(key, s, run)) && !Unbroken(key, AfterRun(key, s, run))
  {
    if run != [] {
      var n := |run| - 1;
      BreakSurvivesRun(key, s, run[..n]);
      BreakSurvivesAppend(key, AfterRun(key, s, run[..n]), run[n].full, run[n].content);
    }
  }

  /** Linking to the checkpoint's tail when the log ends elsewhere breaks the chain. */
  lemma WrongLinkBreaks(key: Option<nat>, s: Store, body: Body)
    requires ChainLink(s).previous != if s.active == [] then OrGenesis(LatestArchiveTail(s)) else LastHash(s.active)
    ensures !Unbroken(key, AfterRecord(key, s, body))
  {
    var after := AfterRecord(key, s, body);
    assert !LineOk(key, after.active, OrGenesis(LatestArchiveTail(after)), |s.active|);
  }

  /** A log shorter than its checkpoint (cut back to k records, or deleted) is never healed: it
      does not verify, and after any further appends and rotations it still does not. */
  lemma TruncationNeverHeals(key: nat, s: Store, k: nat, run: seq<Request>)
    requires Healthy(Some(key), s) && k < |s.active|
    ensures var cut := s.(active := s.active[..k]);
      !WholeOk(Some(key), cut) && !WholeOk(Some(key), AfterRun(Some(key), cut, run))
  {
    var cut := s.(active := s.active[..k]);
    var prev := OrGenesis(LatestArchiveTail(s));
    ChainDepth(Some(key), s.active, prev, |s.active| - 1);
    if k > 0 { ChainDepth(Some(key), s.active, prev, k - 1); }
    assert LatestArchiveTail(cut) == LatestArchiveTail(s);
    CutRun(key, cut, run);
  }

  lemma {:induction false} CutRun(key: nat, cut: Store, run: seq<Request>)
    requires cut.head.Some? && cut.head.value.count > |cut.active|
    requires cut.head.value.tail != LastHash(cut.active)
    requires cut.active == [] ==> cut.head.value.tail != OrGenesis(LatestArchiveTail(cut))
    ensures run == [] ==> AfterRun(Some(key), cut, run) == cut
    ensures run != [] ==> !Unbroken(Some(key), AfterRun(Some(key), cut, run))
  {
    if run != [] {
      var n := |run| - 1;
      CutRun(key, cut, run[..n]);
      var before := AfterRun(Some(key), cut, run[..n]);
      if n == 0 {
        assert before == cut;
        if Rotates(cut, run[0].full) {
          WrongLinkBreaks(Some(key), cut, AnchorBody(cut));
          BreakSurvivesMove(Some(key), AfterRecord(Some(key), cut, AnchorBody(cut)));
          BreakSurvivesRecord(Some(key), AfterRotation(Some(key), cut), Entry(run[0].content));
        } else {
          WrongLinkBreaks(Some(key), cut, Entry(run[0].content));
        }
      } else {
        BreakSurvivesAppend(Some(key), before, run[n].full, run[n].content);
      }
    }
  }

  // -------------------------------------------------- any number of interruptions

  /** One after the other, records that became durable while their checkpoints did not. */
  function Interrupted(key: nat, s: Store, bodies: seq<Body>): Store {
    if bodies == [] then s
    else WithRecord(Some(key), Interrupted(key, s, bodies[..|bodies| - 1]), bodies[|bodies| - 1])
  }

  lemma InterruptedOnce(key: nat, s: Store, body: Body)
    ensures Interrupted(key, s, [body]) == WithRecord(Some(key), s, body)
  {
    hide WithRecord;
    assert [body][..0] == [];
    assert Interrupted(key, s, []) == s;
  }

  /** The checkpoint is untouched, and does not count a record: every record still links to the real tail. */
  lemma {:induction false} LooseInterruptions(key: nat, s: Store, bodies: seq<Body>)
    requires Healthy(Some(key), s) && (s.head.None? || s.head.value.count == 0)
    ensures var crash := Interrupted(key, s, bodies);
      && Unbroken(Some(key), crash) && Numbered(crash.archives) && crash.archives == s.archives
      && crash.head == s.head && s.active == [] && |crash.active| == |bodies|
  {
    if bodies != [] {
      var n := |bodies| - 1;
      LooseInterruptions(key, s, bodies[..n]);
      var before := Interrupted(key, s, bodies[..n]);
      ChainExtend(Some(key), before.active, OrGenesis(LatestArchiveTail(before)), NewRecord(Some(key), before, bodies[n]));
      assert LatestArchiveTail(WithRecord(Some(key), before, bodies[n])) == LatestArchiveTail(before);
    }
  }

  /** A checkpoint that counts a record rescues one interrupted append; the record after the second links wrongly. */
  lemma {:induction false} CountedInterruptions(key: nat, s: Store, bodies: seq<Body>, next: Body)
    requires Healthy(Some(key), s) && s.head.Some? && s.head.value.count > 0 && |bodies| >= 2
    ensures var crash := Interrupted(key, s, bodies);
      crash.active != [] && !Unbroken(Some(key), AfterRecord(Some(key), crash, next))
  {
    hide Healthy, WithRecord, Unbroken, AfterRecord;
    var k, n := Some(key), |bodies| - 1;
    var before := Interrupted(key, s, bodies[..n]);
    var crash := Interrupted(key, s, bodies);
    assert crash == WithRecord(k, before, bodies[n]);
    SameActive(k, before, bodies[n]);
    if n >= 2 {
      CountedInterruptions(key, s, bodies[..n], bodies[n]);
      SameChain(k, AfterRecord(k, before, bodies[n]), crash);
      BreakSurvivesRecord(k, crash, next);
    } else {
      assert bodies[..n] == [bodies[0]];
      InterruptedOnce(key, s, bodies[0]);
      SecondInterruption(key, s, bodies[0], bodies[1], next);
    }
  }

  lemma SameActive(key: Option<nat>, s: Store, body: Body)
    ensures var crash := WithRecord(key, s, body);
      crash.active == AfterRecord(key, s, body).active && crash.archives == AfterRecord(key, s, body).archives && crash.active != []
  {
  }

  lemma SecondInterruption(key: nat, s: Store, first: Body, second: Body, next: Body)
    requires Healthy(Some(key), s) && s.head.Some? && s.head.value.count > 0
    ensures var crash := WithRecord(Some(key), WithRecord(Some(key), s, first), second);
      !Unbroken(Some(key), AfterRecord(Some(key), crash, next))
  {
    var k := Some(key);
    var before := WithRecord(k, s, first);
    var crash := WithRecord(k, before, second);
    var prev := OrGenesis(LatestArchiveTail(s));
    RecordOnly(key, s, first);
    RepairOneBehind(key, before, second);
    assert crash.active == AfterRecord(k, before, second).active;
    ChainDepth(k, crash.active, prev, |s.active| + 1);
    ChainDepth(k, s.active, prev, |s.active| - 1);
    WrongLinkBreaks(k, crash, next);
  }

  lemma SameChain(key: Option<nat>, s: Store, t: Store)
    requires s.active == t.active && s.archives == t.archives
    ensures Unbroken(key, s) <==> Unbroken(key, t)
  {
  }

  /** Rotating writes a full-scan checkpoint: whatever the old one said, an unbroken chain is healthy again. */
  lemma RotationHeals(key: nat, s: Store)
    requires s.active != [] && Numbered(s.archives) && Unbroken(Some(key), AfterRecord(Some(key), s, AnchorBody(s)))
    ensures Healthy(Some(key), AfterRotation(Some(key), s))
  {
    hide ChainOk, Anchored, Healthy;
    var k := Some(key);
    var anchored := AfterRecord(k, s, AnchorBody(s));
    assert LatestArchiveTail(anchored) == LatestArchiveTail(s);
    MoveKeepsChain(k, anchored, LatestArchiveTail(s));
    FullHeadHealthy(k, Moved(anchored));
  }

  predicate Rotating(run: seq<Request>) {
    exists i :: 0 <= i < |run| && run[i].full
  }

  lemma RotatingSplit(run: seq<Request>)
    requires run != []
    ensures Rotating(run) <==> Rotating(run[..|run| - 1]) || run[|run| - 1].full
  {
    if Rotating(run) && !run[|run| - 1].full {
      var i :| 0 <= i < |run| && run[i].full;
      assert run[..|run| - 1][i].full;
    }
  }

  lemma {:induction false} HealthyRun(key: nat, s: Store, run: seq<Request>)
    requires Healthy(Some(key), s)
    ensures Healthy(Some(key), AfterRun(Some(key), s, run))
    ensures run != [] || HeadOk(Some(key), s) ==> WholeOk(Some(key), AfterRun(Some(key), s, run))
  {
    if run != [] {
      var n := |run| - 1;
      HealthyRun(key, s, run[..n]);
      AppendKeepsHealth(Some(key), AfterRun(Some(key), s, run[..n]), run[n].full, run[n].content);
    }
  }

  /** The miscount persists exactly until an append rotates the log. */
  lemma {:induction false} MiscountUntilRotation(key: nat, s: Store, lag: nat, run: seq<Request>)
    requires CountShort(key, s, lag)
    ensures var after := AfterRun(Some(key), s, run);
      if Rotating(run) then Healthy(Some(key), after) && WholeOk(Some(key), after)
      else CountShort(key, after, lag) && !WholeOk(Some(key), after)
  {
    hide CountShort, Healthy, WholeOk, Unbroken, Numbered;
    var k := Some(key);
    if run == [] {
      ShortIsWrong(key, s, lag);
    } else {
      var n := |run| - 1;
      var r, before := run[n], AfterRun(k, s, run[..n]);
      MiscountUntilRotation(key, s, lag, run[..n]);
      RotatingSplit(run);
      if Rotating(run[..n]) {
        AppendKeepsHealth(k, before, r.full, r.content);
      } else {
        ShortIsWrong(key, before, lag);
        if r.full {
          MiscountStays(key, before, lag, AnchorBody(before));
          ShortIsWrong(key, AfterRecord(k, before, AnchorBody(before)), lag);
          RotationHeals(key, before);
          RecordKeepsHealth(k, AfterRotation(k, before), Entry(r.content));
        } else {
          MiscountStays(key, before, lag, Entry(r.content));
          ShortIsWrong(key, AfterRecord(k, before, Entry(r.content)), lag);
        }
      }
    }
  }

  lemma ShortIsWrong(key: nat, s: Store, lag: nat)
    requires CountShort(key, s, lag)
    ensures !WholeOk(Some(key), s) && Unbroken(Some(key), s) && Numbered(s.archives) && s.active != []
  {
  }

  /** The next append after interruptions that a checkpoint without records did not see. */
  lemma LooseNextAppend(key: nat, s: Store, bodies: seq<Body>, r: Request)
    requires Healthy(Some(key), s) && (s.head.None? || s.head.value.count == 0) && bodies != []
    ensures var after := AfterAppend(Some(key), Interrupted(key, s, bodies), r.full, r.content);
      if s.head.None? || r.full then Healthy(Some(key), after) && WholeOk(Some(key), after)
      else CountShort(key, after, |bodies|)
  {
    hide Healthy;
    var k := Some(key);
    LooseInterruptions(key, s, bodies);
    var crash := Interrupted(key, s, bodies);
    LooseRecord(key, s, bodies, if r.full then AnchorBody(crash) else Entry(r.content));
    if r.full {
      RotationHeals(key, crash);
      RecordKeepsHealth(k, AfterRotation(k, crash), Entry(r.content));
    }
  }

  lemma LooseRecord(key: nat, s: Store, bodies: seq<Body>, body: Body)
    requires Healthy(Some(key), s) && (s.head.None? || s.head.value.count == 0) && bodies != []
    ensures var after := AfterRecord(Some(key), Interrupted(key, s, bodies), body);
      && Unbroken(Some(key), after) && Numbered(after.archives)
      && (s.head.None? ==> Healthy(Some(key), after) && WholeOk(Some(key), after))
      && (s.head.Some? ==> CountShort(key, after, |bodies|))
  {
    hide Interrupted, ChainOk, Anchored, Numbered, ChainLink, NextHead, NewRecord;
    LooseInterruptions(key, s, bodies);
    LooseLink(key, Interrupted(key, s, bodies), body);
    Grows(key, Interrupted(key, s, bodies), body);
    RecordComesLast(Some(key), Interrupted(key, s, bodies), body);
  }

  /** A checkpoint that counts no record does not say where to link. */
  lemma LooseLink(key: nat, crash: Store, body: Body)
    requires crash.active != [] && (crash.head.None? || (crash.head.value.count == 0 && crash.head.value.archiveTail == LatestArchiveTail(crash)))
    ensures ChainLink(crash).previous == RealTail(crash)
    ensures NextHead(key, crash, body) ==
      Head(key, if crash.head.None? then |crash.active| + 1 else 1, LastHash(WithRecord(Some(key), crash, body).active), LatestArchiveTail(crash))
  {
  }

  /** When a log recovers from interrupted appends, for any number of interruptions and any run of completed appends
      after them: if there was no checkpoint, with the first completed append; if it counted no record, with the first
      one that rotates; if it counted a record, after a single interruption only. */
  lemma InterruptionsExactly(key: nat, s: Store, bodies: seq<Body>, run: seq<Request>)
    requires Healthy(Some(key), s) && bodies != []
    ensures var crash := Interrupted(key, s, bodies);
      WholeOk(Some(key), AfterRun(Some(key), crash, run)) <==>
        run != [] && match s.head
          case None => true
          case Some(head) => if head.count == 0 then Rotating(run) else |bodies| == 1
  {
    hide Healthy, WholeOk, CountShort, AfterAppend, Interrupted;
    var crash := Interrupted(key, s, bodies);
    if run == [] {
      InterruptedIsWrong(key, s, bodies);
    } else {
      var first := AfterAppend(Some(key), crash, run[0].full, run[0].content);
      RunFromFirst(Some(key), crash, run);
      RotatingFromFirst(run);
      if s.head.None? || s.head.value.count == 0 {
        LooseNextAppend(key, s, bodies, run[0]);
        if s.head.None? || run[0].full {
          HealthyIfWhole(Some(key), first);
          HealthyRun(key, first, run[1..]);
        } else {
          MiscountUntilRotation(key, first, |bodies|, run[1..]);
        }
      } else if |bodies| == 1 {
        SingleInterruption(key, s, bodies, run[0]);
        HealthyIfWhole(Some(key), first);
        HealthyRun(key, first, run[1..]);
      } else {
        CountedNextAppend(key, s, bodies, run[0]);
        BreakSurvivesRun(Some(key), first, run[1..]);
      }
    }
  }

  lemma HealthyIfWhole(key: Option<nat>, s: Store)
    ensures WholeOk(key, s) ==> HeadOk(key, s)
  {
  }

  lemma SingleInterruption(key: nat, s: Store, bodies: seq<Body>, r: Request)
    requires Healthy(Some(key), s) && s.head.Some? && s.head.value.count > 0 && |bodies| == 1
    ensures var after := AfterAppend(Some(key), Interrupted(key, s, bodies), r.full, r.content);
      Healthy(Some(key), after) && WholeOk(Some(key), after)
  {
    hide Healthy, WholeOk, OneBehind, WithRecord, AfterAppend;
    assert bodies == [bodies[0]];
    InterruptedOnce(key, s, bodies[0]);
    InterruptedUsable(key, s, bodies[0]);
    RecordOnly(key, s, bodies[0]);
    RepairByAppend(key, Interrupted(key, s, bodies), r.full, r.content);
  }

  lemma InterruptedUsable(key: nat, s: Store, body: Body)
    ensures UsableCheckpoint(WithRecord(Some(key), s, body)) <==> UsableCheckpoint(s)
  {
  }

  lemma CountedNextAppend(key: nat, s: Store, bodies: seq<Body>, r: Request)
    requires Healthy(Some(key), s) && s.head.Some? && s.head.value.count > 0 && |bodies| >= 2
    ensures !Unbroken(Some(key), AfterAppend(Some(key), Interrupted(key, s, bodies), r.full, r.content))
  {
    hide Interrupted, Unbroken;
    var k, crash := Some(key), Interrupted(key, s, bodies);
    CountedInterruptions(key, s, bodies, if r.full then AnchorBody(crash) else Entry(r.content));
    if r.full {
      BreakSurvivesMove(k, AfterRecord(k, crash, AnchorBody(crash)));
      BreakSurvivesRecord(k, AfterRotation(k, crash), Entry(r.content));
    }
  }

  lemma {:induction false} InterruptedLength(key: nat, s: Store, bodies: seq<Body>)
    ensures var crash := Interrupted(key, s, bodies); crash.head == s.head && |crash.active| == |s.active| + |bodies|
  {
    if bodies != [] { InterruptedLength(key, s, bodies[..|bodies| - 1]); }
  }

  lemma InterruptedIsWrong(key: nat, s: Store, bodies: seq<Body>)
    requires Healthy(Some(key), s) && bodies != []
    ensures !WholeOk(Some(key), Interrupted(key, s, bodies))
  {
    InterruptedLength(key, s, bodies);
  }

  lemma {:induction false} RunFromFirst(key: Option<nat>, s: Store, run: seq<Request>)
    requires run != []
    ensures AfterRun(key, s, run) == AfterRun(key, AfterAppend(key, s, run[0].full, run[0].content), run[1..])
  {
    hide AfterAppend;
    var n := |run| - 1;
    if n == 0 {
      assert run[..0] == [] && run[1..] == [];
    } else {
      RunFromFirst(key, s, run[..n]);
      assert run[..n][1..] == run[1..][..n - 1];
    }
  }

  lemma RotatingFromFirst(run: seq<Request>)
    requires run != []
    ensures Rotating(run) <==> run[0].full || Rotating(run[1..])
  {
    if Rotating(run) && !run[0].full {
      var i :| 0 <= i < |run| && run[i].full;
      assert run[1..][i - 1].full;
    }
    if Rotating(run[1..]) {
      var i :| 0 <= i < |run[1..]| && run[1..][i].full;
      assert run[i + 1].full;
    }
  }

  /** In particular: an append interrupted before its checkpoint is repaired by the next append exactly when the stored
      checkpoint counts a record, or there is none, or the next append rotates. */
  lemma RepairedExactly(key: nat, s: Store, content: string, r: Request)
    requires Healthy(Some(key), s)
    ensures var crash := WithRecord(Some(key), s, Entry(content));
      WholeOk(Some(key), AfterAppend(Some(key), crash, r.full, r.content)) <==> UsableCheckpoint(s) || r.full
  {
    hide WholeOk, Healthy, AfterAppend, WithRecord;
    InterruptedOnce(key, s, Entry(content));
    InterruptionsExactly(key, s, [Entry(content)], [r]);
    assert [r][..0] == [] && [r][0].full == r.full;
    assert AfterRun(Some(key), WithRecord(Some(key), s, Entry(content)), []) == WithRecord(Some(key), s, Entry(content));
  }

  // -------------------------------------------------- appends stopped anywhere

  datatype Checkpoint = Absent | Zero | Counting

  /** All that decides how a log with lost checkpoints goes on. */
  datatype Mode =
    | Sound(checkpoint: Checkpoint)   // the checkpoint describes the log
    | Unseen(zero: bool)              // records that no checkpoint, or one that counts zero, did not see
    | Behind                          // one record behind a counting checkpoint
    | JustArchived                    // the log was moved, the checkpoint still describes it
    | Short                           // the checkpoint has the right tail and counts too few
    | Doomed                          // unbroken, but the next record will link wrongly
    | Broken

  /** A record became durable, its checkpoint did not. */
  function Wrote(m: Mode): Mode {
    match m
    case Sound(Absent) => Unseen(false)
    case Sound(Zero) => Unseen(true)
    case Sound(Counting) => Behind
    case Unseen(_) => m
    case Behind => Doomed
    case JustArchived => Doomed
    case Short => Doomed
    case Doomed => Broken
    case Broken => Broken
  }

  /** A record and its checkpoint became durable. */
  function Recorded(m: Mode): Mode {
    match m
    case Unseen(zero) => if zero then Short else Sound(Counting)
    case Short => Short
    case Doomed => Broken
    case Broken => Broken
    case _ => Sound(Counting)
  }

  function Archived(m: Mode): Mode {
    if m.Broken? then Broken else JustArchived
  }

  function Rotated(m: Mode): Mode {
    if m.Broken? then Broken else Sound(Zero)
  }

  predicate EmptyActive(m: Mode) {
    m == Sound(Absent) || m == Sound(Zero) || m.JustArchived?
  }

  /** An append that gets as far as its durable state number `stop`. */
  function ModeAfter(m: Mode, full: bool, stop: nat): Mode {
    if m.Broken? then Broken
    else if full && !EmptyActive(m) then
      var anchored := Recorded(m);
      match stop
      case 0 => m
      case 1 => Wrote(m)
      case 2 => anchored
      case 3 => Archived(anchored)
      case 4 => Rotated(anchored)
      case 5 => Wrote(Rotated(anchored))
      case _ => Recorded(Rotated(anchored))
    else
      match stop
      case 0 => m
      case 1 => Wrote(m)
      case _ => Recorded(m)
  }

  /** What a mode says about the stored files. */
  predicate Describes(key: nat, m: Mode, s: Store) {
    match m
    case Sound(Absent) => s == Store([], [], None)
    case Sound(Zero) => Healthy(Some(key), s) && s.head.Some? && s.head.value.count == 0
    case Sound(Counting) => Healthy(Some(key), s) && s.head.Some? && s.head.value.count > 0
    case Unseen(zero) =>
      && Unbroken(Some(key), s) && Numbered(s.archives) && s.active != []
      && s.head == if zero then Some(Head(key, 0, Genesis, LatestArchiveTail(s))) else None
    case Behind => OneBehind(key, s) && s.head.Some? && s.head.value.count > 0
    case JustArchived => JustMoved(key, s)
    case Short => s.head.Some? && s.head.value.count < |s.active| && CountShort(key, s, |s.active| - s.head.value.count)
    case Doomed =>
      Unbroken(Some(key), s) && Numbered(s.archives) && s.active != [] && ChainLink(s).previous != LastHash(s.active)
    case Broken => !Unbroken(Some(key), s)
  }

  /** The last hash of the whole log. */
  function RealTail(s: Store): Hash {
    if s.active == [] then OrGenesis(LatestArchiveTail(s)) else LastHash(s.active)
  }

  lemma Grows(key: nat, s: Store, body: Body)
    requires Unbroken(Some(key), s) && ChainLink(s).previous == RealTail(s)
    ensures var after := WithRecord(Some(key), s, body);
      && Unbroken(Some(key), after) && LatestArchiveTail(after) == LatestArchiveTail(s)
      && Unbroken(Some(key), AfterRecord(Some(key), s, body)) && LastHash(after.active) == Digest(RealTail(s), body)
  {
    hide ChainLink, NextHead;
    var after := WithRecord(Some(key), s, body);
    ChainExtend(Some(key), s.active, OrGenesis(LatestArchiveTail(s)), NewRecord(Some(key), s, body));
    assert LatestArchiveTail(after) == LatestArchiveTail(s);
    SameChain(Some(key), after, AfterRecord(Some(key), s, body));
  }

  lemma GrownBy(key: nat, s: Store, body: Body)
    requires Unbroken(Some(key), s) && ChainLink(s).previous == RealTail(s)
    ensures var after := WithRecord(Some(key), s, body);
      && Unbroken(Some(key), after) && LatestArchiveTail(after) == LatestArchiveTail(s)
      && LastHash(after.active) == Digest(RealTail(s), body) && LastHash(after.active) != RealTail(s)
      && forall h :: Depth(h) <= Depth(RealTail(s)) ==> LastHash(after.active) != h
  {
    hide Unbroken, ChainLink;
    Grows(key, s, body);
    assert Depth(LastHash(WithRecord(Some(key), s, body).active)) == Depth(RealTail(s)) + 1;
  }

  lemma BreakSurvivesWrite(key: nat, s: Store, body: Body)
    requires !Unbroken(Some(key), s) || ChainLink(s).previous != RealTail(s)
    ensures !Unbroken(Some(key), WithRecord(Some(key), s, body)) && !Unbroken(Some(key), AfterRecord(Some(key), s, body))
  {
    hide Unbroken;
    if Unbroken(Some(key), s) {
      WrongLinkBreaks(Some(key), s, body);
    } else {
      BreakSurvivesRecord(Some(key), s, body);
    }
    SameChain(Some(key), WithRecord(Some(key), s, body), AfterRecord(Some(key), s, body));
  }

  lemma WroteDescribed(key: nat, m: Mode, s: Store, body: Body)
    requires Describes(key, m, s)
    ensures Describes(key, Wrote(m), WithRecord(Some(key), s, body))
  {
    hide ChainOk, Anchored, Numbered;
    match m
    case Sound(Counting) => RecordOnly(key, s, body);
    case Sound(_) => EmptyHealthy(Some(key)); GrownBy(key, s, body);
    case Unseen(_) => GrownBy(key, s, body);
    case Behind => BehindLinks(key, s); GrownBy(key, s, body);
    case JustArchived => MovedLinks(key, s); GrownBy(key, s, body);
    case Short => GrownBy(key, s, body);
    case Doomed => BreakSurvivesWrite(key, s, body);
    case Broken => BreakSurvivesWrite(key, s, body);
  }

  lemma BehindLinks(key: nat, s: Store)
    requires OneBehind(key, s) && s.head.Some? && s.head.value.count > 0
    ensures ChainLink(s).previous == RealTail(s) && s.head.value.count + 1 == |s.active|
    ensures Depth(s.head.value.tail) < Depth(RealTail(s))
  {
    var n := |s.active|;
    var prev := OrGenesis(LatestArchiveTail(s));
    TailMovesOn(Some(key), s.active, prev);
    assert s.head.value.tail == s.active[n - 2].hash;
    ChainDepth(Some(key), s.active, prev, n - 1);
    ChainDepth(Some(key), s.active, prev, n - 2);
  }

  lemma MovedLinks(key: nat, s: Store)
    requires JustMoved(key, s)
    ensures ChainLink(s).previous == RealTail(s) && s.head.value.tail == RealTail(s)
  {
    var last := s.archives[|s.archives| - 1];
    assert ArchiveOk(Some(key), s.archives, |s.archives| - 1);
    TailMovesOn(Some(key), last.lines, TailBefore(s.archives, |s.archives| - 1));
  }

  lemma RecordedDescribed(key: nat, m: Mode, s: Store, body: Body)
    requires Describes(key, m, s)
    ensures Describes(key, Recorded(m), AfterRecord(Some(key), s, body))
  {
    hide ChainOk, Anchored, Numbered;
    match m
    case Sound(_) => RecordKeepsHealth(Some(key), s, body);
    case Unseen(_) => GrownBy(key, s, body);
    case Behind => RepairOneBehind(key, s, body);
    case JustArchived => RepairJustMoved(key, s, body);
    case Short => MiscountStays(key, s, |s.active| - s.head.value.count, body);
    case Doomed => BreakSurvivesWrite(key, s, body);
    case Broken => BreakSurvivesWrite(key, s, body);
  }

  lemma RotatedDescribed(key: nat, m: Mode, s: Store)
    requires Describes(key, m, s) && (m.Broken? || !EmptyActive(m))
    ensures Describes(key, Archived(Recorded(m)), Moved(AfterRecord(Some(key), s, AnchorBody(s))))
    ensures Describes(key, Rotated(Recorded(m)), AfterRotation(Some(key), s))
  {
    hide ChainOk, Anchored, Numbered, ChainLink, NewRecord, NextHead;
    var k, anchored := Some(key), AfterRecord(Some(key), s, AnchorBody(s));
    RecordedDescribed(key, m, s, AnchorBody(s));
    if Recorded(m).Broken? {
      BreakSurvivesMove(k, anchored);
      SameChain(k, Moved(anchored), WithFullHead(k, Moved(anchored)));
    } else {
      RecordComesLast(k, s, AnchorBody(s));
      MoveKeepsChain(k, anchored, LatestArchiveTail(s));
      FullHeadHealthy(k, Moved(anchored));
    }
  }

  lemma RecordComesLast(key: Option<nat>, s: Store, body: Body)
    ensures var after := AfterRecord(key, s, body);
      && after.active != [] && after.active[|after.active| - 1].body == body && after.archives == s.archives
      && LatestArchiveTail(after) == LatestArchiveTail(s)
  {
  }

  lemma ActiveByMode(key: nat, m: Mode, s: Store)
    requires Describes(key, m, s) && !m.Broken?
    ensures EmptyActive(m) <==> s.active == []
  {
    hide Unbroken, Numbered;
  }

  datatype Attempt = Attempt(full: bool, content: string, stop: nat)

  /** The durable state in which an append stops; a large enough `stop` completes it. */
  function Stopped(key: nat, s: Store, a: Attempt): Store {
    var steps := AppendSteps(Some(key), s, a.full, a.content);
    if a.stop < |steps| then steps[a.stop] else steps[|steps| - 1]
  }

  function AfterAttempts(key: nat, run: seq<Attempt>): Store {
    if run == [] then Store([], [], None) else Stopped(key, AfterAttempts(key, run[..|run| - 1]), run[|run| - 1])
  }

  function ModeOf(run: seq<Attempt>): Mode {
    if run == [] then Sound(Absent) else ModeAfter(ModeOf(run[..|run| - 1]), run[|run| - 1].full, run[|run| - 1].stop)
  }

  lemma StoppedDescribed(key: nat, m: Mode, s: Store, a: Attempt)
    requires Describes(key, m, s)
    ensures Describes(key, ModeAfter(m, a.full, a.stop), Stopped(key, s, a))
  {
    hide Describes, WithRecord, AfterRecord, AfterRotation, Moved;
    if !m.Broken? { ActiveByMode(key, m, s); }
    WroteDescribed(key, m, s, Entry(a.content));
    RecordedDescribed(key, m, s, Entry(a.content));
    if Rotates(s, a.full) {
      WroteDescribed(key, m, s, AnchorBody(s));
      RecordedDescribed(key, m, s, AnchorBody(s));
      RotatedDescribed(key, m, s);
      var rotated := AfterRotation(Some(key), s);
      WroteDescribed(key, Rotated(Recorded(m)), rotated, Entry(a.content));
      RecordedDescribed(key, Rotated(Recorded(m)), rotated, Entry(a.content));
    }
  }

  lemma {:induction false} AttemptsDescribed(key: nat, run: seq<Attempt>)
    ensures Describes(key, ModeOf(run), AfterAttempts(key, run))
  {
    hide Describes, ModeAfter, Stopped;
    if run == [] {
      StartDescribed(key);
    } else {
      AttemptsDescribed(key, run[..|run| - 1]);
      StoppedDescribed(key, ModeOf(run[..|run| - 1]), AfterAttempts(key, run[..|run| - 1]), run[|run| - 1]);
    }
  }

  lemma StartDescribed(key: nat)
    ensures Describes(key, Sound(Absent), Store([], [], None))
  {
  }

  lemma WholeByMode(key: nat, m: Mode, s: Store)
    requires Describes(key, m, s)
    ensures WholeOk(Some(key), s) <==> m == Sound(Zero) || m == Sound(Counting)
  {
    hide ChainOk, Anchored, Numbered;
  }

  /** Any sequence of appends, each stopped at any durable state, rotations included: how far each one got decides, by
      the small table above, whether the log verifies. */
  lemma AttemptsExactly(key: nat, run: seq<Attempt>)
    ensures WholeOk(Some(key), AfterAttempts(key, run)) <==> ModeOf(run) == Sound(Zero) || ModeOf(run) == Sound(Counting)
  {
    hide Describes, WholeOk;
    AttemptsDescribed(key, run);
    WholeByMode(key, ModeOf(run), AfterAttempts(key, run));
  }

  predicate Lost(m: Mode) {
    m.Doomed? || m.Broken?
  }

  lemma {:induction false} LostStays(run: seq<Attempt>, more: seq<Attempt>)
    requires Lost(ModeOf(run))
    ensures Lost(ModeOf(run + more))
  {
    if more == [] {
      assert run + more == run;
    } else {
      assert (run + more)[..|run + more| - 1] == run + more[..|more| - 1];
      LostStays(run, more[..|more| - 1]);
    }
  }

  /** A log can be made to verify again by further appends if and only if it is not lost; then one completed append that
      rotates does it. */
  lemma RepairableExactly(key: nat, run: seq<Attempt>, content: string)
    ensures (exists more :: WholeOk(Some(key), AfterAttempts(key, run + more))) <==> !Lost(ModeOf(run))
    ensures !Lost(ModeOf(run)) ==> WholeOk(Some(key), AfterAttempts(key, run + [Attempt(true, content, 6)]))
  {
    hide WholeOk, AfterAttempts;
    var next := [Attempt(true, content, 6)];
    assert (run + next)[..|run|] == run;
    AttemptsExactly(key, run + next);
    if Lost(ModeOf(run)) {
      forall more ensures !WholeOk(Some(key), AfterAttempts(key, run + more)) {
        LostStays(run, more);
        AttemptsExactly(key, run + more);
      }
    }
  }

  /** Whatever was durable before an append that is stopped anywhere is durable after it, in its place. */
  lemma StoppedKeepsRecords(key: nat, s: Store, a: Attempt)
    ensures History(s) <= History(Stopped(key, s, a))
  {
    hide ChainLink, ArchivedHistory, NextHead;
    var k := Some(key);
    RecordKeepsHistory(k, s, Entry(a.content));
    if Rotates(s, a.full) {
      var anchored := AfterRecord(k, s, AnchorBody(s));
      RecordKeepsHistory(k, s, AnchorBody(s));
      MovedHistory(anchored);
      RecordKeepsHistory(k, AfterRotation(k, s), Entry(a.content));
    }
  }

  lemma RecordKeepsHistory(key: Option<nat>, s: Store, body: Body)
    ensures History(WithRecord(key, s, body)) == History(s) + [body] && History(AfterRecord(key, s, body)) == History(s) + [body]
  {
    hide ChainLink, ArchivedHistory, NextHead;
    assert Bodies(WithRecord(key, s, body).active) == Bodies(s.active) + [body];
  }

  // -------------------------------------------------- what a verified log vouches for

  /** A record that was not made with this key is refused wherever it stands. */
  lemma ForeignRecordRefused(key: Option<nat>, lines: seq<Record>, prev: Hash, i: nat)
    requires i < |lines| && lines[i].mac != key
    ensures !ChainOk(key, lines, prev)
  {
    assert !LineOk(key, lines, prev, i);
  }

  /** An append under any other key, or without one, breaks the log for this key, whatever is appended afterwards. */
  lemma ForeignAppendBreaks(key: Option<nat>, other: Option<nat>, s: Store, full: bool, content: string, run: seq<Request>)
    requires key != other
    ensures !WholeOk(key, AfterAppend(other, s, full, content))
    ensures !WholeOk(key, AfterRun(key, AfterAppend(other, s, full, content), run))
  {
    hide ChainOk, Anchored;
    var after := AfterAppend(other, s, full, content);
    var before := BeforeEntry(other, s, full);
    ForeignRecordRefused(key, after.active, OrGenesis(LatestArchiveTail(after)), |before.active|);
    BreakSurvivesRun(key, after, run);
  }

  /** Two chains from the same start that end in the same hash are the same records. */
  lemma {:induction false} TailBindsChain(key: Option<nat>, a: seq<Record>, b: seq<Record>, prev: Hash)
    requires ChainOk(key, a, prev) && ChainOk(key, b, prev)
    requires (if a == [] then prev else LastHash(a)) == (if b == [] then prev else LastHash(b))
    ensures a == b
    decreases |a|
  {
    if a != [] { ChainDepth(key, a, prev, |a| - 1); }
    if b != [] { ChainDepth(key, b, prev, |b| - 1); }
    if a != [] {
      var n := |a| - 1;
      assert |b| == |a| && LineOk(key, a, prev, n) && LineOk(key, b, prev, n);
      ChainPrefix(key, a, prev, n);
      ChainPrefix(key, b, prev, n);
      TailBindsChain(key, a[..n], b[..n], prev);
      assert a == a[..n] + [a[n]] && b == b[..n] + [b[n]];
    }
  }

  /** All records, archives first. */
  function Lines(archives: seq<Archive>): seq<Record> {
    if archives == [] then [] else Lines(archives[..|archives| - 1]) + archives[|archives| - 1].lines
  }

  lemma ChainJoin(key: Option<nat>, a: seq<Record>, b: seq<Record>, prev: Hash)
    requires ChainOk(key, a, prev) && ChainOk(key, b, if a == [] then prev else LastHash(a))
    ensures ChainOk(key, a + b, prev)
  {
    var c := a + b;
    forall i | 0 <= i < |c| ensures LineOk(key, c, prev, i) {
      if i < |a| { assert LineOk(key, a, prev, i); } else { assert LineOk(key, b, if a == [] then prev else LastHash(a), i - |a|); }
    }
  }

  lemma {:induction false} ArchivesAreOneChain(key: Option<nat>, archives: seq<Archive>)
    requires Anchored(key, archives)
    ensures ChainOk(key, Lines(archives), Genesis)
    ensures archives == [] <==> Lines(archives) == []
    ensures LastHash(Lines(archives)) == TailBefore(archives, |archives|)
    ensures Bodies(Lines(archives)) == ArchivedHistory(archives)
  {
    if archives != [] {
      var n := |archives| - 1;
      assert archives == archives[..n] + [archives[n]];
      AnchoredPrefix(key, archives[..n], archives[n]);
      ArchivesAreOneChain(key, archives[..n]);
      assert ArchiveOk(key, archives, n) && TailBefore(archives[..n], n) == TailBefore(archives, n);
      ChainJoin(key, Lines(archives[..n]), archives[n].lines, Genesis);
    }
  }

  /** The checkpoint binds everything: two stores that verify with the same checkpoint record the same history, so no
      record can be changed, dropped, added or moved anywhere, archives included, while the checkpoint stays. */
  lemma CheckpointBindsHistory(key: nat, s: Store, t: Store)
    requires WholeOk(Some(key), s) && WholeOk(Some(key), t) && s.head == t.head
    ensures History(s) == History(t)
  {
    hide ChainOk, Anchored;
    ArchivesAreOneChain(Some(key), s.archives);
    ArchivesAreOneChain(Some(key), t.archives);
    LastArchiveTail(s);
    LastArchiveTail(t);
    TailBindsChain(Some(key), s.active, t.active, OrGenesis(LatestArchiveTail(s)));
    TailBindsChain(Some(key), Lines(s.archives), Lines(t.archives), Genesis);
  }

  // -------------------------------------------------- the log as the program keeps it

  /** The evidence files of one workspace, written in place. */
  class EvidenceLog {
    const key: Option<nat>
    var active: seq<Record>
    var archives: seq<Archive>
    var head: Option<Head>

    ghost function Stored(): Store
      reads this
    {
      Store(active, archives, head)
    }

    constructor (key: Option<nat>)
      ensures this.key == key && Stored() == Store([], [], None)
    {
      this.key := key;
      active, archives, head := [], [], None;
    }

    /** `_write_evidence_record` on the active log. */
    method WriteRecord(body: Body) returns (hash: Hash)
      modifies this
      ensures Stored() == AfterRecord(key, old(Stored()), body)
      ensures hash == LastHash(active)
    {
      var before := Store(active, archives, head);
      var link := ChainLink(before);
      var rec := Record(link.previous, body, Digest(link.previous, body), key);
      active := active + [rec];
      hash := rec.hash;
      if key.Some? {
        if link.repair {
          head := Some(FullScanHead(key.value, Store(active, archives, head)));
        } else {
          var count := if link.count.Some? then link.count.value + 1
                       else if head.Some? then head.value.count + 1 else |active|;
          head := Some(Head(key.value, count, hash, CurrentArchiveTail(before)));
        }
      }
    }

    /** `maybe_rotate`; `full` says whether the log has reached the size limit. */
    method MaybeRotate(full: bool)
      modifies this
      ensures Stored() == BeforeEntry(key, old(Stored()), full)
    {
      if active == [] || !full {
        return;
      }
      var anchor := ArchiveAnchor(LatestArchiveTail(Store(active, archives, head)));
      var _ := WriteRecord(anchor);
      archives := archives + [Archive(NextRotation(archives), active)];
      active := [];
      if key.Some? {
        head := Some(FullScanHead(key.value, Store(active, archives, head)));
      }
    }

    /** `append_evidence`. */
    method Append(full: bool, content: string) returns (hash: Hash)
      modifies this
      ensures Stored() == AfterAppend(key, old(Stored()), full, content)
      ensures old(Healthy(key, Stored())) ==> Healthy(key, Stored()) && WholeOk(key, Stored())
    {
      ghost var before := Stored();
      MaybeRotate(full);
      hash := WriteRecord(Entry(content));
      if Healthy(key, before) {
        AppendKeepsHealth(key, before, full, content);
      }
    }
  }

  /** The line loop of `verify_jsonl_chain` and `verify_chain`. */
  method VerifyLines(key: Option<nat>, lines: seq<Record>, initial: Hash) returns (ok: bool, count: nat)
    ensures ok <==> ChainOk(key, lines, initial)
    ensures ok ==> count == |lines|
    ensures !ok ==> count < |lines| && ChainOk(key, lines[..count], initial) && !LineOk(key, lines, initial, count)
  {
    var prev := initial;
    count := 0;
    while count < |lines|
      invariant count <= |lines|
      invariant forall i :: 0 <= i < count ==> LineOk(key, lines, initial, i)
      invariant prev == if count == 0 then initial else lines[count - 1].hash
    {
      if !RecordOk(key, lines[count], prev) {
        forall i | 0 <= i < count ensures LineOk(key, lines[..count], initial, i) {
          assert LineOk(key, lines, initial, i);
        }
        assert !LineOk(key, lines, initial, count);
        return false, count;
      }
      assert LineOk(key, lines, initial, count);
      prev := lines[count].hash;
      count := count + 1;
    }
    ok := true;
  }

  function TailHash(lines: seq<Record>): Option<Hash> {
    if lines == [] then None else Some(LastHash(lines))
  }

  /** `expected_prev`: the tail of the last archive before i that has one. */
  function ExpectedBefore(archives: seq<Archive>, i: nat): Hash
    requires i <= |archives|
  {
    if i == 0 then Genesis
    else if archives[i - 1].lines == [] then ExpectedBefore(archives, i - 1)
    else LastHash(archives[i - 1].lines)
  }

  predicate ManifestItemOk(key: Option<nat>, archives: seq<Archive>, i: nat)
    requires i < |archives|
  {
    && ChainOk(key, archives[i].lines, ExpectedBefore(archives, i))
    && (i > 0 ==> StoredLink(archives[i].lines) == TailHash(archives[i - 1].lines))
  }

  /** `build_archive_manifest` with `ArchiveManifest.anchored`. */
  method VerifyArchives(key: Option<nat>, archives: seq<Archive>) returns (anchored: bool)
    ensures anchored <==> forall i :: 0 <= i < |archives| ==> ManifestItemOk(key, archives, i)
    ensures (forall i :: 0 <= i < |archives| ==> archives[i].lines != []) ==> (anchored <==> Anchored(key, archives))
  {
    anchored := true;
    var expected := Genesis;
    for i := 0 to |archives|
      invariant expected == ExpectedBefore(archives, i)
      invariant anchored <==> forall j :: 0 <= j < i ==> ManifestItemOk(key, archives, j)
    {
      var ok, _ := VerifyLines(key, archives[i].lines, expected);
      var linked := i == 0 || StoredLink(archives[i].lines) == TailHash(archives[i - 1].lines);
      assert ok && linked <==> ManifestItemOk(key, archives, i);
      anchored := anchored && ok && linked;
      if archives[i].lines != [] {
        expected := LastHash(archives[i].lines);
      }
    }
    ManifestAgrees(key, archives);
  }

  /** Rotation archives no empty file; without one, the manifest check is the chain across files. */
  lemma ManifestAgrees(key: Option<nat>, archives: seq<Archive>)
    ensures (forall i :: 0 <= i < |archives| ==> archives[i].lines != []) ==>
      ((forall i :: 0 <= i < |archives| ==> ManifestItemOk(key, archives, i)) <==> Anchored(key, archives))
  {
    if forall i :: 0 <= i < |archives| ==> archives[i].lines != [] {
      forall i | 0 <= i < |archives| ensures ManifestItemOk(key, archives, i) <==> ArchiveOk(key, archives, i) {
        assert i > 0 ==> archives[i - 1].lines != [];
      }
    }
  }
}
