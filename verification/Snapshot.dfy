/** Workspace snapshots and their restoration over a mutable tree with links (scripts/audit_check.py). */
module Snapshot {
  import opened Sequences
  import opened Trees

  const SKIP_DIRS := {".git", ".plan-auditor", "__pycache__", ".pytest_cache"}

  // -------------------------------------------------- walking

  /** Inside (or itself) a directory, or a link to one, with a skipped name. */
  predicate Skipped(t: Tree, p: Path) {
    exists k :: 0 < k <= |p| && SkipsAt(t, p, k)
  }

  predicate SkipsAt(t: Tree, p: Path, k: nat)
    requires 0 < k <= |p|
  {
    p[k - 1] in SKIP_DIRS && p[..k] in t && LeadsToDir(t, p[..k])
  }

  /** `_walk_snapshot_tree` over the whole workspace. */
  function Walk(t: Tree): Tree {
    map p | p in t && !Skipped(t, p) :: t[p]
  }

  /** `_snapshot_lexical_path`: what stands above the path does not lead out of the workspace. */
  predicate Inside(t: Tree, p: Path) {
    p != [] && RealPath(t, [], Parent(p), MAX_LINKS).Some?
  }

  /** `_safe_snapshot_symlink_target`: followed from where the link is named, its target stays in the workspace. */
  predicate TargetInside(t: Tree, link: Path, target: seq<string>) {
    link != [] && RealPath(t, [], Parent(link) + target, MAX_LINKS).Some?
  }

  predicate LinksInside(t: Tree, entries: Tree) {
    forall e :: e in entries && entries[e].Link? ==> TargetInside(t, e, entries[e].target)
  }

  predicate SkipNamesLead(t: Tree) {
    forall p :: p in t && |p| == 1 && p[0] in SKIP_DIRS ==> LeadsToDir(t, p)
  }

  /** The walk refuses anything at the top level that has a skipped name and does not lead to a directory, and links that
      lead out of the workspace. */
  predicate Walkable(t: Tree) {
    SkipNamesLead(t) && LinksInside(t, Walk(t))
  }

  /** The part of the tree at or below `place`, listed under the name `root`. */
  function Renamed(t: Tree, place: Path, root: Path): Tree {
    map p | p in Suffixed(t, place, root) :: t[place + p[|root|..]]
  }

  function Suffixed(t: Tree, place: Path, root: Path): (r: set<Path>)
    ensures forall p :: p in r ==> root <= p && place + p[|root|..] in t
    ensures forall q :: q in t && place <= q ==> root + q[|place|..] in r
  {
    var r := set q | q in t && place <= q :: root + q[|place|..];
    assert forall q :: q in t && place <= q ==> (root + q[|place|..])[|root|..] == q[|place|..] && place + q[|place|..] == q;
    r
  }

  /** `_walk_snapshot_tree` from a given root, which may lie below a link: nothing below it is skipped. */
  function WalkFrom(t: Tree, root: Path): Tree {
    match Locate(t, root) case None => map[] case Some(place) => Renamed(t, place, root)
  }

  datatype Scope = FullWorkspace | Explicit

  /** The manifest together with the archived contents. */
  datatype Manifest = Manifest(scope: Scope, roots: seq<Path>, absent: seq<Path>, entries: Tree)

  /** `_normalize_snapshot_rel`. */
  predicate SafePath(p: Path) {
    p != [] && NormalPath(p) && p[0] !in SKIP_DIRS
  }

  /** `os.path.lexists`. */
  predicate Exists(t: Tree, p: Path) {
    Locate(t, p).Some? && Locate(t, p).value in t
  }

  function PresentEntries(t: Tree, roots: seq<Path>): Tree {
    if roots == [] then map[] else PresentEntries(t, roots[..|roots| - 1]) + WalkFrom(t, roots[|roots| - 1])
  }

  function AbsentRoots(t: Tree, roots: seq<Path>): seq<Path> {
    if roots == [] then []
    else AbsentRoots(t, roots[..|roots| - 1]) + if Exists(t, roots[|roots| - 1]) then [] else [roots[|roots| - 1]]
  }

  /** `make_snapshot`. */
  function MakeSnapshot(t: Tree, explicit: seq<Path>): Result<Manifest> {
    if explicit == [] then
      if Walkable(t) then Ok(Manifest(FullWorkspace, [], [], Walk(t))) else Err
    else if (forall r :: r in explicit ==> SafePath(r) && Inside(t, r)) && LinksInside(t, PresentEntries(t, explicit))
    then Ok(Manifest(Explicit, explicit, AbsentRoots(t, explicit), PresentEntries(t, explicit)))
    else Err
  }

  // -------------------------------------------------- what restoring may touch

  predicate AboveSome(entries: Tree, q: Path) {
    exists e :: e in entries && q < e
  }

  /** No recorded file or link stands above the path. */
  predicate NoFileOver(entries: Tree, q: Path) {
    forall e :: e in entries && e < q ==> entries[e].Dir?
  }

  ghost predicate SurvivorOk(before: Tree, after: Tree, entries: Tree, q: Path) {
    q in after && q !in entries ==>
      (q in before && after[q] == before[q]) || (after[q].Dir? && AboveSome(entries, q))
  }

  ghost predicate UntouchedOk(before: Tree, after: Tree, entries: Tree, q: Path) {
    q in before && q !in entries && NoFileOver(entries, q) ==> q in after && after[q] == before[q]
  }

  /** Apart from the entries themselves and what recorded files and links replace, only missing ancestor directories may
      appear and nothing may disappear or change. */
  ghost predicate Kept(before: Tree, after: Tree, entries: Tree) {
    forall q :: SurvivorOk(before, after, entries, q) && UntouchedOk(before, after, entries, q)
  }

  lemma KeptWithout(before: Tree, t: Tree, entries: Tree, e: Path)
    requires Kept(before, t, entries) && e in entries
    requires entries[e].Dir? ==> forall q :: q in t && e <= q ==> q == e
    ensures Kept(before, Without(t, {e}), entries)
  {
    forall q ensures SurvivorOk(before, Without(t, {e}), entries, q) && UntouchedOk(before, Without(t, {e}), entries, q) {
      assert SurvivorOk(before, t, entries, q) && UntouchedOk(before, t, entries, q);
      assert e <= q && e != q ==> e < q;
    }
  }

  lemma KeptMakeDirs(before: Tree, t: Tree, entries: Tree, d: Path, e: Path)
    requires Kept(before, t, entries) && e in entries && d <= e
    ensures Kept(before, PlainDirs(t, d), entries)
  {
    var after := PlainDirs(t, d);
    forall q ensures SurvivorOk(before, after, entries, q) && UntouchedOk(before, after, entries, q) {
      assert SurvivorOk(before, t, entries, q) && UntouchedOk(before, t, entries, q);
      if q in after && q !in t && q !in entries {
        assert q <= e && q != e;
        assert q < e;
      }
    }
  }

  lemma KeptPut(before: Tree, t: Tree, entries: Tree, e: Path, entry: Entry)
    requires Kept(before, t, entries) && e in entries
    ensures Kept(before, t[e := entry], entries)
  {
    var after := t[e := entry];
    forall q ensures SurvivorOk(before, after, entries, q) && UntouchedOk(before, after, entries, q) {
      assert SurvivorOk(before, t, entries, q) && UntouchedOk(before, t, entries, q);
    }
  }

  // -------------------------------------------------- restoring, entry by entry

  predicate ManifestAccepted(m: Manifest) {
    && (forall p :: p in m.entries ==> SafePath(p)) && (forall p :: p in m.roots + m.absent ==> SafePath(p))
    && forall p, k :: p in m.entries && 0 < k < |p| && p[..k] in m.entries ==> m.entries[p[..k]].Dir?
  }

  predicate InScope(m: Manifest, p: Path) {
    m.scope == FullWorkspace || exists r :: r in m.roots + m.absent && r <= p
  }

  /** What the deletion loop removes. */
  function Stale(m: Manifest, t: Tree): set<Path> {
    set p | p in Walk(t) && InScope(m, p) && p !in m.entries
  }

  /** Every ancestor of an entry is itself an entry: what a full-workspace manifest looks like. */
  ghost predicate Closed(entries: Tree) {
    forall p, k :: p in entries && 0 < k < |p| ==> p[..k] in entries && entries[p[..k]].Dir?
  }

  /** Whatever stands above an entry without being one is a directory. */
  ghost predicate Roomy(entries: Tree, t: Tree) {
    forall e, k :: e in entries && 0 < k < |e| && e[..k] !in entries && e[..k] in t ==> t[e[..k]].Dir?
  }

  /** No link stands above an entry, unless it stands where a recorded directory will be. */
  ghost predicate NoLinkAbove(entries: Tree, t: Tree) {
    forall e, k :: e in entries && 0 < k < |e| && e[..k] !in entries && e[..k] in t ==> !t[e[..k]].Link?
  }

  /** `rel` has the right kind, or is a file or link still to be written. */
  predicate Shaped(t: Tree, rel: Path, e: Entry) {
    if e.Dir? then rel in t && t[rel].Dir? else rel in t ==> SameKind(t[rel], e)
  }

  predicate Written(t: Tree, rel: Path, e: Entry) {
    rel in t && t[rel] == e
  }

  /** The final comparison: kind, content and link target, not the mode. */
  predicate Matches(found: Entry, e: Entry) {
    SameKind(found, e) && (e.File? ==> found.content == e.content) && (e.Link? ==> found.target == e.target)
  }

  predicate Verified(t: Tree, rel: Path, e: Entry) {
    Exists(t, rel) && Matches(t[Locate(t, rel).value], e)
  }

  predicate NothingAt(t: Tree, rel: Path) {
    Inside(t, rel) && !Exists(t, rel)
  }

  /** The tree after one operation on one entry, and the places it unlinked, wrote or gave a mode. */
  datatype Step = Step(tree: Tree, touched: set<Path>, ok: bool)

  /** Clear an entry of the wrong kind, and create a recorded directory. */
  function ShapeStep(t: Tree, rel: Path, e: Entry): Step {
    match Locate(t, rel)
    case None => Step(t, {}, false)
    case Some(place) =>
      var wrong := place in t && !SameKind(t[place], e);
      var cleared := if wrong then Without(t, {place}) else t;
      var touched := if wrong then {place} else {};
      if !e.Dir? then Step(cleared, touched, true)
      else match MakeDirsAt(cleared, rel)
        case Err => Step(cleared, touched, false)
        case Ok(made) => Step(made, touched, true)
  }

  /** Make the parents of a file or link, and clear its place. */
  function ClearStep(t: Tree, rel: Path): Step
    requires rel != []
  {
    match MakeDirsAt(t, Parent(rel))
    case Err => Step(t, {}, false)
    case Ok(made) =>
      match Locate(made, rel)
      case None => Step(made, {}, false)
      case Some(place) => Step(Without(made, {place}), if place in made then {place} else {}, true)
  }

  /** One file or link: parents, then clear, then write. */
  function WriteStep(t: Tree, rel: Path, e: Entry): Step
    requires rel != []
  {
    var c := ClearStep(t, rel);
    if !c.ok then c
    else match Locate(c.tree, rel)
      case None => c.(ok := false)
      case Some(target) =>
        if target in c.tree || !DirAt(c.tree, Parent(target)) then c.(ok := false)
        else Step(c.tree[target := e], c.touched + {target}, true)
  }

  /** `os.chmod`, which follows the path to its end. */
  function ChmodStep(t: Tree, rel: Path, mode: int): Step {
    match Resolve(t, [], rel, MAX_LINKS)
    case None => Step(t, {}, false)
    case Some(place) =>
      if place !in t then Step(t, {}, false)
      else
        var entry := match t[place] case File(content, _) => File(content, mode) case Dir(_) => Dir(mode) case Link(x) => Link(x);
        Step(t[place := entry], {place}, true)
  }

  // -------------------------------------------------- the workspace

  class Workspace {
    var tree: Tree
    /** Every place that was unlinked, written or given a mode since the restore began. */
    ghost var touched: set<Path>

    constructor (t: Tree)
      ensures tree == t && touched == {}
    {
      tree, touched := t, {};
    }

    /** `_remove_snapshot_path`: unlink, or remove the whole directory. */
    method Remove(p: Path) returns (ok: bool)
      modifies this
      ensures ok <==> Locate(old(tree), p).Some?
      ensures !ok ==> tree == old(tree) && touched == old(touched)
      ensures ok ==> var place := Locate(old(tree), p).value;
        tree == Without(old(tree), {place}) && touched == old(touched) + if place in old(tree) then {place} else {}
    {
      var place := Locate(tree, p);
      ok := place.Some?;
      if ok {
        touched := touched + if place.value in tree then {place.value} else {};
        tree := Without(tree, {place.value});
      }
    }

    method MakeDirs(d: Path) returns (ok: bool)
      modifies this`tree
      ensures ok <==> MakeDirsAt(old(tree), d).Ok?
      ensures tree == if ok then MakeDirsAt(old(tree), d).value else old(tree)
    {
      var r := MakeDirsAt(tree, d);
      ok := r.Ok?;
      if ok { tree := r.value; }
    }

    /** The effect of one step on the tree and the record of touched places. */
    twostate predicate Did(s: Step)
      reads this
    {
      tree == s.tree && touched == old(touched) + s.touched
    }

    method ShapeOne(rel: Path, e: Entry) returns (ok: bool)
      modifies this
      ensures Did(ShapeStep(old(tree), rel, e)) && ok == ShapeStep(old(tree), rel, e).ok
    {
      var place := Locate(tree, rel);
      if place.None? {
        return false;
      }
      if place.value in tree && !SameKind(tree[place.value], e) {
        var removed := Remove(rel);
      }
      ok := true;
      if e.Dir? {
        ok := MakeDirs(rel);
      }
    }

    method WriteOne(rel: Path, e: Entry) returns (ok: bool)
      requires rel != []
      modifies this
      ensures Did(WriteStep(old(tree), rel, e)) && ok == WriteStep(old(tree), rel, e).ok
    {
      ok := MakeDirs(Parent(rel));
      if !ok {
        return;
      }
      ok := Remove(rel);
      if !ok {
        return;
      }
      var target := Locate(tree, rel);
      if target.None? || target.value in tree || !DirAt(tree, Parent(target.value)) {
        return false;
      }
      touched := touched + {target.value};
      tree := tree[target.value := e];
    }

    method ChmodOne(rel: Path, mode: int) returns (ok: bool)
      modifies this
      ensures Did(ChmodStep(old(tree), rel, mode)) && ok == ChmodStep(old(tree), rel, mode).ok
    {
      var place := Resolve(tree, [], rel, MAX_LINKS);
      if place.None? || place.value !in tree {
        return false;
      }
      touched := touched + {place.value};
      match tree[place.value] {
        case File(content, _) => tree := tree[place.value := File(content, mode)];
        case Dir(_) => tree := tree[place.value := Dir(mode)];
        case Link(x) => tree := tree[place.value := Link(x)];
      }
      ok := true;
    }

    /** Deepest first, remove what is in scope and not in the manifest. */
    method RemoveStale(m: Manifest)
      requires WellFormed(tree)
      modifies this
      ensures WellFormed(tree)
      ensures tree == Without(old(tree), Stale(m, old(tree)))
      ensures forall q :: q in touched ==> q in old(touched) || InScope(m, q)
    {
      hide Without, Walk;
      ghost var t0, stale := tree, Stale(m, tree);
      var todo := Walk(tree).Keys;
      WalkedExist(t0);
      assert stale - todo == {};
      RemoveNone(t0);
      while todo != {}
        invariant todo <= Walk(t0).Keys
        invariant tree == Without(t0, stale - todo)
        invariant t0 == old(tree) && stale == Stale(m, t0)
        invariant forall q :: q in touched ==> q in old(touched) || InScope(m, q)
        decreases |todo|
      {
        var rel := Deepest(todo);
        assert rel in stale <==> InScope(m, rel) && rel !in m.entries;
        assert stale - (todo - {rel}) == stale - todo + if rel in stale then {rel} else {};
        if InScope(m, rel) && rel !in m.entries {
          LocateInPart(t0, tree, stale - todo, rel);
          RemoveOneMore(t0, stale - todo, rel);
          var removed := Remove(rel);
        }
        todo := todo - {rel};
      }
      assert stale - {} == stale;
      WithoutWellFormed(t0, stale);
    }

    /** Shallowest first, clear entries of the wrong kind and create the directories. */
    method ShapeEntries(m: Manifest, ghost start: Tree, ghost before: Tree) returns (ok: bool)
      requires WellFormed(tree) && ManifestAccepted(m) && Progress(m, start, touched, tree)
      requires NoLinkAbove(m.entries, before) ==> Kept(before, tree, m.entries)
      modifies this
      ensures WellFormed(tree) && Progress(m, start, touched, tree) && old(touched) <= touched
      ensures NoLinkAbove(m.entries, before) ==> Kept(before, tree, m.entries) && touched <= old(touched) + m.entries.Keys
      ensures ok && NoLinkAbove(m.entries, before) ==> forall e :: e in m.entries ==> Shaped(tree, e, m.entries[e])
      ensures ok ==> forall e :: e in m.entries && m.entries[e].Dir? ==> DirSettled(m, start, touched, e)
      ensures Roomy(m.entries, before) ==> ok
      ensures forall e :: OneFile(m, old(tree), e) ==> ok && tree == old(tree)
    {
      hide WellFormed, Kept, ShapeStep, Shaped, Progress, ManifestAccepted, DirSettled, Roomy, NoLinkAbove, OneFile;
      RoomyHasNoLink(m.entries, before);
      var todo := m.entries.Keys;
      while todo != {}
        invariant todo <= m.entries.Keys && old(touched) <= touched
        invariant WellFormed(tree) && Progress(m, start, touched, tree)
        invariant NoLinkAbove(m.entries, before) ==> Kept(before, tree, m.entries) && touched <= old(touched) + m.entries.Keys
        invariant NoLinkAbove(m.entries, before) ==> forall e :: e in m.entries && e !in todo ==> Shaped(tree, e, m.entries[e])
        invariant forall e :: e in m.entries && e !in todo && m.entries[e].Dir? ==> DirSettled(m, start, touched, e)
        invariant forall e, f :: e in m.entries && e !in todo && f in todo ==> |e| <= |f|
        invariant forall e :: OneFile(m, old(tree), e) ==> tree == old(tree)
        decreases |todo|
      {
        var rel := Shallowest(todo);
        ghost var t := tree;
        ghost var s := ShapeStep(t, rel, m.entries[rel]);
        AcceptedPath(m, rel);
        ShapeStepGentle(t, rel, m.entries[rel]);
        ProgressStep(m, start, touched, t, s);
        if m.entries[rel].Dir? { SettledByShape(m, start, touched, t, rel); }
        SettledStays(m, start, touched, s.touched);
        if NoLinkAbove(m.entries, before) { ShapeStepPlain(m, before, t, rel, todo); }
        OneFileShape(m, t, rel);
        var done := ShapeOne(rel, m.entries[rel]);
        if !done {
          return false;
        }
        todo := todo - {rel};
      }
      ok := true;
    }

    /** Write every file and link over whatever is there. */
    method WriteEntries(m: Manifest, ghost start: Tree, ghost before: Tree) returns (ok: bool)
      requires WellFormed(tree) && ManifestAccepted(m) && Progress(m, start, touched, tree)
      requires NoLinkAbove(m.entries, before) ==>
        Kept(before, tree, m.entries) && forall e :: e in m.entries ==> Shaped(tree, e, m.entries[e])
      modifies this
      ensures WellFormed(tree) && Progress(m, start, touched, tree) && old(touched) <= touched
      ensures NoLinkAbove(m.entries, before) ==> Kept(before, tree, m.entries) && touched <= old(touched) + m.entries.Keys
      ensures ok && NoLinkAbove(m.entries, before) ==> forall e :: e in m.entries ==> Settled(tree, e, m.entries[e])
      ensures ok && Clean(m, touched) ==> forall e :: e in m.entries && !m.entries[e].Dir? ==> !LinkedOutside(m, start, e)
      ensures Roomy(m.entries, before) ==> ok
      ensures forall e :: OneFile(m, old(tree), e) ==> ok && tree == WithFile(m, old(tree), e)
    {
      hide WellFormed, Kept, WriteStep, Shaped, Settled, Progress, ManifestAccepted, Roomy, NoLinkAbove, OneFile, WithFile, LinkedOutside, Clean;
      RoomyHasNoLink(m.entries, before);
      var todo := set e | e in m.entries && !m.entries[e].Dir?;
      ghost var t0 := tree;
      OneFileIsTodo(m, t0, todo);
      ShapedDirsAreSettled(m, tree);
      while todo != {}
        invariant todo <= m.entries.Keys && (forall e :: e in todo ==> !m.entries[e].Dir?) && old(touched) <= touched
        invariant WellFormed(tree) && Progress(m, start, touched, tree)
        invariant NoLinkAbove(m.entries, before) ==> Kept(before, tree, m.entries) && touched <= old(touched) + m.entries.Keys
        invariant NoLinkAbove(m.entries, before) ==> forall e :: e in m.entries ==>
          if e in todo then Shaped(tree, e, m.entries[e]) else Settled(tree, e, m.entries[e])
        invariant Clean(m, touched) ==> forall e :: e in m.entries && !m.entries[e].Dir? && e !in todo ==> !LinkedOutside(m, start, e)
        invariant forall e :: OneFile(m, t0, e) ==> todo <= {e} && tree == if todo == {} then WithFile(m, t0, e) else t0
        decreases |todo|
      {
        var rel := Shallowest(todo);
        ghost var t := tree;
        AcceptedPath(m, rel);
        ghost var s := WriteStep(t, rel, m.entries[rel]);
        WriteStepGentle(t, rel, m.entries[rel]);
        ProgressStep(m, start, touched, t, s);
        CleanStays(m, touched, s.touched);
        if s.ok { TouchedByWrite(m, start, touched, t, rel); }
        if NoLinkAbove(m.entries, before) { WriteStepPlain(m, before, t, rel, todo); }
        OneFileWrite(m, t, rel);
        var done := WriteOne(rel, m.entries[rel]);
        if !done {
          return false;
        }
        todo := todo - {rel};
      }
      ok := true;
    }

    /** Directory modes last. */
    method ChmodDirs(m: Manifest, ghost start: Tree, ghost before: Tree) returns (ok: bool)
      requires WellFormed(tree) && ManifestAccepted(m) && Progress(m, start, touched, tree)
      requires NoLinkAbove(m.entries, before) ==>
        Kept(before, tree, m.entries) && forall e :: e in m.entries ==> Settled(tree, e, m.entries[e])
      requires forall e :: e in m.entries && m.entries[e].Dir? ==> DirSettled(m, start, touched, e)
      modifies this
      ensures WellFormed(tree) && Progress(m, start, touched, tree) && old(touched) <= touched
      ensures NoLinkAbove(m.entries, before) ==> Kept(before, tree, m.entries) && touched <= old(touched) + m.entries.Keys
      ensures NoLinkAbove(m.entries, before) ==> ok && forall e :: e in m.entries ==> Written(tree, e, m.entries[e])
      ensures ok && Clean(m, touched) ==> forall e :: e in m.entries && m.entries[e].Dir? ==> !LinkedOutside(m, start, e)
      ensures forall e :: OneFile(m, start, e) ==> ok && tree == old(tree)
    {
      hide WellFormed, Kept, ChmodStep, Settled, Progress, ManifestAccepted, NoLinkAbove, OneFile, LinkedOutside, DirSettled, Clean;
      var todo := set e | e in m.entries && m.entries[e].Dir?;
      OneFileNoDirs(m, start, todo);
      SettledFilesAreWritten(m, tree);
      while todo != {}
        invariant todo <= m.entries.Keys && (forall e :: e in todo ==> m.entries[e].Dir?) && old(touched) <= touched
        invariant WellFormed(tree) && Progress(m, start, touched, tree)
        invariant NoLinkAbove(m.entries, before) ==> Kept(before, tree, m.entries) && touched <= old(touched) + m.entries.Keys
        invariant NoLinkAbove(m.entries, before) ==> forall e :: e in m.entries ==>
          Settled(tree, e, m.entries[e]) && (e !in todo ==> Written(tree, e, m.entries[e]))
        invariant forall e :: e in m.entries && m.entries[e].Dir? ==> DirSettled(m, start, touched, e)
        invariant Clean(m, touched) ==> forall e :: e in m.entries && m.entries[e].Dir? && e !in todo ==> !LinkedOutside(m, start, e)
        invariant forall e :: OneFile(m, start, e) ==> todo == {} && tree == old(tree)
        decreases |todo|
      {
        var rel := Deepest(todo);
        ghost var t := tree;
        ghost var s := ChmodStep(t, rel, m.entries[rel].mode);
        AcceptedPath(m, rel);
        ChmodStepGentle(t, rel, m.entries[rel].mode);
        ProgressStep(m, start, touched, t, s);
        CleanStays(m, touched, s.touched);
        SettledStays(m, start, touched, s.touched);
        if s.ok { TouchedByChmod(m, start, touched, t, rel); }
        if NoLinkAbove(m.entries, before) { ChmodStepPlain(m, before, t, rel, todo); }
        var done := ChmodOne(rel, m.entries[rel].mode);
        if !done {
          return false;
        }
        todo := todo - {rel};
      }
      ok := true;
    }

    /** `_restore_snapshot_v3`. What it promises depends on the links above the entries: without any, every entry comes
        back where it is named and everything else is kept; with one that leads out of the scope, it writes out there. */
    method Restore(m: Manifest) returns (ok: bool)
      requires WellFormed(tree)
      modifies this
      ensures WellFormed(tree)
      ensures ok ==> ManifestAccepted(m) && LinksInside(old(tree), m.entries) && Walkable(old(tree))
      ensures ok ==> (forall e :: e in m.entries ==> Verified(tree, e, m.entries[e])) && forall a :: a in m.absent ==> NothingAt(tree, a)
      ensures !(ManifestAccepted(m) && LinksInside(old(tree), m.entries) && Walkable(old(tree))) ==> tree == old(tree) && touched == {}
      ensures Clean(m, touched) ==> OutsideKept(m, old(tree), tree)
      ensures ok && Clean(m, touched) ==> forall e :: e in m.entries ==> !LinkedOutside(m, old(tree), e)
      ensures NoLinkAbove(m.entries, old(tree)) && (forall e :: e in m.entries ==> InScope(m, e)) ==> Clean(m, touched)
      ensures ok && NoLinkAbove(m.entries, old(tree)) ==>
        && Kept(Without(old(tree), Stale(m, old(tree))), tree, m.entries)
        && forall e :: e in m.entries ==> Written(tree, e, m.entries[e])
      ensures ManifestAccepted(m) && LinksInside(old(tree), m.entries) && Walkable(old(tree)) && Roomy(m.entries, old(tree)) ==>
        && Kept(Without(old(tree), Stale(m, old(tree))), tree, m.entries)
        && (forall e :: e in m.entries ==> Written(tree, e, m.entries[e]))
        && (ok <==> forall a :: a in m.absent ==> NothingAt(tree, a))
      ensures ManifestAccepted(m) && Closed(m.entries) && m.absent == [] && LinksInside(old(tree), m.entries) && Walkable(old(tree)) ==> ok
      ensures forall e :: ManifestAccepted(m) && Walkable(old(tree)) && Stale(m, old(tree)) == {} && OneFile(m, old(tree), e) ==>
        ok && tree == WithFile(m, old(tree), e)
    {
      hide WellFormed, Kept, ManifestAccepted, Closed, Roomy, NoLinkAbove, OneFile, WithFile, LinkedOutside, Clean, Walkable, Stale, Shaped,
        Settled, DirSettled, OutsideKept, InScope, Verified, Written, Without, Exists, Inside, LinksInside;
      ghost var start := tree;
      touched := {};
      NothingTouched(m, start);
      OneFileNoLinks(m, tree);
      if !ManifestAccepted(m) || !LinksInside(tree, m.entries) || !Walkable(tree) {
        return false;
      }
      RemoveStale(m);
      ghost var before := tree;
      AfterStale(m, start, touched);
      var shaped := ShapeEntries(m, start, before);
      EntriesInScope(m, touched);
      ghost var shapedTouched := touched;
      ClosedIsRoomy(m.entries, start);
      RoomyHasNoLink(m.entries, start);
      if !shaped {
        return false;
      }
      var written := WriteEntries(m, start, before);
      EntriesInScope(m, touched);
      if !written {
        return false;
      }
      ghost var mid := touched;
      SettledGrow(m, start, shapedTouched, touched);
      var moded := ChmodDirs(m, start, before);
      CleanEarlier(m, mid, touched);
      EntriesInScope(m, touched);
      if !moded {
        return false;
      }
      ok := (forall e :: e in m.entries ==> Verified(tree, e, m.entries[e])) && forall a :: a in m.absent ==> NothingAt(tree, a);
      if NoLinkAbove(m.entries, before) { WrittenIsVerified(m, tree); }
      OneFileVerified(m, start);
    }

    /** Restoring a full-workspace snapshot: the result is the recorded tree plus what the walk skipped, and a walk then
        sees exactly what it saw when the snapshot was taken, precisely when the links with skipped names agree. */
    method RestoreUndoes(m: Manifest, ghost taken: Tree) returns (ok: bool)
      requires WellFormed(taken) && MakeSnapshot(taken, []) == Ok(m)
      requires WellFormed(tree)
      modifies this
      ensures ok <==> Walkable(old(tree)) && LinksInside(old(tree), Walk(taken))
      ensures !ok ==> tree == old(tree) && touched == {}
      ensures ok ==> tree == RestoredTree(m, old(tree)) && forall e :: e in Walk(taken) ==> Written(tree, e, taken[e])
      ensures ok ==> (Walk(tree) == Walk(taken) <==> SkipLinksSettled(RestoredTree(m, old(tree)), m.entries))
      ensures ok && SkipLinksHidden(taken) && SkipLinksHidden(old(tree)) ==> Walk(tree) == Walk(taken)
      ensures ok ==> forall q :: q in old(tree) && IsMetadata(q) ==> q in tree && tree[q] == old(tree)[q]
    {
      hide WellFormed, Kept, SkipLinksSettled, RestoredTree, LinkedOutside, Clean, Stale, OneFile, WithFile, OutsideKept, LinksInside,
        SkipLinksHidden, IsMetadata;
      ghost var changed := tree;
      WalkIsClosed(taken);
      WalkIsAccepted(taken, m);
      ClosedIsRoomy(m.entries, changed);
      ok := Restore(m);
      if ok {
        ExactResult(m, changed, tree);
        RestoredWalk(taken, changed, m, tree);
        MetadataStays(m, changed);
        if SkipLinksHidden(taken) && SkipLinksHidden(changed) { WithoutSkipLinks(m, taken, changed); }
      }
    }

    /** Restoring an explicit snapshot. Without a link above an entry everything outside the roots stays as it is, except
        that missing directories above the entries are created. If the links above recorded roots lead out of the scope,
        then nothing outside is unlinked, written or given a mode exactly when there is no such link. */
    method RestoreExplicit(m: Manifest, ghost taken: Tree, explicit: seq<Path>) returns (ok: bool)
      requires WellFormed(taken) && explicit != [] && MakeSnapshot(taken, explicit) == Ok(m)
      requires WellFormed(tree)
      modifies this
      ensures forall q :: q in m.entries <==> Taken(taken, explicit, q)
      ensures NoLinkAbove(m.entries, old(tree)) && (forall r :: r in explicit && !Exists(taken, r) ==> PlainWay(m.entries, old(tree), r)) ==>
        (ok <==>
          && DirsAbove(m.entries) && LinksInside(old(tree), m.entries) && Walkable(old(tree)) && Roomy(m.entries, old(tree))
          && forall r :: r in explicit && !Exists(taken, r) ==> !Leftover(m, old(tree), r))
      ensures ok && NoLinkAbove(m.entries, old(tree)) ==> forall q :: Under(explicit, q) ==> InsideExact(m, old(tree), tree, q)
      ensures ok && NoLinkAbove(m.entries, old(tree)) ==> OutsideFramed(m, old(tree), tree)
      ensures ok && NoLinkAbove(m.entries, old(tree)) ==>
        && (forall e :: e in m.entries ==> Exists(taken, e) && Written(tree, e, taken[Locate(taken, e).value]))
        && forall r :: r in explicit && !Exists(taken, r) ==> r !in tree
      ensures Clean(m, touched) ==> OutsideKept(m, old(tree), tree)
      ensures ok && (forall r :: r in explicit && r in m.entries ==> PlainlyNamed(m.entries, old(tree), r) || LinkedOutside(m, old(tree), r)) ==>
        (Clean(m, touched) <==> NoLinkAbove(m.entries, old(tree)))
      ensures ok ==> forall e :: e in m.entries && ElsewhereDiffers(m, old(tree), e) ==> !OutsideKept(m, old(tree), tree)
    {
      hide WellFormed, Kept, LinkedOutside, Clean, Stale, OneFile, WithFile, OutsideKept, Without, Locate, Closed, InScope, Exists,
        ManifestAccepted, DirsAbove, LinksInside, Walkable, Roomy, Leftover, Under, PlainWay, NoLinkAbove, NothingAt, Taken, Written,
        MakeSnapshot, InsideExact, OutsideFramed, PlainlyNamed;
      ghost var changed := tree;
      ExplicitEntries(taken, explicit);
      AbsencesAre(taken, explicit, m);
      PresentTaken(taken, explicit, m);
      ExplicitAccepted(taken, explicit, m);
      ok := Restore(m);
      RoomyHasNoLink(m.entries, changed);
      if DirsAbove(m.entries) && LinksInside(changed, m.entries) && Walkable(changed) && NoLinkAbove(m.entries, changed) {
        if ok { EntriesNeedRoom(taken, explicit, m, changed, tree); }
        if Roomy(m.entries, changed) {
          forall r | r in explicit && !Exists(taken, r) && PlainWay(m.entries, changed, r)
            ensures NothingAt(tree, r) <==> !Leftover(m, changed, r)
          {
            AbsenceExactly(taken, explicit, m, changed, tree, r);
          }
        }
      }
      if ok {
        if NoLinkAbove(m.entries, changed) { InsideTheRoots(taken, explicit, m, changed, tree); }
        RootsDecide(m, taken, explicit, changed);
        if NoLinkAbove(m.entries, changed) {
          ExplicitFrame(m, changed, tree);
          AbsentStayAbsent(m, tree);
        }
        forall e | e in m.entries && ElsewhereDiffers(m, changed, e) ensures !OutsideKept(m, changed, tree) {
          WritesOutside(m, changed, tree, e);
        }
      }
    }
  }

  // -------------------------------------------------- order of work

  method Shallowest(s: set<Path>) returns (p: Path)
    requires s != {}
    ensures p in s && forall q :: q in s ==> |p| <= |q|
  {
    p :| p in s;
    var rest := s - {p};
    while rest != {}
      invariant p in s && rest <= s && forall q :: q in s && q !in rest ==> |p| <= |q|
      decreases |rest|
    {
      var q :| q in rest;
      if |q| < |p| { p := q; }
      rest := rest - {q};
    }
  }

  method Deepest(s: set<Path>) returns (p: Path)
    requires s != {}
    ensures p in s && forall q :: q in s ==> |q| <= |p|
  {
    p :| p in s;
    var rest := s - {p};
    while rest != {}
      invariant p in s && rest <= s && forall q :: q in s && q !in rest ==> |q| <= |p|
      decreases |rest|
    {
      var q :| q in rest;
      if |q| > |p| { p := q; }
      rest := rest - {q};
    }
  }

  // -------------------------------------------------- outside the scope

  /** Nothing outside the scope was unlinked, written or given a mode. */
  predicate Clean(m: Manifest, touched: set<Path>) {
    forall q :: q in touched ==> InScope(m, q)
  }

  /** Outside the scope everything is as it was, except for new directories. */
  ghost predicate OutsideKept(m: Manifest, start: Tree, t: Tree) {
    && (forall q :: q in start && !InScope(m, q) ==> q in t && t[q] == start[q])
    && forall q :: q in t && q !in start && !InScope(m, q) ==> t[q].Dir?
  }

  ghost predicate Progress(m: Manifest, start: Tree, touched: set<Path>, t: Tree) {
    Clean(m, touched) ==> OutsideKept(m, start, t)
  }

  /** What a step changes lies at or below a place it touched; what it adds are directories or touched places. */
  ghost predicate Gentle(t: Tree, s: Step) {
    && (forall q :: q in t && !(exists x :: x in s.touched && x <= q) ==> q in s.tree && s.tree[q] == t[q])
    && forall q :: q in s.tree && q !in t ==> s.tree[q].Dir? || q in s.touched
  }

  lemma ScopeUpward(m: Manifest, p: Path, q: Path)
    requires InScope(m, p) && p <= q
    ensures InScope(m, q)
  {
    if m.scope != FullWorkspace {
      var r :| r in m.roots + m.absent && r <= p;
      assert r <= q;
    }
  }

  lemma ProgressStep(m: Manifest, start: Tree, touched: set<Path>, t: Tree, s: Step)
    requires Progress(m, start, touched, t) && Gentle(t, s)
    ensures Progress(m, start, touched + s.touched, s.tree)
  {
    if Clean(m, touched + s.touched) {
      assert Clean(m, touched);
      forall q | q in t && !InScope(m, q) ensures q in s.tree && s.tree[q] == t[q] {
        if x :| x in s.touched && x <= q {
          assert InScope(m, x);
          ScopeUpward(m, x, q);
        }
      }
    }
  }

  lemma CleanStays(m: Manifest, touched: set<Path>, more: set<Path>)
    ensures Clean(m, touched + more) <==> Clean(m, touched) && Clean(m, more)
  {
  }

  lemma ShapeStepGentle(t: Tree, rel: Path, e: Entry)
    requires WellFormed(t) && NormalPath(rel)
    ensures var s := ShapeStep(t, rel, e); WellFormed(s.tree) && Gentle(t, s)
  {
    hide WellFormed, MakeDirsAt;
    var place := Locate(t, rel);
    if place.Some? {
      WithoutWellFormed(t, {place.value});
      var wrong := place.value in t && !SameKind(t[place.value], e);
      var cleared := if wrong then Without(t, {place.value}) else t;
      assert Gentle(t, Step(cleared, if wrong then {place.value} else {}, true));
      if e.Dir? && MakeDirsAt(cleared, rel).Ok? { MakeDirsGrows(cleared, rel); }
    }
  }

  lemma LastIsNormal(p: Path)
    requires NormalPath(p) && p != []
    ensures NormalName(Last(p))
  {
  }

  lemma WriteStepGentle(t: Tree, rel: Path, e: Entry)
    requires WellFormed(t) && NormalPath(rel) && rel != []
    ensures var s := WriteStep(t, rel, e); WellFormed(s.tree) && Gentle(t, s)
  {
    hide WellFormed, Resolve, ClearStep, NormalPath, Gentle;
    assert NormalName(Last(rel)) by { LastIsNormal(rel); }
    ClearStepGentle(t, rel);
    var c := ClearStep(t, rel);
    FailedIsGentle(t, c);
    var target := Locate(c.tree, rel);
    if c.ok && target.Some? && target.value !in c.tree && DirAt(c.tree, Parent(target.value)) {
      var dir := Parent(target.value);
      DirIsNormal(c.tree, dir);
      assert target.value == dir + [Last(rel)];
      NormalAppend(dir, Last(rel));
      BelowDir(c.tree, dir, Last(rel));
      PutWellFormed(c.tree, target.value, e);
      PutIsGentle(t, c, target.value, e);
    }
  }

  lemma FailedIsGentle(t: Tree, c: Step)
    ensures Gentle(t, c) ==> Gentle(t, c.(ok := false))
  {
  }

  lemma PutIsGentle(t: Tree, c: Step, target: Path, e: Entry)
    requires Gentle(t, c) && target !in c.tree
    ensures Gentle(t, Step(c.tree[target := e], c.touched + {target}, true))
  {
  }

  lemma ChmodStepGentle(t: Tree, rel: Path, mode: int)
    requires WellFormed(t)
    ensures var s := ChmodStep(t, rel, mode); WellFormed(s.tree) && Gentle(t, s)
  {
    hide WellFormed, Resolve;
    var place := Resolve(t, [], rel, MAX_LINKS);
    if place.Some? && place.value in t {
      ReplaceWellFormed(t, place.value, ChmodStep(t, rel, mode).tree[place.value]);
    }
  }

  lemma ClearStepGentle(t: Tree, rel: Path)
    requires WellFormed(t) && NormalPath(rel) && rel != []
    ensures var c := ClearStep(t, rel); WellFormed(c.tree) && Gentle(t, c)
  {
    hide WellFormed, MakeDirsAt, Resolve;
    assert NormalPath(Parent(rel));
    var made := MakeDirsAt(t, Parent(rel));
    if made.Ok? {
      MakeDirsGrows(t, Parent(rel));
      var place := Locate(made.value, rel);
      if place.Some? {
        WithoutWellFormed(made.value, {place.value});
        if place.value !in made.value { WithoutAbsent(made.value, place.value); }
      }
    }
  }

  // -------------------------------------------------- links that lead out of the scope

  /** Like `Resolve`, as long as every name on the way lies outside the scope. */
  function ResolveOutside(m: Manifest, t: Tree, at: Path, rest: seq<string>, links: nat): Option<Path>
    decreases links, |rest|
  {
    if rest == [] then Some(at)
    else if rest[0] == "" || rest[0] == "." then ResolveOutside(m, t, at, rest[1..], links)
    else if rest[0] == ".." then
      if at == [] then None else ResolveOutside(m, t, Parent(at), rest[1..], links)
    else
      var p := at + [rest[0]];
      if InScope(m, p) then None
      else if p in t && t[p].Link? then
        if links == 0 then None else ResolveOutside(m, t, at, t[p].target + rest[1..], links - 1)
      else ResolveOutside(m, t, p, rest[1..], links)
  }

  function OutsidePlace(m: Manifest, t: Tree, e: Path): Option<Path> {
    if e == [] then None
    else match ResolveOutside(m, t, [], Parent(e), MAX_LINKS)
      case None => None
      case Some(dir) => if InScope(m, dir + [Last(e)]) then None else Some(dir + [Last(e)])
  }

  /** The entry's place lies outside the scope, reached without entering the scope. */
  predicate LinkedOutside(m: Manifest, t: Tree, e: Path) {
    OutsidePlace(m, t, e).Some?
  }

  lemma {:induction false} ResolveOutsideStays(m: Manifest, start: Tree, t: Tree, at: Path, rest: seq<string>, links: nat)
    requires OutsideKept(m, start, t) && ResolveOutside(m, start, at, rest, links).Some?
    ensures Resolve(t, at, rest, links) == ResolveOutside(m, start, at, rest, links)
    decreases links, |rest|
  {
    if rest == [] {
    } else if rest[0] == "" || rest[0] == "." {
      ResolveOutsideStays(m, start, t, at, rest[1..], links);
    } else if rest[0] == ".." {
      ResolveOutsideStays(m, start, t, Parent(at), rest[1..], links);
    } else {
      var p := at + [rest[0]];
      assert if p in start then p in t && t[p] == start[p] else p in t ==> t[p].Dir?;
      if p in start && start[p].Link? {
        ResolveOutsideStays(m, start, t, at, start[p].target + rest[1..], links - 1);
      } else {
        ResolveOutsideStays(m, start, t, p, rest[1..], links);
      }
    }
  }

  lemma OutsidePlaceStays(m: Manifest, start: Tree, t: Tree, e: Path)
    requires OutsideKept(m, start, t) && LinkedOutside(m, start, e)
    ensures Locate(t, e) == OutsidePlace(m, start, e) && !InScope(m, OutsidePlace(m, start, e).value)
    ensures Resolve(t, [], Parent(e), MAX_LINKS) == Some(Parent(OutsidePlace(m, start, e).value))
    ensures Last(OutsidePlace(m, start, e).value) == Last(e)
  {
    hide Resolve, ResolveOutside, OutsideKept, InScope;
    ResolveOutsideStays(m, start, t, [], Parent(e), MAX_LINKS);
  }

  /** No link stands where a directory outside the scope was recorded, or clearing it was noticed. */
  ghost predicate DirSettled(m: Manifest, start: Tree, touched: set<Path>, e: Path) {
    Clean(m, touched) && LinkedOutside(m, start, e) && OutsidePlace(m, start, e).value in start ==>
      !start[OutsidePlace(m, start, e).value].Link?
  }

  lemma SettledByShape(m: Manifest, start: Tree, touched: set<Path>, t: Tree, rel: Path)
    requires Progress(m, start, touched, t) && rel in m.entries && m.entries[rel].Dir?
    ensures DirSettled(m, start, touched + ShapeStep(t, rel, m.entries[rel]).touched, rel)
  {
    hide Resolve, ResolveOutside, InScope, MakeDirsAt, OutsidePlace;
    var s := ShapeStep(t, rel, m.entries[rel]);
    CleanStays(m, touched, s.touched);
    if Clean(m, touched + s.touched) && LinkedOutside(m, start, rel) {
      var place := OutsidePlace(m, start, rel).value;
      OutsidePlaceStays(m, start, t, rel);
      assert place in start ==> place in t && t[place] == start[place];
      assert place in s.touched ==> InScope(m, place);
    }
  }

  lemma SettledStays(m: Manifest, start: Tree, touched: set<Path>, more: set<Path>)
    ensures forall e :: DirSettled(m, start, touched, e) ==> DirSettled(m, start, touched + more, e)
  {
    hide LinkedOutside, OutsidePlace, InScope;
    CleanStays(m, touched, more);
  }

  lemma TouchedByWrite(m: Manifest, start: Tree, touched: set<Path>, t: Tree, rel: Path)
    requires WellFormed(t) && NormalPath(rel) && rel != [] && rel in m.entries
    requires Progress(m, start, touched, t) && WriteStep(t, rel, m.entries[rel]).ok
    ensures Clean(m, touched + WriteStep(t, rel, m.entries[rel]).touched) ==> !LinkedOutside(m, start, rel)
  {
    hide WellFormed, Resolve, ResolveOutside, InScope, MakeDirsAt, ClearStep, OutsidePlace, Gentle;
    var s := WriteStep(t, rel, m.entries[rel]);
    var c := ClearStep(t, rel);
    ClearStepGentle(t, rel);
    ProgressStep(m, start, touched, t, c);
    assert c.touched <= s.touched && Locate(c.tree, rel).value in s.touched;
    CleanStays(m, touched + c.touched, s.touched);
    assert (touched + c.touched) + s.touched == touched + s.touched;
    assert Clean(m, touched + s.touched) ==> InScope(m, Locate(c.tree, rel).value);
    if Clean(m, touched + s.touched) && LinkedOutside(m, start, rel) {
      OutsidePlaceStays(m, start, c.tree, rel);
    }
  }

  lemma TouchedByChmod(m: Manifest, start: Tree, touched: set<Path>, t: Tree, rel: Path)
    requires NormalPath(rel) && rel != [] && rel in m.entries && m.entries[rel].Dir?
    requires Progress(m, start, touched, t) && DirSettled(m, start, touched, rel)
    requires ChmodStep(t, rel, m.entries[rel].mode).ok
    ensures Clean(m, touched + ChmodStep(t, rel, m.entries[rel].mode).touched) ==> !LinkedOutside(m, start, rel)
  {
    hide Resolve, ResolveOutside, InScope, OutsidePlace;
    var s := ChmodStep(t, rel, m.entries[rel].mode);
    CleanStays(m, touched, s.touched);
    assert Parent(rel) + [Last(rel)] == rel;
    if Clean(m, touched + s.touched) && LinkedOutside(m, start, rel) {
      var place := OutsidePlace(m, start, rel).value;
      OutsidePlaceStays(m, start, t, rel);
      assert NormalName(Last(rel));
      assert Parent(place) + [Last(rel)] == place;
      assert place in t ==> !t[place].Link?;
      ResolveStep(t, [], Parent(rel), Last(rel), MAX_LINKS, Parent(place));
    }
  }

  // -------------------------------------------------- loops: without links above the entries

  /** A finished entry: a directory, whatever its mode, or exactly the recorded file or link. */
  predicate Settled(t: Tree, rel: Path, e: Entry) {
    if e.Dir? then rel in t && t[rel].Dir? else Written(t, rel, e)
  }

  lemma AcceptedPath(m: Manifest, rel: Path)
    requires ManifestAccepted(m) && rel in m.entries
    ensures NormalPath(rel) && rel != []
  {
  }

  /** Above an entry there are directories, the tree before the restore without links, or nothing. */
  lemma PlainAt(m: Manifest, before: Tree, t: Tree, rel: Path)
    requires ManifestAccepted(m) && NoLinkAbove(m.entries, before) && Kept(before, t, m.entries) && rel in m.entries
    requires forall k :: 0 < k < |rel| && rel[..k] in m.entries && rel[..k] in t ==> t[rel[..k]].Dir?
    ensures NoLinkOver(t, rel)
  {
    forall k | 0 < k < |rel| && rel[..k] in t ensures !t[rel[..k]].Link? {
      assert SurvivorOk(before, t, m.entries, rel[..k]);
    }
  }

  lemma PrefixesNoLink(t: Tree, p: Path, d: Path)
    requires NoLinkOver(t, p) && (d == p || (p != [] && d == Parent(p))) && (d == p && d in t ==> !t[d].Link?)
    ensures forall q :: q in Prefixes(d) && q in t ==> !t[q].Link?
  {
    forall q | q in Prefixes(d) && q in t ensures !t[q].Link? {
      var k :| 0 < k <= |d| && d[..k] == q;
      assert p[..k] == q;
      if k == |p| { assert q == p; }
    }
  }

  lemma RoomyHasNoLink(entries: Tree, t: Tree)
    ensures Roomy(entries, t) ==> NoLinkAbove(entries, t)
  {
  }

  lemma AncestorsReady(m: Manifest, before: Tree, t: Tree, rel: Path, d: Path)
    requires Roomy(m.entries, before) && Kept(before, t, m.entries) && rel in m.entries && d <= rel
    requires forall k :: 0 < k < |rel| && rel[..k] in m.entries && rel[..k] in t ==> t[rel[..k]].Dir?
    requires rel in t && d == rel ==> t[rel].Dir?
    ensures forall q :: q in Prefixes(d) && q in t ==> t[q].Dir?
  {
    forall q | q in Prefixes(d) && q in t ensures t[q].Dir? {
      var k :| 0 < k <= |d| && d[..k] == q;
      assert rel[..k] == q;
      assert SurvivorOk(before, t, m.entries, q);
      if k == |rel| { assert q == rel; }
    }
  }

  function Cleared(t: Tree, rel: Path, e: Entry): Tree {
    if rel in t && !SameKind(t[rel], e) then Without(t, {rel}) else t
  }

  /** Without a link above it, an entry is cleared and made where it is named. */
  lemma ShapedInPlace(t: Tree, rel: Path, e: Entry)
    requires WellFormed(t) && NormalPath(rel) && rel != [] && NoLinkOver(t, rel)
    ensures var s, cleared := ShapeStep(t, rel, e), Cleared(t, rel, e);
      && s.touched <= {rel} && WellFormed(cleared)
      && (if e.Dir? && s.ok then s.tree == PlainDirs(cleared, rel) else s.tree == cleared)
      && (e.Dir? ==> (s.ok <==> forall q :: q in Prefixes(rel) && q in cleared ==> cleared[q].Dir?))
      && (!e.Dir? ==> s.ok)
  {
    hide WellFormed, Resolve, MakeDirsAt, Without, PlainDirs;
    LocatePlain(t, rel);
    var cleared := Cleared(t, rel, e);
    WithoutWellFormed(t, {rel});
    WithoutKeepsShape(t, rel);
    if e.Dir? {
      NoLinkOverPart(t, cleared, rel);
      PrefixesNoLink(cleared, rel, rel);
      if MakeDirsAt(cleared, rel).Ok? {
        MadeDirsWerePlain(cleared, rel);
      } else if forall q :: q in Prefixes(rel) && q in cleared ==> cleared[q].Dir? {
        MakeDirsPlain(cleared, rel);
      }
    }
  }

  lemma ShapeStepPlain(m: Manifest, before: Tree, t: Tree, rel: Path, todo: set<Path>)
    requires WellFormed(t) && ManifestAccepted(m) && NoLinkAbove(m.entries, before) && Kept(before, t, m.entries)
    requires rel in todo && todo <= m.entries.Keys && forall f :: f in todo ==> |rel| <= |f|
    requires forall e :: e in m.entries && e !in todo ==> Shaped(t, e, m.entries[e]) && |e| <= |rel|
    ensures var s := ShapeStep(t, rel, m.entries[rel]);
      && Kept(before, s.tree, m.entries) && s.touched <= m.entries.Keys
      && (s.ok ==> forall e :: e in m.entries && e !in todo - {rel} ==> Shaped(s.tree, e, m.entries[e]))
      && (Roomy(m.entries, before) ==> s.ok)
  {
    hide Kept, WellFormed, ShapeStep, Without, NoLinkAbove, PlainDirs, ManifestAccepted, Roomy;
    var e := m.entries[rel];
    AcceptedPath(m, rel);
    AncestorsShaped(m, t, rel, todo);
    PlainAt(m, before, t, rel);
    ShapedInPlace(t, rel, e);
    var cleared := Cleared(t, rel, e);
    if rel in t && !SameKind(t[rel], e) { ClearedPlain(m, before, t, rel); }
    WithoutKeepsShape(t, rel);
    if e.Dir? {
      KeptMakeDirs(before, cleared, m.entries, rel, rel);
      if Roomy(m.entries, before) { AncestorsReady(m, before, cleared, rel, rel); }
    }
    if ShapeStep(t, rel, e).ok {
      StillShaped(m, t, cleared, ShapeStep(t, rel, e).tree, rel, todo);
    }
  }

  lemma AncestorsShaped(m: Manifest, t: Tree, rel: Path, todo: set<Path>)
    requires ManifestAccepted(m) && rel in m.entries && forall f :: f in todo ==> |rel| <= |f|
    requires forall e :: e in m.entries && e !in todo ==> Shaped(t, e, m.entries[e])
    ensures forall k :: 0 < k < |rel| && rel[..k] in m.entries ==> rel[..k] in t && t[rel[..k]].Dir?
  {
    forall k | 0 < k < |rel| && rel[..k] in m.entries ensures rel[..k] in t && t[rel[..k]].Dir? {
      assert rel[..k] !in todo;
      assert Shaped(t, rel[..k], m.entries[rel[..k]]);
    }
  }

  lemma ClearedPlain(m: Manifest, before: Tree, t: Tree, rel: Path)
    requires WellFormed(t) && Kept(before, t, m.entries) && rel in m.entries && rel in t && !SameKind(t[rel], m.entries[rel]) && rel != []
    ensures Kept(before, Without(t, {rel}), m.entries) && WellFormed(Without(t, {rel}))
  {
    WithoutWellFormed(t, {rel});
    if m.entries[rel].Dir? {
      forall q | q in t && rel <= q ensures q == rel { NothingBelow(t, rel, q); }
    }
    KeptWithout(before, t, m.entries, rel);
  }

  lemma WithoutKeepsShape(t: Tree, rel: Path)
    ensures rel !in Without(t, {rel})
    ensures forall q :: q in t && !(rel <= q) ==> q in Without(t, {rel}) && Without(t, {rel})[q] == t[q]
    ensures forall q :: q in Without(t, {rel}) ==> q in t && t[q] == Without(t, {rel})[q]
  {
  }

  lemma NoLinkOverPart(t: Tree, u: Tree, p: Path)
    requires NoLinkOver(t, p) && forall q :: q in u ==> q in t && t[q] == u[q]
    ensures NoLinkOver(u, p)
  {
  }

  /** Working on `rel` leaves the shape of the entries handled before it. */
  lemma StillShaped(m: Manifest, t0: Tree, t1: Tree, t2: Tree, rel: Path, todo: set<Path>)
    requires ManifestAccepted(m) && rel in m.entries && rel in todo
    requires forall e :: e in m.entries && e !in todo ==> Shaped(t0, e, m.entries[e]) && |e| <= |rel|
    requires t1 == t0 || t1 == Without(t0, {rel})
    requires !m.entries[rel].Dir? ==> t2 == t1 && (rel in t1 ==> SameKind(t1[rel], m.entries[rel]))
    requires m.entries[rel].Dir? ==> t2 == PlainDirs(t1, rel) && forall q :: q in Prefixes(rel) && q in t1 ==> t1[q].Dir?
    ensures forall e :: e in m.entries && e !in todo - {rel} ==> Shaped(t2, e, m.entries[e])
  {
    forall e | e in m.entries && e !in todo - {rel} ensures Shaped(t2, e, m.entries[e]) {
      if e == rel {
        assert m.entries[rel].Dir? ==> rel in Prefixes(rel) by { assert rel[..|rel|] == rel; }
      } else {
        assert Shaped(t0, e, m.entries[e]);
        assert !(rel <= e);
        assert 0 < |e| < |rel| && rel[..|e|] == e ==> m.entries[e].Dir?;
      }
    }
  }

  lemma ShapedDirsAreSettled(m: Manifest, t: Tree)
    ensures forall e :: e in m.entries && Shaped(t, e, m.entries[e]) ==>
      if m.entries[e].Dir? then Settled(t, e, m.entries[e]) else Shaped(t, e, m.entries[e])
  {
  }

  lemma SettledFilesAreWritten(m: Manifest, t: Tree)
    ensures forall e :: e in m.entries && !m.entries[e].Dir? && Settled(t, e, m.entries[e]) ==> Written(t, e, m.entries[e])
  {
  }

  lemma WriteStepPlain(m: Manifest, before: Tree, t: Tree, rel: Path, todo: set<Path>)
    requires WellFormed(t) && ManifestAccepted(m) && NoLinkAbove(m.entries, before) && Kept(before, t, m.entries)
    requires rel in todo && todo <= m.entries.Keys && forall e :: e in todo ==> !m.entries[e].Dir?
    requires forall e :: e in m.entries ==> if e in todo then Shaped(t, e, m.entries[e]) else Settled(t, e, m.entries[e])
    requires rel != []
    ensures var s := WriteStep(t, rel, m.entries[rel]);
      && Kept(before, s.tree, m.entries) && s.touched <= m.entries.Keys
      && (s.ok ==> forall e :: e in m.entries ==> if e in todo - {rel} then Shaped(s.tree, e, m.entries[e]) else Settled(s.tree, e, m.entries[e]))
      && (Roomy(m.entries, before) ==> s.ok)
  {
    hide Kept, WellFormed, Resolve, MakeDirsAt, Without, NoLinkAbove, PlainDirs, Roomy;
    AcceptedPath(m, rel);
    assert NormalPath(Parent(rel));
    assert forall k :: 0 < k < |rel| && rel[..k] in m.entries ==> rel[..k] !in todo && Settled(t, rel[..k], m.entries[rel[..k]]);
    PlainAt(m, before, t, rel);
    PrefixesNoLink(t, rel, Parent(rel));
    if Roomy(m.entries, before) {
      AncestorsReady(m, before, t, rel, Parent(rel));
      MakeDirsPlain(t, Parent(rel));
    }
    if MakeDirsAt(t, Parent(rel)).Ok? {
      MadeDirsWerePlain(t, Parent(rel));
      WritePlain(m, before, t, rel);
      OthersKept(m, t, rel);
      forall e | e in m.entries
        ensures if e in todo - {rel} then Shaped(WriteStep(t, rel, m.entries[rel]).tree, e, m.entries[e])
                else Settled(WriteStep(t, rel, m.entries[rel]).tree, e, m.entries[e])
      {
        assert if e in todo then Shaped(t, e, m.entries[e]) else Settled(t, e, m.entries[e]);
      }
    }
  }

  lemma WritePlain(m: Manifest, before: Tree, t: Tree, rel: Path)
    requires WellFormed(t) && ManifestAccepted(m) && Kept(before, t, m.entries) && rel in m.entries && !m.entries[rel].Dir? && rel != []
    requires MakeDirsAt(t, Parent(rel)) == Ok(PlainDirs(t, Parent(rel)))
    requires forall q :: q in Prefixes(Parent(rel)) && q in t ==> t[q].Dir?
    ensures var s := WriteStep(t, rel, m.entries[rel]);
      && s.ok && s.touched == {rel} && s.tree == Without(PlainDirs(t, Parent(rel)), {rel})[rel := m.entries[rel]]
      && Kept(before, s.tree, m.entries)
  {
    hide Kept, WellFormed, Resolve, MakeDirsAt, Without;
    AcceptedPath(m, rel);
    var made := PlainDirs(t, Parent(rel));
    ParentsMade(t, rel);
    LocatePlain(made, rel);
    KeptMakeDirs(before, t, m.entries, Parent(rel), rel);
    var cleared := Without(made, {rel});
    WithoutKeepsShape(made, rel);
    NoLinkOverPart(made, cleared, rel);
    LocatePlain(cleared, rel);
    KeptWithout(before, made, m.entries, rel);
    KeptPut(before, cleared, m.entries, rel, m.entries[rel]);
  }

  lemma ParentsMade(t: Tree, rel: Path)
    requires rel != [] && forall q :: q in Prefixes(Parent(rel)) && q in t ==> t[q].Dir?
    ensures NoLinkOver(PlainDirs(t, Parent(rel)), rel) && DirAt(PlainDirs(t, Parent(rel)), Parent(rel))
  {
    var made := PlainDirs(t, Parent(rel));
    forall k | 0 < k < |rel| ensures rel[..k] in made && made[rel[..k]].Dir? {
      assert Parent(rel)[..k] == rel[..k];
      assert rel[..k] in Prefixes(Parent(rel));
    }
  }

  lemma OthersKept(m: Manifest, t: Tree, rel: Path)
    requires ManifestAccepted(m) && rel in m.entries && !m.entries[rel].Dir? && rel != []
    ensures var after := Without(PlainDirs(t, Parent(rel)), {rel})[rel := m.entries[rel]];
      && (forall e :: e in m.entries && e != rel && e in t ==> e in after && after[e] == t[e])
      && (forall e :: e in m.entries && e != rel && e in after && e !in t ==> m.entries[e].Dir?)
      && Written(after, rel, m.entries[rel])
  {
    var after := Without(PlainDirs(t, Parent(rel)), {rel})[rel := m.entries[rel]];
    forall e | e in m.entries && e != rel ensures !(rel <= e) {
      PrefixFacts(rel, e);
      assert 0 < |rel| < |e| && e[..|rel|] in m.entries ==> m.entries[e[..|rel|]].Dir?;
    }
    forall e | e in m.entries && e != rel && e in after && e !in t ensures m.entries[e].Dir? {
      assert e in Prefixes(Parent(rel));
      var k :| 0 < k <= |rel| - 1 && Parent(rel)[..k] == e;
      assert rel[..k] == e;
    }
  }

  lemma ChmodStepPlain(m: Manifest, before: Tree, t: Tree, rel: Path, todo: set<Path>)
    requires WellFormed(t) && ManifestAccepted(m) && NoLinkAbove(m.entries, before) && Kept(before, t, m.entries)
    requires rel in todo && rel in m.entries && m.entries[rel].Dir?
    requires forall e :: e in m.entries ==> Settled(t, e, m.entries[e]) && (e !in todo ==> Written(t, e, m.entries[e]))
    ensures var s := ChmodStep(t, rel, m.entries[rel].mode);
      && s.ok && Kept(before, s.tree, m.entries) && s.touched <= m.entries.Keys
      && forall e :: e in m.entries ==> Settled(s.tree, e, m.entries[e]) && (e !in todo - {rel} ==> Written(s.tree, e, m.entries[e]))
  {
    hide Kept, WellFormed, Resolve, NoLinkAbove;
    AcceptedPath(m, rel);
    assert Settled(t, rel, m.entries[rel]);
    ExistingHasNoLinkOver(t, rel);
    FollowPlain(t, rel);
    KeptPut(before, t, m.entries, rel, m.entries[rel]);
  }

  // -------------------------------------------------- loops: the rest

  lemma WalkedExist(t: Tree)
    ensures Walk(t).Keys <= t.Keys
  {
  }

  lemma LocateInPart(t: Tree, part: Tree, gone: set<Path>, rel: Path)
    requires WellFormed(t) && rel in t && part == Without(t, gone)
    ensures Locate(part, rel) == Some(rel)
  {
    hide WellFormed, Resolve;
    ExistingHasNoLinkOver(t, rel);
    NoLinkOverPart(t, part, rel);
    LocatePlain(part, rel);
  }

  lemma NothingTouched(m: Manifest, start: Tree)
    ensures Clean(m, {}) && OutsideKept(m, start, start)
  {
  }

  lemma AfterStale(m: Manifest, start: Tree, touched: set<Path>)
    requires WellFormed(start) && forall q :: q in touched ==> InScope(m, q)
    ensures var before := Without(start, Stale(m, start));
      && Progress(m, start, touched, before) && Clean(m, touched) && Kept(before, before, m.entries)
      && OutsideKept(m, start, before)
      && (NoLinkAbove(m.entries, start) ==> NoLinkAbove(m.entries, before))
      && (Roomy(m.entries, start) ==> Roomy(m.entries, before))
      && (Stale(m, start) == {} ==> before == start)
  {
    var before := Without(start, Stale(m, start));
    forall q | q in start && !InScope(m, q) ensures q in before {
      if x :| x in Stale(m, start) && x <= q { ScopeUpward(m, x, q); }
    }
  }

  lemma EntriesInScope(m: Manifest, touched: set<Path>)
    ensures (forall q :: q in touched ==> InScope(m, q) || q in m.entries) && (forall e :: e in m.entries ==> InScope(m, e)) ==> Clean(m, touched)
  {
  }

  lemma ClosedIsRoomy(entries: Tree, t: Tree)
    ensures Closed(entries) ==> Roomy(entries, t) && NoLinkAbove(entries, t)
  {
  }

  lemma SettledGrow(m: Manifest, start: Tree, touched: set<Path>, more: set<Path>)
    requires touched <= more
    ensures forall e :: DirSettled(m, start, touched, e) ==> DirSettled(m, start, more, e)
  {
    SettledStays(m, start, touched, more);
    assert touched + more == more;
  }

  lemma CleanEarlier(m: Manifest, touched: set<Path>, more: set<Path>)
    requires touched <= more
    ensures Clean(m, more) ==> Clean(m, touched)
  {
  }

  lemma ExistingExists(t: Tree, p: Path)
    requires WellFormed(t) && p in t
    ensures Exists(t, p) && Locate(t, p) == Some(p)
  {
    ExistingHasNoLinkOver(t, p);
    LocatePlain(t, p);
  }

  lemma WrittenIsVerified(m: Manifest, t: Tree)
    requires WellFormed(t) && forall e :: e in m.entries ==> Written(t, e, m.entries[e])
    ensures forall e :: e in m.entries ==> Verified(t, e, m.entries[e])
  {
    forall e | e in m.entries ensures Verified(t, e, m.entries[e]) {
      ExistingExists(t, e);
    }
  }

  // -------------------------------------------------- a single file whose place is taken by a file

  predicate OneFile(m: Manifest, t: Tree, e: Path) {
    && m.absent == [] && m.entries.Keys == {e} && m.entries[e].File?
    && Exists(t, e) && t[Locate(t, e).value].File?
  }

  /** The tree with the recorded file at its place, which may lie behind a link. */
  function WithFile(m: Manifest, t: Tree, e: Path): Tree {
    if e in m.entries && Exists(t, e) then t[Locate(t, e).value := m.entries[e]] else t
  }

  lemma OneFileShape(m: Manifest, t: Tree, rel: Path)
    requires rel in m.entries
    ensures forall e :: OneFile(m, t, e) ==> e == rel && ShapeStep(t, rel, m.entries[rel]) == Step(t, {}, true)
  {
  }

  lemma OneFileIsTodo(m: Manifest, t: Tree, todo: set<Path>)
    requires todo == set e | e in m.entries && !m.entries[e].Dir?
    ensures forall e :: OneFile(m, t, e) ==> todo == {e}
  {
  }

  lemma OneFileNoLinks(m: Manifest, t: Tree)
    ensures forall e :: OneFile(m, t, e) ==> LinksInside(t, m.entries)
  {
  }

  lemma OneFileNoDirs(m: Manifest, t: Tree, todo: set<Path>)
    requires todo == set e | e in m.entries && m.entries[e].Dir?
    ensures forall e :: OneFile(m, t, e) ==> todo == {}
  {
  }

  lemma OneFileWrite(m: Manifest, t: Tree, rel: Path)
    requires WellFormed(t) && rel in m.entries && rel != []
    ensures forall e :: OneFile(m, t, e) ==>
      e == rel && WriteStep(t, rel, m.entries[rel]).ok && WriteStep(t, rel, m.entries[rel]).tree == WithFile(m, t, e)
  {
    hide WellFormed, Resolve, ClearStep, Without;
    if OneFile(m, t, rel) {
      var place := Locate(t, rel).value;
      OneFileClear(t, rel);
      var cleared := ClearStep(t, rel).tree;
      assert Locate(cleared, rel) == Some(place);
      assert cleared[place := m.entries[rel]] == t[place := m.entries[rel]];
    }
  }

  lemma OneFileClear(t: Tree, rel: Path)
    requires WellFormed(t) && rel != [] && Exists(t, rel) && t[Locate(t, rel).value].File?
    ensures var place, c := Locate(t, rel).value, ClearStep(t, rel);
      && c.ok && Locate(c.tree, rel) == Some(place) && DirAt(c.tree, Parent(place))
      && c.tree.Keys == t.Keys - {place} && forall q :: q in c.tree ==> c.tree[q] == t[q]
  {
    hide WellFormed, Resolve, Without;
    var place := Locate(t, rel).value;
    ExistingParent(t, place);
    FileGone(t, place);
    assert Resolve(t, [], Parent(rel), MAX_LINKS) == Some(Parent(place));
    assert MakeDirsAt(t, Parent(rel)) == Ok(t);
    ResolveSameLinks(t, Without(t, {place}), [], Parent(rel), MAX_LINKS);
  }

  lemma ExistingParent(t: Tree, place: Path)
    requires WellFormed(t) && place in t
    ensures place != [] && DirAt(t, Parent(place))
  {
    assert ParentsAreDirs(t, place);
  }

  lemma FileGone(t: Tree, place: Path)
    requires WellFormed(t) && place in t && t[place].File?
    ensures var cleared := Without(t, {place});
      SameLinks(t, cleared) && cleared.Keys == t.Keys - {place} && DirAt(cleared, Parent(place))
      && forall q :: q in cleared ==> cleared[q] == t[q]
  {
    ExistingParent(t, place);
    forall q | q in t && place <= q ensures q == place { NothingBelow(t, place, q); }
    assert |Parent(place)| < |place|;
  }

  lemma OneFileVerified(m: Manifest, start: Tree)
    requires WellFormed(start)
    ensures forall e :: OneFile(m, start, e) ==>
      m.absent == [] && forall x :: x in m.entries ==> Verified(WithFile(m, start, e), x, m.entries[x])
  {
    forall e | OneFile(m, start, e) ensures forall x :: x in m.entries ==> Verified(WithFile(m, start, e), x, m.entries[x]) {
      ResolveSameLinks(start, WithFile(m, start, e), [], Parent(e), MAX_LINKS);
    }
  }

  // -------------------------------------------------- the full workspace

  lemma WalkIsClosed(t: Tree)
    requires WellFormed(t)
    ensures Closed(Walk(t)) && [] !in Walk(t)
  {
    hide Resolve;
    forall p, k | p in Walk(t) && 0 < k < |p| ensures p[..k] in Walk(t) && Walk(t)[p[..k]].Dir? {
      assert ParentsAreDirs(t, p);
      SkippedBelow(t, p, k);
    }
  }

  lemma SkippedBelow(t: Tree, p: Path, k: nat)
    requires 0 < k < |p|
    ensures Skipped(t, p[..k]) ==> Skipped(t, p)
  {
    hide LeadsToDir;
    if Skipped(t, p[..k]) {
      var j :| 0 < j <= k && SkipsAt(t, p[..k], j);
      assert p[..k][..j] == p[..j];
      assert SkipsAt(t, p, j);
    }
  }

  lemma WalkIsAccepted(taken: Tree, m: Manifest)
    requires WellFormed(taken) && MakeSnapshot(taken, []) == Ok(m) && Closed(Walk(taken)) && [] !in Walk(taken)
    ensures m.entries == Walk(taken) && m.scope == FullWorkspace && m.absent == [] && ManifestAccepted(m)
    ensures forall e :: e in m.entries ==> InScope(m, e)
  {
    hide Resolve, LinksInside;
    forall p | p in Walk(taken) ensures SafePath(p) {
      assert ParentsAreDirs(taken, p);
      assert |p| == 1 ==> p[..1] == p;
      assert !SkipsAt(taken, p, 1);
    }
  }

  /** What a full-workspace restore makes of a changed tree: the entries, and what the walk of the changed tree skipped
      as far as no recorded file or link takes its place. */
  function RestoredTree(m: Manifest, changed: Tree): Tree {
    var before := Without(changed, Stale(m, changed));
    (map q | q in before && q !in m.entries && NoFileOver(m.entries, q) :: before[q]) + m.entries
  }

  lemma ExactResult(m: Manifest, changed: Tree, after: Tree)
    requires WellFormed(after) && Closed(m.entries) && Kept(Without(changed, Stale(m, changed)), after, m.entries)
    requires forall e :: e in m.entries ==> Written(after, e, m.entries[e])
    requires [] !in m.entries
    ensures after == RestoredTree(m, changed)
  {
    hide Stale, Without;
    var before := Without(changed, Stale(m, changed));
    forall q ensures q in after <==> q in RestoredTree(m, changed) {
      assert SurvivorOk(before, after, m.entries, q) && UntouchedOk(before, after, m.entries, q);
      if q in after && q !in m.entries {
        Survivor(m, before, after, q);
      }
    }
    forall q | q in after ensures after[q] == RestoredTree(m, changed)[q] {
      assert SurvivorOk(before, after, m.entries, q);
      if q !in m.entries { Survivor(m, before, after, q); }
    }
  }

  lemma Survivor(m: Manifest, before: Tree, after: Tree, q: Path)
    requires WellFormed(after) && Closed(m.entries) && SurvivorOk(before, after, m.entries, q) && q in after && q !in m.entries
    requires forall e :: e in m.entries ==> Written(after, e, m.entries[e])
    requires [] !in m.entries
    ensures q in before && after[q] == before[q] && NoFileOver(m.entries, q)
  {
    assert forall e :: e in m.entries && q < e ==> e[..|q|] == q && 0 < |q| < |e|;
    assert ParentsAreDirs(after, q);
    forall e | e in m.entries && e < q ensures m.entries[e].Dir? {
      assert q[..|e|] == e && 0 < |e| < |q|;
      assert Written(after, e, m.entries[e]);
    }
  }

  predicate SkippedAbove(t: Tree, l: Path) {
    exists k :: 0 < k < |l| && SkipsAt(t, l, k)
  }

  /** A link with a skipped name that nothing above it hides: it must be recorded exactly if it does not lead to a
      directory, for only then does the walk see it. */
  predicate SkipLinkSettled(t: Tree, entries: Tree, l: Path) {
    l in t && t[l].Link? && l != [] && l[|l| - 1] in SKIP_DIRS && !SkippedAbove(t, l) ==> (l in entries <==> !LeadsToDir(t, l))
  }

  ghost predicate SkipLinksSettled(t: Tree, entries: Tree) {
    forall l :: SkipLinkSettled(t, entries, l)
  }

  lemma RecordedIsSeen(taken: Tree, after: Tree, p: Path)
    requires WellFormed(taken) && WellFormed(after) && p in Walk(taken)
    requires forall e :: e in Walk(taken) ==> Written(after, e, Walk(taken)[e])
    requires SkipLinkSettled(after, Walk(taken), p)
    ensures p in Walk(after) && Walk(after)[p] == Walk(taken)[p]
  {
    hide WellFormed, Resolve;
    WalkIsClosed(taken);
    assert Written(after, p, Walk(taken)[p]);
    assert p[..|p|] == p;
    forall k | 0 < k <= |p| && SkipsAt(after, p, k) ensures k == |p| && after[p].Link? {
      if k < |p| { DirAbove(after, p, k); }
      SkippedThen(taken, after, p, k);
    }
  }

  lemma SkippedThen(taken: Tree, after: Tree, p: Path, k: nat)
    requires WellFormed(taken) && WellFormed(after) && 0 < k <= |p| && SkipsAt(after, p, k)
    requires p[..k] in taken && taken[p[..k]] == after[p[..k]]
    ensures !after[p[..k]].Link? ==> SkipsAt(taken, p, k)
  {
    hide WellFormed, Resolve;
    ExistingHasNoLinkOver(after, p[..k]);
    ExistingHasNoLinkOver(taken, p[..k]);
    if !after[p[..k]].Link? {
      FollowPlain(after, p[..k]);
      FollowPlain(taken, p[..k]);
    }
  }

  lemma LeftoverIsSkipped(m: Manifest, changed: Tree, after: Tree, q: Path)
    requires m.scope == FullWorkspace && WellFormed(after) && WellFormed(changed) && after == RestoredTree(m, changed)
    requires q in after && q !in m.entries && SkipLinkSettled(after, m.entries, q) && q != []
    ensures Skipped(after, q)
  {
    hide WellFormed, Resolve;
    assert q <= q;
    assert q !in Stale(m, changed);
    assert q in changed && after[q] == changed[q];
    assert q !in Walk(changed);
    var k :| 0 < k <= |q| && SkipsAt(changed, q, k);
    var d := q[..k];
    assert q[..|q|] == q;
    ExistingHasNoLinkOver(changed, d);
    ExistingHasNoLinkOver(after, q);
    if k < |q| {
      DirAbove(after, q, k);
      ExistingHasNoLinkOver(after, d);
      FollowPlain(after, d);
      assert SkipsAt(after, q, k);
    } else {
      if !after[q].Link? {
        FollowPlain(changed, d);
        FollowPlain(after, q);
      }
      if LeadsToDir(after, q) {
        assert SkipsAt(after, q, k);
      } else {
        assert SkippedAbove(after, q);
        var j :| 0 < j < |q| && SkipsAt(after, q, j);
      }
    }
  }

  lemma DirAbove(t: Tree, q: Path, k: nat)
    requires WellFormed(t) && q in t && 0 < k < |q|
    ensures q[..k] in t && t[q[..k]].Dir?
  {
    assert ParentsAreDirs(t, q);
  }

  lemma SettledBySight(taken: Tree, after: Tree, l: Path)
    requires Walk(after) == Walk(taken)
    ensures SkipLinkSettled(after, Walk(taken), l)
  {
    hide Resolve;
    if l in after && l != [] && l[|l| - 1] in SKIP_DIRS && !SkippedAbove(after, l) {
      assert l[..|l|] == l;
      assert LeadsToDir(after, l) ==> SkipsAt(after, l, |l|);
      if Skipped(after, l) {
        var k :| 0 < k <= |l| && SkipsAt(after, l, k);
        assert k == |l|;
      }
    }
  }

  lemma RestoredWalk(taken: Tree, changed: Tree, m: Manifest, after: Tree)
    requires WellFormed(taken) && WellFormed(changed) && WellFormed(after) && after == RestoredTree(m, changed)
    requires m.scope == FullWorkspace && m.entries == Walk(taken) && forall e :: e in m.entries ==> Written(after, e, m.entries[e])
    ensures Walk(after) == Walk(taken) <==> SkipLinksSettled(after, m.entries)
  {
    hide RestoredTree, Skipped, SkipLinkSettled;
    if SkipLinksSettled(after, m.entries) {
      forall p ensures p in Walk(after) <==> p in Walk(taken) {
        assert SkipLinkSettled(after, m.entries, p);
        if p in Walk(taken) {
          RecordedIsSeen(taken, after, p);
        } else if p in after {
          LeftoverIsSkipped(m, changed, after, p);
        }
      }
      forall p | p in Walk(taken) ensures Walk(after)[p] == Walk(taken)[p] {
        assert SkipLinkSettled(after, m.entries, p);
        RecordedIsSeen(taken, after, p);
      }
    }
    if Walk(after) == Walk(taken) {
      forall l ensures SkipLinkSettled(after, m.entries, l) {
        SettledBySight(taken, after, l);
      }
    }
  }

  predicate IsMetadata(q: Path) {
    q != [] && (q[0] == ".git" || q[0] == ".plan-auditor" || q[0] == "__pycache__" || q[0] == ".pytest_cache")
  }

  /** What lies at the top under a skipped name survives every full restore. */
  lemma MetadataStays(m: Manifest, changed: Tree)
    requires WellFormed(changed) && Walkable(changed) && ManifestAccepted(m)
    ensures forall q :: q in changed && IsMetadata(q) ==> q in RestoredTree(m, changed) && RestoredTree(m, changed)[q] == changed[q]
  {
    hide LeadsToDir, LinksInside;
    forall q | q in changed && IsMetadata(q)
      ensures q in RestoredTree(m, changed) && RestoredTree(m, changed)[q] == changed[q]
    {
      assert q !in m.entries && forall e :: e in m.entries && e < q ==> e == [] || e[0] == q[0];
      MetadataIsSkipped(changed);
      assert forall x :: x in changed && x <= q ==> x[0] == q[0];
    }
  }

  lemma MetadataIsSkipped(t: Tree)
    requires WellFormed(t) && SkipNamesLead(t)
    ensures forall x :: x in t && IsMetadata(x) ==> Skipped(t, x)
  {
    hide LeadsToDir;
    forall x | x in t && IsMetadata(x) ensures Skipped(t, x) {
      assert ParentsAreDirs(t, x);
      assert |x| == 1 ==> x[..1] == x;
      assert SkipsAt(t, x, 1);
    }
  }

  predicate Linkless(t: Tree) {
    forall p :: p in t ==> !t[p].Link?
  }

  /** Without links: the walk skips what lies in directories with skipped names, and is refused exactly when such a name
      at the top is a file. */
  lemma LinklessWalk(t: Tree)
    requires WellFormed(t) && Linkless(t)
    ensures Walkable(t) <==> forall p :: p in t && |p| == 1 && IsMetadata(p) ==> t[p].Dir?
    ensures forall p :: p in t ==>
      (p in Walk(t) <==> forall k :: 0 < k <= |p| && IsMetadata([p[k - 1]]) ==> !DirAt(t, p[..k]))
    ensures forall p :: p in Walk(t) ==> Walk(t)[p] == t[p]
  {
    hide Resolve, WellFormed;
    forall p | p in t ensures LeadsToDir(t, p) <==> t[p].Dir? {
      ExistingHasNoLinkOver(t, p);
      FollowPlain(t, p);
    }
    forall p, k | p in t && 0 < k <= |p| ensures p[..k] in t {
      if k < |p| { DirAbove(t, p, k); } else { assert p[..k] == p; }
    }
    forall p | p in t
      ensures p in Walk(t) <==> forall k :: 0 < k <= |p| && IsMetadata([p[k - 1]]) ==> !DirAt(t, p[..k])
    {
      assert forall k :: 0 < k <= |p| ==> (SkipsAt(t, p, k) <==> IsMetadata([p[k - 1]]) && t[p[..k]].Dir?);
    }
  }

  /** Links with skipped names lie inside skipped directories only. */
  predicate SkipLinksHidden(t: Tree) {
    forall l :: l in t && t[l].Link? && l != [] && l[|l| - 1] in SKIP_DIRS ==> SkippedAbove(t, l)
  }

  /** In particular: the restore undoes every change between two trees whose links with skipped names are all hidden. */
  lemma WithoutSkipLinks(m: Manifest, taken: Tree, changed: Tree)
    requires WellFormed(changed) && WellFormed(RestoredTree(m, changed))
    requires SkipLinksHidden(taken) && SkipLinksHidden(changed) && m.entries == Walk(taken)
    ensures SkipLinksSettled(RestoredTree(m, changed), m.entries)
  {
    hide LeadsToDir, Stale, NoFileOver, WellFormed;
    var after := RestoredTree(m, changed);
    forall l ensures SkipLinkSettled(after, m.entries, l) {
      AboveIsSkipped(taken, l);
      if l in after && after[l].Link? && l != [] && l[|l| - 1] in SKIP_DIRS && l !in m.entries {
        var k :| 0 < k < |l| && SkipsAt(changed, l, k);
        DirAbove(changed, l, k);
        DirAbove(after, l, k);
        DirLeads(after, l[..k]);
        assert SkipsAt(after, l, k);
      }
    }
  }

  lemma AboveIsSkipped(t: Tree, l: Path)
    ensures SkippedAbove(t, l) ==> Skipped(t, l)
  {
    hide LeadsToDir;
  }

  lemma DirLeads(t: Tree, d: Path)
    requires WellFormed(t) && d in t && t[d].Dir?
    ensures LeadsToDir(t, d)
  {
    ExistingHasNoLinkOver(t, d);
    FollowPlain(t, d);
  }

  // -------------------------------------------------- explicit roots

  /** Everything outside the scope as it was; what is new there is a directory above an entry. */
  ghost predicate OutsideFramed(m: Manifest, changed: Tree, after: Tree) {
    && (forall q :: q in changed && !InScope(m, q) ==> q in after && after[q] == changed[q])
    && forall q :: q in after && q !in changed && !InScope(m, q) ==> after[q].Dir? && AboveSome(m.entries, q)
  }

  /** No link above this entry, other than where a recorded directory will be. */
  predicate PlainlyNamed(entries: Tree, t: Tree, e: Path) {
    forall k :: 0 < k < |e| && e[..k] !in entries && e[..k] in t ==> !t[e[..k]].Link?
  }

  /** Everything from the root down to the entry was recorded. */
  predicate RecordedFrom(entries: Tree, r: Path, e: Path) {
    r <= e && forall k :: |r| <= k <= |e| ==> e[..k] in entries
  }

  lemma WalkedDown(t: Tree, root: Path)
    requires WellFormed(t)
    ensures forall e :: e in WalkFrom(t, root) ==> RecordedFrom(WalkFrom(t, root), root, e)
  {
    hide Resolve, Locate;
    var place := Locate(t, root);
    if place.Some? {
      forall e, k | e in WalkFrom(t, root) && |root| <= k <= |e| ensures e[..k] in WalkFrom(t, root) {
        var p := place.value + e[|root|..];
        var q := p[..|place.value| + k - |root|];
        assert q == p || (q in t && 0 < |q|) by { assert ParentsAreDirs(t, p); }
        assert place.value <= q && root + q[|place.value|..] == e[..k];
      }
    }
  }

  lemma {:induction false} RecordedDown(t: Tree, roots: seq<Path>)
    requires WellFormed(t)
    ensures forall e :: e in PresentEntries(t, roots) ==> exists r :: r in roots && RecordedFrom(PresentEntries(t, roots), r, e)
  {
    hide WalkFrom, WellFormed;
    if roots != [] {
      var n := |roots| - 1;
      RecordedDown(t, roots[..n]);
      WalkedDown(t, roots[n]);
      OneMoreRoot(roots);
      forall e | e in PresentEntries(t, roots) ensures exists r :: r in roots && RecordedFrom(PresentEntries(t, roots), r, e) {
        if e in WalkFrom(t, roots[n]) {
          assert RecordedFrom(PresentEntries(t, roots), roots[n], e);
        } else {
          var r :| r in roots[..n] && RecordedFrom(PresentEntries(t, roots[..n]), r, e);
          assert RecordedFrom(PresentEntries(t, roots), r, e);
        }
      }
    }
  }

  /** Links above the recorded roots are all there is above entries. */
  lemma RootsDecide(m: Manifest, taken: Tree, explicit: seq<Path>, t: Tree)
    requires WellFormed(taken) && explicit != [] && MakeSnapshot(taken, explicit) == Ok(m)
    ensures NoLinkAbove(m.entries, t) <==> forall r :: r in explicit && r in m.entries ==> PlainlyNamed(m.entries, t, r)
  {
    hide WellFormed;
    RecordedDown(taken, explicit);
    if forall r :: r in explicit && r in m.entries ==> PlainlyNamed(m.entries, t, r) {
      forall e, k | e in m.entries && 0 < k < |e| && e[..k] !in m.entries && e[..k] in t ensures !t[e[..k]].Link? {
        var r :| r in explicit && RecordedFrom(m.entries, r, e);
        assert e[..|r|] == r && k < |r| && r[..k] == e[..k];
      }
    }
  }

  /** The entry's place lies outside the scope and holds something else than the recorded file or link. */
  predicate ElsewhereDiffers(m: Manifest, t: Tree, e: Path) {
    && e in m.entries && !m.entries[e].Dir? && LinkedOutside(m, t, e)
    && !(OutsidePlace(m, t, e).value in t && Matches(t[OutsidePlace(m, t, e).value], m.entries[e]))
  }

  /** A restore that returns normally has then changed something outside the scope. */
  lemma WritesOutside(m: Manifest, start: Tree, after: Tree, e: Path)
    requires ElsewhereDiffers(m, start, e) && Verified(after, e, m.entries[e])
    ensures !OutsideKept(m, start, after)
  {
    hide Resolve, OutsidePlace, InScope;
    if OutsideKept(m, start, after) {
      OutsidePlaceStays(m, start, after, e);
    }
  }

  lemma AbsentStayAbsent(m: Manifest, t: Tree)
    requires WellFormed(t) && forall a :: a in m.absent ==> NothingAt(t, a)
    ensures forall a :: a in m.absent ==> a !in t
  {
    forall a | a in m.absent ensures a !in t {
      if a in t { ExistingExists(t, a); }
    }
  }

  lemma ExplicitFrame(m: Manifest, changed: Tree, after: Tree)
    requires Kept(Without(changed, Stale(m, changed)), after, m.entries)
    requires forall e :: e in m.entries ==> InScope(m, e)
    ensures OutsideFramed(m, changed, after)
  {
    hide Stale, InScope;
    var before := Without(changed, Stale(m, changed));
    forall q | q in changed && !InScope(m, q) ensures q in after && after[q] == changed[q] {
      StaleIsInScope(m, changed);
      if r :| r in Stale(m, changed) && r <= q { ScopeUpward(m, r, q); }
      NoEntryOver(m, q);
      assert UntouchedOk(before, after, m.entries, q);
    }
    forall q | q in after && q !in changed && !InScope(m, q) ensures after[q].Dir? && AboveSome(m.entries, q) {
      assert SurvivorOk(before, after, m.entries, q);
    }
  }

  lemma NoEntryOver(m: Manifest, q: Path)
    requires !InScope(m, q) && forall e :: e in m.entries ==> InScope(m, e)
    ensures q !in m.entries && NoFileOver(m.entries, q)
  {
    forall e | e in m.entries ensures e <= q ==> InScope(m, q) {
      ScopeBelow(m, e, q);
    }
  }

  lemma ScopeBelow(m: Manifest, p: Path, q: Path)
    requires InScope(m, p)
    ensures p <= q ==> InScope(m, q)
  {
    if p <= q { ScopeUpward(m, p, q); }
  }

  lemma StaleIsInScope(m: Manifest, t: Tree)
    ensures forall p :: p in Stale(m, t) ==> InScope(m, p)
  {
  }

  /** A path below an existing one, whose place lies behind links perhaps, lies below its place. */
  lemma {:induction false} FollowBelow(t: Tree, root: Path, place: Path, suffix: Path)
    requires WellFormed(t) && Locate(t, root) == Some(place) && place + suffix in t
    ensures Locate(t, root + suffix) == Some(place + suffix)
    ensures t[place + suffix].Dir? ==> Resolve(t, [], root + suffix, MAX_LINKS) == Some(place + suffix)
    decreases |suffix|
  {
    hide WellFormed;
    var p := root + suffix;
    if suffix == [] {
      assert p == root && place + suffix == place;
    } else {
      var shorter := Parent(suffix);
      assert Parent(p) == root + shorter && Parent(place + suffix) == place + shorter;
      ExistingParent(t, place + suffix);
      FollowBelow(t, root, place, shorter);
      assert (place + shorter) + [Last(suffix)] == place + suffix && Last(p) == Last(suffix);
    }
    if t[place + suffix].Dir? {
      var dir := Parent(place + suffix);
      assert Resolve(t, [], Parent(p), MAX_LINKS) == Some(dir);
      assert dir + [Last(p)] == place + suffix;
      ExistingHasNoLinkOver(t, place + suffix);
      assert NormalName((place + suffix)[|place + suffix| - 1]);
      ResolveStep(t, [], Parent(p), Last(p), MAX_LINKS, dir);
      assert Parent(p) + [Last(p)] == p;
    }
  }

  lemma WalkedFrom(t: Tree, root: Path)
    requires WellFormed(t)
    ensures forall e :: e in WalkFrom(t, root) ==> root <= e && Exists(t, e) && WalkFrom(t, root)[e] == t[Locate(t, e).value]
  {
    forall e | e in WalkFrom(t, root)
      ensures root <= e && Exists(t, e) && WalkFrom(t, root)[e] == t[Locate(t, e).value]
    {
      var place, suffix := Locate(t, root).value, e[|root|..];
      assert root + suffix == e;
      FollowBelow(t, root, place, suffix);
    }
  }

  lemma {:induction false} PresentEntriesAre(t: Tree, roots: seq<Path>)
    requires WellFormed(t)
    ensures forall e :: e in PresentEntries(t, roots) ==>
      Exists(t, e) && PresentEntries(t, roots)[e] == t[Locate(t, e).value] && exists r :: r in roots && r <= e
  {
    hide Exists, Locate, WalkFrom, WellFormed;
    if roots != [] {
      var n := |roots| - 1;
      PresentEntriesAre(t, roots[..n]);
      WalkedFrom(t, roots[n]);
      OneMoreRoot(roots);
      forall e | e in PresentEntries(t, roots) ensures exists r :: r in roots && r <= e {
        if e in WalkFrom(t, roots[n]) {
          assert roots[n] in roots && roots[n] <= e;
        } else {
          assert e in PresentEntries(t, roots[..n]);
          var r :| r in roots[..n] && r <= e;
          assert r in roots;
        }
      }
    }
  }

  lemma {:induction false} RootsAreSorted(t: Tree, roots: seq<Path>)
    ensures forall r :: r in roots && !Exists(t, r) ==> r in AbsentRoots(t, roots)
    ensures forall r :: r in roots && Exists(t, r) ==> r in PresentEntries(t, roots)
  {
    hide Exists, Locate, WalkFrom;
    if roots != [] {
      var n := |roots| - 1;
      RootsAreSorted(t, roots[..n]);
      RootIsWalked(t, roots[n]);
      OneMoreRoot(roots);
    }
  }

  lemma OneMoreRoot(roots: seq<Path>)
    requires roots != []
    ensures forall r :: r in roots <==> r in roots[..|roots| - 1] || r == roots[|roots| - 1]
  {
    assert roots == roots[..|roots| - 1] + [roots[|roots| - 1]];
  }

  lemma RootIsWalked(t: Tree, root: Path)
    ensures Exists(t, root) ==> root in WalkFrom(t, root)
  {
    if Exists(t, root) {
      var place := Locate(t, root).value;
      assert root + place[|place|..] == root;
    }
  }

  lemma ExplicitEntries(taken: Tree, explicit: seq<Path>)
    requires WellFormed(taken) && explicit != [] && MakeSnapshot(taken, explicit).Ok?
    ensures var m := MakeSnapshot(taken, explicit).value;
      && m.scope == Explicit && m.roots == explicit
      && (forall e :: e in m.entries ==> InScope(m, e) && Exists(taken, e) && m.entries[e] == taken[Locate(taken, e).value])
      && (forall r :: r in explicit && Exists(taken, r) ==> r in m.entries)
      && (forall r :: r in explicit && !Exists(taken, r) ==> r in m.absent)
  {
    hide Exists, Locate;
    PresentEntriesAre(taken, explicit);
    RootsAreSorted(taken, explicit);
    var m := MakeSnapshot(taken, explicit).value;
    forall e | e in m.entries ensures InScope(m, e) {
      var r :| r in explicit && r <= e;
      assert r in m.roots + m.absent;
    }
  }

  // -------------------------------------------------- what an explicit restore leaves inside the scope

  ghost predicate Under(roots: seq<Path>, q: Path) {
    exists r :: r in roots && r <= q
  }

  /** The root leads to a place, and the path, seen from there, existed when the snapshot was taken. */
  ghost predicate TakenBelow(taken: Tree, r: Path, q: Path) {
    r <= q && Locate(taken, r).Some? && Locate(taken, r).value + q[|r|..] in taken
  }

  ghost predicate Taken(taken: Tree, roots: seq<Path>, q: Path) {
    exists r :: r in roots && TakenBelow(taken, r, q)
  }

  /** No entry stands below a recorded file or link. */
  predicate DirsAbove(entries: Tree) {
    forall p, k :: p in entries && 0 < k < |p| && p[..k] in entries ==> entries[p[..k]].Dir?
  }

  /** It was there before, no recorded file or link takes a place above it, and every path in the scope that leads to it
      is recorded or skipped by the walk. */
  ghost predicate Leftover(m: Manifest, changed: Tree, q: Path) {
    && q in changed && NoFileOver(m.entries, q)
    && forall k :: 0 < k <= |q| && Under(m.roots, q[..k]) && q[..k] !in m.entries ==> Skipped(changed, q[..k])
  }

  lemma WalkedIsTaken(t: Tree, root: Path)
    ensures forall q :: q in WalkFrom(t, root) <==> TakenBelow(t, root, q)
  {
    hide Locate;
    if Locate(t, root).Some? {
      var place := Locate(t, root).value;
      forall q | TakenBelow(t, root, q) ensures q in WalkFrom(t, root) {
        assert root + (place + q[|root|..])[|place|..] == q;
      }
    }
  }

  lemma {:induction false} PresentIsTaken(t: Tree, roots: seq<Path>)
    ensures forall q :: q in PresentEntries(t, roots) <==> Taken(t, roots, q)
  {
    hide WalkFrom, TakenBelow;
    if roots != [] {
      var n := |roots| - 1;
      PresentIsTaken(t, roots[..n]);
      WalkedIsTaken(t, roots[n]);
      OneMoreRoot(roots);
    }
  }

  lemma {:induction false} AbsentAmongRoots(t: Tree, roots: seq<Path>)
    ensures forall r :: r in AbsentRoots(t, roots) ==> r in roots && !Exists(t, r)
  {
    hide Exists;
    if roots != [] {
      AbsentAmongRoots(t, roots[..|roots| - 1]);
      OneMoreRoot(roots);
    }
  }

  lemma ExplicitScope(taken: Tree, explicit: seq<Path>, m: Manifest)
    requires explicit != [] && MakeSnapshot(taken, explicit) == Ok(m)
    ensures m.roots == explicit && forall q :: InScope(m, q) <==> Under(explicit, q)
  {
    hide Exists;
    AbsentAmongRoots(taken, explicit);
    assert forall r :: r in m.roots + m.absent <==> r in explicit;
  }

  lemma AbsencesAre(taken: Tree, explicit: seq<Path>, m: Manifest)
    requires explicit != [] && MakeSnapshot(taken, explicit) == Ok(m)
    ensures forall r :: r in m.absent <==> r in explicit && !Exists(taken, r)
  {
    hide Exists, Locate;
    AbsentAmongRoots(taken, explicit);
    RootsAreSorted(taken, explicit);
  }

  lemma PresentTaken(taken: Tree, explicit: seq<Path>, m: Manifest)
    requires explicit != [] && MakeSnapshot(taken, explicit) == Ok(m)
    ensures forall q :: q in m.entries <==> Taken(taken, explicit, q)
  {
    PresentIsTaken(taken, explicit);
  }

  /** The manifest of an explicit snapshot is acceptable unless a recorded link has entries below it. */
  lemma ExplicitAccepted(taken: Tree, explicit: seq<Path>, m: Manifest)
    requires WellFormed(taken) && explicit != [] && MakeSnapshot(taken, explicit) == Ok(m)
    ensures ManifestAccepted(m) <==> DirsAbove(m.entries)
  {
    hide Exists, Locate;
    AbsentAmongRoots(taken, explicit);
    PresentIsTaken(taken, explicit);
    forall e | e in m.entries ensures SafePath(e) {
      var r :| r in explicit && TakenBelow(taken, r, e);
      var p := Locate(taken, r).value + e[|r|..];
      assert SafePath(r) && NormalPath(p);
      forall i | 0 <= i < |e| ensures NormalName(e[i]) {
        if i < |r| {
          assert e[i] == r[i];
        } else {
          assert e[i] == p[|Locate(taken, r).value| + i - |r|];
        }
      }
    }
    forall p | p in m.roots + m.absent ensures SafePath(p) {
      assert p in explicit;
    }
  }

  /** Between a root and an entry below it everything is recorded, even if the entry was recorded from another root. */
  lemma RootIsRecorded(taken: Tree, explicit: seq<Path>, m: Manifest, r: Path, e: Path)
    requires WellFormed(taken) && explicit != [] && MakeSnapshot(taken, explicit) == Ok(m) && DirsAbove(m.entries)
    requires r in explicit && e in m.entries && r < e
    ensures Locate(taken, r).Some? && r in m.entries && DirAt(taken, Locate(taken, r).value)
    ensures TakenBelow(taken, r, e)
  {
    hide WellFormed, Resolve, PresentEntries, AbsentRoots, DirsAbove;
    ExplicitEntries(taken, explicit);
    var s := e[|r|..];
    var up := s[..|s| - 1];
    NormalEntry(taken, explicit, m, e);
    assert Parent(e) == Parent(r) + ([Last(r)] + up) by { assert r == Parent(r) + [Last(r)]; }
    var dir := Parent(Locate(taken, e).value);
    assert Resolve(taken, [], Parent(e), MAX_LINKS) == Some(dir) && dir + [Last(e)] in taken;
    var mid, left := ResolveSplit(taken, [], Parent(r), [Last(r)] + up, MAX_LINKS);
    var place := mid + [Last(r)];
    assert Locate(taken, r) == Some(place) && Last(e) == s[|s| - 1];
    if place !in taken {
      AtName(taken, mid, Last(r), up, left);
      LeadsNowhere(taken, place, s, left);
      assert false;
    }
    assert r in m.entries && m.entries[r] == taken[place];
    assert m.entries[r].Dir? by { assert e[..|r|] == r && 0 < |r| < |e|; EntryAbove(m, e, |r|); }
    AtName(taken, mid, Last(r), up, left);
    DirsBelowPlace(taken, explicit, m, r, e, place);
    PlainDown(taken, place, s, left, dir);
  }

  lemma EntryAbove(m: Manifest, e: Path, k: nat)
    requires DirsAbove(m.entries) && e in m.entries && 0 < k < |e| && e[..k] in m.entries
    ensures m.entries[e[..k]].Dir?
  {
  }

  lemma NormalEntry(taken: Tree, explicit: seq<Path>, m: Manifest, e: Path)
    requires WellFormed(taken) && explicit != [] && MakeSnapshot(taken, explicit) == Ok(m) && DirsAbove(m.entries) && e in m.entries
    ensures NormalPath(e) && (forall k :: 0 <= k <= |e| ==> NormalPath(e[k..]) && NormalPath(e[k..][..|e| - k - (if k < |e| then 1 else 0)]))
    ensures forall r :: r in explicit ==> SafePath(r)
  {
    ExplicitAccepted(taken, explicit, m);
    AcceptedPath(m, e);
  }

  lemma AtName(t: Tree, at: Path, name: string, rest: seq<string>, links: nat)
    requires NormalName(name) && (at + [name] in t ==> !t[at + [name]].Link?)
    ensures Resolve(t, at, [name] + rest, links) == Resolve(t, at + [name], rest, links)
  {
    assert ([name] + rest)[1..] == rest;
  }

  lemma DirsBelowPlace(taken: Tree, explicit: seq<Path>, m: Manifest, r: Path, e: Path, place: Path)
    requires WellFormed(taken) && explicit != [] && MakeSnapshot(taken, explicit) == Ok(m) && DirsAbove(m.entries)
    requires r in explicit && e in m.entries && r < e && Locate(taken, r) == Some(place)
    ensures forall j :: 0 < j < |e| - |r| && place + e[|r|..][..j] in taken ==> taken[place + e[|r|..][..j]].Dir?
  {
    var s := e[|r|..];
    forall j | 0 < j < |s| && place + s[..j] in taken ensures taken[place + s[..j]].Dir? {
      DirBelowPlace(taken, explicit, m, r, e, place, j);
    }
  }

  lemma DirBelowPlace(taken: Tree, explicit: seq<Path>, m: Manifest, r: Path, e: Path, place: Path, j: nat)
    requires WellFormed(taken) && explicit != [] && MakeSnapshot(taken, explicit) == Ok(m) && DirsAbove(m.entries)
    requires r in explicit && e in m.entries && r < e && Locate(taken, r) == Some(place)
    requires 0 < j < |e| - |r| && place + e[|r|..][..j] in taken
    ensures taken[place + e[|r|..][..j]].Dir?
  {
    hide WellFormed, Resolve, MakeSnapshot, DirsAbove, Locate, InScope;
    var q := r + e[|r|..][..j];
    assert q == e[..|r| + j] && q[|r|..] == e[|r|..][..j];
    assert TakenBelow(taken, r, q);
    TakenIsRecorded(taken, explicit, m, r, q);
    ExplicitEntries(taken, explicit);
    FollowBelow(taken, r, place, e[|r|..][..j]);
    EntryAbove(m, e, |r| + j);
  }

  lemma ScopeAboveEntry(taken: Tree, explicit: seq<Path>, m: Manifest, q: Path)
    requires WellFormed(taken) && explicit != [] && MakeSnapshot(taken, explicit) == Ok(m) && DirsAbove(m.entries)
    requires Under(explicit, q) && AboveSome(m.entries, q)
    ensures q in m.entries
  {
    hide WellFormed, Resolve, MakeSnapshot, DirsAbove, Locate;
    var r :| r in explicit && r <= q;
    var e :| e in m.entries && q < e;
    RootIsRecorded(taken, explicit, m, r, e);
    var place := Locate(taken, r).value;
    var p := place + e[|r|..];
    var k := |place| + |q| - |r|;
    assert p[..k] == place + q[|r|..];
    assert place + q[|r|..] in taken by {
      if q == r { assert p[..k] == place; } else { DirAbove(taken, p, k); }
    }
    TakenIsRecorded(taken, explicit, m, r, q);
  }

  lemma TakenIsRecorded(taken: Tree, explicit: seq<Path>, m: Manifest, r: Path, q: Path)
    requires explicit != [] && MakeSnapshot(taken, explicit) == Ok(m) && r in explicit && TakenBelow(taken, r, q)
    ensures q in m.entries
  {
    PresentIsTaken(taken, explicit);
  }

  /** Inside the roots a restored tree holds what was recorded and the leftovers, unchanged. */
  ghost predicate InsideExact(m: Manifest, changed: Tree, after: Tree, q: Path) {
    && (q in after <==> q in m.entries || Leftover(m, changed, q))
    && (q in after && q !in m.entries ==> after[q] == changed[q])
  }

  lemma LeftoverStays(m: Manifest, changed: Tree, after: Tree, q: Path)
    requires m.scope == Explicit && (forall p :: InScope(m, p) <==> Under(m.roots, p)) && WellFormed(changed)
    requires Kept(Without(changed, Stale(m, changed)), after, m.entries)
    requires Leftover(m, changed, q) && q !in m.entries
    ensures q in after && after[q] == changed[q]
  {
    hide InScope, Under, Skipped, NoFileOver, WellFormed;
    forall x | x in Stale(m, changed) ensures !(x <= q) {
      if x <= q {
        assert q[..|x|] == x && x != [] by { ExistingHasNoLinkOver(changed, x); }
      }
    }
    assert UntouchedOk(Without(changed, Stale(m, changed)), after, m.entries, q);
  }

  lemma FoundIsLeftover(m: Manifest, changed: Tree, after: Tree, q: Path)
    requires m.scope == Explicit && (forall p :: InScope(m, p) <==> Under(m.roots, p))
    requires WellFormed(changed) && WellFormed(after) && [] !in m.entries
    requires Kept(Without(changed, Stale(m, changed)), after, m.entries) && forall e :: e in m.entries ==> Written(after, e, m.entries[e])
    requires q in after && q !in m.entries && !AboveSome(m.entries, q)
    ensures Leftover(m, changed, q) && after[q] == changed[q]
  {
    hide InScope, Under, Skipped, WellFormed;
    var before := Without(changed, Stale(m, changed));
    assert SurvivorOk(before, after, m.entries, q);
    forall e | e in m.entries && e < q ensures m.entries[e].Dir? {
      DirAbove(after, q, |e|);
      assert q[..|e|] == e && Written(after, e, m.entries[e]);
    }
    forall k | 0 < k <= |q| && Under(m.roots, q[..k]) && q[..k] !in m.entries ensures Skipped(changed, q[..k]) {
      assert k == |q| ==> q[..k] == q;
      if k < |q| { DirAbove(changed, q, k); }
      assert q[..k] <= q && q[..k] !in Stale(m, changed);
    }
  }

  lemma InsideTheRoots(taken: Tree, explicit: seq<Path>, m: Manifest, changed: Tree, after: Tree)
    requires WellFormed(taken) && WellFormed(changed) && WellFormed(after)
    requires explicit != [] && MakeSnapshot(taken, explicit) == Ok(m) && DirsAbove(m.entries)
    requires Kept(Without(changed, Stale(m, changed)), after, m.entries) && forall e :: e in m.entries ==> Written(after, e, m.entries[e])
    ensures forall q :: Under(explicit, q) ==> InsideExact(m, changed, after, q)
  {
    hide MakeSnapshot, Kept, DirsAbove, Leftover, WellFormed, InScope, Under;
    ExplicitScope(taken, explicit, m);
    ExplicitAccepted(taken, explicit, m);
    NoEmptyEntry(m);
    ExplicitIs(taken, explicit, m);
    forall q | Under(explicit, q) ensures InsideExact(m, changed, after, q) {
      if q in m.entries {
        assert Written(after, q, m.entries[q]);
      } else {
        if AboveSome(m.entries, q) { ScopeAboveEntry(taken, explicit, m, q); }
        if Leftover(m, changed, q) { LeftoverStays(m, changed, after, q); }
        if q in after { FoundIsLeftover(m, changed, after, q); }
      }
    }
  }

  lemma NoEmptyEntry(m: Manifest)
    ensures ManifestAccepted(m) ==> [] !in m.entries
  {
  }

  lemma ExplicitIs(taken: Tree, explicit: seq<Path>, m: Manifest)
    requires explicit != [] && MakeSnapshot(taken, explicit) == Ok(m)
    ensures m.scope == Explicit && m.roots == explicit
  {
  }

  /** A file above an entry, outside the roots, stays where it is, and the entry cannot come back. */
  lemma EntriesNeedRoom(taken: Tree, explicit: seq<Path>, m: Manifest, changed: Tree, after: Tree)
    requires WellFormed(taken) && WellFormed(after)
    requires explicit != [] && MakeSnapshot(taken, explicit) == Ok(m) && DirsAbove(m.entries)
    requires Kept(Without(changed, Stale(m, changed)), after, m.entries) && forall e :: e in m.entries ==> Written(after, e, m.entries[e])
    ensures Roomy(m.entries, changed)
  {
    hide MakeSnapshot, DirsAbove, WellFormed, InScope, Under, Stale;
    ExplicitScope(taken, explicit, m);
    var before := Without(changed, Stale(m, changed));
    forall e, k | e in m.entries && 0 < k < |e| && e[..k] !in m.entries && e[..k] in changed ensures changed[e[..k]].Dir? {
      var q := e[..k];
      assert Written(after, e, m.entries[e]) && q < e;
      DirAbove(after, e, k);
      if Under(explicit, q) { ScopeAboveEntry(taken, explicit, m, q); }
      StaleIsInScope(m, changed);
      forall x | x in Stale(m, changed) ensures !(x <= q) { ScopeBelow(m, x, q); }
      forall f | f in m.entries && f < q ensures m.entries[f].Dir? {
        assert e[..|f|] == f && (|f| > 0 || f == []);
        if f != [] { EntryAbove(m, e, |f|); } else { EmptyIsNoEntry(taken, explicit, m); }
      }
      assert UntouchedOk(before, after, m.entries, q);
    }
  }

  lemma EmptyIsNoEntry(taken: Tree, explicit: seq<Path>, m: Manifest)
    requires WellFormed(taken) && explicit != [] && MakeSnapshot(taken, explicit) == Ok(m) && DirsAbove(m.entries)
    ensures [] !in m.entries
  {
    ExplicitAccepted(taken, explicit, m);
  }

  /** No link above the path, neither where nothing was recorded nor recorded. */
  predicate PlainWay(entries: Tree, t: Tree, a: Path) {
    PlainlyNamed(entries, t, a) && forall k :: 0 < k < |a| && a[..k] in entries ==> !entries[a[..k]].Link?
  }

  lemma AbsenceExactly(taken: Tree, explicit: seq<Path>, m: Manifest, changed: Tree, after: Tree, a: Path)
    requires WellFormed(taken) && WellFormed(changed) && WellFormed(after)
    requires explicit != [] && MakeSnapshot(taken, explicit) == Ok(m) && DirsAbove(m.entries)
    requires Kept(Without(changed, Stale(m, changed)), after, m.entries) && forall e :: e in m.entries ==> Written(after, e, m.entries[e])
    requires a in explicit && !Exists(taken, a) && PlainWay(m.entries, changed, a)
    ensures NothingAt(after, a) <==> !Leftover(m, changed, a)
  {
    hide MakeSnapshot, DirsAbove, WellFormed, InScope, Leftover, Stale, Exists, Kept, Resolve;
    InsideTheRoots(taken, explicit, m, changed, after);
    ExplicitEntries(taken, explicit);
    assert a !in m.entries && Under(explicit, a);
    assert InsideExact(m, changed, after, a);
    RootsAreSafe(taken, explicit, m);
    KeptPlain(m, changed, after, a);
    LocatePlain(after, a);
    RealWhereResolved(after, [], Parent(a), MAX_LINKS);
    assert Exists(after, a) <==> a in after by { ExistsWhereLocated(after, a); }
  }

  lemma ExistsWhereLocated(t: Tree, a: Path)
    requires Locate(t, a) == Some(a)
    ensures Exists(t, a) <==> a in t
  {
  }

  lemma RootsAreSafe(taken: Tree, explicit: seq<Path>, m: Manifest)
    requires explicit != [] && MakeSnapshot(taken, explicit) == Ok(m)
    ensures forall r :: r in explicit ==> SafePath(r)
  {
  }

  lemma KeptPlain(m: Manifest, changed: Tree, after: Tree, a: Path)
    requires Kept(Without(changed, Stale(m, changed)), after, m.entries) && forall e :: e in m.entries ==> Written(after, e, m.entries[e])
    requires PlainWay(m.entries, changed, a)
    ensures NoLinkOver(after, a)
  {
    hide Stale;
    forall k | 0 < k < |a| && a[..k] in after ensures !after[a[..k]].Link? {
      assert SurvivorOk(Without(changed, Stale(m, changed)), after, m.entries, a[..k]);
      if a[..k] in m.entries { assert Written(after, a[..k], m.entries[a[..k]]); }
    }
  }

  // -------------------------------------------------- two trees on which the promise fails

  /** Root d/x was recorded while d was a directory. Then d became a link to e, where another x lives. */
  const RECORDED: Tree := map[["d"] := Dir(0), ["d", "x"] := File("old", 0)]
  const RELINKED: Tree := map[["d"] := Link(["e"]), ["e"] := Dir(0), ["e", "x"] := File("new", 0)]

  lemma {:induction false} TwoNames(a: string, b: string)
    ensures var p: Path := [a, b]; p[..1] == [a] && p[..2] == p && Parent(p) == [a] && Last(p) == b && [a][..1] == [a]
  {
  }

  /** A top-level link to a top-level directory is followed there. */
  lemma TopLink(t: Tree, link: string, dir: string)
    requires NormalName(link) && NormalName(dir) && [link] in t && t[[link]] == Link([dir]) && ([dir] in t ==> !t[[dir]].Link?)
    ensures Resolve(t, [], [link], MAX_LINKS) == Some([dir])
  {
    var none: Path := [];
    assert none + [link] == [link] && none + [dir] == [dir] && [link][1..] == none && [dir][1..] == none && [dir] + none == [dir];
    assert Resolve(t, [dir], none, MAX_LINKS - 1) == Some([dir]);
    assert Resolve(t, none, [dir], MAX_LINKS - 1) == Some([dir]);
  }

  lemma PlainTarget(t: Tree, link: Path, target: seq<string>, path: Path)
    requires WellFormed(t) && link != [] && Parent(link) + target == path && path in t && !t[path].Link?
    ensures TargetInside(t, link, target)
  {
    ExistingHasNoLinkOver(t, path);
    FollowPlain(t, path);
    RealWhereResolved(t, [], path, MAX_LINKS);
  }

  lemma RelinkedTrees()
    ensures WellFormed(RECORDED) && WellFormed(RELINKED) && Walkable(RELINKED)
    ensures Locate(RECORDED, ["d", "x"]) == Some(["d", "x"]) && Locate(RELINKED, ["d", "x"]) == Some(["e", "x"])
  {
    hide Resolve, LeadsToDir;
    TwoNames("d", "x");
    TwoNames("e", "x");
    assert "d" !in SKIP_DIRS && "e" !in SKIP_DIRS;
    LocatePlain(RECORDED, ["d", "x"]);
    TopLink(RELINKED, "d", "e");
    PlainTarget(RELINKED, ["d"], ["e"], ["e"]);
    assert ["e"] + ["x"] == ["e", "x"];
  }

  lemma RelinkedManifest()
    ensures MakeSnapshot(RECORDED, [["d", "x"]]) == Ok(Manifest(Explicit, [["d", "x"]], [], map[["d", "x"] := File("old", 0)]))
  {
    hide Resolve, WellFormed, Walkable;
    RelinkedTrees();
    var root: Path := ["d", "x"];
    var none: seq<Path> := [];
    assert [root][..0] == none;
    assert SafePath(root);
    assert forall q :: q in RECORDED && root <= q ==> q == root;
    assert root + root[|root|..] == root;
    assert WalkFrom(RECORDED, root).Keys == {root};
    assert WalkFrom(RECORDED, root) == map[root := File("old", 0)];
    assert PresentEntries(RECORDED, []) == map[] && AbsentRoots(RECORDED, []) == [];
    assert PresentEntries(RECORDED, [root]) == map[root := File("old", 0)];
    assert AbsentRoots(RECORDED, [root]) == [];
  }

  lemma RelinkedReady(m: Manifest)
    requires m == Manifest(Explicit, [["d", "x"]], [], map[["d", "x"] := File("old", 0)])
    ensures ManifestAccepted(m) && !InScope(m, ["e", "x"]) && Stale(m, RELINKED) == {} && OneFile(m, RELINKED, ["d", "x"])
    ensures WithFile(m, RELINKED, ["d", "x"]) == RELINKED[["e", "x"] := File("old", 0)]
  {
    hide Resolve, Walk, WellFormed, Walkable, Locate, Stale;
    RelinkedTrees();
    assert ["d", "x"][..1] == ["d"] && m.roots + m.absent == [["d", "x"]];
    assert "d"[0] != "e"[0] && ["d", "x"][0] != ["e", "x"][0];
    assert forall q :: q in RELINKED ==> !(["d", "x"] <= q);
    StaleExist(m, RELINKED);
  }

  /** The root's place is the outside file. */
  lemma RelinkedOutside(m: Manifest)
    requires m.scope == Explicit && m.roots == [["d", "x"]] && m.absent == []
    ensures OutsidePlace(m, RELINKED, ["d", "x"]) == Some(["e", "x"]) && LinkedOutside(m, RELINKED, ["d", "x"])
  {
    TwoNames("d", "x");
    var none: Path := [];
    assert m.roots + m.absent == [["d", "x"]] && |["d"]| < |["d", "x"]| && |["e"]| < |["d", "x"]|;
    assert "d"[0] != "e"[0] && ["d", "x"][0] != ["e", "x"][0] && !(["d", "x"] <= ["e", "x"]);
    assert !InScope(m, ["d"]) && !InScope(m, ["e"]) && !InScope(m, ["e", "x"]);
    assert none + ["d"] == ["d"] && none + ["e"] == ["e"] && ["d"][1..] == none && ["e"][1..] == none && ["e"] + none == ["e"];
    assert ResolveOutside(m, RELINKED, ["e"], none, MAX_LINKS - 1) == Some(["e"]);
    assert ResolveOutside(m, RELINKED, none, ["e"], MAX_LINKS - 1) == Some(["e"]);
    assert ["e"] + ["x"] == ["e", "x"];
  }

  lemma StaleExist(m: Manifest, t: Tree)
    ensures forall p :: p in Stale(m, t) ==> p in t && InScope(m, p)
  {
  }

  /** The restore returns normally and has overwritten e/x, which is outside the roots. */
  method FollowedLink() returns (w: Workspace, m: Manifest, ok: bool)
    ensures MakeSnapshot(RECORDED, [["d", "x"]]) == Ok(m) && !InScope(m, ["e", "x"])
    ensures ok && w.tree == RELINKED[["e", "x"] := File("old", 0)]
  {
    hide WellFormed, Walkable, ManifestAccepted, Stale, OneFile, WithFile, InScope, Kept, LinkedOutside, NoLinkAbove, Clean, OutsideKept,
      Verified, Exists, Written, Without, Closed, MakeSnapshot, Locate;
    RelinkedTrees();
    RelinkedManifest();
    m := Manifest(Explicit, [["d", "x"]], [], map[["d", "x"] := File("old", 0)]);
    RelinkedReady(m);
    w := new Workspace(RELINKED);
    ok := w.Restore(m);
  }

  /** A link a/b/l up to the file x, and a workspace where a/b has become a link to the directory c. */
  const NESTED: Tree := map[["a"] := Dir(0), ["a", "b"] := Dir(0), ["a", "b", "l"] := Link(["..", "..", "x"]), ["x"] := File("", 0)]
  const REPLACED: Tree := map[["a"] := Dir(0), ["a", "b"] := Link(["..", "c"]), ["c"] := Dir(0), ["x"] := File("", 0)]

  lemma NestedTrees()
    ensures WellFormed(NESTED) && WellFormed(REPLACED)
    ensures forall p :: p in NESTED || p in REPLACED ==> forall i :: 0 <= i < |p| ==> |p[i]| == 1
  {
    var a: Path, b: Path, l: Path := ["a"], ["a", "b"], ["a", "b", "l"];
    assert b[..1] == a && l[..1] == a && l[..2] == b;
    assert NESTED.Keys == {a, b, l, ["x"]} && REPLACED.Keys == {a, b, ["c"], ["x"]};
    assert NESTED[a].Dir? && NESTED[b].Dir? && REPLACED[a].Dir?;
    assert NormalName("a") && NormalName("b") && NormalName("c") && NormalName("l") && NormalName("x");
  }

  lemma OneName(t: Tree, at: Path, name: string, rest: seq<string>, links: nat)
    requires NormalName(name) && (at + [name] in t ==> !t[at + [name]].Link?)
    ensures RealPath(t, at, [name] + rest, links) == RealPath(t, at + [name], rest, links)
  {
  }

  lemma OneUp(t: Tree, at: Path, rest: seq<string>, links: nat)
    ensures RealPath(t, at, [".."] + rest, links) == if at == [] then None else RealPath(t, Parent(at), rest, links)
  {
  }

  lemma OneLink(t: Tree, at: Path, name: string, rest: seq<string>, links: nat)
    requires NormalName(name) && at + [name] in t && t[at + [name]].Link? && links > 0
    ensures RealPath(t, at, [name] + rest, links) == RealPath(t, at, t[at + [name]].target + rest, links - 1)
  {
  }

  /** `..` twice from the directory a/b leads to the top. */
  lemma UpFromB()
    ensures RealPath(NESTED, [], ["a", "b", "..", "..", "x"], MAX_LINKS).Some?
  {
    hide RealPath;
    var none: Path := [];
    assert none + ["a"] == ["a"] && ["a"] + ["b"] == ["a", "b"] && Parent(["a", "b"]) == ["a"] && Parent(["a"]) == none;
    assert ["a", "b", "..", "..", "x"] == ["a"] + (["b"] + ([".."] + ([".."] + ["x"])));
    OneName(NESTED, none, "a", ["b"] + ([".."] + ([".."] + ["x"])), MAX_LINKS);
    OneName(NESTED, ["a"], "b", [".."] + ([".."] + ["x"]), MAX_LINKS);
    OneUp(NESTED, ["a", "b"], [".."] + ["x"], MAX_LINKS);
    OneUp(NESTED, ["a"], ["x"], MAX_LINKS);
    OnlyName(NESTED, "x");
  }

  lemma OnlyName(t: Tree, name: string)
    requires NormalName(name) && ([name] in t ==> !t[[name]].Link?)
    ensures RealPath(t, [], [name], MAX_LINKS).Some?
  {
    assert [] + [name] == [name] && [name][1..] == [];
  }

  /** From where the link a/b leads, the second `..` leaves the workspace. */
  lemma UpFromC()
    ensures RealPath(REPLACED, [], ["a", "b", "..", "..", "x"], MAX_LINKS) == None
  {
    hide RealPath;
    var none: Path := [];
    var up := [".."] + ([".."] + ["x"]);
    assert none + ["a"] == ["a"] && ["a"] + ["b"] == ["a", "b"] && none + ["c"] == ["c"] && Parent(["a"]) == none && Parent(["c"]) == none;
    assert ["a", "b", "..", "..", "x"] == ["a"] + (["b"] + up) && ["..", "c"] + up == [".."] + (["c"] + up);
    OneName(REPLACED, none, "a", ["b"] + up, MAX_LINKS);
    OneLink(REPLACED, ["a"], "b", up, MAX_LINKS);
    OneUp(REPLACED, ["a"], ["c"] + up, MAX_LINKS - 1);
    OneName(REPLACED, none, "c", up, MAX_LINKS - 1);
    OneUp(REPLACED, ["c"], [".."] + ["x"], MAX_LINKS - 1);
    OneUp(REPLACED, none, ["x"], MAX_LINKS - 1);
  }

  lemma BesideA()
    ensures RealPath(REPLACED, [], ["a", "..", "c"], MAX_LINKS).Some?
  {
    hide RealPath;
    var none: Path := [];
    assert none + ["a"] == ["a"] && Parent(["a"]) == none && ["a", "..", "c"] == ["a"] + ([".."] + ["c"]);
    OneName(REPLACED, none, "a", [".."] + ["c"], MAX_LINKS);
    OneUp(REPLACED, ["a"], ["c"], MAX_LINKS);
    OnlyName(REPLACED, "c");
  }

  lemma Unskipped(t: Tree)
    requires forall p :: p in t ==> p != [] && forall i :: 0 <= i < |p| ==> |p[i]| == 1
    ensures Walk(t) == t && SkipNamesLead(t)
  {
    hide LeadsToDir;
    assert forall name :: name in SKIP_DIRS ==> |name| > 1;
  }

  lemma NestedTargets()
    ensures MakeSnapshot(NESTED, []) == Ok(Manifest(FullWorkspace, [], [], NESTED))
    ensures Walkable(REPLACED) && !LinksInside(REPLACED, NESTED)
  {
    hide RealPath, SkipNamesLead, Walk, WellFormed;
    NestedTrees();
    Unskipped(NESTED);
    Unskipped(REPLACED);
    UpFromB();
    UpFromC();
    BesideA();
    var l: Path := ["a", "b", "l"];
    assert Parent(["a", "b"]) + ["..", "c"] == ["a", "..", "c"] && Parent(l) + ["..", "..", "x"] == ["a", "b", "..", "..", "x"];
    assert l in NESTED && NESTED[l] == Link(["..", "..", "x"]) && !TargetInside(REPLACED, l, NESTED[l].target);
  }

  /** Both workspaces can be snapshotted, yet the first cannot be restored over the second: seen from the new a/b, the
      recorded target leaves the workspace. */
  method EscapingTarget() returns (w: Workspace, m: Manifest, ok: bool)
    ensures MakeSnapshot(NESTED, []) == Ok(m) && Walkable(REPLACED)
    ensures !ok && w.tree == REPLACED
  {
    hide WellFormed, MakeSnapshot, Walkable, LinksInside, RestoredTree, Written, SkipLinksSettled, SkipLinksHidden, Skipped;
    NestedTrees();
    NestedTargets();
    Unskipped(NESTED);
    m := Manifest(FullWorkspace, [], [], NESTED);
    w := new Workspace(REPLACED);
    ok := w.RestoreUndoes(m, NESTED);
  }

  /** A full workspace, and the same with a link a/__pycache__ to a new directory n: the walk skips that link. */
  const TIDY: Tree := map[["a"] := Dir(0)]
  const CACHED: Tree := map[["a"] := Dir(0), ["a", "__pycache__"] := Link(["..", "n"]), ["n"] := Dir(0)]
  const LEFTOVER: Tree := map[["a"] := Dir(0), ["a", "__pycache__"] := Link(["..", "n"])]

  lemma PlainNames(t: Tree)
    requires t == TIDY || t == CACHED || t == LEFTOVER
    ensures WellFormed(t) && !Skipped(t, ["a"]) && !Skipped(t, ["n"]) && (t != LEFTOVER ==> Walkable(t))
    ensures Skipped(t, ["a", "__pycache__"]) <==> t == CACHED
  {
    hide Resolve;
    var link: Path := ["a", "__pycache__"];
    assert link[..1] == ["a"] && link[..2] == link && ["a"][..1] == ["a"] && ["n"][..1] == ["n"];
    assert "a" !in SKIP_DIRS && "n" !in SKIP_DIRS && "__pycache__" in SKIP_DIRS;
    assert NormalPath(link);
    if t != TIDY { LinkToN(t); }
    assert ["n"] in CACHED && link in CACHED && LeadsToDir(CACHED, link) <==> LeadsToDir(CACHED, link[..2]);
    assert t == CACHED ==> LeadsToDir(t, link);
    assert t == CACHED ==> SkipsAt(t, link, 2);
    forall k | 0 < k <= 2 ensures t != CACHED ==> !SkipsAt(t, link, k) {
    }
  }

  /** The restore removes n and leaves the link, which the next walk sees: not every change is undone. */
  lemma LeftoverSkipLink()
    ensures MakeSnapshot(TIDY, []).Ok? && RestoredTree(MakeSnapshot(TIDY, []).value, CACHED) == LEFTOVER
    ensures ["a", "__pycache__"] in Walk(LEFTOVER) && ["a", "__pycache__"] !in Walk(TIDY)
  {
    hide Skipped, Walkable, WellFormed, LeadsToDir, Without, Stale;
    PlainNames(TIDY);
    PlainNames(CACHED);
    PlainNames(LEFTOVER);
    assert |["a"]| != |["a", "__pycache__"]| && ["a", "__pycache__"] !in TIDY && ["a", "__pycache__"] in LEFTOVER;
    var m := MakeSnapshot(TIDY, []).value;
    assert m.entries == TIDY;
    NewDirIsStale(m);
    assert ["a", "__pycache__"] in LEFTOVER && ["n"] in CACHED && ["n"] !in LEFTOVER;
    assert NoFileOver(m.entries, ["a", "__pycache__"]);
  }

  lemma NewDirIsStale(m: Manifest)
    requires m.scope == FullWorkspace && m.entries == TIDY
    ensures Without(CACHED, Stale(m, CACHED)) == LEFTOVER
  {
    hide Skipped, Walkable, WellFormed, LeadsToDir;
    PlainNames(CACHED);
    assert Walk(CACHED) == map[["a"] := Dir(0), ["n"] := Dir(0)];
    assert "n"[0] != "a"[0] && ["n"][0] != ["a"][0];
    assert ["n"] !in TIDY && InScope(m, ["n"]);
    assert Stale(m, CACHED) == {["n"]};
    assert !(["n"] <= ["a"]) && !(["n"] <= ["a", "__pycache__"]) && ["n"] <= ["n"];
    assert Without(CACHED, {["n"]}) == LEFTOVER;
  }

  lemma LinkToN(t: Tree)
    requires ["a", "__pycache__"] in t && t[["a", "__pycache__"]] == Link(["..", "n"])
    requires ["a"] in t && t[["a"]].Dir? && (["n"] in t ==> t[["n"]].Dir?)
    ensures LeadsToDir(t, ["a", "__pycache__"]) <==> ["n"] in t
  {
    var link: Path := ["a", "__pycache__"];
    assert [] + ["a"] == ["a"] && link[1..] == ["__pycache__"] && ["a"] + ["__pycache__"] == link;
    assert ["__pycache__"][1..] == [] && ["..", "n"] + [] == ["..", "n"] && ["..", "n"][1..] == ["n"] && ["n"][1..] == [];
    assert Parent(["a"]) == [] && [] + ["n"] == ["n"];
    assert Resolve(t, ["n"], [], MAX_LINKS - 1) == Some(["n"]);
    assert Resolve(t, [], ["n"], MAX_LINKS - 1) == Some(["n"]);
    assert Resolve(t, ["a"], ["..", "n"], MAX_LINKS - 1) == Some(["n"]);
    assert Resolve(t, ["a"], ["__pycache__"], MAX_LINKS) == Some(["n"]);
    assert Resolve(t, [], link, MAX_LINKS) == Some(["n"]);
  }
}
