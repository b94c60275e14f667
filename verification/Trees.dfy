/** A workspace tree with links, and the file operations a restore uses: a path is followed through every link above it
    (scripts/audit_check.py and the os module calls it makes). */
module Trees {
  import opened Sequences

  type Path = seq<string>

  /** A link keeps its text, split at the slashes; links carry no mode of their own. */
  datatype Entry = File(content: string, mode: int) | Dir(mode: int) | Link(target: seq<string>)

  type Tree = map<Path, Entry>

  const DEFAULT_MODE := 493
  const MAX_LINKS := 40

  predicate SameKind(a: Entry, b: Entry) {
    a.File? == b.File? && a.Dir? == b.Dir? && a.Link? == b.Link?
  }

  predicate NormalName(name: string) {
    name != "" && name != "." && name != ".."
  }

  predicate NormalPath(p: Path) {
    forall i :: 0 <= i < |p| ==> NormalName(p[i])
  }

  /** Every path is below directories only. */
  predicate ParentsAreDirs(t: Tree, p: Path) {
    forall k :: 0 < k < |p| ==> p[..k] in t && t[p[..k]].Dir?
  }

  ghost predicate WellFormed(t: Tree) {
    [] !in t && forall p :: p in t ==> NormalPath(p) && ParentsAreDirs(t, p)
  }

  function Parent(p: Path): Path
    requires p != []
  {
    p[..|p| - 1]
  }

  function Last(p: Path): string
    requires p != []
  {
    p[|p| - 1]
  }

  // -------------------------------------------------- following links

  /** Where the remaining names lead from the directory `at`, every link followed; None when they leave the workspace or
      there are too many links. */
  function Resolve(t: Tree, at: Path, rest: seq<string>, links: nat): Option<Path>
    decreases links, |rest|
  {
    if rest == [] then Some(at)
    else if rest[0] == "" || rest[0] == "." then Resolve(t, at, rest[1..], links)
    else if rest[0] == ".." then
      if at == [] then None else Resolve(t, Parent(at), rest[1..], links)
    else
      var p := at + [rest[0]];
      if p in t && t[p].Link? then
        if links == 0 then None else Resolve(t, at, t[p].target + rest[1..], links - 1)
      else Resolve(t, p, rest[1..], links)
  }

  /** `os.path.realpath`, which never fails: a link met too often counts as an ordinary name. None when the path leaves
      the workspace. */
  function RealPath(t: Tree, at: Path, rest: seq<string>, links: nat): Option<Path>
    decreases links, |rest|
  {
    if rest == [] then Some(at)
    else if rest[0] == "" || rest[0] == "." then RealPath(t, at, rest[1..], links)
    else if rest[0] == ".." then
      if at == [] then None else RealPath(t, Parent(at), rest[1..], links)
    else
      var p := at + [rest[0]];
      if p in t && t[p].Link? && links > 0 then RealPath(t, at, t[p].target + rest[1..], links - 1)
      else RealPath(t, p, rest[1..], links)
  }

  lemma {:induction false} RealWhereResolved(t: Tree, at: Path, rest: seq<string>, links: nat)
    requires Resolve(t, at, rest, links).Some?
    ensures RealPath(t, at, rest, links) == Resolve(t, at, rest, links)
    decreases links, |rest|
  {
    if rest == [] {
    } else if rest[0] == "" || rest[0] == "." {
      RealWhereResolved(t, at, rest[1..], links);
    } else if rest[0] == ".." {
      RealWhereResolved(t, Parent(at), rest[1..], links);
    } else {
      var p := at + [rest[0]];
      if p in t && t[p].Link? {
        RealWhereResolved(t, at, t[p].target + rest[1..], links - 1);
      } else {
        RealWhereResolved(t, p, rest[1..], links);
      }
    }
  }

  /** The place a path names, itself not followed: what `lstat`, `unlink` and `open` for a new file act on. */
  function Locate(t: Tree, p: Path): (r: Option<Path>)
    ensures r.Some? ==> r.value != []
  {
    if p == [] then None
    else match Resolve(t, [], Parent(p), MAX_LINKS)
    case None => None
    case Some(dir) => Some(dir + [Last(p)])
  }

  predicate DirAt(t: Tree, p: Path) {
    p == [] || (p in t && t[p].Dir?)
  }

  /** `os.path.isdir`. */
  predicate LeadsToDir(t: Tree, p: Path) {
    var place := Resolve(t, [], p, MAX_LINKS);
    place.Some? && DirAt(t, place.value)
  }

  lemma {:induction false} ResolvePlain(t: Tree, at: Path, rest: seq<string>, links: nat)
    requires NormalPath(rest)
    requires forall k :: 0 < k <= |rest| && at + rest[..k] in t ==> !t[at + rest[..k]].Link?
    ensures Resolve(t, at, rest, links) == Some(at + rest)
    decreases |rest|
  {
    if rest == [] {
      assert at + rest == at;
    } else {
      var p := at + [rest[0]];
      assert NormalName(rest[0]) && p == at + rest[..1];
      forall k | 0 < k <= |rest[1..]| ensures p + rest[1..][..k] == at + rest[..k + 1] {
      }
      assert NormalPath(rest[1..]) by {
        forall i | 0 <= i < |rest[1..]| ensures NormalName(rest[1..][i]) { assert NormalName(rest[i + 1]); }
      }
      ResolvePlain(t, p, rest[1..], links);
      assert p + rest[1..] == at + rest;
    }
  }

  /** Nothing above the path is a link. */
  predicate NoLinkOver(t: Tree, p: Path) {
    forall k :: 0 < k < |p| && p[..k] in t ==> !t[p[..k]].Link?
  }

  lemma LocatePlain(t: Tree, p: Path)
    requires p != [] && NormalPath(p) && NoLinkOver(t, p)
    ensures Locate(t, p) == Some(p) && Resolve(t, [], Parent(p), MAX_LINKS) == Some(Parent(p))
  {
    var parent := Parent(p);
    forall k | 0 < k <= |parent| ensures [] + parent[..k] == p[..k] {
    }
    ResolvePlain(t, [], parent, MAX_LINKS);
    assert [] + parent == parent;
    assert parent + [Last(p)] == p;
  }

  lemma FollowPlain(t: Tree, p: Path)
    requires NormalPath(p) && NoLinkOver(t, p) && (p in t ==> !t[p].Link?)
    ensures Resolve(t, [], p, MAX_LINKS) == Some(p) && (LeadsToDir(t, p) <==> DirAt(t, p))
  {
    forall k | 0 < k <= |p| ensures [] + p[..k] in t ==> !t[[] + p[..k]].Link? {
      assert [] + p[..k] == p[..k];
      if k == |p| { assert p[..k] == p; }
    }
    ResolvePlain(t, [], p, MAX_LINKS);
    assert [] + p == p;
  }

  lemma ExistingHasNoLinkOver(t: Tree, p: Path)
    requires WellFormed(t) && p in t
    ensures NoLinkOver(t, p) && NormalPath(p) && p != []
  {
    assert ParentsAreDirs(t, p);
  }

  predicate SameLinks(t: Tree, u: Tree) {
    && (forall p :: p in t && t[p].Link? ==> p in u && u[p] == t[p])
    && forall p :: p in u && u[p].Link? ==> p in t && t[p] == u[p]
  }

  lemma {:induction false} ResolveSameLinks(t: Tree, u: Tree, at: Path, rest: seq<string>, links: nat)
    requires SameLinks(t, u)
    ensures Resolve(t, at, rest, links) == Resolve(u, at, rest, links)
    decreases links, |rest|
  {
    if rest == [] {
    } else if rest[0] == "" || rest[0] == "." {
      ResolveSameLinks(t, u, at, rest[1..], links);
    } else if rest[0] == ".." {
      if at != [] { ResolveSameLinks(t, u, Parent(at), rest[1..], links); }
    } else {
      var p := at + [rest[0]];
      if p in t && t[p].Link? {
        if links > 0 { ResolveSameLinks(t, u, at, t[p].target + rest[1..], links - 1); }
      } else {
        ResolveSameLinks(t, u, p, rest[1..], links);
      }
    }
  }

  /** Following a path means following its beginning and then, from there, the rest. */
  lemma {:induction false} ResolveSplit(t: Tree, at: Path, a: seq<string>, b: seq<string>, links: nat) returns (mid: Path, left: nat)
    requires Resolve(t, at, a + b, links).Some?
    ensures Resolve(t, at, a, links) == Some(mid) && Resolve(t, mid, b, left) == Resolve(t, at, a + b, links)
    decreases links, |a|
  {
    if a == [] {
      assert a + b == b;
      mid, left := at, links;
    } else {
      assert (a + b)[1..] == a[1..] + b;
      if a[0] == "" || a[0] == "." {
        mid, left := ResolveSplit(t, at, a[1..], b, links);
      } else if a[0] == ".." {
        mid, left := ResolveSplit(t, Parent(at), a[1..], b, links);
      } else {
        var p := at + [a[0]];
        if p in t && t[p].Link? {
          assert t[p].target + (a[1..] + b) == (t[p].target + a[1..]) + b;
          mid, left := ResolveSplit(t, at, t[p].target + a[1..], b, links - 1);
        } else {
          mid, left := ResolveSplit(t, p, a[1..], b, links);
        }
      }
    }
  }

  lemma NothingUnder(t: Tree, at: Path)
    requires WellFormed(t) && at != [] && at !in t
    ensures forall q :: q in t ==> !(at <= q)
  {
    forall q | q in t ensures !(at <= q) {
      assert ParentsAreDirs(t, q);
      PrefixFacts(at, q);
    }
  }

  /** Below a path that is not there, there is nothing to follow. */
  lemma BelowNothing(t: Tree, at: Path, s: Path, links: nat)
    requires WellFormed(t) && at != [] && at !in t && NormalPath(s)
    ensures Resolve(t, at, s, links) == Some(at + s) && at + s !in t
  {
    NothingUnder(t, at);
    assert forall k :: 0 <= k <= |s| ==> at <= at + s[..k];
    assert s != [] ==> s[..|s|] == s;
    assert s == [] ==> at + s == at;
    ResolvePlain(t, at, s, links);
  }

  lemma LeadsNowhere(t: Tree, at: Path, s: Path, links: nat)
    requires WellFormed(t) && at != [] && at !in t && NormalPath(s) && s != []
    ensures var dir := Resolve(t, at, s[..|s| - 1], links); dir.Some? && dir.value + [s[|s| - 1]] !in t
  {
    BelowNothing(t, at, s[..|s| - 1], links);
    BelowNothing(t, at, s, links);
    assert (at + s[..|s| - 1]) + [s[|s| - 1]] == at + s;
  }

  /** A path down from a directory that leads to something existing, with directories on the way, is that very path. */
  lemma {:induction false} PlainDown(t: Tree, at: Path, s: Path, links: nat, dir: Path)
    requires WellFormed(t) && NormalPath(s) && s != [] && DirAt(t, at)
    requires Resolve(t, at, s[..|s| - 1], links) == Some(dir) && dir + [s[|s| - 1]] in t
    requires forall j :: 0 < j < |s| && at + s[..j] in t ==> t[at + s[..j]].Dir?
    ensures at + s in t
    decreases |s|
  {
    if |s| == 1 {
      assert s == [s[0]] && s[..0] == [];
    } else {
      var p := at + [s[0]];
      assert p == at + s[..1] && NormalName(s[0]);
      var rest := s[1..];
      assert s[..|s| - 1][1..] == rest[..|rest| - 1];
      assert NormalPath(rest) by {
        forall i | 0 <= i < |rest| ensures NormalName(rest[i]) { assert NormalName(s[i + 1]); }
      }
      assert p + rest == at + s;
      if p in t {
        forall j | 0 < j < |rest| && p + rest[..j] in t ensures t[p + rest[..j]].Dir? {
          assert p + rest[..j] == at + s[..j + 1];
        }
        PlainDown(t, p, rest, links, dir);
      } else {
        var up := rest[..|rest| - 1];
        BelowNothing(t, p, up, links);
        assert rest == up + [rest[|rest| - 1]];
        assert (p + up) + [s[|s| - 1]] == p + rest;
        BelowNothing(t, p, rest, links);
      }
    }
  }

  // -------------------------------------------------- operations

  function Without(t: Tree, gone: set<Path>): Tree {
    map q | q in t && !(exists r :: r in gone && r <= q) :: t[q]
  }

  /** `os.makedirs(d, exist_ok=True)`: a link to a directory will do. */
  function MakeDirsAt(t: Tree, d: Path): Result<Tree> {
    if d == [] || LeadsToDir(t, d) then Ok(t)
    else match MakeDirsAt(t, Parent(d))
      case Err => Err
      case Ok(u) =>
        match Locate(u, d)
        case None => Err
        case Some(place) => if place in u || !DirAt(u, Parent(place)) then Err else Ok(u[place := Dir(DEFAULT_MODE)])
  }

  /** More directories, and nothing else new or different. */
  ghost predicate OnlyMoreDirs(t: Tree, u: Tree) {
    (forall q :: q in t ==> q in u && u[q] == t[q]) && forall q :: q in u && q !in t ==> u[q] == Dir(DEFAULT_MODE)
  }

  lemma MoreDirsSameLinks(t: Tree, u: Tree)
    requires OnlyMoreDirs(t, u)
    ensures SameLinks(t, u)
  {
  }

  lemma PutWellFormed(t: Tree, e: Path, entry: Entry)
    requires WellFormed(t) && e != [] && e !in t && NormalPath(e) && ParentsAreDirs(t, e)
    ensures WellFormed(t[e := entry])
  {
    var after := t[e := entry];
    forall p | p in after ensures NormalPath(p) && ParentsAreDirs(after, p) {
      if p in t {
        assert ParentsAreDirs(t, p);
        forall k | 0 < k < |p| ensures p[..k] != e { assert p[..k] in t; }
      }
    }
  }

  lemma ReplaceWellFormed(t: Tree, e: Path, entry: Entry)
    requires WellFormed(t) && e in t && (t[e].Dir? ==> entry.Dir?)
    ensures WellFormed(t[e := entry])
  {
    forall p | p in t ensures ParentsAreDirs(t[e := entry], p) {
      assert ParentsAreDirs(t, p);
    }
  }

  lemma BelowDir(t: Tree, dir: Path, name: string)
    requires WellFormed(t) && DirAt(t, dir)
    ensures ParentsAreDirs(t, dir + [name])
  {
    var p := dir + [name];
    forall k | 0 < k < |p| ensures p[..k] in t && t[p[..k]].Dir? {
      assert p[..k] == dir[..k];
      if k == |dir| {
        assert dir[..k] == dir;
      } else {
        assert ParentsAreDirs(t, dir);
      }
    }
  }

  lemma NormalAppend(dir: Path, name: string)
    requires NormalPath(dir) && NormalName(name)
    ensures NormalPath(dir + [name])
  {
  }

  /** One directory made where a path leads. */
  lemma OneDirMade(u: Tree, d: Path, place: Path)
    requires WellFormed(u) && NormalPath(d) && d != [] && Locate(u, d) == Some(place) && place !in u && DirAt(u, Parent(place))
    ensures var after := u[place := Dir(DEFAULT_MODE)]; WellFormed(after) && OnlyMoreDirs(u, after) && LeadsToDir(after, d)
  {
    hide Resolve, WellFormed;
    var dir := Parent(place);
    var after := u[place := Dir(DEFAULT_MODE)];
    assert Resolve(u, [], Parent(d), MAX_LINKS) == Some(dir) && place == dir + [Last(d)] && NormalName(Last(d));
    DirIsNormal(u, dir);
    NormalAppend(dir, Last(d));
    BelowDir(u, dir, Last(d));
    PutWellFormed(u, place, Dir(DEFAULT_MODE));
    MoreDirsSameLinks(u, after);
    ResolveSameLinks(u, after, [], Parent(d), MAX_LINKS);
    ResolveStep(after, [], Parent(d), Last(d), MAX_LINKS, dir);
    assert Parent(d) + [Last(d)] == d;
  }

  lemma {:induction false} MakeDirsGrows(t: Tree, d: Path)
    requires WellFormed(t) && NormalPath(d) && MakeDirsAt(t, d).Ok?
    ensures var u := MakeDirsAt(t, d).value;
      WellFormed(u) && OnlyMoreDirs(t, u) && LeadsToDir(u, d)
    decreases |d|
  {
    hide Resolve, WellFormed, LeadsToDir, Locate;
    if d == [] {
      TopIsDir(t);
    } else if !LeadsToDir(t, d) {
      assert NormalPath(Parent(d));
      MakeDirsGrows(t, Parent(d));
      var u := MakeDirsAt(t, Parent(d)).value;
      OneDirMade(u, d, Locate(u, d).value);
    }
  }

  lemma TopIsDir(t: Tree)
    ensures LeadsToDir(t, [])
  {
  }

  lemma DirIsNormal(t: Tree, dir: Path)
    requires WellFormed(t) && DirAt(t, dir)
    ensures NormalPath(dir)
  {
  }

  /** Following one more name that is no link. */
  lemma {:induction false} ResolveStep(t: Tree, at: Path, rest: seq<string>, name: string, links: nat, dir: Path)
    requires Resolve(t, at, rest, links) == Some(dir) && NormalName(name)
    requires dir + [name] in t ==> !t[dir + [name]].Link?
    ensures Resolve(t, at, rest + [name], links) == Some(dir + [name])
    decreases links, |rest|
  {
    var more := rest + [name];
    if rest == [] {
      assert more[1..] == [];
    } else {
      assert more[1..] == rest[1..] + [name];
      if rest[0] == "" || rest[0] == "." {
        ResolveStep(t, at, rest[1..], name, links, dir);
      } else if rest[0] == ".." {
        ResolveStep(t, Parent(at), rest[1..], name, links, dir);
      } else {
        var p := at + [rest[0]];
        if p in t && t[p].Link? {
          assert t[p].target + more[1..] == (t[p].target + rest[1..]) + [name];
          ResolveStep(t, at, t[p].target + rest[1..], name, links - 1, dir);
        } else {
          ResolveStep(t, p, rest[1..], name, links, dir);
        }
      }
    }
  }

  function Prefixes(d: Path): set<Path> {
    set k | 0 < k <= |d| :: d[..k]
  }

  function PlainDirs(t: Tree, d: Path): Tree {
    t + map q | q in Prefixes(d) && q !in t :: Dir(DEFAULT_MODE)
  }

  lemma PrefixesUnfold(d: Path)
    requires d != []
    ensures Prefixes(d) == Prefixes(Parent(d)) + {d}
  {
    assert d[..|d|] == d;
    forall q | q in Prefixes(d) ensures q in Prefixes(Parent(d)) + {d} {
      var k :| 0 < k <= |d| && d[..k] == q;
      if k < |d| { assert Parent(d)[..k] == q; }
    }
    forall q | q in Prefixes(Parent(d)) ensures q in Prefixes(d) {
      var k :| 0 < k <= |d| - 1 && Parent(d)[..k] == q;
      assert d[..k] == q;
    }
  }

  /** Without a link on the way, directories are made exactly where the path says, unless something else is there. */
  lemma {:induction false} MakeDirsPlain(t: Tree, d: Path)
    requires WellFormed(t) && NormalPath(d) && forall q :: q in Prefixes(d) && q in t ==> t[q].Dir?
    ensures MakeDirsAt(t, d) == Ok(PlainDirs(t, d))
    decreases |d|
  {
    hide Resolve, WellFormed;
    if d == [] {
      assert PlainDirs(t, d) == t;
    } else {
      PrefixesUnfold(d);
      forall k | 0 < k < |d| ensures d[..k] in Prefixes(d) {
      }
      FollowPlain(t, d);
      if DirAt(t, d) {
        AllThere(t, d);
      } else {
        assert NormalPath(Parent(d));
        MakeDirsPlain(t, Parent(d));
        OneMoreDir(t, d);
        LocatePlain(PlainDirs(t, Parent(d)), d);
      }
    }
  }

  lemma AllThere(t: Tree, d: Path)
    requires WellFormed(t) && d in t
    ensures PlainDirs(t, d) == t
  {
    assert ParentsAreDirs(t, d);
    forall q | q in Prefixes(d) ensures q in t {
      var k :| 0 < k <= |d| && d[..k] == q;
      if k == |d| { assert q == d; }
    }
  }

  lemma OneMoreDir(t: Tree, d: Path)
    requires d != [] && d !in t && forall q :: q in Prefixes(d) && q in t ==> t[q].Dir?
    ensures var u := PlainDirs(t, Parent(d));
      && d !in u && DirAt(u, Parent(d)) && NoLinkOver(u, d) && u[d := Dir(DEFAULT_MODE)] == PlainDirs(t, d)
  {
    var parent := Parent(d);
    PrefixesUnfold(d);
    forall q | q in Prefixes(parent) ensures q != d {
      var k :| 0 < k <= |parent| && parent[..k] == q;
    }
    var u := PlainDirs(t, parent);
    forall k | 0 < k < |d| ensures d[..k] in u && u[d[..k]].Dir? {
      assert d[..k] == parent[..k];
      assert d[..k] in Prefixes(parent);
    }
    assert parent == [] || parent == d[..|d| - 1];
  }

  /** Without a link on the way, success means that everything on the way is a directory. */
  lemma MadeDirsWerePlain(t: Tree, d: Path)
    requires WellFormed(t) && NormalPath(d) && MakeDirsAt(t, d).Ok?
    requires forall q :: q in Prefixes(d) && q in t ==> !t[q].Link?
    ensures forall q :: q in Prefixes(d) && q in t ==> t[q].Dir?
    ensures MakeDirsAt(t, d) == Ok(PlainDirs(t, d))
  {
    MakeDirsGrows(t, d);
    var u := MakeDirsAt(t, d).value;
    if d != [] {
      assert d[..|d|] == d && d in Prefixes(d);
      forall k | 0 < k < |d| ensures d[..k] in Prefixes(d) {
      }
      FollowPlain(u, d);
      assert ParentsAreDirs(u, d);
      forall q | q in Prefixes(d) && q in t ensures t[q].Dir? {
        var k :| 0 < k <= |d| && d[..k] == q;
        if k == |d| { assert q == d; }
      }
    }
    MakeDirsPlain(t, d);
  }

  // -------------------------------------------------- removing

  lemma RemoveNone(t: Tree)
    ensures Without(t, {}) == t
  {
  }

  lemma RemoveOneMore(t: Tree, gone: set<Path>, rel: Path)
    ensures Without(Without(t, gone), {rel}) == Without(t, gone + {rel})
  {
    forall q | q in t ensures q in Without(Without(t, gone), {rel}) <==> q in Without(t, gone + {rel}) {
      if r :| r in gone && r <= q { assert r in gone + {rel}; }
      if rel <= q { assert rel in gone + {rel}; }
    }
  }

  lemma WithoutWellFormed(t: Tree, gone: set<Path>)
    requires WellFormed(t)
    ensures WellFormed(Without(t, gone))
  {
    var after := Without(t, gone);
    forall p | p in after ensures ParentsAreDirs(after, p) {
      assert ParentsAreDirs(t, p);
      forall k | 0 < k < |p| ensures p[..k] in after {
        assert forall r :: r in gone && r <= p[..k] ==> r <= p;
      }
    }
  }

  lemma PrefixFacts(p: Path, q: Path)
    ensures p <= q && p != q ==> |p| < |q| && q[..|p|] == p
  {
  }

  lemma WithoutAbsent(t: Tree, rel: Path)
    requires WellFormed(t) && rel !in t && rel != []
    ensures Without(t, {rel}) == t
  {
    NothingUnder(t, rel);
  }

  /** Nothing lies below a file or a link. */
  lemma NothingBelow(t: Tree, p: Path, q: Path)
    requires WellFormed(t) && p in t && !t[p].Dir? && q in t && p <= q && p != []
    ensures q == p
  {
    assert ParentsAreDirs(t, q);
    PrefixFacts(p, q);
  }
}
