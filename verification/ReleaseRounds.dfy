/**
 One round of the loop that links the shared paths, step by step: the shared directory or
 file, the clean-up in the release, the link.
 */
module ReleaseRounds {
  import opened Wrappers
  import opened FileSystem
  import opened PathTracks
  import opened TreeOps
  import opened ReleaseTrees
  import opened ReleaseLinks

  // ---------------------------------------------------------------- trees on the way of a round

  /** What the path of the entry in the release names: a place there, or, through a link, one under shared/. */
  function Root(site: Path, id: string, entry: string, reached: bool): Path {
    if reached then InShared(site, EntryPath(entry)) else InRelease(site, id, EntryPath(entry))
  }

  /** Above the shared path directories are made; it becomes one itself only if its entry counts as one. */
  predicate OnDirWay(site: Path, entry: string, p: Path) {
    var sh := InShared(site, EntryPath(entry));
    p < sh || (p == sh && DirKind(entry))
  }

  /** A node that a round may bring about. */
  ghost predicate MadeByLinking(site: Path, id: string, entry: string, reached: bool, p: Path, node: Node) {
    var e := EntryPath(entry);
    || (node == Dir && (OnDirWay(site, entry, p) || p < InRelease(site, id, e)))
    || (node == File("") && p == InShared(site, e) && e != [] && !DirKind(entry))
    || (!Slashed(entry) && p == Root(site, id, entry, reached) && LeadsTo(node, InShared(site, e)))
  }

  /** What a round may remove. Only the empty entry takes the release itself away. */
  predicate Cleared(site: Path, id: string, entry: string, reached: bool, p: Path) {
    var root := Root(site, id, entry, reached);
    root <= p && (p == root ==> EntryPath(entry) != [] || entry == "")
  }

  /** Any tree on the way of a round, seen from the tree before. */
  ghost predicate LinkStage(site: Path, id: string, entry: string, reached: bool, t: Tree, u: Tree) {
    && (forall p | p in t && !Cleared(site, id, entry, reached, p) :: p in u && u[p] == t[p])
    && (forall p | p in u :: (p in t && u[p] == t[p]) || MadeByLinking(site, id, entry, reached, p, u[p]))
  }

  /** What the code silently relies on for one entry. */
  ghost predicate Startable(site: Path, id: string, t: Tree, entry: string) {
    Accepted(entry) && Base(site, id, t) && WayTame(site, id, t, entry)
  }

  lemma AreasApart(site: Path, id: string, a: Path, b: Path)
    ensures !(InRelease(site, id, a) <= InShared(site, b)) && !(InShared(site, b) <= InRelease(site, id, a))
    ensures !(InRelease(site, id, a) <= Releases(site)) && !(InRelease(site, id, a) <= site)
    ensures !(InShared(site, b) <= Releases(site)) && !(InShared(site, b) <= Release(site, id))
              && !(InShared(site, b) <= site)
    ensures !(InRelease(site, id, a) <= Shared(site)) && (InShared(site, b) <= Shared(site) ==> b == [])
    ensures InRelease(site, id, a) <= Release(site, id) ==> a == []
  {
    assert InRelease(site, id, a)[|site|] == "releases" && InShared(site, b)[|site|] == "shared";
    assert Releases(site)[|site|] == "releases" && Shared(site)[|site|] == "shared"
           && Release(site, id)[|site|] == "releases";
  }

  lemma NestingInRelease(site: Path, id: string, a: Path, b: Path)
    ensures InRelease(site, id, a) < InRelease(site, id, b) <==> a < b
    ensures InRelease(site, id, a) <= InRelease(site, id, b) <==> a <= b
    ensures InRelease(site, id, a) == InRelease(site, id, b) <==> a == b
  {
    var x, y, k := InRelease(site, id, a), InRelease(site, id, b), |Release(site, id)|;
    assert x[k..] == a && y[k..] == b;
    if x <= y {
      assert a == y[k..|x|];
    }
    if a <= b {
      assert x == y[..|x|];
    }
  }

  lemma NestingInShared(site: Path, a: Path, b: Path)
    ensures InShared(site, a) < InShared(site, b) <==> a < b
    ensures InShared(site, a) <= InShared(site, b) <==> a <= b
    ensures InShared(site, a) == InShared(site, b) <==> a == b
  {
    var x, y, k := InShared(site, a), InShared(site, b), |Shared(site)|;
    assert x[k..] == a && y[k..] == b;
    if x <= y {
      assert a == y[k..|x|];
    }
    if a <= b {
      assert x == y[..|x|];
    }
  }

  lemma StageKeepsBase(site: Path, id: string, entry: string, reached: bool, t: Tree, u: Tree)
    requires Accepted(entry) && Base(site, id, t) && WellFormed(u) && LinkStage(site, id, entry, reached, t, u)
    requires reached ==> EntryPath(entry) != []
    ensures Base(site, id, u)
  {
    EntrySpells(site, id, entry);
    AreasApart(site, id, EntryPath(entry), EntryPath(entry));
    assert !Cleared(site, id, entry, reached, site);
  }

  lemma StageKeepsSharedTame(site: Path, id: string, entry: string, reached: bool, t: Tree, u: Tree, e: Path)
    requires LinkStage(site, id, entry, reached, t, u) && SharedTame(site, t, e)
    ensures SharedTame(site, u, e)
  {
    forall i | 0 < i <= |e| && IsLink(u, InShared(site, e[..i]))
      ensures LeadsTo(u[InShared(site, e[..i])], InShared(site, e[..i]))
    {
      AreasApart(site, id, EntryPath(entry), e[..i]);
    }
  }

  lemma StageKeepsReleaseTame(site: Path, id: string, entry: string, reached: bool, t: Tree, u: Tree, e: Path)
    requires LinkStage(site, id, entry, reached, t, u) && ReleaseTame(site, id, t, e)
    ensures ReleaseTame(site, id, u, e)
  {
    forall i | 0 < i <= |e| && IsLink(u, InRelease(site, id, e[..i]))
      ensures LeadsTo(u[InRelease(site, id, e[..i])], InShared(site, e[..i]))
    {
      AreasApart(site, id, e[..i], EntryPath(entry));
      NestingInRelease(site, id, EntryPath(entry), e[..i]);
    }
  }

  /** A round leaves the way to any entry passable, to its own and to those nested in it too. */
  lemma StageKeepsTame(site: Path, id: string, entry: string, reached: bool, t: Tree, u: Tree, other: string)
    requires LinkStage(site, id, entry, reached, t, u) && WayTame(site, id, t, other)
    ensures WayTame(site, id, u, other)
  {
    StageKeepsSharedTame(site, id, entry, reached, t, u, EntryPath(other));
    StageKeepsReleaseTame(site, id, entry, reached, t, u, EntryPath(other)[..Walked(other)]);
  }

  /** The link the way of an entry leads through sits at one of its names. */
  lemma ReachedAt(site: Path, id: string, t: Tree, entry: string) returns (i: nat)
    requires Base(site, id, t) && Reached(site, id, t, entry)
    ensures 0 < i <= Walked(entry) && IsLink(t, InRelease(site, id, EntryPath(entry)[..i]))
  {
    var e := EntryPath(entry)[..Walked(entry)];
    var q := InRelease(site, id, e);
    var j :| 0 <= j <= |q| && IsLink(t, q[..j]);
    ReleasePrefix(site, id, e, j);
    if j <= |site| {
      SiteHasNoLinks(site, t, q[..j]);
    }
    i := j - |site| - 2;
    assert InRelease(site, id, []) == Release(site, id);
    assert e[..i] == EntryPath(entry)[..i];
  }

  lemma ReachedIf(site: Path, id: string, t: Tree, entry: string, i: nat)
    requires i <= Walked(entry) && IsLink(t, InRelease(site, id, EntryPath(entry)[..i]))
    ensures Reached(site, id, t, entry)
  {
    var e := EntryPath(entry)[..Walked(entry)];
    var k := |site| + 2 + i;
    ReleasePrefix(site, id, e, k);
    assert e[..i] == EntryPath(entry)[..i];
    assert IsLink(t, InRelease(site, id, e)[..k]);
  }

  lemma StageKeepsReached(site: Path, id: string, entry: string, t: Tree, u: Tree)
    requires Accepted(entry) && Base(site, id, t) && Base(site, id, u)
    requires LinkStage(site, id, entry, Reached(site, id, t, entry), t, u)
    ensures Reached(site, id, u, entry) <==> Reached(site, id, t, entry)
  {
    hide Reached, Base, Accepted, LinkStage, Walked;
    if Reached(site, id, t, entry) {
      var i := ReachedAt(site, id, t, entry);
      ReachedLinkStays(site, id, entry, t, u, i);
      ReachedIf(site, id, u, entry, i);
    } else if Reached(site, id, u, entry) {
      var i := ReachedAt(site, id, u, entry);
      NoLinkOnOwnWay(site, id, entry, t, u, i);
      ReachedIf(site, id, t, entry, i);
    }
  }

  lemma ReachedLinkStays(site: Path, id: string, entry: string, t: Tree, u: Tree, i: nat)
    requires LinkStage(site, id, entry, true, t, u) && i <= |EntryPath(entry)|
    requires IsLink(t, InRelease(site, id, EntryPath(entry)[..i]))
    ensures IsLink(u, InRelease(site, id, EntryPath(entry)[..i]))
  {
    AreasApart(site, id, EntryPath(entry)[..i], EntryPath(entry));
  }

  lemma NoLinkOnOwnWay(site: Path, id: string, entry: string, t: Tree, u: Tree, i: nat)
    requires LinkStage(site, id, entry, false, t, u) && 0 < i <= Walked(entry)
    requires IsLink(u, InRelease(site, id, EntryPath(entry)[..i]))
    ensures IsLink(t, InRelease(site, id, EntryPath(entry)[..i]))
  {
    NestingInRelease(site, id, EntryPath(entry)[..i], EntryPath(entry));
  }

  /** The run since step `n` is a round for `entry` that began at `start`. */
  ghost predicate LinkRun(site: Path, id: string, entry: string, start: Tree, n: nat, t: Tree, trace: seq<Tree>) {
    var reached := Reached(site, id, start, entry);
    && Startable(site, id, start, entry)
    && LinkStage(site, id, entry, reached, start, t)
    && forall i | n <= i < |trace| :: LinkStage(site, id, entry, reached, start, trace[i])
  }

  lemma ReachedHasName(site: Path, id: string, t: Tree, entry: string)
    requires Base(site, id, t) && Reached(site, id, t, entry)
    ensures EntryPath(entry) != []
  {
    var _ := ReachedAt(site, id, t, entry);
  }

  /** In the middle of a round the entry can still be worked on, and its way is what it was. */
  lemma RunState(site: Path, id: string, entry: string, start: Tree, n: nat, u: Tree, trace: seq<Tree>)
    requires LinkRun(site, id, entry, start, n, u, trace) && WellFormed(u)
    ensures Startable(site, id, u, entry)
    ensures Reached(site, id, u, entry) <==> Reached(site, id, start, entry)
  {
    var reached := Reached(site, id, start, entry);
    if reached {
      ReachedHasName(site, id, start, entry);
    }
    StageKeepsBase(site, id, entry, reached, start, u);
    StageKeepsTame(site, id, entry, reached, start, u, entry);
    StageKeepsReached(site, id, entry, start, u);
  }

  // ---------------------------------------------------------------- the steps of a round

  lemma StageThenDirs(site: Path, id: string, entry: string, reached: bool, t: Tree, u: Tree, v: Tree, q: Path,
      alt: Path)
    requires LinkStage(site, id, entry, reached, t, u) && MadeDirs(u, v, q, alt)
    requires OnDirWay(site, entry, q) || q < InRelease(site, id, EntryPath(entry))
    requires OnDirWay(site, entry, alt)
    ensures LinkStage(site, id, entry, reached, t, v)
  {
    forall p | p in v ensures (p in t && v[p] == t[p]) || MadeByLinking(site, id, entry, reached, p, v[p]) {
      if p in u {
        assert v[p] == u[p];
      }
    }
  }

  lemma RunDirs(site: Path, id: string, entry: string, start: Tree, n: nat,
      u: Tree, before: seq<Tree>, t: Tree, trace: seq<Tree>, p: seq<Comp>, q: Path, alt: Path, faulty: bool)
    requires LinkRun(site, id, entry, start, n, u, before)
    requires before <= trace && MkdirAllDid(u, |before|, t, trace, p, q, alt, faulty) && Track(u, q, alt)
    requires OnDirWay(site, entry, q) || q < InRelease(site, id, EntryPath(entry))
    requires OnDirWay(site, entry, alt)
    ensures LinkRun(site, id, entry, start, n, t, trace)
  {
    var reached := Reached(site, id, start, entry);
    StageThenDirs(site, id, entry, reached, start, u, t, q, alt);
    forall i | n <= i < |trace| ensures LinkStage(site, id, entry, reached, start, trace[i]) {
      if i < |before| {
        assert trace[i] == before[i];
      } else {
        StageThenDirs(site, id, entry, reached, start, u, trace[i], q, alt);
      }
    }
  }

  /** Nodes at or below `root` were removed, nothing else; the root is spared if it has to be. */
  ghost predicate PrunedBut(t: Tree, u: Tree, root: Path, rootStays: bool) {
    Pruned(t, u, root) && (rootStays && root in t ==> root in u)
  }

  lemma StageThenPruned(site: Path, id: string, entry: string, reached: bool, t: Tree, u: Tree, v: Tree,
      rootStays: bool)
    requires LinkStage(site, id, entry, reached, t, u) && PrunedBut(u, v, Root(site, id, entry, reached), rootStays)
    requires EntryPath(entry) == [] && entry != "" ==> rootStays
    ensures LinkStage(site, id, entry, reached, t, v)
  {
  }

  lemma RunPruned(site: Path, id: string, entry: string, start: Tree, n: nat,
      u: Tree, before: seq<Tree>, t: Tree, trace: seq<Tree>, rootStays: bool)
    requires LinkRun(site, id, entry, start, n, u, before) && before <= trace
    requires var root := Root(site, id, entry, Reached(site, id, start, entry));
             && PrunedBut(u, t, root, rootStays)
             && forall i | |before| <= i < |trace| :: PrunedBut(u, trace[i], root, rootStays)
    requires EntryPath(entry) == [] && entry != "" ==> rootStays
    ensures LinkRun(site, id, entry, start, n, t, trace)
  {
    var reached := Reached(site, id, start, entry);
    StageThenPruned(site, id, entry, reached, start, u, t, rootStays);
    forall i | n <= i < |trace| ensures LinkStage(site, id, entry, reached, start, trace[i]) {
      if i < |before| {
        assert trace[i] == before[i];
      } else {
        StageThenPruned(site, id, entry, reached, start, u, trace[i], rootStays);
      }
    }
  }

  /** The step that creates a missing shared file. */
  lemma TouchStage(site: Path, id: string, entry: string, start: Tree, n: nat, u: Tree, before: seq<Tree>)
    requires LinkRun(site, id, entry, start, n, u, before) && WellFormed(u) && !DirKind(entry)
    ensures LinkStage(site, id, entry, Reached(site, id, start, entry), start, Touch(u, SharedPath(site, entry)))
  {
    hide Startable, Touch, Spells, Track, Base, WellFormed, SharedPath;
    var sh := InShared(site, EntryPath(entry));
    RunState(site, id, entry, start, n, u, before);
    StartableAccepted(site, id, u, entry);
    StartableBase(site, id, u, entry);
    EntrySpells(site, id, entry);
    StartableTame(site, id, u, entry);
    EntryTracks(site, id, u, entry);
    TouchOnTrack(u, sh, SharedPath(site, entry));
    if EntryPath(entry) == [] {
      NamelessTouch(site, id, entry, u);
    }
  }

  lemma StartableTame(site: Path, id: string, t: Tree, entry: string)
    requires Startable(site, id, t, entry)
    ensures Base(site, id, t) && WayTame(site, id, t, entry)
  {
  }

  lemma NamelessTouch(site: Path, id: string, entry: string, u: Tree)
    requires Accepted(entry) && EntryPath(entry) == [] && Base(site, id, u) && SharedTame(site, u, [])
    ensures Touch(u, SharedPath(site, entry)) == u
  {
    EntrySpells(site, id, entry);
    NamelessEntry(site, id, entry);
    var p := SharedPath(site, entry);
    NotCreatedBehindSlash(u, [], p, LINK_BUDGET);
  }

  /** Nothing is created behind a slash. */
  lemma {:induction false} NotCreatedBehindSlash(t: Tree, cur: Path, p: seq<Comp>, links: nat)
    requires EndsHere(p)
    ensures CreateSpot(t, cur, p, links).None?
    decreases links, |p|
  {
    if IsDir(t, cur) {
      if |p| == 1 {
        assert p[1..] == [];
      } else {
        assert EndsHere(p[1..]);
        match p[0] {
          case Here(_) => NotCreatedBehindSlash(t, cur, p[1..], links);
          case Up => NotCreatedBehindSlash(t, ParentOf(cur), p[1..], links);
          case Name(n) =>
            var next := cur + [n];
            if next in t {
              if !t[next].Link? {
                NotCreatedBehindSlash(t, next, p[1..], links);
              } else if links > 0 {
                var again := t[next].target + p[1..];
                assert EndsHere(again);
                NotCreatedBehindSlash(t, if t[next].absolute then [] else cur, again, links - 1);
              }
            }
        }
      }
    }
  }

  /** Where the entry lives in the release, seen by the calls that do not follow its last name. */
  lemma EntrySpot(site: Path, id: string, entry: string, t: Tree)
    requires Startable(site, id, t, entry)
    ensures Spot(t, ReleasePath(site, id, entry)) in {None, Some(Root(site, id, entry, Reached(site, id, t, entry)))}
  {
    if !Slashed(entry) {
      var e, p := EntryPath(entry), ReleasePath(site, id, entry);
      EntrySpells(site, id, entry);
      EntryTracks(site, id, t, entry);
      ParentOfIn(site, id, e);
      assert e[..Walked(entry)] == ParentOf(e);
      TrackSpot(t, InRelease(site, id, e), InShared(site, e), p);
    }
  }

  /** What `remove_dir_all` works on. */
  lemma EntryRoot(site: Path, id: string, entry: string, t: Tree)
    requires Startable(site, id, t, entry)
    ensures RemovalRoot(t, ReleasePath(site, id, entry)) in {None,
              Some(Root(site, id, entry, Reached(site, id, t, entry)))}
  {
    EntrySpells(site, id, entry);
    if Slashed(entry) {
      EntryResolves(site, id, entry, t);
    } else {
      EntrySpot(site, id, entry, t);
    }
  }

  lemma EntryResolves(site: Path, id: string, entry: string, t: Tree)
    requires Startable(site, id, t, entry) && Slashed(entry)
    ensures Resolve(t, ReleasePath(site, id, entry)) in {None, Some(Root(site, id, entry, Reached(site, id, t, entry)))}
  {
    hide Track, Spells, ReleasePath;
    var e := EntryPath(entry);
    EntrySpells(site, id, entry);
    EntryTracks(site, id, t, entry);
    assert e[..Walked(entry)] == e;
    TrackResolve(t, InRelease(site, id, e), InShared(site, e), ReleasePath(site, id, entry));
    assert Reached(site, id, t, entry) == Crossed(t, InRelease(site, id, e));
    assert Root(site, id, entry, Reached(site, id, t, entry)) ==
      if Crossed(t, InRelease(site, id, e)) then InShared(site, e) else InRelease(site, id, e);
    var r := Resolve(t, ReleasePath(site, id, entry));
    assert r.Some? ==> r.value == Root(site, id, entry, Reached(site, id, t, entry));
  }

  lemma NamelessRootStays(site: Path, id: string, entry: string, t: Tree)
    requires Accepted(entry) && EntryPath(entry) == [] && entry != ""
    ensures RootStays(t, ReleasePath(site, id, entry))
  {
    EntrySpells(site, id, entry);
    NamelessEntry(site, id, entry);
  }

  lemma RemovedFile(u: Tree, p: seq<Comp>, root: Path)
    requires WellFormed(u) && Spot(u, p) in {None, Some(root)}
    ensures RemoveFile(u, p) == u || (Spot(u, p) == Some(root) && PrunedBut(u, RemoveFile(u, p), root, false))
  {
    if root in u && !u[root].Dir? {
      NothingBelowNonDir(u, root);
    }
  }

  /** The step that removes a file or link at the entry. */
  lemma RemoveFileStage(site: Path, id: string, entry: string, start: Tree, n: nat, u: Tree, before: seq<Tree>)
    requires LinkRun(site, id, entry, start, n, u, before) && WellFormed(u)
    ensures LinkStage(site, id, entry, Reached(site, id, start, entry), start,
              RemoveFile(u, ReleasePath(site, id, entry)))
  {
    hide Startable, LinkStage, RemoveFile, PrunedBut, Spot;
    var p, reached := ReleasePath(site, id, entry), Reached(site, id, start, entry);
    RunState(site, id, entry, start, n, u, before);
    EntrySpot(site, id, entry, u);
    RemovedFile(u, p, Root(site, id, entry, reached));
    if RemoveFile(u, p) != u {
      SpottedHasName(site, id, entry, u);
      StageThenPruned(site, id, entry, reached, start, u, RemoveFile(u, p), false);
    }
  }

  lemma SpottedHasName(site: Path, id: string, entry: string, u: Tree)
    requires Startable(site, id, u, entry) && Spot(u, ReleasePath(site, id, entry)).Some?
    ensures EntryPath(entry) != []
  {
    EntrySpells(site, id, entry);
  }

  /** The step that makes the link. */
  lemma SymlinkStage(site: Path, id: string, entry: string, start: Tree, n: nat, u: Tree, before: seq<Tree>)
    requires LinkRun(site, id, entry, start, n, u, before) && WellFormed(u)
    ensures LinkStage(site, id, entry, Reached(site, id, start, entry), start,
                      Symlink(u, Link(true, SharedPath(site, entry)), ReleasePath(site, id, entry)))
  {
    RunState(site, id, entry, start, n, u, before);
    EntrySpells(site, id, entry);
    EntrySpot(site, id, entry, u);
  }

  // ---------------------------------------------------------------- what a round achieves when nothing fails

  /** Under shared/ no file lies where the entry needs a directory, and no link at its end. */
  ghost predicate SharedWay(site: Path, t: Tree, entry: string) {
    var sh := InShared(site, EntryPath(entry));
    NothingInTheWay(t, if DirKind(entry) then sh else ParentOf(sh)) && !IsLink(t, sh)
  }

  /** The shared path is there, as a directory if the entry counts as one. */
  ghost predicate HasTarget(site: Path, t: Tree, entry: string) {
    var sh := InShared(site, EntryPath(entry));
    sh in t && !t[sh].Link? && (DirKind(entry) ==> t[sh].Dir?)
  }

  /** The entry of the release is a link to the same path under shared/. */
  ghost predicate HasLink(site: Path, id: string, t: Tree, e: Path) {
    IsLink(t, InRelease(site, id, e)) && LeadsTo(t[InRelease(site, id, e)], InShared(site, e))
  }

  ghost predicate NothingBelow(t: Tree, q: Path) {
    forall p | p in t :: !(q < p)
  }

  /** A way stays clear unless the entry or its shared path lies on it. */
  lemma StageKeepsWay(site: Path, id: string, entry: string, reached: bool, t: Tree, u: Tree, q: Path)
    requires LinkStage(site, id, entry, reached, t, u) && NothingInTheWay(t, q)
    requires DirKind(entry) || !(InShared(site, EntryPath(entry)) <= q)
    requires !(Root(site, id, entry, reached) <= q)
    ensures NothingInTheWay(u, q)
  {
    forall i | 0 <= i <= |q| && q[..i] in u ensures IsDir(u, q[..i]) {
      assert q[..i] <= q;
    }
  }

  /** An unreached round leaves what is under shared/ in place. */
  lemma StageKeepsShared(site: Path, id: string, entry: string, t: Tree, u: Tree, p: Path)
    requires LinkStage(site, id, entry, false, t, u) && p in t && Shared(site) <= p
    ensures p in u && u[p] == t[p]
  {
    assert p[|site|] == "shared" && InRelease(site, id, EntryPath(entry))[|site|] == "releases";
  }

  /** Preparing the shared directory. */
  lemma DirPrepared(site: Path, id: string, entry: string, u: Tree, n: nat, t: Tree, trace: seq<Tree>, faulty: bool)
    requires Startable(site, id, u, entry) && DirKind(entry) && WellFormed(t)
    requires var sh := InShared(site, EntryPath(entry));
               MkdirAllDid(u, n, t, trace, SharedPath(site, entry), sh, sh, faulty)
    ensures !faulty && !Dotted(SharedPath(site, entry)) && SharedWay(site, u, entry) ==> HasTarget(site, t, entry)
  {
    EntryTracks(site, id, u, entry);
  }

  lemma NoLinksTo(t: Tree, q: Path)
    requires q != [] && NoLinks(t, ParentOf(q)) && !IsLink(t, q)
    ensures NoLinks(t, q)
  {
    forall i | 0 <= i <= |q| ensures !IsLink(t, q[..i]) {
      assert i < |q| ==> q[..i] == ParentOf(q)[..i];
      assert q[..|q|] == q;
    }
  }

  lemma FileThere(v: Tree, sh: Path, p: seq<Comp>)
    requires WellFormed(v) && sh != [] && IsDir(v, ParentOf(sh)) && !IsLink(v, sh) && Spells(p, sh) && !EndsHere(p)
    ensures var t := if Exists(v, p) then v else Touch(v, p); sh in t && !t[sh].Link?
  {
    hide Touch, Spells, WellFormed;
    DirsHaveNoLinks(v, ParentOf(sh));
    NoLinksTo(v, sh);
    StraightResolve(v, sh, p);
    if !Exists(v, p) {
      TouchCreates(v, sh, p);
    }
  }

  /** Preparing the shared file, after its parent. */
  lemma FilePrepared(site: Path, id: string, entry: string, u: Tree, v: Tree, t: Tree)
    requires Startable(site, id, u, entry) && !DirKind(entry) && !Slashed(entry) && WellFormed(v)
    requires var sh := InShared(site, EntryPath(entry));
               MadeDirs(u, v, ParentOf(sh), ParentOf(sh)) && IsDir(v, ParentOf(sh))
    requires t == if Exists(v, SharedPath(site, entry)) then v else Touch(v, SharedPath(site, entry))
    requires SharedWay(site, u, entry)
    ensures HasTarget(site, t, entry)
  {
    hide Startable, WellFormed, Spells;
    var sh := InShared(site, EntryPath(entry));
    EntrySpells(site, id, entry) by { StartableAccepted(site, id, u, entry); }
    assert ParentOf(sh) < sh;
    FileThere(v, sh, SharedPath(site, entry));
  }

  lemma StartableAccepted(site: Path, id: string, t: Tree, entry: string)
    requires Startable(site, id, t, entry)
    ensures Accepted(entry)
  {
  }

  /** Where nothing was, the entry's spelling alone says what is made. */
  lemma KindPrepared(site: Path, id: string, entry: string, u: Tree, t: Tree)
    requires LinkStage(site, id, entry, Reached(site, id, u, entry), u, t)
    requires SharedWay(site, u, entry) ==> HasTarget(site, t, entry)
    ensures var sh := InShared(site, EntryPath(entry));
            NothingInTheWay(u, ParentOf(sh)) && sh !in u ==>
              sh in t && t[sh] == if '.' in entry && entry[|entry| - 1] != '/' then File("") else Dir
  {
    var sh := InShared(site, EntryPath(entry));
    if NothingInTheWay(u, ParentOf(sh)) && sh !in u {
      assert sh[..|sh|] == sh;
      forall i | 0 <= i <= |sh| && sh[..i] in u ensures IsDir(u, sh[..i]) {
        assert i < |sh| ==> ParentOf(sh)[..i] == sh[..i];
      }
      AreasApart(site, id, EntryPath(entry), EntryPath(entry));
    }
  }

  /** The clean-up has done its work. */
  ghost predicate ClearedWell(site: Path, id: string, entry: string, u: Tree, t: Tree) {
    var sh, reached := InShared(site, EntryPath(entry)), Reached(site, id, u, entry);
    && (!Slashed(entry) && !reached ==> InRelease(site, id, EntryPath(entry)) !in t)
    && (!Slashed(entry) && reached && IsDir(u, ParentOf(sh)) ==> sh !in t)
    && (Slashed(entry) && reached && IsDir(u, sh) ==> NothingBelow(t, sh))
    && (Slashed(entry) && reached && !IsDir(u, sh) ==> t == u)
    && (Slashed(entry) && !reached ==> NothingBelow(t, InRelease(site, id, EntryPath(entry))))
    && (entry == "" && IsDir(u, Release(site, id)) ==> Release(site, id) !in t)
  }

  /** What the clean-up does to the tree when nothing fails. */
  ghost predicate Clears(p: seq<Comp>, u: Tree, t: Tree) {
    if IsDirAt(u, p) then
      var root := RemovalRoot(u, p);
      if root.None? || root.value == [] then t == u
      else Pruned(u, t, root.value) && Goner(t, root.value, RootStays(u, p)) == {}
    else if Exists(u, p) || IsSymlink(u, p) then t == RemoveFile(u, p)
    else t == u
  }

  lemma ClearedAt(p: seq<Comp>, u: Tree, t: Tree, root: Path)
    requires WellFormed(u) && Clears(p, u, t) && !EndsHere(p) && Spot(u, p) == Some(root) && root in u
    ensures root !in t
  {
    if !u[root].Link? {
      SpotFound(u, p);
    }
    assert root in t ==> root in Subtree(t, root);
  }

  lemma ClearedBelow(p: seq<Comp>, u: Tree, t: Tree, root: Path)
    requires Clears(p, u, t) && IsDirAt(u, p) && RemovalRoot(u, p) == Some(root) && root != []
    ensures NothingBelow(t, root) && (!RootStays(u, p) ==> root !in t)
  {
    forall q | q in t ensures !(root < q) {
      assert root < q ==> q in Goner(t, root, RootStays(u, p));
    }
    assert root in t ==> root in Subtree(t, root);
  }

  /** Unreached, what is at the entry lives in the release itself. */
  lemma UnreachedSpot(site: Path, id: string, entry: string, t: Tree)
    requires Startable(site, id, t, entry) && !Slashed(entry) && !Reached(site, id, t, entry)
    ensures var rel := InRelease(site, id, EntryPath(entry));
            Spot(t, ReleasePath(site, id, entry)) == if IsDir(t, ParentOf(rel)) then Some(rel) else None
  {
    var e := EntryPath(entry);
    EntrySpells(site, id, entry);
    ParentOfIn(site, id, e);
    assert e[..Walked(entry)] == ParentOf(e);
    StraightSpot(t, InRelease(site, id, e), ReleasePath(site, id, entry));
  }

  /** Reached, a directory under shared/ is what the path of the entry in the release leads to. */
  lemma ReachedDir(site: Path, id: string, entry: string, t: Tree)
    requires Startable(site, id, t, entry) && Reached(site, id, t, entry) && Slashed(entry)
    requires IsDir(t, InShared(site, EntryPath(entry)))
    ensures Resolve(t, ReleasePath(site, id, entry)) == Some(InShared(site, EntryPath(entry)))
  {
    var e, q := EntryPath(entry), InRelease(site, id, EntryPath(entry));
    EntrySpells(site, id, entry);
    EntryTracks(site, id, t, entry);
    assert e[..Walked(entry)] == e && q[..0] == [] && q[0..] == q;
    TrackArrives(t, q, InShared(site, e), 0, ReleasePath(site, id, entry), LINK_BUDGET);
  }

  /** The last piece of the path of an entry in the release, and what is before it. */
  lemma ReleaseLast(site: Path, id: string, entry: string)
    requires Accepted(entry) && !Slashed(entry)
    ensures var e, p := EntryPath(entry), ReleasePath(site, id, entry);
            && e != [] && p != [] && p[|p| - 1] == Name(e[|e| - 1])
            && Spells(p[..|p| - 1], InRelease(site, id, ParentOf(e)))
  {
    hide ReleasePath, Spells;
    var e, p := EntryPath(entry), ReleasePath(site, id, entry);
    EntrySpells(site, id, entry);
    SpellsTrimmed(p, InRelease(site, id, e));
    assert TrimHere(p) == p;
    SpellsLast(p, InRelease(site, id, e));
    ParentOfIn(site, id, e);
  }

  lemma AboveResolves(site: Path, id: string, entry: string, t: Tree, above: seq<Comp>)
    requires Startable(site, id, t, entry) && Reached(site, id, t, entry) && !Slashed(entry) && EntryPath(entry) != []
    requires IsDir(t, InShared(site, ParentOf(EntryPath(entry))))
    requires Spells(above, InRelease(site, id, ParentOf(EntryPath(entry))))
    ensures Resolve(t, above) == Some(InShared(site, ParentOf(EntryPath(entry))))
  {
    hide Spells, Track;
    var e := EntryPath(entry);
    var q := InRelease(site, id, ParentOf(e));
    EntryTracks(site, id, t, entry);
    assert e[..Walked(entry)] == ParentOf(e) && q[..0] == [] && q[0..] == q;
    TrackArrives(t, q, InShared(site, ParentOf(e)), 0, above, LINK_BUDGET);
  }

  lemma LastSpot(t: Tree, p: seq<Comp>, up: Path, n: string)
    requires p != [] && p[|p| - 1] == Name(n) && Resolve(t, p[..|p| - 1]) == Some(up) && IsDir(t, up)
    ensures Spot(t, p) == Some(up + [n])
  {
  }

  /** Reached, the entry lives under shared/ if the directory it lies in does. */
  lemma ReachedSpot(site: Path, id: string, entry: string, t: Tree)
    requires Startable(site, id, t, entry) && Reached(site, id, t, entry) && !Slashed(entry)
    requires IsDir(t, InShared(site, ParentOf(EntryPath(entry))))
    ensures Spot(t, ReleasePath(site, id, entry)) == Some(InShared(site, EntryPath(entry)))
  {
    hide *;
    var e, p := EntryPath(entry), ReleasePath(site, id, entry);
    StartableAccepted(site, id, t, entry);
    ReleaseLast(site, id, entry);
    AboveResolves(site, id, entry, t, p[..|p| - 1]);
    LastSpot(t, p, InShared(site, ParentOf(e)), e[|e| - 1]);
    InSharedLast(site, e);
  }

  lemma InSharedLast(site: Path, e: Path)
    requires e != []
    ensures InShared(site, e) == InShared(site, ParentOf(e)) + [e[|e| - 1]]
  {
  }

  lemma UnreachedCleared(site: Path, id: string, entry: string, u: Tree, t: Tree)
    requires Startable(site, id, u, entry) && Clears(ReleasePath(site, id, entry), u, t)
    requires !Slashed(entry) && !Reached(site, id, u, entry)
    ensures InRelease(site, id, EntryPath(entry)) !in t
  {
    var rel, p := InRelease(site, id, EntryPath(entry)), ReleasePath(site, id, entry);
    EntrySpells(site, id, entry);
    UnreachedSpot(site, id, entry, u);
    if rel in u {
      ClearedAt(p, u, t, rel);
    } else {
      ClearsAddsNothing(p, u, t, rel);
    }
  }

  lemma ClearsAddsNothing(p: seq<Comp>, u: Tree, t: Tree, q: Path)
    requires Clears(p, u, t) && q !in u
    ensures q !in t
  {
  }

  lemma ReachedCleared(site: Path, id: string, entry: string, u: Tree, t: Tree)
    requires Startable(site, id, u, entry) && Clears(ReleasePath(site, id, entry), u, t) && Reached(site, id, u, entry)
    requires var sh := InShared(site, EntryPath(entry)); IsDir(u, if Slashed(entry) then sh else ParentOf(sh))
    ensures var sh := InShared(site, EntryPath(entry)); if Slashed(entry) then NothingBelow(t, sh) else sh !in t
  {
    var sh, p := InShared(site, EntryPath(entry)), ReleasePath(site, id, entry);
    EntrySpells(site, id, entry);
    ReachedHasName(site, id, u, entry);
    ParentOfIn(site, id, EntryPath(entry));
    if Slashed(entry) {
      ReachedDir(site, id, entry, u);
      ClearedBelow(p, u, t, sh);
    } else {
      ReachedSpot(site, id, entry, u);
      if sh in u {
        ClearedAt(p, u, t, sh);
      } else {
        ClearsAddsNothing(p, u, t, sh);
      }
    }
  }

  /** Behind a slash only a directory is found. */
  lemma NotDirNotCleared(site: Path, id: string, entry: string, u: Tree, t: Tree)
    requires Startable(site, id, u, entry) && Clears(ReleasePath(site, id, entry), u, t)
    requires Slashed(entry) && Reached(site, id, u, entry) && !IsDir(u, InShared(site, EntryPath(entry)))
    ensures t == u
  {
    hide Startable, Resolve, Spot, Spells, ReleasePath, Reached, Root, RemovalRoot, Goner, RootStays;
    var p := ReleasePath(site, id, entry);
    EntryResolves(site, id, entry, u);
    RootReached(site, id, entry);
    StartableAccepted(site, id, u, entry);
    EntrySpells(site, id, entry);
    NoSpotBehindSlash(u, p);
  }

  lemma RootReached(site: Path, id: string, entry: string)
    ensures Root(site, id, entry, true) == InShared(site, EntryPath(entry))
  {
  }

  lemma NoSpotBehindSlash(u: Tree, p: seq<Comp>)
    requires EndsHere(p)
    ensures Spot(u, p).None? && RemoveFile(u, p) == u
  {
  }

  lemma UnreachedBelow(site: Path, id: string, entry: string, u: Tree, t: Tree)
    requires Startable(site, id, u, entry) && Clears(ReleasePath(site, id, entry), u, t)
    requires Slashed(entry) && !Reached(site, id, u, entry)
    ensures NothingBelow(t, InRelease(site, id, EntryPath(entry)))
  {
    hide Spells, ReleasePath, Resolve;
    var e, rel, p := EntryPath(entry), InRelease(site, id, EntryPath(entry)), ReleasePath(site, id, entry);
    EntrySpells(site, id, entry);
    assert e[..Walked(entry)] == e;
    if IsDir(u, rel) {
      StraightResolve(u, rel, p);
      ClearedBelow(p, u, t, rel);
    } else {
      forall q | q in t ensures !(rel < q) {
        if rel < q && q in u {
          AncestorsAreDirs(u, q, rel);
        }
        if q !in u {
          ClearsAddsNothing(p, u, t, q);
        }
      }
    }
  }

  lemma EmptyEntry()
    ensures EntryPath("") == [] && Slashed("")
  {
    assert Components("") == [Here(false)];
  }

  /** The empty entry takes the whole release away. */
  lemma ReleaseCleared(site: Path, id: string, u: Tree, t: Tree)
    requires Startable(site, id, u, "") && Clears(ReleasePath(site, id, ""), u, t) && IsDir(u, Release(site, id))
    ensures Release(site, id) !in t
  {
    var r, p := Release(site, id), ReleasePath(site, id, "");
    EmptyEntry();
    EntrySpells(site, id, "");
    NamelessEntry(site, id, "");
    assert InRelease(site, id, []) == r;
    DirsHaveNoLinks(u, r);
    StraightResolve(u, r, p);
    DirsAreLinkFree(u, r);
    SpotLinkFree(u, r);
    ClearedBelow(p, u, t, r);
  }

  lemma AllCleared(site: Path, id: string, entry: string, u: Tree, t: Tree)
    requires Startable(site, id, u, entry) && Clears(ReleasePath(site, id, entry), u, t)
    ensures ClearedWell(site, id, entry, u, t)
  {
    var sh := InShared(site, EntryPath(entry));
    if Reached(site, id, u, entry) {
      if IsDir(u, if Slashed(entry) then sh else ParentOf(sh)) {
        ReachedCleared(site, id, entry, u, t);
      } else if Slashed(entry) {
        NotDirNotCleared(site, id, entry, u, t);
      }
    } else if Slashed(entry) {
      UnreachedBelow(site, id, entry, u, t);
    } else {
      UnreachedCleared(site, id, entry, u, t);
    }
    if entry == "" && IsDir(u, Release(site, id)) {
      ReleaseCleared(site, id, u, t);
    }
  }

  /** The link is made. */
  ghost predicate LinkedWell(site: Path, id: string, entry: string, u: Tree, t: Tree) {
    var e, reached := EntryPath(entry), Reached(site, id, u, entry);
    var rel, sh := InRelease(site, id, e), InShared(site, e);
    && (!reached && e != [] && NothingInTheWay(u, ParentOf(rel)) ==>
          IsDir(t, ParentOf(rel)) && (!Slashed(entry) && rel !in u ==> HasLink(site, id, t, e)))
    && (reached && !Slashed(entry) && IsDir(u, ParentOf(sh)) && sh !in u ==> IsLink(t, sh))
  }

  ghost predicate ParentsMade(site: Path, id: string, e: Path, u: Tree, v: Tree) {
    && MadeDirs(u, v, InRelease(site, id, ParentOf(e)), InShared(site, ParentOf(e)))
    && (NothingInTheWay(u, InRelease(site, id, ParentOf(e))) ==> IsDir(v, InRelease(site, id, ParentOf(e))))
  }

  lemma ParentsMadeOnly(site: Path, id: string, e: Path, u: Tree, v: Tree)
    requires e != [] && ParentsMade(site, id, e, u, v)
    ensures InRelease(site, id, e) in v <==> InRelease(site, id, e) in u
    ensures InShared(site, e) in v <==> InShared(site, e) in u
  {
    AreasApart(site, id, e, ParentOf(e));
    AreasApart(site, id, ParentOf(e), e);
    ParentOfIn(site, id, e);
    assert ParentOf(InRelease(site, id, e)) < InRelease(site, id, e) && ParentOf(InShared(site, e)) < InShared(site, e);
  }

  lemma LinkMadeInRelease(site: Path, id: string, entry: string, u: Tree, v: Tree)
    requires Startable(site, id, v, entry) && !Slashed(entry) && !Reached(site, id, v, entry)
    requires ParentsMade(site, id, EntryPath(entry), u, v) && InRelease(site, id, EntryPath(entry)) !in u
    requires NothingInTheWay(u, InRelease(site, id, ParentOf(EntryPath(entry))))
    ensures HasLink(site, id, Symlink(v, Link(true, SharedPath(site, entry)), ReleasePath(site, id, entry)),
              EntryPath(entry))
  {
    hide Startable, ParentsMade, NothingInTheWay, Spot;
    StartableAccepted(site, id, v, entry);
    EntrySpells(site, id, entry);
    ParentsMadeOnly(site, id, EntryPath(entry), u, v);
    ParentOfIn(site, id, EntryPath(entry));
    ParentsThere(site, id, EntryPath(entry), u, v);
    UnreachedSpot(site, id, entry, v);
  }

  lemma ParentsThere(site: Path, id: string, e: Path, u: Tree, v: Tree)
    requires ParentsMade(site, id, e, u, v)
    ensures NothingInTheWay(u, InRelease(site, id, ParentOf(e))) ==> IsDir(v, InRelease(site, id, ParentOf(e)))
    ensures IsDir(u, InShared(site, ParentOf(e))) ==> IsDir(v, InShared(site, ParentOf(e)))
  {
  }

  lemma LinkMadeUnderShared(site: Path, id: string, entry: string, u: Tree, v: Tree)
    requires Startable(site, id, v, entry) && !Slashed(entry) && Reached(site, id, v, entry)
    requires ParentsMade(site, id, EntryPath(entry), u, v)
    requires InShared(site, EntryPath(entry)) !in u && IsDir(u, InShared(site, ParentOf(EntryPath(entry))))
    ensures IsLink(Symlink(v, Link(true, SharedPath(site, entry)), ReleasePath(site, id, entry)),
              InShared(site, EntryPath(entry)))
  {
    hide Startable, ParentsMade, Spot;
    StartableAccepted(site, id, v, entry);
    EntrySpells(site, id, entry);
    ParentsMadeOnly(site, id, EntryPath(entry), u, v);
    ParentsThere(site, id, EntryPath(entry), u, v);
    ReachedSpot(site, id, entry, v);
  }

  lemma LinkMade(site: Path, id: string, entry: string, u: Tree, v: Tree, t: Tree)
    requires Startable(site, id, v, entry) && EntryPath(entry) != []
    requires Reached(site, id, v, entry) <==> Reached(site, id, u, entry)
    requires ParentsMade(site, id, EntryPath(entry), u, v)
    requires t == Symlink(v, Link(true, SharedPath(site, entry)), ReleasePath(site, id, entry))
    ensures LinkedWell(site, id, entry, u, t)
  {
    hide Startable, ParentsMade, HasLink, Reached, NothingInTheWay;
    var e := EntryPath(entry);
    ParentOfIn(site, id, e);
    ParentsThere(site, id, e, u, v);
    if !Slashed(entry) {
      if !Reached(site, id, u, entry) {
        if NothingInTheWay(u, InRelease(site, id, ParentOf(e))) && InRelease(site, id, e) !in u {
          LinkMadeInRelease(site, id, entry, u, v);
        }
      } else if IsDir(u, InShared(site, ParentOf(e))) && InShared(site, e) !in u {
        LinkMadeUnderShared(site, id, entry, u, v);
      }
    }
  }

  // ---------------------------------------------------------------- a whole round

  /** What a round does when nothing fails, seen from the tree before it. */
  ghost predicate RoundDone(site: Path, id: string, entry: string, s: Tree, t: Tree) {
    var e, reached := EntryPath(entry), Reached(site, id, s, entry);
    var rel, sh := InRelease(site, id, e), InShared(site, e);
    && (!reached && e != [] && NothingInTheWay(s, ParentOf(rel)) ==>
          IsDir(t, ParentOf(rel)) && (!Slashed(entry) ==> HasLink(site, id, t, e)))
    && (!reached && !Dotted(SharedPath(site, entry)) && SharedWay(site, s, entry) ==> HasTarget(site, t, entry))
    && (reached && !Slashed(entry) && NothingInTheWay(s, ParentOf(sh)) ==> IsLink(t, sh))
    && (reached && Slashed(entry) && IsDir(s, sh) ==> NothingBelow(t, sh))
    && (reached && Slashed(entry) && sh in s && !IsDir(s, sh) ==> sh in t && t[sh] == s[sh])
    && (!reached && Slashed(entry) ==> NothingBelow(t, rel))
    && (entry == "" && IsDir(s, Release(site, id)) ==> Release(site, id) !in t)
  }

  lemma UnreachedRound(site: Path, id: string, entry: string, s: Tree, u: Tree, w: Tree, t: Tree)
    requires Startable(site, id, s, entry) && !Reached(site, id, s, entry) && !Reached(site, id, w, entry)
    requires LinkStage(site, id, entry, false, s, u) && LinkStage(site, id, entry, false, s, w)
    requires LinkStage(site, id, entry, false, u, t)
    requires SharedWay(site, s, entry) && !Dotted(SharedPath(site, entry)) ==> HasTarget(site, u, entry)
    requires !Slashed(entry) ==> InRelease(site, id, EntryPath(entry)) !in w
    requires LinkedWell(site, id, entry, w, t)
    ensures var e, rel := EntryPath(entry), InRelease(site, id, EntryPath(entry));
            && (e != [] && NothingInTheWay(s, ParentOf(rel)) ==>
                  IsDir(t, ParentOf(rel)) && (!Slashed(entry) ==> HasLink(site, id, t, e)))
            && (!Dotted(SharedPath(site, entry)) && SharedWay(site, s, entry) ==> HasTarget(site, t, entry))
  {
    var e := EntryPath(entry);
    var rel, sh := InRelease(site, id, e), InShared(site, e);
    if e != [] && NothingInTheWay(s, ParentOf(rel)) {
      ParentOfIn(site, id, e);
      AreasApart(site, id, ParentOf(e), e);
      StageKeepsWay(site, id, entry, false, s, w, ParentOf(rel));
    }
    if HasTarget(site, u, entry) {
      StageKeepsShared(site, id, entry, u, t, sh);
    }
  }

  lemma StageKeepsNothingBelow(site: Path, id: string, entry: string, reached: bool, t: Tree, u: Tree)
    requires LinkStage(site, id, entry, reached, t, u) && NothingBelow(t, InShared(site, EntryPath(entry)))
    ensures NothingBelow(u, InShared(site, EntryPath(entry)))
  {
    var e := EntryPath(entry);
    forall p | p in u ensures !(InShared(site, e) < p) {
      AreasApart(site, id, e, e);
      assert InShared(site, e) < p && p < InRelease(site, id, e) ==> InShared(site, e) <= InRelease(site, id, e);
    }
  }

  lemma DirsStay(site: Path, id: string, entry: string, s: Tree, u: Tree)
    requires forall p | p in s :: p in u && u[p] == s[p]
    ensures IsDir(s, InShared(site, EntryPath(entry))) ==> IsDir(u, InShared(site, EntryPath(entry)))
  {
  }

  lemma StageTransitive(site: Path, id: string, entry: string, reached: bool, a: Tree, b: Tree, c: Tree)
    requires LinkStage(site, id, entry, reached, a, b) && LinkStage(site, id, entry, reached, b, c)
    ensures LinkStage(site, id, entry, reached, a, c)
  {
  }

  lemma RunJoined(site: Path, id: string, entry: string, s: Tree, n: nat, u: Tree, before: seq<Tree>, t: Tree,
      trace: seq<Tree>)
    requires LinkRun(site, id, entry, s, n, u, before) && WellFormed(u) && before <= trace
    requires LinkRun(site, id, entry, u, |before|, t, trace)
    ensures LinkRun(site, id, entry, s, n, t, trace)
  {
    var reached := Reached(site, id, s, entry);
    RunState(site, id, entry, s, n, u, before);
    StageTransitive(site, id, entry, reached, s, u, t);
    forall i | n <= i < |trace| ensures LinkStage(site, id, entry, reached, s, trace[i]) {
      if i < |before| {
        assert trace[i] == before[i];
      } else {
        StageTransitive(site, id, entry, reached, s, u, trace[i]);
      }
    }
  }

  lemma StageKeepsParent(site: Path, id: string, entry: string, reached: bool, t: Tree, u: Tree)
    requires LinkStage(site, id, entry, reached, t, u) && EntryPath(entry) != []
    requires IsDir(t, ParentOf(InShared(site, EntryPath(entry))))
    ensures IsDir(u, ParentOf(InShared(site, EntryPath(entry))))
  {
    ParentOfIn(site, id, EntryPath(entry));
    AreasApart(site, id, EntryPath(entry), ParentOf(EntryPath(entry)));
  }

  /** Where nothing is in the way, preparing the shared path makes the directory it lies in. */
  lemma SharedParentMade(site: Path, id: string, entry: string, s: Tree, u: Tree)
    requires Startable(site, id, s, entry) && WellFormed(u) && !Slashed(entry) && EntryPath(entry) != []
    requires forall p | p in s :: p in u && u[p] == s[p]
    requires NothingInTheWay(s, ParentOf(InShared(site, EntryPath(entry))))
    requires SharedWay(site, s, entry) && !Dotted(SharedPath(site, entry)) ==> HasTarget(site, u, entry)
    ensures IsDir(u, ParentOf(InShared(site, EntryPath(entry))))
  {
    var sh := InShared(site, EntryPath(entry));
    UnslashedNotDotted(site, id, entry) by { StartableAccepted(site, id, s, entry); }
    if sh !in u {
      WayToMissing(s, sh);
    }
  }

  lemma UnslashedNotDotted(site: Path, id: string, entry: string)
    requires Accepted(entry) && !Slashed(entry)
    ensures !Dotted(SharedPath(site, entry))
  {
    EntrySpells(site, id, entry);
    var c, p := Components(entry), SharedPath(site, entry);
    assert c != [] && p[|p| - 1] == c[|c| - 1];
  }

  lemma WayToMissing(s: Tree, sh: Path)
    requires sh != [] && sh !in s && NothingInTheWay(s, ParentOf(sh))
    ensures NothingInTheWay(s, sh) && !IsLink(s, sh)
  {
    assert sh[..|sh|] == sh;
    forall i | 0 <= i < |sh| ensures sh[..i] == ParentOf(sh)[..i] {
    }
  }

  lemma StageKeepsReleaseBare(site: Path, id: string, entry: string, t: Tree, u: Tree)
    requires LinkStage(site, id, entry, false, t, u) && NothingBelow(t, InRelease(site, id, EntryPath(entry)))
    ensures NothingBelow(u, InRelease(site, id, EntryPath(entry)))
  {
    var e := EntryPath(entry);
    forall p | p in u ensures !(InRelease(site, id, e) < p) {
      AreasApart(site, id, e, e);
      assert InRelease(site, id, e) < p && p <= InShared(site, e) ==> InRelease(site, id, e) <= InShared(site, e);
    }
  }

  /** The three parts of a round together: `u` after the preparation, `w` after the clean-up. */
  lemma RoundAdds(site: Path, id: string, entry: string, s: Tree, u: Tree, w: Tree, t: Tree)
    requires Startable(site, id, s, entry) && Startable(site, id, u, entry) && Startable(site, id, w, entry)
    requires var reached := Reached(site, id, s, entry);
             && Reached(site, id, u, entry) == Reached(site, id, w, entry) == reached
             && LinkStage(site, id, entry, reached, s, u) && LinkStage(site, id, entry, reached, u, w)
             && LinkStage(site, id, entry, reached, w, t)
    requires forall p | p in s :: p in u && u[p] == s[p]
    requires SharedWay(site, s, entry) && !Dotted(SharedPath(site, entry)) ==> HasTarget(site, u, entry)
    requires ClearedWell(site, id, entry, u, w) && LinkedWell(site, id, entry, w, t) && Grows(w, t)
    ensures RoundDone(site, id, entry, s, t)
  {
    hide LinkStage, HasTarget, HasLink, SharedWay, Startable, NothingInTheWay, DirKind, Spells, Dotted;
    var e, reached := EntryPath(entry), Reached(site, id, s, entry);
    var sh := InShared(site, e);
    StageTransitive(site, id, entry, reached, s, u, w);
    StageTransitive(site, id, entry, reached, u, w, t);
    if reached {
      ReachedHasName(site, id, s, entry) by { StartableBase(site, id, s, entry); }
      StartableBase(site, id, u, entry);
      if !Slashed(entry) && NothingInTheWay(s, ParentOf(sh)) {
        SharedParentMade(site, id, entry, s, u);
        StageKeepsParent(site, id, entry, reached, u, w);
      }
      if Slashed(entry) && IsDir(s, sh) {
        DirsStay(site, id, entry, s, u);
        StageKeepsNothingBelow(site, id, entry, true, w, t);
      }
    } else {
      UnreachedRound(site, id, entry, s, u, w, t);
      if Slashed(entry) {
        StageKeepsReleaseBare(site, id, entry, w, t);
      }
    }
    if entry == "" && IsDir(s, Release(site, id)) {
      EmptyEntry();
      NoReleaseFromNothing(site, id, entry, reached, w, t);
    }
  }

  /** A reached entry is a link under shared/ after its round, if its directory was there before. */
  lemma LinkedUnderShared(site: Path, id: string, entry: string, s: Tree, t: Tree)
    requires RoundDone(site, id, entry, s, t) && Reached(site, id, s, entry) && !Slashed(entry)
    requires WellFormed(s) && IsDir(s, ParentOf(InShared(site, EntryPath(entry))))
    ensures IsLink(t, InShared(site, EntryPath(entry)))
  {
    hide NothingInTheWay, WellFormed;
    DirsAreNotInTheWay(s, ParentOf(InShared(site, EntryPath(entry))));
  }

  lemma StartableBase(site: Path, id: string, t: Tree, entry: string)
    requires Startable(site, id, t, entry)
    ensures Base(site, id, t)
  {
  }

  /** An entry that names nothing does not bring the release back. */
  lemma NoReleaseFromNothing(site: Path, id: string, entry: string, reached: bool, t: Tree, u: Tree)
    requires LinkStage(site, id, entry, reached, t, u) && EntryPath(entry) == [] && Slashed(entry)
               && Release(site, id) !in t
    ensures Release(site, id) !in u
  {
    AreasApart(site, id, [], []);
    assert InRelease(site, id, []) == Release(site, id) && InShared(site, []) == Shared(site);
  }

  // ---------------------------------------------------------------- what the methods need in between

  lemma NamelessIsRoot(t: Tree, p: seq<Comp>)
    requires WellFormed(t) && Spells(p, [])
    ensures IsDirAt(t, p) || Parent(p).None?
  {
    OnlyPlaceHolders(p);
  }

  lemma SharedParent(site: Path, id: string, entry: string, s: Tree)
    requires Startable(site, id, s, entry)
    ensures var p, sh := SharedPath(site, entry), InShared(site, EntryPath(entry));
            && Parent(p).Some? && Spells(Parent(p).value, ParentOf(sh)) && !EndsHere(Parent(p).value)
            && Track(s, ParentOf(sh), ParentOf(sh)) && ParentOf(sh) <= sh
  {
    EntrySpells(site, id, entry);
    EntryTracks(site, id, s, entry);
    SpellsParent(SharedPath(site, entry), InShared(site, EntryPath(entry)));
    TrackParent(s, InShared(site, EntryPath(entry)), InShared(site, EntryPath(entry)));
  }

  lemma TouchLosesNothing(t: Tree, p: seq<Comp>)
    ensures forall q | q in t :: q in Touch(t, p) && Touch(t, p)[q] == t[q]
  {
    CreateSpotIsFree(t, [], p, LINK_BUDGET);
  }

  lemma ReleaseParent(site: Path, id: string, entry: string, s: Tree)
    requires Startable(site, id, s, entry)
    ensures var e, p := EntryPath(entry), ReleasePath(site, id, entry);
            var q := ParentOf(InRelease(site, id, e));
            && Parent(p).Some? && Spells(Parent(p).value, q) && !EndsHere(Parent(p).value)
            && Track(s, q, if e == [] then q else ParentOf(InShared(site, e)))
  {
    var e, p := EntryPath(entry), ReleasePath(site, id, entry);
    var q := ParentOf(InRelease(site, id, e));
    EntrySpells(site, id, entry);
    SpellsParent(p, InRelease(site, id, e));
    if e == [] {
      ReleasesTrack(site, id, s);
      assert InRelease(site, id, []) == Release(site, id) && ParentOf(Release(site, id)) == Releases(site);
    } else {
      ParentOfIn(site, id, e);
      EntryTracks(site, id, s, entry);
      if Slashed(entry) {
        assert e[..Walked(entry)] == e;
        TrackParent(s, InRelease(site, id, e), InShared(site, e));
      } else {
        assert e[..Walked(entry)] == ParentOf(e);
      }
    }
  }

  lemma ReleasesTrack(site: Path, id: string, t: Tree)
    requires Base(site, id, t)
    ensures Track(t, Releases(site), Releases(site))
  {
    var q := Releases(site);
    forall i | 0 <= i <= |q| ensures !IsLink(t, q[..i]) {
      if i <= |site| {
        assert q[..i] == site[..i];
        SiteHasNoLinks(site, t, q[..i]);
      } else {
        assert q[..i] == q;
      }
    }
  }

  lemma ParentsRun(site: Path, id: string, entry: string, s: Tree, n: nat, before: seq<Tree>, v: Tree, trace: seq<Tree>,
      up: seq<Comp>, faulty: bool)
    requires Startable(site, id, s, entry) && before <= trace && n == |before|
    requires var e := EntryPath(entry);
             var q := ParentOf(InRelease(site, id, e));
             var alt := if e == [] then q else ParentOf(InShared(site, e));
             MkdirAllDid(s, n, v, trace, up, q, alt, faulty) && Track(s, q, alt) && !EndsHere(up)
    ensures LinkRun(site, id, entry, s, n, v, trace)
    ensures EntryPath(entry) != [] && !faulty ==> ParentsMade(site, id, EntryPath(entry), s, v)
  {
    var e := EntryPath(entry);
    var q := ParentOf(InRelease(site, id, e));
    var reached := Reached(site, id, s, entry);
    if e != [] {
      ParentOfIn(site, id, e);
    }
    forall x | MadeDirs(s, x, q, if e == [] then q else ParentOf(InShared(site, e)))
      ensures LinkStage(site, id, entry, reached, s, x)
    {
      ParentDirsStage(site, id, entry, reached, s, x);
    }
  }

  lemma ParentDirsStage(site: Path, id: string, entry: string, reached: bool, s: Tree, x: Tree)
    requires var e := EntryPath(entry);
             var q := ParentOf(InRelease(site, id, e));
             MadeDirs(s, x, q, if e == [] then q else ParentOf(InShared(site, e)))
    ensures LinkStage(site, id, entry, reached, s, x)
  {
    var e := EntryPath(entry);
    assert ParentOf(InRelease(site, id, e)) < InRelease(site, id, e) && ParentOf(InShared(site, e)) < InShared(site, e);
  }

  lemma LinkMadeOrNone(site: Path, id: string, entry: string, u: Tree, v: Tree, t: Tree)
    requires Startable(site, id, u, entry) && Startable(site, id, v, entry)
    requires Reached(site, id, v, entry) <==> Reached(site, id, u, entry)
    requires EntryPath(entry) != [] ==> ParentsMade(site, id, EntryPath(entry), u, v)
    requires t == Symlink(v, Link(true, SharedPath(site, entry)), ReleasePath(site, id, entry))
    ensures LinkedWell(site, id, entry, u, t)
  {
    if EntryPath(entry) != [] {
      LinkMade(site, id, entry, u, v, t);
    } else {
      StartableAccepted(site, id, u, entry);
      EntrySpells(site, id, entry);
      if Reached(site, id, u, entry) {
        ReachedHasName(site, id, u, entry);
      }
    }
  }

  lemma FileMade(site: Path, id: string, entry: string, s: Tree, v: Tree, t: Tree)
    requires Startable(site, id, s, entry) && !DirKind(entry) && WellFormed(v) && !Dotted(SharedPath(site, entry))
    requires var sh := InShared(site, EntryPath(entry));
             MadeDirs(s, v, ParentOf(sh), ParentOf(sh)) && (NothingInTheWay(s, ParentOf(sh)) ==> IsDir(v, ParentOf(sh)))
    requires t == if Exists(v, SharedPath(site, entry)) then v else Touch(v, SharedPath(site, entry))
    requires SharedWay(site, s, entry)
    ensures HasTarget(site, t, entry)
  {
    StartableAccepted(site, id, s, entry);
    EntrySpells(site, id, entry);
    FileKindUnslashed(site, entry);
    FilePrepared(site, id, entry, s, v, t);
  }

  /** An entry that counts as a file and does not end in "." does not end in a slash either. */
  lemma FileKindUnslashed(site: Path, entry: string)
    requires !DirKind(entry) && !Dotted(SharedPath(site, entry))
    ensures !Slashed(entry)
  {
    if Slashed(entry) {
      LastPieceDot(entry);
    }
  }

  lemma {:induction false} LastPieceDot(entry: string)
    requires Slashed(entry) && entry != "" && entry[|entry| - 1] != '/'
    ensures Components(entry) != [] && Components(entry)[|Components(entry)| - 1] == Here(true)
    decreases |entry|
  {
    hide Components, FirstSlash, Piece, Slashed;
    var i := FirstSlash(entry);
    LastPiece(entry);
    LastComponent(entry);
    if i < |entry| {
      assert entry[i + 1..] != "" && entry[|entry| - 1] == entry[i + 1..][|entry| - i - 2];
      LastPieceDot(entry[i + 1..]);
    }
  }

  lemma LastComponent(entry: string)
    ensures var c, i := Components(entry), FirstSlash(entry);
            c != [] && if i < |entry| then c[|c| - 1] == Components(entry[i + 1..])[|Components(entry[i + 1..])| - 1]
                       else entry != "" && Piece(entry).Here? ==> c[|c| - 1] == Here(true)
  {
    hide Components, FirstSlash;
    ComponentsMeans(entry);
    if FirstSlash(entry) < |entry| {
      ComponentsMeans(entry[FirstSlash(entry) + 1..]);
    }
  }

  /** The second half of making a link: the step that follows the making of the parents. */
  lemma LinkStep(site: Path, id: string, entry: string, s: Tree, n: nat, before: seq<Tree>, v: Tree, between: seq<Tree>,
      up: seq<Comp>, faulty: bool)
    requires Startable(site, id, s, entry) && before <= between && n == |before| && WellFormed(v)
    requires var e := EntryPath(entry);
             var q := ParentOf(InRelease(site, id, e));
             var alt := if e == [] then q else ParentOf(InShared(site, e));
             MkdirAllDid(s, n, v, between, up, q, alt, faulty) && Track(s, q, alt) && !EndsHere(up)
    ensures var t := Symlink(v, Link(true, SharedPath(site, entry)), ReleasePath(site, id, entry));
            && LinkRun(site, id, entry, s, n, v, between) && LinkRun(site, id, entry, s, n, t, between + [t])
            && Grows(s, v) && Grows(s, t)
            && (!faulty ==> LinkedWell(site, id, entry, s, t))
  {
    hide LinkStage, Symlink, MkdirAllDid, Startable, LinkedWell, ParentsMade, Track;
    DirsGrow(s, n, v, between, up, ParentOf(InRelease(site, id, EntryPath(entry))),
      if EntryPath(entry) == [] then ParentOf(InRelease(site, id, EntryPath(entry)))
      else ParentOf(InShared(site, EntryPath(entry))), faulty);
    SymlinkGrows(v, Link(true, SharedPath(site, entry)), ReleasePath(site, id, entry));
    ParentsRun(site, id, entry, s, n, before, v, between, up, faulty);
    RunState(site, id, entry, s, n, v, between);
    SymlinkStage(site, id, entry, s, n, v, between);
    var t := Symlink(v, Link(true, SharedPath(site, entry)), ReleasePath(site, id, entry));
    if !faulty {
      LinkMadeOrNone(site, id, entry, s, v, t);
    }
  }

  lemma DirsGrow(s: Tree, n: nat, v: Tree, trace: seq<Tree>, p: seq<Comp>, q: Path, alt: Path, faulty: bool)
    requires MkdirAllDid(s, n, v, trace, p, q, alt, faulty) && Track(s, q, alt)
    ensures Grows(s, v)
  {
  }

  lemma SymlinkGrows(t: Tree, link: Node, p: seq<Comp>)
    ensures Grows(t, Symlink(t, link, p))
  {
  }

  /** Nothing that was there is gone or changed. */
  ghost predicate Grows(t: Tree, u: Tree) {
    forall p | p in t :: p in u && u[p] == t[p]
  }

  /** The second half of preparing a shared file: the step that follows the making of the parent. */
  lemma FileStep(site: Path, id: string, entry: string, s: Tree, n: nat, before: seq<Tree>, v: Tree, between: seq<Tree>,
      up: seq<Comp>, faulty: bool)
    requires Startable(site, id, s, entry) && before <= between && n == |before| && WellFormed(v) && !DirKind(entry)
    requires var sh := InShared(site, EntryPath(entry));
             && MkdirAllDid(s, n, v, between, up, ParentOf(sh), ParentOf(sh), faulty)
             && Track(s, ParentOf(sh), ParentOf(sh)) && !EndsHere(up)
    ensures var p := SharedPath(site, entry);
            var t := Touch(v, p);
            && LinkRun(site, id, entry, s, n, v, between) && LinkRun(site, id, entry, s, n, t, between + [t])
            && Grows(s, v) && Grows(s, t)
            && (!faulty && SharedWay(site, s, entry) && !Dotted(p) ==>
                 HasTarget(site, if Exists(v, p) then v else t, entry))
  {
    hide LinkStage, Touch, Startable, HasTarget, SharedWay;
    var sh, p := InShared(site, EntryPath(entry)), SharedPath(site, entry);
    assert ParentOf(sh) <= sh;
    RunDirs(site, id, entry, s, n, s, before, v, between, up, ParentOf(sh), ParentOf(sh), faulty)
      by { NoStageYet(site, id, entry, s, n, before); }
    TouchStage(site, id, entry, s, n, v, between);
    TouchLosesNothing(v, p);
    if !faulty && SharedWay(site, s, entry) && !Dotted(p) {
      SharedWayAbove(site, s, entry);
      FileMade(site, id, entry, s, v, if Exists(v, p) then v else Touch(v, p));
    }
  }

  lemma NoStageYet(site: Path, id: string, entry: string, s: Tree, n: nat, before: seq<Tree>)
    requires Startable(site, id, s, entry) && n == |before|
    ensures LinkRun(site, id, entry, s, n, s, before)
  {
  }

  lemma SharedWayAbove(site: Path, t: Tree, entry: string)
    requires SharedWay(site, t, entry) && !DirKind(entry)
    ensures NothingInTheWay(t, ParentOf(InShared(site, EntryPath(entry))))
  {
  }

  /** The clean-up of a directory. */
  lemma DirCleared(site: Path, id: string, entry: string, s: Tree, n: nat, before: seq<Tree>, t: Tree,
      trace: seq<Tree>, root: Path)
    requires Startable(site, id, s, entry) && before <= trace && n == |before|
    requires RemovalRoot(s, ReleasePath(site, id, entry)) == Some(root)
    requires var rootStays := RootStays(s, ReleasePath(site, id, entry));
             && PrunedBut(s, t, root, rootStays)
             && forall i | n <= i < |trace| :: PrunedBut(s, trace[i], root, rootStays)
    ensures LinkRun(site, id, entry, s, n, t, trace)
  {
    hide Startable, RemovalRoot, RootStays, PrunedBut;
    EntryRoot(site, id, entry, s);
    if EntryPath(entry) == [] && entry != "" {
      NamelessRootStays(site, id, entry, s) by { StartableAccepted(site, id, s, entry); }
    }
    NoStageYet(site, id, entry, s, n, before);
    RunPruned(site, id, entry, s, n, s, before, t, trace, RootStays(s, ReleasePath(site, id, entry)));
  }

  /** The clean-up of anything else. */
  lemma FileCleared(site: Path, id: string, entry: string, s: Tree, n: nat, before: seq<Tree>)
    requires Startable(site, id, s, entry) && n == |before|
    ensures LinkRun(site, id, entry, s, n, s, before)
    ensures var t := RemoveFile(s, ReleasePath(site, id, entry)); LinkRun(site, id, entry, s, n, t, before + [t])
  {
    NoStageYet(site, id, entry, s, n, before);
    RemoveFileStage(site, id, entry, s, n, s, before);
  }
}
