/**
 The atomic release store (`atomic_deploy`, `activate_release` and `list_releases` in
 panel/agent/src/services/deploy.rs), as steps on a filesystem with links.

 `Site.trace` records the tree after every single step, so an invariant of the trace is an
 invariant of everything a web server could see in between. Foreign programs (git, bash,
 cp) are one step each, with their outcome given; every other step is one system call.
 On a `faulty` site any step may fail for reasons outside the tree.
 */
module ReleaseStore {
  import opened Wrappers
  import opened FileSystem
  import opened PathTracks
  import opened TreeOps
  import opened Retention
  import opened ReleaseTrees
  import opened ReleaseLinks
  import opened ReleaseRounds
  import opened ReleaseLists
  import opened ReleaseLoops
  import opened ReleaseCopy
  import opened ReleasePhases
  import opened ReleaseSwap
  import opened ReleaseRuns

  /** The site: its tree, and the tree after every step so far. */
  class Site {
    const site: Path
    const faulty: bool
    var t: Tree
    ghost var trace: seq<Tree>

    ghost predicate Valid()
      reads this
    {
      trace != [] && trace[|trace| - 1] == t && forall i | 0 <= i < |trace| :: WellFormed(trace[i])
    }

    constructor (site: Path, faulty: bool, t: Tree)
      requires WellFormed(t)
      ensures Valid() && this.site == site && this.faulty == faulty && this.t == t && trace == [t]
    {
      this.site, this.faulty, this.t, trace := site, faulty, t, [t];
    }

    method Become(u: Tree)
      requires Valid() && WellFormed(u)
      modifies this`t, this`trace
      ensures Valid() && t == u && trace == old(trace) + [u]
    {
      t := u;
      trace := trace + [u];
    }

    /** At most one step was made, to `u`; on a site without faults it was made. */
    twostate predicate Stepped(u: Tree)
      reads this
    {
      && ((t == old(t) && trace == old(trace)) || (t == u && trace == old(trace) + [u]))
      && (!faulty ==> t == u)
    }

    method Fails() returns (fails: bool)
      ensures !faulty ==> !fails
    {
      fails := false;
      if faulty {
        fails := *;
      }
    }

    method MkdirStep(p: seq<Comp>)
      requires Valid()
      modifies this`t, this`trace
      ensures Valid() && Stepped(Mkdir(old(t), p))
    {
      var fails := Fails();
      MkdirKeepsTree(t, p);
      if !fails {
        Become(Mkdir(t, p));
      }
    }

    method TouchStep(p: seq<Comp>)
      requires Valid()
      modifies this`t, this`trace
      ensures Valid() && Stepped(Touch(old(t), p))
    {
      var fails := Fails();
      TouchKeepsTree(t, p);
      if !fails {
        Become(Touch(t, p));
      }
    }

    method SymlinkStep(link: Node, p: seq<Comp>) returns (ok: bool)
      requires Valid()
      modifies this`t, this`trace
      ensures Valid() && Stepped(Symlink(old(t), link, p))
      ensures ok ==> Spot(old(t), p).Some? && Spot(old(t), p).value !in old(t) && t == Symlink(old(t), link, p)
      ensures !faulty && Spot(old(t), p).Some? && Spot(old(t), p).value !in old(t) ==> ok
    {
      var fails := Fails();
      SymlinkKeepsTree(t, link, p);
      var s := Spot(t, p);
      ok := !fails && s.Some? && s.value !in t;
      if ok {
        Become(Symlink(t, link, p));
      }
    }

    method RemoveFileStep(p: seq<Comp>)
      requires Valid()
      modifies this`t, this`trace
      ensures Valid() && Stepped(RemoveFile(old(t), p))
    {
      var fails := Fails();
      RemoveFileKeepsTree(t, p);
      if !fails {
        Become(RemoveFile(t, p));
      }
    }

    /** `remove_dir_all`: leaf by leaf, giving up at the first failure. */
    method RemoveTree(root: Path, rootStays: bool)
      requires Valid() && root != []
      modifies this`t, this`trace
      ensures Valid() && old(trace) <= trace
      ensures PrunedBut(old(t), t, root, rootStays)
      ensures forall i | |old(trace)| <= i < |trace| :: PrunedBut(old(t), trace[i], root, rootStays)
      ensures !faulty ==> Goner(t, root, rootStays) == {}
    {
      while Goner(t, root, rootStays) != {}
        invariant Valid() && old(trace) <= trace
        invariant PrunedBut(old(t), t, root, rootStays)
        invariant forall i | |old(trace)| <= i < |trace| :: PrunedBut(old(t), trace[i], root, rootStays)
        decreases Goner(t, root, rootStays)
      {
        var fails := Fails();
        if fails {
          return;
        }
        ghost var _ := LeafExists(t, root, rootStays);
        var leaf: Path :| leaf in Goner(t, root, rootStays) && IsLeaf(t, leaf);
        RemoveLeaf(old(t), t, root, leaf);
        Become(t - {leaf});
      }
    }

    /**
     `create_dir_all` on a path string that spells `q`, where links may lead over to `alt`.
     */
    method MkdirAll(p: seq<Comp>, ghost q: Path, ghost alt: Path)
      requires Valid()
      modifies this`t, this`trace
      ensures Valid() && old(trace) <= trace
      ensures Spells(p, q) ==> MkdirAllDid(old(t), |old(trace)|, t, trace, p, q, alt, faulty)
      decreases |p|
    {
      var parent := Parent(p);
      if IsDirAt(t, p) || parent.None? {
        if Spells(p, q) {
          if q != [] {
            SpellsParent(p, q);
          }
          MkdirAllNotNeeded(t, trace, p, q, alt, faulty);
        }
        return;
      }
      ghost var start, n := t, |trace|;
      MkdirAll(parent.value, ParentOf(q), ParentOf(alt));
      ghost var middle, before := t, trace;
      MkdirStep(p);
      if Spells(p, q) {
        if q == [] {
          NamelessIsRoot(start, p);
        } else {
          SpellsParent(p, q);
          MkdirAllExtended(start, n, middle, before, t, trace, parent.value, p, q, alt, faulty);
        }
      }
    }

    // -------------------------------------------------------------- linking one shared path

    /** "Shared file — create parent and touch". */
    method PrepareFile(entry: string, ghost id: string)
      requires Valid() && !DirKind(entry)
      modifies this`t, this`trace
      ensures Valid() && old(trace) <= trace
      ensures Startable(site, id, old(t), entry) ==>
                && LinkRun(site, id, entry, old(t), |old(trace)|, t, trace) && Grows(old(t), t)
                && (!faulty && SharedWay(site, old(t), entry) && !Dotted(SharedPath(site, entry)) ==>
                     HasTarget(site, t, entry))
    {
      hide Startable, LinkRun, Grows, SharedWay, HasTarget, MkdirAllDid, Track, Spells, Touch;
      ghost var s, sh := t, InShared(site, EntryPath(entry));
      var p := SharedPath(site, entry);
      var parent := Parent(p);
      if Startable(site, id, s, entry) {
        SharedParent(site, id, entry, s);
      }
      if parent.Some? {
        MkdirAll(parent.value, ParentOf(sh), ParentOf(sh));
      }
      ghost var v, between := t, trace;
      if Startable(site, id, s, entry) {
        FileStep(site, id, entry, s, |old(trace)|, old(trace), v, between, parent.value, faulty);
      }
      if !Exists(t, p) {
        TouchStep(p);
      }
    }

    /** "Create shared directory if it doesn't exist", or the parent and an empty file. */
    method PrepareShared(entry: string, ghost id: string)
      requires Valid()
      modifies this`t, this`trace
      ensures Valid() && old(trace) <= trace
      ensures Startable(site, id, old(t), entry) ==>
                && LinkRun(site, id, entry, old(t), |old(trace)|, t, trace) && Grows(old(t), t)
                && (!faulty && SharedWay(site, old(t), entry) && !Dotted(SharedPath(site, entry)) ==>
                     HasTarget(site, t, entry))
      ensures var sh := InShared(site, EntryPath(entry));
              && Startable(site, id, old(t), entry) && !faulty && !Dotted(SharedPath(site, entry))
              && NothingInTheWay(old(t), ParentOf(sh)) && sh !in old(t) ==>
                sh in t && t[sh] == if '.' in entry && entry[|entry| - 1] != '/' then File("") else Dir
    {
      ghost var first := t;
      if DirKind(entry) {
        ghost var s, sh := t, InShared(site, EntryPath(entry));
        MkdirAll(SharedPath(site, entry), sh, sh);
        if Startable(site, id, s, entry) {
          EntrySpells(site, id, entry);
          EntryTracks(site, id, s, entry);
          DirPrepared(site, id, entry, s, |old(trace)|, t, trace, faulty);
          RunDirs(site, id, entry, s, |old(trace)|, s, old(trace), t, trace, SharedPath(site, entry), sh, sh, faulty);
        }
      } else {
        PrepareFile(entry, id);
      }
      if Startable(site, id, first, entry) && !faulty && !Dotted(SharedPath(site, entry)) {
        KindPrepared(site, id, entry, first, t);
      }
    }

    /** "Remove existing dir/file in release (if any)". */
    method ClearRelease(entry: string, id: string)
      requires Valid()
      modifies this`t, this`trace
      ensures Valid() && old(trace) <= trace
      ensures !faulty ==> Clears(ReleasePath(site, id, entry), old(t), t)
      ensures Startable(site, id, old(t), entry) ==>
                && LinkRun(site, id, entry, old(t), |old(trace)|, t, trace)
                && (!faulty ==> ClearedWell(site, id, entry, old(t), t))
    {
      hide Startable, LinkRun, RootStays, ClearedWell, RemoveFile;
      var p := ReleasePath(site, id, entry);
      ghost var s := t;
      if Startable(site, id, s, entry) {
        FileCleared(site, id, entry, s, |trace|, trace);
      }
      if Exists(t, p) || IsSymlink(t, p) {
        if IsDirAt(t, p) {
          var root := RemovalRoot(t, p);
          if root.Some? && root.value != [] {
            RemoveTree(root.value, RootStays(t, p));
            if Startable(site, id, s, entry) {
              DirCleared(site, id, entry, s, |old(trace)|, old(trace), t, trace, root.value);
            }
          }
        } else {
          RemoveFileStep(p);
        }
      }
      if Startable(site, id, s, entry) && !faulty {
        AllCleared(site, id, entry, s, t);
      }
    }

    /** "Ensure parent exists" and the symlink itself. */
    method MakeLink(entry: string, id: string)
      requires Valid()
      modifies this`t, this`trace
      ensures Valid() && old(trace) <= trace
      ensures Startable(site, id, old(t), entry) ==>
                && LinkRun(site, id, entry, old(t), |old(trace)|, t, trace)
                && (!faulty ==> LinkedWell(site, id, entry, old(t), t)) && Grows(old(t), t)
    {
      hide Startable, LinkStage, LinkRun, LinkedWell, MkdirAllDid, Track, Spells, Symlink, Grows;
      var p := ReleasePath(site, id, entry);
      var parent := Parent(p);
      ghost var s, e, startable := t, EntryPath(entry), Startable(site, id, t, entry);
      ghost var q := ParentOf(InRelease(site, id, e));
      ghost var alt := if e == [] then q else ParentOf(InShared(site, e));
      if startable {
        ReleaseParent(site, id, entry, s);
      }
      if parent.Some? {
        MkdirAll(parent.value, q, alt);
      }
      ghost var v, between := t, trace;
      if startable {
        LinkStep(site, id, entry, s, |old(trace)|, old(trace), v, between, parent.value, faulty);
      }
      var ok := SymlinkStep(Link(true, SharedPath(site, entry)), p);
    }

    /** One round of the loop over the shared paths. */
    method LinkEntry(entry: string, id: string)
      requires Valid()
      modifies this`t, this`trace
      ensures Valid() && old(trace) <= trace
      ensures Startable(site, id, old(t), entry) ==>
                && LinkRun(site, id, entry, old(t), |old(trace)|, t, trace)
                && (!faulty ==> RoundDone(site, id, entry, old(t), t))
    {
      ghost var s, n, startable := t, |trace|, Startable(site, id, t, entry);
      PrepareShared(entry, id);
      ghost var u, prepared := t, trace;
      if startable {
        RunState(site, id, entry, s, n, u, prepared);
      }
      ClearRelease(entry, id);
      ghost var w, cleared := t, trace;
      if startable {
        RunState(site, id, entry, u, |prepared|, w, cleared);
      }
      MakeLink(entry, id);
      if startable {
        RunJoined(site, id, entry, u, |prepared|, w, cleared, t, trace);
        RunJoined(site, id, entry, s, n, u, prepared, t, trace);
        if !faulty {
          RoundAdds(site, id, entry, s, u, w, t);
        }
      }
    }

    /** "Link shared directories and files into the release". */
    method LinkAll(entries: seq<string>, id: string)
      requires Valid()
      modifies this`t, this`trace
      ensures Valid() && old(trace) <= trace
      ensures LinkStart(site, id, entries, old(t)) ==>
                LinkedSoFar(site, id, entries, old(t), |old(trace)|, t, trace, |entries|, faulty)
    {
      hide LinkStart, LinkedSoFar, LinkRun, RoundDone, Startable;
      ghost var start, n := t, |trace|;
      if LinkStart(site, id, entries, start) {
        LinkingBegins(site, id, entries, start, trace, faulty);
      }
      var k := 0;
      while k < |entries|
        invariant 0 <= k <= |entries|
        invariant Valid() && old(trace) <= trace
        invariant LinkStart(site, id, entries, start) ==> LinkedSoFar(site, id, entries, start, n, t, trace, k, faulty)
      {
        ghost var u, before := t, trace;
        LinkEntry(entries[k], id);
        if LinkStart(site, id, entries, start) {
          LinkedStartable(site, id, entries, start, n, u, before, k, faulty);
          NextLinked(site, id, entries, start, n, u, before, t, trace, k, faulty);
        }
        k := k + 1;
      }
    }

    // -------------------------------------------------------------- the phases before the swap

    /** `cp -a`, which may fail. */
    method CopyStep(src: seq<Comp>, dst: seq<Comp>)
      requires Valid()
      modifies this`t, this`trace
      ensures Valid() && Stepped(Copy(old(t), src, dst))
    {
      var fails := Fails();
      CopyKeepsTree(t, src, dst);
      if !fails {
        Become(Copy(t, src, dst));
      }
    }

    /** `current` names the release `x`. */
    ghost predicate Serves(s: Tree, x: string)
      reads this
    {
      Current(site) in s && s[Current(site)] == LinkTo(Release(site, x))
    }

    ghost predicate Copying(id: string, x: string, entries: seq<string>, start: Tree, n: nat, prev: seq<Comp>)
      reads this
    {
      && AllAccepted(entries) && CopiedSoFar(site, id, x, entries, start, n, t, trace)
      && OldReady(site, x, t, entries, prev) && Serves(start, x)
    }

    method CopyEntry(prev: seq<Comp>, entries: seq<string>, k: nat,
        ghost id: string, ghost x: string, ghost start: Tree, ghost n: nat)
      requires Valid() && k < |entries|
      modifies this`t, this`trace
      ensures Valid() && old(trace) <= trace
      ensures old(Copying(id, x, entries, start, n, prev)) ==> Copying(id, x, entries, start, n, prev)
      ensures !faulty ==> t == CopyOne(site, old(t), prev, entries[k])
    {
      hide CopiedSoFar, OldReady, AllAccepted, Copy, EmptyAt, IsSymlink;
      var src, dst := prev + Components(entries[k]), SharedPath(site, entries[k]);
      if Exists(t, src) && !IsSymlink(t, src) && EmptyAt(t, dst) {
        if Copying(id, x, entries, start, n, prev) {
          NextCopied(site, id, x, entries, start, n, t, trace, k, prev);
        }
        CopyStep(src, dst);
      }
    }

    method CopyFrom(prev: seq<Comp>, entries: seq<string>, ghost id: string, ghost x: string)
      requires Valid()
      modifies this`t, this`trace
      ensures Valid() && old(trace) <= trace
      ensures AllAccepted(entries) && Base(site, id, old(t)) && SharedTameAll(site, old(t), entries)
              && OldReady(site, x, old(t), entries, prev) && Serves(old(t), x) ==>
                CopiedSoFar(site, id, x, entries, old(t), |old(trace)|, t, trace)
      ensures !faulty ==> t == CopyAll(site, old(t), prev, entries)
    {
      hide CopiedSoFar, OldReady, AllAccepted, SharedTameAll, Base, CopyAll, CopyOne;
      ghost var start, n := t, |trace|;
      ghost var ready := AllAccepted(entries) && Base(site, id, t) && SharedTameAll(site, t, entries)
                         && OldReady(site, x, t, entries, prev) && Serves(t, x);
      if ready {
        CopyingBegins(site, id, x, entries, t, trace);
      }
      NothingCopiedYet(site, start, prev, entries);
      var k := 0;
      while k < |entries|
        invariant 0 <= k <= |entries|
        invariant Valid() && old(trace) <= trace
        invariant ready ==> Copying(id, x, entries, start, n, prev)
        invariant !faulty ==> t == CopyAll(site, start, prev, entries[..k])
      {
        CopyAllUnfold(site, start, prev, entries, k);
        CopyEntry(prev, entries, k, id, x, start, n);
        k := k + 1;
      }
      assert entries[..|entries|] == entries;
    }

    /** "Copy shared items from previous release if this is the first deploy". */
    method CopyShared(entries: seq<string>, ghost id: string, ghost x: string)
      requires Valid()
      modifies this`t, this`trace
      ensures Valid() && old(trace) <= trace
      ensures CopyReady(site, id, x, old(t), entries) ==>
                CopiedSoFar(site, id, x, entries, old(t), |old(trace)|, t, trace)
      ensures !faulty && IsSymlink(old(t), Names(Current(site))) ==>
                t == CopyAll(site, old(t), old(t)[Spot(old(t), Names(Current(site))).value].target, entries)
    {
      // A relative target would be read from the agent's working directory, which is the root.
      if CopyReady(site, id, x, t, entries) {
        CurrentIs(site, id, x, t, entries);
        CopyingBegins(site, id, x, entries, t, trace);
      }
      if IsSymlink(t, Names(Current(site))) {
        CopyFrom(t[Spot(t, Names(Current(site))).value].target, entries, id, x);
      }
    }

    /** `remove_dir_all` on a path string; it refuses a plain file. */
    method RemoveDirAll(p: seq<Comp>, ghost root: Path)
      requires Valid()
      modifies this`t, this`trace
      ensures Valid() && old(trace) <= trace
      ensures p == Names(root) && root != [] && IsDir(old(t), ParentOf(root)) ==>
                && Pruned(old(t), t, root) && PrunedSince(old(t), trace, |old(trace)|, root)
                && (!faulty && (root in old(t) ==> !old(t)[root].File?) ==> root !in t)
    {
      var found, rootStays := RemovalRoot(t, p), RootStays(t, p);
      if p == Names(root) && root != [] && IsDir(t, ParentOf(root)) {
        RootOfNames(t, root);
      }
      if found.Some? && found.value != [] && found.value in t && !t[found.value].File? {
        RemoveTree(found.value, rootStays);
        assert found.value in t && !rootStays ==> found.value in Goner(t, found.value, rootStays);
      }
    }

    /** "Create directory structure". */
    method MakeLayout(ghost id: string, ghost entries: seq<string>) returns (ok: bool)
      requires Valid()
      modifies this`t, this`trace
      ensures Valid() && old(trace) <= trace
      ensures Good(site, old(t)) && Release(site, id) !in old(t) && SharedTameAll(site, old(t), entries) ==>
                && Calmly(site, id, entries, old(t), |old(trace)|, t, trace, faulty) && SameShared(site, old(t), t)
                && Release(site, id) !in t && (ok ==> IsDir(t, Releases(site)) && IsDir(t, Shared(site)))
                && (!faulty && Unobstructed(site, id, old(t)) ==> ok)
    {
      hide Calmly, SharedTameAll, Good, SameShared, MkdirAllDid;
      ghost var start, n := t, |trace|;
      ghost var ready := Good(site, t) && Release(site, id) !in t && SharedTameAll(site, t, entries);
      if ready {
        LayoutBegins(site, id, entries, start, trace, faulty);
      }
      MkdirAll(Names(Releases(site)), Releases(site), Releases(site));
      ghost var u, before := t, trace;
      if ready {
        LayoutStep(site, id, entries, start, n, start, old(trace), u, before, Releases(site), faulty);
      }
      if !IsDirAt(t, Names(Releases(site))) {
        return false;
      }
      MkdirAll(Names(Shared(site)), Shared(site), Shared(site));
      if ready {
        LayoutStep(site, id, entries, start, n, u, before, t, trace, Shared(site), faulty);
        SameSharedTransitive(site, start, u, t);
      }
      ok := IsDirAt(t, Names(Shared(site)));
    }

    /** What is left of a release that is given up. */
    method DropRelease(id: string, ghost entries: seq<string>, ghost start: Tree, ghost n: nat)
      requires Valid()
      modifies this`t, this`trace
      ensures Valid() && old(trace) <= trace
      ensures Calmly(site, id, entries, start, n, old(t), old(trace), faulty) && IsDir(old(t), Releases(site)) ==>
                && Calmly(site, id, entries, start, n, t, trace, faulty)
                && (!faulty && ReleaseIsDir(site, id, old(t)) ==> Release(site, id) !in t)
    {
      ghost var u, before := t, trace;
      assert ParentOf(Release(site, id)) == Releases(site);
      RemoveDirAll(Names(Release(site, id)), Release(site, id));
      if Calmly(site, id, entries, start, n, u, before, faulty) && IsDir(u, Releases(site)) {
        CalmlyRemoval(site, id, entries, start, n, u, before, t, trace, faulty);
      }
    }

    /** What `git clone` leaves at the place of the new release; it refuses a place that is taken. */
    method PlantRelease(id: string, repo: Files) returns (planted: bool)
      requires Valid()
      modifies this`t, this`trace
      ensures Valid() && old(trace) <= trace
      ensures planted == (IsDir(old(t), Releases(site)) && Release(site, id) !in old(t))
      ensures if planted then t == Plant(old(t), Release(site, id), repo) && trace == old(trace) + [t]
              else t == old(t) && trace == old(trace)
    {
      planted := IsDir(t, Releases(site)) && Release(site, id) !in t;
      if planted {
        assert ParentOf(Release(site, id)) == Releases(site);
        PlantKeepsTree(t, Release(site, id), repo);
        Become(Plant(t, Release(site, id), repo));
      }
    }

    /** `git clone` into the new release, and the clean-up when it fails. */
    method Clone(id: string, clone: CloneRun, ghost entries: seq<string>, ghost start: Tree, ghost n: nat)
      returns (stop: Option<Outcome>)
      requires Valid()
      modifies this`t, this`trace
      ensures Valid() && old(trace) <= trace && stop != Some(Succeeded)
      ensures Calmly(site, id, entries, start, n, old(t), old(trace), faulty) && Laid(site, start)
                && AllAccepted(entries)
              && IsDir(old(t), Releases(site)) && Release(site, id) !in old(t)
              && (clone.Cloned? ==> RepoClear(clone.repo, entries)) ==>
                && Calmly(site, id, entries, start, n, t, trace, faulty)
                && (stop.None? <==> clone.Cloned?)
                && (stop.None? ==> ClonedWell(site, id, entries, t, clone) && SameShared(site, old(t), t))
                && (stop == Some(Failed) && !faulty ==> Release(site, id) !in t)
    {
      hide Calmly, ClonedWell, SameShared, Plant, Laid, RepoClear, AllAccepted;
      var repo := match clone case Cloned(r) => Some(r) case CloneFailed(r) => r case CloneDied(r) => r;
      ghost var u, before := t, trace;
      ghost var ready := Calmly(site, id, entries, start, n, u, before, faulty) && Laid(site, start)
                         && IsDir(u, Releases(site)) && Release(site, id) !in u;
      var planted := false;
      if repo.Some? {
        if ready {
          CalmlyPlant(site, id, entries, start, n, u, before, repo.value, faulty);
        }
        planted := PlantRelease(id, repo.value);
      }
      if clone.CloneDied? {
        return Some(Error);
      }
      if clone.CloneFailed? || !planted {
        if ready {
          ReleasesThere(site, id, u, repo, t);
        }
        DropRelease(id, entries, start, n);
        return Some(Failed);
      }
      if ready && AllAccepted(entries) && RepoClear(clone.repo, entries) {
        CloneCounts(site, id, entries, start, n, u, t, trace, clone, faulty);
      }
      stop := None;
    }

    /** "Link shared directories and files into the release" and "Copy shared items from previous release". */
    method LinkAndCopy(id: string, entries: seq<string>, ghost clone: CloneRun, ghost start: Tree, ghost n: nat)
      requires Valid()
      modifies this`t, this`trace
      ensures Valid() && old(trace) <= trace
      ensures Calmly(site, id, entries, start, n, old(t), old(trace), faulty)
                && ClonedWell(site, id, entries, old(t), clone)
              && Good(site, start) && Release(site, id) !in start && CopiesClear(site, start, entries, faulty) ==>
                && Calmly(site, id, entries, start, n, t, trace, faulty)
                && Assembled(site, id, entries, old(t), t, clone, faulty)
    {
      hide Calmly, ClonedWell, Good, CopiesClear, Assembled, LinkedSoFar, CopiedSoFar, CopyReady;
      ghost var u, before := t, trace;
      LinkAll(entries, id);
      ghost var v, between := t, trace;
      ghost var x := "";
      if Calmly(site, id, entries, start, n, u, before, faulty) && ClonedWell(site, id, entries, u, clone)
         && Good(site, start) && Release(site, id) !in start && CopiesClear(site, start, entries, faulty) {
        ClonedCanLink(site, id, entries, u, clone);
        x := CopyCanBegin(site, id, entries, start, n, u, before, v, between, faulty);
      }
      if entries != [] {
        CopyShared(entries, id, x);
      } else if CopyReady(site, id, x, v, entries) {
        CopyReadyBegins(site, id, x, entries, v, between);
      }
      if Calmly(site, id, entries, start, n, u, before, faulty) && ClonedWell(site, id, entries, u, clone)
         && Good(site, start) && Release(site, id) !in start && CopiesClear(site, start, entries, faulty) {
        LinkedAndCopied(site, id, x, entries, start, n, clone, u, before, v, between, t, trace, faulty);
      }
    }

    /** The script itself, and what its end means. */
    method Execute(id: string, effect: Tree -> Files, end: ScriptEnd, ghost entries: seq<string>, ghost start: Tree,
        ghost n: nat)
      returns (stop: Option<Outcome>)
      requires Valid()
      modifies this`t, this`trace
      ensures Valid() && old(trace) <= trace && stop != Some(Succeeded)
      ensures Calmly(site, id, entries, start, n, old(t), old(trace), faulty) && IsDir(old(t), Release(site, id))
              && Behaves(site, id, effect) ==>
                && Calmly(site, id, entries, start, n, t, trace, faulty)
                && (stop.None? ==> IsDir(t, Release(site, id)))
                && (stop == Some(Failed) && !faulty ==> Release(site, id) !in t)
    {
      if Calmly(site, id, entries, start, n, t, trace, faulty) && IsDir(t, Release(site, id))
          && Behaves(site, id, effect)
      {
        CalmlyScript(site, id, entries, start, n, t, trace, effect, faulty);
      }
      Become(effect(t));
      match end {
        case ExitedZero => stop := None;
        case Died => stop := Some(Error);
        case ExitedNonzero =>
          assert ParentOf(Release(site, id)) == Releases(site);
          DropRelease(id, entries, start, n);
          stop := Some(Failed);
      }
    }

    /** "Run deploy script inside the release directory"; a release that is not there is skipped. */
    method RunScript(id: string, script: Option<Script>, ghost entries: seq<string>, ghost start: Tree, ghost n: nat)
      returns (stop: Option<Outcome>)
      requires Valid()
      modifies this`t, this`trace
      ensures Valid() && old(trace) <= trace && stop != Some(Succeeded)
      ensures ScriptDid(site, id, entries, start, n, old(t), old(trace), t, trace, script, stop, faulty)
    {
      if !RunsScript(script) {
        return None;
      }
      var release := Resolve(t, Names(Release(site, id)));
      var file := Resolve(t, Names(Release(site, id)) + Components(StripSlashes(script.value.name)));
      if Base(site, id, t) && Release(site, id) !in t {
        MissingReleaseNotFound(site, id, t);
      }
      if release.None? || file.None? {
        return None;
      }
      if !(release.value <= file.value) {
        assert ParentOf(Release(site, id)) == Releases(site);
        DropRelease(id, entries, start, n);
        return Some(Error);
      }
      stop := Execute(id, script.value.effect, script.value.end, entries, start, n);
    }

    /** The directories and the clone; `stop` says that the deploy ends here. */
    method Checkout(id: string, clone: CloneRun, ghost entries: seq<string>, ghost script: Option<Script>)
      returns (stop: Option<Outcome>)
      requires Valid()
      modifies this`t, this`trace
      ensures Valid() && old(trace) <= trace && stop != Some(Succeeded)
      ensures Ready(site, id, old(t), entries, clone, script, faulty) ==>
                && Calmly(site, id, entries, old(t), |old(trace)|, t, trace, faulty)
                && (stop.None? ==>
                     ClonedWell(site, id, entries, t, clone) && SameShared(site, old(t), t) && IsDir(t, Shared(site)))
                && (stop == Some(Failed) && !faulty ==> Release(site, id) !in t)
                && (!faulty && clone.Cloned? && Unobstructed(site, id, old(t)) ==> stop.None?)
    {
      hide Calmly, ClonedWell, SameShared, SharedTameAll, CopiesClear, RepoClear, Behaves, AllAccepted, Unobstructed;
      ghost var start, n := t, |trace|;
      var ok := MakeLayout(id, entries);
      ghost var laid := t;
      if !ok {
        return Some(Error);
      }
      stop := Clone(id, clone, entries, start, n);
      if stop.None? && Ready(site, id, start, entries, clone, script, faulty) {
        SameSharedTransitive(site, start, laid, t);
        SharedStillDir(site, laid, t);
      }
    }

    /** Everything up to the swap; `stop` says that the deploy ends here. */
    method BuildRelease(id: string, entries: seq<string>, clone: CloneRun, script: Option<Script>)
      returns (stop: Option<Outcome>)
      requires Valid()
      modifies this`t, this`trace
      ensures Valid() && old(trace) <= trace && stop != Some(Succeeded)
      ensures Ready(site, id, old(t), entries, clone, script, faulty) ==>
                BuildDid(site, id, entries, old(t), |old(trace)|, t, trace, clone, script, stop, faulty)
    {
      hide Calmly, ClonedWell, SameShared, Ready, Unobstructed, Assembled, Good, BuildDid, ScriptDid, Release;
      ghost var start, n := t, |trace|;
      stop := Checkout(id, clone, entries, script);
      ghost var u := t;
      if stop.Some? {
        if Ready(site, id, start, entries, clone, script, faulty) {
          BuildStopped(site, id, entries, start, n, u, trace, clone, script, stop, faulty);
        }
        return;
      }
      if Ready(site, id, start, entries, clone, script, faulty) {
        ReadyMeans(site, id, start, entries, clone, script, faulty);
      }
      LinkAndCopy(id, entries, clone, start, n);
      ghost var v, assembled := t, trace;
      stop := RunScript(id, script, entries, start, n);
      if Ready(site, id, start, entries, clone, script, faulty) {
        BuildDecided(site, id, entries, start, n, u, v, assembled, t, trace, clone, script, stop, faulty);
      }
    }

    // -------------------------------------------------------------- the swap

    method RenameStep(p: seq<Comp>, q: seq<Comp>) returns (ok: bool)
      requires Valid()
      modifies this`t, this`trace
      ensures Valid()
      ensures ok ==> CanRename(old(t), p, q) && t == Rename(old(t), p, q) && trace == old(trace) + [t]
      ensures !ok ==> t == old(t) && trace == old(trace)
      ensures !faulty ==> ok == CanRename(old(t), p, q)
    {
      var fails := Fails();
      ok := !fails && CanRename(t, p, q);
      if ok {
        RenameKeepsTree(t, p, q);
        Become(Rename(t, p, q));
      }
    }

    ghost predicate InSwap(id: string, s: Tree, n: nat)
      reads this
    {
      Swapping(site, id, s, n, t, trace)
    }

    /** `current` is what it was in `s`, now and in every tree since step `n`. */
    ghost predicate CurrentStill(s: Tree, n: nat)
      reads this
    {
      CurrentKept(site, s, t) && CurrentSince(site, s, trace, n)
    }

    /** A stale temporary link, or one that could not be moved, goes away. */
    method RemoveTmpLink(id: string, ghost s: Tree, ghost n: nat)
      requires Valid()
      modifies this`t, this`trace
      ensures Valid() && old(trace) <= trace
      ensures old(InSwap(id, s, n)) ==>
                && InSwap(id, s, n) && (old(CurrentStill(s, n)) ==> CurrentStill(s, n))
                && (IsDir(old(t), TmpLink(site, id)) ==> t == old(t))
                && (!faulty && !IsDir(old(t), TmpLink(site, id)) ==> TmpLink(site, id) !in t)
    {
      if InSwap(id, s, n) {
        SwapTmpRemoved(site, id, s, t);
        SwappingStep(site, id, s, n, t, trace, RemoveFile(t, Names(TmpLink(site, id))));
      }
      RemoveFileStep(Names(TmpLink(site, id)));
    }

    method MakeTmpLink(id: string, ghost s: Tree, ghost n: nat) returns (ok: bool)
      requires Valid()
      modifies this`t, this`trace
      ensures Valid() && old(trace) <= trace
      ensures old(InSwap(id, s, n)) ==>
                && InSwap(id, s, n) && (old(CurrentStill(s, n)) ==> CurrentStill(s, n))
                && (ok ==> TmpLink(site, id) in t && t[TmpLink(site, id)] == LinkTo(Release(site, id)))
                && (if TmpLink(site, id) in old(t) then !ok else !faulty ==> ok)
    {
      if InSwap(id, s, n) {
        SwapTmpMade(site, id, s, t);
        SwappingStep(site, id, s, n, t, trace, Symlink(t, LinkTo(Release(site, id)), Names(TmpLink(site, id))));
      }
      ok := SymlinkStep(LinkTo(Release(site, id)), Names(TmpLink(site, id)));
    }

    method RenameTmpLink(id: string, ghost s: Tree, ghost n: nat) returns (ok: bool)
      requires Valid()
      modifies this`t, this`trace
      ensures Valid() && old(trace) <= trace
      ensures old(InSwap(id, s, n)) && TmpLink(site, id) in old(t)
              && old(t)[TmpLink(site, id)] == LinkTo(Release(site, id)) ==>
                && InSwap(id, s, n)
                && (if ok then Named(site, id, t) else t == old(t) && trace == old(trace))
                && (if IsDir(old(t), Current(site)) then !ok else !faulty ==> ok)
    {
      if InSwap(id, s, n) && TmpLink(site, id) in t && t[TmpLink(site, id)] == LinkTo(Release(site, id)) {
        SwapRenamed(site, id, s, t);
        if !IsDir(t, Current(site)) {
          SwappingStep(site, id, s, n, t, trace, Rename(t, Names(TmpLink(site, id)), Names(Current(site))));
        }
      }
      ok := RenameStep(Names(TmpLink(site, id)), Names(Current(site)));
    }

    /** "Atomic symlink swap: ln -sfn (create temp link then rename for atomicity)". */
    method Swap(id: string) returns (ok: bool)
      requires Valid()
      modifies this`t, this`trace
      ensures Valid() && old(trace) <= trace
      ensures SwapDid(site, id, old(t), |old(trace)|, t, trace, ok, faulty)
    {
      hide Swapping, CurrentKept, CurrentSince, Named, WellFormed;
      ghost var s, n := t, |trace|;
      if IsDir(s, site) {
        SwapBegins(site, id, s, trace);
      }
      RemoveTmpLink(id, s, n);
      ok := MakeTmpLink(id, s, n);
      SwapEnds(site, id, s, n, t, trace);
      if !ok {
        return;
      }
      ok := RenameTmpLink(id, s, n);
      if !ok {
        RemoveTmpLink(id, s, n);
      }
      SwapEnds(site, id, s, n, t, trace);
    }

    // -------------------------------------------------------------- public/

    method MoveDirStep(p: seq<Comp>, q: seq<Comp>)
      requires Valid()
      modifies this`t, this`trace
      ensures Valid()
      ensures (t == old(t) && trace == old(trace))
              || (CanMoveDir(old(t), p, q) && t == MoveDir(old(t), p, q) && trace == old(trace) + [t])
      ensures !faulty && CanMoveDir(old(t), p, q) ==> t == MoveDir(old(t), p, q)
    {
      var fails := Fails();
      if !fails && CanMoveDir(t, p, q) {
        MoveDirMeaning(t, p, q);
        Become(MoveDir(t, p, q));
      }
    }

    /** "Remove existing public dir/symlink if it's not already the right symlink". */
    method ClearPublic()
      requires Valid()
      modifies this`t, this`trace
      ensures Valid() && old(trace) <= trace
      ensures Laid(site, old(t)) ==> PublicRun(site, old(t), |old(trace)|, t, trace)
      ensures Laid(site, old(t)) && !faulty && !PublicStuck(site, old(t)) ==> Public(site) !in t
      ensures Laid(site, old(t)) && PublicStuck(site, old(t)) ==> t == old(t)
      ensures Laid(site, old(t)) && !faulty && IsDir(old(t), Public(site)) && !PublicStuck(site, old(t)) ==>
                Branch(t, Backup(site)) == Branch(old(t), Public(site))
    {
      if Laid(site, t) {
        PublicQuestions(site, t);
        PublicRemoved(site, t, t);
      }
      if IsDirAt(t, Names(Public(site))) && !IsSymlink(t, Names(Public(site))) {
        if Laid(site, t) && CanMoveDir(t, Names(Public(site)), Names(Backup(site))) {
          PublicMoved(site, t);
        }
        MoveDirStep(Names(Public(site)), Names(Backup(site)));
      } else {
        RemoveFileStep(Names(Public(site)));
      }
    }

    /** "Create compatibility symlink: public -> current/public". */
    method LinkPublic()
      requires Valid()
      modifies this`t, this`trace
      ensures Valid() && old(trace) <= trace
      ensures Laid(site, old(t)) ==> PublicRun(site, old(t), |old(trace)|, t, trace)
      ensures Laid(site, old(t)) && !faulty && Exists(old(t), Names(PublicTarget(site)))
              && !PublicStuck(site, old(t)) ==>
                && PublicLeads(site, t)
                && (IsDir(old(t), Public(site)) ==> Branch(t, Backup(site)) == Branch(old(t), Public(site)))
      ensures Laid(site, old(t)) && PublicStuck(site, old(t)) ==> t == old(t)
      ensures !Exists(old(t), Names(PublicTarget(site))) ==> t == old(t)
    {
      ghost var s := t;
      if Laid(site, s) {
        PublicQuestions(site, s);
      }
      if !Exists(t, Names(PublicTarget(site))) {
        return;
      }
      if IsSymlink(t, Names(Public(site))) && LeadsTo(t[Spot(t, Names(Public(site))).value], PublicTarget(site)) {
        return;
      }
      ClearPublic();
      ghost var u := t;
      if Laid(site, s) {
        PublicLinked(site, s, u);
      }
      var _ := SymlinkStep(LinkTo(PublicTarget(site)), Names(Public(site)));
      if Laid(site, s) {
        BackupApart(site, u, LinkTo(PublicTarget(site)));
      }
    }

    // -------------------------------------------------------------- the prune

    ghost predicate InPrune(doomed: set<string>, s: Tree, n: nat)
      reads this
    {
      PruneRun(site, doomed, s, n, t, trace)
    }

    method RemoveOld(name: string, ghost doomed: set<string>, ghost s: Tree, ghost n: nat)
      requires Valid()
      modifies this`t, this`trace
      ensures Valid() && old(trace) <= trace
      ensures old(InPrune(doomed, s, n)) && name in doomed && WellFormed(s) && IsDir(s, Release(site, name)) ==>
                InPrune(doomed, s, n) && t.Keys <= old(t).Keys && (!faulty ==> Release(site, name) !in t)
    {
      ghost var u, before := t, trace;
      ghost var pruning := InPrune(doomed, s, n) && name in doomed && WellFormed(s) && IsDir(s, Release(site, name));
      if pruning {
        PrunableAt(site, doomed, s, u, name);
      }
      RemoveDirAll(Names(Release(site, name)), Release(site, name));
      if pruning {
        PruneRunNext(site, doomed, s, n, u, before, t, trace, name);
      }
    }

    /** "Clean up old releases (keep N most recent)". */
    method PruneReleases(keep: nat)
      requires Valid()
      modifies this`t, this`trace
      ensures Valid() && old(trace) <= trace
      ensures var doomed := Doomed(ReleaseNames(site, old(t)), keep);
              Laid(site, old(t)) && IsDir(old(t), Releases(site)) ==>
                && PruneRun(site, doomed, old(t), |old(trace)|, t, trace)
                && (!faulty ==> forall d | d in doomed :: Release(site, d) !in t)
    {
      ghost var s, n := t, |trace|;
      if Laid(site, s) {
        LaidPlaces(site, s);
      }
      if !IsDirAt(t, Names(Releases(site))) {
        return;
      }
      var sorted := Sort(ReleaseNames(site, t));
      RemoveFirst(sorted, if |sorted| > keep then |sorted| - keep else 0, keep, s, n);
      DoomedAreFirst(sorted, keep);
    }

    method RemoveFirst(sorted: seq<string>, toRemove: nat, ghost keep: nat, ghost s: Tree, ghost n: nat)
      requires Valid() && toRemove <= |sorted|
      modifies this`t, this`trace
      ensures Valid() && old(trace) <= trace
      ensures RemovesDoomed(site, s, sorted, toRemove, keep)
              && old(InPrune(Doomed(ReleaseNames(site, s), keep), s, n)) ==>
                && InPrune(Doomed(ReleaseNames(site, s), keep), s, n)
                && (!faulty ==> FirstGone(site, sorted, toRemove, t))
    {
      ghost var doomed := Doomed(ReleaseNames(site, s), keep);
      ghost var pruning := RemovesDoomed(site, s, sorted, toRemove, keep) && InPrune(doomed, s, n);
      var i := 0;
      while i < toRemove
        invariant 0 <= i <= toRemove
        invariant Valid() && old(trace) <= trace
        invariant pruning ==> InPrune(doomed, s, n)
        invariant pruning && !faulty ==> FirstGone(site, sorted, i, t)
      {
        ghost var u := t;
        if pruning {
          DoomedByRank(site, s, sorted, keep, i);
        }
        RemoveOld(sorted[i], doomed, s, n);
        if pruning && !faulty {
          FirstGoneNext(site, sorted, i, u, t);
        }
        i := i + 1;
      }
    }

    // -------------------------------------------------------------- the operations

    ghost predicate GoodFrom(start: Tree, n: nat)
      reads this
    {
      GoodSince(site, start, trace, n)
    }

    /** What follows a successful swap: public/ and the prune. */
    method Finish(keep: nat, ghost id: string)
      requires Valid()
      modifies this`t, this`trace
      ensures Valid() && old(trace) <= trace
      ensures FinishDid(site, id, keep, old(t), |old(trace)|, t, trace, faulty)
    {
      hide TameOutside, PruneRun, PublicRun, PublicLeads, PublicStuck, Named;
      ghost var s, n := t, |trace|;
      LinkPublic();
      ghost var u, before := t, trace;
      PruneReleases(keep);
      if Active(site, id, s) && id !in Doomed(ReleaseNames(site, s), keep) {
        FinishedWell(site, id, keep, s, n, u, before, t, trace);
        if PublicLeads(site, u) {
          PublicSurvives(site, u, |before|, t, trace, keep);
        }
      }
      if Laid(site, s) && Dangling(site, id, s) && IsDir(s, Releases(site)) {
        StillDangling(site, id, s, n, u, before, t, trace, keep);
      }
      if Laid(site, s) && Named(site, id, s) && IsDir(s, Releases(site)) {
        CurrentStaysNamed(site, id, s, n, u, before, t, trace, keep);
      }
    }

    /** The swap and what follows it. */
    method GoLive(id: string, keep: nat, ghost entries: seq<string>, ghost start: Tree, ghost n: nat) returns (ok: bool)
      requires Valid() && n <= |trace|
      modifies this`t, this`trace
      ensures Valid() && old(trace) <= trace
      ensures WentLive(site, id, keep, entries, start, n, old(t), old(trace), t, trace, ok, faulty)
    {
      hide SwapDid, FinishDid, WentLive;
      ghost var a, built := t, trace;
      ok := Swap(id);
      ghost var b, swapped := t, trace;
      if ok {
        Finish(keep, id);
      }
      WentLiveFrom(site, id, keep, entries, start, n, a, built, b, swapped, t, trace, ok, faulty);
    }

    // -------------------------------------------------------------- the operations

    /**
     `atomic_deploy`, with the outcome of its foreign programs given. Without faults, and if
     it succeeds, the site is good afterwards exactly if the release is there once all
     entries are linked.
     */
    method AtomicDeploy(id: string, entries: seq<string>, clone: CloneRun, script: Option<Script>, keep: nat)
      returns (outcome: Outcome)
      requires Valid()
      modifies this`t, this`trace
      ensures Valid() && old(trace) <= trace
      ensures Ready(site, id, old(t), entries, clone, script, faulty) && KeepsNewest(site, old(t), id, keep) ==>
                DeployDid(site, id, keep, entries, old(t), |old(trace)|, t, trace, clone, script, outcome, faulty)
    {
      hide Ready, KeepsNewest, DeployDid, BuildDid, WentLive, Good, Dangling, Rebuilt, Whole, Unobstructed;
      ghost var start, n := t, |trace|;
      ghost var ready := Ready(site, id, t, entries, clone, script, faulty) && KeepsNewest(site, t, id, keep);
      var stop := BuildRelease(id, entries, clone, script);
      ghost var built, before := t, trace;
      if stop.Some? {
        if ready {
          DeployStopped(site, id, keep, entries, clone, script, start, n, built, before, stop, faulty);
        }
        return stop.value;
      }
      var ok := GoLive(id, keep, entries, start, n);
      outcome := if ok then Succeeded else Error;
      if ready {
        DeployDecided(site, id, keep, entries, clone, script, start, n, built, before, t, trace, ok, faulty);
      }
    }

    /** `activate_release`: rollback to any release directory there is. */
    method ActivateRelease(id: string) returns (ok: bool)
      requires Valid()
      modifies this`t, this`trace
      ensures Valid() && old(trace) <= trace
      ensures Good(site, old(t)) ==>
                && GoodFrom(old(t), |old(trace)|) && Good(site, t) && StaysSet(site, old(t), t)
                && TameStays(site, old(t), t)
                && (forall m :: Release(site, m) in t ==> Release(site, m) in old(t))
                && (forall m :: Branch(t, Release(site, m)) == Branch(old(t), Release(site, m)))
                && (if ok then Active(site, id, t) else CurrentKept(site, old(t), t))
                && (ok ==> ValidId(id) && IsDir(old(t), Release(site, id)))
                && (!faulty && Activatable(site, id, old(t)) ==> ok)
    {
      ghost var s, n := t, |trace|;
      if Good(site, s) {
        ReleaseDirAt(site, s, id);
      }
      if !ValidId(id) || !IsDirAt(t, Names(Release(site, id))) {
        return false;
      }
      ok := Swap(id);
      if Good(site, s) {
        ActivatedWell(site, id, s, n, t, trace);
        SwapKeepsDir(site, id, s, t, id);
      }
    }

    /** `list_releases`: nothing when releases/ cannot be read as a directory. */
    method ListReleases() returns (r: Option<seq<ReleaseInfo>>)
      requires Valid()
      ensures r.Some? <==> !Exists(t, Names(Releases(site))) || IsDirAt(t, Names(Releases(site)))
      ensures r.Some? && IsDirAt(t, Names(Releases(site))) ==> Listing(site, t, r.value)
      ensures !Exists(t, Names(Releases(site))) ==> r == Some([])
    {
      if !Exists(t, Names(Releases(site))) {
        return Some([]);
      }
      if !IsDirAt(t, Names(Releases(site))) {
        return None;
      }
      var sorted := Sort(ReleaseNames(site, t));
      DescribedIsListing(site, t, sorted);
      r := Some(Described(Reversed(sorted), ActiveName(site, t)));
    }

    /** One operation of a run. */
    method Step(ops: seq<Op>, k: nat)
      requires Valid() && k < |ops|
      modifies this`t, this`trace
      ensures Valid() && old(trace) <= trace
      ensures StepDid(site, ops, k, old(t), |old(trace)|, t, trace, faulty)
    {
      hide RunReady, RunSafe, Ready, KeepsNewest, Deployed, DeployDid, Good, TameStays, RunTame, TameAfter, Whole;
      ghost var u, before := t, trace;
      ghost var ready := RunReady(site, u, ops, k, faulty) && RunSafe(site, u, ops[k], ops, faulty);
      match ops[k] {
        case Deploy(id, entries, clone, script, keep) =>
          if ready {
            DeployReady(site, u, ops, k, faulty);
          }
          var outcome := AtomicDeploy(id, entries, clone, script, keep);
          if ready {
            DeployStepped(site, u, |before|, t, trace, ops, k, outcome, faulty);
          }
        case Activate(id) =>
          if ready {
            RunReadyGood(site, u, ops, k, faulty);
          }
          var ok := ActivateRelease(id);
          if ready {
            ActivateStepped(site, u, |before|, t, trace, ops, k, faulty);
          }
      }
    }

    /**
     Any sequential run of deploys, each with its own list of shared paths, and activations:
     after every single step of it the site is good, and `current` stays set once it is, if
     the lists are clear of each other, which can be seen from them alone, or else if the
     copies cannot lead astray when a deploy begins; `starts` says where in the trace that is.
     */
    method Run(ops: seq<Op>) returns (ghost starts: seq<nat>)
      requires Valid()
      modifies this`t, this`trace
      ensures Valid() && old(trace) <= trace && |starts| == |ops|
      ensures RunReady(site, old(t), ops, 0, faulty) && ListsClear(ops, faulty) ==> GoodFrom(old(t), |old(trace)|)
      ensures RunReady(site, old(t), ops, 0, faulty) && ClearStarts(site, ops, trace, starts, faulty) ==>
                GoodFrom(old(t), |old(trace)|)
    {
      hide RunSoFar, StepDid, RunReady, ClearStarts, GoodSince, ListsClear, WellFormed;
      ghost var start, n := t, |trace|;
      starts := [];
      var k := 0;
      RunBegins(site, ops, t, trace, faulty);
      while k < |ops|
        invariant 0 <= k <= |ops| && |starts| == k
        invariant Valid() && old(trace) <= trace
        invariant RunSoFar(site, ops, start, n, t, trace, starts, k, faulty)
      {
        ghost var u, before, early := t, trace, starts;
        Step(ops, k);
        NextRun(site, ops, start, n, u, before, early, t, trace, k, faulty);
        starts := early + [|before| - 1];
        k := k + 1;
      }
      RunEnds(site, ops, start, n, t, trace, starts, faulty);
    }
  }
}
