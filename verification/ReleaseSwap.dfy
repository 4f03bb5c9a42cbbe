/**
 From the swap on: the atomic replacement of `current`, the compatibility link public/ and
 the prune of old releases. `current` and the new release are never touched again.
 */
module ReleaseSwap {
  import opened Wrappers
  import opened FileSystem
  import opened PathTracks
  import opened TreeOps
  import opened Retention
  import opened ReleaseTrees
  import opened ReleaseLinks
  import opened ReleaseRounds
  import opened ReleaseLists
  import opened ReleaseCopy
  import opened ReleasePhases

  // ---------------------------------------------------------------- calls

  /** `rename` of something that is no directory; it replaces what is not a directory. */
  predicate CanRename(t: Tree, p: seq<Comp>, q: seq<Comp>) {
    var a, b := Spot(t, p), Spot(t, q);
    a.Some? && b.Some? && a.value in t && !t[a.value].Dir? && !IsDir(t, b.value)
  }

  function Rename(t: Tree, p: seq<Comp>, q: seq<Comp>): Tree
    requires CanRename(t, p, q)
  {
    (t - {Spot(t, p).value})[Spot(t, q).value := t[Spot(t, p).value]]
  }

  lemma PutNode(t: Tree, p: Path, node: Node)
    requires WellFormed(t) && p != [] && IsDir(t, ParentOf(p)) && !IsDir(t, p)
    ensures WellFormed(t[p := node])
  {
    var u := t[p := node];
    forall q | q in u && q != [] ensures IsDir(u, ParentOf(q)) {
      assert IsDir(t, ParentOf(q)) && ParentOf(q) != p;
    }
  }

  lemma RenameKeepsTree(t: Tree, p: seq<Comp>, q: seq<Comp>)
    requires WellFormed(t) && CanRename(t, p, q)
    ensures WellFormed(Rename(t, p, q))
  {
    var a, b := Spot(t, p).value, Spot(t, q).value;
    NothingBelowNonDir(t, a);
    RemoveNode(t, a);
    PutNode(t - {a}, b, t[a]);
  }

  /** `rename` of a directory: only to a free place or over an empty directory, and not into itself. */
  predicate CanMoveDir(t: Tree, p: seq<Comp>, q: seq<Comp>) {
    var a, b := Spot(t, p), Spot(t, q);
    && a.Some? && b.Some? && IsDir(t, a.value) && !(a.value <= b.value)
    && (b.value in t ==> t[b.value].Dir? && EmptyNode(t, b.value))
  }

  function MoveDir(t: Tree, p: seq<Comp>, q: seq<Comp>): Tree
    requires CanMoveDir(t, p, q)
  {
    var a, b := Spot(t, p).value, Spot(t, q).value;
    Plant(t - Subtree(t, a), b, Branch(t, a))
  }

  lemma WithoutSubtree(t: Tree, a: Path)
    requires WellFormed(t) && a != []
    ensures WellFormed(t - Subtree(t, a))
  {
    forall x | x in t - Subtree(t, a) && x != [] ensures IsDir(t - Subtree(t, a), ParentOf(x)) {
      assert a <= ParentOf(x) ==> a <= x;
    }
  }

  lemma OnlyItself(t: Tree, b: Path)
    requires WellFormed(t) && (b in t ==> EmptyNode(t, b) && t[b].Dir?)
    ensures forall x | x in t && b <= x :: x == b
  {
    if b !in t {
      NothingBelowMissing(t, b);
    }
    assert forall x | x in t && b <= x :: x in Subtree(t, b);
  }

  lemma MovedBranch(t: Tree, a: Path, b: Path)
    requires WellFormed(t) && IsDir(t, a) && a != [] && b != [] && IsDir(t, ParentOf(b)) && !(a <= b)
    ensures var rest, u := t - Subtree(t, a), Plant(t - Subtree(t, a), b, Branch(t, a));
            && WellFormed(u) && IsDir(u, b)
            && (forall x | x in t && !(a <= x) && !(b <= x) :: x in u && u[x] == t[x])
            && (forall x | x in u && x !in t :: b <= x)
  {
    var rest := t - Subtree(t, a);
    WithoutSubtree(t, a);
    BranchIsTree(t, a);
    assert ParentOf(b) in rest by { assert a <= ParentOf(b) ==> a <= b; }
    PlantKeepsTree(rest, b, Branch(t, a));
  }

  lemma MoveDirMeaning(t: Tree, p: seq<Comp>, q: seq<Comp>)
    requires WellFormed(t) && CanMoveDir(t, p, q)
    ensures var a, b, u := Spot(t, p).value, Spot(t, q).value, MoveDir(t, p, q);
            && WellFormed(u)
            && (forall x | x in t && !(a <= x) :: x in u && u[x] == t[x])
            && (forall x | x in u && x !in t :: b <= x)
  {
    OnlyItself(t, Spot(t, q).value);
    MovedBranch(t, Spot(t, p).value, Spot(t, q).value);
  }

  // ---------------------------------------------------------------- the swap

  /**
   Trees on the way of a swap: only the temporary link and `current` change, and `current`
   only to the new release.
   */
  ghost predicate SwapStage(site: Path, id: string, s: Tree, u: Tree) {
    && (forall p | p in s && p != TmpLink(site, id) && p != Current(site) :: p in u && u[p] == s[p])
    && (forall p | p in u && p !in s :: p == TmpLink(site, id) || p == Current(site))
    && (Current(site) in s ==> Current(site) in u)
    && (Current(site) in u ==>
          u[Current(site)] == LinkTo(Release(site, id)) || (Current(site) in s && u[Current(site)] == s[Current(site)]))
    && (TmpLink(site, id) in u ==>
          || u[TmpLink(site, id)] == LinkTo(Release(site, id))
          || (TmpLink(site, id) in s && u[TmpLink(site, id)] == s[TmpLink(site, id)]))
  }

  ghost predicate SwapRun(site: Path, id: string, s: Tree, n: nat, t: Tree, trace: seq<Tree>) {
    SwapStage(site, id, s, t) && forall i | n <= i < |trace| :: SwapStage(site, id, s, trace[i])
  }

  ghost predicate Swapping(site: Path, id: string, s: Tree, n: nat, t: Tree, trace: seq<Tree>) {
    IsDir(s, site) && SwapRun(site, id, s, n, t, trace)
  }

  lemma SwappingStep(site: Path, id: string, s: Tree, n: nat, u: Tree, before: seq<Tree>, v: Tree)
    requires Swapping(site, id, s, n, u, before) && SwapStage(site, id, s, v)
    ensures Swapping(site, id, s, n, v, before + [v])
  {
  }

  ghost predicate CurrentKept(site: Path, s: Tree, u: Tree) {
    (Current(site) in u <==> Current(site) in s) && (Current(site) in s ==> u[Current(site)] == s[Current(site)])
  }

  lemma SwapBegins(site: Path, id: string, s: Tree, trace: seq<Tree>)
    requires IsDir(s, site)
    ensures Swapping(site, id, s, |trace|, s, trace) && CurrentKept(site, s, s) && CurrentSince(site, s, trace, |trace|)
  {
  }

  lemma SwapEnds(site: Path, id: string, s: Tree, n: nat, t: Tree, trace: seq<Tree>)
    ensures Swapping(site, id, s, n, t, trace) ==> SwapRun(site, id, s, n, t, trace)
    ensures CurrentKept(site, s, t) ==> (IsDir(t, Current(site)) <==> IsDir(s, Current(site)))
  {
  }

  /** `current` names the new release. */
  ghost predicate Named(site: Path, id: string, t: Tree) {
    Current(site) in t && t[Current(site)] == LinkTo(Release(site, id))
  }

  /** `current` is the same in every tree since step `n`. */
  ghost predicate CurrentSince(site: Path, s: Tree, trace: seq<Tree>, n: nat) {
    forall i | n <= i < |trace| :: CurrentKept(site, s, trace[i])
  }

  lemma SwapKeepsDir(site: Path, id: string, s: Tree, u: Tree, n: string)
    requires SwapStage(site, id, s, u) && IsDir(s, Release(site, n))
    ensures IsDir(u, Release(site, n))
  {
    assert |Release(site, n)| == |site| + 2;
  }

  lemma SwapPoints(site: Path, id: string, s: Tree, u: Tree)
    requires PointsToRelease(site, s) && IsDir(s, Release(site, id)) && SwapStage(site, id, s, u)
    ensures PointsToRelease(site, u) && IsDir(u, Release(site, id))
  {
    SwapKeepsDir(site, id, s, u, id);
    if IsLink(u, Current(site)) && u[Current(site)] != LinkTo(Release(site, id)) {
      var x :| s[Current(site)] == LinkTo(Release(site, x)) && IsDir(s, Release(site, x));
      SwapKeepsDir(site, id, s, u, x);
    }
  }

  lemma SwapNoNewLinks(site: Path, id: string, s: Tree, u: Tree)
    requires SwapStage(site, id, s, u)
    ensures NoNewLinks(site, s, u)
  {
    assert Shared(site)[|site|] == "shared" && Current(site)[|site|] == "current";
    assert TmpLink(site, id)[|site|][0] == 'c';
  }

  lemma SwapPlace(site: Path, id: string, s: Tree, u: Tree, p: Path)
    requires SwapStage(site, id, s, u)
    requires |p| != |site| + 1 || p[|site|] in {"releases", "shared"}
    ensures p in u <==> p in s
    ensures p in s ==> u[p] == s[p]
  {
    assert Current(site)[|site|] == "current" && TmpLink(site, id)[|site|][0] == 'c';
  }

  lemma SwapStaysLaid(site: Path, id: string, s: Tree, u: Tree)
    requires Laid(site, s) && SwapStage(site, id, s, u) && WellFormed(u)
    ensures Laid(site, u)
  {
    SwapPlace(site, id, s, u, site);
    SwapPlace(site, id, s, u, Releases(site));
    SwapPlace(site, id, s, u, Shared(site));
    forall n ensures !IsLink(u, Release(site, n)) {
      SwapPlace(site, id, s, u, Release(site, n));
    }
  }

  /** Every tree on the way of a swap is good if the release swapped in is there. */
  lemma SwapStaysGood(site: Path, id: string, s: Tree, u: Tree)
    requires Good(site, s) && IsDir(s, Release(site, id)) && SwapStage(site, id, s, u) && WellFormed(u)
    ensures Good(site, u) && IsDir(u, Release(site, id))
  {
    SwapPoints(site, id, s, u);
    SwapStaysLaid(site, id, s, u);
  }

  lemma SiteSpot(site: Path, t: Tree, name: string)
    requires WellFormed(t) && IsDir(t, site)
    ensures Spot(t, Names(site + [name])) == Some(site + [name])
    ensures LinkFreeAbove(t, site + [name])
  {
    assert ParentOf(site + [name]) == site;
    DirsAreLinkFree(t, site + [name]);
    SpotLinkFree(t, site + [name]);
  }

  lemma SwapSpots(site: Path, id: string, s: Tree, u: Tree)
    requires IsDir(s, site) && SwapStage(site, id, s, u) && WellFormed(u)
    ensures Spot(u, Names(TmpLink(site, id))) == Some(TmpLink(site, id))
    ensures Spot(u, Names(Current(site))) == Some(Current(site))
    ensures TmpLink(site, id) != Current(site)
  {
    assert |site| < |Current(site)| == |TmpLink(site, id)|;
    SiteSpot(site, u, "current.tmp." + id);
    SiteSpot(site, u, "current");
    NamesDiffer(site, id, id);
  }

  lemma SwapTmpRemoved(site: Path, id: string, s: Tree, u: Tree)
    requires IsDir(s, site) && SwapStage(site, id, s, u) && WellFormed(u)
    ensures var v := RemoveFile(u, Names(TmpLink(site, id)));
            && SwapStage(site, id, s, v) && CurrentKept(site, u, v)
            && (if IsDir(u, TmpLink(site, id)) then v == u else TmpLink(site, id) !in v)
  {
    hide Spot, Resolve, WellFormed;
    SwapSpots(site, id, s, u);
  }

  lemma SwapTmpMade(site: Path, id: string, s: Tree, u: Tree)
    requires IsDir(s, site) && SwapStage(site, id, s, u) && WellFormed(u)
    ensures Spot(u, Names(TmpLink(site, id))) == Some(TmpLink(site, id))
    ensures var v := Symlink(u, LinkTo(Release(site, id)), Names(TmpLink(site, id)));
            && SwapStage(site, id, s, v) && CurrentKept(site, u, v)
            && (TmpLink(site, id) !in u ==> TmpLink(site, id) in v && v[TmpLink(site, id)] == LinkTo(Release(site, id)))
  {
    hide Spot, Resolve, WellFormed;
    SwapSpots(site, id, s, u);
  }

  lemma SwapRenamed(site: Path, id: string, s: Tree, u: Tree)
    requires IsDir(s, site) && SwapStage(site, id, s, u) && WellFormed(u)
    requires TmpLink(site, id) in u && u[TmpLink(site, id)] == LinkTo(Release(site, id))
    ensures CanRename(u, Names(TmpLink(site, id)), Names(Current(site))) <==> !IsDir(u, Current(site))
    ensures !IsDir(u, Current(site)) ==>
              var v := Rename(u, Names(TmpLink(site, id)), Names(Current(site)));
              && SwapStage(site, id, s, v) && TmpLink(site, id) !in v
              && Current(site) in v && v[Current(site)] == LinkTo(Release(site, id))
  {
    hide Spot, Resolve, WellFormed;
    SwapSpots(site, id, s, u);
  }

  // ---------------------------------------------------------------- public/

  function PublicTarget(site: Path): Path { site + ["current", "public"] }

  /** public/ is the compatibility link. */
  predicate PublicLeads(site: Path, t: Tree) {
    IsLink(t, Public(site)) && LeadsTo(t[Public(site)], PublicTarget(site))
  }

  /** public/ is a real directory that cannot be moved to the backup. */
  predicate PublicStuck(site: Path, t: Tree) {
    IsDir(t, Public(site)) && !CanMoveDir(t, Names(Public(site)), Names(Backup(site)))
  }

  /** Nothing outside public/ is lost or changed, and nothing appears but there and in the backup. */
  ghost predicate PublicStage(site: Path, s: Tree, u: Tree) {
    && (forall p | p in s && !(Public(site) <= p) :: p in u && u[p] == s[p])
    && (forall p | p in u && p !in s :: Public(site) <= p || Backup(site) <= p)
  }

  ghost predicate PublicRun(site: Path, s: Tree, n: nat, t: Tree, trace: seq<Tree>) {
    PublicStage(site, s, t) && forall i | n <= i < |trace| :: PublicStage(site, s, trace[i])
  }

  lemma PublicApart(site: Path, n: string)
    ensures var pub, bak := Public(site), Backup(site);
            && !(pub <= site) && !(pub <= Releases(site)) && !(pub <= Shared(site)) && !(pub <= Current(site))
            && !(pub <= Release(site, n)) && !(bak <= Release(site, n))
            && !(bak <= site) && !(bak <= Releases(site)) && !(bak <= Shared(site)) && !(bak <= Current(site))
            && !(pub <= bak) && ParentOf(bak) == Shared(site)
  {
    assert Public(site)[|site|] == "public" && Backup(site)[|site|] == "shared";
    assert Release(site, n)[|site|] == "releases";
    assert Releases(site)[|site|] == "releases" && Shared(site)[|site|] == "shared"
           && Current(site)[|site|] == "current";
  }

  lemma PublicKeepsReleases(site: Path, s: Tree, u: Tree, n: string)
    requires PublicStage(site, s, u)
    ensures Release(site, n) in u <==> Release(site, n) in s
    ensures Release(site, n) in s ==> u[Release(site, n)] == s[Release(site, n)]
  {
    PublicApart(site, n);
  }

  lemma PublicStaysLaid(site: Path, s: Tree, u: Tree)
    requires Laid(site, s) && PublicStage(site, s, u) && WellFormed(u)
    ensures Laid(site, u)
    ensures Current(site) in u <==> Current(site) in s
    ensures Current(site) in s ==> u[Current(site)] == s[Current(site)]
  {
    PublicApart(site, "");
    forall n ensures !IsLink(u, Release(site, n)) {
      PublicKeepsReleases(site, s, u, n);
    }
  }

  lemma PublicStaysGood(site: Path, s: Tree, u: Tree)
    requires Good(site, s) && PublicStage(site, s, u) && WellFormed(u)
    ensures Good(site, u)
  {
    PublicStaysLaid(site, s, u);
    if IsLink(u, Current(site)) {
      var x :| s[Current(site)] == LinkTo(Release(site, x)) && IsDir(s, Release(site, x));
      PublicKeepsReleases(site, s, u, x);
    }
  }

  /** A public/ that is removed, or moved to the backup, or made a link. */
  lemma PublicRemoved(site: Path, s: Tree, u: Tree)
    requires IsDir(s, site) && PublicStage(site, s, u) && WellFormed(u)
    ensures PublicStage(site, s, RemoveFile(u, Names(Public(site))))
    ensures !IsDir(u, Public(site)) ==> Public(site) !in RemoveFile(u, Names(Public(site)))
  {
    hide Spot, Resolve, WellFormed;
    SiteSpot(site, u, "public");
  }

  lemma PublicLinked(site: Path, s: Tree, u: Tree)
    requires IsDir(s, site) && PublicStage(site, s, u) && WellFormed(u)
    ensures PublicStage(site, s, Symlink(u, LinkTo(PublicTarget(site)), Names(Public(site))))
    ensures Public(site) !in u ==> PublicLeads(site, Symlink(u, LinkTo(PublicTarget(site)), Names(Public(site))))
    ensures Spot(u, Names(Public(site))) == Some(Public(site))
  {
    hide Spot, Resolve, WellFormed, Spells;
    SpellsNames(PublicTarget(site));
    SiteSpot(site, u, "public");
  }

  /** releases/ and shared/ are reached without links. */
  lemma LaidPlaces(site: Path, t: Tree)
    requires Laid(site, t)
    ensures LinkFreeAbove(t, Releases(site)) && LinkFreeAbove(t, Shared(site))
    ensures IsDirAt(t, Names(Releases(site))) <==> IsDir(t, Releases(site))
    ensures IsDirAt(t, Names(Shared(site))) <==> IsDir(t, Shared(site))
  {
    assert ParentOf(Releases(site)) == site && ParentOf(Shared(site)) == site;
    DirsAreLinkFree(t, Releases(site));
    DirsAreLinkFree(t, Shared(site));
    ResolveLinkFree(t, Releases(site));
    ResolveLinkFree(t, Shared(site));
  }

  lemma BackupSpot(site: Path, u: Tree)
    requires Laid(site, u)
    ensures Spot(u, Names(Backup(site))) in {None, Some(Backup(site))}
  {
    PublicApart(site, "");
    LaidPlaces(site, u);
    var b := Backup(site);
    forall i | 0 <= i < |b| ensures !IsLink(u, b[..i]) {
      if i < |b| - 1 {
        assert b[..i] == Shared(site)[..i];
      } else {
        assert b[..i] == Shared(site);
      }
    }
    SpotLinkFree(u, b);
  }

  lemma PublicMoved(site: Path, s: Tree)
    requires Laid(site, s) && CanMoveDir(s, Names(Public(site)), Names(Backup(site)))
    ensures PublicStage(site, s, MoveDir(s, Names(Public(site)), Names(Backup(site))))
    ensures Public(site) !in MoveDir(s, Names(Public(site)), Names(Backup(site)))
    ensures Branch(MoveDir(s, Names(Public(site)), Names(Backup(site))), Backup(site)) == Branch(s, Public(site))
  {
    PublicApart(site, "");
    SiteSpot(site, s, "public");
    BackupSpot(site, s);
    MoveDirMeaning(s, Names(Public(site)), Names(Backup(site)));
    MovedAway(s, Public(site), Backup(site));
    MovedArrives(s, Public(site), Backup(site));
  }

  lemma MovedArrives(t: Tree, a: Path, b: Path)
    requires WellFormed(t) && IsDir(t, a) && a != [] && b != [] && IsDir(t, ParentOf(b)) && !(a <= b)
    ensures Branch(Plant(t - Subtree(t, a), b, Branch(t, a)), b) == Branch(t, a)
  {
    hide Plant, WellFormed;
    WithoutSubtree(t, a);
    BranchIsTree(t, a);
    assert ParentOf(b) in t - Subtree(t, a) by { assert a <= ParentOf(b) ==> a <= b; }
    PlantContents(t - Subtree(t, a), b, Branch(t, a));
  }

  lemma BackupApart(site: Path, u: Tree, link: Node)
    requires Spot(u, Names(Public(site))) == Some(Public(site))
    ensures Branch(Symlink(u, link, Names(Public(site))), Backup(site)) == Branch(u, Backup(site))
  {
    var t, b := Symlink(u, link, Names(Public(site))), Backup(site);
    forall k ensures b + k in t <==> b + k in u
      ensures b + k in u ==> t[b + k] == u[b + k]
    {
      assert (b + k)[|site|] == "shared" && Public(site)[|site|] == "public";
    }
  }

  lemma MovedAway(t: Tree, a: Path, b: Path)
    requires !(b <= a)
    ensures a !in Plant(t - Subtree(t, a), b, Branch(t, a))
  {
    assert a in t ==> a in Subtree(t, a);
  }

  lemma PublicQuestions(site: Path, t: Tree)
    requires Laid(site, t)
    ensures Spot(t, Names(Public(site))) == Some(Public(site))
    ensures IsDirAt(t, Names(Public(site))) && !IsSymlink(t, Names(Public(site))) <==> IsDir(t, Public(site))
  {
    SiteSpot(site, t, "public");
    if !IsLink(t, Public(site)) {
      ResolveLinkFree(t, Public(site));
    }
  }

  /** No entry lies in the backup of public/. */
  predicate OutsideBackup(o: Path) {
    o == [] || o[0] != BACKUP_NAME
  }

  /** Under shared/, but for the backup of public/, ways are as passable as they were. */
  ghost predicate TameOutside(site: Path, s: Tree, t: Tree) {
    forall o | OutsideBackup(o) && SharedTame(site, s, o) :: SharedTame(site, t, o)
  }

  lemma PublicKeepsTame(site: Path, s: Tree, u: Tree)
    requires PublicStage(site, s, u)
    ensures TameOutside(site, s, u)
  {
    forall o | OutsideBackup(o) && SharedTame(site, s, o) ensures SharedTame(site, u, o) {
      forall i | 0 < i <= |o| && IsLink(u, InShared(site, o[..i]))
        ensures LeadsTo(u[InShared(site, o[..i])], InShared(site, o[..i]))
      {
        var q := InShared(site, o[..i]);
        assert q[|site|] == "shared" && q[|site| + 1] == o[0];
        assert Public(site)[|site|] == "public" && Backup(site)[|site| + 1] == BACKUP_NAME;
      }
    }
  }

  // ---------------------------------------------------------------- the prune

  /** Nodes of doomed releases were removed, nothing else. */
  ghost predicate PruneStage(site: Path, doomed: set<string>, s: Tree, u: Tree) {
    && (forall p | p in u :: p in s && u[p] == s[p])
    && (forall p | p in s && p !in u :: InDoomed(site, doomed, p))
  }

  predicate InDoomed(site: Path, doomed: set<string>, p: Path) {
    |p| >= |site| + 2 && Releases(site) <= p && p[|site| + 1] in doomed
  }

  ghost predicate PruneRun(site: Path, doomed: set<string>, s: Tree, n: nat, t: Tree, trace: seq<Tree>) {
    PruneStage(site, doomed, s, t) && forall i | n <= i < |trace| :: PruneStage(site, doomed, s, trace[i])
  }

  lemma ReleaseIn(site: Path, id: string, p: Path)
    requires Release(site, id) <= p
    ensures |p| >= |site| + 2 && Releases(site) <= p && p[|site| + 1] == id
  {
    assert Release(site, id)[..|site| + 1] == Releases(site);
  }

  lemma PruneNext(site: Path, doomed: set<string>, s: Tree, u: Tree, v: Tree, id: string)
    requires PruneStage(site, doomed, s, u) && Pruned(u, v, Release(site, id)) && id in doomed
    ensures PruneStage(site, doomed, s, v)
  {
    forall p | p in s && p !in v ensures InDoomed(site, doomed, p) {
      if p in u {
        assert Release(site, id) <= p;
        ReleaseIn(site, id, p);
      }
    }
  }

  lemma PruneRunNext(site: Path, doomed: set<string>, s: Tree, n: nat, u: Tree, before: seq<Tree>, t: Tree,
      trace: seq<Tree>, id: string)
    requires PruneRun(site, doomed, s, n, u, before) && before <= trace && id in doomed
    requires Pruned(u, t, Release(site, id)) && PrunedSince(u, trace, |before|, Release(site, id))
    ensures PruneRun(site, doomed, s, n, t, trace)
  {
    PruneNext(site, doomed, s, u, t, id);
    forall i | n <= i < |trace| ensures PruneStage(site, doomed, s, trace[i]) {
      if i < |before| {
        assert trace[i] == before[i];
      } else {
        PruneNext(site, doomed, s, u, trace[i], id);
      }
    }
  }

  lemma PruneKeeps(site: Path, doomed: set<string>, s: Tree, u: Tree, p: Path)
    requires PruneStage(site, doomed, s, u) && !InDoomed(site, doomed, p)
    ensures p in u <==> p in s
    ensures p in s ==> u[p] == s[p]
  {
  }

  lemma PruneStaysLaid(site: Path, doomed: set<string>, s: Tree, u: Tree)
    requires Laid(site, s) && PruneStage(site, doomed, s, u) && WellFormed(u)
    ensures Laid(site, u)
  {
    PruneKeeps(site, doomed, s, u, site);
  }

  lemma PruneStaysGood(site: Path, doomed: set<string>, s: Tree, u: Tree, id: string)
    requires Good(site, s) && PruneStage(site, doomed, s, u) && WellFormed(u)
    requires Current(site) in s && s[Current(site)] == LinkTo(Release(site, id)) && IsDir(s, Release(site, id))
               && id !in doomed
    ensures Good(site, u) && NoNewLinks(site, s, u)
    ensures Current(site) in u && u[Current(site)] == LinkTo(Release(site, id)) && IsDir(u, Release(site, id))
  {
    PruneStaysLaid(site, doomed, s, u);
    PruneKeeps(site, doomed, s, u, site);
    PruneKeeps(site, doomed, s, u, Current(site));
    PruneKeeps(site, doomed, s, u, Release(site, id));
  }

  function Doomed(names: set<string>, keep: nat): set<string> {
    names - Survivors(names, keep)
  }

  // ---------------------------------------------------------------- from the swap to the end

  ghost predicate Active(site: Path, id: string, t: Tree) {
    && Good(site, t) && Current(site) in t && t[Current(site)] == LinkTo(Release(site, id))
    && IsDir(t, Release(site, id))
  }

  predicate InReleases(site: Path, p: Path) {
    site < p && p[|site|] == "releases"
  }

  predicate InStore(site: Path, p: Path) {
    site < p && p[|site|] in {"releases", "shared"}
  }

  /**
   Under releases/ and shared/ nothing is lost or changed but doomed releases; nothing is
   new but the backup of public/.
   */
  ghost predicate Settled(site: Path, doomed: set<string>, s: Tree, t: Tree) {
    && (forall p | p in s && InStore(site, p) :: InDoomed(site, doomed, p) || (p in t && t[p] == s[p]))
    && (forall p | p in t && InReleases(site, p) :: p in s)
    && (forall p | p in t && Shared(site) < p && p !in s :: Backup(site) <= p)
  }

  lemma SwapSettles(site: Path, id: string, doomed: set<string>, s: Tree, t: Tree)
    requires SwapStage(site, id, s, t)
    ensures Settled(site, doomed, s, t)
  {
    assert Current(site)[|site|] == "current" && TmpLink(site, id)[|site|][0] == 'c';
  }

  lemma PublicSettles(site: Path, doomed: set<string>, s: Tree, t: Tree)
    requires PublicStage(site, s, t)
    ensures Settled(site, doomed, s, t)
  {
    assert Public(site)[|site|] == "public" && Backup(site)[|site|] == "shared";
  }

  lemma SettledTransitive(site: Path, doomed: set<string>, a: Tree, b: Tree, c: Tree)
    requires Settled(site, doomed, a, b) && Settled(site, doomed, b, c)
    ensures Settled(site, doomed, a, c)
  {
  }

  lemma SettledRelease(site: Path, doomed: set<string>, s: Tree, t: Tree, n: string)
    requires Settled(site, doomed, s, t) && n !in doomed
    ensures Branch(t, Release(site, n)) == Branch(s, Release(site, n))
    ensures IsDir(t, Release(site, n)) <==> IsDir(s, Release(site, n))
  {
    var r := Release(site, n);
    forall k ensures r + k in t <==> r + k in s
      ensures r + k in s ==> t[r + k] == s[r + k]
    {
      var p := r + k;
      assert p[|site|] == "releases" && p[|site| + 1] == n;
    }
    assert r + [] == r;
  }

  lemma SettledLink(site: Path, doomed: set<string>, s: Tree, t: Tree, id: string, e: Path)
    requires Settled(site, doomed, s, t) && id !in doomed && HasLink(site, id, s, e)
    ensures HasLink(site, id, t, e)
  {
    var p := InRelease(site, id, e);
    assert p[|site|] == "releases" && p[|site| + 1] == id;
  }

  lemma SettledNames(site: Path, doomed: set<string>, s: Tree, t: Tree)
    requires Settled(site, doomed, s, t)
    ensures ReleaseNames(site, s) - doomed <= ReleaseNames(site, t)
    ensures (forall d | d in doomed :: Release(site, d) !in t) ==>
              ReleaseNames(site, t) == ReleaseNames(site, s) - doomed
  {
    ReleaseNamesMeaning(site, s);
    ReleaseNamesMeaning(site, t);
    forall n | n !in doomed ensures n in ReleaseNames(site, t) <==> n in ReleaseNames(site, s) {
      SettledRelease(site, doomed, s, t, n);
    }
  }

  lemma PublicKeepsNames(site: Path, s: Tree, u: Tree)
    requires PublicStage(site, s, u)
    ensures ReleaseNames(site, u) == ReleaseNames(site, s)
  {
    ReleaseNamesMeaning(site, s);
    ReleaseNamesMeaning(site, u);
    forall n ensures n in ReleaseNames(site, u) <==> n in ReleaseNames(site, s) {
      PublicKeepsReleases(site, s, u, n);
    }
  }

  lemma SwapKeepsNames(site: Path, id: string, s: Tree, u: Tree)
    requires SwapStage(site, id, s, u)
    ensures ReleaseNames(site, u) == ReleaseNames(site, s)
  {
    ReleaseNamesMeaning(site, s);
    ReleaseNamesMeaning(site, u);
    forall n ensures n in ReleaseNames(site, u) <==> n in ReleaseNames(site, s) {
      SwapPlace(site, id, s, u, Release(site, n));
    }
  }

  lemma CalmNames(site: Path, id: string, lost: set<Path>, s: Tree, u: Tree)
    requires Calm(site, id, lost, s, u) && IsDir(u, Release(site, id))
    ensures ReleaseNames(site, u) == ReleaseNames(site, s) + {id}
  {
    ReleaseNamesMeaning(site, s);
    ReleaseNamesMeaning(site, u);
    forall n ensures n in ReleaseNames(site, u) <==> n in ReleaseNames(site, s) + {id} {
      if n != id {
        CalmKeepsReleases(site, id, lost, s, u, n);
      }
    }
  }

  /** The newest release survives the prune exactly when one is kept; asked to keep none, a deploy deletes itself. */
  lemma NewestSurvives(names: set<string>, id: string, keep: nat)
    requires id in names && forall n | n in names && n != id :: Less(n, id)
    ensures id !in Doomed(names, keep) <==> keep >= 1
  {
    forall m | m in Above(names, id) ensures false {
      LessTotal(m, id);
    }
    assert Above(names, id) == {};
  }

  // ---------------------------------------------------------------- runs

  lemma SwapRunIsGood(site: Path, id: string, s: Tree, n: nat, t: Tree, trace: seq<Tree>)
    requires Good(site, s) && IsDir(s, Release(site, id)) && SwapRun(site, id, s, n, t, trace)
    requires WellFormed(t) && forall i | 0 <= i < |trace| :: WellFormed(trace[i])
    ensures Good(site, t) && IsDir(t, Release(site, id)) && StaysSet(site, s, t) && GoodSince(site, s, trace, n)
  {
    SwapStaysGood(site, id, s, t);
    forall i | n <= i < |trace| ensures Good(site, trace[i]) && StaysSet(site, s, trace[i]) {
      SwapStaysGood(site, id, s, trace[i]);
    }
  }

  lemma PublicRunIsGood(site: Path, s: Tree, n: nat, t: Tree, trace: seq<Tree>)
    requires Good(site, s) && PublicRun(site, s, n, t, trace)
    requires WellFormed(t) && forall i | 0 <= i < |trace| :: WellFormed(trace[i])
    ensures Good(site, t) && StaysSet(site, s, t) && GoodSince(site, s, trace, n)
  {
    PublicStaysGood(site, s, t);
    PublicStaysLaid(site, s, t);
    forall i | n <= i < |trace| ensures Good(site, trace[i]) && StaysSet(site, s, trace[i]) {
      PublicStaysGood(site, s, trace[i]);
      PublicStaysLaid(site, s, trace[i]);
    }
  }

  lemma PruneRunIsGood(site: Path, doomed: set<string>, s: Tree, n: nat, t: Tree, trace: seq<Tree>, id: string)
    requires Active(site, id, s) && id !in doomed && PruneRun(site, doomed, s, n, t, trace)
    requires WellFormed(t) && forall i | 0 <= i < |trace| :: WellFormed(trace[i])
    ensures Active(site, id, t) && GoodSince(site, s, trace, n)
  {
    PruneStaysGood(site, doomed, s, t, id);
    forall i | n <= i < |trace| ensures Good(site, trace[i]) && StaysSet(site, s, trace[i]) {
      PruneStaysGood(site, doomed, s, trace[i], id);
    }
  }

  lemma GoodSinceExtended(site: Path, start: Tree, before: seq<Tree>, middle: Tree, trace: seq<Tree>, n: nat)
    requires n <= |before| && before <= trace && GoodSince(site, start, before, n)
    requires StaysSet(site, start, middle) && GoodSince(site, middle, trace, |before|)
    ensures GoodSince(site, start, trace, n)
  {
    forall i | n <= i < |trace| ensures Good(site, trace[i]) && StaysSet(site, start, trace[i]) {
      if i < |before| {
        assert trace[i] == before[i];
      }
    }
  }

  /** A failed swap leaves at most the temporary link behind. */
  lemma FailedSwapIsCalm(site: Path, id: string, lost: set<Path>, start: Tree, s: Tree, t: Tree)
    requires Calm(site, id, lost, start, s) && SwapStage(site, id, s, t)
    requires Current(site) in t <==> Current(site) in s
    requires Current(site) in s ==> t[Current(site)] == s[Current(site)]
    ensures Calm(site, id, lost, start, t)
  {
    SwapPlace(site, id, s, t, Releases(site));
    SwapPlace(site, id, s, t, Shared(site));
    SwapPlace(site, id, s, t, Release(site, id));
    forall p | p in start
      ensures Release(site, id) <= p || p == TmpLink(site, id) || Lost(site, lost, p) || KeptNode(site, start, t, p)
    {
      assert Release(site, id) <= p || p == TmpLink(site, id) || Lost(site, lost, p) || KeptNode(site, start, s, p);
    }
  }

  lemma PruneSettles(site: Path, doomed: set<string>, s: Tree, t: Tree)
    requires PruneStage(site, doomed, s, t)
    ensures Settled(site, doomed, s, t)
  {
  }

  lemma DoomedByRank(site: Path, s: Tree, sorted: seq<string>, keep: nat, i: nat)
    requires Ascending(sorted) && Elements(sorted) == ReleaseNames(site, s) && i < |sorted| - keep
    ensures sorted[i] in Doomed(ReleaseNames(site, s), keep) && IsDir(s, Release(site, sorted[i]))
  {
    SurvivesByRank(sorted, keep);
    ReleaseNamesMeaning(site, s);
  }

  lemma DoomedAreFirst(sorted: seq<string>, keep: nat)
    requires Ascending(sorted)
    ensures forall d | d in Doomed(Elements(sorted), keep) :: exists k :: 0 <= k < |sorted| - keep && sorted[k] == d
  {
    SurvivesByRank(sorted, keep);
    forall d | d in Doomed(Elements(sorted), keep) ensures exists k :: 0 <= k < |sorted| - keep && sorted[k] == d {
      var k :| 0 <= k < |sorted| && sorted[k] == d;
    }
  }

  lemma PrunableAt(site: Path, doomed: set<string>, s: Tree, u: Tree, n: string)
    requires WellFormed(s) && IsDir(s, Release(site, n)) && PruneStage(site, doomed, s, u)
    ensures IsDir(u, ParentOf(Release(site, n)))
    ensures Release(site, n) in u ==> u[Release(site, n)].Dir?
  {
    assert ParentOf(Release(site, n)) == Releases(site);
    PruneKeeps(site, doomed, s, u, Releases(site));
  }

  ghost predicate RemovesDoomed(site: Path, s: Tree, sorted: seq<string>, toRemove: nat, keep: nat) {
    && WellFormed(s) && Ascending(sorted) && Elements(sorted) == ReleaseNames(site, s)
    && toRemove == if |sorted| > keep then |sorted| - keep else 0
  }

  ghost predicate FirstGone(site: Path, sorted: seq<string>, k: nat, t: Tree)
    requires k <= |sorted|
  {
    forall j | 0 <= j < k :: Release(site, sorted[j]) !in t
  }

  lemma FirstGoneNext(site: Path, sorted: seq<string>, k: nat, u: Tree, t: Tree)
    requires k < |sorted| && FirstGone(site, sorted, k, u) && t.Keys <= u.Keys && Release(site, sorted[k]) !in t
    ensures FirstGone(site, sorted, k + 1, t)
  {
  }

  // ---------------------------------------------------------------- what a deploy achieves

  /** The new id is greater than every release there is, and at least one release is kept. */
  ghost predicate KeepsNewest(site: Path, t: Tree, id: string, keep: nat) {
    keep >= 1 && forall n | n in ReleaseNames(site, t) :: Less(n, id)
  }

  /** Under shared/ nothing is lost or changed but what nested entries give up. */
  ghost predicate SharedKept(site: Path, lost: set<Path>, start: Tree, t: Tree) {
    forall p | p in start && Shared(site) < p :: Lost(site, lost, p) || KeptNode(site, start, t, p)
  }

  ghost predicate SurvivorsKept(site: Path, id: string, doomed: set<string>, start: Tree, t: Tree) {
    forall n | n != id && n !in doomed :: Branch(t, Release(site, n)) == Branch(start, Release(site, n))
  }

  /**
   A deploy that succeeded: `current` is the new release; under shared/ nothing is lost or
   changed but what nested entries give up; the `keep` newest releases are left, the older
   ones among them as they were, and no other release if no deletion failed.
   */
  ghost predicate Deployed(site: Path, id: string, keep: nat, lost: set<Path>, start: Tree, t: Tree, faulty: bool) {
    var names := ReleaseNames(site, start) + {id};
    && Active(site, id, t)
    && SharedKept(site, lost, start, t)
    && SurvivorsKept(site, id, Doomed(names, keep), start, t)
    && Survivors(names, keep) <= ReleaseNames(site, t)
    && (!faulty ==> ReleaseNames(site, t) == Survivors(names, keep))
  }

  lemma SharedStaysKept(site: Path, id: string, lost: set<Path>, doomed: set<string>, start: Tree, a: Tree, t: Tree)
    requires Calm(site, id, lost, start, a) && Settled(site, doomed, a, t)
    ensures SharedKept(site, lost, start, t)
  {
    forall p | p in start && Shared(site) < p ensures Lost(site, lost, p) || KeptNode(site, start, t, p) {
      assert p[|site|] == "shared" && Release(site, id)[|site|] == "releases";
      assert TmpLink(site, id)[|site|][0] == 'c';
      assert Lost(site, lost, p) || KeptNode(site, start, a, p);
    }
  }

  lemma SurvivorsStayKept(site: Path, id: string, lost: set<Path>, doomed: set<string>, start: Tree, a: Tree, t: Tree)
    requires Calm(site, id, lost, start, a) && Settled(site, doomed, a, t)
    ensures SurvivorsKept(site, id, doomed, start, t)
  {
    forall n | n != id && n !in doomed ensures Branch(t, Release(site, n)) == Branch(start, Release(site, n)) {
      OlderUnchanged(site, id, lost, start, a, n);
      SettledRelease(site, doomed, a, t, n);
    }
  }

  lemma SurvivorsAreNames(names: set<string>, keep: nat)
    ensures names - Doomed(names, keep) == Survivors(names, keep)
  {
  }

  /** From the built release `a` over the swapped tree `b` to the end. */
  lemma DeployedAtLast(site: Path, id: string, keep: nat, lost: set<Path>, start: Tree, a: Tree, b: Tree, t: Tree,
      faulty: bool)
    requires Calm(site, id, lost, start, a) && IsDir(a, Release(site, id)) && SwapStage(site, id, a, b)
    requires var doomed := Doomed(ReleaseNames(site, b), keep);
             Settled(site, doomed, b, t) && (!faulty ==> forall d | d in doomed :: Release(site, d) !in t)
    requires Active(site, id, t)
    ensures Deployed(site, id, keep, lost, start, t, faulty)
  {
    var names := ReleaseNames(site, start) + {id};
    var doomed := Doomed(names, keep);
    CalmNames(site, id, lost, start, a);
    SwapKeepsNames(site, id, a, b);
    SwapSettles(site, id, doomed, a, b);
    SettledTransitive(site, doomed, a, b, t);
    SharedStaysKept(site, id, lost, doomed, start, a, t);
    SurvivorsStayKept(site, id, lost, doomed, start, a, t);
    SettledNames(site, doomed, b, t);
    SurvivorsAreNames(names, keep);
  }

  lemma NewestKept(site: Path, id: string, keep: nat, lost: set<Path>, start: Tree, a: Tree, b: Tree)
    requires KeepsNewest(site, start, id, keep)
    requires Calm(site, id, lost, start, a) && IsDir(a, Release(site, id)) && SwapStage(site, id, a, b)
    ensures id !in Doomed(ReleaseNames(site, b), keep)
  {
    CalmNames(site, id, lost, start, a);
    SwapKeepsNames(site, id, a, b);
    NewestSurvives(ReleaseNames(site, b), id, keep);
  }

  lemma FinishedWell(site: Path, id: string, keep: nat, s: Tree, n: nat, u: Tree, before: seq<Tree>, t: Tree,
      trace: seq<Tree>)
    requires var doomed := Doomed(ReleaseNames(site, s), keep); Active(site, id, s) && id !in doomed
    requires PublicRun(site, s, n, u, before) && before <= trace && n <= |before|
    requires Laid(site, u) && IsDir(u, Releases(site)) ==>
               PruneRun(site, Doomed(ReleaseNames(site, u), keep), u, |before|, t, trace)
    requires WellFormed(u) && WellFormed(t) && forall i | 0 <= i < |trace| :: WellFormed(trace[i])
    ensures var doomed := Doomed(ReleaseNames(site, s), keep);
            && Active(site, id, t) && GoodSince(site, s, trace, n) && Settled(site, doomed, s, t)
            && ReleaseNames(site, u) == ReleaseNames(site, s) && Good(site, u) && IsDir(u, Releases(site))
            && TameOutside(site, s, t)
  {
    var doomed := Doomed(ReleaseNames(site, s), keep);
    forall i | 0 <= i < |before| ensures WellFormed(before[i]) {
      assert before[i] == trace[i];
    }
    PublicRunIsGood(site, s, n, u, before);
    PublicStaysLaid(site, s, u);
    PublicKeepsReleases(site, s, u, id);
    PublicKeepsNames(site, s, u);
    assert ParentOf(Release(site, id)) == Releases(site);
    PruneRunIsGood(site, doomed, u, |before|, t, trace, id);
    GoodSinceExtended(site, s, before, u, trace, n);
    PublicSettles(site, doomed, s, u);
    PruneSettles(site, doomed, u, t);
    SettledTransitive(site, doomed, s, u, t);
    PublicKeepsTame(site, s, u);
    PruneStaysGood(site, doomed, u, t, id);
    TameKept(site, u, t);
  }

  lemma PruneKeepsPublic(site: Path, doomed: set<string>, u: Tree, t: Tree)
    requires PruneStage(site, doomed, u, t) && PublicLeads(site, u)
    ensures PublicLeads(site, t)
  {
    PruneKeeps(site, doomed, u, t, Public(site));
  }

  // ---------------------------------------------------------------- the contract of a deploy

  datatype Outcome = Succeeded | Failed | Error

  /** The run so far was calm and good; the release, if it is there, is ready to go live. */
  ghost predicate Built(site: Path, id: string, entries: seq<string>, start: Tree, n: nat, a: Tree, trace: seq<Tree>,
      faulty: bool)
  {
    && Calm(site, id, HitPaths(entries), start, a) && KeepsTame(site, entries, faulty, start, a)
    && Good(site, a) && StaysSet(site, start, a) && GoodSince(site, start, trace, n)
  }

  lemma SwappedWell(site: Path, id: string, entries: seq<string>, start: Tree, n: nat, a: Tree, built: seq<Tree>,
      b: Tree, swapped: seq<Tree>, ok: bool, faulty: bool)
    requires Built(site, id, entries, start, n, a, built, faulty) && IsDir(a, Release(site, id))
    requires n <= |built| && built <= swapped
    requires SwapRun(site, id, a, |built|, b, swapped)
    requires if ok then Named(site, id, b) else CurrentKept(site, a, b)
    requires WellFormed(b) && forall i | 0 <= i < |swapped| :: WellFormed(swapped[i])
    ensures GoodSince(site, start, swapped, n) && StaysSet(site, start, b)
    ensures KeepsTame(site, entries, faulty, start, b)
    ensures if ok then Active(site, id, b)
              else Calm(site, id, HitPaths(entries), start, b) && OnlyNew(site, id, start, b)
  {
    SwapRunIsGood(site, id, a, |built|, b, swapped);
    GoodSinceExtended(site, start, built, a, swapped, n);
    SwapNoNewLinks(site, id, a, b);
    TameKept(site, a, b);
    if !ok {
      FailedSwapIsCalm(site, id, HitPaths(entries), start, a, b);
      CalmOnlyNew(site, id, HitPaths(entries), start, b);
    }
  }

  /** What `KeepsTame` says, seen after public/ was moved. */
  ghost predicate TameAfter(site: Path, entries: seq<string>, faulty: bool, start: Tree, t: Tree) {
    forall o | OutsideBackup(o) && SharedTame(site, start, o) && CopySafe(site, start, entries, o, faulty) ::
      SharedTame(site, t, o)
  }

  ghost predicate Live(site: Path, id: string, keep: nat, entries: seq<string>, start: Tree, n: nat, a: Tree,
      t: Tree, trace: seq<Tree>, ok: bool, faulty: bool)
  {
    && GoodSince(site, start, trace, n) && TameAfter(site, entries, faulty, start, t)
    && OnlyNew(site, id, start, t)
    && (if ok then Deployed(site, id, keep, HitPaths(entries), start, t, faulty) && Upheld(site, id, a, t)
        else Calm(site, id, HitPaths(entries), start, t))
  }

  /** The new release and shared/ are as they were when the release was built, but for the backup of public/. */
  ghost predicate Upheld(site: Path, id: string, a: Tree, t: Tree) {
    exists doomed :: Settled(site, doomed, a, t) && id !in doomed
  }

  lemma UpheldFurniture(site: Path, id: string, entries: seq<string>, start: Tree, a: Tree, t: Tree, clone: CloneRun,
      faulty: bool)
    requires Upheld(site, id, a, t) && Furnished(site, id, entries, start, a, clone, faulty)
    ensures Furnished(site, id, entries, start, t, clone, faulty)
  {
    hide Grown, Settled, RepoThere, HasLink, TargetMade, SharedWay, RepoOpen, HitPaths, Separate;
    var doomed :| Settled(site, doomed, a, t) && id !in doomed;
    forall e | HasLink(site, id, a, e) ensures HasLink(site, id, t, e) {
      SettledLink(site, doomed, a, t, id, e);
    }
    SettledRepo(site, doomed, a, t, id, clone.repo, entries);
    forall entry | TargetMade(site, start, a, entry) ensures TargetMade(site, start, t, entry) {
      SettledTarget(site, doomed, start, a, t, entry);
    }
    SettledGrows(site, doomed, a, t, entries);
    GrownTransitive(site, entries, start, a, t);
  }

  lemma SharedNotDoomed(site: Path, doomed: set<string>, p: Path)
    requires Shared(site) <= p
    ensures !InDoomed(site, doomed, p)
  {
    assert p[|site|] == "shared" && Releases(site)[|site|] == "releases";
  }

  lemma SettledGrows(site: Path, doomed: set<string>, s: Tree, t: Tree, entries: seq<string>)
    requires Settled(site, doomed, s, t)
    ensures Grown(site, entries, s, t)
  {
    forall p | p in s && Shared(site) <= p ensures p in t && t[p] == s[p] {
      SharedNotDoomed(site, doomed, p);
    }
  }

  lemma SettledRepo(site: Path, doomed: set<string>, s: Tree, t: Tree, id: string, repo: Tree, entries: seq<string>)
    requires Settled(site, doomed, s, t) && id !in doomed && RepoThere(site, id, repo, entries, s)
    ensures RepoThere(site, id, repo, entries, t)
  {
    forall p | p in repo
      ensures UnderEntry(site, id, entries, Release(site, id) + p)
              || (Release(site, id) + p in t && t[Release(site, id) + p] == repo[p])
    {
      var q := Release(site, id) + p;
      assert q[|site|] == "releases" && q[|site| + 1] == id;
    }
  }

  lemma SettledTarget(site: Path, doomed: set<string>, o: Tree, s: Tree, t: Tree, entry: string)
    requires Settled(site, doomed, s, t) && TargetMade(site, o, s, entry)
    ensures TargetMade(site, o, t, entry)
  {
    assert InShared(site, EntryPath(entry))[|site|] == "shared";
  }

  lemma TameAtLast(site: Path, entries: seq<string>, faulty: bool, start: Tree, b: Tree, t: Tree)
    requires KeepsTame(site, entries, faulty, start, b) && TameOutside(site, b, t)
    ensures TameAfter(site, entries, faulty, start, t)
  {
  }

  lemma LiveAtLast(site: Path, id: string, keep: nat, entries: seq<string>, start: Tree, n: nat, a: Tree, b: Tree,
      swapped: seq<Tree>, t: Tree, trace: seq<Tree>, faulty: bool)
    requires Calm(site, id, HitPaths(entries), start, a) && IsDir(a, Release(site, id)) && SwapStage(site, id, a, b)
    requires n <= |swapped| && swapped <= trace && GoodSince(site, start, swapped, n)
    requires StaysSet(site, start, b) && GoodSince(site, b, trace, |swapped|)
    requires var doomed := Doomed(ReleaseNames(site, b), keep);
             && id !in doomed && Settled(site, doomed, b, t)
             && (!faulty ==> forall d | d in doomed :: Release(site, d) !in t)
    requires Active(site, id, t) && KeepsTame(site, entries, faulty, start, b) && TameOutside(site, b, t)
    ensures Live(site, id, keep, entries, start, n, a, t, trace, true, faulty)
  {
    hide Calm, KeepsTame, TameOutside, TameAfter;
    TameAtLast(site, entries, faulty, start, b, t);
    var doomed := Doomed(ReleaseNames(site, b), keep);
    DeployedAtLast(site, id, keep, HitPaths(entries), start, a, b, t, faulty);
    GoodSinceExtended(site, start, swapped, b, trace, n);
    SwapSettles(site, id, doomed, a, b);
    SettledTransitive(site, doomed, a, b, t);
    CalmOnlyNew(site, id, HitPaths(entries), start, a);
    SettledOnlyNew(site, id, doomed, start, a, t);
  }

  /** No release but the new one is there that was not there before. */
  ghost predicate OnlyNew(site: Path, id: string, start: Tree, t: Tree) {
    forall n | Release(site, n) in t :: n == id || Release(site, n) in start
  }

  lemma CalmOnlyNew(site: Path, id: string, lost: set<Path>, start: Tree, a: Tree)
    requires Calm(site, id, lost, start, a)
    ensures OnlyNew(site, id, start, a)
  {
    forall n | Release(site, n) in a ensures n == id || Release(site, n) in start {
      if n != id {
        CalmKeepsReleases(site, id, lost, start, a, n);
      }
    }
  }

  lemma SettledOnlyNew(site: Path, id: string, doomed: set<string>, start: Tree, a: Tree, t: Tree)
    requires OnlyNew(site, id, start, a) && Settled(site, doomed, a, t)
    ensures OnlyNew(site, id, start, t)
  {
    forall n | Release(site, n) in t ensures n == id || Release(site, n) in start {
      assert Release(site, n)[|site|] == "releases";
    }
  }

  /**
   The end of a deploy whose release is there for the swap: every tree on the way was good;
   a deploy that did not succeed left everything outside the new release as it was, and a
   failed one left no new release; one that succeeded did what `Deployed` and (without a
   script) `Furnished` say.
   */
  ghost predicate DeployEnded(site: Path, id: string, keep: nat, entries: seq<string>, start: Tree, n: nat, t: Tree,
      trace: seq<Tree>, clone: CloneRun, script: Option<Script>, outcome: Outcome, faulty: bool)
  {
    && GoodSince(site, start, trace, n) && TameAfter(site, entries, faulty, start, t)
    && OnlyNew(site, id, start, t)
    && (outcome.Succeeded? ==> Deployed(site, id, keep, HitPaths(entries), start, t, faulty))
    && (!outcome.Succeeded? ==> Calm(site, id, HitPaths(entries), start, t))
    && (outcome.Failed? && !faulty ==> Release(site, id) !in t)
    && (outcome.Succeeded? && !RunsScript(script) ==> Furnished(site, id, entries, start, t, clone, faulty))
  }

  // ---------------------------------------------------------------- a deploy that takes its own release away

  /** `current` names a release that is not there. */
  ghost predicate Dangling(site: Path, id: string, t: Tree) {
    Current(site) in t && t[Current(site)] == LinkTo(Release(site, id)) && Release(site, id) !in t
  }

  lemma DanglingIsBad(site: Path, id: string, t: Tree)
    requires Dangling(site, id, t)
    ensures !PointsToRelease(site, t) && !Good(site, t)
  {
    if PointsToRelease(site, t) {
      var x :| t[Current(site)] == LinkTo(Release(site, x)) && IsDir(t, Release(site, x));
      NamesInjective(Release(site, x), Release(site, id));
    }
  }

  /** Nothing that follows the swap brings the release back. */
  lemma StillDangling(site: Path, id: string, b: Tree, n: nat, u: Tree, before: seq<Tree>, t: Tree, trace: seq<Tree>,
      keep: nat)
    requires Laid(site, b) && Dangling(site, id, b) && WellFormed(u)
    requires PublicRun(site, b, n, u, before)
    requires Laid(site, u) && IsDir(u, Releases(site)) ==>
               PruneRun(site, Doomed(ReleaseNames(site, u), keep), u, |before|, t, trace)
    requires IsDir(b, Releases(site))
    ensures Dangling(site, id, t)
  {
    PublicStaysLaid(site, b, u);
    PublicKeepsReleases(site, b, u, id);
    PublicApart(site, id);
    PruneKeeps(site, Doomed(ReleaseNames(site, u), keep), u, t, Current(site));
  }

  // ---------------------------------------------------------------- when a deploy succeeds

  /** Nothing stands where the deploy needs a directory or a link. */
  ghost predicate Unobstructed(site: Path, id: string, t: Tree) {
    && (Releases(site) in t ==> IsDir(t, Releases(site))) && (Shared(site) in t ==> IsDir(t, Shared(site)))
    && !IsDir(t, Current(site)) && !IsDir(t, TmpLink(site, id))
  }

  lemma SwapUnobstructed(site: Path, id: string, lost: set<Path>, s: Tree, t: Tree)
    requires Calm(site, id, lost, s, t) && Unobstructed(site, id, s)
    ensures !IsDir(t, Current(site)) && !IsDir(t, TmpLink(site, id))
  {
    OlderUnchanged(site, id, lost, s, t, id + "x");
  }

  // ---------------------------------------------------------------- between the methods

  lemma SwapRunStage(site: Path, id: string, s: Tree, n: nat, t: Tree, trace: seq<Tree>)
    requires SwapRun(site, id, s, n, t, trace)
    ensures SwapStage(site, id, s, t)
  {
  }

  lemma BuiltIsLaid(site: Path, id: string, entries: seq<string>, start: Tree, n: nat, a: Tree, trace: seq<Tree>,
      faulty: bool)
    requires Built(site, id, entries, start, n, a, trace, faulty)
    ensures Laid(site, a) && IsDir(a, site)
  {
  }

  lemma BuiltIsCalm(site: Path, id: string, entries: seq<string>, start: Tree, n: nat, a: Tree, trace: seq<Tree>,
      faulty: bool)
    requires Built(site, id, entries, start, n, a, trace, faulty)
    ensures Calm(site, id, HitPaths(entries), start, a)
  {
  }

  lemma NotLive(site: Path, id: string, keep: nat, entries: seq<string>, start: Tree, n: nat, a: Tree, b: Tree,
      swapped: seq<Tree>, ok: bool, faulty: bool)
    requires GoodSince(site, start, swapped, n) && KeepsTame(site, entries, faulty, start, b)
    requires !ok ==> Calm(site, id, HitPaths(entries), start, b) && OnlyNew(site, id, start, b)
    ensures !ok ==> Live(site, id, keep, entries, start, n, a, b, swapped, ok, faulty)
  {
  }

  lemma SwappedDangling(site: Path, id: string, a: Tree, b: Tree)
    requires Laid(site, a) && Release(site, id) !in a && IsDir(a, Releases(site)) && SwapStage(site, id, a, b)
               && WellFormed(b)
    requires Named(site, id, b)
    ensures Laid(site, b) && Dangling(site, id, b) && IsDir(b, Releases(site))
  {
    SwapStaysLaid(site, id, a, b);
    SwapPlace(site, id, a, b, Release(site, id));
    SwapPlace(site, id, a, b, Releases(site));
  }

  lemma PublicSurvives(site: Path, u: Tree, n: nat, t: Tree, trace: seq<Tree>, keep: nat)
    requires PruneRun(site, Doomed(ReleaseNames(site, u), keep), u, n, t, trace) && PublicLeads(site, u)
    ensures PublicLeads(site, t)
  {
    PruneKeepsPublic(site, Doomed(ReleaseNames(site, u), keep), u, t);
  }

  lemma BuiltWell(site: Path, id: string, entries: seq<string>, clone: CloneRun, script: Option<Script>, start: Tree,
      n: nat, a: Tree, trace: seq<Tree>, faulty: bool)
    requires Ready(site, id, start, entries, clone, script, faulty)
               && Calmly(site, id, entries, start, n, a, trace, faulty)
    requires WellFormed(a) && forall i | 0 <= i < |trace| :: WellFormed(trace[i])
    ensures Built(site, id, entries, start, n, a, trace, faulty) && Laid(site, a) && Good(site, a) && IsDir(a, site)
  {
    CalmRunIsGood(site, id, HitPaths(entries), start, n, a, trace);
  }

  lemma StoppedWell(site: Path, id: string, keep: nat, entries: seq<string>, clone: CloneRun, script: Option<Script>,
      start: Tree, n: nat, a: Tree, trace: seq<Tree>, outcome: Outcome, faulty: bool)
    requires Built(site, id, entries, start, n, a, trace, faulty) && !outcome.Succeeded?
    requires outcome.Failed? && !faulty ==> Release(site, id) !in a
    ensures DeployEnded(site, id, keep, entries, start, n, a, trace, clone, script, outcome, faulty)
  {
    CalmOnlyNew(site, id, HitPaths(entries), start, a);
  }

  lemma EndedWell(site: Path, id: string, keep: nat, entries: seq<string>, clone: CloneRun, script: Option<Script>,
      start: Tree, n: nat, a: Tree, t: Tree, trace: seq<Tree>, ok: bool, faulty: bool)
    requires Live(site, id, keep, entries, start, n, a, t, trace, ok, faulty)
    requires !RunsScript(script) ==> Furnished(site, id, entries, start, a, clone, faulty)
    ensures DeployEnded(site, id, keep, entries, start, n, t, trace, clone, script, if ok then Succeeded
              else Error, faulty)
    ensures ok ==> Good(site, t)
  {
    if ok && !RunsScript(script) {
      UpheldFurniture(site, id, entries, start, a, t, clone, faulty);
    }
  }

  lemma OutcomeDecided(site: Path, id: string, entries: seq<string>, start: Tree, a: Tree, t: Tree, ok: bool)
    requires Calm(site, id, HitPaths(entries), start, a)
    requires ok == (!IsDir(a, Current(site)) && !IsDir(a, TmpLink(site, id)))
    requires ok ==> if Rebuilt(entries) then Good(site, t) else Dangling(site, id, t)
    ensures ok ==> (Good(site, t) <==> Rebuilt(entries))
    ensures Unobstructed(site, id, start) ==> ok
  {
    if ok && !Rebuilt(entries) {
      DanglingIsBad(site, id, t);
    }
    if Unobstructed(site, id, start) {
      SwapUnobstructed(site, id, HitPaths(entries), start, a);
    }
  }

  /** What everything up to the swap guarantees; `stop` says that the deploy ends there. */
  ghost predicate BuildDid(site: Path, id: string, entries: seq<string>, start: Tree, n: nat, t: Tree, trace: seq<Tree>,
      clone: CloneRun, script: Option<Script>, stop: Option<Outcome>, faulty: bool)
  {
    && Calmly(site, id, entries, start, n, t, trace, faulty)
    && (stop.None? ==> IsDir(t, Releases(site)) && (Whole(entries, faulty) ==> IsDir(t, Release(site, id))))
    && (stop.None? && !faulty && !Rebuilt(entries) ==> Release(site, id) !in t)
    && (stop == Some(Failed) && !faulty ==> Release(site, id) !in t)
    && (stop.None? && !RunsScript(script) ==> Furnished(site, id, entries, start, t, clone, faulty))
    && (!faulty && clone.Cloned? && !RunsScript(script) && Unobstructed(site, id, start) ==> stop.None?)
  }

  /** Every tree since step `n` is good, unless `current` already names the new release. */
  ghost predicate GoodUnlessNew(site: Path, id: string, trace: seq<Tree>, n: nat) {
    forall i | n <= i < |trace| :: Good(site, trace[i]) || Named(site, id, trace[i])
  }

  lemma SwapUnlessNew(site: Path, id: string, s: Tree, u: Tree)
    requires Good(site, s) && SwapStage(site, id, s, u) && WellFormed(u)
    ensures Good(site, u) || Named(site, id, u)
    ensures CurrentKept(site, s, u) ==> Good(site, u) && StaysSet(site, s, u)
  {
    SwapStaysLaid(site, id, s, u);
    if IsLink(u, Current(site)) && Current(site) in s && u[Current(site)] == s[Current(site)] {
      var x :| s[Current(site)] == LinkTo(Release(site, x)) && IsDir(s, Release(site, x));
      SwapKeepsDir(site, id, s, u, x);
    }
  }

  lemma SwapRunUnlessNew(site: Path, id: string, s: Tree, n: nat, t: Tree, trace: seq<Tree>)
    requires Good(site, s) && SwapRun(site, id, s, n, t, trace)
    requires forall i | 0 <= i < |trace| :: WellFormed(trace[i])
    ensures GoodUnlessNew(site, id, trace, n)
    ensures CurrentSince(site, s, trace, n) ==> GoodSince(site, s, trace, n)
  {
    hide Good, Named, CurrentKept, SwapStage, StaysSet;
    forall i | n <= i < |trace|
      ensures Good(site, trace[i]) || Named(site, id, trace[i])
      ensures CurrentKept(site, s, trace[i]) ==> Good(site, trace[i]) && StaysSet(site, s, trace[i])
    {
      SwapUnlessNew(site, id, s, trace[i]);
    }
  }

  /** Nothing that follows the swap changes `current`. */
  lemma CurrentStaysNamed(site: Path, id: string, b: Tree, n: nat, u: Tree, before: seq<Tree>, t: Tree,
      trace: seq<Tree>, keep: nat)
    requires Laid(site, b) && Named(site, id, b) && IsDir(b, Releases(site)) && WellFormed(u)
    requires PublicRun(site, b, n, u, before) && before <= trace
    requires Laid(site, u) && IsDir(u, Releases(site)) ==>
               PruneRun(site, Doomed(ReleaseNames(site, u), keep), u, |before|, t, trace)
    ensures forall i | n <= i < |trace| :: Named(site, id, trace[i])
  {
    hide Laid, WellFormed, Named, PublicStage, PruneStage, Doomed, ReleaseNames, IsDir;
    PublicStaysLaid(site, b, u);
    PublicKeepsNamed(site, id, b, u);
    forall i | n <= i < |trace| ensures Named(site, id, trace[i]) {
      if i < |before| {
        assert trace[i] == before[i];
        PublicKeepsNamed(site, id, b, before[i]);
      } else {
        PruneKeepsNamed(site, Doomed(ReleaseNames(site, u), keep), id, u, trace[i]);
      }
    }
  }

  lemma PublicKeepsNamed(site: Path, id: string, s: Tree, u: Tree)
    requires PublicStage(site, s, u) && Named(site, id, s)
    ensures Named(site, id, u)
    ensures IsDir(s, Releases(site)) ==> IsDir(u, Releases(site))
  {
    PublicApart(site, id);
  }

  lemma PruneKeepsNamed(site: Path, doomed: set<string>, id: string, s: Tree, u: Tree)
    requires PruneStage(site, doomed, s, u) && Named(site, id, s)
    ensures Named(site, id, u)
  {
    PruneKeeps(site, doomed, s, u, Current(site));
  }

  lemma UnlessNewJoined(site: Path, id: string, before: seq<Tree>, trace: seq<Tree>, n: nat)
    requires before <= trace && n <= |before| && GoodUnlessNew(site, id, before, n)
    requires GoodUnlessNew(site, id, trace, |before|)
    ensures GoodUnlessNew(site, id, trace, n)
  {
    forall i | n <= i < |trace| ensures Good(site, trace[i]) || Named(site, id, trace[i]) {
      if i < |before| {
        assert trace[i] == before[i];
      }
    }
  }

  /** Whatever the list: up to the swap all is good, and a swap that fails changes nothing but the temporary link. */
  ghost predicate SwappedOrNot(site: Path, id: string, a: Tree, n: nat, t: Tree, trace: seq<Tree>, ok: bool) {
    && GoodUnlessNew(site, id, trace, n)
    && (!ok ==> SwapStage(site, id, a, t) && CurrentKept(site, a, t) && GoodSince(site, a, trace, n))
  }

  lemma SwapCanGo(site: Path, id: string, a: Tree, n: nat, b: Tree, swapped: seq<Tree>, ok: bool)
    requires Good(site, a) && IsDir(a, Releases(site)) && SwapRun(site, id, a, n, b, swapped) && WellFormed(b)
    requires forall i | 0 <= i < |swapped| :: WellFormed(swapped[i])
    requires if ok then Named(site, id, b) else CurrentKept(site, a, b) && CurrentSince(site, a, swapped, n)
    ensures GoodUnlessNew(site, id, swapped, n) && Laid(site, a) && Laid(site, b) && IsDir(b, Releases(site))
    ensures !ok ==> SwappedOrNot(site, id, a, n, b, swapped, ok)
  {
    SwapRunUnlessNew(site, id, a, n, b, swapped);
    SwapStaysLaid(site, id, a, b);
    SwapPlace(site, id, a, b, Releases(site));
  }

  lemma WentNew(site: Path, id: string, a: Tree, n: nat, swapped: seq<Tree>, t: Tree, trace: seq<Tree>)
    requires GoodUnlessNew(site, id, swapped, n) && n <= |swapped| && swapped <= trace
    requires forall i | |swapped| <= i < |trace| :: Named(site, id, trace[i])
    ensures SwappedOrNot(site, id, a, n, t, trace, true)
  {
    hide Good, Named;
    UnlessNewJoined(site, id, swapped, trace, n);
  }

  /** What the swap itself guarantees. */
  ghost predicate SwapDid(site: Path, id: string, s: Tree, n: nat, t: Tree, trace: seq<Tree>, ok: bool, faulty: bool) {
    IsDir(s, site) ==>
      && SwapRun(site, id, s, n, t, trace)
      && (if ok then Named(site, id, t) else CurrentKept(site, s, t) && CurrentSince(site, s, trace, n))
      && (!faulty ==> ok == (!IsDir(s, Current(site)) && !IsDir(s, TmpLink(site, id))))
  }

  /** What public/ and the prune guarantee, after a swap to a release that is there and after any. */
  ghost predicate FinishDid(site: Path, id: string, keep: nat, s: Tree, n: nat, t: Tree,
      trace: seq<Tree>, faulty: bool)
  {
    var doomed := Doomed(ReleaseNames(site, s), keep);
    && (Active(site, id, s) && id !in doomed ==>
          && Active(site, id, t) && GoodSince(site, s, trace, n) && Settled(site, doomed, s, t)
          && (!faulty ==> forall d | d in doomed :: Release(site, d) !in t)
          && TameOutside(site, s, t)
          && (!faulty && Exists(s, Names(PublicTarget(site))) && !PublicStuck(site, s) ==> PublicLeads(site, t)))
    && (Laid(site, s) && IsDir(s, Releases(site)) ==>
          && (Dangling(site, id, s) ==> Dangling(site, id, t))
          && (Named(site, id, s) ==> forall i | n <= i < |trace| :: Named(site, id, trace[i])))
  }

  lemma WentLiveFrom(site: Path, id: string, keep: nat, entries: seq<string>, start: Tree, n: nat, a: Tree,
      built: seq<Tree>, b: Tree, swapped: seq<Tree>, t: Tree, trace: seq<Tree>, ok: bool, faulty: bool)
    requires n <= |built| && built <= swapped <= trace && WellFormed(a) && WellFormed(b)
    requires forall i | 0 <= i < |trace| :: WellFormed(trace[i])
    requires SwapDid(site, id, a, |built|, b, swapped, ok, faulty)
    requires if ok then FinishDid(site, id, keep, b, |swapped|, t, trace, faulty)
             else t == b && trace == swapped
    ensures WentLive(site, id, keep, entries, start, n, a, built, t, trace, ok, faulty)
  {
    hide Built, Live, KeepsNewest, SwapRun, Laid, Settled, Good, Named, GoodUnlessNew, SwappedOrNot, CurrentSince;
    hide CurrentKept, SharedTameAll, Active, GoodSince, Dangling, Calm, FinishDid, WellFormed, IsDir;
    assert forall i | 0 <= i < |swapped| :: swapped[i] == trace[i];
    if Built(site, id, entries, start, n, a, built, faulty) && IsDir(a, Release(site, id))
        && KeepsNewest(site, start, id, keep)
    {
      LiveFrom(site, id, keep, entries, start, n, a, built, b, swapped, t, trace, ok, faulty);
    }
    if Good(site, a) && IsDir(a, Releases(site)) {
      NewFrom(site, id, keep, entries, a, built, b, swapped, t, trace, ok, faulty);
    }
    if Laid(site, a) && Release(site, id) !in a && IsDir(a, Releases(site)) && ok {
      DanglesFrom(site, id, keep, entries, a, built, b, swapped, t, trace, faulty);
    }
  }

  lemma LiveFrom(site: Path, id: string, keep: nat, entries: seq<string>, start: Tree, n: nat, a: Tree,
      built: seq<Tree>, b: Tree, swapped: seq<Tree>, t: Tree, trace: seq<Tree>, ok: bool, faulty: bool)
    requires n <= |built| && built <= swapped <= trace && WellFormed(a) && WellFormed(b)
    requires forall i | 0 <= i < |swapped| :: WellFormed(swapped[i])
    requires Built(site, id, entries, start, n, a, built, faulty) && IsDir(a, Release(site, id))
    requires KeepsNewest(site, start, id, keep) && SwapDid(site, id, a, |built|, b, swapped, ok, faulty)
    requires if ok then FinishDid(site, id, keep, b, |swapped|, t, trace, faulty)
             else t == b && trace == swapped
    ensures Live(site, id, keep, entries, start, n, a, t, trace, ok, faulty)
  {
    hide Built, Live, KeepsNewest, SwapRun, Laid, Settled, Good, Named, CurrentSince, CurrentKept, SharedTameAll,
      Active, GoodSince, Dangling, Calm, WellFormed;
    BuiltIsLaid(site, id, entries, start, n, a, built, faulty);
    SwapRunStage(site, id, a, |built|, b, swapped);
    SwappedWell(site, id, entries, start, n, a, built, b, swapped, ok, faulty);
    if ok {
      BuiltIsCalm(site, id, entries, start, n, a, built, faulty);
      NewestKept(site, id, keep, HitPaths(entries), start, a, b);
      LiveAtLast(site, id, keep, entries, start, n, a, b, swapped, t, trace, faulty);
    } else {
      NotLive(site, id, keep, entries, start, n, a, b, swapped, ok, faulty);
    }
  }

  lemma NewFrom(site: Path, id: string, keep: nat, entries: seq<string>, a: Tree, built: seq<Tree>, b: Tree,
      swapped: seq<Tree>, t: Tree, trace: seq<Tree>, ok: bool, faulty: bool)
    requires built <= swapped <= trace && WellFormed(b) && Good(site, a) && IsDir(a, Releases(site))
    requires forall i | 0 <= i < |swapped| :: WellFormed(swapped[i])
    requires SwapDid(site, id, a, |built|, b, swapped, ok, faulty)
    requires if ok then FinishDid(site, id, keep, b, |swapped|, t, trace, faulty)
             else t == b && trace == swapped
    ensures SwappedOrNot(site, id, a, |built|, t, trace, ok)
  {
    hide SwapRun, Laid, Settled, Named, CurrentSince, CurrentKept, Active, GoodSince, Dangling, WellFormed;
    hide GoodUnlessNew, SwappedOrNot, SharedTameAll;
    SiteOfGood(site, a);
    SwapCanGo(site, id, a, |built|, b, swapped, ok);
    if ok {
      WentNew(site, id, a, |built|, swapped, t, trace);
    }
  }

  lemma SiteOfGood(site: Path, a: Tree)
    requires Good(site, a)
    ensures IsDir(a, site)
  {
  }

  lemma DanglesFrom(site: Path, id: string, keep: nat, entries: seq<string>, a: Tree, built: seq<Tree>, b: Tree,
      swapped: seq<Tree>, t: Tree, trace: seq<Tree>, faulty: bool)
    requires Laid(site, a) && Release(site, id) !in a && IsDir(a, Releases(site)) && WellFormed(b)
    requires SwapDid(site, id, a, |built|, b, swapped, true, faulty)
    requires FinishDid(site, id, keep, b, |swapped|, t, trace, faulty)
    ensures Dangling(site, id, t)
  {
    hide Settled, Named, CurrentSince, CurrentKept, Active, GoodSince, WellFormed, Dangling;
    SwapRunStage(site, id, a, |built|, b, swapped);
    SwappedDangling(site, id, a, b);
  }

  /** What the swap and the rest guarantee: from a release that is there, and from one that is not. */
  ghost predicate WentLive(site: Path, id: string, keep: nat, entries: seq<string>, start: Tree, n: nat, a: Tree,
      built: seq<Tree>, t: Tree, trace: seq<Tree>, ok: bool, faulty: bool)
  {
    && (Built(site, id, entries, start, n, a, built, faulty) && IsDir(a, Release(site, id)) &&
        KeepsNewest(site, start, id, keep) ==>
          Live(site, id, keep, entries, start, n, a, t, trace, ok, faulty))
    && (Good(site, a) && IsDir(a, Releases(site)) ==> SwappedOrNot(site, id, a, |built|, t, trace, ok))
    && (Laid(site, a) && Release(site, id) !in a && IsDir(a, Releases(site)) && ok ==> Dangling(site, id, t))
    && (IsDir(a, site) && !faulty ==> ok == (!IsDir(a, Current(site)) && !IsDir(a, TmpLink(site, id))))
  }

  /**
   What a deploy guarantees. For every list the route accepts: a deploy that does not succeed
   leaves `current`, the older releases and all that is not given up under shared/ as they
   were, with a good tree after every step, and one that succeeds has a good tree after every
   step before the swap.
   */
  ghost predicate DeployDid(site: Path, id: string, keep: nat, entries: seq<string>, start: Tree, n: nat, t: Tree,
      trace: seq<Tree>, clone: CloneRun, script: Option<Script>, outcome: Outcome, faulty: bool)
  {
    && GoodUnlessNew(site, id, trace, n)
    && (!outcome.Succeeded? ==> Calm(site, id, HitPaths(entries), start, t) && GoodSince(site, start, trace, n))
    && (Whole(entries, faulty) ==>
          DeployEnded(site, id, keep, entries, start, n, t, trace, clone, script, outcome, faulty))
    && (!faulty && outcome.Succeeded? ==> (Good(site, t) <==> Rebuilt(entries)))
    && (!faulty && outcome.Succeeded? && !Rebuilt(entries) ==> Dangling(site, id, t))
    && (!faulty && clone.Cloned? && !RunsScript(script) && Unobstructed(site, id, start) ==> outcome.Succeeded?)
  }

  lemma DeployStopped(site: Path, id: string, keep: nat, entries: seq<string>, clone: CloneRun, script: Option<Script>,
      start: Tree, n: nat, a: Tree, trace: seq<Tree>, stop: Option<Outcome>, faulty: bool)
    requires Ready(site, id, start, entries, clone, script, faulty) && stop.Some? && !stop.value.Succeeded?
    requires BuildDid(site, id, entries, start, n, a, trace, clone, script, stop, faulty)
    requires WellFormed(a) && forall i | 0 <= i < |trace| :: WellFormed(trace[i])
    ensures DeployDid(site, id, keep, entries, start, n, a, trace, clone, script, stop.value, faulty)
  {
    hide Calmly, Ready, Furnished, DeployEnded, Unobstructed, Rebuilt, Calm, Good;
    BuiltWell(site, id, entries, clone, script, start, n, a, trace, faulty);
    if Whole(entries, faulty) {
      StoppedWell(site, id, keep, entries, clone, script, start, n, a, trace, stop.value, faulty);
    }
  }

  lemma DeployDecided(site: Path, id: string, keep: nat, entries: seq<string>, clone: CloneRun, script: Option<Script>,
      start: Tree, n: nat, a: Tree, built: seq<Tree>, t: Tree, trace: seq<Tree>, ok: bool, faulty: bool)
    requires Ready(site, id, start, entries, clone, script, faulty) && KeepsNewest(site, start, id, keep)
    requires BuildDid(site, id, entries, start, n, a, built, clone, script, None, faulty)
    requires WentLive(site, id, keep, entries, start, n, a, built, t, trace, ok, faulty)
    requires WellFormed(a) && (forall i | 0 <= i < |built| :: WellFormed(built[i])) && n <= |built| && built <= trace
    ensures DeployDid(site, id, keep, entries, start, n, t, trace, clone, script, if ok then Succeeded
              else Error, faulty)
  {
    hide Calmly, Ready, KeepsNewest, Furnished, DeployEnded, Unobstructed, Rebuilt, Whole, Built, Live, Laid, Good,
        Dangling, Calm;
    WholeIsRebuilt(entries);
    BuiltWell(site, id, entries, clone, script, start, n, a, built, faulty);
    BuiltIsCalm(site, id, entries, start, n, a, built, faulty);
    SwappedOrCalm(site, id, entries, start, n, a, built, t, trace, ok, faulty);
    if Whole(entries, faulty) {
      EndedWell(site, id, keep, entries, clone, script, start, n, a, t, trace, ok, faulty);
    }
    if !faulty {
      OutcomeDecided(site, id, entries, start, a, t, ok);
    }
  }

  lemma SwappedOrCalm(site: Path, id: string, entries: seq<string>, start: Tree, n: nat, a: Tree, built: seq<Tree>,
      t: Tree, trace: seq<Tree>, ok: bool, faulty: bool)
    requires Built(site, id, entries, start, n, a, built, faulty) && n <= |built| && built <= trace
    requires SwappedOrNot(site, id, a, |built|, t, trace, ok)
    ensures GoodUnlessNew(site, id, trace, n)
    ensures !ok ==> Calm(site, id, HitPaths(entries), start, t) && GoodSince(site, start, trace, n)
  {
    hide Good, Named, SwapStage, Calm;
    UnlessNewJoined(site, id, built, trace, n);
    if !ok {
      FailedSwapIsCalm(site, id, HitPaths(entries), start, a, t);
      GoodSinceExtended(site, start, built, a, trace, n);
    }
  }

  /** What the script guarantees: without one, without a release, and with both. */
  ghost predicate ScriptDid(site: Path, id: string, entries: seq<string>, start: Tree, n: nat, u: Tree,
      before: seq<Tree>, t: Tree, trace: seq<Tree>, script: Option<Script>, stop: Option<Outcome>, faulty: bool)
  {
    && (!RunsScript(script) || (Base(site, id, u) && Release(site, id) !in u) ==>
         stop.None? && t == u && trace == before)
    && (Calmly(site, id, entries, start, n, u, before, faulty) && IsDir(u, Release(site, id))
        && (script.Some? ==> Behaves(site, id, script.value.effect)) ==>
          && Calmly(site, id, entries, start, n, t, trace, faulty)
          && (stop.None? ==> IsDir(t, Release(site, id)))
          && (stop == Some(Failed) && !faulty ==> Release(site, id) !in t))
  }

  lemma ReadyMeans(site: Path, id: string, t: Tree, entries: seq<string>, clone: CloneRun, script: Option<Script>,
      faulty: bool)
    requires Ready(site, id, t, entries, clone, script, faulty)
    ensures Good(site, t) && Release(site, id) !in t && CopiesClear(site, t, entries, faulty)
    ensures script.Some? ==> Behaves(site, id, script.value.effect)
  {
  }

  lemma BuildStopped(site: Path, id: string, entries: seq<string>, start: Tree, n: nat, t: Tree, trace: seq<Tree>,
      clone: CloneRun, script: Option<Script>, stop: Option<Outcome>, faulty: bool)
    requires Calmly(site, id, entries, start, n, t, trace, faulty) && stop.Some?
    requires stop == Some(Failed) && !faulty ==> Release(site, id) !in t
    requires !faulty && clone.Cloned? && Unobstructed(site, id, start) ==> stop.None?
    ensures BuildDid(site, id, entries, start, n, t, trace, clone, script, stop, faulty)
  {
  }

  lemma BuildDecided(site: Path, id: string, entries: seq<string>, start: Tree, n: nat, u: Tree, v: Tree,
      assembled: seq<Tree>,
      t: Tree, trace: seq<Tree>, clone: CloneRun, script: Option<Script>, stop: Option<Outcome>, faulty: bool)
    requires Ready(site, id, start, entries, clone, script, faulty) && WellFormed(v) && WellFormed(t)
    requires SameShared(site, start, u) && IsDir(u, Shared(site)) && ClonedWell(site, id, entries, u, clone)
    requires Calmly(site, id, entries, start, n, v, assembled, faulty)
               && Assembled(site, id, entries, u, v, clone, faulty)
    requires ScriptDid(site, id, entries, start, n, v, assembled, t, trace, script, stop, faulty)
    ensures BuildDid(site, id, entries, start, n, t, trace, clone, script, stop, faulty)
  {
    hide Calmly, ClonedWell, SameShared, Ready, Unobstructed, Assembled, Good, Behaves, Furnished, Rebuilt, Whole;
    hide WellFormed, CopiesClear;
    ReadyMeans(site, id, start, entries, clone, script, faulty);
    ReadyToRun(site, id, entries, start, n, u, v, assembled, clone, faulty);
    AboveRelease(site, id, t);
    DirIsThere(v, Release(site, id));
  }

  lemma AboveRelease(site: Path, id: string, t: Tree)
    requires WellFormed(t)
    ensures IsDir(t, Release(site, id)) ==> IsDir(t, Releases(site))
  {
    assert ParentOf(Release(site, id)) == Releases(site);
  }

  lemma DirIsThere(t: Tree, p: Path)
    ensures IsDir(t, p) ==> p in t
  {
  }

  /**
   The failing input: with nothing in the way, a deploy whose one shared path is the empty
   string succeeds and leaves `current` leading nowhere.
   */
  lemma EmptyEntryDangles(site: Path, id: string, keep: nat, start: Tree, n: nat, t: Tree, trace: seq<Tree>,
      clone: CloneRun, script: Option<Script>, outcome: Outcome)
    requires DeployDid(site, id, keep, [""], start, n, t, trace, clone, script, outcome, false)
    requires clone.Cloned? && !RunsScript(script) && Unobstructed(site, id, start)
    ensures outcome.Succeeded? && Dangling(site, id, t) && !PointsToRelease(site, t)
  {
    hide DeployEnded, Good, Unobstructed, Dangling, PointsToRelease, Rebuilt;
    EmptyEntryAlone();
    DanglingIsBad(site, id, t);
  }

  /**
   After a deploy without a script every shared path that was not empty is as it was,
   through and through, if it is not given up itself and no listed path lies above or below
   it, whatever else is listed.
   */
  lemma SharedContentKept(site: Path, id: string, keep: nat, entries: seq<string>, start: Tree, n: nat, t: Tree,
      trace: seq<Tree>, clone: CloneRun, script: Option<Script>, faulty: bool, e: Path)
    requires DeployEnded(site, id, keep, entries, start, n, t, trace, clone, script, Succeeded, faulty)
               && !RunsScript(script)
    requires e !in HitPaths(entries) && Alone(entries, e)
    requires InShared(site, e) in start && !EmptyNode(start, InShared(site, e))
    ensures Branch(t, InShared(site, e)) == Branch(start, InShared(site, e))
  {
    NonEmptyUntouched(site, entries, start, t, e);
  }
}
