/**
 The loop that links the shared paths as a whole: what holds after every round, for any list
 of entries, and exactly which directories under shared/ it loses.
 */
module ReleaseLoops {
  import opened FileSystem
  import opened PathTracks
  import opened TreeOps
  import opened ReleaseTrees
  import opened ReleaseLinks
  import opened ReleaseRounds
  import opened ReleaseLists
  import opened ReleaseData

  // ---------------------------------------------------------------- after k rounds

  /** What the loop relies on. */
  ghost predicate LinkStart(site: Path, id: string, entries: seq<string>, t: Tree) {
    && AllAccepted(entries) && Base(site, id, t) && AllTame(site, id, t, entries) && LinksFrom(site, id, t, entries, 0)
    && IsDir(t, Release(site, id))
  }

  ghost predicate SafeSoFar(site: Path, id: string, entries: seq<string>, start: Tree, n: nat, t: Tree,
      trace: seq<Tree>, k: nat)
    requires k <= |entries|
  {
    && AllAccepted(entries) && Base(site, id, t) && AllTame(site, id, t, entries) && LinksFrom(site, id, t, entries, k)
    && CalmRun(site, id, HitPaths(entries), start, n, t, trace) && TameStays(site, start, t)
  }

  /** Under shared/, the way to any path is as passable as it was. */
  ghost predicate TameStays(site: Path, s: Tree, t: Tree) {
    forall o | SharedTame(site, s, o) :: SharedTame(site, t, o)
  }

  ghost predicate ReleaseSoFar(site: Path, id: string, entries: seq<string>, t: Tree, k: nat, faulty: bool)
    requires k <= |entries|
  {
    && ReleaseIsDir(site, id, t) && IsDir(t, Releases(site))
    && ("" !in entries[..k] ==> IsDir(t, Release(site, id)))
    && (!faulty ==> (Release(site, id) in t <==> Rebuilt(entries[..k])))
  }

  ghost predicate KeptSoFar(site: Path, id: string, entries: seq<string>, start: Tree, t: Tree) {
    RestKept(site, id, entries, start, t) && Grown(site, entries, start, t) && DirsMade(site, entries, start, t)
  }

  /** A directory under shared/ that was none before lies on the way to an entry, or an entry that counts as one. */
  ghost predicate DirsMade(site: Path, entries: seq<string>, s: Tree, t: Tree) {
    forall p | IsDir(t, p) && Shared(site) <= p && !IsDir(s, p) ::
      exists i :: 0 <= i < |entries| && OnDirWay(site, entries[i], p)
  }

  /** An entry whose way is open in the release: it stays open, and after its round the link is there. */
  ghost predicate LinkSoFar(site: Path, id: string, t: Tree, entries: seq<string>, j: nat, k: nat)
    requires j < |entries|
  {
    && WayOpen(site, id, t, entries[j])
    && (j < k && !Slashed(entries[j]) ==> HasLink(site, id, t, EntryPath(entries[j])))
  }

  /** An entry with nothing in its way under shared/. */
  ghost predicate TargetSoFar(site: Path, t: Tree, entries: seq<string>, j: nat, k: nat)
    requires j < |entries|
  {
    && SharedWay(site, t, entries[j])
    && (j < k && !Dotted(SharedPath(site, entries[j])) ==> HasTarget(site, t, entries[j]))
  }

  ghost predicate FurnishedSoFar(site: Path, id: string, entries: seq<string>, start: Tree, t: Tree, k: nat)
    requires k <= |entries|
  {
    && (forall j | 0 <= j < |entries| && WayOpen(site, id, start, entries[j]) ::
          LinkSoFar(site, id, t, entries, j, k))
    && (forall j | 0 <= j < |entries| && SharedWay(site, start, entries[j]) ::
          TargetSoFar(site, t, entries, j, k))
  }

  /** The loop over the shared paths after `k` rounds. */
  ghost predicate LinkedSoFar(site: Path, id: string, entries: seq<string>, start: Tree, n: nat, t: Tree,
      trace: seq<Tree>, k: nat, faulty: bool)
    requires k <= |entries|
  {
    && SafeSoFar(site, id, entries, start, n, t, trace, k)
    && ReleaseSoFar(site, id, entries, t, k, faulty)
    && KeptSoFar(site, id, entries, start, t)
    && (!faulty && Separate(entries) ==> FurnishedSoFar(site, id, entries, start, t, k))
    && (!faulty && WaysClear(site, id, start, entries) && NoneSlashed(entries) ==>
         CutSoFar(site, id, entries, start, t, k))
    && (!faulty && WaysClear(site, id, start, entries) ==> DataSoFar(site, id, entries, start, t, k))
    && (!faulty && NoneSlashed(entries) ==> HeldSoFar(site, entries, t, k))
  }

  lemma CalmOfItself(site: Path, id: string, lost: set<Path>, t: Tree)
    ensures Calm(site, id, lost, t, t)
  {
  }

  lemma LinkingBegins(site: Path, id: string, entries: seq<string>, t: Tree, trace: seq<Tree>, faulty: bool)
    requires LinkStart(site, id, entries, t)
    ensures LinkedSoFar(site, id, entries, t, |trace|, t, trace, 0, faulty)
  {
    CalmOfItself(site, id, HitPaths(entries), t);
    assert ParentOf(Release(site, id)) == Releases(site);
    assert entries[..0] == [];
    if WaysClear(site, id, t, entries) {
      CutBegins(site, id, entries, t);
      DataBegins(site, id, entries, t);
    }
  }

  lemma RoundStartable(site: Path, id: string, entries: seq<string>, start: Tree, n: nat, t: Tree, trace: seq<Tree>,
      k: nat)
    requires k < |entries| && SafeSoFar(site, id, entries, start, n, t, trace, k)
    ensures Startable(site, id, t, entries[k])
  {
  }

  lemma NextSafe(site: Path, id: string, entries: seq<string>, start: Tree, n: nat, u: Tree, before: seq<Tree>,
      t: Tree, trace: seq<Tree>, k: nat)
    requires k < |entries| && before <= trace && WellFormed(t)
    requires SafeSoFar(site, id, entries, start, n, u, before, k)
               && LinkRun(site, id, entries[k], u, |before|, t, trace)
    ensures SafeSoFar(site, id, entries, start, n, t, trace, k + 1)
    ensures Reached(site, id, u, entries[k]) ==>
              Hit(entries, k) && EntryPath(entries[k]) in HitPaths(entries) && EntryPath(entries[k]) != []
  {
    hide LinkStage, Base, WayTame, Reached, Accepted;
    var reached := Reached(site, id, u, entries[k]);
    if reached {
      ReachedIsHit(site, id, u, entries, k);
    }
    RunIsCalm(site, id, entries[k], HitPaths(entries), u, |before|, t, trace);
    CalmRunExtended(site, id, HitPaths(entries), start, n, u, before, t, trace);
    StageKeepsBase(site, id, entries[k], reached, u, t);
    NextLinksFrom(site, id, u, t, entries, k, reached);
    forall i | 0 <= i < |entries| ensures WayTame(site, id, t, entries[i]) {
      StageKeepsTame(site, id, entries[k], reached, u, t, entries[i]);
    }
    forall o | SharedTame(site, u, o) ensures SharedTame(site, t, o) {
      StageKeepsSharedTame(site, id, entries[k], reached, u, t, o);
    }
  }

  lemma ReleasesStay(site: Path, id: string, lost: set<Path>, t: Tree, u: Tree)
    requires Calm(site, id, lost, t, u) && IsDir(t, Releases(site))
    ensures IsDir(u, Releases(site))
  {
    NamesDiffer(site, id, id);
    NotShared(site, id, lost, t, u, Releases(site));
  }

  lemma NextRelease(site: Path, id: string, entries: seq<string>, u: Tree, t: Tree, k: nat, faulty: bool)
    requires k < |entries| && ReleaseSoFar(site, id, entries, u, k, faulty) && Startable(site, id, u, entries[k])
    requires LinkStage(site, id, entries[k], Reached(site, id, u, entries[k]), u, t) && WellFormed(t)
    requires Calm(site, id, HitPaths(entries), u, t)
    requires !faulty ==> RoundDone(site, id, entries[k], u, t)
    ensures ReleaseSoFar(site, id, entries, t, k + 1, faulty)
  {
    hide LinkStage, Reached, Accepted, WayTame, RoundDone, Rebuilt;
    var reached := Reached(site, id, u, entries[k]);
    if reached {
      ReachedHasName(site, id, u, entries[k]);
    }
    ReleasesStay(site, id, HitPaths(entries), u, t);
    ReleaseStaysDir(site, id, entries[k], reached, u, t);
    if "" !in entries[..k + 1] {
      assert forall x | x in entries[..k] :: x in entries[..k + 1];
      assert entries[k] in entries[..k + 1];
      ReleaseStays(site, id, entries[k], reached, u, t);
    }
    if !faulty {
      NextRebuilt(site, id, entries, k, u, t);
    }
  }

  lemma StageMakesDirs(site: Path, id: string, entries: seq<string>, k: nat, reached: bool, u: Tree, t: Tree)
    requires k < |entries| && LinkStage(site, id, entries[k], reached, u, t)
    ensures DirsMade(site, entries, u, t)
  {
    forall p | IsDir(t, p) && Shared(site) <= p && !IsDir(u, p) ensures OnDirWay(site, entries[k], p) {
      assert p[|site|] == "shared" && InRelease(site, id, EntryPath(entries[k]))[|site|] == "releases";
    }
  }

  lemma NextKept(site: Path, id: string, entries: seq<string>, start: Tree, u: Tree, t: Tree, k: nat)
    requires k < |entries| && Accepted(entries[k]) && KeptSoFar(site, id, entries, start, u)
    requires LinkStage(site, id, entries[k], Reached(site, id, u, entries[k]), u, t)
    requires Reached(site, id, u, entries[k]) ==>
               EntryPath(entries[k]) in HitPaths(entries) && EntryPath(entries[k]) != []
    ensures KeptSoFar(site, id, entries, start, t)
  {
    hide LinkStage, Reached, RestKept, Grown, Accepted, HitPaths, OnDirWay;
    StageMakesDirs(site, id, entries, k, Reached(site, id, u, entries[k]), u, t);
    NextRest(site, id, start, u, t, entries, k, Reached(site, id, u, entries[k]));
    StageGrows(site, id, entries, k, Reached(site, id, u, entries[k]), u, t);
    GrownTransitive(site, entries, start, u, t);
  }

  lemma UnreachedDone(site: Path, id: string, entry: string, u: Tree, t: Tree)
    requires RoundDone(site, id, entry, u, t) && !Reached(site, id, u, entry) && Accepted(entry)
    ensures !Slashed(entry) && NothingInTheWay(u, ParentOf(InRelease(site, id, EntryPath(entry)))) ==>
              HasLink(site, id, t, EntryPath(entry))
    ensures SharedWay(site, u, entry) && !Dotted(SharedPath(site, entry)) ==> HasTarget(site, t, entry)
  {
    EntrySpells(site, id, entry);
  }

  lemma NextFurnished(site: Path, id: string, entries: seq<string>, start: Tree, u: Tree, t: Tree, k: nat)
    requires k < |entries| && Separate(entries) && Accepted(entries[k])
    requires FurnishedSoFar(site, id, entries, start, u, k) && !Reached(site, id, u, entries[k])
    requires LinkStage(site, id, entries[k], false, u, t) && RoundDone(site, id, entries[k], u, t)
    ensures FurnishedSoFar(site, id, entries, start, t, k + 1)
  {
    hide LinkStage, Reached, RoundDone, SharedWay, HasTarget, WayOpen, Accepted, Separate, LinkSoFar, TargetSoFar;
    forall j | 0 <= j < |entries| && WayOpen(site, id, start, entries[j])
      ensures LinkSoFar(site, id, t, entries, j, k + 1)
    {
      NextLinkSoFar(site, id, entries, u, t, k, j);
    }
    forall j | 0 <= j < |entries| && SharedWay(site, start, entries[j])
      ensures TargetSoFar(site, t, entries, j, k + 1)
    {
      NextTargetSoFar(site, id, entries, u, t, k, j);
    }
  }

  lemma NextLinkSoFar(site: Path, id: string, entries: seq<string>, u: Tree, t: Tree, k: nat, j: nat)
    requires k < |entries| && j < |entries| && Separate(entries) && Accepted(entries[k])
    requires LinkSoFar(site, id, u, entries, j, k) && !Reached(site, id, u, entries[k])
    requires LinkStage(site, id, entries[k], false, u, t) && RoundDone(site, id, entries[k], u, t)
    ensures LinkSoFar(site, id, t, entries, j, k + 1)
  {
    hide LinkStage, Reached, RoundDone, SharedWay, HasTarget, HasLink, NothingInTheWay, Accepted, Separate;
    UnreachedDone(site, id, entries[k], u, t);
    NextWayOpen(site, id, u, t, entries, k, j);
    if j < k && !Slashed(entries[j]) {
      NextLink(site, id, u, t, entries, k, j);
    }
  }

  lemma NextTargetSoFar(site: Path, id: string, entries: seq<string>, u: Tree, t: Tree, k: nat, j: nat)
    requires k < |entries| && j < |entries| && Separate(entries) && Accepted(entries[k])
    requires TargetSoFar(site, u, entries, j, k) && !Reached(site, id, u, entries[k])
    requires LinkStage(site, id, entries[k], false, u, t) && RoundDone(site, id, entries[k], u, t)
    ensures TargetSoFar(site, t, entries, j, k + 1)
  {
    hide LinkStage, Reached, RoundDone, SharedWay, HasTarget, HasLink, NothingInTheWay, Accepted, Separate;
    UnreachedDone(site, id, entries[k], u, t);
    NextSharedWay(site, id, u, t, entries, k, j);
    if j < k && !Dotted(SharedPath(site, entries[j])) {
      TargetStays(site, id, entries[k], u, t, entries[j]);
    }
  }

  lemma NextLinked(site: Path, id: string, entries: seq<string>, start: Tree, n: nat, u: Tree, before: seq<Tree>,
      t: Tree, trace: seq<Tree>, k: nat, faulty: bool)
    requires k < |entries| && before <= trace && WellFormed(t)
    requires LinkedSoFar(site, id, entries, start, n, u, before, k, faulty)
    requires LinkRun(site, id, entries[k], u, |before|, t, trace)
    requires !faulty ==> RoundDone(site, id, entries[k], u, t)
    ensures LinkedSoFar(site, id, entries, start, n, t, trace, k + 1, faulty)
  {
    hide SafeSoFar, ReleaseSoFar, KeptSoFar, FurnishedSoFar, CutSoFar, DataSoFar, HeldSoFar, RoundDone, LinkStage,
        Startable, Reached, Separate, WaysClear;
    NextSafe(site, id, entries, start, n, u, before, t, trace, k);
    StartableAccepted(site, id, u, entries[k]);
    RoundIsCalm(site, id, entries, u, |before|, t, trace, k);
    NextRelease(site, id, entries, u, t, k, faulty);
    NextKept(site, id, entries, start, u, t, k);
    if !faulty && Separate(entries) {
      SeparateHitsNothing(entries);
      NextFurnished(site, id, entries, start, u, t, k);
    }
    if !faulty && WaysClear(site, id, start, entries) {
      TreeOfSafe(site, id, entries, start, n, u, before, k);
      NextDataSoFar(site, id, entries, start, u, t, k) by { ReleaseThere(site, id, entries, u, k); }
      if NoneSlashed(entries) {
        NextCut(site, id, entries, start, u, t, k);
      }
    }
    if !faulty && NoneSlashed(entries) {
      NextHeld(site, id, entries, u, t, k);
    }
  }

  lemma TreeOfSafe(site: Path, id: string, entries: seq<string>, start: Tree, n: nat, t: Tree, trace: seq<Tree>, k: nat)
    requires k <= |entries| && SafeSoFar(site, id, entries, start, n, t, trace, k)
    ensures Base(site, id, t)
  {
  }

  lemma ReleaseThere(site: Path, id: string, entries: seq<string>, t: Tree, k: nat)
    requires k <= |entries| && ReleaseSoFar(site, id, entries, t, k, false)
    ensures ReleaseIsDir(site, id, t) && IsDir(t, Releases(site))
  {
  }

  lemma RoundIsCalm(site: Path, id: string, entries: seq<string>, u: Tree, n: nat, t: Tree, trace: seq<Tree>, k: nat)
    requires k < |entries| && LinkRun(site, id, entries[k], u, n, t, trace)
    requires Reached(site, id, u, entries[k]) ==>
               EntryPath(entries[k]) in HitPaths(entries) && EntryPath(entries[k]) != []
    ensures Calm(site, id, HitPaths(entries), u, t)
  {
    RunIsCalm(site, id, entries[k], HitPaths(entries), u, n, t, trace);
  }

  // ---------------------------------------------------------------- what nested entries lose

  predicate NoneSlashed(entries: seq<string>) {
    forall i | 0 <= i < |entries| :: !Slashed(entries[i])
  }

  /** Under shared/, a link sits at or above `e`: nothing is left below it. */
  ghost predicate Cut(site: Path, t: Tree, e: Path) {
    exists m | 0 < m <= |e| :: IsLink(t, InShared(site, e[..m]))
  }

  /** In the release, a link sits at or above `e`. */
  ghost predicate Covered(site: Path, id: string, t: Tree, e: Path) {
    exists m | 0 < m <= |e| :: IsLink(t, InRelease(site, id, e[..m]))
  }

  /** A directory or a file is there. */
  predicate Stands(t: Tree, p: Path) {
    p in t && !t[p].Link?
  }

  ghost predicate CutSoFar(site: Path, id: string, entries: seq<string>, start: Tree, t: Tree, k: nat)
    requires k <= |entries|
  {
    && OpenWays(site, id, t, entries)
    && (forall i | 0 <= i < k :: Covered(site, id, t, EntryPath(entries[i])))
    && (forall j | 0 <= j < |entries| && Stands(start, InShared(site, EntryPath(entries[j]))) ::
          Stands(t, InShared(site, EntryPath(entries[j]))) || Cut(site, t, EntryPath(entries[j])))
    && (forall j | 0 <= j < k && Hit(entries, j) && Stands(start, InShared(site, EntryPath(entries[j]))) ::
          Cut(site, t, EntryPath(entries[j])))
  }

  lemma CutBegins(site: Path, id: string, entries: seq<string>, t: Tree)
    requires WaysClear(site, id, t, entries)
    ensures CutSoFar(site, id, entries, t, t, 0)
  {
    OpenWaysBegin(site, id, entries, t);
  }

  lemma CutAt(site: Path, t: Tree, e: Path, x: Path)
    requires x != [] && x <= e && IsLink(t, InShared(site, x))
    ensures Cut(site, t, e)
  {
    assert e[..|x|] == x;
  }

  lemma DirOrCut(site: Path, id: string, entry: string, u: Tree, t: Tree, e: Path)
    requires Startable(site, id, u, entry) && !Slashed(entry) && RoundDone(site, id, entry, u, t)
               && EntryPath(entry) != []
    requires LinkStage(site, id, entry, Reached(site, id, u, entry), u, t) && InShared(site, e) in u
    ensures (InShared(site, e) in t && t[InShared(site, e)] == u[InShared(site, e)]) || Cut(site, t, e)
  {
    hide Startable, RoundDone, Reached, Slashed, Base, WellFormed;
    var x := EntryPath(entry);
    AreasApart(site, id, x, e);
    NestingInShared(site, x, e);
    StartableTree(site, id, u, entry);
    if Reached(site, id, u, entry) && x <= e {
      SharedParentDir(site, u, x, e);
      LinkedUnderShared(site, id, entry, u, t);
      CutAt(site, t, e, x);
    }
  }

  lemma CutStays(site: Path, id: string, entry: string, u: Tree, t: Tree, e: Path)
    requires Startable(site, id, u, entry) && !Slashed(entry) && RoundDone(site, id, entry, u, t)
               && EntryPath(entry) != []
    requires LinkStage(site, id, entry, Reached(site, id, u, entry), u, t) && Cut(site, u, e)
    ensures Cut(site, t, e)
  {
    hide LinkStage, Startable, RoundDone, Reached;
    var m :| 0 < m <= |e| && IsLink(u, InShared(site, e[..m]));
    DirOrCut(site, id, entry, u, t, e[..m]);
    if Cut(site, t, e[..m]) {
      var j :| 0 < j <= m && IsLink(t, InShared(site, e[..m][..j]));
      assert e[..m][..j] == e[..j];
    }
  }

  lemma CoveredStays(site: Path, id: string, entry: string, u: Tree, t: Tree, e: Path)
    requires LinkStage(site, id, entry, Reached(site, id, u, entry), u, t) && Covered(site, id, u, e)
               && EntryPath(entry) != []
    requires !Reached(site, id, u, entry) ==> IsLink(t, InRelease(site, id, EntryPath(entry)))
    ensures Covered(site, id, t, e)
  {
    var x := EntryPath(entry);
    var m :| 0 < m <= |e| && IsLink(u, InRelease(site, id, e[..m]));
    AreasApart(site, id, e[..m], x);
    NestingInRelease(site, id, x, e[..m]);
    if !Reached(site, id, u, entry) && x <= e[..m] {
      assert e[..|x|] == x;
      assert IsLink(t, InRelease(site, id, e[..|x|]));
    }
  }

  lemma HitIsReached(site: Path, id: string, entries: seq<string>, u: Tree, k: nat)
    requires k < |entries| && Hit(entries, k) && forall i | 0 <= i < k :: Covered(site, id, u, EntryPath(entries[i]))
    ensures Reached(site, id, u, entries[k])
  {
    var i :| 0 <= i < k && Nests(entries[i], entries[k]);
    var e := EntryPath(entries[i]);
    var m :| 0 < m <= |e| && IsLink(u, InRelease(site, id, e[..m]));
    assert e[..m] == EntryPath(entries[k])[..m];
    ReachedIf(site, id, u, entries[k], m);
  }

  /** The round itself leaves its entry covered. */
  lemma OwnCover(site: Path, id: string, entries: seq<string>, u: Tree, t: Tree, k: nat)
    requires k < |entries| && OpenWays(site, id, u, entries) && Startable(site, id, u, entries[k])
               && !Slashed(entries[k])
    requires IsDir(u, Releases(site)) && ReleaseIsDir(site, id, u) && EntryPath(entries[k]) != []
    requires RoundDone(site, id, entries[k], u, t)
               && LinkStage(site, id, entries[k], Reached(site, id, u, entries[k]), u, t)
    ensures Covered(site, id, t, EntryPath(entries[k]))
    ensures !Reached(site, id, u, entries[k]) ==> IsLink(t, InRelease(site, id, EntryPath(entries[k])))
  {
    hide OpenWays, LinkStage, NothingInTheWay, SharedWay, HasTarget;
    var e := EntryPath(entries[k]);
    if Reached(site, id, u, entries[k]) {
      StartableBase(site, id, u, entries[k]);
      var i := ReachedAt(site, id, u, entries[k]);
      ReachedLinkStays(site, id, entries[k], u, t, i);
    } else {
      StartableBase(site, id, u, entries[k]);
      OpenIsClear(site, id, entries, k, u);
      assert e[..|e|] == e;
    }
  }

  ghost predicate RoundOf(site: Path, id: string, entry: string, u: Tree, t: Tree) {
    && Startable(site, id, u, entry) && !Slashed(entry) && RoundDone(site, id, entry, u, t) && EntryPath(entry) != []
    && LinkStage(site, id, entry, Reached(site, id, u, entry), u, t)
  }

  lemma NextCovered(site: Path, id: string, entries: seq<string>, u: Tree, t: Tree, k: nat)
    requires k < |entries| && OpenWays(site, id, u, entries) && ReleaseSoFar(site, id, entries, u, k, false)
    requires RoundOf(site, id, entries[k], u, t)
    requires forall i | 0 <= i < k :: Covered(site, id, u, EntryPath(entries[i]))
    ensures forall i | 0 <= i < k + 1 :: Covered(site, id, t, EntryPath(entries[i]))
  {
    hide OpenWays, LinkStage, Startable, RoundDone, Reached, Covered, IsLink;
    OwnCover(site, id, entries, u, t, k);
    forall i | 0 <= i < k ensures Covered(site, id, t, EntryPath(entries[i])) {
      CoveredStays(site, id, entries[k], u, t, EntryPath(entries[i]));
    }
  }

  lemma NextCut(site: Path, id: string, entries: seq<string>, start: Tree, u: Tree, t: Tree, k: nat)
    requires k < |entries| && NoneSlashed(entries) && CutSoFar(site, id, entries, start, u, k)
               && Startable(site, id, u, entries[k])
    requires ReleaseSoFar(site, id, entries, u, k, false) && WellFormed(t)
    requires RoundDone(site, id, entries[k], u, t)
               && LinkStage(site, id, entries[k], Reached(site, id, u, entries[k]), u, t)
    ensures CutSoFar(site, id, entries, start, t, k + 1)
  {
    hide OpenWays, LinkStage, Startable, RoundDone, Reached, Covered, Cut, Hit, ReleaseSoFar, IsDir, Slashed;
    StartableAccepted(site, id, u, entries[k]);
    EntrySpells(site, id, entries[k]);
    OpenWaysStay(site, id, entries, k, Reached(site, id, u, entries[k]), u, t);
    NextCovered(site, id, entries, u, t, k);
    forall j | 0 <= j < |entries| && Stands(start, InShared(site, EntryPath(entries[j])))
      ensures Stands(t, InShared(site, EntryPath(entries[j]))) || Cut(site, t, EntryPath(entries[j]))
      ensures j < k && Hit(entries, j) ==> Cut(site, t, EntryPath(entries[j]))
    {
      NextCutFor(site, id, entries[k], u, t, EntryPath(entries[j]));
    }
    if Hit(entries, k) && Stands(start, InShared(site, EntryPath(entries[k]))) {
      HitIsReached(site, id, entries, u, k);
      OwnCut(site, id, entries[k], u, t);
    }
  }

  lemma NextCutFor(site: Path, id: string, entry: string, u: Tree, t: Tree, e: Path)
    requires Startable(site, id, u, entry) && !Slashed(entry) && RoundDone(site, id, entry, u, t)
               && EntryPath(entry) != []
    requires LinkStage(site, id, entry, Reached(site, id, u, entry), u, t)
    requires Stands(u, InShared(site, e)) || Cut(site, u, e)
    ensures Stands(t, InShared(site, e)) || Cut(site, t, e)
    ensures Cut(site, u, e) ==> Cut(site, t, e)
  {
    hide LinkStage, Startable, RoundDone, Reached, Cut;
    if Cut(site, u, e) {
      CutStays(site, id, entry, u, t, e);
    } else {
      DirOrCut(site, id, entry, u, t, e);
    }
  }

  /** The loss itself: a directory or file at a reached entry is gone after its round. */
  lemma OwnCut(site: Path, id: string, entry: string, u: Tree, t: Tree)
    requires Startable(site, id, u, entry) && !Slashed(entry) && RoundDone(site, id, entry, u, t)
               && EntryPath(entry) != []
    requires LinkStage(site, id, entry, Reached(site, id, u, entry), u, t) && Reached(site, id, u, entry)
    requires Stands(u, InShared(site, EntryPath(entry))) || Cut(site, u, EntryPath(entry))
    ensures Cut(site, t, EntryPath(entry))
  {
    hide Startable, RoundDone, Reached, Slashed, WellFormed, LinkStage, Cut;
    if Cut(site, u, EntryPath(entry)) {
      CutStays(site, id, entry, u, t, EntryPath(entry));
    } else {
      var e := EntryPath(entry);
      StartableTree(site, id, u, entry);
      SharedParentDir(site, u, e, e);
      LinkedUnderShared(site, id, entry, u, t);
      CutAt(site, t, e, e);
    }
  }

  // ---------------------------------------------------------------- what an outer path holds

  /** Something stands below the shared path `e`, or something that is no directory at or above it. */
  ghost predicate Held(site: Path, t: Tree, e: Path) {
    exists y | y in t && Shared(site) <= y :: Holds(site, t, e, y)
  }

  predicate Holds(site: Path, t: Tree, e: Path, y: Path)
    requires y in t
  {
    InShared(site, e) < y || (y <= InShared(site, e) && !t[y].Dir?)
  }

  /** After `k` rounds every path with a linked one below it is held. */
  ghost predicate HeldSoFar(site: Path, entries: seq<string>, t: Tree, k: nat)
    requires k <= |entries|
  {
    forall i, j | 0 <= i < |entries| && 0 <= j < k && EntryPath(entries[i]) < EntryPath(entries[j]) ::
      Held(site, t, EntryPath(entries[i]))
  }

  lemma HeldBy(site: Path, t: Tree, e: Path, y: Path)
    requires y in t && Shared(site) <= y && Holds(site, t, e, y)
    ensures Held(site, t, e)
  {
  }

  /** A link where something that held the path was removed holds it too. */
  lemma LinkHolds(site: Path, u: Tree, t: Tree, e: Path, y: Path, x: Path)
    requires y in u && Holds(site, u, e, y) && x <= y && IsLink(t, x)
    ensures Holds(site, t, e, x)
  {
    if InShared(site, e) < y {
      PrefixesOfOne(x, InShared(site, e), y);
    }
  }

  lemma HeldStays(site: Path, id: string, entry: string, u: Tree, t: Tree, e: Path)
    requires RoundOf(site, id, entry, u, t) && Held(site, u, e)
    ensures Held(site, t, e)
  {
    hide Startable, RoundDone, Reached, Slashed, WellFormed, Holds;
    var y :| y in u && Shared(site) <= y && Holds(site, u, e, y);
    var x := InShared(site, EntryPath(entry));
    StartableTree(site, id, u, entry);
    assert Shared(site) <= x;
    if Reached(site, id, u, entry) && x <= y {
      var d := y[|Shared(site)|..];
      assert y == InShared(site, d);
      NestingInShared(site, EntryPath(entry), d);
      SharedParentDir(site, u, EntryPath(entry), d);
      LinkedUnderShared(site, id, entry, u, t);
      LinkHolds(site, u, t, e, y, x);
      HeldBy(site, t, e, x);
    } else {
      NodeStays(site, id, entry, u, t, y);
      SameHolds(site, u, t, e, y);
      HeldBy(site, t, e, y);
    }
  }

  lemma NodeStays(site: Path, id: string, entry: string, u: Tree, t: Tree, y: Path)
    requires LinkStage(site, id, entry, Reached(site, id, u, entry), u, t) && y in u && Shared(site) <= y
    requires !(Reached(site, id, u, entry) && InShared(site, EntryPath(entry)) <= y)
    ensures y in t && t[y] == u[y]
  {
    hide Reached;
    assert y[|site|] == "shared" && InRelease(site, id, EntryPath(entry))[|site|] == "releases";
  }

  lemma SameHolds(site: Path, u: Tree, t: Tree, e: Path, y: Path)
    requires y in u && y in t && t[y] == u[y] && Holds(site, u, e, y)
    ensures Holds(site, t, e, y)
  {
  }

  /** The round for an entry leaves every path above it held. */
  lemma HeldMade(site: Path, id: string, entry: string, u: Tree, t: Tree, e: Path)
    requires RoundOf(site, id, entry, u, t) && e < EntryPath(entry) && Accepted(entry)
    ensures Held(site, t, e)
  {
    hide Startable, Reached, Slashed, WellFormed, LinkStage, Base;
    var x := InShared(site, EntryPath(entry));
    NestingInShared(site, e, EntryPath(entry));
    assert Shared(site) <= x;
    if NothingInTheWay(u, ParentOf(x)) {
      UnslashedNotDotted(site, id, entry);
      PlaceTaken(site, id, entry, u, t);
      HeldBy(site, t, e, x);
    } else {
      var y := Obstacle(site, id, entry, u);
      PrefixesOfOne(y, InShared(site, e), x);
      NodeStays(site, id, entry, u, t, y);
      HeldBy(site, t, e, y);
    }
  }

  /** Where nothing is in the way, something stands at the shared path after the round. */
  lemma PlaceTaken(site: Path, id: string, entry: string, u: Tree, t: Tree)
    requires RoundOf(site, id, entry, u, t) && !Dotted(SharedPath(site, entry))
    requires NothingInTheWay(u, ParentOf(InShared(site, EntryPath(entry))))
    ensures InShared(site, EntryPath(entry)) in t
  {
    hide Startable, Reached, Slashed, WellFormed, LinkStage, Dotted;
    var x := InShared(site, EntryPath(entry));
    if !Reached(site, id, u, entry) {
      if x in u {
        assert Shared(site) <= x;
        NodeStays(site, id, entry, u, t, x);
      } else {
        WayToMissing(u, x);
      }
    }
  }

  /** Something in the way: the node above the shared path that is no directory. */
  lemma Obstacle(site: Path, id: string, entry: string, u: Tree) returns (y: Path)
    requires Startable(site, id, u, entry) && EntryPath(entry) != []
    requires !NothingInTheWay(u, ParentOf(InShared(site, EntryPath(entry))))
    ensures y in u && Shared(site) <= y < InShared(site, EntryPath(entry)) && !u[y].Dir?
  {
    hide WellFormed;
    var x := InShared(site, EntryPath(entry));
    StartableTree(site, id, u, entry);
    var i :| 0 <= i <= |ParentOf(x)| && ParentOf(x)[..i] in u && !IsDir(u, ParentOf(x)[..i]);
    y := x[..i];
    assert y == ParentOf(x)[..i];
    SharedPrefix(site, EntryPath(entry), i);
    assert site[..|site|] == site;
    if i <= |site| {
      PrefixPresent(u, site, i);
    }
  }

  lemma IsRound(site: Path, id: string, entry: string, u: Tree, t: Tree)
    requires Startable(site, id, u, entry) && !Slashed(entry) && RoundDone(site, id, entry, u, t)
    requires LinkStage(site, id, entry, Reached(site, id, u, entry), u, t)
    ensures RoundOf(site, id, entry, u, t)
  {
    EntrySpells(site, id, entry);
  }

  lemma NextHeld(site: Path, id: string, entries: seq<string>, u: Tree, t: Tree, k: nat)
    requires k < |entries| && NoneSlashed(entries) && HeldSoFar(site, entries, u, k)
    requires Startable(site, id, u, entries[k]) && RoundDone(site, id, entries[k], u, t)
    requires LinkStage(site, id, entries[k], Reached(site, id, u, entries[k]), u, t)
    ensures HeldSoFar(site, entries, t, k + 1)
  {
    hide LinkStage, RoundDone, Startable, Reached, Held, Slashed, Accepted, RoundOf, EntryPath, Base, WayTame;
    StartableAccepted(site, id, u, entries[k]);
    IsRound(site, id, entries[k], u, t);
    forall i, j | 0 <= i < |entries| && 0 <= j < k + 1 && EntryPath(entries[i]) < EntryPath(entries[j])
      ensures Held(site, t, EntryPath(entries[i]))
    {
      if j < k {
        HeldStays(site, id, entries[k], u, t, EntryPath(entries[i]));
      } else {
        HeldMade(site, id, entries[k], u, t, EntryPath(entries[i]));
      }
    }
  }

  // ---------------------------------------------------------------- exactly what is lost

  /** An entry at or above `e` comes after one that nests it. */
  predicate GivenUp(entries: seq<string>, e: Path) {
    exists m | 0 <= m < |entries| :: Hit(entries, m) && EntryPath(entries[m]) <= e
  }

  lemma CutIsGone(site: Path, t: Tree, e: Path)
    requires WellFormed(t) && Cut(site, t, e)
    ensures !Stands(t, InShared(site, e)) && NothingBelow(t, InShared(site, e))
  {
    var m :| 0 < m <= |e| && IsLink(t, InShared(site, e[..m]));
    NothingBelowNonDir(t, InShared(site, e[..m]));
    NestingInShared(site, e[..m], e);
    assert m == |e| ==> e[..m] == e;
  }

  /**
   Without faults, and with no file in the way, linking loses a listed directory or file
   under shared/ if and only if an entry at or above it comes after one it lies below.
   */
  lemma LostExactly(site: Path, id: string, entries: seq<string>, start: Tree, n: nat, t: Tree, trace: seq<Tree>,
      j: nat)
    requires j < |entries| && LinkedSoFar(site, id, entries, start, n, t, trace, |entries|, false)
    requires NoneSlashed(entries) && WaysClear(site, id, start, entries) && WellFormed(start) && WellFormed(t)
    requires Stands(start, InShared(site, EntryPath(entries[j])))
    ensures Stands(t, InShared(site, EntryPath(entries[j]))) <==> !GivenUp(entries, EntryPath(entries[j]))
    ensures GivenUp(entries, EntryPath(entries[j])) ==> NothingBelow(t, InShared(site, EntryPath(entries[j])))
  {
    hide SafeSoFar, ReleaseSoFar, KeptSoFar, FurnishedSoFar, Cut, Covered, OpenWays, Hit;
    var e := EntryPath(entries[j]);
    if GivenUp(entries, e) {
      var m :| 0 <= m < |entries| && Hit(entries, m) && EntryPath(entries[m]) <= e;
      var x := EntryPath(entries[m]);
      DirUpTo(site, start, x, e);
      CutBelow(site, t, x, e);
      CutIsGone(site, t, e);
    } else {
      SafeKeeps(site, id, entries, start, n, t, trace, e);
    }
  }

  /**
   Without faults, and with no file of the release in the way, linking loses a file with
   content under shared/ if and only if the list wipes it: some entry at or above it (above
   it, if slashed) is reached through the link of an earlier one. Any accepted list, any file.
   */
  lemma DataLostExactly(site: Path, id: string, entries: seq<string>, start: Tree, n: nat, t: Tree, trace: seq<Tree>,
      p: Path)
    requires LinkedSoFar(site, id, entries, start, n, t, trace, |entries|, false)
    requires WaysClear(site, id, start, entries) && HasData(start, InShared(site, p))
    ensures Same(start, t, InShared(site, p)) <==> !Wiped(entries, p)
  {
    assert entries[..|entries|] == entries;
  }

  lemma DirUpTo(site: Path, t: Tree, x: Path, e: Path)
    requires WellFormed(t) && x <= e && Stands(t, InShared(site, e))
    ensures Stands(t, InShared(site, x))
  {
    NestingInShared(site, x, e);
    if x != e {
      AncestorsAreDirs(t, InShared(site, e), InShared(site, x));
    }
  }

  lemma CutBelow(site: Path, t: Tree, x: Path, e: Path)
    requires Cut(site, t, x) && x <= e
    ensures Cut(site, t, e)
  {
    var m :| 0 < m <= |x| && IsLink(t, InShared(site, x[..m]));
    assert x[..m] == e[..m];
  }

  lemma SafeKeeps(site: Path, id: string, entries: seq<string>, start: Tree, n: nat, t: Tree, trace: seq<Tree>, e: Path)
    requires SafeSoFar(site, id, entries, start, n, t, trace, |entries|) && Stands(start, InShared(site, e))
               && !GivenUp(entries, e)
    ensures Stands(t, InShared(site, e))
  {
    var p := InShared(site, e);
    if Lost(site, HitPaths(entries), p) {
      var x :| x in HitPaths(entries) && x != [] && InShared(site, x) <= p;
      NestingInShared(site, x, e);
    }
    AreasApart(site, id, [], e);
    assert InRelease(site, id, []) == Release(site, id);
    assert TmpLink(site, id)[|site|][0] == 'c' && p[|site|] == "shared";
    assert KeptNode(site, start, t, p);
  }

  lemma LinkedStartable(site: Path, id: string, entries: seq<string>, start: Tree, n: nat, t: Tree, trace: seq<Tree>,
      k: nat, faulty: bool)
    requires k < |entries| && LinkedSoFar(site, id, entries, start, n, t, trace, k, faulty)
    ensures Startable(site, id, t, entries[k])
  {
    RoundStartable(site, id, entries, start, n, t, trace, k);
  }
}
