/**
 "Copy shared items from previous release if this is the first deploy": what the copies may
 do under shared/, and when the old content arrives where it should.
 */
module ReleaseCopy {
  import opened Wrappers
  import opened FileSystem
  import opened PathTracks
  import opened TreeOps
  import opened ReleaseTrees
  import opened ReleaseLinks
  import opened ReleaseRounds
  import opened ReleaseLists
  import opened ReleaseLoops

  // ---------------------------------------------------------------- the copies as functions

  /** "Only copy if shared location is empty and old release has content." */
  function CopyOne(site: Path, t: Tree, prev: seq<Comp>, entry: string): Tree {
    var src, dst := prev + Components(entry), SharedPath(site, entry);
    if Exists(t, src) && !IsSymlink(t, src) && EmptyAt(t, dst) then Copy(t, src, dst) else t
  }

  /** What the copy loop does to the tree when no copy fails. */
  function CopyAll(site: Path, t: Tree, prev: seq<Comp>, entries: seq<string>): Tree {
    if entries == [] then t
    else CopyOne(site, CopyAll(site, t, prev, entries[..|entries| - 1]), prev, entries[|entries| - 1])
  }

  lemma CopyAllUnfold(site: Path, t: Tree, prev: seq<Comp>, entries: seq<string>, k: nat)
    requires k < |entries|
    ensures CopyAll(site, t, prev, entries[..k + 1]) ==
              CopyOne(site, CopyAll(site, t, prev, entries[..k]), prev, entries[k])
  {
    assert entries[..k + 1][..k] == entries[..k];
  }

  // ---------------------------------------------------------------- what a copy keeps

  ghost predicate SharedTameAll(site: Path, t: Tree, entries: seq<string>) {
    forall i | 0 <= i < |entries| :: SharedTame(site, t, EntryPath(entries[i]))
  }

  /** Nothing outside shared/ is different. */
  ghost predicate OutsideSame(site: Path, t: Tree, u: Tree) {
    && (forall p | p in t && !(Shared(site) <= p) :: p in u && u[p] == t[p])
    && (forall p | p in u && !(Shared(site) <= p) :: p in t)
  }

  lemma FilledIsCalm(site: Path, id: string, e: Path, t: Tree, u: Tree)
    requires Filled(t, u, InShared(site, e))
    ensures Calm(site, id, {}, t, u) && OutsideSame(site, t, u)
  {
    var root := InShared(site, e);
    assert Shared(site) <= root && (root <= Shared(site) ==> root == Shared(site));
    assert Shared(site)[|site|] == "shared" && Releases(site)[|site|] == "releases";
    assert Release(site, id)[|site|] == "releases" && TmpLink(site, id)[|site|][0] == 'c';
  }

  lemma FilledGrows(site: Path, entries: seq<string>, k: nat, t: Tree, u: Tree)
    requires k < |entries| && Filled(t, u, InShared(site, EntryPath(entries[k])))
    requires u != t ==> WasEmpty(t, InShared(site, EntryPath(entries[k])))
    ensures Grown(site, entries, t, u)
  {
  }

  lemma FilledKeepsBase(site: Path, id: string, e: Path, t: Tree, u: Tree)
    requires Base(site, id, t) && WellFormed(u) && Filled(t, u, InShared(site, e))
    ensures Base(site, id, u)
  {
    FilledIsCalm(site, id, e, t, u);
  }

  /** No link appears. */
  ghost predicate NoLinkAppears(t: Tree, u: Tree) {
    forall p | IsLink(u, p) :: IsLink(t, p)
  }

  lemma FilledKeepsTame(site: Path, e: Path, t: Tree, u: Tree, o: Path)
    requires Filled(t, u, InShared(site, e)) && SharedTame(site, t, o)
    requires !(e < o) || NoLinkAppears(t, u)
    ensures SharedTame(site, u, o)
  {
    forall i | 0 < i <= |o| && IsLink(u, InShared(site, o[..i]))
      ensures LeadsTo(u[InShared(site, o[..i])], InShared(site, o[..i]))
    {
      NestingInShared(site, e, o[..i]);
      assert e < o[..i] ==> e < o;
    }
  }

  // ---------------------------------------------------------------- links in the previous release

  /**
   What an entry with others nested below it may find in the previous release: a link that
   leads into shared/, as deploys make it, or no link at all.
   */
  ghost predicate OldEntryClear(site: Path, x: string, t: Tree, e: Path) {
    || (ReleaseTame(site, x, t, e) && Covered(site, x, t, e))
    || (forall p | IsLink(t, p) :: !(InRelease(site, x, if e == [] then [] else e[..1]) <= p))
  }

  /** Copying to this path makes no link below it: none is in the old release, or the path does not take a directory. */
  ghost predicate Harmless(site: Path, x: string, t: Tree, e: Path) {
    OldEntryClear(site, x, t, e) || Held(site, t, e)
  }

  /** No copy makes a link on the way to `o`. */
  ghost predicate HarmlessTo(site: Path, x: string, t: Tree, entries: seq<string>, o: Path) {
    forall i | 0 <= i < |entries| && EntryPath(entries[i]) < o :: Harmless(site, x, t, EntryPath(entries[i]))
  }

  ghost predicate OldClear(site: Path, x: string, t: Tree, entries: seq<string>) {
    forall j | 0 <= j < |entries| :: HarmlessTo(site, x, t, entries, EntryPath(entries[j]))
  }

  // ---------------------------------------------------------------- what a list relies on when a deploy begins

  /** Where the release that is served has nothing to copy there that leads astray. */
  ghost predicate ServedClear(site: Path, t: Tree, e: Path) {
    forall x | Current(site) in t && t[Current(site)] == LinkTo(Release(site, x)) :: OldEntryClear(site, x, t, e)
  }

  /** When nothing fails, linking an entry below `entries[i]` keeps the copies away from it. */
  predicate Anchored(entries: seq<string>, i: nat, faulty: bool)
    requires i < |entries|
  {
    !faulty && NoneSlashed(entries) && exists j | 0 <= j < |entries| :: EntryPath(entries[i]) < EntryPath(entries[j])
  }

  /** A deploy of these entries makes no link on the way to `o`; if none of them lies above it, this is no condition. */
  ghost predicate CopySafe(site: Path, t: Tree, entries: seq<string>, o: Path, faulty: bool) {
    forall i | 0 <= i < |entries| && EntryPath(entries[i]) < o ::
      Anchored(entries, i, faulty) || ServedClear(site, t, EntryPath(entries[i]))
  }

  /** What the copies rely on: nothing, if no entry lies below another one or if nothing fails and none is slashed. */
  ghost predicate CopiesClear(site: Path, t: Tree, entries: seq<string>, faulty: bool) {
    forall j | 0 <= j < |entries| :: CopySafe(site, t, entries, EntryPath(entries[j]), faulty)
  }

  lemma SeparateCopiesClear(site: Path, t: Tree, entries: seq<string>, faulty: bool)
    requires Separate(entries) || (!faulty && NoneSlashed(entries))
    ensures CopiesClear(site, t, entries, faulty)
  {
    forall i, j | 0 <= i < |entries| && 0 <= j < |entries| && EntryPath(entries[i]) < EntryPath(entries[j])
      ensures Anchored(entries, i, faulty)
    {
    }
  }

  lemma CopyOntoItself(t: Tree, src: seq<Comp>, q: Path, dst: seq<Comp>)
    requires WellFormed(t) && q != [] && Track(t, q, q) && Spells(dst, q) && RemovalRoot(t, src) == Some(q)
    ensures Copy(t, src, dst) == t
  {
    if q in t {
      CopyTargets(t, q, src, q, dst);
      var to := CopyTarget(t, q, src, dst);
      assert to.Some? ==> to.value == q && t[q].File?;
    }
  }

  /** Where the links of the old release lead into shared/, the copy is a copy onto itself. */
  lemma CoveredCopy(site: Path, x: string, t: Tree, entry: string, dst: seq<Comp>)
    requires Base(site, x, t) && Accepted(entry) && Spells(dst, InShared(site, EntryPath(entry)))
    requires SharedTame(site, t, EntryPath(entry))
    requires ReleaseTame(site, x, t, EntryPath(entry)) && Covered(site, x, t, EntryPath(entry))
    requires !IsSymlink(t, ReleasePath(site, x, entry))
    ensures Copy(t, ReleasePath(site, x, entry), dst) == t
  {
    var e, src := EntryPath(entry), ReleasePath(site, x, entry);
    EntrySpells(site, x, entry);
    SharedTrack(site, x, t, e);
    CoveredSource(site, x, t, entry);
    if RemovalRoot(t, src).Some? && RemovalRoot(t, src).value in t {
      CopyOntoItself(t, src, InShared(site, e), dst);
    }
  }

  lemma CoveredSource(site: Path, x: string, t: Tree, entry: string)
    requires Base(site, x, t) && Accepted(entry) && SharedTame(site, t, EntryPath(entry))
    requires ReleaseTame(site, x, t, EntryPath(entry)) && Covered(site, x, t, EntryPath(entry))
    requires !IsSymlink(t, ReleasePath(site, x, entry))
    ensures var root := RemovalRoot(t, ReleasePath(site, x, entry));
            root.Some? && root.value in t ==> root.value == InShared(site, EntryPath(entry))
  {
    hide Track, Spells, ReleasePath, Covered, ReleaseTame, SharedTame, Resolve, Spot, Accepted;
    var e, src := EntryPath(entry), ReleasePath(site, x, entry);
    EntrySpells(site, x, entry);
    CoveredIsCrossed(site, x, t, e);
    ReleaseTrack(site, x, t, e);
    if Slashed(entry) {
      TrackResolve(t, InRelease(site, x, e), InShared(site, e), src);
    } else {
      CoveredSpot(site, x, t, e, src);
    }
  }

  lemma CoveredSpot(site: Path, x: string, t: Tree, e: Path, src: seq<Comp>)
    requires WellFormed(t) && Track(t, InRelease(site, x, e), InShared(site, e)) && e != []
    requires Crossed(t, InRelease(site, x, e)) && Spells(src, InRelease(site, x, e)) && !EndsHere(src)
               && !IsSymlink(t, src)
    ensures Spot(t, src).Some? && Spot(t, src).value in t ==> Spot(t, src).value == InShared(site, e)
  {
    hide Track, Spells, Spot, Crossed;
    var q := InRelease(site, x, e);
    TrackParent(t, q, InShared(site, e));
    TrackSpot(t, q, InShared(site, e), src);
    CrossedAboveOrHere(t, q);
  }

  lemma CoveredIsCrossed(site: Path, x: string, t: Tree, e: Path)
    requires Covered(site, x, t, e)
    ensures Crossed(t, InRelease(site, x, e))
  {
    var m :| 0 < m <= |e| && IsLink(t, InRelease(site, x, e[..m]));
    var q := InRelease(site, x, e);
    assert q[..|site| + 2 + m] == InRelease(site, x, e[..m]);
  }

  lemma CrossedAboveOrHere(t: Tree, q: Path)
    requires Crossed(t, q) && q != []
    ensures Crossed(t, ParentOf(q)) || IsLink(t, q)
  {
    var i :| 0 <= i <= |q| && IsLink(t, q[..i]);
    if i < |q| {
      assert ParentOf(q)[..i] == q[..i];
    } else {
      assert q[..i] == q;
    }
  }

  /** A copy of what holds no links makes no links. */
  lemma LinklessCopy(t: Tree, src: seq<Comp>, dst: seq<Comp>)
    requires var from := RemovalRoot(t, src);
             from.Some? && from.value in t ==> forall p | IsLink(t, p) :: !(from.value <= p)
    ensures NoLinkAppears(t, Copy(t, src, dst))
  {
    var from := RemovalRoot(t, src);
    if from.Some? && from.value in t && CopyTarget(t, from.value, src, dst).Some? {
      LinklessNode(t, from.value, CopyTarget(t, from.value, src, dst).value);
    }
  }

  lemma LinklessNode(t: Tree, from: Path, to: Path)
    requires from in t && forall p | IsLink(t, p) :: !(from <= p)
    ensures NoLinkAppears(t, CopyNode(t, from, to))
  {
    assert from <= from && !IsLink(t, from);
    if t[from].Dir? {
      LinklessBranch(t, from);
      LinklessPlant(t, to, Branch(t, from));
    }
  }

  lemma LinklessBranch(t: Tree, from: Path)
    requires forall p | IsLink(t, p) :: !(from <= p)
    ensures forall k | k in Branch(t, from) :: !Branch(t, from)[k].Link?
  {
    forall k | k in Branch(t, from) ensures !Branch(t, from)[k].Link? {
      assert from <= from + k && !IsLink(t, from + k);
    }
  }

  lemma LinklessPlant(t: Tree, to: Path, branch: Tree)
    requires forall k | k in branch :: !branch[k].Link?
    ensures NoLinkAppears(t, Plant(t, to, branch))
  {
    hide Plant;
    PlantedNodes(t, to, branch);
  }

  lemma LinklessSource(site: Path, x: string, t: Tree, entry: string)
    requires Base(site, x, t) && Accepted(entry)
    requires var e := EntryPath(entry); forall p | IsLink(t, p) ::
               !(InRelease(site, x, if e == [] then [] else e[..1]) <= p)
    ensures var root := RemovalRoot(t, ReleasePath(site, x, entry));
            root.Some? && root.value in t ==> forall p | IsLink(t, p) :: !(root.value <= p)
  {
    var e, src := EntryPath(entry), ReleasePath(site, x, entry);
    var q := InRelease(site, x, e);
    EntrySpells(site, x, entry);
    LinklessWay(site, x, t, e);
    if Slashed(entry) {
      StraightResolve(t, q, src);
    } else {
      NoLinksAbove(t, q);
      StraightSpot(t, q, src);
    }
    NestingInRelease(site, x, if e == [] then [] else e[..1], e);
  }

  lemma LinklessWay(site: Path, x: string, t: Tree, e: Path)
    requires Base(site, x, t)
    requires forall p | IsLink(t, p) :: !(InRelease(site, x, if e == [] then [] else e[..1]) <= p)
    ensures NoLinks(t, InRelease(site, x, e))
  {
    var q := InRelease(site, x, e);
    forall i | 0 <= i <= |q| ensures !IsLink(t, q[..i]) {
      ReleasePrefix(site, x, e, i);
      if i <= |site| {
        SiteHasNoLinks(site, t, q[..i]);
      } else if i == |site| + 2 {
        assert q[..i] == Release(site, x);
      } else if i > |site| + 2 {
        assert InRelease(site, x, e[..1]) <= q[..i];
      }
    }
  }

  // ---------------------------------------------------------------- the copy loop

  /** After some rounds of the copy loop: nothing outside shared/ is different, and shared/ has only grown. */
  ghost predicate CopiedSoFar(site: Path, id: string, x: string, entries: seq<string>, start: Tree, n: nat, t: Tree,
      trace: seq<Tree>)
  {
    && Base(site, id, t) && SharedTameAll(site, t, entries)
    && OutsideSame(site, start, t) && Grown(site, entries, start, t)
    && CalmRun(site, id, {}, start, n, t, trace) && CopyTame(site, x, entries, start, t)
  }

  /** Under shared/, ways stay passable but for those the copies may have put links on. */
  ghost predicate CopyTame(site: Path, x: string, entries: seq<string>, s: Tree, t: Tree) {
    || t == s
    || (&& Current(site) in s && s[Current(site)] == LinkTo(Release(site, x))
        && forall o | SharedTame(site, s, o) && HarmlessTo(site, x, s, entries, o) :: SharedTame(site, t, o))
  }

  /** The copies of this release cannot lead astray. */
  ghost predicate OldReady(site: Path, x: string, t: Tree, entries: seq<string>, prev: seq<Comp>) {
    prev == Names(Release(site, x)) && Base(site, x, t) && OldClear(site, x, t, entries)
  }

  lemma OldReadyKept(site: Path, x: string, t: Tree, u: Tree, entries: seq<string>, prev: seq<Comp>)
    requires OldReady(site, x, t, entries, prev) && OutsideSame(site, t, u) && Base(site, x, u)
    requires Calm(site, x, {}, t, u)
    ensures OldReady(site, x, u, entries, prev)
  {
    hide Harmless, OutsideSame, Base, Calm;
    forall j | 0 <= j < |entries| ensures HarmlessTo(site, x, u, entries, EntryPath(entries[j])) {
      HarmlessToKept(site, x, x, t, u, entries, EntryPath(entries[j]));
    }
  }

  lemma HarmlessToKept(site: Path, id: string, x: string, t: Tree, u: Tree, entries: seq<string>, o: Path)
    requires HarmlessTo(site, x, t, entries, o) && OutsideSame(site, t, u) && Calm(site, id, {}, t, u)
    ensures HarmlessTo(site, x, u, entries, o)
  {
    hide Harmless, OutsideSame, Calm;
    forall i | 0 <= i < |entries| && EntryPath(entries[i]) < o ensures Harmless(site, x, u, EntryPath(entries[i])) {
      HarmlessKept(site, id, x, t, u, EntryPath(entries[i]));
    }
  }

  lemma HarmlessKept(site: Path, id: string, x: string, t: Tree, u: Tree, e: Path)
    requires Harmless(site, x, t, e) && OutsideSame(site, t, u) && Calm(site, id, {}, t, u)
    ensures Harmless(site, x, u, e)
  {
    hide OldEntryClear, OutsideSame;
    if OldEntryClear(site, x, t, e) {
      ReleaseOutside(site, x, t, u);
      OldEntryKept(site, x, t, u, e);
    } else {
      var y :| y in t && Shared(site) <= y && Holds(site, t, e, y);
      assert y[|site|] == "shared" && Release(site, id)[|site|] == "releases";
      assert TmpLink(site, id)[|site|][0] == 'c';
      assert KeptNode(site, t, u, y);
      HeldBy(site, u, e, y);
    }
  }

  lemma ReleaseOutside(site: Path, x: string, t: Tree, u: Tree)
    requires OutsideSame(site, t, u)
    ensures forall p | Release(site, x) <= p && p in t :: p in u && u[p] == t[p]
    ensures forall p | Release(site, x) <= p && p in u :: p in t
  {
    assert Shared(site)[|site|] == "shared";
    forall p | Release(site, x) <= p && p in t ensures p in u && u[p] == t[p] {
      assert p[|site|] == "releases";
    }
    forall p | Release(site, x) <= p && p in u ensures p in t {
      assert p[|site|] == "releases";
    }
  }

  lemma OldEntryKept(site: Path, x: string, t: Tree, u: Tree, e: Path)
    requires OldEntryClear(site, x, t, e)
    requires forall p | Release(site, x) <= p && p in t :: p in u && u[p] == t[p]
    requires forall p | Release(site, x) <= p && p in u :: p in t
    ensures OldEntryClear(site, x, u, e)
  {
    if ReleaseTame(site, x, t, e) && Covered(site, x, t, e) {
      var m :| 0 < m <= |e| && IsLink(t, InRelease(site, x, e[..m]));
      assert Release(site, x) <= InRelease(site, x, e[..m]);
      forall i | 0 < i <= |e| && IsLink(u, InRelease(site, x, e[..i]))
        ensures LeadsTo(u[InRelease(site, x, e[..i])], InShared(site, e[..i]))
      {
        assert Release(site, x) <= InRelease(site, x, e[..i]);
      }
    } else {
      var q := InRelease(site, x, if e == [] then [] else e[..1]);
      assert Release(site, x) <= q;
      forall p | IsLink(u, p) ensures !(q <= p) {
        assert q <= p ==> IsLink(t, p);
      }
    }
  }

  /** A copy to a path that does not take a directory makes no link. */
  lemma HeldCopy(t: Tree, site: Path, e: Path, src: seq<Comp>, dst: seq<Comp>)
    requires WellFormed(t) && Track(t, InShared(site, e), InShared(site, e)) && Spells(dst, InShared(site, e))
    requires EmptyAt(t, dst) && !IsSymlink(t, src) && Held(site, t, e)
    ensures NoLinkAppears(t, Copy(t, src, dst))
  {
    hide CopyTarget, Track, Spells, NamesIn, Spot, Resolve, RemovalRoot, EmptyAt, WellFormed, FileName;
    var q := InShared(site, e);
    var from := RemovalRoot(t, src);
    assert q != [];
    if from.Some? && from.value in t && CopyTarget(t, from.value, src, dst).Some? {
      CopyTargets(t, from.value, src, q, dst);
      var y :| y in t && Shared(site) <= y && Holds(site, t, e, y);
      if IsDir(t, q) || (q !in t && IsDir(t, ParentOf(q))) {
        DirTakesNothing(site, t, e, y);
        CopyFills(t, src, q, dst);
        NotEmptyNode(t, q, y);
      } else {
        FileCopy(t, from.value, CopyTarget(t, from.value, src, dst).value);
      }
    }
  }

  lemma FileCopy(t: Tree, from: Path, to: Path)
    requires from in t && t[from].File?
    ensures NoLinkAppears(t, CopyNode(t, from, to))
  {
  }

  lemma DirTakesNothing(site: Path, t: Tree, e: Path, y: Path)
    requires WellFormed(t) && y in t && Holds(site, t, e, y)
    requires var q := InShared(site, e); IsDir(t, q) || (q !in t && q != [] && IsDir(t, ParentOf(q)))
    ensures InShared(site, e) in t && InShared(site, e) < y
  {
    var q := InShared(site, e);
    if q < y {
      AncestorsAreDirs(t, y, q);
    } else if q in t {
      if y != q {
        AncestorsAreDirs(t, q, y);
      }
    } else {
      if y != ParentOf(q) && y != q {
        assert y < ParentOf(q);
        AncestorsAreDirs(t, ParentOf(q), y);
      }
    }
  }

  lemma NotEmptyNode(t: Tree, q: Path, y: Path)
    requires IsDir(t, q) && q < y && y in t
    ensures !EmptyNode(t, q)
  {
    assert y in Subtree(t, q);
  }

  /** One copy of the loop, if it is harmless, makes no link. */
  lemma CopyKeepsWays(site: Path, x: string, t: Tree, entries: seq<string>, k: nat, prev: seq<Comp>)
    requires k < |entries| && Base(site, x, t) && prev == Names(Release(site, x)) && Accepted(entries[k])
               && SharedTame(site, t, EntryPath(entries[k]))
    requires EmptyAt(t, SharedPath(site, entries[k])) && !IsSymlink(t, prev + Components(entries[k]))
    requires Harmless(site, x, t, EntryPath(entries[k]))
    ensures NoLinkAppears(t, Copy(t, prev + Components(entries[k]), SharedPath(site, entries[k])))
  {
    hide Copy, EmptyAt, IsSymlink, Held, OldEntryClear;
    assert prev + Components(entries[k]) == ReleasePath(site, x, entries[k]);
    EntrySpells(site, x, entries[k]);
    if OldEntryClear(site, x, t, EntryPath(entries[k])) {
      OldCopy(site, x, t, entries[k]);
    } else {
      SharedTrack(site, x, t, EntryPath(entries[k]));
      HeldCopy(t, site, EntryPath(entries[k]), ReleasePath(site, x, entries[k]), SharedPath(site, entries[k]));
    }
  }

  lemma OldCopy(site: Path, x: string, t: Tree, entry: string)
    requires Base(site, x, t) && Accepted(entry) && SharedTame(site, t, EntryPath(entry))
    requires !IsSymlink(t, ReleasePath(site, x, entry)) && OldEntryClear(site, x, t, EntryPath(entry))
    ensures NoLinkAppears(t, Copy(t, ReleasePath(site, x, entry), SharedPath(site, entry)))
  {
    hide Copy;
    EntrySpells(site, x, entry);
    if ReleaseTame(site, x, t, EntryPath(entry)) && Covered(site, x, t, EntryPath(entry)) {
      CoveredCopy(site, x, t, entry, SharedPath(site, entry));
    } else {
      LinklessSource(site, x, t, entry);
      LinklessCopy(t, ReleasePath(site, x, entry), SharedPath(site, entry));
    }
  }

  lemma NextCopied(site: Path, id: string, x: string, entries: seq<string>, start: Tree, n: nat, u: Tree,
      before: seq<Tree>, k: nat, prev: seq<Comp>)
    requires k < |entries| && AllAccepted(entries) && CopiedSoFar(site, id, x, entries, start, n, u, before)
    requires OldReady(site, x, u, entries, prev)
    requires Current(site) in start && start[Current(site)] == LinkTo(Release(site, x))
    requires EmptyAt(u, SharedPath(site, entries[k])) && !IsSymlink(u, prev + Components(entries[k]))
    ensures var v := Copy(u, prev + Components(entries[k]), SharedPath(site, entries[k]));
            && WellFormed(v) && CopiedSoFar(site, id, x, entries, start, n, v, before + [v])
            && OldReady(site, x, v, entries, prev)
  {
    hide Copy, EmptyAt, IsSymlink, Accepted, OldReady, Filled, Grown, Base, OutsideSame, Calm, HarmlessTo, LinkTo;
    var e, dst := EntryPath(entries[k]), SharedPath(site, entries[k]);
    var v := Copy(u, prev + Components(entries[k]), dst);
    EntrySpells(site, id, entries[k]);
    SharedTrack(site, id, u, e);
    CopyFills(u, prev + Components(entries[k]), InShared(site, e), dst) by { BaseIsTree(site, id, u, e); }
    FilledIsCalm(site, id, e, u, v);
    FilledIsCalm(site, x, e, u, v);
    FilledGrows(site, entries, k, u, v);
    FilledKeepsBase(site, id, e, u, v);
    CalmStep(site, id, {}, start, n, u, before, v);
    GrownTransitive(site, entries, start, u, v);
    OutsideTransitive(site, start, u, v);
    forall i | 0 <= i < |entries| ensures SharedTame(site, v, EntryPath(entries[i])) {
      OldReadyTo(site, x, u, entries, prev, i);
      CopyKeepsWay(site, x, u, entries, k, prev, EntryPath(entries[i]));
    }
    forall o | SharedTame(site, start, o) && HarmlessTo(site, x, start, entries, o) ensures SharedTame(site, v, o) {
      HarmlessToKept(site, id, x, start, u, entries, o);
      OldReadyBase(site, x, u, entries, prev);
      CopyKeepsWay(site, x, u, entries, k, prev, o);
    }
    OldBaseKept(site, x, u, v, entries, prev);
  }

  lemma OldReadyTo(site: Path, x: string, t: Tree, entries: seq<string>, prev: seq<Comp>, j: nat)
    requires OldReady(site, x, t, entries, prev) && j < |entries|
    ensures HarmlessTo(site, x, t, entries, EntryPath(entries[j]))
    ensures Base(site, x, t) && prev == Names(Release(site, x))
  {
  }

  lemma OldReadyBase(site: Path, x: string, t: Tree, entries: seq<string>, prev: seq<Comp>)
    requires OldReady(site, x, t, entries, prev)
    ensures Base(site, x, t) && prev == Names(Release(site, x))
  {
  }

  /** One copy leaves a way passable if no copy is harmful to it. */
  lemma CopyKeepsWay(site: Path, x: string, u: Tree, entries: seq<string>, k: nat, prev: seq<Comp>, o: Path)
    requires k < |entries| && Base(site, x, u) && prev == Names(Release(site, x)) && Accepted(entries[k])
               && SharedTame(site, u, EntryPath(entries[k]))
    requires EmptyAt(u, SharedPath(site, entries[k])) && !IsSymlink(u, prev + Components(entries[k]))
    requires SharedTame(site, u, o) && HarmlessTo(site, x, u, entries, o)
    requires Filled(u, Copy(u, prev + Components(entries[k]), SharedPath(site, entries[k])),
               InShared(site, EntryPath(entries[k])))
    ensures SharedTame(site, Copy(u, prev + Components(entries[k]), SharedPath(site, entries[k])), o)
  {
    hide Copy, EmptyAt, IsSymlink, Accepted, Filled, Base, Harmless, NoLinkAppears, SharedTame;
    if EntryPath(entries[k]) < o {
      CopyKeepsWays(site, x, u, entries, k, prev);
    }
    FilledKeepsTame(site, EntryPath(entries[k]), u,
        Copy(u, prev + Components(entries[k]), SharedPath(site, entries[k])),
      o);
  }

  lemma BaseIsTree(site: Path, id: string, t: Tree, e: Path)
    requires Base(site, id, t)
    ensures WellFormed(t) && InShared(site, e) != []
  {
  }

  lemma OutsideTransitive(site: Path, a: Tree, b: Tree, c: Tree)
    requires OutsideSame(site, a, b) && OutsideSame(site, b, c)
    ensures OutsideSame(site, a, c)
  {
  }

  lemma OldBaseKept(site: Path, x: string, t: Tree, u: Tree, entries: seq<string>, prev: seq<Comp>)
    requires OldReady(site, x, t, entries, prev) && OutsideSame(site, t, u) && WellFormed(u) && !IsLink(u, Shared(site))
    requires Calm(site, x, {}, t, u)
    ensures OldReady(site, x, u, entries, prev)
  {
    assert Shared(site)[|site|] == "shared" && Releases(site)[|site|] == "releases"
           && Release(site, x)[|site|] == "releases";
    OldReadyKept(site, x, t, u, entries, prev);
  }

  lemma CopyingBegins(site: Path, id: string, x: string, entries: seq<string>, t: Tree, trace: seq<Tree>)
    requires Base(site, id, t) && SharedTameAll(site, t, entries)
    ensures CopiedSoFar(site, id, x, entries, t, |trace|, t, trace)
  {
    CalmOfItself(site, id, {}, t);
  }

  // ---------------------------------------------------------------- when the old content arrives

  /** The source of a copy: a node that is no link, named by a path that does not end in ".". */
  ghost predicate OldNode(t: Tree, src: seq<Comp>, from: Path) {
    from in t && !t[from].Link? && RemovalRoot(t, src) == Some(from) && FileName(src).Some? && !Dotted(src)
  }

  /** The destination: an empty or missing place on whose way there is no link. */
  ghost predicate NewPlace(t: Tree, q: Path, dst: seq<Comp>) {
    q != [] && NoLinks(t, q) && Spells(dst, q) && !EndsHere(dst) && WasEmpty(t, q)
  }

  lemma PlaceFound(t: Tree, q: Path, dst: seq<Comp>)
    requires WellFormed(t) && NewPlace(t, q, dst)
    ensures Resolve(t, dst) == if q in t then Some(q) else None
    ensures Spot(t, dst) == if IsDir(t, ParentOf(q)) then Some(q) else None
    ensures TrimEmpty(dst) == dst
  {
    NoLinksAbove(t, q);
    StraightResolve(t, q, dst);
    StraightSpot(t, q, dst);
  }

  /** Where one copy of the loop writes. */
  lemma CopyDecided(t: Tree, src: seq<Comp>, from: Path, q: Path, dst: seq<Comp>)
    requires WellFormed(t) && OldNode(t, src, from) && NewPlace(t, q, dst) && !(from <= q)
    ensures Copy(t, src, dst) ==
              if q !in t then if IsDir(t, ParentOf(q)) then CopyNode(t, from, q) else t
              else if t[q].Dir? then CopyNode(t, from, q + [FileName(src).value])
              else if t[from].File? then t[q := t[from]]
              else t
  {
    hide Resolve, Spot, RemovalRoot, Spells, NoLinks, Dotted, FileName;
    PlaceFound(t, q, dst);
    if q in t && t[q].Dir? {
      InsideIsFree(t, from, q, FileName(src).value);
    }
  }

  lemma InsideIsFree(t: Tree, from: Path, q: Path, n: string)
    requires q in t && t[q].Dir? && EmptyNode(t, q) && from in t && !(from <= q)
    ensures q + [n] !in t && !(from <= q + [n])
  {
    assert q + [n] in t ==> q + [n] in Subtree(t, q);
    assert from <= q + [n] ==> from == q + [n] || from <= ParentOf(q + [n]);
  }

  lemma FileBranch(t: Tree, p: Path)
    requires WellFormed(t) && p in t && !t[p].Dir?
    ensures Branch(t, p) == map[[] := t[p]]
  {
    NothingBelowNonDir(t, p);
    assert p + [] == p;
    forall k | k in Branch(t, p) ensures k == [] {
      assert p + k in t && (k != [] ==> p < p + k);
    }
  }

  lemma CopiedBranch(t: Tree, from: Path, q: Path)
    requires WellFormed(t) && from in t && !t[from].Link? && q != [] && IsDir(t, ParentOf(q)) && q !in t
    ensures Branch(CopyNode(t, from, q), q) == Branch(t, from)
  {
    if t[from].Dir? {
      BranchIsTree(t, from);
      PlantContents(t, q, Branch(t, from));
    } else {
      AddNode(t, q, t[from]);
      FileBranch(t, from);
      FileBranch(t[q := t[from]], q);
    }
  }

  lemma NotItsOwnChild(b: Tree, c: Tree, n: string)
    requires [] in b && forall k | k in b :: [n] + k in c
    ensures b != c
  {
    var k := LongestMember(b.Keys);
    assert |[n] + k| > |k|;
  }

  lemma InBranch(t: Tree, root: Path, k: Path)
    ensures k in Branch(t, root) <==> root + k in t
  {
  }

  /** A directory that holds a copy of the old node under some name is not a copy of the old node. */
  lemma InsideIsNotThere(t: Tree, from: Path, q: Path, n: string)
    requires WellFormed(t) && IsDir(t, q) && from in t && !t[from].Link? && q + [n] !in t
    ensures Branch(CopyNode(t, from, q + [n]), q) != Branch(t, from)
  {
    hide CopyNode, Branch, WellFormed;
    var u := CopyNode(t, from, q + [n]);
    assert ParentOf(q + [n]) == q;
    CopiedBranch(t, from, q + [n]);
    assert from + [] == from;
    InBranch(t, from, []);
    forall k | k in Branch(t, from) ensures [n] + k in Branch(u, q) {
      InBranch(u, q + [n], k);
      InBranch(u, q, [n] + k);
      assert q + ([n] + k) == (q + [n]) + k;
    }
    NotItsOwnChild(Branch(t, from), Branch(u, q), n);
  }

  /**
   A shared path without links on its way is copied to if it is missing, a directory with
   nothing in it, or an empty file.
   */
  lemma CopiedWhenEmpty(site: Path, t: Tree, prev: seq<Comp>, entry: string, q: Path)
    requires WellFormed(t) && q != [] && NoLinks(t, q)
    requires Spells(SharedPath(site, entry), q) && !EndsHere(SharedPath(site, entry))
    ensures var src := prev + Components(entry);
            var empty := q in t ==> if t[q].Dir? then NothingBelow(t, q) else t[q] == File("");
            CopyOne(site, t, prev, entry) ==
            if Exists(t, src) && !IsSymlink(t, src) && empty then Copy(t, src, SharedPath(site, entry)) else t
  {
    hide Copy, Spells, NoLinks, Resolve, IsSymlink;
    var dst := SharedPath(site, entry);
    StraightResolve(t, q, dst);
    if q in t {
      assert q in Subtree(t, q);
      LinkAtEnd(t, q);
      if t[q].Dir? {
        assert NothingBelow(t, q) <==> Subtree(t, q) == {q} by {
          OnlyItself(t, q);
        }
      }
    }
  }

  lemma LinkAtEnd(t: Tree, q: Path)
    requires NoLinks(t, q) && q in t
    ensures !t[q].Link?
  {
    assert q[..|q|] == q;
  }

  lemma OnlyItself(t: Tree, q: Path)
    requires q in t
    ensures NothingBelow(t, q) <==> Subtree(t, q) == {q}
  {
    if NothingBelow(t, q) {
      assert forall p | p in Subtree(t, q) :: p == q;
    }
    if Subtree(t, q) == {q} {
      forall p | p in t ensures !(q < p) {
        assert q < p ==> p in Subtree(t, q);
      }
    }
  }

  /**
   The old content arrives at the shared path if and only if nothing is there and its
   directory is, or both are files.
   */
  lemma CopyArrives(t: Tree, src: seq<Comp>, from: Path, q: Path, dst: seq<Comp>)
    requires WellFormed(t) && OldNode(t, src, from) && NewPlace(t, q, dst) && !(from <= q)
    ensures Branch(Copy(t, src, dst), q) == Branch(t, from) <==>
              || (q !in t && IsDir(t, ParentOf(q)))
              || (q in t && t[q].File? && t[from].File?)
  {
    hide Copy, Resolve, Spot, RemovalRoot;
    CopyDecided(t, src, from, q, dst);
    assert from + [] == from && q + [] == q;
    assert [] in Branch(t, from) && Branch(t, from)[[]] == t[from];
    if q !in t {
      if IsDir(t, ParentOf(q)) {
        CopiedBranch(t, from, q);
      }
    } else if t[q].Dir? {
      var n := FileName(src).value;
      assert q + [n] in t ==> q + [n] in Subtree(t, q);
      InsideIsNotThere(t, from, q, n);
    } else if t[from].File? {
      FileReplaced(t, q, t[from]);
      FileBranch(t, from);
      FileBranch(t[q := t[from]], q);
    } else {
      FileBranch(t, q);
    }
  }

  /** After linking, the shared path of a directory is there: only a file copied to a file arrives. */
  lemma ArrivesAfterLinking(site: Path, t: Tree, src: seq<Comp>, from: Path, entry: string, dst: seq<Comp>)
    requires var sh := InShared(site, EntryPath(entry));
             WellFormed(t) && OldNode(t, src, from) && NewPlace(t, sh, dst) && !(from <= sh)
                 && HasTarget(site, t, entry)
    ensures var sh := InShared(site, EntryPath(entry));
            Branch(Copy(t, src, dst), sh) == Branch(t, from) <==> !DirKind(entry) && t[sh].File? && t[from].File?
  {
    CopyArrives(t, src, from, InShared(site, EntryPath(entry)), dst);
  }

  /**
   When the shared path is a directory, as linking has just made it, `cp -a` puts the old
   directory inside it under its own name.
   */
  lemma CopyLandsInside(t: Tree, src: seq<Comp>, from: Path, q: Path, dst: seq<Comp>)
    requires WellFormed(t) && OldNode(t, src, from) && NewPlace(t, q, dst) && IsDir(t, q)
    requires !(from <= q)
    ensures var inside, u := q + [FileName(src).value], Copy(t, src, dst);
            Branch(u, inside) == Branch(t, from) && forall p | q < p && p in u :: inside <= p
  {
    hide Copy;
    var inside := q + [FileName(src).value];
    CopyDecided(t, src, from, q, dst);
    assert inside in t ==> inside in Subtree(t, q);
    assert ParentOf(inside) == q;
    CopiedBranch(t, from, inside);
    CopyNodeFills(t, from, inside, inside) by { EmptyIsVacant(t, inside); }
    forall p | q < p && p in Copy(t, src, dst) ensures inside <= p {
      assert p in t ==> p in Subtree(t, q);
    }
  }

  // ---------------------------------------------------------------- the beginning of the copy loop

  /** The copies can begin: `x` is the release they are made from, if there is one. */
  ghost predicate CopyReady(site: Path, id: string, x: string, t: Tree, entries: seq<string>) {
    && AllAccepted(entries) && Base(site, id, t) && SharedTameAll(site, t, entries)
    && (IsLink(t, Current(site)) ==>
          t[Current(site)] == LinkTo(Release(site, x)) && OldReady(site, x, t, entries, Names(Release(site, x))))
  }

  lemma CurrentIs(site: Path, id: string, x: string, t: Tree, entries: seq<string>)
    requires CopyReady(site, id, x, t, entries)
    ensures Spot(t, Names(Current(site))) == Some(Current(site))
    ensures IsSymlink(t, Names(Current(site))) ==>
              && t[Current(site)] == LinkTo(Release(site, x))
              && OldReady(site, x, t, entries, t[Current(site)].target)
    ensures AllAccepted(entries) && Base(site, id, t) && SharedTameAll(site, t, entries)
  {
    assert ParentOf(Current(site)) == site;
    DirsAreLinkFree(t, Current(site));
    SpotLinkFree(t, Current(site));
  }

  lemma CopyReadyBegins(site: Path, id: string, x: string, entries: seq<string>, t: Tree, trace: seq<Tree>)
    requires CopyReady(site, id, x, t, entries)
    ensures CopiedSoFar(site, id, x, entries, t, |trace|, t, trace)
  {
    CopyingBegins(site, id, x, entries, t, trace);
  }

  lemma NothingCopiedYet(site: Path, t: Tree, prev: seq<Comp>, entries: seq<string>)
    ensures CopyAll(site, t, prev, entries[..0]) == t
  {
  }
}
