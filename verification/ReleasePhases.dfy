/**
 The phases of an atomic deploy before the swap: directories, clone, linking, copying, the
 script; what each may do to the tree, and what they achieve together.
 */
module ReleasePhases {
  import opened Wrappers
  import opened FileSystem
  import opened PathTracks
  import opened TreeOps
  import opened ReleaseTrees
  import opened ReleaseLinks
  import opened ReleaseRounds
  import opened ReleaseLists
  import opened ReleaseLoops
  import opened ReleaseCopy
  import opened Text

  // ---------------------------------------------------------------- the inputs of a deploy

  /** A tree of files, as git or a script leaves it. */
  type Files = t: Tree | WellFormed(t) witness map[[] := Dir]

  /** How the clone ends: done, failed with an exit status, or timed out or not started. */
  datatype CloneRun = Cloned(repo: Files) | CloneFailed(partial: Option<Files>) | CloneDied(partial: Option<Files>)

  datatype ScriptEnd = ExitedZero | ExitedNonzero | Died

  /** The deploy script: its name, what it does to the tree, and how it ends. */
  datatype Script = Script(name: string, effect: Tree -> Files, end: ScriptEnd)

  predicate RunsScript(script: Option<Script>) {
    script.Some? && Trim(script.value.name) != ""
  }

  /** No link appears or changes under shared/. */
  ghost predicate NoNewLinks(site: Path, t: Tree, u: Tree) {
    forall p | IsLink(u, p) && Shared(site) < p :: p in t && u[p] == t[p]
  }

  /** A script that keeps to the new release, apart from new files under shared/. */
  ghost predicate Behaves(site: Path, id: string, effect: Tree -> Files) {
    forall t: Tree | WellFormed(t) && IsDir(t, Release(site, id)) ::
      Calm(site, id, {}, t, effect(t)) && NoNewLinks(site, t, effect(t)) && IsDir(effect(t), Release(site, id))
  }

  /** No link of the repository is followed on the way to a listed path. */
  ghost predicate RepoClear(repo: Tree, entries: seq<string>) {
    forall j, i | 0 <= j < |entries| && 0 < i <= Walked(entries[j]) :: !IsLink(repo, EntryPath(entries[j])[..i])
  }

  /** No file lies in the repository where the listed path needs a directory. */
  ghost predicate RepoOpen(repo: Tree, entry: string) {
    EntryPath(entry) != [] && NothingInTheWay(repo, ParentOf(EntryPath(entry)))
  }

  /**
   What a deploy relies on: a good site, a fresh id, entries as the route accepts them, and
   links that do not lead astray: none of the repository on the way to an entry, under
   shared/ only such as lead to themselves, and, if calls fail or entries are slashed, none in
   the old release where an entry with others below it is copied from.
   */
  ghost predicate Ready(site: Path, id: string, t: Tree, entries: seq<string>, clone: CloneRun,
      script: Option<Script>, faulty: bool)
  {
    && Good(site, t) && Release(site, id) !in t
    && AllAccepted(entries) && SharedTameAll(site, t, entries) && CopiesClear(site, t, entries, faulty)
    && (clone.Cloned? ==> RepoClear(clone.repo, entries))
    && (script.Some? ==> Behaves(site, id, script.value.effect))
  }

  // ---------------------------------------------------------------- between the phases

  lemma TameKept(site: Path, t: Tree, u: Tree)
    requires NoNewLinks(site, t, u)
    ensures TameStays(site, t, u)
  {
    forall o | SharedTame(site, t, o) ensures SharedTame(site, u, o) {
      forall i | 0 < i <= |o| && IsLink(u, InShared(site, o[..i]))
        ensures LeadsTo(u[InShared(site, o[..i])], InShared(site, o[..i]))
      {
        assert Shared(site) < InShared(site, o[..i]);
      }
    }
  }

  /** Under shared/, the ways the deploy makes no link on are as passable as they were. */
  ghost predicate KeepsTame(site: Path, entries: seq<string>, faulty: bool, start: Tree, t: Tree) {
    forall o | SharedTame(site, start, o) && CopySafe(site, start, entries, o, faulty) :: SharedTame(site, t, o)
  }

  /** Between two phases: the run has been calm and the shared paths are still tame. */
  ghost predicate Calmly(site: Path, id: string, entries: seq<string>, start: Tree, n: nat, t: Tree, trace: seq<Tree>,
      faulty: bool)
  {
    CalmRun(site, id, HitPaths(entries), start, n, t, trace) && SharedTameAll(site, t, entries)
    && KeepsTame(site, entries, faulty, start, t)
  }

  lemma CalmlyBase(site: Path, id: string, entries: seq<string>, start: Tree, n: nat, t: Tree, trace: seq<Tree>,
      faulty: bool)
    requires Laid(site, start) && WellFormed(t) && Calmly(site, id, entries, start, n, t, trace, faulty)
    ensures Base(site, id, t)
  {
    CalmKeepsSite(site, id, HitPaths(entries), start, t);
  }

  lemma CalmlyStep(site: Path, id: string, entries: seq<string>, start: Tree, n: nat, u: Tree, before: seq<Tree>,
      v: Tree, faulty: bool)
    requires Calmly(site, id, entries, start, n, u, before, faulty) && Calm(site, id, {}, u, v)
               && NoNewLinks(site, u, v)
    ensures Calmly(site, id, entries, start, n, v, before + [v], faulty)
  {
    CalmWithMoreLost(site, id, {}, HitPaths(entries), u, v);
    CalmStep(site, id, HitPaths(entries), start, n, u, before, v);
    TameKept(site, u, v);
  }

  // ---------------------------------------------------------------- directories

  ghost predicate SameShared(site: Path, t: Tree, u: Tree) {
    && (forall p | p in t && Shared(site) <= p :: p in u && u[p] == t[p])
    && (forall p | p in u && Shared(site) < p :: p in t)
  }

  lemma SameSharedGrows(site: Path, entries: seq<string>, t: Tree, u: Tree)
    requires SameShared(site, t, u)
    ensures Grown(site, entries, t, u)
  {
  }

  lemma SameSharedTransitive(site: Path, a: Tree, b: Tree, c: Tree)
    requires SameShared(site, a, b) && SameShared(site, b, c)
    ensures SameShared(site, a, c)
  {
  }

  lemma MadeDirsIsCalm(site: Path, id: string, t: Tree, u: Tree, q: Path)
    requires q == Releases(site) || q == Shared(site)
    requires MadeDirs(t, u, q, q)
    ensures Calm(site, id, {}, t, u) && NoNewLinks(site, t, u) && SameShared(site, t, u)
    ensures Release(site, id) !in t ==> Release(site, id) !in u
  {
    forall p | p in u && p !in t ensures MayAppear(site, id, p) {
      assert |p| <= |site| ==> p <= site;
      assert |p| > |site| ==> p == q;
    }
    assert |Release(site, id)| > |q|;
    assert TmpLink(site, id)[|site|][0] == 'c' && q[|site|][0] != 'c';
  }

  lemma PlaceTrack(site: Path, id: string, t: Tree, q: Path)
    requires Base(site, id, t) && (q == Releases(site) || q == Shared(site))
    ensures Track(t, q, q)
  {
    if q == Releases(site) {
      ReleasesTrack(site, id, t);
    } else {
      SharedTrack(site, id, t, []);
      assert InShared(site, []) == Shared(site);
    }
  }

  lemma CalmlyDirs(site: Path, id: string, entries: seq<string>, start: Tree, n: nat, u: Tree, before: seq<Tree>,
      t: Tree, trace: seq<Tree>, q: Path, faulty: bool)
    requires Calmly(site, id, entries, start, n, u, before, faulty) && before <= trace && Base(site, id, u)
    requires q == Releases(site) || q == Shared(site)
    requires MkdirAllDid(u, |before|, t, trace, Names(q), q, q, faulty)
    ensures Calmly(site, id, entries, start, n, t, trace, faulty) && SameShared(site, u, t)
    ensures IsDir(u, Releases(site)) ==> IsDir(t, Releases(site))
    ensures Release(site, id) !in u ==> Release(site, id) !in t
    ensures !faulty && (q in u ==> IsDir(u, q)) ==> IsDir(t, q)
  {
    PlaceTrack(site, id, u, q);
    MadeDirsIsCalm(site, id, u, t, q);
    CalmWithMoreLost(site, id, {}, HitPaths(entries), u, t);
    forall i | |before| <= i < |trace| ensures Calm(site, id, HitPaths(entries), u, trace[i]) {
      MadeDirsIsCalm(site, id, u, trace[i], q);
      CalmWithMoreLost(site, id, {}, HitPaths(entries), u, trace[i]);
    }
    CalmRunExtended(site, id, HitPaths(entries), start, n, u, before, t, trace);
    TameKept(site, u, t);
    if q in u ==> IsDir(u, q) {
      PlaceWay(site, id, u, q);
      NotDottedNames(q);
    }
  }

  lemma PlaceWay(site: Path, id: string, t: Tree, q: Path)
    requires Base(site, id, t) && (q == Releases(site) || q == Shared(site)) && (q in t ==> IsDir(t, q))
    ensures NothingInTheWay(t, q)
  {
    forall i | 0 <= i <= |q| && q[..i] in t ensures IsDir(t, q[..i]) {
      if i <= |site| {
        PrefixPresent(t, site, i);
        assert q[..i] == site[..i] && site[..|site|] == site;
      } else {
        assert q[..i] == q;
      }
    }
  }

  lemma NotDottedNames(q: Path)
    requires q != []
    ensures !Dotted(Names(q))
  {
  }

  /** What `exists and is a directory` says of releases/ and shared/. */
  lemma PlaceDirAt(site: Path, id: string, t: Tree, q: Path)
    requires Base(site, id, t) && (q == Releases(site) || q == Shared(site))
    ensures IsDirAt(t, Names(q)) <==> IsDir(t, q)
  {
    assert ParentOf(q) == site;
    DirsAreLinkFree(t, q);
    ResolveLinkFree(t, q);
  }

  // ---------------------------------------------------------------- clone and clean-up

  lemma PrunedIsCalm(site: Path, id: string, lost: set<Path>, t: Tree, u: Tree)
    requires Pruned(t, u, Release(site, id))
    ensures Calm(site, id, lost, t, u) && NoNewLinks(site, t, u)
  {
  }

  lemma CalmlyRemoval(site: Path, id: string, entries: seq<string>, start: Tree, n: nat, u: Tree, before: seq<Tree>,
      t: Tree, trace: seq<Tree>, faulty: bool)
    requires Calmly(site, id, entries, start, n, u, before, faulty) && before <= trace
    requires Pruned(u, t, Release(site, id)) && PrunedSince(u, trace, |before|, Release(site, id))
    ensures Calmly(site, id, entries, start, n, t, trace, faulty)
  {
    PrunedIsCalm(site, id, HitPaths(entries), u, t);
    forall i | |before| <= i < |trace| ensures Calm(site, id, HitPaths(entries), u, trace[i]) {
      PrunedIsCalm(site, id, HitPaths(entries), u, trace[i]);
    }
    CalmRunExtended(site, id, HitPaths(entries), start, n, u, before, t, trace);
    TameKept(site, u, t);
  }

  lemma OnlyReleaseIsCalm(site: Path, id: string, t: Tree, u: Tree)
    requires forall p | !(Release(site, id) <= p) :: p in u <==> p in t
    requires forall p | p in t && !(Release(site, id) <= p) :: u[p] == t[p]
    requires !IsLink(u, Release(site, id))
    ensures Calm(site, id, {}, t, u) && NoNewLinks(site, t, u) && SameShared(site, t, u)
  {
    var r := Release(site, id);
    assert r[|site|] == "releases" && Shared(site)[|site|] == "shared" && TmpLink(site, id)[|site|][0] == 'c';
    assert Releases(site)[|site|] == "releases" && |r| == |site| + 2;
    forall p | p in t ensures r <= p || KeptNode(site, t, u, p) {
    }
  }

  lemma PlantIsCalm(site: Path, id: string, t: Tree, repo: Tree)
    requires WellFormed(t) && WellFormed(repo) && IsDir(t, Releases(site))
    ensures var u := Plant(t, Release(site, id), repo);
            && WellFormed(u) && Calm(site, id, {}, t, u) && IsDir(u, Release(site, id))
            && NoNewLinks(site, t, u) && SameShared(site, t, u)
  {
    hide Plant, Calm, NoNewLinks, SameShared, WellFormed;
    assert ParentOf(Release(site, id)) == Releases(site);
    PlantKeepsTree(t, Release(site, id), repo);
    OnlyReleaseIsCalm(site, id, t, Plant(t, Release(site, id), repo));
  }

  lemma CalmlyPlant(site: Path, id: string, entries: seq<string>, start: Tree, n: nat, u: Tree, before: seq<Tree>,
      repo: Files, faulty: bool)
    requires Calmly(site, id, entries, start, n, u, before, faulty)
    requires WellFormed(u) && IsDir(u, Releases(site)) && Release(site, id) !in u
    ensures var v := Plant(u, Release(site, id), repo);
            && WellFormed(v) && IsDir(v, Release(site, id))
            && Calmly(site, id, entries, start, n, v, before + [v], faulty)
            && SameShared(site, u, v)
  {
    PlantIsCalm(site, id, u, repo);
    CalmlyStep(site, id, entries, start, n, u, before, Plant(u, Release(site, id), repo), faulty);
  }

  /** The new release holds what the repository holds, apart from the listed paths. */
  ghost predicate RepoThere(site: Path, id: string, repo: Tree, entries: seq<string>, t: Tree) {
    forall p | p in repo :: UnderEntry(site, id, entries, Release(site, id) + p)
                            || (Release(site, id) + p in t && t[Release(site, id) + p] == repo[p])
  }

  lemma RestKeepsRepo(site: Path, id: string, repo: Tree, entries: seq<string>, s: Tree, t: Tree)
    requires RepoThere(site, id, repo, entries, s) && RestKept(site, id, entries, s, t)
    ensures RepoThere(site, id, repo, entries, t)
  {
    forall p | p in repo
      ensures UnderEntry(site, id, entries, Release(site, id) + p)
              || (Release(site, id) + p in t && t[Release(site, id) + p] == repo[p])
    {
      assert Release(site, id) <= Release(site, id) + p;
    }
  }

  /** After the clone the loop over the shared paths can begin. */
  ghost predicate ClonedWell(site: Path, id: string, entries: seq<string>, t: Tree, clone: CloneRun) {
    && LinkStart(site, id, entries, t)
    && clone.Cloned?
    && (forall j | 0 <= j < |entries| && RepoOpen(clone.repo, entries[j]) :: WayOpen(site, id, t, entries[j]))
    && RepoThere(site, id, clone.repo, entries, t)
  }

  /** The release is the repository. */
  ghost predicate HoldsRepo(site: Path, id: string, t: Tree, repo: Tree) {
    && (forall p :: InRelease(site, id, p) in t <==> p in repo)
    && (forall p | p in repo :: t[InRelease(site, id, p)] == repo[p])
  }

  lemma ClonedTame(site: Path, id: string, entries: seq<string>, t: Tree, repo: Tree)
    requires HoldsRepo(site, id, t, repo) && RepoClear(repo, entries) && SharedTameAll(site, t, entries)
    ensures AllTame(site, id, t, entries) && LinksFrom(site, id, t, entries, 0)
  {
    forall j, i | 0 <= j < |entries| && 0 < i <= Walked(entries[j])
      ensures !IsLink(t, InRelease(site, id, EntryPath(entries[j])[..i]))
    {
      assert !IsLink(repo, EntryPath(entries[j])[..i]);
    }
    forall j | 0 <= j < |entries| ensures WayTame(site, id, t, entries[j]) {
      var e := EntryPath(entries[j])[..Walked(entries[j])];
      forall i | 0 < i <= |e| ensures !IsLink(t, InRelease(site, id, e[..i])) {
        assert e[..i] == EntryPath(entries[j])[..i];
      }
      assert SharedTame(site, t, EntryPath(entries[j]));
    }
  }

  lemma ClonedWayOpen(site: Path, id: string, t: Tree, repo: Tree, entry: string)
    requires WellFormed(t) && IsDir(t, Release(site, id)) && HoldsRepo(site, id, t, repo) && RepoOpen(repo, entry)
    ensures WayOpen(site, id, t, entry)
  {
    ParentOfIn(site, id, EntryPath(entry));
    RepoWayClear(site, id, t, repo, ParentOf(EntryPath(entry)));
  }

  lemma RepoWayClear(site: Path, id: string, t: Tree, repo: Tree, up: Path)
    requires WellFormed(t) && IsDir(t, Release(site, id)) && HoldsRepo(site, id, t, repo) && NothingInTheWay(repo, up)
    ensures NothingInTheWay(t, InRelease(site, id, up))
  {
    var q := InRelease(site, id, up);
    forall i | 0 <= i <= |q| && q[..i] in t ensures IsDir(t, q[..i]) {
      ReleasePrefix(site, id, up, i);
      if i <= |site| + 1 {
        PrefixPresent(t, Release(site, id), i);
        assert Release(site, id)[..i] == q[..i];
      } else {
        assert up[..i - |site| - 2] in repo;
      }
    }
  }

  lemma PlantHoldsRepo(site: Path, id: string, t: Tree, repo: Tree)
    requires WellFormed(t) && WellFormed(repo) && IsDir(t, Releases(site))
    ensures HoldsRepo(site, id, Plant(t, Release(site, id), repo), repo)
  {
    assert ParentOf(Release(site, id)) == Releases(site);
    PlantContents(t, Release(site, id), repo);
  }

  lemma PlantIsClonedWell(site: Path, id: string, entries: seq<string>, u: Tree, clone: CloneRun)
    requires WellFormed(u) && IsDir(u, Releases(site)) && clone.Cloned? && AllAccepted(entries)
    requires var t := Plant(u, Release(site, id), clone.repo);
             Base(site, id, t) && IsDir(t, Release(site, id)) && SharedTameAll(site, t, entries)
    requires RepoClear(clone.repo, entries)
    ensures ClonedWell(site, id, entries, Plant(u, Release(site, id), clone.repo), clone)
  {
    hide Plant;
    var t := Plant(u, Release(site, id), clone.repo);
    PlantHoldsRepo(site, id, u, clone.repo);
    ClonedTame(site, id, entries, t, clone.repo);
    forall j | 0 <= j < |entries| && RepoOpen(clone.repo, entries[j]) ensures WayOpen(site, id, t, entries[j]) {
      ClonedWayOpen(site, id, t, clone.repo, entries[j]);
    }
  }

  // ---------------------------------------------------------------- linking and copying together

  /**
   The release is there when all entries are linked: without an empty entry, or, if nothing
   fails, whenever it is rebuilt.
   */
  predicate Whole(entries: seq<string>, faulty: bool) {
    "" !in entries || (!faulty && Rebuilt(entries))
  }

  /** Every entry that can be one is a link: no slash at its end, no file of the repository above it. */
  ghost predicate AllLinked(site: Path, id: string, t: Tree, entries: seq<string>, repo: Tree) {
    forall j | 0 <= j < |entries| && !Slashed(entries[j]) && RepoOpen(repo, entries[j]) ::
      HasLink(site, id, t, EntryPath(entries[j]))
  }

  /** Every shared path with nothing in its way in `s` is there. */
  ghost predicate AllTargets(site: Path, s: Tree, t: Tree, entries: seq<string>) {
    forall j | 0 <= j < |entries| && !Dotted(SharedPath(site, entries[j])) && SharedWay(site, s, entries[j]) ::
      TargetMade(site, s, t, entries[j])
  }

  /** The shared path is there: as a directory if its entry counts as one, and otherwise none has been made of it. */
  ghost predicate TargetMade(site: Path, s: Tree, t: Tree, entry: string) {
    var sh := InShared(site, EntryPath(entry));
    HasTarget(site, t, entry) && (!DirKind(entry) && !IsDir(s, sh) ==> t[sh].File?)
  }

  lemma TargetMadeBefore(site: Path, s: Tree, u: Tree, t: Tree, entry: string)
    requires TargetMade(site, u, t, entry) && SameShared(site, s, u) && Accepted(entry)
    requires !Dotted(SharedPath(site, entry))
    ensures TargetMade(site, s, t, entry)
  {
    var e := EntryPath(entry);
    if e == [] {
      NamelessShared(site, entry);
    } else {
      assert Shared(site) < InShared(site, e);
    }
  }

  lemma TargetMadeByLinking(site: Path, entries: seq<string>, s: Tree, t: Tree, j: nat)
    requires j < |entries| && Separate(entries) && DirsMade(site, entries, s, t) && HasTarget(site, t, entries[j])
    ensures TargetMade(site, s, t, entries[j])
  {
    hide DirKind;
    var sh := InShared(site, EntryPath(entries[j]));
    if IsDir(t, sh) && !IsDir(s, sh) {
      var i :| 0 <= i < |entries| && OnDirWay(site, entries[i], sh);
      NestingInShared(site, EntryPath(entries[j]), EntryPath(entries[i]));
    }
  }

  lemma CopyKeepsRelease(site: Path, id: string, entries: seq<string>, s: Tree, t: Tree)
    requires OutsideSame(site, s, t) && Calm(site, id, {}, s, t)
    ensures RestKept(site, id, entries, s, t) && (Release(site, id) in t <==> Release(site, id) in s)
    ensures IsDir(s, Releases(site)) ==> IsDir(t, Releases(site))
    ensures ReleaseIsDir(site, id, s) ==> ReleaseIsDir(site, id, t)
    ensures IsDir(s, Release(site, id)) ==> IsDir(t, Release(site, id))
    ensures forall e :: HasLink(site, id, s, e) ==> HasLink(site, id, t, e)
    ensures forall o, entry :: TargetMade(site, o, s, entry) ==> TargetMade(site, o, t, entry)
  {
    ReleaseOutside(site, id, s, t);
    assert Releases(site)[|site|] == "releases" && Shared(site)[|site|] == "shared";
    forall e | HasLink(site, id, s, e) ensures HasLink(site, id, t, e) {
      assert Release(site, id) <= InRelease(site, id, e);
    }
    forall o, entry | TargetMade(site, o, s, entry) ensures TargetMade(site, o, t, entry) {
      var sh := InShared(site, EntryPath(entry));
      assert Shared(site) <= sh;
      assert sh[|site|] == "shared" && Release(site, id)[|site|] == "releases";
      assert TmpLink(site, id)[|site|][0] == 'c';
      assert KeptNode(site, s, t, sh);
    }
  }

  /** What linking and copying achieve, seen from the cloned release. */
  ghost predicate Assembled(site: Path, id: string, entries: seq<string>, s: Tree, t: Tree, clone: CloneRun,
      faulty: bool)
  {
    && clone.Cloned? && RepoThere(site, id, clone.repo, entries, t)
    && IsDir(t, Releases(site)) && ReleaseIsDir(site, id, t) && (Whole(entries, faulty) ==> IsDir(t, Release(site, id)))
    && (!faulty && !Rebuilt(entries) ==> Release(site, id) !in t)
    && Grown(site, entries, s, t)
    && (!faulty && Separate(entries) ==>
         AllLinked(site, id, t, entries, clone.repo) && AllTargets(site, s, t, entries))
  }

  lemma LinkedAll(site: Path, id: string, entries: seq<string>, u: Tree, n: nat, v: Tree, between: seq<Tree>,
      faulty: bool)
    requires LinkedSoFar(site, id, entries, u, n, v, between, |entries|, faulty)
    ensures IsDir(v, Releases(site)) && ReleaseIsDir(site, id, v) && ("" !in entries ==> IsDir(v, Release(site, id)))
    ensures !faulty ==>
              (IsDir(v, Release(site, id)) <==> Rebuilt(entries)) && (Release(site, id) in v <==> Rebuilt(entries))
    ensures RestKept(site, id, entries, u, v) && Grown(site, entries, u, v)
    ensures !faulty && Separate(entries) ==>
              forall j | 0 <= j < |entries| && !Slashed(entries[j]) && WayOpen(site, id, u, entries[j]) ::
                HasLink(site, id, v, EntryPath(entries[j]))
    ensures !faulty && Separate(entries) ==> AllTargets(site, u, v, entries)
  {
    hide WayOpen, SharedWay, HasLink, HasTarget, Slashed, Dotted;
    assert entries[..|entries|] == entries;
    if !faulty && Separate(entries) {
      forall j | 0 <= j < |entries| && !Slashed(entries[j]) && WayOpen(site, id, u, entries[j])
        ensures HasLink(site, id, v, EntryPath(entries[j]))
      {
        assert LinkSoFar(site, id, v, entries, j, |entries|);
      }
      forall j | 0 <= j < |entries| && !Dotted(SharedPath(site, entries[j])) && SharedWay(site, u, entries[j])
        ensures TargetMade(site, u, v, entries[j])
      {
        assert TargetSoFar(site, v, entries, j, |entries|);
        TargetMadeByLinking(site, entries, u, v, j);
      }
    }
  }

  lemma AssembledFrom(site: Path, id: string, entries: seq<string>, u: Tree, n: nat, v: Tree, between: seq<Tree>,
      t: Tree, clone: CloneRun, faulty: bool)
    requires ClonedWell(site, id, entries, u, clone)
    requires LinkedSoFar(site, id, entries, u, n, v, between, |entries|, faulty)
    requires OutsideSame(site, v, t) && Grown(site, entries, v, t) && Calm(site, id, {}, v, t)
    ensures Assembled(site, id, entries, u, t, clone, faulty)
  {
    hide LinkStart, LinkedSoFar, Grown, OutsideSame, Calm, Separate, Rebuilt, RepoThere, RestKept, WayOpen, RepoOpen,
      SharedWay, HasLink, TargetMade, HitPaths;
    LinkedAll(site, id, entries, u, n, v, between, faulty);
    CopyKeepsRelease(site, id, entries, v, t);
    RestKeepsRepo(site, id, clone.repo, entries, u, v);
    RestKeepsRepo(site, id, clone.repo, entries, v, t);
    GrownTransitive(site, entries, u, v, t);
  }

  lemma LinkedAndCopied(site: Path, id: string, x: string, entries: seq<string>, start: Tree, n: nat, clone: CloneRun,
      u: Tree, before: seq<Tree>, v: Tree, between: seq<Tree>, t: Tree, trace: seq<Tree>, faulty: bool)
    requires Calmly(site, id, entries, start, n, u, before, faulty) && ClonedWell(site, id, entries, u, clone)
    requires before <= between <= trace
    requires LinkedSoFar(site, id, entries, u, |before|, v, between, |entries|, faulty)
    requires CopiedSoFar(site, id, x, entries, v, |between|, t, trace)
    requires Good(site, start) && Release(site, id) !in start
    ensures Calmly(site, id, entries, start, n, t, trace, faulty)
    ensures Assembled(site, id, entries, u, t, clone, faulty)
  {
    hide ClonedWell, Calm, Assembled, LinkedSoFar, CopiedSoFar, Good, KeepsTame, TameStays;
    LinkedMeans(site, id, entries, u, |before|, v, between, faulty);
    CopiedMeans(site, id, x, entries, v, |between|, t, trace);
    CalmRunExtended(site, id, HitPaths(entries), start, n, u, before, v, between);
    CalmRunWithMoreLost(site, id, HitPaths(entries), v, |between|, t, trace);
    CalmRunExtended(site, id, HitPaths(entries), start, n, v, between, t, trace);
    AssembledFrom(site, id, entries, u, |before|, v, between, t, clone, faulty);
    CalmTransitive(site, id, HitPaths(entries), start, u, v);
    CopyKeepsTame(site, id, x, entries, start, u, v, t, faulty);
  }

  lemma LinkedMeans(site: Path, id: string, entries: seq<string>, u: Tree, n: nat, v: Tree, between: seq<Tree>,
      faulty: bool)
    requires LinkedSoFar(site, id, entries, u, n, v, between, |entries|, faulty)
    ensures CalmRun(site, id, HitPaths(entries), u, n, v, between) && TameStays(site, u, v)
    ensures !faulty && NoneSlashed(entries) ==> HeldSoFar(site, entries, v, |entries|)
  {
  }

  lemma CopiedMeans(site: Path, id: string, x: string, entries: seq<string>, v: Tree, n: nat, t: Tree, trace: seq<Tree>)
    requires CopiedSoFar(site, id, x, entries, v, n, t, trace)
    ensures CalmRun(site, id, {}, v, n, t, trace) && Calm(site, id, {}, v, t) && CopyTame(site, x, entries, v, t)
    ensures OutsideSame(site, v, t) && Grown(site, entries, v, t) && SharedTameAll(site, t, entries)
  {
  }

  /** What is safe when the deploy begins is harmless when the copies begin. */
  lemma SafeIsHarmless(site: Path, id: string, x: string, entries: seq<string>, lost: set<Path>, start: Tree, v: Tree,
      o: Path, faulty: bool)
    requires Calm(site, id, lost, start, v) && x != id && CopySafe(site, start, entries, o, faulty)
    requires Current(site) in start && start[Current(site)] == LinkTo(Release(site, x))
    requires !faulty && NoneSlashed(entries) ==> HeldSoFar(site, entries, v, |entries|)
    ensures HarmlessTo(site, x, v, entries, o)
  {
    hide Calm, Branch, OldEntryClear, LinkTo, Held, ServedClear;
    OlderUnchanged(site, id, lost, start, v, x);
    SameBranch(start, v, Release(site, x));
    forall i | 0 <= i < |entries| && EntryPath(entries[i]) < o ensures Harmless(site, x, v, EntryPath(entries[i])) {
      if Anchored(entries, i, faulty) {
        var j :| 0 <= j < |entries| && EntryPath(entries[i]) < EntryPath(entries[j]);
        assert Held(site, v, EntryPath(entries[i]));
      } else {
        ServedMeans(site, x, start, EntryPath(entries[i]));
        OldEntryKept(site, x, start, v, EntryPath(entries[i]));
      }
    }
  }

  lemma ServedMeans(site: Path, x: string, t: Tree, e: Path)
    requires ServedClear(site, t, e) && Current(site) in t && t[Current(site)] == LinkTo(Release(site, x))
    ensures OldEntryClear(site, x, t, e)
  {
  }

  /** The release `current` names is not the new one. */
  lemma ServedIsOld(site: Path, id: string, x: string, start: Tree)
    requires Good(site, start) && Release(site, id) !in start
    requires Current(site) in start && start[Current(site)] == LinkTo(Release(site, x))
    ensures x != id
  {
    var y :| start[Current(site)] == LinkTo(Release(site, y)) && IsDir(start, Release(site, y));
    OneRelease(site, x, y);
  }

  lemma CopyKeepsTame(site: Path, id: string, x: string, entries: seq<string>, start: Tree, u: Tree, v: Tree, t: Tree,
      faulty: bool)
    requires Good(site, start) && Release(site, id) !in start && Calm(site, id, HitPaths(entries), start, v)
    requires KeepsTame(site, entries, faulty, start, u) && TameStays(site, u, v) && CopyTame(site, x, entries, v, t)
    requires !faulty && NoneSlashed(entries) ==> HeldSoFar(site, entries, v, |entries|)
    ensures KeepsTame(site, entries, faulty, start, t)
  {
    hide Calm, LinkTo, HeldSoFar, CopySafe, HarmlessTo, SharedTame, Good;
    if t != v {
      OlderUnchanged(site, id, HitPaths(entries), start, v, id + "x");
      ServedIsOld(site, id, x, start);
      forall o | SharedTame(site, start, o) && CopySafe(site, start, entries, o, faulty)
        ensures SharedTame(site, t, o)
      {
        SafeIsHarmless(site, id, x, entries, HitPaths(entries), start, v, o, faulty);
        assert SharedTame(site, u, o) && SharedTame(site, v, o);
      }
    }
  }

  lemma CalmRunWithMoreLost(site: Path, id: string, lost: set<Path>, s: Tree, n: nat, t: Tree, trace: seq<Tree>)
    requires CalmRun(site, id, {}, s, n, t, trace)
    ensures CalmRun(site, id, lost, s, n, t, trace)
  {
    CalmWithMoreLost(site, id, {}, lost, s, t);
    forall i | n <= i < |trace| ensures Calm(site, id, lost, s, trace[i]) {
      CalmWithMoreLost(site, id, {}, lost, s, trace[i]);
    }
  }

  /** Two trees with the same branch at `r` agree at and below it. */
  lemma SameBranch(t: Tree, u: Tree, r: Path)
    requires Branch(u, r) == Branch(t, r)
    ensures forall p | r <= p && p in t :: p in u && u[p] == t[p]
    ensures forall p | r <= p && p in u :: p in t
  {
    forall p | r <= p && p in t ensures p in u && u[p] == t[p] {
      assert r + p[|r|..] == p;
      assert p[|r|..] in Branch(t, r) && Branch(t, r)[p[|r|..]] == t[p];
    }
    forall p | r <= p && p in u ensures p in t {
      assert r + p[|r|..] == p;
      assert p[|r|..] in Branch(u, r);
    }
  }

  /** The old release is as it was when the deploy began, so its links still lead nowhere else. */
  lemma OldStillReady(site: Path, id: string, x: string, entries: seq<string>, lost: set<Path>, start: Tree, t: Tree,
      faulty: bool)
    requires Calm(site, id, lost, start, t) && x != id && CopiesClear(site, start, entries, faulty)
    requires Current(site) in start && start[Current(site)] == LinkTo(Release(site, x)) && Base(site, x, t)
    requires !faulty && NoneSlashed(entries) ==> HeldSoFar(site, entries, t, |entries|)
    ensures OldReady(site, x, t, entries, Names(Release(site, x)))
  {
    hide Calm, Base, LinkTo, HeldSoFar, CopySafe, HarmlessTo;
    forall j | 0 <= j < |entries| ensures HarmlessTo(site, x, t, entries, EntryPath(entries[j])) {
      SafeIsHarmless(site, id, x, entries, lost, start, t, EntryPath(entries[j]), faulty);
    }
  }

  // ---------------------------------------------------------------- the script

  lemma CalmlyScript(site: Path, id: string, entries: seq<string>, start: Tree, n: nat, u: Tree, before: seq<Tree>,
      effect: Tree -> Files, faulty: bool)
    requires Calmly(site, id, entries, start, n, u, before, faulty)
    requires WellFormed(u) && IsDir(u, Release(site, id)) && Behaves(site, id, effect)
    ensures Calmly(site, id, entries, start, n, effect(u), before + [effect(u)], faulty)
              && IsDir(effect(u), Release(site, id))
  {
    CalmlyStep(site, id, entries, start, n, u, before, effect(u), faulty);
  }

  // ---------------------------------------------------------------- the built release

  /**
   The new release holds the repository. Without faults, and unless a file is in the way,
   every listed path of it is a link into shared/ and what the link names is there. Under
   shared/ nothing new appears but where it should.
   */
  ghost predicate Furnished(site: Path, id: string, entries: seq<string>, start: Tree, t: Tree, clone: CloneRun,
      faulty: bool)
  {
    && clone.Cloned? && RepoThere(site, id, clone.repo, entries, t)
    && Grown(site, entries, start, t)
    && (!faulty && Separate(entries) ==>
         AllLinked(site, id, t, entries, clone.repo) && AllTargets(site, start, t, entries))
  }

  /** A node of the repository above a linked entry is a directory. */
  lemma AboveLinkIsDir(site: Path, id: string, entries: seq<string>, t: Tree, repo: Tree, j: nat, q: Path)
    requires j < |entries| && Separate(entries) && WellFormed(t) && RepoThere(site, id, repo, entries, t)
    requires InRelease(site, id, EntryPath(entries[j])) in t && q < EntryPath(entries[j]) && q in repo
    ensures IsDir(repo, q)
  {
    var e := EntryPath(entries[j]);
    NestingInRelease(site, id, q, e);
    AncestorsAreDirs(t, InRelease(site, id, e), InRelease(site, id, q));
    if UnderEntry(site, id, entries, InRelease(site, id, q)) {
      var i :| 0 <= i < |entries| && InRelease(site, id, EntryPath(entries[i])) <= InRelease(site, id, q);
      NestingInRelease(site, id, EntryPath(entries[i]), q);
    }
  }

  /**
   After a deploy without faults and without script, of entries of which none lies below
   another: an entry without a slash at its end is a link into shared/ if and only if no
   file of the repository lies above it. One that is blocked does not affect the others.
   */
  lemma LinkedExactly(site: Path, id: string, entries: seq<string>, start: Tree, t: Tree, clone: CloneRun, j: nat)
    requires Furnished(site, id, entries, start, t, clone, false) && Separate(entries) && WellFormed(t)
    requires j < |entries| && Accepted(entries[j]) && !Slashed(entries[j])
    ensures HasLink(site, id, t, EntryPath(entries[j])) <==> RepoOpen(clone.repo, entries[j])
  {
    hide Grown, RepoThere, Separate, WellFormed;
    var e := EntryPath(entries[j]);
    EntrySpells(site, id, entries[j]);
    if HasLink(site, id, t, e) {
      var up := ParentOf(e);
      forall i | 0 <= i <= |up| && up[..i] in clone.repo ensures IsDir(clone.repo, up[..i]) {
        assert up[..i] < e;
        AboveLinkIsDir(site, id, entries, t, clone.repo, j, up[..i]);
      }
    }
  }

  /** What stands under shared/ above a node stood there as a directory before, if it stood there at all. */
  lemma AboveStood(site: Path, entries: seq<string>, start: Tree, t: Tree, e: Path, q: Path)
    requires Grown(site, entries, start, t) && HitPaths(entries) == {} && WellFormed(start) && WellFormed(t)
    requires IsDir(start, site) && q <= InShared(site, e) && IsDir(t, q) && q in start
    ensures IsDir(start, q)
  {
    hide WellFormed;
    assert q == InShared(site, e)[..|q|];
    SharedPrefix(site, e, |q|);
    if |q| <= |site| {
      PrefixPresent(start, site, |q|);
      assert site[..|site|] == site;
    } else {
      assert Shared(site) <= q;
      assert !Lost(site, HitPaths(entries), q);
    }
  }

  /**
   Likewise a shared path (but for one that ends in ".") is there, as a directory if its
   entry counts as one, if and only if nothing was in its way under shared/.
   */
  lemma TargetsExactly(site: Path, id: string, entries: seq<string>, start: Tree, t: Tree, clone: CloneRun, j: nat)
    requires Furnished(site, id, entries, start, t, clone, false) && Separate(entries)
    requires WellFormed(start) && IsDir(start, site) && WellFormed(t)
    requires j < |entries| && !Dotted(SharedPath(site, entries[j]))
    ensures HasTarget(site, t, entries[j]) <==> SharedWay(site, start, entries[j])
  {
    hide Separate, WellFormed, RepoThere, AllLinked, Grown, HasTarget, SharedWay, HitPaths, Dotted;
    SeparateHitsNothing(entries);
    if HasTarget(site, t, entries[j]) {
      TargetStood(site, entries, start, t, entries[j]);
    }
  }

  /**
   Which shared paths become directories and which files, where nothing is in the way and
   nothing of the other kind stands there: directories for the entries that end in a slash
   or have no dot, files for those that have a dot and do not end in a slash.
   */
  lemma TargetKinds(site: Path, id: string, entries: seq<string>, start: Tree, t: Tree, clone: CloneRun, j: nat)
    requires Furnished(site, id, entries, start, t, clone, false) && Separate(entries)
    requires j < |entries| && !Dotted(SharedPath(site, entries[j]))
    requires var entry, sh := entries[j], site + ["shared"] + EntryPath(entries[j]);
             && NothingInTheWay(start, ParentOf(sh))
             && (sh in start ==>
                   if '.' in entry && entry[|entry| - 1] != '/' then start[sh].File? else start[sh].Dir?)
    ensures var entry, sh := entries[j], site + ["shared"] + EntryPath(entries[j]);
            && sh in t
            && (t[sh].File? <==> '.' in entry && entry[|entry| - 1] != '/')
            && (t[sh].Dir? <==> '.' !in entry || entry[|entry| - 1] == '/')
  {
    hide Grown, RepoThere, Separate, AllLinked, Dotted;
    var sh := InShared(site, EntryPath(entries[j]));
    forall i | 0 <= i <= |sh| && sh[..i] in start && DirKind(entries[j]) ensures IsDir(start, sh[..i]) {
      assert i < |sh| ==> ParentOf(sh)[..i] == sh[..i];
      assert i == |sh| ==> sh[..i] == sh;
    }
    assert SharedWay(site, start, entries[j]);
    assert TargetMade(site, start, t, entries[j]);
  }

  lemma TargetStood(site: Path, entries: seq<string>, start: Tree, t: Tree, entry: string)
    requires Grown(site, entries, start, t) && HitPaths(entries) == {} && WellFormed(start) && WellFormed(t)
    requires IsDir(start, site) && HasTarget(site, t, entry)
    ensures SharedWay(site, start, entry)
  {
    hide WellFormed, Grown, HitPaths;
    var e := EntryPath(entry);
    var sh := InShared(site, e);
    var q := if DirKind(entry) then sh else ParentOf(sh);
    NoLinkStood(site, entries, start, t, e);
    assert q == sh || q == ParentOf(sh);
    forall i | 0 <= i <= |q| && q[..i] in start ensures IsDir(start, q[..i]) {
      WayOfTarget(site, t, entry, i);
      AboveStood(site, entries, start, t, e, q[..i]);
    }
  }

  lemma NoLinkStood(site: Path, entries: seq<string>, start: Tree, t: Tree, e: Path)
    requires Grown(site, entries, start, t) && HitPaths(entries) == {}
    requires InShared(site, e) in t && !t[InShared(site, e)].Link?
    ensures !IsLink(start, InShared(site, e))
  {
    assert Shared(site) <= InShared(site, e) && !Lost(site, HitPaths(entries), InShared(site, e));
  }

  lemma WayOfTarget(site: Path, t: Tree, entry: string, i: nat)
    requires WellFormed(t) && HasTarget(site, t, entry)
    requires var sh := InShared(site, EntryPath(entry)); i <= |if DirKind(entry) then sh else ParentOf(sh)|
    ensures var sh := InShared(site, EntryPath(entry));
            var q := if DirKind(entry) then sh else ParentOf(sh);
            IsDir(t, q[..i]) && q[..i] <= sh
  {
    hide WellFormed;
    var sh := InShared(site, EntryPath(entry));
    assert sh[..|sh|] == sh;
    assert !DirKind(entry) ==> ParentOf(sh)[..i] == sh[..i];
    if i < |sh| {
      AncestorsAreDirs(t, sh, sh[..i]);
    }
  }

  lemma ClearWayKept(site: Path, t: Tree, u: Tree, e: Path, q: Path)
    requires SameShared(site, t, u) && IsDir(u, site) && WellFormed(u) && IsDir(u, Shared(site))
    requires q <= InShared(site, e) && NothingInTheWay(t, q)
    ensures NothingInTheWay(u, q)
  {
    forall j | 0 <= j <= |q| && q[..j] in u ensures IsDir(u, q[..j]) {
      assert q[..j] == InShared(site, e)[..j];
      SharedPrefix(site, e, j);
      if j <= |site| {
        PrefixPresent(u, site, j);
        assert site[..|site|] == site;
      } else if j == |site| + 1 {
        assert q[..j] == Shared(site);
      } else {
        assert Shared(site) < q[..j];
      }
    }
  }

  lemma SharedWayKept(site: Path, t: Tree, u: Tree, entry: string)
    requires SameShared(site, t, u) && SharedWay(site, t, entry) && IsDir(u, site) && WellFormed(u)
    requires IsDir(u, Shared(site))
    ensures SharedWay(site, u, entry)
  {
    hide NothingInTheWay, WellFormed;
    var e := EntryPath(entry);
    var sh := InShared(site, e);
    ClearWayKept(site, t, u, e, if DirKind(entry) then sh else ParentOf(sh));
    assert e != [] ==> Shared(site) < sh;
    assert e == [] ==> sh == Shared(site);
  }

  lemma TargetsBefore(site: Path, id: string, entries: seq<string>, start: Tree, u: Tree, t: Tree)
    requires SameShared(site, start, u) && Base(site, id, u) && IsDir(u, Shared(site)) && AllAccepted(entries)
    requires AllTargets(site, u, t, entries)
    ensures AllTargets(site, start, t, entries)
  {
    hide SameShared, SharedWay, TargetMade, Dotted, Accepted;
    forall j | 0 <= j < |entries| && !Dotted(SharedPath(site, entries[j])) && SharedWay(site, start, entries[j])
      ensures TargetMade(site, start, t, entries[j])
    {
      SharedWayKept(site, start, u, entries[j]);
      TargetMadeBefore(site, start, u, t, entries[j]);
    }
  }

  lemma FurnishedFrom(site: Path, id: string, entries: seq<string>, start: Tree, u: Tree, t: Tree, clone: CloneRun,
      faulty: bool)
    requires SameShared(site, start, u) && Base(site, id, u) && IsDir(u, Shared(site)) && AllAccepted(entries)
    requires Assembled(site, id, entries, u, t, clone, faulty)
    ensures Furnished(site, id, entries, start, t, clone, faulty)
  {
    hide Grown, SameShared, Separate, RepoThere, AllLinked, AllTargets, HitPaths;
    SameSharedGrows(site, entries, start, u);
    GrownTransitive(site, entries, start, u, t);
    if !faulty && Separate(entries) {
      TargetsBefore(site, id, entries, start, u, t);
    }
  }

  // ---------------------------------------------------------------- between the methods

  lemma RootOfNames(t: Tree, root: Path)
    requires WellFormed(t) && root != [] && IsDir(t, ParentOf(root))
    ensures RemovalRoot(t, Names(root)) == Some(root) && !RootStays(t, Names(root))
  {
    DirsAreLinkFree(t, root);
    SpotLinkFree(t, root);
    assert !EndsHere(Names(root));
  }

  lemma LayoutBegins(site: Path, id: string, entries: seq<string>, start: Tree, trace: seq<Tree>, faulty: bool)
    requires Good(site, start) && SharedTameAll(site, start, entries)
    ensures Calmly(site, id, entries, start, |trace|, start, trace, faulty) && Laid(site, start)
  {
    CalmOfItself(site, id, HitPaths(entries), start);
  }

  lemma LayoutStep(site: Path, id: string, entries: seq<string>, start: Tree, n: nat, u: Tree, before: seq<Tree>,
      t: Tree, trace: seq<Tree>, q: Path, faulty: bool)
    requires Laid(site, start) && WellFormed(u) && WellFormed(t) && before <= trace
    requires Calmly(site, id, entries, start, n, u, before, faulty) && (q == Releases(site) || q == Shared(site))
    requires Spells(Names(q), q) ==> MkdirAllDid(u, |before|, t, trace, Names(q), q, q, faulty)
    ensures Calmly(site, id, entries, start, n, t, trace, faulty) && SameShared(site, u, t)
    ensures IsDirAt(t, Names(q)) <==> IsDir(t, q)
    ensures IsDir(u, Releases(site)) ==> IsDir(t, Releases(site))
    ensures Release(site, id) !in u ==> Release(site, id) !in t
    ensures !faulty && (q in u ==> IsDir(u, q)) ==> IsDir(t, q)
    ensures (Shared(site) in u ==> IsDir(u, Shared(site))) ==> Shared(site) in t ==> IsDir(t, Shared(site))
  {
    SpellsNames(q);
    CalmlyBase(site, id, entries, start, n, u, before, faulty);
    CalmlyDirs(site, id, entries, start, n, u, before, t, trace, q, faulty);
    CalmlyBase(site, id, entries, start, n, t, trace, faulty);
    PlaceDirAt(site, id, t, q);
    PlaceTrack(site, id, u, q);
    assert MadeDirs(u, t, q, q);
  }

  lemma ReleasesThere(site: Path, id: string, u: Tree, repo: Option<Files>, t: Tree)
    requires WellFormed(u) && IsDir(u, Releases(site)) && Release(site, id) !in u
    requires t == if repo.Some? then Plant(u, Release(site, id), repo.value) else u
    ensures IsDir(t, Releases(site)) && ReleaseIsDir(site, id, t)
  {
    if repo.Some? {
      PlantIsCalm(site, id, u, repo.value);
      ReleasesStay(site, id, {}, u, t);
    }
  }

  lemma CloneCounts(site: Path, id: string, entries: seq<string>, start: Tree, n: nat, u: Tree, t: Tree,
      trace: seq<Tree>, clone: CloneRun, faulty: bool)
    requires clone.Cloned? && AllAccepted(entries) && RepoClear(clone.repo, entries) && Laid(site, start)
    requires WellFormed(u) && WellFormed(t) && IsDir(u, Releases(site)) && t == Plant(u, Release(site, id), clone.repo)
    requires Calmly(site, id, entries, start, n, t, trace, faulty)
    ensures ClonedWell(site, id, entries, t, clone)
  {
    CalmlyBase(site, id, entries, start, n, t, trace, faulty);
    PlantIsCalm(site, id, u, clone.repo);
    PlantIsClonedWell(site, id, entries, u, clone);
  }

  lemma ClonedCanLink(site: Path, id: string, entries: seq<string>, t: Tree, clone: CloneRun)
    requires ClonedWell(site, id, entries, t, clone)
    ensures LinkStart(site, id, entries, t)
  {
  }

  lemma CopyCanBegin(site: Path, id: string, entries: seq<string>, start: Tree, n: nat, u: Tree, before: seq<Tree>,
      v: Tree, between: seq<Tree>, faulty: bool) returns (x: string)
    requires Calmly(site, id, entries, start, n, u, before, faulty)
    requires LinkedSoFar(site, id, entries, u, |before|, v, between, |entries|, faulty)
    requires Good(site, start) && Release(site, id) !in start && CopiesClear(site, start, entries, faulty)
    ensures CopyReady(site, id, x, v, entries)
  {
    CalmTransitive(site, id, HitPaths(entries), start, u, v);
    OlderUnchanged(site, id, HitPaths(entries), start, v, id + "x");
    forall i | 0 <= i < |entries| ensures SharedTame(site, v, EntryPath(entries[i])) {
      assert WayTame(site, id, v, entries[i]);
    }
    x := "";
    if IsLink(v, Current(site)) {
      x :| start[Current(site)] == LinkTo(Release(site, x)) && IsDir(start, Release(site, x));
      BaseOfOther(site, id, x, HitPaths(entries), start, v);
      OldStillReady(site, id, x, entries, HitPaths(entries), start, v, faulty);
    }
  }

  lemma BaseOfOther(site: Path, id: string, x: string, lost: set<Path>, start: Tree, t: Tree)
    requires Good(site, start) && Calm(site, id, lost, start, t) && x != id && Base(site, id, t)
    ensures Base(site, x, t)
  {
    CalmKeepsReleases(site, id, lost, start, t, x);
  }

  lemma MissingReleaseNotFound(site: Path, id: string, t: Tree)
    requires Base(site, id, t) && Release(site, id) !in t
    ensures Resolve(t, Names(Release(site, id))).None?
  {
    MissingWay(site, id, t);
    SpellsNames(Release(site, id));
    StraightResolve(t, Release(site, id), Names(Release(site, id)));
  }

  lemma MissingWay(site: Path, id: string, t: Tree)
    requires Base(site, id, t)
    ensures NoLinks(t, Release(site, id))
  {
    var r := Release(site, id);
    forall i | 0 <= i <= |r| ensures !IsLink(t, r[..i]) {
      if i <= |site| {
        assert r[..i] == site[..i];
        SiteHasNoLinks(site, t, r[..i]);
      } else if i == |site| + 1 {
        assert r[..i] == Releases(site);
      } else {
        assert r[..i] == r;
      }
    }
  }

  lemma SharedStillDir(site: Path, t: Tree, u: Tree)
    requires SameShared(site, t, u) && IsDir(t, Shared(site))
    ensures IsDir(u, Shared(site))
  {
  }

  lemma ReadyToRun(site: Path, id: string, entries: seq<string>, start: Tree, n: nat, u: Tree, v: Tree,
      trace: seq<Tree>, clone: CloneRun, faulty: bool)
    requires Good(site, start) && WellFormed(v)
    requires SameShared(site, start, u) && IsDir(u, Shared(site)) && ClonedWell(site, id, entries, u, clone)
    requires Calmly(site, id, entries, start, n, v, trace, faulty) && Assembled(site, id, entries, u, v, clone, faulty)
    ensures Base(site, id, v) && IsDir(v, Releases(site)) && ReleaseIsDir(site, id, v)
    ensures Furnished(site, id, entries, start, v, clone, faulty)
    ensures Whole(entries, faulty) ==> IsDir(v, Release(site, id))
    ensures !faulty && !Rebuilt(entries) ==> Release(site, id) !in v
    ensures !faulty ==> (Whole(entries, faulty) <==> Rebuilt(entries))
  {
    hide Furnished, SameShared, Calmly, Good;
    CalmlyBase(site, id, entries, start, n, v, trace, faulty) by { GoodIsLaid(site, start); }
    FurnishedFrom(site, id, entries, start, u, v, clone, faulty);
    WholeIsRebuilt(entries);
  }

  lemma GoodIsLaid(site: Path, t: Tree)
    requires Good(site, t)
    ensures Laid(site, t)
  {
  }

  lemma WholeIsRebuilt(entries: seq<string>)
    ensures Whole(entries, false) <==> Rebuilt(entries)
  {
    if "" !in entries {
      RebuiltWithoutEmpty(entries);
    }
  }
}
