/**
 Activation and listing of releases, and sequential runs of deploys and activations.
 */
module ReleaseRuns {
  import opened Wrappers
  import opened FileSystem
  import opened TreeOps
  import opened Text
  import opened Retention
  import opened ReleaseTrees
  import opened ReleaseLinks
  import opened ReleaseLists
  import opened ReleaseLoops
  import opened ReleaseCopy
  import opened ReleasePhases
  import opened ReleaseSwap

  // ---------------------------------------------------------------- activation and listing

  /** `release_id` as `activate_release` accepts it. */
  predicate ValidId(id: string) {
    id != "" && |id| <= 20 && AllDigits(id)
  }

  predicate Activatable(site: Path, id: string, t: Tree) {
    ValidId(id) && IsDir(t, Release(site, id)) && !IsDir(t, Current(site)) && !IsDir(t, TmpLink(site, id))
  }

  lemma ReleaseDirAt(site: Path, t: Tree, id: string)
    requires Good(site, t)
    ensures IsDirAt(t, Names(Release(site, id))) <==> IsDir(t, Release(site, id))
  {
    var r := Release(site, id);
    forall i | 0 <= i < |r| ensures !IsLink(t, r[..i]) {
      if i <= |site| {
        assert r[..i] == site[..i];
        assert i < |site| ==> IsDir(t, site[..i]) by {
          if i < |site| {
            AncestorsAreDirs(t, site, site[..i]);
          }
        }
        assert i == |site| ==> site[..i] == site;
      } else {
        assert r[..i] == Releases(site);
      }
    }
    ResolveLinkFree(t, r);
  }

  datatype ReleaseInfo = ReleaseInfo(id: string, active: bool)

  /** The name `list_releases` takes for the active one: the last piece of what `current` says. */
  function ActiveName(site: Path, t: Tree): Option<string> {
    if IsSymlink(t, Names(Current(site))) then FileName(t[Spot(t, Names(Current(site))).value].target) else None
  }

  lemma ActiveNameOf(site: Path, t: Tree, id: string)
    requires Active(site, id, t)
    ensures ActiveName(site, t) == Some(id)
  {
    SiteSpot(site, t, "current");
    var r := Release(site, id);
    assert !EndsHere(Names(r));
    assert Names(r)[|r| - 1] == Name(id);
  }

  function Described(names: seq<string>, active: Option<string>): (r: seq<ReleaseInfo>)
    ensures |r| == |names| && forall i | 0 <= i < |r| :: r[i] == ReleaseInfo(names[i], active == Some(names[i]))
  {
    if names == [] then [] else [ReleaseInfo(names[0], active == Some(names[0]))] + Described(names[1..], active)
  }

  /** Newest first, each release directory once, and exactly the release `current` names marked active. */
  ghost predicate Listing(site: Path, t: Tree, r: seq<ReleaseInfo>) {
    && (forall i, j | 0 <= i < j < |r| :: Less(r[j].id, r[i].id))
    && (forall id :: (exists i | 0 <= i < |r| :: r[i].id == id) <==> id in ReleaseNames(site, t))
    && (forall i | 0 <= i < |r| :: r[i].active <==> ActiveName(site, t) == Some(r[i].id))
  }

  lemma DescribedAt(sorted: seq<string>, active: Option<string>, i: nat)
    requires i < |sorted|
    ensures Described(Reversed(sorted), active)[i].id == sorted[|sorted| - 1 - i]
  {
  }

  lemma DescribedDescends(sorted: seq<string>, active: Option<string>)
    requires Ascending(sorted)
    ensures var r := Described(Reversed(sorted), active);
            forall i, j | 0 <= i < j < |r| :: Less(r[j].id, r[i].id)
  {
    var r := Described(Reversed(sorted), active);
    forall i, j | 0 <= i < j < |r| ensures Less(r[j].id, r[i].id) {
      DescribedAt(sorted, active, i);
      DescribedAt(sorted, active, j);
    }
  }

  lemma DescribedNames(sorted: seq<string>, active: Option<string>, id: string)
    ensures (exists i | 0 <= i < |sorted| :: Described(Reversed(sorted), active)[i].id == id) <==> id in sorted
  {
    var r := Described(Reversed(sorted), active);
    if id in sorted {
      var k :| 0 <= k < |sorted| && sorted[k] == id;
      assert r[|r| - 1 - k].id == id;
    }
  }

  lemma DescribedIsListing(site: Path, t: Tree, sorted: seq<string>)
    requires Ascending(sorted) && Elements(sorted) == ReleaseNames(site, t)
    ensures Listing(site, t, Described(Reversed(sorted), ActiveName(site, t)))
  {
    var r := Described(Reversed(sorted), ActiveName(site, t));
    DescribedDescends(sorted, ActiveName(site, t));
    forall id ensures (exists i | 0 <= i < |r| :: r[i].id == id) <==> id in ReleaseNames(site, t) {
      DescribedNames(sorted, ActiveName(site, t), id);
      assert id in Elements(sorted) <==> id in sorted;
    }
  }

  /** Once `current` is set, a listing of a good site has exactly one active entry. */
  lemma ExactlyOneActive(site: Path, t: Tree, r: seq<ReleaseInfo>)
    requires Good(site, t) && IsLink(t, Current(site)) && Listing(site, t, r)
    ensures exists k :: 0 <= k < |r| && r[k].active && forall j | 0 <= j < |r| && j != k :: !r[j].active
  {
    var id :| t[Current(site)] == LinkTo(Release(site, id)) && IsDir(t, Release(site, id));
    ActiveNameOf(site, t, id);
    ReleaseNamesMeaning(site, t);
    var k :| 0 <= k < |r| && r[k].id == id;
    forall j | 0 <= j < |r| && j != k ensures !r[j].active {
      LessTotal(r[j].id, r[j].id);
    }
  }

  // ---------------------------------------------------------------- sequential runs

  /** Every deploy comes with its own list of shared paths. */
  datatype Op =
    | Deploy(id: string, entries: seq<string>, clone: CloneRun, script: Option<Script>, keep: nat)
    | Activate(id: string)

  /** No release, whatever it is, has a name as great as `id`. */
  ghost predicate AllBelow(site: Path, t: Tree, id: string) {
    forall n | Release(site, n) in t :: Less(n, id)
  }

  /** The ids of the deploys rise. */
  ghost predicate Rising(ops: seq<Op>) {
    forall i, j | 0 <= i < j < |ops| && ops[i].Deploy? && ops[j].Deploy? :: Less(ops[i].id, ops[j].id)
  }

  ghost predicate Sound(site: Path, op: Op, faulty: bool) {
    op.Deploy? ==>
      && op.keep >= 1 && AllAccepted(op.entries) && Whole(op.entries, faulty)
      && (op.clone.Cloned? ==> RepoClear(op.clone.repo, op.entries))
      && (op.script.Some? ==> Behaves(site, op.id, op.script.value.effect))
  }

  predicate ListedBy(op: Op, o: Path) {
    op.Deploy? && exists i | 0 <= i < |op.entries| :: EntryPath(op.entries[i]) == o
  }

  /** A shared path of some deploy of the run. */
  predicate ListedPath(ops: seq<Op>, o: Path) {
    exists k | 0 <= k < |ops| :: ListedBy(ops[k], o)
  }

  /** On the way to every path the run lists, links under shared/ lead to themselves. */
  ghost predicate RunTame(site: Path, t: Tree, ops: seq<Op>) {
    forall o | ListedPath(ops, o) :: SharedTame(site, t, o)
  }

  /** The site can take the operations `ops[k..]`. */
  ghost predicate RunReady(site: Path, t: Tree, ops: seq<Op>, k: nat, faulty: bool)
    requires k <= |ops|
  {
    && Good(site, t) && RunTame(site, t, ops) && Rising(ops)
    && (forall o | ListedPath(ops, o) :: OutsideBackup(o))
    && (forall j | k <= j < |ops| :: Sound(site, ops[j], faulty))
    && (forall j | k <= j < |ops| && ops[j].Deploy? :: AllBelow(site, t, ops[j].id))
  }

  /** No copy of this deploy can put a link on the way to a path that any deploy of the run lists. */
  ghost predicate RunSafe(site: Path, t: Tree, op: Op, ops: seq<Op>, faulty: bool) {
    op.Deploy? ==> forall o | ListedPath(ops, o) :: CopySafe(site, t, op.entries, o, faulty)
  }

  /** When a deploy of the run begins, the copies cannot lead astray; `starts` says where in the trace that is. */
  ghost predicate ClearStarts(site: Path, ops: seq<Op>, trace: seq<Tree>, starts: seq<nat>, faulty: bool) {
    && |starts| <= |ops|
    && forall j | 0 <= j < |starts| :: starts[j] < |trace| && RunSafe(site, trace[starts[j]], ops[j], ops, faulty)
  }

  /** Every listed path above `o` is anchored by one of its own list. */
  predicate AnchoredTo(entries: seq<string>, o: Path, faulty: bool) {
    forall i | 0 <= i < |entries| && EntryPath(entries[i]) < o :: Anchored(entries, i, faulty)
  }

  /**
   What a caller can check of the lists: a path that lies above one listed anywhere in the
   run is never listed without a path below it; with faults or slashed entries, no path lies
   above another one at all.
   */
  ghost predicate ListsClear(ops: seq<Op>, faulty: bool) {
    forall k, o | 0 <= k < |ops| && ops[k].Deploy? && ListedPath(ops, o) :: AnchoredTo(ops[k].entries, o, faulty)
  }

  /** Lists of which no path, of any of them, lies below another are clear, with faults too. */
  lemma FlatListsAreClear(ops: seq<Op>, faulty: bool)
    requires forall o, p | ListedPath(ops, o) && ListedPath(ops, p) :: !(o < p)
    ensures ListsClear(ops, faulty)
  {
    forall k, o | 0 <= k < |ops| && ops[k].Deploy? && ListedPath(ops, o)
      ensures AnchoredTo(ops[k].entries, o, faulty)
    {
      forall i | 0 <= i < |ops[k].entries| ensures !(EntryPath(ops[k].entries[i]) < o) {
        OwnPathListed(ops, k, i);
      }
    }
  }

  /** Without faults one list for all deploys is clear, however nested, if no entry is slashed. */
  lemma OneListIsClear(ops: seq<Op>, entries: seq<string>)
    requires forall k | 0 <= k < |ops| && ops[k].Deploy? :: ops[k].entries == entries
    requires NoneSlashed(entries)
    ensures ListsClear(ops, false)
  {
    forall k, o | 0 <= k < |ops| && ops[k].Deploy? && ListedPath(ops, o)
      ensures AnchoredTo(ops[k].entries, o, false)
    {
      var m :| 0 <= m < |ops| && ListedBy(ops[m], o);
      var j :| 0 <= j < |entries| && EntryPath(entries[j]) == o;
      forall i | 0 <= i < |entries| && EntryPath(entries[i]) < o ensures Anchored(entries, i, false) {
        assert EntryPath(entries[i]) < EntryPath(entries[j]);
      }
    }
  }

  lemma ListsClearStarts(site: Path, ops: seq<Op>, trace: seq<Tree>, starts: seq<nat>, faulty: bool)
    requires ListsClear(ops, faulty)
    requires |starts| <= |ops| && forall j | 0 <= j < |starts| :: starts[j] < |trace|
    ensures ClearStarts(site, ops, trace, starts, faulty)
  {
    forall j | 0 <= j < |starts| ensures RunSafe(site, trace[starts[j]], ops[j], ops, faulty) {
      forall o | ops[j].Deploy? && ListedPath(ops, o)
        ensures CopySafe(site, trace[starts[j]], ops[j].entries, o, faulty)
      {
        assert AnchoredTo(ops[j].entries, o, faulty);
      }
    }
  }

  lemma ClearStartsBefore(site: Path, ops: seq<Op>, before: seq<Tree>, trace: seq<Tree>, early: seq<nat>,
      starts: seq<nat>, faulty: bool)
    requires before != [] && before <= trace && starts == early + [|before| - 1]
    requires forall j | 0 <= j < |early| :: early[j] < |before|
    requires ClearStarts(site, ops, trace, starts, faulty)
    ensures ClearStarts(site, ops, before, early, faulty)
    ensures RunSafe(site, before[|before| - 1], ops[|early|], ops, faulty)
  {
    hide RunSafe;
    forall j | 0 <= j < |early| ensures RunSafe(site, before[early[j]], ops[j], ops, faulty) {
      assert starts[j] == early[j] && before[early[j]] == trace[early[j]];
    }
    assert starts[|early|] == |before| - 1 && trace[|before| - 1] == before[|before| - 1];
  }

  lemma OwnPathListed(ops: seq<Op>, k: nat, j: nat)
    requires k < |ops| && ops[k].Deploy? && j < |ops[k].entries|
    ensures ListedPath(ops, EntryPath(ops[k].entries[j]))
  {
    assert ListedBy(ops[k], EntryPath(ops[k].entries[j]));
  }

  lemma DeployReady(site: Path, t: Tree, ops: seq<Op>, k: nat, faulty: bool)
    requires k < |ops| && RunReady(site, t, ops, k, faulty) && ops[k].Deploy?
    requires RunSafe(site, t, ops[k], ops, faulty)
    ensures Ready(site, ops[k].id, t, ops[k].entries, ops[k].clone, ops[k].script, faulty)
    ensures KeepsNewest(site, t, ops[k].id, ops[k].keep) && Whole(ops[k].entries, faulty)
  {
    hide ListedPath, CopySafe, SharedTame;
    assert Sound(site, ops[k], faulty);
    LessTotal(ops[k].id, ops[k].id);
    ReleaseNamesMeaning(site, t);
    forall j | 0 <= j < |ops[k].entries|
      ensures SharedTame(site, t, EntryPath(ops[k].entries[j]))
      ensures CopySafe(site, t, ops[k].entries, EntryPath(ops[k].entries[j]), faulty)
    {
      OwnPathListed(ops, k, j);
    }
  }

  /** What a deploy leaves is tame for the whole run. */
  lemma DeployTame(site: Path, u: Tree, t: Tree, ops: seq<Op>, k: nat, faulty: bool)
    requires k < |ops| && RunReady(site, u, ops, k, faulty) && ops[k].Deploy?
    requires RunSafe(site, u, ops[k], ops, faulty) && TameAfter(site, ops[k].entries, faulty, u, t)
    ensures RunTame(site, t, ops)
  {
    hide ListedPath, CopySafe, SharedTame, OutsideBackup;
  }

  lemma RunReadyNext(site: Path, u: Tree, t: Tree, ops: seq<Op>, k: nat, faulty: bool)
    requires k < |ops| && RunReady(site, u, ops, k, faulty)
    requires Good(site, t) && RunTame(site, t, ops)
    requires OnlyNew(site, ops[k].id, u, t)
               && (ops[k].Activate? ==> forall n | Release(site, n) in t :: Release(site, n) in u)
    ensures RunReady(site, t, ops, k + 1, faulty)
  {
    hide RunTame, ListedPath, Good, Sound;
    forall j | k + 1 <= j < |ops| && ops[j].Deploy? ensures AllBelow(site, t, ops[j].id) {
      assert AllBelow(site, u, ops[j].id);
      forall n | Release(site, n) in t ensures Less(n, ops[j].id) {
      }
    }
  }

  lemma ActivatedWell(site: Path, id: string, s: Tree, n: nat, t: Tree, trace: seq<Tree>)
    requires Good(site, s) && IsDir(s, Release(site, id)) && SwapRun(site, id, s, n, t, trace)
    requires WellFormed(t) && forall i | 0 <= i < |trace| :: WellFormed(trace[i])
    ensures GoodSince(site, s, trace, n) && Good(site, t) && StaysSet(site, s, t) && TameStays(site, s, t)
    ensures forall m :: Release(site, m) in t <==> Release(site, m) in s
    ensures forall m :: Branch(t, Release(site, m)) == Branch(s, Release(site, m))
  {
    SwapRunIsGood(site, id, s, n, t, trace);
    SwapNoNewLinks(site, id, s, t);
    TameKept(site, s, t);
    forall m ensures Branch(t, Release(site, m)) == Branch(s, Release(site, m))
      ensures Release(site, m) in t <==> Release(site, m) in s
    {
      SwapPlace(site, id, s, t, Release(site, m));
      SwapKeepsBranch(site, id, s, t, m);
    }
  }

  lemma SwapKeepsBranch(site: Path, id: string, s: Tree, t: Tree, m: string)
    requires SwapStage(site, id, s, t)
    ensures Branch(t, Release(site, m)) == Branch(s, Release(site, m))
  {
    forall k ensures Release(site, m) + k in t <==> Release(site, m) + k in s
      ensures Release(site, m) + k in s ==> t[Release(site, m) + k] == s[Release(site, m) + k]
    {
      SwapPlace(site, id, s, t, Release(site, m) + k);
    }
  }

  lemma LastIsGood(site: Path, id: string, lost: set<Path>, start: Tree, t: Tree, outcome: Outcome, keep: nat,
      faulty: bool)
    requires Good(site, start) && Release(site, id) !in start && WellFormed(t)
    requires if outcome.Succeeded? then Deployed(site, id, keep, lost, start, t, faulty)
               else Calm(site, id, lost, start, t)
    ensures Good(site, t) && StaysSet(site, start, t)
  {
    if !outcome.Succeeded? {
      CalmStaysGood(site, id, lost, start, t);
      CalmStaysSet(site, id, lost, start, t);
    }
  }

  lemma RunReadyGood(site: Path, t: Tree, ops: seq<Op>, k: nat, faulty: bool)
    requires k <= |ops| && RunReady(site, t, ops, k, faulty)
    ensures Good(site, t)
  {
  }

  /** After a deploy the run can go on. */
  lemma DeployStepped(site: Path, u: Tree, n: nat, t: Tree, trace: seq<Tree>, ops: seq<Op>, k: nat, outcome: Outcome,
      faulty: bool)
    requires k < |ops| && RunReady(site, u, ops, k, faulty) && RunSafe(site, u, ops[k], ops, faulty) && ops[k].Deploy?
    requires WellFormed(t)
    requires DeployDid(site, ops[k].id, ops[k].keep, ops[k].entries, u, n, t, trace, ops[k].clone, ops[k].script,
               outcome, faulty)
    ensures RunReady(site, t, ops, k + 1, faulty) && GoodSince(site, u, trace, n) && StaysSet(site, u, t)
  {
    hide RunReady, RunSafe, Ready, KeepsNewest, Deployed, Calm, Good, RunTame, TameAfter, GoodUnlessNew;
    hide Furnished, Rebuilt, Dangling, Unobstructed, OnlyNew, GoodSince, StaysSet, Whole, WellFormed;
    var op := ops[k];
    DeployReady(site, u, ops, k, faulty);
    RunReadyGood(site, u, ops, k, faulty);
    ReadyMeans(site, op.id, u, op.entries, op.clone, op.script, faulty);
    LastIsGood(site, op.id, HitPaths(op.entries), u, t, outcome, op.keep, faulty);
    DeployTame(site, u, t, ops, k, faulty);
    RunReadyNext(site, u, t, ops, k, faulty);
  }

  /** After an activation too. */
  lemma ActivateStepped(site: Path, u: Tree, n: nat, t: Tree, trace: seq<Tree>, ops: seq<Op>, k: nat, faulty: bool)
    requires k < |ops| && RunReady(site, u, ops, k, faulty) && ops[k].Activate?
    requires Good(site, t) && TameStays(site, u, t) && forall m :: Release(site, m) in t ==> Release(site, m) in u
    ensures RunReady(site, t, ops, k + 1, faulty)
  {
    hide ListedPath, Good, SharedTame;
    RunReadyNext(site, u, t, ops, k, faulty);
  }

  /** A run after `k` operations. */
  ghost predicate RunSoFar(site: Path, ops: seq<Op>, start: Tree, n: nat, t: Tree, trace: seq<Tree>, starts: seq<nat>,
      k: nat, faulty: bool)
    requires k <= |ops|
  {
    && |starts| == k && (forall j | 0 <= j < k :: starts[j] < |trace|)
    && (RunReady(site, start, ops, 0, faulty) && ClearStarts(site, ops, trace, starts, faulty) ==>
          RunReady(site, t, ops, k, faulty) && GoodSince(site, start, trace, n) && StaysSet(site, start, t))
  }

  /** What one operation guarantees. */
  ghost predicate StepDid(site: Path, ops: seq<Op>, k: nat, u: Tree, n: nat, t: Tree, trace: seq<Tree>, faulty: bool)
    requires k < |ops|
  {
    RunReady(site, u, ops, k, faulty) && RunSafe(site, u, ops[k], ops, faulty) ==>
      RunReady(site, t, ops, k + 1, faulty) && GoodSince(site, u, trace, n) && StaysSet(site, u, t)
  }

  lemma NextRun(site: Path, ops: seq<Op>, start: Tree, n: nat, u: Tree, before: seq<Tree>, early: seq<nat>, t: Tree,
      trace: seq<Tree>, k: nat, faulty: bool)
    requires k < |ops| && before != [] && before[|before| - 1] == u && before <= trace && n <= |before|
    requires RunSoFar(site, ops, start, n, u, before, early, k, faulty)
    requires StepDid(site, ops, k, u, |before|, t, trace, faulty)
    ensures RunSoFar(site, ops, start, n, t, trace, early + [|before| - 1], k + 1, faulty)
  {
    hide RunReady, ClearStarts, RunSafe, GoodSince;
    var starts := early + [|before| - 1];
    if RunReady(site, start, ops, 0, faulty) && ClearStarts(site, ops, trace, starts, faulty) {
      ClearStartsBefore(site, ops, before, trace, early, starts, faulty);
      GoodSinceExtended(site, start, before, u, trace, n);
    }
  }

  lemma RunBegins(site: Path, ops: seq<Op>, t: Tree, trace: seq<Tree>, faulty: bool)
    ensures RunSoFar(site, ops, t, |trace|, t, trace, [], 0, faulty)
  {
  }

  lemma RunEnds(site: Path, ops: seq<Op>, start: Tree, n: nat, t: Tree, trace: seq<Tree>, starts: seq<nat>,
      faulty: bool)
    requires RunSoFar(site, ops, start, n, t, trace, starts, |ops|, faulty)
    ensures RunReady(site, start, ops, 0, faulty)
            && (ListsClear(ops, faulty) || ClearStarts(site, ops, trace, starts, faulty)) ==>
              GoodSince(site, start, trace, n)
  {
    hide RunReady, ClearStarts, GoodSince, StaysSet, ListsClear;
    if ListsClear(ops, faulty) {
      ListsClearStarts(site, ops, trace, starts, faulty);
    }
  }
}
