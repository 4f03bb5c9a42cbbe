/**
 Inputs for which a promise of the release store fails, each one the partner of an exact
 condition: lists that change between deploys, a file in the way of a link, data below an
 outer path, an empty entry followed by a fault.
 */
module ReleaseFailures {
  import opened Wrappers
  import opened FileSystem
  import opened PathTracks
  import opened TreeOps
  import opened Retention
  import opened SiteFiles
  import opened ReleaseTrees
  import opened ReleaseLinks
  import opened ReleaseRounds
  import opened ReleaseLists
  import opened ReleaseData
  import opened ReleaseCopy
  import opened ReleasePhases
  import opened ReleaseSwap
  import opened ReleaseRuns
  import opened ReleaseConditions

  // ---------------------------------------------------------------- entries spelled from names

  lemma SpelledPath(p: Path)
    requires p != [] && AllPlainNames(p)
    ensures Components(Spelling(p)) == Names(p) && EntryPath(Spelling(p)) == p && !Slashed(Spelling(p))
  {
    SpelledComponents(p);
    SpelledMeans(p);
  }

  lemma SpelledMeans(p: Path)
    requires p != [] && Components(Spelling(p)) == Names(p)
    ensures EntryPath(Spelling(p)) == p && !Slashed(Spelling(p))
  {
    SpellsNames(p);
  }

  // ---------------------------------------------------------------- lists that change between deploys

  /** Each list alone has no path below another one, but a path of the second lies below one of the first. */
  lemma ListsNotClear(ops: seq<Op>, a: string, b: string, n: string, m: string)
    requires AllPlainNames([a, b, n, m]) && n != m && |ops| == 2 && ops[0].Deploy? && ops[1].Deploy?
    requires ops[0].entries == [a] && ops[1].entries == [Spelling([a, a, b, n]), Spelling([a, a, b, m])]
    ensures Separate(ops[0].entries) && Separate(ops[1].entries) && !ListsClear(ops, false)
  {
    hide EntryPath, Spelling, AllPlainNames, ListsClear, ListedPath;
    SpelledLists(a, b, n, m);
    OwnPathListed(ops, 1, 0);
    ApartOrNot(a, b, n, m);
    assert !Anchored(ops[0].entries, 0, false);
    assert !AnchoredTo(ops[0].entries, [a, a, b, n], false);
    NotClear(ops, 0, [a, a, b, n]);
  }

  lemma NotClear(ops: seq<Op>, k: nat, o: Path)
    requires k < |ops| && ops[k].Deploy? && ListedPath(ops, o) && !AnchoredTo(ops[k].entries, o, false)
    ensures !ListsClear(ops, false)
  {
  }

  lemma ApartOrNot(a: string, b: string, n: string, m: string)
    requires n != m
    ensures [a] < [a, a, b, n] && !([a] < [a])
    ensures !([a, a, b, n] < [a, a, b, m]) && !([a, a, b, m] < [a, a, b, n]) && [a, a, b, n] != [a, a, b, m]
    ensures !([a, a, b, n] < [a, a, b, n]) && !([a, a, b, m] < [a, a, b, m])
  {
    assert [a, a, b, n][3] != [a, a, b, m][3];
  }

  lemma SpelledLists(a: string, b: string, n: string, m: string)
    requires AllPlainNames([a, b, n, m])
    ensures EntryPath(a) == [a] && EntryPath(Spelling([a, a, b, n])) == [a, a, b, n]
    ensures EntryPath(Spelling([a, a, b, m])) == [a, a, b, m]
  {
    assert [a, b, n, m][0] == a && [a, b, n, m][1] == b && [a, b, n, m][2] == n && [a, b, n, m][3] == m;
    assert Spelling([a]) == a;
    SpelledPath([a]);
    SpelledPath([a, a, b, n]);
    SpelledPath([a, a, b, m]);
  }

  /** The first deploy: the copy puts the old directory inside the empty shared one, its link along with it. */
  lemma LinkPlantedInside(site: Path, x: string, v: Tree, a: string, b: string)
    requires IsPlainName(a) && WellFormed(v) && IsDir(v, InRelease(site, x, [a]))
    requires InRelease(site, x, [a, b]) in v && v[InRelease(site, x, [a, b])] == LinkTo(Releases(site))
    requires IsDir(v, InShared(site, [a])) && EmptyNode(v, InShared(site, [a]))
    ensures var u := CopyOne(site, v, Names(Release(site, x)), a);
            InShared(site, [a, a, b]) in u && u[InShared(site, [a, a, b])] == LinkTo(Releases(site))
  {
    hide Copy, WellFormed, EmptyNode, Branch, LinkTo, Dotted, FileName, Resolve, Spot, NoLinks;
    var src, dst := Names(Release(site, x)) + Components(a), SharedPath(site, a);
    var from, q := InRelease(site, x, [a]), InShared(site, [a]);
    assert AllPlainNames([a]) && Spelling([a]) == a;
    SpelledPath([a]);
    assert src == Names(from) && dst == Names(q);
    PlainSource(v, from, a);
    PlainPlace(v, q);
    assert !(from <= q) by { AreasApart(site, x, [a], [a]); }
    CopyLandsInside(v, src, from, q, dst);
    var u := CopyOne(site, v, Names(Release(site, x)), a);
    assert u == Copy(v, src, dst);
    InBranch(v, from, [b]);
    InBranch(u, q + [a], [b]);
    assert from + [b] == InRelease(site, x, [a, b]) && q + [a] + [b] == InShared(site, [a, a, b]);
    SameBranchAt(v, from, u, q + [a], [b]);
  }

  lemma SameBranchAt(t: Tree, p: Path, u: Tree, q: Path, k: Path)
    requires Branch(t, p) == Branch(u, q) && p + k in t
    ensures q + k in u && u[q + k] == t[p + k]
  {
    assert k in Branch(t, p) && Branch(t, p)[k] == t[p + k];
    assert k in Branch(u, q) && Branch(u, q)[k] == u[q + k];
  }

  lemma PlainSource(v: Tree, from: Path, a: string)
    requires WellFormed(v) && IsDir(v, from) && from != [] && from[|from| - 1] == a
    ensures var src := Names(from);
            && Exists(v, src) && !IsSymlink(v, src) && OldNode(v, src, from) && FileName(src) == Some(a)
  {
    var src := Names(from);
    PhysicalResolves(v, from);
    DirsAreLinkFree(v, from);
    SpotLinkFree(v, from);
    assert !EndsHere(src) && src[|src| - 1] == Name(a);
    ParentOfNames(from);
  }

  lemma PlainPlace(v: Tree, q: Path)
    requires WellFormed(v) && IsDir(v, q) && q != [] && EmptyNode(v, q)
    ensures NewPlace(v, q, Names(q)) && EmptyAt(v, Names(q))
  {
    PhysicalResolves(v, q);
    DirsHaveNoLinks(v, q);
    SpellsNames(q);
  }

  /** The second deploy: making the shared directory of an entry below that link makes a release. */
  lemma EntryMakesRelease(site: Path, s: Tree, e: Path, n: string)
    requires AllPlainNames(e + [n]) && e != [] && WellFormed(s) && IsDir(s, Releases(site))
    requires InShared(site, e) in s && s[InShared(site, e)] == LinkTo(Releases(site)) && Release(site, n) !in s
    ensures CreateDirAll(s, SharedPath(site, Spelling(e + [n]))) == s[Release(site, n) := Dir]
  {
    hide CreateDirAll, WellFormed, Spelling, EntryPath, Resolve, Spot;
    var q := InShared(site, e);
    var p := Names(q + [n]);
    SpelledPath(e + [n]);
    assert SharedPath(site, Spelling(e + [n])) == p;
    LinkResolves(s, q, Releases(site));
    BelowLink(s, q, Releases(site), n);
    ParentOfNames(q + [n]);
    assert ParentOf(q + [n]) == q && Releases(site) + [n] == Release(site, n);
    NothingBehindLink(s, q, Releases(site), n);
    MakesOne(s, p, q);
  }

  lemma NothingBehindLink(s: Tree, q: Path, r: Path, n: string)
    requires Resolve(s, Names(q)) == Some(r) && r + [n] !in s
    ensures Resolve(s, Names(q + [n])).None?
  {
    NoMoreName(s, [], Names(q), n, LINK_BUDGET);
    assert Names(q) + [Name(n)] == Names(q + [n]);
  }

  lemma MakesOne(s: Tree, p: seq<Comp>, q: Path)
    requires Resolve(s, p).None? && Parent(p) == Some(Names(q)) && IsDirAt(s, Names(q)) && TrimEmpty(p) == p
    requires Spot(s, p).Some? && Spot(s, p).value !in s
    ensures CreateDirAll(s, p) == s[Spot(s, p).value := Dir]
  {
    assert CreateDirAll(s, Names(q)) == s;
  }

  lemma TwoAbove(names: set<string>, id: string, n: string, m: string)
    requires {id, n, m} <= names && n != m && Less(id, n) && Less(id, m)
    ensures id in Doomed(names, 2)
  {
    assert {n, m} <= Above(names, id);
    SmallerSet({n, m}, Above(names, id));
  }

  lemma {:induction false} SmallerSet(a: set<string>, b: set<string>)
    requires a <= b
    ensures |a| <= |b|
    decreases a
  {
    if a != {} {
      var x :| x in a;
      SmallerSet(a - {x}, b - {x});
    }
  }

  /** The prune then takes the release away that has just gone live. */
  lemma PrunedAway(site: Path, id: string, y: Tree, t: Tree, n: string, m: string)
    requires Named(site, id, y) && IsDir(y, Release(site, id)) && IsDir(y, Release(site, n))
               && IsDir(y, Release(site, m))
    requires n != m && Less(id, n) && Less(id, m)
    requires var doomed := Doomed(ReleaseNames(site, y), 2);
             PruneStage(site, doomed, y, t) && forall x | x in doomed :: Release(site, x) !in t
    ensures Dangling(site, id, t) && !PointsToRelease(site, t)
  {
    ReleaseNamesMeaning(site, y);
    TwoAbove(ReleaseNames(site, y), id, n, m);
    PublicApart(site, id);
    assert !InDoomed(site, Doomed(ReleaseNames(site, y), 2), Current(site));
    DanglingIsBad(site, id, t);
  }

  /**
   The failing run, without faults and with two releases kept. The served release `x` has a
   directory `a` with a link `b` to releases/. A deploy of ["a"] copies it (from `v` to `u`).
   While the link is there (in `s` and `w`), a deploy of ["a/a/b/n", "a/a/b/m"] makes the
   releases `n` and `m`. Once it has gone live (in `y`), the prune keeps these two, and
   `current` leads nowhere.
   */
  lemma ChangingListsDangle(site: Path, x: string, a: string, b: string, n: string, m: string, id: string, v: Tree,
      s: Tree, w: Tree, y: Tree, t: Tree)
    requires AllPlainNames([a, b, n, m]) && n != m && Less(id, n) && Less(id, m)
    requires WellFormed(v) && IsDir(v, InRelease(site, x, [a])) && InRelease(site, x, [a, b]) in v
    requires v[InRelease(site, x, [a, b])] == LinkTo(Releases(site))
    requires IsDir(v, InShared(site, [a])) && EmptyNode(v, InShared(site, [a]))
    requires forall z | z in {s, w} :: && WellFormed(z) && IsDir(z, Releases(site)) && InShared(site, [a, a, b]) in z
                                       && z[InShared(site, [a, a, b])] == LinkTo(Releases(site))
    requires Release(site, n) !in s && Release(site, m) !in w
    requires Named(site, id, y) && IsDir(y, Release(site, id)) && IsDir(y, Release(site, n))
               && IsDir(y, Release(site, m))
    requires var doomed := Doomed(ReleaseNames(site, y), 2);
             PruneStage(site, doomed, y, t) && forall z | z in doomed :: Release(site, z) !in t
    ensures var u := CopyOne(site, v, Names(Release(site, x)), a);
            InShared(site, [a, a, b]) in u && u[InShared(site, [a, a, b])] == LinkTo(Releases(site))
    ensures CreateDirAll(s, SharedPath(site, Spelling([a, a, b, n]))) == s[Release(site, n) := Dir]
    ensures CreateDirAll(w, SharedPath(site, Spelling([a, a, b, m]))) == w[Release(site, m) := Dir]
    ensures Dangling(site, id, t) && !PointsToRelease(site, t)
  {
    hide CopyOne, CreateDirAll, WellFormed, Spelling, Dangling, PointsToRelease, PruneStage, LinkTo;
    assert [a, b, n, m][0] == a && [a, b, n, m][1] == b && [a, b, n, m][2] == n && [a, b, n, m][3] == m;
    LinkPlantedInside(site, x, v, a, b);
    assert [a, a, b] + [n] == [a, a, b, n] && [a, a, b] + [m] == [a, a, b, m];
    EntryMakesRelease(site, s, [a, a, b], n);
    EntryMakesRelease(site, w, [a, a, b], m);
    PrunedAway(site, id, y, t, n, m);
  }

  /**
   With faults one nested list does the same. The entries "n" and "n/m/k", "n/m/l"; the served
   release has a directory `n` with a link `m` to releases/, and a fault has kept shared/n from
   being made: the copy of "n" brings the link along, and the next deploy of the same list
   makes the releases `k` and `l`, which the prune keeps in place of the new one.
   */
  lemma NestedListDangles(site: Path, x: string, n: string, m: string, k: string, l: string, id: string, v: Tree,
      s: Tree, w: Tree, y: Tree, t: Tree)
    requires AllPlainNames([n, m, k, l]) && k != l && Less(id, k) && Less(id, l)
    requires WellFormed(v) && IsDir(v, InRelease(site, x, [n])) && IsDir(v, Shared(site)) && IsDir(v, Releases(site))
    requires InShared(site, [n]) !in v && InRelease(site, x, [n, m]) in v
    requires v[InRelease(site, x, [n, m])] == LinkTo(Releases(site))
    requires forall z | z in {s, w} :: && WellFormed(z) && IsDir(z, Releases(site)) && InShared(site, [n, m]) in z
                                       && z[InShared(site, [n, m])] == LinkTo(Releases(site))
    requires Release(site, k) !in s && Release(site, l) !in w
    requires Named(site, id, y) && IsDir(y, Release(site, id)) && IsDir(y, Release(site, k))
               && IsDir(y, Release(site, l))
    requires var doomed := Doomed(ReleaseNames(site, y), 2);
             PruneStage(site, doomed, y, t) && forall z | z in doomed :: Release(site, z) !in t
    ensures var u := CopyNode(v, InRelease(site, x, [n]), InShared(site, [n]));
            InShared(site, [n, m]) in u && u[InShared(site, [n, m])] == LinkTo(Releases(site))
    ensures CreateDirAll(s, SharedPath(site, Spelling([n, m, k]))) == s[Release(site, k) := Dir]
    ensures CreateDirAll(w, SharedPath(site, Spelling([n, m, l]))) == w[Release(site, l) := Dir]
    ensures Dangling(site, id, t) && !PointsToRelease(site, t)
  {
    hide CopyNode, CreateDirAll, WellFormed, Spelling, Dangling, PointsToRelease, PruneStage, LinkTo;
    assert [n, m, k, l][0] == n && [n, m, k, l][1] == m && [n, m, k, l][2] == k && [n, m, k, l][3] == l;
    var from, to := InRelease(site, x, [n]), InShared(site, [n]);
    assert from + [m] == InRelease(site, x, [n, m]) && to + [m] == InShared(site, [n, m])
           && ParentOf(to) == Shared(site);
    LinkPlanted(v, from, to, m, Releases(site));
    assert [n, m] + [k] == [n, m, k] && [n, m] + [l] == [n, m, l];
    EntryMakesRelease(site, s, [n, m], k);
    EntryMakesRelease(site, w, [n, m], l);
    PrunedAway(site, id, y, t, k, l);
  }

  // ---------------------------------------------------------------- a file in the way of a link

  /** A file of the repository above one entry: that entry is no link, the other one is. */
  lemma FileBlocksLink(site: Path, id: string, start: Tree, t: Tree, clone: CloneRun, n: string, m: string, k: string)
    requires AllPlainNames([n, m, k]) && n != k && Accepted(Spelling([n, m])) && Accepted(k)
    requires Furnished(site, id, [Spelling([n, m]), k], start, t, clone, false) && WellFormed(t)
    requires [n] in clone.repo && clone.repo[[n]].File?
    ensures !HasLink(site, id, t, [n, m]) && HasLink(site, id, t, [k])
  {
    hide Furnished, WellFormed, HasLink, Accepted;
    var entries := [Spelling([n, m]), k];
    assert [n, m, k][0] == n && [n, m, k][1] == m && [n, m, k][2] == k && Spelling([k]) == k;
    SpelledPath([n, m]);
    SpelledPath([k]);
    BlockedApart(n, m, k);
    FurnishedCloned(site, id, entries, start, t, clone);
    LinkedExactly(site, id, entries, start, t, clone, 0);
    LinkedExactly(site, id, entries, start, t, clone, 1);
    BlockedAndOpen(clone.repo, n, m, k);
  }

  lemma FurnishedCloned(site: Path, id: string, entries: seq<string>, start: Tree, t: Tree, clone: CloneRun)
    requires Furnished(site, id, entries, start, t, clone, false)
    ensures clone.Cloned?
  {
  }

  lemma BlockedApart(n: string, m: string, k: string)
    requires EntryPath(Spelling([n, m])) == [n, m] && EntryPath(k) == [k] && n != k
    ensures Separate([Spelling([n, m]), k])
  {
    hide EntryPath, Spelling;
    assert [n, m][0] != [k][0];
    assert !([k] < [n, m]) && !([n, m] < [k]) && !([k] < [k]) && !([n, m] < [n, m]);
  }

  lemma BlockedAndOpen(repo: Tree, n: string, m: string, k: string)
    requires WellFormed(repo) && [n] in repo && repo[[n]].File?
    requires EntryPath(Spelling([n, m])) == [n, m] && EntryPath(k) == [k]
    ensures !RepoOpen(repo, Spelling([n, m])) && RepoOpen(repo, k)
  {
    hide EntryPath, Spelling;
    assert ParentOf([n, m]) == [n] && [n][..1] == [n] && ParentOf([k]) == [];
  }

  // ---------------------------------------------------------------- data below an outer path

  /** By order: below an outer path listed first a file is lost, below one listed later it is not. */
  lemma WipedByOrder(n: string, m: string)
    requires AllPlainNames([n, m])
    ensures Wiped([n, Spelling([n, m])], [n, m]) && !Wiped([Spelling([n, m]), n], [n, m])
  {
    assert [n, m][0] == n && Spelling([n]) == n;
    SpelledPath([n]);
    SpelledPath([n, m]);
    hide EntryPath, Spelling, Slashed;
    var inner := Spelling([n, m]);
    FirstLinked(n);
    FirstLinked(inner);
    assert [n, inner][..1] == [n] && [inner, n][..1] == [inner];
    assert [n, m][..1] == [n] && Walked(inner) == 1 && Walked(n) == 0;
    assert Wipes([n, inner], 1, [n, m]);
    assert [n, inner][..0] == [] && [inner, n][..0] == [];
    assert LinkPaths([]) == {};
  }

  lemma FirstLinked(entry: string)
    requires !Slashed(entry)
    ensures LinkPaths([entry]) == {EntryPath(entry)}
  {
    assert [entry][..0] == [];
    assert !Meets({}, entry);
  }

  /** The same path listed again with a slash at its end takes everything in it away. */
  lemma WipedBySlash(n: string, m: string)
    requires IsPlainName(n)
    ensures Slashed(n + "/") && Wiped([n, n + "/"], [n, m])
  {
    assert AllPlainNames([n]) && Spelling([n]) == n;
    SpelledPath([n]);
    SlashedName(n);
    hide EntryPath, Spelling, Slashed;
    FirstLinked(n);
    assert [n, n + "/"][..1] == [n];
    assert [n][..1] == [n] && [n] < [n, m];
    assert Wipes([n, n + "/"], 1, [n, m]);
  }

  lemma SlashedName(n: string)
    requires IsPlainName(n)
    ensures EntryPath(n + "/") == [n] && Slashed(n + "/")
  {
    hide Components, FirstSlash;
    var s := n + "/";
    assert s == n + "/" + "";
    MoreSpelled(n, "");
    NoSlash("");
    ComponentsMeans("");
    assert Components(s) == [Name(n)] + [Here(false)];
    assert [Name(n), Here(false)][1..] == [Here(false)] && [Here(false)][1..] == [];
    assert NamesIn([Here(false)]) == [];
  }

  // ---------------------------------------------------------------- an empty entry followed by a fault

  /**
   Once an empty entry has taken the release away, only making directories brings it back:
   if that call fails in the round of a later entry, the clean-up and the link of that round
   leave the tree as it is, and the swap then makes `current` lead nowhere.
   */
  lemma EmptyThenFault(site: Path, id: string, t: Tree, cleared: Tree, entry: string, link: Node, swapped: Tree)
    requires Laid(site, t) && Release(site, id) !in t && IsDir(t, Releases(site))
    requires Accepted(entry) && EntryPath(entry) != [] && Clears(ReleasePath(site, id, entry), t, cleared)
    requires SwapStage(site, id, t, swapped) && Named(site, id, swapped) && WellFormed(swapped)
    ensures cleared == t && Symlink(t, link, ReleasePath(site, id, entry)) == t
    ensures Dangling(site, id, swapped) && !PointsToRelease(site, swapped)
  {
    NothingInRelease(site, id, t, entry);
    SwappedDangling(site, id, t, swapped);
    DanglingIsBad(site, id, swapped);
  }

  lemma NothingInRelease(site: Path, id: string, t: Tree, entry: string)
    requires Laid(site, t) && Release(site, id) !in t && Accepted(entry) && EntryPath(entry) != []
    ensures var p := ReleasePath(site, id, entry); Resolve(t, p).None? && Spot(t, p).None?
  {
    hide Resolve, Spells;
    var e, p := EntryPath(entry), ReleasePath(site, id, entry);
    var q := InRelease(site, id, e);
    EntrySpells(site, id, entry);
    NoWayInRelease(site, id, t, e);
    StraightResolve(t, q, p);
    if !EndsHere(p) {
      NoLinksAbove(t, q);
      StraightSpot(t, q, p);
    }
  }

  lemma NoWayInRelease(site: Path, id: string, t: Tree, e: Path)
    requires Laid(site, t) && Release(site, id) !in t && e != []
    ensures var q := InRelease(site, id, e); NoLinks(t, q) && q !in t && ParentOf(q) !in t
  {
    var q := InRelease(site, id, e);
    ParentOfIn(site, id, e);
    NothingInMissingRelease(site, id, t, e);
    NothingInMissingRelease(site, id, t, ParentOf(e));
    forall i | 0 <= i <= |q| ensures !IsLink(t, q[..i]) {
      ReleasePrefix(site, id, e, i);
      if i <= |site| {
        SiteHasNoLinks(site, t, q[..i]);
      } else if i > |site| + 1 {
        NothingInMissingRelease(site, id, t, e[..i - |site| - 2]);
      }
    }
  }
}
