/**
 Why the deploy relies on links that do not lead astray: for each condition on links an
 input that shows what happens without it.
 */
module ReleaseConditions {
  import opened Wrappers
  import opened FileSystem
  import opened PathTracks
  import opened TreeOps
  import opened ReleaseTrees
  import opened ReleaseLinks
  import opened ReleaseRounds
  import opened ReleaseSwap

  // ---------------------------------------------------------------- an entry of two names

  lemma TwoNames(n: string, m: string)
    requires IsPlainName(n) && IsPlainName(m)
    ensures Components(n + "/" + m) == [Name(n), Name(m)]
    ensures EntryPath(n + "/" + m) == [n, m] && !Slashed(n + "/" + m)
  {
    hide Components, FirstSlash;
    var s := n + "/" + m;
    SlashAfter(n, m);
    NoSlash(m);
    ComponentsMeans(s);
    ComponentsMeans(m);
    assert s[..|n|] == n && s[|n| + 1..] == m && m[..|m|] == m;
    assert Components(m) == [Name(m)];
    assert Components(s) == [Name(n)] + Components(m);
    SpellsNames([n, m]);
    assert Names([n, m]) == [Name(n), Name(m)];
  }

  /** Where an entry of two names lives if the first leads to the directory of the releases. */
  lemma SpotInReleases(site: Path, id: string, t: Tree, n: string, served: string)
    requires IsPlainName(n) && IsPlainName(served) && IsDir(t, Releases(site))
    requires Resolve(t, Names(InRelease(site, id, [n]))) == Some(Releases(site))
    ensures Spot(t, ReleasePath(site, id, n + "/" + served)) == Some(Release(site, served))
    ensures !EndsHere(ReleasePath(site, id, n + "/" + served))
  {
    TwoNames(n, served);
    var p := ReleasePath(site, id, n + "/" + served);
    assert p[..|p| - 1] == Names(InRelease(site, id, [n]));
    LastSpot(t, p, Releases(site), served);
    assert Releases(site) + [served] == Release(site, served);
  }

  /** `t` is a good tree whose `current` is the release `served`. */
  ghost predicate Serves(site: Path, served: string, t: Tree) {
    Good(site, t) && Current(site) in t && t[Current(site)] == LinkTo(Release(site, served))
        && IsDir(t, Release(site, served))
  }

  /** Once the release `current` names is gone, the site is broken. */
  lemma OldGone(site: Path, served: string, t: Tree, u: Tree)
    requires Serves(site, served, t) && Current(site) in u && u[Current(site)] == t[Current(site)]
               && Release(site, served) !in u
    ensures !PointsToRelease(site, u)
  {
    DanglingIsBad(site, served, u);
  }

  lemma CurrentStays(site: Path, p: seq<Comp>, t: Tree, u: Tree, served: string)
    requires Clears(p, t, u) && WellFormed(t) && Spot(t, p) == Some(Release(site, served)) && !EndsHere(p)
    requires IsDir(t, Release(site, served)) && Current(site) in t
    ensures Current(site) in u && u[Current(site)] == t[Current(site)]
  {
    SpotFound(t, p);
    assert Release(site, served)[|site|] == "releases" && Current(site)[|site|] == "current";
  }

  // ---------------------------------------------------------------- links of the repository

  /**
   A repository whose `n` is a link to the directory of the releases: the clean-up for the
   entry "n/served" takes the release `served` away, which is the one being served.
   */
  lemma RepositoryLinkRemovesOld(site: Path, id: string, t: Tree, u: Tree, n: string, served: string)
    requires IsPlainName(n) && IsPlainName(served) && Serves(site, served, t)
    requires InRelease(site, id, [n]) in t && t[InRelease(site, id, [n])] == LinkTo(Releases(site))
    requires Clears(ReleasePath(site, id, n + "/" + served), t, u)
    ensures !PointsToRelease(site, u)
  {
    assert ParentOf(Release(site, served)) == Releases(site);
    LinkResolves(t, InRelease(site, id, [n]), Releases(site));
    SpotInReleases(site, id, t, n, served);
    ClearedAt(ReleasePath(site, id, n + "/" + served), t, u, Release(site, served));
    CurrentStays(site, ReleasePath(site, id, n + "/" + served), t, u, served);
    OldGone(site, served, t, u);
  }

  // ---------------------------------------------------------------- links under shared/

  lemma TwoLinks(t: Tree, up: Path, n: string, over: Path, m: string, r: Path)
    requires WellFormed(t) && IsDir(t, up) && up + [n] in t && t[up + [n]] == LinkTo(over + [m])
    requires IsDir(t, over) && over + [m] in t && t[over + [m]] == LinkTo(r) && IsDir(t, r)
    ensures Resolve(t, Names(up + [n])) == Some(r)
  {
    hide Walk, WellFormed;
    assert Names(up + [n]) == Names(up) + [Name(n)];
    assert Names(over + [m]) == Names(over) + [Name(m)];
    assert up[..0] == [] && up[0..] == up && over[..0] == [] && over[0..] == over;
    DirsThenName(t, up, 0, n, LINK_BUDGET);
    OneLink(t, up, n, over + [m]);
    DirsThenName(t, over, 0, m, LINK_BUDGET - 1);
    SecondLink(t, over, m, r);
    DirLinkFree(t, r);
    WalkLinkFreeFromRoot(t, r, LINK_BUDGET - 2);
  }

  lemma DirLinkFree(t: Tree, r: Path)
    requires WellFormed(t) && IsDir(t, r)
    ensures LinkFreeAbove(t, r)
  {
    DirsHaveNoLinks(t, r);
  }

  lemma SecondLink(t: Tree, up: Path, n: string, r: Path)
    requires IsDir(t, up) && up + [n] in t && t[up + [n]] == LinkTo(r)
    ensures Walk(t, up, [Name(n)], LINK_BUDGET - 1) == Walk(t, [], Names(r), LINK_BUDGET - 2)
  {
    assert Names(r) + [Name(n)][1..] == Names(r);
  }

  /**
   A link `n` under shared/ to the directory of the releases, and the entries "n" and
   "n/served": once the first is linked, the clean-up for the second takes the release `served`
   away, which is the one being served.
   */
  lemma SharedLinkRemovesOld(site: Path, id: string, t: Tree, u: Tree, n: string, served: string)
    requires IsPlainName(n) && IsPlainName(served) && Serves(site, served, t)
    requires InShared(site, [n]) in t && t[InShared(site, [n])] == LinkTo(Releases(site))
    requires InRelease(site, id, [n]) in t && t[InRelease(site, id, [n])] == LinkTo(InShared(site, [n]))
    requires Clears(ReleasePath(site, id, n + "/" + served), t, u)
    ensures !PointsToRelease(site, u)
  {
    assert ParentOf(Release(site, served)) == Releases(site);
    assert ParentOf(InRelease(site, id, [n])) == Release(site, id) && ParentOf(InShared(site, [n])) == Shared(site);
    assert InRelease(site, id, [n]) == Release(site, id) + [n] && InShared(site, [n]) == Shared(site) + [n];
    TwoLinks(t, Release(site, id), n, Shared(site), n, Releases(site));
    SpotInReleases(site, id, t, n, served);
    ClearedAt(ReleasePath(site, id, n + "/" + served), t, u, Release(site, served));
    CurrentStays(site, ReleasePath(site, id, n + "/" + served), t, u, served);
    OldGone(site, served, t, u);
  }

  // ---------------------------------------------------------------- links of the old release

  /** `cp -a` brings the links of the old node along. */
  lemma LinksComeAlong(t: Tree, from: Path, to: Path, k: Path)
    requires WellFormed(t) && IsDir(t, from) && IsLink(t, from + k) && to != [] && IsDir(t, ParentOf(to))
    ensures to + k in CopyNode(t, from, to) && CopyNode(t, from, to)[to + k] == t[from + k]
  {
    BranchIsTree(t, from);
    PlantContents(t, to, Branch(t, from));
  }

  /**
   An old release whose `n` is a directory with a link `m` to some directory `r`, and the
   entries "n" and "n/m/...": if a fault has kept shared/n from being made, the copy of the
   first plants the link under shared/, and whatever is then copied for an entry below
   "n/m" goes to `r`.
   */
  lemma OldLinkLeadsAstray(site: Path, x: string, t: Tree, n: string, m: string, k: string, r: Path)
    requires WellFormed(t) && IsDir(t, InRelease(site, x, [n])) && IsDir(t, Shared(site)) && InShared(site, [n]) !in t
    requires InRelease(site, x, [n, m]) in t && t[InRelease(site, x, [n, m])] == LinkTo(r) && IsDir(t, r)
    ensures var u := CopyNode(t, InRelease(site, x, [n]), InShared(site, [n]));
            Spot(u, Names(InShared(site, [n, m, k]))) == Some(r + [k])
  {
    hide CopyNode, WellFormed, Spot;
    var from, to := InRelease(site, x, [n]), InShared(site, [n]);
    assert from + [m] == InRelease(site, x, [n, m]) && to + [m] == InShared(site, [n, m]);
    assert ParentOf(to) == Shared(site) && to + [m, k] == InShared(site, [n, m, k]);
    LinkPlanted(t, from, to, m, r);
    BelowLink(CopyNode(t, from, to), to + [m], r, k);
    assert to + [m] + [k] == to + [m, k];
  }

  lemma LinkPlanted(t: Tree, from: Path, to: Path, m: string, r: Path)
    requires WellFormed(t) && IsDir(t, from) && to != [] && IsDir(t, ParentOf(to)) && to !in t
    requires from + [m] in t && t[from + [m]] == LinkTo(r) && IsDir(t, r)
    ensures var u := CopyNode(t, from, to);
            WellFormed(u) && IsDir(u, r) && to + [m] in u && u[to + [m]] == LinkTo(r)
  {
    LinksComeAlong(t, from, to, [m]);
    EmptyIsVacant(t, to);
    CopyNodeFills(t, from, to, to);
  }

  lemma BelowLink(u: Tree, q: Path, r: Path, k: string)
    requires WellFormed(u) && q != [] && q in u && u[q] == LinkTo(r) && IsDir(u, r)
    ensures Spot(u, Names(q + [k])) == Some(r + [k])
  {
    LinkResolves(u, q, r);
    var p := Names(q + [k]);
    assert p[..|p| - 1] == Names(q);
    LastSpot(u, p, r, k);
  }
}
