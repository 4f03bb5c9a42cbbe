/**
 Trees on the way of an atomic deploy: the layout of a site, the invariant of its trees, and
 the relations in which the trees of one run stand to each other.
 */
module ReleaseTrees {
  import opened Wrappers
  import opened FileSystem
  import opened TreeOps

  // ---------------------------------------------------------------- layout

  function Releases(site: Path): Path { site + ["releases"] }

  function Release(site: Path, id: string): Path { site + ["releases", id] }

  function Shared(site: Path): Path { site + ["shared"] }

  function Current(site: Path): Path { site + ["current"] }

  function TmpLink(site: Path, id: string): Path { site + ["current.tmp." + id] }

  function Public(site: Path): Path { site + ["public"] }

  const BACKUP_NAME := "_pre_atomic_public_backup"

  /** Where the first atomic deploy moves a public/ that is a real directory. */
  function Backup(site: Path): Path { site + ["shared", BACKUP_NAME] }

  function LinkTo(p: Path): Node { Link(true, Names(p)) }

  /** Names of the release directories: directories only, links are not listed. */
  function ReleaseNames(site: Path, t: Tree): set<string> {
    set p | p in t && |p| == |site| + 2 && Releases(site) <= p && t[p].Dir? :: p[|site| + 1]
  }

  lemma ReleaseNamesMeaning(site: Path, t: Tree)
    ensures forall id :: id in ReleaseNames(site, t) <==> IsDir(t, Release(site, id))
  {
    forall id ensures id in ReleaseNames(site, t) <==> IsDir(t, Release(site, id)) {
      var p := Release(site, id);
      assert p[..|site| + 1] == Releases(site);
      if id in ReleaseNames(site, t) {
        var q :| q in t && |q| == |site| + 2 && Releases(site) <= q && t[q].Dir? && q[|site| + 1] == id;
        assert q == p;
      }
    }
  }

  lemma {:induction false} NamesInjective(a: Path, b: Path)
    requires Names(a) == Names(b)
    ensures a == b
  {
    assert |a| == |Names(a)| == |Names(b)| == |b|;
    forall i | 0 <= i < |a| ensures a[i] == b[i] {
      assert Names(a)[i] == Name(a[i]) && Names(b)[i] == Name(b[i]);
    }
  }

  /** A link names one release only. */
  lemma OneRelease(site: Path, x: string, y: string)
    requires LinkTo(Release(site, x)) == LinkTo(Release(site, y))
    ensures x == y
  {
    NamesInjective(Release(site, x), Release(site, y));
    assert Release(site, x)[|site| + 1] == x && Release(site, y)[|site| + 1] == y;
  }

  // ---------------------------------------------------------------- the invariant

  ghost predicate PointsToRelease(site: Path, t: Tree) {
    IsLink(t, Current(site)) ==>
      exists id :: t[Current(site)] == LinkTo(Release(site, id)) && IsDir(t, Release(site, id))
  }

  /** The entries of releases/ are no links. */
  ghost predicate RealReleases(site: Path, t: Tree) {
    forall id :: !IsLink(t, Release(site, id))
  }

  /** The site is laid out as it should be, whatever `current` says. */
  ghost predicate Laid(site: Path, t: Tree) {
    && WellFormed(t) && IsDir(t, site)
    && !IsLink(t, Releases(site)) && !IsLink(t, Shared(site))
    && RealReleases(site, t)
  }

  ghost predicate Good(site: Path, t: Tree) {
    Laid(site, t) && PointsToRelease(site, t)
  }

  /** Once `current` is set, following it arrives at an existing release directory. */
  lemma CurrentResolves(site: Path, t: Tree)
    requires Good(site, t) && IsLink(t, Current(site))
    ensures exists id :: Resolve(t, Names(site + ["current"])) == Some(site + ["releases", id])
                         && IsDir(t, site + ["releases", id])
  {
    var id :| t[Current(site)] == LinkTo(Release(site, id)) && IsDir(t, Release(site, id));
    LastLinkResolves(t, site, "current", Release(site, id));
    assert Release(site, id) == site + ["releases", id];
  }

  // ---------------------------------------------------------------- what a deploy may do before the swap

  function InShared(site: Path, path: Path): Path { Shared(site) + path }

  function InRelease(site: Path, id: string, path: Path): Path { Release(site, id) + path }

  /** At or below one of the shared paths that are given up. */
  ghost predicate Lost(site: Path, lost: set<Path>, p: Path) {
    exists x | x in lost :: x != [] && InShared(site, x) <= p
  }

  /** A node that keeps its place and content; only an empty file under shared/ may be given content. */
  ghost predicate KeptNode(site: Path, t: Tree, u: Tree, p: Path) {
    p in t ==> p in u && (u[p] == t[p] || (Shared(site) <= p && t[p] == File("") && u[p].File?))
  }

  /** Where a deploy may add nodes before the swap. */
  predicate MayAppear(site: Path, id: string, p: Path) {
    Release(site, id) <= p || Shared(site) <= p || p <= Releases(site) || p == TmpLink(site, id)
  }

  /**
   Outside the new release (and the temporary link) nothing is lost or changed but what is
   given up under shared/; new nodes appear only there, under shared/ and as the site's own
   directories, and none of these directories becomes a link.
   */
  ghost predicate Calm(site: Path, id: string, lost: set<Path>, t: Tree, u: Tree) {
    && (forall p | p in t ::
          Release(site, id) <= p || p == TmpLink(site, id) || Lost(site, lost, p) || KeptNode(site, t, u, p))
    && (forall p | p in u && p !in t :: MayAppear(site, id, p))
    && (IsLink(u, Releases(site)) ==> IsLink(t, Releases(site)))
    && (IsLink(u, Shared(site)) ==> IsLink(t, Shared(site)))
    && (IsLink(u, Release(site, id)) ==> IsLink(t, Release(site, id)))
    && (IsDir(u, TmpLink(site, id)) ==> IsDir(t, TmpLink(site, id)))
  }

  lemma CalmTransitive(site: Path, id: string, lost: set<Path>, a: Tree, b: Tree, c: Tree)
    requires Calm(site, id, lost, a, b) && Calm(site, id, lost, b, c)
    ensures Calm(site, id, lost, a, c)
  {
    forall p | p in a
      ensures Release(site, id) <= p || p == TmpLink(site, id) || Lost(site, lost, p) || KeptNode(site, a, c, p)
    {
      if !(Release(site, id) <= p) && p != TmpLink(site, id) && !Lost(site, lost, p) {
        assert KeptNode(site, a, b, p) && KeptNode(site, b, c, p);
      }
    }
  }

  /** Giving up more is no harder. */
  lemma CalmWithMoreLost(site: Path, id: string, few: set<Path>, lost: set<Path>, t: Tree, u: Tree)
    requires Calm(site, id, few, t, u) && few <= lost
    ensures Calm(site, id, lost, t, u)
  {
    assert forall p | Lost(site, few, p) :: Lost(site, lost, p);
  }

  lemma LostUnderShared(site: Path, lost: set<Path>, p: Path)
    requires Lost(site, lost, p)
    ensures Shared(site) < p && p[|site|] == "shared"
  {
    var x :| x in lost && x != [] && InShared(site, x) <= p;
    assert InShared(site, x)[|site|] == "shared" && Shared(site) < InShared(site, x);
  }

  /** What is neither under shared/ nor in the new release is as it was: `current` and the older releases. */
  lemma OlderUnchanged(site: Path, id: string, lost: set<Path>, t: Tree, u: Tree, n: string)
    requires Calm(site, id, lost, t, u) && n != id
    ensures Branch(u, Release(site, n)) == Branch(t, Release(site, n))
    ensures Current(site) in u <==> Current(site) in t
    ensures Current(site) in t ==> u[Current(site)] == t[Current(site)]
  {
    NamesDiffer(site, id, n);
    NamesDiffer(site, n, id);
    NotShared(site, id, lost, t, u, Current(site));
    var r := Release(site, n);
    forall k ensures r + k in u <==> r + k in t
      ensures r + k in t ==> u[r + k] == t[r + k]
    {
      var p := r + k;
      assert p[|site|] == "releases" && p[|site| + 1] == n;
      assert Release(site, id)[|site| + 1] == id && |TmpLink(site, id)| == |site| + 1;
      NotShared(site, id, lost, t, u, p);
    }
  }

  /** A node of the site outside shared/, the new release and the temporary link is as it was, or appears on the way. */
  lemma NotShared(site: Path, id: string, lost: set<Path>, t: Tree, u: Tree, p: Path)
    requires Calm(site, id, lost, t, u) && |p| > |site| && p[|site|] != "shared"
    requires !(Release(site, id) <= p) && p != TmpLink(site, id)
    ensures p in t ==> p in u && u[p] == t[p]
    ensures p in u && p !in t ==> p == Releases(site)
  {
    assert Shared(site)[|site|] == "shared";
    if Lost(site, lost, p) {
      LostUnderShared(site, lost, p);
    }
    assert p in t ==> KeptNode(site, t, u, p);
    assert p <= Releases(site) ==> p == Releases(site);
  }

  lemma NamesDiffer(site: Path, id: string, n: string)
    ensures |{Releases(site), Shared(site), Current(site), Public(site), TmpLink(site, id)}| == 5
    ensures TmpLink(site, id) !in {Releases(site), Shared(site), Current(site), Public(site)}
    ensures Releases(site) !in {Shared(site), Current(site), Public(site)}
    ensures Shared(site) !in {Current(site), Public(site)} && Current(site) != Public(site)
    ensures !(Release(site, n) <= Current(site)) && !(Release(site, n) <= Releases(site)) && !(Release(site, n) <= site)
    ensures n != id ==> !(Release(site, n) <= Release(site, id))
  {
    assert Release(site, n)[|site| + 1] == n && Release(site, id)[|site| + 1] == id;
    assert TmpLink(site, id)[|site|] == "current.tmp." + id;
    assert Releases(site)[|site|] == "releases" && Shared(site)[|site|] == "shared";
    assert Current(site)[|site|] == "current" && Public(site)[|site|] == "public";
    assert |"current.tmp." + id| > 8;
  }

  lemma CalmKeepsReleases(site: Path, id: string, lost: set<Path>, t: Tree, u: Tree, n: string)
    requires Calm(site, id, lost, t, u) && n != id
    ensures Release(site, n) in u <==> Release(site, n) in t
    ensures Release(site, n) in t ==> u[Release(site, n)] == t[Release(site, n)]
  {
    OlderUnchanged(site, id, lost, t, u, n);
    assert Release(site, n) + [] == Release(site, n);
    assert [] in Branch(u, Release(site, n)) <==> Release(site, n) in u;
    assert [] in Branch(t, Release(site, n)) <==> Release(site, n) in t;
  }

  lemma CalmKeepsSite(site: Path, id: string, lost: set<Path>, t: Tree, u: Tree)
    requires Calm(site, id, lost, t, u) && IsDir(t, site)
    ensures IsDir(u, site)
  {
    NamesDiffer(site, id, id);
    assert |site| < |TmpLink(site, id)|;
    if Lost(site, lost, site) {
      LostUnderShared(site, lost, site);
    }
    assert KeptNode(site, t, u, site);
  }

  lemma CalmStaysGood(site: Path, id: string, lost: set<Path>, t: Tree, u: Tree)
    requires Good(site, t) && WellFormed(u) && Calm(site, id, lost, t, u) && Release(site, id) !in t
    ensures Good(site, u)
  {
    CalmKeepsSite(site, id, lost, t, u);
    forall n ensures !IsLink(u, Release(site, n)) {
      if n != id {
        CalmKeepsReleases(site, id, lost, t, u, n);
      }
    }
    if IsLink(u, Current(site)) {
      OlderUnchanged(site, id, lost, t, u, id + "x");
      var x :| t[Current(site)] == LinkTo(Release(site, x)) && IsDir(t, Release(site, x));
      CalmKeepsReleases(site, id, lost, t, u, x);
    }
  }

  // ---------------------------------------------------------------- runs

  ghost predicate CalmRun(site: Path, id: string, lost: set<Path>, start: Tree, n: nat, t: Tree, trace: seq<Tree>) {
    Calm(site, id, lost, start, t) && forall i | n <= i < |trace| :: Calm(site, id, lost, start, trace[i])
  }

  lemma CalmRunExtended(site: Path, id: string, lost: set<Path>, start: Tree, n: nat, u: Tree, before: seq<Tree>,
      t: Tree, trace: seq<Tree>)
    requires CalmRun(site, id, lost, start, n, u, before) && before <= trace
    requires CalmRun(site, id, lost, u, |before|, t, trace)
    ensures CalmRun(site, id, lost, start, n, t, trace)
  {
    CalmTransitive(site, id, lost, start, u, t);
    forall i | n <= i < |trace| ensures Calm(site, id, lost, start, trace[i]) {
      if i < |before| {
        assert trace[i] == before[i];
      } else {
        CalmTransitive(site, id, lost, start, u, trace[i]);
      }
    }
  }

  lemma CalmStep(site: Path, id: string, lost: set<Path>, start: Tree, n: nat, u: Tree, before: seq<Tree>, v: Tree)
    requires CalmRun(site, id, lost, start, n, u, before) && Calm(site, id, lost, u, v)
    ensures CalmRun(site, id, lost, start, n, v, before + [v])
  {
    CalmTransitive(site, id, lost, start, u, v);
  }

  /** `current`, once set, stays set. */
  ghost predicate StaysSet(site: Path, s: Tree, u: Tree) {
    IsLink(s, Current(site)) ==> IsLink(u, Current(site))
  }

  /** Every tree since step `n` is good, and `current` stays set if it was in `start`. */
  ghost predicate GoodSince(site: Path, start: Tree, trace: seq<Tree>, n: nat) {
    forall i | n <= i < |trace| :: Good(site, trace[i]) && StaysSet(site, start, trace[i])
  }

  lemma CalmStaysSet(site: Path, id: string, lost: set<Path>, start: Tree, t: Tree)
    requires Calm(site, id, lost, start, t)
    ensures StaysSet(site, start, t)
  {
    OlderUnchanged(site, id, lost, start, t, id + "x");
  }

  lemma CalmRunIsGood(site: Path, id: string, lost: set<Path>, start: Tree, n: nat, t: Tree, trace: seq<Tree>)
    requires Good(site, start) && Release(site, id) !in start
    requires CalmRun(site, id, lost, start, n, t, trace)
    requires WellFormed(t) && forall i | 0 <= i < |trace| :: WellFormed(trace[i])
    ensures Good(site, t) && StaysSet(site, start, t) && GoodSince(site, start, trace, n)
  {
    CalmStaysGood(site, id, lost, start, t);
    CalmStaysSet(site, id, lost, start, t);
    forall i | n <= i < |trace| ensures Good(site, trace[i]) && StaysSet(site, start, trace[i]) {
      CalmStaysGood(site, id, lost, start, trace[i]);
      CalmStaysSet(site, id, lost, start, trace[i]);
    }
  }
}
