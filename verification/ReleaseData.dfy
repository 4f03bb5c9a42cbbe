/**
 What becomes of the files under shared/ when a list of entries is linked and nothing fails:
 the list alone decides which of them are lost.
 */
module ReleaseData {
  import opened FileSystem
  import opened PathTracks
  import opened TreeOps
  import opened ReleaseTrees
  import opened ReleaseLinks
  import opened ReleaseRounds
  import opened ReleaseLists

  // ---------------------------------------------------------------- ways without files

  /** In the release, no file lies above a listed path. */
  ghost predicate OpenWays(site: Path, id: string, t: Tree, entries: seq<string>) {
    forall j, i | 0 <= j < |entries| && 0 <= i < |EntryPath(entries[j])|
        && InRelease(site, id, EntryPath(entries[j])[..i]) in t ::
      !t[InRelease(site, id, EntryPath(entries[j])[..i])].File?
  }

  lemma OpenWaysBegin(site: Path, id: string, entries: seq<string>, t: Tree)
    requires WaysClear(site, id, t, entries)
    ensures OpenWays(site, id, t, entries)
  {
    forall j, i | 0 <= j < |entries| && 0 <= i < |EntryPath(entries[j])|
        && InRelease(site, id, EntryPath(entries[j])[..i]) in t
      ensures !t[InRelease(site, id, EntryPath(entries[j])[..i])].File?
    {
      var e := EntryPath(entries[j]);
      var up := ParentOf(InRelease(site, id, e));
      assert NothingInTheWay(t, up);
      assert up[..|site| + 2 + i] == InRelease(site, id, e[..i]);
    }
  }

  lemma OpenWaysStay(site: Path, id: string, entries: seq<string>, k: nat, reached: bool, u: Tree, t: Tree)
    requires k < |entries| && OpenWays(site, id, u, entries) && LinkStage(site, id, entries[k], reached, u, t)
    ensures OpenWays(site, id, t, entries)
  {
    forall j, i | 0 <= j < |entries| && 0 <= i < |EntryPath(entries[j])|
        && InRelease(site, id, EntryPath(entries[j])[..i]) in t
      ensures !t[InRelease(site, id, EntryPath(entries[j])[..i])].File?
    {
      AreasApart(site, id, EntryPath(entries[j])[..i], EntryPath(entries[k]));
    }
  }

  /** An open way without links is clear. */
  lemma OpenIsClear(site: Path, id: string, entries: seq<string>, k: nat, t: Tree)
    requires k < |entries| && OpenWays(site, id, t, entries) && Base(site, id, t) && !Slashed(entries[k])
    requires EntryPath(entries[k]) != [] && IsDir(t, Releases(site)) && ReleaseIsDir(site, id, t)
               && !Reached(site, id, t, entries[k])
    ensures NothingInTheWay(t, ParentOf(InRelease(site, id, EntryPath(entries[k]))))
  {
    var e := EntryPath(entries[k]);
    var q := InRelease(site, id, ParentOf(e));
    ParentOfIn(site, id, e);
    assert e[..Walked(entries[k])] == ParentOf(e);
    forall i | 0 <= i <= |q| && q[..i] in t ensures IsDir(t, q[..i]) {
      ReleasePrefix(site, id, ParentOf(e), i);
      assert !IsLink(t, q[..i]);
      if i <= |site| {
        PrefixPresent(t, Releases(site), i);
        assert Releases(site)[..i] == site[..i];
      } else if i > |site| + 1 {
        var m := i - |site| - 2;
        assert ParentOf(e)[..m] == e[..m];
      }
    }
  }

  /** A directory above a node is there. */
  lemma SharedParentDir(site: Path, t: Tree, x: Path, e: Path)
    requires WellFormed(t) && x != [] && x <= e && InShared(site, e) in t
    ensures IsDir(t, ParentOf(InShared(site, x)))
  {
    NestingInShared(site, x, e);
    var q := InShared(site, e);
    assert ParentOf(InShared(site, x)) < q by { assert ParentOf(InShared(site, x)) < InShared(site, x); }
    AncestorsAreDirs(t, q, ParentOf(InShared(site, x)));
  }

  lemma StartableTree(site: Path, id: string, t: Tree, entry: string)
    requires Startable(site, id, t, entry)
    ensures WellFormed(t)
  {
  }

  // ---------------------------------------------------------------- links, as the list tells

  /** The way of the entry leads through one of these links. */
  predicate Meets(links: set<Path>, entry: string) {
    exists i | 0 < i <= Walked(entry) :: EntryPath(entry)[..i] in links
  }

  /** On the ways to the entries, the links of the release after the rounds for `entries`. */
  function LinkPaths(entries: seq<string>): set<Path> {
    if entries == [] then {}
    else LinksAfter(LinkPaths(entries[..|entries| - 1]), entries[|entries| - 1])
  }

  /** An entry that does not meet a link clears its place in the release, and leaves a link there. */
  function LinksAfter(links: set<Path>, entry: string): set<Path> {
    if Meets(links, entry) then links
    else (set x | x in links && !(EntryPath(entry) <= x)) + if Slashed(entry) then {} else {EntryPath(entry)}
  }

  /** The round for entry `k` reaches the path under shared/ through a link and takes it away. */
  predicate Wipes(entries: seq<string>, k: nat, p: Path)
    requires k < |entries|
  {
    Meets(LinkPaths(entries[..k]), entries[k])
    && if Slashed(entries[k]) then EntryPath(entries[k]) < p else EntryPath(entries[k]) <= p
  }

  predicate Wiped(entries: seq<string>, p: Path) {
    exists k | 0 <= k < |entries| :: Wipes(entries, k, p)
  }

  lemma LinkPathsStep(entries: seq<string>, k: nat)
    requires k < |entries|
    ensures LinkPaths(entries[..k + 1]) == LinksAfter(LinkPaths(entries[..k]), entries[k])
  {
    assert entries[..k + 1][..k] == entries[..k];
  }

  lemma WipedStep(entries: seq<string>, k: nat, p: Path)
    requires k < |entries|
    ensures Wiped(entries[..k + 1], p) <==> Wiped(entries[..k], p) || Wipes(entries, k, p)
  {
    var more, few := entries[..k + 1], entries[..k];
    forall m | 0 <= m <= k ensures Wipes(more, m, p) <==> Wipes(entries, m, p) {
      assert more[..m] == entries[..m];
    }
    forall m | 0 <= m < k ensures Wipes(few, m, p) <==> Wipes(entries, m, p) {
      assert few[..m] == entries[..m];
    }
    if Wipes(entries, k, p) {
      assert Wipes(more, k, p);
    }
    if Wiped(few, p) {
      var m :| 0 <= m < k && Wipes(few, m, p);
      assert Wipes(more, m, p);
    }
    if Wiped(more, p) {
      var m :| 0 <= m <= k && Wipes(more, m, p);
      assert m < k ==> Wipes(few, m, p);
    }
  }

  // ---------------------------------------------------------------- after k rounds

  predicate HasData(t: Tree, q: Path) {
    q in t && t[q].File? && t[q].content != ""
  }

  predicate Same(s: Tree, t: Tree, q: Path)
    requires q in s
  {
    q in t && t[q] == s[q]
  }

  /** The links on the ways to the entries are those the list tells. */
  ghost predicate LinksAsTold(site: Path, id: string, t: Tree, entries: seq<string>, links: set<Path>) {
    && (forall x | x in links :: x != [] && IsLink(t, InRelease(site, id, x)))
    && (forall j, i | 0 <= j < |entries| && 0 < i <= Walked(entries[j])
          && IsLink(t, InRelease(site, id, EntryPath(entries[j])[..i])) :: EntryPath(entries[j])[..i] in links)
  }

  /** After `k` rounds: every file with content under shared/ is as it was exactly if the list does not wipe it. */
  ghost predicate DataSoFar(site: Path, id: string, entries: seq<string>, start: Tree, t: Tree, k: nat)
    requires k <= |entries|
  {
    && OpenWays(site, id, t, entries) && LinksAsTold(site, id, t, entries, LinkPaths(entries[..k]))
    && forall p: Path | HasData(start, InShared(site, p)) ::
         Same(start, t, InShared(site, p)) <==> !Wiped(entries[..k], p)
  }

  lemma DataBegins(site: Path, id: string, entries: seq<string>, t: Tree)
    requires WaysClear(site, id, t, entries) && LinksFrom(site, id, t, entries, 0)
    ensures DataSoFar(site, id, entries, t, t, 0)
  {
    OpenWaysBegin(site, id, entries, t);
    assert entries[..0] == [];
    forall j, i | 0 <= j < |entries| && 0 < i <= Walked(entries[j])
      ensures !IsLink(t, InRelease(site, id, EntryPath(entries[j])[..i]))
    {
      assert !LinkedBefore(entries, 0, EntryPath(entries[j])[..i]);
    }
  }

  /** An entry is reached exactly if the list tells so. */
  lemma ReachedAsTold(site: Path, id: string, t: Tree, entries: seq<string>, links: set<Path>, k: nat)
    requires k < |entries| && Base(site, id, t) && LinksAsTold(site, id, t, entries, links)
    ensures Reached(site, id, t, entries[k]) <==> Meets(links, entries[k])
  {
    hide Reached, Base;
    if Reached(site, id, t, entries[k]) {
      var i := ReachedAt(site, id, t, entries[k]);
      assert EntryPath(entries[k])[..i] in links;
    }
    if Meets(links, entries[k]) {
      var i :| 0 < i <= Walked(entries[k]) && EntryPath(entries[k])[..i] in links;
      ReachedIf(site, id, t, entries[k], i);
    }
  }

  /** What a round relies on and does. */
  ghost predicate Round(site: Path, id: string, entries: seq<string>, k: nat, u: Tree, t: Tree)
    requires k < |entries|
  {
    && Startable(site, id, u, entries[k]) && OpenWays(site, id, u, entries)
    && ReleaseIsDir(site, id, u) && IsDir(u, Releases(site)) && WellFormed(t)
    && LinkStage(site, id, entries[k], Reached(site, id, u, entries[k]), u, t)
    && RoundDone(site, id, entries[k], u, t)
  }

  /** An entry that is not reached and not slashed is a link after its round. */
  lemma LinkMadeHere(site: Path, id: string, entries: seq<string>, k: nat, u: Tree, t: Tree)
    requires k < |entries| && Round(site, id, entries, k, u, t)
    requires !Reached(site, id, u, entries[k]) && !Slashed(entries[k])
    ensures EntryPath(entries[k]) != [] && IsLink(t, InRelease(site, id, EntryPath(entries[k])))
  {
    hide OpenWays, LinkStage, NothingInTheWay, Reached;
    StartableAccepted(site, id, u, entries[k]);
    EntrySpells(site, id, entries[k]);
    StartableBase(site, id, u, entries[k]);
    OpenIsClear(site, id, entries, k, u);
  }

  /** Where a round does not reach a link, nothing that was below its place in the release is left. */
  lemma ClearedHere(site: Path, id: string, entries: seq<string>, k: nat, u: Tree, t: Tree, q: Path)
    requires k < |entries| && Round(site, id, entries, k, u, t) && !Reached(site, id, u, entries[k])
    requires EntryPath(entries[k]) < q
    ensures InRelease(site, id, q) !in t
  {
    var e := EntryPath(entries[k]);
    NestingInRelease(site, id, e, q);
    if Slashed(entries[k]) {
      assert NothingBelow(t, InRelease(site, id, e));
    } else {
      LinkMadeHere(site, id, entries, k, u, t);
      NothingBelowNonDir(t, InRelease(site, id, e));
    }
  }

  lemma ToldStay(site: Path, id: string, entries: seq<string>, k: nat, u: Tree, t: Tree, links: set<Path>, x: Path)
    requires k < |entries| && Round(site, id, entries, k, u, t) && LinksAsTold(site, id, u, entries, links)
    requires Reached(site, id, u, entries[k]) <==> Meets(links, entries[k])
    requires x in LinksAfter(links, entries[k])
    ensures x != [] && IsLink(t, InRelease(site, id, x))
  {
    hide Round, Reached, Meets;
    var e := EntryPath(entries[k]);
    if !Reached(site, id, u, entries[k]) && x == e && !Slashed(entries[k]) {
      LinkMadeHere(site, id, entries, k, u, t);
    } else {
      RoundStage(site, id, entries, k, u, t);
      ToldKept(site, id, entries[k], Reached(site, id, u, entries[k]), u, t, x);
    }
  }

  lemma ToldKept(site: Path, id: string, entry: string, reached: bool, u: Tree, t: Tree, x: Path)
    requires LinkStage(site, id, entry, reached, u, t) && IsLink(u, InRelease(site, id, x))
    requires reached || !(EntryPath(entry) <= x)
    ensures IsLink(t, InRelease(site, id, x))
  {
    AreasApart(site, id, x, EntryPath(entry));
    NestingInRelease(site, id, EntryPath(entry), x);
  }

  lemma OnlyTold(site: Path, id: string, entries: seq<string>, k: nat, u: Tree, t: Tree, links: set<Path>, j: nat,
      i: nat)
    requires k < |entries| && Round(site, id, entries, k, u, t) && LinksAsTold(site, id, u, entries, links)
    requires Reached(site, id, u, entries[k]) <==> Meets(links, entries[k])
    requires j < |entries| && 0 < i <= Walked(entries[j]) && IsLink(t, InRelease(site, id, EntryPath(entries[j])[..i]))
    ensures EntryPath(entries[j])[..i] in LinksAfter(links, entries[k])
  {
    hide RoundDone, Startable, OpenWays, Reached, NothingBelow;
    var e, q := EntryPath(entries[k]), EntryPath(entries[j])[..i];
    AreasApart(site, id, q, e);
    NestingInRelease(site, id, e, q);
    if !Reached(site, id, u, entries[k]) {
      if e < q {
        ClearedHere(site, id, entries, k, u, t, q);
      }
      if Slashed(entries[k]) {
        NoLinkInPlace(site, id, u, entries[k]);
      }
    }
  }

  lemma NoLinkInPlace(site: Path, id: string, t: Tree, entry: string)
    requires Slashed(entry) && !Reached(site, id, t, entry)
    ensures !IsLink(t, InRelease(site, id, EntryPath(entry)))
  {
    var e := EntryPath(entry);
    assert e[..|e|] == e;
    if IsLink(t, InRelease(site, id, e)) {
      ReachedIf(site, id, t, entry, |e|);
    }
  }

  lemma NextTold(site: Path, id: string, entries: seq<string>, k: nat, u: Tree, t: Tree)
    requires k < |entries| && Round(site, id, entries, k, u, t)
    requires LinksAsTold(site, id, u, entries, LinkPaths(entries[..k]))
    ensures LinksAsTold(site, id, t, entries, LinkPaths(entries[..k + 1]))
    ensures Reached(site, id, u, entries[k]) <==> Meets(LinkPaths(entries[..k]), entries[k])
  {
    hide Round, LinksAfter, Meets, Reached;
    var links := LinkPaths(entries[..k]);
    LinkPathsStep(entries, k);
    RoundBase(site, id, entries, k, u, t);
    ReachedAsTold(site, id, u, entries, links, k);
    forall x | x in LinksAfter(links, entries[k]) ensures x != [] && IsLink(t, InRelease(site, id, x)) {
      ToldStay(site, id, entries, k, u, t, links, x);
    }
    forall j, i | 0 <= j < |entries| && 0 < i <= Walked(entries[j])
        && IsLink(t, InRelease(site, id, EntryPath(entries[j])[..i]))
      ensures EntryPath(entries[j])[..i] in LinksAfter(links, entries[k])
    {
      OnlyTold(site, id, entries, k, u, t, links, j, i);
    }
  }

  lemma RoundBase(site: Path, id: string, entries: seq<string>, k: nat, u: Tree, t: Tree)
    requires k < |entries| && Round(site, id, entries, k, u, t)
    ensures Base(site, id, u)
  {
  }

  // ---------------------------------------------------------------- one file in one round

  /** What a round makes is no file with content. */
  lemma DataNotMade(site: Path, id: string, entry: string, reached: bool, u: Tree, t: Tree, q: Path)
    requires LinkStage(site, id, entry, reached, u, t) && HasData(t, q)
    ensures q in u && u[q] == t[q]
  {
  }

  /** A file the round does not wipe stays. */
  lemma DataStays(site: Path, id: string, entries: seq<string>, k: nat, u: Tree, t: Tree, p: Path)
    requires k < |entries| && Round(site, id, entries, k, u, t) && HasData(u, InShared(site, p))
    requires Reached(site, id, u, entries[k]) ==>
               !(if Slashed(entries[k]) then EntryPath(entries[k]) < p else EntryPath(entries[k]) <= p)
    ensures Same(u, t, InShared(site, p))
  {
    hide Startable, OpenWays, Reached, NothingInTheWay, HasLink, HasTarget, SharedWay;
    var e := EntryPath(entries[k]);
    NestingInShared(site, e, p);
    AreasApart(site, id, e, p);
    if Reached(site, id, u, entries[k]) && e == p {
      assert InShared(site, e) in u && !IsDir(u, InShared(site, e));
    }
  }

  /** A file the round wipes is gone. */
  lemma DataGoes(site: Path, id: string, entries: seq<string>, k: nat, u: Tree, t: Tree, p: Path)
    requires k < |entries| && Round(site, id, entries, k, u, t) && HasData(u, InShared(site, p))
    requires Reached(site, id, u, entries[k])
    requires if Slashed(entries[k]) then EntryPath(entries[k]) < p else EntryPath(entries[k]) <= p
    ensures !HasData(t, InShared(site, p))
  {
    hide OpenWays, Reached, NothingInTheWay, HasLink, HasTarget, SharedWay, LinkStage, Startable;
    var e, q := EntryPath(entries[k]), InShared(site, p);
    NestingInShared(site, e, p);
    StartableTree(site, id, u, entries[k]);
    if Slashed(entries[k]) {
      AncestorsAreDirs(u, q, InShared(site, e));
    } else {
      StartableBase(site, id, u, entries[k]);
      ReachedHasName(site, id, u, entries[k]);
      SharedParentDir(site, u, e, p);
      LinkedUnderShared(site, id, entries[k], u, t);
      NothingBelowNonDir(t, InShared(site, e));
    }
  }

  lemma NextDataSoFar(site: Path, id: string, entries: seq<string>, start: Tree, u: Tree, t: Tree, k: nat)
    requires k < |entries| && DataSoFar(site, id, entries, start, u, k) && Startable(site, id, u, entries[k])
    requires ReleaseIsDir(site, id, u) && IsDir(u, Releases(site)) && WellFormed(t)
    requires LinkStage(site, id, entries[k], Reached(site, id, u, entries[k]), u, t)
    requires RoundDone(site, id, entries[k], u, t)
    ensures DataSoFar(site, id, entries, start, t, k + 1)
  {
    hide LinkStage, RoundDone, Startable, Reached, OpenWays, LinksAsTold, LinkPaths, Wiped;
    assert Round(site, id, entries, k, u, t);
    NextTold(site, id, entries, k, u, t);
    OpenWaysStay(site, id, entries, k, Reached(site, id, u, entries[k]), u, t);
    forall p: Path | HasData(start, InShared(site, p))
      ensures Same(start, t, InShared(site, p)) <==> !Wiped(entries[..k + 1], p)
    {
      NextDataAt(site, id, entries, start, u, t, k, p);
    }
  }

  lemma NextDataAt(site: Path, id: string, entries: seq<string>, start: Tree, u: Tree, t: Tree, k: nat, p: Path)
    requires k < |entries| && Round(site, id, entries, k, u, t) && HasData(start, InShared(site, p))
    requires Reached(site, id, u, entries[k]) <==> Meets(LinkPaths(entries[..k]), entries[k])
    requires Same(start, u, InShared(site, p)) <==> !Wiped(entries[..k], p)
    ensures Same(start, t, InShared(site, p)) <==> !Wiped(entries[..k + 1], p)
  {
    hide Round, Reached, Meets, Wiped, LinkPaths;
    var q := InShared(site, p);
    WipedStep(entries, k, p);
    if Same(start, u, q) {
      if Wipes(entries, k, p) {
        DataGoes(site, id, entries, k, u, t, p);
      } else {
        DataStays(site, id, entries, k, u, t, p);
      }
    } else if Same(start, t, q) {
      RoundStage(site, id, entries, k, u, t);
      DataNotMade(site, id, entries[k], Reached(site, id, u, entries[k]), u, t, q);
    }
  }

  lemma RoundStage(site: Path, id: string, entries: seq<string>, k: nat, u: Tree, t: Tree)
    requires k < |entries| && Round(site, id, entries, k, u, t)
    ensures LinkStage(site, id, entries[k], Reached(site, id, u, entries[k]), u, t)
  {
  }
}
