/**
 All rounds of the loop that links the shared paths: which entries reach into shared/, what
 is lost there, what appears there, and what the release looks like afterwards.
 */
module ReleaseLists {
  import opened FileSystem
  import opened PathTracks
  import opened TreeOps
  import opened ReleaseTrees
  import opened ReleaseLinks
  import opened ReleaseRounds

  // ---------------------------------------------------------------- the list of entries

  /** Once `a` is linked, the path of `b` in the release leads through that link. */
  predicate Nests(a: string, b: string) {
    !Slashed(a) && EntryPath(a) != [] && EntryPath(a) <= EntryPath(b) && |EntryPath(a)| <= Walked(b)
  }

  /** An earlier entry nests this one. */
  predicate Hit(entries: seq<string>, j: nat)
    requires j < |entries|
  {
    exists i | 0 <= i < j :: Nests(entries[i], entries[j])
  }

  function HitPaths(entries: seq<string>): set<Path> {
    set j | 0 <= j < |entries| && Hit(entries, j) :: EntryPath(entries[j])
  }

  /** No path lies below another one, and a path is listed in one spelling only. */
  predicate Separate(entries: seq<string>) {
    forall i, j | 0 <= i < |entries| && 0 <= j < |entries| ::
      && !(EntryPath(entries[i]) < EntryPath(entries[j]))
      && (EntryPath(entries[i]) == EntryPath(entries[j]) ==> entries[i] == entries[j])
  }

  lemma SeparateHitsNothing(entries: seq<string>)
    requires Separate(entries)
    ensures HitPaths(entries) == {}
  {
    forall j | 0 <= j < |entries| ensures !Hit(entries, j) {
      forall i | 0 <= i < j ensures !Nests(entries[i], entries[j]) {
        assert EntryPath(entries[i]) == EntryPath(entries[j]) ==> entries[i] == entries[j];
      }
    }
  }

  /** The release is there when all rounds are done: no empty entry, or an entry with a name after it. */
  predicate Rebuilt(entries: seq<string>) {
    if entries == [] then true
    else
      var last := entries[|entries| - 1];
      if EntryPath(last) != [] then true
      else last != "" && Rebuilt(entries[..|entries| - 1])
  }

  lemma {:induction false} RebuiltWithoutEmpty(entries: seq<string>)
    requires "" !in entries
    ensures Rebuilt(entries)
  {
    if entries != [] {
      RebuiltWithoutEmpty(entries[..|entries| - 1]);
    }
  }

  /** Whatever the entries are, `[""]` is not rebuilt: the failing input of the route. */
  lemma EmptyEntryAlone()
    ensures Accepted("") && !Rebuilt([""])
  {
    EmptyEntry();
  }

  // ---------------------------------------------------------------- links on the ways

  /** In the release, links on the ways to the entries are those of the first `k` entries. */
  ghost predicate LinksFrom(site: Path, id: string, t: Tree, entries: seq<string>, k: nat)
    requires k <= |entries|
  {
    forall j, i | 0 <= j < |entries| && 0 < i <= Walked(entries[j])
        && IsLink(t, InRelease(site, id, EntryPath(entries[j])[..i])) ::
      LinkedBefore(entries, k, EntryPath(entries[j])[..i])
  }

  predicate LinkedBefore(entries: seq<string>, k: nat, e: Path)
    requires k <= |entries|
  {
    exists m | 0 <= m < k :: !Slashed(entries[m]) && EntryPath(entries[m]) == e
  }

  /** Only a nested entry is reached. */
  lemma ReachedIsHit(site: Path, id: string, t: Tree, entries: seq<string>, k: nat)
    requires k < |entries| && Base(site, id, t) && LinksFrom(site, id, t, entries, k)
               && Reached(site, id, t, entries[k])
    ensures Hit(entries, k) && EntryPath(entries[k]) in HitPaths(entries) && EntryPath(entries[k]) != []
  {
    var i := ReachedAt(site, id, t, entries[k]);
    assert LinkedBefore(entries, k, EntryPath(entries[k])[..i]);
    var m :| 0 <= m < k && !Slashed(entries[m]) && EntryPath(entries[m]) == EntryPath(entries[k])[..i];
    assert Nests(entries[m], entries[k]);
  }

  lemma NextLinksFrom(site: Path, id: string, u: Tree, t: Tree, entries: seq<string>, k: nat, reached: bool)
    requires k < |entries| && LinksFrom(site, id, u, entries, k) && LinkStage(site, id, entries[k], reached, u, t)
    ensures LinksFrom(site, id, t, entries, k + 1)
  {
    forall j, i | 0 <= j < |entries| && 0 < i <= Walked(entries[j])
        && IsLink(t, InRelease(site, id, EntryPath(entries[j])[..i]))
      ensures LinkedBefore(entries, k + 1, EntryPath(entries[j])[..i])
    {
      var e := EntryPath(entries[j])[..i];
      AreasApart(site, id, e, EntryPath(entries[k]));
      NestingInRelease(site, id, e, EntryPath(entries[k]));
      if IsLink(u, InRelease(site, id, e)) {
        assert LinkedBefore(entries, k, e);
      }
    }
  }

  // ---------------------------------------------------------------- a round is calm

  lemma OnTheWay(site: Path, id: string, e: Path, p: Path)
    requires p <= InShared(site, e) || p <= InRelease(site, id, e)
    ensures MayAppear(site, id, p)
  {
    if p <= InShared(site, e) {
      assert |p| <= |site| ==> p <= site;
      assert |p| > |site| ==> Shared(site) <= p;
    } else {
      assert |p| <= |site| + 1 ==> p <= Releases(site);
      assert |p| > |site| + 1 ==> Release(site, id) <= p;
    }
  }

  lemma StageKeepsOrLoses(site: Path, id: string, entry: string, reached: bool, lost: set<Path>, t: Tree, u: Tree,
      p: Path)
    requires LinkStage(site, id, entry, reached, t, u) && p in t
    requires reached ==> EntryPath(entry) in lost && EntryPath(entry) != []
    ensures Release(site, id) <= p || Lost(site, lost, p) || KeptNode(site, t, u, p)
  {
    assert Release(site, id) <= InRelease(site, id, EntryPath(entry));
  }

  lemma TmpLinkApart(site: Path, id: string, e: Path)
    ensures !(TmpLink(site, id) <= InShared(site, e)) && !(TmpLink(site, id) <= InRelease(site, id, e))
    ensures !(InShared(site, e) <= TmpLink(site, id)) && !(InRelease(site, id, e) <= TmpLink(site, id))
  {
    assert TmpLink(site, id)[|site|][0] == 'c';
    assert InShared(site, e)[|site|] == "shared" && InRelease(site, id, e)[|site|] == "releases";
  }

  lemma StageIsCalm(site: Path, id: string, entry: string, reached: bool, lost: set<Path>, t: Tree, u: Tree)
    requires Accepted(entry) && LinkStage(site, id, entry, reached, t, u)
    requires reached ==> EntryPath(entry) in lost && EntryPath(entry) != []
    ensures Calm(site, id, lost, t, u)
  {
    hide Lost, KeptNode, MayAppear, Accepted;
    var e := EntryPath(entry);
    TmpLinkApart(site, id, e);
    EntrySpells(site, id, entry);
    AreasApart(site, id, e, e);
    forall p | p in t ensures Release(site, id) <= p || Lost(site, lost, p) || KeptNode(site, t, u, p) {
      StageKeepsOrLoses(site, id, entry, reached, lost, t, u, p);
    }
    forall p | p in u && p !in t ensures MayAppear(site, id, p) {
      OnTheWay(site, id, e, p);
    }
  }

  lemma RunIsCalm(site: Path, id: string, entry: string, lost: set<Path>, u: Tree, n: nat, t: Tree, trace: seq<Tree>)
    requires LinkRun(site, id, entry, u, n, t, trace)
    requires Reached(site, id, u, entry) ==> EntryPath(entry) in lost && EntryPath(entry) != []
    ensures CalmRun(site, id, lost, u, n, t, trace)
  {
    var reached := Reached(site, id, u, entry);
    StageIsCalm(site, id, entry, reached, lost, u, t);
    forall i | n <= i < |trace| ensures Calm(site, id, lost, u, trace[i]) {
      StageIsCalm(site, id, entry, reached, lost, u, trace[i]);
    }
  }

  // ---------------------------------------------------------------- the release itself

  lemma ReleaseStays(site: Path, id: string, entry: string, reached: bool, t: Tree, u: Tree)
    requires Accepted(entry) && LinkStage(site, id, entry, reached, t, u)
    requires reached ==> EntryPath(entry) != []
    requires IsDir(t, Release(site, id)) && entry != ""
    ensures IsDir(u, Release(site, id))
  {
    EntrySpells(site, id, entry);
    AreasApart(site, id, EntryPath(entry), EntryPath(entry));
  }

  /** The release, if it is there, is a directory. */
  ghost predicate ReleaseIsDir(site: Path, id: string, t: Tree) {
    Release(site, id) in t ==> t[Release(site, id)].Dir?
  }

  lemma ReleaseStaysDir(site: Path, id: string, entry: string, reached: bool, t: Tree, u: Tree)
    requires Accepted(entry) && LinkStage(site, id, entry, reached, t, u) && ReleaseIsDir(site, id, t)
    ensures ReleaseIsDir(site, id, u)
  {
    EntrySpells(site, id, entry);
    AreasApart(site, id, EntryPath(entry), EntryPath(entry));
    if Release(site, id) in u && Release(site, id) !in t {
      assert !(InShared(site, EntryPath(entry)) <= Release(site, id));
    }
  }

  lemma NothingInMissingRelease(site: Path, id: string, t: Tree, e: Path)
    requires WellFormed(t) && Release(site, id) !in t
    ensures InRelease(site, id, e) !in t
  {
    NothingBelowMissing(t, Release(site, id));
    assert Release(site, id) <= InRelease(site, id, e);
  }

  lemma MissingReleaseUnreached(site: Path, id: string, entry: string, u: Tree)
    requires Base(site, id, u) && Release(site, id) !in u
    ensures !Reached(site, id, u, entry)
  {
    if Reached(site, id, u, entry) {
      var i := ReachedAt(site, id, u, entry);
      NothingInMissingRelease(site, id, u, EntryPath(entry)[..i]);
    }
  }

  lemma MissingReleaseWay(site: Path, id: string, e: Path, u: Tree)
    requires Base(site, id, u) && Release(site, id) !in u && IsDir(u, Releases(site))
    ensures NothingInTheWay(u, InRelease(site, id, e))
  {
    var q := InRelease(site, id, e);
    forall i | 0 <= i <= |q| && q[..i] in u ensures IsDir(u, q[..i]) {
      ReleasePrefix(site, id, e, i);
      if i <= |site| {
        PrefixPresent(u, Releases(site), i);
        assert Releases(site)[..i] == site[..i];
      } else if i > |site| + 1 {
        NothingInMissingRelease(site, id, u, e[..i - |site| - 2]);
      }
    }
  }

  /** An entry with a name brings a lost release back, by making the directory its link goes into. */
  lemma ReleaseComesBack(site: Path, id: string, entry: string, u: Tree, t: Tree)
    requires Startable(site, id, u, entry) && RoundDone(site, id, entry, u, t) && EntryPath(entry) != []
    requires Release(site, id) !in u && IsDir(u, Releases(site)) && WellFormed(t)
    ensures IsDir(t, Release(site, id))
  {
    hide WellFormed, NothingInTheWay, Reached, HasLink, HasTarget, SharedWay;
    var e := EntryPath(entry);
    StartableBase(site, id, u, entry);
    MissingReleaseUnreached(site, id, entry, u);
    ParentOfIn(site, id, e);
    MissingReleaseWay(site, id, ParentOf(e), u);
    var up := InRelease(site, id, ParentOf(e));
    PrefixPresent(t, up, |site| + 2);
    assert up[..|site| + 2] == Release(site, id) && up[..|up|] == up;
  }

  lemma NextRebuilt(site: Path, id: string, entries: seq<string>, k: nat, u: Tree, t: Tree)
    requires k < |entries| && Startable(site, id, u, entries[k]) && RoundDone(site, id, entries[k], u, t)
               && WellFormed(t)
    requires LinkStage(site, id, entries[k], Reached(site, id, u, entries[k]), u, t)
    requires IsDir(u, Releases(site)) && ReleaseIsDir(site, id, u)
    requires Release(site, id) in u <==> Rebuilt(entries[..k])
    ensures Release(site, id) in t <==> Rebuilt(entries[..k + 1])
  {
    hide LinkStage, Startable, WellFormed, Reached, Accepted, Rebuilt;
    var entry := entries[k];
    RebuiltStep(entries, k);
    StartableBase(site, id, u, entry);
    StartableAccepted(site, id, u, entry);
    if Reached(site, id, u, entry) {
      ReachedHasName(site, id, u, entry);
    }
    if Release(site, id) in u && entry != "" {
      ReleaseStays(site, id, entry, Reached(site, id, u, entry), u, t);
    } else if EntryPath(entry) != [] {
      if entry == "" {
        EmptyEntry();
      }
      ReleaseComesBack(site, id, entry, u, t);
    } else {
      NamelessEntry(site, id, entry);
      if Release(site, id) !in u {
        NoReleaseFromNothing(site, id, entry, Reached(site, id, u, entry), u, t);
      }
    }
  }

  lemma RebuiltStep(entries: seq<string>, k: nat)
    requires k < |entries|
    ensures Rebuilt(entries[..k + 1]) ==
              if EntryPath(entries[k]) != [] then true else entries[k] != "" && Rebuilt(entries[..k])
  {
    assert entries[..k + 1][..k] == entries[..k];
  }

  // ---------------------------------------------------------------- what the repository holds

  predicate UnderEntry(site: Path, id: string, entries: seq<string>, p: Path) {
    exists i | 0 <= i < |entries| :: InRelease(site, id, EntryPath(entries[i])) <= p
  }

  /** In the release, what is not at or below a listed path is as it was. */
  ghost predicate RestKept(site: Path, id: string, entries: seq<string>, s: Tree, t: Tree) {
    forall p | p in s && Release(site, id) <= p :: UnderEntry(site, id, entries, p) || (p in t && t[p] == s[p])
  }

  lemma NotInBoth(site: Path, id: string, e: Path, p: Path)
    requires Release(site, id) <= p
    ensures !(InShared(site, e) <= p)
  {
    assert p[|site|] == "releases" && InShared(site, e)[|site|] == "shared";
  }

  lemma NextRest(site: Path, id: string, start: Tree, u: Tree, t: Tree, entries: seq<string>, k: nat, reached: bool)
    requires k < |entries| && RestKept(site, id, entries, start, u) && LinkStage(site, id, entries[k], reached, u, t)
    ensures RestKept(site, id, entries, start, t)
  {
    forall p | p in start && Release(site, id) <= p
      ensures UnderEntry(site, id, entries, p) || (p in t && t[p] == start[p])
    {
      assert InRelease(site, id, EntryPath(entries[k])) <= p ==> UnderEntry(site, id, entries, p);
      NotInBoth(site, id, EntryPath(entries[k]), p);
    }
  }

  // ---------------------------------------------------------------- what appears under shared/

  predicate OnSharedWay(site: Path, entries: seq<string>, p: Path) {
    exists i | 0 <= i < |entries| :: p <= InShared(site, EntryPath(entries[i]))
  }

  predicate Listed(site: Path, entries: seq<string>, p: Path) {
    exists i | 0 <= i < |entries| :: p == InShared(site, EntryPath(entries[i]))
  }

  predicate WasEmpty(s: Tree, q: Path) {
    q in s ==> EmptyNode(s, q)
  }

  /** A listed path with one above or below it that is given up. */
  predicate NearLost(entries: seq<string>, i: nat)
    requires i < |entries|
  {
    exists x | x in HitPaths(entries) ::
      x != [] && (x <= EntryPath(entries[i]) || EntryPath(entries[i]) <= x)
  }

  /** A listed path that may be filled: it was missing or empty, or became so by what is given up. */
  predicate Fillable(site: Path, s: Tree, entries: seq<string>, i: nat)
    requires i < |entries|
  {
    WasEmpty(s, InShared(site, EntryPath(entries[i]))) || NearLost(entries, i)
  }

  predicate BelowFillable(site: Path, s: Tree, entries: seq<string>, p: Path) {
    exists i | 0 <= i < |entries| :: InShared(site, EntryPath(entries[i])) <= p && Fillable(site, s, entries, i)
  }

  /**
   Under shared/ everything but what nested entries give up is as it was, except for listed
   empty files that were given content; and what is new lies on the way to a listed path, at
   or below one that may be filled, or in the backup of public/.
   */
  ghost predicate Grown(site: Path, entries: seq<string>, s: Tree, t: Tree) {
    && (forall p | p in s && Shared(site) <= p ::
          || Lost(site, HitPaths(entries), p)
          || (p in t && (t[p] == s[p] || (s[p] == File("") && t[p].File? && Listed(site, entries, p)))))
    && (forall p | p in t && Shared(site) < p && p !in s ::
          OnSharedWay(site, entries, p) || BelowFillable(site, s, entries, p) || Backup(site) <= p)
  }

  lemma LostNear(site: Path, entries: seq<string>, i: nat, p: Path)
    requires i < |entries| && InShared(site, EntryPath(entries[i])) <= p && Lost(site, HitPaths(entries), p)
    ensures NearLost(entries, i)
  {
    var q := InShared(site, EntryPath(entries[i]));
    var x :| x in HitPaths(entries) && x != [] && InShared(site, x) <= p;
    PrefixesOfOne(InShared(site, x), q, p);
    NestingInShared(site, x, EntryPath(entries[i]));
    NestingInShared(site, EntryPath(entries[i]), x);
  }

  lemma FillableBefore(site: Path, entries: seq<string>, s: Tree, u: Tree, i: nat)
    requires Grown(site, entries, s, u) && i < |entries| && Fillable(site, u, entries, i)
    ensures Fillable(site, s, entries, i)
  {
    var q := InShared(site, EntryPath(entries[i]));
    assert Shared(site) <= q;
    if q in s && !NearLost(entries, i) {
      forall p | p in s && q <= p ensures p in u && (p == q ==> u[q] == s[q] || s[q] == File("")) {
        assert Shared(site) <= p;
        if Lost(site, HitPaths(entries), p) {
          LostNear(site, entries, i, p);
        }
      }
      if s[q].Dir? {
        forall p | p in Subtree(s, q) ensures p == q {
          assert p in Subtree(u, q);
        }
        assert q in Subtree(s, q);
      }
    }
  }

  lemma GrownTransitive(site: Path, entries: seq<string>, s: Tree, u: Tree, t: Tree)
    requires Grown(site, entries, s, u) && Grown(site, entries, u, t)
    ensures Grown(site, entries, s, t)
  {
    hide Fillable, Lost, HitPaths;
    forall p | p in t && Shared(site) < p && p !in s
      ensures OnSharedWay(site, entries, p) || BelowFillable(site, s, entries, p) || Backup(site) <= p
    {
      if p !in u && !OnSharedWay(site, entries, p) && !(Backup(site) <= p) {
        var i :| 0 <= i < |entries| && InShared(site, EntryPath(entries[i])) <= p && Fillable(site, u, entries, i);
        FillableBefore(site, entries, s, u, i);
      }
    }
  }

  /** The path is not the backup, and no listed path lies above or below it. */
  predicate Alone(entries: seq<string>, e: Path) {
    && e != [] && e[0] != BACKUP_NAME
    && forall i | 0 <= i < |entries| :: !(e < EntryPath(entries[i])) && !(EntryPath(entries[i]) < e)
  }

  /** A path that stands alone and is not given up itself is not near one that is. */
  lemma AloneIsSafe(entries: seq<string>, e: Path, i: nat)
    requires Alone(entries, e) && e !in HitPaths(entries) && i < |entries| && EntryPath(entries[i]) == e
    ensures !NearLost(entries, i)
  {
    forall x | x in HitPaths(entries) ensures !(x <= e) && !(e <= x) {
      var j :| 0 <= j < |entries| && EntryPath(entries[j]) == x;
      assert x <= e && x != e ==> x < e;
      assert e <= x && x != e ==> e < x;
    }
  }

  lemma NothingNewBelow(site: Path, entries: seq<string>, s: Tree, t: Tree, e: Path, p: Path)
    requires Grown(site, entries, s, t) && Alone(entries, e) && e !in HitPaths(entries)
    requires InShared(site, e) in s && !WasEmpty(s, InShared(site, e)) && InShared(site, e) < p && p !in s
    ensures p !in t
  {
    hide NearLost, WasEmpty, HitPaths, Lost;
    var q := InShared(site, e);
    assert Shared(site) < q;
    assert p[|site| + 1] == q[|site| + 1] == e[0];
    assert Backup(site)[|site| + 1] == BACKUP_NAME;
    if p in t {
      if OnSharedWay(site, entries, p) {
        var i :| 0 <= i < |entries| && p <= InShared(site, EntryPath(entries[i]));
        NestingInShared(site, e, EntryPath(entries[i]));
      } else {
        var i :| 0 <= i < |entries| && InShared(site, EntryPath(entries[i])) <= p && Fillable(site, s, entries, i);
        NestingInShared(site, e, EntryPath(entries[i]));
        NestingInShared(site, EntryPath(entries[i]), e);
        PrefixesOfOne(InShared(site, EntryPath(entries[i])), q, p);
        AloneIsSafe(entries, e, i);
      }
    }
  }

  lemma KeptBelow(site: Path, entries: seq<string>, s: Tree, t: Tree, e: Path, p: Path)
    requires Grown(site, entries, s, t) && Alone(entries, e) && e !in HitPaths(entries)
    requires InShared(site, e) in s && !WasEmpty(s, InShared(site, e)) && InShared(site, e) <= p && p in s
    ensures p in t && t[p] == s[p]
  {
    assert Shared(site) <= InShared(site, e);
    if Lost(site, HitPaths(entries), p) {
      var x :| x in HitPaths(entries) && x != [] && InShared(site, x) <= p;
      PrefixesOfOne(InShared(site, x), InShared(site, e), p);
      NestingInShared(site, x, e);
      NestingInShared(site, e, x);
    }
    if Listed(site, entries, p) {
      var i :| 0 <= i < |entries| && p == InShared(site, EntryPath(entries[i]));
      NestingInShared(site, e, EntryPath(entries[i]));
    }
  }

  /**
   A shared path that was not empty is as it was through and through, if it is not given up
   and no listed path lies above or below it.
   */
  lemma NonEmptyUntouched(site: Path, entries: seq<string>, s: Tree, t: Tree, e: Path)
    requires Grown(site, entries, s, t) && Alone(entries, e) && e !in HitPaths(entries)
    requires InShared(site, e) in s && !WasEmpty(s, InShared(site, e))
    ensures Branch(t, InShared(site, e)) == Branch(s, InShared(site, e))
  {
    hide Grown, Alone, WasEmpty, HitPaths;
    var q := InShared(site, e);
    forall x ensures q + x in t <==> q + x in s
      ensures q + x in s ==> t[q + x] == s[q + x]
    {
      if q + x in s {
        KeptBelow(site, entries, s, t, e, q + x);
      } else {
        assert x == [] ==> q + x == q;
        NothingNewBelow(site, entries, s, t, e, q + x);
      }
    }
  }

  lemma PrefixesOfOne(a: Path, b: Path, p: Path)
    requires a <= p && b <= p
    ensures a <= b || b < a
  {
    if |a| <= |b| {
      assert a == p[..|a|] == b[..|a|];
    } else {
      assert b == p[..|b|] == a[..|b|];
    }
  }

  lemma StageGrows(site: Path, id: string, entries: seq<string>, k: nat, reached: bool, t: Tree, u: Tree)
    requires k < |entries| && Accepted(entries[k]) && LinkStage(site, id, entries[k], reached, t, u)
    requires reached ==> EntryPath(entries[k]) in HitPaths(entries) && EntryPath(entries[k]) != []
    ensures Grown(site, entries, t, u)
  {
    hide HitPaths;
    var e := EntryPath(entries[k]);
    forall p | p in t && Shared(site) <= p
      ensures Lost(site, HitPaths(entries), p) || (p in u && u[p] == t[p])
    {
      if !reached {
        StageKeepsShared(site, id, entries[k], t, u, p);
      }
    }
    forall p | p in u && Shared(site) < p && p !in t ensures OnSharedWay(site, entries, p) {
      AreasApart(site, id, e, e);
      assert p <= InRelease(site, id, e) ==> Shared(site) <= InRelease(site, id, e);
      assert InRelease(site, id, e)[|site|] == "releases" && Shared(site)[|site|] == "shared";
    }
  }

  // ---------------------------------------------------------------- separate lists: links and targets

  /** In the release, every directory above a listed path is a directory or absent. */
  ghost predicate WaysClear(site: Path, id: string, t: Tree, entries: seq<string>) {
    forall i | 0 <= i < |entries| && EntryPath(entries[i]) != [] ::
      NothingInTheWay(t, ParentOf(InRelease(site, id, EntryPath(entries[i]))))
  }

  /** In the release, no file lies above the listed path. */
  ghost predicate WayOpen(site: Path, id: string, t: Tree, entry: string) {
    EntryPath(entry) != [] && NothingInTheWay(t, ParentOf(InRelease(site, id, EntryPath(entry))))
  }

  lemma NextWayOpen(site: Path, id: string, u: Tree, t: Tree, entries: seq<string>, k: nat, i: nat)
    requires k < |entries| && i < |entries| && Separate(entries) && WayOpen(site, id, u, entries[i])
    requires LinkStage(site, id, entries[k], false, u, t)
    ensures WayOpen(site, id, t, entries[i])
  {
    var e, x := EntryPath(entries[i]), EntryPath(entries[k]);
    ParentOfIn(site, id, e);
    AreasApart(site, id, ParentOf(e), x);
    NestingInRelease(site, id, x, ParentOf(e));
    assert x <= ParentOf(e) ==> x < e;
    StageKeepsWay(site, id, entries[k], false, u, t, ParentOf(InRelease(site, id, e)));
  }

  lemma NextSharedWay(site: Path, id: string, u: Tree, t: Tree, entries: seq<string>, k: nat, i: nat)
    requires k < |entries| && i < |entries| && Separate(entries) && SharedWay(site, u, entries[i])
    requires LinkStage(site, id, entries[k], false, u, t)
    ensures SharedWay(site, t, entries[i])
  {
    var e, x := EntryPath(entries[i]), EntryPath(entries[k]);
    var sh := InShared(site, e);
    var q := if DirKind(entries[i]) then sh else ParentOf(sh);
    NestingInShared(site, x, e);
    assert InShared(site, x) <= ParentOf(sh) ==> InShared(site, x) < sh by { assert ParentOf(sh) < sh; }
    assert !(InRelease(site, id, x) <= q) by {
      AreasApart(site, id, x, e);
      assert q <= sh;
    }
    AreasApart(site, id, x, e);
    StageKeepsWay(site, id, entries[k], false, u, t, q);
  }

  lemma NextLink(site: Path, id: string, u: Tree, t: Tree, entries: seq<string>, k: nat, j: nat)
    requires j < k < |entries| && Separate(entries) && HasLink(site, id, u, EntryPath(entries[j]))
    requires LinkStage(site, id, entries[k], false, u, t)
    requires entries[j] == entries[k] ==> HasLink(site, id, t, EntryPath(entries[k]))
    ensures HasLink(site, id, t, EntryPath(entries[j]))
  {
    NestingInRelease(site, id, EntryPath(entries[k]), EntryPath(entries[j]));
    assert !(EntryPath(entries[k]) < EntryPath(entries[j]));
    assert EntryPath(entries[k]) == EntryPath(entries[j]) ==> entries[k] == entries[j];
  }

  lemma TargetStays(site: Path, id: string, entry: string, u: Tree, t: Tree, other: string)
    requires LinkStage(site, id, entry, false, u, t) && HasTarget(site, u, other)
    ensures HasTarget(site, t, other)
  {
    StageKeepsShared(site, id, entry, u, t, InShared(site, EntryPath(other)));
  }
}
