/**
 Linking the shared paths into a new release: what one round of the loop, and all of them,
 may do to the tree, whatever form the entries have.

 An entry is a path string as the route accepts it. It may hold place holders, end in a
 slash, name nothing at all, and lie below another entry; then its way in the release may
 lead through a link into shared/.
 */
module ReleaseLinks {
  import opened FileSystem
  import opened PathTracks
  import opened TreeOps
  import opened ReleaseTrees
  import opened Text

  // ---------------------------------------------------------------- entries

  /** "Validate shared paths (no traversal)". */
  predicate Accepted(entry: string) {
    !Contains(entry, "..") && (entry == "" || entry[0] != '/')
  }

  /** The entries that pass are those without two dots in a row anywhere and without a slash in front. */
  lemma AcceptedExactly(entry: string)
    ensures Accepted(entry) <==>
            !Embeds(entry, "..") && !Begins(entry, "/")
  {
    ContainsEmbeds(entry, "..");
    if entry != "" && entry[0] == '/' {
      assert entry == "/" + entry[1..];
    }
  }

  /** The names of an entry, place holders aside. */
  function EntryPath(entry: string): Path {
    NamesIn(Components(entry))
  }

  /** The entry ends in a slash or a "." (or is empty). */
  predicate Slashed(entry: string) {
    EndsHere(Components(entry))
  }

  /** `shared.ends_with('/') || !shared.contains('.')`. */
  predicate DirKind(entry: string) {
    (entry != "" && entry[|entry| - 1] == '/') || '.' !in entry
  }

  function SharedPath(site: Path, entry: string): seq<Comp> {
    Names(Shared(site)) + Components(entry)
  }

  function ReleasePath(site: Path, id: string, entry: string): seq<Comp> {
    Names(Release(site, id)) + Components(entry)
  }

  ghost predicate AllAccepted(entries: seq<string>) {
    forall i | 0 <= i < |entries| :: Accepted(entries[i])
  }

  lemma AcceptedHasNoUp(entry: string)
    requires Accepted(entry)
    ensures Up !in Components(entry)
  {
    if Up in Components(entry) {
      var i := UpSpelled(entry);
      assert OccursAt(entry, "..", i);
    }
  }

  lemma BelowSpells(p: Path, entry: string)
    requires Accepted(entry)
    ensures Spells(Components(entry), EntryPath(entry))
    ensures Spells(Names(p) + Components(entry), p + EntryPath(entry))
    ensures EndsHere(Names(p) + Components(entry)) <==> Slashed(entry)
    ensures !Slashed(entry) ==> EntryPath(entry) != []
  {
    hide Accepted, Names, Spells, Components;
    AcceptedSpells(entry);
    SpellsNames(p);
    SpellsConcat(Names(p), p, Components(entry), EntryPath(entry));
    if EntryPath(entry) == [] {
      SpellsNothing(Components(entry));
    }
  }

  lemma AcceptedSpells(entry: string)
    requires Accepted(entry)
    ensures Spells(Components(entry), EntryPath(entry)) && Components(entry) != []
  {
    AcceptedHasNoUp(entry);
  }

  lemma EntrySpells(site: Path, id: string, entry: string)
    requires Accepted(entry)
    ensures Spells(Components(entry), EntryPath(entry))
    ensures Spells(SharedPath(site, entry), InShared(site, EntryPath(entry)))
    ensures Spells(ReleasePath(site, id, entry), InRelease(site, id, EntryPath(entry)))
    ensures EndsHere(SharedPath(site, entry)) <==> Slashed(entry)
    ensures EndsHere(ReleasePath(site, id, entry)) <==> Slashed(entry)
    ensures !Slashed(entry) ==> EntryPath(entry) != []
  {
    BelowSpells(Shared(site), entry);
    BelowSpells(Release(site, id), entry);
  }

  lemma {:induction false} DotStays(p: seq<Comp>, k: nat)
    requires k < |p| && p[k] == Here(true) && forall i | k <= i < |p| :: p[i].Here?
    ensures Dotted(p)
  {
    if p[|p| - 1] == Here(false) {
      DotStays(p[..|p| - 1], k);
    }
  }

  lemma {:induction false} OnlyPlaceHolders(p: seq<Comp>)
    requires Spells(p, [])
    ensures forall i | 0 <= i < |p| :: p[i].Here?
  {
    if p != [] {
      OnlyPlaceHolders(p[1..]);
      forall i | 0 <= i < |p| ensures p[i].Here? {
        if i > 0 {
          assert p[i] == p[1..][i - 1];
        }
      }
    }
  }

  /** Of the entries that name nothing, the empty one is the only one whose path in the release can be removed. */
  lemma NamelessEntry(site: Path, id: string, entry: string)
    requires Accepted(entry) && EntryPath(entry) == []
    ensures Slashed(entry)
    ensures entry == "" ==> TrimEmpty(ReleasePath(site, id, entry)) == Names(Release(site, id))
    ensures entry != "" ==> Dotted(ReleasePath(site, id, entry))
  {
    EntrySpells(site, id, entry);
    var p, k := ReleasePath(site, id, entry), |Release(site, id)|;
    OnlyPlaceHolders(Components(entry));
    FirstPiece(entry);
    if entry == "" {
      assert p == Names(Release(site, id)) + [Here(false)];
      assert p[..k] == Names(Release(site, id));
    } else {
      assert p[k] == Components(entry)[0];
      DotStays(p, k);
    }
  }

  lemma NamelessShared(site: Path, entry: string)
    requires Accepted(entry) && EntryPath(entry) == []
    ensures entry == "" || Dotted(SharedPath(site, entry))
  {
    BelowSpells(Shared(site), entry);
    OnlyPlaceHolders(Components(entry));
    FirstPiece(entry);
    if entry != "" {
      assert SharedPath(site, entry)[|Shared(site)|] == Components(entry)[0];
      DotStays(SharedPath(site, entry), |Shared(site)|);
    }
  }

  /** Which strings end in a slash or a "." (or are empty). */
  predicate SlashedSpelling(entry: string) {
    || entry == "" || entry == "." || entry[|entry| - 1] == '/'
    || (|entry| >= 2 && entry[|entry| - 2] == '/' && entry[|entry| - 1] == '.')
  }

  lemma {:induction false} SlashedSpelled(entry: string)
    ensures Slashed(entry) <==> SlashedSpelling(entry)
    decreases |entry|
  {
    hide Components, FirstSlash, Piece;
    var i := FirstSlash(entry);
    LastPiece(entry);
    if i < |entry| {
      SlashedSpelled(entry[i + 1..]);
      SpellingOfRest(entry, i);
    } else {
      NoSlashSpelled(entry);
    }
  }

  /** The last piece is that of what follows the first slash. */
  lemma LastPiece(entry: string)
    ensures var i := FirstSlash(entry);
            Slashed(entry) <==> if i < |entry| then Slashed(entry[i + 1..]) else Piece(entry).Here?
  {
    hide Components, FirstSlash, Piece;
    ComponentsMeans(entry);
    if FirstSlash(entry) < |entry| {
      ComponentsMeans(entry[FirstSlash(entry) + 1..]);
    }
  }

  lemma SpellingOfRest(entry: string, i: nat)
    requires i < |entry| && entry[i] == '/'
    ensures SlashedSpelling(entry) <==> SlashedSpelling(entry[i + 1..])
  {
    var rest := entry[i + 1..];
    assert rest != "" ==> rest[|rest| - 1] == entry[|entry| - 1];
    assert |rest| >= 2 ==> rest[|rest| - 2] == entry[|entry| - 2];
    assert |rest| == 1 ==> entry[|entry| - 2] == '/';
  }

  lemma NoSlashSpelled(entry: string)
    requires FirstSlash(entry) == |entry|
    ensures SlashedSpelling(entry) <==> Piece(entry).Here?
  {
    assert entry[..|entry|] == entry;
  }

  /**
   An entry that ends in a slash or in "/.", or is empty or ".", is never made a link:
   symlink(2) refuses such a path. With a slash at the end it still counts as a directory.
   */
  lemma SlashEntryNeverLinked(site: Path, id: string, t: Tree, link: Node, entry: string)
    requires SlashedSpelling(entry)
    ensures Symlink(t, link, ReleasePath(site, id, entry)) == t
    ensures entry != "" && entry[|entry| - 1] == '/' ==> DirKind(entry)
  {
    SlashedSpelled(entry);
  }

  // ---------------------------------------------------------------- what lies on the way to an entry

  /** The part of the site every path goes through. */
  ghost predicate Base(site: Path, id: string, t: Tree) {
    && WellFormed(t) && IsDir(t, site)
    && !IsLink(t, Releases(site)) && !IsLink(t, Shared(site)) && !IsLink(t, Release(site, id))
  }

  /** Under shared/, a link on the way to `e` leads to itself, as linking nested entries makes them. */
  ghost predicate SharedTame(site: Path, t: Tree, e: Path) {
    forall i | 0 < i <= |e| && IsLink(t, InShared(site, e[..i])) ::
      LeadsTo(t[InShared(site, e[..i])], InShared(site, e[..i]))
  }

  /** In the release, a link on the way to `e` leads to the same path under shared/. */
  ghost predicate ReleaseTame(site: Path, id: string, t: Tree, e: Path) {
    forall i | 0 < i <= |e| && IsLink(t, InRelease(site, id, e[..i])) ::
      LeadsTo(t[InRelease(site, id, e[..i])], InShared(site, e[..i]))
  }

  /** How many names of the entry are followed if they are links: the last one only behind a slash. */
  function Walked(entry: string): (n: nat)
    ensures n <= |EntryPath(entry)|
  {
    if Slashed(entry) || EntryPath(entry) == [] then |EntryPath(entry)| else |EntryPath(entry)| - 1
  }

  ghost predicate WayTame(site: Path, id: string, t: Tree, entry: string) {
    ReleaseTame(site, id, t, EntryPath(entry)[..Walked(entry)]) && SharedTame(site, t, EntryPath(entry))
  }

  ghost predicate AllTame(site: Path, id: string, t: Tree, entries: seq<string>) {
    forall i | 0 <= i < |entries| :: WayTame(site, id, t, entries[i])
  }

  /** The way to the entry in the release leads through a link. */
  ghost predicate Reached(site: Path, id: string, t: Tree, entry: string) {
    Crossed(t, InRelease(site, id, EntryPath(entry)[..Walked(entry)]))
  }

  lemma SharedPrefix(site: Path, e: Path, i: nat)
    requires i <= |InShared(site, e)|
    ensures var q := InShared(site, e)[..i];
            if i <= |site| then q == site[..i] && q <= site
            else i - |site| - 1 <= |e| && q == InShared(site, e[..i - |site| - 1])
                 && InShared(site, e)[i..] == e[i - |site| - 1..]
  {
  }

  lemma ReleasePrefix(site: Path, id: string, e: Path, i: nat)
    requires i <= |InRelease(site, id, e)|
    ensures var q := InRelease(site, id, e)[..i];
            if i <= |site| then q == site[..i] && q <= site
            else if i == |site| + 1 then q == Releases(site)
            else i - |site| - 2 <= |e| && q == InRelease(site, id, e[..i - |site| - 2])
                 && InRelease(site, id, e)[i..] == e[i - |site| - 2..]
  {
  }

  lemma SiteHasNoLinks(site: Path, t: Tree, q: Path)
    requires WellFormed(t) && IsDir(t, site) && q <= site
    ensures !IsLink(t, q)
  {
    hide WellFormed;
    assert site[..|q|] == q && site[..|site|] == site;
    PrefixPresent(t, site, |q|);
  }

  lemma SharedTrack(site: Path, id: string, t: Tree, e: Path)
    requires Base(site, id, t) && SharedTame(site, t, e)
    ensures Track(t, InShared(site, e), InShared(site, e))
  {
    var q := InShared(site, e);
    assert InShared(site, e[..0]) == Shared(site);
    forall i | 0 <= i <= |q| && IsLink(t, q[..i]) ensures i > 0 && LeadsTo(t[q[..i]], q[..i]) {
      SharedPrefix(site, e, i);
      if i <= |site| {
        SiteHasNoLinks(site, t, q[..i]);
      }
    }
  }

  lemma ReleaseTrack(site: Path, id: string, t: Tree, e: Path)
    requires Base(site, id, t) && ReleaseTame(site, id, t, e) && SharedTame(site, t, e)
    ensures Track(t, InRelease(site, id, e), InShared(site, e))
  {
    var q, alt := InRelease(site, id, e), InShared(site, e);
    SharedTrack(site, id, t, e);
    assert |q| - |alt| == 1 && InRelease(site, id, e[..0]) == Release(site, id);
    forall i | 0 <= i <= |q| && IsLink(t, q[..i]) ensures Diverts(t[q[..i]], q, alt, i) {
      ReleasePrefix(site, id, e, i);
      if i <= |site| {
        SiteHasNoLinks(site, t, q[..i]);
      } else if i > |site| + 1 {
        SharedPrefix(site, e, i - 1);
      }
    }
  }

  lemma SharedTamePrefix(site: Path, t: Tree, e: Path, k: nat)
    requires SharedTame(site, t, e) && k <= |e|
    ensures SharedTame(site, t, e[..k])
  {
    assert forall i | 0 < i <= k :: e[..k][..i] == e[..i];
  }

  lemma ParentOfIn(site: Path, id: string, e: Path)
    requires e != []
    ensures ParentOf(InShared(site, e)) == InShared(site, ParentOf(e))
    ensures ParentOf(InRelease(site, id, e)) == InRelease(site, id, ParentOf(e))
  {
  }

  /** The tracks of an entry: as far as its links are followed, and under shared/ to the end. */
  lemma EntryTracks(site: Path, id: string, t: Tree, entry: string)
    requires Base(site, id, t) && WayTame(site, id, t, entry)
    ensures var e, w := EntryPath(entry), Walked(entry);
            && Track(t, InShared(site, e), InShared(site, e))
            && Track(t, InRelease(site, id, e[..w]), InShared(site, e[..w]))
  {
    SharedTrack(site, id, t, EntryPath(entry));
    SharedTamePrefix(site, t, EntryPath(entry), Walked(entry));
    ReleaseTrack(site, id, t, EntryPath(entry)[..Walked(entry)]);
  }

  // ---------------------------------------------------------------- relations between trees of a run

  /** Directories were made, nothing else; all of them on the way to `q` or to `alt`. */
  ghost predicate MadeDirs(t: Tree, u: Tree, q: Path, alt: Path) {
    && (forall p | p in t :: p in u && u[p] == t[p])
    && (forall p | p in u && p !in t :: u[p] == Dir && (p <= q || p <= alt))
  }

  /** Nodes at or below `root` were removed, nothing else. */
  ghost predicate Pruned(t: Tree, u: Tree, root: Path) {
    && (forall p | p in t && !(root <= p) :: p in u)
    && (forall p | p in u :: p in t && u[p] == t[p])
  }

  ghost predicate PrunedSince(t: Tree, trace: seq<Tree>, n: nat, root: Path) {
    forall i | n <= i < |trace| :: Pruned(t, trace[i], root)
  }

  lemma RemoveLeaf(start: Tree, t: Tree, root: Path, leaf: Path)
    requires WellFormed(t) && Pruned(start, t, root)
    requires root != [] && leaf in Subtree(t, root) && IsLeaf(t, leaf)
    ensures WellFormed(t - {leaf}) && Pruned(start, t - {leaf}, root)
    ensures Subtree(t - {leaf}, root) == Subtree(t, root) - {leaf}
  {
    RemoveNode(t, leaf);
  }

  // ---------------------------------------------------------------- create_dir_all

  /** What `create_dir_all` guarantees where links lead over to `alt`. */
  ghost predicate MkdirAllDid(start: Tree, n: nat, t: Tree, trace: seq<Tree>, p: seq<Comp>, q: Path, alt: Path,
      faulty: bool)
  {
    Track(start, q, alt) ==>
      && MadeDirs(start, t, q, alt) && (forall i | n <= i < |trace| :: MadeDirs(start, trace[i], q, alt))
      && (!faulty && !Dotted(p) && NothingInTheWay(start, q) ==> IsDir(t, q))
  }

  lemma MkdirOnTrack(t: Tree, q: Path, alt: Path, p: seq<Comp>)
    requires WellFormed(t) && q != [] && Track(t, q, alt) && Spells(p, q)
    ensures var u := Mkdir(t, p);
            || u == t || (q !in t && u == t[q := Dir]) || (alt !in t && u == t[alt := Dir])
    ensures !Dotted(p) && IsDir(t, ParentOf(q)) ==> q in Mkdir(t, p)
  {
    var r := TrimEmpty(p);
    SpellsWithoutEmpty(p, q);
    TrackParent(t, q, alt);
    if !EndsHere(r) {
      if Crossed(t, ParentOf(q)) {
        SameLastName(t, q, alt);
        TrackSpot(t, q, alt, r);
        if IsDir(t, ParentOf(q)) {
          DirsHaveNoLinks(t, ParentOf(q));
        }
      } else {
        StraightSpot(t, q, r);
      }
    }
  }

  lemma MadeDirsKeepTrack(t: Tree, u: Tree, q: Path, alt: Path, a: Path, b: Path)
    requires MadeDirs(t, u, q, alt) && Track(t, a, b)
    ensures Track(u, a, b)
  {
    forall i | 0 <= i <= |a| && IsLink(u, a[..i]) ensures Diverts(u[a[..i]], a, b, i) {
      assert IsLink(t, a[..i]);
    }
    forall i | 0 <= i <= |b| && IsLink(u, b[..i]) ensures LeadsTo(u[b[..i]], b[..i]) {
      assert IsLink(t, b[..i]);
    }
  }

  lemma MkdirAllNotNeeded(t: Tree, trace: seq<Tree>, p: seq<Comp>, q: Path, alt: Path, faulty: bool)
    requires WellFormed(t) && Spells(p, q) && (IsDirAt(t, p) || q == [])
    ensures MkdirAllDid(t, |trace|, t, trace, p, q, alt, faulty)
  {
    if NothingInTheWay(t, q) && q != [] {
      ParentWay(t, q);
      StraightResolve(t, q, p);
    }
  }

  lemma MkdirAllExtended(start: Tree, n: nat, middle: Tree, before: seq<Tree>, end: Tree, after: seq<Tree>,
      up: seq<Comp>, p: seq<Comp>, q: Path, alt: Path, faulty: bool)
    requires WellFormed(start) && WellFormed(middle) && q != [] && Spells(p, q) && !EndsHere(up)
    requires MkdirAllDid(start, n, middle, before, up, ParentOf(q), ParentOf(alt), faulty)
    requires (end == middle && after == before) || (end == Mkdir(middle, p) && after == before + [end])
    requires !faulty ==> end == Mkdir(middle, p)
    ensures MkdirAllDid(start, n, end, after, p, q, alt, faulty)
  {
    if Track(start, q, alt) {
      TrackParent(start, q, alt);
      MadeDirsKeepTrack(start, middle, ParentOf(q), ParentOf(alt), q, alt);
      MkdirOnTrack(middle, q, alt, p);
      MadeDirsThenOne(start, middle, end, q, alt);
      forall i | n <= i < |after| ensures MadeDirs(start, after[i], q, alt) {
        if i < |before| {
          assert MadeDirs(start, before[i], ParentOf(q), ParentOf(alt));
        }
      }
      if !faulty && !Dotted(p) && NothingInTheWay(start, q) {
        ParentWay(start, q);
        assert q in start ==> IsDir(start, q) by { assert q[..|q|] == q; }
      }
    }
  }

  lemma MadeDirsThenOne(start: Tree, middle: Tree, end: Tree, q: Path, alt: Path)
    requires MadeDirs(start, middle, ParentOf(q), ParentOf(alt))
    requires end == middle || (q !in middle && end == middle[q := Dir]) || (alt !in middle && end == middle[alt := Dir])
    ensures MadeDirs(start, middle, q, alt) && MadeDirs(start, end, q, alt)
  {
  }
}
