/**
 Creating a file or a directory at a path that was granted (`create_entry` in
 panel/agent/src/services/files.rs): where the new nodes come to lie.
 */
module SiteFiles {
  import opened Wrappers
  import opened FileSystem
  import opened PathTracks
  import opened TreeOps
  import opened SafePath

  // ---------------------------------------------------------------- the calls

  /** `create_dir_all` when no call fails for reasons outside the tree. */
  function CreateDirAll(t: Tree, p: seq<Comp>): Tree
    decreases |p|
  {
    if IsDirAt(t, p) || Parent(p).None? then t else Mkdir(CreateDirAll(t, Parent(p).value), p)
  }

  /** `create_entry`; a path that exists is refused. */
  function CreateEntry(t: Tree, p: seq<Comp>, isDir: bool): Tree {
    if Exists(t, p) then t
    else if isDir then CreateDirAll(t, p)
    else Touch(if Parent(p).Some? then CreateDirAll(t, Parent(p).value) else t, p)
  }

  // ---------------------------------------------------------------- nothing is lost

  ghost predicate Keeps(t: Tree, u: Tree) {
    WellFormed(u) && forall x | x in t :: x in u && u[x] == t[x]
  }

  lemma {:induction false} CreateDirAllKeeps(t: Tree, p: seq<Comp>)
    requires WellFormed(t)
    ensures Keeps(t, CreateDirAll(t, p))
    decreases |p|
  {
    hide Spot, IsDirAt;
    if !IsDirAt(t, p) && Parent(p).Some? {
      CreateDirAllKeeps(t, Parent(p).value);
      MkdirKeepsTree(CreateDirAll(t, Parent(p).value), p);
    }
  }

  lemma CreateEntryKeeps(t: Tree, p: seq<Comp>, isDir: bool)
    requires WellFormed(t)
    ensures Keeps(t, CreateEntry(t, p, isDir))
  {
    hide CreateDirAll, CreateSpot, Exists;
    CreateDirAllKeeps(t, p);
    if Parent(p).Some? {
      CreateDirAllKeeps(t, Parent(p).value);
    }
    var u := if Parent(p).Some? then CreateDirAll(t, Parent(p).value) else t;
    TouchKeepsTree(u, p);
    CreateSpotIsFree(u, [], p, LINK_BUDGET);
  }

  // ---------------------------------------------------------------- without links on the way

  lemma ParentOfNames(q: Path)
    ensures TrimEmpty(Names(q)) == TrimHere(Names(q)) == Names(q)
    ensures Parent(Names(q)) == if q == [] then None else Some(Names(ParentOf(q)))
  {
    if q != [] {
      assert Names(q)[..|q| - 1] == Names(ParentOf(q));
    }
  }

  /** All nodes of `u` that are not in `t` are directories on the way to `q`, or at it. */
  ghost predicate MadeOnWay(t: Tree, u: Tree, q: Path) {
    forall x | x in u && x !in t :: x <= q && u[x].Dir?
  }

  lemma MadeKeepsNoLinks(t: Tree, u: Tree, up: Path, q: Path)
    requires Keeps(t, u) && MadeOnWay(t, u, up) && NoLinks(t, q)
    ensures NoLinks(u, q)
  {
  }

  lemma {:induction false} CreateDirAllStraight(t: Tree, q: Path)
    requires WellFormed(t) && NoLinks(t, q)
    ensures MadeOnWay(t, CreateDirAll(t, Names(q)), q)
    ensures IsDir(CreateDirAll(t, Names(q)), q) <==> NothingInTheWay(t, q)
    decreases |q|
  {
    hide Resolve, Walk, Spot, NoLinks, NothingInTheWay, CreateDirAll;
    var u := CreateDirAll(t, Names(q));
    ParentOfNames(q);
    NoLinksAbove(t, q);
    ResolveLinkFree(t, q);
    CreateDirAllUnfold(t, q);
    if IsDir(t, q) {
      DirsAreNotInTheWay(t, q);
    } else if q != [] {
      var up := ParentOf(q);
      var v := CreateDirAll(t, Names(up));
      CreateDirAllKeeps(t, Names(up));
      CreateDirAllStraight(t, up);
      MadeKeepsNoLinks(t, v, up, q);
      NoLinksAbove(v, q);
      SpotLinkFree(v, q);
      WayAndParent(t, q);
      assert up <= q;
    }
  }

  lemma CreateDirAllUnfold(t: Tree, q: Path)
    requires Resolve(t, Names(q)) == if q in t then Some(q) else None
    ensures CreateDirAll(t, Names(q)) ==
              if IsDir(t, q) || q == [] then t else Mkdir(CreateDirAll(t, Names(ParentOf(q))), Names(q))
  {
    ParentOfNames(q);
  }

  lemma WayAndParent(t: Tree, q: Path)
    requires q != []
    ensures NothingInTheWay(t, q) <==> NothingInTheWay(t, ParentOf(q)) && (q in t ==> IsDir(t, q))
  {
    assert q[..|q|] == q;
    assert forall i | 0 <= i <= |ParentOf(q)| :: ParentOf(q)[..i] == q[..i];
  }

  // ---------------------------------------------------------------- where an entry is created

  /** All new nodes are `q` and directories on the way to it. */
  ghost predicate CreatedAt(t: Tree, u: Tree, q: Path, isDir: bool) {
    forall x | x in u && x !in t :: x <= q && u[x] == if x == q && !isDir then File("") else Dir
  }

  lemma TouchStraight(t: Tree, q: Path)
    requires WellFormed(t) && NoLinks(t, q) && q != [] && q !in t
    ensures Touch(t, Names(q)) == if IsDir(t, ParentOf(q)) then t[q := File("")] else t
  {
    hide Track, Spells, NamesIn, CreateSpot;
    var up := ParentOf(q);
    SpellsNames(q);
    assert q[..0] == [] && q[0..] == q;
    CreateSpotIsFree(t, [], Names(q), LINK_BUDGET);
    if IsDir(t, up) {
      TouchCreates(t, q, Names(q));
    } else {
      NoLinksTrack(t, q);
      CreateOnTrack(t, q, 0, Names(q), LINK_BUDGET);
    }
  }

  lemma NoLinksTrack(t: Tree, q: Path)
    requires NoLinks(t, q)
    ensures Track(t, q, q)
  {
  }

  lemma CreateEntryStraight(t: Tree, q: Path, isDir: bool)
    requires WellFormed(t) && NoLinks(t, q)
    ensures CreatedAt(t, CreateEntry(t, Names(q), isDir), q, isDir)
    ensures q in CreateEntry(t, Names(q), isDir) <==> q in t || NothingInTheWay(t, q)
  {
    hide Resolve, Walk, NoLinks, NothingInTheWay, CreateDirAll, CreateSpot, Touch;
    ParentOfNames(q);
    NoLinksAbove(t, q);
    ResolveLinkFree(t, q);
    CreateDirAllStraight(t, q);
    if q !in t {
      var up := ParentOf(q);
      var v := CreateDirAll(t, Names(up));
      CreateDirAllKeeps(t, Names(up));
      CreateDirAllStraight(t, up);
      MadeKeepsNoLinks(t, v, up, q);
      TouchStraight(v, q);
      WayAndParent(t, q);
      assert up < q;
      NodeBelowWay(t, CreateDirAll(t, Names(q)), q);
    }
  }

  lemma NodeBelowWay(t: Tree, u: Tree, q: Path)
    requires MadeOnWay(t, u, q) && q !in t
    ensures q in u <==> IsDir(u, q)
  {
  }

  /** Below a link nothing can come to lie, and all that lies above it is there. */
  lemma NothingNewOnWay(t: Tree, u: Tree, q: Path)
    requires WellFormed(t) && Keeps(t, u) && !NoLinks(t, q)
    ensures forall x | x in u && x !in t :: !(x <= q)
  {
    var i :| 0 <= i <= |q| && IsLink(t, q[..i]);
    var link := q[..i];
    forall x | x in u && x !in t ensures !(x <= q) {
      if x <= q && |x| < i {
        AncestorsAreDirs(t, link, x);
      } else if x <= q && |x| > i {
        assert link < x;
        AncestorsAreDirs(u, x, link);
      } else if |x| == i {
        assert x <= q <==> x == link;
      }
    }
  }

  /**
   Creation at a path keeps every node there was. Without links on the way, all that is new
   is the path itself and directories on the way to it, and the path is there afterwards
   exactly if no file was in the way. With a link on the way nothing new lies on it: what is
   created, if anything, lies elsewhere.
   */
  lemma CreatedWhereGranted(t: Tree, q: Path, isDir: bool)
    requires WellFormed(t)
    ensures var u := CreateEntry(t, Names(q), isDir);
            && Keeps(t, u)
            && (u == t || (CreatedAt(t, u, q, isDir) <==> NoLinks(t, q)))
            && (NoLinks(t, q) ==> CreatedAt(t, u, q, isDir) && (q in u <==> q in t || NothingInTheWay(t, q)))
            && (!NoLinks(t, q) ==> forall x | x in u && x !in t :: !(x <= q))
  {
    hide CreateEntry, NoLinks, NothingInTheWay, WellFormed;
    var u := CreateEntry(t, Names(q), isDir);
    CreateEntryKeeps(t, Names(q), isDir);
    if NoLinks(t, q) {
      CreateEntryStraight(t, q, isDir);
    } else {
      NothingNewOnWay(t, u, q);
      NothingNew(t, u);
    }
  }

  lemma NothingNew(t: Tree, u: Tree)
    requires forall x | x in t :: x in u && u[x] == t[x]
    ensures u == t <==> forall x | x in u :: x in t
  {
    if forall x | x in u :: x in t {
      assert u.Keys == t.Keys;
    }
  }

  /**
   For a granted request: without links on the way all that is created lies in the site
   root. When the directory of the request exists, the only such link is one at the granted
   path itself.
   */
  lemma GrantedCreation(t: Tree, domain: string, relative: string, isDir: bool)
    requires WellFormed(t) && Judge(t, Base(domain), Candidate(domain, relative)).Granted?
    ensures var root, q := Resolve(t, Base(domain)).value, Judge(t, Base(domain), Candidate(domain, relative)).path;
            var u, parent := CreateEntry(t, Names(q), isDir), Parent(Candidate(domain, relative));
            && (NoLinks(t, q) ==> forall x | x in u && x !in t :: root < x <= q)
            && (Exists(t, Candidate(domain, relative)) ==> NoLinks(t, q) && u == t)
            && (parent.Some? && Exists(t, parent.value) ==> (NoLinks(t, q) <==> !IsLink(t, q)))
  {
    hide CreateEntry, Components, StripSlashes, Base, WellFormed, NoLinks, Resolve, Walk;
    var root, p := Resolve(t, Base(domain)).value, Candidate(domain, relative);
    var q := Judge(t, Base(domain), p).path;
    CreatedWhereGranted(t, q, isDir);
    RootAndAbove(t, Base(domain));
    LocatedUnfold(t, p);
    if Exists(t, p) {
      ResolvedHasNoLinks(t, p);
      NoLinksAbove(t, q);
      ExistingIsRefused(t, q, isDir);
    } else if Exists(t, Parent(p).value) {
      ResolvedHasNoLinks(t, Parent(p).value);
      LastOfWay(t, Resolve(t, Parent(p).value).value, FileName(p).value);
    }
  }

  lemma RootAndAbove(t: Tree, base: seq<Comp>)
    requires WellFormed(t) && Exists(t, base)
    ensures forall x | x <= Resolve(t, base).value :: x in t
  {
    var root := Resolve(t, base).value;
    WalkEndsAtNode(t, [], base, LINK_BUDGET);
    forall x | x <= root ensures x in t {
      if x < root {
        AncestorsAreDirs(t, root, x);
      } else {
        assert x == root;
      }
    }
  }

  lemma LocatedUnfold(t: Tree, p: seq<Comp>)
    requires Locate(t, p).Some?
    ensures Exists(t, p) ==> Locate(t, p) == Resolve(t, p)
    ensures !Exists(t, p) ==> Parent(p).Some? && FileName(p).Some?
    ensures !Exists(t, p) && Exists(t, Parent(p).value) ==>
              Locate(t, p).value == Resolve(t, Parent(p).value).value + [FileName(p).value]
  {
  }

  lemma ResolvedHasNoLinks(t: Tree, p: seq<Comp>)
    requires WellFormed(t) && Exists(t, p)
    ensures NoLinks(t, Resolve(t, p).value) && Resolve(t, p).value in t
  {
    var q := Resolve(t, p).value;
    WalkEndsAtNode(t, [], p, LINK_BUDGET);
    forall i | 0 <= i <= |q| ensures !IsLink(t, q[..i]) {
      PrefixPresent(t, q, i);
      assert q[..|q|] == q;
    }
  }

  lemma ExistingIsRefused(t: Tree, q: Path, isDir: bool)
    requires WellFormed(t) && NoLinks(t, q) && q in t
    ensures CreateEntry(t, Names(q), isDir) == t
  {
    NoLinksAbove(t, q);
    ResolveLinkFree(t, q);
  }

  lemma LastOfWay(t: Tree, up: Path, n: string)
    requires NoLinks(t, up)
    ensures NoLinks(t, up + [n]) <==> !IsLink(t, up + [n])
  {
    var q := up + [n];
    assert q[..|q|] == q;
    assert forall i | 0 <= i <= |up| :: q[..i] == up[..i];
  }

  // ---------------------------------------------------------------- a link at the path

  lemma SpotOfLink(t: Tree, q: Path)
    requires WellFormed(t) && IsLink(t, q)
    ensures q != [] && IsDir(t, ParentOf(q)) && Spot(t, Names(q)) == Some(q)
    ensures Resolve(t, Names(ParentOf(q))) == Some(ParentOf(q))
  {
    DirsAreLinkFree(t, q);
    SpotLinkFree(t, q);
    PhysicalResolves(t, ParentOf(q));
  }

  lemma NoDirsForLink(t: Tree, q: Path)
    requires WellFormed(t) && IsLink(t, q) && !Exists(t, Names(q))
    ensures CreateDirAll(t, Names(q)) == t && CreateDirAll(t, Names(ParentOf(q))) == t
  {
    hide Resolve, Spot;
    SpotOfLink(t, q);
    ParentOfNames(q);
    assert IsDirAt(t, Names(ParentOf(q)));
    assert Mkdir(t, Names(q)) == t;
  }

  /** A dangling link at the path is written through: the file comes to lie where it leads, or nowhere. */
  lemma LinkWrittenThrough(t: Tree, q: Path)
    requires WellFormed(t) && IsLink(t, q) && !Exists(t, Names(q))
    ensures CreateEntry(t, Names(q), true) == t
    ensures var s := CreateSpot(t, [], Names(q), LINK_BUDGET);
            && CreateEntry(t, Names(q), false) == (if s.Some? then t[s.value := File("")] else t)
            && (s.Some? ==> !(s.value <= q))
  {
    hide Resolve, Walk, CreateSpot, CreateDirAll, Exists;
    NoDirsForLink(t, q);
    ParentOfNames(q);
    CreateSpotIsFree(t, [], Names(q), LINK_BUDGET);
    forall x | x <= q ensures x in t {
      if x < q {
        AncestorsAreDirs(t, q, x);
      } else {
        assert x == q;
      }
    }
  }

  lemma RelativeLinkStep(t: Tree, up: Path, n: string, other: string, links: nat)
    requires IsDir(t, up) && up + [n] in t && t[up + [n]] == Link(false, [Name(other)])
    requires up + [other] !in t && links > 0
    ensures CreateSpot(t, up, [Name(n)], links) == Some(up + [other])
  {
    hide CreateSpot;
    var target := [Name(other)];
    CreateName(t, up, [Name(n)], links);
    assert target + [Name(n)][1..] == target;
    CreateName(t, up, target, links - 1);
  }

  /** A link to another name in its own directory, which is missing: that name is created. */
  lemma {:induction false} LinkedNameCreated(t: Tree, up: Path, n: string, other: string, k: nat, links: nat)
    requires WellFormed(t) && IsDir(t, up) && up + [n] in t && t[up + [n]] == Link(false, [Name(other)])
    requires up + [other] !in t && k <= |up| && links > 0
    ensures CreateSpot(t, up[..k], Names(up[k..]) + [Name(n)], links) == Some(up + [other])
    decreases |up| - k
  {
    hide *;
    if k == |up| {
      NoNames(up, n);
      RelativeLinkStep(t, up, n, other, links);
    } else {
      DirOnWay(t, up, k);
      DirOnWay(t, up, k + 1);
      NamesStep(up, k, n);
      CreateName(t, up[..k], Names(up[k..]) + [Name(n)], links);
      LinkedNameCreated(t, up, n, other, k + 1, links);
    }
  }

  lemma DirOnWay(t: Tree, up: Path, k: nat)
    requires WellFormed(t) && IsDir(t, up) && k <= |up|
    ensures up[..k] in t && IsDir(t, up[..k]) && !IsLink(t, up[..k])
  {
    PrefixPresent(t, up, k);
    assert up[..|up|] == up;
  }

  lemma NoNames(up: Path, n: string)
    ensures up[..|up|] == up && Names(up[|up|..]) + [Name(n)] == [Name(n)]
  {
  }

  lemma NamesStep(up: Path, k: nat, n: string)
    requires k < |up|
    ensures var rest := Names(up[k..]) + [Name(n)];
            && rest[0] == Name(up[k]) && |rest| > 1
            && rest[1..] == Names(up[k + 1..]) + [Name(n)]
            && up[..k] + [rest[0].name] == up[..k + 1]
  {
  }
}
