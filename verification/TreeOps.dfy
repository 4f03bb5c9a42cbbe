/**
 The filesystem calls of the agent as functions on trees: one function for each call that
 changes one node, plus the tree-wide moves. A call that cannot succeed leaves the tree
 as it is, which is what the agent's ignored results (`.ok()`, `let _ =`) amount to.
 */
module TreeOps {
  import opened Wrappers
  import opened FileSystem
  import opened PathTracks

  // ---------------------------------------------------------------- questions

  /** `Path::is_symlink`; a trailing slash makes the call look through the link. */
  predicate IsSymlink(t: Tree, p: seq<Comp>) {
    Spot(t, p).Some? && IsLink(t, Spot(t, p).value)
  }

  /** `Path::is_dir`. */
  predicate IsDirAt(t: Tree, p: seq<Comp>) {
    Exists(t, p) && IsDir(t, Resolve(t, p).value)
  }

  function Subtree(t: Tree, root: Path): set<Path> {
    set p | p in t && root <= p
  }

  /** Directory with no entry, file of length 0, or nothing to be found. */
  predicate EmptyAt(t: Tree, p: seq<Comp>) {
    var r := Resolve(t, p);
    r.None? || Subtree(t, r.value) == {} || (r.value in t && EmptyNode(t, r.value))
  }

  predicate EmptyNode(t: Tree, p: Path)
    requires p in t
  {
    match t[p]
    case Dir => Subtree(t, p) == {p}
    case File(content) => content == ""
    case Link(_, _) => false
  }

  // ---------------------------------------------------------------- single-node calls

  /** `mkdir`; a trailing slash does not matter to it, but a trailing "." does. */
  function Mkdir(t: Tree, p: seq<Comp>): Tree {
    var s := Spot(t, TrimEmpty(p));
    if s.Some? && s.value !in t then t[s.value := Dir] else t
  }

  /** Where `open` with O_CREAT would create a missing file: dangling links are followed. */
  function CreateSpot(t: Tree, cur: Path, rest: seq<Comp>, links: nat): Option<Path>
    decreases links, |rest|
  {
    if rest == [] || !IsDir(t, cur) then None
    else match rest[0]
      case Here(_) => CreateSpot(t, cur, rest[1..], links)
      case Up => CreateSpot(t, ParentOf(cur), rest[1..], links)
      case Name(n) =>
        var next := cur + [n];
        if next !in t then if |rest| == 1 then Some(next) else None
        else if t[next].Link? then
          if links == 0 then None
          else CreateSpot(t, if t[next].absolute then [] else cur, t[next].target + rest[1..], links - 1)
        else CreateSpot(t, next, rest[1..], links)
  }

  /** `fs::write(p, "")` on a path that does not exist. */
  function Touch(t: Tree, p: seq<Comp>): Tree {
    var s := CreateSpot(t, [], p, LINK_BUDGET);
    if s.Some? then t[s.value := File("")] else t
  }

  /** `symlink`: fails when anything is there already, and on a trailing slash. */
  function Symlink(t: Tree, link: Node, p: seq<Comp>): Tree {
    var s := Spot(t, p);
    if s.Some? && s.value !in t then t[s.value := link] else t
  }

  /** `remove_file`. */
  function RemoveFile(t: Tree, p: seq<Comp>): Tree {
    var s := Spot(t, p);
    if s.Some? && s.value in t && !t[s.value].Dir? then t - {s.value} else t
  }

  /**
   What `remove_dir_all` works on: the entry itself, links not followed; behind a trailing
   slash, the directory found there.
   */
  function RemovalRoot(t: Tree, p: seq<Comp>): Option<Path> {
    if EndsHere(p) then Resolve(t, p) else Spot(t, p)
  }

  /** Its final rmdir fails on a path that ends in "." and on a link with a trailing slash: only the contents go. */
  predicate RootStays(t: Tree, p: seq<Comp>) {
    EndsHere(p) && (Spot(t, TrimEmpty(p)).None? || IsLink(t, Spot(t, TrimEmpty(p)).value))
  }

  // ---------------------------------------------------------------- whole subtrees

  /** `t` with `branch` planted at `at`, in place of whatever was there. */
  function Plant(t: Tree, at: Path, branch: Tree): Tree {
    (t - Subtree(t, at)) + (map p | p in Shift(at, branch.Keys) :: branch[p[|at|..]])
  }

  function Shift(at: Path, keys: set<Path>): (r: set<Path>)
    ensures forall p :: p in r <==> at <= p && p[|at|..] in keys
  {
    var r := set k | k in keys :: at + k;
    assert forall p | at <= p && p[|at|..] in keys :: p in r by {
      forall p | at <= p && p[|at|..] in keys ensures p in r {
        assert p == at + p[|at|..];
      }
    }
    r
  }

  function ShiftDown(root: Path, keys: set<Path>): (r: set<Path>)
    ensures forall k :: k in r <==> root + k in keys
  {
    var r := set p | p in keys && root <= p :: p[|root|..];
    assert forall k | root + k in keys :: k in r by {
      forall k | root + k in keys ensures k in r {
        assert (root + k)[|root|..] == k;
      }
    }
    assert forall k | k in r :: root + k in keys by {
      forall k | k in r ensures root + k in keys {
        var p :| p in keys && root <= p && p[|root|..] == k;
        assert root + k == p;
      }
    }
    r
  }

  /** Everything at and below `root`, as a tree of its own. */
  function Branch(t: Tree, root: Path): Tree {
    map k | k in ShiftDown(root, t.Keys) :: t[root + k]
  }

  /** `cp -a` of the node at `from` to `to`. */
  function CopyNode(t: Tree, from: Path, to: Path): Tree
    requires from in t
  {
    if t[from].Dir? then Plant(t, to, Branch(t, from)) else t[to := t[from]]
  }

  /**
   Where `cp -a src dst` writes: into a directory, over a file, or to a new name. The
   contents of a source that ends in "." go straight into the directory.
   */
  function CopyTarget(t: Tree, from: Path, src: seq<Comp>, dst: seq<Comp>): Option<Path>
    requires from in t
  {
    var to := Resolve(t, dst);
    if FileName(src).None? then None
    else if to.None? then
      var free := Spot(t, if t[from].Dir? then TrimEmpty(dst) else dst);
      if free.Some? && free.value !in t && !(from <= free.value) then free else None
    else if IsDir(t, to.value) && Dotted(src) then
      if t[from].Dir? && EmptyNode(t, to.value) && to.value != [] && !(from <= to.value) then to else None
    else if IsDir(t, to.value) then
      var inside := to.value + [FileName(src).value];
      if inside !in t && !(from <= inside) then Some(inside) else None
    else if to.value in t && t[to.value].File? && t[from].File? then to
    else None
  }

  /** `cp -a src dst`. */
  function Copy(t: Tree, src: seq<Comp>, dst: seq<Comp>): Tree {
    var from := RemovalRoot(t, src);
    if from.None? || from.value !in t then t
    else
      var to := CopyTarget(t, from.value, src, dst);
      if to.None? then t else CopyNode(t, from.value, to.value)
  }

  // ---------------------------------------------------------------- trees stay trees

  lemma AddNode(t: Tree, p: Path, node: Node)
    requires WellFormed(t) && p !in t && p != [] && IsDir(t, ParentOf(p))
    ensures WellFormed(t[p := node])
  {
  }

  lemma RemoveNode(t: Tree, p: Path)
    requires WellFormed(t) && p != [] && forall q | q in t :: !(p < q)
    ensures WellFormed(t - {p})
  {
    forall q | q in t - {p} && q != [] ensures IsDir(t - {p}, ParentOf(q)) {
      assert ParentOf(q) < q;
    }
  }

  lemma NothingBelowNonDir(t: Tree, p: Path)
    requires WellFormed(t) && p in t && !t[p].Dir?
    ensures forall q | q in t :: !(p < q)
  {
    forall q | q in t && p < q ensures false {
      AncestorsAreDirs(t, q, p);
    }
  }

  lemma CreateSpotIsFree(t: Tree, cur: Path, rest: seq<Comp>, links: nat)
    ensures var s := CreateSpot(t, cur, rest, links);
            s.Some? ==> s.value !in t && s.value != [] && IsDir(t, ParentOf(s.value))
    decreases links, |rest|
  {
  }

  lemma MkdirKeepsTree(t: Tree, p: seq<Comp>)
    requires WellFormed(t)
    ensures WellFormed(Mkdir(t, p))
  {
    var s := Spot(t, TrimEmpty(p));
    if s.Some? && s.value !in t {
      AddNode(t, s.value, Dir);
    }
  }

  lemma TouchKeepsTree(t: Tree, p: seq<Comp>)
    requires WellFormed(t)
    ensures WellFormed(Touch(t, p))
  {
    var s := CreateSpot(t, [], p, LINK_BUDGET);
    CreateSpotIsFree(t, [], p, LINK_BUDGET);
    if s.Some? {
      AddNode(t, s.value, File(""));
    }
  }

  lemma SymlinkKeepsTree(t: Tree, link: Node, p: seq<Comp>)
    requires WellFormed(t)
    ensures WellFormed(Symlink(t, link, p))
  {
    var s := Spot(t, p);
    if s.Some? && s.value !in t {
      AddNode(t, s.value, link);
    }
  }

  lemma RemoveFileKeepsTree(t: Tree, p: seq<Comp>)
    requires WellFormed(t)
    ensures WellFormed(RemoveFile(t, p))
  {
    var s := Spot(t, p);
    if s.Some? && s.value in t && !t[s.value].Dir? {
      NothingBelowNonDir(t, s.value);
      RemoveNode(t, s.value);
    }
  }

  lemma PlantedNodes(t: Tree, at: Path, branch: Tree)
    ensures forall p | !(at <= p) :: p in Plant(t, at, branch) <==> p in t
    ensures forall p | p in t && !(at <= p) :: Plant(t, at, branch)[p] == t[p]
    ensures forall p | at <= p :: p in Plant(t, at, branch) <==> p[|at|..] in branch
    ensures forall p | at <= p && p[|at|..] in branch :: Plant(t, at, branch)[p] == branch[p[|at|..]]
  {
  }

  lemma PlantKeepsTree(t: Tree, at: Path, branch: Tree)
    requires WellFormed(t) && WellFormed(branch) && at != [] && IsDir(t, ParentOf(at))
    ensures WellFormed(Plant(t, at, branch))
    ensures forall p | !(at <= p) :: p in Plant(t, at, branch) <==> p in t
    ensures forall p | p in t && !(at <= p) :: Plant(t, at, branch)[p] == t[p]
    ensures forall p | at <= p :: p in Plant(t, at, branch) <==> p[|at|..] in branch
    ensures forall p | at <= p && p[|at|..] in branch :: Plant(t, at, branch)[p] == branch[p[|at|..]]
    ensures IsDir(Plant(t, at, branch), at)
  {
    hide Plant;
    PlantedNodes(t, at, branch);
    var u := Plant(t, at, branch);
    assert at[|at|..] == [];
    forall p | p in u && p != [] ensures IsDir(u, ParentOf(p)) {
      if at <= p && p != at {
        assert ParentOf(p)[|at|..] == ParentOf(p[|at|..]);
      }
    }
  }

  lemma PlantContents(t: Tree, at: Path, branch: Tree)
    requires WellFormed(t) && WellFormed(branch) && at != [] && IsDir(t, ParentOf(at))
    ensures forall k :: at + k in Plant(t, at, branch) <==> k in branch
    ensures forall k | k in branch :: Plant(t, at, branch)[at + k] == branch[k]
  {
    PlantKeepsTree(t, at, branch);
    assert forall k: Path :: (at + k)[|at|..] == k;
  }

  // ---------------------------------------------------------------- leaves

  predicate IsLeaf(t: Tree, p: Path) {
    p in t && forall q | q in t :: !(p < q)
  }

  lemma {:induction false} LongestMember(s: set<Path>) returns (p: Path)
    requires s != {}
    ensures p in s && forall q | q in s :: |q| <= |p|
  {
    var x :| x in s;
    if s == {x} {
      p := x;
    } else {
      var y := LongestMember(s - {x});
      p := if |x| > |y| then x else y;
    }
  }

  /** What goes in a removal: everything at and below the root, or below it only. */
  function Goner(t: Tree, root: Path, rootStays: bool): set<Path> {
    if rootStays then Subtree(t, root) - {root} else Subtree(t, root)
  }

  /** As long as there is something to remove, some node of it has nothing below it. */
  lemma LeafExists(t: Tree, root: Path, rootStays: bool) returns (p: Path)
    requires Goner(t, root, rootStays) != {}
    ensures p in Goner(t, root, rootStays) && IsLeaf(t, p)
  {
    p := LongestMember(Goner(t, root, rootStays));
    assert forall q | q in t && p < q :: q in Goner(t, root, rootStays);
  }

  lemma CreateHere(t: Tree, cur: Path, rest: seq<Comp>, links: nat)
    requires rest != [] && rest[0].Here?
    ensures CreateSpot(t, cur, rest, links) == if IsDir(t, cur) then CreateSpot(t, cur, rest[1..], links) else None
  {
  }

  lemma CreateName(t: Tree, cur: Path, rest: seq<Comp>, links: nat)
    requires rest != [] && rest[0].Name?
    ensures var next := cur + [rest[0].name];
            CreateSpot(t, cur, rest, links) ==
              if !IsDir(t, cur) then None
              else if next !in t then if |rest| == 1 then Some(next) else None
              else if !IsLink(t, next) then CreateSpot(t, next, rest[1..], links)
              else if links == 0 then None
              else CreateSpot(t, if t[next].absolute then [] else cur, t[next].target + rest[1..], links - 1)
  {
  }

  /** Where all links lead to themselves, a missing file is created where its path says, or not at all. */
  lemma {:induction false} CreateOnTrack(t: Tree, q: Path, k: nat, rest: seq<Comp>, links: nat)
    requires WellFormed(t) && Track(t, q, q) && k <= |q| && Spells(rest, q[k..]) && !IsLink(t, q[..k])
    ensures CreateSpot(t, q[..k], rest, links) in {None, Some(q)}
    decreases links, |rest|
  {
    hide CreateSpot, WellFormed, Track, Spells, NamesIn, TrackEnd;
    if rest == [] {
      CreateNothing(t, q[..k], links);
    } else {
      SpellsStep(rest, q[k..]);
      if rest[0].Here? {
        CreateHere(t, q[..k], rest, links);
        CreateOnTrack(t, q, k, rest[1..], links);
      } else {
        assert q[..k] + [rest[0].name] == q[..k + 1] && q[k..][1..] == q[k + 1..];
        CreateName(t, q[..k], rest, links);
        if |rest| == 1 {
          SpelledOut(rest[1..], q, k + 1);
        }
        if IsLink(t, q[..k + 1]) && links > 0 {
          assert q[k + 1..|q|] == q[k + 1..] && q[0..|q|] == q[0..];
          TrackTurn(t, q, q, k + 1, |q|, rest[1..]);
          CreateOnTrack(t, q, 0, t[q[..k + 1]].target + rest[1..], links - 1);
        } else if q[..k + 1] in t && !IsLink(t, q[..k + 1]) {
          CreateOnTrack(t, q, k + 1, rest[1..], links);
        }
      }
    }
  }

  lemma CreateNothing(t: Tree, cur: Path, links: nat)
    ensures CreateSpot(t, cur, [], links).None?
  {
  }

  lemma SpelledOut(rest: seq<Comp>, q: Path, k: nat)
    requires k <= |q| && Spells(rest, q[k..]) && rest == []
    ensures q[..k] == q
  {
    assert |q[k..]| == 0;
  }

  /** In an existing directory a missing file is created. */
  lemma {:induction false} CreateInDir(t: Tree, q: Path, k: nat, rest: seq<Comp>, links: nat)
    requires WellFormed(t) && k < |q| && IsDir(t, ParentOf(q)) && q !in t
    requires Spells(rest, q[k..]) && !EndsHere(rest)
    ensures CreateSpot(t, q[..k], rest, links) == Some(q)
    decreases |rest|
  {
    hide *;
    if rest == [] {
      SpelledOut(rest, q, k);
    }
    DirsUpTo(t, q, k);
    SpellsStep(rest, q[k..]);
    if rest[0].Here? {
      CreateHere(t, q[..k], rest, links);
      MoreToCome(rest, q[k..]);
      CreateInDir(t, q, k, rest[1..], links);
    } else {
      assert q[..k] + [rest[0].name] == q[..k + 1] && q[k..][1..] == q[k + 1..];
      CreateName(t, q[..k], rest, links);
      if k + 1 < |q| {
        DirsUpTo(t, q, k + 1);
        MoreToCome(rest, q[k..]);
        CreateInDir(t, q, k + 1, rest[1..], links);
      } else {
        LastOfAll(rest, q[k..]);
        assert q[..k + 1] == q;
      }
    }
  }

  lemma DirsUpTo(t: Tree, q: Path, k: nat)
    requires WellFormed(t) && k < |q| && IsDir(t, ParentOf(q))
    ensures IsDir(t, q[..k]) && q[..k] in t && !IsLink(t, q[..k])
  {
    hide WellFormed;
    var up := ParentOf(q);
    assert up[..k] == q[..k] && up[..|up|] == up;
    PrefixPresent(t, up, k);
  }

  lemma MoreToCome(rest: seq<Comp>, q: Path)
    requires Spells(rest, q) && rest != [] && !EndsHere(rest) && (rest[0].Here? || |q| > 1)
    ensures rest[1..] != [] && !EndsHere(rest[1..])
  {
    SpellsStep(rest, q);
  }

  lemma LastOfAll(rest: seq<Comp>, q: Path)
    requires Spells(rest, q) && |q| == 1 && rest != [] && rest[0].Name? && !EndsHere(rest)
    ensures |rest| == 1
  {
    if |rest| > 1 {
      assert Spells(rest[1..], []);
      SpellsNothing(rest[1..]);
    }
  }

  lemma TouchOnTrack(t: Tree, q: Path, p: seq<Comp>)
    requires WellFormed(t) && Track(t, q, q) && Spells(p, q)
    ensures Touch(t, p) == t || (q !in t && q != [] && IsDir(t, ParentOf(q)) && Touch(t, p) == t[q := File("")])
  {
    assert q[..0] == [] && q[0..] == q;
    CreateOnTrack(t, q, 0, p, LINK_BUDGET);
    CreateSpotIsFree(t, [], p, LINK_BUDGET);
  }

  lemma TouchCreates(t: Tree, q: Path, p: seq<Comp>)
    requires WellFormed(t) && q != [] && IsDir(t, ParentOf(q)) && q !in t && Spells(p, q) && !EndsHere(p)
    ensures Touch(t, p) == t[q := File("")]
  {
    assert q[..0] == [] && q[0..] == q;
    CreateInDir(t, q, 0, p, LINK_BUDGET);
  }

  lemma BranchIsTree(t: Tree, root: Path)
    requires WellFormed(t) && IsDir(t, root)
    ensures WellFormed(Branch(t, root))
  {
    var b := Branch(t, root);
    assert root + [] == root;
    forall k | k in b && k != [] ensures IsDir(b, ParentOf(k)) {
      assert root + ParentOf(k) == ParentOf(root + k);
    }
  }

  /** The nodes at and below `root` are new, one empty file at `root` may have been filled; nothing else happened. */
  ghost predicate Filled(t: Tree, u: Tree, root: Path) {
    && (forall p | p in t :: p in u && (u[p] == t[p] || (p == root && t[p] == File("") && u[p].File?)))
    && (forall p | p in u && p !in t :: root <= p)
    && (root !in t ==> !IsLink(u, root))
  }

  lemma NothingBelowMissing(t: Tree, to: Path)
    requires WellFormed(t) && to !in t
    ensures forall p | p in t :: !(to <= p)
  {
    forall p | p in t ensures !(to <= p) {
      if to <= p {
        assert to != p;
        AncestorsAreDirs(t, p, to);
      }
    }
  }

  /** Nothing is at `to`, or an empty directory. */
  ghost predicate Vacant(t: Tree, to: Path) {
    forall p | p in t && to <= p :: p == to && t[p].Dir?
  }

  lemma EmptyIsVacant(t: Tree, to: Path)
    requires WellFormed(t) && (to in t ==> t[to].Dir? && EmptyNode(t, to))
    ensures Vacant(t, to)
  {
    if to !in t {
      NothingBelowMissing(t, to);
    }
    assert forall p | p in t && to <= p :: p in Subtree(t, to);
  }

  lemma PlantFills(t: Tree, to: Path, branch: Tree, root: Path)
    requires WellFormed(t) && WellFormed(branch)
    requires Vacant(t, to) && to != [] && IsDir(t, ParentOf(to)) && root <= to
    ensures WellFormed(Plant(t, to, branch)) && Filled(t, Plant(t, to, branch), root)
  {
    PlantKeepsTree(t, to, branch);
    assert forall p | p in t :: p in Plant(t, to, branch);
    if root !in t {
      assert root != to ==> root <= ParentOf(to);
      NothingBelowMissing(t, root);
    }
  }

  lemma CopyNodeFills(t: Tree, from: Path, to: Path, root: Path)
    requires WellFormed(t) && from in t && !t[from].Link? && (to in t ==> t[from].Dir?)
    requires Vacant(t, to) && to != [] && IsDir(t, ParentOf(to)) && root <= to
    ensures WellFormed(CopyNode(t, from, to)) && Filled(t, CopyNode(t, from, to), root)
  {
    if t[from].Dir? {
      BranchIsTree(t, from);
      PlantFills(t, to, Branch(t, from), root);
    } else {
      AddNode(t, to, t[from]);
      if root !in t {
        assert root != to ==> root <= ParentOf(to);
        NothingBelowMissing(t, root);
      }
    }
  }

  /** What is found along a track that only leads to itself is the place itself. */
  lemma FoundOnTrack(t: Tree, q: Path, p: seq<Comp>)
    requires WellFormed(t) && Track(t, q, q) && Spells(p, q)
    ensures Resolve(t, p).Some? ==> Resolve(t, p).value == q && q in t && !t[q].Link?
  {
    TrackResolve(t, q, q, p);
    WalkEndsAtNode(t, [], p, LINK_BUDGET);
  }

  lemma FreeOnTrack(t: Tree, q: Path, p: seq<Comp>)
    requires WellFormed(t) && q != [] && Track(t, q, q) && Spells(p, q)
    ensures Spot(t, p) in {None, Some(q)}
  {
    if p != [] && !EndsHere(p) {
      TrackParent(t, q, q);
      TrackSpot(t, q, q, p);
    }
  }

  lemma {:induction false} SpellsWithoutEmpty(p: seq<Comp>, q: Path)
    requires Spells(p, q)
    ensures Spells(TrimEmpty(p), q)
  {
    if p != [] && p[|p| - 1] == Here(false) {
      NamesInConcat(p[..|p| - 1], [p[|p| - 1]]);
      assert p[..|p| - 1] + [p[|p| - 1]] == p;
      SpellsWithoutEmpty(p[..|p| - 1], q);
    }
  }

  /** The kinds of places `cp -a` may write to at a spelled destination. */
  lemma CopyTargets(t: Tree, from: Path, src: seq<Comp>, q: Path, dst: seq<Comp>)
    requires WellFormed(t) && from in t && q != [] && Track(t, q, q) && Spells(dst, q)
    ensures var to := CopyTarget(t, from, src, dst);
            to.Some? ==>
              || (to.value == q && q !in t && IsDir(t, ParentOf(q)))
              || (to.value == q && IsDir(t, q) && EmptyNode(t, q) && t[from].Dir?)
              || (IsDir(t, q) && FileName(src).Some? && to.value == q + [FileName(src).value]
                  && to.value !in t)
              || (to.value == q && q in t && t[q].File? && t[from].File?)
  {
    FoundOnTrack(t, q, dst);
    FreeOnTrack(t, q, dst);
    SpellsWithoutEmpty(dst, q);
    FreeOnTrack(t, q, TrimEmpty(dst));
  }

  lemma SourceIsNoLink(t: Tree, src: seq<Comp>)
    requires WellFormed(t) && !IsSymlink(t, src)
    ensures var from := RemovalRoot(t, src); from.Some? && from.value in t ==> !t[from.value].Link?
  {
    if EndsHere(src) {
      WalkEndsAtNode(t, [], src, LINK_BUDGET);
    }
  }

  /** What the emptiness test of the code says of a place that is found. */
  lemma FoundEmpty(t: Tree, q: Path, dst: seq<Comp>)
    requires EmptyAt(t, dst) && Resolve(t, dst) == Some(q) && q in t
    ensures EmptyNode(t, q)
  {
    assert q in Subtree(t, q);
  }

  /** Copying to an empty place, on whose way links lead only to themselves, stays at and below that place. */
  lemma CopyFills(t: Tree, src: seq<Comp>, q: Path, dst: seq<Comp>)
    requires WellFormed(t) && q != [] && Track(t, q, q) && Spells(dst, q) && EmptyAt(t, dst) && !IsSymlink(t, src)
    ensures WellFormed(Copy(t, src, dst)) && Filled(t, Copy(t, src, dst), q)
    ensures Copy(t, src, dst) != t ==> q in t ==> EmptyNode(t, q)
  {
    hide CopyTarget, Track, Spells, NamesIn, Spot, Resolve, RemovalRoot, EmptyAt, EmptyNode;
    var from, u := RemovalRoot(t, src), Copy(t, src, dst);
    SourceIsNoLink(t, src);
    if from.Some? && from.value in t && CopyTarget(t, from.value, src, dst).Some? {
      var to := CopyTarget(t, from.value, src, dst).value;
      CopyTargets(t, from.value, src, q, dst);
      if q in t {
        CopyFound(t, from.value, src, q, dst);
      }
      if to in t && t[to].File? {
        FilledFile(t, q, t[from.value]);
      } else if to == q {
        EmptyIsVacant(t, q);
        DirAbove(t, q);
        CopyNodeFills(t, from.value, q, q);
      } else {
        assert ParentOf(to) == q;
        EmptyIsVacant(t, to);
        CopyNodeFills(t, from.value, to, q);
      }
    }
  }

  lemma FilledFile(t: Tree, q: Path, node: Node)
    requires WellFormed(t) && q in t && t[q].File? && node.File? && EmptyNode(t, q)
    ensures WellFormed(t[q := node]) && Filled(t, t[q := node], q)
  {
    FileReplaced(t, q, node);
  }

  /** Something is written to or into what is there only if the destination leads to it and it is empty. */
  lemma CopyFound(t: Tree, from: Path, src: seq<Comp>, q: Path, dst: seq<Comp>)
    requires WellFormed(t) && from in t && q != [] && Track(t, q, q) && Spells(dst, q) && EmptyAt(t, dst)
    requires CopyTarget(t, from, src, dst).Some? && q in t
    ensures EmptyNode(t, q)
  {
    hide EmptyAt, EmptyNode, Track, Spells;
    FoundOnTrack(t, q, dst);
    SpellsWithoutEmpty(dst, q);
    FreeOnTrack(t, q, dst);
    FreeOnTrack(t, q, TrimEmpty(dst));
    if Resolve(t, dst).Some? {
      FoundEmpty(t, q, dst);
    }
  }

  lemma DirAbove(t: Tree, q: Path)
    requires WellFormed(t) && q != []
    ensures q in t ==> IsDir(t, ParentOf(q))
  {
  }

  lemma FileReplaced(t: Tree, p: Path, node: Node)
    requires WellFormed(t) && p in t && t[p].File? && node.File?
    ensures WellFormed(t[p := node])
  {
    assert forall q | q in t && q != [] :: ParentOf(q) != p;
  }

  lemma CopyNodeKeepsTree(t: Tree, from: Path, to: Path)
    requires WellFormed(t) && from in t && to != [] && IsDir(t, ParentOf(to))
    requires to in t ==> t[from].Dir?
    ensures WellFormed(CopyNode(t, from, to))
  {
    if t[from].Dir? {
      BranchIsTree(t, from);
      PlantKeepsTree(t, to, Branch(t, from));
    } else {
      AddNode(t, to, t[from]);
    }
  }

  lemma CopyTargetFits(t: Tree, from: Path, src: seq<Comp>, dst: seq<Comp>)
    requires WellFormed(t) && from in t
    ensures var to := CopyTarget(t, from, src, dst);
            to.Some? ==>
              || (to.value != [] && IsDir(t, ParentOf(to.value))
                  && (to.value in t ==> t[to.value].Dir? && t[from].Dir?))
              || (to.value in t && t[to.value].File? && t[from].File?)
  {
    var to := Resolve(t, dst);
    if to.Some? && IsDir(t, to.value) && FileName(src).Some? {
      assert ParentOf(to.value + [FileName(src).value]) == to.value;
    }
  }

  lemma CopyKeepsTree(t: Tree, src: seq<Comp>, dst: seq<Comp>)
    requires WellFormed(t)
    ensures WellFormed(Copy(t, src, dst))
  {
    hide CopyTarget;
    var from := RemovalRoot(t, src);
    if from.Some? && from.value in t {
      var to := CopyTarget(t, from.value, src, dst);
      CopyTargetFits(t, from.value, src, dst);
      if to.Some? && to.value in t && t[to.value].File? {
        FileReplaced(t, to.value, t[from.value]);
      } else if to.Some? {
        CopyNodeKeepsTree(t, from.value, to.value);
      }
    }
  }
}
