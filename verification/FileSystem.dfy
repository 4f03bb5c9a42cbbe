/**
 A filesystem with symbolic links, as the agent sees it through path strings.

 A tree maps physical paths (no links, no "..") to nodes. `Walk` is the kernel's path
 resolution, with its limit of 40 links.
 */
module FileSystem {
  import opened Wrappers

  /** The names from the root down to a node. */
  type Path = seq<string>

  /** One piece of a path string between slashes: a name, "..", or a place holder, "." or nothing at all. */
  datatype Comp = Name(name: string) | Up | Here(dot: bool)

  datatype Node =
    | Dir
    | File(content: string)
    | Link(absolute: bool, target: seq<Comp>)

  type Tree = map<Path, Node>

  const LINK_BUDGET: nat := 40

  // ---------------------------------------------------------------- path strings

  /** `trim_start_matches('/')`. */
  function StripSlashes(s: string): string {
    if s != "" && s[0] == '/' then StripSlashes(s[1..]) else s
  }

  function Piece(s: string): Comp {
    if s == "" || s == "." then Here(s == ".") else if s == ".." then Up else Name(s)
  }

  /** `s` split at its slashes. */
  function Components(s: string): seq<Comp> {
    var i := FirstSlash(s);
    if i == |s| then [Piece(s)] else [Piece(s[..i])] + Components(s[i + 1..])
  }

  function FirstSlash(s: string): (i: nat)
    ensures i <= |s| && '/' !in s[..i] && (i < |s| ==> s[i] == '/')
  {
    if s == "" || s[0] == '/' then 0 else FirstSlash(s[1..]) + 1
  }

  predicate IsPlainName(s: string) {
    s != "" && s != "." && s != ".." && '/' !in s
  }

  ghost predicate AllPlainNames(p: Path) {
    forall i | 0 <= i < |p| :: IsPlainName(p[i])
  }

  lemma {:induction false} ComponentNamesPlain(s: string, c: Comp)
    requires c in Components(s) && c.Name?
    ensures IsPlainName(c.name)
    decreases |s|
  {
    var i := FirstSlash(s);
    if i == |s| {
      assert s[..i] == s;
    } else if c != Piece(s[..i]) {
      ComponentNamesPlain(s[i + 1..], c);
    }
  }

  /** Nothing but ".." itself is read as a step up. */
  lemma {:induction false} UpSpelled(s: string) returns (k: nat)
    requires Up in Components(s)
    ensures k + 2 <= |s| && s[k..k + 2] == ".."
    decreases |s|
  {
    hide Components, FirstSlash, Piece;
    var i := FirstSlash(s);
    ComponentsUnfold(s);
    if s[..i] == ".." {
      k := 0;
      assert s[0..2] == s[..i];
    } else {
      var rest := s[i + 1..];
      var j := UpSpelled(rest);
      k := i + 1 + j;
      assert s[k..k + 2] == rest[j..j + 2];
    }
  }

  lemma ComponentsMeans(s: string)
    ensures var i := FirstSlash(s);
            Components(s) == if i == |s| then [Piece(s)] else [Piece(s[..i])] + Components(s[i + 1..])
  {
    hide FirstSlash, Piece;
  }

  lemma ComponentsUnfold(s: string)
    ensures var i := FirstSlash(s);
            && (Up in Components(s) <==> s[..i] == ".." || (i < |s| && Up in Components(s[i + 1..])))
  {
    hide Components, FirstSlash;
    ComponentsMeans(s);
    assert s[..|s|] == s;
  }

  /** Only the empty string and strings that start with a slash begin with an empty piece. */
  lemma FirstPiece(s: string)
    ensures Components(s)[0] == Here(false) <==> s == "" || s[0] == '/'
  {
    hide Components;
    ComponentsMeans(s);
    var i := FirstSlash(s);
    if s != "" && s[0] != '/' {
      assert s[..i][0] == s[0];
    }
  }

  // ---------------------------------------------------------------- paths spelled from names

  /** Names put together with a slash between them. */
  function Spelling(p: Path): string
    requires p != []
  {
    if |p| == 1 then p[0] else p[0] + "/" + Spelling(p[1..])
  }

  lemma {:induction false} SlashAfter(n: string, m: string)
    requires '/' !in n
    ensures FirstSlash(n + "/" + m) == |n|
  {
    var s := n + "/" + m;
    if n == "" {
      assert s[0] == '/';
    } else {
      assert s[1..] == n[1..] + "/" + m && s[0] == n[0];
      SlashAfter(n[1..], m);
    }
  }

  lemma {:induction false} NoSlash(m: string)
    requires '/' !in m
    ensures FirstSlash(m) == |m|
  {
    if m != "" {
      NoSlash(m[1..]);
    }
  }

  lemma {:induction false} SpelledComponents(p: Path)
    requires p != [] && AllPlainNames(p)
    ensures Components(Spelling(p)) == Names(p)
    decreases |p|
  {
    hide Components, Piece;
    if |p| == 1 {
      OneSpelled(p[0]);
    } else {
      SpelledComponents(p[1..]);
      MoreSpelled(p[0], Spelling(p[1..]));
      assert Names(p) == [Name(p[0])] + Names(p[1..]);
    }
  }

  lemma OneSpelled(n: string)
    requires IsPlainName(n)
    ensures Components(n) == [Name(n)] == Names([n])
  {
    hide Components, FirstSlash;
    NoSlash(n);
    ComponentsMeans(n);
    assert n[..|n|] == n;
  }

  lemma MoreSpelled(n: string, rest: string)
    requires IsPlainName(n)
    ensures Components(n + "/" + rest) == [Name(n)] + Components(rest)
  {
    hide Components, FirstSlash;
    var s := n + "/" + rest;
    SlashAfter(n, rest);
    ComponentsMeans(s);
    assert s[..|n|] == n && s[|n| + 1..] == rest;
  }

  // ---------------------------------------------------------------- `std::path`

  /** `Path` drops trailing "." pieces and slashes before it looks at the last piece. */
  function TrimHere(p: seq<Comp>): (q: seq<Comp>)
    ensures q <= p && (q == [] || !q[|q| - 1].Here?)
    ensures forall i | |q| <= i < |p| :: p[i].Here?
  {
    if p != [] && p[|p| - 1].Here? then TrimHere(p[..|p| - 1]) else p
  }

  /** `Path::file_name`: nothing for the root and for a path ending in "..". */
  function FileName(p: seq<Comp>): Option<string> {
    var q := TrimHere(p);
    if q != [] && q[|q| - 1].Name? then Some(q[|q| - 1].name) else None
  }

  /** `Path::parent`. */
  function Parent(p: seq<Comp>): (q: Option<seq<Comp>>)
    ensures q.None? ==> TrimHere(p) == []
    ensures q.Some? ==> |q.value| < |p|
  {
    var q := TrimHere(p);
    if q == [] then None else Some(TrimHere(q[..|q| - 1]))
  }

  predicate EndsHere(p: seq<Comp>) {
    p != [] && p[|p| - 1].Here?
  }

  // ---------------------------------------------------------------- trees

  function ParentOf(p: Path): Path {
    if p == [] then [] else p[..|p| - 1]
  }

  predicate IsDir(t: Tree, p: Path) {
    p in t && t[p].Dir?
  }

  predicate IsLink(t: Tree, p: Path) {
    p in t && t[p].Link?
  }

  /** The root is a directory and every other node lies in one. */
  ghost predicate WellFormed(t: Tree) {
    && IsDir(t, [])
    && forall p | p in t && p != [] :: IsDir(t, ParentOf(p))
  }

  ghost predicate PlainTree(t: Tree) {
    forall p | p in t :: AllPlainNames(p)
  }

  lemma {:induction false} AncestorsAreDirs(t: Tree, p: Path, q: Path)
    requires WellFormed(t) && p in t && q < p
    ensures IsDir(t, q)
    decreases |p|
  {
    if q != ParentOf(p) {
      AncestorsAreDirs(t, ParentOf(p), q);
    }
  }

  // ---------------------------------------------------------------- resolution

  /** Follow `rest` from the directory `cur`; `links` more links may be followed. */
  function Walk(t: Tree, cur: Path, rest: seq<Comp>, links: nat): Option<Path>
    decreases links, |rest|
  {
    if rest == [] then Some(cur)
    else if !IsDir(t, cur) then None
    else match rest[0]
      case Here(_) => Walk(t, cur, rest[1..], links)
      case Up => Walk(t, ParentOf(cur), rest[1..], links)
      case Name(n) =>
        var next := cur + [n];
        if next !in t then None
        else if t[next].Link? then
          if links == 0 then None
          else Walk(t, if t[next].absolute then [] else cur, t[next].target + rest[1..], links - 1)
        else Walk(t, next, rest[1..], links)
  }

  /** `canonicalize` of an absolute path; `exists` asks whether there is a result. */
  function Resolve(t: Tree, p: seq<Comp>): Option<Path> {
    Walk(t, [], p, LINK_BUDGET)
  }

  predicate Exists(t: Tree, p: seq<Comp>) {
    Resolve(t, p).Some?
  }

  function Names(p: Path): seq<Comp> {
    seq(|p|, i requires 0 <= i < |p| => Name(p[i]))
  }

  /** What resolution arrives at is a node of the tree and no link. */
  lemma {:induction false} WalkEndsAtNode(t: Tree, cur: Path, rest: seq<Comp>, links: nat)
    requires WellFormed(t) && cur in t && !t[cur].Link?
    ensures var r := Walk(t, cur, rest, links);
            r.Some? ==> r.value in t && !t[r.value].Link?
    decreases links, |rest|
  {
    if rest != [] && IsDir(t, cur) {
      match rest[0] {
        case Here(_) => WalkEndsAtNode(t, cur, rest[1..], links);
        case Up => WalkEndsAtNode(t, ParentOf(cur), rest[1..], links);
        case Name(n) =>
          var next := cur + [n];
          if next in t {
            if !t[next].Link? {
              WalkEndsAtNode(t, next, rest[1..], links);
            } else if links > 0 {
              WalkEndsAtNode(t, if t[next].absolute then [] else cur, t[next].target + rest[1..], links - 1);
            }
          }
      }
    }
  }

  /** What follows a path that leads nowhere leads nowhere either. */
  lemma {:induction false} NowhereStaysNowhere(t: Tree, cur: Path, a: seq<Comp>, b: seq<Comp>, links: nat)
    requires Walk(t, cur, a, links).None?
    ensures Walk(t, cur, a + b, links).None?
    decreases links, |a|
  {
    if IsDir(t, cur) {
      assert (a + b)[1..] == a[1..] + b;
      match a[0] {
        case Here(_) => NowhereStaysNowhere(t, cur, a[1..], b, links);
        case Up => NowhereStaysNowhere(t, ParentOf(cur), a[1..], b, links);
        case Name(n) =>
          var next := cur + [n];
          if next in t {
            if !t[next].Link? {
              NowhereStaysNowhere(t, next, a[1..], b, links);
            } else if links > 0 {
              assert t[next].target + (a + b)[1..] == t[next].target + a[1..] + b;
              NowhereStaysNowhere(t, if t[next].absolute then [] else cur, t[next].target + a[1..], b, links - 1);
            }
          }
      }
    }
  }

  /** A walk that arrives somewhere and then takes one more name, which is there and no link, arrives at it. */
  lemma {:induction false} OneMoreName(t: Tree, cur: Path, a: seq<Comp>, n: string, links: nat)
    requires Walk(t, cur, a, links).Some?
    requires var there := Walk(t, cur, a, links).value;
             IsDir(t, there) && there + [n] in t && !t[there + [n]].Link?
    ensures Walk(t, cur, a + [Name(n)], links) == Some(Walk(t, cur, a, links).value + [n])
    decreases links, |a|
  {
    if a == [] {
      assert a + [Name(n)] == [Name(n)];
    } else {
      assert (a + [Name(n)])[1..] == a[1..] + [Name(n)];
      match a[0] {
        case Here(_) => OneMoreName(t, cur, a[1..], n, links);
        case Up => OneMoreName(t, ParentOf(cur), a[1..], n, links);
        case Name(m) =>
          var next := cur + [m];
          if !t[next].Link? {
            OneMoreName(t, next, a[1..], n, links);
          } else {
            assert t[next].target + (a + [Name(n)])[1..] == t[next].target + a[1..] + [Name(n)];
            OneMoreName(t, if t[next].absolute then [] else cur, t[next].target + a[1..], n, links - 1);
          }
      }
    }
  }

  /** A walk that arrives in a directory and then takes a name that is not there stops. */
  lemma {:induction false} NoMoreName(t: Tree, cur: Path, a: seq<Comp>, n: string, links: nat)
    requires Walk(t, cur, a, links).Some?
    requires var there := Walk(t, cur, a, links).value; there + [n] !in t
    ensures Walk(t, cur, a + [Name(n)], links).None?
    decreases links, |a|
  {
    if a == [] {
      assert a + [Name(n)] == [Name(n)];
    } else {
      assert (a + [Name(n)])[1..] == a[1..] + [Name(n)];
      match a[0] {
        case Here(_) => NoMoreName(t, cur, a[1..], n, links);
        case Up => NoMoreName(t, ParentOf(cur), a[1..], n, links);
        case Name(m) =>
          var next := cur + [m];
          if !t[next].Link? {
            NoMoreName(t, next, a[1..], n, links);
          } else {
            assert t[next].target + (a + [Name(n)])[1..] == t[next].target + a[1..] + [Name(n)];
            NoMoreName(t, if t[next].absolute then [] else cur, t[next].target + a[1..], n, links - 1);
          }
      }
    }
  }

  // ---------------------------------------------------------------- paths without links

  /** No link sits on the way to `q`; `q` itself may be anything. */
  ghost predicate LinkFreeAbove(t: Tree, q: Path) {
    forall i | 0 <= i < |q| :: !IsLink(t, q[..i])
  }

  /** Where the last name of a path lives: links on the way are followed, the last one is not. */
  function Spot(t: Tree, p: seq<Comp>): (s: Option<Path>)
    ensures s.Some? ==> s.value != [] && IsDir(t, ParentOf(s.value))
  {
    if p == [] || !p[|p| - 1].Name? then None
    else
      var above := Resolve(t, p[..|p| - 1]);
      if above.Some? && IsDir(t, above.value) then Some(above.value + [p[|p| - 1].name]) else None
  }

  /** What is at the spot of a path, unless it is a link, is what the path resolves to. */
  lemma SpotFound(t: Tree, p: seq<Comp>)
    requires Spot(t, p).Some? && Spot(t, p).value in t && !t[Spot(t, p).value].Link?
    ensures Resolve(t, p) == Spot(t, p)
  {
    OneMoreName(t, [], p[..|p| - 1], p[|p| - 1].name, LINK_BUDGET);
    assert p[..|p| - 1] + [p[|p| - 1]] == p;
  }

  lemma PrefixPresent(t: Tree, q: Path, k: nat)
    requires WellFormed(t) && k <= |q| && q in t
    ensures q[..k] in t && (k < |q| ==> IsDir(t, q[..k]))
  {
    if k < |q| {
      AncestorsAreDirs(t, q, q[..k]);
    } else {
      assert q[..k] == q;
    }
  }

  lemma WalkOneName(t: Tree, q: Path, k: nat, links: nat)
    requires k < |q| && !IsLink(t, q[..k + 1])
    ensures Walk(t, q[..k], Names(q[k..]), links)
         == if IsDir(t, q[..k]) && q[..k + 1] in t then Walk(t, q[..k + 1], Names(q[k + 1..]), links) else None
  {
    assert q[..k + 1] == q[..k] + [q[k]];
    assert Names(q[k..])[1..] == Names(q[k + 1..]);
  }

  /** Without links a walk along names goes straight or stops. */
  lemma {:induction false} WalkLinkFree(t: Tree, q: Path, k: nat, links: nat)
    requires WellFormed(t) && k <= |q| && q[..k] in t
    requires forall i | 0 <= i <= |q| :: !IsLink(t, q[..i])
    ensures Walk(t, q[..k], Names(q[k..]), links) == if q in t then Some(q) else None
    decreases |q| - k
  {
    if k == |q| {
      assert q[..k] == q;
    } else {
      if q in t {
        PrefixPresent(t, q, k);
        PrefixPresent(t, q, k + 1);
      }
      WalkOneName(t, q, k, links);
      if q[..k + 1] in t {
        WalkLinkFree(t, q, k + 1, links);
      }
    }
  }

  lemma WalkLinkFreeFromRoot(t: Tree, q: Path, links: nat)
    requires WellFormed(t) && LinkFreeAbove(t, q) && !IsLink(t, q)
    ensures Walk(t, [], Names(q), links) == if q in t then Some(q) else None
  {
    assert q[..0] == [] && q[0..] == q && q[..|q|] == q;
    WalkLinkFree(t, q, 0, links);
  }

  lemma ResolveLinkFree(t: Tree, q: Path)
    requires WellFormed(t) && LinkFreeAbove(t, q) && !IsLink(t, q)
    ensures Resolve(t, Names(q)) == if q in t then Some(q) else None
  {
    WalkLinkFreeFromRoot(t, q, LINK_BUDGET);
  }

  lemma SpotLinkFree(t: Tree, q: Path)
    requires WellFormed(t) && LinkFreeAbove(t, q) && q != []
    ensures Spot(t, Names(q)) == if IsDir(t, ParentOf(q)) then Some(q) else None
  {
    var up := ParentOf(q);
    assert Names(q)[..|q| - 1] == Names(up);
    assert up + [q[|q| - 1]] == q;
    forall i | 0 <= i < |up| ensures !IsLink(t, up[..i]) {
      assert up[..i] == q[..i];
    }
    assert up == q[..|q| - 1];
    ResolveLinkFree(t, up);
  }

  /** Below plain directories nothing is on the way. */
  lemma DirsAreLinkFree(t: Tree, q: Path)
    requires WellFormed(t) && q != [] && IsDir(t, ParentOf(q))
    ensures LinkFreeAbove(t, q)
  {
    forall i | 0 <= i < |q| ensures !IsLink(t, q[..i]) {
      if i < |q| - 1 {
        AncestorsAreDirs(t, ParentOf(q), q[..i]);
      } else {
        assert q[..i] == ParentOf(q);
      }
    }
  }

  /** A physical path that is no link resolves to itself. */
  lemma PhysicalResolves(t: Tree, p: Path)
    requires WellFormed(t) && p in t && !t[p].Link?
    ensures Resolve(t, Names(p)) == Some(p)
  {
    if p != [] {
      DirsAreLinkFree(t, p);
    }
    ResolveLinkFree(t, p);
  }

  lemma DirStep(t: Tree, q: Path, k: nat, n: string, links: nat)
    requires k < |q| && IsDir(t, q[..k]) && IsDir(t, q[..k + 1])
    ensures Walk(t, q[..k], Names(q[k..]) + [Name(n)], links) ==
              Walk(t, q[..k + 1], Names(q[k + 1..]) + [Name(n)], links)
  {
    assert q[..k + 1] == q[..k] + [q[k]];
    assert (Names(q[k..]) + [Name(n)])[1..] == Names(q[k + 1..]) + [Name(n)];
  }

  /** A walk along plain directories, and one name further. */
  lemma {:induction false} DirsThenName(t: Tree, q: Path, k: nat, n: string, links: nat)
    requires WellFormed(t) && IsDir(t, q) && k <= |q|
    ensures Walk(t, q[..k], Names(q[k..]) + [Name(n)], links) == Walk(t, q, [Name(n)], links)
    decreases |q| - k
  {
    if k == |q| {
      assert q[..k] == q && Names(q[k..]) + [Name(n)] == [Name(n)];
    } else {
      PrefixPresent(t, q, k);
      PrefixPresent(t, q, k + 1);
      assert k + 1 == |q| ==> q[..k + 1] == q;
      DirStep(t, q, k, n, links);
      DirsThenName(t, q, k + 1, n, links);
    }
  }

  /** A path whose last name is a link to an existing physical path resolves to that path. */
  lemma LastLinkResolves(t: Tree, up: Path, n: string, r: Path)
    requires WellFormed(t) && IsDir(t, up) && up + [n] in t && t[up + [n]] == Link(true, Names(r))
    requires r in t && !t[r].Link?
    ensures Resolve(t, Names(up + [n])) == Some(r)
  {
    assert Names(up + [n]) == Names(up) + [Name(n)];
    assert up[..0] == [] && up[0..] == up;
    DirsThenName(t, up, 0, n, LINK_BUDGET);
    OneLink(t, up, n, r);
    if r != [] {
      DirsAreLinkFree(t, r);
    }
    WalkLinkFreeFromRoot(t, r, LINK_BUDGET - 1);
  }

  lemma OneLink(t: Tree, up: Path, n: string, r: Path)
    requires IsDir(t, up) && up + [n] in t && t[up + [n]] == Link(true, Names(r))
    ensures Walk(t, up, [Name(n)], LINK_BUDGET) == Walk(t, [], Names(r), LINK_BUDGET - 1)
  {
    assert Names(r) + [Name(n)][1..] == Names(r);
  }

  lemma LinkResolves(t: Tree, q: Path, r: Path)
    requires WellFormed(t) && q != [] && q in t && t[q] == Link(true, Names(r))
    requires r in t && !t[r].Link?
    ensures Resolve(t, Names(q)) == Some(r)
  {
    assert q == ParentOf(q) + [q[|q| - 1]];
    LastLinkResolves(t, ParentOf(q), q[|q| - 1], r);
  }
}
