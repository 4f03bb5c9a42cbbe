/**
 Resolution of a path given by a site user (`resolve_safe_path` in
 panel/agent/src/services/files.rs): canonicalise what exists, walk up to the first
 existing ancestor otherwise, and insist on the site root as a prefix.
 */
module SafePath {
  import opened Wrappers
  import opened FileSystem

  const WEBROOT := "/var/www"

  datatype Outcome =
    | Granted(path: Path)
    | NoSiteRoot        // "Site root does not exist"
    | InvalidPath       // "Invalid path"
    | Denied            // "Path traversal denied"

  // ---------------------------------------------------------------- the two paths

  function Base(domain: string): seq<Comp> {
    Components(WEBROOT + "/" + domain)
  }

  function Candidate(domain: string, relative: string): seq<Comp> {
    Base(domain) + Components(StripSlashes(relative))
  }

  // ---------------------------------------------------------------- the walk to an existing ancestor

  /** The canonical form of the longest existing ancestor, extended by the names that are missing. */
  function Locate(t: Tree, p: seq<Comp>): Option<Path>
    decreases |p|
  {
    if Exists(t, p) then Resolve(t, p)
    else if FileName(p).None? || Parent(p).None? then None
    else
      var above := Locate(t, Parent(p).value);
      if above.None? then None else Some(above.value + [FileName(p).value])
  }

  function Reverse(s: seq<string>): (r: seq<string>)
    ensures |r| == |s|
  {
    if s == [] then [] else [s[|s| - 1]] + Reverse(s[..|s| - 1])
  }

  function Judge(t: Tree, base: seq<Comp>, candidate: seq<Comp>): Outcome {
    var root := Resolve(t, base);
    if root.None? then NoSiteRoot
    else
      var found := Locate(t, candidate);
      if found.None? then InvalidPath
      else if root.value <= found.value then Granted(found.value)
      else Denied
  }

  function Extend(p: Option<Path>, names: seq<string>): Option<Path> {
    if p.None? then None else Some(p.value + names)
  }

  lemma ExtendNone(p: Option<Path>)
    ensures Extend(p, []) == p
  {
    if p.Some? { assert p.value + [] == p.value; }
  }

  lemma ExtendSnoc(p: Option<Path>, trail: seq<string>, name: string)
    ensures Extend(Extend(p, [name]), Reverse(trail)) == Extend(p, Reverse(trail + [name]))
  {
    assert (trail + [name])[..|trail|] == trail;
    if p.Some? { assert p.value + [name] + Reverse(trail) == p.value + ([name] + Reverse(trail)); }
  }

  /** The loop that collects the missing names, last one first. */
  method WalkUp(t: Tree, candidate: seq<Comp>) returns (found: bool, existing: seq<Comp>, trail: seq<string>)
    ensures found ==> Exists(t, existing) && Locate(t, candidate) == Extend(Resolve(t, existing), Reverse(trail))
    ensures !found ==> Locate(t, candidate).None?
  {
    existing := candidate;
    trail := [];
    ExtendNone(Locate(t, candidate));
    while !Exists(t, existing)
      invariant Locate(t, candidate) == Extend(Locate(t, existing), Reverse(trail))
      decreases |existing|
    {
      var name := FileName(existing);
      if name.None? {
        return false, existing, trail;
      }
      ghost var shorter := trail;
      trail := trail + [name.value];
      var parent := Parent(existing);
      if parent.None? {
        return false, existing, trail;
      }
      ExtendSnoc(Locate(t, parent.value), shorter, name.value);
      existing := parent.value;
    }
    found := true;
  }

  method ResolveSafePath(t: Tree, domain: string, relativePath: string) returns (r: Outcome)
    ensures r == Judge(t, Base(domain), Candidate(domain, relativePath))
    ensures WellFormed(t) && IsPlainName(domain) && RootWithoutLinks(t, domain) && r.Granted? ==>
              ["var", "www", domain] <= r.path
  {
    hide WellFormed, Resolve, IsPlainName;
    if WellFormed(t) && IsPlainName(domain) && RootWithoutLinks(t, domain) {
      GrantedInSite(t, domain, relativePath);
    }
    var base := Base(domain);
    var candidate := Candidate(domain, relativePath);
    var canonBase := Resolve(t, base);
    if canonBase.None? {
      return NoSiteRoot;
    }
    var canon: Path;
    if Exists(t, candidate) {
      canon := Resolve(t, candidate).value;
    } else {
      var found, existing, trail := WalkUp(t, candidate);
      if !found {
        return InvalidPath;
      }
      canon := Resolve(t, existing).value;
      ghost var start := canon;
      var i := |trail|;
      assert trail[..i] == trail;
      while i > 0
        invariant 0 <= i <= |trail|
        invariant canon + Reverse(trail[..i]) == start + Reverse(trail)
      {
        i := i - 1;
        Rejoin(canon, trail, i);
        canon := canon + [trail[i]];
      }
      assert canon + [] == canon;
    }
    if !(canonBase.value <= canon) {
      return Denied;
    }
    return Granted(canon);
  }

  lemma Rejoin(p: Path, trail: seq<string>, i: nat)
    requires i < |trail|
    ensures p + Reverse(trail[..i + 1]) == p + [trail[i]] + Reverse(trail[..i])
  {
    assert trail[..i + 1][..i] == trail[..i];
  }

  // ---------------------------------------------------------------- what a granted path is

  ghost predicate PlainComponents(p: seq<Comp>) {
    forall c | c in p && c.Name? :: IsPlainName(c.name)
  }

  lemma CandidatePlain(domain: string, relative: string)
    ensures PlainComponents(Candidate(domain, relative))
  {
    forall c | c in Candidate(domain, relative) && c.Name? ensures IsPlainName(c.name) {
      if c in Base(domain) {
        ComponentNamesPlain(WEBROOT + "/" + domain, c);
      } else {
        ComponentNamesPlain(StripSlashes(relative), c);
      }
    }
  }

  lemma {:induction false} LocatedPlain(t: Tree, p: seq<Comp>)
    requires WellFormed(t) && PlainTree(t) && PlainComponents(p)
    ensures Locate(t, p).Some? ==> AllPlainNames(Locate(t, p).value)
    decreases |p|
  {
    if Exists(t, p) {
      WalkEndsAtNode(t, [], p, LINK_BUDGET);
    } else if FileName(p).Some? && Parent(p).Some? {
      var q := TrimHere(p);
      assert q[|q| - 1] in p;
      LocatedPlain(t, Parent(p).value);
    }
  }

  /**
   For every tree, domain and request: a granted path is the canonical site root followed
   by plain names, none of them "..".
   */
  lemma GrantedBelowSiteRoot(t: Tree, domain: string, relative: string)
    requires WellFormed(t) && PlainTree(t)
    requires Judge(t, Base(domain), Candidate(domain, relative)).Granted?
    ensures var path := Judge(t, Base(domain), Candidate(domain, relative)).path;
            && Exists(t, Base(domain))
            && Resolve(t, Base(domain)).value <= path
            && AllPlainNames(path)
    ensures IsPlainName(domain) ==> Resolve(t, Base(domain)) == Resolve(t, Names(["var", "www", domain]))
  {
    hide Resolve, Locate, Components, Candidate, Base;
    CandidatePlain(domain, relative);
    LocatedPlain(t, Candidate(domain, relative));
    if IsPlainName(domain) {
      BaseNamed(domain);
      SlashNames(t, ["var", "www", domain]);
    }
    JudgedRoot(t, Base(domain), Candidate(domain, relative));
  }

  lemma JudgedRoot(t: Tree, base: seq<Comp>, candidate: seq<Comp>)
    requires Judge(t, base, candidate).Granted?
    ensures Exists(t, base) && Locate(t, candidate) == Some(Judge(t, base, candidate).path)
  {
  }

  /**
   When the requested node exists, the request is granted if and only if the node lies in
   the canonical site root, and the granted path names that very node without any link.
   */
  lemma ExistingRequest(t: Tree, domain: string, relative: string)
    requires WellFormed(t) && Exists(t, Base(domain)) && Exists(t, Candidate(domain, relative))
    ensures var node := Resolve(t, Candidate(domain, relative)).value;
            var outcome := Judge(t, Base(domain), Candidate(domain, relative));
            && (outcome == Granted(node) <==> Resolve(t, Base(domain)).value <= node)
            && (outcome == Denied <==> !(Resolve(t, Base(domain)).value <= node))
            && node in t && !t[node].Link?
            && Resolve(t, Names(node)) == Some(node)
  {
    var node := Resolve(t, Candidate(domain, relative)).value;
    WalkEndsAtNode(t, [], Candidate(domain, relative), LINK_BUDGET);
    PhysicalResolves(t, node);
  }

  // ---------------------------------------------------------------- requests for what does not exist

  /** From a directory, "." leads nowhere else. */
  lemma {:induction false} DirThenHere(t: Tree, cur: Path, a: seq<Comp>, dots: seq<Comp>, links: nat)
    requires Walk(t, cur, a, links).Some? && IsDir(t, Walk(t, cur, a, links).value)
    requires forall i | 0 <= i < |dots| :: dots[i].Here?
    ensures Walk(t, cur, a + dots, links) == Walk(t, cur, a, links)
    decreases links, |a|, |dots|
  {
    if a == [] {
      assert a + dots == dots;
      if dots != [] {
        assert a + dots[1..] == dots[1..];
        DirThenHere(t, cur, a, dots[1..], links);
      }
    } else {
      assert (a + dots)[1..] == a[1..] + dots;
      match a[0] {
        case Here(_) => DirThenHere(t, cur, a[1..], dots, links);
        case Up => DirThenHere(t, ParentOf(cur), a[1..], dots, links);
        case Name(n) =>
          var next := cur + [n];
          if !t[next].Link? {
            DirThenHere(t, next, a[1..], dots, links);
          } else {
            assert t[next].target + (a + dots)[1..] == t[next].target + a[1..] + dots;
            DirThenHere(t, if t[next].absolute then [] else cur, t[next].target + a[1..], dots, links - 1);
          }
      }
    }
  }

  /**
   The path found for a request that does not exist (and has no trailing slash) is not the
   path of any existing file or directory; at most a link that leads nowhere sits there.
   */
  lemma {:induction false} MissingStaysMissing(t: Tree, p: seq<Comp>)
    requires WellFormed(t) && !Exists(t, p) && Locate(t, p).Some? && !EndsHere(p)
    ensures Locate(t, p).value in t ==> t[Locate(t, p).value].Link?
    decreases |p|
  {
    var n := FileName(p).value;
    var parent := Parent(p).value;
    var above := Locate(t, parent).value;
    var init := p[..|p| - 1];
    assert TrimHere(p) == p && init + [Name(n)] == p;
    if !Exists(t, parent) {
      MissingStaysMissing(t, parent);
      assert ParentOf(above + [n]) == above;
    } else if IsDir(t, above) {
      DirThenHere(t, [], parent, init[|parent|..], LINK_BUDGET);
      assert parent + init[|parent|..] == init;
      if above + [n] in t && !t[above + [n]].Link? {
        OneMoreName(t, [], init, n, LINK_BUDGET);
      }
    } else {
      assert ParentOf(above + [n]) == above;
    }
  }

  /** The pieces of a path that matter to `std::path`: all but ".". */
  function Significant(p: seq<Comp>): seq<Comp> {
    if p == [] then []
    else Significant(p[..|p| - 1]) + if p[|p| - 1].Here? then [] else [p[|p| - 1]]
  }

  lemma {:induction false} TrimHereSignificant(p: seq<Comp>)
    ensures Significant(TrimHere(p)) == Significant(p)
  {
    if EndsHere(p) {
      TrimHereSignificant(p[..|p| - 1]);
    }
  }

  /**
   A request that does not exist is located below its deepest existing ancestor: the
   request is that ancestor followed by the missing names, which are appended to the
   ancestor's canonical path, and one step below the ancestor the request leads nowhere.
   */
  lemma {:induction false} LocatedBelowAncestor(t: Tree, p: seq<Comp>) returns (ancestor: seq<Comp>,
      below: seq<Comp>, missing: Path)
    requires !Exists(t, p) && Locate(t, p).Some?
    ensures Exists(t, ancestor) && missing != []
    ensures Parent(below) == Some(ancestor) && !Exists(t, below)
    ensures Locate(t, p).value == Resolve(t, ancestor).value + missing
    ensures Significant(p) == Significant(ancestor) + Names(missing)
    decreases |p|
  {
    var n, parent := FileName(p).value, Parent(p).value;
    LastPiece(p);
    if Exists(t, parent) {
      ancestor, below, missing := parent, p, [n];
      assert Names(missing) == [Name(n)];
    } else {
      var above;
      ancestor, below, above := LocatedBelowAncestor(t, parent);
      missing := above + [n];
      OneNameDeeper(Resolve(t, ancestor).value, Significant(ancestor), above, n);
    }
  }

  lemma LastPiece(p: seq<Comp>)
    requires FileName(p).Some?
    ensures Significant(p) == Significant(Parent(p).value) + [Name(FileName(p).value)]
  {
    var q := TrimHere(p);
    TrimHereSignificant(p);
    TrimHereSignificant(q[..|q| - 1]);
  }

  lemma OneNameDeeper(path: Path, pieces: seq<Comp>, above: Path, n: string)
    ensures path + (above + [n]) == path + above + [n]
    ensures pieces + Names(above + [n]) == pieces + Names(above) + [Name(n)]
  {
  }

  // ---------------------------------------------------------------- "Invalid path"

  /** Some ".." of `p` cannot be followed. */
  ghost predicate UpFromNowhere(t: Tree, p: seq<Comp>) {
    exists k | 0 < k <= |p| :: UpAt(t, p, k)
  }

  ghost predicate UpAt(t: Tree, p: seq<Comp>, k: nat)
    requires 0 < k <= |p|
  {
    p[k - 1].Up? && !Exists(t, p[..k])
  }

  lemma OneUp(t: Tree, cur: Path, links: nat)
    requires WellFormed(t) && Walk(t, cur, [Up], links).Some?
    ensures IsDir(t, Walk(t, cur, [Up], links).value)
  {
    assert cur == [] ==> ParentOf(cur) == [];
  }

  lemma {:induction false} UpEndsInDir(t: Tree, cur: Path, a: seq<Comp>, links: nat)
    requires WellFormed(t) && Walk(t, cur, a + [Up], links).Some?
    ensures IsDir(t, Walk(t, cur, a + [Up], links).value)
    decreases links, |a|
  {
    hide WellFormed;
    if a == [] {
      assert a + [Up] == [Up];
      OneUp(t, cur, links);
    } else {
      assert (a + [Up])[1..] == a[1..] + [Up];
      match a[0] {
        case Here(_) => UpEndsInDir(t, cur, a[1..], links);
        case Up => UpEndsInDir(t, ParentOf(cur), a[1..], links);
        case Name(n) =>
          var next := cur + [n];
          if !t[next].Link? {
            UpEndsInDir(t, next, a[1..], links);
          } else {
            assert t[next].target + (a + [Up])[1..] == t[next].target + a[1..] + [Up];
            UpEndsInDir(t, if t[next].absolute then [] else cur, t[next].target + a[1..], links - 1);
          }
      }
    }
  }

  /** A path whose last piece that counts is ".." exists with its place holders if it exists without them. */
  lemma UpThenHere(t: Tree, p: seq<Comp>)
    requires WellFormed(t) && (TrimHere(p) == [] || TrimHere(p)[|TrimHere(p)| - 1].Up?)
    ensures Exists(t, p) <==> Exists(t, TrimHere(p))
  {
    var q := TrimHere(p);
    var dots := p[|q|..];
    assert q + dots == p;
    if Exists(t, q) {
      if q != [] {
        assert q[..|q| - 1] + [Up] == q;
        UpEndsInDir(t, [], q[..|q| - 1], LINK_BUDGET);
      }
      DirThenHere(t, [], q, dots, LINK_BUDGET);
    } else {
      NowhereStaysNowhere(t, [], q, dots, LINK_BUDGET);
    }
  }

  lemma UpAtPrefix(t: Tree, p: seq<Comp>, q: seq<Comp>)
    requires q <= p
    ensures UpFromNowhere(t, q) ==> UpFromNowhere(t, p)
  {
    if UpFromNowhere(t, q) {
      var k :| 0 < k <= |q| && UpAt(t, q, k);
      assert q[..k] == p[..k];
      assert UpAt(t, p, k);
    }
  }

  /** `p` without its place holders at the end, or without its last name and those before it, loses no "..". */
  lemma UpAtTrimmed(t: Tree, p: seq<Comp>)
    requires UpFromNowhere(t, p)
    ensures UpFromNowhere(t, TrimHere(p)) && TrimHere(p) != []
    ensures TrimHere(p)[|TrimHere(p)| - 1].Name? ==> UpFromNowhere(t, TrimHere(p)[..|TrimHere(p)| - 1])
  {
    var q := TrimHere(p);
    var k :| 0 < k <= |p| && UpAt(t, p, k);
    assert k <= |q| by {
      assert p[k - 1] != Here(true) && p[k - 1] != Here(false);
    }
    assert q[..k] == p[..k];
    assert UpAt(t, q, k);
    if q[|q| - 1].Name? {
      assert q[..|q| - 1][..k] == p[..k];
      assert UpAt(t, q[..|q| - 1], k);
    }
  }

  /** The walk up finds no name to take off exactly if some ".." cannot be followed. */
  lemma {:induction false} LocatedExactly(t: Tree, p: seq<Comp>)
    requires WellFormed(t)
    ensures Locate(t, p).None? <==> UpFromNowhere(t, p)
    decreases |p|
  {
    hide Exists, Resolve, UpFromNowhere, WellFormed;
    var q := TrimHere(p);
    if Exists(t, p) {
      LocatedThere(t, p);
      NoUpFromNowhere(t, p);
    } else if FileName(p).None? {
      UpThenHere(t, p);
      RootExists(t);
      UpAtEnd(t, q);
      UpAtPrefix(t, p, q);
    } else {
      LocatedExactly(t, Parent(p).value);
      UpAtPrefix(t, p, Parent(p).value);
      if UpFromNowhere(t, p) {
        UpAtTrimmed(t, p);
        UpAtTrimmed(t, q[..|q| - 1]);
      }
    }
  }

  lemma LocatedThere(t: Tree, p: seq<Comp>)
    requires Exists(t, p)
    ensures Locate(t, p).Some?
  {
  }

  lemma UpAtEnd(t: Tree, q: seq<Comp>)
    requires q != [] && q[|q| - 1].Up? && !Exists(t, q)
    ensures UpFromNowhere(t, q)
  {
    assert q[..|q|] == q;
    assert UpAt(t, q, |q|);
  }

  lemma RootExists(t: Tree)
    requires WellFormed(t)
    ensures Exists(t, [])
  {
  }

  lemma NoUpFromNowhere(t: Tree, p: seq<Comp>)
    requires Exists(t, p)
    ensures !UpFromNowhere(t, p)
  {
    forall k | 0 < k <= |p| ensures Exists(t, p[..k]) {
      assert p[..k] + p[k..] == p;
      if !Exists(t, p[..k]) {
        NowhereStaysNowhere(t, [], p[..k], p[k..], LINK_BUDGET);
      }
    }
  }

  /** The request goes up from a path that does not exist. */
  ghost predicate LeavesNowhere(t: Tree, base: seq<Comp>, rest: seq<Comp>) {
    exists i | 0 <= i < |rest| :: rest[i].Up? && !Exists(t, base + rest[..i + 1])
  }

  lemma NowhereInRequest(t: Tree, base: seq<Comp>, rest: seq<Comp>)
    requires Exists(t, base)
    ensures UpFromNowhere(t, base + rest) <==> LeavesNowhere(t, base, rest)
  {
    hide Exists;
    var p := base + rest;
    if UpFromNowhere(t, p) {
      var k :| 0 < k <= |p| && UpAt(t, p, k);
      if k <= |base| {
        assert p[..k] == base[..k];
        assert UpAt(t, base, k);
        NoUpFromNowhere(t, base);
      } else {
        var i := k - |base| - 1;
        assert rest[i].Up? && p[..k] == base + rest[..i + 1];
      }
    }
    if LeavesNowhere(t, base, rest) {
      var i :| 0 <= i < |rest| && rest[i].Up? && !Exists(t, base + rest[..i + 1]);
      assert p[..|base| + i + 1] == base + rest[..i + 1];
      assert UpAt(t, p, |base| + i + 1);
    }
  }

  /**
   "Invalid path" is answered exactly to requests with a ".." that cannot be followed, be it
   that the name before it is missing; the pieces behind it do not matter.
   */
  lemma InvalidExactly(t: Tree, domain: string, relative: string)
    requires WellFormed(t) && Exists(t, Base(domain))
    ensures Judge(t, Base(domain), Candidate(domain, relative)) == InvalidPath
            <==> LeavesNowhere(t, Base(domain), Components(StripSlashes(relative)))
  {
    LocatedExactly(t, Candidate(domain, relative));
    NowhereInRequest(t, Base(domain), Components(StripSlashes(relative)));
  }

  // ---------------------------------------------------------------- the site root by name

  /** The site root of a domain that is one name. */
  lemma BaseNamed(domain: string)
    requires IsPlainName(domain)
    ensures Base(domain) == [Here(false)] + Names(["var", "www", domain])
  {
    hide Components, Names;
    var site := ["var", "www", domain];
    assert site[1..] == ["www", domain] && site[1..][1..] == [domain];
    assert AllPlainNames(site);
    SpelledComponents(site);
    assert Spelling([domain]) == domain && Spelling(["www", domain]) == "www" + "/" + domain;
    assert WEBROOT + "/" + domain == "/" + Spelling(site);
    LeadingSlash(Spelling(site));
  }

  lemma LeadingSlash(s: string)
    ensures Components("/" + s) == [Here(false)] + Components(s)
  {
    hide Components, FirstSlash;
    assert "" + "/" + s == "/" + s;
    SlashAfter("", s);
    ComponentsMeans("/" + s);
    assert ("/" + s)[1..] == s && ("/" + s)[..0] == "";
  }

  /** For a request of plain names, with any slashes in front, the candidate is the site root and these names. */
  lemma CandidateNamed(domain: string, slashes: string, names: Path)
    requires IsPlainName(domain) && names != [] && AllPlainNames(names)
    requires forall i | 0 <= i < |slashes| :: slashes[i] == '/'
    ensures Candidate(domain, slashes + Spelling(names)) == [Here(false)] + Names(["var", "www", domain] + names)
  {
    hide Components;
    BaseNamed(domain);
    SpelledComponents(names);
    SlashesStripped(slashes, Spelling(names));
    assert Names(["var", "www", domain]) + Names(names) == Names(["var", "www", domain] + names);
  }

  lemma {:induction false} SlashesStripped(slashes: string, s: string)
    requires forall i | 0 <= i < |slashes| :: slashes[i] == '/'
    requires s != "" && s[0] != '/'
    ensures StripSlashes(slashes + s) == s
  {
    if slashes == "" {
      assert slashes + s == s;
    } else {
      assert (slashes + s)[1..] == slashes[1..] + s;
      SlashesStripped(slashes[1..], s);
    }
  }

  lemma SlashNames(t: Tree, q: Path)
    requires WellFormed(t)
    ensures Resolve(t, [Here(false)] + Names(q)) == Resolve(t, Names(q))
  {
    assert ([Here(false)] + Names(q))[1..] == Names(q);
  }

  predicate RootWithoutLinks(t: Tree, domain: string) {
    !IsLink(t, ["var"]) && !IsLink(t, ["var", "www"]) && !IsLink(t, ["var", "www", domain])
  }

  /** Without a link at the site root every granted path lies below /var/www and the domain. */
  lemma GrantedInSite(t: Tree, domain: string, relative: string)
    requires WellFormed(t) && IsPlainName(domain)
    requires RootWithoutLinks(t, domain)
    ensures var outcome := Judge(t, Base(domain), Candidate(domain, relative));
            && (outcome == NoSiteRoot <==> ["var", "www", domain] !in t)
            && (outcome.Granted? ==> ["var", "www", domain] <= outcome.path)
  {
    hide Resolve, Locate, Components, Candidate;
    var site := ["var", "www", domain];
    BaseNamed(domain);
    SlashNames(t, site);
    assert site[..0] == [] && site[..1] == ["var"] && site[..2] == ["var", "www"];
    ResolveLinkFree(t, site);
  }

  lemma NamedSteps(q: Path)
    requires q != []
    ensures var p := [Here(false)] + Names(q);
            && TrimHere(p) == p && FileName(p) == Some(q[|q| - 1])
            && (|q| > 1 ==> Parent(p) == Some([Here(false)] + Names(q[..|q| - 1])))
  {
    var p := [Here(false)] + Names(q);
    assert p[|p| - 1] == Name(q[|q| - 1]);
    assert p[..|p| - 1] == [Here(false)] + Names(q[..|q| - 1]);
    if |q| > 1 {
      assert p[..|p| - 1][|q| - 1] == Name(q[|q| - 2]);
    }
  }

  /** Where no link is on the way, a path is located where its names say, be it there or not. */
  lemma {:induction false} LocatedLinkFree(t: Tree, q: Path, k: nat)
    requires WellFormed(t) && LinkFreeAbove(t, q) && !IsLink(t, q) && 0 < k <= |q| && q[..k] in t
    ensures Locate(t, [Here(false)] + Names(q)) == Some(q)
    decreases |q|
  {
    hide Resolve, Names, TrimHere, FileName, Parent;
    SlashNames(t, q);
    ResolveLinkFree(t, q);
    if q !in t {
      NamedSteps(q);
      var up := q[..|q| - 1];
      assert forall i | 0 <= i <= |up| :: up[..i] == q[..i];
      assert k < |q| by {
        assert q[..|q|] == q;
      }
      assert up[..|up|] == up && !IsLink(t, q[..|up|]);
      LocatedLinkFree(t, up, k);
      assert up + [q[|q| - 1]] == q;
    }
  }

  /** A request of plain names with no link on its way is granted, as it is spelled, in the domain's own directory. */
  lemma NamedRequestGranted(t: Tree, domain: string, slashes: string, names: Path)
    requires WellFormed(t) && IsPlainName(domain) && names != [] && AllPlainNames(names)
    requires forall i | 0 <= i < |slashes| :: slashes[i] == '/'
    requires var q := ["var", "www", domain] + names; LinkFreeAbove(t, q) && !IsLink(t, q)
    requires ["var", "www", domain] in t
    ensures Judge(t, Base(domain), Candidate(domain, slashes + Spelling(names)))
         == Granted(["var", "www", domain] + names)
  {
    hide Resolve, Locate, Components, Candidate, Names, Base;
    var site := ["var", "www", domain];
    var q := site + names;
    BaseNamed(domain);
    CandidateNamed(domain, slashes, names);
    SlashNames(t, site);
    assert q[..3] == site;
    forall i | 0 <= i <= |site| ensures !IsLink(t, site[..i]) {
      assert site[..i] == q[..i];
    }
    assert site[..|site|] == site;
    ResolveLinkFree(t, site);
    LocatedLinkFree(t, q, 3);
  }
}
