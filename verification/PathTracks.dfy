/**
 Path strings with place holders in them, and walks along a path whose links, if any, all
 lead over to the same place on a second path.
 */
module PathTracks {
  import opened Wrappers
  import opened FileSystem

  // ---------------------------------------------------------------- spelling

  function NamesIn(p: seq<Comp>): Path {
    if p == [] then [] else (if p[0].Name? then [p[0].name] else []) + NamesIn(p[1..])
  }

  /** Apart from place holders `p` is the path `q`. */
  predicate Spells(p: seq<Comp>, q: Path) {
    Up !in p && NamesIn(p) == q
  }

  lemma {:induction false} NamesInConcat(a: seq<Comp>, b: seq<Comp>)
    ensures NamesIn(a + b) == NamesIn(a) + NamesIn(b)
  {
    if a == [] {
      assert a + b == b;
    } else {
      assert (a + b)[1..] == a[1..] + b;
      NamesInConcat(a[1..], b);
    }
  }

  lemma SpellsConcat(a: seq<Comp>, p: Path, b: seq<Comp>, q: Path)
    requires Spells(a, p) && Spells(b, q)
    ensures Spells(a + b, p + q)
  {
    NamesInConcat(a, b);
  }

  lemma {:induction false} SpellsNames(q: Path)
    ensures Spells(Names(q), q)
  {
    if q != [] {
      assert Names(q)[1..] == Names(q[1..]);
      SpellsNames(q[1..]);
    }
  }

  lemma SpellsStep(rest: seq<Comp>, q: Path)
    requires Spells(rest, q) && rest != []
    ensures rest[0].Here? ==> Spells(rest[1..], q)
    ensures rest[0].Name? ==> q != [] && q[0] == rest[0].name && Spells(rest[1..], q[1..])
    ensures !rest[0].Up?
  {
  }

  /** A path string that ends in a name, and the part before it. */
  lemma SpellsLast(p: seq<Comp>, q: Path)
    requires Spells(p, q) && p != [] && p[|p| - 1].Name?
    ensures q != [] && p[|p| - 1].name == q[|q| - 1] && Spells(p[..|p| - 1], ParentOf(q))
  {
    NamesInConcat(p[..|p| - 1], [p[|p| - 1]]);
    assert p[..|p| - 1] + [p[|p| - 1]] == p;
  }

  lemma {:induction false} SpellsTrimmed(p: seq<Comp>, q: Path)
    requires Spells(p, q)
    ensures Spells(TrimHere(p), q)
    ensures q != [] ==> TrimHere(p) != [] && TrimHere(p)[|TrimHere(p)| - 1].Name?
  {
    if EndsHere(p) {
      NamesInConcat(p[..|p| - 1], [p[|p| - 1]]);
      assert p[..|p| - 1] + [p[|p| - 1]] == p;
      SpellsTrimmed(p[..|p| - 1], q);
    } else if p != [] {
      assert p[|p| - 1] in p;
    }
  }

  /** `Path::parent` of a path string is the parent of the path it spells. */
  lemma SpellsParent(p: seq<Comp>, q: Path)
    requires Spells(p, q) && q != []
    ensures Parent(p).Some? && Spells(Parent(p).value, ParentOf(q)) && !EndsHere(Parent(p).value)
  {
    SpellsTrimmed(p, q);
    var r := TrimHere(p);
    SpellsLast(r, q);
    SpellsTrimmed(r[..|r| - 1], ParentOf(q));
  }

  lemma {:induction false} SpellsNothing(p: seq<Comp>)
    requires Spells(p, []) && p != []
    ensures p[0].Here? && EndsHere(p)
  {
    if |p| > 1 {
      SpellsNothing(p[1..]);
    }
  }

  // ---------------------------------------------------------------- what the calls make of a trailing place holder

  /** mkdir and rmdir look through slashes at the end, but not through ".". */
  function TrimEmpty(p: seq<Comp>): (q: seq<Comp>)
    ensures q <= p && TrimHere(q) == TrimHere(p) && (forall i | |q| <= i < |p| :: p[i].Here?)
  {
    if p != [] && p[|p| - 1] == Here(false) then TrimEmpty(p[..|p| - 1]) else p
  }

  /** The last piece, slashes aside, is ".". */
  predicate Dotted(p: seq<Comp>) {
    EndsHere(TrimEmpty(p))
  }

  // ---------------------------------------------------------------- tracks

  /** An absolute link that says `p`, place holders aside. */
  predicate LeadsTo(node: Node, p: Path) {
    node.Link? && node.absolute && Spells(node.target, p)
  }

  /** The link at `q[..i]` leads to the same place on `alt`. */
  predicate Diverts(node: Node, q: Path, alt: Path, i: nat)
    requires |alt| <= |q| && i <= |q|
  {
    var d := |q| - |alt|;
    i > d && q[i..] == alt[i - d..] && LeadsTo(node, alt[..i - d])
  }

  /** Every link on `q` leads to the same place on `alt`, and every link on `alt` to itself. */
  ghost predicate Track(t: Tree, q: Path, alt: Path) {
    && |alt| <= |q|
    && (forall i | 0 <= i <= |q| && IsLink(t, q[..i]) :: Diverts(t[q[..i]], q, alt, i))
    && (forall i | 0 <= i <= |alt| && IsLink(t, alt[..i]) :: LeadsTo(t[alt[..i]], alt[..i]))
  }

  ghost predicate Crossed(t: Tree, q: Path) {
    exists i | 0 <= i <= |q| :: IsLink(t, q[..i])
  }

  lemma TrackOfAlt(t: Tree, q: Path, alt: Path)
    requires WellFormed(t) && Track(t, q, alt)
    ensures Track(t, alt, alt)
  {
    assert alt[..0] == [];
  }

  lemma DivertedTarget(q: Path, alt: Path, i: nat, m: nat, target: seq<Comp>, rest: seq<Comp>)
    requires |alt| <= |q| && |q| - |alt| < i <= m <= |q|
    requires q[i..] == alt[i - (|q| - |alt|)..] && Spells(target, alt[..i - (|q| - |alt|)]) && Spells(rest, q[i..m])
    ensures Spells(target + rest, alt[..m - (|q| - |alt|)])
  {
    var d := |q| - |alt|;
    assert q[i..m] == q[i..][..m - i] == alt[i - d..][..m - i] == alt[i - d..m - d];
    assert alt[..i - d] + alt[i - d..m - d] == alt[..m - d];
    SpellsConcat(target, alt[..i - d], rest, q[i..m]);
  }

  /** Where a walk along a track arrives after `m` names, if it does. */
  ghost function TrackEnd(t: Tree, q: Path, alt: Path, m: nat): Path
    requires |alt| <= |q| && m <= |q|
  {
    var d := |q| - |alt|;
    if exists i | 0 <= i <= m :: IsLink(t, q[..i]) then if m < d then [] else alt[..m - d] else q[..m]
  }

  /**
   A walk along a track stops or arrives: at the place itself if no link was met, and
   otherwise at the place on the second path.
   */
  lemma {:induction false} TrackWalk(t: Tree, q: Path, alt: Path, k: nat, m: nat, rest: seq<Comp>, links: nat)
    requires WellFormed(t) && |alt| <= |q| && Track(t, q, alt) && k <= m <= |q| && Spells(rest, q[k..m])
    requires forall i | 0 <= i <= k :: !IsLink(t, q[..i])
    ensures Walk(t, q[..k], rest, links) in {None, Some(TrackEnd(t, q, alt, m))}
    decreases links, |rest|
  {
    hide *;
    if rest == [] {
      TrackWalkEnd(t, q, alt, k, m, rest, links);
    } else {
      SpellsStep(rest, q[k..m]);
      if rest[0].Here? {
        WalkHere(t, q[..k], rest, links);
        TrackWalk(t, q, alt, k, m, rest[1..], links);
      } else {
        assert q[..k] + [rest[0].name] == q[..k + 1] && q[k..m][1..] == q[k + 1..m];
        WalkName(t, q[..k], rest, links);
        if !IsLink(t, q[..k + 1]) {
          TrackWalk(t, q, alt, k + 1, m, rest[1..], links);
        } else if links > 0 {
          TrackTurn(t, q, alt, k + 1, m, rest[1..]);
          assert alt[..0] == [];
          TrackWalk(t, alt, alt, 0, m - (|q| - |alt|), t[q[..k + 1]].target + rest[1..], links - 1);
        }
      }
    }
  }

  lemma WalkHere(t: Tree, cur: Path, rest: seq<Comp>, links: nat)
    requires rest != [] && rest[0].Here?
    ensures Walk(t, cur, rest, links) in {None, Walk(t, cur, rest[1..], links)}
  {
  }

  lemma WalkName(t: Tree, cur: Path, rest: seq<Comp>, links: nat)
    requires rest != [] && rest[0].Name?
    ensures var next := cur + [rest[0].name];
            Walk(t, cur, rest, links) in
              {None, if !IsLink(t, next) then Walk(t, next, rest[1..], links)
                     else if links == 0 then None
                     else Walk(t, if t[next].absolute then [] else cur, t[next].target + rest[1..], links - 1)}
  {
  }

  lemma TrackWalkEnd(t: Tree, q: Path, alt: Path, k: nat, m: nat, rest: seq<Comp>, links: nat)
    requires |alt| <= |q| && k <= m <= |q| && Spells(rest, q[k..m]) && rest == []
    requires forall i | 0 <= i <= k :: !IsLink(t, q[..i])
    ensures Walk(t, q[..k], rest, links) == Some(TrackEnd(t, q, alt, m))
  {
    assert |q[k..m]| == m - k;
  }

  lemma TrackTurn(t: Tree, q: Path, alt: Path, i: nat, m: nat, rest: seq<Comp>)
    requires WellFormed(t) && Track(t, q, alt) && i <= m <= |q| && Spells(rest, q[i..m])
    requires IsLink(t, q[..i])
    ensures var d := |q| - |alt|;
            && q[..i] in t && t[q[..i]].Link? && t[q[..i]].absolute
            && d < i && Track(t, alt, alt)
            && Spells(t[q[..i]].target + rest, alt[0..m - d])
            && TrackEnd(t, alt, alt, m - d) == TrackEnd(t, q, alt, m)
            && !IsLink(t, alt[..0])
  {
    var d := |q| - |alt|;
    assert Diverts(t[q[..i]], q, alt, i);
    DivertedTarget(q, alt, i, m, t[q[..i]].target, rest);
    TrackOfAlt(t, q, alt);
    assert alt[0..m - d] == alt[..m - d] && alt[..0] == [];
  }

  /** Resolution along a track. */
  lemma TrackResolve(t: Tree, q: Path, alt: Path, p: seq<Comp>)
    requires WellFormed(t) && Track(t, q, alt) && Spells(p, q)
    ensures var r := Resolve(t, p); r.Some? ==> r.value == if Crossed(t, q) then alt else q
  {
    assert q[..0] == [] && q[0..|q|] == q && q[..|q|] == q && alt[..|alt|] == alt;
    TrackWalk(t, q, alt, 0, |q|, p, LINK_BUDGET);
  }

  /** Where a link is crossed and the second path is a directory, the walk arrives there. */
  lemma {:induction false} TrackArrives(t: Tree, q: Path, alt: Path, k: nat, rest: seq<Comp>, links: nat)
    requires WellFormed(t) && |alt| <= |q| && Track(t, q, alt) && k <= |q| && Spells(rest, q[k..])
    requires IsDir(t, alt) && Crossed(t, q) && links > 0
    requires forall i | 0 <= i <= k :: !IsLink(t, q[..i])
    ensures Walk(t, q[..k], rest, links) == Some(alt)
    decreases |rest|
  {
    hide Walk, Spells, NamesIn, Diverts, Track, WellFormed;
    var i :| 0 <= i <= |q| && IsLink(t, q[..i]);
    DirsBeforeLink(t, q, i, k);
    if rest == [] {
      SpelledToEnd(rest, q, k);
    } else {
      SpellsStep(rest, q[k..]);
      assert rest[0].Name? ==> q[..k] + [rest[0].name] == q[..k + 1];
      WalkOn(t, q[..k], rest, links);
      if rest[0].Here? {
        TrackArrives(t, q, alt, k, rest[1..], links);
      } else {
        assert q[k..][1..] == q[k + 1..];
        if IsLink(t, q[..k + 1]) {
          assert q[k + 1..|q|] == q[k + 1..] && alt[0..|alt|] == alt[0..];
          TrackTurn(t, q, alt, k + 1, |q|, rest[1..]);
          DirsHaveNoLinks(t, alt);
          PrefixPresent(t, alt, 0);
          assert alt[..0] == [];
          StraightWalk(t, alt, 0, t[q[..k + 1]].target + rest[1..], links - 1);
        } else {
          DirsBeforeLink(t, q, i, k + 1);
          TrackArrives(t, q, alt, k + 1, rest[1..], links);
        }
      }
    }
  }

  lemma SpelledToEnd(rest: seq<Comp>, q: Path, k: nat)
    requires k <= |q| && Spells(rest, q[k..]) && rest == []
    ensures k == |q|
  {
    assert |q[k..]| == 0;
  }

  lemma DirsBeforeLink(t: Tree, q: Path, i: nat, k: nat)
    requires WellFormed(t) && i <= |q| && IsLink(t, q[..i]) && k <= |q|
    requires forall j | 0 <= j <= k :: !IsLink(t, q[..j])
    ensures k < i && IsDir(t, q[..k]) && q[..k + 1] in t
  {
    assert k < i;
    assert q[..i][..k] == q[..k] && q[..i][..k + 1] == q[..k + 1];
    PrefixPresent(t, q[..i], k);
    PrefixPresent(t, q[..i], k + 1);
  }

  /** One step of a walk that does not stop. */
  lemma WalkOn(t: Tree, cur: Path, rest: seq<Comp>, links: nat)
    requires rest != [] && IsDir(t, cur) && !rest[0].Up?
    requires rest[0].Name? ==> cur + [rest[0].name] in t
    ensures Walk(t, cur, rest, links) ==
      if rest[0].Here? then Walk(t, cur, rest[1..], links)
      else
        var next := cur + [rest[0].name];
        if !IsLink(t, next) then Walk(t, next, rest[1..], links)
        else if links == 0 then None
        else Walk(t, if t[next].absolute then [] else cur, t[next].target + rest[1..], links - 1)
  {
  }

  lemma TrackParent(t: Tree, q: Path, alt: Path)
    requires Track(t, q, alt)
    ensures Track(t, ParentOf(q), ParentOf(alt))
  {
    var up, over, d := ParentOf(q), ParentOf(alt), |q| - |alt|;
    forall i | 0 <= i <= |up| && IsLink(t, up[..i]) ensures Diverts(t[up[..i]], up, over, i) {
      assert up[..i] == q[..i];
      assert Diverts(t[q[..i]], q, alt, i);
      assert over[..i - d] == alt[..i - d];
      assert up[i..] == q[i..][..|up| - i] && over[i - d..] == alt[i - d..][..|up| - i];
    }
    forall i | 0 <= i <= |over| && IsLink(t, over[..i]) ensures LeadsTo(t[over[..i]], over[..i]) {
      assert over[..i] == alt[..i];
    }
  }

  /** Once a link is crossed, the two paths agree on what follows. */
  lemma SameLastName(t: Tree, q: Path, alt: Path)
    requires q != [] && Track(t, q, alt) && Crossed(t, ParentOf(q))
    ensures alt != [] && q[|q| - 1] == alt[|alt| - 1]
  {
    var i :| 0 <= i <= |ParentOf(q)| && IsLink(t, ParentOf(q)[..i]);
    assert ParentOf(q)[..i] == q[..i];
    assert Diverts(t[q[..i]], q, alt, i);
    var d := |q| - |alt|;
    assert q[i..][|q| - 1 - i] == q[|q| - 1] && alt[i - d..][|q| - 1 - i] == alt[|alt| - 1];
  }

  /** Where the last name of a path on a track lives. */
  lemma TrackSpot(t: Tree, q: Path, alt: Path, p: seq<Comp>)
    requires WellFormed(t) && q != [] && alt != [] && q[|q| - 1] == alt[|alt| - 1]
    requires Track(t, ParentOf(q), ParentOf(alt)) && Spells(p, q) && !EndsHere(p)
    ensures Spot(t, p) in {None, Some(if Crossed(t, ParentOf(q)) then alt else q)}
  {
    hide *;
    LastOfSpelled(p, q);
    TrackResolve(t, ParentOf(q), ParentOf(alt), p[..|p| - 1]);
    SpotAbove(t, p);
    assert ParentOf(q) + [q[|q| - 1]] == q && ParentOf(alt) + [alt[|alt| - 1]] == alt by {
      LastAdded(q);
      LastAdded(alt);
    }
  }

  lemma LastAdded(q: Path)
    requires q != []
    ensures ParentOf(q) + [q[|q| - 1]] == q
  {
  }

  lemma LastOfSpelled(p: seq<Comp>, q: Path)
    requires Spells(p, q) && q != [] && !EndsHere(p)
    ensures p != [] && p[|p| - 1] == Name(q[|q| - 1]) && Spells(p[..|p| - 1], ParentOf(q))
  {
    hide Spells, NamesIn;
    SpellsTrimmed(p, q);
    assert TrimHere(p) == p;
    SpellsLast(p, q);
  }

  lemma SpotAbove(t: Tree, p: seq<Comp>)
    requires p != [] && p[|p| - 1].Name?
    ensures var above := Resolve(t, p[..|p| - 1]);
            Spot(t, p) in {None, if above.Some? then Some(above.value + [p[|p| - 1].name]) else None}
  {
    hide Resolve;
  }

  // ---------------------------------------------------------------- without links

  ghost predicate NoLinks(t: Tree, q: Path) {
    forall i | 0 <= i <= |q| :: !IsLink(t, q[..i])
  }

  /** Every prefix of `q` that is there is a directory. */
  ghost predicate NothingInTheWay(t: Tree, q: Path) {
    forall i | 0 <= i <= |q| :: q[..i] in t ==> IsDir(t, q[..i])
  }

  lemma ParentWay(t: Tree, q: Path)
    requires NothingInTheWay(t, q)
    ensures NothingInTheWay(t, ParentOf(q)) && NoLinks(t, q)
  {
    if q != [] {
      assert forall i | 0 <= i <= |q| - 1 :: ParentOf(q)[..i] == q[..i];
    }
  }

  lemma NoLinksAbove(t: Tree, q: Path)
    requires NoLinks(t, q)
    ensures NoLinks(t, ParentOf(q)) && LinkFreeAbove(t, q) && !IsLink(t, q)
  {
    assert q[..|q|] == q;
    forall i | 0 <= i <= |ParentOf(q)| ensures ParentOf(q)[..i] == q[..i] {
    }
  }

  lemma DirsAreNotInTheWay(t: Tree, q: Path)
    requires WellFormed(t) && IsDir(t, q)
    ensures NothingInTheWay(t, q)
  {
    forall i | 0 <= i <= |q| ensures IsDir(t, q[..i]) {
      PrefixPresent(t, q, i);
      assert q[..|q|] == q;
    }
  }

  /** Without links a walk along a spelled path goes straight or stops. */
  lemma {:induction false} StraightWalk(t: Tree, q: Path, k: nat, rest: seq<Comp>, links: nat)
    requires WellFormed(t) && NoLinks(t, q) && k <= |q| && q[..k] in t && Spells(rest, q[k..])
    ensures var r := Walk(t, q[..k], rest, links);
            && (r.Some? ==> r.value == q && q in t)
            && (q in t && (IsDir(t, q) || !EndsHere(rest)) ==> r == Some(q))
    decreases |rest|
  {
    assert q[..|q|] == q;
    if rest != [] {
      SpellsStep(rest, q[k..]);
      if q in t {
        PrefixPresent(t, q, k);
      }
      assert !EndsHere(rest) && |rest| > 1 ==> !EndsHere(rest[1..]);
      if rest[0].Here? {
        if IsDir(t, q[..k]) {
          StraightWalk(t, q, k, rest[1..], links);
        } else if k == |q| {
          SpellsNothing(rest);
        }
      } else {
        assert q[..k] + [rest[0].name] == q[..k + 1] && q[k..][1..] == q[k + 1..];
        if q in t {
          PrefixPresent(t, q, k + 1);
        }
        if IsDir(t, q[..k]) && q[..k + 1] in t {
          StraightWalk(t, q, k + 1, rest[1..], links);
        }
      }
    }
  }

  lemma StraightResolve(t: Tree, q: Path, p: seq<Comp>)
    requires WellFormed(t) && NoLinks(t, q) && Spells(p, q)
    ensures Resolve(t, p).Some? ==> Resolve(t, p) == Some(q) && q in t
    ensures q in t && (IsDir(t, q) || !EndsHere(p)) ==> Resolve(t, p) == Some(q)
  {
    assert q[..0] == [] && q[0..] == q;
    StraightWalk(t, q, 0, p, LINK_BUDGET);
  }

  lemma StraightSpot(t: Tree, q: Path, p: seq<Comp>)
    requires WellFormed(t) && q != [] && NoLinks(t, ParentOf(q)) && Spells(p, q) && !EndsHere(p)
    ensures Spot(t, p) == if IsDir(t, ParentOf(q)) then Some(q) else None
  {
    hide Resolve, Walk, Spells, NamesIn, NoLinks;
    SpellsTrimmed(p, q);
    assert TrimHere(p) == p;
    SpellsLast(p, q);
    StraightResolve(t, ParentOf(q), p[..|p| - 1]);
    assert ParentOf(q) + [q[|q| - 1]] == q;
  }

  lemma DirsHaveNoLinks(t: Tree, q: Path)
    requires WellFormed(t) && IsDir(t, q)
    ensures NoLinks(t, q)
  {
    forall i | 0 <= i <= |q| ensures !IsLink(t, q[..i]) {
      PrefixPresent(t, q, i);
      assert q[..|q|] == q;
    }
  }
}
