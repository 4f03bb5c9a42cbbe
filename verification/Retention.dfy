/**
 Retention by name: keep the N greatest names, delete the rest. Three places of the agent
 do this: the release prune of `atomic_deploy` (panel/agent/src/services/deploy.rs), the
 S3 prune (panel/agent/src/routes/remote_backup.rs) and the panel's own database dumps
 (`db_backup` in panel/agent/src/routes/security.rs).
 */
module Retention {
  import opened Text

  // ---------------------------------------------------------------- the order of names

  /** `String::cmp`: lexicographic by code point, which is also the order of the UTF-8 bytes. */
  predicate Less(a: string, b: string) {
    b != "" && (a == "" || a[0] < b[0] || (a[0] == b[0] && Less(a[1..], b[1..])))
  }

  lemma {:induction false} LessTransitive(a: string, b: string, c: string)
    requires Less(a, b) && Less(b, c)
    ensures Less(a, c)
  {
    if a != "" && a[0] == b[0] && b[0] == c[0] {
      LessTransitive(a[1..], b[1..], c[1..]);
    }
  }

  lemma {:induction false} LessTotal(a: string, b: string)
    ensures Less(a, b) || a == b || Less(b, a)
    ensures !(Less(a, b) && Less(b, a)) && !Less(a, a)
  {
    if a != "" && b != "" && a[0] == b[0] {
      LessTotal(a[1..], b[1..]);
      if a[1..] == b[1..] {
        assert a == [a[0]] + a[1..] && b == [b[0]] + b[1..];
      }
    }
    if a != "" {
      LessTotal(a[1..], a[1..]);
    }
  }

  predicate Ascending(s: seq<string>) {
    forall i, j | 0 <= i < j < |s| :: Less(s[i], s[j])
  }

  function Elements(s: seq<string>): set<string> {
    set x | x in s
  }

  /** Insertion of a new name into an ascending list. */
  method Insert(s: seq<string>, x: string) returns (r: seq<string>)
    requires Ascending(s) && x !in s
    ensures Ascending(r) && Elements(r) == Elements(s) + {x} && |r| == |s| + 1
  {
    var i := 0;
    while i < |s| && Less(s[i], x)
      invariant 0 <= i <= |s|
      invariant forall k | 0 <= k < i :: Less(s[k], x)
    {
      i := i + 1;
    }
    forall k | i <= k < |s| ensures Less(x, s[k]) {
      LessTotal(x, s[i]);
      if k > i {
        LessTransitive(x, s[i], s[k]);
      }
    }
    r := s[..i] + [x] + s[i..];
    InsertElements(s, i, x);
  }

  lemma InsertElements(s: seq<string>, i: nat, x: string)
    requires i <= |s|
    ensures Elements(s[..i] + [x] + s[i..]) == Elements(s) + {x}
  {
    assert s == s[..i] + s[i..];
    forall y ensures y in s[..i] + [x] + s[i..] <==> y in s || y == x {
    }
  }

  /** A directory listing or key listing, in any order, sorted. */
  method Sort(names: set<string>) returns (r: seq<string>)
    ensures Ascending(r) && Elements(r) == names && |r| == |names|
  {
    r := [];
    var rest := names;
    while rest != {}
      invariant Ascending(r) && Elements(r) == names - rest && rest <= names
      invariant |r| + |rest| == |names|
      decreases rest
    {
      var x :| x in rest;
      assert x !in r by { assert x !in Elements(r); }
      r := Insert(r, x);
      rest := rest - {x};
    }
  }

  // ---------------------------------------------------------------- the survivors

  function Above(names: set<string>, n: string): set<string> {
    set m | m in names && Less(n, m)
  }

  /** `n` is one of the `keep` greatest names. */
  predicate Survives(names: set<string>, n: string, keep: nat) {
    n in names && |Above(names, n)| < keep
  }

  function Survivors(names: set<string>, keep: nat): set<string> {
    set n | n in names && Survives(names, n, keep)
  }

  lemma AscendingDistinct(s: seq<string>)
    requires Ascending(s)
    ensures forall i, j | 0 <= i < j < |s| :: s[i] != s[j]
  {
    forall i, j | 0 <= i < j < |s| ensures s[i] != s[j] {
      LessTotal(s[i], s[i]);
    }
  }

  lemma {:induction false} AscendingSize(s: seq<string>)
    requires Ascending(s)
    ensures |Elements(s)| == |s|
  {
    if s != [] {
      var init, last := s[..|s| - 1], s[|s| - 1];
      AscendingSize(init);
      AscendingDistinct(s);
      assert Elements(s) == Elements(init) + {last};
    }
  }

  /** In an ascending list the number of greater names is the distance to the end. */
  lemma AboveCount(s: seq<string>, i: nat)
    requires Ascending(s) && i < |s|
    ensures |Above(Elements(s), s[i])| == |s| - 1 - i
  {
    var tail := s[i + 1..];
    AscendingSize(tail);
    forall m ensures m in Above(Elements(s), s[i]) <==> m in tail {
      if m in Elements(s) && Less(s[i], m) {
        var k :| 0 <= k < |s| && s[k] == m;
        LessTotal(s[i], s[k]);
        assert k > i;
        assert tail[k - i - 1] == m;
      }
    }
    assert Above(Elements(s), s[i]) == Elements(tail);
  }

  lemma SurvivesByRank(s: seq<string>, keep: nat)
    requires Ascending(s)
    ensures forall i | 0 <= i < |s| :: Survives(Elements(s), s[i], keep) <==> |s| - i <= keep
  {
    forall i | 0 <= i < |s| ensures Survives(Elements(s), s[i], keep) <==> |s| - i <= keep {
      AboveCount(s, i);
    }
  }

  /** The prune never leaves fewer than `keep` names when there were that many. */
  lemma SurvivorCount(s: seq<string>, keep: nat)
    requires Ascending(s)
    ensures |Survivors(Elements(s), keep)| == if |s| < keep then |s| else keep
  {
    var cut := if |s| > keep then |s| - keep else 0;
    var tail := s[cut..];
    SurvivesByRank(s, keep);
    AscendingSize(tail);
    forall n ensures n in Survivors(Elements(s), keep) <==> n in tail {
      if n in Survivors(Elements(s), keep) {
        var i :| 0 <= i < |s| && s[i] == n;
        assert tail[i - cut] == n;
      }
    }
    assert Survivors(Elements(s), keep) == Elements(tail);
  }

  /** What a prune leaves of `names` when the deletions of `stuck` fail. */
  function Left(names: set<string>, keep: nat, stuck: set<string>): set<string> {
    set n | n in names && (Survives(names, n, keep) || n in stuck)
  }

  lemma LeftSize(s: seq<string>, keep: nat, stuck: set<string>)
    requires Ascending(s)
    ensures |Left(Elements(s), keep, stuck)| >= if |s| < keep then |s| else keep
  {
    SurvivorCount(s, keep);
    SubsetSize(Survivors(Elements(s), keep), Left(Elements(s), keep, stuck));
  }

  /**
   `for old in releases.iter().take(len - keep)`: after an ascending sort the first names
   are deleted. `stuck` are the names whose deletion fails; the failure is ignored.
   */
  method PruneAscending(names: set<string>, keep: nat, stuck: set<string>) returns (left: set<string>)
    ensures left == Left(names, keep, stuck)
    ensures |left| >= if |names| < keep then |names| else keep
  {
    var sorted := Sort(names);
    left := names;
    AscendingDistinct(sorted);
    SurvivesByRank(sorted, keep);
    LeftSize(sorted, keep, stuck);
    var toRemove := if |sorted| > keep then |sorted| - keep else 0;
    var i := 0;
    while i < toRemove
      invariant 0 <= i <= toRemove
      invariant left <= names
      invariant forall k | 0 <= k < |sorted| :: sorted[k] in left <==> k >= i || sorted[k] in stuck
    {
      if sorted[i] !in stuck {
        left := left - {sorted[i]};
      }
      i := i + 1;
    }
    LeftByRank(sorted, keep, stuck, left);
  }

  lemma LeftByRank(s: seq<string>, keep: nat, stuck: set<string>, left: set<string>)
    requires Ascending(s) && left <= Elements(s)
    requires forall k | 0 <= k < |s| :: s[k] in left <==> |s| - k <= keep || s[k] in stuck
    ensures left == Left(Elements(s), keep, stuck)
  {
    SurvivesByRank(s, keep);
    forall n | n in Elements(s) ensures n in left <==> n in Left(Elements(s), keep, stuck) {
      var k :| 0 <= k < |s| && s[k] == n;
    }
  }

  lemma SubsetSize(a: set<string>, b: set<string>)
    requires a <= b
    ensures |a| <= |b|
  {
    assert b == a + (b - a);
  }

  function Reversed(s: seq<string>): (r: seq<string>)
    ensures |r| == |s| && forall i | 0 <= i < |s| :: r[i] == s[|s| - 1 - i]
  {
    if s == [] then [] else [s[|s| - 1]] + Reversed(s[..|s| - 1])
  }

  /**
   `for key in &keys[retention..]` and `files.iter().skip(7)`: after a descending sort the
   tail is deleted; `pruned` counts the deletions that worked.
   */
  method PruneDescending(names: set<string>, keep: nat, stuck: set<string>)
      returns (left: set<string>, pruned: nat)
    ensures left == Left(names, keep, stuck)
    ensures pruned == |names - left|
    ensures |left| >= if |names| < keep then |names| else keep
  {
    var ascending := Sort(names);
    LeftSize(ascending, keep, stuck);
    left, pruned := DropTail(ascending, keep, stuck);
    SubsetSize(left, names);
    assert names == left + (names - left);
  }

  method DropTail(ascending: seq<string>, keep: nat, stuck: set<string>) returns (left: set<string>, pruned: nat)
    requires Ascending(ascending)
    ensures left == Left(Elements(ascending), keep, stuck)
    ensures pruned + |left| == |Elements(ascending)|
  {
    var sorted := Reversed(ascending);
    left, pruned := Elements(ascending), 0;
    ReversedDistinct(ascending);
    var i := keep;
    while i < |sorted|
      invariant keep <= i
      invariant left <= Elements(ascending) && pruned + |left| == |Elements(ascending)|
      invariant forall k | 0 <= k < |sorted| :: sorted[k] in left <==> k < keep || k >= i || sorted[k] in stuck
      decreases |sorted| - i
    {
      if sorted[i] !in stuck {
        left := left - {sorted[i]};
        pruned := pruned + 1;
      }
      i := i + 1;
    }
    forall k | 0 <= k < |ascending| ensures ascending[k] in left <==> |ascending| - k <= keep || ascending[k] in stuck {
      assert ascending[k] == sorted[|ascending| - 1 - k];
    }
    LeftByRank(ascending, keep, stuck, left);
  }

  lemma ReversedDistinct(s: seq<string>)
    requires Ascending(s)
    ensures forall i, j | 0 <= i < j < |s| :: Reversed(s)[i] != Reversed(s)[j]
    ensures forall i | 0 <= i < |s| :: Reversed(s)[i] in s
  {
    AscendingDistinct(s);
  }

  // ---------------------------------------------------------------- names that are timestamps

  lemma {:induction false} LessOfPrefix(a: string, b: string, x: char, y: char)
    requires |a| == |b|
    ensures Less(a + [x], b + [y]) <==> Less(a, b) || (a == b && x < y)
  {
    if a == "" {
      assert a + [x] == [x] && b + [y] == [y];
    } else {
      assert (a + [x])[1..] == a[1..] + [x] && (b + [y])[1..] == b[1..] + [y];
      LessOfPrefix(a[1..], b[1..], x, y);
      assert a == b <==> a[0] == b[0] && a[1..] == b[1..] by {
        assert a == [a[0]] + a[1..] && b == [b[0]] + b[1..];
      }
    }
  }

  /** For ids of one width made of digits, the order of the strings is the order of the numbers. */
  lemma {:induction false} FixedWidthOrder(a: string, b: string)
    requires AllDigits(a) && AllDigits(b) && |a| == |b|
    ensures Less(a, b) <==> NumberOf(a) < NumberOf(b)
    ensures a == b <==> NumberOf(a) == NumberOf(b)
  {
    if a != "" {
      var n := |a| - 1;
      assert a == a[..n] + [a[n]] && b == b[..n] + [b[n]];
      FixedWidthOrder(a[..n], b[..n]);
      LessOfPrefix(a[..n], b[..n], a[n], b[n]);
    }
  }

  /** So the survivors of a prune are the newest: every deleted id is older than every survivor. */
  lemma SurvivorsAreNewest(names: set<string>, keep: nat, gone: string, kept: string)
    requires forall n | n in names :: AllDigits(n) && |n| == 14
    requires gone in names && !Survives(names, gone, keep) && Survives(names, kept, keep)
    ensures NumberOf(gone) < NumberOf(kept)
  {
    LessTotal(gone, kept);
    if Less(kept, gone) {
      forall m | m in Above(names, gone) ensures m in Above(names, kept) {
        LessTransitive(kept, gone, m);
      }
      SubsetSize(Above(names, gone), Above(names, kept));
    }
    FixedWidthOrder(gone, kept);
  }
}
