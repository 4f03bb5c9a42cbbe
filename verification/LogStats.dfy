/**
 The aggregation of nginx access log lines (`log_stats` in panel/agent/src/routes/logs.rs). The
 log is cut to its last 50000 lines before, so no counter comes near its range.
 */
module LogStats {
  import opened Wrappers
  import opened Text
  import opened Lines

  // ---------------------------------------------------------------- what a line says

  /** The first word behind the first quote followed by a space; a line with no such place says nothing. */
  function StatusOf(l: string): Option<string> {
    match PieceAfter(l, "\" ")
    case None => None
    case Some(rest) => Some(if Words(rest) == [] then "" else Words(rest)[0])
  }

  predicate IsError(status: string) {
    StartsWith(status, "5")
  }

  /** From the date behind the first bracket, what is between its first two colons. */
  function HourOf(l: string): Option<string> {
    match PieceAfter(l, "[")
    case None => None
    case Some(date) =>
      match PieceAfter(date, ":")
      case None => None
      case Some(time) => Some(time + ":00")
  }

  /** The path of the request, without its query, unless it is one of those not counted. */
  function UrlOf(l: string): Option<string> {
    match PieceAfter(l, "\"")
    case None => None
    case Some(request) =>
      if |Words(request)| < 2 then None
      else
        var path := Words(request)[1];
        var clean := path[..FirstChar(path, '?')];
        if clean == "/favicon.ico" || StartsWith(clean, "/api/") then None else Some(clean)
  }

  predicate IsNonEmpty(l: string) { l != "" }

  predicate HasStatus(l: string) { l != "" && StatusOf(l).Some? }

  predicate HasErrorStatus(l: string) { HasStatus(l) && IsError(StatusOf(l).value) }

  predicate HasErrorHour(l: string) { HasErrorStatus(l) && HourOf(l).Some? }

  function WithStatus(s: string): string -> bool {
    l => HasStatus(l) && StatusOf(l).value == s
  }

  function WithHour(h: string): string -> bool {
    l => HasErrorHour(l) && HourOf(l).value == h
  }

  function WithUrl(u: string): string -> bool {
    l => l != "" && UrlOf(l) == Some(u)
  }

  function NumberWith(lines: seq<string>, p: string -> bool): nat {
    |Keep(lines, p)|
  }

  // ---------------------------------------------------------------- counting maps

  type Counts = map<string, nat>

  /** `*map.entry(key).or_insert(0) += 1`. */
  function Bump(m: Counts, key: string): Counts {
    m[key := (if key in m then m[key] else 0) + 1]
  }

  function CountIn(m: Counts, key: string): nat {
    if key in m then m[key] else 0
  }

  function All(): string -> bool { key => true }

  ghost function SumOf(m: Counts, keys: set<string>, p: string -> bool): nat
    requires keys <= m.Keys
  {
    if keys == {} then 0
    else
      var key :| key in keys;
      (if p(key) then m[key] else 0) + SumOf(m, keys - {key}, p)
  }

  lemma {:induction false} SumPick(m: Counts, keys: set<string>, p: string -> bool, key: string)
    requires keys <= m.Keys && key in keys
    ensures SumOf(m, keys, p) == (if p(key) then m[key] else 0) + SumOf(m, keys - {key}, p)
    decreases keys
  {
    var first :| first in keys && SumOf(m, keys, p) == (if p(first) then m[first] else 0) + SumOf(m, keys - {first}, p);
    if first != key {
      SumPick(m, keys - {first}, p, key);
      SumPick(m, keys - {key}, p, first);
      assert keys - {first} - {key} == keys - {key} - {first};
    }
  }

  lemma {:induction false} SumSame(a: Counts, b: Counts, keys: set<string>, p: string -> bool)
    requires keys <= a.Keys && keys <= b.Keys && forall key | key in keys :: a[key] == b[key]
    ensures SumOf(a, keys, p) == SumOf(b, keys, p)
    decreases keys
  {
    if keys != {} {
      var key :| key in keys;
      SumPick(a, keys, p, key);
      SumPick(b, keys, p, key);
      SumSame(a, b, keys - {key}, p);
    }
  }

  ghost function Sum(m: Counts, p: string -> bool): nat {
    SumOf(m, m.Keys, p)
  }

  /** One more is one more in the sum over the kind of key. */
  lemma SumBump(m: Counts, key: string, p: string -> bool)
    ensures Sum(Bump(m, key), p) == Sum(m, p) + (if p(key) then 1 else 0)
  {
    var b := Bump(m, key);
    SumPick(b, b.Keys, p, key);
    assert b.Keys - {key} == m.Keys - {key};
    SumSame(m, b, m.Keys - {key}, p);
    if key in m {
      SumPick(m, m.Keys, p, key);
    } else {
      assert m.Keys - {key} == m.Keys;
    }
  }

  // ---------------------------------------------------------------- the loop

  datatype Tally = Tally(total: nat, statuses: Counts, urls: Counts, hours: Counts)

  function Next(t: Tally, l: string): Tally {
    if l == "" then t
    else
      var t1 := t.(total := t.total + 1);
      var t2 := if StatusOf(l).Some? then t1.(statuses := Bump(t1.statuses, StatusOf(l).value)) else t1;
      var t3 := if StatusOf(l).Some? && IsError(StatusOf(l).value) && HourOf(l).Some?
                then t2.(hours := Bump(t2.hours, HourOf(l).value)) else t2;
      if UrlOf(l).Some? then t3.(urls := Bump(t3.urls, UrlOf(l).value)) else t3
  }

  /** What the counters say about the lines read so far. */
  ghost predicate Counted(t: Tally, lines: seq<string>) {
    && t.total == NumberWith(lines, IsNonEmpty)
    && (forall s :: CountIn(t.statuses, s) == NumberWith(lines, WithStatus(s)))
    && (forall u :: CountIn(t.urls, u) == NumberWith(lines, WithUrl(u)))
    && (forall h :: CountIn(t.hours, h) == NumberWith(lines, WithHour(h)))
    && Sum(t.statuses, All()) == NumberWith(lines, HasStatus)
    && Sum(t.statuses, IsError) == NumberWith(lines, HasErrorStatus)
    && Sum(t.hours, All()) == NumberWith(lines, HasErrorHour)
    && (forall u | u in t.urls :: t.urls[u] > 0)
  }

  lemma OneMoreLine(lines: seq<string>, l: string, p: string -> bool)
    ensures NumberWith(lines + [l], p) == NumberWith(lines, p) + (if p(l) then 1 else 0)
  {
    KeepConcat(lines, [l], p);
    assert Keep([l], p) == if p(l) then [l] else [];
  }

  lemma StatusStep(m: Counts, lines: seq<string>, l: string)
    requires forall s :: CountIn(m, s) == NumberWith(lines, WithStatus(s))
    requires Sum(m, All()) == NumberWith(lines, HasStatus) && Sum(m, IsError) == NumberWith(lines, HasErrorStatus)
    ensures var n := if HasStatus(l) then Bump(m, StatusOf(l).value) else m;
            && (forall s :: CountIn(n, s) == NumberWith(lines + [l], WithStatus(s)))
            && Sum(n, All()) == NumberWith(lines + [l], HasStatus)
            && Sum(n, IsError) == NumberWith(lines + [l], HasErrorStatus)
  {
    hide StatusOf, NumberWith;
    OneMoreLine(lines, l, HasStatus);
    OneMoreLine(lines, l, HasErrorStatus);
    forall s ensures NumberWith(lines + [l], WithStatus(s)) ==
        NumberWith(lines, WithStatus(s)) + (if WithStatus(s)(l) then 1 else 0)
    {
      OneMoreLine(lines, l, WithStatus(s));
    }
    if HasStatus(l) {
      SumBump(m, StatusOf(l).value, All());
      SumBump(m, StatusOf(l).value, IsError);
    }
  }

  lemma HourStep(m: Counts, lines: seq<string>, l: string)
    requires (forall h :: CountIn(m, h) == NumberWith(lines, WithHour(h)))
               && Sum(m, All()) == NumberWith(lines, HasErrorHour)
    ensures var n := if HasErrorHour(l) then Bump(m, HourOf(l).value) else m;
            && (forall h :: CountIn(n, h) == NumberWith(lines + [l], WithHour(h)))
            && Sum(n, All()) == NumberWith(lines + [l], HasErrorHour)
  {
    hide HourOf, HasErrorStatus, NumberWith;
    OneMoreLine(lines, l, HasErrorHour);
    forall h ensures NumberWith(lines + [l], WithHour(h)) ==
        NumberWith(lines, WithHour(h)) + (if WithHour(h)(l) then 1 else 0)
    {
      OneMoreLine(lines, l, WithHour(h));
    }
    if HasErrorHour(l) {
      SumBump(m, HourOf(l).value, All());
    }
  }

  lemma UrlStep(m: Counts, lines: seq<string>, l: string)
    requires (forall u :: CountIn(m, u) == NumberWith(lines, WithUrl(u))) && forall u | u in m :: m[u] > 0
    ensures var n := if l != "" && UrlOf(l).Some? then Bump(m, UrlOf(l).value) else m;
            (forall u :: CountIn(n, u) == NumberWith(lines + [l], WithUrl(u))) && forall u | u in n :: n[u] > 0
  {
    hide UrlOf, NumberWith;
    forall u ensures NumberWith(lines + [l], WithUrl(u)) ==
        NumberWith(lines, WithUrl(u)) + (if WithUrl(u)(l) then 1 else 0)
    {
      OneMoreLine(lines, l, WithUrl(u));
    }
  }

  lemma CountedNext(t: Tally, lines: seq<string>, l: string)
    requires Counted(t, lines)
    ensures Counted(Next(t, l), lines + [l])
  {
    hide StatusOf, HourOf, UrlOf, NumberWith, Sum, CountIn, Bump;
    OneMoreLine(lines, l, IsNonEmpty);
    StatusStep(t.statuses, lines, l);
    HourStep(t.hours, lines, l);
    UrlStep(t.urls, lines, l);
  }

  lemma NothingCounted()
    ensures Counted(Tally(0, map[], map[], map[]), [])
  {
  }

  method TallyLines(content: string) returns (t: Tally)
    ensures Counted(t, Split(content))
  {
    hide Split, Counted, StatusOf, HourOf, UrlOf, Bump;
    var lines := Split(content);
    t := Tally(0, map[], map[], map[]);
    NothingCounted();
    assert lines[..0] == [];
    var i := 0;
    while i < |lines|
      invariant 0 <= i <= |lines|
      invariant Counted(t, lines[..i])
    {
      var line := lines[i];
      CountedNext(t, lines[..i], line);
      assert lines[..i + 1] == lines[..i] + [line];
      i := i + 1;
      ghost var before := t;
      if line == "" {
        continue;
      }
      t := t.(total := t.total + 1);
      var status := StatusOf(line);
      if status.Some? {
        t := t.(statuses := Bump(t.statuses, status.value));
        if IsError(status.value) {
          var hour := HourOf(line);
          if hour.Some? {
            t := t.(hours := Bump(t.hours, hour.value));
          }
        }
      }
      var url := UrlOf(line);
      if url.Some? {
        t := t.(urls := Bump(t.urls, url.value));
      }
      assert t == Next(before, line);
    }
    assert lines[..|lines|] == lines;
  }

  // ---------------------------------------------------------------- the five hundreds

  /** `status_map.iter().filter(...).map(...).sum()`. */
  method SumErrors(m: Counts) returns (sum: nat)
    ensures sum == Sum(m, IsError)
  {
    sum := 0;
    var rest := m.Keys;
    while rest != {}
      invariant rest <= m.Keys
      invariant sum + SumOf(m, rest, IsError) == Sum(m, IsError)
      decreases rest
    {
      var key :| key in rest;
      SumPick(m, rest, IsError, key);
      if IsError(key) {
        sum := sum + m[key];
      }
      rest := rest - {key};
    }
  }

  // ---------------------------------------------------------------- the top ten

  predicate Descending(m: Counts, s: seq<string>) {
    && (forall i | 0 <= i < |s| :: s[i] in m)
    && (forall i, j | 0 <= i < j < |s| :: m[s[i]] >= m[s[j]] && s[i] != s[j])
  }

  /** One more key at its place. */
  method Insert(m: Counts, s: seq<string>, key: string) returns (r: seq<string>)
    requires Descending(m, s) && key in m && key !in s
    ensures Descending(m, r) && (forall k :: k in r <==> k in s || k == key) && |r| == |s| + 1
  {
    var i := 0;
    while i < |s| && m[s[i]] >= m[key]
      invariant 0 <= i <= |s| && forall k | 0 <= k < i :: m[s[k]] >= m[key]
    {
      i := i + 1;
    }
    r := s[..i] + [key] + s[i..];
    Inserted(m, s, key, i);
  }

  function At(s: seq<string>, key: string, i: nat, k: nat): string
    requires i <= |s| && k <= |s|
  {
    if k < i then s[k] else if k == i then key else s[k - 1]
  }

  lemma InOrder(m: Counts, s: seq<string>, key: string, i: nat, a: nat, b: nat)
    requires Descending(m, s) && key in m && key !in s && i <= |s| && a < b <= |s|
    requires (forall k | 0 <= k < i :: m[s[k]] >= m[key]) && (i < |s| ==> m[s[i]] < m[key])
    ensures At(s, key, i, a) in m && At(s, key, i, b) in m
    ensures m[At(s, key, i, a)] >= m[At(s, key, i, b)] && At(s, key, i, a) != At(s, key, i, b)
  {
    if b > i {
      assert m[s[i]] >= m[s[b - 1]];
    }
  }

  lemma InsertedKeys(s: seq<string>, key: string, i: nat)
    requires i <= |s|
    ensures forall k :: k in s[..i] + [key] + s[i..] <==> k in s || k == key
  {
    assert s == s[..i] + s[i..];
  }

  lemma Inserted(m: Counts, s: seq<string>, key: string, i: nat)
    requires Descending(m, s) && key in m && key !in s && i <= |s|
    requires (forall k | 0 <= k < i :: m[s[k]] >= m[key]) && (i < |s| ==> m[s[i]] < m[key])
    ensures var r := s[..i] + [key] + s[i..];
            Descending(m, r) && (forall k :: k in r <==> k in s || k == key)
  {
    var r := s[..i] + [key] + s[i..];
    assert forall k | 0 <= k < |r| :: r[k] == At(s, key, i, k);
    InsertedKeys(s, key, i);
    forall a, b | 0 <= a < b < |r| ensures m[r[a]] >= m[r[b]] && r[a] != r[b] {
      InOrder(m, s, key, i, a, b);
    }
  }

  method SortByCount(m: Counts) returns (s: seq<string>)
    ensures Descending(m, s) && (forall k :: k in s <==> k in m) && |s| == |m|
  {
    s := [];
    var rest := m.Keys;
    while rest != {}
      invariant rest <= m.Keys && Descending(m, s)
      invariant forall k :: k in s <==> k in m.Keys - rest
      invariant |s| + |rest| == |m.Keys|
      decreases rest
    {
      var key :| key in rest;
      s := Insert(m, s, key);
      rest := rest - {key};
    }
  }

  const TOP: nat := 10

  /** Ten keys, or all there are: none left out has a greater count than one listed. */
  ghost predicate TopOf(m: Counts, top: seq<string>) {
    && Descending(m, top)
    && |top| == (if |m| < TOP then |m| else TOP)
    && forall out, i | out in m && out !in top && 0 <= i < |top| :: m[out] <= m[top[i]]
  }

  method TopTen(m: Counts) returns (top: seq<string>)
    ensures TopOf(m, top)
  {
    var sorted := SortByCount(m);
    top := if |sorted| > TOP then sorted[..TOP] else sorted;
    forall out, i | out in m && out !in top && 0 <= i < |top| ensures m[out] <= m[top[i]] {
      var k :| 0 <= k < |sorted| && sorted[k] == out;
      forall j | 0 <= j < |top| ensures sorted[j] in top {
        assert top[j] == sorted[j];
      }
    }
  }

  // ---------------------------------------------------------------- the report

  datatype Report = Report(total: nat, statuses: Counts, top: seq<(string, nat)>, errors: nat, hours: Counts)

  /** `log_stats` on the text of a log. */
  method Summarize(content: string) returns (r: Report)
    ensures var lines := Split(content);
            && r.total == NumberWith(lines, IsNonEmpty)
            && (forall s :: CountIn(r.statuses, s) == NumberWith(lines, WithStatus(s)))
            && Sum(r.statuses, All()) == NumberWith(lines, HasStatus)
            && r.errors == NumberWith(lines, HasErrorStatus)
            && (forall h :: CountIn(r.hours, h) == NumberWith(lines, WithHour(h)))
            && Sum(r.hours, All()) == NumberWith(lines, HasErrorHour) <= r.errors
            && |r.top| <= TOP
            && (forall i | 0 <= i < |r.top| :: r.top[i].1 == NumberWith(lines, WithUrl(r.top[i].0)) > 0)
            && (forall u | NumberWith(lines, WithUrl(u)) > 0 && Missing(r.top, u) ::
                  |r.top| == TOP && forall i | 0 <= i < |r.top| :: NumberWith(lines, WithUrl(u)) <= r.top[i].1)
  {
    hide Split, NumberWith, Sum;
    var t := TallyLines(content);
    var errors := SumErrors(t.statuses);
    var top := TopTen(t.urls);
    HoursAtMostErrors(Split(content));
    r := Report(t.total, t.statuses, Pairs(t.urls, top), errors, t.hours);
    forall u | CountIn(t.urls, u) > 0 && Missing(r.top, u)
      ensures |r.top| == 10 && forall i | 0 <= i < |r.top| :: CountIn(t.urls, u) <= r.top[i].1
    {
      AllListed(t.urls, top, u);
    }
  }

  predicate Missing(top: seq<(string, nat)>, u: string) {
    forall i | 0 <= i < |top| :: top[i].0 != u
  }

  function Pairs(m: Counts, keys: seq<string>): (r: seq<(string, nat)>)
    requires forall i | 0 <= i < |keys| :: keys[i] in m
    ensures |r| == |keys| && forall i | 0 <= i < |r| :: r[i] == (keys[i], m[keys[i]])
  {
    if keys == [] then [] else [(keys[0], m[keys[0]])] + Pairs(m, keys[1..])
  }

  /** A key can be missing only from a full list. */
  lemma AllListed(m: Counts, top: seq<string>, u: string)
    requires TopOf(m, top) && u in m && Missing(Pairs(m, top), u)
    ensures |top| == 10 && u !in top
  {
    assert u !in top by {
      forall i | 0 <= i < |top| ensures top[i] != u {
        assert Pairs(m, top)[i].0 == top[i];
      }
    }
    if |m| < TOP {
      var listed := set k | k in top;
      DistinctSize(m, top);
      assert listed + {u} <= m.Keys;
      SetSize(listed + {u}, m.Keys);
    }
  }

  lemma SetSize(a: set<string>, b: set<string>)
    requires a <= b
    ensures |a| <= |b|
  {
    assert b == a + (b - a);
  }

  lemma {:induction false} DistinctSize(m: Counts, s: seq<string>)
    requires Descending(m, s)
    ensures |set k | k in s| == |s|
    decreases |s|
  {
    if s != [] {
      var init, last := s[..|s| - 1], s[|s| - 1];
      DistinctSize(m, init);
      assert (set k | k in s) == (set k | k in init) + {last};
    }
  }

  lemma {:induction false} HoursAtMostErrors(lines: seq<string>)
    ensures NumberWith(lines, HasErrorHour) <= NumberWith(lines, HasErrorStatus)
    decreases |lines|
  {
    hide HasErrorStatus, HourOf;
    if lines != [] {
      HoursAtMostErrors(lines[1..]);
    }
  }

  // ---------------------------------------------------------------- a line as nginx writes it

  /** What the agent looks at in a line of nginx's "combined" format. */
  datatype Access = Access(client: string, date: string, hour: string, minutes: string,
                           verb: string, path: string, protocol: string, status: string, rest: string)

  /** `$remote_addr - $remote_user [$time_local] "$request" $status $body_bytes_sent ...`. */
  function Printed(a: Access): string {
    a.client + "[" + a.date + ":" + a.hour + ":" + a.minutes + "] \""
    + a.verb + " " + a.path + " " + a.protocol + "\" " + a.status + " " + a.rest
  }

  /** nginx escapes quotes; brackets and colons stand in none of the fields before the request but the date's own. */
  ghost predicate IsLogged(a: Access) {
    && '[' !in a.client && '"' !in a.client && '"' !in a.date && '"' !in a.hour && '"' !in a.minutes
    && '[' !in a.date && '[' !in a.hour && ':' !in a.date && ':' !in a.hour
    && IsWord(a.verb) && IsWord(a.path) && IsWord(a.protocol) && IsWord(a.status)
    && '"' !in a.verb && '"' !in a.path && '"' !in a.protocol && '"' !in a.status
  }

  /** The piece behind the first separator begins with what holds none, and ends where one follows. */
  lemma PieceBehind(before: string, c: char, mid: string, after: string)
    requires c !in before && c !in mid
    ensures var piece := PieceAfter(before + [c] + mid + after, [c]);
            piece.Some? && mid <= piece.value && (after != "" && after[0] == c ==> piece.value == mid)
  {
    var l, rest := before + [c] + mid + after, mid + after;
    assert OccursAt(l, [c], |before|);
    assert l == before + ([c] + mid + after);
    NoneStartsIn(before, [c] + mid + after, [c]);
    IndexIs(l, [c], |before|);
    assert l[|before| + 1..] == rest;
    NoneStartsIn(mid, after, [c]);
    if after != "" && after[0] == c {
      assert OccursAt(rest, [c], |mid|);
      IndexIs(rest, [c], |mid|);
    }
  }

  /** The same for a quote and a space, where other quotes are followed by something else. */
  lemma PieceBehindQuote(before: string, mid: string, after: string)
    requires forall j | 0 <= j < |before| && before[j] == '"' :: j + 1 < |before| && before[j + 1] != ' '
    requires '"' !in mid
    ensures var piece := PieceAfter(before + "\" " + mid + after, "\" ");
            piece.Some? && mid <= piece.value
  {
    var l, rest := before + "\" " + mid + after, mid + after;
    assert OccursAt(l, "\" ", |before|);
    forall j: nat | j < |before| ensures !OccursAt(l, "\" ", j) {
      assert l[j..j + 2][0] == before[j];
      assert before[j] == '"' ==> l[j..j + 2][1] == before[j + 1];
    }
    IndexIs(l, "\" ", |before|);
    assert l[|before| + 2..] == rest;
    NoneStartsIn(mid, after, "\" ");
  }

  /** From a line as nginx writes it come its status, its hour, and its path up to a question mark. */
  lemma LoggedIsRead(a: Access)
    requires IsLogged(a)
    ensures StatusOf(Printed(a)) == Some(a.status)
    ensures HourOf(Printed(a)) == Some(a.hour + ":00")
    ensures forall name, query | a.path == name + query && '?' !in name && (query == "" || query[0] == '?') ::
              UrlOf(Printed(a)) == if name == "/favicon.ico" || "/api/" <= name then None else Some(name)
  {
    hide StatusOf, HourOf, UrlOf;
    LoggedStatus(a);
    LoggedHour(a);
    forall name, query | a.path == name + query && '?' !in name && (query == "" || query[0] == '?')
      ensures UrlOf(Printed(a)) == if name == "/favicon.ico" || "/api/" <= name then None else Some(name)
    {
      LoggedUrl(a, name, query);
    }
  }

  lemma LoggedStatus(a: Access)
    requires IsLogged(a)
    ensures StatusOf(Printed(a)) == Some(a.status)
  {
    hide PieceAfter, Words;
    var before := a.client + "[" + a.date + ":" + a.hour + ":" + a.minutes + "] \""
                  + (a.verb + " " + a.path + " " + a.protocol);
    QuotesInFront(a.client + "[" + a.date + ":" + a.hour + ":" + a.minutes + "] ",
                  a.verb + " " + a.path + " " + a.protocol);
    PieceBehindQuote(before, a.status + " ", a.rest);
    assert Printed(a) == before + "\" " + (a.status + " ") + a.rest;
    var piece := PieceAfter(Printed(a), "\" ").value;
    assert piece == a.status + (" " + piece[|a.status| + 1..]);
    WordFirst(a.status, " " + piece[|a.status| + 1..]);
  }

  lemma QuotesInFront(front: string, request: string)
    requires '"' !in front && '"' !in request && request != "" && request[0] != ' '
    ensures var s := front + "\"" + request;
            forall j | 0 <= j < |s| && s[j] == '"' :: j + 1 < |s| && s[j + 1] != ' '
  {
  }

  lemma LoggedHour(a: Access)
    requires IsLogged(a)
    ensures HourOf(Printed(a)) == Some(a.hour + ":00")
  {
    hide PieceAfter;
    var stamp := a.date + ":" + a.hour;
    var after := ":" + a.minutes + "] \"" + a.verb + " " + a.path + " " + a.protocol + "\" " + a.status + " " + a.rest;
    assert Printed(a) == a.client + "[" + (stamp + ":") + after[1..];
    PieceBehind(a.client, '[', stamp + ":", after[1..]);
    var date := PieceAfter(Printed(a), "[").value;
    assert date == a.date + ":" + a.hour + (":" + date[|stamp| + 1..]);
    PieceBehind(a.date, ':', a.hour, ":" + date[|stamp| + 1..]);
  }

  lemma LoggedUrl(a: Access, name: string, query: string)
    requires IsLogged(a)
    requires a.path == name + query && '?' !in name && (query == "" || query[0] == '?')
    ensures UrlOf(Printed(a)) == if name == "/favicon.ico" || "/api/" <= name then None else Some(name)
  {
    hide PieceAfter, Words;
    var front := a.client + "[" + a.date + ":" + a.hour + ":" + a.minutes + "] ";
    var request, after := a.verb + " " + a.path + " " + a.protocol, "\" " + a.status + " " + a.rest;
    assert Printed(a) == front + "\"" + request + after;
    PieceBehind(front, '"', request, after);
    var words := [a.verb, a.path, a.protocol];
    assert Spaced(words) == request by {
      var two := words[1..];
      assert two == [a.path, a.protocol] && two[1..] == [a.protocol];
      assert Spaced(two) == a.path + " " + a.protocol;
    }
    WordsSpaced(words);
    NameBeforeQuery(name, query);
  }

  lemma NameBeforeQuery(name: string, query: string)
    requires '?' !in name && (query == "" || query[0] == '?')
    ensures (name + query)[..FirstChar(name + query, '?')] == name
  {
    if query == "" {
      assert name + query == name;
      NoSuchChar(name, '?');
    } else {
      assert name + query == name + ['?'] + query[1..];
      FirstCharAfter(name, '?', query[1..]);
    }
  }
}
