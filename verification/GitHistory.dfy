/** What a git log says about files: `src/metrics/git.rs`, read as groups of
    paths under a header. */
module GitHistory {
  import opened Options

  /** A header carries the commit's seconds and author; blank lines are skipped. */
  datatype Line = Header(secs: nat, author: string) | Path(name: string) | Skip

  datatype Group = Group(ts: nat, author: string, paths: seq<string>)

  datatype FileHistory = FileHistory(churn30d: nat, churn90d: nat, authors90d: nat, lastChangedMs: Option<nat>)

  const THIRTY_DAYS_MS: nat := 30 * 86_400_000

  function Cutoff(now: nat): nat {
    if now >= THIRTY_DAYS_MS then now - THIRTY_DAYS_MS else 0
  }

  /** The commits of a log; the first group holds paths before any header. */
  function Groups(lines: seq<Line>): (r: seq<Group>)
    ensures |r| >= 1
  {
    if lines == [] then [Group(0, "", [])]
    else
      var before := Groups(lines[..|lines| - 1]);
      match lines[|lines| - 1]
      case Header(secs, author) => before + [Group(secs * 1000, author, [])]
      case Path(name) => AddPath(before, name)
      case Skip => before
  }

  function AddPath(groups: seq<Group>, name: string): (r: seq<Group>)
    requires groups != []
    ensures |r| == |groups|
  {
    var last := groups[|groups| - 1];
    groups[..|groups| - 1] + [last.(paths := last.paths + [name])]
  }

  // ---- Per file ----

  function Churn(groups: seq<Group>, path: string): nat {
    if groups == [] then 0
    else Churn(groups[..|groups| - 1], path) + multiset(groups[|groups| - 1].paths)[path]
  }

  function ChurnSince(groups: seq<Group>, path: string, cutoff: nat): nat {
    if groups == [] then 0
    else
      var last := groups[|groups| - 1];
      ChurnSince(groups[..|groups| - 1], path, cutoff) + if last.ts >= cutoff then multiset(last.paths)[path] else 0
  }

  function Authors(groups: seq<Group>, path: string): set<string> {
    if groups == [] then {}
    else
      var last := groups[|groups| - 1];
      Authors(groups[..|groups| - 1], path) + if path in last.paths then {last.author} else {}
  }

  function FirstListed(groups: seq<Group>, path: string): Option<nat> {
    if groups == [] then None
    else
      var last := groups[|groups| - 1];
      FirstListed(groups[..|groups| - 1], path).Or(if path in last.paths then Some(last.ts) else None)
  }

  function HistoryOf(groups: seq<Group>, path: string, cutoff: nat): FileHistory {
    FileHistory(ChurnSince(groups, path, cutoff), Churn(groups, path), |Authors(groups, path)|, FirstListed(groups, path))
  }

  /** The recent churn and the number of authors never exceed the churn, and
      exactly the files that were listed have a time of change. */
  lemma {:induction false} HistoryBounds(groups: seq<Group>, path: string, cutoff: nat)
    ensures ChurnSince(groups, path, cutoff) <= Churn(groups, path)
    ensures |Authors(groups, path)| <= Churn(groups, path)
    ensures FirstListed(groups, path).Some? <==> Churn(groups, path) > 0
    ensures Churn(groups, path) > 0 <==> exists i | 0 <= i < |groups| :: path in groups[i].paths
  {
    if groups != [] {
      var n := |groups| - 1;
      HistoryBounds(groups[..n], path, cutoff);
      if path in groups[n].paths {
        assert multiset(groups[n].paths)[path] >= 1;
      }
    }
  }

  lemma {:induction false} AuthorsOf(groups: seq<Group>, path: string, author: string)
    ensures author in Authors(groups, path)
            <==> exists i | 0 <= i < |groups| :: path in groups[i].paths && groups[i].author == author
  {
    if groups != [] {
      AuthorsOf(groups[..|groups| - 1], path, author);
    }
  }

  /** The time of change is the time of the first group that lists the file. */
  lemma {:induction false} FirstListedIsFirst(groups: seq<Group>, path: string) returns (j: nat)
    requires Churn(groups, path) > 0
    ensures j < |groups| && path in groups[j].paths && FirstListed(groups, path) == Some(groups[j].ts)
    ensures forall k | 0 <= k < j :: path !in groups[k].paths
  {
    var n := |groups| - 1;
    var before := groups[..n];
    HistoryBounds(before, path, 0);
    if Churn(before, path) > 0 {
      j := FirstListedIsFirst(before, path);
    } else {
      j := n;
      assert forall k | 0 <= k < n :: before[k] == groups[k];
    }
  }

  /** A log that lists the newest commit first gives the time of the latest
      change. */
  lemma FirstListedIsLatest(groups: seq<Group>, path: string, i: nat)
    requires forall j, k | 0 <= j < k < |groups| :: groups[j].ts >= groups[k].ts
    requires i < |groups| && path in groups[i].paths
    ensures FirstListed(groups, path).Some? && FirstListed(groups, path).value >= groups[i].ts
  {
    HistoryBounds(groups, path, 0);
    var j := FirstListedIsFirst(groups, path);
  }

  // ---- Listings, one by one ----

  /** Where the file is listed: the group and the place in it. */
  function Listings(groups: seq<Group>, path: string): set<(nat, nat)> {
    set g: nat, i: nat | g < |groups| && i < |groups[g].paths| && groups[g].paths[i] == path :: (g, i)
  }

  /** The listings of a commit no older than thirty days before `now`. */
  function RecentListings(groups: seq<Group>, path: string, now: nat): set<(nat, nat)> {
    set p | p in Listings(groups, path) && groups[p.0].ts + 30 * 86_400_000 >= now
  }

  function Places(paths: seq<string>, path: string, g: nat): set<(nat, nat)> {
    set i: nat | i < |paths| && paths[i] == path :: (g, i)
  }

  lemma {:induction false} PlacesCount(paths: seq<string>, path: string, g: nat)
    ensures |Places(paths, path, g)| == multiset(paths)[path]
  {
    if paths != [] {
      var n := |paths| - 1;
      var before := paths[..n];
      PlacesCount(before, path, g);
      assert paths == before + [paths[n]];
      var all, some := Places(paths, path, g), Places(before, path, g);
      if paths[n] == path {
        assert all == some + {(g, n)};
      } else {
        assert all == some;
      }
    }
  }

  /** Main result: the churn of a file is the number of its listings, and the recent
      churn the number of those no older than thirty days. */
  lemma {:induction false} ChurnCountsListings(groups: seq<Group>, path: string, now: nat)
    ensures Churn(groups, path) == |Listings(groups, path)|
    ensures ChurnSince(groups, path, Cutoff(now)) == |RecentListings(groups, path, now)|
  {
    if groups != [] {
      var n := |groups| - 1;
      ChurnCountsListings(groups[..n], path, now);
      PlacesCount(groups[n].paths, path, n);
      ListingsNext(groups, path, now);
      var last := Places(groups[n].paths, path, n);
      hide Listings, RecentListings, Places;
    }
  }

  lemma ListingsNext(groups: seq<Group>, path: string, now: nat)
    requires groups != []
    ensures var n := |groups| - 1;
            var last := Places(groups[n].paths, path, n);
            && |Listings(groups, path)| == |Listings(groups[..n], path)| + |last|
            && |RecentListings(groups, path, now)|
               == |RecentListings(groups[..n], path, now)| + if groups[n].ts + 30 * 86_400_000 >= now then |last| else 0
  {
    var n := |groups| - 1;
    var last, before := Places(groups[n].paths, path, n), groups[..n];
    ListingsSplit(groups, path);
    hide Listings, Places;
    var recent := if groups[n].ts + 30 * 86_400_000 >= now then last else {};
    assert RecentListings(groups, path, now) == RecentListings(before, path, now) + recent;
    assert RecentListings(before, path, now) !! recent;
  }

  lemma ListingsSplit(groups: seq<Group>, path: string)
    requires groups != []
    ensures var n := |groups| - 1;
            var last, before := Places(groups[n].paths, path, n), Listings(groups[..n], path);
            && Listings(groups, path) == before + last && before !! last
            && (forall p | p in before :: p.0 < n) && (forall p | p in last :: p.0 == n)
  {
  }

  // ---- Ordered pairs ----

  predicate Leq(a: string, b: string) {
    a == [] || (b != [] && (a[0] < b[0] || (a[0] == b[0] && Leq(a[1..], b[1..]))))
  }

  lemma {:induction false} LeqTotal(a: string, b: string)
    ensures Leq(a, b) || Leq(b, a)
    ensures Leq(a, b) && Leq(b, a) ==> a == b
  {
    if a != [] && b != [] && a[0] == b[0] {
      LeqTotal(a[1..], b[1..]);
      assert a == [a[0]] + a[1..] && b == [b[0]] + b[1..];
    }
  }

  /** The order is the lexicographic one: a proper beginning comes first, and else
      the first difference decides. */
  lemma {:induction false} LeqIsLexicographic(a: string, b: string, k: nat)
    requires k <= |a| && k <= |b| && a[..k] == b[..k]
    ensures k == |a| ==> Leq(a, b)
    ensures k == |b| < |a| ==> !Leq(a, b)
    ensures k < |a| && k < |b| && a[k] != b[k] ==> (Leq(a, b) <==> a[k] < b[k])
  {
    if k > 0 {
      assert a[0] == a[..k][0] == b[..k][0] == b[0];
      assert a[1..][..k - 1] == a[..k][1..] == b[..k][1..] == b[1..][..k - 1];
      LeqIsLexicographic(a[1..], b[1..], k - 1);
    }
  }

  function PairKey(a: string, b: string): (string, string) {
    if Leq(a, b) then (a, b) else (b, a)
  }

  /** A key stands for its two paths whatever their order. */
  lemma PairKeyUnordered(a: string, b: string, c: string, d: string)
    ensures Leq(PairKey(a, b).0, PairKey(a, b).1)
    ensures PairKey(a, b) == PairKey(c, d) <==> (a == c && b == d) || (a == d && b == c)
  {
    LeqTotal(a, b);
    LeqTotal(c, d);
  }

  predicate Names(paths: seq<string>, key: (string, string), i: nat, j: nat) {
    i < j < |paths| && PairKey(paths[i], paths[j]) == key
  }

  /** The index pairs of a commit that name the key. */
  function PairsNaming(paths: seq<string>, key: (string, string)): set<(nat, nat)> {
    set i: nat, j: nat | i < |paths| && j < |paths| && Names(paths, key, i, j) :: (i, j)
  }

  function Weight(groups: seq<Group>, key: (string, string)): nat {
    if groups == [] then 0
    else Weight(groups[..|groups| - 1], key) + |PairsNaming(groups[|groups| - 1].paths, key)|
  }

  function PairTotal(groups: seq<Group>): nat {
    if groups == [] then 0
    else
      var k := |groups[|groups| - 1].paths|;
      PairTotal(groups[..|groups| - 1]) + k * (k - 1) / 2
  }

  /** The sum of all stored weights. */
  ghost function Sum<K(!new)>(m: map<K, nat>): nat
    decreases |m.Keys|
  {
    if m == map[] then 0
    else
      var k :| k in m;
      KeysShrink(m, k);
      m[k] + Sum(m - {k})
  }

  lemma KeysShrink<K>(m: map<K, nat>, k: K)
    requires k in m
    ensures |(m - {k}).Keys| < |m.Keys|
  {
    assert (m - {k}).Keys == m.Keys - {k};
  }

  lemma {:induction false} SumWithout<K(!new)>(m: map<K, nat>, k: K)
    requires k in m
    ensures Sum(m) == m[k] + Sum(m - {k})
    decreases |m.Keys|
  {
    var c: K :| c in m && Sum(m) == m[c] + Sum(m - {c});
    if c != k {
      KeysShrink(m, c);
      KeysShrink(m, k);
      SumWithout(m - {c}, k);
      SumWithout(m - {k}, c);
      assert m - {c} - {k} == m - {k} - {c};
    }
  }

  function Get<K>(m: map<K, nat>, k: K): nat {
    if k in m then m[k] else 0
  }

  lemma SumBump<K(!new)>(m: map<K, nat>, k: K)
    ensures Sum(m[k := Get(m, k) + 1]) == Sum(m) + 1
  {
    var after := m[k := Get(m, k) + 1];
    SumWithout(after, k);
    assert after - {k} == m - {k};
    if k in m {
      SumWithout(m, k);
    } else {
      assert m - {k} == m;
    }
  }
}
