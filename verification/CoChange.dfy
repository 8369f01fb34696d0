/** The nested loop of `flush_commit` and the line loop of `parse_history` in
    `src/metrics/git.rs`. */
module CoChange {
  import opened Options
  import opened GitHistory

  type Weights = map<(string, string), nat>

  /** The pairs seen before row `i`, column `j`. */
  function PairsBefore(paths: seq<string>, key: (string, string), i: nat, j: nat): set<(nat, nat)> {
    set p | p in PairsNaming(paths, key) && (p.0 < i || (p.0 == i && p.1 < j))
  }

  lemma PairStep(paths: seq<string>, key: (string, string), i: nat, j: nat)
    requires i < j < |paths|
    ensures |PairsBefore(paths, key, i, j + 1)|
            == |PairsBefore(paths, key, i, j)| + if PairKey(paths[i], paths[j]) == key then 1 else 0
  {
    var before, after := PairsBefore(paths, key, i, j), PairsBefore(paths, key, i, j + 1);
    assert (i, j) in PairsNaming(paths, key) <==> PairKey(paths[i], paths[j]) == key;
    hide PairsNaming, PairKey;
    if PairKey(paths[i], paths[j]) == key {
      assert after == before + {(i, j)};
    } else {
      assert after == before;
    }
  }

  lemma RowStep(paths: seq<string>, key: (string, string), i: nat)
    requires i < |paths|
    ensures PairsBefore(paths, key, 0, 1) == {}
    ensures PairsBefore(paths, key, i, |paths|) == PairsBefore(paths, key, i + 1, i + 2)
    ensures PairsBefore(paths, key, |paths|, |paths| + 1) == PairsNaming(paths, key)
  {
  }

  /** The steps of the first `i` rows over `k` paths. */
  function Steps(k: nat, i: nat): nat
    requires i <= k
  {
    if i == 0 then 0 else Steps(k, i - 1) + (k - i)
  }

  lemma {:induction false} StepsClosed(k: nat, i: nat)
    requires i <= k
    ensures 2 * Steps(k, i) == i * (2 * k - i - 1)
  {
    if i > 0 {
      StepsClosed(k, i - 1);
    }
  }

  /** What the loop has stored so far. */
  ghost predicate Counted(before: Weights, out: Weights, paths: seq<string>, i: nat, j: nat) {
    forall key :: CountedKey(before, out, paths, i, j, key)
  }

  ghost predicate CountedKey(before: Weights, out: Weights, paths: seq<string>, i: nat, j: nat, key: (string, string)) {
    && Get(out, key) == Get(before, key) + |PairsBefore(paths, key, i, j)|
    && (key in out <==> key in before || PairsBefore(paths, key, i, j) != {})
  }

  lemma CountedStep(before: Weights, out: Weights, paths: seq<string>, i: nat, j: nat)
    requires i < j < |paths| && Counted(before, out, paths, i, j)
    ensures var k := PairKey(paths[i], paths[j]);
            Counted(before, out[k := Get(out, k) + 1], paths, i, j + 1)
  {
    var k := PairKey(paths[i], paths[j]);
    var after, next := out[k := Get(out, k) + 1], j + 1;
    forall key ensures CountedKey(before, after, paths, i, next, key) {
      assert CountedKey(before, out, paths, i, j, key);
      PairStep(paths, key, i, j);
      hide PairsBefore, PairKey;
    }
  }

  lemma CountedRow(before: Weights, out: Weights, paths: seq<string>, i: nat)
    requires i < |paths| && Counted(before, out, paths, i, |paths|)
    ensures Counted(before, out, paths, i + 1, i + 2)
  {
    var row, column := i + 1, i + 2;
    forall key ensures CountedKey(before, out, paths, row, column, key) {
      assert CountedKey(before, out, paths, i, |paths|, key);
      RowStep(paths, key, i);
    }
  }

  /** Each key gains the number of index pairs that name it. */
  ghost predicate Flushed(before: Weights, out: Weights, paths: seq<string>) {
    && (forall key :: Get(out, key) == Get(before, key) + |PairsNaming(paths, key)|)
    && (forall key :: key in out <==> key in before || PairsNaming(paths, key) != {})
    && Sum(out) == Sum(before) + |paths| * (|paths| - 1) / 2
  }

  method FlushCommit(paths: seq<string>, weights: Weights) returns (out: Weights)
    ensures Flushed(weights, out, paths)
  {
    out := weights;
    var i := 0;
    while i < |paths|
      invariant i <= |paths|
      invariant Counted(weights, out, paths, i, i + 1)
      invariant Sum(out) == Sum(weights) + Steps(|paths|, i)
    {
      var j := i + 1;
      while j < |paths|
        invariant i < j <= |paths|
        invariant Counted(weights, out, paths, i, j)
        invariant Sum(out) == Sum(weights) + Steps(|paths|, i) + (j - i - 1)
      {
        var key := PairKey(paths[i], paths[j]);
        CountedStep(weights, out, paths, i, j);
        SumBump(out, key);
        out := out[key := Get(out, key) + 1];
        j := j + 1;
      }
      CountedRow(weights, out, paths, i);
      i := i + 1;
    }
    FlushedAtEnd(weights, out, paths);
  }

  lemma FlushedAtEnd(before: Weights, out: Weights, paths: seq<string>)
    requires Counted(before, out, paths, |paths|, |paths| + 1)
    requires Sum(out) == Sum(before) + Steps(|paths|, |paths|)
    ensures Flushed(before, out, paths)
  {
    StepsClosed(|paths|, |paths|);
    assert |paths| * (2 * |paths| - |paths| - 1) == |paths| * (|paths| - 1);
    forall key
      ensures Get(out, key) == Get(before, key) + |PairsNaming(paths, key)|
      ensures key in out <==> key in before || PairsNaming(paths, key) != {}
    {
      assert CountedKey(before, out, paths, |paths|, |paths| + 1, key);
      assert PairsBefore(paths, key, |paths|, |paths| + 1) == PairsNaming(paths, key);
    }
  }

  // ---- The line loop ----

  datatype RepoEdge = RepoEdge(fromPath: string, toPath: string, weight: nat)

  ghost predicate HistoryMatches(groups: seq<Group>, histories: map<string, FileHistory>, cutoff: nat, path: string) {
    && (path in histories <==> Churn(groups, path) > 0)
    && (path in histories ==>
          histories[path] == FileHistory(ChurnSince(groups, path, cutoff), Churn(groups, path), 0, FirstListed(groups, path)))
  }

  ghost predicate AuthorsMatch(groups: seq<Group>, authors: map<string, set<string>>, path: string) {
    && (path in authors <==> Churn(groups, path) > 0)
    && (path in authors ==> authors[path] == Authors(groups, path))
  }

  ghost predicate WeightMatches(groups: seq<Group>, weights: Weights, key: (string, string)) {
    Get(weights, key) == Weight(groups, key) && (key in weights <==> Weight(groups, key) > 0)
  }

  ghost predicate FilesMatch(groups: seq<Group>, histories: map<string, FileHistory>, authors: map<string, set<string>>, cutoff: nat) {
    forall path :: HistoryMatches(groups, histories, cutoff, path) && AuthorsMatch(groups, authors, path)
  }

  ghost predicate WeightsMatch(groups: seq<Group>, weights: Weights) {
    (forall key :: WeightMatches(groups, weights, key)) && Sum(weights) == PairTotal(groups)
  }

  /** What is known of a group of paths holds of each file it lists. */
  lemma LastGroup(groups: seq<Group>, last: Group, path: string, cutoff: nat)
    ensures var all := groups + [last];
            && Churn(all, path) == Churn(groups, path) + multiset(last.paths)[path]
            && ChurnSince(all, path, cutoff)
               == ChurnSince(groups, path, cutoff) + (if last.ts >= cutoff then multiset(last.paths)[path] else 0)
            && Authors(all, path) == Authors(groups, path) + (if path in last.paths then {last.author} else {})
            && FirstListed(all, path) == FirstListed(groups, path).Or(if path in last.paths then Some(last.ts) else None)
  {
    assert (groups + [last])[..|groups|] == groups;
  }

  lemma HeaderKeepsFiles(groups: seq<Group>, last: Group, histories: map<string, FileHistory>,
                         authors: map<string, set<string>>, cutoff: nat)
    requires last.paths == [] && FilesMatch(groups, histories, authors, cutoff)
    ensures FilesMatch(groups + [last], histories, authors, cutoff)
  {
    var all := groups + [last];
    forall path ensures HistoryMatches(all, histories, cutoff, path) && AuthorsMatch(all, authors, path) {
      assert HistoryMatches(groups, histories, cutoff, path) && AuthorsMatch(groups, authors, path);
      LastGroup(groups, last, path, cutoff);
    }
  }

  lemma HeaderAddsWeights(groups: seq<Group>, last: Group, weights: Weights, out: Weights)
    requires WeightsMatch(groups, weights) && Flushed(weights, out, last.paths)
    ensures WeightsMatch(groups + [last], out)
  {
    var all := groups + [last];
    assert all[..|groups|] == groups;
    forall key ensures WeightMatches(all, out, key) {
      assert WeightMatches(groups, weights, key);
      assert PairsNaming(last.paths, key) == {} <==> |PairsNaming(last.paths, key)| == 0;
      hide PairsNaming;
    }
  }

  /** What one path line does to the entry of its file. */
  function Listed(h: FileHistory, ts: nat, cutoff: nat): FileHistory {
    h.(churn90d := h.churn90d + 1,
       churn30d := h.churn30d + if ts >= cutoff then 1 else 0,
       lastChangedMs := if h.lastChangedMs.None? then Some(ts) else h.lastChangedMs)
  }

  const NO_HISTORY := FileHistory(0, 0, 0, None)

  function EntryOf<V>(m: map<string, V>, path: string, default: V): V {
    if path in m then m[path] else default
  }

  lemma PathAddsFile(groups: seq<Group>, last: Group, name: string, histories: map<string, FileHistory>,
                     authors: map<string, set<string>>, cutoff: nat)
    requires FilesMatch(groups + [last], histories, authors, cutoff)
    ensures FilesMatch(groups + [last.(paths := last.paths + [name])],
                       histories[name := Listed(EntryOf(histories, name, NO_HISTORY), last.ts, cutoff)],
                       authors[name := EntryOf(authors, name, {}) + {last.author}], cutoff)
  {
    var more := groups + [last.(paths := last.paths + [name])];
    var h := histories[name := Listed(EntryOf(histories, name, NO_HISTORY), last.ts, cutoff)];
    var a := authors[name := EntryOf(authors, name, {}) + {last.author}];
    forall path ensures HistoryMatches(more, h, cutoff, path) && AuthorsMatch(more, a, path) {
      assert HistoryMatches(groups + [last], histories, cutoff, path) && AuthorsMatch(groups + [last], authors, path);
      hide HistoryMatches, AuthorsMatch, Listed;
      PathInHistory(groups, last, name, path, histories, cutoff);
      PathInAuthors(groups, last, name, path, authors, cutoff);
    }
  }

  lemma PathInHistory(groups: seq<Group>, last: Group, name: string, path: string,
                      histories: map<string, FileHistory>, cutoff: nat)
    requires HistoryMatches(groups + [last], histories, cutoff, path)
    ensures HistoryMatches(groups + [last.(paths := last.paths + [name])],
                           histories[name := Listed(EntryOf(histories, name, NO_HISTORY), last.ts, cutoff)], cutoff, path)
  {
    var all, longer := groups + [last], last.(paths := last.paths + [name]);
    LastGroup(groups, last, path, cutoff);
    LastGroup(groups, longer, path, cutoff);
    HistoryBounds(groups, path, cutoff);
    hide Churn, ChurnSince, FirstListed, Authors;
    var count, more := multiset(last.paths)[path], multiset(longer.paths)[path];
    assert more == count + if path == name then 1 else 0;
  }

  lemma PathInAuthors(groups: seq<Group>, last: Group, name: string, path: string,
                      authors: map<string, set<string>>, cutoff: nat)
    requires AuthorsMatch(groups + [last], authors, path)
    ensures AuthorsMatch(groups + [last.(paths := last.paths + [name])],
                         authors[name := EntryOf(authors, name, {}) + {last.author}], path)
  {
    LastGroup(groups, last, path, cutoff);
    LastGroup(groups, last.(paths := last.paths + [name]), path, cutoff);
    NoAuthors(groups + [last], path);
    hide Churn, Authors;
  }

  lemma {:induction false} NoAuthors(groups: seq<Group>, path: string)
    ensures Churn(groups, path) == 0 <==> Authors(groups, path) == {}
  {
    if groups != [] {
      var n := |groups| - 1;
      NoAuthors(groups[..n], path);
      assert path in groups[n].paths <==> multiset(groups[n].paths)[path] > 0;
    }
  }

  lemma NoLines(cutoff: nat)
    ensures FilesMatch(Groups([]), map[], map[], cutoff) && WeightsMatch([], map[])
  {
    var none := Groups([]);
    forall path ensures HistoryMatches(none, map[], cutoff, path) && AuthorsMatch(none, map[], path) {
      LastGroup([], none[0], path, cutoff);
      assert [] + [none[0]] == none;
    }
  }

  lemma NextLine(lines: seq<Line>, i: nat)
    requires i < |lines|
    ensures lines[..i + 1][..i] == lines[..i] && lines[..i + 1][i] == lines[i]
    ensures match lines[i]
            case Header(secs, author) => Groups(lines[..i + 1]) == Groups(lines[..i]) + [Group(secs * 1000, author, [])]
            case Path(name) => Groups(lines[..i + 1]) == AddPath(Groups(lines[..i]), name)
            case Skip => Groups(lines[..i + 1]) == Groups(lines[..i])
  {
    assert lines[..i + 1][..i] == lines[..i];
  }

  /** `parse_history`: the log ends with a line that is no header, so the last
      group is never flushed. */
  method ParseHistory(lines: seq<Line>, now: nat) returns (histories: map<string, FileHistory>, edges: seq<RepoEdge>)
    ensures ListsFiles(Groups(lines), histories, Cutoff(now))
    ensures var flushed := Groups(lines)[..|Groups(lines)| - 1]; EdgesOf(flushed, edges)
  {
    var cutoff := Cutoff(now);
    var listed: map<string, FileHistory> := map[];
    var authors: map<string, set<string>> := map[];
    var coChanged: Weights := map[];
    var ts: nat, author: string, paths: seq<string> := 0, "", [];
    ghost var flushed: seq<Group> := [];
    NoLines(cutoff);
    assert lines[..0] == [];
    assert Groups([]) == flushed + [Group(ts, author, paths)];
    hide Groups, FilesMatch, WeightsMatch, Flushed, Listed, AddPath, ListsFiles, ListsWeights;
    for i := 0 to |lines|
      invariant Groups(lines[..i]) == flushed + [Group(ts, author, paths)]
      invariant FilesMatch(flushed + [Group(ts, author, paths)], listed, authors, cutoff)
      invariant WeightsMatch(flushed, coChanged)
    {
      NextLine(lines, i);
      ghost var last := Group(ts, author, paths);
      match lines[i]
      case Header(secs, name) =>
        var out := FlushCommit(paths, coChanged);
        HeaderAddsWeights(flushed, last, coChanged, out);
        HeaderKeepsFiles(flushed + [last], Group(secs * 1000, name, []), listed, authors, cutoff);
        flushed := flushed + [last];
        coChanged, ts, author, paths := out, secs * 1000, name, [];
      case Path(name) =>
        PathAddsFile(flushed, last, name, listed, authors, cutoff);
        LongerPath(flushed, last, name);
        paths := paths + [name];
        listed := listed[name := Listed(EntryOf(listed, name, NO_HISTORY), ts, cutoff)];
        authors := authors[name := EntryOf(authors, name, {}) + {author}];
      case Skip =>
    }
    assert lines[..|lines|] == lines;
    histories := CountAuthors(listed, authors);
    FinalHistories(Groups(lines), listed, authors, histories, cutoff);
    edges := Collect(coChanged);
  }

  lemma LongerPath(groups: seq<Group>, last: Group, name: string)
    ensures AddPath(groups + [last], name) == groups + [last.(paths := last.paths + [name])]
  {
  }

  /** Exactly the listed files have a history, and it is the right one. */
  ghost predicate ListsFiles(groups: seq<Group>, histories: map<string, FileHistory>, cutoff: nat) {
    && (forall path :: path in histories <==> Churn(groups, path) > 0)
    && (forall path | path in histories :: histories[path] == HistoryOf(groups, path, cutoff))
  }

  ghost predicate AuthorsCounted(histories: map<string, FileHistory>, authors: map<string, set<string>>, out: map<string, FileHistory>) {
    && out.Keys == histories.Keys + authors.Keys
    && (forall p | p in out :: out[p] == if p in authors then EntryOf(histories, p, NO_HISTORY).(authors90d := |authors[p]|)
                                         else histories[p])
  }

  lemma FinalHistories(groups: seq<Group>, histories: map<string, FileHistory>, authors: map<string, set<string>>,
                       out: map<string, FileHistory>, cutoff: nat)
    requires FilesMatch(groups, histories, authors, cutoff) && AuthorsCounted(histories, authors, out)
    ensures ListsFiles(groups, out, cutoff)
  {
    hide Churn, ChurnSince, Authors, FirstListed;
    forall path
      ensures path in out <==> Churn(groups, path) > 0
      ensures path in out ==> out[path] == HistoryOf(groups, path, cutoff)
    {
      assert HistoryMatches(groups, histories, cutoff, path) && AuthorsMatch(groups, authors, path);
    }
  }

  method CountAuthors(histories: map<string, FileHistory>, authors: map<string, set<string>>) returns (out: map<string, FileHistory>)
    ensures AuthorsCounted(histories, authors, out)
  {
    out := histories;
    var rest := authors.Keys;
    while rest != {}
      invariant rest <= authors.Keys && out.Keys == histories.Keys + (authors.Keys - rest)
      invariant forall p | p in out :: out[p] == if p in authors && p !in rest
                                                 then EntryOf(histories, p, NO_HISTORY).(authors90d := |authors[p]|)
                                                 else histories[p]
    {
      var p :| p in rest;
      out := out[p := EntryOf(out, p, NO_HISTORY).(authors90d := |authors[p]|)];
      rest := rest - {p};
    }
  }

  /** One edge for each key, in whatever order the map gives them. */
  ghost predicate ListsWeights(edges: seq<RepoEdge>, weights: Weights) {
    && (forall i | 0 <= i < |edges| :: (edges[i].fromPath, edges[i].toPath) in weights
          && edges[i].weight == weights[(edges[i].fromPath, edges[i].toPath)])
    && (forall i, j | 0 <= i < j < |edges| :: edges[i].fromPath != edges[j].fromPath || edges[i].toPath != edges[j].toPath)
    && |edges| == |weights|
  }

  method Collect(weights: Weights) returns (edges: seq<RepoEdge>)
    ensures ListsWeights(edges, weights)
  {
    edges := [];
    var rest := weights.Keys;
    while rest != {}
      invariant rest <= weights.Keys && |edges| + |rest| == |weights.Keys|
      invariant forall i | 0 <= i < |edges| :: (edges[i].fromPath, edges[i].toPath) in weights.Keys - rest
                  && edges[i].weight == weights[(edges[i].fromPath, edges[i].toPath)]
      invariant forall i, j | 0 <= i < j < |edges| :: edges[i].fromPath != edges[j].fromPath || edges[i].toPath != edges[j].toPath
    {
      var key :| key in rest;
      edges := edges + [RepoEdge(key.0, key.1, weights[key])];
      rest := rest - {key};
    }
  }

  // ---- What the edges say ----

  /** The edges of these commits: each pair that they name, once, with the number
      of times they name it. */
  ghost predicate EdgesOf(groups: seq<Group>, edges: seq<RepoEdge>) {
    exists weights :: WeightsMatch(groups, weights) && ListsWeights(edges, weights)
  }
}
