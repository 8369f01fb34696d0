/** What the histories and edges of `src/metrics/git.rs` mean for the commits of
    the log they were read from. */
module CoChangeFacts {
  import opened GitHistory
  import opened CoChange

  // ---- The log of a list of commits ----

  datatype Commit = Commit(secs: nat, author: string, paths: seq<string>)

  /** A header, a blank line and one line a file. */
  function Rendered(commits: seq<Commit>): seq<Line> {
    if commits == [] then []
    else
      var last := commits[|commits| - 1];
      Rendered(commits[..|commits| - 1]) + [Header(last.secs, last.author), Skip] + PathLines(last.paths)
  }

  function PathLines(paths: seq<string>): seq<Line> {
    seq(|paths|, i requires 0 <= i < |paths| => Path(paths[i]))
  }

  function GroupOf(c: Commit): Group {
    Group(c.secs * 1000, c.author, c.paths)
  }

  function GroupsOf(commits: seq<Commit>): seq<Group> {
    seq(|commits|, i requires 0 <= i < |commits| => GroupOf(commits[i]))
  }

  const NO_COMMIT := Group(0, "", [])

  lemma {:induction false} PathLinesJoin(lines: seq<Line>, groups: seq<Group>, last: Group, paths: seq<string>)
    requires Groups(lines) == groups + [last.(paths := [])]
    ensures Groups(lines + PathLines(paths)) == groups + [last.(paths := paths)]
  {
    if paths == [] {
      assert lines + PathLines(paths) == lines;
    } else {
      var n := |paths| - 1;
      PathLinesJoin(lines, groups, last, paths[..n]);
      var all := lines + PathLines(paths);
      assert all[..|all| - 1] == lines + PathLines(paths[..n]);
      assert all[|all| - 1] == Path(paths[n]);
      LongerPath(groups, last.(paths := paths[..n]), paths[n]);
      assert paths[..n] + [paths[n]] == paths;
    }
  }

  lemma HeaderOpens(lines: seq<Line>, secs: nat, author: string)
    ensures Groups(lines + [Header(secs, author), Skip]) == Groups(lines) + [Group(secs * 1000, author, [])]
  {
    var all := lines + [Header(secs, author), Skip];
    assert all[..|lines| + 1] == lines + [Header(secs, author)];
    assert (lines + [Header(secs, author)])[..|lines|] == lines;
  }

  /** Main result: the log of any commits reads back as these commits, after an
      empty group for what stands before the first header. */
  lemma {:induction false} LogReadsBack(commits: seq<Commit>)
    ensures Groups(Rendered(commits)) == [NO_COMMIT] + GroupsOf(commits)
    ensures |GroupsOf(commits)| == |commits| && forall i | 0 <= i < |commits| ::
              GroupsOf(commits)[i] == Group(commits[i].secs * 1000, commits[i].author, commits[i].paths)
  {
    if commits != [] {
      var n := |commits| - 1;
      var last, before := commits[n], Rendered(commits[..n]);
      var headed := before + [Header(last.secs, last.author), Skip];
      assert Rendered(commits) == headed + PathLines(last.paths);
      assert GroupsOf(commits) == GroupsOf(commits[..n]) + [GroupOf(last)];
      assert GroupOf(last).(paths := last.paths) == GroupOf(last);
      LogReadsBack(commits[..n]);
      hide Groups, PathLines, GroupsOf, Rendered;
      HeaderOpens(before, last.secs, last.author);
      PathLinesJoin(headed, Groups(before), GroupOf(last), last.paths);
    }
  }

  // ---- The edges ----

  ghost function EdgeTotal(edges: seq<RepoEdge>): nat {
    if edges == [] then 0 else EdgeTotal(edges[..|edges| - 1]) + edges[|edges| - 1].weight
  }

  function KeyOf(e: RepoEdge): (string, string) {
    (e.fromPath, e.toPath)
  }

  lemma {:induction false} EdgesSum(edges: seq<RepoEdge>, weights: Weights)
    requires ListsWeights(edges, weights)
    ensures EdgeTotal(edges) == Sum(weights)
  {
    if edges != [] {
      var n := |edges| - 1;
      var key := KeyOf(edges[n]);
      var fewer := weights - {key};
      assert fewer.Keys == weights.Keys - {key};
      assert |fewer| == |fewer.Keys| && |weights| == |weights.Keys|;
      EdgesSum(edges[..n], fewer);
      SumWithout(weights, key);
    } else {
      assert weights == map[];
    }
  }

  lemma {:induction false} EdgeForKey(edges: seq<RepoEdge>, weights: Weights, key: (string, string)) returns (i: nat)
    requires ListsWeights(edges, weights) && key in weights
    ensures i < |edges| && KeyOf(edges[i]) == key
  {
    assert |weights| == |weights.Keys|;
    assert key in weights.Keys;
    assert edges != [];
    var n := |edges| - 1;
    if KeyOf(edges[n]) == key {
      i := n;
    } else {
      var fewer := weights - {KeyOf(edges[n])};
      assert fewer.Keys == weights.Keys - {KeyOf(edges[n])};
      assert |fewer| == |fewer.Keys|;
      i := EdgeForKey(edges[..n], fewer, key);
    }
  }

  lemma {:induction false} WeightIsOrdered(groups: seq<Group>, key: (string, string))
    ensures Weight(groups, key) > 0 <==> exists g, i: nat, j: nat | 0 <= g < |groups| :: Names(groups[g].paths, key, i, j)
    ensures Weight(groups, key) > 0 ==> Leq(key.0, key.1)
  {
    if groups != [] {
      var n := |groups| - 1;
      WeightIsOrdered(groups[..n], key);
      var pairs := PairsNaming(groups[n].paths, key);
      if p :| p in pairs {
        PairKeyUnordered(groups[n].paths[p.0], groups[n].paths[p.1], key.0, key.1);
        assert Names(groups[n].paths, key, p.0, p.1);
      }
      if i: nat, j: nat :| Names(groups[n].paths, key, i, j) {
        assert (i, j) in pairs;
      }
    }
  }

  /** Main result: the edges are ordered pairs, none twice; a pair has an edge
      exactly when some commit names both at different places, its weight is the
      number of index pairs that name it, and all weights together are the sum of
      k(k - 1)/2 over the commits. */
  lemma EdgesCountPairs(groups: seq<Group>, edges: seq<RepoEdge>)
    requires EdgesOf(groups, edges)
    ensures forall i | 0 <= i < |edges| ::
              && Leq(edges[i].fromPath, edges[i].toPath)
              && edges[i].weight == Weight(groups, KeyOf(edges[i])) && edges[i].weight > 0
    ensures forall i, j | 0 <= i < j < |edges| :: KeyOf(edges[i]) != KeyOf(edges[j])
    ensures forall key :: Weight(groups, key) > 0 ==> exists i | 0 <= i < |edges| :: KeyOf(edges[i]) == key
    ensures EdgeTotal(edges) == PairTotal(groups)
  {
    var weights :| WeightsMatch(groups, weights) && ListsWeights(edges, weights);
    EdgesSum(edges, weights);
    forall key | Weight(groups, key) > 0 ensures exists i | 0 <= i < |edges| :: KeyOf(edges[i]) == key {
      assert WeightMatches(groups, weights, key);
      var i := EdgeForKey(edges, weights, key);
    }
    forall i | 0 <= i < |edges|
      ensures Leq(edges[i].fromPath, edges[i].toPath)
      ensures edges[i].weight == Weight(groups, KeyOf(edges[i])) && edges[i].weight > 0
    {
      assert WeightMatches(groups, weights, KeyOf(edges[i]));
      WeightIsOrdered(groups, KeyOf(edges[i]));
    }
  }

  // ---- The last commit ----

  /** Main result: since nothing flushes the last commit, the edges of a log are
      those of all its commits if and only if the last one lists fewer than two
      files. */
  lemma LastCommitCountsIff(groups: seq<Group>, last: Group)
    ensures (forall key :: Weight(groups + [last], key) == Weight(groups, key)) <==> |last.paths| < 2
    ensures PairTotal(groups + [last]) == PairTotal(groups) + |last.paths| * (|last.paths| - 1) / 2
  {
    var all := groups + [last];
    assert all[..|groups|] == groups;
    forall key ensures Weight(all, key) == Weight(groups, key) + |PairsNaming(last.paths, key)| {
    }
    if |last.paths| >= 2 {
      var key := PairKey(last.paths[0], last.paths[1]);
      assert Names(last.paths, key, 0, 1);
      assert (0, 1) in PairsNaming(last.paths, key);
      assert Weight(all, key) > Weight(groups, key);
    } else {
      forall key ensures Weight(all, key) == Weight(groups, key) {
        assert PairsNaming(last.paths, key) == {};
      }
    }
  }

  /** One more header would count it. */
  lemma HeaderFlushes(lines: seq<Line>, secs: nat, author: string)
    ensures var more := Groups(lines + [Header(secs, author)]);
            more[..|more| - 1] == Groups(lines)
  {
    assert (lines + [Header(secs, author)])[..|lines|] == lines;
  }

  /** The commits of a log whose edges are reported. */
  lemma ReportedCommits(commits: seq<Commit>)
    ensures var groups := Groups(Rendered(commits));
            groups[..|groups| - 1] == if commits == [] then [] else [NO_COMMIT] + GroupsOf(commits[..|commits| - 1])
  {
    LogReadsBack(commits);
    if commits != [] {
      var n := |commits| - 1;
      assert GroupsOf(commits)[..n] == GroupsOf(commits[..n]);
    }
  }
}
