/** The statements of `src/core_loop/cases.rs`, `review.rs` and `alerts.rs` and
    the loops of `src/core_loop/rules.rs`, on tables updated in place. */
module RuleEngine {
  import opened Options
  import opened RuleKeys
  import opened RuleStore
  import opened RuleRuns

  datatype RuleRun = RuleRun(ruleId: string, hits: nat, actions: nat)

  /** What a pass reports on each enabled rule. */
  function Reports(q: Query, rows: seq<TraceRow>, rules: seq<StoredRule>, dryRun: bool): seq<RuleRun> {
    if rules == [] then []
    else if !rules[0].enabled then Reports(q, rows, rules[1..], dryRun)
    else
      var hits := |Hits(q, rules[0].filter, rows)|;
      [RuleRun(rules[0].rule.id, hits, if dryRun then 0 else hits)] + Reports(q, rows, rules[1..], dryRun)
  }

  class Tables {
    var sessions: map<string, Option<string>>
    var cases: map<Key, CaseRow>
    var refs: set<CaseRef>
    var reviews: map<Key, ReviewRow>
    var alerts: map<Key, AlertRow>
    var nextId: nat

    ghost function Contents(): Db
      reads this
    {
      Db(sessions, cases, refs, reviews, alerts, nextId)
    }

    constructor (stored: map<string, Option<string>>)
      ensures Contents() == Db(stored, map[], {}, map[], map[], 0) && FreshIds(Contents())
    {
      sessions, cases, refs, reviews, alerts, nextId := stored, map[], {}, map[], map[], 0;
    }

    method FreshId() returns (id: nat)
      modifies this`nextId
      ensures id == old(nextId) && nextId == id + 1
    {
      id := nextId;
      nextId := nextId + 1;
    }

    method CreateCase(sessionId: string, key: Key, reason: string, caseLabel: Option<string>, now: nat) returns (row: CaseRow)
      requires sessionId in sessions
      modifies this
      ensures Contents() == CreateCaseRow(old(Contents()), sessionId, key, reason, caseLabel, now)
      ensures key in cases && row == cases[key]
    {
      var id := FreshId();
      if key !in cases {
        cases := cases[key := CaseRow(id, sessionId, reason, caseLabel, CaseOpen, sessions[sessionId], now)];
      }
      row := cases[key];
    }

    method AddRef(caseId: nat, refKind: string, refKey: string)
      modifies this`refs
      ensures Contents() == RuleStore.AddRef(old(Contents()), caseId, refKind, refKey)
    {
      refs := refs + {CaseRef(caseId, refKind, refKey)};
    }

    method CreateReview(key: Key, sessionId: string, title: string, now: nat) returns (row: ReviewRow)
      modifies this
      ensures Contents() == RuleStore.CreateReview(old(Contents()), key, sessionId, title, now)
      ensures key in reviews && row == reviews[key]
    {
      var id := FreshId();
      if key !in reviews {
        reviews := reviews[key := ReviewRow(id, sessionId, title, ReviewOpen, now, None)];
      }
      row := reviews[key];
    }

    method Emit(key: Key, name: string, severity: Severity, message: string, sessionId: Option<string>, now: nat)
        returns (row: AlertRow)
      modifies this
      ensures Contents() == EmitAlertRow(old(Contents()), key, name, severity, message, sessionId, now)
      ensures key in alerts && row == alerts[key]
    {
      var id := FreshId();
      if key !in alerts {
        alerts := alerts[key := AlertRow(id, name, severity, message, sessionId, now)];
      }
      row := alerts[key];
    }

    method Archive(id: nat)
      modifies this`cases
      ensures Contents() == RuleStore.Archive(old(Contents()), id)
    {
      cases := map k | k in cases :: if cases[k].id == id then cases[k].(status := Archived) else cases[k];
    }

    method SetStatus(id: nat, status: ReviewStatus, now: nat)
      modifies this`reviews
      ensures Contents() == SetReviewStatus(old(Contents()), id, status, now)
    {
      reviews := map k | k in reviews ::
        if reviews[k].id == id then reviews[k].(status := status, resolvedAtMs := Some(now)) else reviews[k];
    }

    method ApplyOne(rule: LocalRule, hit: TraceHit, now: nat) returns (ok: bool)
      modifies this
      ensures ok == Succeeds(old(sessions), Job(rule, hit))
      ensures Contents() == if ok then RuleStore.ApplyOne(old(Contents()), Job(rule, hit), now) else old(Contents())
    {
      var key := SourceKey(rule, hit);
      ok := true;
      match rule.action
      case CreateCase(caseLabel) =>
        if hit.sessionId !in sessions {
          return false;
        }
        var row := CreateCase(hit.sessionId, key, "rule:" + rule.name, caseLabel, now);
        AddRef(row.id, "hit", HitKey(hit));
      case QueueReview(title) =>
        var _ := CreateReview(key, hit.sessionId, title.GetOr("Review " + rule.name), now);
      case EmitAlert(severity) =>
        var _ := Emit(key, rule.name, severity, hit.summary, Some(hit.sessionId), now);
    }

    /** The number of actions, or none at the first error. */
    method ApplyAll(rule: LocalRule, hits: seq<TraceHit>, now: nat) returns (actions: Option<nat>)
      modifies this
      ensures Contents() == RunJobs(old(Contents()), JobsFor(rule, hits), now)
      ensures actions == if AllSucceed(old(sessions), JobsFor(rule, hits)) then Some(|hits|) else None
    {
      ghost var jobs, before := JobsFor(rule, hits), Contents();
      hide RuleStore.ApplyOne, Succeeds, Doable;
      assert jobs[..0] == [];
      for n := 0 to |hits|
        invariant AllSucceed(before.sessions, jobs[..n])
        invariant Contents() == RuleStore.ApplyAll(before, jobs[..n], now)
      {
        assert jobs[..n + 1] == jobs[..n] + [jobs[n]];
        var ok := ApplyOne(rule, hits[n], now);
        if !ok {
          DoneUpTo(before.sessions, jobs, n);
          return None;
        }
        ApplyAllLast(before, jobs[..n], jobs[n], now);
      }
      assert jobs[..|hits|] == jobs;
      AllDoable(sessions, jobs);
      actions := Some(|hits|);
    }

    /** `None` where the filter does not parse or an action fails. */
    method RunOne(q: Query, rows: seq<TraceRow>, stored: StoredRule, now: nat, dryRun: bool) returns (run: Option<RuleRun>)
      modifies this
      ensures !q.parses(stored.filter) ==> run == None && Contents() == old(Contents())
      ensures q.parses(stored.filter) ==>
                var hits := Hits(q, stored.filter, rows);
                if dryRun then run == Some(RuleRun(stored.rule.id, |hits|, 0)) && Contents() == old(Contents())
                else
                  && Contents() == RunJobs(old(Contents()), JobsFor(stored.rule, hits), now)
                  && run == if AllSucceed(old(sessions), JobsFor(stored.rule, hits))
                            then Some(RuleRun(stored.rule.id, |hits|, |hits|)) else None
    {
      if !q.parses(stored.filter) {
        return None;
      }
      var hits := Hits(q, stored.filter, rows);
      if dryRun {
        return Some(RuleRun(stored.rule.id, |hits|, 0));
      }
      var actions := ApplyAll(stored.rule, hits, now);
      run := if actions.Some? then Some(RuleRun(stored.rule.id, |hits|, actions.value)) else None;
    }

    /** The whole pass; it ends at the first rule that fails. */
    method RunEnabled(q: Query, rows: seq<TraceRow>, rules: seq<StoredRule>, now: nat, dryRun: bool)
        returns (runs: Option<seq<RuleRun>>)
      modifies this
      ensures Contents() == RuleRuns.RunEnabled(old(Contents()), q, rows, rules, now, dryRun)
      ensures runs.Some? <==> AllParse(q, rules) && (dryRun || AllSucceed(old(sessions), JobsOf(q, rows, rules)))
      ensures runs.Some? ==> runs.value == Reports(q, rows, rules, dryRun)
    {
      ghost var before := Contents();
      var done: seq<RuleRun> := [];
      assert rules[0..] == rules;
      hide AllParse, Reaches, Reports, RuleRuns.RunEnabled, JobsOf, Hits, JobsFor, RunJobs, AllSucceed;
      ReachesStart(before, q, rows, rules, now, dryRun);
      assert AllParse(q, rules[..0]) by { NothingToParse(q); }
      for n := 0 to |rules|
        invariant sessions == before.sessions && AllParse(q, rules[..n])
        invariant Reaches(before, Contents(), q, rows, rules, rules[n..], now, dryRun)
        invariant Reports(q, rows, rules, dryRun) == done + Reports(q, rows, rules[n..], dryRun)
      {
        SplitAt(rules, n);
        ParsesNext(q, rules, n);
        PassStep(before, Contents(), q, rows, rules, rules[n..], now, dryRun);
        ReportsStep(q, rows, rules, done, rules[n..], dryRun);
        if rules[n].enabled {
          var run := RunOne(q, rows, rules[n], now, dryRun);
          if run == None {
            return None;
          }
          done := done + [run.value];
        }
      }
      assert rules[..|rules|] == rules && rules[|rules|..] == [];
      PassEnd(before, Contents(), q, rows, rules, done, now, dryRun);
      runs := Some(done);
    }
  }

  /** What is left to do on `db` leads where all of it leads from `before`. */
  ghost predicate Reaches(before: Db, db: Db, q: Query, rows: seq<TraceRow>, rules: seq<StoredRule>,
                          rest: seq<StoredRule>, now: nat, dryRun: bool)
  {
    && RuleRuns.RunEnabled(before, q, rows, rules, now, dryRun) == RuleRuns.RunEnabled(db, q, rows, rest, now, dryRun)
    && (dryRun || (AllSucceed(db.sessions, JobsOf(q, rows, rules)) <==> AllSucceed(db.sessions, JobsOf(q, rows, rest))))
  }

  lemma SplitAt(rules: seq<StoredRule>, n: nat)
    requires n < |rules|
    ensures rules[n..][0] == rules[n] && rules[n..][1..] == rules[n + 1..]
  {
  }

  lemma NothingToParse(q: Query)
    ensures AllParse(q, [])
  {
  }

  lemma ParsesNext(q: Query, rules: seq<StoredRule>, n: nat)
    requires n < |rules| && AllParse(q, rules[..n])
    ensures AllParse(q, rules[..n + 1]) <==> rules[n].enabled ==> q.parses(rules[n].filter)
    ensures rules[n].enabled && !q.parses(rules[n].filter) ==> !AllParse(q, rules)
  {
    assert rules[..n + 1] == rules[..n] + [rules[n]];
  }

  lemma ReachesStart(db: Db, q: Query, rows: seq<TraceRow>, rules: seq<StoredRule>, now: nat, dryRun: bool)
    ensures Reaches(db, db, q, rows, rules, rules, now, dryRun)
  {
  }

  lemma PassEnd(before: Db, db: Db, q: Query, rows: seq<TraceRow>, rules: seq<StoredRule>, done: seq<RuleRun>,
                now: nat, dryRun: bool)
    requires Reaches(before, db, q, rows, rules, [], now, dryRun)
    ensures RuleRuns.RunEnabled(before, q, rows, rules, now, dryRun) == db
    ensures dryRun || AllSucceed(db.sessions, JobsOf(q, rows, rules))
    ensures done + Reports(q, rows, [], dryRun) == done
  {
  }

  lemma ReportsStep(q: Query, rows: seq<TraceRow>, rules: seq<StoredRule>, done: seq<RuleRun>, rest: seq<StoredRule>, dryRun: bool)
    requires rest != [] && Reports(q, rows, rules, dryRun) == done + Reports(q, rows, rest, dryRun)
    ensures var hits := |Hits(q, rest[0].filter, rows)|;
            Reports(q, rows, rules, dryRun)
            == (if rest[0].enabled then done + [RuleRun(rest[0].rule.id, hits, if dryRun then 0 else hits)] else done)
               + Reports(q, rows, rest[1..], dryRun)
  {
    hide Hits;
  }

  lemma PassStep(before: Db, db: Db, q: Query, rows: seq<TraceRow>, rules: seq<StoredRule>, rest: seq<StoredRule>,
                 now: nat, dryRun: bool)
    requires rest != [] && Reaches(before, db, q, rows, rules, rest, now, dryRun)
    ensures var head := JobsFor(rest[0].rule, Hits(q, rest[0].filter, rows));
            if !rest[0].enabled then Reaches(before, db, q, rows, rules, rest[1..], now, dryRun)
            else if !q.parses(rest[0].filter) then RuleRuns.RunEnabled(before, q, rows, rules, now, dryRun) == db
            else if dryRun then Reaches(before, db, q, rows, rules, rest[1..], now, dryRun)
            else if AllSucceed(db.sessions, head)
            then Reaches(before, RunJobs(db, head, now), q, rows, rules, rest[1..], now, dryRun)
            else && RuleRuns.RunEnabled(before, q, rows, rules, now, dryRun) == RunJobs(db, head, now)
                 && !AllSucceed(db.sessions, JobsOf(q, rows, rules))
  {
    if rest[0].enabled {
      hide Hits, JobsFor, AllSucceed;
      if q.parses(rest[0].filter) {
        RunJobsSplits(db, JobsFor(rest[0].rule, Hits(q, rest[0].filter, rows)), JobsOf(q, rows, rest[1..]), now);
      }
      hide RuleStore.ApplyAll, Doable;
    }
  }

  /** Jobs one after another: the second part follows on the tables the first
      part leaves, unless the first part fails. */
  lemma RunJobsSplits(db: Db, a: seq<Job>, b: seq<Job>, now: nat)
    ensures AllSucceed(db.sessions, a + b) <==> AllSucceed(db.sessions, a) && AllSucceed(db.sessions, b)
    ensures RunJobs(db, a + b, now)
            == if AllSucceed(db.sessions, a) then RunJobs(RunJobs(db, a, now), b, now) else RunJobs(db, a, now)
  {
    SucceedSplits(db.sessions, a, b);
    DoableSplits(db.sessions, a, b);
    if AllSucceed(db.sessions, a) {
      ApplyAllSplits(db, a, Doable(db.sessions, b), now);
    }
  }

  lemma SucceedSplits(sessions: map<string, Option<string>>, a: seq<Job>, b: seq<Job>)
    ensures AllSucceed(sessions, a + b) <==> AllSucceed(sessions, a) && AllSucceed(sessions, b)
  {
    if AllSucceed(sessions, a + b) {
      forall i | 0 <= i < |a| ensures Succeeds(sessions, a[i]) { assert (a + b)[i] == a[i]; }
      forall i | 0 <= i < |b| ensures Succeeds(sessions, b[i]) { assert (a + b)[|a| + i] == b[i]; }
    }
  }

  lemma {:induction false} DoableSplits(sessions: map<string, Option<string>>, a: seq<Job>, b: seq<Job>)
    ensures Doable(sessions, a + b)
            == if AllSucceed(sessions, a) then a + Doable(sessions, b) else Doable(sessions, a)
    ensures AllSucceed(sessions, a) ==> Doable(sessions, a) == a
  {
    if a == [] {
      assert a + b == b;
    } else {
      var first, rest := a[0], a[1..];
      assert a == [first] + rest && (a + b)[1..] == rest + b;
      SucceedSplits(sessions, [first], rest);
      assert AllSucceed(sessions, [first]) <==> Succeeds(sessions, first);
      assert Doable(sessions, a + b) == if Succeeds(sessions, first) then [first] + Doable(sessions, rest + b) else [];
      assert Doable(sessions, a) == if Succeeds(sessions, first) then [first] + Doable(sessions, rest) else [];
      hide AllSucceed, Succeeds, Doable;
      DoableSplits(sessions, rest, b);
    }
  }

  lemma ApplyAllLast(db: Db, jobs: seq<Job>, job: Job, now: nat)
    requires AllSucceed(db.sessions, jobs) && Succeeds(db.sessions, job)
    ensures AllSucceed(db.sessions, jobs + [job])
    ensures RuleStore.ApplyAll(db, jobs + [job], now) == RuleStore.ApplyOne(RuleStore.ApplyAll(db, jobs, now), job, now)
  {
    assert (jobs + [job])[..|jobs|] == jobs;
    SucceedSplits(db.sessions, jobs, [job]);
    hide RuleStore.ApplyOne, AllSucceed, Succeeds;
  }

  lemma {:induction false} ApplyAllSplits(db: Db, a: seq<Job>, b: seq<Job>, now: nat)
    requires AllSucceed(db.sessions, a) && AllSucceed(db.sessions, b)
    ensures AllSucceed(db.sessions, a + b)
    ensures RuleStore.ApplyAll(db, a + b, now) == RuleStore.ApplyAll(RuleStore.ApplyAll(db, a, now), b, now)
  {
    SucceedSplits(db.sessions, a, b);
    if b == [] {
      assert a + b == a;
    } else {
      var n := |b| - 1;
      var init, last := b[..n], b[n];
      assert Succeeds(db.sessions, last) && AllSucceed(db.sessions, init);
      hide AllSucceed, Succeeds, RuleStore.ApplyAll, RuleStore.ApplyOne;
      ApplyAllSplits(db, a, init, now);
      ApplyAllLast(db, a + init, last, now);
      ApplyAllLast(RuleStore.ApplyAll(db, a, now), init, last, now);
      assert b == init + [last] && a + b == a + init + [last];
    }
  }

  lemma {:induction false} DoneUpTo(sessions: map<string, Option<string>>, jobs: seq<Job>, n: nat)
    requires n < |jobs| && AllSucceed(sessions, jobs[..n]) && !Succeeds(sessions, jobs[n])
    ensures Doable(sessions, jobs) == jobs[..n]
  {
    if n > 0 {
      assert Succeeds(sessions, jobs[..n][0]);
      assert jobs[1..][..n - 1] == jobs[..n][1..];
      DoneUpTo(sessions, jobs[1..], n - 1);
    }
  }
}
