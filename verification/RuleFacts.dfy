/** The rule automation of `src/core_loop/` in literal terms: key texts, new rows,
    jobs and reports. */
module RuleFacts {
  import opened Options
  import opened RuleKeys
  import opened RuleStore
  import opened RuleRuns
  import opened RuleEngine

  // ---- Keys ----

  function DigitValue(c: char): int {
    c as int - '0' as int
  }

  function Value(digits: string): int {
    if digits == [] then 0 else 10 * Value(digits[..|digits| - 1]) + DigitValue(digits[|digits| - 1])
  }

  /** The decimal text of a number has that value, only digits and no zero in front. */
  lemma {:induction false} DecimalIs(n: nat)
    ensures Value(Decimal(n)) == n && Decimal(n) != []
    ensures forall i | 0 <= i < |Decimal(n)| :: '0' <= Decimal(n)[i] <= '9'
    ensures n > 0 ==> Decimal(n)[0] != '0'
  {
    if n >= 10 {
      DecimalIs(n / 10);
      assert Decimal(n)[..|Decimal(n)| - 1] == Decimal(n / 10);
    } else {
      assert [Digit(n)][..0] == [];
    }
  }

  /** Main result: the source keys, letter by letter. */
  lemma KeysAre(rule: LocalRule, hit: TraceHit)
    ensures var name := if hit.seqNo.Some? then hit.sessionId + ":" + Decimal(hit.seqNo.value) else hit.sessionId;
            && HitKey(hit) == name
            && (rule.action.CreateCase? ==> SourceKey(rule, hit) == "rule:" + rule.id + ":" + "case" + ":" + name)
            && (rule.action.QueueReview? ==> SourceKey(rule, hit) == "rule:" + rule.id + ":" + "review" + ":" + name)
            && (rule.action.EmitAlert? ==> SourceKey(rule, hit) == "rule:" + rule.id + ":" + "alert" + ":" + name)
  {
  }

  // ---- New rows ----

  /** Main result: the cases, reviews and alerts that a run adds, cut short or not,
      are open, unresolved and of the time of the run. */
  lemma NewRowsAreOpen(db: Db, step: Step)
    requires step.Run? || step.CutShort?
    ensures var after := Apply(db, step);
            && (forall k | k in after.cases && k !in db.cases ::
                  after.cases[k].status == CaseOpen && after.cases[k].createdAtMs == step.now)
            && (forall k | k in after.reviews && k !in db.reviews ::
                  && after.reviews[k].status == ReviewOpen && after.reviews[k].resolvedAtMs == None
                  && after.reviews[k].createdAtMs == step.now)
            && (forall k | k in after.alerts && k !in db.alerts :: after.alerts[k].createdAtMs == step.now)
  {
    hide ApplyAll, FirstWrite, Doable;
    var done := Doable(db.sessions, step.jobs);
    if step.Run? {
      AllAddOpen(db, done, step.now);
    } else if step.k <= |done| {
      AllAddOpen(db, done[..step.k], step.now);
      if step.half && step.k < |done| {
        var before := ApplyAll(db, done[..step.k], step.now);
        FirstAddsOpen(before, done[step.k], step.now);
        OpenJoins(db, before, FirstWrite(before, done[step.k], step.now), step.now);
      }
    }
  }

  /** Rows of `after` that `before` does not have are new at `now`. */
  ghost predicate AddsOpen(before: Db, after: Db, now: nat) {
    && (forall k | k in before.cases :: k in after.cases && after.cases[k] == before.cases[k])
    && (forall k | k in before.reviews :: k in after.reviews && after.reviews[k] == before.reviews[k])
    && (forall k | k in before.alerts :: k in after.alerts && after.alerts[k] == before.alerts[k])
    && (forall k | k in after.cases && k !in before.cases ::
          after.cases[k].status == CaseOpen && after.cases[k].createdAtMs == now)
    && (forall k | k in after.reviews && k !in before.reviews ::
          after.reviews[k].status == ReviewOpen && after.reviews[k].resolvedAtMs == None && after.reviews[k].createdAtMs == now)
    && (forall k | k in after.alerts && k !in before.alerts :: after.alerts[k].createdAtMs == now)
  }

  lemma OpenJoins(a: Db, b: Db, c: Db, now: nat)
    requires AddsOpen(a, b, now) && AddsOpen(b, c, now)
    ensures AddsOpen(a, c, now)
  {
  }

  lemma FirstAddsOpen(db: Db, job: Job, now: nat)
    requires Succeeds(db.sessions, job)
    ensures AddsOpen(db, FirstWrite(db, job, now), now)
  {
    hide SourceKey;
    match job.rule.action
    case CreateCase(_) => hide CreateReview, EmitAlertRow;
    case QueueReview(_) => hide CreateCaseRow, EmitAlertRow;
    case EmitAlert(_) => hide CreateCaseRow, CreateReview;
  }

  lemma OneAddsOpen(db: Db, job: Job, now: nat)
    requires Succeeds(db.sessions, job)
    ensures AddsOpen(db, ApplyOne(db, job, now), now)
  {
    FirstAddsOpen(db, job, now);
    hide FirstWrite, SourceKey, HitKey;
  }

  lemma {:induction false} AllAddOpen(db: Db, jobs: seq<Job>, now: nat)
    requires AllSucceed(db.sessions, jobs)
    ensures AddsOpen(db, ApplyAll(db, jobs, now), now)
  {
    if jobs != [] {
      var n := |jobs| - 1;
      AllAddOpen(db, jobs[..n], now);
      OneAddsOpen(ApplyAll(db, jobs[..n], now), jobs[n], now);
      OpenJoins(db, ApplyAll(db, jobs[..n], now), ApplyAll(db, jobs, now), now);
      hide AddsOpen, ApplyOne;
    }
  }

  // ---- Jobs and reports ----

  /** Only a case looks for the session of its hit. */
  lemma SucceedsIff(sessions: map<string, Option<string>>, job: Job)
    ensures !Succeeds(sessions, job) <==> job.rule.action.CreateCase? && job.hit.sessionId !in sessions
  {
  }

  /** A hit names its event. */
  lemma HitIs(row: TraceRow)
    ensures Hit(row).sessionId == row.sessionId && Hit(row).seqNo == Some(row.seqNo) && Hit(row).summary == row.summary
  {
  }

  lemma JobsForIs(rule: LocalRule, hits: seq<TraceHit>)
    ensures |JobsFor(rule, hits)| == |hits| && forall i | 0 <= i < |hits| :: JobsFor(rule, hits)[i] == Job(rule, hits[i])
  {
  }

  lemma {:induction false} JobsSplit(q: Query, rows: seq<TraceRow>, a: seq<StoredRule>, b: seq<StoredRule>)
    requires AllParse(q, a)
    ensures JobsOf(q, rows, a + b) == JobsOf(q, rows, a) + JobsOf(q, rows, b)
  {
    if a == [] {
      assert a + b == b;
    } else {
      assert (a + b)[1..] == a[1..] + b;
      JobsHead(q, rows, a);
      JobsHead(q, rows, a + b);
      hide JobsOf, JobsFor, Hits;
      JobsSplit(q, rows, a[1..], b);
    }
  }

  /** Main result: rules that are off give no job; the jobs of the others come rule
      by rule, hit by hit, and a filter that does not parse ends them. */
  lemma JobsInTurn(q: Query, rows: seq<TraceRow>, rules: seq<StoredRule>, stored: StoredRule, rest: seq<StoredRule>)
    requires AllParse(q, rules)
    ensures var before, all := JobsOf(q, rows, rules), JobsOf(q, rows, rules + ([stored] + rest));
            && (!stored.enabled ==> all == before + JobsOf(q, rows, rest))
            && (stored.enabled && !q.parses(stored.filter) ==> all == before)
            && (stored.enabled && q.parses(stored.filter) ==>
                  all == before + (JobsFor(stored.rule, Hits(q, stored.filter, rows)) + JobsOf(q, rows, rest)))
  {
    JobsSplit(q, rows, rules, [stored] + rest);
    assert ([stored] + rest)[1..] == rest && ([stored] + rest)[0] == stored;
    hide JobsFor, Hits;
  }

  lemma JobsHead(q: Query, rows: seq<TraceRow>, rules: seq<StoredRule>)
    requires rules != [] && (rules[0].enabled ==> q.parses(rules[0].filter))
    ensures JobsOf(q, rows, rules)
            == (if rules[0].enabled then JobsFor(rules[0].rule, Hits(q, rules[0].filter, rows)) else []) + JobsOf(q, rows, rules[1..])
  {
  }

  /** A dry run changes nothing. */
  lemma DryRunChangesNothing(db: Db, q: Query, rows: seq<TraceRow>, rules: seq<StoredRule>, now: nat)
    ensures RuleRuns.RunEnabled(db, q, rows, rules, now, true) == db
  {
  }

  /** The enabled rules in order. */
  function Enabled(rules: seq<StoredRule>): seq<StoredRule> {
    if rules == [] then [] else (if rules[0].enabled then [rules[0]] else []) + Enabled(rules[1..])
  }

  /** One report for each enabled rule, with its hits, and as many actions unless the
      run is dry. */
  lemma {:induction false} ReportsAre(q: Query, rows: seq<TraceRow>, rules: seq<StoredRule>, dryRun: bool, i: nat)
    requires i < |Enabled(rules)|
    ensures var r, stored := Reports(q, rows, rules, dryRun), Enabled(rules)[i];
            && |r| == |Enabled(rules)| && r[i].ruleId == stored.rule.id && r[i].hits == |Hits(q, stored.filter, rows)|
            && r[i].actions == if dryRun then 0 else r[i].hits
  {
    hide Hits;
    if rules[0].enabled {
      ReportsLength(q, rows, rules[1..], dryRun);
      if i > 0 {
        ReportsAre(q, rows, rules[1..], dryRun, i - 1);
      }
    } else {
      ReportsAre(q, rows, rules[1..], dryRun, i);
    }
  }

  lemma {:induction false} ReportsLength(q: Query, rows: seq<TraceRow>, rules: seq<StoredRule>, dryRun: bool)
    ensures |Reports(q, rows, rules, dryRun)| == |Enabled(rules)|
  {
    hide Hits;
    if rules != [] {
      ReportsLength(q, rows, rules[1..], dryRun);
    }
  }
}
