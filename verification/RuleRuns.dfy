/** Which events a rule acts on: `run_enabled` and `run_one` in
    `src/core_loop/rules.rs` over `run` in `src/core_loop/query.rs`.

    Parsing a filter and matching one row are parameters; neither reads a table
    that the actions write. */
module RuleRuns {
  import opened Options
  import opened RuleKeys
  import opened RuleStore

  /** An event of the workspace, as listed by time, session and seq. */
  datatype TraceRow = TraceRow(sessionId: string, seqNo: nat, summary: string)

  datatype Query = Query(parses: string -> bool, matches: (string, TraceRow) -> bool)

  datatype StoredRule = StoredRule(rule: LocalRule, filter: string, enabled: bool)

  const HIT_LIMIT: nat := 100

  function Hit(row: TraceRow): TraceHit {
    TraceHit(row.sessionId, Some(row.seqNo), row.summary)
  }

  function Matching(q: Query, filter: string, rows: seq<TraceRow>): seq<TraceHit> {
    if rows == [] then []
    else
      var n := |rows| - 1;
      Matching(q, filter, rows[..n]) + if q.matches(filter, rows[n]) then [Hit(rows[n])] else []
  }

  function Hits(q: Query, filter: string, rows: seq<TraceRow>): seq<TraceHit> {
    var all := Matching(q, filter, rows);
    if |all| <= HIT_LIMIT then all else all[..HIT_LIMIT]
  }

  function JobsFor(rule: LocalRule, hits: seq<TraceHit>): seq<Job> {
    seq(|hits|, i requires 0 <= i < |hits| => Job(rule, hits[i]))
  }

  /** Enabled rules in order; a filter that does not parse ends the run. */
  function JobsOf(q: Query, rows: seq<TraceRow>, rules: seq<StoredRule>): seq<Job> {
    if rules == [] then []
    else if !rules[0].enabled then JobsOf(q, rows, rules[1..])
    else if !q.parses(rules[0].filter) then []
    else JobsFor(rules[0].rule, Hits(q, rules[0].filter, rows)) + JobsOf(q, rows, rules[1..])
  }

  function RunEnabled(db: Db, q: Query, rows: seq<TraceRow>, rules: seq<StoredRule>, now: nat, dryRun: bool): Db {
    if dryRun then db else RunJobs(db, JobsOf(q, rows, rules), now)
  }

  /** The row that an action writes first. */
  function MainEntry(rule: LocalRule, hit: TraceHit): Entry {
    var key := SourceKey(rule, hit);
    match rule.action
    case CreateCase(_) => CaseOf(key)
    case QueueReview(_) => ReviewOf(key)
    case EmitAlert(_) => AlertOf(key)
  }

  ghost predicate DistinctRows(rows: seq<TraceRow>) {
    forall i, j | 0 <= i < j < |rows| :: rows[i].sessionId != rows[j].sessionId || rows[i].seqNo != rows[j].seqNo
  }

  ghost predicate DistinctRules(rules: seq<StoredRule>) {
    && (forall i | 0 <= i < |rules| :: ':' !in rules[i].rule.id)
    && (forall i, j | 0 <= i < j < |rules| :: rules[i].rule.id != rules[j].rule.id)
  }

  ghost predicate AllParse(q: Query, rules: seq<StoredRule>) {
    forall i | 0 <= i < |rules| && rules[i].enabled :: q.parses(rules[i].filter)
  }

  // ---- The first hundred matches ----

  lemma {:induction false} MatchingAt(q: Query, filter: string, rows: seq<TraceRow>, i: nat)
    requires i < |rows| && q.matches(filter, rows[i])
    ensures var at := |Matching(q, filter, rows[..i])|;
            at < |Matching(q, filter, rows)| && Matching(q, filter, rows)[at] == Hit(rows[i])
  {
    var n := |rows| - 1;
    if i < n {
      MatchingAt(q, filter, rows[..n], i);
      assert rows[..n][..i] == rows[..i];
    }
  }

  lemma {:induction false} MatchingFrom(q: Query, filter: string, rows: seq<TraceRow>, h: nat) returns (i: nat)
    requires h < |Matching(q, filter, rows)|
    ensures i < |rows| && q.matches(filter, rows[i]) && |Matching(q, filter, rows[..i])| == h
    ensures Matching(q, filter, rows)[h] == Hit(rows[i])
  {
    var n := |rows| - 1;
    if h < |Matching(q, filter, rows[..n])| {
      i := MatchingFrom(q, filter, rows[..n], h);
      assert rows[..n][..i] == rows[..i];
    } else {
      i := n;
    }
  }

  /** An event is a hit exactly when it matches and fewer than a hundred matching
      events come before it. */
  lemma HitIffAmongFirst(q: Query, filter: string, rows: seq<TraceRow>, i: nat)
    requires i < |rows| && DistinctRows(rows)
    ensures Hit(rows[i]) in Hits(q, filter, rows)
            <==> q.matches(filter, rows[i]) && |Matching(q, filter, rows[..i])| < 100
  {
    var hits := Hits(q, filter, rows);
    if q.matches(filter, rows[i]) && |Matching(q, filter, rows[..i])| < HIT_LIMIT {
      MatchingAt(q, filter, rows, i);
      assert hits[|Matching(q, filter, rows[..i])|] == Hit(rows[i]);
    }
    if Hit(rows[i]) in hits {
      var h: nat :| h < |hits| && hits[h] == Hit(rows[i]);
      var j := MatchingFrom(q, filter, rows, h);
      assert i == j;
    }
  }

  lemma {:induction false} MatchingOfPrefix(q: Query, filter: string, rows: seq<TraceRow>, more: seq<TraceRow>)
    ensures Matching(q, filter, rows) <= Matching(q, filter, rows + more)
  {
    var n := |more| - 1;
    if more == [] {
      assert rows + more == rows;
    } else {
      assert (rows + more)[..|rows| + n] == rows + more[..n];
      MatchingOfPrefix(q, filter, rows, more[..n]);
    }
  }

  /** Once a hundred events match, events that come later change nothing: the
      rule goes on looking at the same hundred. */
  lemma HitsSaturate(q: Query, filter: string, rows: seq<TraceRow>, more: seq<TraceRow>)
    ensures Hits(q, filter, rows) <= Hits(q, filter, rows + more)
    ensures |Hits(q, filter, rows)| == HIT_LIMIT ==> Hits(q, filter, rows + more) == Hits(q, filter, rows)
  {
    MatchingOfPrefix(q, filter, rows, more);
  }

  // ---- Jobs ----

  lemma {:induction false} JobComesFrom(q: Query, rows: seq<TraceRow>, rules: seq<StoredRule>, k: nat)
      returns (r: nat, h: nat)
    requires k < |JobsOf(q, rows, rules)|
    ensures r < |rules| && rules[r].enabled && h < |Hits(q, rules[r].filter, rows)|
    ensures JobsOf(q, rows, rules)[k] == Job(rules[r].rule, Hits(q, rules[r].filter, rows)[h])
  {
    hide Hits;
    var head := if rules[0].enabled then |Hits(q, rules[0].filter, rows)| else 0;
    if k < head {
      r, h := 0, k;
    } else {
      r, h := JobComesFrom(q, rows, rules[1..], k - head);
      r := r + 1;
    }
  }

  lemma {:induction false} JobIsMade(q: Query, rows: seq<TraceRow>, rules: seq<StoredRule>, r: nat, h: nat) returns (k: nat)
    requires AllParse(q, rules) && r < |rules| && rules[r].enabled && h < |Hits(q, rules[r].filter, rows)|
    ensures k < |JobsOf(q, rows, rules)|
    ensures JobsOf(q, rows, rules)[k] == Job(rules[r].rule, Hits(q, rules[r].filter, rows)[h])
  {
    hide Hits;
    if r == 0 {
      k := h;
    } else {
      k := JobIsMade(q, rows, rules[1..], r - 1, h);
      k := k + if rules[0].enabled then |Hits(q, rules[0].filter, rows)| else 0;
    }
  }

  lemma HitComesFrom(q: Query, filter: string, rows: seq<TraceRow>, h: nat) returns (i: nat)
    requires h < |Hits(q, filter, rows)|
    ensures i < |rows| && Hits(q, filter, rows)[h] == Hit(rows[i])
  {
    i := MatchingFrom(q, filter, rows, h);
  }

  /** Jobs that all succeed are all done. */
  lemma AllDoable(sessions: map<string, Option<string>>, jobs: seq<Job>)
    requires AllSucceed(sessions, jobs)
    ensures Doable(sessions, jobs) == jobs
  {
  }

  ghost predicate SessionsStored(db: Db, rows: seq<TraceRow>) {
    forall i | 0 <= i < |rows| :: rows[i].sessionId in db.sessions
  }

  lemma JobsSucceed(db: Db, q: Query, rows: seq<TraceRow>, rules: seq<StoredRule>)
    requires SessionsStored(db, rows)
    ensures AllSucceed(db.sessions, JobsOf(q, rows, rules))
  {
    var jobs := JobsOf(q, rows, rules);
    forall k: nat | k < |jobs| ensures Succeeds(db.sessions, jobs[k]) {
      var r, h := JobComesFrom(q, rows, rules, k);
      var i := HitComesFrom(q, rules[r].filter, rows, h);
      hide JobsOf, Hits;
    }
  }

  // ---- What a rule acts on ----

  lemma AskedIfHit(q: Query, rows: seq<TraceRow>, rules: seq<StoredRule>, r: nat, hit: TraceHit)
    requires AllParse(q, rules) && r < |rules| && rules[r].enabled && hit in Hits(q, rules[r].filter, rows)
    ensures MainEntry(rules[r].rule, hit) in AskedByAll(JobsOf(q, rows, rules))
  {
    hide Hits, JobsOf, SourceKey, HitKey;
    var h: nat :| h < |Hits(q, rules[r].filter, rows)| && Hits(q, rules[r].filter, rows)[h] == hit;
    var k := JobIsMade(q, rows, rules, r, h);
    assert Asks(JobsOf(q, rows, rules)[k], MainEntry(rules[r].rule, hit));
  }

  lemma HitIfAsked(q: Query, rows: seq<TraceRow>, rules: seq<StoredRule>, r: nat, i: nat)
    requires DistinctRows(rows) && DistinctRules(rules) && r < |rules| && i < |rows|
    requires MainEntry(rules[r].rule, Hit(rows[i])) in AskedByAll(JobsOf(q, rows, rules))
    ensures rules[r].enabled && Hit(rows[i]) in Hits(q, rules[r].filter, rows)
  {
    var jobs, e := JobsOf(q, rows, rules), MainEntry(rules[r].rule, Hit(rows[i]));
    hide SourceKey, HitKey, JobsOf, Hits;
    var k: nat :| k < |jobs| && Asks(jobs[k], e);
    var s, h := JobComesFrom(q, rows, rules, k);
    var j := HitComesFrom(q, rules[s].filter, rows, h);
    assert SourceKey(rules[s].rule, Hit(rows[j])) == SourceKey(rules[r].rule, Hit(rows[i]));
    SourceKeyNamesItsParts(rules[s].rule, Hit(rows[j]), rules[r].rule, Hit(rows[i]));
    assert s == r && j == i;
  }

  /** Main result: a run acts on an event exactly when its rule is enabled, the
      event matches and fewer than a hundred matching events come before it. */
  lemma ActedOnIffAmongFirst(db: Db, q: Query, rows: seq<TraceRow>, rules: seq<StoredRule>, now: nat, r: nat, i: nat)
    requires FreshIds(db) && SessionsStored(db, rows) && DistinctRows(rows) && DistinctRules(rules) && AllParse(q, rules)
    requires r < |rules| && i < |rows|
    ensures MainEntry(rules[r].rule, Hit(rows[i])) in Entries(RunEnabled(db, q, rows, rules, now, false))
            <==> || MainEntry(rules[r].rule, Hit(rows[i])) in Entries(db)
                 || (&& rules[r].enabled && q.matches(rules[r].filter, rows[i])
                     && |Matching(q, rules[r].filter, rows[..i])| < 100)
  {
    var jobs, e := JobsOf(q, rows, rules), MainEntry(rules[r].rule, Hit(rows[i]));
    JobsSucceed(db, q, rows, rules);
    AllDoable(db.sessions, jobs);
    ApplyAllEffect(db, jobs, now);
    HitIffAmongFirst(q, rules[r].filter, rows, i);
    hide Entries, AskedByAll, JobsOf, Hits, MainEntry, ApplyAll, FreshIds, Matching, DistinctRows, DistinctRules;
    if e in AskedByAll(jobs) {
      HitIfAsked(q, rows, rules, r, i);
    }
    if rules[r].enabled && Hit(rows[i]) in Hits(q, rules[r].filter, rows) {
      AskedIfHit(q, rows, rules, r, Hit(rows[i]));
    }
  }

  // ---- Reruns ----

  lemma ClickKeepsEntries(db: Db, step: Step)
    requires step.ArchiveCase? || step.Review?
    ensures Entries(Apply(db, step)) == Entries(db)
  {
    var after := Apply(db, step);
    forall e ensures Holds(after, e) <==> Holds(db, e) {
    }
  }

  lemma StepAddsAsked(db: Db, step: Step)
    requires FreshIds(db)
    ensures Entries(Apply(db, step)) <= Entries(db) + if step.Run? || step.CutShort? then AskedByAll(step.jobs) else iset{}
  {
    hide Entries, AskedByAll, FreshIds;
    if step.Run? || step.CutShort? {
      var done := Doable(db.sessions, step.jobs);
      AskedByPrefix(step.jobs, |done|);
      assert step.jobs[..|done|] == done;
      if step.Run? {
        ApplyAllEffect(db, done, step.now);
      } else if step.k <= |done| {
        InterruptedEffect(db, step.jobs, step.now, step.k, step.half);
      }
    } else {
      ClickKeepsEntries(db, step);
    }
  }

  /** No run, cut short or not, asks for the entry. */
  ghost predicate NeverAsked(steps: seq<Step>, e: Entry) {
    forall i | 0 <= i < |steps| && (steps[i].Run? || steps[i].CutShort?) :: e !in AskedByAll(steps[i].jobs)
  }

  lemma {:induction false} NeverAskedNeverThere(db: Db, steps: seq<Step>, e: Entry)
    requires FreshIds(db) && NeverAsked(steps, e) && e !in Entries(db)
    ensures e !in Entries(RunSteps(db, steps))
  {
    if steps != [] {
      var n := |steps| - 1;
      hide Entries, AskedByAll, FreshIds, Apply;
      assert NeverAsked(steps[..n], e);
      NeverAskedNeverThere(db, steps[..n], e);
      IdsStayFresh(db, steps[..n]);
      StepAddsAsked(RunSteps(db, steps[..n]), steps[n]);
    }
  }

  // ---- New events between runs ----

  /** The events of `rows` stand in `all` in the same order, at the places `at`. */
  ghost predicate Embeds(rows: seq<TraceRow>, all: seq<TraceRow>, at: seq<nat>) {
    && |at| == |rows|
    && (forall j | 0 <= j < |at| :: at[j] < |all| && all[at[j]] == rows[j])
    && (forall j, k | 0 <= j < k < |at| :: at[j] < at[k])
  }

  /** More events and the same verdicts leave no fewer matches before an event. */
  lemma {:induction false} MatchesStayBefore(q: Query, rows: seq<TraceRow>, q': Query, all: seq<TraceRow>, at: seq<nat>,
                                             filter: string, i: nat)
    requires Embeds(rows, all, at) && i < |rows|
    requires forall j | 0 <= j < i && q.matches(filter, rows[j]) :: q'.matches(filter, rows[j])
    ensures |Matching(q, filter, rows[..i])| <= |Matching(q', filter, all[..at[i]])|
  {
    if i > 0 {
      var m := at[i - 1];
      MatchesStayBefore(q, rows, q', all, at, filter, i - 1);
      assert rows[..i][..i - 1] == rows[..i - 1];
      assert all[..m + 1][..m] == all[..m] && all[..m + 1][m] == rows[i - 1];
      assert all[..m + 1] + all[m + 1..at[i]] == all[..at[i]];
      MatchingOfPrefix(q', filter, all[..m + 1], all[m + 1..at[i]]);
    }
  }

  /** A run over a log that holds at least the events of `rows`, where what matched
      before event `i` still matches.  The rule has kept its filter, or is gone. */
  ghost predicate RanOver(jobs: seq<Job>, q': Query, all: seq<TraceRow>, at: seq<nat>, rules: seq<StoredRule>,
                          q: Query, rows: seq<TraceRow>, stored: StoredRule, i: nat)
  {
    && jobs == JobsOf(q', all, rules) && DistinctRows(all) && DistinctRules(rules) && Embeds(rows, all, at)
    && (forall s | 0 <= s < |rules| && rules[s].rule.id == stored.rule.id :: rules[s].filter == stored.filter)
    && (forall j | 0 <= j < i < |rows| && q.matches(stored.filter, rows[j]) :: q'.matches(stored.filter, rows[j]))
  }

  ghost predicate LogGrows(steps: seq<Step>, q: Query, rows: seq<TraceRow>, stored: StoredRule, i: nat) {
    forall n | 0 <= n < |steps| && (steps[n].Run? || steps[n].CutShort?) ::
      exists q', all, at, rules :: RanOver(steps[n].jobs, q', all, at, rules, q, rows, stored, i)
  }

  lemma AskedIsHit(q: Query, all: seq<TraceRow>, rules: seq<StoredRule>, stored: StoredRule, p: nat)
    requires DistinctRows(all) && DistinctRules(rules) && p < |all| && ':' !in stored.rule.id
    requires forall s | 0 <= s < |rules| && rules[s].rule.id == stored.rule.id :: rules[s].filter == stored.filter
    ensures MainEntry(stored.rule, Hit(all[p])) in AskedByAll(JobsOf(q, all, rules)) ==>
              Hit(all[p]) in Hits(q, stored.filter, all)
  {
    hide SourceKey, HitKey, JobsOf, Hits;
    var jobs, e := JobsOf(q, all, rules), MainEntry(stored.rule, Hit(all[p]));
    if k: nat :| k < |jobs| && Asks(jobs[k], e) {
      var s, h := JobComesFrom(q, all, rules, k);
      var j := HitComesFrom(q, rules[s].filter, all, h);
      SourceKeyNamesItsParts(rules[s].rule, Hit(all[j]), stored.rule, Hit(all[p]));
      assert j == p;
    }
  }

  lemma LateIsNotAsked(jobs: seq<Job>, q': Query, all: seq<TraceRow>, at: seq<nat>, rules: seq<StoredRule>,
                       q: Query, rows: seq<TraceRow>, stored: StoredRule, i: nat)
    requires RanOver(jobs, q', all, at, rules, q, rows, stored, i) && i < |rows| && ':' !in stored.rule.id
    requires |Matching(q, stored.filter, rows[..i])| >= 100
    ensures MainEntry(stored.rule, Hit(rows[i])) !in AskedByAll(jobs)
  {
    hide MainEntry, AskedByAll, JobsOf, Hits, Matching;
    MatchesStayBefore(q, rows, q', all, at, stored.filter, i);
    HitIffAmongFirst(q', stored.filter, all, at[i]);
    AskedIsHit(q', all, rules, stored, at[i]);
  }

  /** Main result: an event with a hundred matches before it is never acted on,
      however often runs follow and whatever events come between them, as long as
      these hundred still match. */
  lemma LateMatchIsNeverActedOn(db: Db, q: Query, rows: seq<TraceRow>, stored: StoredRule, steps: seq<Step>, i: nat)
    requires FreshIds(db) && i < |rows| && ':' !in stored.rule.id
    requires LogGrows(steps, q, rows, stored, i)
    requires |Matching(q, stored.filter, rows[..i])| >= 100
    requires MainEntry(stored.rule, Hit(rows[i])) !in Entries(db)
    ensures MainEntry(stored.rule, Hit(rows[i])) !in Entries(RunSteps(db, steps))
  {
    var e := MainEntry(stored.rule, Hit(rows[i]));
    hide Entries, AskedByAll, MainEntry, FreshIds, Matching, RunSteps, RanOver;
    forall n | 0 <= n < |steps| && (steps[n].Run? || steps[n].CutShort?) ensures e !in AskedByAll(steps[n].jobs) {
      var q', all, at, rules :| RanOver(steps[n].jobs, q', all, at, rules, q, rows, stored, i);
      LateIsNotAsked(steps[n].jobs, q', all, at, rules, q, rows, stored, i);
    }
    NeverAskedNeverThere(db, steps, e);
  }

  /** A rerun after an interruption, put for whole runs of the enabled rules. */
  lemma RunEnabledCompletes(db: Db, q: Query, rows: seq<TraceRow>, rules: seq<StoredRule>, now: nat, later: nat, k: nat, half: bool)
    requires FreshIds(db) && SessionsStored(db, rows) && k <= |JobsOf(q, rows, rules)|
    ensures k <= |Doable(db.sessions, JobsOf(q, rows, rules))|
    ensures var once := RunEnabled(db, q, rows, rules, now, false);
            var twice := RunEnabled(Interrupted(db, JobsOf(q, rows, rules), now, k, half), q, rows, rules, later, false);
            Entries(twice) == Entries(once) && SameTables(RunEnabled(once, q, rows, rules, later, false), once)
  {
    JobsSucceed(db, q, rows, rules);
    var jobs := JobsOf(q, rows, rules);
    hide Entries, AskedByAll, FreshIds, ApplyAll, JobsOf, Interrupted, SameTables, Doable;
    AllDoable(db.sessions, jobs);
    RerunCompletes(db, jobs, now, later, k, half);
    SecondRunChangesNothing(db, jobs, now, later);
  }
}
