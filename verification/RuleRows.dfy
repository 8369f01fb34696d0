/** Every row a rule wrote still tells the rule and the hit it was written for,
    beside whatever else the tables held. */
module RuleRows {
  import opened Options
  import opened RuleKeys
  import opened RuleStore

  ghost predicate CaseTells(db: Db, key: Key, job: Job) {
    && key in db.cases && key == SourceKey(job.rule, job.hit) && job.hit.sessionId in db.sessions
    && job.rule.action.CreateCase?
    && var row := db.cases[key];
       && row.sessionId == job.hit.sessionId && row.reason == "rule:" + job.rule.name
       && row.caseLabel == job.rule.action.caseLabel && row.fingerprint == db.sessions[job.hit.sessionId]
  }

  ghost predicate ReviewTells(db: Db, key: Key, job: Job) {
    && key in db.reviews && key == SourceKey(job.rule, job.hit) && job.rule.action.QueueReview?
    && var row := db.reviews[key];
       && row.sessionId == job.hit.sessionId
       && (job.rule.action.title.None? ==> row.title == "Review " + job.rule.name)
       && (job.rule.action.title.Some? ==> row.title == job.rule.action.title.value)
       && (row.status == ReviewOpen || row.resolvedAtMs.Some?)
  }

  ghost predicate AlertTells(db: Db, key: Key, job: Job) {
    && key in db.alerts && key == SourceKey(job.rule, job.hit) && job.rule.action.EmitAlert?
    && var row := db.alerts[key];
       && row.sessionId == Some(job.hit.sessionId) && row.name == job.rule.name
       && row.message == job.hit.summary && row.severity == job.rule.action.severity
  }

  /** A ref stands at the case of its job's source key and names the job's hit. */
  ghost predicate RefTells(db: Db, ref: CaseRef, job: Job) {
    && SourceKey(job.rule, job.hit) in db.cases
    && ref == CaseRef(db.cases[SourceKey(job.rule, job.hit)].id, "hit", HitKey(job.hit))
  }

  /** The rows and refs that `base` does not have. */
  ghost predicate RowsTell(base: Db, db: Db) {
    && (forall k | k in db.cases && k !in base.cases :: exists job :: CaseTells(db, k, job))
    && (forall k | k in db.reviews && k !in base.reviews :: exists job :: ReviewTells(db, k, job))
    && (forall k | k in db.alerts && k !in base.alerts :: exists job :: AlertTells(db, k, job))
    && (forall r | r in db.refs && r !in base.refs :: exists job :: RefTells(db, r, job))
  }

  /** Rows stay, up to their status and its time. */
  ghost predicate Carries(after: Db, before: Db) {
    && after.sessions == before.sessions && before.refs <= after.refs
    && (forall k | k in before.cases :: k in after.cases
          && after.cases[k] == before.cases[k].(status := after.cases[k].status))
    && (forall k | k in before.reviews :: k in after.reviews
          && after.reviews[k] == before.reviews[k].(status := after.reviews[k].status, resolvedAtMs := after.reviews[k].resolvedAtMs)
          && (after.reviews[k] != before.reviews[k] ==> after.reviews[k].resolvedAtMs.Some?))
    && (forall k | k in before.alerts :: k in after.alerts && after.alerts[k] == before.alerts[k])
  }

  /** Rows that stay keep what they tell. */
  lemma StillTells(base: Db, db: Db, after: Db)
    requires RowsTell(base, db) && Carries(after, db)
    ensures forall k | k in db.cases && k !in base.cases :: exists job :: CaseTells(after, k, job)
    ensures forall k | k in db.reviews && k !in base.reviews :: exists job :: ReviewTells(after, k, job)
    ensures forall k | k in db.alerts && k !in base.alerts :: exists job :: AlertTells(after, k, job)
    ensures forall r | r in db.refs && r !in base.refs :: exists job :: RefTells(after, r, job)
  {
    hide SourceKey, HitKey;
    forall k | k in db.cases && k !in base.cases ensures exists job :: CaseTells(after, k, job) {
      var job :| CaseTells(db, k, job);
      assert CaseTells(after, k, job);
    }
    forall k | k in db.reviews && k !in base.reviews ensures exists job :: ReviewTells(after, k, job) {
      var job :| ReviewTells(db, k, job);
      assert ReviewTells(after, k, job);
    }
    forall k | k in db.alerts && k !in base.alerts ensures exists job :: AlertTells(after, k, job) {
      var job :| AlertTells(db, k, job);
      assert AlertTells(after, k, job);
    }
    forall r | r in db.refs && r !in base.refs ensures exists job :: RefTells(after, r, job) {
      var job :| RefTells(db, r, job);
      assert RefTells(after, r, job);
    }
  }

  lemma NewRowTells(db: Db, job: Job, now: nat)
    requires Succeeds(db.sessions, job)
    ensures var after, key := FirstWrite(db, job, now), SourceKey(job.rule, job.hit);
            && after.refs == db.refs
            && (forall k | k in after.cases && k !in db.cases :: CaseTells(after, k, job))
            && (forall k | k in after.reviews && k !in db.reviews :: ReviewTells(after, k, job))
            && (forall k | k in after.alerts && k !in db.alerts :: AlertTells(after, k, job))
  {
    hide SourceKey, HitKey;
  }

  lemma FirstWriteTells(base: Db, db: Db, job: Job, now: nat)
    requires RowsTell(base, db) && Succeeds(db.sessions, job)
    ensures RowsTell(base, FirstWrite(db, job, now))
  {
    FirstWriteExtends(db, job, now);
    StillTells(base, db, FirstWrite(db, job, now));
    NewRowTells(db, job, now);
    hide Extends, CaseTells, ReviewTells, AlertTells, RefTells, FirstWrite;
  }

  lemma AddRefTells(base: Db, db: Db, job: Job)
    requires RowsTell(base, db) && SourceKey(job.rule, job.hit) in db.cases
    ensures RowsTell(base, AddRef(db, db.cases[SourceKey(job.rule, job.hit)].id, "hit", HitKey(job.hit)))
  {
    var id := db.cases[SourceKey(job.rule, job.hit)].id;
    var after := AddRef(db, id, "hit", HitKey(job.hit));
    StillTells(base, db, after);
    assert RefTells(after, CaseRef(id, "hit", HitKey(job.hit)), job);
    hide CaseTells, ReviewTells, AlertTells, RefTells, SourceKey, HitKey, Carries;
  }

  lemma ApplyOneTells(base: Db, db: Db, job: Job, now: nat)
    requires RowsTell(base, db) && Succeeds(db.sessions, job)
    ensures RowsTell(base, ApplyOne(db, job, now))
  {
    FirstWriteTells(base, db, job, now);
    hide RowsTell, SourceKey, HitKey;
    if job.rule.action.CreateCase? {
      AddRefTells(base, FirstWrite(db, job, now), job);
    }
  }

  lemma {:induction false} ApplyAllTells(base: Db, db: Db, jobs: seq<Job>, now: nat)
    requires RowsTell(base, db) && AllSucceed(db.sessions, jobs)
    ensures RowsTell(base, ApplyAll(db, jobs, now))
  {
    if jobs != [] {
      var n := |jobs| - 1;
      ApplyAllTells(base, db, jobs[..n], now);
      ApplyOneTells(base, ApplyAll(db, jobs[..n], now), jobs[n], now);
      hide RowsTell, ApplyOne;
    }
  }

  lemma ClickCarries(db: Db, step: Step)
    requires step.ArchiveCase? || step.Review?
    ensures Carries(Apply(db, step), db)
    ensures Apply(db, step).cases.Keys == db.cases.Keys && Apply(db, step).reviews.Keys == db.reviews.Keys
    ensures Apply(db, step).alerts == db.alerts && Apply(db, step).refs == db.refs
  {
  }

  lemma ClickTells(base: Db, db: Db, step: Step)
    requires RowsTell(base, db) && (step.ArchiveCase? || step.Review?)
    ensures RowsTell(base, Apply(db, step))
  {
    ClickCarries(db, step);
    hide Carries, CaseTells, ReviewTells, AlertTells, RefTells, Apply;
    StillTells(base, db, Apply(db, step));
  }

  lemma StepTells(base: Db, db: Db, step: Step)
    requires RowsTell(base, db)
    ensures RowsTell(base, Apply(db, step))
  {
    hide RowsTell, ApplyAll, Doable, FirstWrite;
    match step
    case Run(jobs, now) => ApplyAllTells(base, db, Doable(db.sessions, jobs), now);
    case CutShort(jobs, now, k, half) =>
      var done := Doable(db.sessions, jobs);
      if k <= |done| {
        ApplyAllTells(base, db, done[..k], now);
        if half && k < |done| {
          FirstWriteTells(base, ApplyAll(db, done[..k], now), done[k], now);
        }
      }
    case ArchiveCase(_) => ClickTells(base, db, step);
    case Review(_, _, _) => ClickTells(base, db, step);
  }

  /** Main result: whatever the tables held before, each case, review, alert and
      ref that runs add, cut short or not and among any clicks, stands under the
      source key of a rule and a hit and carries the session, name, text and
      severity these prescribe. */
  lemma {:induction false} RowsAlwaysTell(db: Db, steps: seq<Step>)
    ensures RowsTell(db, RunSteps(db, steps))
  {
    if steps != [] {
      var before := RunSteps(db, steps[..|steps| - 1]);
      RowsAlwaysTell(db, steps[..|steps| - 1]);
      StepTells(db, before, steps[|steps| - 1]);
      hide RowsTell, Apply;
    }
  }
}
