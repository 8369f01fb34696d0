/** Rule automation: `src/core_loop/rules.rs`, `cases.rs`, `review.rs`,
    `alerts.rs` and `query.rs`, over tables keyed by their unique source key.

    Fresh UUIDs are modelled by a counter. */
module RuleStore {
  import opened Options
  import opened RuleKeys

  type Key = string

  datatype CaseStatus = CaseOpen | Archived
  datatype ReviewStatus = ReviewOpen | Resolved | Dismissed

  datatype CaseRow = CaseRow(id: nat, sessionId: string, reason: string, caseLabel: Option<string>,
                             status: CaseStatus, fingerprint: Option<string>, createdAtMs: nat)
  datatype ReviewRow = ReviewRow(id: nat, sessionId: string, title: string, status: ReviewStatus,
                                 createdAtMs: nat, resolvedAtMs: Option<nat>)
  datatype AlertRow = AlertRow(id: nat, name: string, severity: Severity, message: string,
                               sessionId: Option<string>, createdAtMs: nat)
  datatype CaseRef = CaseRef(caseId: nat, refKind: string, refKey: string)

  /** `sessions` maps a session id to its prompt fingerprint. */
  datatype Db = Db(sessions: map<string, Option<string>>, cases: map<Key, CaseRow>, refs: set<CaseRef>,
                   reviews: map<Key, ReviewRow>, alerts: map<Key, AlertRow>, nextId: nat)

  // ---- Insert or ignore ----

  function CreateCaseRow(db: Db, sessionId: string, key: Key, reason: string, caseLabel: Option<string>, now: nat): (r: Db)
    requires sessionId in db.sessions
    ensures key in r.cases
  {
    var row := CaseRow(db.nextId, sessionId, reason, caseLabel, CaseOpen, db.sessions[sessionId], now);
    db.(nextId := db.nextId + 1, cases := if key in db.cases then db.cases else db.cases[key := row])
  }

  function AddRef(db: Db, caseId: nat, refKind: string, refKey: string): Db {
    db.(refs := db.refs + {CaseRef(caseId, refKind, refKey)})
  }

  function CreateReview(db: Db, key: Key, sessionId: string, title: string, now: nat): Db {
    var row := ReviewRow(db.nextId, sessionId, title, ReviewOpen, now, None);
    db.(nextId := db.nextId + 1, reviews := if key in db.reviews then db.reviews else db.reviews[key := row])
  }

  function EmitAlertRow(db: Db, key: Key, name: string, severity: Severity, message: string,
                        sessionId: Option<string>, now: nat): Db {
    var row := AlertRow(db.nextId, name, severity, message, sessionId, now);
    db.(nextId := db.nextId + 1, alerts := if key in db.alerts then db.alerts else db.alerts[key := row])
  }

  // ---- What a user does ----

  function Archive(db: Db, id: nat): Db {
    db.(cases := map k | k in db.cases ::
          if db.cases[k].id == id then db.cases[k].(status := Archived) else db.cases[k])
  }

  function SetReviewStatus(db: Db, id: nat, status: ReviewStatus, now: nat): Db {
    db.(reviews := map k | k in db.reviews ::
          if db.reviews[k].id == id then db.reviews[k].(status := status, resolvedAtMs := Some(now)) else db.reviews[k])
  }

  // ---- Actions ----

  /** A hit to act on, and the rule that asks for it. */
  datatype Job = Job(rule: LocalRule, hit: TraceHit)

  /** Only the case action looks the session up. */
  predicate Succeeds(sessions: map<string, Option<string>>, job: Job) {
    job.rule.action.CreateCase? ==> job.hit.sessionId in sessions
  }

  predicate AllSucceed(sessions: map<string, Option<string>>, jobs: seq<Job>) {
    forall i | 0 <= i < |jobs| :: Succeeds(sessions, jobs[i])
  }

  /** The first write of an action; a case is left without its ref. */
  function FirstWrite(db: Db, job: Job, now: nat): (r: Db)
    requires Succeeds(db.sessions, job)
    ensures r.sessions == db.sessions
  {
    var key := SourceKey(job.rule, job.hit);
    match job.rule.action
    case CreateCase(caseLabel) =>
      CreateCaseRow(db, job.hit.sessionId, key, "rule:" + job.rule.name, caseLabel, now)
    case QueueReview(title) =>
      CreateReview(db, key, job.hit.sessionId, title.GetOr("Review " + job.rule.name), now)
    case EmitAlert(severity) =>
      EmitAlertRow(db, key, job.rule.name, severity, job.hit.summary, Some(job.hit.sessionId), now)
  }

  /** `apply_one`; the ref goes to the case found by its source key. */
  function ApplyOne(db: Db, job: Job, now: nat): (r: Db)
    requires Succeeds(db.sessions, job)
    ensures r.sessions == db.sessions
  {
    var first := FirstWrite(db, job, now);
    if job.rule.action.CreateCase?
    then AddRef(first, first.cases[SourceKey(job.rule, job.hit)].id, "hit", HitKey(job.hit))
    else first
  }

  /** The jobs that are done: all of them, or those before the first failure. */
  function Doable(sessions: map<string, Option<string>>, jobs: seq<Job>): (done: seq<Job>)
    ensures done <= jobs && AllSucceed(sessions, done)
    ensures |done| < |jobs| ==> !Succeeds(sessions, jobs[|done|])
  {
    if jobs == [] || !Succeeds(sessions, jobs[0]) then [] else [jobs[0]] + Doable(sessions, jobs[1..])
  }

  /** `apply_all` over jobs that succeed. */
  function ApplyAll(db: Db, jobs: seq<Job>, now: nat): (r: Db)
    requires AllSucceed(db.sessions, jobs)
    ensures r.sessions == db.sessions
  {
    if jobs == [] then db
    else ApplyOne(ApplyAll(db, jobs[..|jobs| - 1], now), jobs[|jobs| - 1], now)
  }

  /** A run stops at its first error; what was written before it stays. */
  function RunJobs(db: Db, jobs: seq<Job>, now: nat): (r: Db)
    ensures r.sessions == db.sessions
  {
    ApplyAll(db, Doable(db.sessions, jobs), now)
  }

  /** A run cut short after `k` jobs, or between the two writes of job `k`. */
  function Interrupted(db: Db, jobs: seq<Job>, now: nat, k: nat, half: bool): (r: Db)
    requires k <= |Doable(db.sessions, jobs)|
    ensures r.sessions == db.sessions
  {
    var done := Doable(db.sessions, jobs);
    var before := ApplyAll(db, done[..k], now);
    if half && k < |done| then FirstWrite(before, done[k], now) else before
  }

  // ---- What the tables hold ----

  /** An entry of one of the four tables. A ref is told apart by the source key
      of its case. */
  datatype Entry =
    | CaseOf(key: Key)
    | RefOf(key: Key, refKind: string, refKey: string)
    | ReviewOf(key: Key)
    | AlertOf(key: Key)

  predicate Holds(db: Db, e: Entry) {
    match e
    case CaseOf(k) => k in db.cases
    case RefOf(k, refKind, refKey) => k in db.cases && CaseRef(db.cases[k].id, refKind, refKey) in db.refs
    case ReviewOf(k) => k in db.reviews
    case AlertOf(k) => k in db.alerts
  }

  ghost function Entries(db: Db): iset<Entry> {
    iset e | Holds(db, e)
  }

  /** What one job stands for; its first write gives all but the ref. */
  predicate Asks(job: Job, e: Entry) {
    && e.key == SourceKey(job.rule, job.hit)
    && match job.rule.action
       case CreateCase(_) => e.CaseOf? || (e.RefOf? && e.refKind == "hit" && e.refKey == HitKey(job.hit))
       case QueueReview(_) => e.ReviewOf?
       case EmitAlert(_) => e.AlertOf?
  }

  ghost function Asked(job: Job): iset<Entry> {
    iset e | Asks(job, e)
  }

  ghost function HalfAsked(job: Job): iset<Entry> {
    iset e | Asks(job, e) && !e.RefOf?
  }

  ghost predicate SomeAsks(jobs: seq<Job>, e: Entry) {
    exists i | 0 <= i < |jobs| :: Asks(jobs[i], e)
  }

  ghost function AskedByAll(jobs: seq<Job>): iset<Entry> {
    iset e | SomeAsks(jobs, e)
  }

  /** Ids of cases, of reviews and of alerts are distinct and drawn from the counter,
      as UUIDs are. */
  ghost predicate FreshIds(db: Db) {
    && FreshReviewIds(db) && FreshAlertIds(db)
    && (forall k | k in db.cases :: db.cases[k].id < db.nextId)
    && (forall j, k | j in db.cases && k in db.cases && db.cases[j].id == db.cases[k].id :: j == k)
    && (forall r | r in db.refs :: r.caseId < db.nextId)
  }

  ghost predicate FreshReviewIds(db: Db) {
    && (forall k | k in db.reviews :: db.reviews[k].id < db.nextId)
    && (forall j, k | j in db.reviews && k in db.reviews && db.reviews[j].id == db.reviews[k].id :: j == k)
  }

  ghost predicate FreshAlertIds(db: Db) {
    && (forall k | k in db.alerts :: db.alerts[k].id < db.nextId)
    && (forall j, k | j in db.alerts && k in db.alerts && db.alerts[j].id == db.alerts[k].id :: j == k)
  }

  lemma CaseRowEffect(db: Db, sessionId: string, key: Key, reason: string, caseLabel: Option<string>, now: nat)
    requires FreshIds(db) && sessionId in db.sessions
    ensures FreshIds(CreateCaseRow(db, sessionId, key, reason, caseLabel, now))
    ensures Entries(CreateCaseRow(db, sessionId, key, reason, caseLabel, now)) == Entries(db) + iset{CaseOf(key)}
  {
    CaseKeepsFresh(db, sessionId, key, reason, caseLabel, now);
    var after := CreateCaseRow(db, sessionId, key, reason, caseLabel, now);
    hide FreshReviewIds, FreshAlertIds;
    forall e ensures Holds(after, e) <==> Holds(db, e) || e == CaseOf(key) {
    }
  }

  lemma CaseKeepsFresh(db: Db, sessionId: string, key: Key, reason: string, caseLabel: Option<string>, now: nat)
    requires FreshIds(db) && sessionId in db.sessions
    ensures FreshIds(CreateCaseRow(db, sessionId, key, reason, caseLabel, now))
  {
    var after := CreateCaseRow(db, sessionId, key, reason, caseLabel, now);
    assert FreshReviewIds(after);
    assert FreshAlertIds(after);
    hide FreshReviewIds, FreshAlertIds;
  }

  lemma ReviewEffect(db: Db, key: Key, sessionId: string, title: string, now: nat)
    requires FreshIds(db)
    ensures FreshIds(CreateReview(db, key, sessionId, title, now))
    ensures Entries(CreateReview(db, key, sessionId, title, now)) == Entries(db) + iset{ReviewOf(key)}
  {
    ReviewKeepsFresh(db, key, sessionId, title, now);
    hide FreshIds;
    var after := CreateReview(db, key, sessionId, title, now);
    forall e ensures Holds(after, e) <==> Holds(db, e) || e == ReviewOf(key) {
    }
  }

  lemma ReviewKeepsFresh(db: Db, key: Key, sessionId: string, title: string, now: nat)
    requires FreshIds(db)
    ensures FreshIds(CreateReview(db, key, sessionId, title, now))
  {
    var after := CreateReview(db, key, sessionId, title, now);
    assert FreshReviewIds(after);
    assert FreshAlertIds(after);
    hide FreshReviewIds, FreshAlertIds;
  }

  lemma AlertKeepsFresh(db: Db, key: Key, name: string, severity: Severity, message: string,
                        sessionId: Option<string>, now: nat)
    requires FreshIds(db)
    ensures FreshIds(EmitAlertRow(db, key, name, severity, message, sessionId, now))
  {
    var after := EmitAlertRow(db, key, name, severity, message, sessionId, now);
    assert FreshAlertIds(after);
    assert FreshReviewIds(after);
    hide FreshReviewIds, FreshAlertIds;
  }

  lemma AlertEffect(db: Db, key: Key, name: string, severity: Severity, message: string,
                    sessionId: Option<string>, now: nat)
    requires FreshIds(db)
    ensures FreshIds(EmitAlertRow(db, key, name, severity, message, sessionId, now))
    ensures Entries(EmitAlertRow(db, key, name, severity, message, sessionId, now)) == Entries(db) + iset{AlertOf(key)}
  {
    AlertKeepsFresh(db, key, name, severity, message, sessionId, now);
    hide FreshIds;
    var after := EmitAlertRow(db, key, name, severity, message, sessionId, now);
    forall e ensures Holds(after, e) <==> Holds(db, e) || e == AlertOf(key) {
    }
  }

  lemma FirstWriteEffect(db: Db, job: Job, now: nat)
    requires FreshIds(db) && Succeeds(db.sessions, job)
    ensures FreshIds(FirstWrite(db, job, now))
    ensures Entries(FirstWrite(db, job, now)) == Entries(db) + HalfAsked(job)
  {
    var key := SourceKey(job.rule, job.hit);
    hide FreshIds, CreateCaseRow, HitKey;
    match job.rule.action
    case CreateCase(caseLabel) =>
      CaseRowEffect(db, job.hit.sessionId, key, "rule:" + job.rule.name, caseLabel, now);
      hide Entries, SourceKey;
      assert HalfAsked(job) == iset{CaseOf(key)};
    case QueueReview(title) =>
      ReviewEffect(db, key, job.hit.sessionId, title.GetOr("Review " + job.rule.name), now);
      hide Entries, SourceKey;
      assert HalfAsked(job) == iset{ReviewOf(key)};
    case EmitAlert(severity) =>
      AlertEffect(db, key, job.rule.name, severity, job.hit.summary, Some(job.hit.sessionId), now);
      hide Entries, SourceKey;
      assert HalfAsked(job) == iset{AlertOf(key)};
  }

  lemma AddRefEffect(db: Db, key: Key, refKind: string, refKey: string)
    requires FreshIds(db) && key in db.cases
    ensures FreshIds(AddRef(db, db.cases[key].id, refKind, refKey))
    ensures Entries(AddRef(db, db.cases[key].id, refKind, refKey))
            == Entries(db) + iset{RefOf(key, refKind, refKey)}
  {
    var after := AddRef(db, db.cases[key].id, refKind, refKey);
    forall e ensures Holds(after, e) <==> Holds(db, e) || e == RefOf(key, refKind, refKey) {
    }
  }

  lemma ApplyOneEffect(db: Db, job: Job, now: nat)
    requires FreshIds(db) && Succeeds(db.sessions, job)
    ensures FreshIds(ApplyOne(db, job, now))
    ensures Entries(ApplyOne(db, job, now)) == Entries(db) + Asked(job)
  {
    FirstWriteEffect(db, job, now);
    var first, key := FirstWrite(db, job, now), SourceKey(job.rule, job.hit);
    hide Entries, FreshIds, SourceKey, HitKey;
    if job.rule.action.CreateCase? {
      assert key in first.cases;
      AddRefEffect(first, key, "hit", HitKey(job.hit));
      assert Asked(job) == HalfAsked(job) + iset{RefOf(key, "hit", HitKey(job.hit))};
    } else {
      assert Asked(job) == HalfAsked(job);
    }
  }

  lemma AskedBySteps(jobs: seq<Job>)
    requires jobs != []
    ensures AskedByAll(jobs) == AskedByAll(jobs[..|jobs| - 1]) + Asked(jobs[|jobs| - 1])
  {
    hide Asks;
    var n := |jobs| - 1;
    forall e ensures e in AskedByAll(jobs) <==> e in AskedByAll(jobs[..n]) || Asks(jobs[n], e) {
      if e in AskedByAll(jobs[..n]) {
        var i :| 0 <= i < n && Asks(jobs[..n][i], e);
        assert Asks(jobs[i], e);
      }
      if e in AskedByAll(jobs) && !Asks(jobs[n], e) {
        var i :| 0 <= i <= n && Asks(jobs[i], e);
        assert Asks(jobs[..n][i], e);
      }
    }
  }

  lemma AskedByPrefix(jobs: seq<Job>, k: nat)
    requires k <= |jobs|
    ensures AskedByAll(jobs[..k]) <= AskedByAll(jobs)
    ensures k < |jobs| ==> HalfAsked(jobs[k]) <= Asked(jobs[k]) <= AskedByAll(jobs)
  {
    hide Asks;
  }

  lemma {:induction false} ApplyAllEffect(db: Db, jobs: seq<Job>, now: nat)
    requires FreshIds(db) && AllSucceed(db.sessions, jobs)
    ensures FreshIds(ApplyAll(db, jobs, now))
    ensures Entries(ApplyAll(db, jobs, now)) == Entries(db) + AskedByAll(jobs)
  {
    if jobs == [] {
      assert AskedByAll(jobs) == iset{};
    } else {
      var n := |jobs| - 1;
      ApplyAllEffect(db, jobs[..n], now);
      ApplyOneEffect(ApplyAll(db, jobs[..n], now), jobs[n], now);
      AskedBySteps(jobs);
      hide Entries, AskedByAll, Asked, FreshIds, ApplyOne;
    }
  }

  lemma InterruptedEffect(db: Db, jobs: seq<Job>, now: nat, k: nat, half: bool)
    requires FreshIds(db) && k <= |Doable(db.sessions, jobs)|
    ensures FreshIds(Interrupted(db, jobs, now, k, half))
    ensures Entries(db) <= Entries(Interrupted(db, jobs, now, k, half))
            <= Entries(db) + AskedByAll(Doable(db.sessions, jobs))
  {
    var done := Doable(db.sessions, jobs);
    var before := ApplyAll(db, done[..k], now);
    ApplyAllEffect(db, done[..k], now);
    AskedByPrefix(done, k);
    if half && k < |done| {
      FirstWriteEffect(before, done[k], now);
    }
    hide Entries, AskedByAll, Asked, HalfAsked, FreshIds, ApplyAll, FirstWrite, Doable;
  }

  /** Main result: interrupted at any write and started again on the same hits,
      a run reaches exactly the case, ref, review and alert keys of one
      uninterrupted run: those there before, and those its jobs ask for. */
  lemma RerunCompletes(db: Db, jobs: seq<Job>, now: nat, later: nat, k: nat, half: bool)
    requires FreshIds(db) && k <= |Doable(db.sessions, jobs)|
    ensures Entries(RunJobs(Interrupted(db, jobs, now, k, half), jobs, later)) == Entries(RunJobs(db, jobs, now))
    ensures Entries(RunJobs(db, jobs, now)) == Entries(db) + AskedByAll(Doable(db.sessions, jobs))
  {
    var done, stopped := Doable(db.sessions, jobs), Interrupted(db, jobs, now, k, half);
    ApplyAllEffect(db, done, now);
    InterruptedEffect(db, jobs, now, k, half);
    ApplyAllEffect(stopped, done, later);
    hide Entries, AskedByAll, FreshIds, ApplyAll, Interrupted, Doable;
  }

  // ---- Nothing is written twice, nothing is reopened ----

  ghost predicate SameTables(a: Db, b: Db) {
    a.sessions == b.sessions && a.cases == b.cases && a.refs == b.refs && a.reviews == b.reviews && a.alerts == b.alerts
  }

  lemma ApplyOneAgain(db: Db, job: Job, now: nat)
    requires FreshIds(db) && Succeeds(db.sessions, job) && Asked(job) <= Entries(db)
    ensures SameTables(ApplyOne(db, job, now), db)
  {
    var key := SourceKey(job.rule, job.hit);
    hide SourceKey, HitKey;
    if job.rule.action.CreateCase? {
      assert CaseOf(key) in Asked(job) && RefOf(key, "hit", HitKey(job.hit)) in Asked(job);
      assert key in db.cases && CaseRef(db.cases[key].id, "hit", HitKey(job.hit)) in db.refs;
    } else if job.rule.action.QueueReview? {
      assert ReviewOf(key) in Asked(job);
    } else {
      assert AlertOf(key) in Asked(job);
    }
  }

  lemma {:induction false} ApplyAllAgain(db: Db, jobs: seq<Job>, now: nat)
    requires FreshIds(db) && AllSucceed(db.sessions, jobs) && AskedByAll(jobs) <= Entries(db)
    ensures SameTables(ApplyAll(db, jobs, now), db)
  {
    if jobs != [] {
      var n := |jobs| - 1;
      var before := ApplyAll(db, jobs[..n], now);
      AskedBySteps(jobs);
      ApplyAllEffect(db, jobs[..n], now);
      hide Entries, AskedByAll, Asked, FreshIds, ApplyOne;
      ApplyAllAgain(db, jobs[..n], now);
      ApplyOneAgain(before, jobs[n], now);
    }
  }

  /** Main result: once a run has finished, running it again on the same hits
      changes no table, so it makes no second case for an archived one and no
      second review for a closed one. */
  lemma SecondRunChangesNothing(db: Db, jobs: seq<Job>, now: nat, later: nat)
    requires FreshIds(db)
    ensures SameTables(RunJobs(RunJobs(db, jobs, now), jobs, later), RunJobs(db, jobs, now))
  {
    var done, once := Doable(db.sessions, jobs), RunJobs(db, jobs, now);
    ApplyAllEffect(db, done, now);
    hide Entries, AskedByAll, FreshIds, ApplyAll, Doable;
    ApplyAllAgain(once, done, later);
  }

  /** Rows that stand in the tables are not touched by any job. */
  ghost predicate Extends(after: Db, before: Db) {
    && (forall k | k in before.cases :: k in after.cases && after.cases[k] == before.cases[k])
    && (forall k | k in before.reviews :: k in after.reviews && after.reviews[k] == before.reviews[k])
    && (forall k | k in before.alerts :: k in after.alerts && after.alerts[k] == before.alerts[k])
    && before.refs <= after.refs
  }

  lemma FirstWriteExtends(db: Db, job: Job, now: nat)
    requires Succeeds(db.sessions, job)
    ensures Extends(FirstWrite(db, job, now), db)
  {
    hide SourceKey;
  }

  lemma {:induction false} ApplyAllExtends(db: Db, jobs: seq<Job>, now: nat)
    requires AllSucceed(db.sessions, jobs)
    ensures Extends(ApplyAll(db, jobs, now), db)
  {
    if jobs != [] {
      var n := |jobs| - 1;
      ApplyAllExtends(db, jobs[..n], now);
      FirstWriteExtends(ApplyAll(db, jobs[..n], now), jobs[n], now);
      hide FirstWrite, SourceKey, HitKey;
    }
  }

  // ---- Runs and clicks ----

  /** What can happen to the tables: runs, also cut short, and a user's clicks. */
  datatype Step =
    | Run(jobs: seq<Job>, now: nat)
    | CutShort(jobs: seq<Job>, now: nat, k: nat, half: bool)
    | ArchiveCase(id: nat)
    | Review(id: nat, status: ReviewStatus, now: nat)

  function Apply(db: Db, step: Step): Db {
    match step
    case Run(jobs, now) => RunJobs(db, jobs, now)
    case CutShort(jobs, now, k, half) =>
      if k <= |Doable(db.sessions, jobs)| then Interrupted(db, jobs, now, k, half) else db
    case ArchiveCase(id) => Archive(db, id)
    case Review(id, status, now) => SetReviewStatus(db, id, status, now)
  }

  function RunSteps(db: Db, steps: seq<Step>): Db {
    if steps == [] then db else Apply(RunSteps(db, steps[..|steps| - 1]), steps[|steps| - 1])
  }

  lemma RunExtends(db: Db, step: Step)
    requires step.Run? || step.CutShort?
    ensures Extends(Apply(db, step), db)
  {
    hide ApplyAll, Doable;
    var done := Doable(db.sessions, step.jobs);
    if step.Run? {
      ApplyAllExtends(db, done, step.now);
    } else if step.k <= |done| {
      var before := ApplyAll(db, done[..step.k], step.now);
      ApplyAllExtends(db, done[..step.k], step.now);
      if step.half && step.k < |done| {
        FirstWriteExtends(before, done[step.k], step.now);
      }
    }
  }

  lemma ClickKeepsFresh(db: Db, step: Step)
    requires FreshIds(db) && (step.ArchiveCase? || step.Review?)
    ensures FreshIds(Apply(db, step))
  {
    var after := Apply(db, step);
    forall k | k in after.cases ensures k in db.cases && after.cases[k].id == db.cases[k].id {
    }
    assert after.refs == db.refs && after.nextId == db.nextId;
  }

  /** Main result: archiving changes the status of the one case with the id, and
      nothing at all when there is none; archiving again changes nothing. */
  lemma ArchivesOne(db: Db, id: nat)
    requires FreshIds(db)
    ensures (exists k | k in db.cases :: db.cases[k].id == id) ==>
              exists k | k in db.cases :: db.cases[k].id == id
                && Archive(db, id) == db.(cases := db.cases[k := db.cases[k].(status := Archived)])
    ensures (forall k | k in db.cases :: db.cases[k].id != id) ==> Archive(db, id) == db
    ensures Archive(Archive(db, id), id) == Archive(db, id)
  {
    hide FreshReviewIds, FreshAlertIds;
    var after := Archive(db, id);
    if k :| k in db.cases && db.cases[k].id == id {
      assert after.cases == db.cases[k := db.cases[k].(status := Archived)];
    } else {
      assert after.cases == db.cases;
    }
    assert Archive(after, id).cases == after.cases;
  }

  /** Main result: a click sets status and time of the one review with the id, and
      changes nothing at all when there is none. */
  lemma ClickSetsOne(db: Db, id: nat, status: ReviewStatus, now: nat)
    requires FreshReviewIds(db)
    ensures (exists k | k in db.reviews :: db.reviews[k].id == id) ==>
              exists k | k in db.reviews :: db.reviews[k].id == id
                && SetReviewStatus(db, id, status, now)
                   == db.(reviews := db.reviews[k := db.reviews[k].(status := status, resolvedAtMs := Some(now))])
    ensures (forall k | k in db.reviews :: db.reviews[k].id != id) ==> SetReviewStatus(db, id, status, now) == db
  {
    var after := SetReviewStatus(db, id, status, now);
    if k :| k in db.reviews && db.reviews[k].id == id {
      assert after.reviews == db.reviews[k := db.reviews[k].(status := status, resolvedAtMs := Some(now))];
    } else {
      assert after.reviews == db.reviews;
    }
  }

  /** Of two clicks on one review the last one counts. */
  lemma LastClickCounts(db: Db, id: nat, status: ReviewStatus, now: nat, status': ReviewStatus, later: nat)
    ensures SetReviewStatus(SetReviewStatus(db, id, status, now), id, status', later)
            == SetReviewStatus(db, id, status', later)
  {
    var after := SetReviewStatus(db, id, status, now);
    assert SetReviewStatus(after, id, status', later).reviews == SetReviewStatus(db, id, status', later).reviews;
  }

  lemma StepKeepsFresh(db: Db, step: Step)
    requires FreshIds(db)
    ensures FreshIds(Apply(db, step))
  {
    hide FreshIds;
    if step.Run? {
      ApplyAllEffect(db, Doable(db.sessions, step.jobs), step.now);
    } else if step.CutShort? {
      if step.k <= |Doable(db.sessions, step.jobs)| {
        InterruptedEffect(db, step.jobs, step.now, step.k, step.half);
      }
    } else {
      ClickKeepsFresh(db, step);
    }
  }

  /** Ids stay distinct in every reachable state, which is all the results
      above ask of the tables. */
  lemma {:induction false} IdsStayFresh(db: Db, steps: seq<Step>)
    requires FreshIds(db)
    ensures FreshIds(RunSteps(db, steps))
  {
    if steps != [] {
      var step := steps[|steps| - 1];
      var before := RunSteps(db, steps[..|steps| - 1]);
      IdsStayFresh(db, steps[..|steps| - 1]);
      StepKeepsFresh(before, step);
    }
  }

  ghost predicate KeptArchived(after: Db, before: Db) {
    forall k | k in before.cases ::
      && k in after.cases
      && (before.cases[k].status == Archived ==> after.cases[k].status == Archived)
      && after.cases[k] == before.cases[k].(status := after.cases[k].status)
  }

  /** Main result: whatever runs and clicks follow, a case keeps everything but
      its status, and an archived case stays archived. */
  lemma {:induction false} ArchivedForGood(db: Db, steps: seq<Step>)
    ensures KeptArchived(RunSteps(db, steps), db)
  {
    if steps != [] {
      var step := steps[|steps| - 1];
      var before := RunSteps(db, steps[..|steps| - 1]);
      ArchivedForGood(db, steps[..|steps| - 1]);
      if step.Run? || step.CutShort? {
        RunExtends(before, step);
        hide Apply;
      }
    }
  }

  /** Main result: a review changes only by a click on its own id; no run reopens
      a resolved or dismissed one. */
  lemma {:induction false} ReviewChangesByClickOnly(db: Db, steps: seq<Step>, key: Key)
    requires key in db.reviews
    requires forall i | 0 <= i < |steps| && steps[i].Review? :: steps[i].id != db.reviews[key].id
    ensures key in RunSteps(db, steps).reviews && RunSteps(db, steps).reviews[key] == db.reviews[key]
  {
    if steps != [] {
      var step := steps[|steps| - 1];
      var before := RunSteps(db, steps[..|steps| - 1]);
      ReviewChangesByClickOnly(db, steps[..|steps| - 1], key);
      if step.Run? || step.CutShort? {
        RunExtends(before, step);
        hide Apply;
      }
    }
  }
}
