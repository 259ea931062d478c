/** What the guards of the ledger come to, in the fields of the jobs they read. */
module LedgerMeaning {
  import opened Prelude
  import opened Ledger
  import LedgerRunner
  import LedgerSafety

  // ----- what a completed entry shows ------------------------------------------------------

  /** The receipt names a revision, and Git has committed and pushed that very one. */
  predicate Pushed(r: Receipt) {
    r.commit.Some? && r.gitCommitted && r.gitPushed && r.gitCommit == r.commit
  }

  /** No revision is named because the pass changed no file. */
  predicate Unchanged(r: Receipt) {
    r.commit.None? && r.changedNothing
  }

  /** The jobs `p` and `q` are a validated ingest, and a validated audit of it with a verdict on its concepts. */
  predicate Shows(p: Job, q: Job) {
    && p.status == Done && p.receipt.validated
    && (Pushed(p.receipt) || (Unchanged(p.receipt) && p.receipt.gitNoChanges))
    && q.status == Done && q.receipt.validated && q.kind == Audit && q.parent == Some(p.id)
    && (q.receipt.auditPassed || q.receipt.auditAttention) && q.receipt.conceptsListed
    && (Pushed(q.receipt) || (Unchanged(q.receipt) && (q.receipt.gitNoChanges || q.receipt.noConceptsReason)))
    && (q.receipt.commit.None? && q.receipt.noConceptsReason ==> q.receipt.auditPassed && !q.receipt.someConcept)
  }

  /** In every reachable state a completed entry has an ingest and an audit whose receipts show all that. */
  lemma CompletedShows(m: Machine, events: seq<Event>, i: nat)
    requires Initial(m) && i < |Exec(m, events).disk| && Exec(m, events).disk[i].status == Completed
    ensures var e := Exec(m, events).disk[i];
            exists a, b :: 0 <= a < |e.ingest| && 0 <= b < |e.audit| && Shows(e.ingest[a], e.audit[b])
  {
    LedgerSafety.DoneMeansReceipts(m, events);
    var e := Exec(m, events).disk[i];
    assert LedgerSafety.ReceiptsHeld(e);
    var a, b :| 0 <= a < |e.ingest| && 0 <= b < |e.audit| &&
      ReceiptOk(e.ingest[a], None) && ReceiptOk(e.audit[b], Some(e.ingest[a].id));
    assert Shows(e.ingest[a], e.audit[b]);
  }

  /** No other receipts are refused: the two jobs count as receipts if and only if they show that much. */
  lemma ReceiptsExactly(p: Job, q: Job)
    ensures ReceiptOk(p, None) && ReceiptOk(q, Some(p.id)) <==> Shows(p, q)
  {}

  // ----- when a POST is due ----------------------------------------------------------------

  function FailedAt(s: seq<Job>): set<nat> {
    set k: nat | k < |s| && s[k].status == Failed && s[k].failure.cls != Capacity
  }

  function SlippedAt(s: seq<Job>): set<nat> {
    set k: nat | k < |s| && s[k].status == Done && s[k].receipt.verdictSlip
  }

  /** The failures that are counted against a cap: those not of capacity. */
  lemma {:induction false} FailuresAre(s: seq<Job>)
    ensures Failures(s) == |FailedAt(s)|
  {
    if s != [] {
      var last := |s| - 1;
      FailuresAre(s[..last]);
      assert FailedAt(s) == if CountedFailure(s[last]) then FailedAt(s[..last]) + {last} else FailedAt(s[..last]);
    }
  }

  lemma {:induction false} SlipsAre(s: seq<Job>)
    ensures Slips(s) == |SlippedAt(s)|
  {
    if s != [] {
      var last := |s| - 1;
      SlipsAre(s[..last]);
      assert SlippedAt(s) == if Slip(s[last]) then SlippedAt(s[..last]) + {last} else SlippedAt(s[..last]);
    }
  }

  /** The failed job belongs to this stage of this entry, was rolled back, and may be repeated. */
  predicate Repeatable(e: Entry, st: Stage, job: Job) {
    && job.kind == st && job.failure.retryable && job.rolledBack
    && (st == Ingest ==> job.sha == e.sha)
    && (st == Audit ==> e.ingest != [] && job.parent == Some(e.ingest[|e.ingest| - 1].id))
  }

  /** After `n` counted failures the class of the last one still allows another attempt. */
  predicate BelowCap(cls: Class, n: nat) {
    && (cls in {Transient, Timeout, Interrupted, Conflict, ModelOutput} ==> n < 3)
    && (cls == Internal ==> n < 2)
  }

  /** Another build than the failed job's is reported, and it did not earn the last extra attempt. */
  predicate NewBuild(job: Job, health: Option<string>, spent: Option<string>) {
    && job.build.Some? && health.Some? && |job.build.value| > 0 && |health.value| > 0 && spent != health
    && exists k :: 0 <= k < |job.build.value| && k < |health.value| && job.build.value[k] != health.value[k]
  }

  /** Two words differ in some place if and only if neither begins with the other. */
  lemma DifferExactly(a: string, b: string)
    ensures a <= b || b <= a <==> !(exists k :: 0 <= k < |a| && k < |b| && a[k] != b[k])
  {
    if forall k :: 0 <= k < |a| && k < |b| ==> a[k] == b[k] {
      if |a| <= |b| { assert a == b[..|a|]; } else { assert b == a[..|b|]; }
    }
  }

  /** Exactly when a POST is allowed. */
  ghost predicate Due(e: Entry, st: Stage, health: Option<string>) {
    var s := Attempts(e, st);
    || e.submitting == Some(st) || s == []
    || (var job := s[|s| - 1];
        || (job.status == Failed && Repeatable(e, st, job)
            && (BelowCap(job.failure.cls, |FailedAt(s)|)
                || NewBuild(job, health, if st == Ingest then e.ingestBuild else e.auditBuild)))
        || (st == Audit && job.status == Done && job.receipt.verdictSlip && |SlippedAt(s)| < 2
            && e.ingest != [] && ReceiptOk(job, Some(e.ingest[|e.ingest| - 1].id))))
  }

  lemma PostIsDue(e: Entry, st: Stage, health: Option<string>)
    ensures MaySubmit(e, st, health).Allowed? <==> Due(e, st, health)
  {
    var s := Attempts(e, st);
    FailuresAre(s);
    SlipsAre(s);
    if s != [] && s[|s| - 1].build.Some? && health.Some? {
      DifferExactly(s[|s| - 1].build.value, health.value);
    }
  }

  /** An attempt is paid for by a build if and only if its cap is reached; the build is then noted. */
  lemma BuildIsSpent(e: Entry, st: Stage, health: Option<string>)
    requires MaySubmit(e, st, health).Allowed? && e.submitting != Some(st) && Attempts(e, st) != []
    requires LastJob(Attempts(e, st)).status == Failed
    ensures var s := Attempts(e, st);
            && MaySubmit(e, st, health).extra ==
                 (if BelowCap(s[|s| - 1].failure.cls, |FailedAt(s)|) then None else health)
            && BuildRetry(Spent(e, st, MaySubmit(e, st, health).extra), st) ==
                 (if BelowCap(s[|s| - 1].failure.cls, |FailedAt(s)|) then BuildRetry(e, st) else health)
  {
    FailuresAre(Attempts(e, st));
  }

  // ----- how the writer answers a POST -----------------------------------------------------

  /** A job for these bytes, or an audit of this ingest, that has not failed. */
  predicate Answers(job: Job, key: Key) {
    match key
    case Bytes(sha) =>
      job.kind == Ingest && job.sha == sha && job.status in {Queued, Running, Done, Inbox, NeedsConversion}
    case ParentJob(id) => job.kind == Audit && job.parent == Some(id) && job.status in {Queued, Running, Done}
  }

  /** The done audits of this ingest without a readable verdict. */
  function GarbledAudits(jobs: seq<Posted>, parent: nat): set<nat> {
    set k: nat | k < |jobs| && jobs[k].job.kind == Audit && jobs[k].job.parent == Some(parent)
                 && jobs[k].job.status == Done && jobs[k].job.receipt.verdictSlip
  }

  lemma {:induction false} SlipsOfAre(jobs: seq<Posted>, parent: nat)
    ensures SlipsOf(jobs, ParentJob(parent)) == |GarbledAudits(jobs, parent)|
  {
    if jobs != [] {
      var last := |jobs| - 1;
      var before, more := GarbledAudits(jobs[..last], parent), GarbledAudits(jobs, parent);
      SlipsOfAre(jobs[..last], parent);
      if HasKey(jobs[last].job, ParentJob(parent)) && Slip(jobs[last].job) {
        assert more == before + {last};
      } else {
        assert more == before;
      }
    }
  }

  /** The newest job that answers the POST, unless it is the one garbled audit so far. */
  ghost predicate AnsweredBy(jobs: seq<Posted>, key: Key, r: Option<nat>) {
    match r
    case Some(id) =>
      && id < |jobs| && Answers(jobs[id].job, key)
      && (forall k :: id < k < |jobs| ==> !Answers(jobs[k].job, key))
      && !(key.ParentJob? && id in GarbledAudits(jobs, key.id) && |GarbledAudits(jobs, key.id)| < 2)
    case None =>
      || (forall k :: 0 <= k < |jobs| ==> !Answers(jobs[k].job, key))
      || (key.ParentJob? && |GarbledAudits(jobs, key.id)| < 2
          && exists id: nat :: id in GarbledAudits(jobs, key.id) && id < |jobs|
                               && forall k :: id < k < |jobs| ==> !Answers(jobs[k].job, key))
  }

  /** The jobs of a writer have ids for places, and only ingests wait for conversion or in the inbox. */
  lemma WriterAnswers(jobs: seq<Posted>, key: Key)
    requires forall k :: 0 <= k < |jobs| ==> (jobs[k].job.status == Inbox ==> jobs[k].job.kind == Ingest)
    ensures AnsweredBy(jobs, key, FindJob(jobs, key))
  {
    forall k | 0 <= k < |jobs|
      ensures HasKey(jobs[k].job, key) && Reusable(jobs[k].job) <==> Answers(jobs[k].job, key) {}
    if key.ParentJob? {
      SlipsOfAre(jobs, key.id);
      var newest := Newest(jobs, key);
      assert newest.Some? && Slip(jobs[newest.value].job) ==> newest.value in GarbledAudits(jobs, key.id);
    }
  }

  // ----- when a capacity failure stops the batch -------------------------------------------

  predicate CapacityFailure(job: Job) {
    job.status == Failed && job.failure.cls == Capacity
  }

  lemma {:induction false} StreakReaches(s: seq<Job>, n: nat)
    ensures LedgerRunner.CapacityStreak(s) >= n <==> |s| >= n && forall k :: |s| - n <= k < |s| ==> CapacityFailure(s[k])
    decreases n
  {
    if n > 0 && s != [] && CapacityFailure(s[|s| - 1]) {
      var t := s[..|s| - 1];
      StreakReaches(t, n - 1);
      assert forall k :: 0 <= k < |t| ==> t[k] == s[k];
    }
  }

  /** A capacity failure stops the batch unless the last four attempts are all capacity failures. */
  lemma StopsExactly(s: seq<Job>)
    requires s != [] && s[|s| - 1].status == Failed
    ensures LedgerRunner.StopsBatch(s) <==>
              && CapacityFailure(s[|s| - 1])
              && (|s| < 4 || exists k :: |s| - 4 <= k < |s| && !CapacityFailure(s[k]))
  {
    StreakReaches(s, 4);
  }
}
