/** What every reachable state of the ledger and the writer keeps, whatever is lost, refused or killed. */
module LedgerSafety {
  import opened Prelude
  import opened Ledger

  // ----- finished and superseded entries ---------------------------------------------------

  ghost predicate ReceiptsHeld(e: Entry) {
    && (e.status == Completed ==>
          exists a, b :: 0 <= a < |e.ingest| && 0 <= b < |e.audit| &&
            ReceiptOk(e.ingest[a], None) && ReceiptOk(e.audit[b], Some(e.ingest[a].id)))
    && (e.status == Superseded ==> forall k :: 0 <= k < |e.ingest| ==> ConfirmedDead(e.ingest[k]))
  }

  ghost predicate AllReceiptsHeld(m: Machine) {
    forall i :: 0 <= i < |m.disk| ==> ReceiptsHeld(m.disk[i])
  }

  /** Entries that finish or are superseded meet their condition; active ones have none. */
  lemma ReceiptsOnceMet(m: Machine, ev: Event, i: nat)
    requires (ev.Finish? || ev.Supersede?) && Enabled(m, ev) && i == ev.i
    ensures i < |m.disk| && ReceiptsHeld(Step(m, ev).disk[i])
  {
    var e := Step(m, ev).disk[i];
    if ev.Finish? {
      assert ReceiptOk(e.ingest[|e.ingest| - 1], None);
      assert ReceiptOk(e.audit[|e.audit| - 1], Some(e.ingest[|e.ingest| - 1].id));
    }
  }

  lemma OthersStayOrAreActive(m: Machine, ev: Event, i: nat)
    requires !ev.Finish? && !ev.Supersede? && Enabled(m, ev) && i < |m.disk|
    ensures Step(m, ev).disk[i] == m.disk[i] || Active(Step(m, ev).disk[i])
  {}

  lemma ReceiptsStep(m: Machine, ev: Event)
    requires AllReceiptsHeld(m) && Enabled(m, ev)
    ensures AllReceiptsHeld(Step(m, ev))
  {
    var n := Step(m, ev);
    forall i | 0 <= i < |n.disk| ensures ReceiptsHeld(n.disk[i]) {
      assert ReceiptsHeld(m.disk[i]);
      if !ev.Finish? && !ev.Supersede? {
        OthersStayOrAreActive(m, ev, i);
      } else if i == ev.i {
        ReceiptsOnceMet(m, ev, i);
      } else {
        assert n.disk[i] == m.disk[i];
      }
    }
  }

  /**
   In every reachable state a completed entry holds a validated ingest receipt and a validated audit of
   that very ingest, and a superseded one holds only ingests that were rolled back or need conversion.
   */
  lemma {:induction false} DoneMeansReceipts(m: Machine, events: seq<Event>)
    requires Initial(m) || AllReceiptsHeld(m)
    ensures AllReceiptsHeld(Exec(m, events))
    decreases |events|
  {
    assert AllReceiptsHeld(m);
    if events != [] {
      if Enabled(m, events[0]) { ReceiptsStep(m, events[0]); }
      DoneMeansReceipts(if Enabled(m, events[0]) then Step(m, events[0]) else m, events[1..]);
    }
  }

  // ----- no live job is forgotten ----------------------------------------------------------

  function KeyOfJob(job: Job): Key {
    if job.kind == Audit && job.parent.Some? then ParentJob(job.parent.value) else Bytes(job.sha)
  }

  ghost predicate AuditBegun(m: Machine, i: nat)
    requires i < |m.disk|
  {
    || m.disk[i].submitting == Some(Audit)
    || m.disk[i].audit != []
    || exists id :: 0 <= id < |m.jobs| && m.jobs[id].owner == i && m.jobs[id].stage == Audit
  }

  predicate SameBytes(p: Posted, q: Posted) {
    p.stage == Ingest && q.stage == Ingest && p.job.sha == q.job.sha
  }

  /** A job of the writer carries the key of the entry it was made for. */
  predicate JobOk(p: Posted, id: nat, disk: seq<Entry>) {
    && p.job.id == id && p.owner < |disk| && p.job.kind == p.stage
    && (p.job.status == Inbox ==> p.stage == Ingest)
    && (p.stage == Ingest ==> p.job.sha == disk[p.owner].sha)
    && (p.stage == Audit ==>
          disk[p.owner].ingest != [] && p.job.parent == Some(LastJob(disk[p.owner].ingest).id))
  }

  ghost predicate AloneForBytes(jobs: seq<Posted>) {
    forall a, b :: 0 <= a < b < |jobs| && SameBytes(jobs[a], jobs[b]) ==>
      !(Reusable(jobs[a].job) && Reusable(jobs[b].job))
  }

  ghost predicate JobsOk(m: Machine) {
    && (forall id :: 0 <= id < |m.jobs| ==> JobOk(m.jobs[id], id, m.disk))
    && AloneForBytes(m.jobs)
    && (m.wire.Answered? ==> m.wire.job.id < |m.jobs|)
  }

  ghost predicate StagesOk(m: Machine) {
    forall i :: 0 <= i < |m.disk| && AuditBegun(m, i) ==>
      && m.disk[i].ingest != [] && LastJob(m.disk[i].ingest).status == Done && m.disk[i].submitting != Some(Ingest)
  }

  /** Announced: the flag is on disk, and a re-POST will be answered with this very job. */
  ghost predicate Announced(m: Machine, id: nat)
    requires id < |m.jobs| && m.jobs[id].owner < |m.disk|
  {
    var p := m.jobs[id];
    && m.disk[p.owner].submitting == Some(p.stage)
    && Newest(m.jobs, KeyOfJob(p.job)) == Some(id)
    && (m.wire.Answered? && m.wire.entry == p.owner && m.wire.stage == p.stage ==> m.wire.job.id == id)
  }

  ghost predicate Kept(m: Machine, id: nat)
    requires id < |m.jobs| && m.jobs[id].owner < |m.disk|
  {
    var p := m.jobs[id];
    || !Live(p.job)
    || m.disk[p.owner].status == Superseded
    || Recorded(m.disk[p.owner], p.stage, id)
    || id in m.stray
    || Announced(m, id)
  }

  ghost predicate Sound(m: Machine) {
    && JobsOk(m) && StagesOk(m) && WireOk(m)
    && forall id :: 0 <= id < |m.jobs| ==> Kept(m, id)
  }

  lemma NewestAppend(jobs: seq<Posted>, p: Posted, key: Key)
    ensures Newest(jobs + [p], key) ==
            if HasKey(p.job, key) && Reusable(p.job) then Some(|jobs|) else Newest(jobs, key)
  {
    assert (jobs + [p])[..|jobs|] == jobs;
  }

  lemma NewestIs(jobs: seq<Posted>, key: Key, id: nat)
    requires id < |jobs| && HasKey(jobs[id].job, key) && Reusable(jobs[id].job)
    requires forall j :: id < j < |jobs| && HasKey(jobs[j].job, key) ==> !Reusable(jobs[j].job)
    ensures Newest(jobs, key) == Some(id)
  {
    assert HasKey(jobs[id].job, key) && Reusable(jobs[id].job);
    var r := Newest(jobs, key);
    assert r.Some? && HasKey(jobs[r.value].job, key) && Reusable(jobs[r.value].job);
  }

  lemma RecordedStays(e: Entry, f: Entry, st: Stage, id: nat)
    requires Recorded(e, st, id)
    requires |Attempts(e, st)| <= |Attempts(f, st)|
    requires forall k :: 0 <= k < |Attempts(e, st)| ==> Attempts(f, st)[k].id == Attempts(e, st)[k].id
    ensures Recorded(f, st, id)
  {
    var k :| 0 <= k < |Attempts(e, st)| && Attempts(e, st)[k].id == id;
    assert Attempts(f, st)[k].id == id;
  }

  lemma NoIngestAfterAudit(m: Machine, i: nat, health: Option<string>)
    requires StagesOk(m) && i < |m.disk|
    ensures MaySubmit(m.disk[i], Ingest, health).Allowed? ==> !AuditBegun(m, i)
  {}

  lemma SameRecords(e: Entry, f: Entry, st: Stage, id: nat)
    requires Attempts(e, st) == Attempts(f, st)
    ensures Recorded(e, st, id) <==> Recorded(f, st, id)
  {
    if Recorded(e, st, id) { RecordedStays(e, f, st, id); }
    if Recorded(f, st, id) { RecordedStays(f, e, st, id); }
  }

  lemma SubmitSound(m: Machine, ev: Event)
    requires ev.Submit? && Sound(m) && Enabled(m, ev)
    ensures Sound(Step(m, ev))
  {
    var n := Step(m, ev);
    SubmitStagesOk(m, ev);
    forall id | 0 <= id < |n.jobs| ensures JobOk(n.jobs[id], id, n.disk) {
      assert JobOk(m.jobs[id], id, m.disk);
    }
    forall id | 0 <= id < |n.jobs| ensures Kept(n, id) {
      SubmitKept(m, ev, id);
    }
  }

  lemma SubmitStagesOk(m: Machine, ev: Event)
    requires ev.Submit? && StagesOk(m) && Enabled(m, ev)
    ensures StagesOk(Step(m, ev))
  {
    var n := Step(m, ev);
    NoIngestAfterAudit(m, ev.i, ev.health);
    forall i | 0 <= i < |n.disk| && AuditBegun(n, i)
      ensures n.disk[i].ingest != [] && LastJob(n.disk[i].ingest).status == Done && n.disk[i].submitting != Some(Ingest)
    {
      assert i == ev.i || AuditBegun(m, i);
    }
  }

  lemma SubmitKept(m: Machine, ev: Event, id: nat)
    requires ev.Submit? && JobsOk(m) && StagesOk(m) && Enabled(m, ev) && id < |m.jobs| && Kept(m, id)
    ensures id < |Step(m, ev).jobs| && m.jobs[id].owner < |Step(m, ev).disk| && Kept(Step(m, ev), id)
  {
    var n := Step(m, ev);
    var p := m.jobs[id];
    assert JobOk(p, id, m.disk);
    NoIngestAfterAudit(m, ev.i, ev.health);
    SameRecords(m.disk[p.owner], n.disk[p.owner], p.stage, id);
    assert p.owner == ev.i && p.stage == Audit ==> AuditBegun(m, ev.i);
    assert p.owner == ev.i && Announced(m, id) ==> ev.st == p.stage;
  }

  lemma TakeSound(m: Machine, ev: Event)
    requires ev.Take? && Sound(m) && Enabled(m, ev)
    ensures Sound(Step(m, ev))
  {
    var n := Step(m, ev);
    var i, st := m.wire.entry, m.wire.stage;
    var key := KeyOf(m.disk[i], st);
    assert st == Audit ==> AuditBegun(m, i);
    if FindJob(m.jobs, key).Some? {
      forall id | 0 <= id < |n.jobs| ensures Kept(n, id) {
        assert Kept(m, id);
      }
      assert forall j :: 0 <= j < |n.disk| && AuditBegun(n, j) ==> AuditBegun(m, j);
    } else {
      TakeMakesSound(m, ev.made, n);
    }
  }

  /** The state after the writer made a new job for the POST on the wire. */
  ghost predicate Made(m: Machine, made: Job, n: Machine) {
    && Sound(m) && Enabled(m, Take(made))
    && FindJob(m.jobs, KeyOf(m.disk[m.wire.entry], m.wire.stage)).None?
    && n == m.(jobs := m.jobs + [Posted(made, m.wire.entry, m.wire.stage)],
               wire := Answered(m.wire.entry, m.wire.stage, made),
               stray := m.stray + Unrecorded(m, KeyOf(m.disk[m.wire.entry], m.wire.stage)))
  }

  /** A new ingest job is the only reusable one for its bytes. */
  lemma MadeIsAlone(m: Machine, made: Job, n: Machine, a: nat)
    requires Made(m, made, n) && m.wire.stage == Ingest && a < |m.jobs|
    ensures m.jobs[a].stage == Ingest && m.jobs[a].job.sha == made.sha ==> !Reusable(m.jobs[a].job)
  {
    var key := KeyOf(m.disk[m.wire.entry], m.wire.stage);
    if m.jobs[a].stage == Ingest && m.jobs[a].job.sha == made.sha {
      assert Newest(m.jobs, key) == None;
      assert HasKey(m.jobs[a].job, key);
    }
  }

  lemma MadeAloneForBytes(m: Machine, made: Job, n: Machine)
    requires Made(m, made, n)
    ensures AloneForBytes(n.jobs)
  {
    forall a, b | 0 <= a < b < |n.jobs| && SameBytes(n.jobs[a], n.jobs[b])
      ensures !(Reusable(n.jobs[a].job) && Reusable(n.jobs[b].job))
    {
      assert n.jobs[a] == m.jobs[a];
      if b == |m.jobs| {
        MadeIsAlone(m, made, n, a);
      } else {
        assert n.jobs[b] == m.jobs[b];
      }
    }
  }

  lemma MadeJobsOk(m: Machine, made: Job, n: Machine)
    requires Made(m, made, n)
    ensures JobsOk(n)
  {
    MadeAloneForBytes(m, made, n);
    forall id | 0 <= id < |n.jobs| ensures JobOk(n.jobs[id], id, n.disk) {
      assert id < |m.jobs| ==> JobOk(m.jobs[id], id, m.disk);
    }
  }

  lemma MadeStagesOk(m: Machine, made: Job, n: Machine)
    requires Made(m, made, n)
    ensures StagesOk(n)
  {
    assert m.wire.stage == Audit ==> AuditBegun(m, m.wire.entry);
    forall j | 0 <= j < |n.disk| && AuditBegun(n, j) ensures AuditBegun(m, j) {
      if exists id :: 0 <= id < |n.jobs| && n.jobs[id].owner == j && n.jobs[id].stage == Audit {
        var id :| 0 <= id < |n.jobs| && n.jobs[id].owner == j && n.jobs[id].stage == Audit;
        assert id < |m.jobs| ==> m.jobs[id].owner == j && m.jobs[id].stage == Audit;
      }
    }
  }

  lemma MadeKept(m: Machine, made: Job, n: Machine, id: nat)
    requires Made(m, made, n) && id < |m.jobs|
    ensures Kept(n, id)
  {
    var key := KeyOf(m.disk[m.wire.entry], m.wire.stage);
    var p := m.jobs[id];
    assert n.jobs[id] == p;
    NewestAppend(m.jobs, Posted(made, m.wire.entry, m.wire.stage), KeyOfJob(p.job));
    assert Kept(m, id);
    if Live(p.job) && !Recorded(m.disk[p.owner], p.stage, id) {
      if HasKey(p.job, key) {
        assert id in Unrecorded(m, key);
      } else {
        assert KeyOfJob(p.job) != key;
        assert p.owner == m.wire.entry ==> p.stage != m.wire.stage;
      }
    }
  }

  lemma TakeMakesSound(m: Machine, made: Job, n: Machine)
    requires Made(m, made, n)
    ensures Sound(n)
  {
    MadeJobsOk(m, made, n);
    MadeStagesOk(m, made, n);
    forall id | 0 <= id < |n.jobs| ensures Kept(n, id) {
      if id < |m.jobs| {
        MadeKept(m, made, n, id);
      } else {
        NewestAppend(m.jobs, Posted(made, m.wire.entry, m.wire.stage), KeyOfJob(made));
      }
    }
  }

  lemma RecordSound(m: Machine, ev: Event)
    requires ev.Record? && Sound(m) && Enabled(m, ev)
    ensures Sound(Step(m, ev))
  {
    var n := Step(m, ev);
    var i, st, job := m.wire.entry, m.wire.stage, m.wire.job;
    assert st == Audit ==> AuditBegun(m, i);
    ReplacedOk(m, n, i);
    AdoptRecords(m.disk[i], st, if st == Ingest then job.(status := Queued) else job);
    forall id | 0 <= id < |n.jobs| ensures Kept(n, id) {
      GrownKept(m, n, id);
    }
  }

  /** One entry is replaced; its ingests do not change once its audit began. */
  lemma ReplacedOk(m: Machine, n: Machine, i: nat)
    requires JobsOk(m) && StagesOk(m) && n.jobs == m.jobs && n.wire == Idle
    requires i < |m.disk| == |n.disk| && n.disk == m.disk[i := n.disk[i]]
    requires
      var e, f := m.disk[i], n.disk[i];
      && f.sha == e.sha
      && (f.ingest == e.ingest || !AuditBegun(m, i))
      && (f.audit != [] ==> AuditBegun(m, i))
      && (f.submitting == e.submitting || f.submitting == None)
    ensures JobsOk(n) && StagesOk(n)
  {
    forall j | 0 <= j < |n.disk| && AuditBegun(n, j) ensures AuditBegun(m, j) {}
    forall id | 0 <= id < |n.jobs| ensures JobOk(n.jobs[id], id, n.disk) {
      assert JobOk(m.jobs[id], id, m.disk);
    }
  }

  /** The attempts of `f` go on from those of `e`. */
  ghost predicate Grown(e: Entry, f: Entry) {
    && (forall t :: |Attempts(e, t)| <= |Attempts(f, t)|)
    && (forall t, k :: 0 <= k < |Attempts(e, t)| ==> Attempts(f, t)[k].id == Attempts(e, t)[k].id)
  }

  /** A job stays kept while attempts grow, when its flag stays or falls with its own answer recorded. */
  lemma GrownKept(m: Machine, n: Machine, id: nat)
    requires id < |m.jobs| && m.jobs[id].owner < |m.disk| == |n.disk| && n.jobs == m.jobs
    requires Kept(m, id) && m.stray <= n.stray && n.wire == Idle
    requires
      var p := m.jobs[id];
      && Grown(m.disk[p.owner], n.disk[p.owner])
      && (m.disk[p.owner].status == Superseded ==> n.disk[p.owner].status == Superseded)
      && (Announced(m, id) ==>
            n.disk[p.owner].submitting == Some(p.stage) || Recorded(n.disk[p.owner], p.stage, id))
    ensures Kept(n, id)
  {
    var p := m.jobs[id];
    if Recorded(m.disk[p.owner], p.stage, id) {
      RecordedStays(m.disk[p.owner], n.disk[p.owner], p.stage, id);
    }
  }

  /** Adopting an answer forgets no recorded job and records the one answered. */
  lemma AdoptRecords(e: Entry, st: Stage, job: Job)
    ensures var f := Adopt(e, st, job);
            Recorded(f, st, job.id) && Grown(e, f)
  {
    var f := Adopt(e, st, job);
    assert Attempts(f, st)[|Attempts(f, st)| - 1].id == job.id;
  }

  lemma PollSound(m: Machine, ev: Event)
    requires ev.Poll? && Sound(m) && Enabled(m, ev)
    ensures Sound(Step(m, ev))
  {
    var n := Step(m, ev);
    assert ev.st == Ingest ==> !AuditBegun(m, ev.i);
    ReplacedOk(m, n, ev.i);
    forall id | 0 <= id < |n.jobs| ensures Kept(n, id) {
      GrownKept(m, n, id);
    }
  }

  lemma ProgressSound(m: Machine, ev: Event)
    requires ev.Progress? && Sound(m) && Enabled(m, ev)
    ensures Sound(Step(m, ev))
  {
    var n := Step(m, ev);
    forall j | 0 <= j < |n.disk| && AuditBegun(n, j) ensures AuditBegun(m, j) {
      if exists id :: 0 <= id < |n.jobs| && n.jobs[id].owner == j && n.jobs[id].stage == Audit {
        var id :| 0 <= id < |n.jobs| && n.jobs[id].owner == j && n.jobs[id].stage == Audit;
        assert m.jobs[id].owner == j && m.jobs[id].stage == Audit;
      }
    }
    ProgressJobsOk(m, ev);
    forall id | 0 <= id < |n.jobs| ensures Kept(n, id) {
      ProgressKept(m, ev, id);
    }
  }

  /** Work makes no job live or reusable that was not. */
  lemma ProgressRevivesNone(m: Machine, ev: Event, id: nat)
    requires ev.Progress? && JobsOk(m) && Enabled(m, ev) && id < |m.jobs|
    ensures var p, q := m.jobs[id], Step(m, ev).jobs[id];
            && q.owner == p.owner && q.stage == p.stage && KeyOfJob(q.job) == KeyOfJob(p.job)
            && JobOk(q, id, m.disk) && (forall key :: HasKey(q.job, key) <==> HasKey(p.job, key))
            && (Live(q.job) ==> Live(p.job)) && (Reusable(q.job) ==> Reusable(p.job))
  {
    assert JobOk(m.jobs[id], id, m.disk);
  }

  lemma ProgressJobsOk(m: Machine, ev: Event)
    requires ev.Progress? && JobsOk(m) && Enabled(m, ev)
    ensures JobsOk(Step(m, ev))
  {
    forall id | 0 <= id < |m.jobs|
      ensures JobOk(Step(m, ev).jobs[id], id, m.disk)
      ensures Reusable(Step(m, ev).jobs[id].job) ==> Reusable(m.jobs[id].job)
    {
      ProgressRevivesNone(m, ev, id);
    }
  }

  lemma ProgressKept(m: Machine, ev: Event, id: nat)
    requires ev.Progress? && JobsOk(m) && Enabled(m, ev) && id < |m.jobs|
    requires m.jobs[id].owner < |m.disk| && Kept(m, id)
    ensures Step(m, ev).jobs[id].owner < |m.disk| && Kept(Step(m, ev), id)
  {
    var n := Step(m, ev);
    ProgressRevivesNone(m, ev, id);
    if Live(n.jobs[id].job) && Announced(m, id) {
      var key := KeyOfJob(m.jobs[id].job);
      assert JobOk(m.jobs[id], id, m.disk) && HasKey(m.jobs[id].job, key);
      forall j | id < j < |n.jobs| && HasKey(n.jobs[j].job, key) ensures !Reusable(n.jobs[j].job) {
        ProgressRevivesNone(m, ev, j);
      }
      NewestIs(n.jobs, key, id);
    }
  }

  /** Two states with the same jobs and attempts. */
  ghost predicate SameWork(m: Machine, n: Machine) {
    && n.jobs == m.jobs && |n.disk| == |m.disk|
    && forall i :: 0 <= i < |n.disk| ==>
         && n.disk[i].ingest == m.disk[i].ingest && n.disk[i].audit == m.disk[i].audit && n.disk[i].sha == m.disk[i].sha
         && (n.disk[i].submitting == m.disk[i].submitting || n.disk[i].submitting == None)
  }

  /** Events that touch neither the jobs nor the attempts. */
  predicate Aside(ev: Event) {
    ev.Lose? || ev.Refuse? || ev.Deny? || ev.Supersede? || ev.Finish? || ev.Settle? || ev.Kill?
  }

  lemma OtherIsSameWork(m: Machine, ev: Event)
    requires Aside(ev) && Enabled(m, ev)
    ensures SameWork(m, Step(m, ev)) && (Step(m, ev).wire == Idle || Step(m, ev).wire == m.wire)
  {}

  lemma SameWorkStagesOk(m: Machine, n: Machine)
    requires SameWork(m, n) && StagesOk(m)
    ensures StagesOk(n)
  {
    forall j | 0 <= j < |n.disk| && AuditBegun(n, j) ensures AuditBegun(m, j) {}
  }

  lemma SameWorkJobsOk(m: Machine, n: Machine)
    requires SameWork(m, n) && JobsOk(m) && (n.wire == Idle || n.wire == m.wire)
    ensures JobsOk(n)
  {}

  lemma OtherSound(m: Machine, ev: Event)
    requires Aside(ev) && Sound(m) && Enabled(m, ev)
    ensures Sound(Step(m, ev))
  {
    var n := Step(m, ev);
    OtherIsSameWork(m, ev);
    SameWorkStagesOk(m, n);
    SameWorkJobsOk(m, n);
    forall id | 0 <= id < |n.jobs| ensures Kept(n, id) {
      OtherKept(m, ev, id);
    }
  }

  /** An entry that waits for a job has no flag up. */
  lemma WaitsUnannounced(m: Machine, i: nat, st: Stage)
    requires StagesOk(m) && Waits(m, i, st)
    ensures m.disk[i].submitting == None
  {
    assert st == Audit ==> AuditBegun(m, i);
    assert st == Ingest ==> !AuditBegun(m, i);
    match m.disk[i].submitting {
      case None =>
      case Some(flag) => match flag { case Ingest => case Audit => }
    }
  }

  lemma OtherKept(m: Machine, ev: Event, id: nat)
    requires Aside(ev) && Sound(m) && Enabled(m, ev) && id < |m.jobs|
    ensures Kept(Step(m, ev), id)
  {
    var n := Step(m, ev);
    var p := m.jobs[id];
    assert Kept(m, id);
    assert Attempts(n.disk[p.owner], p.stage) == Attempts(m.disk[p.owner], p.stage);
    SameRecords(m.disk[p.owner], n.disk[p.owner], p.stage, id);
    if ev.Deny? { WaitsUnannounced(m, ev.i, ev.st); }
    if ev.Refuse? && p.owner == m.wire.entry && p.stage == m.wire.stage && Live(p.job)
       && !Recorded(m.disk[p.owner], p.stage, id) {
      assert id in UnrecordedOf(m, p.owner, p.stage);
    }
  }

  lemma StepSound(m: Machine, ev: Event)
    requires Sound(m) && Enabled(m, ev)
    ensures Sound(Step(m, ev))
  {
    if ev.Submit? { SubmitSound(m, ev); }
    else if ev.Take? { TakeSound(m, ev); }
    else if ev.Record? { RecordSound(m, ev); }
    else if ev.Poll? { PollSound(m, ev); }
    else if ev.Progress? { ProgressSound(m, ev); }
    else { OtherSound(m, ev); }
  }

  lemma {:induction false} ExecSound(m: Machine, events: seq<Event>)
    requires Sound(m)
    ensures Sound(Exec(m, events))
    decreases |events|
  {
    if events != [] {
      if Enabled(m, events[0]) { StepSound(m, events[0]); }
      ExecSound(if Enabled(m, events[0]) then Step(m, events[0]) else m, events[1..]);
    }
  }

  lemma InitialSound(m: Machine)
    requires Initial(m)
    ensures Sound(m)
  {}

  /**
   In every reachable state every queued, running or done job that a POST created is recorded by the entry
   it was created for, or announced by that entry's saved flag, or its entry is superseded, or it is one of
   the strays whose two origins `LedgerStrays.StrayOrigins` pins down.
   */
  lemma NoJobIsForgotten(m: Machine, events: seq<Event>, id: nat)
    requires Initial(m) && id < |Exec(m, events).jobs| && Live(Exec(m, events).jobs[id].job)
    ensures var n := Exec(m, events);
            var p := n.jobs[id];
            && p.owner < |n.disk|
            && (n.disk[p.owner].status == Superseded || Recorded(n.disk[p.owner], p.stage, id)
                || n.disk[p.owner].submitting == Some(p.stage) || id in n.stray)
  {
    InitialSound(m);
    ExecSound(m, events);
    assert Kept(Exec(m, events), id);
  }

  /** Nothing on disk points at a live job: no receipt, no flag, no superseding version. */
  ghost predicate Forgotten(m: Machine, id: nat) {
    && id < |m.jobs| && m.jobs[id].owner < |m.disk| && Live(m.jobs[id].job)
    && m.disk[m.jobs[id].owner].status != Superseded
    && !Recorded(m.disk[m.jobs[id].owner], m.jobs[id].stage, id)
    && m.disk[m.jobs[id].owner].submitting != Some(m.jobs[id].stage)
  }
}
