/**
 The durable ledger of `ai-wiki maintain`: for each source, the ingest and audit attempts it recorded,
 the flag that announces a POST before it is sent, and the bookkeeping of retries. The ledger is saved
 atomically; a run can be killed, an answer lost or refused, and the writer's jobs move on their own.

 The protocol is a state machine over those events. The writer answers a POST as it promises to
 (`service/ingest.py`): it reuses the newest live job for the same bytes or parent, except that one
 done audit whose verdict slipped earns one fresh review.
 */
module Ledger {
  import opened Prelude

  // ----- jobs ------------------------------------------------------------------------------

  datatype Stage = Ingest | Audit

  datatype Class =
    | Capacity | Transient | Timeout | Interrupted | ModelOutput | Conflict | Internal
    | Auth | DiskFull | BadInput

  /** The failure record of a failed job; the writer may set `retryable` against the default of its class. */
  datatype Failure = Failure(cls: Class, retryable: bool)

  /** `Inbox`: the writer keeps the evidence for a maintainer; it answers with states the client does not know. */
  datatype Status = Queued | Running | Done | Failed | NeedsConversion | Inbox

  /** What a done receipt says, field by field as `receipt` reads it. */
  datatype Receipt = Receipt(
    validated: bool,
    auditPassed: bool, auditAttention: bool, conceptsListed: bool, someConcept: bool, verdictSlip: bool,
    commit: Option<string>, gitCommitted: bool, gitCommit: Option<string>, gitPushed: bool, gitNoChanges: bool,
    noConceptsReason: bool, changedNothing: bool)

  datatype Job = Job(
    id: nat, kind: Stage, status: Status, sha: string, parent: Option<nat>,
    rolledBack: bool, failure: Failure, build: Option<string>, receipt: Receipt)

  predicate Live(job: Job) {
    job.status == Queued || job.status == Running || job.status == Done || (job.status == Inbox && job.kind == Ingest)
  }

  predicate Terminal(job: Job) {
    job.status == Done || job.status == Failed || job.status == NeedsConversion
  }

  predicate Slip(job: Job) {
    job.status == Done && job.receipt.verdictSlip
  }

  predicate CountedFailure(job: Job) {
    job.status == Failed && job.failure.cls != Capacity
  }

  predicate ConfirmedDead(job: Job) {
    job.status == NeedsConversion || (job.status == Failed && job.rolledBack)
  }

  /** `receipt`: a done job with a validated and published result; `parent` is given for an audit. */
  predicate ReceiptOk(job: Job, parent: Option<nat>) {
    var r := job.receipt;
    && job.status == Done && r.validated
    && (parent.Some? ==>
          job.parent == parent && job.kind == Audit && (r.auditPassed || r.auditAttention) && r.conceptsListed)
    && (if r.commit.Some? then r.gitCommitted && r.gitCommit == r.commit && r.gitPushed
        else if parent.Some? && r.noConceptsReason then r.changedNothing && r.auditPassed && !r.someConcept
        else r.gitNoChanges && r.changedNothing)
  }

  // ----- entries ---------------------------------------------------------------------------

  datatype EntryStatus = Pending | NeedsRepair | Superseded | Completed | Dropped

  datatype Entry = Entry(
    identity: string, sha: string, status: EntryStatus, submitting: Option<Stage>,
    ingest: seq<Job>, audit: seq<Job>, ingestBuild: Option<string>, auditBuild: Option<string>)

  function Attempts(e: Entry, st: Stage): seq<Job> {
    if st == Ingest then e.ingest else e.audit
  }

  function WithAttempts(e: Entry, st: Stage, attempts: seq<Job>): Entry {
    if st == Ingest then e.(ingest := attempts) else e.(audit := attempts)
  }

  /** `entry["build_retry"][stage]`: the build that earned the last extra attempt. */
  function BuildRetry(e: Entry, st: Stage): Option<string> {
    if st == Ingest then e.ingestBuild else e.auditBuild
  }

  function WithBuildRetry(e: Entry, st: Stage, build: Option<string>): Entry {
    if st == Ingest then e.(ingestBuild := build) else e.(auditBuild := build)
  }

  function LastJob(s: seq<Job>): Job
    requires s != []
  {
    s[|s| - 1]
  }

  function Failures(s: seq<Job>): nat {
    if s == [] then 0 else Failures(s[..|s| - 1]) + if CountedFailure(LastJob(s)) then 1 else 0
  }

  function Slips(s: seq<Job>): nat {
    if s == [] then 0 else Slips(s[..|s| - 1]) + if Slip(LastJob(s)) then 1 else 0
  }

  predicate Active(e: Entry) {
    e.status == Pending || e.status == NeedsRepair
  }

  predicate Recorded(e: Entry, st: Stage, id: nat) {
    exists k :: 0 <= k < |Attempts(e, st)| && Attempts(e, st)[k].id == id
  }

  /** The ingest stage is behind this entry. */
  predicate IngestDone(e: Entry) {
    && e.ingest != [] && e.submitting != Some(Ingest)
    && LastJob(e.ingest).kind == Ingest && LastJob(e.ingest).sha == e.sha
    && ReceiptOk(LastJob(e.ingest), None)
  }

  // ----- when an attempt may follow another ------------------------------------------------

  const MAX_VERDICT_SLIPS := 2

  /** `ATTEMPT_CAPS`; the classes without a cap are never counted against one. */
  function Cap(cls: Class): Option<nat> {
    match cls
    case Transient => Some(3)
    case Timeout => Some(3)
    case Interrupted => Some(3)
    case Conflict => Some(3)
    case ModelOutput => Some(3)
    case Internal => Some(2)
    case Capacity => None
    case Auth => None
    case DiskFull => None
    case BadInput => None
  }

  /** `_extra_build`: the reported build that earns one attempt past the cap, if it does. */
  function ExtraBuild(e: Entry, st: Stage, job: Job, health: Option<string>): Option<string> {
    if job.build == None || job.build.value == "" || health == None || health.value == "" then None
    else if job.build.value <= health.value || health.value <= job.build.value then None
    else if BuildRetry(e, st) == health then None
    else health
  }

  datatype Retry = Refused | Allowed(extra: Option<string>)

  /** `_retry_failure`: whether a fresh attempt may follow the failed `job`. */
  function RetryFailure(e: Entry, st: Stage, job: Job, health: Option<string>): Retry {
    if job.kind != st then Refused
    else if st == Ingest && job.sha != e.sha then Refused
    else if st == Audit && (e.ingest == [] || job.parent != Some(LastJob(e.ingest).id)) then Refused
    else if !job.failure.retryable then Refused
    else if !job.rolledBack then Refused
    else
      var cap := Cap(job.failure.cls);
      if cap.Some? && Failures(Attempts(e, st)) >= cap.value then
        var extra := ExtraBuild(e, st, job, health);
        if extra == None then Refused else Allowed(extra)
      else Allowed(None)
  }

  /** Whether `_process` POSTs now, and the build spent on it if the cap is passed. */
  function MaySubmit(e: Entry, st: Stage, health: Option<string>): Retry {
    var attempts := Attempts(e, st);
    if e.submitting == Some(st) || attempts == [] then Allowed(None)
    else if LastJob(attempts).status == Failed then RetryFailure(e, st, LastJob(attempts), health)
    else if st == Audit && e.ingest != [] && ReceiptOk(LastJob(attempts), Some(LastJob(e.ingest).id))
            && Slip(LastJob(attempts)) && Slips(attempts) < MAX_VERDICT_SLIPS then Allowed(None)
    else Refused
  }

  // ----- the writer ------------------------------------------------------------------------

  /** A job on the writer and the entry and stage whose POST created it. */
  datatype Posted = Posted(job: Job, owner: nat, stage: Stage)

  /** What a POST names: the bytes to ingest, or the ingest job to audit. */
  datatype Key = Bytes(sha: string) | ParentJob(id: nat)

  predicate HasKey(job: Job, key: Key) {
    match key
    case Bytes(sha) => job.kind == Ingest && job.sha == sha
    case ParentJob(id) => job.kind == Audit && job.parent == Some(id)
  }

  predicate Reusable(job: Job) {
    Live(job) || (job.kind == Ingest && job.status == NeedsConversion)
  }

  /** The newest reusable job for a key. */
  function Newest(jobs: seq<Posted>, key: Key): (r: Option<nat>)
    ensures r.Some? ==>
              && r.value < |jobs| && HasKey(jobs[r.value].job, key) && Reusable(jobs[r.value].job)
              && forall id :: r.value < id < |jobs| && HasKey(jobs[id].job, key) ==> !Reusable(jobs[id].job)
    ensures r.None? ==> forall id :: 0 <= id < |jobs| && HasKey(jobs[id].job, key) ==> !Reusable(jobs[id].job)
  {
    if jobs == [] then None
    else
      var last := |jobs| - 1;
      if HasKey(jobs[last].job, key) && Reusable(jobs[last].job) then Some(last) else Newest(jobs[..last], key)
  }

  function SlipsOf(jobs: seq<Posted>, key: Key): nat {
    if jobs == [] then 0
    else
      var last := |jobs| - 1;
      SlipsOf(jobs[..last], key) + if HasKey(jobs[last].job, key) && Slip(jobs[last].job) then 1 else 0
  }

  /** `find_job_by_sha` and `find_audit_job`: the job that answers a POST, or None for a new one. */
  function FindJob(jobs: seq<Posted>, key: Key): Option<nat> {
    var newest := Newest(jobs, key);
    if newest.Some? && key.ParentJob? && Slip(jobs[newest.value].job)
       && SlipsOf(jobs, key) < MAX_VERDICT_SLIPS
    then None
    else newest
  }

  // ----- the machine -----------------------------------------------------------------------

  datatype Wire = Idle | Sending(entry: nat, stage: Stage) | Answered(entry: nat, stage: Stage, job: Job)

  /** The builds that earned extra attempts, oldest first. */
  datatype Grants = Grants(ingest: seq<string>, audit: seq<string>)

  function Granted(g: Grants, st: Stage): seq<string> {
    if st == Ingest then g.ingest else g.audit
  }

  function Grant(g: Grants, st: Stage, build: Option<string>): Grants {
    if build == None then g
    else if st == Ingest then g.(ingest := g.ingest + [build.value])
    else g.(audit := g.audit + [build.value])
  }

  /**
   `disk` is the saved ledger. The rest after `wire` is history: the extra attempts granted; the live jobs
   that were left neither recorded nor announced when a flag was dropped or a fresh review begun; the jobs
   that an answer named that was lost; and whether the flag was up already before the last POST was sent.
   */
  datatype Machine = Machine(
    disk: seq<Entry>, jobs: seq<Posted>, wire: Wire,
    grants: seq<Grants>, stray: set<nat>, lost: set<nat>, repeat: bool)

  datatype Event =
    | Submit(i: nat, st: Stage, health: Option<string>, readable: bool)
    | Take(made: Job)              // the writer handles the POST; `made` is the job it makes if it makes one
    | Record                        // the answer arrives and is saved
    | Lose                          // no answer arrives
    | Refuse(again: bool)           // the writer refuses; `again` for a 429 or a mutation in progress
    | Poll(i: nat, st: Stage)
    | Deny(i: nat, st: Stage, again: bool)   // the writer refuses to say how a job stands
    | Progress(id: nat, job: Job)   // the writer works on a job
    | Supersede(i: nat)
    | Finish(i: nat)
    | Settle(i: nat, repair: bool)  // the entry is left pending, or needs repair
    | Kill

  function KeyOf(e: Entry, st: Stage): Key
    requires st == Audit ==> e.ingest != []
  {
    if st == Ingest then Bytes(e.sha) else ParentJob(LastJob(e.ingest).id)
  }

  predicate Idles(m: Machine, i: nat) {
    m.wire == Idle && i < |m.disk| && Active(m.disk[i])
  }

  predicate WireOk(m: Machine) {
    m.wire.Idle? || (
      && m.wire.entry < |m.disk| && m.disk[m.wire.entry].submitting == Some(m.wire.stage)
      && Active(m.disk[m.wire.entry])
      && (m.wire.stage == Audit ==> m.disk[m.wire.entry].ingest != []))
  }

  /** The live jobs for a key that the entry they were made for has not recorded. */
  function Unrecorded(m: Machine, key: Key): set<nat> {
    set id | 0 <= id < |m.jobs| && Live(m.jobs[id].job) && HasKey(m.jobs[id].job, key)
             && m.jobs[id].owner < |m.disk| && !Recorded(m.disk[m.jobs[id].owner], m.jobs[id].stage, id)
  }

  function UnrecordedOf(m: Machine, i: nat, st: Stage): set<nat>
    requires i < |m.disk|
  {
    set id | 0 <= id < |m.jobs| && Live(m.jobs[id].job) && m.jobs[id].owner == i && m.jobs[id].stage == st
             && !Recorded(m.disk[i], st, id)
  }

  /** What a new job may start as: queued, or in a state that needs no work of the writer. */
  predicate CanStart(st: Stage, status: Status) {
    status == Queued || if st == Ingest then status == NeedsConversion || status == Inbox else status == Done
  }

  /** The last attempt of the stage is one to ask the writer about. */
  predicate Waits(m: Machine, i: nat, st: Stage) {
    && Idles(m, i) && Attempts(m.disk[i], st) != [] && !Terminal(LastJob(Attempts(m.disk[i], st)))
    && m.disk[i].submitting != Some(st)
  }

  /** The job that the answer on the wire names. */
  function Named(wire: Wire): set<nat> {
    if wire.Answered? then {wire.job.id} else {}
  }

  predicate Enabled(m: Machine, ev: Event) {
    match ev
    case Submit(i, st, health, _) =>
      && Idles(m, i) && i < |m.grants|
      && (st == Audit ==> IngestDone(m.disk[i]))
      && MaySubmit(m.disk[i], st, health).Allowed?
    case Take(made) =>
      && m.wire.Sending? && WireOk(m)
      && made.id == |m.jobs| && made.kind == m.wire.stage
      && HasKey(made, KeyOf(m.disk[m.wire.entry], m.wire.stage))
      && CanStart(made.kind, made.status)
    case Record => m.wire.Answered? && WireOk(m)
    case Lose => !m.wire.Idle? && WireOk(m)
    case Refuse(_) => m.wire.Sending? && WireOk(m)
    case Poll(i, st) => Waits(m, i, st) && LastJob(Attempts(m.disk[i], st)).id < |m.jobs|
    case Deny(i, st, _) => Waits(m, i, st)
    case Progress(id, job) =>
      && id < |m.jobs| && !Terminal(m.jobs[id].job)
      && job.id == id && job.kind == m.jobs[id].job.kind
      && job.sha == m.jobs[id].job.sha && job.parent == m.jobs[id].job.parent
      && (job.status == Inbox ==> job.kind == Ingest)
    case Supersede(i) =>
      && Idles(m, i)
      && (exists j :: i < j < |m.disk| && m.disk[j].identity == m.disk[i].identity)
      && (forall k :: 0 <= k < |m.disk[i].ingest| ==> ConfirmedDead(m.disk[i].ingest[k]))
    case Finish(i) =>
      && Idles(m, i) && IngestDone(m.disk[i]) && m.disk[i].submitting == None
      && m.disk[i].audit != []
      && ReceiptOk(LastJob(m.disk[i].audit), Some(LastJob(m.disk[i].ingest).id))
      && MaySubmit(m.disk[i], Audit, None).Refused?
    case Settle(i, _) => Idles(m, i)
    case Kill => true
  }

  /** `_submit` after the answer: adopt the job, as the last attempt or one more. */
  function Adopt(e: Entry, st: Stage, job: Job): Entry {
    var attempts := Attempts(e, st);
    var adopted := if attempts != [] && LastJob(attempts).id == job.id then attempts[..|attempts| - 1] + [job]
                   else attempts + [job];
    WithAttempts(e, st, adopted).(submitting := None)
  }

  function Step(m: Machine, ev: Event): Machine
    requires Enabled(m, ev)
  {
    match ev
    case Submit(i, st, health, readable) =>
      var extra := MaySubmit(m.disk[i], st, health).extra;
      var e := Spent(m.disk[i], st, extra);
      var grants := m.grants[i := Grant(m.grants[i], st, extra)];
      if st == Ingest && !readable then m.(disk := m.disk[i := e.(status := NeedsRepair)], grants := grants)
      else m.(disk := m.disk[i := e.(submitting := Some(st))], grants := grants, wire := Sending(i, st),
              repeat := m.disk[i].submitting == Some(st))
    case Take(made) =>
      var i, st := m.wire.entry, m.wire.stage;
      var key := KeyOf(m.disk[i], st);
      var found := FindJob(m.jobs, key);
      if found.Some?
      then m.(wire := Answered(i, st, m.jobs[found.value].job))
      else m.(jobs := m.jobs + [Posted(made, i, st)], wire := Answered(i, st, made),
              stray := m.stray + Unrecorded(m, key))
    case Record =>
      var i, st, job := m.wire.entry, m.wire.stage, m.wire.job;
      var seen := if st == Ingest then job.(status := Queued) else job;
      m.(disk := m.disk[i := Adopt(m.disk[i], st, seen)], wire := Idle)
    case Lose =>
      m.(disk := m.disk[m.wire.entry := m.disk[m.wire.entry].(status := Pending)],
         wire := Idle, lost := m.lost + Named(m.wire))
    case Refuse(again) =>
      var i := m.wire.entry;
      m.(disk := m.disk[i := m.disk[i].(submitting := None, status := if again then Pending else NeedsRepair)],
         wire := Idle, stray := m.stray + UnrecordedOf(m, i, m.wire.stage))
    case Poll(i, st) =>
      var attempts := Attempts(m.disk[i], st);
      var polled := attempts[|attempts| - 1 := m.jobs[LastJob(attempts).id].job];
      m.(disk := m.disk[i := WithAttempts(m.disk[i], st, polled)])
    case Deny(i, _, again) =>
      m.(disk := m.disk[i := m.disk[i].(submitting := None, status := if again then Pending else NeedsRepair)])
    case Progress(id, job) => m.(jobs := m.jobs[id := m.jobs[id].(job := job)])
    case Supersede(i) => m.(disk := m.disk[i := m.disk[i].(status := Superseded, submitting := None)])
    case Finish(i) => m.(disk := m.disk[i := m.disk[i].(status := Completed)])
    case Settle(i, repair) => m.(disk := m.disk[i := m.disk[i].(status := if repair then NeedsRepair else Pending)])
    case Kill => m.(wire := Idle, lost := m.lost + Named(m.wire))
  }

  /** A run of the machine; an event that cannot happen does not. */
  function Exec(m: Machine, events: seq<Event>): Machine
    decreases |events|
  {
    if events == [] then m
    else Exec(if Enabled(m, events[0]) then Step(m, events[0]) else m, events[1..])
  }

  /** The entry after the build that earned the attempt is noted, as `Submit` leaves it. */
  function Spent(e: Entry, st: Stage, extra: Option<string>): Entry {
    if extra == None then e else WithBuildRetry(e, st, extra)
  }

  predicate Initial(m: Machine) {
    && m.jobs == [] && m.wire == Idle && m.stray == {} && m.lost == {} && !m.repeat
    && |m.grants| == |m.disk|
    && (forall i :: 0 <= i < |m.grants| ==> m.grants[i] == Grants([], []))
    && (forall i :: 0 <= i < |m.disk| ==>
          && m.disk[i].status == Pending && m.disk[i].submitting == None
          && m.disk[i].ingest == [] && m.disk[i].audit == []
          && m.disk[i].ingestBuild == None && m.disk[i].auditBuild == None)
  }

  lemma ExecOne(m: Machine, ev: Event, rest: seq<Event>)
    requires Enabled(m, ev)
    ensures Exec(m, [ev] + rest) == Exec(Step(m, ev), rest)
  {
    assert ([ev] + rest)[1..] == rest;
  }

  lemma {:induction false} ExecAppend(m: Machine, a: seq<Event>, b: seq<Event>)
    ensures Exec(m, a + b) == Exec(Exec(m, a), b)
    decreases |a|
  {
    if a == [] {
      assert a + b == b;
    } else {
      assert (a + b)[0] == a[0] && (a + b)[1..] == a[1..] + b;
      ExecAppend(if Enabled(m, a[0]) then Step(m, a[0]) else m, a[1..], b);
    }
  }

  /** A run grown by one event that can happen. */
  lemma ExecSnoc(m: Machine, events: seq<Event>, ev: Event)
    requires Enabled(Exec(m, events), ev)
    ensures Exec(m, events + [ev]) == Step(Exec(m, events), ev)
  {
    ExecAppend(m, events, [ev]);
    assert [ev] == [ev] + [];
    ExecOne(Exec(m, events), ev, []);
  }
}
