/** How often a stage can fail: the attempt caps over whole runs of the ledger. */
module LedgerBounds {
  import opened Prelude
  import opened Ledger

  /** A failed job that may be retried belongs to a class that is counted against a cap, or to capacity. */
  predicate Tame(job: Job) {
    job.status == Failed && job.failure.retryable ==> job.failure.cls == Capacity || Cap(job.failure.cls).Some?
  }

  ghost predicate TameJobs(s: seq<Job>) {
    forall k :: 0 <= k < |s| ==> Tame(s[k])
  }

  ghost predicate TameWriter(m: Machine) {
    && (forall id :: 0 <= id < |m.jobs| ==> Tame(m.jobs[id].job))
    && (m.wire.Answered? ==> m.wire.job.status != Failed)
  }

  ghost predicate TameEvents(events: seq<Event>) {
    forall k :: 0 <= k < |events| && events[k].Progress? ==> Tame(events[k].job)
  }

  /** At the bound the last attempt is itself a counted failure; below it one more POST may be announced. */
  ghost predicate Bounded(e: Entry, g: Grants, st: Stage) {
    var failed, bound := Failures(Attempts(e, st)), 3 + |Granted(g, st)|;
    && TameJobs(Attempts(e, st))
    && failed <= bound
    && (failed == bound ==> Attempts(e, st) != [] && CountedFailure(LastJob(Attempts(e, st))))
    && (e.submitting == Some(st) ==> failed < bound)
  }

  ghost predicate AllBounded(m: Machine) {
    && |m.grants| == |m.disk|
    && TameWriter(m)
    && forall i, st :: 0 <= i < |m.disk| ==> Bounded(m.disk[i], m.grants[i], st)
  }

  lemma FailuresAppend(s: seq<Job>, job: Job)
    ensures Failures(s + [job]) == Failures(s) + if CountedFailure(job) then 1 else 0
  {
    assert (s + [job])[..|s|] == s;
  }

  lemma FailuresReplaceLast(s: seq<Job>, job: Job)
    requires s != []
    ensures Failures(s[|s| - 1 := job]) == Failures(s[..|s| - 1]) + if CountedFailure(job) then 1 else 0
  {
    assert s[|s| - 1 := job][..|s| - 1] == s[..|s| - 1];
  }

  /** The guard before a POST: below the bound already, or one extra attempt is spent. */
  lemma SubmitBelowBound(e: Entry, g: Grants, st: Stage, health: Option<string>)
    requires Bounded(e, g, st) && MaySubmit(e, st, health).Allowed?
    ensures Failures(Attempts(e, st)) < 3 + |Granted(Grant(g, st, MaySubmit(e, st, health).extra), st)|
  {
    var attempts := Attempts(e, st);
    if e.submitting == Some(st) || attempts == [] {
    } else if LastJob(attempts).status == Failed {
      assert Tame(attempts[|attempts| - 1]);
    }
  }

  lemma SubmitKeeps(m: Machine, ev: Event)
    requires ev.Submit? && AllBounded(m) && Enabled(m, ev)
    ensures AllBounded(Step(m, ev))
  {
    var n := Step(m, ev);
    SubmitBelowBound(m.disk[ev.i], m.grants[ev.i], ev.st, ev.health);
    forall i, st | 0 <= i < |n.disk| ensures Bounded(n.disk[i], n.grants[i], st) {
      assert Bounded(m.disk[i], m.grants[i], st);
      if i == ev.i {
        assert Attempts(n.disk[i], st) == Attempts(m.disk[i], st);
      }
    }
  }

  lemma TameAppend(s: seq<Job>, job: Job)
    requires TameJobs(s) && job.status != Failed
    ensures TameJobs(s + [job]) && Failures(s + [job]) == Failures(s)
  {
    FailuresAppend(s, job);
    forall k | 0 <= k < |s + [job]| ensures Tame((s + [job])[k]) {
      if k < |s| { assert Tame(s[k]); }
    }
  }

  lemma AdoptKeeps(e: Entry, g: Grants, st: Stage, job: Job, t: Stage)
    requires Bounded(e, g, t) && e.submitting == Some(st) && job.status != Failed
    ensures Bounded(Adopt(e, st, job), g, t)
  {
    var attempts := Attempts(e, st);
    if t != st {
      assert Attempts(Adopt(e, st, job), t) == Attempts(e, t);
    } else if attempts != [] && LastJob(attempts).id == job.id {
      var init := attempts[..|attempts| - 1];
      assert Attempts(Adopt(e, st, job), st) == init + [job];
      assert TameJobs(init);
      TameAppend(init, job);
    } else {
      assert Attempts(Adopt(e, st, job), st) == attempts + [job];
      TameAppend(attempts, job);
    }
  }

  lemma RecordKeeps(m: Machine, ev: Event)
    requires ev.Record? && AllBounded(m) && Enabled(m, ev)
    ensures AllBounded(Step(m, ev))
  {
    var n := Step(m, ev);
    var i, st := m.wire.entry, m.wire.stage;
    var job := if st == Ingest then m.wire.job.(status := Queued) else m.wire.job;
    forall j, t | 0 <= j < |n.disk| ensures Bounded(n.disk[j], n.grants[j], t) {
      assert Bounded(m.disk[j], m.grants[j], t);
      if j == i { AdoptKeeps(m.disk[i], m.grants[i], st, job, t); }
    }
  }

  lemma PollKeeps(m: Machine, ev: Event)
    requires ev.Poll? && AllBounded(m) && Enabled(m, ev)
    ensures AllBounded(Step(m, ev))
  {
    var n := Step(m, ev);
    var attempts := Attempts(m.disk[ev.i], ev.st);
    var job := m.jobs[LastJob(attempts).id].job;
    assert Bounded(m.disk[ev.i], m.grants[ev.i], ev.st);
    FailuresReplaceLast(attempts, job);
    forall j, t | 0 <= j < |n.disk| ensures Bounded(n.disk[j], n.grants[j], t) {
      assert Bounded(m.disk[j], m.grants[j], t);
    }
  }

  lemma TakeKeeps(m: Machine, ev: Event)
    requires ev.Take? && AllBounded(m) && Enabled(m, ev)
    ensures AllBounded(Step(m, ev))
  {
    var n := Step(m, ev);
    forall j, t | 0 <= j < |n.disk| ensures Bounded(n.disk[j], n.grants[j], t) {
      assert Bounded(m.disk[j], m.grants[j], t);
    }
  }

  lemma OtherKeeps(m: Machine, ev: Event)
    requires !ev.Submit? && !ev.Record? && !ev.Poll? && !ev.Take?
    requires ev.Progress? ==> Tame(ev.job)
    requires AllBounded(m) && Enabled(m, ev)
    ensures AllBounded(Step(m, ev))
  {
    var n := Step(m, ev);
    forall j, t | 0 <= j < |n.disk| ensures Bounded(n.disk[j], n.grants[j], t) {
      assert Bounded(m.disk[j], m.grants[j], t);
      assert Attempts(n.disk[j], t) == Attempts(m.disk[j], t);
    }
  }

  lemma {:induction false} ExecKeepsBound(m: Machine, events: seq<Event>)
    requires AllBounded(m) && TameEvents(events)
    ensures AllBounded(Exec(m, events))
    decreases |events|
  {
    if events != [] {
      var ev := events[0];
      if Enabled(m, ev) {
        if ev.Submit? { SubmitKeeps(m, ev); }
        else if ev.Record? { RecordKeeps(m, ev); }
        else if ev.Poll? { PollKeeps(m, ev); }
        else if ev.Take? { TakeKeeps(m, ev); }
        else { OtherKeeps(m, ev); }
        ExecKeepsBound(Step(m, ev), events[1..]);
      } else {
        ExecKeepsBound(m, events[1..]);
      }
    }
  }

  /**
   Whatever the order of failures, capacity failures, verdict slips, lost answers, re-POSTs and crashes,
   a stage records at most three counted failures plus one for each extra attempt granted, provided the
   writer marks no uncapped class retryable.
   */
  lemma AttemptsAreBounded(m: Machine, events: seq<Event>, i: nat, st: Stage)
    requires Initial(m) && TameEvents(events) && i < |m.disk|
    ensures var n := Exec(m, events);
            && |n.disk| == |m.disk| == |n.grants|
            && Failures(Attempts(n.disk[i], st)) <= 3 + |Granted(n.grants[i], st)|
  {
    ExecKeepsBound(m, events);
    SameSize(m, events);
    assert Bounded(Exec(m, events).disk[i], Exec(m, events).grants[i], st);
  }

  lemma {:induction false} SameSize(m: Machine, events: seq<Event>)
    ensures |Exec(m, events).disk| == |m.disk|
    decreases |events|
  {
    if events != [] {
      SameSize(if Enabled(m, events[0]) then Step(m, events[0]) else m, events[1..]);
    }
  }

  /**
   The bound is exact: at it, another POST without a grant is allowed if and only if the last failure
   is marked retryable, is rolled back, belongs to this stage, and its class has no cap.
   */
  lemma PastTheBound(e: Entry, g: Grants, st: Stage, health: Option<string>)
    requires Failures(Attempts(e, st)) == 3 + |Granted(g, st)| && e.submitting != Some(st)
    requires CountedFailure(LastJob(Attempts(e, st)))
    ensures var last := LastJob(Attempts(e, st));
            MaySubmit(e, st, health) == Allowed(None) <==>
            && last.kind == st && last.failure.retryable && last.rolledBack && Cap(last.failure.cls) == None
            && (if st == Ingest then last.sha == e.sha
                else e.ingest != [] && last.parent == Some(LastJob(e.ingest).id))
  {}

  // ----- what the grants promise -----------------------------------------------------------

  ghost predicate GrantsOk(e: Entry, g: Grants, st: Stage) {
    var built := Granted(g, st);
    && BuildRetry(e, st) == (if built == [] then None else Some(built[|built| - 1]))
    && forall k :: 0 <= k < |built| - 1 ==> built[k] != built[k + 1]
  }

  ghost predicate AllGrantsOk(m: Machine) {
    |m.grants| == |m.disk| && forall i, st :: 0 <= i < |m.disk| ==> GrantsOk(m.disk[i], m.grants[i], st)
  }

  lemma SpentGrantsOk(e: Entry, g: Grants, st: Stage, health: Option<string>, t: Stage)
    requires GrantsOk(e, g, t) && MaySubmit(e, st, health).Allowed?
    ensures var extra := MaySubmit(e, st, health).extra;
            GrantsOk(Spent(e, st, extra), Grant(g, st, extra), t)
  {
    var extra := MaySubmit(e, st, health).extra;
    assert extra != None ==> BuildRetry(e, st) != extra;
    if extra != None && t == st {
      assert Granted(Grant(g, st, extra), st) == Granted(g, st) + [extra.value];
    }
  }

  lemma SameGrants(e: Entry, f: Entry, g: Grants, t: Stage)
    requires GrantsOk(e, g, t) && BuildRetry(f, t) == BuildRetry(e, t)
    ensures GrantsOk(f, g, t)
  {}

  lemma GrantsStep(m: Machine, ev: Event)
    requires AllGrantsOk(m) && Enabled(m, ev)
    ensures AllGrantsOk(Step(m, ev))
  {
    var n := Step(m, ev);
    if ev.Submit? {
      var extra := MaySubmit(m.disk[ev.i], ev.st, ev.health).extra;
      forall i, st | 0 <= i < |n.disk| ensures GrantsOk(n.disk[i], n.grants[i], st) {
        assert GrantsOk(m.disk[i], m.grants[i], st);
        if i == ev.i {
          SpentGrantsOk(m.disk[i], m.grants[i], ev.st, ev.health, st);
          SameGrants(Spent(m.disk[i], ev.st, extra), n.disk[i], n.grants[i], st);
        }
      }
    } else {
      forall i, st | 0 <= i < |n.disk| ensures GrantsOk(n.disk[i], n.grants[i], st) {
        assert GrantsOk(m.disk[i], m.grants[i], st);
        assert BuildRetry(n.disk[i], st) == BuildRetry(m.disk[i], st);
        SameGrants(m.disk[i], n.disk[i], m.grants[i], st);
      }
    }
  }

  /** No build ever earns two extra attempts of a stage in a row. */
  lemma {:induction false} GrantsNeverRepeat(m: Machine, events: seq<Event>, i: nat, st: Stage)
    requires Initial(m) || AllGrantsOk(m)
    requires i < |m.disk|
    ensures var n := Exec(m, events);
            && |n.grants| == |n.disk| == |m.disk|
            && forall k :: 0 <= k < |Granted(n.grants[i], st)| - 1 ==>
                 Granted(n.grants[i], st)[k] != Granted(n.grants[i], st)[k + 1]
    decreases |events|
  {
    assert AllGrantsOk(m);
    if events == [] {
      assert GrantsOk(m.disk[i], m.grants[i], st);
    } else {
      var ev := events[0];
      if Enabled(m, ev) { GrantsStep(m, ev); }
      GrantsNeverRepeat(if Enabled(m, ev) then Step(m, ev) else m, events[1..], i, st);
    }
  }
}
