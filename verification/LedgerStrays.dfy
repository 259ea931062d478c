/** How a live job comes to be forgotten: only after an answer that named it was lost. */
module LedgerStrays {
  import opened Prelude
  import opened Ledger
  import opened LedgerSafety

  /** A live job that the entry it was made for has not recorded. */
  predicate Loose(m: Machine, id: nat) {
    && id < |m.jobs| && m.jobs[id].owner < |m.disk| && Live(m.jobs[id].job)
    && !Recorded(m.disk[m.jobs[id].owner], m.jobs[id].stage, id)
  }

  /** The job was made for this stage of this entry. */
  predicate MadeFor(m: Machine, id: nat, i: nat, st: Stage) {
    id < |m.jobs| && m.jobs[id].owner == i && m.jobs[id].stage == st
  }

  /** The answer on the wire names the job to the entry it was made for. */
  predicate InFlight(m: Machine, id: nat) {
    m.wire.Answered? && MadeFor(m, id, m.wire.entry, m.wire.stage) && m.wire.job.id == id
  }

  /** A loose job was named by an answer that was lost, or is being named now. */
  ghost predicate LooseIsLost(m: Machine) {
    forall id :: Loose(m, id) && !InFlight(m, id) ==> id in m.lost
  }

  /** While a first POST is on its way, what is loose of its stage strayed before. */
  ghost predicate OnlyRepeatsDrop(m: Machine) {
    m.wire != Idle && !m.repeat ==>
      forall id :: Loose(m, id) && MadeFor(m, id, m.wire.entry, m.wire.stage) && !InFlight(m, id) ==> id in m.stray
  }

  lemma AttemptsStay(m: Machine, ev: Event, i: nat)
    requires !ev.Record? && !ev.Poll? && Enabled(m, ev) && i < |m.disk|
    ensures Step(m, ev).disk[i].ingest == m.disk[i].ingest && Step(m, ev).disk[i].audit == m.disk[i].audit
  {}

  lemma AttemptsGrow(m: Machine, ev: Event, i: nat)
    requires JobsOk(m) && Enabled(m, ev) && i < |m.disk|
    ensures Grown(m.disk[i], Step(m, ev).disk[i])
  {
    if !ev.Record? && !ev.Poll? {
      AttemptsStay(m, ev, i);
    } else if ev.Record? && i == m.wire.entry {
      AdoptRecords(m.disk[i], m.wire.stage,
        if m.wire.stage == Ingest then m.wire.job.(status := Queued) else m.wire.job);
    } else if ev.Poll? && i == ev.i {
      var last := LastJob(Attempts(m.disk[i], ev.st)).id;
      assert JobOk(m.jobs[last], last, m.disk);
    }
  }

  /** No event makes a job loose that the writer had before. */
  lemma LooseFromTheStart(m: Machine, ev: Event, id: nat)
    requires JobsOk(m) && Enabled(m, ev) && id < |m.jobs|
    ensures Loose(Step(m, ev), id) ==> Loose(m, id)
    ensures forall i, st :: MadeFor(Step(m, ev), id, i, st) <==> MadeFor(m, id, i, st)
  {
    assert JobOk(m.jobs[id], id, m.disk);
    if ev.Progress? { ProgressRevivesNone(m, ev, id); }
    var p := m.jobs[id];
    if Recorded(m.disk[p.owner], p.stage, id) {
      AttemptsGrow(m, ev, p.owner);
      RecordedStays(m.disk[p.owner], Step(m, ev).disk[p.owner], p.stage, id);
    }
  }

  /** An answer that arrives records the job it names. */
  lemma ArrivedIsRecorded(m: Machine, id: nat)
    requires JobsOk(m) && Enabled(m, Record) && InFlight(m, id)
    ensures !Loose(Step(m, Record), id)
  {
    AdoptRecords(m.disk[m.wire.entry], m.wire.stage,
      if m.wire.stage == Ingest then m.wire.job.(status := Queued) else m.wire.job);
  }

  lemma LostStep(m: Machine, ev: Event)
    requires JobsOk(m) && LooseIsLost(m) && Enabled(m, ev)
    ensures LooseIsLost(Step(m, ev))
  {
    var n := Step(m, ev);
    forall id: nat | Loose(n, id) && !InFlight(n, id) ensures id in n.lost {
      if id < |m.jobs| {
        LooseFromTheStart(m, ev, id);
        if InFlight(m, id) && ev.Record? { ArrivedIsRecorded(m, id); }
      }
    }
  }

  lemma RepeatsStep(m: Machine, ev: Event)
    requires Sound(m) && OnlyRepeatsDrop(m) && Enabled(m, ev)
    ensures OnlyRepeatsDrop(Step(m, ev))
  {
    var n := Step(m, ev);
    if n.wire != Idle && !n.repeat {
      forall id: nat | Loose(n, id) && MadeFor(n, id, n.wire.entry, n.wire.stage) && !InFlight(n, id)
        ensures id in n.stray
      {
        if id < |m.jobs| {
          LooseFromTheStart(m, ev, id);
          assert Kept(m, id);
        }
      }
    }
  }

  /** What every reachable state keeps. */
  ghost predicate Remembered(m: Machine) {
    Sound(m) && LooseIsLost(m) && OnlyRepeatsDrop(m)
  }

  lemma {:induction false} ExecRemembered(m: Machine, events: seq<Event>)
    requires Initial(m) || Remembered(m)
    ensures Remembered(Exec(m, events))
    decreases |events|
  {
    if Initial(m) { InitialSound(m); }
    if events != [] {
      var ev := events[0];
      if Enabled(m, ev) {
        StepSound(m, ev);
        LostStep(m, ev);
        RepeatsStep(m, ev);
      }
      ExecRemembered(if Enabled(m, ev) then Step(m, ev) else m, events[1..]);
    }
  }

  /** Another entry's audit names the same ingest job. */
  predicate SharesParent(m: Machine, i: nat, j: nat) {
    && i != j && i < |m.disk| && j < |m.disk| && m.disk[i].ingest != [] && m.disk[j].ingest != []
    && LastJob(m.disk[i].ingest).id == LastJob(m.disk[j].ingest).id
  }

  /** The writer grants the POST on the wire a fresh review, because the newest audit's verdict slipped. */
  predicate FreshReview(m: Machine) {
    && m.wire.Sending? && WireOk(m) && m.wire.stage == Audit
    && var key := KeyOf(m.disk[m.wire.entry], Audit);
       && FindJob(m.jobs, key) == None && Newest(m.jobs, key).Some?
       && Slip(m.jobs[Newest(m.jobs, key).value].job)
  }

  /**
   In every reachable state a job becomes a stray if and only if it is live, no entry recorded it, an
   answer that named it was lost, and either the repeat of that POST is refused, or a fresh review of its
   parent is granted to the repeat of its POST or to another entry with the same parent.
   */
  lemma StrayOrigins(m: Machine, ev: Event, id: nat)
    requires Remembered(m) && Enabled(m, ev) && id !in m.stray
    ensures id in Step(m, ev).stray <==>
            && Loose(m, id) && id in m.lost
            && (|| (ev.Refuse? && m.repeat && MadeFor(m, id, m.wire.entry, m.wire.stage))
                || (&& ev.Take? && FreshReview(m) && m.jobs[id].stage == Audit
                    && (|| (m.repeat && MadeFor(m, id, m.wire.entry, Audit))
                        || SharesParent(m, m.wire.entry, m.jobs[id].owner))))
  {
    if id < |m.jobs| { assert JobOk(m.jobs[id], id, m.disk); }
    if ev.Take? {
      TakeStrays(m, ev, id);
    } else if ev.Refuse? {
      assert id in UnrecordedOf(m, m.wire.entry, m.wire.stage) <==>
             Loose(m, id) && MadeFor(m, id, m.wire.entry, m.wire.stage);
    }
  }

  lemma TakeStrays(m: Machine, ev: Event, id: nat)
    requires Remembered(m) && ev.Take? && Enabled(m, ev) && id !in m.stray
    ensures id in Step(m, ev).stray <==>
            && Loose(m, id) && id in m.lost && FreshReview(m) && m.jobs[id].stage == Audit
            && (|| (m.repeat && MadeFor(m, id, m.wire.entry, Audit))
                || SharesParent(m, m.wire.entry, m.jobs[id].owner))
  {
    var key := KeyOf(m.disk[m.wire.entry], m.wire.stage);
    assert id in Unrecorded(m, key) <==> Loose(m, id) && HasKey(m.jobs[id].job, key);
    if Loose(m, id) {
      assert JobOk(m.jobs[id], id, m.disk);
      if FindJob(m.jobs, key) == None && HasKey(m.jobs[id].job, key) {
        assert Reusable(m.jobs[id].job);
      }
    }
  }

  /** A forgotten job strayed, and an answer that named it was lost. */
  lemma ForgottenWasLost(m: Machine, events: seq<Event>, id: nat)
    requires Initial(m)
    ensures Forgotten(Exec(m, events), id) ==> id in Exec(m, events).lost && id in Exec(m, events).stray
  {
    ExecRemembered(m, events);
    var n := Exec(m, events);
    if Forgotten(n, id) {
      assert Kept(n, id) && Loose(n, id);
    }
  }

  /** A run that loses no answer forgets no job. */
  lemma {:induction false} NothingLostNothingForgotten(m: Machine, events: seq<Event>, id: nat)
    requires Initial(m) && forall k :: 0 <= k < |events| ==> !events[k].Lose? && !events[k].Kill?
    ensures !Forgotten(Exec(m, events), id)
  {
    NoneLost(m, events);
    ForgottenWasLost(m, events, id);
  }

  lemma {:induction false} NoneLost(m: Machine, events: seq<Event>)
    requires forall k :: 0 <= k < |events| ==> !events[k].Lose? && !events[k].Kill?
    ensures Exec(m, events).lost == m.lost
    decreases |events|
  {
    if events != [] {
      NoneLost(if Enabled(m, events[0]) then Step(m, events[0]) else m, events[1..]);
    }
  }

  // ----- one POST from the flag to its answer ----------------------------------------------

  /** Nothing but the writer moves while a POST is on its way. */
  ghost predicate WriterOnly(events: seq<Event>) {
    forall k :: 0 <= k < |events| ==> events[k].Progress? || events[k].Take?
  }

  /** `n` is `m` after the writer worked on its jobs and perhaps handled the POST on the wire. */
  ghost predicate Handled(m: Machine, n: Machine) {
    && n.disk == m.disk && |m.jobs| <= |n.jobs| && n.wire != Idle && m.wire != Idle
    && n.wire.entry == m.wire.entry && n.wire.stage == m.wire.stage
    && (forall id: nat :: id < |m.jobs| && Loose(n, id) ==> Loose(m, id))
    && (forall id: nat, i, st :: id < |m.jobs| ==> (MadeFor(n, id, i, st) <==> MadeFor(m, id, i, st)))
    && (forall id: nat :: |m.jobs| <= id < |n.jobs| ==> InFlight(n, id))
  }

  lemma HandledStep(m: Machine, n: Machine, ev: Event)
    requires Handled(m, n) && JobsOk(n) && (ev.Progress? || ev.Take?) && Enabled(n, ev)
    requires m.wire.Sending? && (n.wire.Sending? ==> |n.jobs| == |m.jobs|)
    ensures var k := Step(n, ev); Handled(m, k) && (k.wire.Sending? ==> |k.jobs| == |m.jobs|)
  {
    var k := Step(n, ev);
    forall id: nat | id < |n.jobs|
      ensures Loose(k, id) ==> Loose(n, id)
      ensures forall i, st :: MadeFor(k, id, i, st) <==> MadeFor(n, id, i, st)
    {
      LooseFromTheStart(n, ev, id);
    }
    forall id: nat | |m.jobs| <= id < |k.jobs| ensures InFlight(k, id) {
      if id < |n.jobs| { assert InFlight(n, id); }
    }
  }

  lemma {:induction false} WriterHandles(m: Machine, n: Machine, events: seq<Event>)
    requires Handled(m, n) && Sound(n) && WriterOnly(events)
    requires m.wire.Sending? && (n.wire.Sending? ==> |n.jobs| == |m.jobs|)
    ensures Handled(m, Exec(n, events)) && Sound(Exec(n, events))
    decreases |events|
  {
    if events != [] {
      var ev := events[0];
      if Enabled(n, ev) {
        HandledStep(m, n, ev);
        StepSound(n, ev);
      }
      WriterHandles(m, if Enabled(n, ev) then Step(n, ev) else n, events[1..]);
    }
  }

  /**
   Whether an answer, or a refusal, makes the program forget a job is decided when the POST is sent: from
   a state that forgets nothing, and whatever the writer does meanwhile, it forgets exactly the live
   unrecorded jobs of this stage that a lost answer named, other than the one named now, if and only if
   the flag was up already. So a first POST forgets nothing, and neither does a POST after a run that
   lost no answer.
   */
  lemma AnswerForgets(m: Machine, submit: Event, work: seq<Event>, ev: Event, id: nat)
    requires Remembered(m) && forall k: nat :: !Forgotten(m, k)
    requires submit.Submit? && Enabled(m, submit) && WriterOnly(work)
    requires (ev.Refuse? || ev.Record?) && Enabled(Exec(Step(m, submit), work), ev)
    ensures var n := Exec(Step(m, submit), work);
            Forgotten(Step(n, ev), id) <==>
            && m.disk[submit.i].submitting == Some(submit.st)
            && id in m.lost && id !in Named(n.wire)
            && Loose(n, id) && MadeFor(n, id, submit.i, submit.st)
  {
    var posted := Step(m, submit);
    var n := Exec(posted, work);
    SubmitSound(m, submit);
    if posted.wire == Idle { WriterIdles(posted, work); }
    WriterHandles(posted, posted, work);
    AnswerDrops(m, submit, n, ev, id);
  }

  lemma {:induction false} WriterIdles(m: Machine, work: seq<Event>)
    requires WriterOnly(work) && m.wire == Idle
    ensures Exec(m, work).wire == Idle
    decreases |work|
  {
    if work != [] {
      WriterIdles(if Enabled(m, work[0]) then Step(m, work[0]) else m, work[1..]);
    }
  }

  lemma AnswerDrops(m: Machine, submit: Event, n: Machine, ev: Event, id: nat)
    requires Remembered(m) && forall k: nat :: !Forgotten(m, k)
    requires submit.Submit? && Enabled(m, submit) && Handled(Step(m, submit), n) && Sound(n)
    requires (ev.Refuse? || ev.Record?) && Enabled(n, ev)
    ensures Forgotten(Step(n, ev), id) <==>
            && m.disk[submit.i].submitting == Some(submit.st)
            && id in m.lost && id !in Named(n.wire)
            && Loose(n, id) && MadeFor(n, id, submit.i, submit.st)
  {
    if Forgotten(Step(n, ev), id) {
      ForgottenIsOfTheStage(m, submit, n, ev, id);
      LooseFromTheStart(m, submit, id);
      assert MadeFor(m, id, submit.i, submit.st) && Loose(m, id) && !Forgotten(m, id) && !InFlight(m, id);
    } else if Loose(n, id) && MadeFor(n, id, submit.i, submit.st) && id !in Named(n.wire) {
      if ev.Record? {
        AdoptsOnly(n.disk[submit.i], submit.st,
          if submit.st == Ingest then n.wire.job.(status := Queued) else n.wire.job, id);
      } else {
        SameRecords(n.disk[submit.i], Step(n, ev).disk[submit.i], submit.st, id);
      }
    }
  }

  /** What an answer forgets was made for the stage of its POST, before the POST. */
  lemma ForgottenIsOfTheStage(m: Machine, submit: Event, n: Machine, ev: Event, id: nat)
    requires Remembered(m) && forall k: nat :: !Forgotten(m, k)
    requires submit.Submit? && Enabled(m, submit) && Handled(Step(m, submit), n) && Sound(n)
    requires (ev.Refuse? || ev.Record?) && Enabled(n, ev) && Forgotten(Step(n, ev), id)
    ensures Loose(n, id) && MadeFor(n, id, submit.i, submit.st) && !InFlight(n, id) && id < |m.jobs|
  {
    LooseFromTheStart(n, ev, id);
    if InFlight(n, id) && ev.Record? { ArrivedIsRecorded(n, id); }
    LooseFromTheStart(m, submit, id);
    var p := m.jobs[id];
    assert MadeFor(n, id, p.owner, p.stage) && Loose(m, id) && !Forgotten(m, id);
    if p.owner == submit.i && p.stage != submit.st {
      NoOtherFlag(m, submit, p.stage);
    }
  }

  /** A POST of one stage never takes the flag of the other. */
  lemma NoOtherFlag(m: Machine, submit: Event, st: Stage)
    requires StagesOk(m) && submit.Submit? && Enabled(m, submit) && st != submit.st
    ensures m.disk[submit.i].submitting != Some(st)
  {
    NoIngestAfterAudit(m, submit.i, submit.health);
  }

  lemma AdoptsOnly(e: Entry, st: Stage, job: Job, id: nat)
    requires Recorded(Adopt(e, st, job), st, id) && id != job.id
    ensures Recorded(e, st, id)
  {
    var f := Adopt(e, st, job);
    var k :| 0 <= k < |Attempts(f, st)| && Attempts(f, st)[k].id == id;
    assert Attempts(e, st)[k].id == id;
  }
}
