/** Histories that reach the edges of what `LedgerBounds` and `LedgerSafety` prove. */
module LedgerHistories {
  import opened Prelude
  import opened Ledger
  import opened LedgerBounds
  import opened LedgerBuilds
  import opened LedgerSafety

  const BLANK := Receipt(false, false, false, false, false, false, None, false, None, false, false, false, false)

  function QueuedJob(id: nat, sha: string): Job {
    Job(id, Ingest, Queued, sha, None, false, Failure(Transient, true), Some("writer"), BLANK)
  }

  function FailedJob(id: nat, sha: string, cls: Class): Job {
    QueuedJob(id, sha).(status := Failed, rolledBack := true, failure := Failure(cls, true))
  }

  function CleanJob(id: nat, sha: string): Job {
    QueuedJob(id, sha).(status := Done,
      receipt := BLANK.(validated := true, gitNoChanges := true, changedNothing := true))
  }

  /** One entry at rest, all of whose jobs have failed. */
  ghost predicate Lonely(m: Machine) {
    && |m.disk| == 1 && |m.grants| == 1 && m.wire == Idle
    && Active(m.disk[0]) && m.disk[0].submitting == None
    && (forall id :: 0 <= id < |m.jobs| ==> m.jobs[id].job.status == Failed)
    && (forall k :: 0 <= k < |m.disk[0].ingest| ==> m.disk[0].ingest[k].id < |m.jobs|)
  }

  function Posting(m: Machine, health: Option<string>): seq<Event>
    requires |m.disk| == 1
  {
    [Submit(0, Ingest, health, true), Take(QueuedJob(|m.jobs|, m.disk[0].sha)), Record]
  }

  /** One POST that makes a new job and is recorded. */
  lemma Posts(m: Machine, health: Option<string>) returns (n: Machine)
    requires Lonely(m) && MaySubmit(m.disk[0], Ingest, health).Allowed?
    ensures n == Exec(m, Posting(m, health))
    ensures var extra, e := MaySubmit(m.disk[0], Ingest, health).extra, m.disk[0];
            && n.jobs == m.jobs + [Posted(QueuedJob(|m.jobs|, e.sha), 0, Ingest)]
            && n.wire == Idle && n.grants == [Grant(m.grants[0], Ingest, extra)]
            && n.disk == [Spent(e, Ingest, extra).(ingest := e.ingest + [QueuedJob(|m.jobs|, e.sha)])]
  {
    var id, sha := |m.jobs|, m.disk[0].sha;
    var extra, e := MaySubmit(m.disk[0], Ingest, health).extra, m.disk[0];
    var events := Posting(m, health);
    var m1 := Step(m, events[0]);
    assert m1.disk == [Spent(e, Ingest, extra).(submitting := Some(Ingest))];
    assert Newest(m1.jobs, Bytes(sha)) == None;
    var m2 := Step(m1, events[1]);
    assert m2.wire == Answered(0, Ingest, QueuedJob(id, sha));
    n := Step(m2, events[2]);
    assert events == [events[0]] + ([events[1]] + ([events[2]] + []));
    ExecOne(m, events[0], [events[1]] + ([events[2]] + []));
    ExecOne(m1, events[1], [events[2]] + []);
    ExecOne(m2, events[2], []);
  }

  /** A POST, the writer's work on it and the poll that sees how it ended. */
  function RoundEvents(m: Machine, health: Option<string>, ended: Job): seq<Event>
    requires |m.disk| == 1
  {
    Posting(m, health) + ([Progress(|m.jobs|, ended)] + ([Poll(0, Ingest)] + []))
  }

  /** `n` is `k` after a round that ended in `ended` and spent `extra`. */
  ghost predicate RoundEnds(k: Machine, n: Machine, extra: Option<string>, ended: Job) {
    && |k.disk| == 1 && |k.grants| == 1
    && n.jobs == k.jobs + [Posted(ended, 0, Ingest)]
    && n.wire == Idle && n.grants == [Grant(k.grants[0], Ingest, extra)]
    && n.disk == [Spent(k.disk[0], Ingest, extra).(ingest := k.disk[0].ingest + [ended])]
  }

  lemma Round(m: Machine, health: Option<string>, ended: Job) returns (n: Machine)
    requires Lonely(m) && MaySubmit(m.disk[0], Ingest, health).Allowed?
    requires Terminal(ended) && ended.id == |m.jobs| && ended.kind == Ingest
    requires ended.sha == m.disk[0].sha && ended.parent == None
    ensures n == Exec(m, RoundEvents(m, health, ended))
    ensures RoundEnds(m, n, MaySubmit(m.disk[0], Ingest, health).extra, ended)
  {
    var first := Posting(m, health);
    var m3 := Posts(m, health);
    var work, poll := Progress(|m.jobs|, ended), Poll(0, Ingest);
    ExecAppend(m, first, [work] + ([poll] + []));
    var m4 := Step(m3, work);
    n := Step(m4, poll);
    var ingest := m.disk[0].ingest;
    assert m4.disk[0].ingest == ingest + [QueuedJob(|m.jobs|, m.disk[0].sha)];
    assert (ingest + [QueuedJob(|m.jobs|, m.disk[0].sha)])[|ingest| := ended] == ingest + [ended];
    ExecOne(m3, work, [poll] + []);
    ExecOne(m4, poll, []);
  }

  /** `count` attempts, all failed in a class without a cap, and no extra attempt granted. */
  ghost predicate Uncapped(sha: string, n: Machine, count: nat) {
    && Lonely(n) && n.disk[0].sha == sha && n.grants == [Grants([], [])]
    && |n.disk[0].ingest| == count && Failures(n.disk[0].ingest) == count
    && (count > 0 ==>
          var last := LastJob(n.disk[0].ingest); last == FailedJob(last.id, sha, BadInput))
  }

  lemma UncappedIsAllowed(sha: string, k: Machine, count: nat)
    requires Uncapped(sha, k, count)
    ensures MaySubmit(k.disk[0], Ingest, None) == Allowed(None)
  {}

  lemma StillLonely(k: Machine, n: Machine, extra: Option<string>, ended: Job)
    requires Lonely(k) && RoundEnds(k, n, extra, ended) && CountedFailure(ended) && ended.id == |k.jobs|
    ensures Lonely(n) && Failures(n.disk[0].ingest) == Failures(k.disk[0].ingest) + 1
    ensures n.disk[0].ingest != [] && LastJob(n.disk[0].ingest) == ended
  {
    var before, after := k.disk[0].ingest, n.disk[0].ingest;
    assert after == before + [ended];
    FailuresAppend(before, ended);
    forall a | 0 <= a < |after| ensures after[a].id < |n.jobs| {
      assert a < |before| ==> after[a] == before[a];
    }
    forall id | 0 <= id < |n.jobs| ensures n.jobs[id].job.status == Failed {
      assert id < |k.jobs| ==> n.jobs[id] == k.jobs[id];
    }
  }

  lemma OneMoreUncapped(sha: string, k: Machine, count: nat) returns (n: Machine, events: seq<Event>)
    requires Uncapped(sha, k, count)
    ensures n == Exec(k, events) && Uncapped(sha, n, count + 1)
  {
    var ended := FailedJob(|k.jobs|, sha, BadInput);
    events := RoundEvents(k, None, ended);
    UncappedIsAllowed(sha, k, count);
    n := Round(k, None, ended);
    StillLonely(k, n, None, ended);
  }

  /** A failure record of an uncapped class marked retryable defeats the caps: no number bounds its attempts. */
  lemma {:induction false} UncappedIsUnbounded(m: Machine, count: nat) returns (events: seq<Event>)
    requires Initial(m) && |m.disk| == 1
    ensures Uncapped(m.disk[0].sha, Exec(m, events), count)
  {
    if count == 0 {
      events := [];
    } else {
      var before := UncappedIsUnbounded(m, count - 1);
      var n, more := OneMoreUncapped(m.disk[0].sha, Exec(m, before), count - 1);
      events := before + more;
      ExecAppend(m, before, more);
    }
  }

  // ----- any reports can happen, and each build that differs from the last one earns -------

  /** The grants after `builds` that the reports `h` earn: each report that is not the build spent last. */
  function Squeezed(builds: seq<string>, h: seq<string>): seq<string>
    decreases |h|
  {
    if h == [] then builds
    else if builds != [] && builds[|builds| - 1] == h[0] then Squeezed(builds, h[1..])
    else Squeezed(builds + [h[0]], h[1..])
  }

  /** The report that earns the next attempt, if one does. */
  function NextBuild(builds: seq<string>, h: seq<string>): string
    decreases |h|
  {
    if h == [] then ""
    else if builds != [] && builds[|builds| - 1] == h[0] then NextBuild(builds, h[1..])
    else h[0]
  }

  function OtherBuild(build: string): string {
    if build != "" && build[0] == 'a' then "b" else "a"
  }

  function FailedUnder(id: nat, sha: string, build: string): Job {
    FailedJob(id, sha, Transient).(build := Some(build))
  }

  /** Three failures and one for each grant; the last job's build is not the one to be reported next. */
  ghost predicate Earning(sha: string, n: Machine, count: nat, builds: seq<string>, next: string) {
    && Lonely(n) && n.disk[0].sha == sha && Failures(n.disk[0].ingest) == count
    && n.grants == [Grants(builds, [])]
    && n.disk[0].ingestBuild == (if builds == [] then None else Some(builds[|builds| - 1]))
    && (count == 0 ==> n.disk[0].ingest == [])
    && (count > 0 ==>
          && n.disk[0].ingest != []
          && var last := LastJob(n.disk[0].ingest); last == FailedUnder(last.id, sha, OtherBuild(next)))
  }

  lemma NextIsAllowed(sha: string, k: Machine, count: nat, builds: seq<string>, build: string)
    requires Earning(sha, k, count, builds, build)
    requires count >= 3 ==> build != "" && (builds == [] || builds[|builds| - 1] != build)
    ensures var health := if count < 3 then None else Some(build);
            MaySubmit(k.disk[0], Ingest, health) == Allowed(health)
  {}

  /** One more failure: below the cap, or with a build that earns it. */
  lemma OneMoreFailure(sha: string, k: Machine, count: nat, builds: seq<string>, build: string, next: string)
    returns (n: Machine, events: seq<Event>)
    requires Earning(sha, k, count, builds, build)
    requires count >= 3 ==> build != "" && (builds == [] || builds[|builds| - 1] != build)
    ensures n == Exec(k, events)
    ensures Earning(sha, n, count + 1, if count < 3 then builds else builds + [build], next)
    ensures Reports(events, 0, Ingest) == if count < 3 then [] else [build]
  {
    var health := if count < 3 then None else Some(build);
    var ended := FailedUnder(|k.jobs|, sha, OtherBuild(next));
    NextIsAllowed(sha, k, count, builds, build);
    events := RoundEvents(k, health, ended);
    n := Round(k, health, ended);
    RoundReports(k, health, ended);
    StillLonely(k, n, health, ended);
  }

  lemma RoundReports(m: Machine, health: Option<string>, ended: Job)
    requires |m.disk| == 1
    ensures Reports(RoundEvents(m, health, ended), 0, Ingest) == if health == None then [] else [health.value]
  {
    var submit, rest := Submit(0, Ingest, health, true),
      [Take(QueuedJob(|m.jobs|, m.disk[0].sha)), Record, Progress(|m.jobs|, ended), Poll(0, Ingest)];
    assert RoundEvents(m, health, ended) == [submit] + rest;
    ReportsAppend([submit], rest, 0, Ingest);
    ReportsOne(submit, 0, Ingest);
    NoSubmitNoReports(rest);
  }

  lemma {:induction false} NoSubmitNoReports(events: seq<Event>)
    requires forall k :: 0 <= k < |events| ==> !events[k].Submit?
    ensures Reports(events, 0, Ingest) == []
  {
    if events != [] { NoSubmitNoReports(events[1..]); }
  }

  /** The run that reports `h`, one report to each POST, from a ledger that reached its cap. */
  lemma {:induction false} ReportsEarn(sha: string, k: Machine, builds: seq<string>, h: seq<string>)
    returns (events: seq<Event>)
    requires Earning(sha, k, 3 + |builds|, builds, NextBuild(builds, h)) && "" !in h
    ensures Reports(events, 0, Ingest) == h
    ensures Exec(k, events).grants == [Grants(Squeezed(builds, h), [])]
    ensures |Exec(k, events).disk| == 1 && Failures(Exec(k, events).disk[0].ingest) == 3 + |Squeezed(builds, h)|
    decreases |h|
  {
    events := [];
    if h != [] {
      var build, n, first := h[0], k, [Submit(0, Ingest, Some(h[0]), true)];
      if builds != [] && builds[|builds| - 1] == build {
        assert MaySubmit(k.disk[0], Ingest, Some(build)) == Refused;
        ReportsOne(first[0], 0, Ingest);
        ExecSkips(k, first[0]);
        events := ReportsEarn(sha, k, builds, h[1..]);
      } else {
        n, first := OneMoreFailure(sha, k, 3 + |builds|, builds, build, NextBuild(builds + [build], h[1..]));
        events := ReportsEarn(sha, n, builds + [build], h[1..]);
      }
      ReportsAppend(first, events, 0, Ingest);
      ExecAppend(k, first, events);
      events := first + events;
    }
  }

  lemma ExecSkips(m: Machine, ev: Event)
    requires !Enabled(m, ev)
    ensures Exec(m, [ev]) == m
  {}

  /** From an empty ledger, a run that reports exactly `h` and grants each report that is not the last grant. */
  lemma AnyReportsHappen(m: Machine, h: seq<string>) returns (events: seq<Event>)
    requires Initial(m) && |m.disk| == 1 && "" !in h
    ensures Reports(events, 0, Ingest) == h
    ensures Exec(m, events).grants == [Grants(Squeezed([], h), [])]
    ensures |Exec(m, events).disk| == 1 && Failures(Exec(m, events).disk[0].ingest) == 3 + |Squeezed([], h)|
  {
    var sha, next := m.disk[0].sha, NextBuild([], h);
    var m1, first := OneMoreFailure(sha, m, 0, [], next, next);
    var m2, second := OneMoreFailure(sha, m1, 1, [], next, next);
    var m3, third := OneMoreFailure(sha, m2, 2, [], next, next);
    var rest := ReportsEarn(sha, m3, [], h);
    events := first + (second + (third + rest));
    ExecAppend(m, first, second + (third + rest));
    ExecAppend(m1, second, third + rest);
    ExecAppend(m2, third, rest);
    ReportsAppend(first, second + (third + rest), 0, Ingest);
    ReportsAppend(second, third + rest, 0, Ingest);
    ReportsAppend(third, rest, 0, Ingest);
  }

  lemma {:induction false} DistinctNeverReturns(builds: seq<string>, h: seq<string>)
    requires Distinct(Squeezed(builds, h))
    ensures NeverReturns(builds + h)
    decreases |h|
  {
    if h == [] {
      assert builds + h == builds;
    } else if builds != [] && builds[|builds| - 1] == h[0] {
      DistinctNeverReturns(builds, h[1..]);
      RepeatedNeverReturns(builds, h);
    } else {
      DistinctNeverReturns(builds + [h[0]], h[1..]);
      assert builds + h == builds + [h[0]] + h[1..];
    }
  }

  /** A report that repeats the one before it returns to nothing. */
  lemma RepeatedNeverReturns(builds: seq<string>, h: seq<string>)
    requires builds != [] && h != [] && builds[|builds| - 1] == h[0] && NeverReturns(builds + h[1..])
    ensures NeverReturns(builds + h)
  {
    var s, t := builds + h[1..], builds + h;
    forall a, b, c | 0 <= a < b < c < |t| && t[a] == t[c] ensures t[b] == t[a] {
      var i, j, k := Back(a, |builds|), Back(b, |builds|), Back(c, |builds|);
      assert s[i] == t[a] && s[j] == t[b] && s[k] == t[c];
    }
  }

  function Back(k: nat, n: nat): nat
    requires n > 0
  {
    if k < n then k else k - 1
  }

  /** Whether a run repeats a build among the extra attempts of the ingest stage of its only entry. */
  ghost predicate EachEarnsOnce(m: Machine, events: seq<Event>) {
    0 < |Exec(m, events).grants| && Distinct(Exec(m, events).grants[0].ingest)
  }

  /**
   The exact condition for the promise that each reported build earns at most one attempt: reports keep
   it, whatever else happens in the run, if and only if they never return to a build they left.
   */
  lemma BuildsEarnOnceExactly(m: Machine, h: seq<string>)
    requires Initial(m) && |m.disk| == 1 && "" !in h
    ensures (forall events :: Reports(events, 0, Ingest) == h ==> EachEarnsOnce(m, events)) <==> NeverReturns(h)
  {
    if NeverReturns(h) {
      forall events | Reports(events, 0, Ingest) == h ensures EachEarnsOnce(m, events) {
        BuildsEarnOnce(m, events, 0, Ingest);
      }
    } else {
      var events := AnyReportsHappen(m, h);
      assert [] + h == h;
      if Distinct(Squeezed([], h)) { DistinctNeverReturns([], h); }
      assert !EachEarnsOnce(m, events);
    }
  }

  function Turns(count: nat): seq<string> {
    seq(count, k => if k % 2 == 0 then "a" else "b")
  }

  lemma TurnsAlternate(turns: seq<string>, count: nat)
    requires turns == Turns(count)
    ensures |turns| == count && "" !in turns && forall k :: 0 <= k < count - 1 ==> turns[k] != turns[k + 1]
  {
    assert "a"[0] != "b"[0];
  }

  lemma {:induction false} TurnsAllEarn(builds: seq<string>, h: seq<string>)
    requires forall k :: 0 <= k < |h| - 1 ==> h[k] != h[k + 1]
    requires builds != [] && h != [] ==> builds[|builds| - 1] != h[0]
    ensures Squeezed(builds, h) == builds + h
    decreases |h|
  {
    if h != [] {
      TurnsAllEarn(builds + [h[0]], h[1..]);
      assert builds + [h[0]] + h[1..] == builds + h;
    }
  }

  /**
   A build can earn any number of extra attempts as long as another one takes turns with it: the entry
   remembers only the last build it spent, not every build it has spent.
   */
  lemma TwoBuildsEarnForever(m: Machine, count: nat) returns (events: seq<Event>)
    requires Initial(m) && |m.disk| == 1
    ensures Exec(m, events).grants == [Grants(Turns(count), [])]
    ensures |Exec(m, events).disk| == 1 && Failures(Exec(m, events).disk[0].ingest) == 3 + count
  {
    var turns := Turns(count);
    TurnsAlternate(turns, count);
    events := AnyReportsHappen(m, turns);
    TurnsAllEarn([], turns);
    assert [] + turns == turns;
  }

  // ----- what is forgotten -----------------------------------------------------------------

  lemma IngestLost(m: Machine) returns (n: Machine)
    requires Initial(m) && |m.disk| == 1
    ensures n == Exec(m, [Submit(0, Ingest, None, true)] + ([Take(QueuedJob(0, m.disk[0].sha))] + ([Lose] + [])))
    ensures n.disk == [m.disk[0].(submitting := Some(Ingest))] && n.wire == Idle && |n.grants| == 1
    ensures n.jobs == [Posted(QueuedJob(0, m.disk[0].sha), 0, Ingest)]
  {
    var submit, take := Submit(0, Ingest, None, true), Take(QueuedJob(0, m.disk[0].sha));
    var m1 := Step(m, submit);
    assert FindJob(m1.jobs, Bytes(m.disk[0].sha)) == None;
    var m2 := Step(m1, take);
    n := Step(m2, Lose);
    ExecOne(m, submit, [take] + ([Lose] + []));
    ExecOne(m1, take, [Lose] + []);
    ExecOne(m2, Lose, []);
  }

  /** A lost answer, then a refused re-POST: the job the first POST made is forgotten. */
  lemma LostThenRefused(m: Machine) returns (events: seq<Event>)
    requires Initial(m) && |m.disk| == 1
    ensures Forgotten(Exec(m, events), 0)
  {
    var submit, take := Submit(0, Ingest, None, true), Take(QueuedJob(0, m.disk[0].sha));
    var losing := [submit] + ([take] + ([Lose] + []));
    events := losing + ([submit] + ([Refuse(true)] + []));
    var m3 := IngestLost(m);
    var m4 := Step(m3, submit);
    var m5 := Step(m4, Refuse(true));
    assert m5.disk[0].ingest == [] && m5.disk[0].submitting == None && m5.jobs == m3.jobs;
    ExecAppend(m, losing, [submit] + ([Refuse(true)] + []));
    ExecOne(m3, submit, [Refuse(true)] + []);
    ExecOne(m4, Refuse(true), []);
  }

  function LostAudit(id: nat): Job {
    Job(id, Audit, Queued, "", Some(0), false, Failure(Transient, true), None, BLANK)
  }

  function SlippedAudit(id: nat): Job {
    LostAudit(id).(status := Done, receipt := BLANK.(verdictSlip := true))
  }

  /** One clean ingest; nothing audited on disk. */
  ghost predicate AfterIngest(m: Machine, sha: string, audits: seq<Posted>) {
    && |m.disk| == 1 && |m.grants| == 1 && m.wire == Idle && m.jobs == [Posted(CleanJob(0, sha), 0, Ingest)] + audits
    && Active(m.disk[0]) && m.disk[0].sha == sha
    && m.disk[0].ingest == [CleanJob(0, sha)] && m.disk[0].audit == []
  }

  lemma AuditPosted(m: Machine, sha: string) returns (n: Machine)
    requires AfterIngest(m, sha, []) && m.disk[0].submitting == None
    ensures n == Exec(m, [Submit(0, Audit, None, true)] + ([Take(LostAudit(1))] + []))
    ensures n.disk == [m.disk[0].(submitting := Some(Audit))] && |n.grants| == 1
    ensures n.jobs == [Posted(CleanJob(0, sha), 0, Ingest), Posted(LostAudit(1), 0, Audit)]
  {
    var submit, take := Submit(0, Audit, None, true), Take(LostAudit(1));
    var m1 := Step(m, submit);
    assert m1.jobs[..0] == [] && FindJob(m1.jobs, ParentJob(0)) == None;
    n := Step(m1, take);
    ExecOne(m, submit, [take] + []);
    ExecOne(m1, take, []);
  }

  /** An audit is posted, the run is killed before the answer arrives, and the verdict slips. */
  lemma AuditLost(m: Machine, sha: string) returns (n: Machine, events: seq<Event>)
    requires AfterIngest(m, sha, []) && m.disk[0].submitting == None
    ensures n == Exec(m, events)
    ensures AfterIngest(n, sha, [Posted(SlippedAudit(1), 0, Audit)]) && n.disk[0].submitting == Some(Audit)
  {
    var posting, work := [Submit(0, Audit, None, true)] + ([Take(LostAudit(1))] + []), Progress(1, SlippedAudit(1));
    events := posting + ([Kill] + ([work] + []));
    var m2 := AuditPosted(m, sha);
    var m3 := Step(m2, Kill);
    n := Step(m3, work);
    ExecAppend(m, posting, [Kill] + ([work] + []));
    ExecOne(m2, Kill, [work] + []);
    ExecOne(m3, work, []);
  }

  /** The re-POST earns the fresh review of that slip, and nothing remembers the slipped audit. */
  lemma FreshReviewForgets(m: Machine, sha: string) returns (n: Machine, events: seq<Event>)
    requires AfterIngest(m, sha, [Posted(SlippedAudit(1), 0, Audit)]) && m.disk[0].submitting == Some(Audit)
    ensures n == Exec(m, events) && Forgotten(n, 1)
  {
    var submit, take := Submit(0, Audit, None, true), Take(LostAudit(2));
    events := [submit] + ([take] + ([Record] + []));
    var key := ParentJob(0);
    var m1 := Step(m, submit);
    assert m1.jobs[..1] == [Posted(CleanJob(0, sha), 0, Ingest)] && m1.jobs[..1][..0] == [];
    assert SlipsOf(m1.jobs[..1], key) == 0;
    assert Newest(m1.jobs, key) == Some(1) && SlipsOf(m1.jobs, key) == 1;
    var m2 := Step(m1, take);
    n := Step(m2, Record);
    assert n.disk[0].audit == [LostAudit(2)];
    ExecOne(m, submit, [take] + ([Record] + []));
    ExecOne(m1, take, [Record] + []);
    ExecOne(m2, Record, []);
  }

  /** An audit whose answer is lost slips its verdict, and the re-POST forgets it. */
  lemma SlippedWhileLost(m: Machine) returns (events: seq<Event>)
    requires Initial(m) && |m.disk| == 1
    ensures Forgotten(Exec(m, events), 1)
  {
    var sha := m.disk[0].sha;
    var m1 := Round(m, None, CleanJob(0, sha));
    var lost := RoundEvents(m, None, CleanJob(0, sha));
    var m2, more := AuditLost(m1, sha);
    var m3, last := FreshReviewForgets(m2, sha);
    events := lost + (more + last);
    ExecAppend(m, lost, more + last);
    ExecAppend(m1, more, last);
  }
}
