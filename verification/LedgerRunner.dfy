/**
 The program that drives the ledger: `_submit`, `_process` and `run_sources`, with the outside world read
 from a script. Each method only ever takes steps that the machine of `Ledger` allows, so what is proved
 of every history of the machine holds of the state the program leaves, even when it is killed.
 */
module LedgerRunner {
  import opened Prelude
  import opened Ledger
  import LedgerBounds
  import LedgerSafety
  import LedgerStrays

  /** How a POST ends. `status` is where a new job starts: done when no concept is left to audit, for one. */
  datatype Reply =
    | Answer(status: Status, receipt: Receipt)
    | LostBefore
    | LostAfter(status: Status, receipt: Receipt)
    | KilledAfter(status: Status, receipt: Receipt)
    | Refusal(again: bool)

  /** How a poll ends: with the job, without an answer, or refused; `again` for a 429 or a mutation in progress. */
  datatype Reading = Read | NoAnswer | Denied(again: bool)

  /** What the world does during one turn of the loop of `_process`. */
  datatype Turn = Turn(
    work: seq<(nat, Job)>, health: Option<string>, readable: bool, reply: Reply,
    cooling: bool, reading: Reading, late: bool)

  datatype Next = Again | Through | Over(outcome: Outcome)

  datatype Outcome = Ended(status: EntryStatus, stopBatch: bool) | Killed

  /** Consecutive capacity failures of one stage that may stop the batch. */
  const CAPACITY_BATCH_STOPS := 3

  function CapacityStreak(attempts: seq<Job>): nat {
    if attempts == [] || LastJob(attempts).status != Failed || LastJob(attempts).failure.cls != Capacity then 0
    else 1 + CapacityStreak(attempts[..|attempts| - 1])
  }

  /** A capacity failure holds the whole batch back, but not for ever. */
  predicate StopsBatch(attempts: seq<Job>) {
    attempts != [] && LastJob(attempts).failure.cls == Capacity && CapacityStreak(attempts) <= CAPACITY_BATCH_STOPS
  }

  /** The entries are of the same sources. */
  ghost predicate SameSources(a: seq<Entry>, b: seq<Entry>) {
    |a| == |b| && forall i :: 0 <= i < |a| ==> b[i].identity == a[i].identity && b[i].sha == a[i].sha
  }

  /** A later version of the same source is in the ledger. */
  predicate LaterVersion(disk: seq<Entry>, i: nat) {
    i < |disk| && exists j :: i < j < |disk| && disk[j].identity == disk[i].identity
  }

  lemma LaterVersionStays(a: seq<Entry>, b: seq<Entry>, i: nat)
    requires SameSources(a, b) && LaterVersion(a, i)
    ensures LaterVersion(b, i)
  {
    var j :| i < j < |a| && a[j].identity == a[i].identity;
    assert b[j].identity == b[i].identity;
  }

  ghost predicate OthersSame(a: Machine, b: Machine, i: nat) {
    && SameSources(a.disk, b.disk) && |a.grants| == |b.grants|
    && (forall j :: 0 <= j < |a.disk| && j != i ==> b.disk[j] == a.disk[j])
    && (forall j :: 0 <= j < |a.grants| && j != i ==> b.grants[j] == a.grants[j])
  }

  lemma OthersStaySame(a: Machine, b: Machine, c: Machine, i: nat)
    requires OthersSame(a, b, i) && OthersSame(b, c, i)
    ensures OthersSame(a, c, i)
  {}

  /** The entry that an event of the program is about. */
  function EntryOf(m: Machine, ev: Event): Option<nat> {
    match ev
    case Submit(i, _, _, _) => Some(i)
    case Poll(i, _) => Some(i)
    case Deny(i, _, _) => Some(i)
    case Supersede(i) => Some(i)
    case Finish(i) => Some(i)
    case Settle(i, _) => Some(i)
    case Take(_) => None
    case Progress(_, _) => None
    case Kill => None
    case _ => if m.wire.Idle? then None else Some(m.wire.entry)
  }

  lemma StepWrites(m: Machine, ev: Event)
    requires Enabled(m, ev)
    ensures var n, i := Step(m, ev), EntryOf(m, ev);
            if i.None? then n.disk == m.disk && n.grants == m.grants
            else
              && i.value < |m.disk| == |n.disk| && n.disk == m.disk[i.value := n.disk[i.value]]
              && n.disk[i.value].identity == m.disk[i.value].identity && n.disk[i.value].sha == m.disk[i.value].sha
              && (n.grants == m.grants
                  || (i.value < |m.grants| == |n.grants| && n.grants == m.grants[i.value := n.grants[i.value]]))
  {}

  lemma StepTouchesOne(m: Machine, ev: Event)
    requires Enabled(m, ev)
    ensures var n, i := Step(m, ev), EntryOf(m, ev);
            && SameSources(m.disk, n.disk) && |n.grants| == |m.grants|
            && (if i.Some? then OthersSame(m, n, i.value) else n.disk == m.disk && n.grants == m.grants)
  {
    StepWrites(m, ev);
  }

  /** The same attempts. */
  predicate SameWork(e: Entry, f: Entry) {
    f.ingest == e.ingest && f.audit == e.audit
  }

  /** The other stage has the same attempts. */
  predicate SameOther(e: Entry, f: Entry, st: Stage) {
    if st == Audit then f.ingest == e.ingest else f.audit == e.audit
  }

  function Front(jobs: seq<Job>): seq<Job> {
    if jobs == [] then [] else jobs[..|jobs| - 1]
  }

  /** One attempt more, or a newer record of the last one, and it has not failed; the flag is down. */
  predicate Adopts(e: Entry, f: Entry, st: Stage) {
    var before, after := Attempts(e, st), Attempts(f, st);
    && f.submitting == None && f.status == e.status && f.sha == e.sha && SameOther(e, f, st)
    && after != [] && LastJob(after).status != Failed
    && (Front(after) == before || (before != [] && Front(after) == Front(before)))
  }

  /**
   What a POST that was sent comes to. Without an answer its flag stays up, for the next run to repeat it;
   a refusal takes the flag down, and is for repair unless it may pass.
   */
  predicate Exchanged(f: Entry, st: Stage, reply: Reply, sent: bool, killed: bool) {
    && sent == reply.Answer? && killed == reply.KilledAfter?
    && match reply
       case Answer(_, _) => f.submitting == None
       case LostBefore => f.submitting == Some(st) && f.status == Pending
       case LostAfter(_, _) => f.submitting == Some(st) && f.status == Pending
       case KilledAfter(_, _) => f.submitting == Some(st)
       case Refusal(again) => f.submitting == None && f.status == if again then Pending else NeedsRepair
  }

  /** At most the record of the last attempt is newer. */
  predicate Rereads(e: Entry, f: Entry, st: Stage) {
    && SameOther(e, f, st) && |Attempts(f, st)| == |Attempts(e, st)| && Front(Attempts(f, st)) == Front(Attempts(e, st))
  }

  /** Every ingest of the entry was rolled back, or its evidence waits for conversion. */
  predicate AllDead(e: Entry) {
    forall k :: 0 <= k < |e.ingest| ==>
      e.ingest[k].status == NeedsConversion || (e.ingest[k].status == Failed && e.ingest[k].rolledBack)
  }

  /** The entry gives way to the later version of its source. */
  predicate GivesWay(e: Entry, st: Stage, newer: bool) {
    st == Ingest && newer && AllDead(e)
  }

  /** A POST is due: to learn how an announced one ended, for the first attempt, or to repeat a failed one. */
  predicate PostDue(e: Entry, st: Stage, newer: bool, turn: Turn) {
    && !GivesWay(e, st, newer)
    && (e.submitting == Some(st) || Attempts(e, st) == []
        || (LastJob(Attempts(e, st)).status == Failed && !turn.cooling
            && RetryFailure(e, st, LastJob(Attempts(e, st)), turn.health).Allowed?))
  }

  /** The last attempt of the stage failed, and no POST of it is on its way. */
  predicate Failing(e: Entry, st: Stage) {
    e.submitting != Some(st) && Attempts(e, st) != [] && LastJob(Attempts(e, st)).status == Failed
  }

  predicate AllCooling(turns: seq<Turn>) {
    forall k :: 0 <= k < |turns| ==> turns[k].cooling
  }

  /** The turn leaves a failed attempt alone; a capacity failure that stays stops the batch. */
  predicate LeavesIt(e: Entry, st: Stage, f: Entry, next: Next) {
    && SameWork(e, f) && next.Over? && next.outcome.Ended? && next.outcome.status != Completed
    && (next.outcome.status == Pending ==> next.outcome.stopBatch == StopsBatch(Attempts(e, st)))
  }

  /** The first half of a turn: it makes the attempt, or leaves the attempts and does no more than end the stage. */
  predicate Attempted(e: Entry, f: Entry, st: Stage, submitted: bool, sent: bool, go: bool) {
    && (submitted ==> sent)
    && if sent && !submitted && go then Adopts(e, f, st) else SameWork(e, f) && (go ==> f == e)
  }

  /** The receipt that the last attempt of a stage has to hold. */
  predicate Receipted(e: Entry, st: Stage)
    requires Attempts(e, st) != [] && (st == Audit ==> e.ingest != [])
  {
    ReceiptOk(LastJob(Attempts(e, st)), if st == Ingest then None else Some(LastJob(e.ingest).id))
  }

  /** What a stage without a new POST comes to, by how its last attempt ended. */
  predicate Weighed(e: Entry, st: Stage, next: Next)
    requires Attempts(e, st) != [] && (st == Audit ==> e.ingest != [])
  {
    var last := LastJob(Attempts(e, st));
    match last.status
    case Done =>
      if Receipted(e, st) && (st == Ingest ==> last.kind == Ingest && last.sha == e.sha)
      then next == Through && (st == Audit && Slip(last) ==> Slips(e.audit) >= MAX_VERDICT_SLIPS)
      else next == Over(Ended(NeedsRepair, false))
    case Failed => next == Again || (st == Ingest && next == Over(Ended(NeedsRepair, false)))
    case NeedsConversion => next == Over(Ended(NeedsRepair, false))
    case Inbox => next.Over?
    case Queued => !next.Through?
    case Running => !next.Through?
  }

  /** The entry after a slip was POSTed again: one attempt more at most, and then the slip stands before it. */
  predicate MoreOrSame(e: Entry, f: Entry, again: bool) {
    && f.ingest == e.ingest && e.audit != [] && Slips(Front(e.audit)) == 0
    && (|f.audit| == |e.audit| || (again && |f.audit| == |e.audit| + 1 && Slips(Front(f.audit)) > 0))
  }

  lemma SlipsOnce(e: Entry, f: Entry, g: Entry, again: bool)
    requires Rereads(e, f, Audit) && e.audit != [] && Slip(LastJob(f.audit)) && Slips(f.audit) < MAX_VERDICT_SLIPS
    requires if again then Adopts(f, g, Audit) else SameWork(f, g)
    ensures MoreOrSame(e, g, again)
  {
    assert Front(f.audit) == Front(e.audit) && Slips(f.audit) == Slips(Front(f.audit)) + 1;
    if again && Front(g.audit) == f.audit { assert |g.audit| == |f.audit| + 1; }
  }

  /** What a stage gained since `e`: one attempt once one was made, and one more after a slip. */
  predicate Gained(e: Entry, f: Entry, st: Stage, submitted: bool, slipped: bool) {
    && SameOther(e, f, st)
    && |Attempts(f, st)| <= |Attempts(e, st)| + (if submitted then 1 else 0) + (if slipped && st == Audit then 1 else 0)
    && (slipped ==> submitted && st == Audit)
    && (f.submitting == None || f.submitting == Some(st) || f.submitting == e.submitting)
    && (submitted ==> Attempts(f, st) != [] && f.submitting != Some(st))
    && (slipped && |Attempts(f, st)| > |Attempts(e, st)| + 1 ==> Slips(Front(Attempts(f, st))) > 0)
  }

  lemma GainedByAttempt(e: Entry, f: Entry, g: Entry, st: Stage, submitted: bool, slipped: bool, sent: bool, go: bool)
    requires Gained(e, f, st, submitted, slipped) && Attempted(f, g, st, submitted, sent, go)
    requires go ==> Attempts(g, st) != [] && g.submitting != Some(st)
    ensures SameOther(e, g, st) && |Attempts(g, st)| <= |Attempts(e, st)| + if st == Ingest then 1 else 2
    ensures go ==> Gained(e, g, st, sent, slipped)
  {}

  lemma GainedByJudge(e: Entry, f: Entry, g: Entry, st: Stage, submitted: bool, slipped: bool, again: bool, on: bool)
    requires Gained(e, f, st, submitted, slipped)
    requires if again then st == Audit && MoreOrSame(f, g, on) else Rereads(f, g, st)
    requires on ==> Attempts(g, st) != [] && g.submitting != Some(st) && (g.submitting == None || g.submitting == f.submitting)
    ensures SameOther(e, g, st)
    ensures |Attempts(g, st)| <= |Attempts(e, st)| + if st == Ingest then 1 else 2
    ensures on ==> Gained(e, g, st, submitted || again, slipped || again)
  {}

  // ----- a sweep over the ledger -----------------------------------------------------------

  /** An earlier version of the source of `j` was unfinished before the sweep and is pending after its turn. */
  ghost predicate Behind(a: Machine, b: Machine, i: nat, j: nat)
    requires |a.disk| == |b.disk|
  {
    && i < j < |a.disk| && a.disk[i].identity == a.disk[j].identity
    && Active(a.disk[i]) && b.disk[i].status == Pending
  }

  /** The entry has the attempts, the flag and the extra attempts it had. */
  ghost predicate Untouched(a: Machine, b: Machine, j: nat)
    requires |a.disk| == |b.disk| == |a.grants| == |b.grants| && j < |a.disk|
  {
    && SameWork(a.disk[j], b.disk[j]) && b.disk[j].submitting == a.disk[j].submitting
    && b.grants[j] == a.grants[j]
  }

  /** A capacity failure that waits out its cooldown and holds the batch back. */
  predicate HoldsBatch(e: Entry, f: Entry) {
    Failing(e, Ingest) && f.status == Pending && StopsBatch(e.ingest)
  }

  /** What a sweep does to an entry it reaches. `cooling`: every cooldown runs; `waits`: an earlier version is pending. */
  ghost predicate Handled(a: Machine, b: Machine, j: nat, waits: bool, cooling: bool)
    requires |a.disk| == |b.disk| == |a.grants| == |b.grants| && j < |a.disk|
  {
    var e, f := a.disk[j], b.disk[j];
    && (!Active(e) ==> f == e && b.grants[j] == a.grants[j])
    && (Active(e) && waits ==> f == e.(status := Pending) && b.grants[j] == a.grants[j])
    && |f.ingest| <= |e.ingest| + 1 && |f.audit| <= |e.audit| + 2
    && (cooling ==> forall st :: Failing(e, st) ==> Attempts(f, st) == Attempts(e, st))
  }

  /** The entries before `reached` had their turn; `waited` are those that had to wait. */
  ghost predicate Swept(a: Machine, b: Machine, reached: nat, waited: set<nat>, cooling: bool) {
    && SameSources(a.disk, b.disk) && |a.disk| == |a.grants| == |b.grants| && reached <= |a.disk|
    && (forall j :: reached <= j < |a.disk| ==> b.disk[j] == a.disk[j] && b.grants[j] == a.grants[j])
    && (forall j :: 0 <= j < reached ==> Handled(a, b, j, j in waited, cooling))
    && (forall j :: j in waited ==> j < reached && Active(a.disk[j]) && exists i: nat :: Behind(a, b, i, j))
    && (forall i: nat, j: nat :: j < reached && Active(a.disk[j]) && Behind(a, b, i, j) ==> j in waited)
  }

  lemma SweptOn(a: Machine, b: Machine, c: Machine, k: nat, waited: set<nat>, waits: bool, cooling: bool)
    requires Swept(a, b, k, waited, cooling) && k < |a.disk| && OthersSame(b, c, k)
    requires Handled(a, c, k, waits, cooling) && (waits ==> Active(a.disk[k]))
    requires Active(a.disk[k]) ==> (waits <==> exists i: nat :: Behind(a, b, i, k))
    ensures Swept(a, c, k + 1, if waits then waited + {k} else waited, cooling)
  {
    forall i: nat, j: nat | j <= k ensures Behind(a, c, i, j) == Behind(a, b, i, j) {}
    forall j | 0 <= j < k ensures Handled(a, c, j, j in waited, cooling) {
      assert Handled(a, b, j, j in waited, cooling);
    }
    forall j | j in waited ensures exists i: nat :: Behind(a, c, i, j) {
      var i: nat :| Behind(a, b, i, j);
      assert Behind(a, c, i, j);
    }
    if waits {
      var i: nat :| Behind(a, b, i, k);
      assert Behind(a, c, i, k);
    }
  }

  /** The identities in `blocked` are those of the earlier entries that are pending. */
  ghost predicate Blocks(a: Machine, b: Machine, k: nat, blocked: set<string>)
    requires |a.disk| == |b.disk| && k <= |a.disk|
  {
    && (forall i :: 0 <= i < k && Active(a.disk[i]) && b.disk[i].status == Pending ==> a.disk[i].identity in blocked)
    && (forall x :: x in blocked ==>
          exists i :: 0 <= i < k && Active(a.disk[i]) && b.disk[i].status == Pending && a.disk[i].identity == x)
  }

  lemma BlockedIsBehind(a: Machine, b: Machine, k: nat, blocked: set<string>)
    requires |a.disk| == |b.disk| && k < |a.disk| && Blocks(a, b, k, blocked)
    ensures a.disk[k].identity in blocked <==> exists i: nat :: Behind(a, b, i, k)
  {
    if a.disk[k].identity in blocked {
      var i :| 0 <= i < k && Active(a.disk[i]) && b.disk[i].status == Pending && a.disk[i].identity == a.disk[k].identity;
      assert Behind(a, b, i, k);
    }
  }

  lemma BlocksOn(a: Machine, b: Machine, c: Machine, k: nat, blocked: set<string>)
    requires |a.disk| == |b.disk| && k < |a.disk| && Blocks(a, b, k, blocked) && OthersSame(b, c, k)
    ensures Blocks(a, c, k + 1,
              if Active(a.disk[k]) && c.disk[k].status == Pending then blocked + {a.disk[k].identity} else blocked)
  {
    var now := if Active(a.disk[k]) && c.disk[k].status == Pending then blocked + {a.disk[k].identity} else blocked;
    forall x | x in now
      ensures exists i :: 0 <= i < k + 1 && Active(a.disk[i]) && c.disk[i].status == Pending && a.disk[i].identity == x
    {
      if x in blocked {
        var i :| 0 <= i < k && Active(a.disk[i]) && b.disk[i].status == Pending && a.disk[i].identity == x;
        assert c.disk[i] == b.disk[i];
      } else {
        assert a.disk[k].identity == x;
      }
    }
  }

  /** No entry before `n` that had its turn holds the batch back. */
  ghost predicate NoneHolds(a: Machine, b: Machine, n: int, waited: set<nat>)
    requires |a.disk| == |b.disk|
  {
    forall j :: 0 <= j < n && j < |a.disk| && Active(a.disk[j]) && j !in waited ==> !HoldsBatch(a.disk[j], b.disk[j])
  }

  /** The sweep is over. In one in which every cooldown runs, only the last entry may hold the batch back. */
  ghost predicate SweptTo(a: Machine, b: Machine, reached: nat, waited: set<nat>, cooling: bool) {
    Swept(a, b, reached, waited, cooling) && (cooling ==> NoneHolds(a, b, reached - 1, waited))
  }

  /** The sweep goes on with the entry at `k`. */
  ghost predicate Sweeping(a: Machine, b: Machine, k: nat, waited: set<nat>, blocked: set<string>, cooling: bool) {
    && Swept(a, b, k, waited, cooling) && Blocks(a, b, k, blocked) && (cooling ==> NoneHolds(a, b, k, waited))
  }

  lemma SweepingStarts(a: Machine, cooling: bool)
    requires |a.grants| == |a.disk|
    ensures Sweeping(a, a, 0, {}, {}, cooling) && SweptTo(a, a, 0, {}, cooling)
  {}

  lemma SweepingOn(
    a: Machine, b: Machine, c: Machine, k: nat, waited: set<nat>, blocked: set<string>, waits: bool, cooling: bool)
    requires Sweeping(a, b, k, waited, blocked, cooling) && k < |a.disk| && OthersSame(b, c, k)
    requires waits == (Active(b.disk[k]) && b.disk[k].identity in blocked) && Handled(b, c, k, waits, cooling)
    ensures var w, f := if waits then waited + {k} else waited, c.disk[k];
            && SweptTo(a, c, k + 1, w, cooling)
            && ((cooling && Active(b.disk[k]) && !waits ==> !HoldsBatch(b.disk[k], f)) ==>
                  Sweeping(a, c, k + 1, w,
                    if Active(b.disk[k]) && f.status == Pending then blocked + {f.identity} else blocked, cooling))
  {
    assert Handled(a, c, k, waits, cooling);
    BlockedIsBehind(a, b, k, blocked);
    SweptOn(a, b, c, k, waited, waits, cooling);
    BlocksOn(a, b, c, k, blocked);
    var w := if waits then waited + {k} else waited;
    forall j | cooling && 0 <= j < k && Active(a.disk[j]) && j !in w ensures !HoldsBatch(a.disk[j], c.disk[j]) {
      assert j !in waited && c.disk[j] == b.disk[j];
    }
  }

  /** What holds after every run of the machine. */
  lemma EveryRunIsSound(start: Machine, trace: seq<Event>)
    requires Initial(start)
    ensures var m := Exec(start, trace);
            && LedgerStrays.Remembered(m) && LedgerSafety.AllReceiptsHeld(m)
            && (forall id: nat :: LedgerSafety.Forgotten(m, id) ==> id in m.lost)
            && (LedgerBounds.TameEvents(trace) ==> LedgerBounds.AllBounded(m))
  {
    var m := Exec(start, trace);
    LedgerStrays.ExecRemembered(start, trace);
    forall id: nat | LedgerSafety.Forgotten(m, id) ensures id in m.lost {
      LedgerStrays.ForgottenWasLost(start, trace, id);
    }
    LedgerSafety.DoneMeansReceipts(start, trace);
    if LedgerBounds.TameEvents(trace) {
      LedgerBounds.ExecKeepsBound(start, trace);
    }
  }

  /** No entry is worked on while an earlier version of its source is pending. */
  ghost predicate EarlierFirst(a: Machine, b: Machine) {
    && |a.disk| == |b.disk| == |a.grants| == |b.grants|
    && forall i: nat, j: nat :: Behind(a, b, i, j) ==> Untouched(a, b, j)
  }

  /** Nothing at or after `reached` changed. */
  ghost predicate RestAsIs(a: Machine, b: Machine, reached: nat) {
    && |a.disk| == |b.disk| == |a.grants| == |b.grants|
    && forall j :: reached <= j < |b.disk| ==> b.disk[j] == a.disk[j] && b.grants[j] == a.grants[j]
  }

  lemma SweepMeans(a: Machine, b: Machine, reached: nat, waited: set<nat>, cooling: bool)
    requires SweptTo(a, b, reached, waited, cooling)
    ensures EarlierFirst(a, b) && RestAsIs(a, b, reached)
  {
    forall i: nat, j: nat | Behind(a, b, i, j) ensures Untouched(a, b, j) {
      WaitingIsUntouched(a, b, reached, waited, cooling, i, j);
    }
  }

  /** Who waits is untouched, whether or not the sweep came to it. */
  lemma WaitingIsUntouched(a: Machine, b: Machine, reached: nat, waited: set<nat>, cooling: bool, i: nat, j: nat)
    requires Swept(a, b, reached, waited, cooling) && Behind(a, b, i, j)
    ensures Untouched(a, b, j)
  {
    if j < reached {
      assert Handled(a, b, j, j in waited, cooling);
    }
  }

  /** The writer answers with a job that has not failed. */
  lemma AnswerHasNotFailed(m: Machine, made: Job)
    requires Enabled(m, Take(made))
    ensures var taken := Step(m, Take(made));
            && taken.disk == m.disk && taken.wire.Answered? && Enabled(taken, Record)
            && taken.wire.entry == m.wire.entry && taken.wire.stage == m.wire.stage
            && (m.wire.stage == Audit ==> taken.wire.job.status != Failed)
  {}

  lemma AdoptedIsAdopted(e: Entry, st: Stage, job: Job)
    requires job.status != Failed
    ensures Adopts(e, Adopt(e, st, job), st)
  {
    AdoptedLast(e, st, job);
  }

  /** An answered POST leaves its job as the last attempt, not failed, and the flag cleared. */
  lemma AnswerIsRecorded(m: Machine, made: Job)
    requires Enabled(m, Take(made))
    ensures Enabled(Step(m, Take(made)), Record)
    ensures var n, i := Step(Step(m, Take(made)), Record), m.wire.entry;
            n.wire == Idle && i < |m.disk| == |n.disk| && Adopts(m.disk[i], n.disk[i], m.wire.stage)
  {
    AnswerHasNotFailed(m, made);
    var taken := Step(m, Take(made));
    var job := taken.wire.job;
    AdoptedIsAdopted(m.disk[m.wire.entry], m.wire.stage, if m.wire.stage == Ingest then job.(status := Queued) else job);
  }

  lemma NoFlag(e: Entry)
    requires e.submitting != Some(Ingest) && e.submitting != Some(Audit)
    ensures e.submitting == None
  {
    match e.submitting {
      case None =>
      case Some(st) => match st { case Ingest => case Audit => }
    }
  }

  lemma AdoptedLast(e: Entry, st: Stage, job: Job)
    ensures var before, after := Attempts(e, st), Attempts(Adopt(e, st, job), st);
            && after != [] && LastJob(after) == job
            && (after[..|after| - 1] == before || (before != [] && after[..|after| - 1] == before[..|before| - 1]))
  {}

  class Runner {
    var m: Machine
    ghost var start: Machine
    ghost var trace: seq<Event>

    constructor (ledger: Machine)
      requires Initial(ledger)
      ensures Valid() && m == ledger && start == ledger && trace == []
    {
      m, start, trace := ledger, ledger, [];
    }

    ghost predicate Valid()
      reads this
    {
      m == Exec(start, trace)
    }

    /** What the method left is reachable, and nothing was taken back. */
    twostate predicate Continues()
      reads this
    {
      && Valid() && start == old(start) && old(trace) <= trace
      && |m.grants| == |old(m.grants)| && SameSources(old(m.disk), m.disk)
    }

    /** Nothing but the entry at `i` changed in the ledger. */
    twostate predicate Only(i: nat)
      reads this
    {
      Valid() && start == old(start) && old(trace) <= trace && OthersSame(old(m), m, i)
    }

    method Do(ev: Event)
      requires Valid() && Enabled(m, ev)
      modifies this
      ensures Continues() && m == Step(old(m), ev) && trace == old(trace) + [ev]
      ensures EntryOf(old(m), ev).Some? ==> Only(EntryOf(old(m), ev).value)
      ensures EntryOf(old(m), ev) == None ==> m.disk == old(m.disk) && m.grants == old(m.grants)
    {
      ExecSnoc(start, trace, ev);
      StepTouchesOne(m, ev);
      m := Step(m, ev);
      trace := trace + [ev];
    }

    /** The run is killed. */
    method Die(i: nat)
      requires Valid()
      modifies this
      ensures Only(i) && m.disk == old(m.disk) && m.grants == old(m.grants)
    {
      Do(Kill);
    }

    /** The writer works on its jobs; what it may not do is not done. */
    method Work(steps: seq<(nat, Job)>)
      requires Valid()
      modifies this
      ensures Continues()
      ensures m == old(m).(jobs := m.jobs) && |m.jobs| == |old(m.jobs)|
    {
      for k := 0 to |steps|
        invariant Continues()
        invariant m == old(m).(jobs := m.jobs) && |m.jobs| == |old(m.jobs)|
      {
        var ev := Progress(steps[k].0, steps[k].1);
        if Enabled(m, ev) {
          Do(ev);
        }
      }
    }

    function Made(i: nat, st: Stage, start: Status, receipt: Receipt): Job
      requires i < |m.disk| && (st == Audit ==> m.disk[i].ingest != [])
      reads this
    {
      var status := if CanStart(st, start) then start else Queued;
      var parent := if st == Ingest then None else Some(LastJob(m.disk[i].ingest).id);
      Job(|m.jobs|, st, status, m.disk[i].sha, parent, false, Failure(Internal, true), None, receipt)
    }

    /** `_submit`: announce the POST on disk, send it, and record the job it answers with. */
    method Post(i: nat, st: Stage, turn: Turn) returns (sent: bool, killed: bool)
      requires Valid() && Enabled(m, Submit(i, st, turn.health, turn.readable))
      modifies this
      ensures Only(i) && (!killed ==> m.wire == Idle)
      ensures sent ==> !killed && i < |m.disk| && Adopts(old(m.disk[i]), m.disk[i], st)
      ensures !sent ==> SameWork(old(m.disk[i]), m.disk[i])
      ensures if st == Ingest && !turn.readable
              then !sent && !killed && m.disk[i].status == NeedsRepair && m.disk[i].submitting == old(m.disk[i].submitting) && m.jobs == old(m.jobs)
              else Exchanged(m.disk[i], st, turn.reply, sent, killed)
    {
      Do(Submit(i, st, turn.health, turn.readable));
      if st == Ingest && !turn.readable {
        return false, false;
      }
      sent, killed := Exchange(i, st, turn.reply);
    }

    /** The POST is on its way: what the writer and the network make of it. */
    method Exchange(i: nat, st: Stage, reply: Reply) returns (sent: bool, killed: bool)
      requires Valid() && m.wire == Sending(i, st) && WireOk(m)
      modifies this
      ensures Only(i) && (!killed ==> m.wire == Idle)
      ensures sent ==> !killed && i < |m.disk| && Adopts(old(m.disk[i]), m.disk[i], st)
      ensures !sent ==> SameWork(old(m.disk[i]), m.disk[i])
      ensures Exchanged(m.disk[i], st, reply, sent, killed)
    {
      sent, killed := false, false;
      match reply {
        case Refusal(again) =>
          Do(Refuse(again));
        case LostBefore =>
          Do(Lose);
        case LostAfter(status, receipt) =>
          Unanswered(i, st, Made(i, st, status, receipt), Lose);
        case KilledAfter(status, receipt) =>
          Unanswered(i, st, Made(i, st, status, receipt), Kill);
          killed := true;
        case Answer(status, receipt) =>
          Answered(i, st, Made(i, st, status, receipt));
          sent := true;
      }
    }

    /** The writer handles the POST, but its answer is lost or the run is killed. */
    method Unanswered(i: nat, st: Stage, made: Job, ev: Event)
      requires Valid() && m.wire == Sending(i, st) && Enabled(m, Take(made)) && (ev == Lose || ev == Kill)
      modifies this
      ensures Only(i) && m.wire == Idle && i < |m.disk| && SameWork(old(m.disk[i]), m.disk[i])
      ensures m.disk[i].submitting == Some(st) && (ev == Lose ==> m.disk[i].status == Pending)
    {
      Do(Take(made));
      Do(ev);
    }

    /** The answer arrives: the job it names is recorded. */
    method Answered(i: nat, st: Stage, made: Job)
      requires Valid() && m.wire == Sending(i, st) && Enabled(m, Take(made))
      modifies this
      ensures Only(i) && m.wire == Idle && i < |m.disk| && Adopts(old(m.disk[i]), m.disk[i], st)
    {
      AnswerIsRecorded(m, made);
      Do(Take(made));
      Do(Record);
    }

    /** Leaves the entry pending or in need of repair, as a raised `Pending` or `NeedsRepair` does. */
    method GiveUp(i: nat, repair: bool) returns (outcome: Outcome)
      requires Valid() && Idles(m, i)
      modifies this
      ensures Only(i) && m.wire == Idle && m.grants == old(m.grants)
      ensures m.disk[i] == old(m.disk[i]).(status := if repair then NeedsRepair else Pending)
      ensures outcome == Ended(m.disk[i].status, false)
    {
      Do(Settle(i, repair));
      outcome := Ended(m.disk[i].status, false);
    }

    /** Whether the entry may go on to the next stage. */
    predicate PastStage(i: nat, st: Stage)
      reads this
    {
      && i < |m.disk| && IngestDone(m.disk[i])
      && (st == Audit ==>
            && m.disk[i].submitting == None && m.disk[i].audit != []
            && ReceiptOk(LastJob(m.disk[i].audit), Some(LastJob(m.disk[i].ingest).id))
            && MaySubmit(m.disk[i], Audit, None).Refused?)
    }

    predicate Ready(i: nat, st: Stage)
      reads this
    {
      Idles(m, i) && i < |m.grants| && (st == Audit ==> IngestDone(m.disk[i]))
    }

    /** The stage has an attempt to look at, and no POST is announced. */
    predicate Settled(i: nat, st: Stage)
      reads this
    {
      Ready(i, st) && Attempts(m.disk[i], st) != [] && m.disk[i].submitting != Some(st)
    }

    /** How a turn or a stage leaves the entry when it does not go on with it. */
    predicate Ends(i: nat, st: Stage, next: Next)
      reads this
    {
      && i < |m.disk|
      && (next.Through? ==> Idles(m, i) && PastStage(i, st))
      && (next.Over? && next.outcome.Ended? ==>
            && m.wire == Idle && next.outcome.status == m.disk[i].status
            && next.outcome.status != Completed && next.outcome.status != Dropped
            && (next.outcome.stopBatch ==> next.outcome.status == Pending && StopsBatch(Attempts(m.disk[i], st))))
    }

    /** A POST from the loop: it goes on only when the answer is recorded. */
    method Send(i: nat, st: Stage, turn: Turn) returns (go: bool, outcome: Outcome)
      requires Valid() && Ready(i, st) && MaySubmit(m.disk[i], st, turn.health).Allowed?
      modifies this
      ensures Only(i)
      ensures go ==> Settled(i, st) && Adopts(old(m.disk[i]), m.disk[i], st)
      ensures !go ==> SameWork(old(m.disk[i]), m.disk[i])
      ensures !go && outcome.Ended? ==> m.wire == Idle && outcome == Ended(m.disk[i].status, false)
      ensures !go && outcome.Ended? ==> outcome.status == Pending || outcome.status == NeedsRepair
    {
      var sent, killed := Post(i, st, turn);
      go, outcome := sent, if killed then Killed else Ended(m.disk[i].status, false);
    }

    /**
     The first half of a turn: supersede the entry, or make the attempt that is due. An entry whose cooldown
     runs, or that had its attempt in this run, is left with the attempts it has.
     */
    method Attempt(i: nat, st: Stage, newer: bool, turn: Turn, submitted: bool)
      returns (go: bool, sent: bool, outcome: Outcome)
      requires Valid() && Ready(i, st)
      requires newer ==> LaterVersion(m.disk, i)
      requires submitted ==> Settled(i, st)
      modifies this
      ensures Only(i) && (go ==> Settled(i, st) && LastJob(Attempts(m.disk[i], st)).status != Failed)
      ensures !go ==> Ends(i, st, Over(outcome))
      ensures Attempted(old(m.disk[i]), m.disk[i], st, submitted, sent, go)
      ensures sent == submitted ==> m.grants == old(m.grants)
      ensures !submitted ==> (sent <==> PostDue(old(m.disk[i]), st, newer, turn))
      ensures GivesWay(old(m.disk[i]), st, newer) <==> !go && outcome == Ended(Superseded, false)
      ensures GivesWay(old(m.disk[i]), st, newer) ==>
                m.disk[i] == old(m.disk[i]).(status := Superseded, submitting := None)
      ensures Failing(old(m.disk[i]), st) && (submitted || turn.cooling) ==>
                !go && LeavesIt(old(m.disk[i]), st, m.disk[i], Over(outcome))
    {
      var e := m.disk[i];
      go, sent, outcome := false, submitted, Killed;
      if st == Ingest && newer && AllDead(e) {
        Do(Supersede(i));
        outcome := Ended(Superseded, false);
      } else if e.submitting == Some(st) || Attempts(e, st) == [] {
        go, outcome := Send(i, st, turn);
        sent := true;
      } else if LastJob(Attempts(e, st)).status == Failed {
        if RetryFailure(e, st, LastJob(Attempts(e, st)), turn.health).Refused? {
          outcome := GiveUp(i, true);
        } else if submitted || turn.cooling {
          outcome := GiveUp(i, false);
          outcome := outcome.(stopBatch := StopsBatch(Attempts(e, st)));
        } else {
          go, outcome := Send(i, st, turn);
          sent := true;
        }
      } else {
        go := true;
      }
    }

    /** The last attempt is a job of this writer. */
    predicate Known(i: nat, st: Stage)
      requires i < |m.disk| && Attempts(m.disk[i], st) != []
      reads this
    {
      LastJob(Attempts(m.disk[i], st)).id < |m.jobs|
    }

    /** The writer says how the last attempt stands, and that is saved. */
    method Reread(i: nat, st: Stage)
      requires Valid() && Settled(i, st) && Known(i, st) && !Terminal(LastJob(Attempts(m.disk[i], st)))
      modifies this
      ensures Only(i) && m.grants == old(m.grants) && Rereads(old(m.disk[i]), m.disk[i], st)
      ensures Settled(i, st) && m.disk[i].submitting == old(m.disk[i].submitting)
      ensures LastJob(Attempts(m.disk[i], st)) == old(m.jobs[LastJob(Attempts(m.disk[i], st)).id].job)
    {
      Do(Poll(i, st));
    }

    /** Asks the writer about an attempt that has not ended. A refusal is for repair, unless it may pass. */
    method Follow(i: nat, st: Stage, turn: Turn) returns (ok: bool, outcome: Outcome)
      requires Valid() && Settled(i, st)
      modifies this
      ensures Only(i) && m.grants == old(m.grants) && Rereads(old(m.disk[i]), m.disk[i], st)
      ensures ok ==> Settled(i, st) && m.disk[i].submitting == old(m.disk[i].submitting)
      ensures ok && old(Terminal(LastJob(Attempts(m.disk[i], st)))) ==> m.disk == old(m.disk)
      ensures !ok ==> m.wire == Idle && outcome == Ended(m.disk[i].status, false) && SameWork(old(m.disk[i]), m.disk[i])
      ensures !ok ==> outcome.status == if turn.reading == Denied(false) then NeedsRepair else Pending
      ensures !ok && turn.reading.Denied? ==> m.disk[i].submitting == None
      ensures ok <==> Terminal(old(LastJob(Attempts(m.disk[i], st)))) || (turn.reading.Read? && old(Known(i, st)))
    {
      var last := LastJob(Attempts(m.disk[i], st));
      ok, outcome := true, Killed;
      if !Terminal(last) {
        if turn.reading.Denied? {
          Do(Deny(i, st, turn.reading.again));
          ok, outcome := false, Ended(m.disk[i].status, false);
        } else if turn.reading.NoAnswer? || !Known(i, st) {
          outcome := GiveUp(i, false);
          ok := false;
        } else {
          Reread(i, st);
        }
      }
    }

    /** The last attempt is done: its receipt is read, and a first verdict slip is POSTed again. */
    method Weigh(i: nat, st: Stage, turn: Turn) returns (next: Next, sent: bool)
      requires Valid() && Settled(i, st) && LastJob(Attempts(m.disk[i], st)).status == Done
      requires st == Ingest ==> LastJob(m.disk[i].ingest).kind == Ingest && LastJob(m.disk[i].ingest).sha == m.disk[i].sha
      modifies this
      ensures Only(i)
      ensures sent ==> st == Audit && old(Receipted(m.disk[i], st)) && Slip(LastJob(old(m.disk[i].audit)))
      ensures sent ==> Slips(old(m.disk[i].audit)) < MAX_VERDICT_SLIPS
      ensures sent ==> if next.Again? then Adopts(old(m.disk[i]), m.disk[i], Audit) else SameWork(old(m.disk[i]), m.disk[i])
      ensures !sent ==> m.disk[i] == old(m.disk[i]).(status := m.disk[i].status) && m.grants == old(m.grants)
      ensures !sent ==> Weighed(m.disk[i], st, next) && !next.Again?
      ensures next.Again? ==> Settled(i, st)
      ensures Ends(i, st, next) && (next.Over? && next.outcome.Ended? ==> !next.outcome.stopBatch)
      ensures !next.Over? ==> m.disk[i].submitting in {None, old(m.disk[i].submitting)}
    {
      sent := false;
      var last := LastJob(Attempts(m.disk[i], st));
      if !Receipted(m.disk[i], st) {
        var outcome := GiveUp(i, true);
        next := Over(outcome);
      } else if st == Audit && Slip(last) && Slips(Attempts(m.disk[i], st)) < MAX_VERDICT_SLIPS {
        var go, outcome := Send(i, st, turn);
        next, sent := if go then Again else Over(outcome), true;
      } else {
        if st == Audit { NoFlag(m.disk[i]); }
        next := Through;
      }
    }

    /** The second half of a turn: look at how the last attempt stands. Only a first verdict slip is POSTed again. */
    method Judge(i: nat, st: Stage, turn: Turn) returns (next: Next, sent: bool)
      requires Valid() && Settled(i, st)
      modifies this
      ensures Only(i)
      ensures !sent ==> Rereads(old(m.disk[i]), m.disk[i], st) && m.grants == old(m.grants)
      ensures !sent ==> Weighed(m.disk[i], st, next)
      ensures sent ==> st == Audit && MoreOrSame(old(m.disk[i]), m.disk[i], next.Again?)
      ensures next.Again? ==> Settled(i, st)
      ensures Ends(i, st, next) && (next.Over? && next.outcome.Ended? ==> !next.outcome.stopBatch)
      ensures !next.Over? ==> m.disk[i].submitting in {None, old(m.disk[i].submitting)}
      ensures turn.reading == Denied(false) && !Terminal(old(LastJob(Attempts(m.disk[i], st)))) ==>
                next == Over(Ended(NeedsRepair, false))
    {
      sent := false;
      ghost var e, before := m.disk[i], m;
      var ok, outcome := Follow(i, st, turn);
      if !ok {
        return Over(outcome), false;
      }
      var last := LastJob(Attempts(m.disk[i], st));
      if st == Ingest && Terminal(last) && (last.sha != m.disk[i].sha || last.kind != Ingest) {
        outcome := GiveUp(i, true);
        next := Over(outcome);
      } else if last.status == Done {
        ghost var read := m;
        next, sent := Weigh(i, st, turn);
        OthersStaySame(before, read, m, i);
        if sent { SlipsOnce(e, read.disk[i], m.disk[i], next.Again?); }
      } else if last.status == NeedsConversion || last.status == Inbox {
        outcome := GiveUp(i, true);
        next := Over(outcome);
      } else if last.status != Failed && turn.late {
        outcome := GiveUp(i, false);
        next := Over(outcome);
      } else {
        next := Again;
      }
    }

    /** Both halves of a turn. `e` is the entry before the stage; `slipped`, whether a slip was POSTed again since. */
    method Respond(i: nat, st: Stage, newer: bool, turn: Turn, submitted: bool, ghost slipped: bool, ghost e: Entry)
      returns (next: Next, sent: bool, ghost slip: bool)
      requires Valid() && Ready(i, st) && Gained(e, m.disk[i], st, submitted, slipped)
      requires newer ==> LaterVersion(m.disk, i)
      modifies this
      ensures Only(i) && Ends(i, st, next) && SameOther(e, m.disk[i], st)
      ensures |Attempts(m.disk[i], st)| <= |Attempts(e, st)| + if st == Ingest then 1 else 2
      ensures next.Again? ==> Ready(i, st) && Gained(e, m.disk[i], st, sent, slip)
      ensures next.Through? ==> m.disk[i].submitting in {None, Some(st), e.submitting}
      ensures GivesWay(old(m.disk[i]), st, newer) ==>
                next == Over(Ended(Superseded, false)) && SameWork(old(m.disk[i]), m.disk[i])
      ensures Failing(old(m.disk[i]), st) && (submitted || turn.cooling) ==>
                LeavesIt(old(m.disk[i]), st, m.disk[i], next) && m.grants == old(m.grants)
    {
      slip := slipped;
      ghost var f := m.disk[i];
      var go, over;
      go, sent, over := Attempt(i, st, newer, turn, submitted);
      GainedByAttempt(e, f, m.disk[i], st, submitted, slipped, sent, go);
      if !go {
        return Over(over), sent, slip;
      }
      ghost var g, before, tried := m.disk[i], sent, m;
      var again;
      next, again := Judge(i, st, turn);
      OthersStaySame(old(m), tried, m, i);
      GainedByJudge(e, g, m.disk[i], st, before, slipped, again, next.Again?);
      sent, slip := sent || again, slipped || again;
    }

    /** One turn of the loop, during which the writer works on its jobs. `submitted`: the stage made its attempt. */
    method TakeTurn(i: nat, st: Stage, newer: bool, turn: Turn, submitted: bool, ghost slipped: bool, ghost e: Entry)
      returns (next: Next, sent: bool, ghost slip: bool)
      requires Valid() && Ready(i, st) && Gained(e, m.disk[i], st, submitted, slipped)
      requires newer ==> LaterVersion(m.disk, i)
      modifies this
      ensures Only(i) && Ends(i, st, next) && SameOther(e, m.disk[i], st)
      ensures |Attempts(m.disk[i], st)| <= |Attempts(e, st)| + if st == Ingest then 1 else 2
      ensures next.Again? ==> Ready(i, st) && Gained(e, m.disk[i], st, sent, slip)
      ensures next.Through? ==> m.disk[i].submitting in {None, Some(st), e.submitting}
      ensures GivesWay(old(m.disk[i]), st, newer) ==>
                next == Over(Ended(Superseded, false)) && SameWork(old(m.disk[i]), m.disk[i])
      ensures Failing(old(m.disk[i]), st) && (submitted || turn.cooling) ==>
                LeavesIt(old(m.disk[i]), st, m.disk[i], next) && m.grants == old(m.grants)
    {
      Work(turn.work);
      if newer { LaterVersionStays(old(m.disk), m.disk, i); }
      ghost var worked := m;
      next, sent, slip := Respond(i, st, newer, turn, submitted, slipped, e);
      OthersStaySame(old(m), worked, m, i);
    }

    /**
     One stage of `_process`, one turn of its loop for each turn of the script; when the script ends the
     run is killed. `newer` says that a later version of the same source waits behind this entry. The stage
     gains one attempt at most, and an audit one more after a verdict slip; none while the cooldown runs.
     */
    method RunStage(i: nat, st: Stage, newer: bool, turns: seq<Turn>) returns (next: Next, rest: seq<Turn>)
      requires Valid() && Ready(i, st)
      requires newer ==> LaterVersion(m.disk, i)
      modifies this
      ensures Only(i) && Ends(i, st, next) && !next.Again? && SameOther(old(m.disk[i]), m.disk[i], st)
      ensures |Attempts(m.disk[i], st)| <= |Attempts(old(m.disk[i]), st)| + if st == Ingest then 1 else 2
      ensures next.Through? ==> m.disk[i].submitting in {None, Some(st), old(m.disk[i].submitting)}
      ensures turns != [] && GivesWay(old(m.disk[i]), st, newer) ==>
                next == Over(Ended(Superseded, false)) && SameWork(old(m.disk[i]), m.disk[i])
      ensures turns != [] && turns[0].cooling && Failing(old(m.disk[i]), st) ==>
                LeavesIt(old(m.disk[i]), st, m.disk[i], next) && m.grants == old(m.grants)
      ensures turns == [] ==> next == Over(Killed) && m.disk == old(m.disk)
      ensures AllCooling(turns) ==> AllCooling(rest)
    {
      next, rest := Over(Killed), turns;
      var submitted := false;
      ghost var slipped, e := false, m.disk[i];
      while rest != []
        invariant Only(i) && Ready(i, st)
        invariant Gained(e, m.disk[i], st, submitted, slipped)
        invariant rest == turns ==> !submitted && m.disk == old(m.disk) && m.grants == old(m.grants)
        invariant rest == turns || !(GivesWay(e, st, newer) || (turns[0].cooling && Failing(e, st)))
        invariant |rest| <= |turns| && (rest == turns || turns != [])
        invariant AllCooling(turns) ==> AllCooling(rest)
        decreases |rest|
      {
        var turn := rest[0];
        rest := rest[1..];
        if newer { LaterVersionStays(old(m.disk), m.disk, i); }
        ghost var worked := m;
        next, submitted, slipped := TakeTurn(i, st, newer, turn, submitted, slipped, e);
        OthersStaySame(old(m), worked, m, i);
        if !next.Again? {
          return;
        }
      }
      ghost var worked := m;
      Die(i);
      OthersStaySame(old(m), worked, m, i);
      next := Over(Killed);
    }

    /** Both stages are behind the entry. */
    method Complete(i: nat)
      requires Valid() && Idles(m, i) && PastStage(i, Audit)
      modifies this
      ensures Only(i) && m.wire == Idle && m.grants == old(m.grants) && PastStage(i, Audit)
      ensures m.disk[i] == old(m.disk[i]).(status := Completed)
    {
      Do(Finish(i));
    }

    /**
     `_process`: both stages of one entry. An entry whose ingests are all dead is superseded when a later
     version is there. A failed attempt is not repeated while the cooldown runs.
     */
    method Process(i: nat, turns: seq<Turn>) returns (outcome: Outcome, rest: seq<Turn>)
      requires Valid() && Idles(m, i) && |m.grants| == |m.disk|
      modifies this
      ensures Only(i)
      ensures |m.disk[i].ingest| <= |old(m.disk[i]).ingest| + 1 && |m.disk[i].audit| <= |old(m.disk[i]).audit| + 2
      ensures outcome.Ended? ==> m.wire == Idle && outcome.status == m.disk[i].status
      ensures outcome.Ended? && outcome.status == Completed ==> PastStage(i, Audit)
      ensures outcome.Ended? && outcome.stopBatch ==>
                outcome.status == Pending && (StopsBatch(m.disk[i].ingest) || StopsBatch(m.disk[i].audit))
      ensures turns != [] && LaterVersion(old(m.disk), i) && AllDead(old(m.disk[i])) ==>
                outcome == Ended(Superseded, false) && SameWork(old(m.disk[i]), m.disk[i])
      ensures AllCooling(turns) && outcome.Ended? && HoldsBatch(old(m.disk[i]), m.disk[i]) ==> outcome.stopBatch
      ensures AllCooling(turns) ==>
                && AllCooling(rest)
                && (forall st :: Failing(old(m.disk[i]), st) ==> Attempts(m.disk[i], st) == Attempts(old(m.disk[i]), st))
    {
      ghost var e, before := m.disk[i], m;
      var next;
      next, rest := RunStage(i, Ingest, LaterVersion(m.disk, i), turns);
      if next.Through? {
        assert Failing(e, Audit) ==> Failing(m.disk[i], Audit);
        ghost var ingested := m;
        next, rest := RunStage(i, Audit, false, rest);
        OthersStaySame(before, ingested, m, i);
      }
      if next.Through? {
        ghost var audited := m;
        Complete(i);
        OthersStaySame(before, audited, m, i);
        outcome := Ended(Completed, false);
      } else {
        outcome := next.outcome;
      }
    }

    /** One entry's turn in `run_sources`: it waits, or it is processed. */
    method Visit(i: nat, waits: bool, turns: seq<Turn>) returns (outcome: Outcome, rest: seq<Turn>)
      requires Valid() && Idles(m, i) && |m.grants| == |m.disk|
      modifies this
      ensures Only(i) && Handled(old(m), m, i, waits, AllCooling(turns))
      ensures outcome.Ended? ==> m.wire == Idle && outcome.status == m.disk[i].status
      ensures outcome.Ended? && outcome.stopBatch ==>
                outcome.status == Pending && (StopsBatch(m.disk[i].ingest) || StopsBatch(m.disk[i].audit))
      ensures AllCooling(turns) && outcome.Ended? && !waits && HoldsBatch(old(m.disk[i]), m.disk[i]) ==>
                outcome.stopBatch
      ensures AllCooling(turns) ==> AllCooling(rest)
    {
      if waits {
        outcome := GiveUp(i, false);
        rest := turns;
      } else {
        outcome, rest := Process(i, turns);
      }
    }

    /** The body of the loop of `run_sources`. `more`: the batch goes on; `cooling`: every cooldown runs. */
    method Advance(ghost a: Machine, i: nat, waited: set<nat>, blocked: set<string>, turns: seq<Turn>, ghost cooling: bool)
      returns (more: bool, killed: bool, w: set<nat>, bl: set<string>, rest: seq<Turn>)
      requires Valid() && m.wire == Idle && i < |m.disk| && (cooling ==> AllCooling(turns))
      requires Sweeping(a, m, i, waited, blocked, cooling)
      modifies this
      ensures Continues() && SweptTo(a, m, i + 1, w, cooling) && (cooling ==> AllCooling(rest))
      ensures more ==> !killed && m.wire == Idle && Sweeping(a, m, i + 1, w, bl, cooling)
      ensures !more && !killed ==>
                m.disk[i].status == Pending && (StopsBatch(m.disk[i].ingest) || StopsBatch(m.disk[i].audit))
    {
      ghost var b := m;
      more, killed, w, bl, rest := true, false, waited, blocked, turns;
      if !Active(m.disk[i]) {
        SweepingOn(a, b, m, i, waited, blocked, false, cooling);
        return;
      }
      var waits := m.disk[i].identity in blocked;
      var outcome;
      outcome, rest := Visit(i, waits, turns);
      SweepingOn(a, b, m, i, waited, blocked, waits, cooling);
      w := if waits then waited + {i} else waited;
      if outcome == Killed {
        more, killed := false, true;
      } else {
        bl := if outcome.status == Pending then blocked + {m.disk[i].identity} else blocked;
        more := !outcome.stopBatch;
      }
    }

    /** The loop of `run_sources`: each unfinished entry in turn. */
    method Sweep(turns: seq<Turn>) returns (reached: nat, waited: set<nat>, killed: bool)
      requires Valid() && m.wire == Idle && |m.grants| == |m.disk|
      modifies this
      ensures Continues() && SweptTo(old(m), m, reached, waited, AllCooling(turns))
      ensures reached < |m.disk| && !killed ==>
                && 0 < reached && m.disk[reached - 1].status == Pending
                && (StopsBatch(m.disk[reached - 1].ingest) || StopsBatch(m.disk[reached - 1].audit))
    {
      reached, waited, killed := 0, {}, false;
      var rest := turns;
      var blocked: set<string> := {};
      ghost var a, cooling := m, AllCooling(turns);
      SweepingStarts(a, cooling);
      for i := 0 to |m.disk|
        invariant Continues() && m.wire == Idle && reached == i && !killed
        invariant Sweeping(a, m, i, waited, blocked, cooling) && SweptTo(a, m, i, waited, cooling)
        invariant cooling ==> AllCooling(rest)
      {
        var more;
        more, killed, waited, blocked, rest := Advance(a, i, waited, blocked, rest, cooling);
        reached := i + 1;
        if !more {
          break;
        }
      }
    }

    /**
     `run_sources`: a version waits behind an earlier pending version of its source and keeps the attempts
     it had. A run that is killed, or that a capacity failure stops, leaves what it did not reach as it was.
     However the run goes, every entry it leaves completed holds its receipts, and no live job of the writer
     is forgotten but for a lost answer.
     */
    method RunSources(turns: seq<Turn>) returns (reached: nat, waited: set<nat>, killed: bool)
      requires Valid() && Initial(start) && m.wire == Idle && |m.grants| == |m.disk|
      modifies this
      ensures Continues() && SweptTo(old(m), m, reached, waited, AllCooling(turns))
      ensures EarlierFirst(old(m), m) && RestAsIs(old(m), m, reached)
      ensures reached < |m.disk| && !killed ==>
                && 0 < reached && m.disk[reached - 1].status == Pending
                && (StopsBatch(m.disk[reached - 1].ingest) || StopsBatch(m.disk[reached - 1].audit))
      ensures LedgerStrays.Remembered(m) && LedgerSafety.AllReceiptsHeld(m)
      ensures forall id: nat :: LedgerSafety.Forgotten(m, id) ==> id in m.lost
      ensures LedgerBounds.TameEvents(trace) ==> LedgerBounds.AllBounded(m)
    {
      reached, waited, killed := Sweep(turns);
      SweepMeans(old(m), m, reached, waited, AllCooling(turns));
      EveryRunIsSound(start, trace);
    }
  }
}
