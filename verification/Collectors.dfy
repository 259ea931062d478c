/**
 The issue collectors of `ai-wiki maint collect`: each reads the writer's cursor, lists what changed after
 it, enqueues the evidence in batches, and only then moves the cursor by compare-and-swap (If-Match and
 If-None-Match, sections 13.1.1 and 13.1.2 of RFC 9110). Any number of collectors run at once; each can
 crash anywhere, lose an answer and start over.
 */
module Collectors {
  import opened Prelude
  import opened Delta

  /** The writer's cursor; every write gives it a new version, which its etag names. */
  datatype Cursor = Cursor(version: nat, value: Key)

  datatype Phase =
    | Resting
    | Reading(record: Option<Cursor>, cursor: Key)
    | Enqueueing(record: Option<Cursor>, cursor: Key, next: Key, batches: seq<set<Activity>>, sent: nat)

  /**
   `since` is the configured starting point, `settle` the margin of `--settle-seconds`. `world` is all
   activity so far; the listing shows an activity at the latest `settle` after it happened.
   */
  datatype System = System(
    since: Key, settle: nat, excluded: set<string>,
    now: int, world: set<Activity>, writer: Option<Cursor>, enqueued: set<Activity>, collectors: seq<Phase>)

  datatype Event =
    | Tick(seconds: nat)
    | Happen(a: Activity)
    | Read(c: nat)
    | List(c: nat, asOf: int, rows: seq<Row>, seen: set<Activity>, next: Key, batches: seq<set<Activity>>)
    | Enqueue(c: nat, applied: bool, answered: bool)
    | Move(c: nat, applied: bool, answered: bool)
    | Restart(c: nat)   // a crash, a failure, or the one rerun after a network failure

  function Union(batches: seq<set<Activity>>): set<Activity> {
    if batches == [] then {} else batches[0] + Union(batches[1..])
  }

  /** The condition of the PUT: the record is the one that was read, or there still is none. */
  predicate Matches(s: System, record: Option<Cursor>) {
    if record == None then s.writer == None
    else s.writer.Some? && s.writer.value.version == record.value.version
  }

  ghost predicate Enabled(s: System, ev: Event) {
    match ev
    case Tick(_) => true
    case Happen(a) => a.time > s.now - s.settle
    case Read(c) => c < |s.collectors| && s.collectors[c].Resting?
    case List(c, asOf, rows, seen, next, batches) =>
      && c < |s.collectors| && s.collectors[c].Reading?
      && asOf <= s.now - s.settle && seen <= s.world
      && Sees(asOf, rows, seen, s.world)
      && IsNext(s.collectors[c].cursor, asOf, rows, next)
      && Union(batches) == Reported(s.collectors[c].cursor, asOf, rows, s.excluded, seen)
    case Enqueue(c, applied, answered) =>
      && c < |s.collectors| && s.collectors[c].Enqueueing? && s.collectors[c].sent < |s.collectors[c].batches|
      && (answered ==> applied)
    case Move(c, applied, answered) =>
      && c < |s.collectors| && s.collectors[c].Enqueueing? && s.collectors[c].sent == |s.collectors[c].batches|
      && (answered ==> applied)
    case Restart(c) => c < |s.collectors|
  }

  ghost function Step(s: System, ev: Event): System
    requires Enabled(s, ev)
  {
    match ev
    case Tick(seconds) => s.(now := s.now + seconds)
    case Happen(a) => s.(world := s.world + {a})
    case Read(c) =>
      var cursor := if s.writer.Some? then s.writer.value.value else s.since;
      s.(collectors := s.collectors[c := Reading(s.writer, cursor)])
    case List(c, _, _, _, next, batches) =>
      var p := s.collectors[c];
      s.(collectors := s.collectors[c := Enqueueing(p.record, p.cursor, next, batches, 0)])
    case Enqueue(c, applied, answered) =>
      var p := s.collectors[c];
      s.(enqueued := if applied then s.enqueued + p.batches[p.sent] else s.enqueued,
         collectors := s.collectors[c := if answered then p.(sent := p.sent + 1) else Resting])
    case Move(c, applied, answered) =>
      var p := s.collectors[c];
      var version := if s.writer.Some? then s.writer.value.version + 1 else 0;
      s.(writer := if applied && Matches(s, p.record) then Some(Cursor(version, p.next)) else s.writer,
         collectors := s.collectors[c := Resting])
    case Restart(c) => s.(collectors := s.collectors[c := Resting])
  }

  ghost function Exec(s: System, events: seq<Event>): System
    decreases |events|
  {
    if events == [] then s
    else Exec(if Enabled(s, events[0]) then Step(s, events[0]) else s, events[1..])
  }

  ghost predicate Initial(s: System) {
    && s.writer == None && s.enqueued == {} && s.world == {}
    && forall c :: 0 <= c < |s.collectors| ==> s.collectors[c] == Resting
  }

  // ----- the invariant ---------------------------------------------------------------------

  /** Where the writer's cursor stands, or would start from. */
  function Position(s: System): Key {
    if s.writer.Some? then s.writer.value.value else s.since
  }

  /** All evidence of what happened after `lo` and not after `hi`. */
  ghost predicate Holds(s: System, lo: int, hi: int, evidence: set<Activity>) {
    forall a :: a in s.world && a.issue !in s.excluded && lo < a.time <= hi ==> a in evidence
  }

  /** New activity cannot happen at or before this key any more, except before the starting point. */
  predicate SettledKey(s: System, k: Key) {
    k == s.since || k.time <= s.now - s.settle
  }

  /** A collector's record is current exactly when the writer's cursor still has its value. */
  predicate RecordOk(s: System, record: Option<Cursor>, cursor: Key) {
    && (record == None ==> cursor == s.since)
    && (record.Some? ==>
          && s.writer.Some? && record.value.value == cursor && record.value.version <= s.writer.value.version
          && (record.value.version == s.writer.value.version ==> record == s.writer))
  }

  ghost predicate CollectorOk(s: System, p: Phase) {
    match p
    case Resting => true
    case Reading(record, cursor) => RecordOk(s, record, cursor) && SettledKey(s, cursor)
    case Enqueueing(record, cursor, next, batches, sent) =>
      && RecordOk(s, record, cursor) && SettledKey(s, cursor)
      && (next == cursor || (After(next, cursor) && next.time <= s.now - s.settle))
      && (next != cursor ==> Holds(s, cursor.time, next.time, Union(batches)))
      && sent <= |batches| && Union(batches[..sent]) <= s.enqueued
  }

  ghost predicate Inv(s: System) {
    && SettledKey(s, Position(s))
    && Holds(s, s.since.time, Position(s).time, s.enqueued)
    && forall c :: 0 <= c < |s.collectors| ==> CollectorOk(s, s.collectors[c])
  }

  lemma {:induction false} UnionSnoc(batches: seq<set<Activity>>, last: set<Activity>)
    ensures Union(batches + [last]) == Union(batches) + last
  {
    if batches == [] {
      assert (batches + [last])[1..] == [];
    } else {
      assert (batches + [last])[1..] == batches[1..] + [last];
      UnionSnoc(batches[1..], last);
    }
  }

  /** What a listing reports reaches up to its next cursor, and the next cursor is settled. */
  lemma ListingHolds(s: System, cursor: Key, asOf: int, rows: seq<Row>, seen: set<Activity>, next: Key)
    requires asOf <= s.now - s.settle && Sees(asOf, rows, seen, s.world) && IsNext(cursor, asOf, rows, next)
    ensures next == cursor || (After(next, cursor) && next.time <= s.now - s.settle)
    ensures next != cursor ==> Holds(s, cursor.time, next.time, Reported(cursor, asOf, rows, s.excluded, seen))
  {
    if next != cursor {
      forall a | a in s.world && a.issue !in s.excluded && cursor.time < a.time <= next.time
        ensures a in Reported(cursor, asOf, rows, s.excluded, seen)
      {
        RunReports(cursor, asOf, rows, seen, s.world, s.excluded, a);
      }
    }
  }

  lemma EnqueueKeeps(s: System, ev: Event)
    requires ev.Enqueue? && Inv(s) && Enabled(s, ev)
    ensures Inv(Step(s, ev))
  {
    var t := Step(s, ev);
    forall c | 0 <= c < |t.collectors| ensures CollectorOk(t, t.collectors[c]) {
      assert CollectorOk(s, s.collectors[c]);
      if c == ev.c && ev.answered {
        var p := s.collectors[c];
        assert p.batches[..p.sent + 1] == p.batches[..p.sent] + [p.batches[p.sent]];
        UnionSnoc(p.batches[..p.sent], p.batches[p.sent]);
      }
    }
  }

  lemma MoveKeeps(s: System, ev: Event)
    requires ev.Move? && Inv(s) && Enabled(s, ev)
    ensures Inv(Step(s, ev))
  {
    var t := Step(s, ev);
    var p := s.collectors[ev.c];
    assert CollectorOk(s, p);
    if ev.applied && Matches(s, p.record) {
      assert Position(s) == p.cursor;
      assert p.batches[..p.sent] == p.batches;
      forall a | a in t.world && a.issue !in t.excluded && t.since.time < a.time <= p.next.time
        ensures a in t.enqueued
      {
        if a.time > p.cursor.time { assert a in Union(p.batches); }
      }
    }
    forall c | 0 <= c < |t.collectors| ensures CollectorOk(t, t.collectors[c]) {
      assert CollectorOk(s, s.collectors[c]);
    }
  }

  lemma OtherKeeps(s: System, ev: Event)
    requires !ev.Enqueue? && !ev.Move? && Inv(s) && Enabled(s, ev)
    ensures Inv(Step(s, ev))
  {
    var t := Step(s, ev);
    if ev.List? {
      ListingHolds(s, s.collectors[ev.c].cursor, ev.asOf, ev.rows, ev.seen, ev.next);
    }
    forall c | 0 <= c < |t.collectors| ensures CollectorOk(t, t.collectors[c]) {
      assert CollectorOk(s, s.collectors[c]);
      if ev.List? && c == ev.c {
        assert ev.batches[..0] == [];
      }
    }
  }

  /**
   Evidence before cursor: in every interleaving of the collectors, whatever crashes, is lost or is sent
   again, all activity on issues that are not excluded, after the configured starting point and not after
   the writer's cursor, has already been enqueued.
   */
  lemma {:induction false} EvidenceBeforeCursor(s: System, events: seq<Event>)
    requires Initial(s) || Inv(s)
    ensures var t := Exec(s, events);
            && Inv(t)
            && forall a :: a in t.world && a.issue !in t.excluded && t.since.time < a.time <= Position(t).time
                 ==> a in t.enqueued
    decreases |events|
  {
    assert Inv(s);
    if events != [] {
      var ev := events[0];
      if Enabled(s, ev) {
        if ev.Enqueue? { EnqueueKeeps(s, ev); }
        else if ev.Move? { MoveKeeps(s, ev); }
        else { OtherKeeps(s, ev); }
      }
      EvidenceBeforeCursor(if Enabled(s, ev) then Step(s, ev) else s, events[1..]);
    }
  }

  // ----- why it takes the compare-and-swap and the order -----------------------------------

  /** The cursor moves only when it still is the record the collector read, and only by that collector. */
  lemma OnlyACurrentReaderMoves(s: System, ev: Event)
    requires Inv(s) && Enabled(s, ev)
    ensures Step(s, ev).writer != s.writer ==>
              && ev.Move? && ev.applied
              && s.collectors[ev.c].record == s.writer && s.collectors[ev.c].cursor == Position(s)
              && Union(s.collectors[ev.c].batches) <= s.enqueued
  {
    if ev.Move? {
      var p := s.collectors[ev.c];
      assert CollectorOk(s, p);
      assert p.batches[..p.sent] == p.batches;
    }
  }

  /** Of two collectors that read the same cursor, the first moves it to where its listing ends; the other is refused. */
  lemma OneMovePerRead(s: System, first: nat, second: nat)
    requires Inv(s) && first != second
    requires Enabled(s, Move(first, true, true)) && Enabled(s, Move(second, true, true))
    requires s.collectors[first].record == s.collectors[second].record == s.writer
    ensures var t := Step(s, Move(first, true, true));
            && t.writer != s.writer && Position(t) == s.collectors[first].next && Enabled(t, Move(second, true, true))
            && Step(t, Move(second, true, true)).writer == t.writer
  {
    assert CollectorOk(s, s.collectors[first]) && CollectorOk(s, s.collectors[second]);
  }

  // ----- progress --------------------------------------------------------------------------

  /** `b` is `a` or a later key. */
  predicate Reaches(b: Key, a: Key) {
    b == a || After(b, a)
  }

  lemma PositionStep(s: System, ev: Event)
    requires Inv(s) && Enabled(s, ev)
    ensures Reaches(Position(Step(s, ev)), Position(s)) && Step(s, ev).since == s.since
  {
    if ev.Move? { assert CollectorOk(s, s.collectors[ev.c]); }
  }

  /** In no run does the cursor ever go back. */
  lemma {:induction false} PositionNeverGoesBack(s: System, events: seq<Event>)
    requires Initial(s) || Inv(s)
    ensures Reaches(Position(Exec(s, events)), Position(s))
    decreases |events|
  {
    assert Inv(s);
    if events != [] {
      var ev := events[0];
      if Enabled(s, ev) {
        var t := Step(s, ev);
        PositionStep(s, ev);
        EvidenceBeforeCursor(s, [ev]);
        assert [ev][1..] == [] && Exec(s, [ev]) == t;
        PositionNeverGoesBack(t, events[1..]);
        if Position(Exec(t, events[1..])) != Position(t) && Position(t) != Position(s) {
          AfterIsTransitive(Position(Exec(t, events[1..])), Position(t), Position(s));
        }
      } else {
        PositionNeverGoesBack(s, events[1..]);
      }
    }
  }

  /** Collectors other than `c` do what they like but move the cursor; `c` itself sends batches. */
  ghost predicate Undisturbed(events: seq<Event>, c: nat) {
    forall k :: 0 <= k < |events| ==>
      match events[k]
      case Tick(_) => true
      case Happen(_) => true
      case Read(d) => d != c
      case List(d, _, _, _, _, _) => d != c
      case Enqueue(d, applied, answered) => d == c ==> answered
      case Move(_, _, _) => false
      case Restart(d) => d != c
  }

  /** What does not change for `c` while nobody moves the cursor. */
  ghost predicate StillCurrent(s: System, t: System, c: nat)
    requires c < |s.collectors|
  {
    && t.writer == s.writer && t.since == s.since && |t.collectors| == |s.collectors|
    && match s.collectors[c]
       case Resting => t.collectors[c].Resting?
       case Reading(record, cursor) => t.collectors[c] == Reading(record, cursor)
       case Enqueueing(record, cursor, next, batches, _) =>
         && t.collectors[c].Enqueueing? && t.collectors[c].record == record && t.collectors[c].cursor == cursor
         && t.collectors[c].next == next && t.collectors[c].batches == batches
  }

  lemma {:induction false} NobodyMoves(s: System, events: seq<Event>, c: nat)
    requires c < |s.collectors| && Undisturbed(events, c)
    ensures StillCurrent(s, Exec(s, events), c)
    decreases |events|
  {
    if events != [] {
      var ev := events[0];
      var t := if Enabled(s, ev) then Step(s, ev) else s;
      assert Undisturbed(events[1..], c) by {
        assert forall k :: 0 <= k < |events| - 1 ==> events[1..][k] == events[k + 1];
      }
      assert StillCurrent(s, t, c);
      NobodyMoves(t, events[1..], c);
    }
  }

  /**
   Progress: a collector that reads the cursor, lists, sends all its batches and gets its move through,
   while nobody else moves the cursor, has taken in everything settled that it listed: no such row is
   after the cursor any more, and the cursor did not go back.
   */
  lemma RunTakesAllSettled(s: System, c: nat, early: seq<Event>, list: Event, late: seq<Event>)
    requires Inv(s) && Enabled(s, Read(c)) && Undisturbed(early, c) && Undisturbed(late, c)
    requires list.List? && list.c == c && Enabled(Exec(Step(s, Read(c)), early), list)
    requires Enabled(Exec(Step(Exec(Step(s, Read(c)), early), list), late), Move(c, true, true))
    ensures var t := Step(Exec(Step(Exec(Step(s, Read(c)), early), list), late), Move(c, true, true));
            && (forall k :: 0 <= k < |list.rows| && list.rows[k].changed <= list.asOf ==>
                  !After(KeyOf(list.rows[k]), Position(t)))
            && Reaches(Position(t), Position(s))
  {
    var read := Step(s, Read(c));
    var reading := Exec(read, early);
    var listed := Step(reading, list);
    var sent := Exec(listed, late);
    NobodyMoves(read, early, c);
    NobodyMoves(listed, late, c);
    var p, t := sent.collectors[c], Step(sent, Move(c, true, true));
    assert p.cursor == Position(s) && IsNext(p.cursor, list.asOf, list.rows, p.next);
    assert Matches(sent, p.record) && Position(t) == p.next;
    forall k | 0 <= k < |list.rows| && list.rows[k].changed <= list.asOf
      ensures !After(KeyOf(list.rows[k]), Position(t))
    {
      NothingSettledIsLeft(p.cursor, list.asOf, list.rows, p.next, k);
    }
  }

  lemma NothingSettledIsLeft(cursor: Key, asOf: int, rows: seq<Row>, next: Key, k: nat)
    requires IsNext(cursor, asOf, rows, next) && k < |rows| && rows[k].changed <= asOf
    ensures !After(KeyOf(rows[k]), next)
  {
    var key := KeyOf(rows[k]);
    AfterIsTotal(key, next);
    AfterIsTotal(key, cursor);
    if After(key, next) {
      if next != cursor { AfterIsTransitive(key, next, cursor); }
      assert Settled(cursor, asOf, rows[k]);
      AfterIsTotal(next, key);
      if After(next, key) { AfterIsTransitive(key, next, key); }
    }
  }

  // ----- the collector itself --------------------------------------------------------------

  const BATCH := 20

  /** `items[start:start + BATCH]` for each start. */
  function Batches(items: seq<Activity>): (r: seq<seq<Activity>>)
    decreases |items|
  {
    if items == [] then []
    else if |items| <= BATCH then [items]
    else [items[..BATCH]] + Batches(items[BATCH..])
  }

  function InTurn(batches: seq<seq<Activity>>): seq<Activity> {
    if batches == [] then [] else batches[0] + InTurn(batches[1..])
  }

  /** The batches are the items in order; every one has twenty but the last, which has some. */
  lemma {:induction false} BatchesAre(items: seq<Activity>)
    ensures var batches := Batches(items);
            && InTurn(batches) == items
            && (forall i :: 0 <= i < |batches| ==> 0 < |batches[i]| <= 20)
            && (forall i :: 0 <= i < |batches| - 1 ==> |batches[i]| == 20)
    decreases |items|
  {
    if items == [] {
    } else if |items| <= BATCH {
      assert InTurn([items]) == items + InTurn([items][1..]) == items;
    } else {
      BatchesAre(items[BATCH..]);
      var rest := Batches(items[BATCH..]);
      assert Batches(items)[1..] == rest && items == items[..BATCH] + items[BATCH..];
    }
  }

  function AsSets(batches: seq<seq<Activity>>): seq<set<Activity>> {
    seq(|batches|, i requires 0 <= i < |batches| => set a | a in batches[i])
  }

  /** Cutting into batches loses nothing. */
  lemma {:induction false} BatchesAreWhole(items: seq<Activity>)
    ensures Union(AsSets(Batches(items))) == set a | a in items
    decreases |items|
  {
    if items == [] {
    } else if |items| <= BATCH {
      assert AsSets(Batches(items))[1..] == [];
    } else {
      BatchesAreWhole(items[BATCH..]);
      assert AsSets(Batches(items))[1..] == AsSets(Batches(items[BATCH..]));
      assert items == items[..BATCH] + items[BATCH..];
    }
  }
}
