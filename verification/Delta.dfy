/**
 One run of `issue_delta.run`: the issues changed after a cursor, the activity to report for them, and
 the next cursor, which only settled changes may move. Times are integers of the finest resolution.
 */
module Delta {
  import opened Prelude
  import opened Strings

  /** The cursor and the sort key of an issue: when it changed, then its id. */
  datatype Key = Key(time: int, id: string)

  predicate After(a: Key, b: Key) {
    a.time > b.time || (a.time == b.time && Before(b.id, a.id))
  }

  /** An issue as listed: `changed` is max(updated_at, last_activity_at). */
  datatype Row = Row(id: string, changed: int)

  /** A comment, a status change or an edit of an issue. */
  datatype Activity = Activity(issue: string, time: int, uid: string)

  function KeyOf(row: Row): Key {
    Key(row.changed, row.id)
  }

  predicate InWindow(cursor: Key, row: Row) {
    After(KeyOf(row), cursor)
  }

  predicate Settled(cursor: Key, asOf: int, row: Row) {
    InWindow(cursor, row) && row.changed <= asOf
  }

  /** The activity a run reports: of the listed window, without the excluded issues, up to `asOf`. */
  ghost function Reported(cursor: Key, asOf: int, rows: seq<Row>, excluded: set<string>, seen: set<Activity>): set<Activity> {
    set a | a in seen && a.issue !in excluded && cursor.time < a.time <= asOf
            && exists k :: 0 <= k < |rows| && rows[k].id == a.issue && InWindow(cursor, rows[k])
  }

  /** The next cursor is the latest settled key of the window, or the old cursor. */
  ghost predicate IsNext(cursor: Key, asOf: int, rows: seq<Row>, next: Key) {
    && (next == cursor || exists k :: 0 <= k < |rows| && Settled(cursor, asOf, rows[k]) && KeyOf(rows[k]) == next)
    && (forall k :: 0 <= k < |rows| && Settled(cursor, asOf, rows[k]) ==> next == KeyOf(rows[k]) || After(next, KeyOf(rows[k])))
  }

  lemma AfterIsTransitive(a: Key, b: Key, c: Key)
    requires After(a, b) && After(b, c)
    ensures After(a, c)
  {
    if a.time == b.time == c.time { BeforeIsTransitive(c.id, b.id, a.id); }
  }

  lemma AfterIsTotal(a: Key, b: Key)
    ensures After(a, b) || a == b || After(b, a)
    ensures !After(a, a)
  {
    BeforeIsTotal(a.id, b.id);
    BeforeIsIrreflexive(a.id);
  }

  // ----- the run ---------------------------------------------------------------------------

  ghost predicate SortedRows(s: seq<Row>) {
    forall i, j :: 0 <= i < j < |s| ==> s[i] == s[j] || After(KeyOf(s[j]), KeyOf(s[i]))
  }

  lemma InsertSorted(s: seq<Row>, i: nat, row: Row)
    requires SortedRows(s) && i <= |s|
    requires forall k :: i <= k < |s| ==> After(KeyOf(s[k]), KeyOf(row))
    requires i > 0 ==> !After(KeyOf(s[i - 1]), KeyOf(row))
    ensures SortedRows(s[..i] + [row] + s[i..])
  {
    forall k | 0 <= k < i ensures s[k] == row || After(KeyOf(row), KeyOf(s[k])) {
      AfterIsTotal(KeyOf(row), KeyOf(s[i - 1]));
      if k < i - 1 && s[k] != s[i - 1] && s[i - 1] != row {
        AfterIsTransitive(KeyOf(row), KeyOf(s[i - 1]), KeyOf(s[k]));
      }
    }
    var r := s[..i] + [row] + s[i..];
    forall a, b | 0 <= a < b < |r| ensures r[a] == r[b] || After(KeyOf(r[b]), KeyOf(r[a])) {
      if b < i {
        assert r[a] == s[a] && r[b] == s[b];
      } else if a > i {
        assert r[a] == s[a - 1] && r[b] == s[b - 1];
      } else if a < i && b > i {
        assert r[a] == s[a] && r[b] == s[b - 1];
      }
    }
  }

  /** `window.append` followed by `window.sort`, one row at a time. */
  method Insert(s: seq<Row>, row: Row) returns (r: seq<Row>)
    requires SortedRows(s)
    ensures SortedRows(r) && multiset(r) == multiset(s) + multiset{row}
  {
    var i := |s|;
    while i > 0 && After(KeyOf(s[i - 1]), KeyOf(row))
      invariant 0 <= i <= |s|
      invariant forall k :: i <= k < |s| ==> After(KeyOf(s[k]), KeyOf(row))
    {
      i := i - 1;
    }
    r := s[..i] + [row] + s[i..];
    assert s == s[..i] + s[i..];
    InsertSorted(s, i, row);
  }

  /** The window of a run, in key order. */
  method Window(cursor: Key, rows: seq<Row>) returns (window: seq<Row>)
    ensures SortedRows(window)
    ensures forall row :: row in window <==> row in rows && InWindow(cursor, row)
  {
    window := [];
    for k := 0 to |rows|
      invariant SortedRows(window)
      invariant forall row :: row in window <==> row in rows[..k] && InWindow(cursor, row)
    {
      if InWindow(cursor, rows[k]) {
        var grown := Insert(window, rows[k]);
        forall row ensures row in grown <==> row in window || row == rows[k] {
          assert row in multiset(grown) <==> row in multiset(window) + multiset{rows[k]};
        }
        window := grown;
      }
      assert rows[..k + 1] == rows[..k] + [rows[k]];
    }
    assert rows[..|rows|] == rows;
  }

  /** `activity` is what the server has for the listed issues; each issue is asked for separately. */
  method Run(cursor: Key, asOf: int, rows: seq<Row>, excluded: set<string>, activity: seq<Activity>)
    returns (next: Key, reported: seq<Activity>)
    ensures IsNext(cursor, asOf, rows, next)
    ensures (set a | a in reported) == Reported(cursor, asOf, rows, excluded, set a | a in activity)
  {
    var window := Window(cursor, rows);
    next, reported := cursor, [];
    for k := 0 to |window|
      invariant next == cursor || exists j :: 0 <= j < k && window[j].changed <= asOf && KeyOf(window[j]) == next
      invariant forall j :: 0 <= j < k && window[j].changed <= asOf ==>
                  next == KeyOf(window[j]) || After(next, KeyOf(window[j]))
      invariant forall a :: a in reported <==>
                  && a in activity && a.issue !in excluded && cursor.time < a.time <= asOf
                  && exists j :: 0 <= j < k && window[j].id == a.issue
    {
      var row := window[k];
      if row.changed <= asOf {
        next := KeyOf(row);
      }
      if row.id !in excluded {
        var found := Comments(row.id, cursor.time, asOf, activity);
        reported := reported + found;
      }
    }
    forall a: Activity ensures
      (exists j :: 0 <= j < |window| && window[j].id == a.issue) <==>
      (exists k :: 0 <= k < |rows| && rows[k].id == a.issue && InWindow(cursor, rows[k]))
    {
      if j :| 0 <= j < |window| && window[j].id == a.issue {
        assert window[j] in rows;
      }
      if k :| 0 <= k < |rows| && rows[k].id == a.issue && InWindow(cursor, rows[k]) {
        assert rows[k] in window;
      }
    }
    if next != cursor {
      var j :| 0 <= j < |window| && window[j].changed <= asOf && KeyOf(window[j]) == next;
      assert window[j] in rows;
    }
    forall k | 0 <= k < |rows| && Settled(cursor, asOf, rows[k])
      ensures next == KeyOf(rows[k]) || After(next, KeyOf(rows[k]))
    {
      assert rows[k] in window;
    }
  }

  /** The in-window activity of one issue. */
  method Comments(issue: string, since: int, asOf: int, activity: seq<Activity>) returns (found: seq<Activity>)
    ensures forall a :: a in found <==> a in activity && a.issue == issue && since < a.time <= asOf
  {
    found := [];
    for k := 0 to |activity|
      invariant forall a :: a in found <==> a in activity[..k] && a.issue == issue && since < a.time <= asOf
    {
      if activity[k].issue == issue && since < activity[k].time <= asOf {
        found := found + [activity[k]];
      }
      assert activity[..k + 1] == activity[..k] + [activity[k]];
    }
    assert activity[..|activity|] == activity;
  }

  // ----- many runs -------------------------------------------------------------------------

  /** A finished run. */
  datatype Record = Record(cursor: Key, asOf: int, rows: seq<Row>, seen: set<Activity>, next: Key)

  ghost function Found(r: Record, excluded: set<string>): set<Activity> {
    Reported(r.cursor, r.asOf, r.rows, excluded, r.seen)
  }

  /** What happened up to `asOf` is visible to the listing: the issue is listed as changed no earlier. */
  ghost predicate Sees(asOf: int, rows: seq<Row>, seen: set<Activity>, world: set<Activity>) {
    forall a :: a in world && a.time <= asOf ==> a in seen && Lists(rows, a)
  }

  ghost predicate Lists(rows: seq<Row>, a: Activity) {
    exists k :: 0 <= k < |rows| && rows[k].id == a.issue && rows[k].changed >= a.time
  }

  ghost predicate Chained(runs: seq<Record>, world: set<Activity>) {
    && (forall k :: 0 <= k < |runs| ==>
          && IsNext(runs[k].cursor, runs[k].asOf, runs[k].rows, runs[k].next)
          && Sees(runs[k].asOf, runs[k].rows, runs[k].seen, world))
    && (forall k :: 0 < k < |runs| ==> runs[k].cursor == runs[k - 1].next)
  }

  /** A row is in the window when it changed after the cursor, or at its time under an id that comes later. */
  lemma WindowMeans(cursor: Key, row: Row)
    ensures InWindow(cursor, row) <==>
            row.changed > cursor.time || (row.changed == cursor.time && Earlier(cursor.id, row.id))
  {
    BeforeMeans(cursor.id, row.id);
  }

  /** What a run reports came after its cursor and not after its `asOf`, on an issue that changed after the cursor. */
  lemma ReportedIsNew(cursor: Key, asOf: int, rows: seq<Row>, seen: set<Activity>, excluded: set<string>, a: Activity)
    requires a in Reported(cursor, asOf, rows, excluded, seen)
    ensures a in seen && a.issue !in excluded && cursor.time < a.time <= asOf
    ensures exists row :: row in rows && row.id == a.issue &&
              (row.changed > cursor.time || (row.changed == cursor.time && Earlier(cursor.id, row.id)))
  {
    var k :| 0 <= k < |rows| && rows[k].id == a.issue && InWindow(cursor, rows[k]);
    WindowMeans(cursor, rows[k]);
    assert rows[k] in rows;
  }

  /** A run reports all activity between its cursor and its `asOf`, deferred issues included. */
  lemma RunReports(cursor: Key, asOf: int, rows: seq<Row>, seen: set<Activity>, world: set<Activity>,
                   excluded: set<string>, a: Activity)
    requires Sees(asOf, rows, seen, world)
    requires a in world && a.issue !in excluded && cursor.time < a.time <= asOf
    ensures a in Reported(cursor, asOf, rows, excluded, seen)
  {
    assert Lists(rows, a);
    var k :| 0 <= k < |rows| && rows[k].id == a.issue && rows[k].changed >= a.time;
    assert InWindow(cursor, rows[k]);
  }

  /** The cursor stays behind every `asOf` that moved it. */
  lemma {:induction false} CursorIsSettled(runs: seq<Record>, world: set<Activity>, k: nat, bound: int)
    requires Chained(runs, world) && k < |runs|
    requires forall j :: 0 <= j < k ==> runs[j].asOf < bound
    ensures runs[k].cursor == runs[0].cursor || runs[k].cursor.time < bound
  {
    if k > 0 {
      CursorIsSettled(runs, world, k - 1, bound);
      assert IsNext(runs[k - 1].cursor, runs[k - 1].asOf, runs[k - 1].rows, runs[k - 1].next);
    }
  }

  /**
   No gaps: over any chain of runs, whatever the order of their `asOf`, all activity on issues that are
   not excluded, later than the first cursor and at or before the `asOf` of some run, is reported, and
   already by the first run whose `asOf` reaches it.
   */
  lemma NoGaps(runs: seq<Record>, world: set<Activity>, excluded: set<string>, a: Activity, last: nat)
    returns (k: nat)
    requires Chained(runs, world) && last < |runs|
    requires a in world && a.issue !in excluded
    requires runs[0].cursor.time < a.time <= runs[last].asOf
    ensures k <= last && a in Found(runs[k], excluded)
    ensures forall j :: 0 <= j < k ==> runs[j].asOf < a.time
  {
    k := 0;
    while runs[k].asOf < a.time
      invariant k <= last
      invariant forall j :: 0 <= j < k ==> runs[j].asOf < a.time
      decreases last - k
    {
      k := k + 1;
    }
    CursorIsSettled(runs, world, k, a.time);
    assert Sees(runs[k].asOf, runs[k].rows, runs[k].seen, world);
    RunReports(runs[k].cursor, runs[k].asOf, runs[k].rows, runs[k].seen, world, excluded, a);
  }

  /**
   An issue that changed after the first cursor is listed in the window of some run as soon as an `asOf`
   reaches the change, also when another issue changed at the very same time.
   */
  lemma NoIssueIsSkipped(runs: seq<Record>, world: set<Activity>, a: Activity, last: nat) returns (k: nat, row: Row)
    requires Chained(runs, world) && last < |runs|
    requires a in world && After(Key(a.time, a.issue), runs[0].cursor) && a.time <= runs[last].asOf
    ensures k <= last && row in runs[k].rows && row.id == a.issue && row.changed >= a.time
    ensures InWindow(runs[k].cursor, row)
  {
    k := 0;
    while runs[k].asOf < a.time
      invariant k <= last
      invariant forall j :: 0 <= j < k ==> runs[j].asOf < a.time
      decreases last - k
    {
      k := k + 1;
    }
    CursorIsSettled(runs, world, k, a.time);
    assert Sees(runs[k].asOf, runs[k].rows, runs[k].seen, world);
    assert Lists(runs[k].rows, a);
    var i :| 0 <= i < |runs[k].rows| && runs[k].rows[i].id == a.issue && runs[k].rows[i].changed >= a.time;
    row := runs[k].rows[i];
  }
}
