/** Which builds earn an extra attempt, and when each of them earns at most one. */
module LedgerBuilds {
  import opened Prelude
  import opened Ledger
  import opened LedgerBounds

  /** The builds that `/health` reported to the POSTs of one stage of one entry, oldest first. */
  function Reports(events: seq<Event>, i: nat, st: Stage): seq<string> {
    if events == [] then [] else Report(events[0], i, st) + Reports(events[1..], i, st)
  }

  function Report(ev: Event, i: nat, st: Stage): seq<string> {
    if ev.Submit? && ev.i == i && ev.st == st && ev.health.Some? then [ev.health.value] else []
  }

  lemma {:induction false} ReportsAppend(a: seq<Event>, b: seq<Event>, i: nat, st: Stage)
    ensures Reports(a + b, i, st) == Reports(a, i, st) + Reports(b, i, st)
    decreases |a|
  {
    if a == [] {
      assert a + b == b;
    } else {
      assert (a + b)[0] == a[0] && (a + b)[1..] == a[1..] + b;
      ReportsAppend(a[1..], b, i, st);
    }
  }

  lemma ReportsOne(ev: Event, i: nat, st: Stage)
    ensures Reports([ev], i, st) == Report(ev, i, st)
  {
    assert [ev][1..] == [];
  }

  /** The event is a POST of this stage that spends the build reported to it. */
  predicate Spends(m: Machine, ev: Event, i: nat, st: Stage)
    requires i < |m.disk|
  {
    Enabled(m, ev) && ev.Submit? && ev.i == i && ev.st == st && MaySubmit(m.disk[i], st, ev.health).extra.Some?
  }

  /** One event of a run. */
  function Next(m: Machine, ev: Event): Machine {
    if Enabled(m, ev) then Step(m, ev) else m
  }

  lemma GrantedNext(m: Machine, ev: Event, i: nat, st: Stage)
    requires i < |m.disk| == |m.grants|
    ensures i < |Next(m, ev).disk| == |Next(m, ev).grants|
    ensures Granted(Next(m, ev).grants[i], st) ==
            Granted(m.grants[i], st) + if Spends(m, ev, i, st) then Report(ev, i, st) else []
    ensures Spends(m, ev, i, st) ==> Report(ev, i, st) == [ev.health.value]
  {
    if Enabled(m, ev) {
      if ev.Submit? { ExtraIsReported(m.disk[ev.i], ev.st, ev.health); }
      GrantsAfter(m, ev);
    }
  }

  lemma ExtraIsReported(e: Entry, st: Stage, health: Option<string>)
    requires MaySubmit(e, st, health).Allowed?
    ensures var extra := MaySubmit(e, st, health).extra; extra == None || extra == health
  {}

  lemma GrantsAfter(m: Machine, ev: Event)
    requires |m.disk| == |m.grants| && Enabled(m, ev)
    ensures |Step(m, ev).disk| == |m.disk|
    ensures Step(m, ev).grants ==
            if ev.Submit? then
              m.grants[ev.i := Grant(m.grants[ev.i], ev.st, MaySubmit(m.disk[ev.i], ev.st, ev.health).extra)]
            else m.grants
  {}

  /** No report returns to a build that the reports left. */
  ghost predicate NeverReturns(h: seq<string>) {
    forall a, b, c :: 0 <= a < b < c < |h| && h[a] == h[c] ==> h[b] == h[a]
  }

  /** The positions `at` of `h`, in order, hold `part`. */
  ghost predicate At(part: seq<string>, h: seq<string>, at: seq<nat>) {
    && |at| == |part|
    && (forall k :: 0 <= k < |at| ==> at[k] < |h| && h[at[k]] == part[k])
    && (forall j, k :: 0 <= j < k < |at| ==> at[j] < at[k])
  }

  /** The whole report is a grant: what `h` begins with is dropped, or begins `part` too. */
  lemma AtCons(part: seq<string>, h: seq<string>, at: seq<nat>, first: seq<string>, taken: bool) returns (r: seq<nat>)
    requires At(part, h, at) && |first| <= 1 && (taken ==> first != [])
    ensures At((if taken then first else []) + part, first + h, r)
  {
    var moved := seq(|at|, k requires 0 <= k < |at| => at[k] + |first|);
    r := (if taken then [0] else []) + moved;
    var whole := first + h;
    forall k | 0 <= k < |r| ensures r[k] < |whole| && whole[r[k]] == ((if taken then first else []) + part)[k] {
      var j := if taken then k - 1 else k;
      if j >= 0 { assert r[k] == at[j] + |first| && whole[r[k]] == h[at[j]]; }
    }
    forall j, k | 0 <= j < k < |r| ensures r[j] < r[k] {
      assert taken && j == 0 ==> r[j] == 0;
    }
  }

  lemma GrantCons(had: seq<string>, has: seq<string>, end: seq<string>, first: seq<string>, taken: bool,
                  part: seq<string>, h: seq<string>, at: seq<nat>)
    returns (whole: seq<string>, r: seq<nat>)
    requires has == had + (if taken then first else []) && end == has + part && At(part, h, at)
    requires |first| <= 1 && (taken ==> first != [])
    ensures end == had + whole && At(whole, first + h, r)
  {
    whole := (if taken then first else []) + part;
    r := AtCons(part, h, at, first, taken);
  }

  /** Every grant of a run was reported to it, in this order. */
  lemma {:induction false} GrantsAreReported(m: Machine, events: seq<Event>, i: nat, st: Stage)
    returns (part: seq<string>, at: seq<nat>)
    requires i < |m.disk| == |m.grants|
    ensures i < |Exec(m, events).grants| && Granted(Exec(m, events).grants[i], st) == Granted(m.grants[i], st) + part
    ensures At(part, Reports(events, i, st), at)
    decreases |events|
  {
    part, at := [], [];
    if events != [] {
      var ev := events[0];
      GrantedNext(m, ev, i, st);
      part, at := GrantsAreReported(Next(m, ev), events[1..], i, st);
      part, at := GrantCons(Granted(m.grants[i], st), Granted(Next(m, ev).grants[i], st),
        Granted(Exec(m, events).grants[i], st), Report(ev, i, st), Spends(m, ev, i, st),
        part, Reports(events[1..], i, st), at);
    }
  }

  lemma PartNeverReturns(part: seq<string>, h: seq<string>, at: seq<nat>)
    requires At(part, h, at) && NeverReturns(h)
    ensures NeverReturns(part)
  {
    forall a, b, c | 0 <= a < b < c < |part| && part[a] == part[c] ensures part[b] == part[a] {
      assert h[at[a]] == h[at[c]] && at[a] < at[b] < at[c];
    }
  }

  /** A list that never repeats at once and never returns is free of repeats. */
  lemma NoReturnNoRepeat(s: seq<string>)
    requires NeverReturns(s) && forall k :: 0 <= k < |s| - 1 ==> s[k] != s[k + 1]
    ensures Distinct(s)
  {
    forall a, c | 0 <= a < c < |s| ensures s[a] != s[c] {
      assert s[a] != s[a + 1];
    }
  }

  /**
   In every run whose reports to a stage never return to a build they left, each build earns at most one
   extra attempt of that stage, as the program means it to.
   */
  lemma BuildsEarnOnce(m: Machine, events: seq<Event>, i: nat, st: Stage)
    requires Initial(m) && i < |m.disk| && NeverReturns(Reports(events, i, st))
    ensures i < |Exec(m, events).grants| && Distinct(Granted(Exec(m, events).grants[i], st))
  {
    var part, at := GrantsAreReported(m, events, i, st);
    PartNeverReturns(part, Reports(events, i, st), at);
    GrantsNeverRepeat(m, events, i, st);
    assert Granted(Exec(m, events).grants[i], st) == part;
    NoReturnNoRepeat(part);
  }

  /** One POST makes a build earn twice if and only if it spends a build that some earlier POST spent. */
  lemma RepeatsWhenSpentBefore(m: Machine, ev: Event, i: nat, st: Stage)
    requires |m.grants| == |m.disk| && i < |m.disk| && Enabled(m, ev) && Distinct(Granted(m.grants[i], st))
    ensures
      !Distinct(Granted(Step(m, ev).grants[i], st)) <==>
      Spends(m, ev, i, st) && ev.health.value in Granted(m.grants[i], st)
  {
    var had, has := Granted(m.grants[i], st), Granted(Step(m, ev).grants[i], st);
    GrantedNext(m, ev, i, st);
    if Spends(m, ev, i, st) {
      assert has == had + [ev.health.value];
      if ev.health.value in had {
        var k :| 0 <= k < |had| && had[k] == ev.health.value;
        assert has[k] == has[|had|];
      }
    } else {
      assert has == had;
    }
  }
}
