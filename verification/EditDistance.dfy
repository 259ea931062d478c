/**
 The banded edit distance (`_distance`), and the choice of the one mistyped reference that is pointed at
 the current snapshot (`normalize_snapshot_reference`).
 */
module EditDistance {
  import opened Prelude

  function Min(a: int, b: int): int {
    if a < b then a else b
  }

  function Differ<C(==)>(a: C, b: C): nat {
    if a == b then 0 else 1
  }

  /** Levenshtein's recursion. */
  function D<C(==)>(a: seq<C>, b: seq<C>): (d: nat)
    ensures d >= |a| - |b| && d >= |b| - |a|
    decreases |a| + |b|
  {
    if a == [] then |b|
    else if b == [] then |a|
    else
      var a', b' := a[..|a| - 1], b[..|b| - 1];
      Min(Min(D(a', b) + 1, D(a, b') + 1), D(a', b') + Differ(a[|a| - 1], b[|b| - 1]))
  }

  // ----- what the recursion means ----------------------------------------------------------

  /** One step of turning one sequence into another, from left to right. */
  datatype Edit<C> = Keep(c: C) | Change(from: C, to: C) | Delete(c: C) | Insert(c: C)

  function From<C>(e: Edit<C>): seq<C> {
    match e
    case Keep(c) => [c]
    case Change(c, _) => [c]
    case Delete(c) => [c]
    case Insert(_) => []
  }

  function To<C>(e: Edit<C>): seq<C> {
    match e
    case Keep(c) => [c]
    case Change(_, c) => [c]
    case Delete(_) => []
    case Insert(c) => [c]
  }

  function Source<C>(script: seq<Edit<C>>): seq<C> {
    if script == [] then [] else Source(script[..|script| - 1]) + From(script[|script| - 1])
  }

  function Target<C>(script: seq<Edit<C>>): seq<C> {
    if script == [] then [] else Target(script[..|script| - 1]) + To(script[|script| - 1])
  }

  function Cost<C>(script: seq<Edit<C>>): nat {
    if script == [] then 0 else Cost(script[..|script| - 1]) + if script[|script| - 1].Keep? then 0 else 1
  }

  lemma DropLast<C>(s: seq<C>, c: C)
    ensures (s + [c])[..|s|] == s && (s + [c])[|s|] == c
  {}

  /** One more element on either side costs one at most. */
  lemma DGrows<C>(a: seq<C>, b: seq<C>, x: C)
    ensures D(a + [x], b) <= D(a, b) + 1
  {
    var more := a + [x];
    assert more[..|more| - 1] == a;
  }

  lemma DGrowsRight<C>(a: seq<C>, b: seq<C>, y: C)
    ensures D(a, b + [y]) <= D(a, b) + 1
  {
    var more := b + [y];
    assert more[..|more| - 1] == b;
  }

  lemma DMatches<C>(a: seq<C>, b: seq<C>, x: C, y: C)
    ensures D(a + [x], b + [y]) <= D(a, b) + Differ(x, y)
  {
    var left, right := a + [x], b + [y];
    assert left[..|left| - 1] == a && right[..|right| - 1] == b;
  }

  predicate Turns<C(==)>(script: seq<Edit<C>>, a: seq<C>, b: seq<C>) {
    Source(script) == a && Target(script) == b
  }

  lemma ScriptSnoc<C>(script: seq<Edit<C>>, a: seq<C>, b: seq<C>, e: Edit<C>)
    requires Turns(script, a, b)
    ensures Turns(script + [e], a + From(e), b + To(e))
    ensures Cost(script + [e]) == Cost(script) + if e.Keep? then 0 else 1
  {
    DropLast(script, e);
  }

  /** The recursion takes its minimum at some last step. */
  lemma BestLastStep<C>(a: seq<C>, b: seq<C>) returns (a': seq<C>, b': seq<C>, e: Edit<C>)
    requires a != [] || b != []
    ensures a == a' + From(e) && b == b' + To(e) && |a'| + |b'| < |a| + |b|
    ensures D(a, b) == D(a', b') + if e.Keep? then 0 else 1
  {
    var d := D(a, b);
    if a != [] && (b == [] || d == D(a[..|a| - 1], b) + 1) {
      a', b', e := a[..|a| - 1], b, Delete(a[|a| - 1]);
    } else if a == [] || d == D(a, b[..|b| - 1]) + 1 {
      a', b', e := a, b[..|b| - 1], Insert(b[|b| - 1]);
    } else {
      var x, y := a[|a| - 1], b[|b| - 1];
      a', b', e := a[..|a| - 1], b[..|b| - 1], if x == y then Keep(x) else Change(x, y);
    }
  }

  /** Some script of the distance's cost turns `a` into `b`. */
  lemma {:induction false} SomeScriptCosts<C>(a: seq<C>, b: seq<C>) returns (script: seq<Edit<C>>)
    ensures Turns(script, a, b) && Cost(script) == D(a, b)
    decreases |a| + |b|
  {
    if a == [] && b == [] {
      script := [];
    } else {
      var a', b', e := BestLastStep(a, b);
      var init := SomeScriptCosts(a', b');
      ScriptSnoc(init, a', b', e);
      script := init + [e];
    }
  }

  /** No script that turns one sequence into another costs less than their distance. */
  lemma {:induction false} NoScriptCostsLess<C>(script: seq<Edit<C>>)
    ensures D(Source(script), Target(script)) <= Cost(script)
    decreases |script|
  {
    if script != [] {
      var init, e := script[..|script| - 1], script[|script| - 1];
      NoScriptCostsLess(init);
      OneMore(Source(init), Target(init), e);
    }
  }

  lemma OneMore<C>(a: seq<C>, b: seq<C>, e: Edit<C>)
    ensures D(a + From(e), b + To(e)) <= D(a, b) + if e.Keep? then 0 else 1
  {
    match e {
      case Keep(c) => DMatches(a, b, c, c);
      case Change(c, d) => DMatches(a, b, c, d);
      case Delete(c) =>
        DGrows(a, b, c);
        assert b + To(e) == b;
      case Insert(c) =>
        DGrowsRight(a, b, c);
        assert a + From(e) == a;
    }
  }

  lemma {:induction false} Symmetric<C>(a: seq<C>, b: seq<C>)
    ensures D(a, b) == D(b, a)
    decreases |a| + |b|
  {
    if a != [] && b != [] {
      Symmetric(a[..|a| - 1], b);
      Symmetric(a, b[..|b| - 1]);
      Symmetric(a[..|a| - 1], b[..|b| - 1]);
    }
  }

  lemma {:induction false} ZeroIsEqual<C>(a: seq<C>, b: seq<C>)
    ensures D(a, b) == 0 <==> a == b
    decreases |a| + |b|
  {
    if a != [] && b != [] {
      ZeroIsEqual(a[..|a| - 1], b[..|b| - 1]);
      assert a == a[..|a| - 1] + [a[|a| - 1]] && b == b[..|b| - 1] + [b[|b| - 1]];
    }
  }

  lemma {:induction false} Triangle<C>(a: seq<C>, b: seq<C>, c: seq<C>)
    ensures D(a, c) <= D(a, b) + D(b, c)
    decreases |a| + |b| + |c|
  {
    if a != [] && c != [] {
      Triangle(a[..|a| - 1], b, c);
      Triangle(a, b, c[..|c| - 1]);
      if b != [] {
        var b' := b[..|b| - 1];
        Triangle(a, b', c);
        Triangle(a, b', c[..|c| - 1]);
        Triangle(a[..|a| - 1], b', c);
        Triangle(a[..|a| - 1], b', c[..|c| - 1]);
      }
    }
  }

  // ----- the band --------------------------------------------------------------------------

  /** A cell of the table, by the lengths of the two prefixes. */
  function Cell<C(==)>(a: seq<C>, b: seq<C>, i: nat, j: nat): nat
    requires i <= |a| && j <= |b|
  {
    D(a[..i], b[..j])
  }

  lemma CellStep<C>(a: seq<C>, b: seq<C>, i: nat, j: nat)
    requires i <= |a| && j <= |b|
    ensures i == 0 ==> Cell(a, b, i, j) == j
    ensures j == 0 ==> Cell(a, b, i, j) == i
    ensures i > 0 && j > 0 ==>
              Cell(a, b, i, j) == Min(Min(Cell(a, b, i - 1, j) + 1, Cell(a, b, i, j - 1) + 1),
                                      Cell(a, b, i - 1, j - 1) + Differ(a[i - 1], b[j - 1]))
    ensures Cell(a, b, i, j) >= i - j && Cell(a, b, i, j) >= j - i
  {
    if i > 0 { assert a[..i][..i - 1] == a[..i - 1]; }
    if j > 0 { assert b[..j][..j - 1] == b[..j - 1]; }
  }

  /** Once a whole row is over the limit, every later row is. */
  lemma {:induction false} RowsNeverShrink<C>(a: seq<C>, b: seq<C>, i: nat, k: nat, j: nat, limit: int)
    requires i <= k <= |a| && j <= |b|
    requires forall n :: 0 <= n <= |b| ==> Cell(a, b, i, n) > limit
    ensures Cell(a, b, k, j) > limit
    decreases k, j
  {
    CellStep(a, b, k, j);
    if k > i {
      RowsNeverShrink(a, b, i, k - 1, j, limit);
      if j > 0 {
        RowsNeverShrink(a, b, i, k - 1, j - 1, limit);
        RowsNeverShrink(a, b, i, k, j - 1, limit);
      } else {
        CellStep(a, b, k - 1, 0);
      }
    }
  }

  /** A row of the table as the program keeps it: nothing above `limit + 1` is told apart. */
  ghost predicate IsRow<C>(a: seq<C>, b: seq<C>, i: nat, row: seq<int>, limit: int)
    requires i <= |a|
  {
    |row| == |b| + 1 && forall j :: 0 <= j <= |b| ==> row[j] == Min(Cell(a, b, i, j), limit + 1)
  }

  lemma OutsideBand<C>(a: seq<C>, b: seq<C>, i: nat, limit: int)
    requires i <= |a|
    ensures forall n :: 0 <= n <= |b| && (n < i - limit || n > i + limit) ==> Cell(a, b, i, n) > limit
  {
    forall n | 0 <= n <= |b| && (n < i - limit || n > i + limit) ensures Cell(a, b, i, n) > limit {
      CellStep(a, b, i, n);
    }
  }

  /** A cell computed from capped neighbours is the capped cell. */
  lemma CappedStep<C>(a: seq<C>, b: seq<C>, i: nat, j: nat, above: int, left: int, corner: int, worst: int)
    requires 0 < i <= |a| && 0 < j <= |b|
    requires above == Min(Cell(a, b, i - 1, j), worst) && left == Min(Cell(a, b, i, j - 1), worst)
    requires corner == Min(Cell(a, b, i - 1, j - 1), worst)
    ensures Min(Min(Min(above + 1, left + 1), corner + Differ(a[i - 1], b[j - 1])), worst) == Min(Cell(a, b, i, j), worst)
  {
    CellStep(a, b, i, j);
  }

  /** The inner loop: one row from the row above it, inside the band only. */
  method NextRow<C(==)>(a: seq<C>, b: seq<C>, i: nat, limit: int, previous: array<int>) returns (current: array<int>)
    requires 0 < i <= |a| && limit >= 0 && IsRow(a, b, i - 1, previous[..], limit)
    ensures fresh(current) && IsRow(a, b, i, current[..], limit)
  {
    var worst := limit + 1;
    current := new int[|b| + 1](_ => worst);
    CellStep(a, b, i, 0);
    OutsideBand(a, b, i, limit);
    current[0] := if i <= limit then i else worst;
    var from := if i - limit > 1 then i - limit else 1;
    var upto := if i + limit < |b| then i + limit else |b|;
    var j := from;
    while j <= upto
      invariant from <= j && (j <= upto + 1 || j == from)
      invariant forall n :: 0 <= n < j && n <= |b| ==> current[n] == Min(Cell(a, b, i, n), worst)
      invariant forall n :: j <= n <= |b| ==> current[n] == worst
      decreases upto + 1 - j
    {
      assert previous[..][j] == previous[j] && previous[..][j - 1] == previous[j - 1];
      CappedStep(a, b, i, j, previous[j], current[j - 1], previous[j - 1], worst);
      current[j] := Min(Min(Min(previous[j] + 1, current[j - 1] + 1), previous[j - 1] + Differ(a[i - 1], b[j - 1])), worst);
      j := j + 1;
    }
    assert forall n :: 0 <= n <= |b| ==> current[..][n] == current[n];
  }

  /** `min(current)`. */
  method Least(row: array<int>) returns (least: int)
    requires row.Length > 0
    ensures least in row[..] && forall j :: 0 <= j < row.Length ==> least <= row[j]
  {
    least := row[0];
    for j := 1 to row.Length
      invariant least in row[..] && forall k :: 0 <= k < j ==> least <= row[k]
    {
      if row[j] < least { least := row[j]; }
    }
  }

  /** The distance when it is at most the limit, otherwise nothing; also for a limit below zero. */
  method Distance<C(==)>(a: seq<C>, b: seq<C>, limit: int) returns (r: Option<nat>)
    ensures r == if D(a, b) <= limit then Some(D(a, b)) else None
  {
    assert a[..|a|] == a && b[..|b|] == b;
    if |a| - |b| > limit || |b| - |a| > limit {
      return None;
    }
    var previous := new int[|b| + 1](j => if j <= limit then j else limit + 1);
    forall j | 0 <= j <= |b| ensures previous[j] == Min(Cell(a, b, 0, j), limit + 1) {
      CellStep(a, b, 0, j);
    }
    for i := 1 to |a| + 1
      invariant IsRow(a, b, i - 1, previous[..], limit)
    {
      var current := NextRow(a, b, i, limit, previous);
      var least := Least(current);
      if least > limit {
        forall n | 0 <= n <= |b| ensures Cell(a, b, i, n) > limit {
          assert current[..][n] == current[n];
        }
        RowsNeverShrink(a, b, i, |a|, |b|, limit);
        return None;
      }
      previous := current;
    }
    assert previous[..][|b|] == previous[|b|] && previous[|b|] == Min(D(a, b), limit + 1);
    r := if previous[|b|] <= limit then Some(previous[|b|]) else None;
  }

  // ----- the mistyped reference ------------------------------------------------------------

  /** `path.rsplit("/", 1)[-1]`. */
  function BaseName(path: string): string {
    if path == "" || path[|path| - 1] == '/' then "" else BaseName(path[..|path| - 1]) + [path[|path| - 1]]
  }

  /** The base name is what follows the last slash. */
  lemma {:induction false} BaseNameFollowsSlash(dir: string, name: string)
    requires '/' !in name
    ensures BaseName(dir + "/" + name) == name
    decreases |name|
  {
    var path := dir + "/" + name;
    if name != "" {
      var init, last := name[..|name| - 1], name[|name| - 1];
      assert path[..|path| - 1] == dir + "/" + init && path[|path| - 1] == last;
      assert last in name;
      BaseNameFollowsSlash(dir, init);
    }
  }

  function Limit(target: string): int {
    var share := if |target| / 16 < 8 then |target| / 16 else 8;
    if share > 1 then share else 1
  }

  /** One error is allowed in every sixteen characters, at least one and at most eight. */
  lemma LimitIs(target: string)
    ensures 1 <= Limit(target) <= 8
    ensures Limit(target) > 1 ==> 16 * Limit(target) <= |target|
    ensures Limit(target) < 8 ==> |target| < 16 * (Limit(target) + 1)
  {}

  /** The distance of a source that resolves to no existing file, when its name is nearly the snapshot's. */
  function Nearness(source: Option<string>, snapshot: string, existing: set<string>): Option<nat> {
    if source.Some? && source.value !in existing && D(BaseName(source.value), BaseName(snapshot)) <= Limit(BaseName(snapshot))
    then Some(D(BaseName(source.value), BaseName(snapshot)))
    else None
  }

  predicate Near(resolved: seq<Option<string>>, i: nat, snapshot: string, existing: set<string>) {
    i < |resolved| && Nearness(resolved[i], snapshot, existing).Some?
  }

  /** The name is strictly closer to the snapshot's than to that of any other existing source. */
  ghost predicate Closest(name: string, snapshot: string, existing: set<string>) {
    forall other :: other in existing && other != snapshot ==>
      D(name, BaseName(snapshot)) < D(name, BaseName(other))
  }

  /** The only near source, closest to the snapshot, of a concept that does not cite the snapshot yet. */
  ghost predicate Mistyped(resolved: seq<Option<string>>, i: nat, snapshot: string, existing: set<string>) {
    && Some(snapshot) !in resolved
    && Near(resolved, i, snapshot, existing) && (forall j :: Near(resolved, j, snapshot, existing) ==> j == i)
    && Closest(BaseName(resolved[i].value), snapshot, existing)
  }

  /** The indices that have a measure, in order and with it. */
  ghost predicate Collects(near: seq<(nat, nat)>, measures: seq<Option<nat>>) {
    && (forall k :: 0 <= k < |near| ==> near[k].0 < |measures| && measures[near[k].0] == Some(near[k].1))
    && (forall k, m :: 0 <= k < m < |near| ==> near[k].0 < near[m].0)
    && (forall i :: 0 <= i < |measures| && measures[i].Some? ==> exists k :: 0 <= k < |near| && near[k].0 == i)
  }

  lemma CollectsNext(near: seq<(nat, nat)>, measures: seq<Option<nat>>, i: nat)
    requires i < |measures| && Collects(near, measures[..i])
    ensures Collects(if measures[i].Some? then near + [(i, measures[i].value)] else near, measures[..i + 1])
  {
    var all, last := measures[..i + 1], measures[i];
    assert all[i] == last && forall k :: 0 <= k < i ==> all[k] == measures[..i][k];
    if last.Some? {
      var more := near + [(i, last.value)];
      assert more[|near|] == (i, last.value) && forall k :: 0 <= k < |near| ==> more[k] == near[k];
    }
  }

  function Measures(resolved: seq<Option<string>>, snapshot: string, existing: set<string>): seq<Option<nat>> {
    seq(|resolved|, i requires 0 <= i < |resolved| => Nearness(resolved[i], snapshot, existing))
  }

  method MeasureSources(resolved: seq<Option<string>>, snapshot: string, existing: set<string>)
    returns (measures: seq<Option<nat>>)
    ensures measures == Measures(resolved, snapshot, existing)
  {
    measures := [];
    for i := 0 to |resolved|
      invariant measures == Measures(resolved[..i], snapshot, existing)
    {
      var m := None;
      if resolved[i].Some? && resolved[i].value !in existing {
        m := Distance(BaseName(resolved[i].value), BaseName(snapshot), Limit(BaseName(snapshot)));
      }
      measures := measures + [m];
    }
    assert resolved[..|resolved|] == resolved;
  }

  /** `near`: every source that has a measure. */
  method NearSources(measures: seq<Option<nat>>) returns (near: seq<(nat, nat)>)
    ensures Collects(near, measures)
  {
    near := [];
    for i := 0 to |measures|
      invariant Collects(near, measures[..i])
    {
      CollectsNext(near, measures, i);
      if measures[i].Some? {
        near := near + [(i, measures[i].value)];
      }
    }
    assert measures[..|measures|] == measures;
  }

  /** Whether no other existing source has a name as close. */
  method NoRival(name: string, snapshot: string, existing: set<string>, distance: nat) returns (clear: bool)
    requires distance == D(name, BaseName(snapshot))
    ensures clear <==> Closest(name, snapshot, existing)
  {
    var others := existing - {snapshot};
    while others != {}
      invariant others <= existing - {snapshot}
      invariant forall other :: other in existing && other != snapshot && other !in others ==>
                  D(name, BaseName(snapshot)) < D(name, BaseName(other))
      decreases |others|
    {
      var other :| other in others;
      var rival := Distance(name, BaseName(other), distance);
      if rival.Some? {
        return false;
      }
      others := others - {other};
    }
    clear := true;
  }

  /** Which source is pointed at the snapshot: the mistyped one, and none when no source is mistyped. */
  method ChooseReference(resolved: seq<Option<string>>, snapshot: string, existing: set<string>) returns (r: Option<nat>)
    ensures r.Some? ==> Mistyped(resolved, r.value, snapshot, existing)
    ensures r == None ==> forall i :: !Mistyped(resolved, i, snapshot, existing)
  {
    if Some(snapshot) in resolved {
      return None;
    }
    var measures := MeasureSources(resolved, snapshot, existing);
    var near := NearSources(measures);
    assert forall i: nat :: Near(resolved, i, snapshot, existing) <==> i < |measures| && measures[i].Some?;
    if |near| != 1 {
      assert |near| > 1 ==> near[0].0 < near[1].0;
      return None;
    }
    assert forall i: nat :: Near(resolved, i, snapshot, existing) <==> i == near[0].0;
    var clear := NoRival(BaseName(resolved[near[0].0].value), snapshot, existing, near[0].1);
    r := if clear then Some(near[0].0) else None;
  }

  // ----- what the choice is for ------------------------------------------------------------

  /** The source names a file that does not exist. */
  predicate Unresolved(resolved: seq<Option<string>>, i: nat, existing: set<string>) {
    i < |resolved| && resolved[i].Some? && resolved[i].value !in existing
  }

  /** No source but `i` names a file that does not exist. */
  ghost predicate OnlyUnresolved(resolved: seq<Option<string>>, i: nat, existing: set<string>) {
    forall j: nat :: Unresolved(resolved, j, existing) ==> j == i
  }

  /** What the docstring asks for: exactly one source fails to resolve, and it is near and closest to the snapshot. */
  ghost predicate Documented(resolved: seq<Option<string>>, i: nat, snapshot: string, existing: set<string>) {
    && Some(snapshot) !in resolved
    && Unresolved(resolved, i, existing) && OnlyUnresolved(resolved, i, existing)
    && D(BaseName(resolved[i].value), BaseName(snapshot)) <= Limit(BaseName(snapshot))
    && Closest(BaseName(resolved[i].value), snapshot, existing)
  }

  /**
   The code does what its docstring asks for, and more: it rewrites every source that the docstring wants
   rewritten, and one that the docstring does not if and only if another source fails to resolve.
   */
  lemma DocstringIsStricter(resolved: seq<Option<string>>, i: nat, snapshot: string, existing: set<string>)
    ensures Documented(resolved, i, snapshot, existing) <==>
            Mistyped(resolved, i, snapshot, existing) && OnlyUnresolved(resolved, i, existing)
  {
    if Documented(resolved, i, snapshot, existing) {
      forall j: nat | Near(resolved, j, snapshot, existing) ensures j == i {
        assert Unresolved(resolved, j, existing);
      }
    }
  }

  /** Two sources fail to resolve, and the one that is near is rewritten although the docstring forbids it. */
  lemma AnotherUnresolved(dir: string, name: string, typo: string, other: string)
    requires '/' !in name && '/' !in typo && '/' !in other && typo != name && other != name
    requires D(typo, name) <= Limit(name) < D(other, name)
    ensures var resolved, snapshot := [Some(dir + "/" + typo), Some(dir + "/" + other)], dir + "/" + name;
            && Mistyped(resolved, 0, snapshot, {snapshot})
            && forall i: nat :: !Documented(resolved, i, snapshot, {snapshot})
  {
    var resolved: seq<Option<string>>, snapshot := [Some(dir + "/" + typo), Some(dir + "/" + other)], dir + "/" + name;
    BaseNameFollowsSlash(dir, name);
    BaseNameFollowsSlash(dir, typo);
    BaseNameFollowsSlash(dir, other);
    assert Unresolved(resolved, 0, {snapshot}) && Unresolved(resolved, 1, {snapshot});
  }

  /** The source `s/lg` is pointed at `s/log` while `s/notes` does not resolve either. */
  lemma RewrittenDespiteAnother()
    ensures var resolved, snapshot := [Some("s" + "/" + "lg"), Some("s" + "/" + "notes")], "s" + "/" + "log";
            && Mistyped(resolved, 0, snapshot, {snapshot})
            && forall i: nat :: !Documented(resolved, i, snapshot, {snapshot})
  {
    DMatches("l", "l" + "o", 'g', 'g');
    DGrowsRight("l", "l", 'o');
    assert "l" + "g" == "lg" && "l" + "o" + "g" == "log";
    assert D("lg", "log") <= 1 && D("notes", "log") >= 2 && "log"[1] == 'o' && "notes"[0] == 'n';
    AnotherUnresolved("s", "log", "lg", "notes");
  }

  /**
   A snapshot cited by its own name in a wrong directory is pointed at the right one, unless another
   source is near as well or another existing source has that name.
   */
  lemma WrongDirectoryIsMistyped(resolved: seq<Option<string>>, i: nat, there: string, here: string, name: string,
                                 existing: set<string>)
    requires i < |resolved| && resolved[i] == Some(there + "/" + name) && '/' !in name
    requires there + "/" + name !in existing && Some(here + "/" + name) !in resolved
    ensures
      var snapshot := here + "/" + name;
      Mistyped(resolved, i, snapshot, existing) <==>
      && (forall j: nat :: Near(resolved, j, snapshot, existing) ==> j == i)
      && (forall other :: other in existing && other != snapshot ==> BaseName(other) != name)
  {
    BaseNameFollowsSlash(there, name);
    BaseNameFollowsSlash(here, name);
    ZeroIsEqual(name, name);
    forall other: string ensures D(name, BaseName(other)) == 0 <==> BaseName(other) == name {
      ZeroIsEqual(name, BaseName(other));
    }
  }

  /**
   Where the names of existing sources are more than twice the limit away from the snapshot's, as names
   that hold a content hash are, no rival can stand in the way: the only near source is the mistyped one.
   */
  lemma FarNamesNeverRival(resolved: seq<Option<string>>, i: nat, snapshot: string, existing: set<string>)
    requires Some(snapshot) !in resolved
    requires forall other :: other in existing && other != snapshot ==>
               D(BaseName(snapshot), BaseName(other)) > 2 * Limit(BaseName(snapshot))
    ensures Mistyped(resolved, i, snapshot, existing) <==>
            && Near(resolved, i, snapshot, existing)
            && forall j: nat :: Near(resolved, j, snapshot, existing) ==> j == i
  {
    if Near(resolved, i, snapshot, existing) {
      var name, target := BaseName(resolved[i].value), BaseName(snapshot);
      Symmetric(name, target);
      forall other | other in existing && other != snapshot ensures D(name, target) < D(name, BaseName(other)) {
        Triangle(target, name, BaseName(other));
      }
    }
  }
}
