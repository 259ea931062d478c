/**
 The local workspace of `ai-wiki workspace pull`: a published tree, the files edited over it, and the
 `.mine` copies of edits set aside. `pull` is a three-way merge carried out as a list of atomic disk
 steps, so that a crash can fall between any two of them.

 A content hash is modelled by the content it is the hash of, so equal hashes mean equal bytes.
 A `<path>.mine` copy lives in its own map, keyed by `<path>`.
 */
module Workspace {
  import opened Prelude

  type Path = string
  type Bytes = string
  type Tree = map<Path, Bytes>

  /** `workspace.json`. */
  datatype Saved = Saved(revision: string, hashes: Tree, discard: Tree)

  /** The directory: `meta` says that `.ai-wiki/` exists, `saved` is its `workspace.json` if any. */
  datatype Disk = Disk(meta: bool, files: Tree, mine: Tree, base: Tree, incoming: Tree, saved: Option<Saved>)

  /** What the server publishes. */
  datatype Published = Published(revision: string, tree: Tree)

  function Hashes(d: Disk): Tree {
    if d.saved.Some? then d.saved.value.hashes else map[]
  }

  function Discard(d: Disk): Tree {
    if d.saved.Some? then d.saved.value.discard else map[]
  }

  // ----- the decision for one path ---------------------------------------------------------

  /** The local file as `pull` sees it: a directory without `workspace.json` is read as empty. */
  function Local(d: Disk, p: Path): Option<Bytes> {
    if d.saved.Some? then Get(d.files, p) else None
  }

  predicate Changed(d: Disk, p: Path) {
    d.saved.Some? && Get(d.files, p) != Get(Hashes(d), p)
  }

  predicate Committed(d: Disk, p: Path) {
    p in Discard(d) && Local(d, p) == Some(Discard(d)[p])
  }

  predicate Edited(d: Disk, published: Tree, p: Path) {
    Changed(d, p) && !Committed(d, p) && Local(d, p) != Get(published, p)
  }

  datatype Fate = Unchanged | Kept | Conflicted | Updated

  function FateOf(d: Disk, published: Tree, p: Path): Fate {
    var untouched := Get(Hashes(d), p) == Get(published, p);
    if Edited(d, published, p) && untouched then Kept
    else if !Changed(d, p) && untouched then Unchanged
    else if Edited(d, published, p) then Conflicted
    else Updated
  }

  // ----- the atomic steps ------------------------------------------------------------------

  datatype Step =
    | Stage(tree: Tree)                // the downloaded tree unpacked into .ai-wiki/incoming
    | SetAside(path: Path)             // os.replace(path, path.mine)
    | CopyIn(path: Path, data: Bytes)  // copyfile(tree/path, path)
    | Unlink(path: Path)
    | DropMine(path: Path)             // unlink of path.mine
    | DropBase(path: Path)             // one file of rmtree(base)
    | InstallBase                      // os.replace(incoming, base)
    | Save(saved: Saved)               // os.replace of workspace.json

  function Do(d: Disk, step: Step): Disk {
    match step
    case Stage(tree) => d.(meta := true, incoming := tree)
    case SetAside(p) => if p in d.files then d.(files := Without(d.files, p), mine := d.mine[p := d.files[p]]) else d
    case CopyIn(p, data) => d.(files := d.files[p := data])
    case Unlink(p) => d.(files := Without(d.files, p))
    case DropMine(p) => d.(mine := Without(d.mine, p))
    case DropBase(p) => d.(base := Without(d.base, p))
    case InstallBase => d.(base := d.incoming, incoming := map[])
    case Save(saved) => d.(meta := true, saved := Some(saved))
  }

  function DoAll(d: Disk, steps: seq<Step>): Disk
    decreases |steps|
  {
    if steps == [] then d else DoAll(Do(d, steps[0]), steps[1..])
  }

  // ----- the plan of one pull --------------------------------------------------------------

  predicate Intact(d: Disk) {
    d.saved.Some? && d.base == d.saved.value.hashes
  }

  /** The server answers 304: the base is whole and its revision is still the published one. */
  predicate NotModified(d: Disk, s: Published) {
    Intact(d) && d.saved.value.revision == s.revision
  }

  function Incoming(d: Disk, s: Published): Tree {
    if NotModified(d, s) then d.base else s.tree
  }

  /** The server's version of a path takes its place; `there` says whether a file is in the way. */
  function Place(published: Tree, p: Path, there: bool): seq<Step> {
    if p in published then [CopyIn(p, published[p])] else if there then [Unlink(p)] else []
  }

  function PathSteps(d: Disk, published: Tree, p: Path): seq<Step> {
    match FateOf(d, published, p)
    case Unchanged => []
    case Kept => []
    case Conflicted => (if p in d.files then [SetAside(p)] else []) + Place(published, p, false)
    case Updated => Place(published, p, p in d.files)
  }

  function Flatten(groups: seq<seq<Step>>): seq<Step> {
    if groups == [] then [] else groups[0] + Flatten(groups[1..])
  }

  function Groups(d: Disk, published: Tree, order: seq<Path>): seq<seq<Step>> {
    seq(|order|, i requires 0 <= i < |order| => PathSteps(d, published, order[i]))
  }

  function Moves(d: Disk, published: Tree, order: seq<Path>): seq<Step> {
    Flatten(Groups(d, published, order))
  }

  function Drops(d: Disk, order: seq<Path>): seq<Step> {
    if order == [] then []
    else (if Committed(d, order[0]) then [DropMine(order[0])] else []) + Drops(d, order[1..])
  }

  function BaseDrops(d: Disk, order: seq<Path>): seq<Step> {
    if order == [] then []
    else (if order[0] in d.base then [DropBase(order[0])] else []) + BaseDrops(d, order[1..])
  }

  function Head(d: Disk, s: Published): seq<Step> {
    if NotModified(d, s) then [] else [Stage(s.tree)]
  }

  function Tail(d: Disk, s: Published, order: seq<Path>): seq<Step> {
    (if NotModified(d, s) then [] else BaseDrops(d, order) + [InstallBase])
    + [Save(Saved(s.revision, Incoming(d, s), map[]))]
  }

  function ToMoves(d: Disk, s: Published, order: seq<Path>): seq<Step> {
    Head(d, s) + Moves(d, Incoming(d, s), order)
  }

  function ToDrops(d: Disk, s: Published, order: seq<Path>): seq<Step> {
    ToMoves(d, s, order) + Drops(d, order)
  }

  /** Every disk step of one pull, in order. `order` lists the paths in the order they are visited. */
  function Plan(d: Disk, s: Published, order: seq<Path>): seq<Step> {
    ToDrops(d, s, order) + Tail(d, s, order)
  }

  function Pulled(d: Disk, s: Published, order: seq<Path>): Disk {
    DoAll(d, Plan(d, s, order))
  }

  /** A pull killed after its first `k` steps. */
  function Crashed(d: Disk, s: Published, order: seq<Path>, k: nat): Disk {
    var plan := Plan(d, s, order);
    DoAll(d, plan[..if k < |plan| then k else |plan|])
  }

  /** One pull after another, each killed after the given number of steps. */
  function CrashedAll(d: Disk, s: Published, order: seq<Path>, ks: seq<nat>): Disk
    decreases |ks|
  {
    if ks == [] then d else CrashedAll(Crashed(d, s, order, ks[0]), s, order, ks[1..])
  }

  // ----- what the environment promises -----------------------------------------------------

  /** `order` visits every path that a pull can meet exactly once. */
  ghost predicate Covers(order: seq<Path>, d: Disk, s: Published) {
    Distinct(order) &&
    forall p :: p in d.files || p in Hashes(d) || p in s.tree || p in d.base ==> p in order
  }

  /** One revision names one tree. */
  ghost predicate Honest(d: Disk, s: Published) {
    d.saved.Some? && d.saved.value.revision == s.revision ==> d.saved.value.hashes == s.tree
  }

  // ----- running steps ---------------------------------------------------------------------

  lemma {:induction false} DoAllAppend(d: Disk, a: seq<Step>, b: seq<Step>)
    ensures DoAll(d, a + b) == DoAll(DoAll(d, a), b)
    decreases |a|
  {
    if a == [] {
      assert a + b == b;
    } else {
      assert (a + b)[1..] == a[1..] + b;
      DoAllAppend(Do(d, a[0]), a[1..], b);
    }
  }

  /** The file and the `.mine` copy of one path. */
  datatype Slot = Slot(file: Option<Bytes>, mine: Option<Bytes>)

  function SlotOf(d: Disk, p: Path): Slot {
    Slot(Get(d.files, p), Get(d.mine, p))
  }

  function FinalFile(d: Disk, published: Tree, p: Path): Option<Bytes> {
    match FateOf(d, published, p)
    case Unchanged => Get(d.files, p)
    case Kept => Get(d.files, p)
    case Conflicted => Get(published, p)
    case Updated => Get(published, p)
  }

  /** The `.mine` copy once the moves are made and before any is dropped. */
  function AsideMine(d: Disk, published: Tree, p: Path): Option<Bytes> {
    if FateOf(d, published, p) == Conflicted && p in d.files then Some(d.files[p]) else Get(d.mine, p)
  }

  function FinalMine(d: Disk, published: Tree, p: Path): Option<Bytes> {
    if Committed(d, p) then None else AsideMine(d, published, p)
  }

  function MovedSlot(d: Disk, published: Tree, p: Path): Slot {
    Slot(FinalFile(d, published, p), AsideMine(d, published, p))
  }

  function FinalSlot(d: Disk, published: Tree, p: Path): Slot {
    Slot(FinalFile(d, published, p), FinalMine(d, published, p))
  }

  /** The states a path can be in while one pull that began on `d` runs. */
  predicate Between(d: Disk, published: Tree, p: Path, slot: Slot) {
    || slot == SlotOf(d, p)
    || (FateOf(d, published, p) == Conflicted && p in d.files && slot == Slot(None, Some(d.files[p])))
    || slot == MovedSlot(d, published, p)
    || slot == FinalSlot(d, published, p)
  }

  /** Steps that leave the bookkeeping of the workspace alone. */
  predicate SameMeta(d: Disk, e: Disk) {
    d.base == e.base && d.incoming == e.incoming && d.saved == e.saved && d.meta == e.meta
  }

  lemma DoOne(d: Disk, a: Step)
    ensures DoAll(d, [a]) == Do(d, a)
  {
    assert [a][1..] == [];
  }

  lemma DoTwo(d: Disk, a: Step, b: Step)
    ensures DoAll(d, [a, b]) == Do(Do(d, a), b)
  {
    assert [a, b][1..] == [b];
    DoOne(Do(d, a), b);
  }

  predicate Moving(step: Step, p: Path) {
    step == SetAside(p) || step == Unlink(p) || (step.CopyIn? && step.path == p)
  }

  ghost predicate Owned(steps: seq<Step>, p: Path) {
    forall i :: 0 <= i < |steps| ==> Moving(steps[i], p)
  }

  /** Moves of `p` leave every other path alone, and see nothing but the slot of `p`. */
  lemma {:induction false} MovingFrame(cur: Disk, steps: seq<Step>, p: Path, q: Path)
    requires Owned(steps, p)
    ensures SameMeta(cur, DoAll(cur, steps))
    ensures q != p ==> SlotOf(DoAll(cur, steps), q) == SlotOf(cur, q)
    decreases |steps|
  {
    if steps != [] {
      assert Moving(steps[0], p);
      var next := Do(cur, steps[0]);
      assert SameMeta(cur, next) && (q != p ==> SlotOf(next, q) == SlotOf(cur, q));
      MovingFrame(next, steps[1..], p, q);
    }
  }

  lemma DoLocal(a: Disk, b: Disk, step: Step, p: Path)
    requires Moving(step, p) && SlotOf(a, p) == SlotOf(b, p)
    ensures SlotOf(Do(a, step), p) == SlotOf(Do(b, step), p)
  {
    assert p in a.files <==> p in b.files;
  }

  lemma {:induction false} MovingLocal(a: Disk, b: Disk, steps: seq<Step>, p: Path)
    requires Owned(steps, p) && SlotOf(a, p) == SlotOf(b, p)
    ensures SlotOf(DoAll(a, steps), p) == SlotOf(DoAll(b, steps), p)
    decreases |steps|
  {
    if steps != [] {
      assert Moving(steps[0], p);
      DoLocal(a, b, steps[0], p);
      MovingLocal(Do(a, steps[0]), Do(b, steps[0]), steps[1..], p);
    }
  }

  /** A prefix of grouped moves has run some prefix of the group of `p`, and nothing else on `p`. */
  lemma {:induction false} FlattenPrefix(groups: seq<seq<Step>>, order: seq<Path>, cur: Disk, k: nat, p: Path)
    returns (j: nat)
    requires |groups| == |order| && Distinct(order)
    requires forall i :: 0 <= i < |order| ==> Owned(groups[i], order[i])
    requires k <= |Flatten(groups)|
    ensures var e := DoAll(cur, Flatten(groups)[..k]);
            && SameMeta(cur, e)
            && (p !in order ==> SlotOf(e, p) == SlotOf(cur, p))
            && forall i :: 0 <= i < |order| && order[i] == p ==>
                 && j <= |groups[i]|
                 && SlotOf(e, p) == SlotOf(DoAll(cur, groups[i][..j]), p)
                 && (k == |Flatten(groups)| ==> j == |groups[i]|)
    decreases |order|
  {
    if order == [] {
      j := 0;
    } else {
      var q, first, more := order[0], groups[0], Flatten(groups[1..]);
      var h := if k <= |first| then k else |first|;
      var mid := DoAll(cur, first[..h]);
      assert Owned(groups[0], order[0]);
      MovingFrame(cur, first[..h], q, p);
      assert (first + more)[..k] == first[..h] + more[..k - h];
      DoAllAppend(cur, first[..h], more[..k - h]);
      j := FlattenPrefix(groups[1..], order[1..], mid, k - h, p);
      if p == q {
        j := h;
      } else {
        forall i | 0 <= i < |order| && order[i] == p
          ensures j <= |groups[i]| && SlotOf(DoAll(mid, groups[i][..j]), p) == SlotOf(DoAll(cur, groups[i][..j]), p)
        {
          assert groups[i] == groups[1..][i - 1] && order[1..][i - 1] == p;
          MovingLocal(mid, cur, groups[i][..j], p);
        }
      }
    }
  }

  lemma PathStepsOwned(d: Disk, published: Tree, p: Path)
    ensures Owned(PathSteps(d, published, p), p)
  {}

  /** The first step of a path leaves it between its old and its final slot, and ends it if it is the only one. */
  lemma FirstStep(d: Disk, published: Tree, p: Path, cur: Disk)
    requires SlotOf(cur, p) == SlotOf(d, p) && PathSteps(d, published, p) != []
    ensures var steps := PathSteps(d, published, p);
            var e := Do(cur, steps[0]);
            && Between(d, published, p, SlotOf(e, p))
            && (|steps| == 1 ==> SlotOf(e, p) == MovedSlot(d, published, p))
            && (|steps| > 1 ==> |steps| == 2 && SlotOf(Do(e, steps[1]), p) == MovedSlot(d, published, p))
  {}

  lemma EndsAreBetween(d: Disk, published: Tree, p: Path)
    ensures Between(d, published, p, SlotOf(d, p)) && Between(d, published, p, MovedSlot(d, published, p))
    ensures PathSteps(d, published, p) == [] ==> SlotOf(d, p) == MovedSlot(d, published, p)
  {}

  lemma PathStepsEffect(d: Disk, published: Tree, p: Path, cur: Disk, j: nat)
    requires SlotOf(cur, p) == SlotOf(d, p)
    requires j <= |PathSteps(d, published, p)|
    ensures var e := DoAll(cur, PathSteps(d, published, p)[..j]);
            && Between(d, published, p, SlotOf(e, p))
            && (j == |PathSteps(d, published, p)| ==> SlotOf(e, p) == MovedSlot(d, published, p))
  {
    var steps := PathSteps(d, published, p);
    EndsAreBetween(d, published, p);
    if j > 0 {
      FirstStep(d, published, p, cur);
      if j == 1 {
        assert steps[..1] == [steps[0]];
        DoOne(cur, steps[0]);
      } else {
        assert steps[..2] == [steps[0], steps[1]];
        DoTwo(cur, steps[0], steps[1]);
      }
    }
  }

  /** What any prefix of the moves does to one path `p`. */
  lemma MovesPrefix(d: Disk, published: Tree, order: seq<Path>, cur: Disk, k: nat, p: Path)
    requires Distinct(order)
    requires SlotOf(cur, p) == SlotOf(d, p)
    requires k <= |Moves(d, published, order)|
    ensures var e := DoAll(cur, Moves(d, published, order)[..k]);
            && SameMeta(cur, e)
            && (p !in order ==> SlotOf(e, p) == SlotOf(d, p))
            && (p in order ==> Between(d, published, p, SlotOf(e, p)))
            && (p in order && k == |Moves(d, published, order)| ==> SlotOf(e, p) == MovedSlot(d, published, p))
  {
    var groups := Groups(d, published, order);
    forall i | 0 <= i < |order| ensures Owned(groups[i], order[i]) {
      PathStepsOwned(d, published, order[i]);
    }
    var j := FlattenPrefix(groups, order, cur, k, p);
    if p in order {
      var i :| 0 <= i < |order| && order[i] == p;
      PathStepsEffect(d, published, p, cur, j);
    }
  }

  lemma {:induction false} DropsPrefix(d: Disk, order: seq<Path>, cur: Disk, k: nat, p: Path)
    requires Distinct(order)
    requires k <= |Drops(d, order)|
    ensures var e := DoAll(cur, Drops(d, order)[..k]);
            && SameMeta(cur, e) && e.files == cur.files
            && (!Committed(d, p) ==> Get(e.mine, p) == Get(cur.mine, p))
            && (Get(e.mine, p) == Get(cur.mine, p) || Get(e.mine, p) == None)
            && (k == |Drops(d, order)| && p in order && Committed(d, p) ==> Get(e.mine, p) == None)
    decreases |order|
  {
    if order != [] {
      var q, rest := order[0], order[1..];
      var first, more := if Committed(d, q) then [DropMine(q)] else [], Drops(d, rest);
      var j := if k <= |first| then k else |first|;
      var mid := DoAll(cur, first[..j]);
      if j == 1 {
        assert first[..1] == [DropMine(q)];
        DoOne(cur, DropMine(q));
      }
      assert (first + more)[..k] == first[..j] + more[..k - j];
      DoAllAppend(cur, first[..j], more[..k - j]);
      DropsPrefix(d, rest, mid, k - j, p);
    }
  }

  lemma {:induction false} BaseDropsPrefix(d: Disk, order: seq<Path>, cur: Disk, k: nat)
    requires k <= |BaseDrops(d, order)|
    ensures var e := DoAll(cur, BaseDrops(d, order)[..k]);
            e == cur.(base := e.base) && e.base.Keys <= cur.base.Keys
    decreases |order|
  {
    if order != [] {
      var q, rest := order[0], order[1..];
      var first, more := if q in d.base then [DropBase(q)] else [], BaseDrops(d, rest);
      var j := if k <= |first| then k else |first|;
      var mid := DoAll(cur, first[..j]);
      if j == 1 {
        assert first[..1] == [DropBase(q)];
        DoOne(cur, DropBase(q));
      }
      assert (first + more)[..k] == first[..j] + more[..k - j];
      DoAllAppend(cur, first[..j], more[..k - j]);
      BaseDropsPrefix(d, rest, mid, k - j);
    }
  }

  lemma DoAllSplit(d: Disk, a: seq<Step>, b: seq<Step>, k: nat)
    requires k <= |a + b|
    ensures DoAll(d, (a + b)[..k]) ==
            if k <= |a| then DoAll(d, a[..k]) else DoAll(DoAll(d, a), b[..k - |a|])
  {
    if k <= |a| {
      assert (a + b)[..k] == a[..k];
    } else {
      assert (a + b)[..k] == a + b[..k - |a|];
      DoAllAppend(d, a, b[..k - |a|]);
    }
  }

  lemma HeadPrefix(d: Disk, s: Published, k: nat)
    requires k <= |Head(d, s)|
    ensures var e := DoAll(d, Head(d, s)[..k]);
            && e.files == d.files && e.mine == d.mine && e.base == d.base && e.saved == d.saved
            && (k == |Head(d, s)| && !NotModified(d, s) ==> e.incoming == s.tree)
  {
    if k == 1 {
      assert Head(d, s)[..1] == [Stage(s.tree)];
      DoOne(d, Stage(s.tree));
    }
  }

  lemma TailPrefix(d: Disk, s: Published, order: seq<Path>, cur: Disk, k: nat)
    requires k <= |Tail(d, s, order)|
    requires cur.base == d.base && cur.saved == d.saved
    requires !NotModified(d, s) ==> cur.incoming == s.tree
    ensures var e := DoAll(cur, Tail(d, s, order)[..k]);
            && e.files == cur.files && e.mine == cur.mine
            && e.base.Keys <= d.base.Keys + s.tree.Keys
            && (k < |Tail(d, s, order)| ==> e.saved == d.saved)
            && (k < |Tail(d, s, order)| && NotModified(d, s) ==> e.base == d.base)
            && (k == |Tail(d, s, order)| ==>
                e.saved == Some(Saved(s.revision, Incoming(d, s), map[])) && e.base == Incoming(d, s))
  {
    var save := Save(Saved(s.revision, Incoming(d, s), map[]));
    if NotModified(d, s) {
      assert Tail(d, s, order) == [save];
      if k == 1 {
        assert Tail(d, s, order)[..1] == [save];
        DoOne(cur, save);
      }
    } else {
      var b := BaseDrops(d, order);
      assert Tail(d, s, order) == b + [InstallBase, save];
      DoAllSplit(cur, b, [InstallBase, save], k);
      BaseDropsPrefix(d, order, cur, if k <= |b| then k else |b|);
      assert b[..|b|] == b;
      var mid := DoAll(cur, b);
      if k == |b| + 1 {
        assert [InstallBase, save][..1] == [InstallBase];
        DoOne(mid, InstallBase);
      } else if k == |b| + 2 {
        assert [InstallBase, save][..2] == [InstallBase, save];
        DoTwo(mid, InstallBase, save);
      }
    }
  }

  lemma UncoveredPath(d: Disk, s: Published, order: seq<Path>, p: Path)
    requires Covers(order, d, s) && p !in order
    ensures FinalSlot(d, Incoming(d, s), p) == MovedSlot(d, Incoming(d, s), p) == SlotOf(d, p)
  {}

  lemma ToMovesPrefix(d: Disk, s: Published, order: seq<Path>, k: nat, p: Path)
    requires Covers(order, d, s) && k <= |ToMoves(d, s, order)|
    ensures var e := DoAll(d, ToMoves(d, s, order)[..k]);
            && e.base == d.base && e.saved == d.saved
            && Between(d, Incoming(d, s), p, SlotOf(e, p))
            && (k == |ToMoves(d, s, order)| ==>
                && SlotOf(e, p) == MovedSlot(d, Incoming(d, s), p)
                && (!NotModified(d, s) ==> e.incoming == s.tree))
  {
    var h, m := Head(d, s), Moves(d, Incoming(d, s), order);
    DoAllSplit(d, h, m, k);
    assert h[..|h|] == h;
    if k <= |h| {
      HeadPrefix(d, s, k);
    } else {
      HeadPrefix(d, s, |h|);
    }
    if p !in order { UncoveredPath(d, s, order, p); }
    if k >= |h| {
      var d1 := DoAll(d, h);
      assert m[..0] == [];
      MovesPrefix(d, Incoming(d, s), order, d1, k - |h|, p);
    }
  }

  lemma ToDropsPrefix(d: Disk, s: Published, order: seq<Path>, k: nat, p: Path)
    requires Covers(order, d, s) && k <= |ToDrops(d, s, order)|
    ensures var e := DoAll(d, ToDrops(d, s, order)[..k]);
            && e.base == d.base && e.saved == d.saved
            && Between(d, Incoming(d, s), p, SlotOf(e, p))
            && (k == |ToDrops(d, s, order)| ==>
                && SlotOf(e, p) == FinalSlot(d, Incoming(d, s), p)
                && (!NotModified(d, s) ==> e.incoming == s.tree))
  {
    var a, c := ToMoves(d, s, order), Drops(d, order);
    DoAllSplit(d, a, c, k);
    assert a[..|a|] == a;
    ToMovesPrefix(d, s, order, if k <= |a| then k else |a|, p);
    if k >= |a| {
      assert c[..0] == [];
      DropsPrefix(d, order, DoAll(d, a), k - |a|, p);
      if p !in order { UncoveredPath(d, s, order, p); }
    }
  }

  /** What a pull killed after any number of its steps has done to one path. */
  lemma PlanPrefix(d: Disk, s: Published, order: seq<Path>, k: nat, p: Path)
    requires Covers(order, d, s) && k <= |Plan(d, s, order)|
    ensures var e := DoAll(d, Plan(d, s, order)[..k]);
            && e.base.Keys <= d.base.Keys + s.tree.Keys
            && (k < |Plan(d, s, order)| ==>
                && e.saved == d.saved
                && (NotModified(d, s) ==> e.base == d.base)
                && Between(d, Incoming(d, s), p, SlotOf(e, p)))
            && (k == |Plan(d, s, order)| ==>
                && e.saved == Some(Saved(s.revision, Incoming(d, s), map[]))
                && e.base == Incoming(d, s)
                && SlotOf(e, p) == FinalSlot(d, Incoming(d, s), p))
  {
    var a, t := ToDrops(d, s, order), Tail(d, s, order);
    DoAllSplit(d, a, t, k);
    assert a[..|a|] == a;
    ToDropsPrefix(d, s, order, if k <= |a| then k else |a|, p);
    if k > |a| {
      TailPrefix(d, s, order, DoAll(d, a), k - |a|);
    }
  }

  lemma PlanWhole(d: Disk, s: Published, order: seq<Path>, p: Path)
    requires Covers(order, d, s) && Honest(d, s)
    ensures Incoming(d, s) == s.tree
    ensures var e := Pulled(d, s, order);
            && e.saved == Some(Saved(s.revision, s.tree, map[])) && e.base == s.tree
            && SlotOf(e, p) == FinalSlot(d, s.tree, p)
  {
    var plan := Plan(d, s, order);
    assert plan[..|plan|] == plan;
    PlanPrefix(d, s, order, |plan|, p);
  }

  // ----- one uninterrupted pull ------------------------------------------------------------

  /** A directory whose every file the merge accounts for: it has a recorded base, or no stray file. */
  predicate Accounted(d: Disk, s: Published) {
    d.saved.Some? || d.files.Keys <= s.tree.Keys
  }

  /**
   After a pull the local tree is the published one, overridden exactly on the kept paths, which the
   server did not change. That holds if and only if no file lies in a directory without a base where
   the server publishes none.
   */
  lemma PullIsThreeWayMerge(d: Disk, s: Published, order: seq<Path>)
    requires Covers(order, d, s) && Honest(d, s)
    ensures var e := Pulled(d, s, order);
            && e.saved == Some(Saved(s.revision, s.tree, map[])) && e.base == s.tree
            && (forall p :: FateOf(d, s.tree, p) == Kept ==>
                && Get(e.files, p) == Get(d.files, p) != Get(s.tree, p)
                && Get(Hashes(d), p) == Get(s.tree, p))
            && ((forall p :: FateOf(d, s.tree, p) != Kept ==> Get(e.files, p) == Get(s.tree, p))
                <==> Accounted(d, s))
  {
    var e := Pulled(d, s, order);
    PlanWhole(d, s, order, "");
    forall p ensures SlotOf(e, p) == FinalSlot(d, s.tree, p) { PlanWhole(d, s, order, p); }
    if !Accounted(d, s) {
      var p :| p in d.files && p !in s.tree;
      assert FateOf(d, s.tree, p) == Unchanged && SlotOf(e, p) == FinalSlot(d, s.tree, p);
    } else {
      forall p | FateOf(d, s.tree, p) != Kept ensures Get(e.files, p) == Get(s.tree, p) {
        assert SlotOf(e, p) == FinalSlot(d, s.tree, p);
      }
    }
    forall p | FateOf(d, s.tree, p) == Kept
      ensures Get(e.files, p) == Get(d.files, p) != Get(s.tree, p)
    {
      assert SlotOf(e, p) == FinalSlot(d, s.tree, p);
    }
  }

  /** Local work nobody has committed: content that is neither the pulled, the committed nor the published one. */
  predicate LocalEdit(d: Disk, s: Published, p: Path) {
    && p in d.files && !Committed(d, p)
    && Get(d.files, p) != Get(Hashes(d), p) && Get(d.files, p) != Get(s.tree, p)
  }

  predicate Survives(d: Disk, e: Disk, p: Path) {
    Get(e.files, p) == Get(d.files, p) || Get(e.mine, p) == Get(d.files, p)
  }

  /**
   Local work survives a pull, at its path or in its `.mine`, if and only if the directory has a base
   to compare with, or the server publishes nothing there, or a `.mine` already held it.
   */
  lemma EditsSurvivePull(d: Disk, s: Published, order: seq<Path>, p: Path)
    requires Covers(order, d, s) && Honest(d, s) && LocalEdit(d, s, p)
    ensures Survives(d, Pulled(d, s, order), p) <==>
            d.saved.Some? || p !in s.tree || Get(d.mine, p) == Get(d.files, p)
  {
    PlanWhole(d, s, order, p);
    assert SlotOf(Pulled(d, s, order), p) == FinalSlot(d, s.tree, p);
  }

  /** A path that still holds its committed bytes is no conflict: it takes the server's version and loses its `.mine`. */
  lemma CommittedIsNoConflict(d: Disk, s: Published, order: seq<Path>, p: Path)
    requires Covers(order, d, s) && Honest(d, s) && Committed(d, p)
    ensures FateOf(d, s.tree, p) != Conflicted && FateOf(d, s.tree, p) != Kept
    ensures Get(Pulled(d, s, order).files, p) == Get(s.tree, p)
    ensures p !in Pulled(d, s, order).mine
  {
    PlanWhole(d, s, order, p);
    assert SlotOf(Pulled(d, s, order), p) == FinalSlot(d, s.tree, p);
  }

  lemma SameTree(a: Tree, b: Tree)
    requires forall p :: Get(a, p) == Get(b, p)
    ensures a == b
  {
    forall p ensures p in a <==> p in b { assert Get(a, p) == Get(b, p); }
    forall p | p in a ensures a[p] == b[p] { assert Get(a, p) == Get(b, p); }
  }

  lemma SameSlots(a: Disk, b: Disk)
    requires forall p :: SlotOf(b, p) == SlotOf(a, p)
    ensures b.files == a.files && b.mine == a.mine
  {
    forall p ensures Get(b.files, p) == Get(a.files, p) && Get(b.mine, p) == Get(a.mine, p) {
      assert SlotOf(b, p) == SlotOf(a, p);
    }
    SameTree(b.files, a.files);
    SameTree(b.mine, a.mine);
  }

  lemma CoversAfter(d: Disk, s: Published, order: seq<Path>)
    requires Covers(order, d, s) && Honest(d, s)
    ensures Covers(order, Pulled(d, s, order), s) && Honest(Pulled(d, s, order), s)
  {
    var e := Pulled(d, s, order);
    PlanWhole(d, s, order, "");
    forall p | p in e.files ensures p in order {
      PlanWhole(d, s, order, p);
      assert SlotOf(e, p) == FinalSlot(d, s.tree, p);
    }
  }

  /** A second pull at the same revision updates nothing, conflicts on nothing and changes no file. */
  lemma SecondPullIsQuiet(d: Disk, s: Published, order: seq<Path>)
    requires Covers(order, d, s) && Honest(d, s)
    ensures var e := Pulled(d, s, order);
            && NotModified(e, s)
            && (forall p :: FateOf(e, s.tree, p) == Kept || FateOf(e, s.tree, p) == Unchanged)
            && (d.saved.Some? ==> forall p :: FateOf(e, s.tree, p) == Kept <==> FateOf(d, s.tree, p) == Kept)
            && Pulled(e, s, order).files == e.files && Pulled(e, s, order).mine == e.mine
  {
    var e := Pulled(d, s, order);
    PlanWhole(d, s, order, "");
    CoversAfter(d, s, order);
    var f := Pulled(e, s, order);
    forall p ensures SlotOf(f, p) == SlotOf(e, p) { PlanWhole(e, s, order, p); }
    SameSlots(e, f);
    if d.saved.Some? {
      forall p ensures FateOf(e, s.tree, p) == Kept <==> FateOf(d, s.tree, p) == Kept {
        PlanWhole(d, s, order, p);
        assert SlotOf(e, p) == FinalSlot(d, s.tree, p);
      }
    }
  }

  // ----- crashes ---------------------------------------------------------------------------

  predicate FileBetween(d: Disk, published: Tree, p: Path, file: Option<Bytes>) {
    || file == Get(d.files, p)
    || file == FinalFile(d, published, p)
    || (FateOf(d, published, p) == Conflicted && file == None)
  }

  /** `p` cannot start to look committed half-way through a pull. */
  predicate Steady(d: Disk, published: Tree, p: Path) {
    && !Committed(d, p)
    && (p in Discard(d) && Get(published, p) == Some(Discard(d)[p]) ==> FateOf(d, published, p) == Kept)
  }

  /** A rerun from a half-done state steers every file to where the first run was going. */
  lemma RerunFile(d: Disk, cur: Disk, published: Tree, p: Path, file: Option<Bytes>)
    requires cur.saved == d.saved && FileBetween(d, published, p, Get(cur.files, p))
    ensures FinalFile(cur, published, p) == FinalFile(d, published, p)
    ensures FileBetween(cur, published, p, file) ==> FileBetween(d, published, p, file)
  {}

  lemma RerunSlot(d: Disk, cur: Disk, published: Tree, p: Path, slot: Slot)
    requires cur.saved == d.saved && Steady(d, published, p) && Between(d, published, p, SlotOf(cur, p))
    ensures FinalSlot(cur, published, p) == FinalSlot(d, published, p)
    ensures Between(cur, published, p, slot) ==> Between(d, published, p, slot)
  {}

  /** What holds between the disk `d` before the first pull and the disk `cur` after any number of crashes. */
  ghost predicate Underway(d: Disk, s: Published, order: seq<Path>, cur: Disk) {
    && Covers(order, cur, s) && Honest(cur, s)
    && ((&& cur.saved == d.saved
         && (forall p :: FileBetween(d, s.tree, p, Get(cur.files, p)))
         && (forall p :: Steady(d, s.tree, p) ==> Between(d, s.tree, p, SlotOf(cur, p))))
        ||
        (&& cur.saved == Some(Saved(s.revision, s.tree, map[]))
         && (forall p :: Get(cur.files, p) == FinalFile(d, s.tree, p))
         && (forall p :: Steady(d, s.tree, p) ==> SlotOf(cur, p) == FinalSlot(d, s.tree, p))))
  }

  lemma UnderwayIncoming(d: Disk, s: Published, order: seq<Path>, cur: Disk)
    requires Underway(d, s, order, cur)
    ensures Incoming(cur, s) == s.tree
  {}

  /** One more pull, whole or killed at any step, keeps the invariant; a whole one reaches the end of the first. */
  lemma CrashStep(d: Disk, s: Published, order: seq<Path>, cur: Disk, k: nat)
    requires Covers(order, d, s) && Underway(d, s, order, cur)
    requires k <= |Plan(cur, s, order)|
    ensures var e := DoAll(cur, Plan(cur, s, order)[..k]);
            && Underway(d, s, order, e)
            && (k == |Plan(cur, s, order)| ==>
                && e.saved == Some(Saved(s.revision, s.tree, map[])) && e.base == s.tree
                && (forall p :: Get(e.files, p) == FinalFile(d, s.tree, p))
                && (forall p :: Steady(d, s.tree, p) ==> SlotOf(e, p) == FinalSlot(d, s.tree, p)))
  {
    var whole := |Plan(cur, s, order)|;
    var e := DoAll(cur, Plan(cur, s, order)[..k]);
    UnderwayIncoming(d, s, order, cur);
    PlanPrefix(cur, s, order, k, "");
    if cur.saved == d.saved && (forall p :: FileBetween(d, s.tree, p, Get(cur.files, p)))
       && (forall p :: Steady(d, s.tree, p) ==> Between(d, s.tree, p, SlotOf(cur, p))) {
      forall p
        ensures FileBetween(d, s.tree, p, Get(e.files, p))
        ensures k == whole ==> Get(e.files, p) == FinalFile(d, s.tree, p)
      {
        PlanPrefix(cur, s, order, k, p);
        assert FileBetween(d, s.tree, p, Get(cur.files, p));
        BetweenFile(cur, s.tree, p, SlotOf(e, p));
        RerunFile(d, cur, s.tree, p, Get(e.files, p));
      }
      forall p | Steady(d, s.tree, p)
        ensures Between(d, s.tree, p, SlotOf(e, p))
        ensures k == whole ==> SlotOf(e, p) == FinalSlot(d, s.tree, p)
      {
        PlanPrefix(cur, s, order, k, p);
        RerunSlot(d, cur, s.tree, p, SlotOf(e, p));
        RerunSlot(d, cur, s.tree, p, SlotOf(cur, p));
      }
      CoversLater(d, s, order, e);
    } else {
      forall p
        ensures Get(e.files, p) == FinalFile(d, s.tree, p)
        ensures Steady(d, s.tree, p) ==> SlotOf(e, p) == FinalSlot(d, s.tree, p)
      {
        PlanPrefix(cur, s, order, k, p);
        QuietSlot(cur, s.tree, p, SlotOf(e, p));
      }
      CoversLater(d, s, order, e);
    }
  }

  lemma BetweenFile(d: Disk, published: Tree, p: Path, slot: Slot)
    ensures Between(d, published, p, slot) || slot == FinalSlot(d, published, p)
            ==> FileBetween(d, published, p, slot.file)
  {}

  /** Once a pull has finished, a rerun of it moves nothing. */
  lemma QuietSlot(cur: Disk, published: Tree, p: Path, slot: Slot)
    requires cur.saved.Some? && cur.saved.value.hashes == published && cur.saved.value.discard == map[]
    ensures FinalSlot(cur, published, p) == SlotOf(cur, p)
    ensures Between(cur, published, p, slot) ==> slot == SlotOf(cur, p)
  {}

  lemma CoversLater(d: Disk, s: Published, order: seq<Path>, e: Disk)
    requires Covers(order, d, s)
    requires forall p :: FileBetween(d, s.tree, p, Get(e.files, p))
    requires e.base.Keys <= set p | p in order
    requires e.saved == d.saved || e.saved == Some(Saved(s.revision, s.tree, map[]))
    ensures Covers(order, e, s)
  {
    forall p | p in e.files ensures p in order {
      assert FileBetween(d, s.tree, p, Get(e.files, p));
    }
    forall p | p in e.base ensures p in order {
      assert p in set q | q in order;
    }
  }

  lemma {:induction false} CrashesKeepUnderway(d: Disk, s: Published, order: seq<Path>, cur: Disk, ks: seq<nat>)
    requires Covers(order, d, s) && Underway(d, s, order, cur)
    ensures Underway(d, s, order, CrashedAll(cur, s, order, ks))
    decreases |ks|
  {
    if ks != [] {
      var plan := Plan(cur, s, order);
      CrashStep(d, s, order, cur, if ks[0] < |plan| then ks[0] else |plan|);
      CrashesKeepUnderway(d, s, order, Crashed(cur, s, order, ks[0]), ks[1..]);
    }
  }

  /**
   Kill `pull` after any prefix of its steps, any number of times, and run it again against the same
   server tree: it ends with the files, base and state of an uninterrupted pull, whatever `discard`
   holds, and with the same `.mine` for every path that could not come to look committed half-way;
   so with an empty `discard` it ends with the very same disk content.
   */
  lemma CrashSafePull(d: Disk, s: Published, order: seq<Path>, ks: seq<nat>)
    requires Covers(order, d, s) && Honest(d, s)
    ensures var whole, rerun := Pulled(d, s, order), Pulled(CrashedAll(d, s, order, ks), s, order);
            && rerun.files == whole.files && rerun.base == whole.base && rerun.saved == whole.saved
            && (forall p :: Steady(d, s.tree, p) ==> Get(rerun.mine, p) == Get(whole.mine, p))
            && (Discard(d) == map[] ==> rerun.mine == whole.mine)
  {
    var cur := CrashedAll(d, s, order, ks);
    CrashesKeepUnderway(d, s, order, d, ks);
    var plan := Plan(cur, s, order);
    assert plan[..|plan|] == plan;
    CrashStep(d, s, order, cur, |plan|);
    var whole, rerun := Pulled(d, s, order), Pulled(cur, s, order);
    PlanWhole(d, s, order, "");
    forall p ensures SlotOf(whole, p) == FinalSlot(d, s.tree, p) { PlanWhole(d, s, order, p); }
    forall p ensures Get(rerun.files, p) == Get(whole.files, p) {
      assert SlotOf(whole, p) == FinalSlot(d, s.tree, p);
    }
    SameTree(rerun.files, whole.files);
    forall p | Steady(d, s.tree, p) ensures Get(rerun.mine, p) == Get(whole.mine, p) {
      assert SlotOf(whole, p) == FinalSlot(d, s.tree, p) == SlotOf(rerun, p);
    }
    if Discard(d) == map[] {
      forall p ensures Get(rerun.mine, p) == Get(whole.mine, p) { assert Steady(d, s.tree, p); }
      SameTree(rerun.mine, whole.mine);
    }
  }

  /** The hole: the server changed a locally edited path to exactly the bytes its `discard` entry names. */
  predicate Overtaken(d: Disk, s: Published, p: Path) {
    && FateOf(d, s.tree, p) == Conflicted
    && p in Discard(d) && Get(s.tree, p) == Some(Discard(d)[p])
  }

  /**
   A local edit survives every crash history and the rerun if and only if its path is not overtaken:
   otherwise a crash after the moves makes the path look committed, and the rerun drops the `.mine`
   that holds the only copy of the edit.
   */
  lemma EditsSurviveCrashes(d: Disk, s: Published, order: seq<Path>, p: Path)
    requires Covers(order, d, s) && Honest(d, s) && d.saved.Some? && LocalEdit(d, s, p)
    ensures (forall ks :: Survives(d, Pulled(CrashedAll(d, s, order, ks), s, order), p)) <==> !Overtaken(d, s, p)
  {
    if Overtaken(d, s, p) {
      OvertakenIsLost(d, s, order, p);
      var k := |ToMoves(d, s, order)|;
      assert !Survives(d, Pulled(CrashedAll(d, s, order, [k]), s, order), p);
    } else {
      forall ks ensures Survives(d, Pulled(CrashedAll(d, s, order, ks), s, order), p) {
        var cur := CrashedAll(d, s, order, ks);
        CrashesKeepUnderway(d, s, order, d, ks);
        var plan := Plan(cur, s, order);
        assert plan[..|plan|] == plan;
        CrashStep(d, s, order, cur, |plan|);
        assert Steady(d, s.tree, p);
        assert SlotOf(Pulled(cur, s, order), p) == FinalSlot(d, s.tree, p);
      }
    }
  }

  lemma OvertakenIsLost(d: Disk, s: Published, order: seq<Path>, p: Path)
    requires Covers(order, d, s) && Honest(d, s) && d.saved.Some? && LocalEdit(d, s, p) && Overtaken(d, s, p)
    ensures var k := |ToMoves(d, s, order)|;
            !Survives(d, Pulled(CrashedAll(d, s, order, [k]), s, order), p)
  {
    var k := |ToMoves(d, s, order)|;
    var cur := Crashed(d, s, order, k);
    PlanWhole(d, s, order, p);
    ToMovesPrefix(d, s, order, k, p);
    assert ToMoves(d, s, order)[..k] == ToMoves(d, s, order) == Plan(d, s, order)[..k];
    assert SlotOf(cur, p) == MovedSlot(d, s.tree, p) && cur.saved == d.saved;
    CrashesKeepUnderway(d, s, order, d, [k]);
    assert [k][1..] == [];
    assert CrashedAll(d, s, order, [k]) == cur;
    PlanWhole(cur, s, order, p);
    assert SlotOf(Pulled(cur, s, order), p) == FinalSlot(cur, s.tree, p);
    assert Committed(cur, p);
  }

  /** A directory, a publication and a visiting order in which a commit's bytes overtake an edit. */
  function OvertakenDisk(p: Path): Disk {
    Disk(true, map[p := "edit"], map[], map[p := "old"], map[], Some(Saved("1", map[p := "old"], map[p := "new"])))
  }

  /** Someone edits a file after committing it; the server publishes the commit, the pull is killed, and the edit is lost. */
  lemma OvertakenHappens(p: Path)
    ensures var d, s, order := OvertakenDisk(p), Published("2", map[p := "new"]), [p];
            && Covers(order, d, s) && Honest(d, s) && LocalEdit(d, s, p) && Overtaken(d, s, p)
            && !Survives(d, Pulled(CrashedAll(d, s, order, [|ToMoves(d, s, order)|]), s, order), p)
  {
    assert "edit"[0] == 'e' && "old"[0] == 'o' && "new"[0] == 'n';
    OvertakenIsLost(OvertakenDisk(p), Published("2", map[p := "new"]), [p], p);
  }
}
