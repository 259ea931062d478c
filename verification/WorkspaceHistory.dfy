/** Pulls that crash while the server goes on publishing: when a local edit outlives all of them. */
module WorkspaceHistory {
  import opened Prelude
  import opened Workspace

  /** What the server publishes under each revision name. */
  type Library = string -> Tree

  function Release(lib: Library, revision: string): Published {
    Published(revision, lib(revision))
  }

  /** One pull after another, each of the revision published then, each killed after the given number of steps. */
  function CrashedThrough(d: Disk, lib: Library, order: seq<Path>, revisions: seq<string>, ks: seq<nat>): Disk
    requires |ks| == |revisions|
    decreases |revisions|
  {
    if revisions == [] then d
    else
      var last := |revisions| - 1;
      Crashed(CrashedThrough(d, lib, order, revisions[..last], ks[..last]), Release(lib, revisions[last]), order, ks[last])
  }

  /** The versions of a path: the pulled one, then each published one. */
  function Versions(d: Disk, lib: Library, revisions: seq<string>, p: Path): seq<Option<Bytes>> {
    [Get(Hashes(d), p)] + seq(|revisions|, i requires 0 <= i < |revisions| => Get(lib(revisions[i]), p))
  }

  /** Three different versions follow on one another, and the middle one is a file. */
  ghost predicate ChangesTwice(w: seq<Option<Bytes>>) {
    exists b, i, j :: 0 <= b < i < j < |w| && Apart(w[b], w[i], w[j])
  }

  predicate Apart(x: Option<Bytes>, y: Option<Bytes>, z: Option<Bytes>) {
    y.Some? && y != x && z != y && z != x
  }

  /** The saved state is the tree of the revision it names. */
  ghost predicate Named(d: Disk, lib: Library) {
    d.saved.Some? && d.saved.value.hashes == lib(d.saved.value.revision)
  }

  ghost predicate CoversAll(order: seq<Path>, d: Disk, lib: Library, revisions: seq<string>) {
    forall r :: r in revisions ==> Covers(order, d, Release(lib, r))
  }

  lemma CrashedCovers(d: Disk, lib: Library, order: seq<Path>, revision: string, k: nat, other: string)
    requires Named(d, lib) && Covers(order, d, Release(lib, revision)) && Covers(order, d, Release(lib, other))
    ensures Covers(order, Crashed(d, Release(lib, revision), order, k), Release(lib, other))
  {
    CrashesKeepUnderway(d, Release(lib, revision), order, d, [k]);
    assert [k][1..] == [];
    assert CrashedAll(d, Release(lib, revision), order, [k]) == Crashed(d, Release(lib, revision), order, k);
  }

  /** One killed pull: the state file stays and the path is under way, or it is the new one and the path is done. */
  lemma CrashedPath(d: Disk, lib: Library, order: seq<Path>, revision: string, k: nat, p: Path)
    requires Named(d, lib) && Covers(order, d, Release(lib, revision))
    ensures var e, tree := Crashed(d, Release(lib, revision), order, k), lib(revision);
            || (e.saved == d.saved && Between(d, tree, p, SlotOf(e, p)))
            || (e.saved == Some(Saved(revision, tree, map[])) && SlotOf(e, p) == FinalSlot(d, tree, p))
    ensures Named(Crashed(d, Release(lib, revision), order, k), lib)
  {
    var plan := Plan(d, Release(lib, revision), order);
    PlanPrefix(d, Release(lib, revision), order, if k < |plan| then k else |plan|, p);
    assert Incoming(d, Release(lib, revision)) == lib(revision);
  }

  // ----- one path --------------------------------------------------------------------------

  /** The edit is in its place or in `.mine`, under a version that cannot make a third one. */
  ghost predicate Held(w: seq<Option<Bytes>>, b: nat, slot: Slot, edit: Bytes) {
    && b < |w|
    && (|| slot.file == Some(edit)
        || (slot.mine == Some(edit)
            && (|| slot.file == w[b] || slot.file == None
                || exists i :: b < i < |w| && w[i].Some? && w[i] != w[b] && slot.file == w[i])))
  }

  lemma HeldLonger(w: seq<Option<Bytes>>, b: nat, slot: Slot, edit: Bytes, x: Option<Bytes>)
    requires Held(w, b, slot, edit)
    ensures Held(w + [x], b, slot, edit)
  {
    if i :| b < i < |w| && w[i].Some? && w[i] != w[b] && slot.file == w[i] {
      assert (w + [x])[i] == w[i];
    }
  }

  /** An unfinished pull loses no edit, as long as the path does not reach a third version. */
  lemma HeldBetween(d: Disk, tree: Tree, p: Path, slot: Slot, w: seq<Option<Bytes>>, b: nat, edit: Bytes)
    requires d.saved.Some? && p !in Discard(d) && Held(w, b, SlotOf(d, p), edit) && Get(Hashes(d), p) == w[b]
    requires var next := w + [Get(tree, p)]; !ChangesTwice(next) && Some(edit) !in next
    requires Between(d, tree, p, slot)
    ensures Held(w + [Get(tree, p)], b, slot, edit)
    ensures slot == FinalSlot(d, tree, p) && Get(tree, p) != w[b] ==> Held(w + [Get(tree, p)], |w|, slot, edit)
  {
    var x := Get(tree, p);
    var next, file := w + [x], Get(d.files, p);
    assert next[|w|] == x && next[b] == w[b];
    HeldLonger(w, b, SlotOf(d, p), edit, x);
    if file != Some(edit) && file != w[b] && file != None {
      var i :| b < i < |w| && w[i].Some? && w[i] != w[b] && file == w[i];
      assert next[i] == w[i] && !Apart(next[b], next[i], next[|w|]);
    }
  }

  // ----- every edit that outlives the history ----------------------------------------------

  ghost predicate Alive(cur: Disk, lib: Library, w: seq<Option<Bytes>>, p: Path, edit: Bytes) {
    && Named(cur, lib) && p !in Discard(cur)
    && exists b :: 0 <= b < |w| && Get(Hashes(cur), p) == w[b] && Held(w, b, SlotOf(cur, p), edit)
  }

  lemma CrashedAlive(cur: Disk, lib: Library, order: seq<Path>, revision: string, k: nat,
                     w: seq<Option<Bytes>>, p: Path, edit: Bytes)
    requires Alive(cur, lib, w, p, edit) && Covers(order, cur, Release(lib, revision))
    requires var next := w + [Get(lib(revision), p)]; !ChangesTwice(next) && Some(edit) !in next
    ensures Alive(Crashed(cur, Release(lib, revision), order, k), lib, w + [Get(lib(revision), p)], p, edit)
  {
    var e, x := Crashed(cur, Release(lib, revision), order, k), Get(lib(revision), p);
    var b :| 0 <= b < |w| && Get(Hashes(cur), p) == w[b] && Held(w, b, SlotOf(cur, p), edit);
    CrashedPath(cur, lib, order, revision, k, p);
    HeldBetween(cur, lib(revision), p, SlotOf(e, p), w, b, edit);
    var c := if e.saved == cur.saved || x == w[b] then b else |w|;
    assert Get(Hashes(e), p) == (w + [x])[c] && Held(w + [x], c, SlotOf(e, p), edit);
  }

  lemma {:induction false} ThroughCovers(d: Disk, lib: Library, order: seq<Path>, revisions: seq<string>, ks: seq<nat>,
                                         all: seq<string>)
    requires |ks| == |revisions| && Named(d, lib) && CoversAll(order, d, lib, all)
    requires forall r :: r in revisions ==> r in all
    ensures var e := CrashedThrough(d, lib, order, revisions, ks); Named(e, lib) && CoversAll(order, e, lib, all)
    decreases |revisions|
  {
    if revisions != [] {
      var last := |revisions| - 1;
      ThroughCovers(d, lib, order, revisions[..last], ks[..last], all);
      var cur := CrashedThrough(d, lib, order, revisions[..last], ks[..last]);
      assert revisions[last] in all;
      CrashedPath(cur, lib, order, revisions[last], ks[last], "");
      forall r | r in all ensures Covers(order, CrashedThrough(d, lib, order, revisions, ks), Release(lib, r)) {
        CrashedCovers(cur, lib, order, revisions[last], ks[last], r);
      }
    }
  }

  lemma VersionsSnoc(d: Disk, lib: Library, revisions: seq<string>, p: Path)
    requires revisions != []
    ensures var last := |revisions| - 1;
            Versions(d, lib, revisions, p) == Versions(d, lib, revisions[..last], p) + [Get(lib(revisions[last]), p)]
  {}

  lemma ChangesTwiceLonger(w: seq<Option<Bytes>>, x: Option<Bytes>)
    ensures ChangesTwice(w) ==> ChangesTwice(w + [x])
  {
    if ChangesTwice(w) {
      var b, i, j :| 0 <= b < i < j < |w| && Apart(w[b], w[i], w[j]);
      var more := w + [x];
      assert more[b] == w[b] && more[i] == w[i] && more[j] == w[j];
    }
  }

  lemma {:induction false} ThroughAlive(d: Disk, lib: Library, order: seq<Path>, revisions: seq<string>, ks: seq<nat>, p: Path)
    requires |ks| == |revisions| && Named(d, lib) && CoversAll(order, d, lib, revisions)
    requires p in d.files && p !in Discard(d) && Some(d.files[p]) !in Versions(d, lib, revisions, p)
    requires !ChangesTwice(Versions(d, lib, revisions, p))
    ensures Alive(CrashedThrough(d, lib, order, revisions, ks), lib, Versions(d, lib, revisions, p), p, d.files[p])
    decreases |revisions|
  {
    var w := Versions(d, lib, revisions, p);
    if revisions == [] {
      assert Held(w, 0, SlotOf(d, p), d.files[p]);
    } else {
      var last := |revisions| - 1;
      var before := Versions(d, lib, revisions[..last], p);
      VersionsSnoc(d, lib, revisions, p);
      ChangesTwiceLonger(before, w[|w| - 1]);
      ThroughAlive(d, lib, order, revisions[..last], ks[..last], p);
      ThroughCovers(d, lib, order, revisions[..last], ks[..last], revisions);
      CrashedAlive(CrashedThrough(d, lib, order, revisions[..last], ks[..last]), lib, order, revisions[last], ks[last],
        before, p, d.files[p]);
    }
  }

  // ----- how an edit is lost ---------------------------------------------------------------

  lemma {:induction false} NoSteps(d: Disk, lib: Library, order: seq<Path>, revisions: seq<string>)
    ensures CrashedThrough(d, lib, order, revisions, seq(|revisions|, _ => 0)) == d
    decreases |revisions|
  {
    if revisions != [] {
      var last := |revisions| - 1;
      var ks := seq(|revisions|, _ => 0);
      assert ks[..last] == seq(last, _ => 0);
      NoSteps(d, lib, order, revisions[..last]);
    }
  }

  /** One more pull at the end of a history. */
  lemma ThroughSnoc(d: Disk, lib: Library, order: seq<Path>, revisions: seq<string>, ks: seq<nat>, k: nat)
    requires revisions != [] && |ks| + 1 == |revisions|
    ensures var last := |revisions| - 1;
            CrashedThrough(d, lib, order, revisions, ks + [k]) ==
            Crashed(CrashedThrough(d, lib, order, revisions[..last], ks), Release(lib, revisions[last]), order, k)
  {
    assert (ks + [k])[..|ks|] == ks;
  }

  lemma ThroughZero(d: Disk, lib: Library, order: seq<Path>, revisions: seq<string>, ks: seq<nat>)
    requires revisions != [] && |ks| + 1 == |revisions|
    ensures CrashedThrough(d, lib, order, revisions, ks + [0]) ==
            CrashedThrough(d, lib, order, revisions[..|revisions| - 1], ks)
  {
    ThroughSnoc(d, lib, order, revisions, ks, 0);
  }

  /** A path of `cur` that the pulls of `lib` have brought to `version` as its base, the edit in its place or aside. */
  predicate Based(cur: Disk, p: Path, version: Option<Bytes>, edit: Bytes) {
    && cur.saved.Some? && p !in Discard(cur) && Get(Hashes(cur), p) == version
    && (Get(cur.files, p) == Some(edit) || Get(cur.files, p) == version)
  }

  /** The pull of one version stopped after its moves: its bytes are in place, over an older base. */
  predicate Stopped(cur: Disk, p: Path, version: Option<Bytes>, reached: Option<Bytes>) {
    cur.saved.Some? && p !in Discard(cur) && Get(Hashes(cur), p) == version && Get(cur.files, p) == reached
  }

  /** What a history is about: a directory with a local edit that no version holds. */
  ghost predicate Story(d: Disk, lib: Library, order: seq<Path>, revisions: seq<string>, p: Path) {
    && Named(d, lib) && CoversAll(order, d, lib, revisions)
    && p in d.files && p !in Discard(d) && Some(d.files[p]) !in Versions(d, lib, revisions, p)
  }

  lemma StoryBefore(d: Disk, lib: Library, order: seq<Path>, revisions: seq<string>, p: Path)
    requires Story(d, lib, order, revisions, p) && revisions != []
    ensures var last := |revisions| - 1;
            && Story(d, lib, order, revisions[..last], p)
            && Versions(d, lib, revisions, p) == Versions(d, lib, revisions[..last], p) + [Get(lib(revisions[last]), p)]
  {
    VersionsSnoc(d, lib, revisions, p);
  }

  lemma WholeIsBased(d: Disk, lib: Library, order: seq<Path>, revision: string, p: Path) returns (k: nat)
    requires Named(d, lib) && Covers(order, d, Release(lib, revision)) && p in d.files && p !in Discard(d)
    requires Get(lib(revision), p) != Some(d.files[p]) && Get(Hashes(d), p) != Some(d.files[p])
    ensures Based(Crashed(d, Release(lib, revision), order, k), p, Get(lib(revision), p), d.files[p])
  {
    var s := Release(lib, revision);
    var plan := Plan(d, s, order);
    k := |plan|;
    assert plan[..k] == plan;
    PlanPrefix(d, s, order, k, p);
    assert Incoming(d, s) == s.tree;
  }

  lemma ReachesBase(d: Disk, lib: Library, order: seq<Path>, revisions: seq<string>, p: Path, b: nat)
    returns (ks: seq<nat>)
    requires Story(d, lib, order, revisions, p) && b <= |revisions|
    ensures |ks| == |revisions|
    ensures Based(CrashedThrough(d, lib, order, revisions, ks), p, Versions(d, lib, revisions, p)[b], d.files[p])
    decreases |revisions|
  {
    if b == 0 {
      ks := seq(|revisions|, _ => 0);
      NoSteps(d, lib, order, revisions);
    } else {
      var last := |revisions| - 1;
      StoryBefore(d, lib, order, revisions, p);
      if b <= last {
        ks := ReachesBase(d, lib, order, revisions[..last], p, b);
        ThroughZero(d, lib, order, revisions, ks);
        ks := ks + [0];
      } else {
        ks := seq(last, _ => 0);
        NoSteps(d, lib, order, revisions[..last]);
        var k := WholeIsBased(d, lib, order, revisions[last], p);
        ThroughSnoc(d, lib, order, revisions, ks, k);
        ks := ks + [k];
      }
    }
  }

  lemma StopsAfterMoves(cur: Disk, lib: Library, order: seq<Path>, revision: string, p: Path, version: Option<Bytes>, edit: Bytes)
    returns (k: nat)
    requires Named(cur, lib) && Covers(order, cur, Release(lib, revision)) && Based(cur, p, version, edit)
    requires Get(lib(revision), p) != version && Get(lib(revision), p) != Some(edit)
    ensures Stopped(Crashed(cur, Release(lib, revision), order, k), p, version, Get(lib(revision), p))
  {
    var s := Release(lib, revision);
    k := |ToMoves(cur, s, order)|;
    ToMovesPrefix(cur, s, order, k, p);
    assert Incoming(cur, s) == s.tree;
    assert ToMoves(cur, s, order)[..k] == ToMoves(cur, s, order) == Plan(cur, s, order)[..k];
  }

  lemma EditIsNoVersion(w: seq<Option<Bytes>>, i: nat, edit: Bytes)
    requires i < |w| && Some(edit) !in w
    ensures w[i] != Some(edit)
  {}

  lemma StopsAtLast(d: Disk, lib: Library, order: seq<Path>, revisions: seq<string>, p: Path, b: nat,
                    version: Option<Bytes>, reached: Option<Bytes>)
    returns (ks: seq<nat>)
    requires Story(d, lib, order, revisions, p) && b < |revisions| && version == Versions(d, lib, revisions, p)[b]
    requires reached == Get(lib(revisions[|revisions| - 1]), p) && reached != version && reached != Some(d.files[p])
    ensures |ks| == |revisions| && Stopped(CrashedThrough(d, lib, order, revisions, ks), p, version, reached)
  {
    var last := |revisions| - 1;
    StoryBefore(d, lib, order, revisions, p);
    ks := ReachesBase(d, lib, order, revisions[..last], p, b);
    ThroughCovers(d, lib, order, revisions[..last], ks, revisions);
    var cur := CrashedThrough(d, lib, order, revisions[..last], ks);
    var k := StopsAfterMoves(cur, lib, order, revisions[last], p, version, d.files[p]);
    ThroughSnoc(d, lib, order, revisions, ks, k);
    ks := ks + [k];
  }

  lemma ReachesStop(d: Disk, lib: Library, order: seq<Path>, revisions: seq<string>, p: Path, b: nat, i: nat)
    returns (ks: seq<nat>)
    requires Story(d, lib, order, revisions, p) && b < i <= |revisions|
    requires var w := Versions(d, lib, revisions, p); w[i] != w[b]
    ensures |ks| == |revisions|
    ensures var w := Versions(d, lib, revisions, p);
            Stopped(CrashedThrough(d, lib, order, revisions, ks), p, w[b], w[i])
    decreases |revisions|
  {
    var last := |revisions| - 1;
    var w := Versions(d, lib, revisions, p);
    StoryBefore(d, lib, order, revisions, p);
    if i <= last {
      ks := ReachesStop(d, lib, order, revisions[..last], p, b, i);
      ThroughZero(d, lib, order, revisions, ks);
      ks := ks + [0];
    } else {
      EditIsNoVersion(w, i, d.files[p]);
      ks := StopsAtLast(d, lib, order, revisions, p, b, w[b], w[i]);
    }
  }

  /** The next version sets the half-merged bytes aside, over the edit. */
  lemma NextBuries(cur: Disk, lib: Library, order: seq<Path>, revision: string, p: Path,
                   version: Option<Bytes>, reached: Bytes, edit: Bytes) returns (k: nat)
    requires Named(cur, lib) && Covers(order, cur, Release(lib, revision)) && Stopped(cur, p, version, Some(reached))
    requires Some(reached) != version && Get(lib(revision), p) != version && Get(lib(revision), p) != Some(reached)
    requires edit != reached && Get(lib(revision), p) != Some(edit)
    ensures var e := Crashed(cur, Release(lib, revision), order, k);
            Get(e.files, p) != Some(edit) && Get(e.mine, p) != Some(edit)
  {
    var s := Release(lib, revision);
    var plan := Plan(cur, s, order);
    k := |plan|;
    assert plan[..k] == plan;
    PlanPrefix(cur, s, order, k, p);
    assert Incoming(cur, s) == s.tree;
    BuryingSlot(cur, s.tree, p, version, reached);
  }

  lemma BuryingSlot(cur: Disk, tree: Tree, p: Path, version: Option<Bytes>, reached: Bytes)
    requires Stopped(cur, p, version, Some(reached))
    requires Some(reached) != version && Get(tree, p) != version && Get(tree, p) != Some(reached)
    ensures FinalSlot(cur, tree, p) == Slot(Get(tree, p), Some(reached))
  {}

  lemma BuriedAtLast(d: Disk, lib: Library, order: seq<Path>, revisions: seq<string>, p: Path, b: nat, i: nat, reached: Bytes)
    returns (ks: seq<nat>)
    requires Story(d, lib, order, revisions, p) && b < i < |revisions| && reached != d.files[p]
    requires var w, z := Versions(d, lib, revisions, p), Get(lib(revisions[|revisions| - 1]), p);
             w[i] == Some(reached) && Apart(w[b], w[i], z) && z != Some(d.files[p])
    ensures |ks| == |revisions| && !Survives(d, CrashedThrough(d, lib, order, revisions, ks), p)
  {
    var last := |revisions| - 1;
    StoryBefore(d, lib, order, revisions, p);
    ks := ReachesStop(d, lib, order, revisions[..last], p, b, i);
    ThroughCovers(d, lib, order, revisions[..last], ks, revisions);
    var cur := CrashedThrough(d, lib, order, revisions[..last], ks);
    var k := NextBuries(cur, lib, order, revisions[last], p, Versions(d, lib, revisions, p)[b], reached, d.files[p]);
    ThroughSnoc(d, lib, order, revisions, ks, k);
    ks := ks + [k];
  }

  lemma Buried(d: Disk, lib: Library, order: seq<Path>, revisions: seq<string>, p: Path, b: nat, i: nat, j: nat)
    returns (ks: seq<nat>)
    requires Story(d, lib, order, revisions, p) && b < i < j <= |revisions|
    requires var w := Versions(d, lib, revisions, p); Apart(w[b], w[i], w[j])
    ensures |ks| == |revisions| && !Survives(d, CrashedThrough(d, lib, order, revisions, ks), p)
    decreases |revisions|
  {
    var last := |revisions| - 1;
    var w := Versions(d, lib, revisions, p);
    StoryBefore(d, lib, order, revisions, p);
    if j <= last {
      ks := Buried(d, lib, order, revisions[..last], p, b, i, j);
      ThroughZero(d, lib, order, revisions, ks);
      ks := ks + [0];
    } else {
      EditIsNoVersion(w, i, d.files[p]);
      EditIsNoVersion(w, j, d.files[p]);
      ks := BuriedAtLast(d, lib, order, revisions, p, b, i, w[i].value);
    }
  }

  /**
   However often `pull` is killed while the server goes on publishing, an edit that was never committed
   and that no revision holds survives, at its path or in its `.mine`, if and only if its path does not
   go through three different versions whose second one is a file. Then a pull stopped after its moves
   leaves the second version in place over a base of the first, and the pull of the third takes it for
   a local edit and sets it aside over the `.mine` that holds the real one.
   */
  lemma EditsSurvivePublications(d: Disk, lib: Library, order: seq<Path>, revisions: seq<string>, p: Path)
    requires Story(d, lib, order, revisions, p)
    ensures (forall ks :: |ks| == |revisions| ==> Survives(d, CrashedThrough(d, lib, order, revisions, ks), p))
            <==> !ChangesTwice(Versions(d, lib, revisions, p))
  {
    var w := Versions(d, lib, revisions, p);
    if ChangesTwice(w) {
      var b, i, j :| 0 <= b < i < j < |w| && Apart(w[b], w[i], w[j]);
      var ks := Buried(d, lib, order, revisions, p, b, i, j);
    } else {
      forall ks | |ks| == |revisions| ensures Survives(d, CrashedThrough(d, lib, order, revisions, ks), p) {
        ThroughAlive(d, lib, order, revisions, ks, p);
      }
    }
  }

  /** Each revision publishes its own name in the file. */
  function Labels(p: Path): Library {
    r => map[p := r]
  }

  function EditedDisk(p: Path): Disk {
    Disk(true, map[p := "edit"], map[], map[p := "1"], map[], Some(Saved("1", map[p := "1"], map[])))
  }

  /** Two publications of one edited file, with a crash between them, bury the edit. */
  lemma TwoPublicationsBury(p: Path) returns (ks: seq<nat>)
    ensures Story(EditedDisk(p), Labels(p), [p], ["2", "3"], p)
    ensures |ks| == 2 && !Survives(EditedDisk(p), CrashedThrough(EditedDisk(p), Labels(p), [p], ["2", "3"], ks), p)
  {
    var w := Versions(EditedDisk(p), Labels(p), ["2", "3"], p);
    assert w[0] == Some("1") && w[1] == Some("2") && w[2] == Some("3");
    assert "1"[0] != "2"[0] && "2"[0] != "3"[0] && "3"[0] != "1"[0] && |"edit"| == 4;
    ks := Buried(EditedDisk(p), Labels(p), [p], ["2", "3"], p, 0, 1, 2);
  }
}
