/**
 The directory that `pull` edits in place. The method follows the program step by step; its contract
 says that the steps it takes are exactly the plan reasoned about in `Workspace`.
 */
module WorkspaceDir {
  import opened Prelude
  import opened Workspace

  /** The paths of `order` with a given fate, in order: one of the lists that `pull` reports. */
  function WithFate(d: Disk, published: Tree, order: seq<Path>, fate: Fate): (r: seq<Path>)
    ensures forall p :: p in r <==> p in order && FateOf(d, published, p) == fate
  {
    if order == [] then []
    else
      var rest := WithFate(d, published, order[..|order| - 1], fate);
      var p := order[|order| - 1];
      assert order == order[..|order| - 1] + [p];
      if FateOf(d, published, p) == fate then rest + [p] else rest
  }

  /** The three contents of a path: local, pulled and published. Without a state file only the last one counts. */
  datatype Three = Three(local: Option<Bytes>, base: Option<Bytes>, theirs: Option<Bytes>)

  function ThreeOf(d: Disk, published: Tree, p: Path): Three {
    if d.saved.Some? then Three(Get(d.files, p), Get(d.saved.value.hashes, p), Get(published, p))
    else Three(None, None, Get(published, p))
  }

  /** The path holds the very bytes that `propose` committed. */
  predicate HoldsCommitted(d: Disk, p: Path) {
    d.saved.Some? && p in d.saved.value.discard && Get(d.files, p) == Some(d.saved.value.discard[p])
  }

  /** All three contents differ, absence included, and the local one is not the committed one. */
  predicate Disputed(d: Disk, published: Tree, p: Path) {
    var c := ThreeOf(d, published, p);
    !HoldsCommitted(d, p) && c.local != c.base && c.local != c.theirs && c.base != c.theirs
  }

  /** The local content differs from a base that is still the published one, and is not the committed one. */
  predicate MineAlone(d: Disk, published: Tree, p: Path) {
    var c := ThreeOf(d, published, p);
    !HoldsCommitted(d, p) && c.local != c.base == c.theirs
  }

  /** The base differs from the published content, or from the local one. */
  predicate Moved(d: Disk, published: Tree, p: Path) {
    var c := ThreeOf(d, published, p);
    c.local != c.base || c.base != c.theirs
  }

  /** What a pull reports of a path: any other one that moved is updated. */
  ghost predicate Reports(d: Disk, published: Tree, p: Path, updated: seq<Path>, kept: seq<Path>, conflicted: seq<Path>) {
    && (p in conflicted <==> Disputed(d, published, p))
    && (p in kept <==> MineAlone(d, published, p))
    && (p in updated <==> Moved(d, published, p) && !Disputed(d, published, p) && !MineAlone(d, published, p))
  }

  /** The fate of one path, said the same way. */
  ghost predicate FateMeans(d: Disk, published: Tree, p: Path, fate: Fate) {
    && (fate == Conflicted <==> Disputed(d, published, p))
    && (fate == Kept <==> MineAlone(d, published, p))
    && (fate == Unchanged <==> !Moved(d, published, p))
  }

  lemma FateIs(d: Disk, published: Tree, p: Path)
    ensures FateMeans(d, published, p, FateOf(d, published, p))
  {}

  /** What a pull leaves of a path: a kept one stays, a conflict is set aside, anything else is the published one. */
  ghost predicate Leaves(d: Disk, published: Tree, p: Path, e: Disk) {
    && (Get(e.files, p) ==
          if MineAlone(d, published, p) || (d.saved == None && p !in published) then Get(d.files, p)
          else Get(published, p))
    && (Get(e.mine, p) ==
          if HoldsCommitted(d, p) then None
          else if Disputed(d, published, p) && p in d.files then Get(d.files, p)
          else Get(d.mine, p))
  }

  lemma ReportsPath(d: Disk, published: Tree, order: seq<Path>, p: Path)
    ensures p in order || !Moved(d, published, p) ==>
              Reports(d, published, p, WithFate(d, published, order, Updated), WithFate(d, published, order, Kept),
                      WithFate(d, published, order, Conflicted))
  {
    FateIs(d, published, p);
  }

  lemma LeavesPath(d: Disk, s: Published, order: seq<Path>, p: Path)
    requires Covers(order, d, s) && Honest(d, s)
    ensures Leaves(d, s.tree, p, Pulled(d, s, order))
  {
    PlanWhole(d, s, order, p);
    assert SlotOf(Pulled(d, s, order), p) == FinalSlot(d, s.tree, p);
  }

  lemma WithFateSnoc(d: Disk, published: Tree, order: seq<Path>, i: nat)
    requires i < |order|
    ensures forall fate :: WithFate(d, published, order[..i + 1], fate) ==
              WithFate(d, published, order[..i], fate) + (if FateOf(d, published, order[i]) == fate then [order[i]] else [])
  {
    assert order[..i + 1][..i] == order[..i];
  }

  lemma {:induction false} FlattenSnoc(groups: seq<seq<Step>>, last: seq<Step>)
    ensures Flatten(groups + [last]) == Flatten(groups) + last
  {
    if groups == [] {
      assert groups + [last] == [last] && [last][1..] == [];
    } else {
      assert (groups + [last])[1..] == groups[1..] + [last];
      FlattenSnoc(groups[1..], last);
    }
  }

  lemma MovesSnoc(d: Disk, published: Tree, order: seq<Path>, i: nat)
    requires i < |order|
    ensures Moves(d, published, order[..i + 1]) == Moves(d, published, order[..i]) + PathSteps(d, published, order[i])
  {
    assert Groups(d, published, order[..i + 1])
        == Groups(d, published, order[..i]) + [PathSteps(d, published, order[i])];
    FlattenSnoc(Groups(d, published, order[..i]), PathSteps(d, published, order[i]));
  }

  lemma {:induction false} DropsSnoc(d: Disk, order: seq<Path>, i: nat)
    requires i < |order|
    ensures Drops(d, order[..i + 1]) ==
            Drops(d, order[..i]) + (if Committed(d, order[i]) then [DropMine(order[i])] else [])
  {
    if i == 0 {
      assert order[..1] == [order[0]] && order[..1][1..] == [] && order[..0] == [];
    } else {
      assert order[..i + 1][1..] == order[1..][..i] && order[..i][1..] == order[1..][..i - 1];
      DropsSnoc(d, order[1..], i - 1);
    }
  }

  lemma {:induction false} BaseDropsSnoc(d: Disk, order: seq<Path>, i: nat)
    requires i < |order|
    ensures BaseDrops(d, order[..i + 1]) ==
            BaseDrops(d, order[..i]) + (if order[i] in d.base then [DropBase(order[i])] else [])
  {
    if i == 0 {
      assert order[..1] == [order[0]] && order[..1][1..] == [] && order[..0] == [];
    } else {
      assert order[..i + 1][1..] == order[1..][..i] && order[..i][1..] == order[1..][..i - 1];
      BaseDropsSnoc(d, order[1..], i - 1);
    }
  }

  class Directory {
    var meta: bool
    var files: Tree
    var mine: Tree
    var base: Tree
    var incoming: Tree
    var saved: Option<Saved>

    function Contents(): Disk
      reads this
    {
      Disk(meta, files, mine, base, incoming, saved)
    }

    /** `changes`: the local paths whose content differs from the recorded base. */
    method Changes() returns (changed: set<Path>, local: Tree)
      ensures forall p :: p in changed <==> Changed(Contents(), p)
      ensures forall p :: Get(local, p) == Local(Contents(), p)
    {
      if saved == None {
        changed, local := {}, map[];
      } else {
        local := files;
        var hashes := saved.value.hashes;
        changed := set p | p in local.Keys + hashes.Keys && Get(local, p) != Get(hashes, p);
        forall p | Changed(Contents(), p) ensures p in changed {
          assert p in local.Keys + hashes.Keys;
        }
      }
    }

    /** The 304 answer, or the download unpacked into `incoming`. */
    method Fetch(s: Published) returns (fetched: bool, published: Tree)
      requires Honest(Contents(), s)
      modifies this`meta, this`incoming
      ensures fetched == !NotModified(old(Contents()), s)
      ensures published == Incoming(old(Contents()), s)
      ensures Contents() == DoAll(old(Contents()), Head(old(Contents()), s))
      ensures fetched ==> incoming == published
      ensures !fetched ==> base == published
    {
      ghost var d := Contents();
      fetched := !(saved.Some? && base == saved.value.hashes && saved.value.revision == s.revision);
      if fetched {
        DoOne(d, Stage(s.tree));
        meta, incoming, published := true, s.tree, s.tree;
      } else {
        published := base;
      }
    }

    /** One turn of the merge loop. */
    method MergePath(fetched: bool, published: Tree, changed: set<Path>, local: Tree, p: Path, ghost d: Disk)
      returns (fate: Fate)
      requires p in changed <==> Changed(d, p)
      requires Get(local, p) == Local(d, p)
      requires saved == d.saved && SlotOf(Contents(), p) == SlotOf(d, p)
      requires published == if fetched then incoming else base
      modifies this`files, this`mine
      ensures fate == FateOf(d, published, p) && FateMeans(d, published, p, fate)
      ensures Contents() == DoAll(old(Contents()), PathSteps(d, published, p))
    {
      FateIs(d, published, p);
      var hashes := if saved.Some? then saved.value.hashes else map[];
      var discard := if saved.Some? then saved.value.discard else map[];
      var committed := p in discard && Get(local, p) == Some(discard[p]);
      var edited := p in changed && !committed && Get(local, p) != Get(published, p);
      if edited && Get(hashes, p) == Get(published, p) {
        return Kept;
      }
      if p !in changed && Get(hashes, p) == Get(published, p) {
        return Unchanged;
      }
      ghost var before := Contents();
      if edited {
        fate := Conflicted;
        if p in files {
          mine, files := mine[p := files[p]], Without(files, p);
        }
      } else {
        fate := Updated;
      }
      if p in published {
        files := files[p := if fetched then incoming[p] else base[p]];
      } else if p in files {
        files := Without(files, p);
      }
      PlacedAs(d, published, p, before, Contents());
    }

    method Merge(fetched: bool, published: Tree, order: seq<Path>, changed: set<Path>, local: Tree, ghost d: Disk)
      returns (updated: seq<Path>, kept: seq<Path>, conflicted: seq<Path>)
      requires Distinct(order)
      requires forall p :: p in changed <==> Changed(d, p)
      requires forall p :: Get(local, p) == Local(d, p)
      requires saved == d.saved && files == d.files && mine == d.mine
      requires published == if fetched then incoming else base
      modifies this`files, this`mine
      ensures Contents() == DoAll(old(Contents()), Moves(d, published, order))
      ensures updated == WithFate(d, published, order, Updated)
      ensures kept == WithFate(d, published, order, Kept)
      ensures conflicted == WithFate(d, published, order, Conflicted)
      ensures forall p :: p in order ==> Reports(d, published, p, updated, kept, conflicted)
    {
      updated, kept, conflicted := [], [], [];
      ghost var start := Contents();
      for i := 0 to |order|
        invariant Contents() == DoAll(start, Moves(d, published, order[..i]))
        invariant updated == WithFate(d, published, order[..i], Updated)
        invariant kept == WithFate(d, published, order[..i], Kept)
        invariant conflicted == WithFate(d, published, order[..i], Conflicted)
      {
        UntouchedSoFar(d, published, order, i, start);
        MovesSnoc(d, published, order, i);
        DoAllAppend(start, Moves(d, published, order[..i]), PathSteps(d, published, order[i]));
        WithFateSnoc(d, published, order, i);
        var fate := MergePath(fetched, published, changed, local, order[i], d);
        match fate {
          case Unchanged =>
          case Kept => kept := kept + [order[i]];
          case Conflicted => conflicted := conflicted + [order[i]];
          case Updated => updated := updated + [order[i]];
        }
      }
      assert order[..|order|] == order;
      forall p | p in order ensures Reports(d, published, p, updated, kept, conflicted) {
        ReportsPath(d, published, order, p);
      }
    }

    /** The `.mine` copies of resolved conflicts go. */
    method DropResolved(order: seq<Path>, local: Tree, ghost d: Disk)
      requires forall p :: Get(local, p) == Local(d, p)
      requires saved == d.saved
      modifies this`mine
      ensures Contents() == DoAll(old(Contents()), Drops(d, order))
    {
      var discard := if saved.Some? then saved.value.discard else map[];
      ghost var start := Contents();
      for i := 0 to |order|
        invariant Contents() == DoAll(start, Drops(d, order[..i]))
      {
        var p := order[i];
        DropsSnoc(d, order, i);
        DoAllAppend(start, Drops(d, order[..i]), if Committed(d, p) then [DropMine(p)] else []);
        if p in discard && Get(local, p) == Some(discard[p]) {
          DoOne(Contents(), DropMine(p));
          mine := Without(mine, p);
        }
      }
      assert order[..|order|] == order;
    }

    /** `rmtree(base)`, then the downloaded tree becomes the base. */
    method InstallIncoming(order: seq<Path>, ghost d: Disk)
      requires base == d.base && Distinct(order)
      modifies this`base, this`incoming
      ensures Contents() == DoAll(old(Contents()), BaseDrops(d, order) + [InstallBase])
    {
      ghost var start := Contents();
      for i := 0 to |order|
        invariant Contents() == DoAll(start, BaseDrops(d, order[..i]))
        invariant incoming == start.incoming
        invariant forall j :: i <= j < |order| ==> (order[j] in base <==> order[j] in d.base)
      {
        var p := order[i];
        BaseDropsSnoc(d, order, i);
        DoAllAppend(start, BaseDrops(d, order[..i]), if p in d.base then [DropBase(p)] else []);
        DoOne(Contents(), DropBase(p));
        if p in base {
          base := Without(base, p);
        }
      }
      assert order[..|order|] == order;
      DoAllAppend(start, BaseDrops(d, order), [InstallBase]);
      DoOne(Contents(), InstallBase);
      base, incoming := incoming, map[];
    }

    /**
     `pull`, once the server has answered. `order` is the sorted list of the paths to visit. A directory
     that holds files but was never a workspace is refused and left alone.
     */
    method Pull(s: Published, order: seq<Path>)
      returns (ok: bool, updated: seq<Path>, kept: seq<Path>, conflicted: seq<Path>)
      requires Covers(order, Contents(), s) && Honest(Contents(), s)
      modifies this
      ensures ok <==> old(saved.Some? || meta || (files == map[] && mine == map[]))
      ensures !ok ==> Contents() == old(Contents())
      ensures ok ==> Contents() == Pulled(old(Contents()), s, order)
      ensures ok ==> updated == WithFate(old(Contents()), s.tree, order, Updated)
      ensures ok ==> kept == WithFate(old(Contents()), s.tree, order, Kept)
      ensures ok ==> conflicted == WithFate(old(Contents()), s.tree, order, Conflicted)
      ensures ok ==> forall p :: Reports(old(Contents()), s.tree, p, updated, kept, conflicted)
      ensures ok ==> forall p :: Leaves(old(Contents()), s.tree, p, Contents())
      ensures ok ==> base == s.tree && saved == Some(Saved(s.revision, s.tree, map[]))
    {
      if saved == None && !meta && (files != map[] || mine != map[]) {
        return false, [], [], [];
      }
      ok := true;
      ghost var d := Contents();
      updated, kept, conflicted := Reconcile(s, order);
      forall p ensures Reports(d, s.tree, p, updated, kept, conflicted) && Leaves(d, s.tree, p, Contents()) {
        ReportsPath(d, s.tree, order, p);
        LeavesPath(d, s, order, p);
      }
      PlanWhole(d, s, order, "");
    }

    /** The steps of a pull that goes ahead. */
    method Reconcile(s: Published, order: seq<Path>) returns (updated: seq<Path>, kept: seq<Path>, conflicted: seq<Path>)
      requires Covers(order, Contents(), s) && Honest(Contents(), s)
      modifies this
      ensures Contents() == Pulled(old(Contents()), s, order)
      ensures updated == WithFate(old(Contents()), s.tree, order, Updated)
      ensures kept == WithFate(old(Contents()), s.tree, order, Kept)
      ensures conflicted == WithFate(old(Contents()), s.tree, order, Conflicted)
    {
      ghost var d := Contents();
      PlanWhole(d, s, order, "");
      var changed, local := Changes();
      var fetched, published := Fetch(s);
      updated, kept, conflicted := Merge(fetched, published, order, changed, local, d);
      DoAllAppend(d, Head(d, s), Moves(d, published, order));
      ToMovesEnd(d, s, order);
      DropResolved(order, local, d);
      DoAllAppend(d, ToMoves(d, s, order), Drops(d, order));
      ToDropsEnd(d, s, order);
      DoAllAppend(d, ToDrops(d, s, order), Tail(d, s, order));
      Settle(s, order, fetched, published, d);
    }

    /** The end of a pull: the staged tree becomes the base, and then the state file is written. */
    method Settle(s: Published, order: seq<Path>, fetched: bool, published: Tree, ghost d: Disk)
      requires fetched == !NotModified(d, s) && published == Incoming(d, s)
      requires base == d.base && Distinct(order)
      modifies this`base, this`incoming, this`meta, this`saved
      ensures Contents() == DoAll(old(Contents()), Tail(d, s, order))
    {
      ghost var dropped := Contents();
      ghost var save := Save(Saved(s.revision, published, map[]));
      if fetched {
        InstallIncoming(order, d);
        DoAllAppend(dropped, BaseDrops(d, order) + [InstallBase], [save]);
      }
      DoOne(Contents(), save);
      assert [] + [save] == [save];
      meta, saved := true, Some(Saved(s.revision, published, map[]));
    }

    /** `_revert`: a parked item's paths go back to the pulled base, and their `.mine` copies go. */
    method Revert(paths: seq<Path>)
      modifies this`files, this`mine
      ensures forall p :: SlotOf(Contents(), p) ==
                if p in paths then Slot(Get(base, p), None) else old(SlotOf(Contents(), p))
      ensures saved.Some? && base == saved.value.hashes ==> forall p :: p in paths ==> !Changed(Contents(), p)
    {
      for i := 0 to |paths|
        invariant forall p :: SlotOf(Contents(), p) ==
                    if p in paths[..i] then Slot(Get(base, p), None) else old(SlotOf(Contents(), p))
      {
        var p := paths[i];
        if p in base {
          files := files[p := base[p]];
        } else {
          files := Without(files, p);
        }
        mine := Without(mine, p);
        assert paths[..i + 1] == paths[..i] + [p];
      }
      forall p | p in paths && saved.Some? && base == saved.value.hashes ensures !Changed(Contents(), p) {
        assert SlotOf(Contents(), p) == Slot(Get(base, p), None);
      }
    }

    /** The end of `propose`: the committed bytes are noted on disk before the pull that fetches them. */
    method NoteCommitted(committed: Tree)
      requires saved.Some?
      modifies this`saved
      ensures saved == Some(old(saved).value.(discard := old(saved).value.discard + committed))
      ensures forall p :: p in committed && Get(files, p) == Some(committed[p]) ==> Committed(Contents(), p)
    {
      saved := Some(saved.value.(discard := saved.value.discard + committed));
    }
  }

  lemma ToMovesEnd(d: Disk, s: Published, order: seq<Path>)
    requires Covers(order, d, s)
    ensures var e := DoAll(d, ToMoves(d, s, order)); e.base == d.base && e.saved == d.saved
  {
    var plan := ToMoves(d, s, order);
    assert plan[..|plan|] == plan;
    ToMovesPrefix(d, s, order, |plan|, "");
  }

  lemma ToDropsEnd(d: Disk, s: Published, order: seq<Path>)
    requires Covers(order, d, s)
    ensures var e := DoAll(d, ToDrops(d, s, order)); e.base == d.base && e.saved == d.saved
  {
    var plan := ToDrops(d, s, order);
    assert plan[..|plan|] == plan;
    ToDropsPrefix(d, s, order, |plan|, "");
  }

  /** No earlier move has touched the path visited at index `i`. */
  lemma UntouchedSoFar(d: Disk, published: Tree, order: seq<Path>, i: nat, start: Disk)
    requires i < |order| && Distinct(order) && SlotOf(start, order[i]) == SlotOf(d, order[i])
    ensures SlotOf(DoAll(start, Moves(d, published, order[..i])), order[i]) == SlotOf(d, order[i])
  {
    var m := Moves(d, published, order[..i]);
    assert m[..|m|] == m;
    MovesPrefix(d, published, order[..i], start, |m|, order[i]);
  }

  /** The program's moves on one path are the planned ones. */
  lemma PlacedAs(d: Disk, published: Tree, p: Path, before: Disk, after: Disk)
    requires SlotOf(before, p) == SlotOf(d, p)
    requires FateOf(d, published, p) == Conflicted || FateOf(d, published, p) == Updated
    requires
      var aside := FateOf(d, published, p) == Conflicted && p in before.files;
      var mid := if aside then before.(files := Without(before.files, p), mine := before.mine[p := before.files[p]])
                 else before;
      after == if p in published then mid.(files := mid.files[p := published[p]])
               else if p in mid.files then mid.(files := Without(mid.files, p)) else mid
    ensures after == DoAll(before, PathSteps(d, published, p))
  {
    assert p in before.files <==> p in d.files;
    var steps := PathSteps(d, published, p);
    if |steps| == 1 {
      DoOne(before, steps[0]);
      assert steps == [steps[0]];
    } else if |steps| == 2 {
      DoTwo(before, steps[0], steps[1]);
      assert steps == [steps[0], steps[1]];
    }
  }
}
