/** Greedy packing of evidence blocks into files (`planner.pack`). */
module Packing {

  function Total<T>(blocks: seq<T>, size: T -> nat): nat {
    if blocks == [] then 0 else Total(blocks[..|blocks| - 1], size) + size(blocks[|blocks| - 1])
  }

  function Flatten<T>(groups: seq<seq<T>>): seq<T> {
    if groups == [] then [] else groups[0] + Flatten(groups[1..])
  }

  /** A group within the limit; a block larger than it stands alone. */
  predicate Fits<T>(group: seq<T>, limit: int, size: T -> nat) {
    |group| <= 1 || Total(group, size) <= limit
  }

  /** A partition of the blocks, in order, into groups that fit. */
  ghost predicate Packs<T>(groups: seq<seq<T>>, blocks: seq<T>, limit: int, size: T -> nat) {
    Flatten(groups) == blocks && forall i :: 0 <= i < |groups| ==> Fits(groups[i], limit, size)
  }

  /** No group is empty, and none has room for the next group's first block. */
  ghost predicate Tight<T>(groups: seq<seq<T>>, limit: int, size: T -> nat) {
    && (forall i :: 0 <= i < |groups| ==> groups[i] != [])
    && forall i :: 0 <= i < |groups| - 1 ==> Total(groups[i], size) + size(groups[i + 1][0]) > limit
  }

  lemma {:induction false} FlattenAppend<T>(a: seq<seq<T>>, b: seq<seq<T>>)
    ensures Flatten(a + b) == Flatten(a) + Flatten(b)
    decreases |a|
  {
    if a == [] {
      assert a + b == b;
    } else {
      assert (a + b)[0] == a[0] && (a + b)[1..] == a[1..] + b;
      FlattenAppend(a[1..], b);
    }
  }

  lemma FlattenSnoc<T>(groups: seq<seq<T>>, last: seq<T>)
    ensures Flatten(groups + [last]) == Flatten(groups) + last
  {
    FlattenAppend(groups, [last]);
    assert [last][1..] == [];
  }

  lemma TotalSnoc<T>(group: seq<T>, block: T, size: T -> nat)
    ensures Total(group + [block], size) == Total(group, size) + size(block)
  {
    assert (group + [block])[..|group|] == group;
  }

  lemma {:induction false} TotalAppend<T>(a: seq<T>, b: seq<T>, size: T -> nat)
    ensures Total(a + b, size) == Total(a, size) + Total(b, size)
    decreases |b|
  {
    if b == [] {
      assert a + b == a;
    } else {
      assert (a + b)[..|a + b| - 1] == a + b[..|b| - 1];
      TotalAppend(a, b[..|b| - 1], size);
    }
  }

  /** The open group takes the block, or a new group starts with it. */
  lemma PackNext<T>(groups: seq<seq<T>>, blocks: seq<T>, limit: int, size: T -> nat, block: T)
    requires Packs(groups, blocks, limit, size) && Tight(groups, limit, size)
    ensures var n := |groups| - 1;
            if groups == [] || Total(groups[n], size) + size(block) > limit then
              Packs(groups + [[block]], blocks + [block], limit, size) && Tight(groups + [[block]], limit, size)
            else
              var grown := groups[..n] + [groups[n] + [block]];
              Packs(grown, blocks + [block], limit, size) && Tight(grown, limit, size)
  {
    var n := |groups| - 1;
    if groups == [] || Total(groups[n], size) + size(block) > limit {
      var more := groups + [[block]];
      FlattenSnoc(groups, [block]);
      assert forall i :: 0 <= i <= n ==> more[i] == groups[i];
    } else {
      var grown := groups[..n] + [groups[n] + [block]];
      assert groups == groups[..n] + [groups[n]];
      FlattenSnoc(groups[..n], groups[n]);
      FlattenSnoc(groups[..n], groups[n] + [block]);
      TotalSnoc(groups[n], block, size);
      assert forall i :: 0 <= i < n ==> grown[i] == groups[i];
    }
  }

  method Pack<T>(blocks: seq<T>, limit: int, size: T -> nat) returns (groups: seq<seq<T>>)
    ensures Packs(groups, blocks, limit, size) && Tight(groups, limit, size)
  {
    groups := [];
    var total := 0;
    for i := 0 to |blocks|
      invariant Packs(groups, blocks[..i], limit, size) && Tight(groups, limit, size)
      invariant groups != [] ==> total == Total(groups[|groups| - 1], size)
    {
      var block := blocks[i];
      assert blocks[..i + 1] == blocks[..i] + [block];
      PackNext(groups, blocks[..i], limit, size, block);
      var length := size(block);
      if groups == [] || total + length > limit {
        groups, total := groups + [[]], 0;
      }
      var n := |groups| - 1;
      TotalSnoc(groups[n], block, size);
      groups, total := groups[..n] + [groups[n] + [block]], total + length;
    }
    assert blocks[..|blocks|] == blocks;
  }

  /** A group that holds a whole greedy group and the block after it does not fit. */
  lemma TooMuch<T>(group: seq<T>, before: seq<T>, greedy: seq<T>, next: T, after: seq<T>, limit: int, size: T -> nat)
    requires group == before + greedy + [next] + after && greedy != []
    requires Total(greedy, size) + size(next) > limit
    ensures !Fits(group, limit, size)
  {
    TotalAppend(before + greedy + [next], after, size);
    TotalSnoc(before + greedy, next, size);
    TotalAppend(before, greedy, size);
  }

  /** Greedy stays ahead: `lead` is what it packed already and the other partition has still to pack. */
  lemma {:induction false} StaysAhead<T>(greedy: seq<seq<T>>, other: seq<seq<T>>, lead: seq<T>, limit: int, size: T -> nat)
    requires Tight(greedy, limit, size) && Packs(other, lead + Flatten(greedy), limit, size)
    ensures |greedy| <= |other|
    decreases |other|
  {
    if greedy != [] && other != [] {
      var g, rest, p := greedy[0], Flatten(greedy[1..]), other[0];
      var all := lead + (g + rest);
      assert Fits(p, limit, size);
      assert all == p + Flatten(other[1..]);
      assert p == all[..|p|] && Flatten(other[1..]) == all[|p|..];
      assert forall i :: 0 <= i < |other| - 1 ==> other[1..][i] == other[i + 1];
      if |p| <= |lead| {
        assert all[|p|..] == lead[|p|..] + (g + rest);
        StaysAhead(greedy, other[1..], lead[|p|..], limit, size);
      } else {
        var x := |p| - |lead|;
        if x > |g| {
          assert rest != [];
          var next := greedy[1][0];
          assert greedy[1..] != [] && rest == greedy[1..][0] + Flatten(greedy[1..][1..]);
          assert rest[0] == next;
          assert p == lead + g + [next] + p[|lead| + |g| + 1..];
          TooMuch(p, lead, g, next, p[|lead| + |g| + 1..], limit, size);
          assert false;
        }
        assert all[|p|..] == g[x..] + rest;
        assert forall i :: 0 <= i < |greedy| - 1 ==> greedy[1..][i] == greedy[i + 1];
        StaysAhead(greedy[1..], other[1..], g[x..], limit, size);
      }
    }
  }

  /** No partition into groups that fit has fewer groups than a tight one; also for a limit below zero. */
  lemma GreedyIsOptimal<T>(greedy: seq<seq<T>>, other: seq<seq<T>>, blocks: seq<T>, limit: int, size: T -> nat)
    requires Packs(greedy, blocks, limit, size) && Tight(greedy, limit, size) && Packs(other, blocks, limit, size)
    ensures |greedy| <= |other|
  {
    assert [] + Flatten(greedy) == Flatten(greedy);
    StaysAhead(greedy, other, [], limit, size);
  }

  /** Greedy packing is the only tight one. */
  lemma {:induction false} TightIsUnique<T>(a: seq<seq<T>>, b: seq<seq<T>>, blocks: seq<T>, limit: int, size: T -> nat)
    requires Packs(a, blocks, limit, size) && Tight(a, limit, size)
    requires Packs(b, blocks, limit, size) && Tight(b, limit, size)
    ensures a == b
    decreases |a|
  {
    if a != [] && b != [] {
      FirstIsNoLonger(a, b, blocks, limit, size);
      FirstIsNoLonger(b, a, blocks, limit, size);
      var n := |a[0]|;
      assert a[0] == blocks[..n] && b[0] == blocks[..n];
      assert Flatten(a[1..]) == blocks[n..] && Flatten(b[1..]) == blocks[n..];
      assert forall i :: 0 <= i < |a| - 1 ==> a[1..][i] == a[i + 1];
      assert forall i :: 0 <= i < |b| - 1 ==> b[1..][i] == b[i + 1];
      TightIsUnique(a[1..], b[1..], blocks[n..], limit, size);
    }
  }

  lemma FirstIsNoLonger<T>(a: seq<seq<T>>, b: seq<seq<T>>, blocks: seq<T>, limit: int, size: T -> nat)
    requires Packs(a, blocks, limit, size) && Tight(a, limit, size) && a != []
    requires Packs(b, blocks, limit, size) && Tight(b, limit, size) && b != []
    ensures |a[0]| <= |b[0]|
  {
    var n, m := |a[0]|, |b[0]|;
    assert Fits(a[0], limit, size);
    if n > m {
      assert a[0] == blocks[..n] && b[0] == blocks[..m];
      assert Flatten(b[1..]) == blocks[m..];
      var next := b[1][0];
      assert b[1..][0] == b[1] && Flatten(b[1..]) == b[1..][0] + Flatten(b[1..][1..]);
      assert blocks[m] == next;
      assert a[0] == [] + b[0] + [next] + a[0][m + 1..];
      TooMuch(a[0], [], b[0], next, a[0][m + 1..], limit, size);
      assert false;
    }
  }
}
