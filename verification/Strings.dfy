/** The order of strings: the first character that differs decides, and a prefix comes first. */
module Strings {

  predicate Before(a: string, b: string) {
    if b == "" then false
    else if a == "" then true
    else a[0] < b[0] || (a[0] == b[0] && Before(a[1..], b[1..]))
  }

  /** A proper prefix comes before, and so does what has the smaller character where both first differ. */
  ghost predicate Earlier(a: string, b: string) {
    (a <= b && a != b) || exists k: nat :: SmallerAt(a, b, k)
  }

  /** The first character where they differ, with the smaller one in `a`. */
  ghost predicate SmallerAt(a: string, b: string, k: nat) {
    k < |a| && k < |b| && a[..k] == b[..k] && a[k] < b[k]
  }

  lemma SmallerBehind(c: char, a: string, b: string, k: nat)
    ensures SmallerAt(a, b, k) <==> SmallerAt([c] + a, [c] + b, k + 1)
  {
    var a', b' := [c] + a, [c] + b;
    if k < |a| && k < |b| {
      assert a'[..k + 1] == [c] + a[..k] && b'[..k + 1] == [c] + b[..k];
      assert a'[..k + 1][1..] == a[..k] && b'[..k + 1][1..] == b[..k];
    }
  }

  lemma PrefixBehind(c: char, a: string, b: string)
    ensures a <= b <==> [c] + a <= [c] + b
  {
    if [c] + a <= [c] + b { assert a == ([c] + a)[1..] && b[..|a|] == ([c] + b)[..|a| + 1][1..]; }
  }

  lemma EarlierBehind(c: char, a: string, b: string)
    ensures Earlier(a, b) <==> Earlier([c] + a, [c] + b)
  {
    PrefixBehind(c, a, b);
    assert a == ([c] + a)[1..] && b == ([c] + b)[1..];
    if k: nat :| SmallerAt(a, b, k) { SmallerBehind(c, a, b, k); }
    if k: nat :| SmallerAt([c] + a, [c] + b, k) { SmallerBehind(c, a, b, k - 1); }
  }

  lemma HeadsDiffer(a: string, b: string)
    requires a != "" && b != "" && a[0] != b[0]
    ensures Earlier(a, b) <==> a[0] < b[0]
  {
    assert SmallerAt(a, b, 0) <==> a[0] < b[0];
    if k: nat :| SmallerAt(a, b, k) {
      if k > 0 { assert a[..k][0] == b[..k][0]; }
    }
  }

  lemma {:induction false} BeforeMeans(a: string, b: string)
    ensures Before(a, b) <==> Earlier(a, b)
    decreases |a|
  {
    if a != "" && b != "" {
      if a[0] == b[0] {
        BeforeMeans(a[1..], b[1..]);
        EarlierBehind(a[0], a[1..], b[1..]);
        assert a == [a[0]] + a[1..] && b == [b[0]] + b[1..];
      } else {
        HeadsDiffer(a, b);
      }
    }
  }

  lemma {:induction false} BeforeIsIrreflexive(a: string)
    ensures !Before(a, a)
    decreases |a|
  {
    if a != "" { BeforeIsIrreflexive(a[1..]); }
  }

  lemma {:induction false} BeforeIsTransitive(a: string, b: string, c: string)
    requires Before(a, b) && Before(b, c)
    ensures Before(a, c)
    decreases |a|
  {
    if a != "" && a[0] == b[0] && b[0] == c[0] {
      BeforeIsTransitive(a[1..], b[1..], c[1..]);
    }
  }

  lemma {:induction false} BeforeIsTotal(a: string, b: string)
    ensures Before(a, b) || a == b || Before(b, a)
    decreases |a|
  {
    if a != "" && b != "" && a[0] == b[0] {
      BeforeIsTotal(a[1..], b[1..]);
      assert a == [a[0]] + a[1..] && b == [b[0]] + b[1..];
    }
  }
}
