/**
 The frontmatter of a concept as a list of keyed blocks, and the surgery on it: `_blocks` and `_join`
 take it apart and put it together, `_put` replaces, removes or inserts one key and leaves every other
 block as it was written. `T` is the text of a block.
 */
module Frontmatter {
  import opened Prelude

  /** A top-level key and the lines that belong to it; lines before the first key have no key. */
  datatype Block<T> = Block(key: Option<string>, text: T)

  type Blocks<T> = seq<Block<T>>

  const CANONICAL := ["type", "title", "description", "tags", "status", "generated", "sources"]

  // ----- lines and blocks ------------------------------------------------------------------

  function Join(blocks: Blocks<seq<string>>): seq<string> {
    if blocks == [] then [] else blocks[0].text + Join(blocks[1..])
  }

  /** A block starts with the line that names its key, and holds no other such line. */
  ghost predicate WellFormed(blocks: Blocks<seq<string>>, keyOf: string -> Option<string>) {
    forall i :: 0 <= i < |blocks| ==>
      && blocks[i].text != []
      && keyOf(blocks[i].text[0]) == blocks[i].key
      && (blocks[i].key == None ==> i == 0)
      && forall j :: 0 < j < |blocks[i].text| ==> keyOf(blocks[i].text[j]) == None
  }

  lemma {:induction false} JoinAppend(a: Blocks<seq<string>>, b: Blocks<seq<string>>)
    ensures Join(a + b) == Join(a) + Join(b)
    decreases |a|
  {
    if a == [] {
      assert a + b == b;
    } else {
      assert (a + b)[0] == a[0] && (a + b)[1..] == a[1..] + b;
      JoinAppend(a[1..], b);
    }
  }

  lemma JoinOne(b: Block<seq<string>>)
    ensures Join([b]) == b.text
  {
    assert [b][1..] == [];
  }

  /** The next line opens a block. */
  lemma LineOpens(blocks: Blocks<seq<string>>, line: string, keyOf: string -> Option<string>)
    requires WellFormed(blocks, keyOf) && (keyOf(line).Some? || blocks == [])
    ensures var more := blocks + [Block(keyOf(line), [line])];
            Join(more) == Join(blocks) + [line] && WellFormed(more, keyOf)
  {
    JoinOne(Block(keyOf(line), [line]));
    JoinAppend(blocks, [Block(keyOf(line), [line])]);
  }

  /** The next line belongs to the last block. */
  lemma LineBelongs(init: Blocks<seq<string>>, last: Block<seq<string>>, line: string)
    ensures Join(init + [last.(text := last.text + [line])]) == Join(init + [last]) + [line]
  {
    JoinOne(last);
    JoinAppend(init, [last]);
    JoinOne(last.(text := last.text + [line]));
    JoinAppend(init, [last.(text := last.text + [line])]);
  }

  lemma BelongsWell(init: Blocks<seq<string>>, last: Block<seq<string>>, line: string, keyOf: string -> Option<string>)
    requires WellFormed(init + [last], keyOf) && keyOf(line) == None
    ensures WellFormed(init + [last.(text := last.text + [line])], keyOf)
  {
    var before, after := init + [last], init + [last.(text := last.text + [line])];
    assert forall i :: 0 <= i < |init| ==> after[i] == before[i];
    assert before[|init|] == last;
  }

  /** `_blocks`: cut the lines at every line that names a top-level key. */
  method SplitBlocks(lines: seq<string>, keyOf: string -> Option<string>) returns (blocks: Blocks<seq<string>>)
    ensures Join(blocks) == lines && WellFormed(blocks, keyOf)
  {
    blocks := [];
    for n := 0 to |lines|
      invariant Join(blocks) == lines[..n] && WellFormed(blocks, keyOf)
      invariant blocks == [] ==> n == 0
    {
      var line := lines[n];
      assert lines[..n + 1] == lines[..n] + [line];
      var key := keyOf(line);
      if key.Some? || blocks == [] {
        LineOpens(blocks, line, keyOf);
        blocks := blocks + [Block(key, [line])];
      } else {
        var last := blocks[|blocks| - 1];
        assert blocks == blocks[..|blocks| - 1] + [last];
        LineBelongs(blocks[..|blocks| - 1], last, line);
        BelongsWell(blocks[..|blocks| - 1], last, line, keyOf);
        blocks := blocks[..|blocks| - 1] + [last.(text := last.text + [line])];
      }
    }
    assert lines[..|lines|] == lines;
  }

  lemma WellFormedRest(a: Blocks<seq<string>>, keyOf: string -> Option<string>)
    requires WellFormed(a, keyOf) && a != []
    ensures WellFormed(a[1..], keyOf)
    ensures forall i :: 0 < i < |a| ==> a[i].key.Some?
  {
    assert forall i :: 0 <= i < |a| - 1 ==> a[1..][i] == a[i + 1];
  }

  /** The first block ends where the next key is named. */
  lemma FirstBlock(a: Blocks<seq<string>>, keyOf: string -> Option<string>)
    requires WellFormed(a, keyOf) && a != []
    ensures var n := |a[0].text|;
            && 0 < n <= |Join(a)| && a[0].text == Join(a)[..n] && Join(a[1..]) == Join(a)[n..]
            && keyOf(Join(a)[0]) == a[0].key
            && (forall j :: 0 < j < n ==> keyOf(Join(a)[j]) == None)
            && (n < |Join(a)| ==> keyOf(Join(a)[n]).Some?)
  {
    WellFormedRest(a, keyOf);
    if |a| > 1 {
      assert Join(a[1..])[0] == a[1..][0].text[0];
    }
  }

  /** Lines have one reading: blocks that join to the same lines are the same blocks. */
  lemma {:induction false} BlocksAreUnique(a: Blocks<seq<string>>, b: Blocks<seq<string>>, keyOf: string -> Option<string>)
    requires WellFormed(a, keyOf) && WellFormed(b, keyOf) && Join(a) == Join(b)
    ensures a == b
    decreases |a|
  {
    if a == [] {
      if b != [] { FirstBlock(b, keyOf); }
    } else {
      FirstBlock(a, keyOf);
      if b != [] {
        FirstBlock(b, keyOf);
        assert |a[0].text| == |b[0].text|;
        WellFormedRest(a, keyOf);
        WellFormedRest(b, keyOf);
        BlocksAreUnique(a[1..], b[1..], keyOf);
      }
    }
  }

  // ----- looking up and putting keys -------------------------------------------------------

  function Keys<T>(blocks: Blocks<T>): seq<Option<string>> {
    seq(|blocks|, i requires 0 <= i < |blocks| => blocks[i].key)
  }

  /** `_lines`: like a YAML loader, the last duplicate key wins. */
  function Lines<T>(blocks: Blocks<T>, key: string): (r: Option<T>)
    ensures r.Some? <==> Some(key) in Keys(blocks)
    decreases |blocks|
  {
    if blocks == [] then None
    else
      var last := blocks[|blocks| - 1];
      assert Keys(blocks) == Keys(blocks[..|blocks| - 1]) + [last.key];
      if last.key == Some(key) then Some(last.text) else Lines(blocks[..|blocks| - 1], key)
  }

  /** Every other block, in order. */
  function Others<T>(blocks: Blocks<T>, key: string): Blocks<T> {
    if blocks == [] then []
    else (if blocks[0].key == Some(key) then [] else [blocks[0]]) + Others(blocks[1..], key)
  }

  /** The first block of the key takes the text; its duplicates go. */
  function Replace<T>(blocks: Blocks<T>, key: string, text: Option<T>): Blocks<T> {
    if blocks == [] then []
    else if blocks[0].key != Some(key) then [blocks[0]] + Replace(blocks[1..], key, text)
    else if text == None then Others(blocks[1..], key)
    else [Block(Some(key), text.value)] + Others(blocks[1..], key)
  }

  function First<K(==)>(s: seq<K>, k: K): (i: nat)
    requires k in s
    ensures i < |s| && s[i] == k && forall j :: 0 <= j < i ==> s[j] != k
  {
    if s[0] == k then 0 else 1 + First(s[1..], k)
  }

  function Last<K(==)>(s: seq<K>, k: K): (i: nat)
    requires k in s
    ensures i < |s| && s[i] == k && forall j :: i < j < |s| ==> s[j] != k
  {
    if s[|s| - 1] == k then |s| - 1 else Last(s[..|s| - 1], k)
  }

  /** After the last block of the nearest earlier peer that is present. */
  function AfterEarlier(present: seq<Option<string>>, earlier: seq<string>): (r: Option<nat>)
    ensures r.Some? ==> r.value <= |present|
  {
    if earlier == [] then None
    else
      var anchor := Some(earlier[|earlier| - 1]);
      if anchor in present then Some(Last(present, anchor) + 1)
      else AfterEarlier(present, earlier[..|earlier| - 1])
  }

  /** Before the first block of the nearest later peer that is present. */
  function BeforeLater(present: seq<Option<string>>, later: seq<string>): (r: Option<nat>)
    ensures r.Some? ==> r.value <= |present|
  {
    if later == [] then None
    else if Some(later[0]) in present then Some(First(present, Some(later[0])))
    else BeforeLater(present, later[1..])
  }

  /** Where a missing key goes among the present ones, by its place in `sequence`. */
  function PlaceIn(present: seq<Option<string>>, key: string, sequence: seq<string>): (i: nat)
    ensures i <= |present|
  {
    if key !in sequence then |present|
    else
      var position := First(sequence, key);
      var after := AfterEarlier(present, sequence[..position]);
      if after.Some? then after.value
      else
        var before := BeforeLater(present, sequence[position + 1..]);
        if before.Some? then before.value else |present|
  }

  function Place(present: seq<Option<string>>, key: string, order: seq<string>): (i: nat)
    ensures i <= |present|
  {
    PlaceIn(present, key, if key in order then order else CANONICAL)
  }

  function Inserted<T>(blocks: Blocks<T>, i: nat, b: Block<T>): Blocks<T>
    requires i <= |blocks|
  {
    blocks[..i] + [b] + blocks[i..]
  }

  /** `_put`: one block of the key with the given text, or none; a missing key goes near its peers. */
  function Put<T>(blocks: Blocks<T>, key: string, text: Option<T>, order: seq<string>): Blocks<T> {
    if text == None || Some(key) in Keys(blocks) then Replace(blocks, key, text)
    else Inserted(blocks, Place(Keys(blocks), key, order), Block(Some(key), text.value))
  }

  /** What a block added at the end adds to the replacement. */
  function Added<T>(blocks: Blocks<T>, b: Block<T>, key: string, text: Option<T>): Blocks<T> {
    if b.key != Some(key) then [b]
    else if text == None || Some(key) in Keys(blocks) then []
    else [Block(Some(key), text.value)]
  }

  lemma {:induction false} OthersSnoc<T>(blocks: Blocks<T>, b: Block<T>, key: string)
    ensures Others(blocks + [b], key) == Others(blocks, key) + if b.key == Some(key) then [] else [b]
    decreases |blocks|
  {
    if blocks == [] {
      assert blocks + [b] == [b] && [b][1..] == [];
    } else {
      assert (blocks + [b])[0] == blocks[0] && (blocks + [b])[1..] == blocks[1..] + [b];
      OthersSnoc(blocks[1..], b, key);
    }
  }

  lemma {:induction false} ReplaceSnoc<T>(blocks: Blocks<T>, b: Block<T>, key: string, text: Option<T>)
    ensures Replace(blocks + [b], key, text) == Replace(blocks, key, text) + Added(blocks, b, key, text)
    decreases |blocks|
  {
    if blocks == [] {
      assert blocks + [b] == [b] && [b][1..] == [];
    } else {
      assert (blocks + [b])[0] == blocks[0] && (blocks + [b])[1..] == blocks[1..] + [b];
      assert Keys(blocks) == [blocks[0].key] + Keys(blocks[1..]);
      if blocks[0].key == Some(key) {
        OthersSnoc(blocks[1..], b, key);
      } else {
        ReplaceSnoc(blocks[1..], b, key, text);
      }
    }
  }

  method PutBlock<T(==)>(blocks: Blocks<T>, key: string, text: Option<T>, order: seq<string>) returns (r: Blocks<T>)
    ensures r == Put(blocks, key, text, order)
  {
    r := [];
    var placed := false;
    for n := 0 to |blocks|
      invariant r == Replace(blocks[..n], key, text)
      invariant placed <==> text.Some? && Some(key) in Keys(blocks[..n])
    {
      var b := blocks[n];
      assert blocks[..n + 1] == blocks[..n] + [b];
      assert Keys(blocks[..n + 1]) == Keys(blocks[..n]) + [b.key];
      ReplaceSnoc(blocks[..n], b, key, text);
      if b.key != Some(key) {
        r := r + [b];
      } else if text.Some? && !placed {
        r := r + [Block(Some(key), text.value)];
        placed := true;
      }
    }
    assert blocks[..|blocks|] == blocks;
    if text == None || placed {
      return;
    }
    AbsentReplace(blocks, key, text);
    var at := FindPlace(Keys(r), key, if key in order then order else CANONICAL);
    r := r[..at] + [Block(Some(key), text.value)] + r[at..];
  }

  /** The search for the anchor of an insertion. */
  method FindPlace(present: seq<Option<string>>, key: string, sequence: seq<string>) returns (at: nat)
    ensures at == PlaceIn(present, key, sequence)
  {
    if key !in sequence {
      return |present|;
    }
    var position := First(sequence, key);
    var i: nat := position;
    while i > 0
      invariant i <= position
      invariant AfterEarlier(present, sequence[..position]) == AfterEarlier(present, sequence[..i])
    {
      assert sequence[..i][..i - 1] == sequence[..i - 1];
      if Some(sequence[i - 1]) in present {
        return Last(present, Some(sequence[i - 1])) + 1;
      }
      i := i - 1;
    }
    var j := position + 1;
    while j < |sequence|
      invariant position < j <= |sequence|
      invariant BeforeLater(present, sequence[position + 1..]) == BeforeLater(present, sequence[j..])
    {
      assert sequence[j..][0] == sequence[j] && sequence[j..][1..] == sequence[j + 1..];
      if Some(sequence[j]) in present {
        return First(present, Some(sequence[j]));
      }
      j := j + 1;
    }
    at := |present|;
  }

  // ----- where a missing key goes ----------------------------------------------------------

  predicate Peer(present: seq<Option<string>>, sequence: seq<string>, p: nat) {
    p < |sequence| && Some(sequence[p]) in present
  }

  /** Right behind the last block of the peer. */
  predicate Behind(present: seq<Option<string>>, peer: string, i: nat) {
    0 < i <= |present| && present[i - 1] == Some(peer) && forall j :: i <= j < |present| ==> present[j] != Some(peer)
  }

  /** Right before the first block of the peer. */
  predicate InFrontOf(present: seq<Option<string>>, peer: string, i: nat) {
    i < |present| && present[i] == Some(peer) && forall j :: 0 <= j < i ==> present[j] != Some(peer)
  }

  /** `i` is the place of the key at `position` of the sequence: behind the nearest earlier peer, or before the nearest later one. */
  ghost predicate NearPeers(present: seq<Option<string>>, sequence: seq<string>, position: nat, i: nat)
    requires position < |sequence|
  {
    || (exists p: nat :: p < position && Peer(present, sequence, p) && Behind(present, sequence[p], i)
                         && forall q :: p < q < position ==> !Peer(present, sequence, q))
    || ((forall q :: 0 <= q < position ==> !Peer(present, sequence, q))
        && exists p: nat :: p > position && Peer(present, sequence, p) && InFrontOf(present, sequence[p], i)
                            && forall q :: position < q < p ==> !Peer(present, sequence, q))
    || ((forall q :: 0 <= q < |sequence| && q != position ==> !Peer(present, sequence, q)) && i == |present|)
  }

  lemma {:induction false} EarlierMeans(present: seq<Option<string>>, sequence: seq<string>, n: nat)
    requires n <= |sequence|
    ensures var r := AfterEarlier(present, sequence[..n]);
            if r.None? then forall q :: 0 <= q < n ==> !Peer(present, sequence, q)
            else exists p: nat :: p < n && Peer(present, sequence, p) && Behind(present, sequence[p], r.value)
                                  && forall q :: p < q < n ==> !Peer(present, sequence, q)
    decreases n
  {
    if n > 0 {
      var earlier := sequence[..n];
      assert earlier[n - 1] == sequence[n - 1] && earlier[..n - 1] == sequence[..n - 1];
      if Some(sequence[n - 1]) in present {
        assert Behind(present, sequence[n - 1], Last(present, Some(sequence[n - 1])) + 1);
      } else {
        EarlierMeans(present, sequence, n - 1);
      }
    }
  }

  lemma {:induction false} LaterMeans(present: seq<Option<string>>, sequence: seq<string>, n: nat)
    requires n <= |sequence|
    ensures var r := BeforeLater(present, sequence[n..]);
            if r.None? then forall q :: n <= q < |sequence| ==> !Peer(present, sequence, q)
            else exists p: nat :: n <= p && Peer(present, sequence, p) && InFrontOf(present, sequence[p], r.value)
                                  && forall q :: n <= q < p ==> !Peer(present, sequence, q)
    decreases |sequence| - n
  {
    if n < |sequence| {
      var later := sequence[n..];
      assert later[0] == sequence[n] && later[1..] == sequence[n + 1..];
      if Some(sequence[n]) in present {
        assert InFrontOf(present, sequence[n], First(present, Some(sequence[n])));
      } else {
        LaterMeans(present, sequence, n + 1);
      }
    }
  }

  lemma PlaceInMeans(present: seq<Option<string>>, key: string, sequence: seq<string>)
    requires key in sequence
    ensures NearPeers(present, sequence, First(sequence, key), PlaceIn(present, key, sequence))
  {
    var position := First(sequence, key);
    EarlierMeans(present, sequence, position);
    LaterMeans(present, sequence, position + 1);
  }

  /**
   A missing key goes near its peers of the given order, or of the canonical one when the order does not
   name it; a key that neither names goes to the end.
   */
  lemma PlaceMeans(present: seq<Option<string>>, key: string, order: seq<string>)
    ensures var sequence :=
              if key in order then order
              else ["type", "title", "description", "tags", "status", "generated", "sources"];
            if key !in sequence then Place(present, key, order) == |present|
            else exists position: nat :: position < |sequence| && sequence[position] == key
                   && (forall j :: 0 <= j < position ==> sequence[j] != key)
                   && NearPeers(present, sequence, position, Place(present, key, order))
  {
    var sequence := if key in order then order else CANONICAL;
    if key in sequence {
      var position := First(sequence, key);
      PlaceInMeans(present, key, sequence);
      assert sequence[position] == key;
    }
  }

  lemma {:induction false} AbsentReplace<T>(blocks: Blocks<T>, key: string, text: Option<T>)
    requires Some(key) !in Keys(blocks)
    ensures Replace(blocks, key, text) == blocks && Others(blocks, key) == blocks
    decreases |blocks|
  {
    if blocks != [] {
      assert Keys(blocks) == [blocks[0].key] + Keys(blocks[1..]);
      AbsentReplace(blocks[1..], key, text);
    }
  }

  // ----- the laws of Put -------------------------------------------------------------------

  lemma {:induction false} LinesSnoc<T>(blocks: Blocks<T>, b: Block<T>, key: string)
    ensures Lines(blocks + [b], key) == if b.key == Some(key) then Some(b.text) else Lines(blocks, key)
  {
    assert (blocks + [b])[..|blocks|] == blocks;
  }

  lemma {:induction false} LinesAppend<T>(a: Blocks<T>, b: Blocks<T>, key: string)
    ensures Lines(a + b, key) == if Lines(b, key).Some? then Lines(b, key) else Lines(a, key)
    decreases |b|
  {
    if b == [] {
      assert a + b == a;
    } else {
      assert a + b == (a + b[..|b| - 1]) + [b[|b| - 1]];
      assert b == b[..|b| - 1] + [b[|b| - 1]];
      LinesSnoc(a + b[..|b| - 1], b[|b| - 1], key);
      LinesSnoc(b[..|b| - 1], b[|b| - 1], key);
      LinesAppend(a, b[..|b| - 1], key);
    }
  }

  lemma LinesOne<T>(b: Block<T>, key: string)
    ensures Lines([b], key) == if b.key == Some(key) then Some(b.text) else None
    ensures Lines<T>([], key) == None
  {
    assert [b][..0] == [];
  }

  lemma {:induction false} LinesOthers<T>(blocks: Blocks<T>, key: string, k: string)
    ensures Lines(Others(blocks, key), k) == if k == key then None else Lines(blocks, k)
    decreases |blocks|
  {
    if blocks != [] {
      var b, rest := blocks[0], blocks[1..];
      assert blocks == [b] + rest;
      LinesOthers(rest, key, k);
      LinesOne(b, k);
      LinesAppend([b], rest, k);
      if b.key != Some(key) {
        assert Others(blocks, key) == [b] + Others(rest, key);
        LinesAppend([b], Others(rest, key), k);
      } else {
        assert Others(blocks, key) == Others(rest, key);
      }
    }
  }

  lemma {:induction false} LinesReplace<T>(blocks: Blocks<T>, key: string, text: Option<T>, k: string)
    ensures Lines(Replace(blocks, key, text), k) ==
              if k != key then Lines(blocks, k) else if Some(key) in Keys(blocks) then text else None
    decreases |blocks|
  {
    if blocks != [] {
      var b, rest := blocks[|blocks| - 1], blocks[..|blocks| - 1];
      assert blocks == rest + [b] && Keys(blocks) == Keys(rest) + [b.key];
      ReplaceSnoc(rest, b, key, text);
      LinesReplace(rest, key, text, k);
      LinesSnoc(rest, b, k);
      var added := Added(rest, b, key, text);
      if added == [] {
        assert Replace(rest, key, text) + added == Replace(rest, key, text);
      } else {
        LinesSnoc(Replace(rest, key, text), added[0], k);
      }
    }
  }

  /** A missing key is inserted somewhere. */
  lemma PutMissing<T>(blocks: Blocks<T>, key: string, text: T, order: seq<string>, i: nat)
    requires Some(key) !in Keys(blocks) && Place(Keys(blocks), key, order) == i
    ensures Put(blocks, key, Some(text), order) == Inserted(blocks, i, Block(Some(key), text))
  {}

  lemma LinesInserted<T>(blocks: Blocks<T>, i: nat, b: Block<T>, k: string)
    requires i <= |blocks| && b.key.Some? && b.key !in Keys(blocks)
    ensures Lines(Inserted(blocks, i, b), k) == if b.key == Some(k) then Some(b.text) else Lines(blocks, k)
  {
    assert blocks == blocks[..i] + blocks[i..];
    LinesAppend(blocks[..i] + [b], blocks[i..], k);
    LinesAppend(blocks[..i], blocks[i..], k);
    LinesSnoc(blocks[..i], b, k);
    if b.key == Some(k) {
      assert Lines(blocks, k) == None;
    }
  }

  /** Put sets its key and no other. */
  lemma LinesPut<T>(blocks: Blocks<T>, key: string, text: Option<T>, order: seq<string>, k: string)
    ensures Lines(Put(blocks, key, text, order), k) == if k == key then text else Lines(blocks, k)
  {
    LinesReplace(blocks, key, text, k);
    if text.Some? && Some(key) !in Keys(blocks) {
      LinesInserted(blocks, Place(Keys(blocks), key, order), Block(Some(key), text.value), k);
    }
  }

  lemma {:induction false} OthersAppend<T>(a: Blocks<T>, b: Blocks<T>, key: string)
    ensures Others(a + b, key) == Others(a, key) + Others(b, key)
    decreases |a|
  {
    if a == [] {
      assert a + b == b;
    } else {
      assert (a + b)[0] == a[0] && (a + b)[1..] == a[1..] + b;
      OthersAppend(a[1..], b, key);
    }
  }

  lemma {:induction false} OthersReplace<T>(blocks: Blocks<T>, key: string, text: Option<T>, k: string)
    ensures Others(Replace(blocks, key, text), key) == Others(blocks, key)
    ensures Others(Others(blocks, key), key) == Others(blocks, key)
    ensures Others(Others(blocks, key), k) == Others(Others(blocks, k), key)
    decreases |blocks|
  {
    if blocks != [] {
      OthersReplace(blocks[1..], key, text, k);
      var kept: Blocks<T> := if blocks[0].key == Some(key) then [] else [blocks[0]];
      OthersAppend([blocks[0]], Replace(blocks[1..], key, text), key);
      OthersAppend(kept, Others(blocks[1..], key), key);
      OthersAppend(kept, Others(blocks[1..], key), k);
      var keptK: Blocks<T> := if blocks[0].key == Some(k) then [] else [blocks[0]];
      OthersAppend(keptK, Others(blocks[1..], k), key);
      if text.Some? {
        OthersAppend([Block(Some(key), text.value)], Others(blocks[1..], key), key);
        OthersOne(Block(Some(key), text.value), key);
      }
      OthersOne(blocks[0], key);
      OthersOne(blocks[0], k);
    }
  }

  lemma OthersOne<T>(b: Block<T>, key: string)
    ensures Others([b], key) == if b.key == Some(key) then [] else [b]
  {
    assert [b][1..] == [];
  }

  lemma OthersInserted<T>(blocks: Blocks<T>, i: nat, b: Block<T>, key: string)
    requires i <= |blocks| && b.key == Some(key)
    ensures Others(Inserted(blocks, i, b), key) == Others(blocks, key)
  {
    assert blocks == blocks[..i] + blocks[i..];
    OthersAppend(blocks[..i] + [b], blocks[i..], key);
    OthersAppend(blocks[..i], [b], key);
    OthersAppend(blocks[..i], blocks[i..], key);
    OthersOne(b, key);
  }

  /** Put frames the rest: every other block stays as written and in order. */
  lemma OthersPut<T>(blocks: Blocks<T>, key: string, text: Option<T>, order: seq<string>)
    ensures Others(Put(blocks, key, text, order), key) == Others(blocks, key)
    ensures Put(blocks, key, None, order) == Others(blocks, key)
  {
    OthersReplace(blocks, key, text, key);
    ReplaceNone(blocks, key);
    if text.Some? && Some(key) !in Keys(blocks) {
      OthersInserted(blocks, Place(Keys(blocks), key, order), Block(Some(key), text.value), key);
    }
  }

  lemma {:induction false} ReplaceNone<T>(blocks: Blocks<T>, key: string)
    ensures Replace(blocks, key, None) == Others(blocks, key)
    decreases |blocks|
  {
    if blocks != [] { ReplaceNone(blocks[1..], key); }
  }

  // ----- a removed key goes back to its place ----------------------------------------------

  /** `order`: the keys as written. */
  function Written<T>(blocks: Blocks<T>): seq<string> {
    if blocks == [] then []
    else
      var last := blocks[|blocks| - 1];
      Written(blocks[..|blocks| - 1]) + if last.key.Some? then [last.key.value] else []
  }

  /** No key twice, and only the first block may have none. */
  ghost predicate Tidy<T>(blocks: Blocks<T>) {
    && Distinct(Keys(blocks))
    && forall i :: 0 < i < |blocks| ==> blocks[i].key.Some?
  }

  /** `a` is `all` with some blocks left out. */
  ghost predicate Sub<T>(a: Blocks<T>, all: Blocks<T>) {
    if a == [] then true
    else if all == [] then false
    else
      || (a[|a| - 1] == all[|all| - 1] && Sub(a[..|a| - 1], all[..|all| - 1]))
      || Sub(a, all[..|all| - 1])
  }

  lemma {:induction false} SubKeys<T>(a: Blocks<T>, all: Blocks<T>, key: Option<string>)
    requires Sub(a, all) && key in Keys(a)
    ensures key in Keys(all)
    decreases |all|
  {
    var last, whole := a[|a| - 1], all[|all| - 1];
    assert Keys(a) == Keys(a[..|a| - 1]) + [last.key];
    assert Keys(all) == Keys(all[..|all| - 1]) + [whole.key];
    if last == whole && Sub(a[..|a| - 1], all[..|all| - 1]) {
      if key != last.key { SubKeys(a[..|a| - 1], all[..|all| - 1], key); }
    } else {
      SubKeys(a, all[..|all| - 1], key);
    }
  }

  lemma {:induction false} SubOthers<T>(all: Blocks<T>, key: string)
    ensures Sub(Others(all, key), all)
    decreases |all|
  {
    if all != [] {
      var init, last := all[..|all| - 1], all[|all| - 1];
      assert all == init + [last];
      OthersSnoc(init, last, key);
      SubOthers(init, key);
      var a := Others(all, key);
      if last.key != Some(key) {
        assert a[..|a| - 1] == Others(init, key);
      } else {
        assert a == Others(init, key);
      }
    }
  }

  lemma TidyPrefix<T>(blocks: Blocks<T>, n: nat)
    requires Tidy(blocks) && n <= |blocks|
    ensures Tidy(blocks[..n])
  {
    assert Keys(blocks[..n]) == Keys(blocks)[..n];
  }

  lemma LastIs<K>(s: seq<K>, t: seq<K>, k: K)
    requires k !in t
    ensures Last(s + [k] + t, k) == |s|
  {
    var all := s + [k] + t;
    assert all[|s|] == k && forall j :: |s| < j < |all| ==> all[j] in t;
  }

  lemma FirstIs<K>(s: seq<K>, t: seq<K>, k: K)
    requires k !in s
    ensures First(s + [k] + t, k) == |s|
  {
    var all := s + [k] + t;
    assert all[|s|] == k && forall j :: 0 <= j < |s| ==> all[j] in s;
  }

  lemma TidyLast<T>(blocks: Blocks<T>)
    requires Tidy(blocks) && blocks != []
    ensures blocks[|blocks| - 1].key !in Keys(blocks[..|blocks| - 1])
  {
    var keys := Keys(blocks);
    assert Keys(blocks[..|blocks| - 1]) == keys[..|blocks| - 1];
    assert forall i :: 0 <= i < |blocks| - 1 ==> keys[i] != keys[|blocks| - 1];
  }

  /** The last earlier peer is still present. */
  lemma LastPeer<T>(a: Blocks<T>, c: Blocks<T>, earlier: seq<string>)
    requires a != [] && a[|a| - 1].key.Some? && earlier != [] && Some(earlier[|earlier| - 1]) == a[|a| - 1].key
    requires a[|a| - 1].key !in Keys(c)
    ensures AfterEarlier(Keys(a + c), earlier) == Some(|a|)
  {
    var init, x := a[..|a| - 1], a[|a| - 1];
    assert Keys(a + c) == Keys(init) + [x.key] + Keys(c);
    LastIs(Keys(init), Keys(c), x.key);
  }

  /** The last earlier peer is gone. */
  lemma SkipPeer<T>(a: Blocks<T>, c: Blocks<T>, earlier: seq<string>, x: Option<string>)
    requires x.Some? && x !in Keys(a) && x !in Keys(c)
    ensures AfterEarlier(Keys(a + c), earlier + [x.value]) == AfterEarlier(Keys(a + c), earlier)
  {
    assert Keys(a + c) == Keys(a) + Keys(c);
    assert (earlier + [x.value])[..|earlier|] == earlier;
  }

  /** The earlier peers of a removed key: the last one still present decides. */
  lemma {:induction false} EarlierPeers<T>(a: Blocks<T>, all: Blocks<T>, c: Blocks<T>)
    requires Sub(a, all) && Tidy(all)
    requires forall key :: key in Keys(c) ==> key !in Keys(all)
    ensures AfterEarlier(Keys(a + c), Written(all)) ==
            if exists i :: 0 <= i < |a| && a[i].key.Some? then Some(|a|) else None
    decreases |all|
  {
    if all != [] {
      var init, x := all[..|all| - 1], all[|all| - 1];
      assert Keys(all) == Keys(init) + [x.key];
      TidyPrefix(all, |all| - 1);
      if a != [] && a[|a| - 1] == x && Sub(a[..|a| - 1], init) {
        if x.key.Some? {
          assert a[|a| - 1].key.Some?;
          LastPeer(a, c, Written(all));
        } else {
          assert |all| == 1;
          assert a[..|a| - 1] == [];
        }
      } else {
        TidyLast(all);
        assert x.key !in Keys(a) by {
          if x.key in Keys(a) { SubKeys(a, init, x.key); }
        }
        EarlierPeers(a, init, c);
        if x.key.Some? { SkipPeer(a, c, Written(init), x.key); }
      }
    }
  }

  /** The later peers of a removed key: the first one still present decides. */
  lemma {:induction false} LaterPeers<T>(a: Blocks<T>, c: Blocks<T>, later: seq<string>)
    requires forall i :: 0 <= i < |a| ==> a[i].key == None
    requires c != [] ==> c[0].key.Some? && c[0].key.value in later
    requires c != [] ==> forall j :: 0 <= j < First(later, c[0].key.value) ==> Some(later[j]) !in Keys(c)
    requires c == [] ==> forall k :: k in later ==> Some(k) !in Keys(c)
    ensures BeforeLater(Keys(a + c), later) == if c == [] then None else Some(|a|)
    decreases |later|
  {
    assert Keys(a + c) == Keys(a) + Keys(c);
    if later != [] {
      if c != [] && c[0].key.value == later[0] {
        assert Keys(c) == [c[0].key] + Keys(c)[1..];
        assert Keys(a + c) == Keys(a) + [c[0].key] + Keys(c)[1..];
        FirstIs(Keys(a), Keys(c)[1..], c[0].key);
      } else {
        if c != [] {
          assert First(later, c[0].key.value) == 1 + First(later[1..], c[0].key.value);
          assert forall j :: 0 <= j < |later| - 1 ==> later[1..][j] == later[j + 1];
        }
        LaterPeers(a, c, later[1..]);
      }
    }
  }

  lemma {:induction false} WrittenAppend<T>(a: Blocks<T>, b: Blocks<T>)
    ensures Written(a + b) == Written(a) + Written(b)
    decreases |b|
  {
    if b == [] {
      assert a + b == a;
    } else {
      assert (a + b)[..|a + b| - 1] == a + b[..|b| - 1] && (a + b)[|a + b| - 1] == b[|b| - 1];
      WrittenAppend(a, b[..|b| - 1]);
    }
  }

  lemma {:induction false} WrittenKeys<T>(a: Blocks<T>)
    ensures forall k :: k in Written(a) <==> Some(k) in Keys(a)
    decreases |a|
  {
    if a != [] {
      WrittenKeys(a[..|a| - 1]);
      assert Keys(a) == Keys(a[..|a| - 1]) + [a[|a| - 1].key];
    }
  }

  /** Nothing is missing among the later blocks except possibly one, which is not the first still present. */
  lemma {:induction false} FirstLater<T>(c: Blocks<T>, whole: Blocks<T>, key: string)
    requires c == Others(whole, key) && Distinct(Keys(whole))
    requires forall i :: 0 <= i < |whole| ==> whole[i].key.Some?
    ensures c != [] ==>
              && c[0].key.Some? && c[0].key.value in Written(whole)
              && forall j :: 0 <= j < First(Written(whole), c[0].key.value) ==> Some(Written(whole)[j]) !in Keys(c)
    ensures c == [] ==> forall k :: k in Written(whole) ==> Some(k) !in Keys(c)
    decreases |whole|
  {
    if whole != [] {
      var x := whole[0];
      assert whole == [x] + whole[1..];
      WrittenAppend([x], whole[1..]);
      assert [x][..0] == [] && Written([x]) == [x.key.value];
      if x.key == Some(key) {
        assert c == Others(whole[1..], key);
        assert Keys(whole[1..]) == Keys(whole)[1..];
        FirstLater(c, whole[1..], key);
        if c != [] {
          LinesOthers(whole, key, key);
          WrittenKeys(c);
          assert c[0].key.value != x.key.value by { assert Keys(c)[0] == c[0].key; }
          assert First(Written(whole), c[0].key.value) == 1 + First(Written(whole[1..]), c[0].key.value);
          assert Some(key) !in Keys(c);
          forall j | 0 <= j < First(Written(whole), c[0].key.value) ensures Some(Written(whole)[j]) !in Keys(c) {
            if j > 0 { assert Written(whole)[j] == Written(whole[1..])[j - 1]; }
          }
        }
      } else {
        assert c[0] == x;
        assert First(Written(whole), x.key.value) == 0;
      }
    }
  }

  lemma KeysApart<T>(before: Blocks<T>, b: Block<T>, after: Blocks<T>)
    requires Distinct(Keys(before + [b] + after))
    ensures b.key !in Keys(before) && b.key !in Keys(after)
    ensures forall k :: k in Keys(after) ==> k !in Keys(before)
    ensures Distinct(Keys(before)) && Distinct(Keys(after))
  {
    var all := Keys(before + [b] + after);
    assert all == Keys(before) + [b.key] + Keys(after);
    assert forall i :: 0 <= i < |before| ==> all[i] == Keys(before)[i];
    assert forall j :: 0 <= j < |after| ==> all[|before| + 1 + j] == Keys(after)[j];
    assert all[|before|] == b.key;
  }

  lemma OthersAround<T>(before: Blocks<T>, b: Block<T>, after: Blocks<T>, key: string)
    ensures Others(before + [b] + after, key) ==
            Others(before, key) + (if b.key == Some(key) then [] else [b]) + Others(after, key)
  {
    OthersAppend(before + [b], after, key);
    OthersAppend(before, [b], key);
    OthersOne(b, key);
  }

  lemma SplitOther<T>(before: Blocks<T>, b: Block<T>, after: Blocks<T>, other: string)
    requires b.key != Some(other)
    ensures Others(before + [b] + after, other) == Others(before, other) + [b] + Others(after, other)
  {
    OthersAround(before, b, after, other);
  }

  lemma OthersAbsent<T>(blocks: Blocks<T>, key: string)
    requires Some(key) !in Keys(blocks)
    ensures Others(blocks, key) == blocks
  {
    AbsentReplace(blocks, key, None);
  }

  /** A key written once is taken out. */
  lemma SplitKey<T>(before: Blocks<T>, b: Block<T>, after: Blocks<T>, key: string)
    requires b.key == Some(key) && b.key !in Keys(before) && b.key !in Keys(after)
    ensures Others(before + [b] + after, key) == before + after
  {
    OthersAbsent(before, key);
    OthersAbsent(after, key);
    OthersAppend(before + [b], after, key);
    OthersAppend(before, [b], key);
    OthersOne(b, key);
    assert Others(before + [b], key) == before;
  }

  /** The written order around one key. */
  lemma WrittenAround<T>(before: Blocks<T>, b: Block<T>, after: Blocks<T>, key: string)
    requires b.key == Some(key) && b.key !in Keys(before)
    ensures var sequence := Written(before + [b] + after);
            && key in sequence && First(sequence, key) == |Written(before)|
            && sequence[..|Written(before)|] == Written(before)
            && sequence[|Written(before)| + 1..] == Written(after)
  {
    WrittenAppend(before + [b], after);
    WrittenAppend(before, [b]);
    assert [b][..0] == [] && Written([b]) == [key];
    assert Written(before + [b] + after) == Written(before) + [key] + Written(after);
    assert (Written(before) + [key] + Written(after))[|Written(before)|] == key;
    WrittenKeys(before);
    FirstIs(Written(before), Written(after), key);
  }

  /** Before a key with no keyed block left in front of it, the first later one decides. */
  lemma PlaceFirst<T>(a: Blocks<T>, after: Blocks<T>, other: string)
    requires forall i :: 0 <= i < |a| ==> a[i].key == None
    requires Distinct(Keys(after)) && forall i :: 0 <= i < |after| ==> after[i].key.Some?
    ensures var c := Others(after, other);
            BeforeLater(Keys(a + c), Written(after)) == (if c == [] then None else Some(|a|))
            && (c == [] ==> |Keys(a + c)| == |a|)
  {
    var c := Others(after, other);
    FirstLater(c, after, other);
    LaterPeers(a, c, Written(after));
    assert c == [] ==> a + c == a;
  }

  /** Where a key goes when some of the blocks around it are missing: between those before and those after. */
  lemma PlaceBack<T>(before: Blocks<T>, b: Block<T>, after: Blocks<T>, key: string, other: string)
    requires Tidy(before + [b] + after) && b.key == Some(key) && other != key
    ensures var a, c := Others(before, other), Others(after, other);
            Place(Keys(a + c), key, Written(before + [b] + after)) == |a|
  {
    var all := before + [b] + after;
    var a, c := Others(before, other), Others(after, other);
    KeysApart(before, b, after);
    WrittenAround(before, b, after, key);
    PeersBefore(before, b, after, other);
    if forall i :: 0 <= i < |a| ==> a[i].key == None {
      TidyAfter(before, b, after);
      PlaceFirst(a, after, other);
    }
  }

  lemma TidyAfter<T>(before: Blocks<T>, b: Block<T>, after: Blocks<T>)
    requires Tidy(before + [b] + after)
    ensures Distinct(Keys(after)) && forall i :: 0 <= i < |after| ==> after[i].key.Some?
  {
    var all := before + [b] + after;
    KeysApart(before, b, after);
    forall i | 0 <= i < |after| ensures after[i].key.Some? {
      assert all[|before| + 1 + i] == after[i];
    }
  }

  lemma PeersBefore<T>(before: Blocks<T>, b: Block<T>, after: Blocks<T>, other: string)
    requires Tidy(before + [b] + after)
    ensures var a, c := Others(before, other), Others(after, other);
            AfterEarlier(Keys(a + c), Written(before)) ==
            if exists i :: 0 <= i < |a| && a[i].key.Some? then Some(|a|) else None
  {
    var all := before + [b] + after;
    var a, c := Others(before, other), Others(after, other);
    KeysApart(before, b, after);
    assert all[..|before|] == before;
    TidyPrefix(all, |before|);
    SubOthers(before, other);
    SubOthers(after, other);
    forall k | k in Keys(c) ensures k !in Keys(before) {
      SubKeys(c, after, k);
    }
    EarlierPeers(a, before, c);
  }

  lemma TakenOut<T>(before: Blocks<T>, b: Block<T>, after: Blocks<T>, key: string, other: string)
    requires Distinct(Keys(before + [b] + after)) && b.key == Some(key) && other != key
    ensures var a, c := Others(before, other), Others(after, other);
            && Others(before + [b] + after, other) == a + [b] + c
            && Others(a + [b] + c, key) == a + c
            && Some(key) !in Keys(a + c)
  {
    var a, c := Others(before, other), Others(after, other);
    KeysApart(before, b, after);
    SplitOther(before, b, after, other);
    SubOthers(before, other);
    SubOthers(after, other);
    assert b.key !in Keys(a) by { if b.key in Keys(a) { SubKeys(a, before, b.key); } }
    assert b.key !in Keys(c) by { if b.key in Keys(c) { SubKeys(c, after, b.key); } }
    SplitKey(a, b, c, key);
    assert Keys(a + c) == Keys(a) + Keys(c);
  }

  /**
   Take a key out of tidy blocks, with or without one other key taken out too, and put it back by the
   written order: it lands where it was.
   */
  lemma PutBack<T>(before: Blocks<T>, b: Block<T>, after: Blocks<T>, key: string, other: string)
    requires Tidy(before + [b] + after) && b.key == Some(key) && other != key
    ensures var all := before + [b] + after;
            var a, c := Others(before, other), Others(after, other);
            && Others(all, other) == a + [b] + c
            && Others(Others(all, other), key) == a + c
            && Put(a + c, key, Some(b.text), Written(all)) == a + [b] + c
  {
    var a, c := Others(before, other), Others(after, other);
    TakenOut(before, b, after, key, other);
    PlaceBack(before, b, after, key, other);
    PutMissing(a + c, key, b.text, Written(before + [b] + after), |a|);
    assert (a + c)[..|a|] == a && (a + c)[|a|..] == c;
  }

  /** The same with no other key missing. */
  lemma PutBackAlone<T>(before: Blocks<T>, b: Block<T>, after: Blocks<T>, key: string, absent: string)
    requires Tidy(before + [b] + after) && b.key == Some(key) && absent != key
    requires Some(absent) !in Keys(before + [b] + after)
    ensures var all := before + [b] + after;
            && Others(all, key) == before + after
            && Put(Others(all, key), key, Some(b.text), Written(all)) == all
  {
    var all := before + [b] + after;
    KeysApart(before, b, after);
    SplitKey(before, b, after, key);
    assert Keys(all) == Keys(before) + [b.key] + Keys(after);
    AbsentReplace(before, absent, None);
    AbsentReplace(after, absent, None);
    PutBack(before, b, after, key, absent);
  }

  lemma SplitTidy<T>(blocks: Blocks<T>, key: string) returns (before: Blocks<T>, b: Block<T>, after: Blocks<T>)
    requires Distinct(Keys(blocks)) && Lines(blocks, key).Some?
    ensures blocks == before + [b] + after && b.key == Some(key) && Lines(blocks, key) == Some(b.text)
  {
    var i := First(Keys(blocks), Some(key));
    before, b, after := blocks[..i], blocks[i], blocks[i + 1..];
    LinesOf(blocks, i);
    assert blocks == before + [b] + after;
  }

  /**
   Any tidy frontmatter: take one key out and put it back by the written order, and nothing has changed.
   The key may stand anywhere, and the canonical order plays no part.
   */
  lemma PutReinserts<T>(blocks: Blocks<T>, key: string, text: T)
    requires Tidy(blocks) && Lines(blocks, key) == Some(text)
    ensures Put(Put(blocks, key, None, Written(blocks)), key, Some(text), Written(blocks)) == blocks
  {
    var before, b, after := SplitTidy(blocks, key);
    OthersPut(blocks, key, None, Written(blocks));
    PutBackAlone(before, b, after, key, Fresh(Keys(blocks), key));
  }

  /** With distinct keys the lines of a key are those of its one block. */
  lemma {:induction false} LinesOf<T>(blocks: Blocks<T>, i: nat)
    requires Distinct(Keys(blocks)) && i < |blocks| && blocks[i].key.Some?
    ensures Lines(blocks, blocks[i].key.value) == Some(blocks[i].text)
    decreases |blocks|
  {
    var last := |blocks| - 1;
    assert Keys(blocks)[i] == blocks[i].key && Keys(blocks)[last] == blocks[last].key;
    if i < last {
      assert Keys(blocks[..last]) == Keys(blocks)[..last];
      LinesOf(blocks[..last], i);
    }
  }

  /** Some key that is not written, and is not `key`. */
  function Fresh(keys: seq<Option<string>>, key: string): (k: string)
    ensures Some(k) !in keys && k != key
  {
    var n := Longest(keys, |key|);
    var k := seq(n + 1, _ => 'x');
    assert forall i :: 0 <= i < |keys| && keys[i].Some? ==> |keys[i].value| <= n;
    k
  }

  function Longest(keys: seq<Option<string>>, least: nat): (n: nat)
    ensures n >= least && forall i :: 0 <= i < |keys| && keys[i].Some? ==> |keys[i].value| <= n
  {
    if keys == [] then least
    else
      var rest := Longest(keys[1..], least);
      assert forall i :: 0 < i < |keys| ==> keys[i] == keys[1..][i - 1];
      if keys[0].Some? && |keys[0].value| > rest then |keys[0].value| else rest
  }
}
