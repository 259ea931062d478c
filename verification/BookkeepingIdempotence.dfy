/** Bookkeeping done twice is bookkeeping done once, for the stages that pass no verdict. */
module BookkeepingIdempotence {
  import opened Prelude
  import opened Spill
  import opened Frontmatter
  import opened Bookkeeping
  import opened BookkeepingLaws

  // ----- putting a key back ----------------------------------------------------------------

  function Count<T>(blocks: Blocks<T>, key: string): nat {
    if blocks == [] then 0 else (if blocks[0].key == Some(key) then 1 else 0) + Count(blocks[1..], key)
  }

  lemma {:induction false} CountAppend<T>(a: Blocks<T>, b: Blocks<T>, key: string)
    ensures Count(a + b, key) == Count(a, key) + Count(b, key)
    decreases |a|
  {
    if a == [] {
      assert a + b == b;
    } else {
      assert (a + b)[0] == a[0] && (a + b)[1..] == a[1..] + b;
      CountAppend(a[1..], b, key);
    }
  }

  lemma {:induction false} CountAbsent<T>(blocks: Blocks<T>, key: string)
    ensures Count(blocks, key) == 0 <==> Some(key) !in Keys(blocks)
    decreases |blocks|
  {
    if blocks != [] {
      CountAbsent(blocks[1..], key);
      assert Keys(blocks) == [blocks[0].key] + Keys(blocks[1..]);
    }
  }

  lemma {:induction false} CountOthers<T>(blocks: Blocks<T>, key: string, k: string)
    ensures Count(Others(blocks, key), k) == if k == key then 0 else Count(blocks, k)
    decreases |blocks|
  {
    if blocks != [] {
      CountOthers(blocks[1..], key, k);
      if blocks[0].key != Some(key) {
        assert Others(blocks, key)[1..] == Others(blocks[1..], key);
      } else {
        assert Others(blocks, key) == Others(blocks[1..], key);
      }
    }
  }

  lemma {:induction false} CountReplace<T>(blocks: Blocks<T>, key: string, text: Option<T>)
    ensures Count(Replace(blocks, key, text), key) <= 1
    decreases |blocks|
  {
    if blocks != [] {
      CountReplace(blocks[1..], key, text);
      CountOthers(blocks[1..], key, key);
      if blocks[0].key != Some(key) {
        assert Replace(blocks, key, text)[1..] == Replace(blocks[1..], key, text);
      } else if text.Some? {
        assert Replace(blocks, key, text)[1..] == Others(blocks[1..], key);
      }
    }
  }

  lemma CountOne<T>(b: Block<T>, key: string)
    ensures Count([b], key) == if b.key == Some(key) then 1 else 0
  {
    assert [b][1..] == [];
  }

  lemma CountInserted<T>(blocks: Blocks<T>, i: nat, b: Block<T>, key: string)
    requires i <= |blocks| && b.key == Some(key)
    ensures Count(Inserted(blocks, i, b), key) == Count(blocks, key) + 1
  {
    assert blocks == blocks[..i] + blocks[i..];
    CountAppend(blocks[..i], blocks[i..], key);
    CountAppend(blocks[..i] + [b], blocks[i..], key);
    CountAppend(blocks[..i], [b], key);
    CountOne(b, key);
  }

  /** Put writes its key at most once, and every other key as often as before. */
  lemma CountPut<T>(blocks: Blocks<T>, key: string, text: Option<T>, order: seq<string>, k: string)
    ensures k == key ==> Count(Put(blocks, key, text, order), k) <= 1
    ensures k != key ==> Count(Put(blocks, key, text, order), k) == Count(blocks, k)
  {
    CountReplace(blocks, key, text);
    OthersPut(blocks, key, text, order);
    CountOthers(blocks, key, k);
    CountOthers(Put(blocks, key, text, order), key, k);
    if text.Some? && Some(key) !in Keys(blocks) {
      CountAbsent(blocks, key);
      CountInserted(blocks, Place(Keys(blocks), key, order), Block(Some(key), text.value), key);
    }
  }

  lemma {:induction false} ReplaceAt<T>(before: Blocks<T>, b: Block<T>, after: Blocks<T>, key: string, text: T)
    requires b.key == Some(key) && Some(key) !in Keys(before) && Some(key) !in Keys(after)
    ensures Replace(before + [b] + after, key, Some(text)) == before + [Block(Some(key), text)] + after
    decreases |before|
  {
    var all := before + [b] + after;
    if before == [] {
      assert all[0] == b && all[1..] == after;
      AbsentReplace(after, key, None);
    } else {
      assert all[0] == before[0] && all[1..] == before[1..] + [b] + after;
      assert Keys(before) == [before[0].key] + Keys(before[1..]);
      ReplaceAt(before[1..], b, after, key, text);
    }
  }

  /** A key written once: the block, and what stands before and after it. */
  lemma {:induction false} SplitOnce<T>(blocks: Blocks<T>, key: string)
    returns (before: Blocks<T>, b: Block<T>, after: Blocks<T>)
    requires Count(blocks, key) == 1
    ensures blocks == before + [b] + after && b.key == Some(key)
    ensures Some(key) !in Keys(before) && Some(key) !in Keys(after)
    ensures Lines(blocks, key) == Some(b.text)
  {
    CountAbsent(blocks, key);
    var i := First(Keys(blocks), Some(key));
    before, b, after := blocks[..i], blocks[i], blocks[i + 1..];
    assert blocks == before + [b] + after;
    assert Keys(before) == Keys(blocks)[..i];
    CountAppend(before + [b], after, key);
    CountAppend(before, [b], key);
    CountOne(b, key);
    CountAbsent(before, key);
    CountAbsent(after, key);
    LinesAppend(before + [b], after, key);
    LinesSnoc(before, b, key);
  }

  /** Putting what is there changes nothing; putting it over another text undoes that text. */
  lemma PutOver<T>(blocks: Blocks<T>, key: string, text: T, order: seq<string>)
    requires Count(blocks, key) <= 1
    ensures Put(blocks, key, Lines(blocks, key), order) == blocks
    ensures Put(Put(blocks, key, Some(text), order), key, Lines(blocks, key), order) == blocks
  {
    CountAbsent(blocks, key);
    if Count(blocks, key) == 0 {
      OthersPut(blocks, key, Some(text), order);
      OthersPut(blocks, key, None, order);
      OthersPut(Put(blocks, key, Some(text), order), key, None, order);
      AbsentReplace(blocks, key, None);
    } else {
      var before, b, after := SplitOnce(blocks, key);
      var other := Block(Some(key), text);
      ReplaceAt(before, b, after, key, b.text);
      ReplaceAt(before, b, after, key, text);
      ReplaceAt(before, other, after, key, b.text);
      assert (before + [other] + after)[|before|] == other;
      assert Keys(before + [other] + after)[|before|] == Some(key);
      assert b == Block(Some(key), b.text);
    }
  }

  // ----- restoring twice -------------------------------------------------------------------

  /** The service's keys stand once at most, with the lines of the old document. */
  ghost predicate Settled<T>(blocks: Blocks<T>, before: Blocks<T>, keys: seq<string>) {
    forall k :: k in keys ==> Count(blocks, k) <= 1 && Lines(blocks, k) == Lines(before, k)
  }

  lemma {:induction false} RestoreSettled<T>(blocks: Blocks<T>, before: Blocks<T>, keys: seq<string>, order: seq<string>)
    requires Settled(blocks, before, keys)
    ensures RestoreKeys(blocks, before, keys, order) == blocks
    decreases |keys|
  {
    if keys != [] {
      if Lines(before, keys[0]).Some? {
        PutOver(blocks, keys[0], Lines(before, keys[0]).value, order);
      } else {
        CountAbsent(blocks, keys[0]);
        OthersPut(blocks, keys[0], None, order);
        AbsentReplace(blocks, keys[0], None);
      }
      RestoreSettled(blocks, before, keys[1..], order);
    }
  }

  lemma {:induction false} RestoreOver<T>(blocks: Blocks<T>, before: Blocks<T>, keys: seq<string>, order: seq<string>,
                                          key: string, text: T)
    requires Settled(blocks, before, keys) && key in keys
    ensures RestoreKeys(Put(blocks, key, Some(text), order), before, keys, order) == blocks
    decreases |keys|
  {
    var over := Put(blocks, key, Some(text), order);
    if keys[0] == key {
      PutOver(blocks, key, text, order);
      RestoreSettled(blocks, before, keys[1..], order);
    } else {
      var k := keys[0];
      CountPut(blocks, key, Some(text), order, k);
      LinesPut(blocks, key, Some(text), order, k);
      PutOver(over, k, text, order);
      RestoreOver(blocks, before, keys[1..], order, key, text);
    }
  }

  lemma {:induction false} CountRestore<T>(blocks: Blocks<T>, before: Blocks<T>, keys: seq<string>, order: seq<string>, k: string)
    requires k in keys || Count(blocks, k) <= 1
    ensures Count(RestoreKeys(blocks, before, keys, order), k) <= 1
    decreases |keys|
  {
    if keys != [] {
      CountPut(blocks, keys[0], Lines(before, keys[0]), order, k);
      CountRestore(Put(blocks, keys[0], Lines(before, keys[0]), order), before, keys[1..], order, k);
    }
  }

  lemma {:induction false} CountStray<T>(blocks: Blocks<T>, before: Blocks<T>, k: string)
    ensures Count(WithoutStray(blocks, before), k) <= Count(blocks, k)
    decreases |blocks|
  {
    if blocks != [] {
      CountStray(blocks[1..], before, k);
      if !IsStray(blocks[0], before) {
        assert WithoutStray(blocks, before)[1..] == WithoutStray(blocks[1..], before);
      } else {
        assert WithoutStray(blocks, before) == WithoutStray(blocks[1..], before);
      }
    }
  }

  lemma {:induction false} NoStrayLeft<T>(blocks: Blocks<T>, before: Blocks<T>)
    ensures WithoutStray(WithoutStray(blocks, before), before) == WithoutStray(blocks, before)
    ensures StrayTexts(WithoutStray(blocks, before), before) == []
    decreases |blocks|
  {
    if blocks != [] {
      NoStrayLeft(blocks[1..], before);
      if !IsStray(blocks[0], before) {
        assert WithoutStray(blocks, before)[1..] == WithoutStray(blocks[1..], before);
      } else {
        assert WithoutStray(blocks, before) == WithoutStray(blocks[1..], before);
      }
    }
  }

  /** A document's own blocks are no strays. */
  lemma {:induction false} OwnKeysStay<T>(blocks: Blocks<T>, before: Blocks<T>)
    requires forall i :: 0 <= i < |blocks| ==> blocks[i] in before
    ensures WithoutStray(blocks, before) == blocks && StrayTexts(blocks, before) == []
    decreases |blocks|
  {
    if blocks != [] {
      assert forall i :: 0 <= i < |blocks| - 1 ==> blocks[1..][i] == blocks[i + 1];
      OwnKeysStay(blocks[1..], before);
      var i :| 0 <= i < |before| && before[i] == blocks[0];
      assert Keys(before)[i] == blocks[0].key;
    }
  }

  lemma RestoredIsSettled<T>(c: Call<T>)
    ensures Settled(Restored(c), BeforeBlocks(c), ServiceKeys(c.stage))
  {
    var keys := ServiceKeys(c.stage);
    var all := RestoreKeys(c.after.blocks, BeforeBlocks(c), keys, Order(c));
    forall k | k in keys ensures Count(Restored(c), k) <= 1 && Lines(Restored(c), k) == Lines(BeforeBlocks(c), k) {
      CountRestore(c.after.blocks, BeforeBlocks(c), keys, Order(c), k);
      CountStray(all, BeforeBlocks(c), k);
      LinesRestored(c, k);
    }
  }

  lemma {:induction false} BesidesTwice<T>(blocks: Blocks<T>, keys: seq<string>)
    ensures Besides(Besides(blocks, keys), keys) == Besides(blocks, keys)
    decreases |blocks|
  {
    if blocks != [] {
      BesidesTwice(blocks[1..], keys);
      if blocks[0].key.Some? && blocks[0].key.value in keys {
        assert Besides(blocks, keys) == Besides(blocks[1..], keys);
      } else {
        assert Besides(blocks, keys)[1..] == Besides(blocks[1..], keys);
      }
    }
  }

  /** Restoring from a document without frontmatter takes the service's keys out. */
  lemma {:induction false} RestoreNothing<T>(blocks: Blocks<T>, keys: seq<string>, order: seq<string>)
    ensures RestoreKeys(blocks, [], keys, order) == Besides(blocks, keys)
    decreases |keys|
  {
    if keys == [] {
      BesidesNone(blocks);
    } else {
      OthersPut(blocks, keys[0], None, order);
      RestoreNothing(Others(blocks, keys[0]), keys[1..], order);
      BesidesStep(blocks, keys);
    }
  }

  lemma {:induction false} BesidesNone<T>(blocks: Blocks<T>)
    ensures Besides(blocks, []) == blocks
    decreases |blocks|
  {
    if blocks != [] { BesidesNone(blocks[1..]); }
  }

  lemma {:induction false} BesidesStep<T>(blocks: Blocks<T>, keys: seq<string>)
    requires keys != []
    ensures Besides(Others(blocks, keys[0]), keys[1..]) == Besides(blocks, keys)
    decreases |blocks|
  {
    if blocks != [] {
      BesidesStep(blocks[1..], keys);
      if blocks[0].key == Some(keys[0]) {
        assert Others(blocks, keys[0]) == Others(blocks[1..], keys[0]);
      } else {
        assert Others(blocks, keys[0])[1..] == Others(blocks[1..], keys[0]);
      }
    }
  }

  /** A missing key is never put before a first block without a key. */
  lemma PlacePastHead(present: seq<Option<string>>, key: string, sequence: seq<string>)
    requires present != [] && present[0] == None
    ensures PlaceIn(present, key, sequence) > 0
  {
    if key in sequence {
      var position := First(sequence, key);
      LaterPastHead(present, sequence[position + 1..]);
      EarlierPastHead(present, sequence[..position]);
    }
  }

  lemma {:induction false} LaterPastHead(present: seq<Option<string>>, later: seq<string>)
    requires present != [] && present[0] == None
    ensures BeforeLater(present, later).Some? ==> BeforeLater(present, later).value > 0
    decreases |later|
  {
    if later != [] { LaterPastHead(present, later[1..]); }
  }

  lemma {:induction false} EarlierPastHead(present: seq<Option<string>>, earlier: seq<string>)
    ensures AfterEarlier(present, earlier).Some? ==> AfterEarlier(present, earlier).value > 0
    decreases |earlier|
  {
    if earlier != [] { EarlierPastHead(present, earlier[..|earlier| - 1]); }
  }

  lemma TidyInserted<T>(blocks: Blocks<T>, i: nat, b: Block<T>)
    requires Tidy(blocks) && i <= |blocks| && b.key.Some? && b.key !in Keys(blocks)
    requires i == 0 ==> blocks == [] || blocks[0].key.Some?
    ensures Tidy(Inserted(blocks, i, b))
  {
    var all := Inserted(blocks, i, b);
    assert Keys(all) == Keys(blocks)[..i] + [b.key] + Keys(blocks)[i..];
    assert forall j :: 0 <= j < |blocks| ==> Keys(blocks)[j] != b.key;
    forall j | 0 < j < |all| ensures all[j].key.Some? {
      if j < i { assert all[j] == blocks[j]; } else if j > i { assert all[j] == blocks[j - 1]; }
    }
  }

  lemma TidyInsert<T>(blocks: Blocks<T>, key: string, text: T, order: seq<string>)
    requires Tidy(blocks) && Some(key) !in Keys(blocks)
    ensures Tidy(Put(blocks, key, Some(text), order))
  {
    var i := Place(Keys(blocks), key, order);
    if blocks != [] && blocks[0].key == None {
      assert Keys(blocks)[0] == None;
      PlacePastHead(Keys(blocks), key, if key in order then order else CANONICAL);
    }
    TidyInserted(blocks, i, Block(Some(key), text));
    PutMissing(blocks, key, text, order, i);
  }

  /** Two keys put one after the other come out again, and go back to the same places by the new written order. */
  lemma PutTwoBack<T>(blocks: Blocks<T>, k1: string, t1: T, k2: string, t2: T, order: seq<string>)
    requires Tidy(blocks) && k1 != k2 && Some(k1) !in Keys(blocks) && Some(k2) !in Keys(blocks)
    ensures var out := Put(Put(blocks, k1, Some(t1), order), k2, Some(t2), order);
            Put(Put(blocks, k1, Some(t1), Written(out)), k2, Some(t2), Written(out)) == out
  {
    var mid := Put(blocks, k1, Some(t1), order);
    var out := Put(mid, k2, Some(t2), order);
    TidyInsert(blocks, k1, t1, order);
    CountPut(blocks, k1, Some(t1), order, k2);
    CountAbsent(blocks, k2);
    CountAbsent(mid, k2);
    TidyInsert(mid, k2, t2, order);
    LinesPut(blocks, k1, Some(t1), order, k1);
    LinesPut(mid, k2, Some(t2), order, k1);
    LinesPut(mid, k2, Some(t2), order, k2);
    OthersPut(mid, k2, Some(t2), order);
    OthersPut(blocks, k1, Some(t1), order);
    AbsentReplace(mid, k2, None);
    AbsentReplace(blocks, k1, None);
    assert Others(out, k2) == mid && Others(mid, k1) == blocks;
    var before, b, after := SplitTidy(out, k1);
    PutBack(before, b, after, k1, k2);
    PutReinserts(out, k2, t2);
    OthersPut(out, k2, None, Written(out));
  }

  lemma PutOneBack<T>(blocks: Blocks<T>, key: string, text: T, order: seq<string>)
    requires Tidy(blocks) && Some(key) !in Keys(blocks)
    ensures var out := Put(blocks, key, Some(text), order); Put(blocks, key, Some(text), Written(out)) == out
  {
    var out := Put(blocks, key, Some(text), order);
    TidyInsert(blocks, key, text, order);
    LinesPut(blocks, key, Some(text), order, key);
    OthersPut(blocks, key, Some(text), order);
    AbsentReplace(blocks, key, None);
    OthersPut(out, key, None, Written(out));
    PutReinserts(out, key, text);
  }

  // ----- the second pass -------------------------------------------------------------------

  /** A pass that only restores and stamps: `curate`, and `changeset` without deprecate. */
  predicate Plain<T>(c: Call<T>) {
    Proper(c) && !Audits(c.stage) && !c.deprecate
  }

  /** Nothing to report. */
  predicate Quiet<T(==)>(r: Repairs<T>) {
    r == Repairs([], [], None, multiset{}, multiset{})
  }

  /** The text of the stamp of a substantive edit. */
  function Mark<T>(y: Yaml<T>, c: Call<T>): T {
    y.generated(OrElse(Lines(BeforeBlocks(c), "generated"), Lines(c.after.blocks, "generated")), c.actor,
                NotBefore(c.now, Floor(Prior(y, c)), true))
  }

  /** The status of a new concept. */
  predicate Drafts<T>(c: Call<T>) {
    c.stage == Changeset && c.before == None
  }

  lemma PlainFinal<T>(y: Yaml<T>, c: Call<T>)
    requires Plain(c) && Substantive(y, c)
    ensures var stamped := Put(Restored(c), "generated", Some(Mark(y, c)), Order(c));
            FinalBlocks(y, c) == if Drafts(c) then Put(stamped, "status", Some(y.status("draft")), Order(c)) else stamped
  {
    if Drafts(c) {
      var stamped := Put(Restored(c), "generated", Some(Mark(y, c)), Order(c));
      LinesRestored(c, "status");
      assert ServiceKeys(c.stage)[2] == "status";
      LinesPut(Restored(c), "generated", Some(Mark(y, c)), Order(c), "status");
      assert ValueAt(y.text, stamped, "status") == None;
    }
  }

  /** The stamp on the result is written again as it stands. */
  lemma MarkAgain<T(!new)>(y: Yaml<T>, c: Call<T>, doc: Doc<T>)
    requires Faithful(y) && Lines(doc.blocks, "generated") == Some(Mark(y, c))
    ensures Mark(y, c.(after := doc)) == Mark(y, c)
  {
    var t := OrElse(Lines(BeforeBlocks(c), "generated"), Lines(c.after.blocks, "generated"));
    NotBeforeIsTight(c.now, Floor(Prior(y, c)), true);
    assert y.generated(Some(y.generated(t, c.actor, NotBefore(c.now, Floor(Prior(y, c)), true))), c.actor,
                       NotBefore(c.now, Floor(Prior(y, c)), true)) == Mark(y, c);
  }

  /** The keys that the service owns, in a plain result. */
  lemma LinesPlain<T>(y: Yaml<T>, c: Call<T>, k: string)
    requires Plain(c) && Substantive(y, c)
    ensures Lines(FinalBlocks(y, c), k) ==
            if k == "generated" then Some(Mark(y, c))
            else if k == "status" && Drafts(c) then Some(y.status("draft"))
            else Lines(Restored(c), k)
  {
    var stamped := Put(Restored(c), "generated", Some(Mark(y, c)), Order(c));
    PlainFinal(y, c);
    LinesPut(Restored(c), "generated", Some(Mark(y, c)), Order(c), k);
    if Drafts(c) { LinesPut(stamped, "status", Some(y.status("draft")), Order(c), k); }
  }

  /** Restoring the result takes the stamp off again, and nothing else. */
  lemma RestoredAgain<T>(y: Yaml<T>, c: Call<T>, doc: Doc<T>)
    requires Plain(c) && Substantive(y, c) && doc.blocks == FinalBlocks(y, c)
    ensures var c2, keys := c.(after := doc), ServiceKeys(c.stage);
            && RestoreKeys(doc.blocks, BeforeBlocks(c), keys, Order(c2)) == Restored(c)
            && Restored(c2) == Restored(c)
            && StrayTexts(RestoreKeys(doc.blocks, BeforeBlocks(c), keys, Order(c2)), BeforeBlocks(c)) == []
  {
    var c2, keys := c.(after := doc), ServiceKeys(c.stage);
    assert keys[0] == "verified" && keys[1] == "generated";
    PlainFinal(y, c);
    RestoredIsSettled(c);
    var all := RestoreKeys(c.after.blocks, BeforeBlocks(c), keys, Order(c));
    NoStrayLeft(all, BeforeBlocks(c));
    if BeforeBlocks(c) == [] {
      var stamped := Put(Restored(c), "generated", Some(Mark(y, c)), Order(c));
      BesidesPut(Restored(c), keys, "generated", Some(Mark(y, c)), Order(c));
      if Drafts(c) {
        assert keys[2] == "status";
        BesidesPut(stamped, keys, "status", Some(y.status("draft")), Order(c));
      }
      RestoreNothing(doc.blocks, keys, Order(c2));
      BesidesRestored(c);
      RestoreNothing(c.after.blocks, keys, Order(c));
      BesidesTwice(c.after.blocks, keys);
    } else {
      RestoreOver(Restored(c), BeforeBlocks(c), keys, Order(c), "generated", Mark(y, c));
    }
  }

  /** Put by the written order of the result, the stamp and the status go where the first pass put them. */
  ghost predicate GoesBack<T>(y: Yaml<T>, c: Call<T>) {
    var mark, draft, r := Mark(y, c), y.status("draft"), Restored(c);
    var once := Put(r, "generated", Some(mark), Order(c));
    var twice := Put(once, "status", Some(draft), Order(c));
    if Drafts(c)
    then Put(Put(r, "generated", Some(mark), Written(twice)), "status", Some(draft), Written(twice)) == twice
    else Put(r, "generated", Some(mark), Written(once)) == once
  }

  /** So they do, and the result is the result again. */
  lemma FinalAgain<T(!new)>(y: Yaml<T>, c: Call<T>, doc: Doc<T>)
    requires Faithful(y) && Plain(c) && (BeforeBlocks(c) == [] ==> GoesBack(y, c))
    ensures Substantive(y, c) && doc.blocks == FinalBlocks(y, c) && Substantive(y, c.(after := doc)) ==>
              FinalBlocks(y, c.(after := doc)) == doc.blocks
  {
    var c2, keys := c.(after := doc), ServiceKeys(c.stage);
    if Substantive(y, c) && doc.blocks == FinalBlocks(y, c) && Substantive(y, c2) {
      assert keys[0] == "verified" && keys[1] == "generated" && (c.stage == Changeset ==> keys[2] == "status");
      RestoredAgain(y, c, doc);
      LinesPlain(y, c, "generated");
      MarkAgain(y, c, doc);
      PlainFinal(y, c);
      PlainFinal(y, c2);
    }
  }

  lemma TidyGoesBack<T>(y: Yaml<T>, c: Call<T>)
    requires Plain(c) && Tidy(Restored(c)) && BeforeBlocks(c) == []
    ensures GoesBack(y, c)
  {
    var keys := ServiceKeys(c.stage);
    assert keys[1] == "generated" && (c.stage == Changeset ==> keys[2] == "status");
    LinesRestored(c, "generated");
    PutOneBack(Restored(c), "generated", Mark(y, c), Order(c));
    if Drafts(c) {
      LinesRestored(c, "status");
      PutTwoBack(Restored(c), "generated", Mark(y, c), "status", y.status("draft"), Order(c));
    }
  }

  /** The result holds the service's key as the old document did, or as the service insists. */
  predicate Kept<T>(y: Yaml<T>, c: Call<T>, k: string) {
    || k == "generated"
    || ValueAt(y.text, c.after.blocks, k) == ValueAt(y.text, BeforeBlocks(c), k)
    || (k == "status" && IsOwned(ValueAt(y.text, c.after.blocks, k), OwnedStatus(y, c)))
  }

  /** No restored key differs from what the edit holds. */
  lemma {:induction false} NothingRestored<T>(y: Yaml<T>, c: Call<T>, keys: seq<string>)
    requires forall k :: k in keys ==> Kept(y, c, k)
    ensures RestoredKeys(y, c, keys) == []
    decreases |keys|
  {
    if keys != [] {
      var key := keys[|keys| - 1];
      assert key in keys;
      NothingRestored(y, c, keys[..|keys| - 1]);
    }
  }

  lemma SubstantiveAgain<T(!new)>(y: Yaml<T>, c: Call<T>, doc: Doc<T>)
    requires Plain(c) && Substantive(y, c) && doc == Doc(FinalBlocks(y, c), Rest(c.after.body))
    ensures Substantive(y, c.(after := doc))
  {
    RestoredAgain(y, c, doc);
    NormalizeRest(c.after.body);
  }

  lemma KeptLines<T>(y: Yaml<T>, c: Call<T>, k: string)
    requires Lines(c.after.blocks, k) == Lines(BeforeBlocks(c), k)
    ensures Kept(y, c, k)
  {}

  lemma KeptDraft<T(!new)>(y: Yaml<T>, c: Call<T>)
    requires Faithful(y) && Plain(c) && Drafts(c) && Lines(c.after.blocks, "status") == Some(y.status("draft"))
    ensures Kept(y, c, "status")
  {
    assert y.text(y.status("draft")) == Str("draft");
    assert OwnedStatus(y, c) == Some("draft");
  }

  lemma KeptAgain<T(!new)>(y: Yaml<T>, c: Call<T>, doc: Doc<T>, k: string)
    requires Faithful(y) && Plain(c) && Substantive(y, c) && doc.blocks == FinalBlocks(y, c) && k in ServiceKeys(c.stage)
    ensures Kept(y, c.(after := doc), k)
  {
    LinesPlain(y, c, k);
    LinesRestored(c, k);
    if k == "status" && Drafts(c) {
      KeptDraft(y, c.(after := doc));
    } else if k != "generated" {
      KeptLines(y, c.(after := doc), k);
    }
  }

  lemma QuietAgain<T(!new)>(y: Yaml<T>, c: Call<T>, doc: Doc<T>)
    requires Faithful(y) && Plain(c) && Substantive(y, c) && doc.blocks == FinalBlocks(y, c)
    ensures RestoredKeys(y, c.(after := doc), ServiceKeys(c.stage)) == []
  {
    var keys := ServiceKeys(c.stage);
    forall k | k in keys ensures Kept(y, c.(after := doc), k) {
      KeptAgain(y, c, doc, k);
    }
    NothingRestored(y, c.(after := doc), keys);
  }

  /** The old document holds no key of the service twice. */
  ghost predicate OwnedOnce<T>(c: Call<T>) {
    forall k :: k in ServiceKeys(c.stage) ==> Count(BeforeBlocks(c), k) <= 1
  }

  lemma DiscardedAgain<T(!new)>(y: Yaml<T>, c: Call<T>)
    requires Plain(c) && c.before.Some? && OwnedOnce(c)
    ensures var r := Apply(y, c.(after := c.before.value)); r.Applied? && r.doc == c.before.value && Quiet(r.repairs)
  {
    var c2, keys, before := c.(after := c.before.value), ServiceKeys(c.stage), BeforeBlocks(c);
    forall k | k in keys ensures Count(before, k) <= 1 && Kept(y, c2, k) {
      KeptLines(y, c2, k);
    }
    RestoreSettled(before, before, keys, Order(c2));
    OwnKeysStay(before, before);
    NothingRestored(y, c2, keys);
    assert Restored(c2) == before;
  }

  /** A quiet pass returns no document that holds a key of the service twice. */
  lemma QuietOwnsOnce<T(!new)>(y: Yaml<T>, c: Call<T>)
    requires Plain(c) && c.before.Some?
    requires var r := Apply(y, c); r.Applied? && r.doc == c.before.value && Quiet(r.repairs)
    ensures OwnedOnce(c)
  {
    RestoredIsSettled(c);
    if Substantive(y, c) {
      PlainFinal(y, c);
      forall k | k in ServiceKeys(c.stage) ensures Count(BeforeBlocks(c), k) <= 1 {
        CountPut(Restored(c), "generated", Some(Mark(y, c)), Order(c), k);
      }
    } else {
      assert NoticeOf(y, c) == None && Restored(c) == BeforeBlocks(c);
    }
  }

  lemma SubstantiveIsIdempotent<T(!new)>(y: Yaml<T>, c: Call<T>, doc: Doc<T>)
    requires Faithful(y) && Plain(c) && (BeforeBlocks(c) == [] ==> GoesBack(y, c))
    ensures Returns(y, c, doc) && Substantive(y, c) ==>
            var r := Apply(y, c.(after := doc)); r.Applied? && r.doc == doc && Quiet(r.repairs)
  {
    if Returns(y, c, doc) && Substantive(y, c) {
      var c2 := c.(after := doc);
      ResultParts(y, c, doc);
      SplitPartitionsBody(c.after.body);
      SubstantiveAgain(y, c, doc);
      FinalAgain(y, c, doc);
      QuietAgain(y, c, doc);
      RestoredAgain(y, c, doc);
      assert Spilled(doc.body) == [] && Rest(doc.body) == doc.body;
      assert BaseBody(y, c2) == doc.body && Displaced(y, c2) == {};
    }
  }

  /**
   Bookkeeping applied to its own result, with the same document before it, actor and time, returns that
   result and has nothing to report. An edit is taken as it is, whatever it repeats; only where no
   frontmatter was before must the keys that the service leaves in be distinct.
   */
  lemma BookkeepingIsIdempotent<T(!new)>(y: Yaml<T>, c: Call<T>, doc: Doc<T>)
    requires Faithful(y) && Plain(c)
    requires if Substantive(y, c) then BeforeBlocks(c) == [] ==> Tidy(Restored(c)) else OwnedOnce(c)
    ensures Returns(y, c, doc) ==>
            var r := Apply(y, c.(after := doc)); r.Applied? && r.doc == doc && Quiet(r.repairs)
  {
    if Substantive(y, c) {
      if BeforeBlocks(c) == [] { TidyGoesBack(y, c); }
      SubstantiveIsIdempotent(y, c, doc);
    } else {
      ResultParts(y, c, doc);
      DiscardedAgain(y, c);
    }
  }

  /** A discarded edit is discarded in silence the next time if and only if the old document owns each key once. */
  lemma DiscardedIsIdempotent<T(!new)>(y: Yaml<T>, c: Call<T>, doc: Doc<T>)
    requires Plain(c) && !Substantive(y, c)
    ensures Returns(y, c, doc) ==>
            ((var r := Apply(y, c.(after := doc)); r.Applied? && r.doc == doc && Quiet(r.repairs)) <==> OwnedOnce(c))
  {
    ResultParts(y, c, doc);
    if OwnedOnce(c) {
      DiscardedAgain(y, c);
    } else if Returns(y, c, doc) {
      var c2 := c.(after := doc);
      var r := Apply(y, c2);
      if r.Applied? && r.doc == doc && Quiet(r.repairs) { QuietOwnsOnce(y, c2); }
    }
  }

  /** By the written order a key goes behind the last block of the key in front of it. */
  lemma PlacedBehind<T>(a: Blocks<T>, b: Block<T>, c: Blocks<T>, key: string)
    requires b.key == Some(key) && b.key !in Keys(a) && a != [] && a[|a| - 1].key.Some?
    ensures Place(Keys(a + c), key, Written(a + [b] + c)) == |a| <==> a[|a| - 1].key !in Keys(c)
  {
    WrittenAround(a, b, c, key);
    var k := a[|a| - 1].key;
    assert Written(a)[|Written(a)| - 1] == k.value;
    assert Keys(a + c) == Keys(a) + Keys(c) && Keys(a)[|a| - 1] == k;
    if k in Keys(c) {
      var i := First(Keys(c), k);
      assert Keys(a + c)[|a| + i] == k;
    } else {
      LastPeer(a, c, Written(a));
    }
  }

  lemma WrittenFirst<T>(c: Blocks<T>)
    requires c != [] && c[0].key.Some?
    ensures Written(c) != [] && Written(c)[0] == c[0].key.value
  {
    WrittenAppend([c[0]], c[1..]);
    assert [c[0]] + c[1..] == c && [c[0]][..0] == [] && Written([c[0]]) == [c[0].key.value];
  }

  /** With no key in front of it, it goes there again. */
  lemma PlacedInFront<T>(a: Blocks<T>, b: Block<T>, c: Blocks<T>, key: string)
    requires b.key == Some(key) && b.key !in Keys(a) && b.key !in Keys(c)
    requires a == [] || (|a| == 1 && a[0].key == None)
    requires c != [] ==> c[0].key.Some?
    ensures Place(Keys(a + c), key, Written(a + [b] + c)) == |a|
  {
    WrittenAround(a, b, c, key);
    assert Written(a) == [] && AfterEarlier(Keys(a + c), []) == None;
    LaterFirst(a, c);
  }

  lemma LaterFirst<T>(a: Blocks<T>, c: Blocks<T>)
    requires (forall i :: 0 <= i < |a| ==> a[i].key == None) && (c != [] ==> c[0].key.Some?)
    ensures BeforeLater(Keys(a + c), Written(c)) == if c == [] then None else Some(|a|)
  {
    if c != [] {
      WrittenFirst(c);
      assert Written(c)[0] in Written(c) && First(Written(c), c[0].key.value) == 0;
    }
    LaterPeers(a, c, Written(c));
  }

  lemma InsertedOnce<T>(blocks: Blocks<T>, i: nat, j: nat, b: Block<T>)
    requires i <= |blocks| && j <= |blocks| && b.key !in Keys(blocks)
    ensures Inserted(blocks, i, b) == Inserted(blocks, j, b) <==> i == j
  {
    var x, y := Inserted(blocks, i, b), Inserted(blocks, j, b);
    if i < j {
      assert x[i] == b && y[i] == blocks[i] && Keys(blocks)[i] == blocks[i].key;
    } else if j < i {
      assert y[j] == b && x[j] == blocks[j] && Keys(blocks)[j] == blocks[j].key;
    }
  }

  /** The block in front of the key is the last one of its own key. */
  ghost predicate FollowsLast<T>(blocks: Blocks<T>, key: string)
    requires Some(key) in Keys(blocks)
  {
    var i := First(Keys(blocks), Some(key));
    i == 0 || blocks[i - 1].key == None || blocks[i - 1].key !in Keys(blocks)[i + 1..]
  }

  /** Only a first block may have no key. */
  predicate Keyed<T>(blocks: Blocks<T>) {
    forall i :: 0 < i < |blocks| ==> blocks[i].key.Some?
  }

  lemma KeyGoesBack<T>(r: Blocks<T>, key: string, text: T, order: seq<string>)
    requires Some(key) !in Keys(r) && Keyed(r)
    ensures var once := Put(r, key, Some(text), order);
            && Some(key) in Keys(once) && Keyed(once)
            && (Put(r, key, Some(text), Written(once)) == once <==> FollowsLast(once, key))
  {
    var p := Place(Keys(r), key, order);
    PutMissing(r, key, text, order, p);
    if r != [] && r[0].key == None {
      PlacePastHead(Keys(r), key, if key in order then order else CANONICAL);
    }
    assert r == r[..p] + r[p..];
    KeyedAround(r[..p], Block(Some(key), text), r[p..]);
    PutAt(r[..p], Block(Some(key), text), r[p..], r, key);
  }

  lemma KeyedAround<T>(a: Blocks<T>, b: Block<T>, c: Blocks<T>)
    requires Keyed(a + c) && b.key.Some? && (a == [] && c != [] ==> c[0].key.Some?)
    ensures Keyed(a + [b] + c)
  {
    var once := a + [b] + c;
    forall i | 0 < i < |once| ensures once[i].key.Some? {
      if i < |a| { assert once[i] == (a + c)[i]; } else if i > |a| { assert once[i] == (a + c)[i - 1]; }
    }
  }

  lemma PutAt<T>(a: Blocks<T>, b: Block<T>, c: Blocks<T>, r: Blocks<T>, key: string)
    requires r == a + c && b.key == Some(key) && b.key !in Keys(r) && Keyed(r)
    requires a == [] && r != [] ==> r[0].key.Some?
    ensures var once := a + [b] + c;
            && Some(key) in Keys(once)
            && (Put(r, key, Some(b.text), Written(once)) == once <==> FollowsLast(once, key))
  {
    var once := a + [b] + c;
    assert Keys(once) == Keys(a) + [b.key] + Keys(c) && Keys(r) == Keys(a) + Keys(c);
    FirstIs(Keys(a), Keys(c), b.key);
    assert Keys(once)[|a| + 1..] == Keys(c);
    assert a != [] ==> once[|a| - 1] == a[|a| - 1] == r[|a| - 1];
    assert c != [] ==> c[0] == r[|a|];
    if a != [] && a[|a| - 1].key.Some? {
      PlacedBehind(a, b, c, key);
    } else {
      PlacedInFront(a, b, c, key);
    }
    var q := Place(Keys(r), key, Written(once));
    PutMissing(r, key, b.text, Written(once), q);
    InsertedOnce(r, q, |a|, b);
    assert r[..|a|] == a && r[|a|..] == c;
  }

  /** A key that is not there is no peer. */
  lemma {:induction false} AfterPresent<T>(present: seq<Option<string>>, blocks: Blocks<T>, other: string)
    requires Some(other) !in present
    ensures AfterEarlier(present, Written(blocks)) == AfterEarlier(present, Written(Others(blocks, other)))
    decreases |blocks|
  {
    if blocks != [] {
      var init, b := blocks[..|blocks| - 1], blocks[|blocks| - 1];
      assert blocks == init + [b];
      AfterPresent(present, init, other);
      OthersSnoc(init, b, other);
      WrittenSnoc(init, b);
      WrittenSnoc(Others(init, other), b);
      var w, v := Written(init), Written(Others(init, other));
      assert w + [] == w && v + [] == v && Others(init, other) + [] == Others(init, other);
      if b.key.Some? {
        assert (w + [b.key.value])[..|w|] == w && (v + [b.key.value])[..|v|] == v;
      }
    }
  }

  lemma {:induction false} BeforePresent<T>(present: seq<Option<string>>, blocks: Blocks<T>, other: string)
    requires Some(other) !in present
    ensures BeforeLater(present, Written(blocks)) == BeforeLater(present, Written(Others(blocks, other)))
    decreases |blocks|
  {
    if blocks != [] {
      var b, rest := blocks[0], blocks[1..];
      assert blocks == [b] + rest;
      BeforePresent(present, rest, other);
      WrittenAppend([b], rest);
      WrittenOne(b);
      if b.key != Some(other) {
        WrittenAppend([b], Others(rest, other));
        assert Others(blocks, other) == [b] + Others(rest, other);
      } else {
        assert Others(blocks, other) == Others(rest, other);
      }
      var w, v := Written(rest), Written(Others(rest, other));
      assert [] + w == w && [] + v == v;
      if b.key.Some? {
        assert ([b.key.value] + w)[1..] == w && ([b.key.value] + v)[1..] == v;
      }
    }
  }

  lemma WrittenOne<T>(b: Block<T>)
    ensures Written([b]) == if b.key.Some? then [b.key.value] else []
  {
    assert [b][..0] == [];
  }

  /** Where a key goes does not depend on another missing key. */
  lemma PlacedWithout<T>(present: seq<Option<string>>, a: Blocks<T>, b: Block<T>, c: Blocks<T>, key: string, other: string)
    requires b.key == Some(key) && key != other && Some(other) !in present && b.key !in Keys(a)
    ensures var all := a + [b] + c;
            Place(present, key, Written(all)) == Place(present, key, Written(Others(all, other)))
  {
    WrittenAround(a, b, c, key);
    SplitOther(a, b, c, other);
    KeysOthers(a, other);
    WrittenAround(Others(a, other), b, Others(c, other), key);
    AfterPresent(present, a, other);
    BeforePresent(present, c, other);
  }

  lemma {:induction false} KeysOthers<T>(blocks: Blocks<T>, key: string)
    ensures forall k :: k in Keys(Others(blocks, key)) ==> k in Keys(blocks)
    decreases |blocks|
  {
    if blocks != [] {
      KeysOthers(blocks[1..], key);
      assert Keys(blocks) == [blocks[0].key] + Keys(blocks[1..]);
      if blocks[0].key != Some(key) {
        assert Keys(Others(blocks, key)) == [blocks[0].key] + Keys(Others(blocks[1..], key));
      } else {
        assert Others(blocks, key) == Others(blocks[1..], key);
      }
    }
  }

  lemma OnlyAdds<T>(r: Blocks<T>, key: string, text: T, order: seq<string>, other: string)
    requires Some(key) !in Keys(r) && Some(other) !in Keys(r) && key != other
    ensures Some(other) !in Keys(Put(r, key, Some(text), order))
  {
    CountAbsent(r, other);
    CountPut(r, key, Some(text), order, other);
    CountAbsent(Put(r, key, Some(text), order), other);
  }

  lemma SamePlaceSamePut<T>(r: Blocks<T>, key: string, text: T, order: seq<string>, other: seq<string>)
    requires Some(key) !in Keys(r) && Place(Keys(r), key, order) == Place(Keys(r), key, other)
    ensures Put(r, key, Some(text), order) == Put(r, key, Some(text), other)
  {}

  lemma SamePut<T>(r: Blocks<T>, k1: string, t1: T, twice: Blocks<T>, k2: string)
    requires k1 != k2 && Some(k1) !in Keys(r) && Some(k2) !in Keys(r) && Some(k1) in Keys(twice)
    ensures Put(r, k1, Some(t1), Written(twice)) == Put(r, k1, Some(t1), Written(Others(twice, k2)))
  {
    var i := First(Keys(twice), Some(k1));
    var a, b, c := twice[..i], twice[i], twice[i + 1..];
    assert twice == a + [b] + c && Keys(a) == Keys(twice)[..i];
    PlacedWithout(Keys(r), a, b, c, k1, k2);
    SamePlaceSamePut(r, k1, t1, Written(twice), Written(Others(twice, k2)));
  }

  lemma TakenOff<T>(blocks: Blocks<T>, key: string, text: T, order: seq<string>)
    requires Some(key) !in Keys(blocks)
    ensures Others(Put(blocks, key, Some(text), order), key) == blocks
  {
    OthersPut(blocks, key, Some(text), order);
    OthersAbsent(blocks, key);
  }

  /** Two keys put one after the other go back if and only if each of them follows the last block of a key. */
  lemma TwoKeysGoBack<T>(r: Blocks<T>, k1: string, t1: T, k2: string, t2: T, order: seq<string>)
    requires k1 != k2 && Some(k1) !in Keys(r) && Some(k2) !in Keys(r) && Keyed(r)
    ensures var once := Put(r, k1, Some(t1), order);
            var twice := Put(once, k2, Some(t2), order);
            && Some(k1) in Keys(once) && Some(k2) in Keys(twice) && Others(twice, k2) == once
            && (Put(Put(r, k1, Some(t1), Written(twice)), k2, Some(t2), Written(twice)) == twice <==>
                FollowsLast(once, k1) && FollowsLast(twice, k2))
  {
    var once := Put(r, k1, Some(t1), order);
    var twice := Put(once, k2, Some(t2), order);
    KeyGoesBack(r, k1, t1, order);
    OnlyAdds(r, k1, t1, order, k2);
    KeyGoesBack(once, k2, t2, order);
    TakenOff(once, k2, t2, order);
    LinesPut(once, k2, Some(t2), order, k1);
    SamePut(r, k1, t1, twice, k2);
    var first := Put(r, k1, Some(t1), Written(twice));
    if first != once {
      OnlyAdds(r, k1, t1, Written(twice), k2);
      TakenOff(first, k2, t2, Written(twice));
    }
  }

  /** What the pass adds to a new concept stands where the written order would put it again. */
  ghost predicate Anchored<T>(c: Call<T>, blocks: Blocks<T>)
    requires Some("generated") in Keys(blocks) && (Drafts(c) ==> Some("status") in Keys(blocks))
    requires Some("generated") in Keys(Others(blocks, "status"))
  {
    if Drafts(c) then FollowsLast(Others(blocks, "status"), "generated") && FollowsLast(blocks, "status")
    else FollowsLast(blocks, "generated")
  }

  lemma GoesBackExactly<T>(y: Yaml<T>, c: Call<T>, blocks: Blocks<T>)
    requires Plain(c) && Substantive(y, c) && BeforeBlocks(c) == [] && Keyed(Restored(c)) && blocks == FinalBlocks(y, c)
    ensures Some("generated") in Keys(blocks) && (Drafts(c) ==> Some("status") in Keys(blocks))
    ensures Some("generated") in Keys(Others(blocks, "status"))
    ensures GoesBack(y, c) <==> Anchored(c, blocks)
  {
    var keys, r := ServiceKeys(c.stage), Restored(c);
    assert keys[1] == "generated" && (c.stage == Changeset ==> keys[2] == "status");
    LinesRestored(c, "generated");
    PlainFinal(y, c);
    LinesPlain(y, c, "generated");
    LinesOthers(blocks, "status", "generated");
    if Drafts(c) {
      LinesRestored(c, "status");
      TwoKeysGoBack(r, "generated", Mark(y, c), "status", y.status("draft"), Order(c));
    } else {
      KeyGoesBack(r, "generated", Mark(y, c), Order(c));
    }
  }

  /**
   A concept that had no frontmatter before is bookkept once and for all if and only if the key in front of
   the stamp, and the one in front of the status that the service adds, are not written again behind it.
   */
  lemma NewConceptIsIdempotent<T(!new)>(y: Yaml<T>, c: Call<T>, doc: Doc<T>)
    requires Faithful(y) && Plain(c) && Substantive(y, c) && BeforeBlocks(c) == [] && Keyed(Restored(c))
    requires Returns(y, c, doc)
    ensures Some("generated") in Keys(doc.blocks) && (Drafts(c) ==> Some("status") in Keys(doc.blocks))
    ensures Some("generated") in Keys(Others(doc.blocks, "status"))
    ensures (var r := Apply(y, c.(after := doc)); r.Applied? && r.doc == doc && Quiet(r.repairs)) <==>
            Anchored(c, doc.blocks)
  {
    ResultParts(y, c, doc);
    GoesBackExactly(y, c, doc.blocks);
    if GoesBack(y, c) {
      SubstantiveIsIdempotent(y, c, doc);
    } else if Returns(y, c.(after := doc), doc) {
      ElsewhereMoves(y, c, doc);
    }
  }

  /** What does not go back is moved. */
  lemma ElsewhereMoves<T(!new)>(y: Yaml<T>, c: Call<T>, doc: Doc<T>)
    requires Faithful(y) && Plain(c) && Substantive(y, c) && BeforeBlocks(c) == []
    requires Returns(y, c, doc) && Returns(y, c.(after := doc), doc)
    ensures GoesBack(y, c)
  {
    var c2 := c.(after := doc);
    ResultParts(y, c, doc);
    SubstantiveAgain(y, c, doc);
    RestoredAgain(y, c, doc);
    LinesPlain(y, c, "generated");
    MarkAgain(y, c, doc);
    PlainFinal(y, c);
    ResultParts(y, c2, doc);
    PlainFinal(y, c2);
  }

  /**
   Exactly when a second pass returns the result of the first and has nothing to report: always for an edit
   of a document with frontmatter; for a new concept when what the pass adds is anchored; and for a
   discarded edit when the old document holds each key of the service once.
   */
  lemma IdempotentExactly<T(!new)>(y: Yaml<T>, c: Call<T>, doc: Doc<T>)
    requires Faithful(y) && Plain(c) && Returns(y, c, doc) && (BeforeBlocks(c) == [] ==> Keyed(Restored(c)))
    ensures Substantive(y, c) && BeforeBlocks(c) == [] ==>
              && Some("generated") in Keys(doc.blocks) && Some("generated") in Keys(Others(doc.blocks, "status"))
              && (Drafts(c) ==> Some("status") in Keys(doc.blocks))
    ensures (var r := Apply(y, c.(after := doc)); r.Applied? && r.doc == doc && Quiet(r.repairs)) <==>
            if !Substantive(y, c) then OwnedOnce(c) else BeforeBlocks(c) == [] ==> Anchored(c, doc.blocks)
  {
    if !Substantive(y, c) {
      DiscardedIsIdempotent(y, c, doc);
    } else if BeforeBlocks(c) == [] {
      NewConceptIsIdempotent(y, c, doc);
    } else {
      SubstantiveIsIdempotent(y, c, doc);
    }
  }

  // ----- why the keys must be distinct -----------------------------------------------------

  /** A new concept that writes `zeta` twice, around its sources. */
  function Doubled<T>(a: T, b: T, d: T): Blocks<T> {
    [Block(Some("zeta"), a), Block(Some("sources"), b), Block(Some("zeta"), d)]
  }

  function DoubledCall<T>(a: T, b: T, d: T, actor: string, now: int): Call<T> {
    Call(None, Doc(Doubled(a, b, d), []), actor, now, Curate, None, false)
  }

  lemma WrittenSnoc<T>(blocks: Blocks<T>, b: Block<T>)
    ensures Written(blocks + [b]) == Written(blocks) + if b.key.Some? then [b.key.value] else []
  {
    assert (blocks + [b])[..|blocks|] == blocks;
  }

  lemma WrittenDoubled<T>(a: T, b: T, d: T, g: T)
    ensures Written(Doubled(a, b, d)) == ONCE
    ensures Written(StampedFirst(a, b, d, g)) == TWICE
  {
    var blocks, first := Doubled(a, b, d), StampedFirst(a, b, d, g);
    WrittenSnoc([], first[0]);
    WrittenSnoc([first[0]], blocks[1]);
    WrittenSnoc([first[0]] + [blocks[1]], blocks[2]);
    WrittenSnoc([first[0]], first[1]);
    WrittenSnoc([first[0]] + [first[1]], first[2]);
    WrittenSnoc([first[0]] + [first[1]] + [first[2]], first[3]);
    assert [] + [first[0]] == [first[0]];
    assert blocks == [first[0]] + [blocks[1]] + [blocks[2]];
    assert first == [first[0]] + [first[1]] + [first[2]] + [first[3]];
  }

  function StampedFirst<T>(a: T, b: T, d: T, g: T): Blocks<T> {
    [Block(Some("zeta"), a), Block(Some("generated"), g), Block(Some("sources"), b), Block(Some("zeta"), d)]
  }

  const ONCE := ["zeta", "sources", "zeta"]
  const TWICE := ["zeta", "generated", "sources", "zeta"]

  /** Before the sources, by the canonical order. */
  lemma PlaceByCanon(present: seq<Option<string>>, key: string, order: seq<string>)
    requires present == [Some("zeta"), Some("sources"), Some("zeta")] && key == "generated" && order == ONCE
    ensures Place(present, key, order) == 1
  {
    var canon := CANONICAL;
    assert First(canon, "generated") == 5;
    NoneEarlier(present, canon[..5]);
    assert canon[6..] == ["sources"] && present[1] == Some("sources");
    assert First(present, Some("sources")) == 1;
  }

  /** After the last `zeta`, by the written order. */
  lemma PlaceByOrder(present: seq<Option<string>>, key: string, order: seq<string>)
    requires present == [Some("zeta"), Some("sources"), Some("zeta")] && key == "generated" && order == TWICE
    ensures Place(present, key, order) == 3
  {
    assert First(order, "generated") == 1 && order[..1] == ["zeta"];
    assert Last(present, Some("zeta")) == 2 && AfterEarlier(present, ["zeta"]) == Some(3);
  }

  lemma PutByCanon<T>(a: T, b: T, d: T, g: T, key: string, order: seq<string>)
    requires key == "generated" && order == ONCE
    ensures Put(Doubled(a, b, d), key, Some(g), order) == StampedFirst(a, b, d, g)
  {
    var blocks, keys := Doubled(a, b, d), Keys(Doubled(a, b, d));
    assert keys == [Some("zeta"), Some("sources"), Some("zeta")];
    assert Some(key) !in keys;
    PlaceByCanon(keys, key, order);
    PutMissing(blocks, key, g, order, 1);
  }

  lemma PutByOrder<T>(a: T, b: T, d: T, g: T, key: string, order: seq<string>)
    requires key == "generated" && order == TWICE
    ensures Put(Doubled(a, b, d), key, Some(g), order) == Doubled(a, b, d) + [Block(Some(key), g)]
  {
    var blocks, keys := Doubled(a, b, d), Keys(Doubled(a, b, d));
    assert keys == [Some("zeta"), Some("sources"), Some("zeta")];
    assert Some(key) !in keys;
    PlaceByOrder(keys, key, order);
    PutMissing(blocks, key, g, order, 3);
  }

  lemma {:induction false} NoneEarlier(present: seq<Option<string>>, earlier: seq<string>)
    requires forall k :: k in earlier ==> Some(k) !in present
    ensures AfterEarlier(present, earlier) == None
    decreases |earlier|
  {
    if earlier != [] {
      assert earlier[|earlier| - 1] in earlier;
      NoneEarlier(present, earlier[..|earlier| - 1]);
    }
  }

  lemma {:induction false} NothingToTake<T>(blocks: Blocks<T>, keys: seq<string>)
    requires forall i :: 0 <= i < |blocks| ==> blocks[i].key.Some? && blocks[i].key.value !in keys + EVENT_FIELDS
    ensures Besides(blocks, keys) == blocks && WithoutStray(blocks, []) == blocks
    decreases |blocks|
  {
    if blocks != [] {
      assert forall i :: 0 <= i < |blocks| - 1 ==> blocks[1..][i] == blocks[i + 1];
      NothingToTake(blocks[1..], keys);
      assert blocks[0].key.value !in keys && blocks[0].key.value !in EVENT_FIELDS;
    }
  }

  lemma DoubledKeepsKeys<T>(a: T, b: T, d: T, actor: string, now: int)
    ensures var c := DoubledCall(a, b, d, actor, now); Restored(c) == Doubled(a, b, d)
  {
    var c := DoubledCall(a, b, d, actor, now);
    RestoreNothing(Doubled(a, b, d), ServiceKeys(Curate), Order(c));
    assert ServiceKeys(Curate) + EVENT_FIELDS == ["verified", "generated", "by", "at"];
    NothingToTake(Doubled(a, b, d), ServiceKeys(Curate));
  }

  lemma PlainResult<T>(y: Yaml<T>, c: Call<T>)
    requires Plain(c) && Substantive(y, c) && Spilled(c.after.body) == []
    ensures Apply(y, c).Applied? && Apply(y, c).doc == Doc(FinalBlocks(y, c), c.after.body)
  {
    assert Displaced(y, c) == {};
  }

  lemma FirstPass<T>(y: Yaml<T>, a: T, b: T, d: T, actor: string, now: int)
    ensures var c := DoubledCall(a, b, d, actor, now);
            && Plain(c) && Apply(y, c).Applied? && Apply(y, c).doc == Doc(FinalBlocks(y, c), [])
            && FinalBlocks(y, c) == StampedFirst(a, b, d, Mark(y, c))
  {
    var c := DoubledCall(a, b, d, actor, now);
    DoubledKeepsKeys(a, b, d, actor, now);
    WrittenDoubled(a, b, d, Mark(y, c));
    PutByCanon(a, b, d, Mark(y, c), "generated", ONCE);
    PlainFinal(y, c);
    PlainResult(y, c);
  }

  lemma SecondPass<T(!new)>(y: Yaml<T>, a: T, b: T, d: T, actor: string, now: int)
    ensures var first := DoubledCall(a, b, d, actor, now);
            var c := first.(after := Doc(FinalBlocks(y, first), []));
            && Apply(y, c).Applied? && Apply(y, c).doc.blocks == Doubled(a, b, d) + [Block(Some("generated"), Mark(y, c))]
  {
    var first := DoubledCall(a, b, d, actor, now);
    var doc := Doc(FinalBlocks(y, first), []);
    var c := first.(after := doc);
    FirstPass(y, a, b, d, actor, now);
    DoubledKeepsKeys(a, b, d, actor, now);
    RestoredAgain(y, first, doc);
    WrittenDoubled(a, b, d, Mark(y, first));
    PutByOrder(a, b, d, Mark(y, c), "generated", TWICE);
    PlainFinal(y, c);
    PlainResult(y, c);
  }

  /** With a key written twice the second pass moves the stamp: idempotence needs distinct keys. */
  lemma DuplicateKeysMoveTheStamp<T(!new)>(y: Yaml<T>, a: T, b: T, d: T, actor: string, now: int)
    ensures var c := DoubledCall(a, b, d, actor, now);
            && Plain(c) && Apply(y, c).Applied?
            && var again := Apply(y, c.(after := Apply(y, c).doc));
            again.Applied? && again.doc != Apply(y, c).doc
  {
    var c := DoubledCall(a, b, d, actor, now);
    FirstPass(y, a, b, d, actor, now);
    var doc := Doc(FinalBlocks(y, c), []);
    SecondPass(y, a, b, d, actor, now);
    var moved := Doubled(a, b, d) + [Block(Some("generated"), Mark(y, c.(after := doc)))];
    assert doc.blocks[1].key == Some("generated") && moved[1].key == Some("sources");
  }
}
