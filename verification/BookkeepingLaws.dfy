/** What service-owned bookkeeping promises about the documents that it returns. */
module BookkeepingLaws {
  import opened Prelude
  import opened Spill
  import opened Frontmatter
  import opened Bookkeeping

  /**
   The few facts about YAML that the service relies on: a whole second that it writes reads back as written,
   an event is appended to those before it, and a stamp written over itself keeps its style.
   */
  ghost predicate Faithful<T(!new)>(y: Yaml<T>) {
    && (forall t, actor, at :: at % SECOND == 0 ==> Stamps(y.safe(y.generated(t, actor, at)), actor, at))
    && (forall t, actor, at :: at % SECOND == 0 ==>
          y.generated(Some(y.generated(t, actor, at)), actor, at) == y.generated(t, actor, at))
    && (forall t, actor, at :: at % SECOND == 0 ==> Appends(y, t, actor, at))
    && (forall s :: y.text(y.status(s)) == Str(s) && y.safe(y.status(s)) == Str(s))
  }

  predicate Stamps(v: Value, actor: string, at: int) {
    v.Map? && v.entry.actor == actor && v.entry.at == Some(at)
  }

  ghost predicate Appends<T>(y: Yaml<T>, t: Option<T>, actor: string, at: int) {
    var earlier := EventsOf(if t.Some? then Some(y.safe(t.value)) else None);
    var events := EventsOf(Some(y.safe(y.event(t, actor, at))));
    && |events| == |earlier| + 1 && events[..|earlier|] == earlier
    && events[|earlier|].actor == actor && events[|earlier|].at == Some(at)
  }

  // ----- the parts of a result -------------------------------------------------------------

  lemma {:induction false} LinesRestoreKeys<T>(blocks: Blocks<T>, before: Blocks<T>, keys: seq<string>,
                                                order: seq<string>, k: string)
    ensures Lines(RestoreKeys(blocks, before, keys, order), k) == if k in keys then Lines(before, k) else Lines(blocks, k)
    decreases |keys|
  {
    if keys != [] {
      var next := Put(blocks, keys[0], Lines(before, keys[0]), order);
      LinesPut(blocks, keys[0], Lines(before, keys[0]), order, k);
      LinesRestoreKeys(next, before, keys[1..], order, k);
    }
  }

  lemma {:induction false} LinesWithoutStray<T>(blocks: Blocks<T>, before: Blocks<T>, k: string)
    ensures Lines(WithoutStray(blocks, before), k) ==
            if k in EVENT_FIELDS && Some(k) !in Keys(before) then None else Lines(blocks, k)
    decreases |blocks|
  {
    if blocks != [] {
      var init, b := blocks[..|blocks| - 1], blocks[|blocks| - 1];
      assert blocks == init + [b];
      StraySnoc(init, b, before);
      LinesSnoc(init, b, k);
      LinesWithoutStray(init, before, k);
      if IsStray(b, before) {
        assert WithoutStray(blocks, before) == WithoutStray(init, before);
      } else {
        LinesSnoc(WithoutStray(init, before), b, k);
      }
    }
  }

  /** The restored edit holds the service's keys of the old document and the other keys of the new one. */
  lemma LinesRestored<T>(c: Call<T>, k: string)
    ensures Lines(Restored(c), k) ==
            if k in ServiceKeys(c.stage) then Lines(BeforeBlocks(c), k)
            else if k in EVENT_FIELDS && Some(k) !in Keys(BeforeBlocks(c)) then None
            else Lines(c.after.blocks, k)
  {
    var all := RestoreKeys(c.after.blocks, BeforeBlocks(c), ServiceKeys(c.stage), Order(c));
    LinesRestoreKeys(c.after.blocks, BeforeBlocks(c), ServiceKeys(c.stage), Order(c), k);
    LinesWithoutStray(all, BeforeBlocks(c), k);
  }

  /** The base of the result agrees with the old document on every key that the service owns. */
  lemma LinesBase<T>(y: Yaml<T>, c: Call<T>, k: string)
    requires k in ServiceKeys(c.stage)
    ensures Lines(BaseBlocks(y, c), k) == Lines(BeforeBlocks(c), k)
  {
    LinesRestored(c, k);
  }

  /** Whose name a stamp bears: the editor's, or, where a reviewer only withdraws a verdict, the old author's. */
  function StampAuthor<T>(y: Yaml<T>, c: Call<T>): string {
    if Substantive(y, c) || GeneratedBy(Prior(y, c)) == "" then c.actor else GeneratedBy(Prior(y, c))
  }

  /** A stamp is put in the style of some template. */
  lemma StampedIs<T>(y: Yaml<T>, c: Call<T>, blocks: Blocks<T>) returns (t: Option<T>)
    ensures Stamp(y, c) == None ==> Stamped(y, c, blocks) == blocks
    ensures Stamp(y, c).Some? ==>
              var text := y.generated(t, StampAuthor(y, c), Stamp(y, c).value);
              Stamped(y, c, blocks) == Put(blocks, "generated", Some(text), Order(c))
  {
    t := if Substantive(y, c) then OrElse(Lines(BeforeBlocks(c), "generated"), Lines(c.after.blocks, "generated"))
         else Lines(blocks, "generated");
  }

  lemma LinesStamped<T>(y: Yaml<T>, c: Call<T>, blocks: Blocks<T>, k: string)
    ensures k != "generated" || Stamp(y, c) == None ==> Lines(Stamped(y, c, blocks), k) == Lines(blocks, k)
    ensures Stamp(y, c).Some? ==>
              exists t :: Lines(Stamped(y, c, blocks), "generated") == Some(y.generated(t, StampAuthor(y, c), Stamp(y, c).value))
  {
    var t := StampedIs(y, c, blocks);
    if Stamp(y, c).Some? {
      var text := y.generated(t, StampAuthor(y, c), Stamp(y, c).value);
      LinesPut(blocks, "generated", Some(text), Order(c), k);
      LinesPut(blocks, "generated", Some(text), Order(c), "generated");
    }
  }

  lemma LinesMarked<T>(y: Yaml<T>, c: Call<T>, blocks: Blocks<T>, k: string)
    ensures var out := WithVerdict(y, c, WithStatus(y, c, blocks));
            && (k != "status" && (k != "verified" || c.verdict != Some(true)) ==> Lines(out, k) == Lines(blocks, k))
            && (c.verdict == Some(true) ==>
                  Lines(out, "verified") == Some(y.event(Lines(blocks, "verified"), c.actor, EventAt(y, c))))
            && (OwnedStatus(y, c) == None ==> Lines(out, "status") == Lines(blocks, "status"))
            && (OwnedStatus(y, c).Some? && ValueAt(y.text, blocks, "status") != Some(Str(OwnedStatus(y, c).value)) ==>
                  Lines(out, "status") == Some(y.status(OwnedStatus(y, c).value)))
  {
    var mid := WithStatus(y, c, blocks);
    if OwnedStatus(y, c).Some? {
      var text := Some(y.status(OwnedStatus(y, c).value));
      LinesPut(blocks, "status", text, Order(c), k);
      LinesPut(blocks, "status", text, Order(c), "status");
      LinesPut(blocks, "status", text, Order(c), "verified");
    }
    if c.verdict == Some(true) {
      var text := Some(y.event(Lines(mid, "verified"), c.actor, EventAt(y, c)));
      LinesPut(mid, "verified", text, Order(c), k);
      LinesPut(mid, "verified", text, Order(c), "verified");
      LinesPut(mid, "verified", text, Order(c), "status");
    }
  }

  /** The fields a reader sees in the result. */
  function Read<T>(y: Yaml<T>, doc: Doc<T>): Fields {
    Loaded(y.safe, doc.blocks, [])
  }

  // ----- stamps ----------------------------------------------------------------------------

  /** Trusted time never runs behind a recorded event, and runs ahead of it no further than it must. */
  lemma NotBeforeIsTight(now: int, floor: Option<int>, strictly: bool)
    ensures var stamp := NotBefore(now, floor, strictly);
            && stamp % SECOND == 0 && stamp >= Seconds(now) > now - SECOND
            && (floor.Some? ==> stamp >= floor.value && (strictly ==> stamp > floor.value))
            && (stamp != Seconds(now) ==>
                  floor.Some? && if strictly then stamp - SECOND <= floor.value else stamp - SECOND < floor.value)
            && (floor == None ==> stamp == Seconds(now))
  {}

  lemma {:induction false} LatestBounds(events: seq<Event>)
    ensures forall i :: 0 <= i < |events| && events[i].at.Some? ==>
              Latest(events).Some? && events[i].at.value <= Latest(events).value
    decreases |events|
  {
    if events != [] {
      LatestBounds(events[1..]);
      forall i | 0 <= i < |events| && events[i].at.Some?
        ensures Latest(events).Some? && events[i].at.value <= Latest(events).value
      {
        if i > 0 { assert events[i] == events[1..][i - 1]; }
      }
    }
  }

  lemma {:induction false} NoneCurrent(events: seq<Event>, author: string, at: int, own: int)
    requires own >= at
    requires forall i :: 0 <= i < |events| && events[i].at.Some? ==> events[i].at.value < at
    ensures NotBeforeOwn(events, author, at, own) == []
    decreases |events|
  {
    if events != [] {
      assert forall i :: 0 <= i < |events| - 1 ==> events[1..][i] == events[i + 1];
      NoneCurrent(events[1..], author, at, own);
    }
  }

  lemma {:induction false} CurrentAppend(a: seq<Event>, b: seq<Event>, author: string, at: int, own: int)
    ensures NotBeforeOwn(a + b, author, at, own) == NotBeforeOwn(a, author, at, own) + NotBeforeOwn(b, author, at, own)
    decreases |a|
  {
    if a == [] {
      assert a + b == b;
    } else {
      assert (a + b)[0] == a[0] && (a + b)[1..] == a[1..] + b;
      CurrentAppend(a[1..], b, author, at, own);
    }
  }

  /** Every instant that a document records is before the given one. */
  ghost predicate AllBefore(f: Fields, at: int) {
    && (GeneratedAt(f).Some? ==> GeneratedAt(f).value < at)
    && forall i :: 0 <= i < |History(f)| && History(f)[i].at.Some? ==> History(f)[i].at.value < at
  }

  lemma FloorBounds(f: Fields, stamp: int)
    requires Floor(f).Some? ==> Floor(f).value < stamp
    ensures AllBefore(f, stamp)
  {
    LatestBounds(History(f));
  }

  /** The generation and the verification events that a result `f` has, given those of `prior`. */
  ghost predicate Dated<T>(c: Call<T>, prior: Fields, f: Fields, stamp: Option<int>, eventAt: int, substantive: bool) {
    && (stamp == None ==> Get(f, "generated") == Get(prior, "generated"))
    && (stamp.Some? ==> GeneratedAt(f) == stamp)
    && (substantive ==> GeneratedBy(f) == c.actor)
    && (c.verdict != Some(true) ==> Get(f, "verified") == Get(prior, "verified"))
    && (c.verdict == Some(true) ==>
          && |History(f)| == |History(prior)| + 1 && History(f)[..|History(prior)|] == History(prior)
          && History(f)[|History(prior)|].actor == c.actor
          && History(f)[|History(prior)|].at == Some(eventAt))
  }

  /** What a reader sees of the frontmatter that is written back. */
  function Final<T>(y: Yaml<T>, c: Call<T>): Fields {
    Loaded(y.safe, FinalBlocks(y, c), [])
  }

  lemma FinalGenerated<T(!new)>(y: Yaml<T>, c: Call<T>)
    requires Faithful(y)
    ensures var f := Final(y, c);
            && (Stamp(y, c) == None ==> Get(f, "generated") == ValueAt(y.safe, BeforeBlocks(c), "generated"))
            && (Stamp(y, c).Some? ==> GeneratedAt(f) == Stamp(y, c) && GeneratedBy(f) == StampAuthor(y, c))
  {
    var f, base := Final(y, c), BaseBlocks(y, c);
    assert ServiceKeys(c.stage)[1] == "generated";
    LinesBase(y, c, "generated");
    LinesStamped(y, c, base, "generated");
    LinesMarked(y, c, Stamped(y, c, base), "generated");
    if Stamp(y, c).Some? {
      StampFacts(y, c);
      var actor := StampAuthor(y, c);
      var t :| Lines(Stamped(y, c, base), "generated") == Some(y.generated(t, actor, Stamp(y, c).value));
      assert Stamps(y.safe(y.generated(t, actor, Stamp(y, c).value)), actor, Stamp(y, c).value);
      assert Get(f, "generated") == Some(y.safe(y.generated(t, actor, Stamp(y, c).value)));
    }
  }

  lemma EventIsWhole<T>(y: Yaml<T>, c: Call<T>)
    ensures EventAt(y, c) % SECOND == 0
  {
    if Stamp(y, c).Some? { StampFacts(y, c); } else { NotBeforeIsTight(c.now, GeneratedAt(Prior(y, c)), false); }
  }

  lemma FinalVerified<T(!new)>(y: Yaml<T>, c: Call<T>)
    requires Faithful(y)
    ensures var f, earlier := Final(y, c), EventsOf(ValueAt(y.safe, BeforeBlocks(c), "verified"));
            && (c.verdict != Some(true) ==> Get(f, "verified") == ValueAt(y.safe, BeforeBlocks(c), "verified"))
            && (c.verdict == Some(true) ==>
                  && |History(f)| == |earlier| + 1 && History(f)[..|earlier|] == earlier
                  && History(f)[|earlier|].actor == c.actor && History(f)[|earlier|].at == Some(EventAt(y, c)))
  {
    var f, base := Final(y, c), BaseBlocks(y, c);
    assert ServiceKeys(c.stage)[0] == "verified";
    LinesBase(y, c, "verified");
    LinesStamped(y, c, base, "verified");
    LinesMarked(y, c, Stamped(y, c, base), "verified");
    if c.verdict == Some(true) {
      var t := Lines(BeforeBlocks(c), "verified");
      EventIsWhole(y, c);
      assert Appends(y, t, c.actor, EventAt(y, c));
      assert Get(f, "verified") == Some(y.safe(y.event(t, c.actor, EventAt(y, c))));
    }
  }

  lemma FinalIsDated<T(!new)>(y: Yaml<T>, c: Call<T>)
    requires Faithful(y)
    ensures Dated(c, Prior(y, c), Final(y, c), Stamp(y, c), EventAt(y, c), Substantive(y, c))
  {
    FinalGenerated(y, c);
    FinalVerified(y, c);
    var prior := Prior(y, c);
    assert Get(prior, "generated") == ValueAt(y.safe, BeforeBlocks(c), "generated");
    assert Get(prior, "verified") == ValueAt(y.safe, BeforeBlocks(c), "verified");
  }

  /** The call returns this document. */
  ghost predicate Returns<T>(y: Yaml<T>, c: Call<T>, doc: Doc<T>)
    requires Proper(c)
  {
    Apply(y, c).Applied? && Apply(y, c).doc == doc
  }

  lemma ResultParts<T>(y: Yaml<T>, c: Call<T>, doc: Doc<T>)
    requires Proper(c)
    ensures Returns(y, c, doc) && Discards(y, c) ==> c.before == Some(doc) && Stamp(y, c) == None && c.verdict == None
    ensures Returns(y, c, doc) && !Discards(y, c) ==> doc == Doc(FinalBlocks(y, c), Rest(BaseBody(y, c)))
  {}

  lemma ResultIsDated<T(!new)>(y: Yaml<T>, c: Call<T>, doc: Doc<T>)
    requires Faithful(y) && Proper(c)
    ensures Returns(y, c, doc) ==> Dated(c, Prior(y, c), Read(y, doc), Stamp(y, c), EventAt(y, c), Substantive(y, c))
  {
    ResultParts(y, c, doc);
    FinalIsDated(y, c);
  }

  lemma StampFacts<T>(y: Yaml<T>, c: Call<T>)
    requires Stamp(y, c).Some?
    ensures var stamp, floor := Stamp(y, c).value, Floor(Prior(y, c));
            && AllBefore(Prior(y, c), stamp) && stamp % SECOND == 0
            && (stamp == Seconds(c.now) || (floor.Some? && stamp - SECOND <= floor.value))
  {
    NotBeforeIsTight(c.now, Floor(Prior(y, c)), true);
    FloorBounds(Prior(y, c), Stamp(y, c).value);
  }

  lemma DatedNoneCurrent(f: Fields, ownAfter: Option<nat>)
    requires GeneratedAt(f).Some?
    requires forall i :: 0 <= i < |History(f)| && History(f)[i].at.Some? ==> History(f)[i].at.value < GeneratedAt(f).value
    ensures CurrentVerified(f, ownAfter) == []
  {
    var at, author := GeneratedAt(f).value, GeneratedBy(f);
    var own := if ownAfter.Some? && author != "" && !("human:" <= author) then at + ownAfter.value else at;
    NoneCurrent(History(f), author, at, own);
  }

  /** Only the last event is current when it is as old as the generation and the others are older. */
  lemma DatedLastCurrent(f: Fields, n: nat)
    requires GeneratedAt(f).Some? && |History(f)| == n + 1 && History(f)[n].at == GeneratedAt(f)
    requires forall i :: 0 <= i < n && History(f)[i].at.Some? ==> History(f)[i].at.value < GeneratedAt(f).value
    ensures CurrentVerified(f, None) == History(f)[n..]
  {
    var at, author, h := GeneratedAt(f).value, GeneratedBy(f), History(f);
    assert h == h[..n] + h[n..] && h[n..] == [h[n]] && [h[n]][1..] == [];
    NoneCurrent(h[..n], author, at, at);
    CurrentAppend(h[..n], h[n..], author, at, at);
  }

  lemma DatedStamp<T>(c: Call<T>, prior: Fields, f: Fields, stamp: int, ownAfter: Option<nat>, substantive: bool)
    requires Dated(c, prior, f, Some(stamp), stamp, substantive) && AllBefore(prior, stamp)
    ensures c.verdict != Some(true) ==> CurrentVerified(f, ownAfter) == []
    ensures c.verdict == Some(true) ==> CurrentVerified(f, None) == History(f)[|History(f)| - 1..]
  {
    if c.verdict != Some(true) {
      assert History(f) == History(prior);
      DatedNoneCurrent(f, ownAfter);
    } else {
      var n := |History(prior)|;
      assert forall i :: 0 <= i < n ==> History(f)[i] == History(f)[..n][i];
      DatedLastCurrent(f, n);
    }
  }

  /**
   The result `f` of an edit of `prior` at time `now`: stamped by its actor, in whole seconds, strictly
   after every earlier valid generation and verification instant, and no later than one second after the
   later of these and the trusted time. No earlier event confirms it, by any reader's rule `ownAfter`; a
   verdict given with it does, by the plain rule.
   */
  ghost predicate FreshlyStamped<T>(c: Call<T>, prior: Fields, f: Fields, ownAfter: Option<nat>) {
    && GeneratedBy(f) == c.actor && GeneratedAt(f).Some?
    && (var stamp, floor := GeneratedAt(f).value, Floor(prior);
        && AllBefore(prior, stamp) && stamp % SECOND == 0
        && (stamp == Seconds(c.now) || (floor.Some? && stamp - SECOND <= floor.value)))
    && (c.verdict != Some(true) ==> CurrentVerified(f, ownAfter) == [])
    && (c.verdict == Some(true) ==> History(f) != [] && CurrentVerified(f, None) == History(f)[|History(f)| - 1..])
  }

  lemma DatedIsFresh<T>(c: Call<T>, prior: Fields, f: Fields, stamp: int, eventAt: int, ownAfter: Option<nat>)
    requires Dated(c, prior, f, Some(stamp), eventAt, true) && eventAt == stamp
    requires stamp == NotBefore(c.now, Floor(prior), true)
    ensures FreshlyStamped(c, prior, f, ownAfter)
  {
    NotBeforeIsTight(c.now, Floor(prior), true);
    FloorBounds(prior, stamp);
    DatedStamp(c, prior, f, stamp, ownAfter, true);
  }

  /** A substantive edit always comes back freshly stamped. */
  lemma SubstantiveEditIsStamped<T(!new)>(y: Yaml<T>, c: Call<T>, doc: Doc<T>, ownAfter: Option<nat>)
    requires Faithful(y) && Proper(c)
    ensures Returns(y, c, doc) && Substantive(y, c) ==> FreshlyStamped(c, Prior(y, c), Read(y, doc), ownAfter)
  {
    ResultIsDated(y, c, doc);
    if Returns(y, c, doc) && Substantive(y, c) {
      DatedIsFresh(c, Prior(y, c), Read(y, doc), Stamp(y, c).value, EventAt(y, c), ownAfter);
    }
  }

  /** A `verified` verdict adds one event, by its actor, that never predates the generation it confirms. */
  lemma VerdictNeverPredates<T(!new)>(y: Yaml<T>, c: Call<T>, doc: Doc<T>)
    requires Faithful(y) && Proper(c) && c.verdict == Some(true)
    ensures Returns(y, c, doc) ==>
            var f, n := Read(y, doc), |History(Prior(y, c))|;
            && |History(f)| == n + 1 && History(f)[..n] == History(Prior(y, c))
            && History(f)[n].actor == c.actor && History(f)[n].at.Some?
            && (GeneratedAt(f).Some? ==> History(f)[n].at.value >= GeneratedAt(f).value)
  {
    ResultIsDated(y, c, doc);
    NotBeforeIsTight(c.now, GeneratedAt(Prior(y, c)), false);
  }

  lemma DatedUnverified<T>(c: Call<T>, prior: Fields, f: Fields, eventAt: int)
    requires Dated(c, prior, f, None, eventAt, false) && c.verdict == Some(false)
    ensures CurrentVerified(f, None) == CurrentVerified(prior, None)
  {
    assert History(f) == History(prior) && GeneratedAt(f) == GeneratedAt(prior);
  }

  /** After a reviewer's `unverified` verdict no event is current by the plain OKF rule. */
  lemma UnverifiedLeavesNoneCurrent<T(!new)>(y: Yaml<T>, c: Call<T>, doc: Doc<T>)
    requires Faithful(y) && Proper(c) && c.stage == Review && c.verdict == Some(false)
    ensures Returns(y, c, doc) ==> CurrentVerified(Read(y, doc), None) == []
  {
    ResultIsDated(y, c, doc);
    if !Returns(y, c, doc) {
    } else if Stamp(y, c).Some? {
      StampFacts(y, c);
      assert EventAt(y, c) == Stamp(y, c).value;
      DatedStamp(c, Prior(y, c), Read(y, doc), Stamp(y, c).value, None, Substantive(y, c));
    } else {
      assert !Substantive(y, c) && !Unverifies(y, c);
      DatedUnverified(c, Prior(y, c), Read(y, doc), EventAt(y, c));
    }
  }

  // ----- frames ----------------------------------------------------------------------------

  /** The blocks whose keys are not among `keys`, as written and in order. */
  function Besides<T>(blocks: Blocks<T>, keys: seq<string>): Blocks<T> {
    if blocks == [] then []
    else (if blocks[0].key.Some? && blocks[0].key.value in keys then [] else [blocks[0]]) + Besides(blocks[1..], keys)
  }

  lemma {:induction false} BesidesOthers<T>(blocks: Blocks<T>, keys: seq<string>, key: string)
    requires key in keys
    ensures Besides(Others(blocks, key), keys) == Besides(blocks, keys)
    decreases |blocks|
  {
    if blocks != [] {
      BesidesOthers(blocks[1..], keys, key);
      if blocks[0].key != Some(key) {
        assert Others(blocks, key)[0] == blocks[0] && Others(blocks, key)[1..] == Others(blocks[1..], key);
      } else {
        assert Others(blocks, key) == Others(blocks[1..], key);
      }
    }
  }

  lemma BesidesPut<T>(blocks: Blocks<T>, keys: seq<string>, key: string, text: Option<T>, order: seq<string>)
    requires key in keys
    ensures Besides(Put(blocks, key, text, order), keys) == Besides(blocks, keys)
  {
    OthersPut(blocks, key, text, order);
    BesidesOthers(Put(blocks, key, text, order), keys, key);
    BesidesOthers(blocks, keys, key);
  }

  lemma {:induction false} BesidesRestore<T>(blocks: Blocks<T>, before: Blocks<T>, keys: seq<string>,
                                              order: seq<string>, all: seq<string>)
    requires forall k :: k in keys ==> k in all
    ensures Besides(RestoreKeys(blocks, before, keys, order), all) == Besides(blocks, all)
    decreases |keys|
  {
    if keys != [] {
      BesidesPut(blocks, all, keys[0], Lines(before, keys[0]), order);
      BesidesRestore(Put(blocks, keys[0], Lines(before, keys[0]), order), before, keys[1..], order, all);
    }
  }

  lemma {:induction false} BesidesStray<T>(blocks: Blocks<T>, before: Blocks<T>, keys: seq<string>)
    ensures Besides(WithoutStray(blocks, before), keys) == WithoutStray(Besides(blocks, keys), before)
    decreases |blocks|
  {
    if blocks != [] {
      BesidesStray(blocks[1..], before, keys);
      var b := blocks[0];
      if !IsStray(b, before) {
        assert WithoutStray(blocks, before)[0] == b;
        assert WithoutStray(blocks, before)[1..] == WithoutStray(blocks[1..], before);
      } else {
        assert WithoutStray(blocks, before) == WithoutStray(blocks[1..], before);
      }
      if b.key.Some? && b.key.value in keys {
        assert Besides(blocks, keys) == Besides(blocks[1..], keys);
      } else {
        assert Besides(blocks, keys)[0] == b && Besides(blocks, keys)[1..] == Besides(blocks[1..], keys);
      }
    }
  }

  lemma BesidesStamped<T>(y: Yaml<T>, c: Call<T>, base: Blocks<T>, keys: seq<string>)
    requires "generated" in keys
    ensures Besides(Stamped(y, c, base), keys) == Besides(base, keys)
  {
    if Substantive(y, c) {
      var template := OrElse(Lines(BeforeBlocks(c), "generated"), Lines(c.after.blocks, "generated"));
      BesidesPut(base, keys, "generated", Some(y.generated(template, c.actor, Stamp(y, c).value)), Order(c));
    } else if Unverifies(y, c) {
      var author := if GeneratedBy(Prior(y, c)) != "" then GeneratedBy(Prior(y, c)) else c.actor;
      var text := y.generated(Lines(base, "generated"), author, Stamp(y, c).value);
      BesidesPut(base, keys, "generated", Some(text), Order(c));
    }
  }

  lemma BesidesMarked<T>(y: Yaml<T>, c: Call<T>, base: Blocks<T>, keys: seq<string>)
    requires "verified" in keys && (OwnedStatus(y, c).Some? ==> "status" in keys)
    ensures Besides(WithVerdict(y, c, WithStatus(y, c, base)), keys) == Besides(base, keys)
  {
    var marked := WithStatus(y, c, base);
    if OwnedStatus(y, c).Some? {
      BesidesPut(base, keys, "status", Some(y.status(OwnedStatus(y, c).value)), Order(c));
    }
    if c.verdict == Some(true) {
      BesidesPut(marked, keys, "verified", Some(y.event(Lines(marked, "verified"), c.actor, EventAt(y, c))), Order(c));
    }
  }

  lemma BesidesRestored<T>(c: Call<T>)
    ensures Besides(Restored(c), ServiceKeys(c.stage)) ==
            WithoutStray(Besides(c.after.blocks, ServiceKeys(c.stage)), BeforeBlocks(c))
  {
    var keys := ServiceKeys(c.stage);
    var all := RestoreKeys(c.after.blocks, BeforeBlocks(c), keys, Order(c));
    BesidesStray(all, BeforeBlocks(c), keys);
    BesidesRestore(c.after.blocks, BeforeBlocks(c), keys, Order(c), keys);
  }

  /**
   A substantive result keeps every block of the edit that the service does not own, as written and in
   order, but for stray event fields; any other result keeps those of the old document. The body is the
   edit's, or the old one's, without its spill.
   */
  ghost predicate Framed<T>(c: Call<T>, doc: Doc<T>, substantive: bool) {
    var keys := ServiceKeys(c.stage);
    if substantive then
      Besides(doc.blocks, keys) == WithoutStray(Besides(c.after.blocks, keys), BeforeBlocks(c))
      && doc.body == Rest(c.after.body)
    else
      Besides(doc.blocks, keys) == Besides(BeforeBlocks(c), keys)
      && (doc.body == BeforeBody(c) || doc.body == Rest(BeforeBody(c)))
  }

  lemma FinalIsFramed<T>(y: Yaml<T>, c: Call<T>)
    ensures Framed(c, Doc(FinalBlocks(y, c), Rest(BaseBody(y, c))), Substantive(y, c))
  {
    var keys := ServiceKeys(c.stage);
    assert keys[0] == "verified" && keys[1] == "generated";
    assert OwnedStatus(y, c).Some? ==> keys[2] == "status";
    BesidesStamped(y, c, BaseBlocks(y, c), keys);
    BesidesMarked(y, c, Stamped(y, c, BaseBlocks(y, c)), keys);
    BesidesRestored(c);
  }

  /** Every result frames the knowledge of the document; a dropped edit leaves it wholly as it was. */
  lemma ResultFramesKnowledge<T>(y: Yaml<T>, c: Call<T>, doc: Doc<T>)
    requires Proper(c)
    ensures Returns(y, c, doc) ==> Framed(c, doc, Substantive(y, c))
    ensures Returns(y, c, doc) && Discards(y, c) ==> c.before == Some(doc)
  {
    ResultParts(y, c, doc);
    FinalIsFramed(y, c);
  }

  /** A result never starts with spill, so `body_spill_errors` accepts it. */
  lemma ResultHasNoSpill<T>(y: Yaml<T>, c: Call<T>, doc: Doc<T>)
    requires Proper(c)
    ensures Returns(y, c, doc) ==> Discards(y, c) || Spilled(Parsed(doc.body)) == []
  {
    ResultParts(y, c, doc);
    SplitPartitionsBody(BaseBody(y, c));
    ParsedSpill(Rest(BaseBody(y, c)));
  }
}
