/** What a pass of the bookkeeping does to a document, key by key and line by line. */
module BookkeepingMeaning {
  import opened Prelude
  import opened Spill
  import opened Frontmatter
  import opened Bookkeeping
  import opened BookkeepingLaws

  /** The keys that the editors of a stage cannot change. */
  predicate Owns(st: Stage, key: string) {
    || key == "generated" || key == "verified"
    || (key == "status" && st != Curate)
    || (key == "sources" && (st == AuditPass || st == Review))
    || ((key == "type" || key == "title" || key == "stale_after") && st == Review)
  }

  lemma OwnsServiceKeys(st: Stage, key: string)
    ensures key in ServiceKeys(st) <==> Owns(st, key)
  {
    match st {
      case Curate => assert ServiceKeys(st) == ["verified", "generated"];
      case AuditPass => assert ServiceKeys(st) == ["verified", "generated", "status", "sources"];
      case Changeset => assert ServiceKeys(st) == ["verified", "generated", "status"];
      case Review => assert ServiceKeys(st) == ["verified", "generated", "status", "sources", "type", "title", "stale_after"];
    }
  }

  /** The text that the edit gives a key: a `by` or `at` of its own is a slip and does not count. */
  function Edited<T>(c: Call<T>, key: string): Option<T> {
    if (key == "by" || key == "at") && Lines(BeforeBlocks(c), key) == None then None else Lines(c.after.blocks, key)
  }

  function Reads<T>(y: Yaml<T>, text: Option<T>): Option<Value> {
    if text.Some? then Some(y.text(text.value)) else None
  }

  /** The edit gives a key that the service does not own another value, or the body other paragraphs. */
  ghost predicate ChangesKnowledge<T>(y: Yaml<T>, c: Call<T>) {
    || c.before == None
    || (exists k :: !Owns(c.stage, k) && Reads(y, Edited(c, k)) != Reads(y, Lines(BeforeBlocks(c), k)))
    || Paragraphs(Rest(c.after.body)) != Paragraphs(Rest(BeforeBody(c)))
  }

  lemma RestoredReads<T>(y: Yaml<T>, c: Call<T>, key: string)
    requires !Owns(c.stage, key)
    ensures Lines(Restored(c), key) == Edited(c, key)
  {
    OwnsServiceKeys(c.stage, key);
    LinesRestored(c, key);
    assert EVENT_FIELDS == ["by", "at"];
  }

  lemma SameKnowledge<T>(y: Yaml<T>, c: Call<T>)
    ensures Loaded(y.text, Restored(c), ServiceKeys(c.stage)) == Loaded(y.text, BeforeBlocks(c), ServiceKeys(c.stage)) <==>
            forall k :: !Owns(c.stage, k) ==> Reads(y, Edited(c, k)) == Reads(y, Lines(BeforeBlocks(c), k))
  {
    var keys := ServiceKeys(c.stage);
    var f, g := Loaded(y.text, Restored(c), keys), Loaded(y.text, BeforeBlocks(c), keys);
    forall k
      ensures Get(f, k) == if Owns(c.stage, k) then None else Reads(y, Edited(c, k))
      ensures Get(g, k) == if Owns(c.stage, k) then None else Reads(y, Lines(BeforeBlocks(c), k))
    {
      OwnsServiceKeys(c.stage, k);
      if !Owns(c.stage, k) { RestoredReads(y, c, k); }
    }
    if forall k :: !Owns(c.stage, k) ==> Reads(y, Edited(c, k)) == Reads(y, Lines(BeforeBlocks(c), k)) {
      forall k ensures Get(f, k) == Get(g, k) {}
      SameMap(f, g);
    }
  }

  lemma SameMap(f: Fields, g: Fields)
    requires forall k :: Get(f, k) == Get(g, k)
    ensures f == g
  {
    forall k ensures k in f <==> k in g { assert Get(f, k) == Get(g, k); }
    forall k | k in f ensures f[k] == g[k] { assert Get(f, k) == Get(g, k); }
  }

  /** An edit counts as one if and only if it changes knowledge. */
  lemma SubstantiveExactly<T>(y: Yaml<T>, c: Call<T>)
    ensures Substantive(y, c) <==> ChangesKnowledge(y, c)
  {
    SameKnowledge(y, c);
    NormalTells(c.after.body, BeforeBody(c));
  }

  /** What a result holds of a key: `generated`, `verified` and `status` aside. */
  function Carried<T>(c: Call<T>, key: string, changed: bool): Option<T> {
    if changed && !Owns(c.stage, key) then Edited(c, key) else Lines(BeforeBlocks(c), key)
  }

  /**
   An edit that changes knowledge is taken: the result has its body below the spill and its text of every
   key that the service does not own. Any other edit is not: the result has the old document's, and where
   no verdict is passed and nothing is deprecated it is the old document.
   */
  lemma EditIsTakenExactly<T>(y: Yaml<T>, c: Call<T>, doc: Doc<T>, key: string)
    requires Proper(c) && Returns(y, c, doc)
    ensures ChangesKnowledge(y, c) ==> doc.body == Rest(c.after.body)
    ensures !ChangesKnowledge(y, c) ==>
              if c.stage == Curate || (c.stage == Changeset && !c.deprecate) then c.before == Some(doc)
              else doc.body == Rest(BeforeBody(c))
    ensures key != "generated" && key != "verified" && key != "status" ==>
              Lines(doc.blocks, key) == Carried(c, key, ChangesKnowledge(y, c))
  {
    SubstantiveExactly(y, c);
    ResultParts(y, c, doc);
    if key != "generated" && key != "verified" && key != "status" {
      CarriedKey(y, c, key);
    }
  }

  lemma CarriedKey<T>(y: Yaml<T>, c: Call<T>, key: string)
    requires key != "generated" && key != "verified" && key != "status"
    ensures Lines(FinalBlocks(y, c), key) == Carried(c, key, Substantive(y, c))
  {
    LinesStamped(y, c, BaseBlocks(y, c), key);
    LinesMarked(y, c, Stamped(y, c, BaseBlocks(y, c)), key);
    OwnsServiceKeys(c.stage, key);
    if Owns(c.stage, key) { LinesRestored(c, key); } else { RestoredReads(y, c, key); }
  }

  /** The status that the service sees to: an audit's, a deprecation's, or a new concept's. */
  function Insists<T>(y: Yaml<T>, c: Call<T>): Option<string> {
    if c.stage == AuditPass || c.stage == Review then
      var prior := Lines(BeforeBlocks(c), "status");
      Some(if prior.Some? && y.safe(prior.value) == Str("deprecated") then "deprecated" else "stable")
    else if c.stage == Changeset && c.deprecate then Some("deprecated")
    else if c.stage == Changeset && c.before == None then Some("draft")
    else None
  }

  /** The status of a result: what the service insists on, or else the edit's in `curate` and the old one in `changeset`. */
  lemma StatusOfResult<T(!new)>(y: Yaml<T>, c: Call<T>, doc: Doc<T>)
    requires Faithful(y) && Proper(c) && Returns(y, c, doc)
    ensures Insists(y, c).Some? ==> Reads(y, Lines(doc.blocks, "status")) == Some(Str(Insists(y, c).value))
    ensures Insists(y, c) == None ==> Lines(doc.blocks, "status") == Carried(c, "status", ChangesKnowledge(y, c))
  {
    SubstantiveExactly(y, c);
    ResultParts(y, c, doc);
    InsistsIs(y, c);
    BaseStatus(y, c);
    StatusKept(y, c);
  }

  lemma InsistsIs<T>(y: Yaml<T>, c: Call<T>)
    ensures OwnedStatus(y, c) == Insists(y, c)
  {}

  lemma BaseStatus<T>(y: Yaml<T>, c: Call<T>)
    ensures Lines(BaseBlocks(y, c), "status") == Carried(c, "status", Substantive(y, c))
  {
    OwnsServiceKeys(c.stage, "status");
    LinesRestored(c, "status");
    if !Owns(c.stage, "status") { RestoredReads(y, c, "status"); }
  }

  lemma StatusKept<T(!new)>(y: Yaml<T>, c: Call<T>)
    requires Faithful(y)
    ensures OwnedStatus(y, c).Some? ==> Reads(y, Lines(FinalBlocks(y, c), "status")) == Some(Str(OwnedStatus(y, c).value))
    ensures OwnedStatus(y, c) == None ==> Lines(FinalBlocks(y, c), "status") == Lines(BaseBlocks(y, c), "status")
  {
    var stamped := Stamped(y, c, BaseBlocks(y, c));
    var marked := WithStatus(y, c, stamped);
    LinesStamped(y, c, BaseBlocks(y, c), "status");
    if OwnedStatus(y, c).Some? {
      LinesPut(stamped, "status", Some(y.status(OwnedStatus(y, c).value)), Order(c), "status");
    }
    if c.verdict == Some(true) {
      LinesPut(marked, "verified", Some(y.event(Lines(marked, "verified"), c.actor, EventAt(y, c))), Order(c), "status");
    }
  }

  // ----- events ----------------------------------------------------------------------------

  lemma {:induction false} EventsMean(items: seq<Value>, e: Event)
    ensures e in EventsOf(Some(List(items))) <==> Map(e) in items
    ensures EventsOf(Some(Map(e))) == [e] && EventsOf(None) == []
    decreases |items|
  {
    if items != [] {
      EventsMean(items[1..], e);
      assert items == [items[0]] + items[1..];
    }
  }

  /**
   An event confirms the current generation if and only if it has a valid instant that is not before the
   generation's; an author that is no person may confirm its own only after the delay. Without a valid
   instant of the generation every event counts.
   */
  lemma CurrentMeans(f: Fields, ownAfter: Option<nat>, e: Event)
    ensures e in CurrentVerified(f, ownAfter) <==>
            && e in History(f)
            && (GeneratedAt(f).Some? ==>
                  && e.at.Some? && e.at.value >= GeneratedAt(f).value
                  && (ownAfter.Some? && GeneratedBy(f) != "" && !("human:" <= GeneratedBy(f)) && e.actor == GeneratedBy(f) ==>
                        e.at.value >= GeneratedAt(f).value + ownAfter.value))
  {
    if GeneratedAt(f).Some? {
      var at, author := GeneratedAt(f).value, GeneratedBy(f);
      var own := if ownAfter.Some? && author != "" && !("human:" <= author) then at + ownAfter.value else at;
      ConfirmsFrom(History(f), author, at, own, e);
    }
  }

  lemma {:induction false} ConfirmsFrom(events: seq<Event>, author: string, at: int, own: int, e: Event)
    ensures e in NotBeforeOwn(events, author, at, own) <==>
            e in events && e.at.Some? && e.at.value >= if e.actor == author then own else at
    decreases |events|
  {
    if events != [] {
      ConfirmsFrom(events[1..], author, at, own, e);
      assert events == [events[0]] + events[1..];
    }
  }

  // ----- stamps ----------------------------------------------------------------------------

  /** An instant that the document records. */
  ghost predicate Recorded(f: Fields, t: int) {
    GeneratedAt(f) == Some(t) || exists i :: 0 <= i < |History(f)| && History(f)[i].at == Some(t)
  }

  lemma {:induction false} LatestIsOne(events: seq<Event>)
    ensures Latest(events).Some? ==> exists i :: 0 <= i < |events| && events[i].at == Latest(events)
    decreases |events|
  {
    if events != [] {
      LatestIsOne(events[1..]);
      if Latest(events).Some? && Latest(events) != events[0].at {
        var i :| 0 <= i < |events| - 1 && events[1..][i].at == Latest(events[1..]);
        assert events[i + 1].at == Latest(events);
      } else {
        assert Latest(events).Some? ==> events[0].at == Latest(events);
      }
    }
  }

  lemma FloorIsRecorded(f: Fields)
    ensures Floor(f).Some? ==> Recorded(f, Floor(f).value)
    ensures forall t :: Recorded(f, t) ==> Floor(f).Some? && t <= Floor(f).value
  {
    LatestIsOne(History(f));
    LatestBounds(History(f));
  }

  /** A whole second, not before this one, after every recorded instant; the second before would not do. */
  ghost predicate Tight(prior: Fields, now: int, stamp: int) {
    && stamp % 1_000_000 == 0 && stamp > now - 1_000_000
    && (forall t :: Recorded(prior, t) ==> t < stamp)
    && (stamp > now ==> exists t :: Recorded(prior, t) && stamp - 1_000_000 <= t)
  }

  /** An audit withdraws the verdict on the concept as it stands. */
  predicate Withdraws<T>(y: Yaml<T>, c: Call<T>) {
    c.stage == Review && c.verdict == Some(false) && CurrentVerified(Prior(y, c), None) != []
  }

  /**
   A result is stamped if and only if the edit changes knowledge or a verdict is withdrawn: as tightly as
   can be, in the editor's name, or in the old author's for a verdict alone. Otherwise the generation stays.
   */
  lemma StampIs<T(!new)>(y: Yaml<T>, c: Call<T>, doc: Doc<T>)
    requires Faithful(y) && Proper(c) && Returns(y, c, doc)
    ensures var f, prior := Read(y, doc), Prior(y, c);
            if ChangesKnowledge(y, c) || Withdraws(y, c) then
              && GeneratedAt(f).Some? && Tight(prior, c.now, GeneratedAt(f).value)
              && GeneratedBy(f) == (if ChangesKnowledge(y, c) || GeneratedBy(prior) == "" then c.actor else GeneratedBy(prior))
            else Get(f, "generated") == Get(prior, "generated")
  {
    SubstantiveExactly(y, c);
    ResultParts(y, c, doc);
    FinalGenerated(y, c);
    if Stamp(y, c).Some? {
      StampIsTight(Prior(y, c), c.now);
    }
  }

  lemma StampIsTight(prior: Fields, now: int)
    ensures Tight(prior, now, NotBefore(now, Floor(prior), true))
  {
    FloorIsRecorded(prior);
    NotBeforeIsTight(now, Floor(prior), true);
  }

  /**
   The event of a verdict is its actor's, of the generation's own time when that is new; of an old
   generation, in the first whole second from now on that is not before it.
   */
  lemma EventIs<T(!new)>(y: Yaml<T>, c: Call<T>, doc: Doc<T>)
    requires Faithful(y) && Proper(c) && Returns(y, c, doc) && c.verdict == Some(true)
    ensures var h, gen := History(Read(y, doc)), GeneratedAt(Read(y, doc));
            && h != [] && h[..|h| - 1] == History(Prior(y, c)) && h[|h| - 1].actor == c.actor && h[|h| - 1].at.Some?
            && (var at := h[|h| - 1].at.value;
                if ChangesKnowledge(y, c) then gen == Some(at)
                else
                  && at % 1_000_000 == 0 && at > c.now - 1_000_000 && (gen.Some? ==> at >= gen.value)
                  && (at > c.now ==> gen.Some? && at - 1_000_000 < gen.value))
  {
    SubstantiveExactly(y, c);
    ResultIsDated(y, c, doc);
    NotBeforeIsTight(c.now, GeneratedAt(Prior(y, c)), false);
  }

  // ----- what is reported and what is refused ----------------------------------------------

  /** The repairs name exactly the owned keys whose value the edit changed, but for a status the service wants anyway. */
  lemma {:induction false} RepairsNameKeys<T>(y: Yaml<T>, c: Call<T>, keys: seq<string>, key: string)
    ensures key in RestoredKeys(y, c, keys) <==>
            && key in keys && key != "generated"
            && Reads(y, Lines(c.after.blocks, key)) != Reads(y, Lines(BeforeBlocks(c), key))
            && !(key == "status" && IsOwned(Reads(y, Lines(c.after.blocks, key)), OwnedStatus(y, c)))
    decreases |keys|
  {
    if keys != [] {
      var init, last := keys[..|keys| - 1], keys[|keys| - 1];
      assert keys == init + [last];
      RepairsNameKeys(y, c, init, key);
    }
  }

  /** A `by` or `at` block that the old document does not have. */
  ghost predicate Slips<T>(blocks: Blocks<T>, before: Blocks<T>, text: T) {
    exists i :: 0 <= i < |blocks| && blocks[i].text == text
      && (blocks[i].key == Some("by") || blocks[i].key == Some("at")) && blocks[i].key !in Keys(before)
  }

  lemma {:induction false} StrayMeans<T>(blocks: Blocks<T>, before: Blocks<T>, text: T)
    ensures text in StrayTexts(blocks, before) <==> Slips(blocks, before, text)
    decreases |blocks|
  {
    assert EVENT_FIELDS == ["by", "at"];
    if blocks != [] {
      var rest := blocks[1..];
      StrayMeans(rest, before, text);
      assert forall i :: 0 <= i < |rest| ==> rest[i] == blocks[i + 1];
      assert text in StrayTexts(blocks, before) <==>
        (IsStray(blocks[0], before) && blocks[0].text == text) || text in StrayTexts(rest, before);
    }
  }

  lemma {:induction false} StrayOthers<T>(blocks: Blocks<T>, before: Blocks<T>, key: string)
    requires key !in EVENT_FIELDS
    ensures StrayTexts(Others(blocks, key), before) == StrayTexts(blocks, before)
    decreases |blocks|
  {
    if blocks != [] {
      StrayOthers(blocks[1..], before, key);
      if blocks[0].key == Some(key) {
        assert Others(blocks, key) == Others(blocks[1..], key);
      } else {
        assert Others(blocks, key)[0] == blocks[0] && Others(blocks, key)[1..] == Others(blocks[1..], key);
      }
    }
  }

  lemma {:induction false} StrayRestored<T>(blocks: Blocks<T>, before: Blocks<T>, keys: seq<string>, order: seq<string>)
    requires forall k :: k in keys ==> k !in EVENT_FIELDS
    ensures StrayTexts(RestoreKeys(blocks, before, keys, order), before) == StrayTexts(blocks, before)
    decreases |keys|
  {
    if keys != [] {
      var next := Put(blocks, keys[0], Lines(before, keys[0]), order);
      OthersPut(blocks, keys[0], Lines(before, keys[0]), order);
      StrayOthers(next, before, keys[0]);
      StrayOthers(blocks, before, keys[0]);
      StrayRestored(next, before, keys[1..], order);
    }
  }

  /** The repairs show exactly the event fields that the editor let slip to the top level. */
  lemma RepairsShowStray<T>(y: Yaml<T>, c: Call<T>, text: T)
    ensures text in RepairsOf(y, c).stray <==> Slips(c.after.blocks, BeforeBlocks(c), text)
  {
    forall k | k in ServiceKeys(c.stage) ensures k !in EVENT_FIELDS { OwnsServiceKeys(c.stage, k); }
    StrayRestored(c.after.blocks, BeforeBlocks(c), ServiceKeys(c.stage), Order(c));
    StrayMeans(c.after.blocks, BeforeBlocks(c), text);
  }

  /** Some spilled line of the body that is kept opens this key. */
  ghost predicate SpillsKey<T>(y: Yaml<T>, c: Call<T>, key: string) {
    exists i :: 0 <= i < |Spilled(BaseBody(y, c))| && Spilled(BaseBody(y, c))[i].key == Some(key)
  }

  lemma DisplacedMeans<T>(y: Yaml<T>, c: Call<T>, key: string)
    ensures key in Displaced(y, c) <==>
            SpillsKey(y, c, key) && !Owns(c.stage, key) && Lines(FinalBlocks(y, c), key) == None
  {
    KeySetIs(FinalBlocks(y, c));
    OwnsServiceKeys(c.stage, key);
  }

  /**
   Spill is never dropped with its content: a pass is refused if and only if it would leave out a spilled
   line with a key that the service does not own and the result does not hold.
   */
  lemma SpilledKeysStay<T>(y: Yaml<T>, c: Call<T>)
    requires Proper(c) && !Discards(y, c)
    ensures Apply(y, c).Applied? <==>
            forall k :: SpillsKey(y, c, k) ==> Owns(c.stage, k) || Lines(FinalBlocks(y, c), k).Some?
  {
    forall k ensures k in Displaced(y, c) <==>
                     SpillsKey(y, c, k) && !Owns(c.stage, k) && Lines(FinalBlocks(y, c), k) == None
    {
      DisplacedMeans(y, c, k);
    }
  }

  /** No notice means that nothing of an edit was thrown away; a notice says what was. */
  lemma NoticeMeans<T>(y: Yaml<T>, c: Call<T>)
    requires Proper(c)
    ensures var generated := Reads(y, Lines(c.after.blocks, "generated")) == Reads(y, Lines(BeforeBlocks(c), "generated"));
            var same := Restored(c) == BeforeBlocks(c) && Rest(c.after.body) == Rest(BeforeBody(c));
            && (NoticeOf(y, c) == None <==> ChangesKnowledge(y, c) || (generated && same))
            && (NoticeOf(y, c) == Some(GeneratedRestored) <==> !ChangesKnowledge(y, c) && !generated)
  {
    SubstantiveExactly(y, c);
  }

  /** The body that a result is taken from: the edit's, or the old document's. */
  function Taken<T>(c: Call<T>, changed: bool): seq<Line> {
    if changed then c.after.body else BeforeBody(c)
  }

  /**
   Every line of the body that was taken is in the result, or blank, or reported as spill: the editor's,
   if the old body did not spill it as often, or the old one's.
   */
  lemma SpillIsAccounted<T>(y: Yaml<T>, c: Call<T>, doc: Doc<T>, line: Line)
    requires Proper(c) && Returns(y, c, doc) && !Discards(y, c) && !Blank(line)
    ensures var repairs, changed := Apply(y, c).repairs, ChangesKnowledge(y, c);
            multiset(Taken(c, changed))[line] == multiset(doc.body)[line] + repairs.removedSpill[line]
              + if changed then repairs.editorSpill[line] else 0
  {
    SubstantiveExactly(y, c);
    BodyParts(Taken(c, Substantive(y, c)), line);
  }

  lemma BodyParts(body: seq<Line>, line: Line)
    requires !Blank(line)
    ensures multiset(body)[line] == multiset(Rest(body))[line] + multiset(Spilled(body))[line]
  {
    SplitPartitionsBody(body);
    if Spilled(body) != [] {
      var k := |body| - |Rest(body)|;
      assert body == body[..k] + Rest(body);
      PassedParts(body[..k], line);
    }
  }

  lemma {:induction false} PassedParts(passed: seq<Line>, line: Line)
    requires !Blank(line)
    ensures multiset(passed)[line] == multiset(NonBlank(passed))[line]
    decreases |passed|
  {
    if passed != [] {
      PassedParts(passed[1..], line);
      assert passed == [passed[0]] + passed[1..];
    }
  }
}
