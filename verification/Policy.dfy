/**
 The policy that judges a bundle after a pass, from the documents alone and without trusting the
 bookkeeping (`_curation_policy_errors`): its clauses on status, verification history and generation.
 */
module Policy {
  import opened Prelude
  import opened Spill
  import opened Frontmatter
  import opened Bookkeeping
  import opened BookkeepingLaws

  datatype Error = NotDraft | VerifiesNew | NewAuthor | Future | HistoryChanged | Unearned | ChangedAuthor
                 | SubstantiveAuthor | NotAdvanced | StillVerified | Deleted

  /** What the policy remembers of a concept: its signatures, its generation instant and its events. */
  datatype State = State(knowledge: (Fields, seq<Line>), generated: Value, at: Option<int>, events: set<(string, string)>)

  const BOOKKEEPING := ["generated", "verified"]
  const SELF_REVIEW_DELAY: nat := 12 * 3600 * SECOND

  function EventSet(events: seq<Event>): set<(string, string)> {
    set i | 0 <= i < |events| :: (events[i].actor, events[i].raw)
  }

  function GeneratedValue(f: Fields): Value {
    if Get(f, "generated").Some? then f["generated"] else Null
  }

  /** `_concept_snapshot` and `_substantive_signature`: timestamps as times, and the body as it is parsed. */
  function Snapshot<T>(y: Yaml<T>, doc: Doc<T>): State {
    var f := Read(y, doc);
    State((Loaded(y.safe, doc.blocks, BOOKKEEPING), Parsed(doc.body)), GeneratedValue(f), GeneratedAt(f), EventSet(History(f)))
  }

  function When(b: bool, e: Error): seq<Error> {
    if b then [e] else []
  }

  predicate Exceeds(at: Option<int>, max: Option<int>) {
    max.Some? && at.Some? && at.value > max.value
  }

  predicate WrittenBy(f: Fields, actor: string) {
    EntryOf(Get(f, "generated")).Some? && GeneratedBy(f) == actor
  }

  function JudgeNew(f: Fields, now: State, max: Option<int>, actor: string): seq<Error> {
    When(Get(f, "status") != Some(Str("draft")), NotDraft)
    + When(now.events != {}, VerifiesNew)
    + When(!WrittenBy(f, actor), NewAuthor)
    + When(Exceeds(now.at, max), Future)
  }

  function JudgeKnown(f: Fields, prior: State, now: State, max: Option<int>, actor: string): seq<Error> {
    var regenerated, relearned := now.generated != prior.generated, now.knowledge != prior.knowledge;
    When(now.events != prior.events, HistoryChanged)
    + When(regenerated && !relearned, Unearned)
    + When(regenerated && !WrittenBy(f, actor), ChangedAuthor)
    + When(regenerated && Exceeds(now.at, max), Future)
    + When(relearned && !WrittenBy(f, actor), SubstantiveAuthor)
    + When(relearned && (prior.at == None || now.at == None || now.at.value <= prior.at.value), NotAdvanced)
    + When(relearned && CurrentVerified(f, Some(SELF_REVIEW_DELAY)) != [], StillVerified)
  }

  /** The errors of one concept, given what was remembered of it before the pass. */
  function Judge<T>(y: Yaml<T>, prior: Option<State>, doc: Doc<T>, max: Option<int>, actor: string): seq<Error> {
    var f, now := Read(y, doc), Snapshot(y, doc);
    if prior == None then JudgeNew(f, now, max, actor) else JudgeKnown(f, prior.value, now, max, actor)
  }

  /** The judge of a concept by its path. */
  function Judging<T>(y: Yaml<T>, before: map<string, State>, max: Option<int>, actor: string): (string, Doc<T>) -> seq<Error> {
    (rel, doc) => Judge(y, Get(before, rel), doc, max, actor)
  }

  /** Some concept of the bundle with this path has this error. */
  ghost predicate Found<T>(judge: (string, Doc<T>) -> seq<Error>, bundle: seq<(string, Doc<T>)>, rel: string, e: Error) {
    exists i :: 0 <= i < |bundle| && bundle[i].0 == rel && e in judge(rel, bundle[i].1)
  }

  function Paths<T>(bundle: seq<(string, Doc<T>)>): set<string> {
    set i | 0 <= i < |bundle| :: bundle[i].0
  }

  function Tagged(rel: string, found: seq<Error>): (r: seq<(string, Error)>)
    ensures forall p :: p in r <==> p.0 == rel && p.1 in found
  {
    if found == [] then [] else [(rel, found[0])] + Tagged(rel, found[1..])
  }

  lemma FoundSnoc<T>(judge: (string, Doc<T>) -> seq<Error>, bundle: seq<(string, Doc<T>)>, last: (string, Doc<T>),
                     rel: string, e: Error)
    ensures Found(judge, bundle + [last], rel, e) <==> Found(judge, bundle, rel, e) || (last.0 == rel && e in judge(rel, last.1))
  {
    var all := bundle + [last];
    assert all[|bundle|] == last;
    assert forall i :: 0 <= i < |bundle| ==> all[i] == bundle[i];
  }

  /** The loop over the bundle's concepts. */
  method JudgeConcepts<T>(judge: (string, Doc<T>) -> seq<Error>, bundle: seq<(string, Doc<T>)>)
    returns (errors: seq<(string, Error)>, after: set<string>)
    ensures forall p :: p in errors <==> Found(judge, bundle, p.0, p.1)
    ensures after == Paths(bundle)
  {
    errors, after := [], {};
    for n := 0 to |bundle|
      invariant after == Paths(bundle[..n])
      invariant forall p :: p in errors <==> Found(judge, bundle[..n], p.0, p.1)
    {
      var rel, doc := bundle[n].0, bundle[n].1;
      assert bundle[..n + 1] == bundle[..n] + [bundle[n]];
      forall r, e ensures Found(judge, bundle[..n + 1], r, e) <==>
                  Found(judge, bundle[..n], r, e) || (rel == r && e in judge(rel, doc))
      {
        FoundSnoc(judge, bundle[..n], bundle[n], r, e);
      }
      PathsSnoc(bundle[..n], bundle[n]);
      errors := errors + Tagged(rel, judge(rel, doc));
      after := after + {rel};
    }
    assert bundle[..|bundle|] == bundle;
  }

  lemma PathsSnoc<T>(bundle: seq<(string, Doc<T>)>, last: (string, Doc<T>))
    ensures Paths(bundle + [last]) == Paths(bundle) + {last.0}
  {
    var all := bundle + [last];
    assert all[|bundle|] == last && forall i :: 0 <= i < |bundle| ==> all[i] == bundle[i];
  }

  /** What there is to report of a bundle: what its concepts show, and every concept that is gone. */
  ghost predicate Wrong<T>(judge: (string, Doc<T>) -> seq<Error>, bundle: seq<(string, Doc<T>)>, known: set<string>,
                           rel: string, e: Error) {
    Found(judge, bundle, rel, e) || (e == Deleted && rel in known && rel !in Paths(bundle))
  }

  method JudgeBundle<T>(y: Yaml<T>, bundle: seq<(string, Doc<T>)>, before: map<string, State>, max: Option<int>, actor: string)
    returns (errors: seq<(string, Error)>)
    ensures forall p :: p in errors <==> Wrong(Judging(y, before, max, actor), bundle, before.Keys, p.0, p.1)
  {
    var after;
    errors, after := JudgeConcepts(Judging(y, before, max, actor), bundle);
    var gone := before.Keys - after;
    ghost var judged, all := errors, gone;
    while gone != {}
      invariant gone <= all
      invariant forall p :: p in errors <==> p in judged || (p.1 == Deleted && p.0 in all - gone)
      decreases |gone|
    {
      var rel :| rel in gone;
      errors, gone := errors + [(rel, Deleted)], gone - {rel};
    }
  }

  // ----- the policy accepts what the bookkeeping writes ------------------------------------

  /** A pass of the changeset stage that does not deprecate. */
  predicate Edits<T>(c: Call<T>) {
    Proper(c) && c.stage == Changeset && !c.deprecate
  }

  function Remembered<T>(y: Yaml<T>, c: Call<T>): Option<State> {
    if c.before.Some? then Some(Snapshot(y, c.before.value)) else None
  }

  /**
   The bookkeeping saw a change of knowledge that the policy does not see: the policy's loader reads the
   edited frontmatter as it read the old one, and the body without spill parses as the old body did.
   */
  predicate Respelled<T>(y: Yaml<T>, c: Call<T>) {
    && c.before.Some?
    && Loaded(y.safe, Restored(c), BOOKKEEPING) == Loaded(y.safe, BeforeBlocks(c), BOOKKEEPING)
    && Parsed(Rest(c.after.body)) == Parsed(BeforeBody(c))
  }

  /** Two texts of one key that the policy reads as the same value and the bookkeeping as different ones. */
  ghost predicate SpelledApart<T>(y: Yaml<T>, a: Option<T>, b: Option<T>) {
    a.Some? && b.Some? && y.safe(a.value) == y.safe(b.value) && y.text(a.value) != y.text(b.value)
  }

  lemma RestoredKnowledge<T>(y: Yaml<T>, c: Call<T>)
    requires Edits(c) && Substantive(y, c)
    ensures Loaded(y.safe, FinalBlocks(y, c), BOOKKEEPING) == Loaded(y.safe, Restored(c), BOOKKEEPING) || c.before == None
    ensures c.before == None ==> Lines(FinalBlocks(y, c), "status") == Some(y.status("draft"))
  {
    var base := Restored(c);
    assert ServiceKeys(c.stage)[2] == "status";
    LinesRestored(c, "status");
    LinesStamped(y, c, base, "status");
    LinesMarked(y, c, Stamped(y, c, base), "status");
    if c.before.Some? {
      forall k | k !in BOOKKEEPING ensures Lines(FinalBlocks(y, c), k) == Lines(base, k) {
        assert BOOKKEEPING[0] == "generated" && BOOKKEEPING[1] == "verified";
        LinesStamped(y, c, base, k);
        LinesMarked(y, c, Stamped(y, c, base), k);
      }
      SameFields(y.safe, FinalBlocks(y, c), base, BOOKKEEPING);
    }
  }

  lemma SameFields<T>(read: T -> Value, a: Blocks<T>, b: Blocks<T>, without: seq<string>)
    requires forall k :: k !in without ==> ValueAt(read, a, k) == ValueAt(read, b, k)
    ensures Loaded(read, a, without) == Loaded(read, b, without)
  {
    var f, g := Loaded(read, a, without), Loaded(read, b, without);
    assert forall k :: Get(f, k) == Get(g, k);
    assert forall k :: k in f <==> Get(f, k).Some?;
    assert forall k :: k in g <==> Get(g, k).Some?;
  }

  /** Frontmatters that one loader tells apart and the other does not differ in the spelling of some key. */
  lemma SomeKeyApart<T>(y: Yaml<T>, a: Blocks<T>, b: Blocks<T>, owned: seq<string>)
    requires forall k :: k in BOOKKEEPING ==> k in owned
    ensures Loaded(y.text, a, owned) != Loaded(y.text, b, owned)
            && Loaded(y.safe, a, BOOKKEEPING) == Loaded(y.safe, b, BOOKKEEPING) ==>
              exists k :: k !in owned && SpelledApart(y, Lines(a, k), Lines(b, k))
  {
    if forall k :: k !in owned ==> ValueAt(y.text, a, k) == ValueAt(y.text, b, k) {
      SameFields(y.text, a, b, owned);
    } else {
      var k :| k !in owned && ValueAt(y.text, a, k) != ValueAt(y.text, b, k);
      var f, g := Loaded(y.safe, a, BOOKKEEPING), Loaded(y.safe, b, BOOKKEEPING);
      assert Get(f, k) == ValueAt(y.safe, a, k) && Get(g, k) == ValueAt(y.safe, b, k);
      assert f == g ==> SpelledApart(y, Lines(a, k), Lines(b, k));
    }
  }

  /**
   The two modules agree on what counts as a change but for spelling: when only the bookkeeping sees one,
   some key of the frontmatter holds a value in another spelling. No body makes them disagree.
   */
  lemma RespellingNeedsAKey<T>(y: Yaml<T>, c: Call<T>)
    requires Edits(c)
    ensures Substantive(y, c) && Respelled(y, c) ==>
              exists k :: k !in ServiceKeys(c.stage) && SpelledApart(y, Lines(Restored(c), k), Lines(BeforeBlocks(c), k))
  {
    var keys := ServiceKeys(c.stage);
    assert keys[0] == "verified" && keys[1] == "generated";
    if Substantive(y, c) && Respelled(y, c) {
      NormalizeRest(c.after.body);
      ParsedDecidesNormal(Rest(c.after.body), BeforeBody(c));
      SomeKeyApart(y, Restored(c), BeforeBlocks(c), keys);
    }
  }

  /** What the judge finds in a freshly stamped result. */
  lemma JudgeFresh<T>(c: Call<T>, before: Fields, f: Fields, prior: State, now: State, max: Option<int>)
    requires FreshlyStamped(c, before, f, Some(SELF_REVIEW_DELAY)) && c.verdict == None && History(f) == History(before)
    requires now.at == GeneratedAt(f) && now.generated == GeneratedValue(f) && now.events == EventSet(History(f))
    requires prior.at == GeneratedAt(before) && prior.generated == GeneratedValue(before)
    requires prior.events == EventSet(History(before))
    ensures JudgeKnown(f, prior, now, max, c.actor) ==
            When(now.knowledge == prior.knowledge, Unearned) + When(Exceeds(GeneratedAt(f), max), Future)
            + When(now.knowledge != prior.knowledge && prior.at == None, NotAdvanced)
  {
    assert now.generated.Map? && now.generated.entry.at == GeneratedAt(f);
    assert GeneratedAt(before) != GeneratedAt(f);
    assert prior.generated.Map? ==> prior.generated.entry.at == GeneratedAt(before);
    assert WrittenBy(f, c.actor) && CurrentVerified(f, Some(SELF_REVIEW_DELAY)) == [];
  }

  lemma JudgeUntouched<T>(y: Yaml<T>, doc: Doc<T>, max: Option<int>, actor: string)
    ensures Judge(y, Some(Snapshot(y, doc)), doc, max, actor) == []
  {}

  lemma JudgeStarted<T>(c: Call<T>, f: Fields, now: State, max: Option<int>)
    requires GeneratedBy(f) == c.actor && GeneratedAt(f).Some? && Get(f, "status") == Some(Str("draft"))
    requires now.at == GeneratedAt(f) && now.events == {}
    ensures JudgeNew(f, now, max, c.actor) == When(Exceeds(GeneratedAt(f), max), Future)
  {}

  /** A substantive result as it is written. */
  function ResultDoc<T>(y: Yaml<T>, c: Call<T>): Doc<T> {
    Doc(FinalBlocks(y, c), Rest(c.after.body))
  }

  lemma SeenKnowledge<T>(y: Yaml<T>, c: Call<T>)
    requires Edits(c) && c.before.Some?
    ensures Substantive(y, c) ==>
              (Snapshot(y, ResultDoc(y, c)).knowledge == Snapshot(y, c.before.value).knowledge <==> Respelled(y, c))
  {
    if Substantive(y, c) { RestoredKnowledge(y, c); }
  }

  lemma SeenAsNew<T(!new)>(y: Yaml<T>, c: Call<T>)
    requires Faithful(y) && Edits(c) && c.before == None
    ensures var f := Read(y, ResultDoc(y, c));
            && Get(f, "status") == Some(Str("draft"))
            && (Get(f, "verified") == Get(Prior(y, c), "verified") ==> Snapshot(y, ResultDoc(y, c)).events == {})
  {
    RestoredKnowledge(y, c);
    assert y.safe(y.status("draft")) == Str("draft");
    assert Get(Prior(y, c), "verified") == None;
  }

  /** What the policy is to find in the result of a substantive edit. */
  function Findings<T>(y: Yaml<T>, c: Call<T>, max: Option<int>): seq<Error> {
    When(c.before.Some? && Respelled(y, c), Unearned)
    + When(Exceeds(Stamp(y, c), max), Future)
    + When(c.before.Some? && !Respelled(y, c) && GeneratedAt(Prior(y, c)) == None, NotAdvanced)
  }

  lemma SnapshotReads<T>(y: Yaml<T>, doc: Doc<T>)
    ensures var f, st := Read(y, doc), Snapshot(y, doc);
            st.at == GeneratedAt(f) && st.generated == GeneratedValue(f) && st.events == EventSet(History(f))
  {}

  lemma FindingsOfKnown<T(!new)>(y: Yaml<T>, c: Call<T>, before: Doc<T>, doc: Doc<T>, max: Option<int>)
    requires FreshlyStamped(c, Read(y, before), Read(y, doc), Some(SELF_REVIEW_DELAY)) && c.verdict == None
    requires History(Read(y, doc)) == History(Read(y, before))
    ensures var respelled := Snapshot(y, doc).knowledge == Snapshot(y, before).knowledge;
            Judge(y, Some(Snapshot(y, before)), doc, max, c.actor) ==
            When(respelled, Unearned) + When(Exceeds(GeneratedAt(Read(y, doc)), max), Future)
            + When(!respelled && GeneratedAt(Read(y, before)) == None, NotAdvanced)
  {
    SnapshotReads(y, doc);
    SnapshotReads(y, before);
    JudgeFresh(c, Read(y, before), Read(y, doc), Snapshot(y, before), Snapshot(y, doc), max);
  }

  /** What the laws of the bookkeeping say of the result of a substantive edit. */
  ghost predicate Lawful<T>(y: Yaml<T>, c: Call<T>, doc: Doc<T>) {
    && FreshlyStamped(c, Prior(y, c), Read(y, doc), Some(SELF_REVIEW_DELAY))
    && Dated(c, Prior(y, c), Read(y, doc), Stamp(y, c), EventAt(y, c), true) && Stamp(y, c).Some?
  }

  lemma LawfulNew<T>(y: Yaml<T>, c: Call<T>, doc: Doc<T>, max: Option<int>)
    requires Edits(c) && c.before == None
    ensures Findings(y, c, max) == When(Exceeds(Stamp(y, c), max), Future)
    ensures Lawful(y, c, doc) ==>
              && GeneratedBy(Read(y, doc)) == c.actor && GeneratedAt(Read(y, doc)) == Stamp(y, c) && Stamp(y, c).Some?
              && Get(Read(y, doc), "verified") == Get(Prior(y, c), "verified")
  {}

  lemma FindingsOfNew<T(!new)>(y: Yaml<T>, c: Call<T>, doc: Doc<T>, max: Option<int>)
    requires GeneratedBy(Read(y, doc)) == c.actor && GeneratedAt(Read(y, doc)).Some?
    requires Get(Read(y, doc), "status") == Some(Str("draft")) && Snapshot(y, doc).events == {}
    ensures Judge(y, None, doc, max, c.actor) == When(Exceeds(GeneratedAt(Read(y, doc)), max), Future)
  {
    SnapshotReads(y, doc);
    JudgeStarted(c, Read(y, doc), Snapshot(y, doc), max);
  }

  lemma FindingsWhenNew<T(!new)>(y: Yaml<T>, c: Call<T>, max: Option<int>)
    requires Faithful(y) && Edits(c) && c.before == None
    ensures Lawful(y, c, ResultDoc(y, c)) ==> Judge(y, Remembered(y, c), ResultDoc(y, c), max, c.actor) == Findings(y, c, max)
  {
    var doc := ResultDoc(y, c);
    SeenAsNew(y, c);
    LawfulNew(y, c, doc, max);
    if Lawful(y, c, doc) { FindingsOfNew(y, c, doc, max); }
  }

  lemma LawfulKnown<T>(y: Yaml<T>, c: Call<T>, before: Doc<T>, doc: Doc<T>)
    requires Edits(c) && c.before == Some(before)
    ensures Lawful(y, c, doc) ==>
              && FreshlyStamped(c, Read(y, before), Read(y, doc), Some(SELF_REVIEW_DELAY))
              && History(Read(y, doc)) == History(Read(y, before)) && GeneratedAt(Read(y, doc)) == Stamp(y, c)
  {
    assert Prior(y, c) == Read(y, before);
  }

  lemma FindingsAre<T>(y: Yaml<T>, c: Call<T>, max: Option<int>, respelled: bool, at: Option<int>)
    requires c.before.Some?
    ensures respelled == Respelled(y, c) && at == Stamp(y, c) ==>
              Findings(y, c, max) ==
              When(respelled, Unearned) + When(Exceeds(at, max), Future)
              + When(!respelled && GeneratedAt(Read(y, c.before.value)) == None, NotAdvanced)
  {}

  lemma FindingsWhenKnown<T(!new)>(y: Yaml<T>, c: Call<T>, max: Option<int>)
    requires Edits(c) && c.before.Some?
    ensures Lawful(y, c, ResultDoc(y, c)) && Substantive(y, c) ==>
              Judge(y, Remembered(y, c), ResultDoc(y, c), max, c.actor) == Findings(y, c, max)
  {
    var before, doc := c.before.value, ResultDoc(y, c);
    LawfulKnown(y, c, before, doc);
    if Lawful(y, c, doc) && Substantive(y, c) {
      SeenKnowledge(y, c);
      FindingsAre(y, c, max, Snapshot(y, doc).knowledge == Snapshot(y, before).knowledge, GeneratedAt(Read(y, doc)));
      FindingsOfKnown(y, c, before, doc, max);
    }
  }

  /**
   The policy finds in a bookkept document exactly this: nothing when the edit was discarded; a stamp past
   the pass time when there is one; and of a changed document, a generation without a change of knowledge
   when the change was only a respelling, or else one that cannot be shown to advance when the document had
   no valid instant before.
   */
  lemma PolicyFindsExactly<T(!new)>(y: Yaml<T>, c: Call<T>, doc: Doc<T>, max: Option<int>)
    requires Faithful(y) && Edits(c)
    ensures Returns(y, c, doc) ==>
              Judge(y, Remembered(y, c), doc, max, c.actor) == if Substantive(y, c) then Findings(y, c, max) else []
  {
    ResultParts(y, c, doc);
    if !Substantive(y, c) {
      JudgeUntouched(y, doc, max, c.actor);
    } else if Returns(y, c, doc) {
      ResultIsDated(y, c, doc);
      SubstantiveEditIsStamped(y, c, doc, Some(SELF_REVIEW_DELAY));
      assert doc == ResultDoc(y, c) && Lawful(y, c, doc);
      if c.before == None { FindingsWhenNew(y, c, max); } else { FindingsWhenKnown(y, c, max); }
    }
  }

  /** The stamp is not past the pass time, and the old document had a valid instant and was not just respelled. */
  predicate Admissible<T>(y: Yaml<T>, c: Call<T>, max: Option<int>) {
    Substantive(y, c) ==>
      && !Exceeds(Stamp(y, c), max)
      && (c.before.Some? ==> GeneratedAt(Prior(y, c)).Some? && !Respelled(y, c))
  }

  /** Bookkept documents pass the policy, if and only if they are admissible. */
  lemma BookkeptDocumentsPass<T(!new)>(y: Yaml<T>, c: Call<T>, doc: Doc<T>, max: Option<int>)
    requires Faithful(y) && Edits(c)
    ensures Returns(y, c, doc) ==> (Judge(y, Remembered(y, c), doc, max, c.actor) == [] <==> Admissible(y, c, max))
  {
    PolicyFindsExactly(y, c, doc, max);
  }

  /** This document came out of this pass over this path. */
  ghost predicate Bookkept<T>(y: Yaml<T>, c: Call<T>, doc: Doc<T>, before: map<string, State>, rel: string) {
    Edits(c) && Returns(y, c, doc) && Get(before, rel) == Remembered(y, c)
  }

  lemma NoneFound<T>(judge: (string, Doc<T>) -> seq<Error>, bundle: seq<(string, Doc<T>)>, fine: seq<bool>)
    requires |fine| == |bundle|
    requires forall i :: 0 <= i < |bundle| ==> (judge(bundle[i].0, bundle[i].1) == [] <==> fine[i])
    ensures (forall rel, e :: !Found(judge, bundle, rel, e)) <==> forall i :: 0 <= i < |fine| ==> fine[i]
  {
    if i :| 0 <= i < |fine| && !fine[i] {
      assert Found(judge, bundle, bundle[i].0, judge(bundle[i].0, bundle[i].1)[0]);
    }
  }

  lemma JudgedAlone<T(!new)>(y: Yaml<T>, c: Call<T>, doc: Doc<T>, before: map<string, State>, rel: string, max: Option<int>)
    requires Faithful(y)
    ensures Bookkept(y, c, doc, before, rel) ==> (Judging(y, before, max, c.actor)(rel, doc) == [] <==> Admissible(y, c, max))
  {
    if Bookkept(y, c, doc, before, rel) { BookkeptDocumentsPass(y, c, doc, max); }
  }

  /** Nothing is found in a bundle of bookkept documents if and only if every one of them is admissible. */
  lemma BookkeptConceptsPass<T(!new)>(y: Yaml<T>, bundle: seq<(string, Doc<T>)>, calls: seq<Call<T>>,
                                      before: map<string, State>, max: Option<int>, actor: string)
    requires Faithful(y) && |calls| == |bundle|
    requires forall i :: 0 <= i < |calls| ==>
               calls[i].actor == actor && Bookkept(y, calls[i], bundle[i].1, before, bundle[i].0)
    ensures (forall rel, e :: !Found(Judging(y, before, max, actor), bundle, rel, e))
            <==> forall i :: 0 <= i < |calls| ==> Admissible(y, calls[i], max)
  {
    var fine := seq(|calls|, i requires 0 <= i < |calls| => Admissible(y, calls[i], max));
    AllJudgedAlone(y, bundle, calls, before, max, actor, fine);
    NoneFound(Judging(y, before, max, actor), bundle, fine);
    assert forall i :: 0 <= i < |calls| ==> fine[i] == Admissible(y, calls[i], max);
  }

  lemma AllJudgedAlone<T(!new)>(y: Yaml<T>, bundle: seq<(string, Doc<T>)>, calls: seq<Call<T>>,
                                before: map<string, State>, max: Option<int>, actor: string, fine: seq<bool>)
    requires Faithful(y) && |calls| == |bundle| == |fine|
    requires forall i :: 0 <= i < |calls| ==>
               calls[i].actor == actor && Bookkept(y, calls[i], bundle[i].1, before, bundle[i].0)
    requires forall i :: 0 <= i < |calls| ==> fine[i] == Admissible(y, calls[i], max)
    ensures var judge := Judging(y, before, max, actor);
            forall i :: 0 <= i < |bundle| ==> (judge(bundle[i].0, bundle[i].1) == [] <==> fine[i])
  {
    forall i | 0 <= i < |calls|
      ensures Judging(y, before, max, actor)(bundle[i].0, bundle[i].1) == [] <==> fine[i]
    {
      JudgedAlone(y, calls[i], bundle[i].1, before, bundle[i].0, max);
    }
  }

  /**
   The policy reports nothing of a bundle of bookkept documents if and only if every one of them is
   admissible and no concept of the old bundle is gone. `errors` is what `JudgeBundle` returns.
   */
  lemma BookkeptBundlePasses<T(!new)>(y: Yaml<T>, bundle: seq<(string, Doc<T>)>, calls: seq<Call<T>>,
                                      before: map<string, State>, max: Option<int>, actor: string,
                                      errors: seq<(string, Error)>)
    requires Faithful(y) && |calls| == |bundle|
    requires forall i :: 0 <= i < |calls| ==>
               calls[i].actor == actor && Bookkept(y, calls[i], bundle[i].1, before, bundle[i].0)
    requires forall p :: p in errors <==> Wrong(Judging(y, before, max, actor), bundle, before.Keys, p.0, p.1)
    ensures errors == [] <==>
            (forall i :: 0 <= i < |calls| ==> Admissible(y, calls[i], max)) && before.Keys <= Paths(bundle)
  {
    BookkeptConceptsPass(y, bundle, calls, before, max, actor);
    NothingReported(Judging(y, before, max, actor), bundle, before.Keys, errors);
  }

  lemma NothingReported<T>(judge: (string, Doc<T>) -> seq<Error>, bundle: seq<(string, Doc<T>)>, known: set<string>,
                           errors: seq<(string, Error)>)
    requires forall p :: p in errors <==> Wrong(judge, bundle, known, p.0, p.1)
    ensures errors == [] <==> (forall rel, e :: !Found(judge, bundle, rel, e)) && known <= Paths(bundle)
  {
    if errors == [] {
      forall rel, e ensures !Found(judge, bundle, rel, e) && !Wrong(judge, bundle, known, rel, e) {
        assert (rel, e) !in errors;
      }
      forall rel | rel in known ensures rel in Paths(bundle) {
        assert (rel, Deleted) !in errors && !Wrong(judge, bundle, known, rel, Deleted);
      }
    } else {
      assert errors[0] in errors;
    }
  }
}
