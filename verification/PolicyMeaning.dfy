/** What a clean report of the policy guarantees of a bundle, whoever wrote its documents. */
module PolicyMeaning {
  import opened Prelude
  import opened Spill
  import opened Frontmatter
  import opened Bookkeeping
  import opened BookkeepingLaws
  import opened BookkeepingMeaning
  import opened Policy

  /** The value of a key as the policy's loader reads it. */
  function At<T>(y: Yaml<T>, doc: Doc<T>, key: string): Option<Value> {
    var text := Lines(doc.blocks, key);
    if text.Some? then Some(y.safe(text.value)) else None
  }

  /** Who generated this version, when, and in what words; a missing `generated` is a null one. */
  function Generation<T>(y: Yaml<T>, doc: Doc<T>): Value {
    if At(y, doc, "generated").Some? then At(y, doc, "generated").value else Null
  }

  function Instant<T>(y: Yaml<T>, doc: Doc<T>): Option<int> {
    if Generation(y, doc).Map? then Generation(y, doc).entry.at else None
  }

  function Author<T>(y: Yaml<T>, doc: Doc<T>): Option<string> {
    if Generation(y, doc).Map? then Some(Generation(y, doc).entry.actor) else None
  }

  /** The document records this verification. */
  ghost predicate Records<T>(y: Yaml<T>, doc: Doc<T>, actor: string, raw: string) {
    exists e :: e in EventsOf(At(y, doc, "verified")) && e.actor == actor && e.raw == raw
  }

  ghost predicate SameRecords<T>(y: Yaml<T>, a: Doc<T>, b: Doc<T>) {
    forall actor, raw :: Records(y, a, actor, raw) <==> Records(y, b, actor, raw)
  }

  /** The same values of every key but the two of the bookkeeping, and the same body. */
  ghost predicate SameContent<T>(y: Yaml<T>, a: Doc<T>, b: Doc<T>) {
    && (forall k :: k != "generated" && k != "verified" ==> At(y, a, k) == At(y, b, k))
    && Parsed(a.body) == Parsed(b.body)
  }

  /** The event confirms the present generation: at once, or after half a day when a program confirms its own work. */
  predicate Confirms(e: Event, at: Option<int>, author: Option<string>) {
    at.Some? ==>
      && e.at.Some?
      && e.at.value >= at.value +
           if author == Some(e.actor) && e.actor != "" && !("human:" <= e.actor) then 43_200 * 1_000_000 else 0
  }

  ghost predicate Confirmed<T>(y: Yaml<T>, doc: Doc<T>) {
    exists e :: e in EventsOf(At(y, doc, "verified")) && Confirms(e, Instant(y, doc), Author(y, doc))
  }

  predicate Past(at: Option<int>, max: Option<int>) {
    at.Some? && max.Some? && at.value > max.value
  }

  predicate Advances(from: Option<int>, to: Option<int>) {
    from.Some? && to.Some? && from.value < to.value
  }

  /** When each error is due, given the document as it was before the pass, if it was there. */
  ghost predicate Deserves<T>(y: Yaml<T>, prior: Option<Doc<T>>, doc: Doc<T>, max: Option<int>, actor: string, e: Error) {
    var known := prior.Some?;
    var regenerated := known && Generation(y, doc) != Generation(y, prior.value);
    var relearned := known && !SameContent(y, prior.value, doc);
    match e
    case NotDraft => !known && At(y, doc, "status") != Some(Str("draft"))
    case VerifiesNew => !known && EventsOf(At(y, doc, "verified")) != []
    case NewAuthor => !known && Author(y, doc) != Some(actor)
    case Future => (known ==> regenerated) && Past(Instant(y, doc), max)
    case HistoryChanged => known && !SameRecords(y, prior.value, doc)
    case Unearned => regenerated && !relearned
    case ChangedAuthor => regenerated && Author(y, doc) != Some(actor)
    case SubstantiveAuthor => relearned && Author(y, doc) != Some(actor)
    case NotAdvanced => relearned && !Advances(Instant(y, prior.value), Instant(y, doc))
    case StillVerified => relearned && Confirmed(y, doc)
    case Deleted => false
  }

  lemma EventSetMeans(events: seq<Event>, actor: string, raw: string)
    ensures (actor, raw) in EventSet(events) <==> exists e :: e in events && e.actor == actor && e.raw == raw
  {
    if (actor, raw) in EventSet(events) {
      var i :| 0 <= i < |events| && (events[i].actor, events[i].raw) == (actor, raw);
      assert events[i] in events;
    }
  }

  lemma SameEventSets<T>(y: Yaml<T>, a: Doc<T>, b: Doc<T>)
    ensures Snapshot(y, a).events == Snapshot(y, b).events <==> SameRecords(y, a, b)
  {
    var e, f := Snapshot(y, a).events, Snapshot(y, b).events;
    forall actor, raw
      ensures (actor, raw) in e <==> Records(y, a, actor, raw)
      ensures (actor, raw) in f <==> Records(y, b, actor, raw)
    {
      EventSetMeans(History(Read(y, a)), actor, raw);
      EventSetMeans(History(Read(y, b)), actor, raw);
    }
    if SameRecords(y, a, b) {
      forall p ensures p in e <==> p in f { assert p == (p.0, p.1); }
    }
  }

  lemma SameKnowledgeMeans<T>(y: Yaml<T>, a: Doc<T>, b: Doc<T>)
    ensures Snapshot(y, a).knowledge == Snapshot(y, b).knowledge <==> SameContent(y, a, b)
  {
    var f, g := Loaded(y.safe, a.blocks, BOOKKEEPING), Loaded(y.safe, b.blocks, BOOKKEEPING);
    assert BOOKKEEPING == ["generated", "verified"];
    assert forall k :: Get(f, k) == if k == "generated" || k == "verified" then None else At(y, a, k);
    assert forall k :: Get(g, k) == if k == "generated" || k == "verified" then None else At(y, b, k);
    if SameContent(y, a, b) { SameMap(f, g); }
  }

  lemma ReadMeans<T>(y: Yaml<T>, doc: Doc<T>)
    ensures var f, s := Read(y, doc), Snapshot(y, doc);
            && (forall k :: Get(f, k) == At(y, doc, k))
            && GeneratedAt(f) == Instant(y, doc) == s.at && s.generated == Generation(y, doc)
            && History(f) == EventsOf(At(y, doc, "verified"))
            && (forall actor :: WrittenBy(f, actor) <==> Author(y, doc) == Some(actor))
            && GeneratedBy(f) == (if Author(y, doc).Some? then Author(y, doc).value else "")
  {}

  lemma ConfirmedMeans<T>(y: Yaml<T>, doc: Doc<T>)
    ensures CurrentVerified(Read(y, doc), Some(SELF_REVIEW_DELAY)) != [] <==> Confirmed(y, doc)
  {
    var f := Read(y, doc);
    var current := CurrentVerified(f, Some(SELF_REVIEW_DELAY));
    ReadMeans(y, doc);
    forall e ensures e in current <==> e in History(f) && Confirms(e, Instant(y, doc), Author(y, doc)) {
      CurrentMeans(f, Some(SELF_REVIEW_DELAY), e);
    }
    if current != [] { assert current[0] in current; }
  }

  lemma NoEventSet<T>(y: Yaml<T>, doc: Doc<T>)
    ensures Snapshot(y, doc).events == {} <==> EventsOf(At(y, doc, "verified")) == []
  {
    var events := History(Read(y, doc));
    if events != [] { assert (events[0].actor, events[0].raw) in EventSet(events); }
  }

  lemma NewErrors(f: Fields, now: State, max: Option<int>, actor: string, e: Error)
    ensures e in JudgeNew(f, now, max, actor) <==>
            || (e == NotDraft && Get(f, "status") != Some(Str("draft")))
            || (e == VerifiesNew && now.events != {})
            || (e == NewAuthor && !WrittenBy(f, actor))
            || (e == Future && Exceeds(now.at, max))
  {}

  lemma KnownErrors(f: Fields, prior: State, now: State, max: Option<int>, actor: string, e: Error)
    ensures var regenerated, relearned := now.generated != prior.generated, now.knowledge != prior.knowledge;
            e in JudgeKnown(f, prior, now, max, actor) <==>
            || (e == HistoryChanged && now.events != prior.events)
            || (e == Unearned && regenerated && !relearned)
            || (e == ChangedAuthor && regenerated && !WrittenBy(f, actor))
            || (e == Future && regenerated && Exceeds(now.at, max))
            || (e == SubstantiveAuthor && relearned && !WrittenBy(f, actor))
            || (e == NotAdvanced && relearned && (prior.at == None || now.at == None || now.at.value <= prior.at.value))
            || (e == StillVerified && relearned && CurrentVerified(f, Some(SELF_REVIEW_DELAY)) != [])
  {}

  lemma JudgeNewMeans<T>(y: Yaml<T>, doc: Doc<T>, max: Option<int>, actor: string, e: Error)
    ensures e in Judge(y, None, doc, max, actor) <==> Deserves(y, None, doc, max, actor, e)
  {
    ReadMeans(y, doc);
    NoEventSet(y, doc);
    NewErrors(Read(y, doc), Snapshot(y, doc), max, actor, e);
  }

  lemma JudgeKnownMeans<T>(y: Yaml<T>, prior: Doc<T>, doc: Doc<T>, max: Option<int>, actor: string, e: Error)
    ensures e in Judge(y, Some(Snapshot(y, prior)), doc, max, actor) <==> Deserves(y, Some(prior), doc, max, actor, e)
  {
    var f, was, now := Read(y, doc), Snapshot(y, prior), Snapshot(y, doc);
    ReadMeans(y, doc);
    ReadMeans(y, prior);
    ConfirmedMeans(y, doc);
    SameEventSets(y, prior, doc);
    SameKnowledgeMeans(y, prior, doc);
    KnownErrors(f, was, now, max, actor, e);
    assert WrittenBy(f, actor) <==> Author(y, doc) == Some(actor);
    DueFrom(y, prior, doc, max, actor, e);
  }

  /** The errors of a known concept, one by one. */
  lemma DueFrom<T>(y: Yaml<T>, prior: Doc<T>, doc: Doc<T>, max: Option<int>, actor: string, e: Error)
    ensures var regenerated, relearned := Generation(y, doc) != Generation(y, prior), !SameContent(y, prior, doc);
            Deserves(y, Some(prior), doc, max, actor, e) <==>
            || (e == HistoryChanged && !SameRecords(y, prior, doc))
            || (e == Unearned && regenerated && !relearned)
            || (e == ChangedAuthor && regenerated && Author(y, doc) != Some(actor))
            || (e == Future && regenerated && Past(Instant(y, doc), max))
            || (e == SubstantiveAuthor && relearned && Author(y, doc) != Some(actor))
            || (e == NotAdvanced && relearned && !Advances(Instant(y, prior), Instant(y, doc)))
            || (e == StillVerified && relearned && Confirmed(y, doc))
  {}

  /** The judge of one concept reports exactly the errors that are due. */
  lemma JudgeMeans<T>(y: Yaml<T>, prior: Option<Doc<T>>, doc: Doc<T>, max: Option<int>, actor: string, e: Error)
    ensures e in Judge(y, if prior.Some? then Some(Snapshot(y, prior.value)) else None, doc, max, actor) <==>
            Deserves(y, prior, doc, max, actor, e)
  {
    match prior {
      case None => JudgeNewMeans(y, doc, max, actor, e);
      case Some(was) => JudgeKnownMeans(y, was, doc, max, actor, e);
    }
  }

  /**
   What the policy lets through. A new concept is a draft by the actor, unverified and not dated past the
   pass. A known one keeps its verification history; a new generation comes with new content, is the
   actor's and not dated past the pass; and new content has a later valid instant than the prior one, which
   no event of the history confirms.
   */
  ghost predicate Accepts<T>(y: Yaml<T>, prior: Option<Doc<T>>, doc: Doc<T>, max: Option<int>, actor: string) {
    if prior == None then
      && At(y, doc, "status") == Some(Str("draft")) && EventsOf(At(y, doc, "verified")) == []
      && Author(y, doc) == Some(actor) && !Past(Instant(y, doc), max)
    else
      && SameRecords(y, prior.value, doc)
      && (Generation(y, doc) != Generation(y, prior.value) ==>
            !SameContent(y, prior.value, doc) && Author(y, doc) == Some(actor) && !Past(Instant(y, doc), max))
      && (!SameContent(y, prior.value, doc) ==>
            && Author(y, doc) == Some(actor)
            && Advances(Instant(y, prior.value), Instant(y, doc)) && !Confirmed(y, doc))
  }

  lemma NewAccepts<T>(y: Yaml<T>, doc: Doc<T>, max: Option<int>, actor: string)
    ensures (forall e :: !Deserves(y, None, doc, max, actor, e)) <==> Accepts(y, None, doc, max, actor)
  {
    if forall e :: !Deserves(y, None, doc, max, actor, e) {
      assert !Deserves(y, None, doc, max, actor, NotDraft) && !Deserves(y, None, doc, max, actor, VerifiesNew)
          && !Deserves(y, None, doc, max, actor, NewAuthor) && !Deserves(y, None, doc, max, actor, Future);
    }
  }

  lemma KnownAccepts<T>(y: Yaml<T>, prior: Doc<T>, doc: Doc<T>, max: Option<int>, actor: string)
    ensures (forall e :: !Deserves(y, Some(prior), doc, max, actor, e)) <==> Accepts(y, Some(prior), doc, max, actor)
  {
    forall e ensures Accepts(y, Some(prior), doc, max, actor) ==> !Deserves(y, Some(prior), doc, max, actor, e) {
      DueFrom(y, prior, doc, max, actor, e);
    }
    if forall e :: !Deserves(y, Some(prior), doc, max, actor, e) {
      NotDue(y, prior, doc, max, actor, HistoryChanged);
      NotDue(y, prior, doc, max, actor, Unearned);
      NotDue(y, prior, doc, max, actor, ChangedAuthor);
      NotDue(y, prior, doc, max, actor, Future);
      NotDue(y, prior, doc, max, actor, SubstantiveAuthor);
      NotDue(y, prior, doc, max, actor, NotAdvanced);
      NotDue(y, prior, doc, max, actor, StillVerified);
    }
  }

  lemma NotDue<T>(y: Yaml<T>, prior: Doc<T>, doc: Doc<T>, max: Option<int>, actor: string, e: Error)
    requires !Deserves(y, Some(prior), doc, max, actor, e)
    ensures var regenerated, relearned := Generation(y, doc) != Generation(y, prior), !SameContent(y, prior, doc);
            && (e == HistoryChanged ==> SameRecords(y, prior, doc))
            && (e == Unearned ==> regenerated ==> relearned)
            && (e == ChangedAuthor ==> regenerated ==> Author(y, doc) == Some(actor))
            && (e == Future ==> regenerated ==> !Past(Instant(y, doc), max))
            && (e == SubstantiveAuthor ==> relearned ==> Author(y, doc) == Some(actor))
            && (e == NotAdvanced ==> relearned ==> Advances(Instant(y, prior), Instant(y, doc)))
            && (e == StillVerified ==> relearned ==> !Confirmed(y, doc))
  {
    DueFrom(y, prior, doc, max, actor, e);
  }

  lemma JudgeAccepts<T>(y: Yaml<T>, prior: Option<Doc<T>>, doc: Doc<T>, max: Option<int>, actor: string)
    ensures Judge(y, if prior.Some? then Some(Snapshot(y, prior.value)) else None, doc, max, actor) == [] <==>
            Accepts(y, prior, doc, max, actor)
  {
    var found := Judge(y, if prior.Some? then Some(Snapshot(y, prior.value)) else None, doc, max, actor);
    forall e ensures e in found <==> Deserves(y, prior, doc, max, actor, e) { JudgeMeans(y, prior, doc, max, actor, e); }
    match prior {
      case None => NewAccepts(y, doc, max, actor);
      case Some(was) => KnownAccepts(y, was, doc, max, actor);
    }
    if found != [] { assert found[0] in found; }
  }

  /** What the policy remembers is what the old bundle showed. */
  ghost predicate Remembers<T>(y: Yaml<T>, olds: map<string, Doc<T>>, before: map<string, State>) {
    before.Keys == olds.Keys && forall rel :: rel in olds ==> before[rel] == Snapshot(y, olds[rel])
  }

  /**
   The gate: of any bundle whatever, `JudgeBundle` reports nothing if and only if every document is one that
   the policy lets through over what stood under its path before, and no path is gone.
   */
  lemma CleanBundle<T>(y: Yaml<T>, bundle: seq<(string, Doc<T>)>, olds: map<string, Doc<T>>, before: map<string, State>,
                       max: Option<int>, actor: string, errors: seq<(string, Error)>)
    requires Remembers(y, olds, before)
    requires forall p :: p in errors <==> Wrong(Judging(y, before, max, actor), bundle, before.Keys, p.0, p.1)
    ensures errors == [] <==>
            && (forall i :: 0 <= i < |bundle| ==> Accepts(y, Get(olds, bundle[i].0), bundle[i].1, max, actor))
            && olds.Keys <= Paths(bundle)
  {
    var judge := Judging(y, before, max, actor);
    var fine := seq(|bundle|, i requires 0 <= i < |bundle| => judge(bundle[i].0, bundle[i].1) == []);
    NoneFound(judge, bundle, fine);
    NothingReported(judge, bundle, before.Keys, errors);
    forall i | 0 <= i < |bundle| ensures fine[i] <==> Accepts(y, Get(olds, bundle[i].0), bundle[i].1, max, actor) {
      JudgedOver(y, olds, before, bundle[i].0, bundle[i].1, max, actor);
    }
  }

  lemma JudgedOver<T>(y: Yaml<T>, olds: map<string, Doc<T>>, before: map<string, State>, rel: string, doc: Doc<T>,
                      max: Option<int>, actor: string)
    requires Remembers(y, olds, before)
    ensures Judging(y, before, max, actor)(rel, doc) == [] <==> Accepts(y, Get(olds, rel), doc, max, actor)
  {
    JudgeAccepts(y, Get(olds, rel), doc, max, actor);
  }
}
