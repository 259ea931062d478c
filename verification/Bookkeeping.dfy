/**
 Service-owned bookkeeping (`apply_bookkeeping`): an editor hands in a document; the keys that the
 service owns go back to what they were, a substantive edit is stamped with trusted time past every
 recorded event, and an audit's verdict is noted. `T` is the text of a frontmatter block.

 Times count microseconds. What YAML reads in a block, and how a stamp is written, are given by `Yaml`.
 */
module Bookkeeping {
  import opened Prelude
  import opened Spill
  import opened Frontmatter

  /** A `{by, at}` mapping: `actor` is its `by`, `at` is its instant if it has a valid one, `raw` its text, `extra` the rest. */
  datatype Event = Event(actor: string, at: Option<int>, raw: string, extra: string)

  datatype Value = Null | Str(s: string) | Map(entry: Event) | List(items: seq<Value>) | Other(s: string)

  type Fields = map<string, Value>

  /**
   `text` reads a block with timestamps left as text, `safe` with timestamps as times. `generated`,
   `event` and `status` write a block, in the style of the template that they are given.
   */
  datatype Yaml<!T> = Yaml(
    text: T -> Value, safe: T -> Value,
    generated: (Option<T>, string, int) -> T, event: (Option<T>, string, int) -> T, status: string -> T)

  datatype Doc<T> = Doc(blocks: Blocks<T>, body: seq<Line>)

  // ----- reading ---------------------------------------------------------------------------

  function KeySet<T>(blocks: Blocks<T>): set<string> {
    set i | 0 <= i < |blocks| && blocks[i].key.Some? :: blocks[i].key.value
  }

  function ValueAt<T>(read: T -> Value, blocks: Blocks<T>, key: string): Option<Value> {
    var lines := Lines(blocks, key);
    if lines.Some? then Some(read(lines.value)) else None
  }

  /** The mapping a loader makes of the frontmatter, without the given keys. */
  function Loaded<T>(read: T -> Value, blocks: Blocks<T>, without: seq<string>): (r: Fields)
    ensures forall k :: Get(r, k) == if k in without then None else ValueAt(read, blocks, k)
  {
    KeySetIs(blocks);
    map k | k in KeySet(blocks) && k !in without :: read(Lines(blocks, k).value)
  }

  lemma KeySetIs<T>(blocks: Blocks<T>)
    ensures forall k :: k in KeySet(blocks) <==> Lines(blocks, k).Some?
  {
    forall k ensures k in KeySet(blocks) <==> Some(k) in Keys(blocks) {
      if Some(k) in Keys(blocks) {
        var i :| 0 <= i < |blocks| && Keys(blocks)[i] == Some(k);
        assert blocks[i].key.value == k;
      }
      if k in KeySet(blocks) {
        var i :| 0 <= i < |blocks| && blocks[i].key.Some? && blocks[i].key.value == k;
        assert Keys(blocks)[i] == Some(k);
      }
    }
  }

  /** `normalize_verified`: a bare event is a list of one; what is no mapping is no event. */
  function EventsOf(v: Option<Value>): seq<Event> {
    match v
    case Some(Map(e)) => [e]
    case Some(List(items)) => Mappings(items)
    case _ => []
  }

  function Mappings(items: seq<Value>): seq<Event> {
    if items == [] then []
    else (if items[0].Map? then [items[0].entry] else []) + Mappings(items[1..])
  }

  function EntryOf(v: Option<Value>): Option<Event> {
    if v.Some? && v.value.Map? then Some(v.value.entry) else None
  }

  function GeneratedAt(f: Fields): Option<int> {
    var e := EntryOf(Get(f, "generated"));
    if e.Some? then e.value.at else None
  }

  function GeneratedBy(f: Fields): string {
    var e := EntryOf(Get(f, "generated"));
    if e.Some? then e.value.actor else ""
  }

  function History(f: Fields): seq<Event> {
    EventsOf(Get(f, "verified"))
  }

  /**
   `current_verified`: the events that confirm the current generation. `ownAfter` is the delay before an
   author that is no person may confirm its own generation; None is the plain OKF rule.
   */
  function CurrentVerified(f: Fields, ownAfter: Option<nat>): seq<Event> {
    if GeneratedAt(f) == None then History(f)
    else
      var at, author := GeneratedAt(f).value, GeneratedBy(f);
      var own := if ownAfter.Some? && author != "" && !("human:" <= author) then at + ownAfter.value else at;
      NotBeforeOwn(History(f), author, at, own)
  }

  function NotBeforeOwn(events: seq<Event>, author: string, at: int, own: int): seq<Event> {
    if events == [] then []
    else
      var e := events[0];
      (if e.at.Some? && e.at.value >= (if e.actor == author then own else at) then [e] else [])
      + NotBeforeOwn(events[1..], author, at, own)
  }

  // ----- trusted time ----------------------------------------------------------------------

  const SECOND := 1_000_000

  function Seconds(t: int): int {
    t - t % SECOND
  }

  /** `_not_before`: trusted time in whole seconds, moved past a recorded event when necessary. */
  function NotBefore(now: int, floor: Option<int>, strictly: bool): int {
    var stamp := Seconds(now);
    if floor.Some? && (if strictly then stamp <= floor.value else stamp < floor.value) then
      var s := Seconds(floor.value);
      if s < floor.value || strictly then s + SECOND else s
    else stamp
  }

  function Later(a: Option<int>, b: Option<int>): Option<int> {
    if a == None then b else if b == None then a else if a.value < b.value then b else a
  }

  function Latest(events: seq<Event>): Option<int> {
    if events == [] then None else Later(events[0].at, Latest(events[1..]))
  }

  /** The latest instant that the document records. */
  function Floor(f: Fields): Option<int> {
    Later(GeneratedAt(f), Latest(History(f)))
  }

  // ----- one call --------------------------------------------------------------------------

  datatype Stage = Curate | AuditPass | Changeset | Review

  predicate Audits(st: Stage) {
    st == AuditPass || st == Review
  }

  function ServiceKeys(st: Stage): seq<string> {
    match st
    case Curate => ["verified", "generated"]
    case AuditPass => ["verified", "generated", "status", "sources"]
    case Changeset => ["verified", "generated", "status"]
    case Review => ["verified", "generated", "status", "sources", "type", "title", "stale_after"]
  }

  /** The fields of an event that an editor may drop to column 0. */
  const EVENT_FIELDS := ["by", "at"]

  /** `verdict` is Some(true) for verified and Some(false) for unverified. */
  datatype Call<T> = Call(before: Option<Doc<T>>, after: Doc<T>, actor: string, now: int, stage: Stage,
                          verdict: Option<bool>, deprecate: bool)

  predicate Proper<T>(c: Call<T>) {
    && (c.verdict.Some? ==> Audits(c.stage))
    && (c.before == None ==> !Audits(c.stage) && !c.deprecate)
    && (c.deprecate ==> c.stage == Changeset)
  }

  function BeforeBlocks<T>(c: Call<T>): Blocks<T> {
    if c.before.Some? then c.before.value.blocks else []
  }

  function BeforeBody<T>(c: Call<T>): seq<Line> {
    if c.before.Some? then c.before.value.body else []
  }

  function Order<T>(c: Call<T>): seq<string> {
    Written(if BeforeBlocks(c) != [] then BeforeBlocks(c) else c.after.blocks)
  }

  function Prior<T>(y: Yaml<T>, c: Call<T>): Fields {
    Loaded(y.safe, BeforeBlocks(c), [])
  }

  /** The status that the service insists on, if it does. */
  function OwnedStatus<T>(y: Yaml<T>, c: Call<T>): Option<string> {
    if Audits(c.stage) then
      Some(if Get(Prior(y, c), "status") == Some(Str("deprecated")) then "deprecated" else "stable")
    else if c.stage != Changeset then None
    else if c.deprecate then Some("deprecated")
    else if c.before == None then Some("draft")
    else None
  }

  function RestoreKeys<T>(blocks: Blocks<T>, before: Blocks<T>, keys: seq<string>, order: seq<string>): Blocks<T>
    decreases |keys|
  {
    if keys == [] then blocks
    else RestoreKeys(Put(blocks, keys[0], Lines(before, keys[0]), order), before, keys[1..], order)
  }

  predicate IsStray<T>(b: Block<T>, before: Blocks<T>) {
    b.key.Some? && b.key.value in EVENT_FIELDS && b.key !in Keys(before)
  }

  function WithoutStray<T>(blocks: Blocks<T>, before: Blocks<T>): Blocks<T> {
    if blocks == [] then []
    else (if IsStray(blocks[0], before) then [] else [blocks[0]]) + WithoutStray(blocks[1..], before)
  }

  /** The edit with the service's keys as they were before it. */
  function Restored<T>(c: Call<T>): Blocks<T> {
    WithoutStray(RestoreKeys(c.after.blocks, BeforeBlocks(c), ServiceKeys(c.stage), Order(c)), BeforeBlocks(c))
  }

  /** `_signature`: what counts as knowledge. */
  function Signature<T>(y: Yaml<T>, blocks: Blocks<T>, body: seq<Line>, st: Stage): (Fields, seq<string>) {
    (Loaded(y.text, blocks, ServiceKeys(st)), Normalize(body))
  }

  predicate Substantive<T>(y: Yaml<T>, c: Call<T>) {
    || c.before == None
    || Signature(y, Restored(c), c.after.body, c.stage) != Signature(y, BeforeBlocks(c), BeforeBody(c), c.stage)
  }

  function OrElse<T>(a: Option<T>, b: Option<T>): Option<T> {
    if a.Some? then a else b
  }

  /** A reviewer found a version unsupported that is verified by the plain OKF rule. */
  predicate Unverifies<T>(y: Yaml<T>, c: Call<T>) {
    c.stage == Review && c.verdict == Some(false) && CurrentVerified(Prior(y, c), None) != []
  }

  function Stamp<T>(y: Yaml<T>, c: Call<T>): Option<int> {
    if Substantive(y, c) || Unverifies(y, c) then Some(NotBefore(c.now, Floor(Prior(y, c)), true)) else None
  }

  function Stamped<T>(y: Yaml<T>, c: Call<T>, blocks: Blocks<T>): Blocks<T> {
    if Substantive(y, c) then
      var template := OrElse(Lines(BeforeBlocks(c), "generated"), Lines(c.after.blocks, "generated"));
      Put(blocks, "generated", Some(y.generated(template, c.actor, Stamp(y, c).value)), Order(c))
    else if Unverifies(y, c) then
      var author := if GeneratedBy(Prior(y, c)) != "" then GeneratedBy(Prior(y, c)) else c.actor;
      Put(blocks, "generated", Some(y.generated(Lines(blocks, "generated"), author, Stamp(y, c).value)), Order(c))
    else blocks
  }

  function WithStatus<T>(y: Yaml<T>, c: Call<T>, blocks: Blocks<T>): Blocks<T> {
    var status := OwnedStatus(y, c);
    if status.Some? && ValueAt(y.text, blocks, "status") != Some(Str(status.value))
    then Put(blocks, "status", Some(y.status(status.value)), Order(c))
    else blocks
  }

  /** The time of a verification event: never before the generation that it confirms. */
  function EventAt<T>(y: Yaml<T>, c: Call<T>): int {
    if Stamp(y, c).Some? then Stamp(y, c).value else NotBefore(c.now, GeneratedAt(Prior(y, c)), false)
  }

  function WithVerdict<T>(y: Yaml<T>, c: Call<T>, blocks: Blocks<T>): Blocks<T> {
    if c.verdict == Some(true)
    then Put(blocks, "verified", Some(y.event(Lines(blocks, "verified"), c.actor, EventAt(y, c))), Order(c))
    else blocks
  }

  function BaseBlocks<T>(y: Yaml<T>, c: Call<T>): Blocks<T> {
    if Substantive(y, c) then Restored(c) else BeforeBlocks(c)
  }

  function BaseBody<T>(y: Yaml<T>, c: Call<T>): seq<Line> {
    if Substantive(y, c) then c.after.body else BeforeBody(c)
  }

  /** The frontmatter that is written back, unless the edit is dropped whole. */
  function FinalBlocks<T>(y: Yaml<T>, c: Call<T>): Blocks<T> {
    WithVerdict(y, c, WithStatus(y, c, Stamped(y, c, BaseBlocks(y, c))))
  }

  /** Keys of spilled lines that are neither bookkeeping nor present: dropping them would lose content. */
  function Displaced<T>(y: Yaml<T>, c: Call<T>): set<string> {
    var spilled := Spilled(BaseBody(y, c));
    (set i | 0 <= i < |spilled| && spilled[i].key.Some? :: spilled[i].key.value)
    - (set k | k in ServiceKeys(c.stage)) - KeySet(FinalBlocks(y, c))
  }

  /** The edit is thrown away and the document stays byte for byte what it was. */
  predicate Discards<T>(y: Yaml<T>, c: Call<T>) {
    !Substantive(y, c) && !Audits(c.stage) && !c.deprecate
  }

  datatype Notice = GeneratedRestored | FormattingDiscarded

  datatype Repairs<T> = Repairs(restored: seq<string>, stray: seq<T>, notice: Option<Notice>,
                                editorSpill: multiset<Line>, removedSpill: multiset<Line>)

  /** `edited == status`, with None matching a YAML null as it does in the program. */
  predicate IsOwned(edited: Option<Value>, status: Option<string>) {
    if status.Some? then edited == Some(Str(status.value)) else edited == Some(Null)
  }

  function RestoredKeys<T>(y: Yaml<T>, c: Call<T>, keys: seq<string>): seq<string> {
    if keys == [] then []
    else
      var init, key := keys[..|keys| - 1], keys[|keys| - 1];
      var edited := ValueAt(y.text, c.after.blocks, key);
      RestoredKeys(y, c, init) +
      if key != "generated" && edited != ValueAt(y.text, BeforeBlocks(c), key)
         && !(key == "status" && IsOwned(edited, OwnedStatus(y, c)))
      then [key] else []
  }

  function StrayTexts<T>(blocks: Blocks<T>, before: Blocks<T>): seq<T> {
    if blocks == [] then []
    else (if IsStray(blocks[0], before) then [blocks[0].text] else []) + StrayTexts(blocks[1..], before)
  }

  function NoticeOf<T(==)>(y: Yaml<T>, c: Call<T>): Option<Notice> {
    if Substantive(y, c) then None
    else if ValueAt(y.text, c.after.blocks, "generated") != ValueAt(y.text, BeforeBlocks(c), "generated")
    then Some(GeneratedRestored)
    else if Restored(c) != BeforeBlocks(c) || Rest(c.after.body) != Rest(BeforeBody(c))
    then Some(FormattingDiscarded)
    else None
  }

  function RepairsOf<T(==)>(y: Yaml<T>, c: Call<T>): Repairs<T> {
    var all := RestoreKeys(c.after.blocks, BeforeBlocks(c), ServiceKeys(c.stage), Order(c));
    var editorSpill := multiset(Spilled(c.after.body)) - multiset(Spilled(BeforeBody(c)));
    Repairs(RestoredKeys(y, c, ServiceKeys(c.stage)), StrayTexts(all, BeforeBlocks(c)), NoticeOf(y, c), editorSpill,
            if Discards(y, c) then multiset{}
            else if Substantive(y, c) then multiset(Spilled(c.after.body)) - editorSpill
            else multiset(Spilled(BeforeBody(c))))
  }

  datatype Result<T> = Applied(doc: Doc<T>, repairs: Repairs<T>) | Rejected(displaced: set<string>)

  function Apply<T(==)>(y: Yaml<T>, c: Call<T>): Result<T>
    requires Proper(c)
  {
    if Discards(y, c) then Applied(c.before.value, RepairsOf(y, c))
    else if Displaced(y, c) != {} then Rejected(Displaced(y, c))
    else Applied(Doc(FinalBlocks(y, c), Rest(BaseBody(y, c))), RepairsOf(y, c))
  }

  // ----- the program -----------------------------------------------------------------------

  lemma RestoreKeysSnoc<T>(blocks: Blocks<T>, before: Blocks<T>, keys: seq<string>, key: string, order: seq<string>)
    ensures RestoreKeys(blocks, before, keys + [key], order) ==
            Put(RestoreKeys(blocks, before, keys, order), key, Lines(before, key), order)
    decreases |keys|
  {
    if keys == [] {
      assert keys + [key] == [key] && [key][1..] == [];
    } else {
      assert (keys + [key])[0] == keys[0] && (keys + [key])[1..] == keys[1..] + [key];
      RestoreKeysSnoc(Put(blocks, keys[0], Lines(before, keys[0]), order), before, keys[1..], key, order);
    }
  }

  lemma {:induction false} StraySnoc<T>(blocks: Blocks<T>, b: Block<T>, before: Blocks<T>)
    ensures WithoutStray(blocks + [b], before) ==
            WithoutStray(blocks, before) + if IsStray(b, before) then [] else [b]
    ensures StrayTexts(blocks + [b], before) ==
            StrayTexts(blocks, before) + if IsStray(b, before) then [b.text] else []
    decreases |blocks|
  {
    if blocks == [] {
      assert blocks + [b] == [b] && [b][1..] == [];
    } else {
      assert (blocks + [b])[0] == blocks[0] && (blocks + [b])[1..] == blocks[1..] + [b];
      StraySnoc(blocks[1..], b, before);
    }
  }

  lemma RestoredKeysSnoc<T>(y: Yaml<T>, c: Call<T>, keys: seq<string>, key: string)
    ensures RestoredKeys(y, c, keys + [key]) == RestoredKeys(y, c, keys) +
            var edited := ValueAt(y.text, c.after.blocks, key);
            if key != "generated" && edited != ValueAt(y.text, BeforeBlocks(c), key)
               && !(key == "status" && IsOwned(edited, OwnedStatus(y, c)))
            then [key] else []
  {
    assert (keys + [key])[..|keys|] == keys;
  }

  /** The loop over the service's keys. */
  method RestoreOwned<T(==)>(y: Yaml<T>, c: Call<T>, service: seq<string>, order: seq<string>)
    returns (all: Blocks<T>, keys: seq<string>)
    ensures all == RestoreKeys(c.after.blocks, BeforeBlocks(c), service, order)
    ensures keys == RestoredKeys(y, c, service)
  {
    all, keys := c.after.blocks, [];
    var before := BeforeBlocks(c);
    for i := 0 to |service|
      invariant all == RestoreKeys(c.after.blocks, before, service[..i], order)
      invariant keys == RestoredKeys(y, c, service[..i])
    {
      var key := service[i];
      assert service[..i + 1] == service[..i] + [key];
      RestoreKeysSnoc(c.after.blocks, before, service[..i], key, order);
      RestoredKeysSnoc(y, c, service[..i], key);
      var edited := ValueAt(y.text, c.after.blocks, key);
      if key != "generated" && edited != ValueAt(y.text, before, key)
         && !(key == "status" && IsOwned(edited, OwnedStatus(y, c))) {
        keys := keys + [key];
      }
      all := PutBlock(all, key, Lines(before, key), order);
    }
    assert service[..|service|] == service;
  }

  /** The loop over stray event fields. */
  method DropStray<T>(all: Blocks<T>, before: Blocks<T>) returns (restored: Blocks<T>, stray: seq<T>)
    ensures restored == WithoutStray(all, before) && stray == StrayTexts(all, before)
  {
    restored, stray := [], [];
    for i := 0 to |all|
      invariant restored == WithoutStray(all[..i], before)
      invariant stray == StrayTexts(all[..i], before)
    {
      assert all[..i + 1] == all[..i] + [all[i]];
      StraySnoc(all[..i], all[i], before);
      if IsStray(all[i], before) {
        stray := stray + [all[i].text];
      } else {
        restored := restored + [all[i]];
      }
    }
    assert all[..|all|] == all;
  }

  method RestoreService<T(==)>(y: Yaml<T>, c: Call<T>) returns (restored: Blocks<T>, keys: seq<string>, stray: seq<T>)
    ensures restored == Restored(c)
    ensures keys == RestoredKeys(y, c, ServiceKeys(c.stage))
    ensures stray == StrayTexts(RestoreKeys(c.after.blocks, BeforeBlocks(c), ServiceKeys(c.stage), Order(c)), BeforeBlocks(c))
  {
    var all;
    all, keys := RestoreOwned(y, c, ServiceKeys(c.stage), Order(c));
    restored, stray := DropStray(all, BeforeBlocks(c));
  }

  /** The stamp on the generation, if one is due. */
  method StampGeneration<T(==)>(y: Yaml<T>, c: Call<T>, base: Blocks<T>, substantive: bool)
    returns (blocks: Blocks<T>, stamp: Option<int>)
    requires substantive == Substantive(y, c)
    ensures stamp == Stamp(y, c) && blocks == Stamped(y, c, base)
  {
    var prior := Prior(y, c);
    blocks, stamp := base, None;
    if substantive {
      stamp := Some(NotBefore(c.now, Floor(prior), true));
      var template := OrElse(Lines(BeforeBlocks(c), "generated"), Lines(c.after.blocks, "generated"));
      blocks := PutBlock(base, "generated", Some(y.generated(template, c.actor, stamp.value)), Order(c));
    } else if c.stage == Review && c.verdict == Some(false) && CurrentVerified(prior, None) != [] {
      stamp := Some(NotBefore(c.now, Floor(prior), true));
      var author := if GeneratedBy(prior) != "" then GeneratedBy(prior) else c.actor;
      blocks := PutBlock(base, "generated", Some(y.generated(Lines(base, "generated"), author, stamp.value)), Order(c));
    }
  }

  /** The status the service insists on, and the audit's verdict. */
  method MarkAudit<T(==)>(y: Yaml<T>, c: Call<T>, base: Blocks<T>, stamp: Option<int>) returns (blocks: Blocks<T>)
    requires stamp == Stamp(y, c)
    ensures blocks == WithVerdict(y, c, WithStatus(y, c, base))
  {
    blocks := base;
    var status := OwnedStatus(y, c);
    if status.Some? && ValueAt(y.text, blocks, "status") != Some(Str(status.value)) {
      blocks := PutBlock(blocks, "status", Some(y.status(status.value)), Order(c));
    }
    if c.verdict == Some(true) {
      var at := if stamp.Some? then stamp.value else NotBefore(c.now, GeneratedAt(Prior(y, c)), false);
      blocks := PutBlock(blocks, "verified", Some(y.event(Lines(blocks, "verified"), c.actor, at)), Order(c));
    }
  }

  method ApplyBookkeeping<T(==)>(y: Yaml<T>, c: Call<T>) returns (r: Result<T>)
    requires Proper(c)
    ensures r == Apply(y, c)
  {
    var before, beforeBody := BeforeBlocks(c), BeforeBody(c);
    var restored, keys, stray := RestoreService(y, c);
    var afterSpill, afterRest := SplitBodySpill(c.after.body);
    var beforeSpill, beforeRest := SplitBodySpill(beforeBody);
    var editorSpill := multiset(afterSpill) - multiset(beforeSpill);
    var substantive := c.before == None
      || Signature(y, restored, c.after.body, c.stage) != Signature(y, before, beforeBody, c.stage);
    var blocks, notice := restored, None;
    if !substantive {
      if ValueAt(y.text, c.after.blocks, "generated") != ValueAt(y.text, before, "generated") {
        notice := Some(GeneratedRestored);
      } else if restored != before || afterRest != beforeRest {
        notice := Some(FormattingDiscarded);
      }
      if !Audits(c.stage) && !c.deprecate {
        return Applied(c.before.value, Repairs(keys, stray, notice, editorSpill, multiset{}));
      }
      blocks := before;
    }
    var stamp;
    blocks, stamp := StampGeneration(y, c, blocks, substantive);
    blocks := MarkAudit(y, c, blocks, stamp);
    var spilled := if substantive then afterSpill else beforeSpill;
    var displaced := (set i | 0 <= i < |spilled| && spilled[i].key.Some? :: spilled[i].key.value)
      - (set k | k in ServiceKeys(c.stage)) - KeySet(blocks);
    if displaced != {} {
      return Rejected(displaced);
    }
    var removed := if substantive then multiset(afterSpill) - editorSpill else multiset(beforeSpill);
    r := Applied(Doc(blocks, if substantive then afterRest else beforeRest),
                 Repairs(keys, stray, notice, editorSpill, removed));
  }
}
