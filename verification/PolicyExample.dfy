/**
 A small YAML for which the assumptions of the bookkeeping's laws hold, and one edit with it that the
 bookkeeping takes for a change of knowledge and the policy refuses.
 */
module PolicyExample {
  import opened Prelude
  import opened Spill
  import opened Frontmatter
  import opened Bookkeeping
  import opened BookkeepingLaws
  import opened BookkeepingIdempotence
  import opened Policy

  /** A text by what the two loaders read in it. */
  datatype Sheet = Sheet(textual: Value, meaning: Value)

  function Both(v: Value): Sheet {
    Sheet(v, v)
  }

  function AsMaps(events: seq<Event>): seq<Value> {
    if events == [] then [] else [Map(events[0])] + AsMaps(events[1..])
  }

  lemma {:induction false} MapsReadBack(events: seq<Event>)
    ensures Mappings(AsMaps(events)) == events
    decreases |events|
  {
    if events != [] {
      MapsReadBack(events[1..]);
      assert AsMaps(events)[1..] == AsMaps(events[1..]);
    }
  }

  function Append(t: Option<Sheet>, actor: string, at: int): Sheet {
    var earlier := EventsOf(if t.Some? then Some(t.value.meaning) else None);
    Both(List(AsMaps(earlier + [Event(actor, Some(at), "", "")])))
  }

  function Small(): Yaml<Sheet> {
    Yaml((s: Sheet) => s.textual, (s: Sheet) => s.meaning,
         (t, actor, at) => Both(Map(Event(actor, Some(at), "", ""))), Append, s => Both(Str(s)))
  }

  /** The laws of the bookkeeping are not empty: some YAML is faithful. */
  lemma SmallIsFaithful()
    ensures Faithful(Small())
  {
    var y := Small();
    forall t, actor, at ensures Appends(y, t, actor, at) {
      var earlier := EventsOf(if t.Some? then Some(y.safe(t.value)) else None);
      MapsReadBack(earlier + [Event(actor, Some(at), "", "")]);
    }
  }

  function Stale(spelling: string): Block<Sheet> {
    Block(Some("stale_after"), Sheet(Str(spelling), Other("2026-01-01T00:00:00")))
  }

  const DATED: Block<Sheet> := Block(Some("generated"), Both(Map(Event("human:ann", Some(0), "", ""))))

  /** One timestamp is written with a `T` where there was a space, and nothing else is changed. */
  function Respell(now: int): Call<Sheet> {
    Call(Some(Doc([DATED, Stale("2026-01-01 00:00:00")], [])), Doc([DATED, Stale("2026-01-01T00:00:00")], []),
         "process:curator", now, Changeset, None, false)
  }

  lemma LinesOfTwo(a: Block<Sheet>, b: Block<Sheet>, k: string)
    requires a.key != b.key
    ensures Lines([a, b], k) == if a.key == Some(k) then Some(a.text) else if b.key == Some(k) then Some(b.text) else None
  {
    assert [a, b] == [a] + [b] && [a] == [] + [a];
    LinesSnoc([a], b, k);
    LinesSnoc([], a, k);
  }

  lemma RespellReads(now: int, k: string)
    ensures var c := Respell(now);
            && ValueAt(Small().safe, Restored(c), k) == ValueAt(Small().safe, BeforeBlocks(c), k)
            && (k == "stale_after" ==> ValueAt(Small().text, Restored(c), k) != ValueAt(Small().text, BeforeBlocks(c), k))
  {
    var c := Respell(now);
    LinesRestored(c, k);
    LinesOfTwo(DATED, Stale("2026-01-01 00:00:00"), k);
    LinesOfTwo(DATED, Stale("2026-01-01T00:00:00"), k);
    assert EVENT_FIELDS == ["by", "at"] && ServiceKeys(Changeset) == ["verified", "generated", "status"];
    assert "2026-01-01 00:00:00"[10] != "2026-01-01T00:00:00"[10];
  }

  /** Whatever the YAML, a respelling is stamped by the bookkeeping and the stamp refused by the policy. */
  lemma RespellingIsRefused<T(!new)>(y: Yaml<T>, c: Call<T>)
    requires Faithful(y) && Edits(c) && Substantive(y, c) && Respelled(y, c) && Spilled(c.after.body) == []
    ensures Apply(y, c).Applied? && Judge(y, Remembered(y, c), Apply(y, c).doc, None, c.actor) == [Unearned]
  {
    PlainResult(y, c);
    PolicyFindsExactly(y, c, Apply(y, c).doc, None);
  }

  lemma RespellIsRespelled(now: int)
    ensures Respelled(Small(), Respell(now))
  {
    var y, c := Small(), Respell(now);
    forall k ensures ValueAt(y.safe, Restored(c), k) == ValueAt(y.safe, BeforeBlocks(c), k) {
      RespellReads(now, k);
    }
    SameFields(y.safe, Restored(c), BeforeBlocks(c), BOOKKEEPING);
  }

  lemma RespellIsSubstantive(now: int)
    ensures Substantive(Small(), Respell(now))
  {
    var y, c, k := Small(), Respell(now), "stale_after";
    RespellReads(now, k);
    var keys := ServiceKeys(Changeset);
    assert keys == ["verified", "generated", "status"];
    assert k !in keys;
    var f, g := Loaded(y.text, Restored(c), keys), Loaded(y.text, BeforeBlocks(c), keys);
    assert Get(f, k) == ValueAt(y.text, Restored(c), k) && Get(g, k) == ValueAt(y.text, BeforeBlocks(c), k);
  }

  /** The bookkeeping stamps this edit, and the policy refuses the stamp whatever the time. */
  lemma RespelledTimestampIsRefused(now: int)
    ensures var y, c := Small(), Respell(now);
            && Faithful(y) && Edits(c) && Apply(y, c).Applied?
            && Judge(y, Remembered(y, c), Apply(y, c).doc, None, c.actor) == [Unearned]
  {
    SmallIsFaithful();
    RespellIsRespelled(now);
    RespellIsSubstantive(now);
    RespellingIsRefused(Small(), Respell(now));
  }
}
