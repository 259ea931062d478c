/** What the operations of the cache come to, entry by entry, and what it holds after any history. */
module CacheMeaning {
  import opened Prelude
  import opened Cache

  /** A key is found with the value it stands with. */
  lemma {:induction false} FindIs<K, V>(entries: Entries<K, V>, key: K, v: V)
    requires Unique(entries)
    ensures Find(entries, key) == Some(v) <==> (key, v) in entries
    ensures Find(entries, key) == None <==> forall i :: 0 <= i < |entries| ==> entries[i].0 != key
    decreases |entries|
  {
    if entries != [] {
      var rest := entries[1..];
      FindIs(rest, key, v);
      assert forall i :: 0 <= i < |rest| ==> rest[i] == entries[i + 1];
      if entries[0].0 == key {
        assert Find(entries, key) == Some(entries[0].1);
        FindIs(rest, entries[0].0, entries[0].1);
      }
    }
  }

  lemma FindPart<K, V>(a: Entries<K, V>, e: (K, V), b: Entries<K, V>)
    requires Unique(a + ([e] + b))
    ensures Find(a + ([e] + b), e.0) == Some(e.1) && !Holds(a, e.0) && !Holds(b, e.0)
  {
    var last := [e] + b;
    assert last[0] == e && last[1..] == b;
    UniqueParts(a, last);
    UniqueApart(a, last, e.0);
    FindAppend(a, last, e.0);
  }

  lemma OthersPart<K, V>(a: Entries<K, V>, e: (K, V), b: Entries<K, V>)
    requires !Holds(a, e.0) && !Holds(b, e.0)
    ensures Others(a + ([e] + b), e.0) == a + b
  {
    var last := [e] + b;
    assert last[0] == e && last[1..] == b;
    OthersAppend(a, last, e.0);
    OthersAbsent(a, e.0);
    OthersAbsent(b, e.0);
    assert [] + b == b;
  }

  /** A found entry moves behind all the others, which stay in order. */
  lemma TouchIs<K, V>(entries: Entries<K, V>, i: nat)
    requires Unique(entries) && i < |entries|
    ensures Touch(entries, entries[i].0) == entries[..i] + entries[i + 1..] + [entries[i]]
  {
    assert entries == entries[..i] + ([entries[i]] + entries[i + 1..]);
    FindPart(entries[..i], entries[i], entries[i + 1..]);
    OthersPart(entries[..i], entries[i], entries[i + 1..]);
    assert (entries[i].0, entries[i].1) == entries[i];
  }

  lemma {:induction false} UniqueParts<K, V>(a: Entries<K, V>, b: Entries<K, V>)
    requires Unique(a + b)
    ensures Unique(b)
    decreases |a|
  {
    if a == [] {
      assert a + b == b;
    } else {
      assert (a + b)[1..] == a[1..] + b;
      UniqueParts(a[1..], b);
    }
  }

  /** A new entry goes last, and the longest end that fits is kept; a key that is held is not stored again. */
  lemma InsertIs<K, V>(s: Source<K, V>, entries: Entries<K, V>, key: K, v: V)
    requires Unique(entries)
    ensures if exists i :: 0 <= i < |entries| && entries[i].0 == key then Insert(s, entries, key, v) == entries
            else LongestEnd(s, entries + [(key, v)], Insert(s, entries, key, v))
  {
    FindIs(entries, key, v);
    EvictKeepsLongestEnd(s, entries + [(key, v)]);
  }

  // ----- what is held after any history ----------------------------------------------------

  /** The key that an event uses: one that is found, or one whose value is stored. */
  function UseOf<K(==), V>(s: Source<K, V>, p: Pool<K, V>, e: Event<K>): Option<K> {
    match e
    case Begin(_, _) => None
    case Look(t) =>
      if ThreadOf(p, t).Asked? && Holds(p.entries, ThreadOf(p, t).key) then Some(ThreadOf(p, t).key) else None
    case Finish(t) =>
      if !ThreadOf(p, t).Missed? then None
      else
        var key := ThreadOf(p, t).key;
        var v := (s.plain)(key);
        if v.Some? && (s.keeps)(v.value) && !Holds(p.entries, key) then Some(key) else None
  }

  /** What each event of a history uses. */
  function Uses<K(==), V>(s: Source<K, V>, events: seq<Event<K>>): (uses: seq<Option<K>>)
    ensures |uses| == |events|
  {
    if events == [] then []
    else
      var before := events[..|events| - 1];
      Uses(s, before) + [UseOf(s, Run(s, before), events[|events| - 1])]
  }

  /** `b` is used at some time after which `a` is not used. */
  ghost predicate UsedLater<K>(uses: seq<Option<K>>, a: K, b: K) {
    exists m :: 0 <= m < |uses| && uses[m] == Some(b) && forall n :: m <= n < |uses| ==> uses[n] != Some(a)
  }

  /** The keys of both lists are the same. */
  ghost predicate SameKeys<K, V>(order: Entries<K, V>, uses: seq<Option<K>>) {
    && (forall i :: 0 <= i < |order| ==> Some(order[i].0) in uses)
    && (forall n :: 0 <= n < |uses| && uses[n].Some? ==> exists i :: 0 <= i < |order| && order[i].0 == uses[n].value)
  }

  /** The entries are those of the used keys, by their last use. */
  ghost predicate ByLastUse<K, V>(order: Entries<K, V>, uses: seq<Option<K>>) {
    && SameKeys(order, uses)
    && forall i, j :: 0 <= i < j < |order| ==> UsedLater(uses, order[i].0, order[j].0)
  }

  /** Two entries that are left stood in the same order. */
  lemma {:induction false} OthersPair<K, V>(entries: Entries<K, V>, key: K, i: nat, j: nat) returns (a: nat, b: nat)
    requires i < j < |Others(entries, key)|
    ensures a < b < |entries| && entries[a] == Others(entries, key)[i] && entries[b] == Others(entries, key)[j]
    ensures entries[a].0 != key && entries[b].0 != key
    decreases |entries|
  {
    var rest := entries[1..];
    if entries[0].0 == key {
      assert Others(entries, key) == Others(rest, key);
      a, b := OthersPair(rest, key, i, j);
      a, b := a + 1, b + 1;
    } else if i > 0 {
      a, b := OthersPair(rest, key, i - 1, j - 1);
      a, b := a + 1, b + 1;
    } else {
      b := OthersOne(rest, key, j - 1);
      a, b := 0, b + 1;
    }
  }

  lemma {:induction false} OthersOne<K, V>(entries: Entries<K, V>, key: K, j: nat) returns (b: nat)
    requires j < |Others(entries, key)|
    ensures b < |entries| && entries[b] == Others(entries, key)[j] && entries[b].0 != key
    decreases |entries|
  {
    var rest := entries[1..];
    if entries[0].0 == key {
      assert Others(entries, key) == Others(rest, key);
      b := OthersOne(rest, key, j);
      b := b + 1;
    } else if j == 0 {
      b := 0;
    } else {
      b := OthersOne(rest, key, j - 1);
      b := b + 1;
    }
  }

  lemma {:induction false} OthersHold<K, V>(entries: Entries<K, V>, key: K, i: nat) returns (j: nat)
    requires i < |entries| && entries[i].0 != key
    ensures j < |Others(entries, key)| && Others(entries, key)[j] == entries[i]
    decreases |entries|
  {
    if i == 0 {
      j := 0;
    } else {
      assert entries[1..][i - 1] == entries[i];
      j := OthersHold(entries[1..], key, i - 1);
      if entries[0].0 != key { j := j + 1; }
    }
  }

  lemma LaterStays<K>(uses: seq<Option<K>>, a: K, b: K, use: Option<K>)
    requires UsedLater(uses, a, b) && use != Some(a)
    ensures UsedLater(uses + [use], a, b)
  {
    var m :| 0 <= m < |uses| && uses[m] == Some(b) && forall n :: m <= n < |uses| ==> uses[n] != Some(a);
    var more := uses + [use];
    assert more[m] == Some(b) && forall n :: m <= n < |more| ==> more[n] != Some(a);
  }

  lemma UseKeepsKeys<K, V>(order: Entries<K, V>, uses: seq<Option<K>>, key: K, v: V)
    requires SameKeys(order, uses)
    ensures SameKeys(Others(order, key) + [(key, v)], uses + [Some(key)])
  {
    var rest, more := Others(order, key), uses + [Some(key)];
    var now := rest + [(key, v)];
    forall i | 0 <= i < |now| ensures Some(now[i].0) in more {
      if i < |rest| {
        var b := OthersOne(order, key, i);
        assert now[i] == order[b] && Some(order[b].0) in uses;
      } else {
        assert more[|uses|] == Some(key);
      }
    }
    forall n | 0 <= n < |more| && more[n].Some? ensures exists i :: 0 <= i < |now| && now[i].0 == more[n].value {
      if more[n].value == key {
        assert now[|rest|].0 == key;
      } else {
        var i :| 0 <= i < |order| && order[i].0 == uses[n].value;
        var j := OthersHold(order, key, i);
        assert now[j] == order[i];
      }
    }
  }

  lemma NowIsLatest<K>(uses: seq<Option<K>>, a: K, b: K)
    requires a != b
    ensures UsedLater(uses + [Some(b)], a, b)
  {
    assert (uses + [Some(b)])[|uses|] == Some(b);
  }

  lemma OthersKeepOrder<K, V>(order: Entries<K, V>, uses: seq<Option<K>>, key: K, i: nat, j: nat)
    requires ByLastUse(order, uses) && i < j < |Others(order, key)|
    ensures UsedLater(uses + [Some(key)], Others(order, key)[i].0, Others(order, key)[j].0)
  {
    var a, b := OthersPair(order, key, i, j);
    LaterStays(uses, order[a].0, order[b].0, Some(key));
  }

  lemma UseKeepsOrder<K, V>(order: Entries<K, V>, uses: seq<Option<K>>, key: K, v: V)
    requires ByLastUse(order, uses)
    ensures ByLastUse(Used(order, key, v), uses + [Some(key)])
  {
    UseKeepsKeys(order, uses, key, v);
    var rest, now := Others(order, key), Used(order, key, v);
    forall i, j | 0 <= i < j < |now| ensures UsedLater(uses + [Some(key)], now[i].0, now[j].0) {
      if j < |rest| {
        OthersKeepOrder(order, uses, key, i, j);
      } else {
        var b := OthersOne(order, key, i);
        NowIsLatest(uses, rest[i].0, key);
      }
    }
  }

  lemma NoUseKeepsOrder<K, V>(order: Entries<K, V>, uses: seq<Option<K>>)
    requires ByLastUse(order, uses)
    ensures ByLastUse(order, uses + [None])
  {
    forall i, j | 0 <= i < j < |order| ensures UsedLater(uses + [None], order[i].0, order[j].0) {
      LaterStays(uses, order[i].0, order[j].0, None);
    }
    forall i | 0 <= i < |order| ensures Some(order[i].0) in uses + [None] {
      assert Some(order[i].0) in uses;
    }
  }

  lemma {:induction false} RecentIsByLastUse<K, V>(s: Source<K, V>, events: seq<Event<K>>)
    ensures ByLastUse(Run(s, events).recent, Uses(s, events))
    decreases |events|
  {
    if events != [] {
      var before, e := events[..|events| - 1], events[|events| - 1];
      RecentIsByLastUse(s, before);
      var p := Run(s, before);
      match UseOf(s, p, e) {
        case None => NoUseKeepsOrder(p.recent, Uses(s, before));
        case Some(key) =>
          var v := if e.Look? then Find(p.entries, key).value else (s.plain)(key).value;
          UseKeepsOrder(p.recent, Uses(s, before), key, v);
      }
    }
  }

  /**
   After any history, whatever the threads: put all keys that were found or stored in the order of their
   last use; the cache holds the longest end of them that the budget allows, each with its true value.
   */
  lemma HoldsLatestUsed<K, V>(s: Source<K, V>, events: seq<Event<K>>) returns (order: Entries<K, V>)
    ensures ByLastUse(order, Uses(s, events)) && LongestEnd(s, order, Run(s, events).entries)
    ensures forall i :: 0 <= i < |order| ==> (s.plain)(order[i].0) == Some(order[i].1)
  {
    order := Run(s, events).recent;
    RecentIsByLastUse(s, events);
    RunKeepsOrder(s, events);
    EvictKeepsLongestEnd(s, order);
  }
}
