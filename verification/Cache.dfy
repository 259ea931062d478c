/**
 The locked, byte-budgeted caches (`load_yaml` and `_judged`): an ordered dictionary from keys to what an
 uncached computation gives, least recently used first, whose weight never exceeds the budget outside the
 lock. `load_yaml` weighs a key and its pickle, `_judged` a pickle and a body.
 */
module Cache {
  import opened Prelude

  type Entries<K, V> = seq<(K, V)>

  /** What is cached: the computation (None when it raises), what it weighs, and which keys and values are not cached. */
  datatype Source<!K, !V> = Source(plain: K -> Option<V>, weight: (K, V) -> nat, skips: K -> bool, keeps: V -> bool, budget: nat)

  function Weight<K, V>(s: Source<K, V>, e: (K, V)): nat {
    (s.weight)(e.0, e.1)
  }

  function Sum<K, V>(s: Source<K, V>, entries: Entries<K, V>): nat {
    if entries == [] then 0 else Weight(s, entries[0]) + Sum(s, entries[1..])
  }

  function Find<K(==), V>(entries: Entries<K, V>, key: K): Option<V> {
    if entries == [] then None
    else if entries[0].0 == key then Some(entries[0].1)
    else Find(entries[1..], key)
  }

  /** The entries of other keys, in order. */
  function Others<K(==), V>(entries: Entries<K, V>, key: K): Entries<K, V> {
    if entries == [] then []
    else (if entries[0].0 == key then [] else [entries[0]]) + Others(entries[1..], key)
  }

  /** `move_to_end`. */
  function Touch<K(==), V>(entries: Entries<K, V>, key: K): Entries<K, V> {
    match Find(entries, key)
    case None => entries
    case Some(v) => Others(entries, key) + [(key, v)]
  }

  /** `popitem(last=False)` while the budget is exceeded. */
  function Evict<K, V>(s: Source<K, V>, entries: Entries<K, V>): Entries<K, V> {
    if entries != [] && Sum(s, entries) > s.budget then Evict(s, entries[1..]) else entries
  }

  function Insert<K(==), V>(s: Source<K, V>, entries: Entries<K, V>, key: K, v: V): Entries<K, V> {
    if Find(entries, key).Some? then entries else Evict(s, entries + [(key, v)])
  }

  // ----- the program -----------------------------------------------------------------------

  /** The entries and the byte counter, behind a lock: `Lookup` and `Store` are its two critical sections. */
  class Shared<K(==), V> {
    const s: Source<K, V>
    var entries: Entries<K, V>
    var bytes: nat

    ghost predicate Valid()
      reads this
    {
      Unique(entries) && bytes == Sum(s, entries) && bytes <= s.budget
    }

    constructor (s: Source<K, V>)
      ensures Valid() && this.s == s && entries == []
    {
      this.s := s;
      entries, bytes := [], 0;
    }

    method Lookup(key: K) returns (hit: Option<V>)
      requires Valid()
      modifies this
      ensures Valid() && hit == Find(old(entries), key) && entries == Touch(old(entries), key)
    {
      hit := Find(entries, key);
      if hit.Some? {
        SumTouch(s, entries, key);
        UniqueTouch(entries, key);
        entries := Others(entries, key) + [(key, hit.value)];
      }
    }

    method Store(key: K, v: V)
      requires Valid()
      modifies this
      ensures Valid() && entries == Insert(s, old(entries), key, v)
    {
      if Find(entries, key) == None {
        SumSnoc(s, entries, (key, v));
        UniqueSnoc(entries, (key, v));
        entries, bytes := entries + [(key, v)], bytes + Weight(s, (key, v));
        while bytes > s.budget && entries != []
          invariant Unique(entries) && bytes == Sum(s, entries)
          invariant Evict(s, entries) == Insert(s, old(entries), key, v)
          decreases |entries|
        {
          entries, bytes := entries[1..], bytes - Weight(s, entries[0]);
        }
      }
    }

    /** One call by a thread that no other thread interrupts: what may be cached and fits is held afterwards. */
    method Load(key: K) returns (r: Option<V>)
      requires Valid() && Truthful(s, entries)
      modifies this
      ensures Valid() && Truthful(s, entries) && r == (s.plain)(key)
      ensures (s.skips)(key) || r == None ==> entries == old(entries)
      ensures !(s.skips)(key) && r.Some? && (s.keeps)(r.value) && (s.weight)(key, r.value) <= s.budget ==>
                entries != [] && entries[|entries| - 1] == (key, r.value)
    {
      if (s.skips)(key) {
        return (s.plain)(key);
      }
      if Holds(entries, key) { TruthfulFind(s, entries, key); }
      TruthfulTouch(s, entries, key);
      r := Lookup(key);
      if r.Some? {
        return;
      }
      r := (s.plain)(key);
      if r.Some? && (s.keeps)(r.value) {
        TruthfulInsert(s, entries, key, r.value);
        if (s.weight)(key, r.value) <= s.budget { EvictKeepsLast(s, entries, (key, r.value)); }
        Store(key, r.value);
      }
    }
  }

  // ----- sums ------------------------------------------------------------------------------

  lemma {:induction false} SumAppend<K, V>(s: Source<K, V>, a: Entries<K, V>, b: Entries<K, V>)
    ensures Sum(s, a + b) == Sum(s, a) + Sum(s, b)
    decreases |a|
  {
    if a == [] {
      assert a + b == b;
    } else {
      assert (a + b)[0] == a[0] && (a + b)[1..] == a[1..] + b;
      SumAppend(s, a[1..], b);
    }
  }

  lemma SumSnoc<K, V>(s: Source<K, V>, entries: Entries<K, V>, e: (K, V))
    ensures Sum(s, entries + [e]) == Sum(s, entries) + Weight(s, e)
  {
    SumAppend(s, entries, [e]);
    assert [e][1..] == [];
  }

  // ----- keys ------------------------------------------------------------------------------

  predicate Holds<K(==), V>(entries: Entries<K, V>, key: K) {
    Find(entries, key).Some?
  }

  /** No key twice. */
  predicate Unique<K(==), V>(entries: Entries<K, V>) {
    entries == [] || (!Holds(entries[1..], entries[0].0) && Unique(entries[1..]))
  }

  lemma {:induction false} FindAppend<K, V>(a: Entries<K, V>, b: Entries<K, V>, key: K)
    ensures Find(a + b, key) == if Find(a, key).Some? then Find(a, key) else Find(b, key)
    decreases |a|
  {
    if a == [] {
      assert a + b == b;
    } else {
      assert (a + b)[0] == a[0] && (a + b)[1..] == a[1..] + b;
      FindAppend(a[1..], b, key);
    }
  }

  lemma {:induction false} OthersAppend<K, V>(a: Entries<K, V>, b: Entries<K, V>, key: K)
    ensures Others(a + b, key) == Others(a, key) + Others(b, key)
    decreases |a|
  {
    if a == [] {
      assert a + b == b;
    } else {
      assert (a + b)[0] == a[0] && (a + b)[1..] == a[1..] + b;
      OthersAppend(a[1..], b, key);
    }
  }

  lemma {:induction false} OthersAbsent<K, V>(entries: Entries<K, V>, key: K)
    requires !Holds(entries, key)
    ensures Others(entries, key) == entries
    decreases |entries|
  {
    if entries != [] { OthersAbsent(entries[1..], key); }
  }

  lemma {:induction false} FindOthers<K, V>(entries: Entries<K, V>, key: K, k: K)
    ensures Find(Others(entries, key), k) == if k == key then None else Find(entries, k)
    decreases |entries|
  {
    if entries != [] {
      FindOthers(entries[1..], key, k);
      if entries[0].0 == key {
        assert Others(entries, key) == Others(entries[1..], key);
      } else {
        assert Others(entries, key)[1..] == Others(entries[1..], key);
      }
    }
  }

  lemma {:induction false} SumOthers<K, V>(s: Source<K, V>, entries: Entries<K, V>, key: K)
    requires Unique(entries)
    ensures Sum(s, entries) == Sum(s, Others(entries, key)) +
            if Holds(entries, key) then Weight(s, (key, Find(entries, key).value)) else 0
    decreases |entries|
  {
    if entries != [] {
      if entries[0].0 == key {
        OthersAbsent(entries[1..], key);
        assert Others(entries, key) == entries[1..];
      } else {
        SumOthers(s, entries[1..], key);
        assert Others(entries, key)[1..] == Others(entries[1..], key);
      }
    }
  }

  lemma SumTouch<K, V>(s: Source<K, V>, entries: Entries<K, V>, key: K)
    requires Unique(entries)
    ensures Sum(s, Touch(entries, key)) == Sum(s, entries)
  {
    SumOthers(s, entries, key);
    if Holds(entries, key) { SumSnoc(s, Others(entries, key), (key, Find(entries, key).value)); }
  }

  lemma {:induction false} UniqueSnoc<K, V>(entries: Entries<K, V>, e: (K, V))
    requires Unique(entries) && !Holds(entries, e.0)
    ensures Unique(entries + [e])
    decreases |entries|
  {
    if entries == [] {
      assert entries + [e] == [e] && [e][1..] == [];
    } else {
      assert (entries + [e])[0] == entries[0] && (entries + [e])[1..] == entries[1..] + [e];
      UniqueSnoc(entries[1..], e);
      FindAppend(entries[1..], [e], entries[0].0);
      assert [e][1..] == [];
    }
  }

  lemma {:induction false} UniqueOthers<K, V>(entries: Entries<K, V>, key: K)
    requires Unique(entries)
    ensures Unique(Others(entries, key))
    decreases |entries|
  {
    if entries != [] {
      UniqueOthers(entries[1..], key);
      FindOthers(entries[1..], key, entries[0].0);
      if entries[0].0 == key {
        assert Others(entries, key) == Others(entries[1..], key);
      } else {
        assert Others(entries, key)[1..] == Others(entries[1..], key);
      }
    }
  }

  lemma UniqueTouch<K, V>(entries: Entries<K, V>, key: K)
    requires Unique(entries)
    ensures Unique(Touch(entries, key))
  {
    if Holds(entries, key) {
      UniqueOthers(entries, key);
      FindOthers(entries, key, key);
      UniqueSnoc(Others(entries, key), (key, Find(entries, key).value));
    }
  }

  lemma {:induction false} UniqueEvict<K, V>(s: Source<K, V>, entries: Entries<K, V>)
    requires Unique(entries)
    ensures Unique(Evict(s, entries)) && Sum(s, Evict(s, entries)) <= s.budget
    decreases |entries|
  {
    if entries != [] && Sum(s, entries) > s.budget { UniqueEvict(s, entries[1..]); }
  }

  /** Every held value is what the computation gives. */
  ghost predicate Truthful<K, V>(s: Source<K, V>, entries: Entries<K, V>) {
    forall i :: 0 <= i < |entries| ==> (s.plain)(entries[i].0) == Some(entries[i].1)
  }

  lemma {:induction false} TruthfulFind<K, V>(s: Source<K, V>, entries: Entries<K, V>, key: K)
    requires Truthful(s, entries) && Holds(entries, key)
    ensures (s.plain)(key) == Find(entries, key)
    decreases |entries|
  {
    if entries[0].0 != key {
      TruthfulRest(s, entries);
      TruthfulFind(s, entries[1..], key);
    }
  }

  lemma TruthfulRest<K, V>(s: Source<K, V>, entries: Entries<K, V>)
    requires Truthful(s, entries) && entries != []
    ensures Truthful(s, entries[1..])
  {
    assert forall i :: 0 <= i < |entries| - 1 ==> entries[1..][i] == entries[i + 1];
  }

  lemma {:induction false} TruthfulOthers<K, V>(s: Source<K, V>, entries: Entries<K, V>, key: K)
    requires Truthful(s, entries)
    ensures Truthful(s, Others(entries, key))
    decreases |entries|
  {
    if entries != [] {
      TruthfulRest(s, entries);
      TruthfulOthers(s, entries[1..], key);
    }
  }

  lemma TruthfulTouch<K, V>(s: Source<K, V>, entries: Entries<K, V>, key: K)
    requires Truthful(s, entries)
    ensures Truthful(s, Touch(entries, key))
  {
    TruthfulOthers(s, entries, key);
    if Holds(entries, key) { TruthfulFind(s, entries, key); }
  }

  lemma {:induction false} TruthfulEvict<K, V>(s: Source<K, V>, entries: Entries<K, V>)
    requires Truthful(s, entries)
    ensures Truthful(s, Evict(s, entries))
    decreases |entries|
  {
    if entries != [] && Sum(s, entries) > s.budget {
      TruthfulRest(s, entries);
      TruthfulEvict(s, entries[1..]);
    }
  }

  lemma TruthfulInsert<K, V>(s: Source<K, V>, entries: Entries<K, V>, key: K, v: V)
    requires Truthful(s, entries) && (s.plain)(key) == Some(v)
    ensures Truthful(s, Insert(s, entries, key, v))
  {
    TruthfulEvict(s, entries + [(key, v)]);
  }

  // ----- what is kept ----------------------------------------------------------------------

  /** `kept` is the longest end of `all` within the budget. */
  ghost predicate LongestEnd<K, V>(s: Source<K, V>, all: Entries<K, V>, kept: Entries<K, V>) {
    && |kept| <= |all| && kept == all[|all| - |kept|..] && Sum(s, kept) <= s.budget
    && forall k :: 0 <= k < |all| - |kept| ==> Sum(s, all[k..]) > s.budget
  }

  /** Eviction keeps as many of the latest entries as the budget allows. */
  lemma {:induction false} EvictKeepsLongestEnd<K, V>(s: Source<K, V>, all: Entries<K, V>)
    ensures LongestEnd(s, all, Evict(s, all))
    decreases |all|
  {
    if all != [] && Sum(s, all) > s.budget {
      EvictKeepsLongestEnd(s, all[1..]);
      var kept := Evict(s, all);
      assert all[1..][|all| - 1 - |kept|..] == all[|all| - |kept|..];
      forall k | 0 <= k < |all| - |kept| ensures Sum(s, all[k..]) > s.budget {
        if k == 0 { assert all[0..] == all; } else { assert all[k..] == all[1..][k - 1..]; }
      }
    } else {
      assert all[0..] == all;
    }
  }

  lemma {:induction false} EvictKeepsLast<K, V>(s: Source<K, V>, entries: Entries<K, V>, e: (K, V))
    requires Weight(s, e) <= s.budget
    ensures var kept := Evict(s, entries + [e]); kept != [] && kept[|kept| - 1] == e
    decreases |entries|
  {
    if entries == [] {
      SumSnoc(s, [], e);
      assert entries + [e] == [e] == [] + [e];
    } else if Sum(s, entries + [e]) > s.budget {
      assert (entries + [e])[1..] == entries[1..] + [e];
      EvictKeepsLast(s, entries[1..], e);
    }
  }

  /** When the last one left out does not fit any more, neither does anything before it. */
  lemma {:induction false} EvictFront<K, V>(s: Source<K, V>, front: Entries<K, V>, kept: Entries<K, V>)
    requires Sum(s, kept) <= s.budget
    requires front != [] ==> Weight(s, front[|front| - 1]) + Sum(s, kept) > s.budget
    ensures Evict(s, front + kept) == kept
    decreases |front|
  {
    if front == [] {
      assert front + kept == kept;
    } else {
      var init, last := front[..|front| - 1], front[|front| - 1];
      assert front + kept == init + ([last] + kept) && front == init + [last];
      SumAppend(s, front, kept);
      SumSnoc(s, init, last);
      assert (front + kept)[1..] == front[1..] + kept;
      EvictFront(s, front[1..], kept);
    }
  }

  /** Nothing more is evicted than what an entry at the end makes too heavy. */
  lemma {:induction false} EvictAgain<K, V>(s: Source<K, V>, front: Entries<K, V>, kept: Entries<K, V>)
    requires Sum(s, kept) > s.budget
    ensures Evict(s, front + kept) == Evict(s, kept)
    decreases |front|
  {
    if front == [] {
      assert front + kept == kept;
    } else {
      SumAppend(s, front, kept);
      assert (front + kept)[1..] == front[1..] + kept;
      EvictAgain(s, front[1..], kept);
    }
  }

  /** What was left out of `recent`, and that the last of it does not fit. */
  lemma LeftOut<K, V>(s: Source<K, V>, recent: Entries<K, V>) returns (front: Entries<K, V>)
    ensures recent == front + Evict(s, recent)
    ensures front != [] ==> Weight(s, front[|front| - 1]) + Sum(s, Evict(s, recent)) > s.budget
  {
    var kept := Evict(s, recent);
    EvictKeepsLongestEnd(s, recent);
    var n := |recent| - |kept|;
    front := recent[..n];
    if n > 0 {
      assert Sum(s, recent[n - 1..]) > s.budget;
      assert recent[n - 1..][0] == front[n - 1] && recent[n - 1..][1..] == kept;
    }
  }

  /** A use: the entry goes to the end of the list of all entries by their last use. */
  function Used<K(==), V>(recent: Entries<K, V>, key: K, v: V): Entries<K, V> {
    Others(recent, key) + [(key, v)]
  }

  lemma {:induction false} UniqueApart<K, V>(a: Entries<K, V>, b: Entries<K, V>, key: K)
    requires Unique(a + b) && Holds(b, key)
    ensures !Holds(a, key)
    decreases |a|
  {
    if a != [] {
      assert (a + b)[0] == a[0] && (a + b)[1..] == a[1..] + b;
      UniqueApart(a[1..], b, key);
      FindAppend(a[1..], b, key);
    }
  }

  lemma HitKeepsRecent<K, V>(s: Source<K, V>, recent: Entries<K, V>, key: K)
    requires Unique(recent) && Holds(Evict(s, recent), key)
    ensures var v := Find(Evict(s, recent), key).value; Touch(Evict(s, recent), key) == Evict(s, Used(recent, key, v))
  {
    var kept := Evict(s, recent);
    var v := Find(kept, key).value;
    var front := LeftOut(s, recent);
    UniqueApart(front, kept, key);
    OthersAbsent(front, key);
    OthersAppend(front, kept, key);
    UniqueEvict(s, recent);
    SumTouch(s, kept, key);
    EvictFront(s, front, Touch(kept, key));
    assert Used(recent, key, v) == front + Touch(kept, key);
  }

  lemma {:induction false} LastOther<K, V>(front: Entries<K, V>, key: K)
    requires front != [] && front[|front| - 1].0 != key
    ensures Others(front, key) != [] && Others(front, key)[|Others(front, key)| - 1] == front[|front| - 1]
  {
    var init, last := front[..|front| - 1], front[|front| - 1];
    assert front == init + [last] && [last][1..] == [];
    OthersAppend(init, [last], key);
  }

  lemma MissKeepsRecent<K, V>(s: Source<K, V>, recent: Entries<K, V>, key: K, v: V)
    requires Unique(recent) && !Holds(Evict(s, recent), key)
    requires Truthful(s, recent) && (s.plain)(key) == Some(v)
    ensures Insert(s, Evict(s, recent), key, v) == Evict(s, Used(recent, key, v))
  {
    var kept := Evict(s, recent);
    var front := LeftOut(s, recent);
    var next := kept + [(key, v)];
    OthersAppend(front, kept, key);
    OthersAbsent(kept, key);
    var rest := Others(front, key);
    assert Used(recent, key, v) == rest + next;
    SumSnoc(s, kept, (key, v));
    if Sum(s, next) > s.budget {
      EvictAgain(s, rest, next);
    } else {
      if front != [] {
        assert recent[|front| - 1] == front[|front| - 1];
        LastOther(front, key);
      }
      EvictFront(s, rest, next);
    }
  }

  // ----- threads ---------------------------------------------------------------------------

  /** Where a call stands: it waits for the first critical section, it missed and computes, or it has its answer. */
  datatype Thread<K, V> = Idle | Asked(key: K) | Missed(key: K) | Done(key: K, answer: Option<V>)

  /** The shared entries, every entry by its last use (kept for the proof only), and the threads. */
  datatype Pool<K, V> = Pool(entries: Entries<K, V>, recent: Entries<K, V>, threads: map<nat, Thread<K, V>>)

  /** A thread begins a call, passes the first critical section, or computes and passes the second one. */
  datatype Event<K> = Begin(t: nat, key: K) | Look(t: nat) | Finish(t: nat)

  function ThreadOf<K, V>(p: Pool<K, V>, t: nat): Thread<K, V> {
    if t in p.threads then p.threads[t] else Idle
  }

  function Step<K(==), V>(s: Source<K, V>, p: Pool<K, V>, e: Event<K>): Pool<K, V> {
    match e
    case Begin(t, key) =>
      if ThreadOf(p, t).Asked? || ThreadOf(p, t).Missed? then p
      else p.(threads := p.threads[t := if (s.skips)(key) then Done(key, (s.plain)(key)) else Asked(key)])
    case Look(t) =>
      if !ThreadOf(p, t).Asked? then p
      else
        var key := ThreadOf(p, t).key;
        var hit := Find(p.entries, key);
        if hit == None then p.(threads := p.threads[t := Missed(key)])
        else Pool(Touch(p.entries, key), Used(p.recent, key, hit.value), p.threads[t := Done(key, hit)])
    case Finish(t) =>
      if !ThreadOf(p, t).Missed? then p
      else
        var key := ThreadOf(p, t).key;
        var v := (s.plain)(key);
        var after := p.(threads := p.threads[t := Done(key, v)]);
        if v == None || !(s.keeps)(v.value) || Holds(p.entries, key) then after
        else after.(entries := Insert(s, p.entries, key, v.value), recent := Used(p.recent, key, v.value))
  }

  function Run<K(==), V>(s: Source<K, V>, events: seq<Event<K>>): Pool<K, V> {
    if events == [] then Pool([], [], map[]) else Step(s, Run(s, events[..|events| - 1]), events[|events| - 1])
  }

  /** The lists are in order, and the entries are the ones used last. */
  ghost predicate Ordered<K, V>(s: Source<K, V>, p: Pool<K, V>) {
    Unique(p.recent) && Truthful(s, p.recent) && p.entries == Evict(s, p.recent)
  }

  /** Every answer is what the computation gives. */
  ghost predicate Answered<K, V>(s: Source<K, V>, p: Pool<K, V>) {
    forall t :: t in p.threads && p.threads[t].Done? ==> p.threads[t].answer == (s.plain)(p.threads[t].key)
  }

  lemma UsedIsOrdered<K, V>(s: Source<K, V>, recent: Entries<K, V>, key: K, v: V)
    requires Unique(recent) && Truthful(s, recent) && (s.plain)(key) == Some(v)
    ensures Unique(Used(recent, key, v)) && Truthful(s, Used(recent, key, v))
  {
    UniqueOthers(recent, key);
    FindOthers(recent, key, key);
    UniqueSnoc(Others(recent, key), (key, v));
    TruthfulOthers(s, recent, key);
  }

  lemma LookKeepsOrder<K, V>(s: Source<K, V>, p: Pool<K, V>, t: nat)
    requires Ordered(s, p) && Answered(s, p)
    ensures Ordered(s, Step(s, p, Look(t))) && Answered(s, Step(s, p, Look(t)))
  {
    if ThreadOf(p, t).Asked? && Holds(p.entries, ThreadOf(p, t).key) {
      var key := ThreadOf(p, t).key;
      TruthfulEvict(s, p.recent);
      TruthfulFind(s, p.entries, key);
      UsedIsOrdered(s, p.recent, key, Find(p.entries, key).value);
      HitKeepsRecent(s, p.recent, key);
    }
  }

  lemma FinishKeepsOrder<K, V>(s: Source<K, V>, p: Pool<K, V>, t: nat)
    requires Ordered(s, p) && Answered(s, p)
    ensures Ordered(s, Step(s, p, Finish(t))) && Answered(s, Step(s, p, Finish(t)))
  {
    if ThreadOf(p, t).Missed? {
      var key := ThreadOf(p, t).key;
      var v := (s.plain)(key);
      if v.Some? && !Holds(p.entries, key) {
        UsedIsOrdered(s, p.recent, key, v.value);
        MissKeepsRecent(s, p.recent, key, v.value);
      }
    }
  }

  lemma {:induction false} RunKeepsOrder<K, V>(s: Source<K, V>, events: seq<Event<K>>)
    ensures Ordered(s, Run(s, events)) && Answered(s, Run(s, events))
    decreases |events|
  {
    if events != [] {
      var before, e := events[..|events| - 1], events[|events| - 1];
      RunKeepsOrder(s, before);
      match e {
        case Begin(_, _) =>
        case Look(t) => LookKeepsOrder(s, Run(s, before), t);
        case Finish(t) => FinishKeepsOrder(s, Run(s, before), t);
      }
    }
  }

  /**
   Under any interleaving of any number of threads every call is answered as the uncached computation
   answers it, the held entries weigh no more than the budget, and they are exactly the longest end within
   the budget of all entries ever stored, in the order of their last use.
   */
  lemma CacheIsTransparent<K, V>(s: Source<K, V>, events: seq<Event<K>>)
    ensures var p := Run(s, events);
            && (forall t :: ThreadOf(p, t).Done? ==> ThreadOf(p, t).answer == (s.plain)(ThreadOf(p, t).key))
            && Unique(p.entries) && Sum(s, p.entries) <= s.budget
            && LongestEnd(s, p.recent, p.entries)
  {
    RunKeepsOrder(s, events);
    UniqueEvict(s, Run(s, events).recent);
    EvictKeepsLongestEnd(s, Run(s, events).recent);
  }
}
