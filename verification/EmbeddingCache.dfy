/** The least-recently-used, time-limited embedding cache: a map and an order list, proved to
    be one recency list, and what such a list keeps over any run. */
module EmbeddingCache {
  import opened EmbeddingTypes
  import opened Wrappers

  datatype Entry = Entry(value: Cached, cachedAt: nat)

  datatype Slot = Slot(key: CacheKey, entry: Entry)

  // --------------------------------------------------------- recency list

  /** The other keys' slots, in order; least recently used first. */
  function Without(list: seq<Slot>, key: CacheKey): seq<Slot> {
    if list == [] then []
    else (if list[0].key == key then [] else [list[0]]) + Without(list[1..], key)
  }

  function Lookup(list: seq<Slot>, key: CacheKey): Option<Entry> {
    if list == [] then None
    else if list[0].key == key then Some(list[0].entry)
    else Lookup(list[1..], key)
  }

  function ListGet(list: seq<Slot>, key: CacheKey, now: nat, ttl: nat): (seq<Slot>, Option<Cached>) {
    match Lookup(list, key)
    case None => (list, None)
    case Some(e) =>
      if now >= e.cachedAt + ttl then (Without(list, key), None)
      else (Without(list, key) + [Slot(key, e)], Some(e.value))
  }

  /** Drop from the front while `count` entries are too many for one more. */
  function EvictTo(list: seq<Slot>, count: nat, max: nat): seq<Slot>
    requires count >= |list|
  {
    if count >= max && list != [] then EvictTo(list[1..], count - 1, max) else list
  }

  /** The key's own stale entry still counts while room is made. */
  function ListPut(list: seq<Slot>, key: CacheKey, value: Cached, now: nat, max: nat): seq<Slot> {
    assert |Without(list, key)| <= |list| by { WithoutLaw(list, key); }
    EvictTo(Without(list, key), |list|, max) + [Slot(key, Entry(value, now))]
  }

  ghost predicate Distinct(list: seq<Slot>) {
    forall i, j | 0 <= i < j < |list| :: list[i].key != list[j].key
  }

  ghost function Keys(list: seq<Slot>): set<CacheKey> {
    set i | 0 <= i < |list| :: list[i].key
  }

  lemma {:induction false} WithoutMembers(list: seq<Slot>, key: CacheKey)
    ensures |Without(list, key)| <= |list|
    ensures forall i | 0 <= i < |Without(list, key)| :: Without(list, key)[i] in list && Without(list, key)[i].key != key
    ensures forall s | s in list && s.key != key :: s in Without(list, key)
  {
    if list != [] {
      WithoutMembers(list[1..], key);
      assert list == [list[0]] + list[1..];
    }
  }

  lemma {:induction false} DistinctTail(list: seq<Slot>)
    requires list != [] && Distinct(list)
    ensures Distinct(list[1..]) && forall s | s in list[1..] :: s.key != list[0].key
  {
    forall i, j | 0 <= i < j < |list[1..]| ensures list[1..][i].key != list[1..][j].key {
      assert list[i + 1].key != list[j + 1].key;
    }
    forall s | s in list[1..] ensures s.key != list[0].key {
      var i :| 0 <= i < |list[1..]| && list[1..][i] == s;
      assert list[i + 1].key != list[0].key;
    }
  }

  lemma {:induction false} DistinctCons(slot: Slot, rest: seq<Slot>)
    requires Distinct(rest) && forall s | s in rest :: s.key != slot.key
    ensures Distinct([slot] + rest)
  {
  }

  lemma {:induction false} KeysCons(list: seq<Slot>)
    requires list != []
    ensures Keys(list) == {list[0].key} + Keys(list[1..])
    ensures (forall s | s in list[1..] :: s.key != list[0].key) ==> list[0].key !in Keys(list[1..])
  {
    assert list == [list[0]] + list[1..];
  }

  lemma {:induction false} WithoutSize(list: seq<Slot>, key: CacheKey)
    requires Distinct(list)
    ensures Distinct(Without(list, key))
    ensures |Without(list, key)| == |list| - if key in Keys(list) then 1 else 0
  {
    if list != [] {
      hide Distinct, Keys;
      var rest := list[1..];
      DistinctTail(list);
      KeysCons(list);
      WithoutMembers(rest, key);
      WithoutSize(rest, key);
      var w := Without(rest, key);
      forall s | s in w ensures s.key != list[0].key {
        var i :| 0 <= i < |w| && w[i] == s;
        assert w[i] in rest;
      }
      DistinctCons(list[0], w);
    }
  }

  lemma {:induction false} WithoutLaw(list: seq<Slot>, key: CacheKey)
    ensures |Without(list, key)| <= |list|
    ensures forall i | 0 <= i < |Without(list, key)| :: Without(list, key)[i] in list && Without(list, key)[i].key != key
    ensures forall s | s in list && s.key != key :: s in Without(list, key)
    ensures Distinct(list) ==> Distinct(Without(list, key))
    ensures Distinct(list) ==> |Without(list, key)| == |list| - if key in Keys(list) then 1 else 0
  {
    hide Without, Distinct, Keys;
    WithoutMembers(list, key);
    if Distinct(list) { WithoutSize(list, key); }
  }

  lemma {:induction false} WithoutConcat(a: seq<Slot>, b: seq<Slot>, key: CacheKey)
    ensures Without(a + b, key) == Without(a, key) + Without(b, key)
  {
    if a == [] {
      assert a + b == b;
    } else {
      assert (a + b)[1..] == a[1..] + b;
      WithoutConcat(a[1..], b, key);
    }
  }

  lemma {:induction false} LookupLaw(list: seq<Slot>, key: CacheKey)
    requires Distinct(list)
    ensures Lookup(list, key).Some? <==> key in Keys(list)
    ensures forall i | 0 <= i < |list| && list[i].key == key :: Lookup(list, key) == Some(list[i].entry)
  {
    if list != [] {
      LookupLaw(list[1..], key);
      forall i | 0 <= i < |list| && list[i].key == key ensures Lookup(list, key) == Some(list[i].entry) {
        if i > 0 { assert list[1..][i - 1] == list[i]; }
      }
      assert Keys(list) == Keys(list[1..]) + {list[0].key} by {
        forall k | k in Keys(list) ensures k in Keys(list[1..]) + {list[0].key} {
          var i :| 0 <= i < |list| && list[i].key == k;
          if i > 0 { assert list[1..][i - 1].key == k; }
        }
        forall k | k in Keys(list[1..]) ensures k in Keys(list) {
          var i :| 0 <= i < |list[1..]| && list[1..][i].key == k;
          assert list[i + 1].key == k;
        }
      }
    }
  }

  /** A lookup hits exactly if the list has a slot of that key whose time is not up, and gives its value. */
  lemma {:induction false} GetExactly(list: seq<Slot>, key: CacheKey, now: nat, ttl: nat)
    requires Distinct(list)
    ensures ListGet(list, key, now, ttl).1.Some? <==> exists i :: 0 <= i < |list| && list[i].key == key && now < list[i].entry.cachedAt + ttl
    ensures forall i | 0 <= i < |list| && list[i].key == key && now < list[i].entry.cachedAt + ttl ::
              ListGet(list, key, now, ttl).1 == Some(list[i].entry.value)
  {
    hide Without;
    LookupLaw(list, key);
    if Lookup(list, key).Some? {
      assert key in Keys(list);
      var i :| 0 <= i < |list| && list[i].key == key;
    }
  }

  /** A put is found by every lookup of its key until its time is up, with the value that was put. */
  lemma {:induction false} PutIsFound(list: seq<Slot>, key: CacheKey, value: Cached, now: nat, max: nat, later: nat, ttl: nat)
    requires Bounded(list, max) && max >= 1
    ensures ListGet(ListPut(list, key, value, now, max), key, later, ttl).1 == if later < now + ttl then Some(value) else None
  {
    hide Without, EvictTo, Keys;
    var list' := ListPut(list, key, value, now, max);
    PutBounded(list, key, value, now, max);
    assert list'[|list'| - 1] == Slot(key, Entry(value, now));
    GetExactly(list', key, later, ttl);
  }

  /** What is left after making room is a suffix, shorter by one exactly when there was none. */
  lemma {:induction false} EvictLaw(list: seq<Slot>, count: nat, max: nat)
    requires |list| <= count <= max && (count == |list| || count == |list| + 1)
    ensures EvictTo(list, count, max) == if count == max && list != [] then list[1..] else list
  {
    if count == max && list != [] {
      assert EvictTo(list[1..], count - 1, max) == list[1..];
    }
  }

  /** Slot `a` comes before slot `b`. */
  ghost predicate Ahead(list: seq<Slot>, a: Slot, b: Slot) {
    exists i, j :: 0 <= i < j < |list| && list[i] == a && list[j] == b
  }

  lemma {:induction false} AheadLater(list: seq<Slot>, a: Slot, b: Slot)
    requires list != []
    ensures Ahead(list[1..], a, b) ==> Ahead(list, a, b)
    ensures b in list[1..] ==> Ahead(list, list[0], b)
  {
    if Ahead(list[1..], a, b) {
      var i, j :| 0 <= i < j < |list[1..]| && list[1..][i] == a && list[1..][j] == b;
      assert list[i + 1] == a && list[j + 1] == b;
    }
    if b in list[1..] {
      var j :| 0 <= j < |list[1..]| && list[1..][j] == b;
      assert list[j + 1] == b;
    }
  }

  ghost predicate AllAhead(list: seq<Slot>, part: seq<Slot>) {
    forall i, j | 0 <= i < j < |part| :: Ahead(list, part[i], part[j])
  }

  lemma {:induction false} AllAheadLater(list: seq<Slot>, part: seq<Slot>)
    requires list != [] && AllAhead(list[1..], part) && forall i | 0 <= i < |part| :: part[i] in list[1..]
    ensures AllAhead(list, part) && AllAhead(list, [list[0]] + part)
  {
    hide Ahead;
    var more := [list[0]] + part;
    forall i, j | 0 <= i < j < |part| ensures Ahead(list, part[i], part[j]) { AheadLater(list, part[i], part[j]); }
    forall i, j | 0 <= i < j < |more| ensures Ahead(list, more[i], more[j]) {
      AheadLater(list, more[i], more[j]);
      assert more[j] == part[j - 1] && (i > 0 ==> more[i] == part[i - 1]);
    }
  }

  lemma {:induction false} WithoutInOrder(list: seq<Slot>, key: CacheKey)
    ensures AllAhead(list, Without(list, key))
  {
    if list != [] {
      hide AllAhead;
      WithoutInOrder(list[1..], key);
      WithoutMembers(list[1..], key);
      AllAheadLater(list, Without(list[1..], key));
      assert [] + Without(list[1..], key) == Without(list[1..], key);
    } else {
      assert Without(list, key) == [];
    }
  }

  /** What a lookup leaves: a slot that is hit becomes the latest, as it was; one whose time is up goes; all
      other slots stay, in their order. */
  lemma {:induction false} GetMoves(list: seq<Slot>, key: CacheKey, now: nat, ttl: nat)
    requires Distinct(list)
    ensures var (list', found) := ListGet(list, key, now, ttl);
            && (forall s: Slot | s.key != key :: s in list' <==> s in list)
            && (forall i, j | 0 <= i < j < |list'| && list'[j].key != key :: Ahead(list, list'[i], list'[j]))
            && (if found.Some? then list' != [] && list'[|list'| - 1].key == key && list'[|list'| - 1] in list
                else forall s: Slot | s in list' :: s.key != key)
  {
    hide Without, Ahead, Keys;
    var (list', found) := ListGet(list, key, now, ttl);
    WithoutLaw(list, key);
    WithoutInOrder(list, key);
    LookupLaw(list, key);
    if Lookup(list, key).Some? {
      KeyStored(list, key);
    } else {
      KeyMissing(list, key);
      forall i, j | 0 <= i < j < |list| ensures Ahead(list, list[i], list[j]) { AheadAt(list, i, j); }
    }
  }

  lemma {:induction false} AheadAt(list: seq<Slot>, i: nat, j: nat)
    requires i < j < |list|
    ensures Ahead(list, list[i], list[j])
  {
  }

  lemma {:induction false} KeyStored(list: seq<Slot>, key: CacheKey)
    requires Distinct(list) && Lookup(list, key).Some?
    ensures Slot(key, Lookup(list, key).value) in list
  {
    LookupLaw(list, key);
    var i :| 0 <= i < |list| && list[i].key == key;
  }

  lemma {:induction false} KeyMissing(list: seq<Slot>, key: CacheKey)
    requires Distinct(list) && Lookup(list, key).None?
    ensures forall s | s in list :: s.key != key
  {
    LookupLaw(list, key);
  }

  /** What a put leaves: the new slot is the latest; of the others only the oldest goes, and only if the cache
      was full, the key's own old slot counted. */
  lemma {:induction false} PutMoves(list: seq<Slot>, key: CacheKey, value: Cached, now: nat, max: nat)
    requires Bounded(list, max) && max >= 1
    ensures var list' := ListPut(list, key, value, now, max);
            && list' != [] && list'[|list'| - 1] == Slot(key, Entry(value, now))
            && (forall i | 0 <= i < |list'| - 1 :: list'[i].key != key)
            && (forall i, j | 0 <= i < j < |list'| - 1 :: Ahead(list, list'[i], list'[j]))
            && (forall s: Slot | s.key != key :: s in list' <==> s in list && !(|list| == max && IsOldest(list, key, s)))
  {
    hide EvictTo, Keys, Ahead, Without;
    var w := Without(list, key);
    WithoutLaw(list, key);
    WithoutInOrder(list, key);
    EvictLaw(w, |list|, max);
    OldestIsFirst(list, key);
    if |list| == max && w != [] {
      assert w == [w[0]] + w[1..];
      DistinctTail(w);
    }
  }

  /** The first slot of another key. */
  predicate IsOldest(list: seq<Slot>, key: CacheKey, s: Slot) {
    list != [] && s == if list[0].key != key || |list| == 1 then list[0] else list[1]
  }

  lemma {:induction false} OldestIsFirst(list: seq<Slot>, key: CacheKey)
    requires Distinct(list)
    ensures Without(list, key) != [] ==> forall s: Slot | s.key != key :: IsOldest(list, key, s) <==> s == Without(list, key)[0]
    ensures Without(list, key) == [] ==> forall s: Slot | s.key != key :: s !in list
  {
    WithoutLaw(list, key);
    if |list| >= 2 {
      assert list[1..][0] == list[1] && list[0].key != list[1].key;
      assert Without(list, key) == (if list[0].key == key then [] else [list[0]]) + Without(list[1..], key);
    }
  }

  // ------------------------------------------------------------------ runs

  datatype Op = Get(key: CacheKey, now: nat) | Put(key: CacheKey, value: Cached, now: nat)

  function Do(list: seq<Slot>, op: Op, max: nat, ttl: nat): seq<Slot> {
    match op
    case Get(key, now) => ListGet(list, key, now, ttl).0
    case Put(key, value, now) => ListPut(list, key, value, now, max)
  }

  function DoAll(list: seq<Slot>, ops: seq<Op>, max: nat, ttl: nat): seq<Slot> {
    if ops == [] then list
    else Do(DoAll(list, ops[..|ops| - 1], max, ttl), ops[|ops| - 1], max, ttl)
  }

  ghost predicate Bounded(list: seq<Slot>, max: nat) {
    Distinct(list) && |list| <= max
  }

  lemma {:induction false} AddDistinct(list: seq<Slot>, slot: Slot)
    requires Distinct(list) && forall i | 0 <= i < |list| :: list[i].key != slot.key
    ensures Distinct(list + [slot])
  {
  }

  lemma {:induction false} PutBounded(list: seq<Slot>, key: CacheKey, value: Cached, now: nat, max: nat)
    requires Bounded(list, max) && max >= 1
    ensures Bounded(ListPut(list, key, value, now, max), max)
  {
    hide Without, EvictTo, Keys;
    var w := Without(list, key);
    WithoutLaw(list, key);
    EvictLaw(w, |list|, max);
    var kept := EvictTo(w, |list|, max);
    assert kept == w || kept == w[1..];
    AddDistinct(kept, Slot(key, Entry(value, now)));
  }

  lemma {:induction false} GetBounded(list: seq<Slot>, key: CacheKey, now: nat, max: nat, ttl: nat)
    requires Bounded(list, max)
    ensures Bounded(ListGet(list, key, now, ttl).0, max)
  {
    hide Without, Lookup;
    var w := Without(list, key);
    WithoutLaw(list, key);
    LookupLaw(list, key);
    if Lookup(list, key).Some? {
      AddDistinct(w, Slot(key, Lookup(list, key).value));
    }
  }

  lemma {:induction false} DoBounded(list: seq<Slot>, op: Op, max: nat, ttl: nat)
    requires Bounded(list, max) && max >= 1
    ensures Bounded(Do(list, op, max, ttl), max)
  {
    hide Bounded, ListGet, ListPut;
    match op {
      case Get(key, now) => GetBounded(list, key, now, max, ttl);
      case Put(key, value, now) => PutBounded(list, key, value, now, max);
    }
  }

  lemma {:induction false} DoAllBounded(list: seq<Slot>, ops: seq<Op>, max: nat, ttl: nat)
    requires Bounded(list, max) && max >= 1
    ensures Bounded(DoAll(list, ops, max, ttl), max)
    decreases |ops|
  {
    hide Do, Bounded;
    if ops != [] {
      DoAllBounded(list, ops[..|ops| - 1], max, ttl);
      DoBounded(DoAll(list, ops[..|ops| - 1], max, ttl), ops[|ops| - 1], max, ttl);
    }
  }

  /** The entry that the latest put of the key in the run made. */
  function LatestPut(ops: seq<Op>, key: CacheKey): Option<Entry> {
    if ops == [] then None
    else
      var last := ops[|ops| - 1];
      if last.Put? && last.key == key then Some(Entry(last.value, last.now)) else LatestPut(ops[..|ops| - 1], key)
  }

  lemma {:induction false} SlotsAreLatest(ops: seq<Op>, max: nat, ttl: nat)
    requires max >= 1
    ensures var list := DoAll([], ops, max, ttl);
            forall i | 0 <= i < |list| :: LatestPut(ops, list[i].key) == Some(list[i].entry)
    decreases |ops|
  {
    if ops != [] {
      var before, op := DoAll([], ops[..|ops| - 1], max, ttl), ops[|ops| - 1];
      SlotsAreLatest(ops[..|ops| - 1], max, ttl);
      DoAllBounded([], ops[..|ops| - 1], max, ttl);
      WithoutLaw(before, op.key);
      LookupLaw(before, op.key);
      var list := Do(before, op, max, ttl);
      if op.Put? { EvictLaw(Without(before, op.key), |before|, max); }
      forall i | 0 <= i < |list| ensures LatestPut(ops, list[i].key) == Some(list[i].entry) {
        if list[i].key != op.key {
          assert list[i] in before;
        } else if op.Get? {
          var j :| 0 <= j < |before| && before[j].key == op.key;
        }
      }
    }
  }

  /** A hit returns the value of the latest put of that key, within its time limit. */
  lemma {:induction false} HitIsLatestPut(ops: seq<Op>, key: CacheKey, now: nat, max: nat, ttl: nat)
    requires max >= 1 && ListGet(DoAll([], ops, max, ttl), key, now, ttl).1.Some?
    ensures var e := LatestPut(ops, key);
            e.Some? && ListGet(DoAll([], ops, max, ttl), key, now, ttl).1 == Some(e.value.value) && now < e.value.cachedAt + ttl
  {
    var list := DoAll([], ops, max, ttl);
    SlotsAreLatest(ops, max, ttl);
    DoAllBounded([], ops, max, ttl);
    LookupLaw(list, key);
    var i :| 0 <= i < |list| && list[i].key == key;
  }

  // -------------------------------------------------------------- survival

  /** The other keys put or hit by a run, in any order. */
  ghost function Touched(list: seq<Slot>, ops: seq<Op>, max: nat, ttl: nat): set<CacheKey> {
    if ops == [] then {}
    else
      var init, last := ops[..|ops| - 1], ops[|ops| - 1];
      var before := DoAll(list, init, max, ttl);
      Touched(list, init, max, ttl)
      + if last.Put? || ListGet(before, last.key, last.now, ttl).1.Some? then {last.key} else {}
  }

  /** The key's slot is in the list, and all slots after it are of touched keys. */
  ghost predicate Behind(list: seq<Slot>, slot: Slot, touched: set<CacheKey>) {
    exists i :: 0 <= i < |list| && list[i] == slot && forall j | i < j < |list| :: list[j].key in touched
  }

  lemma {:induction false} KeysCount(list: seq<Slot>)
    requires Distinct(list)
    ensures |Keys(list)| == |list|
  {
    if list != [] {
      var n := |list| - 1;
      KeysCount(list[..n]);
      assert Keys(list) == Keys(list[..n]) + {list[n].key};
    }
  }

  lemma {:induction false} SubsetCount(a: set<CacheKey>, b: set<CacheKey>)
    requires a <= b
    ensures |a| <= |b|
  {
    assert b == a + (b - a);
  }

  lemma {:induction false} BehindParts(x: seq<Slot>, slot: Slot, y: seq<Slot>, touched: set<CacheKey>)
    requires forall j | 0 <= j < |y| :: y[j].key in touched
    ensures Behind(x + [slot] + y, slot, touched)
  {
    var list := x + [slot] + y;
    assert list[|x|] == slot;
    forall j | |x| < j < |list| ensures list[j].key in touched {
      assert list[j] == y[j - |x| - 1];
    }
  }

  lemma {:induction false} WithoutAround(a: seq<Slot>, slot: Slot, b: seq<Slot>, key: CacheKey)
    requires key != slot.key
    ensures Without(a + [slot] + b, key) == Without(a, key) + [slot] + Without(b, key)
  {
    WithoutConcat(a + [slot], b, key);
    WithoutConcat(a, [slot], key);
    var one := [slot];
    assert one[1..] == [] && Without(one, key) == one;
  }

  lemma {:induction false} GetSurvives(a: seq<Slot>, slot: Slot, b: seq<Slot>, touched: set<CacheKey>, op: Op, ttl: nat)
    requires op.Get? && op.key != slot.key
    requires forall j | 0 <= j < |b| :: b[j].key in touched
    ensures var (list', hit) := ListGet(a + [slot] + b, op.key, op.now, ttl);
            Behind(list', slot, touched + if hit.Some? then {op.key} else {})
  {
    hide Lookup, Without, Behind;
    var list := a + [slot] + b;
    var (list', hit) := ListGet(list, op.key, op.now, ttl);
    var wa, wb := Without(a, op.key), Without(b, op.key);
    WithoutAround(a, slot, b, op.key);
    WithoutLaw(b, op.key);
    if hit.Some? {
      var used := list'[|list'| - 1];
      assert list' == wa + [slot] + (wb + [used]);
      BehindParts(wa, slot, wb + [used], touched + {op.key});
    } else if list' == list {
      BehindParts(a, slot, b, touched + {});
    } else {
      BehindParts(wa, slot, wb, touched + {});
    }
  }

  lemma {:induction false} Regroup(a: seq<Slot>, slot: Slot, b: seq<Slot>, put: Slot)
    ensures a + [slot] + b + [put] == a + [slot] + (b + [put])
    ensures a != [] ==> (a + [slot] + b)[1..] + [put] == a[1..] + [slot] + (b + [put])
  {
  }

  lemma {:induction false} PutSurvives(a: seq<Slot>, slot: Slot, b: seq<Slot>, touched: set<CacheKey>, op: Op, max: nat)
    requires op.Put? && op.key != slot.key && Bounded(a + [slot] + b, max)
    requires forall j | 0 <= j < |b| :: b[j].key in touched
    requires |touched + {op.key}| + 1 < max
    ensures Behind(ListPut(a + [slot] + b, op.key, op.value, op.now, max), slot, touched + {op.key})
  {
    hide Without, Behind, EvictTo, Keys, Distinct;
    var list := a + [slot] + b;
    var wa, wb := Without(a, op.key), Without(b, op.key);
    WithoutAround(a, slot, b, op.key);
    WithoutLaw(b, op.key);
    WithoutLaw(list, op.key);
    var rest := wa + [slot] + wb;
    EvictLaw(rest, |list|, max);
    var put := Slot(op.key, Entry(op.value, op.now));
    Regroup(wa, slot, wb, put);
    if |list| < max {
      BehindParts(wa, slot, wb + [put], touched + {op.key});
    } else {
      if wa == [] { RoomEnough(a, slot, b, op.key, touched, max); }
      BehindParts(wa[1..], slot, wb + [put], touched + {op.key});
    }
  }

  /** One operation on another key keeps the slot while few keys have been touched. */
  lemma {:induction false} SurvivesOne(list: seq<Slot>, slot: Slot, touched: set<CacheKey>, op: Op, max: nat, ttl: nat)
    requires Bounded(list, max) && Behind(list, slot, touched) && op.key != slot.key
    requires var now := touched + if op.Put? || ListGet(list, op.key, op.now, ttl).1.Some? then {op.key} else {};
             |now| + 1 < max
    ensures var now := touched + if op.Put? || ListGet(list, op.key, op.now, ttl).1.Some? then {op.key} else {};
            Behind(Do(list, op, max, ttl), slot, now)
  {
    hide ListGet, ListPut, Bounded;
    var i :| 0 <= i < |list| && list[i] == slot && forall j | i < j < |list| :: list[j].key in touched;
    var a, b := list[..i], list[i + 1..];
    assert list == a + [slot] + b;
    if op.Put? {
      PutSurvives(a, slot, b, touched, op, max);
    } else {
      GetSurvives(a, slot, b, touched, op, ttl);
    }
  }

  lemma {:induction false} RoomEnough(
    a: seq<Slot>, slot: Slot, b: seq<Slot>, key: CacheKey, touched: set<CacheKey>, max: nat)
    requires Distinct(a + [slot] + b) && Without(a, key) == [] && key != slot.key
    requires forall j | 0 <= j < |b| :: b[j].key in touched
    requires |touched + {key}| + 1 < max
    ensures |a + [slot] + b| < max
  {
    var list := a + [slot] + b;
    WithoutLaw(a, key);
    assert Distinct(a) by { forall i, j | 0 <= i < j < |a| ensures a[i].key != a[j].key { assert list[i] == a[i] && list[j] == a[j]; } }
    assert Distinct(b) by {
      forall i, j | 0 <= i < j < |b| ensures b[i].key != b[j].key { assert list[|a| + 1 + i] == b[i] && list[|a| + 1 + j] == b[j]; }
    }
    assert |a| <= 1;
    KeysCount(b);
    SubsetCount(Keys(b), touched + {key});
    if |a| == 1 {
      assert a[0] in a;
      assert key !in Keys(b) by {
        forall j | 0 <= j < |b| ensures b[j].key != key { assert list[0] == a[0] && list[|a| + 1 + j] == b[j]; }
      }
      SubsetCount(Keys(b) + {key}, touched + {key});
    }
  }

  /** A key just used survives any run on other keys that puts or hits fewer than
      `max - 1` distinct ones. */
  lemma {:induction false} Survival(list: seq<Slot>, slot: Slot, ops: seq<Op>, max: nat, ttl: nat)
    requires Bounded(list, max) && list != [] && list[|list| - 1] == slot
    requires forall i | 0 <= i < |ops| :: ops[i].key != slot.key
    requires |Touched(list, ops, max, ttl)| + 1 < max
    ensures Behind(DoAll(list, ops, max, ttl), slot, Touched(list, ops, max, ttl))
    decreases |ops|
  {
    hide Do, ListGet;
    if ops != [] {
      var init, last := ops[..|ops| - 1], ops[|ops| - 1];
      var before := DoAll(list, init, max, ttl);
      SubsetCount(Touched(list, init, max, ttl), Touched(list, ops, max, ttl));
      Survival(list, slot, init, max, ttl);
      DoAllBounded(list, init, max, ttl);
      SurvivesOne(before, slot, Touched(list, init, max, ttl), last, max, ttl);
    }
  }

  /** A survivor is still a hit until its time is up. */
  lemma {:induction false} SurvivorIsHit(
    list: seq<Slot>, slot: Slot, ops: seq<Op>, max: nat, ttl: nat, now: nat)
    requires Bounded(list, max) && list != [] && list[|list| - 1] == slot
    requires forall i | 0 <= i < |ops| :: ops[i].key != slot.key
    requires |Touched(list, ops, max, ttl)| + 1 < max && now < slot.entry.cachedAt + ttl
    ensures ListGet(DoAll(list, ops, max, ttl), slot.key, now, ttl).1 == Some(slot.entry.value)
  {
    hide Touched;
    Survival(list, slot, ops, max, ttl);
    DoAllBounded(list, ops, max, ttl);
    LookupLaw(DoAll(list, ops, max, ttl), slot.key);
  }

  /** The bound is exact: with `max - 1` other keys touched, putting the oldest key again
      evicts the one behind it although no key is new. */
  lemma {:induction false} ReputEvictsAnother(list: seq<Slot>, value: Cached, now: nat)
    requires Distinct(list) && |list| >= 2
    ensures list[1].key !in Keys(ListPut(list, list[0].key, value, now, |list|))
    ensures |ListPut(list, list[0].key, value, now, |list|)| == |list| - 1
  {
    hide EvictTo;
    var key, rest := list[0].key, list[1..];
    assert forall i | 0 <= i < |rest| :: rest[i] == list[i + 1];
    assert Without(list, key) == Without(rest, key);
    assert Without(rest, key) == rest by { NothingToDrop(rest, key); }
    EvictLaw(rest, |list|, |list|);
    assert ListPut(list, key, value, now, |list|) == rest[1..] + [Slot(key, Entry(value, now))];
  }

  lemma {:induction false} NothingToDrop(list: seq<Slot>, key: CacheKey)
    requires forall i | 0 <= i < |list| :: list[i].key != key
    ensures Without(list, key) == list
  {
    if list != [] {
      NothingToDrop(list[1..], key);
    }
  }

  // ------------------------------------------------------------ the object

  function Retain(order: seq<CacheKey>, key: CacheKey): seq<CacheKey> {
    if order == [] then [] else (if order[0] == key then [] else [order[0]]) + Retain(order[1..], key)
  }

  ghost predicate NoRepeats(order: seq<CacheKey>) {
    forall i, j | 0 <= i < j < |order| :: order[i] != order[j]
  }

  class Cache {
    var entries: map<CacheKey, Entry>
    var accessOrder: seq<CacheKey>
    const maxSize: nat
    const ttl: nat

    /** The order list has each key of the map once, and at most `maxSize` of them. */
    ghost predicate Valid()
      reads this
    {
      && (maxSize >= 1 ==> |accessOrder| <= maxSize)
      && NoRepeats(accessOrder)
      && (forall k | k in entries :: k in accessOrder)
      && (forall k | k in accessOrder :: k in entries)
    }

    ghost function List(): seq<Slot>
      reads this
      requires Valid()
    {
      Slots(accessOrder, entries)
    }

    constructor (maxSize: nat, ttl: nat)
      ensures Valid() && List() == [] && this.maxSize == maxSize && this.ttl == ttl
    {
      this.maxSize, this.ttl := maxSize, ttl;
      entries, accessOrder := map[], [];
    }

    method Get(key: CacheKey, now: nat) returns (value: Option<Cached>)
      requires Valid()
      modifies this
      ensures Valid() && (List(), value) == ListGet(old(List()), key, now, ttl)
    {
      hide Without, Retain;
      LookupSlots(accessOrder, entries, key);
      if key !in entries {
        return None;
      }
      var entry := entries[key];
      RetainLaw(accessOrder, key);
      RetainSlots(accessOrder, entries, entries - {key}, key);
      RetainSlots(accessOrder, entries, entries, key);
      if now >= entry.cachedAt + ttl {
        entries := entries - {key};
        accessOrder := Retain(accessOrder, key);
        return None;
      }
      SlotsSnoc(Retain(accessOrder, key), key, entries);
      accessOrder := Retain(accessOrder, key) + [key];
      value := Some(entry.value);
    }

    method Put(key: CacheKey, value: Cached, now: nat)
      requires Valid()
      modifies this
      ensures Valid() && List() == ListPut(old(List()), key, value, now, maxSize)
    {
      hide Without, Retain, Slots, Distinct, Keys, NoRepeats, EvictTo;
      RetainLaw(accessOrder, key);
      RetainSlots(accessOrder, entries, entries, key);
      SizeLaw(accessOrder, entries);
      SlotsSize(accessOrder, entries);
      WithoutLaw(List(), key);
      accessOrder := Retain(accessOrder, key);
      SlotsSize(accessOrder, entries);
      MakeRoom(key);
      SlotsSize(accessOrder, entries);
      RepeatsSnoc(accessOrder, key);
      SlotsSame(accessOrder, entries, entries[key := Entry(value, now)]);
      SlotsSnoc(accessOrder, key, entries[key := Entry(value, now)]);
      entries := entries[key := Entry(value, now)];
      accessOrder := accessOrder + [key];
    }

    /** The eviction loop of a put: oldest keys go while the map is full, and the key's own stale entry,
        which is no longer in the order list, still counts. */
    method MakeRoom(key: CacheKey)
      requires NoRepeats(accessOrder) && |entries| >= |accessOrder|
      requires forall k | k in entries :: k in accessOrder || k == key
      requires forall k | k in accessOrder :: k in entries && k != key
      modifies this
      ensures NoRepeats(accessOrder) && |accessOrder| <= |old(accessOrder)|
      ensures |entries| < maxSize || accessOrder == []
      ensures |entries| - |accessOrder| == |old(entries)| - |old(accessOrder)|
      ensures forall k | k in entries :: k in accessOrder || k == key
      ensures forall k | k in accessOrder :: k in entries && k != key
      ensures |old(Slots(accessOrder, entries))| <= |old(entries)|
      ensures Slots(accessOrder, entries) == EvictTo(old(Slots(accessOrder, entries)), |old(entries)|, maxSize)
    {
      hide Slots, NoRepeats, EvictTo;
      SlotsSize(accessOrder, entries);
      ghost var room := EvictTo(Slots(accessOrder, entries), |entries|, maxSize);
      while |entries| >= maxSize && accessOrder != []
        invariant NoRepeats(accessOrder)
        invariant forall k | k in entries :: k in accessOrder || k == key
        invariant forall k | k in accessOrder :: k in entries && k != key
        invariant |entries| >= |accessOrder| && |Slots(accessOrder, entries)| == |accessOrder|
        invariant |accessOrder| <= |old(accessOrder)| && |entries| - |accessOrder| == |old(entries)| - |old(accessOrder)|
        invariant room == EvictTo(Slots(accessOrder, entries), |entries|, maxSize)
        decreases |accessOrder|
      {
        var oldest := accessOrder[0];
        EvictStep(Slots(accessOrder, entries), |entries|, maxSize);
        SlotsTail(accessOrder, entries);
        accessOrder := accessOrder[1..];
        entries := entries - {oldest};
        SlotsSize(accessOrder, entries);
      }
      EvictDone(Slots(accessOrder, entries), |entries|, maxSize);
    }
  }

  ghost function Slots(order: seq<CacheKey>, entries: map<CacheKey, Entry>): seq<Slot>
    requires forall k | k in order :: k in entries
  {
    seq(|order|, i requires 0 <= i < |order| => Slot(order[i], entries[order[i]]))
  }

  lemma {:induction false} EvictStep(list: seq<Slot>, count: nat, max: nat)
    requires count >= max && list != [] && count >= |list|
    ensures EvictTo(list, count, max) == EvictTo(list[1..], count - 1, max)
  {
  }

  lemma {:induction false} EvictDone(list: seq<Slot>, count: nat, max: nat)
    requires (count < max || list == []) && count >= |list|
    ensures EvictTo(list, count, max) == list
  {
  }

  lemma {:induction false} SlotsSize(order: seq<CacheKey>, entries: map<CacheKey, Entry>)
    requires forall k | k in order :: k in entries
    ensures |Slots(order, entries)| == |order|
  {
  }

  lemma {:induction false} SlotsSame(order: seq<CacheKey>, entries: map<CacheKey, Entry>, entries': map<CacheKey, Entry>)
    requires forall k | k in order :: k in entries && k in entries' && entries'[k] == entries[k]
    ensures Slots(order, entries') == Slots(order, entries)
  {
  }

  lemma {:induction false} RepeatsSnoc(order: seq<CacheKey>, key: CacheKey)
    requires NoRepeats(order) && key !in order
    ensures NoRepeats(order + [key])
  {
  }

  lemma {:induction false} SlotsSnoc(order: seq<CacheKey>, key: CacheKey, entries: map<CacheKey, Entry>)
    requires forall k | k in order + [key] :: k in entries
    ensures (forall k | k in order :: k in entries) && key in entries
    ensures Slots(order + [key], entries) == Slots(order, entries) + [Slot(key, entries[key])]
  {
    assert key in order + [key];
    forall k | k in order ensures k in entries { assert k in order + [key]; }
  }

  lemma {:induction false} SlotsTail(order: seq<CacheKey>, entries: map<CacheKey, Entry>)
    requires order != [] && (forall k | k in order :: k in entries)
    requires NoRepeats(order)
    ensures NoRepeats(order[1..]) && (forall k | k in order[1..] :: k in order && k != order[0])
    ensures (forall k | k in order[1..] :: k in entries - {order[0]})
    ensures Slots(order[1..], entries - {order[0]}) == Slots(order, entries)[1..]
  {
  }

  lemma {:induction false} RepeatsCons(first: CacheKey, rest: seq<CacheKey>)
    ensures NoRepeats([first] + rest) <==> NoRepeats(rest) && first !in rest
  {
    var order := [first] + rest;
    if NoRepeats(order) {
      forall i, j | 0 <= i < j < |rest| ensures rest[i] != rest[j] { assert order[i + 1] != order[j + 1]; }
      forall j | 0 <= j < |rest| ensures rest[j] != first { assert order[0] != order[j + 1]; }
    }
  }

  lemma {:induction false} RetainMembers(order: seq<CacheKey>, key: CacheKey)
    ensures forall k :: k in Retain(order, key) <==> k in order && k != key
    ensures |Retain(order, key)| <= |order| && (key in order ==> |Retain(order, key)| < |order|)
  {
    if order != [] {
      RetainMembers(order[1..], key);
      assert order == [order[0]] + order[1..];
    }
  }

  lemma {:induction false} RetainRepeats(order: seq<CacheKey>, key: CacheKey)
    requires NoRepeats(order)
    ensures NoRepeats(Retain(order, key))
  {
    if order != [] {
      hide NoRepeats;
      var rest := order[1..];
      assert order == [order[0]] + rest;
      RepeatsCons(order[0], rest);
      RetainRepeats(rest, key);
      RetainMembers(rest, key);
      RepeatsCons(order[0], Retain(rest, key));
    }
  }

  lemma {:induction false} RetainLaw(order: seq<CacheKey>, key: CacheKey)
    ensures forall k :: k in Retain(order, key) <==> k in order && k != key
    ensures NoRepeats(order) ==> NoRepeats(Retain(order, key))
    ensures |Retain(order, key)| <= |order| && (key in order ==> |Retain(order, key)| < |order|)
  {
    hide Retain, NoRepeats;
    RetainMembers(order, key);
    if NoRepeats(order) { RetainRepeats(order, key); }
  }

  lemma {:induction false} SlotsFirst(order: seq<CacheKey>, entries: map<CacheKey, Entry>)
    requires order != [] && forall k | k in order :: k in entries
    ensures forall k | k in order[1..] :: k in entries
    ensures Slots(order, entries) != [] && Slots(order, entries)[0] == Slot(order[0], entries[order[0]])
    ensures Slots(order, entries)[1..] == Slots(order[1..], entries)
    ensures Slots(order, entries) == [Slot(order[0], entries[order[0]])] + Slots(order[1..], entries)
  {
  }

  lemma {:induction false} RetainSlots(order: seq<CacheKey>, entries: map<CacheKey, Entry>, entries': map<CacheKey, Entry>, key: CacheKey)
    requires forall k | k in order :: k in entries
    requires forall k | k in order && k != key :: k in entries' && entries'[k] == entries[k]
    ensures (forall k | k in Retain(order, key) :: k in entries')
    ensures Slots(Retain(order, key), entries') == Without(Slots(order, entries), key)
  {
    RetainLaw(order, key);
    if order != [] {
      hide Slots;
      var rest := order[1..];
      assert order == [order[0]] + rest;
      RetainSlots(rest, entries, entries', key);
      SlotsFirst(order, entries);
      if order[0] != key {
        var kept := Retain(order, key);
        assert kept == [order[0]] + Retain(rest, key) && kept[1..] == Retain(rest, key);
        SlotsFirst(kept, entries');
      }
    }
  }

  lemma {:induction false} LookupSlots(order: seq<CacheKey>, entries: map<CacheKey, Entry>, key: CacheKey)
    requires forall k | k in order :: k in entries
    ensures Lookup(Slots(order, entries), key) == if key in order then Some(entries[key]) else None
  {
    if order != [] {
      assert order == [order[0]] + order[1..];
      LookupSlots(order[1..], entries, key);
      assert Slots(order, entries)[1..] == Slots(order[1..], entries);
    }
  }

  lemma {:induction false} SizeLaw(order: seq<CacheKey>, entries: map<CacheKey, Entry>)
    requires NoRepeats(order)
    requires (forall k | k in entries :: k in order) && (forall k | k in order :: k in entries)
    ensures |entries| == |order|
  {
    if order == [] {
      assert entries == map[];
    } else {
      var n := |order| - 1;
      assert order == order[..n] + [order[n]];
      SizeLaw(order[..n], entries - {order[n]});
    }
  }
}
