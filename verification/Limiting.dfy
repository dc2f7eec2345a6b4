/**
 The shard behind every limiter: who is stored, in which order of use, who is let in, and what a bounded sweep
 takes out.

 `ShardState` and the functions over it say what each operation computes; `Shard` is the
 object that updates its two fields in place.
 */
module Limiting {
  import opened Wrappers
  import opened LimiterShards

  const LIMIT_REQ_OVERFLOW := "__pingsix_limit_req_overflow__"
  const LIMIT_CONN_OVERFLOW := "__pingsix_limit_conn_overflow__"
  const LIMIT_COUNT_OVERFLOW := "__pingsix_limit_count_overflow__"

  /** Where a key that a sweep examined and kept goes: back to the front of the order, or to its end. */
  datatype SweepMiss = Restore | PushBack

  datatype ShardState<K, V> = ShardState(order: seq<K>, entries: map<K, V>)

  function Lookup<K, V>(st: ShardState<K, V>, k: K): Option<V> {
    if k in st.entries then Some(st.entries[k]) else None
  }

  /** An entry without state is always evictable. */
  predicate Evictable<K, V>(entries: map<K, V>, k: K, evict: V -> bool) {
    k !in entries || evict(entries[k])
  }

  function SweepStep<K, V>(st: ShardState<K, V>, evict: V -> bool, onMiss: SweepMiss): ShardState<K, V>
    requires st.order != []
  {
    var k := st.order[0];
    if Evictable(st.entries, k, evict) then ShardState(st.order[1..], st.entries - {k})
    else if onMiss == Restore then st
    else ShardState(st.order[1..] + [k], st.entries)
  }

  function Sweep<K, V>(st: ShardState<K, V>, evict: V -> bool, onMiss: SweepMiss, budget: nat): ShardState<K, V>
    decreases budget
  {
    if budget == 0 || st.order == [] then st
    else Sweep(SweepStep(st, evict, onMiss), evict, onMiss, budget - 1)
  }

  // ----- what a sweep removes -----

  function Elements<T>(s: seq<T>): set<T> {
    set k | k in s
  }

  /** The length of the longest evictable prefix of `order`, capped. */
  function EvictablePrefix<K, V>(order: seq<K>, entries: map<K, V>, evict: V -> bool, cap: nat): nat {
    if cap == 0 || order == [] || !Evictable(entries, order[0], evict) then 0
    else 1 + EvictablePrefix(order[1..], entries, evict, cap - 1)
  }

  lemma {:induction false} EvictablePrefixIsLongest<K, V>(order: seq<K>, entries: map<K, V>, evict: V -> bool, cap: nat)
    ensures var p := EvictablePrefix(order, entries, evict, cap);
            && p <= cap && p <= |order|
            && (forall i :: 0 <= i < p ==> Evictable(entries, order[i], evict))
            && (p < cap && p < |order| ==> !Evictable(entries, order[p], evict))
  {
    if cap > 0 && order != [] && Evictable(entries, order[0], evict) {
      EvictablePrefixIsLongest(order[1..], entries, evict, cap - 1);
      var p := EvictablePrefix(order[1..], entries, evict, cap - 1);
      forall i | 0 <= i < p + 1 ensures Evictable(entries, order[i], evict) {
        if i > 0 { assert order[i] == order[1..][i - 1]; }
      }
    }
  }

  lemma {:induction false} SweepStuck<K, V>(st: ShardState<K, V>, evict: V -> bool, budget: nat)
    requires st.order != [] && !Evictable(st.entries, st.order[0], evict)
    ensures Sweep(st, evict, Restore, budget) == st
  {
    if budget > 0 {
      SweepStuck(st, evict, budget - 1);
    }
  }

  /** A restoring sweep goes through a run of evictable keys. */
  lemma {:induction false} SweepEvicts<K, V>(a: seq<K>, c: seq<K>, entries: map<K, V>, evict: V -> bool)
    requires forall i :: 0 <= i < |a| ==> Evictable(entries, a[i], evict)
    ensures Sweep(ShardState(a + c, entries), evict, Restore, |a|) == ShardState(c, entries - Elements(a))
  {
    if a == [] {
      assert a + c == c && entries - Elements(a) == entries;
    } else {
      var x, a' := a[0], a[1..];
      assert a == [x] + a' && (a + c)[1..] == a' + c;
      assert SweepStep(ShardState(a + c, entries), evict, Restore) == ShardState(a' + c, entries - {x});
      SweepEvicts(a', c, entries - {x}, evict);
      assert Elements(a) == {x} + Elements(a');
    }
  }

  /** A restoring sweep removes exactly the longest evictable prefix, capped at the budget. */
  lemma {:induction false} SweepRestoreExact<K, V>(st: ShardState<K, V>, evict: V -> bool, budget: nat)
    requires Distinct(st.order)
    ensures var p := EvictablePrefix(st.order, st.entries, evict, budget);
            && p <= |st.order|
            && Sweep(st, evict, Restore, budget)
               == ShardState(st.order[p..], st.entries - Elements(st.order[..p]))
  {
    EvictablePrefixIsLongest(st.order, st.entries, evict, budget);
    var p := EvictablePrefix(st.order, st.entries, evict, budget);
    var after := ShardState(st.order[p..], st.entries - Elements(st.order[..p]));
    assert st.order[..p] + st.order[p..] == st.order;
    SweepEvicts(st.order[..p], st.order[p..], st.entries, evict);
    SweepCompose(st, evict, Restore, p, budget - p);
    if p < budget && p < |st.order| {
      SweepStuck(after, evict, budget - p);
    }
  }

  /** The keys of `order` that survive, in order. */
  function Survivors<K, V>(order: seq<K>, entries: map<K, V>, evict: V -> bool): seq<K> {
    if order == [] then []
    else (if Evictable(entries, order[0], evict) then [] else [order[0]]) + Survivors(order[1..], entries, evict)
  }

  function Evicted<K, V>(order: seq<K>, entries: map<K, V>, evict: V -> bool): set<K> {
    set k | k in order && Evictable(entries, k, evict)
  }

  lemma {:induction false} SurvivorsCongruent<K, V>(order: seq<K>, entries: map<K, V>, x: K, evict: V -> bool)
    requires x !in order
    ensures Survivors(order, entries - {x}, evict) == Survivors(order, entries, evict)
  {
    if order != [] {
      SurvivorsCongruent(order[1..], entries, x, evict);
    }
  }

  /** What examining the first key `x` of `[x] + a` does, in terms of the round over `a`. */
  lemma {:induction false} PushBackFirst<K, V>(x: K, a: seq<K>, c: seq<K>, entries: map<K, V>, evict: V -> bool)
    ensures Sweep(ShardState([x] + a + c, entries), evict, PushBack, |a| + 1)
            == if Evictable(entries, x, evict) then Sweep(ShardState(a + c, entries - {x}), evict, PushBack, |a|)
               else Sweep(ShardState(a + (c + [x]), entries), evict, PushBack, |a|)
  {
    var st := ShardState([x] + a + c, entries);
    assert st.order[0] == x && st.order[1..] == a + c;
    assert st.order[1..] + [x] == a + (c + [x]);
  }

  /** The entries after examining the keys of `a` one by one. */
  function Spared<K, V>(a: seq<K>, entries: map<K, V>, evict: V -> bool): map<K, V> {
    if a == [] then entries
    else Spared(a[1..], if Evictable(entries, a[0], evict) then entries - {a[0]} else entries, evict)
  }

  lemma {:induction false} SparedExact<K, V>(a: seq<K>, entries: map<K, V>, evict: V -> bool)
    requires Distinct(a)
    ensures Spared(a, entries, evict) == entries - Evicted(a, entries, evict)
  {
    if a != [] {
      var x, a' := a[0], a[1..];
      assert a == [x] + a' && x !in a';
      if Evictable(entries, x, evict) {
        SparedExact(a', entries - {x}, evict);
        assert Evicted(a, entries, evict) == {x} + Evicted(a', entries - {x}, evict);
      } else {
        SparedExact(a', entries, evict);
        assert Evicted(a, entries, evict) == Evicted(a', entries, evict);
      }
    }
  }

  lemma {:induction false} SweepPushBackRun<K, V>(a: seq<K>, c: seq<K>, entries: map<K, V>, evict: V -> bool)
    requires Distinct(a)
    ensures Sweep(ShardState(a + c, entries), evict, PushBack, |a|)
            == ShardState(c + Survivors(a, entries, evict), Spared(a, entries, evict))
  {
    if a == [] {
      assert a + c == c && c + [] == c;
    } else {
      var x, a' := a[0], a[1..];
      assert a == [x] + a' && x !in a';
      PushBackFirst(x, a', c, entries, evict);
      if Evictable(entries, x, evict) {
        SweepPushBackRun(a', c, entries - {x}, evict);
        SurvivorsCongruent(a', entries, x, evict);
        assert [] + Survivors(a', entries, evict) == Survivors(a', entries, evict);
      } else {
        SweepPushBackRun(a', c + [x], entries, evict);
        assert c + [x] + Survivors(a', entries, evict) == c + ([x] + Survivors(a', entries, evict));
      }
    }
  }

  /** Examining `a` at the front of the order appends its survivors, in order, behind `c`. */
  lemma {:induction false} SweepPushBackRound<K, V>(a: seq<K>, c: seq<K>, entries: map<K, V>, evict: V -> bool)
    requires Distinct(a)
    ensures Sweep(ShardState(a + c, entries), evict, PushBack, |a|)
            == ShardState(c + Survivors(a, entries, evict), entries - Evicted(a, entries, evict))
  {
    SweepPushBackRun(a, c, entries, evict);
    SparedExact(a, entries, evict);
  }

  lemma {:induction false} SweepCompose<K, V>(st: ShardState<K, V>, evict: V -> bool, onMiss: SweepMiss, b: nat, c: nat)
    ensures Sweep(st, evict, onMiss, b + c) == Sweep(Sweep(st, evict, onMiss, b), evict, onMiss, c)
    decreases b
  {
    if b > 0 && st.order != [] {
      SweepCompose(SweepStep(st, evict, onMiss), evict, onMiss, b - 1, c);
    }
  }

  function Rotate<T>(s: seq<T>, times: nat): seq<T>
    decreases times
  {
    if times == 0 || s == [] then s else Rotate(s[1..] + [s[0]], times - 1)
  }

  lemma {:induction false} SweepRotates<K, V>(st: ShardState<K, V>, evict: V -> bool, budget: nat)
    requires forall k :: k in st.order ==> !Evictable(st.entries, k, evict)
    ensures Sweep(st, evict, PushBack, budget) == ShardState(Rotate(st.order, budget), st.entries)
    decreases budget
  {
    if budget > 0 && st.order != [] {
      var next := SweepStep(st, evict, PushBack);
      assert forall k :: k in next.order ==> k in st.order;
      SweepRotates(next, evict, budget - 1);
    }
  }

  lemma {:induction false} SurvivorsSurvive<K, V>(order: seq<K>, entries: map<K, V>, evict: V -> bool, k: K)
    ensures k in Survivors(order, entries, evict) <==> k in order && !Evictable(entries, k, evict)
  {
    if order != [] {
      SurvivorsSurvive(order[1..], entries, evict, k);
    }
  }

  /**
   A push-back sweep removes exactly the evictable keys among the first `min(budget, n)`. With enough
   keys the survivors follow the unexamined ones; otherwise every key is examined once and what is
   left of the budget rotates the survivors.
   */
  lemma {:induction false} SweepPushBackExact<K, V>(st: ShardState<K, V>, evict: V -> bool, budget: nat)
    requires Distinct(st.order)
    ensures budget <= |st.order| ==>
              Sweep(st, evict, PushBack, budget)
              == ShardState(st.order[budget..] + Survivors(st.order[..budget], st.entries, evict),
                            st.entries - Evicted(st.order[..budget], st.entries, evict))
    ensures |st.order| <= budget ==>
              Sweep(st, evict, PushBack, budget)
              == ShardState(Rotate(Survivors(st.order, st.entries, evict), budget - |st.order|),
                            st.entries - Evicted(st.order, st.entries, evict))
  {
    var n := |st.order|;
    if budget <= n {
      assert st.order[..budget] + st.order[budget..] == st.order;
      SweepPushBackRound(st.order[..budget], st.order[budget..], st.entries, evict);
    }
    if n <= budget {
      SweepPushBackAll(st, evict, budget);
    }
  }

  lemma {:induction false} SweepPushBackAll<K, V>(st: ShardState<K, V>, evict: V -> bool, budget: nat)
    requires Distinct(st.order) && |st.order| <= budget
    ensures Sweep(st, evict, PushBack, budget)
            == ShardState(Rotate(Survivors(st.order, st.entries, evict), budget - |st.order|),
                          st.entries - Evicted(st.order, st.entries, evict))
  {
    var n := |st.order|;
    var round := ShardState(Survivors(st.order, st.entries, evict), st.entries - Evicted(st.order, st.entries, evict));
    assert st.order + [] == st.order && [] + round.order == round.order;
    SweepPushBackRound(st.order, [], st.entries, evict);
    SweepCompose(st, evict, PushBack, n, budget - n);
    SurvivorsStay(st.order, st.entries, evict);
    SweepRotates(round, evict, budget - n);
  }

  lemma {:induction false} SurvivorsStay<K, V>(order: seq<K>, entries: map<K, V>, evict: V -> bool)
    ensures forall k :: k in Survivors(order, entries, evict) ==>
              !Evictable(entries - Evicted(order, entries, evict), k, evict)
  {
    forall k | k in Survivors(order, entries, evict)
      ensures !Evictable(entries - Evicted(order, entries, evict), k, evict)
    {
      SurvivorsSurvive(order, entries, evict, k);
    }
  }

  /** A sweep only removes entries that meet the eviction predicate, and changes no value. */
  lemma {:induction false} SweepSound<K, V>(st: ShardState<K, V>, evict: V -> bool, onMiss: SweepMiss, budget: nat,
                                            k: K)
    ensures var after := Sweep(st, evict, onMiss, budget);
            Lookup(after, k) == Lookup(st, k) || (Lookup(after, k) == None && evict(Lookup(st, k).value))
    decreases budget
  {
    if budget > 0 && st.order != [] {
      SweepSound(SweepStep(st, evict, onMiss), evict, onMiss, budget - 1, k);
    }
  }

  // ----- admission -----

  /** The shard as admission leaves it before a slot is chosen: swept if it is full for a new key. */
  function SweptFor<K, V>(st: ShardState<K, V>, key: K, evict: V -> bool, onMiss: SweepMiss): ShardState<K, V> {
    if key !in st.entries && |st.entries| >= PER_SHARD_REGULAR_MAX then Sweep(st, evict, onMiss, CLEANUP_BUDGET) else st
  }

  /** The state after admitting `key`, before the caller fills the entry, and the slot it is given. */
  function Admit<K(==), V>(st: ShardState<K, V>, key: K, overflow: K, evict: V -> bool, onMiss: SweepMiss)
    : (ShardState<K, V>, K)
  {
    var swept := SweptFor(st, key, evict, onMiss);
    var slot := if key in st.entries || |swept.entries| < PER_SHARD_REGULAR_MAX then key else overflow;
    (ShardState(Without(swept.order, slot) + [slot], swept.entries), slot)
  }

  /** Admitting `key` and storing `v` in the slot it is given. */
  function AdmitInsert<K(==), V>(st: ShardState<K, V>, key: K, overflow: K, evict: V -> bool, onMiss: SweepMiss, v: V)
    : ShardState<K, V>
  {
    var (admitted, slot) := Admit(st, key, overflow, evict, onMiss);
    ShardState(admitted.order, admitted.entries[slot := v])
  }

  /** The recency index tracks exactly the stored keys, and the capacity is respected. */
  ghost predicate WithinBounds<K, V>(st: ShardState<K, V>, overflow: K) {
    && Distinct(st.order)
    && Elements(st.order) == st.entries.Keys
    && |st.entries.Keys - {overflow}| <= PER_SHARD_REGULAR_MAX
  }

  /** Taking the first element off a duplicate-free sequence, and putting it back at the end. */
  lemma {:induction false} FirstOff<T>(s: seq<T>)
    requires s != [] && Distinct(s)
    ensures Distinct(s[1..]) && Elements(s[1..]) == Elements(s) - {s[0]}
    ensures Distinct(s[1..] + [s[0]]) && Elements(s[1..] + [s[0]]) == Elements(s)
  {
    var first, rest := s[0], s[1..];
    assert s == [first] + rest;
    assert forall x :: x in s <==> x == first || x in rest;
    assert forall x :: x in rest + [first] <==> x == first || x in rest;
  }

  lemma {:induction false} SweepStepKeepsIndex<K, V>(st: ShardState<K, V>, evict: V -> bool, onMiss: SweepMiss)
    requires st.order != [] && Distinct(st.order) && Elements(st.order) == st.entries.Keys
    ensures var next := SweepStep(st, evict, onMiss);
            Distinct(next.order) && Elements(next.order) == next.entries.Keys && next.entries.Keys <= st.entries.Keys
  {
    FirstOff(st.order);
  }

  lemma {:induction false} SweepKeepsIndex<K, V>(st: ShardState<K, V>, evict: V -> bool, onMiss: SweepMiss, budget: nat)
    requires Distinct(st.order) && Elements(st.order) == st.entries.Keys
    ensures var after := Sweep(st, evict, onMiss, budget);
            && Distinct(after.order) && Elements(after.order) == after.entries.Keys
            && after.entries.Keys <= st.entries.Keys
    decreases budget
  {
    if budget > 0 && st.order != [] {
      var next := SweepStep(st, evict, onMiss);
      SweepStepKeepsIndex(st, evict, onMiss);
      SweepKeepsIndex(next, evict, onMiss, budget - 1);
    }
  }

  lemma {:induction false} Cardinalities<T>(a: set<T>, b: set<T>)
    requires a <= b
    ensures |a| <= |b|
  {
    assert b == a + (b - a);
  }

  lemma {:induction false} TouchKeepsIndex<K>(order: seq<K>, slot: K)
    requires Distinct(order)
    ensures Distinct(Without(order, slot) + [slot])
    ensures Elements(Without(order, slot) + [slot]) == Elements(order) + {slot}
  {
    WithoutDistinct(order, slot);
    var w := Without(order, slot);
    forall y ensures y in w <==> y in order && y != slot {
      WithoutMembers(order, slot, y);
    }
    forall i | 0 <= i < |w| ensures w[i] != slot {
      assert w[i] in w;
    }
    forall y ensures y in Elements(w + [slot]) <==> y in Elements(order) + {slot} {
      assert y in w + [slot] <==> y in w || y == slot;
    }
    assert Elements(w + [slot]) == Elements(order) + {slot};
  }

  lemma {:induction false} SlotFits<K>(keys: set<K>, slot: K, overflow: K)
    requires |keys - {overflow}| <= PER_SHARD_REGULAR_MAX
    requires slot == overflow || slot in keys || |keys| < PER_SHARD_REGULAR_MAX
    ensures |(keys + {slot}) - {overflow}| <= PER_SHARD_REGULAR_MAX && |keys + {slot}| <= PER_SHARD_MAX
  {
    var regular := keys - {overflow};
    if slot == overflow {
      assert (keys + {slot}) - {overflow} == regular;
    } else if slot in keys {
      assert keys + {slot} == keys;
    } else {
      assert (keys + {slot}) - {overflow} == regular + {slot};
      Cardinalities(regular, keys);
    }
    Cardinalities(keys + {slot}, ((keys + {slot}) - {overflow}) + {overflow});
  }

  lemma {:induction false} SweptForKeepsBounds<K, V>(st: ShardState<K, V>, key: K, overflow: K, evict: V -> bool,
                                                     onMiss: SweepMiss)
    requires WithinBounds(st, overflow)
    ensures WithinBounds(SweptFor(st, key, evict, onMiss), overflow)
  {
    SweepKeepsIndex(st, evict, onMiss, CLEANUP_BUDGET);
    Cardinalities(SweptFor(st, key, evict, onMiss).entries.Keys - {overflow}, st.entries.Keys - {overflow});
  }

  // ----- when room is made -----

  /** How many entries a sweep takes out: an evictable prefix, or the evictable ones among those examined. */
  function Removable<K, V>(st: ShardState<K, V>, evict: V -> bool, onMiss: SweepMiss): nat {
    if onMiss == Restore then EvictablePrefix(st.order, st.entries, evict, CLEANUP_BUDGET)
    else |Evicted(Examined(st.order), st.entries, evict)|
  }

  function Examined<K>(order: seq<K>): seq<K> {
    if |order| <= CLEANUP_BUDGET then order else order[..CLEANUP_BUDGET]
  }

  lemma {:induction false} DistinctCount<T>(s: seq<T>)
    requires Distinct(s)
    ensures |Elements(s)| == |s|
  {
    if s != [] {
      var init := s[..|s| - 1];
      DistinctCount(init);
      var last := s[|s| - 1];
      assert s == init + [last] && last !in init;
      assert Elements(s) == Elements(init) + {last};
    }
  }

  lemma {:induction false} RemovedCount<K, V>(entries: map<K, V>, gone: set<K>)
    requires gone <= entries.Keys
    ensures |entries - gone| == |entries| - |gone|
  {
    assert (entries - gone).Keys == entries.Keys - gone;
    assert entries.Keys == (entries.Keys - gone) + gone;
    assert |(entries - gone).Keys| == |entries - gone| && |entries.Keys| == |entries|;
  }

  lemma {:induction false} SweepRemoves<K, V>(st: ShardState<K, V>, evict: V -> bool, onMiss: SweepMiss)
    requires Distinct(st.order) && Elements(st.order) == st.entries.Keys
    ensures |Sweep(st, evict, onMiss, CLEANUP_BUDGET).entries| == |st.entries| - Removable(st, evict, onMiss)
  {
    if onMiss == Restore {
      var p := EvictablePrefix(st.order, st.entries, evict, CLEANUP_BUDGET);
      SweepRestoreExact(st, evict, CLEANUP_BUDGET);
      DistinctCount(st.order[..p]);
      assert Elements(st.order[..p]) <= Elements(st.order);
      RemovedCount(st.entries, Elements(st.order[..p]));
    } else {
      SweepPushBackExact(st, evict, CLEANUP_BUDGET);
      var gone := Evicted(Examined(st.order), st.entries, evict);
      assert gone <= Elements(st.order);
      RemovedCount(st.entries, gone);
    }
  }

  /** There is room for `key`: it is stored, or the shard is not full, or a sweep makes it so. */
  predicate RoomFor<K(==), V>(st: ShardState<K, V>, key: K, evict: V -> bool, onMiss: SweepMiss) {
    || key in st.entries || |st.entries| < PER_SHARD_REGULAR_MAX
    || |st.entries| - Removable(st, evict, onMiss) < PER_SHARD_REGULAR_MAX
  }

  /** Main result on admission: a key gets its own slot exactly when there is room for it. */
  lemma {:induction false} OwnSlotIffRoom<K, V>(st: ShardState<K, V>, key: K, overflow: K, evict: V -> bool,
                                                onMiss: SweepMiss)
    requires WithinBounds(st, overflow) && key != overflow
    ensures Admit(st, key, overflow, evict, onMiss).1 == key <==> RoomFor(st, key, evict, onMiss)
  {
    SweepRemoves(st, evict, onMiss);
  }

  lemma {:induction false} TwoRemovable<K, V>(st: ShardState<K, V>, evict: V -> bool, onMiss: SweepMiss)
    requires Distinct(st.order) && |st.order| >= 2
    requires Evictable(st.entries, st.order[0], evict) && Evictable(st.entries, st.order[1], evict)
    ensures Removable(st, evict, onMiss) >= 2
  {
    if onMiss == Restore {
      EvictablePrefixIsLongest(st.order, st.entries, evict, CLEANUP_BUDGET);
    } else {
      var examined := Examined(st.order);
      assert examined[0] == st.order[0] && examined[1] == st.order[1];
      Cardinalities({st.order[0], st.order[1]}, Evicted(examined, st.entries, evict));
    }
  }

  /** Two idle entries at the head of the order are always enough. */
  lemma {:induction false} TwoIdleMakeRoom<K, V>(st: ShardState<K, V>, key: K, overflow: K, evict: V -> bool,
                                                 onMiss: SweepMiss)
    requires WithinBounds(st, overflow) && key != overflow && |st.order| >= 2
    requires Evictable(st.entries, st.order[0], evict) && Evictable(st.entries, st.order[1], evict)
    ensures Admit(st, key, overflow, evict, onMiss).1 == key
  {
    TwoRemovable(st, evict, onMiss);
    Cardinalities(st.entries.Keys, (st.entries.Keys - {overflow}) + {overflow});
    assert |st.entries| == |st.entries.Keys|;
    OwnSlotIffRoom(st, key, overflow, evict, onMiss);
  }

  /** One admission keeps the bounds, keeps a resident key in its slot, and puts that slot last. */
  lemma {:induction false} AdmitKeepsBounds<K, V>(st: ShardState<K, V>, key: K, overflow: K, evict: V -> bool,
                                                  onMiss: SweepMiss, v: V)
    requires WithinBounds(st, overflow)
    ensures var after := AdmitInsert(st, key, overflow, evict, onMiss, v);
            var slot := Admit(st, key, overflow, evict, onMiss).1;
            && WithinBounds(after, overflow)
            && |after.entries| <= PER_SHARD_MAX
            && (slot == key || (slot == overflow && key !in st.entries))
            && after.order[|after.order| - 1] == slot
  {
    SweptForKeepsBounds(st, key, overflow, evict, onMiss);
    SweptAdmission(SweptFor(st, key, evict, onMiss), Admit(st, key, overflow, evict, onMiss).1, overflow, v);
  }

  lemma {:induction false} SweptAdmission<K, V>(swept: ShardState<K, V>, slot: K, overflow: K, v: V)
    requires WithinBounds(swept, overflow)
    requires slot == overflow || slot in swept.entries || |swept.entries| < PER_SHARD_REGULAR_MAX
    ensures var after := ShardState(Without(swept.order, slot) + [slot], swept.entries[slot := v]);
            WithinBounds(after, overflow) && |after.entries| <= PER_SHARD_MAX
  {
    TouchKeepsIndex(swept.order, slot);
    SlotFits(swept.entries.Keys, slot, overflow);
    assert swept.entries[slot := v].Keys == swept.entries.Keys + {slot};
  }

  /** What one admission can do to the entry `k` of another slot: nothing, or evict it. */
  lemma {:induction false} OtherSlot<K, V>(st: ShardState<K, V>, key: K, overflow: K, evict: V -> bool,
                                           onMiss: SweepMiss, v: V, k: K)
    requires Admit(st, key, overflow, evict, onMiss).1 != k
    ensures var after := AdmitInsert(st, key, overflow, evict, onMiss, v);
            Lookup(after, k) == Lookup(st, k) || (Lookup(after, k) == None && evict(Lookup(st, k).value))
  {
    SweepSound(st, evict, onMiss, CLEANUP_BUDGET, k);
  }

  /** A key admitted to its own slot finds there exactly what was stored before. */
  lemma {:induction false} OwnSlot<K, V>(st: ShardState<K, V>, key: K, overflow: K, evict: V -> bool, onMiss: SweepMiss)
    requires Admit(st, key, overflow, evict, onMiss).1 == key
    ensures Lookup(Admit(st, key, overflow, evict, onMiss).0, key) == Lookup(st, key)
  {
    SweepSound(st, evict, onMiss, CLEANUP_BUDGET, key);
  }

  /** A key that has the shard to itself. */
  lemma {:induction false} OnlyKey<K, V>(st: ShardState<K, V>, key: K, overflow: K, evict: V -> bool, onMiss: SweepMiss,
                                         v: V)
    requires st.order == [] || st.order == [key]
    requires st.entries.Keys == Elements(st.order)
    ensures Admit(st, key, overflow, evict, onMiss) == (ShardState([key], st.entries), key)
    ensures AdmitInsert(st, key, overflow, evict, onMiss, v) == ShardState([key], map[key := v])
  {
    assert Without([key], key) == [];
    Cardinalities(st.entries.Keys, {key});
    assert |st.entries| == |st.entries.Keys| <= 1 && Without(st.order, key) + [key] == [key];
    assert st.entries[key := v].Keys == {key};
  }

  /** As long as the keys of a shard fit, with one slot to spare for the reserved one, each gets its own slot. */
  lemma {:induction false} FewKeysFit<K, V>(st: ShardState<K, V>, key: K, overflow: K, evict: V -> bool,
                                            onMiss: SweepMiss, v: V, keys: set<K>)
    requires st.entries.Keys <= keys && key in keys && |keys| <= PER_SHARD_REGULAR_MAX
    ensures Admit(st, key, overflow, evict, onMiss).1 == key
    ensures AdmitInsert(st, key, overflow, evict, onMiss, v).entries.Keys <= keys
  {
    if key !in st.entries {
      Cardinalities(st.entries.Keys, keys - {key});
    }
    SweepShrinks(st, evict, onMiss, CLEANUP_BUDGET);
  }

  lemma {:induction false} SweepShrinks<K, V>(st: ShardState<K, V>, evict: V -> bool, onMiss: SweepMiss, budget: nat)
    ensures Sweep(st, evict, onMiss, budget).entries.Keys <= st.entries.Keys
    decreases budget
  {
    if budget > 0 && st.order != [] {
      SweepShrinks(SweepStep(st, evict, onMiss), evict, onMiss, budget - 1);
    }
  }

  // ----- whole runs of one shard -----

  datatype Admission<K, !V> = Admission(key: K, evict: V -> bool, onMiss: SweepMiss, value: V)

  function RunAdmissions<K(==), V>(overflow: K, ops: seq<Admission<K, V>>): ShardState<K, V> {
    if ops == [] then ShardState([], map[])
    else
      var op := ops[|ops| - 1];
      AdmitInsert(RunAdmissions(overflow, ops[..|ops| - 1]), op.key, overflow, op.evict, op.onMiss, op.value)
  }

  /**
   However a shard is used, it holds at most 256 entries, at most 255 of them under a key other than the
   overflow key, and its recency index lists exactly the stored keys, each once.
   */
  lemma {:induction false} RunStaysWithinBounds<K, V>(overflow: K, ops: seq<Admission<K, V>>)
    ensures var st := RunAdmissions(overflow, ops);
            WithinBounds(st, overflow) && |st.entries| <= PER_SHARD_MAX
  {
    if ops != [] {
      var op := ops[|ops| - 1];
      RunStaysWithinBounds(overflow, ops[..|ops| - 1]);
      AdmitKeepsBounds(RunAdmissions(overflow, ops[..|ops| - 1]), op.key, overflow, op.evict, op.onMiss, op.value);
    }
  }

  /** The shard that operation `i` of a run finds. */
  function ShardBefore<K(==), V>(overflow: K, ops: seq<Admission<K, V>>, i: nat): ShardState<K, V>
    requires i < |ops|
  {
    RunAdmissions(overflow, ops[..i])
  }

  /** Over any run a key is never sent to the overflow slot exactly when there is room at each of its admissions. */
  lemma {:induction false} NeverOverflowsIffRoom<K, V>(overflow: K, ops: seq<Admission<K, V>>, key: K)
    requires key != overflow
    ensures (forall i :: 0 <= i < |ops| && ops[i].key == key ==>
               Admit(ShardBefore(overflow, ops, i), key, overflow, ops[i].evict, ops[i].onMiss).1 == key)
            <==> (forall i :: 0 <= i < |ops| && ops[i].key == key ==>
                    RoomFor(ShardBefore(overflow, ops, i), key, ops[i].evict, ops[i].onMiss))
  {
    forall i | 0 <= i < |ops|
      ensures Admit(ShardBefore(overflow, ops, i), key, overflow, ops[i].evict, ops[i].onMiss).1 == key
              <==> RoomFor(ShardBefore(overflow, ops, i), key, ops[i].evict, ops[i].onMiss)
    {
      RunStaysWithinBounds(overflow, ops[..i]);
      OwnSlotIffRoom(ShardBefore(overflow, ops, i), key, overflow, ops[i].evict, ops[i].onMiss);
    }
  }

  // ----- the order of a restoring shard is that of the last admissions -----

  /** The slot that operation `i` is given. */
  function SlotGiven<K(==), V>(overflow: K, ops: seq<Admission<K, V>>, i: nat): K
    requires i < |ops|
  {
    Admit(ShardBefore(overflow, ops, i), ops[i].key, overflow, ops[i].evict, ops[i].onMiss).1
  }

  /** The last of the first `n` operations that was given `slot`, or -1. */
  function LastGiven<K(==), V>(overflow: K, ops: seq<Admission<K, V>>, n: nat, slot: K): int
    requires n <= |ops|
  {
    if n == 0 then -1
    else if SlotGiven(overflow, ops, n - 1) == slot then n - 1
    else LastGiven(overflow, ops, n - 1, slot)
  }

  ghost predicate Ascends<K>(order: seq<K>, since: K -> int) {
    forall i, j :: 0 <= i < j < |order| ==> since(order[i]) < since(order[j])
  }

  function GivenAt<K(==), V>(overflow: K, ops: seq<Admission<K, V>>, n: nat): K -> int
    requires n <= |ops|
  {
    (slot: K) => LastGiven(overflow, ops, n, slot)
  }

  lemma {:induction false} LastGivenBefore<K, V>(overflow: K, ops: seq<Admission<K, V>>, n: nat, slot: K)
    requires n <= |ops|
    ensures LastGiven(overflow, ops, n, slot) < n
  {
    if n > 0 {
      LastGivenBefore(overflow, ops, n - 1, slot);
    }
  }

  /** A slot taken out and put last, when it has become the latest of all. */
  lemma {:induction false} TouchedAscends<K>(order: seq<K>, slot: K, before: K -> int, after: K -> int)
    requires Ascends(order, before)
    requires forall k :: k in order && k != slot ==> after(k) == before(k) < after(slot)
    ensures Ascends(Without(order, slot) + [slot], after)
  {
    var w := Without(order, slot);
    forall i, j | 0 <= i < j < |w + [slot]| ensures after((w + [slot])[i]) < after((w + [slot])[j]) {
      assert w[i] in w;
      WithoutMembers(order, slot, w[i]);
      if j < |w| {
        assert w[j] in w;
        WithoutMembers(order, slot, w[j]);
        var i', j' := WithoutKeepsOrder(order, slot, i, j);
      }
    }
  }

  lemma {:induction false} AdmissionAscends<K, V>(st: ShardState<K, V>, op: Admission<K, V>, overflow: K,
                                                  before: K -> int, after: K -> int, now: int)
    requires Distinct(st.order) && Ascends(st.order, before) && op.onMiss == Restore
    requires forall k {:trigger after(k)} {:trigger before(k)} ::
               before(k) < now
               && after(k) == if k == Admit(st, op.key, overflow, op.evict, op.onMiss).1 then now else before(k)
    ensures Ascends(AdmitInsert(st, op.key, overflow, op.evict, op.onMiss, op.value).order, after)
  {
    SweepRestoreExact(st, op.evict, CLEANUP_BUDGET);
    var swept := SweptFor(st, op.key, op.evict, Restore);
    TouchedAscends(swept.order, Admit(st, op.key, overflow, op.evict, op.onMiss).1, before, after);
  }

  lemma {:induction false} NextGiven<K, V>(overflow: K, ops: seq<Admission<K, V>>, n: nat)
    requires n < |ops|
    ensures RunAdmissions(overflow, ops[..n + 1])
            == AdmitInsert(ShardBefore(overflow, ops, n), ops[n].key, overflow, ops[n].evict, ops[n].onMiss,
                           ops[n].value)
    ensures forall k {:trigger GivenAt(overflow, ops, n + 1)(k)} {:trigger GivenAt(overflow, ops, n)(k)} ::
              GivenAt(overflow, ops, n)(k) < n
              && GivenAt(overflow, ops, n + 1)(k)
                 == if k == SlotGiven(overflow, ops, n) then n else GivenAt(overflow, ops, n)(k)
  {
    assert ops[..n + 1][..n] == ops[..n] && ops[..n + 1][n] == ops[n];
    forall k {:trigger GivenAt(overflow, ops, n)(k)} ensures GivenAt(overflow, ops, n)(k) < n {
      LastGivenBefore(overflow, ops, n, k);
    }
  }

  lemma {:induction false} NextAscends<K, V>(overflow: K, ops: seq<Admission<K, V>>, n: nat)
    requires n < |ops| && ops[n].onMiss == Restore
    requires Ascends(ShardBefore(overflow, ops, n).order, GivenAt(overflow, ops, n))
    ensures Ascends(RunAdmissions(overflow, ops[..n + 1]).order, GivenAt(overflow, ops, n + 1))
  {
    RunStaysWithinBounds(overflow, ops[..n]);
    NextGiven(overflow, ops, n);
    AdmissionAscends(ShardBefore(overflow, ops, n), ops[n], overflow, GivenAt(overflow, ops, n),
                     GivenAt(overflow, ops, n + 1), n);
  }

  /** A sweep that restores what it keeps therefore looks at the keys that have been idle longest. */
  lemma {:induction false} OrderIsRecency<K, V>(overflow: K, ops: seq<Admission<K, V>>, n: nat)
    requires n <= |ops| && forall i :: 0 <= i < |ops| ==> ops[i].onMiss == Restore
    ensures Ascends(RunAdmissions(overflow, ops[..n]).order, GivenAt(overflow, ops, n))
  {
    if n > 0 {
      OrderIsRecency(overflow, ops, n - 1);
      assert ShardBefore(overflow, ops, n - 1) == RunAdmissions(overflow, ops[..n - 1]);
      NextAscends(overflow, ops, n - 1);
    }
  }

  // ----- the object -----

  class Shard<K(==), V> {
    var entries: map<K, V>
    const touchOrder: TouchOrder<K>

    ghost predicate Valid()
      reads this, touchOrder
    {
      touchOrder.Valid()
    }

    ghost function State(): ShardState<K, V>
      reads this, touchOrder
    {
      ShardState(touchOrder.Order(), entries)
    }

    constructor ()
      ensures Valid() && fresh(touchOrder) && State() == ShardState([], map[])
    {
      entries := map[];
      touchOrder := new TouchOrder();
    }

    method Touch(key: K)
      requires Valid()
      modifies touchOrder
      ensures Valid() && State() == ShardState(Without(old(State()).order, key) + [key], old(entries))
    {
      touchOrder.Touch(key);
    }

    /** Takes out the head of the order, whatever is stored for it. */
    method EvictOldest()
      requires Valid()
      modifies this, touchOrder
      ensures Valid()
      ensures old(State()).order == [] ==> State() == old(State())
      ensures old(State()).order != [] ==>
                State() == ShardState(old(State()).order[1..], old(entries) - {old(State()).order[0]})
    {
      var entry := touchOrder.PopOldest();
      match entry {
        case None =>
        case Some((_, key)) => entries := entries - {key};
      }
    }

    /** Examines the oldest entry, if there is one. */
    method ExamineOldest(evict: V -> bool, onMiss: SweepMiss) returns (found: bool)
      requires Valid()
      modifies this, touchOrder
      ensures Valid() && found == (old(State()).order != [])
      ensures State() == if found then SweepStep(old(State()), evict, onMiss) else old(State())
    {
      ghost var stamps, top := touchOrder.stamps, touchOrder.nextTouch;
      var entry := touchOrder.PopOldest();
      if entry.None? {
        return false;
      }
      var (touch, key) := entry.value;
      if Evictable(entries, key, evict) {
        entries := entries - {key};
      } else if onMiss == Restore {
        assert [Stamp(touch, key)] + touchOrder.stamps == stamps;
        touchOrder.Restore(touch, key);
      } else {
        PoppedIsAbsent(stamps, top);
        WithoutAbsent(touchOrder.Order(), key);
        touchOrder.Touch(key);
      }
      found := true;
    }

    /** Examines at most `CLEANUP_BUDGET` oldest entries. */
    method SweepOldest(evict: V -> bool, onMiss: SweepMiss)
      requires Valid()
      modifies this, touchOrder
      ensures Valid() && State() == Sweep(old(State()), evict, onMiss, CLEANUP_BUDGET)
    {
      for i := 0 to CLEANUP_BUDGET
        invariant Valid()
        invariant Sweep(State(), evict, onMiss, CLEANUP_BUDGET - i)
                  == Sweep(old(State()), evict, onMiss, CLEANUP_BUDGET)
      {
        var found := ExamineOldest(evict, onMiss);
        if !found {
          break;
        }
      }
    }

    static lemma {:induction false} PoppedIsAbsent(stamps: seq<Stamp<K>>, top: nat)
      requires Ordered(stamps, top) && stamps != []
      ensures stamps[0].key !in Keys(stamps[1..])
    {
      assert [stamps[0]] + stamps[1..] == stamps;
      PushFront(stamps[0], stamps[1..], top);
      KeysAreKeyed(stamps[1..], stamps[0].key);
    }

    /** Admits `key` and names the slot whose entry the caller fills or updates. */
    method AdmitKey(key: K, overflowKey: K, evict: V -> bool, onMiss: SweepMiss) returns (slot: K)
      requires Valid()
      modifies this, touchOrder
      ensures Valid() && (State(), slot) == Admit(old(State()), key, overflowKey, evict, onMiss)
    {
      var isNew := key !in entries;
      if isNew && |entries| >= PER_SHARD_REGULAR_MAX {
        SweepOldest(evict, onMiss);
      }
      slot := if !isNew || |entries| < PER_SHARD_REGULAR_MAX then key else overflowKey;
      Touch(slot);
    }

    /** Writes the entry of an admitted slot. */
    method Insert(slot: K, v: V)
      requires Valid()
      modifies this
      ensures Valid() && State() == ShardState(old(State()).order, old(entries)[slot := v])
    {
      entries := entries[slot := v];
    }
  }
}
