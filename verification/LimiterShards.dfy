/**
 The recency index of one limiter shard: two maps kept mutually inverse, and the
 duplicate-free sequence of keys (least recently used first) that they represent.
 */
module LimiterShards {
  import opened Wrappers

  const MAX_KEYS := 4096
  const LIMIT_SHARDS := 16
  const PER_SHARD_MAX := MAX_KEYS / LIMIT_SHARDS
  const PER_SHARD_REGULAR_MAX := PER_SHARD_MAX - 1
  const CLEANUP_BUDGET := 8

  ghost predicate Distinct<T>(s: seq<T>) {
    forall i, j :: 0 <= i < j < |s| ==> s[i] != s[j]
  }

  /** `s` without the occurrences of `x`, the rest in order. */
  function Without<T(==)>(s: seq<T>, x: T): seq<T> {
    if s == [] then []
    else Without(s[..|s| - 1], x) + if s[|s| - 1] == x then [] else [s[|s| - 1]]
  }

  lemma {:induction false} WithoutMembers<T>(s: seq<T>, x: T, y: T)
    ensures y in Without(s, x) <==> y in s && y != x
  {
    if s != [] {
      WithoutMembers(s[..|s| - 1], x, y);
      assert s == s[..|s| - 1] + [s[|s| - 1]];
    }
  }

  lemma {:induction false} WithoutAbsent<T>(s: seq<T>, x: T)
    requires x !in s
    ensures Without(s, x) == s
  {
    if s != [] {
      WithoutAbsent(s[..|s| - 1], x);
    }
  }

  lemma {:induction false} WithoutDistinct<T>(s: seq<T>, x: T)
    requires Distinct(s)
    ensures Distinct(Without(s, x))
  {
    if s != [] {
      WithoutDistinct(s[..|s| - 1], x);
      WithoutMembers(s[..|s| - 1], x, s[|s| - 1]);
    }
  }

  lemma {:induction false} WithoutKeepsOrder<K>(s: seq<K>, x: K, i: nat, j: nat) returns (i': nat, j': nat)
    requires i < j < |Without(s, x)|
    ensures i' < j' < |s| && s[i'] == Without(s, x)[i] && s[j'] == Without(s, x)[j]
  {
    var init := s[..|s| - 1];
    if j < |Without(init, x)| {
      i', j' := WithoutKeepsOrder(init, x, i, j);
    } else {
      i' := WithoutFrom(init, x, i);
      j' := |s| - 1;
    }
  }

  lemma {:induction false} WithoutFrom<K>(s: seq<K>, x: K, i: nat) returns (i': nat)
    requires i < |Without(s, x)|
    ensures i' < |s| && s[i'] == Without(s, x)[i]
  {
    if i < |Without(s[..|s| - 1], x)| {
      i' := WithoutFrom(s[..|s| - 1], x, i);
    } else {
      i' := |s| - 1;
    }
  }

  /** The last `n` elements, or all there are. */
  function LastOf<T>(s: seq<T>, n: nat): seq<T> {
    if |s| <= n then s else s[|s| - n..]
  }

  /** The shard that owns a key; `hash` stands for the fixed hash of keys. */
  function ShardIdx(hash: string -> nat, key: string): (i: nat)
    ensures i < LIMIT_SHARDS
  {
    hash(key) % LIMIT_SHARDS
  }

  /** One tracked key with the token of its latest touch. */
  datatype Stamp<K> = Stamp(touch: nat, key: K)

  ghost function Keys<K>(stamps: seq<Stamp<K>>): seq<K> {
    if stamps == [] then [] else Keys(stamps[..|stamps| - 1]) + [stamps[|stamps| - 1].key]
  }

  ghost function ByTouch<K>(stamps: seq<Stamp<K>>): map<nat, K> {
    if stamps == [] then map[]
    else ByTouch(stamps[..|stamps| - 1])[stamps[|stamps| - 1].touch := stamps[|stamps| - 1].key]
  }

  ghost function ByKey<K>(stamps: seq<Stamp<K>>): map<K, nat> {
    if stamps == [] then map[]
    else ByKey(stamps[..|stamps| - 1])[stamps[|stamps| - 1].key := stamps[|stamps| - 1].touch]
  }

  /** Tokens ascend (so they are distinct), none exceeds `top`, and no key is tracked twice. */
  ghost predicate Ordered<K>(stamps: seq<Stamp<K>>, top: nat) {
    stamps != [] ==>
      var last := stamps[|stamps| - 1];
      var init := stamps[..|stamps| - 1];
      last.touch <= top && last.touch > 0 && last.key !in ByKey(init) && Ordered(init, last.touch - 1)
  }

  lemma {:induction false} OrderedTop<K>(stamps: seq<Stamp<K>>, top: nat, t: nat)
    requires Ordered(stamps, top)
    ensures t in ByTouch(stamps) ==> 0 < t <= top
  {
    if stamps != [] {
      OrderedTop(stamps[..|stamps| - 1], stamps[|stamps| - 1].touch - 1, t);
    }
  }

  lemma {:induction false} OrderedRaise<K>(stamps: seq<Stamp<K>>, top: nat, top': nat)
    requires Ordered(stamps, top) && top <= top'
    ensures Ordered(stamps, top')
  {
  }

  /** The two maps of a stamp sequence are inverse to one another. */
  lemma {:induction false} MapsInverse<K>(stamps: seq<Stamp<K>>, top: nat, key: K, touch: nat)
    requires Ordered(stamps, top)
    ensures key in ByKey(stamps) && ByKey(stamps)[key] == touch <==>
            touch in ByTouch(stamps) && ByTouch(stamps)[touch] == key
  {
    if stamps != [] {
      var last := stamps[|stamps| - 1];
      var init := stamps[..|stamps| - 1];
      MapsInverse(init, last.touch - 1, key, touch);
      OrderedTop(init, last.touch - 1, touch);
      if touch in ByTouch(init) {
        MapsInverse(init, last.touch - 1, ByTouch(init)[touch], touch);
      }
    }
  }

  lemma {:induction false} KeysAreKeyed<K>(stamps: seq<Stamp<K>>, key: K)
    ensures key in Keys(stamps) <==> key in ByKey(stamps)
  {
    if stamps != [] {
      KeysAreKeyed(stamps[..|stamps| - 1], key);
    }
  }

  lemma {:induction false} KeysDistinct<K>(stamps: seq<Stamp<K>>, top: nat)
    requires Ordered(stamps, top)
    ensures Distinct(Keys(stamps))
  {
    if stamps != [] {
      var last := stamps[|stamps| - 1];
      KeysDistinct(stamps[..|stamps| - 1], last.touch - 1);
      KeysAreKeyed(stamps[..|stamps| - 1], last.key);
    }
  }

  /** The stamps of every key but `key`. */
  ghost function Drop<K>(stamps: seq<Stamp<K>>, key: K): seq<Stamp<K>> {
    if stamps == [] then []
    else if stamps[|stamps| - 1].key == key then Drop(stamps[..|stamps| - 1], key)
    else Drop(stamps[..|stamps| - 1], key) + [stamps[|stamps| - 1]]
  }

  lemma {:induction false} DropKeys<K>(stamps: seq<Stamp<K>>, key: K)
    ensures Keys(Drop(stamps, key)) == Without(Keys(stamps), key)
  {
    if stamps != [] {
      DropKeys(stamps[..|stamps| - 1], key);
      Snoc(Drop(stamps[..|stamps| - 1], key), stamps[|stamps| - 1]);
      Snoc(Keys(stamps[..|stamps| - 1]), stamps[|stamps| - 1].key);
    }
  }

  lemma {:induction false} Snoc<T>(s: seq<T>, x: T)
    ensures |s + [x]| == |s| + 1 && (s + [x])[|s + [x]| - 1] == x && (s + [x])[..|s + [x]| - 1] == s
    ensures s + [] == s
  {
  }

  lemma {:induction false} DropByKey<K>(stamps: seq<Stamp<K>>, key: K)
    ensures ByKey(Drop(stamps, key)) == ByKey(stamps) - {key}
  {
    if stamps != [] {
      DropByKey(stamps[..|stamps| - 1], key);
      Snoc(Drop(stamps[..|stamps| - 1], key), stamps[|stamps| - 1]);
    }
  }

  lemma {:induction false} DropOrdered<K>(stamps: seq<Stamp<K>>, top: nat, key: K)
    requires Ordered(stamps, top)
    ensures Ordered(Drop(stamps, key), top)
  {
    if stamps != [] {
      var last := stamps[|stamps| - 1];
      var init := stamps[..|stamps| - 1];
      DropOrdered(init, last.touch - 1, key);
      DropByKey(init, key);
      Snoc(Drop(init, key), last);
      if last.key == key { OrderedRaise(Drop(init, key), last.touch - 1, top); }
    }
  }

  lemma {:induction false} DropAbsent<K>(stamps: seq<Stamp<K>>, key: K)
    requires key !in ByKey(stamps)
    ensures Drop(stamps, key) == stamps
  {
    if stamps != [] {
      DropAbsent(stamps[..|stamps| - 1], key);
    }
  }

  lemma {:induction false} DropByTouch<K>(stamps: seq<Stamp<K>>, top: nat, key: K)
    requires Ordered(stamps, top) && key in ByKey(stamps)
    ensures ByTouch(Drop(stamps, key)) == ByTouch(stamps) - {ByKey(stamps)[key]}
  {
    var last := stamps[|stamps| - 1];
    var init := stamps[..|stamps| - 1];
    OrderedTop(init, last.touch - 1, last.touch);
    if last.key == key {
      DropAbsent(init, key);
    } else {
      DropByTouch(init, last.touch - 1, key);
      Snoc(Drop(init, key), last);
      MapsInverse(init, last.touch - 1, key, ByKey(init)[key]);
    }
  }

  /** The stamps behind the first: ordered, later and without its key. */
  lemma {:induction false} BehindFirst<K>(first: Stamp<K>, stamps: seq<Stamp<K>>, top: nat)
    requires Ordered([first] + stamps, top)
    ensures Ordered(stamps, top) && first.key !in ByKey(stamps)
    ensures forall t :: t in ByTouch(stamps) ==> first.touch < t
    ensures Keys([first] + stamps) == [first.key] + Keys(stamps)
  {
    var all := [first] + stamps;
    if stamps == [] {
      assert all[..0] == [];
    } else {
      var last, init := stamps[|stamps| - 1], stamps[..|stamps| - 1];
      assert all[..|all| - 1] == [first] + init;
      BehindFirst(first, init, last.touch - 1);
      FirstInMaps(first, init);
      OrderedTop([first] + init, last.touch - 1, first.touch);
    }
  }

  lemma {:induction false} FirstInMaps<K>(first: Stamp<K>, stamps: seq<Stamp<K>>)
    ensures first.key in ByKey([first] + stamps) && first.touch in ByTouch([first] + stamps)
    ensures forall k :: k in ByKey(stamps) ==> k in ByKey([first] + stamps)
  {
    var all := [first] + stamps;
    if stamps == [] {
      assert all[..0] == [];
    } else {
      assert all[..|all| - 1] == [first] + stamps[..|stamps| - 1];
      FirstInMaps(first, stamps[..|stamps| - 1]);
    }
  }

  lemma {:induction false} FirstByKey<K>(first: Stamp<K>, stamps: seq<Stamp<K>>)
    requires first.key !in ByKey(stamps)
    ensures ByKey([first] + stamps) == ByKey(stamps)[first.key := first.touch]
  {
    var all := [first] + stamps;
    if stamps == [] {
      assert all[..0] == [];
    } else {
      assert all[..|all| - 1] == [first] + stamps[..|stamps| - 1];
      FirstByKey(first, stamps[..|stamps| - 1]);
    }
  }

  lemma {:induction false} FirstByTouch<K>(first: Stamp<K>, stamps: seq<Stamp<K>>)
    requires first.touch !in ByTouch(stamps)
    ensures ByTouch([first] + stamps) == ByTouch(stamps)[first.touch := first.key]
  {
    var all := [first] + stamps;
    if stamps == [] {
      assert all[..0] == [];
    } else {
      assert all[..|all| - 1] == [first] + stamps[..|stamps| - 1];
      FirstByTouch(first, stamps[..|stamps| - 1]);
    }
  }

  lemma {:induction false} PushFront<K>(first: Stamp<K>, stamps: seq<Stamp<K>>, top: nat)
    requires Ordered([first] + stamps, top)
    ensures ByKey([first] + stamps) == ByKey(stamps)[first.key := first.touch]
    ensures ByTouch([first] + stamps) == ByTouch(stamps)[first.touch := first.key]
    ensures first.key !in ByKey(stamps) && Ordered(stamps, top) && Keys([first] + stamps) == [first.key] + Keys(stamps)
    ensures forall t :: t in ByTouch(stamps) ==> first.touch < t
  {
    BehindFirst(first, stamps, top);
    FirstByKey(first, stamps);
    FirstByTouch(first, stamps);
  }

  /** What touching `key` does to the represented stamps. */
  lemma {:induction false} TouchFacts<K>(stamps: seq<Stamp<K>>, top: nat, key: K)
    requires Ordered(stamps, top)
    ensures var s := Drop(stamps, key) + [Stamp(top + 1, key)];
            && Ordered(s, top + 1)
            && Keys(s) == Without(Keys(stamps), key) + [key]
            && ByKey(s) == (ByKey(stamps) - {key})[key := top + 1]
            && ByTouch(s) == (if key in ByKey(stamps) then ByTouch(stamps) - {ByKey(stamps)[key]}
                              else ByTouch(stamps))[top + 1 := key]
  {
    Snoc(Drop(stamps, key), Stamp(top + 1, key));
    DropOrdered(stamps, top, key);
    DropKeys(stamps, key);
    DropByKey(stamps, key);
    if key in ByKey(stamps) {
      DropByTouch(stamps, top, key);
    } else {
      DropAbsent(stamps, key);
    }
  }

  /** What removing the oldest stamp does to the two maps. */
  lemma {:induction false} PopFacts<K>(stamps: seq<Stamp<K>>, top: nat)
    requires Ordered(stamps, top) && stamps != []
    ensures var first := stamps[0];
            && first.touch in ByTouch(stamps) && ByTouch(stamps)[first.touch] == first.key
            && (forall t :: t in ByTouch(stamps) ==> first.touch <= t)
            && Ordered(stamps[1..], top)
            && Keys(stamps) == [first.key] + Keys(stamps[1..])
            && ByTouch(stamps[1..]) == ByTouch(stamps) - {first.touch}
            && ByKey(stamps[1..]) == ByKey(stamps) - {first.key}
            && first.touch <= top
  {
    assert [stamps[0]] + stamps[1..] == stamps;
    PushFront(stamps[0], stamps[1..], top);
    OrderedTop(stamps, top, stamps[0].touch);
  }

  /** The smallest key of a map; `least` shows that there is one. */
  method First<K>(m: map<nat, K>, ghost least: nat) returns (t: nat)
    requires least in m && forall u :: u in m ==> least <= u
    ensures t == least
  {
    t :| t in m && forall u :: u in m ==> t <= u;
  }

  class TouchOrder<K(==)> {
    var oldest: map<nat, K>
    var touches: map<K, nat>
    var nextTouch: nat
    ghost var stamps: seq<Stamp<K>>  // what the two maps represent, oldest first

    ghost predicate Valid()
      reads this
    {
      Ordered(stamps, nextTouch) && oldest == ByTouch(stamps) && touches == ByKey(stamps)
    }

    /** The tracked keys, least recently used first. */
    ghost function Order(): seq<K>
      reads this
    {
      Keys(stamps)
    }

    constructor ()
      ensures Valid() && Order() == []
    {
      oldest, touches, nextTouch, stamps := map[], map[], 0, [];
    }

    /** Marks `key` most recently used. */
    method Touch(key: K)
      requires Valid()
      modifies this
      ensures Valid() && Order() == Without(old(Order()), key) + [key]
      ensures nextTouch == old(nextTouch) + 1
    {
      TouchFacts(stamps, nextTouch, key);
      if key in touches {
        var previousTouch := touches[key];
        touches := touches - {key};
        oldest := oldest - {previousTouch};
      }
      nextTouch := nextTouch + 1;
      oldest := oldest[nextTouch := key];
      touches := touches[key := nextTouch];
      stamps := Drop(stamps, key) + [Stamp(nextTouch, key)];
    }

    /** Removes and returns the oldest token with its key. */
    method PopOldest() returns (entry: Option<(nat, K)>)
      requires Valid()
      modifies this
      ensures Valid() && nextTouch == old(nextTouch)
      ensures old(stamps) == [] ==> entry == None && stamps == []
      ensures old(stamps) != [] ==>
                && entry == Some((old(stamps)[0].touch, old(stamps)[0].key))
                && stamps == old(stamps)[1..]
                && old(Order()) == [old(stamps)[0].key] + Order()
    {
      if stamps != [] {
        PopFacts(stamps, nextTouch);
      }
      if oldest == map[] {
        return None;
      }
      var t := First(oldest, stamps[0].touch);
      var key := oldest[t];
      oldest := oldest - {t};
      touches := touches - {key};
      stamps := stamps[1..];
      entry := Some((t, key));
    }

    /** Puts a popped entry back under its former token, ahead of every later one. */
    method Restore(touch: nat, key: K)
      requires Valid() && Ordered([Stamp(touch, key)] + stamps, nextTouch)
      modifies this
      ensures Valid() && nextTouch == old(nextTouch)
      ensures stamps == [Stamp(touch, key)] + old(stamps) && Order() == [key] + old(Order())
    {
      PushFront(Stamp(touch, key), stamps, nextTouch);
      oldest := oldest[touch := key];
      touches := touches[key := touch];
      stamps := [Stamp(touch, key)] + stamps;
    }
  }
}
