/**
 The circuit breaker api-breaker: status-code bitsets, the fixed-capacity LRU of breaker states, and the state
 machine of one breaker as a function of the responses it has seen. Times are whole nanoseconds.
 */
module ApiBreaker {
  import opened Wrappers
  import opened Arithmetic
  import opened LimiterShards
  import opened Limiting

  const MAX_EXPONENT: nat := 30
  const MAX_BREAKER_KEYS: nat := 1024

  // ----- status-code sets -----

  const WORDS: nat := 10
  const WORD_BITS: nat := 64

  class StatusCodeSet {
    var bits: array<bv64>

    ghost predicate Valid()
      reads this
    {
      bits.Length == WORDS
    }

    predicate Contains(status: nat)
      requires Valid()
      reads this, bits
    {
      status < WORDS * WORD_BITS && TestBit(bits[status / WORD_BITS], Place(status))
    }

    /** Holds exactly the listed statuses below 640. */
    constructor FromStatuses(statuses: seq<nat>)
      ensures Valid() && fresh(bits)
      ensures forall s: nat :: Contains(s) <==> s in statuses && s < 640
    {
      bits := new bv64[WORDS](_ => 0);
      new;
      EmptyWord();
      for i := 0 to |statuses|
        invariant Valid() && fresh(bits)
        invariant forall s: nat :: Contains(s) <==> s in statuses[..i] && s < 640
      {
        var idx := statuses[i];
        if idx < 640 {
          var before := bits[idx / WORD_BITS];
          bits[idx / WORD_BITS] := SetBit(before, Place(idx));
          forall s: nat | s / WORD_BITS == idx / WORD_BITS
            ensures TestBit(bits[idx / WORD_BITS], Place(s)) <==> TestBit(before, Place(s)) || s == idx
          {
            SetBitTests();
            PlaceIdentifies(s, idx);
          }
        }
        assert statuses[..i + 1] == statuses[..i] + [idx];
      }
      assert statuses[..|statuses|] == statuses;
    }
  }

  /** The place of a status within its word. */
  function Place(status: nat): bv6 {
    (status % WORD_BITS) as bv6
  }

  function SetBit(word: bv64, b: bv6): bv64 {
    word | (1 << b)
  }

  predicate TestBit(word: bv64, b: bv6) {
    word & (1 << b) != 0
  }

  lemma {:induction false} EmptyWord()
    ensures forall b: bv6 :: !TestBit(0, b)
  {
  }

  lemma {:induction false} SetBitTests()
    ensures forall word: bv64, b: bv6, c: bv6 :: TestBit(SetBit(word, b), c) <==> TestBit(word, c) || b == c
  {
  }

  /** Word and place tell a status apart from every other. */
  lemma {:induction false} PlaceIdentifies(s: nat, t: nat)
    ensures s / WORD_BITS == t / WORD_BITS && Place(s) == Place(t) <==> s == t
  {
    BitsOf(s % WORD_BITS);
    BitsOf(t % WORD_BITS);
    assert s == s / WORD_BITS * WORD_BITS + s % WORD_BITS && t == t / WORD_BITS * WORD_BITS + t % WORD_BITS;
  }

  lemma {:induction false} BitsOf(m: nat)
    requires m < WORD_BITS
    ensures (m as bv6) as nat == m
  {
  }

  // ----- the bounded map of breaker states -----

  type Slots<K, V> = ShardState<K, V>

  /** The map after an access to `key`: recency refreshed, a missing key filled in, one entry evicted if needed. */
  function Access<K(==), V>(st: Slots<K, V>, key: K, initial: V): Slots<K, V> {
    var room := if key !in st.entries && |st.entries| >= MAX_BREAKER_KEYS && st.order != []
                then ShardState(st.order[1..], st.entries - {st.order[0]}) else st;
    ShardState(Without(room.order, key) + [key],
               if key in room.entries then room.entries else room.entries[key := initial])
  }

  class BreakerStates {
    const shard: Shard<string, BreakerState>

    constructor ()
      ensures shard.Valid() && fresh(shard) && fresh(shard.touchOrder) && shard.State() == ShardState([], map[])
    {
      shard := new Shard();
    }

    /** The state of `key`, created on first use; the caller updates it in place. */
    method Entry(key: string) returns (state: BreakerState)
      requires shard.Valid()
      modifies shard, shard.touchOrder
      ensures shard.Valid() && shard.State() == Access(old(shard.State()), key, CLOSED)
      ensures key in shard.entries && state == shard.entries[key] == Found(old(shard.State()), key)
    {
      if key !in shard.entries && |shard.entries| >= MAX_BREAKER_KEYS {
        shard.EvictOldest();
      }
      shard.Touch(key);
      if key !in shard.entries {
        shard.Insert(key, CLOSED);
      }
      state := shard.entries[key];
    }
  }

  /** One use of the map: an access to `key`, which leaves `left` behind as its state. */
  datatype Use<K, V> = Use(key: K, left: V)

  function RunUses<K(==), V>(uses: seq<Use<K, V>>, initial: V): Slots<K, V> {
    if uses == [] then ShardState([], map[])
    else
      var u := uses[|uses| - 1];
      var st := Access(RunUses(uses[..|uses| - 1], initial), u.key, initial);
      ShardState(st.order, st.entries[u.key := u.left])
  }

  /** The index of the last use of `key`, or -1. */
  function LastUse<K(==), V>(uses: seq<Use<K, V>>, key: K): int {
    if uses == [] then -1
    else if uses[|uses| - 1].key == key then |uses| - 1
    else LastUse(uses[..|uses| - 1], key)
  }

  /** The distinct keys used, by last use. */
  function ByLastUse<K(==), V>(uses: seq<Use<K, V>>): seq<K> {
    if uses == [] then []
    else Without(ByLastUse(uses[..|uses| - 1]), uses[|uses| - 1].key) + [uses[|uses| - 1].key]
  }

  lemma {:induction false} ByLastUseMembers<K, V>(uses: seq<Use<K, V>>, key: K)
    ensures key in ByLastUse(uses) <==> LastUse(uses, key) >= 0
    ensures -1 <= LastUse(uses, key) < |uses|
    ensures LastUse(uses, key) >= 0 ==> uses[LastUse(uses, key)].key == key
  {
    if uses != [] {
      ByLastUseMembers(uses[..|uses| - 1], key);
      WithoutMembers(ByLastUse(uses[..|uses| - 1]), uses[|uses| - 1].key, key);
    }
  }

  /** `ByLastUse` does list every used key once, in the order of last use. */
  lemma {:induction false} ByLastUseAscends<K, V>(uses: seq<Use<K, V>>, i: nat, j: nat)
    requires i < j < |ByLastUse(uses)|
    ensures LastUse(uses, ByLastUse(uses)[i]) < LastUse(uses, ByLastUse(uses)[j])
  {
    var init, key := uses[..|uses| - 1], uses[|uses| - 1].key;
    var r := ByLastUse(init);
    var w := Without(r, key);
    assert w[i] in w;
    WithoutMembers(r, key, w[i]);
    ByLastUseMembers(init, w[i]);
    if j < |w| {
      assert w[j] in w;
      WithoutMembers(r, key, w[j]);
      var i', j' := WithoutKeepsOrder(r, key, i, j);
      ByLastUseAscends(init, i', j');
    }
  }

  lemma {:induction false} WithoutConcat<K>(a: seq<K>, b: seq<K>, x: K)
    ensures Without(a + b, x) == Without(a, x) + Without(b, x)
  {
    if b == [] {
      assert a + b == a;
    } else {
      WithoutConcat(a, b[..|b| - 1], x);
      var init, last := b[..|b| - 1], b[|b| - 1];
      assert (a + b)[..|a + b| - 1] == a + init && (a + b)[|a + b| - 1] == last;
      var kept := if last == x then [] else [last];
      assert Without(a + b, x) == Without(a + init, x) + kept && Without(b, x) == Without(init, x) + kept;
    }
  }

  lemma {:induction false} ByLastUseDistinct<K, V>(uses: seq<Use<K, V>>)
    ensures Distinct(ByLastUse(uses))
  {
    if uses != [] {
      ByLastUseDistinct(uses[..|uses| - 1]);
      TouchKeepsIndex(ByLastUse(uses[..|uses| - 1]), uses[|uses| - 1].key);
    }
  }

  /** What an LRU access does to "the last `cap` of the recency order". */
  lemma {:induction false} RecencyStep<K>(all: seq<K>, key: K, cap: nat)
    requires Distinct(all) && cap > 0
    ensures var kept := LastOf(all, cap);
            LastOf(Without(all, key) + [key], cap)
            == if key in kept || |kept| < cap then Without(kept, key) + [key] else kept[1..] + [key]
  {
    var kept := LastOf(all, cap);
    var gone := all[..|all| - |kept|];
    assert all == gone + kept;
    WithoutConcat(gone, kept, key);
    if key in kept {
      RecencyHit(gone, kept, key, cap);
    } else {
      WithoutAbsent(kept, key);
      if |kept| < cap {
        assert gone == [] && Without(gone, key) == [];
      } else {
        RecencyMiss(Without(gone, key), kept, key, cap);
      }
    }
  }

  lemma {:induction false} RecencyHit<K>(gone: seq<K>, kept: seq<K>, key: K, cap: nat)
    requires Distinct(gone + kept) && key in kept && |kept| <= cap && (gone == [] || |kept| == cap)
    ensures LastOf(Without(gone, key) + Without(kept, key) + [key], cap) == Without(kept, key) + [key]
  {
    var i :| 0 <= i < |kept| && kept[i] == key;
    assert (gone + kept)[|gone| + i] == key;
    assert forall j :: 0 <= j < |gone| ==> (gone + kept)[j] == gone[j];
    WithoutAbsent(gone, key);
    KeptDistinct(gone, kept);
    WithoutLength(kept, key);
    assert gone + Without(kept, key) + [key] == gone + (Without(kept, key) + [key]);
    SuffixOf(gone, Without(kept, key) + [key], cap);
  }

  lemma {:induction false} KeptDistinct<K>(gone: seq<K>, kept: seq<K>)
    requires Distinct(gone + kept)
    ensures Distinct(kept)
  {
    forall i, j | 0 <= i < j < |kept| ensures kept[i] != kept[j] {
      assert (gone + kept)[|gone| + i] == kept[i] && (gone + kept)[|gone| + j] == kept[j];
    }
  }

  lemma {:induction false} RecencyMiss<K>(gone: seq<K>, kept: seq<K>, key: K, cap: nat)
    requires |kept| == cap > 0
    ensures LastOf(gone + kept + [key], cap) == kept[1..] + [key]
  {
    assert gone + kept + [key] == (gone + [kept[0]]) + (kept[1..] + [key]);
    SuffixOf(gone + [kept[0]], kept[1..] + [key], cap);
  }

  lemma {:induction false} SuffixOf<T>(a: seq<T>, b: seq<T>, n: nat)
    requires |b| <= n && (a == [] || |b| == n)
    ensures LastOf(a + b, n) == b
  {
  }

  lemma {:induction false} WithoutLength<K>(s: seq<K>, x: K)
    requires Distinct(s) && x in s
    ensures |Without(s, x)| == |s| - 1
  {
    if s[|s| - 1] == x {
      WithoutAbsent(s[..|s| - 1], x);
    } else {
      WithoutLength(s[..|s| - 1], x);
    }
  }

  /** The resident keys are the 1024 most recently used distinct ones, in order, each as its last use left it. */
  ghost predicate IsLru<K(!new), V>(st: Slots<K, V>, uses: seq<Use<K, V>>) {
    && st.order == LastOf(ByLastUse(uses), MAX_BREAKER_KEYS)
    && Elements(st.order) == st.entries.Keys
    && |st.entries| == |st.order|
    && (forall k :: k in st.entries ==>
          0 <= LastUse(uses, k) < |uses| && st.entries[k] == uses[LastUse(uses, k)].left)
  }

  /** The map is an exact LRU after any uses. */
  lemma {:induction false} ExactLru<K(!new), V>(uses: seq<Use<K, V>>, initial: V)
    ensures IsLru(RunUses(uses, initial), uses)
  {
    if uses != [] {
      var init, u := uses[..|uses| - 1], uses[|uses| - 1];
      assert init + [u] == uses;
      ExactLru(init, initial);
      LruUse(init, u, initial);
    }
  }

  lemma {:induction false} OneMoreUse<K, V>(uses: seq<Use<K, V>>, u: Use<K, V>, initial: V)
    ensures RunUses(uses + [u], initial)
            == var st := Access(RunUses(uses, initial), u.key, initial);
               ShardState(st.order, st.entries[u.key := u.left])
  {
    assert (uses + [u])[..|uses|] == uses;
  }

  lemma {:induction false} LruUse<K(!new), V>(init: seq<Use<K, V>>, u: Use<K, V>, initial: V)
    requires IsLru(RunUses(init, initial), init)
    ensures IsLru(RunUses(init + [u], initial), init + [u])
  {
    var st := RunUses(init, initial);
    OneMoreUse(init, u, initial);
    LruOrder(st, init, u, initial);
    LruStep(st, u.key, initial, u.left) by {
      ByLastUseDistinct(init);
      LastOfDistinct(ByLastUse(init), MAX_BREAKER_KEYS);
    }
    var entries := RunUses(init + [u], initial).entries;
    forall k | k in entries
      ensures 0 <= LastUse(init + [u], k) <= |init| && entries[k] == (init + [u])[LastUse(init + [u], k)].left
    {
      LastUseSnoc(init, u, k);
    }
  }

  lemma {:induction false} LastUseSnoc<K, V>(init: seq<Use<K, V>>, u: Use<K, V>, k: K)
    ensures LastUse(init + [u], k) == if u.key == k then |init| else LastUse(init, k)
  {
    assert (init + [u])[..|init|] == init;
  }

  lemma {:induction false} LruOrder<K(!new), V>(st: Slots<K, V>, init: seq<Use<K, V>>, u: Use<K, V>, initial: V)
    requires IsLru(st, init)
    ensures Access(st, u.key, initial).order == LastOf(ByLastUse(init + [u]), MAX_BREAKER_KEYS)
  {
    var all := ByLastUse(init);
    assert (init + [u])[..|init|] == init;
    ByLastUseDistinct(init);
    RecencyStep(all, u.key, MAX_BREAKER_KEYS);
    LastOfDistinct(all, MAX_BREAKER_KEYS);
    LruStep(st, u.key, initial, u.left);
  }

  lemma {:induction false} LastOfDistinct<K>(s: seq<K>, n: nat)
    requires Distinct(s)
    ensures Distinct(LastOf(s, n)) && |LastOf(s, n)| <= n
  {
    LastOfSplits(s, n);
    KeptDistinct(s[..|s| - |LastOf(s, n)|], LastOf(s, n));
  }

  lemma {:induction false} LastOfSplits<K>(s: seq<K>, n: nat)
    ensures s[..|s| - |LastOf(s, n)|] + LastOf(s, n) == s
  {
  }

  lemma {:induction false} LruStep<K, V>(st: Slots<K, V>, key: K, initial: V, left: V)
    requires Distinct(st.order) && Elements(st.order) == st.entries.Keys
    requires |st.entries| == |st.order| <= MAX_BREAKER_KEYS
    ensures var after := Access(st, key, initial);
            var entries := after.entries[key := left];
            && after.order == (if key in st.order || |st.order| < MAX_BREAKER_KEYS
                               then Without(st.order, key) + [key] else st.order[1..] + [key])
            && Elements(after.order) == entries.Keys
            && |entries| == |after.order|
            && forall k :: k in entries && k != key ==> k in st.entries && entries[k] == st.entries[k]
  {
    var full := key !in st.entries && |st.entries| >= MAX_BREAKER_KEYS && st.order != [];
    assert key in st.order <==> key in Elements(st.order);
    if full {
      var room := ShardState(st.order[1..], st.entries - {st.order[0]});
      FirstGone(st);
      WithoutAbsent(room.order, key);
      FilledIn(room, key, initial, left);
    } else {
      FilledIn(st, key, initial, left);
    }
  }

  lemma {:induction false} FirstGone<K, V>(st: Slots<K, V>)
    requires Distinct(st.order) && Elements(st.order) == st.entries.Keys && st.order != []
    ensures var room := ShardState(st.order[1..], st.entries - {st.order[0]});
            Distinct(room.order) && Elements(room.order) == room.entries.Keys
            && forall k :: k in room.order ==> k in st.order
  {
    var first, rest := st.order[0], st.order[1..];
    assert st.order == [first] + rest && first !in rest;
    assert Elements(st.order) == {first} + Elements(rest);
  }

  lemma {:induction false} FilledIn<K, V>(room: Slots<K, V>, key: K, initial: V, left: V)
    requires Distinct(room.order) && Elements(room.order) == room.entries.Keys
    ensures var order := Without(room.order, key) + [key];
            var entries := (if key in room.entries then room.entries else room.entries[key := initial])[key := left];
            Elements(order) == entries.Keys && |entries| == |order|
  {
    var order := Without(room.order, key) + [key];
    var entries := (if key in room.entries then room.entries else room.entries[key := initial])[key := left];
    TouchKeepsIndex(room.order, key);
    assert entries.Keys == room.entries.Keys + {key};
    DistinctCount(order);
    assert |entries| == |entries.Keys|;
  }

  // ----- one breaker -----

  const NANOS_PER_SEC: nat := 1_000_000_000

  datatype RawConfig = Config(failures: nat, successes: nat, maxBreakerSec: nat)
  type Config = c: RawConfig | c.failures >= 1 && c.successes >= 1 witness Config(3, 3, 300)

  datatype BreakerState = BreakerState(unhealthyCount: nat, healthyCount: nat, lasttime: Option<nat>)

  const CLOSED := BreakerState(0, 0, None)

  datatype Kind = Unhealthy | Healthy | Neither
  datatype Response = Response(kind: Kind, at: nat)

  function Pow2(n: nat): nat {
    if n == 0 then 1 else 2 * Pow2(n - 1)
  }

  /** The window in seconds: 2 to the number of completed failure batches, within bounds. */
  function BreakerSecs(unhealthyCount: nat, cfg: Config): nat {
    var batches := unhealthyCount / cfg.failures;
    var exponent := if batches < 1 then 1 else if batches > MAX_EXPONENT then MAX_EXPONENT else batches;
    if Pow2(exponent) < cfg.maxBreakerSec then Pow2(exponent) else cfg.maxBreakerSec
  }

  /**
   The window is two seconds through the first batch and doubles with each further one, until it reaches the bound or
   the largest exponent.
   */
  lemma {:induction false} WindowDoubles(n: nat, cfg: Config)
    ensures n < 2 * cfg.failures ==> BreakerSecs(n, cfg) == Min(2, cfg.maxBreakerSec)
    ensures cfg.failures <= n < MAX_EXPONENT * cfg.failures ==>
              BreakerSecs(n + cfg.failures, cfg) == Min(2 * BreakerSecs(n, cfg), cfg.maxBreakerSec)
    ensures n >= MAX_EXPONENT * cfg.failures ==> BreakerSecs(n + cfg.failures, cfg) == BreakerSecs(n, cfg)
  {
    var f := cfg.failures;
    QuotientBelow(n, f, 2);
    QuotientBelow(n, f, 1);
    QuotientBelow(n, f, MAX_EXPONENT);
    assert n + f == (n / f + 1) * f + n % f;
    DivisionIsUnique(n + f, f, n / f + 1, n % f);
  }

  predicate IsOpen(st: BreakerState, now: nat, cfg: Config) {
    match st.lasttime
    case Some(t) => t + BreakerSecs(st.unhealthyCount, cfg) * NANOS_PER_SEC >= now
    case None => false
  }

  function OnResponse(st: BreakerState, r: Response, cfg: Config): BreakerState {
    if r.kind.Unhealthy? then
      var n := st.unhealthyCount + 1;
      BreakerState(n, 0, if n % cfg.failures == 0 then Some(r.at) else st.lasttime)
    else if r.kind.Healthy? && st.lasttime.Some? then
      if st.healthyCount + 1 >= cfg.successes then CLOSED else st.(healthyCount := st.healthyCount + 1)
    else st
  }

  function AfterResponses(h: seq<Response>, cfg: Config): BreakerState {
    if h == [] then CLOSED else OnResponse(AfterResponses(h[..|h| - 1], cfg), h[|h| - 1], cfg)
  }

  // The reference: what the history itself says.

  /** Healthy responses after the last unhealthy one. */
  function HealthySince(h: seq<Response>): nat {
    if h == [] || h[|h| - 1].kind.Unhealthy? then 0
    else HealthySince(h[..|h| - 1]) + if h[|h| - 1].kind.Healthy? then 1 else 0
  }

  /** The times of the unhealthy responses since the last reset. */
  function UnhealthyTimes(h: seq<Response>, cfg: Config): seq<nat>
    decreases |h|, 1
  {
    if h == [] then []
    else if h[|h| - 1].kind.Unhealthy? then UnhealthyTimes(h[..|h| - 1], cfg) + [h[|h| - 1].at]
    else if Resets(h, cfg) then []
    else UnhealthyTimes(h[..|h| - 1], cfg)
  }

  /** The last response completes `successes` healthy ones with no unhealthy one between, after a trip. */
  predicate Resets(h: seq<Response>, cfg: Config)
    decreases |h|, 0
  {
    && h != [] && h[|h| - 1].kind.Healthy?
    && |UnhealthyTimes(h[..|h| - 1], cfg)| >= cfg.failures
    && HealthySince(h) == cfg.successes
  }

  /** When the last complete batch of failures ended. */
  function TripTime(times: seq<nat>, cfg: Config): nat
    requires |times| >= cfg.failures
  {
    BatchEnd(|times|, cfg.failures);
    times[|times| / cfg.failures * cfg.failures - 1]
  }

  /** One more failure either completes a batch or leaves the number of complete batches alone. */
  lemma {:induction false} BatchEnd(n: nat, f: nat)
    requires f >= 1
    ensures n / f * f <= n
    ensures n >= f <==> n / f >= 1
    ensures n / f >= 1 ==> n / f * f >= 1
    ensures (n + 1) % f == 0 ==> (n + 1) / f * f == n + 1 && n + 1 >= f
    ensures (n + 1) % f != 0 ==> (n + 1) / f == n / f
  {
    var q, r := n / f, n % f;
    assert n == q * f + r;
    if q >= 1 { assert q * f >= f; } else { assert n < f; }
    if r + 1 == f {
      assert n + 1 == (q + 1) * f + 0;
      DivisionIsUnique(n + 1, f, q + 1, 0);
      assert (q + 1) * f >= f;
    } else {
      DivisionIsUnique(n + 1, f, q, r + 1);
    }
  }

  /** The state is a function of the history: batches counted since the last reset, end of the last complete batch. */
  lemma {:induction false} StateIsHistory(h: seq<Response>, cfg: Config)
    ensures var st := AfterResponses(h, cfg);
            var times := UnhealthyTimes(h, cfg);
            && st.unhealthyCount == |times|
            && st.lasttime == (if |times| >= cfg.failures then Some(TripTime(times, cfg)) else None)
            && st.healthyCount == (if |times| >= cfg.failures then HealthySince(h) else 0)
            && (|times| >= cfg.failures ==> HealthySince(h) < cfg.successes)
  {
    if h != [] {
      var init := h[..|h| - 1];
      StateIsHistory(init, cfg);
      BatchEnd(|UnhealthyTimes(init, cfg)|, cfg.failures);
    }
  }

  /** A batch of failures is complete, and the window since the last one ended still lasts. */
  predicate WithinWindow(h: seq<Response>, now: nat, cfg: Config) {
    var times := UnhealthyTimes(h, cfg);
    && |times| >= cfg.failures
    && now <= TripTime(times, cfg)
              + Min(Pow2(Min(|times| / cfg.failures, MAX_EXPONENT)), cfg.maxBreakerSec) * NANOS_PER_SEC
  }

  /** The circuit is open exactly while the window of the last complete failure batch lasts. */
  lemma {:induction false} OpenIffWithinWindow(h: seq<Response>, now: nat, cfg: Config)
    ensures IsOpen(AfterResponses(h, cfg), now, cfg) <==> WithinWindow(h, now, cfg)
  {
    StateIsHistory(h, cfg);
    BatchEnd(|UnhealthyTimes(h, cfg)|, cfg.failures);
  }

  /** A tripped breaker closes exactly at the responses that `Resets` describes. */
  lemma {:induction false} ClosesIffResets(h: seq<Response>, r: Response, cfg: Config)
    requires AfterResponses(h, cfg).lasttime.Some?
    ensures AfterResponses(h + [r], cfg).lasttime.None? <==> Resets(h + [r], cfg)
    ensures Resets(h + [r], cfg) ==> AfterResponses(h + [r], cfg) == CLOSED
  {
    assert (h + [r])[..|h|] == h;
    StateIsHistory(h, cfg);
  }

  // ----- many breakers behind one map -----

  /** A request is checked against the breaker of `key`, or a response is fed to it. */
  datatype Traffic = Check(key: string, now: nat) | Respond(key: string, response: Response)

  /** The breaker an access to `key` yields. */
  function Found(st: Slots<string, BreakerState>, key: string): BreakerState {
    if key in st.entries then st.entries[key] else CLOSED
  }

  function Left(st: BreakerState, t: Traffic, cfg: Config): BreakerState {
    match t
    case Check(_, _) => st
    case Respond(_, r) => OnResponse(st, r, cfg)
  }

  function RunTraffic(traffic: seq<Traffic>, cfg: Config): Slots<string, BreakerState> {
    if traffic == [] then ShardState([], map[])
    else TrafficNext(RunTraffic(traffic[..|traffic| - 1], cfg), traffic[|traffic| - 1], cfg)
  }

  function TrafficNext(st: Slots<string, BreakerState>, t: Traffic, cfg: Config): Slots<string, BreakerState> {
    var after := Access(st, t.key, CLOSED);
    ShardState(after.order, after.entries[t.key := Left(Found(st, t.key), t, cfg)])
  }

  /** The uses of the map that the traffic makes. */
  function UsesOf(traffic: seq<Traffic>, cfg: Config): seq<Use<string, BreakerState>> {
    if traffic == [] then []
    else
      var st, t := RunTraffic(traffic[..|traffic| - 1], cfg), traffic[|traffic| - 1];
      UsesOf(traffic[..|traffic| - 1], cfg) + [Use(t.key, Left(Found(st, t.key), t, cfg))]
  }

  /** Traffic is a run of uses, so what is resident is the exact LRU of them. */
  lemma {:induction false} TrafficIsUses(traffic: seq<Traffic>, cfg: Config)
    ensures RunTraffic(traffic, cfg) == RunUses(UsesOf(traffic, cfg), CLOSED)
    ensures IsLru(RunTraffic(traffic, cfg), UsesOf(traffic, cfg))
  {
    ExactLru(UsesOf(traffic, cfg), CLOSED);
    if traffic != [] {
      TrafficIsUses(traffic[..|traffic| - 1], cfg);
      var st, t := RunTraffic(traffic[..|traffic| - 1], cfg), traffic[|traffic| - 1];
      OneMoreUse(UsesOf(traffic[..|traffic| - 1], cfg), Use(t.key, Left(Found(st, t.key), t, cfg)), CLOSED);
    }
  }

  /** The responses among the traffic of `key`. */
  function ResponsesOf(traffic: seq<Traffic>, key: string): seq<Response> {
    if traffic == [] then []
    else
      var t := traffic[|traffic| - 1];
      ResponsesOf(traffic[..|traffic| - 1], key) + if t.Respond? && t.key == key then [t.response] else []
  }

  predicate UsedIn(traffic: seq<Traffic>, key: string) {
    traffic != [] && (traffic[|traffic| - 1].key == key || UsedIn(traffic[..|traffic| - 1], key))
  }

  /** The breaker of `key` after so much of the traffic, if it is resident. */
  function Cell(traffic: seq<Traffic>, key: string, cfg: Config): nat -> Option<BreakerState> {
    (n: nat) => if n <= |traffic| then Lookup(RunTraffic(traffic[..n], cfg), key) else None
  }

  ghost predicate CellStep(cell: nat -> Option<BreakerState>, traffic: seq<Traffic>, n: nat, key: string, cfg: Config)
    requires n < |traffic|
  {
    if traffic[n].key == key then cell(n + 1) == Some(Left(cell(n).GetOr(CLOSED), traffic[n], cfg))
    else cell(n + 1) == cell(n) || cell(n + 1) == None
  }

  lemma {:induction false} TrafficStep(traffic: seq<Traffic>, n: nat, key: string, cfg: Config)
    requires n < |traffic|
    ensures CellStep(Cell(traffic, key, cfg), traffic, n, key, cfg)
  {
    assert traffic[..n + 1][..n] == traffic[..n] && traffic[..n + 1][n] == traffic[n];
  }

  /** The use among the first `n` that last created the breaker of `key`, or 0. */
  function CreatedAt(cell: nat -> Option<BreakerState>, traffic: seq<Traffic>, n: nat, key: string): (m: nat)
    requires n <= |traffic|
    ensures m <= n
  {
    if n == 0 then 0
    else if traffic[n - 1].key == key && cell(n - 1).None? then n - 1
    else CreatedAt(cell, traffic, n - 1, key)
  }

  /** The responses of `key` that its breaker, as request `n` finds it, has seen: those since it was last created. */
  function SeenResponses(cell: nat -> Option<BreakerState>, traffic: seq<Traffic>, n: nat, key: string): seq<Response>
    requires n <= |traffic|
  {
    if cell(n).None? then [] else ResponsesOf(traffic[CreatedAt(cell, traffic, n, key)..n], key)
  }

  lemma {:induction false} NextSeen(traffic: seq<Traffic>, m: nat, n: nat, key: string, cfg: Config)
    requires m <= n < |traffic|
    ensures var before, after := ResponsesOf(traffic[m..n], key), ResponsesOf(traffic[m..n + 1], key);
            if traffic[n].Respond? && traffic[n].key == key
            then AfterResponses(after, cfg) == OnResponse(AfterResponses(before, cfg), traffic[n].response, cfg)
            else after == before
    ensures traffic[n..n] == []
  {
    assert traffic[m..n + 1][..n - m] == traffic[m..n] && traffic[m..n + 1][n - m] == traffic[n];
    var before := ResponsesOf(traffic[m..n], key);
    if traffic[n].Respond? && traffic[n].key == key {
      assert (before + [traffic[n].response])[..|before|] == before;
    }
  }

  lemma {:induction false} NextSeenDecides(cell: nat -> Option<BreakerState>, traffic: seq<Traffic>, n: nat,
                                           key: string, cfg: Config)
    requires n < |traffic| && CellStep(cell, traffic, n, key, cfg)
    requires cell(n).GetOr(CLOSED) == AfterResponses(SeenResponses(cell, traffic, n, key), cfg)
    ensures cell(n + 1).GetOr(CLOSED) == AfterResponses(SeenResponses(cell, traffic, n + 1, key), cfg)
  {
    if cell(n + 1).Some? {
      NextSeen(traffic, CreatedAt(cell, traffic, n + 1, key), n, key, cfg);
    }
  }

  /** Its state is that of those responses, whatever other keys do. */
  lemma {:induction false} SeenResponsesDecide(cell: nat -> Option<BreakerState>, traffic: seq<Traffic>, n: nat,
                                               key: string, cfg: Config)
    requires n <= |traffic| && cell(0) == None
    requires forall i: nat :: i < |traffic| ==> CellStep(cell, traffic, i, key, cfg)
    ensures cell(n).GetOr(CLOSED) == AfterResponses(SeenResponses(cell, traffic, n, key), cfg)
  {
    if n > 0 {
      SeenResponsesDecide(cell, traffic, n - 1, key, cfg);
      NextSeenDecides(cell, traffic, n - 1, key, cfg);
    }
  }

  /**
   Main result for every run: request `n` of a key finds the circuit open exactly when the key's responses since its
   breaker was last created say so; with `NeverLostIffRecent` below, since it was last among the 1024 most recent.
   */
  lemma {:induction false} OpenIffSeenHistory(traffic: seq<Traffic>, n: nat, key: string, now: nat, cfg: Config)
    requires n < |traffic| && traffic[n] == Check(key, now)
    ensures IsOpen(Cell(traffic, key, cfg)(n).GetOr(CLOSED), now, cfg) <==>
            WithinWindow(SeenResponses(Cell(traffic, key, cfg), traffic, n, key), now, cfg)
  {
    RunDecides(traffic, n, key, cfg);
    OpenIffWithinWindow(SeenResponses(Cell(traffic, key, cfg), traffic, n, key), now, cfg);
  }

  lemma {:induction false} RunDecides(traffic: seq<Traffic>, n: nat, key: string, cfg: Config)
    requires n <= |traffic|
    ensures Cell(traffic, key, cfg)(n).GetOr(CLOSED)
            == AfterResponses(SeenResponses(Cell(traffic, key, cfg), traffic, n, key), cfg)
  {
    assert traffic[..0] == [];
    forall i: nat | i < |traffic| ensures CellStep(Cell(traffic, key, cfg), traffic, i, key, cfg) {
      TrafficStep(traffic, i, key, cfg);
    }
    SeenResponsesDecide(Cell(traffic, key, cfg), traffic, n, key, cfg);
  }

  /** Whenever `key` comes up again, its breaker is still resident. */
  ghost predicate StaysResident(cell: nat -> Option<BreakerState>, traffic: seq<Traffic>, key: string) {
    forall i: nat :: i < |traffic| && traffic[i].key == key && UsedIn(traffic[..i], key) ==> cell(i).Some?
  }

  ghost predicate NeverLost(traffic: seq<Traffic>, key: string, cfg: Config) {
    StaysResident(Cell(traffic, key, cfg), traffic, key)
  }

  /** Then its state is that of its own responses alone, whatever other keys do. */
  lemma {:induction false} OwnResponsesDecide(cell: nat -> Option<BreakerState>, traffic: seq<Traffic>, n: nat,
                                              key: string, cfg: Config)
    requires n <= |traffic| && StaysResident(cell, traffic, key) && cell(0) == None
    requires forall i: nat :: i < |traffic| ==> CellStep(cell, traffic, i, key, cfg)
    ensures cell(n).Some? ==> cell(n).value == AfterResponses(ResponsesOf(traffic[..n], key), cfg)
    ensures cell(n).Some? ==> UsedIn(traffic[..n], key)
    ensures !UsedIn(traffic[..n], key) ==> ResponsesOf(traffic[..n], key) == []
  {
    if n > 0 {
      OwnResponsesDecide(cell, traffic, n - 1, key, cfg);
      assert CellStep(cell, traffic, n - 1, key, cfg);
      NextResponse(traffic, n - 1, key, cfg);
    } else {
      assert traffic[..0] == [];
    }
  }

  lemma {:induction false} NextResponse(traffic: seq<Traffic>, n: nat, key: string, cfg: Config)
    requires n < |traffic|
    ensures UsedIn(traffic[..n + 1], key) <==> traffic[n].key == key || UsedIn(traffic[..n], key)
    ensures var before, after := ResponsesOf(traffic[..n], key), ResponsesOf(traffic[..n + 1], key);
            if traffic[n].Respond? && traffic[n].key == key
            then AfterResponses(after, cfg) == OnResponse(AfterResponses(before, cfg), traffic[n].response, cfg)
            else after == before
  {
    assert traffic[..n + 1][..n] == traffic[..n] && traffic[..n + 1][n] == traffic[n];
    var before := ResponsesOf(traffic[..n], key);
    if traffic[n].Respond? && traffic[n].key == key {
      assert (before + [traffic[n].response])[..|before|] == before;
    }
  }

  /**
   Main result: request `n` of such a key finds the circuit open exactly when the key's own response history says so,
   whatever other keys do.
   */
  lemma {:induction false} OpenIffOwnHistory(traffic: seq<Traffic>, n: nat, key: string, now: nat, cfg: Config)
    requires NeverLost(traffic, key, cfg) && n < |traffic| && traffic[n] == Check(key, now)
    ensures IsOpen(Cell(traffic, key, cfg)(n).GetOr(CLOSED), now, cfg) <==>
            WithinWindow(ResponsesOf(traffic[..n], key), now, cfg)
  {
    CellHoldsHistory(traffic, n, key, cfg);
    OpenIffWithinWindow(ResponsesOf(traffic[..n], key), now, cfg);
  }

  lemma {:induction false} CellHoldsHistory(traffic: seq<Traffic>, n: nat, key: string, cfg: Config)
    requires NeverLost(traffic, key, cfg) && n < |traffic| && traffic[n].key == key
    ensures Cell(traffic, key, cfg)(n).GetOr(CLOSED) == AfterResponses(ResponsesOf(traffic[..n], key), cfg)
  {
    assert traffic[..0] == [];
    forall i: nat | i < |traffic| ensures CellStep(Cell(traffic, key, cfg), traffic, i, key, cfg) {
      TrafficStep(traffic, i, key, cfg);
    }
    OwnResponsesDecide(Cell(traffic, key, cfg), traffic, n, key, cfg);
  }

  /** In terms of the traffic alone: at every later use the key is among the 1024 most recently used. */
  lemma {:induction false} NeverLostIffRecent(traffic: seq<Traffic>, key: string, cfg: Config)
    ensures NeverLost(traffic, key, cfg) <==>
            forall i: nat :: i < |traffic| && traffic[i].key == key && UsedIn(traffic[..i], key) ==>
                               key in LastOf(ByLastUse(UsesOf(traffic[..i], cfg)), MAX_BREAKER_KEYS)
  {
    forall i: nat | i < |traffic|
      ensures Cell(traffic, key, cfg)(i).Some? <==>
              key in LastOf(ByLastUse(UsesOf(traffic[..i], cfg)), MAX_BREAKER_KEYS)
    {
      ResidentIffRecent(traffic[..i], key, cfg);
    }
  }

  lemma {:induction false} ResidentIffRecent(traffic: seq<Traffic>, key: string, cfg: Config)
    ensures key in RunTraffic(traffic, cfg).entries <==>
            key in LastOf(ByLastUse(UsesOf(traffic, cfg)), MAX_BREAKER_KEYS)
  {
    TrafficIsUses(traffic, cfg);
    assert key in Elements(RunTraffic(traffic, cfg).order) <==> key in RunTraffic(traffic, cfg).order;
  }

  /** With at most 1024 keys in use no breaker is ever lost. */
  lemma {:induction false} FewKeysNeverLost(traffic: seq<Traffic>, key: string, cfg: Config, keys: set<string>)
    requires |keys| <= MAX_BREAKER_KEYS && forall i :: 0 <= i < |traffic| ==> traffic[i].key in keys
    ensures NeverLost(traffic, key, cfg)
  {
    forall i: nat | i < |traffic| && traffic[i].key == key && UsedIn(traffic[..i], key)
      ensures Cell(traffic, key, cfg)(i).Some?
    {
      FewKeysAllStay(traffic[..i], key, cfg, keys);
    }
  }

  lemma {:induction false} FewKeysAllStay(traffic: seq<Traffic>, key: string, cfg: Config, keys: set<string>)
    requires |keys| <= MAX_BREAKER_KEYS && forall i :: 0 <= i < |traffic| ==> traffic[i].key in keys
    ensures RunTraffic(traffic, cfg).entries.Keys <= keys
    ensures UsedIn(traffic, key) ==> key in RunTraffic(traffic, cfg).entries
  {
    if traffic != [] {
      FewKeysAllStay(traffic[..|traffic| - 1], key, cfg, keys);
      TrafficWithRoom(traffic, cfg, keys);
    }
  }

  lemma {:induction false} TrafficWithRoom(traffic: seq<Traffic>, cfg: Config, keys: set<string>)
    requires traffic != [] && traffic[|traffic| - 1].key in keys && |keys| <= MAX_BREAKER_KEYS
    requires RunTraffic(traffic[..|traffic| - 1], cfg).entries.Keys <= keys
    ensures RunTraffic(traffic, cfg).entries.Keys
            == RunTraffic(traffic[..|traffic| - 1], cfg).entries.Keys + {traffic[|traffic| - 1].key}
  {
    AccessWithRoom(RunTraffic(traffic[..|traffic| - 1], cfg), traffic[|traffic| - 1].key, CLOSED, keys);
  }

  lemma {:induction false} AccessWithRoom<K, V>(st: Slots<K, V>, key: K, initial: V, keys: set<K>)
    requires st.entries.Keys <= keys && key in keys && |keys| <= MAX_BREAKER_KEYS
    ensures Access(st, key, initial).entries.Keys == st.entries.Keys + {key}
  {
    if key !in st.entries {
      Cardinalities(st.entries.Keys, keys - {key});
    }
  }

  // ----- the plugin -----

  class Breaker {
    const states: BreakerStates
    const unhealthySet: StatusCodeSet
    const healthySet: StatusCodeSet
    const cfg: Config
    ghost const unhealthy: seq<nat>
    ghost const healthy: seq<nat>

    ghost predicate Valid()
      reads unhealthySet, unhealthySet.bits, healthySet, healthySet.bits, states.shard, states.shard.touchOrder
    {
      && states.shard.Valid() && unhealthySet.Valid() && healthySet.Valid()
      && (forall s: nat :: unhealthySet.Contains(s) <==> s in unhealthy && s < 640)
      && (forall s: nat :: healthySet.Contains(s) <==> s in healthy && s < 640)
    }

    constructor (unhealthyStatuses: seq<nat>, healthyStatuses: seq<nat>, cfg: Config)
      ensures Valid() && this.cfg == cfg && unhealthy == unhealthyStatuses && healthy == healthyStatuses
      ensures states.shard.State() == RunTraffic([], cfg)
    {
      states := new BreakerStates();
      unhealthySet := new StatusCodeSet.FromStatuses(unhealthyStatuses);
      healthySet := new StatusCodeSet.FromStatuses(healthyStatuses);
      this.cfg, unhealthy, healthy := cfg, unhealthyStatuses, healthyStatuses;
    }

    /** Checks a request against the breaker of its key. */
    method CheckOpen(key: string, now: nat) returns (open: bool)
      requires Valid()
      modifies states.shard, states.shard.touchOrder
      ensures Valid()
      ensures states.shard.State() == TrafficNext(old(states.shard.State()), Check(key, now), cfg)
      ensures open == IsOpen(Found(old(states.shard.State()), key), now, cfg)
    {
      var state := states.Entry(key);
      assert states.shard.entries[key := state] == states.shard.entries;
      open := IsOpen(state, now, cfg);
    }

    /** Feeds a response to the breaker of its key; a status listed both ways is unhealthy. */
    method ResponseFilter(key: string, status: nat, at: nat)
      requires Valid()
      modifies states.shard, states.shard.touchOrder
      ensures Valid()
      ensures status < 640 && status in unhealthy ==>
                states.shard.State() == TrafficNext(old(states.shard.State()), Respond(key, Response(Unhealthy, at)), cfg)
      ensures status < 640 && status in healthy && status !in unhealthy ==>
                states.shard.State() == TrafficNext(old(states.shard.State()), Respond(key, Response(Healthy, at)), cfg)
      ensures status >= 640 || (status !in healthy && status !in unhealthy) ==>
                states.shard.State() == TrafficNext(old(states.shard.State()), Respond(key, Response(Neither, at)), cfg)
    {
      var isUnhealthy, isHealthy := unhealthySet.Contains(status), healthySet.Contains(status);
      var state := states.Entry(key);
      if isUnhealthy {
        var count := state.unhealthyCount + 1;
        state := BreakerState(count, 0, if count % cfg.failures == 0 then Some(at) else state.lasttime);
      } else if isHealthy && state.lasttime.Some? {
        state := state.(healthyCount := state.healthyCount + 1);
        if state.healthyCount >= cfg.successes {
          state := CLOSED;
        }
      }
      states.shard.Insert(key, state);
    }
  }
}
