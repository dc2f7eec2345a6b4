/**
 The sliding-window branch of limit-count: a per-key event history, capped and evictable, that must decide
 exactly like a limiter remembering every request for ever.

 Instants and durations are whole nanoseconds; `hash` stands for the fixed hash that routes a key to its shard.
 */
module LimitCount {
  import opened Wrappers
  import opened LimiterShards
  import opened Limiting

  const MAX_SLIDING_ENTRIES_PER_KEY := 4096
  const MAX_COUNT := MAX_SLIDING_ENTRIES_PER_KEY - 1  // the largest limit a configuration may set
  const MAX_WINDOW_SECS := 86400
  const NANOS_PER_SEC := 1_000_000_000

  type Instant = nat

  /** Time from `event` to `now`, zero when the clock readings are out of order. */
  function Since(now: Instant, event: Instant): nat {
    if now >= event then now - event else 0
  }

  predicate Expired(event: Instant, now: Instant, timeWindow: nat) {
    Since(now, event) >= timeWindow * NANOS_PER_SEC
  }

  function Pruned(events: seq<Instant>, now: Instant, timeWindow: nat): seq<Instant> {
    if events != [] && Expired(events[0], now, timeWindow) then Pruned(events[1..], now, timeWindow) else events
  }

  function Observed(events: seq<Instant>, now: Instant, timeWindow: nat): seq<Instant> {
    var kept := Pruned(events, now, timeWindow);
    (if |kept| >= MAX_SLIDING_ENTRIES_PER_KEY then kept[1..] else kept) + [now]
  }

  class SlidingWindow {
    var events: seq<Instant>

    constructor (events: seq<Instant>)
      ensures this.events == events
    {
      this.events := events;
    }

    /** Drops the leading events that are at least `timeWindow` seconds old. */
    method Prune(now: Instant, timeWindow: nat)
      modifies this
      ensures events == Pruned(old(events), now, timeWindow)
    {
      while events != [] && Expired(events[0], now, timeWindow)
        invariant Pruned(events, now, timeWindow) == Pruned(old(events), now, timeWindow)
        decreases |events|
      {
        events := events[1..];
      }
    }

    /** Records one event and returns the window occupancy. */
    method Observe(now: Instant, timeWindow: nat) returns (occupancy: nat)
      modifies this
      ensures events == Observed(old(events), now, timeWindow) && occupancy == |events|
    {
      Prune(now, timeWindow);
      if |events| >= MAX_SLIDING_ENTRIES_PER_KEY {
        events := events[1..];
      }
      events := events + [now];
      occupancy := |events|;
    }
  }

  /** A history no configured window can still be interested in. */
  predicate SlidingStale(events: seq<Instant>, now: Instant) {
    events == [] || (now >= events[|events| - 1] && Expired(events[|events| - 1], now, MAX_WINDOW_SECS))
  }

  function StaleAt(now: Instant): seq<Instant> -> bool {
    events => SlidingStale(events, now)
  }

  datatype Request = Request(key: string, now: Instant, count: nat, timeWindow: nat)

  type Slots = ShardState<string, seq<Instant>>

  function SlotOf(st: Slots, r: Request): string {
    Admit(st, r.key, LIMIT_COUNT_OVERFLOW, StaleAt(r.now), SweepMiss.Restore).1
  }

  /** The events of the slot `r` is admitted to, once `r` is recorded there. */
  function WindowAfter(st: Slots, r: Request): seq<Instant> {
    var (admitted, slot) := Admit(st, r.key, LIMIT_COUNT_OVERFLOW, StaleAt(r.now), SweepMiss.Restore);
    Observed(if slot in admitted.entries then admitted.entries[slot] else [], r.now, r.timeWindow)
  }

  function StateAfter(st: Slots, r: Request): Slots {
    AdmitInsert(st, r.key, LIMIT_COUNT_OVERFLOW, StaleAt(r.now), SweepMiss.Restore, WindowAfter(st, r))
  }

  predicate LimitedIn(st: Slots, r: Request) {
    |WindowAfter(st, r)| > r.count
  }

  datatype WindowType = Fixed | Sliding

  /** The key a request is counted under: with a group name in front where the store is not the group's own. */
  function StorageKey(key: string, grouped: bool, groupName: Option<string>): string {
    if !grouped && groupName.Some? && groupName.value != "" then groupName.value + "|" + key else key
  }

  /** Keys of one configuration stay apart, and a group's own store knows them under their own names. */
  lemma {:induction false} StorageKeysApart(key: string, other: string, grouped: bool, groupName: Option<string>)
    ensures StorageKey(key, grouped, groupName) == StorageKey(other, grouped, groupName) <==> key == other
    ensures grouped ==> StorageKey(key, grouped, groupName) == key
    ensures !grouped && groupName.Some? && groupName.value != "" ==>
              groupName.value + "|" <= StorageKey(key, grouped, groupName)
  {
    if !grouped && groupName.Some? && groupName.value != "" {
      var prefix := groupName.value + "|";
      assert (prefix + key)[|prefix|..] == key && (prefix + other)[|prefix|..] == other;
    }
  }

  /** A window of this length still counts the latest event. */
  predicate Cares(events: seq<Instant>, now: Instant, timeWindow: nat) {
    events != [] && !Expired(events[|events| - 1], now, timeWindow)
  }

  /** A history may be evicted exactly when no window that can be configured still counts its latest event. */
  lemma {:induction false} StaleIffNoWindowCares(events: seq<Instant>, now: Instant)
    ensures StaleAt(now)(events) <==>
            forall timeWindow :: 1 <= timeWindow <= MAX_WINDOW_SECS ==> !Cares(events, now, timeWindow)
  {
    if forall timeWindow :: 1 <= timeWindow <= MAX_WINDOW_SECS ==> !Cares(events, now, timeWindow) {
      assert !Cares(events, now, MAX_WINDOW_SECS);
    }
  }

  /**
   One request. `shard` is the one that owns its storage key, in the store of the group or of the plugin itself;
   `estimate` is the answer of the external fixed-window counter.
   */
  method CheckRateLimit(shard: Shard<string, seq<Instant>>, window: WindowType, grouped: bool,
                        groupName: Option<string>, r: Request, estimate: nat)
    returns (limited: bool, currentCount: nat, remaining: int)
    requires shard.Valid()
    modifies shard, shard.touchOrder
    ensures shard.Valid()
    ensures var stored := r.(key := StorageKey(r.key, grouped, groupName));
            if window.Fixed?
            then shard.State() == old(shard.State()) && currentCount == estimate
            else && shard.State() == StateAfter(old(shard.State()), stored)
                 && currentCount == |WindowAfter(old(shard.State()), stored)|
                 && limited == LimitedIn(old(shard.State()), stored)
    ensures limited == (currentCount > r.count)
    ensures remaining == if limited then 0 else r.count - currentCount
  {
    var key := StorageKey(r.key, grouped, groupName);
    match window {
      case Fixed =>
        currentCount := estimate;
      case Sliding =>
        var slot := shard.AdmitKey(key, LIMIT_COUNT_OVERFLOW, StaleAt(r.now), SweepMiss.Restore);
        var history := new SlidingWindow(if slot in shard.entries then shard.entries[slot] else []);
        currentCount := history.Observe(r.now, r.timeWindow);
        shard.Insert(slot, history.events);
    }
    remaining := if r.count >= currentCount then r.count - currentCount else 0;
    limited := currentCount > r.count;
  }

  // ----- whole runs of the sharded limiter -----

  function Run(hash: string -> nat, reqs: seq<Request>): (shards: seq<Slots>)
    ensures |shards| == LIMIT_SHARDS
  {
    if reqs == [] then seq(LIMIT_SHARDS, _ => ShardState([], map[]))
    else
      var r := reqs[|reqs| - 1];
      var shards := Run(hash, reqs[..|reqs| - 1]);
      var i := ShardIdx(hash, r.key);
      shards[i := StateAfter(shards[i], r)]
  }

  /** The shard `reqs[i]` finds when it arrives. */
  function ShardBefore(hash: string -> nat, reqs: seq<Request>, i: nat): Slots
    requires i < |reqs|
  {
    Run(hash, reqs[..i])[ShardIdx(hash, reqs[i].key)]
  }

  predicate Limited(hash: string -> nat, reqs: seq<Request>, i: nat)
    requires i < |reqs|
  {
    LimitedIn(ShardBefore(hash, reqs, i), reqs[i])
  }

  // The reference: a limiter that keeps every request of a key for ever.

  function EventsOf(reqs: seq<Request>, key: string): seq<Instant> {
    if reqs == [] then []
    else EventsOf(reqs[..|reqs| - 1], key) + if reqs[|reqs| - 1].key == key then [reqs[|reqs| - 1].now] else []
  }

  function Live(events: seq<Instant>, now: Instant, timeWindow: nat): seq<Instant> {
    if events == [] then []
    else
      Live(events[..|events| - 1], now, timeWindow)
      + if Expired(events[|events| - 1], now, timeWindow) then [] else [events[|events| - 1]]
  }

  // ----- the stored history against the full one -----

  /** `key` is not the reserved key, and no request of it was sent to the overflow slot. */
  ghost predicate NeverOverflowed(hash: string -> nat, reqs: seq<Request>, key: string) {
    key != LIMIT_COUNT_OVERFLOW && forall i :: 0 <= i < |reqs| ==> GetsOwnSlot(hash, reqs, i, key)
  }

  predicate GetsOwnSlot(hash: string -> nat, reqs: seq<Request>, i: nat, key: string)
    requires i < |reqs|
  {
    reqs[i].key == key ==> SlotOf(ShardBefore(hash, reqs, i), reqs[i]) == key
  }

  /** What is stored for a key is the end of its full history, in whatever order its readings came. */
  ghost predicate StoresEnd(stored: seq<Instant>, history: seq<Instant>) {
    |stored| <= |history| && |stored| <= MAX_SLIDING_ENTRIES_PER_KEY && stored == history[|history| - |stored|..]
  }

  /** An inverted pair straddles the edge of the window: a live event stands before an expired recent one. */
  ghost predicate Straddles(history: seq<Instant>, now: Instant, timeWindow: nat) {
    exists i, j :: 0 <= i < j < |history| && |history| - j <= MAX_COUNT
                   && !Expired(history[i], now, timeWindow) && Expired(history[j], now, timeWindow)
  }

  /** A recent event that is no longer stored is live: it was dropped at a later reading. */
  ghost predicate Forgets(stored: seq<Instant>, history: seq<Instant>, now: Instant, timeWindow: nat) {
    exists k :: 0 <= k < |history| - |stored| && |history| - k <= MAX_COUNT && !Expired(history[k], now, timeWindow)
  }

  /** Pruning drops an expired prefix and stops at a live event. */
  lemma {:induction false} PrunedIsSuffix(events: seq<Instant>, now: Instant, timeWindow: nat) returns (p: nat)
    ensures p <= |events| && Pruned(events, now, timeWindow) == events[p..]
    ensures forall i :: 0 <= i < p ==> Expired(events[i], now, timeWindow)
    ensures p < |events| ==> !Expired(events[p], now, timeWindow)
  {
    if events != [] && Expired(events[0], now, timeWindow) {
      var q := PrunedIsSuffix(events[1..], now, timeWindow);
      p := q + 1;
      assert events[1..][q..] == events[p..];
      forall i | 0 <= i < p ensures Expired(events[i], now, timeWindow) {
        if i > 0 { assert events[i] == events[1..][i - 1]; }
      }
    } else {
      p := 0;
    }
  }

  lemma {:induction false} LiveConcat(a: seq<Instant>, b: seq<Instant>, now: Instant, timeWindow: nat)
    ensures Live(a + b, now, timeWindow) == Live(a, now, timeWindow) + Live(b, now, timeWindow)
  {
    if b == [] {
      assert a + b == a && Live(a, now, timeWindow) + [] == Live(a, now, timeWindow);
    } else {
      LiveConcat(a, b[..|b| - 1], now, timeWindow);
      assert (a + b)[..|a + b| - 1] == a + b[..|b| - 1];
      var last := if Expired(b[|b| - 1], now, timeWindow) then [] else [b[|b| - 1]];
      assert Live(a + b, now, timeWindow) == Live(a + b[..|b| - 1], now, timeWindow) + last;
    }
  }

  lemma {:induction false} LiveMembers(events: seq<Instant>, now: Instant, timeWindow: nat, e: Instant)
    ensures e in Live(events, now, timeWindow) <==> e in events && !Expired(e, now, timeWindow)
  {
    if events != [] {
      LiveMembers(events[..|events| - 1], now, timeWindow, e);
    }
  }

  lemma {:induction false} LiveAll(events: seq<Instant>, now: Instant, timeWindow: nat)
    requires forall i :: 0 <= i < |events| ==> !Expired(events[i], now, timeWindow)
    ensures Live(events, now, timeWindow) == events
  {
    if events != [] {
      LiveAll(events[..|events| - 1], now, timeWindow);
    }
  }

  lemma {:induction false} LiveNone(events: seq<Instant>, now: Instant, timeWindow: nat)
    requires forall i :: 0 <= i < |events| ==> Expired(events[i], now, timeWindow)
    ensures Live(events, now, timeWindow) == []
  {
    if events != [] {
      LiveNone(events[..|events| - 1], now, timeWindow);
    }
  }

  /** The recent part of the window kept after pruning is the recent part of the live events. */
  ghost predicate Exact(stored: seq<Instant>, history: seq<Instant>, now: Instant, timeWindow: nat) {
    LastOf(Pruned(stored, now, timeWindow), MAX_COUNT) == LastOf(Live(history, now, timeWindow), MAX_COUNT)
  }

  /**
   Main result on one request, for readings in any order: the window it is counted in is right exactly when no
   inverted pair straddles the edge of the window and no event dropped at a later reading is live again.
   */
  lemma {:induction false} ExactIff(stored: seq<Instant>, history: seq<Instant>, now: Instant, timeWindow: nat)
    requires StoresEnd(stored, history)
    ensures Exact(stored, history, now, timeWindow) <==>
            !Straddles(history, now, timeWindow) && !Forgets(stored, history, now, timeWindow)
  {
    var p := PrunedIsSuffix(stored, now, timeWindow);
    var c := |history| - |stored| + p;
    var kept := Pruned(stored, now, timeWindow);
    assert kept == history[c..];
    if !Straddles(history, now, timeWindow) && !Forgets(stored, history, now, timeWindow) {
      KeptIsRight(stored, history, now, timeWindow, c);
    } else if Exact(stored, history, now, timeWindow) {
      var k, j := WrongEvent(stored, history, now, timeWindow);
      KeptIsWrong(history, now, timeWindow, c, k, j);
    }
  }

  /** A live event, and the recent event at which it goes wrong: an expired one behind it, or itself if not stored. */
  lemma {:induction false} WrongEvent(stored: seq<Instant>, history: seq<Instant>, now: Instant, timeWindow: nat)
    returns (k: nat, j: nat)
    requires StoresEnd(stored, history)
    requires Straddles(history, now, timeWindow) || Forgets(stored, history, now, timeWindow)
    ensures k <= j < |history| && |history| - j <= MAX_COUNT && !Expired(history[k], now, timeWindow)
    ensures Expired(history[j], now, timeWindow) || j == k < |history| - |stored|
  {
    if Straddles(history, now, timeWindow) {
      k, j :| 0 <= k < j < |history| && |history| - j <= MAX_COUNT
              && !Expired(history[k], now, timeWindow) && Expired(history[j], now, timeWindow);
    } else {
      k :| 0 <= k < |history| - |stored| && |history| - k <= MAX_COUNT && !Expired(history[k], now, timeWindow);
      j := k;
    }
  }

  lemma {:induction false} KeptIsWrong(history: seq<Instant>, now: Instant, timeWindow: nat, c: nat, k: nat, j: nat)
    requires c <= |history| && k <= j < |history| && |history| - j <= MAX_COUNT
    requires !Expired(history[k], now, timeWindow)
    requires Expired(history[j], now, timeWindow) || j == k < c
    ensures LastOf(history[c..], MAX_COUNT) != LastOf(Live(history, now, timeWindow), MAX_COUNT)
  {
    var live := Live(history, now, timeWindow);
    if j >= c {
      assert history[j] in LastOf(history[c..], MAX_COUNT) by {
        var last := LastOf(history[c..], MAX_COUNT);
        assert last[j - (|history| - |last|)] == history[j];
      }
      LiveMembers(history, now, timeWindow, history[j]);
      assert forall e :: e in LastOf(live, MAX_COUNT) ==> e in live;
    } else if LastOf(history[c..], MAX_COUNT) == LastOf(live, MAX_COUNT) {
      assert history == history[..c] + history[c..];
      LiveConcat(history[..c], history[c..], now, timeWindow);
      assert history[..c][k] == history[k];
      LiveMembers(history[..c], now, timeWindow, history[k]);
      forall i | 0 <= i < |history[c..]| ensures !Expired(history[c..][i], now, timeWindow) {
        assert history[c..][i] in live;
        LiveMembers(history, now, timeWindow, history[c..][i]);
      }
      LiveAll(history[c..], now, timeWindow);
    }
  }

  lemma {:induction false} KeptIsRight(stored: seq<Instant>, history: seq<Instant>, now: Instant, timeWindow: nat,
                                       c: nat)
    requires StoresEnd(stored, history)
    requires !Straddles(history, now, timeWindow) && !Forgets(stored, history, now, timeWindow)
    requires |history| - |stored| <= c <= |history|
    requires forall i :: |history| - |stored| <= i < c ==> Expired(history[i], now, timeWindow)
    requires c < |history| ==> !Expired(history[c], now, timeWindow)
    ensures LastOf(history[c..], MAX_COUNT) == LastOf(Live(history, now, timeWindow), MAX_COUNT)
  {
    KeptIsLive(stored, history, now, timeWindow, c);
    LiveFrom(history, now, timeWindow, c);
    if exists i :: 0 <= i < c && !Expired(history[i], now, timeWindow) {
      KeptIsFull(stored, history, now, timeWindow, c);
      LastOfEnd(Live(history[..c], now, timeWindow), history[c..], MAX_COUNT);
    }
  }

  lemma {:induction false} LastOfEnd(a: seq<Instant>, b: seq<Instant>, n: nat)
    requires |b| >= n
    ensures LastOf(a + b, n) == LastOf(b, n)
  {
  }

  lemma {:induction false} KeptIsLive(stored: seq<Instant>, history: seq<Instant>, now: Instant, timeWindow: nat,
                                      c: nat)
    requires StoresEnd(stored, history) && !Straddles(history, now, timeWindow)
    requires |history| - |stored| <= c <= |history| && (c < |history| ==> !Expired(history[c], now, timeWindow))
    ensures forall i :: 0 <= i < |history[c..]| ==> !Expired(history[c..][i], now, timeWindow)
  {
    forall i | 0 <= i < |history[c..]| ensures !Expired(history[c..][i], now, timeWindow) {
      assert i == 0 || |history| - (c + i) <= MAX_COUNT;
    }
  }

  lemma {:induction false} KeptIsFull(stored: seq<Instant>, history: seq<Instant>, now: Instant, timeWindow: nat,
                                      c: nat)
    requires !Straddles(history, now, timeWindow) && !Forgets(stored, history, now, timeWindow)
    requires c <= |history| && exists i :: 0 <= i < c && !Expired(history[i], now, timeWindow)
    requires forall i :: |history| - |stored| <= i < c ==> 0 <= i && Expired(history[i], now, timeWindow)
    ensures |history| - c >= MAX_COUNT
  {
    BeforeKeptIsExpired(stored, history, now, timeWindow, c);
  }

  lemma {:induction false} LiveFrom(history: seq<Instant>, now: Instant, timeWindow: nat, c: nat)
    requires c <= |history| && forall i :: 0 <= i < |history[c..]| ==> !Expired(history[c..][i], now, timeWindow)
    ensures Live(history, now, timeWindow) == Live(history[..c], now, timeWindow) + history[c..]
    ensures (forall i :: 0 <= i < c ==> Expired(history[i], now, timeWindow)) ==>
              Live(history, now, timeWindow) == history[c..]
  {
    assert history == history[..c] + history[c..];
    LiveConcat(history[..c], history[c..], now, timeWindow);
    LiveAll(history[c..], now, timeWindow);
    if forall i :: 0 <= i < c ==> Expired(history[i], now, timeWindow) {
      LiveNone(history[..c], now, timeWindow);
      assert [] + history[c..] == history[c..];
    }
  }

  /** The event in front of a short window has expired, by pruning or because nothing live was forgotten. */
  lemma {:induction false} BeforeKeptIsExpired(stored: seq<Instant>, history: seq<Instant>, now: Instant,
                                               timeWindow: nat, c: nat)
    requires !Forgets(stored, history, now, timeWindow) && 0 < c <= |history|
    requires forall i :: |history| - |stored| <= i < c ==> 0 <= i && Expired(history[i], now, timeWindow)
    ensures |history| - c < MAX_COUNT ==> Expired(history[c - 1], now, timeWindow)
  {
  }

  /** An exact window decides like the full history, for every limit that can be configured. */
  lemma {:induction false} ExactDecides(stored: seq<Instant>, history: seq<Instant>, now: Instant, timeWindow: nat,
                                        count: nat)
    requires Exact(stored, history, now, timeWindow) && timeWindow > 0 && count <= MAX_COUNT
    requires |stored| <= MAX_SLIDING_ENTRIES_PER_KEY
    ensures |Observed(stored, now, timeWindow)| > count <==> |Live(history + [now], now, timeWindow)| > count
  {
    var p := PrunedIsSuffix(stored, now, timeWindow);
    LiveConcat(history, [now], now, timeWindow);
    LiveAll([now], now, timeWindow);
  }

  // ----- every run stores the end of the history -----

  /**
   An event may be missing for a reason that still holds at `now`: it or a later one has expired, or more events have
   come since than are ever stored.
   */
  ghost predicate Excused(history: seq<Instant>, k: nat, now: Instant, timeWindow: nat)
    requires k < |history|
  {
    || |history| - k > MAX_SLIDING_ENTRIES_PER_KEY
    || exists j :: k <= j < |history| && Expired(history[j], now, timeWindow)
  }

  lemma {:induction false} ExcusedLater(history: seq<Instant>, k: nat, now: Instant, timeWindow: nat, e: Instant)
    requires k < |history| && Excused(history, k, now, timeWindow)
    ensures Excused(history + [e], k, now, timeWindow)
  {
    if |history| - k <= MAX_SLIDING_ENTRIES_PER_KEY {
      var j :| k <= j < |history| && Expired(history[j], now, timeWindow);
      assert Expired((history + [e])[j], now, timeWindow);
    }
  }

  lemma {:induction false} ObservedStores(stored: seq<Instant>, history: seq<Instant>, now: Instant, timeWindow: nat)
    requires StoresEnd(stored, history)
    ensures StoresEnd(Observed(stored, now, timeWindow), history + [now])
  {
    var p := PrunedIsSuffix(stored, now, timeWindow);
    var after, h := Observed(stored, now, timeWindow), history + [now];
    assert after == h[|h| - |after|..];
  }

  /** Recording a request drops only what is excused, also at a reading that is not the latest. */
  lemma {:induction false} ObservedExcuses(stored: seq<Instant>, history: seq<Instant>, now: Instant, timeWindow: nat,
                                           latest: Instant, k: nat)
    requires StoresEnd(stored, history) && now <= latest
    requires |history| - |stored| <= k < |history| + 1 - |Observed(stored, now, timeWindow)|
    ensures k <= |history| && Excused(history + [now], k, latest, timeWindow)
  {
    var p := PrunedIsSuffix(stored, now, timeWindow);
    var d, h := |history| - |stored|, history + [now];
    if k < d + p {
      assert h[k] == stored[k - d] && Expired(stored[k - d], now, timeWindow);
      assert Expired(h[k], latest, timeWindow);
    }
  }

  /** Evicting a stale history drops only what is excused. */
  lemma {:induction false} EvictedExcuses(stored: seq<Instant>, history: seq<Instant>, now: Instant, timeWindow: nat,
                                          latest: Instant, k: nat)
    requires StoresEnd(stored, history) && SlidingStale(stored, now) && timeWindow <= MAX_WINDOW_SECS && now <= latest
    requires |history| - |stored| <= k < |history|
    ensures Excused(history, k, latest, timeWindow)
  {
    var j := |history| - 1;
    assert history[j] == stored[|stored| - 1];
    assert Expired(history[j], latest, timeWindow);
  }

  // ----- one slot over a run -----

  /**
   When request `i` comes, whether it reaches the shard and is sent to the slot, and what is stored there before it and
   once the shard has been swept for it.
   */
  datatype Trace = Trace(at: nat -> Instant, near: nat -> bool, uses: nat -> bool, cell: nat -> seq<Instant>,
                         swept: nat -> seq<Instant>)

  /** The readings of the first `n` requests that were sent to the slot. */
  function History(t: Trace, n: nat): seq<Instant> {
    if n == 0 then [] else History(t, n - 1) + if t.uses(n - 1) then [t.at(n - 1)] else []
  }

  /** What request `i` can do to the slot: a sweep may evict a stale history, and a request sent there is recorded. */
  ghost predicate SlotStep(t: Trace, i: nat, timeWindow: nat) {
    && (t.uses(i) ==> t.near(i))
    && (t.swept(i) == t.cell(i) || (t.near(i) && SlidingStale(t.cell(i), t.at(i)) && t.swept(i) == []))
    && t.cell(i + 1) == if t.uses(i) then Observed(t.swept(i), t.at(i), timeWindow) else t.swept(i)
  }

  ghost predicate IsTrace(t: Trace, n: nat, timeWindow: nat) {
    && 1 <= timeWindow <= MAX_WINDOW_SECS && t.cell(0) == []
    && forall i: nat :: i < n ==> SlotStep(t, i, timeWindow)
  }

  /** In whatever order the readings come, a slot holds the end of the full history of what is sent to it. */
  lemma {:induction false} TraceStoresEnd(t: Trace, n: nat, timeWindow: nat)
    requires IsTrace(t, n, timeWindow)
    ensures StoresEnd(t.cell(n), History(t, n))
  {
    if n > 0 {
      TraceStoresEnd(t, n - 1, timeWindow);
      assert SlotStep(t, n - 1, timeWindow);
      assert History(t, n - 1) + [] == History(t, n - 1);
      if t.uses(n - 1) {
        ObservedStores(t.swept(n - 1), History(t, n - 1), t.at(n - 1), timeWindow);
      }
    }
  }

  lemma {:induction false} SweptStoresEnd(t: Trace, n: nat, timeWindow: nat)
    requires IsTrace(t, n, timeWindow) && SlotStep(t, n, timeWindow)
    ensures StoresEnd(t.swept(n), History(t, n))
  {
    TraceStoresEnd(t, n, timeWindow);
  }

  /** `now` is not behind any reading that has reached the shard among the first `n` requests. */
  ghost predicate NotBehind(t: Trace, n: nat, now: Instant) {
    forall i: nat :: i < n && t.near(i) ==> t.at(i) <= now
  }

  /** What is missing before request `n` is excused at every reading that is not behind the shard. */
  lemma {:induction false} MissingIsExcused(t: Trace, n: nat, timeWindow: nat, now: Instant, k: nat)
    requires IsTrace(t, n, timeWindow) && NotBehind(t, n, now)
    requires k < |History(t, n)| - |t.cell(n)|
    ensures Excused(History(t, n), k, now, timeWindow)
    decreases n, 0
  {
    if n > 0 {
      var history := History(t, n - 1);
      assert SlotStep(t, n - 1, timeWindow) && history + [] == history;
      SweptStoresEnd(t, n - 1, timeWindow);
      if k < |history| - |t.swept(n - 1)| {
        SweptIsExcused(t, n - 1, timeWindow, now, k);
        if t.uses(n - 1) {
          ExcusedLater(history, k, now, timeWindow, t.at(n - 1));
        }
      } else {
        ObservedExcuses(t.swept(n - 1), history, t.at(n - 1), timeWindow, now, k);
      }
    }
  }

  /** The same once the shard has been swept for request `n`. */
  lemma {:induction false} SweptIsExcused(t: Trace, n: nat, timeWindow: nat, now: Instant, k: nat)
    requires IsTrace(t, n, timeWindow) && SlotStep(t, n, timeWindow) && NotBehind(t, n + 1, now)
    requires k < |History(t, n)| - |t.swept(n)|
    ensures Excused(History(t, n), k, now, timeWindow)
    decreases n, 1
  {
    if k < |History(t, n)| - |t.cell(n)| {
      MissingIsExcused(t, n, timeWindow, now, k);
    } else {
      TraceStoresEnd(t, n, timeWindow);
      EvictedExcuses(t.cell(n), History(t, n), t.at(n), timeWindow, now, k);
    }
  }

  /** A reading that is not behind finds nothing forgotten, unless an inverted pair straddles the window. */
  lemma {:induction false} NotBehindForgetsNothing(t: Trace, n: nat, timeWindow: nat, now: Instant)
    requires IsTrace(t, n, timeWindow) && SlotStep(t, n, timeWindow) && NotBehind(t, n + 1, now)
    ensures Forgets(t.swept(n), History(t, n), now, timeWindow) ==> Straddles(History(t, n), now, timeWindow)
  {
    var stored, history := t.swept(n), History(t, n);
    if Forgets(stored, history, now, timeWindow) {
      var k :| 0 <= k < |history| - |stored| && |history| - k <= MAX_COUNT && !Expired(history[k], now, timeWindow);
      SweptIsExcused(t, n, timeWindow, now, k);
      ExcusedStraddles(history, k, now, timeWindow);
    }
  }

  lemma {:induction false} ExcusedStraddles(history: seq<Instant>, k: nat, now: Instant, timeWindow: nat)
    requires k < |history| && |history| - k <= MAX_COUNT && !Expired(history[k], now, timeWindow)
    requires Excused(history, k, now, timeWindow)
    ensures Straddles(history, now, timeWindow)
  {
    var j :| k <= j < |history| && Expired(history[j], now, timeWindow);
  }

  // ----- runs of the limiter -----

  function StoredIn(st: Slots, slot: string): seq<Instant> {
    Lookup(st, slot).GetOr([])
  }

  /** What `slot` holds once the shard has been swept for request `r`. */
  function SweptFor(st: Slots, r: Request, slot: string): seq<Instant> {
    StoredIn(Admit(st, r.key, LIMIT_COUNT_OVERFLOW, StaleAt(r.now), SweepMiss.Restore).0, slot)
  }

  /** `slot` of a shard over a run. */
  function TraceOf(hash: string -> nat, reqs: seq<Request>, shard: nat, slot: string): Trace
    requires shard < LIMIT_SHARDS
  {
    Trace((i: nat) => if i < |reqs| then reqs[i].now else 0,
          (i: nat) => i < |reqs| && ShardIdx(hash, reqs[i].key) == shard,
          (i: nat) => i < |reqs| && ShardIdx(hash, reqs[i].key) == shard
                      && SlotOf(Run(hash, reqs[..i])[shard], reqs[i]) == slot,
          (i: nat) => if i <= |reqs| then StoredIn(Run(hash, reqs[..i])[shard], slot) else [],
          (i: nat) => if i < |reqs| && ShardIdx(hash, reqs[i].key) == shard
                      then SweptFor(Run(hash, reqs[..i])[shard], reqs[i], slot)
                      else if i <= |reqs| then StoredIn(Run(hash, reqs[..i])[shard], slot) else [])
  }

  /** One request against a shard, as seen by any slot. */
  lemma {:induction false} ShardStep(st: Slots, r: Request, slot: string)
    ensures SweptFor(st, r, slot) == StoredIn(st, slot)
            || (SlidingStale(StoredIn(st, slot), r.now) && SweptFor(st, r, slot) == [])
    ensures StoredIn(StateAfter(st, r), slot)
            == if SlotOf(st, r) == slot then Observed(SweptFor(st, r, slot), r.now, r.timeWindow)
               else SweptFor(st, r, slot)
    ensures SlotOf(st, r) == slot ==> WindowAfter(st, r) == Observed(SweptFor(st, r, slot), r.now, r.timeWindow)
  {
    SweepSound(st, StaleAt(r.now), SweepMiss.Restore, CLEANUP_BUDGET, slot);
  }

  /** The requests sent to the slot have one window. */
  ghost predicate OneWindow(t: Trace, reqs: seq<Request>, timeWindow: nat) {
    && 1 <= timeWindow <= MAX_WINDOW_SECS
    && forall i: nat :: i < |reqs| && t.uses(i) ==> reqs[i].timeWindow == timeWindow
  }

  /** Request `i` of a run, as seen by a slot. */
  lemma {:induction false} RunSlotStep(hash: string -> nat, reqs: seq<Request>, i: nat, shard: nat, slot: string,
                                       timeWindow: nat)
    requires i < |reqs| && shard < LIMIT_SHARDS
    requires TraceOf(hash, reqs, shard, slot).uses(i) ==> reqs[i].timeWindow == timeWindow
    ensures TraceOf(hash, reqs, shard, slot).at(i) == reqs[i].now
    ensures SlotStep(TraceOf(hash, reqs, shard, slot), i, timeWindow)
    ensures TraceOf(hash, reqs, shard, slot).uses(i) ==>
              (Limited(hash, reqs, i) <==> |TraceOf(hash, reqs, shard, slot).cell(i + 1)| > reqs[i].count)
  {
    assert reqs[..i + 1][..i] == reqs[..i] && reqs[..i + 1][i] == reqs[i];
    ShardStep(Run(hash, reqs[..i])[shard], reqs[i], slot);
  }

  lemma {:induction false} RunIsTrace(hash: string -> nat, reqs: seq<Request>, shard: nat, slot: string,
                                      timeWindow: nat)
    requires shard < LIMIT_SHARDS && OneWindow(TraceOf(hash, reqs, shard, slot), reqs, timeWindow)
    ensures IsTrace(TraceOf(hash, reqs, shard, slot), |reqs|, timeWindow)
  {
    forall i: nat | i < |reqs| ensures SlotStep(TraceOf(hash, reqs, shard, slot), i, timeWindow) {
      RunSlotStep(hash, reqs, i, shard, slot, timeWindow);
    }
    assert reqs[..0] == [];
  }

  /** The slot that request `i` is sent to, over the run. */
  function SlotTrace(hash: string -> nat, reqs: seq<Request>, i: nat): Trace
    requires i < |reqs|
  {
    TraceOf(hash, reqs, ShardIdx(hash, reqs[i].key), SlotOf(ShardBefore(hash, reqs, i), reqs[i]))
  }

  /** The requests that share a slot with request `i` have one window. */
  ghost predicate OneWindowAt(hash: string -> nat, reqs: seq<Request>, i: nat, timeWindow: nat)
    requires i < |reqs|
  {
    OneWindow(SlotTrace(hash, reqs, i), reqs, timeWindow)
  }

  // ----- agreement over whole runs -----

  /** How many requests sent to the same slot are live for request `i`, itself included. */
  function Occupancy(hash: string -> nat, reqs: seq<Request>, i: nat): nat
    requires i < |reqs|
  {
    |Live(History(SlotTrace(hash, reqs, i), i + 1), reqs[i].now, reqs[i].timeWindow)|
  }

  /** Request `i` straddles an inverted pair, or finds a live event forgotten. */
  ghost predicate StraddlesAt(hash: string -> nat, reqs: seq<Request>, i: nat)
    requires i < |reqs|
  {
    Straddles(History(SlotTrace(hash, reqs, i), i), reqs[i].now, reqs[i].timeWindow)
  }

  ghost predicate ForgetsAt(hash: string -> nat, reqs: seq<Request>, i: nat)
    requires i < |reqs|
  {
    var t := SlotTrace(hash, reqs, i);
    Forgets(t.swept(i), History(t, i), reqs[i].now, reqs[i].timeWindow)
  }

  ghost predicate ExactAt(hash: string -> nat, reqs: seq<Request>, i: nat)
    requires i < |reqs|
  {
    var t := SlotTrace(hash, reqs, i);
    Exact(t.swept(i), History(t, i), reqs[i].now, reqs[i].timeWindow)
  }

  /** Request `i` in terms of what is stored in its slot and of the full history. */
  lemma {:induction false} RequestCounts(hash: string -> nat, reqs: seq<Request>, i: nat, timeWindow: nat)
    requires i < |reqs| && OneWindowAt(hash, reqs, i, timeWindow)
    ensures var t := SlotTrace(hash, reqs, i);
            && t.uses(i) && t.at(i) == reqs[i].now && reqs[i].timeWindow == timeWindow
            && IsTrace(t, i, timeWindow) && SlotStep(t, i, timeWindow)
            && StoresEnd(t.swept(i), History(t, i))
            && (Limited(hash, reqs, i) <==> |Observed(t.swept(i), reqs[i].now, timeWindow)| > reqs[i].count)
            && Occupancy(hash, reqs, i) == |Live(History(t, i) + [reqs[i].now], reqs[i].now, timeWindow)|
  {
    var t := SlotTrace(hash, reqs, i);
    var shard, slot := ShardIdx(hash, reqs[i].key), SlotOf(ShardBefore(hash, reqs, i), reqs[i]);
    assert t.uses(i);
    RunIsTrace(hash, reqs, shard, slot, timeWindow);
    RunSlotStep(hash, reqs, i, shard, slot, timeWindow);
    SweptStoresEnd(t, i, timeWindow);
  }

  /**
   Main result over every run, with other keys, eviction, the cap and readings in any order: the window of a request
   is exact precisely when no inverted pair straddles it and no live event has been forgotten; for a reading not
   behind its shard, precisely when no inverted pair straddles it.
   */
  lemma {:induction false} RunExactIff(hash: string -> nat, reqs: seq<Request>, i: nat, timeWindow: nat)
    requires i < |reqs| && OneWindowAt(hash, reqs, i, timeWindow)
    ensures ExactAt(hash, reqs, i) <==> !StraddlesAt(hash, reqs, i) && !ForgetsAt(hash, reqs, i)
    ensures NotBehind(SlotTrace(hash, reqs, i), i, reqs[i].now) ==>
              (ExactAt(hash, reqs, i) <==> !StraddlesAt(hash, reqs, i))
  {
    RequestCounts(hash, reqs, i, timeWindow);
    TraceExactIff(SlotTrace(hash, reqs, i), i, timeWindow, reqs[i].now);
  }

  lemma {:induction false} TraceExactIff(t: Trace, n: nat, timeWindow: nat, now: Instant)
    requires IsTrace(t, n, timeWindow) && SlotStep(t, n, timeWindow) && t.at(n) == now
    ensures Exact(t.swept(n), History(t, n), now, timeWindow) <==>
            !Straddles(History(t, n), now, timeWindow) && !Forgets(t.swept(n), History(t, n), now, timeWindow)
    ensures NotBehind(t, n, now) && Forgets(t.swept(n), History(t, n), now, timeWindow) ==>
              Straddles(History(t, n), now, timeWindow)
  {
    SweptStoresEnd(t, n, timeWindow);
    ExactIff(t.swept(n), History(t, n), now, timeWindow);
    if NotBehind(t, n, now) {
      NotBehindForgetsNothing(t, n, timeWindow, now);
    }
  }

  /**
   Main result on decisions: every request, whatever slot it is sent to, gets the decision of a limiter that remembers
   every request sent there, whenever its window is exact.
   */
  lemma {:induction false} AgreesWithUnbounded(hash: string -> nat, reqs: seq<Request>, i: nat, timeWindow: nat)
    requires i < |reqs| && OneWindowAt(hash, reqs, i, timeWindow)
    requires !StraddlesAt(hash, reqs, i) && !ForgetsAt(hash, reqs, i)
    requires reqs[i].count <= MAX_COUNT
    ensures Limited(hash, reqs, i) <==> Occupancy(hash, reqs, i) > reqs[i].count
  {
    RunExactIff(hash, reqs, i, timeWindow);
    RequestCounts(hash, reqs, i, timeWindow);
    var t := SlotTrace(hash, reqs, i);
    ExactDecides(t.swept(i), History(t, i), reqs[i].now, timeWindow, reqs[i].count);
  }

  /** Requests reach each shard in clock order. */
  ghost predicate InOrder(hash: string -> nat, reqs: seq<Request>) {
    forall i, j :: 0 <= i < j < |reqs| && ShardIdx(hash, reqs[i].key) == ShardIdx(hash, reqs[j].key)
                   ==> reqs[i].now <= reqs[j].now
  }

  /** Clock order rules out both errors, for every request. */
  lemma {:induction false} InOrderIsExact(hash: string -> nat, reqs: seq<Request>, i: nat, timeWindow: nat)
    requires i < |reqs| && OneWindowAt(hash, reqs, i, timeWindow) && InOrder(hash, reqs)
    ensures !StraddlesAt(hash, reqs, i) && !ForgetsAt(hash, reqs, i)
  {
    RequestCounts(hash, reqs, i, timeWindow);
    InOrderTrace(hash, reqs, ShardIdx(hash, reqs[i].key), SlotOf(ShardBefore(hash, reqs, i), reqs[i]));
    TraceInOrderIsExact(SlotTrace(hash, reqs, i), i, timeWindow);
  }

  lemma {:induction false} TraceInOrderIsExact(t: Trace, n: nat, timeWindow: nat)
    requires IsTrace(t, n, timeWindow) && SlotStep(t, n, timeWindow) && TraceInOrder(t, n + 1) && t.uses(n)
    ensures !Straddles(History(t, n), t.at(n), timeWindow)
    ensures !Forgets(t.swept(n), History(t, n), t.at(n), timeWindow)
  {
    forall i: nat | i < n && t.uses(i) ensures t.near(i) {
      assert SlotStep(t, i, timeWindow);
    }
    EventsInOrder(t, n, t.at(n));
    NotBehindForgetsNothing(t, n, timeWindow, t.at(n));
  }

  ghost predicate TraceInOrder(t: Trace, n: nat) {
    forall i: nat, j: nat :: i < j < n && t.near(i) && t.near(j) ==> t.at(i) <= t.at(j)
  }

  lemma {:induction false} InOrderTrace(hash: string -> nat, reqs: seq<Request>, shard: nat, slot: string)
    requires shard < LIMIT_SHARDS && InOrder(hash, reqs)
    ensures TraceInOrder(TraceOf(hash, reqs, shard, slot), |reqs|)
  {
  }

  ghost predicate Sorted(s: seq<Instant>) {
    forall i, j :: 0 <= i < j < |s| ==> s[i] <= s[j]
  }

  lemma {:induction false} EventsInOrder(t: Trace, n: nat, now: Instant)
    requires TraceInOrder(t, n) && NotBehind(t, n, now) && forall i: nat :: i < n && t.uses(i) ==> t.near(i)
    ensures Sorted(History(t, n)) && forall e :: e in History(t, n) ==> e <= now
  {
    if n > 0 {
      var events := History(t, n - 1);
      if t.uses(n - 1) {
        EventsInOrder(t, n - 1, t.at(n - 1));
        assert forall i :: 0 <= i < |events| ==> events[i] in events;
      } else {
        EventsInOrder(t, n - 1, now);
      }
    }
  }

  // ----- keys with a slot of their own -----

  /** The slot of such a key serves the requests of the key and no others. */
  lemma {:induction false} OwnSlotServesKey(hash: string -> nat, reqs: seq<Request>, key: string, j: nat)
    requires NeverOverflowed(hash, reqs, key) && j < |reqs|
    ensures TraceOf(hash, reqs, ShardIdx(hash, key), key).uses(j) <==> reqs[j].key == key
  {
    assert GetsOwnSlot(hash, reqs, j, key);
  }

  lemma {:induction false} HistoryIsEvents(t: Trace, reqs: seq<Request>, key: string, n: nat)
    requires n <= |reqs|
    requires forall j: nat :: j < |reqs| ==> (t.uses(j) <==> reqs[j].key == key) && t.at(j) == reqs[j].now
    ensures History(t, n) == EventsOf(reqs[..n], key)
  {
    if n > 0 {
      HistoryIsEvents(t, reqs, key, n - 1);
      assert reqs[..n][..n - 1] == reqs[..n - 1];
    }
  }

  lemma {:induction false} OwnHistory(hash: string -> nat, reqs: seq<Request>, key: string, n: nat)
    requires NeverOverflowed(hash, reqs, key) && n <= |reqs|
    ensures History(TraceOf(hash, reqs, ShardIdx(hash, key), key), n) == EventsOf(reqs[..n], key)
  {
    var t := TraceOf(hash, reqs, ShardIdx(hash, key), key);
    forall j: nat | j < |reqs| ensures (t.uses(j) <==> reqs[j].key == key) && t.at(j) == reqs[j].now {
      OwnSlotServesKey(hash, reqs, key, j);
    }
    HistoryIsEvents(t, reqs, key, n);
  }

  lemma {:induction false} OwnSlotTrace(hash: string -> nat, reqs: seq<Request>, i: nat)
    requires i < |reqs| && NeverOverflowed(hash, reqs, reqs[i].key)
    ensures SlotTrace(hash, reqs, i) == TraceOf(hash, reqs, ShardIdx(hash, reqs[i].key), reqs[i].key)
  {
    assert GetsOwnSlot(hash, reqs, i, reqs[i].key);
  }

  /** So a key that is never sent to the overflow slot is counted as if every request of it were remembered. */
  lemma {:induction false} OwnOccupancy(hash: string -> nat, reqs: seq<Request>, i: nat)
    requires i < |reqs| && NeverOverflowed(hash, reqs, reqs[i].key)
    ensures Occupancy(hash, reqs, i)
            == |Live(EventsOf(reqs[..i + 1], reqs[i].key), reqs[i].now, reqs[i].timeWindow)|
    ensures StraddlesAt(hash, reqs, i) <==>
            Straddles(EventsOf(reqs[..i], reqs[i].key), reqs[i].now, reqs[i].timeWindow)
  {
    OwnSlotTrace(hash, reqs, i);
    OwnHistory(hash, reqs, reqs[i].key, i);
    OwnHistory(hash, reqs, reqs[i].key, i + 1);
  }

  // ----- when no key overflows -----

  /** `keys` are all that reach the shard of `key`. */
  ghost predicate ReachedBy(hash: string -> nat, reqs: seq<Request>, key: string, keys: set<string>) {
    forall i :: 0 <= i < |reqs| && ShardIdx(hash, reqs[i].key) == ShardIdx(hash, key) ==> reqs[i].key in keys
  }

  /** At most 255 distinct keys in a shard: none of them is ever sent to the overflow slot. */
  lemma {:induction false} FewKeysNeverOverflow(hash: string -> nat, reqs: seq<Request>, key: string, keys: set<string>)
    requires ReachedBy(hash, reqs, key, keys) && |keys| <= PER_SHARD_REGULAR_MAX && key != LIMIT_COUNT_OVERFLOW
    ensures NeverOverflowed(hash, reqs, key)
  {
    forall i | 0 <= i < |reqs| ensures GetsOwnSlot(hash, reqs, i, key) {
      FewKeysStored(hash, reqs, i, key, keys);
      if reqs[i].key == key {
        FewKeysFit(ShardBefore(hash, reqs, i), key, LIMIT_COUNT_OVERFLOW, StaleAt(reqs[i].now), SweepMiss.Restore, [],
                   keys);
      }
    }
  }

  /** Exactly when that is so: at each request the shard has room for the key, or its oldest histories are stale. */
  lemma {:induction false} NeverOverflowedIffRoom(hash: string -> nat, reqs: seq<Request>, key: string)
    requires key != LIMIT_COUNT_OVERFLOW
    ensures NeverOverflowed(hash, reqs, key) <==>
            forall i :: 0 <= i < |reqs| && reqs[i].key == key ==>
              RoomFor(ShardBefore(hash, reqs, i), key, StaleAt(reqs[i].now), SweepMiss.Restore)
  {
    forall i | 0 <= i < |reqs|
      ensures GetsOwnSlot(hash, reqs, i, key) <==>
              (reqs[i].key == key ==>
                 RoomFor(ShardBefore(hash, reqs, i), key, StaleAt(reqs[i].now), SweepMiss.Restore))
    {
      RunStaysBounded(hash, reqs[..i], ShardIdx(hash, reqs[i].key));
      if reqs[i].key == key {
        OwnSlotIffRoom(ShardBefore(hash, reqs, i), key, LIMIT_COUNT_OVERFLOW, StaleAt(reqs[i].now), SweepMiss.Restore);
      }
    }
  }

  lemma {:induction false} RunStaysBounded(hash: string -> nat, reqs: seq<Request>, shard: nat)
    requires shard < LIMIT_SHARDS
    ensures WithinBounds(Run(hash, reqs)[shard], LIMIT_COUNT_OVERFLOW)
  {
    if reqs != [] {
      var r := reqs[|reqs| - 1];
      RunStaysBounded(hash, reqs[..|reqs| - 1], shard);
      if ShardIdx(hash, r.key) == shard {
        var st := Run(hash, reqs[..|reqs| - 1])[shard];
        AdmitKeepsBounds(st, r.key, LIMIT_COUNT_OVERFLOW, StaleAt(r.now), SweepMiss.Restore, WindowAfter(st, r));
      }
    }
  }

  lemma {:induction false} FewKeysStored(hash: string -> nat, reqs: seq<Request>, n: nat, key: string,
                                         keys: set<string>)
    requires n <= |reqs| && ReachedBy(hash, reqs, key, keys) && |keys| <= PER_SHARD_REGULAR_MAX
    ensures Run(hash, reqs[..n])[ShardIdx(hash, key)].entries.Keys <= keys
  {
    if n == 0 {
      assert reqs[..0] == [];
    } else {
      FewKeysStored(hash, reqs, n - 1, key, keys);
      assert reqs[..n][..n - 1] == reqs[..n - 1];
      var r, st := reqs[n - 1], Run(hash, reqs[..n - 1])[ShardIdx(hash, key)];
      if ShardIdx(hash, r.key) == ShardIdx(hash, key) {
        FewKeysFit(st, r.key, LIMIT_COUNT_OVERFLOW, StaleAt(r.now), SweepMiss.Restore, WindowAfter(st, r), keys);
      }
    }
  }

  // ----- what the limit means -----

  /** How many of the first `n` requests sent to the slot were let through in [from, from + timeWindow). */
  function Accepted(t: Trace, refused: nat -> bool, n: nat, from: Instant, timeWindow: nat): nat {
    if n == 0 then 0
    else
      Accepted(t, refused, n - 1, from, timeWindow)
      + if t.uses(n - 1) && from <= t.at(n - 1) < from + timeWindow * NANOS_PER_SEC && !refused(n - 1) then 1 else 0
  }

  function Refused(hash: string -> nat, reqs: seq<Request>): nat -> bool {
    (i: nat) => i < |reqs| && Limited(hash, reqs, i)
  }

  /** Every request counted as accepted is live for a request that arrives within the same window. */
  lemma {:induction false} AcceptedAreLive(t: Trace, refused: nat -> bool, n: nat, from: Instant, timeWindow: nat,
                                           now: Instant)
    requires from <= now < from + timeWindow * NANOS_PER_SEC
    ensures Accepted(t, refused, n, from, timeWindow) <= |Live(History(t, n), now, timeWindow)|
  {
    if n > 0 {
      AcceptedAreLive(t, refused, n - 1, from, timeWindow, now);
      var events := History(t, n - 1);
      assert (events + [t.at(n - 1)])[..|events|] == events && events + [] == events;
    }
  }

  /** Request `i` is let through although the full history of its slot forbids it. */
  predicate OverAdmits(hash: string -> nat, reqs: seq<Request>, i: nat)
    requires i < |reqs|
  {
    !Limited(hash, reqs, i) && Occupancy(hash, reqs, i) > reqs[i].count
  }

  /** Nothing that should count is missing: no event at all that is live, or nothing that a limit could turn on. */
  ghost predicate Covers(stored: seq<Instant>, history: seq<Instant>, now: Instant, timeWindow: nat) {
    || (forall k :: 0 <= k < |history| - |stored| ==> Expired(history[k], now, timeWindow))
    || (!Straddles(history, now, timeWindow) && !Forgets(stored, history, now, timeWindow))
  }

  ghost predicate CoversAt(hash: string -> nat, reqs: seq<Request>, i: nat)
    requires i < |reqs|
  {
    var t := SlotTrace(hash, reqs, i);
    Covers(t.swept(i), History(t, i), reqs[i].now, reqs[i].timeWindow)
  }

  /** What is kept holds every stored live event, so the count can only err on the safe side. */
  lemma {:induction false} KeptCoversLive(stored: seq<Instant>, history: seq<Instant>, now: Instant, timeWindow: nat)
    requires StoresEnd(stored, history)
    requires forall k :: 0 <= k < |history| - |stored| ==> Expired(history[k], now, timeWindow)
    ensures |Pruned(stored, now, timeWindow)| >= |Live(history, now, timeWindow)|
  {
    var p := PrunedIsSuffix(stored, now, timeWindow);
    var c := |history| - |stored| + p;
    forall k | 0 <= k < c ensures Expired(history[..c][k], now, timeWindow) {
      assert k >= |history| - |stored| ==> history[k] == stored[k - (|history| - |stored|)];
    }
    assert history == history[..c] + history[c..];
    LiveConcat(history[..c], history[c..], now, timeWindow);
    LiveNone(history[..c], now, timeWindow);
    LiveIsShorter(history[c..], now, timeWindow);
  }

  lemma {:induction false} LiveIsShorter(events: seq<Instant>, now: Instant, timeWindow: nat)
    ensures |Live(events, now, timeWindow)| <= |events|
  {
    if events != [] {
      LiveIsShorter(events[..|events| - 1], now, timeWindow);
    }
  }

  lemma {:induction false} CoversEnough(stored: seq<Instant>, history: seq<Instant>, now: Instant, timeWindow: nat,
                                         count: nat)
    requires StoresEnd(stored, history) && Covers(stored, history, now, timeWindow)
    requires timeWindow > 0 && count <= MAX_COUNT
    ensures |Live(history + [now], now, timeWindow)| > count ==> |Observed(stored, now, timeWindow)| > count
  {
    if forall k :: 0 <= k < |history| - |stored| ==> Expired(history[k], now, timeWindow) {
      KeptCoversLive(stored, history, now, timeWindow);
      LiveConcat(history, [now], now, timeWindow);
      LiveAll([now], now, timeWindow);
    } else {
      ExactIff(stored, history, now, timeWindow);
      ExactDecides(stored, history, now, timeWindow, count);
    }
  }

  lemma {:induction false} CoveredNeverOverAdmits(hash: string -> nat, reqs: seq<Request>, i: nat, timeWindow: nat)
    requires i < |reqs| && OneWindowAt(hash, reqs, i, timeWindow)
    requires CoversAt(hash, reqs, i) && reqs[i].count <= MAX_COUNT
    ensures !OverAdmits(hash, reqs, i)
  {
    RequestCounts(hash, reqs, i, timeWindow);
    var t := SlotTrace(hash, reqs, i);
    CoversEnough(t.swept(i), History(t, i), reqs[i].now, timeWindow, reqs[i].count);
  }

  /** Request `i`, if it is sent to `slot`, is held to `count` per `timeWindow`, and covered. */
  ghost predicate HeldTo(hash: string -> nat, reqs: seq<Request>, i: nat, shard: nat, slot: string, timeWindow: nat,
                         count: nat)
    requires i < |reqs| && shard < LIMIT_SHARDS
  {
    TraceOf(hash, reqs, shard, slot).uses(i) ==>
      reqs[i].timeWindow == timeWindow && reqs[i].count == count && CoversAt(hash, reqs, i)
  }

  /** Request `i`, if it is sent to the slot and let through, finds at most `count` live events, itself included. */
  ghost predicate Within(t: Trace, refused: nat -> bool, i: nat, timeWindow: nat, count: nat) {
    t.uses(i) && !refused(i) ==> |Live(History(t, i + 1), t.at(i), timeWindow)| <= count
  }

  lemma {:induction false} AcceptedWithin(t: Trace, refused: nat -> bool, n: nat, from: Instant, timeWindow: nat,
                                          count: nat)
    requires forall i: nat :: i < n ==> Within(t, refused, i, timeWindow, count)
    ensures Accepted(t, refused, n, from, timeWindow) <= count
  {
    if n > 0 {
      AcceptedWithin(t, refused, n - 1, from, timeWindow, count);
      assert Within(t, refused, n - 1, timeWindow, count);
      if from <= t.at(n - 1) < from + timeWindow * NANOS_PER_SEC {
        AcceptedAreLive(t, refused, n, from, timeWindow, t.at(n - 1));
      }
    }
  }

  /** A request sent to `slot` of `shard` sees that slot as its own. */
  lemma {:induction false} SameSlotTrace(hash: string -> nat, reqs: seq<Request>, i: nat, shard: nat, slot: string)
    requires i < |reqs| && shard < LIMIT_SHARDS && TraceOf(hash, reqs, shard, slot).uses(i)
    ensures SlotTrace(hash, reqs, i) == TraceOf(hash, reqs, shard, slot)
  {
  }

  lemma {:induction false} HeldIsWithin(hash: string -> nat, reqs: seq<Request>, i: nat, shard: nat, slot: string,
                                        timeWindow: nat, count: nat)
    requires i < |reqs| && shard < LIMIT_SHARDS && count <= MAX_COUNT
    requires OneWindow(TraceOf(hash, reqs, shard, slot), reqs, timeWindow)
    requires HeldTo(hash, reqs, i, shard, slot, timeWindow, count)
    ensures Within(TraceOf(hash, reqs, shard, slot), Refused(hash, reqs), i, timeWindow, count)
  {
    if TraceOf(hash, reqs, shard, slot).uses(i) {
      SameSlotTrace(hash, reqs, i, shard, slot);
      CoveredNeverOverAdmits(hash, reqs, i, timeWindow);
    }
  }

  /**
   At most `count` of the requests sent to one slot are let through in any window of that length, placed anywhere, as
   long as each of them finds nothing missing that should count: so much for a key with a slot of its own, and for all
   overflowed keys of a shard together.
   */
  lemma {:induction false} AtMostCountPerWindow(hash: string -> nat, reqs: seq<Request>, n: nat, shard: nat,
                                                slot: string, from: Instant, timeWindow: nat, count: nat)
    requires n <= |reqs| && shard < LIMIT_SHARDS && count <= MAX_COUNT
    requires OneWindow(TraceOf(hash, reqs, shard, slot), reqs, timeWindow)
    requires forall i: nat :: i < n ==> HeldTo(hash, reqs, i, shard, slot, timeWindow, count)
    ensures Accepted(TraceOf(hash, reqs, shard, slot), Refused(hash, reqs), n, from, timeWindow) <= count
  {
    forall i: nat | i < n
      ensures Within(TraceOf(hash, reqs, shard, slot), Refused(hash, reqs), i, timeWindow, count)
    {
      assert HeldTo(hash, reqs, i, shard, slot, timeWindow, count);
      HeldIsWithin(hash, reqs, i, shard, slot, timeWindow, count);
    }
    AcceptedWithin(TraceOf(hash, reqs, shard, slot), Refused(hash, reqs), n, from, timeWindow, count);
  }

  /** Clock order is enough for that. */
  lemma {:induction false} InOrderIsHeldTo(hash: string -> nat, reqs: seq<Request>, shard: nat, slot: string,
                                           timeWindow: nat, count: nat, i: nat)
    requires i < |reqs| && shard < LIMIT_SHARDS && InOrder(hash, reqs)
    requires OneWindow(TraceOf(hash, reqs, shard, slot), reqs, timeWindow)
    requires TraceOf(hash, reqs, shard, slot).uses(i) ==> reqs[i].count == count
    ensures HeldTo(hash, reqs, i, shard, slot, timeWindow, count)
  {
    if TraceOf(hash, reqs, shard, slot).uses(i) {
      SameSlotTrace(hash, reqs, i, shard, slot);
      InOrderIsExact(hash, reqs, i, timeWindow);
    }
  }

  /** The limit that request `i` would be held to, with everything before it unchanged. */
  function WithCount(reqs: seq<Request>, i: nat, count: nat): seq<Request>
    requires i < |reqs|
  {
    reqs[..i] + [reqs[i].(count := count)]
  }

  /**
   When a request can be let through wrongly: unless an inverted pair straddles its window, it is so under some limit
   exactly when a live event has been forgotten, which takes a reading behind its shard.
   */
  lemma {:induction false} OverAdmitsIffForgets(hash: string -> nat, reqs: seq<Request>, i: nat, timeWindow: nat)
    requires i < |reqs| && OneWindowAt(hash, reqs, i, timeWindow) && !StraddlesAt(hash, reqs, i)
    ensures ForgetsAt(hash, reqs, i) <==>
            exists count: nat :: count <= MAX_COUNT && OverAdmits(hash, WithCount(reqs, i, count), i)
    ensures ForgetsAt(hash, reqs, i) ==> !NotBehind(SlotTrace(hash, reqs, i), i, reqs[i].now)
  {
    var r, t := reqs[i], SlotTrace(hash, reqs, i);
    RunExactIff(hash, reqs, i, timeWindow);
    RequestCounts(hash, reqs, i, timeWindow);
    forall count: nat
      ensures OverAdmits(hash, WithCount(reqs, i, count), i) <==>
              |Observed(t.swept(i), r.now, timeWindow)| <= count < |Live(History(t, i) + [r.now], r.now, timeWindow)|
    {
      WithCountCounts(hash, reqs, i, timeWindow, count);
    }
    if ForgetsAt(hash, reqs, i) {
      ForgettingUndercounts(t.swept(i), History(t, i), r.now, timeWindow);
      assert OverAdmits(hash, WithCount(reqs, i, |Observed(t.swept(i), r.now, timeWindow)|), i);
    } else {
      forall count: nat | count <= MAX_COUNT ensures !OverAdmits(hash, WithCount(reqs, i, count), i) {
        ExactDecides(t.swept(i), History(t, i), r.now, timeWindow, count);
      }
    }
  }

  lemma {:induction false} SameSlotAt(hash: string -> nat, a: seq<Request>, b: seq<Request>, j: nat, shard: nat,
                                      slot: string)
    requires j < |a| && j < |b| && a[..j] == b[..j] && a[j].key == b[j].key && a[j].now == b[j].now
    requires shard < LIMIT_SHARDS
    ensures var t, u := TraceOf(hash, a, shard, slot), TraceOf(hash, b, shard, slot);
            t.at(j) == u.at(j) && t.uses(j) == u.uses(j) && t.swept(j) == u.swept(j)
  {
  }

  /** Two runs that agree before request `i`, and on when and for which key it comes, look alike to a slot. */
  lemma {:induction false} SamePrefixTrace(hash: string -> nat, a: seq<Request>, b: seq<Request>, i: nat, shard: nat,
                                           slot: string)
    requires i < |a| && i < |b| && a[..i] == b[..i] && a[i].key == b[i].key && a[i].now == b[i].now
    requires shard < LIMIT_SHARDS
    ensures var t, u := TraceOf(hash, a, shard, slot), TraceOf(hash, b, shard, slot);
            && (forall j: nat :: j <= i ==> t.at(j) == u.at(j) && t.uses(j) == u.uses(j))
            && t.swept(i) == u.swept(i)
  {
    forall j: nat | j <= i
      ensures TraceOf(hash, a, shard, slot).at(j) == TraceOf(hash, b, shard, slot).at(j)
      ensures TraceOf(hash, a, shard, slot).uses(j) == TraceOf(hash, b, shard, slot).uses(j)
    {
      assert a[..j] == a[..i][..j] && b[..j] == b[..i][..j];
      assert j < i ==> a[j] == a[..i][j] && b[j] == b[..i][j];
      SameSlotAt(hash, a, b, j, shard, slot);
    }
    SameSlotAt(hash, a, b, i, shard, slot);
  }

  lemma {:induction false} SameHistory(t: Trace, u: Trace, n: nat)
    requires forall j: nat :: j < n ==> t.at(j) == u.at(j) && t.uses(j) == u.uses(j)
    ensures History(t, n) == History(u, n)
  {
    if n > 0 {
      SameHistory(t, u, n - 1);
    }
  }

  lemma {:induction false} WithCountCounts(hash: string -> nat, reqs: seq<Request>, i: nat, timeWindow: nat, count: nat)
    requires i < |reqs| && OneWindowAt(hash, reqs, i, timeWindow)
    ensures var t := SlotTrace(hash, reqs, i);
            OverAdmits(hash, WithCount(reqs, i, count), i) <==>
            |Observed(t.swept(i), reqs[i].now, timeWindow)| <= count
            < |Live(History(t, i) + [reqs[i].now], reqs[i].now, timeWindow)|
  {
    var other := WithCount(reqs, i, count);
    var shard, slot := ShardIdx(hash, reqs[i].key), SlotOf(ShardBefore(hash, reqs, i), reqs[i]);
    var t, u := TraceOf(hash, reqs, shard, slot), TraceOf(hash, other, shard, slot);
    assert other[..i] == reqs[..i];
    SamePrefixTrace(hash, reqs, other, i, shard, slot);
    SameHistory(t, u, i);
    forall j: nat | j < |other| && u.uses(j) ensures other[j].timeWindow == timeWindow {
      assert t.uses(j);
    }
    assert SlotTrace(hash, other, i) == u;
    RequestCounts(hash, other, i, timeWindow);
  }

  /** With nothing straddling, every event after a forgotten live one is live, so the count falls short. */
  lemma {:induction false} ForgettingUndercounts(stored: seq<Instant>, history: seq<Instant>, now: Instant,
                                                 timeWindow: nat)
    requires StoresEnd(stored, history) && timeWindow > 0
    requires !Straddles(history, now, timeWindow) && Forgets(stored, history, now, timeWindow)
    ensures |Observed(stored, now, timeWindow)| <= MAX_COUNT
    ensures |Observed(stored, now, timeWindow)| < |Live(history + [now], now, timeWindow)|
  {
    var k :| 0 <= k < |history| - |stored| && |history| - k <= MAX_COUNT && !Expired(history[k], now, timeWindow);
    forall j | k <= j < |history| ensures !Expired(history[j], now, timeWindow) {
    }
    LiveFromThere(history, k, now, timeWindow);
    var p := PrunedIsSuffix(stored, now, timeWindow);
  }

  lemma {:induction false} LiveFromThere(history: seq<Instant>, k: nat, now: Instant, timeWindow: nat)
    requires k <= |history| && timeWindow > 0
    requires forall j :: k <= j < |history| ==> !Expired(history[j], now, timeWindow)
    ensures |Live(history + [now], now, timeWindow)| >= |history| - k + 1
  {
    var h := history + [now];
    assert h == h[..k] + h[k..];
    LiveConcat(h[..k], h[k..], now, timeWindow);
    LiveAll(h[k..], now, timeWindow);
  }

  // ----- exactly how far the limit can be exceeded -----

  /** How many events have readings ahead of `now`. */
  function Ahead(events: seq<Instant>, now: Instant): nat {
    if events == [] then 0
    else Ahead(events[..|events| - 1], now) + if events[|events| - 1] > now then 1 else 0
  }

  /** None of the first `n` requests sent to the slot within [from, from + timeWindow) was refused. */
  ghost predicate NoneRefused(t: Trace, refused: nat -> bool, n: nat, from: Instant, timeWindow: nat) {
    forall i: nat :: i < n && t.uses(i) && from <= t.at(i) < from + timeWindow * NANOS_PER_SEC ==> !refused(i)
  }

  /** Then those let through up to `now` are the live events that are not ahead of it. */
  lemma {:induction false} AcceptedAreTheLive(t: Trace, refused: nat -> bool, n: nat, from: Instant, timeWindow: nat,
                                              now: Instant)
    requires timeWindow > 0 && now + 1 == from + timeWindow * NANOS_PER_SEC
    requires NoneRefused(t, refused, n, from, timeWindow)
    ensures Accepted(t, refused, n, from, timeWindow) + Ahead(History(t, n), now)
            == |Live(History(t, n), now, timeWindow)|
  {
    if n > 0 {
      AcceptedAreTheLive(t, refused, n - 1, from, timeWindow, now);
      var events, e := History(t, n - 1), t.at(n - 1);
      assert (events + [e])[..|events|] == events && events + [] == events;
      assert Expired(e, now, timeWindow) <==> e < from;
    }
  }

  /** The requests from `n` up to `m` are copies of one request, and all are sent to the slot. */
  ghost predicate Floods(t: Trace, reqs: seq<Request>, n: nat, m: nat, r: Request) {
    m < |reqs| && forall i: nat :: n <= i <= m ==> reqs[i] == r && t.uses(i)
  }

  /** Pruned once more at the same reading, nothing goes; one more request is recorded while there is room. */
  lemma {:induction false} PrunedAgain(stored: seq<Instant>, now: Instant, timeWindow: nat)
    requires timeWindow > 0
    ensures var kept := Pruned(stored, now, timeWindow);
            && Pruned(kept, now, timeWindow) == kept && Pruned(kept + [now], now, timeWindow) == kept + [now]
  {
    var p := PrunedIsSuffix(stored, now, timeWindow);
    var kept := Pruned(stored, now, timeWindow);
    assert kept != [] ==> kept[0] == stored[p] && (kept + [now])[0] == stored[p];
  }

  /** What request `n` finds kept at reading `now`. */
  function Kept(t: Trace, now: Instant, timeWindow: nat): nat -> nat {
    (n: nat) => |Pruned(t.swept(n), now, timeWindow)|
  }

  /** Request `n` finds room: it is kept, also for the next one, and refused exactly beyond the limit. */
  ghost predicate Fills(kept: nat -> nat, refused: nat -> bool, n: nat, count: nat) {
    kept(n) <= MAX_COUNT ==> kept(n + 1) == kept(n) + 1 && (refused(n) <==> kept(n) + 1 > count)
  }

  /** A history that was recorded to just now is not stale. */
  lemma {:induction false} JustRecordedStays(t: Trace, n: nat, timeWindow: nat)
    requires SlotStep(t, n, timeWindow) && SlotStep(t, n + 1, timeWindow) && t.uses(n) && t.at(n + 1) == t.at(n)
    ensures t.swept(n + 1) == Observed(t.swept(n), t.at(n), timeWindow)
  {
    var events := Observed(t.swept(n), t.at(n), timeWindow);
    assert events[|events| - 1] == t.at(n);
    assert !SlidingStale(events, t.at(n));
  }

  lemma {:induction false} OwnRequestFills(hash: string -> nat, reqs: seq<Request>, n: nat, timeWindow: nat)
    requires n + 1 < |reqs| && reqs[n + 1] == reqs[n] && OneWindowAt(hash, reqs, n, timeWindow)
    ensures Fills(Kept(SlotTrace(hash, reqs, n), reqs[n].now, timeWindow), Refused(hash, reqs), n, reqs[n].count)
  {
    var t := SlotTrace(hash, reqs, n);
    RequestCounts(hash, reqs, n, timeWindow);
    RunIsTrace(hash, reqs, ShardIdx(hash, reqs[n].key), SlotOf(ShardBefore(hash, reqs, n), reqs[n]), timeWindow);
    assert SlotStep(t, n + 1, timeWindow);
    JustRecordedStays(t, n, timeWindow);
    PrunedAgain(t.swept(n), reqs[n].now, timeWindow);
  }

  /** A flood of requests at one reading: each is let through, and kept, up to the limit. */
  lemma {:induction false} FloodPasses(kept: nat -> nat, refused: nat -> bool, n: nat, m: nat, count: nat)
    requires n <= m && forall i: nat :: n <= i < m ==> Fills(kept, refused, i, count)
    requires kept(n) + m - n <= count <= MAX_COUNT
    ensures kept(m) == kept(n) + m - n
    ensures forall i: nat :: n <= i < m ==> !refused(i)
    decreases m
  {
    if m > n {
      FloodPasses(kept, refused, n, m - 1, count);
      assert Fills(kept, refused, m - 1, count);
    }
  }

  lemma {:induction false} FloodCounts(t: Trace, refused: nat -> bool, n: nat, m: nat, now: Instant, from: Instant,
                                       timeWindow: nat)
    requires n <= m && forall i: nat :: n <= i < m ==> !refused(i) && t.uses(i) && t.at(i) == now
    requires from <= now < from + timeWindow * NANOS_PER_SEC
    ensures Accepted(t, refused, m, from, timeWindow) == Accepted(t, refused, n, from, timeWindow) + m - n
    decreases m
  {
    if m > n {
      FloodCounts(t, refused, n, m - 1, now, from, timeWindow);
    }
  }

  /** The request that meets a full window is refused. */
  lemma {:induction false} LastIsRefused(hash: string -> nat, reqs: seq<Request>, m: nat, timeWindow: nat)
    requires m < |reqs| && OneWindowAt(hash, reqs, m, timeWindow)
    requires Kept(SlotTrace(hash, reqs, m), reqs[m].now, timeWindow)(m) == reqs[m].count <= MAX_COUNT
    ensures Limited(hash, reqs, m)
  {
    RequestCounts(hash, reqs, m, timeWindow);
  }

  /**
   Main result on the limit, for readings in any order: fill the window of a slot that ends at a reading with requests
   at that reading. Unless one was refused in it before, exactly as many have then passed in it as the limit, plus the
   live events in excess of those kept, less the events whose readings are ahead; and the next request is refused. So
   the limit is exceeded exactly when more live events are missing than lie ahead, and met when it comes out even.
   */
  lemma {:induction false} WindowFillsTo(hash: string -> nat, reqs: seq<Request>, n: nat, m: nat, r: Request,
                                         shard: nat, slot: string, from: Instant)
    requires n <= m && shard < LIMIT_SHARDS && Floods(TraceOf(hash, reqs, shard, slot), reqs, n, m, r)
    requires OneWindow(TraceOf(hash, reqs, shard, slot), reqs, r.timeWindow)
    requires NoneRefused(TraceOf(hash, reqs, shard, slot), Refused(hash, reqs), n, from, r.timeWindow)
    requires r.now + 1 == from + r.timeWindow * NANOS_PER_SEC
    requires Kept(TraceOf(hash, reqs, shard, slot), r.now, r.timeWindow)(n) + m - n == r.count <= MAX_COUNT
    ensures var t := TraceOf(hash, reqs, shard, slot);
            Accepted(t, Refused(hash, reqs), m, from, r.timeWindow)
            == r.count + |Live(History(t, n), r.now, r.timeWindow)| - Kept(t, r.now, r.timeWindow)(n)
               - Ahead(History(t, n), r.now)
    ensures Limited(hash, reqs, m)
  {
    var t, refused := TraceOf(hash, reqs, shard, slot), Refused(hash, reqs);
    var kept := Kept(t, r.now, r.timeWindow);
    forall i: nat | n <= i < m ensures Fills(kept, refused, i, r.count) {
      assert reqs[i] == r && reqs[i + 1] == r && t.uses(i);
      SameSlotTrace(hash, reqs, i, shard, slot);
      OwnRequestFills(hash, reqs, i, r.timeWindow);
    }
    FloodPasses(kept, refused, n, m, r.count);
    assert reqs[m] == r && t.uses(m);
    SameSlotTrace(hash, reqs, m, shard, slot);
    LastIsRefused(hash, reqs, m, r.timeWindow);
    FloodCounts(t, refused, n, m, r.now, from, r.timeWindow);
    AcceptedAreTheLive(t, refused, n, from, r.timeWindow, r.now);
  }

  // ----- what a single overtaken reading does -----

  /** The window of a key that has its shard to itself. */
  function Recorded(reqs: seq<Request>): seq<Instant> {
    if reqs == [] then []
    else Observed(Recorded(reqs[..|reqs| - 1]), reqs[|reqs| - 1].now, reqs[|reqs| - 1].timeWindow)
  }

  lemma {:induction false} OnlyKey(hash: string -> nat, reqs: seq<Request>, key: string)
    requires forall i :: 0 <= i < |reqs| ==> reqs[i].key == key
    ensures Run(hash, reqs)[ShardIdx(hash, key)] == OnlyEntry(key, Recorded(reqs))
  {
    if reqs != [] {
      OnlyKey(hash, reqs[..|reqs| - 1], key);
      OnlyKeyStep(reqs[|reqs| - 1], Recorded(reqs[..|reqs| - 1]));
    }
  }

  function OnlyEntry(key: string, events: seq<Instant>): Slots {
    if events == [] then ShardState([], map[]) else ShardState([key], map[key := events])
  }

  lemma {:induction false} OnlyKeyStep(r: Request, events: seq<Instant>)
    ensures WindowAfter(OnlyEntry(r.key, events), r) == Observed(events, r.now, r.timeWindow)
    ensures StateAfter(OnlyEntry(r.key, events), r) == OnlyEntry(r.key, Observed(events, r.now, r.timeWindow))
  {
    Limiting.OnlyKey(OnlyEntry(r.key, events), r.key, LIMIT_COUNT_OVERFLOW, StaleAt(r.now), SweepMiss.Restore,
                     Observed(events, r.now, r.timeWindow));
  }

  lemma {:induction false} OnlyKeyLimited(hash: string -> nat, reqs: seq<Request>, key: string, i: nat)
    requires forall i :: 0 <= i < |reqs| ==> reqs[i].key == key
    requires i < |reqs|
    ensures Limited(hash, reqs, i) <==> |Recorded(reqs[..i + 1])| > reqs[i].count
  {
    OnlyKey(hash, reqs[..i], key);
    assert reqs[..i + 1][..i] == reqs[..i];
  }

  /** An inversion of one tick at the window's edge: the third request is refused although only one other is live. */
  lemma {:induction false} AgreementNeedsClockOrder(hash: string -> nat, key: string)
    ensures var s := NANOS_PER_SEC;
            var reqs := [Request(key, 1, 2, 1), Request(key, 0, 2, 1), Request(key, s, 2, 1)];
            Limited(hash, reqs, 2) && |Live(EventsOf(reqs, key), s, 1)| == 2
  {
    var reqs := [Request(key, 1, 2, 1), Request(key, 0, 2, 1), Request(key, NANOS_PER_SEC, 2, 1)];
    assert reqs[..2 + 1] == reqs;
    StraddledRecords(key);
    OnlyKeyLimited(hash, reqs, key, 2);
  }

  lemma {:induction false} StraddledRecords(key: string)
    ensures var s := NANOS_PER_SEC;
            var reqs := [Request(key, 1, 2, 1), Request(key, 0, 2, 1), Request(key, s, 2, 1)];
            |Recorded(reqs)| == 3 && |Live(EventsOf(reqs, key), s, 1)| == 2
  {
    var s := NANOS_PER_SEC;
    var reqs := [Request(key, 1, 2, 1), Request(key, 0, 2, 1), Request(key, s, 2, 1)];
    var two := [Request(key, 1, 2, 1), Request(key, 0, 2, 1)];
    assert reqs[..2] == two && two[..1] == [Request(key, 1, 2, 1)];
    OneRequest(Request(key, 1, 2, 1));
    assert Recorded(two) == [1, 0] && EventsOf(two, key) == [1, 0];
    assert Recorded(reqs) == [1, 0, s] && EventsOf(reqs, key) == [1, 0, s];
    StraddledLive();
  }

  lemma {:induction false} OneRequest(r: Request)
    requires r.timeWindow > 0
    ensures Recorded([r]) == [r.now] && EventsOf([r], r.key) == [r.now]
  {
    assert [r][..0] == [];
  }

  lemma {:induction false} StraddledLive()
    ensures |Live([1, 0, NANOS_PER_SEC], NANOS_PER_SEC, 1)| == 2
  {
    var s := NANOS_PER_SEC;
    assert [1, 0, s][..2] == [1, 0] && [1, 0][..1] == [1] && [1][..0] == [];
    assert Live([1], s, 1) == [1] && Live([1, 0], s, 1) == [1];
  }

  /** An inversion of one tick after a prune: four requests pass within a window that allows three. */
  lemma {:induction false} LimitNeedsClockOrder(hash: string -> nat, key: string)
    ensures var s := NANOS_PER_SEC;
            var reqs := [Request(key, 0, 3, 1), Request(key, 0, 3, 1), Request(key, 0, 3, 1), Request(key, s, 3, 1),
                         Request(key, s - 1, 3, 1)];
            Accepted(TraceOf(hash, reqs, ShardIdx(hash, key), key), Refused(hash, reqs), 5, 0, 1) == 4
  {
    var s := NANOS_PER_SEC;
    var reqs := [Request(key, 0, 3, 1), Request(key, 0, 3, 1), Request(key, 0, 3, 1), Request(key, s, 3, 1),
                 Request(key, s - 1, 3, 1)];
    OvertakenRecords(key);
    forall i | 0 <= i < 5 ensures !Limited(hash, reqs, i) {
      OnlyKeyLimited(hash, reqs, key, i);
      assert i == 0 || i == 1 || i == 2 || i == 3 || i == 4;
    }
    forall i: nat | i < 5 ensures TraceOf(hash, reqs, ShardIdx(hash, key), key).uses(i) {
      OnlyKeyUses(hash, reqs, key, i);
    }
    FourOfFive(TraceOf(hash, reqs, ShardIdx(hash, key), key), Refused(hash, reqs));
  }

  lemma {:induction false} OnlyKeyUses(hash: string -> nat, reqs: seq<Request>, key: string, i: nat)
    requires forall i :: 0 <= i < |reqs| ==> reqs[i].key == key
    requires i < |reqs|
    ensures TraceOf(hash, reqs, ShardIdx(hash, key), key).uses(i)
  {
    OnlyKey(hash, reqs[..i], key);
    Limiting.OnlyKey(OnlyEntry(key, Recorded(reqs[..i])), key, LIMIT_COUNT_OVERFLOW, StaleAt(reqs[i].now),
                     SweepMiss.Restore, []);
  }

  lemma {:induction false} FourOfFive(t: Trace, refused: nat -> bool)
    requires forall i: nat :: i < 5 ==> t.uses(i) && !refused(i)
    requires t.at(0) == t.at(1) == t.at(2) == 0 && t.at(3) == NANOS_PER_SEC && t.at(4) == NANOS_PER_SEC - 1
    ensures Accepted(t, refused, 5, 0, 1) == 4
  {
    assert Accepted(t, refused, 1, 0, 1) == 1 && Accepted(t, refused, 2, 0, 1) == 2;
    assert Accepted(t, refused, 3, 0, 1) == 3 && Accepted(t, refused, 4, 0, 1) == 3;
  }

  lemma {:induction false} OvertakenRecords(key: string)
    ensures var s := NANOS_PER_SEC;
            var reqs := [Request(key, 0, 3, 1), Request(key, 0, 3, 1), Request(key, 0, 3, 1), Request(key, s, 3, 1),
                         Request(key, s - 1, 3, 1)];
            && Recorded(reqs[..1]) == [0] && Recorded(reqs[..2]) == [0, 0] && Recorded(reqs[..3]) == [0, 0, 0]
            && Recorded(reqs[..4]) == [s] && Recorded(reqs[..5]) == [s, s - 1]
  {
    var s := NANOS_PER_SEC;
    var reqs := [Request(key, 0, 3, 1), Request(key, 0, 3, 1), Request(key, 0, 3, 1), Request(key, s, 3, 1),
                 Request(key, s - 1, 3, 1)];
    assert forall n :: 0 < n <= 5 ==> reqs[..n][..n - 1] == reqs[..n - 1];
    assert reqs[..0] == [];
    assert Pruned([0, 0, 0], s, 1) == [];
  }
}
