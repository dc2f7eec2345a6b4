/**
 The leaky bucket of limit-req. Times are real seconds; `rate` is in requests per second.
 */
module LimitReq {
  import opened Wrappers
  import opened LimiterShards
  import opened Limiting

  /** A validated configuration: `rate > 0` and `burst >= 0`. */
  datatype RawConfig = Config(rate: real, burst: real, nodelay: bool)
  type Config = c: RawConfig | c.rate > 0.0 && c.burst >= 0.0 witness Config(1.0, 0.0, false)

  datatype BucketState = BucketState(excess: real, last: real)

  function Max(a: real, b: real): real {
    if a >= b then a else b
  }

  /** Elapsed time, zero when the clock readings are out of order. */
  function Elapsed(now: real, last: real): real {
    Max(now - last, 0.0)
  }

  /** The delay and the new excess when the request may proceed. */
  function LeakyBucketStep(oldExcess: real, elapsed: real, cfg: Config): Option<(real, real)> {
    var excess := Max(oldExcess - elapsed * cfg.rate + 1.0, 0.0);
    if excess > cfg.burst then None else Some((excess / cfg.rate, excess))
  }

  function Incoming(b: BucketState, now: real, cfg: Config): (BucketState, Option<real>) {
    match LeakyBucketStep(b.excess, Elapsed(now, b.last), cfg)
    case Some((delay, excess)) => (BucketState(excess, now), Some(delay))
    case None => (b, None)
  }

  class Bucket {
    var excess: real
    var last: real

    ghost function State(): BucketState
      reads this
    {
      BucketState(excess, last)
    }

    constructor (b: BucketState)
      ensures State() == b
    {
      excess, last := b.excess, b.last;
    }

    /** Applies one request; only an accepted one moves the drain anchor. */
    method BucketIncoming(now: real, cfg: Config) returns (delay: Option<real>)
      modifies this
      ensures (State(), delay) == Incoming(old(State()), now, cfg)
    {
      match LeakyBucketStep(excess, Elapsed(now, last), cfg) {
        case Some((d, newExcess)) =>
          last := now;
          excess := newExcess;
          delay := Some(d);
        case None =>
          delay := None;
      }
    }
  }

  predicate Drained(b: BucketState, now: real, rate: real) {
    Elapsed(now, b.last) * rate >= b.excess
  }

  function DrainedAt(now: real, rate: real): BucketState -> bool {
    b => Drained(b, now, rate)
  }

  type Slots = ShardState<string, BucketState>

  function SlotOf(st: Slots, key: string, now: real, cfg: Config): string {
    Admit(st, key, LIMIT_REQ_OVERFLOW, DrainedAt(now, cfg.rate), SweepMiss.Restore).1
  }

  /** The bucket of the slot `key` is admitted to, and the delay if the request may proceed. */
  function Outcome(st: Slots, key: string, now: real, cfg: Config): (BucketState, Option<real>) {
    var (admitted, slot) := Admit(st, key, LIMIT_REQ_OVERFLOW, DrainedAt(now, cfg.rate), SweepMiss.Restore);
    Serve(Lookup(admitted, slot), now, cfg)
  }

  /** The first request of a bucket creates it and passes. */
  function Serve(cell: Option<BucketState>, now: real, cfg: Config): (BucketState, Option<real>) {
    match cell
    case Some(b) => Incoming(b, now, cfg)
    case None => (BucketState(0.0, now), Some(0.0))
  }

  function StateAfter(st: Slots, key: string, now: real, cfg: Config): Slots {
    AdmitInsert(st, key, LIMIT_REQ_OVERFLOW, DrainedAt(now, cfg.rate), SweepMiss.Restore, Outcome(st, key, now, cfg).0)
  }

  /** One request against its shard; `slept` is how long it is held back. */
  method RequestFilter(shard: Shard<string, BucketState>, key: string, now: real, cfg: Config)
    returns (rejected: bool, slept: real)
    requires shard.Valid()
    modifies shard, shard.touchOrder
    ensures shard.Valid() && shard.State() == StateAfter(old(shard.State()), key, now, cfg)
    ensures rejected == Outcome(old(shard.State()), key, now, cfg).1.None?
    ensures slept == if rejected || cfg.nodelay then 0.0 else Outcome(old(shard.State()), key, now, cfg).1.value
  {
    var slot := shard.AdmitKey(key, LIMIT_REQ_OVERFLOW, DrainedAt(now, cfg.rate), SweepMiss.Restore);
    var delay;
    if slot in shard.entries {
      var bucket := new Bucket(shard.entries[slot]);
      delay := bucket.BucketIncoming(now, cfg);
      shard.Insert(slot, BucketState(bucket.excess, bucket.last));
    } else {
      shard.Insert(slot, BucketState(0.0, now));
      delay := Some(0.0);
    }
    rejected := delay.None?;
    slept := 0.0;
    if delay.Some? && !cfg.nodelay {
      DelayNonNegative(old(shard.State()), key, now, cfg);
      if delay.value > 0.0 {
        slept := delay.value;
      }
    }
  }

  lemma {:induction false} DelayNonNegative(st: Slots, key: string, now: real, cfg: Config)
    ensures var d := Outcome(st, key, now, cfg).1; d.Some? ==> d.value >= 0.0
  {
    var (admitted, slot) := Admit(st, key, LIMIT_REQ_OVERFLOW, DrainedAt(now, cfg.rate), SweepMiss.Restore);
    if slot in admitted.entries {
      IncomingDelays(admitted.entries[slot], now, cfg);
    }
  }

  lemma {:induction false} IncomingDelays(b: BucketState, now: real, cfg: Config)
    ensures Incoming(b, now, cfg).1.Some? ==> Incoming(b, now, cfg).1.value >= 0.0
  {
  }

  // ----- one step, in virtual units -----

  /** The level the bucket has reached, on the scale of the drain line `rate * t`. */
  function Level(b: BucketState, rate: real): real {
    rate * b.last + b.excess
  }

  /**
   The step is virtual scheduling: a request is accepted exactly when its level is at most `burst` above the line at
   its reading or at the drain anchor, whichever is later. An accepted one raises the level by one, or to the line if
   that is higher. A reading behind the anchor takes the anchor and with it the level back.
   */
  lemma {:induction false} StepIsVirtualScheduling(b: BucketState, now: real, cfg: Config)
    requires b.excess >= 0.0
    ensures var (b', delay) := Incoming(b, now, cfg);
            && (delay.Some? <==> Level(b, cfg.rate) + 1.0 <= cfg.rate * Max(now, b.last) + cfg.burst)
            && (delay.Some? ==>
                  && b'.last == now
                  && Level(b', cfg.rate) == (if b.last <= now then Max(Level(b, cfg.rate) + 1.0, cfg.rate * now)
                                             else Level(b, cfg.rate) + 1.0 - (cfg.rate * b.last - cfg.rate * now))
                  && 0.0 <= b'.excess <= cfg.burst
                  && cfg.rate * (now + delay.value) == Level(b', cfg.rate))
            && (delay.None? ==> b' == b)
  {
    assert b.last <= now ==> Elapsed(now, b.last) * cfg.rate == cfg.rate * now - cfg.rate * b.last;
    var (b', delay) := Incoming(b, now, cfg);
    if delay.Some? {
      assert cfg.rate * (b'.excess / cfg.rate) == b'.excess;
    }
  }

  lemma {:induction false} ServeReachesLevel(cell: Option<BucketState>, now: real, cfg: Config)
    requires cell.Some? ==> cell.value.excess >= 0.0
    ensures var o := Serve(cell, now, cfg);
            o.1.Some? ==> cfg.rate * (now + o.1.value) == Level(o.0, cfg.rate)
  {
    if cell.Some? {
      StepIsVirtualScheduling(cell.value, now, cfg);
    }
  }

  /**
   How long a request is held back, in whatever slot and whether or not it creates the bucket: until the drain line has
   risen to the level it leaves behind.
   */
  lemma {:induction false} DelayReachesLevel(st: Slots, key: string, now: real, cfg: Config)
    requires forall k :: k in st.entries ==> st.entries[k].excess >= 0.0
    ensures var o := Outcome(st, key, now, cfg);
            o.1.Some? ==> cfg.rate * (now + o.1.value) == Level(o.0, cfg.rate)
  {
    var (admitted, slot) := Admit(st, key, LIMIT_REQ_OVERFLOW, DrainedAt(now, cfg.rate), SweepMiss.Restore);
    SweepSound(st, DrainedAt(now, cfg.rate), SweepMiss.Restore, CLEANUP_BUDGET, slot);
    ServeReachesLevel(Lookup(admitted, slot), now, cfg);
  }

  // ----- the lifetime of one bucket -----

  type Transition = (BucketState, real) -> (BucketState, Option<real>)

  function StepUnder(cfg: Config): Transition {
    (b, now) => Incoming(b, now, cfg)
  }

  /** The bucket after a nonempty sequence of arrivals; the first one creates it. */
  function BucketAfter(arrivals: seq<real>, step: Transition): BucketState
    requires arrivals != []
  {
    if |arrivals| == 1 then BucketState(0.0, arrivals[0])
    else step(BucketAfter(arrivals[..|arrivals| - 1], step), arrivals[|arrivals| - 1]).0
  }

  /** The delay of arrival `i`, if it passes. */
  function DelayOf(arrivals: seq<real>, i: nat, step: Transition): Option<real>
    requires i < |arrivals|
  {
    if i == 0 then Some(0.0) else step(BucketAfter(arrivals[..i], step), arrivals[i]).1
  }

  predicate Passes(arrivals: seq<real>, i: nat, step: Transition)
    requires i < |arrivals|
  {
    DelayOf(arrivals, i, step).Some?
  }

  /** How many arrivals in [i, j) pass. */
  function PassedCount(arrivals: seq<real>, i: nat, j: nat, step: Transition): nat
    requires i <= j <= |arrivals|
  {
    if i == j then 0
    else PassedCount(arrivals, i, j - 1, step) + if Passes(arrivals, j - 1, step) then 1 else 0
  }

  /** When arrival `i` leaves: its arrival plus its delay. */
  function Departure(arrivals: seq<real>, i: nat, step: Transition): real
    requires i < |arrivals| && Passes(arrivals, i, step)
  {
    arrivals[i] + DelayOf(arrivals, i, step).value
  }

  /** The drain anchor arrival `n` finds: the reading of the last passed arrival before it. */
  function Anchor(arrivals: seq<real>, n: nat, step: Transition): real
    requires 0 < n <= |arrivals|
  {
    BucketAfter(arrivals[..n], step).last
  }

  /** `step` is virtual scheduling against the drain line `line`, with `level` as the virtual clock. */
  ghost predicate Schedules(step: Transition, line: real -> real, level: BucketState -> real, burst: real) {
    && burst >= 0.0
    && (forall t :: level(BucketState(0.0, t)) == line(t))
    && (forall x, y :: x < y ==> line(x) < line(y))
    && (forall b: BucketState, now: real {:trigger step(b, now)} ::
          level(b) >= line(b.last) ==> OneStepSchedules(b, now, step(b, now), line, level, burst))
  }

  ghost predicate OneStepSchedules(b: BucketState, now: real, outcome: (BucketState, Option<real>),
                                   line: real -> real, level: BucketState -> real, burst: real) {
    && (outcome.1.Some? <==> level(b) + 1.0 <= line(Max(now, b.last)) + burst)
    && (if outcome.1.Some? then Moves(b, now, outcome.0, outcome.1.value, line, level) else outcome.0 == b)
  }

  ghost predicate Moves(b: BucketState, now: real, b': BucketState, delay: real, line: real -> real,
                        level: BucketState -> real) {
    && b'.last == now && line(now + delay) == level(b') && level(b') >= line(now)
    && level(b') == (if b.last <= now then Max(level(b) + 1.0, line(now))
                     else level(b) + 1.0 - (line(b.last) - line(now)))
  }

  function DrainLine(rate: real): real -> real {
    t => rate * t
  }

  function LevelUnder(rate: real): BucketState -> real {
    b => Level(b, rate)
  }

  lemma {:induction false} LeakyBucketSchedules(cfg: Config)
    ensures Schedules(StepUnder(cfg), DrainLine(cfg.rate), LevelUnder(cfg.rate), cfg.burst)
  {
    LineAscends(cfg);
    LeakyStepsSchedule(cfg);
  }

  lemma {:induction false} LineAscends(cfg: Config)
    ensures forall x, y :: x < y ==> DrainLine(cfg.rate)(x) < DrainLine(cfg.rate)(y)
  {
    forall x, y | x < y ensures DrainLine(cfg.rate)(x) < DrainLine(cfg.rate)(y) {
      LineRises(cfg.rate, x, y);
    }
  }

  lemma {:induction false} LeakyStepsSchedule(cfg: Config)
    ensures var step, line, level := StepUnder(cfg), DrainLine(cfg.rate), LevelUnder(cfg.rate);
            forall b: BucketState, now: real {:trigger step(b, now)} ::
              level(b) >= line(b.last) ==> OneStepSchedules(b, now, step(b, now), line, level, cfg.burst)
  {
    var step, line, level := StepUnder(cfg), DrainLine(cfg.rate), LevelUnder(cfg.rate);
    forall b: BucketState, now: real | level(b) >= line(b.last)
      ensures OneStepSchedules(b, now, step(b, now), line, level, cfg.burst)
    {
      LeakyStepSchedules(b, now, cfg);
    }
  }

  lemma {:induction false} LeakyStepSchedules(b: BucketState, now: real, cfg: Config)
    requires LevelUnder(cfg.rate)(b) >= DrainLine(cfg.rate)(b.last)
    ensures OneStepSchedules(b, now, StepUnder(cfg)(b, now), DrainLine(cfg.rate), LevelUnder(cfg.rate), cfg.burst)
  {
    LeakyStepDecides(b, now, cfg);
    if Incoming(b, now, cfg).1.Some? {
      LeakyStepMoves(b, now, cfg);
    }
  }

  lemma {:induction false} LeakyStepDecides(b: BucketState, now: real, cfg: Config)
    requires LevelUnder(cfg.rate)(b) >= DrainLine(cfg.rate)(b.last)
    ensures b.excess >= 0.0
    ensures Incoming(b, now, cfg).1.Some? <==>
            LevelUnder(cfg.rate)(b) + 1.0 <= DrainLine(cfg.rate)(Max(now, b.last)) + cfg.burst
    ensures Incoming(b, now, cfg).1.None? ==> Incoming(b, now, cfg).0 == b
  {
    assert b.excess >= 0.0;
    StepIsVirtualScheduling(b, now, cfg);
  }

  lemma {:induction false} LeakyStepMoves(b: BucketState, now: real, cfg: Config)
    requires b.excess >= 0.0 && Incoming(b, now, cfg).1.Some?
    ensures Moves(b, now, Incoming(b, now, cfg).0, Incoming(b, now, cfg).1.value, DrainLine(cfg.rate),
                  LevelUnder(cfg.rate))
  {
    var line, level, o := DrainLine(cfg.rate), LevelUnder(cfg.rate), Incoming(b, now, cfg);
    StepIsVirtualScheduling(b, now, cfg);
    assert line(now + o.1.value) == level(o.0);
    assert level(o.0) == line(now) + o.0.excess;
  }

  lemma {:induction false} LineRises(rate: real, x: real, y: real)
    requires rate > 0.0 && x < y
    ensures rate * x < rate * y
  {
  }

  ghost function LevelAt(arrivals: seq<real>, n: nat, step: Transition, level: BucketState -> real): real
    requires 0 < n <= |arrivals|
  {
    level(BucketAfter(arrivals[..n], step))
  }

  /** How far arrival `n` takes the level back, should it pass with a reading behind the anchor. */
  ghost function Setback(arrivals: seq<real>, n: nat, step: Transition, line: real -> real): real
    requires n < |arrivals|
  {
    if n > 0 && Passes(arrivals, n, step) && arrivals[n] < Anchor(arrivals, n, step)
    then line(Anchor(arrivals, n, step)) - line(arrivals[n]) else 0.0
  }

  /** The same for all arrivals in [i, j). */
  ghost function Setbacks(arrivals: seq<real>, i: nat, j: nat, step: Transition, line: real -> real): real
    requires i <= j <= |arrivals|
  {
    if i == j then 0.0 else Setbacks(arrivals, i, j - 1, step, line) + Setback(arrivals, j - 1, step, line)
  }

  /** Arrival `n` takes the bucket one step on. */
  lemma {:induction false} NextBucket(arrivals: seq<real>, n: nat, step: Transition)
    requires 0 < n < |arrivals|
    ensures BucketAfter(arrivals[..n + 1], step) == step(BucketAfter(arrivals[..n], step), arrivals[n]).0
    ensures DelayOf(arrivals, n, step) == step(BucketAfter(arrivals[..n], step), arrivals[n]).1
  {
    var before := arrivals[..n + 1];
    assert before[..n] == arrivals[..n] && before[n] == arrivals[n];
  }

  lemma {:induction false} LevelAboveAnchor(arrivals: seq<real>, n: nat, step: Transition, line: real -> real,
                                            level: BucketState -> real, burst: real)
    requires 0 < n <= |arrivals| && Schedules(step, line, level, burst)
    ensures LevelAt(arrivals, n, step, level) >= line(Anchor(arrivals, n, step))
    ensures n == 1 ==>
              LevelAt(arrivals, n, step, level) == line(arrivals[0]) && Anchor(arrivals, n, step) == arrivals[0]
  {
    if n == 1 {
      assert arrivals[..1] == [arrivals[0]];
    } else {
      LevelAboveAnchor(arrivals, n - 1, step, line, level, burst);
      NextBucket(arrivals, n - 1, step);
      var b := BucketAfter(arrivals[..n - 1], step);
      assert OneStepSchedules(b, arrivals[n - 1], step(b, arrivals[n - 1]), line, level, burst);
    }
  }

  /** One arrival, in terms of the run: whether it passes, and where it leaves the anchor and the level. */
  lemma {:induction false} ArrivalStep(arrivals: seq<real>, n: nat, step: Transition, line: real -> real,
                                       level: BucketState -> real, burst: real)
    requires n < |arrivals| && Schedules(step, line, level, burst)
    ensures Anchor(arrivals, n + 1, step)
            == if Passes(arrivals, n, step) then arrivals[n] else Anchor(arrivals, n, step)
    ensures n == 0 ==> LevelAt(arrivals, 1, step, level) == line(arrivals[0])
    ensures n > 0 ==>
              && (Passes(arrivals, n, step) <==>
                  LevelAt(arrivals, n, step, level) + 1.0
                  <= line(Max(arrivals[n], Anchor(arrivals, n, step))) + burst)
              && LevelAt(arrivals, n + 1, step, level)
                 == (if !Passes(arrivals, n, step) then LevelAt(arrivals, n, step, level)
                     else if Anchor(arrivals, n, step) <= arrivals[n]
                     then Max(LevelAt(arrivals, n, step, level) + 1.0, line(arrivals[n]))
                     else LevelAt(arrivals, n, step, level) + 1.0 - Setback(arrivals, n, step, line))
    ensures Passes(arrivals, n, step) ==> line(Departure(arrivals, n, step)) == LevelAt(arrivals, n + 1, step, level)
  {
    if n == 0 {
      LevelAboveAnchor(arrivals, 1, step, line, level, burst);
    } else {
      NextStepSchedules(arrivals, n, step, line, level, burst);
      NextBucket(arrivals, n, step);
    }
  }

  lemma {:induction false} NextStepSchedules(arrivals: seq<real>, n: nat, step: Transition, line: real -> real,
                                             level: BucketState -> real, burst: real)
    requires 0 < n < |arrivals| && Schedules(step, line, level, burst)
    ensures var b := BucketAfter(arrivals[..n], step);
            OneStepSchedules(b, arrivals[n], step(b, arrivals[n]), line, level, burst)
  {
    LevelAboveAnchor(arrivals, n, step, line, level, burst);
  }

  // ----- exactly what passes, whatever the order of the readings -----

  /** Between two points of a run the level rises by at least the number of passes, less the setbacks. */
  lemma {:induction false} LevelRises(arrivals: seq<real>, i: nat, j: nat, step: Transition, line: real -> real,
                                      level: BucketState -> real, burst: real)
    requires 0 < i <= j <= |arrivals| && Schedules(step, line, level, burst)
    ensures LevelAt(arrivals, j, step, level)
            >= LevelAt(arrivals, i, step, level) + PassedCount(arrivals, i, j, step) as real
               - Setbacks(arrivals, i, j, step, line)
  {
    if i < j {
      LevelRises(arrivals, i, j - 1, step, line, level, burst);
      ArrivalStep(arrivals, j - 1, step, line, level, burst);
    }
  }

  /** The level is attained by a passed arrival plus the passes since, less the setbacks. */
  lemma {:induction false} LevelAttained(arrivals: seq<real>, n: nat, step: Transition, line: real -> real,
                                         level: BucketState -> real, burst: real) returns (w: nat)
    requires 0 < n <= |arrivals| && Schedules(step, line, level, burst)
    ensures w < n && Passes(arrivals, w, step)
    ensures LevelAt(arrivals, n, step, level)
            == line(arrivals[w]) + PassedCount(arrivals, w + 1, n, step) as real
               - Setbacks(arrivals, w + 1, n, step, line)
  {
    LevelAboveAnchor(arrivals, 1, step, line, level, burst);
    forall k: nat | 0 < k < n ensures LevelGoesOn(arrivals, k, step, line, level) {
      LevelSteps(arrivals, k, step, line, level, burst);
    }
    w := LevelTraced(arrivals, n, step, line, level);
  }

  /** Arrival `n` lifts the level to the line, or moves it by its pass and its setback. */
  ghost predicate LevelGoesOn(arrivals: seq<real>, n: nat, step: Transition, line: real -> real,
                              level: BucketState -> real)
    requires 0 < n < |arrivals|
  {
    LevelAt(arrivals, n + 1, step, level)
    == if LiftsToLine(arrivals, n, step, line, level) then line(arrivals[n])
       else LevelAt(arrivals, n, step, level) + (if Passes(arrivals, n, step) then 1.0 else 0.0)
            - Setback(arrivals, n, step, line)
  }

  lemma {:induction false} LevelSteps(arrivals: seq<real>, n: nat, step: Transition, line: real -> real,
                                      level: BucketState -> real, burst: real)
    requires 0 < n < |arrivals| && Schedules(step, line, level, burst)
    ensures LevelGoesOn(arrivals, n, step, line, level)
  {
    ArrivalStep(arrivals, n, step, line, level, burst);
  }

  lemma {:induction false} LevelTraced(arrivals: seq<real>, n: nat, step: Transition, line: real -> real,
                                       level: BucketState -> real) returns (w: nat)
    requires 0 < n <= |arrivals| && LevelAt(arrivals, 1, step, level) == line(arrivals[0])
    requires forall k: nat :: 0 < k < n ==> LevelGoesOn(arrivals, k, step, line, level)
    ensures w < n && Passes(arrivals, w, step)
    ensures LevelAt(arrivals, n, step, level)
            == line(arrivals[w]) + PassedCount(arrivals, w + 1, n, step) as real
               - Setbacks(arrivals, w + 1, n, step, line)
  {
    if n == 1 {
      w := 0;
    } else {
      assert LevelGoesOn(arrivals, n - 1, step, line, level);
      if LiftsToLine(arrivals, n - 1, step, line, level) {
        w := n - 1;
      } else {
        w := LevelTraced(arrivals, n - 1, step, line, level);
      }
    }
  }

  /** Arrival `n` finds the bucket drained and lifts the level to the drain line. */
  ghost predicate LiftsToLine(arrivals: seq<real>, n: nat, step: Transition, line: real -> real,
                              level: BucketState -> real)
    requires 0 < n < |arrivals|
  {
    && Passes(arrivals, n, step) && Anchor(arrivals, n, step) <= arrivals[n]
    && LevelAt(arrivals, n, step, level) + 1.0 < line(arrivals[n])
  }

  lemma {:induction false} CountFromPassed(arrivals: seq<real>, i: nat, j: nat, step: Transition)
    requires i < j <= |arrivals| && Passes(arrivals, i, step)
    ensures PassedCount(arrivals, i, j, step) == 1 + PassedCount(arrivals, i + 1, j, step)
  {
    if i + 1 < j {
      CountFromPassed(arrivals, i, j - 1, step);
    }
  }

  /**
   Letting arrival `j` pass respects the envelope that starts at arrival `i`, on a clock that jumps forward by every
   setback since and does not run behind the anchor.
   */
  ghost predicate ConformsCorrected(arrivals: seq<real>, i: nat, j: nat, step: Transition, line: real -> real,
                                    burst: real)
    requires i < j < |arrivals|
  {
    (PassedCount(arrivals, i, j, step) + 1) as real
    <= line(Max(arrivals[j], Anchor(arrivals, j, step))) - line(arrivals[i]) + Setbacks(arrivals, i + 1, j, step, line)
       + burst + 1.0
  }

  /**
   Main result, for readings in any order: an arrival passes exactly when, counting it, no earlier passed arrival has
   seen more than `rate * elapsed + burst + 1` passes since, with the elapsed time taken on the corrected clock.
   */
  lemma {:induction false} PassesIffConforms(arrivals: seq<real>, j: nat, cfg: Config)
    requires 0 < j < |arrivals|
    ensures var step, line := StepUnder(cfg), DrainLine(cfg.rate);
            Passes(arrivals, j, step) <==>
            forall i :: 0 <= i < j && Passes(arrivals, i, step) ==>
                          ConformsCorrected(arrivals, i, j, step, line, cfg.burst)
  {
    LeakyBucketSchedules(cfg);
    SchedulingIsExact(arrivals, j, StepUnder(cfg), DrainLine(cfg.rate), LevelUnder(cfg.rate), cfg.burst);
  }

  lemma {:induction false} SchedulingIsExact(arrivals: seq<real>, j: nat, step: Transition, line: real -> real,
                                             level: BucketState -> real, burst: real)
    requires 0 < j < |arrivals| && Schedules(step, line, level, burst)
    ensures Passes(arrivals, j, step) <==>
            forall i :: 0 <= i < j && Passes(arrivals, i, step) ==>
                          ConformsCorrected(arrivals, i, j, step, line, burst)
  {
    ArrivalStep(arrivals, j, step, line, level, burst);
    if Passes(arrivals, j, step) {
      forall i | 0 <= i < j && Passes(arrivals, i, step)
        ensures ConformsCorrected(arrivals, i, j, step, line, burst)
      {
        LevelAfterPass(arrivals, i, step, line, level, burst);
        LevelRises(arrivals, i + 1, j, step, line, level, burst);
        CountFromPassed(arrivals, i, j, step);
      }
    } else {
      var w := LevelAttained(arrivals, j, step, line, level, burst);
      CountFromPassed(arrivals, w, j, step);
      assert !ConformsCorrected(arrivals, w, j, step, line, burst);
    }
  }

  lemma {:induction false} LevelAfterPass(arrivals: seq<real>, i: nat, step: Transition, line: real -> real,
                                          level: BucketState -> real, burst: real)
    requires i < |arrivals| && Schedules(step, line, level, burst) && Passes(arrivals, i, step)
    ensures LevelAt(arrivals, i + 1, step, level) >= line(arrivals[i])
  {
    ArrivalStep(arrivals, i, step, line, level, burst);
    LevelAboveAnchor(arrivals, i + 1, step, line, level, burst);
  }

  // ----- readings of passed arrivals in clock order -----

  ghost predicate PassedAscend(arrivals: seq<real>, step: Transition) {
    forall i, j :: 0 <= i < j < |arrivals| && Passes(arrivals, i, step) && Passes(arrivals, j, step) ==>
                     arrivals[i] <= arrivals[j]
  }

  /** The anchor is the reading of a passed arrival with no pass since. */
  lemma {:induction false} AnchorIsPassed(arrivals: seq<real>, n: nat, step: Transition, line: real -> real,
                                          level: BucketState -> real, burst: real) returns (p: nat)
    requires 0 < n <= |arrivals| && Schedules(step, line, level, burst)
    ensures p < n && Passes(arrivals, p, step) && arrivals[p] == Anchor(arrivals, n, step)
    ensures PassedCount(arrivals, p + 1, n, step) == 0
    ensures LevelAt(arrivals, p + 1, step, level) == LevelAt(arrivals, n, step, level)
  {
    ArrivalStep(arrivals, n - 1, step, line, level, burst);
    if Passes(arrivals, n - 1, step) {
      p := n - 1;
    } else {
      p := AnchorIsPassed(arrivals, n - 1, step, line, level, burst);
    }
  }

  lemma {:induction false} NonePassed(arrivals: seq<real>, i: nat, j: nat, step: Transition, k: nat)
    requires i <= k < j <= |arrivals| && PassedCount(arrivals, i, j, step) == 0
    ensures !Passes(arrivals, k, step)
  {
    if k < j - 1 {
      NonePassed(arrivals, i, j - 1, step, k);
    }
  }

  /** Passed readings ascend exactly when no passed arrival is behind the anchor it finds. */
  lemma {:induction false} AscendIffNotBehindAnchor(arrivals: seq<real>, step: Transition, line: real -> real,
                                                    level: BucketState -> real, burst: real)
    requires Schedules(step, line, level, burst)
    ensures PassedAscend(arrivals, step) <==>
            forall n :: 0 < n < |arrivals| && Passes(arrivals, n, step) ==> Anchor(arrivals, n, step) <= arrivals[n]
  {
    forall n | 0 < n < |arrivals| && Passes(arrivals, n, step) && PassedAscend(arrivals, step)
      ensures Anchor(arrivals, n, step) <= arrivals[n]
    {
      var p := AnchorIsPassed(arrivals, n, step, line, level, burst);
    }
    if forall n :: 0 < n < |arrivals| && Passes(arrivals, n, step) ==> Anchor(arrivals, n, step) <= arrivals[n] {
      forall i, j | 0 <= i < j < |arrivals| && Passes(arrivals, i, step) && Passes(arrivals, j, step)
        ensures arrivals[i] <= arrivals[j]
      {
        AnchorCovers(arrivals, i, j, step, line, level, burst);
      }
    }
  }

  lemma {:induction false} AnchorCovers(arrivals: seq<real>, i: nat, j: nat, step: Transition, line: real -> real,
                                        level: BucketState -> real, burst: real)
    requires i < j < |arrivals| && Schedules(step, line, level, burst) && Passes(arrivals, i, step)
    requires forall n :: 0 < n < j && Passes(arrivals, n, step) ==> Anchor(arrivals, n, step) <= arrivals[n]
    ensures arrivals[i] <= Anchor(arrivals, j, step)
  {
    ArrivalStep(arrivals, j - 1, step, line, level, burst);
    if i < j - 1 {
      AnchorCovers(arrivals, i, j - 1, step, line, level, burst);
    }
  }

  // ----- departures -----

  /**
   Two consecutive departures are at least 1/rate apart exactly when the readings are in order; otherwise they are
   closer by exactly the inversion.
   */
  lemma {:induction false} ConsecutiveDepartures(arrivals: seq<real>, i: nat, j: nat, cfg: Config)
    requires i < j < |arrivals| && Passes(arrivals, i, StepUnder(cfg)) && Passes(arrivals, j, StepUnder(cfg))
    requires PassedCount(arrivals, i + 1, j, StepUnder(cfg)) == 0
    ensures var gap := Departure(arrivals, j, StepUnder(cfg)) - Departure(arrivals, i, StepUnder(cfg));
            && (gap >= 1.0 / cfg.rate <==> arrivals[i] <= arrivals[j])
            && (arrivals[j] < arrivals[i] ==> gap == 1.0 / cfg.rate - (arrivals[i] - arrivals[j]))
  {
    ConsecutiveUnder(arrivals, i, j, cfg);
    Gap(Departure(arrivals, i, StepUnder(cfg)), Departure(arrivals, j, StepUnder(cfg)), cfg.rate,
        arrivals[i], arrivals[j]);
  }

  lemma {:induction false} ConsecutiveUnder(arrivals: seq<real>, i: nat, j: nat, cfg: Config)
    requires i < j < |arrivals| && Passes(arrivals, i, StepUnder(cfg)) && Passes(arrivals, j, StepUnder(cfg))
    requires PassedCount(arrivals, i + 1, j, StepUnder(cfg)) == 0
    ensures var line := DrainLine(cfg.rate);
            RisesBetween(line(Departure(arrivals, i, StepUnder(cfg))), line(Departure(arrivals, j, StepUnder(cfg))),
                         arrivals[i], arrivals[j], line)
  {
    LeakyBucketSchedules(cfg);
    ConsecutiveLevels(arrivals, i, j, StepUnder(cfg), DrainLine(cfg.rate), LevelUnder(cfg.rate), cfg.burst);
  }

  /** From level `x` to level `y` in one pass, at reading `t` and then `u`. */
  predicate RisesBetween(x: real, y: real, t: real, u: real, line: real -> real) {
    if t <= u then y - x >= 1.0 else y - x == 1.0 - (line(t) - line(u))
  }

  lemma {:induction false} ConsecutiveLevels(arrivals: seq<real>, i: nat, j: nat, step: Transition, line: real -> real,
                                             level: BucketState -> real, burst: real)
    requires i < j < |arrivals| && Schedules(step, line, level, burst)
    requires Passes(arrivals, i, step) && Passes(arrivals, j, step) && PassedCount(arrivals, i + 1, j, step) == 0
    ensures RisesBetween(line(Departure(arrivals, i, step)), line(Departure(arrivals, j, step)),
                         arrivals[i], arrivals[j], line)
  {
    ArrivalStep(arrivals, i, step, line, level, burst);
    ArrivalStep(arrivals, j, step, line, level, burst);
    var p := AnchorIsPassed(arrivals, j, step, line, level, burst);
    if p > i {
      NonePassed(arrivals, i + 1, j, step, p);
    } else if p < i {
      NonePassed(arrivals, p + 1, j, step, i);
    }
  }

  lemma {:induction false} Gap(x: real, y: real, rate: real, t: real, u: real)
    requires rate > 0.0 && RisesBetween(DrainLine(rate)(x), DrainLine(rate)(y), t, u, DrainLine(rate))
    ensures y - x >= 1.0 / rate <==> t <= u
    ensures u < t ==> y - x == 1.0 / rate - (t - u)
  {
    Spaced(x, y, rate);
    if u < t {
      var gap := y - x - (1.0 / rate - (t - u));
      assert rate * (1.0 / rate) == 1.0;
      assert rate * gap == (rate * y - rate * x) - 1.0 + (rate * t - rate * u);
      assert gap == 0.0;
    }
  }

  lemma {:induction false} Spaced(x: real, y: real, rate: real)
    requires rate > 0.0
    ensures y - x >= 1.0 / rate <==> DrainLine(rate)(y) - DrainLine(rate)(x) >= 1.0
  {
    assert rate * (1.0 / rate) == 1.0;
    assert rate * (y - x) == rate * y - rate * x;
  }

  /** All departures are at least 1/rate apart, whatever was rejected in between. */
  ghost predicate AllSpaced(arrivals: seq<real>, cfg: Config) {
    forall i, j :: 0 <= i < j < |arrivals| && Passes(arrivals, i, StepUnder(cfg)) && Passes(arrivals, j, StepUnder(cfg))
                   ==> Departure(arrivals, j, StepUnder(cfg)) - Departure(arrivals, i, StepUnder(cfg)) >= 1.0 / cfg.rate
  }

  ghost predicate AllLevelsSpaced(arrivals: seq<real>, step: Transition, line: real -> real) {
    forall i, j :: 0 <= i < j < |arrivals| && Passes(arrivals, i, step) && Passes(arrivals, j, step) ==>
                     line(Departure(arrivals, j, step)) - line(Departure(arrivals, i, step)) >= 1.0
  }

  /** Main result on spacing: all departures are spaced exactly when the readings of the passed arrivals ascend. */
  lemma {:induction false} DeparturesAreSpaced(arrivals: seq<real>, cfg: Config)
    ensures AllSpaced(arrivals, cfg) <==> PassedAscend(arrivals, StepUnder(cfg))
  {
    LevelsSpacedUnder(arrivals, cfg);
    forall i, j | 0 <= i < j < |arrivals| && Passes(arrivals, i, StepUnder(cfg)) && Passes(arrivals, j, StepUnder(cfg))
      ensures Departure(arrivals, j, StepUnder(cfg)) - Departure(arrivals, i, StepUnder(cfg)) >= 1.0 / cfg.rate
              <==> DrainLine(cfg.rate)(Departure(arrivals, j, StepUnder(cfg)))
                   - DrainLine(cfg.rate)(Departure(arrivals, i, StepUnder(cfg))) >= 1.0
    {
      Spaced(Departure(arrivals, i, StepUnder(cfg)), Departure(arrivals, j, StepUnder(cfg)), cfg.rate);
    }
  }

  lemma {:induction false} LevelsSpacedUnder(arrivals: seq<real>, cfg: Config)
    ensures AllLevelsSpaced(arrivals, StepUnder(cfg), DrainLine(cfg.rate)) <==> PassedAscend(arrivals, StepUnder(cfg))
  {
    LeakyBucketSchedules(cfg);
    LevelsAreSpaced(arrivals, StepUnder(cfg), DrainLine(cfg.rate), LevelUnder(cfg.rate), cfg.burst);
  }

  lemma {:induction false} LevelsAreSpaced(arrivals: seq<real>, step: Transition, line: real -> real,
                                           level: BucketState -> real, burst: real)
    requires Schedules(step, line, level, burst)
    ensures AllLevelsSpaced(arrivals, step, line) <==> PassedAscend(arrivals, step)
  {
    if PassedAscend(arrivals, step) {
      forall i, j | 0 <= i < j < |arrivals| && Passes(arrivals, i, step) && Passes(arrivals, j, step)
        ensures line(Departure(arrivals, j, step)) - line(Departure(arrivals, i, step)) >= 1.0
      {
        SpacedFrom(arrivals, i, j, step, line, level, burst);
      }
    }
    if AllLevelsSpaced(arrivals, step, line) {
      AscendIffNotBehindAnchor(arrivals, step, line, level, burst);
      forall n | 0 < n < |arrivals| && Passes(arrivals, n, step) ensures Anchor(arrivals, n, step) <= arrivals[n] {
        var p := AnchorIsPassed(arrivals, n, step, line, level, burst);
        ConsecutiveLevels(arrivals, p, n, step, line, level, burst);
      }
    }
  }

  lemma {:induction false} SpacedFrom(arrivals: seq<real>, i: nat, j: nat, step: Transition, line: real -> real,
                                      level: BucketState -> real, burst: real)
    requires i < j < |arrivals| && PassedAscend(arrivals, step) && Schedules(step, line, level, burst)
    requires Passes(arrivals, i, step) && Passes(arrivals, j, step)
    ensures line(Departure(arrivals, j, step)) - line(Departure(arrivals, i, step)) >= 1.0
  {
    var p := AnchorIsPassed(arrivals, j, step, line, level, burst);
    ConsecutiveLevels(arrivals, p, j, step, line, level, burst);
    if p < i {
      NonePassed(arrivals, p + 1, j, step, i);
    } else if i < p {
      SpacedFrom(arrivals, i, p, step, line, level, burst);
    }
  }

  // ----- the envelope -----

  /** Letting arrival `j` pass respects the envelope that starts at arrival `i`, on the clock as read. */
  predicate Conforms(arrivals: seq<real>, i: nat, j: nat, step: Transition, line: real -> real, burst: real)
    requires i < j < |arrivals|
  {
    (PassedCount(arrivals, i, j, step) + 1) as real <= line(arrivals[j]) - line(arrivals[i]) + burst + 1.0
  }

  /** No two passed arrivals have more than `rate * elapsed + burst + 1` passes between them, themselves included. */
  ghost predicate WithinEnvelope(arrivals: seq<real>, step: Transition, line: real -> real, burst: real) {
    forall i, j :: 0 <= i < j < |arrivals| && Passes(arrivals, i, step) && Passes(arrivals, j, step) ==>
                     Conforms(arrivals, i, j, step, line, burst)
  }

  /** The level as the envelope would have it: it never goes back. */
  ghost function Peak(arrivals: seq<real>, n: nat, step: Transition, line: real -> real): real
    requires 0 < n <= |arrivals|
  {
    if n == 1 then line(arrivals[0])
    else if Passes(arrivals, n - 1, step) then Max(Peak(arrivals, n - 1, step, line) + 1.0, line(arrivals[n - 1]))
    else Peak(arrivals, n - 1, step, line)
  }

  lemma {:induction false} PeakCovers(arrivals: seq<real>, i: nat, n: nat, step: Transition, line: real -> real)
    requires i < n <= |arrivals| && Passes(arrivals, i, step)
    ensures Peak(arrivals, n, step, line) >= line(arrivals[i]) + PassedCount(arrivals, i + 1, n, step) as real
  {
    if i < n - 1 {
      PeakCovers(arrivals, i, n - 1, step, line);
    }
  }

  lemma {:induction false} PeakAttained(arrivals: seq<real>, n: nat, step: Transition, line: real -> real)
    returns (w: nat)
    requires 0 < n <= |arrivals|
    ensures w < n && Passes(arrivals, w, step)
    ensures Peak(arrivals, n, step, line) == line(arrivals[w]) + PassedCount(arrivals, w + 1, n, step) as real
  {
    if n == 1 {
      w := 0;
    } else {
      w := PeakAttained(arrivals, n - 1, step, line);
      if Passes(arrivals, n - 1, step) && Peak(arrivals, n - 1, step, line) + 1.0 < line(arrivals[n - 1]) {
        w := n - 1;
      }
    }
  }

  lemma {:induction false} ConformIffBelowPeak(arrivals: seq<real>, j: nat, step: Transition, line: real -> real,
                                               burst: real)
    requires 0 < j < |arrivals|
    ensures (forall i :: 0 <= i < j && Passes(arrivals, i, step) ==> Conforms(arrivals, i, j, step, line, burst))
            <==> Peak(arrivals, j, step, line) + 1.0 <= line(arrivals[j]) + burst
  {
    var w := PeakAttained(arrivals, j, step, line);
    CountFromPassed(arrivals, w, j, step);
    forall i | 0 <= i < j && Passes(arrivals, i, step)
      ensures Peak(arrivals, j, step, line) + 1.0 <= line(arrivals[j]) + burst ==>
                Conforms(arrivals, i, j, step, line, burst)
    {
      PeakCovers(arrivals, i, j, step, line);
      CountFromPassed(arrivals, i, j, step);
    }
    assert Conforms(arrivals, w, j, step, line, burst) ==>
             Peak(arrivals, j, step, line) + 1.0 <= line(arrivals[j]) + burst;
  }

  lemma {:induction false} PeakAboveLevel(arrivals: seq<real>, n: nat, step: Transition, line: real -> real,
                                          level: BucketState -> real, burst: real)
    requires 0 < n <= |arrivals| && Schedules(step, line, level, burst)
    ensures Peak(arrivals, n, step, line) >= LevelAt(arrivals, n, step, level)
    ensures n > 1 && Setback(arrivals, n - 1, step, line) > 0.0 ==>
              Peak(arrivals, n, step, line) > LevelAt(arrivals, n, step, level)
  {
    ArrivalStep(arrivals, n - 1, step, line, level, burst);
    if n > 1 {
      PeakAboveLevel(arrivals, n - 1, step, line, level, burst);
      if Passes(arrivals, n - 1, step) && arrivals[n - 1] < Anchor(arrivals, n - 1, step) {
        assert line(arrivals[n - 1]) < line(Anchor(arrivals, n - 1, step));
      }
    }
  }

  lemma {:induction false} PeakIsLevel(arrivals: seq<real>, n: nat, step: Transition, line: real -> real,
                                       level: BucketState -> real, burst: real)
    requires 0 < n <= |arrivals| && Schedules(step, line, level, burst)
    requires forall k :: 0 < k < n && Passes(arrivals, k, step) ==> Anchor(arrivals, k, step) <= arrivals[k]
    ensures Peak(arrivals, n, step, line) == LevelAt(arrivals, n, step, level)
  {
    ArrivalStep(arrivals, n - 1, step, line, level, burst);
    if n > 1 {
      PeakIsLevel(arrivals, n - 1, step, line, level, burst);
    }
  }

  lemma {:induction false} AscendingConform(arrivals: seq<real>, step: Transition, line: real -> real,
                                            level: BucketState -> real, burst: real)
    requires Schedules(step, line, level, burst) && PassedAscend(arrivals, step)
    ensures WithinEnvelope(arrivals, step, line, burst)
  {
    AscendIffNotBehindAnchor(arrivals, step, line, level, burst);
    forall i, j | 0 <= i < j < |arrivals| && Passes(arrivals, i, step) && Passes(arrivals, j, step)
      ensures Conforms(arrivals, i, j, step, line, burst)
    {
      PeakIsLevel(arrivals, j, step, line, level, burst);
      ArrivalStep(arrivals, j, step, line, level, burst);
      ConformIffBelowPeak(arrivals, j, step, line, burst);
    }
  }

  /** The peak is out of reach of every reading so far. */
  lemma {:induction false} PeakAboveReadings(arrivals: seq<real>, n: nat, k: nat, step: Transition,
                                             line: real -> real, level: BucketState -> real, burst: real)
    requires k < n <= |arrivals| && Schedules(step, line, level, burst)
    ensures Peak(arrivals, n, step, line) + 1.0 > line(arrivals[k])
  {
    if k < n - 1 {
      PeakAboveReadings(arrivals, n - 1, k, step, line, level, burst);
    } else if k > 0 && !Passes(arrivals, k, step) {
      ArrivalStep(arrivals, k, step, line, level, burst);
      PeakAboveLevel(arrivals, k, step, line, level, burst);
      var read := Max(arrivals[k], Anchor(arrivals, k, step));
      assert arrivals[k] == read || line(arrivals[k]) < line(read);
    }
  }

  /** What arrivals are like once no reading is overtaken any more. */
  ghost predicate Later(before: seq<real>, more: seq<real>) {
    && (forall i, j :: 0 <= i < j < |more| ==> more[i] <= more[j])
    && (forall i, j :: 0 <= i < |before| && 0 <= j < |more| ==> before[i] <= more[j])
  }

  lemma {:induction false} SamePrefix(a: seq<real>, c: seq<real>, n: nat, step: Transition, line: real -> real,
                                      level: BucketState -> real)
    requires n <= |a| && a <= c
    ensures c[..n] == a[..n]
    ensures n > 0 ==>
              Anchor(c, n, step) == Anchor(a, n, step) && LevelAt(c, n, step, level) == LevelAt(a, n, step, level)
    ensures n > 0 ==> Peak(c, n, step, line) == Peak(a, n, step, line)
    ensures n < |a| ==> (Passes(c, n, step) <==> Passes(a, n, step))
  {
    assert c[..n] == a[..n];
    if n > 1 {
      SamePrefix(a, c, n - 1, step, line, level);
    }
  }

  ghost predicate UpTo(readings: seq<real>, top: real) {
    forall k :: 0 <= k < |readings| ==> readings[k] <= top
  }

  ghost predicate Onto(line: real -> real, inverse: real -> real) {
    forall y :: line(inverse(y)) == y
  }

  /** Once the level lags behind the peak, filling the bucket and waiting just long enough breaks the envelope. */
  lemma {:induction false} Overload(arrivals: seq<real>, top: real, room: nat, step: Transition, line: real -> real,
                                    level: BucketState -> real, burst: real, inverse: real -> real)
    returns (more: seq<real>)
    requires arrivals != [] && Schedules(step, line, level, burst) && Onto(line, inverse)
    requires UpTo(arrivals, top)
    requires Peak(arrivals, |arrivals|, step, line) > LevelAt(arrivals, |arrivals|, step, level)
    requires Peak(arrivals, |arrivals|, step, line) + 1.0 > line(top)
    requires LevelAt(arrivals, |arrivals|, step, level) + room as real > line(top) + burst
    ensures Later([top], more) && !WithinEnvelope(arrivals + more, step, line, burst)
    decreases room
  {
    var n, full := |arrivals|, arrivals + [top];
    Fill(arrivals, top, step, line, level, burst);
    if Passes(full, n, step) {
      var rest := Overload(full, top, room - 1, step, line, level, burst, inverse);
      more := [top] + rest;
      FirstOfMore(arrivals, top, rest);
    } else {
      var last := inverse(LevelAt(arrivals, n, step, level) + 1.0 - burst);
      JustPasses(arrivals, top, last, step, line, level, burst);
      Overloaded(arrivals, last, step, line, level, burst);
      more := [last];
    }
  }

  lemma {:induction false} FirstOfMore(arrivals: seq<real>, top: real, rest: seq<real>)
    requires Later([top], rest)
    ensures arrivals + [top] + rest == arrivals + ([top] + rest) && Later([top], [top] + rest)
  {
    assert arrivals + [top] + rest == arrivals + ([top] + rest);
    forall j | 0 <= j < |rest| ensures top <= rest[j] {
      assert [top][0] <= rest[j];
    }
  }

  /** One more arrival at reading `top`: it fills the bucket further, or the bucket is full. */
  lemma {:induction false} Fill(arrivals: seq<real>, top: real, step: Transition, line: real -> real,
                                level: BucketState -> real, burst: real)
    requires arrivals != [] && Schedules(step, line, level, burst)
    requires UpTo(arrivals, top)
    requires Peak(arrivals, |arrivals|, step, line) > LevelAt(arrivals, |arrivals|, step, level)
    requires Peak(arrivals, |arrivals|, step, line) + 1.0 > line(top)
    ensures var n, full := |arrivals|, arrivals + [top];
            if Passes(full, n, step)
            then && LevelAt(arrivals, n, step, level) + 1.0 <= line(top) + burst
                 && LevelAt(full, n + 1, step, level) >= LevelAt(arrivals, n, step, level) + 1.0
                 && Peak(full, n + 1, step, line) > LevelAt(full, n + 1, step, level)
                 && Peak(full, n + 1, step, line) + 1.0 > line(top)
            else LevelAt(arrivals, n, step, level) + 1.0 > line(top) + burst
  {
    var n, full := |arrivals|, arrivals + [top];
    AnchorBelow(arrivals, n, top, step, line, level, burst);
    SamePrefix(arrivals, full, n, step, line, level);
    ArrivalStep(full, n, step, line, level, burst);
  }

  lemma {:induction false} JustPasses(arrivals: seq<real>, top: real, last: real, step: Transition, line: real -> real,
                                      level: BucketState -> real, burst: real)
    requires arrivals != [] && Schedules(step, line, level, burst)
    requires UpTo(arrivals, top)
    requires line(last) == LevelAt(arrivals, |arrivals|, step, level) + 1.0 - burst && line(last) > line(top)
    ensures Anchor(arrivals, |arrivals|, step) <= top < last
  {
    AnchorBelow(arrivals, |arrivals|, top, step, line, level, burst);
    assert last < top ==> line(last) < line(top);
    assert last != top;
  }

  lemma {:induction false} AnchorBelow(arrivals: seq<real>, n: nat, top: real, step: Transition, line: real -> real,
                                       level: BucketState -> real, burst: real)
    requires 0 < n <= |arrivals| && Schedules(step, line, level, burst)
    requires UpTo(arrivals, top)
    ensures Anchor(arrivals, n, step) <= top
  {
    var p := AnchorIsPassed(arrivals, n, step, line, level, burst);
  }

  lemma {:induction false} Overloaded(arrivals: seq<real>, last: real, step: Transition, line: real -> real,
                                      level: BucketState -> real, burst: real)
    requires arrivals != [] && Schedules(step, line, level, burst)
    requires Anchor(arrivals, |arrivals|, step) <= last
    requires LevelAt(arrivals, |arrivals|, step, level) + 1.0 == line(last) + burst
    requires Peak(arrivals, |arrivals|, step, line) > LevelAt(arrivals, |arrivals|, step, level)
    ensures !WithinEnvelope(arrivals + [last], step, line, burst)
  {
    var n, full := |arrivals|, arrivals + [last];
    SamePrefix(arrivals, full, n, step, line, level);
    ArrivalStep(full, n, step, line, level, burst);
    ConformIffBelowPeak(full, n, step, line, burst);
    var i :| 0 <= i < n && Passes(full, i, step) && !Conforms(full, i, n, step, line, burst);
  }

  /** From any point of the run on, whatever comes in clock order stays within the envelope. */
  ghost predicate StaysWithinEnvelope(arrivals: seq<real>, step: Transition, line: real -> real, burst: real) {
    forall n, more :: 0 < n <= |arrivals| && Later(arrivals[..n], more) ==>
                        WithinEnvelope(arrivals[..n] + more, step, line, burst)
  }

  lemma {:induction false} LaterAscends(arrivals: seq<real>, n: nat, more: seq<real>, step: Transition,
                                        line: real -> real, level: BucketState -> real)
    requires n <= |arrivals| && PassedAscend(arrivals, step) && Later(arrivals[..n], more)
    ensures PassedAscend(arrivals[..n] + more, step)
  {
    var a := arrivals[..n];
    var c := a + more;
    forall i, j | 0 <= i < j < |c| && Passes(c, i, step) && Passes(c, j, step) ensures c[i] <= c[j] {
      if j < n {
        SamePrefix(a, c, i, step, line, level);
        SamePrefix(a, c, j, step, line, level);
        SamePrefix(a, arrivals, i, step, line, level);
        SamePrefix(a, arrivals, j, step, line, level);
      } else if i < n {
        assert c[i] == a[i] && c[j] == more[j - n];
      }
    }
  }

  /** Every overtaken pass lets some later run in clock order break the envelope. */
  lemma {:induction false} SetbackBreaksEnvelope(arrivals: seq<real>, n: nat, step: Transition, line: real -> real,
                                                 level: BucketState -> real, burst: real, inverse: real -> real)
    returns (more: seq<real>)
    requires 0 < n < |arrivals| && Schedules(step, line, level, burst) && Onto(line, inverse)
    requires Passes(arrivals, n, step) && arrivals[n] < Anchor(arrivals, n, step)
    ensures Later(arrivals[..n + 1], more) && !WithinEnvelope(arrivals[..n + 1] + more, step, line, burst)
  {
    var a := arrivals[..n + 1];
    SamePrefix(a, arrivals, n, step, line, level);
    var k := Latest(a);
    assert Setback(a, n, step, line) > 0.0 by {
      assert line(arrivals[n]) < line(Anchor(arrivals, n, step));
    }
    more := BreakEnvelope(a, k, step, line, level, burst, inverse);
  }

  lemma {:induction false} BreakEnvelope(a: seq<real>, k: nat, step: Transition, line: real -> real,
                                         level: BucketState -> real, burst: real, inverse: real -> real)
    returns (more: seq<real>)
    requires |a| > 1 && Schedules(step, line, level, burst) && Onto(line, inverse)
    requires Setback(a, |a| - 1, step, line) > 0.0
    requires k < |a| && UpTo(a, a[k])
    ensures Later(a, more) && !WithinEnvelope(a + more, step, line, burst)
  {
    PeakAboveReadings(a, |a|, k, step, line, level, burst);
    PeakAboveLevel(a, |a|, step, line, level, burst);
    var room := AtLeast(line(a[k]) + burst - LevelAt(a, |a|, step, level));
    more := Overload(a, a[k], room, step, line, level, burst, inverse);
    forall i, j | 0 <= i < |a| && 0 <= j < |more| ensures a[i] <= more[j] {
      assert a[i] <= a[k] && [a[k]][0] <= more[j];
    }
  }

  lemma {:induction false} AtLeast(x: real) returns (n: nat)
    ensures n as real > x
  {
    n := if x < 0.0 then 1 else x.Floor + 1;
  }

  lemma {:induction false} Latest(s: seq<real>) returns (k: nat)
    requires s != []
    ensures k < |s| && UpTo(s, s[k])
  {
    k := 0;
    for n := 1 to |s|
      invariant k < |s| && forall i :: 0 <= i < n ==> s[i] <= s[k]
    {
      if s[k] < s[n] {
        k := n;
      }
    }
  }

  /**
   Main result on the envelope: a bucket stays within `rate * elapsed + burst + 1`, from any point of its life on,
   exactly when the readings of the passed arrivals ascend.
   */
  lemma {:induction false} EnvelopeIffAscending(arrivals: seq<real>, cfg: Config)
    ensures StaysWithinEnvelope(arrivals, StepUnder(cfg), DrainLine(cfg.rate), cfg.burst)
            <==> PassedAscend(arrivals, StepUnder(cfg))
  {
    LeakyBucketSchedules(cfg);
    LineIsOnto(cfg);
    StaysIffAscending(arrivals, StepUnder(cfg), DrainLine(cfg.rate), LevelUnder(cfg.rate), cfg.burst, ReadingAt(cfg));
  }

  function ReadingAt(cfg: Config): real -> real {
    y => y / cfg.rate
  }

  lemma {:induction false} LineIsOnto(cfg: Config)
    ensures forall y :: DrainLine(cfg.rate)(ReadingAt(cfg)(y)) == y
  {
    forall y ensures DrainLine(cfg.rate)(ReadingAt(cfg)(y)) == y {
      assert cfg.rate * (y / cfg.rate) == y;
    }
  }

  lemma {:induction false} StaysIffAscending(arrivals: seq<real>, step: Transition, line: real -> real,
                                             level: BucketState -> real, burst: real, inverse: real -> real)
    requires Schedules(step, line, level, burst) && Onto(line, inverse)
    ensures StaysWithinEnvelope(arrivals, step, line, burst) <==> PassedAscend(arrivals, step)
  {
    if PassedAscend(arrivals, step) {
      forall n, more | 0 < n <= |arrivals| && Later(arrivals[..n], more)
        ensures WithinEnvelope(arrivals[..n] + more, step, line, burst)
      {
        LaterAscends(arrivals, n, more, step, line, level);
        AscendingConform(arrivals[..n] + more, step, line, level, burst);
      }
    } else {
      AscendIffNotBehindAnchor(arrivals, step, line, level, burst);
      var n :| 0 < n < |arrivals| && Passes(arrivals, n, step) && arrivals[n] < Anchor(arrivals, n, step);
      var more := SetbackBreaksEnvelope(arrivals, n, step, line, level, burst, inverse);
    }
  }

  /** Readings in order: what passes is exactly what the envelope admits. */
  lemma {:induction false} PassesIffEnvelopeAdmits(arrivals: seq<real>, j: nat, cfg: Config)
    requires 0 < j < |arrivals| && PassedAscend(arrivals[..j], StepUnder(cfg))
    requires Anchor(arrivals, j, StepUnder(cfg)) <= arrivals[j]
    ensures var step, line := StepUnder(cfg), DrainLine(cfg.rate);
            Passes(arrivals, j, step) <==>
            forall i :: 0 <= i < j && Passes(arrivals, i, step) ==> Conforms(arrivals, i, j, step, line, cfg.burst)
  {
    LeakyBucketSchedules(cfg);
    AdmitsUnder(arrivals, j, StepUnder(cfg), DrainLine(cfg.rate), LevelUnder(cfg.rate), cfg.burst);
  }

  lemma {:induction false} AdmitsUnder(arrivals: seq<real>, j: nat, step: Transition, line: real -> real,
                                       level: BucketState -> real, burst: real)
    requires 0 < j < |arrivals| && PassedAscend(arrivals[..j], step) && Schedules(step, line, level, burst)
    requires Anchor(arrivals, j, step) <= arrivals[j]
    ensures Passes(arrivals, j, step) <==>
            forall i :: 0 <= i < j && Passes(arrivals, i, step) ==> Conforms(arrivals, i, j, step, line, burst)
  {
    var a := arrivals[..j];
    AscendIffNotBehindAnchor(a, step, line, level, burst);
    PeakIsLevel(a, j, step, line, level, burst);
    SamePrefix(a, arrivals, j, step, line, level);
    ArrivalStep(arrivals, j, step, line, level, burst);
    ConformIffBelowPeak(arrivals, j, step, line, burst);
  }

  // ----- rejections leave no trace -----

  function PassedOnly(arrivals: seq<real>, n: nat, step: Transition): seq<real>
    requires n <= |arrivals|
  {
    if n == 0 then []
    else PassedOnly(arrivals, n - 1, step) + if Passes(arrivals, n - 1, step) then [arrivals[n - 1]] else []
  }

  /** Deleting every rejected arrival changes neither the bucket nor the fate of what comes next. */
  lemma {:induction false} RejectionsLeaveNoTrace(arrivals: seq<real>, n: nat, next: real, cfg: Config)
    requires 0 < n <= |arrivals|
    ensures var step := StepUnder(cfg);
            var passed := PassedOnly(arrivals, n, step);
            && passed != []
            && BucketAfter(passed, step) == BucketAfter(arrivals[..n], step)
            && DelayOf(passed + [next], |passed|, step) == DelayOf(arrivals[..n] + [next], n, step)
  {
    DeletingRejected(arrivals, n, StepUnder(cfg));
    var passed := PassedOnly(arrivals, n, StepUnder(cfg));
    assert (passed + [next])[..|passed|] == passed;
    assert (arrivals[..n] + [next])[..n] == arrivals[..n];
  }

  lemma {:induction false} DeletingRejected(arrivals: seq<real>, n: nat, step: Transition)
    requires 0 < n <= |arrivals|
    requires forall b, now :: step(b, now).1.None? ==> step(b, now).0 == b
    ensures PassedOnly(arrivals, n, step) != []
    ensures BucketAfter(PassedOnly(arrivals, n, step), step) == BucketAfter(arrivals[..n], step)
  {
    if n > 1 {
      DeletingRejected(arrivals, n - 1, step);
      assert arrivals[..n][..n - 1] == arrivals[..n - 1];
      var before := PassedOnly(arrivals, n - 1, step);
      assert (before + [arrivals[n - 1]])[..|before|] == before;
      assert before + [] == before;
    } else {
      assert PassedOnly(arrivals, 0, step) == [];
      assert arrivals[..1] == [arrivals[0]];
    }
  }

  // ----- whole runs of one shard, with eviction and other keys -----

  datatype Request = Request(key: string, now: real)

  function RunShard(st0: Slots, reqs: seq<Request>, cfg: Config): Slots {
    if reqs == [] then st0
    else StateAfter(RunShard(st0, reqs[..|reqs| - 1], cfg), reqs[|reqs| - 1].key, reqs[|reqs| - 1].now, cfg)
  }

  predicate RequestPasses(st0: Slots, reqs: seq<Request>, i: nat, cfg: Config)
    requires i < |reqs|
  {
    Outcome(RunShard(st0, reqs[..i], cfg), reqs[i].key, reqs[i].now, cfg).1.Some?
  }

  ghost predicate ClockOrder(reqs: seq<Request>) {
    forall i, j :: 0 <= i < j < |reqs| ==> reqs[i].now <= reqs[j].now
  }

  /** `key` is not the reserved key, and no request of it was sent to the overflow slot. */
  ghost predicate NeverOverflowed(st0: Slots, reqs: seq<Request>, key: string, cfg: Config) {
    && key != LIMIT_REQ_OVERFLOW
    && forall i :: 0 <= i < |reqs| && reqs[i].key == key ==>
         SlotOf(RunShard(st0, reqs[..i], cfg), key, reqs[i].now, cfg) == key
  }

  /** At most 255 distinct keys in the shard: none of them is ever sent to the overflow slot. */
  lemma {:induction false} FewKeysNeverOverflow(st0: Slots, reqs: seq<Request>, key: string, cfg: Config,
                                                keys: set<string>)
    requires st0.entries.Keys <= keys && |keys| <= PER_SHARD_REGULAR_MAX && key != LIMIT_REQ_OVERFLOW
    requires forall i :: 0 <= i < |reqs| ==> reqs[i].key in keys
    ensures NeverOverflowed(st0, reqs, key, cfg)
  {
    forall i | 0 <= i < |reqs| && reqs[i].key == key
      ensures SlotOf(RunShard(st0, reqs[..i], cfg), key, reqs[i].now, cfg) == key
    {
      FewKeysStored(st0, reqs, i, cfg, keys);
      FewKeysFit(RunShard(st0, reqs[..i], cfg), key, LIMIT_REQ_OVERFLOW, DrainedAt(reqs[i].now, cfg.rate),
                 SweepMiss.Restore, BucketState(0.0, 0.0), keys);
    }
  }

  lemma {:induction false} FewKeysStored(st0: Slots, reqs: seq<Request>, n: nat, cfg: Config, keys: set<string>)
    requires n <= |reqs| && st0.entries.Keys <= keys && |keys| <= PER_SHARD_REGULAR_MAX
    requires forall i :: 0 <= i < |reqs| ==> reqs[i].key in keys
    ensures RunShard(st0, reqs[..n], cfg).entries.Keys <= keys
  {
    if n == 0 {
      assert reqs[..0] == [];
    } else {
      FewKeysStored(st0, reqs, n - 1, cfg, keys);
      assert reqs[..n][..n - 1] == reqs[..n - 1];
      var r, st := reqs[n - 1], RunShard(st0, reqs[..n - 1], cfg);
      FewKeysFit(st, r.key, LIMIT_REQ_OVERFLOW, DrainedAt(r.now, cfg.rate), SweepMiss.Restore,
                 Outcome(st, r.key, r.now, cfg).0, keys);
    }
  }

  /** Exactly when that is so: at each request the shard has room for the key, or its oldest buckets have drained. */
  lemma {:induction false} NeverOverflowedIffRoom(st0: Slots, reqs: seq<Request>, key: string, cfg: Config)
    requires WithinBounds(st0, LIMIT_REQ_OVERFLOW) && key != LIMIT_REQ_OVERFLOW
    ensures NeverOverflowed(st0, reqs, key, cfg) <==>
            forall i :: 0 <= i < |reqs| && reqs[i].key == key ==>
              RoomFor(RunShard(st0, reqs[..i], cfg), key, DrainedAt(reqs[i].now, cfg.rate), SweepMiss.Restore)
  {
    forall i | 0 <= i < |reqs|
      ensures SlotOf(RunShard(st0, reqs[..i], cfg), key, reqs[i].now, cfg) == key <==>
              RoomFor(RunShard(st0, reqs[..i], cfg), key, DrainedAt(reqs[i].now, cfg.rate), SweepMiss.Restore)
    {
      RunStaysBounded(st0, reqs[..i], cfg);
      OwnSlotIffRoom(RunShard(st0, reqs[..i], cfg), key, LIMIT_REQ_OVERFLOW, DrainedAt(reqs[i].now, cfg.rate),
                     SweepMiss.Restore);
    }
  }

  lemma {:induction false} RunStaysBounded(st0: Slots, reqs: seq<Request>, cfg: Config)
    requires WithinBounds(st0, LIMIT_REQ_OVERFLOW)
    ensures WithinBounds(RunShard(st0, reqs, cfg), LIMIT_REQ_OVERFLOW)
  {
    if reqs != [] {
      var st, r := RunShard(st0, reqs[..|reqs| - 1], cfg), reqs[|reqs| - 1];
      RunStaysBounded(st0, reqs[..|reqs| - 1], cfg);
      AdmitKeepsBounds(st, r.key, LIMIT_REQ_OVERFLOW, DrainedAt(r.now, cfg.rate), SweepMiss.Restore,
                       Outcome(st, r.key, r.now, cfg).0);
    }
  }

  // One slot over the run, its own or the shared overflow slot: sweeps can only evict its bucket.

  /**
   When request `i` comes, whether it is sent to the slot, and what the slot holds before it and once the shard has
   been swept for it.
   */
  datatype Trace = Trace(at: nat -> real, uses: nat -> bool, cell: nat -> Option<BucketState>,
                         swept: nat -> Option<BucketState>)

  function StepOrCreate(cell: Option<BucketState>, now: real, step: Transition): BucketState {
    match cell
    case Some(b) => step(b, now).0
    case None => BucketState(0.0, now)
  }

  ghost predicate SlotStep(t: Trace, i: nat, step: Transition, drained: (BucketState, real) -> bool) {
    && (t.swept(i) == t.cell(i)
        || (t.cell(i).Some? && t.swept(i) == None && drained(t.cell(i).value, t.at(i))))
    && t.cell(i + 1) == if t.uses(i) then Some(StepOrCreate(t.swept(i), t.at(i), step)) else t.swept(i)
  }

  ghost predicate IsTrace(t: Trace, n: nat, step: Transition, drained: (BucketState, real) -> bool) {
    forall i: nat :: i < n ==> SlotStep(t, i, step, drained)
  }

  /** Request `i` passes through the slot, by creating a bucket or through the one there is. */
  predicate PassesIn(t: Trace, i: nat, step: Transition) {
    t.uses(i) && (t.swept(i).None? || step(t.swept(i).value, t.at(i)).1.Some?)
  }

  /** When it leaves: at once if it creates the bucket, else after its delay. */
  function DepartsAt(t: Trace, i: nat, step: Transition): real
    requires PassesIn(t, i, step)
  {
    match t.swept(i)
    case None => t.at(i)
    case Some(b) => t.at(i) + step(b, t.at(i)).1.value
  }

  predicate Creates(t: Trace, i: nat) {
    t.uses(i) && t.swept(i).None?
  }

  predicate Evicts(t: Trace, i: nat) {
    t.cell(i).Some? && t.swept(i).None?
  }

  /** Request `i` sets a mark that later requests of the slot should not be behind. */
  predicate Marks(t: Trace, i: nat, step: Transition) {
    PassesIn(t, i, step) || Evicts(t, i)
  }

  /** The requests in [i, j) that pass through the slot, less the buckets created there. */
  function NetPassed(t: Trace, i: nat, j: nat, step: Transition): int
    requires i <= j
    decreases j
  {
    if i == j then 0
    else NetPassed(t, i, j - 1, step) + if PassesIn(t, j - 1, step) && !Creates(t, j - 1) then 1 else 0
  }

  /** From request `i` on, no passed request is behind an earlier passed one, or behind one that evicted the bucket. */
  ghost predicate SlotInOrder(t: Trace, i: nat, n: nat, step: Transition) {
    forall a: nat, b: nat :: i <= a < b < n && Marks(t, a, step) && PassesIn(t, b, step) ==> t.at(a) <= t.at(b)
  }

  /** A drained bucket has nothing above the line at the later of its anchor and the reading that drains it. */
  ghost predicate DrainsBelow(drained: (BucketState, real) -> bool, line: real -> real, level: BucketState -> real) {
    forall b: BucketState, now: real {:trigger drained(b, now)} ::
      level(b) >= line(b.last) && drained(b, now) ==> level(b) <= line(Max(b.last, now))
  }

  function DrainedFn(rate: real): (BucketState, real) -> bool {
    (b, now) => Drained(b, now, rate)
  }

  lemma {:induction false} DrainedIsBelow(cfg: Config)
    ensures DrainsBelow(DrainedFn(cfg.rate), DrainLine(cfg.rate), LevelUnder(cfg.rate))
  {
    forall b: BucketState, now: real
      | LevelUnder(cfg.rate)(b) >= DrainLine(cfg.rate)(b.last) && DrainedFn(cfg.rate)(b, now)
      ensures LevelUnder(cfg.rate)(b) <= DrainLine(cfg.rate)(Max(b.last, now))
    {
      DrainedIffBelow(b, now, cfg.rate);
    }
  }

  /** A bucket may be evicted exactly when nothing of it is left above the drain line. */
  lemma {:induction false} DrainedIffBelow(b: BucketState, now: real, rate: real)
    ensures Drained(b, now, rate) <==> Level(b, rate) <= rate * Max(b.last, now)
    ensures DrainedAt(now, rate)(b) <==> Drained(b, now, rate)
  {
    if b.last <= now {
      assert (now - b.last) * rate == rate * now - rate * b.last;
    }
  }

  /** What is stored accounts for `floor`: a bucket by its level, no bucket by the line at reading `mark`. */
  ghost predicate Accounts(cell: Option<BucketState>, floor: real, mark: real, line: real -> real,
                           level: BucketState -> real)
  {
    match cell
    case None => floor <= line(mark)
    case Some(b) => floor <= level(b) && line(b.last) <= level(b) && b.last == mark
  }

  ghost predicate Grounded(cell: Option<BucketState>, line: real -> real, level: BucketState -> real) {
    cell.Some? ==> line(cell.value.last) <= level(cell.value)
  }

  /** The bucket that request `i` leaves behind when it passes: its level is the line at the departure. */
  lemma {:induction false} PassSetsLevel(t: Trace, i: nat, step: Transition, drained: (BucketState, real) -> bool,
                                         line: real -> real, level: BucketState -> real, burst: real)
    requires SlotStep(t, i, step, drained) && Schedules(step, line, level, burst) && PassesIn(t, i, step)
    requires Grounded(t.swept(i), line, level)
    ensures t.cell(i + 1).Some? && t.cell(i + 1).value.last == t.at(i)
    ensures line(DepartsAt(t, i, step)) == level(t.cell(i + 1).value) >= line(t.at(i))
    ensures t.swept(i).Some? ==>
              OneStepSchedules(t.swept(i).value, t.at(i), step(t.swept(i).value, t.at(i)), line, level, burst)
  {
    if t.swept(i).Some? {
      assert OneStepSchedules(t.swept(i).value, t.at(i), step(t.swept(i).value, t.at(i)), line, level, burst);
    }
  }

  lemma {:induction false} StaysGrounded(t: Trace, n: nat, step: Transition, drained: (BucketState, real) -> bool,
                                         line: real -> real, level: BucketState -> real, burst: real)
    requires IsTrace(t, n, step, drained) && Schedules(step, line, level, burst) && Grounded(t.cell(0), line, level)
    ensures Grounded(t.cell(n), line, level)
  {
    if n > 0 {
      StaysGrounded(t, n - 1, step, drained, line, level, burst);
      assert SlotStep(t, n - 1, step, drained);
      if PassesIn(t, n - 1, step) {
        PassSetsLevel(t, n - 1, step, drained, line, level, burst);
      } else if t.uses(n - 1) {
        var b := t.swept(n - 1).value;
        assert OneStepSchedules(b, t.at(n - 1), step(b, t.at(n - 1)), line, level, burst);
      }
    }
  }

  /** What is stored still accounts for the floor once the shard has been swept, perhaps at a later mark. */
  lemma {:induction false} SweepAccounts(t: Trace, n: nat, step: Transition, drained: (BucketState, real) -> bool,
                                         line: real -> real, level: BucketState -> real, burst: real, floor: real,
                                         mark: real) returns (mark': real)
    requires SlotStep(t, n, step, drained) && Schedules(step, line, level, burst) && DrainsBelow(drained, line, level)
    requires Accounts(t.cell(n), floor, mark, line, level)
    ensures Accounts(t.swept(n), floor, mark', line, level)
    ensures mark' == if Evicts(t, n) && mark < t.at(n) then t.at(n) else mark
  {
    mark' := if Evicts(t, n) && mark < t.at(n) then t.at(n) else mark;
  }

  /** One request, once what is stored accounts for the passes so far. */
  lemma {:induction false} StepAccounts(t: Trace, n: nat, step: Transition, drained: (BucketState, real) -> bool,
                                        line: real -> real, level: BucketState -> real, burst: real, floor: real,
                                        mark: real) returns (mark': real)
    requires SlotStep(t, n, step, drained) && Schedules(step, line, level, burst) && DrainsBelow(drained, line, level)
    requires Accounts(t.cell(n), floor, mark, line, level)
    requires PassesIn(t, n, step) ==> mark <= t.at(n)
    ensures var gained := if PassesIn(t, n, step) && !Creates(t, n) then 1.0 else 0.0;
            Accounts(t.cell(n + 1), floor + gained, mark', line, level)
    ensures mark' == if PassesIn(t, n, step) || (Evicts(t, n) && mark < t.at(n)) then t.at(n) else mark
    ensures PassesIn(t, n, step) ==> line(DepartsAt(t, n, step)) <= line(t.at(n)) + burst
  {
    mark' := SweepAccounts(t, n, step, drained, line, level, burst, floor, mark);
    if PassesIn(t, n, step) {
      PassSetsLevel(t, n, step, drained, line, level, burst);
      mark' := t.at(n);
    } else if t.uses(n) {
      var b := t.swept(n).value;
      assert OneStepSchedules(b, t.at(n), step(b, t.at(n)), line, level, burst);
    }
  }

  lemma {:induction false} NextNetPassed(t: Trace, i: nat, n: nat, step: Transition)
    requires i <= n
    ensures NetPassed(t, i, n + 1, step) as real
            == NetPassed(t, i, n, step) as real + if PassesIn(t, n, step) && !Creates(t, n) then 1.0 else 0.0
  {
  }

  lemma {:induction false} FirstAccounts(t: Trace, i: nat, step: Transition, drained: (BucketState, real) -> bool,
                                         line: real -> real, level: BucketState -> real, burst: real)
    requires IsTrace(t, i + 1, step, drained) && Grounded(t.cell(0), line, level)
    requires Schedules(step, line, level, burst) && PassesIn(t, i, step)
    ensures Accounts(t.cell(i + 1), line(DepartsAt(t, i, step)), t.at(i), line, level)
    ensures line(DepartsAt(t, i, step)) >= line(t.at(i))
  {
    StaysGrounded(t, i, step, drained, line, level, burst);
    assert SlotStep(t, i, step, drained);
    PassSetsLevel(t, i, step, drained, line, level, burst);
  }

  /** What `cell` holds after `n` requests accounts for the passes since request `i`, at the mark of request `w`. */
  ghost predicate AccountsSince(t: Trace, i: nat, n: nat, w: nat, step: Transition, line: real -> real,
                                level: BucketState -> real)
    requires i < n && PassesIn(t, i, step)
  {
    && i <= w < n && Marks(t, w, step)
    && Accounts(t.cell(n), line(DepartsAt(t, i, step)) + NetPassed(t, i + 1, n, step) as real, t.at(w), line, level)
  }

  lemma {:induction false} NextAccounts(t: Trace, i: nat, n: nat, w: nat, step: Transition,
                                        drained: (BucketState, real) -> bool, line: real -> real,
                                        level: BucketState -> real, burst: real) returns (w': nat)
    requires i < n && SlotStep(t, n, step, drained) && PassesIn(t, i, step)
    requires Schedules(step, line, level, burst) && DrainsBelow(drained, line, level)
    requires AccountsSince(t, i, n, w, step, line, level) && (PassesIn(t, n, step) ==> t.at(w) <= t.at(n))
    ensures AccountsSince(t, i, n + 1, w', step, line, level)
    ensures PassesIn(t, n, step) ==> w' == n && line(DepartsAt(t, n, step)) <= line(t.at(n)) + burst
  {
    var floor := line(DepartsAt(t, i, step)) + NetPassed(t, i + 1, n, step) as real;
    var mark := StepAccounts(t, n, step, drained, line, level, burst, floor, t.at(w));
    NextNetPassed(t, i + 1, n, step);
    w' := if PassesIn(t, n, step) || mark != t.at(w) then n else w;
  }

  /** After any number of requests, what is stored accounts for the passes since request `i`. */
  lemma {:induction false} TraceAccounts(t: Trace, i: nat, n: nat, step: Transition,
                                         drained: (BucketState, real) -> bool, line: real -> real,
                                         level: BucketState -> real, burst: real) returns (w: nat)
    requires i < n && IsTrace(t, n, step, drained) && Grounded(t.cell(0), line, level)
    requires Schedules(step, line, level, burst) && DrainsBelow(drained, line, level)
    requires PassesIn(t, i, step) && SlotInOrder(t, i, n, step)
    ensures AccountsSince(t, i, n, w, step, line, level)
    decreases n
  {
    if n == i + 1 {
      FirstAccounts(t, i, step, drained, line, level, burst);
      w := i;
    } else {
      var v := TraceAccounts(t, i, n - 1, step, drained, line, level, burst);
      assert SlotStep(t, n - 1, step, drained);
      w := NextAccounts(t, i, n - 1, v, step, drained, line, level, burst);
    }
  }

  /**
   From the passed request `i` to the passed request `n` the line at departures rises by the passes between, less
   the creations, and it stays within the burst above the readings.
   */
  ghost predicate Spread(t: Trace, i: nat, n: nat, step: Transition, line: real -> real, burst: real)
    requires i < n && PassesIn(t, i, step) && PassesIn(t, n, step)
  {
    && line(DepartsAt(t, n, step)) - line(DepartsAt(t, i, step)) >= NetPassed(t, i + 1, n + 1, step) as real
    && line(t.at(i)) <= line(DepartsAt(t, i, step)) && line(DepartsAt(t, n, step)) <= line(t.at(n)) + burst
  }

  lemma {:induction false} TraceSpreads(t: Trace, i: nat, n: nat, step: Transition,
                                        drained: (BucketState, real) -> bool, line: real -> real,
                                        level: BucketState -> real, burst: real)
    requires i < n && IsTrace(t, n + 1, step, drained) && Grounded(t.cell(0), line, level)
    requires Schedules(step, line, level, burst) && DrainsBelow(drained, line, level)
    requires PassesIn(t, i, step) && PassesIn(t, n, step) && SlotInOrder(t, i, n + 1, step)
    ensures Spread(t, i, n, step, line, burst)
  {
    FirstAccounts(t, i, step, drained, line, level, burst);
    var v := TraceAccounts(t, i, n, step, drained, line, level, burst);
    assert SlotStep(t, n, step, drained);
    var w := NextAccounts(t, i, n, v, step, drained, line, level, burst);
    StaysGrounded(t, n, step, drained, line, level, burst);
    PassSetsLevel(t, n, step, drained, line, level, burst);
  }

  // Runs are such traces.

  /** `slot` over a run that starts with the shard `st0`. */
  function TraceOf(st0: Slots, reqs: seq<Request>, slot: string, cfg: Config): Trace {
    Trace((i: nat) => if i < |reqs| then reqs[i].now else 0.0,
          (i: nat) => i < |reqs| && SlotOf(RunShard(st0, reqs[..i], cfg), reqs[i].key, reqs[i].now, cfg) == slot,
          (i: nat) => if i <= |reqs| then Lookup(RunShard(st0, reqs[..i], cfg), slot) else None,
          (i: nat) => if i < |reqs| then SweptSlot(RunShard(st0, reqs[..i], cfg), reqs[i], slot, cfg) else None)
  }

  /** What `slot` holds once the shard has been swept for request `r`. */
  function SweptSlot(st: Slots, r: Request, slot: string, cfg: Config): Option<BucketState> {
    Lookup(Admit(st, r.key, LIMIT_REQ_OVERFLOW, DrainedAt(r.now, cfg.rate), SweepMiss.Restore).0, slot)
  }

  /** One request against the shard, as seen by any slot. */
  lemma {:induction false} ShardStep(st: Slots, r: Request, slot: string, cfg: Config)
    ensures SweptSlot(st, r, slot, cfg) == Lookup(st, slot)
            || (SweptSlot(st, r, slot, cfg) == None && slot in st.entries
                && DrainedFn(cfg.rate)(st.entries[slot], r.now))
    ensures Lookup(StateAfter(st, r.key, r.now, cfg), slot)
            == if SlotOf(st, r.key, r.now, cfg) == slot
               then Some(StepOrCreate(SweptSlot(st, r, slot, cfg), r.now, StepUnder(cfg)))
               else SweptSlot(st, r, slot, cfg)
    ensures SlotOf(st, r.key, r.now, cfg) == slot ==>
              Outcome(st, r.key, r.now, cfg).1
              == match SweptSlot(st, r, slot, cfg)
                 case None => Some(0.0)
                 case Some(b) => StepUnder(cfg)(b, r.now).1
  {
    SweepSound(st, DrainedAt(r.now, cfg.rate), SweepMiss.Restore, CLEANUP_BUDGET, slot);
  }

  /** How long request `i` is held back, if it passes. */
  function RequestDelay(st0: Slots, reqs: seq<Request>, i: nat, cfg: Config): Option<real>
    requires i < |reqs|
  {
    Outcome(RunShard(st0, reqs[..i], cfg), reqs[i].key, reqs[i].now, cfg).1
  }

  lemma {:induction false} RunSlotStep(st0: Slots, reqs: seq<Request>, i: nat, slot: string, cfg: Config)
    requires i < |reqs|
    ensures TraceOf(st0, reqs, slot, cfg).at(i) == reqs[i].now
    ensures var t, step := TraceOf(st0, reqs, slot, cfg), StepUnder(cfg);
            && SlotStep(t, i, step, DrainedFn(cfg.rate))
            && (PassesIn(t, i, step) <==> t.uses(i) && RequestPasses(st0, reqs, i, cfg))
            && (PassesIn(t, i, step) ==>
                  DepartsAt(t, i, step) == reqs[i].now + RequestDelay(st0, reqs, i, cfg).value)
  {
    assert reqs[..i + 1][..i] == reqs[..i] && reqs[..i + 1][i] == reqs[i];
    ShardStep(RunShard(st0, reqs[..i], cfg), reqs[i], slot, cfg);
  }

  lemma {:induction false} RunIsTrace(st0: Slots, reqs: seq<Request>, n: nat, slot: string, cfg: Config)
    requires n <= |reqs|
    ensures IsTrace(TraceOf(st0, reqs, slot, cfg), n, StepUnder(cfg), DrainedFn(cfg.rate))
  {
    forall i: nat | i < n ensures SlotStep(TraceOf(st0, reqs, slot, cfg), i, StepUnder(cfg), DrainedFn(cfg.rate)) {
      RunSlotStep(st0, reqs, i, slot, cfg);
    }
  }

  /** Requests `i` and `n` of a trace pass, and what matters to the slot since `i` comes in clock order. */
  ghost predicate PassInOrder(t: Trace, i: nat, n: nat, step: Transition) {
    i < n && PassesIn(t, i, step) && PassesIn(t, n, step) && SlotInOrder(t, i, n + 1, step)
  }

  /** `slot` does not start with a negative excess. */
  predicate StartsGrounded(st0: Slots, slot: string) {
    slot in st0.entries ==> st0.entries[slot].excess >= 0.0
  }

  lemma {:induction false} TraceGrounded(st0: Slots, reqs: seq<Request>, slot: string, cfg: Config)
    requires StartsGrounded(st0, slot)
    ensures Grounded(TraceOf(st0, reqs, slot, cfg).cell(0), DrainLine(cfg.rate), LevelUnder(cfg.rate))
  {
    assert reqs[..0] == [];
  }

  lemma {:induction false} RunSpreads(st0: Slots, reqs: seq<Request>, i: nat, n: nat, slot: string, cfg: Config)
    requires n < |reqs| && StartsGrounded(st0, slot)
    requires PassInOrder(TraceOf(st0, reqs, slot, cfg), i, n, StepUnder(cfg))
    ensures Spread(TraceOf(st0, reqs, slot, cfg), i, n, StepUnder(cfg), DrainLine(cfg.rate), cfg.burst)
  {
    RunIsTrace(st0, reqs, n + 1, slot, cfg);
    TraceGrounded(st0, reqs, slot, cfg);
    LeakyBucketSchedules(cfg);
    DrainedIsBelow(cfg);
    TraceSpreads(TraceOf(st0, reqs, slot, cfg), i, n, StepUnder(cfg), DrainedFn(cfg.rate), DrainLine(cfg.rate),
                 LevelUnder(cfg.rate), cfg.burst);
  }

  /** When request `i` leaves. */
  function LeavesAt(st0: Slots, reqs: seq<Request>, i: nat, cfg: Config): real
    requires i < |reqs| && RequestPasses(st0, reqs, i, cfg)
  {
    reqs[i].now + RequestDelay(st0, reqs, i, cfg).value
  }

  lemma {:induction false} LeavesWithTrace(st0: Slots, reqs: seq<Request>, i: nat, slot: string, cfg: Config)
    requires i < |reqs| && PassesIn(TraceOf(st0, reqs, slot, cfg), i, StepUnder(cfg))
    ensures RequestPasses(st0, reqs, i, cfg)
    ensures DepartsAt(TraceOf(st0, reqs, slot, cfg), i, StepUnder(cfg)) == LeavesAt(st0, reqs, i, cfg)
  {
    RunSlotStep(st0, reqs, i, slot, cfg);
  }

  lemma {:induction false} SpreadLeaves(t: Trace, i: nat, n: nat, step: Transition, line: real -> real, burst: real,
                                        left: real, leaves: real)
    requires i < n && PassesIn(t, i, step) && PassesIn(t, n, step) && Spread(t, i, n, step, line, burst)
    requires DepartsAt(t, i, step) == left && DepartsAt(t, n, step) == leaves
    ensures line(leaves) - line(left) >= NetPassed(t, i + 1, n + 1, step) as real
  {
  }

  /**
   Main result on spacing over any run of a shard, eviction and other keys included: two requests that pass through one
   slot, the overflow slot included, leave at least `1/rate` apart for each pass between them through a bucket that was
   there, counting the later one.
   */
  lemma {:induction false} SpacedAcrossEvictions(st0: Slots, reqs: seq<Request>, i: nat, n: nat, slot: string,
                                                 cfg: Config)
    requires n < |reqs| && StartsGrounded(st0, slot)
    requires PassInOrder(TraceOf(st0, reqs, slot, cfg), i, n, StepUnder(cfg))
    ensures RequestPasses(st0, reqs, i, cfg) && RequestPasses(st0, reqs, n, cfg)
    ensures var line := DrainLine(cfg.rate);
            line(LeavesAt(st0, reqs, n, cfg)) - line(LeavesAt(st0, reqs, i, cfg))
            >= NetPassed(TraceOf(st0, reqs, slot, cfg), i + 1, n + 1, StepUnder(cfg)) as real
  {
    LeavesWithTrace(st0, reqs, i, slot, cfg);
    LeavesWithTrace(st0, reqs, n, slot, cfg);
    RunSpreads(st0, reqs, i, n, slot, cfg);
    SpreadLeaves(TraceOf(st0, reqs, slot, cfg), i, n, StepUnder(cfg), DrainLine(cfg.rate), cfg.burst,
                 LeavesAt(st0, reqs, i, cfg), LeavesAt(st0, reqs, n, cfg));
  }

  /**
   Main result on the envelope over such runs: after a passed request `i` and up to a passed request `n`, the passes
   of a slot stay within `rate * elapsed + burst`, plus one for each bucket created there since. Only passed requests
   of the slot and evictions of its bucket need be in clock order.
   */
  lemma {:induction false} EnvelopeAcrossEvictions(st0: Slots, reqs: seq<Request>, i: nat, n: nat, slot: string,
                                                   cfg: Config)
    requires n < |reqs| && StartsGrounded(st0, slot)
    requires PassInOrder(TraceOf(st0, reqs, slot, cfg), i, n, StepUnder(cfg))
    ensures var line := DrainLine(cfg.rate);
            NetPassed(TraceOf(st0, reqs, slot, cfg), i + 1, n + 1, StepUnder(cfg)) as real
            <= line(reqs[n].now) - line(reqs[i].now) + cfg.burst
  {
    RunSlotStep(st0, reqs, i, slot, cfg);
    RunSlotStep(st0, reqs, n, slot, cfg);
    RunSpreads(st0, reqs, i, n, slot, cfg);
  }

  /** The requests that a slot of its own serves are those of its key. */
  lemma {:induction false} OwnSlotServesKey(st0: Slots, reqs: seq<Request>, key: string, cfg: Config, i: nat)
    requires NeverOverflowed(st0, reqs, key, cfg) && i < |reqs|
    ensures TraceOf(st0, reqs, key, cfg).uses(i) <==> reqs[i].key == key
  {
  }

  /** Clock order over the whole shard is more than enough. */
  lemma {:induction false} ClockOrderIsSlotOrder(st0: Slots, reqs: seq<Request>, slot: string, cfg: Config, i: nat,
                                                 n: nat)
    requires n <= |reqs| && ClockOrder(reqs)
    ensures SlotInOrder(TraceOf(st0, reqs, slot, cfg), i, n, StepUnder(cfg))
  {
  }

  // ----- what one overtaken reading does -----

  /** Both promises can fail: a reading taken before the lock can be overtaken by a later one. */
  lemma {:induction false} SpacingNeedsClockOrder()
    ensures var cfg := Config(1.0, 2.0, false);
            !AllSpaced([10.0, 10.0, 9.0], cfg)
  {
    var cfg := Config(1.0, 2.0, false);
    OvertakenPasses(cfg);
    assert !PassedAscend([10.0, 10.0, 9.0], StepUnder(cfg));
    DeparturesAreSpaced([10.0, 10.0, 9.0], cfg);
  }

  /** Four passes with no time elapsed, where the envelope allows three. */
  lemma {:induction false} EnvelopeNeedsClockOrder()
    ensures var cfg, arrivals := Config(1.0, 2.0, false), [10.0, 10.0, 9.0, 10.0];
            && PassedCount(arrivals, 0, 4, StepUnder(cfg)) == 4
            && !WithinEnvelope(arrivals, StepUnder(cfg), DrainLine(cfg.rate), cfg.burst)
  {
    var cfg, arrivals := Config(1.0, 2.0, false), [10.0, 10.0, 9.0, 10.0];
    var step := StepUnder(cfg);
    OvertakenPasses(cfg);
    assert arrivals[..3] == [10.0, 10.0, 9.0] && arrivals[..2] == [10.0, 10.0] && arrivals[..1] == [10.0];
    assert step(BucketState(2.0, 9.0), 10.0) == (BucketState(2.0, 10.0), Some(2.0));
    assert Passes(arrivals, 0, step) && Passes(arrivals, 1, step);
    assert Passes(arrivals, 2, step) && Passes(arrivals, 3, step);
    assert PassedCount(arrivals, 0, 1, step) == 1 && PassedCount(arrivals, 0, 2, step) == 2;
    assert PassedCount(arrivals, 0, 3, step) == 3;
    assert !Conforms(arrivals, 0, 3, step, DrainLine(cfg.rate), cfg.burst);
  }

  /** A bucket evicted at a reading ahead of the slot's own: six pass through two buckets, where four may. */
  lemma {:induction false} EvictionAheadBreaksEnvelope(cfg: Config)
    requires cfg == Config(1.0, 2.0, false)
    ensures var t, step := EvictedAhead(), StepUnder(cfg);
            && IsTrace(t, 7, step, DrainedFn(cfg.rate))
            && PassesIn(t, 0, step) && PassesIn(t, 6, step) && t.at(0) == t.at(6)
            && NetPassed(t, 1, 7, step) == 4
  {
    var t, step := EvictedAhead(), StepUnder(cfg);
    assert step(BucketState(0.0, 10.0), 10.0) == (BucketState(1.0, 10.0), Some(1.0));
    assert step(BucketState(1.0, 10.0), 10.0) == (BucketState(2.0, 10.0), Some(2.0));
    assert Elapsed(12.0, 10.0) == 2.0;
    assert Drained(BucketState(2.0, 10.0), 12.0, 1.0);
    forall i: nat | i < 7 ensures SlotStep(t, i, step, DrainedFn(cfg.rate)) {
      assert i == 0 || i == 1 || i == 2 || i == 3 || i == 4 || i == 5 || i == 6;
    }
    assert NetPassed(t, 1, 2, step) == 1 && NetPassed(t, 1, 3, step) == 2 && NetPassed(t, 1, 4, step) == 2;
    assert NetPassed(t, 1, 5, step) == 2 && NetPassed(t, 1, 6, step) == 3;
  }

  /** Three requests at second 10, one of another key at second 12 that evicts the drained bucket, three at 10 again. */
  function EvictedAhead(): Trace {
    var cell := (n: nat) =>
      if n == 1 || n == 5 then Some(BucketState(0.0, 10.0))
      else if n == 2 || n == 6 then Some(BucketState(1.0, 10.0))
      else if n == 3 || n == 7 then Some(BucketState(2.0, 10.0))
      else None;
    Trace((n: nat) => if n == 3 then 12.0 else 10.0, (n: nat) => n != 3, cell,
          (n: nat) => if n == 3 then None else cell(n))
  }

  lemma {:induction false} OvertakenPasses(cfg: Config)
    requires cfg == Config(1.0, 2.0, false)
    ensures var step := StepUnder(cfg);
            && BucketAfter([10.0], step) == BucketState(0.0, 10.0)
            && BucketAfter([10.0, 10.0], step) == BucketState(1.0, 10.0)
            && BucketAfter([10.0, 10.0, 9.0], step) == BucketState(2.0, 9.0)
            && Passes([10.0, 10.0, 9.0], 1, step) && Passes([10.0, 10.0, 9.0], 2, step)
            && step(BucketState(0.0, 10.0), 10.0).1.Some? && step(BucketState(1.0, 10.0), 9.0).1.Some?
  {
    var step, three := StepUnder(cfg), [10.0, 10.0, 9.0];
    assert three[..1] == [10.0] && three[..2] == [10.0, 10.0] && [10.0, 10.0][..1] == [10.0];
    assert step(BucketState(0.0, 10.0), 10.0) == (BucketState(1.0, 10.0), Some(1.0));
    assert step(BucketState(1.0, 10.0), 9.0) == (BucketState(2.0, 9.0), Some(2.0));
    assert BucketAfter([10.0], step) == BucketState(0.0, 10.0);
    assert BucketAfter([10.0, 10.0], step) == BucketState(1.0, 10.0);
  }
}
