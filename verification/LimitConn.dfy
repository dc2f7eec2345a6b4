/**
 The concurrency limiter limit-conn: the decision, the guard object, and the protocol by which any number of
 concurrent requests take and give back slots of shared counters.
 */
module LimitConn {
  import opened Wrappers
  import opened Arithmetic
  import opened LimiterShards
  import opened Limiting

  datatype Decision = Pass | Delay(secs: real) | Reject

  /** What becomes of a request that has just become the `count`-th holder; a validated limit has `conn >= 1`. */
  function Decide(count: nat, conn: nat, burst: nat, unitDelay: real): Decision
    requires conn >= 1
  {
    if count > conn + burst then Reject
    else if count > conn then Delay(unitDelay * ((count - 1) / conn) as real)
    else Pass
  }

  /**
   The decision by the number `m` of full rounds of `conn` requests ahead of this one: beyond the burst it is rejected,
   with no round ahead it passes, and else it waits one unit for each round.
   */
  lemma {:induction false} DecisionCountsRounds(count: nat, conn: nat, burst: nat, unitDelay: real, m: nat)
    requires conn >= 1 && m * conn < count <= (m + 1) * conn
    ensures Decide(count, conn, burst, unitDelay)
            == if count > conn + burst then Reject
               else if m == 0 then Pass
               else Delay(unitDelay * m as real)
  {
    assert (m + 1) * conn == m * conn + conn;
    DivisionIsUnique(count - 1, conn, m, count - 1 - m * conn);
    if m > 0 {
      AtLeast(m, conn);
    }
  }

  // ----- the objects -----

  class ConnState {
    var count: nat
    var unitDelay: real

    constructor (unitDelay: real)
      ensures count == 0 && this.unitDelay == unitDelay
    {
      count, this.unitDelay := 0, unitDelay;
    }
  }

  /** The part of a request's time that was not its own artificial delay, never negative. */
  function Latency(started: real, now: real, sleptDelay: real): real {
    if now - started >= sleptDelay then now - started - sleptDelay else 0.0
  }

  /** Service time is what is fed back: the delay the limiter imposed itself never shows. */
  lemma {:induction false} OwnDelayDoesNotShow(started: real, sleptDelay: real, service: real)
    requires sleptDelay >= 0.0
    ensures service >= 0.0 ==> Latency(started, started + sleptDelay + service, sleptDelay) == service
    ensures service <= 0.0 ==> Latency(started, started + sleptDelay + service, sleptDelay) == 0.0
  {
  }

  class ConnGuard {
    const state: ConnState
    const started: real
    var sleptDelay: real
    var released: bool

    constructor (state: ConnState, now: real)
      ensures this.state == state && started == now && sleptDelay == 0.0 && !released
    {
      this.state, started, sleptDelay, released := state, now, 0.0, false;
    }

    /** Gives the slot back once, feeding the latency estimate when asked to. */
    method Release(updateDelay: bool, now: real)
      requires !released ==> state.count > 0
      modifies this`released, state
      ensures released
      ensures state.count == old(state.count) - if old(released) then 0 else 1
      ensures state.unitDelay == if !old(released) && updateDelay
                                 then (Latency(started, now, sleptDelay) + old(state.unitDelay)) / 2.0
                                 else old(state.unitDelay)
    {
      if released {
        return;
      }
      released := true;
      state.count := state.count - 1;
      if updateDelay {
        state.unitDelay := (Latency(started, now, sleptDelay) + state.unitDelay) / 2.0;
      }
    }

    /** What happens when the guard goes out of scope. */
    method Drop(now: real)
      requires !released ==> state.count > 0
      modifies this`released, state
      ensures released && state.count == old(state.count) - if old(released) then 0 else 1
      ensures state.unitDelay == old(state.unitDelay)
    {
      Release(false, now);
    }

    /** Leaving consumes the guard, so it also goes out of scope: still one slot, one latency sample. */
    method Leave(updateDelay: bool, now: real)
      requires !released && state.count > 0
      modifies this`released, state
      ensures released && state.count == old(state.count) - 1
      ensures state.unitDelay == if updateDelay then (Latency(started, now, sleptDelay) + old(state.unitDelay)) / 2.0
                                 else old(state.unitDelay)
    {
      Release(updateDelay, now);
      Drop(now);
    }
  }

  // ----- the protocol -----

  datatype RawLimit = Limit(key: string, conn: nat, burst: nat)
  type Limit = l: RawLimit | l.conn >= 1 witness Limit("", 1, 0)

  function Ceiling(l: Limit): nat {
    l.conn + l.burst
  }

  /** Where a request stands; `i` is the limit it is working on and `sid` the counter it found for it. */
  datatype Phase =
    | Fetching(i: nat)                             // about to look the counter up
    | Incrementing(i: nat, sid: nat)               // holds the counter, has not incremented it
    | Deciding(i: nat, sid: nat, count: nat)       // incremented it and saw `count`
    | Sleeping(i: nat, sid: nat)                   // delayed, its guard still local
    | Admitted                                     // all guards are in the request context
    | Releasing                                    // rejected, cancelled or logging: guards go one by one
    | Ended

  /** `guards` are the counters of the guards the request owns, local vector or context alike. */
  datatype Req = Req(limits: seq<Limit>, phase: Phase, guards: seq<nat>)

  /** The shard and the slot that a counter was created in. */
  datatype Owner = Owner(shard: nat, slot: string)

  /** `owners` remembers where each counter was created. */
  datatype Sys = Sys(tables: seq<ShardState<string, nat>>, counts: seq<nat>, owners: seq<Owner>, reqs: seq<Req>)

  /** One atomic action; `r` is the request that takes it. */
  datatype Event =
    | Arrive(limits: seq<Limit>)
    | Fetch(r: nat)
    | Increment(r: nat)
    | DecideOn(r: nat, unitDelay: real)
    | Wake(r: nat)
    | Cancel(r: nat)            // the request is dropped while it sleeps or after it was admitted
    | Log(r: nat)               // the logging hook takes the guards out of the context
    | ReleaseOne(r: nat, k: nat)
    | End(r: nat)

  predicate Enabled(sys: Sys, e: Event) {
    match e
    case Arrive(_) => true
    case Fetch(r) => r < |sys.reqs| && sys.reqs[r].phase.Fetching?
    case Increment(r) => r < |sys.reqs| && sys.reqs[r].phase.Incrementing?
    case DecideOn(r, _) => r < |sys.reqs| && sys.reqs[r].phase.Deciding?
    case Wake(r) => r < |sys.reqs| && sys.reqs[r].phase.Sleeping?
    case Cancel(r) => r < |sys.reqs| && (sys.reqs[r].phase.Sleeping? || sys.reqs[r].phase.Admitted?)
    case Log(r) => r < |sys.reqs| && sys.reqs[r].phase.Admitted?
    case ReleaseOne(r, k) => r < |sys.reqs| && sys.reqs[r].phase.Releasing? && k < |sys.reqs[r].guards|
    case End(r) => r < |sys.reqs| && sys.reqs[r].phase.Releasing? && sys.reqs[r].guards == []
  }

  function Idle(counts: seq<nat>): nat -> bool {
    (sid: nat) => sid < |counts| && counts[sid] == 0
  }

  /** Looks up the counter for `key`, creating it in the admitted slot when that is vacant. */
  function GetOrInsertCounter(hash: string -> nat, sys: Sys, key: string): (Sys, nat)
    requires |sys.tables| == LIMIT_SHARDS
  {
    var t := ShardIdx(hash, key);
    var (admitted, slot) := Admit(sys.tables[t], key, LIMIT_CONN_OVERFLOW, Idle(sys.counts), PushBack);
    CounterIn(sys, t, admitted, slot)
  }

  /** The counter in the admitted slot of shard `t`. */
  function CounterIn(sys: Sys, t: nat, admitted: ShardState<string, nat>, slot: string): (Sys, nat)
    requires t < |sys.tables|
  {
    if slot in admitted.entries then (sys.(tables := sys.tables[t := admitted]), admitted.entries[slot])
    else
      var sid: nat := |sys.counts|;
      (sys.(tables := sys.tables[t := ShardState(admitted.order, admitted.entries[slot := sid])],
            counts := sys.counts + [0], owners := sys.owners + [Owner(t, slot)]), sid)
  }

  /** The phase after limit `i` has been passed with a guard. */
  function Advance(limits: seq<Limit>, i: nat): Phase {
    if i + 1 < |limits| then Fetching(i + 1) else Admitted
  }

  ghost predicate WellFormedReq(r: Req, ids: nat) {
    && (forall k :: 0 <= k < |r.guards| ==> r.guards[k] < ids)
    && (match r.phase
        case Fetching(i) => i < |r.limits|
        case Incrementing(i, sid) => i < |r.limits| && sid < ids
        case Deciding(i, sid, _) => i < |r.limits| && sid < ids
        case Sleeping(i, sid) => i < |r.limits| && sid < ids
        case Ended => r.guards == []
        case _ => true)
  }

  ghost predicate RefersBelow(entries: map<string, nat>, ids: nat) {
    forall k :: k in entries ==> entries[k] < ids
  }

  ghost predicate AllWellFormed(reqs: seq<Req>, ids: nat) {
    forall i :: 0 <= i < |reqs| ==> WellFormedReq(reqs[i], ids)
  }

  ghost predicate WellFormed(sys: Sys) {
    && |sys.tables| == LIMIT_SHARDS
    && (forall t :: 0 <= t < LIMIT_SHARDS ==> RefersBelow(sys.tables[t].entries, |sys.counts|))
    && AllWellFormed(sys.reqs, |sys.counts|)
  }

  function SetReq(sys: Sys, r: nat, req: Req): Sys
    requires r < |sys.reqs|
  {
    sys.(reqs := sys.reqs[r := req])
  }

  function Step(hash: string -> nat, sys: Sys, e: Event): Sys
    requires WellFormed(sys) && Enabled(sys, e)
    requires SlotsHeld(sys)
  {
    match e
    case Arrive(limits) =>
      sys.(reqs := sys.reqs + [Req(limits, if limits == [] then Admitted else Fetching(0), [])])
    case Fetch(r) =>
      var req := sys.reqs[r];
      var i := req.phase.i;
      var (sys', sid) := GetOrInsertCounter(hash, sys, req.limits[i].key);
      SetReq(sys', r, req.(phase := Incrementing(i, sid)))
    case Increment(r) =>
      var req := sys.reqs[r];
      var Incrementing(i, sid) := req.phase;
      var count := sys.counts[sid] + 1;
      SetReq(sys.(counts := sys.counts[sid := count]), r, req.(phase := Deciding(i, sid, count)))
    case DecideOn(r, unitDelay) =>
      var req := sys.reqs[r];
      var Deciding(i, sid, count) := req.phase;
      (match Decide(count, req.limits[i].conn, req.limits[i].burst, unitDelay)
       case Pass => SetReq(sys, r, req.(phase := Advance(req.limits, i), guards := req.guards + [sid]))
       case Delay(_) => SetReq(sys, r, req.(phase := Sleeping(i, sid)))
       case Reject =>
         HolderCounted(sys, r, sid);
         SetReq(sys.(counts := sys.counts[sid := sys.counts[sid] - 1]), r, req.(phase := Releasing)))
    case Wake(r) =>
      var req := sys.reqs[r];
      var Sleeping(i, sid) := req.phase;
      SetReq(sys, r, req.(phase := Advance(req.limits, i), guards := req.guards + [sid]))
    case Cancel(r) =>
      var req := sys.reqs[r];
      var local := if req.phase.Sleeping? then [req.phase.sid] else [];
      SetReq(sys, r, req.(phase := Releasing, guards := req.guards + local))
    case Log(r) =>
      SetReq(sys, r, sys.reqs[r].(phase := Releasing))
    case ReleaseOne(r, k) =>
      var req := sys.reqs[r];
      var sid := req.guards[k];
      HolderCounted(sys, r, sid);
      SetReq(sys.(counts := sys.counts[sid := sys.counts[sid] - 1]), r,
             req.(guards := req.guards[..k] + req.guards[k+1..]))
    case End(r) =>
      SetReq(sys, r, sys.reqs[r].(phase := Ended))
  }

  // ----- slots are conserved -----

  function Occurrences(s: seq<nat>, x: nat): nat {
    if s == [] then 0 else Occurrences(s[..|s| - 1], x) + if s[|s| - 1] == x then 1 else 0
  }

  /** The slots of `sid` one request stands for: its unreleased guards and its undecided increment. */
  function HeldBy(req: Req, sid: nat): nat {
    Occurrences(req.guards, sid)
    + if (req.phase.Deciding? || req.phase.Sleeping?) && req.phase.sid == sid then 1 else 0
  }

  function Total(reqs: seq<Req>, f: Req -> nat): nat {
    if reqs == [] then 0 else Total(reqs[..|reqs| - 1], f) + f(reqs[|reqs| - 1])
  }

  function Holds(sid: nat): Req -> nat {
    req => HeldBy(req, sid)
  }

  function Held(sys: Sys, sid: nat): nat {
    Total(sys.reqs, Holds(sid))
  }

  /** Every counter equals the unreleased guards plus the undecided increments that refer to it. */
  ghost predicate SlotsHeld(sys: Sys) {
    forall sid :: 0 <= sid < |sys.counts| ==> sys.counts[sid] == Held(sys, sid)
  }

  lemma {:induction false} TotalUpdate(reqs: seq<Req>, r: nat, req: Req, f: Req -> nat)
    requires r < |reqs|
    ensures Total(reqs[r := req], f) + f(reqs[r]) == Total(reqs, f) + f(req)
  {
    var n := |reqs| - 1;
    if r < n {
      TotalUpdate(reqs[..n], r, req, f);
      assert reqs[r := req][..n] == reqs[..n][r := req];
    } else {
      assert reqs[r := req][..n] == reqs[..n];
    }
  }

  lemma {:induction false} TotalCovers(reqs: seq<Req>, r: nat, f: Req -> nat)
    requires r < |reqs|
    ensures f(reqs[r]) <= Total(reqs, f)
  {
    if r < |reqs| - 1 {
      TotalCovers(reqs[..|reqs| - 1], r, f);
    }
  }

  lemma {:induction false} OccurrenceAt(s: seq<nat>, k: nat)
    requires k < |s|
    ensures Occurrences(s, s[k]) >= 1
  {
    if k < |s| - 1 {
      OccurrenceAt(s[..|s| - 1], k);
    }
  }

  /** A slot that is about to be given back is counted, so the counter does not go below zero. */
  lemma {:induction false} HolderCounted(sys: Sys, r: nat, sid: nat)
    requires SlotsHeld(sys) && r < |sys.reqs| && sid < |sys.counts|
    requires sid in sys.reqs[r].guards || (sys.reqs[r].phase.Deciding? && sys.reqs[r].phase.sid == sid)
    ensures sys.counts[sid] >= 1
  {
    TotalCovers(sys.reqs, r, Holds(sid));
    if sid in sys.reqs[r].guards {
      var k :| 0 <= k < |sys.reqs[r].guards| && sys.reqs[r].guards[k] == sid;
      OccurrenceAt(sys.reqs[r].guards, k);
    }
  }

  lemma {:induction false} OccurrencesRemoved(s: seq<nat>, k: nat, x: nat)
    requires k < |s|
    ensures Occurrences(s[..k] + s[k+1..], x) + (if s[k] == x then 1 else 0) == Occurrences(s, x)
  {
    var n := |s| - 1;
    var rest := s[..k] + s[k+1..];
    if k == n {
      assert rest == s[..n];
    } else {
      OccurrencesRemoved(s[..n], k, x);
      assert rest[..n-1] == s[..n][..k] + s[..n][k+1..];
    }
  }

  lemma {:induction false} OccurrencesAbsent(s: seq<nat>, x: nat)
    requires x !in s
    ensures Occurrences(s, x) == 0
  {
    if s != [] {
      OccurrencesAbsent(s[..|s| - 1], x);
    }
  }

  lemma {:induction false} NobodyHolds(reqs: seq<Req>, sid: nat)
    requires AllWellFormed(reqs, sid)
    ensures Total(reqs, Holds(sid)) == 0
  {
    if reqs != [] {
      var last := reqs[|reqs| - 1];
      NobodyHolds(reqs[..|reqs| - 1], sid);
      OccurrencesAbsent(last.guards, sid);
    }
  }

  /** Replacing one request moves a counter by as much as the request's own holding of it. */
  lemma {:induction false} ReplaceKeeps(sys: Sys, sys': Sys, r: nat, req: Req)
    requires WellFormed(sys) && SlotsHeld(sys) && r < |sys.reqs|
    requires sys'.reqs == sys.reqs[r := req] && |sys'.counts| == |sys.counts|
    requires WellFormedReq(req, |sys.counts|) && sys'.tables == sys.tables
    requires forall sid :: 0 <= sid < |sys.counts| ==>
               sys'.counts[sid] + HeldBy(sys.reqs[r], sid) == sys.counts[sid] + HeldBy(req, sid)
    ensures WellFormed(sys') && SlotsHeld(sys')
  {
    forall sid | 0 <= sid < |sys.counts| ensures sys'.counts[sid] == Held(sys', sid) {
      TotalUpdate(sys.reqs, r, req, Holds(sid));
    }
  }

  /** Looking a counter up keeps every invariant; a new counter starts with no holder. */
  lemma {:induction false} LookupKeeps(hash: string -> nat, sys: Sys, key: string)
    requires WellFormed(sys) && SlotsHeld(sys)
    ensures var (sys', sid) := GetOrInsertCounter(hash, sys, key);
            && WellFormed(sys') && SlotsHeld(sys') && sys'.reqs == sys.reqs
            && sys.counts <= sys'.counts && sid < |sys'.counts|
  {
    var t := ShardIdx(hash, key);
    var (admitted, slot) := Admit(sys.tables[t], key, LIMIT_CONN_OVERFLOW, Idle(sys.counts), PushBack);
    AdmitRefersBelow(sys.tables[t], key, Idle(sys.counts), |sys.counts|);
    if slot !in admitted.entries {
      NobodyHolds(sys.reqs, |sys.counts|);
    }
  }

  lemma {:induction false} AdmitRefersBelow(st: ShardState<string, nat>, key: string, evict: nat -> bool, ids: nat)
    requires RefersBelow(st.entries, ids)
    ensures RefersBelow(Admit(st, key, LIMIT_CONN_OVERFLOW, evict, PushBack).0.entries, ids)
  {
    var entries := Admit(st, key, LIMIT_CONN_OVERFLOW, evict, PushBack).0.entries;
    forall k | k in entries ensures entries[k] < ids {
      SweepSound(st, evict, PushBack, CLEANUP_BUDGET, k);
    }
  }

  lemma {:induction false} HeldAppended(req: Req, req': Req, x: nat, sid: nat)
    requires req'.guards == req.guards + [x]
    ensures Occurrences(req'.guards, sid) == Occurrences(req.guards, sid) + if x == sid then 1 else 0
  {
    assert req'.guards[..|req.guards|] == req.guards;
  }

  lemma {:induction false} DecideKeeps(hash: string -> nat, sys: Sys, e: Event)
    requires WellFormed(sys) && SlotsHeld(sys) && Enabled(sys, e) && e.DecideOn?
    ensures WellFormed(Step(hash, sys, e)) && SlotsHeld(Step(hash, sys, e))
  {
    var sys' := Step(hash, sys, e);
    var req, req' := sys.reqs[e.r], sys'.reqs[e.r];
    var sid := req.phase.sid;
    if req'.guards != req.guards {
      forall x | 0 <= x < |sys.counts| ensures HeldBy(req', x) == HeldBy(req, x) {
        HeldAppended(req, req', sid, x);
      }
    }
    ReplaceKeeps(sys, sys', e.r, req');
  }

  lemma {:induction false} WakeOrCancelKeeps(hash: string -> nat, sys: Sys, e: Event)
    requires WellFormed(sys) && SlotsHeld(sys) && Enabled(sys, e) && (e.Wake? || e.Cancel?)
    ensures WellFormed(Step(hash, sys, e)) && SlotsHeld(Step(hash, sys, e))
  {
    var sys' := Step(hash, sys, e);
    var req, req' := sys.reqs[e.r], sys'.reqs[e.r];
    if req.phase.Sleeping? {
      forall x | 0 <= x < |sys.counts| ensures HeldBy(req', x) == HeldBy(req, x) {
        HeldAppended(req, req', req.phase.sid, x);
      }
    } else {
      assert req'.guards == req.guards;
    }
    ReplaceKeeps(sys, sys', e.r, req');
  }

  lemma {:induction false} ReleaseKeeps(hash: string -> nat, sys: Sys, e: Event)
    requires WellFormed(sys) && SlotsHeld(sys) && Enabled(sys, e) && e.ReleaseOne?
    ensures WellFormed(Step(hash, sys, e)) && SlotsHeld(Step(hash, sys, e))
  {
    var sys' := Step(hash, sys, e);
    var req, req' := sys.reqs[e.r], sys'.reqs[e.r];
    forall sid | 0 <= sid < |sys.counts|
      ensures sys'.counts[sid] + HeldBy(req, sid) == sys.counts[sid] + HeldBy(req', sid)
    {
      OccurrencesRemoved(req.guards, e.k, sid);
    }
    ReplaceKeeps(sys, sys', e.r, req');
  }

  lemma {:induction false} FetchKeeps(hash: string -> nat, sys: Sys, e: Event)
    requires WellFormed(sys) && SlotsHeld(sys) && Enabled(sys, e) && e.Fetch?
    ensures WellFormed(Step(hash, sys, e)) && SlotsHeld(Step(hash, sys, e))
  {
    var req := sys.reqs[e.r];
    var key := req.limits[req.phase.i].key;
    LookupKeeps(hash, sys, key);
    var (found, sid) := GetOrInsertCounter(hash, sys, key);
    SetReqKeeps(found, e.r, req.(phase := Incrementing(req.phase.i, sid)));
  }

  /** A request that changes without taking or giving back a slot. */
  lemma {:induction false} SetReqKeeps(sys: Sys, r: nat, req: Req)
    requires WellFormed(sys) && SlotsHeld(sys) && r < |sys.reqs| && WellFormedReq(req, |sys.counts|)
    requires forall sid :: 0 <= sid < |sys.counts| ==> HeldBy(sys.reqs[r], sid) == HeldBy(req, sid)
    ensures WellFormed(SetReq(sys, r, req)) && SlotsHeld(SetReq(sys, r, req))
  {
    ReplaceKeeps(sys, SetReq(sys, r, req), r, req);
  }

  /** Every action of every request keeps the slots conserved. */
  lemma {:induction false} StepKeeps(hash: string -> nat, sys: Sys, e: Event)
    requires WellFormed(sys) && SlotsHeld(sys) && Enabled(sys, e)
    ensures WellFormed(Step(hash, sys, e)) && SlotsHeld(Step(hash, sys, e))
  {
    match e {
      case Arrive(limits) =>
        assert Step(hash, sys, e).reqs[..|sys.reqs|] == sys.reqs;
      case Fetch(_) => FetchKeeps(hash, sys, e);
      case DecideOn(_, _) => DecideKeeps(hash, sys, e);
      case Wake(_) => WakeOrCancelKeeps(hash, sys, e);
      case Cancel(_) => WakeOrCancelKeeps(hash, sys, e);
      case ReleaseOne(_, _) => ReleaseKeeps(hash, sys, e);
      case _ => ReplaceKeeps(sys, Step(hash, sys, e), e.r, Step(hash, sys, e).reqs[e.r]);
    }
  }

  // ----- every run -----

  function Initial(): Sys {
    Sys(seq(LIMIT_SHARDS, _ => ShardState([], map[])), [], [], [])
  }

  /** The system after a sequence of actions; one that is not enabled does nothing. */
  function Run(hash: string -> nat, events: seq<Event>): (sys: Sys)
    ensures WellFormed(sys) && SlotsHeld(sys)
  {
    if events == [] then Initial()
    else
      var sys := Run(hash, events[..|events| - 1]);
      var e := events[|events| - 1];
      if Enabled(sys, e) then StepKeeps(hash, sys, e); Step(hash, sys, e) else sys
  }

  /** Whatever mix of passes, delays, cancellations, rejections and logging: once all have ended, no slot is taken. */
  lemma {:induction false} CountsReturnToZero(hash: string -> nat, events: seq<Event>, sid: nat)
    requires sid < |Run(hash, events).counts|
    requires forall r :: 0 <= r < |Run(hash, events).reqs| ==> Run(hash, events).reqs[r].phase.Ended?
    ensures Run(hash, events).counts[sid] == 0
  {
    EndedHoldNothing(Run(hash, events).reqs, |Run(hash, events).counts|, sid);
  }

  lemma {:induction false} EndedHoldNothing(reqs: seq<Req>, ids: nat, sid: nat)
    requires AllWellFormed(reqs, ids) && forall r :: 0 <= r < |reqs| ==> reqs[r].phase.Ended?
    ensures Total(reqs, Holds(sid)) == 0
  {
    if reqs != [] {
      EndedHoldNothing(reqs[..|reqs| - 1], ids, sid);
    }
  }

  /** A request is rejected exactly when at least `conn + burst` other slots were taken as it incremented. */
  lemma {:induction false} RejectedIffFull(hash: string -> nat, events: seq<Event>, r: nat, unitDelay: real)
    requires Enabled(Run(hash, events), Increment(r))
    ensures var sys := Run(hash, events);
            var Incrementing(i, sid) := sys.reqs[r].phase;
            var limit := sys.reqs[r].limits[i];
            var count := Step(hash, sys, Increment(r)).reqs[r].phase.count;
            && HeldBy(sys.reqs[r], sid) + 1 == HeldBy(Step(hash, sys, Increment(r)).reqs[r], sid)
            && (Decide(count, limit.conn, limit.burst, unitDelay) == Reject <==> Held(sys, sid) >= Ceiling(limit))
  {
  }

  /** An upper bound on the actions a request still takes. */
  function StagesLeft(req: Req): int {
    var n, held := |req.limits|, |req.guards|;
    match req.phase
    case Fetching(i) => 5 * (n - i) + held + 3
    case Incrementing(i, _) => 5 * (n - i) + held + 2
    case Deciding(i, _, _) => 5 * (n - i) + held + 1
    case Sleeping(i, _) => 5 * (n - i) + held
    case Admitted => held + 2
    case Releasing => held + 1
    case Ended => 0
  }

  /** The event is an action of request `r`. */
  predicate ActsFor(e: Event, r: nat) {
    !e.Arrive? && e.r == r
  }

  /** Main result on termination: a request that has not ended can act, and each of its actions brings its end nearer. */
  lemma {:induction false} EveryRequestEnds(hash: string -> nat, events: seq<Event>, r: nat, e: Event)
    requires r < |Run(hash, events).reqs|
    ensures StagesLeft(Run(hash, events).reqs[r]) >= 0
    ensures Run(hash, events).reqs[r].phase.Ended? <==> forall a :: ActsFor(a, r) ==> !Enabled(Run(hash, events), a)
    ensures Run(hash, events).reqs[r].phase.Sleeping? || Run(hash, events).reqs[r].phase.Admitted? ==>
              Enabled(Run(hash, events), Cancel(r))
    ensures Enabled(Run(hash, events), e) && ActsFor(e, r) ==>
              |Step(hash, Run(hash, events), e).reqs| == |Run(hash, events).reqs|
              && StagesLeft(Step(hash, Run(hash, events), e).reqs[r]) < StagesLeft(Run(hash, events).reqs[r])
  {
    var sys := Run(hash, events);
    assert WellFormedReq(sys.reqs[r], |sys.counts|);
    var own := OwnAction(sys, r);
    assert !sys.reqs[r].phase.Ended? ==> ActsFor(own, r) && Enabled(sys, own);
    if Enabled(sys, e) && ActsFor(e, r) {
      StepReplaces(hash, sys, e);
      ActionDescends(hash, sys, e);
    }
  }

  function OwnAction(sys: Sys, r: nat): Event
    requires r < |sys.reqs|
  {
    match sys.reqs[r].phase
    case Fetching(_) => Fetch(r)
    case Incrementing(_, _) => Increment(r)
    case Deciding(_, _, _) => DecideOn(r, 0.0)
    case Sleeping(_, _) => Wake(r)
    case Admitted => Log(r)
    case Releasing => if sys.reqs[r].guards == [] then End(r) else ReleaseOne(r, 0)
    case Ended => End(r)
  }

  lemma {:induction false} ActionDescends(hash: string -> nat, sys: Sys, e: Event)
    requires WellFormed(sys) && SlotsHeld(sys) && Enabled(sys, e) && !e.Arrive?
    requires WellFormedReq(sys.reqs[e.r], |sys.counts|) && e.r < |Step(hash, sys, e).reqs|
    ensures StagesLeft(Step(hash, sys, e).reqs[e.r]) < StagesLeft(sys.reqs[e.r])
  {
  }

  /** What the decision does: a rejected request gives its slot back, a delayed one sleeps, and the others hold a guard. */
  lemma {:induction false} DecisionTakesEffect(hash: string -> nat, events: seq<Event>, r: nat, unitDelay: real)
    requires Enabled(Run(hash, events), DecideOn(r, unitDelay))
    ensures var sys := Run(hash, events);
            var sys' := Step(hash, sys, DecideOn(r, unitDelay));
            var req, req' := sys.reqs[r], sys'.reqs[r];
            var Deciding(i, sid, count) := req.phase;
            var limit := req.limits[i];
            && (req'.phase.Releasing? <==> count > Ceiling(limit))
            && (req'.phase == Sleeping(i, sid) <==> limit.conn < count <= Ceiling(limit))
            && (req'.guards == req.guards + [sid] <==> count <= limit.conn)
            && (count > Ceiling(limit) ==> sys.counts[sid] >= 1 && sys'.counts == sys.counts[sid := sys.counts[sid] - 1])
            && (count <= Ceiling(limit) ==> sys'.counts == sys.counts)
  {
    var sid := Run(hash, events).reqs[r].phase.sid;
    HolderCounted(Run(hash, events), r, sid);
    assert |Run(hash, events).reqs[r].guards + [sid]| == |Run(hash, events).reqs[r].guards| + 1;
  }

  // ----- the ceiling -----

  /** Guards on `sid`, asleep or not. */
  function GuardsOn(sid: nat): Req -> nat {
    (req: Req) => Occurrences(req.guards, sid) + if req.phase.Sleeping? && req.phase.sid == sid then 1 else 0
  }

  /** Guards on `sid`, and undecided increments that saw a count within `ceiling`. */
  function AdmissibleOn(sid: nat, ceiling: nat): Req -> nat {
    (req: Req) => Occurrences(req.guards, sid)
           + if (req.phase.Sleeping? && req.phase.sid == sid)
                || (req.phase.Deciding? && req.phase.sid == sid && req.phase.count <= ceiling) then 1 else 0
  }

  lemma {:induction false} TotalMonotone(reqs: seq<Req>, f: Req -> nat, g: Req -> nat)
    requires forall req :: f(req) <= g(req)
    ensures Total(reqs, f) <= Total(reqs, g)
  {
    if reqs != [] {
      TotalMonotone(reqs[..|reqs| - 1], f, g);
    }
  }

  /** The decision taken by `e`, if it is one about `sid`, uses a limit of at most `ceiling`. */
  predicate DecidesWithin(sys: Sys, e: Event, sid: nat, ceiling: nat) {
    e.DecideOn? && Enabled(sys, e) && sys.reqs[e.r].phase.sid == sid ==>
      sys.reqs[e.r].phase.i < |sys.reqs[e.r].limits| && Ceiling(sys.reqs[e.r].limits[sys.reqs[e.r].phase.i]) <= ceiling
  }

  /** Every action but an increment moves no slot into the ceiling. */
  lemma {:induction false} ActionAddsNoGuard(hash: string -> nat, sys: Sys, e: Event, sid: nat, ceiling: nat)
    requires WellFormed(sys) && SlotsHeld(sys) && Enabled(sys, e) && DecidesWithin(sys, e, sid, ceiling)
    requires !e.Arrive? && !e.Increment?
    ensures var f := AdmissibleOn(sid, ceiling);
            f(Step(hash, sys, e).reqs[e.r]) <= f(sys.reqs[e.r])
  {
    var req, req' := sys.reqs[e.r], Step(hash, sys, e).reqs[e.r];
    if e.ReleaseOne? {
      OccurrencesRemoved(req.guards, e.k, sid);
    } else {
      GuardsGrow(req, req', sid);
    }
  }

  /** An increment that sees a count within the ceiling was preceded by fewer holders than that. */
  lemma {:induction false} IncrementFits(hash: string -> nat, sys: Sys, e: Event, sid: nat, ceiling: nat)
    requires WellFormed(sys) && SlotsHeld(sys) && Enabled(sys, e) && e.Increment?
    ensures var f := AdmissibleOn(sid, ceiling);
            f(Step(hash, sys, e).reqs[e.r]) <= f(sys.reqs[e.r])
            || (f(Step(hash, sys, e).reqs[e.r]) == f(sys.reqs[e.r]) + 1 && Total(sys.reqs, f) < ceiling)
  {
    var phase := sys.reqs[e.r].phase;
    TotalMonotone(sys.reqs, AdmissibleOn(sid, ceiling), Holds(sid));
    if phase.sid == sid {
      assert sys.counts[sid] == Held(sys, sid);
    }
  }

  /** Every action but an arrival replaces the request that takes it. */
  lemma {:induction false} StepReplaces(hash: string -> nat, sys: Sys, e: Event)
    requires WellFormed(sys) && SlotsHeld(sys) && Enabled(sys, e) && !e.Arrive?
    ensures e.r < |sys.reqs| == |Step(hash, sys, e).reqs|
    ensures Step(hash, sys, e).reqs == sys.reqs[e.r := Step(hash, sys, e).reqs[e.r]]
  {
    if e.Fetch? {
      LookupKeeps(hash, sys, sys.reqs[e.r].limits[sys.reqs[e.r].phase.i].key);
    }
  }

  lemma {:induction false} TotalAppended(reqs: seq<Req>, req: Req, f: Req -> nat)
    ensures Total(reqs + [req], f) == Total(reqs, f) + f(req)
  {
    assert (reqs + [req])[..|reqs|] == reqs;
  }

  lemma {:induction false} ArrivalKeepsCeiling(hash: string -> nat, sys: Sys, e: Event, sid: nat, ceiling: nat)
    requires WellFormed(sys) && SlotsHeld(sys) && e.Arrive?
    ensures Total(Step(hash, sys, e).reqs, AdmissibleOn(sid, ceiling)) == Total(sys.reqs, AdmissibleOn(sid, ceiling))
  {
    TotalAppended(sys.reqs, Req(e.limits, if e.limits == [] then Admitted else Fetching(0), []),
                  AdmissibleOn(sid, ceiling));
  }

  /** One request replaced: the total stays within the ceiling if it does not grow or there was room. */
  lemma {:induction false} ReplacedWithin(reqs: seq<Req>, r: nat, req: Req, f: Req -> nat, ceiling: nat)
    requires r < |reqs| && Total(reqs, f) <= ceiling
    requires f(req) <= f(reqs[r]) || (f(req) == f(reqs[r]) + 1 && Total(reqs, f) < ceiling)
    ensures Total(reqs[r := req], f) <= ceiling
  {
    TotalUpdate(reqs, r, req, f);
  }

  lemma {:induction false} StepKeepsCeiling(hash: string -> nat, sys: Sys, e: Event, sid: nat, ceiling: nat)
    requires WellFormed(sys) && SlotsHeld(sys) && Enabled(sys, e) && DecidesWithin(sys, e, sid, ceiling)
    requires Total(sys.reqs, AdmissibleOn(sid, ceiling)) <= ceiling
    ensures Total(Step(hash, sys, e).reqs, AdmissibleOn(sid, ceiling)) <= ceiling
  {
    if e.Arrive? {
      ArrivalKeepsCeiling(hash, sys, e, sid, ceiling);
    } else {
      StepReplaces(hash, sys, e);
      if e.Increment? {
        IncrementFits(hash, sys, e, sid, ceiling);
      } else {
        ActionAddsNoGuard(hash, sys, e, sid, ceiling);
      }
      ReplacedWithin(sys.reqs, e.r, Step(hash, sys, e).reqs[e.r], AdmissibleOn(sid, ceiling), ceiling);
    }
  }

  lemma {:induction false} GuardsGrow(req: Req, req': Req, sid: nat)
    ensures forall x :: req'.guards == req.guards + [x] ==>
              Occurrences(req'.guards, sid) == Occurrences(req.guards, sid) + if x == sid then 1 else 0
    ensures req.guards + [] == req.guards
  {
    forall x | req'.guards == req.guards + [x]
      ensures Occurrences(req'.guards, sid) == Occurrences(req.guards, sid) + if x == sid then 1 else 0
    {
      HeldAppended(req, req', x, sid);
    }
  }

  /**
   If every decision about a counter uses limits with `conn + burst <= ceiling`, no interleaving ever leaves more
   than `ceiling` guards on it.
   */
  lemma {:induction false} GuardsStayBelowCeiling(hash: string -> nat, events: seq<Event>, sid: nat, ceiling: nat)
    requires forall n :: 0 <= n < |events| ==> DecidesWithin(Run(hash, events[..n]), events[n], sid, ceiling)
    ensures Total(Run(hash, events).reqs, AdmissibleOn(sid, ceiling)) <= ceiling
    ensures Total(Run(hash, events).reqs, GuardsOn(sid)) <= ceiling
  {
    if events != [] {
      var m := |events| - 1;
      forall n | 0 <= n < m ensures DecidesWithin(Run(hash, events[..m][..n]), events[..m][n], sid, ceiling) {
        assert events[..m][..n] == events[..n];
      }
      GuardsStayBelowCeiling(hash, events[..m], sid, ceiling);
      var sys := Run(hash, events[..m]);
      assert DecidesWithin(sys, events[m], sid, ceiling);
      if Enabled(sys, events[m]) {
        StepKeepsCeiling(hash, sys, events[m], sid, ceiling);
      }
    }
    GuardsAreAdmissible(hash, events, sid, ceiling);
  }

  lemma {:induction false} GuardsAreAdmissible(hash: string -> nat, events: seq<Event>, sid: nat, ceiling: nat)
    ensures Total(Run(hash, events).reqs, GuardsOn(sid)) <= Total(Run(hash, events).reqs, AdmissibleOn(sid, ceiling))
  {
    TotalMonotone(Run(hash, events).reqs, GuardsOn(sid), AdmissibleOn(sid, ceiling));
  }

  // ----- which counter a request works on -----

  /** A stored key finds the counter stored for it, and nothing else happens to the counters. */
  lemma {:induction false} LookupFindsStored(hash: string -> nat, sys: Sys, key: string)
    requires |sys.tables| == LIMIT_SHARDS && key in sys.tables[ShardIdx(hash, key)].entries
    ensures var (sys', sid) := GetOrInsertCounter(hash, sys, key);
            sid == sys.tables[ShardIdx(hash, key)].entries[key] && sys'.counts == sys.counts
  {
    OwnSlot(sys.tables[ShardIdx(hash, key)], key, LIMIT_CONN_OVERFLOW, Idle(sys.counts), PushBack);
  }

  /** The slot that a lookup of `key` is admitted to. */
  function SlotFor(hash: string -> nat, sys: Sys, key: string): Owner
    requires |sys.tables| == LIMIT_SHARDS
  {
    var t := ShardIdx(hash, key);
    Owner(t, Admit(sys.tables[t], key, LIMIT_CONN_OVERFLOW, Idle(sys.counts), PushBack).1)
  }

  function StoredAt(sys: Sys, o: Owner): Option<nat>
    requires o.shard < |sys.tables|
  {
    Lookup(sys.tables[o.shard], o.slot)
  }

  /** What a lookup does to the slot it is admitted to, and to every other one. */
  lemma {:induction false} LookupAt(hash: string -> nat, sys: Sys, key: string, o: Owner)
    requires |sys.tables| == LIMIT_SHARDS && o.shard < LIMIT_SHARDS
    ensures var (sys', sid) := GetOrInsertCounter(hash, sys, key);
            && |sys'.tables| == LIMIT_SHARDS
            && (o == SlotFor(hash, sys, key) ==> StoredAt(sys', o) == Some(sid))
            && (o != SlotFor(hash, sys, key) ==> StoredAt(sys', o) == StoredAt(sys, o) || StoredAt(sys', o) == None)
            && (StoredAt(sys, o).Some? && StoredAt(sys', o) != StoredAt(sys, o) ==>
                  Idle(sys.counts)(StoredAt(sys, o).value))
  {
    var t := ShardIdx(hash, key);
    SweepSound(sys.tables[t], Idle(sys.counts), PushBack, CLEANUP_BUDGET, o.slot);
  }

  /** It yields the counter its slot had, or a new one that belongs to the slot. */
  lemma {:induction false} LookupYields(hash: string -> nat, sys: Sys, key: string)
    requires |sys.tables| == LIMIT_SHARDS
    ensures var (sys', sid) := GetOrInsertCounter(hash, sys, key);
            || (sys'.owners == sys.owners && sys'.counts == sys.counts
                && StoredAt(sys, SlotFor(hash, sys, key)) == Some(sid))
            || (sys'.owners == sys.owners + [SlotFor(hash, sys, key)] && sys'.counts == sys.counts + [0]
                && sid == |sys.counts|)
  {
    var t := ShardIdx(hash, key);
    SweepSound(sys.tables[t], Idle(sys.counts), PushBack, CLEANUP_BUDGET, SlotFor(hash, sys, key).slot);
  }

  /** Every stored counter belongs to the slot it is stored in. */
  ghost predicate Filed(sys: Sys) {
    && |sys.tables| == LIMIT_SHARDS && |sys.owners| == |sys.counts|
    && forall o: Owner :: o.shard < LIMIT_SHARDS && StoredAt(sys, o).Some? ==>
         StoredAt(sys, o).value < |sys.owners| && sys.owners[StoredAt(sys, o).value] == o
  }

  /** Counter `sid` belongs to the slot of the limit's key, or to the overflow slot of its shard. */
  ghost predicate Serves(hash: string -> nat, owners: seq<Owner>, sid: nat, l: Limit) {
    && sid < |owners| && owners[sid].shard == ShardIdx(hash, l.key)
    && (owners[sid].slot == l.key || owners[sid].slot == LIMIT_CONN_OVERFLOW)
  }

  ghost predicate ServesEach(hash: string -> nat, owners: seq<Owner>, guards: seq<nat>, limits: seq<Limit>) {
    |guards| <= |limits| && forall j :: 0 <= j < |guards| ==> Serves(hash, owners, guards[j], limits[j])
  }

  /** Until it is released a request holds one guard for each limit it has passed, on a counter of that limit. */
  ghost predicate Fits(hash: string -> nat, owners: seq<Owner>, req: Req) {
    match req.phase
    case Releasing => true
    case Ended => true
    case Admitted => ServesEach(hash, owners, req.guards, req.limits) && |req.guards| == |req.limits|
    case Fetching(i) => ServesEach(hash, owners, req.guards, req.limits) && |req.guards| == i < |req.limits|
    case _ =>
      && ServesEach(hash, owners, req.guards, req.limits) && |req.guards| == req.phase.i < |req.limits|
      && Serves(hash, owners, req.phase.sid, req.limits[req.phase.i])
  }

  ghost predicate AllFit(hash: string -> nat, sys: Sys) {
    forall r :: 0 <= r < |sys.reqs| ==> Fits(hash, sys.owners, sys.reqs[r])
  }

  lemma {:induction false} FitsLater(hash: string -> nat, owners: seq<Owner>, owners': seq<Owner>, req: Req)
    requires owners <= owners' && Fits(hash, owners, req)
    ensures Fits(hash, owners', req)
  {
  }

  lemma {:induction false} LookupFiles(hash: string -> nat, sys: Sys, key: string, l: Limit)
    requires Filed(sys) && l.key == key
    ensures var (sys', sid) := GetOrInsertCounter(hash, sys, key);
            && Filed(sys') && sys.owners <= sys'.owners && sys'.reqs == sys.reqs
            && Serves(hash, sys'.owners, sid, l)
            && sid < |sys'.owners| && sys'.owners[sid] == SlotFor(hash, sys, key)
  {
    var (sys', sid) := GetOrInsertCounter(hash, sys, key);
    LookupYields(hash, sys, key);
    forall o: Owner | o.shard < LIMIT_SHARDS && StoredAt(sys', o).Some?
      ensures StoredAt(sys', o).value < |sys'.owners| && sys'.owners[StoredAt(sys', o).value] == o
    {
      LookupAt(hash, sys, key, o);
    }
  }

  lemma {:induction false} FetchFits(hash: string -> nat, sys: Sys, e: Event)
    requires WellFormed(sys) && SlotsHeld(sys) && Enabled(sys, e) && e.Fetch?
    requires Filed(sys) && Fits(hash, sys.owners, sys.reqs[e.r])
    ensures Fits(hash, Step(hash, sys, e).owners, Step(hash, sys, e).reqs[e.r])
    ensures sys.owners <= Step(hash, sys, e).owners && Filed(Step(hash, sys, e))
  {
    var req := sys.reqs[e.r];
    var l := req.limits[req.phase.i];
    LookupFiles(hash, sys, l.key, l);
    FitsLater(hash, sys.owners, Step(hash, sys, e).owners, req);
    var sys' := Step(hash, sys, e);
    var found := GetOrInsertCounter(hash, sys, l.key).0;
    assert forall o: Owner :: o.shard < LIMIT_SHARDS ==> StoredAt(sys', o) == StoredAt(found, o);
  }

  /** What any other step leaves of its request still fits; nothing changes in the tables. */
  lemma {:induction false} MoverFits(hash: string -> nat, sys: Sys, e: Event)
    requires WellFormed(sys) && SlotsHeld(sys) && Enabled(sys, e) && !e.Arrive? && !e.Fetch?
    requires Fits(hash, sys.owners, sys.reqs[e.r])
    ensures e.r < |Step(hash, sys, e).reqs| && Fits(hash, sys.owners, Step(hash, sys, e).reqs[e.r])
  {
    var req := sys.reqs[e.r];
    if e.DecideOn? || e.Wake? {
      GuardAdded(hash, sys.owners, req.guards, req.phase.sid, req.limits);
    }
  }

  lemma {:induction false} GuardAdded(hash: string -> nat, owners: seq<Owner>, guards: seq<nat>, sid: nat,
                                      limits: seq<Limit>)
    requires ServesEach(hash, owners, guards, limits) && |guards| < |limits|
    requires Serves(hash, owners, sid, limits[|guards|])
    ensures ServesEach(hash, owners, guards + [sid], limits)
  {
  }

  lemma {:induction false} SameTablesFiled(sys: Sys, sys': Sys)
    requires Filed(sys) && sys'.tables == sys.tables && sys'.owners == sys.owners && |sys'.counts| == |sys.counts|
    ensures Filed(sys')
  {
    assert forall o: Owner :: o.shard < LIMIT_SHARDS ==> StoredAt(sys', o) == StoredAt(sys, o);
  }

  lemma {:induction false} OtherStepsKeepTables(hash: string -> nat, sys: Sys, e: Event)
    requires WellFormed(sys) && SlotsHeld(sys) && Enabled(sys, e) && !e.Fetch?
    ensures var sys' := Step(hash, sys, e);
            sys'.tables == sys.tables && sys'.owners == sys.owners && |sys'.counts| == |sys.counts|
  {
  }

  lemma {:induction false} StepFiles(hash: string -> nat, sys: Sys, e: Event)
    requires WellFormed(sys) && SlotsHeld(sys) && Enabled(sys, e) && Filed(sys) && AllFit(hash, sys)
    ensures Filed(Step(hash, sys, e)) && AllFit(hash, Step(hash, sys, e)) && sys.owners <= Step(hash, sys, e).owners
  {
    var sys' := Step(hash, sys, e);
    if !e.Fetch? {
      OtherStepsKeepTables(hash, sys, e);
      SameTablesFiled(sys, sys');
    }
    if !e.Arrive? {
      StepReplaces(hash, sys, e);
      assert Fits(hash, sys.owners, sys.reqs[e.r]);
      if e.Fetch? {
        FetchFits(hash, sys, e);
      } else {
        MoverFits(hash, sys, e);
      }
      forall r | 0 <= r < |sys'.reqs| ensures Fits(hash, sys'.owners, sys'.reqs[r]) {
        if r != e.r {
          FitsLater(hash, sys.owners, sys'.owners, sys.reqs[r]);
        }
      }
    }
  }

  lemma {:induction false} RunFiles(hash: string -> nat, events: seq<Event>)
    ensures Filed(Run(hash, events)) && AllFit(hash, Run(hash, events))
  {
    if events != [] {
      var sys, e := Run(hash, events[..|events| - 1]), events[|events| - 1];
      RunFiles(hash, events[..|events| - 1]);
      if Enabled(sys, e) {
        StepFiles(hash, sys, e);
      }
    }
  }

  /** Main result on enforcement: an admitted request holds one guard for every limit, on a counter of its key. */
  lemma {:induction false} AdmittedHoldsEveryLimit(hash: string -> nat, events: seq<Event>, r: nat)
    requires r < |Run(hash, events).reqs| && Run(hash, events).reqs[r].phase.Admitted?
    ensures var sys := Run(hash, events);
            var req := sys.reqs[r];
            && |req.guards| == |req.limits|
            && forall j :: 0 <= j < |req.guards| ==> Serves(hash, sys.owners, req.guards[j], req.limits[j])
  {
    RunFiles(hash, events);
    assert Fits(hash, Run(hash, events).owners, Run(hash, events).reqs[r]);
  }

  // ----- when a key gets a slot of its own -----

  lemma {:induction false} CounterInKeepsBounds(sys: Sys, t: nat, st: ShardState<string, nat>, key: string)
    requires t < |sys.tables| && WithinBounds(st, LIMIT_CONN_OVERFLOW)
    ensures var (admitted, slot) := Admit(st, key, LIMIT_CONN_OVERFLOW, Idle(sys.counts), PushBack);
            t < |CounterIn(sys, t, admitted, slot).0.tables|
            && WithinBounds(CounterIn(sys, t, admitted, slot).0.tables[t], LIMIT_CONN_OVERFLOW)
  {
    var (admitted, slot) := Admit(st, key, LIMIT_CONN_OVERFLOW, Idle(sys.counts), PushBack);
    var v := if slot in admitted.entries then admitted.entries[slot] else |sys.counts|;
    AdmitKeepsBounds(st, key, LIMIT_CONN_OVERFLOW, Idle(sys.counts), PushBack, v);
    SameAgain(admitted.entries, slot, v);
  }

  lemma {:induction false} SameAgain<K, V>(entries: map<K, V>, k: K, v: V)
    ensures k in entries && entries[k] == v ==> entries[k := v] == entries
  {
  }

  lemma {:induction false} LookupKeepsBounds(hash: string -> nat, sys: Sys, key: string, t: nat)
    requires |sys.tables| == LIMIT_SHARDS && t < LIMIT_SHARDS && WithinBounds(sys.tables[t], LIMIT_CONN_OVERFLOW)
    ensures WithinBounds(GetOrInsertCounter(hash, sys, key).0.tables[t], LIMIT_CONN_OVERFLOW)
  {
    if t == ShardIdx(hash, key) {
      CounterInKeepsBounds(sys, t, sys.tables[t], key);
    }
  }

  lemma {:induction false} TablesStayBounded(hash: string -> nat, events: seq<Event>, t: nat)
    requires t < LIMIT_SHARDS
    ensures WithinBounds(Run(hash, events).tables[t], LIMIT_CONN_OVERFLOW)
  {
    if events != [] {
      var sys, e := Run(hash, events[..|events| - 1]), events[|events| - 1];
      TablesStayBounded(hash, events[..|events| - 1], t);
      if Enabled(sys, e) {
        if e.Fetch? {
          LookupKeepsBounds(hash, sys, sys.reqs[e.r].limits[sys.reqs[e.r].phase.i].key, t);
        } else {
          OtherStepsKeepTables(hash, sys, e);
        }
      }
    }
  }

  /** Those of the oldest entries that nobody holds. */
  ghost function Unheld(sys: Sys, t: nat): set<string>
    requires t < |sys.tables|
  {
    set k | k in Examined(sys.tables[t].order)
            && (k in sys.tables[t].entries ==> Held(sys, sys.tables[t].entries[k]) == 0)
  }

  lemma {:induction false} UnheldAreEvicted(sys: Sys, t: nat)
    requires WellFormed(sys) && SlotsHeld(sys) && t < LIMIT_SHARDS
    ensures Unheld(sys, t) == Evicted(Examined(sys.tables[t].order), sys.tables[t].entries, Idle(sys.counts))
  {
    forall k | k in sys.tables[t].entries
      ensures Held(sys, sys.tables[t].entries[k]) == 0 <==> Idle(sys.counts)(sys.tables[t].entries[k])
    {
      assert sys.tables[t].entries[k] < |sys.counts|;
    }
  }

  /**
   A lookup finds the key in a slot of its own exactly when the key is stored, or its shard is not full, or retiring
   what nobody holds among the oldest eight makes it so.
   */
  lemma {:induction false} OwnCounterIffRoom(hash: string -> nat, events: seq<Event>, key: string)
    requires key != LIMIT_CONN_OVERFLOW
    ensures var sys, t := Run(hash, events), ShardIdx(hash, key);
            SlotFor(hash, sys, key) == Owner(t, key) <==>
              || key in sys.tables[t].entries || |sys.tables[t].entries| < PER_SHARD_REGULAR_MAX
              || |sys.tables[t].entries| - |Unheld(sys, t)| < PER_SHARD_REGULAR_MAX
  {
    var sys, t := Run(hash, events), ShardIdx(hash, key);
    TablesStayBounded(hash, events, t);
    UnheldAreEvicted(sys, t);
    OwnSlotIffRoom(sys.tables[t], key, LIMIT_CONN_OVERFLOW, Idle(sys.counts), PushBack);
  }

  // ----- a counter stays in its slot while it is held -----

  lemma {:induction false} StepKeepsHeld(hash: string -> nat, sys: Sys, e: Event, o: Owner)
    requires WellFormed(sys) && SlotsHeld(sys) && Enabled(sys, e) && o.shard < LIMIT_SHARDS
    requires StoredAt(sys, o).Some? && Held(sys, StoredAt(sys, o).value) > 0
    ensures |Step(hash, sys, e).tables| == LIMIT_SHARDS && StoredAt(Step(hash, sys, e), o) == StoredAt(sys, o)
  {
    if e.Fetch? {
      var key := sys.reqs[e.r].limits[sys.reqs[e.r].phase.i].key;
      LookupKeeps(hash, sys, key);
      LookupAt(hash, sys, key, o);
    }
  }

  /** The counter stored for `o` after so many actions. */
  function StoredAfter(hash: string -> nat, events: seq<Event>, o: Owner): nat -> Option<nat>
    requires o.shard < LIMIT_SHARDS
  {
    (n: nat) => if n <= |events| then StoredAt(Run(hash, events[..n]), o) else None
  }

  lemma {:induction false} NextStored(hash: string -> nat, events: seq<Event>, n: nat, o: Owner, sid: nat)
    requires n < |events| && o.shard < LIMIT_SHARDS && StoredAfter(hash, events, o)(n) == Some(sid)
    requires Held(Run(hash, events[..n]), sid) > 0
    ensures StoredAfter(hash, events, o)(n + 1) == Some(sid)
  {
    var sys := Run(hash, events[..n]);
    assert events[..n + 1][..n] == events[..n] && events[..n + 1][n] == events[n];
    if Enabled(sys, events[n]) {
      StepKeepsHeld(hash, sys, events[n], o);
    }
  }

  lemma {:induction false} StaysPut(stored: nat -> Option<nat>, n: nat, m: nat, sid: nat)
    requires n <= m && stored(n) == Some(sid)
    requires forall k: nat :: n <= k < m && stored(k) == Some(sid) ==> stored(k + 1) == Some(sid)
    ensures stored(m) == Some(sid)
  {
    if n < m {
      StaysPut(stored, n, m - 1, sid);
    }
  }

  /** Main result on sharing: while a slot's counter is held it stays there. */
  lemma {:induction false} HeldCounterStays(hash: string -> nat, events: seq<Event>, n: nat, m: nat, o: Owner, sid: nat)
    requires n <= m <= |events| && o.shard < LIMIT_SHARDS && StoredAfter(hash, events, o)(n) == Some(sid)
    requires forall k :: n <= k < m ==> Held(Run(hash, events[..k]), sid) > 0
    ensures StoredAfter(hash, events, o)(m) == Some(sid)
  {
    var stored := StoredAfter(hash, events, o);
    forall k: nat | n <= k < m && stored(k) == Some(sid) ensures stored(k + 1) == Some(sid) {
      NextStored(hash, events, k, o, sid);
    }
    StaysPut(stored, n, m, sid);
  }

  /** A lookup that is admitted to a slot with a counter yields that counter. */
  lemma {:induction false} LookupYieldsStored(hash: string -> nat, events: seq<Event>, key: string, sid: nat)
    requires var sys := Run(hash, events); StoredAt(sys, SlotFor(hash, sys, key)) == Some(sid)
    requires Held(Run(hash, events), sid) > 0
    ensures GetOrInsertCounter(hash, Run(hash, events), key).1 == sid
  {
    var sys := Run(hash, events);
    LookupAt(hash, sys, key, SlotFor(hash, sys, key));
  }

  // ----- the ceiling of a slot -----

  /** The request has a guard on the counter, or is working on it. */
  predicate Uses(req: Req, sid: nat) {
    sid in req.guards
    || ((req.phase.Incrementing? || req.phase.Deciding? || req.phase.Sleeping?) && req.phase.sid == sid)
  }

  /** Every counter of the slot that somebody uses is the one stored there. */
  ghost predicate Settled(sys: Sys, o: Owner)
    requires o.shard < |sys.tables|
  {
    forall r, sid :: 0 <= r < |sys.reqs| && 0 <= sid < |sys.owners| && sys.owners[sid] == o && Uses(sys.reqs[r], sid)
                     ==> StoredAt(sys, o) == Some(sid)
  }

  /** Some request has fetched the counter and not yet incremented it. */
  ghost predicate Fetched(sys: Sys, sid: nat) {
    exists r :: 0 <= r < |sys.reqs| && sys.reqs[r].phase.Incrementing? && sys.reqs[r].phase.sid == sid
  }

  lemma {:induction false} UsesWithoutHolding(sys: Sys, r: nat, sid: nat)
    requires SlotsHeld(sys) && r < |sys.reqs| && sid < |sys.counts| && sys.counts[sid] == 0 && Uses(sys.reqs[r], sid)
    ensures Fetched(sys, sid)
  {
    TotalCovers(sys.reqs, r, Holds(sid));
    if sid in sys.reqs[r].guards {
      var k :| 0 <= k < |sys.reqs[r].guards| && sys.reqs[r].guards[k] == sid;
      OccurrenceAt(sys.reqs[r].guards, k);
    }
  }

  /** A step gives its request no other counter than one it looks up. */
  lemma {:induction false} MoverUses(hash: string -> nat, sys: Sys, e: Event, sid: nat)
    requires WellFormed(sys) && SlotsHeld(sys) && Enabled(sys, e) && !e.Arrive? && e.r < |Step(hash, sys, e).reqs|
    requires Uses(Step(hash, sys, e).reqs[e.r], sid)
    ensures Uses(sys.reqs[e.r], sid)
            || (e.Fetch? && sid == GetOrInsertCounter(hash, sys, sys.reqs[e.r].limits[sys.reqs[e.r].phase.i].key).1)
  {
  }

  /** A step takes a counter out of its slot only when nobody holds it. */
  lemma {:induction false} StepRetiresIdle(hash: string -> nat, sys: Sys, e: Event, o: Owner)
    requires WellFormed(sys) && SlotsHeld(sys) && Enabled(sys, e) && o.shard < LIMIT_SHARDS && StoredAt(sys, o).Some?
    ensures |Step(hash, sys, e).tables| == LIMIT_SHARDS
    ensures StoredAt(Step(hash, sys, e), o) != StoredAt(sys, o) ==>
              StoredAt(sys, o).value < |sys.counts| && sys.counts[StoredAt(sys, o).value] == 0
  {
    if e.Fetch? {
      var key := sys.reqs[e.r].limits[sys.reqs[e.r].phase.i].key;
      LookupAt(hash, sys, key, o);
    }
  }

  /** The counter that a request uses after a step was used before, or is the one it has just been given. */
  lemma {:induction false} UsedBefore(hash: string -> nat, sys: Sys, e: Event, r: nat, sid: nat)
    requires WellFormed(sys) && SlotsHeld(sys) && Enabled(sys, e) && Filed(sys) && AllFit(hash, sys)
    requires r < |Step(hash, sys, e).reqs| && Uses(Step(hash, sys, e).reqs[r], sid)
    requires sid < |Step(hash, sys, e).owners|
    ensures || (r < |sys.reqs| && Uses(sys.reqs[r], sid) && sid < |sys.owners|
                && Step(hash, sys, e).owners[sid] == sys.owners[sid])
            || (Step(hash, sys, e).owners[sid].shard < LIMIT_SHARDS
                && |Step(hash, sys, e).tables| == LIMIT_SHARDS
                && StoredAt(Step(hash, sys, e), Step(hash, sys, e).owners[sid]) == Some(sid))
  {
    StepFiles(hash, sys, e);
    if !e.Arrive? {
      StepReplaces(hash, sys, e);
      if r == e.r {
        MoverUses(hash, sys, e, sid);
      }
      if r == e.r && !Uses(sys.reqs[r], sid) {
        FetchedIsStored(hash, sys, e);
      } else {
        UsesKnown(sys.reqs[r], sid, |sys.owners|);
      }
    }
  }

  lemma {:induction false} UsesKnown(req: Req, sid: nat, ids: nat)
    requires WellFormedReq(req, ids) && Uses(req, sid)
    ensures sid < ids
  {
    if sid in req.guards {
      var k :| 0 <= k < |req.guards| && req.guards[k] == sid;
    }
  }

  lemma {:induction false} FetchedIsStored(hash: string -> nat, sys: Sys, e: Event)
    requires WellFormed(sys) && SlotsHeld(sys) && Enabled(sys, e) && Filed(sys) && e.Fetch?
    ensures var l := sys.reqs[e.r].limits[sys.reqs[e.r].phase.i];
            var sid := GetOrInsertCounter(hash, sys, l.key).1;
            var sys' := Step(hash, sys, e);
            && |sys'.tables| == LIMIT_SHARDS && sid < |sys'.owners| && sys'.owners[sid].shard < LIMIT_SHARDS
            && StoredAt(sys', sys'.owners[sid]) == Some(sid)
  {
    var l := sys.reqs[e.r].limits[sys.reqs[e.r].phase.i];
    LookupFiles(hash, sys, l.key, l);
    LookupAt(hash, sys, l.key, SlotFor(hash, sys, l.key));
  }

  lemma {:induction false} StepSettles(hash: string -> nat, sys: Sys, e: Event, o: Owner)
    requires WellFormed(sys) && SlotsHeld(sys) && Enabled(sys, e) && Filed(sys) && AllFit(hash, sys)
    requires o.shard < LIMIT_SHARDS && Settled(sys, o) && |Step(hash, sys, e).tables| == LIMIT_SHARDS
    requires StoredAt(sys, o).Some? && StoredAt(Step(hash, sys, e), o) != StoredAt(sys, o) ==>
               !Fetched(sys, StoredAt(sys, o).value)
    ensures Settled(Step(hash, sys, e), o)
  {
    var sys' := Step(hash, sys, e);
    forall r, sid
      | 0 <= r < |sys'.reqs| && 0 <= sid < |sys'.owners| && sys'.owners[sid] == o && Uses(sys'.reqs[r], sid)
      ensures StoredAt(sys', o) == Some(sid)
    {
      UsedBefore(hash, sys, e, r, sid);
      if StoredAt(sys', o) != Some(sid) {
        assert StoredAt(sys, o) == Some(sid);
        StepRetiresIdle(hash, sys, e, o);
        UsesWithoutHolding(sys, r, sid);
      }
    }
  }

  /** Action `n` sweeps the slot's counter out between its being fetched and its being incremented. */
  ghost predicate RetiresFetched(hash: string -> nat, events: seq<Event>, n: nat, o: Owner)
    requires n < |events| && o.shard < LIMIT_SHARDS
  {
    var stored := StoredAfter(hash, events, o);
    stored(n).Some? && stored(n + 1) != stored(n) && Fetched(Run(hash, events[..n]), stored(n).value)
  }

  lemma {:induction false} RunSettles(hash: string -> nat, events: seq<Event>, n: nat, o: Owner)
    requires n <= |events| && o.shard < LIMIT_SHARDS
    requires forall k: nat :: k < |events| ==> !RetiresFetched(hash, events, k, o)
    ensures Settled(Run(hash, events[..n]), o)
  {
    if n == 0 {
      assert events[..0] == [];
    } else {
      var sys := Run(hash, events[..n - 1]);
      RunSettles(hash, events, n - 1, o);
      RunFiles(hash, events[..n - 1]);
      assert events[..n][..n - 1] == events[..n - 1] && events[..n][n - 1] == events[n - 1];
      assert !RetiresFetched(hash, events, n - 1, o);
      if Enabled(sys, events[n - 1]) {
        StepFiles(hash, sys, events[n - 1]);
        StepSettles(hash, sys, events[n - 1], o);
      }
    }
  }

  /** How many of the guards are on counters of the slot. */
  function Owned(guards: seq<nat>, owners: seq<Owner>, o: Owner): nat {
    if guards == [] then 0
    else
      Owned(guards[..|guards| - 1], owners, o)
      + if guards[|guards| - 1] < |owners| && owners[guards[|guards| - 1]] == o then 1 else 0
  }

  /** Guards on counters of the slot, asleep or not. */
  function GuardsIn(owners: seq<Owner>, o: Owner): Req -> nat {
    (req: Req) => Owned(req.guards, owners, o)
                  + if req.phase.Sleeping? && req.phase.sid < |owners| && owners[req.phase.sid] == o then 1 else 0
  }

  lemma {:induction false} OwnedIsOccurrences(guards: seq<nat>, owners: seq<Owner>, o: Owner, sid: nat)
    requires sid < |owners| && owners[sid] == o
    requires forall x :: x in guards && x < |owners| && owners[x] == o ==> x == sid
    ensures Owned(guards, owners, o) == Occurrences(guards, sid)
  {
    if guards != [] {
      OwnedIsOccurrences(guards[..|guards| - 1], owners, o, sid);
    }
  }

  lemma {:induction false} NoneOwned(guards: seq<nat>, owners: seq<Owner>, o: Owner)
    requires forall x :: x in guards ==> !(x < |owners| && owners[x] == o)
    ensures Owned(guards, owners, o) == 0
  {
    if guards != [] {
      NoneOwned(guards[..|guards| - 1], owners, o);
    }
  }

  lemma {:induction false} TotalAgrees(reqs: seq<Req>, f: Req -> nat, g: Req -> nat)
    requires forall r :: 0 <= r < |reqs| ==> f(reqs[r]) == g(reqs[r])
    ensures Total(reqs, f) == Total(reqs, g)
  {
    if reqs != [] {
      TotalAgrees(reqs[..|reqs| - 1], f, g);
    }
  }

  function Nothing(): Req -> nat {
    (req: Req) => 0
  }

  lemma {:induction false} TotalNothing(reqs: seq<Req>)
    ensures Total(reqs, Nothing()) == 0
  {
    if reqs != [] {
      TotalNothing(reqs[..|reqs| - 1]);
    }
  }

  /** In a settled slot all guards are on the counter stored there. */
  lemma {:induction false} SettledGuards(sys: Sys, o: Owner)
    requires Filed(sys) && o.shard < LIMIT_SHARDS && Settled(sys, o)
    ensures Total(sys.reqs, GuardsIn(sys.owners, o))
            == match StoredAt(sys, o) case Some(sid) => Total(sys.reqs, GuardsOn(sid)) case None => 0
  {
    match StoredAt(sys, o) {
      case Some(sid) =>
        forall r | 0 <= r < |sys.reqs| ensures GuardsIn(sys.owners, o)(sys.reqs[r]) == GuardsOn(sid)(sys.reqs[r]) {
          assert forall x: nat :: Uses(sys.reqs[r], x) && x < |sys.owners| && sys.owners[x] == o ==> x == sid;
          OwnedIsOccurrences(sys.reqs[r].guards, sys.owners, o, sid);
          assert sys.reqs[r].phase.Sleeping? ==> Uses(sys.reqs[r], sys.reqs[r].phase.sid);
        }
        TotalAgrees(sys.reqs, GuardsIn(sys.owners, o), GuardsOn(sid));
      case None =>
        forall r | 0 <= r < |sys.reqs| ensures GuardsIn(sys.owners, o)(sys.reqs[r]) == Nothing()(sys.reqs[r]) {
          assert forall x: nat :: Uses(sys.reqs[r], x) ==> !(x < |sys.owners| && sys.owners[x] == o);
          NoneOwned(sys.reqs[r].guards, sys.owners, o);
          assert sys.reqs[r].phase.Sleeping? ==> Uses(sys.reqs[r], sys.reqs[r].phase.sid);
        }
        TotalAgrees(sys.reqs, GuardsIn(sys.owners, o), Nothing());
        TotalNothing(sys.reqs);
    }
  }

  /** The decision taken by `e`, if it is one about a counter of the slot, uses a limit of at most `ceiling`. */
  predicate DecidesWithinSlot(sys: Sys, e: Event, o: Owner, ceiling: nat) {
    e.DecideOn? && Enabled(sys, e) && sys.reqs[e.r].phase.sid < |sys.owners|
    && sys.owners[sys.reqs[e.r].phase.sid] == o ==>
      sys.reqs[e.r].phase.i < |sys.reqs[e.r].limits| && Ceiling(sys.reqs[e.r].limits[sys.reqs[e.r].phase.i]) <= ceiling
  }

  function OwnersAfter(hash: string -> nat, events: seq<Event>): nat -> seq<Owner> {
    (n: nat) => if n <= |events| then Run(hash, events[..n]).owners else []
  }

  lemma {:induction false} NextOwners(hash: string -> nat, events: seq<Event>, n: nat)
    requires n < |events|
    ensures OwnersAfter(hash, events)(n) <= OwnersAfter(hash, events)(n + 1)
  {
    assert events[..n + 1][..n] == events[..n] && events[..n + 1][n] == events[n];
    RunFiles(hash, events[..n]);
    if Enabled(Run(hash, events[..n]), events[n]) {
      StepFiles(hash, Run(hash, events[..n]), events[n]);
    }
  }

  lemma {:induction false} Grows(owners: nat -> seq<Owner>, n: nat, m: nat)
    requires n <= m && forall k: nat :: k < m ==> owners(k) <= owners(k + 1)
    ensures owners(n) <= owners(m)
  {
    if n < m {
      Grows(owners, n, m - 1);
    }
  }

  lemma {:induction false} OwnersGrow(hash: string -> nat, events: seq<Event>, n: nat)
    requires n <= |events|
    ensures Run(hash, events[..n]).owners <= Run(hash, events).owners
  {
    forall k: nat | k < |events| ensures OwnersAfter(hash, events)(k) <= OwnersAfter(hash, events)(k + 1) {
      NextOwners(hash, events, k);
    }
    Grows(OwnersAfter(hash, events), n, |events|);
    assert events[..|events|] == events;
  }

  /**
   Main result on the ceiling of a slot: unless its counter is swept out between being fetched and being incremented,
   no interleaving leaves more guards on counters of the slot than the largest `conn + burst` decided with there.
   */
  lemma {:induction false} SlotStaysBelowCeiling(hash: string -> nat, events: seq<Event>, o: Owner, ceiling: nat)
    requires o.shard < LIMIT_SHARDS
    requires forall n: nat :: n < |events| ==> !RetiresFetched(hash, events, n, o)
    requires forall n :: 0 <= n < |events| ==> DecidesWithinSlot(Run(hash, events[..n]), events[n], o, ceiling)
    ensures Total(Run(hash, events).reqs, GuardsIn(Run(hash, events).owners, o)) <= ceiling
  {
    var sys := Run(hash, events);
    RunFiles(hash, events);
    RunSettles(hash, events, |events|, o);
    assert events[..|events|] == events;
    SettledGuards(sys, o);
    if StoredAt(sys, o).Some? {
      var sid := StoredAt(sys, o).value;
      forall n | 0 <= n < |events| ensures DecidesWithin(Run(hash, events[..n]), events[n], sid, ceiling) {
        DecidesInSlot(hash, events, n, o, sid, ceiling);
      }
      GuardsStayBelowCeiling(hash, events, sid, ceiling);
    }
  }

  lemma {:induction false} DecidesInSlot(hash: string -> nat, events: seq<Event>, n: nat, o: Owner, sid: nat,
                                         ceiling: nat)
    requires n < |events| && sid < |Run(hash, events).owners| && Run(hash, events).owners[sid] == o
    requires DecidesWithinSlot(Run(hash, events[..n]), events[n], o, ceiling)
    ensures DecidesWithin(Run(hash, events[..n]), events[n], sid, ceiling)
  {
    var sys := Run(hash, events[..n]);
    OwnersGrow(hash, events, n);
    RunFiles(hash, events[..n]);
  }

  /** Limits on `key` allow at most `ceiling`. */
  ghost predicate LimitsWithin(limits: seq<Limit>, key: string, ceiling: nat) {
    forall j :: 0 <= j < |limits| && limits[j].key == key ==> Ceiling(limits[j]) <= ceiling
  }

  lemma {:induction false} LimitsFromArrivals(hash: string -> nat, events: seq<Event>, key: string, ceiling: nat, r: nat)
    requires forall n :: 0 <= n < |events| && events[n].Arrive? ==> LimitsWithin(events[n].limits, key, ceiling)
    requires r < |Run(hash, events).reqs|
    ensures LimitsWithin(Run(hash, events).reqs[r].limits, key, ceiling)
  {
    if events != [] {
      var m := |events| - 1;
      var sys, e := Run(hash, events[..m]), events[m];
      if r < |sys.reqs| {
        LimitsFromArrivals(hash, events[..m], key, ceiling, r);
      }
      if Enabled(sys, e) && !e.Arrive? {
        StepReplaces(hash, sys, e);
        if r == e.r {
          LimitsStay(hash, sys, e);
        }
      }
    }
  }

  lemma {:induction false} LimitsStay(hash: string -> nat, sys: Sys, e: Event)
    requires WellFormed(sys) && SlotsHeld(sys) && Enabled(sys, e) && !e.Arrive?
    ensures e.r < |Step(hash, sys, e).reqs| && Step(hash, sys, e).reqs[e.r].limits == sys.reqs[e.r].limits
  {
    StepReplaces(hash, sys, e);
  }

  /**
   Main result on the ceiling of a key: if every request that names the key allows it at most `ceiling`, then, unless
   its counter is swept out between being fetched and being incremented, no interleaving leaves more than `ceiling`
   guards in the slot of the key.
   */
  lemma {:induction false} KeyStaysBelowCeiling(hash: string -> nat, events: seq<Event>, key: string, ceiling: nat)
    requires key != LIMIT_CONN_OVERFLOW
    requires forall n :: 0 <= n < |events| && events[n].Arrive? ==> LimitsWithin(events[n].limits, key, ceiling)
    requires forall n: nat :: n < |events| ==> !RetiresFetched(hash, events, n, Owner(ShardIdx(hash, key), key))
    ensures Total(Run(hash, events).reqs, GuardsIn(Run(hash, events).owners, Owner(ShardIdx(hash, key), key))) <= ceiling
  {
    var o := Owner(ShardIdx(hash, key), key);
    forall n | 0 <= n < |events| ensures DecidesWithinSlot(Run(hash, events[..n]), events[n], o, ceiling) {
      DecidesWithKey(hash, events[..n], events[n], key, ceiling);
    }
    SlotStaysBelowCeiling(hash, events, o, ceiling);
  }

  lemma {:induction false} DecidesWithKey(hash: string -> nat, events: seq<Event>, e: Event, key: string, ceiling: nat)
    requires key != LIMIT_CONN_OVERFLOW
    requires forall n :: 0 <= n < |events| && events[n].Arrive? ==> LimitsWithin(events[n].limits, key, ceiling)
    ensures DecidesWithinSlot(Run(hash, events), e, Owner(ShardIdx(hash, key), key), ceiling)
  {
    var sys := Run(hash, events);
    if e.DecideOn? && Enabled(sys, e) {
      RunFiles(hash, events);
      assert Fits(hash, sys.owners, sys.reqs[e.r]);
      LimitsFromArrivals(hash, events, key, ceiling, e.r);
    }
  }

  // ----- what a sweep between fetching and incrementing does -----

  function OneShard(): string -> nat {
    (key: string) => 0
  }

  /** Keys of different lengths. */
  function Name(j: nat): string {
    seq(j, _ => 'a')
  }

  function OneOf(j: nat): Limit {
    Limit(Name(j), 1, 0)
  }

  /** Requests for `n` keys, none of which has incremented its counter. */
  function Filling(n: nat): seq<Event> {
    if n == 0 then [] else Filling(n - 1) + [Arrive([OneOf(n - 1)])] + [Fetch(n - 1)]
  }

  lemma {:induction false} OneMoreAction(hash: string -> nat, events: seq<Event>, e: Event)
    requires Enabled(Run(hash, events), e)
    ensures Run(hash, events + [e]) == Step(hash, Run(hash, events), e)
  {
    assert (events + [e])[..|events|] == events;
  }

  /** Request `r` has fetched an idle counter of the empty key. */
  ghost predicate WaitsOn(sys: Sys, r: nat, sid: nat) {
    && r < |sys.reqs| && sys.reqs[r] == Req([OneOf(0)], Incrementing(0, sid), [])
    && sid < |sys.counts| == |sys.owners| && sys.counts[sid] == 0 && sys.owners[sid] == Owner(0, "")
  }

  /** What the shard and the first request look like then. */
  ghost predicate IsFilled(sys: Sys, n: nat) {
    && |sys.tables| == LIMIT_SHARDS && |sys.reqs| == |sys.counts| == |sys.owners| == n && FilledTable(sys.tables[0], n)
    && (forall sid :: 0 <= sid < n ==> sys.counts[sid] == 0)
    && (n > 0 ==> WaitsOn(sys, 0, 0))
  }

  /** `n` shorter names, the empty one first. */
  ghost predicate FilledTable(st: ShardState<string, nat>, n: nat) {
    && |st.order| == |st.entries| == n && Distinct(st.order) && Elements(st.order) == st.entries.Keys
    && (forall key :: key in st.entries || key in st.order ==> |key| < n)
    && (n > 0 ==> st.order[0] == "" && Lookup(st, "") == Some(0))
  }

  function Touched(st: ShardState<string, nat>, key: string): ShardState<string, nat> {
    ShardState(Without(st.order, key) + [key], st.entries)
  }

  /**
   `sys` with one more request, which has been given a new counter in the slot of its key; `st` is what was left of the
   table when the slot was chosen.
   */
  ghost predicate Joins(sys: Sys, sys': Sys, l: Limit, st: ShardState<string, nat>)
    requires |sys.tables| == LIMIT_SHARDS
  {
    && sys'.reqs == sys.reqs + [Req([l], Incrementing(0, |sys.counts|), [])]
    && sys'.counts == sys.counts + [0] && sys'.owners == sys.owners + [Owner(0, l.key)]
    && sys'.tables == sys.tables[0 := ShardState(Without(st.order, l.key) + [l.key],
                                                 st.entries[l.key := |sys.counts|])]
  }

  lemma {:induction false} LookupIsCounterIn(hash: string -> nat, sys: Sys, key: string, admitted: ShardState<string, nat>)
    requires |sys.tables| == LIMIT_SHARDS
    requires Admit(sys.tables[ShardIdx(hash, key)], key, LIMIT_CONN_OVERFLOW, Idle(sys.counts), PushBack)
             == (admitted, key)
    ensures GetOrInsertCounter(hash, sys, key) == CounterIn(sys, ShardIdx(hash, key), admitted, key)
  {
  }

  lemma {:induction false} AllInOneShard(key: string)
    ensures ShardIdx(OneShard(), key) == 0
  {
  }

  lemma {:induction false} CreatesCounter(sys: Sys, key: string, st: ShardState<string, nat>)
    requires |sys.tables| == LIMIT_SHARDS && key !in st.entries
    requires Admit(sys.tables[0], key, LIMIT_CONN_OVERFLOW, Idle(sys.counts), PushBack) == (Touched(st, key), key)
    ensures GetOrInsertCounter(OneShard(), sys, key)
            == (sys.(tables := sys.tables[0 := ShardState(Without(st.order, key) + [key],
                                                          st.entries[key := |sys.counts|])],
                     counts := sys.counts + [0], owners := sys.owners + [Owner(0, key)]), |sys.counts|)
  {
    AllInOneShard(key);
    LookupIsCounterIn(OneShard(), sys, key, Touched(st, key));
  }

  lemma {:induction false} FetchJoins(sys: Sys, arrived: Sys, l: Limit, st: ShardState<string, nat>)
    requires WellFormed(sys) && WellFormed(arrived) && SlotsHeld(arrived)
    requires arrived == sys.(reqs := sys.reqs + [Req([l], Fetching(0), [])])
    requires Admit(sys.tables[0], l.key, LIMIT_CONN_OVERFLOW, Idle(sys.counts), PushBack) == (Touched(st, l.key), l.key)
    requires l.key !in st.entries
    ensures Joins(sys, Step(OneShard(), arrived, Fetch(|sys.reqs|)), l, st)
  {
    CreatesCounter(arrived, l.key, st);
    var joined := Req([l], Incrementing(0, |sys.counts|), []);
    assert arrived.reqs[|sys.reqs| := joined] == sys.reqs + [joined];
  }

  /** A request for a new key that is given the slot of that key. */
  lemma {:induction false} NewKey(events: seq<Event>, l: Limit, st: ShardState<string, nat>)
    requires var sys := Run(OneShard(), events);
             Admit(sys.tables[0], l.key, LIMIT_CONN_OVERFLOW, Idle(sys.counts), PushBack) == (Touched(st, l.key), l.key)
    requires l.key !in st.entries
    ensures var sys := Run(OneShard(), events);
            Joins(sys, Run(OneShard(), events + [Arrive([l])] + [Fetch(|sys.reqs|)]), l, st)
  {
    var sys := Run(OneShard(), events);
    OneMoreAction(OneShard(), events, Arrive([l]));
    OneMoreAction(OneShard(), events + [Arrive([l])], Fetch(|sys.reqs|));
    FetchJoins(sys, Run(OneShard(), events + [Arrive([l])]), l, st);
  }

  lemma {:induction false} AdmittedWithRoom(st: ShardState<string, nat>, key: string, evict: nat -> bool)
    requires key !in st.entries && |st.entries| < PER_SHARD_REGULAR_MAX
    ensures Admit(st, key, LIMIT_CONN_OVERFLOW, evict, PushBack) == (Touched(st, key), key)
  {
  }

  lemma {:induction false} AdmittedBySweep(st: ShardState<string, nat>, key: string, evict: nat -> bool)
    requires key !in st.entries && |st.entries| >= PER_SHARD_REGULAR_MAX
    requires |Sweep(st, evict, PushBack, CLEANUP_BUDGET).entries| < PER_SHARD_REGULAR_MAX
    ensures var swept := Sweep(st, evict, PushBack, CLEANUP_BUDGET);
            Admit(st, key, LIMIT_CONN_OVERFLOW, evict, PushBack) == (Touched(swept, key), key) && key !in swept.entries
  {
    SweepShrinks(st, evict, PushBack, CLEANUP_BUDGET);
  }

  lemma {:induction false} NameIsNew(st: ShardState<string, nat>, n: nat)
    requires FilledTable(st, n)
    ensures |Name(n)| == n && Name(n) !in st.entries && Name(n) !in st.order
  {
  }

  lemma {:induction false} NewLast<K, V>(st: ShardState<K, V>, k: K, v: V)
    requires Distinct(st.order) && Elements(st.order) == st.entries.Keys && k !in st.entries
    ensures var st' := ShardState(Without(st.order, k) + [k], st.entries[k := v]);
            && st'.order == st.order + [k] && |st'.entries| == |st.entries| + 1
            && Distinct(st'.order) && Elements(st'.order) == st'.entries.Keys
  {
    assert k in st.order <==> k in Elements(st.order);
    TouchKeepsIndex(st.order, k);
    WithoutAbsent(st.order, k);
    assert st.entries[k := v].Keys == st.entries.Keys + {k};
  }

  lemma {:induction false} ShorterNames(st: ShardState<string, nat>, st': ShardState<string, nat>, n: nat, key: string)
    requires FilledTable(st, n) && |key| == n && (n == 0 ==> key == "")
    requires st'.order == st.order + [key] && st'.entries == st.entries[key := n]
    requires |st'.entries| == n + 1 && Distinct(st'.order) && Elements(st'.order) == st'.entries.Keys
    ensures FilledTable(st', n + 1)
  {
  }

  lemma {:induction false} TableNext(st: ShardState<string, nat>, n: nat)
    requires FilledTable(st, n)
    ensures FilledTable(ShardState(Without(st.order, Name(n)) + [Name(n)], st.entries[Name(n) := n]), n + 1)
  {
    NameIsNew(st, n);
    NewLast(st, Name(n), n);
    ShorterNames(st, ShardState(Without(st.order, Name(n)) + [Name(n)], st.entries[Name(n) := n]), n, Name(n));
  }

  lemma {:induction false} FilledNext(sys: Sys, sys': Sys, n: nat)
    requires IsFilled(sys, n) && Joins(sys, sys', OneOf(n), sys.tables[0])
    ensures IsFilled(sys', n + 1)
  {
    TableNext(sys.tables[0], n);
    assert n == 0 ==> Name(n) == "";
  }

  lemma {:induction false} FillingStep(n: nat)
    requires n < PER_SHARD_REGULAR_MAX && IsFilled(Run(OneShard(), Filling(n)), n)
    ensures IsFilled(Run(OneShard(), Filling(n + 1)), n + 1)
  {
    var sys := Run(OneShard(), Filling(n));
    NameIsNew(sys.tables[0], n);
    AdmittedWithRoom(sys.tables[0], Name(n), Idle(sys.counts));
    NewKey(Filling(n), OneOf(n), sys.tables[0]);
    FilledNext(sys, Run(OneShard(), Filling(n + 1)), n);
  }

  lemma {:induction false} FillingFills(n: nat)
    requires n <= PER_SHARD_REGULAR_MAX
    ensures IsFilled(Run(OneShard(), Filling(n)), n)
  {
    if n > 0 {
      FillingFills(n - 1);
      FillingStep(n - 1);
    }
  }

  /** The sweep for one more key takes out the first one, although its counter has been fetched. */
  lemma {:induction false} SweepMakesRoom(sys: Sys)
    requires WellFormed(sys) && IsFilled(sys, PER_SHARD_REGULAR_MAX)
    ensures var swept := Sweep(sys.tables[0], Idle(sys.counts), PushBack, CLEANUP_BUDGET);
            "" !in swept.entries && |swept.entries| < PER_SHARD_REGULAR_MAX - 1
  {
    var st, evict := sys.tables[0], Idle(sys.counts);
    forall k ensures Evictable(st.entries, k, evict) {
      assert k in st.entries ==> st.entries[k] < |sys.counts| && sys.counts[st.entries[k]] == 0;
    }
    TwoRemovable(st, evict, PushBack);
    SweepRemoves(st, evict, PushBack);
    SweepPushBackExact(st, evict, CLEANUP_BUDGET);
    assert st.order[..CLEANUP_BUDGET][0] == "";
  }

  /** So a second request for the first key is given a second counter. */
  ghost predicate TwoWait(sys: Sys) {
    WaitsOn(sys, 0, 0) && WaitsOn(sys, 256, 256)
  }

  function Refetching(): seq<Event> {
    Filling(255) + [Arrive([OneOf(255)])] + [Fetch(255)] + [Arrive([OneOf(0)])] + [Fetch(256)]
  }

  lemma {:induction false} OneMoreKey(events: seq<Event>)
    requires IsFilled(Run(OneShard(), events), 255)
    ensures var sys, sys' := Run(OneShard(), events), Run(OneShard(), events + [Arrive([OneOf(255)])] + [Fetch(255)]);
            Joins(sys, sys', OneOf(255), Sweep(sys.tables[0], Idle(sys.counts), PushBack, CLEANUP_BUDGET))
  {
    var sys := Run(OneShard(), events);
    NameIsNew(sys.tables[0], 255);
    SweepMakesRoom(sys);
    AdmittedBySweep(sys.tables[0], Name(255), Idle(sys.counts));
    NewKey(events, OneOf(255), Sweep(sys.tables[0], Idle(sys.counts), PushBack, CLEANUP_BUDGET));
  }

  lemma {:induction false} FirstIsGone(sys: Sys, sys': Sys)
    requires WellFormed(sys) && IsFilled(sys, 255)
    requires Joins(sys, sys', OneOf(255), Sweep(sys.tables[0], Idle(sys.counts), PushBack, CLEANUP_BUDGET))
    ensures WaitsOn(sys', 0, 0) && |sys'.reqs| == |sys'.counts| == |sys'.owners| == 256
    ensures |sys'.tables| == LIMIT_SHARDS && "" !in sys'.tables[0].entries
    ensures |sys'.tables[0].entries| < PER_SHARD_REGULAR_MAX
  {
    SweepMakesRoom(sys);
    var swept := Sweep(sys.tables[0], Idle(sys.counts), PushBack, CLEANUP_BUDGET);
    assert |Name(255)| == 255;
    assert swept.entries[Name(255) := 255].Keys == swept.entries.Keys + {Name(255)};
  }

  lemma {:induction false} SecondCounter(sys: Sys, sys': Sys)
    requires |sys.tables| == LIMIT_SHARDS && WaitsOn(sys, 0, 0)
    requires |sys.reqs| == |sys.counts| == |sys.owners| == 256 && Joins(sys, sys', OneOf(0), sys.tables[0])
    ensures TwoWait(sys')
  {
    assert Name(0) == "";
  }

  lemma {:induction false} FirstAgain(events: seq<Event>)
    requires var sys := Run(OneShard(), events);
             && WaitsOn(sys, 0, 0) && |sys.reqs| == |sys.counts| == |sys.owners| == 256
             && "" !in sys.tables[0].entries && |sys.tables[0].entries| < PER_SHARD_REGULAR_MAX
    ensures TwoWait(Run(OneShard(), events + [Arrive([OneOf(0)])] + [Fetch(256)]))
  {
    var sys := Run(OneShard(), events);
    assert Name(0) == "";
    AdmittedWithRoom(sys.tables[0], "", Idle(sys.counts));
    NewKey(events, OneOf(0), sys.tables[0]);
    SecondCounter(sys, Run(OneShard(), events + [Arrive([OneOf(0)])] + [Fetch(256)]));
  }

  lemma {:induction false} ThenTwoWait(events: seq<Event>)
    requires IsFilled(Run(OneShard(), events), 255)
    ensures TwoWait(Run(OneShard(), events + [Arrive([OneOf(255)])] + [Fetch(255)] + [Arrive([OneOf(0)])] + [Fetch(256)]))
  {
    var swept := events + [Arrive([OneOf(255)])] + [Fetch(255)];
    OneMoreKey(events);
    FirstIsGone(Run(OneShard(), events), Run(OneShard(), swept));
    FirstAgain(swept);
  }

  lemma {:induction false} RefetchingWaits()
    ensures TwoWait(Run(OneShard(), Refetching()))
  {
    FillingFills(255);
    ThenTwoWait(Filling(255));
  }

  /** Such a request increments its counter and passes. */
  lemma {:induction false} WaiterPasses(events: seq<Event>, r: nat, sid: nat)
    requires WaitsOn(Run(OneShard(), events), r, sid)
    ensures var sys, sys' := Run(OneShard(), events), Run(OneShard(), events + [Increment(r)] + [DecideOn(r, 1.0)]);
            && sys'.reqs == sys.reqs[r := Req([OneOf(0)], Admitted, [sid])]
            && sys'.counts == sys.counts[sid := 1] && sys'.owners == sys.owners
  {
    OneMoreAction(OneShard(), events, Increment(r));
    OneMoreAction(OneShard(), events + [Increment(r)], DecideOn(r, 1.0));
    assert [] + [sid] == [sid];
  }

  lemma {:induction false} TotalCoversTwo(reqs: seq<Req>, q: nat, r: nat, f: Req -> nat)
    requires q < r < |reqs|
    ensures f(reqs[q]) + f(reqs[r]) <= Total(reqs, f)
  {
    if r < |reqs| - 1 {
      TotalCoversTwo(reqs[..|reqs| - 1], q, r, f);
    } else {
      TotalCovers(reqs[..|reqs| - 1], q, f);
    }
  }

  /** Every request is allowed one at a time. */
  ghost predicate AllowsOne(events: seq<Event>) {
    forall n :: 0 <= n < |events| && events[n].Arrive? ==> LimitsWithin(events[n].limits, "", 1)
  }

  lemma {:induction false} OneMoreAllowed(events: seq<Event>, e: Event)
    requires AllowsOne(events) && (e.Arrive? ==> LimitsWithin(e.limits, "", 1))
    ensures AllowsOne(events + [e])
  {
  }

  lemma {:induction false} FillingAllowsOne(n: nat)
    ensures AllowsOne(Filling(n))
  {
    if n > 0 {
      FillingAllowsOne(n - 1);
      OneMoreAllowed(Filling(n - 1), Arrive([OneOf(n - 1)]));
      OneMoreAllowed(Filling(n - 1) + [Arrive([OneOf(n - 1)])], Fetch(n - 1));
    }
  }

  lemma {:induction false} RefetchingAllowsOne()
    ensures AllowsOne(Refetching())
  {
    FillingAllowsOne(255);
    var a := Filling(255) + [Arrive([OneOf(255)])];
    OneMoreAllowed(Filling(255), Arrive([OneOf(255)]));
    OneMoreAllowed(a, Fetch(255));
    OneMoreAllowed(a + [Fetch(255)], Arrive([OneOf(0)]));
    OneMoreAllowed(a + [Fetch(255)] + [Arrive([OneOf(0)])], Fetch(256));
  }

  lemma {:induction false} BothPass(waiting: seq<Event>) returns (events: seq<Event>)
    requires AllowsOne(waiting) && TwoWait(Run(OneShard(), waiting))
    ensures AllowsOne(events)
    ensures Total(Run(OneShard(), events).reqs, GuardsIn(Run(OneShard(), events).owners, Owner(0, ""))) >= 2
  {
    var first := waiting + [Increment(0)] + [DecideOn(0, 1.0)];
    WaiterPasses(waiting, 0, 0);
    OneMoreAllowed(waiting, Increment(0));
    OneMoreAllowed(waiting + [Increment(0)], DecideOn(0, 1.0));
    events := first + [Increment(256)] + [DecideOn(256, 1.0)];
    WaiterPasses(first, 256, 256);
    OneMoreAllowed(first, Increment(256));
    OneMoreAllowed(first + [Increment(256)], DecideOn(256, 1.0));
    var sys := Run(OneShard(), events);
    TotalCoversTwo(sys.reqs, 0, 256, GuardsIn(sys.owners, Owner(0, "")));
    OneGuard(sys.owners, 0);
    OneGuard(sys.owners, 256);
  }

  lemma {:induction false} OneGuard(owners: seq<Owner>, sid: nat)
    requires sid < |owners| && owners[sid] == Owner(0, "")
    ensures GuardsIn(owners, Owner(0, ""))(Req([OneOf(0)], Admitted, [sid])) == 1
  {
    assert [sid][..|[sid]| - 1] == [] && Owned([], owners, Owner(0, "")) == 0;
    assert Owned([sid], owners, Owner(0, "")) == 1;
  }

  /** Why the ceiling of a key needs that condition: every request allows one at a time, and two hold the key. */
  lemma {:induction false} SweptOutExceedsCeiling() returns (events: seq<Event>)
    ensures forall n :: 0 <= n < |events| && events[n].Arrive? ==> LimitsWithin(events[n].limits, "", 1)
    ensures Total(Run(OneShard(), events).reqs, GuardsIn(Run(OneShard(), events).owners, Owner(0, ""))) >= 2
  {
    RefetchingWaits();
    RefetchingAllowsOne();
    events := BothPass(Refetching());
  }
}
