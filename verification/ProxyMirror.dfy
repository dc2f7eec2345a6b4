/**
 proxy-mirror: the single-flight DNS resolver as a protocol of atomic steps taken by any number of callers, and the
 bounded queue that carries a mirrored request body. Times are whole nanoseconds.
 */
module ProxyMirror {
  import opened Wrappers

  const SECOND: nat := 1_000_000_000
  const MIRROR_DNS_CACHE_TTL: nat := 60 * SECOND
  const MIRROR_DNS_STALE_GRACE: nat := 300 * SECOND
  const MIRROR_QUEUE_CAPACITY: nat := 32

  type Addr = nat
  type Error = nat

  /**
   How a call ends. A served address carries when it was resolved and when it was handed out; both it and an error
   carry how many lookups had been answered by then.
   */
  datatype Outcome =
    | Served(addr: Addr, resolvedAt: nat, servedAt: nat, known: nat)
    | Failed(error: Error, known: nat)
    | Cancelled

  datatype Phase =
    | Start                                    // loop head: about to consult the cache
    | Electing                                 // cache miss: about to compare-and-swap the flag
    | Registering                              // lost the election: about to register for the notification
    | Checking(ticket: nat)                    // registered: about to load the flag
    | Waiting(ticket: nat)                     // awaiting a notification later than the ticket
    | Woken                                    // about to try the cached address within its grace
    | ReadingError                             // about to read the published error
    | Looking                                  // leader: the lookup is running
    | Publishing(result: Result<Addr, Error>)  // leader: about to store the result under the lock
    | Reusing(error: Error)                    // leader: error stored, about to try the cached address
    | Clearing(outcome: Outcome)               // flight dropped: about to clear the flag
    | Notifying(outcome: Outcome)              // flight dropped: about to wake the waiters
    | Done(outcome: Outcome)

  /** A look at the cache that found no address young enough, when so many lookups had been answered. */
  datatype Miss = Miss(at: nat, known: nat)

  /**
   What a caller has seen: whether it has waited for a flight, its last miss of a fresh address, since it was last
   woken its miss of a stale one and how many answers there were when it found no error, and its own lookup's answer.
   */
  datatype Seen = Seen(waited: bool, missed: Option<Miss>, stale: Option<Miss>, calm: Option<nat>,
                       answer: Option<Result<Addr, Error>>)

  /** `lookups` counts how often the caller has started its lookup. */
  datatype Caller = Caller(phase: Phase, lookups: nat, seen: Seen)

  datatype Cache = Cache(addr: Option<Addr>, resolvedAt: Option<nat>, lastError: Option<Error>)

  datatype Answer = Answer(result: Result<Addr, Error>, at: nat)

  /** `answers` is the history of what the lookups delivered, in the order it was published. */
  datatype Sys = Sys(now: nat, inFlight: bool, cache: Cache, notifications: nat, callers: seq<Caller>,
                     answers: seq<Answer>)

  datatype Event =
    | Arrive
    | Tick(span: nat)
    | Step(c: nat)
    | LookupDone(c: nat, result: Result<Addr, Error>)
    | Cancel(c: nat)

  function Age(sys: Sys): nat
    requires sys.cache.resolvedAt.Some?
  {
    if sys.now >= sys.cache.resolvedAt.value then sys.now - sys.cache.resolvedAt.value else 0
  }

  /** The cached address, if it was resolved less than `limit` ago. */
  function Cached(sys: Sys, limit: nat): Option<Outcome> {
    if sys.cache.resolvedAt.Some? && Age(sys) < limit && sys.cache.addr.Some?
    then Some(Served(sys.cache.addr.value, sys.cache.resolvedAt.value, sys.now, |sys.answers|))
    else None
  }

  const STALE_LIMIT: nat := MIRROR_DNS_CACHE_TTL + MIRROR_DNS_STALE_GRACE

  /** Callers can be cancelled only where they await. */
  predicate Enabled(sys: Sys, e: Event) {
    match e
    case Arrive => true
    case Tick(_) => true
    case Step(c) =>
      c < |sys.callers| && !sys.callers[c].phase.Looking? && !sys.callers[c].phase.Done?
      && (sys.callers[c].phase.Waiting? ==> sys.callers[c].phase.ticket < sys.notifications)
    case LookupDone(c, _) => c < |sys.callers| && sys.callers[c].phase.Looking?
    case Cancel(c) => c < |sys.callers| && (sys.callers[c].phase.Looking? || sys.callers[c].phase.Waiting?)
  }

  function Move(sys: Sys, c: nat, phase: Phase): Sys
    requires c < |sys.callers|
  {
    sys.(callers := sys.callers[c := sys.callers[c].(phase := phase)])
  }

  /** The same with what the caller has seen. */
  function MoveSeeing(sys: Sys, c: nat, phase: Phase, seen: Seen): Sys
    requires c < |sys.callers|
  {
    sys.(callers := sys.callers[c := sys.callers[c].(phase := phase, seen := seen)])
  }

  function Next(sys: Sys, e: Event): Sys
    requires Enabled(sys, e)
  {
    match e
    case Arrive => sys.(callers := sys.callers + [Caller(Start, 0, Seen(false, None, None, None, None))])
    case Tick(span) => sys.(now := sys.now + span)
    case LookupDone(c, result) =>
      MoveSeeing(sys, c, Publishing(result), sys.callers[c].seen.(answer := Some(result)))
    case Cancel(c) => Move(sys, c, if sys.callers[c].phase.Looking? then Clearing(Cancelled) else Done(Cancelled))
    case Step(c) =>
      var seen, miss := sys.callers[c].seen, Some(Miss(sys.now, |sys.answers|));
      match sys.callers[c].phase
      case Start =>
        (match Cached(sys, MIRROR_DNS_CACHE_TTL)
         case Some(o) => Move(sys, c, Done(o))
         case None => MoveSeeing(sys, c, Electing, seen.(missed := miss)))
      case Electing =>
        if sys.inFlight then Move(sys, c, Registering)
        else sys.(inFlight := true,
                  callers := sys.callers[c := Caller(Looking, sys.callers[c].lookups + 1, seen)])
      case Registering => Move(sys, c, Checking(sys.notifications))
      case Checking(ticket) => Move(sys, c, if sys.inFlight then Waiting(ticket) else Start)
      case Waiting(_) => MoveSeeing(sys, c, Woken, seen.(waited := true, stale := None, calm := None))
      case Woken =>
        (match Cached(sys, STALE_LIMIT)
         case Some(o) => Move(sys, c, Done(o))
         case None => MoveSeeing(sys, c, ReadingError, seen.(stale := miss)))
      case ReadingError =>
        (match sys.cache.lastError
         case Some(error) => Move(sys, c, Done(Failed(error, |sys.answers|)))
         case None => MoveSeeing(sys, c, Start, seen.(calm := Some(|sys.answers|))))
      case Publishing(Ok(addr)) =>
        Move(sys.(cache := Cache(Some(addr), Some(sys.now), None),
                  answers := sys.answers + [Answer(Ok(addr), sys.now)]),
             c, Clearing(Served(addr, sys.now, sys.now, |sys.answers| + 1)))
      case Publishing(Err(error)) =>
        Move(sys.(cache := sys.cache.(lastError := Some(error)),
                  answers := sys.answers + [Answer(Err(error), sys.now)]),
             c, Reusing(error))
      case Reusing(error) =>
        (match Cached(sys, STALE_LIMIT)
         case Some(o) => Move(sys, c, Clearing(o))
         case None => MoveSeeing(sys, c, Clearing(Failed(error, |sys.answers|)), seen.(stale := miss)))
      case Clearing(o) => Move(sys.(inFlight := false), c, Notifying(o))
      case Notifying(o) => Move(sys.(notifications := sys.notifications + 1), c, Done(o))
  }

  // ----- invariants -----

  /** The caller owns the flight: its lookup is running or its outcome is not yet released. */
  predicate Leads(c: Caller) {
    c.phase.Looking? || c.phase.Publishing? || c.phase.Reusing? || c.phase.Clearing?
  }

  /** The flag is set exactly while one caller leads, and never two at a time. */
  ghost predicate SingleFlight(sys: Sys) {
    && (forall i, j :: 0 <= i < |sys.callers| && 0 <= j < |sys.callers|
                       && Leads(sys.callers[i]) && Leads(sys.callers[j])
                       ==> i == j)
    && (sys.inFlight <==> exists i :: 0 <= i < |sys.callers| && Leads(sys.callers[i]))
  }

  /** A caller that may still be elected has not used its lookup; nobody uses it twice. */
  ghost predicate LeadsOnce(sys: Sys) {
    forall i :: 0 <= i < |sys.callers| ==>
      var c := sys.callers[i];
      && c.lookups <= 1
      && (MayBeElected(c) ==> c.lookups == 0)
  }

  predicate MayBeElected(c: Caller) {
    c.phase.Start? || c.phase.Electing? || c.phase.Registering? || c.phase.Checking? || c.phase.Waiting?
    || c.phase.Woken? || c.phase.ReadingError?
  }

  /** A waiter whose notification has not come is owed one: a flight is up, or its owner is about to notify. */
  ghost predicate NobodyStranded(sys: Sys) {
    forall i :: 0 <= i < |sys.callers| ==> Owed(sys, sys.callers[i].phase)
  }

  ghost predicate Owed(sys: Sys, p: Phase) {
    && (p.Checking? || p.Waiting? ==> p.ticket <= sys.notifications)
    && (p.Waiting? ==> p.ticket < sys.notifications || NotificationDue(sys))
  }

  ghost predicate SomeoneNotifies(sys: Sys) {
    exists i :: 0 <= i < |sys.callers| && sys.callers[i].phase.Notifying?
  }

  // What the cache holds, and what callers have seen, in terms of the answers.

  /** The latest address that a lookup delivered, with its time. */
  function LastAddr(answers: seq<Answer>): Option<(Addr, nat)> {
    if answers == [] then None
    else
      var last := answers[|answers| - 1];
      match last.result
      case Ok(addr) => Some((addr, last.at))
      case Err(_) => LastAddr(answers[..|answers| - 1])
  }

  /** The error of the latest answer, if it was one. */
  function LastFailure(answers: seq<Answer>): Option<Error> {
    if answers == [] then None
    else
      match answers[|answers| - 1].result
      case Ok(_) => None
      case Err(error) => Some(error)
  }

  function CacheOf(answers: seq<Answer>): Cache {
    match LastAddr(answers)
    case Some((addr, at)) => Cache(Some(addr), Some(at), LastFailure(answers))
    case None => Cache(None, None, LastFailure(answers))
  }

  /** The cache holds the latest address and the latest error, and no answer is ahead of the clock. */
  ghost predicate CacheIsLatest(sys: Sys) {
    && sys.cache == CacheOf(sys.answers)
    && forall k :: 0 <= k < |sys.answers| ==> sys.answers[k].at <= sys.now
  }

  /** Of the first `miss.known` answers the latest address was at least `limit` old. */
  ghost predicate WasMissed(answers: seq<Answer>, miss: Miss, limit: nat) {
    && miss.known <= |answers|
    && match LastAddr(answers[..miss.known])
       case Some((_, at)) => at + limit <= miss.at
       case None => true
  }

  /** No error was on record when so many lookups had been answered. */
  ghost predicate WasCalm(answers: seq<Answer>, known: nat) {
    known <= |answers| && LastFailure(answers[..known]) == None
  }

  /** Each mark of a caller is true of the answers there were when it was made. */
  ghost predicate SeenTruly(answers: seq<Answer>, seen: Seen) {
    && (seen.missed.Some? ==> WasMissed(answers, seen.missed.value, MIRROR_DNS_CACHE_TTL))
    && (seen.stale.Some? ==> WasMissed(answers, seen.stale.value, STALE_LIMIT))
    && (seen.calm.Some? ==> WasCalm(answers, seen.calm.value))
  }

  /** Where a caller stands it has the marks that led there. */
  ghost predicate MarksFit(c: Caller) {
    MissesFit(c) && AnswerFits(c)
  }

  ghost predicate MissesFit(c: Caller) {
    && (c.phase.Electing? || c.phase.Registering? || c.phase.Checking? || c.phase.Waiting? || c.lookups > 0 ==>
          c.seen.missed.Some?)
    && (c.phase.ReadingError? ==> c.seen.stale.Some?)
    && (c.phase.Woken? || c.phase.ReadingError? ==> c.seen.waited)
    && (c.seen.waited && (c.lookups > 0 || (MayBeElected(c) && !c.phase.Woken? && !c.phase.ReadingError?)) ==>
          c.seen.stale.Some? && c.seen.calm.Some?)
  }

  ghost predicate AnswerFits(c: Caller) {
    && (MayBeElected(c) || c.phase.Looking? ==> c.seen.answer == None)
    && (c.phase.Looking? || c.seen.answer.Some? ==> c.lookups == 1)
    && (c.phase.Publishing? ==> c.seen.answer == Some(c.phase.result))
    && (c.phase.Reusing? ==> c.seen.answer == Some(Err(c.phase.error)))
  }

  /**
   Why a call ends as it does. It is served the latest address known, which is its own lookup's answer or was resolved
   less than TTL + grace before, and less than the TTL before unless the caller has waited or its lookup has failed. It
   fails with its own lookup's error or, having waited, with the latest error, and only when no stale address was left.
   */
  ghost predicate Explains(answers: seq<Answer>, now: nat, c: Caller, o: Outcome) {
    match o
    case Served(addr, resolvedAt, servedAt, known) =>
      && known <= |answers| && LastAddr(answers[..known]) == Some((addr, resolvedAt))
      && resolvedAt <= servedAt <= now && servedAt - resolvedAt < STALE_LIMIT
      && (servedAt - resolvedAt < MIRROR_DNS_CACHE_TTL || c.seen.waited || (c.seen.answer.Some? && c.seen.answer.value.Err?))
      && (c.lookups > 0 ==> c.seen.answer.Some? && (c.seen.answer.value.Ok? ==> addr == c.seen.answer.value.value
                                                                                && resolvedAt == servedAt))
    case Failed(error, known) =>
      && c.seen.stale.Some?
      && (c.seen.answer == Some(Err(error))
          || (c.seen.answer == None && c.seen.waited && c.lookups == 0
              && known <= |answers| && LastFailure(answers[..known]) == Some(error)))
    case Cancelled => true
  }

  ghost predicate Explained(answers: seq<Answer>, now: nat, c: Caller) {
    && SeenTruly(answers, c.seen) && MarksFit(c)
    && (c.phase.Clearing? || c.phase.Notifying? || c.phase.Done? ==> Explains(answers, now, c, c.phase.outcome))
  }

  ghost predicate AllExplained(sys: Sys) {
    CacheIsLatest(sys) && forall i :: 0 <= i < |sys.callers| ==> Explained(sys.answers, sys.now, sys.callers[i])
  }

  /** A step of a caller replaces that caller alone. */
  lemma {:induction false} OnlyMover(sys: Sys, e: Event, i: nat)
    requires Enabled(sys, e) && i < |sys.callers| && (!e.Arrive? && !e.Tick? ==> i != e.c)
    ensures i < |Next(sys, e).callers| && Next(sys, e).callers[i] == sys.callers[i]
  {
  }

  /** What a step does to the flag and to its caller's lead. */
  lemma {:induction false} MoverLeads(sys: Sys, e: Event)
    requires Enabled(sys, e) && !e.Arrive? && !e.Tick?
    requires Leads(sys.callers[e.c]) ==> sys.inFlight
    ensures e.c < |Next(sys, e).callers| == |sys.callers|
    ensures var before, after := Leads(sys.callers[e.c]), Leads(Next(sys, e).callers[e.c]);
            && (before == after ==> Next(sys, e).inFlight == sys.inFlight)
            && (before && !after ==> !Next(sys, e).inFlight)
            && (!before && after ==> !sys.inFlight && Next(sys, e).inFlight)
  {
  }

  lemma {:induction false} KeepsSingleFlight(sys: Sys, e: Event)
    requires SingleFlight(sys) && Enabled(sys, e)
    ensures SingleFlight(Next(sys, e))
  {
    var sys' := Next(sys, e);
    forall i: nat | i < |sys.callers| && (!e.Arrive? && !e.Tick? ==> i != e.c)
      ensures i < |sys'.callers| && sys'.callers[i] == sys.callers[i]
    {
      OnlyMover(sys, e, i);
    }
    if !e.Arrive? && !e.Tick? {
      MoverLeads(sys, e);
      if sys.inFlight && !Leads(sys.callers[e.c]) {
        var i :| 0 <= i < |sys.callers| && Leads(sys.callers[i]);
        assert Leads(sys'.callers[i]);
      }
    } else if sys.inFlight {
      var i :| 0 <= i < |sys.callers| && Leads(sys.callers[i]);
      assert Leads(sys'.callers[i]);
    }
  }

  lemma {:induction false} KeepsLeadsOnce(sys: Sys, e: Event)
    requires LeadsOnce(sys) && Enabled(sys, e)
    ensures LeadsOnce(Next(sys, e))
  {
  }

  /** A notification is due: a flight is up, or its owner is about to notify. */
  ghost predicate NotificationDue(sys: Sys) {
    sys.inFlight || SomeoneNotifies(sys)
  }

  /** It stays due until it is given. */
  lemma {:induction false} StaysDue(sys: Sys, e: Event)
    requires SingleFlight(sys) && NotificationDue(sys) && Enabled(sys, e)
    requires Next(sys, e).notifications == sys.notifications
    ensures NotificationDue(Next(sys, e))
  {
    if SomeoneNotifies(sys) {
      var n: nat :| n < |sys.callers| && sys.callers[n].phase.Notifying?;
      OnlyMover(sys, e, n);
      assert Next(sys, e).callers[n].phase.Notifying?;
    } else if e.Step? && sys.callers[e.c].phase.Clearing? {
      assert Next(sys, e).callers[e.c].phase.Notifying?;
    }
  }

  lemma {:induction false} KeepsNobodyStranded(sys: Sys, e: Event)
    requires SingleFlight(sys) && NobodyStranded(sys) && Enabled(sys, e)
    ensures NobodyStranded(Next(sys, e))
  {
    var sys' := Next(sys, e);
    forall i: nat | i < |sys'.callers| ensures Owed(sys', sys'.callers[i].phase) {
      if !e.Arrive? && !e.Tick? && i == e.c {
        MoverIsOwed(sys, e);
      } else if i < |sys.callers| {
        OnlyMover(sys, e, i);
        assert Owed(sys, sys.callers[i].phase);
        if NotificationDue(sys) && sys'.notifications == sys.notifications {
          StaysDue(sys, e);
        }
      }
    }
  }

  lemma {:induction false} MoverIsOwed(sys: Sys, e: Event)
    requires NobodyStranded(sys) && Enabled(sys, e) && !e.Arrive? && !e.Tick?
    ensures e.c < |Next(sys, e).callers| && Owed(Next(sys, e), Next(sys, e).callers[e.c].phase)
  {
    assert Owed(sys, sys.callers[e.c].phase);
  }

  lemma {:induction false} HistoryGrows(sys: Sys, e: Event)
    requires Enabled(sys, e)
    ensures sys.answers <= Next(sys, e).answers && sys.now <= Next(sys, e).now
  {
  }

  lemma {:induction false} EarlierAnswers(a: seq<Answer>, b: seq<Answer>, known: nat)
    requires a <= b && known <= |a|
    ensures b[..known] == a[..known]
  {
  }

  /** What was true of the answers so far stays true. */
  lemma {:induction false} ExplainedLater(a: seq<Answer>, b: seq<Answer>, now: nat, now': nat, c: Caller)
    requires Explained(a, now, c) && a <= b && now <= now'
    ensures Explained(b, now', c)
  {
    SeenLater(a, b, c.seen);
    if c.phase.Clearing? || c.phase.Notifying? || c.phase.Done? {
      ExplainsLater(a, b, now, now', c, c.phase.outcome);
    }
  }

  lemma {:induction false} SeenLater(a: seq<Answer>, b: seq<Answer>, seen: Seen)
    requires SeenTruly(a, seen) && a <= b
    ensures SeenTruly(b, seen)
  {
    if seen.missed.Some? { EarlierAnswers(a, b, seen.missed.value.known); }
    if seen.stale.Some? { EarlierAnswers(a, b, seen.stale.value.known); }
    if seen.calm.Some? { EarlierAnswers(a, b, seen.calm.value); }
  }

  lemma {:induction false} ExplainsLater(a: seq<Answer>, b: seq<Answer>, now: nat, now': nat, c: Caller, o: Outcome)
    requires Explains(a, now, c, o) && a <= b && now <= now'
    ensures Explains(b, now', c, o)
  {
    if !o.Cancelled? && o.known <= |a| {
      EarlierAnswers(a, b, o.known);
    }
  }

  /** Only publishing touches the cache, and it records the answer. */
  lemma {:induction false} OnlyPublishingWrites(sys: Sys, e: Event)
    requires Enabled(sys, e)
    ensures if e.Step? && sys.callers[e.c].phase.Publishing?
            then Next(sys, e).cache == WithAnswer(sys.cache, sys.callers[e.c].phase.result, sys.now)
                 && Next(sys, e).answers == sys.answers + [Answer(sys.callers[e.c].phase.result, sys.now)]
            else Next(sys, e).cache == sys.cache && Next(sys, e).answers == sys.answers
    ensures Next(sys, e).now >= sys.now
  {
  }

  function WithAnswer(cache: Cache, result: Result<Addr, Error>, now: nat): Cache {
    match result
    case Ok(addr) => Cache(Some(addr), Some(now), None)
    case Err(error) => cache.(lastError := Some(error))
  }

  lemma {:induction false} AnswerIsLatest(answers: seq<Answer>, result: Result<Addr, Error>, now: nat)
    ensures CacheOf(answers + [Answer(result, now)]) == WithAnswer(CacheOf(answers), result, now)
  {
    var published := answers + [Answer(result, now)];
    assert published[..|published| - 1] == answers;
  }

  lemma {:induction false} KeepsCacheLatest(sys: Sys, e: Event)
    requires CacheIsLatest(sys) && Enabled(sys, e)
    ensures CacheIsLatest(Next(sys, e))
  {
    OnlyPublishingWrites(sys, e);
    if e.Step? && sys.callers[e.c].phase.Publishing? {
      AnswerIsLatest(sys.answers, sys.callers[e.c].phase.result, sys.now);
    }
  }

  lemma {:induction false} LastAddrInTime(answers: seq<Answer>, now: nat)
    requires forall k :: 0 <= k < |answers| ==> answers[k].at <= now
    ensures LastAddr(answers).Some? ==> LastAddr(answers).value.1 <= now
  {
    if answers != [] {
      LastAddrInTime(answers[..|answers| - 1], now);
    }
  }

  /** What a look at the cache tells. */
  lemma {:induction false} CachedIsLatest(sys: Sys, limit: nat)
    requires CacheIsLatest(sys)
    ensures sys.answers[..|sys.answers|] == sys.answers
    ensures match Cached(sys, limit)
            case Some(o) =>
              && o.Served? && o.known == |sys.answers| && LastAddr(sys.answers) == Some((o.addr, o.resolvedAt))
              && o.resolvedAt <= o.servedAt == sys.now && o.servedAt - o.resolvedAt < limit
            case None => WasMissed(sys.answers, Miss(sys.now, |sys.answers|), limit)
  {
    LastAddrInTime(sys.answers, sys.now);
    assert sys.answers[..|sys.answers|] == sys.answers;
  }

  lemma {:induction false} MoverSeesTruly(sys: Sys, e: Event)
    requires CacheIsLatest(sys) && Enabled(sys, e) && Works(e) && SeenTruly(sys.answers, sys.callers[e.c].seen)
    ensures e.c < |Next(sys, e).callers| && SeenTruly(Next(sys, e).answers, Next(sys, e).callers[e.c].seen)
  {
    var c := sys.callers[e.c];
    HistoryGrows(sys, e);
    SeenLater(sys.answers, Next(sys, e).answers, c.seen);
    if e.Step? && (c.phase.Start? || c.phase.Woken? || c.phase.Reusing? || c.phase.ReadingError?) {
      CachedIsLatest(sys, if c.phase.Start? then MIRROR_DNS_CACHE_TTL else STALE_LIMIT);
    }
  }

  lemma {:induction false} MoverMisses(sys: Sys, e: Event)
    requires LeadsOnce(sys) && Enabled(sys, e) && Works(e) && MissesFit(sys.callers[e.c])
    ensures e.c < |Next(sys, e).callers| && MissesFit(Next(sys, e).callers[e.c])
  {
    assert MayBeElected(sys.callers[e.c]) ==> sys.callers[e.c].lookups == 0;
  }

  lemma {:induction false} MoverAnswers(sys: Sys, e: Event)
    requires LeadsOnce(sys) && Enabled(sys, e) && Works(e) && AnswerFits(sys.callers[e.c])
    ensures e.c < |Next(sys, e).callers| && AnswerFits(Next(sys, e).callers[e.c])
  {
    assert MayBeElected(sys.callers[e.c]) ==> sys.callers[e.c].lookups == 0;
  }

  /** A call that ends by a look at the cache, which its caller takes at the start, when woken or after a failure. */
  lemma {:induction false} LookExplains(sys: Sys, c: Caller, limit: nat, o: Outcome)
    requires CacheIsLatest(sys) && Cached(sys, limit) == Some(o) && limit <= STALE_LIMIT
    requires limit == MIRROR_DNS_CACHE_TTL || c.seen.waited || (c.seen.answer.Some? && c.seen.answer.value.Err?)
    requires c.lookups > 0 ==> c.seen.answer.Some? && c.seen.answer.value.Err?
    ensures Explains(sys.answers, sys.now, c, o)
  {
    CachedIsLatest(sys, limit);
  }

  lemma {:induction false} LatestErrorExplains(sys: Sys, c: Caller, error: Error)
    requires CacheIsLatest(sys) && sys.cache.lastError == Some(error)
    requires c.lookups == 0 && c.seen.answer == None && c.seen.waited && c.seen.stale.Some?
    ensures Explains(sys.answers, sys.now, c, Failed(error, |sys.answers|))
  {
    assert sys.answers[..|sys.answers|] == sys.answers;
  }

  /** A caller that may still be elected ends, if it does, for a reason. */
  lemma {:induction false} WaiterEndsExplained(sys: Sys, e: Event)
    requires CacheIsLatest(sys) && LeadsOnce(sys) && Enabled(sys, e) && e.Step? && MayBeElected(sys.callers[e.c])
    requires MarksFit(sys.callers[e.c])
    ensures e.c < |Next(sys, e).callers|
    ensures var c := Next(sys, e).callers[e.c];
            c.phase.Clearing? || c.phase.Notifying? || c.phase.Done? ==>
              Explains(Next(sys, e).answers, Next(sys, e).now, c, c.phase.outcome)
  {
    var c := sys.callers[e.c];
    assert c.lookups == 0;
    if c.phase.Start? && Cached(sys, MIRROR_DNS_CACHE_TTL).Some? {
      LookExplains(sys, c, MIRROR_DNS_CACHE_TTL, Cached(sys, MIRROR_DNS_CACHE_TTL).value);
    } else if c.phase.Woken? && Cached(sys, STALE_LIMIT).Some? {
      LookExplains(sys, c, STALE_LIMIT, Cached(sys, STALE_LIMIT).value);
    } else if c.phase.ReadingError? && sys.cache.lastError.Some? {
      LatestErrorExplains(sys, c, sys.cache.lastError.value);
    }
  }

  /** So does a leader. */
  lemma {:induction false} LeaderEndsExplained(sys: Sys, e: Event)
    requires CacheIsLatest(sys) && LeadsOnce(sys) && Enabled(sys, e) && e.Step? && !MayBeElected(sys.callers[e.c])
    requires Explained(sys.answers, sys.now, sys.callers[e.c])
    ensures e.c < |Next(sys, e).callers|
    ensures var c := Next(sys, e).callers[e.c];
            c.phase.Clearing? || c.phase.Notifying? || c.phase.Done? ==>
              Explains(Next(sys, e).answers, Next(sys, e).now, c, c.phase.outcome)
  {
    var c := sys.callers[e.c];
    if c.phase.Reusing? && Cached(sys, STALE_LIMIT).Some? {
      LookExplains(sys, c, STALE_LIMIT, Cached(sys, STALE_LIMIT).value);
    } else if c.phase.Publishing? && c.phase.result.Ok? {
      PublishedIsLatest(sys.answers, c.phase.result.value, sys.now);
    }
  }

  lemma {:induction false} MoverIsExplained(sys: Sys, e: Event)
    requires CacheIsLatest(sys) && LeadsOnce(sys) && Enabled(sys, e) && Works(e)
    requires Explained(sys.answers, sys.now, sys.callers[e.c])
    ensures e.c < |Next(sys, e).callers|
    ensures Explained(Next(sys, e).answers, Next(sys, e).now, Next(sys, e).callers[e.c])
  {
    MoverSeesTruly(sys, e);
    MoverMisses(sys, e);
    MoverAnswers(sys, e);
    if e.Step? {
      if MayBeElected(sys.callers[e.c]) {
        WaiterEndsExplained(sys, e);
      } else {
        LeaderEndsExplained(sys, e);
      }
    }
  }

  lemma {:induction false} PublishedIsLatest(answers: seq<Answer>, addr: Addr, now: nat)
    ensures var published := answers + [Answer(Ok(addr), now)];
            LastAddr(published[..|answers| + 1]) == Some((addr, now))
  {
    var published := answers + [Answer(Ok(addr), now)];
    assert published[..|answers| + 1] == published;
  }

  lemma {:induction false} KeepsAllExplained(sys: Sys, e: Event)
    requires AllExplained(sys) && LeadsOnce(sys) && Enabled(sys, e)
    ensures AllExplained(Next(sys, e))
  {
    var sys' := Next(sys, e);
    KeepsCacheLatest(sys, e);
    HistoryGrows(sys, e);
    forall i | 0 <= i < |sys'.callers| ensures Explained(sys'.answers, sys'.now, sys'.callers[i]) {
      if Works(e) && i == e.c {
        MoverIsExplained(sys, e);
      } else if i < |sys.callers| {
        OnlyMover(sys, e, i);
        ExplainedLater(sys.answers, sys'.answers, sys.now, sys'.now, sys.callers[i]);
      }
    }
  }

  function Run(events: seq<Event>): Sys {
    if events == [] then Sys(0, false, Cache(None, None, None), 0, [], [])
    else
      var sys, e := Run(events[..|events| - 1]), events[|events| - 1];
      if Enabled(sys, e) then Next(sys, e) else sys
  }

  ghost predicate Invariant(sys: Sys) {
    SingleFlight(sys) && LeadsOnce(sys) && NobodyStranded(sys) && AllExplained(sys)
  }

  /** Main result: over every interleaving, cancelled leaders included, all four invariants hold. */
  lemma {:induction false} RunKeepsInvariant(events: seq<Event>)
    ensures Invariant(Run(events))
  {
    if events != [] {
      var sys, e := Run(events[..|events| - 1]), events[|events| - 1];
      RunKeepsInvariant(events[..|events| - 1]);
      if Enabled(sys, e) {
        KeepsSingleFlight(sys, e);
        KeepsLeadsOnce(sys, e);
        KeepsNobodyStranded(sys, e);
        KeepsAllExplained(sys, e);
      }
    }
  }

  /** Once the flag is clear and the notification is done, every waiter can go on. */
  lemma {:induction false} WaitersAreReleased(events: seq<Event>, c: nat)
    requires c < |Run(events).callers| && Run(events).callers[c].phase.Waiting?
    requires !Run(events).inFlight && !SomeoneNotifies(Run(events))
    ensures Enabled(Run(events), Step(c))
  {
    RunKeepsInvariant(events);
  }

  /** No deadlock: while some call is open, somebody can take a step or a lookup is running. */
  lemma {:induction false} AlwaysProgress(events: seq<Event>, c: nat)
    requires c < |Run(events).callers| && !Run(events).callers[c].phase.Done?
    ensures exists d :: 0 <= d < |Run(events).callers| &&
                        (Run(events).callers[d].phase.Looking? || Enabled(Run(events), Step(d)))
  {
    var sys := Run(events);
    RunKeepsInvariant(events);
    if sys.callers[c].phase.Waiting? && sys.callers[c].phase.ticket >= sys.notifications {
      if sys.inFlight {
        var d :| 0 <= d < |sys.callers| && Leads(sys.callers[d]);
        assert sys.callers[d].phase.Looking? || Enabled(sys, Step(d));
      } else {
        var d :| 0 <= d < |sys.callers| && sys.callers[d].phase.Notifying?;
        assert Enabled(sys, Step(d));
      }
    } else {
      assert sys.callers[c].phase.Looking? || Enabled(sys, Step(c));
    }
  }

  // ----- every call ends -----

  /** What is left to do: lookups not yet started, stages of the flight, notifications due, and steps on the way. */
  datatype Work = Work(unled: nat, stage: nat, due: nat, ranks: nat)

  predicate Less(v: Work, w: Work) {
    || v.unled < w.unled
    || (v.unled == w.unled && v.stage < w.stage)
    || (v.unled == w.unled && v.stage == w.stage && v.due < w.due)
    || (v.unled == w.unled && v.stage == w.stage && v.due == w.due && v.ranks < w.ranks)
  }

  function Sum(callers: seq<Caller>, f: Caller -> nat): nat {
    if callers == [] then 0 else Sum(callers[..|callers| - 1], f) + f(callers[|callers| - 1])
  }

  lemma {:induction false} SumReplaced(callers: seq<Caller>, c: nat, caller: Caller, f: Caller -> nat)
    requires c < |callers|
    ensures Sum(callers[c := caller], f) + f(callers[c]) == Sum(callers, f) + f(caller)
  {
    var n := |callers| - 1;
    if c < n {
      assert callers[c := caller][..n] == callers[..n][c := caller];
      SumReplaced(callers[..n], c, caller, f);
    } else {
      assert callers[c := caller][..n] == callers[..n];
    }
  }

  lemma {:induction false} SumBelow(callers: seq<Caller>, f: Caller -> nat, top: nat)
    requires forall c :: f(c) <= top
    ensures Sum(callers, f) <= |callers| * top
  {
    if callers != [] {
      SumBelow(callers[..|callers| - 1], f, top);
    }
  }

  function Unled(): Caller -> nat {
    (c: Caller) => if c.lookups == 0 then 1 else 0
  }

  function Stage(): Caller -> nat {
    (c: Caller) =>
      if c.phase.Looking? then 4
      else if c.phase.Publishing? then 3
      else if c.phase.Reusing? then 2
      else if c.phase.Clearing? then 1
      else 0
  }

  function Due(): Caller -> nat {
    (c: Caller) => if c.phase.Notifying? then 1 else 0
  }

  const MAX_RANK: nat := 11

  /** How far a caller is from its next wait or its end, while the flag and the notifications stay as they are. */
  function Rank(inFlight: bool, notifications: nat): Caller -> nat {
    (c: Caller) =>
      match c.phase
      case Checking(t) => if t < notifications then 11 else if inFlight then 3 else 8
      case Waiting(t) => if t < notifications then 10 else 1
      case Woken => 9
      case ReadingError => 8
      case Start => 7
      case Electing => 6
      case Registering => if inFlight then 5 else 10
      case _ => 0
  }

  function Remaining(sys: Sys): Work {
    Work(Sum(sys.callers, Unled()), Sum(sys.callers, Stage()), Sum(sys.callers, Due()),
         Sum(sys.callers, Rank(sys.inFlight, sys.notifications)))
  }

  /** Steps of callers, lookups that answer and cancellations; not arrivals or the clock. */
  predicate Works(e: Event) {
    !e.Arrive? && !e.Tick?
  }

  lemma {:induction false} RemainingReplaced(sys: Sys, e: Event)
    requires Enabled(sys, e) && Works(e)
    ensures |Next(sys, e).callers| == |sys.callers| && e.c < |sys.callers|
    ensures var b, a := sys.callers[e.c], Next(sys, e).callers[e.c];
            var v, w := Remaining(Next(sys, e)), Remaining(sys);
            && v.unled + Unled()(b) == w.unled + Unled()(a)
            && v.stage + Stage()(b) == w.stage + Stage()(a)
            && v.due + Due()(b) == w.due + Due()(a)
            && (Next(sys, e).inFlight == sys.inFlight && Next(sys, e).notifications == sys.notifications ==>
                  var rank := Rank(sys.inFlight, sys.notifications); v.ranks + rank(b) == w.ranks + rank(a))
  {
    var after := Next(sys, e).callers[e.c];
    assert Next(sys, e).callers == sys.callers[e.c := after];
    SumReplaced(sys.callers, e.c, after, Unled());
    SumReplaced(sys.callers, e.c, after, Stage());
    SumReplaced(sys.callers, e.c, after, Due());
    SumReplaced(sys.callers, e.c, after, Rank(sys.inFlight, sys.notifications));
  }

  /** What the caller that moves contributes goes down, in the first place where it changes. */
  lemma {:induction false} MoverDescends(sys: Sys, e: Event)
    requires LeadsOnce(sys) && Enabled(sys, e) && Works(e)
    ensures e.c < |sys.callers| == |Next(sys, e).callers|
    ensures var b, a := sys.callers[e.c], Next(sys, e).callers[e.c];
            || Unled()(a) < Unled()(b)
            || (Unled()(a) == Unled()(b) && Stage()(a) < Stage()(b))
            || (Unled()(a) == Unled()(b) && Stage()(a) == Stage()(b) && Due()(a) < Due()(b))
            || (Unled()(a) == Unled()(b) && Stage()(a) == Stage()(b) && Due()(a) == Due()(b)
                && Next(sys, e).inFlight == sys.inFlight && Next(sys, e).notifications == sys.notifications
                && Rank(sys.inFlight, sys.notifications)(a) < Rank(sys.inFlight, sys.notifications)(b))
  {
    assert sys.callers[e.c].lookups <= 1 && (MayBeElected(sys.callers[e.c]) ==> sys.callers[e.c].lookups == 0);
  }

  /** Main result on termination: every step but an arrival or a tick of the clock leaves less to do. */
  lemma {:induction false} StepsDescend(sys: Sys, e: Event)
    requires LeadsOnce(sys) && Enabled(sys, e) && Works(e)
    ensures Less(Remaining(Next(sys, e)), Remaining(sys))
  {
    MoverDescends(sys, e);
    RemainingReplaced(sys, e);
  }

  // The same as one number, for `n` callers.

  function FlightWork(w: Work, n: nat): nat {
    w.unled * (4 * n + 1) + w.stage
  }

  function DueWork(w: Work, n: nat): nat {
    FlightWork(w, n) * (n + 1) + w.due
  }

  function Budget(w: Work, n: nat): nat {
    DueWork(w, n) * (MAX_RANK * n + 1) + w.ranks
  }

  predicate WithinDigits(w: Work, n: nat) {
    w.stage <= 4 * n && w.due <= n && w.ranks <= MAX_RANK * n
  }

  lemma {:induction false} Digit(a: nat, b: nat, c: nat, d: nat, base: nat)
    requires b < base && (a < c || (a == c && b < d))
    ensures a * base + b < c * base + d
  {
    if a < c {
      assert (a + 1) * base <= c * base;
    }
  }

  lemma {:induction false} LessFlightWork(v: Work, w: Work, n: nat)
    requires WithinDigits(v, n) && (v.unled < w.unled || (v.unled == w.unled && v.stage < w.stage))
    ensures FlightWork(v, n) < FlightWork(w, n)
  {
    Digit(v.unled, v.stage, w.unled, w.stage, 4 * n + 1);
  }

  lemma {:induction false} LessDueWork(v: Work, w: Work, n: nat)
    requires WithinDigits(v, n)
    requires FlightWork(v, n) < FlightWork(w, n) || (FlightWork(v, n) == FlightWork(w, n) && v.due < w.due)
    ensures DueWork(v, n) < DueWork(w, n)
  {
    Digit(FlightWork(v, n), v.due, FlightWork(w, n), w.due, n + 1);
  }

  lemma {:induction false} LessBudget(v: Work, w: Work, n: nat)
    requires WithinDigits(v, n)
    requires DueWork(v, n) < DueWork(w, n) || (DueWork(v, n) == DueWork(w, n) && v.ranks < w.ranks)
    ensures Budget(v, n) < Budget(w, n)
  {
    Digit(DueWork(v, n), v.ranks, DueWork(w, n), w.ranks, MAX_RANK * n + 1);
  }

  lemma {:induction false} LessIsCheaper(v: Work, w: Work, n: nat)
    requires Less(v, w) && WithinDigits(v, n)
    ensures Budget(v, n) < Budget(w, n)
  {
    if v.unled != w.unled || v.stage != w.stage {
      LessFlightWork(v, w, n);
    }
    if v.unled != w.unled || v.stage != w.stage || v.due != w.due {
      LessDueWork(v, w, n);
    }
    LessBudget(v, w, n);
  }

  lemma {:induction false} DigitsFit(sys: Sys)
    ensures WithinDigits(Remaining(sys), |sys.callers|)
  {
    SumBelow(sys.callers, Stage(), 4);
    SumBelow(sys.callers, Due(), 1);
    SumBelow(sys.callers, Rank(sys.inFlight, sys.notifications), MAX_RANK);
  }

  function BudgetOf(sys: Sys): nat {
    Budget(Remaining(sys), |sys.callers|)
  }

  /** How many steps of callers, answers and cancellations take place in `more`, after `events`. */
  function WorkDone(events: seq<Event>, more: seq<Event>): nat {
    if more == [] then 0
    else
      var init, e := more[..|more| - 1], more[|more| - 1];
      WorkDone(events, init) + if Works(e) && Enabled(Run(events + init), e) then 1 else 0
  }

  /** Without new callers a run works at most its budget, whatever the scheduler does. */
  lemma {:induction false} WorkIsBounded(events: seq<Event>, more: seq<Event>)
    requires forall i :: 0 <= i < |more| ==> !more[i].Arrive?
    ensures WorkDone(events, more) + BudgetOf(Run(events + more)) <= BudgetOf(Run(events))
  {
    if more == [] {
      assert events + more == events;
    } else {
      var init, e := more[..|more| - 1], more[|more| - 1];
      WorkIsBounded(events, init);
      assert (events + more)[..|events + more| - 1] == events + init;
      if Enabled(Run(events + init), e) {
        RunKeepsInvariant(events + init);
        EventCosts(Run(events + init), e);
      }
    }
  }

  lemma {:induction false} EventCosts(sys: Sys, e: Event)
    requires LeadsOnce(sys) && Enabled(sys, e) && !e.Arrive?
    ensures BudgetOf(Next(sys, e)) + (if Works(e) then 1 else 0) <= BudgetOf(sys)
  {
    if Works(e) {
      StepsDescend(sys, e);
      RemainingReplaced(sys, e);
      DigitsFit(Next(sys, e));
      LessIsCheaper(Remaining(Next(sys, e)), Remaining(sys), |sys.callers|);
    }
  }

  predicate AllDone(sys: Sys) {
    forall c :: 0 <= c < |sys.callers| ==> sys.callers[c].phase.Done?
  }

  /** And until every call has ended there is work that can be done. */
  lemma {:induction false} WorkRemains(events: seq<Event>) returns (e: Event)
    requires !AllDone(Run(events))
    ensures Works(e) && Enabled(Run(events), e)
  {
    var sys := Run(events);
    var c: nat :| c < |sys.callers| && !sys.callers[c].phase.Done?;
    AlwaysProgress(events, c);
    var d: nat :| d < |sys.callers| && (sys.callers[d].phase.Looking? || Enabled(sys, Step(d)));
    e := if sys.callers[d].phase.Looking? then LookupDone(d, Err(0)) else Step(d);
  }

  /** Nothing but an arrival or a tick can happen. */
  ghost predicate AtRest(sys: Sys) {
    forall e :: Works(e) ==> !Enabled(sys, e)
  }

  lemma {:induction false} AtRestIffAllDone(events: seq<Event>)
    ensures AtRest(Run(events)) <==> AllDone(Run(events))
  {
    if !AllDone(Run(events)) {
      var e := WorkRemains(events);
      assert Works(e) && Enabled(Run(events), e);
    } else {
      DoneIsRest(Run(events));
    }
  }

  lemma {:induction false} DoneIsRest(sys: Sys)
    requires AllDone(sys)
    ensures AtRest(sys)
  {
  }

  /**
   Main result: without new callers a run can only work so much, and when it can work no more every call has ended;
   so once lookups answer, every call ends, whatever the scheduler does.
   */
  lemma {:induction false} EveryCallEnds(events: seq<Event>, more: seq<Event>)
    requires forall i :: 0 <= i < |more| ==> !more[i].Arrive?
    ensures WorkDone(events, more) <= BudgetOf(Run(events))
    ensures AtRest(Run(events + more)) <==> AllDone(Run(events + more))
  {
    WorkIsBounded(events, more);
    AtRestIffAllDone(events + more);
  }

  // ----- where a call gets by itself -----

  /** An event that cannot happen is skipped. */
  function After(sys: Sys, e: Event): Sys {
    if Enabled(sys, e) then Next(sys, e) else sys
  }

  lemma {:induction false} RunTwo(events: seq<Event>, d: Event, e: Event)
    ensures Run(events + [d]) == After(Run(events), d)
    ensures Run(events + [d, e]) == After(After(Run(events), d), e)
  {
    assert (events + [d])[..|events|] == events;
    assert (events + [d, e])[..|events| + 1] == events + [d];
  }

  lemma {:induction false} RunFour(events: seq<Event>, a: Event, b: Event, d: Event, e: Event)
    ensures Run(events + [a, b, d, e]) == After(After(After(After(Run(events), a), b), d), e)
  {
    RunTwo(events, a, b);
    RunTwo(events + [a, b], d, e);
    assert events + [a, b] + [d, e] == events + [a, b, d, e];
  }

  lemma {:induction false} RunFive(events: seq<Event>, a: Event, b: Event, d: Event, e: Event, f: Event)
    ensures Run(events + [a, b, d, e, f]) == After(After(After(After(After(Run(events), a), b), d), e), f)
  {
    RunFour(events, a, b, d, e);
    RunTwo(events + [a, b, d, e], f, f);
    assert events + [a, b, d, e] + [f] == events + [a, b, d, e, f];
  }

  /** The caller looks at the cache and, missing it, at the flag. */
  lemma {:induction false} StartLeads(sys: Sys, c: nat)
    requires CacheIsLatest(sys) && c < |sys.callers| && sys.callers[c].phase == Start && !sys.inFlight
    ensures var sys' := After(After(sys, Step(c)), Step(c));
            && c < |sys'.callers|
            && match Cached(sys, MIRROR_DNS_CACHE_TTL)
               case Some(o) => sys'.callers[c].phase == Done(o) && !sys'.inFlight
               case None => sys'.callers[c].phase == Looking && sys'.inFlight
  {
  }

  /**
   A new call, with nobody looking up, at any time: it is served the latest address if that is younger than the TTL,
   and otherwise becomes the leader.
   */
  lemma {:induction false} NewCallIsServedOrLeads(events: seq<Event>, span: nat)
    requires !Run(events).inFlight
    ensures var sys := Run(events);
            var c, now := |sys.callers|, sys.now + span;
            var sys' := Run(events + [Tick(span), Arrive, Step(c), Step(c)]);
            && c < |sys'.callers|
            && match LastAddr(sys.answers)
               case Some((addr, at)) =>
                 if now - at < MIRROR_DNS_CACHE_TTL
                 then sys'.callers[c].phase == Done(Served(addr, at, now, |sys.answers|)) && !sys'.inFlight
                 else sys'.callers[c].phase == Looking && sys'.inFlight
               case None => sys'.callers[c].phase == Looking && sys'.inFlight
  {
    var c := |Run(events).callers|;
    RunKeepsInvariant(events);
    RunFour(events, Tick(span), Arrive, Step(c), Step(c));
    StartLeads(After(After(Run(events), Tick(span)), Arrive), c);
    LastAddrInTime(Run(events).answers, Run(events).now);
  }

  /** What a leader whose lookup brought `result` ends with. */
  function FlightOutcome(sys: Sys, result: Result<Addr, Error>): Outcome {
    match result
    case Ok(addr) => Served(addr, sys.now, sys.now, |sys.answers| + 1)
    case Err(error) =>
      match LastAddr(sys.answers)
      case Some((addr, at)) =>
        if at + STALE_LIMIT > sys.now
        then Served(addr, at, sys.now, |sys.answers| + 1)
        else Failed(error, |sys.answers| + 1)
      case None => Failed(error, |sys.answers| + 1)
  }

  /** The answer has come, is published and, after a failure, the cached address tried. */
  function Settled(sys: Sys, c: nat, result: Result<Addr, Error>): Sys {
    var published := After(After(sys, LookupDone(c, result)), Step(c));
    if result.Ok? then published else After(published, Step(c))
  }

  lemma {:induction false} AnswerSettles(sys: Sys, c: nat, result: Result<Addr, Error>)
    requires CacheIsLatest(sys) && c < |sys.callers| && sys.callers[c].phase.Looking?
    ensures var sys' := Settled(sys, c, result);
            && |sys'.callers| == |sys.callers| && sys'.callers[c].phase == Clearing(FlightOutcome(sys, result))
            && sys'.answers == sys.answers + [Answer(result, sys.now)] && sys'.notifications == sys.notifications
            && forall w :: 0 <= w < |sys.callers| && w != c ==> sys'.callers[w] == sys.callers[w]
  {
    LastAddrInTime(sys.answers, sys.now);
  }

  /** A leader about to clear the flag clears it, wakes the waiters and is done. */
  lemma {:induction false} Released(sys: Sys, c: nat)
    requires c < |sys.callers| && sys.callers[c].phase.Clearing?
    ensures After(After(sys, Step(c)), Step(c))
         == sys.(inFlight := false, notifications := sys.notifications + 1,
                 callers := sys.callers[c := sys.callers[c].(phase := Done(sys.callers[c].phase.outcome))])
  {
    var last := After(After(sys, Step(c)), Step(c));
    assert last.callers == sys.callers[c := sys.callers[c].(phase := Done(sys.callers[c].phase.outcome))];
  }

  /**
   An answered lookup, left to itself: its caller is served the answer or, after a failure, the latest address while it
   is younger than TTL + grace, and only else fails; it gives up the flight and every waiter can go on.
   */
  lemma {:induction false} AnswerEndsFlight(events: seq<Event>, c: nat, result: Result<Addr, Error>)
    requires c < |Run(events).callers| && Run(events).callers[c].phase.Looking?
    ensures var sys := Run(events);
            var sys' := Run(events + [LookupDone(c, result), Step(c), Step(c), Step(c), Step(c)]);
            && |sys'.callers| == |sys.callers| && sys'.callers[c].phase == Done(FlightOutcome(sys, result))
            && !sys'.inFlight && sys'.answers == sys.answers + [Answer(result, sys.now)]
            && forall w :: 0 <= w < |sys.callers| && sys.callers[w].phase.Waiting? ==> Enabled(sys', Step(w))
  {
    RunKeepsInvariant(events);
    RunFive(events, LookupDone(c, result), Step(c), Step(c), Step(c), Step(c));
    AnswerSettles(Run(events), c, result);
    Released(Settled(Run(events), c, result), c);
    LastAddrInTime(Run(events).answers, Run(events).now);
    forall w | 0 <= w < |Run(events).callers| && Run(events).callers[w].phase.Waiting?
      ensures Run(events).callers[w].phase.ticket <= Run(events).notifications
    {
      assert Owed(Run(events), Run(events).callers[w].phase);
    }
  }

  /** A cancelled leader leaves nothing behind: no answer, no flight, and every waiter can go on. */
  lemma {:induction false} CancelledLeaderHandsOver(events: seq<Event>, c: nat)
    requires c < |Run(events).callers| && Run(events).callers[c].phase.Looking?
    ensures var sys := Run(events);
            var sys' := Run(events + [Cancel(c), Step(c), Step(c)]);
            && |sys'.callers| == |sys.callers| && sys'.callers[c].phase == Done(Cancelled)
            && !sys'.inFlight && sys'.answers == sys.answers && sys'.cache == sys.cache
            && forall w :: 0 <= w < |sys.callers| && sys.callers[w].phase.Waiting? ==> Enabled(sys', Step(w))
  {
    RunKeepsInvariant(events);
    RunTwo(events, Cancel(c), Step(c));
    RunTwo(events + [Cancel(c), Step(c)], Step(c), Step(c));
    assert events + [Cancel(c), Step(c)] + [Step(c)] == events + [Cancel(c), Step(c), Step(c)];
    Released(After(Run(events), Cancel(c)), c);
    forall w | 0 <= w < |Run(events).callers| && Run(events).callers[w].phase.Waiting?
      ensures Run(events).callers[w].phase.ticket <= Run(events).notifications
    {
      assert Owed(Run(events), Run(events).callers[w].phase);
    }
  }

  /** A waiter that is cancelled is gone at once and changes nothing for the others. */
  lemma {:induction false} CancelledWaiterIsGone(events: seq<Event>, c: nat)
    requires c < |Run(events).callers| && Run(events).callers[c].phase.Waiting?
    ensures var sys, sys' := Run(events), Run(events + [Cancel(c)]);
            sys' == sys.(callers := sys.callers[c := sys.callers[c].(phase := Done(Cancelled))])
  {
    RunTwo(events, Cancel(c), Cancel(c));
  }

  // ----- what calls end with -----

  /**
   Main result on addresses: a served address is the latest that any lookup had delivered, resolved less than TTL +
   grace before; it is as old as the TTL only for a caller that has waited for a flight or whose own lookup failed, and
   a caller whose lookup succeeded is served that answer at once.
   */
  lemma {:induction false} ServedAddressesAreFresh(events: seq<Event>, c: nat)
    requires c < |Run(events).callers| && Run(events).callers[c].phase.Done?
    requires Run(events).callers[c].phase.outcome.Served?
    ensures var sys := Run(events);
            var o, seen := sys.callers[c].phase.outcome, sys.callers[c].seen;
            && o.known <= |sys.answers| && LastAddr(sys.answers[..o.known]) == Some((o.addr, o.resolvedAt))
            && o.resolvedAt <= o.servedAt && o.servedAt - o.resolvedAt < STALE_LIMIT
            && (o.servedAt - o.resolvedAt >= MIRROR_DNS_CACHE_TTL ==>
                  seen.waited || (seen.answer.Some? && seen.answer.value.Err?))
            && (seen.answer.Some? && seen.answer.value.Ok? ==>
                  o.addr == seen.answer.value.value && o.resolvedAt == o.servedAt)
  {
    RunKeepsInvariant(events);
  }

  /**
   Main result on errors: a call fails only when the latest address was at least TTL + grace old, with the error of its
   own lookup or, if it led none, with the latest error after having waited.
   */
  lemma {:induction false} FailuresHaveCause(events: seq<Event>, c: nat)
    requires c < |Run(events).callers| && Run(events).callers[c].phase.Done?
    requires Run(events).callers[c].phase.outcome.Failed?
    ensures var sys := Run(events);
            var o, seen := sys.callers[c].phase.outcome, sys.callers[c].seen;
            && seen.stale.Some? && WasMissed(sys.answers, seen.stale.value, STALE_LIMIT)
            && (seen.answer == Some(Err(o.error))
                || (seen.answer == None && seen.waited && sys.callers[c].lookups == 0
                    && o.known <= |sys.answers| && LastFailure(sys.answers[..o.known]) == Some(o.error)))
  {
    RunKeepsInvariant(events);
  }

  /**
   Main result on lookups: one is started only by a caller that found no address younger than the TTL and, if it had
   waited for a flight before, no address younger than TTL + grace and no error left by that flight.
   */
  lemma {:induction false} LookupsAreNeeded(events: seq<Event>, c: nat)
    requires c < |Run(events).callers| && Run(events).callers[c].lookups > 0
    ensures var answers, seen := Run(events).answers, Run(events).callers[c].seen;
            && seen.missed.Some? && WasMissed(answers, seen.missed.value, MIRROR_DNS_CACHE_TTL)
            && (seen.waited ==> seen.stale.Some? && WasMissed(answers, seen.stale.value, STALE_LIMIT)
                                && seen.calm.Some? && WasCalm(answers, seen.calm.value))
  {
    RunKeepsInvariant(events);
  }

  // ----- the body queue of one mirrored request -----

  datatype MirrorBody = Chunk(bytes: seq<int>, end: bool) | Finish

  class MirrorSender {
    var queue: seq<MirrorBody>
    var closed: bool  // the mirror task dropped its receiver
    var active: bool
    ghost var offered: seq<MirrorBody>   // everything passed to TrySend
    ghost var accepted: seq<MirrorBody>  // everything that entered the queue
    ghost var received: seq<MirrorBody>  // everything the mirror task took out

    ghost predicate Valid()
      reads this
    {
      && |queue| <= MIRROR_QUEUE_CAPACITY
      && accepted == received + queue
      && accepted <= offered
      && (active ==> accepted == offered)
    }

    constructor ()
      ensures Valid() && active && !closed && offered == [] && received == []
    {
      queue, closed, active := [], false, true;
      offered, accepted, received := [], [], [];
    }

    /** Enqueues the item, or gives the mirror up for good: what the mirror sees never has a hole. */
    method TrySend(body: MirrorBody)
      requires Valid()
      modifies this
      ensures Valid() && offered == old(offered) + [body]
      ensures received == old(received) && closed == old(closed)
      ensures var fits := old(active) && !closed && |old(queue)| < MIRROR_QUEUE_CAPACITY;
              accepted == (if fits then old(accepted) + [body] else old(accepted)) && active == fits
    {
      offered := offered + [body];
      if !active {
        return;
      }
      if closed || |queue| >= MIRROR_QUEUE_CAPACITY {
        active := false;
      } else {
        queue := queue + [body];
        accepted := accepted + [body];
      }
    }

    /** What the body filter does with one body event. */
    method RequestBodyFilter(body: Option<seq<int>>, endOfStream: bool)
      requires Valid()
      modifies this
      ensures Valid() && received == old(received)
      ensures offered == old(offered) + (match body
                                         case Some(bytes) => [Chunk(bytes, endOfStream)]
                                         case None => if endOfStream then [Finish] else [])
    {
      match body {
        case Some(bytes) => TrySend(Chunk(bytes, endOfStream));
        case None => if endOfStream { TrySend(Finish); }
      }
    }

    /** The mirror task takes the next item. */
    method Receive() returns (body: Option<MirrorBody>)
      requires Valid()
      modifies this
      ensures Valid() && offered == old(offered) && accepted == old(accepted) && active == old(active)
      ensures old(queue) == [] ==> body == None && received == old(received)
      ensures old(queue) != [] ==> body == Some(old(queue)[0]) && received == old(received) + [old(queue)[0]]
    {
      if queue == [] {
        return None;
      }
      body := Some(queue[0]);
      received := received + [queue[0]];
      queue := queue[1..];
    }

    /** The mirror task ends, with or without an error. */
    method TaskEnds()
      requires Valid()
      modifies this
      ensures Valid() && !active && closed && offered == old(offered) && received == old(received)
    {
      active, closed := false, true;
    }
  }
}
