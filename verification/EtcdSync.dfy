/** The etcd sync loop that reports to the status store, beside the worker that prepares and publishes what it lists. */
module EtcdSync {
  import opened Wrappers
  import opened Status
  import opened StatusHistory

  datatype Phase = Listing | Listed | Opening | Streaming | Resetting

  datatype Sync = Sync(phase: Phase, status: State)

  datatype SyncStep =
    | ListAnswered(revision: int)
    | ListApplied(revision: int)
    | WatchOpened
    | Progress(revision: int)
    | StreamEnded
    | TransportFailed(error: string)
    | DataRejected(error: string)
    | ClientReset
    | PreparationFailed(error: string)  // by the preparation worker, at any moment
    | Published(revision: int)          // by the publisher, at any moment

  predicate CanStep(p: Phase, e: SyncStep) {
    match e
    case ListAnswered(_) => p.Listing?
    case ListApplied(_) => p.Listed?
    case WatchOpened => p.Opening?
    case Progress(_) => p.Streaming?
    case StreamEnded => p.Streaming?
    case TransportFailed(_) => !p.Resetting?
    case DataRejected(_) => p.Listed? || p.Streaming?
    case ClientReset => p.Resetting?
    case PreparationFailed(_) => true
    case Published(_) => true
  }

  function PhaseAfter(p: Phase, e: SyncStep): Phase {
    match e
    case ListAnswered(_) => Listed
    case ListApplied(_) => Opening
    case WatchOpened => Streaming
    case Progress(_) => Streaming
    case StreamEnded => Listing
    case TransportFailed(_) => Resetting
    case DataRejected(_) => Listing
    case ClientReset => Listing
    case PreparationFailed(_) => p
    case Published(_) => p
  }

  function Reported(e: SyncStep): Option<Event> {
    match e
    case ListAnswered(revision) => Some(RecordSyncSuccess(revision))
    case ListApplied(revision) => Some(SetRevision(Some(revision)))
    case WatchOpened => Some(MarkEtcdConnected(true))
    case Progress(revision) => Some(RecordSyncSuccess(revision))
    case StreamEnded => None
    case TransportFailed(error) => Some(RecordSyncError(error))
    case DataRejected(error) => Some(RecordPreparationError(error))
    case ClientReset => Some(MarkEtcdConnected(false))
    case PreparationFailed(error) => Some(RecordPreparationError(error))
    case Published(revision) => Some(SetPublishedRevision(revision))
  }

  function SyncNext(s: Sync, e: SyncStep, now: Instant): Sync {
    Sync(PhaseAfter(s.phase, e),
         match Reported(e)
         case Some(event) => Next(s.status, event, now)
         case None => s.status)
  }

  datatype TimedStep = TimedStep(step: SyncStep, now: Instant)

  /** The loop starts by announcing etcd, on a store configured with any policy. */
  function SyncRun(policy: Event, steps: seq<TimedStep>): Sync {
    if steps == [] then Sync(Listing, Next(Next(Initial(), policy, 0), BeginEtcdSync, 0))
    else
      var s, e := SyncRun(policy, steps[..|steps| - 1]), steps[|steps| - 1];
      if CanStep(s.phase, e.step) then SyncNext(s, e.step, e.now) else s
  }

  /** Past the list answer the transport is known to be up; while resetting it is known to be down. */
  lemma {:induction false} PhaseTellsConnection(policy: Event, steps: seq<TimedStep>)
    requires policy.ConfigurePolicy?
    ensures var s := SyncRun(policy, steps);
            && s.status.configSource == Some(Etcd)
            && (s.phase.Listed? || s.phase.Opening? || s.phase.Streaming? ==> s.status.connected)
            && (s.phase.Resetting? ==> !s.status.connected)
  {
    if steps != [] {
      PhaseTellsConnection(policy, steps[..|steps| - 1]);
    }
  }

  /** A transport error is on record only while disconnected: a list answer clears it before the watch is opened. */
  lemma {:induction false} TransportErrorMeansDisconnected(policy: Event, steps: seq<TimedStep>)
    requires policy.ConfigurePolicy?
    ensures SyncRun(policy, steps).status.errorKind == Some(EtcdUnavailable) ==>
              !SyncRun(policy, steps).status.connected
  {
    if steps != [] {
      TransportErrorMeansDisconnected(policy, steps[..|steps| - 1]);
      PhaseTellsConnection(policy, steps[..|steps| - 1]);
    }
  }

  /** So under the sync loop the status page gives a reason with every degradation. */
  lemma {:induction false} SyncDegradationHasReason(policy: Event, steps: seq<TimedStep>, now: Instant)
    requires policy.ConfigurePolicy?
    ensures var page := Degraded(SyncRun(policy, steps).status, now);
            page.0 <==> page.1.Some?
  {
    TransportErrorMeansDisconnected(policy, steps);
    DegradedWithoutReason(SyncRun(policy, steps).status, now);
  }

  /** So opening the watch never hides a reconnect: only a list answer reconnects, and it raises the fence. */
  lemma {:induction false} SyncReconnectRaisesFence(policy: Event, steps: seq<TimedStep>)
    requires policy.ConfigurePolicy? && steps != []
    requires var before := SyncRun(policy, steps[..|steps| - 1]).status;
             before.initialized && !before.connected && SyncRun(policy, steps).status.connected
    ensures steps[|steps| - 1].step.ListAnswered? && SyncRun(policy, steps).status.awaitingPublish
  {
    PhaseTellsConnection(policy, steps[..|steps| - 1]);
  }

  /**
   Main result: once a running instance has lost etcd, the sync loop serves the last good configuration until it
   reconnects or the outage grows stale, and after reconnecting is ready only once something has been published.
   */
  lemma {:induction false} OutageClosesUntilPublished(policy: Event, steps: seq<TimedStep>, lost: int, now: Instant)
    requires policy.ConfigurePolicy? && 0 <= lost <= |steps|
    requires SyncRun(policy, steps[..lost]).status.initialized && !SyncRun(policy, steps[..lost]).status.connected
    requires forall j :: lost <= j < |steps| ==> !steps[j].step.Published?
    ensures var s := SyncRun(policy, steps).status;
            && s.initialized
            && (s.connected ==> s.awaitingPublish)
            && (ComputeReady(s, now) ==> !s.connected && (policy.failWhenStale ==> !IsStale(s, now)))
  {
    PolicyStays(policy, steps);
    if lost == |steps| {
      assert steps[..lost] == steps;
    } else {
      var before := steps[..|steps| - 1];
      assert before[..lost] == steps[..lost];
      OutageClosesUntilPublished(policy, before, lost, now);
      if !SyncRun(policy, before).status.connected && SyncRun(policy, steps).status.connected {
        SyncReconnectRaisesFence(policy, steps);
      }
    }
  }

  lemma {:induction false} PolicyStays(policy: Event, steps: seq<TimedStep>)
    requires policy.ConfigurePolicy?
    ensures SyncRun(policy, steps).status.failWhenStale == policy.failWhenStale
    ensures SyncRun(policy, steps).status.staleAfter == policy.staleAfterSecs * SECOND
  {
    if steps != [] {
      PolicyStays(policy, steps[..|steps| - 1]);
    }
  }

  /** Step `k` of a run takes effect. */
  predicate Takes(policy: Event, steps: seq<TimedStep>, k: int) {
    0 <= k < |steps| && CanStep(SyncRun(policy, steps[..k]).phase, steps[k].step)
  }

  /** A publication opens the gate, whatever came before, but for an outage that has grown stale. */
  lemma {:induction false} PublicationOpens(policy: Event, steps: seq<TimedStep>, now: Instant)
    requires policy.ConfigurePolicy? && steps != [] && steps[|steps| - 1].step.Published?
    ensures var s := SyncRun(policy, steps).status;
            && s.initialized && !s.awaitingPublish && s.publishedRevision == Some(steps[|steps| - 1].step.revision)
            && (ComputeReady(s, now) <==> !(policy.failWhenStale && IsStale(s, now)))
  {
    PhaseTellsConnection(policy, steps[..|steps| - 1]);
    PolicyStays(policy, steps);
  }

  /** Only a transport failure loses the connection: a stream that ends, or rejected data, does not. */
  lemma {:induction false} OnlyFailuresDisconnect(policy: Event, steps: seq<TimedStep>)
    requires policy.ConfigurePolicy? && steps != []
    requires SyncRun(policy, steps[..|steps| - 1]).status.connected && !SyncRun(policy, steps).status.connected
    ensures steps[|steps| - 1].step.TransportFailed?
  {
    PhaseTellsConnection(policy, steps[..|steps| - 1]);
  }

  /** Rejected data goes on record and changes neither the connection nor readiness. */
  lemma {:induction false} RejectionKeepsServing(policy: Event, steps: seq<TimedStep>, now: Instant)
    requires Takes(policy, steps, |steps| - 1)
    requires steps[|steps| - 1].step.DataRejected? || steps[|steps| - 1].step.PreparationFailed?
    ensures var before, after := SyncRun(policy, steps[..|steps| - 1]).status, SyncRun(policy, steps).status;
            && after.connected == before.connected && ComputeReady(after, now) == ComputeReady(before, now)
            && after.errorKind == Some(CandidateInvalid) && after.lastError == Some(steps[|steps| - 1].step.error)
  {
  }

  /** The revision that the last list or watch answer carried. */
  function LastSeen(policy: Event, steps: seq<TimedStep>): Option<int> {
    if steps == [] then None
    else
      var n := |steps| - 1;
      if !Takes(policy, steps, n) then LastSeen(policy, steps[..n])
      else
        match steps[n].step
        case ListAnswered(revision) => Some(revision)
        case ListApplied(revision) => Some(revision)
        case Progress(revision) => Some(revision)
        case _ => LastSeen(policy, steps[..n])
  }

  lemma {:induction false} SyncTracksRevision(policy: Event, steps: seq<TimedStep>)
    requires policy.ConfigurePolicy?
    ensures SyncRun(policy, steps).status.revision == LastSeen(policy, steps)
  {
    if steps != [] {
      var n := |steps| - 1;
      var before := SyncRun(policy, steps[..n]);
      SyncTracksRevision(policy, steps[..n]);
      if Takes(policy, steps, n) && Reported(steps[n].step).Some? {
        EffectOnRevisions(before.status, Reported(steps[n].step).value, steps[n].now);
      }
    }
  }

  /** When a list or watch answer, or a publication, last took effect. */
  function LastGood(policy: Event, steps: seq<TimedStep>): Option<Instant> {
    if steps == [] then None
    else
      var n := |steps| - 1;
      if Takes(policy, steps, n)
         && (steps[n].step.ListAnswered? || steps[n].step.Progress? || steps[n].step.Published?)
      then Some(steps[n].now) else LastGood(policy, steps[..n])
  }

  lemma {:induction false} SyncTracksSuccess(policy: Event, steps: seq<TimedStep>)
    requires policy.ConfigurePolicy?
    ensures SyncRun(policy, steps).status.lastSuccess == LastGood(policy, steps)
  {
    if steps != [] {
      var n := |steps| - 1;
      var before := SyncRun(policy, steps[..n]);
      SyncTracksSuccess(policy, steps[..n]);
      PhaseTellsConnection(policy, steps[..n]);
      if Takes(policy, steps, n) && Reported(steps[n].step).Some? {
        EffectOnService(before.status, Reported(steps[n].step).value, steps[n].now);
      }
    }
  }

  /** After a transport failure the client has been reset before etcd is listed again. */
  lemma {:induction false} RelistNeedsReset(policy: Event, steps: seq<TimedStep>, i: int, j: int)
    requires i < j && Takes(policy, steps, i) && Takes(policy, steps, j)
    requires steps[i].step.TransportFailed? && steps[j].step.ListAnswered?
    ensures exists k :: i < k < j && Takes(policy, steps, k) && steps[k].step.ClientReset?
  {
    StaysResetting(policy, steps, i, j);
  }

  lemma {:induction false} StaysResetting(policy: Event, steps: seq<TimedStep>, i: int, m: int)
    requires i < m <= |steps| && Takes(policy, steps, i) && steps[i].step.TransportFailed?
    ensures SyncRun(policy, steps[..m]).phase.Resetting?
            || exists k :: i < k < m && Takes(policy, steps, k) && steps[k].step.ClientReset?
    decreases m
  {
    assert steps[..m][..m - 1] == steps[..m - 1] && steps[..m][m - 1] == steps[m - 1];
    if i < m - 1 {
      StaysResetting(policy, steps, i, m - 1);
      if SyncRun(policy, steps[..m - 1]).phase.Resetting? && !SyncRun(policy, steps[..m]).phase.Resetting? {
        assert Takes(policy, steps, m - 1) && steps[m - 1].step.ClientReset?;
      }
    }
  }

  // ----- the order of the loop -----

  /** A step of the loop itself, not of the workers beside it. */
  predicate OfLoop(e: SyncStep) {
    !e.PreparationFailed? && !e.Published?
  }

  /** What the loop last did. */
  function LastOfLoop(policy: Event, steps: seq<TimedStep>): Option<SyncStep> {
    if steps == [] then None
    else
      var n := |steps| - 1;
      if Takes(policy, steps, n) && OfLoop(steps[n].step) then Some(steps[n].step) else LastOfLoop(policy, steps[..n])
  }

  /**
   The program's order: list and apply, watch while it streams, and list again when the stream ends, when data was
   rejected, and when the client has been reset after a failure, which can come anywhere else.
   */
  predicate MayFollow(e: SyncStep, last: Option<SyncStep>) {
    match e
    case ListAnswered(_) =>
      last.None? || last.value.StreamEnded? || last.value.DataRejected? || last.value.ClientReset?
    case ListApplied(_) => last.Some? && last.value.ListAnswered?
    case WatchOpened => last.Some? && last.value.ListApplied?
    case Progress(_) => Watches(last)
    case StreamEnded => Watches(last)
    case TransportFailed(_) => last.None? || !last.value.TransportFailed?
    case DataRejected(_) => (last.Some? && last.value.ListAnswered?) || Watches(last)
    case ClientReset => last.Some? && last.value.TransportFailed?
    case PreparationFailed(_) => true
    case Published(_) => true
  }

  predicate Watches(last: Option<SyncStep>) {
    last.Some? && (last.value.WatchOpened? || last.value.Progress?)
  }

  /** Main result on the order: a step can be taken iff it may follow what the loop last did. */
  lemma {:induction false} StepsFollow(policy: Event, steps: seq<TimedStep>, e: SyncStep)
    ensures CanStep(SyncRun(policy, steps).phase, e) <==> MayFollow(e, LastOfLoop(policy, steps))
  {
    PhaseIsLastStep(policy, steps);
  }

  predicate PhaseFits(p: Phase, last: Option<SyncStep>) {
    match last
    case None => p.Listing?
    case Some(e) =>
      if e.ListAnswered? then p.Listed?
      else if e.ListApplied? then p.Opening?
      else if e.WatchOpened? || e.Progress? then p.Streaming?
      else if e.TransportFailed? then p.Resetting?
      else p.Listing?
  }

  lemma {:induction false} PhaseIsLastStep(policy: Event, steps: seq<TimedStep>)
    ensures PhaseFits(SyncRun(policy, steps).phase, LastOfLoop(policy, steps))
    ensures LastOfLoop(policy, steps).Some? ==> OfLoop(LastOfLoop(policy, steps).value)
  {
    if steps != [] {
      PhaseIsLastStep(policy, steps[..|steps| - 1]);
    }
  }

  function SyncAfter(s: Sync, e: SyncStep, now: Instant): Sync {
    if CanStep(s.phase, e) then SyncNext(s, e, now) else s
  }

  lemma {:induction false} SyncTwo(policy: Event, steps: seq<TimedStep>, d: SyncStep, e: SyncStep, now: Instant)
    ensures SyncRun(policy, steps + [TimedStep(d, now), TimedStep(e, now)])
         == SyncAfter(SyncAfter(SyncRun(policy, steps), d, now), e, now)
  {
    var first, second := TimedStep(d, now), TimedStep(e, now);
    assert (steps + [first, second])[..|steps| + 1] == steps + [first];
    assert (steps + [first])[..|steps|] == steps;
  }

  /** A failure, a reset, a list and a publication. */
  function Recovery(error: string, revision: int, now: Instant): seq<TimedStep> {
    [TimedStep(TransportFailed(error), now), TimedStep(ClientReset, now)]
    + [TimedStep(ListAnswered(revision), now), TimedStep(ListApplied(revision), now)]
    + [TimedStep(WatchOpened, now), TimedStep(Published(revision), now)]
  }

  /** Main result on recovery: from any reached state they end in a watching, ready instance on that revision. */
  lemma {:induction false} SyncRecovers(policy: Event, steps: seq<TimedStep>, error: string, revision: int,
                                        now: Instant, later: Instant)
    requires policy.ConfigurePolicy?
    ensures var s := SyncRun(policy, steps + Recovery(error, revision, now));
            && s.phase == Streaming && s.status.connected && ComputeReady(s.status, later)
            && s.status.revision == s.status.publishedRevision == Some(revision)
            && s.status.lastSuccess == Some(now) && s.status.errorKind == None
  {
    var failed := steps + [TimedStep(TransportFailed(error), now), TimedStep(ClientReset, now)];
    var listed := failed + [TimedStep(ListAnswered(revision), now), TimedStep(ListApplied(revision), now)];
    var served := listed + [TimedStep(WatchOpened, now), TimedStep(Published(revision), now)];
    assert steps + Recovery(error, revision, now) == served;
    SyncTwo(policy, steps, TransportFailed(error), ClientReset, now);
    SyncTwo(policy, failed, ListAnswered(revision), ListApplied(revision), now);
    SyncTwo(policy, listed, WatchOpened, Published(revision), now);
    PhaseTellsConnection(policy, steps);
    assert SyncRun(policy, failed).phase == Listing;
    assert SyncRun(policy, listed).phase == Opening;
    PhaseTellsConnection(policy, served);
  }
}
