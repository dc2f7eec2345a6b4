/**
 status: readiness and staleness of one gateway instance as functions of everything that was reported to its store.
 Instants are nanoseconds of a monotonic clock.
 */
module Status {
  import opened Wrappers

  type Instant = nat

  const SECOND: nat := 1_000_000_000
  const DEFAULT_STALE_SECS: nat := 300

  datatype ConfigSource = Yaml | Etcd
  datatype ErrorKind = EtcdUnavailable | CandidateInvalid

  datatype State = State(initialized: bool, configSource: Option<ConfigSource>, revision: Option<int>,
                         publishedRevision: Option<int>, lastSuccess: Option<Instant>, errorKind: Option<ErrorKind>,
                         lastError: Option<string>, connected: bool, disconnectedSince: Option<Instant>,
                         awaitingPublish: bool, staleAfter: nat, failWhenStale: bool)

  function Initial(): State {
    State(false, None, None, None, None, None, None, false, None, false, DEFAULT_STALE_SECS * SECOND, true)
  }

  datatype Event =
    | ConfigurePolicy(staleAfterSecs: nat, failWhenStale: bool)
    | MarkReady(source: ConfigSource)
    | MarkEtcdConnected(connected: bool)
    | BeginEtcdSync
    | SetRevision(revision: Option<int>)
    | SetPublishedRevision(published: int)
    | RecordSyncSuccess(observed: int)
    | RecordSyncError(error: string)
    | RecordPreparationError(error: string)

  /** An outage starts when the instance was connected, or was never connected and reports its first failure. */
  function Disconnected(s: State, now: Instant): State {
    s.(connected := false,
       disconnectedSince := if s.connected || s.disconnectedSince.None? then Some(now) else s.disconnectedSince)
  }

  function Next(s: State, e: Event, now: Instant): State {
    match e
    case ConfigurePolicy(secs, fail) => s.(staleAfter := secs * SECOND, failWhenStale := fail)
    case MarkReady(source) =>
      s.(initialized := true, configSource := Some(source), lastSuccess := Some(now), errorKind := None,
         lastError := None, connected := s.connected || source == Yaml)
    case MarkEtcdConnected(connected) =>
      if connected then s.(connected := true, disconnectedSince := None) else Disconnected(s, now)
    case BeginEtcdSync => s.(configSource := Some(Etcd))
    case SetRevision(revision) => s.(revision := revision)
    case SetPublishedRevision(revision) =>
      var p := s.(publishedRevision := Some(revision));
      if s.configSource == Some(Etcd)
      then p.(initialized := true, lastSuccess := Some(now), errorKind := None, lastError := None,
              awaitingPublish := false)
      else p
    case RecordSyncSuccess(revision) =>
      var transport := s.errorKind == Some(EtcdUnavailable);
      s.(revision := Some(revision), lastSuccess := Some(now),
         errorKind := if transport then None else s.errorKind,
         lastError := if transport then None else s.lastError,
         configSource := Some(s.configSource.GetOr(Etcd)),
         awaitingPublish := s.awaitingPublish || (!s.connected && s.initialized),
         connected := true, disconnectedSince := None)
    case RecordSyncError(error) =>
      Disconnected(s, now).(errorKind := Some(EtcdUnavailable), lastError := Some(error))
    case RecordPreparationError(error) => s.(errorKind := Some(CandidateInvalid), lastError := Some(error))
  }

  // ----- what probes read; every look at the clock is its own argument -----

  function Elapsed(since: Instant, now: Instant): nat {
    if since <= now then now - since else 0
  }

  predicate IsStale(s: State, now: Instant) {
    s.configSource == Some(Etcd) && !s.connected && s.disconnectedSince.Some?
    && Elapsed(s.disconnectedSince.value, now) > s.staleAfter
  }

  predicate ComputeReady(s: State, now: Instant) {
    s.initialized && !s.awaitingPublish && !(s.failWhenStale && IsStale(s, now))
  }

  datatype Reason = NotInitialized | ConfigStale | AwaitingPublishAfterReconnect | ConfigInvalid

  /** The readiness probe looks at the clock twice under one lock, at `t1` and then at `t2`. */
  function Readiness(s: State, t1: Instant, t2: Instant): (bool, Option<Reason>) {
    var ready := ComputeReady(s, t1);
    (ready,
     if ready then None
     else if !s.initialized then Some(NotInitialized)
     else if IsStale(s, t2) then Some(ConfigStale)
     else if s.awaitingPublish then Some(AwaitingPublishAfterReconnect)
     else Some(ConfigInvalid))
  }

  /** A closed gate has one of three causes; the fourth reason is never given. */
  lemma {:induction false} ReadinessReasons(s: State, t1: Instant, t2: Instant)
    requires t1 <= t2
    ensures var (ready, reason) := Readiness(s, t1, t2);
            && ready == ComputeReady(s, t1)
            && reason != Some(ConfigInvalid)
            && (reason == None <==> ready)
            && (reason == Some(NotInitialized) <==> !s.initialized)
            && (reason == Some(ConfigStale) <==> s.initialized && IsStale(s, t2) && !ready)
            && (reason == Some(ConfigStale) ==> s.failWhenStale || s.awaitingPublish)
            && (reason == Some(AwaitingPublishAfterReconnect) <==>
                s.initialized && s.awaitingPublish && !IsStale(s, t2))
  {
    if IsStale(s, t1) {
      assert IsStale(s, t2);
    }
  }

  datatype Degradation = EtcdDisconnected | SyncStale | CandidateRejected | AwaitingPublish

  /** The status page: whether the instance is degraded, and why. */
  function Degraded(s: State, now: Instant): (bool, Option<Degradation>) {
    var stale := IsStale(s, now);
    (s.initialized && (!s.connected || stale || s.errorKind.Some? || s.awaitingPublish),
     if !s.initialized then None
     else if !s.connected then Some(EtcdDisconnected)
     else if stale then Some(SyncStale)
     else if s.errorKind == Some(CandidateInvalid) then Some(CandidateRejected)
     else if s.awaitingPublish then Some(AwaitingPublish)
     else None)
  }

  /** The page gives a reason with every degradation except a transport error kept over a reconnect. */
  lemma {:induction false} DegradedWithoutReason(s: State, now: Instant)
    ensures Degraded(s, now).1.Some? ==> Degraded(s, now).0
    ensures Degraded(s, now).0 && Degraded(s, now).1.None? <==>
            s.initialized && s.connected && !s.awaitingPublish && s.errorKind == Some(EtcdUnavailable)
    ensures Degraded(s, now).1 != Some(SyncStale)
    ensures Degraded(s, now).1 == Some(EtcdDisconnected) <==> s.initialized && !s.connected
    ensures Degraded(s, now).1 == Some(CandidateRejected) <==>
            s.initialized && s.connected && s.errorKind == Some(CandidateInvalid)
    ensures Degraded(s, now).1 == Some(AwaitingPublish) <==>
            s.initialized && s.connected && s.errorKind != Some(CandidateInvalid) && s.awaitingPublish
  {
    if s.errorKind.Some? {
      assert s.errorKind.value == EtcdUnavailable || s.errorKind.value == CandidateInvalid;
    }
  }

  // ----- the store -----

  /** The locked record; each method is one critical section and takes the instant it reads the clock. */
  class StatusStore {
    var initialized: bool
    var configSource: Option<ConfigSource>
    var revision: Option<int>
    var publishedRevision: Option<int>
    var lastSuccess: Option<Instant>
    var errorKind: Option<ErrorKind>
    var lastError: Option<string>
    var connected: bool
    var disconnectedSince: Option<Instant>
    var awaitingPublishAfterReconnect: bool
    var configStaleAfter: nat
    var failReadinessWhenStale: bool

    function View(): State
      reads this
    {
      State(initialized, configSource, revision, publishedRevision, lastSuccess, errorKind, lastError, connected,
            disconnectedSince, awaitingPublishAfterReconnect, configStaleAfter, failReadinessWhenStale)
    }

    constructor ()
      ensures View() == Initial()
    {
      initialized, configSource, revision, publishedRevision, lastSuccess := false, None, None, None, None;
      errorKind, lastError, connected, disconnectedSince := None, None, false, None;
      awaitingPublishAfterReconnect, configStaleAfter := false, DEFAULT_STALE_SECS * SECOND;
      failReadinessWhenStale := true;
    }

    method SetPolicy(configStaleAfterSecs: nat, failWhenStale: bool, now: Instant)
      modifies this
      ensures View() == Next(old(View()), ConfigurePolicy(configStaleAfterSecs, failWhenStale), now)
    {
      configStaleAfter := configStaleAfterSecs * SECOND;
      failReadinessWhenStale := failWhenStale;
    }

    method SetReady(source: ConfigSource, now: Instant)
      modifies this
      ensures View() == Next(old(View()), MarkReady(source), now)
    {
      initialized := true;
      configSource := Some(source);
      lastSuccess := Some(now);
      errorKind := None;
      lastError := None;
      if source == Yaml {
        connected := true;
      }
    }

    method SetEtcdConnected(isConnected: bool, now: Instant)
      modifies this
      ensures View() == Next(old(View()), MarkEtcdConnected(isConnected), now)
    {
      if isConnected {
        disconnectedSince := None;
      } else if connected || disconnectedSince.None? {
        disconnectedSince := Some(now);
      }
      connected := isConnected;
    }

    method StartEtcdSync(now: Instant)
      modifies this
      ensures View() == Next(old(View()), BeginEtcdSync, now)
    {
      configSource := Some(Etcd);
    }

    method SetObservedRevision(observed: Option<int>, now: Instant)
      modifies this
      ensures View() == Next(old(View()), SetRevision(observed), now)
    {
      revision := observed;
    }

    method Publish(published: int, now: Instant)
      modifies this
      ensures View() == Next(old(View()), SetPublishedRevision(published), now)
    {
      publishedRevision := Some(published);
      if configSource == Some(Etcd) {
        initialized := true;
        lastSuccess := Some(now);
        errorKind := None;
        lastError := None;
        awaitingPublishAfterReconnect := false;
      }
    }

    method SyncSucceeded(observed: int, now: Instant)
      modifies this
      ensures View() == Next(old(View()), RecordSyncSuccess(observed), now)
    {
      revision := Some(observed);
      lastSuccess := Some(now);
      if errorKind == Some(EtcdUnavailable) {
        errorKind := None;
        lastError := None;
      }
      if configSource.None? {
        configSource := Some(Etcd);
      }
      if !connected && initialized {
        awaitingPublishAfterReconnect := true;
      }
      connected := true;
      disconnectedSince := None;
    }

    method SyncFailed(error: string, now: Instant)
      modifies this
      ensures View() == Next(old(View()), RecordSyncError(error), now)
    {
      errorKind := Some(EtcdUnavailable);
      lastError := Some(error);
      if connected || disconnectedSince.None? {
        disconnectedSince := Some(now);
      }
      connected := false;
    }

    method PreparationFailed(error: string, now: Instant)
      modifies this
      ensures View() == Next(old(View()), RecordPreparationError(error), now)
    {
      errorKind := Some(CandidateInvalid);
      lastError := Some(error);
    }
  }

  // ----- all runs of the store -----

  datatype Report = Report(event: Event, now: Instant)

  function Run(reports: seq<Report>): State {
    if reports == [] then Initial()
    else
      var n := |reports| - 1;
      Next(Run(reports[..n]), reports[n].event, reports[n].now)
  }

  predicate IsConnect(e: Event) {
    e == MarkEtcdConnected(true) || e.RecordSyncSuccess? || e == MarkReady(Yaml)
  }

  predicate IsDisconnect(e: Event) {
    e == MarkEtcdConnected(false) || e.RecordSyncError?
  }

  /** Report i is the first disconnect since the last connect before it, and nothing has connected since. */
  ghost predicate StartsOutage(reports: seq<Report>, i: int) {
    && 0 <= i < |reports| && IsDisconnect(reports[i].event)
    && (forall j :: i < j < |reports| ==> !IsConnect(reports[j].event))
    && (forall j :: 0 <= j < i && IsDisconnect(reports[j].event) ==>
          exists k :: j < k < i && IsConnect(reports[k].event))
  }

  /** `connected` is the kind of the last connect or disconnect; the outage start is the first of its disconnects. */
  lemma {:induction false} OutageStartIsFirstDisconnect(reports: seq<Report>, i: int)
    requires StartsOutage(reports, i)
    ensures !Run(reports).connected && Run(reports).disconnectedSince == Some(reports[i].now)
  {
    var n := |reports| - 1;
    var before := Run(reports[..n]);
    if i < n {
      assert StartsOutage(reports[..n], i) by {
        forall j | 0 <= j < i && IsDisconnect(reports[..n][j].event)
          ensures exists k :: j < k < i && IsConnect(reports[..n][k].event)
        {
          assert IsDisconnect(reports[j].event);
          var k :| j < k < i && IsConnect(reports[k].event);
          assert IsConnect(reports[..n][k].event);
        }
      }
      OutageStartIsFirstDisconnect(reports[..n], i);
    } else if !before.connected && before.disconnectedSince.Some? {
      SomeOpenDisconnect(reports, n);
    }
  }

  /** Report `d` among the first `n` disconnects, and none of them after it connects. */
  ghost predicate OpenDisconnect(reports: seq<Report>, d: int, n: nat)
    requires n <= |reports|
  {
    0 <= d < n && IsDisconnect(reports[d].event) && forall k :: d < k < n ==> !IsConnect(reports[k].event)
  }

  lemma {:induction false} SomeOpenDisconnect(reports: seq<Report>, n: nat)
    requires n <= |reports| && !Run(reports[..n]).connected && Run(reports[..n]).disconnectedSince.Some?
    ensures exists d :: OpenDisconnect(reports, d, n)
  {
    var d := SomeDisconnect(reports[..n]);
    forall k | d < k < n ensures !IsConnect(reports[k].event) {
      assert !IsConnect(reports[..n][k].event);
    }
    assert OpenDisconnect(reports, d, n);
  }

  /** A recorded outage has a disconnect with no connect after it. */
  lemma {:induction false} SomeDisconnect(reports: seq<Report>) returns (d: int)
    requires !Run(reports).connected && Run(reports).disconnectedSince.Some?
    ensures 0 <= d < |reports| && IsDisconnect(reports[d].event)
    ensures forall j :: d < j < |reports| ==> !IsConnect(reports[j].event)
  {
    var n := |reports| - 1;
    if IsDisconnect(reports[n].event) {
      d := n;
    } else {
      d := SomeDisconnect(reports[..n]);
      forall j | d < j < |reports| ensures !IsConnect(reports[j].event) {
        if j < n {
          assert !IsConnect(reports[..n][j].event);
        }
      }
    }
  }

  /** Conversely every recorded outage has its start among the reports. */
  lemma {:induction false} OutageHasStart(reports: seq<Report>) returns (i: int)
    requires !Run(reports).connected && Run(reports).disconnectedSince.Some?
    ensures StartsOutage(reports, i)
  {
    var d := SomeDisconnect(reports);
    i := d;
    while exists j :: 0 <= j < i && IsDisconnect(reports[j].event)
                      && forall k :: j < k < i ==> !IsConnect(reports[k].event)
      invariant 0 <= i < |reports| && IsDisconnect(reports[i].event)
      invariant forall j :: i < j < |reports| ==> !IsConnect(reports[j].event)
      decreases i
    {
      var j :| 0 <= j < i && IsDisconnect(reports[j].event) && forall k :: j < k < i ==> !IsConnect(reports[k].event);
      assert !IsConnect(reports[i].event);
      i := j;
    }
  }

  /** Main result on staleness: it is counted from the start of the outage, whatever errors are reported later. */
  lemma {:induction false} StaleIffOutageTooLong(reports: seq<Report>, now: Instant)
    ensures IsStale(Run(reports), now) <==>
            Run(reports).configSource == Some(Etcd) &&
            exists i :: StartsOutage(reports, i) && reports[i].now + Run(reports).staleAfter < now
  {
    if IsStale(Run(reports), now) {
      var i := OutageHasStart(reports);
      OutageStartIsFirstDisconnect(reports, i);
    }
    forall i | StartsOutage(reports, i)
      ensures !Run(reports).connected && Run(reports).disconnectedSince == Some(reports[i].now)
    {
      OutageStartIsFirstDisconnect(reports, i);
    }
  }

  /** Report i reconnects an initialized instance by listing or watching. */
  predicate Fences(reports: seq<Report>, i: int) {
    0 <= i < |reports| && reports[i].event.RecordSyncSuccess?
    && Run(reports[..i]).initialized && !Run(reports[..i]).connected
  }

  predicate PublishesUnderEtcd(reports: seq<Report>, i: int) {
    0 <= i < |reports| && reports[i].event.SetPublishedRevision? && Run(reports[..i]).configSource == Some(Etcd)
  }

  ghost predicate FencedSince(reports: seq<Report>, i: int) {
    Fences(reports, i) && forall j :: i < j < |reports| ==> !PublishesUnderEtcd(reports, j)
  }

  lemma {:induction false} FencedSinceExtends(reports: seq<Report>, i: int)
    requires reports != [] && i < |reports| - 1
    ensures FencedSince(reports, i) <==>
            FencedSince(reports[..|reports| - 1], i) && !PublishesUnderEtcd(reports, |reports| - 1)
  {
    var before := reports[..|reports| - 1];
    assert forall k :: 0 <= k < |before| ==> before[..k] == reports[..k];
    assert Fences(before, i) == Fences(reports, i);
    assert forall k :: 0 <= k < |before| ==> PublishesUnderEtcd(before, k) == PublishesUnderEtcd(reports, k);
  }

  lemma {:induction false} AwaitingExtends(reports: seq<Report>)
    requires reports != []
    ensures var n := |reports| - 1;
            Run(reports).awaitingPublish <==>
            Fences(reports, n) || (Run(reports[..n]).awaitingPublish && !PublishesUnderEtcd(reports, n))
  {
  }

  /** Main result on the fence: it is up exactly from such a reconnect until the next publication under etcd. */
  lemma {:induction false} AwaitingIffUnpublishedReconnect(reports: seq<Report>)
    ensures Run(reports).awaitingPublish <==> exists i :: FencedSince(reports, i)
  {
    if reports != [] {
      var n := |reports| - 1;
      AwaitingIffUnpublishedReconnect(reports[..n]);
      forall i | i < n
        ensures FencedSince(reports, i) <==> FencedSince(reports[..n], i) && !PublishesUnderEtcd(reports, n)
      {
        FencedSinceExtends(reports, i);
      }
      AwaitingExtends(reports);
      assert FencedSince(reports, n) <==> Fences(reports, n);
      if Run(reports).awaitingPublish {
        if !Fences(reports, n) {
          var i :| FencedSince(reports[..n], i);
          assert FencedSince(reports, i);
        } else {
          assert FencedSince(reports, n);
        }
      }
      forall i | FencedSince(reports, i) ensures Run(reports).awaitingPublish {
        assert i < n ==> FencedSince(reports[..n], i);
      }
    }
  }

  /** Hence no probe finds the instance ready between the reconnect and that publication. */
  lemma {:induction false} ClosedUntilPublished(reports: seq<Report>, i: int, now: Instant)
    requires FencedSince(reports, i)
    ensures !ComputeReady(Run(reports), now)
  {
    AwaitingIffUnpublishedReconnect(reports);
  }

  /** Reported through the connection flag first, the same reconnect raises no fence. */
  lemma {:induction false} FlagFirstRaisesNoFence()
    ensures var reports := [Report(MarkReady(Etcd), 0), Report(RecordSyncError("e"), 1),
                            Report(MarkEtcdConnected(true), 2), Report(RecordSyncSuccess(7), 3)];
            ComputeReady(Run(reports), 3) && Degraded(Run(reports[..3]), 2) == (true, None)
  {
    var r0 := Report(MarkReady(Etcd), 0);
    var r1 := Report(RecordSyncError("e"), 1);
    var r2 := Report(MarkEtcdConnected(true), 2);
    var r3 := Report(RecordSyncSuccess(7), 3);
    assert [r0, r1, r2, r3][..3] == [r0, r1, r2];
    assert [r0, r1, r2][..2] == [r0, r1];
    assert [r0, r1][..1] == [r0];
    assert [r0][..0] == [];
    assert Run([]) == Initial();
    var s0 := Run([r0]);
    assert s0 == Next(Initial(), MarkReady(Etcd), 0);
    var s1 := Run([r0, r1]);
    assert s1 == Next(s0, RecordSyncError("e"), 1);
    var s2 := Run([r0, r1, r2]);
    assert s2 == Next(s1, MarkEtcdConnected(true), 2);
    assert Run([r0, r1, r2, r3]) == Next(s2, RecordSyncSuccess(7), 3);
  }
}
