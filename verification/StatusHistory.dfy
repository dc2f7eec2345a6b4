/** status: every field of the store, and readiness, read off the reports. */
module StatusHistory {
  import opened Wrappers
  import opened Status

  /** The last of the first `n` reports that `p` picks, or -1. */
  function Last(p: int -> bool, n: nat): int {
    if n == 0 then -1 else if p(n - 1) then n - 1 else Last(p, n - 1)
  }

  /** It depends on those reports alone. */
  lemma {:induction false} LastSame(p: int -> bool, q: int -> bool, n: nat)
    requires forall i :: 0 <= i < n ==> p(i) == q(i)
    ensures Last(p, n) == Last(q, n) && -1 <= Last(p, n) < n && (Last(p, n) >= 0 ==> p(Last(p, n)))
  {
    if n > 0 {
      LastSame(p, q, n - 1);
    }
  }

  predicate NamesSource(e: Event) {
    e.MarkReady? || e.BeginEtcdSync?
  }

  predicate NamesRevision(e: Event) {
    e.SetRevision? || e.RecordSyncSuccess?
  }

  /** The report puts the instance in service, or publishes to one that follows etcd. */
  predicate Initializes(reports: seq<Report>, i: int) {
    (0 <= i < |reports| && reports[i].event.MarkReady?) || PublishesUnderEtcd(reports, i)
  }

  predicate Succeeds(reports: seq<Report>, i: int) {
    Initializes(reports, i) || (0 <= i < |reports| && reports[i].event.RecordSyncSuccess?)
  }

  predicate Fails(e: Event) {
    e.RecordSyncError? || e.RecordPreparationError?
  }

  function At(reports: seq<Report>, p: Event -> bool): int -> bool {
    (i: int) => 0 <= i < |reports| && p(reports[i].event)
  }

  function Initializing(reports: seq<Report>): int -> bool {
    (i: int) => Initializes(reports, i)
  }

  function Succeeding(reports: seq<Report>): int -> bool {
    (i: int) => Succeeds(reports, i)
  }

  /** What a failure on record may be followed by: nothing that clears it. */
  function Settling(reports: seq<Report>): int -> bool {
    (i: int) => Initializes(reports, i) || (0 <= i < |reports| && Fails(reports[i].event))
  }

  function SettlingTransport(reports: seq<Report>): int -> bool {
    (i: int) => Succeeds(reports, i) || (0 <= i < |reports| && Fails(reports[i].event))
  }

  function Source(e: Event): ConfigSource {
    if e.MarkReady? then e.source else Etcd
  }

  function Revision(e: Event): Option<int> {
    match e
    case SetRevision(revision) => revision
    case RecordSyncSuccess(observed) => Some(observed)
    case _ => None
  }

  function Policy(e: Event): (nat, bool) {
    if e.ConfigurePolicy? then (e.staleAfterSecs * SECOND, e.failWhenStale) else (DEFAULT_STALE_SECS * SECOND, true)
  }

  /** The policy in force: the last one configured, or the default. */
  function PolicyOf(reports: seq<Report>): (nat, bool) {
    var k := Last(At(reports, (e: Event) => e.ConfigurePolicy?), |reports|);
    if 0 <= k < |reports| then Policy(reports[k].event) else (DEFAULT_STALE_SECS * SECOND, true)
  }

  /** The source: the last one named, or else etcd once it has made progress. */
  function SourceOf(reports: seq<Report>): Option<ConfigSource> {
    var k := Last(At(reports, (e: Event) => NamesSource(e)), |reports|);
    if 0 <= k < |reports| then Some(Source(reports[k].event))
    else if Last(At(reports, (e: Event) => e.RecordSyncSuccess?), |reports|) >= 0 then Some(Etcd)
    else None
  }

  function RevisionOf(reports: seq<Report>): Option<int> {
    var k := Last(At(reports, (e: Event) => NamesRevision(e)), |reports|);
    if 0 <= k < |reports| then Revision(reports[k].event) else None
  }

  function PublishedOf(reports: seq<Report>): Option<int> {
    var k := Last(At(reports, (e: Event) => e.SetPublishedRevision?), |reports|);
    if 0 <= k < |reports| && reports[k].event.SetPublishedRevision? then Some(reports[k].event.published) else None
  }

  predicate SpeaksOfEtcd(e: Event) {
    IsConnect(e) || IsDisconnect(e)
  }

  /** Connected if the last report that connects or disconnects connects; not before the first. */
  function ConnectedOf(reports: seq<Report>): bool {
    var k := Last(At(reports, (e: Event) => SpeaksOfEtcd(e)), |reports|);
    0 <= k < |reports| && IsConnect(reports[k].event)
  }

  predicate Clears(e: Event) {
    e == MarkEtcdConnected(true) || e.RecordSyncSuccess?
  }

  /** An outage start is on record once a disconnect has come after the last list or watch answer or opened watch. */
  predicate HasOutageStart(reports: seq<Report>) {
    Last(At(reports, (e: Event) => IsDisconnect(e)), |reports|) > Last(At(reports, (e: Event) => Clears(e)), |reports|)
  }

  function SuccessOf(reports: seq<Report>): Option<Instant> {
    var k := Last(Succeeding(reports), |reports|);
    if 0 <= k < |reports| then Some(reports[k].now) else None
  }

  /**
   A rejected candidate stays on record until a failure, a publication or a start; a transport error also yields to
   progress.
   */
  function ErrorOf(reports: seq<Report>): Option<(ErrorKind, string)> {
    var k, t := Last(Settling(reports), |reports|), Last(SettlingTransport(reports), |reports|);
    if 0 <= k < |reports| && reports[k].event.RecordPreparationError?
    then Some((CandidateInvalid, reports[k].event.error))
    else if 0 <= t < |reports| && reports[t].event.RecordSyncError?
    then Some((EtcdUnavailable, reports[t].event.error))
    else None
  }

  /** The reports before the last, and which of them each function picks. */
  lemma {:induction false} EarlierPicks(reports: seq<Report>, p: Event -> bool)
    requires reports != []
    ensures var n := |reports| - 1; Last(At(reports, p), n) == Last(At(reports[..n], p), n)
    ensures Last(At(reports, p), |reports|) == if p(reports[|reports| - 1].event) then |reports| - 1
                                               else Last(At(reports[..|reports| - 1], p), |reports| - 1)
    ensures -1 <= Last(At(reports[..|reports| - 1], p), |reports| - 1) < |reports| - 1
  {
    LastSame(At(reports, p), At(reports[..|reports| - 1], p), |reports| - 1);
  }

  lemma {:induction false} PrefixInitializes(reports: seq<Report>, i: int)
    requires reports != [] && i < |reports| - 1
    ensures Initializes(reports[..|reports| - 1], i) == Initializes(reports, i)
    ensures Succeeds(reports[..|reports| - 1], i) == Succeeds(reports, i)
  {
    if 0 <= i {
      assert reports[..|reports| - 1][..i] == reports[..i];
    }
  }

  lemma {:induction false} EarlierStatePicks(reports: seq<Report>)
    requires reports != []
    ensures var n, before := |reports| - 1, reports[..|reports| - 1];
            && Last(Initializing(reports), n) == Last(Initializing(before), n)
            && Last(Succeeding(reports), n) == Last(Succeeding(before), n)
            && Last(Settling(reports), n) == Last(Settling(before), n)
            && Last(SettlingTransport(reports), n) == Last(SettlingTransport(before), n)
            && -1 <= Last(Initializing(before), n) < n && -1 <= Last(Succeeding(before), n) < n
            && -1 <= Last(Settling(before), n) < n && -1 <= Last(SettlingTransport(before), n) < n
  {
    var n, before := |reports| - 1, reports[..|reports| - 1];
    forall i | 0 <= i < n
      ensures Initializes(before, i) == Initializes(reports, i) && Succeeds(before, i) == Succeeds(reports, i)
    {
      PrefixInitializes(reports, i);
    }
    LastSame(Initializing(reports), Initializing(before), n);
    LastSame(Succeeding(reports), Succeeding(before), n);
    LastSame(Settling(reports), Settling(before), n);
    LastSame(SettlingTransport(reports), SettlingTransport(before), n);
  }

  ghost predicate ErrorMatches(st: State, error: Option<(ErrorKind, string)>) {
    match error
    case Some((kind, text)) => st.errorKind == Some(kind) && st.lastError == Some(text)
    case None => st.errorKind == None && st.lastError == None
  }

  lemma {:induction false} NextPolicy(reports: seq<Report>)
    requires reports != []
    requires var before := reports[..|reports| - 1];
             (Run(before).staleAfter, Run(before).failWhenStale) == PolicyOf(before)
    ensures (Run(reports).staleAfter, Run(reports).failWhenStale) == PolicyOf(reports)
  {
    var n := |reports| - 1;
    EffectOnPolicyAndSource(Run(reports[..n]), reports[n].event, reports[n].now);
    EarlierPicks(reports, (e: Event) => e.ConfigurePolicy?);
  }

  lemma {:induction false} PolicyIsHistory(reports: seq<Report>)
    ensures (Run(reports).staleAfter, Run(reports).failWhenStale) == PolicyOf(reports)
  {
    if reports != [] {
      PolicyIsHistory(reports[..|reports| - 1]);
      NextPolicy(reports);
    }
  }

  lemma {:induction false} EffectOnPolicyAndSource(s: State, e: Event, now: Instant)
    ensures (Next(s, e, now).staleAfter, Next(s, e, now).failWhenStale)
            == if e.ConfigurePolicy? then Policy(e) else (s.staleAfter, s.failWhenStale)
    ensures Next(s, e, now).configSource
            == if NamesSource(e) then Some(Source(e))
               else if e.RecordSyncSuccess? && s.configSource.None? then Some(Etcd)
               else s.configSource
  {
  }

  lemma {:induction false} EffectOnRevisions(s: State, e: Event, now: Instant)
    ensures Next(s, e, now).revision == if NamesRevision(e) then Revision(e) else s.revision
    ensures Next(s, e, now).publishedRevision
            == if e.SetPublishedRevision? then Some(e.published) else s.publishedRevision
  {
  }

  lemma {:induction false} EffectOnError(s: State, e: Event, now: Instant)
    ensures var clears := e.MarkReady? || (e.SetPublishedRevision? && s.configSource == Some(Etcd))
                          || (e.RecordSyncSuccess? && s.errorKind == Some(EtcdUnavailable));
            && Next(s, e, now).errorKind == (if e.RecordSyncError? then Some(EtcdUnavailable)
                                             else if e.RecordPreparationError? then Some(CandidateInvalid)
                                             else if clears then None else s.errorKind)
            && Next(s, e, now).lastError == (if Fails(e) then Some(e.error) else if clears then None else s.lastError)
  {
  }

  lemma {:induction false} NextSource(reports: seq<Report>)
    requires reports != [] && Run(reports[..|reports| - 1]).configSource == SourceOf(reports[..|reports| - 1])
    ensures Run(reports).configSource == SourceOf(reports)
  {
    var n := |reports| - 1;
    EffectOnPolicyAndSource(Run(reports[..n]), reports[n].event, reports[n].now);
    EarlierPicks(reports, (e: Event) => NamesSource(e));
    EarlierPicks(reports, (e: Event) => e.RecordSyncSuccess?);
  }

  lemma {:induction false} SourceIsHistory(reports: seq<Report>)
    ensures Run(reports).configSource == SourceOf(reports)
  {
    if reports != [] {
      SourceIsHistory(reports[..|reports| - 1]);
      NextSource(reports);
    }
  }

  lemma {:induction false} NextRevision(reports: seq<Report>)
    requires reports != [] && Run(reports[..|reports| - 1]).revision == RevisionOf(reports[..|reports| - 1])
    ensures Run(reports).revision == RevisionOf(reports)
  {
    var n := |reports| - 1;
    EffectOnRevisions(Run(reports[..n]), reports[n].event, reports[n].now);
    EarlierPicks(reports, (e: Event) => NamesRevision(e));
  }

  lemma {:induction false} RevisionIsHistory(reports: seq<Report>)
    ensures Run(reports).revision == RevisionOf(reports)
  {
    if reports != [] {
      RevisionIsHistory(reports[..|reports| - 1]);
      NextRevision(reports);
    }
  }

  lemma {:induction false} NextPublished(reports: seq<Report>)
    requires reports != [] && Run(reports[..|reports| - 1]).publishedRevision == PublishedOf(reports[..|reports| - 1])
    ensures Run(reports).publishedRevision == PublishedOf(reports)
  {
    var n := |reports| - 1;
    EffectOnRevisions(Run(reports[..n]), reports[n].event, reports[n].now);
    EarlierPicks(reports, (e: Event) => e.SetPublishedRevision?);
  }

  lemma {:induction false} PublishedIsHistory(reports: seq<Report>)
    ensures Run(reports).publishedRevision == PublishedOf(reports)
  {
    if reports != [] {
      PublishedIsHistory(reports[..|reports| - 1]);
      NextPublished(reports);
    }
  }

  lemma {:induction false} EffectOnConnection(s: State, e: Event, now: Instant)
    ensures Next(s, e, now).connected == (IsConnect(e) || (s.connected && !IsDisconnect(e)))
    ensures Next(s, e, now).disconnectedSince.Some? == (IsDisconnect(e) || (s.disconnectedSince.Some? && !Clears(e)))
  {
  }

  lemma {:induction false} NextConnected(reports: seq<Report>)
    requires reports != [] && Run(reports[..|reports| - 1]).connected == ConnectedOf(reports[..|reports| - 1])
    ensures Run(reports).connected == ConnectedOf(reports)
  {
    var n := |reports| - 1;
    EffectOnConnection(Run(reports[..n]), reports[n].event, reports[n].now);
    EarlierPicks(reports, (e: Event) => SpeaksOfEtcd(e));
  }

  lemma {:induction false} ConnectedIsHistory(reports: seq<Report>)
    ensures Run(reports).connected == ConnectedOf(reports)
  {
    if reports != [] {
      ConnectedIsHistory(reports[..|reports| - 1]);
      NextConnected(reports);
    }
  }

  lemma {:induction false} NextOutageStart(reports: seq<Report>)
    requires reports != []
    requires Run(reports[..|reports| - 1]).disconnectedSince.Some? == HasOutageStart(reports[..|reports| - 1])
    ensures Run(reports).disconnectedSince.Some? == HasOutageStart(reports)
  {
    var n := |reports| - 1;
    EffectOnConnection(Run(reports[..n]), reports[n].event, reports[n].now);
    EarlierPicks(reports, (e: Event) => IsDisconnect(e));
    EarlierPicks(reports, (e: Event) => Clears(e));
  }

  lemma {:induction false} OutageStartIsHistory(reports: seq<Report>)
    ensures Run(reports).disconnectedSince.Some? == HasOutageStart(reports)
  {
    if reports != [] {
      OutageStartIsHistory(reports[..|reports| - 1]);
      NextOutageStart(reports);
    }
  }

  /** What one report does to the fields that depend on the source. */
  lemma {:induction false} EffectOnService(s: State, e: Event, now: Instant)
    ensures var starts := e.MarkReady? || (e.SetPublishedRevision? && s.configSource == Some(Etcd));
            && Next(s, e, now).initialized == (s.initialized || starts)
            && Next(s, e, now).lastSuccess == if starts || e.RecordSyncSuccess? then Some(now) else s.lastSuccess
  {
  }

  lemma {:induction false} LastReportStarts(reports: seq<Report>)
    requires reports != []
    ensures var n := |reports| - 1;
            var e, before := reports[n].event, Run(reports[..n]);
            var starts := e.MarkReady? || (e.SetPublishedRevision? && before.configSource == Some(Etcd));
            && Initializing(reports)(n) == starts && Succeeding(reports)(n) == (starts || e.RecordSyncSuccess?)
  {
  }

  lemma {:induction false} NextSuccess(reports: seq<Report>)
    requires reports != [] && Run(reports[..|reports| - 1]).lastSuccess == SuccessOf(reports[..|reports| - 1])
    ensures Run(reports).lastSuccess == SuccessOf(reports)
  {
    var n := |reports| - 1;
    EarlierStatePicks(reports);
    LastReportStarts(reports);
    EffectOnService(Run(reports[..n]), reports[n].event, reports[n].now);
  }

  lemma {:induction false} SuccessIsHistory(reports: seq<Report>)
    ensures Run(reports).lastSuccess == SuccessOf(reports)
  {
    if reports != [] {
      SuccessIsHistory(reports[..|reports| - 1]);
      NextSuccess(reports);
    }
  }

  lemma {:induction false} NextInitialized(reports: seq<Report>)
    requires reports != []
    requires var before := reports[..|reports| - 1];
             Run(before).initialized == (Last(Initializing(before), |before|) >= 0)
    ensures Run(reports).initialized == (Last(Initializing(reports), |reports|) >= 0)
  {
    var n := |reports| - 1;
    EarlierStatePicks(reports);
    LastReportStarts(reports);
    EffectOnService(Run(reports[..n]), reports[n].event, reports[n].now);
  }

  lemma {:induction false} InitializedIsHistory(reports: seq<Report>)
    ensures Run(reports).initialized == (Last(Initializing(reports), |reports|) >= 0)
  {
    if reports != [] {
      InitializedIsHistory(reports[..|reports| - 1]);
      NextInitialized(reports);
    }
  }

  lemma {:induction false} NextError(reports: seq<Report>)
    requires reports != [] && ErrorMatches(Run(reports[..|reports| - 1]), ErrorOf(reports[..|reports| - 1]))
    ensures ErrorMatches(Run(reports), ErrorOf(reports))
  {
    var n := |reports| - 1;
    EffectOnError(Run(reports[..n]), reports[n].event, reports[n].now);
    LastReportStarts(reports);
    EarlierStatePicks(reports);
  }

  lemma {:induction false} ErrorIsHistory(reports: seq<Report>)
    ensures ErrorMatches(Run(reports), ErrorOf(reports))
  {
    if reports != [] {
      ErrorIsHistory(reports[..|reports| - 1]);
      NextError(reports);
    }
  }

  /** Main result on the record: what the status page shows is read off the last report of each kind. */
  lemma {:induction false} RecordIsHistory(reports: seq<Report>)
    ensures var st := Run(reports);
            && st.configSource == SourceOf(reports)
            && (st.staleAfter, st.failWhenStale) == PolicyOf(reports)
            && st.revision == RevisionOf(reports) && st.publishedRevision == PublishedOf(reports)
            && st.lastSuccess == SuccessOf(reports) && ErrorMatches(st, ErrorOf(reports))
            && st.connected == ConnectedOf(reports) && st.disconnectedSince.Some? == HasOutageStart(reports)
  {
    SourceIsHistory(reports);
    PolicyIsHistory(reports);
    RevisionIsHistory(reports);
    PublishedIsHistory(reports);
    SuccessIsHistory(reports);
    ErrorIsHistory(reports);
    ConnectedIsHistory(reports);
    OutageStartIsHistory(reports);
  }

  lemma {:induction false} InitializedIff(reports: seq<Report>)
    ensures Run(reports).initialized <==> exists i :: Initializes(reports, i)
  {
    InitializedIsHistory(reports);
    LastSame(Initializing(reports), Initializing(reports), |reports|);
    if exists i :: Initializes(reports, i) {
      var i :| Initializes(reports, i);
      LastAtLeast(Initializing(reports), |reports|, i);
    } else if Run(reports).initialized {
      assert Initializes(reports, Last(Initializing(reports), |reports|));
    }
  }

  lemma {:induction false} LastAtLeast(p: int -> bool, n: nat, i: int)
    requires 0 <= i < n && p(i)
    ensures Last(p, n) >= i
  {
    if i < n - 1 {
      LastAtLeast(p, n - 1, i);
    }
  }

  /**
   Main result on readiness, over all reports: the instance is ready exactly when it has been put in service, no
   reconnect of it is still without a publication, and, where the policy fails stale instances, it is not in an outage
   of etcd that has lasted too long.
   */
  lemma {:induction false} ReadyIff(reports: seq<Report>, now: Instant)
    ensures ComputeReady(Run(reports), now) <==>
            && (exists i :: Initializes(reports, i))
            && !(exists i :: FencedSince(reports, i))
            && !(PolicyOf(reports).1 && SourceOf(reports) == Some(Etcd)
                 && exists i :: StartsOutage(reports, i) && reports[i].now + PolicyOf(reports).0 < now)
  {
    InitializedIff(reports);
    AwaitingIffUnpublishedReconnect(reports);
    StaleIffOutageTooLong(reports, now);
    SourceIsHistory(reports);
    PolicyIsHistory(reports);
  }
}
