/**
 What each event does to the scanner (scanning/scanner_impl.cpp), in every state a run reaches while the process
 lives: which request it sends, whom it tells what, and which scans are recorded afterwards.
 */
module ScannerMeaning {
  import opened Bytes
  import opened PnoRequest
  import opened WiphyInfo
  import opened SchedScanDecode
  import opened PnoOverNetlink
  import opened PnoMeaning
  import opened OffloadScanManager
  import opened ScannerImpl
  import P = Parcelables

  /** The HAL reports that a scan which runs there has failed. */
  predicate FallsBack(s: ScannerState, e: Event) {
    e.HalReport? && s.runningOverOffload && (e.status == TIMEOUT || e.status == NO_CONNECTION || e.status == ERROR)
  }

  /** The HAL can be used: it is in hand or can be had, with nothing but good reports, and answers OK to both calls. */
  predicate HalTakesScan(c: Config, s: ScannerState, a: HalAnswers) {
    && c.offloadScanSupported && s.manager.status == NoError
    && (s.manager.serviceAvailable
        || (a.service.hal.Some? && a.service.linkToDeathOk && a.service.callbackCreated && a.service.setCallbackOk))
    && a.configure == Answered(OK) && a.subscribe == Answered(OK)
  }

  /** The kernel is asked for a scan: at a start that the HAL does not take, and as a fallback. */
  predicate AsksForNetlinkScan(c: Config, s: ScannerState, e: Event) {
    (e.StartPno? && !HalTakesScan(c, s, e.answers.hal)) || FallsBack(s, e)
  }

  // ---- requests ----

  /** The kernel reads these settings out of the request, whichever interface it is for. */
  ghost predicate IsRequestFor(n: NetlinkRequest, c: Config, settings: PnoSettings, associated: bool) {
    forall interfaceIndex: nat :: IsOrdinary(c, settings, interfaceIndex) ==>
      AsksKernel(Body(ScheduledScanFor(n, interfaceIndex)), c, settings, associated, interfaceIndex)
  }

  /** Exactly one request is sent, for the settings of this start or of the last one; or none. */
  ghost predicate Requests(c: Config, s: ScannerState, e: Event, after: ScannerState) {
    if AsksForNetlinkScan(c, s, e) then
      && |after.requests| == |s.requests| + 1 && s.requests <= after.requests
      && IsRequestFor(after.requests[|s.requests|], c, if e.StartPno? then e.settings else s.settings, e.answers.associated)
    else after.requests == s.requests
  }

  lemma {:induction false} RequestForReads(c: Config, settings: PnoSettings, associated: bool)
    ensures IsRequestFor(RequestFor(c, settings, associated), c, settings, associated)
  {
    forall interfaceIndex: nat | IsOrdinary(c, settings, interfaceIndex)
      ensures AsksKernel(Body(ScheduledScanFor(RequestFor(c, settings, associated), interfaceIndex)), c, settings, associated, interfaceIndex)
    {
      KernelReadsRequest(c, settings, associated, interfaceIndex);
    }
  }

  // ---- notices ----

  /** What the subscriber, if there is one, is told because of an event. */
  function ToldOf(c: Config, s: ScannerState, e: Event): seq<Notice> {
    match e
    case StartPno(_, a) => if HalTakesScan(c, s, a.hal) then [OverOffloadStarted] else []
    case SchedScanResults(stopped) => if !stopped then [PnoNetworkFound] else if s.pnoScanStarted then [PnoScanFailed] else []
    case HalResults(_) => if s.runningOverOffload then [PnoNetworkFound] else []
    case HalReport(_, a) =>
      if !FallsBack(s, e) then []
      else if a.netlinkStart.Refused? && a.netlinkStart.errorCode != 19 then [OverOffloadFailed(false), PnoScanFailed]
      else [OverOffloadFailed(false)]
    case HalDeath(cookie, _) => if s.runningOverOffload && s.manager.hal == Some(cookie) then [OverOffloadFailed(true)] else []
    case _ => []
  }

  predicate Notifies(c: Config, s: ScannerState, e: Event, after: ScannerState) {
    after.notices == if s.subscribed then s.notices + ToldOf(c, s, e) else s.notices
  }

  // ---- what is recorded ----

  predicate RecordsNetlink(c: Config, s: ScannerState, e: Event, after: ScannerState) {
    after.pnoScanStarted <==>
      match e
      case StartPno(_, a) => s.pnoScanStarted || (!HalTakesScan(c, s, a.hal) && a.netlinkStart.Started?)
      case StopPno(a) => s.pnoScanStarted && (s.runningOverOffload || !a.netlinkStopOk)
      case SchedScanResults(stopped) => s.pnoScanStarted && !(stopped && s.subscribed)
      case HalReport(_, a) => s.pnoScanStarted || (FallsBack(s, e) && a.netlinkStart.Started?)
      case _ => s.pnoScanStarted
  }

  /** A scan over offload lasts until a stop, a failure or another start; with its HAL, the process dies. */
  predicate RecordsOffload(c: Config, s: ScannerState, e: Event, after: ScannerState) {
    after.runningOverOffload <==>
      match e
      case StartPno(_, a) => HalTakesScan(c, s, a.hal)
      case StopPno(_) => false
      case HalReport(_, _) => s.runningOverOffload && !FallsBack(s, e)
      case _ => s.runningOverOffload
  }

  /** The process ends without the driver, with the HAL in use, or for want of anybody to tell of a failed fallback. */
  predicate Ends(c: Config, s: ScannerState, e: Event, after: ScannerState) {
    Dead(after) <==>
      || (AsksForNetlinkScan(c, s, e) && e.answers.netlinkStart == Refused(19))
      || (FallsBack(s, e) && e.answers.netlinkStart.Refused? && !s.subscribed)
      || (e.HalDeath? && s.runningOverOffload && s.manager.hal == Some(e.cookie))
  }

  /** The result as the HAL gave it, with the time of conversion. */
  predicate IsConverted(x: P.ScanResult, r: HalScanResult) {
    && x.ssid == r.ssid && x.bssid == r.bssid && x.frequency == r.frequency && x.signalMbm == r.rssi
    && x.tsf == r.convertedAt && x.capability == r.capability
    && !x.associated && x.infoElement == [] && x.radioChains == []
  }

  /** The cache holds the last results of the HAL, each converted, in order. */
  predicate Caches(s: ScannerState, e: Event, after: ScannerState) {
    var cached := after.manager.cachedScanResults;
    if e.HalResults? then
      |cached| == |e.results| && forall i :: 0 <= i < |cached| ==> IsConverted(cached[i], e.results[i])
    else cached == s.manager.cachedScanResults
  }

  /** The status is that of the last report with a code that is known; unless the process ended on the way. */
  predicate RecordsStatus(s: ScannerState, e: Event, after: ScannerState) {
    Dead(after) || after.manager.status ==
      if !e.HalReport? then s.manager.status
      else
        match e.status
        case OK => NoError
        case TIMEOUT => TimeOut
        case NO_CONNECTION => NotConnected
        case ERROR => StatusCode.Error
        case UNKNOWN => s.manager.status
  }

  ghost predicate Means(c: Config, s: ScannerState, e: Event, after: ScannerState) {
    && Requests(c, s, e, after) && Notifies(c, s, e, after) && Caches(s, e, after) && RecordsStatus(s, e, after)
    && RecordsNetlink(c, s, e, after) && RecordsOffload(c, s, e, after) && Ends(c, s, e, after)
  }

  lemma {:induction false} HalTakesScanWhen(c: Config, s: ScannerState, settings: PnoSettings, a: HalAnswers)
    requires Settled(c, s) && c.offloadScanSupported
    ensures AfterStartScan(s.manager, OffloadRequestFor(c, settings), a).0 <==> HalTakesScan(c, s, a)
    ensures !AfterStartScan(s.manager, OffloadRequestFor(c, settings), a).2.faulted
    ensures AfterStartScan(s.manager, OffloadRequestFor(c, settings), a).2.cachedScanResults == s.manager.cachedScanResults
    ensures AfterStartScan(s.manager, OffloadRequestFor(c, settings), a).2.status == s.manager.status
  {
    StartMeaning(s.manager, OffloadRequestFor(c, settings), a);
  }

  lemma {:induction false} StartMeans(c: Config, s: ScannerState, settings: PnoSettings, a: Answers)
    requires Settled(c, s)
    ensures Means(c, s, StartPno(settings, a), AfterStartPno(c, s, settings, a).1)
  {
    if c.offloadScanSupported {
      HalTakesScanWhen(c, s, settings, a.hal);
      var (ok, _, manager) := AfterStartScan(s.manager, OffloadRequestFor(c, settings), a.hal);
      var started := s.(settings := settings, resultsFromOffload := false, manager := manager, runningOverOffload := ok);
      if ok {
        assert started.notices + [OverOffloadStarted] == started.notices + ToldOf(c, s, StartPno(settings, a));
      } else {
        AskingMeans(c, s, started, settings, a);
      }
    } else {
      AskingMeans(c, s, s.(settings := settings, resultsFromOffload := false), settings, a);
    }
  }

  /** A start that the HAL does not take. */
  lemma {:induction false} AskingMeans(c: Config, s: ScannerState, started: ScannerState, settings: PnoSettings, a: Answers)
    requires Settled(c, s) && !HalTakesScan(c, s, a.hal)
    requires started == s.(settings := settings, resultsFromOffload := false, manager := started.manager, runningOverOffload := false)
    requires !started.manager.faulted && started.manager.cachedScanResults == s.manager.cachedScanResults
    requires started.manager.status == s.manager.status
    ensures Means(c, s, StartPno(settings, a), AfterRequest(started, RequestFor(c, settings, a.associated), a.netlinkStart).1)
  {
    RequestForReads(c, settings, a.associated);
    assert s.notices + [] == s.notices;
  }

  lemma {:induction false} StopMeans(c: Config, s: ScannerState, a: Answers)
    requires Settled(c, s)
    ensures Means(c, s, StopPno(a), AfterStopPno(c, s, a).1)
  {
    assert s.notices + [] == s.notices;
    StopMeaning(s.manager, a.hal);
  }

  lemma {:induction false} ReportMeans(c: Config, s: ScannerState, status: HalStatus, a: Answers)
    requires Settled(c, s)
    ensures Means(c, s, HalReport(status, a), AfterHalReport(c, s, status, a))
  {
    if FallsBack(s, HalReport(status, a)) {
      FallbackMeans(c, s, status, a);
    } else {
      assert s.notices + [] == s.notices;
    }
  }

  /** What the fallback itself leaves. */
  lemma {:induction false} ErrorLeaves(c: Config, s: ScannerState, a: Answers)
    requires Settled(c, s) && s.runningOverOffload
    ensures var after := AfterOffloadError(c, s, REMOTE_FAILURE, a);
            && after.requests == s.requests + [RequestFor(c, s.settings, a.associated)]
            && after.notices == FallbackNotices(Notified(s, OverOffloadFailed(false)), a.netlinkStart)
            && after.pnoScanStarted == (a.netlinkStart.Started? || s.pnoScanStarted)
            && (after.crashed <==> a.netlinkStart == Refused(ENODEV) || (a.netlinkStart.Refused? && !s.subscribed))
            && !after.manager.faulted && !after.runningOverOffload
            && after.manager.cachedScanResults == s.manager.cachedScanResults
  {
    var told := Notified(s, OverOffloadFailed(false));
    FallbackMeaning(AfterStopPno(c, told, a).1, RequestFor(c, s.settings, a.associated), a.netlinkStart);
  }

  lemma {:induction false} FallbackLeaves(c: Config, s: ScannerState, status: HalStatus, a: Answers)
    requires FallsBack(s, HalReport(status, a))
    ensures var told, after := AfterOffloadError(c, s, REMOTE_FAILURE, a), AfterHalReport(c, s, status, a);
            after == told.(manager := after.manager) && after.manager.faulted == told.manager.faulted
            && after.manager.cachedScanResults == told.manager.cachedScanResults
  {
  }

  lemma {:induction false} FallbackMeans(c: Config, s: ScannerState, status: HalStatus, a: Answers)
    requires Settled(c, s) && FallsBack(s, HalReport(status, a))
    ensures Means(c, s, HalReport(status, a), AfterHalReport(c, s, status, a))
  {
    ErrorLeaves(c, s, a);
    FallbackLeaves(c, s, status, a);
    RequestForReads(c, s.settings, a.associated);
  }

  lemma {:induction false} DeathMeans(c: Config, s: ScannerState, cookie: nat, a: Answers)
    requires Settled(c, s)
    ensures Means(c, s, HalDeath(cookie, a), AfterHalDeath(c, s, cookie, a))
  {
    assert s.notices + [] == s.notices;
    if s.runningOverOffload {
      DeathFaults(c, s, a);
    }
  }

  lemma {:induction false} StepMeans(c: Config, s: ScannerState, e: Event)
    requires Settled(c, s)
    ensures Means(c, s, e, Step(c, s, e))
  {
    assert s.notices + [] == s.notices;
    match e
    case StartPno(settings, a) => StartMeans(c, s, settings, a);
    case StopPno(a) => StopMeans(c, s, a);
    case HalReport(status, a) => ReportMeans(c, s, status, a);
    case HalDeath(cookie, a) => DeathMeans(c, s, cookie, a);
    case _ =>
  }

  /** What every event does in every state that a run reaches while the process lives. */
  lemma {:induction false} RunStepMeans(c: Config, service: ServiceAnswers, events: seq<Event>, e: Event)
    requires !Dead(Run(c, service, events))
    ensures Means(c, Run(c, service, events), e, Run(c, service, events + [e]))
  {
    RunSettles(c, service, events);
    StepMeans(c, Run(c, service, events), e);
    RunOfMore(c, service, events, e);
  }

  /** The object in hand was given the networks of the settings, and last of all subscribed to, for every 5 s. */
  ghost predicate WasAsked(m: ManagerState, caps: ScanCapabilities, settings: PnoSettings) {
    var n := |m.calls|;
    && m.hal.Some? && n >= 2
    && m.calls[n - 2].handle == m.hal.value && m.calls[n - 2].request.ConfigureScans?
    && AsksHal(m.calls[n - 2].request.param, m.calls[n - 2].request.filter, caps, settings)
    && m.calls[n - 1] == HalCall(m.hal.value, SubscribeScanResults(5000))
  }

  /** A start over offload, from any state reached. */
  lemma {:induction false} HalIsAsked(c: Config, service: ServiceAnswers, events: seq<Event>, settings: PnoSettings, a: Answers)
    requires !Dead(Run(c, service, events)) && HalTakesScan(c, Run(c, service, events), a.hal)
    ensures WasAsked(Run(c, service, events + [StartPno(settings, a)]).manager, c.caps, settings)
  {
    var s := Run(c, service, events);
    RunSettles(c, service, events);
    RunOfMore(c, service, events, StartPno(settings, a));
    StartMeaning(s.manager, OffloadRequestFor(c, settings), a.hal);
    HalTakesScanWhen(c, s, settings, a.hal);
    HalReadsRequest(c, settings);
  }

  // ---- what the callers are told ----

  /** Why a start over offload fails: the service or a clean status is missing, or the first call that goes wrong. */
  lemma {:induction false} StartReason(m: ManagerState, r: ScanRequest, a: HalAnswers)
    requires Connected(m) && !m.faulted
    ensures AfterStartScan(m, r, a).1 ==
            if m.status != NoError || !(m.serviceAvailable || Reached(a.service)) then NotAvailable
            else if a.configure == TransportFailed then TransactionFailed
            else if a.configure != Answered(OK) then OperationFailed
            else if a.subscribe == TransportFailed then TransactionFailed
            else if a.subscribe != Answered(OK) then OperationFailed
            else None_
  {
  }

  lemma {:induction false} StopReason(m: ManagerState, a: HalAnswers)
    requires Connected(m) && !m.faulted
    ensures AfterStopScan(m, a).1 ==
            if m.status != NoError || !(m.serviceAvailable || Reached(a.service)) then NotAvailable
            else if a.unsubscribeOk then None_ else TransactionFailed
  {
  }

  /** A start is reported as successful if either backend takes the scan, whatever is recorded from before. */
  lemma {:induction false} StartReturns(c: Config, s: ScannerState, settings: PnoSettings, a: Answers)
    requires Settled(c, s)
    ensures AfterStartPno(c, s, settings, a).0 <==> HalTakesScan(c, s, a.hal) || a.netlinkStart.Started?
  {
    if c.offloadScanSupported {
      HalTakesScanWhen(c, s, settings, a.hal);
    }
  }

  /** A stop is reported as successful over offload even if the HAL does not answer. */
  lemma {:induction false} StopReturns(c: Config, s: ScannerState, a: Answers)
    requires Settled(c, s)
    ensures AfterStopPno(c, s, a).0 <==> s.runningOverOffload || a.netlinkStopOk
  {
    StopMeaning(s.manager, a.hal);
  }
}
