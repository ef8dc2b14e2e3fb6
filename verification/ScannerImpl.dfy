/**
 PNO scans over netlink or the offload HAL, with failover (scanning/scanner_impl.cpp). The kernel's and the
 HAL's answers are inputs; requests to the kernel and notices to the subscriber are recorded in order.
 */
module ScannerImpl {
  import opened Bytes
  import opened WiphyInfo
  import opened PnoRequest
  import opened OffloadScanManager

  datatype Config = Config(caps: ScanCapabilities, features: WiphyFeatures, offloadScanSupported: bool)

  /** What is asked of the kernel. */
  datatype NetlinkRequest = NetlinkRequest(
    settings: PnoSettings, scanSsids: seq<Ssid>, matchSsids: seq<Ssid>, interval: IntervalSetting,
    requestRandomMac: bool, requestLowPower: bool)

  datatype Notice = OverOffloadStarted | OverOffloadFailed(binderDied: bool) | PnoScanFailed | PnoNetworkFound

  datatype AsyncErrorReason = BINDER_DEATH | REMOTE_FAILURE

  /** `crashed` stands for the process ending on its own account: a failed check, or a null subscriber. */
  datatype ScannerState = ScannerState(
    pnoScanStarted: bool, runningOverOffload: bool, resultsFromOffload: bool,
    settings: PnoSettings, subscribed: bool, crashed: bool,
    manager: ManagerState, requests: seq<NetlinkRequest>, notices: seq<Notice>)

  /** The process has ended. */
  predicate Dead(s: ScannerState) {
    s.crashed || s.manager.faulted
  }

  const ENODEV: int := 19

  /** The kernel starts a scheduled scan, or fails with an error code (zero if it never answered). */
  datatype StartAnswer = Started | Refused(errorCode: int)

  /** The outside world's answers during one call: the HAL, stopping and starting over netlink, association. */
  datatype Answers = Answers(hal: HalAnswers, netlinkStopOk: bool, netlinkStart: StartAnswer, associated: bool)

  const WILDCARD: Ssid := []

  function RequestFor(c: Config, settings: PnoSettings, associated: bool): NetlinkRequest {
    var lists := Pruned(settings.pnoNetworks, [WILDCARD], c.caps.maxNumSchedScanSsids, c.caps.maxMatchSets);
    NetlinkRequest(settings, lists.scan, lists.matches, GenerateIntervalSetting(c.caps, settings.intervalMs),
                   c.features.supportsRandomMacSchedScan && !associated, c.features.supportsLowPowerOneshotScan)
  }

  /** What is asked of the offload HAL: the same networks, without the wildcard. */
  function OffloadRequestFor(c: Config, settings: PnoSettings): ScanRequest {
    var lists := Pruned(settings.pnoNetworks, [], c.caps.maxNumSchedScanSsids, c.caps.maxMatchSets);
    ScanRequest(UInt32(settings.intervalMs), settings.min5gRssi, lists.scan, lists.matches, lists.security, [])
  }

  function Notified(s: ScannerState, n: Notice): ScannerState {
    if s.subscribed then s.(notices := s.notices + [n]) else s
  }

  /** A request is sent and answered; the process ends if the driver is gone. */
  function AfterRequest(s: ScannerState, request: NetlinkRequest, answer: StartAnswer): (r: (bool, ScannerState))
    ensures r.1.settings == s.settings && r.1.resultsFromOffload == s.resultsFromOffload && r.1.subscribed == s.subscribed
    ensures r.1.runningOverOffload == s.runningOverOffload && r.1.manager == s.manager
    ensures r.0 ==> r.1.pnoScanStarted
  {
    var asked := s.(requests := s.requests + [request]);
    match answer
    case Started => (true, asked.(pnoScanStarted := true))
    case Refused(code) => (false, if code == ENODEV then asked.(crashed := true) else asked)
  }

  function AfterStartDefault(c: Config, s: ScannerState, settings: PnoSettings, a: Answers): (r: (bool, ScannerState))
    ensures r.1.settings == s.settings && r.1.resultsFromOffload == s.resultsFromOffload && r.1.subscribed == s.subscribed
    ensures r.1.runningOverOffload == s.runningOverOffload && r.1.manager == s.manager
    ensures r.0 ==> r.1.pnoScanStarted
  {
    AfterRequest(s, RequestFor(c, settings, a.associated), a.netlinkStart)
  }

  function AfterStartOffload(c: Config, s: ScannerState, settings: PnoSettings, a: Answers): (r: (bool, ScannerState))
    ensures r.1.settings == s.settings && r.1.resultsFromOffload == s.resultsFromOffload && r.1.subscribed == s.subscribed
    ensures r.1.runningOverOffload == r.0 && r.1.pnoScanStarted == s.pnoScanStarted && r.1.crashed == s.crashed
  {
    var (ok, _, manager) := AfterStartScan(s.manager, OffloadRequestFor(c, settings), a.hal);
    var after := s.(manager := manager, runningOverOffload := ok);
    (ok, if ok then Notified(after, OverOffloadStarted) else after)
  }

  function AfterStartPno(c: Config, s: ScannerState, settings: PnoSettings, a: Answers): (r: (bool, ScannerState))
    ensures r.1.settings == settings && !r.1.resultsFromOffload && r.1.subscribed == s.subscribed
    ensures r.0 ==> r.1.runningOverOffload || r.1.pnoScanStarted
  {
    var fresh_ := s.(settings := settings, resultsFromOffload := false);
    if !c.offloadScanSupported then AfterStartDefault(c, fresh_, settings, a)
    else
      var (ok, after) := AfterStartOffload(c, fresh_, settings, a);
      if ok then (true, after) else if after.manager.faulted then (false, after) else AfterStartDefault(c, after, settings, a)
  }

  function AfterStopDefault(s: ScannerState, a: Answers): (bool, ScannerState) {
    if a.netlinkStopOk then (true, s.(pnoScanStarted := false)) else (false, s)
  }

  function AfterStopPno(c: Config, s: ScannerState, a: Answers): (r: (bool, ScannerState))
    ensures r.1.settings == s.settings && r.1.resultsFromOffload == s.resultsFromOffload
    ensures r.1.crashed == s.crashed && r.1.subscribed == s.subscribed
    ensures r.0 && Exclusive(s) && (s.runningOverOffload ==> c.offloadScanSupported) ==>
              !r.1.runningOverOffload && !r.1.pnoScanStarted
  {
    if c.offloadScanSupported && s.runningOverOffload then
      var asked := s.(manager := AfterStopScan(s.manager, a.hal).2);
      if asked.manager.faulted then (false, asked) else (true, asked.(runningOverOffload := false))
    else AfterStopDefault(s, a)
  }

  function AfterSchedScanResults(s: ScannerState, stopped: bool): ScannerState {
    if !s.subscribed then s
    else if stopped then
      (if s.pnoScanStarted then Notified(s, PnoScanFailed) else s).(pnoScanStarted := false)
    else Notified(s.(resultsFromOffload := false), PnoNetworkFound)
  }

  function AfterOffloadResult(s: ScannerState): ScannerState {
    if !s.runningOverOffload then s else Notified(s.(resultsFromOffload := true), PnoNetworkFound)
  }

  /** Falling back to netlink; without a subscriber a failing fallback dereferences a null handler. */
  function AfterFallback(s: ScannerState, request: NetlinkRequest, answer: StartAnswer): (r: ScannerState)
    ensures r.settings == s.settings && r.resultsFromOffload == s.resultsFromOffload && r.subscribed == s.subscribed
    ensures r.runningOverOffload == s.runningOverOffload && r.manager == s.manager
    ensures s.crashed ==> r.crashed
  {
    var (ok, after) := AfterRequest(s, request, answer);
    if ok || after.crashed then after
    else if after.subscribed then Notified(after, PnoScanFailed)
    else after.(crashed := true)
  }

  /** An error over offload: the scan is stopped there, unless that ends the process, and started over netlink. */
  function AfterOffloadError(c: Config, s: ScannerState, reason: AsyncErrorReason, a: Answers): (r: ScannerState)
    ensures r.settings == s.settings && r.resultsFromOffload == s.resultsFromOffload && r.subscribed == s.subscribed
    ensures r.runningOverOffload ==> s.runningOverOffload
    ensures s.crashed ==> r.crashed
  {
    if !s.runningOverOffload then s
    else
      var stopped := AfterStopPno(c, Notified(s, OverOffloadFailed(reason == BINDER_DEATH)), a).1;
      if stopped.manager.faulted then stopped else AfterFallback(stopped, RequestFor(c, stopped.settings, a.associated), a.netlinkStart)
  }

  class ScannerImpl {
    const config: Config
    const manager: OffloadScanManager
    var pnoScanStarted: bool
    var runningOverOffload: bool
    var resultsFromOffload: bool
    var pnoSettings: PnoSettings
    var subscribed: bool
    var crashed: bool
    var requests: seq<NetlinkRequest>
    var notices: seq<Notice>

    constructor (config: Config, manager: OffloadScanManager)
      ensures this.config == config && this.manager == manager
      ensures State() == InitialState(manager.State())
    {
      this.config, this.manager := config, manager;
      pnoScanStarted, runningOverOffload, resultsFromOffload := false, false, false;
      pnoSettings, subscribed, crashed, requests, notices := PnoSettings(0, 0, 0, []), false, false, [], [];
    }

    function State(): ScannerState
      reads this, manager
    {
      ScannerState(pnoScanStarted, runningOverOffload, resultsFromOffload, pnoSettings, subscribed, crashed,
                   manager.State(), requests, notices)
    }

    method Notify(n: Notice)
      modifies this`notices
      ensures State() == Notified(old(State()), n)
    {
      if subscribed {
        notices := notices + [n];
      }
    }

    method BuildRequest(settings: PnoSettings, associated: bool) returns (request: NetlinkRequest)
      ensures request == RequestFor(config, settings, associated)
    {
      var lists := ParsePnoSettings(settings, config.caps, [WILDCARD]);
      var requestRandomMac := config.features.supportsRandomMacSchedScan && !associated;
      var requestLowPower := config.features.supportsLowPowerOneshotScan;
      return NetlinkRequest(settings, lists.scan, lists.matches, GenerateIntervalSetting(config.caps, settings.intervalMs),
                            requestRandomMac, requestLowPower);
    }

    method StartPnoScanDefault(settings: PnoSettings, a: Answers) returns (ok: bool)
      modifies this
      ensures (ok, State()) == AfterStartDefault(config, old(State()), settings, a)
    {
      var request := BuildRequest(settings, a.associated);
      requests := requests + [request];
      match a.netlinkStart {
        case Refused(errorCode) =>
          if errorCode == ENODEV {
            crashed := true;
          }
          return false;
        case Started =>
      }
      pnoScanStarted := true;
      return true;
    }

    method StartPnoScanOffload(settings: PnoSettings, a: Answers) returns (ok: bool)
      modifies this, manager
      ensures (ok, State()) == AfterStartOffload(config, old(State()), settings, a)
    {
      var lists := ParsePnoSettings(settings, config.caps, []);
      var reason;
      ok, reason := manager.StartScan(
        ScanRequest(UInt32(settings.intervalMs), settings.min5gRssi, lists.scan, lists.matches, lists.security, []), a.hal);
      runningOverOffload := ok;
      if runningOverOffload {
        Notify(OverOffloadStarted);
      }
      ok := runningOverOffload;
    }

    method StartPnoScan(settings: PnoSettings, a: Answers) returns (ok: bool)
      modifies this, manager
      ensures (ok, State()) == AfterStartPno(config, old(State()), settings, a)
    {
      pnoSettings := settings;
      resultsFromOffload := false;
      if config.offloadScanSupported {
        ok := StartPnoScanOffload(settings, a);
        if ok || manager.faulted {
          return;
        }
      }
      ok := StartPnoScanDefault(settings, a);
    }

    /** Ends where it is if the HAL is called through a null handle. */
    method StopPnoScanOffload(a: Answers) returns (ok: bool)
      modifies this, manager
      ensures ok == (old(runningOverOffload) && !manager.faulted)
      ensures State() == if !old(runningOverOffload) then old(State())
                         else old(State()).(manager := AfterStopScan(old(State()).manager, a.hal).2, runningOverOffload := manager.faulted)
    {
      if !runningOverOffload {
        return false;
      }
      var stopped, reason := manager.StopScan(a.hal);
      if manager.faulted {
        return false;
      }
      runningOverOffload := false;
      return true;
    }

    method StopPnoScanDefault(a: Answers) returns (ok: bool)
      modifies this`pnoScanStarted
      ensures (ok, State()) == AfterStopDefault(old(State()), a)
    {
      if !a.netlinkStopOk {
        return false;
      }
      pnoScanStarted := false;
      return true;
    }

    method StopPnoScan(a: Answers) returns (ok: bool)
      requires !manager.faulted
      modifies this, manager
      ensures (ok, State()) == AfterStopPno(config, old(State()), a)
    {
      if config.offloadScanSupported {
        ok := StopPnoScanOffload(a);
        if ok || manager.faulted {
          return;
        }
      }
      ok := StopPnoScanDefault(a);
    }

    method OnSchedScanResultsReady(scanStopped: bool)
      modifies this
      ensures State() == AfterSchedScanResults(old(State()), scanStopped)
    {
      if subscribed {
        if scanStopped {
          if pnoScanStarted {
            Notify(PnoScanFailed);
          }
          pnoScanStarted := false;
        } else {
          resultsFromOffload := false;
          Notify(PnoNetworkFound);
        }
      }
    }

    method OnOffloadScanResult()
      modifies this
      ensures State() == AfterOffloadResult(old(State()))
    {
      if !runningOverOffload {
        return;
      }
      resultsFromOffload := true;
      Notify(PnoNetworkFound);
    }

    method OnOffloadError(reason: AsyncErrorReason, a: Answers)
      requires !crashed && !manager.faulted
      modifies this, manager
      ensures State() == AfterOffloadError(config, old(State()), reason, a)
    {
      if !runningOverOffload {
        return;
      }
      Notify(OverOffloadFailed(reason == BINDER_DEATH));
      var success := StopPnoScan(a);
      if manager.faulted {
        return;
      }
      FallBack(a);
    }

    /** Restarts the scan over netlink, and reports it if that fails. */
    method FallBack(a: Answers)
      requires !crashed
      modifies this
      ensures State() == AfterFallback(old(State()), RequestFor(config, old(pnoSettings), a.associated), a.netlinkStart)
    {
      var success := StartPnoScanDefault(pnoSettings, a);
      if !success && !crashed {
        if subscribed {
          Notify(PnoScanFailed);
        } else {
          crashed := true;
        }
      }
    }

    /** The HAL reports a status: the scanner falls back while the old status still stands. */
    method ReportError(status: HalStatus, a: Answers)
      requires !crashed && !manager.faulted
      modifies this, manager
      ensures State() == AfterHalReport(config, old(State()), status, a)
    {
      var notify := manager.ClassifyError(status);
      if notify {
        OnOffloadError(REMOTE_FAILURE, a);
        if crashed || manager.faulted {
          return;
        }
      }
      manager.SetStatus(status);
    }

    /** The HAL dies: the scanner falls back while the handle is gone and the service still counts as available. */
    method OnHalDeath(cookie: nat, a: Answers)
      requires !crashed && !manager.faulted
      modifies this, manager
      ensures State() == AfterHalDeath(config, old(State()), cookie, a)
    {
      var notify := manager.OnObjectDeath(cookie);
      if notify {
        OnOffloadError(BINDER_DEATH, a);
        if crashed || manager.faulted {
          return;
        }
        manager.ForgetService();
      }
    }

    /** One event of the outside world, as the binder and HAL threads deliver it. */
    method Dispatch(e: Event)
      requires !crashed && !manager.faulted
      modifies this, manager
      ensures State() == Step(config, old(State()), e)
    {
      match e
      case StartPno(settings, a) => var ok := StartPnoScan(settings, a);
      case StopPno(a) => var ok := StopPnoScan(a);
      case SchedScanResults(stopped) => OnSchedScanResultsReady(stopped);
      case Subscribe => subscribed := true;
      case Unsubscribe => subscribed := false;
      case HalResults(results) => manager.ReportScanResults(results); OnOffloadScanResult();
      case HalReport(status, a) => ReportError(status, a);
      case HalDeath(cookie, a) => OnHalDeath(cookie, a);
    }

    /** Where the results come from: the HAL's cache, or a query to the kernel. */
    method GetPnoScanResults(kernelResults: Option<ScanResults>, before: ScanResults) returns (results: ScanResults)
      ensures results == before + if State().resultsFromOffload then State().manager.cachedScanResults else kernelResults.GetOr([])
    {
      if resultsFromOffload {
        return before + manager.cachedScanResults;
      }
      return before + kernelResults.GetOr([]);
    }
  }

  function AfterHalReport(c: Config, s: ScannerState, status: HalStatus, a: Answers): ScannerState {
    var told := if IsFailure(status) then AfterOffloadError(c, s, REMOTE_FAILURE, a) else s;
    if Dead(told) then told else told.(manager := AfterReportError(told.manager, status))
  }

  function AfterHalDeath(c: Config, s: ScannerState, cookie: nat, a: Answers): ScannerState {
    if s.manager.hal != Some(cookie) then s
    else
      var told := AfterOffloadError(c, s.(manager := LostHal(s.manager)), BINDER_DEATH, a);
      if Dead(told) then told else told.(manager := Forgotten(told.manager))
  }

  function InitialState(m: ManagerState): ScannerState {
    ScannerState(false, false, false, PnoSettings(0, 0, 0, []), false, false, m, [], [])
  }

  // ---- runs ----

  datatype Event =
    | StartPno(settings: PnoSettings, answers: Answers)
    | StopPno(answers: Answers)
    | SchedScanResults(stopped: bool)
    | Subscribe
    | Unsubscribe
    | HalResults(results: seq<HalScanResult>)
    | HalReport(status: HalStatus, answers: Answers)
    | HalDeath(cookie: nat, answers: Answers)

  function Step(c: Config, s: ScannerState, e: Event): ScannerState {
    if Dead(s) then s
    else
      match e
      case StartPno(settings, a) => AfterStartPno(c, s, settings, a).1
      case StopPno(a) => AfterStopPno(c, s, a).1
      case SchedScanResults(stopped) => AfterSchedScanResults(s, stopped)
      case Subscribe => s.(subscribed := true)
      case Unsubscribe => s.(subscribed := false)
      case HalResults(results) => AfterOffloadResult(s.(manager := s.manager.(cachedScanResults := AllConverted(results))))
      case HalReport(status, a) => AfterHalReport(c, s, status, a)
      case HalDeath(cookie, a) => AfterHalDeath(c, s, cookie, a)
  }

  /** The scanner after a run; at first its manager has tried to get hold of the service once. */
  function Run(c: Config, service: ServiceAnswers, events: seq<Event>): ScannerState {
    if events == [] then InitialState(Constructed(service))
    else Step(c, Run(c, service, events[..|events| - 1]), events[|events| - 1])
  }

  function Before(events: seq<Event>, i: nat): seq<Event>
    requires i <= |events|
  {
    events[..i]
  }

  lemma {:induction false} BeforeFront(events: seq<Event>, i: nat)
    requires i < |events|
    ensures Before(events, i) == Before(events[..|events| - 1], i)
    ensures Before(events, |events|) == events
  {
  }

  /** Holds of every prefix: of every state along a run. */
  ghost predicate OfAllPrefixes(p: seq<Event> -> bool, events: seq<Event>) {
    forall i :: 0 <= i <= |events| ==> p(Before(events, i))
  }

  lemma {:induction false} OfAllPrefixesSnoc(p: seq<Event> -> bool, events: seq<Event>)
    requires events != []
    ensures OfAllPrefixes(p, events) <==> OfAllPrefixes(p, events[..|events| - 1]) && p(events)
  {
    var front := events[..|events| - 1];
    BeforeFront(events, 0);
    if OfAllPrefixes(p, events) {
      assert p(Before(events, |events|));
      forall i | 0 <= i <= |front|
        ensures p(Before(front, i))
      {
        BeforeFront(events, i);
      }
    }
    if OfAllPrefixes(p, front) && p(events) {
      forall i | 0 <= i <= |events|
        ensures p(Before(events, i))
      {
        if i <= |front| {
          BeforeFront(events, i);
        }
      }
    }
  }

  /** Holds of every event and the events before it. */
  ghost predicate OfAllSteps(q: (seq<Event>, Event) -> bool, events: seq<Event>) {
    forall i :: 0 <= i < |events| ==> q(Before(events, i), events[i])
  }

  lemma {:induction false} OfAllStepsSnoc(q: (seq<Event>, Event) -> bool, events: seq<Event>)
    requires events != []
    ensures var n := |events| - 1;
            OfAllSteps(q, events) <==> OfAllSteps(q, events[..n]) && q(events[..n], events[n])
  {
    var n := |events| - 1;
    var front := events[..n];
    assert Before(events, n) == front;
    forall i | 0 <= i < n
      ensures Before(events, i) == Before(front, i) && front[i] == events[i]
    {
      BeforeFront(events, i);
    }
  }

  /** No event of a run meets a condition in the state it finds. */
  ghost predicate Never(bad: (ScannerState, Event) -> bool, c: Config, service: ServiceAnswers, events: seq<Event>) {
    OfAllSteps((before, e) => !bad(Run(c, service, before), e), events)
  }

  lemma {:induction false} NeverSnoc(bad: (ScannerState, Event) -> bool, c: Config, service: ServiceAnswers, events: seq<Event>)
    requires events != []
    ensures Never(bad, c, service, events) <==>
            var n := |events| - 1;
            Never(bad, c, service, events[..n]) && !bad(Run(c, service, events[..n]), events[n])
  {
    OfAllStepsSnoc((before, e) => !bad(Run(c, service, before), e), events);
  }

  // ---- what holds between events ----

  /**
   The manager is well behaved; a scan over offload runs only on an available service with a clean status, and under
   a subscription; and only where offload is supported.
   */
  predicate Settled(c: Config, s: ScannerState) {
    && WellBehaved(s.manager) && !s.crashed
    && (s.runningOverOffload ==>
          s.manager.serviceAvailable && s.manager.status == NoError && s.manager.subscribed.Some?)
    && (s.runningOverOffload || s.manager.subscribed.Some? ==> c.offloadScanSupported)
  }

  /** The HAL object in use dies while a scan runs on it. */
  predicate DiesDuringScan(s: ScannerState, e: Event) {
    !Dead(s) && e.HalDeath? && s.runningOverOffload && s.manager.hal == Some(e.cookie)
  }

  lemma {:induction false} StartSettles(c: Config, s: ScannerState, settings: PnoSettings, a: Answers)
    requires Settled(c, s)
    ensures var after := AfterStartPno(c, s, settings, a).1;
            !after.manager.faulted && (after.crashed || Settled(c, after))
  {
    if c.offloadScanSupported {
      var r := OffloadRequestFor(c, settings);
      StartMeaning(s.manager, r, a.hal);
      StepBehaves(s.manager, Start(r, a.hal));
    }
  }

  lemma {:induction false} StopSettles(c: Config, s: ScannerState, a: Answers)
    requires Settled(c, s)
    ensures Settled(c, AfterStopPno(c, s, a).1)
    ensures s.runningOverOffload ==>
              && !AfterStopPno(c, s, a).1.runningOverOffload
              && AfterStopPno(c, s, a).1.manager.calls == s.manager.calls + [HalCall(s.manager.hal.value, UnsubscribeScanResults)]
              && AfterStopPno(c, s, a).1.manager.subscribed == if a.hal.unsubscribeOk then None else s.manager.subscribed
  {
    StopMeaning(s.manager, a.hal);
    StepBehaves(s.manager, Stop(a.hal));
  }

  lemma {:induction false} ErrorSettles(c: Config, s: ScannerState, reason: AsyncErrorReason, a: Answers)
    requires Settled(c, s)
    ensures var after := AfterOffloadError(c, s, reason, a);
            !after.manager.faulted && !after.runningOverOffload && (after.crashed || Settled(c, after))
  {
    if s.runningOverOffload {
      var told := Notified(s, OverOffloadFailed(reason == BINDER_DEATH));
      StopSettles(c, told, a);
    }
  }

  /** The fallback calls the HAL through the handle that was just dropped. */
  lemma {:induction false} DeathFaults(c: Config, s: ScannerState, a: Answers)
    requires Settled(c, s) && s.runningOverOffload
    ensures var lost := s.(manager := LostHal(s.manager));
            var after := AfterOffloadError(c, lost, BINDER_DEATH, a);
            after.manager.faulted && after.requests == s.requests && after.runningOverOffload
  {
  }

  lemma {:induction false} DeathSettles(c: Config, s: ScannerState, cookie: nat, a: Answers)
    requires Settled(c, s)
    ensures var after := AfterHalDeath(c, s, cookie, a);
            && (after.manager.faulted <==> s.runningOverOffload && s.manager.hal == Some(cookie))
            && (after.manager.faulted || Settled(c, after))
  {
    StepBehaves(s.manager, Death(cookie));
    if s.runningOverOffload {
      DeathFaults(c, s, a);
    }
  }

  predicate IsFailure(status: HalStatus) {
    Recognised(status).Some? && Recognised(status) != Some(NoError)
  }

  lemma {:induction false} ReportSettles(c: Config, s: ScannerState, status: HalStatus, a: Answers)
    requires Settled(c, s)
    ensures var after := AfterHalReport(c, s, status, a);
            !after.manager.faulted && (after.crashed || Settled(c, after))
  {
    if IsFailure(status) {
      ErrorSettles(c, s, REMOTE_FAILURE, a);
    }
  }

  /** One event keeps a settled scanner settled or ends the process; it faults exactly if the HAL in use dies. */
  lemma {:induction false} StepSettles(c: Config, s: ScannerState, e: Event)
    requires Settled(c, s)
    ensures Dead(Step(c, s, e)) || Settled(c, Step(c, s, e))
    ensures Step(c, s, e).manager.faulted <==> DiesDuringScan(s, e)
  {
    match e
    case StartPno(settings, a) => StartSettles(c, s, settings, a);
    case StopPno(a) => StopSettles(c, s, a);
    case HalResults(results) => StepBehaves(s.manager, Results(results));
    case HalReport(status, a) => ReportSettles(c, s, status, a);
    case HalDeath(cookie, a) => DeathSettles(c, s, cookie, a);
    case _ =>
  }

  /** Every state of a run in which the process still lives is settled. */
  lemma {:induction false} RunSettles(c: Config, service: ServiceAnswers, events: seq<Event>)
    ensures Dead(Run(c, service, events)) || Settled(c, Run(c, service, events))
  {
    if events == [] {
      RunStaysConnected(service, []);
    } else {
      var front := events[..|events| - 1];
      RunSettles(c, service, front);
      if !Dead(Run(c, service, front)) {
        StepSettles(c, Run(c, service, front), events[|events| - 1]);
      }
    }
  }

  /** Over a whole run, the HAL is called through a null handle exactly if it ever dies during a scan. */
  lemma {:induction false} RunFaults(c: Config, service: ServiceAnswers, events: seq<Event>)
    ensures !Run(c, service, events).manager.faulted <==> Never(DiesDuringScan, c, service, events)
  {
    if events == [] {
      RunSettles(c, service, events);
      RunStaysConnected(service, []);
    } else {
      var n := |events| - 1;
      RunFaults(c, service, events[..n]);
      RunSettles(c, service, events[..n]);
      NeverSnoc(DiesDuringScan, c, service, events);
      if !Dead(Run(c, service, events[..n])) {
        StepSettles(c, Run(c, service, events[..n]), events[n]);
      }
    }
  }

  /**
   A start over offload, from any reachable state, hands the HAL in use the pruned networks: the hidden SSIDs to scan
   for and a filter that names exactly the matched networks, both within the device's limits; then it subscribes.
   */
  lemma {:induction false} OffloadScanIsAsked(c: Config, service: ServiceAnswers, events: seq<Event>, settings: PnoSettings, a: Answers)
    requires !Dead(Run(c, service, events)) && AfterStartOffload(c, Run(c, service, events), settings, a).0
    ensures var after := AfterStartOffload(c, Run(c, service, events), settings, a).1.manager;
            var lists := Pruned(settings.pnoNetworks, [], c.caps.maxNumSchedScanSsids, c.caps.maxMatchSets);
            var filter := FilterOf(lists.matches, lists.security, settings.min5gRssi);
            && Connected(after) && after.serviceAvailable && |after.calls| >= 2
            && after.calls[|after.calls| - 2..] ==
               [HalCall(after.hal.value, ConfigureScans(ScanParam(UInt32(settings.intervalMs), [], lists.scan), filter)),
                HalCall(after.hal.value, SubscribeScanResults(SUBSCRIPTION_DELAY_MS))]
            && |filter.preferredNetworkInfoList| == |lists.matches|
            && (forall k :: 0 <= k < |lists.matches| ==> filter.preferredNetworkInfoList[k] == NetworkInfo(lists.matches[k], 0))
            && |lists.scan| <= c.caps.maxNumSchedScanSsids && |lists.matches| <= c.caps.maxMatchSets
  {
    RunSettles(c, service, events);
    StartMeaning(Run(c, service, events).manager, OffloadRequestFor(c, settings), a.hal);
    FilterNamesMatches(settings, c.caps);
    PrunedRespectsCapacity(settings.pnoNetworks, [], c.caps.maxNumSchedScanSsids, c.caps.maxMatchSets);
  }

  // ---- exclusion of the two recorded flags ----

  /** What the scanner records: not both backends. What the HAL does is the subject of `Apart`, below. */
  predicate Exclusive(s: ScannerState) {
    !(s.pnoScanStarted && s.runningOverOffload)
  }

  /** A start over offload that succeeds while a netlink scan is still recorded as running. */
  predicate Overlaps(c: Config, s: ScannerState, e: Event) {
    && !Dead(s) && e.StartPno? && s.pnoScanStarted && c.offloadScanSupported
    && AfterStartScan(s.manager, OffloadRequestFor(c, e.settings), e.answers.hal).0
  }

  lemma {:induction false} RunsOffloadOnlyIfSupported(c: Config, service: ServiceAnswers, events: seq<Event>)
    ensures Run(c, service, events).runningOverOffload ==> c.offloadScanSupported
  {
    if events != [] {
      var front := events[..|events| - 1];
      RunsOffloadOnlyIfSupported(c, service, front);
    }
  }

  /** One step keeps the flags exclusive exactly when it is not an overlapping start. */
  lemma {:induction false} StepExclusion(c: Config, s: ScannerState, e: Event)
    requires Exclusive(s) && (s.runningOverOffload ==> c.offloadScanSupported)
    ensures Exclusive(Step(c, s, e)) <==> !Overlaps(c, s, e)
  {
  }

  ghost predicate AlwaysExclusive(c: Config, service: ServiceAnswers, events: seq<Event>) {
    OfAllPrefixes(prefix => Exclusive(Run(c, service, prefix)), events)
  }

  /** Over a whole run, the flags stay exclusive in every state exactly when no start overlaps. */
  lemma {:induction false} RunExclusion(c: Config, service: ServiceAnswers, events: seq<Event>)
    ensures AlwaysExclusive(c, service, events) <==> Never((s, e) => Overlaps(c, s, e), c, service, events)
    ensures AlwaysExclusive(c, service, events) ==> Exclusive(Run(c, service, events))
  {
    if events == [] {
      assert Before(events, 0) == [];
    } else {
      var n := |events| - 1;
      RunExclusion(c, service, events[..n]);
      RunsOffloadOnlyIfSupported(c, service, events[..n]);
      OfAllPrefixesSnoc(prefix => Exclusive(Run(c, service, prefix)), events);
      NeverSnoc((s, e) => Overlaps(c, s, e), c, service, events);
      if Exclusive(Run(c, service, events[..n])) {
        StepExclusion(c, Run(c, service, events[..n]), events[n]);
      }
    }
  }

  /** A start while either backend is recorded as running. */
  predicate StartsWhileRunning(s: ScannerState, e: Event) {
    e.StartPno? && (s.pnoScanStarted || s.runningOverOffload)
  }

  /** A start that a willing HAL could turn into an overlap, as far as can be told before it. */
  predicate MayOverlap(c: Config, s: ScannerState, e: Event) {
    e.StartPno? && s.pnoScanStarted && c.offloadScanSupported && s.manager.status == NoError
  }

  lemma {:induction false} NeverWeakens(bad: (ScannerState, Event) -> bool, worse: (ScannerState, Event) -> bool,
                                        c: Config, service: ServiceAnswers, events: seq<Event>)
    requires Never(bad, c, service, events)
    requires forall i :: 0 <= i < |events| ==>
               worse(Run(c, service, Before(events, i)), events[i]) ==> bad(Run(c, service, Before(events, i)), events[i])
    ensures Never(worse, c, service, events)
  {
  }

  /**
   What callers can do: if no start is issued while a netlink scan is recorded, offload is supported and the HAL's
   status is clean, the flags exclude each other in every state; in particular if every start finds neither set.
   */
  lemma {:induction false} GuardedStartsExclude(c: Config, service: ServiceAnswers, events: seq<Event>)
    ensures Never((s, e) => MayOverlap(c, s, e), c, service, events) ==> AlwaysExclusive(c, service, events)
    ensures Never(StartsWhileRunning, c, service, events) ==> AlwaysExclusive(c, service, events)
  {
    RunExclusion(c, service, events);
    forall i | 0 <= i < |events|
      ensures Overlaps(c, Run(c, service, Before(events, i)), events[i]) ==>
                MayOverlap(c, Run(c, service, Before(events, i)), events[i])
    {
    }
    if Never((s, e) => MayOverlap(c, s, e), c, service, events) {
      NeverWeakens((s, e) => MayOverlap(c, s, e), (s, e) => Overlaps(c, s, e), c, service, events);
    }
    if Never(StartsWhileRunning, c, service, events) {
      NeverWeakens(StartsWhileRunning, (s, e) => Overlaps(c, s, e), c, service, events);
    }
  }

  /**
     That condition is exact: in any reachable state, a start can break exclusion under some answers of the HAL
     exactly if it is met.
   */
  lemma {:induction false} SafeToStart(c: Config, service: ServiceAnswers, events: seq<Event>, settings: PnoSettings)
    requires var s := Run(c, service, events); Exclusive(s) && !Dead(s)
    ensures var s := Run(c, service, events);
            (forall a: Answers :: Exclusive(AfterStartPno(c, s, settings, a).1)) <==>
            !(s.pnoScanStarted && c.offloadScanSupported && s.manager.status == NoError)
  {
    var s := Run(c, service, events);
    RunSettles(c, service, events);
    var r := OffloadRequestFor(c, settings);
    StartMeaning(s.manager, r, WILLING.hal);
    if s.pnoScanStarted && c.offloadScanSupported && s.manager.status == NoError {
      assert !Exclusive(AfterStartPno(c, s, settings, WILLING).1);
    } else {
      forall a: Answers
        ensures Exclusive(AfterStartPno(c, s, settings, a).1)
      {
        StartMeaning(s.manager, r, a.hal);
      }
    }
  }

  // ---- exclusion of the two backends themselves ----

  /**
   No netlink scan is recorded while the HAL has an open subscription: one that it acknowledged, and whose end it
   did not. The scanner itself does not record subscriptions.
   */
  predicate Apart(s: ScannerState) {
    !(s.pnoScanStarted && s.manager.subscribed.Some?)
  }

  /** A start that brings both together: over offload beside netlink, or over netlink beside an open subscription. */
  predicate StartCollides(c: Config, s: ScannerState, settings: PnoSettings, a: Answers) {
    if c.offloadScanSupported && AfterStartScan(s.manager, OffloadRequestFor(c, settings), a.hal).0 then s.pnoScanStarted
    else a.netlinkStart.Started? && s.manager.subscribed.Some?
  }

  /** A failover whose unsubscribe is not acknowledged, and whose netlink scan starts. */
  predicate FailoverCollides(s: ScannerState, status: HalStatus, a: Answers) {
    IsFailure(status) && s.runningOverOffload && !a.hal.unsubscribeOk && a.netlinkStart.Started?
  }

  predicate Collides(c: Config, s: ScannerState, e: Event) {
    !Dead(s) &&
    match e
    case StartPno(settings, a) => StartCollides(c, s, settings, a)
    case HalReport(status, a) => FailoverCollides(s, status, a)
    case _ => false
  }

  lemma {:induction false} StartApart(c: Config, s: ScannerState, settings: PnoSettings, a: Answers)
    requires Settled(c, s) && Apart(s)
    ensures Apart(AfterStartPno(c, s, settings, a).1) <==> !StartCollides(c, s, settings, a)
  {
    StartMeaning(s.manager, OffloadRequestFor(c, settings), a.hal);
  }

  lemma {:induction false} DeathApart(c: Config, s: ScannerState, cookie: nat, a: Answers)
    requires Settled(c, s) && Apart(s)
    ensures Apart(AfterHalDeath(c, s, cookie, a))
  {
    if s.runningOverOffload && s.manager.hal == Some(cookie) {
      DeathFaults(c, s, a);
    }
  }

  /** One event keeps the backends apart exactly if it does not collide. */
  lemma {:induction false} StepApart(c: Config, s: ScannerState, e: Event)
    requires Settled(c, s) && Apart(s)
    ensures Apart(Step(c, s, e)) <==> !Collides(c, s, e)
  {
    match e
    case StartPno(settings, a) => StartApart(c, s, settings, a);
    case HalDeath(cookie, a) => DeathApart(c, s, cookie, a);
    case _ =>
  }

  ghost predicate AlwaysApart(c: Config, service: ServiceAnswers, events: seq<Event>) {
    OfAllPrefixes(prefix => Apart(Run(c, service, prefix)), events)
  }

  /** Over a whole run, no netlink scan is ever recorded beside an open subscription exactly if no event collides. */
  lemma {:induction false} RunApart(c: Config, service: ServiceAnswers, events: seq<Event>)
    ensures AlwaysApart(c, service, events) <==> Never((s, e) => Collides(c, s, e), c, service, events)
    ensures AlwaysApart(c, service, events) ==> Apart(Run(c, service, events))
  {
    if events == [] {
      assert Before(events, 0) == [];
    } else {
      var n := |events| - 1;
      RunApart(c, service, events[..n]);
      RunSettles(c, service, events[..n]);
      OfAllPrefixesSnoc(prefix => Apart(Run(c, service, prefix)), events);
      NeverSnoc((s, e) => Collides(c, s, e), c, service, events);
      if Apart(Run(c, service, events[..n])) && !Dead(Run(c, service, events[..n])) {
        StepApart(c, Run(c, service, events[..n]), events[n]);
      }
    }
  }

  /**
   What can be told before a start: in any reachable state, some answers of the HAL and the kernel bring the backends
   together exactly if a subscription is open, or a netlink scan is recorded and an offload start could succeed.
   */
  lemma {:induction false} SafeToStartApart(c: Config, service: ServiceAnswers, events: seq<Event>, settings: PnoSettings)
    requires var s := Run(c, service, events); Apart(s) && !Dead(s)
    ensures var s := Run(c, service, events);
            (forall a: Answers :: Apart(AfterStartPno(c, s, settings, a).1)) <==>
            && s.manager.subscribed == None
            && !(s.pnoScanStarted && c.offloadScanSupported && s.manager.status == NoError)
  {
    var s := Run(c, service, events);
    RunSettles(c, service, events);
    var r := OffloadRequestFor(c, settings);
    if s.manager.subscribed.Some? {
      StartApart(c, s, settings, REFUSING);
      StartMeaning(s.manager, r, REFUSING.hal);
      assert !Apart(AfterStartPno(c, s, settings, REFUSING).1);
    } else if s.pnoScanStarted && c.offloadScanSupported && s.manager.status == NoError {
      StartApart(c, s, settings, WILLING);
      StartMeaning(s.manager, r, WILLING.hal);
      assert !Apart(AfterStartPno(c, s, settings, WILLING).1);
    } else {
      forall a: Answers
        ensures Apart(AfterStartPno(c, s, settings, a).1)
      {
        StartApart(c, s, settings, a);
        StartMeaning(s.manager, r, a.hal);
      }
    }
  }

  /** A stop or a failover whose unsubscribe the HAL does not acknowledge. */
  predicate UnsubscribeLost(s: ScannerState, e: Event) {
    && s.runningOverOffload
    && ((e.StopPno? && !e.answers.hal.unsubscribeOk)
        || (e.HalReport? && IsFailure(e.status) && !e.answers.hal.unsubscribeOk))
  }

  /** A subscription is only open while the scanner records a scan over offload. */
  predicate Tight(s: ScannerState) {
    s.manager.subscribed.Some? ==> s.runningOverOffload
  }

  lemma {:induction false} StepTight(c: Config, s: ScannerState, e: Event)
    requires Settled(c, s) && Tight(s) && !StartsWhileRunning(s, e) && !UnsubscribeLost(s, e)
    ensures Dead(Step(c, s, e)) || Tight(Step(c, s, e))
    ensures !Collides(c, s, e)
  {
    match e
    case StartPno(settings, a) => StartMeaning(s.manager, OffloadRequestFor(c, settings), a.hal);
    case StopPno(a) => StopMeaning(s.manager, a.hal);
    case HalDeath(cookie, a) => DeathSettles(c, s, cookie, a);
    case _ =>
  }

  /** If every start finds neither flag set, and every unsubscribe is acknowledged, the backends stay apart. */
  lemma {:induction false} CarefulRunsStayApart(c: Config, service: ServiceAnswers, events: seq<Event>)
    requires Never(StartsWhileRunning, c, service, events) && Never(UnsubscribeLost, c, service, events)
    ensures AlwaysApart(c, service, events)
    ensures Dead(Run(c, service, events)) || Tight(Run(c, service, events))
  {
    RunApart(c, service, events);
    if events == [] {
      RunStaysConnected(service, []);
    } else {
      var n := |events| - 1;
      var s := Run(c, service, events[..n]);
      NeverSnoc(StartsWhileRunning, c, service, events);
      NeverSnoc(UnsubscribeLost, c, service, events);
      NeverSnoc((s, e) => Collides(c, s, e), c, service, events);
      CarefulRunsStayApart(c, service, events[..n]);
      RunApart(c, service, events[..n]);
      RunSettles(c, service, events[..n]);
      if !Dead(s) {
        StepTight(c, s, events[n]);
      }
    }
  }

  // ---- runs that bring the backends together ----

  const ALIVE: ServiceAnswers := ServiceAnswers(Some(1), true, true, true)

  /** The HAL takes everything, and so does the kernel. */
  const WILLING: Answers := Answers(HalAnswers(ALIVE, Answered(OK), Answered(OK), true), true, Started, false)

  /** The HAL refuses to be configured; the kernel starts. */
  const REFUSING: Answers := WILLING.(hal := WILLING.hal.(configure := Answered(ERROR)))

  /** The HAL's answer to an unsubscribe is lost. */
  const LOSING: Answers := WILLING.(hal := WILLING.hal.(unsubscribeOk := false))

  lemma {:induction false} RunOfMore(c: Config, service: ServiceAnswers, events: seq<Event>, e: Event)
    ensures Run(c, service, events + [e]) == Step(c, Run(c, service, events), e)
  {
    assert (events + [e])[..|events|] == events;
  }

  /** Two starts, of which the HAL refuses the first and takes the second, set both flags, and both backends run. */
  lemma {:induction false} BothBackendsCanRun(caps: ScanCapabilities, features: WiphyFeatures, settings: PnoSettings)
    ensures var s := Run(Config(caps, features, true), ALIVE, [StartPno(settings, REFUSING), StartPno(settings, WILLING)]);
            !Dead(s) && !Exclusive(s) && !Apart(s)
  {
    var c := Config(caps, features, true);
    var first, second := StartPno(settings, REFUSING), StartPno(settings, WILLING);
    RunSettles(c, ALIVE, []);
    RunOfMore(c, ALIVE, [], first);
    assert [] + [first] == [first];
    RunOfMore(c, ALIVE, [first], second);
    assert [first] + [second] == [first, second];
    StartMeaning(Constructed(ALIVE), OffloadRequestFor(c, settings), REFUSING.hal);
    StartSettles(c, Run(c, ALIVE, []), settings, REFUSING);
    var s := Run(c, ALIVE, [first]);
    StartMeaning(s.manager, OffloadRequestFor(c, settings), WILLING.hal);
    StartSettles(c, s, settings, WILLING);
  }

  /** A scan runs over offload, on a HAL object that was never asked to end its subscription. */
  predicate OverOffload(c: Config, s: ScannerState) {
    && Settled(c, s) && s.runningOverOffload && !s.pnoScanStarted && s.manager.subscribed == Some(1)
    && HalCall(1, UnsubscribeScanResults) !in s.manager.calls
  }

  /** A netlink scan runs, and the HAL has an open subscription. */
  predicate BesideSubscription(s: ScannerState) {
    !Dead(s) && s.pnoScanStarted && s.manager.subscribed == Some(1)
  }

  lemma {:induction false} FirstStart(c: Config, settings: PnoSettings)
    requires c.offloadScanSupported
    ensures OverOffload(c, Run(c, ALIVE, [StartPno(settings, WILLING)]))
  {
    RunSettles(c, ALIVE, []);
    RunOfMore(c, ALIVE, [], StartPno(settings, WILLING));
    assert [] + [StartPno(settings, WILLING)] == [StartPno(settings, WILLING)];
    WillingStart(c, Run(c, ALIVE, []), settings);
  }

  lemma {:induction false} WillingStart(c: Config, s: ScannerState, settings: PnoSettings)
    requires Settled(c, s) && c.offloadScanSupported && !s.pnoScanStarted && s.manager == Constructed(ALIVE)
    ensures OverOffload(c, AfterStartPno(c, s, settings, WILLING).1)
  {
    StartSettles(c, s, settings, WILLING);
  }

  /** A start over offload that fails beside the open subscription of the last one: nothing stops the old scan. */
  lemma {:induction false} RestartLeavesSubscription(caps: ScanCapabilities, features: WiphyFeatures, settings: PnoSettings)
    ensures var events := [StartPno(settings, WILLING), StartPno(settings, REFUSING)];
            var s := Run(Config(caps, features, true), ALIVE, events);
            && BesideSubscription(s) && HalCall(1, UnsubscribeScanResults) !in s.manager.calls
            && AlwaysExclusive(Config(caps, features, true), ALIVE, events)
  {
    var c := Config(caps, features, true);
    var first, second := StartPno(settings, WILLING), StartPno(settings, REFUSING);
    FirstStart(c, settings);
    RunOfMore(c, ALIVE, [first], second);
    assert [first] + [second] == [first, second];
    NeverSnoc((s, e) => MayOverlap(c, s, e), c, ALIVE, [first]);
    NeverSnoc((s, e) => MayOverlap(c, s, e), c, ALIVE, [first, second]);
    assert [first, second][..1] == [first] && [first][..0] == [];
    GuardedStartsExclude(c, ALIVE, [first, second]);
  }

  /** A stop whose unsubscribe is lost, and a start that falls to netlink: no start found either flag set. */
  lemma {:induction false} LostUnsubscribeLeavesSubscription(caps: ScanCapabilities, features: WiphyFeatures, settings: PnoSettings)
    ensures var c := Config(caps, features, true);
            var events := [StartPno(settings, WILLING), StopPno(LOSING), StartPno(settings, REFUSING)];
            var s := Run(c, ALIVE, events);
            BesideSubscription(s) && Never(StartsWhileRunning, c, ALIVE, events) && AlwaysExclusive(c, ALIVE, events)
  {
    var c := Config(caps, features, true);
    var first, second, third := StartPno(settings, WILLING), StopPno(LOSING), StartPno(settings, REFUSING);
    FirstStart(c, settings);
    var s := Run(c, ALIVE, [first]);
    StopMeaning(s.manager, LOSING.hal);
    StopSettles(c, s, LOSING);
    RunOfMore(c, ALIVE, [first], second);
    assert [first] + [second] == [first, second];
    RunOfMore(c, ALIVE, [first, second], third);
    assert [first, second] + [third] == [first, second, third];
    NeverSnoc(StartsWhileRunning, c, ALIVE, [first]);
    NeverSnoc(StartsWhileRunning, c, ALIVE, [first, second]);
    NeverSnoc(StartsWhileRunning, c, ALIVE, [first, second, third]);
    assert [first, second, third][..2] == [first, second] && [first, second][..1] == [first] && [first][..0] == [];
    GuardedStartsExclude(c, ALIVE, [first, second, third]);
  }

  lemma {:induction false} LosingFailover(c: Config, s: ScannerState)
    requires Settled(c, s) && s.runningOverOffload && s.manager.subscribed == Some(1)
    ensures BesideSubscription(Step(c, s, HalReport(ERROR, LOSING)))
  {
    FallbackMeaning(AfterStopPno(c, Notified(s, OverOffloadFailed(false)), LOSING).1,
                    RequestFor(c, s.settings, LOSING.associated), LOSING.netlinkStart);
  }

  /** A failover whose unsubscribe is lost. */
  lemma {:induction false} FailoverLeavesSubscription(caps: ScanCapabilities, features: WiphyFeatures, settings: PnoSettings)
    ensures var c := Config(caps, features, true);
            var events := [StartPno(settings, WILLING), HalReport(ERROR, LOSING)];
            var s := Run(c, ALIVE, events);
            BesideSubscription(s) && Never(StartsWhileRunning, c, ALIVE, events) && AlwaysExclusive(c, ALIVE, events)
  {
    var c := Config(caps, features, true);
    var first, second := StartPno(settings, WILLING), HalReport(ERROR, LOSING);
    FirstStart(c, settings);
    RunOfMore(c, ALIVE, [first], second);
    assert [first] + [second] == [first, second];
    LosingFailover(c, Run(c, ALIVE, [first]));
    OneStartExcludes(c, settings, second);
  }

  /** A run with one start, at the beginning. */
  lemma {:induction false} OneStartExcludes(c: Config, settings: PnoSettings, e: Event)
    requires !e.StartPno?
    ensures Never(StartsWhileRunning, c, ALIVE, [StartPno(settings, WILLING), e])
    ensures AlwaysExclusive(c, ALIVE, [StartPno(settings, WILLING), e])
  {
    var first := StartPno(settings, WILLING);
    NeverSnoc(StartsWhileRunning, c, ALIVE, [first]);
    NeverSnoc(StartsWhileRunning, c, ALIVE, [first, e]);
    assert [first, e][..1] == [first] && [first][..0] == [];
    GuardedStartsExclude(c, ALIVE, [first, e]);
  }

  // ---- failover ----

  /** The settings of the last start, which a failover uses. */
  function LastSettings(events: seq<Event>): Option<PnoSettings> {
    if events == [] then None
    else if events[|events| - 1].StartPno? then Some(events[|events| - 1].settings)
    else LastSettings(events[..|events| - 1])
  }

  lemma {:induction false} StepSettings(c: Config, s: ScannerState, e: Event)
    requires !Dead(Step(c, s, e))
    ensures !Dead(s)
    ensures Step(c, s, e).settings == if e.StartPno? then e.settings else s.settings
    ensures Step(c, s, e).runningOverOffload ==> s.runningOverOffload || e.StartPno?
  {
  }

  lemma {:induction false} RunsWithLastSettings(c: Config, service: ServiceAnswers, events: seq<Event>)
    requires !Dead(Run(c, service, events))
    ensures Run(c, service, events).settings == LastSettings(events).GetOr(PnoSettings(0, 0, 0, []))
    ensures Run(c, service, events).runningOverOffload ==> LastSettings(events).Some?
  {
    if events != [] {
      var front := events[..|events| - 1];
      StepSettings(c, Run(c, service, front), events[|events| - 1]);
      RunsWithLastSettings(c, service, front);
    }
  }

  /**
     A failure the offload HAL reports during a scan, in any reachable state: the HAL is asked to end the subscription,
     which stays open if it does not acknowledge that; the scan is no longer recorded as over offload; and exactly one
     request goes to the kernel, with the settings of the last start. Then the netlink scan runs, or the subscriber is
     told of the failure, or the process ends, for want of a subscriber or of the driver.
   */
  lemma {:induction false} Failover(c: Config, service: ServiceAnswers, events: seq<Event>, a: Answers)
    requires var s := Run(c, service, events); s.runningOverOffload && !Dead(s)
    ensures var s := Run(c, service, events);
            var after := AfterOffloadError(c, s, REMOTE_FAILURE, a);
            && !after.runningOverOffload && !after.manager.faulted
            && s.manager.hal.Some?
            && after.manager.calls == s.manager.calls + [HalCall(s.manager.hal.value, UnsubscribeScanResults)]
            && after.manager.subscribed == (if a.hal.unsubscribeOk then None else s.manager.subscribed)
            && LastSettings(events).Some?
            && after.requests == s.requests + [RequestFor(c, LastSettings(events).value, a.associated)]
            && after.pnoScanStarted == (a.netlinkStart.Started? || s.pnoScanStarted)
            && (after.crashed <==> a.netlinkStart == Refused(ENODEV) || (a.netlinkStart.Refused? && !s.subscribed))
            && after.notices == FallbackNotices(Notified(s, OverOffloadFailed(false)), a.netlinkStart)
  {
    RunsWithLastSettings(c, service, events);
    RunSettles(c, service, events);
    var s := Run(c, service, events);
    var stopped := AfterStopPno(c, Notified(s, OverOffloadFailed(false)), a).1;
    FallbackMeaning(stopped, RequestFor(c, s.settings, a.associated), a.netlinkStart);
  }

  /** What is reported when the fallback does not start the netlink scan. */
  function FallbackNotices(s: ScannerState, answer: StartAnswer): seq<Notice> {
    if s.subscribed && answer.Refused? && answer != Refused(ENODEV) then s.notices + [PnoScanFailed] else s.notices
  }

  lemma {:induction false} FallbackMeaning(s: ScannerState, request: NetlinkRequest, answer: StartAnswer)
    requires !s.crashed
    ensures var after := AfterFallback(s, request, answer);
            && after.requests == s.requests + [request]
            && after.pnoScanStarted == (answer.Started? || s.pnoScanStarted)
            && (after.crashed <==> answer == Refused(ENODEV) || (answer.Refused? && !s.subscribed))
            && after.notices == FallbackNotices(s, answer)
  {
  }

  /**
   The death of the HAL during a scan never gets that far: in any reachable state, the fallback first stops the scan
   through the handle that the death notice has just dropped, and the process ends without a request to the kernel.
   Any other death leaves the process alive, and any scan running.
   */
  lemma {:induction false} DeathIsNotSurvived(c: Config, service: ServiceAnswers, events: seq<Event>, cookie: nat, a: Answers)
    requires !Dead(Run(c, service, events))
    ensures var s := Run(c, service, events);
            var after := Step(c, s, HalDeath(cookie, a));
            && (Dead(after) <==> s.runningOverOffload && s.manager.hal == Some(cookie))
            && (Dead(after) ==> after.manager.faulted && after.requests == s.requests)
            && (!Dead(after) ==> after.(manager := s.manager) == s)
  {
    var s := Run(c, service, events);
    RunSettles(c, service, events);
    DeathSettles(c, s, cookie, a);
    if s.runningOverOffload {
      DeathFaults(c, s, a);
    }
  }

  /** A run that shows it: a scan is started over offload, and the HAL dies. */
  lemma {:induction false} DeathDuringScanFaults(caps: ScanCapabilities, features: WiphyFeatures, settings: PnoSettings)
    ensures Run(Config(caps, features, true), ALIVE, [StartPno(settings, WILLING), HalDeath(1, WILLING)]).manager.faulted
  {
    var c := Config(caps, features, true);
    var first, second := StartPno(settings, WILLING), HalDeath(1, WILLING);
    FirstStart(c, settings);
    RunOfMore(c, ALIVE, [first], second);
    assert [first] + [second] == [first, second];
    DeathIsNotSurvived(c, ALIVE, [first], 1, WILLING);
  }

  // ---- where results come from ----

  /** An offload result that the scanner accepts. */
  predicate OffloadResultAt(c: Config, service: ServiceAnswers, events: seq<Event>, i: nat)
    requires i < |events|
  {
    var s := Run(c, service, Before(events, i));
    !Dead(s) && events[i].HalResults? && s.runningOverOffload
  }

  /** A start, or kernel results with a subscriber. */
  predicate NetlinkSourceAt(c: Config, service: ServiceAnswers, events: seq<Event>, i: nat)
    requires i < |events|
  {
    var s := Run(c, service, Before(events, i));
    !Dead(s) && (events[i].StartPno? || (events[i] == SchedScanResults(false) && s.subscribed))
  }

  /** Where results come from after one step. */
  lemma {:induction false} StepSource(c: Config, s: ScannerState, e: Event)
    ensures Step(c, s, e).resultsFromOffload <==>
            if Dead(s) then s.resultsFromOffload
            else if e.HalResults? && s.runningOverOffload then true
            else if e.StartPno? || (e == SchedScanResults(false) && s.subscribed) then false
            else s.resultsFromOffload
  {
  }

  /** After an accepted offload result, nothing that switches to the kernel. */
  ghost predicate LastSourceIs(c: Config, service: ServiceAnswers, events: seq<Event>, i: nat)
    requires i < |events|
  {
    OffloadResultAt(c, service, events, i) && forall j :: i < j < |events| ==> !NetlinkSourceAt(c, service, events, j)
  }

  lemma {:induction false} SourcesOfFront(c: Config, service: ServiceAnswers, events: seq<Event>, i: nat)
    requires i + 1 < |events|
    ensures var front := events[..|events| - 1];
            && OffloadResultAt(c, service, events, i) == OffloadResultAt(c, service, front, i)
            && NetlinkSourceAt(c, service, events, i) == NetlinkSourceAt(c, service, front, i)
  {
    BeforeFront(events, i);
  }

  lemma {:induction false} LastSourceOfFront(c: Config, service: ServiceAnswers, events: seq<Event>, i: nat)
    requires i + 1 < |events|
    ensures LastSourceIs(c, service, events, i) <==>
            LastSourceIs(c, service, events[..|events| - 1], i) && !NetlinkSourceAt(c, service, events, |events| - 1)
  {
    var n := |events| - 1;
    forall j | 0 <= j < n
      ensures OffloadResultAt(c, service, events, j) == OffloadResultAt(c, service, events[..n], j)
      ensures NetlinkSourceAt(c, service, events, j) == NetlinkSourceAt(c, service, events[..n], j)
    {
      SourcesOfFront(c, service, events, j);
    }
  }

  ghost predicate OffloadIsLast(c: Config, service: ServiceAnswers, events: seq<Event>) {
    exists i :: 0 <= i < |events| && LastSourceIs(c, service, events, i)
  }

  lemma {:induction false} OffloadIsLastSnoc(c: Config, service: ServiceAnswers, events: seq<Event>)
    requires events != []
    ensures var n := |events| - 1;
            OffloadIsLast(c, service, events) <==>
            OffloadResultAt(c, service, events, n) || (OffloadIsLast(c, service, events[..n]) && !NetlinkSourceAt(c, service, events, n))
  {
    var n := |events| - 1;
    forall i | 0 <= i < n
      ensures LastSourceIs(c, service, events, i) <==> LastSourceIs(c, service, events[..n], i) && !NetlinkSourceAt(c, service, events, n)
    {
      LastSourceOfFront(c, service, events, i);
    }
    assert LastSourceIs(c, service, events, n) <==> OffloadResultAt(c, service, events, n);
  }

  /**
     Results are read from the HAL's cache exactly when an accepted offload result came after every start and
     every kernel result with a subscriber.
   */
  lemma {:induction false} ResultSource(c: Config, service: ServiceAnswers, events: seq<Event>)
    ensures Run(c, service, events).resultsFromOffload <==> OffloadIsLast(c, service, events)
  {
    if events != [] {
      var n := |events| - 1;
      ResultSource(c, service, events[..n]);
      assert Before(events, n) == events[..n];
      StepSource(c, Run(c, service, events[..n]), events[n]);
      OffloadIsLastSnoc(c, service, events);
    }
  }
}
