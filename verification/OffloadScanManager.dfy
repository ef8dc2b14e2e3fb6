/**
 The client of the offload HAL (scanning/offload/offload_scan_manager.cpp): which HAL object it holds, the calls it
 makes to it, the last status reported and the cached scan results. What the HAL answers is an input.
 */
module OffloadScanManager {
  import opened Bytes
  import opened PnoRequest
  import opened Parcelables

  datatype StatusCode = NoError | NoService | NotConnected | TimeOut | Error

  datatype ReasonCode = None_ | NotAvailable | OperationFailed | TransactionFailed

  /** A status code as the HAL reports it; the interface also lets unknown codes through. */
  datatype HalStatus = OK | TIMEOUT | NO_CONNECTION | ERROR | UNKNOWN

  /** A HAL call: lost in transport, or answered with a status. */
  datatype HalResult = TransportFailed | Answered(status: HalStatus)

  /** How an attempt to get hold of the service goes; HAL objects are told apart by their handles. */
  datatype ServiceAnswers = ServiceAnswers(hal: Option<nat>, linkToDeathOk: bool, callbackCreated: bool, setCallbackOk: bool)

  /** Everything the HAL may be asked in one call of the manager. */
  datatype HalAnswers = HalAnswers(service: ServiceAnswers, configure: HalResult, subscribe: HalResult, unsubscribeOk: bool)

  // ---- what is asked of the HAL ----

  /** The arguments of a scan request to the manager. */
  datatype ScanRequest = ScanRequest(
    intervalMs: nat, rssiThreshold: int, scanSsids: seq<Ssid>, matchSsids: seq<Ssid>, matchSecurity: seq<nat>, freqs: seq<nat>)

  datatype ScanParam = ScanParam(disconnectedModeScanIntervalMs: nat, frequencyList: seq<nat>, ssidList: seq<Ssid>)

  datatype HalRequest =
    | LinkToDeath
    | SetEventCallback
    | ConfigureScans(param: ScanParam, filter: ScanFilter)
    | SubscribeScanResults(delayMs: nat)
    | UnsubscribeScanResults

  /** A call that was made, and the HAL object it was made to. */
  datatype HalCall = HalCall(handle: nat, request: HalRequest)

  const SUBSCRIPTION_DELAY_MS: nat := 5000

  function ParamOf(r: ScanRequest): ScanParam {
    ScanParam(r.intervalMs, r.freqs, r.scanSsids)
  }

  function ConfigureFor(r: ScanRequest): HalRequest {
    ConfigureScans(ParamOf(r), FilterOf(r.matchSsids, r.matchSecurity, r.rssiThreshold))
  }

  // ---- scan results (scanning/offload/offload_scan_utils.cpp) ----

  /** A result as the HAL gives it, and the time in microseconds at which it is converted. */
  datatype HalScanResult = HalScanResult(ssid: Buffer, bssid: Buffer, frequency: nat, rssi: int, capability: nat, convertedAt: nat)

  type ScanResults = seq<ScanResult>

  function Converted(r: HalScanResult): ScanResult {
    ScanResult(r.ssid, r.bssid, [], r.frequency, r.rssi, r.convertedAt, r.capability, false, [])
  }

  function AllConverted(results: seq<HalScanResult>): (converted: ScanResults)
    ensures |converted| == |results|
    ensures forall i :: 0 <= i < |results| ==> converted[i] == Converted(results[i])
  {
    seq(|results|, i requires 0 <= i < |results| => Converted(results[i]))
  }

  // ---- the state ----

  /**
   The HAL object in hand; those on which the current death recipient and the current callback were registered; the
   one that has acknowledged a subscription and neither acknowledged its end nor died, which the source does not
   record; and whether a call was ever attempted without one in hand, which ends the process.
   */
  datatype ManagerState = ManagerState(
    hal: Option<nat>, deathLink: Option<nat>, callback: Option<nat>, subscribed: Option<nat>,
    status: StatusCode, serviceAvailable: bool, cachedScanResults: ScanResults,
    calls: seq<HalCall>, faulted: bool)

  function Called(m: ManagerState, request: HalRequest): ManagerState {
    match m.hal
    case None => m.(faulted := true)
    case Some(handle) => m.(calls := m.calls + [HalCall(handle, request)])
  }

  /** The service was obtained, is watched for death, and has a callback. */
  predicate Reached(a: ServiceAnswers) {
    a.hal.Some? && a.linkToDeathOk && a.callbackCreated && a.setCallbackOk
  }

  function SetupCalls(handle: nat, a: ServiceAnswers): seq<HalCall> {
    [HalCall(handle, LinkToDeath)] + if a.linkToDeathOk && a.callbackCreated then [HalCall(handle, SetEventCallback)] else []
  }

  /** What an attempt to get hold of the service leaves, however far it comes. */
  function AfterInitService(m: ManagerState, a: ServiceAnswers): (bool, ManagerState) {
    match a.hal
    case None => (false, m.(hal := None))
    case Some(handle) =>
      (Reached(a),
       m.(hal := a.hal,
          deathLink := if a.linkToDeathOk then a.hal else None,
          callback := if !a.linkToDeathOk then m.callback else if Reached(a) then a.hal else None,
          serviceAvailable := m.serviceAvailable || Reached(a),
          calls := m.calls + SetupCalls(handle, a)))
  }

  function AfterInitIfNeeded(m: ManagerState, a: ServiceAnswers): (bool, ManagerState) {
    if m.serviceAvailable then (true, m) else AfterInitService(m, a)
  }

  function OffloadStatus(m: ManagerState): StatusCode {
    if !m.serviceAvailable then NoService else m.status
  }

  predicate Usable(ready: bool, m: ManagerState) {
    ready && OffloadStatus(m) == NoError
  }

  function Failure(result: HalResult): Option<ReasonCode> {
    match result
    case TransportFailed => Some(TransactionFailed)
    case Answered(status) => if status == OK then None else Some(OperationFailed)
  }

  function AfterStartScan(m: ManagerState, r: ScanRequest, a: HalAnswers): (bool, ReasonCode, ManagerState) {
    var (ready, after) := AfterInitIfNeeded(m, a.service);
    if !Usable(ready, after) then (false, NotAvailable, after)
    else
      var configured := Called(after, ConfigureFor(r));
      if configured.faulted then (false, None_, configured)
      else if Failure(a.configure).Some? then (false, Failure(a.configure).value, configured)
      else
        var subscribed := Called(configured, SubscribeScanResults(SUBSCRIPTION_DELAY_MS));
        if Failure(a.subscribe).Some? then (false, Failure(a.subscribe).value, subscribed)
        else (true, None_, subscribed.(subscribed := subscribed.hal))
  }

  /** The object in hand has no subscription any more. */
  function Unsubscribed(m: ManagerState): Option<nat> {
    if m.subscribed == m.hal then None else m.subscribed
  }

  function AfterStopScan(m: ManagerState, a: HalAnswers): (bool, ReasonCode, ManagerState) {
    var (ready, after) := AfterInitIfNeeded(m, a.service);
    if !Usable(ready, after) then (false, NotAvailable, after)
    else
      var asked := Called(after, UnsubscribeScanResults);
      if asked.faulted then (false, None_, asked)
      else if a.unsubscribeOk then (true, None_, asked.(subscribed := Unsubscribed(asked)))
      else (false, TransactionFailed, asked)
  }

  /** The manager's own status for a reported one; unknown codes are ignored. */
  function Recognised(status: HalStatus): Option<StatusCode> {
    match status
    case OK => Some(NoError)
    case TIMEOUT => Some(TimeOut)
    case NO_CONNECTION => Some(NotConnected)
    case ERROR => Some(Error)
    case UNKNOWN => None
  }

  function AfterReportError(m: ManagerState, status: HalStatus): ManagerState {
    m.(status := Recognised(status).GetOr(m.status))
  }

  /**
   The first half of a death notice, before the scanner is told: the handle is gone, and the object with its
   subscription, while the service still counts.
   */
  function LostHal(m: ManagerState): ManagerState {
    m.(hal := None, subscribed := Unsubscribed(m))
  }

  /** The second half. */
  function Forgotten(m: ManagerState): ManagerState {
    m.(serviceAvailable := false, deathLink := None)
  }

  const UNINITIALIZED: ManagerState := ManagerState(None, None, None, None, Error, false, [], [], false)

  function Constructed(a: ServiceAnswers): ManagerState {
    var (ok, m) := AfterInitService(UNINITIALIZED, a);
    if ok then m.(status := NoError) else m
  }

  class OffloadScanManager {
    var wifiOffloadHal: Option<nat>
    var deathLink: Option<nat>
    var callback: Option<nat>
    /** The object with an acknowledged subscription. */
    var subscribed: Option<nat>
    var offloadStatus: StatusCode
    var serviceAvailable: bool
    var cachedScanResults: ScanResults
    /** The record of calls, and whether one was attempted through a null handle. */
    var calls: seq<HalCall>
    var faulted: bool

    function State(): ManagerState
      reads this
    {
      ManagerState(wifiOffloadHal, deathLink, callback, subscribed, offloadStatus, serviceAvailable, cachedScanResults, calls, faulted)
    }

    constructor (a: ServiceAnswers)
      ensures State() == Constructed(a)
    {
      wifiOffloadHal, deathLink, callback, subscribed := None, None, None, None;
      offloadStatus, serviceAvailable, cachedScanResults, calls, faulted := Error, false, [], [], false;
      new;
      var ok := InitService(a);
      if ok {
        offloadStatus := NoError;
      }
    }

    /** A call through the HAL handle in hand. */
    method Call(request: HalRequest)
      modifies this`calls, this`faulted
      ensures State() == Called(old(State()), request)
    {
      if wifiOffloadHal == None {
        faulted := true;
      } else {
        calls := calls + [HalCall(wifiOffloadHal.value, request)];
      }
    }

    method InitService(a: ServiceAnswers) returns (ok: bool)
      modifies this
      ensures (ok, State()) == AfterInitService(old(State()), a)
    {
      wifiOffloadHal := a.hal;
      if wifiOffloadHal == None {
        return false;
      }
      deathLink := None;
      Call(LinkToDeath);
      assert calls + [] == calls;
      assert !a.linkToDeathOk || !a.callbackCreated ==> calls == old(calls) + SetupCalls(a.hal.value, a);
      if !a.linkToDeathOk {
        return false;
      }
      deathLink := wifiOffloadHal;
      callback := None;
      if !a.callbackCreated {
        return false;
      }
      Call(SetEventCallback);
      assert calls == old(calls) + SetupCalls(a.hal.value, a);
      if !a.setCallbackOk {
        return false;
      }
      callback := wifiOffloadHal;
      serviceAvailable := true;
      return true;
    }

    method InitServiceIfNeeded(a: ServiceAnswers) returns (ok: bool)
      modifies this
      ensures (ok, State()) == AfterInitIfNeeded(old(State()), a)
    {
      ok := true;
      if !serviceAvailable {
        ok := InitService(a);
      }
    }

    function GetOffloadStatus(): StatusCode
      reads this
    {
      OffloadStatus(State())
    }

    method StartScan(r: ScanRequest, a: HalAnswers) returns (ok: bool, reason: ReasonCode)
      modifies this
      ensures (ok, reason, State()) == AfterStartScan(old(State()), r, a)
    {
      ok := InitServiceIfNeeded(a.service);
      if !ok || GetOffloadStatus() != NoError {
        return false, NotAvailable;
      }
      var param := ScanParam(r.intervalMs, r.freqs, r.scanSsids);
      var filter := CreateScanFilter(r.matchSsids, r.matchSecurity, r.rssiThreshold);
      Call(ConfigureScans(param, filter));
      if faulted {
        return false, None_;
      }
      if Failure(a.configure).Some? {
        return false, Failure(a.configure).value;
      }
      Call(SubscribeScanResults(SUBSCRIPTION_DELAY_MS));
      if Failure(a.subscribe).Some? {
        return false, Failure(a.subscribe).value;
      }
      subscribed := wifiOffloadHal;
      return true, None_;
    }

    method StopScan(a: HalAnswers) returns (ok: bool, reason: ReasonCode)
      modifies this
      ensures (ok, reason, State()) == AfterStopScan(old(State()), a)
    {
      ok := InitServiceIfNeeded(a.service);
      if !ok || GetOffloadStatus() != NoError {
        return false, NotAvailable;
      }
      Call(UnsubscribeScanResults);
      if faulted {
        return false, None_;
      }
      if !a.unsubscribeOk {
        return false, TransactionFailed;
      }
      subscribed := Unsubscribed(State());
      return true, None_;
    }

    /** Replaces the cache by the converted results; the scanner is to be told afterwards. */
    method ReportScanResults(results: seq<HalScanResult>)
      modifies this`cachedScanResults
      ensures State() == old(State()).(cachedScanResults := AllConverted(results))
    {
      cachedScanResults := [];
      for i := 0 to |results|
        invariant cachedScanResults == AllConverted(results[..i])
        invariant State() == old(State()).(cachedScanResults := cachedScanResults)
      {
        cachedScanResults := cachedScanResults + [Converted(results[i])];
      }
      assert results[..|results|] == results;
    }

    /** Whether the scanner is to be told of a failure before the status is taken over by SetStatus. */
    method ClassifyError(status: HalStatus) returns (notify: bool)
      ensures notify == (Recognised(status).Some? && Recognised(status) != Some(NoError))
    {
      return Recognised(status).Some? && Recognised(status).value != NoError;
    }

    method SetStatus(status: HalStatus)
      modifies this`offloadStatus
      ensures State() == AfterReportError(old(State()), status)
    {
      if Recognised(status).Some? {
        offloadStatus := Recognised(status).value;
      }
    }

    /** The handle is dropped if it is the one that died; the scanner is then to be told, and ForgetService called. */
    method OnObjectDeath(cookie: nat) returns (notify: bool)
      modifies this`wifiOffloadHal, this`subscribed
      ensures notify == (old(wifiOffloadHal) == Some(cookie))
      ensures State() == if notify then LostHal(old(State())) else old(State())
    {
      notify := wifiOffloadHal == Some(cookie);
      if notify {
        subscribed := Unsubscribed(State());
        wifiOffloadHal := None;
      }
    }

    method ForgetService()
      modifies this`serviceAvailable, this`deathLink
      ensures State() == Forgotten(old(State()))
    {
      serviceAvailable := false;
      deathLink := None;
    }
  }

  // ---- what the calls mean ----

  /** An available service is in hand, watched for death, and calls back to the manager: all three the same object. */
  predicate Connected(m: ManagerState) {
    m.serviceAvailable ==> m.hal.Some? && m.deathLink == m.hal && m.callback == m.hal
  }

  /**
   A start succeeds exactly if the service is or can be reached, the status is clean and the HAL answers OK twice.
   Then the object in hand, watched and calling back, was given the parameters and the filter of the request and
   subscribed to, in this order and last of all.
   */
  lemma {:induction false} StartMeaning(m: ManagerState, r: ScanRequest, a: HalAnswers)
    requires Connected(m) && !m.faulted
    ensures var (ok, _, after) := AfterStartScan(m, r, a);
            && Connected(after) && !after.faulted && after.status == m.status
            && (ok <==> && (m.serviceAvailable || Reached(a.service)) && m.status == NoError
                        && a.configure == Answered(OK) && a.subscribe == Answered(OK))
            && after.subscribed == (if ok then after.hal else m.subscribed)
            && (ok ==> && after.serviceAvailable
                       && after.calls == AfterInitIfNeeded(m, a.service).1.calls
                                         + [HalCall(after.hal.value, ConfigureFor(r)),
                                            HalCall(after.hal.value, SubscribeScanResults(SUBSCRIPTION_DELAY_MS))])
  {
  }

  /**
   A stop reaches the HAL under the same condition, and asks the object in hand to end its subscription, which is
   over exactly if the answer arrives.
   */
  lemma {:induction false} StopMeaning(m: ManagerState, a: HalAnswers)
    requires Connected(m) && !m.faulted
    ensures var (ok, _, after) := AfterStopScan(m, a);
            && Connected(after) && !after.faulted && after.status == m.status
            && (ok <==> (m.serviceAvailable || Reached(a.service)) && m.status == NoError && a.unsubscribeOk)
            && (m.serviceAvailable ==> after.hal == m.hal && after.serviceAvailable)
            && (m.serviceAvailable && m.status == NoError ==>
                  && after.calls == m.calls + [HalCall(m.hal.value, UnsubscribeScanResults)]
                  && after.subscribed == if a.unsubscribeOk then Unsubscribed(m) else m.subscribed)
  {
  }

  // ---- runs of the manager ----

  /** Events while no scan runs over offload: the scanner then ignores what it is told in between. */
  datatype ManagerEvent =
    | Start(request: ScanRequest, answers: HalAnswers)
    | Stop(answers: HalAnswers)
    | Results(results: seq<HalScanResult>)
    | Report(status: HalStatus)
    | Death(cookie: nat)

  function AfterObjectDeath(m: ManagerState, cookie: nat): ManagerState {
    if m.hal == Some(cookie) then Forgotten(LostHal(m)) else m
  }

  function ManagerStep(m: ManagerState, e: ManagerEvent): ManagerState {
    match e
    case Start(r, a) => AfterStartScan(m, r, a).2
    case Stop(a) => AfterStopScan(m, a).2
    case Results(results) => m.(cachedScanResults := AllConverted(results))
    case Report(status) => AfterReportError(m, status)
    case Death(cookie) => AfterObjectDeath(m, cookie)
  }

  function ManagerRun(m: ManagerState, events: seq<ManagerEvent>): ManagerState {
    if events == [] then m else ManagerStep(ManagerRun(m, events[..|events| - 1]), events[|events| - 1])
  }

  /** A request other than those that set the service up. */
  predicate IsWork(r: HalRequest) {
    !r.LinkToDeath? && !r.SetEventCallback?
  }

  /** Work is only asked of an object on which the death link and the callback were set up before. */
  predicate FollowSetup(calls: seq<HalCall>) {
    calls == [] ||
    (var front, last := calls[..|calls| - 1], calls[|calls| - 1];
     && FollowSetup(front)
     && (IsWork(last.request) ==>
           HalCall(last.handle, LinkToDeath) in front && HalCall(last.handle, SetEventCallback) in front))
  }

  /** The recorded registrations were made. */
  predicate Registered(m: ManagerState) {
    && (m.deathLink.Some? ==> HalCall(m.deathLink.value, LinkToDeath) in m.calls)
    && (m.callback.Some? ==> HalCall(m.callback.value, SetEventCallback) in m.calls)
  }

  /** Only the object in hand, of an available service, can have a subscription. */
  predicate WellBehaved(m: ManagerState) {
    && Connected(m) && Registered(m) && FollowSetup(m.calls) && !m.faulted
    && (m.subscribed.Some? ==> m.serviceAvailable && m.subscribed == m.hal)
  }

  lemma {:induction false} FollowSetupSnoc(calls: seq<HalCall>, call: HalCall)
    requires FollowSetup(calls)
    requires IsWork(call.request) ==> HalCall(call.handle, LinkToDeath) in calls && HalCall(call.handle, SetEventCallback) in calls
    ensures FollowSetup(calls + [call])
  {
    assert (calls + [call])[..|calls|] == calls;
  }

  lemma {:induction false} CalledBehaves(m: ManagerState, request: HalRequest)
    requires WellBehaved(m) && m.serviceAvailable
    ensures WellBehaved(Called(m, request))
  {
    FollowSetupSnoc(m.calls, HalCall(m.hal.value, request));
  }

  lemma {:induction false} InitBehaves(m: ManagerState, a: ServiceAnswers)
    requires WellBehaved(m)
    ensures WellBehaved(AfterInitIfNeeded(m, a).1)
  {
    if !m.serviceAvailable && a.hal.Some? {
      var link, set_ := HalCall(a.hal.value, LinkToDeath), HalCall(a.hal.value, SetEventCallback);
      FollowSetupSnoc(m.calls, link);
      FollowSetupSnoc(m.calls + [link], set_);
      assert m.calls + SetupCalls(a.hal.value, a) == m.calls + [link] || m.calls + SetupCalls(a.hal.value, a) == m.calls + [link] + [set_];
    }
  }

  lemma {:induction false} StepBehaves(m: ManagerState, e: ManagerEvent)
    requires WellBehaved(m)
    ensures WellBehaved(ManagerStep(m, e))
  {
    match e
    case Start(r, a) =>
      InitBehaves(m, a.service);
      var (ready, after) := AfterInitIfNeeded(m, a.service);
      if Usable(ready, after) {
        CalledBehaves(after, ConfigureFor(r));
        CalledBehaves(Called(after, ConfigureFor(r)), SubscribeScanResults(SUBSCRIPTION_DELAY_MS));
      }
    case Stop(a) =>
      InitBehaves(m, a.service);
      var (ready, after) := AfterInitIfNeeded(m, a.service);
      if Usable(ready, after) {
        CalledBehaves(after, UnsubscribeScanResults);
      }
    case _ =>
  }

  /**
   In every run an available service is in hand, watched and calling back; no call is attempted without one; and
   scans are only asked of an object on which the death link and the callback were set up before; and no object but
   the one in hand is left with a subscription.
   */
  lemma {:induction false} RunStaysConnected(a: ServiceAnswers, events: seq<ManagerEvent>)
    ensures WellBehaved(ManagerRun(Constructed(a), events))
  {
    if events == [] {
      InitBehaves(UNINITIALIZED, a);
    } else {
      RunStaysConnected(a, events[..|events| - 1]);
      StepBehaves(ManagerRun(Constructed(a), events[..|events| - 1]), events[|events| - 1]);
    }
  }

  /** The status is decided by the last report the manager understood. */
  function LastReport(events: seq<ManagerEvent>): Option<StatusCode> {
    if events == [] then None
    else
      var last := events[|events| - 1];
      if last.Report? && Recognised(last.status).Some? then Recognised(last.status) else LastReport(events[..|events| - 1])
  }

  function CleanlyConstructed(a: ServiceAnswers): StatusCode {
    if Reached(a) then NoError else Error
  }

  /** The recorded status is the last understood report, or without one whether the constructor connected. */
  lemma {:induction false} StatusHistory(a: ServiceAnswers, events: seq<ManagerEvent>)
    ensures ManagerRun(Constructed(a), events).status == LastReport(events).GetOr(CleanlyConstructed(a))
  {
    if events != [] {
      StatusHistory(a, events[..|events| - 1]);
      RunStaysConnected(a, events[..|events| - 1]);
    }
  }

  /**
     A scan can be started after a run exactly when the service is or becomes available, it answers OK twice,
     and the status history is clean. So if the service was missing at construction, no scan starts until the
     HAL has reported OK, even if it can be reached by then.
   */
  lemma {:induction false} StartSucceedsWhen(a: ServiceAnswers, events: seq<ManagerEvent>, r: ScanRequest, answers: HalAnswers)
    ensures var m := ManagerRun(Constructed(a), events);
            AfterStartScan(m, r, answers).0 <==>
            && (m.serviceAvailable || Reached(answers.service))
            && LastReport(events).GetOr(CleanlyConstructed(a)) == NoError
            && answers.configure == Answered(OK) && answers.subscribe == Answered(OK)
  {
    StatusHistory(a, events);
    RunStaysConnected(a, events);
    StartMeaning(ManagerRun(Constructed(a), events), r, answers);
  }
}
