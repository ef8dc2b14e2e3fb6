/**
 What a PNO request asks for (scanning/scanner_impl.cpp): which SSIDs fit the device's capacity, and
 whether the two-step scan plan is used.
 */
module PnoRequest {
  import opened Bytes
  import opened WiphyInfo

  type Ssid = Buffer

  datatype PnoNetwork = PnoNetwork(isHidden: bool, ssid: Ssid)

  datatype PnoSettings = PnoSettings(intervalMs: int, min2gRssi: int, min5gRssi: int, pnoNetworks: seq<PnoNetwork>)

  // ---- pruning by capacity ----

  datatype Lists = Lists(scan: seq<Ssid>, matches: seq<Ssid>, security: seq<nat>, skippedScan: seq<Ssid>, skippedMatch: seq<Ssid>)

  function Min(a: nat, b: nat): nat {
    if a < b then a else b
  }

  function Monus(a: nat, b: nat): nat {
    if a < b then 0 else a - b
  }

  function HiddenSsids(networks: seq<PnoNetwork>): seq<Ssid> {
    if networks == [] then []
    else
      var last := networks[|networks| - 1];
      HiddenSsids(networks[..|networks| - 1]) + if last.isHidden then [last.ssid] else []
  }

  /** Networks that reach the match list: visible ones, and hidden ones among the first `room` hidden ones. */
  function Candidates(networks: seq<PnoNetwork>, room: nat): seq<Ssid> {
    if networks == [] then []
    else
      var front, last := networks[..|networks| - 1], networks[|networks| - 1];
      Candidates(front, room) + if IsCandidate(networks, room, |networks| - 1) then [last.ssid] else []
  }

  function Take<T>(s: seq<T>, n: nat): seq<T> {
    s[..Min(n, |s|)]
  }

  function Drop<T>(s: seq<T>, n: nat): seq<T> {
    s[Min(n, |s|)..]
  }

  /**
     The lists by capacity alone: the hidden SSIDs that fit go to the scan list, and of the networks not lost
     that way the first that fit go to the match list.
   */
  function Pruned(networks: seq<PnoNetwork>, seeded: seq<Ssid>, maxScan: nat, maxMatch: nat): Lists {
    var room := Monus(maxScan, |seeded|);
    ListsFrom(seeded, HiddenSsids(networks), Candidates(networks, room), room, maxMatch)
  }

  function ListsFrom(seeded: seq<Ssid>, hidden: seq<Ssid>, candidates: seq<Ssid>, room: nat, maxMatch: nat): Lists {
    Lists(seeded + Take(hidden, room), Take(candidates, maxMatch), seq(|Take(candidates, maxMatch)|, _ => 0),
          Drop(hidden, room), Drop(candidates, maxMatch))
  }

  /** One more hidden SSID. */
  lemma {:induction false} HiddenGoes(seeded: seq<Ssid>, hidden: seq<Ssid>, candidates: seq<Ssid>, room: nat, maxMatch: nat, x: Ssid)
    ensures var l := ListsFrom(seeded, hidden, candidates, room, maxMatch);
            ListsFrom(seeded, hidden + [x], candidates, room, maxMatch) ==
            if |hidden| < room then l.(scan := l.scan + [x]) else l.(skippedScan := l.skippedScan + [x])
  {
    TakeSnoc(hidden, x, room);
    Regroup(seeded, Take(hidden, room), [x]);
  }

  /** One more candidate. */
  lemma {:induction false} CandidateGoes(seeded: seq<Ssid>, hidden: seq<Ssid>, candidates: seq<Ssid>, room: nat, maxMatch: nat, x: Ssid)
    ensures var l := ListsFrom(seeded, hidden, candidates, room, maxMatch);
            ListsFrom(seeded, hidden, candidates + [x], room, maxMatch) ==
            if |candidates| < maxMatch then l.(matches := l.matches + [x], security := l.security + [0])
            else l.(skippedMatch := l.skippedMatch + [x])
  {
    TakeSnoc(candidates, x, maxMatch);
  }

  lemma {:induction false} TakeSnoc<T>(s: seq<T>, x: T, n: nat)
    ensures Take(s + [x], n) == if |s| < n then Take(s, n) + [x] else Take(s, n)
    ensures Drop(s + [x], n) == if |s| < n then Drop(s, n) else Drop(s, n) + [x]
  {
  }

  lemma {:induction false} HiddenSnoc(networks: seq<PnoNetwork>, i: nat)
    requires i < |networks|
    ensures HiddenSsids(networks[..i + 1]) ==
            if networks[i].isHidden then HiddenSsids(networks[..i]) + [networks[i].ssid] else HiddenSsids(networks[..i])
  {
    assert networks[..i + 1][..i] == networks[..i];
  }

  lemma {:induction false} CandidatesSnoc(networks: seq<PnoNetwork>, room: nat, i: nat)
    requires i < |networks|
    ensures Candidates(networks[..i + 1], room) ==
            if !networks[i].isHidden || |HiddenSsids(networks[..i])| < room
            then Candidates(networks[..i], room) + [networks[i].ssid] else Candidates(networks[..i], room)
  {
    assert networks[..i + 1][..i] == networks[..i];
  }

  /** Taking one more network into the pruned lists, as the loop does. */
  lemma {:induction false} PrunedStep(networks: seq<PnoNetwork>, seeded: seq<Ssid>, maxScan: nat, maxMatch: nat, i: nat)
    requires i < |networks|
    ensures var l, after := Pruned(networks[..i], seeded, maxScan, maxMatch), Pruned(networks[..i + 1], seeded, maxScan, maxMatch);
            var n := networks[i];
            if n.isHidden && |l.scan| + 1 > maxScan then after == l.(skippedScan := l.skippedScan + [n.ssid])
            else
              var scanned := if n.isHidden then l.(scan := l.scan + [n.ssid]) else l;
              after == if |l.matches| + 1 > maxMatch then scanned.(skippedMatch := l.skippedMatch + [n.ssid])
                       else scanned.(matches := l.matches + [n.ssid], security := l.security + [0])
  {
    var room := Monus(maxScan, |seeded|);
    HiddenSnoc(networks, i);
    CandidatesSnoc(networks, room, i);
    var n, hidden, candidates := networks[i], HiddenSsids(networks[..i]), Candidates(networks[..i], room);
    if n.isHidden {
      HiddenGoes(seeded, hidden, candidates, room, maxMatch, n.ssid);
      CandidateGoes(seeded, hidden + [n.ssid], candidates, room, maxMatch, n.ssid);
    } else {
      CandidateGoes(seeded, hidden, candidates, room, maxMatch, n.ssid);
    }
  }

  /** Sorts the networks of a request into the lists, starting from the seeded scan list and no matches. */
  method ParsePnoSettings(settings: PnoSettings, caps: ScanCapabilities, seeded: seq<Ssid>) returns (lists: Lists)
    ensures lists == Pruned(settings.pnoNetworks, seeded, caps.maxNumSchedScanSsids, caps.maxMatchSets)
  {
    var networks := settings.pnoNetworks;
    lists := Lists(seeded, [], [], [], []);
    var i := 0;
    while i < |networks|
      invariant i <= |networks|
      invariant lists == Pruned(networks[..i], seeded, caps.maxNumSchedScanSsids, caps.maxMatchSets)
    {
      PrunedStep(networks, seeded, caps.maxNumSchedScanSsids, caps.maxMatchSets, i);
      var network := networks[i];
      i := i + 1;
      if network.isHidden {
        if |lists.scan| + 1 > caps.maxNumSchedScanSsids {
          lists := lists.(skippedScan := lists.skippedScan + [network.ssid]);
          continue;
        }
        lists := lists.(scan := lists.scan + [network.ssid]);
      }
      if |lists.matches| + 1 > caps.maxMatchSets {
        lists := lists.(skippedMatch := lists.skippedMatch + [network.ssid]);
        continue;
      }
      lists := lists.(matches := lists.matches + [network.ssid], security := lists.security + [0]);
    }
    assert networks[..|networks|] == networks;
  }

  /** The device limits hold, apart from a seeded list that already exceeds them; every match has a security entry. */
  lemma {:induction false} PrunedRespectsCapacity(networks: seq<PnoNetwork>, seeded: seq<Ssid>, maxScan: nat, maxMatch: nat)
    ensures var l := Pruned(networks, seeded, maxScan, maxMatch);
            && (|seeded| <= maxScan ==> |l.scan| <= maxScan)
            && (|seeded| >= maxScan ==> l.scan == seeded)
            && |l.matches| <= maxMatch && |l.security| == |l.matches|
  {
  }

  datatype Outcome = Matched | SkippedForScan | SkippedForMatch

  /** What becomes of one network, by how many hidden ones and how many candidates came before it. */
  function OutcomeOf(networks: seq<PnoNetwork>, room: nat, maxMatch: nat, i: nat): Outcome
    requires i < |networks|
  {
    if !IsCandidate(networks, room, i) then SkippedForScan
    else if |Candidates(networks[..i], room)| < maxMatch then Matched
    else SkippedForMatch
  }

  /** The SSIDs of the networks with a given outcome, in order. */
  function WithOutcome(networks: seq<PnoNetwork>, room: nat, maxMatch: nat, o: Outcome): seq<Ssid> {
    if networks == [] then []
    else
      var i := |networks| - 1;
      Appended(WithOutcome(networks[..i], room, maxMatch, o), networks[i].ssid, OutcomeOf(networks, room, maxMatch, i) == o)
  }

  /** Each network is matched, skipped for the scan list, or skipped for the match list, and the lists keep the order. */
  lemma {:induction false} PrunedPartitions(networks: seq<PnoNetwork>, seeded: seq<Ssid>, maxScan: nat, maxMatch: nat)
    ensures var l := Pruned(networks, seeded, maxScan, maxMatch);
            var room := Monus(maxScan, |seeded|);
            && l.matches == WithOutcome(networks, room, maxMatch, Matched)
            && l.skippedScan == WithOutcome(networks, room, maxMatch, SkippedForScan)
            && l.skippedMatch == WithOutcome(networks, room, maxMatch, SkippedForMatch)
            && |networks| == |l.matches| + |l.skippedScan| + |l.skippedMatch|
  {
    if networks != [] {
      var i := |networks| - 1;
      PrunedPartitions(networks[..i], seeded, maxScan, maxMatch);
      assert networks[..i + 1] == networks;
      OutcomeIsAppended(networks, seeded, maxScan, maxMatch, i);
    }
  }

  function Appended<T>(s: seq<T>, x: T, b: bool): (r: seq<T>)
    ensures |r| == |s| + if b then 1 else 0
  {
    if b then s + [x] else s
  }

  /** One more network goes to the list of its outcome, and to no other. */
  lemma {:induction false} OutcomeIsAppended(networks: seq<PnoNetwork>, seeded: seq<Ssid>, maxScan: nat, maxMatch: nat, i: nat)
    requires i < |networks|
    ensures var l, after := Pruned(networks[..i], seeded, maxScan, maxMatch), Pruned(networks[..i + 1], seeded, maxScan, maxMatch);
            var o, x := OutcomeOf(networks, Monus(maxScan, |seeded|), maxMatch, i), networks[i].ssid;
            && after.matches == Appended(l.matches, x, o == Matched)
            && after.skippedScan == Appended(l.skippedScan, x, o == SkippedForScan)
            && after.skippedMatch == Appended(l.skippedMatch, x, o == SkippedForMatch)
  {
    PrunedStep(networks, seeded, maxScan, maxMatch, i);
  }

  predicate IsCandidate(networks: seq<PnoNetwork>, room: nat, i: nat)
    requires i < |networks|
  {
    !networks[i].isHidden || |HiddenSsids(networks[..i])| < room
  }

  /** A hidden network that is matched, or skipped only for the match list, is scanned for. */
  lemma {:induction false} MatchedHiddenIsScanned(networks: seq<PnoNetwork>, seeded: seq<Ssid>, maxScan: nat, maxMatch: nat, i: nat)
    requires i < |networks| && networks[i].isHidden
    requires OutcomeOf(networks, Monus(maxScan, |seeded|), maxMatch, i) != SkippedForScan
    ensures networks[i].ssid in Pruned(networks, seeded, maxScan, maxMatch).scan
  {
    var room, rank := Monus(maxScan, |seeded|), |HiddenSsids(networks[..i])|;
    HiddenSnoc(networks, i);
    HiddenPrefix(networks, i + 1);
    assert HiddenSsids(networks)[rank] == networks[i].ssid;
    assert Take(HiddenSsids(networks), room)[rank] == networks[i].ssid;
    assert (seeded + Take(HiddenSsids(networks), room))[|seeded| + rank] == networks[i].ssid;
  }

  lemma {:induction false} HiddenPrefix(networks: seq<PnoNetwork>, k: nat)
    requires k <= |networks|
    ensures HiddenSsids(networks[..k]) <= HiddenSsids(networks)
  {
    if k == |networks| {
      assert networks[..k] == networks;
    } else {
      HiddenPrefix(networks[..|networks| - 1], k);
      assert networks[..|networks| - 1][..k] == networks[..k];
    }
  }

  // ---- the filter for the offload HAL (scanning/offload/offload_scan_utils.cpp) ----

  datatype NetworkInfo = NetworkInfo(ssid: Ssid, flags: nat)

  /** A conversion to int8_t. */
  function Int8(v: int): int {
    var m := v % 256;
    if m < 128 then m else m - 256
  }

  datatype ScanFilter = ScanFilter(rssiThreshold: int, preferredNetworkInfoList: seq<NetworkInfo>)

  /** SSIDs without a security flag are left out. */
  function FilterOf(ssids: seq<Ssid>, flags: seq<nat>, rssiThreshold: int): (filter: ScanFilter)
    ensures |filter.preferredNetworkInfoList| == Min(|ssids|, |flags|)
    ensures forall k :: 0 <= k < Min(|ssids|, |flags|) ==>
              filter.preferredNetworkInfoList[k] == NetworkInfo(ssids[k], flags[k])
  {
    ScanFilter(Int8(rssiThreshold),
               seq(Min(|ssids|, |flags|), k requires 0 <= k < Min(|ssids|, |flags|) => NetworkInfo(ssids[k], flags[k])))
  }

  method CreateScanFilter(ssids: seq<Ssid>, flags: seq<nat>, rssiThreshold: int) returns (filter: ScanFilter)
    ensures filter == FilterOf(ssids, flags, rssiThreshold)
  {
    var list: seq<NetworkInfo> := [];
    var i := 0;
    for j := 0 to |ssids|
      invariant i == Min(j, |flags|) == |list|
      invariant forall k :: 0 <= k < i ==> list[k] == NetworkInfo(ssids[k], flags[k])
    {
      if i < |flags| {
        list := list + [NetworkInfo(ssids[j], flags[i])];
        i := i + 1;
      }
    }
    return ScanFilter(Int8(rssiThreshold), list);
  }

  /** The filter of an offload request names exactly the matched networks, in order and none left out. */
  lemma {:induction false} FilterNamesMatches(settings: PnoSettings, caps: ScanCapabilities)
    ensures var lists := Pruned(settings.pnoNetworks, [], caps.maxNumSchedScanSsids, caps.maxMatchSets);
            var names := FilterOf(lists.matches, lists.security, settings.min5gRssi).preferredNetworkInfoList;
            && |names| == |lists.matches|
            && forall k :: 0 <= k < |names| ==> names[k] == NetworkInfo(lists.matches[k], 0)
  {
    PrunedRespectsCapacity(settings.pnoNetworks, [], caps.maxNumSchedScanSsids, caps.maxMatchSets);
  }

  // ---- scan plans ----

  datatype ScanPlan = ScanPlan(intervalMs: nat, nIterations: nat)

  datatype IntervalSetting = IntervalSetting(plans: seq<ScanPlan>, finalIntervalMs: nat)

  const FAST_SCAN_ITERATIONS: nat := 3
  const SLOW_SCAN_INTERVAL_MULTIPLIER: nat := 3
  const MSEC_PER_SEC: nat := 1000

  /** A conversion to uint32_t. */
  function UInt32(v: int): nat {
    v % U32_SIZE
  }

  /** Products are taken in 32-bit unsigned arithmetic. */
  function GenerateIntervalSetting(caps: ScanCapabilities, intervalMs: int): IntervalSetting {
    var supportNumScanPlans := caps.maxNumScanPlans >= 2;
    var supportScanPlanInterval :=
      UInt32(caps.maxScanPlanInterval * 1000) >= UInt32(UInt32(intervalMs) * SLOW_SCAN_INTERVAL_MULTIPLIER);
    var supportScanPlanIterations := caps.maxScanPlanIterations >= FAST_SCAN_ITERATIONS;
    var fastScanInterval := UInt32(intervalMs);
    if supportNumScanPlans && supportScanPlanInterval && supportScanPlanIterations then
      IntervalSetting([ScanPlan(fastScanInterval, FAST_SCAN_ITERATIONS)],
                      UInt32(fastScanInterval * SLOW_SCAN_INTERVAL_MULTIPLIER))
    else
      IntervalSetting([], fastScanInterval)
  }

  predicate IsInt32(v: int) {
    -0x8000_0000 <= v < 0x8000_0000
  }

  /**
     When plans are used, their number (the last one included), the iterations of the fast one and the last
     interval in seconds are within the device's limits, even when a product wraps.
   */
  lemma {:induction false} PlansAreWithinLimits(caps: ScanCapabilities, intervalMs: int)
    requires GenerateIntervalSetting(caps, intervalMs).plans != []
    ensures var setting := GenerateIntervalSetting(caps, intervalMs);
            && |setting.plans| + 1 <= caps.maxNumScanPlans
            && setting.plans[0].nIterations <= caps.maxScanPlanIterations
            && setting.finalIntervalMs / MSEC_PER_SEC <= caps.maxScanPlanInterval
  {
  }

  /** The interval of the fast plan, in whole seconds, is within the device's limit as well. */
  predicate FastPlanIsWithinLimit(caps: ScanCapabilities, intervalMs: int) {
    UInt32(intervalMs) / MSEC_PER_SEC <= caps.maxScanPlanInterval
  }

  /** Tripling the interval stays below 2^32. */
  predicate TripleFits(intervalMs: int) {
    UInt32(intervalMs) * SLOW_SCAN_INTERVAL_MULTIPLIER < U32_SIZE
  }

  /**
     When plans are used and the tripled interval does not wrap, the fast plan respects the limit as well. When it
     wraps, the fast interval is at least 1431655 s, so a device with a lower limit gets a plan it does not support.
   */
  lemma {:induction false} FastPlanWithinLimit(caps: ScanCapabilities, intervalMs: int)
    requires GenerateIntervalSetting(caps, intervalMs).plans != []
    ensures GenerateIntervalSetting(caps, intervalMs).plans[0].intervalMs == UInt32(intervalMs)
    ensures TripleFits(intervalMs) ==> FastPlanIsWithinLimit(caps, intervalMs)
    ensures caps.maxScanPlanInterval < 1_431_655 ==>
              (FastPlanIsWithinLimit(caps, intervalMs) <==> TripleFits(intervalMs))
  {
  }

  /** An interval for which a plan is sent that lasts longer than the device allows, followed by one of no length. */
  lemma {:induction false} WrappedIntervalExceedsLimit()
    ensures var caps := ScanCapabilities(1, 1, 0, 2, 1000, 3);
            var setting := GenerateIntervalSetting(caps, 1_431_655_800);
            && setting.plans == [ScanPlan(1_431_655_800, 3)]
            && setting.plans[0].intervalMs / MSEC_PER_SEC == 1_431_655 > caps.maxScanPlanInterval
            && setting.finalIntervalMs / MSEC_PER_SEC == 0
  {
  }

  /** What the device supports, in exact arithmetic. */
  predicate SupportsPlans(caps: ScanCapabilities, intervalMs: int) {
    && caps.maxNumScanPlans >= 2 && caps.maxScanPlanIterations >= FAST_SCAN_ITERATIONS
    && intervalMs * SLOW_SCAN_INTERVAL_MULTIPLIER <= caps.maxScanPlanInterval * 1000
  }

  /** A device that supports the plans gets them exactly if its limit, as far as 32 bits keep it, still covers them. */
  lemma {:induction false} SupportedPlansAreUsed(caps: ScanCapabilities, intervalMs: int)
    requires 0 <= intervalMs && TripleFits(intervalMs) && intervalMs < U32_SIZE && SupportsPlans(caps, intervalMs)
    ensures GenerateIntervalSetting(caps, intervalMs).plans != [] <==>
            intervalMs * SLOW_SCAN_INTERVAL_MULTIPLIER <= caps.maxScanPlanInterval * 1000 % U32_SIZE
  {
  }

  /**
     Whatever wraps, plans are used exactly when the device supports them if and only if the 32-bit comparison has
     the outcome of the exact one: the quotients by 2^32 must not decide against the remainders. A device that
     lacks the number of plans or iterations never gets any.
   */
  lemma {:induction false} PlansAreUsedWhenSupported(caps: ScanCapabilities, intervalMs: int)
    requires 0 <= intervalMs && IsInt32(intervalMs)
    ensures var wanted, limit := intervalMs * SLOW_SCAN_INTERVAL_MULTIPLIER, caps.maxScanPlanInterval * 1000;
            (GenerateIntervalSetting(caps, intervalMs).plans != [] <==> SupportsPlans(caps, intervalMs)) <==>
            || caps.maxNumScanPlans < 2 || caps.maxScanPlanIterations < FAST_SCAN_ITERATIONS
            || wanted / U32_SIZE == limit / U32_SIZE
            || (wanted / U32_SIZE < limit / U32_SIZE <==> wanted % U32_SIZE <= limit % U32_SIZE)
  {
  }

  /**
     In whole seconds, the last interval is three times the fast one, rounded up by at most two seconds,
     exactly when tripling the interval does not wrap.
   */
  lemma {:induction false} FinalIntervalTriples(caps: ScanCapabilities, intervalMs: int)
    requires IsInt32(intervalMs) && GenerateIntervalSetting(caps, intervalMs).plans != []
    ensures var setting := GenerateIntervalSetting(caps, intervalMs);
            var fast, final := setting.plans[0].intervalMs / MSEC_PER_SEC, setting.finalIntervalMs / MSEC_PER_SEC;
            3 * fast <= final <= 3 * fast + 2 <==> UInt32(intervalMs) * SLOW_SCAN_INTERVAL_MULTIPLIER < U32_SIZE
  {
    var i := UInt32(intervalMs);
    if i * 3 >= U32_SIZE {
      assert UInt32(i * 3) <= i * 3 - U32_SIZE;
    } else {
      assert UInt32(i * 3) == i * 3;
    }
  }

  /** A device limit large enough to wrap hides plans that it supports. */
  lemma {:induction false} WrappedLimitHidesPlans()
    ensures var caps := ScanCapabilities(0, 0, 0, 2, 4_294_968, 3);
            && 20_000 * SLOW_SCAN_INTERVAL_MULTIPLIER <= caps.maxScanPlanInterval * 1000
            && GenerateIntervalSetting(caps, 20_000).plans == []
  {
  }
}
