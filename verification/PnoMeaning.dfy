/**
 What a PNO scan asks for, network by network (scanning/scanner_impl.cpp, scanning/scan_utils.cpp and
 scanning/offload/offload_scan_utils.cpp): read off the positions of the networks in the settings, and off the
 attributes of the packet by their numbers in nl80211.h.
 */
module PnoMeaning {
  import opened Bytes
  import opened AttributeFormat
  import opened Nl80211Attribute
  import opened Nl80211Packet
  import opened WiphyInfo
  import opened PnoRequest
  import opened SchedScanRequest
  import opened SchedScanDecode
  import opened PnoOverNetlink
  import opened OffloadScanManager
  import opened ScannerImpl
  import W = WireLayout

  // ---- networks by position ----

  ghost function HiddenBefore(networks: seq<PnoNetwork>, i: nat): set<nat>
    requires i <= |networks|
  {
    set j: nat | j < i && networks[j].isHidden
  }

  /** A network that is not lost for want of room in the list to scan for. */
  ghost predicate MayMatch(networks: seq<PnoNetwork>, room: nat, i: nat)
    requires i < |networks|
  {
    networks[i].isHidden ==> |HiddenBefore(networks, i)| < room
  }

  ghost function MayMatchBefore(networks: seq<PnoNetwork>, room: nat, i: nat): set<nat>
    requires i <= |networks|
  {
    set j: nat | j < i && MayMatch(networks, room, j)
  }

  /** The first hidden networks, in order, as many as there is room for. */
  ghost predicate ListsHidden(ssids: seq<Ssid>, networks: seq<PnoNetwork>, room: nat) {
    && |ssids| == Min(|HiddenBefore(networks, |networks|)|, room)
    && (forall i :: 0 <= i < |networks| && networks[i].isHidden ==>
          var rank := |HiddenBefore(networks, i)|;
          rank < room ==> rank < |ssids| && ssids[rank] == networks[i].ssid)
  }

  /** Of the networks that are not lost, the first ones, in order, as many as there is room for. */
  ghost predicate ListsMatching(ssids: seq<Ssid>, networks: seq<PnoNetwork>, room: nat, maxMatch: nat) {
    && |ssids| == Min(|MayMatchBefore(networks, room, |networks|)|, maxMatch)
    && (forall i :: 0 <= i < |networks| && MayMatch(networks, room, i) ==>
          var rank := |MayMatchBefore(networks, room, i)|;
          rank < maxMatch ==> rank < |ssids| && ssids[rank] == networks[i].ssid)
  }

  lemma {:induction false} HiddenNext(networks: seq<PnoNetwork>, i: nat)
    requires i < |networks|
    ensures HiddenBefore(networks, i + 1) == if networks[i].isHidden then HiddenBefore(networks, i) + {i} else HiddenBefore(networks, i)
  {
  }

  lemma {:induction false} MayMatchNext(networks: seq<PnoNetwork>, room: nat, i: nat)
    requires i < |networks|
    ensures MayMatchBefore(networks, room, i + 1) ==
            if MayMatch(networks, room, i) then MayMatchBefore(networks, room, i) + {i} else MayMatchBefore(networks, room, i)
  {
  }

  lemma {:induction false} HiddenSize(networks: seq<PnoNetwork>, i: nat)
    requires i <= |networks|
    ensures |HiddenSsids(networks[..i])| == |HiddenBefore(networks, i)|
  {
    if i > 0 {
      HiddenSize(networks, i - 1);
      HiddenSnoc(networks, i - 1);
      HiddenNext(networks, i - 1);
    }
  }

  lemma {:induction false} CandidateSize(networks: seq<PnoNetwork>, room: nat, i: nat)
    requires i <= |networks|
    ensures |Candidates(networks[..i], room)| == |MayMatchBefore(networks, room, i)|
  {
    if i > 0 {
      CandidateSize(networks, room, i - 1);
      HiddenSize(networks, i - 1);
      CandidatesSnoc(networks, room, i - 1);
      MayMatchNext(networks, room, i - 1);
    }
  }

  lemma {:induction false} CandidatesPrefix(networks: seq<PnoNetwork>, room: nat, k: nat)
    requires k <= |networks|
    ensures Candidates(networks[..k], room) <= Candidates(networks, room)
  {
    if k == |networks| {
      assert networks[..k] == networks;
    } else {
      CandidatesPrefix(networks[..|networks| - 1], room, k);
      assert networks[..|networks| - 1][..k] == networks[..k];
    }
  }

  lemma {:induction false} HiddenAt(networks: seq<PnoNetwork>, i: nat)
    requires i < |networks| && networks[i].isHidden
    ensures var rank := |HiddenBefore(networks, i)|;
            rank < |HiddenSsids(networks)| && HiddenSsids(networks)[rank] == networks[i].ssid
  {
    HiddenSize(networks, i);
    HiddenSnoc(networks, i);
    HiddenPrefix(networks, i + 1);
  }

  lemma {:induction false} CandidateAt(networks: seq<PnoNetwork>, room: nat, i: nat)
    requires i < |networks| && MayMatch(networks, room, i)
    ensures var rank := |MayMatchBefore(networks, room, i)|;
            rank < |Candidates(networks, room)| && Candidates(networks, room)[rank] == networks[i].ssid
  {
    HiddenSize(networks, i);
    CandidateSize(networks, room, i);
    CandidatesSnoc(networks, room, i);
    CandidatesPrefix(networks, room, i + 1);
  }

  lemma {:induction false} TakeHidden(networks: seq<PnoNetwork>, room: nat)
    ensures ListsHidden(Take(HiddenSsids(networks), room), networks, room)
  {
    assert networks[..|networks|] == networks;
    HiddenSize(networks, |networks|);
    forall i | 0 <= i < |networks| && networks[i].isHidden && |HiddenBefore(networks, i)| < room
      ensures |HiddenBefore(networks, i)| < |Take(HiddenSsids(networks), room)|
      ensures Take(HiddenSsids(networks), room)[|HiddenBefore(networks, i)|] == networks[i].ssid
    {
      HiddenAt(networks, i);
    }
  }

  lemma {:induction false} TakeMatching(networks: seq<PnoNetwork>, room: nat, maxMatch: nat)
    ensures ListsMatching(Take(Candidates(networks, room), maxMatch), networks, room, maxMatch)
  {
    assert networks[..|networks|] == networks;
    CandidateSize(networks, room, |networks|);
    forall i | 0 <= i < |networks| && MayMatch(networks, room, i) && |MayMatchBefore(networks, room, i)| < maxMatch
      ensures |MayMatchBefore(networks, room, i)| < |Take(Candidates(networks, room), maxMatch)|
      ensures Take(Candidates(networks, room), maxMatch)[|MayMatchBefore(networks, room, i)|] == networks[i].ssid
    {
      CandidateAt(networks, room, i);
    }
  }

  /** The pruned lists by position: behind the seeded SSIDs the hidden ones that fit, and the matches that fit. */
  lemma {:induction false} PrunedByPosition(networks: seq<PnoNetwork>, seeded: seq<Ssid>, maxScan: nat, maxMatch: nat)
    ensures var lists := Pruned(networks, seeded, maxScan, maxMatch);
            var room: nat := if maxScan < |seeded| then 0 else maxScan - |seeded|;
            && seeded <= lists.scan && ListsHidden(lists.scan[|seeded|..], networks, room)
            && ListsMatching(lists.matches, networks, room, maxMatch)
            && lists.security == seq(|lists.matches|, _ => 0)
  {
    var room := Monus(maxScan, |seeded|);
    TakeHidden(networks, room);
    TakeMatching(networks, room, maxMatch);
    assert (seeded + Take(HiddenSsids(networks), room))[|seeded|..] == Take(HiddenSsids(networks), room);
  }

  // ---- what the kernel reads ----

  /** The SSIDs to scan for: the wildcard, and behind it the hidden networks that fit. */
  ghost predicate AsksToScan(body: Buffer, networks: seq<PnoNetwork>, room: nat) {
    var found := Find(body, 45);
    && found.Some? && |found.value| >= 4 && WellFormed(found.value[4..]) && NoShortHeaders(found.value[4..])
    && var ssids := BytesList(found.value[4..]);
       [[]] <= ssids && ListsHidden(ssids[1..], networks, room)
  }

  /** A group of matches for one SSID, with the threshold as a 32-bit two's complement. */
  predicate IsGroup(entry: Buffer, ssid: Ssid, rssi: int) {
    && |entry| >= 4 && BytesReadable(entry[4..], 1)
    && FindBytes(entry[4..], 1) == Some(ssid)
    && FindUInt(entry[4..], 2, 4) == Some(rssi % 0x1_0000_0000)
  }

  /** One group for each network that is matched, in order. */
  ghost predicate AsksToMatch(body: Buffer, settings: PnoSettings, room: nat, maxMatch: nat) {
    var networks := settings.pnoNetworks;
    var found := Find(body, 132);
    && found.Some? && |found.value| >= 4 && WellFormed(found.value[4..])
    && var groups := Slices(found.value[4..]);
       && |groups| == Min(|MayMatchBefore(networks, room, |networks|)|, maxMatch)
       && (forall i :: 0 <= i < |networks| && MayMatch(networks, room, i) ==>
             var rank := |MayMatchBefore(networks, room, i)|;
             rank < maxMatch ==> rank < |groups| && IsGroup(groups[rank], networks[i].ssid, settings.min5gRssi))
  }

  /** An address drawn at random (8) if the device can and is not associated, and low power (512) if it can. */
  predicate AsksForFlags(body: Buffer, features: WiphyFeatures, associated: bool) {
    var random, low := features.supportsRandomMacSchedScan && !associated, features.supportsLowPowerOneshotScan;
    FindUInt(body, 158, 4) ==
      if random && low then Some(520) else if random then Some(8) else if low then Some(512) else None
  }

  /** The 2.4 GHz band (0), and how much its threshold differs from the other, as a signed byte. */
  predicate AsksForThresholds(body: Buffer, settings: PnoSettings) {
    && BytesReadable(body, 247)
    && var found := FindBytes(body, 247);
       && found.Some? && |found.value| == 2 && found.value[0] == 0
       && found.value[1] as int == (settings.min2gRssi - settings.min5gRssi) % 256
  }

  /**
   Three scans at the interval of the settings and then others at three times that, if the device takes two plans
   with three iterations and such an interval, all in 32-bit arithmetic; otherwise scans at the interval, in milliseconds.
   */
  predicate AsksForIntervals(body: Buffer, caps: ScanCapabilities, intervalMs: int) {
    var fast := intervalMs % 0x1_0000_0000;
    var slow := 3 * fast % 0x1_0000_0000;
    if caps.maxNumScanPlans >= 2 && caps.maxScanPlanIterations >= 3 && slow <= caps.maxScanPlanInterval * 1000 % 0x1_0000_0000 then
      var plans := Find(body, 225);
      && Find(body, 119) == None && plans.Some? && |plans.value| >= 4 && WellFormed(plans.value[4..])
      && var list := Slices(plans.value[4..]);
         && |list| == 2 && |list[0]| >= 4 && |list[1]| >= 4
         && FindUInt(list[0][4..], 1, 4) == Some(fast / 1000) && FindUInt(list[0][4..], 2, 4) == Some(3)
         && FindUInt(list[1][4..], 1, 4) == Some(slow / 1000) && Find(list[1][4..], 2) == None
    else Find(body, 225) == None && FindUInt(body, 119, 4) == Some(fast)
  }

  /** All that a request says: for which interface, which networks, how often and how; and no frequencies, so all. */
  ghost predicate AsksKernel(body: Buffer, c: Config, settings: PnoSettings, associated: bool, interfaceIndex: nat) {
    var room: nat := if c.caps.maxNumSchedScanSsids < 1 then 0 else c.caps.maxNumSchedScanSsids - 1;
    && AsksToScan(body, settings.pnoNetworks, room)
    && AsksToMatch(body, settings, room, c.caps.maxMatchSets)
    && AsksForFlags(body, c.features, associated) && AsksForThresholds(body, settings)
    && AsksForIntervals(body, c.caps, settings.intervalMs)
    && FindUInt(body, 3, 4) == Some(interfaceIndex) && Find(body, 44) == None
  }

  lemma {:induction false} ReadsScan(c: Config, settings: PnoSettings, associated: bool, interfaceIndex: nat, room: nat)
    requires IsOrdinary(c, settings, interfaceIndex)
    requires room == if c.caps.maxNumSchedScanSsids < 1 then 0 else c.caps.maxNumSchedScanSsids - 1
    ensures AsksToScan(Body(ScheduledScanFor(RequestFor(c, settings, associated), interfaceIndex)), settings.pnoNetworks, room)
  {
    OrdinaryRequestFits(c, settings, associated, interfaceIndex);
    DecodesScanSsids(ScheduledScanFor(RequestFor(c, settings, associated), interfaceIndex));
    PrunedByPosition(settings.pnoNetworks, [WILDCARD], c.caps.maxNumSchedScanSsids, c.caps.maxMatchSets);
  }

  lemma {:induction false} ReadsMatch(c: Config, settings: PnoSettings, associated: bool, interfaceIndex: nat, room: nat)
    requires IsOrdinary(c, settings, interfaceIndex)
    requires room == if c.caps.maxNumSchedScanSsids < 1 then 0 else c.caps.maxNumSchedScanSsids - 1
    ensures AsksToMatch(Body(ScheduledScanFor(RequestFor(c, settings, associated), interfaceIndex)), settings, room, c.caps.maxMatchSets)
  {
    OrdinaryRequestFits(c, settings, associated, interfaceIndex);
    DecodesMatchGroups(ScheduledScanFor(RequestFor(c, settings, associated), interfaceIndex));
    PrunedByPosition(settings.pnoNetworks, [WILDCARD], c.caps.maxNumSchedScanSsids, c.caps.maxMatchSets);
  }

  lemma {:induction false} ReadsRest(c: Config, settings: PnoSettings, associated: bool, interfaceIndex: nat)
    requires IsOrdinary(c, settings, interfaceIndex)
    ensures var body := Body(ScheduledScanFor(RequestFor(c, settings, associated), interfaceIndex));
            && AsksForFlags(body, c.features, associated) && AsksForThresholds(body, settings)
            && FindUInt(body, 3, 4) == Some(interfaceIndex) && Find(body, 44) == None
  {
    var r := ScheduledScanFor(RequestFor(c, settings, associated), interfaceIndex);
    OrdinaryRequestFits(c, settings, associated, interfaceIndex);
    DecodesFlags(r);
    DecodesRssiAdjust(r);
    DecodesInterface(r);
    DecodesFrequencies(r);
  }

  lemma {:induction false} ReadsIntervals(c: Config, settings: PnoSettings, associated: bool, interfaceIndex: nat)
    requires IsOrdinary(c, settings, interfaceIndex)
    ensures AsksForIntervals(Body(ScheduledScanFor(RequestFor(c, settings, associated), interfaceIndex)), c.caps, settings.intervalMs)
  {
    var r := ScheduledScanFor(RequestFor(c, settings, associated), interfaceIndex);
    OrdinaryRequestFits(c, settings, associated, interfaceIndex);
    PlansExcludeInterval(r);
    if r.interval.plans != [] {
      DecodesPlans(r);
    }
  }

  /** What the kernel reads out of a request, for any ordinary settings. */
  lemma {:induction false} KernelReadsRequest(c: Config, settings: PnoSettings, associated: bool, interfaceIndex: nat)
    requires IsOrdinary(c, settings, interfaceIndex)
    ensures AsksKernel(Body(ScheduledScanFor(RequestFor(c, settings, associated), interfaceIndex)), c, settings, associated, interfaceIndex)
  {
    var room: nat := if c.caps.maxNumSchedScanSsids < 1 then 0 else c.caps.maxNumSchedScanSsids - 1;
    ReadsScan(c, settings, associated, interfaceIndex, room);
    ReadsMatch(c, settings, associated, interfaceIndex, room);
    ReadsRest(c, settings, associated, interfaceIndex);
    ReadsIntervals(c, settings, associated, interfaceIndex);
  }

  /** The packet that carries a request: a command (75) of the family, with a request for an answer (bits 0 and 2). */
  lemma {:induction false} RequestHeaderReads(r: Request, familyId: nat, sequence: nat, pid: nat)
    requires familyId < U16_SIZE && sequence < U32_SIZE && pid < U32_SIZE
    ensures var d := EncodePacket(RequestHeader(familyId, sequence, pid), Body(r));
            && U16At(d, 4) == familyId && U16At(d, 6) == 5 && U32At(d, 8) == sequence && U32At(d, 12) == pid
            && d[16] == 75 && d[20..] == Body(r)
  {
    var h := RequestHeader(familyId, sequence, pid);
    AckFlags();
    HeaderReads(h, Body(r));
    SequenceReads(h, Body(r));
    W.PidReads(h, Body(r));
  }

  lemma {:induction false} AckFlags()
    ensures BitOr(NLM_F_REQUEST, NLM_F_ACK) == 5
  {
    assert BitOr(0, 1) == 1;
    assert BitOr(0, 2) == 2;
    assert BitOr(1, 4) == 5;
  }

  // ---- what the offload HAL is given ----

  function SsidsOf(list: seq<NetworkInfo>): (ssids: seq<Ssid>)
    ensures |ssids| == |list|
    ensures forall i :: 0 <= i < |list| ==> ssids[i] == list[i].ssid
  {
    seq(|list|, i requires 0 <= i < |list| => list[i].ssid)
  }

  /** A threshold cut to a signed byte. */
  predicate IsSignedByte(t: int, v: int) {
    -128 <= t < 128 && (v - t) % 256 == 0
  }

  /** The hidden networks that fit are scanned for, and a filter without flags lets the matched ones through. */
  ghost predicate AsksHal(param: ScanParam, filter: ScanFilter, caps: ScanCapabilities, settings: PnoSettings) {
    var networks, room := settings.pnoNetworks, caps.maxNumSchedScanSsids;
    && param.disconnectedModeScanIntervalMs == settings.intervalMs % 0x1_0000_0000 && param.frequencyList == []
    && ListsHidden(param.ssidList, networks, room)
    && IsSignedByte(filter.rssiThreshold, settings.min5gRssi)
    && ListsMatching(SsidsOf(filter.preferredNetworkInfoList), networks, room, caps.maxMatchSets)
    && (forall i :: 0 <= i < |filter.preferredNetworkInfoList| ==> filter.preferredNetworkInfoList[i].flags == 0)
  }

  lemma {:induction false} SignedByteOf(v: int)
    ensures IsSignedByte(Int8(v), v)
  {
    var q, m := v / 256, v % 256;
    assert v == 256 * q + m;
    if m < 128 {
      assert (v - m) % 256 == 0;
    } else {
      assert v - (m - 256) == 256 * (q + 1);
      assert (v - (m - 256)) % 256 == 0;
    }
  }

  lemma {:induction false} HalReadsRequest(c: Config, settings: PnoSettings)
    ensures var configure := ConfigureFor(OffloadRequestFor(c, settings));
            AsksHal(configure.param, configure.filter, c.caps, settings)
  {
    var lists := Pruned(settings.pnoNetworks, [], c.caps.maxNumSchedScanSsids, c.caps.maxMatchSets);
    PrunedByPosition(settings.pnoNetworks, [], c.caps.maxNumSchedScanSsids, c.caps.maxMatchSets);
    assert lists.scan[0..] == lists.scan;
    FilterNamesMatches(settings, c.caps);
    SignedByteOf(settings.min5gRssi);
    var names := FilterOf(lists.matches, lists.security, settings.min5gRssi).preferredNetworkInfoList;
    assert SsidsOf(names) == lists.matches;
  }
}
