/**
 From the settings of a PNO request to what the kernel reads: the pieces of scanning/scanner_impl.cpp and
 scanning/scan_utils.cpp put together.
 */
module PnoOverNetlink {
  import opened Bytes
  import opened AttributeFormat
  import opened AttributeTree
  import opened Nl80211Attribute
  import opened WiphyInfo
  import opened PnoRequest
  import opened SchedScanRequest
  import opened SchedScanDecode
  import S = ScannerImpl

  /** The arguments with which StartPnoScanDefault calls StartScheduledScan. */
  function ScheduledScanFor(n: S.NetlinkRequest, interfaceIndex: nat): Request {
    Request(interfaceIndex, n.interval, n.settings.min2gRssi, n.settings.min5gRssi,
            n.requestRandomMac, n.requestLowPower, n.scanSsids, n.matchSsids, [])
  }

  // ---- every such request fits its format ----

  /** The longest SSID (section 8.4.2.2 of IEEE 802.11-2012). */
  const MAX_SSID_LEN: nat := 32

  predicate ShortSsids(ssids: seq<Ssid>) {
    forall i :: 0 <= i < |ssids| ==> |ssids[i]| <= MAX_SSID_LEN
  }

  predicate ShortNetworks(networks: seq<PnoNetwork>) {
    forall i :: 0 <= i < |networks| ==> |networks[i].ssid| <= MAX_SSID_LEN
  }

  /** Settings a framework can make, capabilities held in their 8-bit fields, and a 32-bit interface index. */
  predicate IsOrdinary(c: S.Config, settings: PnoSettings, interfaceIndex: nat) {
    && ShortNetworks(settings.pnoNetworks) && interfaceIndex < U32_SIZE
    && c.caps.maxNumSchedScanSsids < 256 && c.caps.maxMatchSets < 256
  }

  lemma {:induction false} PrunedIsShort(networks: seq<PnoNetwork>, room: nat)
    requires ShortNetworks(networks)
    ensures ShortSsids(HiddenSsids(networks)) && ShortSsids(Candidates(networks, room))
  {
    if networks != [] {
      PrunedIsShort(networks[..|networks| - 1], room);
    }
  }

  lemma {:induction false} TimesNext(k: nat, room: nat)
    ensures (k + 1) * room == room + k * room
  {
  }

  lemma {:induction false} SizeOfAll(attrs: seq<Attr>, each: nat, room: nat)
    requires room == each + 7 && forall i :: 0 <= i < |attrs| ==> |attrs[i].payload| <= each
    ensures |EncodeAll(attrs)| <= |attrs| * room
  {
    if attrs != [] {
      SizeOfAll(attrs[1..], each, room);
      TimesNext(|attrs[1..]|, room);
      assert |Encode(attrs[0])| <= room by { EncodedSize(attrs[0]); }
    }
  }

  lemma {:induction false} TimesMonotone(j: nat, k: nat, room: nat)
    requires j <= k
    ensures j * room <= k * room
  {
  }

  lemma {:induction false} FewFit(n: Node, each: nat, count: nat)
    requires n.Nest? && n.id < U16_SIZE && AllFitTree(n.kids) && |n.kids| <= count
    requires forall i :: 0 <= i < |n.kids| ==> |ToAttr(n.kids[i]).payload| <= each
    requires NLA_HDRLEN + count * (each + 7) < U16_SIZE
    ensures FitsTree(n) && |ToAttr(n).payload| <= count * (each + 7)
  {
    SizeOfAll(ToAttrs(n.kids), each, each + 7);
    TimesMonotone(|n.kids|, count, each + 7);
  }

  lemma {:induction false} SsidsFit(id: nat, ssids: seq<Ssid>)
    requires id < U16_SIZE && ShortSsids(ssids) && |ssids| < 256
    ensures FitsTree(Nest(id, SsidLeaves(ssids)))
  {
    FewFit(Nest(id, SsidLeaves(ssids)), MAX_SSID_LEN, 255);
  }

  lemma {:induction false} MatchGroupFits(i: nat, ssid: Ssid, rssi5g: int)
    requires i < 256 && |ssid| <= MAX_SSID_LEN
    ensures FitsTree(MatchGroup(i, ssid, rssi5g)) && |ToAttr(MatchGroup(i, ssid, rssi5g)).payload| <= 78
  {
    FewFit(MatchGroup(i, ssid, rssi5g), MAX_SSID_LEN, 2);
  }

  lemma {:induction false} MatchGroupsFit(ssids: seq<Ssid>, rssi5g: int)
    requires ShortSsids(ssids) && |ssids| < 256
    ensures FitsTree(Nest(NL80211_ATTR_SCHED_SCAN_MATCH, MatchGroups(ssids, rssi5g)))
  {
    var n := Nest(NL80211_ATTR_SCHED_SCAN_MATCH, MatchGroups(ssids, rssi5g));
    forall i | 0 <= i < |ssids|
      ensures FitsTree(n.kids[i]) && |ToAttr(n.kids[i]).payload| <= 78
    {
      MatchGroupFits(i, ssids[i], rssi5g);
    }
    FewFit(n, 78, 255);
  }

  lemma {:induction false} IntervalFits(setting: IntervalSetting)
    requires |setting.plans| <= 1
    ensures FitsTree(IntervalNode(setting))
  {
    FewFit(LastPlanNode(setting), 4, 1);
    if setting.plans != [] {
      FewFit(PlanNode(0, setting.plans[0]), 4, 2);
      FewFit(IntervalNode(setting), 22, 2);
    }
  }

  /** Ordinary settings give a request whose attributes and integers all fit. */
  lemma {:induction false} OrdinaryRequestFits(c: S.Config, settings: PnoSettings, associated: bool, interfaceIndex: nat)
    requires IsOrdinary(c, settings, interfaceIndex)
    ensures FitsRequest(ScheduledScanFor(S.RequestFor(c, settings, associated), interfaceIndex))
  {
    var n := S.RequestFor(c, settings, associated);
    var r := ScheduledScanFor(n, interfaceIndex);
    PrunedRespectsCapacity(settings.pnoNetworks, [S.WILDCARD], c.caps.maxNumSchedScanSsids, c.caps.maxMatchSets);
    PrunedIsShort(settings.pnoNetworks, Monus(c.caps.maxNumSchedScanSsids, 1));
    assert ShortSsids(r.scanSsids) && ShortSsids(r.matchSsids);
    SsidsFit(NL80211_ATTR_SCAN_SSIDS, r.scanSsids);
    MatchGroupsFit(r.matchSsids, r.rssi5g);
    IntervalFits(r.interval);
    assert AllFitTree(FixedNodes(r)) && AllFitTree(FlagsPart(r));
    assert RequestNodes(r) == FixedNodes(r) + [] + [IntervalNode(r.interval)] + FlagsPart(r);
  }

  // ---- what the kernel reads ----

  /** The SSIDs to scan for: the wildcard, and no more than the device takes, unless it takes none at all. */
  predicate ScanSsidsWithinLimit(body: Buffer, caps: ScanCapabilities) {
    var ssids := Find(body, NL80211_ATTR_SCAN_SSIDS);
    && ssids.Some? && |ssids.value| >= NLA_HDRLEN && NoShortHeaders(ssids.value[NLA_HDRLEN..])
    && S.WILDCARD in BytesList(ssids.value[NLA_HDRLEN..])
    && (caps.maxNumSchedScanSsids >= 1 <==> |Slices(ssids.value[NLA_HDRLEN..])| <= caps.maxNumSchedScanSsids)
  }

  predicate MatchesWithinLimit(body: Buffer, caps: ScanCapabilities) {
    var matches := Find(body, NL80211_ATTR_SCHED_SCAN_MATCH);
    && matches.Some? && |matches.value| >= NLA_HDRLEN
    && |Slices(matches.value[NLA_HDRLEN..])| <= caps.maxMatchSets
  }

  /** The seconds in an entry of the list of plans, if it is no more than the device takes. */
  predicate EntryWithinLimit(entry: Buffer, caps: ScanCapabilities) {
    && |entry| >= NLA_HDRLEN
    && var interval := FindUInt(entry[NLA_HDRLEN..], NL80211_SCHED_SCAN_PLAN_INTERVAL, 4);
       interval.Some? && interval.value <= caps.maxScanPlanInterval
  }

  /**
   With plans, their number and the last interval are within the limits; the fast interval is as well if the
   tripled interval does not wrap, and on a device with a lower limit than 1431655 s only then.
   */
  predicate PlansWithinLimit(body: Buffer, caps: ScanCapabilities, intervalMs: int) {
    var plans := Find(body, NL80211_ATTR_SCHED_SCAN_PLANS);
    plans.Some? ==>
      && |plans.value| >= NLA_HDRLEN
      && var list := Slices(plans.value[NLA_HDRLEN..]);
         && |list| == 2 <= caps.maxNumScanPlans
         && EntryWithinLimit(list[1], caps)
         && (TripleFits(intervalMs) ==> EntryWithinLimit(list[0], caps))
         && (caps.maxScanPlanInterval < 1_431_655 ==> (EntryWithinLimit(list[0], caps) <==> TripleFits(intervalMs)))
  }

  /** What the kernel reads out of the request for any ordinary settings, against the limits the device announced. */
  lemma {:induction false} KernelReadsWithinLimits(c: S.Config, settings: PnoSettings, associated: bool, interfaceIndex: nat)
    requires IsOrdinary(c, settings, interfaceIndex)
    ensures var body := Body(ScheduledScanFor(S.RequestFor(c, settings, associated), interfaceIndex));
            && ScanSsidsWithinLimit(body, c.caps) && MatchesWithinLimit(body, c.caps)
            && PlansWithinLimit(body, c.caps, settings.intervalMs)
  {
    var n := S.RequestFor(c, settings, associated);
    var r := ScheduledScanFor(n, interfaceIndex);
    OrdinaryRequestFits(c, settings, associated, interfaceIndex);
    DecodesScanSsids(r);
    assert BytesList(Find(Body(r), NL80211_ATTR_SCAN_SSIDS).value[NLA_HDRLEN..])[0] == S.WILDCARD;
    PrunedRespectsCapacity(settings.pnoNetworks, [S.WILDCARD], c.caps.maxNumSchedScanSsids, c.caps.maxMatchSets);
    DecodesMatchGroups(r);
    PlansExcludeInterval(r);
    if n.interval.plans != [] {
      PlansAreWithinLimits(c.caps, settings.intervalMs);
      FastPlanWithinLimit(c.caps, settings.intervalMs);
      DecodesPlans(r);
    }
  }
}
